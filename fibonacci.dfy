/**
 * The fibonacci program: two `i32` variables walk the Fibonacci series and
 * the program prints its first `SERIES_LENGTH` numbers.
 */
module Fibonacci {
  import opened RustInt

  /** How many numbers are printed. */
  const SERIES_LENGTH: nat := 20

  /** `(Fib(n + 1), Fib(n + 2))`, computed pairwise as the program does. */
  function FibPair(n: nat): (nat, nat) {
    if n == 0 then (1, 1) else var p := FibPair(n - 1); (p.1, p.0 + p.1)
  }

  /** The `n`-th number of the series, counted from 1. */
  function Fib(n: nat): nat
    requires n >= 1
  {
    FibPair(n - 1).0
  }

  /** `Fib` is the Fibonacci series: it starts 1, 1 and each number is the sum of the two before. */
  lemma FibRecurrence(n: nat)
    requires n >= 1
    ensures Fib(1) == 1 && Fib(2) == 1
    ensures Fib(n + 2) == Fib(n + 1) + Fib(n)
  {
    assert FibPair(n + 1) == (FibPair(n).1, FibPair(n).0 + FibPair(n).1);
    assert FibPair(n) == (FibPair(n - 1).1, FibPair(n - 1).0 + FibPair(n - 1).1);
  }

  function Pow2(n: nat): nat {
    if n == 0 then 1 else 2 * Pow2(n - 1)
  }

  lemma {:induction false} Pow2Monotone(a: nat, b: nat)
    requires a <= b
    ensures Pow2(a) <= Pow2(b)
    decreases b
  {
    if a < b {
      Pow2Monotone(a, b - 1);
    }
  }

  /** The series at most doubles at each step. */
  lemma {:induction false} FibBound(n: nat)
    requires n >= 1
    ensures Fib(n) <= Pow2(n - 1)
  {
    if n > 2 {
      FibBound(n - 1);
      FibBound(n - 2);
      FibRecurrence(n - 2);
      Pow2Monotone(n - 3, n - 2);
    }
  }

  /** Every value the loop computes, up to `Fib(SERIES_LENGTH + 1)`, fits an `i32`. */
  lemma FitsI32(n: nat)
    requires 1 <= n <= SERIES_LENGTH + 1
    ensures Fib(n) <= I32_MAX
  {
    FibBound(n);
    Pow2Monotone(n - 1, 20);
    assert Pow2(4) == 16;
    assert Pow2(8) == 256;
    assert Pow2(12) == 4096;
    assert Pow2(16) == 65536;
    assert Pow2(20) == 1048576;
  }

  /**
   * `main`: the numbers printed, the first before the loop and one per
   * iteration of `for _ in 1..SERIES_LENGTH`.
   */
  method Fibonacci() returns (printed: seq<I32>)
    ensures |printed| == SERIES_LENGTH
    ensures printed[0] == 1
    ensures forall k :: 0 <= k < |printed| ==> printed[k] == Fib(k + 1)
  {
    var value: I32 := 1;
    var prevValue: I32 := 1;
    printed := [prevValue];
    for length := 1 to SERIES_LENGTH
      invariant |printed| == length
      invariant forall k :: 0 <= k < length ==> printed[k] == Fib(k + 1)
      invariant prevValue == Fib(length) && value == Fib(length + 1)
    {
      var currentValue := value;
      printed := printed + [currentValue];
      FitsI32(length + 2);
      value := currentValue + prevValue;
      prevValue := currentValue;
    }
  }
}
