/**
 * The loops program: five small functions, one per kind of Rust loop. Each
 * is modelled by what it prints (returned as a sequence) and the value its
 * counter ends with.
 */
module Loops {

  /** `loop` with `break counter * 2`: the loop stops at the tenth pass. */
  method LoopWithResult() returns (counter: int, result: int)
    ensures counter == 10 && result == 2 * counter
  {
    counter := 0;
    while true
      invariant 0 <= counter < 10
      decreases 10 - counter
    {
      counter := counter + 1;
      if counter == 10 {
        result := counter * 2;
        break;
      }
    }
  }

  /** A line printed by `loop_with_labels`. */
  datatype LabelsLine = Count(count: int) | Remaining(remaining: int)

  /** What the first `passes` complete passes of the outer loop print. */
  function CompletedPasses(passes: nat): (lines: seq<LabelsLine>)
    ensures |lines| == 3 * passes
  {
    if passes == 0 then []
    else CompletedPasses(passes - 1) + [Count(passes - 1), Remaining(10), Remaining(9)]
  }

  /**
   * `'counting_up: loop` around an inner `loop`: the inner loop breaks when
   * `remaining` reaches 9, and leaves both loops once `count` is 2. So two
   * passes run in full, printing `remaining` twice each, and the third stops
   * after printing `remaining = 10`.
   */
  method LoopWithLabels() returns (count: int, printed: seq<LabelsLine>)
    ensures count == 2
    ensures printed == CompletedPasses(2) + [Count(2), Remaining(10)]
  {
    count := 0;
    printed := [];
    label countingUp: while true
      invariant 0 <= count <= 2
      invariant printed == CompletedPasses(count)
      decreases 2 - count
    {
      printed := printed + [Count(count)];
      var remaining := 10;
      while true
        invariant remaining == 10 || (remaining == 9 && count < 2)
        invariant remaining == 10 ==> printed == CompletedPasses(count) + [Count(count)]
        invariant remaining == 9 ==> printed == CompletedPasses(count) + [Count(count), Remaining(10)]
        decreases remaining
      {
        printed := printed + [Remaining(remaining)];
        if remaining == 9 {
          break;
        }
        if count == 2 {
          break countingUp;
        }
        remaining := remaining - 1;
      }
      count := count + 1;
    }
  }

  /** Each pass of the outer loop prints `remaining` at most twice. */
  lemma {:induction false} AtMostTwoRemainingPerPass(passes: nat)
    ensures forall k :: 0 <= k < passes ==>
      CompletedPasses(passes)[3 * k..3 * k + 3] == [Count(k), Remaining(10), Remaining(9)]
  {
    if passes > 0 {
      AtMostTwoRemainingPerPass(passes - 1);
      var prev := CompletedPasses(passes - 1);
      forall k | 0 <= k < passes
        ensures CompletedPasses(passes)[3 * k..3 * k + 3] == [Count(k), Remaining(10), Remaining(9)]
      {
        if k < passes - 1 {
          assert CompletedPasses(passes)[3 * k..3 * k + 3] == prev[3 * k..3 * k + 3];
        }
      }
    }
  }

  /** `while number != 0`, printing `number` and counting it down from 3. */
  method LoopWithCondition() returns (number: int, printed: seq<int>)
    ensures number == 0
    ensures printed == [3, 2, 1]
  {
    number := 3;
    printed := [];
    while number != 0
      invariant 0 <= number <= 3
      invariant |printed| == 3 - number
      invariant forall k :: 0 <= k < |printed| ==> printed[k] == 3 - k
    {
      printed := printed + [number];
      number := number - 1;
    }
  }

  /** `for element in a`: every element of the array, in order. */
  method LoopCollectionWithFor() returns (visited: seq<int>)
    ensures visited == [10, 20, 30, 40, 50]
  {
    var a := [10, 20, 30, 40, 50];
    visited := [];
    for index := 0 to |a|
      invariant visited == a[..index]
    {
      visited := visited + [a[index]];
    }
    assert a[..|a|] == a;
  }

  /** `for number in (1..4).rev()`: the range 1 to 3 backwards. */
  method LoopRange() returns (printed: seq<int>)
    ensures printed == [3, 2, 1]
  {
    printed := [];
    for number := 4 downto 1
      invariant |printed| == 4 - number
      invariant forall k :: 0 <= k < |printed| ==> printed[k] == 3 - k
    {
      printed := printed + [number];
    }
  }
}
