/**
 * The adder crate: `Rectangle::can_hold` with strict comparisons,
 * `add_two`, `greeting`, and the range check of `Guess::new`, each with the
 * tests that exercise it.
 */
module Adder {
  import opened Wrappers
  import opened RustInt
  import opened RustStr
  import AddOne

  // ---------------------------------------------------------------------
  // Substrings, for `str::contains` and `should_panic(expected = ...)`
  // ---------------------------------------------------------------------

  /** `t` occurs in `s` at position `i`. */
  predicate OccursAt(s: string, t: string, i: int) {
    0 <= i && i + |t| <= |s| && s[i..i + |t|] == t
  }

  /** `str::contains`. */
  ghost predicate Contains(s: string, t: string) {
    exists i :: OccursAt(s, t, i)
  }

  lemma ContainsMiddle(a: string, b: string, c: string)
    ensures Contains(a + b + c, b)
  {
    assert (a + b + c)[|a|..|a| + |b|] == b;
    assert OccursAt(a + b + c, b, |a|);
  }

  // ---------------------------------------------------------------------
  // Rectangle::can_hold
  // ---------------------------------------------------------------------

  datatype Rectangle = Rectangle(width: U32, height: U32) {

    /** Strictly wider and strictly taller. */
    predicate CanHold(other: Rectangle) {
      width > other.width && height > other.height
    }
  }

  /**
   * `can_hold` is a strict order: no rectangle holds itself or one of equal
   * dimensions, two rectangles never hold each other, and holding is transitive.
   */
  lemma CanHoldIsStrictOrder(a: Rectangle, b: Rectangle, c: Rectangle)
    ensures a.width == b.width && a.height == b.height ==> !a.CanHold(b)
    ensures a.CanHold(b) ==> !b.CanHold(a)
    ensures a.CanHold(b) && b.CanHold(c) ==> a.CanHold(c)
  {
  }

  /** The tests `larger_can_hold_smaller` and `smaller_cannot_hold_larger`. */
  lemma HoldingTests()
    ensures Rectangle(8, 7).CanHold(Rectangle(5, 1))
    ensures !Rectangle(5, 1).CanHold(Rectangle(8, 7))
  {
  }

  // ---------------------------------------------------------------------
  // add_two
  // ---------------------------------------------------------------------

  /** `a + 2`, which overflows `i32` for the two largest values. */
  function AddTwo(a: I32): (r: I32)
    requires a <= I32_MAX - 2
  {
    a + 2
  }

  /** Adding two is adding one twice. */
  lemma AddTwoIsAddOneTwice(a: I32)
    requires a <= I32_MAX - 2
    ensures AddTwo(a) == AddOne.AddOne(AddOne.AddOne(a))
  {
  }

  /** The test `it_adds_two`. */
  lemma ItAddsTwo()
    ensures AddTwo(2) == 4
  {
  }

  // ---------------------------------------------------------------------
  // greeting
  // ---------------------------------------------------------------------

  /** `greeting` ignores the name it is given. */
  function Greeting(name: string): string {
    "Hello!"
  }

  /** Every name gets the same greeting. */
  lemma GreetingIgnoresName(a: string, b: string)
    ensures Greeting(a) == Greeting(b) == "Hello!"
  {
  }

  /** The greeting for "Carol" does not contain "Carol", so `greeting_contains_name` fails. */
  lemma GreetingOmitsCarol()
    ensures !Contains(Greeting("Carol"), "Carol")
  {
    var s := Greeting("Carol");
    forall i
      ensures !OccursAt(s, "Carol", i)
    {
      if 0 <= i && i + 5 <= |s| {
        assert s[i..i + 5][0] == s[i] != 'C';
      }
    }
  }

  // ---------------------------------------------------------------------
  // Guess::new
  // ---------------------------------------------------------------------

  datatype Guess = Guess(value: I32)

  const TOO_SMALL: string := "greater than or equal to 1"
  const TOO_LARGE: string := "less than or equal to 100"

  /** The panic message of `Guess::new` for a value outside the bound described by `bound`. */
  function GuessMessage(bound: string, value: I32): string {
    "Guess value must be " + bound + (", got " + IntToString(value) + ".")
  }

  /** `Guess::new`: the guess, or the message it panics with. */
  function NewGuess(value: I32): Result<Guess, string> {
    if value < 1 then Err(GuessMessage(TOO_SMALL, value))
    else if value > 100 then Err(GuessMessage(TOO_LARGE, value))
    else Ok(Guess(value))
  }

  /**
   * A guess is made exactly for the values 1 to 100, and keeps the value;
   * below 1 the panic message says "greater than or equal to 1", above 100
   * it says "less than or equal to 100".
   */
  lemma NewGuessRange(value: I32)
    ensures NewGuess(value).Ok? <==> 1 <= value <= 100
    ensures NewGuess(value).Ok? ==> NewGuess(value).value.value == value
    ensures value < 1 ==> Contains(NewGuess(value).error, TOO_SMALL)
    ensures value > 100 ==> Contains(NewGuess(value).error, TOO_LARGE)
  {
    var tail := ", got " + IntToString(value) + ".";
    if value < 1 {
      ContainsMiddle("Guess value must be ", TOO_SMALL, tail);
    } else if value > 100 {
      ContainsMiddle("Guess value must be ", TOO_LARGE, tail);
    }
  }

  /** The test `greater_than_100`: `Guess::new(200)` panics with the expected message. */
  lemma GreaterThan100()
    ensures NewGuess(200).Err? && Contains(NewGuess(200).error, TOO_LARGE)
  {
    NewGuessRange(200);
  }
}
