/**
 * The iterators crate: `shows_in_size` keeps the shoes of one size, and the
 * tests state what `next`, `sum` and `map` do on a small vector.
 */
module Iterators {
  import opened Wrappers
  import opened RustInt

  datatype Shoe = Shoe(size: U32, style: string)

  // ---------------------------------------------------------------------
  // shows_in_size
  // ---------------------------------------------------------------------

  /** `shoes.into_iter().filter(|s| s.size == shoe_size).collect()`. */
  function ShoesInSize(shoes: seq<Shoe>, shoeSize: U32): (r: seq<Shoe>)
    ensures |r| <= |shoes|
    ensures forall k :: 0 <= k < |r| ==> r[k].size == shoeSize
  {
    if shoes == [] then []
    else if shoes[0].size == shoeSize then [shoes[0]] + ShoesInSize(shoes[1..], shoeSize)
    else ShoesInSize(shoes[1..], shoeSize)
  }

  /** `a` is `b` with some elements left out and the rest in their order. */
  predicate IsSubsequence(a: seq<Shoe>, b: seq<Shoe>)
    decreases |b|
  {
    if a == [] then true
    else if b == [] then false
    else if a[0] == b[0] then IsSubsequence(a[1..], b[1..])
    else IsSubsequence(a, b[1..])
  }

  /**
   * The filter keeps every shoe of the size, each as often as it occurs,
   * drops all others, and keeps the kept shoes in their order.
   */
  lemma {:induction false} ShoesInSizeKeepsExactlyThatSize(shoes: seq<Shoe>, shoeSize: U32)
    ensures forall s :: (multiset(ShoesInSize(shoes, shoeSize))[s] ==
      if s.size == shoeSize then multiset(shoes)[s] else 0)
    ensures IsSubsequence(ShoesInSize(shoes, shoeSize), shoes)
  {
    if shoes != [] {
      ShoesInSizeKeepsExactlyThatSize(shoes[1..], shoeSize);
      assert shoes == [shoes[0]] + shoes[1..];
    }
  }

  /** Filtering twice by the same size changes nothing more. */
  lemma {:induction false} ShoesInSizeIdempotent(shoes: seq<Shoe>, shoeSize: U32)
    ensures ShoesInSize(ShoesInSize(shoes, shoeSize), shoeSize) == ShoesInSize(shoes, shoeSize)
  {
    if shoes != [] {
      ShoesInSizeIdempotent(shoes[1..], shoeSize);
    }
  }

  /** The test `filters_by_size`. */
  lemma FiltersBySize()
    ensures ShoesInSize([Shoe(10, "sneaker"), Shoe(13, "sandal"), Shoe(10, "boot")], 10)
      == [Shoe(10, "sneaker"), Shoe(10, "boot")]
  {
  }

  // ---------------------------------------------------------------------
  // The iterator facts of the tests
  // ---------------------------------------------------------------------

  /** `v.iter()`: the items and how many have been handed out. */
  datatype Iter = Iter(items: seq<I32>, position: nat)

  /** `Iterator::next`: the next item and the advanced iterator, or `None` once all are out. */
  function Next(it: Iter): (result: (Option<I32>, Iter))
    ensures it.position < |it.items| ==>
      result.0 == Some(it.items[it.position]) && result.1 == it.(position := it.position + 1)
    ensures it.position >= |it.items| ==> result.0 == None && result.1 == it
  {
    if it.position < |it.items| then (Some(it.items[it.position]), it.(position := it.position + 1))
    else (None, it)
  }

  /** Drawing `n` times: the items handed out, in order. */
  function Drain(it: Iter, n: nat): seq<Option<I32>>
    decreases n
  {
    if n == 0 then [] else var (item, rest) := Next(it); [item] + Drain(rest, n - 1)
  }

  /** A fresh iterator hands out every item in order and then `None`. */
  lemma {:induction false} DrainFromStart(items: seq<I32>, position: nat, extra: nat)
    requires position <= |items|
    ensures Drain(Iter(items, position), |items| - position + extra) ==
      seq(|items| - position, k requires 0 <= k < |items| - position => Some(items[position + k]))
        + seq(extra, k => None)
    decreases |items| - position + extra
  {
    if position < |items| {
      DrainFromStart(items, position + 1, extra);
    } else if extra > 0 {
      DrainFromStart(items, position, extra - 1);
    }
  }

  /** The test `iterator_demonstration`. */
  lemma IteratorDemonstration()
    ensures Drain(Iter([1, 2, 3], 0), 4) == [Some(1), Some(2), Some(3), None]
  {
    DrainFromStart([1, 2, 3], 0, 1);
  }

  /** `Iterator::sum` over `i32`, which panics on overflow in a debug build. */
  function Sum(s: seq<int>): int {
    if s == [] then 0 else s[0] + Sum(s[1..])
  }

  /** The test `iterator_sum`. */
  lemma IteratorSum()
    ensures Sum([1, 2, 3]) == 6
  {
  }

  /** `v.iter().map(|x| x + 1).collect()`; `x + 1` overflows on the largest `i32`. */
  function AddOneToEach(s: seq<I32>): (r: seq<I32>)
    requires forall k :: 0 <= k < |s| ==> s[k] < I32_MAX
    ensures |r| == |s|
    ensures forall k :: 0 <= k < |s| ==> r[k] == s[k] + 1
  {
    if s == [] then [] else [s[0] + 1] + AddOneToEach(s[1..])
  }

  /** Mapping adds one to each element, so it adds the length to the sum. */
  lemma {:induction false} SumOfAddOneToEach(s: seq<I32>)
    requires forall k :: 0 <= k < |s| ==> s[k] < I32_MAX
    ensures Sum(AddOneToEach(s)) == Sum(s) + |s|
  {
    if s != [] {
      SumOfAddOneToEach(s[1..]);
    }
  }

  /** The test `iterator_map`. */
  lemma IteratorMap()
    ensures AddOneToEach([1, 2, 3]) == [2, 3, 4]
  {
  }
}
