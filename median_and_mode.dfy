/**
 * median_and_mode: sort a fixed list of integers, report the element at the
 * median position `len / 2 - 1`, count the occurrences of every item in a
 * map, and report the item with the largest count.
 *
 * `Vec::sort` is a library routine; it is modelled by what it produces, the
 * ascending permutation of the list. The order in which the `HashMap` of
 * counts is iterated is unspecified, so it is a parameter: any sequence
 * that visits every key once.
 */
module MedianAndMode {

  /** The list the program starts from. */
  const LIST: seq<int> := [1, 2, 45, 21, 3, 4, 7, 0, 10, 2, 3, 2, 2, 7, 1, 21]

  // ---------------------------------------------------------------------
  // Sorting
  // ---------------------------------------------------------------------

  predicate Ascending(s: seq<int>) {
    forall i, j :: 0 <= i < j < |s| ==> s[i] <= s[j]
  }

  /** Every element of `s` is at least `x`. */
  predicate AllAtLeast(s: seq<int>, x: int) {
    forall i :: 0 <= i < |s| ==> x <= s[i]
  }

  lemma AllAtLeastOfMultiset(s: seq<int>, t: seq<int>, x: int)
    requires AllAtLeast(t, x) && multiset(s) <= multiset(t)
    ensures AllAtLeast(s, x)
  {
    forall i | 0 <= i < |s|
      ensures x <= s[i]
    {
      assert s[i] in multiset(s);
      assert s[i] in multiset(t);
      var j :| 0 <= j < |t| && t[j] == s[i];
    }
  }

  /** `x` placed into an ascending sequence. */
  function Insert(x: int, s: seq<int>): (r: seq<int>)
    requires Ascending(s)
    ensures Ascending(r)
    ensures multiset(r) == multiset(s) + multiset{x}
  {
    if s == [] || x <= s[0] then
      [x] + s
    else
      var tail := Insert(x, s[1..]);
      InsertBehindFirst(x, s, tail);
      [s[0]] + tail
  }

  /** Keeping the first element in front of the insertion into the rest. */
  lemma InsertBehindFirst(x: int, s: seq<int>, tail: seq<int>)
    requires Ascending(s) && s != [] && s[0] < x
    requires Ascending(tail) && multiset(tail) == multiset(s[1..]) + multiset{x}
    ensures Ascending([s[0]] + tail)
    ensures multiset([s[0]] + tail) == multiset(s) + multiset{x}
  {
    assert s == [s[0]] + s[1..];
    assert AllAtLeast(s[1..] + [x], s[0]);
    AllAtLeastOfMultiset(tail, s[1..] + [x], s[0]);
  }

  /** What `list.sort()` leaves in the list. */
  function Sort(s: seq<int>): (r: seq<int>)
    ensures Ascending(r)
    ensures multiset(r) == multiset(s)
  {
    if s == [] then []
    else
      assert s == s[..|s| - 1] + [s[|s| - 1]];
      Insert(s[|s| - 1], Sort(s[..|s| - 1]))
  }

  lemma SplitFirst(a: seq<int>)
    requires a != []
    ensures multiset(a) == multiset{a[0]} + multiset(a[1..])
  {
    assert a == [a[0]] + a[1..];
  }

  /** The first element of an ascending sequence is its least. */
  lemma FirstIsLeast(a: seq<int>, x: int)
    requires Ascending(a) && x in multiset(a)
    ensures a[0] <= x
  {
    var i :| 0 <= i < |a| && a[i] == x;
  }

  /** Two ascending arrangements of one multiset start alike. */
  lemma SameLeast(a: seq<int>, b: seq<int>)
    requires Ascending(a) && Ascending(b)
    requires multiset(a) == multiset(b) && a != []
    ensures b != [] && a[0] == b[0]
    ensures multiset(a[1..]) == multiset(b[1..])
  {
    assert |multiset(b)| == |a|;
    assert b[0] in multiset(b);
    FirstIsLeast(a, b[0]);
    FirstIsLeast(b, a[0]);
    SplitFirst(a);
    SplitFirst(b);
    assert multiset(a[1..]) == multiset(a) - multiset{a[0]};
    assert multiset(b[1..]) == multiset(b) - multiset{b[0]};
  }

  /** There is only one ascending arrangement of a multiset. */
  lemma {:induction false} AscendingUnique(a: seq<int>, b: seq<int>)
    requires Ascending(a) && Ascending(b)
    requires multiset(a) == multiset(b)
    ensures a == b
  {
    if a == [] {
      assert |multiset(b)| == 0;
    } else {
      SameLeast(a, b);
      AscendingUnique(a[1..], b[1..]);
      assert a == [a[0]] + a[1..] && b == [b[0]] + b[1..];
    }
  }

  /** Any ascending permutation of a list is what `Sort` gives. */
  lemma SortIsTheAscendingPermutation(s: seq<int>, r: seq<int>)
    requires Ascending(r) && multiset(r) == multiset(s)
    ensures r == Sort(s)
  {
    AscendingUnique(r, Sort(s));
  }

  // ---------------------------------------------------------------------
  // The median position
  // ---------------------------------------------------------------------

  /**
   * `list_length / 2 - 1`: the `usize` subtraction underflows below two
   * elements. The position lies just left of the middle: one more element
   * follows it than precedes it when the length is even, two more when odd.
   */
  function MiddlePoint(len: nat): (p: nat)
    requires len >= 2
    ensures p < len
    ensures (len - 1 - p) - p == 1 + len % 2
  {
    len / 2 - 1
  }

  // ---------------------------------------------------------------------
  // Counting
  // ---------------------------------------------------------------------

  /** The `item_count` loop: every item of the list is mapped to its number of occurrences. */
  method CountItems(list: seq<int>) returns (counts: map<int, nat>)
    ensures forall x :: x in counts <==> x in list
    ensures forall x :: x in counts ==> counts[x] == multiset(list)[x]
  {
    counts := map[];
    for i := 0 to |list|
      invariant forall x :: x in counts <==> x in list[..i]
      invariant forall x :: x in counts ==> counts[x] == multiset(list[..i])[x]
    {
      var item := list[i];
      var count := if item in counts then counts[item] else 0;
      counts := counts[item := count + 1];
      assert list[..i + 1] == list[..i] + [item];
    }
    assert list[..|list|] == list;
  }

  predicate Distinct(order: seq<int>) {
    forall i, j :: 0 <= i < j < |order| ==> order[i] != order[j]
  }

  /** The counts of the items in `order`, added up. */
  function CountSum(order: seq<int>, counts: map<int, nat>): nat
    requires forall k :: 0 <= k < |order| ==> order[k] in counts
  {
    if order == [] then 0 else counts[order[0]] + CountSum(order[1..], counts)
  }

  /** `n` copies of `x`. */
  function Copies(x: int, n: nat): (m: multiset<int>)
    ensures |m| == n && m[x] == n
    ensures forall y :: y != x ==> m[y] == 0
  {
    if n == 0 then multiset{} else Copies(x, n - 1) + multiset{x}
  }

  /** Visiting every element of a multiset once and adding up the multiplicities gives its size. */
  lemma {:induction false} MultiplicitiesSum(order: seq<int>, m: multiset<int>, counts: map<int, nat>)
    requires Distinct(order)
    requires forall x :: x in order <==> x in m
    requires forall k :: 0 <= k < |order| ==> order[k] in counts && counts[order[k]] == m[order[k]]
    ensures CountSum(order, counts) == |m|
  {
    if order == [] {
      assert m == multiset{} by {
        forall x
          ensures m[x] == 0
        {
          assert x !in order;
        }
      }
    } else {
      var x := order[0];
      var rest := m[x := 0];
      assert m == rest + Copies(x, m[x]);
      forall y
        ensures y in order[1..] <==> y in rest
      {
        if y in order[1..] {
          var k :| 0 <= k < |order[1..]| && order[1..][k] == y;
          assert order[k + 1] == y && y != x;
        }
        if y in rest {
          assert y in order && y != x;
          var k :| 0 <= k < |order| && order[k] == y;
          assert order[1..][k - 1] == y;
        }
      }
      forall k | 0 <= k < |order[1..]|
        ensures counts[order[1..][k]] == rest[order[1..][k]]
      {
        assert order[1..][k] == order[k + 1] != x;
      }
      MultiplicitiesSum(order[1..], rest, counts);
    }
  }

  /** The counts add up to the length of the list, whatever order they are visited in. */
  lemma CountsSumToLength(list: seq<int>, counts: map<int, nat>, order: seq<int>)
    requires forall x :: x in counts <==> x in list
    requires forall x :: x in counts ==> counts[x] == multiset(list)[x]
    requires Distinct(order)
    requires forall k :: 0 <= k < |order| ==> order[k] in counts
    requires forall x :: x in counts ==> x in order
    ensures CountSum(order, counts) == |list|
  {
    MultiplicitiesSum(order, multiset(list), counts);
  }

  // ---------------------------------------------------------------------
  // Selecting the mode
  // ---------------------------------------------------------------------

  /**
   * The `max_item` block: visit the entries in `order`, keeping the first
   * one whose count beats every count seen before it (`count > current_max_count`).
   * The result counts at least as much as every entry; unless nothing has a
   * positive count, it is an entry of that count and no earlier entry reaches it.
   */
  method SelectMode(counts: map<int, nat>, order: seq<int>) returns (item: int, count: nat)
    requires forall k :: 0 <= k < |order| ==> order[k] in counts
    ensures forall k :: 0 <= k < |order| ==> counts[order[k]] <= count
    ensures count == 0 ==> item == 0
    ensures count > 0 ==> exists j :: (0 <= j < |order| && order[j] == item && counts[item] == count &&
      forall k :: 0 <= k < j ==> counts[order[k]] < count)
  {
    item, count := 0, 0;
    ghost var at := 0;
    for i := 0 to |order|
      invariant forall k :: 0 <= k < i ==> counts[order[k]] <= count
      invariant count == 0 ==> item == 0
      invariant count > 0 ==> 0 <= at < i && order[at] == item && counts[item] == count
      invariant count > 0 ==> forall k :: 0 <= k < at ==> counts[order[k]] < count
    {
      var candidate := order[i];
      if counts[candidate] > count {
        item, count := candidate, counts[candidate];
        at := i;
      }
    }
  }

  // ---------------------------------------------------------------------
  // The program
  // ---------------------------------------------------------------------

  /** `LIST` in ascending order. */
  const SORTED: seq<int> := [0, 1, 1, 2, 2, 2, 2, 3, 3, 4, 7, 7, 10, 21, 21, 45]

  /** Where each element of `SORTED` sits in `LIST`. */
  const PLACES: seq<nat> := [7, 0, 14, 1, 9, 11, 12, 4, 10, 5, 6, 13, 8, 3, 15, 2]

  /** `b[k]` is `a[p[k]]`, and `p` names every position of `a` once. */
  predicate Rearranges(a: seq<int>, b: seq<int>, p: seq<nat>) {
    |a| == |b| == |p| &&
    (forall k :: 0 <= k < |p| ==> p[k] < |a| && b[k] == a[p[k]]) &&
    (forall i, j :: 0 <= i < j < |p| ==> p[i] != p[j])
  }

  /** A rearrangement keeps the multiset of elements. */
  lemma {:induction false} RearrangedPermutes(a: seq<int>, b: seq<int>, p: seq<nat>)
    requires Rearranges(a, b, p)
    ensures multiset(a) == multiset(b)
  {
    var n := |b|;
    if n > 0 {
      var j := p[n - 1];
      var rest := a[..j] + a[j + 1..];
      var places: seq<nat> := seq(n - 1, k requires 0 <= k < n - 1 => if p[k] < j then p[k] else p[k] - 1);
      forall k | 0 <= k < n - 1
        ensures places[k] < |rest| && b[..n - 1][k] == rest[places[k]]
      {
        assert p[k] != j;
      }
      forall i, k | 0 <= i < k < n - 1
        ensures places[i] != places[k]
      {
        assert p[i] != p[k] && p[i] != j && p[k] != j;
      }
      RearrangedPermutes(rest, b[..n - 1], places);
      assert a == a[..j] + [a[j]] + a[j + 1..];
      assert b == b[..n - 1] + [b[n - 1]];
    }
  }

  /** A sequence of positions with an inverse names no position twice. */
  lemma DistinctByInverse(p: seq<nat>, inverse: seq<nat>)
    requires forall k :: 0 <= k < |p| ==> p[k] < |inverse| && inverse[p[k]] == k
    ensures forall i, j :: 0 <= i < j < |p| ==> p[i] != p[j]
  {
  }

  /** `PLACES` read backwards: where each element of `LIST` ends up in `SORTED`. */
  const INVERSE_PLACES: seq<nat> := [1, 3, 15, 13, 7, 9, 10, 0, 12, 4, 8, 5, 6, 11, 2, 14]

  lemma PlacesMatch()
    ensures forall k :: 0 <= k < |PLACES| ==> PLACES[k] < |LIST| && SORTED[k] == LIST[PLACES[k]]
  {
  }

  lemma PlacesInverted()
    ensures forall k :: 0 <= k < |PLACES| ==>
      PLACES[k] < |INVERSE_PLACES| && INVERSE_PLACES[PLACES[k]] == k
  {
  }

  lemma SameElements()
    ensures multiset(LIST) == multiset(SORTED)
  {
    PlacesMatch();
    PlacesInverted();
    DistinctByInverse(PLACES, INVERSE_PLACES);
    RearrangedPermutes(LIST, SORTED, PLACES);
  }

  /** `list.sort()` turns `LIST` into `SORTED`. */
  lemma SortedList()
    ensures Sort(LIST) == SORTED
  {
    SameElements();
    SortedIsAscending();
    SortIsTheAscendingPermutation(LIST, SORTED);
  }

  /** An ascending sequence that starts with `x` holds at most three `x`s unless its fourth element is `x`. */
  lemma RunFromStart(s: seq<int>, x: int)
    requires Ascending(s) && s != [] && s[0] == x
    ensures (|s| > 3 && s[3] == x) || multiset(s)[x] <= 3
  {
    if |s| <= 3 {
      assert |multiset(s)| == |s|;
    } else if s[3] != x {
      assert s == s[..3] + s[3..];
      assert x !in s[3..] by {
        forall k | 3 <= k < |s|
          ensures s[k] != x
        {
          assert s[0] <= s[3] <= s[k];
        }
      }
      assert |multiset(s[..3])| == 3;
    }
  }

  /** In an ascending sequence, an element that occurs four times fills four consecutive places. */
  lemma {:induction false} FourOccurrencesAreARun(s: seq<int>, x: int)
    requires Ascending(s) && multiset(s)[x] >= 4
    ensures exists i :: 0 <= i && i + 3 < |s| && s[i] == x && s[i + 3] == x
  {
    assert x in multiset(s);
    SplitFirst(s);
    if s[0] != x {
      FourOccurrencesAreARun(s[1..], x);
      var i :| 0 <= i && i + 3 < |s[1..]| && s[1..][i] == x && s[1..][i + 3] == x;
      assert s[i + 1] == x && s[i + 4] == x;
    } else {
      RunFromStart(s, x);
    }
  }

  /** Ascending, checked on neighbours only. */
  lemma {:induction false} AscendingByNeighbours(s: seq<int>)
    requires forall k :: 0 <= k < |s| - 1 ==> s[k] <= s[k + 1]
    ensures Ascending(s)
  {
    if |s| > 1 {
      AscendingByNeighbours(s[1..]);
      forall j | 0 < j < |s|
        ensures s[0] <= s[j]
      {
        assert s[1..][0] <= s[1..][j - 1];
      }
    }
  }

  lemma SortedIsAscending()
    ensures Ascending(SORTED)
  {
    AscendingByNeighbours(SORTED);
  }

  lemma TwoFourTimes()
    ensures multiset(LIST)[2] == 4
  {
  }

  /** In an ascending sequence whose only runs of four hold `v`, nothing else occurs four times. */
  lemma OnlyRunsOfFour(s: seq<int>, v: int, x: int)
    requires Ascending(s)
    requires forall i :: 0 <= i && i + 3 < |s| && s[i] == s[i + 3] ==> s[i] == v
    ensures x != v ==> multiset(s)[x] < 4
  {
    if multiset(s)[x] >= 4 {
      FourOccurrencesAreARun(s, x);
    }
  }

  /** Four equal elements four places apart occur in `SORTED` only at position 3. */
  lemma RunsOfFourInSorted()
    ensures forall i :: 0 <= i && i + 3 < |SORTED| && SORTED[i] == SORTED[i + 3] ==> SORTED[i] == 2
  {
  }

  /** In `LIST`, 2 occurs four times and every other item fewer. */
  lemma ModeOfList(x: int)
    ensures multiset(LIST)[2] == 4
    ensures x != 2 ==> multiset(LIST)[x] < 4
  {
    SameElements();
    TwoFourTimes();
    SortedIsAscending();
    RunsOfFourInSorted();
    OnlyRunsOfFour(SORTED, 2, x);
  }

  lemma MedianOfSorted()
    ensures SORTED[7] == 3
  {
  }

  /** The selection over counts of `list` lands on 2 when 2 is its only item with four occurrences. */
  lemma SelectedTwo(list: seq<int>, counts: map<int, nat>, order: seq<int>, item: int, count: nat)
    requires forall x :: x in counts ==> counts[x] == multiset(list)[x]
    requires forall k :: 0 <= k < |order| ==> order[k] in counts && counts[order[k]] <= count
    requires 2 in order
    requires count > 0 ==> item in counts && counts[item] == count
    requires multiset(list)[2] == 4 && (item != 2 ==> multiset(list)[item] < 4)
    ensures item == 2 && count == 4
  {
    var k :| 0 <= k < |order| && order[k] == 2;
  }

  /** Every item of `LIST` is an item of the sorted list, and so a key of its counts. */
  lemma SameItems(sorted: seq<int>, x: int)
    requires multiset(sorted) == multiset(LIST)
    ensures x in LIST <==> x in sorted
  {
    assert x in LIST <==> x in multiset(LIST);
    assert x in sorted <==> x in multiset(sorted);
  }

  /**
   * `main`, given the order in which the map of counts is visited: the list
   * sorts to `SORTED`, the median sits at position 7 and is 3, and the mode
   * is 2 with four occurrences whatever that order is.
   */
  method Summary(order: seq<int>) returns (sorted: seq<int>, middle: nat, median: int, item: int, count: nat)
    requires Distinct(order) && forall x :: x in order <==> x in LIST
    ensures Ascending(sorted) && multiset(sorted) == multiset(LIST)
    ensures middle == 7 && median == 3
    ensures item == 2 && count == 4
  {
    sorted := Sort(LIST);
    SortedList();
    var length := |sorted|;
    assert length == 16;
    middle := MiddlePoint(length);
    median := sorted[middle];
    MedianOfSorted();
    var counts := CountItems(sorted);
    forall k | 0 <= k < |order|
      ensures order[k] in counts
    {
      SameItems(sorted, order[k]);
    }
    item, count := SelectMode(counts, order);
    SameItems(sorted, 2);
    ModeOfList(item);
    SelectedTwo(sorted, counts, order, item, count);
  }
}
