/**
 * The sorted list of distinct hand strengths: `BinarySearch` finds a strength's index and
 * `BinaryInsert` adds a new strength in place. `BinarySearch` keeps its bounds in
 * unsigned 32-bit integers, whose wrap-around is modelled exactly.
 */
module SortedStrengths {
  import opened Wrappers
  import opened Strengths

  /** `uint` arithmetic is modulo 2^32. */
  const UintLimit: int := 0x1_0000_0000
  /** A `List<T>` holds fewer than 2^31 elements (its `Count` is an `int`). */
  const ListLimit: int := 0x8000_0000

  predicate AllWellFormed(xs: seq<HandStrength>) {
    forall i :: 0 <= i < |xs| ==> WellFormed(xs[i])
  }

  /** Strictly increasing in the `CompareTo` order, hence without duplicates. */
  predicate Sorted(xs: seq<HandStrength>)
    requires AllWellFormed(xs)
  {
    forall i, j :: 0 <= i < j < |xs| ==> Less(xs[i], xs[j])
  }

  lemma LessIrreflexive(a: HandStrength)
    requires WellFormed(a)
    ensures !Less(a, a)
  {
    CompareToZero(a, a);
  }

  /** A positive comparison is `Less` the other way round. */
  lemma GreaterIsLess(a: HandStrength, b: HandStrength)
    requires WellFormed(a) && WellFormed(b)
    ensures CompareTo(a, b) > 0 <==> Less(b, a)
  {
    CompareToAntisymmetric(a, b);
  }

  /** Everything up to a sorted list's element below `x` is below `x`. */
  lemma BelowLess(xs: seq<HandStrength>, i: int, x: HandStrength)
    requires AllWellFormed(xs) && WellFormed(x) && Sorted(xs)
    requires 0 <= i < |xs| && Less(xs[i], x)
    ensures forall k :: 0 <= k <= i ==> Less(xs[k], x)
  {
    forall k | 0 <= k < i
      ensures Less(xs[k], x)
    {
      CompareToTransitive(xs[k], xs[i], x);
    }
  }

  /** Everything from a sorted list's element above `x` on is above `x`. */
  lemma AboveGreater(xs: seq<HandStrength>, i: int, x: HandStrength)
    requires AllWellFormed(xs) && WellFormed(x) && Sorted(xs)
    requires 0 <= i < |xs| && Less(x, xs[i])
    ensures forall k :: i <= k < |xs| ==> Less(x, xs[k])
  {
    forall k | i < k < |xs|
      ensures Less(x, xs[k])
    {
      CompareToTransitive(x, xs[i], xs[k]);
    }
  }

  /** A strength that splits the list into smaller and greater elements is not in it. */
  lemma Absent(xs: seq<HandStrength>, x: HandStrength, split: int)
    requires AllWellFormed(xs) && WellFormed(x)
    requires 0 <= split <= |xs|
    requires forall k :: 0 <= k < split ==> Less(xs[k], x)
    requires forall k :: split <= k < |xs| ==> Less(x, xs[k])
    ensures x !in xs
  {
    if x in xs {
      var k :| 0 <= k < |xs| && xs[k] == x;
      LessIrreflexive(x);
    }
  }

  /** An absent strength above the first element. */
  lemma AbsentAbove(xs: seq<HandStrength>, x: HandStrength, split: int)
    requires AllWellFormed(xs) && WellFormed(x)
    requires 0 < split <= |xs|
    requires forall k :: 0 <= k < split ==> Less(xs[k], x)
    requires forall k :: split <= k < |xs| ==> Less(x, xs[k])
    ensures x !in xs && |xs| > 0 && Less(xs[0], x) && !Less(x, xs[0])
  {
    Absent(xs, x, split);
    LessTotal(xs[0], x);
  }

  /** An absent strength below every element. */
  lemma AbsentBelow(xs: seq<HandStrength>, x: HandStrength)
    requires AllWellFormed(xs) && WellFormed(x)
    requires forall k :: 0 <= k < |xs| ==> Less(x, xs[k])
    ensures x !in xs && (|xs| == 0 || Less(x, xs[0])) && (|xs| > 0 ==> !Less(xs[0], x))
  {
    Absent(xs, x, 0);
    if |xs| > 0 {
      LessTotal(xs[0], x);
    }
  }

  /** What `BinarySearch` does: return an index, return null, or throw from `ElementAt`. */
  datatype SearchOutcome = Found(index: nat) | NotFound | OutOfRange

  /**
   * The loop state of `BinarySearch`: either a window `low .. high` inside the list with
   * everything before it below `item` and everything after it above, or `high` wrapped
   * to 2^32 - 1 (with `low` still 0) because `item` lies below every element.
   */
  predicate Window(list: seq<HandStrength>, item: HandStrength, low: int, high: int)
    requires AllWellFormed(list) && WellFormed(item)
  {
    0 <= low < UintLimit && 0 <= high < UintLimit &&
    if high < |list| then
      low <= high + 1 &&
      (forall k :: 0 <= k < low ==> Less(list[k], item)) &&
      (forall k :: high < k < |list| ==> Less(item, list[k]))
    else
      low == 0 && high == UintLimit - 1 && forall k :: 0 <= k < |list| ==> Less(item, list[k])
  }

  /** What is left to search: the window's width, and nothing once `high` has wrapped. */
  function Remaining(n: int, low: int, high: int): int {
    if high < n then high + 2 - low else 0
  }

  /** `low = index + 1` after `item` compared above the element at `index`. */
  lemma RaiseLow(list: seq<HandStrength>, item: HandStrength, low: int, high: int, index: int)
    requires AllWellFormed(list) && WellFormed(item) && Sorted(list)
    requires Window(list, item, low, high) && high < |list| < ListLimit && low <= index <= high
    requires Less(list[index], item)
    ensures Window(list, item, (index + 1) % UintLimit, high)
    ensures 0 <= Remaining(|list|, (index + 1) % UintLimit, high) < Remaining(|list|, low, high)
  {
    assert (index + 1) % UintLimit == index + 1;
    BelowLess(list, index, item);
  }

  /** `high = index - 1` after `item` compared below the element at `index`; at index 0 it wraps. */
  lemma LowerHigh(list: seq<HandStrength>, item: HandStrength, low: int, high: int, index: int)
    requires AllWellFormed(list) && WellFormed(item) && Sorted(list)
    requires Window(list, item, low, high) && high < |list| < ListLimit && low <= index <= high
    requires index == (low + high) / 2
    requires Less(item, list[index])
    ensures Window(list, item, low, (index - 1) % UintLimit)
    ensures 0 <= Remaining(|list|, low, (index - 1) % UintLimit) < Remaining(|list|, low, high)
  {
    assert (index - 1) % UintLimit == if index == 0 then UintLimit - 1 else index - 1;
    AboveGreater(list, index, item);
  }

  /**
   * `BinarySearch`. A present strength is found at its index. An absent one gives null
   * only when it lies above the first element; below it (or in an empty list) `high`
   * wraps to 2^32 - 1 and the next `ElementAt` is out of range.
   */
  method BinarySearch(list: seq<HandStrength>, item: HandStrength) returns (r: SearchOutcome)
    requires AllWellFormed(list) && WellFormed(item) && Sorted(list)
    requires |list| < ListLimit
    ensures r.Found? <==> item in list
    ensures r.Found? ==> r.index < |list| && list[r.index] == item
    ensures r == NotFound <==> item !in list && |list| > 0 && Less(list[0], item)
    ensures r == OutOfRange <==> item !in list && (|list| == 0 || Less(item, list[0]))
  {
    var low := 0;
    var high := (|list| - 1) % UintLimit;
    while true
      invariant Window(list, item, low, high)
      decreases Remaining(|list|, low, high)
    {
      if low > high {
        AbsentAbove(list, item, low);
        return NotFound;
      }
      var index := ((low + high) % UintLimit) / 2;
      if index >= |list| {
        AbsentBelow(list, item);
        return OutOfRange;
      }
      var comparison := CompareTo(item, list[index]);
      GreaterIsLess(item, list[index]);
      if comparison > 0 {
        RaiseLow(list, item, low, high, index);
        low := (index + 1) % UintLimit;
      } else if comparison < 0 {
        LowerHigh(list, item, low, high, index);
        high := (index - 1) % UintLimit;
      } else {
        CompareToZero(item, list[index]);
        LessTotal(list[0], item);
        return Found(index);
      }
    }
  }

  /** `xs` with `x` inserted at index `i`, as `List.Insert`. */
  function InsertAt(xs: seq<HandStrength>, i: int, x: HandStrength): (r: seq<HandStrength>)
    requires 0 <= i <= |xs|
    ensures |r| == |xs| + 1 && r[i] == x
    ensures multiset(r) == multiset(xs) + multiset{x}
  {
    assert xs == xs[..i] + xs[i..];
    xs[..i] + [x] + xs[i..]
  }

  /** The inserted list holds the old elements and the new one, and nothing else. */
  lemma InsertAtMembers(xs: seq<HandStrength>, i: int, x: HandStrength)
    requires 0 <= i <= |xs|
    ensures forall s :: s in InsertAt(xs, i, x) <==> s in xs || s == x
  {
    var r := InsertAt(xs, i, x);
    forall s ensures s in r <==> s in xs || s == x {
      assert s in r <==> multiset(r)[s] > 0;
      assert s in xs <==> multiset(xs)[s] > 0;
    }
  }

  /** Inserting between the smaller and the greater elements keeps the list sorted. */
  lemma InsertSorted(xs: seq<HandStrength>, i: int, x: HandStrength)
    requires AllWellFormed(xs) && WellFormed(x) && Sorted(xs)
    requires 0 <= i <= |xs|
    requires forall k :: 0 <= k < i ==> Less(xs[k], x)
    requires forall k :: i <= k < |xs| ==> Less(x, xs[k])
    ensures AllWellFormed(InsertAt(xs, i, x)) && Sorted(InsertAt(xs, i, x))
  {
    var r := InsertAt(xs, i, x);
    assert forall k :: 0 <= k < |r| ==> r[k] == if k < i then xs[k] else if k == i then x else xs[k - 1];
  }

  /** A `List<HandStrength>` that the program grows in place. */
  class StrengthList {
    var items: seq<HandStrength>

    constructor()
      ensures items == []
    {
      items := [];
    }
  }

  /**
   * `BinaryInsert`: insert a new strength at its place and return the index, or return
   * null and leave the list alone when an equal strength is already there.
   */
  method BinaryInsert(list: StrengthList, item: HandStrength) returns (r: Option<int>)
    requires AllWellFormed(list.items) && WellFormed(item) && Sorted(list.items)
    requires |list.items| < ListLimit / 2
    modifies list
    ensures r.None? <==> item in old(list.items)
    ensures r.None? ==> list.items == old(list.items)
    ensures r.Some? ==> 0 <= r.value <= |old(list.items)| && list.items == InsertAt(old(list.items), r.value, item)
    ensures AllWellFormed(list.items) && Sorted(list.items)
  {
    var low := 0;
    var high := |list.items| - 1;
    while true
      invariant list.items == old(list.items)
      invariant 0 <= low <= high + 1 <= |list.items|
      invariant forall k :: 0 <= k < low ==> Less(list.items[k], item)
      invariant forall k :: high < k < |list.items| ==> Less(item, list.items[k])
      decreases high + 1 - low
    {
      if low > high {
        Absent(list.items, item, low);
        InsertSorted(list.items, low, item);
        list.items := InsertAt(list.items, low, item);
        return Some(low);
      }
      var index := (low + high) / 2;
      var comparison := CompareTo(item, list.items[index]);
      GreaterIsLess(item, list.items[index]);
      if comparison > 0 {
        BelowLess(list.items, index, item);
        low := index + 1;
      } else if comparison < 0 {
        AboveGreater(list.items, index, item);
        high := index - 1;
      } else {
        CompareToZero(item, list.items[index]);
        return None;
      }
    }
  }
}
