/**
 * Viewer3DNodeAxis: one dimension of the image, with its fixed index and extent, the sorted set of
 * indices shown along it and the one index among them that is being manipulated.
 */
module AxisState {
  import opened Outcomes
  import opened Decimal

  predicate Sorted(s: seq<int>) {
    forall i, j :: 0 <= i < j < |s| ==> s[i] <= s[j]
  }

  /** Reference definition of ascending order: insertion of each element into the sorted rest. */
  function Insert(x: int, s: seq<int>): seq<int> {
    if s == [] then [x] else if x <= s[0] then [x] + s else [s[0]] + Insert(x, s[1..])
  }

  function SortedOf(s: seq<int>): seq<int> {
    if s == [] then [] else Insert(s[0], SortedOf(s[1..]))
  }

  lemma {:induction false} InsertMultiset(x: int, s: seq<int>)
    ensures multiset(Insert(x, s)) == multiset(s) + multiset{x}
  {
    if s != [] && x > s[0] {
      InsertMultiset(x, s[1..]);
      assert s == [s[0]] + s[1..];
    }
  }

  /** A lower bound of x and of every element of s bounds every element of the insertion. */
  lemma {:induction false} InsertBounded(x: int, s: seq<int>, lo: int)
    requires lo <= x && forall k :: 0 <= k < |s| ==> lo <= s[k]
    ensures forall k :: 0 <= k < |Insert(x, s)| ==> lo <= Insert(x, s)[k]
  {
    if s != [] && x > s[0] {
      InsertBounded(x, s[1..], lo);
    }
  }

  lemma {:induction false} InsertSorted(x: int, s: seq<int>)
    requires Sorted(s)
    ensures Sorted(Insert(x, s))
  {
    if s != [] && x > s[0] {
      InsertSorted(x, s[1..]);
      InsertBounded(x, s[1..], s[0]);
      var r := Insert(x, s[1..]);
      assert Insert(x, s) == [s[0]] + r;
    }
  }

  /** SortedOf really sorts and keeps every element, with its multiplicity. */
  lemma {:induction false} SortedOfProperties(s: seq<int>)
    ensures Sorted(SortedOf(s))
    ensures multiset(SortedOf(s)) == multiset(s)
  {
    if s != [] {
      SortedOfProperties(s[1..]);
      InsertSorted(s[0], SortedOf(s[1..]));
      InsertMultiset(s[0], SortedOf(s[1..]));
      assert s == [s[0]] + s[1..];
    }
  }

  /** Removing the first element of a non-empty sequence removes one occurrence of it. */
  lemma TailMultiset(s: seq<int>)
    requires |s| > 0
    ensures multiset(s[1..]) == multiset(s) - multiset{s[0]}
  {
    assert s == [s[0]] + s[1..];
  }

  /** The first element of a sorted sequence is its least: sorted sequences with the same elements start alike. */
  lemma SameHead(a: seq<int>, b: seq<int>)
    requires Sorted(a) && Sorted(b) && |a| > 0
    requires multiset(a) == multiset(b)
    ensures |b| > 0 && a[0] == b[0]
  {
    assert a[0] in multiset(b);
    var i :| 0 <= i < |b| && b[i] == a[0];
    assert b[0] in multiset(a);
    var j :| 0 <= j < |a| && a[j] == b[0];
  }

  /** Two sorted sequences with the same elements are equal: sorting has exactly one answer. */
  lemma {:induction false} SortedUnique(a: seq<int>, b: seq<int>)
    requires Sorted(a) && Sorted(b)
    requires multiset(a) == multiset(b)
    ensures a == b
  {
    if a == [] {
      assert |b| == |multiset(b)| == 0;
    } else {
      SameHead(a, b);
      TailMultiset(a);
      TailMultiset(b);
      SortedUnique(a[1..], b[1..]);
      assert a == [a[0]] + a[1..];
      assert b == [b[0]] + b[1..];
    }
  }

  lemma SortedPermutationIsSortedOf(a: seq<int>, s: seq<int>)
    requires Sorted(a) && multiset(a) == multiset(s)
    ensures a == SortedOf(s)
  {
    SortedOfProperties(s);
    SortedUnique(a, SortedOf(s));
  }

  /** Exchange two entries. */
  method Swap(a: array<int>, i: int, j: int)
    requires 0 <= i < j < a.Length
    modifies a
    ensures a[..] == old(a[..])[i := old(a[j])][j := old(a[i])]
    ensures multiset(a[..]) == multiset(old(a[..]))
  {
    a[i], a[j] := a[j], a[i];
  }

  /** Move a[i] down into the sorted prefix a[..i], so that a[..i+1] is sorted. */
  method SiftDown(a: array<int>, i: int)
    requires 0 <= i < a.Length
    requires forall k, l :: 0 <= k < l < i ==> a[k] <= a[l]
    modifies a
    ensures forall k, l :: 0 <= k < l <= i ==> a[k] <= a[l]
    ensures multiset(a[..]) == multiset(old(a[..]))
  {
    var j := i;
    while j > 0 && a[j - 1] > a[j]
      invariant 0 <= j <= i
      invariant multiset(a[..]) == multiset(old(a[..]))
      invariant forall k, l :: 0 <= k < l <= i && k != j && l != j ==> a[k] <= a[l]
      invariant forall k, l :: 0 <= k < j < l <= i ==> a[k] <= a[l]
      invariant forall l :: j < l <= i ==> a[j] <= a[l]
    {
      Swap(a, j - 1, j);
      j := j - 1;
    }
    forall k, l | 0 <= k < l <= i ensures a[k] <= a[l] {
      if l == j && k < j - 1 {
        assert a[k] <= a[j - 1];
      }
    }
  }

  /** Arrays.sort on an int[]: ascending order, in place, duplicates kept. */
  method SortInPlace(a: array<int>)
    modifies a
    ensures a[..] == SortedOf(old(a[..]))
  {
    var i := 0;
    while i < a.Length
      invariant 0 <= i <= a.Length
      invariant forall k, l :: 0 <= k < l < i ==> a[k] <= a[l]
      invariant multiset(a[..]) == multiset(old(a[..]))
    {
      SiftDown(a, i);
      i := i + 1;
    }
    SortedPermutationIsSortedOf(a[..], old(a[..]));
  }

  /** Two axes that agree on every field, as the copy constructor leaves them. */
  ghost predicate SameAxis(a: Axis, b: Axis)
    reads a, b
  {
    && a.axisLabel == b.axisLabel && a.index == b.index && a.extent == b.extent
    && a.displayed == b.displayed && a.manipulated == b.manipulated
  }

  class Axis {
    /** The label of the axis's type (the TypedAxis is reduced to its label). */
    const axisLabel: string
    const index: int
    const extent: int
    var displayed: seq<int>
    var manipulated: int

    /** The state every public mutator keeps: a non-empty sorted selection holding the manipulated index. */
    ghost predicate Valid()
      reads this
    {
      |displayed| >= 1 && Sorted(displayed) && manipulated in displayed
    }

    /** Every displayed index is a coordinate of the axis. */
    ghost predicate InRange()
      reads this
    {
      forall i :: 0 <= i < |displayed| ==> 0 <= displayed[i] < extent
    }

    constructor (axisLabel: string, extent: int, index: int)
      ensures this.axisLabel == axisLabel && this.extent == extent && this.index == index
      ensures displayed == [0] && manipulated == 0
      ensures Valid()
      ensures extent >= 1 ==> InRange()
    {
      this.axisLabel := axisLabel;
      this.index := index;
      this.extent := extent;
      displayed := [0];
      manipulated := 0;
    }

    /** The copy constructor: an equal axis of its own. */
    constructor Copy(axis: Axis)
      ensures SameAxis(this, axis)
      ensures axisLabel == axis.axisLabel && extent == axis.extent && index == axis.index
      ensures displayed == axis.displayed && manipulated == axis.manipulated
    {
      axisLabel := axis.axisLabel;
      extent := axis.extent;
      index := axis.index;
      displayed := axis.displayed;
      manipulated := axis.manipulated;
    }

    /**
     * Replace the displayed indices. Every check runs before anything is assigned; on success the
     * caller's array is sorted in place and becomes the selection, and the manipulated index falls back
     * to the smallest displayed one when it is no longer displayed.
     */
    method SetDisplayed(val: array<int>) returns (r: Outcome)
      modifies this, val
      ensures r.Pass? <==> val.Length >= 1 && forall k :: 0 <= k < val.Length ==> 0 <= old(val[k]) < extent
      ensures r.Fail? ==> r.error == IllegalArgument
      ensures r.Fail? ==> displayed == old(displayed) && manipulated == old(manipulated) && val[..] == old(val[..])
      ensures r.Pass? ==> val[..] == SortedOf(old(val[..])) && displayed == val[..]
      ensures r.Pass? ==> manipulated == if old(manipulated) in displayed then old(manipulated) else displayed[0]
      ensures r.Pass? ==> Valid() && InRange()
    {
      if val.Length < 1 {
        return Fail(IllegalArgument);
      }
      for k := 0 to val.Length
        invariant forall j :: 0 <= j < k ==> 0 <= val[j] < extent
      {
        if val[k] >= extent {
          return Fail(IllegalArgument);
        }
        if val[k] < 0 {
          return Fail(IllegalArgument);
        }
      }
      ghost var given := val[..];
      SortInPlace(val);
      SortedOfProperties(given);
      displayed := val[..];
      assert forall k :: 0 <= k < |displayed| ==> displayed[k] in multiset(given);

      var fits := false;
      var k := 0;
      while k < |displayed| && !fits
        invariant 0 <= k <= |displayed|
        invariant fits <==> manipulated in displayed[..k]
      {
        if displayed[k] == manipulated {
          fits := true;
        }
        k := k + 1;
      }
      assert displayed[..|displayed|] == displayed;
      if !fits {
        manipulated := displayed[0];
      }
      r := Pass;
    }

    /** Choose a displayed index as the manipulated one; any other value is rejected and changes nothing. */
    method SetManipulated(val: int) returns (r: Outcome)
      modifies this
      ensures r.Pass? <==> val in old(displayed)
      ensures r.Fail? ==> r.error == IllegalArgument
      ensures displayed == old(displayed)
      ensures manipulated == if r.Pass? then val else old(manipulated)
      ensures old(Valid()) ==> Valid()
    {
      var check := false;
      var k := 0;
      while k < |displayed| && !check
        invariant 0 <= k <= |displayed|
        invariant check <==> val in displayed[..k]
      {
        if displayed[k] == val {
          check := true;
        }
        k := k + 1;
      }
      assert displayed[..|displayed|] == displayed;
      if check {
        manipulated := val;
        r := Pass;
      } else {
        r := Fail(IllegalArgument);
      }
    }

    /** The displayed indices in decimal, one string per entry and in the same order. */
    method GetDisplayedAsString() returns (r: seq<string>)
      ensures |r| == |displayed|
      ensures forall i :: 0 <= i < |r| ==> r[i] == IntToString(displayed[i]) && ParseInt(r[i]) == displayed[i]
    {
      var val := new string[|displayed|];
      for i := 0 to |displayed|
        invariant forall j :: 0 <= j < i ==> val[j] == IntToString(displayed[j])
      {
        val[i] := IntToString(displayed[i]);
      }
      r := val[..];
      forall i | 0 <= i < |r| ensures ParseInt(r[i]) == displayed[i] {
        IntRoundTrip(displayed[i]);
      }
    }
  }
}
