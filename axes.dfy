/**
 * Viewer3DNodeAxes: the axes of one image split into a displayed list and a hidden list, the
 * enumeration of every volume reachable through the hidden axes' selections, and the Volume
 * descriptor with its depth map and cache key.
 */
module AxisSet {
  import opened Outcomes
  import opened Decimal
  import opened AxisState

  /** A java.util.List of axes: a mutable object that several owners can share. */
  class AxisList {
    var items: seq<Axis>

    constructor (items: seq<Axis>)
      ensures this.items == items
    {
      this.items := items;
    }
  }

  /** List.remove(Object): drop the first occurrence, if there is one. */
  function RemoveFirst(s: seq<Axis>, x: Axis): (r: seq<Axis>)
    ensures x in s ==> |r| == |s| - 1 && multiset(r) == multiset(s) - multiset{x}
    ensures x !in s ==> r == s
  {
    if s == [] then []
    else
      assert s == [s[0]] + s[1..];
      if s[0] == x then s[1..] else [s[0]] + RemoveFirst(s[1..], x)
  }

  /** List.indexOf(Object): the position of the first occurrence. */
  function IndexOf(s: seq<Axis>, x: Axis): (i: int)
    requires x in s
    ensures 0 <= i < |s| && s[i] == x && x !in s[..i]
  {
    if s[0] == x then 0
    else
      var j := IndexOf(s[1..], x);
      assert s[..j + 1] == [s[0]] + s[1..][..j];
      j + 1
  }

  /** RemoveFirst cuts out the first occurrence, wherever it is. */
  lemma {:induction false} RemoveAt(s: seq<Axis>, x: Axis, i: int)
    requires 0 <= i < |s| && s[i] == x && x !in s[..i]
    ensures RemoveFirst(s, x) == s[..i] + s[i + 1..]
  {
    if i == 0 {
      assert s[..0] + s[1..] == s[1..];
    } else {
      assert s[0] in s[..i];
      assert s[1..][..i - 1] == s[1..i];
      RemoveAt(s[1..], x, i - 1);
      CutBehindHead(s, i);
    }
  }

  /** Cutting out entry i > 0 of s is cutting out entry i - 1 of its tail, behind the head. */
  lemma CutBehindHead(s: seq<Axis>, i: int)
    requires 0 < i < |s|
    ensures s[..i] + s[i + 1..] == [s[0]] + (s[1..][..i - 1] + s[1..][i..])
  {
    assert s[..i] == [s[0]] + s[1..][..i - 1];
    assert s[i + 1..] == s[1..][i..];
  }

  /** What goes is the first occurrence; the axes before and after it keep their order. */
  lemma RemoveFirstOrder(s: seq<Axis>, x: Axis)
    requires x in s
    ensures exists i :: 0 <= i < |s| && s[i] == x && x !in s[..i] && RemoveFirst(s, x) == s[..i] + s[i + 1..]
  {
    var i := IndexOf(s, x);
    RemoveAt(s, x, i);
  }

  // ---------------------------------------------------------------------------------------------
  // Depth arrays and depth maps

  ghost predicate IndicesBelow(s: seq<Axis>, n: int) {
    forall a :: a in s ==> 0 <= a.index < n
  }

  /** The slots that writing the axes of s touches. */
  ghost function Slots(s: seq<Axis>): set<int> {
    set a | a in s :: a.index
  }

  /** The depth map a Volume records: each axis of either list mapped to depths[axis.index]. */
  function DepthMapOf(ds: seq<Axis>, hs: seq<Axis>, depths: seq<int>): map<Axis, int>
    requires forall a :: a in ds + hs ==> 0 <= a.index < |depths|
  {
    map a | a in ds + hs :: depths[a.index]
  }

  /** The depth array after writing c[i] into slot hs[i].index for i = 0, 1, ... in order. */
  ghost function Written(base: seq<int>, hs: seq<Axis>, c: seq<int>): (r: seq<int>)
    requires |c| == |hs| && IndicesBelow(hs, |base|)
    ensures |r| == |base|
    decreases |hs|
  {
    if hs == [] then base else Written(base[hs[0].index := c[0]], hs[1..], c[1..])
  }

  ghost predicate AgreeOutside(x: seq<int>, y: seq<int>, slots: set<int>) {
    |x| == |y| && forall s :: 0 <= s < |x| && s !in slots ==> x[s] == y[s]
  }

  /** Only the touched slots matter to the outcome of a sequence of writes. */
  lemma {:induction false} WrittenIgnoresTouched(x: seq<int>, y: seq<int>, hs: seq<Axis>, c: seq<int>)
    requires |c| == |hs| && IndicesBelow(hs, |x|) && AgreeOutside(x, y, Slots(hs))
    ensures Written(x, hs, c) == Written(y, hs, c)
    decreases |hs|
  {
    if hs == [] {
      assert x == y;
    } else {
      var s0 := hs[0].index;
      assert Slots(hs) == {s0} + Slots(hs[1..]) by {
        assert hs == [hs[0]] + hs[1..];
      }
      WrittenIgnoresTouched(x[s0 := c[0]], y[s0 := c[0]], hs[1..], c[1..]);
    }
  }

  /** When the slots are distinct, each written value ends up in its own slot and the rest stay. */
  lemma {:induction false} WrittenAt(base: seq<int>, hs: seq<Axis>, c: seq<int>)
    requires |c| == |hs| && IndicesBelow(hs, |base|)
    requires forall i, j :: 0 <= i < j < |hs| ==> hs[i].index != hs[j].index
    ensures forall i :: 0 <= i < |hs| ==> Written(base, hs, c)[hs[i].index] == c[i]
    ensures forall s :: 0 <= s < |base| && s !in Slots(hs) ==> Written(base, hs, c)[s] == base[s]
    decreases |hs|
  {
    if hs != [] {
      var s0 := hs[0].index;
      var next := base[s0 := c[0]];
      WrittenAt(next, hs[1..], c[1..]);
      assert forall a :: a in hs[1..] ==> a in hs;
      forall i | 0 <= i < |hs| ensures Written(base, hs, c)[hs[i].index] == c[i] {
        if i > 0 {
          assert hs[1..][i - 1] == hs[i];
        } else {
          NotASlot(hs[1..], s0);
        }
      }
      forall s | 0 <= s < |base| && s !in Slots(hs) ensures Written(base, hs, c)[s] == base[s] {
        assert hs[0] in hs;
        assert s != s0;
        assert Slots(hs[1..]) <= Slots(hs);
      }
    }
  }

  lemma NotASlot(hs: seq<Axis>, s: int)
    requires forall k :: 0 <= k < |hs| ==> hs[k].index != s
    ensures s !in Slots(hs)
  {
  }

  // ---------------------------------------------------------------------------------------------
  // The cartesian product enumerated by appendNextDim

  /** x in front of every combination of cs: one pass of the outer loop. */
  function Tack(x: int, cs: seq<seq<int>>): (r: seq<seq<int>>)
    ensures |r| == |cs| && forall k :: 0 <= k < |cs| ==> r[k] == [x] + cs[k]
  {
    seq(|cs|, k requires 0 <= k < |cs| => [x] + cs[k])
  }

  /** Every value of d prepended to every combination of cs, d's values in order: the outer loop. */
  function Prefixed(d: seq<int>, cs: seq<seq<int>>): (r: seq<seq<int>>)
    ensures |r| == |d| * |cs|
    ensures forall k :: 0 <= k < |r| ==> |r[k]| >= 1 && r[k][0] in d && r[k][1..] in cs
    decreases |d|
  {
    if d == [] then []
    else
      var tack := Tack(d[|d| - 1], cs);
      var r := Prefixed(d[..|d| - 1], cs) + tack;
      assert forall k :: 0 <= k < |tack| ==> tack[k][1..] == cs[k];
      assert |d| * |cs| == (|d| - 1) * |cs| + |cs|;
      r
  }

  /** All choices of one value per selection, the first selection slowest and the last fastest. */
  function Combos(ds: seq<seq<int>>): (r: seq<seq<int>>)
    ensures forall k :: 0 <= k < |r| ==> |r[k]| == |ds|
    ensures forall k, i :: 0 <= k < |r| && 0 <= i < |ds| ==> r[k][i] in ds[i]
    decreases |ds|
  {
    if ds == [] then [[]]
    else
      var tail := Combos(ds[1..]);
      var r := Prefixed(ds[0], tail);
      assert forall k, i :: 0 <= k < |r| && 0 < i < |ds| ==> r[k][i] == r[k][1..][i - 1];
      r
  }

  function Product(ds: seq<seq<int>>): nat {
    if ds == [] then 1 else |ds[0]| * Product(ds[1..])
  }

  /** One combination per element of the product of the selection sizes; exactly one when there are none. */
  lemma {:induction false} CombosCount(ds: seq<seq<int>>)
    ensures |Combos(ds)| == Product(ds)
    decreases |ds|
  {
    if ds != [] {
      CombosCount(ds[1..]);
    }
  }

  ghost predicate StrictlyIncreasing(s: seq<int>) {
    forall i, j :: 0 <= i < j < |s| ==> s[i] < s[j]
  }

  /** a comes before b when they first differ at a smaller value. */
  ghost predicate LexLess(a: seq<int>, b: seq<int>) {
    exists p :: 0 <= p < |a| && p < |b| && a[..p] == b[..p] && a[p] < b[p]
  }

  lemma LexLessCons(x: int, a: seq<int>, y: int, b: seq<int>)
    requires x < y || (x == y && LexLess(a, b))
    ensures LexLess([x] + a, [y] + b)
  {
    if x < y {
      assert ([x] + a)[..0] == ([y] + b)[..0];
    } else {
      var p :| 0 <= p < |a| && p < |b| && a[..p] == b[..p] && a[p] < b[p];
      assert ([x] + a)[..p + 1] == [x] + a[..p];
      assert ([y] + b)[..p + 1] == [y] + b[..p];
    }
  }

  lemma {:induction false} PrefixedAt(d: seq<int>, cs: seq<seq<int>>, j: int, k: int)
    requires 0 <= j < |d| && 0 <= k < |cs|
    ensures 0 <= j * |cs| + k < |Prefixed(d, cs)|
    ensures Prefixed(d, cs)[j * |cs| + k] == [d[j]] + cs[k]
    decreases |d|
  {
    assert j * |cs| + k < (j + 1) * |cs| <= |d| * |cs|;
    if j < |d| - 1 {
      PrefixedAt(d[..|d| - 1], cs, j, k);
    } else {
      assert |Prefixed(d[..|d| - 1], cs)| == j * |cs|;
    }
  }

  lemma DivideBlocks(n: int, c: int) returns (j: int, k: int)
    requires 0 <= n && 0 < c
    ensures 0 <= j && 0 <= k < c && n == j * c + k
  {
    j, k := n / c, n % c;
  }

  lemma BlockOrder(j1: int, k1: int, j2: int, k2: int, c: int)
    requires 0 <= k1 < c && 0 <= k2 < c && j1 * c + k1 < j2 * c + k2
    ensures j1 < j2 || (j1 == j2 && k1 < k2)
  {
    assert j1 * c < (j2 + 1) * c;
  }

  /**
   * With duplicate-free ascending selections the enumeration is strictly increasing in
   * lexicographic order, so it lists distinct combinations, the last selection varying fastest.
   */
  lemma {:induction false} CombosLexIncreasing(ds: seq<seq<int>>)
    requires forall i :: 0 <= i < |ds| ==> StrictlyIncreasing(ds[i])
    ensures forall k1, k2 :: 0 <= k1 < k2 < |Combos(ds)| ==> LexLess(Combos(ds)[k1], Combos(ds)[k2])
    decreases |ds|
  {
    if ds != [] {
      var tail := Combos(ds[1..]);
      CombosLexIncreasing(ds[1..]);
      assert Combos(ds) == Prefixed(ds[0], tail);
      forall k1, k2 | 0 <= k1 < k2 < |Combos(ds)| ensures LexLess(Combos(ds)[k1], Combos(ds)[k2]) {
        PrefixedLexStep(ds[0], tail, k1, k2);
      }
    }
  }

  lemma PrefixedLexStep(d: seq<int>, cs: seq<seq<int>>, k1: int, k2: int)
    requires StrictlyIncreasing(d)
    requires forall i1, i2 :: 0 <= i1 < i2 < |cs| ==> LexLess(cs[i1], cs[i2])
    requires 0 <= k1 < k2 < |Prefixed(d, cs)|
    ensures LexLess(Prefixed(d, cs)[k1], Prefixed(d, cs)[k2])
  {
    var c := |cs|;
    var j1, i1 := DivideBlocks(k1, c);
    var j2, i2 := DivideBlocks(k2, c);
    BlockOrder(j1, i1, j2, i2, c);
    BlockBound(j2, i2, |d|, c);
    PrefixedAt(d, cs, j1, i1);
    PrefixedAt(d, cs, j2, i2);
    LexLessCons(d[j1], cs[i1], d[j2], cs[i2]);
  }

  lemma BlockBound(j: int, k: int, n: int, c: int)
    requires 0 <= j && 0 <= k < c && j * c + k < n * c
    ensures j < n
  {
    assert j * c < n * c;
  }

  // ---------------------------------------------------------------------------------------------
  // Cache keys

  /** The displayed part of a cache key: the labels in list order. */
  function LabelText(ds: seq<Axis>): string
    decreases |ds|
  {
    if ds == [] then "" else LabelText(ds[..|ds| - 1]) + ds[|ds| - 1].axisLabel
  }

  /** StringBuilder.append of a boxed depth: its decimal form, or "null" when the map has no entry. */
  function DepthText(m: map<Axis, int>, a: Axis): string {
    if a in m then IntToString(m[a]) else "null"
  }

  /** The hidden part of a cache key: each label followed by its depth, in list order. */
  function HiddenText(hs: seq<Axis>, m: map<Axis, int>): string
    decreases |hs|
  {
    if hs == [] then "" else HiddenText(hs[..|hs| - 1], m) + hs[|hs| - 1].axisLabel + DepthText(m, hs[|hs| - 1])
  }

  /**
   * The key is a function of the displayed labels in order and of the hidden labels and depths in
   * order alone: volumes that agree on these get the same key, whatever axis objects they hold.
   */
  lemma {:induction false} SameLabelText(ds: seq<Axis>, ds': seq<Axis>)
    requires |ds| == |ds'| && forall i :: 0 <= i < |ds| ==> ds[i].axisLabel == ds'[i].axisLabel
    ensures LabelText(ds) == LabelText(ds')
    decreases |ds|
  {
    if ds != [] {
      SameLabelText(ds[..|ds| - 1], ds'[..|ds| - 1]);
    }
  }

  lemma {:induction false} SameHiddenText(hs: seq<Axis>, m: map<Axis, int>, hs': seq<Axis>, m': map<Axis, int>)
    requires |hs| == |hs'|
    requires forall i :: 0 <= i < |hs| ==> hs[i].axisLabel == hs'[i].axisLabel && DepthText(m, hs[i]) == DepthText(m', hs'[i])
    ensures HiddenText(hs, m) == HiddenText(hs', m')
    decreases |hs|
  {
    if hs != [] {
      SameHiddenText(hs[..|hs| - 1], m, hs'[..|hs| - 1], m');
    }
  }

  /** Displayed labels in another order give another key: X, Y, Z and Z, X, Y are cached apart. */
  lemma DisplayedOrderMatters(x: Axis, y: Axis, z: Axis)
    requires x.axisLabel == "X" && y.axisLabel == "Y" && z.axisLabel == "Z"
    ensures LabelText([x, y, z]) == "XYZ" && LabelText([z, x, y]) == "ZXY"
    ensures LabelText([x, y, z]) != LabelText([z, x, y])
  {
    assert [x, y, z][..2] == [x, y] && [x, y][..1] == [x] && [x][..0] == [];
    assert LabelText([x]) == "X";
    assert LabelText([x, y]) == "XY";
    assert [z, x, y][..2] == [z, x] && [z, x][..1] == [z] && [z][..0] == [];
    assert LabelText([z]) == "Z";
    assert LabelText([z, x]) == "ZX";
  }

  /** Without separators the key is not injective: hidden T at depth 11 and hidden T1 at depth 1 collide. */
  lemma KeyCollision(t: Axis, m: map<Axis, int>, t1: Axis, m1: map<Axis, int>)
    requires t.axisLabel == "T" && t in m && m[t] == 11
    requires t1.axisLabel == "T1" && t1 in m1 && m1[t1] == 1
    ensures HiddenText([t], m) == HiddenText([t1], m1) == "T11"
  {
    assert NatToString(11) == NatToString(1) + [DigitChar(1)];
    assert IntToString(11) == "11" && IntToString(1) == "1";
    assert [t][..0] == [] && [t1][..0] == [];
  }

  // ---------------------------------------------------------------------------------------------
  // Volume

  /** Viewer3DNodeAxes.Volume: the axis lists of one volume and the depth recorded for each axis. */
  class Volume {
    const displayed: AxisList
    const hidden: AxisList
    const depthMap: map<Axis, int>

    /** The plain constructor keeps the lists it is given (no copy) and reads depths[axis.index]. */
    constructor (displayed: AxisList, hidden: AxisList, depths: seq<int>)
      requires forall a :: a in displayed.items + hidden.items ==> 0 <= a.index < |depths|
      ensures this.displayed == displayed && this.hidden == hidden
      ensures depthMap == DepthMapOf(displayed.items, hidden.items, depths)
    {
      var ds, hs := displayed.items, hidden.items;
      var m: map<Axis, int> := map[];
      for i := 0 to |ds|
        invariant m == map a | a in ds[..i] :: depths[a.index]
      {
        assert ds[..i + 1] == ds[..i] + [ds[i]];
        m := m[ds[i] := depths[ds[i].index]];
      }
      assert ds[..|ds|] == ds;
      for i := 0 to |hs|
        invariant m == map a | a in ds + hs[..i] :: depths[a.index]
      {
        assert hs[..i + 1] == hs[..i] + [hs[i]];
        m := m[hs[i] := depths[hs[i].index]];
      }
      assert hs[..|hs|] == hs;
      this.displayed := displayed;
      this.hidden := hidden;
      depthMap := m;
    }

    /** Every axis of both lists has a recorded depth: true from construction until a shared list changes. */
    predicate Consistent()
      reads displayed, hidden
    {
      && (forall i :: 0 <= i < |displayed.items| ==> displayed.items[i] in depthMap)
      && (forall i :: 0 <= i < |hidden.items| ==> hidden.items[i] in depthMap)
    }

    /** The private copy constructor: fresh lists of fresh axis copies, each copy keyed with its original's depth. */
    constructor Copy(vol: Volume)
      requires vol.Consistent()
      ensures fresh(displayed) && fresh(hidden) && displayed != hidden
      ensures CopiesOf(displayed.items, vol.displayed.items) && CopiesOf(hidden.items, vol.hidden.items)
      ensures forall i, j :: 0 <= i < |displayed.items| && 0 <= j < |hidden.items| ==> displayed.items[i] != hidden.items[j]
      ensures forall i :: 0 <= i < |displayed.items| ==> displayed.items[i] in depthMap && depthMap[displayed.items[i]] == vol.depthMap[vol.displayed.items[i]]
      ensures forall i :: 0 <= i < |hidden.items| ==> hidden.items[i] in depthMap && depthMap[hidden.items[i]] == vol.depthMap[vol.hidden.items[i]]
      ensures depthMap.Keys == (set a | a in displayed.items + hidden.items)
    {
      var cd, ch := CopyLists(vol.displayed, vol.hidden);
      var m := CopiedDepths(cd.items, ch.items, vol.displayed.items, vol.hidden.items, vol.depthMap);
      displayed := cd;
      hidden := ch;
      depthMap := m;
    }

    /**
     * deepCopy: a volume with the same key that shares no list and no axis with this one; it fails
     * like the unboxing of a missing map entry when some axis of the lists has no recorded depth.
     */
    method DeepCopy() returns (r: Result<Volume>)
      ensures r.Success? <==> Consistent()
      ensures r.Failure? ==> r.error == NullPointer
      ensures r.Success? ==> fresh(r.value) && fresh(r.value.displayed) && fresh(r.value.hidden)
      ensures r.Success? ==> r.value.CacheKey() == CacheKey() && r.value.Consistent()
      ensures r.Success? ==> CopiesOf(r.value.displayed.items, displayed.items) && CopiesOf(r.value.hidden.items, hidden.items)
      ensures r.Success? ==> forall i :: 0 <= i < |hidden.items| ==>
                r.value.GetDepth(r.value.hidden.items[i]) == GetDepth(hidden.items[i])
      ensures r.Success? ==> forall i :: 0 <= i < |displayed.items| ==>
                r.value.GetDepth(r.value.displayed.items[i]) == GetDepth(displayed.items[i])
    {
      if !Consistent() {
        return Failure(NullPointer);
      }
      var v := new Volume.Copy(this);
      SameLabelText(v.displayed.items, displayed.items);
      SameHiddenText(v.hidden.items, v.depthMap, hidden.items, depthMap);
      r := Success(v);
    }

    /** The key the caches use: the displayed labels, then each hidden label with its depth. */
    function CacheKey(): string
      reads displayed, hidden
    {
      LabelText(displayed.items) + HiddenText(hidden.items, depthMap)
    }

    /** getCacheString: the same key, built with a StringBuilder. */
    method GetCacheString() returns (s: string)
      ensures s == CacheKey()
    {
      var ds, hs := displayed.items, hidden.items;
      s := "";
      for i := 0 to |ds|
        invariant s == LabelText(ds[..i])
      {
        assert ds[..i + 1][..i] == ds[..i];
        s := s + ds[i].axisLabel;
      }
      assert ds[..|ds|] == ds;
      var h := "";
      for i := 0 to |hs|
        invariant h == HiddenText(hs[..i], depthMap)
      {
        assert hs[..i + 1][..i] == hs[..i];
        var a := hs[i];
        var depth := if a in depthMap then IntToString(depthMap[a]) else "null";
        h := h + a.axisLabel;
        h := h + depth;
      }
      assert hs[..|hs|] == hs;
      s := s + h;
    }

    /** getDepth: the recorded depth; a null entry makes the unboxing throw. */
    function GetDepth(a: Axis): (r: Result<int>)
      ensures r.Success? <==> a in depthMap
      ensures r.Success? ==> r.value == depthMap[a]
      ensures r.Failure? ==> r.error == NullPointer
    {
      if a in depthMap then Success(depthMap[a]) else Failure(NullPointer)
    }

    /**
     * getDepths: one slot per map entry; each hidden axis's slot gets its recorded depth, then each
     * displayed axis's slot gets the first of its displayed indices. With distinct slots within each
     * list, a displayed axis's slot holds its first displayed index (even where a hidden axis has the same
     * index, as the displayed loop runs last), a hidden axis's slot holds its recorded depth unless a
     * displayed axis shares it, and every other slot holds 0.
     */
    method GetDepths() returns (r: Result<seq<int>>)
      ensures r.Success? <==> DepthsDefined()
      ensures r.Success? ==> r.value == DepthsWritten()
      ensures r.Failure? ==> HiddenFailsWith(r.error) || (HiddenWritable(hidden.items) && r.error == IndexOutOfBounds)
      ensures r.Success? && DistinctSlots(displayed.items) && DistinctSlots(hidden.items) ==>
                && (forall i :: 0 <= i < |displayed.items| ==>
                      r.value[displayed.items[i].index] == displayed.items[i].displayed[0])
                && (forall i :: 0 <= i < |hidden.items| && hidden.items[i].index !in Slots(displayed.items) ==>
                      r.value[hidden.items[i].index] == depthMap[hidden.items[i]])
                && (forall s :: 0 <= s < |r.value| && s !in Slots(displayed.items) && s !in Slots(hidden.items) ==>
                      r.value[s] == 0)
    {
      var depths := new int[|depthMap|](_ => 0);
      assert depths[..] == Zeros(|depthMap|);
      var hiddenDone := WriteHiddenDepths(depths);
      if hiddenDone.Fail? {
        return Failure(hiddenDone.error);
      }
      var displayedDone := WriteDisplayedDepths(depths);
      if displayedDone.Fail? {
        return Failure(displayedDone.error);
      }
      r := Success(depths[..]);
      if DistinctSlots(displayed.items) && DistinctSlots(hidden.items) {
        DepthsWrittenAt();
      }
    }

    /** A hidden axis can be written when it has a recorded depth and its index is a slot of the array. */
    ghost predicate HiddenSlotOk(a: Axis) {
      a in depthMap && 0 <= a.index < |depthMap|
    }

    ghost predicate HiddenWritable(hs: seq<Axis>) {
      forall k :: 0 <= k < |hs| ==> HiddenSlotOk(hs[k])
    }

    /**
     * The hidden loop stops at the first axis it cannot write: an axis without a recorded depth throws
     * when its depth is unboxed (before the index is checked), otherwise its index is out of bounds.
     */
    ghost predicate HiddenFailsWith(e: Error)
      reads hidden
    {
      exists k :: 0 <= k < |hidden.items| && !HiddenSlotOk(hidden.items[k])
                  && (forall j :: 0 <= j < k ==> HiddenSlotOk(hidden.items[j]))
                  && e == if hidden.items[k] in depthMap then IndexOutOfBounds else NullPointer
    }

    /** The hidden loop of getDepths. */
    method WriteHiddenDepths(depths: array<int>) returns (r: Outcome)
      requires depths.Length == |depthMap|
      modifies depths
      ensures r.Pass? <==> HiddenWritable(hidden.items)
      ensures r.Fail? ==> HiddenFailsWith(r.error)
      ensures r.Pass? ==> depths[..] == HiddenWritten(old(depths[..]), hidden.items)
    {
      var hs := hidden.items;
      ghost var base := depths[..];
      for i := 0 to |hs|
        invariant forall k :: 0 <= k < i ==> HiddenSlotOk(hs[k])
        invariant depths[..] == HiddenWritten(base, hs[..i])
      {
        var a := hs[i];
        if a !in depthMap {
          return Fail(NullPointer);
        }
        if a.index < 0 || a.index >= depths.Length {
          return Fail(IndexOutOfBounds);
        }
        assert hs[..i + 1] == hs[..i] + [a];
        HiddenWrittenAppend(base, hs[..i], a);
        depths[a.index] := depthMap[a];
      }
      assert hs[..|hs|] == hs;
      r := Pass;
    }

    /** The displayed loop of getDepths. */
    method WriteDisplayedDepths(depths: array<int>) returns (r: Outcome)
      requires depths.Length == |depthMap|
      modifies depths
      ensures r.Pass? <==> DisplayedWritable(displayed.items, |depthMap|)
      ensures r.Fail? ==> r.error == IndexOutOfBounds
      ensures r.Pass? ==> depths[..] == DisplayedWritten(old(depths[..]), displayed.items)
    {
      var ds := displayed.items;
      ghost var base := depths[..];
      for i := 0 to |ds|
        invariant DisplayedWritable(ds[..i], depths.Length)
        invariant depths[..] == DisplayedWritten(base, ds[..i])
      {
        var a := ds[i];
        if a.index < 0 || a.index >= depths.Length || |a.displayed| < 1 {
          assert a in ds;
          return Fail(IndexOutOfBounds);
        }
        assert ds[..i + 1] == ds[..i] + [a];
        DisplayedWrittenAppend(base, ds[..i], a);
        depths[a.index] := a.displayed[0];
      }
      assert ds[..|ds|] == ds;
      r := Pass;
    }

    ghost predicate DepthsDefined()
      reads displayed, hidden, displayed.items
    {
      HiddenWritable(hidden.items) && DisplayedWritable(displayed.items, |depthMap|)
    }

    ghost function DepthsWritten(): seq<int>
      reads displayed, hidden, displayed.items
      requires DepthsDefined()
    {
      DisplayedWritten(HiddenWritten(Zeros(|depthMap|), hidden.items), displayed.items)
    }

    /** The hidden loop of getDepths, axis after axis. */
    ghost function HiddenWritten(base: seq<int>, hs: seq<Axis>): (r: seq<int>)
      requires forall a :: a in hs ==> a in depthMap && 0 <= a.index < |base|
      ensures |r| == |base|
      decreases |hs|
    {
      if hs == [] then base
      else
        var last := hs[|hs| - 1];
        HiddenWritten(base, hs[..|hs| - 1])[last.index := depthMap[last]]
    }

    lemma HiddenWrittenAppend(base: seq<int>, hs: seq<Axis>, a: Axis)
      requires forall x :: x in hs + [a] ==> x in depthMap && 0 <= x.index < |base|
      ensures HiddenWritten(base, hs + [a]) == HiddenWritten(base, hs)[a.index := depthMap[a]]
    {
      assert (hs + [a])[..|hs|] == hs;
    }

    /** With distinct slots, the hidden loop leaves each hidden axis's depth in its slot and the rest as they were. */
    lemma {:induction false} HiddenWrittenAt(base: seq<int>, hs: seq<Axis>)
      requires forall a :: a in hs ==> a in depthMap && 0 <= a.index < |base|
      requires DistinctSlots(hs)
      ensures forall i :: 0 <= i < |hs| ==> HiddenWritten(base, hs)[hs[i].index] == depthMap[hs[i]]
      ensures forall s :: 0 <= s < |base| && s !in Slots(hs) ==> HiddenWritten(base, hs)[s] == base[s]
      decreases |hs|
    {
      if hs != [] {
        var init, last := hs[..|hs| - 1], hs[|hs| - 1];
        assert forall a :: a in init ==> a in hs;
        HiddenWrittenAt(base, init);
        forall i | 0 <= i < |hs| ensures HiddenWritten(base, hs)[hs[i].index] == depthMap[hs[i]] {
          if i < |hs| - 1 {
            assert init[i] == hs[i] && hs[i].index != last.index;
          }
        }
        forall s | 0 <= s < |base| && s !in Slots(hs) ensures HiddenWritten(base, hs)[s] == base[s] {
          assert last in hs;
          assert Slots(init) <= Slots(hs);
        }
      }
    }

    /**
     * What getDepths returns, slot by slot: every displayed axis's slot holds its first displayed index,
     * also where a hidden axis has the same index; a hidden axis's slot holds its recorded depth unless a
     * displayed axis shares it; a slot no axis names holds 0.
     */
    lemma DepthsWrittenAt()
      requires DepthsDefined() && DistinctSlots(displayed.items) && DistinctSlots(hidden.items)
      ensures forall i :: 0 <= i < |displayed.items| ==>
                DepthsWritten()[displayed.items[i].index] == displayed.items[i].displayed[0]
      ensures forall i :: 0 <= i < |hidden.items| && hidden.items[i].index !in Slots(displayed.items) ==>
                DepthsWritten()[hidden.items[i].index] == depthMap[hidden.items[i]]
      ensures forall s :: 0 <= s < |depthMap| && s !in Slots(displayed.items) && s !in Slots(hidden.items) ==>
                DepthsWritten()[s] == 0
    {
      var afterHidden := HiddenWritten(Zeros(|depthMap|), hidden.items);
      HiddenWrittenAt(Zeros(|depthMap|), hidden.items);
      DisplayedWrittenAt(afterHidden, displayed.items);
    }
  }

  /** copies[i] is a fresh Viewer3DNodeAxis built by the copy constructor from originals[i]. */
  twostate predicate CopiesOf(new copies: seq<Axis>, originals: seq<Axis>)
    reads copies, originals
  {
    && |copies| == |originals|
    && (forall i :: 0 <= i < |copies| ==> fresh(copies[i]))
    && (forall i, j :: 0 <= i < j < |copies| ==> copies[i] != copies[j])
    && forall i :: 0 <= i < |copies| ==> SameAxis(copies[i], originals[i])
  }

  /** The cache key of each volume, in order. */
  method KeysOf(vols: seq<Volume>) returns (keys: seq<string>)
    ensures |keys| == |vols|
    ensures forall l :: 0 <= l < |vols| ==> keys[l] == vols[l].CacheKey()
  {
    keys := [];
    for k := 0 to |vols|
      invariant |keys| == k
      invariant forall l :: 0 <= l < k ==> keys[l] == vols[l].CacheKey()
    {
      var key := vols[k].GetCacheString();
      keys := keys + [key];
    }
  }

  /** Both lists copied: two fresh lists whose copies are all distinct. */
  method CopyLists(displayed: AxisList, hidden: AxisList) returns (cd: AxisList, ch: AxisList)
    ensures fresh(cd) && fresh(ch) && cd != ch
    ensures CopiesOf(cd.items, displayed.items) && CopiesOf(ch.items, hidden.items)
    ensures forall i, j :: 0 <= i < |cd.items| && 0 <= j < |ch.items| ==> cd.items[i] != ch.items[j]
  {
    cd := CopyList(displayed);
    ch := CopyList(hidden);
  }

  /** The copy constructor's depth map: every copy keyed with its original's depth, and nothing else. */
  method CopiedDepths(ds: seq<Axis>, hs: seq<Axis>, ods: seq<Axis>, ohs: seq<Axis>, depths: map<Axis, int>)
    returns (m: map<Axis, int>)
    requires |ds| == |ods| && |hs| == |ohs|
    requires (forall i :: 0 <= i < |ods| ==> ods[i] in depths) && (forall i :: 0 <= i < |ohs| ==> ohs[i] in depths)
    requires forall i, j :: 0 <= i < j < |ds| ==> ds[i] != ds[j]
    requires forall i, j :: 0 <= i < j < |hs| ==> hs[i] != hs[j]
    requires forall i, j :: 0 <= i < |ds| && 0 <= j < |hs| ==> ds[i] != hs[j]
    ensures forall i :: 0 <= i < |ds| ==> ds[i] in m && m[ds[i]] == depths[ods[i]]
    ensures forall i :: 0 <= i < |hs| ==> hs[i] in m && m[hs[i]] == depths[ohs[i]]
    ensures m.Keys == (set a | a in ds + hs)
  {
    m := PutDepths(map[], ds, ods, depths);
    m := PutDepths(m, hs, ohs, depths);
    assert (set a | a in ds + hs) == (set a | a in ds) + (set a | a in hs);
  }

  /** The copy constructor's map loop: each key gets the depth its original has. */
  method PutDepths(m: map<Axis, int>, keys: seq<Axis>, originals: seq<Axis>, depths: map<Axis, int>) returns (r: map<Axis, int>)
    requires |keys| == |originals| && forall i :: 0 <= i < |originals| ==> originals[i] in depths
    requires forall i, j :: 0 <= i < j < |keys| ==> keys[i] != keys[j]
    ensures r.Keys == m.Keys + set a | a in keys
    ensures forall i :: 0 <= i < |keys| ==> r[keys[i]] == depths[originals[i]]
    ensures forall a :: a in m && a !in keys ==> r[a] == m[a]
  {
    r := m;
    for i := 0 to |keys|
      invariant r.Keys == m.Keys + set a | a in keys[..i]
      invariant forall k :: 0 <= k < i ==> r[keys[k]] == depths[originals[k]]
      invariant forall a :: a in m && a !in keys[..i] ==> r[a] == m[a]
    {
      assert keys[..i + 1] == keys[..i] + [keys[i]];
      r := r[keys[i] := depths[originals[i]]];
    }
    assert keys[..|keys|] == keys;
  }

  /** copyList: a new list of copies, in the same order. */
  method CopyList(list: AxisList) returns (copy: AxisList)
    ensures fresh(copy) && CopiesOf(copy.items, list.items)
  {
    var items: seq<Axis> := [];
    for i := 0 to |list.items|
      invariant |items| == i
      invariant forall k :: 0 <= k < i ==> fresh(items[k]) && SameAxis(items[k], list.items[k])
      invariant forall k, l :: 0 <= k < l < i ==> items[k] != items[l]
    {
      var a := new Axis.Copy(list.items[i]);
      items := items + [a];
    }
    copy := new AxisList(items);
  }

  function Zeros(n: nat): (r: seq<int>)
    ensures |r| == n && forall i :: 0 <= i < n ==> r[i] == 0
  {
    seq(n, i => 0)
  }

  ghost predicate DisplayedWritable(ds: seq<Axis>, n: int)
    reads ds
  {
    forall a :: a in ds ==> 0 <= a.index < n && |a.displayed| >= 1
  }

  /** The displayed loop of getDepths, axis after axis. */
  ghost function DisplayedWritten(base: seq<int>, ds: seq<Axis>): (r: seq<int>)
    reads ds
    requires DisplayedWritable(ds, |base|)
    ensures |r| == |base|
    decreases |ds|
  {
    if ds == [] then base
    else
      var last := ds[|ds| - 1];
      DisplayedWritten(base, ds[..|ds| - 1])[last.index := last.displayed[0]]
  }

  lemma DisplayedWrittenAppend(base: seq<int>, ds: seq<Axis>, a: Axis)
    requires DisplayedWritable(ds + [a], |base|)
    ensures DisplayedWritten(base, ds + [a]) == DisplayedWritten(base, ds)[a.index := a.displayed[0]]
  {
    assert (ds + [a])[..|ds|] == ds;
  }

  /** Each axis's index is a slot of its own. */
  predicate DistinctSlots(s: seq<Axis>) {
    forall i, j :: 0 <= i < j < |s| ==> s[i].index != s[j].index
  }

  /** With distinct slots, the displayed loop leaves each axis's first displayed index in its slot and the rest as they were. */
  lemma {:induction false} DisplayedWrittenAt(base: seq<int>, ds: seq<Axis>)
    requires DisplayedWritable(ds, |base|) && DistinctSlots(ds)
    ensures forall i :: 0 <= i < |ds| ==> DisplayedWritten(base, ds)[ds[i].index] == ds[i].displayed[0]
    ensures forall s :: 0 <= s < |base| && s !in Slots(ds) ==> DisplayedWritten(base, ds)[s] == base[s]
    decreases |ds|
  {
    if ds != [] {
      var init, last := ds[..|ds| - 1], ds[|ds| - 1];
      assert forall a :: a in init ==> a in ds;
      DisplayedWrittenAt(base, init);
      forall i | 0 <= i < |ds| ensures DisplayedWritten(base, ds)[ds[i].index] == ds[i].displayed[0] {
        if i < |ds| - 1 {
          assert init[i] == ds[i] && ds[i].index != last.index;
        }
      }
      forall s | 0 <= s < |base| && s !in Slots(ds) ensures DisplayedWritten(base, ds)[s] == base[s] {
        assert last in ds;
        assert Slots(init) <= Slots(ds);
      }
    }
  }

  // ---------------------------------------------------------------------------------------------
  // The axis set

  /** MINDIM: at least this many axes are displayed. */
  const MinDim := 1

  /** The displayed count after the constructor fits it into its bounds. */
  function ClampedCount(noDisplayed: int): (n: int)
    ensures n >= MinDim
    ensures noDisplayed >= MinDim ==> n == noDisplayed
  {
    if noDisplayed >= MinDim then noDisplayed else MinDim
  }

  predicate DistinctAxes(s: seq<Axis>) {
    forall i, j :: 0 <= i < j < |s| ==> s[i] != s[j]
  }

  /** Both lists together hold every axis of the set exactly as often as the set does. */
  ghost predicate Partition(axes: seq<Axis>, ds: seq<Axis>, hs: seq<Axis>) {
    multiset(ds) + multiset(hs) == multiset(axes)
  }

  lemma {:induction false} DistinctCount(s: seq<Axis>)
    requires DistinctAxes(s)
    ensures forall a :: multiset(s)[a] <= 1
    decreases |s|
  {
    if s != [] {
      assert s == [s[0]] + s[1..];
      assert DistinctAxes(s[1..]) by {
        forall i, j | 0 <= i < j < |s[1..]| ensures s[1..][i] != s[1..][j] {
          assert s[1..][i] == s[i + 1] && s[1..][j] == s[j + 1];
        }
      }
      DistinctCount(s[1..]);
      assert forall k :: 0 <= k < |s[1..]| ==> s[1..][k] != s[0] by {
        forall k | 0 <= k < |s[1..]| ensures s[1..][k] != s[0] {
          assert s[1..][k] == s[k + 1];
        }
      }
      assert multiset(s[1..])[s[0]] == 0;
    }
  }

  /** Over a set of distinct axes, the two lists are disjoint and together hold every axis of the set. */
  lemma PartitionMembership(axes: seq<Axis>, ds: seq<Axis>, hs: seq<Axis>)
    requires Partition(axes, ds, hs) && DistinctAxes(axes)
    ensures forall a :: a in axes <==> a in ds || a in hs
    ensures forall a :: a in ds ==> a !in hs
  {
    DistinctCount(axes);
    forall a | a in ds ensures a !in hs {
      assert multiset(ds)[a] >= 1;
      assert multiset(axes)[a] <= 1;
      assert multiset(hs)[a] == 0;
    }
    forall a ensures a in axes <==> a in ds || a in hs {
      assert multiset(axes)[a] == multiset(ds)[a] + multiset(hs)[a];
    }
  }

  /** displayAxis's new displayed list: toHide removed, display appended. */
  function SwapIn(ds: seq<Axis>, display: Axis, toHide: Axis): seq<Axis> {
    RemoveFirst(ds, toHide) + [display]
  }

  /**
   * A swap keeps both sizes and the partition, puts display among the displayed axes and toHide among
   * the hidden ones, and leaves every other axis where it was.
   */
  lemma SwapKeepsPartition(axes: seq<Axis>, ds: seq<Axis>, hs: seq<Axis>, display: Axis, toHide: Axis)
    requires Partition(axes, ds, hs) && toHide in ds && display in hs
    ensures Partition(axes, SwapIn(ds, display, toHide), SwapIn(hs, toHide, display))
    ensures |SwapIn(ds, display, toHide)| == |ds| && |SwapIn(hs, toHide, display)| == |hs|
    ensures display in SwapIn(ds, display, toHide) && toHide in SwapIn(hs, toHide, display)
    ensures forall a :: a != display && a != toHide ==>
              (a in SwapIn(ds, display, toHide) <==> a in ds) && (a in SwapIn(hs, toHide, display) <==> a in hs)
  {
    forall a | a != display && a != toHide
      ensures (a in SwapIn(ds, display, toHide) <==> a in ds) && (a in SwapIn(hs, toHide, display) <==> a in hs)
    {
      assert multiset(SwapIn(ds, display, toHide))[a] == multiset(ds)[a];
      assert multiset(SwapIn(hs, toHide, display))[a] == multiset(hs)[a];
    }
  }

  /** Swapping back restores which axes are displayed and which hidden (not their order). */
  lemma SwapBack(axes: seq<Axis>, ds: seq<Axis>, hs: seq<Axis>, display: Axis, toHide: Axis)
    requires Partition(axes, ds, hs) && DistinctAxes(axes) && toHide in ds && display in hs
    ensures var ds', hs' := SwapIn(ds, display, toHide), SwapIn(hs, toHide, display);
            toHide in hs' && display in ds' &&
            multiset(SwapIn(ds', toHide, display)) == multiset(ds) &&
            multiset(SwapIn(hs', display, toHide)) == multiset(hs)
  {
    SwapKeepsPartition(axes, ds, hs, display, toHide);
    PartitionMembership(axes, ds, hs);
    assert display != toHide;
  }

  /** The depth array getManipulatedVolume builds: 0 in the first |ds| slots, then each hidden axis's manipulated index. */
  ghost function ManipulatedDepths(n: nat, ds: seq<Axis>, hs: seq<Axis>): (r: seq<int>)
    reads hs
    requires |ds| + |hs| <= n
    ensures |r| == n
  {
    seq(n, k reads hs requires 0 <= k < n => if |ds| <= k < |ds| + |hs| then hs[k - |ds|].manipulated else 0)
  }

  /**
   * Slot positions are not axis indices: the depth getManipulatedVolume records for hidden axis i is
   * whatever sits in slot hs[i].index of the positionally filled array. It is the manipulated index only
   * when that index is |ds| + i; after a swap, a hidden axis whose index falls among the first |ds| slots
   * records 0 whatever its manipulated index.
   */
  lemma ManipulatedDepthIsPositional(ds: seq<Axis>, hs: seq<Axis>, n: nat, i: int)
    requires |ds| + |hs| <= n && IndicesBelow(ds + hs, n) && 0 <= i < |hs|
    ensures hs[i].index < |ds| ==> DepthMapOf(ds, hs, ManipulatedDepths(n, ds, hs))[hs[i]] == 0
    ensures hs[i].index == |ds| + i ==>
              DepthMapOf(ds, hs, ManipulatedDepths(n, ds, hs))[hs[i]] == hs[i].manipulated
  {
    assert hs[i] in ds + hs;
  }

  /** The selections of the hidden axes, in list order. */
  ghost function SelectionsOf(hs: seq<Axis>): (r: seq<seq<int>>)
    reads hs
    ensures |r| == |hs| && forall i :: 0 <= i < |hs| ==> r[i] == hs[i].displayed
    decreases |hs|
  {
    if hs == [] then [] else [hs[0].displayed] + SelectionsOf(hs[1..])
  }

  /** One pass of the loop of appendNextDim: the value x goes into the first axis's slot, the rest follows. */
  lemma BlockStep(base: seq<int>, before: seq<int>, hs: seq<Axis>, x: int, c: seq<int>)
    requires hs != [] && |c| == |hs| - 1 && IndicesBelow(hs, |base|)
    requires AgreeOutside(before, base, Slots(hs))
    ensures Written(base, hs, [x] + c) == Written(before[hs[0].index := x], hs[1..], c)
    ensures AgreeOutside(before[hs[0].index := x], base, Slots(hs))
  {
    assert ([x] + c)[1..] == c;
    assert Slots(hs) == {hs[0].index} + Slots(hs[1..]) by {
      assert hs == [hs[0]] + hs[1..];
    }
    assert forall a :: a in hs[1..] ==> a in hs;
    WrittenIgnoresTouched(base[hs[0].index := x], before[hs[0].index := x], hs[1..], c);
  }

  /** After a pass the depths still differ from the loop's base only in the slots of the axes from i on. */
  lemma AgreeAfterPass(now: seq<int>, before: seq<int>, base: seq<int>, hs: seq<Axis>, x: int)
    requires hs != [] && IndicesBelow(hs, |base|) && AgreeOutside(before, base, Slots(hs))
    requires AgreeOutside(now, before[hs[0].index := x], Slots(hs[1..]))
    ensures AgreeOutside(now, base, Slots(hs))
  {
    assert Slots(hs) == {hs[0].index} + Slots(hs[1..]) by {
      assert hs == [hs[0]] + hs[1..];
    }
  }

  lemma PrefixedExtend(d: seq<int>, cs: seq<seq<int>>, j: int)
    requires 0 <= j < |d|
    ensures Prefixed(d[..j + 1], cs) == Prefixed(d[..j], cs) + Tack(d[j], cs)
  {
    assert d[..j + 1][..j] == d[..j];
  }

  /**
   * With distinct slots, every enumerated volume records its combination's value for each hidden axis
   * and 0 for each displayed axis.
   */
  lemma EnumeratedDepths(ds: seq<Axis>, hs: seq<Axis>, n: nat, c: seq<int>)
    requires |c| == |hs| && IndicesBelow(ds + hs, n)
    requires forall i, j :: 0 <= i < j < |ds + hs| ==> (ds + hs)[i].index != (ds + hs)[j].index
    ensures forall a :: a in ds + hs ==> 0 <= a.index < |Written(Zeros(n), hs, c)|
    ensures forall i :: 0 <= i < |hs| ==> DepthMapOf(ds, hs, Written(Zeros(n), hs, c))[hs[i]] == c[i]
    ensures forall a :: a in ds ==> DepthMapOf(ds, hs, Written(Zeros(n), hs, c))[a] == 0
  {
    assert forall a :: a in hs ==> a in ds + hs;
    assert forall i, j :: 0 <= i < j < |hs| ==> hs[i].index != hs[j].index by {
      forall i, j | 0 <= i < j < |hs| ensures hs[i].index != hs[j].index {
        assert (ds + hs)[|ds| + i] == hs[i] && (ds + hs)[|ds| + j] == hs[j];
      }
    }
    WrittenAt(Zeros(n), hs, c);
    forall a | a in ds ensures a.index !in Slots(hs) {
      var p :| 0 <= p < |ds| && ds[p] == a;
      forall k | 0 <= k < |hs| ensures hs[k].index != a.index {
        assert (ds + hs)[p] == a && (ds + hs)[|ds| + k] == hs[k];
      }
      NotASlot(hs, a.index);
    }
  }

  /**
   * vols[from..] are exactly one volume per combination in cs, in order, each recording the depths
   * obtained by writing its combination into base over the given slots.
   */
  ghost predicate Recorded(vols: seq<Volume>, from: int, ds: seq<Axis>, hs: seq<Axis>,
                           base: seq<int>, slots: seq<Axis>, cs: seq<seq<int>>)
  {
    && 0 <= from && |vols| == from + |cs|
    && IndicesBelow(slots, |base|) && IndicesBelow(ds + hs, |base|)
    && (forall k :: 0 <= k < |cs| ==> |cs[k]| == |slots|)
    && forall k :: 0 <= k < |cs| ==> vols[from + k].depthMap == DepthMapOf(ds, hs, Written(base, slots, cs[k]))
  }

  /** The bookkeeping of one pass of appendNextDim's loop. */
  lemma RecordedStep(out: seq<Volume>, mid: seq<Volume>, from: int, ds: seq<Axis>, hs: seq<Axis>,
                     base: seq<int>, before: seq<int>, slots: seq<Axis>, sel: seq<int>, j: int, tail: seq<seq<int>>)
    requires slots != [] && 0 <= j < |sel| && |mid| <= |out| && out[..|mid|] == mid
    requires AgreeOutside(before, base, Slots(slots)) && 0 <= slots[0].index < |before|
    requires Recorded(mid, from, ds, hs, base, slots, Prefixed(sel[..j], tail))
    requires Recorded(out, |mid|, ds, hs, before[slots[0].index := sel[j]], slots[1..], tail)
    ensures Recorded(out, from, ds, hs, base, slots, Prefixed(sel[..j + 1], tail))
  {
    PrefixedExtend(sel, tail, j);
    var cs := Prefixed(sel[..j + 1], tail);
    var n := |Prefixed(sel[..j], tail)|;
    forall k | 0 <= k < |cs| ensures |cs[k]| == |slots| && out[from + k].depthMap == DepthMapOf(ds, hs, Written(base, slots, cs[k])) {
      if k < n {
        assert out[from + k] == mid[from + k];
      } else {
        var c := tail[k - n];
        assert cs[k] == [sel[j]] + c;
        BlockStep(base, before, slots, sel[j], c);
      }
    }
  }

  /** The combinations from hidden axis i on: each displayed index of axis i before those of the rest. */
  lemma CombosUnfold(hs: seq<Axis>, i: nat)
    requires i < |hs|
    ensures Combos(SelectionsOf(hs[i..])) == Prefixed(hs[i].displayed, Combos(SelectionsOf(hs[i + 1..])))
    ensures forall a :: a in hs[i..] ==> a in hs
  {
    assert hs[i..] == [hs[i]] + hs[i + 1..] && hs[i..][1..] == hs[i + 1..];
  }

  /** A prefix of a prefix is a prefix, and the entries of the shorter list stay where they were. */
  lemma PrefixTrans<T>(c: seq<T>, b: seq<T>, a: seq<T>)
    requires |b| <= |c| && c[..|b|] == b && |a| <= |b| && b[..|a|] == a
    ensures |a| <= |c| && c[..|a|] == a
    ensures forall k :: 0 <= k < |b| ==> c[k] == b[k]
  {
    assert forall k :: 0 <= k < |b| ==> c[k] == c[..|b|][k];
  }

  /** Viewer3DNodeAxes: all axes of an image, the displayed list and the hidden list. */
  class Axes {
    const noDisplayed: int
    const axes: seq<Axis>
    const displayed: AxisList
    const hidden: AxisList

    /** The state every constructor and mutator keeps. */
    ghost predicate Valid()
      reads this, displayed, hidden
    {
      && displayed != hidden
      && noDisplayed >= MinDim && |displayed.items| == noDisplayed
      && Partition(axes, displayed.items, hidden.items)
    }

    /** Every axis index is a slot of an array with one slot per axis, as setUpAxes arranges. */
    predicate IndicesInRange() {
      forall a :: a in axes ==> 0 <= a.index < |axes|
    }

    constructor (noDisplayed: int, axes: seq<Axis>)
      requires |axes| >= ClampedCount(noDisplayed)
      ensures this.noDisplayed == ClampedCount(noDisplayed) && this.axes == axes
      ensures fresh(displayed) && fresh(hidden)
      ensures displayed.items == axes[..this.noDisplayed] && hidden.items == axes[this.noDisplayed..]
      ensures Valid()
    {
      var n := ClampedCount(noDisplayed);
      var ds, hs := [], [];
      var count := 0;
      for i := 0 to |axes|
        invariant count == i
        invariant ds == axes[..if i < n then i else n]
        invariant hs == if i < n then [] else axes[n..i]
      {
        if count < n {
          ds := ds + [axes[i]];
        } else {
          hs := hs + [axes[i]];
        }
        count := count + 1;
      }
      assert axes == axes[..n] + axes[n..];
      this.noDisplayed := n;
      this.axes := axes;
      displayed := new AxisList(ds);
      hidden := new AxisList(hs);
    }

    /** The public constructor: it throws when the set has fewer axes than the clamped displayed count. */
    static method New(noDisplayed: int, axes: seq<Axis>) returns (r: Result<Axes>)
      ensures r.Success? <==> |axes| >= ClampedCount(noDisplayed)
      ensures r.Failure? ==> r.error == IllegalArgument
      ensures r.Success? ==> fresh(r.value) && fresh(r.value.displayed) && fresh(r.value.hidden) && r.value.Valid()
      ensures r.Success? ==> r.value.axes == axes && r.value.noDisplayed == ClampedCount(noDisplayed)
      ensures r.Success? ==> r.value.displayed.items == axes[..r.value.noDisplayed]
      ensures r.Success? ==> r.value.hidden.items == axes[r.value.noDisplayed..]
    {
      if |axes| < ClampedCount(noDisplayed) {
        return Failure(IllegalArgument);
      }
      var a := new Axes(noDisplayed, axes);
      r := Success(a);
    }

    predicate IsDisplayed(a: Axis)
      reads displayed
    {
      a in displayed.items
    }

    predicate IsHidden(a: Axis)
      reads hidden
    {
      a in hidden.items
    }

    /** Over distinct axes, an axis of the set is displayed or hidden and never both; any other axis is neither. */
    lemma DisplayedOrHidden(a: Axis)
      requires Valid() && DistinctAxes(axes)
      ensures a in axes ==> IsDisplayed(a) != IsHidden(a)
      ensures a !in axes ==> !IsDisplayed(a) && !IsHidden(a)
    {
      PartitionMembership(axes, displayed.items, hidden.items);
    }

    /** Whether displayAxis accepts its arguments. */
    predicate SwapAllowed(display: Axis?, toHide: Axis?)
      reads displayed, hidden
    {
      && display != null && toHide != null
      && display in axes && toHide in axes
      && toHide in displayed.items && display in hidden.items
    }

    /**
     * displayAxis: show display instead of toHide. Every check comes first, so a rejected call changes
     * neither list; both lists keep their sizes and the partition of the set.
     */
    method DisplayAxis(display: Axis?, toHide: Axis?) returns (r: Outcome)
      requires Valid()
      modifies displayed, hidden
      ensures Valid()
      ensures r.Pass? <==> old(SwapAllowed(display, toHide))
      ensures r.Fail? ==> r.error == (if display == null || toHide == null then NullPointer else IllegalArgument)
      ensures r.Fail? ==> unchanged(displayed, hidden)
      ensures r.Pass? ==> displayed.items == SwapIn(old(displayed.items), display, toHide)
      ensures r.Pass? ==> hidden.items == SwapIn(old(hidden.items), toHide, display)
    {
      if display == null || toHide == null {
        return Fail(NullPointer);
      }
      if display !in axes || toHide !in axes {
        return Fail(IllegalArgument);
      }
      if toHide !in displayed.items {
        return Fail(IllegalArgument);
      }
      if display !in hidden.items {
        return Fail(IllegalArgument);
      }
      SwapKeepsPartition(axes, displayed.items, hidden.items, display, toHide);
      displayed.items := RemoveFirst(displayed.items, toHide);
      hidden.items := RemoveFirst(hidden.items, display);
      displayed.items := displayed.items + [display];
      hidden.items := hidden.items + [toHide];
      r := Pass;
    }

    lemma ListsInSet()
      requires Valid()
      ensures forall a :: a in displayed.items + hidden.items ==> a in axes
    {
      forall a | a in displayed.items + hidden.items ensures a in axes {
        assert a in multiset(displayed.items) + multiset(hidden.items);
      }
    }

    /**
     * getManipulatedVolume: a volume over the live lists whose depths are read from an array with 0 in
     * the first |displayed| slots and hidden axis i's manipulated index in slot i + |displayed|.
     */
    method GetManipulatedVolume() returns (v: Volume)
      requires Valid() && IndicesInRange()
      ensures fresh(v) && v.displayed == displayed && v.hidden == hidden
      ensures |displayed.items| + |hidden.items| == |axes|
      ensures forall a :: a in displayed.items + hidden.items ==> 0 <= a.index < |axes|
      ensures v.depthMap == DepthMapOf(displayed.items, hidden.items,
                                       ManipulatedDepths(|axes|, displayed.items, hidden.items))
    {
      ListsInSet();
      assert |multiset(displayed.items) + multiset(hidden.items)| == |multiset(axes)|;
      var nd := |displayed.items|;
      var depths := new int[|axes|](_ => 0);
      for i := 0 to nd
        invariant forall k :: 0 <= k < depths.Length ==> depths[k] == 0
      {
        depths[i] := 0;
      }
      for i := 0 to |hidden.items|
        invariant forall k :: 0 <= k < depths.Length ==>
                    depths[k] == if nd <= k < nd + i then hidden.items[k - nd].manipulated else 0
      {
        depths[i + nd] := hidden.items[i].manipulated;
      }
      assert depths[..] == ManipulatedDepths(|axes|, displayed.items, hidden.items);
      v := new Volume(displayed, hidden, depths[..]);
    }

    /** Both lists' indices are slots of an array with one slot per axis. */
    ghost predicate ListIndicesInRange()
      reads displayed, hidden
    {
      IndicesBelow(displayed.items + hidden.items, |axes|)
    }

    /** The depth map of the volume for one combination of hidden depths. */
    ghost function EnumeratedDepthMap(c: seq<int>): map<Axis, int>
      reads displayed, hidden
      requires ListIndicesInRange() && |c| == |hidden.items|
    {
      assert forall a :: a in hidden.items ==> a in displayed.items + hidden.items;
      DepthMapOf(displayed.items, hidden.items, Written(Zeros(|axes|), hidden.items, c))
    }

    /**
     * appendNextDim: for each displayed index of hidden axis i, in order, write it into the axis's
     * slot of depths and recurse into axis i + 1, or add a volume when i is the last hidden axis.
     */
    method AppendNextDim(ds: seq<Axis>, hs: seq<Axis>, i: nat, depths: array<int>, result: seq<Volume>)
      returns (out: seq<Volume>)
      requires ds == displayed.items && hs == hidden.items
      requires IndicesBelow(ds + hs, |axes|) && depths.Length == |axes|
      requires i < |hs| || (i == 0 && hs == [])
      modifies depths
      ensures |result| <= |out| && out[..|result|] == result
      ensures forall k :: |result| <= k < |out| ==> fresh(out[k]) && out[k].displayed == displayed && out[k].hidden == hidden
      ensures Recorded(out, |result|, ds, hs, old(depths[..]), hs[i..], Combos(SelectionsOf(hs[i..])))
      ensures AgreeOutside(depths[..], old(depths[..]), Slots(hs[i..]))
      decreases |hs| - i, 2
    {
      if hs == [] {
        var v := new Volume(displayed, hidden, depths[..]);
        out := result + [v];
        assert Recorded(out, |result|, ds, hs, depths[..], [], [[]]);
        return;
      }
      ghost var base := depths[..];
      CombosUnfold(hs, i);
      out := result;
      for j := 0 to |hs[i].displayed|
        invariant |result| <= |out| && out[..|result|] == result
        invariant forall k :: |result| <= k < |out| ==> fresh(out[k]) && out[k].displayed == displayed && out[k].hidden == hidden
        invariant Recorded(out, |result|, ds, hs, base, hs[i..], Prefixed(hs[i].displayed[..j], Combos(SelectionsOf(hs[i + 1..]))))
        invariant AgreeOutside(depths[..], base, Slots(hs[i..]))
      {
        ghost var prev := out;
        out := AppendStep(ds, hs, i, j, depths, out, result, base);
        PrefixTrans(out, prev, result);
      }
      assert hs[i].displayed[..|hs[i].displayed|] == hs[i].displayed;
    }

    /** One turn of appendNextDim's loop over the displayed indices of hidden axis i, with its bookkeeping. */
    method AppendStep(ds: seq<Axis>, hs: seq<Axis>, i: nat, j: nat, depths: array<int>, acc: seq<Volume>,
                      ghost result: seq<Volume>, ghost base: seq<int>)
      returns (out: seq<Volume>)
      requires ds == displayed.items && hs == hidden.items
      requires IndicesBelow(ds + hs, |axes|) && depths.Length == |axes| && i < |hs| && j < |hs[i].displayed|
      requires Recorded(acc, |result|, ds, hs, base, hs[i..], Prefixed(hs[i].displayed[..j], Combos(SelectionsOf(hs[i + 1..]))))
      requires AgreeOutside(depths[..], base, Slots(hs[i..]))
      modifies depths
      ensures |acc| <= |out| && out[..|acc|] == acc
      ensures forall k :: |acc| <= k < |out| ==> fresh(out[k]) && out[k].displayed == displayed && out[k].hidden == hidden
      ensures Recorded(out, |result|, ds, hs, base, hs[i..], Prefixed(hs[i].displayed[..j + 1], Combos(SelectionsOf(hs[i + 1..]))))
      ensures AgreeOutside(depths[..], base, Slots(hs[i..]))
      decreases |hs| - i, 1
    {
      ghost var slots := hs[i..];
      assert slots[0] == hs[i] && slots[1..] == hs[i + 1..];
      ghost var before := depths[..];
      out := AppendPass(ds, hs, i, hs[i].displayed[j], depths, acc);
      RecordedStep(out, acc, |result|, ds, hs, base, before, slots, hs[i].displayed, j, Combos(SelectionsOf(hs[i + 1..])));
      AgreeAfterPass(depths[..], before, base, slots, hs[i].displayed[j]);
    }

    /**
     * One pass of appendNextDim's loop: write x into hidden axis i's slot, then recurse into axis i + 1,
     * or add a volume when i is the last hidden axis.
     */
    method AppendPass(ds: seq<Axis>, hs: seq<Axis>, i: nat, x: int, depths: array<int>, acc: seq<Volume>)
      returns (out: seq<Volume>)
      requires ds == displayed.items && hs == hidden.items
      requires IndicesBelow(ds + hs, |axes|) && depths.Length == |axes| && i < |hs|
      modifies depths
      ensures |acc| <= |out| && out[..|acc|] == acc
      ensures forall k :: |acc| <= k < |out| ==> fresh(out[k]) && out[k].displayed == displayed && out[k].hidden == hidden
      ensures 0 <= hs[i].index < |old(depths[..])|
      ensures Recorded(out, |acc|, ds, hs, old(depths[..])[hs[i].index := x], hs[i + 1..], Combos(SelectionsOf(hs[i + 1..])))
      ensures AgreeOutside(depths[..], old(depths[..])[hs[i].index := x], Slots(hs[i + 1..]))
      decreases |hs| - i, 0
    {
      assert hs[i] in ds + hs;
      depths[hs[i].index] := x;
      if i < |hs| - 1 {
        out := AppendNextDim(ds, hs, i + 1, depths, acc);
      }
      if i == |hs| - 1 {
        assert hs[i + 1..] == [];
        var v := new Volume(displayed, hidden, depths[..]);
        out := acc + [v];
        assert Recorded(out, |acc|, ds, hs, depths[..], [], [[]]);
      }
    }

    /**
     * getDisplayedVolumes: one fresh volume over the live lists per combination of the hidden axes'
     * selections, in the order of Combos.
     */
    method GetDisplayedVolumes() returns (vols: seq<Volume>)
      requires Valid() && IndicesInRange()
      ensures ListIndicesInRange()
      ensures |vols| == |Combos(SelectionsOf(hidden.items))|
      ensures forall k :: 0 <= k < |vols| ==> fresh(vols[k]) && vols[k].displayed == displayed && vols[k].hidden == hidden
      ensures forall k :: 0 <= k < |vols| ==> vols[k].depthMap == EnumeratedDepthMap(Combos(SelectionsOf(hidden.items))[k])
    {
      ListsInSet();
      var depths := new int[|axes|](_ => 0);
      assert depths[..] == Zeros(|axes|);
      assert hidden.items[0..] == hidden.items;
      vols := AppendNextDim(displayed.items, hidden.items, 0, depths, []);
      assert Recorded(vols, 0, displayed.items, hidden.items, Zeros(|axes|), hidden.items, Combos(SelectionsOf(hidden.items)));
    }

    /** getCacheStrings: the key of each enumerated volume, in the same order. */
    method GetCacheStrings() returns (keys: seq<string>)
      requires Valid() && IndicesInRange()
      ensures ListIndicesInRange()
      ensures |keys| == |Combos(SelectionsOf(hidden.items))| == Product(SelectionsOf(hidden.items))
      ensures forall k :: 0 <= k < |keys| ==>
                keys[k] == LabelText(displayed.items)
                           + HiddenText(hidden.items, EnumeratedDepthMap(Combos(SelectionsOf(hidden.items))[k]))
    {
      var vols := GetDisplayedVolumes();
      ghost var combos := Combos(SelectionsOf(hidden.items));
      CombosCount(SelectionsOf(hidden.items));
      keys := KeysOf(vols);
      forall k | 0 <= k < |keys|
        ensures keys[k] == LabelText(displayed.items) + HiddenText(hidden.items, EnumeratedDepthMap(combos[k]))
      {
        assert vols[k].displayed == displayed && vols[k].hidden == hidden;
      }
    }
  }
}
