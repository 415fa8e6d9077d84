/**
 * AbstractCubeSelector: one checkbox per axis of an axis set, and the queue of "active" (displayed,
 * greyed-out) axes, oldest first. Clicking the box of a hidden axis retires the oldest active axis
 * and swaps the two in the axis set.
 */
module CubeSelector {
  import opened Outcomes
  import opened AxisState
  import opened AxisSet
  import opened EventBus

  /** The state of one JCheckBox. */
  datatype Box = Box(enabled: bool, selected: bool)

  /** The displayed axes of s, in the order of s: the queue setAxes builds. */
  function DisplayedInOrder(s: seq<Axis>, ds: seq<Axis>): (r: seq<Axis>)
    ensures forall i :: 0 <= i < |r| ==> r[i] in s && r[i] in ds
    ensures forall i :: 0 <= i < |s| && s[i] in ds ==> s[i] in r
    ensures |r| <= |s|
  {
    if s == [] then []
    else (if s[0] in ds then [s[0]] else []) + DisplayedInOrder(s[1..], ds)
  }

  lemma {:induction false} OrderAppend(s: seq<Axis>, x: Axis, ds: seq<Axis>)
    ensures DisplayedInOrder(s + [x], ds) == DisplayedInOrder(s, ds) + if x in ds then [x] else []
  {
    if s != [] {
      assert (s + [x])[1..] == s[1..] + [x];
      OrderAppend(s[1..], x, ds);
    }
  }

  /** How often an axis occurs in the queue: as often as in s when it is displayed, otherwise never. */
  lemma {:induction false} DisplayedInOrderCount(s: seq<Axis>, ds: seq<Axis>, a: Axis)
    ensures multiset(DisplayedInOrder(s, ds))[a] == if a in ds then multiset(s)[a] else 0
  {
    if s != [] {
      DisplayedInOrderCount(s[1..], ds, a);
      assert s == [s[0]] + s[1..];
    }
  }

  /** A sequence in which no axis occurs twice has no repetitions. */
  lemma CountsToDistinct(q: seq<Axis>)
    requires forall a :: multiset(q)[a] <= 1
    ensures DistinctAxes(q)
  {
    forall i, j | 0 <= i < j < |q| ensures q[i] != q[j] {
      assert q == q[..j] + q[j..];
      assert q[i] in q[..j] && q[j] in q[j..];
      assert multiset(q)[q[j]] == multiset(q[..j])[q[j]] + multiset(q[j..])[q[j]];
    }
  }

  /** Over a set of distinct axes, the queue setAxes builds holds exactly the displayed axes, each once. */
  lemma QueueOfDisplayed(axes: seq<Axis>, ds: seq<Axis>, hs: seq<Axis>)
    requires Partition(axes, ds, hs) && DistinctAxes(axes)
    ensures multiset(DisplayedInOrder(axes, ds)) == multiset(ds)
    ensures DistinctAxes(DisplayedInOrder(axes, ds))
  {
    DistinctCount(axes);
    PartitionMembership(axes, ds, hs);
    var q := DisplayedInOrder(axes, ds);
    forall a ensures multiset(q)[a] == multiset(ds)[a] && multiset(q)[a] <= 1 {
      DisplayedInOrderCount(axes, ds, a);
      assert multiset(axes)[a] == multiset(ds)[a] + multiset(hs)[a];
    }
    CountsToDistinct(q);
  }

  /** What the loop of setAxes keeps: a box for each axis seen so far, and the displayed ones queued. */
  ghost predicate Wrapping(seen: seq<Axis>, ds: seq<Axis>, enabled: bool, boxes: map<Axis, Box>, active: seq<Axis>) {
    && active == DisplayedInOrder(seen, ds)
    && boxes.Keys == (set a | a in seen)
    && forall a :: a in boxes ==> boxes[a] == if a in ds then Box(false, true) else Box(enabled, false)
  }

  lemma WrapStep(seen: seq<Axis>, x: Axis, ds: seq<Axis>, enabled: bool, boxes: map<Axis, Box>, active: seq<Axis>)
    requires Wrapping(seen, ds, enabled, boxes, active)
    ensures x in ds ==> Wrapping(seen + [x], ds, enabled, boxes[x := Box(false, true)], active + [x])
    ensures x !in ds ==> Wrapping(seen + [x], ds, enabled, boxes[x := Box(enabled, false)], active)
  {
    OrderAppend(seen, x, ds);
    SetOfAppend(seen, x);
  }

  lemma SetOfAppend(s: seq<Axis>, x: Axis)
    ensures (set a | a in s + [x]) == (set a | a in s) + {x}
  {
  }

  /**
   * The loop of setAxes over the axes of the set, in order: a box for each, selected and disabled when
   * displayed, and the displayed ones queued.
   */
  method WrapAxes(all: seq<Axis>, ds: seq<Axis>, enabled: bool) returns (boxes: map<Axis, Box>, active: seq<Axis>)
    ensures boxes.Keys == set a | a in all
    ensures forall a :: a in boxes ==> boxes[a] == if a in ds then Box(false, true) else Box(enabled, false)
    ensures active == DisplayedInOrder(all, ds)
  {
    active := [];
    boxes := map[];
    for i := 0 to |all|
      invariant Wrapping(all[..i], ds, enabled, boxes, active)
    {
      var a := all[i];
      WrapStep(all[..i], a, ds, enabled, boxes, active);
      assert all[..i + 1] == all[..i] + [a];
      if a in ds {
        boxes := boxes[a := Box(false, true)];
        active := active + [a];
      } else {
        boxes := boxes[a := Box(enabled, false)];
      }
    }
    assert all[..|all|] == all;
  }

  /** A sequence without repetitions has as many elements as its set. */
  lemma {:induction false} DistinctCard(s: seq<Axis>)
    requires DistinctAxes(s)
    ensures |set a | a in s| == |s|
  {
    if s != [] {
      var t := s[1..];
      assert DistinctAxes(t) by {
        forall i, j | 0 <= i < j < |t| ensures t[i] != t[j] {
          assert t[i] == s[i + 1] && t[j] == s[j + 1];
        }
      }
      DistinctCard(t);
      var ss, st := set a | a in s, set a | a in t;
      assert ss == st + {s[0]} by {
        assert s == [s[0]] + t;
      }
      assert s[0] !in t by {
        forall k | 0 <= k < |t| ensures t[k] != s[0] {
          assert t[k] == s[k + 1];
        }
      }
    }
  }

  lemma DistinctAppend(r: seq<Axis>, a: Axis)
    requires DistinctAxes(r) && a !in r
    ensures DistinctAxes(r + [a])
  {
  }

  /** Removing a subset removes exactly its elements from the count. */
  lemma DifferenceCard(keys: set<Axis>, queued: set<Axis>)
    requires queued <= keys
    ensures |keys - queued| == |keys| - |queued|
  {
    assert keys == (keys - queued) + queued;
  }

  /** What the loop of getInactive keeps: r lists, each once, the keys seen so far that are not queued. */
  ghost predicate Collected(r: seq<Axis>, done: set<Axis>, queued: set<Axis>) {
    && (set x | x in r) == done - queued
    && DistinctAxes(r)
    && |r| == |done - queued|
  }

  lemma CollectedStep(r: seq<Axis>, done: set<Axis>, queued: set<Axis>, a: Axis)
    requires Collected(r, done, queued) && a !in done
    ensures Collected(if a in queued then r else r + [a], done + {a}, queued)
  {
    if a !in queued {
      assert (done + {a}) - queued == (done - queued) + {a};
      DistinctAppend(r, a);
    } else {
      assert (done + {a}) - queued == done - queued;
    }
  }

  /** At the end of the loop every key was seen. */
  lemma CollectedAll(r: seq<Axis>, keys: set<Axis>, queue: seq<Axis>, queued: set<Axis>)
    requires DistinctAxes(queue) && forall i :: 0 <= i < |queue| ==> queue[i] in keys
    requires queued == set a | a in queue
    requires Collected(r, keys, queued)
    ensures |r| == |keys| - |queue|
    ensures forall a :: a in r <==> a in keys && a !in queue
  {
    forall a ensures a in r <==> a in keys && a !in queue {
      assert a in r <==> a in (set x | x in r);
      assert a in (set x | x in r) <==> a in keys - queued;
      assert a in queued <==> a in queue;
    }
    DistinctCard(queue);
    DifferenceCard(keys, queued);
  }

  /** Taking one more element out of the remaining ones adds it to those seen. */
  lemma TakeOne(keys: set<Axis>, remaining: set<Axis>, a: Axis)
    requires a in remaining && remaining <= keys
    ensures keys - (remaining - {a}) == (keys - remaining) + {a}
  {
  }

  /** The loop of getInactive: the keys that are not queued, each once, in the order the set yields them. */
  method Unqueued(keys: set<Axis>, queue: seq<Axis>) returns (r: seq<Axis>)
    requires DistinctAxes(queue) && forall i :: 0 <= i < |queue| ==> queue[i] in keys
    ensures |r| == |keys| - |queue|
    ensures DistinctAxes(r)
    ensures forall a :: a in r <==> a in keys && a !in queue
  {
    var remaining := keys;
    r := [];
    ghost var queued := set a | a in queue;
    while remaining != {}
      invariant remaining <= keys
      invariant Collected(r, keys - remaining, queued)
      decreases remaining
    {
      var a :| a in remaining;
      CollectedStep(r, keys - remaining, queued, a);
      TakeOne(keys, remaining, a);
      remaining := remaining - {a};
      if a !in queue {
        r := r + [a];
      }
    }
    assert keys - remaining == keys;
    CollectedAll(r, keys, queue, queued);
  }

  /** A queue without repetitions of axes with boxes, and a box selected and disabled exactly when queued. */
  ghost predicate Bookkept(boxes: map<Axis, Box>, active: seq<Axis>) {
    && DistinctAxes(active)
    && (forall i :: 0 <= i < |active| ==> active[i] in boxes)
    && (forall a :: a in boxes ==> (boxes[a].selected <==> a in active) && (a in active ==> !boxes[a].enabled))
  }

  /** What setAxes builds over a set of distinct axes is kept in step. */
  lemma WrappedBookkept(all: seq<Axis>, ds: seq<Axis>, hs: seq<Axis>, enabled: bool, boxes: map<Axis, Box>, active: seq<Axis>)
    requires Partition(all, ds, hs) && DistinctAxes(all)
    requires boxes.Keys == set a | a in all
    requires forall a :: a in boxes ==> boxes[a] == if a in ds then Box(false, true) else Box(enabled, false)
    requires active == DisplayedInOrder(all, ds)
    ensures Bookkept(boxes, active)
    ensures multiset(active) == multiset(ds)
  {
    QueueOfDisplayed(all, ds, hs);
    PartitionMembership(all, ds, hs);
  }

  /** Retiring the head of a queue in step with the displayed axes removes it and adds the new tail. */
  lemma QueueFollowsSwap(queue: seq<Axis>, ds: seq<Axis>, axis: Axis)
    requires queue != [] && multiset(queue) == multiset(ds)
    ensures multiset(queue[1..] + [axis]) == multiset(ds) - multiset{queue[0]} + multiset{axis}
  {
    assert queue == [queue[0]] + queue[1..];
    assert queue[0] in multiset(ds);
  }

  /**
   * Before the swap of a click: the queue's head is displayed, the clicked axis (known, not queued) is
   * hidden, and the new queue holds the displayed axes with the head traded for the clicked one.
   */
  lemma SwapReady(queue: seq<Axis>, all: seq<Axis>, ds: seq<Axis>, hs: seq<Axis>, axis: Axis)
    requires Partition(all, ds, hs) && DistinctAxes(all)
    requires queue != [] && multiset(queue) == multiset(ds)
    requires axis in all && axis !in queue
    ensures queue[0] in ds && axis in hs
    ensures multiset(queue[1..] + [axis]) == multiset(ds) - multiset{queue[0]} + multiset{axis}
  {
    PartitionMembership(all, ds, hs);
    assert queue[0] in multiset(ds);
    assert axis !in multiset(ds);
    QueueFollowsSwap(queue, ds, axis);
  }

  /** A queue in step with the displayed axes after the swap that shows axis instead of toHide. */
  lemma SwapFollowsQueue(queue: seq<Axis>, ds: seq<Axis>, axis: Axis, toHide: Axis)
    requires toHide in ds && multiset(queue) == multiset(ds) - multiset{toHide} + multiset{axis}
    ensures multiset(queue) == multiset(SwapIn(ds, axis, toHide))
  {
  }

  class Selector {
    const events: EventService
    /** m_axes: the axis set being controlled, once setAxes was called. */
    var axes: Axes?
    /** m_wrapper: the checkbox of each axis of the set. */
    var boxes: map<Axis, Box>
    /** m_active: the axes of the active wrappers, oldest first. */
    var active: seq<Axis>
    var updating: bool
    var enabled: bool

    /**
     * The bookkeeping setAxes establishes over a set of distinct axes: a box per axis, a queue without
     * repetitions, and a box selected and disabled exactly when its axis is queued.
     */
    ghost predicate Wrapped()
      reads this
    {
      && (axes == null ==> boxes == map[] && active == [])
      && (axes != null ==> DistinctAxes(axes.axes) && boxes.Keys == set a | a in axes.axes)
      && Bookkept(boxes, active)
    }

    /** The bookkeeping, over an axis set in a valid state. */
    ghost predicate Valid()
      reads this, axes, if axes != null then {axes.displayed, axes.hidden} else {}
    {
      Wrapped() && (axes != null ==> axes.Valid())
    }

    /** The queue holds exactly the axis set's displayed axes. */
    ghost predicate Synced()
      reads this, axes, if axes != null then {axes.displayed} else {}
    {
      axes != null ==> multiset(active) == multiset(axes.displayed.items)
    }

    /** The constructor; without an event service the selector makes its own. */
    constructor (service: EventService?)
      ensures service != null ==> events == service
      ensures service == null ==> fresh(events) && events.published == []
      ensures axes == null && boxes == map[] && active == [] && !updating && enabled
      ensures Valid() && Synced()
    {
      if service != null {
        events := service;
      } else {
        events := new EventService();
      }
      axes := null;
      boxes := map[];
      active := [];
      updating := false;
      enabled := true;
    }

    /**
     * setAxes: a null set throws. Otherwise every old box is dropped; each axis of the set gets a box,
     * selected and disabled when displayed, unselected and enabled as the selector is otherwise, and
     * the displayed axes are queued in the set's order.
     */
    method SetAxes(newAxes: Axes?) returns (r: Outcome)
      modifies this, events
      ensures r.Fail? <==> newAxes == null
      ensures r.Fail? ==> r.error == NullPointer && unchanged(this, events)
      ensures r.Pass? ==> && axes == newAxes && !updating && enabled == old(enabled)
                          && boxes.Keys == (set a | a in newAxes.axes)
                          && (forall a :: a in boxes ==> boxes[a] == if a in newAxes.displayed.items then Box(false, true)
                                                                   else Box(enabled, false))
                          && active == DisplayedInOrder(newAxes.axes, newAxes.displayed.items)
                          && events.published == old(events.published) + [SelectionChanged]
      ensures r.Pass? && newAxes.Valid() && DistinctAxes(newAxes.axes) ==> Valid() && Synced()
    {
      if newAxes == null {
        return Fail(NullPointer);
      }
      updating := true;
      axes := newAxes;
      var all, ds := newAxes.axes, newAxes.displayed.items;
      boxes, active := WrapAxes(all, ds, enabled);
      updating := false;
      events.Publish(SelectionChanged);
      if newAxes.Valid() && DistinctAxes(all) {
        WrappedBookkept(all, ds, newAxes.hidden.items, enabled, boxes, active);
      }
      r := Pass;
    }

    /** checkIfActive: whether the axis is queued. */
    method CheckIfActive(a: Axis) returns (r: bool)
      ensures r <==> a in active
    {
      for i := 0 to |active|
        invariant a !in active[..i]
      {
        if active[i] == a {
          return true;
        }
        assert active[..i + 1] == active[..i] + [active[i]];
      }
      assert active[..|active|] == active;
      r := false;
    }

    /** getActive: the queued axes, oldest first. */
    method GetActive() returns (r: seq<Axis>)
      ensures |r| == |active| && forall i :: 0 <= i < |r| ==> r[i] == active[i]
    {
      r := [];
      for i := 0 to |active|
        invariant |r| == i && forall k :: 0 <= k < i ==> r[k] == active[k]
      {
        r := r + [active[i]];
      }
    }

    /** getInactive: every axis with a box that is not queued, each once, in the map's (unspecified) order. */
    method GetInactive() returns (r: seq<Axis>)
      requires Valid()
      ensures |r| == |boxes| - |active|
      ensures DistinctAxes(r)
      ensures forall a :: a in r <==> a in boxes && a !in active
    {
      r := Unqueued(boxes.Keys, active);
    }

    /** setUpdating: while set, checkbox clicks are ignored. */
    method SetUpdating(val: bool)
      modifies this
      ensures updating == val
      ensures axes == old(axes) && boxes == old(boxes) && active == old(active) && enabled == old(enabled)
    {
      updating := val;
    }

    /** setEnabled: the flag, and the enabled state of every box that is not queued. */
    method SetEnabled(val: bool)
      requires Valid()
      modifies this
      ensures enabled == val && axes == old(axes) && active == old(active) && updating == old(updating)
      ensures boxes.Keys == old(boxes).Keys
      ensures forall a :: a in boxes ==> boxes[a] == if a in active then old(boxes)[a] else old(boxes)[a].(enabled := val)
      ensures Valid() && (old(Synced()) ==> Synced())
    {
      enabled := val;
      var remaining := boxes.Keys;
      ghost var start := boxes;
      while remaining != {}
        invariant remaining <= boxes.Keys && boxes.Keys == start.Keys
        invariant enabled == val && axes == old(axes) && active == old(active) && updating == old(updating)
        invariant forall a :: a in boxes ==>
                    boxes[a] == if a in active || a in remaining then start[a] else start[a].(enabled := val)
        decreases remaining
      {
        var a :| a in remaining;
        if a !in active {
          boxes := boxes[a := boxes[a].(enabled := val)];
        }
        remaining := remaining - {a};
      }
    }

    /**
     * deactivate: an axis without a box throws (a null one while its label is read for the message);
     * a queued axis gives null and changes nothing; any other axis retires the oldest queued axis,
     * whose box is re-enabled, joins the queue at its tail with its box greyed out, and the retired
     * axis is returned. With an empty queue the retired wrapper is null and the call throws.
     */
    method Deactivate(axis: Axis?) returns (r: Result<Option<Axis>>)
      requires Valid()
      modifies this
      ensures Valid() && axes == old(axes) && updating == old(updating) && enabled == old(enabled)
      ensures axis == null ==> r == Failure(NullPointer)
      ensures axis != null && axis !in old(boxes) ==> r == Failure(IllegalArgument)
      ensures axis != null && axis in old(active) ==> r == Success(None)
      ensures axis != null && axis in old(boxes) && axis !in old(active) && old(active) == [] ==> r == Failure(NullPointer)
      ensures r.Failure? || r == Success(None) ==> unchanged(this)
      ensures axis != null && axis in old(boxes) && axis !in old(active) && old(active) != [] ==>
                && r == Success(Some(old(active)[0]))
                && active == old(active)[1..] + [axis]
                && boxes == old(boxes)[old(active)[0] := Box(true, false)][axis := Box(false, true)]
    {
      if axis == null {
        return Failure(NullPointer);
      }
      if axis !in boxes {
        return Failure(IllegalArgument);
      }
      var queued := CheckIfActive(axis);
      if queued {
        return Success(None);
      }
      if active == [] {
        return Failure(NullPointer);
      }
      var retired := active[0];
      boxes := boxes[retired := Box(true, false)];
      boxes := boxes[axis := Box(false, true)];
      active := active[1..] + [axis];
      assert forall i :: 0 <= i < |active| - 1 ==> active[i] == old(active)[i + 1];
      r := Success(Some(retired));
    }

    /**
     * The second half of a click, once the boxes and the queue were updated: the axis set displays axis
     * instead of the retired toHide, and the change is announced.
     */
    method SwapDisplayed(axis: Axis, toHide: Axis) returns (r: Outcome)
      requires Valid() && axes != null
      requires toHide in axes.displayed.items && axis in axes.hidden.items
      requires multiset(active) == multiset(axes.displayed.items) - multiset{toHide} + multiset{axis}
      modifies events, axes.displayed, axes.hidden
      ensures r == Pass && Valid() && Synced()
      ensures axes.displayed.items == SwapIn(old(axes.displayed.items), axis, toHide)
      ensures axes.hidden.items == SwapIn(old(axes.hidden.items), toHide, axis)
      ensures events.published == old(events.published) + [SelectionChanged, ImgRedraw]
    {
      ghost var ds := axes.displayed.items;
      PartitionMembership(axes.axes, ds, axes.hidden.items);
      r := axes.DisplayAxis(axis, toHide);
      SwapFollowsQueue(active, ds, axis, toHide);
      Announce();
    }

    /** The two events a click publishes: the selection changed, and the image is to be redrawn. */
    method Announce()
      modifies events
      ensures events.published == old(events.published) + [SelectionChanged, ImgRedraw]
    {
      events.Publish(SelectionChanged);
      events.Publish(ImgRedraw);
    }

    /**
     * CheckBoxAdapter.actionPerformed for the box of axis: ignored while updating; otherwise deactivate
     * it and let the axis set display it instead of the axis returned, then announce the change. A
     * queued axis makes displayAxis throw on the null it gets back.
     */
    method Click(axis: Axis)
      returns (r: Outcome)
      requires Valid() && Synced() && axes != null
      modifies this, events, axes.displayed, axes.hidden
      ensures Valid() && Synced() && axes == old(axes)
      ensures old(updating) ==> r == Pass && unchanged(this, events, axes.displayed, axes.hidden)
      ensures !old(updating) && r.Pass? ==>
                && axis in old(boxes) && axis !in old(active) && old(active) != []
                && active == old(active)[1..] + [axis]
                && boxes == old(boxes)[old(active)[0] := Box(true, false)][axis := Box(false, true)]
                && updating == old(updating) && enabled == old(enabled)
                && axes.displayed.items == SwapIn(old(axes.displayed.items), axis, old(active)[0])
                && axes.hidden.items == SwapIn(old(axes.hidden.items), old(active)[0], axis)
                && events.published == old(events.published) + [SelectionChanged, ImgRedraw]
      ensures !old(updating) && r.Fail? ==>
                && r.error == (if axis in old(boxes) then NullPointer else IllegalArgument)
                && unchanged(this, events, axes.displayed, axes.hidden)
    {
      if updating {
        return Pass;
      }
      var d := Deactivate(axis);
      var toHide: Axis;
      match d {
        case Failure(e) => return Fail(e);
        case Success(None) => return Fail(NullPointer);
        case Success(Some(h)) => toHide := h;
      }
      assert axis in (set a | a in axes.axes);
      SwapReady(old(active), axes.axes, axes.displayed.items, axes.hidden.items, axis);
      r := SwapDisplayed(axis, toHide);
    }
  }
}
