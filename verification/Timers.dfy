/**
 Timers of an event loop (`src/timer.c` of libuv) on the pointer heap: due timers fire once each, in
 the order of their timeouts and, for equal timeouts, of their start.
*/
module Timers {
  import opened PointerHeap

  const MAX_TIME: nat := 0xffff_ffff_ffff_ffff

  /** The time a timer is set for: the addition of `uv_timer_start`, which does not wrap around. */
  function Clamped(time: nat, timeout: nat): nat
  {
    if (time + timeout) % (MAX_TIME + 1) < timeout then MAX_TIME else (time + timeout) % (MAX_TIME + 1)
  }

  lemma ClampedIsMinimum(time: nat, timeout: nat)
    requires time <= MAX_TIME && timeout <= MAX_TIME
    ensures Clamped(time, timeout) == if time + timeout <= MAX_TIME then time + timeout else MAX_TIME
  {
    if time + timeout > MAX_TIME {
      assert (time + timeout) % (MAX_TIME + 1) == time + timeout - (MAX_TIME + 1);
    }
  }

  function KeyOf(t: Timer): Key
    reads t
  {
    Key(t.timeout, t.startId)
  }

  class Loop {
    var time: nat
    var timerCounter: nat
    const heap: Heap
    /** The active timers. */
    ghost var timers: set<Timer>

    /** A node of the heap and its timer point at each other and agree on the key. */
    ghost predicate Matches(n: Node)
      reads this, n.timer
    {
      && n.timer in timers && n.timer.active && n.timer.hasCallback && !n.timer.closing && n.timer.node == n
      && n.key == KeyOf(n.timer) && n.key.startId < timerCounter
      && n.timer.repeat_ <= MAX_TIME
    }

    ghost predicate Ok()
      reads this, heap, heap.nodes, timers, set n | n in heap.nodes :: n.timer
    {
      && heap.Valid() && time <= MAX_TIME
      && (forall n | n in Elements(heap.nodes) :: Matches(n))
      && (forall t | t in timers :: t.node != null && t.node in Elements(heap.nodes) && t.node.timer == t)
      && (forall n, m | n in Elements(heap.nodes) && m in Elements(heap.nodes) && n.key.startId == m.key.startId ::
            n == m)
    }

    constructor (time: nat)
      requires time <= MAX_TIME
      ensures Ok() && timers == {} && fresh(heap) && this.time == time
    {
      this.time, timerCounter := time, 0;
      heap := new Heap();
      timers := {};
    }

    /** `uv_timer_start`; false stands for `UV_EINVAL`. */
    method Start(handle: Timer, callback: bool, timeout: nat, repeat_: nat) returns (ok: bool)
      requires Ok() && (handle.active <==> handle in timers)
      requires timeout <= MAX_TIME && repeat_ <= MAX_TIME
      modifies this, heap, heap.nodes, handle
      ensures Ok() && ok == (callback && !old(handle.closing)) && time == old(time)
      ensures !ok ==> timers == old(timers) && unchanged(handle) && timerCounter == old(timerCounter)
      ensures ok ==> timers == old(timers) + {handle} && timerCounter == old(timerCounter) + 1
      ensures ok ==> KeyOf(handle) == Key(Clamped(time, timeout), old(timerCounter)) && handle.repeat_ == repeat_
      ensures fresh(Elements(heap.nodes) - old(Elements(heap.nodes)))
    {
      if handle.closing || !callback {
        return false;
      }
      if handle.active {
        Stop(handle);
      }
      Arm(handle, timeout, repeat_);
      ok := true;
    }

    /** The part of `uv_timer_start` after the checks. */
    method Arm(handle: Timer, timeout: nat, repeat_: nat)
      requires Ok() && handle !in timers && !handle.closing
      requires timeout <= MAX_TIME && repeat_ <= MAX_TIME
      modifies this`timers, this`timerCounter, heap, heap.nodes, handle
      ensures Ok() && timers == old(timers) + {handle} && timerCounter == old(timerCounter) + 1
      ensures KeyOf(handle) == Key(Clamped(time, timeout), old(timerCounter)) && handle.repeat_ == repeat_
      ensures handle.closing == old(handle.closing)
      ensures fresh(Elements(heap.nodes) - old(Elements(heap.nodes)))
    {
      SetUp(handle, timeout, repeat_);
      ghost var ns := Elements(heap.nodes);
      heap.Insert(handle.node);
      handle.active := true;
      timers := timers + {handle};
      forall n | n in Elements(heap.nodes) ensures Matches(n) {
        assert n in ns || n == handle.node;
      }
    }

    /** The fields of a timer that is about to be put into the heap, and its counter. */
    method SetUp(handle: Timer, timeout: nat, repeat_: nat)
      requires Ok() && handle !in timers && !handle.closing
      requires timeout <= MAX_TIME && repeat_ <= MAX_TIME
      modifies this`timerCounter, handle
      ensures Ok() && timerCounter == old(timerCounter) + 1
      ensures KeyOf(handle) == Key(Clamped(time, timeout), old(timerCounter)) && handle.repeat_ == repeat_
      ensures handle.closing == old(handle.closing) && handle.hasCallback
      ensures handle.node != null && fresh(handle.node) && handle.node.timer == handle
        && handle.node.key == KeyOf(handle)
      ensures forall n | n in Elements(heap.nodes) :: n.timer != handle && n.key.startId < old(timerCounter)
    {
      handle.hasCallback := true;
      handle.timeout := Clamped(time, timeout);
      handle.repeat_ := repeat_;
      handle.startId := timerCounter;
      timerCounter := timerCounter + 1;
      handle.node := new Node(handle, KeyOf(handle));
      forall n | n in Elements(heap.nodes) ensures Matches(n) && n.timer != handle {
        assert old(Matches(n));
      }
    }

    /** `uv_timer_stop`. */
    method Stop(handle: Timer)
      requires Ok() && (handle.active <==> handle in timers)
      modifies this`timers, heap, heap.nodes, handle`active
      ensures Ok() && timers == old(timers) - {handle} && !handle.active
      ensures Elements(heap.nodes) <= old(Elements(heap.nodes))
      ensures forall i | 0 <= i < |heap.nodes| :: heap.nodes[i] in old(heap.nodes)
    {
      if !handle.active {
        return;
      }
      assert handle.node in Elements(heap.nodes);
      heap.Remove(handle.node);
      handle.active := false;
      timers := timers - {handle};
      assert forall n | n in Elements(heap.nodes) :: old(Matches(n)) && n.timer != handle;
      forall i | 0 <= i < |heap.nodes| ensures heap.nodes[i] in old(heap.nodes) {
        assert heap.nodes[i] in Elements(heap.nodes) && heap.nodes[i] in old(Elements(heap.nodes));
      }
    }

    /** `uv_timer_again`; false stands for `UV_EINVAL`. */
    method Again(handle: Timer) returns (ok: bool)
      requires Ok() && (handle.active <==> handle in timers) && handle.repeat_ <= MAX_TIME
      modifies this, heap, heap.nodes, handle
      ensures Ok() && ok == old(handle.hasCallback) && time == old(time) && handle.repeat_ == old(handle.repeat_)
      ensures !ok || handle.repeat_ == 0 ==> timers == old(timers) && timerCounter == old(timerCounter)
      ensures ok && handle.repeat_ > 0 && !old(handle.closing) ==>
        && timers == old(timers) + {handle} && timerCounter == old(timerCounter) + 1
        && KeyOf(handle) == Key(Clamped(time, handle.repeat_), old(timerCounter))
      ensures fresh(Elements(heap.nodes) - old(Elements(heap.nodes)))
    {
      if !handle.hasCallback {
        return false;
      }
      if handle.repeat_ > 0 {
        Stop(handle);
        var _ := Start(handle, true, handle.repeat_, handle.repeat_);
      }
      return true;
    }

    /** One turn of the loop of `uv__run_timers`, up to the callback. */
    method Fire(handle: Timer)
      requires Ok() && handle in timers
      modifies this, heap, heap.nodes, handle
      ensures Ok() && time == old(time) && handle.repeat_ == old(handle.repeat_)
      ensures timers == if handle.repeat_ == 0 then old(timers) - {handle} else old(timers)
      ensures handle.repeat_ == 0 ==> timerCounter == old(timerCounter)
      ensures handle.repeat_ > 0 ==> timerCounter == old(timerCounter) + 1
      ensures handle.repeat_ > 0 ==> KeyOf(handle) == Key(Clamped(time, handle.repeat_), old(timerCounter))
      ensures forall i | 0 <= i < |heap.nodes| :: heap.nodes[i] in old(heap.nodes) || fresh(heap.nodes[i])
    {
      assert Matches(handle.node);
      Stop(handle);
      var _ := Again(handle);
      forall i | 0 <= i < |heap.nodes| ensures heap.nodes[i] in old(heap.nodes) || fresh(heap.nodes[i]) {
        assert heap.nodes[i] in Elements(heap.nodes);
        assert heap.nodes[i] in old(Elements(heap.nodes)) ==> heap.nodes[i] in old(heap.nodes);
      }
    }

    /** A first timer to expire, if any. */
    method Earliest() returns (handle: Timer?)
      requires Ok()
      ensures handle == null <==> timers == {}
      ensures handle != null ==> handle in timers
      ensures handle != null ==> forall t | t in timers && t != handle :: Less(KeyOf(handle), KeyOf(t))
    {
      var node := heap.Min();
      if node == null {
        assert timers == {} by {
          assert forall t | t in timers :: t.node in heap.nodes;
        }
        return null;
      }
      handle := node.timer;
      assert node in Elements(heap.nodes) && Matches(node);
      forall t | t in timers && t != handle ensures Less(KeyOf(handle), KeyOf(t)) {
        assert t.node in Elements(heap.nodes) && Matches(t.node) && t.node in heap.nodes;
      }
    }

    /** The keys of the active timers. */
    ghost function CurrentKeys(): map<Timer, Key>
      reads this, timers
    {
      map t | t in timers :: KeyOf(t)
    }

    ghost function Repeats(): map<Timer, nat>
      reads this, timers
    {
      map t | t in timers :: t.repeat_
    }

    /**
     `uv__run_timers`, with callbacks that leave timers alone: every due timer fires once, in order;
     a repeating one is started again for later, the others are stopped.
    */
    method RunTimers() returns (fired: seq<Timer>)
      requires Ok() && time < MAX_TIME
      modifies this, heap, heap.nodes, timers
      ensures Ok() && time == old(time)
      ensures HasFired(fired, old(CurrentKeys()), old(Repeats()), CurrentKeys(), time, timerCounter)
      ensures Due(CurrentKeys(), time) == {}
    {
      fired := [];
      ghost var all, repeats := CurrentKeys(), Repeats();
      ghost var left: nat := |Due(all, time)|;
      while true
        invariant Midway(fired, all, repeats, old(time), left) && timers <= old(timers)
        invariant forall i | 0 <= i < |heap.nodes| :: heap.nodes[i] in old(heap.nodes) || fresh(heap.nodes[i])
        decreases left
      {
        var handle;
        handle, left := Turn(fired, all, repeats, left);
        if handle == null {
          break;
        }
        fired := fired + [handle];
      }
    }

    /** Between two turns of the loop: `left` due timers have not fired yet. */
    ghost predicate Midway(fired: seq<Timer>, all: map<Timer, Key>, repeats: map<Timer, nat>, now: nat, left: nat)
      reads this, heap, heap.nodes, timers, repeats.Keys, set n | n in heap.nodes :: n.timer
    {
      && Ok() && time == now < MAX_TIME && left == |Due(CurrentKeys(), time)|
      && HasFired(fired, all, repeats, CurrentKeys(), time, timerCounter)
      && forall t | t in repeats :: t.repeat_ == repeats[t]
    }

    /** The first timer, if it is due. */
    method NextDue() returns (handle: Timer?)
      requires Ok()
      ensures handle == null ==> Due(CurrentKeys(), time) == {}
      ensures handle != null ==> handle in timers && handle.timeout <= time
      ensures handle != null ==> forall t | t in timers && t != handle :: Less(KeyOf(handle), KeyOf(t))
    {
      handle := Earliest();
      assert CurrentKeys() == old(CurrentKeys());
      if handle != null && handle.timeout > time {
        assert Due(CurrentKeys(), time) == {};
        handle := null;
      }
    }

    /** A turn of the loop fires the first of the due timers left, if any. */
    method Turn(ghost fired: seq<Timer>, ghost all: map<Timer, Key>, ghost repeats: map<Timer, nat>, ghost left0: nat)
      returns (handle: Timer?, ghost left: nat)
      requires Midway(fired, all, repeats, time, left0)
      modifies this, heap, heap.nodes, timers
      ensures timers <= old(timers)
      ensures handle == null ==> Midway(fired, all, repeats, old(time), left) && Due(CurrentKeys(), time) == {}
      ensures handle != null ==> Midway(fired + [handle], all, repeats, old(time), left) && left < left0
      ensures forall i | 0 <= i < |heap.nodes| :: heap.nodes[i] in old(heap.nodes) || fresh(heap.nodes[i])
    {
      handle := NextDue();
      assert Midway(fired, all, repeats, time, left0);
      left := left0;
      if handle != null {
        left := FireTurn(handle, fired, all, repeats, left0);
      }
    }

    method FireTurn(handle: Timer, ghost fired: seq<Timer>, ghost all: map<Timer, Key>, ghost repeats: map<Timer, nat>,
                    ghost left0: nat)
      returns (ghost left: nat)
      requires Midway(fired, all, repeats, time, left0) && handle in timers && handle.timeout <= time
      requires forall t | t in timers && t != handle :: Less(KeyOf(handle), KeyOf(t))
      modifies this, heap, heap.nodes, handle
      ensures Midway(fired + [handle], all, repeats, old(time), left) && left < left0 && timers <= old(timers)
      ensures forall i | 0 <= i < |heap.nodes| :: heap.nodes[i] in old(heap.nodes) || fresh(heap.nodes[i])
    {
      assert Matches(handle.node);
      ghost var now, counter := CurrentKeys(), timerCounter;
      FireNext(handle);
      assert forall t | t in repeats :: t.repeat_ == repeats[t];
      FiringStep(fired, all, repeats, now, CurrentKeys(), time, counter, handle);
      left := |Due(CurrentKeys(), time)|;
    }

    /** A turn of the loop: only the key of the timer that fires changes. */
    method FireNext(handle: Timer)
      requires Ok() && handle in timers
      modifies this, heap, heap.nodes, handle
      ensures Ok() && time == old(time) && handle.repeat_ == old(handle.repeat_)
      ensures CurrentKeys() == AfterFiring(old(CurrentKeys()), handle, handle.repeat_, time, old(timerCounter))
      ensures timers <= old(timers)
      ensures timerCounter == old(timerCounter) + if handle.repeat_ == 0 then 0 else 1
      ensures forall i | 0 <= i < |heap.nodes| :: heap.nodes[i] in old(heap.nodes) || fresh(heap.nodes[i])
    {
      Fire(handle);
    }
  }

  // ---------- what a run of the loop does ----------

  /** The timers due at `time`. */
  ghost function Due(now: map<Timer, Key>, time: nat): set<Timer> {
    set t | t in now && now[t].timeout <= time
  }

  ghost function AfterFiring(now: map<Timer, Key>, handle: Timer, repeat_: nat, time: nat, counter: nat)
    : map<Timer, Key>
  {
    if repeat_ == 0 then now - {handle} else now[handle := Key(Clamped(time, repeat_), counter)]
  }

  /**
   With keys `all` at first and `now` at present: the timers that fired were due, came in the order
   of their keys and before every timer still due; those that repeat are set for later, in the same
   order, those that do not are gone, and no other timer was touched.
  */
  ghost predicate HasFired(fired: seq<Timer>, all: map<Timer, Key>, repeats: map<Timer, nat>, now: map<Timer, Key>,
                           time: nat, counter: nat) {
    && FiredWhich(fired, all, repeats, now, time)
    && FiredInOrder(fired, all, Due(now, time))
    && FiredLeaves(fired, all, repeats, now, time, counter)
  }

  /** Which timers fired, and which are still set. */
  ghost predicate FiredWhich(fired: seq<Timer>, all: map<Timer, Key>, repeats: map<Timer, nat>, now: map<Timer, Key>,
                             time: nat) {
    && repeats.Keys == all.Keys && Due(now, time) <= Due(all, time)
    && (forall i | 0 <= i < |fired| :: fired[i] in all)
    && (set t | t in fired) == Due(all, time) - Due(now, time)
    && now.Keys == all.Keys - (set t | t in fired && repeats[t] == 0)
  }

  /** In which order. */
  ghost predicate FiredInOrder(fired: seq<Timer>, all: map<Timer, Key>, left: set<Timer>) {
    && (forall i | 0 <= i < |fired| :: fired[i] in all) && left <= all.Keys
    && (forall i, j | 0 <= i < j < |fired| ::
          all[fired[i]].timeout < all[fired[j]].timeout
          || (all[fired[i]].timeout == all[fired[j]].timeout && all[fired[i]].startId < all[fired[j]].startId))
    && (forall t, u | t in fired && u in left :: Less(all[t], all[u]))
  }

  /** What keys that leaves. */
  ghost predicate FiredLeaves(fired: seq<Timer>, all: map<Timer, Key>, repeats: map<Timer, nat>, now: map<Timer, Key>,
                              time: nat, counter: nat) {
    && now.Keys <= all.Keys && now.Keys <= repeats.Keys
    && (forall t | t in now && t !in fired :: now[t] == all[t])
    && (forall t | t in now && t in fired :: now[t].timeout == Clamped(time, repeats[t]) && now[t].startId < counter)
    && (forall i, j | 0 <= i < j < |fired| && fired[i] in now && fired[j] in now ::
          now[fired[i]].startId < now[fired[j]].startId)
  }

  lemma FiringStep(fired: seq<Timer>, all: map<Timer, Key>, repeats: map<Timer, nat>, now: map<Timer, Key>,
                   now': map<Timer, Key>, time: nat, counter: nat, handle: Timer)
    requires HasFired(fired, all, repeats, now, time, counter) && time < MAX_TIME
    requires handle in Due(now, time) && forall t | t in now && t != handle :: Less(now[handle], now[t])
    requires handle in repeats && repeats[handle] <= MAX_TIME
    requires now' == AfterFiring(now, handle, repeats[handle], time, counter)
    ensures HasFired(fired + [handle], all, repeats, now', time, counter + if repeats[handle] == 0 then 0 else 1)
    ensures |Due(now', time)| < |Due(now, time)|
  {
    DueAfter(now, now', time, counter, handle, repeats[handle]);
    forall t | t in Due(now, time) ensures t !in fired {
      assert t in fired ==> t in set u | u in fired;
    }
    WhichAfter(fired, all, repeats, now, now', time, counter, handle);
    OrderAfter(fired, all, repeats, now, time, handle);
    LeavesAfter(fired, all, repeats, now, now', time, counter, handle);
  }

  lemma OrderAfter(fired: seq<Timer>, all: map<Timer, Key>, repeats: map<Timer, nat>, now: map<Timer, Key>,
                   time: nat, handle: Timer)
    requires FiredInOrder(fired, all, Due(now, time)) && handle in Due(now, time) && now.Keys <= all.Keys
    requires forall t | t in now && t !in fired :: now[t] == all[t]
    requires forall t | t in Due(now, time) :: t !in fired
    requires forall t | t in now && t != handle :: Less(now[handle], now[t])
    ensures FiredInOrder(fired + [handle], all, Due(now, time) - {handle})
  {
  }

  lemma LeavesAfter(fired: seq<Timer>, all: map<Timer, Key>, repeats: map<Timer, nat>, now: map<Timer, Key>,
                    now': map<Timer, Key>, time: nat, counter: nat, handle: Timer)
    requires FiredLeaves(fired, all, repeats, now, time, counter) && handle in now && handle in repeats
      && handle !in fired
    requires now' == AfterFiring(now, handle, repeats[handle], time, counter)
    ensures FiredLeaves(fired + [handle], all, repeats, now', time, counter + if repeats[handle] == 0 then 0 else 1)
  {
    forall i | 0 <= i < |fired| ensures fired[i] != handle {
    }
  }

  lemma DueAfter(now: map<Timer, Key>, now': map<Timer, Key>, time: nat, counter: nat, handle: Timer, repeat_: nat)
    requires time < MAX_TIME && repeat_ <= MAX_TIME && handle in Due(now, time)
    requires now' == AfterFiring(now, handle, repeat_, time, counter)
    ensures Due(now', time) == Due(now, time) - {handle} && |Due(now', time)| < |Due(now, time)|
  {
    ClampedIsMinimum(time, repeat_);
    assert Due(now', time) == Due(now, time) - {handle};
  }

  lemma WhichAfter(fired: seq<Timer>, all: map<Timer, Key>, repeats: map<Timer, nat>, now: map<Timer, Key>,
                   now': map<Timer, Key>, time: nat, counter: nat, handle: Timer)
    requires FiredWhich(fired, all, repeats, now, time) && handle in Due(now, time) && handle in repeats
    requires now' == AfterFiring(now, handle, repeats[handle], time, counter)
    requires Due(now', time) == Due(now, time) - {handle}
    ensures FiredWhich(fired + [handle], all, repeats, now', time)
  {
    assert (set t | t in fired + [handle]) == (set t | t in fired) + {handle};
    assert forall t | t in fired :: t in repeats;
    assert (set t | t in fired + [handle] && repeats[t] == 0)
      == (set t | t in fired && repeats[t] == 0) + if repeats[handle] == 0 then {handle} else {};
  }
}
