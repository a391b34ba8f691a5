/**
 The order in which the pool starts requests (`src/threadpool.c`): one does not overtake another of its kind that
 was submitted before it, whatever workers, submitters and cancellers do in between.
*/
module PoolOrder {
  import opened Sequences
  import opened ThreadPool

  /** No `y` comes before an `x`. */
  ghost predicate Precedes<T>(s: seq<T>, x: T, y: T) {
    forall i, j {:trigger s[i], s[j]} | 0 <= i < j < |s| :: !(s[i] == y && s[j] == x)
  }

  lemma PrecedesTail<T>(s: seq<T>, x: T, y: T)
    requires s != [] && Precedes(s, x, y)
    ensures Precedes(s[1..], x, y)
    ensures x != y && s[0] == y ==> x !in s
  {
    forall i, j | 0 <= i < j < |s| - 1 ensures !(s[1..][i] == y && s[1..][j] == x) {
      assert s[1..][i] == s[i + 1] && s[1..][j] == s[j + 1];
    }
  }

  lemma PrecedesMore<T>(s: seq<T>, x: T, y: T, z: T)
    requires Precedes(s, x, y) && z != x
    ensures Precedes(s + [z], x, y)
  {
  }

  lemma PrecedesAbsent<T>(s: seq<T>, x: T, y: T)
    requires x !in s || y !in s
    ensures Precedes(s, x, y)
  {
  }

  lemma PrecedesBehind<T>(head: T, tail: seq<T>, x: T, y: T)
    requires Precedes(tail, x, y) && (head == y ==> x !in tail)
    ensures Precedes([head] + tail, x, y)
  {
    forall i, j | 0 <= i < j < |tail| + 1 ensures !(([head] + tail)[i] == y && ([head] + tail)[j] == x) {
      assert ([head] + tail)[j] == tail[j - 1];
      assert i > 0 ==> ([head] + tail)[i] == tail[i - 1];
    }
  }

  lemma {:induction false} PrecedesRemoved<T>(s: seq<T>, x: T, y: T, z: T)
    requires Precedes(s, x, y) && x != y
    ensures Precedes(Removed(s, z), x, y)
  {
    if s != [] {
      PrecedesTail(s, x, y);
      if s[0] != z {
        PrecedesRemoved(s[1..], x, y, z);
        RemovedMembers(s[1..], z);
        PrecedesBehind(s[0], Removed(s[1..], z), x, y);
      }
    }
  }

  // ---------- what is on the queues ----------

  predicate Slow(st: State, id: Id)
    requires id in st.reqs
  {
    st.reqs[id].kind == SlowIo
  }

  /** Requests are on the queue of their kind. */
  ghost predicate Placed(st: State) {
    && (forall id {:trigger Job(id)} | Job(id) in st.wq :: id in st.reqs && !Slow(st, id))
    && (forall id | id in st.slowPending :: id in st.reqs && Slow(st, id))
  }

  predicate Waits(st: State, id: Id) {
    Job(id) in st.wq || id in st.slowPending
  }

  /** While `a` waits, `b` has not been started and is behind it. */
  ghost predicate InOrder(st: State, a: Id, b: Id) {
    && a in st.reqs && b in st.reqs && a != b && (Slow(st, a) <==> Slow(st, b))
    && (Waits(st, a) ==>
          !st.reqs[b].ran && Precedes(st.wq, Job(a), Job(b)) && Precedes(st.slowPending, a, b))
  }

  lemma SameReqs(st: State, st': State, step: Step, id: Id)
    requires id in st.reqs && Next(st, st', step)
    ensures id in st'.reqs && Slow(st', id) == Slow(st, id)
    ensures !step.Take? ==> st'.reqs[id].ran == st.reqs[id].ran
  {
  }

  // ---------- one step ----------

  lemma PlacedSubmit(st: State, st': State, id: Id, kind: Kind, loop: nat, woken: Optional<nat>)
    requires Placed(st) && SubmitStep(st, st', id, kind, loop, woken)
    ensures Placed(st')
  {
  }

  lemma PlacedCancel(st: State, st': State, loop: nat, id: Id)
    requires Placed(st) && CancelStep(st, st', loop, id)
    ensures Placed(st')
  {
    RemovedMembers(st.wq, Job(id));
    RemovedMembers(st.slowPending, id);
  }

  lemma PlacedKept(st: State, st': State, step: Step)
    requires Placed(st) && Next(st, st', step)
    ensures Placed(st')
  {
    match step
    case Submit(id, kind, loop, woken) => PlacedSubmit(st, st', id, kind, loop, woken);
    case Cancel(loop, id) => PlacedCancel(st, st', loop, id);
    case _ =>
  }

  lemma OrderSubmit(st: State, st': State, id: Id, kind: Kind, loop: nat, woken: Optional<nat>, a: Id, b: Id)
    requires Placed(st) && InOrder(st, a, b) && SubmitStep(st, st', id, kind, loop, woken)
    ensures InOrder(st', a, b)
  {
    if Waits(st, a) {
      PrecedesMore(st.wq, Job(a), Job(b), Job(id));
      PrecedesMore(st.wq, Job(a), Job(b), RunSlow);
      PrecedesMore(st.slowPending, a, b, id);
    }
  }

  lemma OrderCancel(st: State, st': State, loop: nat, id: Id, a: Id, b: Id)
    requires InOrder(st, a, b) && CancelStep(st, st', loop, id)
    ensures InOrder(st', a, b)
  {
    RemovedMembers(st.wq, Job(id));
    RemovedMembers(st.slowPending, id);
    if Waits(st, a) {
      PrecedesRemoved(st.wq, Job(a), Job(b), Job(id));
      PrecedesRemoved(st.slowPending, a, b, id);
    }
  }

  /** The request at the head is started: if that is `b`, then `a` does not wait. */
  lemma OrderTake(st: State, st': State, i: nat, woken: Optional<nat>, a: Id, b: Id)
    requires Placed(st) && InOrder(st, a, b) && TakeStep(st, st', i, woken)
    ensures InOrder(st', a, b)
  {
    if Waits(st, a) {
      PrecedesTail(st.wq, Job(a), Job(b));
      PrecedesMore(st.wq[1..], Job(a), Job(b), RunSlow);
      if st.slowPending != [] {
        PrecedesTail(st.slowPending, a, b);
      }
    }
  }

  lemma OrderKept(st: State, st': State, step: Step, a: Id, b: Id)
    requires Placed(st) && InOrder(st, a, b) && Next(st, st', step)
    ensures InOrder(st', a, b)
  {
    match step
    case Submit(id, kind, loop, woken) => OrderSubmit(st, st', id, kind, loop, woken, a, b);
    case PostExit(woken) => if Waits(st, a) { PrecedesMore(st.wq, Job(a), Job(b), Exit); }
    case Take(i, woken) => OrderTake(st, st', i, woken, a, b);
    case Cancel(loop, id) => OrderCancel(st, st', loop, id, a, b);
    case _ =>
  }

  /** A request is behind those of its kind that are already there. */
  lemma OrderStarts(st: State, st': State, kind: Kind, loop: nat, woken: Optional<nat>, a: Id, b: Id)
    requires Placed(st) && a in st.reqs && (Slow(st, a) <==> kind == SlowIo)
    requires SubmitStep(st, st', b, kind, loop, woken)
    ensures InOrder(st', a, b)
  {
    PrecedesAbsent(st.wq, Job(a), Job(b));
    PrecedesAbsent(st.slowPending, a, b);
    PrecedesMore(st.wq, Job(a), Job(b), Job(b));
    PrecedesMore(st.wq, Job(a), Job(b), RunSlow);
    PrecedesMore(st.slowPending, a, b, b);
  }

  // ---------- whole runs ----------

  lemma {:induction false} RunPlaced(sts: seq<State>, steps: seq<Step>, n: nat)
    requires IsRun(sts, steps) && n < |sts|
    ensures Placed(sts[n])
  {
    if n > 0 {
      RunPlaced(sts, steps, n - 1);
      PlacedKept(sts[n - 1], sts[n], steps[n - 1]);
    }
  }

  /** Step `p` of the run submits a request of this kind, or of the other fast one. */
  ghost predicate Submits(steps: seq<Step>, p: nat, id: Id, slow: bool) {
    p < |steps| && steps[p].Submit? && steps[p].id == id && (steps[p].kind == SlowIo <==> slow)
  }

  lemma {:induction false} StaysKnown(sts: seq<State>, steps: seq<Step>, p: nat, id: Id, slow: bool, n: nat)
    requires IsRun(sts, steps) && Submits(steps, p, id, slow) && p < n < |sts|
    ensures id in sts[n].reqs && Slow(sts[n], id) == slow
  {
    assert Next(sts[n - 1], sts[n], steps[n - 1]);
    if n > p + 1 {
      StaysKnown(sts, steps, p, id, slow, n - 1);
      SameReqs(sts[n - 1], sts[n], steps[n - 1], id);
    }
  }

  lemma {:induction false} StaysInOrder(sts: seq<State>, steps: seq<Step>, p: nat, q: nat, a: Id, b: Id, slow: bool,
                                        n: nat)
    requires IsRun(sts, steps) && Submits(steps, p, a, slow) && Submits(steps, q, b, slow) && p < q < n < |sts|
    ensures InOrder(sts[n], a, b)
  {
    RunPlaced(sts, steps, n - 1);
    assert Next(sts[n - 1], sts[n], steps[n - 1]);
    if n == q + 1 {
      StaysKnown(sts, steps, p, a, slow, q);
      OrderStarts(sts[q], sts[n], steps[q].kind, steps[q].loop, steps[q].woken, a, b);
    } else {
      StaysInOrder(sts, steps, p, q, a, b, slow, n - 1);
      OrderKept(sts[n - 1], sts[n], steps[n - 1], a, b);
    }
  }

  /**
   First come, first served, in every run and among the requests of either kind: as long as one waits, none that was
   submitted after it has been started.  What waits is on the queue of its kind, and it has not been started itself.
  */
  lemma FirstComeFirstServed(sts: seq<State>, steps: seq<Step>, p: nat, q: nat, a: Id, b: Id, slow: bool, n: nat)
    requires IsRun(sts, steps) && Submits(steps, p, a, slow) && Submits(steps, q, b, slow) && p < q < n < |sts|
    ensures a in sts[n].reqs && b in sts[n].reqs
    ensures (if slow then a in sts[n].slowPending else Job(a) in sts[n].wq) ==> !sts[n].reqs[b].ran
    ensures Job(a) in sts[n].wq ==> !slow
    ensures a in sts[n].slowPending ==> slow
  {
    StaysInOrder(sts, steps, p, q, a, b, slow, n);
    StaysKnown(sts, steps, p, a, slow, n);
    RunPlaced(sts, steps, n);
  }
}
