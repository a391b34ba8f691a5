/**
 The thread pool of libuv (`src/threadpool.c`) as a state machine whose steps are the critical
 sections of workers, submitters, cancellers and event loops, in any interleaving.
*/
module ThreadPool {
  import opened Sequences

  type Id = nat

  datatype Kind = Cpu | FastIo | SlowIo

  /** The `work` field: a function to run, NULL once it ran, or `uv__cancelled`. */
  datatype Work = Assigned | Null | Cancelled

  /**
   `linked` is what `QUEUE_EMPTY(&w->wq)` denies: `QUEUE_INIT` clears it, an insertion sets it, and
   `QUEUE_REMOVE` leaves it as it is. `ran` records whether a worker has started the request.
  */
  datatype Request = Request(kind: Kind, loop: nat, work: Work, linked: bool, ran: bool)

  /** Entries of `wq`: a request, `run_slow_work_message` or `exit_message`. */
  datatype Item = Job(id: Id) | RunSlow | Exit

  /**
   A worker looks at the queue, waits on the condition variable, was signalled but does not hold
   the mutex yet, runs a request, has handed it over to its loop, or has left.
  */
  datatype Worker = Looking | Waiting | Woken | Executing(id: Id, slow: bool) | Returning(slow: bool) | Stopped

  /** An event loop: `wq`, the list `uv__work_done` moved it to, and the request `uv__work_cancel` holds. */
  datatype Loop = Loop(wq: seq<Id>, local: seq<Id>, held: Optional<Id>)

  /**
   `delivered` lists the callbacks made, with whether they got `UV_ECANCELED`, and `again` the
   requests a cancel succeeded for although they were on no queue.
  */
  datatype State = State(
    wq: seq<Item>,
    slowPending: seq<Id>,
    slowRunning: int,
    idle: int,
    workers: seq<Worker>,
    loops: seq<Loop>,
    reqs: map<Id, Request>,
    delivered: seq<(Id, bool)>,
    again: seq<Id>)

  // ---------- counting ----------

  function Count<T(==)>(s: seq<T>, x: T): nat {
    if s == [] then 0 else (if s[0] == x then 1 else 0) + Count(s[1..], x)
  }

  lemma {:induction false} CountAppend<T>(a: seq<T>, b: seq<T>, x: T)
    ensures Count(a + b, x) == Count(a, x) + Count(b, x)
  {
    if a == [] {
      assert a + b == b;
    } else {
      assert (a + b)[1..] == a[1..] + b;
      CountAppend(a[1..], b, x);
    }
  }

  lemma {:induction false} CountMember<T>(s: seq<T>, x: T)
    ensures Count(s, x) > 0 <==> x in s
  {
    if s != [] {
      CountMember(s[1..], x);
    }
  }

  /** `QUEUE_REMOVE` of an entry that is linked into `s`. */
  function Removed<T(==)>(s: seq<T>, x: T): seq<T> {
    if s == [] then [] else if s[0] == x then s[1..] else [s[0]] + Removed(s[1..], x)
  }

  lemma {:induction false} CountRemoved<T>(s: seq<T>, x: T, y: T)
    ensures Count(Removed(s, x), y) == Count(s, y) - if y == x && x in s then 1 else 0
  {
    if s != [] && s[0] != x {
      CountRemoved(s[1..], x, y);
      assert ([s[0]] + Removed(s[1..], x))[1..] == Removed(s[1..], x);
    }
  }

  lemma {:induction false} RemovedMembers<T>(s: seq<T>, x: T)
    ensures |Removed(s, x)| == |s| - if x in s then 1 else 0
    ensures forall y | y in Removed(s, x) :: y in s
    ensures forall y | y in s && y != x :: y in Removed(s, x)
  {
    if s != [] && s[0] != x {
      RemovedMembers(s[1..], x);
    }
  }

  /** What a sum over the workers measures. */
  datatype Measure = IsWaiting | IsAwake | IsIdle | IsSlow | Runs(id: Id)

  function Weight(w: Worker, m: Measure): nat {
    match m
    case IsWaiting => if w.Waiting? then 1 else 0
    case IsAwake => if w.Looking? || w.Woken? then 1 else 0
    case IsIdle => if w.Waiting? || w.Woken? then 1 else 0
    case IsSlow => if (w.Executing? || w.Returning?) && w.slow then 1 else 0
    case Runs(id) => if w.Executing? && w.id == id then 1 else 0
  }

  function Sum(ws: seq<Worker>, m: Measure): nat {
    if ws == [] then 0 else Weight(ws[0], m) + Sum(ws[1..], m)
  }

  lemma {:induction false} SumUpdate(ws: seq<Worker>, i: nat, w: Worker, m: Measure)
    requires i < |ws|
    ensures Sum(ws[i := w], m) == Sum(ws, m) - Weight(ws[i], m) + Weight(w, m)
  {
    if i == 0 {
      assert ws[0 := w][1..] == ws[1..];
    } else {
      assert ws[i := w][1..] == ws[1..][i - 1 := w];
      SumUpdate(ws[1..], i - 1, w, m);
    }
  }

  lemma {:induction false} SumMember(ws: seq<Worker>, i: nat, m: Measure)
    requires i < |ws|
    ensures Sum(ws, m) >= Weight(ws[i], m)
  {
    if i > 0 {
      SumMember(ws[1..], i - 1, m);
    }
  }

  lemma {:induction false} SumWitness(ws: seq<Worker>, m: Measure) returns (i: nat)
    requires Sum(ws, m) > 0
    ensures i < |ws| && Weight(ws[i], m) > 0
  {
    if Weight(ws[0], m) > 0 {
      i := 0;
    } else {
      var j := SumWitness(ws[1..], m);
      i := j + 1;
    }
  }

  function InLoop(l: Loop, id: Id): nat {
    Count(l.wq, id) + Count(l.local, id) + if l.held == Some(id) then 1 else 0
  }

  function InLoops(ls: seq<Loop>, id: Id): nat {
    if ls == [] then 0 else InLoop(ls[0], id) + InLoops(ls[1..], id)
  }

  lemma {:induction false} LoopsUpdate(ls: seq<Loop>, i: nat, l: Loop, id: Id)
    requires i < |ls|
    ensures InLoops(ls[i := l], id) == InLoops(ls, id) - InLoop(ls[i], id) + InLoop(l, id)
  {
    if i == 0 {
      assert ls[0 := l][1..] == ls[1..];
    } else {
      assert ls[i := l][1..] == ls[1..][i - 1 := l];
      LoopsUpdate(ls[1..], i - 1, l, id);
    }
  }

  lemma {:induction false} LoopsMember(ls: seq<Loop>, i: nat, id: Id)
    requires i < |ls|
    ensures InLoops(ls, id) >= InLoop(ls[i], id)
  {
    if i > 0 {
      LoopsMember(ls[1..], i - 1, id);
    }
  }

  function DeliveredCount(ds: seq<(Id, bool)>, id: Id): nat {
    Count(ds, (id, false)) + Count(ds, (id, true))
  }

  // ---------- steps ----------

  datatype Step =
    | Submit(id: Id, kind: Kind, loop: nat, woken: Optional<nat>)
    | PostExit(woken: Optional<nat>)
    | Wait(i: nat)
    | Spurious(i: nat)
    | Resume(i: nat)
    | Take(i: nat, woken: Optional<nat>)
    | Finish(i: nat)
    | Return(i: nat)
    | Cancel(loop: nat, id: Id)
    | CancelDone(loop: nat)
    | Collect(loop: nat)
    | Deliver(loop: nat)

  /** `slow_work_thread_threshold`. */
  function Threshold(ws: seq<Worker>): nat {
    (|ws| + 1) / 2
  }

  /** What keeps a worker waiting: no work, or only slow work at the threshold. */
  predicate Blocked(st: State) {
    st.wq == [] || (st.wq == [RunSlow] && st.slowRunning >= Threshold(st.workers))
  }

  /** `uv_cond_signal`: wakes one waiting worker, if there is one. */
  predicate Signals(ws: seq<Worker>, woken: Optional<nat>) {
    match woken
    case None => forall i | 0 <= i < |ws| :: !ws[i].Waiting?
    case Some(i) => i < |ws| && ws[i].Waiting?
  }

  /** The signal sent only `if (idle_threads > 0)`. */
  predicate SignalsIfIdle(idle: int, ws: seq<Worker>, woken: Optional<nat>) {
    if idle > 0 then Signals(ws, woken) else woken == None
  }

  function Wake(ws: seq<Worker>, woken: Optional<nat>): (r: seq<Worker>)
    ensures |r| == |ws|
  {
    if woken.Some? && woken.value < |ws| then ws[woken.value := Woken] else ws
  }

  /** `post`. */
  predicate PostStep(st: State, st': State, item: Item, woken: Optional<nat>) {
    && SignalsIfIdle(st.idle, st.workers, woken)
    && st' == st.(wq := st.wq + [item], workers := Wake(st.workers, woken))
  }

  predicate SubmitStep(st: State, st': State, id: Id, kind: Kind, loop: nat, woken: Optional<nat>) {
    && id !in st.reqs && loop < |st.loops|
    && var reqs := st.reqs[id := Request(kind, loop, Assigned, true, false)];
       if kind != SlowIo then
         PostStep(st.(reqs := reqs), st', Job(id), woken)
       else if RunSlow in st.wq then
         st' == st.(reqs := reqs, slowPending := st.slowPending + [id]) && woken == None
       else
         PostStep(st.(reqs := reqs, slowPending := st.slowPending + [id]), st', RunSlow, woken)
  }

  predicate WaitStep(st: State, st': State, i: nat) {
    && i < |st.workers| && st.workers[i].Looking? && Blocked(st)
    && st' == st.(workers := st.workers[i := Waiting], idle := st.idle + 1)
  }

  predicate SpuriousStep(st: State, st': State, i: nat) {
    i < |st.workers| && st.workers[i].Waiting? && st' == st.(workers := st.workers[i := Woken])
  }

  predicate ResumeStep(st: State, st': State, i: nat) {
    && i < |st.workers| && st.workers[i].Woken?
    && st' == st.(workers := st.workers[i := Looking], idle := st.idle - 1)
  }

  /** The head of the queue is looked at, and taken off unless it is the exit message. */
  predicate TakeStep(st: State, st': State, i: nat, woken: Optional<nat>) {
    && i < |st.workers| && st.workers[i].Looking? && !Blocked(st)
    && match st.wq[0]
       case Exit => TakeExit(st, st', i, woken)
       case Job(id) => woken == None && TakeJob(st, st', i, id)
       case RunSlow =>
         if st.slowRunning >= Threshold(st.workers) then
           woken == None && st' == st.(wq := st.wq[1..] + [RunSlow])
         else if st.slowPending == [] then
           woken == None && st' == st.(wq := st.wq[1..])
         else
           TakeSlow(st, st', i, woken)
  }

  predicate TakeExit(st: State, st': State, i: nat, woken: Optional<nat>) {
    && i < |st.workers| && st.workers[i].Looking? && Signals(st.workers, woken)
    && st' == st.(workers := Wake(st.workers, woken)[i := Stopped])
  }

  /** The request of a worker that starts it: `QUEUE_INIT` has cleared the link. */
  function Started(r: Request): Request {
    r.(ran := true, linked := false)
  }

  predicate TakeJob(st: State, st': State, i: nat, id: Id) {
    && i < |st.workers| && st.workers[i].Looking? && st.wq != [] && st.wq[0] == Job(id) && id in st.reqs
    && st' == st.(wq := st.wq[1..], workers := st.workers[i := Executing(id, false)],
                  reqs := st.reqs[id := Started(st.reqs[id])])
  }

  /** A slow request is started, and the next one scheduled if there is one. */
  predicate TakeSlow(st: State, st': State, i: nat, woken: Optional<nat>) {
    && i < |st.workers| && st.workers[i].Looking? && st.wq != [] && st.wq[0] == RunSlow
    && st.slowRunning < Threshold(st.workers) && st.slowPending != [] && st.slowPending[0] in st.reqs
    && var id, more := st.slowPending[0], st.slowPending[1..];
       var ws := st.workers[i := Executing(id, true)];
       && (if more == [] then woken == None else SignalsIfIdle(st.idle, ws, woken))
       && st' == st.(wq := Rescheduled(st.wq[1..], more), slowPending := more,
                     slowRunning := st.slowRunning + 1, workers := Wake(ws, woken),
                     reqs := st.reqs[id := Started(st.reqs[id])])
  }

  function Rescheduled(wq: seq<Item>, pending: seq<Id>): seq<Item> {
    if pending == [] then wq else wq + [RunSlow]
  }

  /** The request goes to the queue of its loop. */
  predicate FinishStep(st: State, st': State, i: nat) {
    && i < |st.workers| && st.workers[i].Executing?
    && var id := st.workers[i].id;
       && id in st.reqs && st.reqs[id].loop < |st.loops|
       && var l := st.reqs[id].loop;
          st' == st.(workers := st.workers[i := Returning(st.workers[i].slow)],
                     reqs := st.reqs[id := st.reqs[id].(work := Null, linked := true)],
                     loops := st.loops[l := st.loops[l].(wq := st.loops[l].wq + [id])])
  }

  predicate ReturnStep(st: State, st': State, i: nat) {
    && i < |st.workers| && st.workers[i].Returning?
    && st' == st.(workers := st.workers[i := Looking],
                  slowRunning := if st.workers[i].slow then st.slowRunning - 1 else st.slowRunning)
  }

  /** `!QUEUE_EMPTY(&w->wq) && w->work != NULL`. */
  predicate MayCancel(r: Request) {
    r.linked && r.work != Null
  }

  /** The request is on a queue. */
  predicate Queued(wq: seq<Item>, pending: seq<Id>, l: Loop, id: Id) {
    Job(id) in wq || id in pending || id in l.wq || id in l.local
  }

  /**
   First half of `uv__work_cancel` when it does not fail. The request is unlinked from the queue it
   is on; on none, there is nothing to unlink it from.
  */
  predicate CancelStep(st: State, st': State, loop: nat, id: Id) {
    && loop < |st.loops| && st.loops[loop].held.None?
    && id in st.reqs && st.reqs[id].loop == loop && MayCancel(st.reqs[id])
    && var l := st.loops[loop];
       st' == st.(wq := Removed(st.wq, Job(id)), slowPending := Removed(st.slowPending, id),
                  loops := st.loops[loop := Loop(Removed(l.wq, id), Removed(l.local, id), Some(id))],
                  again := if Queued(st.wq, st.slowPending, l, id) then st.again else st.again + [id])
  }

  predicate CancelDoneStep(st: State, st': State, loop: nat) {
    && loop < |st.loops| && st.loops[loop].held.Some? && st.loops[loop].held.value in st.reqs
    && var id := st.loops[loop].held.value;
       st' == st.(reqs := st.reqs[id := st.reqs[id].(work := Cancelled, linked := true)],
                  loops := st.loops[loop := Loop(st.loops[loop].wq + [id], st.loops[loop].local, None)])
  }

  /** `uv__work_done` moves the queue to a list of its own. */
  predicate CollectStep(st: State, st': State, loop: nat) {
    && loop < |st.loops| && st.loops[loop].held.None? && st.loops[loop].local == []
    && st' == st.(loops := st.loops[loop := Loop([], st.loops[loop].wq, None)])
  }

  /** It takes a request off the list, which leaves the link as it is, and makes the callback. */
  predicate DeliverStep(st: State, st': State, loop: nat) {
    && loop < |st.loops| && st.loops[loop].held.None? && st.loops[loop].local != []
    && var id := st.loops[loop].local[0];
       && id in st.reqs
       && st' == st.(loops := st.loops[loop := st.loops[loop].(local := st.loops[loop].local[1..])],
                     delivered := st.delivered + [(id, st.reqs[id].work == Cancelled)])
  }

  predicate Next(st: State, st': State, step: Step) {
    match step
    case Submit(id, kind, loop, woken) => SubmitStep(st, st', id, kind, loop, woken)
    case PostExit(woken) => PostStep(st, st', Exit, woken)
    case Wait(i) => WaitStep(st, st', i)
    case Spurious(i) => SpuriousStep(st, st', i)
    case Resume(i) => ResumeStep(st, st', i)
    case Take(i, woken) => TakeStep(st, st', i, woken)
    case Finish(i) => FinishStep(st, st', i)
    case Return(i) => ReturnStep(st, st', i)
    case Cancel(loop, id) => CancelStep(st, st', loop, id)
    case CancelDone(loop) => CancelDoneStep(st, st', loop)
    case Collect(loop) => CollectStep(st, st', loop)
    case Deliver(loop) => DeliverStep(st, st', loop)
  }

  predicate Init(st: State) {
    && st.wq == [] && st.slowPending == [] && st.slowRunning == 0 && st.idle == 0
    && st.reqs == map[] && st.delivered == [] && st.again == []
    && |st.workers| > 0 && (forall i | 0 <= i < |st.workers| :: st.workers[i] == Looking)
    && forall l | 0 <= l < |st.loops| :: st.loops[l] == Loop([], [], None)
  }

  // ---------- waking workers ----------

  /** One of the workers that wait, or none. */
  predicate Sleeper(ws: seq<Worker>, woken: Optional<nat>) {
    woken.None? || (woken.value < |ws| && ws[woken.value].Waiting?)
  }

  lemma WakeSum(ws: seq<Worker>, woken: Optional<nat>, m: Measure)
    requires Sleeper(ws, woken)
    ensures Sum(Wake(ws, woken), m) == Sum(ws, m)
      + if woken.None? then 0 else if m == IsWaiting then -1 else if m == IsAwake then 1 else 0
  {
    if woken.Some? {
      SumUpdate(ws, woken.value, Woken, m);
    }
  }

  /** After a signal, either somebody more is awake or nobody waits. */
  lemma SignalWakes(ws: seq<Worker>, woken: Optional<nat>)
    requires Signals(ws, woken)
    ensures Sum(Wake(ws, woken), IsWaiting) > 0 ==> Sum(Wake(ws, woken), IsAwake) == Sum(ws, IsAwake) + 1
    ensures Sleeper(ws, woken)
  {
    WakeSum(ws, woken, IsWaiting);
    WakeSum(ws, woken, IsAwake);
    if woken.None? && Sum(ws, IsWaiting) > 0 {
      var i := SumWitness(ws, IsWaiting);
    }
  }

  lemma {:induction false} WaitingAreIdle(ws: seq<Worker>)
    ensures Sum(ws, IsWaiting) <= Sum(ws, IsIdle)
  {
    if ws != [] {
      WaitingAreIdle(ws[1..]);
    }
  }

  lemma SignalIfIdleWakes(idle: int, ws: seq<Worker>, woken: Optional<nat>)
    requires SignalsIfIdle(idle, ws, woken) && idle == Sum(ws, IsIdle)
    ensures Sum(Wake(ws, woken), IsWaiting) > 0 ==> Sum(Wake(ws, woken), IsAwake) == Sum(ws, IsAwake) + 1
    ensures Sleeper(ws, woken)
  {
    WaitingAreIdle(ws);
    if idle > 0 {
      SignalWakes(ws, woken);
    }
  }

  // ---------- the counters ----------

  /** The counters count what they should, and slow work keeps to its share of the threads. */
  ghost predicate CountersOk(ws: seq<Worker>, idle: int, slowRunning: int) {
    |ws| > 0 && idle == Sum(ws, IsIdle) && slowRunning == Sum(ws, IsSlow) && slowRunning <= Threshold(ws)
  }

  lemma CountersMove(ws: seq<Worker>, idle: int, slowRunning: int, i: nat, w: Worker, idle': int, slowRunning': int)
    requires CountersOk(ws, idle, slowRunning) && i < |ws|
    requires idle' == idle - Weight(ws[i], IsIdle) + Weight(w, IsIdle)
    requires slowRunning' == slowRunning - Weight(ws[i], IsSlow) + Weight(w, IsSlow) <= Threshold(ws)
    ensures CountersOk(ws[i := w], idle', slowRunning')
  {
    SumUpdate(ws, i, w, IsIdle);
    SumUpdate(ws, i, w, IsSlow);
  }

  lemma CountersWake(ws: seq<Worker>, idle: int, slowRunning: int, woken: Optional<nat>)
    requires CountersOk(ws, idle, slowRunning) && Sleeper(ws, woken)
    ensures CountersOk(Wake(ws, woken), idle, slowRunning)
  {
    WakeSum(ws, woken, IsIdle);
    WakeSum(ws, woken, IsSlow);
  }

  lemma CountersPost(st: State, st': State, item: Item, woken: Optional<nat>)
    requires CountersOk(st.workers, st.idle, st.slowRunning) && PostStep(st, st', item, woken)
    ensures CountersOk(st'.workers, st'.idle, st'.slowRunning)
  {
    SignalIfIdleWakes(st.idle, st.workers, woken);
    CountersWake(st.workers, st.idle, st.slowRunning, woken);
  }

  lemma CountersSubmit(st: State, st': State, id: Id, kind: Kind, loop: nat, woken: Optional<nat>)
    requires CountersOk(st.workers, st.idle, st.slowRunning) && SubmitStep(st, st', id, kind, loop, woken)
    ensures CountersOk(st'.workers, st'.idle, st'.slowRunning)
  {
    var reqs := st.reqs[id := Request(kind, loop, Assigned, true, false)];
    if kind != SlowIo {
      CountersPost(st.(reqs := reqs), st', Job(id), woken);
    } else if RunSlow !in st.wq {
      CountersPost(st.(reqs := reqs, slowPending := st.slowPending + [id]), st', RunSlow, woken);
    }
  }

  lemma CountersTakeExit(st: State, st': State, i: nat, woken: Optional<nat>)
    requires CountersOk(st.workers, st.idle, st.slowRunning) && TakeExit(st, st', i, woken)
    ensures CountersOk(st'.workers, st'.idle, st'.slowRunning)
  {
    SignalWakes(st.workers, woken);
    CountersWake(st.workers, st.idle, st.slowRunning, woken);
    CountersMove(Wake(st.workers, woken), st.idle, st.slowRunning, i, Stopped, st.idle, st.slowRunning);
  }

  lemma CountersTakeSlow(st: State, st': State, i: nat, woken: Optional<nat>)
    requires CountersOk(st.workers, st.idle, st.slowRunning) && TakeSlow(st, st', i, woken)
    ensures CountersOk(st'.workers, st'.idle, st'.slowRunning)
  {
    var w := Executing(st.slowPending[0], true);
    CountersMove(st.workers, st.idle, st.slowRunning, i, w, st.idle, st.slowRunning + 1);
    if st.slowPending[1..] != [] {
      SignalIfIdleWakes(st.idle, st.workers[i := w], woken);
    }
    CountersWake(st.workers[i := w], st.idle, st.slowRunning + 1, woken);
  }

  lemma CountersTake(st: State, st': State, i: nat, woken: Optional<nat>)
    requires CountersOk(st.workers, st.idle, st.slowRunning) && TakeStep(st, st', i, woken)
    ensures CountersOk(st'.workers, st'.idle, st'.slowRunning)
  {
    match st.wq[0]
    case Exit => CountersTakeExit(st, st', i, woken);
    case Job(id) =>
      CountersMove(st.workers, st.idle, st.slowRunning, i, Executing(id, false), st.idle, st.slowRunning);
    case RunSlow =>
      if st.slowRunning < Threshold(st.workers) && st.slowPending != [] {
        CountersTakeSlow(st, st', i, woken);
      }
  }

  lemma CountersNext(st: State, st': State, step: Step)
    requires CountersOk(st.workers, st.idle, st.slowRunning) && Next(st, st', step)
    ensures CountersOk(st'.workers, st'.idle, st'.slowRunning)
  {
    match step
    case Submit(id, kind, loop, woken) => CountersSubmit(st, st', id, kind, loop, woken);
    case PostExit(woken) => CountersPost(st, st', Exit, woken);
    case Wait(i) =>
      CountersMove(st.workers, st.idle, st.slowRunning, i, Waiting, st.idle + 1, st.slowRunning);
    case Spurious(i) =>
      CountersMove(st.workers, st.idle, st.slowRunning, i, Woken, st.idle, st.slowRunning);
    case Resume(i) =>
      CountersMove(st.workers, st.idle, st.slowRunning, i, Looking, st.idle - 1, st.slowRunning);
    case Take(i, woken) => CountersTake(st, st', i, woken);
    case Finish(i) =>
      var w := Returning(st.workers[i].slow);
      CountersMove(st.workers, st.idle, st.slowRunning, i, w, st.idle, st.slowRunning);
    case Return(i) =>
      CountersMove(st.workers, st.idle, st.slowRunning, i, Looking, st.idle, st'.slowRunning);
    case _ =>
  }

  // ---------- slow work ----------

  /** Pending slow work has its message queued, once. */
  ghost predicate SlowScheduled(wq: seq<Item>, pending: seq<Id>) {
    Count(wq, RunSlow) <= 1 && (pending != [] ==> RunSlow in wq)
  }

  lemma CountOne<T>(x: T, y: T)
    ensures Count([], y) == 0 && Count([x], y) == if x == y then 1 else 0
  {
    assert [x][1..] == [];
  }

  lemma Pushed<T>(s: seq<T>, x: T, y: T)
    ensures Count(s + [x], y) == Count(s, y) + if x == y then 1 else 0
    ensures y in s + [x] <==> y in s || x == y
  {
    CountAppend(s, [x], y);
    CountOne(x, y);
  }

  lemma Popped<T>(s: seq<T>, y: T)
    requires s != []
    ensures Count(s[1..], y) == Count(s, y) - if s[0] == y then 1 else 0
    ensures s[0] != y && y in s ==> y in s[1..]
    ensures y in s[1..] ==> y in s
  {
    CountMember(s, y);
    CountMember(s[1..], y);
  }

  lemma SlowTake(st: State, st': State, i: nat, woken: Optional<nat>)
    requires SlowScheduled(st.wq, st.slowPending) && TakeStep(st, st', i, woken)
    ensures SlowScheduled(st'.wq, st'.slowPending)
  {
    Popped(st.wq, RunSlow);
    Pushed(st.wq[1..], RunSlow, RunSlow);
    match st.wq[0]
    case Exit =>
    case Job(id) =>
    case RunSlow =>
  }

  lemma SlowCancel(wq: seq<Item>, pending: seq<Id>, id: Id)
    requires SlowScheduled(wq, pending)
    ensures SlowScheduled(Removed(wq, Job(id)), Removed(pending, id))
  {
    CountRemoved(wq, Job(id), RunSlow);
    RemovedMembers(wq, Job(id));
    RemovedMembers(pending, id);
  }

  lemma SlowNext(st: State, st': State, step: Step)
    requires SlowScheduled(st.wq, st.slowPending) && Next(st, st', step)
    ensures SlowScheduled(st'.wq, st'.slowPending)
  {
    match step
    case Submit(id, kind, loop, woken) =>
      Pushed(st.wq, Job(id), RunSlow);
      Pushed(st.wq, RunSlow, RunSlow);
      CountMember(st.wq, RunSlow);
    case PostExit(woken) => Pushed(st.wq, Exit, RunSlow);
    case Take(i, woken) => SlowTake(st, st', i, woken);
    case Cancel(loop, id) => SlowCancel(st.wq, st.slowPending, id);
    case _ =>
  }

  // ---------- wakeups ----------

  /** Queue entries a worker could act on now. */
  function Load(wq: seq<Item>, ws: seq<Worker>, slowRunning: int): int {
    |wq| - if slowRunning >= Threshold(ws) then Count(wq, RunSlow) else 0
  }

  /** No wakeup is lost: while a worker waits, the workers that are awake suffice for the load. */
  ghost predicate WakeupsOk(wq: seq<Item>, ws: seq<Worker>, slowRunning: int) {
    Sum(ws, IsWaiting) > 0 ==> Load(wq, ws, slowRunning) <= Sum(ws, IsAwake)
  }

  /** A worker changes its state, and the load as much as allowed. */
  lemma WakeupsMove(wq: seq<Item>, ws: seq<Worker>, slowRunning: int, i: nat, w: Worker,
                    wq': seq<Item>, slowRunning': int)
    requires WakeupsOk(wq, ws, slowRunning) && i < |ws| && Weight(w, IsWaiting) <= Weight(ws[i], IsWaiting)
    requires Load(wq', ws, slowRunning') - Load(wq, ws, slowRunning) <= Weight(w, IsAwake) - Weight(ws[i], IsAwake)
    ensures WakeupsOk(wq', ws[i := w], slowRunning')
  {
    SumUpdate(ws, i, w, IsWaiting);
    SumUpdate(ws, i, w, IsAwake);
  }

  /** One more entry, and a signal. */
  lemma WakeupsSignal(wq: seq<Item>, ws: seq<Worker>, slowRunning: int, woken: Optional<nat>, wq': seq<Item>)
    requires WakeupsOk(wq, ws, slowRunning) && Sleeper(ws, woken)
    requires Sum(Wake(ws, woken), IsWaiting) > 0 ==> Sum(Wake(ws, woken), IsAwake) == Sum(ws, IsAwake) + 1
    requires Load(wq', ws, slowRunning) <= Load(wq, ws, slowRunning) + 1
    ensures WakeupsOk(wq', Wake(ws, woken), slowRunning)
  {
    WakeSum(ws, woken, IsWaiting);
  }

  lemma WakeupsPost(st: State, st': State, item: Item, woken: Optional<nat>)
    requires CountersOk(st.workers, st.idle, st.slowRunning) && WakeupsOk(st.wq, st.workers, st.slowRunning)
    requires PostStep(st, st', item, woken)
    ensures WakeupsOk(st'.wq, st'.workers, st'.slowRunning)
  {
    SignalIfIdleWakes(st.idle, st.workers, woken);
    Pushed(st.wq, item, RunSlow);
    WakeupsSignal(st.wq, st.workers, st.slowRunning, woken, st.wq + [item]);
  }

  lemma WakeupsSubmit(st: State, st': State, id: Id, kind: Kind, loop: nat, woken: Optional<nat>)
    requires CountersOk(st.workers, st.idle, st.slowRunning) && WakeupsOk(st.wq, st.workers, st.slowRunning)
    requires SubmitStep(st, st', id, kind, loop, woken)
    ensures WakeupsOk(st'.wq, st'.workers, st'.slowRunning)
  {
    var reqs := st.reqs[id := Request(kind, loop, Assigned, true, false)];
    if kind != SlowIo {
      WakeupsPost(st.(reqs := reqs), st', Job(id), woken);
    } else if RunSlow !in st.wq {
      WakeupsPost(st.(reqs := reqs, slowPending := st.slowPending + [id]), st', RunSlow, woken);
    }
  }

  lemma WakeupsWait(st: State, st': State, i: nat)
    requires SlowScheduled(st.wq, st.slowPending) && WaitStep(st, st', i)
    ensures WakeupsOk(st'.wq, st'.workers, st'.slowRunning)
  {
    CountOne(RunSlow, RunSlow);
  }

  lemma WakeupsTakeExit(st: State, st': State, i: nat, woken: Optional<nat>)
    requires WakeupsOk(st.wq, st.workers, st.slowRunning) && TakeExit(st, st', i, woken)
    ensures WakeupsOk(st'.wq, st'.workers, st'.slowRunning)
  {
    SignalWakes(st.workers, woken);
    WakeSum(st.workers, woken, IsWaiting);
    SumUpdate(Wake(st.workers, woken), i, Stopped, IsWaiting);
    SumUpdate(Wake(st.workers, woken), i, Stopped, IsAwake);
  }

  lemma WakeupsTakeSlow(st: State, st': State, i: nat, woken: Optional<nat>)
    requires CountersOk(st.workers, st.idle, st.slowRunning) && WakeupsOk(st.wq, st.workers, st.slowRunning)
    requires TakeSlow(st, st', i, woken)
    ensures WakeupsOk(st'.wq, st'.workers, st'.slowRunning)
  {
    var w := Executing(st.slowPending[0], true);
    var ws := st.workers[i := w];
    Popped(st.wq, RunSlow);
    WakeupsMove(st.wq, st.workers, st.slowRunning, i, w, st.wq[1..], st.slowRunning + 1);
    if st.slowPending[1..] != [] {
      SumUpdate(st.workers, i, w, IsIdle);
      SignalIfIdleWakes(st.idle, ws, woken);
      Pushed(st.wq[1..], RunSlow, RunSlow);
      WakeupsSignal(st.wq[1..], ws, st.slowRunning + 1, woken, st.wq[1..] + [RunSlow]);
    }
  }

  lemma WakeupsTake(st: State, st': State, i: nat, woken: Optional<nat>)
    requires CountersOk(st.workers, st.idle, st.slowRunning) && WakeupsOk(st.wq, st.workers, st.slowRunning)
    requires TakeStep(st, st', i, woken)
    ensures WakeupsOk(st'.wq, st'.workers, st'.slowRunning)
  {
    Popped(st.wq, RunSlow);
    match st.wq[0]
    case Exit => WakeupsTakeExit(st, st', i, woken);
    case Job(id) =>
      WakeupsMove(st.wq, st.workers, st.slowRunning, i, Executing(id, false), st.wq[1..], st.slowRunning);
    case RunSlow =>
      Pushed(st.wq[1..], RunSlow, RunSlow);
      if st.slowRunning < Threshold(st.workers) && st.slowPending != [] {
        WakeupsTakeSlow(st, st', i, woken);
      }
  }

  lemma WakeupsReturn(st: State, st': State, i: nat)
    requires SlowScheduled(st.wq, st.slowPending) && WakeupsOk(st.wq, st.workers, st.slowRunning)
    requires ReturnStep(st, st', i)
    ensures WakeupsOk(st'.wq, st'.workers, st'.slowRunning)
  {
    WakeupsMove(st.wq, st.workers, st.slowRunning, i, Looking, st.wq, st'.slowRunning);
  }

  lemma WakeupsNext(st: State, st': State, step: Step)
    requires CountersOk(st.workers, st.idle, st.slowRunning) && SlowScheduled(st.wq, st.slowPending)
    requires WakeupsOk(st.wq, st.workers, st.slowRunning) && Next(st, st', step)
    ensures WakeupsOk(st'.wq, st'.workers, st'.slowRunning)
  {
    match step
    case Submit(id, kind, loop, woken) => WakeupsSubmit(st, st', id, kind, loop, woken);
    case PostExit(woken) => WakeupsPost(st, st', Exit, woken);
    case Wait(i) => WakeupsWait(st, st', i);
    case Spurious(i) => WakeupsMove(st.wq, st.workers, st.slowRunning, i, Woken, st.wq, st.slowRunning);
    case Resume(i) => WakeupsMove(st.wq, st.workers, st.slowRunning, i, Looking, st.wq, st.slowRunning);
    case Take(i, woken) => WakeupsTake(st, st', i, woken);
    case Finish(i) =>
      WakeupsMove(st.wq, st.workers, st.slowRunning, i, Returning(st.workers[i].slow), st.wq, st.slowRunning);
    case Return(i) => WakeupsReturn(st, st', i);
    case Cancel(loop, id) =>
      CountRemoved(st.wq, Job(id), RunSlow);
      RemovedMembers(st.wq, Job(id));
    case _ =>
  }

  lemma {:induction false} LoadPositive(wq: seq<Item>)
    requires wq != [] && wq != [RunSlow] && Count(wq, RunSlow) <= 1
    ensures |wq| > Count(wq, RunSlow)
  {
    if |wq| == 1 {
      assert wq == [wq[0]] && wq[1..] == [];
    }
  }

  // ---------- conservation ----------

  /** In how many places a request is: queued, pending, executing or with its loop. */
  function Live(wq: seq<Item>, pending: seq<Id>, ws: seq<Worker>, loops: seq<Loop>, id: Id): nat {
    Count(wq, Job(id)) + Count(pending, id) + Sum(ws, Runs(id)) + InLoops(loops, id)
  }

  /**
   A request is in at most one place. The callbacks made for it and the one still due, if it is in
   a place, are one more than the cancels that succeeded while it was on no queue.
  */
  ghost predicate Balanced(st: State, id: Id) {
    var live := Live(st.wq, st.slowPending, st.workers, st.loops, id);
    && live <= 1
    && live + DeliveredCount(st.delivered, id) == (if id in st.reqs then 1 else 0) + Count(st.again, id)
    && (id !in st.reqs ==> id !in st.again)
  }

  ghost predicate Conserved(st: State) {
    forall id: Id :: Balanced(st, id)
  }

  /** A place a request can be in. */
  datatype Place = InQueue | InPending | OnWorker | WithLoop

  ghost predicate At(st: State, id: Id, p: Place) {
    match p
    case InQueue => Job(id) in st.wq
    case InPending => id in st.slowPending
    case OnWorker => exists i :: 0 <= i < |st.workers| && IsRunning(st.workers[i], id)
    case WithLoop => exists l :: 0 <= l < |st.loops| && HasIt(st.loops[l], id)
  }

  predicate IsRunning(w: Worker, id: Id) {
    w.Executing? && w.id == id
  }

  predicate HasIt(l: Loop, id: Id) {
    id in l.wq || id in l.local || l.held == Some(id)
  }

  function CopiesAt(st: State, id: Id, p: Place): nat {
    match p
    case InQueue => Count(st.wq, Job(id))
    case InPending => Count(st.slowPending, id)
    case OnWorker => Sum(st.workers, Runs(id))
    case WithLoop => InLoops(st.loops, id)
  }

  lemma AtIsCounted(st: State, id: Id, p: Place)
    ensures At(st, id, p) <==> CopiesAt(st, id, p) > 0
  {
    match p
    case InQueue => CountMember(st.wq, Job(id));
    case InPending => CountMember(st.slowPending, id);
    case OnWorker =>
      if Sum(st.workers, Runs(id)) > 0 {
        var i := SumWitness(st.workers, Runs(id));
        assert IsRunning(st.workers[i], id);
      }
      forall i | 0 <= i < |st.workers| && IsRunning(st.workers[i], id) ensures Sum(st.workers, Runs(id)) > 0 {
        SumMember(st.workers, i, Runs(id));
      }
    case WithLoop => LoopIsCounted(st.loops, id);
  }

  lemma {:induction false} LoopIsCounted(ls: seq<Loop>, id: Id)
    ensures InLoops(ls, id) > 0 <==> exists l :: 0 <= l < |ls| && HasIt(ls[l], id)
  {
    if ls != [] {
      CountMember(ls[0].wq, id);
      CountMember(ls[0].local, id);
      LoopIsCounted(ls[1..], id);
      if InLoops(ls[1..], id) > 0 {
        var l :| 0 <= l < |ls[1..]| && HasIt(ls[1..][l], id);
        assert HasIt(ls[l + 1], id);
      }
      forall l | 0 < l < |ls| && HasIt(ls[l], id) ensures InLoops(ls[1..], id) > 0 {
        assert HasIt(ls[1..][l - 1], id);
      }
    }
  }

  /** A callback was made for the request. */
  predicate WasDelivered(ds: seq<(Id, bool)>, id: Id) {
    (id, false) in ds || (id, true) in ds
  }

  lemma DeliveredIsCounted(ds: seq<(Id, bool)>, id: Id)
    ensures WasDelivered(ds, id) <==> DeliveredCount(ds, id) > 0
  {
    CountMember(ds, (id, false));
    CountMember(ds, (id, true));
  }

  /** A request at one place is at no other. */
  lemma Alone(st: State, id: Id, p: Place)
    requires Balanced(st, id) && At(st, id, p)
    ensures CopiesAt(st, id, p) == 1
    ensures p != InQueue ==> !At(st, id, InQueue) && Job(id) !in st.wq
    ensures p != InPending ==> !At(st, id, InPending) && id !in st.slowPending
    ensures p != OnWorker ==> !At(st, id, OnWorker)
    ensures p != WithLoop ==> !At(st, id, WithLoop)
  {
    AtIsCounted(st, id, InQueue);
    AtIsCounted(st, id, InPending);
    AtIsCounted(st, id, OnWorker);
    AtIsCounted(st, id, WithLoop);
  }

  lemma BalancedPost(st: State, st': State, item: Item, woken: Optional<nat>, x: Id)
    requires PostStep(st, st', item, woken) && Sleeper(st.workers, woken)
    ensures Live(st'.wq, st'.slowPending, st'.workers, st'.loops, x)
         == Live(st.wq, st.slowPending, st.workers, st.loops, x) + if item == Job(x) then 1 else 0
  {
    Pushed(st.wq, item, Job(x));
    WakeSum(st.workers, woken, Runs(x));
  }

  lemma SleeperIfIdle(idle: int, ws: seq<Worker>, woken: Optional<nat>)
    requires SignalsIfIdle(idle, ws, woken)
    ensures Sleeper(ws, woken)
  {
  }

  lemma BalancedSubmit(st: State, st': State, id: Id, kind: Kind, loop: nat, woken: Optional<nat>, x: Id)
    requires SubmitStep(st, st', id, kind, loop, woken) && Balanced(st, x)
    ensures Balanced(st', x)
  {
    var reqs := st.reqs[id := Request(kind, loop, Assigned, true, false)];
    Pushed(st.slowPending, id, x);
    CountMember(st.again, x);
    if kind != SlowIo {
      SleeperIfIdle(st.idle, st.workers, woken);
      BalancedPost(st.(reqs := reqs), st', Job(id), woken, x);
    } else if RunSlow !in st.wq {
      SleeperIfIdle(st.idle, st.workers, woken);
      BalancedPost(st.(reqs := reqs, slowPending := st.slowPending + [id]), st', RunSlow, woken, x);
    }
  }

  lemma BalancedTakeExit(st: State, st': State, i: nat, woken: Optional<nat>, x: Id)
    requires TakeExit(st, st', i, woken) && Balanced(st, x)
    ensures Balanced(st', x)
  {
    WakeSum(st.workers, woken, Runs(x));
    SumUpdate(Wake(st.workers, woken), i, Stopped, Runs(x));
  }

  lemma BalancedTakeJob(st: State, st': State, i: nat, id: Id, x: Id)
    requires TakeJob(st, st', i, id) && Balanced(st, x)
    ensures Balanced(st', x)
  {
    Popped(st.wq, Job(x));
    SumUpdate(st.workers, i, Executing(id, false), Runs(x));
  }

  lemma BalancedTakeSlow(st: State, st': State, i: nat, woken: Optional<nat>, x: Id)
    requires TakeSlow(st, st', i, woken) && Balanced(st, x)
    ensures Balanced(st', x)
  {
    var w := Executing(st.slowPending[0], true);
    Popped(st.wq, Job(x));
    Popped(st.slowPending, x);
    Pushed(st.wq[1..], RunSlow, Job(x));
    SumUpdate(st.workers, i, w, Runs(x));
    SleeperIfIdle(if st.slowPending[1..] == [] then 0 else st.idle, st.workers[i := w], woken);
    WakeSum(st.workers[i := w], woken, Runs(x));
  }

  lemma BalancedTake(st: State, st': State, i: nat, woken: Optional<nat>, x: Id)
    requires TakeStep(st, st', i, woken) && Balanced(st, x)
    ensures Balanced(st', x)
  {
    match st.wq[0]
    case Exit => BalancedTakeExit(st, st', i, woken, x);
    case Job(id) => BalancedTakeJob(st, st', i, id, x);
    case RunSlow =>
      Popped(st.wq, Job(x));
      Pushed(st.wq[1..], RunSlow, Job(x));
      if st.slowRunning < Threshold(st.workers) && st.slowPending != [] {
        BalancedTakeSlow(st, st', i, woken, x);
      }
  }

  lemma BalancedFinish(st: State, st': State, i: nat, x: Id)
    requires FinishStep(st, st', i) && Balanced(st, x)
    ensures Balanced(st', x)
  {
    var id := st.workers[i].id;
    var l := st.reqs[id].loop;
    Pushed(st.loops[l].wq, id, x);
    LoopsUpdate(st.loops, l, st'.loops[l], x);
    SumUpdate(st.workers, i, Returning(st.workers[i].slow), Runs(x));
  }

  /** What a cancel takes off the queues. */
  lemma Unlinked(st: State, st': State, loop: nat, id: Id, x: Id)
    requires CancelStep(st, st', loop, id)
    ensures Live(st'.wq, st'.slowPending, st'.workers, st'.loops, x)
         == Live(st.wq, st.slowPending, st.workers, st.loops, x)
          + if x != id then 0 else
              1 - (if Job(id) in st.wq then 1 else 0) - (if id in st.slowPending then 1 else 0)
                - (if id in st.loops[loop].wq then 1 else 0) - (if id in st.loops[loop].local then 1 else 0)
  {
    var l := st.loops[loop];
    CountRemoved(st.wq, Job(id), Job(x));
    CountRemoved(st.slowPending, id, x);
    CountRemoved(l.wq, id, x);
    CountRemoved(l.local, id, x);
    LoopsUpdate(st.loops, loop, st'.loops[loop], x);
  }

  /** The places of a request a cancel may unlink add up to at most one. */
  lemma OnOneQueue(st: State, loop: nat, id: Id)
    requires Balanced(st, id) && loop < |st.loops|
    ensures (if Job(id) in st.wq then 1 else 0) + (if id in st.slowPending then 1 else 0)
          + (if id in st.loops[loop].wq then 1 else 0) + (if id in st.loops[loop].local then 1 else 0)
         <= Live(st.wq, st.slowPending, st.workers, st.loops, id)
  {
    CountMember(st.wq, Job(id));
    CountMember(st.slowPending, id);
    CountMember(st.loops[loop].wq, id);
    CountMember(st.loops[loop].local, id);
    LoopsMember(st.loops, loop, id);
  }

  lemma BalancedCancel(st: State, st': State, loop: nat, id: Id, x: Id)
    requires CancelStep(st, st', loop, id) && Balanced(st, x) && Balanced(st, id)
    requires Live(st.wq, st.slowPending, st.workers, st.loops, id) > 0 ==>
      Queued(st.wq, st.slowPending, st.loops[loop], id)
    ensures Balanced(st', x)
  {
    Unlinked(st, st', loop, id, x);
    OnOneQueue(st, loop, id);
    Pushed(st.again, id, x);
  }

  lemma BalancedCancelDone(st: State, st': State, loop: nat, x: Id)
    requires CancelDoneStep(st, st', loop) && Balanced(st, x)
    ensures Balanced(st', x)
  {
    Pushed(st.loops[loop].wq, st.loops[loop].held.value, x);
    LoopsUpdate(st.loops, loop, st'.loops[loop], x);
  }

  lemma BalancedCollect(st: State, st': State, loop: nat, x: Id)
    requires CollectStep(st, st', loop) && Balanced(st, x)
    ensures Balanced(st', x)
  {
    LoopsUpdate(st.loops, loop, st'.loops[loop], x);
  }

  lemma BalancedDeliver(st: State, st': State, loop: nat, x: Id)
    requires DeliverStep(st, st', loop) && Balanced(st, x)
    ensures Balanced(st', x)
  {
    var id := st.loops[loop].local[0];
    var d: (Id, bool) := (id, st.reqs[id].work == Cancelled);
    Popped(st.loops[loop].local, x);
    LoopsUpdate(st.loops, loop, st'.loops[loop], x);
    Pushed(st.delivered, d, (x, false));
    Pushed(st.delivered, d, (x, true));
  }

  lemma BalancedMove(st: State, st': State, i: nat, w: Worker, x: Id)
    requires Balanced(st, x) && i < |st.workers| && !st.workers[i].Executing? && !w.Executing?
    requires st'.wq == st.wq && st'.slowPending == st.slowPending && st'.loops == st.loops && st'.reqs == st.reqs
    requires st'.workers == st.workers[i := w] && st'.delivered == st.delivered && st'.again == st.again
    ensures Balanced(st', x)
  {
    SumUpdate(st.workers, i, w, Runs(x));
  }

  lemma BalancedNext(st: State, st': State, step: Step, x: Id)
    requires Balanced(st, x) && StatusOk(st) && Next(st, st', step)
    requires step.Cancel? ==> Balanced(st, step.id)
    ensures Balanced(st', x)
  {
    match step
    case Submit(id, kind, loop, woken) => BalancedSubmit(st, st', id, kind, loop, woken, x);
    case PostExit(woken) =>
      SleeperIfIdle(st.idle, st.workers, woken);
      BalancedPost(st, st', Exit, woken, x);
    case Wait(i) => BalancedMove(st, st', i, Waiting, x);
    case Spurious(i) => BalancedMove(st, st', i, Woken, x);
    case Resume(i) => BalancedMove(st, st', i, Looking, x);
    case Take(i, woken) => BalancedTake(st, st', i, woken, x);
    case Finish(i) => BalancedFinish(st, st', i, x);
    case Return(i) => BalancedMove(st, st', i, Looking, x);
    case Cancel(loop, id) =>
      CancelledIsQueued(st, loop, id);
      BalancedCancel(st, st', loop, id, x);
    case CancelDone(loop) => BalancedCancelDone(st, st', loop, x);
    case Collect(loop) => BalancedCollect(st, st', loop, x);
    case Deliver(loop) => BalancedDeliver(st, st', loop, x);
  }

  lemma ConservedNext(st: State, st': State, step: Step)
    requires Conserved(st) && StatusOk(st) && Next(st, st', step)
    ensures Conserved(st')
  {
    forall x: Id ensures Balanced(st', x) {
      assert Balanced(st, x);
      if step.Cancel? {
        assert Balanced(st, step.id);
      }
      BalancedNext(st, st', step, x);
    }
  }

  // ---------- what place goes with what state ----------

  /** Not started, and not cancelled. */
  predicate Unstarted(r: Request) {
    r.work == Assigned && !r.ran && r.linked
  }

  /** Over: either it ran, or it was cancelled and never ran. */
  predicate Settled(r: Request) {
    r.linked && ((r.work == Null && r.ran) || (r.work == Cancelled && !r.ran))
  }

  predicate Known(reqs: map<Id, Request>, n: nat, id: Id) {
    id in reqs && reqs[id].loop < n
  }

  ghost predicate QueueOk(wq: seq<Item>, reqs: map<Id, Request>, n: nat) {
    forall id: Id | Job(id) in wq :: Known(reqs, n, id) && Unstarted(reqs[id]) && reqs[id].kind != SlowIo
  }

  ghost predicate PendingOk(pending: seq<Id>, reqs: map<Id, Request>, n: nat) {
    forall id | id in pending :: Known(reqs, n, id) && Unstarted(reqs[id]) && reqs[id].kind == SlowIo
  }

  ghost predicate RunningOk(ws: seq<Worker>, reqs: map<Id, Request>, n: nat) {
    forall i | 0 <= i < |ws| && ws[i].Executing? :: WorkerOk(ws[i], reqs, n)
  }

  /** The request a worker runs is on no queue, and says so. */
  ghost predicate WorkerOk(w: Worker, reqs: map<Id, Request>, n: nat)
    requires w.Executing?
  {
    && Known(reqs, n, w.id) && reqs[w.id].work == Assigned && reqs[w.id].ran && !reqs[w.id].linked
    && (w.slow <==> reqs[w.id].kind == SlowIo)
  }

  ghost predicate LoopOk(lp: Loop, l: nat, reqs: map<Id, Request>) {
    && (forall id | id in lp.wq :: id in reqs && reqs[id].loop == l && Settled(reqs[id]))
    && (forall id | id in lp.local :: id in reqs && reqs[id].loop == l && Settled(reqs[id]))
    && (lp.held.Some? ==> HeldOk(reqs, l, lp.held.value))
  }

  ghost predicate HeldOk(reqs: map<Id, Request>, l: nat, id: Id) {
    id in reqs && reqs[id].loop == l && !reqs[id].ran && MayCancel(reqs[id])
  }

  ghost predicate LoopsOk(loops: seq<Loop>, reqs: map<Id, Request>) {
    forall l | 0 <= l < |loops| :: LoopOk(loops[l], l, reqs)
  }

  /** A callback got `UV_ECANCELED` exactly if the request never ran. */
  ghost predicate DeliveredOk(delivered: seq<(Id, bool)>, reqs: map<Id, Request>, n: nat) {
    forall d | d in delivered :: Known(reqs, n, d.0) && Settled(reqs[d.0]) && (d.1 <==> !reqs[d.0].ran)
  }

  ghost predicate StatusOk(st: State) {
    && QueueOk(st.wq, st.reqs, |st.loops|) && PendingOk(st.slowPending, st.reqs, |st.loops|)
    && RunningOk(st.workers, st.reqs, |st.loops|) && LoopsOk(st.loops, st.reqs)
    && DeliveredOk(st.delivered, st.reqs, |st.loops|)
  }

  lemma RunningUnlinked(st: State, id: Id)
    requires StatusOk(st) && At(st, id, OnWorker)
    ensures id in st.reqs && !st.reqs[id].linked
  {
    var i :| 0 <= i < |st.workers| && IsRunning(st.workers[i], id);
    assert WorkerOk(st.workers[i], st.reqs, |st.loops|);
  }

  /** A request that may be cancelled is on a queue if it is anywhere. */
  lemma CancelledIsQueued(st: State, loop: nat, id: Id)
    requires Balanced(st, id) && StatusOk(st) && loop < |st.loops| && st.loops[loop].held.None?
    requires id in st.reqs && st.reqs[id].loop == loop && MayCancel(st.reqs[id])
    ensures Live(st.wq, st.slowPending, st.workers, st.loops, id) > 0 ==>
      Queued(st.wq, st.slowPending, st.loops[loop], id)
  {
    AtIsCounted(st, id, InQueue);
    AtIsCounted(st, id, InPending);
    AtIsCounted(st, id, OnWorker);
    AtIsCounted(st, id, WithLoop);
    if At(st, id, OnWorker) {
      RunningUnlinked(st, id);
    } else if At(st, id, WithLoop) {
      var l :| 0 <= l < |st.loops| && HasIt(st.loops[l], id);
      assert LoopOk(st.loops[l], l, st.reqs);
    }
  }

  // A request that changes is looked at from the other places.

  lemma QueueKept(wq: seq<Item>, wq': seq<Item>, reqs: map<Id, Request>, n: nat, id: Id, r: Request)
    requires QueueOk(wq, reqs, n) && forall x: Id | Job(x) in wq' :: Job(x) in wq && x != id
    ensures QueueOk(wq', reqs[id := r], n)
  {
  }

  lemma PendingKept(pending: seq<Id>, pending': seq<Id>, reqs: map<Id, Request>, n: nat, id: Id, r: Request)
    requires PendingOk(pending, reqs, n) && forall x | x in pending' :: x in pending && x != id
    ensures PendingOk(pending', reqs[id := r], n)
  {
  }

  lemma RunningKept(ws: seq<Worker>, reqs: map<Id, Request>, n: nat, id: Id, r: Request)
    requires RunningOk(ws, reqs, n) && forall i | 0 <= i < |ws| :: !IsRunning(ws[i], id)
    ensures RunningOk(ws, reqs[id := r], n)
  {
    forall i | 0 <= i < |ws| && ws[i].Executing? ensures WorkerOk(ws[i], reqs[id := r], n) {
      assert WorkerOk(ws[i], reqs, n) && !IsRunning(ws[i], id);
    }
  }

  lemma RunningMoved(ws: seq<Worker>, reqs: map<Id, Request>, n: nat, i: nat, w: Worker)
    requires RunningOk(ws, reqs, n) && i < |ws| && (w.Executing? ==> WorkerOk(w, reqs, n))
    ensures RunningOk(ws[i := w], reqs, n)
  {
  }

  lemma RunningWoken(ws: seq<Worker>, reqs: map<Id, Request>, n: nat, woken: Optional<nat>)
    requires RunningOk(ws, reqs, n)
    ensures RunningOk(Wake(ws, woken), reqs, n)
  {
    if woken.Some? && woken.value < |ws| {
      RunningMoved(ws, reqs, n, woken.value, Woken);
    }
  }

  lemma LoopKept(lp: Loop, l: nat, reqs: map<Id, Request>, id: Id, r: Request)
    requires LoopOk(lp, l, reqs) && !HasIt(lp, id)
    ensures LoopOk(lp, l, reqs[id := r])
  {
  }

  lemma LoopsKept(loops: seq<Loop>, reqs: map<Id, Request>, id: Id, r: Request)
    requires LoopsOk(loops, reqs) && forall l | 0 <= l < |loops| :: !HasIt(loops[l], id)
    ensures LoopsOk(loops, reqs[id := r])
  {
    forall l | 0 <= l < |loops| ensures LoopOk(loops[l], l, reqs[id := r]) {
      assert !HasIt(loops[l], id);
      LoopKept(loops[l], l, reqs, id, r);
    }
  }

  lemma LoopsMoved(loops: seq<Loop>, reqs: map<Id, Request>, l: nat, lp: Loop)
    requires LoopsOk(loops, reqs) && l < |loops| && LoopOk(lp, l, reqs)
    ensures LoopsOk(loops[l := lp], reqs)
  {
  }

  /** A callback made stays right as long as the request stays over. */
  lemma DeliveredKept(ds: seq<(Id, bool)>, reqs: map<Id, Request>, n: nat, id: Id, r: Request)
    requires DeliveredOk(ds, reqs, n)
    requires WasDelivered(ds, id) && id in reqs ==> r.loop < n && Settled(r) && r.ran == reqs[id].ran
    ensures DeliveredOk(ds, reqs[id := r], n)
  {
    forall d | d in ds
      ensures Known(reqs[id := r], n, d.0) && Settled(reqs[id := r][d.0]) && (d.1 <==> !reqs[id := r][d.0].ran)
    {
      if d.0 == id {
        assert d == (id, false) || d == (id, true);
      }
    }
  }

  lemma StatusSubmit(st: State, st': State, id: Id, kind: Kind, loop: nat, woken: Optional<nat>)
    requires StatusOk(st) && SubmitStep(st, st', id, kind, loop, woken)
    ensures StatusOk(st')
  {
    var r := Request(kind, loop, Assigned, true, false);
    var n := |st.loops|;
    QueueKept(st.wq, st.wq, st.reqs, n, id, r);
    PendingKept(st.slowPending, st.slowPending, st.reqs, n, id, r);
    forall i | 0 <= i < |st.workers| ensures !IsRunning(st.workers[i], id) {
    }
    RunningKept(st.workers, st.reqs, n, id, r);
    RunningWoken(st.workers, st.reqs[id := r], n, woken);
    forall l | 0 <= l < |st.loops| ensures !HasIt(st.loops[l], id) {
      assert LoopOk(st.loops[l], l, st.reqs);
    }
    LoopsKept(st.loops, st.reqs, id, r);
    DeliveredKept(st.delivered, st.reqs, n, id, r);
  }

  /** The request of the head of a queue is started. */
  lemma StatusStart(st: State, st': State, i: nat, id: Id, slow: bool, p: Place, woken: Optional<nat>)
    requires Balanced(st, id) && StatusOk(st) && At(st, id, p) && (p == InQueue || p == InPending)
    requires i < |st.workers| && (slow <==> p == InPending)
    requires forall x: Id | Job(x) in st'.wq :: Job(x) in st.wq && x != id
    requires forall x | x in st'.slowPending :: x in st.slowPending && x != id
    requires st'.reqs == st.reqs[id := Started(st.reqs[id])] && st'.loops == st.loops && st'.delivered == st.delivered
    requires st'.workers == Wake(st.workers[i := Executing(id, slow)], woken)
    ensures StatusOk(st')
  {
    var r, n := Started(st.reqs[id]), |st.loops|;
    Alone(st, id, p);
    QueueKept(st.wq, st'.wq, st.reqs, n, id, r);
    PendingKept(st.slowPending, st'.slowPending, st.reqs, n, id, r);
    RunningKept(st.workers, st.reqs, n, id, r);
    RunningMoved(st.workers, st'.reqs, n, i, Executing(id, slow));
    RunningWoken(st.workers[i := Executing(id, slow)], st'.reqs, n, woken);
    LoopsKept(st.loops, st.reqs, id, r);
    DeliveredKept(st.delivered, st.reqs, n, id, r);
  }

  lemma StatusTakeJob(st: State, st': State, i: nat, id: Id)
    requires Balanced(st, id) && StatusOk(st) && TakeJob(st, st', i, id)
    ensures StatusOk(st')
  {
    assert At(st, id, InQueue);
    Alone(st, id, InQueue);
    forall x: Id | Job(x) in st'.wq ensures Job(x) in st.wq && x != id {
      Popped(st.wq, Job(x));
      CountMember(st.wq[1..], Job(x));
    }
    StatusStart(st, st', i, id, false, InQueue, None);
  }

  lemma StatusTakeSlow(st: State, st': State, i: nat, woken: Optional<nat>)
    requires TakeSlow(st, st', i, woken) && Balanced(st, st.slowPending[0]) && StatusOk(st)
    ensures StatusOk(st')
  {
    var id := st.slowPending[0];
    assert At(st, id, InPending);
    Alone(st, id, InPending);
    forall x | x in st'.slowPending ensures x in st.slowPending && x != id {
      Popped(st.slowPending, x);
      CountMember(st.slowPending[1..], x);
    }
    forall x: Id | Job(x) in st'.wq ensures Job(x) in st.wq && x != id {
      Popped(st.wq, Job(x));
      Pushed(st.wq[1..], RunSlow, Job(x));
    }
    StatusStart(st, st', i, id, true, InPending, woken);
  }

  lemma StatusTake(st: State, st': State, i: nat, woken: Optional<nat>)
    requires Conserved(st) && StatusOk(st) && TakeStep(st, st', i, woken)
    ensures StatusOk(st')
  {
    match st.wq[0]
    case Exit =>
      RunningWoken(st.workers, st.reqs, |st.loops|, woken);
      RunningMoved(Wake(st.workers, woken), st.reqs, |st.loops|, i, Stopped);
    case Job(id) =>
      assert Balanced(st, id);
      StatusTakeJob(st, st', i, id);
    case RunSlow =>
      if st.slowRunning < Threshold(st.workers) && st.slowPending != [] {
        assert Balanced(st, st.slowPending[0]);
        StatusTakeSlow(st, st', i, woken);
      } else {
        StatusRequeue(st.wq, st'.wq, st.reqs, |st.loops|);
      }
  }

  lemma StatusRequeue(wq: seq<Item>, wq': seq<Item>, reqs: map<Id, Request>, n: nat)
    requires QueueOk(wq, reqs, n) && wq != [] && (wq' == wq[1..] || wq' == wq[1..] + [RunSlow])
    ensures QueueOk(wq', reqs, n)
  {
    forall x: Id | Job(x) in wq' ensures Job(x) in wq {
      Popped(wq, Job(x));
      Pushed(wq[1..], RunSlow, Job(x));
    }
  }

  /** No two workers run the same request. */
  lemma {:induction false} TwoWorkers(ws: seq<Worker>, i: nat, j: nat, id: Id)
    requires i < |ws| && j < |ws| && Sum(ws, Runs(id)) == 1 && IsRunning(ws[i], id)
    ensures i != j ==> !IsRunning(ws[j], id)
  {
    if i != j {
      SumUpdate(ws, i, Looking, Runs(id));
      SumMember(ws[i := Looking], j, Runs(id));
    }
  }

  lemma StatusFinish(st: State, st': State, i: nat)
    requires FinishStep(st, st', i) && Balanced(st, st.workers[i].id) && StatusOk(st)
    ensures StatusOk(st')
  {
    var id, n := st.workers[i].id, |st.loops|;
    var l, r := st.reqs[id].loop, st.reqs[id].(work := Null, linked := true);
    var ws := st.workers[i := Returning(st.workers[i].slow)];
    assert IsRunning(st.workers[i], id) && At(st, id, OnWorker) && WorkerOk(st.workers[i], st.reqs, n);
    Alone(st, id, OnWorker);
    QueueKept(st.wq, st.wq, st.reqs, n, id, r);
    PendingKept(st.slowPending, st.slowPending, st.reqs, n, id, r);
    forall j | 0 <= j < |ws| ensures !IsRunning(ws[j], id) {
      TwoWorkers(st.workers, i, j, id);
    }
    RunningMoved(st.workers, st.reqs, n, i, Returning(st.workers[i].slow));
    RunningKept(ws, st.reqs, n, id, r);
    LoopsKept(st.loops, st.reqs, id, r);
    LoopsMoved(st.loops, st'.reqs, l, st.loops[l].(wq := st.loops[l].wq + [id]));
    DeliveredKept(st.delivered, st.reqs, n, id, r);
  }

  lemma StatusCancel(st: State, st': State, loop: nat, id: Id)
    requires StatusOk(st) && CancelStep(st, st', loop, id) && !st.reqs[id].ran
    ensures StatusOk(st')
  {
    var l := st.loops[loop];
    RemovedMembers(st.wq, Job(id));
    RemovedMembers(st.slowPending, id);
    RemovedMembers(l.wq, id);
    RemovedMembers(l.local, id);
    assert LoopOk(l, loop, st.reqs);
    LoopsMoved(st.loops, st.reqs, loop, Loop(Removed(l.wq, id), Removed(l.local, id), Some(id)));
  }

  /** What may be cancelled has not run. */
  lemma CancelledNotRun(st: State, loop: nat, id: Id)
    requires Balanced(st, id) && StatusOk(st) && loop < |st.loops| && st.loops[loop].held.None?
    requires id in st.reqs && st.reqs[id].loop == loop && MayCancel(st.reqs[id])
    ensures !st.reqs[id].ran
  {
    CancelledIsQueued(st, loop, id);
    assert LoopOk(st.loops[loop], loop, st.reqs);
    if !Queued(st.wq, st.slowPending, st.loops[loop], id) {
      DeliveredIsCounted(st.delivered, id);
    }
  }

  lemma {:induction false} TwoLoops(ls: seq<Loop>, i: nat, j: nat, id: Id)
    requires i < |ls| && j < |ls| && InLoops(ls, id) == 1 && InLoop(ls[i], id) == 1
    ensures i != j ==> !HasIt(ls[j], id)
  {
    if i != j {
      LoopsUpdate(ls, i, Loop([], [], None), id);
      LoopsMember(ls[i := Loop([], [], None)], j, id);
      CountMember(ls[j].wq, id);
      CountMember(ls[j].local, id);
    }
  }

  lemma StatusCancelDone(st: State, st': State, loop: nat)
    requires CancelDoneStep(st, st', loop) && Balanced(st, st.loops[loop].held.value) && StatusOk(st)
    ensures StatusOk(st')
  {
    var lp, n := st.loops[loop], |st.loops|;
    var id := lp.held.value;
    var r := st.reqs[id].(work := Cancelled, linked := true);
    assert HasIt(lp, id) && At(st, id, WithLoop) && LoopOk(lp, loop, st.reqs);
    Alone(st, id, WithLoop);
    QueueKept(st.wq, st.wq, st.reqs, n, id, r);
    PendingKept(st.slowPending, st.slowPending, st.reqs, n, id, r);
    RunningKept(st.workers, st.reqs, n, id, r);
    LoopsCancelled(st.loops, st.reqs, loop, id, r);
    DeliveredKept(st.delivered, st.reqs, n, id, r);
  }

  lemma LoopsCancelled(loops: seq<Loop>, reqs: map<Id, Request>, l: nat, id: Id, r: Request)
    requires LoopsOk(loops, reqs) && l < |loops| && loops[l].held == Some(id) && InLoops(loops, id) == 1
    requires r.loop == l && Settled(r)
    ensures LoopsOk(loops[l := Loop(loops[l].wq + [id], loops[l].local, None)], reqs[id := r])
  {
    LoopsMember(loops, l, id);
    CountMember(loops[l].wq, id);
    CountMember(loops[l].local, id);
    var rest := Loop(loops[l].wq, loops[l].local, None);
    var all := loops[l := rest];
    assert LoopOk(loops[l], l, reqs);
    LoopsMoved(loops, reqs, l, rest);
    forall k | 0 <= k < |all| ensures !HasIt(all[k], id) {
      TwoLoops(loops, l, k, id);
    }
    LoopsKept(all, reqs, id, r);
    LoopsMoved(all, reqs[id := r], l, Loop(loops[l].wq + [id], loops[l].local, None));
    assert all[l := Loop(loops[l].wq + [id], loops[l].local, None)]
        == loops[l := Loop(loops[l].wq + [id], loops[l].local, None)];
  }

  lemma StatusCollect(st: State, st': State, loop: nat)
    requires StatusOk(st) && CollectStep(st, st', loop)
    ensures StatusOk(st')
  {
    assert LoopOk(st.loops[loop], loop, st.reqs);
    LoopsMoved(st.loops, st.reqs, loop, Loop([], st.loops[loop].wq, None));
  }

  lemma StatusDeliver(st: State, st': State, loop: nat)
    requires StatusOk(st) && DeliverStep(st, st', loop)
    ensures StatusOk(st')
  {
    var l := st.loops[loop];
    assert LoopOk(l, loop, st.reqs) && l.local[0] in l.local;
    forall x | x in l.local[1..] ensures x in l.local {
    }
    LoopsMoved(st.loops, st.reqs, loop, l.(local := l.local[1..]));
  }

  lemma StatusNext(st: State, st': State, step: Step)
    requires Conserved(st) && StatusOk(st) && Next(st, st', step)
    ensures StatusOk(st')
  {
    var n := |st.loops|;
    match step
    case Submit(id, kind, loop, woken) => StatusSubmit(st, st', id, kind, loop, woken);
    case PostExit(woken) => RunningWoken(st.workers, st.reqs, n, woken);
    case Wait(i) => RunningMoved(st.workers, st.reqs, n, i, Waiting);
    case Spurious(i) => RunningMoved(st.workers, st.reqs, n, i, Woken);
    case Resume(i) => RunningMoved(st.workers, st.reqs, n, i, Looking);
    case Take(i, woken) => StatusTake(st, st', i, woken);
    case Finish(i) =>
      assert Balanced(st, st.workers[i].id);
      StatusFinish(st, st', i);
    case Return(i) => RunningMoved(st.workers, st.reqs, n, i, Looking);
    case Cancel(loop, id) =>
      assert Balanced(st, id);
      CancelledNotRun(st, loop, id);
      StatusCancel(st, st', loop, id);
    case CancelDone(loop) =>
      assert Balanced(st, st.loops[loop].held.value);
      StatusCancelDone(st, st', loop);
    case Collect(loop) => StatusCollect(st, st', loop);
    case Deliver(loop) => StatusDeliver(st, st', loop);
  }

  // ---------- the invariant ----------

  ghost predicate Inv(st: State) {
    && CountersOk(st.workers, st.idle, st.slowRunning) && SlowScheduled(st.wq, st.slowPending)
    && WakeupsOk(st.wq, st.workers, st.slowRunning) && Conserved(st) && StatusOk(st)
  }

  lemma {:induction false} SumOfLooking(ws: seq<Worker>, m: Measure)
    requires forall i | 0 <= i < |ws| :: ws[i] == Looking
    ensures m != IsAwake ==> Sum(ws, m) == 0
  {
    if ws != [] {
      SumOfLooking(ws[1..], m);
    }
  }

  lemma {:induction false} LoopsEmpty(ls: seq<Loop>, id: Id)
    requires forall l | 0 <= l < |ls| :: ls[l] == Loop([], [], None)
    ensures InLoops(ls, id) == 0
  {
    if ls != [] {
      LoopsEmpty(ls[1..], id);
    }
  }

  lemma InitInv(st: State)
    requires Init(st)
    ensures Inv(st)
  {
    SumOfLooking(st.workers, IsIdle);
    SumOfLooking(st.workers, IsSlow);
    SumOfLooking(st.workers, IsWaiting);
    forall id: Id ensures Balanced(st, id) {
      SumOfLooking(st.workers, Runs(id));
      LoopsEmpty(st.loops, id);
    }
  }

  lemma NextInv(st: State, st': State, step: Step)
    requires Inv(st) && Next(st, st', step)
    ensures Inv(st')
  {
    CountersNext(st, st', step);
    SlowNext(st, st', step);
    WakeupsNext(st, st', step);
    ConservedNext(st, st', step);
    StatusNext(st, st', step);
  }

  /** While there is work to do, somebody is awake or everybody is busy. */
  lemma NoLostWakeup(st: State)
    requires Inv(st) && !Blocked(st) && exists i :: 0 <= i < |st.workers| && st.workers[i].Waiting?
    ensures exists i :: 0 <= i < |st.workers| && (st.workers[i].Looking? || st.workers[i].Woken?)
  {
    var i :| 0 <= i < |st.workers| && st.workers[i].Waiting?;
    SumMember(st.workers, i, IsWaiting);
    if st.slowRunning >= Threshold(st.workers) {
      LoadPositive(st.wq);
    }
    var j := SumWitness(st.workers, IsAwake);
  }

  /** A signal can always be sent: it wakes one of the waiting workers if there are any. */
  lemma CanSignal(ws: seq<Worker>) returns (woken: Optional<nat>)
    ensures Signals(ws, woken)
  {
    if i :| 0 <= i < |ws| && ws[i].Waiting? {
      woken := Some(i);
    } else {
      woken := None;
    }
  }

  lemma ExitTaken(st: State, i: nat) returns (woken: Optional<nat>, st': State)
    requires i < |st.workers| && st.workers[i].Looking? && !Blocked(st) && st.wq[0].Exit?
    ensures TakeStep(st, st', i, woken)
  {
    woken := CanSignal(st.workers);
    st' := st.(workers := Wake(st.workers, woken)[i := Stopped]);
  }

  lemma SlowTaken(st: State, i: nat) returns (woken: Optional<nat>, st': State)
    requires Inv(st) && i < |st.workers| && st.workers[i].Looking? && !Blocked(st) && st.wq[0].RunSlow?
    ensures TakeStep(st, st', i, woken)
  {
    woken := None;
    if st.slowRunning >= Threshold(st.workers) {
      st' := st.(wq := st.wq[1..] + [RunSlow]);
    } else if st.slowPending == [] {
      st' := st.(wq := st.wq[1..]);
    } else {
      var id, more := st.slowPending[0], st.slowPending[1..];
      assert id in st.slowPending;
      var ws := st.workers[i := Executing(id, true)];
      if more != [] && st.idle > 0 {
        woken := CanSignal(ws);
      }
      st' := st.(wq := Rescheduled(st.wq[1..], more), slowPending := more, slowRunning := st.slowRunning + 1,
                 workers := Wake(ws, woken), reqs := st.reqs[id := Started(st.reqs[id])]);
    }
  }

  lemma JobTaken(st: State, i: nat) returns (st': State)
    requires Inv(st) && i < |st.workers| && st.workers[i].Looking? && !Blocked(st) && st.wq[0].Job?
    ensures TakeStep(st, st', i, None)
  {
    var id := st.wq[0].id;
    assert Job(id) in st.wq;
    st' := st.(wq := st.wq[1..], workers := st.workers[i := Executing(id, false)],
               reqs := st.reqs[id := Started(st.reqs[id])]);
  }

  /**
   A worker that finds something in the queue, be it a request, the slow-work message or the exit message, runs a
   request or has run one can always go on.
  */
  lemma WorkersGoOn(st: State, i: nat)
    requires Inv(st) && i < |st.workers|
    ensures st.workers[i].Looking? && !Blocked(st) ==> exists st', woken :: TakeStep(st, st', i, woken)
    ensures st.workers[i].Executing? ==> exists st' :: FinishStep(st, st', i)
    ensures st.workers[i].Returning? ==> exists st' :: ReturnStep(st, st', i) && st'.slowRunning >= 0
  {
    if st.workers[i].Looking? && !Blocked(st) {
      match st.wq[0]
      case Exit => var woken, st' := ExitTaken(st, i);
      case RunSlow => var woken, st' := SlowTaken(st, i);
      case Job(_) => var st' := JobTaken(st, i);
    } else if st.workers[i].Executing? {
      assert WorkerOk(st.workers[i], st.reqs, |st.loops|);
      var id := st.workers[i].id;
      var l := st.reqs[id].loop;
      assert FinishStep(st, st.(workers := st.workers[i := Returning(st.workers[i].slow)],
                                reqs := st.reqs[id := st.reqs[id].(work := Null, linked := true)],
                                loops := st.loops[l := st.loops[l].(wq := st.loops[l].wq + [id])]), i);
    } else if st.workers[i].Returning? {
      SumMember(st.workers, i, IsSlow);
      assert ReturnStep(st, st.(workers := st.workers[i := Looking],
                                slowRunning := if st.workers[i].slow then st.slowRunning - 1 else st.slowRunning), i);
    }
  }

  // ---------- what a cancel may act on ----------

  /** The request is somewhere, so that a callback is still due. */
  ghost predicate IsDue(st: State, id: Id) {
    exists p: Place :: At(st, id, p)
  }

  lemma DueIsCounted(st: State, id: Id)
    requires Balanced(st, id)
    ensures Live(st.wq, st.slowPending, st.workers, st.loops, id) == if IsDue(st, id) then 1 else 0
  {
    AtIsCounted(st, id, InQueue);
    AtIsCounted(st, id, InPending);
    AtIsCounted(st, id, OnWorker);
    AtIsCounted(st, id, WithLoop);
  }

  /** On a queue of the pool or of some loop. */
  ghost predicate OnAQueue(st: State, id: Id) {
    || Job(id) in st.wq || id in st.slowPending
    || exists l :: 0 <= l < |st.loops| && (id in st.loops[l].wq || id in st.loops[l].local)
  }

  /**
   For a request that no cancel holds and whose callback was not made, the guard of
   `uv__work_cancel` says exactly that it is on a queue and has not run.
  */
  lemma CancelGuard(st: State, id: Id)
    requires Inv(st) && id in st.reqs && !WasDelivered(st.delivered, id)
    requires forall l | 0 <= l < |st.loops| :: st.loops[l].held != Some(id)
    ensures MayCancel(st.reqs[id]) <==> OnAQueue(st, id) && !st.reqs[id].ran
  {
    assert Balanced(st, id);
    DueIsCounted(st, id);
    DeliveredIsCounted(st.delivered, id);
    var p: Place :| At(st, id, p);
    if p == OnWorker {
      RunningUnlinked(st, id);
    } else if p == WithLoop {
      var l :| 0 <= l < |st.loops| && HasIt(st.loops[l], id);
      assert LoopOk(st.loops[l], l, st.reqs) && st.loops[l].held != Some(id);
    }
  }

  /** After the callback it no longer does: the guard holds for each request that was cancelled. */
  lemma StaleGuard(st: State, id: Id, cancelled: bool)
    requires Inv(st) && (id, cancelled) in st.delivered && !IsDue(st, id)
    ensures id in st.reqs && !OnAQueue(st, id) && (MayCancel(st.reqs[id]) <==> cancelled)
  {
    assert !At(st, id, InQueue) && !At(st, id, InPending) && !At(st, id, WithLoop);
    assert forall l | 0 <= l < |st.loops| :: !HasIt(st.loops[l], id);
  }

  // ---------- whole runs ----------

  ghost predicate IsRun(sts: seq<State>, steps: seq<Step>) {
    && |sts| == |steps| + 1 && Init(sts[0])
    && forall i {:trigger steps[i]} | 0 <= i < |steps| :: Next(sts[i], sts[i + 1], steps[i])
  }

  /** Whatever the interleaving, the invariant holds throughout. */
  lemma {:induction false} RunInv(sts: seq<State>, steps: seq<Step>, n: nat)
    requires IsRun(sts, steps) && n < |sts|
    ensures Inv(sts[n])
  {
    if n == 0 {
      InitInv(sts[0]);
    } else {
      RunInv(sts, steps, n - 1);
      assert Next(sts[n - 1], sts[n], steps[n - 1]);
      NextInv(sts[n - 1], sts[n], steps[n - 1]);
    }
  }

  /**
   In every state of every run: a submitted request is in at most one place; the callbacks made and
   due are one more than the cancels that found it on no queue, so there is one at least; each gets
   `UV_ECANCELED` exactly if its work never ran; slow work keeps to its share of the threads and,
   if any is pending, its message is queued.
  */
  lemma RunGuarantees(sts: seq<State>, steps: seq<Step>, n: nat, id: Id)
    requires IsRun(sts, steps) && n < |sts| && id in sts[n].reqs
    ensures var st := sts[n];
      && (forall p: Place, q: Place | At(st, id, p) && At(st, id, q) :: p == q)
      && DeliveredCount(st.delivered, id) + (if IsDue(st, id) then 1 else 0) == 1 + Count(st.again, id)
      && (forall c | (id, c) in st.delivered :: c <==> !st.reqs[id].ran)
      && 0 <= st.slowRunning <= (|st.workers| + 1) / 2
      && (st.slowPending != [] ==> RunSlow in st.wq)
  {
    RunInv(sts, steps, n);
    var st := sts[n];
    assert Balanced(st, id);
    DueIsCounted(st, id);
    forall p: Place, q: Place | At(st, id, p) && At(st, id, q) ensures p == q {
      Alone(st, id, p);
    }
  }

  /** Step `k` of the run cancels the request, though its callback was made before. */
  ghost predicate CancelledAfterwards(sts: seq<State>, steps: seq<Step>, k: nat, id: Id) {
    && k < |steps| && k < |sts|
    && steps[k].Cancel? && steps[k].id == id && WasDelivered(sts[k].delivered, id)
  }

  /** What one step adds to `again` and to the callbacks. */
  lemma AgainNext(st: State, st': State, step: Step, id: Id)
    requires Inv(st) && Next(st, st', step)
    ensures id in st'.again <==>
      id in st.again || (step.Cancel? && step.id == id && id !in st.again && WasDelivered(st.delivered, id))
  {
    if step.Cancel? {
      var x := step.id;
      assert Balanced(st, x);
      CancelledIsQueued(st, step.loop, x);
      Pushed(st.again, x, id);
      OnOneQueue(st, step.loop, x);
      CountMember(st.again, x);
      DeliveredIsCounted(st.delivered, x);
    }
  }

  lemma {:induction false} AgainIff(sts: seq<State>, steps: seq<Step>, n: nat, id: Id)
    requires IsRun(sts, steps) && n < |sts|
    ensures id in sts[n].again <==> exists k :: 0 <= k < n && CancelledAfterwards(sts, steps, k, id)
  {
    if n > 0 {
      AgainIff(sts, steps, n - 1, id);
      RunInv(sts, steps, n - 1);
      assert Next(sts[n - 1], sts[n], steps[n - 1]);
      AgainNext(sts[n - 1], sts[n], steps[n - 1], id);
      if id in sts[n].again && id !in sts[n - 1].again {
        assert CancelledAfterwards(sts, steps, n - 1, id);
      }
    }
  }

  /** One callback per request is kept exactly by the runs in which no cancel of it succeeds after its callback. */
  lemma OneCallback(sts: seq<State>, steps: seq<Step>, n: nat, id: Id)
    requires IsRun(sts, steps) && n < |sts| && id in sts[n].reqs
    ensures var st := sts[n];
      DeliveredCount(st.delivered, id) + (if IsDue(st, id) then 1 else 0) == 1
      <==> !exists k :: 0 <= k < n && CancelledAfterwards(sts, steps, k, id)
  {
    RunGuarantees(sts, steps, n, id);
    AgainIff(sts, steps, n, id);
    CountMember(sts[n].again, id);
  }

  /** A cancel of request 0 in progress is completed, and its callback made. */
  lemma Callback(st: State) returns (st1: State, st2: State, st3: State)
    requires |st.loops| > 0 && st.loops[0] == Loop([], [], Some(0)) && 0 in st.reqs
    ensures CancelDoneStep(st, st1, 0) && CollectStep(st1, st2, 0) && DeliverStep(st2, st3, 0)
    ensures st3 == st.(reqs := st.reqs[0 := st.reqs[0].(work := Cancelled, linked := true)],
                       loops := st.loops[0 := Loop([], [], None)], delivered := st.delivered + [(0, true)])
  {
    var reqs := st.reqs[0 := st.reqs[0].(work := Cancelled, linked := true)];
    st1 := st.(reqs := reqs, loops := st.loops[0 := Loop([0], [], None)]);
    st2 := st1.(loops := st.loops[0 := Loop([], [0], None)]);
    st3 := st2.(loops := st.loops[0 := Loop([], [], None)], delivered := st.delivered + [(0, true)]);
    assert st1.loops[0 := Loop([], [0], None)] == st2.loops;
    assert st2.loops[0 := Loop([], [], None)] == st3.loops;
    assert [] + [0] == [0] && st2.loops[0].local[1..] == [];
  }

  /** A cancel of request 0 that finds its loop idle. */
  lemma CancelZero(st: State) returns (st1: State)
    requires |st.loops| > 0 && st.loops[0] == Loop([], [], None)
    requires 0 in st.reqs && st.reqs[0].loop == 0 && MayCancel(st.reqs[0])
    requires st.slowPending == [] && (st.wq == [] || st.wq == [Job(0)])
    ensures CancelStep(st, st1, 0, 0)
    ensures st1 == st.(wq := [], loops := st.loops[0 := Loop([], [], Some(0))],
                       again := if st.wq == [] then st.again + [0] else st.again)
  {
    assert Removed([Job(0)], Job(0)) == [] && Removed<Item>([], Job(0)) == [] && Removed<Id>([], 0) == [];
    assert Removed(st.wq, Job(0)) == [] && Removed(st.slowPending, 0) == [];
    st1 := st.(wq := [], loops := st.loops[0 := Loop([], [], Some(0))],
               again := if st.wq == [] then st.again + [0] else st.again);
  }

  lemma RunExtended(sts: seq<State>, steps: seq<Step>, st: State, step: Step, st': State)
    requires IsRun(sts, steps) && sts[|steps|] == st && Next(st, st', step)
    ensures IsRun(sts + [st'], steps + [step]) && (sts + [st'])[|steps| + 1] == st'
  {
  }

  /** The run goes on with a cancel of request 0, its completion and its callback. */
  lemma CancelledOnce(sts: seq<State>, steps: seq<Step>, st: State)
    returns (sts': seq<State>, steps': seq<Step>, st': State)
    requires IsRun(sts, steps) && sts[|steps|] == st
    requires |st.loops| > 0 && st.loops[0] == Loop([], [], None)
    requires 0 in st.reqs && st.reqs[0].loop == 0 && MayCancel(st.reqs[0])
    requires st.slowPending == [] && (st.wq == [] || st.wq == [Job(0)])
    ensures IsRun(sts', steps') && sts'[|steps'|] == st'
    ensures sts'[0] == sts[0] && steps' == steps + [Cancel(0, 0), CancelDone(0), Collect(0), Deliver(0)]
    ensures st'.slowPending == [] && st'.wq == [] && |st'.loops| > 0 && st'.loops[0] == Loop([], [], None)
    ensures 0 in st'.reqs && st'.reqs[0].loop == 0 && MayCancel(st'.reqs[0])
    ensures st'.delivered == st.delivered + [(0, true)]
  {
    var s1 := CancelZero(st);
    var s2, s3, s4 := Callback(s1);
    RunExtended(sts, steps, st, Cancel(0, 0), s1);
    var sts1, steps1 := sts + [s1], steps + [Cancel(0, 0)];
    RunExtended(sts1, steps1, s1, CancelDone(0), s2);
    var sts2, steps2 := sts1 + [s2], steps1 + [CancelDone(0)];
    RunExtended(sts2, steps2, s2, Collect(0), s3);
    var sts3, steps3 := sts2 + [s3], steps2 + [Collect(0)];
    RunExtended(sts3, steps3, s3, Deliver(0), s4);
    sts', steps', st' := sts3 + [s4], steps3 + [Deliver(0)], s4;
  }

  /**
   A request that is cancelled, gets its callback, and is cancelled again from it, gets another:
   the first removal from the list of the loop left it linked.
  */
  lemma CancelledTwice(st: State) returns (sts: seq<State>, steps: seq<Step>)
    requires Init(st) && |st.loops| > 0
    ensures IsRun(sts, steps) && sts[0] == st
    ensures steps == [Submit(0, Cpu, 0, None), Cancel(0, 0), CancelDone(0), Collect(0), Deliver(0),
                      Cancel(0, 0), CancelDone(0), Collect(0), Deliver(0)]
    ensures sts[9].delivered == [(0, true), (0, true)]
  {
    var s1 := st.(wq := st.wq + [Job(0)], reqs := st.reqs[0 := Request(Cpu, 0, Assigned, true, false)]);
    assert SubmitStep(st, s1, 0, Cpu, 0, None) && s1.wq == [Job(0)];
    RunExtended([st], [], st, Submit(0, Cpu, 0, None), s1);
    var sts1, steps1, st1 := CancelledOnce([st] + [s1], [] + [Submit(0, Cpu, 0, None)], s1);
    var sts2, steps2, st2 := CancelledOnce(sts1, steps1, st1);
    sts, steps := sts2, steps2;
  }
}
