/**
 The writer queue of `DBImpl::Write` (`db/db_impl.cc`) as a state machine: its steps are the critical
 sections under the mutex and the leader's log append, sync and memtable inserts outside it, with any
 number of writers and readers in any interleaving.
*/
module GroupCommit {
  import opened WriteBatches
  import opened Sequences

  /** A call of `Write`; `None` is the null batch of a manual compaction. */
  datatype Writer = Writer(id: nat, batch: Optional<seq<Op>>, sync: bool)

  /**
   `Forced`: a null batch served on its own turn, with a memtable switch.  `Refused`: no room, or no new log file.
   `Failed`: log append or sync failed.
  */
  datatype Outcome = Committed | Forced | Refused | Failed

  /** A call that was served: where its sequence numbers start, and the log record of its group. */
  datatype Served = Served(w: Writer, first: nat, outcome: Outcome, record: nat)

  datatype Record = Record(first: nat, ops: seq<Op>, file: nat)

  /** What the writer at the head of the queue has done so far for its group of `size` writers. */
  datatype Lead = Idle | Leading(size: nat, first: nat, logged: bool, synced: bool, inserted: nat, failed: bool)

  /** A reader's snapshot; `cut` records how many calls had been served. */
  datatype Snapshot = Snapshot(sequence: nat, cut: nat)

  /**
   `mem` lists what was ever put into a memtable, the first `retired` of it into memtables that were switched
   away; `durable` has the log records that were synced, `awake` the callers not blocked in `cv.Wait()`;
   sequence numbers start after `base`.
  */
  datatype State = State(
    base: nat,
    queue: seq<Writer>,
    lead: Lead,
    lastSequence: nat,
    log: seq<Record>,
    logFile: nat,
    durable: set<nat>,
    mem: seq<Numbered>,
    retired: nat,
    bgError: bool,
    snapshots: seq<Snapshot>,
    served: seq<Served>,
    awake: set<nat>)

  // ---------- BuildBatchGroup ----------

  function OpsOf(w: Writer): seq<Op> {
    if w.batch.Some? then w.batch.value else []
  }

  /** All updates of a list of writers, in order. */
  function Flat(ws: seq<Writer>): seq<Op> {
    if ws == [] then [] else Flat(ws[..|ws| - 1]) + OpsOf(ws[|ws| - 1])
  }

  function BatchSize(w: Writer): nat {
    |Rep(0, OpsOf(w))|
  }

  function MaxSize(size: nat): nat {
    if size <= 0x2_0000 then size + 0x2_0000 else 0x10_0000
  }

  /** What a writer adds to the size of a group. */
  function Adds(w: Writer): nat {
    if w.batch.Some? then BatchSize(w) else 0
  }

  function TotalSize(ws: seq<Writer>): nat {
    if ws == [] then 0 else TotalSize(ws[..|ws| - 1]) + Adds(ws[|ws| - 1])
  }

  predicate MayJoin(leader: Writer, w: Writer) {
    w.sync ==> leader.sync
  }

  /** The first `k` writers are the group that `BuildBatchGroup` forms: no sync write led by a non-sync
      one, within the size limit, and as long as possible. */
  ghost predicate IsGroup(queue: seq<Writer>, k: nat) {
    && 1 <= k <= |queue| && queue[0].batch.Some?
    && (forall j | 0 <= j < k :: MayJoin(queue[0], queue[j]))
    && (forall j {:trigger FitsLimit(queue, j)} | 1 <= j < k :: FitsLimit(queue, j))
    && (k < |queue| ==> !MayJoin(queue[0], queue[k]) || !FitsLimit(queue, k))
  }

  /** With the batch of writer `j` the group is not too big. */
  ghost predicate FitsLimit(queue: seq<Writer>, j: nat)
    requires j < |queue|
  {
    queue[j].batch.Some? ==> TotalSize(queue[..j + 1]) <= MaxSize(BatchSize(queue[0]))
  }

  /**
   Who is taken into a group: a writer of the queue exactly if it and all before it may join, and with each
   of these the group is not too big.
  */
  lemma TakenIff(queue: seq<Writer>, k: nat, j: nat)
    requires IsGroup(queue, k) && 1 <= j < |queue|
    ensures j < k <==> forall m | 1 <= m <= j :: MayJoin(queue[0], queue[m]) && FitsLimit(queue, m)
  {
    if j >= k {
      assert 1 <= k <= j && !(MayJoin(queue[0], queue[k]) && FitsLimit(queue, k));
    }
  }

  /**
   How much a group holds: at most 128 KiB more than a batch of at most 128 KiB that leads it, and at most 1 MiB
   if its leader is bigger, or that one alone.  Who may join and is left behind would make it too big.
  */
  lemma GroupBounds(queue: seq<Writer>, k: nat)
    requires IsGroup(queue, k)
    ensures var size := BatchSize(queue[0]);
      var limit := if size <= 131072 then size + 131072 else 1048576;
      && size <= TotalSize(queue[..k]) <= (if size <= limit then limit else size)
      && (k < |queue| && (queue[k].sync ==> queue[0].sync) ==>
            queue[k].batch.Some? && TotalSize(queue[..k + 1]) > limit)
  {
    BoundsUpTo(queue, k, k);
  }

  lemma {:induction false} BoundsUpTo(queue: seq<Writer>, k: nat, m: nat)
    requires IsGroup(queue, k) && 1 <= m <= k
    ensures var size, limit := BatchSize(queue[0]), MaxSize(BatchSize(queue[0]));
      size <= TotalSize(queue[..m]) <= if size <= limit then limit else size
    decreases m
  {
    assert queue[..m][..m - 1] == queue[..m - 1];
    if m > 1 {
      BoundsUpTo(queue, k, m - 1);
      assert FitsLimit(queue, m - 1);
    } else {
      assert queue[..1][..0] == [];
    }
  }

  /** A null batch adds nothing, so only those before it can be too big. */
  ghost predicate NullJoins(queue: seq<Writer>, j: nat)
    requires 1 <= j < |queue|
  {
    && (queue[j].sync ==> queue[0].sync)
    && forall m | 1 <= m < j :: MayJoin(queue[0], queue[m]) && FitsLimit(queue, m)
  }

  lemma NullBatchJoins(queue: seq<Writer>, k: nat, j: nat)
    requires IsGroup(queue, k) && 1 <= j < |queue| && queue[j].batch.None?
    ensures j < k <==> NullJoins(queue, j)
  {
    TakenIff(queue, k, j);
    assert MayJoin(queue[0], queue[j]) <==> (queue[j].sync ==> queue[0].sync);
    assert FitsLimit(queue, j);
  }

  // ---------- steps ----------

  function FlatGroup(st: State): seq<Op>
    requires st.lead.Leading? && st.lead.size <= |st.queue|
  {
    Flat(st.queue[..st.lead.size])
  }

  function Heads(queue: seq<Writer>): set<nat> {
    if queue == [] then {} else {queue[0].id}
  }

  function Ids(ws: seq<Writer>): set<nat> {
    set j | 0 <= j < |ws| :: ws[j].id
  }

  /** The served calls of a group, each with its share of the sequence numbers. */
  function GroupServed(group: seq<Writer>, first: nat, outcome: Outcome, record: nat): (r: seq<Served>)
    ensures |r| == |group|
  {
    seq(|group|, j requires 0 <= j < |group| => Served(group[j], first + |Flat(group[..j])|, outcome, record))
  }

  /** The head of the queue is served alone, and the next one is signalled. */
  function PopHead(st: State, outcome: Outcome): State
    requires st.queue != []
  {
    var rest := st.queue[1..];
    st.(queue := rest,
        served := st.served + [Served(st.queue[0], st.lastSequence + 1, outcome, |st.log|)],
        awake := st.awake + Heads(rest))
  }

  /** `MakeRoomForWrite` starts a new log file and a new memtable. */
  function Switched(st: State): State {
    st.(logFile := st.logFile + 1, retired := |st.mem|)
  }

  datatype Step =
    | Enqueue(batch: Optional<seq<Op>>, sync: bool)
    | Sleep(id: nat)
    | Wake(id: nat)
    | Refuse
    | Force
    | SwitchLog
    | Lead(size: nat)
    | Append(ok: bool)
    | Sync(ok: bool)
    | Insert
    | Finish
    | TakeSnapshot
    | BackgroundError

  ghost predicate AtHead(st: State) {
    st.queue != [] && st.lead.Idle? && st.queue[0].id in st.awake
  }

  ghost predicate Enabled(st: State, step: Step) {
    match step
    case Enqueue(_, _) => true
    case Sleep(id) => id in st.awake && exists j :: 0 < j < |st.queue| && st.queue[j].id == id
    case Wake(id) => true
    case Refuse => AtHead(st)
    case Force => AtHead(st) && st.queue[0].batch.None? && !st.bgError
    case SwitchLog => AtHead(st) && st.queue[0].batch.Some? && !st.bgError
    case Lead(size) => AtHead(st) && !st.bgError && IsGroup(st.queue, size)
    case Append(_) => st.lead.Leading? && st.lead.size <= |st.queue| && !st.lead.logged && !st.lead.failed
    case Sync(_) =>
      st.lead.Leading? && st.queue != [] && st.lead.logged && !st.lead.failed && st.queue[0].sync && !st.lead.synced
    case Insert =>
      && st.lead.Leading? && st.lead.size <= |st.queue| && st.queue != []
      && st.lead.logged && !st.lead.failed && (st.queue[0].sync ==> st.lead.synced)
      && st.lead.inserted < |FlatGroup(st)|
    case Finish =>
      && st.lead.Leading? && st.lead.size <= |st.queue| && st.queue != []
      && (st.lead.failed ||
          (st.lead.logged && (st.queue[0].sync ==> st.lead.synced) && st.lead.inserted == |FlatGroup(st)|))
    case TakeSnapshot => true
    case BackgroundError => true
  }

  ghost function After(st: State, step: Step): State
    requires Enabled(st, step)
  {
    match step
    case Enqueue(batch, sync) =>
      var id := |st.served| + |st.queue|;
      st.(queue := st.queue + [Writer(id, batch, sync)], awake := st.awake + {id})
    case Sleep(id) => st.(awake := st.awake - {id})
    case Wake(id) => st.(awake := st.awake + {id})
    case Refuse => PopHead(st, Refused)
    case Force => PopHead(Switched(st), Forced)
    case SwitchLog => Switched(st)
    case Lead(size) => st.(lead := Leading(size, st.lastSequence + 1, false, false, 0, false))
    case Append(ok) =>
      if ok then
        st.(log := st.log + [Record(st.lead.first, FlatGroup(st), st.logFile)], lead := st.lead.(logged := true))
      else st.(lead := st.lead.(failed := true))
    case Sync(ok) =>
      if ok then
        st.(durable := st.durable + (set r | 0 <= r < |st.log| && st.log[r].file == st.logFile),
            lead := st.lead.(synced := true))
      else st.(lead := st.lead.(failed := true))
    case Insert =>
      st.(mem := st.mem + [Numbered(st.lead.first + st.lead.inserted, FlatGroup(st)[st.lead.inserted])],
          lead := st.lead.(inserted := st.lead.inserted + 1))
    case Finish =>
      var group, rest := st.queue[..st.lead.size], st.queue[st.lead.size..];
      var outcome := if st.lead.failed then Failed else Committed;
      st.(queue := rest, lead := Idle,
          lastSequence := st.lastSequence + |FlatGroup(st)|,
          bgError := st.bgError || (st.lead.failed && st.lead.logged),
          served := st.served + GroupServed(group, st.lead.first, outcome, if st.log == [] then 0 else |st.log| - 1),
          awake := st.awake + Ids(group) + Heads(rest))
    case TakeSnapshot => st.(snapshots := st.snapshots + [Snapshot(st.lastSequence, |st.served|)])
    case BackgroundError => st.(bgError := true)
  }

  // ---------- what the queue keeps ----------

  /** How many sequence numbers a served call took. */
  function Used(s: Served): nat {
    if s.outcome.Refused? then 0 else |OpsOf(s.w)|
  }

  /** The last sequence number after the calls in `served`. */
  function Through(base: nat, served: seq<Served>): nat {
    if served == [] then base else Through(base, served[..|served| - 1]) + Used(served[|served| - 1])
  }

  function Effect(s: Served): seq<Numbered> {
    if s.outcome.Committed? then NumberFrom(s.first, OpsOf(s.w)) else []
  }

  /** The updates of the committed calls, in the order in which they queued up. */
  function Applied(served: seq<Served>): seq<Numbered> {
    if served == [] then [] else Applied(served[..|served| - 1]) + Effect(served[|served| - 1])
  }

  /** Calls are served in the order in which they queued up, each once. */
  ghost predicate Ordered(st: State) {
    && (forall i | 0 <= i < |st.served| :: st.served[i].w.id == i)
    && (forall j | 0 <= j < |st.queue| :: st.queue[j].id == |st.served| + j)
  }

  /** Sequence numbers are handed out one after the other, none twice. */
  ghost predicate Consecutive(base: nat, served: seq<Served>) {
    forall i {:trigger StartsNext(base, served, i)} | 0 <= i < |served| :: StartsNext(base, served, i)
  }

  ghost predicate StartsNext(base: nat, served: seq<Served>, i: nat)
    requires i < |served|
  {
    served[i].first == Through(base, served[..i]) + 1
  }

  ghost predicate NumbersOk(st: State) {
    st.lastSequence == Through(st.base, st.served) && Consecutive(st.base, st.served)
  }

  ghost predicate LeadOk(st: State) {
    st.lead.Leading? ==>
      && 1 <= st.lead.size <= |st.queue| && st.queue[0].batch.Some?
      && st.lead.first == st.lastSequence + 1
      && st.lead.inserted <= |FlatGroup(st)|
      && (st.lead.synced ==> st.lead.logged)
      && (st.lead.inserted > 0 ==> st.lead.logged && !st.lead.failed && (st.queue[0].sync ==> st.lead.synced))
      && (forall j | 0 <= j < st.lead.size :: MayJoin(st.queue[0], st.queue[j]))
  }

  /** The record of the group being written is the last of the log, synced if it should be. */
  ghost predicate LoggedOk(st: State) {
    st.lead.Leading? && st.lead.size <= |st.queue| && st.lead.logged ==>
      && st.log != [] && st.log[|st.log| - 1] == Record(st.lead.first, FlatGroup(st), st.logFile)
      && (st.lead.synced ==> |st.log| - 1 in st.durable)
  }

  function RecordEnd(r: Record): nat {
    r.first + |r.ops|
  }

  /** Later records have higher numbers. */
  ghost predicate LogIncreases(log: seq<Record>) {
    forall i, j {:trigger EndsBefore(log[i], log[j])} | 0 <= i < j < |log| :: EndsBefore(log[i], log[j])
  }

  predicate EndsBefore(r: Record, s: Record) {
    RecordEnd(r) <= s.first
  }

  /** Only the record of the group being written has numbers beyond `lastSequence`. */
  ghost predicate LogNumbersOk(st: State) {
    && LogIncreases(st.log)
    && (forall i {:trigger RecordEnd(st.log[i])} | 0 <= i < |st.log| ::
          (st.lead.Leading? && st.lead.logged && i == |st.log| - 1) || RecordEnd(st.log[i]) <= st.lastSequence + 1)
  }

  lemma LogMore(log: seq<Record>, r: Record)
    requires LogIncreases(log) && forall i {:trigger RecordEnd(log[i])} | 0 <= i < |log| :: RecordEnd(log[i]) <= r.first
    ensures LogIncreases(log + [r])
  {
    forall i, j | 0 <= i < j < |log| + 1 ensures EndsBefore((log + [r])[i], (log + [r])[j]) {
      if j < |log| {
        assert EndsBefore(log[i], log[j]);
      } else {
        assert RecordEnd(log[i]) <= r.first;
      }
    }
  }

  function Partial(st: State): seq<Numbered>
    requires st.lead.Leading? ==> st.lead.size <= |st.queue| && st.lead.inserted <= |FlatGroup(st)|
  {
    if st.lead.Leading? then NumberFrom(st.lead.first, FlatGroup(st))[..st.lead.inserted] else []
  }

  ghost predicate MemOk(st: State) {
    LeadOk(st) && st.mem == Applied(st.served) + Partial(st)
  }

  /** The record holds the updates of a call under the numbers the call got. */
  ghost predicate Covers(r: Record, s: Served) {
    && r.first <= s.first && s.first + |OpsOf(s.w)| <= r.first + |r.ops|
    && r.ops[s.first - r.first..s.first - r.first + |OpsOf(s.w)|] == OpsOf(s.w)
  }

  /** A committed call is in the log, and durable if it asked for that. */
  ghost predicate Recorded(log: seq<Record>, durable: set<nat>, s: Served) {
    s.outcome.Committed? ==>
      s.record < |log| && Covers(log[s.record], s) && (s.w.sync ==> s.record in durable)
  }

  ghost predicate LogOk(st: State) {
    AllRecorded(st.log, st.durable, st.served)
  }

  ghost predicate AllRecorded(log: seq<Record>, durable: set<nat>, served: seq<Served>) {
    forall i {:trigger Recorded(log, durable, served[i])} | 0 <= i < |served| :: Recorded(log, durable, served[i])
  }

  /** A snapshot is the last sequence number after some of the calls. */
  ghost predicate SnapshotsOk(st: State) {
    AllCuts(st.base, st.served, st.snapshots)
  }

  ghost predicate AllCuts(base: nat, served: seq<Served>, snapshots: seq<Snapshot>) {
    forall k {:trigger IsCut(base, served, snapshots[k])} | 0 <= k < |snapshots| :: IsCut(base, served, snapshots[k])
  }

  ghost predicate IsCut(base: nat, served: seq<Served>, s: Snapshot) {
    s.cut <= |served| && s.sequence == Through(base, served[..s.cut])
  }

  /** No wakeup is lost: the head of the queue and every served caller are not left waiting. */
  ghost predicate WakeupsOk(st: State) {
    && (st.queue != [] ==> st.queue[0].id in st.awake)
    && (forall i | 0 <= i < |st.served| :: st.served[i].w.id in st.awake)
  }

  ghost predicate Inv(st: State) {
    Ordered(st) && NumbersOk(st) && LeadOk(st) && LoggedOk(st) && MemOk(st) && LogOk(st) && LogNumbersOk(st)
      && SnapshotsOk(st) && WakeupsOk(st)
  }

  ghost predicate Init(st: State) {
    && st.queue == [] && st.lead.Idle? && st.lastSequence == st.base && st.log == [] && st.mem == []
    && st.retired == 0 && st.snapshots == [] && st.served == []
  }

  lemma InitInv(st: State)
    requires Init(st)
    ensures Inv(st)
  {
  }

  // ---------- appending to what was served ----------

  lemma ServedMore(base: nat, served: seq<Served>, s: Served)
    ensures Through(base, served + [s]) == Through(base, served) + Used(s)
    ensures Applied(served + [s]) == Applied(served) + Effect(s)
  {
    assert (served + [s])[..|served|] == served;
  }

  lemma ConsecutiveMore(base: nat, served: seq<Served>, s: Served)
    requires Consecutive(base, served) && s.first == Through(base, served) + 1
    ensures Consecutive(base, served + [s])
  {
    forall i | 0 <= i <= |served| ensures StartsNext(base, served + [s], i) {
      assert (served + [s])[..i] == served[..i];
      assert served[..|served|] == served;
      assert i < |served| ==> StartsNext(base, served, i);
    }
  }

  lemma FlatMore(ws: seq<Writer>, w: Writer)
    ensures Flat(ws + [w]) == Flat(ws) + OpsOf(w)
  {
    assert (ws + [w])[..|ws|] == ws;
  }

  lemma GroupServedMore(group: seq<Writer>, s: Served, first: nat)
    requires s.first == first + |Flat(group)|
    ensures GroupServed(group + [s.w], first, s.outcome, s.record)
         == GroupServed(group, first, s.outcome, s.record) + [s]
  {
    forall j | 0 <= j < |group| ensures (group + [s.w])[..j] == group[..j] {
    }
    assert (group + [s.w])[..|group|] == group;
  }

  /** A group takes consecutive numbers, and committed adds all its updates in order. */
  lemma {:induction false} GroupLaw(base: nat, served: seq<Served>, group: seq<Writer>, first: nat, outcome: Outcome,
                                    record: nat)
    requires Consecutive(base, served) && first == Through(base, served) + 1
    requires outcome.Committed? || outcome.Failed?
    ensures GroupDone(base, served, group, first, outcome, record)
    decreases |group|
  {
    if group == [] {
      assert served + GroupServed(group, first, outcome, record) == served;
    } else {
      var before, w := group[..|group| - 1], group[|group| - 1];
      assert group == before + [w];
      GroupLaw(base, served, before, first, outcome, record);
      GroupLawStep(base, served, before, w, first, outcome, record);
    }
  }

  ghost predicate GroupDone(base: nat, served: seq<Served>, group: seq<Writer>, first: nat, outcome: Outcome,
                            record: nat) {
    var served' := served + GroupServed(group, first, outcome, record);
    && Consecutive(base, served') && Through(base, served') == Through(base, served) + |Flat(group)|
    && Applied(served') == Applied(served) + EffectOf(outcome, first, Flat(group))
  }

  lemma GroupLawStep(base: nat, served: seq<Served>, before: seq<Writer>, w: Writer, first: nat, outcome: Outcome,
                     record: nat)
    requires GroupDone(base, served, before, first, outcome, record)
    requires first == Through(base, served) + 1 && (outcome.Committed? || outcome.Failed?)
    ensures GroupDone(base, served, before + [w], first, outcome, record)
  {
    var s := Served(w, first + |Flat(before)|, outcome, record);
    var done := GroupServed(before, first, outcome, record);
    GroupServedMore(before, s, first);
    Regroup3(served, done, [s]);
    assert served + GroupServed(before + [w], first, outcome, record) == served + done + [s];
    FlatMore(before, w);
    ServedMore(base, served + done, s);
    ConsecutiveMore(base, served + done, s);
    AppliedMore(Applied(served), served + done, s, first, Flat(before));
    GroupDoneIs(base, served, before + [w], first, outcome, record, served + done + [s], Flat(before + [w]));
  }

  function EffectOf(outcome: Outcome, first: nat, ops: seq<Op>): seq<Numbered> {
    if outcome.Committed? then NumberFrom(first, ops) else []
  }

  lemma AppliedMore(before: seq<Numbered>, served: seq<Served>, s: Served, first: nat, ops: seq<Op>)
    requires Applied(served) == before + EffectOf(s.outcome, first, ops) && s.first == first + |ops|
    ensures Applied(served + [s]) == before + EffectOf(s.outcome, first, ops + OpsOf(s.w))
  {
    ServedMore(0, served, s);
    NumberFromAppend(first, ops, OpsOf(s.w));
  }

  lemma GroupDoneIs(base: nat, served: seq<Served>, group: seq<Writer>, first: nat, outcome: Outcome, record: nat,
                    served': seq<Served>, ops: seq<Op>)
    requires served' == served + GroupServed(group, first, outcome, record) && ops == Flat(group)
    requires Consecutive(base, served') && Through(base, served') == Through(base, served) + |ops|
    requires Applied(served') == Applied(served) + EffectOf(outcome, first, ops)
    ensures GroupDone(base, served, group, first, outcome, record)
  {
  }

  /** The record of a group holds the updates of each of its calls. */
  lemma {:induction false} GroupCovered(group: seq<Writer>, j: nat)
    requires j < |group|
    ensures |Flat(group[..j])| + |OpsOf(group[j])| <= |Flat(group)|
    ensures Flat(group)[|Flat(group[..j])|..|Flat(group[..j])| + |OpsOf(group[j])|] == OpsOf(group[j])
    decreases |group|
  {
    var before := group[..|group| - 1];
    if j < |group| - 1 {
      GroupCovered(before, j);
      assert before[..j] == group[..j];
    }
  }

  // ---------- every step keeps the invariant ----------

  /** Serving more calls leaves the snapshots taken before alone. */
  lemma SnapshotsKept(st: State, st': State, more: seq<Served>)
    requires SnapshotsOk(st) && st'.base == st.base && st'.snapshots == st.snapshots && st'.served == st.served + more
    ensures SnapshotsOk(st')
  {
    forall k | 0 <= k < |st'.snapshots| ensures IsCut(st'.base, st'.served, st'.snapshots[k]) {
      assert IsCut(st.base, st.served, st.snapshots[k]);
      PrefixSame(st.served, more, st.snapshots[k].cut);
    }
  }

  lemma SnapshotTaken(st: State)
    requires SnapshotsOk(st) && NumbersOk(st)
    ensures SnapshotsOk(After(st, TakeSnapshot))
  {
    var st' := After(st, TakeSnapshot);
    assert st.served[..|st.served|] == st.served;
    forall k | 0 <= k < |st'.snapshots| ensures IsCut(st'.base, st'.served, st'.snapshots[k]) {
      if k < |st.snapshots| {
        assert IsCut(st.base, st.served, st.snapshots[k]);
      }
    }
  }

  /** A longer log with more of it durable still records what it recorded. */
  lemma LogKept(st: State, st': State)
    requires LogOk(st) && st'.served == st.served && st.durable <= st'.durable
    requires |st.log| <= |st'.log| && st'.log[..|st.log|] == st.log
    ensures LogOk(st')
  {
    forall i | 0 <= i < |st'.served| ensures Recorded(st'.log, st'.durable, st'.served[i]) {
      assert Recorded(st.log, st.durable, st.served[i]);
      if st.served[i].outcome.Committed? {
        assert st'.log[..|st.log|][st.served[i].record] == st.log[st.served[i].record];
      }
    }
  }

  lemma PopKeeps(st: State, outcome: Outcome)
    requires Inv(st) && AtHead(st) && (outcome.Refused? || (outcome.Forced? && st.queue[0].batch.None?))
    ensures Inv(PopHead(st, outcome))
  {
    var st' := PopHead(st, outcome);
    var s := st'.served[|st.served|];
    assert st'.served == st.served + [s];
    ServedMore(st.base, st.served, s);
    ConsecutiveMore(st.base, st.served, s);
    SnapshotsKept(st, st', [s]);
    assert Applied(st.served) + [] + [] == Applied(st.served) + [];
    forall i | 0 <= i < |st'.served| ensures Recorded(st'.log, st'.durable, st'.served[i]) {
      assert i < |st.served| ==> Recorded(st.log, st.durable, st.served[i]);
    }
  }

  /** Everything the group was given is in the memtable, or nothing is. */
  lemma PartialAtEnd(st: State)
    requires MemOk(st) && Enabled(st, Finish)
    ensures st.mem == Applied(st.served)
      + EffectOf(if st.lead.failed then Failed else Committed, st.lead.first, FlatGroup(st))
  {
    var whole := NumberFrom(st.lead.first, FlatGroup(st));
    assert whole[..|whole|] == whole;
  }

  lemma GroupRecorded(log: seq<Record>, durable: set<nat>, group: seq<Writer>, j: nat, s: Served)
    requires j < |group| && s.w == group[j] && s.record < |log| && log[s.record].ops == Flat(group)
    requires s.first == log[s.record].first + |Flat(group[..j])| && (s.w.sync ==> s.record in durable)
    ensures Recorded(log, durable, s)
  {
    GroupCovered(group, j);
  }

  lemma GroupPart(st: State, j: nat)
    requires LeadOk(st) && Enabled(st, Finish) && j < st.lead.size
    ensures var s, group := After(st, Finish).served[|st.served| + j], st.queue[..st.lead.size];
      && s.w == group[j] && s.first == st.lead.first + |Flat(group[..j])| && (s.outcome.Failed? <==> st.lead.failed)
      && (st.log != [] ==> s.record == |st.log| - 1)
  {
  }

  lemma FinishRecorded(st: State, i: nat)
    requires LeadOk(st) && LoggedOk(st) && LogOk(st) && Enabled(st, Finish) && i < |After(st, Finish).served|
    ensures Recorded(st.log, st.durable, After(st, Finish).served[i])
  {
    if i < |st.served| {
      assert Recorded(st.log, st.durable, st.served[i]);
    } else {
      var group, j := st.queue[..st.lead.size], i - |st.served|;
      GroupPart(st, j);
      if !st.lead.failed {
        assert MayJoin(st.queue[0], st.queue[j]);
        GroupRecorded(st.log, st.durable, group, j, After(st, Finish).served[i]);
      }
    }
  }

  lemma FinishKeeps(st: State)
    requires Inv(st) && Enabled(st, Finish)
    ensures Inv(After(st, Finish))
  {
    var st' := After(st, Finish);
    FinishMem(st);
    FinishLog(st);
    FinishSnapshots(st);
    FinishNumbers(st);
    var group := st.queue[..st.lead.size];
    FinishOrdered(st, st', group, st'.served[|st.served|..]);
  }

  lemma FinishMem(st: State)
    requires NumbersOk(st) && MemOk(st) && Enabled(st, Finish)
    ensures NumbersOk(After(st, Finish)) && MemOk(After(st, Finish))
  {
    var group := st.queue[..st.lead.size];
    var outcome := if st.lead.failed then Failed else Committed;
    GroupLaw(st.base, st.served, group, st.lead.first, outcome, if st.log == [] then 0 else |st.log| - 1);
    PartialAtEnd(st);
  }

  lemma FinishLog(st: State)
    requires Inv(st) && Enabled(st, Finish)
    ensures LogOk(After(st, Finish))
  {
    var st' := After(st, Finish);
    forall i | 0 <= i < |st'.served| ensures Recorded(st'.log, st'.durable, st'.served[i]) {
      FinishRecorded(st, i);
    }
  }

  lemma FinishSnapshots(st: State)
    requires SnapshotsOk(st) && Enabled(st, Finish)
    ensures SnapshotsOk(After(st, Finish))
  {
    var st' := After(st, Finish);
    SnapshotsKept(st, st', st'.served[|st.served|..]);
  }

  lemma FinishNumbers(st: State)
    requires LeadOk(st) && LoggedOk(st) && LogNumbersOk(st) && Enabled(st, Finish)
    ensures LogNumbersOk(After(st, Finish))
  {
  }

  lemma FinishOrdered(st: State, st': State, group: seq<Writer>, more: seq<Served>)
    requires Ordered(st) && WakeupsOk(st) && Enabled(st, Finish) && st' == After(st, Finish)
    requires group == st.queue[..st.lead.size] && st'.served == st.served + more && |more| == |group|
    requires forall j | 0 <= j < |group| :: more[j].w == group[j]
    ensures Ordered(st') && WakeupsOk(st')
  {
    forall i | 0 <= i < |st'.served| ensures st'.served[i].w.id == i && st'.served[i].w.id in st'.awake {
      if i >= |st.served| {
        assert more[i - |st.served|].w == group[i - |st.served|];
        assert group[i - |st.served|].id in Ids(group);
      }
    }
  }

  lemma InsertKeeps(st: State)
    requires Inv(st) && Enabled(st, Insert)
    ensures Inv(After(st, Insert))
  {
    var st' := After(st, Insert);
    var whole := NumberFrom(st.lead.first, FlatGroup(st));
    assert FlatGroup(st') == FlatGroup(st);
    TakeMore(whole, st.lead.inserted, st'.mem[|st.mem|]);
    Regroup3(Applied(st.served), Partial(st), [st'.mem[|st.mem|]]);
    assert MemOk(st');
    LogKept(st, st');
  }

  /** A step that leaves what was served, the memtable and the head group alone. */
  ghost predicate Quiet(st: State, st': State) {
    && st'.base == st.base && st'.served == st.served && st'.mem == st.mem && st'.lastSequence == st.lastSequence
    && st'.snapshots == st.snapshots && st.durable <= st'.durable
    && |st.log| <= |st'.log| && st'.log[..|st.log|] == st.log
    && |st.queue| <= |st'.queue| && st'.queue[..|st.queue|] == st.queue
  }

  lemma QuietKeeps(st: State, st': State)
    requires Inv(st) && Quiet(st, st') && Ordered(st') && WakeupsOk(st') && LeadOk(st') && LoggedOk(st')
    requires SameProgress(st, st') && LogNumbersOk(st')
    ensures Inv(st')
  {
    SnapshotsKept(st, st', []);
    LogKept(st, st');
    QuietMem(st, st');
  }

  /** The group being written is the same and as far, or a new one that has inserted nothing. */
  ghost predicate SameProgress(st: State, st': State) {
    if st.lead.Leading? then
      && st'.lead.Leading? && st'.lead.size == st.lead.size
      && st'.lead.first == st.lead.first && st'.lead.inserted == st.lead.inserted
    else st'.lead.Leading? ==> st'.lead.inserted == 0
  }

  lemma QuietMem(st: State, st': State)
    requires MemOk(st) && Quiet(st, st') && LeadOk(st') && SameProgress(st, st')
    ensures MemOk(st')
  {
    if st.lead.Leading? {
      SameGroup(st, st');
    }
  }

  lemma SameGroup(st: State, st': State)
    requires Quiet(st, st') && st.lead.Leading? && st'.lead.Leading? && st.lead.size == st'.lead.size <= |st.queue|
    ensures FlatGroup(st') == FlatGroup(st)
  {
    assert st'.queue[..st.lead.size] == st.queue[..st.lead.size] by {
      assert st'.queue[..|st.queue|][..st.lead.size] == st'.queue[..st.lead.size];
    }
  }

  lemma EnqueueOrdered(st: State, batch: Optional<seq<Op>>, sync: bool)
    requires Ordered(st) && WakeupsOk(st)
    ensures Ordered(After(st, Enqueue(batch, sync))) && WakeupsOk(After(st, Enqueue(batch, sync)))
  {
  }

  lemma EnqueueLead(st: State, batch: Optional<seq<Op>>, sync: bool)
    requires LeadOk(st) && LoggedOk(st) && st.lead.Leading?
    requires var st' := After(st, Enqueue(batch, sync)); st'.lead.size <= |st'.queue| && FlatGroup(st') == FlatGroup(st)
    ensures LeadOk(After(st, Enqueue(batch, sync))) && LoggedOk(After(st, Enqueue(batch, sync)))
  {
  }

  lemma EnqueueKeeps(st: State, batch: Optional<seq<Op>>, sync: bool)
    requires Inv(st)
    ensures Inv(After(st, Enqueue(batch, sync)))
  {
    var st' := After(st, Enqueue(batch, sync));
    assert st'.queue[..|st.queue|] == st.queue;
    EnqueueOrdered(st, batch, sync);
    if st.lead.Leading? {
      SameGroup(st, st');
      EnqueueLead(st, batch, sync);
    }
    QuietKeeps(st, st');
  }

  lemma LeadKeeps(st: State, size: nat)
    requires Inv(st) && Enabled(st, Step.Lead(size))
    ensures Inv(After(st, Step.Lead(size)))
  {
    QuietKeeps(st, After(st, Step.Lead(size)));
  }

  lemma AppendKeeps(st: State, ok: bool)
    requires Inv(st) && Enabled(st, Append(ok))
    ensures Inv(After(st, Append(ok)))
  {
    var st' := After(st, Append(ok));
    assert FlatGroup(st') == FlatGroup(st);
    if ok {
      LogMore(st.log, st'.log[|st.log|]);
    }
    QuietKeeps(st, st');
  }

  lemma SyncKeeps(st: State, ok: bool)
    requires Inv(st) && Enabled(st, Sync(ok))
    ensures Inv(After(st, Sync(ok)))
  {
    var st' := After(st, Sync(ok));
    assert FlatGroup(st') == FlatGroup(st);
    assert LeadOk(st') && LoggedOk(st');
    QuietKeeps(st, st');
  }

  lemma SleepKeeps(st: State, id: nat)
    requires Inv(st) && Enabled(st, Sleep(id))
    ensures Inv(After(st, Sleep(id)))
  {
    QuietKeeps(st, After(st, Sleep(id)));
  }

  lemma AsideKeeps(st: State, step: Step)
    requires Inv(st) && Enabled(st, step)
    requires step.Wake? || step.BackgroundError?
    ensures Inv(After(st, step))
  {
    QuietKeeps(st, After(st, step));
  }

  lemma SwitchKeeps(st: State)
    requires Inv(st) && AtHead(st)
    ensures Inv(Switched(st)) && AtHead(Switched(st))
  {
    QuietKeeps(st, Switched(st));
  }

  lemma ForceKeeps(st: State)
    requires Inv(st) && Enabled(st, Force)
    ensures Inv(After(st, Force))
  {
    SwitchKeeps(st);
    PopKeeps(Switched(st), Forced);
  }

  lemma SnapshotKeeps(st: State)
    requires Inv(st)
    ensures Inv(After(st, TakeSnapshot))
  {
    SnapshotTaken(st);
  }

  lemma LeaderKeeps(st: State, step: Step)
    requires Inv(st) && Enabled(st, step)
    requires step.Lead? || step.Append? || step.Sync? || step.Insert? || step.Finish?
    ensures Inv(After(st, step))
  {
    match step
    case Lead(size) => LeadKeeps(st, size);
    case Append(ok) => AppendKeeps(st, ok);
    case Sync(ok) => SyncKeeps(st, ok);
    case Insert => InsertKeeps(st);
    case Finish => FinishKeeps(st);
  }

  /** Every step keeps the invariant. */
  lemma NextInv(st: State, step: Step)
    requires Inv(st) && Enabled(st, step)
    ensures Inv(After(st, step))
  {
    match step
    case Enqueue(batch, sync) => EnqueueKeeps(st, batch, sync);
    case Sleep(id) => SleepKeeps(st, id);
    case Refuse => PopKeeps(st, Refused);
    case Force => ForceKeeps(st);
    case TakeSnapshot => SnapshotKeeps(st);
    case Wake(_) => AsideKeeps(st, step);
    case SwitchLog => SwitchKeeps(st);
    case BackgroundError => AsideKeeps(st, step);
    case _ => LeaderKeeps(st, step);
  }

  // ---------- whole runs ----------

  ghost predicate IsRun(run: seq<State>, steps: seq<Step>) {
    && |run| == |steps| + 1
    && forall i | 0 <= i < |steps| :: Moves(run[i], steps[i], run[i + 1])
  }

  ghost predicate Moves(st: State, step: Step, st': State) {
    Enabled(st, step) && st' == After(st, step)
  }

  lemma {:induction false} RunInv(run: seq<State>, steps: seq<Step>, i: nat)
    requires IsRun(run, steps) && Init(run[0]) && i < |run|
    ensures Inv(run[i])
  {
    if i == 0 {
      InitInv(run[0]);
    } else {
      RunInv(run, steps, i - 1);
      assert Moves(run[i - 1], steps[i - 1], run[i]);
      NextInv(run[i - 1], steps[i - 1]);
    }
  }

  // ---------- numbers ----------

  lemma {:induction false} ThroughGrows(base: nat, served: seq<Served>, n: nat)
    requires n <= |served|
    ensures base <= Through(base, served[..n]) <= Through(base, served)
    decreases |served|
  {
    if n == |served| {
      assert served[..n] == served;
      if n > 0 {
        ThroughGrows(base, served[..n - 1], n - 1);
        assert served[..n - 1][..n - 1] == served[..n - 1];
      }
    } else {
      var before := served[..|served| - 1];
      ThroughGrows(base, before, n);
      assert before[..n] == served[..n];
    }
  }

  ghost predicate Between(s: seq<Numbered>, lo: nat, hi: nat) {
    forall x | x in s :: lo < x.sequence <= hi
  }

  lemma BetweenAppend(a: seq<Numbered>, b: seq<Numbered>, lo: nat, mid: nat, hi: nat)
    requires Between(a, lo, mid) && Between(b, mid, hi) && lo <= mid <= hi
    ensures Between(a + b, lo, hi)
  {
  }

  /** The updates of the first `n` calls are at the front of `Applied`, with the lower numbers. */
  lemma {:induction false} AppliedSplits(base: nat, served: seq<Served>, n: nat) returns (later: seq<Numbered>)
    requires Consecutive(base, served) && n <= |served|
    ensures Applied(served) == Applied(served[..n]) + later
    ensures Between(later, Through(base, served[..n]), Through(base, served))
    decreases |served|
  {
    if n == |served| {
      assert served[..n] == served;
      later := [];
      NoneMore(Applied(served));
    } else {
      var before, s := served[..|served| - 1], served[|served| - 1];
      PrefixOfPrefix(served, n, |served| - 1);
      ConsecutivePrefix(base, served, |served| - 1);
      var l := AppliedSplits(base, before, n);
      later := l + Effect(s);
      SplitsStep(base, served, n, l);
    }
  }

  lemma SplitsStep(base: nat, served: seq<Served>, n: nat, l: seq<Numbered>)
    requires Consecutive(base, served) && n < |served|
    requires Applied(served[..|served| - 1]) == Applied(served[..n]) + l
    requires Between(l, Through(base, served[..n]), Through(base, served[..|served| - 1]))
    ensures var later := l + Effect(served[|served| - 1]);
      && Applied(served) == Applied(served[..n]) + later
      && Between(later, Through(base, served[..n]), Through(base, served))
  {
    var before, s := served[..|served| - 1], served[|served| - 1];
    PrefixOfPrefix(served, n, |served| - 1);
    ThroughGrows(base, before, n);
    LastOff(served);
    assert StartsNext(base, served, |before|);
    SplitsMore(base, before, s, Applied(served[..n]), l, Through(base, served[..n]));
  }

  lemma SplitsMore(base: nat, before: seq<Served>, s: Served, seen: seq<Numbered>, later: seq<Numbered>, lo: nat)
    requires Applied(before) == seen + later && Between(later, lo, Through(base, before))
    requires lo <= Through(base, before) && s.first == Through(base, before) + 1
    ensures Applied(before + [s]) == seen + (later + Effect(s))
    ensures Between(later + Effect(s), lo, Through(base, before + [s]))
  {
    ServedMore(base, before, s);
    Regroup3(seen, later, Effect(s));
    EffectNumbers(s);
    BetweenAppend(later, Effect(s), lo, Through(base, before), Through(base, before + [s]));
  }

  lemma EffectNumbers(s: Served)
    requires s.first > 0
    ensures Between(Effect(s), s.first - 1, s.first - 1 + Used(s))
  {
  }

  lemma ConsecutivePrefix(base: nat, served: seq<Served>, n: nat)
    requires Consecutive(base, served) && n <= |served|
    ensures Consecutive(base, served[..n])
  {
    forall i | 0 <= i < n ensures StartsNext(base, served[..n], i) {
      assert served[..n][..i] == served[..i];
      assert StartsNext(base, served, i);
    }
  }

  ghost predicate Increasing(s: seq<Numbered>) {
    forall i, j | 0 <= i < j < |s| :: s[i].sequence < s[j].sequence
  }

  /** No number is used for two updates, and later calls have higher ones. */
  lemma {:induction false} AppliedIncreases(base: nat, served: seq<Served>)
    requires Consecutive(base, served)
    ensures Increasing(Applied(served))
    ensures Between(Applied(served), base, Through(base, served))
    decreases |served|
  {
    if served != [] {
      var before, s := served[..|served| - 1], served[|served| - 1];
      ConsecutivePrefix(base, served, |served| - 1);
      AppliedIncreases(base, before);
      assert StartsNext(base, served, |before|);
      EffectNumbers(s);
      ThroughGrows(base, before, 0);
      BetweenAppend(Applied(before), Effect(s), base, Through(base, before), Through(base, served));
    }
  }

  /** What a memtable was given so far: all of the served calls, and numbers beyond `lastSequence`. */
  lemma MemSplits(st: State)
    requires Inv(st)
    ensures st.mem == Applied(st.served) + Partial(st)
    ensures forall x | x in Partial(st) :: x.sequence > st.lastSequence
    ensures Increasing(st.mem)
  {
    AppliedIncreases(st.base, st.served);
  }

  /**
   A snapshot taken from `LastSequence` at any moment, also while a group is being inserted, sees exactly
   the updates of the calls served before it: each batch wholly or not at all.
  */
  lemma SnapshotAtomic(st: State, k: nat) returns (later: seq<Numbered>)
    requires Inv(st) && k < |st.snapshots|
    ensures st.snapshots[k].cut <= |st.served|
    ensures st.mem == Applied(st.served[..st.snapshots[k].cut]) + later
    ensures forall x | x in Applied(st.served[..st.snapshots[k].cut]) :: x.sequence <= st.snapshots[k].sequence
    ensures forall x | x in later :: x.sequence > st.snapshots[k].sequence
  {
    var s := st.snapshots[k];
    assert IsCut(st.base, st.served, s);
    ConsecutivePrefix(st.base, st.served, s.cut);
    AppliedIncreases(st.base, st.served[..s.cut]);
    ThroughGrows(st.base, st.served, s.cut);
    var l := AppliedSplits(st.base, st.served, s.cut);
    MemSplits(st);
    later := l + Partial(st);
    Regroup3(Applied(st.served[..s.cut]), l, Partial(st));
  }

  /** What is served, snapshotted or inserted stays so. */
  lemma NextGrows(st: State, step: Step)
    requires Enabled(st, step)
    ensures var st' := After(st, step);
      st.served <= st'.served && st.snapshots <= st'.snapshots && st.mem <= st'.mem && st.log <= st'.log
  {
  }

  lemma {:induction false} RunGrows(run: seq<State>, steps: seq<Step>, i: nat, j: nat)
    requires IsRun(run, steps) && i <= j < |run|
    ensures run[i].served <= run[j].served && run[i].snapshots <= run[j].snapshots && run[i].mem <= run[j].mem
    decreases j
  {
    if i < j {
      RunGrows(run, steps, i, j - 1);
      assert Moves(run[j - 1], steps[j - 1], run[j]);
      NextGrows(run[j - 1], steps[j - 1]);
    }
  }

  /** Inserts made after a snapshot was taken have higher numbers: what it sees never changes. */
  lemma SnapshotStable(run: seq<State>, steps: seq<Step>, i: nat, j: nat, k: nat)
    requires IsRun(run, steps) && Init(run[0]) && i <= j < |run| && k < |run[i].snapshots|
    ensures run[i].mem <= run[j].mem
    ensures forall x | x in run[j].mem[|run[i].mem|..] :: x.sequence > run[i].snapshots[k].sequence
  {
    RunInv(run, steps, i);
    RunInv(run, steps, j);
    RunGrows(run, steps, i, j);
    LaterNumbers(run[i], run[j], k);
  }

  lemma LaterNumbers(st: State, st': State, k: nat)
    requires Inv(st) && Inv(st') && k < |st.snapshots|
    requires st.served <= st'.served && st.snapshots <= st'.snapshots && st.mem <= st'.mem
    ensures forall x | x in st'.mem[|st.mem|..] :: x.sequence > st.snapshots[k].sequence
  {
    var cut := st.snapshots[k].cut;
    var before := SnapshotAtomic(st, k);
    var after := SnapshotAtomic(st', k);
    assert st'.snapshots[k] == st.snapshots[k];
    assert st'.served[..|st.served|] == st.served;
    PrefixOfPrefix(st'.served, cut, |st.served|);
    LaterPart(st.mem, st'.mem, Applied(st.served[..cut]), before, after);
  }

  lemma LaterPart<T>(m: seq<T>, m': seq<T>, seen: seq<T>, before: seq<T>, after: seq<T>)
    requires m == seen + before && m' == seen + after && m <= m'
    ensures forall x | x in m'[|m|..] :: x in after
  {
    forall x | x in m'[|m|..] ensures x in after {
      var n :| |m| <= n < |m'| && m'[n] == x;
      assert m'[n] == after[n - |seen|];
    }
  }

  /** The updates of a committed call are together in the memtable, after those of all calls before it. */
  lemma CallApplied(st: State, n: nat) returns (later: seq<Numbered>)
    requires Inv(st) && n < |st.served|
    ensures st.mem == Applied(st.served[..n]) + (Effect(st.served[n]) + later)
  {
    var l := AppliedSplits(st.base, st.served, n + 1);
    PrefixOfPrefix(st.served, n, n + 1);
    later := l + Partial(st);
    Regroup3(Applied(st.served[..n]) + Effect(st.served[n]), l, Partial(st));
    Regroup3(Applied(st.served[..n]), Effect(st.served[n]), later);
  }

  /** What holds of every served call in every state of every run. */
  lemma RunGuarantees(run: seq<State>, steps: seq<Step>, i: nat, n: nat) returns (later: seq<Numbered>)
    requires IsRun(run, steps) && Init(run[0]) && i < |run| && n < |run[i].served|
    ensures var st, s := run[i], run[i].served[n];
      && Increasing(st.mem)
      && s.w.id == n && n in st.awake
      && s.first == Through(st.base, st.served[..n]) + 1
      && st.mem == Applied(st.served[..n]) + (Effect(s) + later)
      && Recorded(st.log, st.durable, s)
  {
    RunInv(run, steps, i);
    MemSplits(run[i]);
    later := CallApplied(run[i], n);
    assert Recorded(run[i].log, run[i].durable, run[i].served[n]);
    assert StartsNext(run[i].base, run[i].served, n);
  }

  // ---------- after an error ----------

  /** Log, memtable and files are left alone, and whoever is served since is refused. */
  ghost predicate OnlyRefused(st: State, st': State) {
    && st'.mem == st.mem && st'.log == st.log && st'.durable == st.durable && st'.logFile == st.logFile
    && st'.retired == st.retired && st'.lastSequence == st.lastSequence && st.served <= st'.served
    && forall n | |st.served| <= n < |st'.served| :: st'.served[n].outcome.Refused?
  }

  ghost predicate Stopped(st: State) {
    st.bgError && st.lead.Idle?
  }

  lemma StaysStopped(st: State, step: Step)
    requires Stopped(st) && Enabled(st, step)
    ensures Stopped(After(st, step)) && OnlyRefused(st, After(st, step))
  {
  }

  lemma StillRefused(a: State, b: State, c: State)
    requires OnlyRefused(a, b) && OnlyRefused(b, c)
    ensures OnlyRefused(a, c)
  {
    forall n | |a.served| <= n < |c.served| ensures c.served[n].outcome.Refused? {
      assert n < |b.served| ==> c.served[n] == b.served[n];
    }
  }

  lemma {:induction false} AfterError(run: seq<State>, steps: seq<Step>, i: nat, j: nat)
    requires IsRun(run, steps) && i <= j < |run| && Stopped(run[i])
    ensures Stopped(run[j]) && OnlyRefused(run[i], run[j])
    decreases j
  {
    if i < j {
      AfterError(run, steps, i, j - 1);
      assert Moves(run[j - 1], steps[j - 1], run[j]);
      StaysStopped(run[j - 1], steps[j - 1]);
      StillRefused(run[i], run[j - 1], run[j]);
    }
  }

  /**
   A group whose record is in the log but could not be synced is the last: its calls fail, and every later call is
   refused, so that nothing is written behind a record of which it is not known whether it will be there.
  */
  lemma FailedSyncIsLast(run: seq<State>, steps: seq<Step>, i: nat, j: nat)
    requires IsRun(run, steps) && 0 < i <= j < |run| && steps[i - 1] == Finish
    requires run[i - 1].lead.Leading? && run[i - 1].lead.failed && run[i - 1].lead.logged
    ensures OnlyRefused(run[i], run[j]) && run[i].log == run[i - 1].log && run[i].mem == run[i - 1].mem
    ensures forall n | |run[i - 1].served| <= n < |run[i].served| :: run[i].served[n].outcome.Failed?
  {
    assert Moves(run[i - 1], steps[i - 1], run[i]);
    AfterError(run, steps, i, j);
  }

  // ---------- null batches and memtable switches ----------

  /** What call `n` asked for by a null batch: all updates before it are out of the memtable and the log file in use. */
  ghost predicate SetApart(st: State, n: nat)
    requires n < |st.served|
  {
    && |Applied(st.served[..n])| <= st.retired
    && st.served[n].record <= |st.log| && forall r | 0 <= r < st.served[n].record :: st.log[r].file < st.logFile
  }

  /** Memtables and log files are switched between groups only; a forced call has left everything before it behind. */
  ghost predicate SwitchesOk(st: State) {
    && st.retired <= |st.mem| && (st.lead.Leading? ==> st.retired <= |Applied(st.served)|)
    && (forall r | 0 <= r < |st.log| :: st.log[r].file <= st.logFile)
    && (forall n {:trigger SetApart(st, n)} | 0 <= n < |st.served| && st.served[n].outcome.Forced? :: SetApart(st, n))
  }

  lemma StillApart(st: State, st': State, n: nat)
    requires n < |st.served| && SetApart(st, n) && st.served <= st'.served && st.log <= st'.log
    requires st.retired <= st'.retired && st.logFile <= st'.logFile
    ensures SetApart(st', n)
  {
    assert st'.served[..n] == st.served[..n];
  }

  /** Calls served without a switch of their own. */
  lemma SwitchesKept(st: State, st': State)
    requires SwitchesOk(st) && st.served <= st'.served && st.log <= st'.log
    requires st.retired <= st'.retired && st.logFile <= st'.logFile
    requires st'.retired <= |st'.mem| && (st'.lead.Leading? ==> st'.retired <= |Applied(st'.served)|)
    requires forall r | |st.log| <= r < |st'.log| :: st'.log[r].file <= st'.logFile
    requires forall n | |st.served| <= n < |st'.served| :: !st'.served[n].outcome.Forced?
    ensures SwitchesOk(st')
  {
    forall n | 0 <= n < |st'.served| && st'.served[n].outcome.Forced? ensures SetApart(st', n) {
      assert st'.served[n] == st.served[n];
      StillApart(st, st', n);
    }
    forall r | 0 <= r < |st'.log| ensures st'.log[r].file <= st'.logFile {
      assert r < |st.log| ==> st'.log[r] == st.log[r];
    }
  }

  lemma ForceSwitches(st: State)
    requires Inv(st) && SwitchesOk(st) && Enabled(st, Force)
    ensures SwitchesOk(After(st, Force))
  {
    var st' := After(st, Force);
    assert st.mem == Applied(st.served) + [];
    forall n | 0 <= n < |st'.served| && st'.served[n].outcome.Forced? ensures SetApart(st', n) {
      if n < |st.served| {
        assert st'.served[n] == st.served[n];
        StillApart(st, st', n);
      } else {
        assert st'.served[..n] == st.served;
      }
    }
  }

  lemma LeadSwitches(st: State, size: nat)
    requires MemOk(st) && SwitchesOk(st) && Enabled(st, Step.Lead(size))
    ensures SwitchesOk(After(st, Step.Lead(size)))
  {
    assert st.mem == Applied(st.served) + [];
    SwitchesKept(st, After(st, Step.Lead(size)));
  }

  lemma AppendSwitches(st: State, ok: bool)
    requires SwitchesOk(st) && Enabled(st, Append(ok))
    ensures SwitchesOk(After(st, Append(ok)))
  {
    SwitchesKept(st, After(st, Append(ok)));
  }

  lemma InsertSwitches(st: State)
    requires SwitchesOk(st) && Enabled(st, Insert)
    ensures SwitchesOk(After(st, Insert))
  {
    SwitchesKept(st, After(st, Insert));
  }

  lemma FinishSwitches(st: State)
    requires SwitchesOk(st) && Enabled(st, Finish)
    ensures SwitchesOk(After(st, Finish))
  {
    SwitchesKept(st, After(st, Finish));
  }

  lemma HeadSwitches(st: State, step: Step)
    requires SwitchesOk(st) && Enabled(st, step) && (step.SwitchLog? || step.Refuse?)
    ensures SwitchesOk(After(st, step))
  {
    SwitchesKept(st, After(st, step));
  }

  lemma AsideSwitches(st: State, step: Step)
    requires SwitchesOk(st) && Enabled(st, step)
    requires step.Enqueue? || step.Sleep? || step.Wake? || step.Sync? || step.TakeSnapshot? || step.BackgroundError?
    ensures SwitchesOk(After(st, step))
  {
    SwitchesKept(st, After(st, step));
  }

  lemma NextSwitches(st: State, step: Step)
    requires Inv(st) && SwitchesOk(st) && Enabled(st, step)
    ensures SwitchesOk(After(st, step))
  {
    match step
    case Force => ForceSwitches(st);
    case SwitchLog => HeadSwitches(st, step);
    case Refuse => HeadSwitches(st, step);
    case Lead(size) => LeadSwitches(st, size);
    case Append(ok) => AppendSwitches(st, ok);
    case Insert => InsertSwitches(st);
    case Finish => FinishSwitches(st);
    case _ => AsideSwitches(st, step);
  }

  lemma {:induction false} RunSwitches(run: seq<State>, steps: seq<Step>, i: nat)
    requires IsRun(run, steps) && Init(run[0]) && i < |run|
    ensures Inv(run[i]) && SwitchesOk(run[i])
  {
    if i == 0 {
      InitInv(run[0]);
    } else {
      RunSwitches(run, steps, i - 1);
      assert Moves(run[i - 1], steps[i - 1], run[i]);
      NextInv(run[i - 1], steps[i - 1]);
      NextSwitches(run[i - 1], steps[i - 1]);
    }
  }

  /** The write call `n`, served or queued. */
  function CallAt(st: State, n: nat): Writer
    requires n < |st.served| + |st.queue|
  {
    if n < |st.served| then st.served[n].w else st.queue[n - |st.served|]
  }

  ghost predicate IsNull(st: State, n: nat) {
    n < |st.served| + |st.queue| ==> CallAt(st, n).batch.None?
  }

  lemma NextCalls(st: State, step: Step, n: nat)
    requires LeadOk(st) && Enabled(st, step) && n < |st.served| + |st.queue|
    ensures var st' := After(st, step); n < |st'.served| + |st'.queue| && CallAt(st', n) == CallAt(st, n)
  {
  }

  /** A new log file and memtable while call `n` is at the head of the queue. */
  ghost predicate SwitchesFor(st: State, st': State, n: nat) {
    st.queue != [] && st.queue[0].id == n && st'.logFile != st.logFile && st'.retired == |st'.mem|
  }

  ghost predicate Takes(st: State, step: Step, n: nat) {
    step.Finish? && st.lead.Leading? && st.lead.size <= |st.queue| && n in Ids(st.queue[..st.lead.size])
  }

  ghost predicate Refuses(st: State, step: Step, n: nat) {
    step.Refuse? && st.queue != [] && st.queue[0].id == n
  }

  ghost predicate SwitchedFor(run: seq<State>, i: nat, n: nat)
    requires i < |run|
  {
    exists k :: 0 <= k < i && SwitchesFor(run[k], run[k + 1], n)
  }

  ghost predicate TakenInto(run: seq<State>, steps: seq<Step>, i: nat, n: nat)
    requires i <= |steps| && |run| == |steps| + 1
  {
    exists k :: 0 <= k < i && Takes(run[k], steps[k], n)
  }

  ghost predicate RefusedAt(run: seq<State>, steps: seq<Step>, i: nat, n: nat)
    requires i <= |steps| && |run| == |steps| + 1
  {
    exists k :: 0 <= k < i && Refuses(run[k], steps[k], n)
  }

  /** A step switches for, takes or refuses a null call exactly if it serves it, and with that outcome. */
  lemma StepServes(st: State, step: Step, n: nat)
    requires Inv(st) && Enabled(st, step) && IsNull(st, n)
    ensures var st' := After(st, step);
      && (SwitchesFor(st, st', n) <==> |st.served| <= n < |st'.served| && st'.served[n].outcome.Forced?)
      && (Refuses(st, step, n) <==> |st.served| <= n < |st'.served| && st'.served[n].outcome.Refused?)
      && (Takes(st, step, n) <==>
            |st.served| <= n < |st'.served| && (st'.served[n].outcome.Committed? || st'.served[n].outcome.Failed?))
  {
    if step.Finish? {
      GroupIds(st, n);
    }
  }

  lemma GroupIds(st: State, n: nat)
    requires Ordered(st) && LeadOk(st) && st.lead.Leading?
    ensures n in Ids(st.queue[..st.lead.size]) <==> |st.served| <= n < |st.served| + st.lead.size
  {
    var group := st.queue[..st.lead.size];
    if |st.served| <= n < |st.served| + st.lead.size {
      assert group[n - |st.served|].id == n;
    }
  }

  lemma OneMore(run: seq<State>, steps: seq<Step>, i: nat, n: nat)
    requires 0 < i <= |steps| && |run| == |steps| + 1
    ensures SwitchedFor(run, i, n) <==> SwitchedFor(run, i - 1, n) || SwitchesFor(run[i - 1], run[i], n)
    ensures RefusedAt(run, steps, i, n) <==> RefusedAt(run, steps, i - 1, n) || Refuses(run[i - 1], steps[i - 1], n)
    ensures TakenInto(run, steps, i, n) <==> TakenInto(run, steps, i - 1, n) || Takes(run[i - 1], steps[i - 1], n)
  {
    assert run[i - 1 + 1] == run[i];
  }

  ghost predicate ServedAs(st: State, n: nat, switched: bool, refused: bool, taken: bool) {
    && (switched <==> n < |st.served| && st.served[n].outcome.Forced?)
    && (refused <==> n < |st.served| && st.served[n].outcome.Refused?)
    && (taken <==> n < |st.served| && (st.served[n].outcome.Committed? || st.served[n].outcome.Failed?))
  }

  lemma NextServes(st: State, step: Step, st': State, n: nat, switched: bool, refused: bool, taken: bool)
    requires Inv(st) && Moves(st, step, st') && IsNull(st, n) && ServedAs(st, n, switched, refused, taken)
    ensures ServedAs(st', n, switched || SwitchesFor(st, st', n), refused || Refuses(st, step, n),
                     taken || Takes(st, step, n))
  {
    StepServes(st, step, n);
    NextGrows(st, step);
    assert n < |st.served| ==> st'.served[n] == st.served[n];
  }

  ghost predicate ToldByOutcome(run: seq<State>, steps: seq<Step>, i: nat, n: nat)
    requires i <= |steps| && |run| == |steps| + 1
  {
    ServedAs(run[i], n, SwitchedFor(run, i, n), RefusedAt(run, steps, i, n), TakenInto(run, steps, i, n))
  }

  lemma NextTold(run: seq<State>, steps: seq<Step>, i: nat, n: nat)
    requires 0 < i <= |steps| && |run| == |steps| + 1
    requires Inv(run[i - 1]) && Moves(run[i - 1], steps[i - 1], run[i]) && IsNull(run[i - 1], n)
    requires ToldByOutcome(run, steps, i - 1, n)
    ensures ToldByOutcome(run, steps, i, n)
  {
    NextServes(run[i - 1], steps[i - 1], run[i], n, SwitchedFor(run, i - 1, n), RefusedAt(run, steps, i - 1, n),
               TakenInto(run, steps, i - 1, n));
    OneMore(run, steps, i, n);
  }

  /** What happened to a null call so far is told by its outcome. */
  lemma {:induction false} RunServes(run: seq<State>, steps: seq<Step>, i: nat, n: nat)
    requires IsRun(run, steps) && Init(run[0]) && i < |run| && IsNull(run[i], n)
    ensures ToldByOutcome(run, steps, i, n)
  {
    if i > 0 {
      assert Moves(run[i - 1], steps[i - 1], run[i]);
      RunInv(run, steps, i - 1);
      WasNull(run[i - 1], steps[i - 1], n);
      RunServes(run, steps, i - 1, n);
      NextTold(run, steps, i, n);
    }
  }

  lemma WasNull(st: State, step: Step, n: nat)
    requires LeadOk(st) && Enabled(st, step) && IsNull(After(st, step), n)
    ensures IsNull(st, n)
  {
    if n < |st.served| + |st.queue| {
      NextCalls(st, step, n);
    }
  }

  lemma {:induction false} NullBefore(run: seq<State>, steps: seq<Step>, k: nat, i: nat, n: nat)
    requires IsRun(run, steps) && Init(run[0]) && k <= i < |run| && IsNull(run[i], n)
    ensures IsNull(run[k], n)
    decreases i
  {
    if k < i {
      assert Moves(run[i - 1], steps[i - 1], run[i]);
      RunInv(run, steps, i - 1);
      WasNull(run[i - 1], steps[i - 1], n);
      NullBefore(run, steps, k, i - 1, n);
    }
  }

  /** The group being written is the one led by the step that began it, with the same calls. */
  ghost predicate LedBy(st: State, step: Step, now: State) {
    && now.lead.Leading? && step == Step.Lead(now.lead.size) && st.served == now.served && st.queue <= now.queue
  }

  lemma GroupStays(st: State, step: Step)
    requires Enabled(st, step) && After(st, step).lead.Leading?
    ensures var st' := After(st, step); if step.Lead? then LedBy(st, step, st') else
      st.lead.Leading? && st'.lead.size == st.lead.size && st'.served == st.served && st.queue <= st'.queue
  {
  }

  lemma {:induction false} GroupBegan(run: seq<State>, steps: seq<Step>, i: nat) returns (k: nat)
    requires IsRun(run, steps) && i < |run| && Init(run[0]) && run[i].lead.Leading?
    ensures k < i && LedBy(run[k], steps[k], run[i])
  {
    var st, step := run[i - 1], steps[i - 1];
    assert Moves(st, step, run[i]);
    GroupStays(st, step);
    if step.Lead? {
      k := i - 1;
    } else {
      k := GroupBegan(run, steps, i - 1);
    }
  }

  ghost predicate InGroup(st: State, n: nat, size: nat) {
    st.lead.Leading? && st.lead.size == size && |st.served| <= n < |st.served| + size
  }

  ghost predicate ServedInGroup(st: State, n: nat) {
    n < |st.served| && (st.served[n].outcome.Committed? || st.served[n].outcome.Failed?)
  }

  ghost predicate StaysTogether(st: State, n: nat, size: nat) {
    InGroup(st, n, size) || ServedInGroup(st, n)
  }

  lemma GroupOrServed(st: State, step: Step, n: nat, size: nat)
    requires Enabled(st, step) && StaysTogether(st, n, size)
    ensures StaysTogether(After(st, step), n, size)
  {
  }

  lemma GroupStarts(st: State, step: Step, st': State, n: nat, size: nat)
    requires Moves(st, step, st') && step == Step.Lead(size) && |st.served| <= n < |st.served| + size
    ensures StaysTogether(st', n, size)
  {
  }

  lemma GroupGoesOn(st: State, step: Step, st': State, n: nat, size: nat)
    requires Moves(st, step, st') && StaysTogether(st, n, size)
    ensures StaysTogether(st', n, size)
  {
    GroupOrServed(st, step, n, size);
  }

  /** Once led, a group stays until all of it is served together. */
  lemma {:induction false} GroupEnds(run: seq<State>, steps: seq<Step>, k: nat, i: nat, n: nat, size: nat)
    requires IsRun(run, steps) && k < i < |run| && steps[k] == Step.Lead(size)
    requires |run[k].served| <= n < |run[k].served| + size
    ensures StaysTogether(run[i], n, size)
    decreases i
  {
    assert Moves(run[i - 1], steps[i - 1], run[i]);
    if k < i - 1 {
      GroupEnds(run, steps, k, i - 1, n, size);
      GroupGoesOn(run[i - 1], steps[i - 1], run[i], n, size);
    } else {
      GroupStarts(run[k], steps[k], run[i], n, size);
    }
  }

  /** A leader forms its group while call `n` is behind it and free to join. */
  ghost predicate LedAlong(st: State, step: Step, n: nat) {
    step.Lead? && |st.served| < n < |st.served| + |st.queue| && NullJoins(st.queue, n - |st.served|)
  }

  lemma LeadTakes(st: State, size: nat, n: nat)
    requires Enabled(st, Step.Lead(size)) && IsNull(st, n)
    ensures LedAlong(st, Step.Lead(size), n) <==> |st.served| <= n < |st.served| + size
  {
    if |st.served| <= n < |st.served| + |st.queue| {
      assert n != |st.served|;
      NullBatchJoins(st.queue, size, n - |st.served|);
    }
  }

  lemma TakenWasLed(run: seq<State>, steps: seq<Step>, i: nat, n: nat, t: nat) returns (k: nat)
    requires IsRun(run, steps) && Init(run[0]) && i < |run| && IsNull(run[i], n)
    requires t < i && Takes(run[t], steps[t], n)
    ensures k < i && LedAlong(run[k], steps[k], n)
  {
    RunInv(run, steps, t);
    GroupIds(run[t], n);
    k := GroupBegan(run, steps, t);
    assert Moves(run[k], steps[k], run[k + 1]);
    NullBefore(run, steps, k, i, n);
    LeadTakes(run[k], run[t].lead.size, n);
  }

  lemma LedIsTaken(run: seq<State>, steps: seq<Step>, i: nat, n: nat, k: nat)
    requires IsRun(run, steps) && Init(run[0]) && i < |run| && IsNull(run[i], n) && n < |run[i].served|
    requires k < i && LedAlong(run[k], steps[k], n)
    ensures TakenInto(run, steps, i, n)
  {
    assert Moves(run[k], steps[k], run[k + 1]);
    NullBefore(run, steps, k, i, n);
    LeadTakes(run[k], steps[k].size, n);
    GroupEnds(run, steps, k, i, n, steps[k].size);
    RunServes(run, steps, i, n);
  }

  /**
   When a manual compaction's null batch gets the memtable switch it asks for: exactly if it is not refused and
   no leader takes it along, which a leader does exactly if the call is behind it and free to join.  After its
   switch everything written before it is set apart.
  */
  lemma OwnSwitch(run: seq<State>, steps: seq<Step>, i: nat, n: nat)
    requires IsRun(run, steps) && Init(run[0]) && i < |run|
    requires n < |run[i].served| && run[i].served[n].w.batch.None?
    ensures SwitchedFor(run, i, n) <==> !TakenInto(run, steps, i, n) && !RefusedAt(run, steps, i, n)
    ensures TakenInto(run, steps, i, n) <==> exists k :: 0 <= k < i && LedAlong(run[k], steps[k], n)
    ensures SwitchedFor(run, i, n) ==> SetApart(run[i], n)
  {
    RunServes(run, steps, i, n);
    RunSwitches(run, steps, i);
    if t :| 0 <= t < i && Takes(run[t], steps[t], n) {
      var k := TakenWasLed(run, steps, i, n, t);
    }
    if k :| 0 <= k < i && LedAlong(run[k], steps[k], n) {
      LedIsTaken(run, steps, i, n, k);
    }
  }

  /** The updates of a group that was written are still in the memtable in use when its calls return. */
  lemma TakenStays(st: State)
    requires Inv(st) && SwitchesOk(st) && Enabled(st, Finish) && !st.lead.failed
    ensures var st', before := After(st, Finish), |Applied(st.served)|;
      && st'.retired <= before <= |st'.mem| && st'.mem[before..] == NumberFrom(st.lead.first, FlatGroup(st))
      && st'.logFile == st.logFile
  {
    PartialAtEnd(st);
  }

  /** The steps by which a write takes a null call along. */
  function TakenSteps(op: Op): seq<Step> {
    [Enqueue(Some([op]), false), Enqueue(None, false), Step.Lead(2), Append(true), Insert, Finish]
  }

  /** A write and a null call queue up, and the write leads a group of both. */
  lemma TakenLed(st: State, op: Op) returns (a: State, b: State, c: State)
    requires Init(st) && !st.bgError
    ensures Moves(st, Enqueue(Some([op]), false), a) && Moves(a, Enqueue(None, false), b) && Moves(b, Step.Lead(2), c)
    ensures c.queue == [Writer(0, Some([op]), false), Writer(1, None, false)]
    ensures c == st.(queue := c.queue, lead := Leading(2, st.base + 1, false, false, 0, false), awake := c.awake)
  {
    a := After(st, Enqueue(Some([op]), false));
    assert a.queue == [Writer(0, Some([op]), false)];
    b := After(a, Enqueue(None, false));
    assert b.queue == [Writer(0, Some([op]), false), Writer(1, None, false)];
    assert FitsLimit(b.queue, 1);
    c := After(b, Step.Lead(2));
  }

  lemma FlatPair(op: Op, w0: Writer, w1: Writer)
    requires w0.batch == Some([op]) && w1.batch == None
    ensures Flat([w0]) == [op] && Flat([w0, w1]) == [op]
  {
    FlatMore([], w0);
    FlatMore([w0], w1);
    assert [] + [w0] == [w0] && [w0] + [w1] == [w0, w1];
  }

  lemma TakenWritten(c: State, op: Op) returns (d: State, e: State)
    requires c.queue == [Writer(0, Some([op]), false), Writer(1, None, false)] && c.mem == []
    requires c.lead == Leading(2, c.lastSequence + 1, false, false, 0, false)
    ensures Moves(c, Append(true), d) && Moves(d, Insert, e) && FlatGroup(e) == [op] && e.log != []
    ensures e == c.(log := e.log, mem := [Numbered(c.lastSequence + 1, op)],
                    lead := Leading(2, c.lastSequence + 1, true, false, 1, false))
  {
    FlatPair(op, c.queue[0], c.queue[1]);
    assert c.queue[..2] == c.queue;
    d := After(c, Append(true));
    e := After(d, Insert);
  }

  lemma TakenServed(e: State, op: Op) returns (f: State)
    requires e.queue == [Writer(0, Some([op]), false), Writer(1, None, false)] && e.served == [] && e.retired == 0
    requires e.lead == Leading(2, e.lastSequence + 1, true, false, 1, false) && FlatGroup(e) == [op]
    ensures Moves(e, Finish, f) && f.mem == e.mem && f.logFile == e.logFile && f.retired == 0
    ensures |f.served| == 2 && f.served[1].w.batch.None? && f.served[1].outcome.Committed?
    ensures !SetApart(f, 1)
  {
    f := After(e, Finish);
    assert f.served[..1] == [f.served[0]] && f.served[..1][..0] == [];
    assert Applied(f.served[..1]) == [] + Effect(f.served[0]);
  }

  /**
   The null call returns as committed, and the write before it is still in the memtable and log file it was
   put into.
  */
  lemma NoSwitch(st: State, op: Op) returns (run: seq<State>)
    requires Init(st) && !st.bgError
    ensures IsRun(run, TakenSteps(op)) && run[0] == st
    ensures var end := run[6];
      && |end.served| == 2 && end.served[1].w.batch.None? && end.served[1].outcome.Committed?
      && end.mem == [Numbered(st.base + 1, op)] && end.retired == 0 && end.logFile == st.logFile
      && !SwitchedFor(run, 6, 1) && !SetApart(end, 1)
  {
    var a, b, c := TakenLed(st, op);
    var d, e := TakenWritten(c, op);
    var f := TakenServed(e, op);
    run := [st, a, b, c, d, e, f];
    SixMoves(run, TakenSteps(op));
    RunServes(run, TakenSteps(op), 6, 1);
  }

  lemma SixMoves(run: seq<State>, steps: seq<Step>)
    requires |steps| == 6 && |run| == 7
    requires Moves(run[0], steps[0], run[1]) && Moves(run[1], steps[1], run[2]) && Moves(run[2], steps[2], run[3])
    requires Moves(run[3], steps[3], run[4]) && Moves(run[4], steps[4], run[5]) && Moves(run[5], steps[5], run[6])
    ensures IsRun(run, steps)
  {
    forall i | 0 <= i < 6 ensures Moves(run[i], steps[i], run[i + 1]) {
      match i
      case 0 =>
      case 1 =>
      case 2 =>
      case 3 =>
      case 4 =>
      case _ => assert i == 5;
    }
  }
}
