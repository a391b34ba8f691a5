/**
 The store as a state machine (`db/db_impl.cc`): writes, memtable switches, flushes, trivial moves,
 merge compactions and snapshots, each an atomic step, and what every run of them guarantees.
*/
module Database {
  import opened InternalKeys
  import opened FlatMap
  import opened Runs
  import opened Versions
  import opened InputSelection
  import opened OutputFiles
  import opened Compactions
  import opened Install

  datatype Imm = NoImm | Imm(entries: seq<Entry>)

  /** `written` is the specification: every entry ever written, with nothing forgotten. */
  datatype State = State(
    mem: seq<Entry>,
    imm: Imm,
    version: Version,
    lastSequence: nat,
    snapshots: seq<nat>,
    nextFile: nat,
    written: set<Entry>)

  datatype Op = Op(user: UserKey, kind: ValueType, value: Bytes)

  datatype Step =
    | Write(batch: seq<Op>)
    | SwitchMemTable
    | Flush(level: nat, file: File)
    | DropEmptyImm
    | Move(level: nat, file: File)
    | Compact(level: nat, inputs0: seq<File>, inputs1: seq<File>, outs: seq<File>, cutting: Cutting)
    | GetSnapshot
    | ReleaseSnapshot(index: nat)

  ghost function ImmContent(i: Imm): set<Entry> {
    if i.Imm? then Elements(i.entries) else {}
  }

  /** Everything the store currently holds. */
  ghost function Stored(st: State): set<Entry> {
    Elements(st.mem) + ImmContent(st.imm) + AllContent(st.version)
  }

  /** `smallest_snapshot`: the oldest live snapshot, or the last sequence number. */
  function SmallestSnapshot(st: State): nat {
    if st.snapshots == [] then st.lastSequence else st.snapshots[0]
  }

  ghost predicate AllOrdered(v: Version) {
    forall l | 0 <= l < |v| :: Ordered(v[l])
  }

  ghost predicate NumbersBelow(v: Version, n: nat) {
    forall l, f | 0 <= l < |v| && f in v[l] :: f.number < n
  }

  ghost predicate SnapshotsOk(snapshots: seq<nat>, last: nat) {
    && (forall i, j | 0 <= i < j < |snapshots| :: snapshots[i] <= snapshots[j])
    && (forall i | 0 <= i < |snapshots| :: snapshots[i] <= last)
  }

  ghost predicate ByLayer(mem: set<Entry>, imm: set<Entry>, disk: set<Entry>) {
    Newer(mem, imm) && Newer(mem, disk) && Newer(imm, disk)
  }

  ghost predicate WrittenOk(written: set<Entry>, last: nat) {
    && UniqueSequences(written)
    && (forall e | e in written :: e.key.sequence <= last)
    && last < MAX_SEQUENCE
  }

  ghost predicate Inv(st: State) {
    && Sorted(st.mem) && (st.imm.Imm? ==> Sorted(st.imm.entries))
    && DiskOk(st.version, st.nextFile)
    && StoredOk(Elements(st.mem), ImmContent(st.imm), AllContent(st.version), st.written)
    && WrittenOk(st.written, st.lastSequence)
    && SnapshotsOk(st.snapshots, st.lastSequence)
  }

  ghost predicate DiskOk(v: Version, nextFile: nat) {
    VersionOk(v) && AllOrdered(v) && NumbersDistinct(v) && NumbersBelow(v, nextFile)
  }

  ghost predicate StoredOk(mem: set<Entry>, imm: set<Entry>, disk: set<Entry>, written: set<Entry>) {
    ByLayer(mem, imm, disk) && mem + imm + disk <= written
  }

  /** Every live snapshot, and every later sequence number, sees what was written. */
  ghost predicate ReadsOk(st: State) {
    forall u: UserKey :: ReadsOkFor(st, u)
  }

  ghost predicate ReadsOkFor(st: State, u: UserKey) {
    forall s: nat | SmallestSnapshot(st) <= s :: Read(Stored(st), u, s) == Read(st.written, u, s)
  }

  // ---------- steps ----------

  /** The entries a batch becomes: consecutive sequence numbers from `first` on. */
  function BatchEntries(batch: seq<Op>, first: nat): (es: seq<Entry>)
    ensures |es| == |batch|
    ensures forall i | 0 <= i < |es| :: es[i].key.sequence == first + i
  {
    if batch == [] then []
    else [Entry(InternalKey(batch[0].user, first, batch[0].kind), batch[0].value)] + BatchEntries(batch[1..], first + 1)
  }

  ghost predicate WriteStep(st: State, st': State, batch: seq<Op>) {
    && st.lastSequence + |batch| < MAX_SEQUENCE
    && var new_ := Elements(BatchEntries(batch, st.lastSequence + 1));
       && Sorted(st'.mem) && Elements(st'.mem) == Elements(st.mem) + new_
       && st' == st.(mem := st'.mem, lastSequence := st.lastSequence + |batch|, written := st.written + new_)
  }

  ghost predicate SwitchStep(st: State, st': State) {
    st.imm.NoImm? && st' == st.(mem := [], imm := Imm(st.mem))
  }

  ghost predicate FlushStep(st: State, st': State, level: nat, f: File) {
    && st.imm.Imm? && |st.version| == NUM_LEVELS && level < NUM_LEVELS
    && f.Ok() && f.entries == st.imm.entries && f.number == st.nextFile
    && ClearPath(st.version, level, f)
    && Flushed(st.version, level, f, st'.version)
    && st' == st.(imm := NoImm, version := st'.version, nextFile := st.nextFile + 1)
  }

  ghost predicate DropEmptyStep(st: State, st': State) {
    st.imm == Imm([]) && st' == st.(imm := NoImm, nextFile := st.nextFile + 1)
  }

  ghost predicate MoveStep(st: State, st': State, level: nat, f: File) {
    && |st.version| == NUM_LEVELS && level + 1 < NUM_LEVELS
    && PickOk(st.version, level, [f], [])
    && Compacted(st.version, level, [f], [], [f], st'.version)
    && st' == st.(version := st'.version)
  }

  ghost function BaseOf(st: State, level: nat): UserKey -> bool
    requires |st.version| == NUM_LEVELS
  {
    BaseAt(st.version, level)
  }

  ghost predicate CompactStep(st: State, st': State, level: nat, inputs0: seq<File>, inputs1: seq<File>,
                              outs: seq<File>) {
    && |st.version| == NUM_LEVELS && level + 1 < NUM_LEVELS
    && PickOk(st.version, level, inputs0, inputs1)
    && FilesOk(outs) && SortedLevel(outs)
    && (forall k | 0 <= k < |outs| :: outs[k].number == st.nextFile + k)
    && Content(outs) == Kept(Merged(inputs0, inputs1), BaseOf(st, level), SmallestSnapshot(st))
    && Compacted(st.version, level, inputs0, inputs1, outs, st'.version)
    && st' == st.(version := st'.version, nextFile := st.nextFile + |outs|)
  }

  /** The range `SanitizeOptions` clips `max_file_size` to. */
  const MIN_FILE_SIZE: nat := 0x10_0000
  const MAX_FILE_SIZE: nat := 0x4000_0000

  /** The outputs are cut as the size limit and the overlap with the level after next say. */
  ghost predicate CutStep(v: Version, level: nat, inputs0: seq<File>, inputs1: seq<File>, outs: seq<File>, c: Cutting) {
    && |v| == NUM_LEVELS && level + 1 < NUM_LEVELS
    && Sorted(c.merged) && Elements(c.merged) == Merged(inputs0, inputs1)
    && GrandparentsOk(v, level, inputs0, inputs1, c.grandparents)
    && MIN_FILE_SIZE <= c.sizes.maxFileSize <= MAX_FILE_SIZE
    && CutsOk(c, outs)
  }

  ghost predicate SnapshotStep(st: State, st': State) {
    st' == st.(snapshots := st.snapshots + [st.lastSequence])
  }

  ghost predicate ReleaseStep(st: State, st': State, index: nat) {
    && index < |st.snapshots|
    && st' == st.(snapshots := st.snapshots[..index] + st.snapshots[index + 1..])
  }

  ghost predicate Next(st: State, st': State, step: Step) {
    match step
    case Write(batch) => WriteStep(st, st', batch)
    case SwitchMemTable => SwitchStep(st, st')
    case Flush(level, f) => FlushStep(st, st', level, f)
    case DropEmptyImm => DropEmptyStep(st, st')
    case Move(level, f) => MoveStep(st, st', level, f)
    case Compact(level, in0, in1, outs, cutting) =>
      CompactStep(st, st', level, in0, in1, outs) && CutStep(st.version, level, in0, in1, outs, cutting)
    case GetSnapshot => SnapshotStep(st, st')
    case ReleaseSnapshot(i) => ReleaseStep(st, st', i)
  }

  ghost predicate Init(st: State) {
    st == State([], NoImm, seq(NUM_LEVELS, _ => []), 0, [], st.nextFile, {})
  }

  // ---------- set bookkeeping ----------

  /** The entries of the version outside the inputs of a compaction. */
  ghost function Untouched(v: Version, level: nat, inputs0: seq<File>, inputs1: seq<File>): set<Entry>
    requires |v| == NUM_LEVELS && level + 1 < NUM_LEVELS
  {
    set l, f, e | 0 <= l < NUM_LEVELS && f in v[l]
      && !(l == level && f in inputs0) && !(l == level + 1 && f in inputs1) && e in f.entries :: e
  }

  lemma InContent(v: Version, l: nat, f: File, e: Entry)
    requires l < |v| && f in v[l] && e in f.entries
    ensures e in Content(v[l]) && e in AllContent(v)
  {
    assert e in Content(v[l]) && v[l] in v;
  }

  lemma OldContent(v: Version, level: nat, inputs0: seq<File>, inputs1: seq<File>)
    requires |v| == NUM_LEVELS && level + 1 < NUM_LEVELS && PickOk(v, level, inputs0, inputs1)
    ensures AllContent(v) == Untouched(v, level, inputs0, inputs1) + Merged(inputs0, inputs1)
  {
    InputsOfNext(v, level, inputs0, inputs1);
    forall e | e in AllContent(v) ensures e in Untouched(v, level, inputs0, inputs1) + Merged(inputs0, inputs1) {
      var l :| 0 <= l < |v| && e in Content(v[l]);
      var f :| f in v[l] && e in f.entries;
      if l == level && f in inputs0 {
        assert e in Content(inputs0);
      } else if l == level + 1 && f in inputs1 {
        assert e in Content(inputs1);
      } else {
        assert e in Untouched(v, level, inputs0, inputs1);
      }
    }
    forall e | e in Merged(inputs0, inputs1) ensures e in AllContent(v) {
      assert e in Content(v[level]) || e in Content(v[level + 1]);
      assert v[level] in v && v[level + 1] in v;
    }
    forall e | e in Untouched(v, level, inputs0, inputs1) ensures e in AllContent(v) {
      var l, f :| 0 <= l < NUM_LEVELS && f in v[l] && e in f.entries;
      InContent(v, l, f, e);
    }
  }

  lemma NewContent(v: Version, level: nat, inputs0: seq<File>, inputs1: seq<File>, outs: seq<File>, v': Version)
    requires |v| == NUM_LEVELS && level + 1 < NUM_LEVELS
    requires Compacted(v, level, inputs0, inputs1, outs, v')
    ensures AllContent(v') == Untouched(v, level, inputs0, inputs1) + Content(outs)
  {
    forall e | e in AllContent(v') ensures e in Untouched(v, level, inputs0, inputs1) + Content(outs) {
      var l :| 0 <= l < |v'| && e in Content(v'[l]);
      var f :| f in v'[l] && e in f.entries;
      if l == level + 1 && f in outs {
        assert e in Content(outs);
      } else {
        assert f in v[l];
        assert e in Untouched(v, level, inputs0, inputs1);
      }
    }
    forall e | e in Untouched(v, level, inputs0, inputs1) ensures e in AllContent(v') {
      var l, f :| 0 <= l < NUM_LEVELS && f in v[l]
        && !(l == level && f in inputs0) && !(l == level + 1 && f in inputs1) && e in f.entries;
      assert f in v'[l];
      InContent(v', l, f, e);
    }
    forall e | e in Content(outs) ensures e in AllContent(v') {
      var f :| f in outs && e in f.entries;
      assert f in v'[level + 1];
      InContent(v', level + 1, f, e);
    }
  }

  lemma FlushedContent(v: Version, level: nat, f: File, v': Version)
    requires |v| == NUM_LEVELS && level < NUM_LEVELS && Flushed(v, level, f, v')
    ensures AllContent(v') == AllContent(v) + Elements(f.entries)
  {
    forall e | e in AllContent(v') ensures e in AllContent(v) + Elements(f.entries) {
      var l :| 0 <= l < |v'| && e in Content(v'[l]);
      var g :| g in v'[l] && e in g.entries;
      if g in v[l] {
        InContent(v, l, g, e);
      }
    }
    forall e | e in AllContent(v) + Elements(f.entries) ensures e in AllContent(v') {
      if e in AllContent(v) {
        var l :| 0 <= l < |v| && e in Content(v[l]);
        var g :| g in v[l] && e in g.entries;
        assert g in v'[l];
        InContent(v', l, g, e);
      } else {
        assert f in v'[level];
        InContent(v', level, f, e);
      }
    }
  }

  /** No entry is stored in two files. */
  lemma NoEntryTwice(v: Version, l: nat, m: nat, f: File, g: File, e: Entry)
    requires VersionOk(v) && NumbersDistinct(v) && l < NUM_LEVELS && m < NUM_LEVELS
    requires f in v[l] && g in v[m] && e in f.entries && e in g.entries
    ensures l == m && f == g
  {
    InContent(v, l, f, e);
    InContent(v, m, g, e);
    assert e in Elements(f.entries) && e in Elements(g.entries);
    if l != m {
      NeverItself(e);
      if l < m {
        NewerLevels(v, l, m);
      } else {
        NewerLevels(v, m, l);
      }
    } else if f != g {
      if l == 0 {
        assert f.number != g.number;
        assert NewerFile(if f.number > g.number then f else g, if f.number > g.number then g else f);
        NeverItself(e);
      } else {
        TwoOfLevel(v[l], f, g);
        InRange(f, e);
        InRange(g, e);
      }
    }
  }

  lemma NewerLevels(v: Version, l: nat, m: nat)
    requires VersionOk(v) && l < m < NUM_LEVELS
    ensures Newer(Content(v[l]), Content(v[m]))
  {
  }

  lemma UntouchedApart(v: Version, level: nat, inputs0: seq<File>, inputs1: seq<File>)
    requires VersionOk(v) && NumbersDistinct(v) && level + 1 < NUM_LEVELS
    requires (forall f | f in inputs0 :: f in v[level]) && (forall f | f in inputs1 :: f in v[level + 1])
    ensures Untouched(v, level, inputs0, inputs1) !! Merged(inputs0, inputs1)
  {
    forall e | e in Untouched(v, level, inputs0, inputs1) ensures e !in Merged(inputs0, inputs1) {
      var l, f :| 0 <= l < NUM_LEVELS && f in v[l]
        && !(l == level && f in inputs0) && !(l == level + 1 && f in inputs1) && e in f.entries;
      NotMerged(v, level, inputs0, inputs1, l, f, e);
    }
  }

  lemma NotMerged(v: Version, level: nat, inputs0: seq<File>, inputs1: seq<File>, l: nat, f: File, e: Entry)
    requires VersionOk(v) && NumbersDistinct(v) && level + 1 < NUM_LEVELS
    requires (forall f | f in inputs0 :: f in v[level]) && (forall f | f in inputs1 :: f in v[level + 1])
    requires l < NUM_LEVELS && f in v[l] && e in f.entries
    requires !(l == level && f in inputs0) && !(l == level + 1 && f in inputs1)
    ensures e !in Merged(inputs0, inputs1)
  {
    NotInInputs(v, l, f, e, level, inputs0);
    NotInInputs(v, l, f, e, level + 1, inputs1);
  }

  lemma NotInInputs(v: Version, l: nat, f: File, e: Entry, m: nat, inputs: seq<File>)
    requires VersionOk(v) && NumbersDistinct(v) && l < NUM_LEVELS && m < NUM_LEVELS
    requires f in v[l] && e in f.entries && (forall g | g in inputs :: g in v[m])
    requires !(l == m && f in inputs)
    ensures e !in Content(inputs)
  {
    forall g | g in inputs ensures e !in g.entries {
      NotInOther(v, l, m, f, g, e);
    }
  }

  lemma NotInOther(v: Version, l: nat, m: nat, f: File, g: File, e: Entry)
    requires VersionOk(v) && NumbersDistinct(v) && l < NUM_LEVELS && m < NUM_LEVELS
    requires f in v[l] && g in v[m] && e in f.entries && !(l == m && f == g)
    ensures e !in g.entries
  {
    if e in g.entries {
      NoEntryTwice(v, l, m, f, g, e);
    }
  }

  // ---------- the invariant of every run ----------

  lemma InitInv(st: State)
    requires Init(st)
    ensures Inv(st) && ReadsOk(st)
  {
    EmptyDisk(st.version, st.nextFile);
    assert Stored(st) == {};
  }

  lemma EmptyDisk(v: Version, nextFile: nat)
    requires |v| == NUM_LEVELS && forall l | 0 <= l < NUM_LEVELS :: v[l] == []
    ensures DiskOk(v, nextFile) && AllContent(v) == {}
  {
    EmptyVersion(v);
    NothingStored(v);
  }

  lemma EmptyVersion(v: Version)
    requires |v| == NUM_LEVELS && forall l | 0 <= l < NUM_LEVELS :: v[l] == []
    ensures VersionOk(v)
  {
  }

  lemma NothingStored(v: Version)
    requires forall l | 0 <= l < |v| :: v[l] == []
    ensures AllContent(v) == {}
  {
    assert forall fs | fs in v :: fs == [];
  }

  lemma BatchSequences(batch: seq<Op>, last: nat)
    ensures var new_ := Elements(BatchEntries(batch, last + 1));
      && UniqueSequences(new_)
      && forall e | e in new_ :: last < e.key.sequence <= last + |batch|
  {
    var es := BatchEntries(batch, last + 1);
    forall x, y | x in Elements(es) && y in Elements(es) && x.key.sequence == y.key.sequence ensures x == y {
      var i :| 0 <= i < |es| && es[i] == x;
      var j :| 0 <= j < |es| && es[j] == y;
    }
    forall e | e in Elements(es) ensures last < e.key.sequence <= last + |batch| {
      var i :| 0 <= i < |es| && es[i] == e;
    }
  }

  lemma WrittenGrows(written: set<Entry>, new_: set<Entry>, last: nat, last': nat)
    requires WrittenOk(written, last) && UniqueSequences(new_) && last <= last' < MAX_SEQUENCE
    requires forall e | e in new_ :: last < e.key.sequence <= last'
    ensures WrittenOk(written + new_, last')
  {
  }

  lemma LayersGrow(mem: set<Entry>, imm: set<Entry>, disk: set<Entry>, new_: set<Entry>, last: nat)
    requires ByLayer(mem, imm, disk)
    requires forall e | e in imm + disk :: e.key.sequence <= last
    requires forall e | e in new_ :: last < e.key.sequence
    ensures ByLayer(mem + new_, imm, disk)
  {
  }

  lemma LayersShift(mem: set<Entry>, imm: set<Entry>, disk: set<Entry>, disk': set<Entry>, written: set<Entry>)
    requires StoredOk(mem, imm, disk, written) && disk' == disk + imm
    ensures StoredOk(mem, {}, disk', written) && mem + {} + disk' == mem + imm + disk
  {
  }

  lemma LayersSwitch(mem: set<Entry>, disk: set<Entry>, written: set<Entry>)
    requires StoredOk(mem, {}, disk, written)
    ensures StoredOk({}, mem, disk, written) && {} + mem + disk == mem + {} + disk
  {
  }

  lemma LayersShrink(mem: set<Entry>, imm: set<Entry>, disk: set<Entry>, disk': set<Entry>, written: set<Entry>)
    requires StoredOk(mem, imm, disk, written) && disk' <= disk
    ensures StoredOk(mem, imm, disk', written)
  {
  }

  lemma WriteInv(st: State, st': State, batch: seq<Op>)
    requires Inv(st) && WriteStep(st, st', batch)
    ensures Inv(st')
  {
    var new_ := Elements(BatchEntries(batch, st.lastSequence + 1));
    BatchSequences(batch, st.lastSequence);
    WrittenGrows(st.written, new_, st.lastSequence, st'.lastSequence);
    assert forall e | e in ImmContent(st.imm) + AllContent(st.version) :: e in Stored(st);
    LayersGrow(Elements(st.mem), ImmContent(st.imm), AllContent(st.version), new_, st.lastSequence);
    assert Stored(st') == Stored(st) + new_;
  }

  lemma SwitchInv(st: State, st': State)
    requires Inv(st) && SwitchStep(st, st')
    ensures Inv(st') && Stored(st') == Stored(st)
  {
    assert Elements([]) == {};
    LayersSwitch(Elements(st.mem), AllContent(st.version), st.written);
  }

  lemma FlushDisk(v: Version, level: nat, f: File, v': Version, nextFile: nat)
    requires DiskOk(v, nextFile) && level < NUM_LEVELS && f.Ok() && ClearPath(v, level, f)
    requires Newer(Elements(f.entries), AllContent(v)) && f.number == nextFile && Flushed(v, level, f, v')
    ensures DiskOk(v', nextFile + 1)
  {
    FlushKeepsInvariant(v, level, f, v');
    FlushedNumbers(v, level, f, v', nextFile);
    forall l | 0 <= l < |v'| ensures Ordered(v'[l]) {
      if l != level {
        assert v'[l] == v[l];
      }
    }
  }

  lemma FlushedNumbers(v: Version, level: nat, f: File, v': Version, nextFile: nat)
    requires |v| == NUM_LEVELS && level < NUM_LEVELS && Flushed(v, level, f, v') && f.number == nextFile
    requires NumbersDistinct(v) && NumbersBelow(v, nextFile)
    ensures NumbersDistinct(v') && NumbersBelow(v', nextFile + 1)
  {
    forall l, g | 0 <= l < NUM_LEVELS && g in v'[l] ensures g in v[l] || (l == level && g in [f]) {
    }
    NumbersGrow(v, level, [f], v', nextFile, nextFile + 1);
  }

  lemma CompactedNumbers(v: Version, level: nat, inputs0: seq<File>, inputs1: seq<File>, outs: seq<File>, v': Version,
                         nextFile: nat)
    requires |v| == NUM_LEVELS && level + 1 < NUM_LEVELS && Compacted(v, level, inputs0, inputs1, outs, v')
    requires NumbersDistinct(v) && NumbersBelow(v, nextFile)
    requires forall k | 0 <= k < |outs| :: outs[k].number == nextFile + k
    ensures NumbersDistinct(v') && NumbersBelow(v', nextFile + |outs|)
  {
    forall l, g | 0 <= l < NUM_LEVELS && g in v'[l] ensures g in v[l] || (l == level + 1 && g in outs) {
    }
    NumbersGrow(v, level + 1, outs, v', nextFile, nextFile + |outs|);
  }

  lemma CompactedOrdered(v: Version, level: nat, inputs0: seq<File>, inputs1: seq<File>, outs: seq<File>, v': Version)
    requires |v| == NUM_LEVELS && level + 1 < NUM_LEVELS && Compacted(v, level, inputs0, inputs1, outs, v')
    requires AllOrdered(v)
    ensures AllOrdered(v')
  {
    forall l | 0 <= l < |v'| ensures Ordered(v'[l]) {
      if l != level && l != level + 1 {
        assert v'[l] == v[l];
      }
    }
  }

  /** Files with fresh numbers keep numbers distinct. */
  lemma NumbersGrow(v: Version, level: nat, added: seq<File>, v': Version, n: nat, n': nat)
    requires |v| == |v'| && NumbersDistinct(v) && NumbersBelow(v, n) && n <= n'
    requires forall l, g | 0 <= l < |v| && g in v'[l] :: g in v[l] || (l == level && g in added)
    requires forall g | g in added :: n <= g.number < n'
    requires forall g, h | g in added && h in added && g.number == h.number :: g == h
    ensures NumbersDistinct(v') && NumbersBelow(v', n')
  {
    forall l, m, f, g | 0 <= l < |v| && 0 <= m < |v| && f in v'[l] && g in v'[m] && f.number == g.number
      ensures l == m && f == g
    {
      assert f in v[l] || (l == level && f in added);
      assert g in v[m] || (m == level && g in added);
    }
  }

  lemma FlushInv(st: State, st': State, level: nat, f: File)
    requires Inv(st) && FlushStep(st, st', level, f)
    ensures Inv(st') && Stored(st') == Stored(st)
  {
    FlushDisk(st.version, level, f, st'.version, st.nextFile);
    FlushedContent(st.version, level, f, st'.version);
    LayersShift(Elements(st.mem), ImmContent(st.imm), AllContent(st.version), AllContent(st'.version), st.written);
  }

  lemma MoveDisk(v: Version, level: nat, f: File, v': Version, nextFile: nat)
    requires DiskOk(v, nextFile) && level + 1 < NUM_LEVELS && PickOk(v, level, [f], [])
    requires Compacted(v, level, [f], [], [f], v')
    ensures DiskOk(v', nextFile)
  {
    assert f in [f] && f in v[level];
    SingleFile(v, level, f);
    CompactionKeepsInvariant(v, level, [f], [], [f], v');
    MoveDiskRest(v, level, f, v', nextFile);
  }

  lemma MoveDiskRest(v: Version, level: nat, f: File, v': Version, nextFile: nat)
    requires DiskOk(v, nextFile) && level + 1 < NUM_LEVELS && f in v[level]
    requires Compacted(v, level, [f], [], [f], v')
    ensures AllOrdered(v') && NumbersDistinct(v') && NumbersBelow(v', nextFile)
  {
    MovedNumbers(v, level, f, v', nextFile);
    CompactedOrdered(v, level, [f], [], [f], v');
  }

  lemma SingleFile(v: Version, level: nat, f: File)
    requires LevelsOk(v) && level < NUM_LEVELS && f in v[level]
    ensures FilesOk([f]) && SortedLevel([f]) && OutsOk([f], [], [f])
    ensures Merged([f], []) == Content([f])
  {
    assert Content([]) == {};
  }

  lemma MoveContent(v: Version, level: nat, f: File, v': Version)
    requires |v| == NUM_LEVELS && level + 1 < NUM_LEVELS && PickOk(v, level, [f], [])
    requires Compacted(v, level, [f], [], [f], v')
    ensures AllContent(v') == AllContent(v)
  {
    assert Content([]) == {};
    OldContent(v, level, [f], []);
    NewContent(v, level, [f], [], [f], v');
  }

  lemma MovedNumbers(v: Version, level: nat, f: File, v': Version, nextFile: nat)
    requires |v| == NUM_LEVELS && level + 1 < NUM_LEVELS && Compacted(v, level, [f], [], [f], v')
    requires NumbersDistinct(v) && NumbersBelow(v, nextFile) && f in v[level]
    ensures NumbersDistinct(v') && NumbersBelow(v', nextFile)
  {
    forall l, m, g, h | 0 <= l < |v| && 0 <= m < |v| && g in v'[l] && h in v'[m] && g.number == h.number
      ensures l == m && g == h
    {
      MovedFrom(v, level, f, v', l, g);
      MovedFrom(v, level, f, v', m, h);
      assert g in v[if l == level + 1 && g == f then level else l];
      assert h in v[if m == level + 1 && h == f then level else m];
    }
    forall l, g | 0 <= l < |v| && g in v'[l] ensures g.number < nextFile {
      MovedFrom(v, level, f, v', l, g);
    }
  }

  lemma MovedFrom(v: Version, level: nat, f: File, v': Version, l: nat, g: File)
    requires |v| == NUM_LEVELS && level + 1 < NUM_LEVELS && Compacted(v, level, [f], [], [f], v')
    requires l < NUM_LEVELS && g in v'[l] && f in v[level]
    ensures (g in v[l] && !(l == level && g == f)) || (l == level + 1 && g == f)
  {
    assert f in [f];
  }

  lemma MoveInv(st: State, st': State, level: nat, f: File)
    requires Inv(st) && MoveStep(st, st', level, f)
    ensures Inv(st') && Stored(st') == Stored(st)
  {
    MoveDisk(st.version, level, f, st'.version, st.nextFile);
    MoveContent(st.version, level, f, st'.version);
  }

  lemma CompactDisk(v: Version, level: nat, inputs0: seq<File>, inputs1: seq<File>, outs: seq<File>, v': Version,
                    nextFile: nat)
    requires DiskOk(v, nextFile) && level + 1 < NUM_LEVELS && PickOk(v, level, inputs0, inputs1)
    requires OutsOk(inputs0, inputs1, outs) && Compacted(v, level, inputs0, inputs1, outs, v')
    requires forall k | 0 <= k < |outs| :: outs[k].number == nextFile + k
    ensures DiskOk(v', nextFile + |outs|)
  {
    CompactionKeepsInvariant(v, level, inputs0, inputs1, outs, v');
    CompactDiskRest(v, level, inputs0, inputs1, outs, v', nextFile);
  }

  lemma CompactDiskRest(v: Version, level: nat, inputs0: seq<File>, inputs1: seq<File>, outs: seq<File>, v': Version,
                        nextFile: nat)
    requires DiskOk(v, nextFile) && level + 1 < NUM_LEVELS && PickOk(v, level, inputs0, inputs1)
    requires OutsOk(inputs0, inputs1, outs) && Compacted(v, level, inputs0, inputs1, outs, v')
    requires forall k | 0 <= k < |outs| :: outs[k].number == nextFile + k
    ensures AllOrdered(v') && NumbersDistinct(v') && NumbersBelow(v', nextFile + |outs|)
  {
    CompactedNumbers(v, level, inputs0, inputs1, outs, v', nextFile);
    CompactedOrdered(v, level, inputs0, inputs1, outs, v');
  }

  lemma CompactContent(v: Version, level: nat, inputs0: seq<File>, inputs1: seq<File>, outs: seq<File>, v': Version)
    requires |v| == NUM_LEVELS && level + 1 < NUM_LEVELS && PickOk(v, level, inputs0, inputs1)
    requires OutsOk(inputs0, inputs1, outs) && Compacted(v, level, inputs0, inputs1, outs, v')
    ensures AllContent(v') <= AllContent(v)
  {
    OldContent(v, level, inputs0, inputs1);
    NewContent(v, level, inputs0, inputs1, outs, v');
  }

  lemma CompactInv(st: State, st': State, level: nat, inputs0: seq<File>, inputs1: seq<File>, outs: seq<File>)
    requires Inv(st) && CompactStep(st, st', level, inputs0, inputs1, outs)
    ensures Inv(st')
  {
    CompactDisk(st.version, level, inputs0, inputs1, outs, st'.version, st.nextFile);
    CompactContent(st.version, level, inputs0, inputs1, outs, st'.version);
    LayersShrink(Elements(st.mem), ImmContent(st.imm), AllContent(st.version), AllContent(st'.version), st.written);
  }

  lemma DropEmptyInv(st: State, st': State)
    requires Inv(st) && DropEmptyStep(st, st')
    ensures Inv(st')
  {
  }

  lemma SnapshotsInv(st: State, st': State)
    requires Inv(st) && st' == st.(snapshots := st'.snapshots) && SnapshotsOk(st'.snapshots, st.lastSequence)
    ensures Inv(st')
  {
  }

  /** Every step keeps the level invariant, the age order and the sequence-number discipline. */
  lemma NextInv(st: State, st': State, step: Step)
    requires Inv(st) && Next(st, st', step)
    ensures Inv(st')
  {
    match step
    case Write(batch) => WriteInv(st, st', batch);
    case SwitchMemTable => SwitchInv(st, st');
    case Flush(level, f) => FlushInv(st, st', level, f);
    case DropEmptyImm => DropEmptyInv(st, st');
    case Move(level, f) => MoveInv(st, st', level, f);
    case Compact(level, in0, in1, outs, cutting) => CompactInv(st, st', level, in0, in1, outs);
    case GetSnapshot => SnapshotsInv(st, st');
    case ReleaseSnapshot(i) => SnapshotsInv(st, st');
  }

  // ---------- what snapshots see ----------

  /** Every live snapshot, and a read made now, sees what was written under the number. */
  predicate SeenByAll(st: State, n: nat) {
    (forall s | s in st.snapshots :: n <= s) && n <= st.lastSequence
  }

  lemma SmallestIsLeast(st: State, n: nat)
    requires SnapshotsOk(st.snapshots, st.lastSequence)
    ensures n <= SmallestSnapshot(st) <==> SeenByAll(st, n)
  {
    if st.snapshots != [] {
      assert st.snapshots[0] in st.snapshots;
      assert forall i | 0 < i < |st.snapshots| :: st.snapshots[0] <= st.snapshots[i];
    }
  }

  /**
   What a merge compaction keeps, by the live snapshots: all but entries with a newer one among the inputs that all
   of them see, and deletion markers that all of them see with nothing of the user key below.
  */
  lemma KeptIff(st: State, level: nat, inputs0: seq<File>, inputs1: seq<File>, e: Entry)
    requires Inv(st) && |st.version| == NUM_LEVELS && e in Merged(inputs0, inputs1)
    ensures e !in Kept(Merged(inputs0, inputs1), BaseOf(st, level), SmallestSnapshot(st)) <==>
      || (exists x | x in Merged(inputs0, inputs1) ::
            x.key.user == e.key.user && e.key.sequence < x.key.sequence
            && SeenByAll(st, x.key.sequence))
      || (e.key.kind.TypeDeletion? && BaseOf(st, level)(e.key.user) && SeenByAll(st, e.key.sequence))
  {
    forall n: nat ensures n <= SmallestSnapshot(st) <==> SeenByAll(st, n) {
      SmallestIsLeast(st, n);
    }
  }

  /** A compaction that drops a deletion marker over a value still stored elsewhere. */
  ghost predicate Resurrects(st: State, level: nat, inputs0: seq<File>, inputs1: seq<File>, u: UserKey)
    requires |st.version| == NUM_LEVELS && level + 1 < NUM_LEVELS
  {
    exists marker, old_ ::
      Uncovers(Rest(st, level, inputs0, inputs1), Merged(inputs0, inputs1),
               BaseOf(st, level), SmallestSnapshot(st), u, marker, old_)
  }

  ghost predicate Harmless(st: State, step: Step) {
    step.Compact? && |st.version| == NUM_LEVELS && step.level + 1 < NUM_LEVELS ==>
      forall u: UserKey :: !Resurrects(st, step.level, step.inputs0, step.inputs1, u)
  }

  /** Everything stored outside the inputs of a compaction. */
  ghost function Rest(st: State, level: nat, inputs0: seq<File>, inputs1: seq<File>): set<Entry>
    requires |st.version| == NUM_LEVELS && level + 1 < NUM_LEVELS
  {
    Elements(st.mem) + ImmContent(st.imm) + Untouched(st.version, level, inputs0, inputs1)
  }

  lemma ApartFromLayers(mem: set<Entry>, imm: set<Entry>, disk: set<Entry>, untouched: set<Entry>, merged: set<Entry>)
    requires ByLayer(mem, imm, disk) && merged <= disk && untouched !! merged
    ensures mem + imm + untouched !! merged
  {
    forall e | e in merged ensures e !in mem && e !in imm {
      assert e in mem || e in imm ==> !Supersedes(e, e);
    }
  }

  lemma RestApart(st: State, level: nat, inputs0: seq<File>, inputs1: seq<File>)
    requires VersionOk(st.version) && NumbersDistinct(st.version)
    requires level + 1 < NUM_LEVELS && PickOk(st.version, level, inputs0, inputs1)
    requires ByLayer(Elements(st.mem), ImmContent(st.imm), AllContent(st.version))
    ensures Rest(st, level, inputs0, inputs1) !! Merged(inputs0, inputs1)
  {
    InputsOfNext(st.version, level, inputs0, inputs1);
    UntouchedApart(st.version, level, inputs0, inputs1);
    OldContent(st.version, level, inputs0, inputs1);
    ApartFromLayers(Elements(st.mem), ImmContent(st.imm), AllContent(st.version),
                    Untouched(st.version, level, inputs0, inputs1), Merged(inputs0, inputs1));
  }

  lemma SplitStored(st: State, st': State, level: nat, inputs0: seq<File>, inputs1: seq<File>, outs: seq<File>)
    requires CompactStep(st, st', level, inputs0, inputs1, outs)
    ensures Stored(st) == Rest(st, level, inputs0, inputs1) + Merged(inputs0, inputs1)
    ensures Stored(st') == Rest(st, level, inputs0, inputs1)
      + Kept(Merged(inputs0, inputs1), BaseOf(st, level), SmallestSnapshot(st))
  {
    OldContent(st.version, level, inputs0, inputs1);
    NewContent(st.version, level, inputs0, inputs1, outs, st'.version);
  }

  /** `DropLaw` for one user key, read against what was written. */
  lemma DropLawWritten(rest: set<Entry>, merged: set<Entry>, base: UserKey -> bool, snap: nat, u: UserKey,
                       written: set<Entry>)
    requires UniqueSequences(rest + merged) && rest !! merged
    requires forall s: nat | snap <= s :: Read(rest + merged, u, s) == Read(written, u, s)
    ensures (forall s: nat | snap <= s :: Read(rest + Kept(merged, base, snap), u, s) == Read(written, u, s))
        <==> !exists marker, old_ :: Uncovers(rest, merged, base, snap, u, marker, old_)
  {
    DropLaw(rest, merged, base, snap, u);
  }

  lemma CompactionLawFor(st: State, st': State, level: nat, inputs0: seq<File>, inputs1: seq<File>, outs: seq<File>,
                         u: UserKey)
    requires WrittenOk(st.written, st.lastSequence) && Stored(st) <= st.written && ReadsOkFor(st, u)
    requires CompactStep(st, st', level, inputs0, inputs1, outs)
    requires Rest(st, level, inputs0, inputs1) !! Merged(inputs0, inputs1)
    ensures ReadsOkFor(st', u) <==> !Resurrects(st, level, inputs0, inputs1, u)
  {
    SplitStored(st, st', level, inputs0, inputs1, outs);
    DropLawWritten(Rest(st, level, inputs0, inputs1), Merged(inputs0, inputs1), BaseOf(st, level),
                   SmallestSnapshot(st), u, st.written);
  }

  /** The law of merge compaction in the store: reads stay right exactly if nothing is resurrected. */
  lemma CompactionLaw(st: State, st': State, level: nat, inputs0: seq<File>, inputs1: seq<File>, outs: seq<File>)
    requires Inv(st) && ReadsOk(st) && CompactStep(st, st', level, inputs0, inputs1, outs)
    ensures ReadsOk(st') <==> forall u: UserKey :: !Resurrects(st, level, inputs0, inputs1, u)
  {
    RestApart(st, level, inputs0, inputs1);
    forall u: UserKey ensures ReadsOkFor(st', u) <==> !Resurrects(st, level, inputs0, inputs1, u) {
      assert ReadsOkFor(st, u);
      CompactionLawFor(st, st', level, inputs0, inputs1, outs, u);
    }
  }

  lemma SnapshotMoves(st: State, st': State, step: Step)
    requires SnapshotsOk(st.snapshots, st.lastSequence) && Next(st, st', step)
    ensures SmallestSnapshot(st) <= SmallestSnapshot(st')
  {
  }

  lemma WriteReads(st: State, st': State, batch: seq<Op>)
    requires Inv(st) && ReadsOk(st) && WriteStep(st, st', batch)
    ensures ReadsOk(st')
  {
    WriteInv(st, st', batch);
    var new_ := Elements(BatchEntries(batch, st.lastSequence + 1));
    assert Stored(st') == Stored(st) + new_;
    BatchSequences(batch, st.lastSequence);
    SnapshotMoves(st, st', Write(batch));
    forall u: UserKey ensures ReadsOkFor(st', u) {
      assert ReadsOkFor(st, u);
      forall s: nat | SmallestSnapshot(st') <= s ensures Read(Stored(st'), u, s) == Read(st'.written, u, s) {
        ReadAfterWrite(Stored(st), st.written, new_, st.lastSequence, u, s);
      }
    }
  }

  lemma SameReads(st: State, st': State)
    requires ReadsOk(st) && Stored(st') == Stored(st) && st'.written == st.written
    requires SmallestSnapshot(st) <= SmallestSnapshot(st')
    ensures ReadsOk(st')
  {
    forall u: UserKey ensures ReadsOkFor(st', u) {
      assert ReadsOkFor(st, u);
    }
  }

  /** One step keeps every live snapshot right, if it is not a compaction that resurrects a value. */
  lemma NextReads(st: State, st': State, step: Step)
    requires Inv(st) && ReadsOk(st) && Next(st, st', step) && Harmless(st, step)
    ensures ReadsOk(st')
  {
    SnapshotMoves(st, st', step);
    match step
    case Write(batch) => WriteReads(st, st', batch);
    case SwitchMemTable => SwitchInv(st, st'); SameReads(st, st');
    case Flush(level, f) => FlushInv(st, st', level, f); SameReads(st, st');
    case DropEmptyImm => assert Stored(st') == Stored(st); SameReads(st, st');
    case Move(level, f) => MoveInv(st, st', level, f); SameReads(st, st');
    case Compact(level, in0, in1, outs, cutting) => CompactionLaw(st, st', level, in0, in1, outs);
    case GetSnapshot => assert Stored(st') == Stored(st); SameReads(st, st');
    case ReleaseSnapshot(i) => assert Stored(st') == Stored(st); SameReads(st, st');
  }

  // ---------- runs ----------

  ghost predicate IsRun(states: seq<State>, steps: seq<Step>) {
    && |states| == |steps| + 1
    && Init(states[0])
    && forall i | 0 <= i < |steps| :: Next(states[i], states[i + 1], steps[i])
  }

  /** Every state of every run satisfies the invariant. */
  lemma {:induction false} RunInvariant(states: seq<State>, steps: seq<Step>, n: nat)
    requires IsRun(states, steps) && n < |states|
    ensures Inv(states[n])
  {
    if n == 0 {
      InitInv(states[0]);
    } else {
      RunInvariant(states, steps, n - 1);
      NextInv(states[n - 1], states[n], steps[n - 1]);
    }
  }

  /** In a run without resurrections, every live snapshot reads exactly what was written. */
  lemma {:induction false} RunReads(states: seq<State>, steps: seq<Step>, n: nat)
    requires IsRun(states, steps) && n < |states|
    requires forall i | 0 <= i < n :: Harmless(states[i], steps[i])
    ensures ReadsOk(states[n])
  {
    if n == 0 {
      InitInv(states[0]);
    } else {
      RunReads(states, steps, n - 1);
      RunInvariant(states, steps, n - 1);
      NextReads(states[n - 1], states[n], steps[n - 1]);
    }
  }
}
