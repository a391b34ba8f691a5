/**
 `DBImpl` as an object (`db/db_impl.cc`): its methods carry out the steps of the state machine in
 Database with the code of InputSelection, Compactions and VersionBuilder.
*/
module DBImplementation {
  import opened InternalKeys
  import opened FlatMap
  import opened Runs
  import opened Versions
  import opened InputSelection
  import opened OutputFiles
  import opened Compactions
  import opened InputIterators
  import opened Install
  import opened VersionBuilder
  import opened Database

  // ---------- from edits to installed versions ----------

  function DeletionsOf(level: nat, fs: seq<File>): set<(nat, nat)> {
    set f | f in fs :: (level, f.number)
  }

  function AdditionsOf(level: nat, fs: seq<File>): seq<(nat, File)> {
    seq(|fs|, i requires 0 <= i < |fs| => (level, fs[i]))
  }

  lemma {:induction false} AdditionsAt(level: nat, fs: seq<File>, l: nat)
    ensures AddsAt(l, AdditionsOf(level, fs)) == if l == level then fs else []
  {
    if fs != [] {
      AdditionsAt(level, fs[1..], l);
      assert AdditionsOf(level, fs)[1..] == AdditionsOf(level, fs[1..]);
    }
  }

  /** `AddInputDeletions` plus the additions of `InstallCompactionResults`. */
  function CompactionEdit(level: nat, inputs0: seq<File>, inputs1: seq<File>, outs: seq<File>): FileEdit {
    FileEdit(DeletionsOf(level, inputs0) + DeletionsOf(level + 1, inputs1), AdditionsOf(level + 1, outs))
  }

  lemma DeletedIs(level: nat, inputs0: seq<File>, inputs1: seq<File>, outs: seq<File>, l: nat)
    ensures DeletedAt(l, CompactionEdit(level, inputs0, inputs1, outs)) ==
      if l == level then Numbers(inputs0) else if l == level + 1 then Numbers(inputs1) else {}
  {
    var e := CompactionEdit(level, inputs0, inputs1, outs);
    forall n | n in Numbers(inputs0) ensures n in DeletedAt(level, e) {
      assert (level, n) in e.deleted;
    }
    forall n | n in Numbers(inputs1) ensures n in DeletedAt(level + 1, e) {
      assert (level + 1, n) in e.deleted;
    }
  }

  /** Deleting by number is deleting the file, when numbers are distinct. */
  lemma ByNumber(v: Version, l: nat, gone: seq<File>, f: File)
    requires l < |v| && NumbersDistinct(v) && f in v[l] && (forall g | g in gone :: g in v[l])
    ensures f.number in Numbers(gone) <==> f in gone
  {
    if f.number in Numbers(gone) {
      var g :| g in gone && g.number == f.number;
      assert g in v[l];
    }
  }

  /** Files brought to `level + 1` take numbers that are not in use there. */
  ghost predicate OutsFit(v: Version, level: nat, outs: seq<File>)
    requires level + 1 < |v|
  {
    FreshNumbers(outs, Numbers(v[level + 1]))
  }

  /** Installs the result of a compaction or a trivial move. */
  method InstallCompaction(v: Version, level: nat, inputs0: seq<File>, inputs1: seq<File>, outs: seq<File>)
    returns (v': Version)
    requires |v| == NUM_LEVELS && level + 1 < NUM_LEVELS && AllOrdered(v) && NumbersDistinct(v)
    requires (forall f | f in inputs0 :: f in v[level]) && (forall f | f in inputs1 :: f in v[level + 1])
    requires OutsFit(v, level, outs)
    ensures Compacted(v, level, inputs0, inputs1, outs, v')
  {
    var e := CompactionEdit(level, inputs0, inputs1, outs);
    CompactionEditFits(v, level, inputs0, inputs1, outs);
    v' := ApplyEdit(v, e);
    forall l | 0 <= l < NUM_LEVELS
      ensures l != level && l != level + 1 ==> v'[l] == v[l]
      ensures l == level ==> Replaces(v[l], inputs0, [], v'[l])
      ensures l == level + 1 ==> Replaces(v[l], inputs1, outs, v'[l])
    {
      CompactionEditAt(level, inputs0, inputs1, outs, l);
      InstalledLevel(v, l, e, GoneAt(level, inputs0, inputs1, l), if l == level + 1 then outs else [], v'[l]);
    }
  }

  function GoneAt(level: nat, inputs0: seq<File>, inputs1: seq<File>, l: nat): seq<File> {
    if l == level then inputs0 else if l == level + 1 then inputs1 else []
  }

  lemma CompactionEditAt(level: nat, inputs0: seq<File>, inputs1: seq<File>, outs: seq<File>, l: nat)
    ensures var e := CompactionEdit(level, inputs0, inputs1, outs);
      && AddsAt(l, e.added) == (if l == level + 1 then outs else [])
      && DeletedAt(l, e) == Numbers(GoneAt(level, inputs0, inputs1, l))
  {
    AdditionsAt(level + 1, outs, l);
    DeletedIs(level, inputs0, inputs1, outs, l);
    assert Numbers([]) == {};
  }

  lemma CompactionEditFits(v: Version, level: nat, inputs0: seq<File>, inputs1: seq<File>, outs: seq<File>)
    requires |v| == NUM_LEVELS && level + 1 < NUM_LEVELS && AllOrdered(v) && OutsFit(v, level, outs)
    ensures EditFits(v, CompactionEdit(level, inputs0, inputs1, outs))
  {
    var e := CompactionEdit(level, inputs0, inputs1, outs);
    forall l | 0 <= l < NUM_LEVELS ensures Ordered(v[l]) && FreshNumbers(AddsAt(l, e.added), Numbers(v[l])) {
      CompactionEditAt(level, inputs0, inputs1, outs, l);
    }
  }

  lemma InstalledLevel(v: Version, l: nat, e: FileEdit, gone: seq<File>, outs: seq<File>, new_: seq<File>)
    requires l < |v| && AllOrdered(v) && NumbersDistinct(v)
    requires (forall f | f in gone :: f in v[l]) && FreshNumbers(outs, Numbers(v[l]))
    requires AddsAt(l, e.added) == outs && DeletedAt(l, e) == Numbers(gone)
    requires Edited(v[l], l, e, new_)
    ensures Replaces(v[l], gone, outs, new_)
    ensures gone == [] && outs == [] ==> new_ == v[l]
  {
    forall f ensures f in new_ <==> (f in v[l] && f !in gone) || f in outs {
      if f in outs {
        assert f.number in Numbers(outs);
      } else if f in v[l] {
        ByNumber(v, l, gone, f);
        assert f.number in Numbers(v[l]);
        assert f.number in Numbers(outs) ==> exists g :: g in outs && g.number == f.number;
      }
    }
    if gone == [] && outs == [] {
      OrderedUnique(new_, v[l]);
    }
  }

  /** Installs a flushed table. */
  method InstallFlush(v: Version, level: nat, f: File) returns (v': Version)
    requires |v| == NUM_LEVELS && level < NUM_LEVELS && AllOrdered(v) && NumbersDistinct(v)
    requires NumbersBelow(v, f.number)
    ensures Flushed(v, level, f, v')
  {
    var e := FileEdit({}, AdditionsOf(level, [f]));
    forall l | 0 <= l < NUM_LEVELS
      ensures AddsAt(l, e.added) == (if l == level then [f] else []) && DeletedAt(l, e) == Numbers([])
      ensures f.number !in Numbers(v[l])
    {
      AdditionsAt(level, [f], l);
    }
    v' := ApplyEdit(v, e);
    forall l | 0 <= l < NUM_LEVELS
      ensures l != level ==> v'[l] == v[l]
      ensures l == level ==> Replaces(v[l], [], [f], v'[l])
    {
      InstalledLevel(v, l, e, [], if l == level then [f] else [], v'[l]);
    }
  }

  // ---------- helper steps ----------

  /** `WriteLevel0Table` after the table is built: it goes to the level picked for it. */
  method PlaceTable(v: Version, f: File, maxFileSize: nat) returns (level: nat, v': Version)
    requires LevelsOk(v) && AllOrdered(v) && NumbersDistinct(v) && NumbersBelow(v, f.number)
    ensures level < NUM_LEVELS && ClearPath(v, level, f) && Flushed(v, level, f, v')
    ensures FlushLevel(v, f.smallest.user, f.largest.user, maxFileSize, level)
  {
    level := PickLevelForMemTableOutput(v, f.smallest.user, f.largest.user, maxFileSize);
    v' := InstallFlush(v, level, f);
  }

  /** The entries of the inputs carry pairwise different keys, so they can be merged. */
  lemma InputsMergeable(st: State, level: nat, inputs0: seq<File>, inputs1: seq<File>)
    requires Inv(st) && level + 1 < NUM_LEVELS
    requires PickOk(st.version, level, inputs0, inputs1) && StartOk(st.version, level, inputs0)
    ensures Mergeable(InputRuns(level, inputs0, inputs1), Merged(inputs0, inputs1))
    ensures forall e | e in Merged(inputs0, inputs1) :: e.key.sequence <= MAX_SEQUENCE
  {
    PickMembers(st.version, level, inputs0, inputs1);
    InputsUnique(st, level, inputs0, inputs1);
    RunsOfInputs(st.version, level, inputs0, inputs1);
  }

  lemma InputsUnique(st: State, level: nat, inputs0: seq<File>, inputs1: seq<File>)
    requires Inv(st) && level + 1 < NUM_LEVELS
    requires forall f | f in inputs0 :: f in st.version[level]
    requires forall f | f in inputs1 :: f in st.version[level + 1]
    ensures UniqueSequences(Merged(inputs0, inputs1))
    ensures forall e | e in Merged(inputs0, inputs1) :: e.key.sequence <= MAX_SEQUENCE
  {
    forall e | e in Merged(inputs0, inputs1) ensures e in st.written {
      InputIsWritten(st, level, inputs0, inputs1, e);
    }
  }

  lemma InputIsWritten(st: State, level: nat, inputs0: seq<File>, inputs1: seq<File>, e: Entry)
    requires Inv(st) && level + 1 < NUM_LEVELS
    requires forall f | f in inputs0 :: f in st.version[level]
    requires forall f | f in inputs1 :: f in st.version[level + 1]
    requires e in Merged(inputs0, inputs1)
    ensures e in st.written
  {
    if e in Content(inputs0) {
      var f :| f in inputs0 && e in f.entries;
      InContent(st.version, level, f, e);
    } else {
      var f :| f in inputs1 && e in f.entries;
      InContent(st.version, level + 1, f, e);
    }
  }

  function ClipToRange(n: nat, low: nat, high: nat): nat {
    if n > high then high else if n < low then low else n
  }

  // ---------- the object ----------

  class DBImpl {
    const sizes: TableSizes
    var mem: seq<Entry>
    var imm: Imm
    var version: Version
    var lastSequence: nat
    var snapshots: seq<nat>
    var nextFile: nat
    ghost var written: set<Entry>

    ghost function Abs(): State
      reads this
    {
      State(mem, imm, version, lastSequence, snapshots, nextFile, written)
    }

    predicate SizesOk() {
      MIN_FILE_SIZE <= sizes.maxFileSize <= MAX_FILE_SIZE
    }

    /** `max_file_size` is clipped as `SanitizeOptions` does. */
    constructor (sizes: TableSizes)
      ensures Init(Abs()) && Inv(Abs()) && ReadsOk(Abs()) && SizesOk()
      ensures MIN_FILE_SIZE <= sizes.maxFileSize <= MAX_FILE_SIZE ==> this.sizes == sizes
    {
      this.sizes := sizes.(maxFileSize := ClipToRange(sizes.maxFileSize, MIN_FILE_SIZE, MAX_FILE_SIZE));
      mem, imm, version, lastSequence, snapshots, nextFile := [], NoImm, seq(NUM_LEVELS, _ => []), 0, [], 2;
      written := {};
      new;
      InitInv(Abs());
    }

    /** `DBImpl::Get` at sequence number `s`: memtable, immutable memtable, then the files. */
    method Get(u: UserKey, s: nat) returns (ans: Answer)
      requires Inv(Abs())
      ensures ans == Read(Stored(Abs()), u, s)
      ensures ReadsOk(Abs()) && SmallestSnapshot(Abs()) <= s ==> ans == Read(written, u, s)
    {
      ghost var m, i, d := Elements(mem), ImmContent(imm), AllContent(version);
      var st := RunGet(mem, u, s);
      ghost var e := RunGetFindsNewest(mem, u, s);
      ghost var ei, ed := e, e;
      var sti, std := NotFound, NotFound;
      if st.NotFound? && imm.Imm? {
        sti := RunGet(imm.entries, u, s);
        ei := RunGetFindsNewest(imm.entries, u, s);
      }
      if st.NotFound? && sti.NotFound? {
        std, ed := Versions.Get(version, u, s);
      }
      ans := AnswerOfLookup(if !st.NotFound? then st else if !sti.NotFound? then sti else std);
      FirstLayerAnswers(m, i, d, written, u, s, st, sti, std, e, ei, ed);
      assert ReadsOk(Abs()) ==> ReadsOkFor(Abs(), u);
    }

    /** `WriteBatchInternal::InsertInto` the memtable, then `SetLastSequence`. */
    method ApplyBatch(batch: seq<Op>)
      requires Inv(Abs()) && lastSequence + |batch| < MAX_SEQUENCE
      modifies this
      ensures Next(old(Abs()), Abs(), Write(batch)) && Inv(Abs())
      ensures old(ReadsOk(Abs())) ==> ReadsOk(Abs())
    {
      ghost var before := Abs();
      MemBelow(before);
      var mem' := InsertInto(mem, batch, lastSequence + 1);
      var last' := lastSequence + |batch|;
      ghost var after := Wrote(before, batch, mem', last');
      SetWritten(mem', last', after);
    }

    method SetWritten(mem': seq<Entry>, last': nat, ghost after: State)
      requires after == Abs().(mem := mem', lastSequence := last', written := after.written)
      modifies `mem, `lastSequence, `written
      ensures Abs() == after
    {
      mem, lastSequence, written := mem', last', after.written;
    }

    method SetFiles(v: Version, next: nat, ghost after: State)
      requires after == Abs().(version := v, nextFile := next)
      modifies `version, `nextFile
      ensures Abs() == after
    {
      version, nextFile := v, next;
    }

    /** Every step ends the same way: the invariant holds again, and so do the reads. */
    lemma Finish(before: State, step: Step)
      requires Inv(before) && Next(before, Abs(), step)
      ensures Inv(Abs())
      ensures !step.Compact? && ReadsOk(before) ==> ReadsOk(Abs())
    {
      NextInv(before, Abs(), step);
      if !step.Compact? && ReadsOk(before) {
        NextReads(before, Abs(), step);
      }
    }

    /** The part of `MakeRoomForWrite` that starts a new memtable. */
    method SwitchMemTable()
      requires Inv(Abs()) && imm.NoImm?
      modifies this
      ensures Next(old(Abs()), Abs(), Database.SwitchMemTable) && Inv(Abs())
      ensures old(ReadsOk(Abs())) ==> ReadsOk(Abs())
    {
      ghost var before := Abs();
      imm := Imm(mem);
      mem := [];
      Finish(before, Database.SwitchMemTable);
    }

    /** `CompactMemTable`: write the immutable memtable to the level picked for it. */
    method CompactMemTable(size: nat) returns (ghost step: Step)
      requires Inv(Abs()) && imm.Imm?
      modifies this
      ensures Next(old(Abs()), Abs(), step) && Inv(Abs())
      ensures old(imm.entries) == [] ==> step.DropEmptyImm?
      ensures old(imm.entries) != [] ==>
        && step.Flush? && step.file.entries == old(imm.entries) && step.file.size == size
        && FlushLevel(old(version), step.file.smallest.user, step.file.largest.user, sizes.maxFileSize, step.level)
      ensures old(ReadsOk(Abs())) ==> ReadsOk(Abs())
    {
      ghost var before := Abs();
      var es := imm.entries;
      if es == [] {
        step := DropEmptyImm;
      } else {
        var f := File(nextFile, size, es[0].key, es[|es| - 1].key, es);
        ImmIsFile(before, f);
        var level;
        level, version := PlaceTable(version, f, sizes.maxFileSize);
        step := Flush(level, f);
      }
      imm := NoImm;
      nextFile := nextFile + 1;
      Finish(before, step);
    }

    /** The trivial-move branch of `BackgroundCompaction`. */
    method MoveFile(level: nat, f: File)
      requires Inv(Abs()) && level + 1 < NUM_LEVELS && PickOk(version, level, [f], [])
      modifies this`version
      ensures MoveStep(old(Abs()), Abs(), level, f)
    {
      ghost var before := Abs();
      PickMembers(version, level, [f], []);
      assert f in [f];
      MoveFits(before, level, f);
      version := InstallCompaction(version, level, [f], [], [f]);
    }

    /** `DoCompactionWork` and `InstallCompactionResults`. */
    method MergeFiles(level: nat, inputs0: seq<File>, inputs1: seq<File>, grandparents: seq<File>)
      returns (outs: seq<File>, ghost cutting: Cutting)
      requires Inv(Abs()) && SizesOk() && level + 1 < NUM_LEVELS && PickOk(version, level, inputs0, inputs1)
      requires GrandparentsOk(version, level, inputs0, inputs1, grandparents) && StartOk(version, level, inputs0)
      modifies this`version, this`nextFile
      ensures CompactStep(old(Abs()), Abs(), level, inputs0, inputs1, outs)
      ensures CutStep(old(version), level, inputs0, inputs1, outs, cutting)
    {
      ghost var before := Abs();
      var v, snap := version, if snapshots == [] then lastSequence else snapshots[0];
      PickMembers(v, level, inputs0, inputs1);
      outs, cutting := RunMerge(before, v, snap, nextFile, sizes, level, inputs0, inputs1, grandparents);
      FreshOuts(before, level, outs);
      var v' := InstallCompaction(v, level, inputs0, inputs1, outs);
      var nextFile' := nextFile + |outs|;
      ghost var after := Merge(before, level, inputs0, inputs1, outs, v', nextFile');
      SetFiles(v', nextFile', after);
    }

    static method RunMerge(ghost st: State, v: Version, snap: nat, nextFile: nat, sizes: TableSizes,
                           level: nat, inputs0: seq<File>, inputs1: seq<File>, grandparents: seq<File>)
      returns (outs: seq<File>, ghost cutting: Cutting)
      requires Inv(st) && st.version == v && SmallestSnapshot(st) == snap && level + 1 < NUM_LEVELS
      requires PickOk(v, level, inputs0, inputs1) && StartOk(v, level, inputs0)
      ensures FilesOk(outs) && SortedLevel(outs)
      ensures forall k | 0 <= k < |outs| :: outs[k].number == nextFile + k
      ensures Content(outs) == Kept(Merged(inputs0, inputs1), BaseOf(st, level), SmallestSnapshot(st))
      ensures cutting.grandparents == grandparents && cutting.sizes == sizes && CutsOk(cutting, outs)
      ensures Sorted(cutting.merged) && Elements(cutting.merged) == Merged(inputs0, inputs1)
    {
      var merged := ReadInputs(st, v, level, inputs0, inputs1);
      var c := new Compaction(level, v, grandparents, sizes);
      cutting := Cutting(merged, grandparents, sizes);
      outs := DoCompactionWork(c, merged, snap, nextFile);
    }

    /** All entries of the inputs, read through the iterator that `MakeInputIterator` makes. */
    static method ReadInputs(ghost st: State, v: Version, level: nat, inputs0: seq<File>, inputs1: seq<File>)
      returns (merged: seq<Entry>)
      requires Inv(st) && st.version == v && level + 1 < NUM_LEVELS
      requires PickOk(v, level, inputs0, inputs1) && StartOk(v, level, inputs0)
      ensures Sorted(merged) && Elements(merged) == Merged(inputs0, inputs1)
      ensures UniqueSequences(Elements(merged))
      ensures forall i | 0 <= i < |merged| :: merged[i].key.sequence <= MAX_SEQUENCE
    {
      InputsMergeable(st, level, inputs0, inputs1);
      merged := MergeInputs(InputRuns(level, inputs0, inputs1), Merged(inputs0, inputs1));
      SequencesWithin(merged, MAX_SEQUENCE);
    }

    /** `BackgroundCompaction` of a picked file: a trivial move if possible, else a merge. */
    method BackgroundCompaction(level: nat, picked: File) returns (ghost step: Step)
      requires Inv(Abs()) && SizesOk() && level + 1 < NUM_LEVELS && picked in version[level]
      modifies this
      ensures Next(old(Abs()), Abs(), step) && Inv(Abs())
      ensures (step.Move? && step.level == level && step.file == picked)
           || (step.Compact? && step.level == level && picked in step.inputs0)
      ensures ForPicked(old(version), level, picked, sizes.maxFileSize, step)
      ensures old(ReadsOk(Abs())) ==> (ReadsOk(Abs()) <==> Harmless(old(Abs()), step))
    {
      ghost var before := Abs();
      LevelUnique(before, level);
      var inputs0, inputs1, grandparents := PickCompaction(version, level, picked, sizes.maxFileSize);
      step := MoveOrMerge(level, picked, inputs0, inputs1, grandparents);
      StepLaw(before, Abs(), step);
    }

    /** A trivial move, or a merge of all the inputs. */
    method MoveOrMerge(level: nat, picked: File, inputs0: seq<File>, inputs1: seq<File>, grandparents: seq<File>)
      returns (ghost step: Step)
      requires Inv(Abs()) && SizesOk() && level + 1 < NUM_LEVELS && picked in version[level] && picked in inputs0
      requires PickOk(version, level, inputs0, inputs1) && StartOk(version, level, inputs0)
      requires GrandparentsOk(version, level, inputs0, inputs1, grandparents)
      modifies this
      ensures Next(old(Abs()), Abs(), step) && Inv(Abs())
      ensures if |inputs0| == 1 && inputs1 == [] && TotalFileSize(grandparents) <= 10 * sizes.maxFileSize then
                step.Move? && step.level == level && step.file == picked
              else step.Compact? && step.level == level && step.inputs0 == inputs0 && step.inputs1 == inputs1
    {
      ghost var before := Abs();
      if |inputs0| == 1 && |inputs1| == 0
         && TotalFileSize(grandparents) <= MaxGrandParentOverlapBytes(sizes.maxFileSize) {
        OnlyPicked(inputs0, picked);
        MoveFile(level, picked);
        step := Move(level, picked);
      } else {
        ghost var cutting;
        var outs;
        outs, cutting := MergeFiles(level, inputs0, inputs1, grandparents);
        step := Compact(level, inputs0, inputs1, outs, cutting);
      }
      Finish(before, step);
    }

    /** The manual branch: what `CompactRange` picks is merged even where a move would do. */
    method ManualCompaction(level: nat, begin: Bound, end: Bound) returns (found: bool, ghost step: Step)
      requires Inv(Abs()) && SizesOk() && level + 1 < NUM_LEVELS
      modifies this
      ensures !found <==> forall f | f in old(version)[level] :: !Overlaps(f, begin, end)
      ensures !found ==> Abs() == old(Abs())
      ensures found ==> step.Compact? && step.level == level && Next(old(Abs()), Abs(), step) && Inv(Abs())
      ensures found ==>
        RangeInputs(old(version), level, begin, end, sizes.maxFileSize, step.inputs0, step.inputs1)
      ensures found && old(ReadsOk(Abs())) ==> (ReadsOk(Abs()) <==> Harmless(old(Abs()), step))
    {
      ghost var before := Abs();
      step := DropEmptyImm;
      LevelUnique(before, level);
      var inputs0, inputs1, grandparents;
      found, inputs0, inputs1, grandparents := CompactRange(version, level, begin, end, sizes.maxFileSize);
      if found {
        ghost var cutting;
        var outs;
        outs, cutting := MergeFiles(level, inputs0, inputs1, grandparents);
        step := Compact(level, inputs0, inputs1, outs, cutting);
        Finish(before, step);
        StepLaw(before, Abs(), step);
      }
    }

    /** `GetSnapshot` and `ReleaseSnapshot`. */
    method TakeSnapshot() returns (s: nat)
      requires Inv(Abs())
      modifies this
      ensures Next(old(Abs()), Abs(), GetSnapshot) && Inv(Abs()) && s == lastSequence
      ensures old(ReadsOk(Abs())) ==> ReadsOk(Abs())
    {
      ghost var before := Abs();
      s := lastSequence;
      snapshots := snapshots + [s];
      Finish(before, GetSnapshot);
    }

    method DropSnapshot(index: nat)
      requires Inv(Abs()) && index < |snapshots|
      modifies this
      ensures Next(old(Abs()), Abs(), ReleaseSnapshot(index)) && Inv(Abs())
      ensures old(ReadsOk(Abs())) ==> ReadsOk(Abs())
    {
      ghost var before := Abs();
      snapshots := snapshots[..index] + snapshots[index + 1..];
      Finish(before, ReleaseSnapshot(index));
    }
  }

  /**
   The file alone is moved if it has no other inputs with it and does not meet too much of the level after next;
   otherwise all the inputs it leads to are merged.
  */
  ghost predicate ForPicked(v: Version, level: nat, picked: File, maxFileSize: nat, step: Step)
    requires |v| == NUM_LEVELS && level + 1 < NUM_LEVELS
  {
    exists inputs0, inputs1, grandparents ::
      && PickedInputs(v, level, picked, maxFileSize, inputs0, inputs1)
      && GrandparentsOk(v, level, inputs0, inputs1, grandparents)
      && if |inputs0| == 1 && inputs1 == [] && TotalFileSize(grandparents) <= 10 * maxFileSize then step.Move?
         else step.Compact? && step.inputs0 == inputs0 && step.inputs1 == inputs1
  }

  // ---------- facts the methods use ----------

  lemma OnlyPicked(fs: seq<File>, f: File)
    requires |fs| == 1 && f in fs
    ensures fs == [f]
  {
  }

  lemma MemBelow(st: State)
    requires Inv(st)
    ensures Sorted(st.mem) && forall e | e in Elements(st.mem) :: e.key.sequence <= st.lastSequence
  {
    forall e | e in Elements(st.mem) ensures e in st.written {
      assert e in Elements(st.mem) + ImmContent(st.imm) + AllContent(st.version);
    }
  }

  lemma Wrote(st: State, batch: seq<Op>, mem: seq<Entry>, last: nat) returns (st': State)
    requires Inv(st) && last == st.lastSequence + |batch| < MAX_SEQUENCE
    requires Sorted(mem) && Elements(mem) == Elements(st.mem) + Elements(BatchEntries(batch, st.lastSequence + 1))
    ensures st' == st.(mem := mem, lastSequence := last, written := st'.written)
    ensures Next(st, st', Write(batch)) && Inv(st')
    ensures ReadsOk(st) ==> ReadsOk(st')
  {
    st' := st.(mem := mem, lastSequence := last,
               written := st.written + Elements(BatchEntries(batch, st.lastSequence + 1)));
    NextInv(st, st', Write(batch));
    if ReadsOk(st) {
      NextReads(st, st', Write(batch));
    }
  }

  lemma Merge(st: State, level: nat, inputs0: seq<File>, inputs1: seq<File>, outs: seq<File>, v': Version, next: nat)
    returns (st': State)
    requires |st.version| == NUM_LEVELS && level + 1 < NUM_LEVELS && PickOk(st.version, level, inputs0, inputs1)
    requires FilesOk(outs) && SortedLevel(outs)
    requires forall k | 0 <= k < |outs| :: outs[k].number == st.nextFile + k
    requires Content(outs) == Kept(Merged(inputs0, inputs1), BaseOf(st, level), SmallestSnapshot(st))
    requires Compacted(st.version, level, inputs0, inputs1, outs, v') && next == st.nextFile + |outs|
    ensures st' == st.(version := v', nextFile := next) && CompactStep(st, st', level, inputs0, inputs1, outs)
  {
    st' := st.(version := v', nextFile := next);
  }

  lemma StepLaw(st: State, st': State, step: Step)
    requires Inv(st) && Next(st, st', step)
    ensures ReadsOk(st) ==> (ReadsOk(st') <==> Harmless(st, step))
  {
    if ReadsOk(st) {
      if step.Compact? {
        CompactionLaw(st, st', step.level, step.inputs0, step.inputs1, step.outs);
      } else {
        NextReads(st, st', step);
      }
    }
  }

  /** `MemTable::Add` for every operation of a batch, with increasing sequence numbers. */
  method InsertInto(mem: seq<Entry>, batch: seq<Op>, first: nat) returns (r: seq<Entry>)
    requires Sorted(mem) && forall e | e in Elements(mem) :: e.key.sequence < first
    ensures Sorted(r) && Elements(r) == Elements(mem) + Elements(BatchEntries(batch, first))
  {
    ghost var es := BatchEntries(batch, first);
    r := mem;
    var sequence := first;
    for n := 0 to |batch|
      invariant Sorted(r) && Elements(r) == Elements(mem) + Elements(es[..n])
      invariant sequence == first + n
      invariant forall e | e in Elements(r) :: e.key.sequence < sequence
    {
      var e := Entry(InternalKey(batch[n].user, sequence, batch[n].kind), batch[n].value);
      BatchEntryAt(batch, first, n);
      forall i | 0 <= i < |r| ensures r[i].key != e.key {
        assert r[i] in Elements(r);
      }
      InsertEntrySorts(r, e);
      OneMore(es, n);
      r := InsertEntry(r, e);
      sequence := sequence + 1;
    }
    assert es[..|batch|] == es;
  }

  lemma OneMore(es: seq<Entry>, n: nat)
    requires n < |es|
    ensures Elements(es[..n + 1]) == Elements(es[..n]) + {es[n]}
  {
    assert es[..n + 1] == es[..n] + [es[n]];
  }

  lemma {:induction false} BatchEntryAt(batch: seq<Op>, first: nat, n: nat)
    requires n < |batch|
    ensures BatchEntries(batch, first)[n] ==
      Entry(InternalKey(batch[n].user, first + n, batch[n].kind), batch[n].value)
  {
    if n > 0 {
      BatchEntryAt(batch[1..], first + 1, n - 1);
    }
  }

  /** The first layer that knows the key answers for the whole store. */
  lemma FirstLayerAnswers(mem: set<Entry>, imm: set<Entry>, disk: set<Entry>, written: set<Entry>, u: UserKey, s: nat,
                          st: Lookup, sti: Lookup, std: Lookup, e: Entry, ei: Entry, ed: Entry)
    requires StoredOk(mem, imm, disk, written) && UniqueSequences(written)
    requires st.NotFound? <==> NoneVisible(mem, u, s)
    requires !st.NotFound? ==> IsNewest(mem, u, s, e) && st == LookupOf(e)
    requires st.NotFound? && sti.NotFound? ==> NoneVisible(imm, u, s)
    requires !sti.NotFound? ==> IsNewest(imm, u, s, ei) && sti == LookupOf(ei)
    requires st.NotFound? && sti.NotFound? && std.NotFound? ==> NoneVisible(disk, u, s)
    requires !std.NotFound? ==> IsNewest(disk, u, s, ed) && std == LookupOf(ed)
    ensures Read(mem + imm + disk, u, s) ==
      AnswerOfLookup(if !st.NotFound? then st else if !sti.NotFound? then sti else std)
  {
    var all := mem + imm + disk;
    if !st.NotFound? {
      assert forall x | x in imm :: Supersedes(e, x);
      assert forall x | x in disk :: Supersedes(e, x);
      ReadIs(all, u, s, e);
    } else if !sti.NotFound? {
      assert forall x | x in disk :: Supersedes(ei, x);
      ReadIs(all, u, s, ei);
    } else if !std.NotFound? {
      ReadIs(all, u, s, ed);
    } else {
      assert NoneVisible(all, u, s);
    }
  }

  lemma ImmIsFile(st: State, f: File)
    requires Inv(st) && st.imm.Imm? && st.imm.entries != []
    requires f.entries == st.imm.entries
    requires f.smallest == f.entries[0].key && f.largest == f.entries[|f.entries| - 1].key
    ensures f.Ok()
  {
    forall i | 0 <= i < |f.entries| ensures f.entries[i].key.sequence <= MAX_SEQUENCE {
      assert f.entries[i] in ImmContent(st.imm);
    }
  }

  lemma LevelUnique(st: State, level: nat)
    requires Inv(st) && level < NUM_LEVELS
    ensures UniqueSequences(Content(st.version[level]))
  {
    forall e | e in Content(st.version[level]) ensures e in st.written {
      var f :| f in st.version[level] && e in f.entries;
      InContent(st.version, level, f, e);
    }
  }

  lemma PickMembers(v: Version, level: nat, inputs0: seq<File>, inputs1: seq<File>)
    requires |v| == NUM_LEVELS && level + 1 < NUM_LEVELS && PickOk(v, level, inputs0, inputs1)
    ensures (forall f | f in inputs0 :: f in v[level]) && (forall f | f in inputs1 :: f in v[level + 1])
  {
    InputsOfNext(v, level, inputs0, inputs1);
  }

  lemma MoveFits(st: State, level: nat, f: File)
    requires Inv(st) && level + 1 < NUM_LEVELS && f in st.version[level]
    ensures OutsFit(st.version, level, [f])
  {
  }

  lemma FreshOuts(st: State, level: nat, outs: seq<File>)
    requires NumbersBelow(st.version, st.nextFile) && level + 1 < |st.version|
    requires forall k | 0 <= k < |outs| :: outs[k].number == st.nextFile + k
    ensures OutsFit(st.version, level, outs)
  {
  }
}
