/**
 `VersionSet` (`db/version_set.cc`): every change of the version is logged to the manifest, and
 recovering from the manifest gives the current version and counters back.
*/
module VersionSets {
  import opened Coding
  import opened Versions
  import opened Install
  import opened VersionBuilder
  import opened VersionEdits
  import opened Manifest
  import opened Sequences

  // ---------- from records to builder edits ----------

  /** What a builder makes of a decoded edit; `open` turns file metadata into the file. */
  function FilesOf(e: Edit, open: FileMeta -> File): FileEdit {
    FileEdit((set p | p in e.deleted), AddedFiles(e.newFiles, open))
  }

  function AddedFiles(fs: seq<(nat, FileMeta)>, open: FileMeta -> File): seq<(nat, File)> {
    seq(|fs|, i requires 0 <= i < |fs| => (fs[i].0, open(fs[i].1)))
  }

  function FileEdits(es: seq<Edit>, open: FileMeta -> File): seq<FileEdit> {
    seq(|es|, i requires 0 <= i < |es| => FilesOf(es[i], open))
  }

  ghost predicate PointerLevelsOk(ps: seq<(nat, seq<Byte>)>) {
    forall i | 0 <= i < |ps| :: ps[i].0 < NUM_LEVELS
  }

  ghost predicate EditLevelsOk(e: Edit) {
    && PointerLevelsOk(e.compactPointers)
    && (forall i | 0 <= i < |e.deleted| :: e.deleted[i].0 < NUM_LEVELS)
    && (forall i | 0 <= i < |e.newFiles| :: e.newFiles[i].0 < NUM_LEVELS)
  }

  /** Only existing levels get through the parser. */
  lemma {:induction false} DecodedLevels(s: seq<Byte>, e: Edit)
    requires EditLevelsOk(e)
    ensures Decoded(s, e).Ok? ==> EditLevelsOk(Decoded(s, e).edit)
    decreases |s|
  {
    if s != [] {
      ParseShrinks(s);
      if ParseItem(s).Parsed? {
        var i := ParseItem(s).value;
        if i.DeletedFile? {
          InsertPairFrom(e.deleted, (i.level, i.number));
          forall k | 0 <= k < |AddItem(e, i).deleted| ensures AddItem(e, i).deleted[k].0 < NUM_LEVELS {
            assert AddItem(e, i).deleted[k] in AddItem(e, i).deleted;
          }
        }
        DecodedLevels(ParseItem(s).rest, AddItem(e, i));
      }
    }
  }

  lemma {:induction false} InsertPairFrom(ps: seq<(nat, nat)>, p: (nat, nat))
    ensures forall q | q in InsertPair(ps, p) :: q in ps || q == p
  {
    if ps != [] {
      InsertPairFrom(ps[1..], p);
    }
  }

  /** The records of a manifest as edits; `None` if one is corrupt or names another comparator. */
  function DecodedRecords(records: seq<seq<Byte>>, name: seq<Byte>): Optional<seq<Edit>> {
    if records == [] then Some([])
    else
      var n := |records| - 1;
      match DecodedRecords(records[..n], name)
      case None => None
      case Some(es) =>
        match Decoded(records[n], EMPTY_EDIT)
        case Corruption => None
        case Ok(e) => if e.comparator.Some? && e.comparator.value != name then None else Some(es + [e])
  }

  /** A record that can be replayed: it decodes, and names no other comparator. */
  predicate Replayable(record: seq<Byte>, name: seq<Byte>) {
    var d := Decoded(record, EMPTY_EDIT);
    d.Ok? && (d.edit.comparator.Some? ==> d.edit.comparator.value == name)
  }

  /** The records are replayed if and only if each of them can be, and then as what each of them decodes to. */
  lemma {:induction false} ReplayedIff(records: seq<seq<Byte>>, name: seq<Byte>)
    ensures var r := DecodedRecords(records, name);
      && (r.Some? <==> forall i | 0 <= i < |records| :: Replayable(records[i], name))
      && (r.Some? ==> |r.value| == |records|)
      && (r.Some? ==> forall i | 0 <= i < |records| :: Decoded(records[i], EMPTY_EDIT) == Ok(r.value[i]))
    decreases |records|
  {
    if records != [] {
      var n := |records| - 1;
      ReplayedIff(records[..n], name);
      assert forall i | 0 <= i < n :: records[..n][i] == records[i];
    }
  }

  lemma {:induction false} MoreRecordsFail(records: seq<seq<Byte>>, name: seq<Byte>, i: nat)
    requires i <= |records| && DecodedRecords(records[..i], name).None?
    ensures DecodedRecords(records, name).None?
    decreases |records| - i
  {
    if i < |records| {
      assert records[..i + 1][..i] == records[..i];
      MoreRecordsFail(records, name, i + 1);
    } else {
      assert records[..i] == records;
    }
  }

  /** Counters found in a manifest: for each the last record that has it decides. */
  datatype Counters = Counters(log: Optional<nat>, prev: Optional<nat>, next: Optional<nat>, last: Optional<nat>)

  function Later<T>(older: Optional<T>, newer: Optional<T>): Optional<T> {
    if newer.Some? then newer else older
  }

  function Overlay(c: Counters, e: Edit): Counters {
    Counters(Later(c.log, e.logNumber), Later(c.prev, e.prevLogNumber),
             Later(c.next, e.nextFileNumber), Later(c.last, e.lastSequence))
  }

  function Summary(es: seq<Edit>): Counters {
    if es == [] then Counters(None, None, None, None)
    else Overlay(Summary(es[..|es| - 1]), es[|es| - 1])
  }

  /** The last of the numbers that are there, if there is one. */
  ghost predicate IsLast(numbers: seq<Optional<nat>>, r: Optional<nat>) {
    if r.None? then forall i | 0 <= i < |numbers| :: numbers[i].None?
    else exists i :: 0 <= i < |numbers| && numbers[i] == r && forall j | i < j < |numbers| :: numbers[j].None?
  }

  lemma LastOf(numbers: seq<Optional<nat>>, r: Optional<nat>, n: Optional<nat>)
    requires IsLast(numbers, r)
    ensures IsLast(numbers + [n], Later(r, n))
  {
    if n.Some? {
      assert (numbers + [n])[|numbers|] == n;
    } else if r.Some? {
      var i :| 0 <= i < |numbers| && numbers[i] == r && forall j | i < j < |numbers| :: numbers[j].None?;
      assert (numbers + [n])[i] == r;
    }
  }

  function Logs(es: seq<Edit>): seq<Optional<nat>> {
    if es == [] then [] else Logs(es[..|es| - 1]) + [es[|es| - 1].logNumber]
  }

  function Prevs(es: seq<Edit>): seq<Optional<nat>> {
    if es == [] then [] else Prevs(es[..|es| - 1]) + [es[|es| - 1].prevLogNumber]
  }

  function Nexts(es: seq<Edit>): seq<Optional<nat>> {
    if es == [] then [] else Nexts(es[..|es| - 1]) + [es[|es| - 1].nextFileNumber]
  }

  function Lasts(es: seq<Edit>): seq<Optional<nat>> {
    if es == [] then [] else Lasts(es[..|es| - 1]) + [es[|es| - 1].lastSequence]
  }

  /** Each counter is as it was recorded last, and missing if it was never recorded. */
  lemma {:induction false} SummaryIsLast(es: seq<Edit>)
    ensures var c := Summary(es);
      IsLast(Logs(es), c.log) && IsLast(Prevs(es), c.prev) && IsLast(Nexts(es), c.next) && IsLast(Lasts(es), c.last)
    decreases |es|
  {
    if es != [] {
      var rest, e := es[..|es| - 1], es[|es| - 1];
      var c := Summary(rest);
      SummaryIsLast(rest);
      LastOf(Logs(rest), c.log, e.logNumber);
      LastOf(Prevs(rest), c.prev, e.prevLogNumber);
      LastOf(Nexts(rest), c.next, e.nextFileNumber);
      LastOf(Lasts(rest), c.last, e.lastSequence);
    }
  }

  // ---------- compaction pointers ----------

  /** The pointer of level `l` after `ps`, if it was `k` before. */
  function LastPointer(l: nat, ps: seq<(nat, seq<Byte>)>, k: seq<Byte>): seq<Byte> {
    if ps == [] then k else LastPointer(l, ps[1..], if ps[0].0 == l then ps[0].1 else k)
  }

  const NO_POINTERS: seq<seq<Byte>> := seq(NUM_LEVELS, _ => [])

  /** The pointers of all levels after `ps`. */
  function Repointed(pointers: seq<seq<Byte>>, ps: seq<(nat, seq<Byte>)>): (r: seq<seq<Byte>>)
    ensures |r| == |pointers|
  {
    seq(|pointers|, l requires 0 <= l < |pointers| => LastPointer(l, ps, pointers[l]))
  }

  /** The pointers after a run of edits: for each level the last that was recorded decides. */
  function PointersAfter(pointers: seq<seq<Byte>>, es: seq<Edit>): (r: seq<seq<Byte>>)
    ensures |r| == |pointers|
  {
    if es == [] then pointers
    else Repointed(PointersAfter(pointers, es[..|es| - 1]), es[|es| - 1].compactPointers)
  }

  /** Without an entry for the level its pointer stays. */
  lemma {:induction false} NoneRecorded(l: nat, ps: seq<(nat, seq<Byte>)>, k: seq<Byte>)
    requires forall j | 0 <= j < |ps| :: ps[j].0 != l
    ensures LastPointer(l, ps, k) == k
  {
    if ps != [] {
      NoneRecorded(l, ps[1..], k);
    }
  }

  /** The last entry for the level decides. */
  lemma {:induction false} LastRecorded(l: nat, ps: seq<(nat, seq<Byte>)>, k: seq<Byte>, i: nat)
    requires i < |ps| && ps[i].0 == l && forall j | i < j < |ps| :: ps[j].0 != l
    ensures LastPointer(l, ps, k) == ps[i].1
  {
    if i == 0 {
      NoneRecorded(l, ps[1..], ps[0].1);
    } else {
      LastRecorded(l, ps[1..], if ps[0].0 == l then ps[0].1 else k, i - 1);
    }
  }

  lemma PointersNext(pointers: seq<seq<Byte>>, es: seq<Edit>, e: Edit)
    ensures PointersAfter(pointers, es + [e]) == Repointed(PointersAfter(pointers, es), e.compactPointers)
  {
    assert (es + [e])[..|es|] == es;
  }

  lemma {:induction false} LastPointerAppend(l: nat, a: seq<(nat, seq<Byte>)>, b: seq<(nat, seq<Byte>)>, k: seq<Byte>)
    ensures LastPointer(l, a + b, k) == LastPointer(l, b, LastPointer(l, a, k))
    decreases |a|
  {
    if a == [] {
      assert a + b == b;
    } else {
      assert (a + b)[1..] == a[1..] + b;
      LastPointerAppend(l, a[1..], b, if a[0].0 == l then a[0].1 else k);
    }
  }

  /** Recording the same pointers again changes nothing. */
  lemma {:induction false} LastPointerTwice(l: nat, ps: seq<(nat, seq<Byte>)>, k: seq<Byte>, m: seq<Byte>)
    ensures LastPointer(l, ps, m) == m || LastPointer(l, ps, m) == LastPointer(l, ps, k)
    ensures LastPointer(l, ps, LastPointer(l, ps, k)) == LastPointer(l, ps, k)
  {
    if ps != [] {
      if ps[0].0 != l {
        LastPointerTwice(l, ps[1..], k, m);
      } else {
        LastPointerTwice(l, ps[1..], k, ps[0].1);
      }
    }
  }

  lemma RepointedTwice(pointers: seq<seq<Byte>>, ps: seq<(nat, seq<Byte>)>)
    ensures Repointed(Repointed(pointers, ps), ps) == Repointed(pointers, ps)
  {
    forall l | 0 <= l < |pointers|
      ensures LastPointer(l, ps, LastPointer(l, ps, pointers[l])) == LastPointer(l, ps, pointers[l])
    {
      LastPointerTwice(l, ps, pointers[l], []);
    }
  }

  /** The pointers of the first `n` levels that have one. */
  function SavedPointers(pointers: seq<seq<Byte>>, n: nat): seq<(nat, seq<Byte>)>
    requires n <= |pointers|
  {
    if n == 0 then []
    else SavedPointers(pointers, n - 1) + if pointers[n - 1] == [] then [] else [(n - 1, pointers[n - 1])]
  }

  lemma {:induction false} OnePointer(l: nat, ps: seq<(nat, seq<Byte>)>, level: nat, key: seq<Byte>, k: seq<Byte>)
    requires ps == [(level, key)]
    ensures LastPointer(l, ps, k) == if level == l then key else k
  {
    assert ps[1..] == [];
  }

  lemma OneMorePointer(l: nat, before: seq<(nat, seq<Byte>)>, level: nat, key: seq<Byte>)
    ensures LastPointer(l, before + [(level, key)], []) == if level == l then key else LastPointer(l, before, [])
  {
    LastPointerAppend(l, before, [(level, key)], []);
    OnePointer(l, [(level, key)], level, key, LastPointer(l, before, []));
  }

  lemma {:induction false} SavedPointersRead(l: nat, pointers: seq<seq<Byte>>, n: nat)
    requires n <= |pointers|
    ensures LastPointer(l, SavedPointers(pointers, n), []) == if l < n then pointers[l] else []
  {
    if n > 0 {
      var key, before := pointers[n - 1], SavedPointers(pointers, n - 1);
      SavedPointersRead(l, pointers, n - 1);
      OneMorePointer(l, before, n - 1, key);
      assert SavedPointers(pointers, n) == if key == [] then before else before + [(n - 1, key)] by {
        assert before + [] == before;
      }
    }
  }

  // ---------- snapshots ----------

  function LevelMetas(l: nat, fs: seq<File>, meta: File -> FileMeta): seq<(nat, FileMeta)> {
    seq(|fs|, i requires 0 <= i < |fs| => (l, meta(fs[i])))
  }

  /** The files of the first `n` levels. */
  function Metas(v: Version, n: nat, meta: File -> FileMeta): seq<(nat, FileMeta)>
    requires n <= |v|
  {
    if n == 0 then [] else Metas(v, n - 1, meta) + LevelMetas(n - 1, v[n - 1], meta)
  }

  /** The edit `WriteSnapshot` logs. */
  function SnapshotEdit(name: seq<Byte>, pointers: seq<seq<Byte>>, v: Version, meta: File -> FileMeta): Edit {
    EMPTY_EDIT.(comparator := Some(name), compactPointers := SavedPointers(pointers, |pointers|),
                newFiles := Metas(v, |v|, meta))
  }

  /** Metadata in the manifest leads back to the file. */
  ghost predicate Reopens(v: Version, meta: File -> FileMeta, open: FileMeta -> File) {
    forall l, f | 0 <= l < |v| && f in v[l] :: open(meta(f)) == f
  }

  lemma {:induction false} AddsAppend(l: nat, a: seq<(nat, File)>, b: seq<(nat, File)>)
    ensures AddsAt(l, a + b) == AddsAt(l, a) + AddsAt(l, b)
  {
    if a == [] {
      assert a + b == b;
    } else {
      assert (a + b)[1..] == a[1..] + b;
      AddsAppend(l, a[1..], b);
    }
  }

  lemma {:induction false} LevelAdds(l: nat, k: nat, fs: seq<File>, meta: File -> FileMeta, open: FileMeta -> File)
    requires forall f | f in fs :: open(meta(f)) == f
    ensures AddsAt(l, AddedFiles(LevelMetas(k, fs, meta), open)) == if k == l then fs else []
  {
    if fs != [] {
      var adds := AddedFiles(LevelMetas(k, fs, meta), open);
      assert adds[1..] == AddedFiles(LevelMetas(k, fs[1..], meta), open);
      LevelAdds(l, k, fs[1..], meta, open);
    }
  }

  lemma {:induction false} SnapshotAdds(l: nat, v: Version, n: nat, meta: File -> FileMeta, open: FileMeta -> File)
    requires n <= |v| && Reopens(v, meta, open)
    ensures AddsAt(l, AddedFiles(Metas(v, n, meta), open)) == if l < n then v[l] else []
  {
    if n > 0 {
      var a, b := Metas(v, n - 1, meta), LevelMetas(n - 1, v[n - 1], meta);
      assert AddedFiles(a + b, open) == AddedFiles(a, open) + AddedFiles(b, open);
      AddsAppend(l, AddedFiles(a, open), AddedFiles(b, open));
      SnapshotAdds(l, v, n - 1, meta, open);
      LevelAdds(l, n - 1, v[n - 1], meta, open);
    }
  }

  /** A manifest that starts with a snapshot holds the version the snapshot was taken of. */
  lemma SnapshotHolds(l: nat, name: seq<Byte>, pointers: seq<seq<Byte>>, v: Version, meta: File -> FileMeta,
                      open: FileMeta -> File)
    requires l < |v| && Reopens(v, meta, open) && Ordered(v[l]) && Identified(v[l])
    ensures var es := FileEdits([SnapshotEdit(name, pointers, v, meta)], open);
      Holding(l, es, v[l]) && EverAdded(l, es) == v[l]
  {
    var e := FilesOf(SnapshotEdit(name, pointers, v, meta), open);
    assert FileEdits([SnapshotEdit(name, pointers, v, meta)], open) == [] + [e];
    SnapshotAdds(l, v, |v|, meta, open);
    assert DeletedAt(l, e) == {};
    EverAddedNext(l, [], e);
    assert [] + v[l] == v[l];
    HoldsNext(l, [], e, [], v[l]);
  }

  /** The snapshot has the pointers. */
  lemma SnapshotPointers(name: seq<Byte>, pointers: seq<seq<Byte>>, v: Version, meta: File -> FileMeta)
    requires |pointers| == NUM_LEVELS
    ensures PointersAfter(NO_POINTERS, [SnapshotEdit(name, pointers, v, meta)]) == pointers
  {
    var e := SnapshotEdit(name, pointers, v, meta);
    PointersNext(NO_POINTERS, [], e);
    assert [] + [e] == [e];
    forall l | 0 <= l < NUM_LEVELS ensures LastPointer(l, e.compactPointers, NO_POINTERS[l]) == pointers[l] {
      SavedPointersRead(l, pointers, |pointers|);
    }
  }

  lemma EverAddedNext(l: nat, edits: seq<FileEdit>, e: FileEdit)
    ensures EverAdded(l, edits + [e]) == EverAdded(l, edits) + AddsAt(l, e.added)
  {
    assert (edits + [e])[..|edits|] == edits;
  }

  ghost predicate LevelsIdentified(v: Version)
    requires |v| == NUM_LEVELS
  {
    forall l | 0 <= l < NUM_LEVELS :: Ordered(v[l]) && Identified(v[l])
  }

  ghost predicate LoggedAs(manifest: seq<seq<Byte>>, name: seq<Byte>, edits: seq<Edit>, open: FileMeta -> File,
                           v: Version, logNumber: nat, prevLogNumber: nat)
    requires |v| == NUM_LEVELS
  {
    && ManifestHolds(manifest, name, edits, open, v)
    && Summary(edits).log == Some(logNumber) && Summary(edits).prev == Some(prevLogNumber)
    && Summary(edits).next.Some? && Summary(edits).last.Some?
  }

  // ---------- the object ----------

  class VersionSet {
    const name: seq<Byte>
    const meta: File -> FileMeta
    const open: FileMeta -> File
    var current: Version
    /** For each level the key its next size compaction starts after; empty for none. */
    var compactPointers: seq<seq<Byte>>
    var nextFileNumber: nat
    var lastSequence: nat
    var logNumber: nat
    var prevLogNumber: nat
    var manifestFileNumber: nat
    /** Whether a descriptor log is open, and the records in it. */
    var descriptor: bool
    var manifest: seq<seq<Byte>>
    ghost var edits: seq<Edit>

    ghost predicate CurrentOk()
      reads this
    {
      |current| == NUM_LEVELS && LevelsIdentified(current) && |compactPointers| == NUM_LEVELS
    }

    /** The pointers are those the manifest has. */
    ghost predicate PointersLogged()
      reads this
    {
      compactPointers == PointersAfter(NO_POINTERS, edits)
    }

    /** The manifest replays to the current version and counters. */
    ghost predicate Logged()
      reads this
    {
      |current| == NUM_LEVELS && LoggedAs(manifest, name, edits, open, current, logNumber, prevLogNumber)
    }

    ghost predicate Valid()
      reads this
    {
      CurrentOk() && (descriptor ==> Logged() && PointersLogged())
    }

    constructor (name: seq<Byte>, meta: File -> FileMeta, open: FileMeta -> File)
      ensures Valid() && !descriptor && current == seq(NUM_LEVELS, _ => [])
      ensures compactPointers == NO_POINTERS
      ensures this.name == name && this.meta == meta && this.open == open
    {
      this.name, this.meta, this.open := name, meta, open;
      current, compactPointers := seq(NUM_LEVELS, _ => []), NO_POINTERS;
      nextFileNumber, lastSequence, logNumber, prevLogNumber, manifestFileNumber := 2, 0, 0, 0, 0;
      descriptor, manifest, edits := false, [], [];
    }

    /** The edit with the fields `LogAndApply` fills in. */
    function Completed(e: Edit): Edit
      reads this
    {
      e.(logNumber := Later(Some(logNumber), e.logNumber),
         prevLogNumber := Later(Some(prevLogNumber), e.prevLogNumber),
         nextFileNumber := Some(nextFileNumber),
         lastSequence := Some(lastSequence))
    }

    /** The files added to level `l` since the manifest, or the one about to be started, began. */
    ghost function Known(l: nat): seq<File>
      requires |current| == NUM_LEVELS && l < NUM_LEVELS
      reads this
    {
      if descriptor then EverAdded(l, FileEdits(edits, open)) else current[l]
    }

    method WriteSnapshot() returns (record: seq<Byte>)
      requires |current| == NUM_LEVELS && |compactPointers| == NUM_LEVELS
      ensures record == EncodeItems(Items(SnapshotEdit(name, compactPointers, current, meta)))
    {
      var pointers: seq<(nat, seq<Byte>)> := [];
      for level := 0 to NUM_LEVELS
        invariant pointers == SavedPointers(compactPointers, level)
      {
        if compactPointers[level] != [] {
          pointers := pointers + [(level, compactPointers[level])];
        }
      }
      var files: seq<(nat, FileMeta)> := [];
      for level := 0 to NUM_LEVELS
        invariant files == Metas(current, level, meta)
      {
        for i := 0 to |current[level]|
          invariant files == Metas(current, level, meta) + LevelMetas(level, current[level], meta)[..i]
        {
          files := files + [(level, meta(current[level][i]))];
        }
        assert LevelMetas(level, current[level], meta)[..|current[level]|] == LevelMetas(level, current[level], meta);
      }
      var edit := new VersionEdit();
      edit.comparator := Some(name);
      edit.compactPointers := pointers;
      edit.newFiles := files;
      record := edit.EncodeTo([]);
      assert edit.Contents() == SnapshotEdit(name, compactPointers, current, meta);
      assert [] + EncodeItems(Items(edit.Contents())) == EncodeItems(Items(edit.Contents()));
    }

    /** The first `LogAndApply` starts the manifest with a snapshot. */
    method StartManifest()
      requires CurrentOk() && !descriptor
      requires Reopens(current, meta, open) && Encodable(SnapshotEdit(name, compactPointers, current, meta))
      modifies this`manifest, this`descriptor, this`edits
      ensures descriptor && edits == [SnapshotEdit(name, compactPointers, current, meta)]
      ensures ManifestHolds(manifest, name, edits, open, current)
      ensures forall l | 0 <= l < NUM_LEVELS :: Known(l) == current[l]
    {
      var snapshot := WriteSnapshot();
      manifest, descriptor := [snapshot], true;
      edits := [SnapshotEdit(name, compactPointers, current, meta)];
      StartsLogged(name, compactPointers, current, meta, open);
    }

    /** The fields of the edit that depend on the state of the set. */
    method FillIn(edit: VersionEdit)
      modifies edit
      ensures edit.Contents() == Completed(old(edit.Contents()))
    {
      if edit.logNumber.None? {
        edit.logNumber := Some(logNumber);
      }
      if edit.prevLogNumber.None? {
        edit.prevLogNumber := Some(prevLogNumber);
      }
      edit.nextFileNumber := Some(nextFileNumber);
      edit.lastSequence := Some(lastSequence);
    }

    /** Numbers identify files across everything the manifest has seen. */
    ghost predicate Identifies(e: Edit)
      requires |current| == NUM_LEVELS
      reads this
    {
      forall l | 0 <= l < NUM_LEVELS :: Identified(Known(l) + AddsAt(l, FilesOf(e, open).added))
    }

    /** The part of `Builder::Apply` that changes the set itself. */
    method ApplyPointers(ps: seq<(nat, seq<Byte>)>)
      requires |compactPointers| == NUM_LEVELS && PointerLevelsOk(ps)
      modifies this`compactPointers
      ensures compactPointers == Repointed(old(compactPointers), ps)
    {
      for i := 0 to |ps|
        invariant |compactPointers| == NUM_LEVELS
        invariant forall l | 0 <= l < NUM_LEVELS ::
          LastPointer(l, ps[i..], compactPointers[l]) == LastPointer(l, ps, old(compactPointers[l]))
      {
        assert ps[i..][0] == ps[i] && ps[i..][1..] == ps[i + 1..];
        compactPointers := compactPointers[ps[i].0 := ps[i].1];
      }
    }

    /** With an edit that records `ps` in the manifest, the pointers will be those it has. */
    ghost predicate PointersReady(ps: seq<(nat, seq<Byte>)>)
      reads this
    {
      compactPointers == Repointed(PointersAfter(NO_POINTERS, edits), ps)
    }

    /** `LogAndApply` with successful I/O. */
    method LogAndApply(edit: VersionEdit)
      requires Valid() && PointerLevelsOk(edit.compactPointers)
      requires EditFits(current, FilesOf(edit.Contents(), open)) && Identifies(edit.Contents())
      requires Encodable(Completed(edit.Contents())) && (edit.comparator.Some? ==> edit.comparator.value == name)
      requires !descriptor ==>
        && Reopens(current, meta, open)
        && Encodable(SnapshotEdit(name, Repointed(compactPointers, edit.compactPointers), current, meta))
      modifies this, edit
      ensures Valid() && descriptor
      ensures EditedAll(old(current), FilesOf(old(edit.Contents()), open), current)
      ensures compactPointers == Repointed(old(compactPointers), old(edit.compactPointers))
      ensures logNumber == if old(edit.logNumber).Some? then old(edit.logNumber).value else old(logNumber)
      ensures prevLogNumber ==
        if old(edit.prevLogNumber).Some? then old(edit.prevLogNumber).value else old(prevLogNumber)
      ensures edits == (if old(descriptor) then old(edits)
                        else [SnapshotEdit(name, compactPointers, old(current), meta)])
        + [old(edit.Contents()).(logNumber := Some(logNumber), prevLogNumber := Some(prevLogNumber),
                                 nextFileNumber := Some(nextFileNumber), lastSequence := Some(lastSequence))]
      ensures Summary(edits) ==
        Counters(Some(logNumber), Some(prevLogNumber), Some(old(nextFileNumber)), Some(old(lastSequence)))
      ensures nextFileNumber == old(nextFileNumber) && lastSequence == old(lastSequence)
    {
      var v := NextVersion(edit);
      LogVersion(edit, v);
    }

    /** The edit is completed and applied to the current version. */
    method NextVersion(edit: VersionEdit) returns (v: Version)
      requires CurrentOk() && EditFits(current, FilesOf(edit.Contents(), open)) && Identifies(edit.Contents())
      modifies edit
      ensures edit.Contents() == Completed(old(edit.Contents()))
      ensures EditedAll(current, FilesOf(edit.Contents(), open), v) && Identifies(edit.Contents())
      ensures FilesOf(edit.Contents(), open) == FilesOf(old(edit.Contents()), open)
    {
      ghost var files := FilesOf(edit.Contents(), open);
      FillIn(edit);
      assert FilesOf(edit.Contents(), open) == files;
      v := ApplyEdit(current, FilesOf(edit.Contents(), open));
    }

    /** The manifest is started if there is none, and the version installed. */
    method LogVersion(edit: VersionEdit, v: Version)
      requires Valid() && PointerLevelsOk(edit.compactPointers)
      requires EditedAll(current, FilesOf(edit.Contents(), open), v) && Identifies(edit.Contents())
      requires Encodable(edit.Contents()) && (edit.comparator.Some? ==> edit.comparator.value == name)
      requires edit.logNumber.Some? && edit.prevLogNumber.Some?
      requires edit.nextFileNumber == Some(nextFileNumber) && edit.lastSequence == Some(lastSequence)
      requires !descriptor ==>
        && Reopens(current, meta, open)
        && Encodable(SnapshotEdit(name, Repointed(compactPointers, edit.compactPointers), current, meta))
      modifies this
      ensures Valid() && descriptor && current == v
      ensures Some(logNumber) == edit.logNumber && Some(prevLogNumber) == edit.prevLogNumber
      ensures compactPointers == Repointed(old(compactPointers), edit.compactPointers)
      ensures edits == (if old(descriptor) then old(edits)
                        else [SnapshotEdit(name, compactPointers, old(current), meta)]) + [edit.Contents()]
      ensures Summary(edits) ==
        Counters(Some(logNumber), Some(prevLogNumber), Some(nextFileNumber), Some(lastSequence))
      ensures nextFileNumber == old(nextFileNumber) && lastSequence == old(lastSequence)
    {
      PrepareManifest(edit.compactPointers);
      Install(edit, v);
    }

    /** The pointers of the edit are applied; then the first call starts the manifest, with the new pointers. */
    method PrepareManifest(ps: seq<(nat, seq<Byte>)>)
      requires Valid() && PointerLevelsOk(ps)
      requires !descriptor ==>
        Reopens(current, meta, open) && Encodable(SnapshotEdit(name, Repointed(compactPointers, ps), current, meta))
      modifies this`compactPointers, this`manifest, this`descriptor, this`edits
      ensures descriptor && ManifestHolds(manifest, name, edits, open, current)
      ensures compactPointers == Repointed(old(compactPointers), ps) && PointersReady(ps)
      ensures forall l | 0 <= l < NUM_LEVELS :: Known(l) == old(Known(l))
      ensures edits == if old(descriptor) then old(edits) else [SnapshotEdit(name, compactPointers, current, meta)]
    {
      ApplyPointers(ps);
      if !descriptor {
        StartManifest();
        SnapshotPointers(name, compactPointers, current, meta);
        RepointedTwice(old(compactPointers), ps);
      }
    }

    /** The record is written and the new version installed. */
    method Install(edit: VersionEdit, v: Version)
      requires descriptor && |current| == NUM_LEVELS && ManifestHolds(manifest, name, edits, open, current)
      requires PointersReady(edit.compactPointers)
      requires EditedAll(current, FilesOf(edit.Contents(), open), v) && Identifies(edit.Contents())
      requires Encodable(edit.Contents()) && (edit.comparator.Some? ==> edit.comparator.value == name)
      requires edit.logNumber.Some? && edit.prevLogNumber.Some?
      requires edit.nextFileNumber == Some(nextFileNumber) && edit.lastSequence == Some(lastSequence)
      modifies this`manifest, this`edits, this`current, this`logNumber, this`prevLogNumber
      ensures Valid() && current == v && edits == old(edits) + [edit.Contents()]
      ensures Some(logNumber) == edit.logNumber && Some(prevLogNumber) == edit.prevLogNumber
      ensures Summary(edits) ==
        Counters(Some(logNumber), Some(prevLogNumber), Some(nextFileNumber), Some(lastSequence))
    {
      var record := edit.EncodeTo([]);
      AddRecord(record, edit.Contents(), v, edit.logNumber.value, edit.prevLogNumber.value);
    }

    method AddRecord(record: seq<Byte>, ghost e: Edit, v: Version, log: nat, prev: nat)
      requires descriptor && |current| == NUM_LEVELS && ManifestHolds(manifest, name, edits, open, current)
      requires PointersReady(e.compactPointers)
      requires record == [] + EncodeItems(Items(e)) && EditedAll(current, FilesOf(e, open), v) && Identifies(e)
      requires Encodable(e) && (e.comparator.Some? ==> e.comparator.value == name)
      requires e.logNumber == Some(log) && e.prevLogNumber == Some(prev)
      requires e.nextFileNumber == Some(nextFileNumber) && e.lastSequence == Some(lastSequence)
      modifies `manifest, `edits, `current, `logNumber, `prevLogNumber
      ensures Valid() && current == v && edits == old(edits) + [e] && logNumber == log && prevLogNumber == prev
      ensures Summary(edits) ==
        Counters(Some(logNumber), Some(prevLogNumber), Some(nextFileNumber), Some(lastSequence))
    {
      ghost var es := edits + [e];
      var records := manifest + [record];
      assert record == EncodeItems(Items(e));
      MoreLogged(manifest, edits, e, name, open, current, v, log, prev);
      SummaryEnds(edits, e, log, prev, nextFileNumber, lastSequence);
      assert compactPointers == PointersAfter(NO_POINTERS, es) by {
        PointersNext(NO_POINTERS, edits, e);
      }
      SetManifest(records, es, v, log, prev);
    }

    method SetManifest(records: seq<seq<Byte>>, ghost es: seq<Edit>, v: Version, log: nat, prev: nat)
      requires |v| == NUM_LEVELS && LevelsIdentified(v) && LoggedAs(records, name, es, open, v, log, prev)
      requires compactPointers == PointersAfter(NO_POINTERS, es)
      modifies `manifest, `edits, `current, `logNumber, `prevLogNumber
      ensures Valid() && current == v && edits == es && logNumber == log && prevLogNumber == prev
    {
      manifest, edits, current, logNumber, prevLogNumber := records, es, v, log, prev;
    }

    /** The builder has replayed `es` on an empty version. */
    ghost predicate BuilderHolds(builder: Builder, es: seq<Edit>)
      reads builder
    {
      && builder.Valid() && builder.base == seq(NUM_LEVELS, _ => [])
      && forall l | 0 <= l < NUM_LEVELS ::
           (builder.deleted[l], builder.added[l]) == Accumulated(l, FileEdits(es, open))
    }

    /** One turn of the loop of `Recover`: a fresh edit is decoded and applied. */
    method ReplayRecord(builder: Builder, record: seq<Byte>, ghost es: seq<Edit>) returns (ok: bool, e: Edit)
      requires BuilderHolds(builder, es) && |compactPointers| == NUM_LEVELS
      modifies builder, this`compactPointers
      ensures ok <==> var d := Decoded(record, EMPTY_EDIT);
        d.Ok? && (d.edit.comparator.Some? ==> d.edit.comparator.value == name)
      ensures ok ==> Decoded(record, EMPTY_EDIT) == Ok(e) && BuilderHolds(builder, es + [e])
      ensures ok ==> compactPointers == Repointed(old(compactPointers), e.compactPointers)
    {
      var edit := new VersionEdit();
      ok := edit.DecodeFrom(record);
      e := edit.Contents();
      ok := ok && (edit.comparator.Some? ==> edit.comparator.value == name);
      if ok {
        DecodedLevels(record, EMPTY_EDIT);
        ApplyPointers(e.compactPointers);
        builder.Apply(FilesOf(e, open));
        FileEditsNext(es, e, open);
        forall l | 0 <= l < NUM_LEVELS
          ensures (builder.deleted[l], builder.added[l]) == Accumulated(l, FileEdits(es + [e], open))
        {
          AccumulatedNext(l, FileEdits(es, open), FilesOf(e, open));
        }
      }
    }

    /** `Recover` from the records of a manifest. */
    method Recover(records: seq<seq<Byte>>) returns (ok: bool)
      requires |compactPointers| == NUM_LEVELS
      modifies this
      ensures ok <==> var d := DecodedRecords(records, name);
        d.Some? && Summary(d.value).next.Some? && Summary(d.value).log.Some? && Summary(d.value).last.Some?
      ensures ok ==>
        var es := DecodedRecords(records, name).value;
        && |current| == NUM_LEVELS
        && (forall l | 0 <= l < NUM_LEVELS :: Replayed(l, es, open, current[l]))
        && compactPointers == PointersAfter(old(compactPointers), es)
        && manifestFileNumber == Summary(es).next.value && nextFileNumber == manifestFileNumber + 1
        && lastSequence == Summary(es).last.value && logNumber == Summary(es).log.value
        && prevLogNumber == (if Summary(es).prev.Some? then Summary(es).prev.value else 0)
    {
      var builder := new Builder(seq(NUM_LEVELS, _ => []));
      ghost var es;
      var c;
      ok, c, es := ReplayRecords(builder, records);
      if !ok || c.next.None? || c.log.None? || c.last.None? {
        return false;
      }
      var v := builder.SaveTo();
      SetRecovered(v, c.next.value, c.last.value, c.log.value, if c.prev.Some? then c.prev.value else 0);
    }

    /** The loop of `Recover`. */
    method ReplayRecords(builder: Builder, records: seq<seq<Byte>>)
      returns (ok: bool, c: Counters, ghost es: seq<Edit>)
      requires BuilderHolds(builder, []) && |compactPointers| == NUM_LEVELS
      modifies builder, this`compactPointers
      ensures ok <==> DecodedRecords(records, name).Some?
      ensures ok ==> DecodedRecords(records, name) == Some(es) && c == Summary(es) && BuilderHolds(builder, es)
      ensures ok ==> compactPointers == PointersAfter(old(compactPointers), es)
    {
      var log, prev, next, last := None, None, None, None;
      c, es := Counters(None, None, None, None), [];
      for i := 0 to |records|
        invariant DecodedRecords(records[..i], name) == Some(es)
        invariant Summary(es) == Counters(log, prev, next, last)
        invariant BuilderHolds(builder, es)
        invariant compactPointers == PointersAfter(old(compactPointers), es)
      {
        assert records[..i + 1][..i] == records[..i];
        var e;
        ok, e := ReplayRecord(builder, records[i], es);
        if !ok {
          MoreRecordsFail(records, name, i + 1);
          return;
        }
        log, prev := Later(log, e.logNumber), Later(prev, e.prevLogNumber);
        next, last := Later(next, e.nextFileNumber), Later(last, e.lastSequence);
        PointersNext(old(compactPointers), es, e);
        assert (es + [e])[..|es|] == es;
        es := es + [e];
      }
      assert records[..|records|] == records;
      ok, c := true, Counters(log, prev, next, last);
    }

    method SetRecovered(v: Version, next: nat, last: nat, log: nat, prev: nat)
      modifies `current, `manifestFileNumber, `nextFileNumber, `lastSequence, `logNumber, `prevLogNumber
      ensures current == v && manifestFileNumber == next && nextFileNumber == next + 1 && lastSequence == last
      ensures logNumber == log && prevLogNumber == prev
    {
      current, manifestFileNumber, nextFileNumber := v, next, next + 1;
      lastSequence, logNumber, prevLogNumber := last, log, prev;
    }
  }

  // ---------- what replaying gives ----------

  /** What a recovered level is. */
  ghost predicate Replayed(l: nat, es: seq<Edit>, open: FileMeta -> File, level: seq<File>) {
    Holds(Accumulated(l, FileEdits(es, open)).0, Accumulated(l, FileEdits(es, open)).1, level)
  }

  ghost predicate LevelLogged(l: nat, es: seq<Edit>, open: FileMeta -> File, level: seq<File>) {
    Holding(l, FileEdits(es, open), level) && Identified(EverAdded(l, FileEdits(es, open)))
  }

  /** The records decode to `es`, and replaying those gives `v`. */
  ghost predicate ManifestHolds(records: seq<seq<Byte>>, name: seq<Byte>, es: seq<Edit>, open: FileMeta -> File,
                                v: Version)
    requires |v| == NUM_LEVELS
  {
    && DecodedRecords(records, name) == Some(es)
    && forall l | 0 <= l < NUM_LEVELS :: LevelLogged(l, es, open, v[l])
  }

  lemma FileEditsNext(es: seq<Edit>, e: Edit, open: FileMeta -> File)
    ensures FileEdits(es + [e], open) == FileEdits(es, open) + [FilesOf(e, open)]
  {
  }

  lemma RecordDecodes(records: seq<seq<Byte>>, es: seq<Edit>, e: Edit, name: seq<Byte>)
    requires DecodedRecords(records, name) == Some(es) && Encodable(e)
    requires e.comparator.Some? ==> e.comparator.value == name
    ensures DecodedRecords(records + [EncodeItems(Items(e))], name) == Some(es + [e])
  {
    var all := records + [EncodeItems(Items(e))];
    assert all[..|records|] == records;
    DecodeUndoesEncode(e, EMPTY_EDIT);
    assert Cleared(EMPTY_EDIT) == EMPTY_EDIT && [] + e.compactPointers == e.compactPointers;
  }

  lemma StartsLogged(name: seq<Byte>, pointers: seq<seq<Byte>>, v: Version, meta: File -> FileMeta,
                     open: FileMeta -> File)
    requires |v| == NUM_LEVELS && (forall l | 0 <= l < NUM_LEVELS :: Ordered(v[l]) && Identified(v[l]))
    requires Reopens(v, meta, open) && Encodable(SnapshotEdit(name, pointers, v, meta))
    ensures var s := SnapshotEdit(name, pointers, v, meta);
      && ManifestHolds([EncodeItems(Items(s))], name, [s], open, v)
      && forall l | 0 <= l < NUM_LEVELS :: EverAdded(l, FileEdits([s], open)) == v[l]
  {
    var s := SnapshotEdit(name, pointers, v, meta);
    RecordDecodes([], [], s, name);
    assert [] + [EncodeItems(Items(s))] == [EncodeItems(Items(s))] && [] + [s] == [s];
    forall l | 0 <= l < NUM_LEVELS
      ensures LevelLogged(l, [s], open, v[l]) && EverAdded(l, FileEdits([s], open)) == v[l]
    {
      SnapshotHolds(l, name, pointers, v, meta, open);
    }
  }

  /** The last edit that has the counters decides them. */
  lemma SummaryEnds(es: seq<Edit>, e: Edit, log: nat, prev: nat, next: nat, last: nat)
    requires e.logNumber == Some(log) && e.prevLogNumber == Some(prev)
    requires e.nextFileNumber == Some(next) && e.lastSequence == Some(last)
    ensures Summary(es + [e]) == Counters(Some(log), Some(prev), Some(next), Some(last))
  {
    assert (es + [e])[..|es|] == es;
  }

  lemma MoreLogged(records: seq<seq<Byte>>, es: seq<Edit>, e: Edit, name: seq<Byte>, open: FileMeta -> File,
                   v: Version, v': Version, log: nat, prev: nat)
    requires e.logNumber == Some(log) && e.prevLogNumber == Some(prev)
    requires e.nextFileNumber.Some? && e.lastSequence.Some?
    requires EditedAll(v, FilesOf(e, open), v') && ManifestHolds(records, name, es, open, v)
    requires Encodable(e) && (e.comparator.Some? ==> e.comparator.value == name)
    requires forall l | 0 <= l < NUM_LEVELS ::
      Identified(EverAdded(l, FileEdits(es, open)) + AddsAt(l, FilesOf(e, open).added))
    ensures LoggedAs(records + [EncodeItems(Items(e))], name, es + [e], open, v', log, prev) && LevelsIdentified(v')
  {
    RecordDecodes(records, es, e, name);
    assert (es + [e])[..|es|] == es;
    FileEditsNext(es, e, open);
    forall l | 0 <= l < NUM_LEVELS
      ensures LevelLogged(l, es + [e], open, v'[l]) && Ordered(v'[l]) && Identified(v'[l])
    {
      EverAddedNext(l, FileEdits(es, open), FilesOf(e, open));
      HoldsNext(l, FileEdits(es, open), FilesOf(e, open), v[l], v'[l]);
    }
  }

  /**
   Manifest replay: after any sequence of `LogAndApply`, whatever `Recover` of a new set reads from the
   records is the current version, with the compaction pointers and log numbers it has.
  */
  lemma RecoveredIsCurrent(vs: VersionSet, v: Version, pointers: seq<seq<Byte>>, c: Counters)
    requires vs.Valid() && vs.descriptor && |v| == NUM_LEVELS
    requires var es := DecodedRecords(vs.manifest, vs.name).value;
      && (forall l | 0 <= l < NUM_LEVELS :: Replayed(l, es, vs.open, v[l]))
      && pointers == PointersAfter(NO_POINTERS, es) && c == Summary(es)
    ensures v == vs.current && pointers == vs.compactPointers
    ensures c.log == Some(vs.logNumber) && c.prev == Some(vs.prevLogNumber)
  {
    assert ManifestHolds(vs.manifest, vs.name, vs.edits, vs.open, vs.current);
    forall l | 0 <= l < NUM_LEVELS ensures v[l] == vs.current[l] {
      assert LevelLogged(l, vs.edits, vs.open, vs.current[l]);
      OrderedUnique(v[l], vs.current[l]);
    }
  }
}
