/**
 A run of the store, from the empty database, after which a deleted key is back: a snapshot keeps
 two versions of key 5, an output file reaches the size limit between them, and a later compaction
 takes in only the file with the deletion marker.
*/
module ResurrectionExample {
  import opened InternalKeys
  import opened FlatMap
  import opened Runs
  import opened Versions
  import opened InputSelection
  import opened OutputFiles
  import opened Compactions
  import opened Install
  import opened Database
  import opened Resurrection

  // ---------- table sizes ----------

  const BLOCK_SIZE: nat := 1024

  /** Bytes of an internal key: user key 5 is 2000 bytes long, the others have one. */
  function KeyBytes(u: UserKey): nat {
    8 + if u == 5 then 2000 else 1
  }

  function VarintBytes(n: nat): nat {
    if n < 0x80 then 1 else if n < 0x4000 then 2 else 3
  }

  /** Bytes of an entry in a block without prefix compression, its restart offset included. */
  function EntryBytes(e: Entry): nat {
    1 + VarintBytes(KeyBytes(e.key.user)) + VarintBytes(|e.value|) + KeyBytes(e.key.user) + |e.value| + 4
  }

  /** A table builder: bytes in finished blocks, and in the block being built. */
  datatype Builder = Builder(offset: nat, block: nat)

  /** `TableBuilder::Add`: a block that is big enough is written out, with its restart count and trailer. */
  function Add(b: Builder, e: Entry): Builder {
    var block := b.block + EntryBytes(e);
    if block + 4 >= BLOCK_SIZE then Builder(b.offset + block + 9, 0) else Builder(b.offset, block)
  }

  function AddAll(es: seq<Entry>): Builder {
    if es == [] then Builder(0, 0) else Add(AddAll(es[..|es| - 1]), es[|es| - 1])
  }

  function FileBytes(es: seq<Entry>): nat {
    AddAll(es).offset
  }

  /** The last block and the footer are added; no decision of this run looks at the index block. */
  function FinishedBytes(es: seq<Entry>): nat {
    var b := AddAll(es);
    b.offset + (if b.block == 0 then 0 else b.block + 9) + 48
  }

  /** The smallest size limit, blocks of one kilobyte, a restart at each entry, no compression. */
  const SIZES := TableSizes(MIN_FILE_SIZE, FileBytes, FinishedBytes)

  // ---------- entries and files ----------

  function Zeros(n: nat): (r: Bytes)
    ensures |r| == n
  {
    seq(n, _ => 0)
  }

  const X: Bytes := [7]
  const BIG: Bytes := Zeros(1_047_000)
  const VALUE_5 := Entry(InternalKey(5, 1, TypeValue), X)
  const DELETE_5 := Entry(InternalKey(5, 2, TypeDeletion), [])

  function ValueOf1(sequence: nat): Bytes {
    if sequence == 4 then BIG else []
  }

  function Put1(sequence: nat): Entry {
    Entry(InternalKey(1, sequence, TypeValue), ValueOf1(sequence))
  }

  function MakeFile(number: nat, es: seq<Entry>): File
    requires es != []
  {
    File(number, SIZES.finishedSize(es), es[0].key, es[|es| - 1].key, es)
  }

  const FILE_A := MakeFile(2, [Put1(3), DELETE_5, VALUE_5])
  const FILE_B := MakeFile(3, [Put1(4)])
  const FILE_F := MakeFile(4, [Put1(4), Put1(3), DELETE_5])
  const FILE_G := MakeFile(5, [VALUE_5])
  const FILE_C := MakeFile(6, [Put1(5)])
  const FILE_H := MakeFile(7, [Put1(5)])

  const CUTTING_1 := Cutting([Put1(4), Put1(3), DELETE_5, VALUE_5], [], SIZES)
  const CUTTING_2 := Cutting([Put1(5), Put1(4), Put1(3), DELETE_5], [], SIZES)

  function OnLevels(level1: seq<File>, level2: seq<File>): Version {
    [[], level1, level2, [], [], [], []]
  }

  const W1 := {VALUE_5}
  const W3 := {VALUE_5, DELETE_5, Put1(3)}
  const W4 := {VALUE_5, DELETE_5, Put1(3), Put1(4)}
  const W5 := {VALUE_5, DELETE_5, Put1(3), Put1(4), Put1(5)}

  const EMPTY := OnLevels([], [])
  const S0 := State([], NoImm, EMPTY, 0, [], 2, {})
  const S1 := State([VALUE_5], NoImm, EMPTY, 1, [], 2, W1)
  const S2 := S1.(snapshots := [1])
  const S3 := State([Put1(3), DELETE_5, VALUE_5], NoImm, EMPTY, 3, [1], 2, W3)
  const S4 := S3.(mem := [], imm := Imm([Put1(3), DELETE_5, VALUE_5]))
  const S5 := State([], NoImm, OnLevels([], [FILE_A]), 3, [1], 3, W3)
  const S6 := S5.(mem := [Put1(4)], lastSequence := 4, written := W4)
  const S7 := S6.(mem := [], imm := Imm([Put1(4)]))
  const S8 := State([], NoImm, OnLevels([FILE_B], [FILE_A]), 4, [1], 4, W4)
  const S9 := State([], NoImm, OnLevels([], [FILE_F, FILE_G]), 4, [1], 6, W4)
  const S10 := S9.(snapshots := [])
  const S11 := S10.(mem := [Put1(5)], lastSequence := 5, written := W5)
  const S12 := S11.(mem := [], imm := Imm([Put1(5)]))
  const S13 := State([], NoImm, OnLevels([FILE_C], [FILE_F, FILE_G]), 5, [], 7, W5)
  const S14 := State([], NoImm, OnLevels([], [FILE_H, FILE_G]), 5, [], 8, W5)

  lemma OneOp(op: Op, first: nat)
    ensures Elements(BatchEntries([op], first)) == {Entry(InternalKey(op.user, first, op.kind), op.value)}
  {
    assert BatchEntries([op], first) == [Entry(InternalKey(op.user, first, op.kind), op.value)];
  }

  lemma FirstWrites()
    ensures WriteStep(S0, S1, [Op(5, TypeValue, X)]) && WriteStep(S5, S6, [Op(1, TypeValue, BIG)])
  {
    OneOp(Op(5, TypeValue, X), 1);
    OneOp(Op(1, TypeValue, BIG), 4);
    assert Elements([VALUE_5]) == {VALUE_5} && Elements([Put1(4)]) == {Put1(4)};
  }

  lemma LastWrite()
    ensures WriteStep(S10, S11, [Op(1, TypeValue, [])])
  {
    OneOp(Op(1, TypeValue, []), 5);
    assert Elements([Put1(5)]) == {Put1(5)};
  }

  lemma WriteOfTwo()
    ensures WriteStep(S2, S3, [Op(5, TypeDeletion, []), Op(1, TypeValue, [])])
  {
    var two := [Op(5, TypeDeletion, []), Op(1, TypeValue, [])];
    assert two[1..] == [Op(1, TypeValue, [])];
    assert BatchEntries(two[1..], 3) == [Put1(3)] by {
      assert two[1..][1..] == [];
    }
    assert BatchEntries(two, 2) == [DELETE_5, Put1(3)];
    assert Elements([DELETE_5, Put1(3)]) == {DELETE_5, Put1(3)};
    assert Elements(S2.mem) == {VALUE_5};
    assert Elements(S3.mem) == {Put1(3), DELETE_5, VALUE_5};
  }

  lemma FirstFlush()
    ensures FlushStep(S4, S5, 2, FILE_A)
  {
    assert Replaces([], [], [FILE_A], [FILE_A]);
  }

  lemma SecondFlush()
    ensures FlushStep(S7, S8, 1, FILE_B)
  {
    assert Replaces([], [], [FILE_B], [FILE_B]);
  }

  lemma ThirdFlush()
    ensures FlushStep(S12, S13, 1, FILE_C)
  {
    assert Replaces([], [], [FILE_C], [FILE_C]);
  }

  // ---------- the two compactions ----------

  lemma SinglePick(v: Version, f: File, g: File, others: seq<File>)
    requires |v| == NUM_LEVELS && v[1] == [f] && v[2] == [g] + others
    requires f.smallest.user == f.largest.user == 1 && g.smallest.user == 1 && g.largest.user >= 1
    requires forall h | h in others :: h.smallest.user > 1
    ensures PickOk(v, 1, [f], [g])
  {
    assert IsRange([f], f.smallest, f.largest) by {
      assert f in [f] && !Before(f.smallest, f.smallest) && !Before(f.largest, f.largest);
    }
    OnlyFirst(g, others, |others| + 1);
    MakesPick(v, 1, [f], [g], f.smallest, f.largest);
  }

  lemma {:induction false} OnlyFirst(g: File, others: seq<File>, n: nat)
    requires 1 <= n <= |others| + 1
    requires g.smallest.user == 1 && g.largest.user >= 1 && forall h | h in others :: h.smallest.user > 1
    ensures OverlappingUpTo([g] + others, n, At(1), At(1)) == [g]
  {
    if n == 1 {
      assert OverlappingUpTo([g] + others, 0, At(1), At(1)) == [];
    } else {
      OnlyFirst(g, others, n - 1);
      assert ([g] + others)[n - 1] in others;
    }
  }

  lemma OneFile(f: File)
    ensures Content([f]) == Elements(f.entries)
  {
    assert f in [f];
  }

  lemma TwoFiles(f: File, g: File)
    ensures Content([f, g]) == Elements(f.entries) + Elements(g.entries)
  {
    assert f in [f, g] && g in [f, g] && forall h | h in [f, g] :: h == f || h == g;
  }

  lemma ThreeEntries(a: Entry, b: Entry, c: Entry)
    ensures Elements([a, b, c]) == {a, b, c}
  {
  }

  lemma ContentBefore()
    ensures Merged([FILE_B], [FILE_A]) == W4
    ensures Content([FILE_F, FILE_G]) == W4
  {
    OneFile(FILE_B);
    OneFile(FILE_A);
    TwoFiles(FILE_F, FILE_G);
    ThreeEntries(Put1(3), DELETE_5, VALUE_5);
    ThreeEntries(Put1(4), Put1(3), DELETE_5);
    assert Elements([VALUE_5]) == {VALUE_5} && Elements([Put1(4)]) == {Put1(4)};
  }

  lemma ContentAfter()
    ensures Merged([FILE_C], [FILE_F]) == {Put1(5), Put1(4), Put1(3), DELETE_5}
    ensures Content([FILE_H]) == {Put1(5)}
  {
    OneFile(FILE_C);
    OneFile(FILE_F);
    OneFile(FILE_H);
    ThreeEntries(Put1(4), Put1(3), DELETE_5);
    assert Elements([Put1(5)]) == {Put1(5)};
  }

  /** At snapshot 1 nothing may be dropped. */
  lemma FirstKept(base: UserKey -> bool)
    ensures Kept(W4, base, 1) == W4
  {
    forall e | e in W4 ensures !Dropped(W4, base, 1, e) {
    }
  }

  /** With no snapshot, the deletion marker and the hidden values go. */
  lemma SecondKept(base: UserKey -> bool)
    requires base(5)
    ensures Kept({Put1(5), Put1(4), Put1(3), DELETE_5}, base, 5) == {Put1(5)}
  {
    var merged := {Put1(5), Put1(4), Put1(3), DELETE_5};
    assert Put1(5) in merged && Shadowed(merged, 5, Put1(4)) && Shadowed(merged, 5, Put1(3));
    assert Obsolete(base, 5, DELETE_5);
    assert !Dropped(merged, base, 5, Put1(5));
  }

  lemma FirstReplaces()
    ensures Replaces([FILE_B], [FILE_B], [], [])
    ensures Replaces([FILE_A], [FILE_A], [FILE_F, FILE_G], [FILE_F, FILE_G])
  {
  }

  lemma SecondReplaces()
    ensures Replaces([FILE_C], [FILE_C], [], [])
    ensures Replaces([FILE_F, FILE_G], [FILE_F], [FILE_H], [FILE_H, FILE_G])
  {
  }

  lemma FirstOutputs()
    ensures FilesOk([FILE_F, FILE_G]) && SortedLevel([FILE_F, FILE_G])
  {
  }

  lemma FirstOutputsKept()
    ensures Content([FILE_F, FILE_G]) == Kept(Merged([FILE_B], [FILE_A]), BaseOf(S8, 1), 1)
  {
    ContentBefore();
    FirstKept(BaseOf(S8, 1));
  }

  // ---------- where the outputs are cut ----------

  /** With nothing on the level after next there is never a reason to stop. */
  lemma {:induction false} NoGrandparents(c: Cutting, i: nat)
    requires c.grandparents == [] && i < |c.merged|
    ensures Overlap(c, i) == 0 && !Stops(c, i)
  {
    if i > 0 {
      NoGrandparents(c, i - 1);
    }
  }

  lemma NoStopBetween(c: Cutting, a: InternalKey, b: InternalKey)
    requires c.grandparents == []
    ensures !StopBetween(c, a, b)
  {
    forall i | 0 <= i < |c.merged| ensures !Stops(c, i) {
      NoGrandparents(c, i);
    }
  }

  lemma AddedOne(es: seq<Entry>, e: Entry)
    ensures AddAll(es + [e]) == Add(AddAll(es), e)
  {
    assert (es + [e])[..|es + [e]| - 1] == es;
  }

  /** The file reaches the limit with the deletion marker of key 5, and not before. */
  lemma SizesOfF()
    ensures AddAll([Put1(4)]).offset < MIN_FILE_SIZE && AddAll([Put1(4), Put1(3)]).offset < MIN_FILE_SIZE
    ensures AddAll([Put1(4), Put1(3), DELETE_5]).offset >= MIN_FILE_SIZE
  {
    AddedOne([], Put1(4));
    AddedOne([Put1(4)], Put1(3));
    AddedOne([Put1(4), Put1(3)], DELETE_5);
    assert [] + [Put1(4)] == [Put1(4)] && [Put1(4)] + [Put1(3)] == [Put1(4), Put1(3)];
    assert [Put1(4), Put1(3)] + [DELETE_5] == [Put1(4), Put1(3), DELETE_5];
  }

  lemma FirstCuts()
    ensures CutsOk(CUTTING_1, [FILE_F, FILE_G])
  {
    SizesOfF();
    var es := FILE_F.entries;
    forall p | 1 <= p < |es| ensures GoesOn(CUTTING_1, es, p) {
      NoStopBetween(CUTTING_1, es[p - 1].key, es[p].key);
      assert es[..p] == if p == 1 then [Put1(4)] else [Put1(4), Put1(3)];
    }
    assert CutBehind(CUTTING_1, [FILE_F, FILE_G], 0);
  }

  lemma FourSorted(a: Entry, b: Entry, c: Entry, d: Entry)
    requires Before(a.key, b.key) && Before(b.key, c.key) && Before(c.key, d.key)
    ensures Sorted([a, b, c, d])
  {
    assert Before(a.key, c.key) && Before(b.key, d.key) && Before(a.key, d.key);
  }

  lemma FirstCutStep()
    ensures CutStep(S8.version, 1, [FILE_B], [FILE_A], [FILE_F, FILE_G], CUTTING_1)
  {
    FirstCuts();
    FirstMerged();
    NoFilesAbove(S8.version, FILE_B, FILE_A);
  }

  lemma FirstMerged()
    ensures Sorted(CUTTING_1.merged) && Elements(CUTTING_1.merged) == Merged([FILE_B], [FILE_A])
  {
    ContentBefore();
    FourSorted(Put1(4), Put1(3), DELETE_5, VALUE_5);
    FourEntries(Put1(4), Put1(3), DELETE_5, VALUE_5);
  }

  lemma SecondCutStep()
    ensures CutStep(S13.version, 1, [FILE_C], [FILE_F], [FILE_H], CUTTING_2)
  {
    SecondCuts();
    SecondMerged();
    NoFilesAbove(S13.version, FILE_C, FILE_F);
  }

  lemma SecondCuts()
    ensures CutsOk(CUTTING_2, [FILE_H])
  {
  }

  lemma SecondMerged()
    ensures Sorted(CUTTING_2.merged) && Elements(CUTTING_2.merged) == Merged([FILE_C], [FILE_F])
  {
    ContentAfter();
    FourSorted(Put1(5), Put1(4), Put1(3), DELETE_5);
    FourEntries(Put1(5), Put1(4), Put1(3), DELETE_5);
  }

  lemma FourEntries(a: Entry, b: Entry, c: Entry, d: Entry)
    ensures Elements([a, b, c, d]) == {a, b, c, d}
  {
  }

  lemma NoFilesAbove(v: Version, f: File, g: File)
    requires |v| == NUM_LEVELS && v[3] == []
    requires !Before(g.smallest, f.smallest) && !Before(g.largest, f.largest)
    ensures GrandparentsOk(v, 1, [f], [g], [])
  {
    assert [f] + [g] == [f, g] && f in [f, g] && g in [f, g];
    assert IsRange([f] + [g], f.smallest, g.largest);
    assert Overlapping(v[3], At(f.smallest.user), At(g.largest.user)) == [];
  }

  // ---------- the steps of the run ----------

  lemma FirstCompaction()
    ensures CompactStep(S8, S9, 1, [FILE_B], [FILE_A], [FILE_F, FILE_G])
  {
    FirstPick();
    FirstOutputsKept();
    FirstOutputs();
    FirstCompacted();
  }

  lemma FirstCompacted()
    ensures Compacted(S8.version, 1, [FILE_B], [FILE_A], [FILE_F, FILE_G], S9.version)
  {
    FirstReplaces();
    assert S8.version[1] == [FILE_B] && S8.version[2] == [FILE_A];
    assert S9.version[1] == [] && S9.version[2] == [FILE_F, FILE_G];
  }

  lemma FirstPick()
    ensures PickOk(S8.version, 1, [FILE_B], [FILE_A])
  {
    assert S8.version[2] == [FILE_A] + [];
    SinglePick(S8.version, FILE_B, FILE_A, []);
  }

  lemma SecondCompaction()
    ensures CompactStep(S13, S14, 1, [FILE_C], [FILE_F], [FILE_H])
  {
    SecondPick();
    SecondOutputsKept();
    OneOutput(FILE_H);
    SecondCompacted();
  }

  lemma SecondPick()
    ensures PickOk(S13.version, 1, [FILE_C], [FILE_F])
  {
    assert S13.version[2] == [FILE_F] + [FILE_G];
    SinglePick(S13.version, FILE_C, FILE_F, [FILE_G]);
  }

  lemma SecondOutputsKept()
    ensures Content([FILE_H]) == Kept(Merged([FILE_C], [FILE_F]), BaseOf(S13, 1), 5)
  {
    ContentAfter();
    NothingBelow([FILE_C], [FILE_F, FILE_G], 5);
    SecondKept(BaseOf(S13, 1));
  }

  lemma NothingBelow(level1: seq<File>, level2: seq<File>, u: UserKey)
    ensures BaseLevel(OnLevels(level1, level2), 1, u)
  {
    forall l | 3 <= l < NUM_LEVELS ensures OnLevels(level1, level2)[l] == [] {
    }
  }

  lemma OneOutput(f: File)
    requires f.Ok()
    ensures FilesOk([f]) && SortedLevel([f])
  {
  }

  lemma SecondCompacted()
    ensures Compacted(S13.version, 1, [FILE_C], [FILE_F], [FILE_H], S14.version)
  {
    SecondReplaces();
    assert S13.version[1] == [FILE_C] && S13.version[2] == [FILE_F, FILE_G];
    assert S14.version[1] == [] && S14.version[2] == [FILE_H, FILE_G];
  }

  /** The first compaction drops nothing, so it is harmless. */
  lemma FirstIsHarmless()
    ensures forall u: UserKey :: !Resurrects(S8, 1, [FILE_B], [FILE_A], u)
  {
    ContentBefore();
    forall u: UserKey, marker, old_ | Uncovers(Rest(S8, 1, [FILE_B], [FILE_A]), Merged([FILE_B], [FILE_A]),
                                               BaseOf(S8, 1), SmallestSnapshot(S8), u, marker, old_)
      ensures false
    {
    }
  }

  // ---------- the run ----------

  /** The run so far ends in `st`, where every live snapshot reads what was written. */
  ghost predicate Reaches(states: seq<State>, steps: seq<Step>, st: State) {
    IsRun(states, steps) && states[|steps|] == st && ReadsOk(st)
  }

  lemma Extended(states: seq<State>, steps: seq<Step>, st: State, step: Step, st': State)
    requires IsRun(states, steps) && states[|steps|] == st && Next(st, st', step)
    ensures IsRun(states + [st'], steps + [step]) && (states + [st'])[|steps| + 1] == st'
  {
  }

  lemma GoOn(states: seq<State>, steps: seq<Step>, st: State, step: Step, st': State)
    returns (states': seq<State>, steps': seq<Step>)
    requires Reaches(states, steps, st) && Next(st, st', step) && Harmless(st, step)
    ensures Reaches(states', steps', st') && |steps'| == |steps| + 1
  {
    Extended(states, steps, st, step, st');
    RunInvariant(states, steps, |steps|);
    NextReads(st, st', step);
    states', steps' := states + [st'], steps + [step];
  }

  lemma ToS2() returns (states: seq<State>, steps: seq<Step>)
    ensures Reaches(states, steps, S2) && |steps| == 2
  {
    assert seq(NUM_LEVELS, _ => []) == EMPTY;
    InitInv(S0);
    states, steps := [S0], [];
    FirstWrites();
    states, steps := GoOn(states, steps, S0, Write([Op(5, TypeValue, X)]), S1);
    states, steps := GoOn(states, steps, S1, GetSnapshot, S2);
  }

  lemma ToS5() returns (states: seq<State>, steps: seq<Step>)
    ensures Reaches(states, steps, S5) && |steps| == 5
  {
    states, steps := ToS2();
    WriteOfTwo();
    states, steps := GoOn(states, steps, S2, Write([Op(5, TypeDeletion, []), Op(1, TypeValue, [])]), S3);
    states, steps := GoOn(states, steps, S3, SwitchMemTable, S4);
    FirstFlush();
    states, steps := GoOn(states, steps, S4, Flush(2, FILE_A), S5);
  }

  lemma ToS8() returns (states: seq<State>, steps: seq<Step>)
    ensures Reaches(states, steps, S8) && |steps| == 8
  {
    states, steps := ToS5();
    FirstWrites();
    states, steps := GoOn(states, steps, S5, Write([Op(1, TypeValue, BIG)]), S6);
    states, steps := GoOn(states, steps, S6, SwitchMemTable, S7);
    SecondFlush();
    states, steps := GoOn(states, steps, S7, Flush(1, FILE_B), S8);
  }

  lemma ToS10() returns (states: seq<State>, steps: seq<Step>)
    ensures Reaches(states, steps, S10) && |steps| == 10
  {
    states, steps := ToS8();
    FirstCompaction();
    FirstCutStep();
    FirstIsHarmless();
    states, steps := GoOn(states, steps, S8, Compact(1, [FILE_B], [FILE_A], [FILE_F, FILE_G], CUTTING_1), S9);
    states, steps := GoOn(states, steps, S9, ReleaseSnapshot(0), S10);
  }

  lemma ToS13() returns (states: seq<State>, steps: seq<Step>)
    ensures Reaches(states, steps, S13) && |steps| == 13
  {
    states, steps := ToS10();
    LastWrite();
    states, steps := GoOn(states, steps, S10, Write([Op(1, TypeValue, [])]), S11);
    states, steps := GoOn(states, steps, S11, SwitchMemTable, S12);
    ThirdFlush();
    states, steps := GoOn(states, steps, S12, Flush(1, FILE_C), S13);
  }

  lemma StoredAtEnd()
    ensures Stored(S14) == {Put1(5), VALUE_5}
  {
    TwoFiles(FILE_H, FILE_G);
    var v := S14.version;
    assert Content([]) == {} && v[2] in v;
    assert Content(v[2]) == {Put1(5), VALUE_5};
    forall e | e in AllContent(v) ensures e in {Put1(5), VALUE_5} {
      var l :| 0 <= l < |v| && e in Content(v[l]);
    }
  }

  lemma ReadsAtEnd()
    ensures Read(S14.written, 5, 5) == Absent
    ensures Read(Stored(S14), 5, 5) == Present(X)
  {
    assert IsNewest(W5, 5, 5, DELETE_5);
    ReadIs(W5, 5, 5, DELETE_5);
    StoredAtEnd();
    assert IsNewest({Put1(5), VALUE_5}, 5, 5, VALUE_5);
    ReadIs({Put1(5), VALUE_5}, 5, 5, VALUE_5);
  }

  /** Up to the last step every read is right; after it the deleted key 5 has its value back. */
  lemma DeletedKeyReturns() returns (states: seq<State>, steps: seq<Step>)
    ensures IsRun(states, steps) && |steps| == 14 && states[13] == S13 && states[14] == S14
    ensures steps[13] == Compact(1, [FILE_C], [FILE_F], [FILE_H], CUTTING_2)
    ensures ReadsOk(S13) && !NextLevelClosed(S13.version, 1, [FILE_F])
    ensures Read(S14.written, 5, 5) == Absent && Read(Stored(S14), 5, 5) == Present(X)
    ensures !ReadsOk(S14)
  {
    states, steps := ToS13();
    LastStep();
    Extended(states, steps, S13, Compact(1, [FILE_C], [FILE_F], [FILE_H], CUTTING_2), S14);
    states, steps := states + [S14], steps + [Compact(1, [FILE_C], [FILE_F], [FILE_H], CUTTING_2)];
    NotClosed();
    WrongRead();
  }

  lemma LastStep()
    ensures Next(S13, S14, Compact(1, [FILE_C], [FILE_F], [FILE_H], CUTTING_2))
  {
    SecondCompaction();
    SecondCutStep();
  }

  lemma WrongRead()
    ensures Read(S14.written, 5, 5) == Absent && Read(Stored(S14), 5, 5) == Present(X)
    ensures !ReadsOk(S14)
  {
    ReadsAtEnd();
    assert !ReadsOkFor(S14, 5);
  }

  lemma NotClosed()
    ensures !NextLevelClosed(S13.version, 1, [FILE_F])
  {
    assert FILE_G in S13.version[2] && StartsBehind(FILE_G, LargestOf([FILE_F]));
  }
}
