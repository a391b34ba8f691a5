/**
 A manual compaction during which a memtable is flushed into a gap between its inputs: afterwards two files
 of a level overlap, and the flushed entry is stored but a lookup does not find it.
*/
module LostWriteExample {
  import opened InternalKeys
  import opened FlatMap
  import opened Runs
  import opened Versions
  import opened InputSelection
  import opened OutputFiles
  import opened Install
  import opened Database
  import opened NestedFlush
  import opened ResurrectionExample

  function Put(u: UserKey, sequence: nat): Entry {
    Entry(InternalKey(u, sequence, TypeValue), [])
  }

  const A1 := MakeFile(2, [Put(1, 1)])
  const B1 := MakeFile(3, [Put(1, 2)])
  const A9 := MakeFile(4, [Put(9, 3)])
  const B9 := MakeFile(5, [Put(9, 4)])
  const OUT := MakeFile(6, [Put(1, 2), Put(9, 4)])
  const F5 := MakeFile(7, [Put(5, 5)])

  const CUTTING := Cutting([Put(1, 2), Put(1, 1), Put(9, 4), Put(9, 3)], [], SIZES)

  /** What was written up to sequence number `n`. */
  function Written(n: nat): set<Entry> {
    (if n >= 1 then {Put(1, 1)} else {}) + (if n >= 2 then {Put(1, 2)} else {}) + (if n >= 3 then {Put(9, 3)} else {})
    + (if n >= 4 then {Put(9, 4)} else {}) + (if n >= 5 then {Put(5, 5)} else {})
  }

  /** Between two writes: everything is flushed. */
  function Settled(n: nat, level1: seq<File>, level2: seq<File>, nextFile: nat): State {
    State([], NoImm, OnLevels(level1, level2), n, [], nextFile, Written(n))
  }

  function InMem(st: State, e: Entry): State {
    st.(mem := [e], lastSequence := st.lastSequence + 1, written := Written(st.lastSequence + 1))
  }

  function InImm(st: State, e: Entry): State {
    InMem(st, e).(mem := [], imm := Imm([e]))
  }

  const P0 := Settled(0, [], [], 2)
  const P1 := Settled(1, [], [A1], 3)
  const P2 := Settled(2, [B1], [A1], 4)
  const P3 := Settled(3, [B1], [A1, A9], 5)
  const P4 := Settled(4, [B1, B9], [A1, A9], 6)
  const PICKED := P4.(nextFile := 7)
  const P5 := Settled(5, [B1, B9], [A1, F5, A9], 8)
  const P6 := Settled(5, [], [OUT, F5], 8)

  /** Where `PickLevelForMemTableOutput` puts a table. */
  ghost predicate GoesTo(v: Version, level: nat, f: File)
    requires |v| == NUM_LEVELS
  {
    FlushLevel(v, f.smallest.user, f.largest.user, SIZES.maxFileSize, level)
  }

  // ---------- one write and its flush ----------

  lemma WriteOne(st: State, u: UserKey)
    requires st.mem == [] && st.lastSequence < 5 && st.written == Written(st.lastSequence)
    requires Written(st.lastSequence + 1) == Written(st.lastSequence) + {Put(u, st.lastSequence + 1)}
    ensures WriteStep(st, InMem(st, Put(u, st.lastSequence + 1)), [Op(u, TypeValue, [])])
  {
    var e := Put(u, st.lastSequence + 1);
    OneOp(Op(u, TypeValue, []), st.lastSequence + 1);
    assert Elements([e]) == {e} && Elements([]) == {};
  }

  lemma FlushOne(st: State, st': State, level: nat, f: File, e: Entry)
    requires st.imm == NoImm && st.mem == [] && |st.version| == NUM_LEVELS && level < NUM_LEVELS
    requires f.number == st.nextFile && f.Ok() && f.entries == [e] && GoesTo(st.version, level, f)
    requires Flushed(st.version, level, f, st'.version)
    requires st' == InImm(st, e).(imm := NoImm, version := st'.version, nextFile := st.nextFile + 1)
    ensures FlushStep(InImm(st, e), st', level, f)
  {
    forall l | 0 <= l <= level && level > 0 ensures !Meets(st.version[l], f.smallest.user, f.largest.user) {
      FlushLevelClear(st.version, f.smallest.user, f.largest.user, SIZES.maxFileSize, level, l);
    }
  }

  /** Write, switch and flush, one after the other. */
  lemma PutAndFlush(states: seq<State>, steps: seq<Step>, st: State, u: UserKey, level: nat, f: File, st': State)
    returns (states': seq<State>, steps': seq<Step>)
    requires Reaches(states, steps, st) && st.mem == [] && st.imm == NoImm && |st.version| == NUM_LEVELS
    requires st.lastSequence < 5 && st.written == Written(st.lastSequence) && level < NUM_LEVELS
    requires Written(st.lastSequence + 1) == Written(st.lastSequence) + {Put(u, st.lastSequence + 1)}
    requires f == MakeFile(st.nextFile, [Put(u, st.lastSequence + 1)]) && GoesTo(st.version, level, f)
    requires Flushed(st.version, level, f, st'.version)
    requires var e := Put(u, st.lastSequence + 1);
      st' == InImm(st, e).(imm := NoImm, version := st'.version, nextFile := st.nextFile + 1)
    ensures Reaches(states', steps', st') && |steps'| == |steps| + 3
  {
    var e := Put(u, st.lastSequence + 1);
    WriteOne(st, u);
    states', steps' := GoOn(states, steps, st, Write([Op(u, TypeValue, [])]), InMem(st, e));
    states', steps' := GoOn(states', steps', InMem(st, e), SwitchMemTable, InImm(st, e));
    FlushOne(st, st', level, f, e);
    states', steps' := GoOn(states', steps', InImm(st, e), Flush(level, f), st');
  }

  // ---------- up to the pick ----------

  lemma WrittenNext(n: nat, e: Entry)
    requires n < 5 && e == Put(if n < 2 then 1 else if n < 4 then 9 else 5, n + 1)
    ensures Written(n + 1) == Written(n) + {e}
  {
  }

  lemma {:induction false} Hundreds(fs: seq<File>)
    requires forall f | f in fs :: f.size < 100
    ensures TotalFileSize(fs) <= 100 * |fs|
  {
    if fs != [] {
      Hundreds(fs[1..]);
    }
  }

  lemma {:induction false} NoMore(fs: seq<File>, n: nat, lo: Bound, hi: Bound)
    requires n <= |fs|
    ensures |OverlappingUpTo(fs, n, lo, hi)| <= n
  {
    if n > 0 {
      NoMore(fs, n - 1, lo, hi);
    }
  }

  /** Tables of one entry are small, and so is what a key meets of two of them. */
  lemma SmallTables(fs: seq<File>, u: UserKey)
    requires |fs| <= 2 && forall f | f in fs :: f.size < 100
    ensures TotalFileSize(Overlapping(fs, At(u), At(u))) <= 10 * SIZES.maxFileSize
  {
    OverlappingIs(fs, At(u), At(u));
    NoMore(fs, |fs|, At(u), At(u));
    Hundreds(Overlapping(fs, At(u), At(u)));
  }

  lemma SmallFile(number: nat, u: UserKey, n: nat)
    requires u != 5
    ensures MakeFile(number, [Put(u, n)]).size < 100
  {
    OneEntry(Put(u, n));
  }

  lemma FlushesOf1()
    ensures Flushed(P0.version, 2, A1, P1.version) && GoesTo(P0.version, 2, A1)
    ensures Flushed(P1.version, 1, B1, P2.version) && GoesTo(P1.version, 1, B1)
  {
    assert Replaces([], [], [A1], [A1]) && Replaces([], [], [B1], [B1]);
    SmallFile(2, 1, 1);
    SmallTables([], 1);
    SmallTables([A1], 1);
    assert A1 in P1.version[2] && Overlaps(A1, At(1), At(1));
  }

  lemma FirstFlushOf9()
    ensures Flushed(P2.version, 2, A9, P3.version) && GoesTo(P2.version, 2, A9)
  {
    assert Replaces([A1], [], [A9], [A1, A9]);
    SmallFile(2, 1, 1);
    SmallTables([], 9);
    SmallTables([A1], 9);
  }

  lemma SecondFlushOf9()
    ensures Flushed(P3.version, 1, B9, P4.version) && GoesTo(P3.version, 1, B9)
  {
    assert Replaces([B1], [], [B9], [B1, B9]);
    SmallFile(2, 1, 1);
    SmallFile(4, 9, 3);
    SmallTables([A1, A9], 9);
    assert A9 in P3.version[2] && Overlaps(A9, At(9), At(9));
  }

  lemma FlushOf5()
    ensures Flushed(PICKED.version, 2, F5, P5.version) && GoesTo(PICKED.version, 2, F5)
  {
    assert Replaces([A1, A9], [], [F5], [A1, F5, A9]);
    SmallFile(2, 1, 1);
    SmallFile(3, 1, 2);
    SmallFile(4, 9, 3);
    SmallFile(5, 9, 4);
    SmallTables([], 5);
    SmallTables([A1, A9], 5);
  }

  lemma ToP2() returns (states: seq<State>, steps: seq<Step>)
    ensures Reaches(states, steps, P2) && |steps| == 6
  {
    assert seq(NUM_LEVELS, _ => []) == EMPTY;
    InitInv(P0);
    states, steps := [P0], [];
    FlushesOf1();
    WrittenNext(0, Put(1, 1));
    states, steps := PutAndFlush(states, steps, P0, 1, 2, A1, P1);
    WrittenNext(1, Put(1, 2));
    states, steps := PutAndFlush(states, steps, P1, 1, 1, B1, P2);
  }

  lemma ToP4() returns (states: seq<State>, steps: seq<Step>)
    ensures Reaches(states, steps, P4) && |steps| == 12
  {
    states, steps := ToP2();
    FirstFlushOf9();
    SecondFlushOf9();
    WrittenNext(2, Put(9, 3));
    states, steps := PutAndFlush(states, steps, P2, 9, 2, A9, P3);
    WrittenNext(3, Put(9, 4));
    states, steps := PutAndFlush(states, steps, P3, 9, 1, B9, P4);
  }

  // ---------- the compaction ----------

  /** What `CompactRange` picks on level 1 for the whole range: all of levels 1 and 2, with a gap at key 5. */
  lemma WholeRange()
    ensures [B1, B9] == Overlapping(P4.version[1], Unbounded, Unbounded)
    ensures TotalFileSize([B1, B9]) < SIZES.maxFileSize
    ensures PickOk(P4.version, 1, [B1, B9], [A1, A9])
    ensures GrandparentsOk(P4.version, 1, [B1, B9], [A1, A9], [])
  {
    TwoOverlap(B1, B9, Unbounded, Unbounded);
    TwoOverlap(A1, A9, At(1), At(9));
    SmallFiles();
    assert B1 in [B1, B9] && B9 in [B1, B9];
    assert IsRange([B1, B9], B1.smallest, B9.largest);
    MakesPick(P4.version, 1, [B1, B9], [A1, A9], B1.smallest, B9.largest);
    FourFiles();
  }

  lemma TwoOverlap(f: File, g: File, lo: Bound, hi: Bound)
    requires Overlaps(f, lo, hi) && Overlaps(g, lo, hi)
    ensures Overlapping([f, g], lo, hi) == [f, g]
  {
    assert OverlappingUpTo([f, g], 0, lo, hi) == [] && OverlappingUpTo([f, g], 1, lo, hi) == [f];
  }

  lemma OneEntry(e: Entry)
    requires e.key.user != 5 && e.value == []
    ensures AddAll([e]).offset == 0 && FinishedBytes([e]) < 100
  {
    AddedOne([], e);
    assert [] + [e] == [e];
  }

  lemma SmallFiles()
    ensures TotalFileSize([B1, B9]) < SIZES.maxFileSize
  {
    OneEntry(Put(1, 2));
    OneEntry(Put(9, 4));
    assert [B1, B9][1..] == [B9] && [B9][1..] == [] && TotalFileSize([]) == 0;
    assert B1.size == FinishedBytes([Put(1, 2)]) && B9.size == FinishedBytes([Put(9, 4)]);
    assert TotalFileSize([B9]) == B9.size && TotalFileSize([B1, B9]) == B1.size + B9.size;
  }

  lemma FourFiles()
    ensures GrandparentsOk(P4.version, 1, [B1, B9], [A1, A9], [])
  {
    var all := [B1, B9] + [A1, A9];
    assert all == [B1, B9, A1, A9] && B1 in all && A9 in all && A1 in all;
    assert IsRange(all, B1.smallest, A9.largest);
    assert Overlapping(P4.version[3], At(1), At(9)) == [];
  }

  lemma MergedIs()
    ensures Merged([B1, B9], [A1, A9]) == {Put(1, 1), Put(1, 2), Put(9, 3), Put(9, 4)}
    ensures Content([OUT]) == {Put(1, 2), Put(9, 4)}
  {
    TwoFiles(B1, B9);
    TwoFiles(A1, A9);
    OneFile(OUT);
    assert Elements([Put(1, 2)]) == {Put(1, 2)} && Elements([Put(9, 4)]) == {Put(9, 4)};
    assert Elements([Put(1, 1)]) == {Put(1, 1)} && Elements([Put(9, 3)]) == {Put(9, 3)};
    assert Elements([Put(1, 2), Put(9, 4)]) == {Put(1, 2), Put(9, 4)};
  }

  /** The older entries of both keys are shadowed. */
  lemma KeptIs(base: UserKey -> bool)
    ensures Kept({Put(1, 1), Put(1, 2), Put(9, 3), Put(9, 4)}, base, 4) == {Put(1, 2), Put(9, 4)}
  {
    var merged := {Put(1, 1), Put(1, 2), Put(9, 3), Put(9, 4)};
    assert Put(1, 2) in merged && Shadowed(merged, 4, Put(1, 1));
    assert Put(9, 4) in merged && Shadowed(merged, 4, Put(9, 3));
    assert !Dropped(merged, base, 4, Put(1, 2)) && !Dropped(merged, base, 4, Put(9, 4));
  }

  lemma OutIsUncut()
    ensures CutsOk(CUTTING, [OUT])
  {
    OneEntry(Put(1, 2));
    NoStopBetween(CUTTING, Put(1, 2).key, Put(9, 4).key);
    assert OUT.entries[..1] == [Put(1, 2)];
    assert GoesOn(CUTTING, OUT.entries, 1);
  }

  lemma MergedInOrder()
    ensures Sorted(CUTTING.merged) && Elements(CUTTING.merged) == Merged([B1, B9], [A1, A9])
  {
    MergedIs();
    FourSorted(Put(1, 2), Put(1, 1), Put(9, 4), Put(9, 3));
    FourEntries(Put(1, 2), Put(1, 1), Put(9, 4), Put(9, 3));
  }

  lemma TheCuts()
    ensures CutStep(P4.version, 1, [B1, B9], [A1, A9], [OUT], CUTTING)
  {
    FourFiles();
    MergedInOrder();
    OutIsUncut();
  }

  const TURNS := [OpenOutput, Ordinary(Write([Op(5, TypeValue, [])])), Ordinary(SwitchMemTable),
                  Ordinary(Flush(2, F5))]
  const STATES := [P4, PICKED, InMem(PICKED, Put(5, 5)), InImm(PICKED, Put(5, 5)), P5]

  /** While the compaction is at work, key 5 is written and flushed to level 2, as the code picks. */
  lemma TheTurns()
    ensures Meanwhile(STATES, TURNS) && Taken(STATES, TURNS) == [6]
  {
    WrittenNext(4, Put(5, 5));
    WriteOne(PICKED, 5);
    FlushOf5();
    FlushOne(PICKED, P5, 2, F5, Put(5, 5));
    assert TurnStep(STATES[0], STATES[1], TURNS[0]);
    TakenIs();
  }

  lemma TakenIs()
    ensures Taken(STATES, TURNS) == [6]
  {
    LastIs(STATES, TURNS, 3);
    LastIs(STATES[..4], TURNS[..3], 2);
    LastIs(STATES[..4][..3], TURNS[..3][..2], 1);
    assert TURNS[..3][..2][..1] == [OpenOutput] && STATES[..4][..3][..2] == [P4, PICKED];
    assert [OpenOutput][..0] == [];
  }

  lemma LastIs(states: seq<State>, turns: seq<Turn>, n: nat)
    requires |states| == |turns| + 1 == n + 2
    ensures Taken(states, turns) ==
      Taken(states[..n + 1], turns[..n]) + if turns[n].OpenOutput? then [states[n].nextFile] else []
  {
  }

  lemma OutIsKept()
    ensures Content([OUT]) == Kept(Merged([B1, B9], [A1, A9]), BaseOf(P4, 1), 4)
  {
    MergedIs();
    KeptIs(BaseOf(P4, 1));
  }

  lemma OutIsOk()
    ensures FilesOk([OUT]) && SortedLevel([OUT])
  {
    assert Sorted([Put(1, 2), Put(9, 4)]);
  }

  lemma TheReplaces()
    ensures Replaces([B1, B9], [B1, B9], [], []) && Replaces([A1, F5, A9], [A1, A9], [OUT], [OUT, F5])
  {
  }

  lemma OutIsInstalled()
    ensures Compacted(P5.version, 1, [B1, B9], [A1, A9], [OUT], P6.version)
  {
    TheReplaces();
    assert P5.version[1] == [B1, B9] && P5.version[2] == [A1, F5, A9];
    assert P6.version[1] == [] && P6.version[2] == [OUT, F5];
  }

  lemma TheInstall()
    ensures Installs(P4, P5, P6, 1, [B1, B9], [A1, A9], [OUT], [6])
  {
    OutIsKept();
    OutIsOk();
    OutIsInstalled();
  }

  // ---------- what is lost ----------

  /** The binary search ends at the output, which spans key 5 and does not have it. */
  lemma SearchMisses()
    ensures SearchLevel(P6.version[2], 5, 5) == NotFound
  {
    var fs, k := [OUT, F5], SeekKey(5, 5);
    assert P6.version[2] == fs;
    assert BinarySearch(fs, k, 0, 0) == 0 && BinarySearch(fs, k, 0, 1) == 0 && BinarySearch(fs, k, 0, 2) == 0;
    var es := OUT.entries;
    assert LowerBound(es[1..], k) == 0;
    assert LowerBound(es, k) == 1;
  }

  lemma ReadsOfKey5()
    ensures Read(P6.written, 5, 5) == Present([])
  {
    assert IsNewest(Written(5), 5, 5, Put(5, 5));
    assert UniqueSequences(Written(5));
    ReadIs(Written(5), 5, 5, Put(5, 5));
  }

  lemma NothingFound()
    ensures forall l | 0 <= l < NUM_LEVELS :: SearchLevel(P6.version[l], 5, 5) == NotFound
  {
    SearchMisses();
    forall l | 0 <= l < NUM_LEVELS ensures SearchLevel(P6.version[l], 5, 5) == NotFound {
      assert l != 2 ==> P6.version[l] == [];
    }
  }

  lemma Overlapped()
    ensures !VersionOk(P6.version)
  {
    var fs := P6.version[2];
    assert fs[0] == OUT && fs[1] == F5 && !Before(fs[0].largest, fs[1].smallest);
    assert !SortedLevel(fs);
  }

  /** The state the compaction is picked in is reached by legal steps, and everything reads right there. */
  lemma PickIsReached() returns (states: seq<State>, steps: seq<Step>)
    ensures IsRun(states, steps) && |steps| == 12 && states[12] == P4 && Inv(P4) && ReadsOk(P4)
  {
    states, steps := ToP4();
    RunInvariant(states, steps, 12);
  }

  /**
   From there, by legal turns, with the level the code picks for the flush and the one output the code makes:
   key 5 is written, and after the install it is looked up on every level and found on none.
  */
  lemma WriteIsLost()
    ensures [B1, B9] == Overlapping(P4.version[1], Unbounded, Unbounded) && PickOk(P4.version, 1, [B1, B9], [A1, A9])
    ensures CutStep(P4.version, 1, [B1, B9], [A1, A9], [OUT], CUTTING) && GoesTo(PICKED.version, 2, F5)
    ensures Meanwhile(STATES, TURNS) && Installs(P4, P5, P6, 1, [B1, B9], [A1, A9], [OUT], Taken(STATES, TURNS))
    ensures !VersionOk(P6.version) && Read(P6.written, 5, 5) == Present([]) && P6.mem == [] && P6.imm == NoImm
    ensures forall l | 0 <= l < NUM_LEVELS :: SearchLevel(P6.version[l], 5, 5) == NotFound
  {
    WholeRange();
    TheCuts();
    FlushOf5();
    TheTurns();
    TheInstall();
    Overlapped();
    NothingFound();
    ReadsOfKey5();
  }
}
