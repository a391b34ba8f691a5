/**
 Memtables flushed while a compaction is at work: `DoCompactionWork` calls `CompactMemTable` between two
 entries (`db/db_impl.cc`), so outputs made of files of one version are installed in a later one.
*/
module NestedFlush {
  import opened InternalKeys
  import opened FlatMap
  import opened Runs
  import opened Versions
  import opened LevelSearch
  import opened InputSelection
  import opened Install
  import opened Database

  // ---------- installing what was picked earlier ----------

  /** The output level is sorted after the install exactly if no file that stays reaches into an output. */
  lemma SortedIff(v: Version, level: nat, inputs0: seq<File>, inputs1: seq<File>, outs: seq<File>, v': Version)
    requires VersionOk(v) && level + 1 < NUM_LEVELS && Picked(v, level, inputs0, inputs1)
    requires OutsOk(inputs0, inputs1, outs) && Compacted(v, level, inputs0, inputs1, outs, v')
    requires forall o | o in outs :: o !in v[level + 1]
    ensures SortedLevel(v'[level + 1]) <==> OutsClear(v[level + 1], inputs1, outs)
  {
    if OutsClear(v[level + 1], inputs1, outs) {
      ClearInstall(v, level, inputs0, inputs1, outs, v');
    } else {
      var g, o :| g in v[level + 1] && g !in inputs1 && o in outs && !Apart(g, o);
      assert g in v'[level + 1] && o in v'[level + 1];
      if SortedLevel(v'[level + 1]) {
        TwoOfLevel(v'[level + 1], g, o);
      }
    }
  }

  /** And then the whole level invariant holds. */
  lemma InstallIff(v: Version, level: nat, inputs0: seq<File>, inputs1: seq<File>, outs: seq<File>, v': Version)
    requires VersionOk(v) && level + 1 < NUM_LEVELS && Picked(v, level, inputs0, inputs1)
    requires OutsOk(inputs0, inputs1, outs) && Compacted(v, level, inputs0, inputs1, outs, v')
    requires forall o | o in outs :: o !in v[level + 1]
    ensures VersionOk(v') <==> OutsClear(v[level + 1], inputs1, outs)
  {
    SortedIff(v, level, inputs0, inputs1, outs, v');
    if OutsClear(v[level + 1], inputs1, outs) {
      ClearInstall(v, level, inputs0, inputs1, outs, v');
    }
  }

  /** A flush leaves what was picked in place: it is newer than everything. */
  lemma FlushKeepsPicked(v: Version, l: nat, f: File, v': Version, level: nat, inputs0: seq<File>,
                         inputs1: seq<File>)
    requires LevelsOk(v) && level + 1 < NUM_LEVELS && Picked(v, level, inputs0, inputs1)
    requires l < NUM_LEVELS && Flushed(v, l, f, v') && Newer(Elements(f.entries), AllContent(v))
    ensures Picked(v', level, inputs0, inputs1)
  {
    forall g, h | g in v'[level] && g !in inputs0 && h in inputs0 ensures NewerFile(g, h) {
      assert h in v[level];
      if g in v[level] {
        assert NewerFile(g, h);
      } else {
        assert g == f;
        forall y | y in Elements(h.entries) ensures y in AllContent(v) {
          InContent(v, level, h, y);
        }
      }
    }
  }

  // ---------- turns while a compaction is at work ----------

  /** A step of the store other than a compaction, or `OpenCompactionOutputFile` taking a file number. */
  datatype Turn = Ordinary(step: Step) | OpenOutput

  ghost predicate TurnStep(st: State, st': State, t: Turn) {
    match t
    case Ordinary(step) => !step.Move? && !step.Compact? && Next(st, st', step)
    case OpenOutput => st' == st.(nextFile := st.nextFile + 1)
  }

  ghost predicate Meanwhile(states: seq<State>, turns: seq<Turn>) {
    && |states| == |turns| + 1
    && forall i | 0 <= i < |turns| :: TurnStep(states[i], states[i + 1], turns[i])
  }

  /** The numbers taken for outputs, in their order. */
  function Taken(states: seq<State>, turns: seq<Turn>): seq<nat>
    requires |states| == |turns| + 1
  {
    if turns == [] then []
    else
      var n := |turns| - 1;
      Taken(states[..n + 1], turns[..n]) + if turns[n].OpenOutput? then [states[n].nextFile] else []
  }

  /** A table was flushed to `l` in one of the turns. */
  ghost predicate FlushedTo(turns: seq<Turn>, l: nat, f: File) {
    exists i :: 0 <= i < |turns| && turns[i] == Ordinary(Flush(l, f))
  }

  lemma FlushedToNext(turns: seq<Turn>, t: Turn, l: nat, f: File)
    ensures FlushedTo(turns + [t], l, f) <==> FlushedTo(turns, l, f) || t == Ordinary(Flush(l, f))
  {
    if FlushedTo(turns, l, f) {
      var i :| 0 <= i < |turns| && turns[i] == Ordinary(Flush(l, f));
      assert (turns + [t])[i] == turns[i];
    }
    if t == Ordinary(Flush(l, f)) {
      assert (turns + [t])[|turns|] == t;
    }
  }

  // ---------- what the turns keep ----------

  /** The level below holds what it held at `begin` and what was flushed there since. */
  ghost predicate GrownBy(old_: seq<File>, turns: seq<Turn>, l: nat, new_: seq<File>) {
    forall g :: g in new_ <==> g in old_ || FlushedTo(turns, l, g)
  }

  /** Numbers taken for outputs are used by no file. */
  ghost predicate Reserved(v: Version, taken: seq<nat>, nextFile: nat) {
    && (forall i, j | 0 <= i < j < |taken| :: taken[i] != taken[j])
    && (forall n | n in taken :: n < nextFile)
    && (forall l, f | 0 <= l < |v| && f in v[l] :: f.number !in taken)
  }

  /** Entries written since have larger sequence numbers than all before. */
  ghost predicate OnlyNewer(begin: State, st: State) {
    && Stored(begin) <= Stored(st) && begin.lastSequence <= st.lastSequence
    && (forall e | e in Stored(st) && e !in Stored(begin) :: e.key.sequence > begin.lastSequence)
    && SmallestSnapshot(begin) <= SmallestSnapshot(st)
  }

  ghost predicate FlushesNumbered(turns: seq<Turn>, l: nat, n: nat) {
    forall f | FlushedTo(turns, l, f) :: f.number >= n
  }

  /** What the turns did to the version `old_` that was current when they began. */
  ghost predicate OnDisk(old_: Version, first: nat, v: Version, nextFile: nat, turns: seq<Turn>, taken: seq<nat>,
                         level: nat, inputs0: seq<File>, inputs1: seq<File>)
    requires |old_| == |v| == NUM_LEVELS && level + 1 < NUM_LEVELS
  {
    && Picked(v, level, inputs0, inputs1)
    && GrownBy(old_[level + 1], turns, level + 1, v[level + 1])
    && FlushesNumbered(turns, level + 1, first)
    && first <= nextFile && Reserved(v, taken, nextFile)
  }

  ghost predicate AtWork(begin: State, st: State, turns: seq<Turn>, taken: seq<nat>, level: nat,
                         inputs0: seq<File>, inputs1: seq<File>)
    requires |begin.version| == NUM_LEVELS && level + 1 < NUM_LEVELS
  {
    && Inv(st) && OnlyNewer(begin, st)
    && OnDisk(begin.version, begin.nextFile, st.version, st.nextFile, turns, taken, level, inputs0, inputs1)
  }

  /** The levels below grow by what is flushed to them. */
  lemma GrowsNext(old_: seq<File>, now: seq<File>, now': seq<File>, turns: seq<Turn>, t: Turn, more: seq<Turn>,
                  l: nat, n: nat)
    requires GrownBy(old_, turns, l, now) && more == turns + [t]
    requires FlushesNumbered(turns, l, n) && forall f | t == Ordinary(Flush(l, f)) :: f.number >= n
    requires forall f :: f in now' <==> f in now || t == Ordinary(Flush(l, f))
    ensures GrownBy(old_, more, l, now') && FlushesNumbered(more, l, n)
  {
    forall f ensures FlushedTo(more, l, f) <==> FlushedTo(turns, l, f) || t == Ordinary(Flush(l, f)) {
      FlushedToNext(turns, t, l, f);
    }
  }

  lemma FlushReserved(v: Version, l: nat, f: File, v': Version, taken: seq<nat>, nextFile: nat)
    requires |v| == NUM_LEVELS && l < NUM_LEVELS && Flushed(v, l, f, v') && f.number == nextFile
    requires Reserved(v, taken, nextFile)
    ensures Reserved(v', taken, nextFile + 1)
  {
    forall m, g | 0 <= m < |v'| && g in v'[m] ensures g.number !in taken {
      assert g in v[m] || g == f;
    }
  }

  lemma FlushOnDisk(old_: Version, first: nat, v: Version, nextFile: nat, l: nat, f: File, v': Version,
                    turns: seq<Turn>, more: seq<Turn>, taken: seq<nat>, level: nat, inputs0: seq<File>,
                    inputs1: seq<File>)
    requires |old_| == NUM_LEVELS && level + 1 < NUM_LEVELS && LevelsOk(v)
    requires OnDisk(old_, first, v, nextFile, turns, taken, level, inputs0, inputs1)
    requires l < NUM_LEVELS && Flushed(v, l, f, v') && f.number == nextFile
    requires Newer(Elements(f.entries), AllContent(v)) && more == turns + [Ordinary(Flush(l, f))]
    ensures OnDisk(old_, first, v', nextFile + 1, more, taken, level, inputs0, inputs1)
  {
    FlushKeepsPicked(v, l, f, v', level, inputs0, inputs1);
    FlushReserved(v, l, f, v', taken, nextFile);
    FlushedLevel(v, l, f, v', level + 1);
    GrowsNext(old_[level + 1], v[level + 1], v'[level + 1], turns, Ordinary(Flush(l, f)), more, level + 1, first);
  }

  lemma FlushIsNewer(st: State, l: nat, f: File, st': State)
    requires Inv(st) && FlushStep(st, st', l, f)
    ensures Newer(Elements(f.entries), AllContent(st.version))
  {
    assert ImmContent(st.imm) == Elements(f.entries);
  }

  lemma SameNewer(begin: State, st: State, st': State)
    requires OnlyNewer(begin, st) && Stored(st') == Stored(st)
    requires st'.lastSequence == st.lastSequence && st'.snapshots == st.snapshots
    ensures OnlyNewer(begin, st')
  {
  }

  lemma FlushAtWork(begin: State, st: State, st': State, l: nat, f: File, turns: seq<Turn>, more: seq<Turn>,
                    taken: seq<nat>, level: nat, inputs0: seq<File>, inputs1: seq<File>)
    requires |begin.version| == NUM_LEVELS && level + 1 < NUM_LEVELS
    requires AtWork(begin, st, turns, taken, level, inputs0, inputs1) && FlushStep(st, st', l, f)
    requires more == turns + [Ordinary(Flush(l, f))]
    ensures AtWork(begin, st', more, taken, level, inputs0, inputs1)
  {
    FlushInv(st, st', l, f);
    FlushIsNewer(st, l, f, st');
    SameNewer(begin, st, st');
    FlushOnDisk(begin.version, begin.nextFile, st.version, st.nextFile, l, f, st'.version, turns, more, taken,
                level, inputs0, inputs1);
  }

  lemma FlushedLevel(v: Version, l: nat, f: File, v': Version, m: nat)
    requires |v| == NUM_LEVELS && l < NUM_LEVELS && m < NUM_LEVELS && Flushed(v, l, f, v')
    ensures forall g :: g in v'[m] <==> g in v[m] || Ordinary(Flush(l, f)) == Ordinary(Flush(m, g))
  {
  }

  /** Turns that leave the version alone. */
  lemma SameOnDisk(old_: Version, first: nat, v: Version, nextFile: nat, nextFile': nat, t: Turn, turns: seq<Turn>,
                   more: seq<Turn>, taken: seq<nat>, taken': seq<nat>, level: nat, inputs0: seq<File>,
                   inputs1: seq<File>)
    requires |old_| == |v| == NUM_LEVELS && level + 1 < NUM_LEVELS
    requires OnDisk(old_, first, v, nextFile, turns, taken, level, inputs0, inputs1)
    requires more == turns + [t] && nextFile <= nextFile' && !(t.Ordinary? && t.step.Flush?)
    requires Reserved(v, taken', nextFile')
    ensures OnDisk(old_, first, v, nextFile', more, taken', level, inputs0, inputs1)
  {
    GrowsNext(old_[level + 1], v[level + 1], v[level + 1], turns, t, more, level + 1, first);
  }

  /** A step that writes, switches, or takes or releases a snapshot leaves the version alone. */
  lemma OtherAtWork(begin: State, st: State, st': State, t: Turn, turns: seq<Turn>, more: seq<Turn>,
                    taken: seq<nat>, level: nat, inputs0: seq<File>, inputs1: seq<File>)
    requires |begin.version| == NUM_LEVELS && level + 1 < NUM_LEVELS
    requires AtWork(begin, st, turns, taken, level, inputs0, inputs1)
    requires t.Ordinary? && !t.step.Flush? && TurnStep(st, st', t) && more == turns + [t]
    ensures AtWork(begin, st', more, taken, level, inputs0, inputs1)
  {
    NextInv(st, st', t.step);
    SnapshotMoves(st, st', t.step);
    SameVersion(st, st', t.step);
    SameOnDisk(begin.version, begin.nextFile, st.version, st.nextFile, st'.nextFile, t, turns, more, taken, taken,
               level, inputs0, inputs1);
  }

  lemma SameVersion(st: State, st': State, step: Step)
    requires Inv(st) && Next(st, st', step) && !step.Move? && !step.Compact? && !step.Flush?
    ensures st'.version == st.version && st.nextFile <= st'.nextFile && st.lastSequence <= st'.lastSequence
    ensures Stored(st) <= Stored(st')
    ensures forall e | e in Stored(st') && e !in Stored(st) :: e.key.sequence > st.lastSequence
  {
    if step.Write? {
      BatchSequences(step.batch, st.lastSequence);
    }
    assert Elements([]) == {};
  }

  lemma OpenAtWork(begin: State, st: State, st': State, turns: seq<Turn>, more: seq<Turn>, taken: seq<nat>,
                   taken': seq<nat>, level: nat, inputs0: seq<File>, inputs1: seq<File>)
    requires |begin.version| == NUM_LEVELS && level + 1 < NUM_LEVELS
    requires AtWork(begin, st, turns, taken, level, inputs0, inputs1) && TurnStep(st, st', OpenOutput)
    requires more == turns + [OpenOutput] && taken' == taken + [st.nextFile]
    ensures AtWork(begin, st', more, taken', level, inputs0, inputs1)
  {
    SameNewer(begin, st, st');
    TakeNumber(st.version, taken, taken', st.nextFile);
    SameOnDisk(begin.version, begin.nextFile, st.version, st.nextFile, st'.nextFile, OpenOutput, turns, more, taken,
               taken', level, inputs0, inputs1);
  }

  lemma TakeNumber(v: Version, taken: seq<nat>, taken': seq<nat>, n: nat)
    requires Reserved(v, taken, n) && NumbersBelow(v, n) && taken' == taken + [n]
    ensures Reserved(v, taken', n + 1)
  {
    forall i, j | 0 <= i < j < |taken'| ensures taken'[i] != taken'[j] {
      assert taken'[i] in taken;
    }
  }

  lemma NextAtWork(begin: State, st: State, st': State, t: Turn, turns: seq<Turn>, more: seq<Turn>,
                   taken: seq<nat>, taken': seq<nat>, level: nat, inputs0: seq<File>, inputs1: seq<File>)
    requires |begin.version| == NUM_LEVELS && level + 1 < NUM_LEVELS
    requires AtWork(begin, st, turns, taken, level, inputs0, inputs1) && TurnStep(st, st', t)
    requires more == turns + [t] && taken' == taken + if t.OpenOutput? then [st.nextFile] else []
    ensures AtWork(begin, st', more, taken', level, inputs0, inputs1)
  {
    if t.OpenOutput? {
      OpenAtWork(begin, st, st', turns, more, taken, taken', level, inputs0, inputs1);
    } else {
      assert taken' == taken;
      if t.step.Flush? {
        FlushAtWork(begin, st, st', t.step.level, t.step.file, turns, more, taken, level, inputs0, inputs1);
      } else {
        OtherAtWork(begin, st, st', t, turns, more, taken, level, inputs0, inputs1);
      }
    }
  }

  lemma StartAtWork(begin: State, level: nat, inputs0: seq<File>, inputs1: seq<File>)
    requires Inv(begin) && level + 1 < NUM_LEVELS && PickOk(begin.version, level, inputs0, inputs1)
    ensures AtWork(begin, begin, [], [], level, inputs0, inputs1)
  {
    InputsOfNext(begin.version, level, inputs0, inputs1);
  }

  /** All turns but the last. */
  lemma LastTurn(states: seq<State>, turns: seq<Turn>, n: nat)
    requires Meanwhile(states, turns) && |turns| == n + 1
    ensures Meanwhile(states[..n + 1], turns[..n]) && turns == turns[..n] + [turns[n]]
    ensures TurnStep(states[n], states[n + 1], turns[n]) && states[..n + 1][n] == states[n]
    ensures Taken(states, turns) ==
      Taken(states[..n + 1], turns[..n]) + if turns[n].OpenOutput? then [states[n].nextFile] else []
  {
  }

  /** Whatever the turns are, the inputs are still there, and the levels have only grown by flushed tables. */
  lemma {:induction false} StillAtWork(states: seq<State>, turns: seq<Turn>, level: nat, inputs0: seq<File>,
                                       inputs1: seq<File>)
    requires Meanwhile(states, turns) && Inv(states[0]) && level + 1 < NUM_LEVELS
    requires PickOk(states[0].version, level, inputs0, inputs1)
    ensures AtWork(states[0], states[|turns|], turns, Taken(states, turns), level, inputs0, inputs1)
    decreases |turns|
  {
    if turns == [] {
      StartAtWork(states[0], level, inputs0, inputs1);
    } else {
      var n := |turns| - 1;
      LastTurn(states, turns, n);
      StillAtWork(states[..n + 1], turns[..n], level, inputs0, inputs1);
      NextAtWork(states[0], states[n], states[n + 1], turns[n], turns[..n], turns, Taken(states[..n + 1], turns[..n]),
                 Taken(states, turns), level, inputs0, inputs1);
    }
  }

  // ---------- the install ----------

  /**
   `InstallCompactionResults` at `st`, for a compaction picked at `begin`: what is dropped was decided by the
   version and the oldest snapshot of then.
  */
  ghost predicate Installs(begin: State, st: State, st': State, level: nat, inputs0: seq<File>, inputs1: seq<File>,
                           outs: seq<File>, taken: seq<nat>) {
    && |begin.version| == NUM_LEVELS && |st.version| == NUM_LEVELS && level + 1 < NUM_LEVELS
    && FilesOk(outs) && SortedLevel(outs)
    && |outs| == |taken| && (forall k | 0 <= k < |outs| :: outs[k].number == taken[k])
    && Content(outs) == Kept(Merged(inputs0, inputs1), BaseOf(begin, level), SmallestSnapshot(begin))
    && Compacted(st.version, level, inputs0, inputs1, outs, st'.version)
    && st' == st.(version := st'.version)
  }

  /** Some table flushed to `l` in the meantime reaches into an output. */
  ghost predicate FlushReaches(turns: seq<Turn>, l: nat, outs: seq<File>) {
    exists f, o {:trigger FlushedTo(turns, l, f), o in outs} :: FlushedTo(turns, l, f) && o in outs && !Apart(f, o)
  }

  /** Of what is on the level, only tables flushed there since can be in the way of the outputs. */
  lemma InTheWay(begin: State, st: State, turns: seq<Turn>, taken: seq<nat>, level: nat, inputs0: seq<File>,
                 inputs1: seq<File>, outs: seq<File>)
    requires Inv(begin) && level + 1 < NUM_LEVELS && PickOk(begin.version, level, inputs0, inputs1)
    requires AtWork(begin, st, turns, taken, level, inputs0, inputs1) && OutsOk(inputs0, inputs1, outs)
    ensures OutsClear(st.version[level + 1], inputs1, outs) <==> !FlushReaches(turns, level + 1, outs)
  {
    var old_, now := begin.version[level + 1], st.version[level + 1];
    PickIsClear(begin.version, level, inputs0, inputs1, outs);
    InputsOfNext(begin.version, level, inputs0, inputs1);
    assert OutsClear(old_, inputs1, outs);
    if FlushReaches(turns, level + 1, outs) {
      var f, o :| FlushedTo(turns, level + 1, f) && o in outs && !Apart(f, o);
      assert f in now && f.number >= begin.nextFile;
      assert f !in inputs1;
    } else {
      forall g, o | g in now && g !in inputs1 && o in outs ensures Apart(g, o) {
        if g !in old_ {
          assert FlushedTo(turns, level + 1, g);
        }
      }
    }
  }

  lemma OutsAreMerged(merged0: seq<File>, merged1: seq<File>, base: UserKey -> bool, snap: nat, outs: seq<File>)
    requires FilesOk(outs) && SortedLevel(outs) && Content(outs) == Kept(Merged(merged0, merged1), base, snap)
    ensures OutsOk(merged0, merged1, outs)
  {
  }

  ghost predicate Unused(v: Version, n: nat) {
    forall l, f | 0 <= l < |v| && f in v[l] :: f.number != n
  }

  ghost predicate NumberedApart(fs: seq<File>) {
    forall f, g | f in fs && g in fs && f.number == g.number :: f == g
  }

  /** Reserved numbers make the outputs new files. */
  lemma OutsAreNew(v: Version, level: nat, outs: seq<File>, taken: seq<nat>, nextFile: nat)
    requires level < |v| && Reserved(v, taken, nextFile)
    requires |outs| == |taken| && forall k | 0 <= k < |outs| :: outs[k].number == taken[k]
    ensures NumberedApart(outs)
    ensures forall o | o in outs :: o.number < nextFile && Unused(v, o.number) && o !in v[level]
  {
    forall o | o in outs ensures o.number < nextFile && Unused(v, o.number) && o !in v[level] {
      var k :| 0 <= k < |outs| && outs[k] == o;
      assert o.number in taken;
    }
    forall f, g | f in outs && g in outs && f.number == g.number ensures f == g {
      var i :| 0 <= i < |outs| && outs[i] == f;
      var j :| 0 <= j < |outs| && outs[j] == g;
    }
  }

  lemma NewNumbersFit(v: Version, level: nat, added: seq<File>, v': Version, n: nat)
    requires |v| == |v'| && NumbersDistinct(v) && NumbersBelow(v, n) && NumberedApart(added)
    requires forall l, g | 0 <= l < |v| && g in v'[l] :: g in v[l] || (l == level && g in added)
    requires forall g | g in added :: g.number < n && Unused(v, g.number)
    ensures NumbersDistinct(v') && NumbersBelow(v', n)
  {
    forall l, m, f, g | 0 <= l < |v| && 0 <= m < |v| && f in v'[l] && g in v'[m] && f.number == g.number
      ensures l == m && f == g
    {
      assert f in v[l] || (l == level && f in added);
      assert g in v[m] || (m == level && g in added);
    }
  }

  lemma InstalledNumbers(v: Version, level: nat, inputs0: seq<File>, inputs1: seq<File>, outs: seq<File>, v': Version,
                         taken: seq<nat>, nextFile: nat)
    requires |v| == NUM_LEVELS && level + 1 < NUM_LEVELS && Compacted(v, level, inputs0, inputs1, outs, v')
    requires NumbersDistinct(v) && NumbersBelow(v, nextFile) && Reserved(v, taken, nextFile)
    requires |outs| == |taken| && forall k | 0 <= k < |outs| :: outs[k].number == taken[k]
    ensures NumbersDistinct(v') && NumbersBelow(v', nextFile)
    ensures forall o | o in outs :: o !in v[level + 1]
  {
    OutsAreNew(v, level + 1, outs, taken, nextFile);
    forall l, g | 0 <= l < NUM_LEVELS && g in v'[l] ensures g in v[l] || (l == level + 1 && g in outs) {
    }
    NewNumbersFit(v, level + 1, outs, v', nextFile);
  }

  lemma InstalledContent(v: Version, level: nat, inputs0: seq<File>, inputs1: seq<File>, outs: seq<File>, v': Version)
    requires |v| == NUM_LEVELS && level + 1 < NUM_LEVELS && Picked(v, level, inputs0, inputs1)
    requires OutsOk(inputs0, inputs1, outs) && Compacted(v, level, inputs0, inputs1, outs, v')
    ensures AllContent(v') <= AllContent(v)
  {
    NewContent(v, level, inputs0, inputs1, outs, v');
    PickedContent(v, level, inputs0, inputs1);
    forall e | e in AllContent(v') ensures e in AllContent(v) {
      if e in Content(outs) {
        assert e in Content(v[level]) || e in Content(v[level + 1]);
        assert v[level] in v && v[level + 1] in v;
      } else {
        var l, f :| 0 <= l < NUM_LEVELS && f in v[l]
          && !(l == level && f in inputs0) && !(l == level + 1 && f in inputs1) && e in f.entries;
        InContent(v, l, f, e);
      }
    }
  }

  /**
   A compaction with anything but compactions in between keeps the invariant if and only if no table that was
   flushed to the output level since it was picked reaches into one of its outputs.
  */
  lemma NestedInv(states: seq<State>, turns: seq<Turn>, st': State, level: nat, inputs0: seq<File>,
                  inputs1: seq<File>, outs: seq<File>)
    requires Meanwhile(states, turns) && Inv(states[0]) && level + 1 < NUM_LEVELS
    requires PickOk(states[0].version, level, inputs0, inputs1)
    requires Installs(states[0], states[|turns|], st', level, inputs0, inputs1, outs, Taken(states, turns))
    ensures Inv(st') <==> !FlushReaches(turns, level + 1, outs)
  {
    var begin, st, taken := states[0], states[|turns|], Taken(states, turns);
    StillAtWork(states, turns, level, inputs0, inputs1);
    OutsAreMerged(inputs0, inputs1, BaseOf(begin, level), SmallestSnapshot(begin), outs);
    InTheWay(begin, st, turns, taken, level, inputs0, inputs1, outs);
    InstallInv(st, st', level, inputs0, inputs1, outs, taken);
  }

  lemma InstallInv(st: State, st': State, level: nat, inputs0: seq<File>, inputs1: seq<File>, outs: seq<File>,
                   taken: seq<nat>)
    requires Inv(st) && level + 1 < NUM_LEVELS && Picked(st.version, level, inputs0, inputs1)
    requires Reserved(st.version, taken, st.nextFile) && OutsOk(inputs0, inputs1, outs)
    requires |outs| == |taken| && forall k | 0 <= k < |outs| :: outs[k].number == taken[k]
    requires Compacted(st.version, level, inputs0, inputs1, outs, st'.version) && st' == st.(version := st'.version)
    ensures Inv(st') <==> OutsClear(st.version[level + 1], inputs1, outs)
  {
    InstalledNumbers(st.version, level, inputs0, inputs1, outs, st'.version, taken, st.nextFile);
    InstallIff(st.version, level, inputs0, inputs1, outs, st'.version);
    CompactedOrdered(st.version, level, inputs0, inputs1, outs, st'.version);
    InstalledContent(st.version, level, inputs0, inputs1, outs, st'.version);
    LayersShrink(Elements(st.mem), ImmContent(st.imm), AllContent(st.version), AllContent(st'.version), st.written);
  }

  // ---------- what lookups miss ----------

  /** Merged entries are in no file that stays, and the outputs share none. */
  lemma NewLevelOnce(v: Version, level: nat, inputs0: seq<File>, inputs1: seq<File>, outs: seq<File>, v': Version)
    requires VersionOk(v) && NumbersDistinct(v) && level + 1 < NUM_LEVELS && Picked(v, level, inputs0, inputs1)
    requires OutsOk(inputs0, inputs1, outs) && Compacted(v, level, inputs0, inputs1, outs, v')
    ensures EachOnce(v'[level + 1])
  {
    var fs := v'[level + 1];
    forall i, j, e | 0 <= i < j < |fs| && e in fs[i].entries ensures e !in fs[j].entries {
      assert fs[i] in fs && fs[j] in fs && FileLess(fs[i], fs[j]);
      SharesNone(v, level, inputs0, inputs1, outs, fs[i], fs[j], e);
    }
  }

  ghost predicate StaysOrNew(fs: seq<File>, inputs1: seq<File>, outs: seq<File>, f: File) {
    (f in fs && f !in inputs1) || f in outs
  }

  lemma SharesNone(v: Version, level: nat, inputs0: seq<File>, inputs1: seq<File>, outs: seq<File>, f: File, g: File,
                   e: Entry)
    requires VersionOk(v) && NumbersDistinct(v) && level + 1 < NUM_LEVELS && Picked(v, level, inputs0, inputs1)
    requires OutsOk(inputs0, inputs1, outs) && f != g
    requires StaysOrNew(v[level + 1], inputs1, outs, f) && StaysOrNew(v[level + 1], inputs1, outs, g)
    ensures !(e in f.entries && e in g.entries)
  {
    if f in outs && g in outs {
      OneLevelOnce(outs, f, g, e);
    } else if f !in outs && g !in outs {
      OneLevelOnce(v[level + 1], f, g, e);
    } else {
      var made, stays := if f in outs then f else g, if f in outs then g else f;
      UntouchedApart(v, level, inputs0, inputs1);
      assert e in made.entries ==> e in Content(outs);
      assert e in stays.entries ==> e in Untouched(v, level, inputs0, inputs1);
    }
  }

  lemma OneLevelOnce(fs: seq<File>, f: File, g: File, e: Entry)
    requires FilesOk(fs) && SortedLevel(fs) && f in fs && g in fs && f != g
    ensures !(e in f.entries && e in g.entries)
  {
    var i :| 0 <= i < |fs| && fs[i] == f;
    var j :| 0 <= j < |fs| && fs[j] == g;
    if e in f.entries && e in g.entries {
      AcrossFiles(fs, if i < j then i else j, if i < j then j else i, e, e);
    }
  }

  /** An entry of the level is the newest of its key at its own number, and a lookup at that number does not find it. */
  ghost predicate Missed(st: State, l: nat, e: Entry)
    requires l < |st.version|
  {
    && e in Content(st.version[l]) && IsNewest(Stored(st), e.key.user, e.key.sequence, e)
    && !Finds(st.version[l], e)
  }

  ghost predicate MissesSome(st: State, l: nat)
    requires l < |st.version|
  {
    exists e :: Missed(st, l, e)
  }

  /**
   The search of the output level misses some entry that is stored there if and only if a table flushed in the
   meantime reaches into an output.
  */
  lemma NestedLookups(states: seq<State>, turns: seq<Turn>, st': State, level: nat, inputs0: seq<File>,
                      inputs1: seq<File>, outs: seq<File>)
    requires Meanwhile(states, turns) && Inv(states[0]) && level + 1 < NUM_LEVELS
    requires PickOk(states[0].version, level, inputs0, inputs1)
    requires Installs(states[0], states[|turns|], st', level, inputs0, inputs1, outs, Taken(states, turns))
    ensures MissesSome(st', level + 1) <==> FlushReaches(turns, level + 1, outs)
  {
    var begin, st, taken := states[0], states[|turns|], Taken(states, turns);
    StillAtWork(states, turns, level, inputs0, inputs1);
    OutsAreMerged(inputs0, inputs1, BaseOf(begin, level), SmallestSnapshot(begin), outs);
    InTheWay(begin, st, turns, taken, level, inputs0, inputs1, outs);
    InstalledNumbers(st.version, level, inputs0, inputs1, outs, st'.version, taken, st.nextFile);
    SortedIff(st.version, level, inputs0, inputs1, outs, st'.version);
    LevelFinds(st, st', level, inputs0, inputs1, outs);
  }

  lemma LevelFinds(st: State, st': State, level: nat, inputs0: seq<File>, inputs1: seq<File>, outs: seq<File>)
    requires Inv(st) && level + 1 < NUM_LEVELS && Picked(st.version, level, inputs0, inputs1)
    requires OutsOk(inputs0, inputs1, outs) && st' == st.(version := st'.version)
    requires Compacted(st.version, level, inputs0, inputs1, outs, st'.version)
    ensures SortedLevel(st'.version[level + 1]) <==> !MissesSome(st', level + 1)
  {
    NewLevelOnce(st.version, level, inputs0, inputs1, outs, st'.version);
    InstalledContent(st.version, level, inputs0, inputs1, outs, st'.version);
    FilesStayOk(st.version[level + 1], inputs1, outs, st'.version[level + 1]);
    assert AllContent(st'.version) <= st.written;
    MissesIff(st', level + 1);
  }

  lemma MissesIff(st: State, l: nat)
    requires l < |st.version| && FilesOk(st.version[l]) && EachOnce(st.version[l])
    requires AllContent(st.version) <= st.written && UniqueSequences(st.written) && Stored(st) <= st.written
    ensures SortedLevel(st.version[l]) <==> !MissesSome(st, l)
  {
    var fs := st.version[l];
    forall e | e in Content(fs) ensures e in Stored(st) && IsNewest(Stored(st), e.key.user, e.key.sequence, e) {
      assert fs in st.version && e in AllContent(st.version);
    }
    FindsAllIff(fs);
    if !SortedLevel(fs) {
      var e :| e in Content(fs) && !Finds(fs, e);
      assert Missed(st, l, e);
    }
  }

  // ---------- what snapshots see ----------

  /** What is stored is the inputs and the rest. */
  lemma RestSplit(st: State, level: nat, inputs0: seq<File>, inputs1: seq<File>)
    requires VersionOk(st.version) && NumbersDistinct(st.version)
    requires level + 1 < NUM_LEVELS && Picked(st.version, level, inputs0, inputs1)
    requires ByLayer(Elements(st.mem), ImmContent(st.imm), AllContent(st.version))
    ensures Stored(st) == Rest(st, level, inputs0, inputs1) + Merged(inputs0, inputs1)
    ensures Rest(st, level, inputs0, inputs1) !! Merged(inputs0, inputs1)
  {
    PickedSplit(st.version, level, inputs0, inputs1);
    UntouchedApart(st.version, level, inputs0, inputs1);
    ApartFromLayers(Elements(st.mem), ImmContent(st.imm), AllContent(st.version),
                    Untouched(st.version, level, inputs0, inputs1), Merged(inputs0, inputs1));
  }

  lemma AfterInstall(st: State, st': State, level: nat, inputs0: seq<File>, inputs1: seq<File>, outs: seq<File>)
    requires |st.version| == NUM_LEVELS && level + 1 < NUM_LEVELS
    requires Compacted(st.version, level, inputs0, inputs1, outs, st'.version) && st' == st.(version := st'.version)
    ensures Stored(st') == Rest(st, level, inputs0, inputs1) + Content(outs)
  {
    NewContent(st.version, level, inputs0, inputs1, outs, st'.version);
  }

  lemma PickedSplit(v: Version, level: nat, inputs0: seq<File>, inputs1: seq<File>)
    requires |v| == NUM_LEVELS && level + 1 < NUM_LEVELS && Picked(v, level, inputs0, inputs1)
    ensures AllContent(v) == Untouched(v, level, inputs0, inputs1) + Merged(inputs0, inputs1)
  {
    PickedContent(v, level, inputs0, inputs1);
    forall e | e in AllContent(v) ensures e in Untouched(v, level, inputs0, inputs1) + Merged(inputs0, inputs1) {
      var l :| 0 <= l < |v| && e in Content(v[l]);
      var f :| f in v[l] && e in f.entries;
      if l == level && f in inputs0 {
        assert e in Content(inputs0);
      } else if l == level + 1 && f in inputs1 {
        assert e in Content(inputs1);
      } else {
        assert e in Untouched(v, level, inputs0, inputs1);
      }
    }
    forall e | e in Merged(inputs0, inputs1) ensures e in AllContent(v) {
      assert e in Content(v[level]) || e in Content(v[level + 1]);
      assert v[level] in v && v[level + 1] in v;
    }
    forall e | e in Untouched(v, level, inputs0, inputs1) ensures e in AllContent(v) {
      var l, f :| 0 <= l < NUM_LEVELS && f in v[l] && e in f.entries;
      InContent(v, l, f, e);
    }
  }

  /** Entries that came later change nothing about what a dropped marker uncovers. */
  lemma LaterUncoversNothing(rest: set<Entry>, rest': set<Entry>, merged: set<Entry>, base: UserKey -> bool,
                             snap: nat, last: nat, u: UserKey, marker: Entry, old_: Entry)
    requires snap <= last && rest <= rest'
    requires forall e | e in rest' && e !in rest :: e.key.sequence > last
    requires Uncovers(rest', merged, base, snap, u, marker, old_)
    ensures Uncovers(rest, merged, base, snap, u, marker, old_)
  {
  }

  lemma RestGrows(begin: State, st: State, level: nat, inputs0: seq<File>, inputs1: seq<File>)
    requires |begin.version| == |st.version| == NUM_LEVELS && level + 1 < NUM_LEVELS && OnlyNewer(begin, st)
    requires Stored(begin) == Rest(begin, level, inputs0, inputs1) + Merged(inputs0, inputs1)
    requires Stored(st) == Rest(st, level, inputs0, inputs1) + Merged(inputs0, inputs1)
    requires Rest(begin, level, inputs0, inputs1) !! Merged(inputs0, inputs1)
    requires Rest(st, level, inputs0, inputs1) !! Merged(inputs0, inputs1)
    ensures Rest(begin, level, inputs0, inputs1) <= Rest(st, level, inputs0, inputs1)
    ensures forall e | e in Rest(st, level, inputs0, inputs1) && e !in Rest(begin, level, inputs0, inputs1) ::
      e.key.sequence > begin.lastSequence
  {
  }

  lemma {:induction false} MeanwhileReads(states: seq<State>, turns: seq<Turn>)
    requires Meanwhile(states, turns) && Inv(states[0]) && ReadsOk(states[0])
    ensures Inv(states[|turns|]) && ReadsOk(states[|turns|])
    decreases |turns|
  {
    if turns != [] {
      var n := |turns| - 1;
      LastTurn(states, turns, n);
      MeanwhileReads(states[..n + 1], turns[..n]);
      TurnReads(states[n], states[n + 1], turns[n]);
    }
  }

  lemma TurnReads(st: State, st': State, t: Turn)
    requires Inv(st) && ReadsOk(st) && TurnStep(st, st', t)
    ensures Inv(st') && ReadsOk(st')
  {
    if t.OpenOutput? {
      assert Stored(st') == Stored(st);
      SameReads(st, st');
    } else {
      NextInv(st, st', t.step);
      NextReads(st, st', t.step);
    }
  }

  ghost predicate Splits(st: State, level: nat, inputs0: seq<File>, inputs1: seq<File>)
    requires |st.version| == NUM_LEVELS && level + 1 < NUM_LEVELS
  {
    && Stored(st) == Rest(st, level, inputs0, inputs1) + Merged(inputs0, inputs1)
    && Rest(st, level, inputs0, inputs1) !! Merged(inputs0, inputs1)
  }

  /** What the compaction drops uncovers no more at the install than when it was picked. */
  lemma StillHarmless(begin: State, st: State, level: nat, inputs0: seq<File>, inputs1: seq<File>, u: UserKey)
    requires |begin.version| == |st.version| == NUM_LEVELS && level + 1 < NUM_LEVELS && OnlyNewer(begin, st)
    requires Splits(begin, level, inputs0, inputs1) && Splits(st, level, inputs0, inputs1)
    requires SmallestSnapshot(begin) <= begin.lastSequence && !Resurrects(begin, level, inputs0, inputs1, u)
    ensures !exists marker, old_ :: Uncovers(Rest(st, level, inputs0, inputs1), Merged(inputs0, inputs1),
                                             BaseOf(begin, level), SmallestSnapshot(begin), u, marker, old_)
  {
    RestGrows(begin, st, level, inputs0, inputs1);
    forall marker, old_ | Uncovers(Rest(st, level, inputs0, inputs1), Merged(inputs0, inputs1),
                                   BaseOf(begin, level), SmallestSnapshot(begin), u, marker, old_)
      ensures false
    {
      LaterUncoversNothing(Rest(begin, level, inputs0, inputs1), Rest(st, level, inputs0, inputs1),
                           Merged(inputs0, inputs1), BaseOf(begin, level), SmallestSnapshot(begin),
                           begin.lastSequence, u, marker, old_);
    }
  }

  lemma InstallReadsFor(begin: State, st: State, st': State, level: nat, inputs0: seq<File>, inputs1: seq<File>,
                        outs: seq<File>, u: UserKey)
    requires |begin.version| == |st.version| == NUM_LEVELS && level + 1 < NUM_LEVELS && OnlyNewer(begin, st)
    requires Splits(begin, level, inputs0, inputs1) && Splits(st, level, inputs0, inputs1)
    requires SmallestSnapshot(begin) <= begin.lastSequence && !Resurrects(begin, level, inputs0, inputs1, u)
    requires UniqueSequences(Stored(st)) && ReadsOkFor(st, u)
    requires Compacted(st.version, level, inputs0, inputs1, outs, st'.version) && st' == st.(version := st'.version)
    requires Content(outs) == Kept(Merged(inputs0, inputs1), BaseOf(begin, level), SmallestSnapshot(begin))
    ensures ReadsOkFor(st', u)
  {
    AfterInstall(st, st', level, inputs0, inputs1, outs);
    StillHarmless(begin, st, level, inputs0, inputs1, u);
    KeepsReads(Rest(st, level, inputs0, inputs1), Merged(inputs0, inputs1), BaseOf(begin, level),
               SmallestSnapshot(begin), SmallestSnapshot(st), u, st.written);
  }

  lemma KeepsReads(rest: set<Entry>, merged: set<Entry>, base: UserKey -> bool, snap: nat, from_: nat, u: UserKey,
                   written: set<Entry>)
    requires UniqueSequences(rest + merged) && snap <= from_
    requires !exists marker, old_ :: Uncovers(rest, merged, base, snap, u, marker, old_)
    requires forall s: nat | from_ <= s :: Read(rest + merged, u, s) == Read(written, u, s)
    ensures forall s: nat | from_ <= s :: Read(rest + Kept(merged, base, snap), u, s) == Read(written, u, s)
  {
    forall s: nat | from_ <= s ensures Read(rest + Kept(merged, base, snap), u, s) == Read(written, u, s) {
      DropPreservesRead(rest, merged, base, snap, u, s);
    }
  }

  /**
   What is stored still reads as what was written, if the compaction would have resurrected nothing at the moment
   it was picked: deciding by the version and the snapshots of then loses nothing.
  */
  lemma NestedReads(states: seq<State>, turns: seq<Turn>, st': State, level: nat, inputs0: seq<File>,
                    inputs1: seq<File>, outs: seq<File>)
    requires Meanwhile(states, turns) && Inv(states[0]) && ReadsOk(states[0]) && level + 1 < NUM_LEVELS
    requires PickOk(states[0].version, level, inputs0, inputs1)
    requires Installs(states[0], states[|turns|], st', level, inputs0, inputs1, outs, Taken(states, turns))
    requires forall u: UserKey :: !Resurrects(states[0], level, inputs0, inputs1, u)
    ensures ReadsOk(st')
  {
    var begin, st := states[0], states[|turns|];
    StillAtWork(states, turns, level, inputs0, inputs1);
    MeanwhileReads(states, turns);
    InputsOfNext(begin.version, level, inputs0, inputs1);
    RestSplit(begin, level, inputs0, inputs1);
    RestSplit(st, level, inputs0, inputs1);
    forall u: UserKey ensures ReadsOkFor(st', u) {
      assert ReadsOkFor(st, u);
      InstallReadsFor(begin, st, st', level, inputs0, inputs1, outs, u);
    }
  }

  // ---------- inputs without gaps ----------

  /** No input meets the user keys of `f`. */
  ghost predicate Misses(f: File, inputs: seq<File>) {
    forall g | g in inputs :: !Overlaps(g, At(f.smallest.user), At(f.largest.user))
  }

  /** All tables flushed to `l` miss the inputs. */
  ghost predicate FlushesMiss(turns: seq<Turn>, l: nat, inputs: seq<File>) {
    forall f | FlushedTo(turns, l, f) :: f.Ok() && Misses(f, inputs)
  }

  lemma NextMisses(turns: seq<Turn>, t: Turn, more: seq<Turn>, l: nat, inputs: seq<File>)
    requires FlushesMiss(turns, l, inputs) && more == turns + [t]
    requires forall f | t == Ordinary(Flush(l, f)) :: f.Ok() && Misses(f, inputs)
    ensures FlushesMiss(more, l, inputs)
  {
    forall f | FlushedTo(more, l, f) ensures f.Ok() && Misses(f, inputs) {
      FlushedToNext(turns, t, l, f);
    }
  }

  /** A table goes to the output level only past the inputs, which are still there. */
  lemma FlushMisses(v: Version, level: nat, f: File, inputs0: seq<File>, inputs1: seq<File>)
    requires |v| == NUM_LEVELS && level + 1 < NUM_LEVELS && ClearPath(v, level + 1, f)
    requires Picked(v, level, inputs0, inputs1)
    ensures Misses(f, inputs0 + inputs1)
  {
    forall g | g in inputs0 + inputs1 ensures !Overlaps(g, At(f.smallest.user), At(f.largest.user)) {
      assert !Meets(v[if g in inputs0 then level else level + 1], f.smallest.user, f.largest.user);
    }
  }

  lemma TurnMisses(st: State, st': State, t: Turn, level: nat, inputs0: seq<File>, inputs1: seq<File>)
    requires |st.version| == NUM_LEVELS && level + 1 < NUM_LEVELS && Picked(st.version, level, inputs0, inputs1)
    requires TurnStep(st, st', t)
    ensures forall f | t == Ordinary(Flush(level + 1, f)) :: f.Ok() && Misses(f, inputs0 + inputs1)
  {
    forall f | t == Ordinary(Flush(level + 1, f)) ensures f.Ok() && Misses(f, inputs0 + inputs1) {
      FlushMisses(st.version, level, f, inputs0, inputs1);
    }
  }

  lemma {:induction false} AllFlushesMiss(states: seq<State>, turns: seq<Turn>, level: nat, inputs0: seq<File>,
                                          inputs1: seq<File>)
    requires Meanwhile(states, turns) && Inv(states[0]) && level + 1 < NUM_LEVELS
    requires PickOk(states[0].version, level, inputs0, inputs1)
    ensures FlushesMiss(turns, level + 1, inputs0 + inputs1)
    decreases |turns|
  {
    if turns != [] {
      var n := |turns| - 1;
      LastTurn(states, turns, n);
      AllFlushesMiss(states[..n + 1], turns[..n], level, inputs0, inputs1);
      StillAtWork(states[..n + 1], turns[..n], level, inputs0, inputs1);
      TurnMisses(states[n], states[n + 1], turns[n], level, inputs0, inputs1);
      NextMisses(turns[..n], turns[n], turns, level + 1, inputs0 + inputs1);
    }
  }

  lemma InInputs(e: Entry, inputs0: seq<File>, inputs1: seq<File>) returns (g: File)
    requires FilesOk(inputs0) && FilesOk(inputs1) && e in Merged(inputs0, inputs1)
    ensures g in inputs0 + inputs1 && g.smallest.user <= e.key.user <= g.largest.user
  {
    if e in Content(inputs0) {
      g :| g in inputs0 && e in g.entries;
    } else {
      g :| g in inputs1 && e in g.entries;
    }
    assert g.Ok();
    InRange(g, e);
  }

  /** What misses inputs without gaps misses every output made of them. */
  lemma MissesOutput(f: File, o: File, inputs0: seq<File>, inputs1: seq<File>)
    requires f.Ok() && o.Ok() && FilesOk(inputs0) && FilesOk(inputs1) && Gapless(inputs0 + inputs1)
    requires Misses(f, inputs0 + inputs1) && forall e | e in o.entries :: e in Merged(inputs0, inputs1)
    ensures Apart(f, o)
  {
    var g := InInputs(o.entries[0], inputs0, inputs1);
    var h := InInputs(o.entries[|o.entries| - 1], inputs0, inputs1);
    InRange(o, o.entries[0]);
    InRange(f, f.entries[0]);
    if !Apart(f, o) {
      var u := if f.smallest.user < o.smallest.user then o.smallest.user else f.smallest.user;
      assert g.smallest.user <= u <= h.largest.user;
      assert Covered(inputs0 + inputs1, u);
      var z :| z in inputs0 + inputs1 && SpansUser(z, u);
      assert Overlaps(z, At(f.smallest.user), At(f.largest.user));
      assert false;
    }
  }

  /** Inputs without gaps, as `PickCompaction` picks them, are safe: whatever is flushed, the invariant is kept. */
  lemma GaplessInv(states: seq<State>, turns: seq<Turn>, st': State, level: nat, inputs0: seq<File>,
                   inputs1: seq<File>, outs: seq<File>)
    requires Meanwhile(states, turns) && Inv(states[0]) && level + 1 < NUM_LEVELS
    requires PickOk(states[0].version, level, inputs0, inputs1) && Gapless(inputs0 + inputs1)
    requires Installs(states[0], states[|turns|], st', level, inputs0, inputs1, outs, Taken(states, turns))
    ensures Inv(st')
  {
    var begin := states[0];
    NestedInv(states, turns, st', level, inputs0, inputs1, outs);
    AllFlushesMiss(states, turns, level, inputs0, inputs1);
    InputsOk(begin.version, level, inputs0, inputs1);
    OutsAreMerged(inputs0, inputs1, BaseOf(begin, level), SmallestSnapshot(begin), outs);
    forall f, o | FlushedTo(turns, level + 1, f) && o in outs ensures Apart(f, o) {
      assert forall e | e in o.entries :: e in Content(outs);
      MissesOutput(f, o, inputs0, inputs1);
    }
  }

  lemma InputsOk(v: Version, level: nat, inputs0: seq<File>, inputs1: seq<File>)
    requires LevelsOk(v) && level + 1 < NUM_LEVELS && PickOk(v, level, inputs0, inputs1)
    ensures FilesOk(inputs0) && FilesOk(inputs1)
  {
    InputsOfNext(v, level, inputs0, inputs1);
    forall i | 0 <= i < |inputs0| ensures inputs0[i].Ok() {
      assert inputs0[i] in v[level];
    }
    forall i | 0 <= i < |inputs1| ensures inputs1[i].Ok() {
      assert inputs1[i] in inputs1 && inputs1[i] in v[level + 1];
    }
  }
}
