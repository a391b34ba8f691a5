/**
 When a merge compaction can bring a deleted key back.  `SetupOtherInputs` adds boundary files to
 the inputs of the compacted level only; the next level's inputs may stop in the middle of a user
 key.  Without such a cut no compaction resurrects anything.
*/
module Resurrection {
  import opened InternalKeys
  import opened FlatMap
  import opened Runs
  import opened Versions
  import opened InputSelection
  import opened Compactions
  import opened Install
  import opened Database

  /** No file of the next level starts right behind the chosen ones at the same user key. */
  ghost predicate NextLevelClosed(v: Version, level: nat, inputs1: seq<File>)
    requires |v| == NUM_LEVELS && level + 1 < NUM_LEVELS
  {
    inputs1 == [] || forall g | g in v[level + 1] :: !StartsBehind(g, LargestOf(inputs1))
  }

  /** Where an older entry of a merged user key can be: not in the inputs' range, not above. */
  lemma OlderEntryPlace(v: Version, level: nat, inputs0: seq<File>, inputs1: seq<File>,
                        x: Entry, y: Entry, l: nat, f: File)
    requires VersionOk(v) && level + 1 < NUM_LEVELS && PickOk(v, level, inputs0, inputs1)
    requires x in Merged(inputs0, inputs1) && x.key.user == y.key.user && y.key.sequence < x.key.sequence
    requires l < NUM_LEVELS && f in v[l] && y in f.entries
    requires !(l == level && f in inputs0) && !(l == level + 1 && f in inputs1)
    ensures l >= level + 2 || (l == level + 1 && x in Content(inputs1))
  {
    assert y in Content(v[l]);
    if x in Content(inputs0) {
      OlderThanInputs0(v, level, inputs0, inputs1, x, y, l, f);
    } else if l <= level {
      NotAboveInputs1(v, level, inputs0, inputs1, x, y, l);
    }
  }

  lemma NotAboveInputs1(v: Version, level: nat, inputs0: seq<File>, inputs1: seq<File>, x: Entry, y: Entry, l: nat)
    requires VersionOk(v) && level + 1 < NUM_LEVELS && PickOk(v, level, inputs0, inputs1) && l <= level
    requires x in Content(inputs1) && y in Content(v[l]) && x.key.user == y.key.user
    ensures y.key.sequence > x.key.sequence
  {
    InputsOfNext(v, level, inputs0, inputs1);
    assert x in Content(v[level + 1]);
    OrderOfTwo(v, l, level + 1, y, x);
  }

  lemma OlderThanInputs0(v: Version, level: nat, inputs0: seq<File>, inputs1: seq<File>,
                         x: Entry, y: Entry, l: nat, f: File)
    requires VersionOk(v) && level + 1 < NUM_LEVELS && PickOk(v, level, inputs0, inputs1)
    requires x in Content(inputs0) && x.key.user == y.key.user && y.key.sequence < x.key.sequence
    requires l < NUM_LEVELS && f in v[l] && y in f.entries && y in Content(v[l])
    requires !(l == level && f in inputs0) && !(l == level + 1 && f in inputs1)
    ensures l >= level + 2
  {
    var g :| g in inputs0 && x in g.entries;
    assert g in v[level] && x in Content(v[level]);
    assert y in Elements(f.entries) && x in Elements(g.entries);
    if l < level {
      OrderOfTwo(v, l, level, y, x);
    } else if l == level {
      assert NewerFile(f, g);
      OlderNeverSupersedes(y, x);
    } else if l == level + 1 {
      MeetsInputs(v, level, inputs0, inputs1, x, y, f);
    }
  }

  lemma MeetsInputs(v: Version, level: nat, inputs0: seq<File>, inputs1: seq<File>, x: Entry, y: Entry, f: File)
    requires LevelsOk(v) && level + 1 < NUM_LEVELS && PickOk(v, level, inputs0, inputs1)
    requires x in Content(inputs0) && f in v[level + 1] && y in f.entries && x.key.user == y.key.user
    ensures f in inputs1
  {
    var smallest, largest :| IsRange(inputs0, smallest, largest)
      && inputs1 == Overlapping(v[level + 1], At(smallest.user), At(largest.user));
    InputsInRange(v, level, inputs0, smallest, largest, x);
    assert f.Ok();
    InRange(f, y);
    OverlappingIs(v[level + 1], At(smallest.user), At(largest.user));
  }

  lemma SliceMember(fs: seq<File>, i: nat, j: nat, g: File) returns (q: nat)
    requires i <= j <= |fs| && g in fs[i..j]
    ensures i <= q < j && fs[q] == g
  {
    var k :| 0 <= k < j - i && fs[i..j][k] == g;
    q := i + k;
  }

  lemma CutInsideUserKey(fs: seq<File>, i: nat, j: nat, p: nat, q: nat, x: Entry, y: Entry)
    requires FilesOk(fs) && SortedLevel(fs) && i <= q < j <= |fs| && p < |fs| && (p < i || j <= p)
    requires x in fs[q].entries && y in fs[p].entries
    requires x.key.user == y.key.user && y.key.sequence < x.key.sequence
    ensures j <= p && StartsBehind(fs[j], LargestOf(fs[i..j]))
  {
    SliceLargest(fs, i, j);
    if p < i {
      AcrossFiles(fs, p, q, y, x);
    } else if !StartsBehind(fs[j], fs[j - 1].largest) {
      BoundaryWouldShow(fs, j, p, q, y, x);
    }
  }

  /** The first file behind a slice, if it starts right behind it, is the first one to do so. */
  lemma NextIsFirstBehind(fs: seq<File>, i: nat, j: nat)
    requires FilesOk(fs) && SortedLevel(fs) && i < j < |fs| && StartsBehind(fs[j], LargestOf(fs[i..j]))
    ensures IsFirstBehind(fs, LargestOf(fs[i..j]), fs[j])
  {
    SliceLargest(fs, i, j);
    forall f | f in fs && StartsBehind(f, fs[j - 1].largest) ensures !Before(f.smallest, fs[j].smallest) {
      var p :| 0 <= p < |fs| && fs[p] == f;
      if p < j {
        NotBehindItself(fs, p, j - 1);
      } else if p > j {
        EndsInOrder(fs, j, p);
      }
    }
  }

  /** An entry behind a slice, at a user key that starts there, is not newer than the first one there. */
  lemma FirstIsNewest(fs: seq<File>, j: nat, p: nat, y: Entry)
    requires FilesOk(fs) && SortedLevel(fs) && j <= p < |fs| && y in fs[p].entries
    requires y.key.user == fs[j].smallest.user
    ensures y.key.sequence <= fs[j].smallest.sequence
  {
    if j == p {
      InRange(fs[j], y);
    } else {
      assert fs[j].Ok();
      AcrossFiles(fs, j, p, fs[j].entries[0], y);
    }
  }

  /** An older entry of a merged user key on the next level starts no earlier than the boundary file. */
  lemma BoundaryFileFound(fs: seq<File>, lo: Bound, hi: Bound, chosen: seq<File>, x: Entry, y: Entry, f: File)
    returns (b: File)
    requires FilesOk(fs) && SortedLevel(fs) && chosen == Overlapping(fs, lo, hi)
    requires x in Content(chosen) && x.key.user == y.key.user && y.key.sequence < x.key.sequence
    requires f in fs && f !in chosen && y in f.entries
    ensures chosen != [] && IsFirstBehind(fs, LargestOf(chosen), b)
    ensures b.smallest.user == y.key.user && y.key.sequence <= b.smallest.sequence
  {
    SortedByUser(fs);
    var i, j := OverlappingIsSlice(fs, |fs|, lo, hi);
    var g :| g in chosen && x in g.entries;
    var q := SliceMember(fs, i, j, g);
    var p :| 0 <= p < |fs| && fs[p] == f;
    InSlice(fs, i, j, p);
    CutInsideUserKey(fs, i, j, p, q, x, y);
    NextIsFirstBehind(fs, i, j);
    UserOfBoundary(fs, i, j, p, q, x, y);
    FirstIsNewest(fs, j, p, y);
    b := fs[j];
  }

  lemma UserOfBoundary(fs: seq<File>, i: nat, j: nat, p: nat, q: nat, x: Entry, y: Entry)
    requires FilesOk(fs) && SortedLevel(fs) && i <= q < j <= p < |fs|
    requires x in fs[q].entries && y in fs[p].entries && x.key.user == y.key.user
    ensures fs[j].smallest.user == y.key.user
  {
    assert fs[j].Ok();
    AcrossFiles(fs, q, j, x, fs[j].entries[0]);
    InRange(fs[p], y);
    if j < p {
      EndsInOrder(fs, j, p);
    }
  }

  // ---------- the exact condition, by files ----------

  /** The first file right behind the next level's inputs starts with a value of `u`. */
  ghost predicate CutAway(v: Version, level: nat, inputs1: seq<File>, u: UserKey, b: File)
    requires |v| == NUM_LEVELS && level + 1 < NUM_LEVELS
  {
    && inputs1 != [] && IsFirstBehind(v[level + 1], LargestOf(inputs1), b)
    && b.smallest.user == u && b.smallest.kind.TypeValue?
  }

  /** What the oldest snapshot sees of `u` is a merged deletion marker, and nothing deeper can hold `u`. */
  ghost predicate MarkerGoes(st: State, level: nat, inputs0: seq<File>, inputs1: seq<File>, u: UserKey, marker: Entry)
    requires |st.version| == NUM_LEVELS && level + 1 < NUM_LEVELS
  {
    && IsNewest(Stored(st), u, SmallestSnapshot(st), marker) && marker in Merged(inputs0, inputs1)
    && marker.key.kind.TypeDeletion? && BaseLevel(st.version, level, u)
  }

  lemma UncoveredIsOlder(st: State, level: nat, inputs0: seq<File>, inputs1: seq<File>, marker: Entry, old_: Entry,
                         u: UserKey)
    requires Inv(st) && level + 1 < NUM_LEVELS && PickOk(st.version, level, inputs0, inputs1)
    requires marker in Merged(inputs0, inputs1) && marker.key.user == u
    requires old_ in Rest(st, level, inputs0, inputs1) && VisibleAt(old_, u, marker.key.sequence)
    ensures old_.key.sequence < marker.key.sequence
    ensures old_ in Untouched(st.version, level, inputs0, inputs1)
  {
    RestApart(st, level, inputs0, inputs1);
    OldContent(st.version, level, inputs0, inputs1);
    OlderIsUntouched(Elements(st.mem), ImmContent(st.imm), AllContent(st.version), st.written,
                     Untouched(st.version, level, inputs0, inputs1), Merged(inputs0, inputs1), marker, old_, u);
  }

  lemma OlderIsUntouched(mem: set<Entry>, imm: set<Entry>, disk: set<Entry>, written: set<Entry>,
                         untouched: set<Entry>, merged: set<Entry>, marker: Entry, old_: Entry, u: UserKey)
    requires StoredOk(mem, imm, disk, written) && UniqueSequences(written)
    requires disk == untouched + merged && mem + imm + untouched !! merged
    requires marker in merged && marker.key.user == u
    requires old_ in mem + imm + untouched && VisibleAt(old_, u, marker.key.sequence)
    ensures old_.key.sequence < marker.key.sequence && old_ in untouched
  {
    OlderNeverSupersedes(old_, marker);
    assert marker in disk && marker in written && old_ in written;
    assert SameSequence(old_, marker) ==> old_ == marker;
  }

  lemma UntouchedMember(v: Version, level: nat, inputs0: seq<File>, inputs1: seq<File>, e: Entry)
    returns (l: nat, f: File)
    requires |v| == NUM_LEVELS && level + 1 < NUM_LEVELS && e in Untouched(v, level, inputs0, inputs1)
    ensures l < NUM_LEVELS && f in v[l] && e in f.entries
    ensures !(l == level && f in inputs0) && !(l == level + 1 && f in inputs1)
  {
    l, f :| 0 <= l < NUM_LEVELS && f in v[l]
      && !(l == level && f in inputs0) && !(l == level + 1 && f in inputs1) && e in f.entries;
  }

  lemma HidesBase(v: Version, level: nat, u: UserKey, l: nat, f: File, e: Entry)
    requires LevelsOk(v) && level + 2 <= l < NUM_LEVELS && f in v[l] && e in f.entries && e.key.user == u
    ensures !BaseLevel(v, level, u)
  {
    assert f.Ok();
    InRange(f, e);
    assert SpansUser(f, u);
  }

  /** An older entry that was left out, under a marker at base level, is behind the next level's inputs. */
  lemma OlderIsBehind(st: State, level: nat, inputs0: seq<File>, inputs1: seq<File>, u: UserKey,
                      marker: Entry, old_: Entry)
    returns (b: File)
    requires Inv(st) && level + 1 < NUM_LEVELS && PickOk(st.version, level, inputs0, inputs1)
    requires marker in Merged(inputs0, inputs1) && marker.key.user == u && BaseLevel(st.version, level, u)
    requires old_ in Rest(st, level, inputs0, inputs1) && VisibleAt(old_, u, marker.key.sequence)
    ensures inputs1 != [] && IsFirstBehind(st.version[level + 1], LargestOf(inputs1), b)
    ensures b.smallest.user == u && old_.key.sequence <= b.smallest.sequence
  {
    UncoveredIsOlder(st, level, inputs0, inputs1, marker, old_, u);
    var l, f := UntouchedMember(st.version, level, inputs0, inputs1, old_);
    OlderEntryPlace(st.version, level, inputs0, inputs1, marker, old_, l, f);
    if l >= level + 2 {
      HidesBase(st.version, level, u, l, f, old_);
    } else {
      var smallest, largest :| IsRange(inputs0, smallest, largest)
        && inputs1 == Overlapping(st.version[level + 1], At(smallest.user), At(largest.user));
      b := BoundaryFileFound(st.version[level + 1], At(smallest.user), At(largest.user), inputs1, marker, old_, f);
    }
  }

  /** The boundary file is left out. */
  lemma BoundaryLeftOut(v: Version, level: nat, inputs0: seq<File>, inputs1: seq<File>, b: File)
    requires LevelsOk(v) && level + 1 < NUM_LEVELS && inputs1 != []
    requires IsFirstBehind(v[level + 1], LargestOf(inputs1), b)
    ensures b.Ok() && b.entries[0] in Untouched(v, level, inputs0, inputs1)
  {
    LargestIsLast(inputs1);
    assert b.Ok();
    InRange(b, b.entries[0]);
    assert b !in inputs1;
    assert b in v[level + 1] && b.entries[0] in b.entries;
  }

  /** A merged entry of the user key the inputs end with is at least as new as their last one. */
  lemma MarkerNotOlder(v: Version, level: nat, inputs0: seq<File>, inputs1: seq<File>, x: Entry)
    requires VersionOk(v) && level + 1 < NUM_LEVELS && PickOk(v, level, inputs0, inputs1) && inputs1 != []
    requires x in Merged(inputs0, inputs1) && x.key.user == LargestOf(inputs1).user
    ensures x.key.sequence >= LargestOf(inputs1).sequence
  {
    if x in Content(inputs1) {
      InputsOfNextOk(v, level, inputs0, inputs1);
      NotPastLargest(inputs1, x);
    } else {
      NewerThanLargest(v, level, inputs0, inputs1, x);
    }
  }

  lemma InputsOfNextOk(v: Version, level: nat, inputs0: seq<File>, inputs1: seq<File>)
    requires LevelsOk(v) && level + 1 < NUM_LEVELS && PickOk(v, level, inputs0, inputs1)
    ensures FilesOk(inputs1)
  {
    InputsOfNext(v, level, inputs0, inputs1);
    SubsetOk(v[level + 1], inputs1);
  }

  lemma SubsetOk(fs: seq<File>, chosen: seq<File>)
    requires FilesOk(fs) && forall f | f in chosen :: f in fs
    ensures FilesOk(chosen)
  {
    forall i | 0 <= i < |chosen| ensures chosen[i].Ok() {
      assert chosen[i] in chosen;
      var j :| 0 <= j < |fs| && fs[j] == chosen[i];
    }
  }

  lemma NewerThanLargest(v: Version, level: nat, inputs0: seq<File>, inputs1: seq<File>, x: Entry)
    requires VersionOk(v) && level + 1 < NUM_LEVELS && PickOk(v, level, inputs0, inputs1) && inputs1 != []
    requires x in Content(inputs0) && x.key.user == LargestOf(inputs1).user
    ensures x.key.sequence > LargestOf(inputs1).sequence
  {
    InputsOfNext(v, level, inputs0, inputs1);
    LargestIsLast(inputs1);
    var g :| g in inputs1 && g.largest == LargestOf(inputs1);
    NewerThanNext(v, level, inputs0, x, g);
  }

  lemma NotPastLargest(fs: seq<File>, x: Entry)
    requires FilesOk(fs) && x in Content(fs)
    ensures !Before(LargestOf(fs), x.key)
  {
    LargestIsLast(fs);
    var h :| h in fs && x in h.entries;
    assert h.Ok();
    InRange(h, x);
  }

  lemma NewerThanNext(v: Version, level: nat, inputs0: seq<File>, x: Entry, g: File)
    requires VersionOk(v) && level + 1 < NUM_LEVELS && (forall f | f in inputs0 :: f in v[level])
    requires x in Content(inputs0) && g in v[level + 1] && x.key.user == g.largest.user
    ensures x.key.sequence > g.largest.sequence
  {
    assert g.Ok();
    var y := g.entries[|g.entries| - 1];
    assert y in g.entries && y in Content(v[level + 1]);
    assert x in Content(v[level]);
    OrderOfTwo(v, level, level + 1, x, y);
  }

  /** First files behind the same key start with the same key. */
  lemma FirstBehindUnique(fs: seq<File>, k: InternalKey, a: File, b: File)
    requires IsFirstBehind(fs, k, a) && IsFirstBehind(fs, k, b)
    ensures a.smallest == b.smallest
  {
    CompareIsOrder(a.smallest, b.smallest);
  }

  lemma UncoveredBehindCut(st: State, level: nat, inputs0: seq<File>, inputs1: seq<File>, u: UserKey,
                           marker: Entry, b: File)
    requires Inv(st) && level + 1 < NUM_LEVELS && PickOk(st.version, level, inputs0, inputs1)
    requires MarkerGoes(st, level, inputs0, inputs1, u, marker) && CutAway(st.version, level, inputs1, u, b)
    ensures Resurrects(st, level, inputs0, inputs1, u)
  {
    FirstIsUncovered(st, level, inputs0, inputs1, u, marker, b);
    StoredSplit(st, level, inputs0, inputs1);
    assert Uncovers(Rest(st, level, inputs0, inputs1), Merged(inputs0, inputs1), BaseOf(st, level),
                    SmallestSnapshot(st), u, marker, b.entries[0]);
  }

  /** Of what is left out, the boundary file's first entry is the newest under the marker. */
  lemma FirstIsUncovered(st: State, level: nat, inputs0: seq<File>, inputs1: seq<File>, u: UserKey,
                         marker: Entry, b: File)
    requires Inv(st) && level + 1 < NUM_LEVELS && PickOk(st.version, level, inputs0, inputs1)
    requires marker in Merged(inputs0, inputs1) && marker.key.user == u && BaseLevel(st.version, level, u)
    requires CutAway(st.version, level, inputs1, u, b)
    ensures b.entries != [] && b.entries[0].key == b.smallest
    ensures IsNewest(Rest(st, level, inputs0, inputs1), u, marker.key.sequence, b.entries[0])
  {
    BoundaryIsVisible(st, level, inputs0, inputs1, u, marker, b);
    forall x | x in Rest(st, level, inputs0, inputs1) && VisibleAt(x, u, marker.key.sequence)
      ensures x.key.sequence <= b.smallest.sequence
    {
      var c := OlderIsBehind(st, level, inputs0, inputs1, u, marker, x);
      FirstBehindUnique(st.version[level + 1], LargestOf(inputs1), b, c);
    }
  }

  lemma StoredSplit(st: State, level: nat, inputs0: seq<File>, inputs1: seq<File>)
    requires |st.version| == NUM_LEVELS && level + 1 < NUM_LEVELS && PickOk(st.version, level, inputs0, inputs1)
    ensures Stored(st) == Rest(st, level, inputs0, inputs1) + Merged(inputs0, inputs1)
  {
    OldContent(st.version, level, inputs0, inputs1);
  }

  lemma CutBeforeUncovered(st: State, level: nat, inputs0: seq<File>, inputs1: seq<File>, u: UserKey,
                           marker: Entry, old_: Entry)
    returns (b: File)
    requires Inv(st) && level + 1 < NUM_LEVELS && PickOk(st.version, level, inputs0, inputs1)
    requires Uncovers(Rest(st, level, inputs0, inputs1), Merged(inputs0, inputs1), BaseOf(st, level),
                      SmallestSnapshot(st), u, marker, old_)
    ensures MarkerGoes(st, level, inputs0, inputs1, u, marker) && CutAway(st.version, level, inputs1, u, b)
  {
    StoredSplit(st, level, inputs0, inputs1);
    b := OlderIsBehind(st, level, inputs0, inputs1, u, marker, old_);
    UncoveredIsFirst(st, level, inputs0, inputs1, u, marker, old_, b);
  }

  lemma UncoveredIsFirst(st: State, level: nat, inputs0: seq<File>, inputs1: seq<File>, u: UserKey,
                         marker: Entry, old_: Entry, b: File)
    requires Inv(st) && level + 1 < NUM_LEVELS && PickOk(st.version, level, inputs0, inputs1)
    requires marker in Merged(inputs0, inputs1) && marker.key.user == u
    requires IsNewest(Rest(st, level, inputs0, inputs1), u, marker.key.sequence, old_)
    requires inputs1 != [] && IsFirstBehind(st.version[level + 1], LargestOf(inputs1), b)
    requires b.smallest.user == u && old_.key.sequence <= b.smallest.sequence
    ensures b.smallest == old_.key
  {
    BoundaryIsVisible(st, level, inputs0, inputs1, u, marker, b);
    BothStored(st, level, inputs0, inputs1, b.entries[0], old_);
  }

  lemma BoundaryIsVisible(st: State, level: nat, inputs0: seq<File>, inputs1: seq<File>, u: UserKey,
                          marker: Entry, b: File)
    requires Inv(st) && level + 1 < NUM_LEVELS && PickOk(st.version, level, inputs0, inputs1)
    requires marker in Merged(inputs0, inputs1) && marker.key.user == u
    requires inputs1 != [] && IsFirstBehind(st.version[level + 1], LargestOf(inputs1), b) && b.smallest.user == u
    ensures b.entries != [] && b.entries[0].key == b.smallest
    ensures b.entries[0] in Rest(st, level, inputs0, inputs1) && VisibleAt(b.entries[0], u, marker.key.sequence)
  {
    BoundaryLeftOut(st.version, level, inputs0, inputs1, b);
    MarkerNotOlder(st.version, level, inputs0, inputs1, marker);
    assert b.smallest.sequence <= LargestOf(inputs1).sequence;
    assert b.entries[0] in Untouched(st.version, level, inputs0, inputs1);
  }

  lemma BothStored(st: State, level: nat, inputs0: seq<File>, inputs1: seq<File>, x: Entry, y: Entry)
    requires Inv(st) && level + 1 < NUM_LEVELS && PickOk(st.version, level, inputs0, inputs1)
    requires x in Rest(st, level, inputs0, inputs1) && y in Rest(st, level, inputs0, inputs1)
    ensures x.key.sequence == y.key.sequence ==> x == y
  {
    OldContent(st.version, level, inputs0, inputs1);
    assert x in st.written && y in st.written && (SameSequence(x, y) ==> x == y);
  }

  ghost predicate CutAndDropped(st: State, level: nat, inputs0: seq<File>, inputs1: seq<File>, u: UserKey)
    requires |st.version| == NUM_LEVELS && level + 1 < NUM_LEVELS
  {
    && (exists b :: CutAway(st.version, level, inputs1, u, b))
    && (exists marker :: MarkerGoes(st, level, inputs0, inputs1, u, marker))
  }

  /**
   A compaction resurrects `u` exactly if the first file right behind the next level's inputs
   starts with a value of `u`, and what the oldest snapshot sees of `u` is a deletion marker that
   the compaction merges and drops.
  */
  lemma ResurrectsIff(st: State, level: nat, inputs0: seq<File>, inputs1: seq<File>, u: UserKey)
    requires Inv(st) && level + 1 < NUM_LEVELS && PickOk(st.version, level, inputs0, inputs1)
    ensures Resurrects(st, level, inputs0, inputs1, u) <==> CutAndDropped(st, level, inputs0, inputs1, u)
  {
    if Resurrects(st, level, inputs0, inputs1, u) {
      ResurrectedIsCut(st, level, inputs0, inputs1, u);
    }
    if CutAndDropped(st, level, inputs0, inputs1, u) {
      CutIsResurrected(st, level, inputs0, inputs1, u);
    }
  }

  lemma ResurrectedIsCut(st: State, level: nat, inputs0: seq<File>, inputs1: seq<File>, u: UserKey)
    requires Inv(st) && level + 1 < NUM_LEVELS && PickOk(st.version, level, inputs0, inputs1)
    requires Resurrects(st, level, inputs0, inputs1, u)
    ensures CutAndDropped(st, level, inputs0, inputs1, u)
  {
    var marker, old_ :| Uncovers(Rest(st, level, inputs0, inputs1), Merged(inputs0, inputs1), BaseOf(st, level),
                                 SmallestSnapshot(st), u, marker, old_);
    var b := CutBeforeUncovered(st, level, inputs0, inputs1, u, marker, old_);
  }

  lemma CutIsResurrected(st: State, level: nat, inputs0: seq<File>, inputs1: seq<File>, u: UserKey)
    requires Inv(st) && level + 1 < NUM_LEVELS && PickOk(st.version, level, inputs0, inputs1)
    requires CutAndDropped(st, level, inputs0, inputs1, u)
    ensures Resurrects(st, level, inputs0, inputs1, u)
  {
    var b :| CutAway(st.version, level, inputs1, u, b);
    var marker :| MarkerGoes(st, level, inputs0, inputs1, u, marker);
    UncoveredBehindCut(st, level, inputs0, inputs1, u, marker, b);
  }

  /** The law of merge compaction, by files: reads stay right exactly if no user key is both cut and dropped. */
  lemma CompactionLawByFiles(st: State, st': State, level: nat, inputs0: seq<File>, inputs1: seq<File>, outs: seq<File>)
    requires Inv(st) && ReadsOk(st) && CompactStep(st, st', level, inputs0, inputs1, outs)
    ensures ReadsOk(st') <==> forall u: UserKey :: !CutAndDropped(st, level, inputs0, inputs1, u)
  {
    CompactionLaw(st, st', level, inputs0, inputs1, outs);
    forall u: UserKey
      ensures Resurrects(st, level, inputs0, inputs1, u) <==> CutAndDropped(st, level, inputs0, inputs1, u)
    {
      ResurrectsIff(st, level, inputs0, inputs1, u);
    }
  }

  /** If the next level's inputs are closed too, the compaction resurrects nothing. */
  lemma ClosedInputsAreHarmless(st: State, level: nat, inputs0: seq<File>, inputs1: seq<File>, u: UserKey)
    requires Inv(st) && level + 1 < NUM_LEVELS && PickOk(st.version, level, inputs0, inputs1)
    requires NextLevelClosed(st.version, level, inputs1)
    ensures !Resurrects(st, level, inputs0, inputs1, u)
  {
    ResurrectsIff(st, level, inputs0, inputs1, u);
    forall b ensures !CutAway(st.version, level, inputs1, u, b) {
    }
  }

  /** In a run whose compactions all have closed inputs, every live snapshot reads what was written. */
  lemma {:induction false} ClosedRunReads(states: seq<State>, steps: seq<Step>, n: nat)
    requires IsRun(states, steps) && n < |states|
    requires forall i | 0 <= i < n && steps[i].Compact? ::
      |states[i].version| == NUM_LEVELS && steps[i].level + 1 < NUM_LEVELS ==>
      NextLevelClosed(states[i].version, steps[i].level, steps[i].inputs1)
    ensures ReadsOk(states[n])
  {
    forall i | 0 <= i < n ensures Harmless(states[i], steps[i]) {
      RunInvariant(states, steps, i);
      assert Next(states[i], states[i + 1], steps[i]);
      if steps[i].Compact? {
        forall u: UserKey ensures !Resurrects(states[i], steps[i].level, steps[i].inputs0, steps[i].inputs1, u) {
          ClosedInputsAreHarmless(states[i], steps[i].level, steps[i].inputs0, steps[i].inputs1, u);
        }
      }
    }
    RunReads(states, steps, n);
  }
}
