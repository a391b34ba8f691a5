/**
 Installing new versions: the level invariant survives a flush, a trivial move and a merge
 compaction, whatever files were chosen by the methods of InputSelection.
*/
module Install {
  import opened InternalKeys
  import opened FlatMap
  import opened Runs
  import opened Versions
  import opened InputSelection

  /** The order of `VersionSet::Builder::BySmallestKey`. */
  predicate FileLess(f: File, g: File) {
    Before(f.smallest, g.smallest) || (f.smallest == g.smallest && f.number < g.number)
  }

  ghost predicate Ordered(fs: seq<File>) {
    forall i, j | 0 <= i < j < |fs| :: FileLess(fs[i], fs[j])
  }

  /** `new_` lists, in builder order, the files of `old_` that are not gone, and the added ones. */
  ghost predicate Replaces(old_: seq<File>, gone: seq<File>, added: seq<File>, new_: seq<File>) {
    && Ordered(new_)
    && forall f :: f in new_ <==> (f in old_ && f !in gone) || f in added
  }

  /** File numbers identify files. */
  ghost predicate NumbersDistinct(v: Version) {
    && (forall l, m, f, g | 0 <= l < |v| && 0 <= m < |v| && f in v[l] && g in v[m] && f.number == g.number :: l == m)
    && (forall l, f, g | 0 <= l < |v| && f in v[l] && g in v[l] && f.number == g.number :: f == g)
  }

  ghost predicate Apart(f: File, g: File) {
    Before(f.largest, g.smallest) || Before(g.largest, f.smallest)
  }

  /** Ordered files that are pairwise apart form a sorted level. */
  lemma ApartIsSorted(fs: seq<File>)
    requires FilesOk(fs) && Ordered(fs)
    requires forall i, j | 0 <= i < j < |fs| :: Apart(fs[i], fs[j])
    ensures SortedLevel(fs)
  {
    forall i, j | 0 <= i < j < |fs| ensures Before(fs[i].largest, fs[j].smallest) {
      assert FileLess(fs[i], fs[j]) && Apart(fs[i], fs[j]);
      InRange(fs[i], fs[i].entries[0]);
      InRange(fs[j], fs[j].entries[0]);
    }
  }

  // ---------- the content of a changed level ----------

  lemma ContentGrows(old_: seq<File>, gone: seq<File>, added: seq<File>, new_: seq<File>)
    requires Replaces(old_, gone, added, new_)
    ensures forall e | e in Content(new_) :: e in Content(old_) || e in Content(added)
  {
    forall e | e in Content(new_) ensures e in Content(old_) || e in Content(added) {
      var f :| f in new_ && e in f.entries;
      assert f in old_ || f in added;
    }
  }

  lemma FilesStayOk(old_: seq<File>, gone: seq<File>, added: seq<File>, new_: seq<File>)
    requires Replaces(old_, gone, added, new_) && FilesOk(old_) && FilesOk(added)
    ensures FilesOk(new_)
  {
    forall i | 0 <= i < |new_| ensures new_[i].Ok() {
      assert new_[i] in new_;
    }
  }

  /** A level that only lost files keeps its order. */
  lemma LosingFiles(old_: seq<File>, gone: seq<File>, new_: seq<File>)
    requires Replaces(old_, gone, [], new_) && FilesOk(old_) && SortedLevel(old_)
    ensures FilesOk(new_) && SortedLevel(new_)
  {
    FilesStayOk(old_, gone, [], new_);
    forall i, j | 0 <= i < j < |new_| ensures Apart(new_[i], new_[j]) {
      assert new_[i] in new_ && new_[j] in new_ && FileLess(new_[i], new_[j]);
      TwoOfLevel(old_, new_[i], new_[j]);
    }
    ApartIsSorted(new_);
  }

  lemma TwoOfLevel(fs: seq<File>, f: File, g: File)
    requires SortedLevel(fs) && f in fs && g in fs && f != g
    ensures Apart(f, g)
  {
    var i :| 0 <= i < |fs| && fs[i] == f;
    var j :| 0 <= j < |fs| && fs[j] == g;
    assert i < j || j < i;
  }

  // ---------- merge compaction and trivial move ----------

  ghost function Merged(inputs0: seq<File>, inputs1: seq<File>): set<Entry> {
    Content(inputs0) + Content(inputs1)
  }

  /** A file of the next level that was not chosen lies wholly to one side of all inputs. */
  lemma LeftOutIsBeside(v: Version, level: nat, inputs0: seq<File>, inputs1: seq<File>, g: File)
    requires LevelsOk(v) && level + 1 < NUM_LEVELS && PickOk(v, level, inputs0, inputs1)
    requires g in v[level + 1] && g !in inputs1
    ensures (forall e | e in Merged(inputs0, inputs1) :: Before(g.largest, e.key))
         || (forall e | e in Merged(inputs0, inputs1) :: Before(e.key, g.smallest))
  {
    var smallest, largest :| IsRange(inputs0, smallest, largest)
      && inputs1 == Overlapping(v[level + 1], At(smallest.user), At(largest.user));
    var fs := v[level + 1];
    OverlappingIs(fs, At(smallest.user), At(largest.user));
    assert !Overlaps(g, At(smallest.user), At(largest.user));
    var left := g.largest.user < smallest.user;
    forall e | e in Merged(inputs0, inputs1)
      ensures if left then Before(g.largest, e.key) else Before(e.key, g.smallest)
    {
      if e in Content(inputs0) {
        InputsInRange(v, level, inputs0, smallest, largest, e);
      } else {
        var h :| h in inputs1 && e in h.entries;
        assert h in fs && Overlaps(h, At(smallest.user), At(largest.user));
        BesideOverlapping(fs, g, h, e, smallest.user, largest.user);
      }
    }
  }

  lemma InputsInRange(v: Version, level: nat, inputs0: seq<File>, smallest: InternalKey, largest: InternalKey, e: Entry)
    requires LevelsOk(v) && level < NUM_LEVELS && (forall f | f in inputs0 :: f in v[level])
    requires IsRange(inputs0, smallest, largest) && e in Content(inputs0)
    ensures smallest.user <= e.key.user <= largest.user
  {
    var f :| f in inputs0 && e in f.entries;
    var i :| 0 <= i < |inputs0| && inputs0[i] == f;
    assert f in v[level];
    InRange(f, e);
  }

  /** On a sorted level, a file that misses a range lies to the side of one that meets it. */
  lemma BesideOverlapping(fs: seq<File>, g: File, h: File, e: Entry, lo: UserKey, hi: UserKey)
    requires FilesOk(fs) && SortedLevel(fs) && g in fs && h in fs && e in h.entries
    requires Overlaps(h, At(lo), At(hi)) && !Overlaps(g, At(lo), At(hi))
    ensures if g.largest.user < lo then Before(g.largest, e.key) else Before(e.key, g.smallest)
  {
    var i :| 0 <= i < |fs| && fs[i] == g;
    var j :| 0 <= j < |fs| && fs[j] == h;
    SortedByUser(fs);
    InRange(h, e);
    assert if i < j then Before(fs[i].largest, fs[j].smallest) else Before(fs[j].largest, fs[i].smallest);
  }

  /**
   What the installed version must still have of the inputs. While the compaction was at work, files may
   have been flushed to any of the first levels.
  */
  ghost predicate Picked(v: Version, level: nat, inputs0: seq<File>, inputs1: seq<File>)
    requires |v| == NUM_LEVELS && level + 1 < NUM_LEVELS
  {
    && (forall f | f in inputs0 :: f in v[level])
    && NothingOlderLeft(v[level], inputs0)
    && (forall f | f in inputs1 :: f in v[level + 1])
  }

  /** No file that stays on the next level reaches into an output. */
  ghost predicate OutsClear(fs: seq<File>, inputs1: seq<File>, outs: seq<File>) {
    forall g, o {:trigger Apart(g, o)} | g in fs && g !in inputs1 && o in outs :: Apart(g, o)
  }

  /** The result of moving or merging inputs into `outs` on the next level. */
  ghost predicate Compacted(v: Version, level: nat, inputs0: seq<File>, inputs1: seq<File>, outs: seq<File>,
                            v': Version)
    requires |v| == NUM_LEVELS && level + 1 < NUM_LEVELS
  {
    && |v'| == NUM_LEVELS
    && (forall l | 0 <= l < NUM_LEVELS && l != level && l != level + 1 :: v'[l] == v[l])
    && Replaces(v[level], inputs0, [], v'[level])
    && Replaces(v[level + 1], inputs1, outs, v'[level + 1])
  }

  /** The new files hold nothing but what was merged. */
  ghost predicate OutsOk(inputs0: seq<File>, inputs1: seq<File>, outs: seq<File>) {
    && FilesOk(outs) && SortedLevel(outs)
    && forall e | e in Content(outs) :: e in Merged(inputs0, inputs1)
  }

  /** What was picked in the version the outputs are installed in keeps out of their way. */
  lemma PickIsClear(v: Version, level: nat, inputs0: seq<File>, inputs1: seq<File>, outs: seq<File>)
    requires LevelsOk(v) && level + 1 < NUM_LEVELS && PickOk(v, level, inputs0, inputs1)
    requires OutsOk(inputs0, inputs1, outs)
    ensures Picked(v, level, inputs0, inputs1) && OutsClear(v[level + 1], inputs1, outs)
  {
    InputsOfNext(v, level, inputs0, inputs1);
    forall g, o | g in v[level + 1] && g !in inputs1 && o in outs ensures Apart(g, o) {
      LeftOutIsBeside(v, level, inputs0, inputs1, g);
      EndsAreContent(outs, o);
    }
  }

  lemma OutputsFit(fs: seq<File>, inputs1: seq<File>, outs: seq<File>, new_: seq<File>)
    requires FilesOk(fs) && SortedLevel(fs) && FilesOk(outs) && SortedLevel(outs)
    requires OutsClear(fs, inputs1, outs) && Replaces(fs, inputs1, outs, new_)
    ensures FilesOk(new_) && SortedLevel(new_)
  {
    FilesStayOk(fs, inputs1, outs, new_);
    forall i, j | 0 <= i < j < |new_| ensures Apart(new_[i], new_[j]) {
      assert new_[i] in new_ && new_[j] in new_ && FileLess(new_[i], new_[j]);
      FitTogether(fs, inputs1, outs, new_[i], new_[j]);
    }
    ApartIsSorted(new_);
  }

  lemma FitTogether(fs: seq<File>, inputs1: seq<File>, outs: seq<File>, f: File, g: File)
    requires SortedLevel(fs) && SortedLevel(outs) && OutsClear(fs, inputs1, outs) && f != g
    requires f in outs || (f in fs && f !in inputs1)
    requires g in outs || (g in fs && g !in inputs1)
    ensures Apart(f, g)
  {
    if f in outs && g in outs {
      TwoOfLevel(outs, f, g);
    } else if f in outs {
      assert Apart(g, f);
    } else if g in outs {
      assert Apart(f, g);
    } else {
      TwoOfLevel(fs, f, g);
    }
  }

  lemma EndsAreContent(fs: seq<File>, f: File)
    requires FilesOk(fs) && f in fs
    ensures exists e, e' :: e in Content(fs) && e' in Content(fs) && e.key == f.smallest && e'.key == f.largest
  {
    assert f.Ok();
    assert f.entries[0] in f.entries && f.entries[|f.entries| - 1] in f.entries;
    assert f.entries[0] in Content(fs) && f.entries[|f.entries| - 1] in Content(fs);
  }

  /** Everything left at `level` is newer than everything that ends up one level deeper. */
  lemma LeftAboveOutputs(v: Version, level: nat, inputs0: seq<File>, inputs1: seq<File>, outs: seq<File>, v': Version)
    requires VersionOk(v) && level + 1 < NUM_LEVELS && Picked(v, level, inputs0, inputs1)
    requires OutsOk(inputs0, inputs1, outs) && Compacted(v, level, inputs0, inputs1, outs, v')
    ensures Newer(Content(v'[level]), Content(v'[level + 1]))
  {
    assert Newer(Content(v[level]), Content(v[level + 1]));
    ContentGrows(v[level + 1], inputs1, outs, v'[level + 1]);
    PickedContent(v, level, inputs0, inputs1);
    forall x, y | x in Content(v'[level]) && y in Content(v'[level + 1])
      ensures Supersedes(x, y)
    {
      var f :| f in v'[level] && x in f.entries;
      assert f in v[level] && f !in inputs0;
      assert x in Content(v[level]);
      if y !in Content(v[level + 1]) {
        assert y in Content(inputs0);
        var g :| g in inputs0 && y in g.entries;
        assert NewerFile(f, g);
        assert x in Elements(f.entries) && y in Elements(g.entries);
      }
    }
  }

  lemma PickedContent(v: Version, level: nat, inputs0: seq<File>, inputs1: seq<File>)
    requires |v| == NUM_LEVELS && level + 1 < NUM_LEVELS && Picked(v, level, inputs0, inputs1)
    ensures forall e | e in Content(inputs1) :: e in Content(v[level + 1])
    ensures forall e | e in Content(inputs0) :: e in Content(v[level])
  {
  }

  lemma InputsOfNext(v: Version, level: nat, inputs0: seq<File>, inputs1: seq<File>)
    requires |v| == NUM_LEVELS && level + 1 < NUM_LEVELS && PickOk(v, level, inputs0, inputs1)
    ensures forall f | f in inputs1 :: f in v[level + 1]
    ensures forall e | e in Content(inputs1) :: e in Content(v[level + 1])
    ensures forall e | e in Content(inputs0) :: e in Content(v[level])
  {
    var smallest, largest :| IsRange(inputs0, smallest, largest)
      && inputs1 == Overlapping(v[level + 1], At(smallest.user), At(largest.user));
    OverlappingIs(v[level + 1], At(smallest.user), At(largest.user));
  }

  /** Where an entry of a level of the new version was before. */
  lemma CameFrom(v: Version, level: nat, inputs0: seq<File>, inputs1: seq<File>, outs: seq<File>, v': Version,
                 l: nat, x: Entry)
    requires |v| == NUM_LEVELS && level + 1 < NUM_LEVELS && Picked(v, level, inputs0, inputs1)
    requires OutsOk(inputs0, inputs1, outs) && Compacted(v, level, inputs0, inputs1, outs, v')
    requires l < NUM_LEVELS && x in Content(v'[l])
    ensures x in Content(v[l]) || (l == level + 1 && x in Content(v[level]))
  {
    PickedContent(v, level, inputs0, inputs1);
    if l == level {
      ContentGrows(v[level], inputs0, [], v'[level]);
    } else if l == level + 1 {
      ContentGrows(v[level + 1], inputs1, outs, v'[level + 1]);
    }
  }

  lemma StillOrdered(v: Version, level: nat, inputs0: seq<File>, inputs1: seq<File>, outs: seq<File>, v': Version,
                     l: nat, m: nat)
    requires VersionOk(v) && level + 1 < NUM_LEVELS && Picked(v, level, inputs0, inputs1)
    requires OutsOk(inputs0, inputs1, outs) && Compacted(v, level, inputs0, inputs1, outs, v')
    requires l < m < NUM_LEVELS
    ensures Newer(Content(v'[l]), Content(v'[m]))
  {
    if l == level && m == level + 1 {
      LeftAboveOutputs(v, level, inputs0, inputs1, outs, v');
      return;
    }
    forall x, y | x in Content(v'[l]) && y in Content(v'[m])
      ensures Supersedes(x, y)
    {
      CameFrom(v, level, inputs0, inputs1, outs, v', l, x);
      CameFrom(v, level, inputs0, inputs1, outs, v', m, y);
      OrderOfTwo(v, if x in Content(v[l]) then l else level, if y in Content(v[m]) then m else level, x, y);
    }
  }

  lemma OrderOfTwo(v: Version, l: nat, m: nat, x: Entry, y: Entry)
    requires VersionOk(v) && l < m < NUM_LEVELS && x in Content(v[l]) && y in Content(v[m])
    ensures Supersedes(x, y)
  {
    assert Newer(Content(v[l]), Content(v[m]));
  }

  /** Installing outputs that nothing on their level reaches into keeps the level invariant. */
  lemma ClearInstall(v: Version, level: nat, inputs0: seq<File>, inputs1: seq<File>, outs: seq<File>, v': Version)
    requires VersionOk(v) && level + 1 < NUM_LEVELS && Picked(v, level, inputs0, inputs1)
    requires OutsOk(inputs0, inputs1, outs) && OutsClear(v[level + 1], inputs1, outs)
    requires Compacted(v, level, inputs0, inputs1, outs, v')
    ensures VersionOk(v')
  {
    OutputsFit(v[level + 1], inputs1, outs, v'[level + 1]);
    FilesStayOk(v[level], inputs0, [], v'[level]);
    if level > 0 {
      LosingFiles(v[level], inputs0, v'[level]);
    }
    assert LevelsOk(v');
    assert ByAge(v'[0]);
    forall l, m | 0 <= l < m < NUM_LEVELS ensures Newer(Content(v'[l]), Content(v'[m])) {
      StillOrdered(v, level, inputs0, inputs1, outs, v', l, m);
    }
  }

  /** The level invariant survives a merge compaction or a trivial move. */
  lemma CompactionKeepsInvariant(v: Version, level: nat, inputs0: seq<File>, inputs1: seq<File>, outs: seq<File>,
                                 v': Version)
    requires VersionOk(v) && level + 1 < NUM_LEVELS && PickOk(v, level, inputs0, inputs1)
    requires OutsOk(inputs0, inputs1, outs) && Compacted(v, level, inputs0, inputs1, outs, v')
    ensures VersionOk(v')
  {
    PickIsClear(v, level, inputs0, inputs1, outs);
    ClearInstall(v, level, inputs0, inputs1, outs, v');
  }

  // ---------- flush ----------

  /** The result of adding the flushed table `f` to `level`. */
  ghost predicate Flushed(v: Version, level: nat, f: File, v': Version)
    requires |v| == NUM_LEVELS && level < NUM_LEVELS
  {
    && |v'| == NUM_LEVELS
    && (forall l | 0 <= l < NUM_LEVELS && l != level :: v'[l] == v[l])
    && Replaces(v[level], [], [f], v'[level])
  }

  /** No file down to `level` shares a user key with the flushed table. */
  ghost predicate ClearPath(v: Version, level: nat, f: File)
    requires |v| == NUM_LEVELS && level < NUM_LEVELS
  {
    level > 0 ==> forall l | 0 <= l <= level :: !Meets(v[l], f.smallest.user, f.largest.user)
  }

  /** The level invariant survives a flush of entries newer than everything on disk. */
  lemma FlushKeepsInvariant(v: Version, level: nat, f: File, v': Version)
    requires VersionOk(v) && level < NUM_LEVELS && f.Ok() && ClearPath(v, level, f)
    requires Newer(Elements(f.entries), AllContent(v))
    requires forall l, g | 0 <= l < NUM_LEVELS && g in v[l] :: g.number < f.number
    requires Flushed(v, level, f, v')
    ensures VersionOk(v')
  {
    FilesStayOk(v[level], [], [f], v'[level]);
    if level > 0 {
      forall i, j | 0 <= i < j < |v'[level]| ensures Apart(v'[level][i], v'[level][j]) {
        FlushedApart(v, level, f, v', i, j);
      }
      ApartIsSorted(v'[level]);
    } else {
      FlushedByAge(v, f, v'[0]);
    }
    forall l, m | 0 <= l < m < NUM_LEVELS ensures Newer(Content(v'[l]), Content(v'[m])) {
      FlushedOrder(v, level, f, v', l, m);
    }
  }

  lemma FlushedApart(v: Version, level: nat, f: File, v': Version, i: nat, j: nat)
    requires LevelsOk(v) && 0 < level < NUM_LEVELS && f.Ok() && ClearPath(v, level, f)
    requires Flushed(v, level, f, v') && i < j < |v'[level]|
    ensures Apart(v'[level][i], v'[level][j])
  {
    var a, b := v'[level][i], v'[level][j];
    assert a in v'[level] && b in v'[level] && FileLess(a, b);
    assert !Meets(v[level], f.smallest.user, f.largest.user);
    if a in v[level] && b in v[level] {
      TwoOfLevel(v[level], a, b);
    } else if a in v[level] {
      assert !Overlaps(a, At(f.smallest.user), At(f.largest.user));
    } else {
      assert !Overlaps(b, At(f.smallest.user), At(f.largest.user));
    }
  }

  lemma FlushedByAge(v: Version, f: File, new_: seq<File>)
    requires VersionOk(v) && Replaces(v[0], [], [f], new_)
    requires Newer(Elements(f.entries), AllContent(v))
    requires forall g | g in v[0] :: g.number < f.number
    ensures ByAge(new_)
  {
    forall g, h | g in new_ && h in new_ && g.number > h.number ensures NewerFile(g, h) {
      assert h in v[0];
      if g == f {
        forall x, y | x in Elements(g.entries) && y in Elements(h.entries)
          ensures Supersedes(x, y)
        {
          assert y in Content(v[0]) && v[0] in v;
          assert y in AllContent(v);
        }
      }
    }
  }

  lemma FlushedOrder(v: Version, level: nat, f: File, v': Version, l: nat, m: nat)
    requires VersionOk(v) && level < NUM_LEVELS && f.Ok() && ClearPath(v, level, f)
    requires Newer(Elements(f.entries), AllContent(v)) && Flushed(v, level, f, v')
    requires l < m < NUM_LEVELS
    ensures Newer(Content(v'[l]), Content(v'[m]))
  {
    assert Newer(Content(v[l]), Content(v[m]));
    ContentGrows(v[level], [], [f], v'[level]);
    forall x, y | x in Content(v'[l]) && y in Content(v'[m])
      ensures Supersedes(x, y)
    {
      if x !in Content(v[l]) {
        assert x in Elements(f.entries);
        assert y in Content(v[m]) && v[m] in v;
        assert y in AllContent(v);
      } else if y !in Content(v[m]) {
        assert y in f.entries && m == level;
        var g :| g in v[l] && x in g.entries;
        InRange(g, x);
        InRange(f, y);
        assert x.key.user == y.key.user ==> Overlaps(g, At(f.smallest.user), At(f.largest.user));
      }
    }
  }
}
