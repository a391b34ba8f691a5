/**
 The manifest (`VersionSet::LogAndApply`, `WriteSnapshot` and `Recover` in `db/version_set.cc`):
 a snapshot of the version followed by one edit per change, replayed by a single builder.
*/
module Manifest {
  import opened Versions
  import opened Install
  import opened VersionBuilder
  import opened Sequences

  // ---------- one builder fed with many edits ----------

  /** What one builder holds for level `l` after a run of edits. */
  function Accumulated(l: nat, edits: seq<FileEdit>): (set<nat>, seq<File>) {
    if edits == [] then ({}, [])
    else
      var (d, a) := Accumulated(l, edits[..|edits| - 1]);
      var e := edits[|edits| - 1];
      ApplyAdds(l, e.added, d + DeletedAt(l, e), a)
  }

  /** Every file the edits ever add to level `l`. */
  function EverAdded(l: nat, edits: seq<FileEdit>): seq<File> {
    if edits == [] then []
    else EverAdded(l, edits[..|edits| - 1]) + AddsAt(l, edits[|edits| - 1].added)
  }

  ghost predicate EditedAll(v: Version, e: FileEdit, v': Version) {
    |v| == |v'| == NUM_LEVELS && forall l | 0 <= l < NUM_LEVELS :: Edited(v[l], l, e, v'[l])
  }

  /** Folding the edits one version at a time, starting from `v`. */
  ghost predicate Folds(v: Version, edits: seq<FileEdit>, versions: seq<Version>) {
    && |v| == NUM_LEVELS && |versions| == |edits| + 1 && versions[0] == v
    && forall i {:trigger edits[i]} | 0 <= i < |edits| :: EditedAll(versions[i], edits[i], versions[i + 1])
  }

  /** The files a builder would write are those of `level`. */
  ghost predicate Holds(d: set<nat>, a: seq<File>, level: seq<File>) {
    Ordered(a) && Ordered(level) && forall f :: f in level <==> f in a && f.number !in d
  }

  ghost predicate Holding(l: nat, edits: seq<FileEdit>, level: seq<File>) {
    && Holds(Accumulated(l, edits).0, Accumulated(l, edits).1, level)
    && forall f :: f in Accumulated(l, edits).1 <==> f in EverAdded(l, edits)
  }

  /** One more edit: the builder follows the version. */
  lemma HoldsNext(l: nat, edits: seq<FileEdit>, e: FileEdit, level: seq<File>, level': seq<File>)
    requires Holding(l, edits, level) && Identified(EverAdded(l, edits + [e]))
    requires Edited(level, l, e, level')
    ensures Holding(l, edits + [e], level')
  {
    assert (edits + [e])[..|edits|] == edits;
    var (d, a) := Accumulated(l, edits);
    var adds := AddsAt(l, e.added);
    assert forall f | f in a + adds :: f in EverAdded(l, edits + [e]);
    AddsKnown(l, e.added, d + DeletedAt(l, e), a);
    var (d', a') := ApplyAdds(l, e.added, d + DeletedAt(l, e), a);
    forall f ensures f in level' <==> f in a' && f.number !in d' {
      if f in a && f.number in Numbers(adds) {
        var g :| g in adds && g.number == f.number;
        assert f in a + adds && g in a + adds;
      }
      assert f in adds ==> f.number in Numbers(adds);
    }
  }

  // ---------- what a builder holds, whatever the edits are ----------

  /** `f` is the first of the files at its place. */
  ghost predicate FirstAtPlace(fs: seq<File>, f: File) {
    exists i :: 0 <= i < |fs| && fs[i] == f && forall j | 0 <= j < i :: !SamePlace(fs[j], f)
  }

  /** `a` has the first file of each place of `fs`. */
  ghost predicate Firsts(fs: seq<File>, a: seq<File>) {
    Ordered(a) && forall f :: f in a <==> FirstAtPlace(fs, f)
  }

  lemma {:induction false} FirstExists(fs: seq<File>, i: nat) returns (f: File)
    requires i < |fs|
    ensures FirstAtPlace(fs, f) && SamePlace(f, fs[i])
    decreases i
  {
    if j :| 0 <= j < i && SamePlace(fs[j], fs[i]) {
      f := FirstExists(fs, j);
    } else {
      f := fs[i];
    }
  }

  lemma FirstOfMore(fs: seq<File>, f: File, more: seq<File>, g: File)
    requires more == fs + [f]
    ensures FirstAtPlace(more, g) <==> FirstAtPlace(fs, g) || (g == f && forall h | h in fs :: !SamePlace(h, f))
  {
    if FirstAtPlace(fs, g) {
      var i :| 0 <= i < |fs| && fs[i] == g && forall j | 0 <= j < i :: !SamePlace(fs[j], g);
      assert more[i] == g && forall j | 0 <= j < i :: more[j] == fs[j];
    }
    if g == f && forall h | h in fs :: !SamePlace(h, f) {
      assert more[|fs|] == g && forall j | 0 <= j < |fs| :: more[j] == fs[j] && fs[j] in fs;
    }
    if FirstAtPlace(more, g) {
      var i :| 0 <= i < |more| && more[i] == g && forall j | 0 <= j < i :: !SamePlace(more[j], g);
      assert forall j | 0 <= j < |fs| :: more[j] == fs[j];
    }
  }

  /** Two files at one place are not both on an ordered level. */
  lemma OneAtPlace(fs: seq<File>, f: File, g: File)
    requires Ordered(fs) && f in fs && g in fs && SamePlace(f, g)
    ensures f == g
  {
    var i :| 0 <= i < |fs| && fs[i] == f;
    var j :| 0 <= j < |fs| && fs[j] == g;
    FileLessOrder(f, g, f);
    FileLessOrder(g, f, g);
    assert (i < j ==> FileLess(f, g)) && (j < i ==> FileLess(g, f));
  }

  lemma InsertFirst(fs: seq<File>, a: seq<File>, f: File, more: seq<File>)
    requires Firsts(fs, a) && more == fs + [f]
    ensures Firsts(more, InsertFile(a, f)) && Numbers(InsertFile(a, f)) == Numbers(a) + {f.number}
  {
    var a' := InsertFile(a, f);
    InsertFileKeepsOrder(a, f);
    forall g ensures g in a' <==> FirstAtPlace(more, g) {
      FirstOfMore(fs, f, more, g);
      if h :| h in fs && SamePlace(h, f) {
        var i :| 0 <= i < |fs| && fs[i] == h;
        var k := FirstExists(fs, i);
        if f in a' {
          OneAtPlace(a', k, f);
        }
      } else {
        forall k | k in a ensures !SamePlace(f, k) {
          assert FirstAtPlace(fs, k);
          assert k in fs;
        }
      }
    }
    forall n ensures n in Numbers(a') <==> n in Numbers(a) || n == f.number {
      if n in Numbers(a) {
        var g :| g in a && g.number == n;
        assert g in a';
      }
    }
  }

  lemma NumbersOfOneMore(f: File, rest: seq<File>)
    ensures Numbers([f] + rest) == {f.number} + Numbers(rest)
  {
    assert forall g :: g in [f] + rest <==> g == f || g in rest;
  }

  lemma LessNumbers(s: set<nat>, a: set<nat>, b: set<nat>)
    ensures (s - a) - b == s - (a + b)
  {
  }

  lemma {:induction false} AddsFirst(l: nat, adds: seq<(nat, File)>, deleted: set<nat>, fs: seq<File>, a: seq<File>)
    requires Firsts(fs, a)
    ensures var (d', a') := ApplyAdds(l, adds, deleted, a);
      && d' == deleted - Numbers(AddsAt(l, adds))
      && Firsts(fs + AddsAt(l, adds), a') && Numbers(a') == Numbers(a) + Numbers(AddsAt(l, adds))
  {
    if adds == [] {
      assert fs + [] == fs && Numbers([]) == {};
    } else {
      var (level, f) := adds[0];
      var rest := AddsAt(l, adds[1..]);
      if level == l {
        InsertFirst(fs, a, f, fs + [f]);
        AddsFirst(l, adds[1..], deleted - {f.number}, fs + [f], InsertFile(a, f));
        Regroup3(fs, [f], rest);
        NumbersOfOneMore(f, rest);
        LessNumbers(deleted, {f.number}, Numbers(rest));
      } else {
        AddsFirst(l, adds[1..], deleted, fs, a);
      }
    }
  }

  /** The builder and the version agree on the numbers in use. */
  ghost predicate SameNumbers(d: set<nat>, a: seq<File>, v: seq<File>) {
    forall n :: n in Numbers(v) <==> n in Numbers(a) && n !in d
  }

  lemma EditedNumbers(v: seq<File>, l: nat, e: FileEdit, v': seq<File>)
    requires Edited(v, l, e, v')
    ensures forall n :: n in Numbers(v') <==>
      n in Numbers(AddsAt(l, e.added)) || (n in Numbers(v) && n !in DeletedAt(l, e))
  {
    var adds := AddsAt(l, e.added);
    forall n ensures n in Numbers(v') <==> n in Numbers(adds) || (n in Numbers(v) && n !in DeletedAt(l, e)) {
      if n in Numbers(adds) {
        var f :| f in adds && f.number == n;
        assert f in v';
      } else if n in Numbers(v) && n !in DeletedAt(l, e) {
        var f :| f in v && f.number == n;
        assert f in v';
      }
    }
  }

  /** What holds of a builder fed with any edits, and of the version they lead to one at a time. */
  ghost predicate Follows(l: nat, edits: seq<FileEdit>, v: seq<File>) {
    && Ordered(v) && Firsts(EverAdded(l, edits), Accumulated(l, edits).1)
    && SameNumbers(Accumulated(l, edits).0, Accumulated(l, edits).1, v)
    && forall f | f in v :: f in EverAdded(l, edits)
  }

  lemma FollowsNext(l: nat, edits: seq<FileEdit>, e: FileEdit, v: seq<File>, v': seq<File>, more: seq<FileEdit>)
    requires Follows(l, edits, v) && Edited(v, l, e, v') && more == edits + [e]
    ensures Follows(l, more, v')
  {
    assert more[..|edits|] == edits;
    var (d, a) := Accumulated(l, edits);
    AddsFirst(l, e.added, d + DeletedAt(l, e), EverAdded(l, edits), a);
    EditedNumbers(v, l, e, v');
  }

  lemma {:induction false} AlwaysFollows(edits: seq<FileEdit>, versions: seq<Version>, l: nat)
    requires Folds(seq(NUM_LEVELS, _ => []), edits, versions) && l < NUM_LEVELS
    ensures |versions[|edits|]| == NUM_LEVELS && Follows(l, edits, versions[|edits|][l])
    decreases |edits|
  {
    if edits == [] {
      assert Numbers([]) == {} && versions[0][l] == [];
    } else {
      var n := |edits| - 1;
      assert edits == edits[..n] + [edits[n]];
      AlwaysFollows(edits[..n], versions[..n + 1], l);
      assert EditedAll(versions[n], edits[n], versions[n + 1]);
      FollowsNext(l, edits[..n], edits[n], versions[n][l], versions[n + 1][l], edits);
    }
  }

  /** Every file that was first at its place and has the number of a file of the version is in the version. */
  ghost predicate NumbersStand(added: seq<File>, v: seq<File>) {
    forall f, g | FirstAtPlace(added, f) && g in v && f.number == g.number :: f in v
  }

  /**
   Replaying any run of edits in one builder writes the version they lead to one at a time if and only if, of the
   files ever added, no other one has the number of a file of the version (of several with the same smallest key
   and number, the builder keeps the first).
  */
  lemma ReplayIff(edits: seq<FileEdit>, versions: seq<Version>, l: nat)
    requires Folds(seq(NUM_LEVELS, _ => []), edits, versions) && l < NUM_LEVELS
    ensures |versions[|edits|]| == NUM_LEVELS
    ensures Holds(Accumulated(l, edits).0, Accumulated(l, edits).1, versions[|edits|][l])
        <==> NumbersStand(EverAdded(l, edits), versions[|edits|][l])
  {
    AlwaysFollows(edits, versions, l);
    FollowsIff(l, edits, versions[|edits|][l]);
  }

  lemma FollowsIff(l: nat, edits: seq<FileEdit>, v: seq<File>)
    requires Follows(l, edits, v)
    ensures Holds(Accumulated(l, edits).0, Accumulated(l, edits).1, v) <==> NumbersStand(EverAdded(l, edits), v)
  {
    var fs := EverAdded(l, edits);
    var (d, a) := Accumulated(l, edits);
    if Holds(d, a, v) {
      forall f, g | FirstAtPlace(fs, f) && g in v && f.number == g.number ensures f in v {
        assert f in a;
      }
    }
    if NumbersStand(fs, v) {
      forall f | f in v ensures f in a && f.number !in d {
        assert f.number in Numbers(v);
        var i :| 0 <= i < |fs| && fs[i] == f;
        var k := FirstExists(fs, i);
        OneAtPlace(v, k, f);
      }
      forall f | f in a && f.number !in d ensures f in v {
        assert f.number in Numbers(a) && f.number in Numbers(v);
        var g :| g in v && g.number == f.number;
      }
    }
  }

  /** In particular it does when numbers identify files. */
  lemma ReplayIsFold(edits: seq<FileEdit>, versions: seq<Version>, l: nat)
    requires Folds(seq(NUM_LEVELS, _ => []), edits, versions) && l < NUM_LEVELS
    requires Identified(EverAdded(l, edits))
    ensures |versions[|edits|]| == NUM_LEVELS && Holding(l, edits, versions[|edits|][l])
  {
    var fs, v := EverAdded(l, edits), versions[|edits|][l];
    AlwaysFollows(edits, versions, l);
    forall f ensures f in fs <==> FirstAtPlace(fs, f) {
      if f in fs {
        var i :| 0 <= i < |fs| && fs[i] == f;
        var k := FirstExists(fs, i);
        assert k in fs && k.number == f.number;
      }
    }
    ReplayIff(edits, versions, l);
  }

  /** Add `f`, delete it, and give its number to `g`. */
  function Reuse(l: nat, f: File, g: File): seq<FileEdit> {
    [FileEdit({}, [(l, f)]), FileEdit({(l, f.number)}, []), FileEdit({}, [(l, g)])]
  }

  /** Reusing a number for another file breaks this: one builder brings `f` back beside `g`. */
  lemma ReusedNumber(l: nat, f: File, g: File)
    requires f.number == g.number && FileLess(f, g)
    ensures Accumulated(l, Reuse(l, f, g)) == ({}, [f, g])
  {
    var e0, e1, e2 := FileEdit({}, [(l, f)]), FileEdit({(l, f.number)}, []), FileEdit({}, [(l, g)]);
    assert (l, f.number) in e1.deleted;
    assert [] + [e0] == [e0] && [e0] + [e1] == [e0, e1] && [e0, e1] + [e2] == Reuse(l, f, g);
    AccumulatedNext(l, [], e0);
    OneAdd(l, f, {}, []);
    assert {} + DeletedAt(l, e0) == {} && {} - {f.number} == {} && InsertFile([], f) == [f];
    assert Accumulated(l, [e0]) == ({}, [f]);
    AccumulatedNext(l, [e0], e1);
    assert {} + DeletedAt(l, e1) == {f.number};
    assert Accumulated(l, [e0, e1]) == ({f.number}, [f]);
    AccumulatedNext(l, [e0, e1], e2);
    OneAdd(l, g, {f.number}, [f]);
    assert {f.number} + DeletedAt(l, e2) == {f.number} && {f.number} - {g.number} == {};
    FileLessOrder(f, g, f);
    assert [f][1..] == [] && InsertFile([f], g) == [f] + InsertFile([], g) == [f, g];
    assert Accumulated(l, [e0, e1] + [e2]) == ({}, [f, g]);
  }

  /** One version at a time, only `g` is left. */
  lemma ReusedNumberFold(l: nat, f: File, g: File)
    requires f.number == g.number
    ensures var es := Reuse(l, f, g);
      Edited([], l, es[0], [f]) && Edited([f], l, es[1], []) && Edited([], l, es[2], [g])
  {
    var e := FileEdit({(l, f.number)}, []);
    assert (l, f.number) in e.deleted;
    assert f.number in DeletedAt(l, e) - Numbers(AddsAt(l, e.added));
  }

  lemma AccumulatedNext(l: nat, edits: seq<FileEdit>, e: FileEdit)
    ensures Accumulated(l, edits + [e]) ==
      ApplyAdds(l, e.added, Accumulated(l, edits).0 + DeletedAt(l, e), Accumulated(l, edits).1)
  {
    assert (edits + [e])[..|edits|] == edits;
  }

  lemma OneAdd(l: nat, f: File, deleted: set<nat>, added: seq<File>)
    ensures ApplyAdds(l, [(l, f)], deleted, added) == (deleted - {f.number}, InsertFile(added, f))
  {
    assert [(l, f)][1..] == [];
  }
}
