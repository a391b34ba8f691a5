/**
 `VersionSet::Builder` (`db/version_set.cc`): accumulates edits against a base version and writes
 the result in one merge per level.
*/
module VersionBuilder {
  import opened Versions
  import opened Install

  /** The part of a `VersionEdit` a builder looks at: (level, number) deletions and new files. */
  datatype FileEdit = FileEdit(deleted: set<(nat, nat)>, added: seq<(nat, File)>)

  predicate EditOk(e: FileEdit) {
    && (forall d | d in e.deleted :: d.0 < NUM_LEVELS)
    && (forall i | 0 <= i < |e.added| :: e.added[i].0 < NUM_LEVELS)
  }

  // ---------- std::set<FileMetaData*, BySmallestKey> ----------

  lemma FileLessOrder(f: File, g: File, h: File)
    ensures !FileLess(f, f)
    ensures FileLess(f, g) && FileLess(g, h) ==> FileLess(f, h)
    ensures FileLess(f, g) || FileLess(g, f) || (f.smallest == g.smallest && f.number == g.number)
  {
  }

  ghost predicate SamePlace(f: File, g: File) {
    f.smallest == g.smallest && f.number == g.number
  }

  /** `FileSet::insert`: an equivalent element already present is kept. */
  function InsertFile(fs: seq<File>, f: File): seq<File> {
    if fs == [] then [f]
    else if FileLess(f, fs[0]) then [f] + fs
    else if FileLess(fs[0], f) then [fs[0]] + InsertFile(fs[1..], f)
    else fs
  }

  lemma {:induction false} InsertFileKeepsOrder(fs: seq<File>, f: File)
    requires Ordered(fs)
    ensures Ordered(InsertFile(fs, f))
    ensures forall g | g in InsertFile(fs, f) :: g in fs || g == f
    ensures forall g | g in fs :: g in InsertFile(fs, f)
    ensures f in InsertFile(fs, f) || exists g :: g in fs && SamePlace(f, g)
  {
    if fs == [] || FileLess(f, fs[0]) {
    } else if FileLess(fs[0], f) {
      InsertFileKeepsOrder(fs[1..], f);
      var rest := InsertFile(fs[1..], f);
      forall j | 0 <= j < |rest| ensures FileLess(fs[0], rest[j]) {
        assert rest[j] in rest;
        if rest[j] in fs[1..] {
          var i :| 0 <= i < |fs[1..]| && fs[1..][i] == rest[j];
        }
      }
      assert forall g | g in fs :: g == fs[0] || g in fs[1..];
    } else {
      assert fs[0] in fs && SamePlace(f, fs[0]);
    }
  }

  /** Files the builder will write for one level. */
  ghost predicate Survives(base: seq<File>, deleted: set<nat>, added: seq<File>, f: File) {
    (f in base || f in added) && f.number !in deleted
  }

  /** No new file takes the place of a file of the base. */
  ghost predicate NoClash(base: seq<File>, added: seq<File>) {
    forall f, g | f in base && g in added :: !SamePlace(f, g)
  }

  /** `MaybeAddFile`. */
  method MaybeAddFile(deleted: set<nat>, files: seq<File>, f: File) returns (r: seq<File>)
    ensures r == if f.number in deleted then files else files + [f]
  {
    r := if f.number in deleted then files else files + [f];
  }

  /** What one level of `SaveTo` has written after `i` base files and `j` added files. */
  ghost predicate SavedSoFar(base: seq<File>, deleted: set<nat>, added: seq<File>, i: nat, j: nat, out: seq<File>)
    requires i <= |base| && j <= |added|
  {
    && Ordered(out)
    && (forall f :: f in out <==> Survives(base[..i], deleted, added[..j], f))
    && (forall k, m | 0 <= k < |out| && i <= m < |base| :: FileLess(out[k], base[m]))
    && (forall k, m | 0 <= k < |out| && j <= m < |added| :: FileLess(out[k], added[m]))
  }

  lemma WriteBase(base: seq<File>, deleted: set<nat>, added: seq<File>, i: nat, j: nat, out: seq<File>)
    requires i < |base| && j <= |added| && Ordered(base) && Ordered(added)
    requires SavedSoFar(base, deleted, added, i, j, out)
    requires j < |added| ==> FileLess(base[i], added[j])
    ensures SavedSoFar(base, deleted, added, i + 1, j, if base[i].number in deleted then out else out + [base[i]])
  {
    var f := base[i];
    assert base[..i + 1] == base[..i] + [f];
    forall m | j <= m < |added| ensures FileLess(f, added[m]) {
      FileLessOrder(f, added[j], added[m]);
    }
  }

  lemma WriteAdded(base: seq<File>, deleted: set<nat>, added: seq<File>, i: nat, j: nat, out: seq<File>)
    requires i <= |base| && j < |added| && Ordered(base) && Ordered(added)
    requires SavedSoFar(base, deleted, added, i, j, out)
    requires i < |base| ==> FileLess(added[j], base[i])
    ensures SavedSoFar(base, deleted, added, i, j + 1, if added[j].number in deleted then out else out + [added[j]])
  {
    var f := added[j];
    assert added[..j + 1] == added[..j] + [f];
    forall m | i <= m < |base| ensures FileLess(f, base[m]) {
      FileLessOrder(f, base[i], base[m]);
    }
  }

  /** One level of `SaveTo`: merge the added files into the base files, dropping deleted ones. */
  method SaveLevel(base: seq<File>, deleted: set<nat>, added: seq<File>) returns (out: seq<File>)
    requires Ordered(base) && Ordered(added) && NoClash(base, added)
    ensures Ordered(out)
    ensures forall f :: f in out <==> Survives(base, deleted, added, f)
  {
    out := [];
    var i := 0;
    for j := 0 to |added|
      invariant i <= |base| && SavedSoFar(base, deleted, added, i, j, out)
    {
      while i < |base| && !FileLess(added[j], base[i])
        invariant i <= |base| && SavedSoFar(base, deleted, added, i, j, out)
      {
        assert base[i] in base && added[j] in added;
        FileLessOrder(base[i], added[j], base[i]);
        WriteBase(base, deleted, added, i, j, out);
        out := MaybeAddFile(deleted, out, base[i]);
        i := i + 1;
      }
      WriteAdded(base, deleted, added, i, j, out);
      out := MaybeAddFile(deleted, out, added[j]);
    }
    while i < |base|
      invariant i <= |base| && SavedSoFar(base, deleted, added, i, |added|, out)
    {
      WriteBase(base, deleted, added, i, |added|, out);
      out := MaybeAddFile(deleted, out, base[i]);
      i := i + 1;
    }
    assert base[..i] == base && added[..|added|] == added;
  }

  /** A level is determined by its set of files. */
  lemma {:induction false} OrderedUnique(a: seq<File>, b: seq<File>)
    requires Ordered(a) && Ordered(b) && forall f :: f in a <==> f in b
    ensures a == b
  {
    if a == [] {
      assert forall i | 0 <= i < |b| :: b[i] in b;
    } else {
      assert a[0] in a && b[0] in b;
      FirstIsLeast(a, b);
      assert a[0] == b[0];
      SameTail(a, b);
      SameTail(b, a);
      OrderedUnique(a[1..], b[1..]);
      assert a == [a[0]] + a[1..] && b == [b[0]] + b[1..];
    }
  }

  lemma FirstIsLeast(a: seq<File>, b: seq<File>)
    requires Ordered(a) && Ordered(b) && a != [] && b != [] && a[0] in b && b[0] in a
    ensures a[0] == b[0]
  {
    var i :| 0 <= i < |a| && a[i] == b[0];
    var j :| 0 <= j < |b| && b[j] == a[0];
    if i > 0 && j > 0 {
      assert FileLess(a[0], a[i]) && FileLess(b[0], b[j]);
      FileLessOrder(a[0], b[0], a[0]);
      assert false;
    }
  }

  lemma SameTail(a: seq<File>, b: seq<File>)
    requires Ordered(a) && Ordered(b) && a != [] && b != [] && a[0] == b[0]
    requires forall f | f in a :: f in b
    ensures forall f | f in a[1..] :: f in b[1..]
  {
    forall f | f in a[1..] ensures f in b[1..] {
      var i :| 0 <= i < |a[1..]| && a[1..][i] == f;
      assert FileLess(a[0], a[i + 1]);
      assert a[i + 1] in a && f in b;
      var j :| 0 <= j < |b| && b[j] == f;
      assert j != 0;
      assert b[1..][j - 1] == f;
    }
  }

  // ---------- the builder object ----------

  /** Effect of one edit on the pair (deleted numbers, added files) of a level. */
  function ApplyAdds(l: nat, adds: seq<(nat, File)>, deleted: set<nat>, added: seq<File>): (set<nat>, seq<File>) {
    if adds == [] then (deleted, added)
    else
      var (level, f) := adds[0];
      if level == l then ApplyAdds(l, adds[1..], deleted - {f.number}, InsertFile(added, f))
      else ApplyAdds(l, adds[1..], deleted, added)
  }

  /** The files an edit adds to level `l`. */
  function AddsAt(l: nat, adds: seq<(nat, File)>): seq<File> {
    if adds == [] then []
    else if adds[0].0 == l then [adds[0].1] + AddsAt(l, adds[1..])
    else AddsAt(l, adds[1..])
  }

  function Numbers(fs: seq<File>): set<nat> {
    set f | f in fs :: f.number
  }

  /** No number occurs twice among `fs`, nor both in `fs` and among `taken`. */
  ghost predicate FreshNumbers(fs: seq<File>, taken: set<nat>) {
    && (forall i, j | 0 <= i < j < |fs| :: fs[i].number != fs[j].number)
    && (forall f | f in fs :: f.number !in taken)
  }

  /** Among `fs`, a number stands for one file. */
  ghost predicate Identified(fs: seq<File>) {
    forall f, g | f in fs && g in fs && f.number == g.number :: f == g
  }

  /**
   Additions to a builder that may hold some of the files already: as long as numbers identify
   files, every addition takes effect and revokes the deletion of its own file only.
  */
  lemma {:induction false} AddsKnown(l: nat, adds: seq<(nat, File)>, deleted: set<nat>, added: seq<File>)
    requires Ordered(added) && Identified(added + AddsAt(l, adds))
    ensures var (d, a) := ApplyAdds(l, adds, deleted, added);
      && d == deleted - Numbers(AddsAt(l, adds))
      && Ordered(a)
      && forall f :: f in a <==> f in added || f in AddsAt(l, adds)
  {
    if adds != [] {
      var (level, f) := adds[0];
      var rest := AddsAt(l, adds[1..]);
      if level == l {
        var all := added + AddsAt(l, adds);
        assert AddsAt(l, adds) == [f] + rest && f in AddsAt(l, adds) && f in all;
        InsertFileKeepsOrder(added, f);
        var added' := InsertFile(added, f);
        forall g | g in added && SamePlace(f, g) ensures g == f {
          assert g in all;
        }
        assert forall g | g in added' + rest :: g in all;
        AddsKnown(l, adds[1..], deleted - {f.number}, added');
        assert Numbers([f] + rest) == {f.number} + Numbers(rest);
      } else {
        AddsKnown(l, adds[1..], deleted, added);
      }
    }
  }

  function DeletedAt(l: nat, e: FileEdit): set<nat> {
    set d | d in e.deleted && d.0 == l :: d.1
  }

  class Builder {
    const base: Version
    var deleted: seq<set<nat>>
    var added: seq<seq<File>>

    ghost predicate Valid()
      reads this
    {
      && |base| == |deleted| == |added| == NUM_LEVELS
      && (forall l | 0 <= l < NUM_LEVELS :: Ordered(base[l]) && Ordered(added[l]))
    }

    constructor (base: Version)
      requires |base| == NUM_LEVELS && forall l | 0 <= l < NUM_LEVELS :: Ordered(base[l])
      ensures Valid() && this.base == base
      ensures forall l | 0 <= l < NUM_LEVELS :: deleted[l] == {} && added[l] == []
    {
      this.base := base;
      deleted := seq(NUM_LEVELS, _ => {});
      added := seq(NUM_LEVELS, _ => []);
    }

    /** `Builder::Apply`: deletions first, then additions, each of which revokes a deletion. */
    method Apply(e: FileEdit)
      requires Valid() && EditOk(e)
      modifies this
      ensures Valid()
      ensures forall l | 0 <= l < NUM_LEVELS ::
        (deleted[l], added[l]) == ApplyAdds(l, e.added, old(deleted[l]) + DeletedAt(l, e), old(added[l]))
    {
      ghost var was := deleted;
      deleted := seq(NUM_LEVELS, l requires 0 <= l < NUM_LEVELS && |deleted| == NUM_LEVELS reads this =>
                       deleted[l] + DeletedAt(l, e));
      ghost var del0, add0 := deleted, added;
      for i := 0 to |e.added|
        invariant Valid()
        invariant forall l | 0 <= l < NUM_LEVELS ::
          ApplyAdds(l, e.added[i..], deleted[l], added[l]) == ApplyAdds(l, e.added, del0[l], add0[l])
      {
        var (level, f) := e.added[i];
        assert e.added[i..][0] == e.added[i] && e.added[i..][1..] == e.added[i + 1..];
        InsertFileKeepsOrder(added[level], f);
        deleted := deleted[level := deleted[level] - {f.number}];
        added := added[level := InsertFile(added[level], f)];
      }
    }

    /** `Builder::SaveTo`. */
    method SaveTo() returns (v: Version)
      requires Valid() && forall l | 0 <= l < NUM_LEVELS :: NoClash(base[l], added[l])
      ensures |v| == NUM_LEVELS
      ensures forall l | 0 <= l < NUM_LEVELS :: Ordered(v[l])
      ensures forall l, f | 0 <= l < NUM_LEVELS :: f in v[l] <==> Survives(base[l], deleted[l], added[l], f)
    {
      v := [];
      for l := 0 to NUM_LEVELS
        invariant |v| == l
        invariant forall m | 0 <= m < l :: Ordered(v[m])
        invariant forall m, f | 0 <= m < l :: f in v[m] <==> Survives(base[m], deleted[m], added[m], f)
      {
        var files := SaveLevel(base[l], deleted[l], added[l]);
        v := v + [files];
      }
    }
  }

  // ---------- installing one edit ----------

  /** What one edit makes of level `l`. */
  ghost predicate Edited(base: seq<File>, l: nat, e: FileEdit, out: seq<File>) {
    && Ordered(out)
    && forall f :: f in out <==>
         && (f in base || f in AddsAt(l, e.added))
         && f.number !in DeletedAt(l, e) - Numbers(AddsAt(l, e.added))
  }

  /** `Apply` and `SaveTo` of a builder of its own make exactly that. */
  lemma EditedLevel(base: seq<File>, l: nat, e: FileEdit, out: seq<File>)
    requires Ordered(base) && Ordered(out) && FreshNumbers(AddsAt(l, e.added), {})
    requires var (d, a) := ApplyAdds(l, e.added, DeletedAt(l, e), []);
      forall f :: f in out <==> Survives(base, d, a, f)
    ensures Edited(base, l, e, out)
  {
    AddsOfEdit(l, e);
  }

  lemma AddsOfEdit(l: nat, e: FileEdit)
    requires FreshNumbers(AddsAt(l, e.added), {})
    ensures var (d, a) := ApplyAdds(l, e.added, DeletedAt(l, e), []);
      && d == DeletedAt(l, e) - Numbers(AddsAt(l, e.added))
      && Ordered(a)
      && forall f :: f in a <==> f in AddsAt(l, e.added)
  {
    assert [] + AddsAt(l, e.added) == AddsAt(l, e.added);
    AddsKnown(l, e.added, DeletedAt(l, e), []);
  }

  /** New files of an edit never take a number already on their level. */
  ghost predicate EditFits(base: Version, e: FileEdit) {
    && |base| == NUM_LEVELS && EditOk(e)
    && forall l | 0 <= l < NUM_LEVELS :: Ordered(base[l]) && FreshNumbers(AddsAt(l, e.added), Numbers(base[l]))
  }

  /** `LogAndApply` up to the point where the new version is built. */
  method ApplyEdit(base: Version, e: FileEdit) returns (v: Version)
    requires EditFits(base, e)
    ensures |v| == NUM_LEVELS
    ensures forall l | 0 <= l < NUM_LEVELS :: Edited(base[l], l, e, v[l])
  {
    var builder := new Builder(base);
    builder.Apply(e);
    ghost var deleted, added := builder.deleted, builder.added;
    forall l | 0 <= l < NUM_LEVELS
      ensures (deleted[l], added[l]) == ApplyAdds(l, e.added, DeletedAt(l, e), [])
      ensures NoClash(base[l], added[l])
    {
      assert {} + DeletedAt(l, e) == DeletedAt(l, e);
      NoClashOf(base[l], l, e, deleted[l], added[l]);
    }
    v := builder.SaveTo();
    forall l | 0 <= l < NUM_LEVELS ensures Edited(base[l], l, e, v[l]) {
      WithoutTaken(AddsAt(l, e.added), Numbers(base[l]));
      EditedLevel(base[l], l, e, v[l]);
    }
  }

  lemma WithoutTaken(fs: seq<File>, taken: set<nat>)
    requires FreshNumbers(fs, taken)
    ensures FreshNumbers(fs, {})
  {
  }

  lemma NoClashOf(base: seq<File>, l: nat, e: FileEdit, deleted: set<nat>, added: seq<File>)
    requires FreshNumbers(AddsAt(l, e.added), Numbers(base))
    requires (deleted, added) == ApplyAdds(l, e.added, DeletedAt(l, e), [])
    ensures NoClash(base, added)
  {
    WithoutTaken(AddsAt(l, e.added), Numbers(base));
    AddsOfEdit(l, e);
    forall f, g | f in base && g in added ensures !SamePlace(f, g) {
      assert f.number in Numbers(base) && g in AddsAt(l, e.added);
    }
  }
}
