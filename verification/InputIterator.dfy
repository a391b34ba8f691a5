/**
 The input of a compaction (`VersionSet::MakeInputIterator` in `db/version_set.cc`): one cursor for every
 level-0 file, one for all chosen files of another level, and a merging iterator over these.
*/
module InputIterators {
  import opened InternalKeys
  import opened FlatMap
  import opened Runs
  import opened Cursors
  import opened MergingIterators
  import opened Versions
  import opened InputSelection
  import opened Install
  import opened Sequences

  // ---------- runs ----------

  /** What a concatenating iterator over files gives. */
  function Concatenated(fs: seq<File>): seq<Entry> {
    if fs == [] then [] else fs[0].entries + Concatenated(fs[1..])
  }

  lemma {:induction false} ConcatenatedIs(fs: seq<File>)
    ensures Elements(Concatenated(fs)) == Content(fs)
  {
    if fs == [] {
      assert Content(fs) == {};
    } else {
      ConcatenatedIs(fs[1..]);
      assert fs == [fs[0]] + fs[1..];
      assert Content(fs) == Elements(fs[0].entries) + Content(fs[1..]);
    }
  }

  lemma {:induction false} SortedAppend(a: seq<Entry>, b: seq<Entry>)
    requires Sorted(a) && Sorted(b) && forall e, f | e in a && f in b :: Before(e.key, f.key)
    ensures Sorted(a + b)
  {
  }

  lemma {:induction false} ConcatenatedSorted(fs: seq<File>)
    requires FilesOk(fs) && SortedLevel(fs)
    ensures Sorted(Concatenated(fs))
  {
    if fs != [] {
      var rest := fs[1..];
      forall i, j | 0 <= i < j < |rest| ensures Before(rest[i].largest, rest[j].smallest) {
        assert Before(fs[i + 1].largest, fs[j + 1].smallest);
      }
      ConcatenatedSorted(rest);
      ConcatenatedIs(rest);
      forall e, f | e in fs[0].entries && f in Concatenated(rest) ensures Before(e.key, f.key) {
        assert f in Elements(Concatenated(rest));
        var g :| g in rest && f in g.entries;
        var j :| 0 <= j < |rest| && rest[j] == g;
        AcrossFiles(fs, 0, j + 1, e, f);
      }
      SortedAppend(fs[0].entries, Concatenated(rest));
    }
  }

  /** Level-0 files have to be merged together; other levels are one run each. */
  function LevelRuns(level: nat, fs: seq<File>): seq<seq<Entry>> {
    if fs == [] then []
    else if level == 0 then seq(|fs|, i requires 0 <= i < |fs| => fs[i].entries)
    else [Concatenated(fs)]
  }

  function InputRuns(level: nat, inputs0: seq<File>, inputs1: seq<File>): seq<seq<Entry>> {
    LevelRuns(level, inputs0) + LevelRuns(level + 1, inputs1)
  }

  // ---------- runs share no key ----------

  ghost predicate AllApart(runs: seq<seq<Entry>>) {
    forall i, j {:trigger KeysApart(runs[i], runs[j])} | 0 <= i < |runs| && 0 <= j < |runs| && i != j ::
      KeysApart(runs[i], runs[j])
  }

  ghost predicate AllSorted(runs: seq<seq<Entry>>) {
    forall i {:trigger runs[i]} | 0 <= i < |runs| :: Sorted(runs[i])
  }

  /** The runs hold these entries and no others. */
  ghost predicate Hold(runs: seq<seq<Entry>>, es: set<Entry>) {
    && (forall i, e | 0 <= i < |runs| && e in runs[i] :: e in es)
    && (forall e | e in es :: Held(e, runs))
  }

  lemma NewerApart(a: seq<Entry>, b: seq<Entry>, es: set<Entry>, fs: set<Entry>)
    requires Newer(es, fs) && (forall e | e in a :: e in es) && (forall f | f in b :: f in fs)
    ensures KeysApart(a, b) && KeysApart(b, a)
  {
    forall e, f | e in a && f in b ensures e.key != f.key {
      assert Supersedes(e, f);
    }
  }

  lemma {:induction false} OverlappingOrdered(fs: seq<File>, n: nat, lo: Bound, hi: Bound)
    requires Ordered(fs) && n <= |fs|
    ensures Ordered(OverlappingUpTo(fs, n, lo, hi))
  {
    if n > 0 {
      OverlappingOrdered(fs, n - 1, lo, hi);
      OverlappingUpToIs(fs, n - 1, lo, hi);
      var before := OverlappingUpTo(fs, n - 1, lo, hi);
      forall i | 0 <= i < |before| ensures FileLess(before[i], fs[n - 1]) {
        assert before[i] in before && before[i] in fs[..n - 1];
        var k :| 0 <= k < n - 1 && fs[k] == before[i];
      }
    }
  }

  /** Level-0 inputs are different files, one newer than the other. */
  lemma LevelZeroRuns(fs: seq<File>, lo: Bound, hi: Bound)
    requires FilesOk(fs) && ByAge(fs) && Ordered(fs)
    ensures var chosen := Overlapping(fs, lo, hi);
      AllSorted(LevelRuns(0, chosen)) && AllApart(LevelRuns(0, chosen)) && Hold(LevelRuns(0, chosen), Content(chosen))
  {
    var chosen := Overlapping(fs, lo, hi);
    var runs := LevelRuns(0, chosen);
    OverlappingOrdered(fs, |fs|, lo, hi);
    OverlappingIs(fs, lo, hi);
    forall i | 0 <= i < |runs| ensures Sorted(runs[i]) {
      assert chosen[i] in chosen && chosen[i] in fs && chosen[i].Ok();
    }
    forall i, j | 0 <= i < j < |runs| ensures KeysApart(runs[i], runs[j]) && KeysApart(runs[j], runs[i]) {
      DifferentFiles(fs, chosen[i], chosen[j]);
    }
    FileRunsHold(chosen);
  }

  lemma DifferentFiles(fs: seq<File>, f: File, g: File)
    requires ByAge(fs) && f in fs && g in fs && FileLess(f, g)
    ensures KeysApart(f.entries, g.entries) && KeysApart(g.entries, f.entries)
  {
    if f == g {
      CompareIsOrder(f.smallest, g.smallest);
      assert false;
    }
    if f.number > g.number {
      assert NewerFile(f, g);
      NewerApart(f.entries, g.entries, Elements(f.entries), Elements(g.entries));
    } else {
      assert f.number != g.number && NewerFile(g, f);
      NewerApart(g.entries, f.entries, Elements(g.entries), Elements(f.entries));
    }
  }

  lemma FileRunsHold(fs: seq<File>)
    ensures Hold(LevelRuns(0, fs), Content(fs))
  {
    var runs := LevelRuns(0, fs);
    forall e | e in Content(fs) ensures Held(e, runs) {
      var f :| f in fs && e in f.entries;
      var i :| 0 <= i < |fs| && fs[i] == f;
      assert e in runs[i];
    }
  }

  /** Files in order are one sorted run. */
  lemma DeepRuns(level: nat, fs: seq<File>)
    requires level > 0 && FilesOk(fs) && SortedLevel(fs)
    ensures AllSorted(LevelRuns(level, fs)) && AllApart(LevelRuns(level, fs))
    ensures Hold(LevelRuns(level, fs), Content(fs))
  {
    var runs := LevelRuns(level, fs);
    ConcatenatedSorted(fs);
    ConcatenatedIs(fs);
    if fs == [] {
      assert Content(fs) == {};
    } else {
      forall e | e in Content(fs) ensures Held(e, runs) {
        assert e in Elements(Concatenated(fs)) && e in runs[0];
      }
    }
  }

  lemma SliceSorted(fs: seq<File>, i: nat, j: nat)
    requires FilesOk(fs) && SortedLevel(fs) && i <= j <= |fs|
    ensures FilesOk(fs[i..j]) && SortedLevel(fs[i..j])
  {
    forall p, q | 0 <= p < q < j - i ensures Before(fs[i..j][p].largest, fs[i..j][q].smallest) {
      assert Before(fs[i + p].largest, fs[i + q].smallest);
    }
  }

  lemma StartRuns(v: Version, level: nat, inputs0: seq<File>)
    requires VersionOk(v) && level + 1 < NUM_LEVELS && Ordered(v[0]) && StartOk(v, level, inputs0)
    ensures AllSorted(LevelRuns(level, inputs0)) && AllApart(LevelRuns(level, inputs0))
    ensures Hold(LevelRuns(level, inputs0), Content(inputs0))
  {
    if level == 0 {
      var lo, hi :| Closed(v[0], lo, hi) && inputs0 == Overlapping(v[0], lo, hi);
      LevelZeroRuns(v[0], lo, hi);
    } else {
      var i, j :| 0 <= i < j <= |v[level]| && inputs0 == v[level][i..j];
      SliceSorted(v[level], i, j);
      DeepRuns(level, inputs0);
    }
  }

  lemma NextRuns(v: Version, level: nat, inputs0: seq<File>, inputs1: seq<File>)
    requires VersionOk(v) && level + 1 < NUM_LEVELS && PickOk(v, level, inputs0, inputs1)
    ensures AllSorted(LevelRuns(level + 1, inputs1)) && AllApart(LevelRuns(level + 1, inputs1))
    ensures Hold(LevelRuns(level + 1, inputs1), Content(inputs1))
  {
    var fs := v[level + 1];
    var smallest, largest :| IsRange(inputs0, smallest, largest)
      && inputs1 == Overlapping(fs, At(smallest.user), At(largest.user));
    SortedByUser(fs);
    var i, j := OverlappingIsSlice(fs, |fs|, At(smallest.user), At(largest.user));
    SliceSorted(fs, i, j);
    DeepRuns(level + 1, inputs1);
  }

  lemma AppendRuns(a: seq<seq<Entry>>, b: seq<seq<Entry>>, es: set<Entry>, fs: set<Entry>)
    requires AllSorted(a) && AllApart(a) && Hold(a, es) && AllSorted(b) && AllApart(b) && Hold(b, fs)
    requires Newer(es, fs)
    ensures AllSorted(a + b) && AllApart(a + b) && Hold(a + b, es + fs)
  {
    var runs := a + b;
    forall i, j | 0 <= i < |a| && 0 <= j < |b| ensures KeysApart(a[i], b[j]) && KeysApart(b[j], a[i]) {
      NewerApart(a[i], b[j], es, fs);
    }
    forall i, j | 0 <= i < |runs| && 0 <= j < |runs| && i != j ensures KeysApart(runs[i], runs[j]) {
      if i < |a| && j < |a| {
        assert KeysApart(a[i], a[j]);
      } else if i >= |a| && j >= |a| {
        assert KeysApart(b[i - |a|], b[j - |a|]);
      }
    }
    forall e | e in es + fs ensures Held(e, runs) {
      if e in es {
        assert Held(e, a);
        var k :| 0 <= k < |a| && e in a[k];
        assert e in runs[k];
      } else {
        assert Held(e, b);
        var k :| 0 <= k < |b| && e in b[k];
        assert e in runs[|a| + k];
      }
    }
  }

  /** What the iterator of a compaction runs over: sorted runs without a common key, and all of the inputs. */
  lemma RunsOfInputs(v: Version, level: nat, inputs0: seq<File>, inputs1: seq<File>)
    requires VersionOk(v) && level + 1 < NUM_LEVELS && Ordered(v[0])
    requires StartOk(v, level, inputs0) && PickOk(v, level, inputs0, inputs1)
    requires forall f | f in inputs1 :: f in v[level + 1]
    ensures var runs := InputRuns(level, inputs0, inputs1);
      AllSorted(runs) && AllApart(runs) && Hold(runs, Merged(inputs0, inputs1))
  {
    StartRuns(v, level, inputs0);
    NextRuns(v, level, inputs0, inputs1);
    assert Newer(Content(inputs0), Content(inputs1)) by {
      assert Newer(Content(v[level]), Content(v[level + 1]));
      assert Content(inputs0) <= Content(v[level]) && Content(inputs1) <= Content(v[level + 1]);
    }
    AppendRuns(LevelRuns(level, inputs0), LevelRuns(level + 1, inputs1), Content(inputs0), Content(inputs1));
  }

  // ---------- the entries in order ----------

  function InsertEntry(es: seq<Entry>, e: Entry): seq<Entry> {
    if es == [] || !Before(es[0].key, e.key) then [e] + es else [es[0]] + InsertEntry(es[1..], e)
  }

  lemma {:induction false} InsertEntrySorts(es: seq<Entry>, e: Entry)
    requires Sorted(es) && forall i | 0 <= i < |es| :: es[i].key != e.key
    ensures Sorted(InsertEntry(es, e)) && Elements(InsertEntry(es, e)) == Elements(es) + {e}
  {
    if es != [] && Before(es[0].key, e.key) {
      InsertEntrySorts(es[1..], e);
      var rest := InsertEntry(es[1..], e);
      forall j | 0 <= j < |rest| ensures Before(es[0].key, rest[j].key) {
        assert rest[j] in Elements(rest);
      }
      assert es == [es[0]] + es[1..];
      assert Elements([es[0]] + rest) == {es[0]} + Elements(rest);
      assert Elements(es) == {es[0]} + Elements(es[1..]);
    } else {
      assert Elements([e] + es) == {e} + Elements(es);
    }
  }

  /** Any finite set of entries with different keys can be listed in key order. */
  lemma {:induction false} Arranged(es: set<Entry>) returns (all: seq<Entry>)
    requires forall e, f {:trigger e in es, f in es} | e in es && f in es && e.key == f.key :: e == f
    ensures Sorted(all) && Elements(all) == es
    decreases |es|
  {
    if es == {} {
      all := [];
    } else {
      var e :| e in es;
      var rest := Arranged(es - {e});
      forall i | 0 <= i < |rest| ensures rest[i].key != e.key {
        assert rest[i] in Elements(rest);
      }
      InsertEntrySorts(rest, e);
      all := InsertEntry(rest, e);
    }
  }

  lemma ArrangedIsUnion(all: seq<Entry>, runs: seq<seq<Entry>>, es: set<Entry>)
    requires Sorted(all) && Elements(all) == es && AllSorted(runs) && AllApart(runs) && Hold(runs, es)
    ensures IsUnion(all, runs)
  {
    forall j | 0 <= j < |runs| ensures SubRun(runs[j], all) {
      forall e | e in runs[j] ensures e in all {
        assert e in Elements(all);
      }
    }
    forall n | 0 <= n < |all| ensures Held(all[n], runs) {
      assert all[n] in Elements(all);
    }
  }

  // ---------- the iterator ----------

  /** Cursors on the runs. */
  method OpenRuns(runs: seq<seq<Entry>>) returns (list: seq<Cursor>)
    requires AllSorted(runs)
    ensures RunsOf(list) == runs && fresh(list)
    ensures forall i, j | 0 <= i < j < |list| :: list[i] != list[j]
    ensures forall j | 0 <= j < |list| :: list[j].Ok()
  {
    list := [];
    for num := 0 to |runs|
      invariant |list| == num && fresh(list)
      invariant forall i, j | 0 <= i < j < |list| :: list[i] != list[j]
      invariant forall j | 0 <= j < |list| :: list[j].Ok() && list[j].entries == runs[j]
    {
      var c := new Cursor(runs[num]);
      list := list + [c];
    }
  }

  /** Sorted runs that hold `es` between them and no key twice. */
  ghost predicate Mergeable(runs: seq<seq<Entry>>, es: set<Entry>) {
    AllSorted(runs) && AllApart(runs) && Hold(runs, es) && UniqueSequences(es)
  }

  lemma Union(runs: seq<seq<Entry>>, es: set<Entry>) returns (all: seq<Entry>)
    requires Mergeable(runs, es)
    ensures Sorted(all) && Elements(all) == es && IsUnion(all, runs) && AllSorted(runs)
  {
    forall e, f | e in es && f in es && e.key == f.key ensures e == f {
      assert SameSequence(e, f);
    }
    all := Arranged(es);
    ArrangedIsUnion(all, runs, es);
  }

  /** What the merging iterator yields from first to last: all entries of the runs, once each, in key order. */
  method MergeInputs(runs: seq<seq<Entry>>, ghost es: set<Entry>) returns (merged: seq<Entry>)
    requires Mergeable(runs, es)
    ensures Sorted(merged) && Elements(merged) == es
  {
    ghost var all := Union(runs, es);
    merged := Drain(runs, all);
  }

  lemma SequencesWithin(es: seq<Entry>, bound: nat)
    requires forall e | e in Elements(es) :: e.key.sequence <= bound
    ensures forall i | 0 <= i < |es| :: es[i].key.sequence <= bound
  {
    forall i | 0 <= i < |es| ensures es[i].key.sequence <= bound {
      assert es[i] in Elements(es);
    }
  }

  method Drain(runs: seq<seq<Entry>>, ghost all: seq<Entry>) returns (merged: seq<Entry>)
    requires IsUnion(all, runs) && AllSorted(runs)
    ensures merged == all
  {
    var list := OpenRuns(runs);
    var input := new MergingIterator(list, all);
    input.SeekToFirst();
    merged := [];
    while input.Valid()
      invariant input.Ok() && input.pos <= |all| && merged == all[..input.pos]
      decreases |all| - input.pos
    {
      input.ShowsCurrent();
      var e := input.CurrentEntry();
      TakeMore(all, input.pos, e);
      merged := merged + [e];
      input.Next();
    }
    assert all[..|all|] == all;
  }
}
