/**
 How a merge compaction cuts its output into files: a file is closed when it has reached the size
 limit, or when the next key is past too many bytes of the level after next
 (`Compaction::ShouldStopBefore`, `MaxOutputFileSize`).
*/
module OutputFiles {
  import opened InternalKeys
  import opened Runs
  import opened Versions
  import opened InputSelection

  /**
   The size limit, and what a table builder reports for the entries added to it: `FileSize()`
   before and after `Finish()`. Block size and compression decide these, so they are parameters.
  */
  datatype TableSizes = TableSizes(maxFileSize: nat, fileSize: seq<Entry> -> nat, finishedSize: seq<Entry> -> nat)

  /** What decides the cuts of one compaction. */
  datatype Cutting = Cutting(merged: seq<Entry>, grandparents: seq<File>, sizes: TableSizes)

  /** How many of the first files end before `k`. */
  function Leading(fs: seq<File>, k: InternalKey): (n: nat)
    ensures n <= |fs|
    ensures forall i | 0 <= i < n :: Before(fs[i].largest, k)
    ensures n < |fs| ==> !Before(fs[n].largest, k)
  {
    if fs == [] || !Before(fs[0].largest, k) then 0 else 1 + Leading(fs[1..], k)
  }

  lemma LeadingGrows(fs: seq<File>, a: InternalKey, b: InternalKey)
    requires Before(a, b)
    ensures Leading(fs, a) <= Leading(fs, b)
  {
    forall i | 0 <= i < Leading(fs, a) ensures Before(fs[i].largest, b) {
    }
  }

  /** Bytes of the first `n` files. */
  function BytesUpTo(fs: seq<File>, n: nat): nat
    requires n <= |fs|
  {
    if n == 0 then 0 else BytesUpTo(fs, n - 1) + fs[n - 1].size
  }

  /** Bytes of the level after next passed since the last stop, when merged key `i` is looked at. */
  function Overlap(c: Cutting, i: nat): int
    requires i < |c.merged|
  {
    if i == 0 then 0
    else
      (if Overlap(c, i - 1) > MaxGrandParentOverlapBytes(c.sizes.maxFileSize) then 0 else Overlap(c, i - 1))
      + BytesUpTo(c.grandparents, Leading(c.grandparents, c.merged[i].key))
      - BytesUpTo(c.grandparents, Leading(c.grandparents, c.merged[i - 1].key))
  }

  /** `ShouldStopBefore` says so at merged key `i`. */
  predicate Stops(c: Cutting, i: nat)
    requires i < |c.merged|
  {
    Overlap(c, i) > MaxGrandParentOverlapBytes(c.sizes.maxFileSize)
  }

  /** Bytes of the files of the level after next that end before merged key `i`. */
  function Passed(c: Cutting, i: nat): nat
    requires i < |c.merged|
  {
    BytesUpTo(c.grandparents, Leading(c.grandparents, c.merged[i].key))
  }

  /** Counting starts at the first key and anew at every stop: `j` is where it last started. */
  ghost predicate CountsFrom(c: Cutting, j: nat, i: nat)
    requires j <= i < |c.merged|
  {
    (j == 0 || Stops(c, j)) && forall m | j < m < i :: !Stops(c, m)
  }

  lemma {:induction false} OverlapSince(c: Cutting, j: nat, i: nat)
    requires j < i < |c.merged| && CountsFrom(c, j, i)
    ensures Overlap(c, i) == Passed(c, i) - Passed(c, j)
    decreases i
  {
    assert Overlap(c, i) == (if Stops(c, i - 1) then 0 else Overlap(c, i - 1)) + Passed(c, i) - Passed(c, i - 1);
    if j < i - 1 {
      OverlapSince(c, j, i - 1);
    } else {
      assert j == 0 ==> Overlap(c, j) == 0;
    }
  }

  /**
   A stop is where more than ten times the size limit has been passed of the level after next since the stop
   before, or since the first key; never at the first key.
  */
  lemma StopsIff(c: Cutting, j: nat, i: nat)
    requires j <= i < |c.merged| && CountsFrom(c, j, i)
    ensures j < i ==> (Stops(c, i) <==> Passed(c, i) - Passed(c, j) > 10 * c.sizes.maxFileSize)
    ensures !Stops(c, 0)
  {
    if j < i {
      OverlapSince(c, j, i);
    }
  }

  lemma {:induction false} LastStop(c: Cutting, i: nat) returns (j: nat)
    requires i < |c.merged|
    ensures j <= i && (j == 0 || Stops(c, j)) && forall m | j < m <= i :: !Stops(c, m)
  {
    if i == 0 || Stops(c, i) {
      j := i;
    } else {
      j := LastStop(c, i - 1);
    }
  }

  lemma {:induction false} BytesGrow(fs: seq<File>, m: nat, n: nat)
    requires m <= n <= |fs|
    ensures BytesUpTo(fs, m) <= BytesUpTo(fs, n)
  {
    if m < n {
      BytesGrow(fs, m, n - 1);
    }
  }

  lemma PassedGrows(c: Cutting, i: nat, j: nat)
    requires Sorted(c.merged) && i <= j < |c.merged|
    ensures Passed(c, i) <= Passed(c, j)
  {
    if i < j {
      LeadingGrows(c.grandparents, c.merged[i].key, c.merged[j].key);
    }
    BytesGrow(c.grandparents, Leading(c.grandparents, c.merged[i].key), Leading(c.grandparents, c.merged[j].key));
  }

  /** Between stops no more than ten times the size limit is passed. */
  lemma FewBetweenStops(c: Cutting, a: nat, b: nat)
    requires Sorted(c.merged) && a <= b < |c.merged| && forall m | a < m <= b :: !Stops(c, m)
    ensures Passed(c, b) - Passed(c, a) <= 10 * c.sizes.maxFileSize
  {
    var j := LastStop(c, a);
    PassedGrows(c, j, a);
    if a < b {
      StopsIff(c, j, b);
    }
  }

  /** There is a stop after `a`, at `b` or before it. */
  ghost predicate StopBetween(c: Cutting, a: InternalKey, b: InternalKey) {
    exists i :: 0 <= i < |c.merged| && Stops(c, i) && Before(a, c.merged[i].key) && !Before(b, c.merged[i].key)
  }

  /** The file goes on after its first `p` entries. */
  ghost predicate GoesOn(c: Cutting, es: seq<Entry>, p: nat)
    requires 1 <= p < |es|
  {
    c.sizes.fileSize(es[..p]) < c.sizes.maxFileSize && !StopBetween(c, es[p - 1].key, es[p].key)
  }

  ghost predicate NotCut(c: Cutting, es: seq<Entry>) {
    forall p | 1 <= p < |es| :: GoesOn(c, es, p)
  }

  ghost predicate IsOutput(c: Cutting, f: File) {
    f.entries != [] && f.size == c.sizes.finishedSize(f.entries) && NotCut(c, f.entries)
  }

  /** There is a reason to close `f` before `g`. */
  ghost predicate Cut(c: Cutting, f: File, g: File) {
    c.sizes.fileSize(f.entries) >= c.sizes.maxFileSize || StopBetween(c, f.largest, g.smallest)
  }

  ghost predicate CutBehind(c: Cutting, outs: seq<File>, k: nat)
    requires k + 1 < |outs|
  {
    Cut(c, outs[k], outs[k + 1])
  }

  /** The outputs are cut where there is a reason to, and nowhere else. */
  ghost predicate CutsOk(c: Cutting, outs: seq<File>) {
    && (forall k | 0 <= k < |outs| :: IsOutput(c, outs[k]))
    && forall k {:trigger CutBehind(c, outs, k)} | 0 <= k < |outs| - 1 :: CutBehind(c, outs, k)
  }

  // ---------- how much one output spans ----------

  /** A merged key within an output, behind its first key, is no stop. */
  lemma NoStopInside(c: Cutting, f: File, m: nat)
    requires IsOutput(c, f) && f.Ok() && m < |c.merged|
    requires Before(f.smallest, c.merged[m].key) && !Before(f.largest, c.merged[m].key)
    ensures !Stops(c, m)
  {
    var es, k := f.entries, c.merged[m].key;
    var p := LowerBound(es, k);
    assert Before(es[0].key, k) && !Before(es[|es| - 1].key, k);
    assert 1 <= p < |es|;
    assert Before(es[p - 1].key, k) && !Before(es[p].key, k);
    assert GoesOn(c, es, p);
  }

  lemma InOrder(es: seq<Entry>, a: nat, b: nat)
    requires Sorted(es) && a < |es| && b < |es| && !Before(es[b].key, es[a].key)
    ensures a <= b
  {
  }

  /** One output passes no more than ten times the size limit of the level after next. */
  lemma OutputSpansFew(c: Cutting, f: File, a: nat, b: nat)
    requires Sorted(c.merged) && IsOutput(c, f) && f.Ok() && a < |c.merged| && b < |c.merged|
    requires c.merged[a].key == f.smallest && c.merged[b].key == f.largest
    ensures Passed(c, b) - Passed(c, a) <= 10 * c.sizes.maxFileSize
  {
    InRange(f, f.entries[0]);
    InOrder(c.merged, a, b);
    forall m | a < m <= b ensures !Stops(c, m) {
      NotAfter(c.merged, m, b);
      assert Before(c.merged[a].key, c.merged[m].key);
      NoStopInside(c, f, m);
    }
    FewBetweenStops(c, a, b);
  }

  // ---------- the rule leaves no choice ----------

  function Flatten(fs: seq<File>): seq<Entry> {
    if fs == [] then [] else fs[0].entries + Flatten(fs[1..])
  }

  lemma CutsOfRest(c: Cutting, outs: seq<File>)
    requires CutsOk(c, outs) && outs != []
    ensures CutsOk(c, outs[1..])
  {
    var rest := outs[1..];
    forall k | 0 <= k < |rest| - 1 ensures CutBehind(c, rest, k) {
      assert CutBehind(c, outs, k + 1);
    }
  }

  lemma FlatNotEmpty(a: seq<File>)
    requires FilesOk(a) && a != []
    ensures Flatten(a) != []
  {
    assert a[0].Ok();
  }

  lemma {:induction false} OneFileFlat(a: seq<File>)
    requires |a| == 1
    ensures Flatten(a) == a[0].entries
  {
    assert Flatten(a[1..]) == [];
  }

  lemma {:induction false} SecondFileFlat(a: seq<File>)
    requires FilesOk(a) && |a| > 1
    ensures |Flatten(a)| > |a[0].entries| && Flatten(a)[|a[0].entries|].key == a[1].smallest
  {
    assert a[1].Ok() && Flatten(a[1..])[0] == a[1].entries[0];
  }

  /** One and the same point cannot both close a file and be inside another. */
  lemma CutOrNot(c: Cutting, a: seq<File>, es: seq<Entry>, p: nat)
    requires |a| > 1 && 1 <= p < |es| && a[0].Ok()
    requires es[..p] == a[0].entries && es[p].key == a[1].smallest
    ensures !(CutBehind(c, a, 0) && GoesOn(c, es, p))
  {
    assert es[p - 1] == es[..p][p - 1];
  }

  /** Two cuttings of the same entries cannot differ in the first file. */
  lemma {:induction false} FirstNotShorter(c: Cutting, a: seq<File>, b: seq<File>)
    requires FilesOk(a) && FilesOk(b) && CutsOk(c, a) && CutsOk(c, b)
    requires a != [] && b != [] && Flatten(a) == Flatten(b)
    ensures |a[0].entries| >= |b[0].entries|
  {
    var es, fs := a[0].entries, b[0].entries;
    if |es| < |fs| {
      var p := |es|;
      assert Flatten(a)[..p] == es && Flatten(b)[..|fs|] == fs;
      assert fs[..p] == es && Flatten(b)[p] == fs[p];
      if |a| == 1 {
        OneFileFlat(a);
      } else {
        SecondFileFlat(a);
        CutOrNot(c, a, fs, p);
      }
    }
  }

  /** The rule determines the files: the same entries are cut in the same places. */
  lemma {:induction false} CutsAreUnique(c: Cutting, a: seq<File>, b: seq<File>)
    requires FilesOk(a) && FilesOk(b) && CutsOk(c, a) && CutsOk(c, b)
    requires Flatten(a) == Flatten(b)
    ensures |a| == |b| && forall k | 0 <= k < |a| :: a[k].entries == b[k].entries && a[k].size == b[k].size
  {
    if a == [] {
      if b != [] {
        FlatNotEmpty(b);
      }
    } else if b == [] {
      FlatNotEmpty(a);
    } else {
      FirstNotShorter(c, a, b);
      FirstNotShorter(c, b, a);
      var n := |a[0].entries|;
      assert Flatten(a)[..n] == a[0].entries && Flatten(b)[..n] == b[0].entries;
      assert Flatten(a)[n..] == Flatten(a[1..]) && Flatten(b)[n..] == Flatten(b[1..]);
      CutsOfRest(c, a);
      CutsOfRest(c, b);
      CutsAreUnique(c, a[1..], b[1..]);
      forall k | 0 <= k < |a| ensures a[k].entries == b[k].entries && a[k].size == b[k].size {
        if k > 0 {
          assert a[1..][k - 1] == a[k] && b[1..][k - 1] == b[k];
        }
      }
    }
  }

  // ---------- while the loop runs ----------

  /** No stop among the first `n` merged keys after `a`. */
  ghost predicate NoStopSince(c: Cutting, a: InternalKey, n: nat)
    requires n <= |c.merged|
  {
    forall i | 0 <= i < n && Before(a, c.merged[i].key) :: !Stops(c, i)
  }

  /** Nothing has closed the file being built. */
  ghost predicate Open(c: Cutting, building: seq<Entry>, n: nat)
    requires n <= |c.merged|
  {
    building != [] ==>
      NotCut(c, building) && c.sizes.fileSize(building) < c.sizes.maxFileSize
      && NoStopSince(c, building[|building| - 1].key, n)
  }

  /** A stop behind `f` among the first `n` merged keys, and not after `building`. */
  ghost predicate StoppedAfter(c: Cutting, f: File, building: seq<Entry>, n: nat)
    requires n <= |c.merged|
  {
    exists i :: 0 <= i < n && Stops(c, i) && Before(f.largest, c.merged[i].key)
      && (building != [] ==> !Before(building[0].key, c.merged[i].key))
  }

  /** The last file was closed for a reason. */
  ghost predicate Closed(c: Cutting, outs: seq<File>, building: seq<Entry>, n: nat)
    requires n <= |c.merged|
  {
    outs != [] ==>
      var f := outs[|outs| - 1];
      c.sizes.fileSize(f.entries) >= c.sizes.maxFileSize || StoppedAfter(c, f, building, n)
  }

  ghost predicate CutsSoFar(c: Cutting, outs: seq<File>, building: seq<Entry>, n: nat)
    requires n <= |c.merged|
  {
    CutsOk(c, outs) && Closed(c, outs, building, n)
  }

  lemma OneMoreKey(c: Cutting, outs: seq<File>, building: seq<Entry>, n: nat)
    requires n < |c.merged| && CutsSoFar(c, outs, building, n)
    ensures CutsSoFar(c, outs, building, n + 1)
  {
  }

  /** The file being built is finished. */
  lemma CloseFile(c: Cutting, outs: seq<File>, building: seq<Entry>, n: nat, f: File)
    requires n <= |c.merged| && CutsSoFar(c, outs, building, n)
    requires building != [] && NotCut(c, building)
    requires f.entries == building && f.size == c.sizes.finishedSize(building) && f.smallest == building[0].key
    ensures CutsOk(c, outs + [f])
  {
    var all := outs + [f];
    forall k {:trigger CutBehind(c, all, k)} | 0 <= k < |all| - 1 ensures CutBehind(c, all, k) {
      if k + 1 < |outs| {
        assert CutBehind(c, outs, k);
      } else {
        assert all[k] == outs[|outs| - 1];
      }
    }
  }

  /** A stop closes the file being built. */
  lemma CloseAtStop(c: Cutting, outs: seq<File>, building: seq<Entry>, n: nat, f: File)
    requires n < |c.merged| && CutsSoFar(c, outs, building, n) && Open(c, building, n)
    requires Stops(c, n) && building != [] && Before(building[|building| - 1].key, c.merged[n].key)
    requires f.entries == building && f.size == c.sizes.finishedSize(building)
    requires f.smallest == building[0].key && f.largest == building[|building| - 1].key
    ensures CutsSoFar(c, outs + [f], [], n + 1)
  {
    CloseFile(c, outs, building, n, f);
    assert (outs + [f])[|outs + [f]| - 1] == f;
    assert StoppedAfter(c, f, [], n + 1);
  }

  lemma NotStopped(c: Cutting, building: seq<Entry>, n: nat)
    requires n < |c.merged| && Open(c, building, n) && !Stops(c, n)
    ensures Open(c, building, n + 1)
  {
  }

  lemma NoStopBefore(c: Cutting, a: InternalKey, n: nat)
    requires n < |c.merged| && Sorted(c.merged) && NoStopSince(c, a, n + 1)
    ensures !StopBetween(c, a, c.merged[n].key)
  {
    forall i | 0 <= i < |c.merged| && Stops(c, i) && Before(a, c.merged[i].key)
      ensures Before(c.merged[n].key, c.merged[i].key)
    {
      assert i > n;
    }
  }

  lemma NotAfter(es: seq<Entry>, i: nat, n: nat)
    requires Sorted(es) && i <= n < |es|
    ensures !Before(es[n].key, es[i].key)
  {
    assert i < n ==> Before(es[i].key, es[n].key);
  }

  /** A stop seen so far is not after merged entry `n`. */
  lemma StopNotAfter(c: Cutting, f: File, es: seq<Entry>, n: nat)
    requires n < |c.merged| && Sorted(c.merged) && es != [] && es[0] == c.merged[n]
    requires StoppedAfter(c, f, [], n + 1)
    ensures StoppedAfter(c, f, es, n + 1)
  {
    var i :| 0 <= i < n + 1 && Stops(c, i) && Before(f.largest, c.merged[i].key);
    NotAfter(c.merged, i, n);
    assert Stops(c, i) && Before(f.largest, c.merged[i].key) && !Before(es[0].key, c.merged[i].key);
  }

  lemma StartFile(c: Cutting, outs: seq<File>, es: seq<Entry>, n: nat)
    requires n < |c.merged| && Sorted(c.merged) && CutsSoFar(c, outs, [], n + 1)
    requires |es| == 1 && es[0] == c.merged[n]
    ensures CutsSoFar(c, outs, es, n + 1)
  {
    if outs != [] && c.sizes.fileSize(outs[|outs| - 1].entries) < c.sizes.maxFileSize {
      StopNotAfter(c, outs[|outs| - 1], es, n);
    }
  }

  lemma NoStopYet(c: Cutting, n: nat)
    requires n < |c.merged| && Sorted(c.merged)
    ensures NoStopSince(c, c.merged[n].key, n + 1)
  {
    forall i | 0 <= i < n + 1 ensures !Before(c.merged[n].key, c.merged[i].key) {
      assert i < n ==> Before(c.merged[i].key, c.merged[n].key);
    }
  }

  lemma NotCutGrows(c: Cutting, building: seq<Entry>, e: Entry)
    requires building != [] && NotCut(c, building) && c.sizes.fileSize(building) < c.sizes.maxFileSize
    requires !StopBetween(c, building[|building| - 1].key, e.key)
    ensures NotCut(c, building + [e])
  {
    var grown := building + [e];
    forall p | 1 <= p < |grown| ensures GoesOn(c, grown, p) {
      assert grown[..p] == building[..p];
      if p < |building| {
        assert GoesOn(c, building, p);
      } else {
        assert building[..p] == building;
      }
    }
  }

  lemma SameStart(c: Cutting, outs: seq<File>, building: seq<Entry>, e: Entry, n: nat)
    requires n <= |c.merged| && building != [] && CutsSoFar(c, outs, building, n)
    ensures CutsSoFar(c, outs, building + [e], n)
  {
    if outs != [] && c.sizes.fileSize(outs[|outs| - 1].entries) < c.sizes.maxFileSize {
      var f := outs[|outs| - 1];
      assert (building + [e])[0] == building[0];
      assert StoppedAfter(c, f, building, n);
      assert StoppedAfter(c, f, building + [e], n);
    }
  }

  /** The file being built grows by merged entry `n`. */
  lemma GrowFile(c: Cutting, outs: seq<File>, building: seq<Entry>, n: nat)
    requires n < |c.merged| && Sorted(c.merged)
    requires CutsSoFar(c, outs, building, n + 1) && Open(c, building, n + 1)
    ensures CutsSoFar(c, outs, building + [c.merged[n]], n + 1)
    ensures NotCut(c, building + [c.merged[n]]) && NoStopSince(c, c.merged[n].key, n + 1)
  {
    NoStopYet(c, n);
    if building == [] {
      StartFile(c, outs, building + [c.merged[n]], n);
    } else {
      NoStopBefore(c, building[|building| - 1].key, n);
      NotCutGrows(c, building, c.merged[n]);
      SameStart(c, outs, building, c.merged[n], n + 1);
    }
  }

  /** The size limit closes the file being built. */
  lemma CloseAtLimit(c: Cutting, outs: seq<File>, building: seq<Entry>, n: nat, f: File)
    requires n <= |c.merged| && CutsSoFar(c, outs, building, n)
    requires building != [] && NotCut(c, building) && c.sizes.fileSize(building) >= c.sizes.maxFileSize
    requires f.entries == building && f.size == c.sizes.finishedSize(building) && f.smallest == building[0].key
    ensures CutsSoFar(c, outs + [f], [], n)
  {
    CloseFile(c, outs, building, n, f);
    assert (outs + [f])[|outs + [f]| - 1] == f;
  }
}
