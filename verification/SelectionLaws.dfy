/**
 The rules for the inputs of a compaction (`SetupOtherInputs` in `db/version_set.cc`) leave no choice.
*/
module SelectionLaws {
  import opened InternalKeys
  import opened Versions
  import opened InputSelection

  lemma RangeUnique(fs: seq<File>, s1: InternalKey, l1: InternalKey, s2: InternalKey, l2: InternalKey)
    requires IsRange(fs, s1, l1) && IsRange(fs, s2, l2)
    ensures s1 == s2 && l1 == l2
  {
    var f :| f in fs && f.smallest == s1;
    var g :| g in fs && g.smallest == s2;
    CompareIsOrder(s1, s2);
    var x :| x in fs && x.largest == l1;
    var y :| y in fs && y.largest == l2;
    CompareIsOrder(l1, l2);
  }

  lemma NextUnique(v: Version, level: nat, inputs0: seq<File>, a: seq<File>, b: seq<File>)
    requires |v| == NUM_LEVELS && level + 1 < NUM_LEVELS && NextOf(v, level, inputs0, a) && NextOf(v, level, inputs0, b)
    ensures a == b
  {
    var s1, l1 :| IsRange(inputs0, s1, l1) && a == Overlapping(v[level + 1], At(s1.user), At(l1.user));
    var s2, l2 :| IsRange(inputs0, s2, l2) && b == Overlapping(v[level + 1], At(s2.user), At(l2.user));
    RangeUnique(inputs0, s1, l1, s2, l2);
  }

  /** Where a longer chain goes on a shorter one can too. */
  lemma LongerGoesOn(fs: seq<File>, start: seq<File>, a: seq<File>, b: seq<File>)
    requires start != [] && Chained(fs, start, a) && Chained(fs, start, b) && |a| < |b| && b[..|a|] == a
    ensures exists f :: f in fs && StartsBehind(f, LargestOf(a))
  {
    assert IsFirstBehind(fs, LargestOf(b[..|a|]), b[|a|]);
  }

  /** On a sorted level the shorter of two chains is the beginning of the longer. */
  lemma SameBeginning(fs: seq<File>, start: seq<File>, i: nat, j: nat, a: seq<File>, b: seq<File>)
    requires FilesOk(fs) && SortedLevel(fs) && i < j <= |fs| && start == fs[i..j]
    requires Chained(fs, start, a) && Chained(fs, start, b) && |a| <= |b|
    ensures b[..|a|] == a
  {
    ChainIsSlice(fs, start, a, i, j);
    ChainIsSlice(fs, start, b, i, j);
  }

  lemma ChainNotShorter(fs: seq<File>, start: seq<File>, i: nat, j: nat, a: seq<File>, b: seq<File>)
    requires FilesOk(fs) && SortedLevel(fs) && i < j <= |fs| && start == fs[i..j]
    requires Chained(fs, start, a) && Chained(fs, start, b)
    requires forall f | f in fs :: !StartsBehind(f, LargestOf(a))
    ensures |a| >= |b|
  {
    if |a| < |b| {
      SameBeginning(fs, start, i, j, a, b);
      LongerGoesOn(fs, start, a, b);
    }
  }

  lemma ChainUnique(v: Version, level: nat, start: seq<File>, a: seq<File>, b: seq<File>)
    requires LevelsOk(v) && level + 1 < NUM_LEVELS && StartOk(v, level, start)
    requires Chained(v[level], start, a) && Chained(v[level], start, b)
    requires forall f | f in v[level] :: !StartsBehind(f, LargestOf(a)) && !StartsBehind(f, LargestOf(b))
    ensures a == b
  {
    if level == 0 {
      var lo, hi :| Closed(v[0], lo, hi) && start == Overlapping(v[0], lo, hi);
      ClosedHasNoBoundary(v[0], lo, hi, a);
      ClosedHasNoBoundary(v[0], lo, hi, b);
    } else {
      var i, j :| 0 <= i < j <= |v[level]| && start == v[level][i..j];
      ChainIsSlice(v[level], start, a, i, j);
      ChainIsSlice(v[level], start, b, i, j);
      ChainNotShorter(v[level], start, i, j, a, b);
      ChainNotShorter(v[level], start, i, j, b, a);
    }
  }

  /** A start leads to one set of inputs. */
  lemma CompletionUnique(v: Version, level: nat, start: seq<File>, a0: seq<File>, a1: seq<File>, b0: seq<File>,
                         b1: seq<File>)
    requires LevelsOk(v) && level + 1 < NUM_LEVELS && StartOk(v, level, start)
    requires Completion(v, level, start, a0, a1) && Completion(v, level, start, b0, b1)
    ensures a0 == b0 && a1 == b1
  {
    ChainUnique(v, level, start, a0, b0);
    NextUnique(v, level, a0, a1, b1);
  }

  lemma AroundUnique(fs: seq<File>, level: nat, begin: Bound, end: Bound, lo: Bound, hi: Bound, lo': Bound, hi': Bound)
    requires Around(fs, level, begin, end, lo, hi) && Around(fs, level, begin, end, lo', hi')
    ensures lo == lo' && hi == hi'
  {
  }

  lemma TakenInUnique(fs: seq<File>, level: nat, begin: Bound, end: Bound, a: seq<File>, b: seq<File>)
    requires TakenIn(fs, level, begin, end, a) && TakenIn(fs, level, begin, end, b)
    ensures a == b
  {
    var lo, hi :| Around(fs, level, begin, end, lo, hi) && a == Overlapping(fs, lo, hi);
    var lo', hi' :| Around(fs, level, begin, end, lo', hi') && b == Overlapping(fs, lo', hi');
    AroundUnique(fs, level, begin, end, lo, hi, lo', hi');
  }

  lemma WiderUnique(fs: seq<File>, level: nat, inputs: seq<File>, a: seq<File>, b: seq<File>)
    requires Wider(fs, level, inputs, a) && Wider(fs, level, inputs, b)
    ensures a == b
  {
    var s1, l1 :| IsRange(inputs, s1, l1) && TakenIn(fs, level, At(s1.user), At(l1.user), a);
    var s2, l2 :| IsRange(inputs, s2, l2) && TakenIn(fs, level, At(s2.user), At(l2.user), b);
    RangeUnique(inputs, s1, l1, s2, l2);
    TakenInUnique(fs, level, At(s1.user), At(l1.user), a, b);
  }

  /** The files a range takes in can be started from. */
  lemma WiderIsStart(v: Version, level: nat, inputs: seq<File>, wider: seq<File>)
    requires LevelsOk(v) && level + 1 < NUM_LEVELS && Wider(v[level], level, inputs, wider) && wider != []
    ensures StartOk(v, level, wider)
  {
    var s, l :| IsRange(inputs, s, l) && TakenIn(v[level], level, At(s.user), At(l.user), wider);
    var lo, hi :| Around(v[level], level, At(s.user), At(l.user), lo, hi) && wider == Overlapping(v[level], lo, hi);
    OverlapIsStart(v, level, lo, hi);
  }

  lemma GrownUnique(v: Version, level: nat, c0: seq<File>, c1: seq<File>, maxFileSize: nat, a0: seq<File>,
                    a1: seq<File>, b0: seq<File>, b1: seq<File>)
    requires LevelsOk(v) && level + 1 < NUM_LEVELS
    requires GrownFrom(v, level, c0, c1, maxFileSize, a0, a1) && GrownFrom(v, level, c0, c1, maxFileSize, b0, b1)
    ensures a0 == b0 && a1 == b1
  {
    var w, g0, g1 :| Wider(v[level], level, c0 + c1, w) && Completion(v, level, w, g0, g1)
      && a0 == (if MayGrow(c0, c1, g0, g1, maxFileSize) then g0 else c0)
      && a1 == if MayGrow(c0, c1, g0, g1, maxFileSize) then g1 else c1;
    var x, h0, h1 :| Wider(v[level], level, c0 + c1, x) && Completion(v, level, x, h0, h1)
      && b0 == (if MayGrow(c0, c1, h0, h1, maxFileSize) then h0 else c0)
      && b1 == if MayGrow(c0, c1, h0, h1, maxFileSize) then h1 else c1;
    WiderUnique(v[level], level, c0 + c1, w, x);
    WiderIsStart(v, level, c0 + c1, w);
    CompletionUnique(v, level, w, g0, g1, h0, h1);
  }

  /** `SetupOtherInputs` has no choice: what a compaction starts from determines its inputs. */
  lemma InputsUnique(v: Version, level: nat, start: seq<File>, maxFileSize: nat, a0: seq<File>, a1: seq<File>,
                     b0: seq<File>, b1: seq<File>)
    requires LevelsOk(v) && level + 1 < NUM_LEVELS && StartOk(v, level, start)
    requires InputsFrom(v, level, start, maxFileSize, a0, a1) && InputsFrom(v, level, start, maxFileSize, b0, b1)
    ensures a0 == b0 && a1 == b1
  {
    var c0, c1 :| Completion(v, level, start, c0, c1)
      && if c1 == [] then a0 == c0 && a1 == c1 else GrownFrom(v, level, c0, c1, maxFileSize, a0, a1);
    var d0, d1 :| Completion(v, level, start, d0, d1)
      && if d1 == [] then b0 == d0 && b1 == d1 else GrownFrom(v, level, d0, d1, maxFileSize, b0, b1);
    CompletionUnique(v, level, start, c0, c1, d0, d1);
    if c1 != [] {
      GrownUnique(v, level, c0, c1, maxFileSize, a0, a1, b0, b1);
    }
  }

  // ---------- manual compactions ----------

  lemma {:induction false} TotalGrows(fs: seq<File>, m: nat, n: nat)
    requires m <= n <= |fs|
    ensures TotalFileSize(fs[..m]) <= TotalFileSize(fs[..n])
    decreases n
  {
    if m < n {
      TotalGrows(fs, m, n - 1);
      TotalMore(fs, n - 1);
    }
  }

  lemma ShorterIsLess(all: seq<File>, a: seq<File>, b: seq<File>)
    requires a <= all && b <= all && |a| < |b|
    ensures TotalFileSize(a) <= TotalFileSize(b[..|b| - 1])
  {
    TotalGrows(all, |a|, |b| - 1);
    assert a == all[..|a|] && b[..|b| - 1] == all[..|b| - 1];
  }

  /** The first files up to the size limit are not fewer than any other first files up to it. */
  lemma CutNotShorter(all: seq<File>, maxFileSize: nat, a: seq<File>, b: seq<File>)
    requires a <= all && b <= all && a != [] && (a == all || TotalFileSize(a) >= maxFileSize)
    requires |b| <= 1 || TotalFileSize(b[..|b| - 1]) < maxFileSize
    ensures |a| >= |b|
  {
    if |a| < |b| {
      ShorterIsLess(all, a, b);
    }
  }

  lemma RangeStartUnique(v: Version, level: nat, begin: Bound, end: Bound, maxFileSize: nat, a: seq<File>, b: seq<File>)
    requires |v| == NUM_LEVELS && level + 1 < NUM_LEVELS
    requires RangeStart(v, level, begin, end, maxFileSize, a) && RangeStart(v, level, begin, end, maxFileSize, b)
    ensures a == b
  {
    if level == 0 {
      TakenInUnique(v[0], 0, begin, end, a, b);
    } else {
      var all := Overlapping(v[level], begin, end);
      CutNotShorter(all, maxFileSize, a, b);
      CutNotShorter(all, maxFileSize, b, a);
    }
  }

  lemma RangeStartOk(v: Version, level: nat, begin: Bound, end: Bound, maxFileSize: nat, start: seq<File>)
    requires LevelsOk(v) && level + 1 < NUM_LEVELS && RangeStart(v, level, begin, end, maxFileSize, start)
    ensures StartOk(v, level, start)
  {
    if level == 0 {
      var lo, hi :| Around(v[0], 0, begin, end, lo, hi) && start == Overlapping(v[0], lo, hi);
    } else {
      SortedByUser(v[level]);
      var i, j := OverlappingIsSlice(v[level], |v[level]|, begin, end);
      assert start == v[level][i..i + |start|];
    }
  }

  /** The range and the size limit determine the inputs of a manual compaction. */
  lemma RangeInputsUnique(v: Version, level: nat, begin: Bound, end: Bound, maxFileSize: nat, a0: seq<File>,
                          a1: seq<File>, b0: seq<File>, b1: seq<File>)
    requires LevelsOk(v) && level + 1 < NUM_LEVELS
    requires RangeInputs(v, level, begin, end, maxFileSize, a0, a1)
    requires RangeInputs(v, level, begin, end, maxFileSize, b0, b1)
    ensures a0 == b0 && a1 == b1
  {
    var s :| RangeStart(v, level, begin, end, maxFileSize, s) && InputsFrom(v, level, s, maxFileSize, a0, a1);
    var t :| RangeStart(v, level, begin, end, maxFileSize, t) && InputsFrom(v, level, t, maxFileSize, b0, b1);
    RangeStartUnique(v, level, begin, end, maxFileSize, s, t);
    RangeStartOk(v, level, begin, end, maxFileSize, s);
    InputsUnique(v, level, s, maxFileSize, a0, a1, b0, b1);
  }
}
