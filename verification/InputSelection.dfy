/**
 Choosing files (`db/version_set.cc`): range overlap, the level a flushed memtable goes to, and
 the inputs of a compaction.
*/
module InputSelection {
  import opened InternalKeys
  import opened FlatMap
  import opened Runs
  import opened Versions

  datatype Bound = Unbounded | At(user: UserKey)

  predicate StartsBefore(b: Bound, u: UserKey) {
    b.Unbounded? || b.user <= u
  }

  predicate EndsAfter(b: Bound, u: UserKey) {
    b.Unbounded? || u <= b.user
  }

  /** The user-key range of `f` meets `[lo, hi]`. */
  predicate Overlaps(f: File, lo: Bound, hi: Bound) {
    StartsBefore(lo, f.largest.user) && EndsAfter(hi, f.smallest.user)
  }

  predicate Inside(f: File, lo: Bound, hi: Bound) {
    StartsBefore(lo, f.smallest.user) && EndsAfter(hi, f.largest.user)
  }

  /** No file reaches across an end of `[lo, hi]`. */
  ghost predicate Closed(fs: seq<File>, lo: Bound, hi: Bound) {
    forall f | f in fs && Overlaps(f, lo, hi) :: Inside(f, lo, hi)
  }

  predicate WiderLow(a: Bound, b: Bound) {
    a.Unbounded? || (b.At? && a.user <= b.user)
  }

  predicate WiderHigh(a: Bound, b: Bound) {
    a.Unbounded? || (b.At? && b.user <= a.user)
  }

  predicate Covers(lo: Bound, hi: Bound, lo': Bound, hi': Bound) {
    WiderLow(lo, lo') && WiderHigh(hi, hi')
  }

  /** Those of the first `n` files of a level that meet `[lo, hi]`, in their order. */
  function OverlappingUpTo(fs: seq<File>, n: nat, lo: Bound, hi: Bound): seq<File>
    requires n <= |fs|
  {
    if n == 0 then []
    else
      var rest := OverlappingUpTo(fs, n - 1, lo, hi);
      if Overlaps(fs[n - 1], lo, hi) then rest + [fs[n - 1]] else rest
  }

  function Overlapping(fs: seq<File>, lo: Bound, hi: Bound): seq<File> {
    OverlappingUpTo(fs, |fs|, lo, hi)
  }

  lemma {:induction false} OverlappingUpToIs(fs: seq<File>, n: nat, lo: Bound, hi: Bound)
    requires n <= |fs|
    ensures forall f :: f in OverlappingUpTo(fs, n, lo, hi) <==> f in fs[..n] && Overlaps(f, lo, hi)
  {
    if n > 0 {
      OverlappingUpToIs(fs, n - 1, lo, hi);
      assert fs[..n] == fs[..n - 1] + [fs[n - 1]];
    }
  }

  lemma OverlappingIs(fs: seq<File>, lo: Bound, hi: Bound)
    ensures forall f :: f in Overlapping(fs, lo, hi) <==> f in fs && Overlaps(f, lo, hi)
  {
    OverlappingUpToIs(fs, |fs|, lo, hi);
    assert fs[..|fs|] == fs;
  }

  // ---------- SomeFileOverlapsRange ----------

  /** Does any file of the level meet `[lo, hi]`?  A sorted level needs one binary search. */
  method SomeFileOverlapsRange(disjointSorted: bool, fs: seq<File>, lo: Bound, hi: Bound) returns (r: bool)
    requires FilesOk(fs) && (disjointSorted ==> SortedLevel(fs))
    ensures r <==> exists f :: f in fs && Overlaps(f, lo, hi)
  {
    if !disjointSorted {
      for i := 0 to |fs|
        invariant forall j | 0 <= j < i :: !Overlaps(fs[j], lo, hi)
      {
        var f := fs[i];
        if (lo.At? && f.largest.user < lo.user) || (hi.At? && hi.user < f.smallest.user) {
          assert !Overlaps(f, lo, hi);
        } else {
          assert f in fs && Overlaps(f, lo, hi);
          return true;
        }
      }
      return false;
    }
    var index := 0;
    if lo.At? {
      index := FindFile(fs, InternalKey(lo.user, MAX_SEQUENCE, TypeValue));
      forall i | 0 <= i < |fs| ensures i < index <==> fs[i].largest.user < lo.user {
        assert fs[i].Ok();
      }
    }
    if index >= |fs| {
      return false;
    }
    r := !(hi.At? && hi.user < fs[index].smallest.user);
    assert r ==> fs[index] in fs && Overlaps(fs[index], lo, hi);
    forall i | index < i < |fs| && !r ensures !Overlaps(fs[i], lo, hi) {
      EndsInOrder(fs, index, i);
    }
  }

  // ---------- GetOverlappingInputs ----------

  /** How many ends of the first `n` files lie outside `[lo, hi]`: what a restart reduces. */
  ghost function EndsOutside(fs: seq<File>, n: nat, lo: Bound, hi: Bound): nat
    requires n <= |fs|
  {
    if n == 0 then 0
    else
      EndsOutside(fs, n - 1, lo, hi)
      + (if StartsBefore(lo, fs[n - 1].smallest.user) then 0 else 1)
      + (if EndsAfter(hi, fs[n - 1].largest.user) then 0 else 1)
  }

  lemma {:induction false} FewerOutside(fs: seq<File>, n: nat, i: nat, lo: Bound, hi: Bound, lo': Bound, hi': Bound)
    requires n <= |fs| && i < |fs| && Covers(lo', hi', lo, hi)
    requires (!StartsBefore(lo, fs[i].smallest.user) && StartsBefore(lo', fs[i].smallest.user))
          || (!EndsAfter(hi, fs[i].largest.user) && EndsAfter(hi', fs[i].largest.user))
    ensures EndsOutside(fs, n, lo', hi') + (if i < n then 1 else 0) <= EndsOutside(fs, n, lo, hi)
  {
    if n > 0 {
      FewerOutside(fs, n - 1, i, lo, hi, lo', hi');
    }
  }

  /** `[lo, hi]` lies within every range around `[begin, end]` that no file reaches across. */
  ghost predicate Least(fs: seq<File>, begin: Bound, end: Bound, lo: Bound, hi: Bound) {
    forall lo', hi' | Covers(lo', hi', begin, end) && Closed(fs, lo', hi') :: Covers(lo', hi', lo, hi)
  }

  lemma WidenLow(fs: seq<File>, f: File, begin: Bound, end: Bound, lo: Bound, hi: Bound)
    requires f in fs && Overlaps(f, lo, hi) && Least(fs, begin, end, lo, hi)
    ensures Least(fs, begin, end, At(f.smallest.user), hi)
  {
    forall lo', hi' | Covers(lo', hi', begin, end) && Closed(fs, lo', hi')
      ensures Covers(lo', hi', At(f.smallest.user), hi)
    {
      assert Covers(lo', hi', lo, hi);
      assert Overlaps(f, lo', hi');
      assert Inside(f, lo', hi');
    }
  }

  lemma WidenHigh(fs: seq<File>, f: File, begin: Bound, end: Bound, lo: Bound, hi: Bound)
    requires f in fs && Overlaps(f, lo, hi) && Least(fs, begin, end, lo, hi)
    ensures Least(fs, begin, end, lo, At(f.largest.user))
  {
    forall lo', hi' | Covers(lo', hi', begin, end) && Closed(fs, lo', hi')
      ensures Covers(lo', hi', lo, At(f.largest.user))
    {
      assert Covers(lo', hi', lo, hi);
      assert Overlaps(f, lo', hi');
      assert Inside(f, lo', hi');
    }
  }

  predicate AllInside(fs: seq<File>, lo: Bound, hi: Bound) {
    forall i | 0 <= i < |fs| :: Inside(fs[i], lo, hi)
  }

  /**
   `GetOverlappingInputs`.  On level 0 a file reaching outside the range widens it and restarts
   the scan; the result is every file meeting the least closed range around the given one.
  */
  method GetOverlappingInputs(level: nat, fs: seq<File>, begin: Bound, end: Bound)
    returns (inputs: seq<File>, ghost lo: Bound, ghost hi: Bound)
    ensures inputs == Overlapping(fs, lo, hi)
    ensures Covers(lo, hi, begin, end)
    ensures level > 0 ==> lo == begin && hi == end
    ensures level == 0 ==> Closed(fs, lo, hi) && Least(fs, begin, end, lo, hi)
    ensures (lo.At? <==> begin.At?) && (hi.At? <==> end.At?)
  {
    var userBegin, userEnd := begin, end;
    inputs := [];
    var i := 0;
    while i < |fs|
      invariant i <= |fs|
      invariant Covers(userBegin, userEnd, begin, end)
      invariant (userBegin.At? <==> begin.At?) && (userEnd.At? <==> end.At?)
      invariant level > 0 ==> userBegin == begin && userEnd == end
      invariant inputs == OverlappingUpTo(fs, i, userBegin, userEnd)
      invariant level == 0 ==> AllInside(inputs, userBegin, userEnd)
      invariant Least(fs, begin, end, userBegin, userEnd)
      decreases EndsOutside(fs, |fs|, userBegin, userEnd), |fs| - i
    {
      var f := fs[i];
      i := i + 1;
      if userBegin.At? && f.largest.user < userBegin.user {
        assert !Overlaps(f, userBegin, userEnd);
      } else if userEnd.At? && f.smallest.user > userEnd.user {
        assert !Overlaps(f, userBegin, userEnd);
      } else if level == 0 && userBegin.At? && f.smallest.user < userBegin.user {
        WidenLow(fs, f, begin, end, userBegin, userEnd);
        FewerOutside(fs, |fs|, i - 1, userBegin, userEnd, At(f.smallest.user), userEnd);
        userBegin := At(f.smallest.user);
        inputs := [];
        i := 0;
      } else if level == 0 && userEnd.At? && f.largest.user > userEnd.user {
        WidenHigh(fs, f, begin, end, userBegin, userEnd);
        FewerOutside(fs, |fs|, i - 1, userBegin, userEnd, userBegin, At(f.largest.user));
        userEnd := At(f.largest.user);
        inputs := [];
        i := 0;
      } else {
        inputs := inputs + [f];
      }
    }
    OverlappingIs(fs, userBegin, userEnd);
    lo, hi := userBegin, userEnd;
  }

  // ---------- GetRange, AddBoundaryInputs ----------

  ghost predicate IsRange(fs: seq<File>, smallest: InternalKey, largest: InternalKey) {
    && (exists f :: f in fs && f.smallest == smallest)
    && (exists f :: f in fs && f.largest == largest)
    && (forall i | 0 <= i < |fs| :: !Before(fs[i].smallest, smallest) && !Before(largest, fs[i].largest))
  }

  /** `GetRange`: the least range around all inputs. */
  method GetRange(inputs: seq<File>) returns (smallest: InternalKey, largest: InternalKey)
    requires inputs != []
    ensures IsRange(inputs, smallest, largest)
  {
    smallest, largest := inputs[0].smallest, inputs[0].largest;
    for i := 1 to |inputs|
      invariant exists f :: f in inputs && f.smallest == smallest
      invariant exists f :: f in inputs && f.largest == largest
      invariant forall j | 0 <= j < i :: !Before(inputs[j].smallest, smallest) && !Before(largest, inputs[j].largest)
    {
      CompareIsOrder(inputs[i].smallest, smallest);
      CompareIsOrder(inputs[i].largest, largest);
      if Compare(inputs[i].smallest, smallest) < 0 {
        smallest := inputs[i].smallest;
      }
      if Compare(inputs[i].largest, largest) > 0 {
        largest := inputs[i].largest;
      }
      assert inputs[i] in inputs;
    }
  }

  /** `f` starts right behind `k`, at the same user key. */
  predicate StartsBehind(f: File, k: InternalKey) {
    Before(k, f.smallest) && f.smallest.user == k.user
  }

  /** `FindSmallestBoundaryFile`. */
  method FindSmallestBoundaryFile(levelFiles: seq<File>, largestKey: InternalKey) returns (found: bool, b: File)
    ensures found ==> b in levelFiles && StartsBehind(b, largestKey)
    ensures found ==> forall f | f in levelFiles && StartsBehind(f, largestKey) :: !Before(f.smallest, b.smallest)
    ensures !found ==> forall f | f in levelFiles :: !StartsBehind(f, largestKey)
  {
    found, b := false, File(0, 0, largestKey, largestKey, []);
    for i := 0 to |levelFiles|
      invariant found ==> b in levelFiles && StartsBehind(b, largestKey)
      invariant forall j | 0 <= j < i && StartsBehind(levelFiles[j], largestKey) ::
                  found && !Before(levelFiles[j].smallest, b.smallest)
    {
      var f := levelFiles[i];
      CompareIsOrder(f.smallest, largestKey);
      CompareIsOrder(f.smallest, b.smallest);
      if Compare(f.smallest, largestKey) > 0 && f.smallest.user == largestKey.user {
        if !found || Compare(f.smallest, b.smallest) < 0 {
          found, b := true, f;
        }
      }
    }
  }

  ghost function Beyond(fs: seq<File>, k: InternalKey): set<File> {
    set f | f in fs && Before(k, f.smallest)
  }

  ghost function LargestOf(fs: seq<File>): InternalKey
    requires fs != []
  {
    if |fs| == 1 then fs[0].largest
    else
      var k := LargestOf(fs[..|fs| - 1]);
      if Before(k, fs[|fs| - 1].largest) then fs[|fs| - 1].largest else k
  }

  lemma {:induction false} LargestIsLast(fs: seq<File>)
    requires fs != []
    ensures forall f | f in fs :: !Before(LargestOf(fs), f.largest)
    ensures exists f :: f in fs && f.largest == LargestOf(fs)
  {
    var last := fs[|fs| - 1];
    if |fs| > 1 {
      LargestIsLast(fs[..|fs| - 1]);
      forall f | f in fs ensures !Before(LargestOf(fs), f.largest) {
        assert f == last || f in fs[..|fs| - 1];
      }
    }
    assert last in fs;
  }

  /** `FindLargestKey`. */
  method FindLargestKey(files: seq<File>) returns (found: bool, largest: InternalKey)
    ensures found <==> files != []
    ensures found ==> largest == LargestOf(files)
  {
    if files == [] {
      return false, InternalKey(0, 0, TypeValue);
    }
    largest := files[0].largest;
    for i := 1 to |files|
      invariant largest == LargestOf(files[..i])
    {
      assert files[..i + 1][..i] == files[..i];
      CompareIsOrder(files[i].largest, largest);
      if Compare(files[i].largest, largest) > 0 {
        largest := files[i].largest;
      }
    }
    assert files[..|files|] == files;
    found := true;
  }

  ghost predicate IsFirstBehind(levelFiles: seq<File>, k: InternalKey, b: File) {
    && b in levelFiles && StartsBehind(b, k)
    && forall f | f in levelFiles && StartsBehind(f, k) :: !Before(f.smallest, b.smallest)
  }

  /** `r` extends `inputs` by files each of which starts right behind everything chosen before it. */
  ghost predicate Chained(levelFiles: seq<File>, inputs: seq<File>, r: seq<File>)
    requires inputs != []
  {
    && inputs <= r
    && forall n | |inputs| <= n < |r| :: IsFirstBehind(levelFiles, LargestOf(r[..n]), r[n])
  }

  /**
   `AddBoundaryInputs`: while some file of the level starts right behind the largest chosen key
   at the same user key, take the first such file.  The search ends because that key grows.
  */
  method AddBoundaryInputs(levelFiles: seq<File>, inputs: seq<File>) returns (r: seq<File>)
    requires FilesOk(levelFiles)
    ensures inputs == [] ==> r == []
    ensures inputs != [] ==> Chained(levelFiles, inputs, r)
    ensures inputs != [] ==> forall f | f in levelFiles :: !StartsBehind(f, LargestOf(r))
  {
    r := inputs;
    var some, largestKey := FindLargestKey(inputs);
    if !some {
      return;
    }
    var searching := true;
    while searching
      invariant Chained(levelFiles, inputs, r) && largestKey == LargestOf(r)
      invariant !searching ==> forall f | f in levelFiles :: !StartsBehind(f, LargestOf(r))
      decreases |Beyond(levelFiles, largestKey)|, searching
    {
      var found, b := FindSmallestBoundaryFile(levelFiles, largestKey);
      if found {
        BoundaryAdvances(levelFiles, largestKey, b);
        ChainStep(levelFiles, inputs, r, b);
        r := r + [b];
        largestKey := b.largest;
      } else {
        searching := false;
      }
    }
  }

  lemma BoundaryAdvances(levelFiles: seq<File>, k: InternalKey, b: File)
    requires FilesOk(levelFiles) && b in levelFiles && StartsBehind(b, k)
    ensures Before(k, b.largest)
    ensures |Beyond(levelFiles, b.largest)| < |Beyond(levelFiles, k)|
  {
    var x, y := Beyond(levelFiles, b.largest), Beyond(levelFiles, k);
    assert b.Ok();
    InRange(b, b.entries[0]);
    assert x <= y && b in y - x;
    assert x + (y - x) == y;
  }

  lemma ChainStep(levelFiles: seq<File>, inputs: seq<File>, r: seq<File>, b: File)
    requires inputs != [] && Chained(levelFiles, inputs, r)
    requires IsFirstBehind(levelFiles, LargestOf(r), b) && Before(LargestOf(r), b.largest)
    ensures Chained(levelFiles, inputs, r + [b]) && LargestOf(r + [b]) == b.largest
  {
    var r' := r + [b];
    assert r'[..|r|] == r;
    forall n | |inputs| <= n < |r'| ensures IsFirstBehind(levelFiles, LargestOf(r'[..n]), r'[n]) {
      assert r'[..n] == r[..n];
      if n < |r| {
        assert r'[n] == r[n];
      } else {
        assert r[..n] == r;
      }
    }
  }

  // ---------- what the chosen files guarantee ----------

  lemma {:induction false} SliceLargest(fs: seq<File>, i: nat, j: nat)
    requires FilesOk(fs) && SortedLevel(fs) && i < j <= |fs|
    ensures LargestOf(fs[i..j]) == fs[j - 1].largest
  {
    if i + 1 < j {
      SliceLargest(fs, i, j - 1);
      assert fs[i..j][..j - i - 1] == fs[i..j - 1];
      EndsInOrder(fs, j - 2, j - 1);
    }
  }

  lemma ChainPrefix(fs: seq<File>, inputs: seq<File>, r: seq<File>)
    requires inputs != [] && Chained(fs, inputs, r) && |r| > |inputs|
    ensures Chained(fs, inputs, r[..|r| - 1])
    ensures IsFirstBehind(fs, LargestOf(r[..|r| - 1]), r[|r| - 1])
  {
    var r0 := r[..|r| - 1];
    forall n | |inputs| <= n < |r0| ensures IsFirstBehind(fs, LargestOf(r0[..n]), r0[n]) {
      assert r0[..n] == r[..n] && r0[n] == r[n];
    }
  }

  lemma SliceSnoc(fs: seq<File>, i: nat, k: nat, r0: seq<File>, r: seq<File>)
    requires i <= k < |fs| && r0 == fs[i..k] && |r| == |r0| + 1 && r[..|r| - 1] == r0 && r[|r| - 1] == fs[k]
    ensures r == fs[i..k + 1]
  {
  }

  /** On a sorted level the boundary files are the next files in line. */
  lemma {:induction false} ChainIsSlice(fs: seq<File>, inputs: seq<File>, r: seq<File>, i: nat, j: nat)
    requires FilesOk(fs) && SortedLevel(fs) && i < j <= |fs| && inputs == fs[i..j]
    requires Chained(fs, inputs, r)
    ensures j + |r| - |inputs| <= |fs| && r == fs[i..j + |r| - |inputs|]
    decreases |r|
  {
    if |r| > |inputs| {
      var r0, b := r[..|r| - 1], r[|r| - 1];
      ChainPrefix(fs, inputs, r);
      ChainIsSlice(fs, inputs, r0, i, j);
      var k := j + |r0| - |inputs|;
      SliceLargest(fs, i, k);
      NextInLine(fs, k, b);
      SliceSnoc(fs, i, k, r0, r);
    }
  }

  lemma NotBehindItself(fs: seq<File>, p: nat, q: nat)
    requires FilesOk(fs) && SortedLevel(fs) && p <= q < |fs|
    ensures !Before(fs[q].largest, fs[p].smallest)
  {
    InRange(fs[p], fs[p].entries[0]);
    if p < q {
      EndsInOrder(fs, p, q);
    }
  }

  lemma NextInLine(fs: seq<File>, k: nat, b: File)
    requires FilesOk(fs) && SortedLevel(fs) && 0 < k <= |fs|
    requires IsFirstBehind(fs, fs[k - 1].largest, b)
    ensures k < |fs| && b == fs[k]
  {
    var p :| 0 <= p < |fs| && fs[p] == b;
    if p < k {
      NotBehindItself(fs, p, k - 1);
      assert false;
    }
    if p > k {
      EndsInOrder(fs, k, p);
      assert Before(fs[k - 1].largest, fs[k].smallest);
      assert StartsBehind(fs[k], fs[k - 1].largest);
      assert false;
    }
  }

  /** Left-out files of the level hold only newer entries of any user key of a chosen file. */
  ghost predicate NothingOlderLeft(fs: seq<File>, chosen: seq<File>) {
    forall f, g | f in fs && f !in chosen && g in chosen :: NewerFile(f, g)
  }

  /** A slice of a sorted level with no boundary file behind it leaves nothing older. */
  lemma SliceLeavesNothingOlder(fs: seq<File>, i: nat, j: nat, chosen: seq<File>)
    requires i < j <= |fs| && chosen == fs[i..j]
    requires forall p, q | 0 <= p < |fs| && (p < i || j <= p) && i <= q < j :: NewerFile(fs[p], fs[q])
    ensures NothingOlderLeft(fs, chosen)
  {
    forall f, g | f in fs && f !in chosen && g in chosen ensures NewerFile(f, g) {
      var p :| 0 <= p < |fs| && fs[p] == f;
      var q :| 0 <= q < |chosen| && chosen[q] == g;
      InSlice(fs, i, j, p);
      assert NewerFile(fs[p], fs[i + q]);
    }
  }

  lemma InSlice(fs: seq<File>, i: nat, j: nat, p: nat)
    requires i <= j <= |fs| && p < |fs|
    ensures i <= p < j ==> fs[p] in fs[i..j]
  {
    if i <= p < j {
      assert fs[i..j][p - i] == fs[p];
    }
  }

  lemma LeftOutIsNewer(fs: seq<File>, i: nat, j: nat, p: nat, q: nat)
    requires FilesOk(fs) && SortedLevel(fs) && UniqueSequences(Content(fs)) && i < j <= |fs|
    requires i <= q < j && p < |fs| && (p < i || j <= p)
    requires j < |fs| ==> !StartsBehind(fs[j], fs[j - 1].largest)
    ensures NewerFile(fs[p], fs[q])
  {
    forall x, y | x in Elements(fs[p].entries) && y in Elements(fs[q].entries) ensures Supersedes(x, y) {
      assert x in Content(fs) && y in Content(fs) && (SameSequence(x, y) ==> x == y);
      if p < i {
        AcrossFiles(fs, p, q, x, y);
      } else {
        BoundaryWouldShow(fs, j, p, q, x, y);
      }
    }
  }

  /** If `y` lies in a chosen file and `x` behind the slice, equal user keys make a boundary. */
  lemma BoundaryWouldShow(fs: seq<File>, j: nat, p: nat, q: nat, x: Entry, y: Entry)
    requires FilesOk(fs) && SortedLevel(fs) && q < j <= p < |fs|
    requires x in fs[p].entries && y in fs[q].entries
    requires !StartsBehind(fs[j], fs[j - 1].largest)
    ensures x.key.user != y.key.user
  {
    InRange(fs[p], x);
    InRange(fs[q], y);
    if j < p {
      EndsInOrder(fs, j, p);
    }
    if q + 1 < j {
      EndsInOrder(fs, q, j - 1);
    }
  }

  /** Level-0 inputs closed under user-key overlap share no user key with the files left out. */
  lemma ClosedLeavesNothingOlder(fs: seq<File>, lo: Bound, hi: Bound)
    requires FilesOk(fs) && Closed(fs, lo, hi)
    ensures NothingOlderLeft(fs, Overlapping(fs, lo, hi))
  {
    var chosen := Overlapping(fs, lo, hi);
    OverlappingIs(fs, lo, hi);
    forall f, g | f in fs && f !in chosen && g in chosen ensures NewerFile(f, g) {
      assert Inside(g, lo, hi) && !Overlaps(f, lo, hi);
      forall x, y | x in Elements(f.entries) && y in Elements(g.entries) ensures Supersedes(x, y) {
        InRange(f, x);
        InRange(g, y);
      }
    }
  }

  // ---------- PickLevelForMemTableOutput ----------

  function TotalFileSize(fs: seq<File>): nat {
    if fs == [] then 0 else fs[0].size + TotalFileSize(fs[1..])
  }

  function MaxGrandParentOverlapBytes(maxFileSize: nat): nat {
    10 * maxFileSize
  }

  function ExpandedCompactionByteSizeLimit(maxFileSize: nat): nat {
    25 * maxFileSize
  }

  ghost predicate Meets(fs: seq<File>, lo: UserKey, hi: UserKey) {
    exists f :: f in fs && Overlaps(f, At(lo), At(hi))
  }

  /** A flushed table for `[lo, hi]` may be pushed from `level` to the next: nothing meets it, and few bytes behind. */
  ghost predicate Descends(v: Version, level: nat, lo: UserKey, hi: UserKey, maxFileSize: nat)
    requires |v| == NUM_LEVELS && level < 2
  {
    && !Meets(v[level], lo, hi) && !Meets(v[level + 1], lo, hi)
    && TotalFileSize(Overlapping(v[level + 2], At(lo), At(hi))) <= 10 * maxFileSize
  }

  /** Where a flushed table for `[lo, hi]` goes: as deep as level 2 while it may be pushed on. */
  ghost predicate FlushLevel(v: Version, lo: UserKey, hi: UserKey, maxFileSize: nat, level: nat)
    requires |v| == NUM_LEVELS
  {
    && level <= 2 && (forall l | 0 <= l < level :: Descends(v, l, lo, hi, maxFileSize))
    && (level < 2 ==> !Descends(v, level, lo, hi, maxFileSize))
  }

  /** Down to there nothing meets the table. */
  lemma FlushLevelClear(v: Version, lo: UserKey, hi: UserKey, maxFileSize: nat, level: nat, l: nat)
    requires |v| == NUM_LEVELS && FlushLevel(v, lo, hi, maxFileSize, level) && 0 < level && l <= level
    ensures !Meets(v[l], lo, hi)
  {
    assert Descends(v, if l == 0 then 0 else l - 1, lo, hi, maxFileSize);
  }

  /** `PickLevelForMemTableOutput`. */
  method PickLevelForMemTableOutput(v: Version, lo: UserKey, hi: UserKey, maxFileSize: nat) returns (level: nat)
    requires LevelsOk(v)
    ensures level <= MAX_MEM_COMPACT_LEVEL
    ensures level > 0 ==> forall l | 0 <= l <= level :: !Meets(v[l], lo, hi)
    ensures FlushLevel(v, lo, hi, maxFileSize, level)
  {
    level := 0;
    var overlap := SomeFileOverlapsRange(false, v[0], At(lo), At(hi));
    if !overlap {
      while level < MAX_MEM_COMPACT_LEVEL
        invariant level <= MAX_MEM_COMPACT_LEVEL
        invariant forall l | 0 <= l <= level :: !Meets(v[l], lo, hi)
        invariant forall l | 0 <= l < level :: Descends(v, l, lo, hi, maxFileSize)
      {
        overlap := SomeFileOverlapsRange(true, v[level + 1], At(lo), At(hi));
        if overlap {
          return;
        }
        if level + 2 < NUM_LEVELS {
          var overlaps, _, _ := GetOverlappingInputs(level + 2, v[level + 2], At(lo), At(hi));
          if TotalFileSize(overlaps) > MaxGrandParentOverlapBytes(maxFileSize) {
            return;
          }
        }
        level := level + 1;
      }
    }
  }

  // ---------- compaction inputs ----------

  /** What `PickCompaction` and `CompactRange` start from, before `SetupOtherInputs`. */
  ghost predicate StartOk(v: Version, level: nat, inputs: seq<File>)
    requires |v| == NUM_LEVELS && level + 1 < NUM_LEVELS
  {
    && inputs != []
    && (level == 0 ==> exists lo, hi :: Closed(v[0], lo, hi) && inputs == Overlapping(v[0], lo, hi))
    && (level > 0 ==> exists i, j :: 0 <= i < j <= |v[level]| && inputs == v[level][i..j])
  }

  /**
   The inputs of a compaction of `level`: files that leave nothing older behind on the level, and
   with them every file of the next level that meets their user-key range.
  */
  ghost predicate PickOk(v: Version, level: nat, inputs0: seq<File>, inputs1: seq<File>)
    requires |v| == NUM_LEVELS && level + 1 < NUM_LEVELS
  {
    && inputs0 != []
    && (forall f | f in inputs0 :: f in v[level])
    && NothingOlderLeft(v[level], inputs0)
    && exists smallest, largest :: IsRange(inputs0, smallest, largest)
         && inputs1 == Overlapping(v[level + 1], At(smallest.user), At(largest.user))
  }

  /** The files of the level after next that meet the range of all inputs. */
  ghost predicate GrandparentsOk(v: Version, level: nat, inputs0: seq<File>, inputs1: seq<File>, gps: seq<File>)
    requires |v| == NUM_LEVELS && level + 1 < NUM_LEVELS
  {
    if level + 2 < NUM_LEVELS then
      exists smallest, largest :: IsRange(inputs0 + inputs1, smallest, largest)
        && gps == Overlapping(v[level + 2], At(smallest.user), At(largest.user))
    else
      gps == []
  }

  /** What `start` leads to: all boundary files, and the files of the next level in the range of these. */
  ghost predicate Completion(v: Version, level: nat, start: seq<File>, inputs0: seq<File>, inputs1: seq<File>)
    requires |v| == NUM_LEVELS && level + 1 < NUM_LEVELS
  {
    && start != [] && Chained(v[level], start, inputs0)
    && (forall f | f in v[level] :: !StartsBehind(f, LargestOf(inputs0)))
    && NextOf(v, level, inputs0, inputs1)
  }

  ghost predicate NextOf(v: Version, level: nat, inputs0: seq<File>, inputs1: seq<File>)
    requires |v| == NUM_LEVELS && level + 1 < NUM_LEVELS
  {
    exists smallest, largest :: IsRange(inputs0, smallest, largest)
      && inputs1 == Overlapping(v[level + 1], At(smallest.user), At(largest.user))
  }

  /** The range asked for; on level 0 the least around it that no file reaches across. */
  ghost predicate Around(fs: seq<File>, level: nat, begin: Bound, end: Bound, lo: Bound, hi: Bound) {
    if level > 0 then lo == begin && hi == end
    else Covers(lo, hi, begin, end) && Closed(fs, lo, hi) && Least(fs, begin, end, lo, hi)
  }

  /** The files of a level that a range takes in. */
  ghost predicate TakenIn(fs: seq<File>, level: nat, begin: Bound, end: Bound, taken: seq<File>) {
    exists lo, hi :: Around(fs, level, begin, end, lo, hi) && taken == Overlapping(fs, lo, hi)
  }

  /** The files of the level that the range of all inputs takes in. */
  ghost predicate Wider(fs: seq<File>, level: nat, inputs: seq<File>, wider: seq<File>) {
    exists smallest, largest ::
      IsRange(inputs, smallest, largest) && TakenIn(fs, level, At(smallest.user), At(largest.user), wider)
  }

  /** The wider inputs are more, not too big, and take in no more of the next level. */
  predicate MayGrow(inputs0: seq<File>, inputs1: seq<File>, grown0: seq<File>, grown1: seq<File>, maxFileSize: nat) {
    && |grown0| > |inputs0| && |grown1| == |inputs1|
    && TotalFileSize(inputs1) + TotalFileSize(grown0) < 25 * maxFileSize
  }

  /** `inputs0` and `inputs1` are those of the wider range if they may be, else `c0` and `c1`. */
  ghost predicate GrownFrom(v: Version, level: nat, c0: seq<File>, c1: seq<File>, maxFileSize: nat,
                            inputs0: seq<File>, inputs1: seq<File>)
    requires |v| == NUM_LEVELS && level + 1 < NUM_LEVELS
  {
    exists wider, g0, g1 :: Wider(v[level], level, c0 + c1, wider) && Completion(v, level, wider, g0, g1)
      && inputs0 == (if MayGrow(c0, c1, g0, g1, maxFileSize) then g0 else c0)
      && inputs1 == if MayGrow(c0, c1, g0, g1, maxFileSize) then g1 else c1
  }

  /** What `SetupOtherInputs` makes of `start`. */
  ghost predicate InputsFrom(v: Version, level: nat, start: seq<File>, maxFileSize: nat, inputs0: seq<File>,
                             inputs1: seq<File>)
    requires |v| == NUM_LEVELS && level + 1 < NUM_LEVELS
  {
    exists c0, c1 :: Completion(v, level, start, c0, c1)
      && if c1 == [] then inputs0 == c0 && inputs1 == c1
         else GrownFrom(v, level, c0, c1, maxFileSize, inputs0, inputs1)
  }

  /**
   The files a manual compaction starts from: those the range takes in, on a deep level only the first of them
   up to the size limit.
  */
  ghost predicate RangeStart(v: Version, level: nat, begin: Bound, end: Bound, maxFileSize: nat, start: seq<File>)
    requires |v| == NUM_LEVELS && level + 1 < NUM_LEVELS
  {
    && start != []
    && if level == 0 then TakenIn(v[0], 0, begin, end, start)
       else
         var all := Overlapping(v[level], begin, end);
         && start <= all && (start == all || TotalFileSize(start) >= maxFileSize)
         && (|start| == 1 || TotalFileSize(start[..|start| - 1]) < maxFileSize)
  }

  /** The inputs of a manual compaction. */
  ghost predicate RangeInputs(v: Version, level: nat, begin: Bound, end: Bound, maxFileSize: nat, inputs0: seq<File>,
                              inputs1: seq<File>)
    requires |v| == NUM_LEVELS && level + 1 < NUM_LEVELS
  {
    exists start :: RangeStart(v, level, begin, end, maxFileSize, start)
      && InputsFrom(v, level, start, maxFileSize, inputs0, inputs1) && forall f | f in start :: f in inputs0
  }

  /** The files a compaction of one file starts from. */
  ghost predicate PickStart(v: Version, level: nat, picked: File, start: seq<File>)
    requires |v| == NUM_LEVELS && level + 1 < NUM_LEVELS
  {
    if level > 0 then start == [picked]
    else TakenIn(v[0], 0, At(picked.smallest.user), At(picked.largest.user), start)
  }

  /** The inputs of a compaction of one file. */
  ghost predicate PickedInputs(v: Version, level: nat, picked: File, maxFileSize: nat, inputs0: seq<File>,
                               inputs1: seq<File>)
    requires |v| == NUM_LEVELS && level + 1 < NUM_LEVELS
  {
    exists start :: PickStart(v, level, picked, start) && InputsFrom(v, level, start, maxFileSize, inputs0, inputs1)
  }

  ghost predicate UserSorted(fs: seq<File>) {
    && (forall i | 0 <= i < |fs| :: fs[i].smallest.user <= fs[i].largest.user)
    && (forall i, j | 0 <= i < j < |fs| :: fs[i].largest.user <= fs[j].smallest.user)
  }

  lemma SortedByUser(fs: seq<File>)
    requires FilesOk(fs) && SortedLevel(fs)
    ensures UserSorted(fs)
  {
    forall i | 0 <= i < |fs| ensures fs[i].smallest.user <= fs[i].largest.user {
      InRange(fs[i], fs[i].entries[0]);
    }
    forall i, j | 0 <= i < j < |fs| ensures fs[i].largest.user <= fs[j].smallest.user {
      assert Before(fs[i].largest, fs[j].smallest);
    }
  }

  lemma BetweenOverlaps(fs: seq<File>, i: nat, j: nat, k: nat, lo: Bound, hi: Bound)
    requires UserSorted(fs) && i <= j <= k < |fs| && Overlaps(fs[i], lo, hi) && Overlaps(fs[k], lo, hi)
    ensures Overlaps(fs[j], lo, hi)
  {
  }

  lemma SliceMore(fs: seq<File>, i: nat, n: nat)
    requires i < n <= |fs|
    ensures fs[i..n] == fs[i..n - 1] + [fs[n - 1]]
  {
  }

  /** Just the files from `i` to `j` of the first `n` meet the range. */
  ghost predicate MeetingAre(fs: seq<File>, n: nat, lo: Bound, hi: Bound, i: nat, j: nat)
    requires n <= |fs|
  {
    && i <= j <= n && OverlappingUpTo(fs, n, lo, hi) == fs[i..j]
    && forall k | 0 <= k < n :: Overlaps(fs[k], lo, hi) <==> i <= k < j
  }

  lemma LastIsNext(fs: seq<File>, n: nat, lo: Bound, hi: Bound, i: nat, j: nat)
    requires UserSorted(fs) && 0 < n <= |fs| && MeetingAre(fs, n - 1, lo, hi, i, j) && i < j
    requires Overlaps(fs[n - 1], lo, hi)
    ensures j == n - 1
  {
    BetweenOverlaps(fs, i, j, n - 1, lo, hi);
  }

  /** On a sorted level the files meeting a range are consecutive. */
  lemma {:induction false} OverlappingIsSlice(fs: seq<File>, n: nat, lo: Bound, hi: Bound) returns (i: nat, j: nat)
    requires UserSorted(fs) && n <= |fs|
    ensures MeetingAre(fs, n, lo, hi, i, j)
  {
    if n == 0 {
      return 0, 0;
    }
    i, j := OverlappingIsSlice(fs, n - 1, lo, hi);
    if Overlaps(fs[n - 1], lo, hi) {
      if i == j {
        SliceMore(fs, n - 1, n);
        return n - 1, n;
      }
      LastIsNext(fs, n, lo, hi, i, j);
      SliceMore(fs, i, n);
      return i, n;
    }
  }

  /** Level-0 inputs closed under overlap have no boundary file. */
  lemma ClosedHasNoBoundary(fs: seq<File>, lo: Bound, hi: Bound, r: seq<File>)
    requires FilesOk(fs) && Closed(fs, lo, hi) && Overlapping(fs, lo, hi) != []
    requires Chained(fs, Overlapping(fs, lo, hi), r)
    ensures r == Overlapping(fs, lo, hi)
  {
    var chosen := Overlapping(fs, lo, hi);
    OverlappingIs(fs, lo, hi);
    if |r| > |chosen| {
      LargestIsLast(chosen);
      var f := r[|chosen|];
      assert r[..|chosen|] == chosen;
      assert IsFirstBehind(fs, LargestOf(chosen), f);
      var g :| g in chosen && g.largest == LargestOf(chosen);
      InRange(g, g.entries[0]);
      InRange(f, f.entries[0]);
      assert false;
    }
  }

  /** `AddBoundaryInputs` turns a start set into one that leaves nothing older behind. */
  lemma BoundaryComplete(v: Version, level: nat, inputs: seq<File>, r: seq<File>)
    requires LevelsOk(v) && level + 1 < NUM_LEVELS && UniqueSequences(Content(v[level]))
    requires StartOk(v, level, inputs) && Chained(v[level], inputs, r)
    requires forall f | f in v[level] :: !StartsBehind(f, LargestOf(r))
    ensures forall f | f in r :: f in v[level]
    ensures NothingOlderLeft(v[level], r) && StartOk(v, level, r)
  {
    if level == 0 {
      var lo, hi :| Closed(v[0], lo, hi) && inputs == Overlapping(v[0], lo, hi);
      ClosedHasNoBoundary(v[0], lo, hi, r);
      OverlappingIs(v[0], lo, hi);
      ClosedLeavesNothingOlder(v[0], lo, hi);
    } else {
      var i, j :| 0 <= i < j <= |v[level]| && inputs == v[level][i..j];
      SliceBoundaryComplete(v[level], inputs, r, i, j);
      ChainIsSlice(v[level], inputs, r, i, j);
    }
  }

  lemma SliceBoundaryComplete(fs: seq<File>, inputs: seq<File>, r: seq<File>, i: nat, j: nat)
    requires FilesOk(fs) && SortedLevel(fs) && UniqueSequences(Content(fs))
    requires i < j <= |fs| && inputs == fs[i..j] && Chained(fs, inputs, r)
    requires forall f | f in fs :: !StartsBehind(f, LargestOf(r))
    ensures forall f | f in r :: f in fs
    ensures NothingOlderLeft(fs, r)
  {
    ChainIsSlice(fs, inputs, r, i, j);
    var j' := j + |r| - |inputs|;
    SliceLargest(fs, i, j');
    assert j' < |fs| ==> fs[j'] in fs && !StartsBehind(fs[j'], fs[j' - 1].largest);
    forall p, q | 0 <= p < |fs| && (p < i || j' <= p) && i <= q < j' ensures NewerFile(fs[p], fs[q]) {
      LeftOutIsNewer(fs, i, j', p, q);
    }
    SliceLeavesNothingOlder(fs, i, j', r);
  }

  /** Files meeting a wider range of their own level form a start set again. */
  lemma OverlapIsStart(v: Version, level: nat, lo: Bound, hi: Bound)
    requires LevelsOk(v) && level + 1 < NUM_LEVELS
    requires Overlapping(v[level], lo, hi) != []
    requires level == 0 ==> Closed(v[0], lo, hi)
    ensures StartOk(v, level, Overlapping(v[level], lo, hi))
  {
    if level > 0 {
      SortedByUser(v[level]);
      var i, j := OverlappingIsSlice(v[level], |v[level]|, lo, hi);
      assert Overlapping(v[level], lo, hi) == v[level][i..j];
    }
  }

  // ---------- inputs without gaps ----------

  ghost predicate Covered(fs: seq<File>, u: UserKey) {
    exists f :: f in fs && SpansUser(f, u)
  }

  /** Every user key between two of the files is in the range of some file. */
  ghost predicate Gapless(fs: seq<File>) {
    forall f, g, u {:trigger f in fs, g in fs, Covered(fs, u)} |
      f in fs && g in fs && f.smallest.user <= u <= g.largest.user :: Covered(fs, u)
  }

  ghost predicate Upright(fs: seq<File>) {
    forall f | f in fs :: f.smallest.user <= f.largest.user
  }

  /** The range of `g` meets that of some file. */
  ghost predicate Touches(fs: seq<File>, g: File) {
    exists f :: f in fs && f.smallest.user <= g.largest.user && g.smallest.user <= f.largest.user
  }

  lemma SameFiles(fs: seq<File>, gs: seq<File>)
    requires Gapless(fs) && forall f :: f in fs <==> f in gs
    ensures Gapless(gs)
  {
    forall f, g, u | f in gs && g in gs && f.smallest.user <= u <= g.largest.user ensures Covered(gs, u) {
      assert Covered(fs, u);
    }
  }

  lemma OneGapless(f: File)
    ensures Gapless([f])
  {
    forall u: UserKey | f.smallest.user <= u <= f.largest.user ensures Covered([f], u) {
      assert f in [f] && SpansUser(f, u);
    }
  }

  /** Files that touch what has no gap leave none. */
  lemma TouchingGapless(fs: seq<File>, gs: seq<File>)
    requires Gapless(fs) && Upright(fs) && Upright(gs) && forall g | g in gs :: Touches(fs, g)
    ensures Gapless(fs + gs)
  {
    var all := fs + gs;
    forall f, g, u | f in all && g in all && f.smallest.user <= u <= g.largest.user ensures Covered(all, u) {
      if f.largest.user < u < g.smallest.user {
        var x := Touched(fs, gs, f);
        var y := Touched(fs, gs, g);
        assert Covered(fs, u);
        var z :| z in fs && SpansUser(z, u);
        assert z in all;
      } else if u <= f.largest.user {
        assert SpansUser(f, u);
      } else {
        assert SpansUser(g, u);
      }
    }
  }

  lemma Touched(fs: seq<File>, gs: seq<File>, f: File) returns (x: File)
    requires Upright(fs) && f in fs + gs && forall g | g in gs :: Touches(fs, g)
    ensures x in fs && x.smallest.user <= f.largest.user && f.smallest.user <= x.largest.user
  {
    if f in fs {
      x := f;
    } else {
      x :| x in fs && x.smallest.user <= f.largest.user && f.smallest.user <= x.largest.user;
    }
  }

  /** A file that meets the range of what has no gap touches one of them. */
  lemma MeetsSome(fs: seq<File>, f: File, g: File, h: File)
    requires Gapless(fs) && f in fs && g in fs && h.smallest.user <= h.largest.user
    requires f.smallest.user <= g.largest.user
    requires f.smallest.user <= h.largest.user && h.smallest.user <= g.largest.user
    ensures Touches(fs, h)
  {
    var u := if f.smallest.user <= h.smallest.user then h.smallest.user else f.smallest.user;
    assert Covered(fs, u);
    var z :| z in fs && SpansUser(z, u);
  }

  /** All files of a level that meet the range between two of the files. */
  lemma MeetingGapless(fs: seq<File>, f: File, g: File, level: seq<File>)
    requires Gapless(fs) && Upright(fs) && Upright(level) && f in fs && g in fs
    requires f.smallest.user <= g.largest.user
    ensures Gapless(fs + Overlapping(level, At(f.smallest.user), At(g.largest.user)))
  {
    var gs := Overlapping(level, At(f.smallest.user), At(g.largest.user));
    OverlappingIs(level, At(f.smallest.user), At(g.largest.user));
    forall h | h in gs ensures Touches(fs, h) {
      MeetsSome(fs, f, g, h);
    }
    TouchingGapless(fs, gs);
  }

  /** The two files that make up the range. */
  lemma EndsOfRange(fs: seq<File>, smallest: InternalKey, largest: InternalKey) returns (f: File, g: File)
    requires IsRange(fs, smallest, largest) && Upright(fs)
    ensures f in fs && f.smallest == smallest && g in fs && g.largest == largest && smallest.user <= largest.user
  {
    f :| f in fs && f.smallest == smallest;
    g :| g in fs && g.largest == largest;
    InRangeOf(fs, smallest, largest, f);
  }

  lemma InRangeOf(fs: seq<File>, smallest: InternalKey, largest: InternalKey, f: File)
    requires IsRange(fs, smallest, largest) && f in fs
    ensures smallest.user <= f.smallest.user && f.largest.user <= largest.user
  {
    var i :| 0 <= i < |fs| && fs[i] == f;
  }

  lemma OkUpright(fs: seq<File>)
    requires forall f | f in fs :: f.Ok()
    ensures Upright(fs)
  {
    forall f | f in fs ensures f.smallest.user <= f.largest.user {
      InRange(f, f.entries[0]);
    }
  }

  /** Boundary files start where the files before end. */
  lemma {:induction false} ChainGapless(fs: seq<File>, inputs: seq<File>, r: seq<File>, more: seq<File>)
    requires inputs != [] && Chained(fs, inputs, r) && Gapless(inputs + more)
    requires Upright(fs) && Upright(inputs) && Upright(more)
    ensures Gapless(r + more) && Upright(r)
    decreases |r|
  {
    if |r| == |inputs| {
      assert r == inputs;
    } else {
      var r0 := r[..|r| - 1];
      ChainPrefix(fs, inputs, r);
      ChainGapless(fs, inputs, r0, more);
      OneMoreGapless(fs, r0, r[|r| - 1], r, more);
    }
  }

  lemma OneMoreGapless(fs: seq<File>, r0: seq<File>, b: File, r: seq<File>, more: seq<File>)
    requires r0 != [] && r == r0 + [b] && IsFirstBehind(fs, LargestOf(r0), b) && Gapless(r0 + more)
    requires Upright(fs) && Upright(r0) && Upright(more)
    ensures Gapless(r + more) && Upright(r)
  {
    LargestIsLast(r0);
    var f :| f in r0 && f.largest == LargestOf(r0);
    assert f in r0 + more && b in fs;
    assert Touches(r0 + more, b);
    TouchingGapless(r0 + more, [b]);
    assert forall g :: g in (r0 + more) + [b] <==> g in r + more;
    SameFiles((r0 + more) + [b], r + more);
  }

  /** On level 0, everything in the least closed range around what has no gap. */
  lemma ClosureGapless(fs: seq<File>, smallest: InternalKey, largest: InternalKey, level: seq<File>, lo: Bound,
                       hi: Bound)
    requires Gapless(fs) && Upright(fs) && Upright(level) && IsRange(fs, smallest, largest) && lo.At? && hi.At?
    requires Covers(lo, hi, At(smallest.user), At(largest.user)) && Closed(level, lo, hi)
    requires Least(level, At(smallest.user), At(largest.user), lo, hi)
    ensures Gapless(fs + Overlapping(level, lo, hi))
  {
    var gs := Overlapping(level, lo, hi);
    var all := fs + gs;
    OverlappingIs(level, lo, hi);
    forall f, g, u | f in all && g in all && f.smallest.user <= u <= g.largest.user ensures Covered(all, u) {
      WithinClosure(fs, smallest, largest, gs, lo, hi, f);
      WithinClosure(fs, smallest, largest, gs, lo, hi, g);
      if smallest.user <= u <= largest.user {
        RangeCovered(fs, smallest, largest, u);
        var z :| z in fs && SpansUser(z, u);
        assert z in all;
      } else {
        ClosureCovers(level, smallest, largest, lo, hi, gs, u);
        var z :| z in gs && SpansUser(z, u);
        assert z in all;
      }
    }
  }

  lemma WithinClosure(fs: seq<File>, smallest: InternalKey, largest: InternalKey, gs: seq<File>, lo: Bound,
                      hi: Bound, f: File)
    requires IsRange(fs, smallest, largest) && lo.At? && hi.At? && f in fs + gs
    requires Covers(lo, hi, At(smallest.user), At(largest.user)) && forall g | g in gs :: Inside(g, lo, hi)
    ensures lo.user <= f.smallest.user && f.largest.user <= hi.user
  {
    if f in fs {
      InRangeOf(fs, smallest, largest, f);
    }
  }

  lemma RangeCovered(fs: seq<File>, smallest: InternalKey, largest: InternalKey, u: UserKey)
    requires Gapless(fs) && IsRange(fs, smallest, largest) && smallest.user <= u <= largest.user
    ensures Covered(fs, u)
  {
    var f :| f in fs && f.smallest == smallest;
    var g :| g in fs && g.largest == largest;
  }

  /** Outside the given range some file covers a user key, or a smaller range would be closed. */
  lemma ClosureCovers(level: seq<File>, smallest: InternalKey, largest: InternalKey, lo: Bound, hi: Bound,
                      gs: seq<File>, u: UserKey)
    requires lo.At? && hi.At? && lo.user <= u <= hi.user && !(smallest.user <= u <= largest.user)
    requires smallest.user <= largest.user && Upright(level)
    requires Covers(lo, hi, At(smallest.user), At(largest.user)) && Closed(level, lo, hi)
    requires Least(level, At(smallest.user), At(largest.user), lo, hi)
    requires forall f | f in level && Overlaps(f, lo, hi) :: f in gs
    ensures Covered(gs, u)
  {
    if !Covered(gs, u) {
      var lo', hi' := if u > largest.user then lo else At(u + 1), if u > largest.user then At(u - 1) else hi;
      forall f | f in level && Overlaps(f, lo', hi') ensures Inside(f, lo', hi') {
        assert Overlaps(f, lo, hi) && f in gs && !SpansUser(f, u);
      }
      assert Closed(level, lo', hi') && Covers(lo', hi', At(smallest.user), At(largest.user));
      assert false;
    }
  }

  lemma MakesPick(v: Version, level: nat, inputs0: seq<File>, inputs1: seq<File>,
                  smallest: InternalKey, largest: InternalKey)
    requires |v| == NUM_LEVELS && level + 1 < NUM_LEVELS && inputs0 != []
    requires (forall f | f in inputs0 :: f in v[level]) && NothingOlderLeft(v[level], inputs0)
    requires IsRange(inputs0, smallest, largest)
    requires inputs1 == Overlapping(v[level + 1], At(smallest.user), At(largest.user))
    ensures PickOk(v, level, inputs0, inputs1)
  {
  }

  /** Boundary files and the files of the next level leave no gap either. */
  lemma CompletedGapless(v: Version, level: nat, start: seq<File>, more: seq<File>, inputs0: seq<File>,
                         inputs1: seq<File>)
    requires LevelsOk(v) && level + 1 < NUM_LEVELS && start != [] && Chained(v[level], start, inputs0)
    requires PickOk(v, level, inputs0, inputs1) && Gapless(start + more) && Upright(more)
    ensures Gapless((inputs0 + more) + inputs1)
  {
    var smallest, largest :| IsRange(inputs0, smallest, largest)
      && inputs1 == Overlapping(v[level + 1], At(smallest.user), At(largest.user));
    OkUpright(v[level]);
    OkUpright(v[level + 1]);
    assert Upright(start) by {
      assert forall f | f in start :: f in inputs0;
    }
    ChainGapless(v[level], start, inputs0, more);
    var f, g := EndsOfRange(inputs0, smallest, largest);
    MeetingGapless(inputs0 + more, f, g, v[level + 1]);
  }

  /** More files of the level never give fewer of the next. */
  lemma WiderPick(v: Version, level: nat, inputs0: seq<File>, inputs1: seq<File>, grown0: seq<File>,
                  grown1: seq<File>)
    requires LevelsOk(v) && level + 1 < NUM_LEVELS && PickOk(v, level, inputs0, inputs1)
    requires PickOk(v, level, grown0, grown1) && forall f | f in inputs0 :: f in grown0
    ensures forall f | f in inputs1 :: f in grown1
  {
    var fs := v[level + 1];
    var smallest, largest :| IsRange(inputs0, smallest, largest)
      && inputs1 == Overlapping(fs, At(smallest.user), At(largest.user));
    var smallest', largest' :| IsRange(grown0, smallest', largest')
      && grown1 == Overlapping(fs, At(smallest'.user), At(largest'.user));
    OverlappingIs(fs, At(smallest.user), At(largest.user));
    OverlappingIs(fs, At(smallest'.user), At(largest'.user));
    OkUpright(v[level]);
    var f, g := EndsOfRange(inputs0, smallest, largest);
    InRangeOf(grown0, smallest', largest', f);
    InRangeOf(grown0, smallest', largest', g);
  }

  /** Growing the inputs leaves no gap. */
  lemma GrownGapless(v: Version, level: nat, inputs0: seq<File>, inputs1: seq<File>, expanded0: seq<File>,
                     grown0: seq<File>, grown1: seq<File>)
    requires LevelsOk(v) && level + 1 < NUM_LEVELS && PickOk(v, level, inputs0, inputs1)
    requires expanded0 != [] && Chained(v[level], expanded0, grown0) && PickOk(v, level, grown0, grown1)
    requires Gapless(expanded0 + inputs1) && forall f | f in inputs0 :: f in expanded0
    ensures Gapless(grown0 + grown1)
  {
    assert Upright(inputs1) by {
      var smallest, largest :| IsRange(inputs0, smallest, largest)
        && inputs1 == Overlapping(v[level + 1], At(smallest.user), At(largest.user));
      OverlappingIs(v[level + 1], At(smallest.user), At(largest.user));
      OkUpright(v[level + 1]);
    }
    CompletedGapless(v, level, expanded0, inputs1, grown0, grown1);
    assert forall f | f in expanded0 :: f in grown0;
    WiderPick(v, level, inputs0, inputs1, grown0, grown1);
    SameFiles((grown0 + inputs1) + grown1, grown0 + grown1);
  }

  lemma CompletedKeeps(v: Version, level: nat, start: seq<File>, inputs0: seq<File>, inputs1: seq<File>)
    requires LevelsOk(v) && level + 1 < NUM_LEVELS && start != [] && Chained(v[level], start, inputs0)
    requires PickOk(v, level, inputs0, inputs1)
    ensures Gapless(start) ==> Gapless(inputs0 + inputs1)
  {
    if Gapless(start) {
      assert start + [] == start && inputs0 + [] == inputs0;
      CompletedGapless(v, level, start, [], inputs0, inputs1);
    }
  }

  /** The files of the next level in the range of the inputs. */
  method FilesOfNext(v: Version, level: nat, inputs0: seq<File>) returns (inputs1: seq<File>)
    requires LevelsOk(v) && level + 1 < NUM_LEVELS && inputs0 != []
    requires (forall f | f in inputs0 :: f in v[level]) && NothingOlderLeft(v[level], inputs0)
    ensures PickOk(v, level, inputs0, inputs1) && NextOf(v, level, inputs0, inputs1)
  {
    var smallest, largest := GetRange(inputs0);
    ghost var lo, hi;
    inputs1, lo, hi := GetOverlappingInputs(level + 1, v[level + 1], At(smallest.user), At(largest.user));
    MakesPick(v, level, inputs0, inputs1, smallest, largest);
  }

  /** The inputs `start` leads to: boundary files, then the files of the next level. */
  method CompleteInputs(v: Version, level: nat, start: seq<File>) returns (inputs0: seq<File>, inputs1: seq<File>)
    requires LevelsOk(v) && level + 1 < NUM_LEVELS && UniqueSequences(Content(v[level]))
    requires StartOk(v, level, start)
    ensures PickOk(v, level, inputs0, inputs1) && StartOk(v, level, inputs0)
    ensures start <= inputs0 && Completion(v, level, start, inputs0, inputs1)
    ensures Gapless(start) ==> Gapless(inputs0 + inputs1)
  {
    inputs0 := AddBoundaryInputs(v[level], start);
    BoundaryComplete(v, level, start, inputs0);
    inputs1 := FilesOfNext(v, level, inputs0);
    CompletedKeeps(v, level, start, inputs0, inputs1);
  }

  lemma NextMembers(v: Version, level: nat, inputs0: seq<File>, inputs1: seq<File>)
    requires |v| == NUM_LEVELS && level + 1 < NUM_LEVELS && PickOk(v, level, inputs0, inputs1)
    ensures forall f | f in inputs1 :: f in v[level + 1]
  {
    var smallest, largest :| IsRange(inputs0, smallest, largest)
      && inputs1 == Overlapping(v[level + 1], At(smallest.user), At(largest.user));
    OverlappingIs(v[level + 1], At(smallest.user), At(largest.user));
  }

  /** The files of `level` that meet the whole range of the compaction so far. */
  method WiderStart(v: Version, level: nat, start: seq<File>, inputs0: seq<File>, inputs1: seq<File>)
    returns (expanded0: seq<File>)
    requires LevelsOk(v) && level + 1 < NUM_LEVELS && start != [] && start <= inputs0
    requires forall f | f in inputs0 :: f in v[level]
    requires forall f | f in inputs1 :: f in v[level + 1]
    ensures StartOk(v, level, expanded0) && Wider(v[level], level, inputs0 + inputs1, expanded0)
    ensures forall f | f in inputs0 :: f in expanded0
    ensures Gapless(inputs0 + inputs1) ==> Gapless(expanded0 + inputs1)
  {
    var allStart, allLimit := GetRange(inputs0 + inputs1);
    ghost var lo, hi;
    expanded0, lo, hi := GetOverlappingInputs(level, v[level], At(allStart.user), At(allLimit.user));
    assert Around(v[level], level, At(allStart.user), At(allLimit.user), lo, hi);
    StartSurvives(v[level], start, inputs0, inputs1, allStart, allLimit, lo, hi);
    OverlapIsStart(v, level, lo, hi);
    if Gapless(inputs0 + inputs1) {
      WiderGapless(v, level, inputs0, inputs1, allStart, allLimit, lo, hi);
    }
  }

  /** The wider range leaves no gap: on level 0 it is closed, elsewhere its files meet that of the inputs. */
  lemma WiderGapless(v: Version, level: nat, inputs0: seq<File>, inputs1: seq<File>, allStart: InternalKey,
                     allLimit: InternalKey, lo: Bound, hi: Bound)
    requires LevelsOk(v) && level + 1 < NUM_LEVELS && Gapless(inputs0 + inputs1)
    requires (forall f | f in inputs0 :: f in v[level]) && (forall f | f in inputs1 :: f in v[level + 1])
    requires IsRange(inputs0 + inputs1, allStart, allLimit) && lo.At? && hi.At?
    requires Covers(lo, hi, At(allStart.user), At(allLimit.user))
    requires level > 0 ==> lo == At(allStart.user) && hi == At(allLimit.user)
    requires level == 0 ==>
      Closed(v[0], lo, hi) && Least(v[0], At(allStart.user), At(allLimit.user), lo, hi)
    requires forall f | f in inputs0 :: f in Overlapping(v[level], lo, hi)
    ensures Gapless(Overlapping(v[level], lo, hi) + inputs1)
  {
    var all, expanded0 := inputs0 + inputs1, Overlapping(v[level], lo, hi);
    OkUpright(v[level]);
    OkUpright(v[level + 1]);
    assert Upright(all);
    if level == 0 {
      ClosureGapless(all, allStart, allLimit, v[0], lo, hi);
    } else {
      var f, g := EndsOfRange(all, allStart, allLimit);
      MeetingGapless(all, f, g, v[level]);
    }
    SameFiles(all + expanded0, expanded0 + inputs1);
  }

  /** The inputs of the wider range. */
  method WiderInputs(v: Version, level: nat, start: seq<File>, inputs0: seq<File>, inputs1: seq<File>)
    returns (grown0: seq<File>, grown1: seq<File>, ghost wider: seq<File>)
    requires LevelsOk(v) && level + 1 < NUM_LEVELS && UniqueSequences(Content(v[level]))
    requires PickOk(v, level, inputs0, inputs1) && start != [] && start <= inputs0
    ensures Wider(v[level], level, inputs0 + inputs1, wider) && Completion(v, level, wider, grown0, grown1)
    ensures PickOk(v, level, grown0, grown1) && StartOk(v, level, grown0) && forall f | f in inputs0 :: f in grown0
    ensures Gapless(inputs0 + inputs1) ==> Gapless(grown0 + grown1)
  {
    NextMembers(v, level, inputs0, inputs1);
    var expanded0 := WiderStart(v, level, start, inputs0, inputs1);
    grown0, grown1 := CompleteInputs(v, level, expanded0);
    GrownKeeps(v, level, inputs0, inputs1, expanded0, grown0, grown1);
    PrefixMembers(expanded0, grown0);
    wider := expanded0;
  }

  lemma PrefixMembers(fs: seq<File>, gs: seq<File>)
    requires fs <= gs
    ensures forall f | f in fs :: f in gs
  {
  }

  /** The growth step: taken if it brings in no more files of the next level, within the size limit. */
  method GrowInputs(v: Version, level: nat, start: seq<File>, inputs0: seq<File>, inputs1: seq<File>,
                    maxFileSize: nat)
    returns (grown0: seq<File>, grown1: seq<File>)
    requires LevelsOk(v) && level + 1 < NUM_LEVELS && UniqueSequences(Content(v[level]))
    requires PickOk(v, level, inputs0, inputs1) && StartOk(v, level, inputs0) && start != [] && start <= inputs0
    ensures PickOk(v, level, grown0, grown1) && StartOk(v, level, grown0) && forall f | f in inputs0 :: f in grown0
    ensures GrownFrom(v, level, inputs0, inputs1, maxFileSize, grown0, grown1)
    ensures Gapless(inputs0 + inputs1) ==> Gapless(grown0 + grown1)
  {
    ghost var wider;
    grown0, grown1, wider := WiderInputs(v, level, start, inputs0, inputs1);
    MakesGrown(v, level, inputs0, inputs1, maxFileSize, wider, grown0, grown1);
    if |grown0| <= |inputs0|
       || TotalFileSize(inputs1) + TotalFileSize(grown0) >= ExpandedCompactionByteSizeLimit(maxFileSize)
       || |grown1| != |inputs1| {
      grown0, grown1 := inputs0, inputs1;
    }
  }

  lemma MakesGrown(v: Version, level: nat, c0: seq<File>, c1: seq<File>, maxFileSize: nat, wider: seq<File>,
                   g0: seq<File>, g1: seq<File>)
    requires |v| == NUM_LEVELS && level + 1 < NUM_LEVELS
    requires Wider(v[level], level, c0 + c1, wider) && Completion(v, level, wider, g0, g1)
    ensures if MayGrow(c0, c1, g0, g1, maxFileSize) then GrownFrom(v, level, c0, c1, maxFileSize, g0, g1)
            else GrownFrom(v, level, c0, c1, maxFileSize, c0, c1)
  {
  }

  lemma GrownKeeps(v: Version, level: nat, inputs0: seq<File>, inputs1: seq<File>, expanded0: seq<File>,
                   grown0: seq<File>, grown1: seq<File>)
    requires LevelsOk(v) && level + 1 < NUM_LEVELS && PickOk(v, level, inputs0, inputs1)
    requires expanded0 != [] && Chained(v[level], expanded0, grown0) && PickOk(v, level, grown0, grown1)
    requires forall f | f in inputs0 :: f in expanded0
    requires Gapless(inputs0 + inputs1) ==> Gapless(expanded0 + inputs1)
    ensures Gapless(inputs0 + inputs1) ==> Gapless(grown0 + grown1)
  {
    if Gapless(inputs0 + inputs1) {
      GrownGapless(v, level, inputs0, inputs1, expanded0, grown0, grown1);
    }
  }

  /** `SetupOtherInputs`: complete the inputs, and grow them if that takes in no file of the next level. */
  method SetupOtherInputs(v: Version, level: nat, start: seq<File>, maxFileSize: nat)
    returns (inputs0: seq<File>, inputs1: seq<File>, grandparents: seq<File>)
    requires LevelsOk(v) && level + 1 < NUM_LEVELS && UniqueSequences(Content(v[level]))
    requires StartOk(v, level, start)
    ensures PickOk(v, level, inputs0, inputs1) && GrandparentsOk(v, level, inputs0, inputs1, grandparents)
    ensures StartOk(v, level, inputs0) && forall f | f in start :: f in inputs0
    ensures InputsFrom(v, level, start, maxFileSize, inputs0, inputs1)
    ensures Gapless(start) ==> Gapless(inputs0 + inputs1)
  {
    inputs0, inputs1 := CompleteInputs(v, level, start);
    PrefixMembers(start, inputs0);
    if inputs1 != [] {
      inputs0, inputs1 := GrowInputs(v, level, start, inputs0, inputs1, maxFileSize);
    }
    grandparents := Grandparents(v, level, inputs0, inputs1);
  }

  /** The files two levels below in the range of all inputs. */
  method Grandparents(v: Version, level: nat, inputs0: seq<File>, inputs1: seq<File>) returns (grandparents: seq<File>)
    requires |v| == NUM_LEVELS && level + 1 < NUM_LEVELS && inputs0 != []
    ensures GrandparentsOk(v, level, inputs0, inputs1, grandparents)
  {
    grandparents := [];
    if level + 2 < NUM_LEVELS {
      var allStart, allLimit := GetRange(inputs0 + inputs1);
      ghost var lo, hi;
      grandparents, lo, hi := GetOverlappingInputs(level + 2, v[level + 2], At(allStart.user), At(allLimit.user));
    }
  }

  /** The wider range of the growth step still takes in every file it started from. */
  lemma StartSurvives(fs: seq<File>, start: seq<File>, inputs0: seq<File>, inputs1: seq<File>,
                      allStart: InternalKey, allLimit: InternalKey, lo: Bound, hi: Bound)
    requires FilesOk(fs) && start != [] && start <= inputs0 && (forall f | f in inputs0 :: f in fs)
    requires IsRange(inputs0 + inputs1, allStart, allLimit)
    requires Covers(lo, hi, At(allStart.user), At(allLimit.user))
    ensures Overlapping(fs, lo, hi) != []
    ensures forall f | f in inputs0 :: f in Overlapping(fs, lo, hi)
  {
    OverlappingIs(fs, lo, hi);
    forall f | f in inputs0 ensures f in Overlapping(fs, lo, hi) {
      var i :| 0 <= i < |inputs0| && inputs0[i] == f;
      assert (inputs0 + inputs1)[i] == f;
      assert f in fs;
      InRange(f, f.entries[0]);
    }
    assert start[0] in inputs0;
  }

  /** `PickCompaction` once a file is chosen by size or by seeks. */
  method PickCompaction(v: Version, level: nat, picked: File, maxFileSize: nat)
    returns (inputs0: seq<File>, inputs1: seq<File>, grandparents: seq<File>)
    requires LevelsOk(v) && level + 1 < NUM_LEVELS && UniqueSequences(Content(v[level]))
    requires picked in v[level]
    ensures PickOk(v, level, inputs0, inputs1) && GrandparentsOk(v, level, inputs0, inputs1, grandparents)
    ensures StartOk(v, level, inputs0) && picked in inputs0 && Gapless(inputs0 + inputs1)
    ensures PickedInputs(v, level, picked, maxFileSize, inputs0, inputs1)
  {
    var start := StartFrom(v, level, picked);
    inputs0, inputs1, grandparents := SetupOtherInputs(v, level, start, maxFileSize);
  }

  /** The file; on level 0 with all that its range takes in. */
  method StartFrom(v: Version, level: nat, picked: File) returns (start: seq<File>)
    requires LevelsOk(v) && level + 1 < NUM_LEVELS && picked in v[level]
    ensures StartOk(v, level, start) && PickStart(v, level, picked, start) && picked in start && Gapless(start)
  {
    start := [picked];
    OneGapless(picked);
    assert picked.Ok();
    InRange(picked, picked.entries[0]);
    if level == 0 {
      var smallest, largest := GetRange(start);
      ghost var lo, hi;
      start, lo, hi := GetOverlappingInputs(0, v[0], At(smallest.user), At(largest.user));
      OverlappingIs(v[0], lo, hi);
      assert picked in start;
      assert Around(v[0], 0, At(smallest.user), At(largest.user), lo, hi);
      StartGapless(v[0], picked, smallest, largest, lo, hi);
    } else {
      var i :| 0 <= i < |v[level]| && v[level][i] == picked;
      assert start == v[level][i..i + 1];
    }
  }

  /** What `PickCompaction` starts from on level 0. */
  lemma StartGapless(fs: seq<File>, f: File, smallest: InternalKey, largest: InternalKey, lo: Bound, hi: Bound)
    requires FilesOk(fs) && f in fs && IsRange([f], smallest, largest) && lo.At? && hi.At?
    requires Covers(lo, hi, At(smallest.user), At(largest.user)) && Closed(fs, lo, hi)
    requires Least(fs, At(smallest.user), At(largest.user), lo, hi) && f in Overlapping(fs, lo, hi)
    ensures Gapless(Overlapping(fs, lo, hi))
  {
    OneGapless(f);
    OkUpright(fs);
    ClosureGapless([f], smallest, largest, fs, lo, hi);
    SameFiles([f] + Overlapping(fs, lo, hi), Overlapping(fs, lo, hi));
  }

  /** `CompactRange`: the files meeting a range, on a deep level cut at the size limit. */
  method CompactRange(v: Version, level: nat, begin: Bound, end: Bound, maxFileSize: nat)
    returns (found: bool, inputs0: seq<File>, inputs1: seq<File>, grandparents: seq<File>)
    requires LevelsOk(v) && level + 1 < NUM_LEVELS && UniqueSequences(Content(v[level]))
    ensures !found <==> forall f | f in v[level] :: !Overlaps(f, begin, end)
    ensures found ==> PickOk(v, level, inputs0, inputs1) && GrandparentsOk(v, level, inputs0, inputs1, grandparents)
    ensures found ==> StartOk(v, level, inputs0) && RangeInputs(v, level, begin, end, maxFileSize, inputs0, inputs1)
  {
    inputs0, inputs1, grandparents := [], [], [];
    var start, lo, hi := GetOverlappingInputs(level, v[level], begin, end);
    OverlappingIs(v[level], lo, hi);
    if start == [] {
      return false, [], [], [];
    }
    assert start[0] in start;
    OverlapIsStart(v, level, lo, hi);
    if level > 0 {
      start := CutAtLimit(v, level, start, maxFileSize);
    } else {
      SomethingOverlapped(v[0], begin, end, lo, hi);
      assert Around(v[0], 0, begin, end, lo, hi);
    }
    assert RangeStart(v, level, begin, end, maxFileSize, start);
    inputs0, inputs1, grandparents := SetupOtherInputs(v, level, start, maxFileSize);
    found := true;
  }

  method CutAtLimit(v: Version, level: nat, start: seq<File>, limit: nat) returns (r: seq<File>)
    requires |v| == NUM_LEVELS && 0 < level && level + 1 < NUM_LEVELS && StartOk(v, level, start)
    ensures StartOk(v, level, r) && r <= start && (r == start || TotalFileSize(r) >= limit)
    ensures |r| == 1 || TotalFileSize(r[..|r| - 1]) < limit
  {
    var total := 0;
    ghost var a, b :| 0 <= a < b <= |v[level]| && start == v[level][a..b];
    for i := 0 to |start|
      invariant total == TotalFileSize(start[..i]) && (i > 0 ==> total < limit)
      invariant i > 1 ==> TotalFileSize(start[..i - 1]) < limit
    {
      TotalMore(start, i);
      total := total + start[i].size;
      if total >= limit {
        PrefixOfSlice(v[level], a, b, i + 1);
        PrefixParts(start, i);
        return start[..i + 1];
      }
    }
    assert start[..|start|] == start;
    r := start;
  }

  lemma PrefixParts(fs: seq<File>, i: nat)
    requires i < |fs|
    ensures |fs[..i + 1]| == i + 1 && fs[..i + 1] <= fs && fs[..i + 1][..i] == fs[..i]
  {
  }

  lemma {:induction false} TotalMore(fs: seq<File>, i: nat)
    requires i < |fs|
    ensures TotalFileSize(fs[..i + 1]) == TotalFileSize(fs[..i]) + fs[i].size
  {
    if i > 0 {
      assert fs[..i + 1][1..] == fs[1..][..i] && fs[..i][1..] == fs[1..][..i - 1];
      TotalMore(fs[1..], i - 1);
    }
  }

  lemma PrefixOfSlice(fs: seq<File>, a: nat, b: nat, n: nat)
    requires a <= b <= |fs| && n <= b - a
    ensures fs[a..b][..n] == fs[a..a + n]
  {
  }

  /** If closing a range picked up a file, some file met the range to begin with. */
  lemma SomethingOverlapped(fs: seq<File>, begin: Bound, end: Bound, lo: Bound, hi: Bound)
    requires FilesOk(fs) && Covers(lo, hi, begin, end) && Least(fs, begin, end, lo, hi)
    requires Overlapping(fs, lo, hi) != []
    ensures exists f :: f in fs && Overlaps(f, begin, end)
  {
    OverlappingIs(fs, lo, hi);
    if forall f | f in fs :: !Overlaps(f, begin, end) {
      assert Closed(fs, begin, end);
      assert Covers(begin, end, lo, hi);
      var f := Overlapping(fs, lo, hi)[0];
      assert f in Overlapping(fs, lo, hi);
      assert Overlaps(f, begin, end);
    }
  }
}
