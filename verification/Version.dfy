/**
 Versions (`db/version_set.cc`, class Version): which files hold what on which level, and how a
 point lookup searches them.
*/
module Versions {
  import opened InternalKeys
  import opened FlatMap
  import opened Runs

  const NUM_LEVELS: nat := 7
  const MAX_MEM_COMPACT_LEVEL: nat := 2

  /** A table file: its metadata and the entries stored in it. */
  datatype File = File(number: nat, size: nat, smallest: InternalKey, largest: InternalKey, entries: seq<Entry>) {
    ghost predicate Ok() {
      && |entries| > 0 && Sorted(entries)
      && (forall i | 0 <= i < |entries| :: entries[i].key.sequence <= MAX_SEQUENCE)
      && smallest == entries[0].key
      && largest == entries[|entries| - 1].key
    }
  }

  /** The entries of a file lie between its two recorded keys. */
  lemma InRange(f: File, e: Entry)
    requires f.Ok() && e in f.entries
    ensures !Before(e.key, f.smallest) && !Before(f.largest, e.key)
    ensures f.smallest.user <= e.key.user <= f.largest.user
  {
    var i :| 0 <= i < |f.entries| && f.entries[i] == e;
  }

  ghost predicate FilesOk(fs: seq<File>) {
    forall i | 0 <= i < |fs| :: fs[i].Ok()
  }

  ghost predicate SortedLevel(fs: seq<File>) {
    forall i, j {:trigger Before(fs[i].largest, fs[j].smallest)} | 0 <= i < j < |fs| ::
      Before(fs[i].largest, fs[j].smallest)
  }

  ghost function Content(fs: seq<File>): set<Entry> {
    set f, e | f in fs && e in f.entries :: e
  }

  /** Level-0 files may overlap; the one with the larger number is the newer one. */
  ghost predicate ByAge(fs: seq<File>) {
    && (forall f, g | f in fs && g in fs && f.number == g.number :: f == g)
    && (forall f, g | f in fs && g in fs && f.number > g.number :: NewerFile(f, g))
  }

  ghost predicate NewerFile(f: File, g: File) {
    Newer(Elements(f.entries), Elements(g.entries))
  }

  type Version = seq<seq<File>>

  ghost function AllContent(v: Version): set<Entry> {
    set fs, e | fs in v && e in Content(fs) :: e
  }

  ghost predicate LevelsOk(v: Version) {
    && |v| == NUM_LEVELS
    && (forall l | 0 <= l < NUM_LEVELS :: FilesOk(v[l]))
    && (forall l | 1 <= l < NUM_LEVELS :: SortedLevel(v[l]))
  }

  /**
   The level invariant: from level 1 on files are sorted and disjoint, level 0 is ordered by age,
   and for each user key everything on a level is newer than everything on a deeper level.
  */
  ghost predicate VersionOk(v: Version) {
    && LevelsOk(v)
    && ByAge(v[0])
    && (forall l, m | 0 <= l < m < NUM_LEVELS :: Newer(Content(v[l]), Content(v[m])))
  }

  // ---------- searching one level ----------

  /** Where the binary search of `FindFile` ends, whatever the files are. */
  function BinarySearch(fs: seq<File>, key: InternalKey, left: nat, right: nat): (r: nat)
    requires left <= right <= |fs|
    ensures left <= r <= right
    decreases right - left
  {
    if left == right then right
    else
      var mid := (left + right) / 2;
      if Before(fs[mid].largest, key) then BinarySearch(fs, key, mid + 1, right)
      else BinarySearch(fs, key, left, mid)
  }

  /** What `Version::Get` makes of a level below level 0: the file the search ends at is the only one opened. */
  function SearchLevel(fs: seq<File>, u: UserKey, s: nat): Lookup {
    var index := BinarySearch(fs, SeekKey(u, s), 0, |fs|);
    if index == |fs| || u < fs[index].smallest.user then NotFound else RunGet(fs[index].entries, u, s)
  }

  /** On a sorted level it ends at the first file whose largest key is not before `key`. */
  lemma {:induction false} SearchSplits(fs: seq<File>, key: InternalKey, left: nat, right: nat)
    requires FilesOk(fs) && SortedLevel(fs) && left <= right <= |fs|
    requires forall i | 0 <= i < left :: Before(fs[i].largest, key)
    requires forall i | right <= i < |fs| :: !Before(fs[i].largest, key)
    ensures forall i | 0 <= i < BinarySearch(fs, key, left, right) :: Before(fs[i].largest, key)
    ensures forall i | BinarySearch(fs, key, left, right) <= i < |fs| :: !Before(fs[i].largest, key)
    decreases right - left
  {
    if left < right {
      var mid := (left + right) / 2;
      if Before(fs[mid].largest, key) {
        forall i | 0 <= i < mid ensures Before(fs[i].largest, key) {
          EndsInOrder(fs, i, mid);
        }
        SearchSplits(fs, key, mid + 1, right);
      } else {
        forall i | mid < i < |fs| ensures !Before(fs[i].largest, key) {
          EndsInOrder(fs, mid, i);
        }
        SearchSplits(fs, key, left, mid);
      }
    }
  }

  /** `FindFile`: binary search for the first file whose largest key is not before `key`. */
  method FindFile(fs: seq<File>, key: InternalKey) returns (r: nat)
    requires FilesOk(fs) && SortedLevel(fs)
    ensures r == BinarySearch(fs, key, 0, |fs|)
    ensures forall i | 0 <= i < r :: Before(fs[i].largest, key)
    ensures forall i | r <= i < |fs| :: !Before(fs[i].largest, key)
  {
    var left, right := 0, |fs|;
    while left < right
      invariant left <= right <= |fs|
      invariant BinarySearch(fs, key, left, right) == BinarySearch(fs, key, 0, |fs|)
    {
      var mid := (left + right) / 2;
      CompareIsOrder(fs[mid].largest, key);
      if Compare(fs[mid].largest, key) < 0 {
        left := mid + 1;
      } else {
        right := mid;
      }
    }
    r := right;
    SearchSplits(fs, key, 0, |fs|);
  }

  lemma EndsInOrder(fs: seq<File>, i: nat, j: nat)
    requires FilesOk(fs) && SortedLevel(fs) && i < j < |fs|
    ensures Before(fs[i].largest, fs[j].largest)
    ensures Before(fs[i].smallest, fs[j].smallest)
  {
    assert Before(fs[i].largest, fs[j].smallest);
    InRange(fs[i], fs[i].entries[0]);
    InRange(fs[j], fs[j].entries[0]);
  }

  /** Entries of an earlier file precede those of a later file. */
  lemma AcrossFiles(fs: seq<File>, i: nat, j: nat, x: Entry, y: Entry)
    requires FilesOk(fs) && SortedLevel(fs) && i < j < |fs|
    requires x in fs[i].entries && y in fs[j].entries
    ensures Before(x.key, y.key)
  {
    assert Before(fs[i].largest, fs[j].smallest);
    InRange(fs[i], x);
    InRange(fs[j], y);
  }

  /** `Version::Get` on one sorted level: only the file found by `FindFile` is opened. */
  method GetInSortedLevel(fs: seq<File>, u: UserKey, s: nat) returns (st: Lookup, ghost e: Entry)
    requires FilesOk(fs) && SortedLevel(fs)
    ensures st == SearchLevel(fs, u, s)
    ensures st.NotFound? ==> NoneVisible(Content(fs), u, s)
    ensures !st.NotFound? ==> IsNewest(Content(fs), u, s, e) && st == LookupOf(e)
  {
    var index := FindFile(fs, SeekKey(u, s));
    e := Entry(SeekKey(u, s), []);
    if index >= |fs| {
      st := NotFound;
    } else if u < fs[index].smallest.user {
      st := NotFound;
    } else {
      st := RunGet(fs[index].entries, u, s);
      e := RunGetFindsNewest(fs[index].entries, u, s);
    }
    LevelSearchComplete(fs, u, s, index, st, e);
  }

  /** Nothing outside the file found can be a newer visible entry, even if `u` spans two files. */
  lemma LevelSearchComplete(fs: seq<File>, u: UserKey, s: nat, index: nat, st: Lookup, e: Entry)
    requires FilesOk(fs) && SortedLevel(fs) && index <= |fs|
    requires forall i | 0 <= i < index :: Before(fs[i].largest, SeekKey(u, s))
    requires index < |fs| ==> !Before(fs[index].largest, SeekKey(u, s))
    requires index == |fs| || u < fs[index].smallest.user ==> st.NotFound?
    requires index < |fs| && fs[index].smallest.user <= u ==>
      && st == RunGet(fs[index].entries, u, s)
      && (st.NotFound? <==> NoneVisible(Elements(fs[index].entries), u, s))
      && (!st.NotFound? ==> IsNewest(Elements(fs[index].entries), u, s, e) && st == LookupOf(e))
    ensures st.NotFound? ==> NoneVisible(Content(fs), u, s)
    ensures !st.NotFound? ==> IsNewest(Content(fs), u, s, e) && st == LookupOf(e)
  {
    forall x | x in Content(fs) && VisibleAt(x, u, s)
      ensures !st.NotFound? && x.key.sequence <= e.key.sequence
    {
      var i :| 0 <= i < |fs| && x in fs[i].entries;
      InRange(fs[i], x);
      if i == index {
        assert x in Elements(fs[i].entries);
      } else {
        assert i > index;
        var last := fs[index].entries[|fs[index].entries| - 1];
        AcrossFiles(fs, index, i, last, x);
        assert last.key.user == u && VisibleAt(last, u, s) && last in Elements(fs[index].entries);
        InRange(fs[index], fs[index].entries[0]);
        assert e in fs[index].entries;
        AcrossFiles(fs, index, i, e, x);
      }
    }
    if !st.NotFound? {
      assert e in Elements(fs[index].entries);
      assert e in Content(fs);
    }
  }

  // ---------- level 0 ----------

  /** The order `std::sort` with `NewestFirst` produces. */
  predicate NewestFirst(fs: seq<File>) {
    forall i, j | 0 <= i < j < |fs| :: fs[i].number >= fs[j].number
  }

  function InsertByNumber(fs: seq<File>, f: File): (r: seq<File>)
    requires NewestFirst(fs)
    ensures NewestFirst(r) && |r| == |fs| + 1
    ensures forall g :: g in r <==> g in fs || g == f
  {
    if fs == [] || f.number >= fs[0].number then [f] + fs
    else
      var rest := InsertByNumber(fs[1..], f);
      assert forall i | 0 <= i < |rest| :: rest[i] in rest;
      assert forall g | g in fs[1..] :: g.number <= fs[0].number;
      [fs[0]] + rest
  }

  function SortByNumber(fs: seq<File>): (r: seq<File>)
    ensures NewestFirst(r) && |r| == |fs|
    ensures forall g :: g in r <==> g in fs
  {
    if fs == [] then []
    else
      InsertByNumber(SortByNumber(fs[1..]), fs[0])
  }

  predicate SpansUser(f: File, u: UserKey) {
    f.smallest.user <= u <= f.largest.user
  }

  /** The first loop of `Version::Get` on level 0: the files whose range spans `u`. */
  method FilesSpanning(fs: seq<File>, u: UserKey) returns (tmp: seq<File>)
    ensures forall f :: f in tmp <==> f in fs && SpansUser(f, u)
  {
    tmp := [];
    for i := 0 to |fs|
      invariant forall f :: f in tmp <==> f in fs[..i] && SpansUser(f, u)
    {
      if fs[i].smallest.user <= u && u <= fs[i].largest.user {
        tmp := tmp + [fs[i]];
      }
    }
    assert fs[..|fs|] == fs;
  }

  /** `Version::Get` on level 0: every file spanning `u`, newest first. */
  method GetInLevelZero(fs: seq<File>, u: UserKey, s: nat) returns (st: Lookup, ghost e: Entry)
    requires FilesOk(fs) && ByAge(fs)
    ensures st.NotFound? ==> NoneVisible(Content(fs), u, s)
    ensures !st.NotFound? ==> IsNewest(Content(fs), u, s, e) && st == LookupOf(e)
  {
    var tmp := FilesSpanning(fs, u);
    forall f | f in fs && f !in tmp ensures NoneVisible(Elements(f.entries), u, s) {
      OutsideRange(f, u, s);
    }
    tmp := SortByNumber(tmp);
    e := Entry(SeekKey(u, s), []);
    st := NotFound;
    for i := 0 to |tmp|
      invariant st.NotFound?
      invariant forall j | 0 <= j < i :: NoneVisible(Elements(tmp[j].entries), u, s)
    {
      assert tmp[i] in tmp && tmp[i] in fs;
      assert tmp[i].Ok();
      st := RunGet(tmp[i].entries, u, s);
      e := RunGetFindsNewest(tmp[i].entries, u, s);
      if !st.NotFound? {
        LevelZeroHit(fs, tmp, u, s, i, e);
        return;
      }
    }
    LevelZeroMiss(fs, tmp, u, s);
  }

  lemma LevelZeroMiss(fs: seq<File>, tmp: seq<File>, u: UserKey, s: nat)
    requires forall f | f in fs && f !in tmp :: NoneVisible(Elements(f.entries), u, s)
    requires forall j | 0 <= j < |tmp| :: NoneVisible(Elements(tmp[j].entries), u, s)
    ensures NoneVisible(Content(fs), u, s)
  {
    forall x | x in Content(fs) ensures !VisibleAt(x, u, s) {
      var f :| f in fs && x in f.entries;
      assert x in Elements(f.entries);
      if f in tmp {
        var j :| 0 <= j < |tmp| && tmp[j] == f;
      }
    }
  }

  lemma LevelZeroHit(fs: seq<File>, tmp: seq<File>, u: UserKey, s: nat, i: nat, e: Entry)
    requires ByAge(fs) && NewestFirst(tmp) && i < |tmp| && tmp[i] in fs
    requires forall f | f in fs && f !in tmp :: NoneVisible(Elements(f.entries), u, s)
    requires forall j | 0 <= j < i :: NoneVisible(Elements(tmp[j].entries), u, s)
    requires IsNewest(Elements(tmp[i].entries), u, s, e)
    ensures IsNewest(Content(fs), u, s, e)
  {
    forall x | x in Content(fs) && VisibleAt(x, u, s) ensures x.key.sequence <= e.key.sequence {
      var f :| f in fs && x in f.entries;
      assert x in Elements(f.entries);
      var j :| 0 <= j < |tmp| && tmp[j] == f;
      if tmp[i] != f {
        assert i < j;
        OlderFile(fs, tmp[i], f);
        assert Supersedes(e, x);
      }
    }
  }

  lemma OlderFile(fs: seq<File>, g: File, f: File)
    requires ByAge(fs) && f in fs && g in fs && f != g && f.number <= g.number
    ensures NewerFile(g, f)
  {
  }

  /** A file whose range does not span `u` has no entry for it. */
  lemma OutsideRange(f: File, u: UserKey, s: nat)
    requires f.Ok() && !SpansUser(f, u)
    ensures NoneVisible(Elements(f.entries), u, s)
  {
    forall x | x in Elements(f.entries) ensures !VisibleAt(x, u, s) {
      InRange(f, x);
    }
  }

  // ---------- the whole version ----------

  /** `Version::Get`: level by level, stopping at the first level that knows the key. */
  method Get(v: Version, u: UserKey, s: nat) returns (st: Lookup, ghost e: Entry)
    requires VersionOk(v)
    ensures st.NotFound? ==> NoneVisible(AllContent(v), u, s)
    ensures !st.NotFound? ==> IsNewest(AllContent(v), u, s, e) && st == LookupOf(e)
  {
    for level := 0 to NUM_LEVELS
      invariant forall l | 0 <= l < level :: NoneVisible(Content(v[l]), u, s)
    {
      if |v[level]| != 0 {
        if level == 0 {
          st, e := GetInLevelZero(v[0], u, s);
        } else {
          st, e := GetInSortedLevel(v[level], u, s);
        }
        if !st.NotFound? {
          LevelHit(v, u, s, level, e);
          return;
        }
      }
    }
    st := NotFound;
    e := Entry(SeekKey(u, s), []);
    forall x | x in AllContent(v) ensures !VisibleAt(x, u, s) {
      var l :| 0 <= l < |v| && x in Content(v[l]);
    }
  }

  lemma LevelHit(v: Version, u: UserKey, s: nat, level: nat, e: Entry)
    requires VersionOk(v) && level < NUM_LEVELS
    requires forall l | 0 <= l < level :: NoneVisible(Content(v[l]), u, s)
    requires IsNewest(Content(v[level]), u, s, e)
    ensures IsNewest(AllContent(v), u, s, e)
  {
    assert v[level] in v;
    forall x | x in AllContent(v) && VisibleAt(x, u, s) ensures x.key.sequence <= e.key.sequence {
      var l :| 0 <= l < |v| && x in Content(v[l]);
      if level < l {
        assert Newer(Content(v[level]), Content(v[l])) && Supersedes(e, x);
      }
    }
  }
}
