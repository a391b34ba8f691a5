/**
 What the binary search of a level needs: it leads to every entry stored on the level exactly if the files are
 sorted and disjoint (`db/version_set.cc`, FindFile and Version::Get).
*/
module LevelSearch {
  import opened InternalKeys
  import opened FlatMap
  import opened Runs
  import opened Versions

  function OwnKey(e: Entry): InternalKey {
    SeekKey(e.key.user, e.key.sequence)
  }

  /** Where the search for `e` under its own sequence number ends. */
  function FileFor(fs: seq<File>, e: Entry): (r: nat)
    ensures r <= |fs|
  {
    BinarySearch(fs, OwnKey(e), 0, |fs|)
  }

  /** The lookup of the key of `e` at the number of `e`, of which `e` is the newest, comes to `e`. */
  predicate Finds(fs: seq<File>, e: Entry) {
    var r := FileFor(fs, e);
    && r < |fs| && fs[r].smallest.user <= e.key.user
    && var es := fs[r].entries;
       var i := LowerBound(es, OwnKey(e));
       i < |es| && es[i] == e
  }

  /** No entry is in two files. */
  ghost predicate EachOnce(fs: seq<File>) {
    forall i, j, e | 0 <= i < j < |fs| && e in fs[i].entries :: e !in fs[j].entries
  }

  lemma FoundIsAnswered(fs: seq<File>, e: Entry)
    requires Finds(fs, e)
    ensures SearchLevel(fs, e.key.user, e.key.sequence) == LookupOf(e)
  {
  }

  /** A search for a later key never ends at an earlier file, in whatever order the files are. */
  lemma {:induction false} SearchRises(fs: seq<File>, a: InternalKey, b: InternalKey, left: nat, right: nat)
    requires left <= right <= |fs| && !Before(b, a)
    ensures BinarySearch(fs, a, left, right) <= BinarySearch(fs, b, left, right)
    decreases right - left
  {
    if left < right {
      var mid := (left + right) / 2;
      SearchRises(fs, a, b, mid + 1, right);
      SearchRises(fs, a, b, left, mid);
    }
  }

  /** Only `e` itself lies between the key searched for and that of `e`. */
  lemma NoneBetween(es: set<Entry>, e: Entry, x: Entry)
    requires UniqueSequences(es) && e in es && x in es && !Before(x.key, OwnKey(e)) && !Before(e.key, x.key)
    ensures x == e
  {
    assert SameSequence(x, e);
  }

  /** In the right file the seek stops at the entry. */
  lemma SeekStops(all: set<Entry>, f: File, e: Entry)
    requires f.Ok() && UniqueSequences(all) && e in f.entries && forall x | x in f.entries :: x in all
    ensures var i := LowerBound(f.entries, OwnKey(e)); i < |f.entries| && f.entries[i] == e
    ensures f.smallest.user <= e.key.user
  {
    var es, i := f.entries, LowerBound(f.entries, OwnKey(e));
    var j :| 0 <= j < |es| && es[j] == e;
    InRange(f, e);
    assert i <= j;
    if i < j {
      assert Before(es[i].key, es[j].key) && es[i] in es;
      NoneBetween(all, e, es[i]);
    }
  }

  /** Finding an entry is ending at a file that has it. */
  lemma FindsIff(fs: seq<File>, e: Entry)
    requires FilesOk(fs) && UniqueSequences(Content(fs))
    ensures Finds(fs, e) <==> FileFor(fs, e) < |fs| && e in fs[FileFor(fs, e)].entries
  {
    var r := FileFor(fs, e);
    if r < |fs| && e in fs[r].entries {
      assert fs[r].Ok() && fs[r] in fs;
      SeekStops(Content(fs), fs[r], e);
    }
  }

  /** If every entry is found, a file ends before each later one begins. */
  lemma FoundInOrder(fs: seq<File>, i: nat, j: nat)
    requires FilesOk(fs) && UniqueSequences(Content(fs)) && EachOnce(fs) && i < j < |fs|
    requires forall e | e in Content(fs) :: Finds(fs, e)
    ensures Before(fs[i].largest, fs[j].smallest)
  {
    assert fs[i].Ok() && fs[j].Ok() && fs[i] in fs && fs[j] in fs;
    var x, y := fs[i].entries[|fs[i].entries| - 1], fs[j].entries[0];
    assert x in fs[i].entries && y in fs[j].entries;
    EndsAt(fs, i, x);
    EndsAt(fs, j, y);
    if !Before(x.key, y.key) {
      SearchRises(fs, OwnKey(y), OwnKey(x), 0, |fs|);
    }
  }

  lemma EndsAt(fs: seq<File>, i: nat, e: Entry)
    requires FilesOk(fs) && EachOnce(fs) && i < |fs| && e in fs[i].entries && Finds(fs, e)
    ensures FileFor(fs, e) == i
  {
    var r := FileFor(fs, e);
    assert e in fs[r].entries;
  }

  /** On a sorted level the search ends at the file that has the entry. */
  lemma SortedFinds(fs: seq<File>, e: Entry)
    requires FilesOk(fs) && SortedLevel(fs) && UniqueSequences(Content(fs)) && e in Content(fs)
    ensures Finds(fs, e)
  {
    var f :| f in fs && e in f.entries;
    var i :| 0 <= i < |fs| && fs[i] == f;
    var k, r := OwnKey(e), FileFor(fs, e);
    SearchSplits(fs, k, 0, |fs|);
    InRange(f, e);
    assert r <= i;
    if r < i {
      var last := fs[r].entries[|fs[r].entries| - 1];
      assert fs[r] in fs && last in fs[r].entries;
      AcrossFiles(fs, r, i, last, e);
      NoneBetween(Content(fs), e, last);
    }
    FindsIff(fs, e);
  }

  /** The search leads to every entry of the level if and only if the files are sorted and disjoint; it answers then. */
  lemma FindsAllIff(fs: seq<File>)
    requires FilesOk(fs) && UniqueSequences(Content(fs)) && EachOnce(fs)
    ensures SortedLevel(fs) <==> forall e | e in Content(fs) :: Finds(fs, e)
    ensures SortedLevel(fs) ==>
      forall e | e in Content(fs) :: SearchLevel(fs, e.key.user, e.key.sequence) == LookupOf(e)
  {
    if SortedLevel(fs) {
      forall e | e in Content(fs) ensures Finds(fs, e) && SearchLevel(fs, e.key.user, e.key.sequence) == LookupOf(e) {
        SortedFinds(fs, e);
        FoundIsAnswered(fs, e);
      }
    }
    if forall e | e in Content(fs) :: Finds(fs, e) {
      forall i, j | 0 <= i < j < |fs| ensures Before(fs[i].largest, fs[j].smallest) {
        FoundInOrder(fs, i, j);
      }
    }
  }
}
