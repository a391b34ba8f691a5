/**
 Reading a table (`table/table.cc`): `InternalGet` through index, filter and one block.
*/
module Tables {
  import opened Coding
  import opened Blocks
  import opened BlockIterators
  import opened Comparators
  import opened FilterBlocks
  import opened TableFormat
  import opened TableVersions
  import opened Sequences

  function PairsOf(blocks: seq<Layout>): (s: seq<seq<Pair>>)
    ensures |s| == |blocks| && forall i | 0 <= i < |blocks| :: s[i] == blocks[i].pairs
  {
    seq(|blocks|, i requires 0 <= i < |blocks| => blocks[i].pairs)
  }

  function KeysOf(pairs: seq<Pair>): (s: seq<Key>)
    ensures |s| == |pairs| && forall i | 0 <= i < |pairs| :: s[i] == pairs[i].key
  {
    seq(|pairs|, i requires 0 <= i < |pairs| => pairs[i].key)
  }

  /** Block `i` is in the file where its handle says. */
  function BlockEnd(h: Handle): (end: nat)
    ensures end >= h.offset
  {
    h.offset + h.size
  }

  ghost predicate Stored(file: seq<Byte>, handles: seq<Handle>, blocks: seq<Layout>, i: nat)
    requires i < |handles| && i < |blocks|
  {
    && BlockEnd(handles[i]) <= |file|
    && StoredAs(file, handles[i], blocks[i], file[handles[i].offset..BlockEnd(handles[i])])
  }

  ghost predicate StoredAs(file: seq<Byte>, h: Handle, l: Layout, contents: seq<Byte>) {
    Encodable(h) && BlockAt(file, h, contents) && Blocks.Framed(contents, l)
  }

  /** The index has a key and the handle for every block. */
  ghost predicate Indexes(index: seq<Pair>, handles: seq<Handle>, blocks: seq<Layout>) {
    Names(index, handles) && |index| <= |blocks| && Separated(PairsOf(blocks), KeysOf(index))
  }

  /** Entry `i` of the index names block `i`. */
  ghost predicate Names(index: seq<Pair>, handles: seq<Handle>) {
    && |index| <= |handles|
    && (forall i {:trigger NamesAt(index, handles, i)} | 0 <= i < |index| :: NamesAt(index, handles, i))
  }

  ghost predicate NamesAt(index: seq<Pair>, handles: seq<Handle>, i: nat)
    requires i < |index| <= |handles|
  {
    index[i].value == EncodeHandle(handles[i])
  }

  /** The keys of every block are among those of the filter for its offset. */
  ghost predicate Filtered(groups: seq<seq<Key>>, handles: seq<Handle>, blocks: seq<Layout>) {
    |handles| == |blocks| && forall i | 0 <= i < |blocks| :: KeysIn(groups, handles[i].offset / BASE, blocks[i].pairs)
  }

  ghost predicate KeysIn(groups: seq<seq<Key>>, g: nat, pairs: seq<Pair>) {
    forall p | p in pairs :: g < |groups| && p.key in groups[g]
  }

  lemma SepStep(blocks: seq<seq<Pair>>, seps: seq<Key>, j: nat)
    requires Separated(blocks, seps) && j + 1 < |seps|
    ensures InternalLess(seps[j], seps[j + 1])
  {
    assert Separates(blocks, seps, j) && Separates(blocks, seps, j + 1) && GoodBlock(blocks[j + 1]);
    AcrossBlock(seps[j], blocks[j + 1], seps[j + 1]);
  }

  lemma AcrossBlock(before: Key, pairs: seq<Pair>, after: Key)
    requires GoodBlock(pairs) && InternalLess(before, pairs[0].key) && !InternalLess(after, Last(pairs))
    ensures InternalLess(before, after)
  {
    if |pairs| > 1 {
      LessTransitive(before, pairs[0].key, Last(pairs));
    }
    LessThenAtMost(before, Last(pairs), after);
  }

  lemma {:induction false} SepsSorted(blocks: seq<seq<Pair>>, seps: seq<Key>, i: nat, j: nat)
    requires Separated(blocks, seps) && i < j < |seps|
    ensures InternalLess(seps[i], seps[j])
    decreases j
  {
    SepStep(blocks, seps, j - 1);
    if i < j - 1 {
      SepsSorted(blocks, seps, i, j - 1);
      LessTransitive(seps[i], seps[j - 1], seps[j]);
    }
  }

  class Table {
    const file: seq<Byte>
    const index: seq<Byte>
    const filter: FilterBlockReader?
    const verify: bool
    ghost const handles: seq<Handle>
    ghost const blocks: seq<Layout>
    ghost const indexLayout: Layout
    ghost const k: nat
    ghost const groups: seq<seq<Key>>
    ghost const offs: seq<nat>

    /** A table some builder finished, opened with its index and, if it has one, its filter block. */
    ghost predicate Ok() {
      && |handles| == |blocks| == |indexLayout.pairs|
      && Blocks.Framed(index, indexLayout)
      && (forall i | 0 <= i < |blocks| :: Stored(file, handles, blocks, i))
      && Indexes(indexLayout.pairs, handles, blocks)
      && (filter != null ==> filter.Reads(k, groups, offs) && Filtered(groups, handles, blocks))
    }

    constructor (file: seq<Byte>, index: seq<Byte>, filter: FilterBlockReader?, verify: bool,
                 ghost handles: seq<Handle>,
                 ghost blocks: seq<Layout>, ghost indexLayout: Layout, ghost k: nat, ghost groups: seq<seq<Key>>,
                 ghost offs: seq<nat>)
      ensures this.file == file && this.index == index && this.filter == filter && this.verify == verify
      ensures this.handles == handles && this.blocks == blocks && this.indexLayout == indexLayout
      ensures this.k == k && this.groups == groups && this.offs == offs
    {
      this.file, this.index, this.filter, this.verify := file, index, filter, verify;
      this.handles, this.blocks, this.indexLayout := handles, blocks, indexLayout;
      this.k, this.groups, this.offs := k, groups, offs;
    }

    /** All pairs of the table. */
    ghost function AllPairs(): seq<Pair> {
      Concat(PairsOf(blocks))
    }

    /**
     `InternalGet`: the entry a linear scan finds, or nothing if that has another user key.  For the key that a
     read at some sequence number seeks that is the newest version of its user key that the read may see.
    */
    method InternalGet(target: Key) returns (r: Optional<Pair>)
      requires Ok() && |target| >= TAG_SIZE
      ensures Delivers(r, ScanAll(PairsOf(blocks), target), target)
      ensures TagOf(target) % 256 == 1 && (forall p | p in AllPairs() :: Tagged(p.key)) ==>
        Newest(AllPairs(), UserOf(target), TagOf(target) / 256, r)
    {
      r := GetPair(target);
      if TagOf(target) % 256 == 1 && forall p | p in AllPairs() :: Tagged(p.key) {
        DeliversNewest(PairsOf(blocks), KeysOf(indexLayout.pairs), target, r);
      }
    }

    /** Index, filter and one block. */
    method GetPair(target: Key) returns (r: Optional<Pair>)
      requires Ok() && |target| >= TAG_SIZE
      ensures Delivers(r, ScanAll(PairsOf(blocks), target), target)
    {
      var value, i := SeekIndex(target);
      if value.None? {
        return None;
      }
      r := GetInBlock(value.value, target, i);
    }

    /** The handle that the index gives, which is that of the only block to look into. */
    method SeekIndex(target: Key) returns (value: Optional<seq<Byte>>, ghost i: nat)
      requires Ok() && |target| >= TAG_SIZE
      ensures i <= |blocks| && value == if i < |blocks| then Some(EncodeHandle(handles[i])) else None
      ensures Delivers(if i < |blocks| then Scan(blocks[i].pairs, target) else None, ScanAll(PairsOf(blocks), target),
        target)
    {
      IndexSorted();
      LessIsOrder();
      var pair;
      pair, i := SeekPair(InternalLess, index, indexLayout, target);
      OneBlockIsEnough(PairsOf(blocks), KeysOf(indexLayout.pairs), target, i);
      assert i < |blocks| ==> NamesAt(indexLayout.pairs, handles, i);
      value := if pair.Some? then Some(pair.value.value) else None;
    }

    /** Filter and block: what is in the block, or nothing where that has another user key. */
    method GetInBlock(value: seq<Byte>, target: Key, ghost i: nat) returns (r: Optional<Pair>)
      requires Ok() && |target| >= TAG_SIZE && i < |blocks| && value == EncodeHandle(handles[i])
      ensures Delivers(r, Scan(blocks[i].pairs, target), target)
    {
      assert Stored(file, handles, blocks, i) && GoodBlock(PairsOf(blocks)[i]);
      HandleRoundTrip(handles[i]);
      var handle := DecodeHandle(value);
      if filter != null {
        var may := filter.KeyMayMatch(handle.value.offset, target, k, groups, offs);
        if !may {
          NotRejected(target, i);
          return None;
        }
      }
      var contents := ReadBlock(file, handle.value, verify);
      r := SeekInBlock(contents.value, blocks[i], target);
    }

    lemma IndexSorted()
      requires Ok()
      ensures SortedBy(InternalLess, indexLayout.pairs)
    {
      var seps := KeysOf(indexLayout.pairs);
      forall i, j | 0 <= i < j < |indexLayout.pairs|
        ensures InternalLess(indexLayout.pairs[i].key, indexLayout.pairs[j].key)
      {
        SepsSorted(PairsOf(blocks), seps, i, j);
      }
    }

    /** A block whose filter rejects the key has no entry with its user key to deliver. */
    lemma NotRejected(target: Key, i: nat)
      requires Ok() && filter != null && |target| >= TAG_SIZE && i < |blocks|
      requires handles[i].offset / BASE < |groups|
      requires !MatchesAt(filter.hash, filter.data, offs, handles[i].offset / BASE, target)
      ensures Delivers(None, Scan(blocks[i].pairs, target), target)
    {
      var s := Scan(blocks[i].pairs, target);
      if s.Some? {
        ScanIn(blocks[i].pairs, target);
        assert KeysIn(groups, handles[i].offset / BASE, blocks[i].pairs);
        NeverRejects(filter.hash, k, groups, offs, filter.data, handles[i].offset / BASE, s.value.key);
      }
    }
  }

  lemma {:induction false} ScanIn(pairs: seq<Pair>, k: Key)
    requires Scan(pairs, k).Some?
    ensures Scan(pairs, k).value in pairs
  {
    if InternalLess(pairs[0].key, k) {
      ScanIn(pairs[1..], k);
    }
  }

  /** A new iterator over a block, and its `Seek`. */
  method SeekPair(less: Less, contents: seq<Byte>, ghost l: Layout, target: Key)
    returns (r: Optional<Pair>, ghost q: nat)
    requires InternalKeys.StrictTotalOrder(less) && Blocks.Framed(contents, l) && SortedBy(less, l.pairs)
    ensures IsFirstFrom(less, l.pairs, target, q)
    ensures r == if q < |l.pairs| then Some(l.pairs[q]) else None
  {
    var iter := new BlockIter(less, contents, l);
    q := iter.Seek(target);
    iter.Shows(q);
    r := None;
    if iter.Valid() {
      r := Some(Pair(iter.key, contents[iter.value.0..iter.value.0 + iter.value.1]));
    }
  }

  /** `BlockReader` and the seek in the block. */
  method SeekInBlock(contents: seq<Byte>, ghost l: Layout, target: Key) returns (r: Optional<Pair>)
    requires Blocks.Framed(contents, l) && SortedBy(InternalLess, l.pairs)
    ensures r == Scan(l.pairs, target)
  {
    ghost var q;
    LessIsOrder();
    r, q := SeekPair(InternalLess, contents, l, target);
    ScanFinds(l.pairs, target, q);
  }
}
