/**
 Building a table (`table/table_builder.cc`): pairs in key order are cut into blocks, each with an index
 key that is chosen when the key after it is known.
*/
module TableBuilders {
  import opened Coding
  import opened Blocks
  import opened BlockIterators
  import opened Comparators
  import opened FilterBlocks
  import opened TableFormat
  import opened Tables
  import opened Sequences

  // ---------- index keys so far ----------

  /** The key after block `i`: `next` after the last one, if it is known. */
  function Following(blocks: seq<seq<Pair>>, next: Optional<Key>, i: nat): Optional<Key>
    requires i < |blocks|
  {
    if i + 1 == |blocks| then next else if blocks[i + 1] == [] then None else Some(blocks[i + 1][0].key)
  }

  ghost predicate SepOk(blocks: seq<seq<Pair>>, next: Optional<Key>, seps: seq<Key>, i: nat)
    requires i < |seps| <= |blocks| && AllGood(blocks)
  {
    && |seps[i]| >= TAG_SIZE && GoodBlock(blocks[i]) && !InternalLess(seps[i], Last(blocks[i]))
    && var f := Following(blocks, next, i);
       (f.Some? ==> InternalLess(seps[i], f.value) && Apart(Last(blocks[i]), seps[i], f.value))
  }

  ghost predicate SepsOk(blocks: seq<seq<Pair>>, next: Optional<Key>, seps: seq<Key>) {
    && |seps| <= |blocks| && AllGood(blocks)
    && (forall i {:trigger SepOk(blocks, next, seps, i)} | 0 <= i < |seps| :: SepOk(blocks, next, seps, i))
  }

  lemma SepsAreSeparated(blocks: seq<seq<Pair>>, seps: seq<Key>)
    requires SepsOk(blocks, None, seps)
    ensures Separated(blocks, seps)
  {
    forall i | 0 <= i < |seps| ensures Separates(blocks, seps, i) {
      assert SepOk(blocks, None, seps, i);
      assert i + 1 < |blocks| ==> GoodBlock(blocks[i + 1]);
    }
  }

  /** The index key of the last block, put in front of the next key. */
  lemma SepAdded(blocks: seq<seq<Pair>>, seps: seq<Key>, sep: Key, next: Optional<Key>)
    requires SepsOk(blocks, None, seps) && |seps| + 1 == |blocks| && GoodBlock(blocks[|seps|])
    requires |sep| >= TAG_SIZE && !InternalLess(sep, Last(blocks[|seps|]))
    requires next.Some? ==> InternalLess(sep, next.value) && Apart(Last(blocks[|seps|]), sep, next.value)
    ensures SepsOk(blocks, next, seps + [sep])
  {
    forall i | 0 <= i < |seps| + 1 ensures SepOk(blocks, next, seps + [sep], i) {
      assert i < |seps| ==> SepOk(blocks, None, seps, i);
    }
  }

  /** A finished block has the key that was expected after the one before. */
  lemma BlockAdded(blocks: seq<seq<Pair>>, data: seq<Pair>, seps: seq<Key>)
    requires GoodBlock(data) && SepsOk(blocks, Some(data[0].key), seps)
    ensures SepsOk(blocks + [data], None, seps)
  {
    var next := Some(data[0].key);
    forall i | 0 <= i < |blocks| + 1 ensures GoodBlock((blocks + [data])[i]) {
    }
    forall i | 0 <= i < |seps| ensures SepOk(blocks + [data], None, seps, i) {
      assert SepOk(blocks, next, seps, i);
    }
  }

  // ---------- the state of a builder ----------

  function NextOf(data: seq<Pair>): Optional<Key> {
    if data == [] then None else Some(data[0].key)
  }

  /** What was written and what is still to be: `next` is the key after the last block, if it is known. */
  ghost predicate Progress(data: seq<Pair>, index: seq<Pair>, handles: seq<Handle>, blocks: seq<Layout>, lastKey: Key,
                           pending: bool, pendingHandle: Handle, next: Optional<Key>) {
    && |handles| == |blocks| && |index| + (if pending then 1 else 0) == |blocks|
    && (data != [] ==> GoodBlock(data) && lastKey == Last(data) && next == Some(data[0].key) && !pending)
    && SepsOk(PairsOf(blocks), next, KeysOf(index))
    && Names(index, handles)
    && (pending ==> next == None && blocks[|blocks| - 1].pairs != [] && lastKey == Last(blocks[|blocks| - 1].pairs)
                    && pendingHandle == handles[|handles| - 1])
    && (!pending && next == None ==> blocks == [])
  }

  /** The index entry of the pending block is made when the next key, if any, is known. */
  lemma EntryMade(index: seq<Pair>, handles: seq<Handle>, blocks: seq<Layout>, lastKey: Key, h: Handle, sep: Key,
                  next: Optional<Key>, index': seq<Pair>)
    requires Progress([], index, handles, blocks, lastKey, true, h, None)
    requires index' == index + [Pair(sep, EncodeHandle(h))]
    requires |sep| >= TAG_SIZE && !InternalLess(sep, lastKey)
    requires next.Some? ==> InternalLess(sep, next.value) && Apart(lastKey, sep, next.value)
    ensures SepsOk(PairsOf(blocks), next, KeysOf(index'))
    ensures next.Some? ==> Progress([], index', handles, blocks, lastKey, false, h, next)
    ensures Names(index', handles)
  {
    forall i | 0 <= i < |index'| ensures NamesAt(index', handles, i) {
      assert i < |index| ==> NamesAt(index, handles, i);
    }
    assert KeysOf(index') == KeysOf(index) + [sep];
    assert GoodBlock(PairsOf(blocks)[|index|]);
    SepAdded(PairsOf(blocks), KeysOf(index), sep, next);
  }

  lemma GoodMore(data: seq<Pair>, p: Pair)
    requires |p.key| >= TAG_SIZE && (data != [] ==> GoodBlock(data) && InternalLess(Last(data), p.key))
    ensures GoodBlock(data + [p])
  {
    forall i, j | 0 <= i < j < |data| + 1 ensures InternalLess((data + [p])[i].key, (data + [p])[j].key) {
      if j == |data| && i < |data| - 1 {
        LessTransitive(data[i].key, Last(data), p.key);
      }
    }
  }

  /** A pair is added to the current block. */
  lemma PairAdded(data: seq<Pair>, index: seq<Pair>, handles: seq<Handle>, blocks: seq<Layout>, lastKey: Key, h: Handle,
                  p: Pair, data': seq<Pair>)
    requires Progress(data, index, handles, blocks, lastKey, false, h,
                      if data == [] && blocks != [] then Some(p.key) else NextOf(data))
    requires data' == data + [p] && |p.key| >= TAG_SIZE && (data != [] ==> InternalLess(lastKey, p.key))
    ensures Progress(data', index, handles, blocks, p.key, false, h, NextOf(data'))
  {
    GoodMore(data, p);
    if blocks == [] {
      assert PairsOf(blocks) == [] && KeysOf(index) == [];
    }
  }

  /** The current block is written. */
  lemma BlockWritten(data: seq<Pair>, index: seq<Pair>, handles: seq<Handle>, blocks: seq<Layout>, lastKey: Key,
                     h: Handle, h': Handle, l: Layout)
    requires Progress(data, index, handles, blocks, lastKey, false, h, NextOf(data)) && data != [] && l.pairs == data
    ensures Progress([], index, handles + [h'], blocks + [l], lastKey, true, h', None)
  {
    forall i | 0 <= i < |index| ensures NamesAt(index, handles + [h'], i) {
      assert NamesAt(index, handles, i);
    }
    assert PairsOf(blocks + [l]) == PairsOf(blocks) + [data];
    BlockAdded(PairsOf(blocks), data, KeysOf(index));
  }

  ghost predicate AllStored(file: seq<Byte>, handles: seq<Handle>, blocks: seq<Layout>) {
    |handles| == |blocks| && forall i | 0 <= i < |blocks| :: Stored(file, handles, blocks, i)
  }

  lemma StoredMore(file: seq<Byte>, handles: seq<Handle>, blocks: seq<Layout>, contents: seq<Byte>, l: Layout,
                   file': seq<Byte>, h: Handle)
    requires AllStored(file, handles, blocks) && Blocks.Framed(contents, l) && h == Handle(|file|, |contents|)
    requires Encodable(h) && file' == file + contents + Trailer(contents)
    ensures AllStored(file', handles + [h], blocks + [l])
  {
    StoredIn(file, file', handles, blocks);
    StoredLast(file, handles, blocks, contents, l, file', h);
    forall i | 0 <= i < |blocks| ensures Stored(file', handles + [h], blocks + [l], i) {
      assert Stored(file', handles, blocks, i);
    }
  }

  lemma StoredLast(file: seq<Byte>, handles: seq<Handle>, blocks: seq<Layout>, contents: seq<Byte>, l: Layout,
                   file': seq<Byte>, h: Handle)
    requires Blocks.Framed(contents, l) && h == Handle(|file|, |contents|) && |handles| == |blocks|
    requires Encodable(h) && file' == file + contents + Trailer(contents)
    ensures Stored(file', handles + [h], blocks + [l], |blocks|)
  {
    BlockAppended(file, contents);
    assert file'[h.offset..BlockEnd(h)] == contents;
  }

  lemma StoredIn(file: seq<Byte>, longer: seq<Byte>, handles: seq<Handle>, blocks: seq<Layout>)
    requires AllStored(file, handles, blocks) && file <= longer
    ensures AllStored(longer, handles, blocks)
  {
    forall i | 0 <= i < |blocks| ensures Stored(longer, handles, blocks, i) {
      assert Stored(file, handles, blocks, i);
      StillStored(file, longer, handles, blocks, i);
    }
  }

  lemma StillStored(file: seq<Byte>, longer: seq<Byte>, handles: seq<Handle>, blocks: seq<Layout>, i: nat)
    requires i < |handles| == |blocks| && Stored(file, handles, blocks, i) && file <= longer
    ensures Stored(longer, handles, blocks, i)
  {
    var h := handles[i];
    SliceIn(file, longer, h.offset, BlockEnd(h));
    StoredAsIn(file, longer, h, blocks[i], file[h.offset..BlockEnd(h)]);
  }

  lemma StoredAsIn(file: seq<Byte>, longer: seq<Byte>, h: Handle, l: Layout, contents: seq<Byte>)
    requires StoredAs(file, h, l, contents) && file <= longer
    ensures StoredAs(longer, h, l, contents)
  {
    BlockAtIn(file, longer, h, contents);
  }

  /** More keys for the filters, in the filters there are or in new ones. */
  ghost predicate MoreKeys(groups: seq<seq<Key>>, groups': seq<seq<Key>>) {
    forall g, key | 0 <= g < |groups| && key in groups[g] :: g < |groups'| && key in groups'[g]
  }

  lemma FilterFlushed(groups: seq<seq<Key>>, handles: seq<Handle>, blocks: seq<Layout>, h: Handle, l: Layout)
    requires Filtered(groups, handles, blocks) && KeysIn(groups, h.offset / BASE, l.pairs)
    ensures Filtered(groups, handles + [h], blocks + [l])
  {
  }

  lemma KeysStay(groups: seq<seq<Key>>, groups': seq<seq<Key>>, handles: seq<Handle>, blocks: seq<Layout>)
    requires Filtered(groups, handles, blocks) && MoreKeys(groups, groups')
    ensures Filtered(groups', handles, blocks)
  {
    forall i | 0 <= i < |blocks| ensures KeysIn(groups', handles[i].offset / BASE, blocks[i].pairs) {
      assert KeysIn(groups, handles[i].offset / BASE, blocks[i].pairs);
    }
  }

  ghost predicate Holding(file: seq<Byte>, offset: nat, handles: seq<Handle>, blocks: seq<Layout>, all: seq<Pair>,
                          data: seq<Pair>, index: seq<Pair>, lastKey: Key, pending: bool, pendingHandle: Handle,
                          next: Optional<Key>) {
    && offset == |file| && AllStored(file, handles, blocks)
    && Progress(data, index, handles, blocks, lastKey, pending, pendingHandle, next)
    && all == Concat(PairsOf(blocks)) + data
  }

  lemma HoldingEntry(file: seq<Byte>, offset: nat, handles: seq<Handle>, blocks: seq<Layout>, all: seq<Pair>,
                     index: seq<Pair>, lastKey: Key, h: Handle, key: Key, sep: Key, index': seq<Pair>)
    requires Holding(file, offset, handles, blocks, all, [], index, lastKey, true, h, None)
    requires |key| >= TAG_SIZE && |lastKey| >= TAG_SIZE && InternalLess(lastKey, key)
    requires sep == Shortened(lastKey, Separator(UserOf(lastKey), UserOf(key)))
    requires index' == index + [Pair(sep, EncodeHandle(h))]
    ensures Holding(file, offset, handles, blocks, all, [], index', lastKey, false, h, Some(key))
  {
    SeparatorApart(lastKey, key);
    EntryMade(index, handles, blocks, lastKey, h, sep, Some(key), index');
  }

  lemma HoldingPair(file: seq<Byte>, offset: nat, handles: seq<Handle>, blocks: seq<Layout>, all: seq<Pair>,
                    data: seq<Pair>, index: seq<Pair>, lastKey: Key, h: Handle, p: Pair, data': seq<Pair>,
                    all': seq<Pair>)
    requires Holding(file, offset, handles, blocks, all, data, index, lastKey, false, h,
                     if data == [] && blocks != [] then Some(p.key) else NextOf(data))
    requires data' == data + [p] && all' == all + [p]
    requires |p.key| >= TAG_SIZE && (data != [] ==> InternalLess(lastKey, p.key))
    ensures Holding(file, offset, handles, blocks, all', data', index, p.key, false, h, NextOf(data'))
  {
    PairAdded(data, index, handles, blocks, lastKey, h, p, data');
    assert all' == Concat(PairsOf(blocks)) + data';
  }

  lemma HoldingBlock(file: seq<Byte>, offset: nat, handles: seq<Handle>, blocks: seq<Layout>, all: seq<Pair>,
                     data: seq<Pair>, index: seq<Pair>, lastKey: Key, h: Handle, contents: seq<Byte>, l: Layout,
                     file': seq<Byte>, offset': nat, h': Handle)
    requires Holding(file, offset, handles, blocks, all, data, index, lastKey, false, h, NextOf(data))
    requires data != [] && l.pairs == data && Blocks.Framed(contents, l)
    requires h' == Handle(offset, |contents|) && Encodable(h')
    requires file' == file + contents + Trailer(contents) && offset' == |file'|
    ensures Holding(file', offset', handles + [h'], blocks + [l], all, [], index, lastKey, true, h', None)
  {
    StoredMore(file, handles, blocks, contents, l, file', h');
    BlockWritten(data, index, handles, blocks, lastKey, h, h', l);
    assert PairsOf(blocks + [l]) == PairsOf(blocks) + [data];
    assert PairsOf(blocks + [l])[..|blocks|] == PairsOf(blocks);
    assert Concat(PairsOf(blocks + [l])) + [] == Concat(PairsOf(blocks + [l]));
  }

  /** More of the file, after everything that matters. */
  lemma HoldingMore(file: seq<Byte>, offset: nat, handles: seq<Handle>, blocks: seq<Layout>, all: seq<Pair>,
                    data: seq<Pair>, index: seq<Pair>, lastKey: Key, pending: bool, h: Handle, next: Optional<Key>,
                    file': seq<Byte>, offset': nat)
    requires Holding(file, offset, handles, blocks, all, data, index, lastKey, pending, h, next)
    requires file <= file' && offset' == |file'|
    ensures Holding(file', offset', handles, blocks, all, data, index, lastKey, pending, h, next)
  {
    StoredIn(file, file', handles, blocks);
  }

  /** The index entry of the last block. */
  lemma LastEntry(index: seq<Pair>, handles: seq<Handle>, blocks: seq<Layout>, lastKey: Key, h: Handle, sep: Key,
                  index': seq<Pair>)
    requires Progress([], index, handles, blocks, lastKey, true, h, None) && |lastKey| >= TAG_SIZE
    requires sep == Shortened(lastKey, Successor(UserOf(lastKey))) && index' == index + [Pair(sep, EncodeHandle(h))]
    ensures |index'| == |blocks| && Indexes(index', handles, blocks)
  {
    SuccessorNotBelow(lastKey);
    EntryMade(index, handles, blocks, lastKey, h, sep, None, index');
    SepsAreSeparated(PairsOf(blocks), KeysOf(index'));
  }

  lemma NoEntry(index: seq<Pair>, handles: seq<Handle>, blocks: seq<Layout>, lastKey: Key, h: Handle)
    requires Progress([], index, handles, blocks, lastKey, false, h, None)
    ensures |index| == |blocks| && Indexes(index, handles, blocks)
  {
    SepsAreSeparated(PairsOf(blocks), KeysOf(index));
  }

  /** The sizes of what goes into the index. */
  lemma EntrySizes(file: seq<Byte>, handles: seq<Handle>, blocks: seq<Layout>, index: seq<Pair>, lastKey: Key,
                   h: Handle,
                   user: Key)
    requires AllStored(file, handles, blocks) && Progress([], index, handles, blocks, lastKey, true, h, None)
    ensures |lastKey| >= TAG_SIZE && |Shortened(lastKey, user)| <= |lastKey| && |EncodeHandle(h)| <= 20
  {
    assert GoodBlock(PairsOf(blocks)[|blocks| - 1]);
    assert Stored(file, handles, blocks, |handles| - 1);
    HandleSize(h);
  }

  lemma FirstPair(blocks: seq<Layout>, data: seq<Pair>)
    requires blocks != [] ==> blocks[|blocks| - 1].pairs != []
    ensures blocks != [] || data != [] ==> Concat(PairsOf(blocks)) + data != []
  {
    if blocks != [] {
      assert PairsOf(blocks)[|blocks| - 1] == blocks[|blocks| - 1].pairs;
    }
  }

  /** A block with the pairs in `data` was written if it had reached the block size, and else it is still there. */
  ghost predicate CutAt(blockSize: nat, blocks: seq<Layout>, data: seq<Pair>, blocks': seq<Layout>, data': seq<Pair>,
                        size: nat) {
    if size < blockSize then blocks' == blocks && data' == data
    else
      && |blocks'| == |blocks| + 1 && blocks' == blocks + [blocks'[|blocks|]]
      && blocks'[|blocks|].pairs == data && data' == []
  }

  class TableBuilder {
    const blockSize: nat
    const dataBlock: BlockBuilder
    const indexBlock: BlockBuilder
    const filter: FilterBlockBuilder?
    const policy: Key
    var file: seq<Byte>
    var offset: nat
    var lastKey: Key
    var pendingIndexEntry: bool
    var pendingHandle: Handle
    var closed: bool
    ghost var handles: seq<Handle>
    ghost var blocks: seq<Layout>
    ghost var all: seq<Pair>

    ghost predicate Valid()
      reads this, dataBlock, indexBlock, filter
    {
      Core(NextOf(dataBlock.l.pairs))
    }

    /** `next` is the key after the last block, if it is known. */
    ghost predicate Core(next: Optional<Key>)
      reads this, dataBlock, indexBlock, filter
    {
      Written(next) && FilterOk(dataBlock.l.pairs)
    }

    /** The size of block `i`, which is written or is the current one. */
    ghost function BlockSize(i: nat): nat
      reads this, dataBlock
    {
      if i < |handles| then handles[i].size else dataBlock.CurrentSizeEstimate()
    }

    /** What a builder has apart from its filter. */
    ghost predicate Written(next: Optional<Key>)
      reads this, dataBlock, indexBlock
    {
      && dataBlock != indexBlock && dataBlock.Valid() && !dataBlock.finished && indexBlock.Valid()
        && !indexBlock.finished
      && Holding(file, offset, handles, blocks, all, dataBlock.l.pairs, indexBlock.l.pairs, lastKey, pendingIndexEntry,
                 pendingHandle, next)
    }

    /** The filter has the keys of the blocks and of the current one, `data`. */
    ghost predicate FilterOk(data: seq<Pair>)
      reads this`offset, this`handles, this`blocks, filter
    {
      filter != null ==>
        && filter.Valid() && |filter.groups| == offset / BASE
        && Filtered(filter.groups + [filter.pending], handles, blocks)
        && KeysIn(filter.groups + [filter.pending], offset / BASE, data)
    }

    /**
     A builder for a new file; the index block has a restart point at every entry. `policy` is the name of
     the filter policy, if there is a filter.
    */
    constructor (blockSize: nat, interval: nat, filter: FilterBlockBuilder?, policy: Key)
      requires interval >= 1 && (filter != null ==> filter.Valid() && filter.groups == [] && filter.pending == [])
      ensures Valid() && all == [] && !closed && fresh(dataBlock) && fresh(indexBlock)
      ensures this.filter == filter && this.policy == policy
    {
      this.blockSize, this.filter, this.policy := blockSize, filter, policy;
      dataBlock := new BlockBuilder(interval);
      indexBlock := new BlockBuilder(1);
      file, offset, lastKey, pendingIndexEntry, pendingHandle, closed := [], 0, [], false, Handle(0, 0), false;
      handles, blocks, all := [], [], [];
    }

    /** `Add`: the caller adds internal keys in increasing order. */
    method Add(key: Key, value: seq<Byte>)
      requires Valid() && !closed && |key| >= TAG_SIZE && (all != [] ==> InternalLess(lastKey, key))
      requires dataBlock.CurrentSizeEstimate() + |key| + |value| + 19 < TWO_32 && |lastKey| + 20 < TWO_32
      requires offset + TWO_32 < TWO_64
      modifies this, dataBlock, indexBlock, filter
      ensures Valid() && !closed && all == old(all) + [Pair(key, value)] && lastKey == key
      ensures CutAt(blockSize, old(blocks), old(dataBlock.l.pairs) + [Pair(key, value)], blocks, dataBlock.l.pairs,
        BlockSize(|old(blocks)|))
    {
      PutPair(key, value);
      FlushFull();
    }

    /** The end of `Add`: a block that has reached the block size is written. */
    method FlushFull()
      requires Valid() && !closed && dataBlock.l.pairs != []
      requires dataBlock.CurrentSizeEstimate() < TWO_32 && offset + TWO_32 < TWO_64
      modifies this, dataBlock, filter
      ensures Valid() && !closed && all == old(all) && lastKey == old(lastKey)
      ensures CutAt(blockSize, old(blocks), old(dataBlock.l.pairs), blocks, dataBlock.l.pairs,
        BlockSize(|old(blocks)|))
    {
      if dataBlock.CurrentSizeEstimate() >= blockSize {
        Flush();
      }
    }

    method PutPair(key: Key, value: seq<Byte>)
      requires Valid() && |key| >= TAG_SIZE && (all != [] ==> InternalLess(lastKey, key))
      requires dataBlock.CurrentSizeEstimate() + |key| + |value| + 19 < TWO_32 && |lastKey| + 20 < TWO_32
      modifies this`lastKey, this`all, this`pendingIndexEntry, dataBlock, indexBlock, filter
      ensures Valid() && all == old(all) + [Pair(key, value)] && lastKey == key
      ensures dataBlock.CurrentSizeEstimate() < TWO_32
      ensures dataBlock.l.pairs == old(dataBlock.l.pairs) + [Pair(key, value)]
    {
      FirstPair(blocks, dataBlock.l.pairs);
      AddToFilter(key, value);
      PutInBlock(key, value);
    }

    method PutInBlock(key: Key, value: seq<Byte>)
      requires FilterOk(dataBlock.l.pairs + [Pair(key, value)]) && Written(NextOf(dataBlock.l.pairs))
        && |key| >= TAG_SIZE
      requires blocks != [] || dataBlock.l.pairs != [] ==> InternalLess(lastKey, key)
      requires dataBlock.CurrentSizeEstimate() + |key| + |value| + 19 < TWO_32 && |lastKey| + 20 < TWO_32
      modifies this`lastKey, this`all, this`pendingIndexEntry, dataBlock, indexBlock
      ensures Valid() && all == old(all) + [Pair(key, value)] && lastKey == key
      ensures dataBlock.CurrentSizeEstimate() < TWO_32
      ensures dataBlock.l.pairs == old(dataBlock.l.pairs) + [Pair(key, value)]
    {
      ghost var next := PutPending(key, dataBlock.l.pairs + [Pair(key, value)]);
      AddToBlock(key, value, next);
    }

    /** The pending index entry, if there is one. */
    method PutPending(key: Key, ghost data: seq<Pair>) returns (ghost next: Optional<Key>)
      requires FilterOk(data) && Written(NextOf(dataBlock.l.pairs)) && |lastKey| + 20 < TWO_32
      requires |key| >= TAG_SIZE && (blocks != [] || dataBlock.l.pairs != [] ==> InternalLess(lastKey, key))
      modifies this`pendingIndexEntry, indexBlock
      ensures FilterOk(data) && Written(next) && !pendingIndexEntry
      ensures next == if dataBlock.l.pairs == [] && blocks != [] then Some(key) else NextOf(dataBlock.l.pairs)
    {
      next := NextOf(dataBlock.l.pairs);
      if pendingIndexEntry {
        PutIndexEntry(key, data);
        next := Some(key);
      }
    }

    /** The index entry of the last block, with a key between `lastKey` and the next one. */
    method PutIndexEntry(key: Key, ghost data: seq<Pair>)
      requires FilterOk(data) && Written(None) && pendingIndexEntry && dataBlock.l.pairs == []
      requires |key| >= TAG_SIZE && InternalLess(lastKey, key) && |lastKey| + 20 < TWO_32
      modifies this`pendingIndexEntry, indexBlock
      ensures FilterOk(data) && Written(Some(key)) && !pendingIndexEntry
    {
      EntrySizes(file, handles, blocks, indexBlock.l.pairs, lastKey, pendingHandle,
                 Separator(UserOf(lastKey), UserOf(key)));
      var sep := FindSeparator(lastKey, key);
      ghost var index := indexBlock.l.pairs;
      indexBlock.Add(sep, EncodeHandle(pendingHandle));
      HoldingEntry(file, offset, handles, blocks, all, index, lastKey, pendingHandle, key, sep, indexBlock.l.pairs);
      pendingIndexEntry := false;
    }

    method AddToFilter(key: Key, value: seq<Byte>)
      requires FilterOk(dataBlock.l.pairs) && |key| >= TAG_SIZE
      modifies filter
      ensures FilterOk(dataBlock.l.pairs + [Pair(key, value)])
    {
      if filter != null {
        ghost var groups := filter.groups + [filter.pending];
        filter.AddKey(key);
        KeysStay(groups, filter.groups + [filter.pending], handles, blocks);
      }
    }

    method AddToBlock(key: Key, value: seq<Byte>, ghost next: Optional<Key>)
      requires !pendingIndexEntry && FilterOk(dataBlock.l.pairs + [Pair(key, value)])
      requires next == if dataBlock.l.pairs == [] && blocks != [] then Some(key) else NextOf(dataBlock.l.pairs)
      requires Written(next)
      requires |key| >= TAG_SIZE && (dataBlock.l.pairs != [] ==> InternalLess(lastKey, key))
      requires dataBlock.CurrentSizeEstimate() + |key| + |value| + 19 < TWO_32
      modifies this`lastKey, this`all, dataBlock
      ensures FilterOk(dataBlock.l.pairs) && Written(NextOf(dataBlock.l.pairs))
        && all == old(all) + [Pair(key, value)] && lastKey == key
      ensures dataBlock.l.pairs == old(dataBlock.l.pairs) + [Pair(key, value)]
      ensures dataBlock.CurrentSizeEstimate() < TWO_32
    {
      ghost var data, p := dataBlock.l.pairs, Pair(key, value);
      HoldingPair(file, offset, handles, blocks, all, data, indexBlock.l.pairs, lastKey, pendingHandle,
                  p, data + [p], all + [p]);
      lastKey := key;
      dataBlock.Add(key, value);
      all := all + [p];
    }

    /** `Flush`: the current block is written, its index entry is pending. */
    method Flush()
      requires Valid() && !closed && dataBlock.CurrentSizeEstimate() < TWO_32 && offset + TWO_32 < TWO_64
      modifies this, dataBlock, filter
      ensures Valid() && !closed && all == old(all) && lastKey == old(lastKey) && dataBlock.l.pairs == []
      ensures offset <= old(offset) + TWO_32 + TRAILER_SIZE
      ensures old(dataBlock.l.pairs) == [] ==> handles == old(handles) && blocks == old(blocks)
      ensures old(dataBlock.l.pairs) != [] ==>
        && CutAt(0, old(blocks), old(dataBlock.l.pairs), blocks, dataBlock.l.pairs, 0)
        && BlockSize(|old(blocks)|) == old(dataBlock.CurrentSizeEstimate())
    {
      if |dataBlock.buffer| == 0 {
        EmptyBuffer(dataBlock.buffer, dataBlock.l);
        return;
      }
      ghost var h, l := FlushBlock();
      StartFilter(h, l, old(handles), old(blocks));
    }

    /** `StartBlock` of the filter for the block after `l`. */
    method StartFilter(ghost h: Handle, ghost l: Layout, ghost before: seq<Handle>, ghost earlier: seq<Layout>)
      requires handles == before + [h] && blocks == earlier + [l] && h.offset <= offset
      requires filter != null ==>
        && filter.Valid() && |filter.groups| == h.offset / BASE
        && Filtered(filter.groups + [filter.pending], before, earlier)
        && KeysIn(filter.groups + [filter.pending], h.offset / BASE, l.pairs)
      modifies filter
      ensures FilterOk([])
    {
      if filter != null {
        ghost var groups := filter.groups + [filter.pending];
        FilterFlushed(groups, before, earlier, h, l);
        assert h.offset / BASE <= offset / BASE;
        filter.StartBlock(offset);
        ghost var groups' := filter.groups + [filter.pending];
        forall g, key | 0 <= g < |groups| && key in groups[g] ensures g < |groups'| && key in groups'[g] {
          assert old(filter.KeysAt(g)) == groups[g];
          assert filter.KeysAt(g) == groups[g];
        }
        KeysStay(groups, groups', handles, blocks);
      }
    }

    method FlushBlock() returns (ghost h: Handle, ghost l: Layout)
      requires Written(NextOf(dataBlock.l.pairs)) && dataBlock.l.pairs != [] && !pendingIndexEntry
      requires dataBlock.CurrentSizeEstimate() < TWO_32 && offset + TWO_32 < TWO_64
      modifies this`file, this`offset, this`pendingIndexEntry, this`pendingHandle, this`handles, this`blocks, dataBlock
      ensures Written(None) && dataBlock.l.pairs == []
      ensures old(offset) <= offset <= old(offset) + TWO_32 + TRAILER_SIZE
      ensures handles == old(handles) + [h] && blocks == old(blocks) + [l]
      ensures h.offset == old(offset) && l.pairs == old(dataBlock.l.pairs)
      ensures h.size == old(dataBlock.CurrentSizeEstimate())
    {
      ghost var data := dataBlock.l.pairs;
      ghost var contents;
      var handle;
      handle, l, contents := WriteBlock(dataBlock);
      h := handle;
      HoldingBlock(old(file), old(offset), handles, blocks, all, data, indexBlock.l.pairs, lastKey, pendingHandle,
                   contents, l, file, offset, h);
      NoteBlock(handle, l);
    }

    /** The block just written is the last one, and its index entry is pending. */
    method NoteBlock(h: Handle, ghost l: Layout)
      requires dataBlock != indexBlock && dataBlock.Valid() && !dataBlock.finished && dataBlock.l.pairs == []
      requires indexBlock.Valid() && !indexBlock.finished
      requires Holding(file, offset, handles + [h], blocks + [l], all, [], indexBlock.l.pairs, lastKey, true, h, None)
      modifies `handles, `blocks, `pendingHandle, `pendingIndexEntry
      ensures Written(None) && handles == old(handles) + [h] && blocks == old(blocks) + [l]
    {
      handles, blocks, pendingHandle, pendingIndexEntry := handles + [h], blocks + [l], h, true;
    }

    /**
     `Finish`: the rest of the data, the filter block, the metaindex block, the index block and the footer.
     The footer leads a reader to all of them, unless the file has outgrown 64-bit offsets.
    */
    method Finish() returns (indexHandle: Handle, filterHandle: Handle, ghost indexLayout: Layout,
                             ghost groups: seq<seq<Key>>, ghost offs: seq<nat>)
      requires Valid() && !closed && dataBlock.CurrentSizeEstimate() < TWO_32
      requires |lastKey| + 20 < TWO_32 && offset + TWO_32 < TWO_64
      requires indexBlock.CurrentSizeEstimate() + |lastKey| + 39 < TWO_32 && |policy| + 54 < TWO_32
      modifies this, dataBlock, indexBlock, filter
      ensures closed && all == old(all) && Complete(file, indexHandle, indexLayout, handles, blocks, all)
      ensures FilterWritten(filterHandle, groups, offs)
      ensures |file| < TWO_64 ==> Footed(file, FilterName(), filterHandle, indexHandle)
    {
      Close();
      indexHandle, filterHandle, indexLayout, groups, offs := WriteRest();
    }

    /** The rest of the data is written, and no more will be added. */
    method Close()
      requires Valid() && !closed && dataBlock.CurrentSizeEstimate() < TWO_32
      requires |lastKey| + 20 < TWO_32 && offset + TWO_32 < TWO_64
      requires indexBlock.CurrentSizeEstimate() + |lastKey| + 39 < TWO_32
      modifies this, dataBlock, filter
      ensures ReadyForIndex() && FilterOk([]) && closed && all == old(all)
    {
      Flush();
      closed := true;
    }

    /** The blocks after the data. */
    method WriteRest() returns (indexHandle: Handle, filterHandle: Handle, ghost indexLayout: Layout,
                                ghost groups: seq<seq<Key>>, ghost offs: seq<nat>)
      requires ReadyForIndex() && FilterOk([]) && |policy| + 54 < TWO_32
      modifies this`file, this`offset, this`pendingIndexEntry, indexBlock, filter
      ensures closed == old(closed) && all == old(all)
      ensures Complete(file, indexHandle, indexLayout, handles, blocks, all)
      ensures FilterWritten(filterHandle, groups, offs)
      ensures |file| < TWO_64 ==> Footed(file, FilterName(), filterHandle, indexHandle)
    {
      filterHandle, groups, offs := WriteFilter();
      indexHandle, indexLayout := WriteTail(filterHandle, groups, offs);
    }

    /** The name under which the metaindex block has the filter block. */
    function FilterName(): Optional<Key> {
      if filter == null then None else Some(policy)
    }

    /** The filter block, if there is a filter, is where the handle says. */
    ghost predicate FilterWritten(h: Handle, groups: seq<seq<Key>>, offs: seq<nat>)
      reads this
    {
      && BlockEnd(h) <= |file|
      && (filter != null ==> FilterComplete(file, h, filter.hash, filter.k, groups, offs, handles, blocks))
    }

    /** What comes after the filter block, which is still there. */
    method WriteTail(filterHandle: Handle, ghost groups: seq<seq<Key>>, ghost offs: seq<nat>)
      returns (indexHandle: Handle, ghost indexLayout: Layout)
      requires ReadyForIndex() && |policy| + 54 < TWO_32 && FilterWritten(filterHandle, groups, offs)
      modifies this`file, this`offset, this`pendingIndexEntry, indexBlock
      ensures Complete(file, indexHandle, indexLayout, handles, blocks, all)
      ensures FilterWritten(filterHandle, groups, offs)
      ensures |file| < TWO_64 ==> Footed(file, FilterName(), filterHandle, indexHandle)
    {
      ghost var before := file;
      var metaindexHandle;
      ghost var meta, contents;
      metaindexHandle, meta, contents := PutMetaindex(filterHandle);
      indexHandle, indexLayout := WriteIndexAndFooter(metaindexHandle, filterHandle, meta, contents);
      assert before <= file;
      if filter != null {
        FilterStays(before, file, filterHandle, filter.hash, filter.k, groups, offs, handles, blocks);
      }
    }

    method PutMetaindex(filterHandle: Handle) returns (h: Handle, ghost l: Layout, ghost contents: seq<Byte>)
      requires ReadyForIndex() && |policy| + 54 < TWO_32
      modifies `file, `offset
      ensures ReadyForIndex() && old(file) <= file
      ensures MetaAt(file, h, l, contents, FilterName(), Wrapped(filterHandle))
    {
      var block := MetaindexBlock(filterHandle);
      h, l, contents := WriteMetaindex(block);
    }

    method WriteIndexAndFooter(metaindexHandle: Handle, ghost filterHandle: Handle, ghost meta: Layout,
                               ghost contents: seq<Byte>)
      returns (indexHandle: Handle, ghost indexLayout: Layout)
      requires ReadyForIndex() && BlockEnd(filterHandle) <= |file|
      requires MetaAt(file, metaindexHandle, meta, contents, FilterName(), Wrapped(filterHandle))
      modifies this`file, this`offset, this`pendingIndexEntry, indexBlock
      ensures old(file) <= file && Complete(file, indexHandle, indexLayout, handles, blocks, all)
      ensures |file| < TWO_64 ==> Footed(file, FilterName(), filterHandle, indexHandle)
    {
      ghost var before := file;
      indexHandle, indexLayout := WriteIndex();
      ghost var written := file;
      WriteFooter(metaindexHandle, indexHandle);
      CompleteStays(written, file, indexHandle, indexLayout, handles, blocks, all);
      if |file| < TWO_64 {
        BlockAtIn(before, written, metaindexHandle, contents);
        FooterLeads(written, file, FilterName(), filterHandle, indexHandle, metaindexHandle, meta, contents);
      }
    }

    /** The metaindex block: the place of the filter block under `"filter."` and the name of its policy. */
    method MetaindexBlock(filterHandle: Handle) returns (block: BlockBuilder)
      requires dataBlock.Valid() && |policy| + 54 < TWO_32
      ensures fresh(block) && block.Valid() && !block.finished && block.CurrentSizeEstimate() < TWO_32
      ensures block.l.pairs == MetaPairs(FilterName(), Wrapped(filterHandle))
    {
      block := new BlockBuilder(dataBlock.interval);
      if filter != null {
        HandleSize(Wrapped(filterHandle));
        block.Add(MetaKey(policy), EncodeHandle(Wrapped(filterHandle)));
      }
    }

    method WriteMetaindex(block: BlockBuilder) returns (h: Handle, ghost l: Layout, ghost contents: seq<Byte>)
      requires ReadyForIndex() && block != dataBlock && block != indexBlock
      requires block.Valid() && !block.finished && block.CurrentSizeEstimate() < TWO_32
      modifies `file, `offset, block
      ensures ReadyForIndex() && old(file) <= file
      ensures BlockAt(file, h, contents) && Blocks.Framed(contents, l) && l.pairs == old(block.l.pairs)
    {
      ghost var before := file;
      h, l, contents := WriteBlock(block);
      BlockAppended(before, contents);
      HoldingMore(before, |before|, handles, blocks, all, [], indexBlock.l.pairs, lastKey, pendingIndexEntry,
                  pendingHandle, None, file, offset);
    }

    method WriteFooter(metaindexHandle: Handle, indexHandle: Handle)
      requires offset == |file|
      modifies `file, `offset
      ensures file == old(file) + EncodeFooter(Footer(metaindexHandle, indexHandle)) && offset == |file|
    {
      file := file + EncodeFooter(Footer(metaindexHandle, indexHandle));
      offset := offset + FOOTER_SIZE;
    }

    /** All data is written, and there is room for the last index entry. */
    ghost predicate ReadyForIndex()
      reads this, dataBlock, indexBlock
    {
      && Written(None) && dataBlock.l.pairs == [] && |lastKey| + 20 < TWO_32
      && indexBlock.CurrentSizeEstimate() + |lastKey| + 39 < TWO_32
    }

    method WriteFilter() returns (h: Handle, ghost groups: seq<seq<Key>>, ghost offs: seq<nat>)
      requires ReadyForIndex() && FilterOk([])
      modifies this`file, this`offset, filter
      ensures ReadyForIndex() && FilterWritten(h, groups, offs)
    {
      h, groups, offs := Handle(0, 0), [], [];
      if filter != null {
        var contents;
        contents, groups, offs := FinishFilter();
        h := WriteFilterBlock(contents, filter.hash, filter.k, groups, offs);
      }
    }

    method WriteFilterBlock(contents: seq<Byte>, ghost hash: Bloom.Hash, ghost k: nat, ghost groups: seq<seq<Key>>,
                            ghost offs: seq<nat>)
      returns (h: Handle)
      requires ReadyForIndex() && IsFilterBlock(hash, k, groups, offs, contents) && Filtered(groups, handles, blocks)
      modifies `file, `offset
      ensures ReadyForIndex() && FilterComplete(file, h, hash, k, groups, offs, handles, blocks)
    {
      ghost var before := file;
      h := WriteRawBlock(contents);
      BlockAppended(before, contents);
      HoldingMore(before, |before|, handles, blocks, all, [], indexBlock.l.pairs, lastKey, pendingIndexEntry,
                  pendingHandle, None, file, offset);
    }

    method FinishFilter() returns (contents: seq<Byte>, ghost groups: seq<seq<Key>>, ghost offs: seq<nat>)
      requires filter != null && FilterOk([])
      modifies filter
      ensures IsFilterBlock(filter.hash, filter.k, groups, offs, contents)
      ensures Filtered(groups, handles, blocks)
      ensures old(ReadyForIndex()) ==> ReadyForIndex()
    {
      ghost var before := filter.groups + [filter.pending];
      contents, offs := filter.Finish();
      groups := filter.groups;
      forall g, key | 0 <= g < |before| && key in before[g] ensures g < |groups| && key in groups[g] {
        assert old(filter.KeysAt(g)) == before[g];
        assert filter.KeysAt(g) == before[g];
      }
      KeysStay(before, groups, handles, blocks);
    }

    method WriteIndex() returns (h: Handle, ghost indexLayout: Layout)
      requires ReadyForIndex()
      modifies this`file, this`offset, this`pendingIndexEntry, indexBlock
      ensures Complete(file, h, indexLayout, handles, blocks, all) && old(file) <= file && offset == |file|
    {
      PutLastEntry();
      ghost var contents;
      h, indexLayout, contents := WriteBlock(indexBlock);
      BlockAppended(old(file), contents);
      StoredIn(old(file), file, handles, blocks);
      assert all == Concat(PairsOf(blocks));
    }

    method PutLastEntry()
      requires ReadyForIndex()
      modifies this`pendingIndexEntry, indexBlock
      ensures indexBlock.Valid() && !indexBlock.finished && indexBlock.CurrentSizeEstimate() < TWO_32
      ensures |indexBlock.l.pairs| == |blocks| && Indexes(indexBlock.l.pairs, handles, blocks)
    {
      ghost var index := indexBlock.l.pairs;
      if pendingIndexEntry {
        EntrySizes(file, handles, blocks, index, lastKey, pendingHandle, Successor(UserOf(lastKey)));
        var sep := FindSuccessor(lastKey);
        indexBlock.Add(sep, EncodeHandle(pendingHandle));
        LastEntry(index, handles, blocks, lastKey, pendingHandle, sep, indexBlock.l.pairs);
        pendingIndexEntry := false;
      } else {
        NoEntry(index, handles, blocks, lastKey, pendingHandle);
      }
    }

    /** `WriteBlock` without compression. */
    method WriteBlock(block: BlockBuilder) returns (h: Handle, ghost l: Layout, ghost contents: seq<Byte>)
      requires block.Valid() && !block.finished && block.CurrentSizeEstimate() < TWO_32
      requires offset == |file|
      modifies this`file, this`offset, block
      ensures block.Valid() && !block.finished && block.l.pairs == []
      ensures l == old(block.l) && Blocks.Framed(contents, l) && h == Handle(old(offset), |contents|)
      ensures |contents| == old(block.CurrentSizeEstimate())
      ensures file == old(file) + contents + Trailer(contents) && offset == |file|
    {
      l := block.l;
      var raw := block.Finish();
      contents := raw;
      h := WriteRawBlock(raw);
      block.Reset();
    }

    /** `WriteRawBlock`: contents, type and checksum. */
    method WriteRawBlock(contents: seq<Byte>) returns (h: Handle)
      requires offset == |file|
      modifies this`file, this`offset
      ensures h == Handle(old(offset), |contents|)
      ensures file == old(file) + contents + Trailer(contents) && offset == |file|
    {
      h := Handle(offset, |contents|);
      file := file + contents;
      var crc := LogChecksum.Value(contents + [NO_COMPRESSION]);
      file := file + ([NO_COMPRESSION] + Fixed(Crc32c.Mask(crc), 4));
      offset := offset + |contents| + TRAILER_SIZE;
    }
  }

  /** What `Finish` leaves in the file: index block and filter block can be read, and with them all pairs. */
  ghost predicate Complete(file: seq<Byte>, indexHandle: Handle, indexLayout: Layout, handles: seq<Handle>,
                           blocks: seq<Layout>, all: seq<Pair>) {
    && AllStored(file, handles, blocks)
    && (exists contents :: BlockAt(file, indexHandle, contents) && Blocks.Framed(contents, indexLayout))
    && |indexLayout.pairs| == |blocks| && Indexes(indexLayout.pairs, handles, blocks)
    && all == Concat(PairsOf(blocks))
  }

  ghost predicate FilterComplete(file: seq<Byte>, filterHandle: Handle, hash: Bloom.Hash, k: nat, groups: seq<seq<Key>>,
                                 offs: seq<nat>, handles: seq<Handle>, blocks: seq<Layout>) {
    && (exists contents :: BlockAt(file, filterHandle, contents) && IsFilterBlock(hash, k, groups, offs, contents))
    && Filtered(groups, handles, blocks)
  }

  lemma FilterStays(file: seq<Byte>, longer: seq<Byte>, filterHandle: Handle, hash: Bloom.Hash, k: nat,
                    groups: seq<seq<Key>>, offs: seq<nat>, handles: seq<Handle>, blocks: seq<Layout>)
    requires FilterComplete(file, filterHandle, hash, k, groups, offs, handles, blocks) && file <= longer
    ensures FilterComplete(longer, filterHandle, hash, k, groups, offs, handles, blocks)
  {
    var contents :| BlockAt(file, filterHandle, contents) && IsFilterBlock(hash, k, groups, offs, contents);
    BlockAtIn(file, longer, filterHandle, contents);
  }

  lemma CompleteStays(file: seq<Byte>, longer: seq<Byte>, indexHandle: Handle, indexLayout: Layout,
                      handles: seq<Handle>, blocks: seq<Layout>, all: seq<Pair>)
    requires Complete(file, indexHandle, indexLayout, handles, blocks, all) && file <= longer
    ensures Complete(longer, indexHandle, indexLayout, handles, blocks, all)
  {
    var contents :| BlockAt(file, indexHandle, contents) && Blocks.Framed(contents, indexLayout);
    BlockAtIn(file, longer, indexHandle, contents);
    StoredIn(file, longer, handles, blocks);
  }

  // ---------- from the footer to the blocks ----------

  /** A handle has two 64-bit fields. */
  function Wrapped(h: Handle): (r: Handle)
    ensures Encodable(r) && (Encodable(h) ==> r == h)
  {
    SmallHandle(h);
    Handle(h.offset % TWO_64, h.size % TWO_64)
  }

  lemma SmallHandle(h: Handle)
    ensures h.offset < TWO_64 ==> h.offset % TWO_64 == h.offset
    ensures h.size < TWO_64 ==> h.size % TWO_64 == h.size
  {
  }

  const FILTER_PREFIX: Key := [102, 105, 108, 116, 101, 114, 46]

  /** `"filter."` and the name of a policy. */
  function MetaKey(policy: Key): Key {
    FILTER_PREFIX + policy
  }

  function MetaPairs(policy: Optional<Key>, filterHandle: Handle): seq<Pair> {
    if policy.None? then [] else [Pair(MetaKey(policy.value), EncodeHandle(filterHandle))]
  }

  /** The metaindex block is in the file and has the place of the filter block, if there is one. */
  ghost predicate MetaAt(file: seq<Byte>, h: Handle, l: Layout, contents: seq<Byte>, policy: Optional<Key>,
                         filterHandle: Handle) {
    BlockAt(file, h, contents) && Blocks.Framed(contents, l) && l.pairs == MetaPairs(policy, filterHandle)
  }

  /** The file ends with a footer that has the place of the index block and of a metaindex block. */
  ghost predicate Footed(file: seq<Byte>, policy: Optional<Key>, filterHandle: Handle, indexHandle: Handle) {
    && |file| >= FOOTER_SIZE && (policy.Some? ==> Encodable(filterHandle))
    && exists h, l, contents ::
         && MetaAt(file, h, l, contents, policy, filterHandle)
         && DecodeFooter(file[|file| - FOOTER_SIZE..]) == Some(Footer(h, indexHandle))
  }

  lemma FooterLeads(written: seq<Byte>, file: seq<Byte>, policy: Optional<Key>, filterHandle: Handle,
                    indexHandle: Handle, h: Handle, l: Layout, contents: seq<Byte>)
    requires file == written + EncodeFooter(Footer(h, indexHandle)) && |file| < TWO_64
    requires BlockAt(written, h, contents) && BlockEnd(indexHandle) <= |written| && BlockEnd(filterHandle) <= |written|
    requires Blocks.Framed(contents, l) && l.pairs == MetaPairs(policy, Wrapped(filterHandle))
    ensures Footed(file, policy, filterHandle, indexHandle)
  {
    BlockAtIn(written, file, h, contents);
    FooterRoundTrip(Footer(h, indexHandle));
    assert file[|file| - FOOTER_SIZE..] == EncodeFooter(Footer(h, indexHandle));
    assert MetaAt(file, h, l, contents, policy, filterHandle);
  }

  lemma EmptyBuffer(data: seq<Byte>, l: Layout)
    requires Laid(data, l) && data == []
    ensures l.pairs == []
  {
    assert l.pairs != [] ==> EntryAt(data, l, 0);
  }

  // ---------- opening a table ----------

  /**
   `Table::Open`; `None` stands for its corruption errors. A file that `Finish` wrote opens: lookups scan
   all pairs that were added. Its filter is used if it was made under the name of the policy given here.
  */
  method Open(file: seq<Byte>, policy: Optional<Key>, hash: Bloom.Hash, paranoid: bool, verify: bool,
              ghost built: Optional<Key>, ghost indexHandle: Handle, ghost filterHandle: Handle, ghost k: nat,
              ghost indexLayout: Layout, ghost groups: seq<seq<Key>>, ghost offs: seq<nat>,
              ghost handles: seq<Handle>, ghost blocks: seq<Layout>, ghost all: seq<Pair>)
    returns (r: Optional<Table>)
    requires Complete(file, indexHandle, indexLayout, handles, blocks, all)
    requires Footed(file, built, filterHandle, indexHandle)
    requires policy.Some? && policy == built ==>
      FilterComplete(file, filterHandle, hash, k, groups, offs, handles, blocks) && filterHandle.size < TWO_32
    ensures r.Some? && r.value.Ok() && r.value.blocks == blocks
    ensures r.value.filter != null <==> policy.Some? && policy == built
    ensures Concat(PairsOf(r.value.blocks)) == all
    ensures forall key :: ScanAll(PairsOf(r.value.blocks), key) == Scan(all, key)
  {
    var index := ReadIndex(file, paranoid);
    if index.None? {
      return None;
    }
    var footer := index.value.0;
    var filter := ReadMeta(file, footer, policy, hash, paranoid, built, filterHandle, k, groups, offs,
                           handles, blocks);
    var t := new Table(file, index.value.1, filter, verify, handles, blocks, indexLayout, k, groups, offs);
    forall key ensures ScanAll(PairsOf(blocks), key) == Scan(all, key) {
      ScanConcat(PairsOf(blocks), key);
    }
    r := Some(t);
  }

  /** `ReadMeta`: the filter, if the metaindex block has one under the name of the policy. */
  method ReadMeta(file: seq<Byte>, footer: Footer, policy: Optional<Key>, hash: Bloom.Hash, paranoid: bool,
                  ghost built: Optional<Key>, ghost filterHandle: Handle, ghost k: nat, ghost groups: seq<seq<Key>>,
                  ghost offs: seq<nat>, ghost handles: seq<Handle>, ghost blocks: seq<Layout>)
    returns (filter: FilterBlockReader?)
    requires Footed(file, built, filterHandle, footer.indexHandle)
    requires DecodeFooter(file[|file| - FOOTER_SIZE..]) == Some(footer)
    requires policy.Some? && policy == built ==>
      FilterComplete(file, filterHandle, hash, k, groups, offs, handles, blocks) && filterHandle.size < TWO_32
    ensures filter != null <==> policy.Some? && policy == built
    ensures filter != null ==> filter.Reads(k, groups, offs) && filter.hash == hash
  {
    if policy.None? {
      return null;
    }
    ghost var h, l, stored :| MetaAt(file, h, l, stored, built, filterHandle)
      && DecodeFooter(file[|file| - FOOTER_SIZE..]) == Some(Footer(h, footer.indexHandle));
    var contents := ReadBlock(file, footer.metaindexHandle, paranoid);
    if contents.None? {
      return null;
    }
    BytesLessIsOrder();
    var key := MetaKey(policy.value);
    var pair;
    ghost var p;
    pair, p := SeekPair(BytesLess, contents.value, l, key);
    MetaFound(l.pairs, built, filterHandle, policy.value, p);
    if pair.None? || pair.value.key != key {
      return null;
    }
    HandleRoundTrip(filterHandle);
    var handle := DecodeHandle(pair.value.value);
    if handle.None? {
      return null;
    }
    filter := OpenFilter(file, handle.value, hash, paranoid, k, groups, offs, handles, blocks);
  }

  /** Seeking the name of a policy in the metaindex block comes to its entry just if that is there. */
  lemma MetaFound(pairs: seq<Pair>, built: Optional<Key>, filterHandle: Handle, policy: Key, p: nat)
    requires pairs == MetaPairs(built, filterHandle) && IsFirstFrom(BytesLess, pairs, MetaKey(policy), p)
    ensures p < |pairs| && pairs[p].key == MetaKey(policy) <==> built == Some(policy)
    ensures built == Some(policy) ==> pairs[p].value == EncodeHandle(filterHandle)
  {
    if built.Some? {
      Irreflexive(MetaKey(policy));
      SameName(built.value, policy);
      assert p == 1 ==> BytesLess(pairs[0].key, MetaKey(policy));
    }
  }

  lemma SameName(a: Key, b: Key)
    ensures MetaKey(a) == MetaKey(b) <==> a == b
  {
    assert MetaKey(a)[|FILTER_PREFIX|..] == a && MetaKey(b)[|FILTER_PREFIX|..] == b;
  }

  /** `ReadFilter`. */
  method OpenFilter(file: seq<Byte>, h: Handle, hash: Bloom.Hash, verify: bool, ghost k: nat,
                    ghost groups: seq<seq<Key>>,
                    ghost offs: seq<nat>, ghost handles: seq<Handle>, ghost blocks: seq<Layout>)
    returns (filter: FilterBlockReader)
    requires FilterComplete(file, h, hash, k, groups, offs, handles, blocks) && h.size < TWO_32
    ensures filter.Reads(k, groups, offs) && filter.hash == hash
  {
    ghost var stored :| BlockAt(file, h, stored) && IsFilterBlock(hash, k, groups, offs, stored);
    var contents := ReadBlock(file, h, verify);
    assert contents.value == stored;
    filter := new FilterBlockReader(hash, contents.value);
    ReaderReads(filter, contents.value, k, groups, offs);
  }
}
