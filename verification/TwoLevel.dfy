/**
 `TwoLevelIterator` (`table/two_level_iterator.cc`): an index of blocks and the blocks themselves
 behind one cursor.  A table is such an index, and so is a sorted level of files.
*/
module TwoLevelIterators {
  import opened InternalKeys
  import opened Runs
  import opened Cursors

  /** The entries of all blocks, one after the other. */
  function Concat(blocks: seq<seq<Entry>>): seq<Entry> {
    if blocks == [] then [] else Concat(blocks[..|blocks| - 1]) + blocks[|blocks| - 1]
  }

  /** Where block `i` starts in the concatenation. */
  function Offset(blocks: seq<seq<Entry>>, i: nat): nat
    requires i <= |blocks|
  {
    |Concat(blocks[..i])|
  }

  lemma OffsetNext(blocks: seq<seq<Entry>>, i: nat)
    requires i < |blocks|
    ensures Offset(blocks, i + 1) == Offset(blocks, i) + |blocks[i]|
  {
    assert blocks[..i + 1][..i] == blocks[..i];
  }

  lemma OffsetEnds(blocks: seq<seq<Entry>>)
    ensures Offset(blocks, 0) == 0 && Offset(blocks, |blocks|) == |Concat(blocks)|
  {
    assert blocks[..|blocks|] == blocks;
  }

  lemma {:induction false} OffsetGrows(blocks: seq<seq<Entry>>, i: nat, j: nat)
    requires i <= j <= |blocks|
    ensures Offset(blocks, i) <= Offset(blocks, j)
    decreases j - i
  {
    if i < j {
      OffsetNext(blocks, j - 1);
      OffsetGrows(blocks, i, j - 1);
    }
  }

  lemma {:induction false} ConcatPrefix(blocks: seq<seq<Entry>>, i: nat)
    requires i <= |blocks|
    ensures Offset(blocks, i) <= |Concat(blocks)| && Concat(blocks)[..Offset(blocks, i)] == Concat(blocks[..i])
    decreases |blocks|
  {
    if i == |blocks| {
      assert blocks[..i] == blocks;
    } else {
      var rest := blocks[..|blocks| - 1];
      ConcatPrefix(rest, i);
      assert rest[..i] == blocks[..i];
    }
  }

  /** Entry `q` of block `i` in the concatenation. */
  lemma ConcatAt(blocks: seq<seq<Entry>>, i: nat, q: nat)
    requires i < |blocks| && q < |blocks[i]|
    ensures Offset(blocks, i) + q < |Concat(blocks)| && Concat(blocks)[Offset(blocks, i) + q] == blocks[i][q]
  {
    ConcatPrefix(blocks, i + 1);
    assert blocks[..i + 1][..i] == blocks[..i];
    var c := Concat(blocks[..i + 1]);
    assert c == Concat(blocks[..i]) + blocks[i];
    assert c[Offset(blocks, i) + q] == blocks[i][q];
    assert c[Offset(blocks, i) + q] == Concat(blocks)[..Offset(blocks, i + 1)][Offset(blocks, i) + q];
  }

  /** Every position belongs to a block. */
  lemma {:induction false} BlockOf(blocks: seq<seq<Entry>>, n: nat) returns (i: nat, q: nat)
    requires n < |Concat(blocks)|
    ensures i < |blocks| && q < |blocks[i]| && n == Offset(blocks, i) + q
    decreases |blocks|
  {
    var last := |blocks| - 1;
    var rest := blocks[..last];
    if n < |Concat(rest)| {
      i, q := BlockOf(rest, n);
      assert rest[..i] == blocks[..i];
    } else {
      i, q := last, n - |Concat(rest)|;
    }
  }

  /** Index key `i` is at or after every key of block `i`, and before every key of the next one. */
  ghost predicate Separates(index: seq<Entry>, blocks: seq<seq<Entry>>) {
    && |index| == |blocks| && Sorted(index)
    && (forall i | 0 <= i < |blocks| :: Sorted(blocks[i]))
    && (forall i | 0 <= i < |blocks| :: AtMost(blocks[i], index[i].key))
    && (forall i, j {:trigger Above(blocks[j], index[i].key)} | 0 <= i < j < |blocks| :: Above(blocks[j], index[i].key))
  }

  ghost predicate AtMost(block: seq<Entry>, k: InternalKey) {
    forall q | 0 <= q < |block| :: !Before(k, block[q].key)
  }

  ghost predicate Above(block: seq<Entry>, k: InternalKey) {
    forall q | 0 <= q < |block| :: Before(k, block[q].key)
  }

  /** Where seeking the index, and then the block it names, leads to. */
  function SeekPos(index: seq<Entry>, blocks: seq<seq<Entry>>, k: InternalKey): nat
    requires |index| == |blocks|
  {
    var i := LowerBound(index, k);
    Offset(blocks, i) + if i < |blocks| then LowerBound(blocks[i], k) else 0
  }

  lemma SeekSplits(index: seq<Entry>, blocks: seq<seq<Entry>>, k: InternalKey, j: nat, q: nat)
    requires Separates(index, blocks) && j < |blocks| && q < |blocks[j]|
    ensures Offset(blocks, j) + q < SeekPos(index, blocks, k) <==> Before(blocks[j][q].key, k)
  {
    var i := LowerBound(index, k);
    OffsetNext(blocks, j);
    if j < i {
      OffsetGrows(blocks, j + 1, i);
      assert AtMost(blocks[j], index[j].key) && Before(index[j].key, k);
    } else if i < j {
      OffsetNext(blocks, i);
      OffsetGrows(blocks, i + 1, j);
      assert Above(blocks[j], index[i].key) && !Before(index[i].key, k);
    } else {
      LowerBoundSplits(blocks[i], k);
    }
  }

  /** It is the place to seek in the concatenation. */
  lemma SeekBlock(index: seq<Entry>, blocks: seq<seq<Entry>>, k: InternalKey)
    requires Separates(index, blocks)
    ensures LowerBound(Concat(blocks), k) == SeekPos(index, blocks, k)
  {
    var all, p := Concat(blocks), SeekPos(index, blocks, k);
    forall n | 0 <= n < |all| ensures n < p <==> Before(all[n].key, k) {
      var j, q := BlockOf(blocks, n);
      ConcatAt(blocks, j, q);
      SeekSplits(index, blocks, k, j, q);
    }
    SeekInside(index, blocks, k);
    LowerBoundUnique(all, k, p);
  }

  lemma SeekInside(index: seq<Entry>, blocks: seq<seq<Entry>>, k: InternalKey)
    requires |index| == |blocks|
    ensures SeekPos(index, blocks, k) <= |Concat(blocks)|
  {
    var i := LowerBound(index, k);
    OffsetEnds(blocks);
    if i < |blocks| {
      OffsetNext(blocks, i);
      OffsetGrows(blocks, i + 1, |blocks|);
    }
  }

  // ---------- the iterator ----------

  class TwoLevelIterator {
    const index: Cursor
    /** The block function: the entries behind a block handle. */
    const blockAt: Bytes -> seq<Entry>
    var data: Cursor?
    var handle: Bytes
    /** The cursor this iterator stands for: a position in the concatenation of the blocks. */
    ghost const blocks: seq<seq<Entry>>
    ghost var pos: nat

    ghost predicate BlocksOk() {
      && Separates(index.entries, blocks)
      && forall i | 0 <= i < |blocks| :: blockAt(index.entries[i].value) == blocks[i]
    }

    /** The data iterator, if any, is on the block it was opened for. */
    ghost predicate Parts()
      reads this, index, data
    {
      && BlocksOk() && index.Ok()
      && (data != null ==> data != index && data.Ok() && data.entries == blockAt(handle))
    }

    ghost predicate OnBlock()
      reads this, index, data
    {
      Parts() && data != null && index.Valid() && data.entries == blocks[index.pos]
    }

    ghost predicate Ok()
      reads this, index, data
    {
      && Parts()
      && (if Valid() then OnBlock() && pos == Offset(blocks, index.pos) + data.pos else pos == |Concat(blocks)|)
    }

    constructor (index: Cursor, blockAt: Bytes -> seq<Entry>, ghost blocks: seq<seq<Entry>>)
      requires index.Ok() && Separates(index.entries, blocks)
      requires forall i | 0 <= i < |blocks| :: blockAt(index.entries[i].value) == blocks[i]
      ensures Ok() && !Valid() && this.index == index && this.blocks == blocks
    {
      this.index, this.blockAt, this.blocks := index, blockAt, blocks;
      data, handle, pos := null, [], |Concat(blocks)|;
    }

    predicate Valid()
      reads this, data
    {
      data != null && data.Valid()
    }

    /** What the user sees is the entry at `pos` of the concatenation. */
    lemma ShowsCurrent()
      requires Ok() && Valid()
      ensures pos < |Concat(blocks)| && data.entries[data.pos] == Concat(blocks)[pos]
    {
      ConcatAt(blocks, index.pos, data.pos);
    }

    /** `InitDataBlock`: the data iterator for the index position; none if that is not valid. */
    method InitDataBlock()
      requires Parts()
      modifies this`data, this`handle
      ensures Parts() && (data != null <==> index.Valid()) && (index.Valid() ==> OnBlock())
      ensures data == old(data) || data == null || fresh(data)
    {
      if !index.Valid() {
        data := null;
      } else {
        var h := index.Value();
        if data != null && h == handle {
        } else {
          assert blockAt(h) == blocks[index.pos] && Sorted(blocks[index.pos]);
          handle := h;
          data := new Cursor(blockAt(h));
        }
      }
    }

    /** The entry at `n`, or the first one of a later block if this block is used up. */
    ghost predicate Heading(n: nat)
      reads this, index, data
    {
      && Parts()
      && if data == null then !index.Valid() && n == |Concat(blocks)|
         else OnBlock() && n == Offset(blocks, index.pos) + data.pos
    }

    /** `SkipEmptyDataBlocksForward`. */
    method SkipEmptyDataBlocksForward(ghost n: nat)
      requires Heading(n)
      modifies this, index, data
      ensures Ok() && pos == n
      ensures data == old(data) || data == null || fresh(data)
    {
      OffsetEnds(blocks);
      while data == null || !data.Valid()
        invariant Heading(n)
        invariant data == old(data) || data == null || fresh(data)
        decreases |blocks| - index.pos, data != null
      {
        if !index.Valid() {
          data := null;
          pos := n;
          return;
        }
        NextBlock(n);
      }
      pos := n;
    }

    /** A turn of the loop: the next block from its first entry. */
    method NextBlock(ghost n: nat)
      requires Heading(n) && index.Valid() && data != null && !data.Valid()
      modifies this, index, data
      ensures Heading(n) && index.pos == old(index.pos) + 1
      ensures data == old(data) || data == null || fresh(data)
    {
      OffsetEnds(blocks);
      OffsetNext(blocks, index.pos);
      index.Next();
      InitDataBlock();
      if data != null {
        data.SeekToFirst();
      }
    }

    /** The entry before `n`, or the last one of an earlier block if this block has none left. */
    ghost predicate HeadingBack(n: nat)
      reads this, index, data
    {
      && Parts()
      && if data == null then !index.Valid() && n == 0
         else OnBlock() && n == Offset(blocks, index.pos) + if data.Valid() then data.pos + 1 else 0
    }

    /** `SkipEmptyDataBlocksBackward`. */
    method SkipEmptyDataBlocksBackward(ghost n: nat)
      requires HeadingBack(n) && n <= |Concat(blocks)|
      modifies this, index, data
      ensures Ok() && pos == if n == 0 then |Concat(blocks)| else n - 1
      ensures data == old(data) || data == null || fresh(data)
    {
      OffsetEnds(blocks);
      while data == null || !data.Valid()
        invariant HeadingBack(n)
        invariant data == old(data) || data == null || fresh(data)
        decreases if data == null then 0 else 1 + index.pos
      {
        if !index.Valid() {
          data := null;
          pos := |Concat(blocks)|;
          return;
        }
        PrevBlock(n);
      }
      pos := n - 1;
    }

    /** A turn of the loop: the previous block from its last entry. */
    method PrevBlock(ghost n: nat)
      requires HeadingBack(n) && index.Valid() && data != null && !data.Valid()
      modifies this, index, data
      ensures HeadingBack(n) && (data != null ==> index.pos < old(index.pos))
      ensures data == old(data) || data == null || fresh(data)
    {
      BackOneBlock(index.pos);
      index.Prev();
      InitDataBlock();
      if data != null {
        data.SeekToLast();
      }
    }

    lemma BackOneBlock(i: nat)
      requires i < |blocks|
      ensures Offset(blocks, i) == if i == 0 then 0 else Offset(blocks, i - 1) + |blocks[i - 1]|
    {
      if i == 0 {
        OffsetEnds(blocks);
      } else {
        OffsetNext(blocks, i - 1);
      }
    }

    method Seek(target: InternalKey)
      requires Parts()
      modifies this, index, data
      ensures Ok() && pos == LowerBound(Concat(blocks), target)
      ensures data == old(data) || data == null || fresh(data)
    {
      SeekBlock(index.entries, blocks, target);
      OffsetEnds(blocks);
      index.Seek(target);
      InitDataBlock();
      if data != null {
        data.Seek(target);
      }
      SkipEmptyDataBlocksForward(SeekPos(index.entries, blocks, target));
    }

    method SeekToFirst()
      requires Parts()
      modifies this, index, data
      ensures Ok() && pos == 0
      ensures data == old(data) || data == null || fresh(data)
    {
      OffsetEnds(blocks);
      index.SeekToFirst();
      InitDataBlock();
      if data != null {
        data.SeekToFirst();
      }
      SkipEmptyDataBlocksForward(0);
    }

    method SeekToLast()
      requires Parts()
      modifies this, index, data
      ensures Ok() && pos == if Concat(blocks) == [] then 0 else |Concat(blocks)| - 1
      ensures data == old(data) || data == null || fresh(data)
    {
      OffsetEnds(blocks);
      index.SeekToLast();
      if index.Valid() {
        OffsetNext(blocks, index.pos);
      }
      InitDataBlock();
      if data != null {
        data.SeekToLast();
      }
      SkipEmptyDataBlocksBackward(|Concat(blocks)|);
    }

    method Next()
      requires Ok() && Valid()
      modifies this, index, data
      ensures Ok() && pos == old(pos) + 1
      ensures data == old(data) || data == null || fresh(data)
    {
      ghost var n := pos + 1;
      data.Next();
      SkipEmptyDataBlocksForward(n);
    }

    method Prev()
      requires Ok() && Valid()
      modifies this, index, data
      ensures Ok() && pos == if old(pos) == 0 then |Concat(blocks)| else old(pos) - 1
      ensures data == old(data) || data == null || fresh(data)
    {
      ghost var n := pos;
      ShowsCurrent();
      data.Prev();
      SkipEmptyDataBlocksBackward(n);
    }
  }
}
