/**
 The filter block of a table (`table/filter_block.cc`) with the Bloom policy on user keys: one filter
 for every 2 KB of block offsets.
*/
module FilterBlocks {
  import opened Coding
  import opened Blocks
  import opened Comparators
  import Bloom
  import opened Sequences

  const BASE_LG: Byte := 11
  const BASE: nat := 2048

  function Users(keys: seq<Key>): (s: seq<Key>)
    requires forall k | k in keys :: |k| >= TAG_SIZE
    ensures |s| == |keys| && forall i | 0 <= i < |keys| :: s[i] == UserOf(keys[i])
  {
    seq(|keys|, i requires 0 <= i < |keys| => UserOf(keys[i]))
  }

  ghost predicate Internal(keys: seq<Key>) {
    forall k | k in keys :: |k| >= TAG_SIZE
  }

  /** The string is the filter for some keys; none is needed for no keys. */
  ghost predicate FilterFor(hash: Bloom.Hash, k: nat, keys: seq<Key>, filter: seq<Byte>) {
    Internal(keys) && if keys == [] then filter == [] else Bloom.IsFilter(hash, Users(keys), k, filter)
  }

  /** Filters one after the other, `offs[i]` where filter `i` starts. */
  ghost predicate Filters(hash: Bloom.Hash, k: nat, groups: seq<seq<Key>>, offs: seq<nat>, data: seq<Byte>) {
    && |offs| == |groups| + 1
    && (forall i {:trigger FilterAt(hash, k, groups, offs, data, i)} | 0 <= i < |groups| ::
          FilterAt(hash, k, groups, offs, data, i))
  }

  ghost predicate FilterAt(hash: Bloom.Hash, k: nat, groups: seq<seq<Key>>, offs: seq<nat>, data: seq<Byte>, i: nat)
    requires i < |groups| && |offs| == |groups| + 1
  {
    offs[i] <= offs[i + 1] <= |data| && FilterFor(hash, k, groups[i], data[offs[i]..offs[i + 1]])
  }

  /** Keys stored end to end, `start[i]` where key `i` starts. */
  ghost predicate Flattened(keys: seq<Byte>, start: seq<nat>, list: seq<Key>) {
    && |start| == |list|
    && (forall i {:trigger KeyAt(keys, start, list, i)} | 0 <= i < |list| :: KeyAt(keys, start, list, i))
  }

  function EndOf(keys: seq<Byte>, start: seq<nat>, i: nat): nat
    requires i < |start|
  {
    if i + 1 < |start| then start[i + 1] else |keys|
  }

  ghost predicate KeyAt(keys: seq<Byte>, start: seq<nat>, list: seq<Key>, i: nat)
    requires i < |list| == |start|
  {
    start[i] <= EndOf(keys, start, i) <= |keys| && keys[start[i]..EndOf(keys, start, i)] == list[i]
  }

  lemma FlattenedMore(keys: seq<Byte>, start: seq<nat>, list: seq<Key>, key: Key)
    requires Flattened(keys, start, list)
    ensures Flattened(keys + key, start + [|keys|], list + [key])
  {
    forall i | 0 <= i <= |list| ensures KeyAt(keys + key, start + [|keys|], list + [key], i) {
      if i < |list| {
        assert KeyAt(keys, start, list, i);
        assert (keys + key)[start[i]..EndOf(keys, start, i)] == keys[start[i]..EndOf(keys, start, i)];
      } else {
        assert (keys + key)[|keys|..] == key;
      }
    }
  }

  lemma FiltersMore(hash: Bloom.Hash, k: nat, groups: seq<seq<Key>>, offs: seq<nat>, data: seq<Byte>, keys: seq<Key>,
                    filter: seq<Byte>)
    requires Filters(hash, k, groups, offs, data) && offs[|groups|] == |data| && FilterFor(hash, k, keys, filter)
    ensures Filters(hash, k, groups + [keys], offs + [|data| + |filter|], data + filter)
  {
    var groups', offs', data' := groups + [keys], offs + [|data| + |filter|], data + filter;
    forall i | 0 <= i < |groups'| ensures FilterAt(hash, k, groups', offs', data', i) {
      if i < |groups| {
        assert FilterAt(hash, k, groups, offs, data, i);
        assert data'[offs[i]..offs[i + 1]] == data[offs[i]..offs[i + 1]];
      } else {
        assert offs'[i] == |data| && offs'[i + 1] == |data| + |filter|;
        SliceAppended(data, filter);
      }
    }
  }

  class FilterBlockBuilder {
    const hash: Bloom.Hash
    const bitsPerKey: nat
    const k: nat
    var keys: seq<Byte>
    var start: seq<nat>
    var result: seq<Byte>
    var filterOffsets: seq<nat>
    ghost var groups: seq<seq<Key>>
    ghost var pending: seq<Key>

    ghost predicate Valid()
      reads this
    {
      && 1 <= k <= 30 && |filterOffsets| == |groups| && Internal(pending)
      && Filters(hash, k, groups, filterOffsets + [|result|], result)
      && Flattened(keys, start, pending)
    }

    /** The keys that filter `i` is for: those added since block offsets reached `i * BASE`. */
    ghost function KeysAt(i: nat): seq<Key>
      reads this
    {
      if i < |groups| then groups[i] else if i == |groups| then pending else []
    }

    constructor (hash: Bloom.Hash, bitsPerKey: nat, k: nat)
      requires 1 <= k <= 30
      ensures Valid() && groups == [] && pending == []
      ensures this.hash == hash && this.k == k && this.bitsPerKey == bitsPerKey
    {
      this.hash, this.bitsPerKey, this.k := hash, bitsPerKey, k;
      keys, start, result, filterOffsets, groups, pending := [], [], [], [], [], [];
    }

    method AddKey(key: Key)
      requires Valid() && |key| >= TAG_SIZE
      modifies this
      ensures Valid() && groups == old(groups) && pending == old(pending) + [key]
    {
      FlattenedMore(keys, start, pending, key);
      start := start + [|keys|];
      keys := keys + key;
      pending := pending + [key];
    }

    /** `StartBlock`: filters up to that of the block's offset are generated. */
    method StartBlock(blockOffset: nat)
      requires Valid() && blockOffset / BASE >= |groups|
      modifies this
      ensures Valid() && |groups| == blockOffset / BASE
      ensures forall i: nat :: KeysAt(i) == old(KeysAt(i))
    {
      var filterIndex := blockOffset / BASE;
      while filterIndex > |filterOffsets|
        invariant Valid() && |groups| <= filterIndex
        invariant forall i: nat :: KeysAt(i) == old(KeysAt(i))
        decreases filterIndex - |groups|
      {
        GenerateFilter();
      }
    }

    method GenerateFilter()
      requires Valid()
      modifies this
      ensures Valid() && groups == old(groups) + [old(pending)] && pending == []
    {
      ghost var filter: seq<Byte> := [];
      var newResult := result;
      if |start| > 0 {
        var tmpKeys := ListKeys();
        newResult := Bloom.CreateFilter(hash, bitsPerKey, k, tmpKeys, result);
        filter := newResult[|result|..];
        assert newResult == result + filter;
      } else {
        assert result + filter == result;
      }
      FiltersMore(hash, k, groups, filterOffsets + [|result|], result, pending, filter);
      filterOffsets := filterOffsets + [|result|];
      result := newResult;
      keys, start := [], [];
      groups, pending := groups + [pending], [];
    }

    /** The list of keys made from the flattened ones, cut to their user keys by the internal filter policy. */
    method ListKeys() returns (list: seq<Key>)
      requires Valid()
      ensures list == Users(pending)
    {
      list := [];
      var i := 0;
      while i < |start|
        invariant i <= |start| && |list| == i && forall j | 0 <= j < i :: list[j] == UserOf(pending[j])
      {
        assert KeyAt(keys, start, pending, i) && pending[i] in pending;
        var limit := if i + 1 < |start| then start[i + 1] else |keys|;
        var key := keys[start[i]..limit];
        list := list + [UserOf(key)];
        i := i + 1;
      }
    }

    /** `Finish`: the filters, the array of their offsets, its offset, and the base. */
    method Finish() returns (contents: seq<Byte>, ghost offs: seq<nat>)
      requires Valid()
      modifies this
      ensures forall i: nat :: KeysAt(i) == old(KeysAt(i))
      ensures |groups| >= |old(groups)| && (|groups| == |old(groups)| ==> old(pending) == [])
      ensures IsFilterBlock(hash, k, groups, offs, contents)
    {
      if |start| != 0 {
        GenerateFilter();
      }
      var arrayOffset := |result|;
      ghost var data := result;
      offs := filterOffsets + [|result|];
      result := PutWords(result, filterOffsets);
      ghost var before := result;
      result := result + Fixed(arrayOffset, 4);
      result := result + [BASE_LG];
      contents := result;
      FilterFinished(hash, k, groups, offs, data, before, filterOffsets, contents);
    }
  }

  // ---------- reading ----------

  /** A finished filter block; the offset of the array serves as the end of the last filter. */
  ghost predicate IsFilterBlock(hash: Bloom.Hash, k: nat, groups: seq<seq<Key>>, offs: seq<nat>, contents: seq<Byte>) {
    && Filters(hash, k, groups, offs, contents)
    && |contents| == offs[|groups|] + 4 * |groups| + 5 && contents[|contents| - 1] == BASE_LG
    && (forall i {:trigger WordAt(contents, offs[|groups|], offs, i)} | 0 <= i <= |groups| ::
          WordAt(contents, offs[|groups|], offs, i))
  }

  lemma FilterFinished(hash: Bloom.Hash, k: nat, groups: seq<seq<Key>>, offs: seq<nat>, data: seq<Byte>,
                       before: seq<Byte>,
                 offsets: seq<nat>, contents: seq<Byte>)
    requires Filters(hash, k, groups, offs, data) && offs[|groups|] == |data| && data <= before
    requires |before| == |data| + 4 * |groups| && offs == offsets + [|data|]
    requires forall j {:trigger WordAt(before, |data|, offsets, j)} | 0 <= j < |groups| ::
      WordAt(before, |data|, offsets, j)
    requires contents == before + Fixed(|data|, 4) + [BASE_LG]
    ensures IsFilterBlock(hash, k, groups, offs, contents)
  {
    forall i | 0 <= i < |groups| ensures FilterAt(hash, k, groups, offs, contents, i) {
      assert FilterAt(hash, k, groups, offs, data, i);
      assert contents[offs[i]..offs[i + 1]] == data[offs[i]..offs[i + 1]];
    }
    forall i | 0 <= i <= |groups| ensures WordAt(contents, |data|, offs, i) {
      if i < |groups| {
        assert WordAt(before, |data|, offsets, i);
        WordsIn(before, contents, |data|, offsets, i);
      } else {
        assert contents[|before|..|before| + 4] == Fixed(|data|, 4);
      }
    }
  }

  lemma {:induction false} FilterWithin(hash: Bloom.Hash, k: nat, groups: seq<seq<Key>>, offs: seq<nat>,
                                        data: seq<Byte>,
                                        i: nat, j: nat)
    requires Filters(hash, k, groups, offs, data) && i <= j <= |groups|
    ensures offs[i] <= offs[j]
    decreases j
  {
    if i < j {
      assert FilterAt(hash, k, groups, offs, data, j - 1);
      FilterWithin(hash, k, groups, offs, data, i, j - 1);
    }
  }

  lemma OffsetRead(hash: Bloom.Hash, k: nat, groups: seq<seq<Key>>, offs: seq<nat>, contents: seq<Byte>, i: nat)
    requires IsFilterBlock(hash, k, groups, offs, contents) && i <= |groups| && |contents| < TWO_32
    ensures var at := offs[|groups|] + 4 * i;
      offs[i] <= offs[|groups|] && ReadFixed(contents[at..at + 4]) == offs[i]
  {
    FilterWithin(hash, k, groups, offs, contents, i, |groups|);
    assert WordAt(contents, offs[|groups|], offs, i);
    WordRead(contents, offs[|groups|], offs, i);
  }

  class FilterBlockReader {
    const hash: Bloom.Hash
    const data: seq<Byte>
    const offset: nat
    const num: nat
    const baseLg: Byte

    /** The constructor: a string too short for a filter block has no filters. */
    constructor (hash: Bloom.Hash, contents: seq<Byte>)
      ensures this.hash == hash && Opened(contents)
    {
      this.hash, data, offset, num, baseLg := hash, [], 0, 0, 0;
      if |contents| >= 5 {
        var n := |contents|;
        var lastWord := ReadFixed(contents[n - 5..n - 1]);
        if lastWord <= n - 5 {
          data, offset, num, baseLg := contents, lastWord, (n - 5 - lastWord) / 4, contents[n - 1];
        }
      }
    }

    /** What the constructor took from `contents`. */
    predicate Opened(contents: seq<Byte>) {
      var n := |contents|;
      if n < 5 || ReadFixed(contents[n - 5..n - 1]) > n - 5 then
        num == 0
      else
        && data == contents && offset == ReadFixed(contents[n - 5..n - 1])
        && num == (n - 5 - offset) / 4 && baseLg == contents[n - 1]
    }

    /** It reads the filters of a finished block. */
    ghost predicate Reads(k: nat, groups: seq<seq<Key>>, offs: seq<nat>) {
      && IsFilterBlock(hash, k, groups, offs, data) && |data| < TWO_32
      && offset == offs[|groups|] && num == |groups| && baseLg == BASE_LG
    }

    method ReadOffset(index: nat, ghost k: nat, ghost groups: seq<seq<Key>>, ghost offs: seq<nat>) returns (r: nat)
      requires Reads(k, groups, offs) && index <= num
      ensures r == offs[index] <= offset
    {
      OffsetRead(hash, k, groups, offs, data, index);
      r := ReadFixed(data[offset + 4 * index..offset + 4 * index + 4]);
    }

    /** `KeyMayMatch` for the block at an offset: the answer of its filter, yes beyond the last filter. */
    method KeyMayMatch(blockOffset: nat, key: Key, ghost k: nat, ghost groups: seq<seq<Key>>, ghost offs: seq<nat>)
      returns (r: bool)
      requires Reads(k, groups, offs) && |key| >= TAG_SIZE
      ensures blockOffset / BASE >= |groups| ==> r
      ensures blockOffset / BASE < |groups| ==> r == MatchesAt(hash, data, offs, blockOffset / BASE, key)
    {
      BaseShift();
      var index := blockOffset / Pow2(baseLg);
      if index < num {
        assert FilterAt(hash, k, groups, offs, data, index);
        var start := ReadOffset(index, k, groups, offs);
        var limit := ReadOffset(index + 1, k, groups, offs);
        if start <= limit && limit <= offset {
          r := Bloom.KeyMayMatch(hash, UserOf(key), data[start..limit]);
          return;
        } else if start == limit {
          return false;
        }
      }
      return true;
    }
  }

  /** The answer of filter `i`. */
  ghost predicate MatchesAt(hash: Bloom.Hash, data: seq<Byte>, offs: seq<nat>, i: nat, key: Key) {
    i + 1 < |offs| && offs[i] <= offs[i + 1] <= |data| && |key| >= TAG_SIZE
    && Bloom.Matches(hash, UserOf(key), data[offs[i]..offs[i + 1]])
  }

  lemma BaseShift()
    ensures Pow2(11) == BASE
  {
    assert Pow2(3) == 8 && Pow2(6) == 64 && Pow2(9) == 512;
  }

  /** A reader of a finished filter block has its parameters right. */
  lemma ReaderReads(reader: FilterBlockReader, contents: seq<Byte>, k: nat, groups: seq<seq<Key>>, offs: seq<nat>)
    requires IsFilterBlock(reader.hash, k, groups, offs, contents) && |contents| < TWO_32
    requires reader.Opened(contents)
    ensures reader.Reads(k, groups, offs)
  {
    var n, m := |contents|, offs[|groups|];
    OffsetRead(reader.hash, k, groups, offs, contents, |groups|);
    assert m + 4 * |groups| == n - 5;
    assert contents[m + 4 * |groups|..m + 4 * |groups| + 4] == contents[n - 5..n - 1];
  }

  /** A key added while its block was being written is never rejected for that block. */
  lemma NeverRejects(hash: Bloom.Hash, k: nat, groups: seq<seq<Key>>, offs: seq<nat>, data: seq<Byte>, i: nat, key: Key)
    requires Filters(hash, k, groups, offs, data) && i < |groups| && key in groups[i]
    ensures MatchesAt(hash, data, offs, i, key)
  {
    assert FilterAt(hash, k, groups, offs, data, i);
    var j :| 0 <= j < |groups[i]| && groups[i][j] == key;
    assert Users(groups[i])[j] == UserOf(key);
    Bloom.KeyMatches(hash, Users(groups[i]), k, data[offs[i]..offs[i + 1]], UserOf(key));
  }
}
