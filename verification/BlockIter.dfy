/**
 `Block::Iter` (`table/block.cc`): a cursor on the entries of a finished block that stores no entry
 but the current one.
*/
module BlockIterators {
  import opened Coding
  import opened Blocks
  import opened InternalKeys
  import opened Sequences

  ghost predicate SortedBy(less: Less, pairs: seq<Pair>) {
    forall i, j | 0 <= i < j < |pairs| :: less(pairs[i].key, pairs[j].key)
  }

  /** The first entry at or after `target`. */
  ghost predicate IsFirstFrom(less: Less, pairs: seq<Pair>, target: Key, p: nat) {
    && p <= |pairs|
    && (forall i | 0 <= i < p :: less(pairs[i].key, target))
    && (forall i | p <= i < |pairs| :: !less(pairs[i].key, target))
  }

  // ---------- what the bytes say ----------

  lemma OffsOrder(data: seq<Byte>, l: Layout, i: nat, j: nat)
    requires Laid(data, l) && i <= |l.pairs| && j <= |l.pairs|
    ensures l.offs[i] < l.offs[j] <==> i < j
    ensures l.offs[i] == l.offs[j] <==> i == j
  {
    if i < j {
      OffsGrow(data, l, i, j);
    } else if j < i {
      OffsGrow(data, l, j, i);
    }
  }

  /** The bytes between the header of entry `p` and the end of the entries. */
  function Tail(data: seq<Byte>, l: Layout, p: nat): seq<Byte>
    requires Shaped(l) && p < |l.pairs| && l.offs[p + 1] <= l.offs[|l.pairs|] <= |data|
      && l.shared[p] <= |l.pairs[p].key|
  {
    l.pairs[p].key[l.shared[p]..] + l.pairs[p].value + data[l.offs[p + 1]..l.offs[|l.pairs|]]
  }

  lemma EntryRead(data: seq<Byte>, l: Layout, p: nat)
    requires Laid(data, l) && p < |l.pairs|
    ensures l.offs[p] < l.offs[p + 1] <= l.offs[|l.pairs|] <= |data|
    ensures EntryAt(data, l, p)
    ensures DecodeEntry(data[l.offs[p]..l.offs[|l.pairs|]]) ==
      Header(l.shared[p], |l.pairs[p].key| - l.shared[p], |l.pairs[p].value|, Tail(data, l, p))
  {
    var n := |l.pairs|;
    assert EntryAt(data, l, p) && EntryAt(data, l, n - 1);
    OffsOrder(data, l, p + 1, n);
    EntryDecoded(l.shared[p], l.pairs[p].key, l.pairs[p].value, data[l.offs[p + 1]..l.offs[n]]);
    assert data[l.offs[p]..l.offs[n]] == data[l.offs[p]..l.offs[p + 1]] + data[l.offs[p + 1]..l.offs[n]];
    Regroup3(l.pairs[p].key[l.shared[p]..], l.pairs[p].value, data[l.offs[p + 1]..l.offs[n]]);
  }

  /** Key delta and value of entry `p` in the bytes behind its header. */
  lemma TailParts(data: seq<Byte>, l: Layout, p: nat, tail: seq<Byte>)
    requires Laid(data, l) && p < |l.pairs| && l.offs[p + 1] <= l.offs[|l.pairs|] <= |data| && EntryAt(data, l, p)
    requires tail == Tail(data, l, p)
    ensures var d, v, m := |l.pairs[p].key| - l.shared[p], |l.pairs[p].value|, l.offs[|l.pairs|];
      && d + v <= |tail| <= m && tail[..d] == l.pairs[p].key[l.shared[p]..] && tail[d..d + v] == l.pairs[p].value
      && m - |tail| + d + v == l.offs[p + 1]
      && data[m - |tail| + d..m - |tail| + d + v] == l.pairs[p].value
  {
    var key, value, s := l.pairs[p].key, l.pairs[p].value, l.shared[p];
    var entry := EncodeEntry(s, key, value);
    var m := l.offs[|l.pairs|];
    assert |tail| == |key| - s + |value| + m - l.offs[p + 1];
    assert entry[|entry| - |value|..] == value;
    assert data[l.offs[p + 1] - |value|..l.offs[p + 1]] == data[l.offs[p]..l.offs[p + 1]][|entry| - |value|..];
  }

  lemma RestartRead(data: seq<Byte>, l: Layout, j: nat)
    requires Framed(data, l) && j < |l.starts|
    ensures var m := l.offs[|l.pairs|];
      l.starts[j] <= |l.pairs| && ReadFixed(data[m + 4 * j..m + 4 * j + 4]) == l.offs[l.starts[j]]
  {
    var m, at := l.offs[|l.pairs|], l.offs[l.starts[j]];
    OffsOrder(data, l, l.starts[j], |l.pairs|);
    Pow256Of4And8();
    FixedRoundTrip(at, 4);
    assert data[m + 4 * j..m + 4 * j + 4] == Fixed(at, 4);
  }

  lemma CountRead(data: seq<Byte>, l: Layout)
    requires Framed(data, l)
    ensures ReadFixed(data[|data| - 4..]) == |l.starts|
  {
    Pow256Of4And8();
    FixedRoundTrip(|l.starts|, 4);
    assert data[|data| - 4..] == data[l.offs[|l.pairs|] + 4 * |l.starts|..];
  }

  // ---------- the iterator ----------

  class BlockIter {
    const less: Less
    const data: seq<Byte>
    const restarts: nat
    const numRestarts: nat
    ghost const l: Layout
    var current: nat
    var restartIndex: nat
    var key: Key
    var value: (nat, nat)

    ghost predicate Ok() {
      && Framed(data, l) && restarts == l.offs[|l.pairs|] && numRestarts == |l.starts|
      && StrictTotalOrder(less) && SortedBy(less, l.pairs)
    }

    /** The iterator is on entry `p`, or past the end. */
    ghost predicate At(p: nat)
      requires Ok()
      reads this
    {
      && p <= |l.pairs| && current == l.offs[p]
      && (p < |l.pairs| ==>
            && key == l.pairs[p].key && Holds(value, p)
            && restartIndex < numRestarts && l.starts[restartIndex] <= p
            && (restartIndex + 1 < numRestarts ==> p <= l.starts[restartIndex + 1]))
    }

    /** `v`, an offset and a length, is the place of the value of entry `p`. */
    ghost predicate Holds(v: (nat, nat), p: nat)
      requires Ok() && p < |l.pairs|
    {
      v.0 + v.1 == l.offs[p + 1] <= |data| && data[v.0..v.0 + v.1] == l.pairs[p].value
    }

    constructor (less: Less, contents: seq<Byte>, ghost l: Layout)
      requires Framed(contents, l) && StrictTotalOrder(less) && SortedBy(less, l.pairs)
      ensures Ok() && At(|l.pairs|) && this.l == l && this.data == contents && this.less == less
    {
      CountRead(contents, l);
      var n := ReadFixed(contents[|contents| - 4..]);
      this.less, this.data, this.l, numRestarts := less, contents, l, n;
      restarts := |contents| - (1 + n) * 4;
      current, restartIndex := |contents| - (1 + n) * 4, n;
      key, value := [], (0, 0);
    }

    predicate Valid()
      reads this
    {
      current < restarts
    }

    /** On an entry the iterator is valid and shows it. */
    lemma Shows(p: nat)
      requires Ok() && At(p)
      ensures Valid() <==> p < |l.pairs|
      ensures Valid() ==> key == l.pairs[p].key && value.0 + value.1 <= |data|
                          && data[value.0..value.0 + value.1] == l.pairs[p].value
    {
      OffsOrder(data, l, p, |l.pairs|);
    }

    function GetRestartPoint(index: nat): (r: nat)
      requires Ok() && index < numRestarts
      ensures r == l.offs[l.starts[index]] && l.starts[index] <= |l.pairs|
    {
      RestartRead(data, l, index);
      ReadFixed(data[restarts + 4 * index..restarts + 4 * index + 4])
    }

    function NextEntryOffset(): nat
      reads this
    {
      value.0 + value.1
    }

    /** The next parse is that of entry `p`. */
    ghost predicate Ready(p: nat)
      requires Ok()
      reads this
    {
      && p <= |l.pairs| && NextEntryOffset() == l.offs[p]
      && restartIndex < numRestarts && l.starts[restartIndex] <= p
      && (p < |l.pairs| ==> l.shared[p] <= |key| && l.shared[p] <= |l.pairs[p].key|
                            && key[..l.shared[p]] == l.pairs[p].key[..l.shared[p]])
    }

    method SeekToRestartPoint(index: nat)
      requires Ok() && index < numRestarts
      modifies this
      ensures Ready(l.starts[index]) && restartIndex == index
    {
      key, restartIndex := [], index;
      value := (GetRestartPoint(index), 0);
      assert l.pairs != [] ==> l.shared[l.starts[index]] == 0;
    }

    /** After an entry the next one can be parsed. */
    lemma ReadyNext(p: nat)
      requires Ok() && At(p) && p < |l.pairs|
      ensures Ready(p + 1)
    {
      if p + 1 < |l.pairs| {
        assert EntryAt(data, l, p + 1);
      }
    }

    method ParseNextKey(ghost p: nat) returns (more: bool)
      requires Ok() && Ready(p)
      modifies this
      ensures At(p) && more == (p < |l.pairs|)
    {
      OffsOrder(data, l, p, |l.pairs|);
      current := NextEntryOffset();
      if current >= restarts {
        current, restartIndex := restarts, numRestarts;
        return false;
      }
      ParseEntry(p);
      more := true;
    }

    /** Parses the entry at `current`. */
    method ParseEntry(ghost p: nat)
      requires Ok() && Ready(p) && p < |l.pairs| && current == l.offs[p]
      modifies this
      ensures At(p)
    {
      EntryRead(data, l, p);
      match DecodeEntry(data[current..restarts]) {
        case Bad => assert false;
        case Header(shared, nonShared, valueLength, rest) =>
          TailParts(data, l, p, rest);
          KeyParts(l.pairs[p].key, key, shared);
          key := key[..shared] + rest[..nonShared];
          value := (restarts - |rest| + nonShared, valueLength);
          FindRestartIndex(p);
      }
    }

    /** The loop at the end of `ParseNextKey`. */
    method FindRestartIndex(ghost p: nat)
      requires Ok() && p < |l.pairs| && current == l.offs[p] && restartIndex < numRestarts
        && l.starts[restartIndex] <= p
      modifies this`restartIndex
      ensures restartIndex < numRestarts && l.starts[restartIndex] <= p
      ensures restartIndex + 1 < numRestarts ==> p <= l.starts[restartIndex + 1]
    {
      while restartIndex + 1 < numRestarts && GetRestartPoint(restartIndex + 1) < current
        invariant restartIndex < numRestarts && l.starts[restartIndex] <= p
      {
        OffsOrder(data, l, l.starts[restartIndex + 1], p);
        restartIndex := restartIndex + 1;
      }
      if restartIndex + 1 < numRestarts {
        OffsOrder(data, l, l.starts[restartIndex + 1], p);
      }
    }

    /** `ParseNextKey` after an entry. */
    method ParseAfter(ghost p: nat) returns (more: bool)
      requires Ok() && At(p) && p < |l.pairs|
      modifies this
      ensures At(p + 1) && more == (p + 1 < |l.pairs|)
    {
      ReadyNext(p);
      more := ParseNextKey(p + 1);
    }

    method Next(ghost p: nat)
      requires Ok() && At(p) && p < |l.pairs|
      modifies this
      ensures At(p + 1)
    {
      var _ := ParseAfter(p);
    }

    /** Scans backwards to a restart point before entry `p`; there is none before the first entry. */
    method RestartBefore(ghost p: nat) returns (found: bool)
      requires Ok() && At(p) && p < |l.pairs|
      modifies this`restartIndex
      ensures restartIndex < numRestarts
      ensures if found then l.starts[restartIndex] < p else p == 0
    {
      while GetRestartPoint(restartIndex) >= current
        invariant restartIndex < numRestarts && l.starts[restartIndex] <= p
        invariant restartIndex + 1 < numRestarts ==> p <= l.starts[restartIndex + 1]
        decreases restartIndex
      {
        OffsOrder(data, l, l.starts[restartIndex], p);
        if restartIndex == 0 {
          return false;
        }
        restartIndex := restartIndex - 1;
      }
      OffsOrder(data, l, l.starts[restartIndex], p);
      return true;
    }

    /** Goes back to a restart point and forward from there; before the first entry, past the end. */
    method Prev(ghost p: nat)
      requires Ok() && At(p) && p < |l.pairs|
      modifies this
      ensures At(if p == 0 then |l.pairs| else p - 1)
    {
      var original := current;
      var found := RestartBefore(p);
      if !found {
        current, restartIndex := restarts, numRestarts;
        return;
      }
      ParseUpTo(original, p);
    }

    /** Forward from the restart point until the current entry ends where entry `p` starts. */
    method ParseUpTo(original: nat, ghost p: nat)
      requires Ok() && p < |l.pairs| && original == l.offs[p] && restartIndex < numRestarts
        && l.starts[restartIndex] < p
      modifies this
      ensures At(p - 1)
    {
      SeekToRestartPoint(restartIndex);
      ghost var q := l.starts[restartIndex];
      var more := ParseNextKey(q);
      while more && NextEntryOffset() < original
        invariant q < p && At(q) && more
        decreases p - q
      {
        OffsOrder(data, l, q + 1, p);
        more := ParseAfter(q);
        q := q + 1;
      }
      OffsOrder(data, l, q + 1, p);
    }

    method SeekToFirst()
      requires Ok()
      modifies this
      ensures At(0)
    {
      SeekToRestartPoint(0);
      var _ := ParseNextKey(0);
    }

    method SeekToLast()
      requires Ok()
      modifies this
      ensures At(if l.pairs == [] then 0 else |l.pairs| - 1)
    {
      SeekToRestartPoint(numRestarts - 1);
      ghost var q := l.starts[numRestarts - 1];
      var more := ParseNextKey(q);
      while more && NextEntryOffset() < restarts
        invariant q <= |l.pairs| && At(q) && more == (q < |l.pairs|) && (l.pairs != [] ==> more)
        decreases |l.pairs| - q
      {
        OffsOrder(data, l, q + 1, |l.pairs|);
        more := ParseAfter(q);
        q := q + 1;
      }
      if more {
        OffsOrder(data, l, q + 1, |l.pairs|);
      }
    }

    /** The key at a restart point, all of which is in its entry. */
    method RestartKey(index: nat) returns (k: Key)
      requires Ok() && index < numRestarts && l.pairs != []
      ensures k == l.pairs[l.starts[index]].key
    {
      var regionOffset := GetRestartPoint(index);
      EntryRead(data, l, l.starts[index]);
      match DecodeEntry(data[regionOffset..restarts]) {
        case Bad => assert false;
        case Header(shared, nonShared, valueLength, rest) =>
          TailParts(data, l, l.starts[index], rest);
          k := rest[..nonShared];
      }
    }

    /** Binary search among the restart points, then linear search for the first key at or after `target`. */
    method Seek(target: Key) returns (ghost p: nat)
      requires Ok()
      modifies this
      ensures IsFirstFrom(less, l.pairs, target, p) && At(p)
    {
      var left, right := 0, numRestarts - 1;
      while left < right
        invariant left <= right < numRestarts
        invariant left > 0 ==> less(l.pairs[l.starts[left]].key, target)
      {
        var mid := (left + right + 1) / 2;
        assert l.starts[mid] < |l.pairs|;
        var midKey := RestartKey(mid);
        if less(midKey, target) {
          left := mid;
        } else {
          right := mid - 1;
        }
      }
      SeekToRestartPoint(left);
      p := l.starts[left];
      AllBefore(less, l.pairs, target, p, left);
      while true
        invariant Ready(p) && forall i | 0 <= i < p :: less(l.pairs[i].key, target)
        decreases |l.pairs| - p
      {
        var more := ParseNextKey(p);
        if !more {
          return;
        }
        if !less(key, target) {
          AllFrom(less, l.pairs, target, p);
          return;
        }
        ReadyNext(p);
        p := p + 1;
      }
    }
  }

  lemma KeyParts(key: Key, previous: Key, shared: nat)
    requires shared <= |key| && shared <= |previous| && previous[..shared] == key[..shared]
    ensures previous[..shared] + key[shared..] == key
  {
  }

  lemma AllBefore(less: Less, pairs: seq<Pair>, target: Key, p: nat, left: nat)
    requires StrictTotalOrder(less) && SortedBy(less, pairs) && p <= |pairs|
    requires if left == 0 then p == 0 else p < |pairs| && less(pairs[p].key, target)
    ensures forall i | 0 <= i < p :: less(pairs[i].key, target)
  {
  }

  lemma AllFrom(less: Less, pairs: seq<Pair>, target: Key, p: nat)
    requires StrictTotalOrder(less) && SortedBy(less, pairs) && p < |pairs| && !less(pairs[p].key, target)
    ensures forall i | p <= i < |pairs| :: !less(pairs[i].key, target)
  {
    forall i | p <= i < |pairs| ensures !less(pairs[i].key, target) {
      if p < i {
        assert less(pairs[p].key, pairs[i].key);
      }
    }
  }
}
