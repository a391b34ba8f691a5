/**
 Blocks of a table (`table/block_builder.cc`, `table/block.cc`): keys share prefixes with their
 predecessor, and restart points, where nothing is shared, let a reader search.
*/
module Blocks {
  import opened Coding

  type Key = seq<Byte>

  datatype Pair = Pair(key: Key, value: seq<Byte>)

  type Less = (Key, Key) -> bool

  /** Where entry `i` starts, how much of the key before it shares, and which entries are restart points. */
  datatype Layout = Layout(pairs: seq<Pair>, offs: seq<nat>, shared: seq<nat>, starts: seq<nat>)

  // ---------- one entry ----------

  function EncodeEntry(shared: nat, key: Key, value: seq<Byte>): (s: seq<Byte>)
    requires shared <= |key|
    ensures |s| >= 3
  {
    Varint(shared) + (Varint(|key| - shared) + (Varint(|value|) + (key[shared..] + value)))
  }

  /** `DecodeEntry`: the three numbers and what follows them. */
  datatype Header = Bad | Header(shared: nat, nonShared: nat, valueLength: nat, rest: seq<Byte>)

  function Checked(shared: nat, nonShared: nat, valueLength: nat, rest: seq<Byte>): Header {
    if |rest| < (nonShared + valueLength) % TWO_32 then Bad else Header(shared, nonShared, valueLength, rest)
  }

  function DecodeEntry(s: seq<Byte>): Header {
    if |s| < 3 then Bad
    else if s[0] < 128 && s[1] < 128 && s[2] < 128 then Checked(s[0], s[1], s[2], s[3..])
    else
      match Get32(s)
      case Malformed => Bad
      case Parsed(shared, s1) =>
        match Get32(s1)
        case Malformed => Bad
        case Parsed(nonShared, s2) =>
          match Get32(s2)
          case Malformed => Bad
          case Parsed(valueLength, s3) => Checked(shared, nonShared, valueLength, s3)
  }

  lemma SmallVarint(s: seq<Byte>)
    requires s != [] && s[0] < 128
    ensures Get32(s) == Parsed(s[0], s[1..])
  {
  }

  /** The fast path reads what the general one reads. */
  lemma FastPath(s: seq<Byte>)
    requires |s| >= 3 && s[0] < 128 && s[1] < 128 && s[2] < 128
    ensures Get32(s) == Parsed(s[0], s[1..]) && Get32(s[1..]) == Parsed(s[1], s[2..])
      && Get32(s[2..]) == Parsed(s[2], s[3..])
  {
    SmallVarint(s);
    SmallVarint(s[1..]);
    SmallVarint(s[2..]);
    assert s[1..][1..] == s[2..] && s[2..][1..] == s[3..];
  }

  lemma DecodeUndoes(shared: nat, nonShared: nat, valueLength: nat, rest: seq<Byte>, s: seq<Byte>)
    requires s == Varint(shared) + (Varint(nonShared) + (Varint(valueLength) + rest))
    requires shared < TWO_32 && nonShared + valueLength < TWO_32 && nonShared + valueLength <= |rest|
    ensures DecodeEntry(s) == Header(shared, nonShared, valueLength, rest)
  {
    Get32RoundTrip(shared, Varint(nonShared) + (Varint(valueLength) + rest));
    Get32RoundTrip(nonShared, Varint(valueLength) + rest);
    Get32RoundTrip(valueLength, rest);
    SmallModulo(nonShared + valueLength, TWO_32);
    if s[0] < 128 && s[1] < 128 && s[2] < 128 {
      FastPath(s);
    }
  }

  /** The bytes of an entry, whatever follows them, decode to it. */
  lemma EntryDecoded(shared: nat, key: Key, value: seq<Byte>, rest: seq<Byte>)
    requires shared <= |key| && |key| + |value| < TWO_32
    ensures DecodeEntry(EncodeEntry(shared, key, value) + rest)
         == Header(shared, |key| - shared, |value|, key[shared..] + value + rest)
  {
    var a, b, c, d := Varint(shared), Varint(|key| - shared), Varint(|value|), key[shared..] + value;
    Regroup(a, b, c, d, rest);
    DecodeUndoes(shared, |key| - shared, |value|, d + rest, EncodeEntry(shared, key, value) + rest);
  }

  lemma Regroup(a: seq<Byte>, b: seq<Byte>, c: seq<Byte>, d: seq<Byte>, e: seq<Byte>)
    ensures (a + (b + (c + d))) + e == a + (b + (c + (d + e)))
  {
  }

  lemma EntrySize(shared: nat, key: Key, value: seq<Byte>)
    requires shared <= |key| && |key| + |value| < TWO_32
    ensures |EncodeEntry(shared, key, value)| <= |key| + |value| + 15
  {
    Pow128Of5And10();
    VarintRoundTrip(shared, [], 5);
    VarintRoundTrip(|key| - shared, [], 5);
    VarintRoundTrip(|value|, [], 5);
  }

  // ---------- the layout ----------

  function CommonPrefix(a: Key, b: Key): (n: nat)
    ensures n <= |a| && n <= |b| && a[..n] == b[..n]
    ensures n < |a| && n < |b| ==> a[n] != b[n]
  {
    if a == [] || b == [] || a[0] != b[0] then 0
    else
      var n := CommonPrefix(a[1..], b[1..]);
      assert a[..n + 1] == [a[0]] + a[1..][..n] && b[..n + 1] == [b[0]] + b[1..][..n];
      n + 1
  }

  /** Entry `i` is encoded at its place, sharing a prefix of the key before it. */
  ghost predicate EntryAt(data: seq<Byte>, l: Layout, i: nat)
    requires Shaped(l) && i < |l.pairs|
  {
    && l.offs[i] < l.offs[i + 1] <= |data|
    && l.shared[i] <= |l.pairs[i].key| && |l.pairs[i].key| + |l.pairs[i].value| < TWO_32
    && data[l.offs[i]..l.offs[i + 1]] == EncodeEntry(l.shared[i], l.pairs[i].key, l.pairs[i].value)
    && (if i == 0 then l.shared[i] == 0
        else l.shared[i] <= |l.pairs[i - 1].key| && l.pairs[i - 1].key[..l.shared[i]] == l.pairs[i].key[..l.shared[i]])
  }

  ghost predicate Shaped(l: Layout) {
    && |l.offs| == |l.pairs| + 1 && |l.shared| == |l.pairs|
    && l.starts != [] && l.starts[0] == 0 && l.offs[0] == 0
    && (forall j | 0 <= j < |l.starts| :: l.starts[j] < |l.pairs| || (j == 0 && l.pairs == []))
    && (forall i, j | 0 <= i < j < |l.starts| :: l.starts[i] < l.starts[j])
  }

  /** The data holds the entries, and nothing is shared at a restart point. */
  ghost predicate Laid(data: seq<Byte>, l: Layout) {
    && Shaped(l)
    && (forall i {:trigger EntryAt(data, l, i)} | 0 <= i < |l.pairs| :: EntryAt(data, l, i))
    && (forall j | 0 <= j < |l.starts| && l.pairs != [] :: l.shared[l.starts[j]] == 0)
  }

  lemma {:induction false} OffsGrow(data: seq<Byte>, l: Layout, i: nat, j: nat)
    requires Laid(data, l) && i < j <= |l.pairs|
    ensures l.offs[i] < l.offs[j]
    decreases j
  {
    assert EntryAt(data, l, j - 1);
    if i < j - 1 {
      OffsGrow(data, l, i, j - 1);
    }
  }

  // ---------- the builder ----------

  /** The restart points, one after every `interval` entries, and how many entries came after the last. */
  ghost predicate Counted(l: Layout, restarts: seq<nat>, counter: nat, interval: nat) {
    && Shaped(l) && |restarts| == |l.starts|
    && (forall j | 0 <= j < |restarts| :: restarts[j] == l.offs[l.starts[j]])
    && counter == |l.pairs| - l.starts[|l.starts| - 1] && counter <= interval
    && (forall j {:trigger Spaced(l.starts, j, interval)} | 0 <= j < |l.starts| - 1 :: Spaced(l.starts, j, interval))
  }

  ghost predicate Spaced(starts: seq<nat>, j: nat, interval: nat)
    requires j + 1 < |starts|
  {
    starts[j + 1] == starts[j] + interval
  }

  function LastKey(l: Layout): Key {
    if l.pairs == [] then [] else l.pairs[|l.pairs| - 1].key
  }

  /** The state of a builder that has added the entries of `l`. */
  ghost predicate Holds(buffer: seq<Byte>, restarts: seq<nat>, counter: nat, lastKey: Key, interval: nat, l: Layout) {
    && interval >= 1 && Laid(buffer, l) && l.offs[|l.pairs|] == |buffer| && lastKey == LastKey(l)
    && Counted(l, restarts, counter, interval)
  }

  /** The layout with one more entry. */
  function Added(l: Layout, key: Key, value: seq<Byte>, shared: nat, end: nat, restart: bool): Layout {
    Layout(l.pairs + [Pair(key, value)], l.offs + [end], l.shared + [shared],
           if restart then l.starts + [|l.pairs|] else l.starts)
  }

  lemma AddedHolds(buffer: seq<Byte>, restarts: seq<nat>, counter: nat, lastKey: Key, interval: nat, l: Layout,
                   key: Key, value: seq<Byte>, shared: nat,
                   buffer': seq<Byte>, restarts': seq<nat>, counter': nat, lastKey': Key) returns (l': Layout)
    requires Holds(buffer, restarts, counter, lastKey, interval, l) && |key| + |value| < TWO_32
    requires shared == if counter < interval then CommonPrefix(lastKey, key) else 0
    requires buffer' == buffer + EncodeEntry(shared, key, value) && lastKey' == key
    requires restarts' == if counter < interval then restarts else restarts + [|buffer|]
    requires counter' == if counter < interval then counter + 1 else 1
    ensures Holds(buffer', restarts', counter', lastKey', interval, l')
    ensures l'.pairs == l.pairs + [Pair(key, value)] && l'.shared == l.shared + [shared]
  {
    l' := Added(l, key, value, shared, |buffer'|, counter >= interval);
    LaidMore(buffer, l, key, value, shared, l');
    CountedMore(l, restarts, counter, interval, l', counter >= interval);
  }

  lemma CountedMore(l: Layout, restarts: seq<nat>, counter: nat, interval: nat, l': Layout, restart: bool)
    requires Counted(l, restarts, counter, interval) && Shaped(l') && |l'.pairs| == |l.pairs| + 1
    requires restart == (counter == interval) && interval >= 1
    requires l'.offs[..|l.offs|] == l.offs
    requires l'.starts == if restart then l.starts + [|l.pairs|] else l.starts
    ensures Counted(l', if restart then restarts + [l.offs[|l.pairs|]] else restarts,
                    if restart then 1 else counter + 1, interval)
  {
    forall j | 0 <= j < |restarts| ensures restarts[j] == l'.offs[l'.starts[j]] {
      assert l'.offs[..|l.offs|][l.starts[j]] == l'.offs[l.starts[j]];
    }
    assert l'.offs[..|l.offs|][|l.pairs|] == l'.offs[|l.pairs|];
    forall j | 0 <= j < |l'.starts| - 1 ensures Spaced(l'.starts, j, interval) {
      assert j < |l.starts| - 1 ==> Spaced(l.starts, j, interval);
    }
  }

  class BlockBuilder {
    const interval: nat
    var buffer: seq<Byte>
    var restarts: seq<nat>
    var counter: nat
    var lastKey: Key
    var finished: bool
    ghost var l: Layout

    /** What is in the buffer, and that a restart point comes after every `interval` entries. */
    ghost predicate Valid()
      reads this
    {
      Holds(buffer, restarts, counter, lastKey, interval, l)
    }

    constructor (interval: nat)
      requires interval >= 1
      ensures Valid() && l.pairs == [] && !finished && this.interval == interval && CurrentSizeEstimate() == 8
    {
      this.interval := interval;
      buffer, restarts, counter, lastKey, finished := [], [0], 0, [], false;
      l := Layout([], [0], [], [0]);
    }

    method Reset()
      requires interval >= 1
      modifies this
      ensures Valid() && l.pairs == [] && !finished
    {
      buffer, restarts, counter, lastKey, finished := [], [0], 0, [], false;
      l := Layout([], [0], [], [0]);
    }

    function CurrentSizeEstimate(): nat
      reads this
    {
      |buffer| + |restarts| * 4 + 4
    }

    /** `Add`: the caller adds keys in increasing order. */
    method Add(key: Key, value: seq<Byte>)
      requires Valid() && !finished && |key| + |value| < TWO_32
      modifies this
      ensures Valid() && !finished
      ensures l.pairs == old(l.pairs) + [Pair(key, value)]
      ensures CurrentSizeEstimate() <= old(CurrentSizeEstimate()) + |key| + |value| + 19
      ensures l.shared == old(l.shared) + [if old(counter) < interval then CommonPrefix(old(lastKey), key) else 0]
    {
      var shared, newRestarts, newCounter := 0, restarts, counter + 1;
      if counter < interval {
        shared := SharedPrefix(lastKey, key);
      } else {
        newRestarts, newCounter := restarts + [|buffer|], 1;
      }
      var entry := EncodeEntry(shared, key, value);
      EntrySize(shared, key, value);
      var newLastKey := lastKey[..shared] + key[shared..];
      KeyRestored(lastKey, key, shared);
      ghost var newL := AddedHolds(buffer, restarts, counter, lastKey, interval, l, key, value, shared, buffer + entry,
                                   newRestarts, newCounter, newLastKey);
      buffer, restarts, counter, lastKey, l := buffer + entry, newRestarts, newCounter, newLastKey, newL;
    }

    /** `Finish`: the data, the restart array and its length. */
    method Finish() returns (contents: seq<Byte>)
      requires Valid() && !finished && CurrentSizeEstimate() < TWO_32
      modifies this
      ensures finished && l == old(l) && Framed(contents, l) && |contents| == old(CurrentSizeEstimate())
    {
      ghost var data := buffer;
      buffer := PutWords(buffer, restarts);
      ghost var before := buffer;
      buffer := buffer + Fixed(|restarts|, 4);
      finished := true;
      contents := buffer;
      Finished(data, l, before, restarts, contents);
    }
  }

  lemma Finished(data: seq<Byte>, l: Layout, before: seq<Byte>, restarts: seq<nat>, contents: seq<Byte>)
    requires Laid(data, l) && l.offs[|l.pairs|] == |data| && data <= before && |before| == |data| + 4 * |restarts|
    requires |restarts| == |l.starts| && forall j | 0 <= j < |restarts| :: restarts[j] == l.offs[l.starts[j]]
    requires forall j {:trigger WordAt(before, |data|, restarts, j)} | 0 <= j < |restarts| ::
      WordAt(before, |data|, restarts, j)
    requires contents == before + Fixed(|restarts|, 4) && |contents| < TWO_32
    ensures Framed(contents, l)
  {
    LaidIn(data, l, contents);
    assert contents[|before|..] == Fixed(|restarts|, 4);
    forall j | 0 <= j < |l.starts|
      ensures contents[|data| + 4 * j..|data| + 4 * j + 4] == Fixed(l.offs[l.starts[j]], 4)
    {
      assert WordAt(before, |data|, restarts, j);
      WordsIn(before, contents, |data|, restarts, j);
    }
  }

  lemma KeyRestored(a: Key, b: Key, n: nat)
    requires n <= |a| && n <= |b| && a[..n] == b[..n]
    ensures a[..n] + b[n..] == b
  {
  }

  /** The loop of `Add` that looks how much of the previous key can be shared. */
  method SharedPrefix(lastKey: Key, key: Key) returns (shared: nat)
    ensures shared == CommonPrefix(lastKey, key)
  {
    var minLength := if |lastKey| < |key| then |lastKey| else |key|;
    shared := 0;
    while shared < minLength && lastKey[shared] == key[shared]
      invariant shared <= minLength && lastKey[..shared] == key[..shared]
    {
      shared := shared + 1;
    }
    PrefixIsCommon(lastKey, key, shared);
  }

  lemma PrefixIsCommon(a: Key, b: Key, n: nat)
    requires n <= |a| && n <= |b| && a[..n] == b[..n] && (n < |a| && n < |b| ==> a[n] != b[n])
    ensures n == CommonPrefix(a, b)
  {
  }

  /** The entries stay where they are in a longer string. */
  lemma LaidIn(data: seq<Byte>, l: Layout, longer: seq<Byte>)
    requires Laid(data, l) && data <= longer
    ensures Laid(longer, l)
  {
    forall i | 0 <= i < |l.pairs| ensures EntryAt(longer, l, i) {
      assert EntryAt(data, l, i);
      assert longer[l.offs[i]..l.offs[i + 1]] == data[l.offs[i]..l.offs[i + 1]];
    }
  }

  lemma LaidMore(data: seq<Byte>, l: Layout, key: Key, value: seq<Byte>, shared: nat, l': Layout)
    requires Laid(data, l) && l.offs[|l.pairs|] == |data| && |key| + |value| < TWO_32 && shared <= |key|
    requires var n := |l.pairs|;
      && (n == 0 ==> shared == 0)
      && (n > 0 ==> shared <= |l.pairs[n - 1].key| && l.pairs[n - 1].key[..shared] == key[..shared])
      && l' == Layout(l.pairs + [Pair(key, value)], l.offs + [|data| + |EncodeEntry(shared, key, value)|],
                      l.shared + [shared], l'.starts)
      && (l'.starts == l.starts || (l'.starts == l.starts + [n] && n > 0 && shared == 0))
    ensures Laid(data + EncodeEntry(shared, key, value), l')
  {
    var longer := data + EncodeEntry(shared, key, value);
    assert Shaped(l');
    forall i | 0 <= i < |l'.pairs| ensures EntryAt(longer, l', i) {
      if i < |l.pairs| {
        assert EntryAt(data, l, i);
        assert longer[l.offs[i]..l.offs[i + 1]] == data[l.offs[i]..l.offs[i + 1]];
      } else {
        assert longer[|data|..] == EncodeEntry(shared, key, value);
      }
    }
  }

  /** A finished block: entries, restart array, and the number of restart points. */
  ghost predicate Framed(contents: seq<Byte>, l: Layout) {
    && Laid(contents, l) && |contents| < TWO_32
    && var m := l.offs[|l.pairs|];
    && |contents| == m + 4 * |l.starts| + 4
    && contents[m + 4 * |l.starts|..] == Fixed(|l.starts|, 4)
    && (forall j {:trigger l.starts[j]} | 0 <= j < |l.starts| ::
          contents[m + 4 * j..m + 4 * j + 4] == Fixed(l.offs[l.starts[j]], 4))
  }
}
