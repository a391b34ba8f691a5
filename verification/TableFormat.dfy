/**
 What a table is (`table/format.cc`, `table/table.cc`): block handles, block trailers, the footer, and why
 looking into the one block its index names is enough.
*/
module TableFormat {
  import opened Coding
  import opened Blocks
  import opened BlockIterators
  import opened Comparators
  import Crc32c
  import LogChecksum
  import opened Sequences

  // ---------- handles and trailers ----------

  datatype Handle = Handle(offset: nat, size: nat)

  predicate Encodable(h: Handle) {
    h.offset < TWO_64 && h.size < TWO_64
  }

  /** `BlockHandle::EncodeTo`. */
  function EncodeHandle(h: Handle): seq<Byte> {
    Varint(h.offset) + Varint(h.size)
  }

  /** `BlockHandle::DecodeFrom`, which takes a handle off the front of a slice. */
  function TakeHandle(s: seq<Byte>): Parsed<Handle> {
    match Get64(s)
    case Malformed => Malformed
    case Parsed(offset, rest) =>
      match Get64(rest)
      case Malformed => Malformed
      case Parsed(size, more) => Parsed(Handle(offset, size), more)
  }

  /** The handle at the front of a slice; more bytes may follow. */
  function DecodeHandle(s: seq<Byte>): Optional<Handle> {
    var p := TakeHandle(s);
    if p.Parsed? then Some(p.value) else None
  }

  lemma TakeUndoes(h: Handle, rest: seq<Byte>)
    requires Encodable(h)
    ensures TakeHandle(EncodeHandle(h) + rest) == Parsed(h, rest)
  {
    Regroup3(Varint(h.offset), Varint(h.size), rest);
    Get64RoundTrip(h.offset, Varint(h.size) + rest);
    Get64RoundTrip(h.size, rest);
  }

  lemma HandleRoundTrip(h: Handle)
    requires Encodable(h)
    ensures DecodeHandle(EncodeHandle(h)) == Some(h)
  {
    TakeUndoes(h, []);
    assert EncodeHandle(h) + [] == EncodeHandle(h);
  }

  lemma HandleSize(h: Handle)
    requires Encodable(h)
    ensures |EncodeHandle(h)| <= MAX_ENCODED_LENGTH
  {
    Pow128Of5And10();
    VarintRoundTrip(h.offset, [], 10);
    VarintRoundTrip(h.size, [], 10);
  }

  // ---------- the footer ----------

  const MAX_ENCODED_LENGTH: nat := 20
  const FOOTER_SIZE: nat := 48
  const MAGIC: nat := 0xdb47_7524_8b80_fb57

  /** The last bytes of a table: where its metaindex block and its index block are. */
  datatype Footer = Footer(metaindexHandle: Handle, indexHandle: Handle)

  /** `string::resize`. */
  function Resized(s: seq<Byte>, n: nat): (r: seq<Byte>)
    ensures |r| == n
  {
    if n <= |s| then s[..n] else s + Padding(n - |s|)
  }

  /** `Footer::EncodeTo`. */
  function EncodeFooter(f: Footer): (s: seq<Byte>)
    ensures |s| == FOOTER_SIZE
  {
    Resized(EncodeHandle(f.metaindexHandle) + EncodeHandle(f.indexHandle), 2 * MAX_ENCODED_LENGTH)
    + (Fixed(MAGIC % TWO_32, 4) + Fixed(MAGIC / TWO_32, 4))
  }

  /** `Footer::DecodeFrom`: the magic number, then the two handles; `None` stands for its corruption errors. */
  function DecodeFooter(s: seq<Byte>): Optional<Footer>
    requires |s| == FOOTER_SIZE
  {
    if ReadWord(s[FOOTER_SIZE - 8..FOOTER_SIZE - 4]) + TWO_32 * ReadWord(s[FOOTER_SIZE - 4..]) != MAGIC then None
    else
      match TakeHandle(s)
      case Malformed => None
      case Parsed(metaindexHandle, rest) =>
        match TakeHandle(rest)
        case Malformed => None
        case Parsed(indexHandle, _) => Some(Footer(metaindexHandle, indexHandle))
  }

  lemma FooterRoundTrip(f: Footer)
    requires Encodable(f.metaindexHandle) && Encodable(f.indexHandle)
    ensures DecodeFooter(EncodeFooter(f)) == Some(f)
  {
    var s, m, i := EncodeFooter(f), EncodeHandle(f.metaindexHandle), EncodeHandle(f.indexHandle);
    HandleSize(f.metaindexHandle);
    HandleSize(f.indexHandle);
    MagicRead(Resized(m + i, 2 * MAX_ENCODED_LENGTH));
    var more := Padding(2 * MAX_ENCODED_LENGTH - |m + i|) + (Fixed(MAGIC % TWO_32, 4) + Fixed(MAGIC / TWO_32, 4));
    assert s == m + (i + more);
    TakeUndoes(f.metaindexHandle, i + more);
    TakeUndoes(f.indexHandle, more);
  }

  lemma MagicRead(a: seq<Byte>)
    requires |a| == 2 * MAX_ENCODED_LENGTH
    ensures var s := a + (Fixed(MAGIC % TWO_32, 4) + Fixed(MAGIC / TWO_32, 4));
      && ReadFixed(s[FOOTER_SIZE - 8..FOOTER_SIZE - 4]) == MAGIC % TWO_32
      && ReadFixed(s[FOOTER_SIZE - 4..]) == MAGIC / TWO_32
  {
    var lo, hi := Fixed(MAGIC % TWO_32, 4), Fixed(MAGIC / TWO_32, 4);
    Pow256Of4And8();
    FixedRoundTrip(MAGIC % TWO_32, 4);
    FixedRoundTrip(MAGIC / TWO_32, 4);
    assert (a + (lo + hi))[FOOTER_SIZE - 8..FOOTER_SIZE - 4] == lo && (a + (lo + hi))[FOOTER_SIZE - 4..] == hi;
  }

  // ---------- blocks in the file ----------

  const TRAILER_SIZE: nat := 5
  const NO_COMPRESSION: Byte := 0

  /** The type of an uncompressed block and the checksum of the block and its type. */
  function Trailer(contents: seq<Byte>): (s: seq<Byte>)
    ensures |s| == TRAILER_SIZE
  {
    [NO_COMPRESSION] + Fixed(Crc32c.Mask(LogChecksum.Value(contents + [NO_COMPRESSION])), 4)
  }

  /** The block named by a handle is in the file, with its trailer. */
  ghost predicate BlockAt(file: seq<Byte>, h: Handle, contents: seq<Byte>) {
    && h.size == |contents| && h.offset + |contents| + TRAILER_SIZE <= |file|
    && file[h.offset..h.offset + |contents|] == contents
    && file[h.offset + |contents|..h.offset + |contents| + TRAILER_SIZE] == Trailer(contents)
  }

  lemma BlockAtIn(file: seq<Byte>, longer: seq<Byte>, h: Handle, contents: seq<Byte>)
    requires BlockAt(file, h, contents) && file <= longer
    ensures BlockAt(longer, h, contents)
  {
    var m := h.offset + |contents|;
    assert longer[h.offset..m] == file[h.offset..m] && longer[m..m + TRAILER_SIZE] == file[m..m + TRAILER_SIZE];
  }

  lemma BlockAppended(file: seq<Byte>, contents: seq<Byte>)
    ensures BlockAt(file + contents + Trailer(contents), Handle(|file|, |contents|), contents)
  {
    var longer := file + contents + Trailer(contents);
    assert longer[|file|..|file| + |contents|] == contents;
    assert longer[|file| + |contents|..|file| + |contents| + TRAILER_SIZE] == Trailer(contents);
  }

  lemma TrailerRead(contents: seq<Byte>)
    ensures ReadFixed(Trailer(contents)[1..]) == Crc32c.Mask(LogChecksum.Value(contents + [NO_COMPRESSION]))
  {
    var m := Crc32c.Mask(LogChecksum.Value(contents + [NO_COMPRESSION]));
    Pow256Of4And8();
    FixedRoundTrip(m, 4);
    assert Trailer(contents)[1..] == Fixed(m, 4);
  }

  /** The bytes at a handle can be read: they are in the file, not compressed and, on request, as they were written. */
  ghost predicate ReadsAs(file: seq<Byte>, h: Handle, verify: bool, contents: seq<Byte>) {
    && h.size == |contents| && h.offset + |contents| + TRAILER_SIZE <= |file|
    && file[h.offset..h.offset + |contents|] == contents
    && file[h.offset + |contents|] == NO_COMPRESSION
    && (verify ==> BlockAt(file, h, contents))
  }

  /** A block that was written can be read, whether it is verified or not. */
  lemma BlockReads(file: seq<Byte>, h: Handle, contents: seq<Byte>, verify: bool)
    requires BlockAt(file, h, contents)
    ensures ReadsAs(file, h, verify, contents)
  {
    var m := h.offset + |contents|;
    assert file[m] == file[m..m + TRAILER_SIZE][0];
  }

  /** The checksum is that of the contents exactly if the trailer is the one that was written behind them. */
  lemma TrailerKnown(data: seq<Byte>, trailer: seq<Byte>)
    requires |trailer| == TRAILER_SIZE && trailer[0] == NO_COMPRESSION
    ensures LogChecksum.Value(data + [trailer[0]]) == Crc32c.Unmask(ReadWord(trailer[1..])) <==>
      trailer == Trailer(data)
  {
    var word, value := ReadWord(trailer[1..]), LogChecksum.Value(data + [NO_COMPRESSION]);
    TrailerRead(data);
    Crc32c.UnmaskUndoesMask(value);
    Crc32c.MaskUndoesUnmask(word);
    ReadThenFixed(trailer[1..]);
    assert trailer == [trailer[0]] + trailer[1..];
  }

  /** What the checks of `ReadBlock` find out about the bytes at a handle. */
  ghost predicate Passes(data: seq<Byte>, trailer: seq<Byte>, verify: bool)
    requires |trailer| == TRAILER_SIZE
  {
    && trailer[0] == NO_COMPRESSION
    && (verify ==> LogChecksum.Value(data + [trailer[0]]) == Crc32c.Unmask(ReadWord(trailer[1..])))
  }

  lemma ReadsIff(file: seq<Byte>, h: Handle, verify: bool, data: seq<Byte>, trailer: seq<Byte>, contents: seq<Byte>)
    requires h.offset + h.size + TRAILER_SIZE <= |file| && data == file[h.offset..h.offset + h.size]
    requires trailer == file[h.offset + h.size..h.offset + h.size + TRAILER_SIZE]
    ensures ReadsAs(file, h, verify, contents) <==> contents == data && Passes(data, trailer, verify)
    ensures BlockAt(file, h, contents) ==> ReadsAs(file, h, verify, contents)
  {
    assert file[h.offset + h.size] == trailer[0];
    if trailer[0] == NO_COMPRESSION {
      TrailerKnown(data, trailer);
    }
    if BlockAt(file, h, contents) {
      BlockReads(file, h, contents, verify);
    }
  }

  /** `ReadBlock` for uncompressed blocks; `None` stands for its corruption errors. */
  method ReadBlock(file: seq<Byte>, h: Handle, verify: bool) returns (r: Optional<seq<Byte>>)
    ensures forall contents :: BlockAt(file, h, contents) ==> r == Some(contents)
    ensures forall contents :: r == Some(contents) <==> ReadsAs(file, h, verify, contents)
  {
    if h.offset + h.size + TRAILER_SIZE > |file| {
      return None;
    }
    var n := h.offset + h.size;
    var data := file[h.offset..n];
    var trailer := file[n..n + TRAILER_SIZE];
    forall contents
      ensures ReadsAs(file, h, verify, contents) <==> contents == data && Passes(data, trailer, verify)
      ensures BlockAt(file, h, contents) ==> ReadsAs(file, h, verify, contents)
    {
      ReadsIff(file, h, verify, data, trailer, contents);
    }
    if verify {
      var crc := Crc32c.Unmask(ReadWord(trailer[1..]));
      var actual := LogChecksum.Value(data + [trailer[0]]);
      if actual != crc {
        return None;
      }
    }
    if trailer[0] != NO_COMPRESSION {
      return None;
    }
    return Some(data);
  }

  /** The first part of `Table::Open`, for any file: its footer and its index block. */
  method ReadIndex(file: seq<Byte>, paranoid: bool) returns (r: Optional<(Footer, seq<Byte>)>)
    ensures forall f, contents :: r == Some((f, contents)) <==>
      |file| >= FOOTER_SIZE && DecodeFooter(file[|file| - FOOTER_SIZE..]) == Some(f)
      && ReadsAs(file, f.indexHandle, paranoid, contents)
    ensures |file| >= FOOTER_SIZE ==> var footer := DecodeFooter(file[|file| - FOOTER_SIZE..]);
      footer.Some? ==>
        forall contents :: BlockAt(file, footer.value.indexHandle, contents) ==> r == Some((footer.value, contents))
  {
    if |file| < FOOTER_SIZE {
      return None;
    }
    var footer := DecodeFooter(file[|file| - FOOTER_SIZE..]);
    if footer.None? {
      return None;
    }
    var index := ReadBlock(file, footer.value.indexHandle, paranoid);
    if index.None? {
      return None;
    }
    r := Some((footer.value, index.value));
  }

  // ---------- looking a key up ----------

  /** The first pair at or after `k`, looking at one after the other. */
  function Scan(pairs: seq<Pair>, k: Key): Optional<Pair> {
    if pairs == [] then None else if !InternalLess(pairs[0].key, k) then Some(pairs[0]) else Scan(pairs[1..], k)
  }

  function ScanAll(blocks: seq<seq<Pair>>, k: Key): Optional<Pair> {
    if blocks == [] then None
    else
      var r := Scan(blocks[0], k);
      if r.Some? then r else ScanAll(blocks[1..], k)
  }

  function Last(pairs: seq<Pair>): Key
    requires pairs != []
  {
    pairs[|pairs| - 1].key
  }

  /** A block that is not empty, with its internal keys in order. */
  ghost predicate GoodBlock(pairs: seq<Pair>) {
    pairs != [] && SortedBy(InternalLess, pairs) && forall p | p in pairs :: |p.key| >= TAG_SIZE
  }

  ghost predicate AllGood(blocks: seq<seq<Pair>>) {
    forall i | 0 <= i < |blocks| :: GoodBlock(blocks[i])
  }

  /** An index key is at or above the keys of its block, and below and apart from those of the next. */
  ghost predicate Separates(blocks: seq<seq<Pair>>, seps: seq<Key>, i: nat)
    requires i < |seps| && |seps| <= |blocks| && AllGood(blocks)
  {
    && |seps[i]| >= TAG_SIZE && !InternalLess(seps[i], Last(blocks[i]))
    && (i + 1 < |blocks| ==>
          InternalLess(seps[i], blocks[i + 1][0].key) && Apart(Last(blocks[i]), seps[i], blocks[i + 1][0].key))
  }

  ghost predicate Separated(blocks: seq<seq<Pair>>, seps: seq<Key>) {
    && |seps| <= |blocks| && AllGood(blocks)
    && (forall i {:trigger Separates(blocks, seps, i)} | 0 <= i < |seps| :: Separates(blocks, seps, i))
  }

  lemma {:induction false} ScanFinds(pairs: seq<Pair>, k: Key, q: nat)
    requires q <= |pairs| && (forall i | 0 <= i < q :: InternalLess(pairs[i].key, k))
    requires q < |pairs| ==> !InternalLess(pairs[q].key, k)
    ensures Scan(pairs, k) == if q < |pairs| then Some(pairs[q]) else None
  {
    if q > 0 {
      assert forall i | 0 <= i < q - 1 :: pairs[1..][i] == pairs[i + 1];
      ScanFinds(pairs[1..], k, q - 1);
    }
  }

  /** A block whose last key is below `k` has nothing at or after `k`. */
  lemma AllBelow(pairs: seq<Pair>, k: Key)
    requires GoodBlock(pairs) && InternalLess(Last(pairs), k)
    ensures Scan(pairs, k) == None
  {
    forall i | 0 <= i < |pairs| ensures InternalLess(pairs[i].key, k) {
      if i < |pairs| - 1 {
        LessTransitive(pairs[i].key, Last(pairs), k);
      }
    }
    ScanFinds(pairs, k, |pairs|);
  }

  /** Blocks whose index keys are below `k` can be skipped. */
  lemma {:induction false} SkipBlocks(blocks: seq<seq<Pair>>, seps: seq<Key>, k: Key, i: nat)
    requires Separated(blocks, seps) && i <= |seps| && forall j | 0 <= j < i :: InternalLess(seps[j], k)
    ensures ScanAll(blocks, k) == ScanAll(blocks[i..], k)
    decreases i
  {
    if i > 0 {
      SkipBlocks(blocks, seps, k, i - 1);
      assert Separates(blocks, seps, i - 1) && GoodBlock(blocks[i - 1]);
      AtMostThenLess(Last(blocks[i - 1]), seps[i - 1], k);
      AllBelow(blocks[i - 1], k);
      assert blocks[i - 1..][1..] == blocks[i..] && blocks[i - 1..][0] == blocks[i - 1];
    }
  }

  lemma ScanFirst(pairs: seq<Pair>, k: Key)
    requires pairs != [] && !InternalLess(pairs[0].key, k)
    ensures Scan(pairs, k) == Some(pairs[0])
  {
  }

  /** `r` is the entry `s`, or nothing where `s` has another user key than `k`. */
  ghost predicate Delivers(r: Optional<Pair>, s: Optional<Pair>, k: Key) {
    && (r.Some? ==> r == s)
    && (r.None? && s.Some? ==> |s.value.key| >= TAG_SIZE && |k| >= TAG_SIZE && UserOf(s.value.key) != UserOf(k))
  }

  /**
   Looking into the one block that the index names: what is found there is what a linear scan finds,
   and if nothing is, the scan finds nothing with the user key of `k`.
  */
  lemma OneBlockIsEnough(blocks: seq<seq<Pair>>, seps: seq<Key>, k: Key, i: nat)
    requires Separated(blocks, seps) && |seps| == |blocks| && |k| >= TAG_SIZE
    requires i <= |seps| && (forall j | 0 <= j < i :: InternalLess(seps[j], k))
    requires i < |seps| ==> !InternalLess(seps[i], k)
    ensures i == |blocks| ==> Delivers(None, ScanAll(blocks, k), k)
    ensures i < |blocks| ==> Delivers(Scan(blocks[i], k), ScanAll(blocks, k), k)
  {
    SkipBlocks(blocks, seps, k, i);
    if i < |blocks| {
      assert blocks[i..][0] == blocks[i] && blocks[i..][1..] == blocks[i + 1..];
      if Scan(blocks[i], k).None? && i + 1 < |blocks| {
        NextBlockApart(blocks, seps, k, i);
        ScanFirst(blocks[i + 1], k);
        assert blocks[i + 1..][0] == blocks[i + 1];
      }
    }
  }

  /** Past the last key of a block but not past its index key, the next key has another user key. */
  lemma NextBlockApart(blocks: seq<seq<Pair>>, seps: seq<Key>, k: Key, i: nat)
    requires Separated(blocks, seps) && |k| >= TAG_SIZE && i + 1 < |blocks| && i < |seps|
    requires !InternalLess(seps[i], k) && Scan(blocks[i], k).None?
    ensures blocks[i + 1] != []
    ensures var next := blocks[i + 1][0].key; !InternalLess(next, k) && |next| >= TAG_SIZE && UserOf(next) != UserOf(k)
  {
    assert Separates(blocks, seps, i) && GoodBlock(blocks[i]) && GoodBlock(blocks[i + 1]);
    var next := blocks[i + 1][0].key;
    AtMostThenLess(k, seps[i], next);
    Asymmetric(k, next);
    ScanNone(blocks[i], k);
    Irreflexive(UserOf(k));
    assert UserOf(next) != UserOf(k);
  }

  lemma {:induction false} ScanNone(pairs: seq<Pair>, k: Key)
    requires pairs != [] && Scan(pairs, k) == None
    ensures InternalLess(Last(pairs), k)
  {
    if |pairs| > 1 {
      ScanNone(pairs[1..], k);
    }
  }

  // ---------- all pairs ----------

  function Concat(blocks: seq<seq<Pair>>): seq<Pair> {
    if blocks == [] then [] else Concat(blocks[..|blocks| - 1]) + blocks[|blocks| - 1]
  }

  lemma {:induction false} ScanAppend(a: seq<Pair>, b: seq<Pair>, k: Key)
    ensures Scan(a + b, k) == if Scan(a, k).Some? then Scan(a, k) else Scan(b, k)
  {
    if a == [] {
      assert a + b == b;
    } else {
      assert (a + b)[1..] == a[1..] + b;
      ScanAppend(a[1..], b, k);
    }
  }

  lemma {:induction false} ScanAllAppend(a: seq<seq<Pair>>, b: seq<Pair>, k: Key)
    ensures ScanAll(a + [b], k) == if ScanAll(a, k).Some? then ScanAll(a, k) else Scan(b, k)
  {
    if a == [] {
      assert (a + [b])[1..] == [];
    } else {
      assert (a + [b])[1..] == a[1..] + [b];
      ScanAllAppend(a[1..], b, k);
    }
  }

  /** Scanning block by block is scanning all pairs. */
  lemma {:induction false} ScanConcat(blocks: seq<seq<Pair>>, k: Key)
    ensures ScanAll(blocks, k) == Scan(Concat(blocks), k)
    decreases |blocks|
  {
    if blocks != [] {
      var rest, b := blocks[..|blocks| - 1], blocks[|blocks| - 1];
      assert blocks == rest + [b];
      ScanConcat(rest, k);
      ScanAllAppend(rest, b, k);
      ScanAppend(Concat(rest), b, k);
    }
  }
}
