/**
 CRC32C (`util/crc32c.cc`, `util/crc32c.h`): the strided table-driven loop computes the checksum of
 section 12.1 of RFC 3720, bit by bit, whatever the length and alignment of the buffer.

 A 32-bit word and a byte are lists of bits, least significant first, so that `>>` drops from the
 front and a little-endian word is the bits of its bytes one after the other.
*/
module Crc32c {

  type Word = w: seq<bool> | |w| == 32 witness seq(32, _ => false)
  type Octet = b: seq<bool> | |b| == 8 witness seq(8, _ => false)

  function Zeros(n: nat): (z: seq<bool>)
    ensures |z| == n
  {
    seq(n, _ => false)
  }

  /** The low `n` bits of a number. */
  function BitsOf(v: nat, n: nat): (b: seq<bool>)
    ensures |b| == n
  {
    if n == 0 then [] else [v % 2 == 1] + BitsOf(v / 2, n - 1)
  }

  function Xor(a: seq<bool>, b: seq<bool>): (c: seq<bool>)
    requires |a| == |b|
    ensures |c| == |a|
    ensures forall i | 0 <= i < |a| :: c[i] == (a[i] != b[i])
  {
    seq(|a|, i requires 0 <= i < |a| => a[i] != b[i])
  }

  /** The Castagnoli polynomial, reflected. */
  const POLYNOMIAL: Word := BitsOf(0x82f6_3b78, 32)
  const CRC32_XOR: Word := BitsOf(0xffff_ffff, 32)

  // ---------- specification ----------

  /** One bit of the shift register. */
  function Step(l: Word): Word {
    var s := l[1..] + [false];
    if l[0] then Xor(s, POLYNOMIAL) else s
  }

  function Advance(l: Word, bits: nat): Word
    decreases bits, l
  {
    if bits == 0 then l else Advance(Step(l), bits - 1)
  }

  function Widen(b: Octet): Word {
    b + Zeros(24)
  }

  /** The register after one more byte, and after a run of bytes. */
  function ByteStep(l: Word, b: Octet): Word {
    Advance(Xor(l, Widen(b)), 8)
  }

  function Fold(l: Word, data: seq<Octet>): Word
    decreases |data|
  {
    if data == [] then l else Fold(ByteStep(l, data[0]), data[1..])
  }

  /** The checksum of a string whose beginning has checksum `crc`, continued by `data`. */
  function Checksum(crc: Word, data: seq<Octet>): Word {
    Xor(Fold(Xor(crc, CRC32_XOR), data), CRC32_XOR)
  }

  // ---------- the register is linear ----------

  lemma XorFacts(a: Word, b: Word, c: Word)
    ensures Xor(Xor(a, b), c) == Xor(a, Xor(b, c))
    ensures Xor(a, b) == Xor(b, a)
    ensures Xor(Xor(a, b), b) == a
  {
  }

  lemma StepLinear(a: Word, b: Word)
    ensures Step(Xor(a, b)) == Xor(Step(a), Step(b))
  {
  }

  lemma {:induction false} AdvanceLinear(a: Word, b: Word, n: nat)
    ensures Advance(Xor(a, b), n) == Xor(Advance(a, n), Advance(b, n))
    decreases n
  {
    if n > 0 {
      StepLinear(a, b);
      AdvanceLinear(Step(a), Step(b), n - 1);
    }
  }

  lemma {:induction false} AdvanceAdd(l: Word, m: nat, n: nat)
    ensures Advance(Advance(l, m), n) == Advance(l, m + n)
    decreases m
  {
    if m > 0 {
      AdvanceAdd(Step(l), m - 1, n);
    }
  }

  /** Bits that do not reach the low end are only shifted. */
  lemma {:induction false} AdvanceHigh(l: Word, n: nat)
    requires n <= 32 && l[..n] == Zeros(n)
    ensures Advance(l, n) == l[n..] + Zeros(n)
    decreases n
  {
    if n > 0 {
      assert !l[..n][0];
      var s := Step(l);
      assert s == l[1..] + [false];
      assert s[..n - 1] == Zeros(n - 1) by {
        assert forall i | 0 <= i < n - 1 :: s[i] == l[..n][i + 1];
      }
      AdvanceHigh(s, n - 1);
    }
  }

  // ---------- tables ----------

  /** `kByteExtensionTable`. */
  function ByteTable(c: Octet): Word {
    Advance(Widen(c), 8)
  }

  /** A byte in lane `k` of a word. */
  function Lane(c: Octet, k: nat): Word
    requires k < 4
  {
    Zeros(8 * k) + c + Zeros(24 - 8 * k)
  }

  /** The stride tables 3, 2, 1 and 0: lane 0, 1, 2 and 3 of a word advanced by sixteen bytes. */
  function StrideTable(k: nat, c: Octet): Word
    requires k < 4
  {
    Advance(Lane(c, 3 - k), 128)
  }

  /** STEP1: one byte through the table. */
  function Step1(l: Word, b: Octet): Word {
    Xor(ByteTable(Xor(l[..8], b)), l[8..] + Zeros(8))
  }

  lemma Step1IsByteStep(l: Word, b: Octet)
    ensures Step1(l, b) == ByteStep(l, b)
  {
    var low, high: Word := Widen(Xor(l[..8], b)), Zeros(8) + l[8..];
    assert Xor(l, Widen(b)) == Xor(low, high);
    AdvanceLinear(low, high, 8);
    AdvanceHigh(high, 8);
  }

  /** One turn of STEP4W: eight bits of a word through the table. */
  function WordStep(w: Word): Word {
    Xor(w[8..] + Zeros(8), ByteTable(w[..8]))
  }

  lemma WordStepIsAdvance(w: Word)
    ensures WordStep(w) == Advance(w, 8)
  {
    Step1IsByteStep(w, Zeros(8));
    assert Xor(w[..8], Zeros(8)) == w[..8] && Xor(w, Widen(Zeros(8))) == w;
    XorFacts(ByteTable(w[..8]), w[8..] + Zeros(8), w);
  }

  /** The four table lookups of STEP4. */
  function Stride(w: Word): Word {
    Xor(Xor(Xor(StrideTable(3, w[..8]), StrideTable(2, w[8..16])), StrideTable(1, w[16..24])), StrideTable(0, w[24..]))
  }

  lemma StrideIsAdvance(w: Word)
    ensures Stride(w) == Advance(w, 128)
  {
    var a, b, c, d := Lane(w[..8], 0), Lane(w[8..16], 1), Lane(w[16..24], 2), Lane(w[24..], 3);
    assert w == Xor(Xor(Xor(a, b), c), d);
    AdvanceLinear(Xor(Xor(a, b), c), d, 128);
    AdvanceLinear(Xor(a, b), c, 128);
    AdvanceLinear(a, b, 128);
  }

  // ---------- words ----------

  function Flatten(bytes: seq<Octet>): (s: seq<bool>)
    ensures |s| == 8 * |bytes|
  {
    if bytes == [] then [] else bytes[0] + Flatten(bytes[1..])
  }

  /** `ReadUint32LE`. */
  function WordAt(data: seq<Octet>, i: nat): Word
    requires i + 4 <= |data|
  {
    Flatten(data[i..i + 4])
  }

  lemma {:induction false} FoldAppend(l: Word, a: seq<Octet>, b: seq<Octet>)
    ensures Fold(l, a + b) == Fold(Fold(l, a), b)
    decreases |a|
  {
    if a == [] {
      assert a + b == b;
    } else {
      assert (a + b)[1..] == a[1..] + b;
      FoldAppend(ByteStep(l, a[0]), a[1..], b);
    }
  }

  /** Feeding a byte is feeding all bits and leaving the others where one byte's shift brings them. */
  lemma FeedByte(l: Word, b: Octet, rest: seq<bool>)
    requires |rest| == 24
    ensures Advance(Xor(l, b + rest), 8) == Xor(ByteStep(l, b), rest + Zeros(8))
  {
    var low, high: Word := Xor(l, Widen(b)), Zeros(8) + rest;
    assert Xor(l, b + rest) == Xor(low, high);
    AdvanceLinear(low, high, 8);
    AdvanceHigh(high, 8);
    assert high[8..] == rest;
  }

  lemma XorZeros(l: Word)
    ensures Xor(l, Zeros(32)) == l
  {
  }

  lemma ZerosAdd(m: nat, n: nat)
    ensures Zeros(m) + Zeros(n) == Zeros(m + n)
  {
  }

  lemma Regroup(a: seq<bool>, b: seq<bool>, c: seq<bool>)
    ensures (a + b) + c == a + (b + c)
  {
  }

  /** Up to four bytes can be fed at once and shifted through together. */
  lemma {:induction false} FeedTogether(l: Word, bytes: seq<Octet>)
    requires |bytes| <= 4
    ensures Fold(l, bytes) == Advance(Xor(l, Flatten(bytes) + Zeros(32 - 8 * |bytes|)), 8 * |bytes|)
    decreases |bytes|
  {
    if bytes == [] {
      XorZeros(l);
      assert Flatten(bytes) + Zeros(32) == Zeros(32);
    } else {
      var b, rest := bytes[0], bytes[1..];
      var bits := Flatten(rest) + Zeros(24 - 8 * |rest|);
      Regroup(b, Flatten(rest), Zeros(24 - 8 * |rest|));
      FeedByte(l, b, bits);
      Regroup(Flatten(rest), Zeros(24 - 8 * |rest|), Zeros(8));
      ZerosAdd(24 - 8 * |rest|, 8);
      FeedTogether(ByteStep(l, b), rest);
      AdvanceAdd(Xor(l, b + bits), 8, 8 * |rest|);
    }
  }

  /** Four bytes are one word. */
  lemma FoldWord(l: Word, data: seq<Octet>, i: nat)
    requires i + 4 <= |data|
    ensures Fold(l, data[i..i + 4]) == Advance(Xor(l, WordAt(data, i)), 32)
  {
    assert WordAt(data, i) + Zeros(0) == WordAt(data, i);
    FeedTogether(l, data[i..i + 4]);
  }

  // ---------- strides ----------

  /** The register the four partial results stand for. */
  function Combined(c0: Word, c1: Word, c2: Word, c3: Word): Word {
    Xor(Xor(Advance(c0, 128), Advance(c1, 96)), Xor(Advance(c2, 64), Advance(c3, 32)))
  }

  /** Feeding a word to a register that is a sum feeds it to the sum of the parts one word on. */
  lemma CombinedRotates(c0: Word, c1: Word, c2: Word, c3: Word, w: Word)
    ensures Combined(c1, c2, c3, Xor(w, Advance(c0, 128))) == Advance(Xor(Combined(c0, c1, c2, c3), w), 32)
  {
    var a0, a1, a2, a3 := Advance(c0, 128), Advance(c1, 96), Advance(c2, 64), Advance(c3, 32);
    AdvanceAdd(c1, 96, 32);
    AdvanceAdd(c2, 64, 32);
    AdvanceAdd(c3, 32, 32);
    assert Xor(Xor(Xor(a0, a1), Xor(a2, a3)), w) == Xor(Xor(a1, a2), Xor(a3, Xor(w, a0)));
    AdvanceLinear(Xor(a1, a2), Xor(a3, Xor(w, a0)), 32);
    AdvanceLinear(a1, a2, 32);
    AdvanceLinear(a3, Xor(w, a0), 32);
  }

  /** STEP4: one word into the partial result of its stride. */
  function Step4(c: Word, w: Word): Word {
    Xor(w, Stride(c))
  }

  /** One word more: STEP4 on the oldest partial result, which then becomes the newest. */
  lemma OneWord(l: Word, c0: Word, c1: Word, c2: Word, c3: Word, data: seq<Octet>, i: nat)
    requires i + 4 <= |data| && Fold(l, data[..i]) == Combined(c0, c1, c2, c3)
    ensures Fold(l, data[..i + 4]) == Combined(c1, c2, c3, Step4(c0, WordAt(data, i)))
  {
    assert data[..i + 4] == data[..i] + data[i..i + 4];
    FoldAppend(l, data[..i], data[i..i + 4]);
    FoldWord(Combined(c0, c1, c2, c3), data, i);
    StrideIsAdvance(c0);
    CombinedRotates(c0, c1, c2, c3, WordAt(data, i));
  }

  /** STEP16 is four such words. */
  lemma Swath(l: Word, c0: Word, c1: Word, c2: Word, c3: Word, data: seq<Octet>, i: nat)
    requires i + 16 <= |data| && Fold(l, data[..i]) == Combined(c0, c1, c2, c3)
    ensures Fold(l, data[..i + 16]) == Combined(Step4(c0, WordAt(data, i)), Step4(c1, WordAt(data, i + 4)),
      Step4(c2, WordAt(data, i + 8)), Step4(c3, WordAt(data, i + 12)))
  {
    var d0, d1, d2 := Step4(c0, WordAt(data, i)), Step4(c1, WordAt(data, i + 4)), Step4(c2, WordAt(data, i + 8));
    OneWord(l, c0, c1, c2, c3, data, i);
    OneWord(l, c1, c2, c3, d0, data, i + 4);
    OneWord(l, c2, c3, d0, d1, data, i + 8);
    OneWord(l, c3, d0, d1, d2, data, i + 12);
  }

  /** The first swath loads the partial results: the register goes into the first of them. */
  lemma FirstSwath(l: Word, r: Word, data: seq<Octet>, i: nat)
    requires i + 16 <= |data| && Fold(l, data[..i]) == r
    ensures Fold(l, data[..i + 16]) ==
      Combined(Xor(WordAt(data, i), r), WordAt(data, i + 4), WordAt(data, i + 8), WordAt(data, i + 12))
  {
    var w0, w1, w2, w3 := WordAt(data, i), WordAt(data, i + 4), WordAt(data, i + 8), WordAt(data, i + 12);
    var r1 := Advance(Xor(r, w0), 32);
    var r2 := Advance(Xor(r1, w1), 32);
    var r3 := Advance(Xor(r2, w2), 32);
    FourBytesOn(l, data, i);
    FourBytesOn(l, data, i + 4);
    FourBytesOn(l, data, i + 8);
    FourBytesOn(l, data, i + 12);
    FourWords(Xor(r, w0), w1, w2, w3);
    XorFacts(r, w0, w0);
  }

  lemma FourBytesOn(l: Word, data: seq<Octet>, i: nat)
    requires i + 4 <= |data|
    ensures Fold(l, data[..i + 4]) == Advance(Xor(Fold(l, data[..i]), WordAt(data, i)), 32)
  {
    assert data[..i + 4] == data[..i] + data[i..i + 4];
    FoldAppend(l, data[..i], data[i..i + 4]);
    FoldWord(Fold(l, data[..i]), data, i);
  }

  /** The last four STEP4W: the partial results one after the other through one register. */
  lemma FourWords(c0: Word, c1: Word, c2: Word, c3: Word)
    ensures Advance(Xor(Advance(Xor(Advance(Xor(Advance(c0, 32), c1), 32), c2), 32), c3), 32)
         == Combined(c0, c1, c2, c3)
  {
    var l1 := Advance(c0, 32);
    AdvanceLinear(l1, c1, 32);
    AdvanceAdd(c0, 32, 32);
    var l2 := Xor(Advance(c0, 64), Advance(c1, 32));
    AdvanceLinear(l2, c2, 32);
    AdvanceLinear(Advance(c0, 64), Advance(c1, 32), 32);
    AdvanceAdd(c0, 64, 32);
    AdvanceAdd(c1, 32, 32);
    var l3 := Xor(Xor(Advance(c0, 96), Advance(c1, 64)), Advance(c2, 32));
    AdvanceLinear(l3, c3, 32);
    AdvanceLinear(Xor(Advance(c0, 96), Advance(c1, 64)), Advance(c2, 32), 32);
    AdvanceLinear(Advance(c0, 96), Advance(c1, 64), 32);
    AdvanceAdd(c0, 96, 32);
    AdvanceAdd(c1, 64, 32);
    AdvanceAdd(c2, 32, 32);
    XorFacts(Xor(Advance(c0, 128), Advance(c1, 96)), Advance(c2, 64), Advance(c3, 32));
  }

  // ---------- the checksum ----------

  /** STEP4W. */
  method Step4W(w0: Word, l: Word) returns (r: Word)
    ensures r == Advance(Xor(l, w0), 32)
  {
    XorFacts(w0, l, l);
    r := Xor(w0, l);
    for i := 0 to 4
      invariant Advance(r, 32 - 8 * i) == Advance(Xor(l, w0), 32)
    {
      WordStepIsAdvance(r);
      AdvanceAdd(r, 8, 24 - 8 * i);
      r := WordStep(r);
    }
  }

  /** The partial results stand for the register after the first `p` bytes. */
  ghost predicate Partial(l: Word, data: seq<Octet>, p: nat, c0: Word, c1: Word, c2: Word, c3: Word)
    requires p <= |data|
  {
    Fold(l, data[..p]) == Combined(c0, c1, c2, c3)
  }

  /** STEP16. */
  method Step16(ghost l: Word, c0: Word, c1: Word, c2: Word, c3: Word, data: seq<Octet>, p: nat)
    returns (d0: Word, d1: Word, d2: Word, d3: Word)
    requires p + 16 <= |data| && Partial(l, data, p, c0, c1, c2, c3)
    ensures Partial(l, data, p + 16, d0, d1, d2, d3)
  {
    d0, d1 := Step4(c0, WordAt(data, p)), Step4(c1, WordAt(data, p + 4));
    d2, d3 := Step4(c2, WordAt(data, p + 8)), Step4(c3, WordAt(data, p + 12));
    Swath(l, c0, c1, c2, c3, data, p);
  }

  /** STEP4 on the oldest partial result, before the results are rotated. */
  method StepWord(ghost l: Word, c0: Word, c1: Word, c2: Word, c3: Word, data: seq<Octet>, p: nat) returns (d: Word)
    requires p + 4 <= |data| && Partial(l, data, p, c0, c1, c2, c3)
    ensures Partial(l, data, p + 4, c1, c2, c3, d)
  {
    d := Step4(c0, WordAt(data, p));
    OneWord(l, c0, c1, c2, c3, data, p);
  }

  /** The middle part of `Extend`, first half: sixteen bytes at a time in four strides. */
  method Swaths(ghost l0: Word, l: Word, data: seq<Octet>, p0: nat)
    returns (c0: Word, c1: Word, c2: Word, c3: Word, p: nat)
    requires p0 + 16 <= |data| && l == Fold(l0, data[..p0])
    ensures p <= |data| && Partial(l0, data, p, c0, c1, c2, c3)
  {
    p := p0;
    c0, c1, c2, c3 := Xor(WordAt(data, p), l), WordAt(data, p + 4), WordAt(data, p + 8), WordAt(data, p + 12);
    FirstSwath(l0, l, data, p);
    p := p + 16;
    while |data| - p >= 16
      invariant p <= |data| && Partial(l0, data, p, c0, c1, c2, c3)
    {
      c0, c1, c2, c3 := Step16(l0, c0, c1, c2, c3, data, p);
      p := p + 16;
    }
  }

  /** Second half: a word at a time, then the partial results are combined. */
  method Words(ghost l0: Word, d0: Word, d1: Word, d2: Word, d3: Word, data: seq<Octet>, p0: nat)
    returns (r: Word, p: nat)
    requires p0 <= |data| && Partial(l0, data, p0, d0, d1, d2, d3)
    ensures p <= |data| && r == Fold(l0, data[..p])
  {
    p := p0;
    var c0: Word, c1: Word, c2: Word, c3: Word := d0, d1, d2, d3;
    while |data| - p >= 4
      invariant p <= |data| && Partial(l0, data, p, c0, c1, c2, c3)
    {
      var tmp := StepWord(l0, c0, c1, c2, c3, data, p);
      c0, c1, c2, c3 := c1, c2, c3, tmp;
      p := p + 4;
    }
    r := Combine(c0, c1, c2, c3);
  }

  /** The partial results through one register. */
  method Combine(crc0: Word, crc1: Word, crc2: Word, crc3: Word) returns (l: Word)
    ensures l == Combined(crc0, crc1, crc2, crc3)
  {
    l := Zeros(32);
    assert Xor(l, crc0) == crc0;
    l := Step4W(crc0, l);
    l := Step4W(crc1, l);
    l := Step4W(crc2, l);
    l := Step4W(crc3, l);
    FourWords(crc0, crc1, crc2, crc3);
  }

  /**
   `Extend` without hardware support, for a buffer at address `addr`: bytes up to the first aligned
   word, strides and words, and the bytes left over.
  */
  method Extend(crc: Word, data: seq<Octet>, addr: nat) returns (r: Word)
    ensures r == Checksum(crc, data)
  {
    var l := Xor(crc, CRC32_XOR);
    ghost var l0: Word := l;
    var p, e: nat := 0, |data|;
    var x := (addr + 3) / 4 * 4 - addr;
    if x <= e {
      while p != x
        invariant p <= x && l == Fold(l0, data[..p])
      {
        l := NextByte(l0, l, data, p);
        p := p + 1;
      }
    }
    if e - p >= 16 {
      var c0, c1, c2, c3;
      c0, c1, c2, c3, p := Swaths(l0, l, data, p);
      l, p := Words(l0, c0, c1, c2, c3, data, p);
    }
    while p != e
      invariant p <= e && l == Fold(l0, data[..p])
    {
      l := NextByte(l0, l, data, p);
      p := p + 1;
    }
    assert data[..e] == data;
    r := Xor(l, CRC32_XOR);
  }

  method NextByte(ghost l0: Word, l: Word, data: seq<Octet>, p: nat) returns (r: Word)
    requires p < |data| && l == Fold(l0, data[..p])
    ensures r == Fold(l0, data[..p + 1])
  {
    r := Step1(l, data[p]);
    Step1IsByteStep(l, data[p]);
    assert data[..p + 1] == data[..p] + [data[p]];
    FoldAppend(l0, data[..p], [data[p]]);
    assert [data[p]][1..] == [];
  }

  /** A checksum can be continued: `Extend(Extend(c, a), b)` is `Extend(c, a + b)`. */
  lemma Continues(c: Word, a: seq<Octet>, b: seq<Octet>)
    ensures Checksum(Checksum(c, a), b) == Checksum(c, a + b)
  {
    var l := Fold(Xor(c, CRC32_XOR), a);
    XorFacts(l, CRC32_XOR, l);
    FoldAppend(Xor(c, CRC32_XOR), a, b);
  }

  /** What the log relies on: continuing the checksum of the type byte covers type and payload. */
  lemma TypeThenPayload(t: Octet, payload: seq<Octet>)
    ensures Checksum(Checksum(Zeros(32), [t]), payload) == Checksum(Zeros(32), [t] + payload)
  {
    Continues(Zeros(32), [t], payload);
  }

  // ---------- masking ----------

  const TWO_32: nat := 0x1_0000_0000
  const MASK_DELTA: nat := 0xa282_ead8

  /** `Mask`: rotate right by 15 bits and add a constant, in 32 bits. */
  function Mask(crc: nat): (m: nat)
    requires crc < TWO_32
    ensures m < TWO_32
  {
    (crc / 0x8000 + crc % 0x8000 * 0x2_0000 + MASK_DELTA) % TWO_32
  }

  function Unmask(masked: nat): nat
    requires masked < TWO_32
  {
    var rot := (masked - MASK_DELTA) % TWO_32;
    rot / 0x2_0000 + rot % 0x2_0000 * 0x8000
  }

  lemma UnmaskUndoesMask(crc: nat)
    requires crc < TWO_32
    ensures Unmask(Mask(crc)) == crc
  {
    var rot := crc / 0x8000 + crc % 0x8000 * 0x2_0000;
    assert rot < TWO_32 && rot / 0x2_0000 == crc % 0x8000 && rot % 0x2_0000 == crc / 0x8000;
    assert (Mask(crc) - MASK_DELTA) % TWO_32 == rot;
  }

  lemma MaskUndoesUnmask(masked: nat)
    requires masked < TWO_32
    ensures Unmask(masked) < TWO_32 && Mask(Unmask(masked)) == masked
  {
    var rot := (masked - MASK_DELTA) % TWO_32;
    var crc := Unmask(masked);
    assert crc / 0x8000 == rot % 0x2_0000 && crc % 0x8000 == rot / 0x2_0000;
    assert (rot + MASK_DELTA) % TWO_32 == masked;
  }
}
