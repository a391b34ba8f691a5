/**
 The Bloom filter policy (`util/bloom.cc`) for an arbitrary hash function: which bits are set, and that
 a key of the filter is never rejected.
*/
module Bloom {
  import opened Coding

  type Key = seq<Byte>

  type Word = x: nat | x < TWO_32

  /** `BloomHash`. */
  type Hash = Key -> Word

  // ---------- bits of a byte ----------

  predicate Bit(b: nat, i: nat) {
    if i == 0 then b % 2 == 1 else Bit(b / 2, i - 1)
  }

  /** `b | 1 << i`. */
  function Or(b: nat, i: nat): nat {
    if i == 0 then b / 2 * 2 + 1 else 2 * Or(b / 2, i - 1) + b % 2
  }

  lemma {:induction false} OrFits(b: nat, i: nat, width: nat)
    requires i < width && b < Pow2(width)
    ensures Or(b, i) < Pow2(width)
    decreases i
  {
    var half := Pow2(width - 1);
    assert b / 2 < half;
    if i > 0 {
      OrFits(b / 2, i - 1, width - 1);
    }
  }

  lemma {:induction false} NoBits(i: nat)
    ensures !Bit(0, i)
  {
    if i > 0 {
      NoBits(i - 1);
    }
  }

  lemma {:induction false} OrBits(b: nat, i: nat, j: nat)
    ensures Bit(Or(b, i), j) <==> (j == i || Bit(b, j))
    decreases i + j
  {
    var r := Or(b, i);
    if i == 0 {
      assert r / 2 == b / 2 && r % 2 == 1;
    } else {
      assert r / 2 == Or(b / 2, i - 1) && r % 2 == b % 2;
      if j > 0 {
        OrBits(b / 2, i - 1, j - 1);
      }
    }
  }

  function WithBit(b: Byte, i: nat): Byte
    requires i < 8
  {
    assert Pow2(8) == 256;
    OrFits(b, i, 8);
    Or(b, i)
  }

  // ---------- bits of an array ----------

  predicate BitAt(a: seq<Byte>, n: nat)
    requires n < 8 * |a|
  {
    Bit(a[n / 8], n % 8)
  }

  function SetAt(a: seq<Byte>, n: nat): (r: seq<Byte>)
    requires n < 8 * |a|
    ensures |r| == |a|
  {
    a[n / 8 := WithBit(a[n / 8], n % 8)]
  }

  lemma SetAtBits(a: seq<Byte>, n: nat, m: nat)
    requires n < 8 * |a| && m < 8 * |a|
    ensures BitAt(SetAt(a, n), m) <==> (m == n || BitAt(a, m))
  {
    if n / 8 == m / 8 {
      OrBits(a[n / 8], n % 8, m % 8);
    }
  }

  // ---------- probes ----------

  /** Rotate right 17 bits. */
  function Delta(h: Word): Word {
    h / 0x2_0000 + h % 0x2_0000 * 0x8000
  }

  /** Double hashing: the hash after `j` probes. */
  function ProbeHash(h: Word, j: nat): Word {
    if j == 0 then h else (ProbeHash(h, j - 1) + Delta(h)) % TWO_32
  }

  /** The step between probes is the hash rotated by 17 bits, and they are equally spaced in 32 bits. */
  lemma {:induction false} ProbeIs(h: Word, j: nat, step: Word)
    requires step % 0x8000 == h / 0x2_0000 && step / 0x8000 == h % 0x2_0000
    ensures ProbeHash(h, j) == (h + j * step) % TWO_32
  {
    if j > 0 {
      ProbeIs(h, j - 1, step);
      assert step == Delta(h);
      SumWraps(h + (j - 1) * step, step);
      assert h + (j - 1) * step + step == h + j * step;
    }
  }

  lemma SumWraps(a: nat, b: nat)
    ensures (a % TWO_32 + b) % TWO_32 == (a + b) % TWO_32
  {
  }

  function Probe(h: Word, j: nat, bits: nat): (n: nat)
    requires bits > 0
    ensures n < bits
  {
    ProbeHash(h, j) % bits
  }

  /** Some key has one of its `k` probes at bit `n`. */
  ghost predicate Hit(hash: Hash, keys: seq<Key>, k: nat, bits: nat, n: nat)
    requires bits > 0
  {
    exists i, j :: 0 <= i < |keys| && 0 <= j < k && n == Probe(hash(keys[i]), j, bits)
  }

  /** The bits of a filter, in front of the number of probes. */
  function Body(filter: seq<Byte>): seq<Byte>
    requires filter != []
  {
    filter[..|filter| - 1]
  }

  function Probes(filter: seq<Byte>): Byte
    requires filter != []
  {
    filter[|filter| - 1]
  }

  function Size(filter: seq<Byte>): nat
    requires filter != []
  {
    8 * (|filter| - 1)
  }

  /** A filter: the bits that are hit, no others, and the number of probes. */
  ghost predicate IsFilter(hash: Hash, keys: seq<Key>, k: nat, filter: seq<Byte>) {
    && |filter| >= 2 && Probes(filter) == k
    && forall n | 0 <= n < Size(filter) :: BitAt(Body(filter), n) <==> Hit(hash, keys, k, Size(filter), n)
  }

  function Bytes(n: nat, bitsPerKey: nat): (b: nat)
    ensures b >= 8 && 8 * b >= n * bitsPerKey && (b > 8 ==> 8 * (b - 1) < n * bitsPerKey)
  {
    ((if n * bitsPerKey < 64 then 64 else n * bitsPerKey) + 7) / 8
  }

  /** `CreateFilter`, appending to `dst`; `k` is `k_`, between 1 and 30. */
  method CreateFilter(hash: Hash, bitsPerKey: nat, k: nat, keys: seq<Key>, dst: seq<Byte>) returns (r: seq<Byte>)
    requires 1 <= k <= 30
    ensures |r| == |dst| + Bytes(|keys|, bitsPerKey) + 1 && r[..|dst|] == dst
    ensures IsFilter(hash, keys, k, r[|dst|..])
  {
    var bits := |keys| * bitsPerKey;
    if bits < 64 {
      bits := 64;
    }
    var bytes := (bits + 7) / 8;
    bits := bytes * 8;
    var a: seq<Byte> := seq(bytes, _ => 0);
    var i := 0;
    forall n | 0 <= n < bits ensures !BitAt(a, n) {
      NoBits(n % 8);
    }
    while i < |keys|
      invariant i <= |keys| && |a| == bytes
      invariant forall n | 0 <= n < bits :: BitAt(a, n) <==> Hit(hash, keys[..i], k, bits, n)
    {
      a := AddProbes(hash, k, keys, i, a);
      i := i + 1;
    }
    assert keys[..|keys|] == keys;
    r := dst + (a + [k]);
    assert r[|dst|..] == a + [k] && Body(a + [k]) == a;
  }

  /** The inner loop: the probes of one key. */
  method AddProbes(hash: Hash, k: nat, keys: seq<Key>, i: nat, a0: seq<Byte>) returns (a: seq<Byte>)
    requires i < |keys| && |a0| > 0
    requires forall n | 0 <= n < 8 * |a0| :: BitAt(a0, n) <==> Hit(hash, keys[..i], k, 8 * |a0|, n)
    ensures |a| == |a0|
    ensures forall n | 0 <= n < 8 * |a| :: BitAt(a, n) <==> Hit(hash, keys[..i + 1], k, 8 * |a|, n)
  {
    a := a0;
    var bits := 8 * |a0|;
    var h0: Word := hash(keys[i]);
    var h, delta := h0, h0 / 0x2_0000 + h0 % 0x2_0000 * 0x8000;
    var j := 0;
    while j < k
      invariant j <= k && |a| == |a0| && h == ProbeHash(h0, j) && delta == Delta(h0)
      invariant forall n | 0 <= n < bits :: BitAt(a, n) <==> BitAt(a0, n) || ProbedBy(h0, j, bits, n)
    {
      var bitpos := h % bits;
      ghost var before := a;
      a := a[bitpos / 8 := WithBit(a[bitpos / 8], bitpos % 8)];
      forall n | 0 <= n < bits ensures BitAt(a, n) <==> BitAt(a0, n) || ProbedBy(h0, j + 1, bits, n) {
        SetAtBits(before, bitpos, n);
        ProbedMore(h0, j, bits, n);
      }
      h := (h + delta) % TWO_32;
      j := j + 1;
    }
    forall n | 0 <= n < bits ensures BitAt(a, n) <==> Hit(hash, keys[..i + 1], k, bits, n) {
      HitMore(hash, keys, i, k, bits, n);
    }
  }

  ghost predicate ProbedBy(h: Word, k: nat, bits: nat, n: nat)
    requires bits > 0
  {
    exists j :: 0 <= j < k && n == Probe(h, j, bits)
  }

  lemma ProbedMore(h: Word, k: nat, bits: nat, n: nat)
    requires bits > 0
    ensures ProbedBy(h, k + 1, bits, n) <==> ProbedBy(h, k, bits, n) || n == Probe(h, k, bits)
  {
    if ProbedBy(h, k + 1, bits, n) {
      var j :| 0 <= j < k + 1 && n == Probe(h, j, bits);
    }
    if ProbedBy(h, k, bits, n) {
      var j :| 0 <= j < k && n == Probe(h, j, bits);
    }
  }

  lemma HitMore(hash: Hash, keys: seq<Key>, i: nat, k: nat, bits: nat, n: nat)
    requires i < |keys| && bits > 0
    ensures Hit(hash, keys[..i + 1], k, bits, n)
       <==> Hit(hash, keys[..i], k, bits, n) || ProbedBy(hash(keys[i]), k, bits, n)
  {
    if Hit(hash, keys[..i + 1], k, bits, n) {
      var i', j :| 0 <= i' < i + 1 && 0 <= j < k && n == Probe(hash(keys[..i + 1][i']), j, bits);
      if i' < i {
        assert keys[..i][i'] == keys[..i + 1][i'];
      }
    }
    if Hit(hash, keys[..i], k, bits, n) {
      var i', j :| 0 <= i' < i && 0 <= j < k && n == Probe(hash(keys[..i][i']), j, bits);
      assert keys[..i + 1][i'] == keys[..i][i'];
    }
    if ProbedBy(hash(keys[i]), k, bits, n) {
      var j :| 0 <= j < k && n == Probe(hash(keys[i]), j, bits);
      assert keys[..i + 1][i] == keys[i];
    }
  }

  /** What `KeyMayMatch` answers. */
  ghost predicate Matches(hash: Hash, key: Key, filter: seq<Byte>) {
    |filter| >= 2 &&
    (Probes(filter) > 30 || forall j | 0 <= j < Probes(filter) :: ProbeSet(hash(key), filter, j))
  }

  /** The bit of probe `j` is set. */
  predicate ProbeSet(h: Word, filter: seq<Byte>, j: nat)
    requires |filter| >= 2
  {
    BitAt(Body(filter), Probe(h, j, Size(filter)))
  }

  /** `KeyMayMatch`. */
  method KeyMayMatch(hash: Hash, key: Key, filter: seq<Byte>) returns (r: bool)
    ensures r <==> Matches(hash, key, filter)
  {
    if |filter| < 2 {
      return false;
    }
    var bitArray, bits, k := filter[..|filter| - 1], (|filter| - 1) * 8, filter[|filter| - 1];
    if k > 30 {
      return true;
    }
    var h0: Word := hash(key);
    var h, delta := h0, h0 / 0x2_0000 + h0 % 0x2_0000 * 0x8000;
    var j := 0;
    while j < k
      invariant j <= k && h == ProbeHash(h0, j) && delta == Delta(h0)
      invariant forall i | 0 <= i < j :: ProbeSet(hash(key), filter, i)
    {
      var bitpos := h % bits;
      assert bitpos == Probe(hash(key), j, Size(filter)) && bitArray == Body(filter);
      if !Bit(bitArray[bitpos / 8], bitpos % 8) {
        assert !ProbeSet(hash(key), filter, j);
        return false;
      }
      h := (h + delta) % TWO_32;
      j := j + 1;
    }
    return true;
  }

  /** No false negatives: a key that is in a filter matches it. */
  lemma KeyMatches(hash: Hash, keys: seq<Key>, k: nat, filter: seq<Byte>, key: Key)
    requires IsFilter(hash, keys, k, filter) && key in keys
    ensures Matches(hash, key, filter)
  {
    var i :| 0 <= i < |keys| && keys[i] == key;
    forall j | 0 <= j < k ensures ProbeSet(hash(key), filter, j) {
      assert Hit(hash, keys, k, Size(filter), Probe(hash(keys[i]), j, Size(filter)));
    }
  }

  /** A key is rejected exactly if one of its bits was hit by no key of the filter. */
  lemma RejectedIff(hash: Hash, keys: seq<Key>, k: nat, filter: seq<Byte>, key: Key)
    requires IsFilter(hash, keys, k, filter) && k <= 30
    ensures !Matches(hash, key, filter) <==>
      exists j :: 0 <= j < k && !Hit(hash, keys, k, Size(filter), Probe(hash(key), j, Size(filter)))
  {
    if !Matches(hash, key, filter) {
      var j :| 0 <= j < k && !ProbeSet(hash(key), filter, j);
      assert !Hit(hash, keys, k, Size(filter), Probe(hash(key), j, Size(filter)));
    } else {
      forall j | 0 <= j < k ensures Hit(hash, keys, k, Size(filter), Probe(hash(key), j, Size(filter))) {
        assert ProbeSet(hash(key), filter, j);
      }
    }
  }
}
