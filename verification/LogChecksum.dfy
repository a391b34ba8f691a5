/**
 The checksum in the log (`crc32c::Value` of type and payload): the writer continues the precomputed
 checksum of the type over the payload.
*/
module LogChecksum {
  import opened Coding
  import opened Crc32c
  import opened LogFormat

  function Octets(s: seq<Byte>): seq<Octet> {
    seq(|s|, i requires 0 <= i < |s| => BitsOf(s[i], 8))
  }

  function NumberOf(bits: seq<bool>): nat {
    if bits == [] then 0 else (if bits[0] then 1 else 0) + 2 * NumberOf(bits[1..])
  }

  lemma {:induction false} NumberFits(bits: seq<bool>)
    ensures NumberOf(bits) < Pow2(|bits|)
  {
    if bits != [] {
      NumberFits(bits[1..]);
    }
  }

  lemma WordFits(w: Word)
    ensures NumberOf(w) < Coding.TWO_32
  {
    NumberFits(w);
    Pow2Is(32);
  }

  lemma Pow2Is(n: nat)
    requires n == 32
    ensures Pow2(n) == Coding.TWO_32
  {
    assert Pow2(4) == 16;
    Pow2Add(4, 4);
    Pow2Add(8, 8);
    assert Pow2(16) == 0x1_0000;
    Pow2Add(16, 16);
  }

  lemma {:induction false} Pow2Add(m: nat, n: nat)
    ensures Pow2(m + n) == Pow2(m) * Pow2(n)
  {
    if m > 0 {
      Pow2Add(m - 1, n);
      assert Pow2(m + n) == 2 * (Pow2(m - 1) * Pow2(n)) == (2 * Pow2(m - 1)) * Pow2(n);
    }
  }

  /** `crc32c::Value`. */
  function Value(s: seq<Byte>): Word32 {
    WordFits(Crc32c.Checksum(Zeros(32), Octets(s)));
    NumberOf(Crc32c.Checksum(Zeros(32), Octets(s)))
  }

  /** An entry of `type_crc_` as `InitTypeCrc` sets it up. */
  function TypeCrc(t: Byte): Word {
    Crc32c.Checksum(Zeros(32), Octets([t]))
  }

  /** `Extend(type_crc_[t], ptr, length)` in `EmitPhysicalRecord`; the payload starts at address `addr`. */
  method ValueOfFragment(typeCrc: Word, t: Byte, payload: seq<Byte>, addr: nat) returns (crc: Word32)
    requires typeCrc == TypeCrc(t)
    ensures crc == Value([t] + payload)
  {
    var w := Crc32c.Extend(typeCrc, Octets(payload), addr);
    assert w == Crc32c.Checksum(Zeros(32), Octets([t] + payload)) by {
      TypeThenPayload(BitsOf(t, 8), Octets(payload));
      assert Octets([t]) == [BitsOf(t, 8)] && Octets([t] + payload) == [BitsOf(t, 8)] + Octets(payload);
    }
    WordFits(w);
    crc := NumberOf(w);
  }
}

