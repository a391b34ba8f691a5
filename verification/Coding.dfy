/**
 Integer and string encodings (`util/coding.cc`): varints, little-endian integers and
 length-prefixed strings, with parsers that undo them whatever bytes follow.
*/
module Coding {

  type Byte = x: int | 0 <= x < 256

  const TWO_32: nat := 0x1_0000_0000
  const TWO_64: nat := 0x1_0000_0000_0000_0000

  /** What is read off the front of a slice, and the slice left over. */
  datatype Parsed<T> = Malformed | Parsed(value: T, rest: seq<Byte>)

  // ---------- varints ----------

  /** Seven bits a byte, least significant first; the top bit says that more follow. */
  function Varint(v: nat): (s: seq<Byte>)
    ensures |s| >= 1
  {
    if v < 128 then [v] else [v % 128 + 128] + Varint(v / 128)
  }

  /** Reads a varint of at most `digits` bytes. */
  function ReadVarint(s: seq<Byte>, digits: nat): Parsed<nat>
    decreases digits, s
  {
    if digits == 0 || s == [] then Malformed
    else if s[0] < 128 then Parsed(s[0], s[1..])
    else
      match ReadVarint(s[1..], digits - 1)
      case Malformed => Malformed
      case Parsed(v, rest) => Parsed(s[0] - 128 + 128 * v, rest)
  }

  function Pow128(n: nat): (p: nat)
    ensures p >= 1
  {
    if n == 0 then 1 else 128 * Pow128(n - 1)
  }

  /** The least significant seven bits come first; all bytes but the last have the top bit set. */
  lemma {:induction false} VarintIs(v: nat, i: nat)
    requires i < |Varint(v)|
    ensures Varint(v)[i] == v / Pow128(i) % 128 + if i + 1 < |Varint(v)| then 128 else 0
  {
    if i > 0 {
      VarintIs(v / 128, i - 1);
      DividedTwice(v, 128, Pow128(i - 1));
    }
  }

  lemma {:induction false} VarintRoundTrip(v: nat, rest: seq<Byte>, digits: nat)
    requires digits > 0 && v < Pow128(digits)
    ensures ReadVarint(Varint(v) + rest, digits) == Parsed(v, rest)
    ensures |Varint(v)| <= digits
  {
    var s := Varint(v) + rest;
    if v < 128 {
      assert s[1..] == rest;
    } else {
      assert digits > 1 by {
        assert Pow128(1) == 128 * Pow128(0);
      }
      assert s[1..] == Varint(v / 128) + rest;
      VarintRoundTrip(v / 128, rest, digits - 1);
    }
  }

  lemma Pow128Of5And10()
    ensures Pow128(4) == 0x1000_0000 && Pow128(5) == 128 * 0x1000_0000 && Pow128(9) == 0x8000_0000_0000_0000
    ensures Pow128(10) == 128 * 0x8000_0000_0000_0000
  {
    assert Pow128(1) == 128 * Pow128(0) && Pow128(2) == 128 * Pow128(1) && Pow128(3) == 128 * Pow128(2);
    assert Pow128(4) == 128 * Pow128(3) && Pow128(5) == 128 * Pow128(4) && Pow128(6) == 128 * Pow128(5);
    assert Pow128(7) == 128 * Pow128(6) && Pow128(8) == 128 * Pow128(7) && Pow128(9) == 128 * Pow128(8);
  }

  /** `EncodeVarint32`: one branch for every length. */
  method EncodeVarint32(v: nat) returns (s: seq<Byte>)
    requires v < TWO_32
    ensures s == Varint(v)
  {
    var v1 := v / 128;
    var v2 := v1 / 128;
    var v3 := v2 / 128;
    if v < 0x80 {
      s := [v];
    } else if v < 0x4000 {
      s := [v % 128 + 128, v1];
    } else if v < 0x20_0000 {
      s := [v % 128 + 128, v1 % 128 + 128, v2];
      assert Varint(v1) == [v1 % 128 + 128] + Varint(v2);
    } else if v < 0x1000_0000 {
      s := [v % 128 + 128, v1 % 128 + 128, v2 % 128 + 128, v3];
      assert Varint(v2) == [v2 % 128 + 128] + Varint(v3);
      assert Varint(v1) == [v1 % 128 + 128] + Varint(v2);
    } else {
      s := [v % 128 + 128, v1 % 128 + 128, v2 % 128 + 128, v3 % 128 + 128, v3 / 128];
      assert Varint(v3) == [v3 % 128 + 128] + Varint(v3 / 128);
      assert Varint(v2) == [v2 % 128 + 128] + Varint(v3);
      assert Varint(v1) == [v1 % 128 + 128] + Varint(v2);
    }
  }

  /** What `result` and the bytes still to be read will amount to. */
  function Continued(result: nat, unit: nat, r: Parsed<nat>): Parsed<nat> {
    match r
    case Malformed => Malformed
    case Parsed(v, rest) => Parsed(result + unit * v, rest)
  }

  function WithDigit(result: nat, unit: nat, digit: nat): nat {
    result + unit * digit
  }

  lemma ContinueStep(s: seq<Byte>, digits: nat, result: nat, unit: nat)
    requires digits > 0 && s != [] && s[0] >= 128
    ensures Continued(result, unit, ReadVarint(s, digits)) ==
      Continued(WithDigit(result, unit, s[0] - 128), 128 * unit, ReadVarint(s[1..], digits - 1))
  {
    var r := ReadVarint(s[1..], digits - 1);
    if r.Parsed? {
      calc {
        result + unit * (s[0] - 128 + 128 * r.value);
        result + (unit * (s[0] - 128) + unit * (128 * r.value));
        result + unit * (s[0] - 128) + 128 * unit * r.value;
      }
    }
  }

  lemma ContinueLast(s: seq<Byte>, digits: nat, result: nat, unit: nat)
    requires digits > 0 && s != [] && s[0] < 128
    ensures Continued(result, unit, ReadVarint(s, digits)) == Parsed(WithDigit(result, unit, s[0]), s[1..])
  {
  }

  function Truncated(r: Parsed<nat>, width: nat): Parsed<nat>
    requires width > 0
  {
    match r
    case Malformed => Malformed
    case Parsed(v, rest) => Parsed(v % width, rest)
  }

  /**
   `GetVarint32PtrFallback` and `GetVarint64Ptr`: five or ten bytes at most, the number cut to the
   width of the result.  Bits set by different bytes never meet, so `|=` is addition.
  */
  method GetVarint(s: seq<Byte>, digits: nat, width: nat) returns (r: Parsed<nat>)
    requires width > 0
    ensures r == Truncated(ReadVarint(s, digits), width)
  {
    var result: nat, unit: nat, i := 0, 1, 0;
    while i < digits && i < |s|
      invariant i <= digits && i <= |s|
      invariant ReadVarint(s, digits) == Continued(result, unit, ReadVarint(s[i..], digits - i))
    {
      var byte := s[i];
      ghost var left := s[i..];
      assert left[0] == byte && left[1..] == s[i + 1..];
      if byte >= 128 {
        ContinueStep(left, digits - i, result, unit);
        result, unit := WithDigit(result, unit, byte - 128), 128 * unit;
      } else {
        ContinueLast(left, digits - i, result, unit);
        return Truncated(Parsed(WithDigit(result, unit, byte), s[i + 1..]), width);
      }
      i := i + 1;
    }
    return Malformed;
  }

  /** The parsers of the store: `GetVarint32` and `GetVarint64`. */
  function Get32(s: seq<Byte>): Parsed<nat> {
    Truncated(ReadVarint(s, 5), TWO_32)
  }

  function Get64(s: seq<Byte>): Parsed<nat> {
    Truncated(ReadVarint(s, 10), TWO_64)
  }

  lemma GetRoundTrip(v: nat, rest: seq<Byte>, digits: nat, width: nat)
    requires v < width && digits > 0 && v < Pow128(digits)
    ensures Truncated(ReadVarint(Varint(v) + rest, digits), width) == Parsed(v, rest)
  {
    VarintRoundTrip(v, rest, digits);
    SmallModulo(v, width);
  }

  lemma SmallModulo(v: nat, width: nat)
    requires v < width
    ensures v % width == v
  {
  }

  lemma Get32RoundTrip(v: nat, rest: seq<Byte>)
    requires v < TWO_32
    ensures Get32(Varint(v) + rest) == Parsed(v, rest)
  {
    Pow128Of5And10();
    GetRoundTrip(v, rest, 5, TWO_32);
  }

  lemma Get64RoundTrip(v: nat, rest: seq<Byte>)
    requires v < TWO_64
    ensures Get64(Varint(v) + rest) == Parsed(v, rest)
  {
    Pow128Of5And10();
    GetRoundTrip(v, rest, 10, TWO_64);
  }

  // ---------- length-prefixed strings ----------

  function Prefixed(s: seq<Byte>): seq<Byte> {
    Varint(|s|) + s
  }

  function GetPrefixed(s: seq<Byte>): Parsed<seq<Byte>> {
    match Get32(s)
    case Malformed => Malformed
    case Parsed(len, rest) => if len <= |rest| then Parsed(rest[..len], rest[len..]) else Malformed
  }

  lemma PrefixedRoundTrip(s: seq<Byte>, rest: seq<Byte>)
    requires |s| < TWO_32
    ensures GetPrefixed(Prefixed(s) + rest) == Parsed(s, rest)
  {
    assert Prefixed(s) + rest == Varint(|s|) + (s + rest);
    Get32RoundTrip(|s|, s + rest);
    assert (s + rest)[..|s|] == s && (s + rest)[|s|..] == rest;
  }

  /** A parsed varint or string leaves less of the slice. */
  lemma {:induction false} VarintShrinks(s: seq<Byte>, digits: nat)
    ensures ReadVarint(s, digits).Parsed? ==> |ReadVarint(s, digits).rest| < |s|
    decreases digits
  {
    if digits > 0 && s != [] {
      VarintShrinks(s[1..], digits - 1);
    }
  }

  lemma PrefixedShrinks(s: seq<Byte>)
    ensures GetPrefixed(s).Parsed? ==> |GetPrefixed(s).rest| < |s|
  {
    VarintShrinks(s, 5);
  }

  // ---------- fixed-width integers ----------

  function Pow2(n: nat): (p: nat)
    ensures p >= 1
  {
    if n == 0 then 1 else 2 * Pow2(n - 1)
  }

  /** Little-endian, `n` bytes. */
  function Fixed(v: nat, n: nat): (s: seq<Byte>)
    ensures |s| == n
    decreases n, v
  {
    if n == 0 then [] else [v % 256] + Fixed(v / 256, n - 1)
  }

  function ReadFixed(s: seq<Byte>): nat {
    if s == [] then 0 else s[0] + 256 * ReadFixed(s[1..])
  }

  function Pow256(n: nat): (p: nat)
    ensures p >= 1
  {
    if n == 0 then 1 else 256 * Pow256(n - 1)
  }

  lemma {:induction false} FixedRoundTrip(v: nat, n: nat)
    requires v < Pow256(n)
    ensures ReadFixed(Fixed(v, n)) == v
  {
    if n > 0 {
      FixedRoundTrip(v / 256, n - 1);
    }
  }

  lemma QuotientIs(v: nat, d: nat, q: nat, r: nat)
    requires v == q * d + r && r < d
    ensures v / d == q
  {
    var x := v / d - q;
    assert x * d == r - v % d;
    assert x >= 1 ==> x * d >= d;
    assert x <= -1 ==> x * d + d <= 0;
  }

  /** Dividing twice is dividing by the product. */
  lemma DividedTwice(v: nat, a: nat, b: nat)
    requires a > 0 && b > 0
    ensures a * b > 0 && v / a / b == v / (a * b)
  {
    var w := v / a;
    WithProduct(v, a, b, w, w / b, w % b, v % a);
  }

  lemma WithProduct(v: nat, a: nat, b: nat, w: nat, q: nat, r: nat, s: nat)
    requires a > 0 && b > 0 && r < b && s < a && w == q * b + r && v == w * a + s
    ensures a * b > 0 && v / (a * b) == q
  {
    ProductOf(v, a, b, w, q, r, s);
    SmallRest(a, b, r, s);
    QuotientIs(v, a * b, q, r * a + s);
  }

  lemma ProductOf(v: nat, a: nat, b: nat, w: nat, q: nat, r: nat, s: nat)
    requires w == q * b + r && v == w * a + s
    ensures v == q * (a * b) + (r * a + s)
  {
    assert w * a == q * b * a + r * a;
    assert q * b * a == q * (a * b);
  }

  lemma SmallRest(a: nat, b: nat, r: nat, s: nat)
    requires r < b && s < a
    ensures r * a + s < a * b && a * b > 0
  {
    assert (r + 1) * a <= b * a;
  }

  /** The least significant byte comes first. */
  lemma {:induction false} FixedIs(v: nat, n: nat, i: nat)
    requires i < n
    ensures Fixed(v, n)[i] == v / Pow256(i) % 256
  {
    if i > 0 {
      FixedIs(v / 256, n - 1, i - 1);
      DividedTwice(v, 256, Pow256(i - 1));
    }
  }

  lemma Pow256Of4And8()
    ensures Pow256(2) == 0x1_0000 && Pow256(4) == TWO_32 && Pow256(8) == TWO_64
  {
    assert Pow256(1) == 256 * Pow256(0) && Pow256(2) == 256 * Pow256(1) && Pow256(3) == 256 * Pow256(2);
    assert Pow256(4) == 256 * Pow256(3) && Pow256(5) == 256 * Pow256(4) && Pow256(6) == 256 * Pow256(5);
    assert Pow256(7) == 256 * Pow256(6) && Pow256(8) == 256 * Pow256(7);
  }

  lemma {:induction false} FixedFits(s: seq<Byte>)
    ensures ReadFixed(s) < Pow256(|s|)
  {
    if s != [] {
      FixedFits(s[1..]);
    }
  }

  /** Bytes are those of the number they stand for. */
  lemma {:induction false} ReadThenFixed(s: seq<Byte>)
    ensures Fixed(ReadFixed(s), |s|) == s
  {
    if s != [] {
      ReadThenFixed(s[1..]);
      assert ReadFixed(s) % 256 == s[0] && ReadFixed(s) / 256 == ReadFixed(s[1..]);
    }
  }

  /** `DecodeFixed32`. */
  function ReadWord(s: seq<Byte>): (v: nat)
    requires |s| == 4
    ensures v < TWO_32 && v == ReadFixed(s)
  {
    FixedFits(s);
    Pow256Of4And8();
    ReadFixed(s)
  }

  /** Zero bytes. */
  function Padding(n: nat): (s: seq<Byte>)
    ensures |s| == n
  {
    seq(n, _ => 0)
  }

  // ---------- arrays of 32-bit integers ----------

  /** Element `i` of an array of fixed-width integers that starts at `at`. */
  ghost predicate WordAt(s: seq<Byte>, at: nat, values: seq<nat>, i: nat)
    requires i < |values|
  {
    at + 4 * i + 4 <= |s| && s[at + 4 * i..at + 4 * i + 4] == Fixed(values[i], 4)
  }

  /** `PutFixed32` of every value. */
  method PutWords(dst: seq<Byte>, values: seq<nat>) returns (r: seq<Byte>)
    ensures dst <= r && |r| == |dst| + 4 * |values|
    ensures forall i {:trigger WordAt(r, |dst|, values, i)} | 0 <= i < |values| :: WordAt(r, |dst|, values, i)
  {
    r := dst;
    var i := 0;
    while i < |values|
      invariant i <= |values| && |r| == |dst| + 4 * i && dst <= r
      invariant forall j {:trigger WordAt(r, |dst|, values, j)} | 0 <= j < i :: WordAt(r, |dst|, values, j)
    {
      WordAppended(r, |dst|, values, i);
      r := r + Fixed(values[i], 4);
      i := i + 1;
    }
  }

  lemma WordAppended(r: seq<Byte>, at: nat, values: seq<nat>, i: nat)
    requires i < |values| && |r| == at + 4 * i
    requires forall j {:trigger WordAt(r, at, values, j)} | 0 <= j < i :: WordAt(r, at, values, j)
    ensures forall j {:trigger WordAt(r + Fixed(values[i], 4), at, values, j)} | 0 <= j <= i ::
              WordAt(r + Fixed(values[i], 4), at, values, j)
  {
    var r' := r + Fixed(values[i], 4);
    forall j | 0 <= j <= i ensures WordAt(r', at, values, j) {
      if j < i {
        assert WordAt(r, at, values, j);
        assert r'[at + 4 * j..at + 4 * j + 4] == r[at + 4 * j..at + 4 * j + 4];
      } else {
        assert r'[at + 4 * j..at + 4 * j + 4] == Fixed(values[i], 4);
      }
    }
  }

  lemma WordsIn(s: seq<Byte>, longer: seq<Byte>, at: nat, values: seq<nat>, i: nat)
    requires i < |values| && WordAt(s, at, values, i) && s <= longer
    ensures WordAt(longer, at, values, i)
  {
    assert longer[at + 4 * i..at + 4 * i + 4] == s[at + 4 * i..at + 4 * i + 4];
  }

  lemma WordRead(s: seq<Byte>, at: nat, values: seq<nat>, i: nat)
    requires i < |values| && WordAt(s, at, values, i) && values[i] < TWO_32
    ensures ReadFixed(s[at + 4 * i..at + 4 * i + 4]) == values[i]
  {
    Pow256Of4And8();
    FixedRoundTrip(values[i], 4);
  }
}
