/**
 Encodings that are cut off: what the parsers of batches (`db/write_batch.cc`) and of version edits
 (`db/version_edit.cc`) make of any beginning of what was encoded.
*/
module CutRecords {
  import opened Coding
  import opened Sequences
  import opened WriteBatches
  import VE = VersionEdits
  import Versions

  /** A beginning of two parts is one of the first, or the first and a beginning of the second. */
  lemma CutParts(a: seq<Byte>, b: seq<Byte>, n: nat)
    requires n <= |a + b|
    ensures (a + b)[..n] == if n <= |a| then a[..n] else a + b[..n - |a|]
  {
  }

  // ---------- numbers and strings ----------

  lemma {:induction false} VarintCut(v: nat, n: nat, digits: nat)
    requires n < |Varint(v)|
    ensures ReadVarint(Varint(v)[..n], digits).Malformed?
    decreases n
  {
    if n > 0 && digits > 0 {
      VarintCut(v / 128, n - 1, digits - 1);
      assert Varint(v)[..n][1..] == Varint(v / 128)[..n - 1];
    }
  }

  lemma PrefixedCut(x: seq<Byte>, n: nat)
    requires |x| < TWO_32 && n < |Prefixed(x)|
    ensures GetPrefixed(Prefixed(x)[..n]).Malformed?
  {
    var head := Varint(|x|);
    CutParts(head, x, n);
    if n < |head| {
      VarintCut(|x|, n, 5);
    } else {
      var rest := x[..n - |head|];
      assert Prefixed(x)[..n] == head + rest;
      Get32RoundTrip(|x|, rest);
    }
  }

  lemma StringCut(x: seq<Byte>, rest: seq<Byte>, n: nat)
    requires |x| < TWO_32 && n <= |Prefixed(x) + rest|
    ensures var s := (Prefixed(x) + rest)[..n];
      if n < |Prefixed(x)| then GetPrefixed(s).Malformed? else GetPrefixed(s) == Parsed(x, rest[..n - |Prefixed(x)|])
  {
    CutParts(Prefixed(x), rest, n);
    if n < |Prefixed(x)| {
      PrefixedCut(x, n);
    } else {
      assert (Prefixed(x) + rest)[..n] == Prefixed(x) + rest[..n - |Prefixed(x)|];
      PrefixedRoundTrip(x, rest[..n - |Prefixed(x)|]);
    }
  }

  // ---------- batches ----------

  /** A key and a value that are cut off: the key is, or the value behind it. */
  lemma PairCut(key: seq<Byte>, value: seq<Byte>, n: nat)
    requires |key| < TWO_32 && |value| < TWO_32 && n < |Prefixed(key) + Prefixed(value)|
    ensures var r := GetPrefixed((Prefixed(key) + Prefixed(value))[..n]);
      r.Malformed? || GetPrefixed(r.rest).Malformed?
  {
    StringCut(key, Prefixed(value), n);
    if n >= |Prefixed(key)| {
      PrefixedCut(value, n - |Prefixed(key)|);
    }
  }

  lemma BehindTag(tag: Byte, payload: seq<Byte>, n: nat)
    requires 0 < n <= |[tag] + payload|
    ensures ([tag] + payload)[..n][0] == tag && ([tag] + payload)[..n][1..] == payload[..n - 1]
  {
  }

  lemma PutIsCut(input: seq<Byte>)
    requires input != [] && input[0] == TYPE_VALUE
    requires var r := GetPrefixed(input[1..]); r.Malformed? || GetPrefixed(r.rest).Malformed?
    ensures GetOp(input).Malformed?
  {
  }

  lemma PutCut(key: seq<Byte>, value: seq<Byte>, n: nat)
    requires |key| < TWO_32 && |value| < TWO_32 && 0 < n < |EncodeOp(Put(key, value))|
    ensures GetOp(EncodeOp(Put(key, value))[..n]).Malformed?
  {
    BehindTag(TYPE_VALUE, Prefixed(key) + Prefixed(value), n);
    PairCut(key, value, n - 1);
    PutIsCut(EncodeOp(Put(key, value))[..n]);
  }

  lemma DeleteCut(key: seq<Byte>, n: nat)
    requires |key| < TWO_32 && 0 < n < |EncodeOp(Delete(key))|
    ensures GetOp(EncodeOp(Delete(key))[..n]).Malformed?
  {
    BehindTag(TYPE_DELETION, Prefixed(key), n);
    PrefixedCut(key, n - 1);
  }

  lemma OpCut(op: Op, n: nat)
    requires Fits(op) && 0 < n < |EncodeOp(op)|
    ensures GetOp(EncodeOp(op)[..n]).Malformed?
  {
    match op
    case Delete(key) => DeleteCut(key, n);
    case Put(key, value) => PutCut(key, value, n);
  }

  /** The operations before the cut are delivered, and the end is found only if the cut is between two of them. */
  lemma {:induction false} OpsCut(ops: seq<Op>, n: nat) returns (k: nat)
    requires (forall op | op in ops :: Fits(op)) && n <= |EncodeOps(ops)|
    ensures k <= |ops| && |EncodeOps(ops[..k])| <= n && (k < |ops| ==> n < |EncodeOps(ops[..k + 1])|)
    ensures GetOps(EncodeOps(ops)[..n]) == Delivered(ops[..k], n == |EncodeOps(ops[..k])|)
  {
    if n == 0 {
      k := 0;
      assert ops != [] ==> ops[..1][1..] == [];
    } else {
      var head, rest := EncodeOp(ops[0]), EncodeOps(ops[1..]);
      CutParts(head, rest, n);
      if n < |head| {
        k := 0;
        OpCut(ops[0], n);
        assert ops[..1][1..] == [] && EncodeOps(ops[..1]) == head + [];
      } else {
        var j := OpsCut(ops[1..], n - |head|);
        k := j + 1;
        assert EncodeOps(ops)[..n] == head + rest[..n - |head|];
        GetOpUndoes(ops[0], rest[..n - |head|]);
        FirstOp(ops, j);
        if k < |ops| {
          FirstOp(ops, k);
        }
      }
    }
  }

  lemma FirstOp(ops: seq<Op>, j: nat)
    requires j < |ops|
    ensures ops[..j + 1] == [ops[0]] + ops[1..][..j]
    ensures EncodeOps(ops[..j + 1]) == EncodeOp(ops[0]) + EncodeOps(ops[1..][..j])
  {
    assert ops[..j + 1][1..] == ops[1..][..j];
  }

  /** A batch that lost its end is never taken for a whole one, and what is left delivers its first operations. */
  lemma CutIsCorrupt(first: nat, ops: seq<Op>, n: nat) returns (k: nat)
    requires (forall op | op in ops :: Fits(op)) && |ops| < TWO_32 && first < TWO_64
    requires HEADER <= n < |Rep(first, ops)|
    ensures StatusOf(Rep(first, ops)[..n]) == Corruption
    ensures k < |ops| && GetOps(Rep(first, ops)[..n][HEADER..]).ops == ops[..k]
  {
    var head, data := Fixed(first, 8) + Fixed(|ops|, 4), EncodeOps(ops);
    CutParts(head, data, n);
    k := OpsCut(ops, n - HEADER);
    WholeOps(ops);
    CountKept(first, |ops|, Rep(first, ops)[..n], data[..n - HEADER]);
  }

  lemma WholeOps(ops: seq<Op>)
    ensures EncodeOps(ops[..|ops|]) == EncodeOps(ops)
  {
    assert ops[..|ops|] == ops;
  }

  lemma CountKept(first: nat, count: nat, s: seq<Byte>, rest: seq<Byte>)
    requires count < TWO_32 && s == Fixed(first, 8) + Fixed(count, 4) + rest
    ensures |s| >= HEADER && CountOf(s) == count && s[HEADER..] == rest
  {
    assert s[8..HEADER] == Fixed(count, 4);
    Pow256Of4And8();
    FixedRoundTrip(count, 4);
  }

  /** A batch is corrupt if its count is not that of its operations. */
  lemma CountDecides(first: nat, count: nat, ops: seq<Op>)
    requires (forall op | op in ops :: Fits(op)) && count < TWO_32
    ensures var s := Fixed(first, 8) + Fixed(count, 4) + EncodeOps(ops);
      StatusOf(s) == if count == |ops| then OK else Corruption
  {
    CountKept(first, count, Fixed(first, 8) + Fixed(count, 4) + EncodeOps(ops), EncodeOps(ops));
    GetOpsUndoes(ops);
  }

  lemma OneDelivered(op: Op, more: seq<Byte>, s: seq<Byte>)
    requires Fits(op) && s == EncodeOp(op) + more
    ensures GetOps(s) == Delivered([op] + GetOps(more).ops, GetOps(more).complete)
  {
    GetOpUndoes(op, more);
  }

  lemma StopsAt(tail: seq<Byte>)
    requires tail != [] && tail[0] > 1
    ensures GetOps([] + tail) == Delivered([], false)
  {
    assert [] + tail == tail;
  }

  /** Nothing behind an operation of an unknown kind is delivered. */
  lemma {:induction false} UnknownKind(ops: seq<Op>, tail: seq<Byte>)
    requires (forall op | op in ops :: Fits(op)) && tail != [] && tail[0] > 1
    ensures GetOps(EncodeOps(ops) + tail) == Delivered(ops, false)
  {
    if ops == [] {
      StopsAt(tail);
    } else {
      var first, more := EncodeOp(ops[0]), EncodeOps(ops[1..]);
      UnknownKind(ops[1..], tail);
      Regroup3(first, more, tail);
      OneDelivered(ops[0], more + tail, first + more + tail);
      assert [ops[0]] + ops[1..] == ops;
    }
  }

  // ---------- version edits ----------

  lemma LeveledCut(level: nat, payload: seq<Byte>, n: nat)
    requires level < Versions.NUM_LEVELS && n <= |Varint(level) + payload|
    ensures var s := (Varint(level) + payload)[..n];
      if n < |Varint(level)| then VE.GetLevel(s).Malformed?
      else VE.GetLevel(s) == Parsed(level, payload[..n - |Varint(level)|])
  {
    CutParts(Varint(level), payload, n);
    if n < |Varint(level)| {
      VarintCut(level, n, 5);
    } else {
      assert (Varint(level) + payload)[..n] == Varint(level) + payload[..n - |Varint(level)|];
      Get32RoundTrip(level, payload[..n - |Varint(level)|]);
    }
  }

  lemma NumberCut(v: nat, rest: seq<Byte>, n: nat)
    requires v < TWO_64 && n <= |Varint(v) + rest|
    ensures var s := (Varint(v) + rest)[..n];
      if n < |Varint(v)| then Get64(s).Malformed? else Get64(s) == Parsed(v, rest[..n - |Varint(v)|])
  {
    CutParts(Varint(v), rest, n);
    if n < |Varint(v)| {
      VarintCut(v, n, 10);
    } else {
      assert (Varint(v) + rest)[..n] == Varint(v) + rest[..n - |Varint(v)|];
      Get64RoundTrip(v, rest[..n - |Varint(v)|]);
    }
  }

  lemma FileCut(f: VE.FileMeta, n: nat)
    requires VE.MetaOk(f)
    requires n < |Varint(f.number) + (Varint(f.size) + (Prefixed(f.smallest) + Prefixed(f.largest)))|
    ensures var file := Varint(f.number) + (Varint(f.size) + (Prefixed(f.smallest) + Prefixed(f.largest)));
      VE.GetFile(file[..n]).Malformed?
  {
    var c := Prefixed(f.smallest) + Prefixed(f.largest);
    var b := Varint(f.size) + c;
    NumberCut(f.number, b, n);
    if n >= |Varint(f.number)| {
      var m := n - |Varint(f.number)|;
      NumberCut(f.size, c, m);
      if m >= |Varint(f.size)| {
        var l := m - |Varint(f.size)|;
        StringCut(f.smallest, Prefixed(f.largest), l);
        if l >= |Prefixed(f.smallest)| {
          PrefixedCut(f.largest, l - |Prefixed(f.smallest)|);
        }
      }
    }
  }

  lemma PointerCut(level: nat, key: seq<Byte>, n: nat)
    requires level < Versions.NUM_LEVELS && |key| < TWO_32 && n < |Varint(level) + Prefixed(key)|
    ensures var r := VE.GetLevel((Varint(level) + Prefixed(key))[..n]); r.Malformed? || GetPrefixed(r.rest).Malformed?
  {
    LeveledCut(level, Prefixed(key), n);
    if n >= |Varint(level)| {
      PrefixedCut(key, n - |Varint(level)|);
    }
  }

  lemma DeletedCut(level: nat, v: nat, n: nat)
    requires level < Versions.NUM_LEVELS && n < |Varint(level) + Varint(v)|
    ensures var r := VE.GetLevel((Varint(level) + Varint(v))[..n]); r.Malformed? || Get64(r.rest).Malformed?
  {
    LeveledCut(level, Varint(v), n);
    if n >= |Varint(level)| {
      VarintCut(v, n - |Varint(level)|, 10);
    }
  }

  lemma NewFileCut(level: nat, f: VE.FileMeta, file: seq<Byte>, n: nat)
    requires level < Versions.NUM_LEVELS && VE.MetaOk(f) && n < |Varint(level) + file|
    requires file == Varint(f.number) + (Varint(f.size) + (Prefixed(f.smallest) + Prefixed(f.largest)))
    ensures var r := VE.GetLevel((Varint(level) + file)[..n]); r.Malformed? || VE.GetFile(r.rest).Malformed?
  {
    LeveledCut(level, file, n);
    if n >= |Varint(level)| {
      FileCut(f, n - |Varint(level)|);
    }
  }

  lemma PayloadCut(i: VE.Item, n: nat)
    requires VE.ItemOk(i) && n < |VE.Payload(i)|
    ensures VE.ParsePayload(VE.Tag(i), VE.Payload(i)[..n]).Malformed?
  {
    match i
    case Comparator(name) => PrefixedCut(name, n);
    case LogNumber(v) => VarintCut(v, n, 10);
    case PrevLogNumber(v) => VarintCut(v, n, 10);
    case NextFileNumber(v) => VarintCut(v, n, 10);
    case LastSequence(v) => VarintCut(v, n, 10);
    case CompactPointer(level, key) => PointerCut(level, key, n);
    case DeletedFile(level, v) => DeletedCut(level, v, n);
    case NewFile(level, f) =>
      NewFileCut(level, f, Varint(f.number) + (Varint(f.size) + (Prefixed(f.smallest) + Prefixed(f.largest))), n);
  }

  lemma ItemCut(i: VE.Item, n: nat)
    requires VE.ItemOk(i) && n < |VE.EncodeItem(i)|
    ensures VE.ParseItem(VE.EncodeItem(i)[..n]).Malformed?
  {
    var tag := Varint(VE.Tag(i));
    CutParts(tag, VE.Payload(i), n);
    if n < |tag| {
      VarintCut(VE.Tag(i), n, 5);
    } else {
      var rest := VE.Payload(i)[..n - |tag|];
      assert VE.EncodeItem(i)[..n] == tag + rest;
      Get32RoundTrip(VE.Tag(i), rest);
      PayloadCut(i, n - |tag|);
    }
  }

  lemma DecodedOne(i: VE.Item, rest: seq<Byte>, e: VE.Edit)
    requires VE.ItemOk(i)
    ensures VE.EncodeItem(i) != []
    ensures VE.Decoded(VE.EncodeItem(i) + rest, e) == VE.Decoded(rest, VE.AddItem(e, i))
  {
    VE.ItemRoundTrip(i, rest);
  }

  lemma AddFirst(items: seq<VE.Item>, j: nat, e: VE.Edit)
    requires j < |items|
    ensures VE.AddItems(e, items[..j + 1]) == VE.AddItems(VE.AddItem(e, items[0]), items[1..][..j])
  {
    FirstItem(items, j);
  }

  /** `k` is the number of fields that are whole in the first `n` bytes. */
  ghost predicate EndOf(items: seq<VE.Item>, n: nat, k: nat) {
    k <= |items| && |VE.EncodeItems(items[..k])| <= n && (k < |items| ==> n < |VE.EncodeItems(items[..k + 1])|)
  }

  lemma NoneCut(items: seq<VE.Item>, e: VE.Edit)
    ensures EndOf(items, 0, 0) && VE.Decoded([], e) == Kept(e, items, 0, 0)
  {
    assert items[..0] == [];
    if items != [] {
      FirstItem(items, 0);
    }
  }

  lemma EndBehind(items: seq<VE.Item>, n: nat, j: nat)
    requires items != [] && n >= |VE.EncodeItem(items[0])|
    requires EndOf(items[1..], n - |VE.EncodeItem(items[0])|, j)
    ensures EndOf(items, n, j + 1)
    ensures |VE.EncodeItems(items[..j + 1])| == |VE.EncodeItem(items[0])| + |VE.EncodeItems(items[1..][..j])|
  {
    FirstItem(items, j);
    if j + 1 < |items| {
      FirstItem(items, j + 1);
    }
  }

  /** What is decoded of `size` bytes that have room for `k` of the fields: they are, if nothing is behind them. */
  function Kept(e: VE.Edit, items: seq<VE.Item>, k: nat, size: nat): VE.Result
    requires k <= |items|
  {
    if size == |VE.EncodeItems(items[..k])| then VE.Ok(VE.AddItems(e, items[..k])) else VE.Corruption
  }

  lemma DecodedBehind(items: seq<VE.Item>, s: seq<Byte>, rest: seq<Byte>, e: VE.Edit, j: nat)
    requires items != [] && VE.ItemOk(items[0])
    requires j < |items| && s == VE.EncodeItem(items[0]) + rest
    requires VE.Decoded(rest, VE.AddItem(e, items[0])) == Kept(VE.AddItem(e, items[0]), items[1..], j, |rest|)
    ensures VE.Decoded(s, e) == Kept(e, items, j + 1, |s|)
  {
    DecodedOne(items[0], rest, e);
    AddFirst(items, j, e);
    FirstItem(items, j);
  }

  lemma FirstItem(items: seq<VE.Item>, j: nat)
    requires j < |items|
    ensures items[..j + 1] == [items[0]] + items[1..][..j]
    ensures VE.EncodeItems(items[..j + 1]) == VE.EncodeItem(items[0]) + VE.EncodeItems(items[1..][..j])
    ensures items[..j + 1][0] == items[0] && items[..j + 1][1..] == items[1..][..j]
  {
    assert items[..j + 1][1..] == items[1..][..j];
  }

  lemma DecodedCut(items: seq<VE.Item>, n: nat, e: VE.Edit)
    requires items != [] && VE.ItemOk(items[0]) && 0 < n < |VE.EncodeItem(items[0])|
    ensures VE.Decoded(VE.EncodeItem(items[0])[..n], e) == Kept(e, items, 0, n)
  {
    ItemCut(items[0], n);
    assert items[..0] == [];
  }

  lemma CutInFirst(items: seq<VE.Item>, n: nat, e: VE.Edit)
    requires items != [] && VE.ItemOk(items[0]) && 0 < n < |VE.EncodeItem(items[0])|
    ensures EndOf(items, n, 0) && VE.Decoded(VE.EncodeItems(items)[..n], e) == Kept(e, items, 0, n)
  {
    CutParts(VE.EncodeItem(items[0]), VE.EncodeItems(items[1..]), n);
    DecodedCut(items, n, e);
    FirstItem(items, 0);
  }

  lemma CutBehind(items: seq<VE.Item>, n: nat, e: VE.Edit, rest: seq<Byte>, m: nat, j: nat)
    requires items != [] && VE.ItemOk(items[0]) && rest == VE.EncodeItems(items[1..])
    requires m <= |rest| && n == |VE.EncodeItem(items[0])| + m && EndOf(items[1..], m, j)
    requires VE.Decoded(rest[..m], VE.AddItem(e, items[0])) == Kept(VE.AddItem(e, items[0]), items[1..], j, m)
    ensures n <= |VE.EncodeItems(items)|
    ensures EndOf(items, n, j + 1) && VE.Decoded(VE.EncodeItems(items)[..n], e) == Kept(e, items, j + 1, n)
  {
    CutParts(VE.EncodeItem(items[0]), rest, n);
    DecodedBehind(items, VE.EncodeItems(items)[..n], rest[..m], e, j);
    EndBehind(items, n, j);
  }

  /** A record that lost its end decodes only if the cut is between two fields, and then to the fields before it. */
  lemma {:induction false} EditCut(items: seq<VE.Item>, n: nat, e: VE.Edit) returns (k: nat)
    requires VE.ItemsOk(items) && n <= |VE.EncodeItems(items)|
    ensures EndOf(items, n, k) && VE.Decoded(VE.EncodeItems(items)[..n], e) == Kept(e, items, k, n)
    decreases |items|
  {
    if n == 0 {
      k := 0;
      NoneCut(items, e);
    } else {
      var head, rest := |VE.EncodeItem(items[0])|, VE.EncodeItems(items[1..]);
      if n < head {
        k := 0;
        CutInFirst(items, n, e);
      } else {
        var j := EditCut(items[1..], n - head, VE.AddItem(e, items[0]));
        k := j + 1;
        CutBehind(items, n, e, rest, n - head, j);
      }
    }
  }

  /** A tag that is none of the format is refused, and so is a level that does not exist. */
  lemma UnknownIsRefused(tag: nat, rest: seq<Byte>)
    requires tag < TWO_32 && (tag == 0 || tag == 8 || tag > 9)
    ensures VE.ParseItem(Varint(tag) + rest).Malformed?
  {
    Get32RoundTrip(tag, rest);
  }

  lemma LevelIsRefused(tag: nat, level: nat, rest: seq<Byte>)
    requires 5 <= tag <= 7 && Versions.NUM_LEVELS <= level < TWO_32
    ensures VE.ParseItem(Varint(tag) + (Varint(level) + rest)).Malformed?
  {
    Get32RoundTrip(tag, Varint(level) + rest);
    Get32RoundTrip(level, rest);
  }
}
