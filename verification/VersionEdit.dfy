/**
 Version edits and their record format (`db/version_edit.cc`).

 Keys appear here as the byte strings stored in the record; file numbers, sizes and sequence
 numbers are the 64-bit numbers of the format.
*/
module VersionEdits {
  import opened Coding
  import opened Versions
  import opened Sequences

  datatype FileMeta = FileMeta(number: nat, size: nat, smallest: seq<Byte>, largest: seq<Byte>)

  /** The contents of a `VersionEdit`; `deleted` is a `std::set`, listed in its iteration order. */
  datatype Edit = Edit(
    comparator: Optional<seq<Byte>>,
    logNumber: Optional<nat>,
    prevLogNumber: Optional<nat>,
    nextFileNumber: Optional<nat>,
    lastSequence: Optional<nat>,
    compactPointers: seq<(nat, seq<Byte>)>,
    deleted: seq<(nat, nat)>,
    newFiles: seq<(nat, FileMeta)>)

  const EMPTY_EDIT := Edit(None, None, None, None, None, [], [], [])

  // ---------- std::set<pair<int, uint64_t>> ----------

  predicate PairLess(a: (nat, nat), b: (nat, nat)) {
    a.0 < b.0 || (a.0 == b.0 && a.1 < b.1)
  }

  ghost predicate Ascending(ps: seq<(nat, nat)>) {
    forall i, j | 0 <= i < j < |ps| :: PairLess(ps[i], ps[j])
  }

  function InsertPair(ps: seq<(nat, nat)>, p: (nat, nat)): seq<(nat, nat)> {
    if ps == [] || PairLess(p, ps[0]) then [p] + ps
    else if ps[0] == p then ps
    else [ps[0]] + InsertPair(ps[1..], p)
  }

  lemma {:induction false} InsertPairKeeps(ps: seq<(nat, nat)>, p: (nat, nat))
    requires Ascending(ps)
    ensures Ascending(InsertPair(ps, p))
    ensures forall q :: q in InsertPair(ps, p) <==> q in ps || q == p
  {
    if ps == [] || PairLess(p, ps[0]) || ps[0] == p {
    } else {
      InsertPairKeeps(ps[1..], p);
      var rest := InsertPair(ps[1..], p);
      forall j | 0 <= j < |rest| ensures PairLess(ps[0], rest[j]) {
        assert rest[j] in rest;
        if rest[j] in ps[1..] {
          var i :| 0 <= i < |ps[1..]| && ps[1..][i] == rest[j];
        }
      }
      assert forall q | q in ps :: q == ps[0] || q in ps[1..];
    }
  }

  lemma {:induction false} InsertAtEnd(ps: seq<(nat, nat)>, p: (nat, nat))
    requires forall i | 0 <= i < |ps| :: PairLess(ps[i], p)
    ensures InsertPair(ps, p) == ps + [p]
  {
    if ps != [] {
      InsertAtEnd(ps[1..], p);
    }
  }

  // ---------- one field of a record ----------

  datatype Item =
    | Comparator(name: seq<Byte>)
    | LogNumber(number: nat)
    | PrevLogNumber(number: nat)
    | NextFileNumber(number: nat)
    | LastSequence(number: nat)
    | CompactPointer(level: nat, key: seq<Byte>)
    | DeletedFile(level: nat, number: nat)
    | NewFile(level: nat, file: FileMeta)

  /** Tag numbers of the format. */
  function Tag(i: Item): (t: nat)
    ensures t < 128
  {
    match i
    case Comparator(_) => 1
    case LogNumber(_) => 2
    case NextFileNumber(_) => 3
    case LastSequence(_) => 4
    case CompactPointer(_, _) => 5
    case DeletedFile(_, _) => 6
    case NewFile(_, _) => 7
    case PrevLogNumber(_) => 9
  }

  function Payload(i: Item): seq<Byte> {
    match i
    case Comparator(name) => Prefixed(name)
    case LogNumber(n) => Varint(n)
    case PrevLogNumber(n) => Varint(n)
    case NextFileNumber(n) => Varint(n)
    case LastSequence(n) => Varint(n)
    case CompactPointer(level, key) => Varint(level) + Prefixed(key)
    case DeletedFile(level, n) => Varint(level) + Varint(n)
    case NewFile(level, f) =>
      Varint(level) + (Varint(f.number) + (Varint(f.size) + (Prefixed(f.smallest) + Prefixed(f.largest))))
  }

  function EncodeItem(i: Item): seq<Byte> {
    Varint(Tag(i)) + Payload(i)
  }

  /** `GetLevel`. */
  function GetLevel(s: seq<Byte>): Parsed<nat> {
    var r := Get32(s);
    if r.Parsed? && r.value < NUM_LEVELS then r else Malformed
  }

  function GetFile(s: seq<Byte>): Parsed<FileMeta> {
    match Get64(s)
    case Malformed => Malformed
    case Parsed(number, s1) =>
      match Get64(s1)
      case Malformed => Malformed
      case Parsed(size, s2) =>
        match GetPrefixed(s2)
        case Malformed => Malformed
        case Parsed(smallest, s3) =>
          match GetPrefixed(s3)
          case Malformed => Malformed
          case Parsed(largest, rest) => Parsed(FileMeta(number, size, smallest, largest), rest)
  }

  function Mapped<A, B>(r: Parsed<A>, f: A -> B): Parsed<B> {
    match r
    case Malformed => Malformed
    case Parsed(a, rest) => Parsed(f(a), rest)
  }

  function ParsePayload(tag: nat, s: seq<Byte>): Parsed<Item> {
    if tag == 1 then Mapped(GetPrefixed(s), name => Comparator(name))
    else if tag == 2 then Mapped(Get64(s), n => LogNumber(n))
    else if tag == 9 then Mapped(Get64(s), n => PrevLogNumber(n))
    else if tag == 3 then Mapped(Get64(s), n => NextFileNumber(n))
    else if tag == 4 then Mapped(Get64(s), n => LastSequence(n))
    else if 5 <= tag <= 7 then ParseLeveled(tag, GetLevel(s))
    else Malformed
  }

  function ParseLeveled(tag: nat, r: Parsed<nat>): Parsed<Item> {
    match r
    case Malformed => Malformed
    case Parsed(level, s) =>
      if tag == 5 then Mapped(GetPrefixed(s), key => CompactPointer(level, key))
      else if tag == 6 then Mapped(Get64(s), n => DeletedFile(level, n))
      else Mapped(GetFile(s), f => NewFile(level, f))
  }

  function ParseItem(s: seq<Byte>): Parsed<Item> {
    match Get32(s)
    case Malformed => Malformed
    case Parsed(tag, rest) => ParsePayload(tag, rest)
  }

  /** Numbers and lengths fit the fields of the format, and levels exist. */
  predicate ItemOk(i: Item) {
    match i
    case Comparator(name) => |name| < TWO_32
    case LogNumber(n) => n < TWO_64
    case PrevLogNumber(n) => n < TWO_64
    case NextFileNumber(n) => n < TWO_64
    case LastSequence(n) => n < TWO_64
    case CompactPointer(level, key) => level < NUM_LEVELS && |key| < TWO_32
    case DeletedFile(level, n) => level < NUM_LEVELS && n < TWO_64
    case NewFile(level, f) => level < NUM_LEVELS && MetaOk(f)
  }

  predicate MetaOk(f: FileMeta) {
    f.number < TWO_64 && f.size < TWO_64 && |f.smallest| < TWO_32 && |f.largest| < TWO_32
  }

  lemma FileRoundTrip(f: FileMeta, rest: seq<Byte>)
    requires MetaOk(f)
    ensures GetFile(Varint(f.number) + (Varint(f.size) + (Prefixed(f.smallest) + Prefixed(f.largest))) + rest)
      == Parsed(f, rest)
  {
    var s3 := Prefixed(f.largest) + rest;
    var s2 := Prefixed(f.smallest) + s3;
    var s1 := Varint(f.size) + s2;
    assert Varint(f.number) + (Varint(f.size) + (Prefixed(f.smallest) + Prefixed(f.largest))) + rest
        == Varint(f.number) + s1;
    Get64RoundTrip(f.number, s1);
    Get64RoundTrip(f.size, s2);
    PrefixedRoundTrip(f.smallest, s3);
    PrefixedRoundTrip(f.largest, rest);
  }

  lemma LevelRoundTrip(level: nat, payload: seq<Byte>, rest: seq<Byte>)
    requires level < NUM_LEVELS
    ensures GetLevel(Varint(level) + payload + rest) == Parsed(level, payload + rest)
  {
    assert Varint(level) + payload + rest == Varint(level) + (payload + rest);
    Get32RoundTrip(level, payload + rest);
  }

  lemma PayloadRoundTrip(i: Item, rest: seq<Byte>)
    requires ItemOk(i)
    ensures ParsePayload(Tag(i), Payload(i) + rest) == Parsed(i, rest)
  {
    match i
    case Comparator(name) => PrefixedRoundTrip(name, rest);
    case LogNumber(n) => Get64RoundTrip(n, rest);
    case PrevLogNumber(n) => Get64RoundTrip(n, rest);
    case NextFileNumber(n) => Get64RoundTrip(n, rest);
    case LastSequence(n) => Get64RoundTrip(n, rest);
    case CompactPointer(level, key) =>
      LevelRoundTrip(level, Prefixed(key), rest);
      PrefixedRoundTrip(key, rest);
    case DeletedFile(level, n) =>
      LevelRoundTrip(level, Varint(n), rest);
      Get64RoundTrip(n, rest);
    case NewFile(level, f) =>
      LevelRoundTrip(level, Varint(f.number) + (Varint(f.size) + (Prefixed(f.smallest) + Prefixed(f.largest))), rest);
      FileRoundTrip(f, rest);
  }

  lemma ItemRoundTrip(i: Item, rest: seq<Byte>)
    requires ItemOk(i)
    ensures ParseItem(EncodeItem(i) + rest) == Parsed(i, rest)
  {
    assert EncodeItem(i) + rest == Varint(Tag(i)) + (Payload(i) + rest);
    Get32RoundTrip(Tag(i), Payload(i) + rest);
    PayloadRoundTrip(i, rest);
  }

  // ---------- a whole record ----------

  function AddItem(e: Edit, i: Item): Edit {
    match i
    case Comparator(name) => e.(comparator := Some(name))
    case LogNumber(n) => e.(logNumber := Some(n))
    case PrevLogNumber(n) => e.(prevLogNumber := Some(n))
    case NextFileNumber(n) => e.(nextFileNumber := Some(n))
    case LastSequence(n) => e.(lastSequence := Some(n))
    case CompactPointer(level, key) => e.(compactPointers := e.compactPointers + [(level, key)])
    case DeletedFile(level, n) => e.(deleted := InsertPair(e.deleted, (level, n)))
    case NewFile(level, f) => e.(newFiles := e.newFiles + [(level, f)])
  }

  function AddItems(e: Edit, items: seq<Item>): Edit
    decreases |items|
  {
    if items == [] then e else AddItems(AddItem(e, items[0]), items[1..])
  }

  function EncodeItems(items: seq<Item>): seq<Byte> {
    if items == [] then [] else EncodeItem(items[0]) + EncodeItems(items[1..])
  }

  datatype Result = Corruption | Ok(edit: Edit)

  /** Every parser leaves fewer bytes than it was given. */
  lemma ParseShrinks(s: seq<Byte>)
    ensures ParseItem(s).Parsed? ==> |ParseItem(s).rest| < |s|
  {
    VarintShrinks(s, 5);
    if Get32(s).Parsed? {
      PayloadShrinks(Get32(s).value, Get32(s).rest);
    }
  }

  lemma PayloadShrinks(tag: nat, s: seq<Byte>)
    ensures ParsePayload(tag, s).Parsed? ==> |ParsePayload(tag, s).rest| < |s|
  {
    if tag == 1 {
      PrefixedShrinks(s);
    } else if tag == 2 || tag == 3 || tag == 4 || tag == 9 {
      VarintShrinks(s, 10);
    } else if 5 <= tag <= 7 && GetLevel(s).Parsed? {
      VarintShrinks(s, 5);
      LeveledShrinks(tag, GetLevel(s).value, GetLevel(s).rest);
    }
  }

  lemma LeveledShrinks(tag: nat, level: nat, s: seq<Byte>)
    requires 5 <= tag <= 7
    ensures var r := ParseLeveled(tag, Parsed(level, s)); r.Parsed? ==> |r.rest| < |s|
  {
    if tag == 5 {
      PrefixedShrinks(s);
    } else if tag == 6 {
      VarintShrinks(s, 10);
    } else {
      FileShrinks(s);
    }
  }

  lemma FileShrinks(s: seq<Byte>)
    ensures GetFile(s).Parsed? ==> |GetFile(s).rest| < |s|
  {
    if GetFile(s).Parsed? {
      var s1 := Get64(s).rest;
      var s2 := Get64(s1).rest;
      VarintShrinks(s, 10);
      VarintShrinks(s1, 10);
      PrefixedShrinks(s2);
      PrefixedShrinks(GetPrefixed(s2).rest);
    }
  }

  function Decoded(s: seq<Byte>, e: Edit): Result
    decreases |s|
  {
    if s == [] then Ok(e)
    else
      ParseShrinks(s);
      match ParseItem(s)
      case Malformed => Corruption
      case Parsed(i, rest) => Decoded(rest, AddItem(e, i))
  }

  /** The fields of an edit in the order `EncodeTo` writes them. */
  function Items(e: Edit): seq<Item> {
    Heads(e) + (Pointers(e.compactPointers) + (Deletions(e.deleted) + Additions(e.newFiles)))
  }

  function Heads(e: Edit): seq<Item> {
    (if e.comparator.Some? then [Comparator(e.comparator.value)] else [])
    + (if e.logNumber.Some? then [LogNumber(e.logNumber.value)] else [])
    + (if e.prevLogNumber.Some? then [PrevLogNumber(e.prevLogNumber.value)] else [])
    + (if e.nextFileNumber.Some? then [NextFileNumber(e.nextFileNumber.value)] else [])
    + (if e.lastSequence.Some? then [LastSequence(e.lastSequence.value)] else [])
  }

  function Pointers(ps: seq<(nat, seq<Byte>)>): seq<Item> {
    if ps == [] then [] else [CompactPointer(ps[0].0, ps[0].1)] + Pointers(ps[1..])
  }

  function Deletions(ps: seq<(nat, nat)>): seq<Item> {
    if ps == [] then [] else [DeletedFile(ps[0].0, ps[0].1)] + Deletions(ps[1..])
  }

  function Additions(fs: seq<(nat, FileMeta)>): seq<Item> {
    if fs == [] then [] else [NewFile(fs[0].0, fs[0].1)] + Additions(fs[1..])
  }

  ghost predicate ItemsOk(items: seq<Item>) {
    forall i | 0 <= i < |items| :: ItemOk(items[i])
  }

  /** What the record format can carry. */
  ghost predicate Encodable(e: Edit) {
    ItemsOk(Items(e)) && Ascending(e.deleted)
  }

  lemma {:induction false} DecodeItems(items: seq<Item>, e: Edit)
    requires ItemsOk(items)
    ensures Decoded(EncodeItems(items), e) == Ok(AddItems(e, items))
  {
    if items != [] {
      var rest := EncodeItems(items[1..]);
      ItemRoundTrip(items[0], rest);
      assert EncodeItem(items[0]) + rest != [];
      DecodeItems(items[1..], AddItem(e, items[0]));
    }
  }

  lemma {:induction false} AddItemsAppend(e: Edit, a: seq<Item>, b: seq<Item>)
    ensures AddItems(e, a + b) == AddItems(AddItems(e, a), b)
    decreases |a|
  {
    if a == [] {
      assert a + b == b;
    } else {
      assert (a + b)[1..] == a[1..] + b;
      AddItemsAppend(AddItem(e, a[0]), a[1..], b);
    }
  }

  lemma {:induction false} AddPointers(e: Edit, ps: seq<(nat, seq<Byte>)>)
    ensures AddItems(e, Pointers(ps)) == e.(compactPointers := e.compactPointers + ps)
    decreases |ps|
  {
    if ps == [] {
      assert e.compactPointers + ps == e.compactPointers;
    } else {
      var e1 := e.(compactPointers := e.compactPointers + [ps[0]]);
      AddFirst(e, CompactPointer(ps[0].0, ps[0].1), Pointers(ps[1..]));
      AddPointers(e1, ps[1..]);
      assert e1.compactPointers + ps[1..] == e.compactPointers + ps;
    }
  }

  lemma {:induction false} AddDeletions(e: Edit, ps: seq<(nat, nat)>)
    requires Ascending(e.deleted + ps)
    ensures AddItems(e, Deletions(ps)) == e.(deleted := e.deleted + ps)
    decreases |ps|
  {
    if ps == [] {
      assert e.deleted + ps == e.deleted;
    } else {
      NextInOrder(e.deleted, ps);
      InsertAtEnd(e.deleted, ps[0]);
      var e1 := e.(deleted := e.deleted + [ps[0]]);
      AddFirst(e, DeletedFile(ps[0].0, ps[0].1), Deletions(ps[1..]));
      assert e1.deleted + ps[1..] == e.deleted + ps;
      AddDeletions(e1, ps[1..]);
    }
  }

  lemma NextInOrder(before: seq<(nat, nat)>, ps: seq<(nat, nat)>)
    requires Ascending(before + ps) && ps != []
    ensures forall i | 0 <= i < |before| :: PairLess(before[i], ps[0])
  {
    forall i | 0 <= i < |before| ensures PairLess(before[i], ps[0]) {
      assert PairLess((before + ps)[i], (before + ps)[|before|]);
    }
  }

  lemma {:induction false} AddAdditions(e: Edit, fs: seq<(nat, FileMeta)>)
    ensures AddItems(e, Additions(fs)) == e.(newFiles := e.newFiles + fs)
    decreases |fs|
  {
    if fs == [] {
      assert e.newFiles + fs == e.newFiles;
    } else {
      var e1 := e.(newFiles := e.newFiles + [fs[0]]);
      AddFirst(e, NewFile(fs[0].0, fs[0].1), Additions(fs[1..]));
      AddAdditions(e1, fs[1..]);
      assert e1.newFiles + fs[1..] == e.newFiles + fs;
    }
  }

  lemma AddFirst(e: Edit, i: Item, items: seq<Item>)
    ensures AddItems(e, [i] + items) == AddItems(AddItem(e, i), items)
  {
    assert ([i] + items)[1..] == items;
  }

  /** `Clear` resets everything except the compaction pointers. */
  function Cleared(e: Edit): Edit {
    EMPTY_EDIT.(compactPointers := e.compactPointers)
  }

  /** Decoding a record: the edit that was encoded, after the pointers the target already held. */
  lemma DecodeUndoesEncode(e: Edit, target: Edit)
    requires Encodable(e)
    ensures Decoded(EncodeItems(Items(e)), Cleared(target)) ==
      Ok(e.(compactPointers := target.compactPointers + e.compactPointers))
  {
    DecodeItems(Items(e), Cleared(target));
    var e1 := AddItems(Cleared(target), Heads(e));
    AddHeads(e, target);
    AddItemsAppend(Cleared(target), Heads(e),
      Pointers(e.compactPointers) + (Deletions(e.deleted) + Additions(e.newFiles)));
    AddItemsAppend(e1, Pointers(e.compactPointers), Deletions(e.deleted) + Additions(e.newFiles));
    AddPointers(e1, e.compactPointers);
    var e2 := e1.(compactPointers := e1.compactPointers + e.compactPointers);
    AddItemsAppend(e2, Deletions(e.deleted), Additions(e.newFiles));
    assert e2.deleted + e.deleted == e.deleted;
    AddDeletions(e2, e.deleted);
    var e3 := e2.(deleted := e.deleted);
    AddAdditions(e3, e.newFiles);
    assert e3.newFiles + e.newFiles == e.newFiles;
  }

  /** A record decodes to the edit that was encoded exactly when the target had no pointers. */
  lemma RoundTripLaw(e: Edit, target: Edit)
    requires Encodable(e)
    ensures Decoded(EncodeItems(Items(e)), Cleared(target)) == Ok(e) <==> target.compactPointers == []
  {
    DecodeUndoesEncode(e, target);
    assert |target.compactPointers + e.compactPointers| == |target.compactPointers| + |e.compactPointers|;
    if target.compactPointers == [] {
      assert target.compactPointers + e.compactPointers == e.compactPointers;
    }
  }

  lemma AddHeads(e: Edit, target: Edit)
    ensures AddItems(Cleared(target), Heads(e)) ==
      Edit(e.comparator, e.logNumber, e.prevLogNumber, e.nextFileNumber, e.lastSequence, target.compactPointers, [], [])
  {
    var c := if e.comparator.Some? then [Comparator(e.comparator.value)] else [];
    var l := if e.logNumber.Some? then [LogNumber(e.logNumber.value)] else [];
    var p := if e.prevLogNumber.Some? then [PrevLogNumber(e.prevLogNumber.value)] else [];
    var n := if e.nextFileNumber.Some? then [NextFileNumber(e.nextFileNumber.value)] else [];
    var s := if e.lastSequence.Some? then [LastSequence(e.lastSequence.value)] else [];
    var t := Cleared(target);
    AddItemsAppend(t, c + l + p + n, s);
    AddItemsAppend(t, c + l + p, n);
    AddItemsAppend(t, c + l, p);
    AddItemsAppend(t, c, l);
  }

  // ---------- the object ----------

  class VersionEdit {
    var comparator: Optional<seq<Byte>>
    var logNumber: Optional<nat>
    var prevLogNumber: Optional<nat>
    var nextFileNumber: Optional<nat>
    var lastSequence: Optional<nat>
    var compactPointers: seq<(nat, seq<Byte>)>
    var deleted: seq<(nat, nat)>
    var newFiles: seq<(nat, FileMeta)>

    function Contents(): Edit
      reads this
    {
      Edit(comparator, logNumber, prevLogNumber, nextFileNumber, lastSequence, compactPointers, deleted, newFiles)
    }

    constructor ()
      ensures Contents() == EMPTY_EDIT
    {
      comparator, logNumber, prevLogNumber, nextFileNumber, lastSequence := None, None, None, None, None;
      compactPointers, deleted, newFiles := [], [], [];
    }

    method Clear()
      modifies this
      ensures Contents() == Cleared(old(Contents()))
    {
      comparator, logNumber, prevLogNumber, nextFileNumber, lastSequence := None, None, None, None, None;
      deleted, newFiles := [], [];
    }

    /** The cases of the switch in `DecodeFrom`. */
    method Set(i: Item)
      modifies this
      ensures Contents() == AddItem(old(Contents()), i)
    {
      match i
      case Comparator(name) => comparator := Some(name);
      case LogNumber(n) => logNumber := Some(n);
      case PrevLogNumber(n) => prevLogNumber := Some(n);
      case NextFileNumber(n) => nextFileNumber := Some(n);
      case LastSequence(n) => lastSequence := Some(n);
      case CompactPointer(level, key) => compactPointers := compactPointers + [(level, key)];
      case DeletedFile(level, n) => deleted := InsertPair(deleted, (level, n));
      case NewFile(level, f) => newFiles := newFiles + [(level, f)];
    }

    method EncodeTo(dst: seq<Byte>) returns (r: seq<Byte>)
      ensures r == dst + EncodeItems(Items(Contents()))
    {
      var heads := Heads(Contents());
      r := PutItems(dst, heads);
      r := PutPointers(r, compactPointers);
      r := PutDeletions(r, deleted);
      r := PutAdditions(r, newFiles);
      EncodeInTurn(dst, heads, Pointers(compactPointers), Deletions(deleted), Additions(newFiles));
    }

    method DecodeFrom(src: seq<Byte>) returns (ok: bool)
      modifies this
      ensures ok == Decoded(src, Cleared(old(Contents()))).Ok?
      ensures ok ==> Decoded(src, Cleared(old(Contents()))) == Ok(Contents())
    {
      Clear();
      var input := src;
      while input != []
        invariant Decoded(src, Cleared(old(Contents()))) == Decoded(input, Contents())
        decreases |input|
      {
        ParseShrinks(input);
        match ParseItem(input)
        case Malformed =>
          return false;
        case Parsed(i, rest) =>
          Set(i);
          input := rest;
      }
      return true;
    }
  }

  lemma EncodeOne(i: Item, items: seq<Item>)
    ensures EncodeItems([i] + items) == EncodeItem(i) + EncodeItems(items)
  {
    assert ([i] + items)[1..] == items;
  }

  lemma {:induction false} EncodeAppend(a: seq<Item>, b: seq<Item>)
    ensures EncodeItems(a + b) == EncodeItems(a) + EncodeItems(b)
  {
    if a == [] {
      assert a + b == b;
    } else {
      assert (a + b)[1..] == a[1..] + b;
      EncodeAppend(a[1..], b);
    }
  }

  lemma EncodeInTurn(dst: seq<Byte>, a: seq<Item>, b: seq<Item>, c: seq<Item>, d: seq<Item>)
    ensures dst + EncodeItems(a + (b + (c + d))) ==
      dst + EncodeItems(a) + EncodeItems(b) + EncodeItems(c) + EncodeItems(d)
  {
    PutAppend(dst, a, b + (c + d));
    var dst1 := dst + EncodeItems(a);
    PutAppend(dst1, b, c + d);
    PutAppend(dst1 + EncodeItems(b), c, d);
  }

  lemma PutAppend(dst: seq<Byte>, a: seq<Item>, b: seq<Item>)
    ensures dst + EncodeItems(a + b) == dst + EncodeItems(a) + EncodeItems(b)
  {
    EncodeAppend(a, b);
  }

  // ---------- the loops of EncodeTo ----------

  method PutItems(dst: seq<Byte>, items: seq<Item>) returns (r: seq<Byte>)
    ensures r == dst + EncodeItems(items)
  {
    r := dst;
    for i := 0 to |items|
      invariant r + EncodeItems(items[i..]) == dst + EncodeItems(items)
    {
      assert items[i..][1..] == items[i + 1..];
      r := r + EncodeItem(items[i]);
    }
  }

  method PutPointers(dst: seq<Byte>, ps: seq<(nat, seq<Byte>)>) returns (r: seq<Byte>)
    ensures r == dst + EncodeItems(Pointers(ps))
  {
    r := dst;
    for i := 0 to |ps|
      invariant r + EncodeItems(Pointers(ps[i..])) == dst + EncodeItems(Pointers(ps))
    {
      assert ps[i..][1..] == ps[i + 1..];
      EncodeOne(CompactPointer(ps[i].0, ps[i].1), Pointers(ps[i + 1..]));
      r := r + EncodeItem(CompactPointer(ps[i].0, ps[i].1));
    }
  }

  method PutDeletions(dst: seq<Byte>, ps: seq<(nat, nat)>) returns (r: seq<Byte>)
    ensures r == dst + EncodeItems(Deletions(ps))
  {
    r := dst;
    for i := 0 to |ps|
      invariant r + EncodeItems(Deletions(ps[i..])) == dst + EncodeItems(Deletions(ps))
    {
      assert ps[i..][1..] == ps[i + 1..];
      EncodeOne(DeletedFile(ps[i].0, ps[i].1), Deletions(ps[i + 1..]));
      r := r + EncodeItem(DeletedFile(ps[i].0, ps[i].1));
    }
  }

  method PutAdditions(dst: seq<Byte>, fs: seq<(nat, FileMeta)>) returns (r: seq<Byte>)
    ensures r == dst + EncodeItems(Additions(fs))
  {
    r := dst;
    for i := 0 to |fs|
      invariant r + EncodeItems(Additions(fs[i..])) == dst + EncodeItems(Additions(fs))
    {
      assert fs[i..][1..] == fs[i + 1..];
      EncodeOne(NewFile(fs[i].0, fs[i].1), Additions(fs[i + 1..]));
      r := r + EncodeItem(NewFile(fs[i].0, fs[i].1));
    }
  }
}
