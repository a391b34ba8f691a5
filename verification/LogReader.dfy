/**
 `log::Reader` (`db/log_reader.cc`), reading from the beginning of a log: what it returns for any
 file, and that a log cut off anywhere gives exactly its complete records and no corruption report.
*/
module LogReader {
  import opened Coding
  import opened LogFormat
  import opened Sequences

  const EOF: nat := 5
  const BAD_RECORD: nat := 6

  // ---------- one physical record ----------

  /** A type or one of the two codes above, the payload, where to go on, and the sizes reported dropped. */
  datatype Physical = Physical(kind: nat, payload: seq<Byte>, next: nat, reports: seq<nat>)

  function BlockEnd(pos: nat): nat {
    pos - pos % BLOCK_SIZE + BLOCK_SIZE
  }

  /** The end of what one read of a block gives. */
  function Limit(file: seq<Byte>, pos: nat): nat {
    if |file| < BlockEnd(pos) then |file| else BlockEnd(pos)
  }

  /** Where a header is looked for: the trailer of a complete block is skipped. */
  function HeaderAt(file: seq<Byte>, pos: nat): nat {
    if pos + Pad(pos) <= |file| then pos + Pad(pos) else pos
  }

  function LengthOf(lo: Byte, hi: Byte): nat {
    var h: int := hi;
    lo + 256 * h
  }

  /** The fragment whose header at `s` says `length` bytes: what it holds if its checksum is right. */
  function Checked(crc: Checksum, file: seq<Byte>, s: nat, length: nat): Physical
    requires s <= |file| && s + HEADER_SIZE + length <= Limit(file, s)
  {
    var e := Limit(file, s);
    if Crc32c.Unmask(ReadWord(file[s..s + 4])) != crc(file[s + 6..s + HEADER_SIZE + length]) then
      Physical(BAD_RECORD, [], e, [e - s])
    else
      Physical(file[s + 6], file[s + HEADER_SIZE..s + HEADER_SIZE + length], s + HEADER_SIZE + length, [])
  }

  /** What `ReadPhysicalRecord` makes of the bytes at `s`. */
  function Parse(crc: Checksum, file: seq<Byte>, s: nat): Physical
    requires s <= |file|
  {
    var e := Limit(file, s);
    if e - s < HEADER_SIZE then Physical(EOF, [], e, [])
    else
      var length := LengthOf(file[s + 4], file[s + 5]);
      if HEADER_SIZE + length > e - s then
        if e < BlockEnd(s) then Physical(EOF, [], e, []) else Physical(BAD_RECORD, [], e, [e - s])
      else if file[s + 6] == 0 && length == 0 then Physical(BAD_RECORD, [], e, [])
      else Checked(crc, file, s, length)
  }

  function ReadPhysical(crc: Checksum, file: seq<Byte>, pos: nat): Physical
    requires pos <= |file|
  {
    Parse(crc, file, HeaderAt(file, pos))
  }

  lemma ReadPhysicalAdvances(crc: Checksum, file: seq<Byte>, pos: nat)
    requires pos <= |file|
    ensures var p := ReadPhysical(crc, file, pos);
      p.next <= |file| && (p.kind != EOF ==> p.next > pos)
  {
  }

  // ---------- one record ----------

  /** What a physical read gives at each position of a file. */
  type Disk = nat -> Physical

  function DiskOf(crc: Checksum, file: seq<Byte>): Disk {
    (pos: nat) => if pos <= |file| then ReadPhysical(crc, file, pos) else Physical(EOF, [], |file|, [])
  }

  ghost predicate Advances(disk: Disk, size: nat) {
    forall pos | 0 <= pos <= size :: disk(pos).next <= size && (disk(pos).kind != EOF ==> disk(pos).next > pos)
  }

  lemma DiskAdvances(crc: Checksum, file: seq<Byte>)
    ensures Advances(DiskOf(crc, file), |file|)
  {
    forall pos | 0 <= pos <= |file|
      ensures var p := DiskOf(crc, file)(pos); p.next <= |file| && (p.kind != EOF ==> p.next > pos)
    {
      ReadPhysicalAdvances(crc, file, pos);
    }
  }

  datatype Logical = Logical(record: Optional<seq<Byte>>, next: nat, reports: seq<nat>)

  function Reported(reports: seq<nat>, r: Logical): Logical {
    r.(reports := reports + r.reports)
  }

  /** What one fragment does to the record being put together: `done` ends the call. */
  datatype Turn = Turn(done: bool, record: Optional<seq<Byte>>, scratch: Optional<seq<Byte>>, dropped: seq<nat>)

  function Collect(kind: nat, payload: seq<Byte>, scratch: Optional<seq<Byte>>): Turn {
    var held := if scratch.Some? then |scratch.value| else 0;
    var lost := if held > 0 then [held] else [];
    if kind == EOF then Turn(true, None, None, [])
    else if kind == FULL then Turn(true, Some(payload), None, lost)
    else if kind == FIRST then Turn(false, None, Some(payload), lost)
    else if kind == MIDDLE && scratch.Some? then Turn(false, None, Some(scratch.value + payload), [])
    else if kind == LAST && scratch.Some? then Turn(true, Some(scratch.value + payload), None, [])
    else if kind == MIDDLE || kind == LAST then Turn(false, None, None, [|payload|])
    else if kind == BAD_RECORD then Turn(false, None, None, if scratch.Some? then [held] else [])
    else Turn(false, None, None, [|payload| + held])
  }

  /** `ReadRecord` with fragments collected so far in `scratch`; `None` is its result false. */
  ghost function ReadLogical(disk: Disk, size: nat, pos: nat, scratch: Optional<seq<Byte>>): (r: Logical)
    requires pos <= size && Advances(disk, size)
    ensures r.next <= size && (r.record.Some? ==> r.next > pos)
    decreases size - pos
  {
    var p := disk(pos);
    var t := Collect(p.kind, p.payload, scratch);
    if t.done then Logical(t.record, p.next, p.reports + t.dropped)
    else Reported(p.reports + t.dropped, ReadLogical(disk, size, p.next, t.scratch))
  }

  // ---------- reading what a writer wrote ----------

  lemma FragmentParts(crc: Checksum, t: Byte, payload: seq<Byte>)
    requires |payload| < 0x1_0000
    ensures var f := Fragment(crc, t, payload);
      && LengthOf(f[4], f[5]) == |payload| && f[6] == t
      && f[6..] == [t] + payload && f[HEADER_SIZE..] == payload
      && Crc32c.Unmask(ReadWord(f[..4])) == crc([t] + payload)
  {
    var m := Crc32c.Mask(crc([t] + payload));
    Pow256Of4And8();
    FixedRoundTrip(m, 4);
    Crc32c.UnmaskUndoesMask(crc([t] + payload));
    HeaderBytes(Fixed(m, 4), |payload| % 256, |payload| / 256, t, payload);
  }

  /** Where the parts of a fragment are in it. */
  lemma HeaderBytes(check: seq<Byte>, lo: Byte, hi: Byte, t: Byte, payload: seq<Byte>)
    requires |check| == 4
    ensures var f := check + [lo, hi] + [t] + payload;
      f[..4] == check && f[4] == lo && f[5] == hi && f[6] == t && f[6..] == [t] + payload && f[7..] == payload
  {
  }

  /** The log has `s` at `pos`. */
  ghost predicate At(log: seq<Byte>, pos: nat, s: seq<Byte>) {
    pos + |s| <= |log| && log[pos..pos + |s|] == s
  }

  /** The file is a prefix of the log that reaches `pos`. */
  ghost predicate Cut(log: seq<Byte>, file: seq<Byte>, pos: nat) {
    pos <= |file| <= |log| && file == log[..|file|]
  }

  /** The file is a prefix of a log in which the first part of `data` was written at `pos`. */
  ghost predicate Holds(crc: Checksum, log: seq<Byte>, file: seq<Byte>, pos: nat, data: seq<Byte>, begin: bool) {
    Cut(log, file, pos) && At(log, pos, FirstPart(crc, pos, data, begin))
  }

  /** Whole in the file, a fragment is read back; cut off anywhere, it reads as the end of the file. */
  lemma FragmentRead(crc: Checksum, log: seq<Byte>, file: seq<Byte>, pos: nat, data: seq<Byte>, begin: bool)
    requires Holds(crc, log, file, pos, data, begin)
    ensures var n, end := FirstSize(pos, |data|), pos + |FirstPart(crc, pos, data, begin)|;
      ReadPhysical(crc, file, pos) ==
        if end <= |file| then Physical(TypeOf(begin, n == |data|), data[..n], end, [])
        else Physical(EOF, [], |file|, [])
  {
    var n, s := FirstSize(pos, |data|), pos + Pad(pos);
    RoomInBlock(pos);
    if s + HEADER_SIZE <= |file| {
      HeaderRead(crc, log, file, pos, data, begin);
      ParsedWhole(crc, file, s, n, TypeOf(begin, n == |data|));
    } else {
      CutInHeader(crc, file, pos);
    }
  }

  /** Before the header is complete there is nothing but the end of the file. */
  lemma CutInHeader(crc: Checksum, file: seq<Byte>, pos: nat)
    requires pos <= |file| < pos + Pad(pos) + HEADER_SIZE
    ensures ReadPhysical(crc, file, pos) == Physical(EOF, [], |file|, [])
  {
    RoomInBlock(pos);
  }

  /** A header that says `n` bytes of type `t` follow, in one block. */
  lemma ParsedWhole(crc: Checksum, file: seq<Byte>, s: nat, n: nat, t: Byte)
    requires s + HEADER_SIZE <= |file| && s + HEADER_SIZE + n <= BlockEnd(s) && t != 0
    requires LengthOf(file[s + 4], file[s + 5]) == n && file[s + 6] == t
    requires s + HEADER_SIZE + n <= |file| ==>
      Crc32c.Unmask(ReadWord(file[s..s + 4])) == crc(file[s + 6..s + HEADER_SIZE + n])
    ensures Parse(crc, file, s) ==
      if s + HEADER_SIZE + n <= |file| then
        Physical(t, file[s + HEADER_SIZE..s + HEADER_SIZE + n], s + HEADER_SIZE + n, [])
      else Physical(EOF, [], |file|, [])
  {
  }

  lemma RoomInBlock(pos: nat)
    ensures var s := pos + Pad(pos); BlockEnd(s) - s == HEADER_SIZE + Room(pos)
  {
    var q := pos / BLOCK_SIZE;
    assert Pad(pos) > 0 ==> pos + Pad(pos) == (q + 1) * BLOCK_SIZE;
  }

  lemma HeaderRead(crc: Checksum, log: seq<Byte>, file: seq<Byte>, pos: nat, data: seq<Byte>, begin: bool)
    requires Holds(crc, log, file, pos, data, begin) && pos + Pad(pos) + HEADER_SIZE <= |file|
    ensures var n, s := FirstSize(pos, |data|), pos + Pad(pos);
      var t := TypeOf(begin, n == |data|);
      && LengthOf(file[s + 4], file[s + 5]) == n && file[s + 6] == t
      && (s + HEADER_SIZE + n <= |file| ==>
            && Crc32c.Unmask(ReadWord(file[s..s + 4])) == crc(file[s + 6..s + HEADER_SIZE + n])
            && file[s + HEADER_SIZE..s + HEADER_SIZE + n] == data[..n])
  {
    var n, s := FirstSize(pos, |data|), pos + Pad(pos);
    var t := TypeOf(begin, n == |data|);
    Parts(log, pos, FirstPart(crc, pos, data, begin), Padding(Pad(pos)), Fragment(crc, t, data[..n]));
    FragmentIn(crc, log, file, s, t, data[..n]);
  }

  /** A fragment of the log, of which the file has at least the header. */
  lemma FragmentIn(crc: Checksum, log: seq<Byte>, file: seq<Byte>, s: nat, t: Byte, payload: seq<Byte>)
    requires |payload| < 0x1_0000 && At(log, s, Fragment(crc, t, payload))
    requires |file| <= |log| && file == log[..|file|] && s + HEADER_SIZE <= |file|
    ensures var e := s + HEADER_SIZE + |payload|;
      && LengthOf(file[s + 4], file[s + 5]) == |payload| && file[s + 6] == t
      && (e <= |file| ==> Crc32c.Unmask(ReadWord(file[s..s + 4])) == crc(file[s + 6..e])
                          && file[s + HEADER_SIZE..e] == payload)
  {
    FragmentParts(crc, t, payload);
    InPrefix(log, file, s, Fragment(crc, t, payload));
  }

  /** Where a string made of two parts is, the parts are. */
  lemma Parts(log: seq<Byte>, pos: nat, whole: seq<Byte>, a: seq<Byte>, b: seq<Byte>)
    requires At(log, pos, whole) && whole == a + b
    ensures At(log, pos, a) && At(log, pos + |a|, b)
  {
    assert whole[..|a|] == a && whole[|a|..] == b;
    assert log[pos..pos + |whole|][..|a|] == log[pos..pos + |a|];
    assert log[pos..pos + |whole|][|a|..] == log[pos + |a|..pos + |whole|];
  }

  /** What a prefix of the log shows of a fragment in it. */
  lemma InPrefix(log: seq<Byte>, file: seq<Byte>, p: nat, f: seq<Byte>)
    requires |file| <= |log| && file == log[..|file|] && p + |f| <= |log| && log[p..p + |f|] == f
    requires |f| >= HEADER_SIZE && p + HEADER_SIZE <= |file|
    ensures file[p + 4] == f[4] && file[p + 5] == f[5] && file[p + 6] == f[6]
    ensures p + |f| <= |file| ==>
      && file[p..p + 4] == f[..4] && file[p + 6..p + |f|] == f[6..]
      && file[p + HEADER_SIZE..p + |f|] == f[HEADER_SIZE..]
  {
    forall i | 0 <= i < |f| && p + i < |file| ensures file[p + i] == f[i] {
      assert log[p..p + |f|][i] == log[p + i];
    }
  }

  // ---------- records as the disk shows them ----------

  /** Where a record ends. */
  function RecordEnd(pos: nat, left: nat): (e: nat)
    ensures e > pos
    decreases left, if Room(pos) == 0 then 1 else 0
  {
    var n := FirstSize(pos, left);
    FilledBlock(pos);
    if n == left then FragmentEnd(pos, left) else RecordEnd(FragmentEnd(pos, left), left - n)
  }

  /** The disk gives the fragments of a record one after the other, as far as they are complete. */
  ghost predicate Shows(disk: Disk, size: nat, pos: nat, data: seq<Byte>, begin: bool)
    decreases |data|, if Room(pos) == 0 then 1 else 0
  {
    var n, end := FirstSize(pos, |data|), FragmentEnd(pos, |data|);
    FilledBlock(pos);
    if end > size then disk(pos) == Physical(EOF, [], size, [])
    else
      && disk(pos) == Physical(TypeOf(begin, n == |data|), data[..n], end, [])
      && (n < |data| ==> Shows(disk, size, end, data[n..], false))
  }

  lemma EndStep(pos: nat, left: nat)
    ensures var n, end := FirstSize(pos, left), FragmentEnd(pos, left);
      RecordEnd(pos, left) == if n == left then end else RecordEnd(end, left - n)
  {
  }

  lemma {:induction false} LaidEnd(crc: Checksum, pos: nat, data: seq<Byte>, begin: bool)
    ensures pos + |Laid(crc, pos, data, begin)| == RecordEnd(pos, |data|)
    decreases |data|, if Room(pos) == 0 then 1 else 0
  {
    var n, end := FirstSize(pos, |data|), FragmentEnd(pos, |data|);
    LaidStep(crc, pos, data, begin);
    EndStep(pos, |data|);
    if n < |data| {
      LaidEnd(crc, end, data[n..], false);
    }
  }

  /** `data` was laid out at `pos` of the log, of which the file is a prefix. */
  ghost predicate WasLaid(crc: Checksum, log: seq<Byte>, file: seq<Byte>, pos: nat, data: seq<Byte>, begin: bool) {
    Cut(log, file, pos) && At(log, pos, Laid(crc, pos, data, begin))
  }

  ghost predicate Serves(disk: Disk, crc: Checksum, file: seq<Byte>) {
    forall pos {:trigger ReadPhysical(crc, file, pos)} | 0 <= pos <= |file| :: disk(pos) == ReadPhysical(crc, file, pos)
  }

  /** What was laid out in the log is what the disk shows of a prefix of it. */
  lemma {:induction false} LaidShows(disk: Disk, crc: Checksum, log: seq<Byte>, file: seq<Byte>, pos: nat,
                                     data: seq<Byte>, begin: bool)
    requires Serves(disk, crc, file) && WasLaid(crc, log, file, pos, data, begin)
    ensures Shows(disk, |file|, pos, data, begin)
    decreases |data|, if Room(pos) == 0 then 1 else 0
  {
    FirstShown(disk, crc, log, file, pos, data, begin);
    var n, next := FirstSize(pos, |data|), FragmentEnd(pos, |data|);
    if n < |data| && next <= |file| {
      Shorter(pos, |data|);
      LaidShows(disk, crc, log, file, next, data[n..], false);
    }
    ShowsStep(disk, |file|, pos, data, begin);
  }

  lemma FirstShown(disk: Disk, crc: Checksum, log: seq<Byte>, file: seq<Byte>, pos: nat, data: seq<Byte>, begin: bool)
    requires Serves(disk, crc, file) && WasLaid(crc, log, file, pos, data, begin)
    ensures var n, end := FirstSize(pos, |data|), FragmentEnd(pos, |data|);
      && disk(pos) == (if end <= |file| then Physical(TypeOf(begin, n == |data|), data[..n], end, [])
                       else Physical(EOF, [], |file|, []))
      && (n < |data| && end <= |file| ==> WasLaid(crc, log, file, end, data[n..], false))
  {
    FirstHolds(crc, log, file, pos, data, begin);
    FragmentRead(crc, log, file, pos, data, begin);
  }

  lemma FirstHolds(crc: Checksum, log: seq<Byte>, file: seq<Byte>, pos: nat, data: seq<Byte>, begin: bool)
    requires WasLaid(crc, log, file, pos, data, begin)
    ensures Holds(crc, log, file, pos, data, begin)
    ensures var n, end := FirstSize(pos, |data|), FragmentEnd(pos, |data|);
      n < |data| && end <= |file| ==> WasLaid(crc, log, file, end, data[n..], false)
  {
    var first, n := FirstPart(crc, pos, data, begin), FirstSize(pos, |data|);
    LaidStep(crc, pos, data, begin);
    if n < |data| {
      Parts(log, pos, Laid(crc, pos, data, begin), first, Laid(crc, pos + |first|, data[n..], false));
    }
  }

  lemma ShowsStep(disk: Disk, size: nat, pos: nat, data: seq<Byte>, begin: bool)
    requires var n, end := FirstSize(pos, |data|), FragmentEnd(pos, |data|);
      && disk(pos) == (if end <= size then Physical(TypeOf(begin, n == |data|), data[..n], end, [])
                       else Physical(EOF, [], size, []))
      && (n < |data| && end <= size ==> Shows(disk, size, end, data[n..], false))
    ensures Shows(disk, size, pos, data, begin)
  {
  }

  function Joined(scratch: Optional<seq<Byte>>, data: seq<Byte>): seq<Byte> {
    if scratch.Some? then scratch.value + data else data
  }

  lemma JoinedRest(scratch: Optional<seq<Byte>>, data: seq<Byte>, n: nat)
    requires n <= |data|
    ensures Joined(Some(Joined(scratch, data[..n])), data[n..]) == Joined(scratch, data)
  {
    assert data[..n] + data[n..] == data;
    if scratch.Some? {
      assert (scratch.value + data[..n]) + data[n..] == scratch.value + data;
    }
  }

  /** One fragment read, by what it is: the end of the file, the end of a record, or a part of one. */
  lemma EndPart(disk: Disk, size: nat, pos: nat, scratch: Optional<seq<Byte>>)
    requires pos <= size && Advances(disk, size) && disk(pos) == Physical(EOF, [], size, [])
    ensures ReadLogical(disk, size, pos, scratch) == Logical(None, size, [])
  {
  }

  lemma LastPart(disk: Disk, size: nat, pos: nat, end: nat, data: seq<Byte>, scratch: Optional<seq<Byte>>)
    requires pos <= size && Advances(disk, size)
    requires disk(pos) == Physical(TypeOf(scratch.None?, true), data, end, [])
    ensures ReadLogical(disk, size, pos, scratch) == Logical(Some(Joined(scratch, data)), end, [])
  {
  }

  lemma MorePart(disk: Disk, size: nat, pos: nat, end: nat, part: seq<Byte>, scratch: Optional<seq<Byte>>)
    requires pos <= size && Advances(disk, size)
    requires disk(pos) == Physical(TypeOf(scratch.None?, false), part, end, [])
    ensures end <= size
    ensures ReadLogical(disk, size, pos, scratch) == ReadLogical(disk, size, end, Some(Joined(scratch, part)))
  {
    var r := ReadLogical(disk, size, end, Some(Joined(scratch, part)));
    assert ReadLogical(disk, size, pos, scratch) == Reported([], r);
    assert [] + r.reports == r.reports;
  }

  /** A record ends no earlier than its first fragment. */
  lemma LaterEnds(pos: nat, left: nat)
    ensures RecordEnd(pos, left) >= FragmentEnd(pos, left)
  {
    FilledBlock(pos);
  }

  /** A record the disk shows, read from its start: all of it, or the end of the file. */
  lemma {:induction false} RecordRead(disk: Disk, size: nat, pos: nat, data: seq<Byte>, scratch: Optional<seq<Byte>>)
    requires pos <= size && Advances(disk, size) && Shows(disk, size, pos, data, scratch.None?)
    ensures ReadLogical(disk, size, pos, scratch) ==
      if RecordEnd(pos, |data|) <= size then Logical(Some(Joined(scratch, data)), RecordEnd(pos, |data|), [])
      else Logical(None, size, [])
    decreases |data|, if Room(pos) == 0 then 1 else 0
  {
    var n, end := FirstSize(pos, |data|), FragmentEnd(pos, |data|);
    FilledBlock(pos);
    if end > size {
      LaterEnds(pos, |data|);
      EndPart(disk, size, pos, scratch);
    } else if n == |data| {
      assert data[..n] == data;
      LastPart(disk, size, pos, end, data, scratch);
    } else {
      MorePart(disk, size, pos, end, data[..n], scratch);
      RecordRead(disk, size, end, data[n..], Some(Joined(scratch, data[..n])));
      JoinedRest(scratch, data, n);
    }
  }

  // ---------- a whole log ----------

  /** All the records a reader returns, and everything it reports, until it returns false. */
  ghost function ReadAll(disk: Disk, size: nat, pos: nat): (seq<seq<Byte>>, seq<nat>)
    requires pos <= size && Advances(disk, size)
    decreases size - pos
  {
    var r := ReadLogical(disk, size, pos, None);
    if r.record.None? then ([], r.reports)
    else
      var (records, reports) := ReadAll(disk, size, r.next);
      ([r.record.value] + records, r.reports + reports)
  }

  /** How many of `records`, written from `pos` on, end within the first `size` bytes. */
  function Complete(pos: nat, records: seq<seq<Byte>>, size: nat): (k: nat)
    ensures k <= |records|
    decreases |records|, pos
  {
    if records == [] then 0
    else
      var end := RecordEnd(pos, |records[0]|);
      if end <= size then 1 + Complete(end, records[1..], size) else 0
  }

  /** The disk shows records up to the first that is not complete, or the end of the file after the last. */
  ghost predicate ShowsAll(disk: Disk, size: nat, pos: nat, records: seq<seq<Byte>>)
    decreases |records|, pos
  {
    if records == [] then disk(pos) == Physical(EOF, [], size, [])
    else
      && Shows(disk, size, pos, records[0], true)
      && var end := RecordEnd(pos, |records[0]|);
         (end <= size ==> ShowsAll(disk, size, end, records[1..]))
  }

  lemma {:induction false} AllRead(disk: Disk, size: nat, pos: nat, records: seq<seq<Byte>>)
    requires pos <= size && Advances(disk, size) && ShowsAll(disk, size, pos, records)
    ensures ReadAll(disk, size, pos) == (records[..Complete(pos, records, size)], [])
    decreases |records|
  {
    if records != [] {
      RecordRead(disk, size, pos, records[0], None);
      var end := RecordEnd(pos, |records[0]|);
      if end <= size {
        AllRead(disk, size, end, records[1..]);
        MoreComplete(records, Complete(end, records[1..], size));
      }
    }
  }

  lemma MoreComplete(records: seq<seq<Byte>>, k: nat)
    requires k < |records|
    ensures records[..k + 1] == [records[0]] + records[1..][..k]
  {
  }

  /** The records from `pos` on are the rest of the log, of which the file is a prefix. */
  ghost predicate WasLogged(crc: Checksum, log: seq<Byte>, file: seq<Byte>, pos: nat, records: seq<seq<Byte>>) {
    pos <= |file| <= |log| && file == log[..|file|] && log[pos..] == FileOf(crc, pos, records)
  }

  lemma {:induction false} LogShows(disk: Disk, crc: Checksum, log: seq<Byte>, file: seq<Byte>, pos: nat,
                                    records: seq<seq<Byte>>)
    requires Serves(disk, crc, file) && WasLogged(crc, log, file, pos, records)
    ensures ShowsAll(disk, |file|, pos, records)
    decreases |records|
  {
    if records == [] {
      AtEnd(crc, file, pos);
    } else {
      FirstLogged(crc, log, file, pos, records);
      LaidShows(disk, crc, log, file, pos, records[0], true);
      var end := RecordEnd(pos, |records[0]|);
      if end <= |file| {
        LogShows(disk, crc, log, file, end, records[1..]);
      }
    }
  }

  lemma FirstLogged(crc: Checksum, log: seq<Byte>, file: seq<Byte>, pos: nat, records: seq<seq<Byte>>)
    requires WasLogged(crc, log, file, pos, records) && records != []
    ensures WasLaid(crc, log, file, pos, records[0], true)
    ensures var end := RecordEnd(pos, |records[0]|);
      end <= |file| ==> WasLogged(crc, log, file, end, records[1..])
  {
    var laid := Laid(crc, pos, records[0], true);
    LaidEnd(crc, pos, records[0], true);
    LogParts(log, pos, laid, FileOf(crc, pos + |laid|, records[1..]));
  }

  lemma AtEnd(crc: Checksum, file: seq<Byte>, pos: nat)
    requires pos == |file|
    ensures ReadPhysical(crc, file, pos) == Physical(EOF, [], pos, [])
  {
  }

  lemma LogParts(log: seq<Byte>, pos: nat, a: seq<Byte>, b: seq<Byte>)
    requires pos <= |log| && log[pos..] == a + b
    ensures pos + |a| <= |log| && log[pos..pos + |a|] == a && log[pos + |a|..] == b
  {
    assert log[pos..][..|a|] == a && log[pos..][|a|..] == b;
    assert log[pos..][..|a|] == log[pos..pos + |a|];
    assert log[pos..][|a|..] == log[pos + |a|..];
  }

  /**
   Round trip under a crash: of a log cut off at any byte, exactly the records wholly inside are
   read, in order, and nothing is reported dropped.
  */
  lemma CrashRoundTrip(crc: Checksum, records: seq<seq<Byte>>, size: nat)
    requires size <= |FileOf(crc, 0, records)|
    ensures var disk := DiskOf(crc, FileOf(crc, 0, records)[..size]);
      Advances(disk, size) && ReadAll(disk, size, 0) == (records[..Complete(0, records, size)], [])
  {
    var log := FileOf(crc, 0, records);
    var file := log[..size];
    DiskAdvances(crc, file);
    assert log[0..] == log;
    LogShows(DiskOf(crc, file), crc, log, file, 0, records);
    AllRead(DiskOf(crc, file), size, 0, records);
  }

  /** With nothing cut off, every record is complete. */
  lemma {:induction false} AllComplete(crc: Checksum, pos: nat, records: seq<seq<Byte>>)
    ensures Complete(pos, records, pos + |FileOf(crc, pos, records)|) == |records|
    decreases |records|, pos
  {
    if records != [] {
      LaidEnd(crc, pos, records[0], true);
      var first, end := Laid(crc, pos, records[0], true), RecordEnd(pos, |records[0]|);
      assert pos + |first| == end && FileOf(crc, pos, records) == first + FileOf(crc, end, records[1..]);
      assert pos + |FileOf(crc, pos, records)| == end + |FileOf(crc, end, records[1..])|;
      AllComplete(crc, RecordEnd(pos, |records[0]|), records[1..]);
    }
  }

  // ---------- the reader ----------

  /** From inside the trailer of a block, or its end, a header is looked for at the next block. */
  lemma SkipsTrailer(file: seq<Byte>, pos: nat, next: nat)
    requires pos <= next <= |file| && next % BLOCK_SIZE == 0 && next - pos < HEADER_SIZE
    requires pos == next || next == BlockEnd(pos)
    ensures HeaderAt(file, pos) == next && HeaderAt(file, next) == next
  {
  }

  lemma BlockRead(pos: nat)
    requires pos % BLOCK_SIZE == 0
    ensures BlockEnd(pos) == pos + BLOCK_SIZE && (pos + BLOCK_SIZE) % BLOCK_SIZE == 0
  {
  }

  lemma NoHeader(crc: Checksum, file: seq<Byte>, pos: nat)
    requires pos <= |file| < pos + HEADER_SIZE && (pos == |file| || |file| < BlockEnd(pos))
    ensures HeaderAt(file, pos) == pos && Parse(crc, file, pos) == Physical(EOF, [], |file|, [])
  {
  }

  lemma HeaderInBlock(file: seq<Byte>, pos: nat)
    requires pos + HEADER_SIZE <= |file| && pos + HEADER_SIZE <= BlockEnd(pos)
    ensures HeaderAt(file, pos) == pos
  {
  }

  lemma SameBlock(pos: nat, n: nat)
    requires pos + n < BlockEnd(pos)
    ensures BlockEnd(pos + n) == BlockEnd(pos)
  {
    var q := pos / BLOCK_SIZE;
    assert (pos + n) / BLOCK_SIZE == q;
  }

  lemma BufferSlice(file: seq<Byte>, buffer: seq<Byte>, s: nat, i: nat, j: nat)
    requires s + |buffer| <= |file| && buffer == file[s..s + |buffer|] && i <= j <= |buffer|
    ensures buffer[i..j] == file[s + i..s + j]
  {
    assert forall k | 0 <= k < j - i :: buffer[i..j][k] == file[s + i..s + j][k];
  }

  lemma BufferBytes(file: seq<Byte>, buffer: seq<Byte>, s: nat)
    requires s + |buffer| <= |file| && buffer == file[s..s + |buffer|] && |buffer| >= HEADER_SIZE
    ensures buffer[4] == file[s + 4] && buffer[5] == file[s + 5] && buffer[6] == file[s + 6]
  {
  }

  /** The parts of a fragment are in the buffer what they are in the file. */
  lemma BufferParts(file: seq<Byte>, buffer: seq<Byte>, s: nat, length: nat)
    requires s + |buffer| <= |file| && buffer == file[s..s + |buffer|] && HEADER_SIZE + length <= |buffer|
    ensures buffer[6] == file[s + 6] && buffer[0..4] == file[s..s + 4]
    ensures buffer[6..HEADER_SIZE + length] == file[s + 6..s + HEADER_SIZE + length]
    ensures buffer[HEADER_SIZE..HEADER_SIZE + length] == file[s + HEADER_SIZE..s + HEADER_SIZE + length]
  {
    BufferBytes(file, buffer, s);
    BufferSlice(file, buffer, s, 0, 4);
    BufferSlice(file, buffer, s, 6, HEADER_SIZE + length);
    BufferSlice(file, buffer, s, HEADER_SIZE, HEADER_SIZE + length);
  }

  lemma Regroup(a: seq<nat>, b: seq<nat>, c: seq<nat>, d: seq<nat>)
    ensures ((a + b) + c) + d == a + (b + (c + d))
  {
  }

  lemma ReportedTwice(a: seq<nat>, b: seq<nat>, r: Logical)
    ensures Reported(a, Reported(b, r)) == Reported(a + b, r)
  {
    assert a + (b + r.reports) == (a + b) + r.reports;
  }

  class Reader {
    const crc: Checksum
    const file: seq<Byte>
    var buffer: seq<Byte>
    var filePos: nat
    var eof: bool
    var reports: seq<nat>

    constructor (crc: Checksum, file: seq<Byte>)
      ensures Ok() && Pos() == 0 && reports == [] && this.crc == crc && this.file == file
    {
      this.crc, this.file := crc, file;
      buffer, filePos, eof, reports := [], 0, false, [];
    }

    /** The buffer is the unread part of the last block read. */
    ghost predicate Ok()
      reads this`buffer, this`filePos, this`eof
    {
      && |buffer| <= filePos <= |file| && buffer == file[filePos - |buffer|..filePos]
      && (if eof then filePos == |file| else filePos % BLOCK_SIZE == 0)
      && (buffer != [] ==> if eof then filePos < BlockEnd(Pos()) else filePos == BlockEnd(Pos()))
    }

    ghost function Pos(): nat
      reads this`buffer, this`filePos
      requires |buffer| <= filePos
    {
      filePos - |buffer|
    }

    /** `file_->Read` of one block. */
    method ReadBlock()
      requires Ok() && !eof && |buffer| < HEADER_SIZE
      modifies this
      ensures Ok() && reports == old(reports)
      ensures Pos() == old(filePos) && (filePos > old(filePos) || eof)
      ensures HeaderAt(file, Pos()) == HeaderAt(file, old(Pos()))
    {
      SkipsTrailer(file, Pos(), filePos);
      var n := if |file| - filePos < BLOCK_SIZE then |file| - filePos else BLOCK_SIZE;
      buffer := file[filePos..filePos + n];
      BlockRead(filePos);
      filePos := filePos + n;
      if n < BLOCK_SIZE {
        eof := true;
      }
    }

    /** `ReadPhysicalRecord` with checksums on and successful reads. */
    method ReadPhysicalRecord() returns (kind: nat, payload: seq<Byte>)
      requires Ok()
      modifies this
      ensures Ok()
      ensures var p := ReadPhysical(crc, file, old(Pos()));
        kind == p.kind && payload == p.payload && Pos() == p.next && reports == old(reports) + p.reports
    {
      while |buffer| < HEADER_SIZE
        invariant Ok() && reports == old(reports) && HeaderAt(file, Pos()) == HeaderAt(file, old(Pos()))
        decreases |file| - filePos, !eof
      {
        if eof {
          NoHeader(crc, file, Pos());
          buffer := [];
          return EOF, [];
        }
        ReadBlock();
      }
      HeaderInBlock(file, Pos());
      kind, payload := ParseBuffer();
    }

    /** `buffer_.clear()`, with what is reported as dropped. */
    method Clear(dropped: seq<nat>)
      requires Ok()
      modifies this`buffer, this`reports
      ensures Ok() && Pos() == filePos && reports == old(reports) + dropped
    {
      buffer, reports := [], reports + dropped;
    }

    /** `buffer_.remove_prefix(n)`. */
    method RemovePrefix(n: nat)
      requires Ok() && 0 < n <= |buffer|
      modifies this`buffer
      ensures Ok() && Pos() == old(Pos()) + n
    {
      ghost var s := Pos();
      if n < |buffer| {
        SameBlock(s, n);
      }
      BufferSlice(file, buffer, s, n, |buffer|);
      buffer := buffer[n..];
    }

    /** The rest of `ReadPhysicalRecord`, with a header in the buffer. */
    method ParseBuffer() returns (kind: nat, payload: seq<Byte>)
      requires Ok() && |buffer| >= HEADER_SIZE
      modifies this
      ensures Ok()
      ensures var p := Parse(crc, file, old(Pos()));
        kind == p.kind && payload == p.payload && Pos() == p.next && reports == old(reports) + p.reports
    {
      ghost var s := Pos();
      assert Limit(file, s) == filePos;
      ghost var p := Parse(crc, file, s);
      BufferBytes(file, buffer, s);
      var length := LengthOf(buffer[4], buffer[5]);
      kind, payload := buffer[6], [];
      if HEADER_SIZE + length > |buffer| {
        kind := TooLong(p);
      } else if kind == 0 && length == 0 {
        assert p == Physical(BAD_RECORD, [], filePos, []);
        kind := BAD_RECORD;
        Clear([]);
      } else {
        kind, payload := CheckCrc(length);
      }
    }

    /** A length that reaches past what was read: a damaged record, or the file ends within it. */
    method TooLong(ghost p: Physical) returns (kind: nat)
      requires Ok()
      requires p == if eof then Physical(EOF, [], filePos, []) else Physical(BAD_RECORD, [], filePos, [|buffer|])
      modifies this
      ensures Ok() && kind == p.kind && Pos() == p.next && reports == old(reports) + p.reports
    {
      kind := if eof then EOF else BAD_RECORD;
      Clear(if eof then [] else [|buffer|]);
    }

    /** The end of `ReadPhysicalRecord`: with a good checksum, the payload. */
    method CheckCrc(length: nat) returns (kind: nat, payload: seq<Byte>)
      requires Ok() && HEADER_SIZE + length <= |buffer|
      modifies this`buffer, this`reports
      ensures Ok()
      ensures var p := Checked(crc, file, old(Pos()), length);
        kind == p.kind && payload == p.payload && Pos() == p.next && reports == old(reports) + p.reports
    {
      BufferParts(file, buffer, Pos(), length);
      var expected := Crc32c.Unmask(ReadWord(buffer[0..4]));
      if expected != crc(buffer[6..HEADER_SIZE + length]) {
        kind, payload := BAD_RECORD, [];
        Clear([|buffer|]);
      } else {
        kind, payload := buffer[6], buffer[HEADER_SIZE..HEADER_SIZE + length];
        RemovePrefix(HEADER_SIZE + length);
      }
    }

    /** The next fragment, as the disk shows it. */
    method NextFragment(ghost disk: Disk) returns (kind: nat, payload: seq<Byte>, ghost more: seq<nat>)
      requires Ok() && Serves(disk, crc, file)
      modifies this
      ensures Ok() && reports == old(reports) + more
      ensures disk(old(Pos())) == Physical(kind, payload, Pos(), more)
    {
      more := ReadPhysical(crc, file, Pos()).reports;
      kind, payload := ReadPhysicalRecord();
    }

    /** The `switch` of `ReadRecord`. */
    method TakeFragment(kind: nat, payload: seq<Byte>, inRecord: bool, scratch: seq<Byte>)
      returns (done: bool, ok: bool, record: seq<Byte>, stillIn: bool, kept: seq<Byte>)
      requires !inRecord ==> scratch == []
      modifies this`reports
      ensures var t := Collect(kind, payload, if inRecord then Some(scratch) else None);
        && done == t.done && t.record == (if ok then Some(record) else None)
        && (!done ==> !ok && t.scratch == if stillIn then Some(kept) else None)
        && reports == old(reports) + t.dropped
      ensures !stillIn ==> kept == []
    {
      done, ok, record, stillIn, kept := false, false, [], inRecord, scratch;
      if kind == FULL {
        if inRecord && scratch != [] {
          reports := reports + [|scratch|];
        }
        done, ok, record, stillIn, kept := true, true, payload, false, [];
      } else if kind == FIRST {
        if inRecord && scratch != [] {
          reports := reports + [|scratch|];
        }
        stillIn, kept := true, payload;
      } else if kind == MIDDLE {
        if !inRecord {
          reports := reports + [|payload|];
        } else {
          kept := scratch + payload;
        }
      } else if kind == LAST {
        if !inRecord {
          reports := reports + [|payload|];
        } else {
          done, ok, record := true, true, scratch + payload;
        }
      } else if kind == EOF {
        done, stillIn, kept := true, false, [];
      } else {
        if kind != BAD_RECORD {
          reports := reports + [|payload| + if inRecord then |scratch| else 0];
        } else if inRecord {
          reports := reports + [|scratch|];
        }
        stillIn, kept := false, [];
      }
    }

    /** `ReadRecord`: false at the end of the log. */
    method ReadRecord(ghost disk: Disk) returns (ok: bool, record: seq<Byte>)
      requires Ok() && Serves(disk, crc, file) && Advances(disk, |file|)
      modifies this
      ensures Ok()
      ensures var r := ReadLogical(disk, |file|, old(Pos()), None);
        && r.record == (if ok then Some(record) else None)
        && Pos() == r.next && reports == old(reports) + r.reports
    {
      var inRecord, scratch: seq<Byte> := false, [];
      ghost var seen: seq<nat> := [];
      while true
        invariant Ok() && reports == old(reports) + seen && (!inRecord ==> scratch == [])
        invariant Reported(seen, ReadLogical(disk, |file|, Pos(), if inRecord then Some(scratch) else None))
               == ReadLogical(disk, |file|, old(Pos()), None)
        decreases |file| - Pos()
      {
        ghost var before, t := reports, Collect(disk(Pos()).kind, disk(Pos()).payload,
                                                if inRecord then Some(scratch) else None);
        var kind, payload, more := NextFragment(disk);
        var done, stillIn, kept;
        done, ok, record, stillIn, kept := TakeFragment(kind, payload, inRecord, scratch);
        Regroup(old(reports), seen, more, t.dropped);
        if done {
          return;
        }
        ReportedTwice(seen, more + t.dropped, ReadLogical(disk, |file|, Pos(), t.scratch));
        seen := seen + (more + t.dropped);
        inRecord, scratch := stillIn, kept;
      }
    }
  }
}
