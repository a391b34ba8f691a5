/**
 Going on with a log that a crash cut off (`DBImpl::RecoverLogFile` with `reuse_logs`, `db/db_impl.cc`): the
 writer appends behind whatever is there, and the next recovery reads across the place.
*/
module LogAppend {
  import opened Coding
  import opened LogFormat
  import opened LogReader
  import opened LogRecords
  import opened Sequences

  // ---------- the torn record ----------

  /** Where the last fragment ends that is complete within `size` bytes, of a record that is not. */
  function TornEnd(pos: nat, left: nat, size: nat): (q: nat)
    requires RecordEnd(pos, left) > size
    ensures pos <= q && (pos <= size ==> q <= size)
    decreases left, if Room(pos) == 0 then 1 else 0
  {
    var n, end := FirstSize(pos, left), FragmentEnd(pos, left);
    FilledBlock(pos);
    EndStep(pos, left);
    if end > size then pos else TornEnd(end, left - n, size)
  }

  /** How much of its data these fragments have. */
  function TornSize(pos: nat, left: nat, size: nat): (m: nat)
    requires RecordEnd(pos, left) > size
    ensures m <= left
    decreases left, if Room(pos) == 0 then 1 else 0
  {
    var n, end := FirstSize(pos, left), FragmentEnd(pos, left);
    FilledBlock(pos);
    EndStep(pos, left);
    if end > size then 0 else n + TornSize(end, left - n, size)
  }

  function Collected(scratch: Optional<seq<Byte>>, data: seq<Byte>, m: nat, none: bool): Optional<seq<Byte>>
    requires m <= |data|
  {
    if none then scratch else Some(Joined(scratch, data[..m]))
  }

  /** What has been collected when the reader comes to the torn place. */
  function TornScratch(pos: nat, data: seq<Byte>, size: nat, scratch: Optional<seq<Byte>>): Optional<seq<Byte>>
    requires RecordEnd(pos, |data|) > size
  {
    Collected(scratch, data, TornSize(pos, |data|, size), TornEnd(pos, |data|, size) == pos)
  }

  /** The file and the log it was cut from are the same up to `size`. */
  ghost predicate SameUpTo(log: seq<Byte>, whole: seq<Byte>, size: nat) {
    size <= |log| && size <= |whole| && log[..size] == whole[..size]
  }

  lemma AtSame(log: seq<Byte>, whole: seq<Byte>, size: nat, pos: nat, s: seq<Byte>)
    requires SameUpTo(log, whole, size) && At(log, pos, s) && pos + |s| <= size
    ensures At(whole, pos, s)
  {
    assert log[pos..pos + |s|] == log[..size][pos..pos + |s|];
    assert whole[pos..pos + |s|] == whole[..size][pos..pos + |s|];
  }

  /** The first fragment of what was laid out, and the rest. */
  lemma FirstLaid(crc: Checksum, log: seq<Byte>, pos: nat, data: seq<Byte>, begin: bool)
    requires At(log, pos, Laid(crc, pos, data, begin))
    ensures At(log, pos, FirstPart(crc, pos, data, begin))
    ensures var n, end := FirstSize(pos, |data|), FragmentEnd(pos, |data|);
      n < |data| ==> At(log, end, Laid(crc, end, data[n..], false))
  {
    var n, first := FirstSize(pos, |data|), FirstPart(crc, pos, data, begin);
    LaidStep(crc, pos, data, begin);
    if n < |data| {
      Parts(log, pos, Laid(crc, pos, data, begin), first, Laid(crc, pos + |first|, data[n..], false));
    }
  }

  /** A complete fragment is read as it was written. */
  lemma FragmentShown(disk: Disk, crc: Checksum, log: seq<Byte>, whole: seq<Byte>, size: nat, pos: nat,
                      data: seq<Byte>, begin: bool)
    requires Serves(disk, crc, whole) && SameUpTo(log, whole, size)
    requires At(log, pos, FirstPart(crc, pos, data, begin)) && FragmentEnd(pos, |data|) <= size
    ensures var n, end := FirstSize(pos, |data|), FragmentEnd(pos, |data|);
      disk(pos) == Physical(TypeOf(begin, n == |data|), data[..n], end, [])
  {
    AtSame(log, whole, size, pos, FirstPart(crc, pos, data, begin));
    assert whole[..|whole|] == whole;
    FragmentRead(crc, whole, whole, pos, data, begin);
  }

  /** A complete fragment that is not the last is collected. */
  lemma FirstCollected(disk: Disk, crc: Checksum, log: seq<Byte>, whole: seq<Byte>, size: nat, pos: nat,
                       data: seq<Byte>, scratch: Optional<seq<Byte>>)
    requires Serves(disk, crc, whole) && Advances(disk, |whole|) && SameUpTo(log, whole, size) && pos <= size
    requires At(log, pos, Laid(crc, pos, data, scratch.None?)) && FragmentEnd(pos, |data|) <= size
    requires FirstSize(pos, |data|) < |data|
    ensures var n, end := FirstSize(pos, |data|), FragmentEnd(pos, |data|);
      && ReadLogical(disk, |whole|, pos, scratch) == ReadLogical(disk, |whole|, end, Some(Joined(scratch, data[..n])))
      && At(log, end, Laid(crc, end, data[n..], false))
  {
    var n, end := FirstSize(pos, |data|), FragmentEnd(pos, |data|);
    FirstLaid(crc, log, pos, data, scratch.None?);
    FragmentShown(disk, crc, log, whole, size, pos, data, scratch.None?);
    MorePart(disk, |whole|, pos, end, data[..n], scratch);
  }

  /** Reading a torn record comes to the torn place with its complete fragments collected. */
  lemma {:induction false} TornRead(disk: Disk, crc: Checksum, log: seq<Byte>, whole: seq<Byte>, size: nat, pos: nat,
                                    data: seq<Byte>, scratch: Optional<seq<Byte>>)
    requires Serves(disk, crc, whole) && Advances(disk, |whole|) && SameUpTo(log, whole, size) && pos <= size
    requires At(log, pos, Laid(crc, pos, data, scratch.None?)) && RecordEnd(pos, |data|) > size
    ensures ReadLogical(disk, |whole|, pos, scratch) ==
      ReadLogical(disk, |whole|, TornEnd(pos, |data|, size), TornScratch(pos, data, size, scratch))
    decreases |data|, if Room(pos) == 0 then 1 else 0
  {
    if FragmentEnd(pos, |data|) <= size {
      var n, end, rest := FirstSize(pos, |data|), FragmentEnd(pos, |data|), data[FirstSize(pos, |data|)..];
      var sofar := Some(Joined(scratch, data[..n]));
      TornRest(pos, data, size, scratch, rest, n, end, sofar);
      FirstCollected(disk, crc, log, whole, size, pos, data, scratch);
      Shorter(pos, |data|);
      TornRead(disk, crc, log, whole, size, end, rest, sofar);
    }
  }

  lemma TornStep(pos: nat, left: nat, size: nat, n: nat, end: nat, more: nat)
    requires RecordEnd(pos, left) > size && FragmentEnd(pos, left) <= size
    requires n == FirstSize(pos, left) && end == FragmentEnd(pos, left) && more == left - n
    ensures more > 0 && RecordEnd(end, more) > size && TornEnd(pos, left, size) == TornEnd(end, more, size) > pos
    ensures TornSize(pos, left, size) == n + TornSize(end, more, size)
  {
    EndStep(pos, left);
  }

  lemma NoneTorn(pos: nat, left: nat, size: nat)
    requires RecordEnd(pos, left) > size
    ensures TornEnd(pos, left, size) == pos ==> TornSize(pos, left, size) == 0
  {
  }

  lemma TornRest(pos: nat, data: seq<Byte>, size: nat, scratch: Optional<seq<Byte>>, rest: seq<Byte>, n: nat,
                 end: nat, sofar: Optional<seq<Byte>>)
    requires RecordEnd(pos, |data|) > size && FragmentEnd(pos, |data|) <= size
    requires n == FirstSize(pos, |data|) && end == FragmentEnd(pos, |data|) && rest == data[n..]
    requires sofar == Some(Joined(scratch, data[..n]))
    ensures rest != [] && RecordEnd(end, |rest|) > size && TornEnd(pos, |data|, size) == TornEnd(end, |rest|, size)
    ensures TornScratch(pos, data, size, scratch) == TornScratch(end, rest, size, sofar)
  {
    TornStep(pos, |data|, size, n, end, |rest|);
    NoneTorn(end, |rest|, size);
    var m, none := TornSize(end, |rest|, size), TornEnd(end, |rest|, size) == end;
    CollectedStep(scratch, data, n, m, rest, none);
    assert TornScratch(end, rest, size, sofar) == Collected(sofar, rest, m, none);
  }

  lemma CollectedStep(scratch: Optional<seq<Byte>>, data: seq<Byte>, n: nat, m: nat, rest: seq<Byte>, none: bool)
    requires n + m <= |data| && rest == data[n..] && (none ==> m == 0)
    ensures Collected(scratch, data, n + m, false) == Collected(Some(Joined(scratch, data[..n])), rest, m, none)
  {
    JoinedParts(scratch, data, n, m, rest);
  }

  lemma JoinedParts(scratch: Optional<seq<Byte>>, data: seq<Byte>, n: nat, m: nat, rest: seq<Byte>)
    requires n + m <= |data| && rest == data[n..]
    ensures Joined(Some(Joined(scratch, data[..n])), rest[..m]) == Joined(scratch, data[..n + m])
    ensures m == 0 ==> data[..n + m] == data[..n]
  {
    assert data[..n] + rest[..m] == data[..n + m];
    if scratch.Some? {
      Regroup3(scratch.value, data[..n], rest[..m]);
    }
  }

  // ---------- the complete records ----------

  /** Where the last record ends that is complete within `size` bytes. */
  function CompleteEnd(pos: nat, records: seq<seq<Byte>>, size: nat): (p: nat)
    ensures p >= pos && (pos <= size ==> p <= size)
    decreases |records|
  {
    if records == [] then pos
    else
      var end := RecordEnd(pos, |records[0]|);
      if end <= size then CompleteEnd(end, records[1..], size) else pos
  }

  /** The rest of the log is there to be read from where the complete records end. */
  ghost predicate RestAt(crc: Checksum, log: seq<Byte>, size: nat, records: seq<seq<Byte>>, k: nat, p: nat)
    requires k <= |records|
  {
    && p <= size <= |log|
    && (k == |records| ==> p == |log|)
    && (k < |records| ==> At(log, p, Laid(crc, p, records[k], true)) && RecordEnd(p, |records[k]|) > size)
  }

  /** The first record of a log, and the rest. */
  lemma FirstThere(crc: Checksum, log: seq<Byte>, pos: nat, records: seq<seq<Byte>>)
    requires pos <= |log| && log[pos..] == FileOf(crc, pos, records) && records != []
    ensures At(log, pos, Laid(crc, pos, records[0], true))
    ensures var end := RecordEnd(pos, |records[0]|);
      end <= |log| && log[end..] == FileOf(crc, end, records[1..]) && (records[1..] == [] ==> end == |log|)
  {
    assert log[..|log|] == log;
    FirstLogged(crc, log, log, pos, records);
    LaidEnd(crc, pos, records[0], true);
  }

  lemma {:induction false} RestThere(crc: Checksum, log: seq<Byte>, size: nat, pos: nat, records: seq<seq<Byte>>)
    requires pos <= size <= |log| && log[pos..] == FileOf(crc, pos, records)
    ensures RestAt(crc, log, size, records, Complete(pos, records, size), CompleteEnd(pos, records, size))
    decreases |records|
  {
    if records != [] {
      FirstThere(crc, log, pos, records);
      var end := RecordEnd(pos, |records[0]|);
      if end <= size {
        RestThere(crc, log, size, end, records[1..]);
        var k := Complete(end, records[1..], size);
        assert k < |records[1..]| ==> records[1..][k] == records[k + 1];
      }
    }
  }

  lemma RecordShown(disk: Disk, crc: Checksum, log: seq<Byte>, whole: seq<Byte>, size: nat, pos: nat, data: seq<Byte>)
    requires Serves(disk, crc, whole) && Advances(disk, |whole|) && SameUpTo(log, whole, size)
    requires At(log, pos, Laid(crc, pos, data, true)) && RecordEnd(pos, |data|) <= size
    ensures ReadLogical(disk, |whole|, pos, None) == Logical(Some(data), RecordEnd(pos, |data|), [])
  {
    LaidEnd(crc, pos, data, true);
    AtSame(log, whole, size, pos, Laid(crc, pos, data, true));
    assert whole[..|whole|] == whole;
    LaidShows(disk, crc, whole, whole, pos, data, true);
    RecordRead(disk, |whole|, pos, data, None);
  }

  /** From `pos` on the first `k` records are read, and then what is read from `p` on. */
  ghost predicate FrontRead(disk: Disk, size: nat, pos: nat, records: seq<seq<Byte>>, k: nat, p: nat)
    requires pos <= size && p <= size && Advances(disk, size) && k <= |records|
  {
    var rest := ReadAll(disk, size, p);
    ReadAll(disk, size, pos) == (records[..k] + rest.0, rest.1)
  }

  lemma NoneRead(disk: Disk, size: nat, pos: nat, records: seq<seq<Byte>>)
    requires pos <= size && Advances(disk, size)
    ensures FrontRead(disk, size, pos, records, 0, pos)
  {
    var rest := ReadAll(disk, size, pos);
    assert records[..0] + rest.0 == rest.0;
  }

  lemma OneMoreRead(disk: Disk, size: nat, pos: nat, end: nat, records: seq<seq<Byte>>, k: nat, p: nat)
    requires pos <= size && end <= size && p <= size && Advances(disk, size) && k < |records|
    requires ReadLogical(disk, size, pos, None) == Logical(Some(records[0]), end, [])
    requires FrontRead(disk, size, end, records[1..], k, p)
    ensures FrontRead(disk, size, pos, records, k + 1, p)
  {
    var rest := ReadAll(disk, size, p);
    MoreComplete(records, k);
    Regroup3([records[0]], records[1..][..k], rest.0);
    assert [] + rest.1 == rest.1;
  }

  /** The complete records are read, and then what is left of the log. */
  lemma {:induction false} OldsRead(disk: Disk, crc: Checksum, log: seq<Byte>, whole: seq<Byte>, size: nat, pos: nat,
                                    records: seq<seq<Byte>>)
    requires Serves(disk, crc, whole) && Advances(disk, |whole|) && SameUpTo(log, whole, size)
    requires pos <= size && log[pos..] == FileOf(crc, pos, records)
    ensures FrontRead(disk, |whole|, pos, records, Complete(pos, records, size), CompleteEnd(pos, records, size))
    decreases |records|
  {
    NoneRead(disk, |whole|, pos, records);
    if records != [] {
      FirstThere(crc, log, pos, records);
      var end := RecordEnd(pos, |records[0]|);
      if end <= size {
        RecordShown(disk, crc, log, whole, size, pos, records[0]);
        OldsRead(disk, crc, log, whole, size, end, records[1..]);
        OneMoreRead(disk, |whole|, pos, end, records, Complete(end, records[1..], size),
                    CompleteEnd(end, records[1..], size));
      }
    }
  }

  // ---------- cut between fragments ----------

  /** Where the last complete fragment of the log ends. */
  function TearAt(olds: seq<seq<Byte>>, size: nat): (q: nat)
    ensures q <= size
  {
    var k, p := Complete(0, olds, size), CompleteEnd(0, olds, size);
    if k < |olds| && RecordEnd(p, |olds[k]|) > size then TornEnd(p, |olds[k]|, size) else p
  }

  /** The data of a torn record that is in complete fragments. */
  function TornBytes(olds: seq<seq<Byte>>, size: nat): nat {
    var k, p := Complete(0, olds, size), CompleteEnd(0, olds, size);
    if k < |olds| && RecordEnd(p, |olds[k]|) > size then TornSize(p, |olds[k]|, size) else 0
  }

  /** Nothing but padding was written behind it. */
  predicate CleanCut(olds: seq<seq<Byte>>, size: nat) {
    size <= TearAt(olds, size) + Pad(TearAt(olds, size))
  }

  lemma WholeLogged(crc: Checksum, whole: seq<Byte>, size: nat, news: seq<seq<Byte>>, tail: seq<Byte>)
    requires size <= |whole| && whole[size..] == tail && tail == FileOf(crc, size, news)
    ensures WasLogged(crc, whole, whole, size, news) && |whole| == size + |FileOf(crc, size, news)|
  {
    assert whole[..|whole|] == whole;
    assert |whole| == size + |tail|;
  }

  lemma NewsRead(disk: Disk, crc: Checksum, whole: seq<Byte>, size: nat, news: seq<seq<Byte>>)
    requires Serves(disk, crc, whole) && Advances(disk, |whole|)
    requires size <= |whole| && whole[size..] == FileOf(crc, size, news)
    ensures ShowsAll(disk, |whole|, size, news) && ReadAll(disk, |whole|, size) == (news, [])
  {
    WholeLogged(crc, whole, size, news, whole[size..]);
    AllComplete(crc, size, news);
    LogShows(disk, crc, whole, whole, size, news);
    AllRead(disk, |whole|, size, news);
    assert news[..|news|] == news;
  }

  /** From within padding the header is looked for behind it. */
  lemma PadEnds(q: nat, size: nat)
    requires q <= size <= q + Pad(q) && Pad(q) > 0
    ensures var e := q + Pad(q);
      e % BLOCK_SIZE == 0 && e - q < HEADER_SIZE && e == BlockEnd(q) && (size < e ==> BlockEnd(size) == e)
  {
    var b := q / BLOCK_SIZE;
    assert q + Pad(q) == (b + 1) * BLOCK_SIZE;
    if size < q + Pad(q) {
      SameBlock(q, size - q);
    }
  }

  lemma SameHeader(file: seq<Byte>, q: nat, size: nat)
    requires q <= size <= q + Pad(q) <= |file|
    ensures HeaderAt(file, q) == HeaderAt(file, size)
  {
    if Pad(q) > 0 {
      PadEnds(q, size);
      SkipsTrailer(file, q, q + Pad(q));
      SkipsTrailer(file, size, q + Pad(q));
    }
  }

  /** Skipping padding from its start or from within leads to the same fragment. */
  lemma SamePlace(crc: Checksum, file: seq<Byte>, q: nat, size: nat)
    requires q <= size <= q + Pad(q) <= |file|
    ensures ReadPhysical(crc, file, q) == ReadPhysical(crc, file, size)
  {
    SameHeader(file, q, size);
  }

  function Lost(scratch: Optional<seq<Byte>>): seq<nat> {
    if scratch.Some? && scratch.value != [] then [|scratch.value|] else []
  }

  /** A record that starts drops what was collected before. */
  lemma StartDrops(disk: Disk, size: nat, q: nat, pos: nat, scratch: Optional<seq<Byte>>)
    requires q <= size && pos <= size && Advances(disk, size) && disk(q) == disk(pos)
    requires (disk(pos).kind == FULL || disk(pos).kind == FIRST) && disk(pos).reports == []
    ensures ReadLogical(disk, size, q, scratch) == Reported(Lost(scratch), ReadLogical(disk, size, pos, None))
  {
    var p := disk(pos);
    var r := ReadLogical(disk, size, pos, None);
    if p.kind == FIRST {
      var more := ReadLogical(disk, size, p.next, Some(p.payload));
      assert r == Reported([], more) && [] + more.reports == more.reports;
      assert [] + Lost(scratch) == Lost(scratch);
    } else {
      assert [] + Lost(scratch) == Lost(scratch) + [];
    }
  }

  /** Reports in front of the next record are in front of all. */
  lemma AllAfter(disk: Disk, size: nat, p: nat, pos: nat, lost: seq<nat>)
    requires p <= size && pos <= size && Advances(disk, size)
    requires ReadLogical(disk, size, p, None) == Reported(lost, ReadLogical(disk, size, pos, None))
    ensures ReadAll(disk, size, p) == (ReadAll(disk, size, pos).0, lost + ReadAll(disk, size, pos).1)
  {
    var r := ReadLogical(disk, size, pos, None);
    if r.record.Some? {
      assert (lost + r.reports) + ReadAll(disk, size, r.next).1 == lost + (r.reports + ReadAll(disk, size, r.next).1);
    }
  }

  /** The log of `olds`, cut off at `size`, with `news` appended by a writer that starts there. */
  ghost function Appended(crc: Checksum, olds: seq<seq<Byte>>, size: nat, news: seq<seq<Byte>>): seq<Byte>
    requires size <= |FileOf(crc, 0, olds)|
  {
    FileOf(crc, 0, olds)[..size] + FileOf(crc, size, news)
  }

  /** A reader of the appended log, and where in it everything is. */
  ghost predicate Reading(disk: Disk, crc: Checksum, log: seq<Byte>, whole: seq<Byte>, olds: seq<seq<Byte>>, size: nat,
                          news: seq<seq<Byte>>) {
    && Serves(disk, crc, whole) && Advances(disk, |whole|) && SameUpTo(log, whole, size)
    && log == FileOf(crc, 0, olds) && whole[size..] == FileOf(crc, size, news)
  }

  /** The torn record is read up to the torn place. */
  lemma ToTear(disk: Disk, crc: Checksum, log: seq<Byte>, whole: seq<Byte>, olds: seq<seq<Byte>>, size: nat,
               news: seq<seq<Byte>>)
    returns (scratch: Optional<seq<Byte>>)
    requires Reading(disk, crc, log, whole, olds, size, news)
    ensures var p, q := CompleteEnd(0, olds, size), TearAt(olds, size);
      && ReadLogical(disk, |whole|, p, None) == ReadLogical(disk, |whole|, q, scratch)
      && Lost(scratch) == if TornBytes(olds, size) > 0 then [TornBytes(olds, size)] else []
  {
    var k, p := Complete(0, olds, size), CompleteEnd(0, olds, size);
    assert log[0..] == log;
    RestThere(crc, log, size, 0, olds);
    scratch := None;
    if k < |olds| {
      TornRead(disk, crc, log, whole, size, p, olds[k], None);
      scratch := TornScratch(p, olds[k], size, None);
      NoneTorn(p, |olds[k]|, size);
    }
  }

  /** New records start with a first fragment. */
  lemma FirstOfNews(disk: Disk, crc: Checksum, whole: seq<Byte>, size: nat, news: seq<seq<Byte>>)
    requires Serves(disk, crc, whole) && Advances(disk, |whole|) && news != []
    requires size <= |whole| && whole[size..] == FileOf(crc, size, news)
    ensures FragmentEnd(size, |news[0]|) <= |whole|
    ensures var n := FirstSize(size, |news[0]|);
      disk(size) == Physical(TypeOf(true, n == |news[0]|), news[0][..n], FragmentEnd(size, |news[0]|), [])
  {
    FirstThere(crc, whole, size, news);
    LaterEnds(size, |news[0]|);
    FirstLaid(crc, whole, size, news[0], true);
    FragmentShown(disk, crc, whole, whole, |whole|, size, news[0], true);
  }

  /** All records that were complete and all new ones are read, and exactly the torn data is reported. */
  lemma CleanRead(disk: Disk, crc: Checksum, log: seq<Byte>, whole: seq<Byte>, olds: seq<seq<Byte>>, size: nat,
                  news: seq<seq<Byte>>)
    requires Reading(disk, crc, log, whole, olds, size, news) && CleanCut(olds, size) && news != []
    ensures ReadAll(disk, |whole|, 0) ==
      (olds[..Complete(0, olds, size)] + news, if TornBytes(olds, size) > 0 then [TornBytes(olds, size)] else [])
  {
    var p, q := CompleteEnd(0, olds, size), TearAt(olds, size);
    assert log[0..] == log;
    OldsRead(disk, crc, log, whole, size, 0, olds);
    var scratch := ToTear(disk, crc, log, whole, olds, size, news);
    FirstOfNews(disk, crc, whole, size, news);
    PadBefore(q, size);
    SamePlace(crc, whole, q, size);
    StartDrops(disk, |whole|, q, size, scratch);
    AllAfter(disk, |whole|, p, size, Lost(scratch));
    NewsRead(disk, crc, whole, size, news);
    assert Lost(scratch) + [] == Lost(scratch);
  }

  lemma PadBefore(q: nat, size: nat)
    requires q <= size <= q + Pad(q)
    ensures q + Pad(q) <= size + Pad(size)
  {
    if Pad(q) > 0 {
      PadEnds(q, size);
    }
  }

  // ---------- cut within a fragment ----------

  /** What is left of the torn fragment, with the bytes behind it, does not pass for a fragment. */
  ghost predicate Rejected(crc: Checksum, whole: seq<Byte>, q: nat) {
    var s := HeaderAt(whole, q);
    !Intact(crc, whole, s) || ZeroHeader(whole, s)
  }

  /** The first fragment that is not complete. */
  lemma NextTorn(pos: nat, left: nat, size: nat)
    requires RecordEnd(pos, left) > size
    ensures var q := TornEnd(pos, left, size);
      size < q + Pad(q) + HEADER_SIZE + Room(q)
    decreases left, if Room(pos) == 0 then 1 else 0
  {
    var n, end := FirstSize(pos, left), FragmentEnd(pos, left);
    FilledBlock(pos);
    EndStep(pos, left);
    if end <= size {
      NextTorn(end, left - n, size);
    }
  }

  /** A cut that is not clean is within the block of the torn fragment, behind the start of its header. */
  lemma WithinTorn(crc: Checksum, log: seq<Byte>, olds: seq<seq<Byte>>, size: nat)
    requires log == FileOf(crc, 0, olds) && size <= |log| && !CleanCut(olds, size)
    ensures var s := TearAt(olds, size) + Pad(TearAt(olds, size));
      s < size < BlockEnd(s) && BlockEnd(size) == BlockEnd(s)
  {
    var k, p, q := Complete(0, olds, size), CompleteEnd(0, olds, size), TearAt(olds, size);
    assert log[0..] == log;
    RestThere(crc, log, size, 0, olds);
    NextTorn(p, |olds[k]|, size);
    RoomInBlock(q);
    SameBlock(q + Pad(q), size - (q + Pad(q)));
  }

  /** What the reader makes of the torn fragment. */
  lemma TornShown(disk: Disk, crc: Checksum, whole: seq<Byte>, q: nat, size: nat)
    requires Serves(disk, crc, whole) && Rejected(crc, whole, q)
    requires q + Pad(q) < size <= |whole|
    ensures HeaderAt(whole, q) == q + Pad(q)
    ensures var s, p := q + Pad(q), disk(q);
      && p.payload == [] && (p.kind == EOF || p.kind == BAD_RECORD)
      && p.next == (if |whole| < BlockEnd(s) then |whole| else BlockEnd(s))
      && (BlockEnd(s) <= |whole| ==> p.kind == BAD_RECORD)
  {
    FragmentLaw(crc, whole, q);
    LimitIs(whole, q + Pad(q));
  }

  /** What that is, in terms of where the file was cut. */
  lemma TornIs(disk: Disk, crc: Checksum, log: seq<Byte>, whole: seq<Byte>, olds: seq<seq<Byte>>, size: nat,
               news: seq<seq<Byte>>)
    requires Reading(disk, crc, log, whole, olds, size, news) && !CleanCut(olds, size)
    requires Rejected(crc, whole, TearAt(olds, size))
    ensures var p := disk(TearAt(olds, size));
      && (p.kind == EOF || p.kind == BAD_RECORD)
      && p.next == (if |whole| < BlockEnd(size) then |whole| else BlockEnd(size))
      && (BlockEnd(size) <= |whole| ==> p.kind == BAD_RECORD)
  {
    WithinTorn(crc, log, olds, size);
    TornShown(disk, crc, whole, TearAt(olds, size), size);
  }

  /** A bad record is dropped with what was collected. */
  lemma BadDrops(disk: Disk, size: nat, q: nat, scratch: Optional<seq<Byte>>) returns (lost: seq<nat>)
    requires q <= size && Advances(disk, size) && disk(q).kind == BAD_RECORD
    ensures ReadLogical(disk, size, q, scratch) == Reported(lost, ReadLogical(disk, size, disk(q).next, None))
  {
    lost := disk(q).reports + Collect(disk(q).kind, disk(q).payload, scratch).dropped;
  }

  /** Two places where the same is read. */
  lemma SameRead(disk: Disk, size: nat, p: nat, pos: nat)
    requires p <= size && pos <= size && Advances(disk, size) && disk(p) == disk(pos)
    ensures ReadAll(disk, size, p) == ReadAll(disk, size, pos)
  {
    assert ReadLogical(disk, size, p, None) == ReadLogical(disk, size, pos, None);
  }

  /** The rest of a record whose beginning is lost is passed over. */
  lemma {:induction false} RestDropped(disk: Disk, size: nat, pos: nat, data: seq<Byte>) returns (lost: seq<nat>)
    requires pos <= size && Advances(disk, size) && Shows(disk, size, pos, data, false)
    requires RecordEnd(pos, |data|) <= size
    ensures ReadLogical(disk, size, pos, None) == Reported(lost, ReadLogical(disk, size, RecordEnd(pos, |data|), None))
    decreases |data|, if Room(pos) == 0 then 1 else 0
  {
    var n, end := FirstSize(pos, |data|), FragmentEnd(pos, |data|);
    FilledBlock(pos);
    EndStep(pos, |data|);
    LaterEnds(pos, |data|);
    lost := PartDropped(disk, size, pos, data[..n], end, n == |data|);
    if n < |data| {
      var more := RestDropped(disk, size, end, data[n..]);
      ReportedTwice(lost, more, ReadLogical(disk, size, RecordEnd(pos, |data|), None));
      lost := lost + more;
    }
  }

  lemma PartDropped(disk: Disk, size: nat, pos: nat, part: seq<Byte>, end: nat, last: bool) returns (lost: seq<nat>)
    requires pos <= size && Advances(disk, size) && disk(pos) == Physical(TypeOf(false, last), part, end, [])
    ensures end <= size
    ensures ReadLogical(disk, size, pos, None) == Reported(lost, ReadLogical(disk, size, end, None))
  {
    lost := [] + [|part|];
  }

  lemma Fewer(records: seq<seq<Byte>>)
    requires records != []
    ensures |records[1..]| == |records| - 1
  {
  }

  lemma RestShown(disk: Disk, crc: Checksum, whole: seq<Byte>, pos: nat, data: seq<Byte>)
    requires Serves(disk, crc, whole) && At(whole, pos, Laid(crc, pos, data, true))
    requires FirstSize(pos, |data|) < |data| && RecordEnd(pos, |data|) <= |whole|
    ensures var n, e := FirstSize(pos, |data|), FragmentEnd(pos, |data|);
      && e <= |whole| && Shows(disk, |whole|, e, data[n..], false) && RecordEnd(e, |data| - n) == RecordEnd(pos, |data|)
  {
    LaterEnds(pos, |data|);
    EndStep(pos, |data|);
    FirstLaid(crc, whole, pos, data, true);
    assert whole[..|whole|] == whole;
    LaidShows(disk, crc, whole, whole, FragmentEnd(pos, |data|), data[FirstSize(pos, |data|)..], false);
  }

  /** The record that starts at `pos` goes on over the end of its block: from there on only the next ones are read. */
  lemma LongSkipped(disk: Disk, crc: Checksum, whole: seq<Byte>, pos: nat, news: seq<seq<Byte>>)
    requires Serves(disk, crc, whole) && Advances(disk, |whole|) && news != []
    requires pos <= |whole| && whole[pos..] == FileOf(crc, pos, news)
    requires FirstSize(pos, |news[0]|) < |news[0]|
    ensures var e := FragmentEnd(pos, |news[0]|); e <= |whole| && ReadAll(disk, |whole|, e).0 == news[1..]
  {
    var e, end, rest := FragmentEnd(pos, |news[0]|), RecordEnd(pos, |news[0]|), news[0][FirstSize(pos, |news[0]|)..];
    FirstThere(crc, whole, pos, news);
    RestShown(disk, crc, whole, pos, news[0]);
    var lost := RestDropped(disk, |whole|, e, rest);
    AllAfter(disk, |whole|, e, end, lost);
    NewsRead(disk, crc, whole, end, news[1..]);
  }

  /** Where the first fragment ends, if there is room for it in the block. */
  lemma EndInBlock(pos: nat, left: nat)
    requires Pad(pos) == 0
    ensures var e, end := BlockEnd(pos), FragmentEnd(pos, left);
      && pos < end <= e && (FirstSize(pos, left) < left ==> end == e) && (end < e ==> BlockEnd(end) == e)
      && (end < e && Pad(end) > 0 ==> end + Pad(end) == e)
  {
    RoomInBlock(pos);
    var end := FragmentEnd(pos, left);
    if end < BlockEnd(pos) {
      SameBlock(pos, end - pos);
      if Pad(end) > 0 {
        PadEnds(end, end);
      }
    }
  }

  /** Whoever starts reading at the end of the block in which the first record starts misses that record. */
  lemma {:induction false} FirstMissed(disk: Disk, crc: Checksum, whole: seq<Byte>, pos: nat, news: seq<seq<Byte>>)
    requires Serves(disk, crc, whole) && Advances(disk, |whole|) && news != [] && Pad(pos) == 0
    requires pos < BlockEnd(pos) <= |whole| && whole[pos..] == FileOf(crc, pos, news)
    ensures |ReadAll(disk, |whole|, BlockEnd(pos)).0| < |news|
    decreases |news|
  {
    var e, end := BlockEnd(pos), FragmentEnd(pos, |news[0]|);
    EndInBlock(pos, |news[0]|);
    Fewer(news);
    if FirstSize(pos, |news[0]|) < |news[0]| {
      LongSkipped(disk, crc, whole, pos, news);
    } else {
      ShortFirst(disk, crc, whole, pos, news);
      if end < e {
        if Pad(end) > 0 {
          SamePlace(crc, whole, end, e);
          SameRead(disk, |whole|, e, end);
        } else {
          FirstMissed(disk, crc, whole, end, news[1..]);
        }
      }
    }
  }

  lemma ShortFirst(disk: Disk, crc: Checksum, whole: seq<Byte>, pos: nat, news: seq<seq<Byte>>)
    requires Serves(disk, crc, whole) && Advances(disk, |whole|) && news != []
    requires pos <= |whole| && whole[pos..] == FileOf(crc, pos, news) && FirstSize(pos, |news[0]|) == |news[0]|
    ensures var end := FragmentEnd(pos, |news[0]|);
      && end <= |whole| && whole[end..] == FileOf(crc, end, news[1..]) && ReadAll(disk, |whole|, end).0 == news[1..]
      && (news[1..] == [] ==> end == |whole|)
  {
    var data, end := news[0], FragmentEnd(pos, |news[0]|);
    FirstThere(crc, whole, pos, news);
    EndStep(pos, |data|);
    NewsRead(disk, crc, whole, end, news[1..]);
  }

  /** Past a bad record at the torn place reading goes on. */
  lemma PastBad(disk: Disk, crc: Checksum, log: seq<Byte>, whole: seq<Byte>, olds: seq<seq<Byte>>, size: nat,
                news: seq<seq<Byte>>)
    requires Reading(disk, crc, log, whole, olds, size, news) && disk(TearAt(olds, size)).kind == BAD_RECORD
    ensures disk(TearAt(olds, size)).next <= |whole|
    ensures ReadAll(disk, |whole|, CompleteEnd(0, olds, size)).0 ==
      ReadAll(disk, |whole|, disk(TearAt(olds, size)).next).0
  {
    var p, q := CompleteEnd(0, olds, size), TearAt(olds, size);
    var scratch := ToTear(disk, crc, log, whole, olds, size, news);
    var lost := BadDrops(disk, |whole|, q, scratch);
    AllAfter(disk, |whole|, p, disk(q).next, lost);
  }

  /** At the end of the file nothing more is read. */
  lemma NoneAfter(disk: Disk, crc: Checksum, log: seq<Byte>, whole: seq<Byte>, olds: seq<seq<Byte>>, size: nat,
                  news: seq<seq<Byte>>)
    requires Reading(disk, crc, log, whole, olds, size, news) && disk(TearAt(olds, size)).kind == EOF
    ensures ReadAll(disk, |whole|, CompleteEnd(0, olds, size)).0 == []
  {
    var scratch := ToTear(disk, crc, log, whole, olds, size, news);
    EndsThere(disk, |whole|, TearAt(olds, size), scratch);
  }

  /** From the end of a block with no room for a header, the news are read that start behind it. */
  lemma NewsBehind(disk: Disk, crc: Checksum, whole: seq<Byte>, size: nat, news: seq<seq<Byte>>)
    requires Serves(disk, crc, whole) && Advances(disk, |whole|) && news != [] && Pad(size) > 0
    requires size <= |whole| && whole[size..] == FileOf(crc, size, news)
    ensures BlockEnd(size) <= |whole| && ReadAll(disk, |whole|, BlockEnd(size)).0 == news
  {
    PadEnds(size, size);
    FirstOfNews(disk, crc, whole, size, news);
    SamePlace(crc, whole, size, BlockEnd(size));
    SameRead(disk, |whole|, BlockEnd(size), size);
    NewsRead(disk, crc, whole, size, news);
  }

  /** A torn fragment that fills its block up to less than a header costs no record. */
  lemma RoomlessRead(disk: Disk, crc: Checksum, log: seq<Byte>, whole: seq<Byte>, olds: seq<seq<Byte>>, size: nat,
                     news: seq<seq<Byte>>)
    requires Reading(disk, crc, log, whole, olds, size, news) && news != [] && !CleanCut(olds, size)
    requires Rejected(crc, whole, TearAt(olds, size)) && Pad(size) > 0
    ensures ReadAll(disk, |whole|, CompleteEnd(0, olds, size)).0 == news
  {
    TornIs(disk, crc, log, whole, olds, size, news);
    NewsBehind(disk, crc, whole, size, news);
    PastBad(disk, crc, log, whole, olds, size, news);
  }

  /** Otherwise the first new record is lost. */
  lemma FirstLost(disk: Disk, crc: Checksum, log: seq<Byte>, whole: seq<Byte>, olds: seq<seq<Byte>>, size: nat,
                  news: seq<seq<Byte>>)
    requires Reading(disk, crc, log, whole, olds, size, news) && news != [] && !CleanCut(olds, size)
    requires Rejected(crc, whole, TearAt(olds, size)) && Pad(size) == 0
    ensures |ReadAll(disk, |whole|, CompleteEnd(0, olds, size)).0| < |news|
  {
    TornIs(disk, crc, log, whole, olds, size, news);
    if disk(TearAt(olds, size)).kind == EOF {
      NoneAfter(disk, crc, log, whole, olds, size, news);
    } else {
      PastBad(disk, crc, log, whole, olds, size, news);
      LostBehind(disk, crc, whole, size, news);
    }
  }

  /** From the end of the block in which the news start, or of the file, not all of them are read. */
  lemma LostBehind(disk: Disk, crc: Checksum, whole: seq<Byte>, size: nat, news: seq<seq<Byte>>)
    requires Serves(disk, crc, whole) && Advances(disk, |whole|) && news != [] && Pad(size) == 0
    requires size <= |whole| && whole[size..] == FileOf(crc, size, news)
    ensures var e := if |whole| < BlockEnd(size) then |whole| else BlockEnd(size);
      |ReadAll(disk, |whole|, e).0| < |news|
  {
    if BlockEnd(size) <= |whole| {
      FirstMissed(disk, crc, whole, size, news);
    } else {
      NothingAtEnd(disk, crc, whole);
    }
  }

  lemma NothingAtEnd(disk: Disk, crc: Checksum, whole: seq<Byte>)
    requires Serves(disk, crc, whole) && Advances(disk, |whole|)
    ensures ReadAll(disk, |whole|, |whole|).0 == []
  {
    AtEnd(crc, whole, |whole|);
    EndPart(disk, |whole|, |whole|, None);
  }

  lemma EndsThere(disk: Disk, size: nat, q: nat, scratch: Optional<seq<Byte>>)
    requires q <= size && Advances(disk, size) && disk(q).kind == EOF
    ensures ReadLogical(disk, size, q, scratch).record == None
  {
  }

  /**
   A log of `olds` cut off anywhere and then appended to. Cut between two fragments, it reads as all records that
   were complete and all new ones, and exactly the data of the torn record is reported. Cut within a fragment that
   does not happen to pass for a whole one with the bytes that follow it, it reads as these records if and only if
   there was no room for a header left in the block.
  */
  lemma AppendedLaw(crc: Checksum, olds: seq<seq<Byte>>, size: nat, news: seq<seq<Byte>>)
    requires size <= |FileOf(crc, 0, olds)| && news != []
    ensures var whole := Appended(crc, olds, size, news);
      var disk, old_, torn := DiskOf(crc, whole), olds[..Complete(0, olds, size)], TornBytes(olds, size);
      && Advances(disk, |whole|)
      && (CleanCut(olds, size) ==> ReadAll(disk, |whole|, 0) == (old_ + news, if torn > 0 then [torn] else []))
      && (CleanCut(olds, size) || Rejected(crc, whole, TearAt(olds, size)) ==>
            (ReadAll(disk, |whole|, 0).0 == old_ + news <==> CleanCut(olds, size) || Pad(size) > 0))
  {
    var log, whole := FileOf(crc, 0, olds), Appended(crc, olds, size, news);
    var disk := DiskOf(crc, whole);
    DiskAdvances(crc, whole);
    assert log[..size] == whole[..size] && whole[size..] == FileOf(crc, size, news) && log[0..] == log;
    if CleanCut(olds, size) {
      CleanRead(disk, crc, log, whole, olds, size, news);
    } else if Rejected(crc, whole, TearAt(olds, size)) {
      OldsRead(disk, crc, log, whole, size, 0, olds);
      if Pad(size) > 0 {
        RoomlessRead(disk, crc, log, whole, olds, size, news);
      } else {
        FirstLost(disk, crc, log, whole, olds, size, news);
      }
    }
  }

  // ---------- a record that is lost ----------

  const OLD: seq<seq<Byte>> := [Padding(100)]
  const NEW: seq<seq<Byte>> := [[1]]

  lemma OneRecord(crc: Checksum, pos: nat, data: seq<Byte>)
    requires |data| <= 100 && pos <= 1000
    ensures FileOf(crc, pos, [data]) == Fragment(crc, FULL, data)
  {
    var f := Fragment(crc, FULL, data);
    assert Pad(pos) == 0 && Room(pos) > 100 && data[..|data|] == data && Padding(0) + f == f;
    assert Laid(crc, pos, data, true) == f;
    assert FileOf(crc, pos + |f|, [data][1..]) == [] && f + [] == f;
  }

  /**
   Whatever the checksum: a record of 100 bytes is torn behind its header, and a record of one byte is written
   behind it and synced. The next recovery finds the end of the file in the torn fragment: it reads nothing and
   reports nothing.
  */
  lemma AppendedIsLost(crc: Checksum)
    ensures 7 <= |FileOf(crc, 0, OLD)|
    ensures var whole := Appended(crc, OLD, 7, NEW);
      Advances(DiskOf(crc, whole), |whole|) && ReadAll(DiskOf(crc, whole), |whole|, 0) == ([], [])
  {
    OneRecord(crc, 0, Padding(100));
    OneRecord(crc, 7, [1]);
    var f, whole := Fragment(crc, FULL, Padding(100)), Appended(crc, OLD, 7, NEW);
    assert whole == f[..7] + Fragment(crc, FULL, [1]);
    FragmentParts(crc, FULL, Padding(100));
    assert whole[4] == f[4] && whole[5] == f[5];
    DiskAdvances(crc, whole);
    assert ReadPhysical(crc, whole, 0) == Physical(EOF, [], 15, []);
    EndPart(DiskOf(crc, whole), 15, 0, None);
  }
}
