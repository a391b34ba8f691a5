/**
 What `Reader::ReadRecord` (`db/log_reader.cc`) makes of any file at all, damaged or not: which fragments it takes
 for fragments, which of them are records, and what it reports of the others.
*/
module LogRecords {
  import opened Coding
  import Crc32c
  import opened LogFormat
  import opened LogReader
  import opened Sequences

  // ---------- one fragment ----------

  function LengthAt(file: seq<Byte>, s: nat): nat
    requires s + 7 <= |file|
  {
    var lo: nat, hi: nat := file[s + 4], file[s + 5];
    lo + 256 * hi
  }

  /** The end of the block of `s`, or of the file. */
  function BlockLimit(file: seq<Byte>, s: nat): nat {
    var end := (s / BLOCK_SIZE + 1) * BLOCK_SIZE;
    if |file| < end then |file| else end
  }

  /** A whole fragment at `s`, within its block and with the right checksum. */
  ghost predicate Intact(crc: Checksum, file: seq<Byte>, s: nat) {
    && s + 7 <= |file|
    && var end := s + 7 + LengthAt(file, s);
       && end <= BlockLimit(file, s)
       && Crc32c.Unmask(ReadWord(file[s..s + 4])) == crc(file[s + 6..end])
  }

  /** A header of zeros, as found in preallocated space. */
  predicate ZeroHeader(file: seq<Byte>, s: nat) {
    s + 7 <= |file| && file[s + 6] == 0 && LengthAt(file, s) == 0
  }

  /** Where the next header is: behind the rest of a block that is too short for one. */
  predicate HeaderFrom(file: seq<Byte>, pos: nat, s: nat) {
    var left := BLOCK_SIZE - pos % BLOCK_SIZE;
    s == if left >= 7 || pos + left > |file| then pos else pos + left
  }

  lemma LimitIs(file: seq<Byte>, s: nat)
    ensures Limit(file, s) == BlockLimit(file, s) && BlockEnd(s) == (s / BLOCK_SIZE + 1) * BLOCK_SIZE
  {
  }

  /**
   What is read at `pos`, for every file: the fragment there if it is intact, except for a header of zeros; else
   the end of the file if that ends within a header or a fragment, else a bad record. Neither of these gives any
   payload; the rest of the block is dropped, and reported unless its header is one of zeros.
  */
  lemma FragmentLaw(crc: Checksum, file: seq<Byte>, pos: nat)
    requires pos <= |file|
    ensures var p, s := ReadPhysical(crc, file, pos), HeaderAt(file, pos);
      && HeaderFrom(file, pos, s) && s <= |file|
      && if Intact(crc, file, s) && !ZeroHeader(file, s) then
           p == Physical(file[s + 6], file[s + 7..s + 7 + LengthAt(file, s)], s + 7 + LengthAt(file, s), [])
         else
           var end := BlockLimit(file, s);
           var cut := end == |file| && end < BlockEnd(s) && (s + 7 > end || s + 7 + LengthAt(file, s) > end);
           p == Physical(if cut then EOF else BAD_RECORD, [], end,
                         if cut || ZeroHeader(file, s) then [] else [end - s])
  {
    HeaderPlace(file, pos);
    ParseLaw(crc, file, HeaderAt(file, pos));
  }

  lemma HeaderPlace(file: seq<Byte>, pos: nat)
    requires pos <= |file|
    ensures HeaderFrom(file, pos, HeaderAt(file, pos))
    ensures var s := HeaderAt(file, pos); s <= |file| && (s + 7 <= BlockEnd(s) || |file| < BlockEnd(s))
  {
  }

  lemma ParseLaw(crc: Checksum, file: seq<Byte>, s: nat)
    requires s <= |file| && (s + 7 <= BlockEnd(s) || |file| < BlockEnd(s))
    ensures var p := Parse(crc, file, s);
      if Intact(crc, file, s) && !ZeroHeader(file, s) then
        p == Physical(file[s + 6], file[s + 7..s + 7 + LengthAt(file, s)], s + 7 + LengthAt(file, s), [])
      else
        var end := BlockLimit(file, s);
        var cut := end == |file| && end < BlockEnd(s) && (s + 7 > end || s + 7 + LengthAt(file, s) > end);
        p == Physical(if cut then EOF else BAD_RECORD, [], end,
                      if cut || ZeroHeader(file, s) then [] else [end - s])
  {
    LimitIs(file, s);
  }

  // ---------- one record, whatever the disk gives ----------

  /** The fragments read from `pos` on, up to the one that ends at `end` or the end of the file. */
  ghost function Fragments(disk: Disk, size: nat, pos: nat, end: nat): (fs: seq<Physical>)
    requires pos <= size && Advances(disk, size)
    ensures fs != []
    decreases size - pos
  {
    var p := disk(pos);
    if p.kind == EOF || p.next >= end then [p] else [p] + Fragments(disk, size, p.next, end)
  }

  function Payloads(fs: seq<Physical>): seq<Byte> {
    if fs == [] then [] else Payloads(fs[..|fs| - 1]) + fs[|fs| - 1].payload
  }

  /** Payload that has to be accounted for; the kind of bad records is also the code for them, and not counted. */
  function Counted(p: Physical): nat {
    if p.kind == BAD_RECORD then 0 else |p.payload|
  }

  function Sizes(fs: seq<Physical>): nat {
    if fs == [] then 0 else Sizes(fs[..|fs| - 1]) + Counted(fs[|fs| - 1])
  }

  function Total(reports: seq<nat>): nat {
    if reports == [] then 0 else Total(reports[..|reports| - 1]) + reports[|reports| - 1]
  }

  /** What was reported below the level of records. */
  function Damage(fs: seq<Physical>): nat {
    if fs == [] then 0 else Damage(fs[..|fs| - 1]) + Total(fs[|fs| - 1].reports)
  }

  /** Fragments `a` to `b`, `b` excluded, begin a record: a first one and middle ones. */
  ghost predicate IsBegun(fs: seq<Physical>, a: nat, b: nat) {
    a < b <= |fs| && fs[a].kind == FIRST && forall i | a < i < b :: fs[i].kind == MIDDLE
  }

  /** The file ends in a record that begins at `a`. */
  ghost predicate EndsIn(fs: seq<Physical>, a: nat) {
    fs != [] && IsBegun(fs, a, |fs| - 1)
  }

  /** They are a record: a full one, or a first, middle ones and a last. */
  ghost predicate IsRecord(fs: seq<Physical>, a: nat, b: nat) {
    && a < b <= |fs|
    && if b == a + 1 then fs[a].kind == FULL else IsBegun(fs, a, b - 1) && fs[b - 1].kind == LAST
  }

  /**
   A record is the first that is complete among the fragments read, and `i` is where it begins. The end of the file
   comes if there is none, and `i` is where a record begins that the file ends in.
  */
  ghost predicate ReadsAs(fs: seq<Physical>, record: Optional<seq<Byte>>, i: nat) {
    && i < |fs| && (forall a, b | 0 <= a < b < |fs| :: !IsRecord(fs, a, b))
    && if record.Some? then IsRecord(fs, i, |fs|) && record.value == Payloads(fs[i..])
       else
         && fs[|fs| - 1].kind == EOF
         && (i == |fs| - 1 || EndsIn(fs, i)) && forall a | 0 <= a < i :: !EndsIn(fs, a)
  }

  /** Everything before `i` is reported, and of the damage that of all but the first `n`. */
  ghost predicate Accounts(fs: seq<Physical>, n: nat, i: nat, reports: seq<nat>) {
    i <= |fs| && n <= |fs| && Total(reports) == Damage(fs[n..]) + Sizes(fs[..i])
  }

  // ---------- sums ----------

  lemma {:induction false} TotalAppend(a: seq<nat>, b: seq<nat>)
    ensures Total(a + b) == Total(a) + Total(b)
    decreases |b|
  {
    if b == [] {
      assert a + b == a;
    } else {
      assert (a + b)[..|a + b| - 1] == a + b[..|b| - 1];
      TotalAppend(a, b[..|b| - 1]);
    }
  }

  lemma {:induction false} SizesAppend(a: seq<Physical>, b: seq<Physical>)
    ensures Sizes(a + b) == Sizes(a) + Sizes(b)
    decreases |b|
  {
    if b == [] {
      assert a + b == a;
    } else {
      assert (a + b)[..|a + b| - 1] == a + b[..|b| - 1];
      SizesAppend(a, b[..|b| - 1]);
    }
  }

  lemma {:induction false} DamageAppend(a: seq<Physical>, b: seq<Physical>)
    ensures Damage(a + b) == Damage(a) + Damage(b)
    decreases |b|
  {
    if b == [] {
      assert a + b == a;
    } else {
      assert (a + b)[..|a + b| - 1] == a + b[..|b| - 1];
      DamageAppend(a, b[..|b| - 1]);
    }
  }

  lemma OneMore(a: seq<Physical>, p: Physical)
    ensures Sizes(a + [p]) == Sizes(a) + Counted(p) && Damage(a + [p]) == Damage(a) + Total(p.reports)
    ensures Payloads(a + [p]) == Payloads(a) + p.payload
  {
    assert (a + [p])[..|a|] == a;
  }

  lemma OneAlone(p: Physical)
    ensures Sizes([p]) == Counted(p) && Damage([p]) == Total(p.reports) && Payloads([p]) == p.payload
  {
    OneMore([], p);
    assert [] + [p] == [p];
  }

  lemma {:induction false} BegunSizes(fs: seq<Physical>)
    requires fs == [] || IsBegun(fs, 0, |fs|)
    ensures Sizes(fs) == |Payloads(fs)|
    decreases |fs|
  {
    if fs != [] {
      BegunSizes(fs[..|fs| - 1]);
    }
  }

  // ---------- fragments that come to nothing ----------

  /** No record, and none that is begun at the end, starts among the first `d`. */
  ghost predicate ComesToNothing(fs: seq<Physical>, d: nat) {
    && d <= |fs|
    && (forall a, b | 0 <= a < d && a < b <= |fs| :: !IsRecord(fs, a, b))
    && (forall a | 0 <= a < d :: !EndsIn(fs, a))
  }

  lemma ShiftBegun(dead: seq<Physical>, fs: seq<Physical>, a: nat, b: nat)
    requires a <= b <= |fs|
    ensures IsBegun(dead + fs, |dead| + a, |dead| + b) <==> IsBegun(fs, a, b)
  {
    var all, d := dead + fs, |dead|;
    if IsBegun(all, d + a, d + b) {
      forall i | a < i < b ensures fs[i].kind == MIDDLE {
        assert all[d + i] == fs[i];
      }
    }
  }

  lemma ShiftRecord(dead: seq<Physical>, fs: seq<Physical>, a: nat, b: nat)
    requires a <= b <= |fs|
    ensures IsRecord(dead + fs, |dead| + a, |dead| + b) <==> IsRecord(fs, a, b)
  {
    if a < b {
      ShiftBegun(dead, fs, a, b - 1);
    }
  }

  lemma BehindNothing(dead: seq<Physical>, fs: seq<Physical>, record: Optional<seq<Byte>>, i: nat)
    requires ReadsAs(fs, record, i) && ComesToNothing(dead + fs, |dead|)
    ensures ReadsAs(dead + fs, record, |dead| + i)
  {
    var all, d := dead + fs, |dead|;
    forall a, b | 0 <= a < b < |all| ensures !IsRecord(all, a, b) {
      if a >= d {
        ShiftRecord(dead, fs, a - d, b - d);
      }
    }
    forall a | 0 <= a < d + i && record.None? ensures !EndsIn(all, a) {
      if a >= d {
        ShiftBegun(dead, fs, a - d, |fs| - 1);
        assert !EndsIn(fs, a - d);
      }
    }
    ShiftBegun(dead, fs, i, |fs| - 1);
    ShiftRecord(dead, fs, i, |fs|);
    assert all[d + i..] == fs[i..] && all[|all| - 1] == fs[|fs| - 1];
  }

  /** The damage among `fs` but the first `n'` is that in `dead + fs` but the first `n`, without `more`. */
  lemma AccountsMore(dead: seq<Physical>, fs: seq<Physical>, n: nat, n': nat, i: nat, more: seq<nat>, p: Physical,
                     dropped: seq<nat>, reports: seq<nat>)
    requires n <= |dead + fs| && n' <= |fs| && (dead + fs)[n..] == [p] + fs[n'..]
    requires Accounts(fs, n', i, reports) && more == p.reports + dropped && Total(dropped) == Sizes(dead)
    ensures Accounts(dead + fs, n, |dead| + i, more + reports)
  {
    TotalAppend(more, reports);
    TotalAppend(p.reports, dropped);
    DamageAppend([p], fs[n'..]);
    OneAlone(p);
    SizesAppend(dead, fs[..i]);
    assert (dead + fs)[..|dead| + i] == dead + fs[..i];
  }

  // ---------- the law ----------

  /** What `ReadRecord` has collected of a record that is begun. */
  function Scratch(open: seq<Physical>): Optional<seq<Byte>> {
    if open == [] then None else Some(Payloads(open))
  }

  /** What `r` is, with the fragments `open` of a record that was begun before those of `fs`. */
  ghost predicate Reads(open: seq<Physical>, fs: seq<Physical>, r: Logical) {
    ReadsFrom(open + fs, |open|, r)
  }

  ghost predicate ReadsFrom(all: seq<Physical>, n: nat, r: Logical) {
    exists i :: ReadsAs(all, r.record, i) && Accounts(all, n, i, r.reports)
  }

  ghost predicate Begun(open: seq<Physical>) {
    open == [] || IsBegun(open, 0, |open|)
  }

  /** A record that is begun is neither complete nor at the end if what follows does not go on with it. */
  lemma BrokenOff(open: seq<Physical>, fs: seq<Physical>)
    requires Begun(open) && |fs| > 1 && fs[0].kind != MIDDLE && fs[0].kind != LAST
    ensures ComesToNothing(open + fs, |open|)
  {
    var all := open + fs;
    assert |open| > 0 ==> all[|open|] == fs[0];
  }

  lemma BrokenBy(open: seq<Physical>, p: Physical, fs: seq<Physical>)
    requires Begun(open) && fs != [] && p.kind != FULL && p.kind != FIRST
    requires open == [] || (p.kind != MIDDLE && p.kind != LAST)
    ensures ComesToNothing(open + ([p] + fs), |open| + 1)
  {
    var all := open + ([p] + fs);
    assert all[|open|] == p;
    assert forall i | 0 <= i < |open| :: all[i] == open[i];
  }

  lemma FullIsRecord(open: seq<Physical>, p: Physical)
    requires Begun(open) && p.kind == FULL
    ensures ReadsAs(open + [p], Some(p.payload), |open|)
  {
    var all := open + [p];
    OneAlone(p);
    assert all[|open|..] == [p] && all[|open|] == p && forall i | 0 <= i < |open| :: all[i] == open[i];
  }

  lemma FullRead(open: seq<Physical>, p: Physical, r: Logical)
    requires Begun(open) && p.kind == FULL && r.record == Some(p.payload)
    requires r.reports == p.reports + if Payloads(open) != [] then [|Payloads(open)|] else []
    ensures Reads(open, [p], r)
  {
    FullIsRecord(open, p);
    FullAccounts(open, p, r.reports);
  }

  lemma FullAccounts(open: seq<Physical>, p: Physical, reports: seq<nat>)
    requires Begun(open) && reports == p.reports + if Payloads(open) != [] then [|Payloads(open)|] else []
    ensures Accounts(open + [p], |open|, |open|, reports)
  {
    assert (open + [p])[|open|..] == [p] && (open + [p])[..|open|] == open;
    BegunSizes(open);
    OneAlone(p);
    TotalOf(p.reports, |Payloads(open)|);
  }

  lemma TotalOf(reports: seq<nat>, n: nat)
    ensures Total(reports + if n > 0 then [n] else []) == Total(reports) + n
    ensures Total(if n > 0 then [n] else []) == n && Total([n]) == n
  {
    TotalAppend(reports, if n > 0 then [n] else []);
    assert [n][..0] == [];
  }

  lemma LastRead(open: seq<Physical>, p: Physical, r: Logical)
    requires Begun(open) && open != [] && p.kind == LAST
    requires r.record == Some(Payloads(open) + p.payload) && r.reports == p.reports + []
    ensures Reads(open, [p], r)
  {
    var all := open + [p];
    OneMore(open, p);
    OneAlone(p);
    assert all[|open|..] == [p] && all[0..] == all && all[..0] == [] && p.reports + [] == p.reports;
    assert all[|open|] == p && forall i | 0 <= i < |open| :: all[i] == open[i];
    assert IsBegun(all, 0, |all| - 1);
    assert ReadsAs(all, r.record, 0);
  }

  lemma EndRead(open: seq<Physical>, p: Physical, r: Logical)
    requires Begun(open) && p.kind == EOF && r.record == None && r.reports == p.reports + []
    ensures Reads(open, [p], r)
  {
    var all := open + [p];
    OneAlone(p);
    assert all[|open|..] == [p] && all[..0] == [] && p.reports + [] == p.reports;
    assert all[|open|] == p && forall i | 0 <= i < |open| :: all[i] == open[i];
    assert ReadsAs(all, r.record, 0);
  }

  lemma Regrouped(open: seq<Physical>, p: Physical, open': seq<Physical>, dead: seq<Physical>, fs: seq<Physical>)
    requires open + [p] == dead + open'
    ensures open + ([p] + fs) == dead + (open' + fs)
    ensures (open + ([p] + fs))[|open|..] == [p] + fs && (open' + fs)[|open'|..] == fs
  {
    assert open + ([p] + fs) == (open + [p]) + fs;
  }

  /** A fragment that neither ends a record nor the file: what comes of the rest, comes of it. */
  lemma MoreRead(open: seq<Physical>, p: Physical, open': seq<Physical>, dead: seq<Physical>, fs: seq<Physical>,
                 dropped: seq<nat>, r: Logical)
    requires Reads(open', fs, r) && open + [p] == dead + open' && ComesToNothing(open + ([p] + fs), |dead|)
    requires Total(dropped) == Sizes(dead)
    ensures Reads(open, [p] + fs, Reported(p.reports + dropped, r))
  {
    Regrouped(open, p, open', dead, fs);
    MoreFrom(dead, open' + fs, open + ([p] + fs), |open|, |open'|, p, dropped, r);
  }

  lemma MoreFrom(dead: seq<Physical>, rest: seq<Physical>, all: seq<Physical>, n: nat, n': nat, p: Physical,
                 dropped: seq<nat>, r: Logical)
    requires all == dead + rest && n <= |all| && n' <= |rest| && all[n..] == [p] + rest[n'..]
    requires ReadsFrom(rest, n', r) && ComesToNothing(all, |dead|) && Total(dropped) == Sizes(dead)
    ensures ReadsFrom(all, n, Reported(p.reports + dropped, r))
  {
    var i :| ReadsAs(rest, r.record, i) && Accounts(rest, n', i, r.reports);
    LaterReads(dead, rest, all, n, n', i, p, dropped, r);
  }

  lemma LaterReads(dead: seq<Physical>, rest: seq<Physical>, all: seq<Physical>, n: nat, n': nat, i: nat, p: Physical,
                   dropped: seq<nat>, r: Logical)
    requires all == dead + rest && n <= |all| && n' <= |rest| && all[n..] == [p] + rest[n'..]
    requires ReadsAs(rest, r.record, i) && Accounts(rest, n', i, r.reports)
    requires ComesToNothing(all, |dead|) && Total(dropped) == Sizes(dead)
    ensures ReadsAs(all, r.record, |dead| + i) && Accounts(all, n, |dead| + i, p.reports + dropped + r.reports)
  {
    BehindNothing(dead, rest, r.record, i);
    AccountsMore(dead, rest, n, n', i, p.reports + dropped, p, dropped, r.reports);
  }

  function EndOf(r: Logical, size: nat): nat {
    if r.record.Some? then r.next else size + 1
  }

  /** A fragment that ends the call. */
  lemma DoneReads(open: seq<Physical>, p: Physical, t: Turn)
    requires Begun(open) && t == Collect(p.kind, p.payload, Scratch(open)) && t.done
    ensures Reads(open, [p], Logical(t.record, p.next, p.reports + t.dropped))
  {
    var r := Logical(t.record, p.next, p.reports + t.dropped);
    if p.kind == FULL {
      assert open == [] ==> Payloads(open) == [];
      FullRead(open, p, r);
    } else if p.kind == EOF {
      EndRead(open, p, r);
    } else {
      LastRead(open, p, r);
    }
  }

  /** What is begun after a fragment that does not end the call. */
  function NowOpen(open: seq<Physical>, p: Physical): seq<Physical> {
    if p.kind == FIRST then [p] else if p.kind == MIDDLE && open != [] then open + [p] else []
  }

  lemma NowBegun(open: seq<Physical>, p: Physical, t: Turn)
    requires Begun(open) && t == Collect(p.kind, p.payload, Scratch(open)) && !t.done
    ensures Begun(NowOpen(open, p)) && t.scratch == Scratch(NowOpen(open, p))
  {
    OneAlone(p);
    OneMore(open, p);
  }

  lemma GoesOn(open: seq<Physical>, p: Physical, t: Turn, fs: seq<Physical>, r: Logical)
    requires Begun(open) && t == Collect(p.kind, p.payload, Scratch(open)) && !t.done && fs != []
    requires Reads(NowOpen(open, p), fs, r)
    ensures Reads(open, [p] + fs, Reported(p.reports + t.dropped, r))
  {
    if p.kind == FIRST {
      FirstGoesOn(open, p, t, fs, r);
    } else if p.kind == MIDDLE && open != [] {
      MiddleGoesOn(open, p, t, fs, r);
    } else {
      NoneGoesOn(open, p, t, fs, r);
    }
  }

  lemma FirstGoesOn(open: seq<Physical>, p: Physical, t: Turn, fs: seq<Physical>, r: Logical)
    requires Begun(open) && t == Collect(p.kind, p.payload, Scratch(open)) && p.kind == FIRST && fs != []
    requires Reads([p], fs, r)
    ensures Reads(open, [p] + fs, Reported(p.reports + t.dropped, r))
  {
    BegunSizes(open);
    BrokenOff(open, [p] + fs);
    TotalOf([], |Payloads(open)|);
    MoreRead(open, p, [p], open, fs, t.dropped, r);
  }

  lemma MiddleGoesOn(open: seq<Physical>, p: Physical, t: Turn, fs: seq<Physical>, r: Logical)
    requires Begun(open) && t == Collect(p.kind, p.payload, Scratch(open)) && p.kind == MIDDLE && open != []
    requires Reads(open + [p], fs, r)
    ensures Reads(open, [p] + fs, Reported(p.reports + t.dropped, r))
  {
    NothingDead(open, [p] + fs);
    assert [] + (open + [p]) == open + [p];
    MoreRead(open, p, open + [p], [], fs, t.dropped, r);
  }

  lemma NoneGoesOn(open: seq<Physical>, p: Physical, t: Turn, fs: seq<Physical>, r: Logical)
    requires Begun(open) && t == Collect(p.kind, p.payload, Scratch(open)) && !t.done && NowOpen(open, p) == []
    requires Reads([], fs, r) && fs != []
    ensures Reads(open, [p] + fs, Reported(p.reports + t.dropped, r))
  {
    BrokenBy(open, p, fs);
    DroppedAll(open, p, t);
    var dead := open + [p];
    AllDead(dead);
    MoreRead(open, p, [], dead, fs, t.dropped, r);
  }

  lemma NothingDead(open: seq<Physical>, fs: seq<Physical>)
    ensures ComesToNothing(open + fs, 0)
  {
  }

  lemma AllDead(fs: seq<Physical>)
    ensures fs == fs + []
  {
  }

  lemma DroppedAll(open: seq<Physical>, p: Physical, t: Turn)
    requires Begun(open) && t == Collect(p.kind, p.payload, Scratch(open)) && !t.done && NowOpen(open, p) == []
    ensures Total(t.dropped) == Sizes(open + [p])
  {
    OneMore(open, p);
    BegunSizes(open);
    TotalOf([], |p.payload|);
    TotalOf([], |Payloads(open)|);
    TotalOf([], |p.payload| + |Payloads(open)|);
  }

  lemma LogicalStep(disk: Disk, size: nat, pos: nat, scratch: Optional<seq<Byte>>)
    requires pos <= size && Advances(disk, size)
    ensures var p, r := disk(pos), ReadLogical(disk, size, pos, scratch);
      var t := Collect(p.kind, p.payload, scratch);
      if t.done then
        && r == Logical(t.record, p.next, p.reports + t.dropped)
        && Fragments(disk, size, pos, EndOf(r, size)) == [p]
      else
        && p.next <= size
        && var more := ReadLogical(disk, size, p.next, t.scratch);
           r == Reported(p.reports + t.dropped, more)
           && Fragments(disk, size, pos, EndOf(r, size)) == [p] + Fragments(disk, size, p.next, EndOf(more, size))
  {
  }

  /**
   For every disk: `ReadRecord` returns the first record that is complete among the fragments it reads, and reports
   all payload in front of it; or the file ends, and all payload is reported but that of a record begun there.
  */
  lemma {:induction false} RecordLaw(disk: Disk, size: nat, pos: nat, open: seq<Physical>)
    requires pos <= size && Advances(disk, size) && Begun(open)
    ensures var r := ReadLogical(disk, size, pos, Scratch(open));
      Reads(open, Fragments(disk, size, pos, EndOf(r, size)), r)
    decreases size - pos
  {
    var p := disk(pos);
    var t := Collect(p.kind, p.payload, Scratch(open));
    LogicalStep(disk, size, pos, Scratch(open));
    if t.done {
      DoneReads(open, p, t);
    } else {
      NowBegun(open, p, t);
      RecordLaw(disk, size, p.next, NowOpen(open, p));
      var r := ReadLogical(disk, size, p.next, t.scratch);
      GoesOn(open, p, t, Fragments(disk, size, p.next, EndOf(r, size)), r);
    }
  }

  /** The same for a call of `ReadRecord`, with where the record begins. */
  lemma RecordOf(disk: Disk, size: nat, pos: nat) returns (i: nat)
    requires pos <= size && Advances(disk, size)
    ensures var r := ReadLogical(disk, size, pos, None);
      var fs := Fragments(disk, size, pos, EndOf(r, size));
      ReadsAs(fs, r.record, i) && i <= |fs| && Total(r.reports) == Damage(fs) + Sizes(fs[..i])
  {
    RecordLaw(disk, size, pos, []);
    var r := ReadLogical(disk, size, pos, None);
    var fs := Fragments(disk, size, pos, EndOf(r, size));
    assert [] + fs == fs && fs[0..] == fs;
    i :| ReadsAs(fs, r.record, i) && Accounts(fs, 0, i, r.reports);
  }
}
