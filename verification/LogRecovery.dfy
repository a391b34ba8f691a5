/**
 Recovery of a write-ahead log (`DBImpl::RecoverLogFile`, `db/db_impl.cc`): what is replayed from a log
 that was cut off by a crash, and that every batch of the writer queue is replayed whole or not at all.
*/
module LogRecovery {
  import opened Coding
  import opened WriteBatches
  import opened LogFormat
  import LogReader
  import GroupCommit
  import opened Sequences

  /** `mem` lists everything inserted, whether it was flushed to a table on the way or not. */
  datatype Recovered = Recovered(mem: seq<Numbered>, maxSequence: nat, reports: seq<nat>, ok: bool)

  /** `LogReporter`: with paranoid checks a report is an error. */
  function Report(r: Recovered, reports: seq<nat>, paranoid: bool): Recovered {
    r.(reports := r.reports + reports, ok := r.ok && !(paranoid && reports != []))
  }

  /** The last sequence number of a batch as `uint64_t` arithmetic gives it. */
  function LastNumber(sequence: nat, count: nat): nat {
    (sequence + count + TWO_64 - 1) % TWO_64
  }

  function LastOf(rep: seq<Byte>): nat
    requires |rep| >= HEADER
  {
    LastNumber(SequenceOf(rep), CountOf(rep))
  }

  /** One turn of the loop. */
  function ReplayRecord(rep: seq<Byte>, r: Recovered, paranoid: bool): Recovered {
    if |rep| < HEADER then Report(r, [|rep|], paranoid)
    else
      var mem := r.mem + NumberFrom(SequenceOf(rep), GetOps(rep[HEADER..]).ops);
      if StatusOf(rep).Corruption? && paranoid then r.(mem := mem, ok := false)
      else r.(mem := mem, maxSequence := if LastOf(rep) > r.maxSequence then LastOf(rep) else r.maxSequence)
  }

  /** The whole loop, from position `pos` of the log on. */
  ghost function Replay(disk: LogReader.Disk, size: nat, pos: nat, r: Recovered, paranoid: bool): Recovered
    requires pos <= size && LogReader.Advances(disk, size)
    decreases size - pos
  {
    var l := LogReader.ReadLogical(disk, size, pos, None);
    var r1 := Report(r, l.reports, paranoid);
    if l.record.None? || !r1.ok then r1
    else Replay(disk, size, l.next, ReplayRecord(l.record.value, r1, paranoid), paranoid)
  }

  /** `RecoverLogFile`. */
  method RecoverLogFile(reader: LogReader.Reader, ghost disk: LogReader.Disk, maxSequence: nat, paranoid: bool)
    returns (r: Recovered)
    requires reader.Ok() && reader.reports == []
    requires LogReader.Serves(disk, reader.crc, reader.file) && LogReader.Advances(disk, |reader.file|)
    modifies reader
    ensures r == Replay(disk, |reader.file|, old(reader.Pos()), Recovered([], maxSequence, [], true), paranoid)
  {
    var batch := new WriteBatch();
    r := Recovered([], maxSequence, [], true);
    ghost var whole := Replay(disk, |reader.file|, reader.Pos(), r, paranoid);
    var known := |reader.reports|;
    while true
      invariant reader.Ok() && known == |reader.reports|
      invariant Replay(disk, |reader.file|, reader.Pos(), r, paranoid) == whole
      decreases |reader.file| - reader.Pos()
    {
      var ok, record := reader.ReadRecord(disk);
      r := Report(r, reader.reports[known..], paranoid);
      known := |reader.reports|;
      if !ok || !r.ok {
        return;
      }
      r := ReplayOne(batch, record, r, paranoid);
    }
  }

  /** The body of the loop: `SetContents` and `InsertInto`. */
  method ReplayOne(batch: WriteBatch, record: seq<Byte>, r0: Recovered, paranoid: bool) returns (r: Recovered)
    modifies batch
    ensures r == ReplayRecord(record, r0, paranoid)
  {
    if |record| < HEADER {
      return Report(r0, [|record|], paranoid);
    }
    batch.SetContents(record);
    var mem, status := batch.InsertInto(r0.mem);
    if !paranoid {
      status := OK;
    }
    if status == Corruption {
      return r0.(mem := mem, ok := false);
    }
    var last := LastNumber(SequenceOf(batch.rep), CountOf(batch.rep));
    r := r0.(mem := mem);
    if last > r.maxSequence {
      r := r.(maxSequence := last);
    }
  }

  // ---------- a log the writer queue wrote ----------

  type Group = GroupCommit.Record

  function RepOf(g: Group): seq<Byte> {
    Rep(g.first, g.ops)
  }

  function Reps(groups: seq<Group>): (s: seq<seq<Byte>>)
    ensures |s| == |groups|
  {
    seq(|groups|, i requires 0 <= i < |groups| => RepOf(groups[i]))
  }

  /** Sequence numbers start above 0 and stay in 64 bits. */
  ghost predicate InRange(g: Group) {
    0 < g.first && g.first + |g.ops| <= TWO_64 && AllFit(g.ops) && g.first < TWO_64
  }

  /** Everything that is in a list of groups. */
  function Entries(groups: seq<Group>): seq<Numbered> {
    if groups == [] then [] else NumberFrom(groups[0].first, groups[0].ops) + Entries(groups[1..])
  }

  function MaxOf(groups: seq<Group>, max: nat): nat {
    if groups == [] then max
    else
      var last := groups[0].first + |groups[0].ops| - 1;
      MaxOf(groups[1..], if last > max then last else max)
  }

  lemma LastOfGroup(g: Group)
    requires InRange(g)
    ensures LastOf(RepOf(g)) == g.first + |g.ops| - 1
  {
    IterateUndoes(g.first, g.ops);
    LastInRange(g.first, |g.ops|);
  }

  lemma LastInRange(sequence: nat, count: nat)
    requires 0 < sequence && sequence + count <= TWO_64
    ensures LastNumber(sequence, count) == sequence + count - 1
  {
    var n := sequence + count - 1;
    assert (n + TWO_64) % TWO_64 == n;
  }

  function Inserted(r: Recovered, g: Group): Recovered
    requires InRange(g)
  {
    var last := g.first + |g.ops| - 1;
    r.(mem := r.mem + NumberFrom(g.first, g.ops), maxSequence := if last > r.maxSequence then last else r.maxSequence)
  }

  lemma ReplayGroup(g: Group, rep: seq<Byte>, r: Recovered, paranoid: bool)
    requires InRange(g) && rep == RepOf(g)
    ensures ReplayRecord(rep, r, paranoid) == Inserted(r, g)
  {
    IterateUndoes(g.first, g.ops);
    LastOfGroup(g);
  }

  lemma ReplayFirst(disk: LogReader.Disk, size: nat, pos: nat, rep: seq<Byte>, next: nat, r: Recovered, paranoid: bool)
    requires pos < next <= size && LogReader.Advances(disk, size) && r.ok
    requires LogReader.ReadLogical(disk, size, pos, None) == LogReader.Logical(Some(rep), next, [])
    ensures Replay(disk, size, pos, r, paranoid) == Replay(disk, size, next, ReplayRecord(rep, r, paranoid), paranoid)
  {
    NothingReported(r, paranoid);
  }

  lemma NothingReported(r: Recovered, paranoid: bool)
    ensures Report(r, [], paranoid) == r
  {
    assert r.reports + [] == r.reports;
  }

  lemma ReadAllFirst(disk: LogReader.Disk, size: nat, pos: nat, rep: seq<Byte>, rest: seq<seq<Byte>>)
    requires pos <= size && LogReader.Advances(disk, size)
    requires LogReader.ReadAll(disk, size, pos) == ([rep] + rest, [])
    ensures var l := LogReader.ReadLogical(disk, size, pos, None);
      l == LogReader.Logical(Some(rep), l.next, []) && pos < l.next <= size
      && LogReader.ReadAll(disk, size, l.next) == (rest, [])
  {
    var l := LogReader.ReadLogical(disk, size, pos, None);
    var later := LogReader.ReadAll(disk, size, l.next);
    assert ([rep] + rest)[1..] == rest && ([l.record.value] + later.0)[1..] == later.0;
  }

  /** Replaying records that are those of some groups inserts the groups. */
  lemma {:induction false} ReplayGroups(disk: LogReader.Disk, size: nat, pos: nat, groups: seq<Group>, r: Recovered,
                                        paranoid: bool)
    requires pos <= size && LogReader.Advances(disk, size) && r.ok
    requires LogReader.ReadAll(disk, size, pos) == (Reps(groups), []) && forall g | g in groups :: InRange(g)
    ensures Replay(disk, size, pos, r, paranoid)
         == r.(mem := r.mem + Entries(groups), maxSequence := MaxOf(groups, r.maxSequence))
    decreases |groups|
  {
    if groups == [] {
      ReplayNothing(disk, size, pos, r, paranoid);
    } else {
      var g, rep := groups[0], RepOf(groups[0]);
      assert Reps(groups) == [rep] + Reps(groups[1..]);
      ReadAllFirst(disk, size, pos, rep, Reps(groups[1..]));
      var next := LogReader.ReadLogical(disk, size, pos, None).next;
      ReplayFirst(disk, size, pos, rep, next, r, paranoid);
      ReplayGroup(g, rep, r, paranoid);
      ReplayGroups(disk, size, next, groups[1..], Inserted(r, g), paranoid);
      Regroup3(r.mem, NumberFrom(g.first, g.ops), Entries(groups[1..]));
    }
  }

  lemma ReplayNothing(disk: LogReader.Disk, size: nat, pos: nat, r: Recovered, paranoid: bool)
    requires pos <= size && LogReader.Advances(disk, size) && LogReader.ReadAll(disk, size, pos) == ([], [])
    ensures Replay(disk, size, pos, r, paranoid) == r.(mem := r.mem + [])
  {
    NothingReported(r, paranoid);
    assert r.mem + [] == r.mem;
  }

  /**
   Recovery after a crash: from the log of some groups, cut off at any byte, exactly the groups whose
   records are complete are replayed, in order and without a report.
  */
  lemma CrashRecovery(crc: Checksum, groups: seq<Group>, size: nat, max: nat, paranoid: bool)
    requires (forall g | g in groups :: InRange(g)) && size <= |FileOf(crc, 0, Reps(groups))|
    ensures var file := FileOf(crc, 0, Reps(groups))[..size];
      var k := LogReader.Complete(0, Reps(groups), size);
      && LogReader.Advances(LogReader.DiskOf(crc, file), size)
      && Replay(LogReader.DiskOf(crc, file), size, 0, Recovered([], max, [], true), paranoid)
         == Recovered(Entries(groups[..k]), MaxOf(groups[..k], max), [], true)
  {
    var disk := LogReader.DiskOf(crc, FileOf(crc, 0, Reps(groups))[..size]);
    var k := LogReader.Complete(0, Reps(groups), size);
    LogReader.CrashRoundTrip(crc, Reps(groups), size);
    assert Reps(groups)[..k] == Reps(groups[..k]);
    ReplayGroups(disk, size, 0, groups[..k], Recovered([], max, [], true), paranoid);
    assert [] + Entries(groups[..k]) == Entries(groups[..k]);
  }

  // ---------- any log ----------

  /** The updates in a record: none in one too short for a header, else those up to the first that is malformed. */
  function UpdatesOf(rep: seq<Byte>): seq<Numbered> {
    if |rep| < HEADER then [] else NumberFrom(SequenceOf(rep), GetOps(rep[HEADER..]).ops)
  }

  function AllUpdates(records: seq<seq<Byte>>): seq<Numbered> {
    if records == [] then [] else UpdatesOf(records[0]) + AllUpdates(records[1..])
  }

  /** A record that is too short, or that does not hold the updates it counts. */
  predicate Damaged(rep: seq<Byte>) {
    |rep| < HEADER || StatusOf(rep).Corruption?
  }

  function Sum(reports: seq<nat>): nat {
    if reports == [] then 0 else reports[0] + Sum(reports[1..])
  }

  lemma {:induction false} SumAppend(a: seq<nat>, b: seq<nat>)
    ensures Sum(a + b) == Sum(a) + Sum(b)
  {
    if a == [] {
      assert a + b == b;
    } else {
      assert (a + b)[1..] == a[1..] + b;
      SumAppend(a[1..], b);
    }
  }

  /** Bytes of records too short for a header. */
  function ShortBytes(records: seq<seq<Byte>>): nat {
    if records == [] then 0 else (if |records[0]| < HEADER then |records[0]| else 0) + ShortBytes(records[1..])
  }

  /** The largest last number of the records that have one, or `max`. */
  ghost predicate IsMax(records: seq<seq<Byte>>, max: nat, n: nat) {
    && n >= max && (forall rep | rep in records && |rep| >= HEADER :: LastOf(rep) <= n)
    && (n == max || exists rep :: rep in records && |rep| >= HEADER && LastOf(rep) == n)
  }

  lemma MaxMore(rep: seq<Byte>, rest: seq<seq<Byte>>, max: nat, n: nat)
    requires IsMax(rest, if |rep| >= HEADER && LastOf(rep) > max then LastOf(rep) else max, n)
    ensures IsMax([rep] + rest, max, n)
  {
    var records := [rep] + rest;
    assert records[0] == rep && rep in records;
  }

  /** Everything that all records hold was inserted, and every byte that was not is reported. */
  ghost predicate AllReplayed(records: seq<seq<Byte>>, reports: seq<nat>, r: Recovered, r': Recovered) {
    && r'.mem == r.mem + AllUpdates(records) && IsMax(records, r.maxSequence, r'.maxSequence)
    && Sum(r'.reports) == Sum(r.reports) + Sum(reports) + ShortBytes(records)
  }

  lemma OneReplayed(rep: seq<Byte>, rest: seq<seq<Byte>>, first: seq<nat>, later: seq<nat>, r: Recovered, r': Recovered,
                    paranoid: bool)
    requires var r1 := Report(r, first, paranoid);
      AllReplayed(rest, later, ReplayRecord(rep, r1, paranoid), r') && (paranoid ==> !Damaged(rep))
    ensures AllReplayed([rep] + rest, first + later, r, r')
  {
    var r1 := Report(r, first, paranoid);
    var records := [rep] + rest;
    assert records[0] == rep && records[1..] == rest;
    Regroup3(r.mem, UpdatesOf(rep), AllUpdates(rest));
    if |rep| < HEADER {
      SumAppend(r1.reports, [|rep|]);
      assert [|rep|][1..] == [] && r.mem + [] == r.mem;
    }
    SumAppend(r.reports, first);
    SumAppend(first, later);
    MaxMore(rep, rest, r.maxSequence, r'.maxSequence);
  }

  /** Without paranoid checks recovery succeeds with everything that can be read, whatever the file. */
  lemma {:induction false} TolerantReplay(disk: LogReader.Disk, size: nat, pos: nat, r: Recovered)
    requires pos <= size && LogReader.Advances(disk, size) && r.ok
    ensures var all, r' := LogReader.ReadAll(disk, size, pos), Replay(disk, size, pos, r, false);
      r'.ok && AllReplayed(all.0, all.1, r, r')
    decreases size - pos
  {
    var l := LogReader.ReadLogical(disk, size, pos, None);
    var r1, r' := Report(r, l.reports, false), Replay(disk, size, pos, r, false);
    if l.record.None? {
      SumAppend(r.reports, l.reports);
      assert r.mem + [] == r.mem;
    } else {
      var later := LogReader.ReadAll(disk, size, l.next);
      TolerantReplay(disk, size, l.next, ReplayRecord(l.record.value, r1, false));
      OneReplayed(l.record.value, later.0, l.reports, later.1, r, r', false);
    }
  }

  /** Nothing was reported, and no record is damaged. */
  ghost predicate Clean(records: seq<seq<Byte>>, reports: seq<nat>) {
    reports == [] && forall rep | rep in records :: !Damaged(rep)
  }

  /** With paranoid checks recovery succeeds if and only if there is nothing to report and no record is damaged. */
  lemma {:induction false} ParanoidReplay(disk: LogReader.Disk, size: nat, pos: nat, r: Recovered)
    requires pos <= size && LogReader.Advances(disk, size) && r.ok
    ensures var all, r' := LogReader.ReadAll(disk, size, pos), Replay(disk, size, pos, r, true);
      && (r'.ok <==> Clean(all.0, all.1)) && (r'.ok ==> AllReplayed(all.0, all.1, r, r'))
    decreases size - pos
  {
    var l := LogReader.ReadLogical(disk, size, pos, None);
    var r1, r' := Report(r, l.reports, true), Replay(disk, size, pos, r, true);
    if l.record.None? {
      SumAppend(r.reports, l.reports);
      assert r.mem + [] == r.mem;
    } else {
      var rep, later := l.record.value, LogReader.ReadAll(disk, size, l.next);
      CleanFirst(rep, later.0, l.reports, later.1);
      if r1.ok {
        var r2 := ReplayRecord(rep, r1, true);
        if Damaged(rep) {
          StopsAt(disk, size, l.next, r2);
        } else {
          ParanoidReplay(disk, size, l.next, r2);
          if r'.ok {
            OneReplayed(rep, later.0, l.reports, later.1, r, r', true);
          }
        }
      }
    }
  }

  lemma CleanFirst(rep: seq<Byte>, rest: seq<seq<Byte>>, first: seq<nat>, later: seq<nat>)
    ensures Clean([rep] + rest, first + later) <==> first == [] && !Damaged(rep) && Clean(rest, later)
  {
    var records := [rep] + rest;
    assert records[0] == rep && forall x :: x in records <==> x == rep || x in rest;
  }

  /** After an error nothing succeeds. */
  lemma StopsAt(disk: LogReader.Disk, size: nat, pos: nat, r: Recovered)
    requires pos <= size && LogReader.Advances(disk, size) && !r.ok
    ensures !Replay(disk, size, pos, r, true).ok
  {
  }

  // ---------- batches in a recovered log ----------

  /** The records of log file `f`. */
  function FileRecords(log: seq<Group>, f: nat): seq<Group> {
    if log == [] then []
    else FileRecords(log[..|log| - 1], f) + if log[|log| - 1].file == f then [log[|log| - 1]] else []
  }

  lemma {:induction false} FileRecordsFrom(log: seq<Group>, f: nat, g: Group) returns (i: nat)
    requires g in FileRecords(log, f)
    ensures i < |log| && log[i] == g
    decreases |log|
  {
    if g == log[|log| - 1] {
      i := |log| - 1;
    } else {
      i := FileRecordsFrom(log[..|log| - 1], f, g);
    }
  }

  lemma {:induction false} EntriesHave(groups: seq<Group>, g: Group, x: Numbered)
    requires g in groups && x in NumberFrom(g.first, g.ops)
    ensures x in Entries(groups)
    decreases |groups|
  {
    if g != groups[0] {
      EntriesHave(groups[1..], g, x);
    }
  }

  lemma {:induction false} EntriesFrom(groups: seq<Group>, x: Numbered) returns (g: Group)
    requires x in Entries(groups)
    ensures g in groups && g.first <= x.sequence < GroupCommit.RecordEnd(g)
    decreases |groups|
  {
    if x in NumberFrom(groups[0].first, groups[0].ops) {
      g := groups[0];
    } else {
      g := EntriesFrom(groups[1..], x);
    }
  }

  lemma EffectInRecord(g: Group, s: GroupCommit.Served, x: Numbered)
    requires GroupCommit.Covers(g, s) && x in GroupCommit.Effect(s)
    ensures x in NumberFrom(g.first, g.ops) && s.first <= x.sequence
  {
    var ops := GroupCommit.OpsOf(s.w);
    var i := x.sequence - s.first;
    assert x == NumberFrom(s.first, ops)[i];
    assert g.ops[s.first - g.first..s.first - g.first + |ops|][i] == ops[i];
    assert NumberFrom(g.first, g.ops)[s.first - g.first + i] == x;
  }

  /** What is replayed has all of these updates, or none of their sequence numbers. */
  ghost predicate WholeOrAbsent(effect: seq<Numbered>, replayed: seq<Numbered>) {
    || (forall x | x in effect :: x in replayed)
    || (forall x, y | x in effect && y in replayed :: x.sequence != y.sequence)
  }

  /**
   Atomic batches across a crash: whatever the writers did, of a log file `f` cut off after `k` records
   the updates of every committed call are replayed all together or not at all.
  */
  lemma BatchWholeOrAbsent(st: GroupCommit.State, n: nat, f: nat, k: nat)
    requires GroupCommit.Inv(st) && n < |st.served| && st.served[n].outcome.Committed?
    requires k <= |FileRecords(st.log, f)|
    ensures WholeOrAbsent(GroupCommit.Effect(st.served[n]), Entries(FileRecords(st.log, f)[..k]))
  {
    var s := st.served[n];
    assert GroupCommit.Recorded(st.log, st.durable, s);
    RecordWholeOrAbsent(st.log, s, f, k);
  }

  /** How many records of log file `f` come before record `n` of the log. */
  function RankIn(log: seq<Group>, f: nat, n: nat): nat
    requires n <= |log|
  {
    |FileRecords(log[..n], f)|
  }

  lemma {:induction false} RankedRecord(log: seq<Group>, f: nat, n: nat)
    requires n < |log| && log[n].file == f
    ensures RankIn(log, f, n) < |FileRecords(log, f)| && FileRecords(log, f)[RankIn(log, f, n)] == log[n]
    decreases |log|
  {
    var before := log[..|log| - 1];
    if n == |log| - 1 {
      assert log[..n] == before;
    } else {
      RankedRecord(before, f, n);
      assert before[..n] == log[..n];
    }
  }

  /** The first `k` records of log file `f` have every durable record of that file. */
  ghost predicate KeepsDurable(log: seq<Group>, durable: set<nat>, f: nat, k: nat) {
    forall d {:trigger d in durable} | d in durable && d < |log| && log[d].file == f :: RankIn(log, f, d) < k
  }

  /**
   Durability: a call with `sync` that was committed is replayed in full from its log file `f`,
   wherever after the durable records the file was cut off.
  */
  lemma SyncedIsReplayed(st: GroupCommit.State, n: nat, f: nat, k: nat)
    requires GroupCommit.Inv(st) && n < |st.served|
    requires st.served[n].outcome.Committed? && st.served[n].w.sync
    requires st.served[n].record < |st.log| ==> st.log[st.served[n].record].file == f
    requires k <= |FileRecords(st.log, f)| && KeepsDurable(st.log, st.durable, f, k)
    ensures forall x | x in GroupCommit.Effect(st.served[n]) :: x in Entries(FileRecords(st.log, f)[..k])
  {
    var s := st.served[n];
    assert GroupCommit.Recorded(st.log, st.durable, s);
    RankedRecord(st.log, f, s.record);
    assert s.record in st.durable;
    var recs := FileRecords(st.log, f)[..k];
    assert recs[RankIn(st.log, f, s.record)] == st.log[s.record];
    forall x | x in GroupCommit.Effect(s) ensures x in Entries(recs) {
      EffectInRecord(st.log[s.record], s, x);
      EntriesHave(recs, st.log[s.record], x);
    }
  }

  lemma RecordWholeOrAbsent(log: seq<Group>, s: GroupCommit.Served, f: nat, k: nat)
    requires s.record < |log| && GroupCommit.Covers(log[s.record], s)
    requires k <= |FileRecords(log, f)| && GroupCommit.LogIncreases(log)
    ensures WholeOrAbsent(GroupCommit.Effect(s), Entries(FileRecords(log, f)[..k]))
  {
    var g, recs := log[s.record], FileRecords(log, f)[..k];
    if g in recs {
      forall x | x in GroupCommit.Effect(s) ensures x in Entries(recs) {
        EffectInRecord(g, s, x);
        EntriesHave(recs, g, x);
      }
    } else {
      forall x, y | x in GroupCommit.Effect(s) && y in Entries(recs) ensures x.sequence != y.sequence {
        EffectInRecord(g, s, x);
        var h := EntriesFrom(recs, y);
        var i := FileRecordsFrom(log, f, h);
        if i < s.record {
          assert GroupCommit.EndsBefore(log[i], log[s.record]);
        } else {
          assert GroupCommit.EndsBefore(log[s.record], log[i]);
        }
      }
    }
  }
}
