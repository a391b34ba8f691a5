/**
 Merge compaction (`DBImpl::DoCompactionWork`, `Compaction::IsBaseLevelForKey` and
 `ShouldStopBefore`): which entries of the merged inputs survive, and how they are cut into files.
*/
module Compactions {
  import opened InternalKeys
  import opened FlatMap
  import opened Runs
  import opened Versions
  import opened InputSelection
  import opened OutputFiles

  /** No file below `level + 1` has `u` in its range. */
  predicate BaseLevel(v: Version, level: nat, u: UserKey)
    requires |v| == NUM_LEVELS
  {
    forall l, f | level + 2 <= l < NUM_LEVELS && f in v[l] :: !SpansUser(f, u)
  }

  ghost function BaseAt(v: Version, level: nat): UserKey -> bool
    requires |v| == NUM_LEVELS
  {
    u => BaseLevel(v, level, u)
  }

  /** What `ShouldStopBefore` remembers of the first `n` merged keys. */
  predicate StopState(c: Cutting, n: nat, grandparentIndex: nat, seenKey: bool, overlappedBytes: int)
    requires n <= |c.merged|
  {
    && (seenKey <==> n > 0)
    && grandparentIndex == (if n == 0 then 0 else Leading(c.grandparents, c.merged[n - 1].key))
    && overlappedBytes == if n == 0 || Stops(c, n - 1) then 0 else Overlap(c, n - 1)
  }

  /** The state of a compaction that its loop asks: what is below a key, and when to stop. */
  class Compaction {
    const level: nat
    const input: Version
    const grandparents: seq<File>
    const sizes: TableSizes
    const levelPtrs: array<nat>
    ghost var asked: Bound
    var grandparentIndex: nat
    var seenKey: bool
    var overlappedBytes: int

    /** The cursors have passed only files that end before every key still to be asked about. */
    ghost predicate Valid()
      reads `asked, levelPtrs
    {
      && LevelsOk(input) && level + 1 < NUM_LEVELS
      && levelPtrs.Length == NUM_LEVELS
      && forall l | level + 2 <= l < NUM_LEVELS ::
           && levelPtrs[l] <= |input[l]|
           && forall i | 0 <= i < levelPtrs[l] :: asked.At? && input[l][i].largest.user < asked.user
    }

    /** `ShouldStopBefore` has been asked about the first `n` merged keys. */
    ghost predicate Seen(c: Cutting, n: nat)
      requires n <= |c.merged|
      reads `grandparentIndex, `seenKey, `overlappedBytes
    {
      c.grandparents == grandparents && c.sizes == sizes
      && StopState(c, n, grandparentIndex, seenKey, overlappedBytes)
    }

    /** Ready for merged entry `n`. */
    ghost predicate Ready(c: Cutting, n: nat)
      requires n <= |c.merged|
      reads this, levelPtrs
    {
      Valid() && MayAsk(asked, c.merged, n) && Seen(c, n)
    }

    constructor (level: nat, input: Version, grandparents: seq<File>, sizes: TableSizes)
      requires LevelsOk(input) && level + 1 < NUM_LEVELS
      ensures Valid() && this.level == level && this.input == input
      ensures this.grandparents == grandparents && this.sizes == sizes
      ensures asked == Unbounded && grandparentIndex == 0 && !seenKey && overlappedBytes == 0 && fresh(levelPtrs)
    {
      this.level, this.input, this.grandparents, this.sizes := level, input, grandparents, sizes;
      asked := Unbounded;
      grandparentIndex, seenKey, overlappedBytes := 0, false, 0;
      levelPtrs := new nat[NUM_LEVELS](_ => 0);
    }

    /** `IsBaseLevelForKey`: cursors only move forward, so keys must be asked in order. */
    method IsBaseLevelForKey(u: UserKey) returns (base: bool)
      requires Valid() && StartsBefore(asked, u)
      modifies `asked, levelPtrs
      ensures Valid() && asked == At(u)
      ensures base <==> BaseLevel(input, level, u)
    {
      asked := At(u);
      for l := level + 2 to NUM_LEVELS
        invariant Valid() && asked == At(u)
        invariant forall m, f | level + 2 <= m < l && f in input[m] :: !SpansUser(f, u)
      {
        SortedByUser(input[l]);
        while levelPtrs[l] < |input[l]|
          invariant Valid() && asked == At(u)
          decreases |input[l]| - levelPtrs[l]
        {
          var f := input[l][levelPtrs[l]];
          if u <= f.largest.user {
            if u >= f.smallest.user {
              assert f in input[l] && SpansUser(f, u);
              return false;
            }
            break;
          }
          levelPtrs[l] := levelPtrs[l] + 1;
        }
        NoneSpans(input[l], levelPtrs[l], u);
      }
      base := true;
    }

    /** `ShouldStopBefore`, asked about merged key `n` after all keys before it. */
    method ShouldStopBefore(key: InternalKey, ghost c: Cutting, ghost n: nat) returns (stop: bool)
      requires n < |c.merged| && key == c.merged[n].key && Sorted(c.merged) && Seen(c, n)
      modifies `grandparentIndex, `seenKey, `overlappedBytes
      ensures Seen(c, n + 1) && (stop <==> Stops(c, n))
    {
      if n > 0 {
        LeadingGrows(grandparents, c.merged[n - 1].key, key);
      }
      ghost var before, bytes := grandparentIndex, overlappedBytes;
      while grandparentIndex < |grandparents| && Compare(key, grandparents[grandparentIndex].largest) > 0
        invariant (seenKey <==> n > 0) && before <= grandparentIndex <= Leading(grandparents, key)
        invariant overlappedBytes == bytes +
          if seenKey then BytesUpTo(grandparents, grandparentIndex) - BytesUpTo(grandparents, before) else 0
        decreases |grandparents| - grandparentIndex
      {
        CompareIsOrder(key, grandparents[grandparentIndex].largest);
        if seenKey {
          overlappedBytes := overlappedBytes + grandparents[grandparentIndex].size;
        }
        grandparentIndex := grandparentIndex + 1;
      }
      if grandparentIndex < |grandparents| {
        CompareIsOrder(key, grandparents[grandparentIndex].largest);
      }
      assert grandparentIndex == Leading(grandparents, key);
      assert overlappedBytes == Overlap(c, n);
      seenKey := true;
      stop := overlappedBytes > MaxGrandParentOverlapBytes(sizes.maxFileSize);
      if stop {
        overlappedBytes := 0;
      }
    }
  }

  lemma NoneSpans(fs: seq<File>, n: nat, u: UserKey)
    requires UserSorted(fs) && n <= |fs|
    requires forall i | 0 <= i < n :: fs[i].largest.user < u
    requires n < |fs| ==> u < fs[n].smallest.user
    ensures forall f | f in fs :: !SpansUser(f, u)
  {
    forall f | f in fs ensures !SpansUser(f, u) {
      var i :| 0 <= i < |fs| && fs[i] == f;
      assert i > n ==> fs[n].smallest.user <= fs[n].largest.user <= fs[i].smallest.user;
    }
  }

  // ---------- the drop loop ----------

  /** In merged order, only the entry just before can tell that an entry is shadowed. */
  lemma ShadowedByPrevious(merged: seq<Entry>, snap: nat, i: nat)
    requires Sorted(merged) && UniqueSequences(Elements(merged)) && i < |merged|
    ensures Shadowed(Elements(merged), snap, merged[i]) <==>
      && i > 0 && merged[i - 1].key.user == merged[i].key.user && merged[i - 1].key.sequence <= snap
  {
    var e := merged[i];
    if i > 0 {
      assert merged[i - 1] in Elements(merged) && e in Elements(merged);
      assert Before(merged[i - 1].key, e.key);
      assert SameSequence(merged[i - 1], e) ==> merged[i - 1] == e;
    }
    if x :| x in Elements(merged) && x.key.user == e.key.user && e.key.sequence < x.key.sequence <= snap {
      var j :| 0 <= j < |merged| && merged[j] == x;
      assert j < i by {
        assert i < j ==> Before(e.key, x.key);
      }
      assert j < i - 1 ==> Before(x.key, merged[i - 1].key);
    }
  }

  /** What has been kept of the first `n` merged entries. */
  ghost function KeptSoFar(merged: seq<Entry>, base: UserKey -> bool, snap: nat, n: nat): set<Entry>
    requires n <= |merged|
  {
    set e | e in merged[..n] && !Dropped(Elements(merged), base, snap, e)
  }

  /** Finished outputs and the file being built, in key order and before everything to come. */
  ghost predicate OutputsOk(outs: seq<File>, building: seq<Entry>, firstNumber: nat) {
    && FilesOk(outs) && SortedLevel(outs) && Sorted(building)
    && (forall k | 0 <= k < |outs| :: outs[k].number == firstNumber + k)
    && (building != [] ==> forall k | 0 <= k < |outs| :: Before(outs[k].largest, building[0].key))
    && (forall i | 0 <= i < |building| :: building[i].key.sequence <= MAX_SEQUENCE)
  }

  ghost predicate AllBefore(outs: seq<File>, building: seq<Entry>, k: InternalKey) {
    && (forall i | 0 <= i < |outs| :: Before(outs[i].largest, k))
    && (forall i | 0 <= i < |building| :: Before(building[i].key, k))
  }

  /** The outputs so far are before every merged entry from `n` on. */
  ghost predicate AllAhead(merged: seq<Entry>, n: nat, outs: seq<File>, building: seq<Entry>) {
    forall j | n <= j < |merged| :: AllBefore(outs, building, merged[j].key)
  }

  lemma FewerAhead(merged: seq<Entry>, n: nat, outs: seq<File>, building: seq<Entry>)
    requires AllAhead(merged, n, outs, building)
    ensures AllAhead(merged, n + 1, outs, building)
  {
  }

  lemma StillAhead(merged: seq<Entry>, n: nat, outs: seq<File>, building: seq<Entry>,
                   outs': seq<File>, building': seq<Entry>)
    requires AllAhead(merged, n, outs, building)
    requires forall k | AllBefore(outs, building, k) :: AllBefore(outs', building', k)
    ensures AllAhead(merged, n, outs', building')
  {
  }

  lemma AheadOfNext(merged: seq<Entry>, n: nat, outs: seq<File>, building: seq<Entry>)
    requires Sorted(merged) && n < |merged| && AllAhead(merged, n, outs, building)
    ensures AllAhead(merged, n + 1, outs, building + [merged[n]])
  {
    forall j | n < j < |merged| ensures AllBefore(outs, building + [merged[n]], merged[j].key) {
      assert AllBefore(outs, building, merged[j].key) && Before(merged[n].key, merged[j].key);
    }
  }

  /** Everything the loop knows about its outputs after `n` merged keys. */
  ghost predicate Progress(c: Cutting, outs: seq<File>, building: seq<Entry>, firstNumber: nat, n: nat)
    requires n <= |c.merged|
  {
    OutputsOk(outs, building, firstNumber) && CutsSoFar(c, outs, building, n)
  }

  /** `FinishCompactionOutputFile`. */
  method FinishOutput(outs: seq<File>, building: seq<Entry>, ghost firstNumber: nat, number: nat, sizes: TableSizes)
    returns (r: seq<File>, ghost f: File)
    requires OutputsOk(outs, building, firstNumber) && building != [] && number == firstNumber + |outs|
    ensures f.entries == building && f.size == sizes.finishedSize(building)
    ensures f.smallest == building[0].key && f.largest == building[|building| - 1].key
    ensures r == outs + [f] && OutputsOk(r, [], firstNumber)
    ensures Content(r) == Content(outs) + Elements(building)
    ensures forall k | AllBefore(outs, building, k) :: AllBefore(r, [], k)
  {
    var file := File(number, sizes.finishedSize(building), building[0].key, building[|building| - 1].key, building);
    r, f := outs + [file], file;
    assert f in r && forall g :: g in r <==> g in outs || g == f;
  }

  /** Closes the file being built, if there is one, before a key that says so. */
  method StopBefore(outs: seq<File>, building: seq<Entry>, ghost firstNumber: nat, number: nat, stop: bool,
                    sizes: TableSizes, ghost c: Cutting, ghost n: nat)
    returns (outs': seq<File>, building': seq<Entry>)
    requires n < |c.merged| && c.sizes == sizes && number == firstNumber + |outs|
    requires Progress(c, outs, building, firstNumber, n) && Open(c, building, n)
    requires (stop <==> Stops(c, n)) && AllAhead(c.merged, n, outs, building)
    ensures Progress(c, outs', building', firstNumber, n + 1) && Open(c, building', n + 1)
    ensures Content(outs') + Elements(building') == Content(outs) + Elements(building)
    ensures AllAhead(c.merged, n, outs', building')
  {
    outs', building' := outs, building;
    if stop && building != [] {
      ghost var f;
      assert AllBefore(outs, building, c.merged[n].key);
      outs', f := FinishOutput(outs, building, firstNumber, number, sizes);
      StillAhead(c.merged, n, outs, building, outs', []);
      CloseAtStop(c, outs, building, n, f);
      building' := [];
    } else {
      OneMoreKey(c, outs, building, n);
      if building != [] {
        NotStopped(c, building, n);
      }
    }
  }

  /** Adds merged entry `n` to the file being built, and closes that if it is big enough. */
  method AddEntry(outs: seq<File>, building: seq<Entry>, ghost firstNumber: nat, number: nat, e: Entry,
                  sizes: TableSizes, ghost c: Cutting, ghost n: nat)
    returns (outs': seq<File>, building': seq<Entry>)
    requires n < |c.merged| && c.sizes == sizes && number == firstNumber + |outs|
    requires Progress(c, outs, building, firstNumber, n + 1) && Open(c, building, n + 1)
    requires Sorted(c.merged) && e == c.merged[n] && e.key.sequence <= MAX_SEQUENCE
    requires AllAhead(c.merged, n, outs, building)
    ensures Progress(c, outs', building', firstNumber, n + 1) && Open(c, building', n + 1)
    ensures Content(outs') + Elements(building') == Content(outs) + Elements(building) + {e}
    ensures AllAhead(c.merged, n + 1, outs', building')
  {
    assert AllBefore(outs, building, e.key);
    GrowFile(c, outs, building, n);
    AheadOfNext(c.merged, n, outs, building);
    Append(outs, building, firstNumber, e);
    outs', building' := outs, building + [e];
    if sizes.fileSize(building') >= sizes.maxFileSize {
      ghost var f;
      ghost var full := building';
      outs', f := FinishOutput(outs, building', firstNumber, number, sizes);
      CloseAtLimit(c, outs, full, n + 1, f);
      StillAhead(c.merged, n + 1, outs, full, outs', []);
      building' := [];
    }
  }

  method AddUnless(drop: bool, outs: seq<File>, building: seq<Entry>, ghost firstNumber: nat, number: nat, e: Entry,
                   sizes: TableSizes, ghost c: Cutting, ghost n: nat)
    returns (outs': seq<File>, building': seq<Entry>)
    requires n < |c.merged| && c.sizes == sizes && number == firstNumber + |outs|
    requires Progress(c, outs, building, firstNumber, n + 1) && Open(c, building, n + 1)
    requires Sorted(c.merged) && e == c.merged[n] && e.key.sequence <= MAX_SEQUENCE
    requires AllAhead(c.merged, n, outs, building)
    ensures Progress(c, outs', building', firstNumber, n + 1) && Open(c, building', n + 1)
    ensures Content(outs') + Elements(building') == Content(outs) + Elements(building) + if drop then {} else {e}
    ensures AllAhead(c.merged, n + 1, outs', building')
  {
    if drop {
      outs', building' := outs, building;
      FewerAhead(c.merged, n, outs, building);
    } else {
      outs', building' := AddEntry(outs, building, firstNumber, number, e, sizes, c, n);
    }
  }

  /** Closes the last file. */
  method FinishLast(outs: seq<File>, building: seq<Entry>, ghost firstNumber: nat, number: nat,
                    ghost base: UserKey -> bool, ghost snap: nat, sizes: TableSizes, ghost c: Cutting)
    returns (outs': seq<File>)
    requires c.sizes == sizes && number == firstNumber + |outs|
    requires Progress(c, outs, building, firstNumber, |c.merged|) && Open(c, building, |c.merged|)
    requires Collected(c.merged, base, snap, |c.merged|, outs, building)
    ensures FilesOk(outs') && SortedLevel(outs') && CutsOk(c, outs')
    ensures forall k | 0 <= k < |outs'| :: outs'[k].number == firstNumber + k
    ensures Content(outs') == Kept(Elements(c.merged), base, snap)
  {
    AllSeen(c.merged, base, snap, outs, building);
    outs' := outs;
    if building != [] {
      ghost var f;
      outs', f := FinishOutput(outs, building, firstNumber, number, sizes);
      CloseFile(c, outs, building, |c.merged|, f);
    }
  }

  /** What the loop remembers of the entry before merged entry `n`. */
  predicate Remembers(merged: seq<Entry>, n: nat, hasCurrentUserKey: bool, currentUserKey: UserKey,
                      lastSequenceForKey: nat)
    requires n <= |merged|
  {
    && (hasCurrentUserKey <==> n > 0)
    && (n > 0 ==> merged[n - 1].key.user == currentUserKey && merged[n - 1].key.sequence == lastSequenceForKey)
  }

  predicate MayAsk(asked: Bound, merged: seq<Entry>, n: nat) {
    n < |merged| ==> StartsBefore(asked, merged[n].key.user)
  }

  lemma AskNext(asked: Bound, merged: seq<Entry>, n: nat)
    requires Sorted(merged) && n < |merged| && StartsBefore(asked, merged[n].key.user)
    ensures MayAsk(asked, merged, n + 1)
  {
    assert n + 1 < |merged| ==> Before(merged[n].key, merged[n + 1].key);
  }

  /** The decision for merged entry `n`, given the previous entry's key as the loop remembers it. */
  method DropDecision(c: Compaction, e: Entry, hasCurrentUserKey: bool, currentUserKey: UserKey,
                      lastSequenceForKey: nat, snap: nat, ghost merged: seq<Entry>, ghost n: nat)
    returns (drop: bool)
    requires c.Valid() && n < |merged| && e == merged[n] && StartsBefore(c.asked, e.key.user)
    requires Sorted(merged) && UniqueSequences(Elements(merged)) && snap < MAX_SEQUENCE
    requires Remembers(merged, n, hasCurrentUserKey, currentUserKey, lastSequenceForKey)
    modifies c`asked, c.levelPtrs
    ensures c.Valid() && MayAsk(c.asked, merged, n + 1)
    ensures drop <==> Dropped(Elements(merged), BaseAt(c.input, c.level), snap, e)
  {
    var last := lastSequenceForKey;
    if !hasCurrentUserKey || e.key.user != currentUserKey {
      last := MAX_SEQUENCE;
    }
    ShadowedByPrevious(merged, snap, n);
    assert last <= snap <==> Shadowed(Elements(merged), snap, e);
    drop := false;
    if last <= snap {
      drop := true;
    } else if e.key.kind.TypeDeletion? && e.key.sequence <= snap {
      drop := c.IsBaseLevelForKey(e.key.user);
    }
    AskNext(c.asked, merged, n);
  }

  /** The outputs hold what is kept of the first `n` merged entries. */
  ghost predicate Collected(merged: seq<Entry>, base: UserKey -> bool, snap: nat, n: nat,
                            outs: seq<File>, building: seq<Entry>)
    requires n <= |merged|
  {
    Content(outs) + Elements(building) == KeptSoFar(merged, base, snap, n)
  }

  lemma OneMore(merged: seq<Entry>, base: UserKey -> bool, snap: nat, i: nat, outs: seq<File>, building: seq<Entry>,
                outs': seq<File>, building': seq<Entry>)
    requires i < |merged| && Collected(merged, base, snap, i, outs, building)
    requires Content(outs') + Elements(building') == Content(outs) + Elements(building) +
      if Dropped(Elements(merged), base, snap, merged[i]) then {} else {merged[i]}
    ensures Collected(merged, base, snap, i + 1, outs', building')
  {
    assert merged[..i + 1] == merged[..i] + [merged[i]];
  }

  lemma AllSeen(merged: seq<Entry>, base: UserKey -> bool, snap: nat, outs: seq<File>, building: seq<Entry>)
    requires Collected(merged, base, snap, |merged|, outs, building)
    ensures Content(outs) + Elements(building) == Kept(Elements(merged), base, snap)
  {
    assert merged[..|merged|] == merged;
  }

  /** What holds of the loop's variables after `n` merged keys. */
  ghost predicate Going(c: Cutting, n: nat, outs: seq<File>, building: seq<Entry>, firstNumber: nat,
                        hasCurrentUserKey: bool, currentUserKey: UserKey, lastSequenceForKey: nat)
    requires n <= |c.merged|
  {
    && Progress(c, outs, building, firstNumber, n) && Open(c, building, n) && AllAhead(c.merged, n, outs, building)
    && Remembers(c.merged, n, hasCurrentUserKey, currentUserKey, lastSequenceForKey)
  }

  lemma NothingYet(c: Cutting, base: UserKey -> bool, snap: nat, firstNumber: nat, outs: seq<File>,
                   building: seq<Entry>, hasCurrentUserKey: bool, currentUserKey: UserKey, lastSequenceForKey: nat)
    requires outs == [] && building == [] && !hasCurrentUserKey
    ensures Going(c, 0, outs, building, firstNumber, hasCurrentUserKey, currentUserKey, lastSequenceForKey)
    ensures Collected(c.merged, base, snap, 0, outs, building)
  {
  }

  /** The body of the loop, for merged entry `n`. */
  method HandleEntry(c: Compaction, e: Entry, outs: seq<File>, building: seq<Entry>, firstNumber: nat,
                     hasCurrentUserKey: bool, currentUserKey: UserKey, lastSequenceForKey: nat, snap: nat,
                     ghost cutting: Cutting, ghost n: nat)
    returns (outs': seq<File>, building': seq<Entry>)
    requires n < |cutting.merged| && e == cutting.merged[n] && e.key.sequence <= MAX_SEQUENCE
    requires Sorted(cutting.merged) && UniqueSequences(Elements(cutting.merged)) && snap < MAX_SEQUENCE
    requires c.Ready(cutting, n)
    requires Going(cutting, n, outs, building, firstNumber, hasCurrentUserKey, currentUserKey, lastSequenceForKey)
    requires Collected(cutting.merged, BaseAt(c.input, c.level), snap, n, outs, building)
    modifies c, c.levelPtrs
    ensures c.Ready(cutting, n + 1)
    ensures Going(cutting, n + 1, outs', building', firstNumber, true, e.key.user, e.key.sequence)
    ensures Collected(cutting.merged, BaseAt(c.input, c.level), snap, n + 1, outs', building')
  {
    var stop := c.ShouldStopBefore(e.key, cutting, n);
    outs', building' := StopBefore(outs, building, firstNumber, firstNumber + |outs|, stop, c.sizes, cutting, n);
    var drop := DropDecision(c, e, hasCurrentUserKey, currentUserKey, lastSequenceForKey, snap, cutting.merged, n);
    outs', building' := AddUnless(drop, outs', building', firstNumber, firstNumber + |outs'|, e, c.sizes, cutting, n);
    OneMore(cutting.merged, BaseAt(c.input, c.level), snap, n, outs, building, outs', building');
  }

  /**
   `DoCompactionWork`: one pass over the merged inputs, dropping entries by rules (A) and (B), and
   cutting the others into files by the size limit and `ShouldStopBefore`.
  */
  method DoCompactionWork(c: Compaction, merged: seq<Entry>, snap: nat, nextFile: nat)
    returns (outs: seq<File>)
    requires c.Ready(Cutting(merged, c.grandparents, c.sizes), 0)
    requires Sorted(merged) && UniqueSequences(Elements(merged)) && snap < MAX_SEQUENCE
    requires forall i | 0 <= i < |merged| :: merged[i].key.sequence <= MAX_SEQUENCE
    modifies c, c.levelPtrs
    ensures FilesOk(outs) && SortedLevel(outs)
    ensures forall k | 0 <= k < |outs| :: outs[k].number == nextFile + k
    ensures Content(outs) == Kept(Elements(merged), BaseAt(c.input, c.level), snap)
    ensures CutsOk(Cutting(merged, c.grandparents, c.sizes), outs)
  {
    ghost var cutting := Cutting(merged, c.grandparents, c.sizes);
    outs := [];
    var building: seq<Entry> := [];
    var hasCurrentUserKey, currentUserKey, lastSequenceForKey := false, 0, MAX_SEQUENCE;
    NothingYet(cutting, BaseAt(c.input, c.level), snap, nextFile, outs, building,
               hasCurrentUserKey, currentUserKey, lastSequenceForKey);
    var i := 0;
    while i < |merged|
      invariant i <= |merged|
      invariant c.Ready(cutting, i)
      invariant Going(cutting, i, outs, building, nextFile, hasCurrentUserKey, currentUserKey, lastSequenceForKey)
      invariant Collected(merged, BaseAt(c.input, c.level), snap, i, outs, building)
    {
      var e := merged[i];
      outs, building := HandleEntry(c, e, outs, building, nextFile, hasCurrentUserKey, currentUserKey,
                                    lastSequenceForKey, snap, cutting, i);
      hasCurrentUserKey, currentUserKey, lastSequenceForKey := true, e.key.user, e.key.sequence;
      i := i + 1;
    }
    outs := FinishLast(outs, building, nextFile, nextFile + |outs|, BaseAt(c.input, c.level), snap, c.sizes, cutting);
  }

  lemma Append(outs: seq<File>, building: seq<Entry>, firstNumber: nat, e: Entry)
    requires OutputsOk(outs, building, firstNumber) && e.key.sequence <= MAX_SEQUENCE
    requires AllBefore(outs, building, e.key)
    ensures OutputsOk(outs, building + [e], firstNumber)
    ensures Elements(building + [e]) == Elements(building) + {e}
  {
  }
}
