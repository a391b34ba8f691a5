/**
 The two loops of `DBImpl::Write` over the writer queue (`db/db_impl.cc`): `BuildBatchGroup` joins the
 batches at its head, and the final loop hands the result to the callers and takes them off.
*/
module WriteQueues {
  import Coding
  import opened WriteBatches
  import opened GroupCommit
  import opened Sequences

  /** `DBImpl::Writer`. */
  class Call {
    const batch: WriteBatch?
    const sync: bool
    var done: bool
    var status: bool

    constructor (batch: WriteBatch?, sync: bool)
      ensures this.batch == batch && this.sync == sync && !done
    {
      this.batch, this.sync, done, status := batch, sync, false, false;
    }
  }

  ghost predicate Shows(c: Call, w: Writer)
    reads if c.batch == null then {} else {c.batch}
  {
    && c.sync == w.sync
    && (if c.batch == null then w.batch.None? else c.batch.Valid() && w.batch == Some(c.batch.ops))
  }

  /** The queue of the state machine that a list of calls stands for. */
  ghost predicate Represents(calls: seq<Call>, ws: seq<Writer>)
    reads set c | c in calls && c.batch != null :: c.batch
  {
    |ws| == |calls| && forall j {:trigger Shows(calls[j], ws[j])} | 0 <= j < |calls| :: Shows(calls[j], ws[j])
  }

  // ---------- sizes ----------

  lemma {:induction false} OpsWithinSize(ops: seq<Op>)
    ensures |ops| <= |EncodeOps(ops)|
  {
    if ops != [] {
      OpsWithinSize(ops[1..]);
    }
  }

  lemma {:induction false} FlatWithinSize(ws: seq<Writer>)
    ensures |Flat(ws)| <= TotalSize(ws)
  {
    if ws != [] {
      FlatWithinSize(ws[..|ws| - 1]);
      OpsWithinSize(OpsOf(ws[|ws| - 1]));
    }
  }

  lemma TotalMore(ws: seq<Writer>, i: nat)
    requires i < |ws|
    ensures TotalSize(ws[..i + 1]) == TotalSize(ws[..i]) + Adds(ws[i])
    ensures Flat(ws[..i + 1]) == Flat(ws[..i]) + OpsOf(ws[i])
  {
    assert ws[..i + 1][..i] == ws[..i];
  }

  /** A batch that still fits the size limit can be appended. */
  lemma JoinedFits(ws: seq<Writer>, i: nat)
    requires 1 <= i < |ws| && ws[0].batch.Some? && AllFit(Flat(ws[..i])) && AllFit(OpsOf(ws[i]))
    requires TotalSize(ws[..i + 1]) <= MaxSize(BatchSize(ws[0]))
    ensures AllFit(Flat(ws[..i]) + OpsOf(ws[i]))
  {
    TotalMore(ws, i);
    FlatWithinSize(ws[..i + 1]);
  }

  // ---------- the group ----------

  /** What the loop of `BuildBatchGroup` has established about the first `i` writers. */
  ghost predicate Joining(ws: seq<Writer>, i: nat) {
    && 1 <= i <= |ws| && ws[0].batch.Some?
    && (forall j {:trigger MayJoin(ws[0], ws[j])} | 0 <= j < i :: MayJoin(ws[0], ws[j]))
    && (forall j {:trigger FitsLimit(ws, j)} | 1 <= j < i :: FitsLimit(ws, j))
  }

  /** `BuildBatchGroup`: the first `last + 1` calls are the group, their batches joined in the result. */
  method BuildBatchGroup(calls: seq<Call>, tmp: WriteBatch, ghost ws: seq<Writer>)
    returns (result: WriteBatch, last: nat)
    requires Represents(calls, ws) && calls != [] && calls[0].batch != null
    requires tmp.Valid() && tmp.ops == [] && forall c | c in calls :: c.batch != tmp
    modifies tmp
    ensures IsGroup(ws, last + 1)
    ensures result.Valid() && result.ops == Flat(ws[..last + 1])
    ensures tmp.Valid() && (result == tmp || (result == calls[0].batch && tmp.ops == []))
  {
    assert Shows(calls[0], ws[0]);
    result := calls[0].batch;
    var size := result.ByteSize();
    SizeOfRep(result, ws[0]);
    var maxSize := if size <= 0x2_0000 then size + 0x2_0000 else 0x10_0000;
    First(ws);
    var joined, k := true, 1;
    while joined && k < |calls|
      invariant 1 <= k <= |calls| && Built(calls[0].batch, result, tmp, size, ws, k)
      invariant Represents(calls, ws) && (!joined ==> IsGroup(ws, k))
      decreases |calls| - k, joined
    {
      assert Shows(calls[k], ws[k]) && Shows(calls[0], ws[0]);
      joined, result, size := TakeCall(calls[0], calls[k], result, tmp, size, maxSize, ws, k);
      if joined {
        k := k + 1;
      }
    }
    if joined {
      GroupEnds(ws, k);
    }
    last := k - 1;
  }

  /** `Write` before it logs the group: its batch gets the numbers after the last one. */
  method NumberGroup(calls: seq<Call>, tmp: WriteBatch, ghost ws: seq<Writer>, lastSequence: nat)
    returns (updates: WriteBatch, last: nat, lastSequence': nat)
    requires Represents(calls, ws) && calls != [] && calls[0].batch != null && lastSequence + 1 < Coding.TWO_64
    requires tmp.Valid() && tmp.ops == [] && forall c | c in calls :: c.batch != tmp
    modifies tmp, calls[0].batch
    ensures IsGroup(ws, last + 1)
    ensures updates.rep == Rep(lastSequence + 1, Flat(ws[..last + 1]))
    ensures lastSequence' == lastSequence + |Flat(ws[..last + 1])|
  {
    updates, last := BuildBatchGroup(calls, tmp, ws);
    updates.SetSequence(lastSequence + 1);
    lastSequence' := lastSequence + updates.Count();
  }

  /** What the loop keeps: the result has the batches of the first `i` calls. */
  ghost predicate Built(first: WriteBatch, result: WriteBatch, tmp: WriteBatch, size: nat, ws: seq<Writer>, i: nat)
    reads result, tmp
  {
    && Joining(ws, i) && size == TotalSize(ws[..i])
    && result.Valid() && result.ops == Flat(ws[..i])
    && tmp.Valid() && (result == tmp || (result == first && tmp.ops == []))
  }

  /** One turn of the loop, for a call that joins the group or ends it. */
  method TakeCall(first: Call, c: Call, result: WriteBatch, tmp: WriteBatch, size: nat, maxSize: nat,
                  ghost ws: seq<Writer>, ghost i: nat)
    returns (joined: bool, r: WriteBatch, size': nat)
    requires i < |ws| && first.batch != null && Shows(first, ws[0]) && Shows(c, ws[i])
    requires maxSize == MaxSize(BatchSize(ws[0])) && first.batch != tmp && c.batch != tmp
    requires Built(first.batch, result, tmp, size, ws, i)
    modifies tmp
    ensures joined ==> Built(first.batch, r, tmp, size', ws, i + 1)
    ensures !joined ==> IsGroup(ws, i) && r == result && size' == size && Built(first.batch, r, tmp, size', ws, i)
  {
    joined, r, size' := false, result, size;
    TotalMore(ws, i);
    if c.sync && !first.sync {
      GroupEnds(ws, i);
      return;
    }
    if c.batch != null {
      SizeOfRep(c.batch, ws[i]);
      if size + c.batch.ByteSize() > maxSize {
        GroupEnds(ws, i);
        return;
      }
      size' := size + c.batch.ByteSize();
      JoinedFits(ws, i);
      FlatIs(ws, i, result.ops, c.batch.ops, result.ops + c.batch.ops);
      r := Join(first.batch, result, tmp, c.batch);
    } else {
      FlatIs(ws, i, result.ops, [], result.ops);
    }
    joined := true;
    JoinMore(ws, i);
  }

  lemma FlatIs(ws: seq<Writer>, i: nat, before: seq<Op>, more: seq<Op>, after: seq<Op>)
    requires i < |ws| && before == Flat(ws[..i]) && more == OpsOf(ws[i]) && after == before + more
    ensures after == Flat(ws[..i + 1])
  {
    TotalMore(ws, i);
  }

  lemma GroupEnds(ws: seq<Writer>, i: nat)
    requires Joining(ws, i)
    requires i < |ws| ==> !MayJoin(ws[0], ws[i]) || !FitsLimit(ws, i)
    ensures IsGroup(ws, i)
  {
  }

  lemma JoinMore(ws: seq<Writer>, i: nat)
    requires Joining(ws, i) && i < |ws| && MayJoin(ws[0], ws[i])
    requires FitsLimit(ws, i)
    ensures Joining(ws, i + 1)
  {
    forall j | 0 <= j < i + 1 ensures MayJoin(ws[0], ws[j]) {
      assert j < i || j == i;
    }
    forall j | 1 <= j < i + 1 ensures FitsLimit(ws, j) {
      assert j < i || j == i;
    }
  }

  /** Appends a batch to the result, which from the second batch on is the temporary one. */
  method Join(first: WriteBatch, result: WriteBatch, tmp: WriteBatch, b: WriteBatch) returns (r: WriteBatch)
    requires first.Valid() && tmp.Valid() && b.Valid() && first != tmp && b != tmp
    requires result == tmp || (result == first && tmp.ops == [])
    requires AllFit(result.ops + b.ops)
    modifies tmp
    ensures r == tmp && tmp.Valid() && tmp.ops == old(result.ops) + b.ops
  {
    r := result;
    if r == first {
      r := tmp;
      NothingBefore(first.ops);
      r.Append(first);
      assert r.ops == old(result.ops);
    }
    r.Append(b);
  }

  lemma NothingBefore(ops: seq<Op>)
    ensures [] + ops == ops
  {
  }

  lemma First(ws: seq<Writer>)
    requires ws != [] && ws[0].batch.Some?
    ensures TotalSize(ws[..1]) == BatchSize(ws[0]) && Flat(ws[..1]) == OpsOf(ws[0]) && Joining(ws, 1)
  {
    assert ws[..1][..0] == [];
  }

  lemma SizeOfRep(b: WriteBatch, w: Writer)
    requires b.Valid() && w.batch == Some(b.ops)
    ensures b.ByteSize() == BatchSize(w) == Adds(w)
  {
  }

  /** There is only one such group. */
  lemma GroupIsUnique(queue: seq<Writer>, k: nat, k': nat)
    requires IsGroup(queue, k) && IsGroup(queue, k')
    ensures k == k'
  {
  }

  // ---------- handing out the result ----------

  class WriterQueue {
    var writers: seq<Call>

    /** The loop at the end of `Write`: calls up to `last` are taken off, all but the leader told the result. */
    method Release(w: Call, last: nat, status: bool)
      requires last < |writers| && writers[0] == w
      requires forall i, j | 0 <= i < j < |writers| :: writers[i] != writers[j]
      modifies this, writers
      ensures writers == old(writers)[last + 1..]
      ensures forall j | 0 < j <= last :: old(writers)[j].done && old(writers)[j].status == status
      ensures forall j | last < j < |old(writers)| :: old(writers)[j].done == old(writers[j].done)
      ensures w.done == old(w.done)
    {
      ghost var all, k := writers, 0;
      var lastWriter := writers[last];
      while true
        invariant k <= last && writers == all[k..]
        invariant forall j | 0 < j < k :: all[j].done && all[j].status == status
        invariant forall j | k <= j < |all| || j == 0 :: all[j].done == old(writers[j].done)
        decreases |writers|
      {
        var ready := writers[0];
        writers := writers[1..];
        if ready != w {
          ready.status := status;
          ready.done := true;
        }
        if ready == lastWriter {
          break;
        }
        k := k + 1;
      }
    }
  }
}
