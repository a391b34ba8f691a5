/**
 `WriteBatch` (`db/write_batch.cc`): updates collected in one string, which is also the record written
 to the log, and their replay into a memtable.
*/
module WriteBatches {
  import opened Coding
  import opened Sequences

  const HEADER: nat := 12
  const TYPE_DELETION: Byte := 0
  const TYPE_VALUE: Byte := 1

  datatype Op = Put(key: seq<Byte>, value: seq<Byte>) | Delete(key: seq<Byte>)

  datatype Status = OK | Corruption

  /** What the memtable is given: an update under its sequence number. */
  datatype Numbered = Numbered(sequence: nat, op: Op)

  function NumberFrom(first: nat, ops: seq<Op>): (s: seq<Numbered>)
    ensures |s| == |ops|
    ensures forall i | 0 <= i < |ops| :: s[i] == Numbered(first + i, ops[i])
  {
    seq(|ops|, i requires 0 <= i < |ops| => Numbered(first + i, ops[i]))
  }

  lemma NumberFromAppend(first: nat, a: seq<Op>, b: seq<Op>)
    ensures NumberFrom(first, a + b) == NumberFrom(first, a) + NumberFrom(first + |a|, b)
  {
  }

  // ---------- the string ----------

  predicate Fits(op: Op) {
    |op.key| < TWO_32 && (op.Put? ==> |op.value| < TWO_32)
  }

  ghost predicate AllFit(ops: seq<Op>) {
    |ops| < TWO_32 && forall op | op in ops :: Fits(op)
  }

  function EncodeOp(op: Op): (s: seq<Byte>)
    ensures s != []
  {
    match op
    case Put(key, value) => [TYPE_VALUE] + (Prefixed(key) + Prefixed(value))
    case Delete(key) => [TYPE_DELETION] + Prefixed(key)
  }

  function EncodeOps(ops: seq<Op>): seq<Byte> {
    if ops == [] then [] else EncodeOp(ops[0]) + EncodeOps(ops[1..])
  }

  /** `rep_` of a batch that starts at sequence number `first`. */
  function Rep(first: nat, ops: seq<Op>): (s: seq<Byte>)
    ensures |s| >= HEADER
  {
    Fixed(first, 8) + Fixed(|ops|, 4) + EncodeOps(ops)
  }

  lemma {:induction false} EncodeOpsAppend(a: seq<Op>, b: seq<Op>)
    ensures EncodeOps(a + b) == EncodeOps(a) + EncodeOps(b)
  {
    if a == [] {
      assert a + b == b;
    } else {
      assert (a + b)[1..] == a[1..] + b;
      EncodeOpsAppend(a[1..], b);
    }
  }

  // ---------- Iterate ----------

  /** One record at the front of the data. */
  function GetOp(input: seq<Byte>): (r: Parsed<Op>)
    requires input != []
    ensures r.Parsed? ==> |r.rest| < |input|
  {
    PrefixedShrinks(input[1..]);
    if input[0] == TYPE_VALUE then
      match GetPrefixed(input[1..])
      case Malformed => Malformed
      case Parsed(key, rest) =>
        PrefixedShrinks(rest);
        match GetPrefixed(rest)
        case Malformed => Malformed
        case Parsed(value, rest') => Parsed(Put(key, value), rest')
    else if input[0] == TYPE_DELETION then
      match GetPrefixed(input[1..])
      case Malformed => Malformed
      case Parsed(key, rest) => Parsed(Delete(key), rest)
    else Malformed
  }

  /** What the handler is called with, and whether the end of the data was reached. */
  datatype Delivered = Delivered(ops: seq<Op>, complete: bool)

  function GetOps(input: seq<Byte>): Delivered
    decreases |input|
  {
    if input == [] then Delivered([], true)
    else
      match GetOp(input)
      case Malformed => Delivered([], false)
      case Parsed(op, rest) => var d := GetOps(rest); Delivered([op] + d.ops, d.complete)
  }

  function SequenceOf(rep: seq<Byte>): nat
    requires |rep| >= HEADER
  {
    ReadFixed(rep[..8])
  }

  function CountOf(rep: seq<Byte>): nat
    requires |rep| >= HEADER
  {
    ReadFixed(rep[8..HEADER])
  }

  function StatusOf(rep: seq<Byte>): Status
    requires |rep| >= HEADER
  {
    var d := GetOps(rep[HEADER..]);
    if d.complete && |d.ops| == CountOf(rep) then OK else Corruption
  }

  lemma GetOpUndoes(op: Op, rest: seq<Byte>)
    requires Fits(op)
    ensures GetOp(EncodeOp(op) + rest) == Parsed(op, rest)
  {
    match op {
      case Put(key, value) => GetPutUndoes(key, value, rest);
      case Delete(key) => GetDeleteUndoes(key, rest);
    }
  }

  lemma Tagged(tag: Byte, a: seq<Byte>, b: seq<Byte>)
    ensures var s := [tag] + a + b; s[0] == tag && s[1..] == a + b
  {
  }

  lemma GetPutUndoes(key: seq<Byte>, value: seq<Byte>, rest: seq<Byte>)
    requires |key| < TWO_32 && |value| < TWO_32
    ensures GetOp([TYPE_VALUE] + (Prefixed(key) + Prefixed(value)) + rest) == Parsed(Put(key, value), rest)
  {
    Tagged(TYPE_VALUE, Prefixed(key) + Prefixed(value), rest);
    assert (Prefixed(key) + Prefixed(value)) + rest == Prefixed(key) + (Prefixed(value) + rest);
    PrefixedRoundTrip(key, Prefixed(value) + rest);
    PrefixedRoundTrip(value, rest);
  }

  lemma GetDeleteUndoes(key: seq<Byte>, rest: seq<Byte>)
    requires |key| < TWO_32
    ensures GetOp([TYPE_DELETION] + Prefixed(key) + rest) == Parsed(Delete(key), rest)
  {
    Tagged(TYPE_DELETION, Prefixed(key), rest);
    PrefixedRoundTrip(key, rest);
  }

  lemma {:induction false} GetOpsUndoes(ops: seq<Op>)
    requires forall op | op in ops :: Fits(op)
    ensures GetOps(EncodeOps(ops)) == Delivered(ops, true)
  {
    if ops != [] {
      GetOpUndoes(ops[0], EncodeOps(ops[1..]));
      GetOpsUndoes(ops[1..]);
      assert [ops[0]] + ops[1..] == ops;
    }
  }

  lemma RepParts(first: nat, ops: seq<Op>)
    ensures var s := Rep(first, ops);
      s[..8] == Fixed(first, 8) && s[8..HEADER] == Fixed(|ops|, 4) && s[HEADER..] == EncodeOps(ops)
  {
  }

  /** Replaying a batch gives its updates back, with its sequence number and count. */
  lemma IterateUndoes(first: nat, ops: seq<Op>)
    requires first < TWO_64 && AllFit(ops)
    ensures var s := Rep(first, ops);
      && SequenceOf(s) == first && CountOf(s) == |ops|
      && GetOps(s[HEADER..]) == Delivered(ops, true) && StatusOf(s) == OK
  {
    RepParts(first, ops);
    GetOpsUndoes(ops);
    Pow256Of4And8();
    FixedRoundTrip(first, 8);
    FixedRoundTrip(|ops|, 4);
  }

  // ---------- the object ----------

  class WriteBatch {
    var rep: seq<Byte>
    ghost var first: nat
    ghost var ops: seq<Op>

    /** The string is that of `ops`, to be applied from `first` on. */
    ghost predicate Valid()
      reads this
    {
      rep == Rep(first, ops) && first < TWO_64 && AllFit(ops)
    }

    constructor ()
      ensures Valid() && ops == [] && first == 0
    {
      rep := seq(HEADER, _ => 0);
      first, ops := 0, [];
      new;
      ZeroHeader();
    }

    method Clear()
      modifies this
      ensures Valid() && ops == [] && first == 0
    {
      rep := seq(HEADER, _ => 0);
      first, ops := 0, [];
      ZeroHeader();
    }

    function Count(): (n: nat)
      requires Valid()
      reads this
      ensures n == |ops|
    {
      IterateUndoes(first, ops);
      CountOf(rep)
    }

    function ByteSize(): nat
      reads this
    {
      |rep|
    }

    method SetSequence(n: nat)
      requires Valid() && n < TWO_64
      modifies this
      ensures Valid() && first == n && ops == old(ops)
    {
      RepParts(first, ops);
      rep := Fixed(n, 8) + rep[8..HEADER] + rep[HEADER..];
      first := n;
    }

    method Put(key: seq<Byte>, value: seq<Byte>)
      requires Valid() && AllFit(ops + [Op.Put(key, value)])
      modifies this
      ensures Valid() && first == old(first) && ops == old(ops) + [Op.Put(key, value)]
    {
      ghost var op := Op.Put(key, value);
      EncodedOne(op);
      var n, e := Count() + 1, [TYPE_VALUE] + (Prefixed(key) + Prefixed(value));
      Grown(rep, first, ops, [op], n, e);
      rep := rep[..8] + Fixed(n, 4) + (rep[HEADER..] + e);
      ops := ops + [op];
    }

    method Delete(key: seq<Byte>)
      requires Valid() && AllFit(ops + [Op.Delete(key)])
      modifies this
      ensures Valid() && first == old(first) && ops == old(ops) + [Op.Delete(key)]
    {
      ghost var op := Op.Delete(key);
      EncodedOne(op);
      var n, e := Count() + 1, [TYPE_DELETION] + Prefixed(key);
      Grown(rep, first, ops, [op], n, e);
      rep := rep[..8] + Fixed(n, 4) + (rep[HEADER..] + e);
      ops := ops + [op];
    }

    method Append(source: WriteBatch)
      requires Valid() && source.Valid() && AllFit(ops + source.ops)
      modifies this
      ensures Valid() && first == old(first) && ops == old(ops + source.ops)
    {
      RepParts(source.first, source.ops);
      var n, e := Count() + source.Count(), source.rep[HEADER..];
      Grown(rep, first, ops, source.ops, n, e);
      rep := rep[..8] + Fixed(n, 4) + (rep[HEADER..] + e);
      ops := ops + source.ops;
    }

    /** `SetContents`: any string may come out of a log. */
    method SetContents(contents: seq<Byte>)
      requires |contents| >= HEADER
      modifies this
      ensures rep == contents
    {
      rep := contents;
    }

    /** `InsertInto`. */
    method InsertInto(mem: seq<Numbered>) returns (r: seq<Numbered>, status: Status)
      requires |rep| >= HEADER
      ensures r == mem + NumberFrom(SequenceOf(rep), GetOps(rep[HEADER..]).ops) && status == StatusOf(rep)
    {
      var found, complete;
      r, found, complete := Iterate(rep[HEADER..], mem, SequenceOf(rep));
      status := if complete && found == CountOf(rep) then OK else Corruption;
    }
  }

  /** Of the updates to deliver, those in `seen` have been, and `left` is still to come. */
  ghost predicate Delivering(d: Delivered, seen: seq<Op>, left: Delivered) {
    d.complete == left.complete && d.ops == seen + left.ops
  }

  lemma NextDelivered(d: Delivered, seen: seq<Op>, input: seq<Byte>, op: Op, rest: seq<Byte>)
    requires input != [] && GetOp(input) == Parsed(op, rest) && Delivering(d, seen, GetOps(input))
    ensures Delivering(d, seen + [op], GetOps(rest))
  {
    OneMore(seen, op, GetOps(rest).ops);
  }

  /** The loop of `Iterate`, with a handler that gives the updates to the memtable. */
  method Iterate(data: seq<Byte>, mem: seq<Numbered>, first: nat)
    returns (r: seq<Numbered>, found: nat, complete: bool)
    ensures r == mem + NumberFrom(first, GetOps(data).ops)
    ensures complete == GetOps(data).complete && (complete ==> found == |GetOps(data).ops|)
  {
    var input, sequence := data, first;
    ghost var d, seen: seq<Op> := GetOps(data), [];
    r, found := mem, 0;
    NoneMore(mem);
    while input != []
      invariant Delivering(d, seen, GetOps(input))
      invariant r == mem + NumberFrom(first, seen) && sequence == first + |seen| && found == |seen|
      decreases |input|
    {
      found := found + 1;
      match GetOp(input) {
        case Malformed =>
          NoneMore(seen);
          return r, found, false;
        case Parsed(op, rest) =>
          NextDelivered(d, seen, input, op, rest);
          NumberMore(r, mem, first, seen, sequence, op);
          r := r + [Numbered(sequence, op)];
          sequence, input := sequence + 1, rest;
          seen := seen + [op];
      }
    }
    NoneMore(seen);
    complete := true;
  }

  lemma {:induction false} FixedZero(n: nat)
    ensures Fixed(0, n) == seq(n, _ => 0)
  {
    if n > 0 {
      FixedZero(n - 1);
    }
  }

  lemma ZeroHeader()
    ensures Rep(0, []) == seq(HEADER, _ => 0)
  {
    FixedZero(8);
    FixedZero(4);
  }

  lemma EncodedOne(op: Op)
    ensures EncodeOps([op]) == EncodeOp(op)
  {
  }

  /** A batch with more updates: the count replaced and their encoding `e` appended. */
  lemma Grown(s: seq<Byte>, first: nat, ops: seq<Op>, more: seq<Op>, n: nat, e: seq<Byte>)
    requires s == Rep(first, ops) && n == |ops| + |more| && e == EncodeOps(more)
    ensures s[..8] + Fixed(n, 4) + (s[HEADER..] + e) == Rep(first, ops + more)
  {
    RepParts(first, ops);
    EncodeOpsAppend(ops, more);
    RepIs(first, n, s[HEADER..] + e, ops + more);
  }

  lemma RepIs(first: nat, n: nat, data: seq<Byte>, ops: seq<Op>)
    requires n == |ops| && data == EncodeOps(ops)
    ensures Fixed(first, 8) + Fixed(n, 4) + data == Rep(first, ops)
  {
  }

  lemma OneMore(seen: seq<Op>, op: Op, later: seq<Op>)
    ensures seen + ([op] + later) == (seen + [op]) + later
  {
  }

  lemma NumberMore(r: seq<Numbered>, mem: seq<Numbered>, first: nat, seen: seq<Op>, sequence: nat, op: Op)
    requires r == mem + NumberFrom(first, seen) && sequence == first + |seen|
    ensures r + [Numbered(sequence, op)] == mem + NumberFrom(first, seen + [op])
  {
    NumberFromAppend(first, seen, [op]);
    assert NumberFrom(first + |seen|, [op]) == [Numbered(sequence, op)];
  }
}
