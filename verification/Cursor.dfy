/**
 The iterator protocol (`leveldb/iterator.h`) over a sorted run: what a memtable iterator, a table
 iterator and the iterators built from them all present to their user.
*/
module Cursors {
  import opened InternalKeys
  import opened Runs

  /** Position `|entries|` stands for "not valid", whichever end was left. */
  class Cursor {
    const entries: seq<Entry>
    var pos: nat

    ghost predicate Ok()
      reads this
    {
      Sorted(entries) && pos <= |entries|
    }

    constructor (entries: seq<Entry>)
      requires Sorted(entries)
      ensures Ok() && this.entries == entries && pos == |entries|
    {
      this.entries := entries;
      pos := |entries|;
    }

    predicate Valid()
      reads this
    {
      pos < |entries|
    }

    function Key(): InternalKey
      requires Valid()
      reads this
    {
      entries[pos].key
    }

    function Value(): Bytes
      requires Valid()
      reads this
    {
      entries[pos].value
    }

    method SeekToFirst()
      requires Ok()
      modifies this
      ensures Ok() && pos == 0
    {
      pos := 0;
    }

    method SeekToLast()
      requires Ok()
      modifies this
      ensures Ok() && pos == if entries == [] then 0 else |entries| - 1
    {
      pos := if entries == [] then 0 else |entries| - 1;
    }

    /** Lands on the first entry at or after `k`. */
    method Seek(k: InternalKey)
      requires Ok()
      modifies this
      ensures Ok() && pos == LowerBound(entries, k)
    {
      pos := 0;
      while pos < |entries| && Before(entries[pos].key, k)
        invariant Ok() && forall j | 0 <= j < pos :: Before(entries[j].key, k)
      {
        pos := pos + 1;
      }
      LowerBoundUnique(entries, k, pos);
    }

    method Next()
      requires Ok() && Valid()
      modifies this
      ensures Ok() && pos == old(pos) + 1
    {
      pos := pos + 1;
    }

    method Prev()
      requires Ok() && Valid()
      modifies this
      ensures Ok() && pos == if old(pos) == 0 then |entries| else old(pos) - 1
    {
      pos := if pos == 0 then |entries| else pos - 1;
    }
  }

  lemma {:induction false} LowerBoundUnique(es: seq<Entry>, k: InternalKey, i: nat)
    requires i <= |es| && (forall j | 0 <= j < i :: Before(es[j].key, k))
    requires i < |es| ==> !Before(es[i].key, k)
    ensures LowerBound(es, k) == i
  {
    if i > 0 {
      assert forall j | 0 <= j < i - 1 :: es[1..][j] == es[j + 1];
      LowerBoundUnique(es[1..], k, i - 1);
    }
  }
}
