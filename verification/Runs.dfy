/**
 Sorted runs of entries: what a memtable's skip list, a table file and an iterator over either
 of them present to the rest of the store.
*/
module Runs {
  import opened InternalKeys
  import opened FlatMap

  ghost predicate Sorted(es: seq<Entry>) {
    forall i, j | 0 <= i < j < |es| :: Before(es[i].key, es[j].key)
  }

  ghost function Elements(es: seq<Entry>): set<Entry> {
    set e | e in es
  }

  /** The position a seek lands on: the first entry that is not before `k`. */
  function LowerBound(es: seq<Entry>, k: InternalKey): (i: nat)
    ensures i <= |es|
    ensures forall j | 0 <= j < i :: Before(es[j].key, k)
    ensures i < |es| ==> !Before(es[i].key, k)
  {
    if es == [] || !Before(es[0].key, k) then 0 else 1 + LowerBound(es[1..], k)
  }

  /** In a sorted run that position separates the entries before `k` from the others. */
  lemma LowerBoundSplits(es: seq<Entry>, k: InternalKey)
    requires Sorted(es)
    ensures forall j | LowerBound(es, k) <= j < |es| :: !Before(es[j].key, k)
  {
    var i := LowerBound(es, k);
    forall j | i <= j < |es| ensures !Before(es[j].key, k) {
      assert j == i || Before(es[i].key, es[j].key);
    }
  }

  /** What a point lookup in one run reports (`SaverState` of `Version::Get`). */
  datatype Lookup = NotFound | Deleted | Found(value: Bytes)

  function LookupOf(e: Entry): Lookup {
    if e.key.kind.TypeValue? then Found(e.value) else Deleted
  }

  function AnswerOfLookup(l: Lookup): Answer {
    if l.Found? then Present(l.value) else Absent
  }

  /** Seek to (`u`, `s`) and look at the entry found there: `MemTable::Get`, and `SaveValue` on a table. */
  function RunGet(es: seq<Entry>, u: UserKey, s: nat): Lookup {
    var i := LowerBound(es, SeekKey(u, s));
    if i < |es| && es[i].key.user == u then LookupOf(es[i]) else NotFound
  }

  /** One seek finds the newest entry visible in a sorted run, or shows there is none. */
  lemma RunGetFindsNewest(es: seq<Entry>, u: UserKey, s: nat) returns (e: Entry)
    requires Sorted(es)
    ensures RunGet(es, u, s).NotFound? <==> NoneVisible(Elements(es), u, s)
    ensures !RunGet(es, u, s).NotFound? ==>
      IsNewest(Elements(es), u, s, e) && RunGet(es, u, s) == LookupOf(e)
  {
    var k := SeekKey(u, s);
    var i := LowerBound(es, k);
    LowerBoundSplits(es, k);
    e := Entry(k, []);
    if i < |es| && es[i].key.user == u {
      e := es[i];
      assert VisibleAt(e, u, s) && e in Elements(es);
    }
    forall j | 0 <= j < |es| && VisibleAt(es[j], u, s)
      ensures i < |es| && es[i].key.user == u && es[j].key.sequence <= es[i].key.sequence
    {
      assert !Before(es[j].key, k) ==> i <= j;
      assert i == j || Before(es[i].key, es[j].key);
    }
    if RunGet(es, u, s).NotFound? {
      forall x | x in Elements(es) ensures !VisibleAt(x, u, s) {
        var j :| 0 <= j < |es| && es[j] == x;
      }
    } else {
      forall x | x in Elements(es) && VisibleAt(x, u, s) ensures x.key.sequence <= e.key.sequence {
        var j :| 0 <= j < |es| && es[j] == x;
      }
    }
  }
}
