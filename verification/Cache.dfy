/**
 A shard of the LRU cache (`LRUCache` in `util/cache.cc`).  The two circular lists are sequences, the
 oldest entry first.
*/
module LRUCaches {
  import opened HandleTables

  /** The charges of a list of entries. */
  function Charge(s: seq<LRUHandle>): nat {
    if s == [] then 0 else Charge(s[..|s| - 1]) + s[|s| - 1].charge
  }

  /** `LRU_Remove`, for the list that the entry is on. */
  function Without(s: seq<LRUHandle>, h: LRUHandle): (r: seq<LRUHandle>) {
    if s == [] then []
    else if s[|s| - 1] == h then s[..|s| - 1]
    else Without(s[..|s| - 1], h) + [s[|s| - 1]]
  }

  /** Only the entry leaves, and the others stay in their order. */
  lemma {:induction false} WithoutIs(a: seq<LRUHandle>, h: LRUHandle, b: seq<LRUHandle>)
    requires h !in b
    ensures Without(a + [h] + b, h) == a + b
    decreases |b|
  {
    var s := a + [h] + b;
    if b == [] {
      assert s[..|s| - 1] == a && s == a + [h] && a + b == a;
    } else {
      var n := |b| - 1;
      WithoutIs(a, h, b[..n]);
      assert s[..|s| - 1] == a + [h] + b[..n] && a + b == a + b[..n] + [b[n]];
    }
  }

  lemma {:induction false} WithoutAbsent(s: seq<LRUHandle>, h: LRUHandle)
    requires h !in s
    ensures Without(s, h) == s
    decreases |s|
  {
    if s != [] {
      WithoutAbsent(s[..|s| - 1], h);
    }
  }

  /** A list when `dup`, if there was one, has been erased. */
  function Replacing(s: seq<LRUHandle>, dup: LRUHandle?): seq<LRUHandle> {
    if dup == null then s else Without(s, dup)
  }

  /** The list has the entries of the set, none twice. */
  ghost predicate ListOk(s: seq<LRUHandle>, elems: set<LRUHandle>) {
    if s == [] then elems == {}
    else s[|s| - 1] in elems && ListOk(s[..|s| - 1], elems - {s[|s| - 1]})
  }

  lemma ListMore(s: seq<LRUHandle>, elems: set<LRUHandle>, h: LRUHandle)
    requires ListOk(s, elems) && h !in elems
    ensures ListOk(s + [h], elems + {h}) && Charge(s + [h]) == Charge(s) + h.charge
  {
    assert (s + [h])[..|s|] == s && elems + {h} - {h} == elems;
  }

  lemma {:induction false} ListLess(s: seq<LRUHandle>, elems: set<LRUHandle>, h: LRUHandle)
    requires ListOk(s, elems)
    ensures ListOk(Without(s, h), elems - {h}) && (h !in elems ==> Without(s, h) == s)
    ensures Charge(Without(s, h)) == Charge(s) - if h in elems then h.charge else 0
    ensures h in elems ==> h.charge <= Charge(s)
    decreases |s|
  {
    if s != [] {
      var rest, last := s[..|s| - 1], s[|s| - 1];
      ListLess(rest, elems - {last}, h);
      if last != h {
        ListMore(Without(rest, h), elems - {last} - {h}, last);
        assert elems - {last} - {h} + {last} == elems - {h};
        assert s == rest + [last];
      }
    } else {
      assert elems - {h} == {};
    }
  }

  lemma {:induction false} ListHas(s: seq<LRUHandle>, elems: set<LRUHandle>, i: nat)
    requires ListOk(s, elems) && i < |s|
    ensures s[i] in elems
    decreases |s|
  {
    if i < |s| - 1 {
      ListHas(s[..|s| - 1], elems - {s[|s| - 1]}, i);
    }
  }

  lemma {:induction false} ListIn(s: seq<LRUHandle>, elems: set<LRUHandle>, h: LRUHandle)
    requires ListOk(s, elems)
    ensures h in elems <==> h in s
    decreases |s|
  {
    if s != [] {
      ListIn(s[..|s| - 1], elems - {s[|s| - 1]}, h);
    }
  }

  lemma {:induction false} ListNoDup(s: seq<LRUHandle>, elems: set<LRUHandle>)
    requires ListOk(s, elems)
    ensures NoDup(s)
    decreases |s|
  {
    if s != [] {
      var rest, last := s[..|s| - 1], s[|s| - 1];
      ListNoDup(rest, elems - {last});
      ListIn(rest, elems - {last}, last);
      NoDupAppend(rest, last);
      assert s == rest + [last];
    }
  }

  /** Taking the oldest entry off. */
  lemma {:induction false} WithoutFirst(s: seq<LRUHandle>, elems: set<LRUHandle>)
    requires ListOk(s, elems) && s != []
    ensures Without(s, s[0]) == s[1..]
    decreases |s|
  {
    if |s| > 1 {
      var rest, last := s[..|s| - 1], s[|s| - 1];
      WithoutFirst(rest, elems - {last});
      ListHas(rest, elems - {last}, 0);
      assert s[1..] == rest[1..] + [last];
    }
  }

  class LRUCache {
    var capacity: nat
    var usage: nat
    var lru: seq<LRUHandle>
    var inUse: seq<LRUHandle>
    var deleted: seq<LRUHandle>
    const table: HandleTable
    ghost var all: set<LRUHandle>
    ghost var idle: set<LRUHandle>
    ghost var busy: set<LRUHandle>
    ghost var dead: set<LRUHandle>

    /** An entry counts its references and is on the list that they say; `extra` has one more. */
    ghost predicate EntryOk(h: LRUHandle, cached: set<LRUHandle>, extra: LRUHandle?)
      reads this`idle, this`busy, this`dead, h
    {
      && (h.inCache <==> h in cached)
      && h.refs == h.held + (if h in cached then 1 else 0) + (if h == extra then 1 else 0)
      && (h in idle <==> h in cached && h.refs == 1)
      && (h in busy <==> h in cached && h.refs >= 2)
      && (h in dead <==> h.refs == 0)
    }

    /** The three lists, and what those of cached entries are charged. */
    ghost predicate Chains()
      reads this`lru, this`inUse, this`deleted, this`idle, this`busy, this`dead, this`usage
    {
      && ListOk(lru, idle) && ListOk(inUse, busy) && ListOk(deleted, dead)
      && usage == Charge(lru) + Charge(inUse)
    }

    /** The entries in `cached` are the cache's. */
    ghost predicate Counts(cached: set<LRUHandle>, extra: LRUHandle?)
      reads this`idle, this`busy, this`dead, this`all, all
    {
      && cached <= all && idle <= all && busy <= all && dead <= all && (extra == null || extra in all)
      && (forall h {:trigger EntryOk(h, cached, extra)} | h in all :: EntryOk(h, cached, extra))
    }

    ghost predicate Valid()
      reads this, table, all
    {
      table.Valid() && Chains() && Counts(table.members, null)
    }

    constructor (capacity: nat)
      ensures Valid() && this.capacity == capacity && table.members == {} && deleted == [] && fresh(table)
    {
      this.capacity, usage, lru, inUse, deleted, all := capacity, 0, [], [], [], {};
      idle, busy, dead := {}, {}, {};
      table := new HandleTable();
    }

    /**
     Where an entry is: on exactly one list while it is cached, according to whether a client holds it, and
     deleted, once, when neither the cache nor a client does.
    */
    lemma CacheLaw(h: LRUHandle)
      requires Valid() && h in all
      ensures h in lru <==> h in table.members && h.held == 0
      ensures h in inUse <==> h in table.members && h.held > 0
      ensures h in deleted <==> h !in table.members && h.held == 0
      ensures NoDup(lru) && NoDup(inUse) && NoDup(deleted) && usage == Charge(lru) + Charge(inUse)
    {
      assert EntryOk(h, table.members, null);
      ListIn(lru, idle, h);
      ListIn(inUse, busy, h);
      ListIn(deleted, dead, h);
      ListNoDup(lru, idle);
      ListNoDup(inUse, busy);
      ListNoDup(deleted, dead);
    }

    /** `Ref`: an entry on the LRU list moves to the list of those in use. */
    method Ref(e: LRUHandle)
      requires Valid() && e in table.members
      modifies this`lru, this`inUse, this`idle, this`busy, e
      ensures Valid() && e.held == old(e.held) + 1 && e.refs == old(e.refs) + 1
      ensures lru == Without(old(lru), e) && inUse == (if old(e.refs) == 1 then old(inUse) + [e] else old(inUse))
    {
      assert EntryOk(e, table.members, null);
      ListLess(lru, idle, e);
      if e.refs == 1 && e.inCache {
        ToInUse(e);
      }
      e.refs := e.refs + 1;
      e.held := e.held + 1;
      forall h | h in all ensures EntryOk(h, table.members, null) {
        assert old(EntryOk(h, table.members, null));
      }
    }

    /** `LRU_Remove` and `LRU_Append(&in_use_, e)`. */
    method ToInUse(e: LRUHandle)
      requires Chains() && e in idle && e !in busy
      modifies this`lru, this`inUse, this`idle, this`busy
      ensures Chains() && idle == old(idle) - {e} && busy == old(busy) + {e}
      ensures lru == Without(old(lru), e) && inUse == old(inUse) + [e]
    {
      ListLess(lru, idle, e);
      ListMore(inUse, busy, e);
      lru, idle := Without(lru, e), idle - {e};
      inUse, busy := inUse + [e], busy + {e};
    }

    /** `LRU_Remove` and `LRU_Append(&lru_, e)`. */
    method ToLru(e: LRUHandle)
      requires Chains() && e in busy && e !in idle
      modifies this`lru, this`inUse, this`idle, this`busy
      ensures Chains() && idle == old(idle) + {e} && busy == old(busy) - {e}
      ensures lru == old(lru) + [e] && inUse == Without(old(inUse), e)
    {
      ListLess(inUse, busy, e);
      ListMore(lru, idle, e);
      inUse, busy := Without(inUse, e), busy - {e};
      lru, idle := lru + [e], idle + {e};
    }

    /** The deleter is called and the entry freed. */
    method Delete(e: LRUHandle)
      requires Chains() && e !in dead
      modifies this`deleted, this`dead
      ensures Chains() && dead == old(dead) + {e} && deleted == old(deleted) + [e]
    {
      ListMore(deleted, dead, e);
      deleted, dead := deleted + [e], dead + {e};
    }

    /** `Unref`: the last reference gone the entry is deleted; only the cache's left it goes to the LRU list. */
    method Unref(e: LRUHandle)
      requires table.Valid() && Chains() && Counts(table.members, e)
      modifies this`lru, this`inUse, this`deleted, this`idle, this`busy, this`dead, e
      ensures Valid() && e.held == old(e.held) && e.inCache == old(e.inCache) && e.refs == old(e.refs) - 1
      ensures deleted == old(deleted) + if e.refs == 0 then [e] else []
      ensures var toLru := e.inCache && e.refs == 1;
        lru == (old(lru) + if toLru then [e] else []) && inUse == if toLru then Without(old(inUse), e) else old(inUse)
    {
      assert EntryOk(e, table.members, e);
      e.refs := e.refs - 1;
      if e.refs == 0 {
        Delete(e);
      } else if e.inCache && e.refs == 1 {
        ToLru(e);
      }
      forall h | h in all ensures EntryOk(h, table.members, null) {
        assert old(EntryOk(h, table.members, e));
      }
    }

    /** `Lookup`: the cached entry, with a reference for the client. */
    method Lookup(key: Key, hash: nat) returns (e: LRUHandle?)
      requires Valid()
      modifies this`lru, this`inUse, this`idle, this`busy, table.members
      ensures Valid()
      ensures if e == null then (forall h | h in table.members :: !Matches(h, key, hash)) && lru == old(lru)
        && inUse == old(inUse)
              else
                && e in table.members && Matches(e, key, hash) && e.held == old(e.held) + 1
                && lru == Without(old(lru), e) && inUse == (if old(e.refs) == 1 then old(inUse) + [e] else old(inUse))
      ensures forall h | h in table.members && h != e :: h.held == old(h.held) && h.refs == old(h.refs)
    {
      e := table.Lookup(key, hash);
      if e != null {
        Ref(e);
      }
    }

    /** `Release`: a client gives its reference back. */
    method Release(e: LRUHandle)
      requires Valid() && e in all && e.held > 0
      modifies this`lru, this`inUse, this`deleted, this`idle, this`busy, this`dead, e
      ensures Valid() && e.held == old(e.held) - 1 && e.inCache == old(e.inCache)
      ensures deleted == old(deleted) + if e.held == 0 && !e.inCache then [e] else []
      ensures var toLru := e.held == 0 && e.inCache;
        lru == (old(lru) + if toLru then [e] else []) && inUse == if toLru then Without(old(inUse), e) else old(inUse)
    {
      assert EntryOk(e, table.members, null);
      e.held := e.held - 1;
      forall h | h in all ensures EntryOk(h, table.members, e) {
        assert old(EntryOk(h, table.members, null));
      }
      Unref(e);
    }

    /** `LRU_Remove` from whichever list the entry is on, and its charge. */
    method Unlink(e: LRUHandle)
      requires Chains() && (e in idle <==> e !in busy)
      modifies this`lru, this`inUse, this`idle, this`busy, this`usage
      ensures Chains() && idle == old(idle) - {e} && busy == old(busy) - {e} && usage == old(usage) - e.charge
      ensures lru == Without(old(lru), e) && inUse == Without(old(inUse), e)
    {
      ListLess(lru, idle, e);
      ListLess(inUse, busy, e);
      lru, idle := Without(lru, e), idle - {e};
      inUse, busy := Without(inUse, e), busy - {e};
      usage := usage - e.charge;
    }

    /** `FinishErase` of an entry that is no longer in the table. */
    method FinishErase(e: LRUHandle)
      requires table.Valid() && e !in table.members && Chains() && Counts(table.members + {e}, null)
      modifies this`usage, this`lru, this`inUse, this`deleted, this`idle, this`busy, this`dead, e
      ensures Valid() && !e.inCache && e.held == old(e.held) && usage == old(usage) - e.charge
      ensures lru == Without(old(lru), e) && inUse == Without(old(inUse), e)
      ensures deleted == old(deleted) + if e.held == 0 then [e] else []
    {
      LeaveCache(e);
      Unref(e);
    }

    /** The entry is off its list, and the reference of the cache is still to be given back. */
    method LeaveCache(e: LRUHandle)
      requires table.Valid() && e !in table.members && Chains() && Counts(table.members + {e}, null)
      modifies this`usage, this`lru, this`inUse, this`idle, this`busy, e
      ensures table.Valid() && Chains() && Counts(table.members, e)
      ensures !e.inCache && e.held == old(e.held) && e.refs == e.held + 1 && usage == old(usage) - e.charge
      ensures lru == Without(old(lru), e) && inUse == Without(old(inUse), e)
    {
      assert EntryOk(e, table.members + {e}, null);
      Unlink(e);
      e.inCache := false;
      forall h | h in all ensures EntryOk(h, table.members, e) {
        assert old(EntryOk(h, table.members + {e}, null));
      }
    }

    /** `FinishErase(table_.Remove(key, hash))`. */
    method Erase(key: Key, hash: nat) returns (ghost e: LRUHandle?)
      requires Valid()
      modifies this`usage, this`lru, this`inUse, this`deleted, this`idle, this`busy, this`dead, table, table.members
      ensures Valid()
      ensures if e == null then
                && (forall h | h in table.members :: !Matches(h, key, hash)) && table.members == old(table.members)
                && lru == old(lru) && inUse == old(inUse) && deleted == old(deleted) && usage == old(usage)
              else
                && e in old(table.members) && Matches(e, key, hash) && table.members == old(table.members) - {e}
                && lru == Without(old(lru), e) && inUse == Without(old(inUse), e) && usage == old(usage) - e.charge
                && deleted == old(deleted) + if old(e.held) == 0 then [e] else []
      ensures forall h | h in old(table.members) :: h.held == old(h.held) && (h == e || h.refs == old(h.refs))
    {
      var removed := table.Remove(key, hash);
      e := removed;
      if removed != null {
        assert table.members + {removed} == old(table.members);
        FinishErase(removed);
      }
    }

    /** The oldest entry that no client holds goes. */
    method EvictOldest() returns (ghost e: LRUHandle)
      requires Valid() && lru != []
      modifies this`usage, this`lru, this`inUse, this`deleted, this`idle, this`busy, this`dead, table, table.members
      ensures Valid() && e == old(lru)[0] && lru == old(lru)[1..] && inUse == old(inUse)
      ensures table.members == old(table.members) - {e} && e in old(table.members)
      ensures usage == old(usage) - e.charge && deleted == old(deleted) + [e]
      ensures forall h | h in old(table.members) :: h.held == old(h.held)
    {
      var oldest := lru[0];
      e := oldest;
      ListHas(lru, idle, 0);
      assert EntryOk(oldest, table.members, null);
      WithoutFirst(lru, idle);
      ListLess(inUse, busy, oldest);
      ghost var gone := Erase(oldest.key, oldest.hash);
      assert gone == null || Matches(gone, oldest.key, oldest.hash);
    }

    /** `Prune`: all entries that no client holds go, oldest first. */
    method Prune()
      requires Valid()
      modifies this`usage, this`lru, this`inUse, this`deleted, this`idle, this`busy, this`dead, table, table.members
      ensures Valid() && lru == [] && inUse == old(inUse)
      ensures deleted == old(deleted) + old(lru)
      ensures table.members == set h | h in old(table.members) && h !in old(lru)
    {
      ghost var n, before := 0, lru;
      while lru != []
        invariant Valid() && inUse == old(inUse) && n <= |before| && lru == before[n..]
        invariant deleted == old(deleted) + before[..n]
        invariant table.members == set h | h in old(table.members) && h !in before[..n]
        decreases |lru|
      {
        ListHas(lru, idle, 0);
        ghost var e := EvictOldest();
        PrefixMore(before, n, old(deleted));
        n := n + 1;
      }
      assert before[..n] == before;
    }

    /** `Insert`: an entry `dup` with the same key and hash is replaced, and the `n` oldest on the LRU list go. */
    method Insert(key: Key, hash: nat, charge: nat) returns (e: LRUHandle, ghost dup: LRUHandle?, ghost n: nat)
      requires Valid()
      modifies this`usage, this`lru, this`inUse, this`deleted, this`idle, this`busy, this`dead, this`all, table,
        table.members
      ensures Valid() && fresh(e) && Matches(e, key, hash) && e.charge == charge && e.held == 1 && all == old(all) + {e}
      ensures forall h | h in old(all) :: h.held == old(h.held)
      ensures usage <= capacity || lru == []
      ensures e.inCache == (capacity > 0) && inUse == Replacing(old(inUse), dup) + if capacity > 0 then [e] else []
      ensures capacity > 0 && dup == null ==> forall h | h in old(table.members) :: !Matches(h, key, hash)
      ensures dup != null ==> capacity > 0 && dup in old(table.members) && Matches(dup, key, hash)
      ensures n <= |Replacing(old(lru), dup)| && lru == Replacing(old(lru), dup)[n..]
      ensures n > 0 ==> usage + Replacing(old(lru), dup)[n - 1].charge > capacity
      ensures deleted ==
        old(deleted) + (if dup != null && old(dup.held) == 0 then [dup] else []) + Replacing(old(lru), dup)[..n]
    {
      e, dup := InsertEntry(key, hash, charge);
      n := EvictExcess(e);
    }

    method InsertEntry(key: Key, hash: nat, charge: nat) returns (e: LRUHandle, ghost dup: LRUHandle?)
      requires Valid()
      modifies this`usage, this`lru, this`inUse, this`deleted, this`idle, this`busy, this`dead, this`all, table,
        table.members
      ensures Valid() && fresh(e) && Matches(e, key, hash) && e.charge == charge && e.held == 1 && all == old(all) + {e}
      ensures forall h | h in old(all) :: h.held == old(h.held)
      ensures e.inCache == (capacity > 0) && inUse == Replacing(old(inUse), dup) + if capacity > 0 then [e] else []
      ensures capacity > 0 && dup == null ==> forall h | h in old(table.members) :: !Matches(h, key, hash)
      ensures dup != null ==> capacity > 0 && dup in old(table.members) && Matches(dup, key, hash)
      ensures lru == Replacing(old(lru), dup)
      ensures deleted == old(deleted) + if dup != null && old(dup.held) == 0 then [dup] else []
      ensures table.members <= old(table.members) + {e}
    {
      e := NewEntry(key, hash, charge);
      assert lru == old(lru) && inUse == old(inUse) && deleted == old(deleted) && table.members == old(table.members);
      dup := null;
      if capacity > 0 {
        dup := Enter(e);
      }
    }

    /** The loop at the end of `Insert`: as many of the oldest entries go as needed. */
    method EvictExcess(ghost e: LRUHandle) returns (ghost n: nat)
      requires Valid() && e in all && e.held > 0
      modifies this`usage, this`lru, this`inUse, this`deleted, this`idle, this`busy, this`dead, table, table.members
      ensures Valid() && (usage <= capacity || lru == []) && inUse == old(inUse)
      ensures e.inCache == old(e.inCache) && forall h | h in all :: h.held == old(h.held)
      ensures n <= |old(lru)| && lru == old(lru)[n..] && deleted == old(deleted) + old(lru)[..n]
      ensures n > 0 ==> usage + old(lru)[n - 1].charge > capacity
    {
      n := 0;
      ghost var base, start := lru, deleted;
      assert start + base[..0] == start;
      while usage > capacity && lru != []
        invariant Valid() && n <= |base| && lru == base[n..] && deleted == start + base[..n] && inUse == old(inUse)
        invariant n > 0 ==> usage + base[n - 1].charge > capacity
        invariant e.inCache == old(e.inCache) && forall h | h in all :: h.held == old(h.held)
        invariant table.members <= old(table.members)
        decreases |lru|
      {
        ListHas(lru, idle, 0);
        assert EntryOk(e, table.members, null) && EntryOk(lru[0], table.members, null);
        ghost var oldest := EvictOldest();
        PrefixMore(base, n, start);
        n := n + 1;
        assert EntryOk(e, table.members, null);
      }
    }

    /** A new entry, with a reference for the client. */
    method NewEntry(key: Key, hash: nat, charge: nat) returns (e: LRUHandle)
      requires Valid()
      modifies this`all
      ensures Valid() && fresh(e) && Matches(e, key, hash) && e.charge == charge && e.held == 1 && all == old(all) + {e}
      ensures !e.inCache && e.refs == 1 && e !in table.members
    {
      e := new LRUHandle(key, hash, charge);
      all := all + {e};
      forall h | h in all ensures EntryOk(h, table.members, null) {
        assert h != e ==> old(EntryOk(h, table.members, null));
      }
    }

    /** The cache takes a reference of its own: the entry is charged and in use. */
    method Admit(e: LRUHandle)
      requires Valid() && e in all && !e.inCache && e.refs == 1
      modifies this`usage, this`inUse, this`busy, e
      ensures table.Valid() && Chains() && Counts(table.members + {e}, null) && e.inCache && e.held == old(e.held)
      ensures inUse == old(inUse) + [e]
    {
      assert EntryOk(e, table.members, null);
      e.refs := e.refs + 1;
      e.inCache := true;
      ListMore(inUse, busy, e);
      inUse, busy := inUse + [e], busy + {e};
      usage := usage + e.charge;
      forall h | h in all ensures EntryOk(h, table.members + {e}, null) {
        assert old(EntryOk(h, table.members, null));
      }
    }

    /** The new entry goes into the table; one with the same key and hash is erased. */
    method Enter(e: LRUHandle) returns (ghost dup: LRUHandle?)
      requires Valid() && e in all && !e.inCache && e.refs == 1
      modifies this`usage, this`lru, this`inUse, this`deleted, this`idle, this`busy, this`dead, table, table.members, e
      ensures Valid() && e.inCache && e.held == old(e.held)
      ensures forall h | h in old(table.members) :: h.held == old(h.held)
      ensures if dup == null then
                forall h | h in old(table.members) :: !Matches(h, e.key, e.hash)
              else dup in old(table.members) && Matches(dup, e.key, e.hash)
      ensures inUse == Replacing(old(inUse), dup) + [e] && lru == Replacing(old(lru), dup)
      ensures deleted == old(deleted) + if dup != null && old(dup.held) == 0 then [dup] else []
      ensures table.members <= old(table.members) + {e}
    {
      var replaced := EnterTable(e);
      dup := replaced;
      if replaced != null {
        FinishErase(replaced);
      }
    }

    /** The entry joins those in use, and the table, which returns the entry it displaces. */
    method EnterTable(e: LRUHandle) returns (replaced: LRUHandle?)
      requires Valid() && e in all && !e.inCache && e.refs == 1
      modifies this`usage, this`inUse, this`busy, table, e
      ensures table.Valid() && Chains() && e.inCache && e.held == old(e.held)
      ensures replaced == null ==> Counts(table.members, null)
      ensures replaced != null ==> Counts(table.members + {replaced}, null)
      ensures if replaced == null then
                forall h | h in old(table.members) :: !Matches(h, e.key, e.hash)
              else
                && replaced in old(table.members) && replaced !in table.members && Matches(replaced, e.key, e.hash)
                && replaced != e
      ensures inUse == old(inUse) + [e] && table.members <= old(table.members) + {e}
    {
      assert EntryOk(e, table.members, null);
      ghost var counted := table.members + {e};
      Admit(e);
      ghost var users := inUse;
      replaced := table.Insert(e);
      assert Chains() && Counts(counted, null) && inUse == users;
      if replaced == null {
        SameCounts(counted, table.members);
      } else {
        var displaced: LRUHandle := replaced;
        SameCounts(counted, table.members + {displaced});
      }
    }

    lemma SameCounts(a: set<LRUHandle>, b: set<LRUHandle>)
      requires Counts(a, null) && a == b
      ensures Counts(b, null)
    {
    }
  }

  lemma PrefixMore(s: seq<LRUHandle>, n: nat, d: seq<LRUHandle>)
    requires n < |s|
    ensures s[..n + 1] == s[..n] + [s[n]] && s[n..][1..] == s[n + 1..] && s[n..][0] == s[n]
    ensures (d + s[..n]) + [s[n]] == d + s[..n + 1]
  {
    assert s[..n + 1] == s[..n] + [s[n]];
  }
}
