/**
 The chained hash table of the cache (`HandleTable` in `util/cache.cc`): a power of two of chains,
 grown when there are more entries than chains.
*/
module HandleTables {
  import opened Coding
  import opened Sequences

  type Key = seq<Byte>

  /** `LRUHandle`: the value and its deleter are the client's; `held` counts the client's references. */
  class LRUHandle {
    const key: Key
    const hash: nat
    const charge: nat
    var inCache: bool
    var refs: nat
    ghost var held: nat

    constructor (key: Key, hash: nat, charge: nat)
      ensures this.key == key && this.hash == hash && this.charge == charge && !inCache && refs == 1 && held == 1
    {
      this.key, this.hash, this.charge, inCache, refs, held := key, hash, charge, false, 1, 1;
    }
  }

  predicate Matches(h: LRUHandle, key: Key, hash: nat) {
    h.hash == hash && h.key == key
  }

  predicate PowerOfTwo(n: nat) {
    n == 1 || (n > 1 && n % 2 == 0 && PowerOfTwo(n / 2))
  }

  /** The bits set in both numbers. */
  function And(a: nat, b: nat): (r: nat)
    ensures r <= b
  {
    if a == 0 || b == 0 then 0 else 2 * And(a / 2, b / 2) + if a % 2 == 1 && b % 2 == 1 then 1 else 0
  }

  /** Masking with a power of two less one is the remainder: every chain can be reached. */
  lemma {:induction false} MaskIsRemainder(hash: nat, n: nat)
    requires PowerOfTwo(n)
    ensures And(hash, n - 1) == hash % n
  {
    if n > 1 {
      var half := n / 2;
      MaskIsRemainder(hash / 2, half);
      MaskHalves(hash, half);
      RemainderOfHalf(hash, half);
    }
  }

  lemma MaskHalves(hash: nat, half: nat)
    requires half > 0
    ensures And(hash, 2 * half - 1) == 2 * And(hash / 2, half - 1) + hash % 2
  {
    assert (2 * half - 1) / 2 == half - 1 && (2 * half - 1) % 2 == 1;
  }

  lemma RemainderOfHalf(hash: nat, half: nat)
    requires half > 0
    ensures hash % (2 * half) == 2 * (hash / 2 % half) + hash % 2
  {
    var q, r := hash / 2 / half, hash / 2 % half;
    assert hash == 2 * (q * half + r) + hash % 2 == q * (2 * half) + (2 * r + hash % 2);
    QuotientIs(hash, 2 * half, q, 2 * r + hash % 2);
  }

  /** The chain of an entry among `n`. */
  function Slot(h: LRUHandle, n: nat): (b: nat)
    requires n > 0
    ensures b < n
  {
    And(h.hash, n - 1)
  }

  ghost predicate NoDup<T>(s: seq<T>) {
    forall i, j | 0 <= i < j < |s| :: s[i] != s[j]
  }

  /** The chains hold exactly the members, each in the chain of its hash. */
  ghost predicate Distributed(buckets: seq<seq<LRUHandle>>, members: set<LRUHandle>) {
    && buckets != []
    && (forall h {:trigger Slot(h, |buckets|)} | h in members :: h in buckets[Slot(h, |buckets|)])
    && (forall i, h | 0 <= i < |buckets| && h in buckets[i] :: h in members && Slot(h, |buckets|) == i)
    && (forall i | 0 <= i < |buckets| :: NoDup(buckets[i]))
  }

  /** No two members have the same key and hash. */
  ghost predicate Unique(members: set<LRUHandle>) {
    forall g, h {:trigger Matches(g, h.key, h.hash)} | g in members && h in members && Matches(g, h.key, h.hash) ::
      g == h
  }

  lemma UniqueMore(members: set<LRUHandle>, rest: set<LRUHandle>, h: LRUHandle)
    requires Unique(members) && rest <= members && forall g | g in rest :: !Matches(g, h.key, h.hash)
    ensures Unique(rest + {h})
  {
    forall f, g | f in rest + {h} && g in rest + {h} && Matches(f, g.key, g.hash) ensures f == g {
      if f == h && g != h {
        assert Matches(g, h.key, h.hash);
      }
    }
  }

  lemma NoDupAppend<T>(s: seq<T>, x: T)
    requires NoDup(s) && x !in s
    ensures NoDup(s + [x])
  {
  }

  lemma NoDupDrop<T>(s: seq<T>, i: nat)
    requires NoDup(s) && i < |s|
    ensures NoDup(s[..i] + s[i + 1..]) && s[i] !in s[..i] + s[i + 1..]
    ensures forall x | x in s && x != s[i] :: x in s[..i] + s[i + 1..]
    ensures forall x | x in s[..i] + s[i + 1..] :: x in s
  {
    var t := s[..i] + s[i + 1..];
    forall j | 0 <= j < |t| ensures t[j] == s[if j < i then j else j + 1] {
    }
    forall x | x in s && x != s[i] ensures x in t {
      var j :| 0 <= j < |s| && s[j] == x;
      assert t[if j < i then j else j - 1] == x;
    }
  }

  lemma NoDupUpdate<T>(s: seq<T>, i: nat, x: T)
    requires NoDup(s) && i < |s| && x !in s
    ensures NoDup(s[i := x]) && x in s[i := x] && s[i] !in s[i := x]
    ensures forall y | y in s && y != s[i] :: y in s[i := x]
    ensures forall y | y in s[i := x] && y != x :: y in s
  {
    var t := s[i := x];
    assert t[i] == x;
    forall y | y in s && y != s[i] ensures y in t {
      var j :| 0 <= j < |s| && s[j] == y;
      assert t[j] == y;
    }
  }

  class HandleTable {
    var buckets: seq<seq<LRUHandle>>
    var elems: nat
    ghost var members: set<LRUHandle>

    ghost predicate Valid()
      reads this
    {
      Distributed(buckets, members) && Unique(members) && elems == |members| && PowerOfTwo(|buckets|)
    }

    constructor ()
      ensures Valid() && members == {}
    {
      assert PowerOfTwo(2);
      buckets := seq(4, _ => []);
      elems, members := 0, {};
    }

    /** `FindPointer`: the slot of the matching entry in its chain, or the trailing slot. */
    method FindPointer(key: Key, hash: nat) returns (b: nat, i: nat)
      requires Valid()
      ensures b == And(hash, |buckets| - 1) == hash % |buckets| && i <= |buckets[b]|
      ensures i < |buckets[b]| ==> Matches(buckets[b][i], key, hash) && buckets[b][i] in members
      ensures i == |buckets[b]| ==> forall h | h in members :: !Matches(h, key, hash)
    {
      b, i := And(hash, |buckets| - 1), 0;
      MaskIsRemainder(hash, |buckets|);
      while i < |buckets[b]| && (buckets[b][i].hash != hash || key != buckets[b][i].key)
        invariant i <= |buckets[b]| && forall j | 0 <= j < i :: !Matches(buckets[b][j], key, hash)
      {
        i := i + 1;
      }
      forall h | h in members && i == |buckets[b]| ensures !Matches(h, key, hash) {
        assert h in buckets[Slot(h, |buckets|)];
      }
    }

    method Lookup(key: Key, hash: nat) returns (e: LRUHandle?)
      requires Valid()
      ensures if e == null then forall h | h in members :: !Matches(h, key, hash)
              else e in members && Matches(e, key, hash)
    {
      var b, i := FindPointer(key, hash);
      e := if i < |buckets[b]| then buckets[b][i] else null;
    }

    /** `Insert`: an entry with the same key and hash is replaced, in its place in the chain, and returned. */
    method Insert(h: LRUHandle) returns (old_: LRUHandle?)
      requires Valid() && h !in members
      modifies this
      ensures Valid()
      ensures if old_ == null then forall g | g in old(members) :: !Matches(g, h.key, h.hash)
              else old_ in old(members) && Matches(old_, h.key, h.hash)
      ensures members == (if old_ == null then old(members) else old(members) - {old_}) + {h}
    {
      var b, i := FindPointer(h.key, h.hash);
      if i < |buckets[b]| {
        old_ := buckets[b][i];
        forall g | g in members - {old_} ensures !Matches(g, h.key, h.hash) {
          assert Matches(g, old_.key, old_.hash) ==> g == old_;
        }
        UniqueMore(members, members - {old_}, h);
        Replaced(buckets, members, b, i, h);
        buckets := buckets[b := buckets[b][i := h]];
        members := members - {old_} + {h};
      } else {
        old_ := null;
        UniqueMore(members, members, h);
        Appended(buckets, members, b, h);
        buckets := buckets[b := buckets[b] + [h]];
        members := members + {h};
        elems := elems + 1;
        if elems > |buckets| {
          Resize();
        }
      }
    }

    method Remove(key: Key, hash: nat) returns (result: LRUHandle?)
      requires Valid()
      modifies this
      ensures Valid()
      ensures if result == null then (forall g | g in old(members) :: !Matches(g, key, hash)) && members == old(members)
              else result in old(members) && Matches(result, key, hash) && members == old(members) - {result}
    {
      var b, i := FindPointer(key, hash);
      result := null;
      if i < |buckets[b]| {
        result := buckets[b][i];
        Removed(buckets, members, b, i);
        buckets := buckets[b := buckets[b][..i] + buckets[b][i + 1..]];
        members := members - {result};
        elems := elems - 1;
      }
    }

    /** `Resize`: all entries are moved to the chains of a table at least as long as there are entries. */
    method Resize()
      requires Valid()
      modifies this`buckets
      ensures Valid()
      ensures |buckets| >= elems
    {
      var newLength := 4;
      assert PowerOfTwo(2);
      while newLength < elems
        invariant newLength >= 4 && PowerOfTwo(newLength)
      {
        newLength := newLength * 2;
      }
      var newList: seq<seq<LRUHandle>> := seq(newLength, _ => []);
      var count, i := 0, 0;
      ghost var moved: set<LRUHandle> := {};
      while i < |buckets|
        invariant Valid() && i <= |buckets| && |newList| == newLength && Distributed(newList, moved) && count == |moved|
        invariant forall h | h in members :: h in moved <==> Slot(h, |buckets|) < i
        invariant moved <= members
      {
        newList, moved, count := MoveChain(buckets[i], newList, moved, count);
        i := i + 1;
      }
      assert moved == members;
      assert elems == count;
      buckets := newList;
    }
  }

  /** The inner loop of `Resize`: a chain is put entry by entry in front of the new chains. */
  method MoveChain(chain: seq<LRUHandle>, list0: seq<seq<LRUHandle>>, ghost moved0: set<LRUHandle>, count0: nat)
    returns (newList: seq<seq<LRUHandle>>, ghost moved: set<LRUHandle>, count: nat)
    requires NoDup(chain) && Distributed(list0, moved0) && count0 == |moved0| && forall h | h in chain :: h !in moved0
    ensures |newList| == |list0| && Distributed(newList, moved) && count == |moved|
    ensures forall h :: h in moved <==> h in moved0 || h in chain
  {
    newList, moved, count := list0, moved0, count0;
    var j := 0;
    while j < |chain|
      invariant j <= |chain| && |newList| == |list0| && Distributed(newList, moved) && count == |moved|
      invariant forall h :: h in moved <==> h in moved0 || h in chain[..j]
    {
      var h := chain[j];
      assert h !in chain[..j];
      newList, count := MoveEntry(h, newList, moved, count);
      moved := moved + {h};
      TakeMore(chain, j, h);
      j := j + 1;
    }
    assert chain[..|chain|] == chain;
  }

  method MoveEntry(h: LRUHandle, list: seq<seq<LRUHandle>>, ghost moved: set<LRUHandle>, count: nat)
    returns (newList: seq<seq<LRUHandle>>, newCount: nat)
    requires Distributed(list, moved) && h !in moved && count == |moved|
    ensures Distributed(newList, moved + {h}) && |newList| == |list| && newCount == |moved + {h}|
  {
    var b := And(h.hash, |list| - 1);
    Prepended(list, moved, b, h);
    newList, newCount := list[b := [h] + list[b]], count + 1;
  }

  lemma Prepended(buckets: seq<seq<LRUHandle>>, members: set<LRUHandle>, b: nat, h: LRUHandle)
    requires Distributed(buckets, members) && h !in members && b == Slot(h, |buckets|)
    ensures Distributed(buckets[b := [h] + buckets[b]], members + {h})
  {
  }

  lemma Appended(buckets: seq<seq<LRUHandle>>, members: set<LRUHandle>, b: nat, h: LRUHandle)
    requires Distributed(buckets, members) && h !in members && b == Slot(h, |buckets|)
    ensures Distributed(buckets[b := buckets[b] + [h]], members + {h})
  {
  }

  lemma Replaced(buckets: seq<seq<LRUHandle>>, members: set<LRUHandle>, b: nat, i: nat, h: LRUHandle)
    requires Distributed(buckets, members) && h !in members && b == Slot(h, |buckets|) && i < |buckets[b]|
    ensures Distributed(buckets[b := buckets[b][i := h]], members - {buckets[b][i]} + {h})
  {
    NoDupUpdate(buckets[b], i, h);
    ChainChanged(buckets, members, b, buckets[b][i := h], members - {buckets[b][i]} + {h});
  }

  lemma Removed(buckets: seq<seq<LRUHandle>>, members: set<LRUHandle>, b: nat, i: nat)
    requires Distributed(buckets, members) && b < |buckets| && i < |buckets[b]|
    ensures Distributed(buckets[b := buckets[b][..i] + buckets[b][i + 1..]], members - {buckets[b][i]})
  {
    NoDupDrop(buckets[b], i);
    ChainChanged(buckets, members, b, buckets[b][..i] + buckets[b][i + 1..], members - {buckets[b][i]});
  }

  /** Only chain `b` and its entries change. */
  lemma ChainChanged(buckets: seq<seq<LRUHandle>>, members: set<LRUHandle>, b: nat, chain: seq<LRUHandle>,
                     members': set<LRUHandle>)
    requires Distributed(buckets, members) && b < |buckets| && NoDup(chain)
    requires forall h | h in chain :: h in members' && Slot(h, |buckets|) == b
    requires forall h | h in members' && Slot(h, |buckets|) == b :: h in chain
    requires forall h | Slot(h, |buckets|) != b :: h in members' <==> h in members
    ensures Distributed(buckets[b := chain], members')
  {
  }
}
