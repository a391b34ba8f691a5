/**
 Internal keys (`db/dbformat.h`, `db/dbformat.cc`).

 The store looks at a user key only through the user comparator, so a user key is modelled by
 its position in the comparator's order.  `RanksEmbedAnyOrder` shows that nothing is lost: the
 finitely many keys of a run can be numbered so that any strict total order becomes `<`.
*/
module InternalKeys {

  type UserKey = int

  type Bytes = seq<bv8>

  datatype ValueType = TypeDeletion | TypeValue

  const MAX_SEQUENCE: nat := 0xFF_FFFF_FFFF_FFFF

  datatype InternalKey = InternalKey(user: UserKey, sequence: nat, kind: ValueType)

  datatype Entry = Entry(key: InternalKey, value: Bytes)

  function TypeCode(t: ValueType): nat {
    if t.TypeValue? then 1 else 0
  }

  /** The eight bytes appended to a user key: sequence number and type in one integer. */
  function Pack(k: InternalKey): nat {
    k.sequence * 256 + TypeCode(k.kind)
  }

  /** `InternalKeyComparator::Compare`: increasing user key, then decreasing packed number. */
  function Compare(a: InternalKey, b: InternalKey): int {
    if a.user < b.user then -1
    else if a.user > b.user then 1
    else if Pack(a) > Pack(b) then -1
    else if Pack(a) < Pack(b) then 1
    else 0
  }

  predicate Before(a: InternalKey, b: InternalKey) {
    || a.user < b.user
    || (a.user == b.user && a.sequence > b.sequence)
    || (a.user == b.user && a.sequence == b.sequence && a.kind.TypeValue? && b.kind.TypeDeletion?)
  }

  /** Comparing packed numbers is comparing sequence numbers first and types second. */
  lemma CompareIsOrder(a: InternalKey, b: InternalKey)
    ensures Compare(a, b) < 0 <==> Before(a, b)
    ensures Compare(a, b) > 0 <==> Before(b, a)
    ensures Compare(a, b) == 0 <==> a == b
  {
    if a.user == b.user {
      if a.sequence > b.sequence {
        assert Pack(a) >= 256 * (b.sequence + 1) > Pack(b);
      } else if a.sequence < b.sequence {
        assert Pack(b) >= 256 * (a.sequence + 1) > Pack(a);
      }
    }
  }

  /** The key `LookupKey` builds: it sorts just before every entry of `user` visible at `s`. */
  function SeekKey(user: UserKey, s: nat): InternalKey {
    InternalKey(user, s, TypeValue)
  }

  ghost predicate StrictTotalOrder<K(!new)>(less: (K, K) -> bool) {
    && (forall a :: !less(a, a))
    && (forall a, b, c :: less(a, b) && less(b, c) ==> less(a, c))
    && (forall a, b :: a == b || less(a, b) || less(b, a))
  }

  function Rank<K(!new)>(keys: set<K>, less: (K, K) -> bool, k: K): (r: nat) {
    |set x | x in keys && less(x, k)|
  }

  /** Numbering the keys of any finite set by rank turns any strict total order into `<`. */
  lemma RanksEmbedAnyOrder<K(!new)>(keys: set<K>, less: (K, K) -> bool, a: K, b: K)
    requires StrictTotalOrder(less) && a in keys && b in keys
    ensures less(a, b) <==> Rank(keys, less, a) < Rank(keys, less, b)
  {
    if less(a, b) {
      BelowGrows(keys, less, a, b);
    } else if a != b {
      assert less(b, a);
      BelowGrows(keys, less, b, a);
    }
  }

  lemma BelowGrows<K(!new)>(keys: set<K>, less: (K, K) -> bool, a: K, b: K)
    requires StrictTotalOrder(less) && a in keys && less(a, b)
    ensures Rank(keys, less, a) < Rank(keys, less, b)
  {
    var below := set x | x in keys && less(x, a);
    var above := set x | x in keys && less(x, b);
    assert below <= above;
    assert a in above - below;
    assert below + (above - below) == above;
  }
}
