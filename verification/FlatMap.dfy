/**
 The multi-version map a store stands for: a finite set of entries, read at a user key and a
 sequence number.  Everything the store rewrites is judged by what it does to `Read`.
*/
module FlatMap {
  import opened InternalKeys

  datatype Answer = Absent | Present(value: Bytes)

  predicate VisibleAt(e: Entry, u: UserKey, s: nat) {
    e.key.user == u && e.key.sequence <= s
  }

  ghost predicate IsNewest(es: set<Entry>, u: UserKey, s: nat, e: Entry) {
    && e in es && VisibleAt(e, u, s)
    && forall x | x in es && VisibleAt(x, u, s) :: x.key.sequence <= e.key.sequence
  }

  function AnswerOf(e: Entry): Answer {
    if e.key.kind.TypeValue? then Present(e.value) else Absent
  }

  /** The value of `u` seen at snapshot `s`: that of the newest visible entry. */
  ghost function Read(es: set<Entry>, u: UserKey, s: nat): Answer {
    if exists e :: IsNewest(es, u, s, e) then (var e :| IsNewest(es, u, s, e); AnswerOf(e)) else Absent
  }

  /** Every write gets a sequence number of its own. */
  ghost predicate UniqueSequences(es: set<Entry>) {
    forall x, y {:trigger x in es, y in es, SameSequence(x, y)} | x in es && y in es && SameSequence(x, y) :: x == y
  }

  predicate SameSequence(x: Entry, y: Entry) {
    x.key.sequence == y.key.sequence
  }

  ghost predicate NoneVisible(es: set<Entry>, u: UserKey, s: nat) {
    forall x | x in es :: !VisibleAt(x, u, s)
  }

  lemma ReadIs(es: set<Entry>, u: UserKey, s: nat, e: Entry)
    requires UniqueSequences(es) && IsNewest(es, u, s, e)
    ensures Read(es, u, s) == AnswerOf(e)
  {
    var c :| IsNewest(es, u, s, c) && Read(es, u, s) == AnswerOf(c);
    assert IsNewest(es, u, s, c);
    assert c in es;
    assert c.key.sequence <= e.key.sequence <= c.key.sequence;
    assert SameSequence(c, e);
  }

  lemma {:induction false} NewestExists(es: set<Entry>, u: UserKey, s: nat) returns (e: Entry)
    requires !NoneVisible(es, u, s)
    ensures IsNewest(es, u, s, e)
    decreases es
  {
    var x :| x in es && VisibleAt(x, u, s);
    var rest := es - {x};
    if NoneVisible(rest, u, s) {
      e := x;
    } else {
      var y := NewestExists(rest, u, s);
      e := if y.key.sequence < x.key.sequence then x else y;
    }
    forall z | z in es && VisibleAt(z, u, s) ensures z.key.sequence <= e.key.sequence {
      assert z == x || z in rest;
    }
  }

  /** The two cases of a read, for a proof to split on. */
  lemma ReadCases(es: set<Entry>, u: UserKey, s: nat) returns (none: bool, e: Entry)
    requires UniqueSequences(es)
    ensures none ==> NoneVisible(es, u, s) && Read(es, u, s) == Absent
    ensures !none ==> IsNewest(es, u, s, e) && Read(es, u, s) == AnswerOf(e)
  {
    none := NoneVisible(es, u, s);
    if none {
      e := Entry(InternalKey(u, s, TypeDeletion), []);
    } else {
      e := NewestExists(es, u, s);
      ReadIs(es, u, s, e);
    }
  }

  /** Adding entries that are newer than everything present changes two equivalent sets alike. */
  lemma ReadAfterWrite(a: set<Entry>, b: set<Entry>, fresh_: set<Entry>, last: nat, u: UserKey, s: nat)
    requires UniqueSequences(a + fresh_) && UniqueSequences(b + fresh_)
    requires forall x | x in a + b :: x.key.sequence <= last
    requires forall x | x in fresh_ :: x.key.sequence > last
    requires Read(a, u, s) == Read(b, u, s)
    ensures Read(a + fresh_, u, s) == Read(b + fresh_, u, s)
  {
    var none, e := ReadCases(fresh_, u, s);
    if none {
      OlderPart(a, fresh_, u, s);
      OlderPart(b, fresh_, u, s);
    } else {
      ReadIs(a + fresh_, u, s, e);
      ReadIs(b + fresh_, u, s, e);
    }
  }

  lemma OlderPart(a: set<Entry>, hidden: set<Entry>, u: UserKey, s: nat)
    requires UniqueSequences(a + hidden) && NoneVisible(hidden, u, s)
    ensures Read(a + hidden, u, s) == Read(a, u, s)
  {
    var none, e := ReadCases(a, u, s);
    if none {
      assert NoneVisible(a + hidden, u, s);
    } else {
      ReadIs(a + hidden, u, s, e);
    }
  }

  // ---------- layers ----------

  predicate Supersedes(x: Entry, y: Entry) {
    x.key.user == y.key.user ==> x.key.sequence > y.key.sequence
  }

  lemma NeverItself(e: Entry)
    ensures !Supersedes(e, e)
  {
  }

  lemma OlderNeverSupersedes(y: Entry, x: Entry)
    requires x.key.user == y.key.user && y.key.sequence <= x.key.sequence
    ensures !Supersedes(y, x)
  {
  }

  /** For every user key they share, `a` holds only entries newer than those of `b`. */
  ghost predicate Newer(a: set<Entry>, b: set<Entry>) {
    forall x, y {:trigger x in a, y in b, Supersedes(x, y)} | x in a && y in b :: Supersedes(x, y)
  }

  // ---------- what a merge compaction may forget ----------

  /** Rule (A): a newer entry of the same user key is itself visible at the oldest snapshot. */
  ghost predicate Shadowed(merged: set<Entry>, snap: nat, e: Entry) {
    exists x | x in merged ::
      x.key.user == e.key.user && e.key.sequence < x.key.sequence <= snap
  }

  /** Rule (B): a deletion marker visible at the oldest snapshot, with nothing below it. */
  predicate Obsolete(base: UserKey -> bool, snap: nat, e: Entry) {
    e.key.kind.TypeDeletion? && e.key.sequence <= snap && base(e.key.user)
  }

  ghost predicate Dropped(merged: set<Entry>, base: UserKey -> bool, snap: nat, e: Entry) {
    Shadowed(merged, snap, e) || Obsolete(base, snap, e)
  }

  ghost function Kept(merged: set<Entry>, base: UserKey -> bool, snap: nat): set<Entry> {
    set e | e in merged && !Dropped(merged, base, snap, e)
  }

  /**
   A dropped marker uncovers an old value: the marker is what the oldest snapshot sees of the
   merged entries of `u`, nothing elsewhere hides it, and below it waits a value.
  */
  ghost predicate Uncovers(rest: set<Entry>, merged: set<Entry>, base: UserKey -> bool, snap: nat,
                           u: UserKey, marker: Entry, old_: Entry)
  {
    && IsNewest(rest + merged, u, snap, marker) && marker in merged
    && Obsolete(base, snap, marker)
    && IsNewest(rest, u, marker.key.sequence, old_)
    && old_.key.kind.TypeValue?
  }

  /** Dropping preserves one read unless a dropped marker uncovers a value for that key. */
  lemma DropPreservesRead(rest: set<Entry>, merged: set<Entry>, base: UserKey -> bool, snap: nat, u: UserKey, s: nat)
    requires UniqueSequences(rest + merged) && snap <= s
    requires !exists marker, old_ :: Uncovers(rest, merged, base, snap, u, marker, old_)
    ensures Read(rest + Kept(merged, base, snap), u, s) == Read(rest + merged, u, s)
  {
    var before, after := rest + merged, rest + Kept(merged, base, snap);
    var none, e := ReadCases(before, u, s);
    if none {
      assert NoneVisible(after, u, s);
    } else if e in after {
      ReadIs(after, u, s, e);
    } else {
      assert !Shadowed(merged, snap, e);
      assert Obsolete(base, snap, e);
      AfterDroppedMarker(rest, merged, base, snap, u, s, e);
    }
  }

  /** With the newest visible entry a dropped marker, only an uncovered value could be seen. */
  lemma AfterDroppedMarker(rest: set<Entry>, merged: set<Entry>, base: UserKey -> bool, snap: nat,
                           u: UserKey, s: nat, marker: Entry)
    requires UniqueSequences(rest + merged) && snap <= s
    requires IsNewest(rest + merged, u, s, marker) && marker in merged && marker !in rest
    requires Obsolete(base, snap, marker)
    ensures Read(rest + Kept(merged, base, snap), u, s) == Read(rest, u, marker.key.sequence)
    ensures (exists old_ :: Uncovers(rest, merged, base, snap, u, marker, old_))
        <==> Read(rest, u, marker.key.sequence).Present?
  {
    var kept := Kept(merged, base, snap);
    var t := marker.key.sequence;
    forall x | x in kept ensures !VisibleAt(x, u, s) {
      assert SameSequence(x, marker) ==> x == marker;
      assert VisibleAt(x, u, s) && x != marker ==> Shadowed(merged, snap, x);
    }
    OlderPart(rest, kept, u, s);
    forall x | x in rest && VisibleAt(x, u, s) ensures VisibleAt(x, u, t) {
      assert x in rest + merged;
    }
    assert IsNewest(rest + merged, u, snap, marker);
    var none, e := ReadCases(rest, u, t);
    if none {
      assert NoneVisible(rest, u, s);
    } else {
      assert IsNewest(rest, u, s, e);
      ReadIs(rest, u, s, e);
      if e.key.kind.TypeValue? {
        assert Uncovers(rest, merged, base, snap, u, marker, e);
      }
      forall old_ | Uncovers(rest, merged, base, snap, u, marker, old_) ensures old_ == e {
        assert SameSequence(old_, e);
      }
    }
  }

  /**
   The law of merge compaction: what every snapshot from the oldest on sees of `u` is unchanged
   if and only if no dropped marker uncovers a value of `u`.
  */
  lemma DropLaw(rest: set<Entry>, merged: set<Entry>, base: UserKey -> bool, snap: nat, u: UserKey)
    requires UniqueSequences(rest + merged) && rest !! merged
    ensures (forall s: nat | snap <= s ::
               Read(rest + Kept(merged, base, snap), u, s) == Read(rest + merged, u, s))
        <==> !exists marker, old_ :: Uncovers(rest, merged, base, snap, u, marker, old_)
  {
    if marker, old_ :| Uncovers(rest, merged, base, snap, u, marker, old_) {
      ReadIs(rest + merged, u, snap, marker);
      AfterDroppedMarker(rest, merged, base, snap, u, snap, marker);
      assert Read(rest + Kept(merged, base, snap), u, snap).Present?;
    } else {
      forall s: nat | snap <= s
        ensures Read(rest + Kept(merged, base, snap), u, s) == Read(rest + merged, u, s)
      {
        DropPreservesRead(rest, merged, base, snap, u, s);
      }
    }
  }
}
