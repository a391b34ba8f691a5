/**
 What a lookup in a table gives: of the versions of a user key the newest that the snapshot sees.
*/
module TableVersions {
  import opened Coding
  import opened Blocks
  import opened BlockIterators
  import opened Comparators
  import opened TableFormat
  import opened Sequences

  /** A key with a tag whose type is one the store writes. */
  predicate Tagged(k: Key) {
    |k| >= TAG_SIZE && TagOf(k) % 256 <= 1
  }

  function SequenceIn(k: Key): nat
    requires |k| >= TAG_SIZE
  {
    TagOf(k) / 256
  }

  /** A version of `user` that a snapshot at `s` sees. */
  predicate SeenAt(k: Key, user: Key, s: nat) {
    |k| >= TAG_SIZE && UserOf(k) == user && SequenceIn(k) <= s
  }

  /** `r` is the newest version of `user` at `s` among the pairs, or not of that user key if there is none. */
  ghost predicate Newest(pairs: seq<Pair>, user: Key, s: nat, r: Optional<Pair>) {
    if r.Some? && |r.value.key| >= TAG_SIZE && UserOf(r.value.key) == user then
      && r.value in pairs && SequenceIn(r.value.key) <= s
      && forall p | p in pairs && SeenAt(p.key, user, s) :: SequenceIn(p.key) <= SequenceIn(r.value.key)
    else forall p | p in pairs :: !SeenAt(p.key, user, s)
  }

  /** The key a read of `user` at `s` seeks (`LookupKey`). */
  lemma LookupKeyIs(user: Key, s: nat)
    requires s * 256 + 1 < TWO_64
    ensures var k := WithTag(user, s * 256 + 1);
      |k| >= TAG_SIZE && UserOf(k) == user && TagOf(k) % 256 == 1 && SequenceIn(k) == s
  {
    TagRead(user, s * 256 + 1);
  }

  /** Seeking a version passes over newer ones only. */
  lemma PassedIsNewer(k: Key, target: Key)
    requires Tagged(k) && |target| >= TAG_SIZE && TagOf(target) % 256 == 1 && UserOf(k) == UserOf(target)
    ensures InternalLess(k, target) <==> SequenceIn(k) > SequenceIn(target)
  {
    Irreflexive(UserOf(k));
  }

  /** Behind a key of the same or a higher user key there is no newer version. */
  lemma BehindIsOlder(k: Key, l: Key)
    requires |k| >= TAG_SIZE && |l| >= TAG_SIZE && InternalLess(k, l)
    ensures UserOf(k) == UserOf(l) ==> SequenceIn(l) <= SequenceIn(k)
    ensures UserOf(k) != UserOf(l) ==> BytesLess(UserOf(k), UserOf(l))
  {
    Irreflexive(UserOf(k));
  }

  /** The first pair at or after the target is the newest version of its user key, or of another user key. */
  lemma FirstIsNewest(pairs: seq<Pair>, target: Key, q: nat)
    requires SortedBy(InternalLess, pairs) && q <= |pairs| && (forall p | p in pairs :: Tagged(p.key))
    requires |target| >= TAG_SIZE && TagOf(target) % 256 == 1
    requires (forall i | 0 <= i < q :: InternalLess(pairs[i].key, target))
    requires q < |pairs| ==> !InternalLess(pairs[q].key, target)
    ensures Newest(pairs, UserOf(target), SequenceIn(target), if q < |pairs| then Some(pairs[q]) else None)
  {
    var user, s := UserOf(target), SequenceIn(target);
    forall i | 0 <= i < |pairs| && SeenAt(pairs[i].key, user, s)
      ensures q < |pairs| && UserOf(pairs[q].key) == user && SequenceIn(pairs[i].key) <= SequenceIn(pairs[q].key)
    {
      SeenIsBehind(pairs, target, q, i);
    }
    if q < |pairs| && UserOf(pairs[q].key) == user {
      PassedIsNewer(pairs[q].key, target);
    }
  }

  lemma SeenIsBehind(pairs: seq<Pair>, target: Key, q: nat, i: nat)
    requires SortedBy(InternalLess, pairs) && q <= |pairs| && (forall p | p in pairs :: Tagged(p.key))
    requires |target| >= TAG_SIZE && TagOf(target) % 256 == 1
    requires (forall j | 0 <= j < q :: InternalLess(pairs[j].key, target))
    requires q < |pairs| ==> !InternalLess(pairs[q].key, target)
    requires i < |pairs| && SeenAt(pairs[i].key, UserOf(target), SequenceIn(target))
    ensures q <= i && UserOf(pairs[q].key) == UserOf(target)
    ensures SequenceIn(pairs[i].key) <= SequenceIn(pairs[q].key)
  {
    assert pairs[i] in pairs;
    PassedIsNewer(pairs[i].key, target);
    assert pairs[q] in pairs;
    if q < i {
      BehindIsOlder(pairs[q].key, pairs[i].key);
    }
  }

  // ---------- all blocks ----------

  /** No key of `pairs` is above `k`. */
  ghost predicate UpTo(pairs: seq<Pair>, k: Key) {
    forall i | 0 <= i < |pairs| :: !InternalLess(k, pairs[i].key)
  }

  lemma BlockUpTo(pairs: seq<Pair>, sep: Key)
    requires GoodBlock(pairs) && !InternalLess(sep, Last(pairs))
    ensures UpTo(pairs, sep)
  {
    forall i | 0 <= i < |pairs| ensures !InternalLess(sep, pairs[i].key) {
      if InternalLess(sep, pairs[i].key) && i < |pairs| - 1 {
        LessTransitive(sep, pairs[i].key, Last(pairs));
      }
    }
  }

  /** Pairs up to a separator, and behind them a block that starts above it. */
  lemma AppendBlock(a: seq<Pair>, sep: Key, b: seq<Pair>, next: Key)
    requires SortedBy(InternalLess, a) && UpTo(a, sep) && GoodBlock(b) && InternalLess(sep, b[0].key)
    requires !InternalLess(next, Last(b))
    ensures SortedBy(InternalLess, a + b) && UpTo(a + b, next)
  {
    BlockUpTo(b, next);
    forall i, j | 0 <= i < j < |a + b| ensures InternalLess((a + b)[i].key, (a + b)[j].key) {
      if i < |a| <= j {
        AcrossSeparator(a[i].key, sep, b, j - |a|);
      }
    }
    forall i | 0 <= i < |a| ensures !InternalLess(next, a[i].key) {
      AcrossSeparator(a[i].key, sep, b, |b| - 1);
      LessThenAtMost(a[i].key, Last(b), next);
      Asymmetric(a[i].key, next);
    }
  }

  lemma AcrossSeparator(k: Key, sep: Key, b: seq<Pair>, j: nat)
    requires !InternalLess(sep, k) && GoodBlock(b) && InternalLess(sep, b[0].key) && j < |b|
    ensures InternalLess(k, b[j].key)
  {
    AtMostThenLess(k, sep, b[0].key);
    if j > 0 {
      LessTransitive(k, b[0].key, b[j].key);
    }
  }

  /** The pairs of all blocks are in order. */
  lemma {:induction false} AllInOrder(blocks: seq<seq<Pair>>, seps: seq<Key>, n: nat)
    requires Separated(blocks, seps) && n <= |seps|
    ensures SortedBy(InternalLess, Concat(blocks[..n])) && (n > 0 ==> UpTo(Concat(blocks[..n]), seps[n - 1]))
  {
    if n > 0 {
      AllInOrder(blocks, seps, n - 1);
      assert GoodBlock(blocks[n - 1]) && Separates(blocks, seps, n - 1);
      assert blocks[..n][..n - 1] == blocks[..n - 1];
      var before, b := Concat(blocks[..n - 1]), blocks[n - 1];
      assert Concat(blocks[..n]) == before + b;
      if n == 1 {
        assert before + b == b;
        BlockUpTo(b, seps[0]);
      } else {
        assert Separates(blocks, seps, n - 2);
        AppendBlock(before, seps[n - 2], b, seps[n - 1]);
      }
    }
  }

  lemma {:induction false} ScanIndex(pairs: seq<Pair>, k: Key) returns (q: nat)
    ensures q <= |pairs| && (forall i | 0 <= i < q :: InternalLess(pairs[i].key, k))
    ensures q < |pairs| ==> !InternalLess(pairs[q].key, k)
    ensures Scan(pairs, k) == if q < |pairs| then Some(pairs[q]) else None
  {
    if pairs == [] || !InternalLess(pairs[0].key, k) {
      q := 0;
    } else {
      var p := ScanIndex(pairs[1..], k);
      q := p + 1;
    }
  }

  /** What a lookup delivers is the newest version that the snapshot of the target sees, among all pairs. */
  lemma DeliversNewest(blocks: seq<seq<Pair>>, seps: seq<Key>, target: Key, r: Optional<Pair>)
    requires Separated(blocks, seps) && |seps| == |blocks| && (forall p | p in Concat(blocks) :: Tagged(p.key))
    requires |target| >= TAG_SIZE && TagOf(target) % 256 == 1 && Delivers(r, ScanAll(blocks, target), target)
    ensures Newest(Concat(blocks), UserOf(target), SequenceIn(target), r)
  {
    var all := Concat(blocks);
    assert blocks[..|seps|] == blocks;
    AllInOrder(blocks, seps, |seps|);
    ScanConcat(blocks, target);
    var q := ScanIndex(all, target);
    FirstIsNewest(all, target, q);
  }
}
