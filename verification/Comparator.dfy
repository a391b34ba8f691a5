/**
 The bytewise comparator (`util/comparator.cc`) and the internal key comparator over it
 (`db/dbformat.cc`), on the byte strings that tables store, with the short keys they make up for an index.
*/
module Comparators {
  import opened Coding
  import opened Blocks
  import InternalKeys

  // ---------- the order of bytes ----------

  predicate BytesLess(a: Key, b: Key) {
    if b == [] then false
    else if a == [] then true
    else if a[0] != b[0] then a[0] < b[0]
    else BytesLess(a[1..], b[1..])
  }

  /** The first `d` bytes are the same, and then `a` ends or has the smaller byte. */
  ghost predicate BelowAt(a: Key, b: Key, d: nat) {
    d <= |a| && d < |b| && a[..d] == b[..d] && (d == |a| || a[d] < b[d])
  }

  lemma {:induction false} BelowAtIs(a: Key, b: Key, d: nat)
    requires BelowAt(a, b, d)
    ensures BytesLess(a, b)
  {
    if d > 0 {
      assert a[0] == a[..d][0] == b[..d][0] == b[0];
      assert a[1..][..d - 1] == a[..d][1..] && b[1..][..d - 1] == b[..d][1..];
      BelowAtIs(a[1..], b[1..], d - 1);
    }
  }

  lemma {:induction false} FirstDifference(a: Key, b: Key) returns (d: nat)
    requires BytesLess(a, b)
    ensures BelowAt(a, b, d)
  {
    if a == [] || a[0] != b[0] {
      d := 0;
    } else {
      var e := FirstDifference(a[1..], b[1..]);
      d := e + 1;
      assert a[..d] == [a[0]] + a[1..][..e] && b[..d] == [b[0]] + b[1..][..e];
    }
  }

  /** The first differing byte decides; a proper prefix is below. */
  lemma ByteOrder(a: Key, b: Key)
    ensures BytesLess(a, b) <==> exists d :: BelowAt(a, b, d)
  {
    if BytesLess(a, b) {
      var d := FirstDifference(a, b);
    }
    if d :| BelowAt(a, b, d) {
      BelowAtIs(a, b, d);
    }
  }

  lemma {:induction false} Irreflexive(a: Key)
    ensures !BytesLess(a, a)
  {
    if a != [] {
      Irreflexive(a[1..]);
    }
  }

  lemma {:induction false} Transitive(a: Key, b: Key, c: Key)
    requires BytesLess(a, b) && BytesLess(b, c)
    ensures BytesLess(a, c)
  {
    if a != [] && a[0] == b[0] && b[0] == c[0] {
      Transitive(a[1..], b[1..], c[1..]);
    }
  }

  lemma {:induction false} Total(a: Key, b: Key)
    ensures a == b || BytesLess(a, b) || BytesLess(b, a)
  {
    if a != [] && b != [] && a[0] == b[0] {
      Total(a[1..], b[1..]);
      if a[1..] == b[1..] {
        assert a == [a[0]] + a[1..] && b == [b[0]] + b[1..];
      }
    }
  }

  lemma {:induction false} BehindPrefix(p: Key, a: Key, b: Key)
    ensures BytesLess(p + a, p + b) <==> BytesLess(a, b)
  {
    if p == [] {
      assert p + a == a && p + b == b;
    } else {
      assert (p + a)[1..] == p[1..] + a && (p + b)[1..] == p[1..] + b;
      BehindPrefix(p[1..], a, b);
    }
  }

  // ---------- separators ----------

  /** `start` up to the first byte where it differs from `limit`, that byte incremented, if that is below `limit`. */
  function Separator(start: Key, limit: Key): Key {
    var d := CommonPrefix(start, limit);
    if d < |start| && d < |limit| && start[d] < 255 && start[d] + 1 < limit[d] then
      start[..d] + [start[d] + 1]
    else
      start
  }

  /** `BytewiseComparatorImpl::FindShortestSeparator`. */
  method FindShortestSeparator(start: Key, limit: Key) returns (r: Key)
    ensures r == Separator(start, limit)
  {
    var minLength := if |start| < |limit| then |start| else |limit|;
    var diffIndex := 0;
    while diffIndex < minLength && start[diffIndex] == limit[diffIndex]
      invariant diffIndex <= minLength && start[..diffIndex] == limit[..diffIndex]
    {
      diffIndex := diffIndex + 1;
    }
    r := start;
    if diffIndex < minLength {
      var diffByte := start[diffIndex];
      if diffByte < 255 && diffByte + 1 < limit[diffIndex] {
        r := start[diffIndex := diffByte + 1][..diffIndex + 1];
      }
    }
    PrefixIsCommon(start, limit, diffIndex);
  }

  /** A separator is at or above the start and, if shortened, strictly between the two. */
  lemma {:induction false} SeparatorBetween(start: Key, limit: Key)
    ensures var r := Separator(start, limit);
      && |r| <= |start| && !BytesLess(r, start)
      && (r != start ==> BytesLess(start, r) && BytesLess(r, limit))
  {
    var d, r := CommonPrefix(start, limit), Separator(start, limit);
    Irreflexive(start);
    if r != start {
      var p, b := start[..d], start[d] + 1;
      Divided(start, d);
      Divided(limit, d);
      IncrementBetween(p, start[d..], limit[d..], b);
      assert r == p + [b] && start == p + start[d..] && limit == p + limit[d..];
    }
  }

  /** `d` is where two keys differ first. */
  ghost predicate DifferAt(start: Key, limit: Key, d: nat) {
    d < |start| && d < |limit| && start[..d] == limit[..d] && start[d] != limit[d]
  }

  lemma {:induction false} CommonIs(start: Key, limit: Key, d: nat)
    requires DifferAt(start, limit, d)
    ensures CommonPrefix(start, limit) == d
  {
    if d > 0 {
      assert start[0] == start[..d][0] == limit[..d][0] == limit[0];
      assert start[1..][..d - 1] == start[..d][1..] && limit[1..][..d - 1] == limit[..d][1..];
      CommonIs(start[1..], limit[1..], d - 1);
    }
  }

  /** A key is shortened exactly if there is room for a key between it and the limit at the first difference. */
  lemma SeparatorIs(start: Key, limit: Key, d: nat)
    requires DifferAt(start, limit, d)
    ensures Separator(start, limit) ==
      if start[d] < 255 && start[d] + 1 < limit[d] then start[..d] + [start[d] + 1] else start
  {
    CommonIs(start, limit, d);
  }

  lemma {:induction false} PrefixSeparator(start: Key, limit: Key)
    requires start <= limit || limit <= start
    ensures Separator(start, limit) == start
    ensures CommonPrefix(start, limit) == if |start| < |limit| then |start| else |limit|
  {
    if start != [] && limit != [] {
      PrefixSeparator(start[1..], limit[1..]);
    }
  }

  /** What is behind a prefix does not matter for keys that are no longer than it. */
  lemma {:induction false} OnlyPrefix(x: Key, p: Key, a: Key, b: Key)
    requires |x| <= |p| && a != [] && b != []
    ensures BytesLess(x, p + a) <==> BytesLess(x, p + b)
  {
    if x != [] {
      assert (p + a)[1..] == p[1..] + a && (p + b)[1..] == p[1..] + b;
      OnlyPrefix(x[1..], p[1..], a, b);
    }
  }

  /** No key from the start on and below the limit is shorter than the separator that was shortened. */
  lemma SeparatorIsShortest(start: Key, limit: Key, x: Key)
    requires Separator(start, limit) != start
    requires !BytesLess(x, start) && BytesLess(x, limit)
    ensures |x| >= |Separator(start, limit)|
  {
    var d := CommonPrefix(start, limit);
    if |x| <= d {
      Divided(start, d);
      Divided(limit, d);
      OnlyPrefix(x, start[..d], start[d..], limit[d..]);
    }
  }

  lemma Divided(s: Key, d: nat)
    requires d <= |s|
    ensures s == s[..d] + s[d..]
  {
  }

  /** A common prefix and a byte between those that differ. */
  lemma {:induction false} IncrementBetween(p: Key, start: Key, limit: Key, b: Byte)
    requires start != [] && limit != [] && start[0] < b < limit[0]
    ensures BytesLess(p + start, p + [b]) && !BytesLess(p + [b], p + start) && BytesLess(p + [b], p + limit)
  {
    BehindPrefix(p, start, [b]);
    BehindPrefix(p, [b], start);
    BehindPrefix(p, [b], limit);
  }

  /** The first byte that can be incremented, incremented, and the rest cut off. */
  function Successor(key: Key): Key {
    if key == [] then [] else if key[0] < 255 then [key[0] + 1] else [key[0]] + Successor(key[1..])
  }

  lemma {:induction false} SuccessorAbove(key: Key)
    ensures var r := Successor(key); |r| <= |key| && (r == key || BytesLess(key, r))
  {
    if key != [] && key[0] == 255 {
      SuccessorAbove(key[1..]);
      assert key == [key[0]] + key[1..];
    }
  }

  /** Up to the first byte that can be incremented a key is kept, and cut off behind it. */
  lemma {:induction false} SuccessorIs(key: Key, d: nat)
    requires d < |key| && key[d] < 255 && forall i | 0 <= i < d :: key[i] == 255
    ensures Successor(key) == key[..d] + [key[d] + 1]
  {
    if d > 0 {
      SuccessorIs(key[1..], d - 1);
      assert key[..d] == [key[0]] + key[1..][..d - 1];
    }
  }

  lemma {:induction false} NoSuccessor(key: Key)
    requires forall i | 0 <= i < |key| :: key[i] == 255
    ensures Successor(key) == key
  {
    if key != [] {
      NoSuccessor(key[1..]);
      assert key == [key[0]] + key[1..];
    }
  }

  /** No key at or above a key is shorter than its short successor. */
  lemma {:induction false} SuccessorIsShortest(key: Key, x: Key)
    requires !BytesLess(x, key)
    ensures |x| >= |Successor(key)|
  {
    if key != [] && key[0] == 255 {
      SuccessorIsShortest(key[1..], x[1..]);
    }
  }

  /** `BytewiseComparatorImpl::FindShortSuccessor`. */
  method FindShortSuccessor(key: Key) returns (r: Key)
    ensures r == Successor(key)
  {
    var i := 0;
    while i < |key|
      invariant i <= |key| && Successor(key) == key[..i] + Successor(key[i..])
    {
      if key[i] != 255 {
        r := key[i := key[i] + 1][..i + 1];
        return;
      }
      assert key[i..][1..] == key[i + 1..];
      assert key[..i] + ([key[i]] + Successor(key[i + 1..])) == key[..i + 1] + Successor(key[i + 1..]);
      i := i + 1;
    }
    r := key;
  }

  // ---------- internal keys ----------

  const TAG_SIZE: nat := 8

  /** `PackSequenceAndType(kMaxSequenceNumber, kValueTypeForSeek)`. */
  const SEEK_TAG: nat := 0xFFFF_FFFF_FFFF_FF01

  function UserOf(k: Key): Key
    requires |k| >= TAG_SIZE
  {
    k[..|k| - TAG_SIZE]
  }

  function TagOf(k: Key): nat
    requires |k| >= TAG_SIZE
  {
    ReadFixed(k[|k| - TAG_SIZE..])
  }

  function WithTag(user: Key, tag: nat): (k: Key)
    ensures |k| == |user| + TAG_SIZE && UserOf(k) == user
  {
    user + Fixed(tag, TAG_SIZE)
  }

  /** `InternalKeyComparator::Compare`; strings too short for a tag, which no table has, come first. */
  predicate InternalLess(a: Key, b: Key) {
    if |a| < TAG_SIZE || |b| < TAG_SIZE then
      (if |a| < TAG_SIZE && |b| < TAG_SIZE then BytesLess(a, b) else |a| < TAG_SIZE)
    else BytesLess(UserOf(a), UserOf(b)) || (UserOf(a) == UserOf(b) && TagOf(a) > TagOf(b))
  }

  lemma {:induction false} SameFixed(a: Key, b: Key)
    requires |a| == |b| && ReadFixed(a) == ReadFixed(b)
    ensures a == b
  {
    if a != [] {
      SameFixed(a[1..], b[1..]);
      assert a == [a[0]] + a[1..] && b == [b[0]] + b[1..];
    }
  }

  lemma LessTotal(a: Key, b: Key)
    ensures a == b || InternalLess(a, b) || InternalLess(b, a)
  {
    if |a| < TAG_SIZE || |b| < TAG_SIZE {
      Total(a, b);
    } else {
      Total(UserOf(a), UserOf(b));
      if UserOf(a) == UserOf(b) && TagOf(a) == TagOf(b) {
        SameFixed(a[|a| - TAG_SIZE..], b[|b| - TAG_SIZE..]);
        assert a == UserOf(a) + a[|a| - TAG_SIZE..] && b == UserOf(b) + b[|b| - TAG_SIZE..];
      }
    }
  }

  lemma LessTransitive(a: Key, b: Key, c: Key)
    requires InternalLess(a, b) && InternalLess(b, c)
    ensures InternalLess(a, c)
  {
    if |a| < TAG_SIZE && |b| < TAG_SIZE && |c| < TAG_SIZE {
      Transitive(a, b, c);
    } else if |a| >= TAG_SIZE && |b| >= TAG_SIZE && |c| >= TAG_SIZE {
      if BytesLess(UserOf(a), UserOf(b)) && BytesLess(UserOf(b), UserOf(c)) {
        Transitive(UserOf(a), UserOf(b), UserOf(c));
      }
    }
  }

  lemma Asymmetric(a: Key, b: Key)
    requires InternalLess(a, b)
    ensures !InternalLess(b, a) && a != b
  {
    Irreflexive(a);
    if |a| >= TAG_SIZE {
      Irreflexive(UserOf(a));
    }
    if InternalLess(b, a) {
      LessTransitive(a, b, a);
    }
  }

  lemma AtMostThenLess(a: Key, b: Key, c: Key)
    requires !InternalLess(b, a) && InternalLess(b, c)
    ensures InternalLess(a, c)
  {
    LessTotal(a, b);
    if a != b {
      LessTransitive(a, b, c);
    }
  }

  lemma LessThenAtMost(a: Key, b: Key, c: Key)
    requires InternalLess(a, b) && !InternalLess(c, b)
    ensures InternalLess(a, c)
  {
    LessTotal(b, c);
    if b != c {
      LessTransitive(a, b, c);
    }
  }

  /** The order in which tables keep their keys is a strict total order. */
  lemma LessIsOrder()
    ensures InternalKeys.StrictTotalOrder(InternalLess)
  {
    forall a: Key ensures !InternalLess(a, a) {
      Irreflexive(a);
      if |a| >= TAG_SIZE {
        Irreflexive(UserOf(a));
      }
    }
    forall a: Key, b: Key, c: Key | InternalLess(a, b) && InternalLess(b, c) ensures InternalLess(a, c) {
      LessTransitive(a, b, c);
    }
    forall a: Key, b: Key ensures a == b || InternalLess(a, b) || InternalLess(b, a) {
      LessTotal(a, b);
    }
  }

  lemma TagRead(user: Key, tag: nat)
    requires tag < TWO_64
    ensures TagOf(WithTag(user, tag)) == tag
  {
    Pow256Of4And8();
    FixedRoundTrip(tag, TAG_SIZE);
    assert WithTag(user, tag)[|user|..] == Fixed(tag, TAG_SIZE);
  }

  /** Of one user key newer versions come first, and of one sequence number the higher type. */
  lemma NewerFirst(user: Key, s: nat, t: Byte, s': nat, t': Byte)
    requires s * 256 + t < TWO_64 && s' * 256 + t' < TWO_64
    ensures InternalLess(WithTag(user, s * 256 + t), WithTag(user, s' * 256 + t')) <==> s > s' || (s == s' && t > t')
  {
    TagRead(user, s * 256 + t);
    TagRead(user, s' * 256 + t');
    Irreflexive(user);
  }

  /** Across user keys the order of these decides. */
  lemma UsersFirst(a: Key, tag: nat, b: Key, tag': nat)
    requires a != b
    ensures InternalLess(WithTag(a, tag), WithTag(b, tag')) <==> BytesLess(a, b)
  {
  }

  /** With user keys numbered in byte order, encoded keys are in the order of the keys they encode. */
  lemma LessIsBefore(k: InternalKeys.InternalKey, user: Key, l: InternalKeys.InternalKey, user': Key)
    requires k.sequence <= InternalKeys.MAX_SEQUENCE && l.sequence <= InternalKeys.MAX_SEQUENCE
    requires (k.user < l.user <==> BytesLess(user, user')) && (k.user == l.user <==> user == user')
    ensures InternalLess(WithTag(user, InternalKeys.Pack(k)), WithTag(user', InternalKeys.Pack(l)))
        <==> InternalKeys.Before(k, l)
  {
    if user == user' {
      NewerFirst(user, k.sequence, InternalKeys.TypeCode(k.kind), l.sequence, InternalKeys.TypeCode(l.kind));
    } else {
      UsersFirst(user, InternalKeys.Pack(k), user', InternalKeys.Pack(l));
    }
  }

  lemma BytesLessIsOrder()
    ensures InternalKeys.StrictTotalOrder(BytesLess)
  {
    forall a: Key ensures !BytesLess(a, a) {
      Irreflexive(a);
    }
    forall a: Key, b: Key, c: Key | BytesLess(a, b) && BytesLess(b, c) ensures BytesLess(a, c) {
      Transitive(a, b, c);
    }
    forall a: Key, b: Key ensures a == b || BytesLess(a, b) || BytesLess(b, a) {
      Total(a, b);
    }
  }

  /** A shortened index key has a user key strictly between those of its neighbours. */
  ghost predicate Apart(last: Key, sep: Key, next: Key) {
    && |last| >= TAG_SIZE && |sep| >= TAG_SIZE && |next| >= TAG_SIZE
    && (sep == last || (BytesLess(UserOf(last), UserOf(sep)) && BytesLess(UserOf(sep), UserOf(next))))
  }

  /** An internal key with a shorter, higher user key in place of its own, if `user` is one. */
  function Shortened(key: Key, user: Key): Key
    requires |key| >= TAG_SIZE
  {
    if |user| < |UserOf(key)| && BytesLess(UserOf(key), user) then WithTag(user, SEEK_TAG) else key
  }

  lemma NotBelow(a: Key, b: Key)
    requires BytesLess(b, a)
    ensures !BytesLess(a, b) && a != b
  {
    Irreflexive(a);
    if BytesLess(a, b) {
      Transitive(a, b, a);
    }
  }

  /** `InternalKeyComparator::FindShortestSeparator`. */
  method FindSeparator(start: Key, limit: Key) returns (r: Key)
    requires |start| >= TAG_SIZE && |limit| >= TAG_SIZE
    ensures r == Shortened(start, Separator(UserOf(start), UserOf(limit)))
  {
    var tmp := FindShortestSeparator(UserOf(start), UserOf(limit));
    r := start;
    if |tmp| < |UserOf(start)| && BytesLess(UserOf(start), tmp) {
      r := tmp + Fixed(SEEK_TAG, TAG_SIZE);
    }
  }

  /** The index key between two blocks. */
  lemma SeparatorApart(start: Key, limit: Key)
    requires |start| >= TAG_SIZE && |limit| >= TAG_SIZE && InternalLess(start, limit)
    ensures var r := Shortened(start, Separator(UserOf(start), UserOf(limit)));
      Apart(start, r, limit) && InternalLess(r, limit) && !InternalLess(r, start)
  {
    var tmp := Separator(UserOf(start), UserOf(limit));
    Irreflexive(UserOf(start));
    SeparatorBetween(UserOf(start), UserOf(limit));
    if Shortened(start, tmp) != start {
      NotBelow(tmp, UserOf(start));
    }
  }

  /** `InternalKeyComparator::FindShortSuccessor`. */
  method FindSuccessor(key: Key) returns (r: Key)
    requires |key| >= TAG_SIZE
    ensures r == Shortened(key, Successor(UserOf(key)))
  {
    var tmp := FindShortSuccessor(UserOf(key));
    r := key;
    if |tmp| < |UserOf(key)| && BytesLess(UserOf(key), tmp) {
      r := tmp + Fixed(SEEK_TAG, TAG_SIZE);
    }
  }

  /** The index key after the last block. */
  lemma SuccessorNotBelow(key: Key)
    requires |key| >= TAG_SIZE
    ensures var r := Shortened(key, Successor(UserOf(key)));
      |r| >= TAG_SIZE && !InternalLess(r, key) && (r == key || BytesLess(UserOf(key), UserOf(r)))
  {
    var tmp := Successor(UserOf(key));
    Irreflexive(UserOf(key));
    SuccessorAbove(UserOf(key));
    if Shortened(key, tmp) != key {
      NotBelow(tmp, UserOf(key));
    }
  }
}
