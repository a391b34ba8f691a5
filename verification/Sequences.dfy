/**
 Values that may be missing, and facts about sequences that the solver is told rather than left to find.
*/
module Sequences {

  datatype Optional<T> = None | Some(value: T)

  lemma Regroup3<T>(a: seq<T>, b: seq<T>, c: seq<T>)
    ensures (a + b) + c == a + (b + c)
  {
  }

  lemma NoneMore<T>(s: seq<T>)
    ensures s + [] == s
  {
  }

  lemma PrefixSame<T>(a: seq<T>, b: seq<T>, n: nat)
    requires n <= |a|
    ensures (a + b)[..n] == a[..n]
  {
  }

  lemma PrefixOfPrefix<T>(s: seq<T>, n: nat, m: nat)
    requires n <= m <= |s|
    ensures s[..m][..n] == s[..n]
  {
  }

  lemma LastOff<T>(s: seq<T>)
    requires s != []
    ensures s == s[..|s| - 1] + [s[|s| - 1]]
  {
  }

  lemma TakeMore<T>(s: seq<T>, n: nat, x: T)
    requires n < |s| && x == s[n]
    ensures s[..n + 1] == s[..n] + [x]
  {
  }

  lemma SliceAppended<T>(a: seq<T>, b: seq<T>)
    ensures (a + b)[|a|..|a| + |b|] == b
  {
  }

  lemma SliceIn<T>(s: seq<T>, longer: seq<T>, i: nat, j: nat)
    requires s <= longer && i <= j <= |s|
    ensures longer[i..j] == s[i..j]
  {
  }
}
