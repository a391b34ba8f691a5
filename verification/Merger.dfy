/**
 `MergingIterator` (`table/merger.cc`): several sorted runs behind one cursor, in both directions.
*/
module MergingIterators {
  import opened InternalKeys
  import opened Runs
  import opened Cursors

  // ---------- where the children stand ----------

  ghost predicate SubRun(run: seq<Entry>, all: seq<Entry>) {
    Sorted(run) && Sorted(all) && forall e | e in run :: e in all
  }

  ghost predicate Held(e: Entry, runs: seq<seq<Entry>>) {
    exists j | 0 <= j < |runs| :: e in runs[j]
  }

  ghost predicate KeysApart(a: seq<Entry>, b: seq<Entry>) {
    forall e, f | e in a && f in b :: e.key != f.key
  }

  /** `all` lists the entries of `runs`, which share no key, in order. */
  ghost predicate IsUnion(all: seq<Entry>, runs: seq<seq<Entry>>) {
    && (forall j {:trigger SubRun(runs[j], all)} | 0 <= j < |runs| :: SubRun(runs[j], all))
    && (forall n {:trigger Held(all[n], runs)} | 0 <= n < |all| :: Held(all[n], runs))
    && (forall i, j {:trigger KeysApart(runs[i], runs[j])} | 0 <= i < |runs| && 0 <= j < |runs| && i != j ::
          KeysApart(runs[i], runs[j]))
    && Sorted(all)
  }

  /** How many entries of `run` come before position `n` of `all`. */
  ghost function PosIn(run: seq<Entry>, all: seq<Entry>, n: nat): (p: nat)
    requires n <= |all|
    ensures p <= |run|
  {
    if n < |all| then LowerBound(run, all[n].key) else |run|
  }

  /** Where a child stands that was moved back over everything from position `n` of `all` on. */
  ghost function BackFrom(run: seq<Entry>, all: seq<Entry>, n: nat): (p: nat)
    requires n <= |all|
    ensures p <= |run|
  {
    if PosIn(run, all, n) == 0 then |run| else PosIn(run, all, n) - 1
  }

  /** Keys of a sorted run identify its entries. */
  lemma KeyIdentifies(all: seq<Entry>, e: Entry, f: Entry)
    requires Sorted(all) && e in all && f in all && e.key == f.key
    ensures e == f
  {
    var i :| 0 <= i < |all| && all[i] == e;
    var j :| 0 <= j < |all| && all[j] == f;
    assert (i < j ==> Before(e.key, f.key)) && (j < i ==> Before(f.key, e.key));
  }

  /** An entry of `run` is found at its own key. */
  lemma FoundAtKey(run: seq<Entry>, i: nat)
    requires Sorted(run) && i < |run|
    ensures LowerBound(run, run[i].key) == i
  {
    LowerBoundUnique(run, run[i].key, i);
  }

  predicate Precedes(e: Entry, all: seq<Entry>, n: nat)
    requires n <= |all|
  {
    n == |all| || Before(e.key, all[n].key)
  }

  /** The position is determined by which entries of `run` come before it. */
  lemma PosUnique(run: seq<Entry>, all: seq<Entry>, n: nat, p: nat)
    requires n <= |all| && p <= |run|
    requires forall i | 0 <= i < |run| :: i < p <==> Precedes(run[i], all, n)
    ensures PosIn(run, all, n) == p
  {
    if n < |all| {
      LowerBoundUnique(run, all[n].key, p);
    } else {
      assert run != [] ==> Precedes(run[|run| - 1], all, n);
    }
  }

  /** The child that holds `all[n]` stands on it, the others beyond it. */
  lemma StandsOn(run: seq<Entry>, all: seq<Entry>, n: nat)
    requires SubRun(run, all) && n < |all|
    ensures var p := PosIn(run, all, n);
      && (p < |run| ==> !Before(run[p].key, all[n].key))
      && (all[n] in run ==> p < |run| && run[p] == all[n])
      && (p < |run| && run[p].key == all[n].key ==> all[n] in run)
  {
    var p := PosIn(run, all, n);
    if all[n] in run {
      var i :| 0 <= i < |run| && run[i] == all[n];
      FoundAtKey(run, i);
    }
    if p < |run| && run[p].key == all[n].key {
      assert run[p] in all;
      KeyIdentifies(all, run[p], all[n]);
    }
  }

  /** Stepping over `all[n]` moves only the child that holds it. */
  lemma PosNext(run: seq<Entry>, all: seq<Entry>, n: nat)
    requires SubRun(run, all) && n < |all|
    ensures PosIn(run, all, n + 1) == PosIn(run, all, n) + if all[n] in run then 1 else 0
  {
    var p := PosIn(run, all, n) + if all[n] in run then 1 else 0;
    StandsOn(run, all, n);
    LowerBoundSplits(run, all[n].key);
    forall i | 0 <= i < |run| ensures i < p <==> Before(run[i].key, all[n].key) || run[i] == all[n] {
      if all[n] in run && i != p - 1 {
        assert if i < p - 1 then Before(run[i].key, run[p - 1].key) else Before(run[p - 1].key, run[i].key);
      }
      if all[n] !in run && i == PosIn(run, all, n) {
        assert run[i] in run;
      }
    }
    forall i | 0 <= i < |run| ensures i < p <==> Precedes(run[i], all, n + 1) {
      assert run[i] in run && run[i] in all;
      var m :| 0 <= m < |all| && all[m] == run[i];
      assert m < n ==> Before(all[m].key, all[n].key);
      assert n < m ==> Before(all[n].key, all[m].key);
      assert n + 1 < m ==> Before(all[n + 1].key, all[m].key);
      assert n + 1 < |all| && m <= n ==> Before(all[m].key, all[n + 1].key);
    }
    PosUnique(run, all, n + 1, p);
  }

  lemma PosFirst(run: seq<Entry>, all: seq<Entry>)
    requires SubRun(run, all)
    ensures PosIn(run, all, 0) == 0
  {
    forall i | 0 <= i < |run| ensures !Precedes(run[i], all, 0) {
      assert run[i] in run && run[i] in all;
      var m :| 0 <= m < |all| && all[m] == run[i];
      assert 0 < m ==> Before(all[0].key, all[m].key);
    }
    PosUnique(run, all, 0, 0);
  }

  /** Seeking every child is seeking the union. */
  lemma PosSeek(run: seq<Entry>, all: seq<Entry>, k: InternalKey)
    requires SubRun(run, all)
    ensures PosIn(run, all, LowerBound(all, k)) == LowerBound(run, k)
  {
    var n, p := LowerBound(all, k), LowerBound(run, k);
    LowerBoundSplits(all, k);
    LowerBoundSplits(run, k);
    forall i | 0 <= i < |run| ensures i < p <==> Precedes(run[i], all, n) {
      assert run[i] in run && run[i] in all;
      var m :| 0 <= m < |all| && all[m] == run[i];
      assert (m < n <==> Before(all[m].key, k)) && (i < p <==> Before(run[i].key, k));
      assert n < m ==> Before(all[n].key, all[m].key);
      assert m < n < |all| ==> Before(all[m].key, all[n].key);
    }
    PosUnique(run, all, n, p);
  }

  lemma UnionRun(all: seq<Entry>, runs: seq<seq<Entry>>, j: nat)
    requires IsUnion(all, runs) && j < |runs|
    ensures SubRun(runs[j], all)
  {
  }

  lemma UnionHas(all: seq<Entry>, runs: seq<seq<Entry>>, n: nat) returns (j: nat)
    requires IsUnion(all, runs) && n < |all|
    ensures j < |runs| && all[n] in runs[j]
  {
    assert Held(all[n], runs);
    j :| 0 <= j < |runs| && all[n] in runs[j];
  }

  lemma OnlyOneHas(all: seq<Entry>, runs: seq<seq<Entry>>, n: nat, i: nat, j: nat)
    requires IsUnion(all, runs) && n < |all| && i < |runs| && j < |runs| && i != j && all[n] in runs[i]
    ensures all[n] !in runs[j]
  {
    assert KeysApart(runs[i], runs[j]);
  }

  /** Child `c` stands on the smallest entry a child in `[lo, hi)` stands on; -1 if none stands on any. */
  ghost predicate IsLeast(runs: seq<seq<Entry>>, ps: seq<nat>, lo: nat, hi: nat, c: int)
    requires |ps| == |runs| && hi <= |runs|
  {
    if c == -1 then forall j | lo <= j < hi :: ps[j] >= |runs[j]|
    else
      && lo <= c < hi && ps[c] < |runs[c]|
      && forall j | lo <= j < hi && ps[j] < |runs[j]| :: !Before(runs[j][ps[j]].key, runs[c][ps[c]].key)
  }

  ghost predicate IsGreatest(runs: seq<seq<Entry>>, ps: seq<nat>, lo: nat, hi: nat, c: int)
    requires |ps| == |runs| && hi <= |runs|
  {
    if c == -1 then forall j | lo <= j < hi :: ps[j] >= |runs[j]|
    else
      && lo <= c < hi && ps[c] < |runs[c]|
      && forall j | lo <= j < hi && ps[j] < |runs[j]| :: !Before(runs[c][ps[c]].key, runs[j][ps[j]].key)
  }

  /** Every child at its first entry from `n` on. */
  ghost predicate AllFrom(all: seq<Entry>, runs: seq<seq<Entry>>, ps: seq<nat>, n: nat)
    requires |ps| == |runs| && n <= |all|
  {
    forall j {:trigger ps[j]} | 0 <= j < |runs| :: ps[j] == PosIn(runs[j], all, n)
  }

  /** Every child at its last entry before `n`. */
  ghost predicate AllBackFrom(all: seq<Entry>, runs: seq<seq<Entry>>, ps: seq<nat>, n: nat)
    requires |ps| == |runs| && n <= |all|
  {
    forall j {:trigger ps[j]} | 0 <= j < |runs| :: ps[j] == BackFrom(runs[j], all, n)
  }

  /** The smallest entry the children stand on is the one at the position they stand at. */
  lemma LeastIs(all: seq<Entry>, runs: seq<seq<Entry>>, ps: seq<nat>, c: int, n: nat)
    requires IsUnion(all, runs) && n <= |all| && |ps| == |runs|
    requires AllFrom(all, runs, ps, n) && IsLeast(runs, ps, 0, |runs|, c)
    ensures c == -1 <==> n == |all|
    ensures n < |all| ==> all[n] in runs[c]
  {
    if n < |all| {
      var j := UnionHas(all, runs, n);
      UnionRun(all, runs, j);
      StandsOn(runs[j], all, n);
      UnionRun(all, runs, c);
      StandsOn(runs[c], all, n);
    }
  }

  /** The largest entry the children stand on is the last one before the position. */
  lemma GreatestIs(all: seq<Entry>, runs: seq<seq<Entry>>, ps: seq<nat>, c: int, n: nat)
    requires IsUnion(all, runs) && n <= |all| && |ps| == |runs|
    requires AllBackFrom(all, runs, ps, n) && IsGreatest(runs, ps, 0, |runs|, c)
    ensures c == -1 <==> n == 0
    ensures n > 0 ==> all[n - 1] in runs[c]
  {
    if n > 0 {
      var j := UnionHas(all, runs, n - 1);
      UnionRun(all, runs, j);
      StandsBehind(runs[j], all, n - 1);
      UnionRun(all, runs, c);
      StandsBehind(runs[c], all, n - 1);
    } else {
      forall j | 0 <= j < |runs| ensures ps[j] >= |runs[j]| {
        UnionRun(all, runs, j);
        PosFirst(runs[j], all);
      }
    }
  }

  /** Going back from `n + 1`, the child that holds `all[n]` stands on it, the others before it. */
  lemma StandsBehind(run: seq<Entry>, all: seq<Entry>, n: nat)
    requires SubRun(run, all) && n < |all|
    ensures var p := BackFrom(run, all, n + 1);
      && (p < |run| ==> run[p] == all[n] || Before(run[p].key, all[n].key))
      && (all[n] in run ==> p < |run| && run[p] == all[n])
      && (p < |run| && run[p].key == all[n].key ==> all[n] in run)
  {
    PosNext(run, all, n);
    StandsOn(run, all, n);
  }

  /** Stepping the child that holds `all[n]` brings every child to `n + 1`. */
  lemma AllNext(all: seq<Entry>, runs: seq<seq<Entry>>, ps: seq<nat>, n: nat, m: nat, c: nat) returns (ps': seq<nat>)
    requires IsUnion(all, runs) && n < |all| && m == n + 1 && |ps| == |runs| && c < |runs|
    requires AllFrom(all, runs, ps, n) && all[n] in runs[c]
    ensures ps' == ps[c := ps[c] + 1] && |ps'| == |runs| && AllFrom(all, runs, ps', m)
  {
    ps' := ps[c := ps[c] + 1];
    forall j | 0 <= j < |runs| ensures ps'[j] == PosIn(runs[j], all, m) {
      UnionRun(all, runs, j);
      PosNext(runs[j], all, n);
      if j != c {
        OnlyOneHas(all, runs, n, c, j);
      }
    }
  }

  /** Stepping it back brings every child back from `n`. */
  lemma AllPrev(all: seq<Entry>, runs: seq<seq<Entry>>, ps: seq<nat>, n: nat, c: nat) returns (ps': seq<nat>)
    requires IsUnion(all, runs) && n < |all| && |ps| == |runs| && c < |runs|
    requires AllBackFrom(all, runs, ps, n + 1) && all[n] in runs[c]
    ensures ps' == ps[c := if ps[c] == 0 then |runs[c]| else ps[c] - 1]
    ensures |ps'| == |runs| && AllBackFrom(all, runs, ps', n)
  {
    ps' := ps[c := if ps[c] == 0 then |runs[c]| else ps[c] - 1];
    forall j | 0 <= j < |runs| ensures ps'[j] == BackFrom(runs[j], all, n) {
      UnionRun(all, runs, j);
      PosNext(runs[j], all, n);
      if j != c {
        OnlyOneHas(all, runs, n, c, j);
      }
    }
  }

  /** A child without the current entry, sought to its key and stepped back. */
  lemma SteppedBack(run: seq<Entry>, all: seq<Entry>, n: nat)
    requires SubRun(run, all) && n < |all| && all[n] !in run
    ensures var p := LowerBound(run, all[n].key);
      BackFrom(run, all, n + 1) ==
        if p == |run| then (if run == [] then 0 else |run| - 1) else if p == 0 then |run| else p - 1
  {
    PosNext(run, all, n);
  }

  // ---------- the iterator ----------

  datatype Direction = Forward | Reverse

  /**
   The union stands at `n`: child `current` holds that entry, and whichever way the iterator moves,
   every child is on the right side of it.
  */
  ghost predicate Stands(all: seq<Entry>, runs: seq<seq<Entry>>, ps: seq<nat>, n: nat, current: int,
                         direction: Direction)
    requires |ps| == |runs|
  {
    && n <= |all| && -1 <= current < |runs| && (current == -1 <==> n == |all|)
    && (n < |all| ==>
          && all[n] in runs[current]
          && (direction.Forward? ==> AllFrom(all, runs, ps, n))
          && (direction.Reverse? ==> AllBackFrom(all, runs, ps, n + 1)))
  }

  /** All children at their first entry from `n` on, and the smallest of those current. */
  lemma StandsForward(all: seq<Entry>, runs: seq<seq<Entry>>, ps: seq<nat>, n: nat, c: int)
    requires IsUnion(all, runs) && n <= |all| && |ps| == |runs|
    requires AllFrom(all, runs, ps, n) && IsLeast(runs, ps, 0, |runs|, c)
    ensures Stands(all, runs, ps, n, c, Forward)
  {
    LeastIs(all, runs, ps, c, n);
  }

  /** All children at their last entry before `n`, and the largest of those current. */
  lemma StandsReverse(all: seq<Entry>, runs: seq<seq<Entry>>, ps: seq<nat>, n: nat, m: nat, c: int)
    requires IsUnion(all, runs) && n <= |all| && |ps| == |runs| && m == if n == 0 then |all| else n - 1
    requires AllBackFrom(all, runs, ps, n) && IsGreatest(runs, ps, 0, |runs|, c)
    ensures Stands(all, runs, ps, m, c, Reverse)
  {
    GreatestIs(all, runs, ps, c, n);
  }

  /** The first `i` children, and `current`, stand where going forward wants them. */
  ghost predicate TurnedForward(all: seq<Entry>, runs: seq<seq<Entry>>, ps: seq<nat>, n: nat, current: nat, i: nat)
    requires |ps| == |runs| && n < |all|
  {
    forall j {:trigger ps[j]} | 0 <= j < |runs| && (j < i || j == current) :: ps[j] == PosIn(runs[j], all, n)
  }

  ghost predicate TurnedBack(all: seq<Entry>, runs: seq<seq<Entry>>, ps: seq<nat>, n: nat, current: nat, i: nat)
    requires |ps| == |runs| && n < |all|
  {
    forall j {:trigger ps[j]} | 0 <= j < |runs| && (j < i || j == current) :: ps[j] == BackFrom(runs[j], all, n + 1)
  }

  lemma TurnedForwardNext(all: seq<Entry>, runs: seq<seq<Entry>>, ps: seq<nat>, n: nat, current: nat, i: nat)
    returns (ps': seq<nat>)
    requires |ps| == |runs| && n < |all| && i < |runs| && TurnedForward(all, runs, ps, n, current, i)
    ensures ps' == if i == current then ps else ps[i := PosIn(runs[i], all, n)]
    ensures |ps'| == |runs| && TurnedForward(all, runs, ps', n, current, i + 1)
  {
    ps' := if i == current then ps else ps[i := PosIn(runs[i], all, n)];
  }

  lemma TurnedForwardAll(all: seq<Entry>, runs: seq<seq<Entry>>, ps: seq<nat>, n: nat, current: nat, m: nat)
    requires |ps| == |runs| == m && n < |all| && TurnedForward(all, runs, ps, n, current, m)
    requires current < |runs| && all[n] in runs[current]
    ensures Stands(all, runs, ps, n, current, Forward)
  {
  }

  lemma TurnedBackNext(all: seq<Entry>, runs: seq<seq<Entry>>, ps: seq<nat>, n: nat, current: nat, i: nat)
    returns (ps': seq<nat>)
    requires |ps| == |runs| && n < |all| && i < |runs| && TurnedBack(all, runs, ps, n, current, i)
    ensures ps' == if i == current then ps else ps[i := BackFrom(runs[i], all, n + 1)]
    ensures |ps'| == |runs| && TurnedBack(all, runs, ps', n, current, i + 1)
  {
    ps' := if i == current then ps else ps[i := BackFrom(runs[i], all, n + 1)];
  }

  lemma TurnedBackAll(all: seq<Entry>, runs: seq<seq<Entry>>, ps: seq<nat>, n: nat, current: nat, m: nat)
    requires |ps| == |runs| == m && n < |all| && TurnedBack(all, runs, ps, n, current, m)
    requires current < |runs| && all[n] in runs[current]
    ensures Stands(all, runs, ps, n, current, Reverse)
  {
  }

  /** The child that holds the current entry already stands where turning around wants it. */
  lemma HolderStands(all: seq<Entry>, runs: seq<seq<Entry>>, ps: seq<nat>, n: nat, c: nat)
    requires IsUnion(all, runs) && |ps| == |runs| && n < |all| && c < |runs| && all[n] in runs[c]
    requires AllFrom(all, runs, ps, n) || AllBackFrom(all, runs, ps, n + 1)
    ensures TurnedForward(all, runs, ps, n, c, 0) && TurnedBack(all, runs, ps, n, c, 0)
    ensures ps[c] < |runs[c]| && runs[c][ps[c]] == all[n]
  {
    UnionRun(all, runs, c);
    StandsOn(runs[c], all, n);
    StandsBehind(runs[c], all, n);
    FoundAtKey(runs[c], PosIn(runs[c], all, n));
    FoundAtKey(runs[c], BackFrom(runs[c], all, n + 1));
  }

  class MergingIterator {
    const children: seq<Cursor>
    /** Index of the child that holds the current entry; -1 for none. */
    var current: int
    var direction: Direction
    /** The cursor this iterator stands for: a position in `all`. */
    ghost const all: seq<Entry>
    ghost var pos: nat

    ghost predicate ChildrenOk()
      reads children
    {
      && (forall i, j | 0 <= i < j < |children| :: children[i] != children[j])
      && (forall j | 0 <= j < |children| :: children[j].Ok())
      && IsUnion(all, RunsOf(children))
    }

    ghost predicate Ok()
      reads this, children
    {
      ChildrenOk() && Stands(all, RunsOf(children), PosOf(children), pos, current, direction)
    }

    constructor (children: seq<Cursor>, ghost all: seq<Entry>)
      requires forall i, j | 0 <= i < j < |children| :: children[i] != children[j]
      requires forall j | 0 <= j < |children| :: children[j].Ok()
      requires IsUnion(all, RunsOf(children))
      ensures Ok() && pos == |all| && this.children == children && this.all == all
    {
      this.children, this.all := children, all;
      current, direction, pos := -1, Forward, |all|;
    }

    predicate Valid()
      reads this
    {
      current != -1
    }

    function CurrentEntry(): Entry
      requires 0 <= current < |children| && children[current].Valid()
      reads this, children
    {
      children[current].entries[children[current].pos]
    }

    /** What the user sees is the entry at `pos` of the union. */
    lemma ShowsCurrent()
      requires Ok() && Valid()
      ensures pos < |all| && children[current].Valid() && CurrentEntry() == all[pos]
    {
      HolderStands(all, RunsOf(children), PosOf(children), pos, current);
      assert PosOf(children)[current] == children[current].pos;
    }

    /** Child `c` steps forward. */
    method NextChild(c: nat, ghost ps: seq<nat>)
      requires ChildrenOk() && c < |children| && children[c].Valid() && ps == PosOf(children)
      modifies children
      ensures ChildrenOk() && PosOf(children) == ps[c := ps[c] + 1]
    {
      children[c].Next();
    }

    /** Child `c` steps back. */
    method PrevChild(c: nat, ghost ps: seq<nat>)
      requires ChildrenOk() && c < |children| && children[c].Valid() && ps == PosOf(children)
      modifies children
      ensures ChildrenOk()
      ensures PosOf(children) == ps[c := if ps[c] == 0 then |RunsOf(children)[c]| else ps[c] - 1]
    {
      children[c].Prev();
    }

    method SetDirection(d: Direction, ghost ps: seq<nat>)
      requires ChildrenOk() && ps == PosOf(children)
      modifies `direction
      ensures ChildrenOk() && ps == PosOf(children) && direction == d
    {
      direction := d;
    }

    /** The position follows the children. */
    ghost method SetPos(n: nat, ps: seq<nat>)
      requires ChildrenOk() && ps == PosOf(children) && Stands(all, RunsOf(children), ps, n, current, direction)
      modifies `pos
      ensures Ok() && pos == n
    {
      pos := n;
      assert PosOf(children) == ps;
    }

    /** `FindSmallest`. */
    method FindSmallest(ghost ps: seq<nat>)
      requires ChildrenOk() && ps == PosOf(children)
      modifies this`current
      ensures ChildrenOk() && PosOf(children) == ps && IsLeast(RunsOf(children), ps, 0, |children|, current)
    {
      var smallest := -1;
      for i := 0 to |children|
        invariant IsLeast(RunsOf(children), ps, 0, i, smallest)
      {
        var child := children[i];
        if child.Valid() {
          if smallest == -1 {
            smallest := i;
          } else {
            CompareIsOrder(child.Key(), children[smallest].Key());
            if Compare(child.Key(), children[smallest].Key()) < 0 {
              smallest := i;
            }
          }
        }
      }
      current := smallest;
    }

    /** `FindLargest`. */
    method FindLargest(ghost ps: seq<nat>)
      requires ChildrenOk() && ps == PosOf(children)
      modifies this`current
      ensures ChildrenOk() && PosOf(children) == ps && IsGreatest(RunsOf(children), ps, 0, |children|, current)
    {
      var largest := -1;
      for i := |children| downto 0
        invariant IsGreatest(RunsOf(children), ps, i, |children|, largest)
      {
        var child := children[i];
        if child.Valid() {
          if largest == -1 {
            largest := i;
          } else {
            CompareIsOrder(child.Key(), children[largest].Key());
            if Compare(child.Key(), children[largest].Key()) > 0 {
              largest := i;
            }
          }
        }
      }
      current := largest;
    }

    method SeekToFirst()
      requires ChildrenOk()
      modifies this, children
      ensures Ok() && pos == 0
    {
      for i := 0 to |children|
        invariant ChildrenOk() && forall j | 0 <= j < i :: children[j].pos == 0
      {
        children[i].SeekToFirst();
      }
      ghost var runs, ps := RunsOf(children), PosOf(children);
      forall j | 0 <= j < |runs| ensures PosIn(runs[j], all, 0) == 0 {
        UnionRun(all, runs, j);
        PosFirst(runs[j], all);
      }
      FindSmallest(ps);
      SetDirection(Forward, ps);
      StandsForward(all, runs, ps, 0, current);
      SetPos(0, ps);
    }

    method SeekToLast()
      requires ChildrenOk()
      modifies this, children
      ensures Ok() && pos == if all == [] then 0 else |all| - 1
    {
      for i := 0 to |children|
        invariant ChildrenOk() && forall j | 0 <= j < i :: children[j].pos == BackFrom(children[j].entries, all, |all|)
      {
        children[i].SeekToLast();
      }
      ghost var ps, last := PosOf(children), if all == [] then 0 else |all| - 1;
      FindLargest(ps);
      SetDirection(Reverse, ps);
      StandsReverse(all, RunsOf(children), ps, |all|, last, current);
      SetPos(last, ps);
    }

    method Seek(target: InternalKey)
      requires ChildrenOk()
      modifies this, children
      ensures Ok() && pos == LowerBound(all, target)
    {
      for i := 0 to |children|
        invariant ChildrenOk() && forall j | 0 <= j < i :: children[j].pos == LowerBound(children[j].entries, target)
      {
        children[i].Seek(target);
      }
      ghost var runs, ps, n := RunsOf(children), PosOf(children), LowerBound(all, target);
      forall j | 0 <= j < |runs| ensures PosIn(runs[j], all, n) == LowerBound(runs[j], target) {
        UnionRun(all, runs, j);
        PosSeek(runs[j], all, target);
      }
      FindSmallest(ps);
      SetDirection(Forward, ps);
      StandsForward(all, runs, ps, n, current);
      SetPos(n, ps);
    }

    /** Moves child `i` to its first entry behind the current one. */
    method PlaceAhead(i: nat, key: InternalKey)
      requires ChildrenOk() && i < |children| && pos < |all| && key == all[pos].key
      requires all[pos] !in children[i].entries
      modifies children[i]
      ensures ChildrenOk()
      ensures PosOf(children) == old(PosOf(children))[i := PosIn(children[i].entries, all, pos)]
    {
      var child := children[i];
      child.Seek(key);
      UnionRun(all, RunsOf(children), i);
      StandsOn(child.entries, all, pos);
      if child.Valid() && Compare(key, child.Key()) == 0 {
        // Steps over an equal key; the children share none.
        CompareIsOrder(key, child.Key());
        assert false;
      }
    }

    /** Moves the other children behind the current entry (first half of `Next`). */
    method TurnForward()
      requires Ok() && Valid() && direction.Reverse?
      modifies `direction, `pos, children
      ensures Ok() && Valid() && direction.Forward? && pos == old(pos)
    {
      ShowsCurrent();
      HolderStands(all, RunsOf(children), PosOf(children), pos, current);
      var key := children[current].Key();
      ghost var ps := PosOf(children);
      var i := 0;
      while i < |children|
        invariant i <= |children| && ChildrenOk() && ps == PosOf(children)
        invariant TurnedForward(all, RunsOf(children), ps, pos, current, i)
        modifies children
      {
        if i != current {
          OnlyOneHas(all, RunsOf(children), pos, current, i);
          PlaceAhead(i, key);
        }
        ps := TurnedForwardNext(all, RunsOf(children), ps, pos, current, i);
        i := i + 1;
      }
      SetDirection(Forward, ps);
      TurnedForwardAll(all, RunsOf(children), ps, pos, current, |children|);
      SetPos(pos, ps);
    }

    /** Second half of `Next`. */
    method StepForward()
      requires Ok() && Valid() && direction.Forward?
      modifies this, children
      ensures Ok() && pos == old(pos) + 1
    {
      ShowsCurrent();
      ghost var c, ps, m := current, PosOf(children), pos + 1;
      ghost var ps' := AllNext(all, RunsOf(children), ps, pos, m, c);
      NextChild(current, ps);
      FindSmallest(ps');
      StandsForward(all, RunsOf(children), ps', m, current);
      SetPos(m, ps');
    }

    method Next()
      requires Ok() && Valid()
      modifies this, children
      ensures Ok() && pos == old(pos) + 1
    {
      if direction.Reverse? {
        TurnForward();
      }
      StepForward();
    }

    /** Moves child `i` to its last entry before the current one. */
    method PlaceBehind(i: nat, key: InternalKey)
      requires ChildrenOk() && i < |children| && pos < |all| && key == all[pos].key
      requires all[pos] !in children[i].entries
      modifies children[i]
      ensures ChildrenOk()
      ensures PosOf(children) == old(PosOf(children))[i := BackFrom(children[i].entries, all, pos + 1)]
    {
      UnionRun(all, RunsOf(children), i);
      SteppedBack(children[i].entries, all, pos);
      SeekBack(children[i], key);
    }

    /** Moves the other children before the current entry (first half of `Prev`). */
    method TurnBack()
      requires Ok() && Valid() && direction.Forward?
      modifies `direction, `pos, children
      ensures Ok() && Valid() && direction.Reverse? && pos == old(pos)
    {
      ShowsCurrent();
      HolderStands(all, RunsOf(children), PosOf(children), pos, current);
      var key := children[current].Key();
      ghost var ps := PosOf(children);
      var i := 0;
      while i < |children|
        invariant i <= |children| && ChildrenOk() && ps == PosOf(children)
        invariant TurnedBack(all, RunsOf(children), ps, pos, current, i)
        modifies children
      {
        if i != current {
          OnlyOneHas(all, RunsOf(children), pos, current, i);
          PlaceBehind(i, key);
        }
        ps := TurnedBackNext(all, RunsOf(children), ps, pos, current, i);
        i := i + 1;
      }
      SetDirection(Reverse, ps);
      TurnedBackAll(all, RunsOf(children), ps, pos, current, |children|);
      SetPos(pos, ps);
    }

    /** Second half of `Prev`: the current child steps back, and the largest one is current. */
    method StepBack()
      requires Ok() && Valid() && direction.Reverse?
      modifies this, children
      ensures Ok() && pos == if old(pos) == 0 then |all| else old(pos) - 1
    {
      ShowsCurrent();
      ghost var c, ps, n, m := current, PosOf(children), pos, if pos == 0 then |all| else pos - 1;
      ghost var ps' := AllPrev(all, RunsOf(children), ps, n, c);
      PrevChild(current, ps);
      FindLargest(ps');
      StandsReverse(all, RunsOf(children), ps', n, m, current);
      SetPos(m, ps');
    }

    method Prev()
      requires Ok() && Valid()
      modifies this, children
      ensures Ok() && pos == if old(pos) == 0 then |all| else old(pos) - 1
    {
      if direction.Forward? {
        TurnBack();
      }
      StepBack();
    }
  }

  /** Seeks `key`, and steps back from there. */
  method SeekBack(child: Cursor, key: InternalKey)
    requires child.Ok()
    modifies child
    ensures child.Ok()
    ensures var p, n := LowerBound(child.entries, key), |child.entries|;
      child.pos == if p == n then (if n == 0 then 0 else n - 1) else if p == 0 then n else p - 1
  {
    child.Seek(key);
    if child.Valid() {
      child.Prev();
    } else {
      child.SeekToLast();
    }
  }

  function RunsOf(children: seq<Cursor>): seq<seq<Entry>> {
    seq(|children|, i requires 0 <= i < |children| => children[i].entries)
  }

  ghost function PosOf(children: seq<Cursor>): seq<nat>
    reads children
  {
    seq(|children|, i requires 0 <= i < |children| reads children => children[i].pos)
  }
}
