/**
 The skip list under a memtable (`db/skiplist.h`): one writer links a node level by level while
 readers search, and every load of a reader may come between any two stores of the writer.

 Keys are their positions in the comparator's order; a node is known by its key.
*/
module SkipLists {

  const MAX_HEIGHT: nat := 12

  /** What a link may hold. */
  datatype Ref = Head | At(key: int) | Nil

  /** What a search looks for: the first key not below a target, or the end of the list. */
  datatype Bound = Below(key: int) | Unbounded

  /** Whether a search goes on past `x`. */
  predicate Passes(x: Ref, b: Bound) {
    x.Head? || (x.At? && (b.Unbounded? || x.key < b.key))
  }

  // ---------- one level ----------

  ghost predicate Sorted(list: seq<int>) {
    forall i, j | 0 <= i < j < |list| :: list[i] < list[j]
  }

  function RefAt(list: seq<int>, j: int): Ref {
    if 0 <= j < |list| then At(list[j]) else if j < 0 then Head else Nil
  }

  /** The links of a level chain the keys of `list`; nodes that are not on it may have links too. */
  ghost predicate IsList(next: map<Ref, Ref>, list: seq<int>) {
    && Sorted(list)
    && forall j | -1 <= j < |list| :: RefAt(list, j) in next && next[RefAt(list, j)] == RefAt(list, j + 1)
  }

  /** How many keys of a sorted list a search passes. */
  function Rank(list: seq<int>, b: Bound): (p: nat)
    ensures p <= |list|
    ensures forall j | 0 <= j < p :: Passes(At(list[j]), b)
    ensures p < |list| ==> !Passes(At(list[p]), b)
  {
    if list == [] || !Passes(At(list[0]), b) then 0 else 1 + Rank(list[1..], b)
  }

  /** Where a search on this level ends, and what comes after. */
  function Pred(list: seq<int>, b: Bound): Ref {
    RefAt(list, Rank(list, b) - 1)
  }

  function Succ(list: seq<int>, b: Bound): Ref {
    RefAt(list, Rank(list, b))
  }

  lemma RankSplits(list: seq<int>, b: Bound, j: nat)
    requires Sorted(list) && j < |list|
    ensures j < Rank(list, b) <==> Passes(At(list[j]), b)
  {
    var p := Rank(list, b);
    if p < j {
      assert list[p] < list[j];
    }
  }

  function With(list: seq<int>, k: int): seq<int> {
    var p := Rank(list, Below(k));
    list[..p] + [k] + list[p..]
  }

  lemma WithIsSorted(list: seq<int>, k: int)
    requires Sorted(list) && k !in list
    ensures Sorted(With(list, k))
    ensures forall x :: x in With(list, k) <==> x in list || x == k
  {
    var p := Rank(list, Below(k));
    forall j | 0 <= j < |list| ensures j < p <==> list[j] < k {
      RankSplits(list, Below(k), j);
    }
    SplicedSorted(list, p, k);
  }

  lemma SplicedSorted(list: seq<int>, p: nat, k: int)
    requires Sorted(list) && p <= |list| && k !in list && forall j | 0 <= j < |list| :: j < p <==> list[j] < k
    ensures var l := list[..p] + [k] + list[p..]; Sorted(l) && forall x :: x in l <==> x in list || x == k
  {
    var l := list[..p] + [k] + list[p..];
    forall i, j | 0 <= i < j < |l| ensures l[i] < l[j] {
      assert i != p ==> l[i] == list[if i > p then i - 1 else i];
      assert j != p ==> l[j] == list[if j > p then j - 1 else j];
    }
    forall x | x in list ensures x in l {
      var i :| 0 <= i < |list| && list[i] == x;
      assert x == l[if i < p then i else i + 1];
    }
    assert l[p] == k;
  }

  /** Storing the new node in the link of its predecessor puts its key on the list. */
  lemma Publishes(next: map<Ref, Ref>, list: seq<int>, k: int)
    requires IsList(next, list) && k !in list
    requires At(k) in next && next[At(k)] == Succ(list, Below(k))
    ensures IsList(next[Pred(list, Below(k)) := At(k)], With(list, k))
  {
    var p: int, l := Rank(list, Below(k)), With(list, k);
    var next' := next[Pred(list, Below(k)) := At(k)];
    WithIsSorted(list, k);
    forall j | -1 <= j < |l| ensures RefAt(l, j) in next' && next'[RefAt(l, j)] == RefAt(l, j + 1) {
      if j + 1 == p {
        assert RefAt(l, j) == Pred(list, Below(k)) && l[p] == k;
      } else if j == p {
        assert RefAt(l, j) == At(k) != Pred(list, Below(k)) && RefAt(l, j + 1) == RefAt(list, p);
      } else {
        var i := if j < p then j else j - 1;
        assert RefAt(l, j) == RefAt(list, i) && RefAt(l, j + 1) == RefAt(list, i + 1);
        assert RefAt(list, i) in next && RefAt(list, i) != RefAt(list, p - 1);
      }
    }
  }

  // ---------- the list ----------

  /**
   What the writer is doing: nothing, or linking node `key` at level `level`, where it may have set
   the link of the new node already (`stored`).
  */
  datatype Writer = Idle | Linking(key: int, height: nat, prev: seq<Ref>, level: nat, stored: bool)

  /** A search: `began` are the keys on the list when it started. */
  datatype Reader =
    | Resting
    | Searching(bound: Bound, x: Ref, level: nat, began: set<int>)
    | Finished(bound: Bound, x: Ref, found: Ref, began: set<int>)

  /** `lists` are the keys linked on each level, bottom first. */
  datatype State = State(
    next: seq<map<Ref, Ref>>,
    maxHeight: nat,
    writer: Writer,
    readers: seq<Reader>,
    lists: seq<seq<int>>)

  ghost function Keys(list: seq<int>): set<int> {
    set k | k in list
  }

  datatype Step =
    | Begin(key: int, height: nat)
    | StoreLink
    | Publish
    | Start(r: nat, bound: Bound)
    | Load(r: nat)

  /** `Insert` up to its linking loop: the search, the new height, and the node. */
  ghost predicate BeginStep(st: State, st': State, key: int, height: nat) {
    && st.writer.Idle? && |st.lists| == MAX_HEIGHT && key !in st.lists[0] && 1 <= height <= MAX_HEIGHT
    && var prev := seq(height, i requires 0 <= i < height =>
         if i < st.maxHeight then Pred(st.lists[i], Below(key)) else Head);
       st' == st.(maxHeight := if height > st.maxHeight then height else st.maxHeight,
                  writer := Linking(key, height, prev, 0, false))
  }

  /** `NoBarrier_SetNext` on the new node, which nobody else can see on this level. */
  ghost predicate StoreLinkStep(st: State, st': State) {
    && st.writer.Linking? && !st.writer.stored
    && var w := st.writer;
       && w.level < |w.prev| && w.level < |st.next| && w.prev[w.level] in st.next[w.level]
       && st' == st.(writer := w.(stored := true),
                     next := st.next[w.level :=
                       st.next[w.level][At(w.key) := st.next[w.level][w.prev[w.level]]]])
  }

  /** `SetNext` on the predecessor: from now on readers find the node on this level. */
  ghost predicate PublishStep(st: State, st': State) {
    && st.writer.Linking? && st.writer.stored
    && var w := st.writer;
       && w.level < |w.prev| && w.level < |st.next| && w.level < |st.lists|
       && st' == st.(writer := if w.level + 1 == w.height then Idle else w.(level := w.level + 1, stored := false),
                     next := st.next[w.level := st.next[w.level][w.prev[w.level] := At(w.key)]],
                     lists := st.lists[w.level := With(st.lists[w.level], w.key)])
  }

  /** A search starts at the head, on the highest level in use. */
  ghost predicate StartStep(st: State, st': State, r: nat, bound: Bound) {
    && r < |st.readers| && st.maxHeight > 0 && |st.lists| > 0
    && st' == st.(readers := st.readers[r := Searching(bound, Head, st.maxHeight - 1, Keys(st.lists[0]))])
  }

  /** One turn of the loop of a search: one load, and on, down or out. */
  ghost predicate LoadStep(st: State, st': State, r: nat) {
    && r < |st.readers| && st.readers[r].Searching?
    && var s := st.readers[r];
       && s.level < |st.next| && s.x in st.next[s.level]
       && var n := st.next[s.level][s.x];
          st' == st.(readers := st.readers[r :=
            if n.At? && Passes(n, s.bound) then Searching(s.bound, n, s.level, s.began)
            else if s.level == 0 then Finished(s.bound, s.x, n, s.began)
            else Searching(s.bound, s.x, s.level - 1, s.began)])
  }

  ghost predicate Next(st: State, st': State, step: Step) {
    match step
    case Begin(key, height) => BeginStep(st, st', key, height)
    case StoreLink => StoreLinkStep(st, st')
    case Publish => PublishStep(st, st')
    case Start(r, bound) => StartStep(st, st', r, bound)
    case Load(r) => LoadStep(st, st', r)
  }

  ghost predicate Init(st: State) {
    && st.next == seq(MAX_HEIGHT, _ => map[Head := Nil]) && st.lists == seq(MAX_HEIGHT, _ => [])
    && st.maxHeight == 1 && st.writer == Idle && forall r | 0 <= r < |st.readers| :: st.readers[r] == Resting
  }

  // ---------- invariants ----------

  /** Every level is a sorted chain whose keys are all on the levels below. */
  ghost predicate LevelsOk(next: seq<map<Ref, Ref>>, lists: seq<seq<int>>) {
    && |next| == |lists| == MAX_HEIGHT
    && (forall i | 0 <= i < MAX_HEIGHT :: IsList(next[i], lists[i]))
    && forall i, j {:trigger Within(lists[j], lists[i])} | 0 <= i < j < MAX_HEIGHT :: Within(lists[j], lists[i])
  }

  ghost predicate Within(upper: seq<int>, lower: seq<int>) {
    forall k | k in upper :: k in lower
  }

  ghost predicate HeightOk(st: State)
    requires |st.lists| == MAX_HEIGHT
  {
    && 1 <= st.maxHeight <= MAX_HEIGHT
    && forall i | st.maxHeight <= i < MAX_HEIGHT :: st.lists[i] == []
  }

  /** The node being linked is on the levels below the current one, and its predecessors are right. */
  ghost predicate WriterOk(st: State)
    requires |st.lists| == |st.next| == MAX_HEIGHT
  {
    st.writer.Linking? ==>
      var w := st.writer;
      && w.level < w.height <= st.maxHeight <= MAX_HEIGHT && |w.prev| == w.height
      && (forall i | 0 <= i < w.level :: w.key in st.lists[i])
      && (forall i | w.level <= i < MAX_HEIGHT :: w.key !in st.lists[i])
      && (forall i | w.level <= i < w.height :: w.prev[i] == Pred(st.lists[i], Below(w.key)))
      && (w.stored ==> At(w.key) in st.next[w.level]
                       && st.next[w.level][At(w.key)] == Succ(st.lists[w.level], Below(w.key)))
  }

  ghost predicate ReaderOk(lists: seq<seq<int>>, s: Reader)
    requires |lists| == MAX_HEIGHT
  {
    match s
    case Resting => true
    case Searching(b, x, level, began) =>
      && level < MAX_HEIGHT && Passes(x, b) && (x.At? ==> x.key in lists[level])
      && forall k | k in began :: k in lists[0]
    case Finished(b, x, found, began) =>
      && Passes(x, b) && (x.At? ==> x.key in lists[0])
      && (found.At? ==> found.key in lists[0] && !Passes(found, b)) && !found.Head?
      && forall k | k in began :: SkippedNot(b, x, found, k)
  }

  /** A search ending at `x` and `found` does not miss key `k`. */
  predicate SkippedNot(b: Bound, x: Ref, found: Ref, k: int) {
    if Passes(At(k), b) then x.At? && k <= x.key else found.At? && found.key <= k
  }

  ghost predicate Inv(st: State) {
    && LevelsOk(st.next, st.lists) && HeightOk(st) && WriterOk(st)
    && forall r | 0 <= r < |st.readers| :: ReaderOk(st.lists, st.readers[r])
  }

  // ---------- the steps of the writer ----------

  lemma BeginInv(st: State, st': State, key: int, height: nat)
    requires Inv(st) && BeginStep(st, st', key, height)
    ensures Inv(st')
  {
    forall i | 0 <= i < MAX_HEIGHT ensures key !in st.lists[i] {
      assert i > 0 ==> Within(st.lists[i], st.lists[0]);
    }
  }

  lemma StoreLinkInv(st: State, st': State)
    requires Inv(st) && StoreLinkStep(st, st')
    ensures Inv(st')
  {
    var w := st.writer;
    PredLinksSucc(st.next[w.level], st.lists[w.level], Below(w.key));
    PrivateLink(st.next[w.level], st.lists[w.level], w.key, st.next[w.level][w.prev[w.level]]);
    forall i | 0 <= i < MAX_HEIGHT ensures IsList(st'.next[i], st'.lists[i]) {
      assert IsList(st.next[i], st.lists[i]);
    }
  }

  lemma PredLinksSucc(next: map<Ref, Ref>, list: seq<int>, b: Bound)
    requires IsList(next, list)
    ensures Pred(list, b) in next && next[Pred(list, b)] == Succ(list, b)
  {
    var j := Rank(list, b) - 1;
    assert -1 <= j < |list| || (j == -1 && list == []);
    assert RefAt(list, j) in next && next[RefAt(list, j)] == RefAt(list, j + 1);
  }

  /** The link of a node that is not on the list does not matter to the list. */
  lemma PrivateLink(next: map<Ref, Ref>, list: seq<int>, k: int, x: Ref)
    requires IsList(next, list) && k !in list
    ensures IsList(next[At(k) := x], list)
  {
  }

  lemma PublishInv(st: State, st': State)
    requires Inv(st) && PublishStep(st, st')
    ensures Inv(st')
  {
    var w := st.writer;
    PublishLevels(st.next, st.lists, w.level, w.key);
    assert LevelsOk(st'.next, st'.lists);
    forall r | 0 <= r < |st'.readers| ensures ReaderOk(st'.lists, st'.readers[r]) {
      assert ReaderOk(st.lists, st.readers[r]);
    }
  }

  lemma PublishLevels(next: seq<map<Ref, Ref>>, lists: seq<seq<int>>, level: nat, k: int)
    requires LevelsOk(next, lists) && level < MAX_HEIGHT && k !in lists[level]
    requires forall i | 0 <= i < level :: k in lists[i]
    requires At(k) in next[level] && next[level][At(k)] == Succ(lists[level], Below(k))
    ensures var next' := next[level := next[level][Pred(lists[level], Below(k)) := At(k)]];
      LevelsOk(next', lists[level := With(lists[level], k)])
    ensures forall i, x | 0 <= i < MAX_HEIGHT && x in lists[i] :: x in lists[level := With(lists[level], k)][i]
  {
    assert IsList(next[level], lists[level]);
    Publishes(next[level], lists[level], k);
    WithIsSorted(lists[level], k);
    var lists' := lists[level := With(lists[level], k)];
    forall i, j | 0 <= i < j < MAX_HEIGHT ensures Within(lists'[j], lists'[i]) {
      assert Within(lists[j], lists[i]);
    }
  }

  // ---------- the steps of readers ----------

  /** No load meets a link that was not set, and the search is nowhere but on the list. */
  lemma ReaderOnList(st: State, r: nat)
    requires Inv(st) && r < |st.readers| && st.readers[r].Searching?
    ensures var s := st.readers[r]; s.level < |st.next| && s.x in st.next[s.level]
  {
    var s := st.readers[r];
    assert ReaderOk(st.lists, s);
    var j := LinkOf(st.next[s.level], st.lists[s.level], s.x);
  }

  lemma LinkOf(next: map<Ref, Ref>, list: seq<int>, x: Ref) returns (j: int)
    requires IsList(next, list) && !x.Nil? && (x.At? ==> x.key in list)
    ensures -1 <= j < |list| || (j == -1 && list == [])
    ensures x == RefAt(list, j) && x in next && next[x] == RefAt(list, j + 1)
  {
    if x.Head? {
      j := -1;
    } else {
      j :| 0 <= j < |list| && list[j] == x.key;
    }
    assert RefAt(list, j) in next;
  }

  /**
   A search that ends has, at its last load, the exact neighbours of the target: whatever was linked
   while it ran, it ends where a search in the list as it is now would end.
  */
  lemma EndsExactly(next: map<Ref, Ref>, list: seq<int>, x: Ref, b: Bound)
    requires IsList(next, list) && Passes(x, b) && (x.At? ==> x.key in list)
    requires x in next && !(next[x].At? && Passes(next[x], b))
    ensures x == Pred(list, b) && next[x] == Succ(list, b)
  {
    var j := LinkOf(next, list, x);
    if j >= 0 {
      RankSplits(list, b, j);
    }
    if j + 1 < |list| {
      RankSplits(list, b, j + 1);
    }
  }

  lemma NeighboursSkipNothing(list: seq<int>, b: Bound, k: int)
    requires Sorted(list) && k in list
    ensures SkippedNot(b, Pred(list, b), Succ(list, b), k)
  {
    var j :| 0 <= j < |list| && list[j] == k;
    RankSplits(list, b, j);
  }

  lemma LoadInv(st: State, st': State, r: nat)
    requires Inv(st) && LoadStep(st, st', r)
    ensures Inv(st')
  {
    var s := st.readers[r];
    assert ReaderOk(st.lists, s);
    var n := st.next[s.level][s.x];
    var j := LinkOf(st.next[s.level], st.lists[s.level], s.x);
    if !(n.At? && Passes(n, s.bound)) {
      if s.level == 0 {
        EndsExactly(st.next[0], st.lists[0], s.x, s.bound);
        forall k | k in s.began ensures SkippedNot(s.bound, s.x, n, k) {
          NeighboursSkipNothing(st.lists[0], s.bound, k);
        }
      } else {
        assert Within(st.lists[s.level], st.lists[s.level - 1]);
      }
    }
    assert ReaderOk(st'.lists, st'.readers[r]);
  }

  lemma StartInv(st: State, st': State, r: nat, bound: Bound)
    requires Inv(st) && StartStep(st, st', r, bound)
    ensures Inv(st')
  {
    assert ReaderOk(st'.lists, st'.readers[r]);
  }

  // ---------- whole runs ----------

  lemma NextInv(st: State, st': State, step: Step)
    requires Inv(st) && Next(st, st', step)
    ensures Inv(st')
  {
    match step
    case Begin(key, height) => BeginInv(st, st', key, height);
    case StoreLink => StoreLinkInv(st, st');
    case Publish => PublishInv(st, st');
    case Start(r, bound) => StartInv(st, st', r, bound);
    case Load(r) => LoadInv(st, st', r);
  }

  lemma InitInv(st: State)
    requires Init(st)
    ensures Inv(st)
  {
    forall i | 0 <= i < MAX_HEIGHT ensures IsList(st.next[i], st.lists[i]) {
      assert st.next[i] == map[Head := Nil] && st.lists[i] == [];
    }
    forall r | 0 <= r < |st.readers| ensures ReaderOk(st.lists, st.readers[r]) {
    }
  }

  ghost predicate IsRun(sts: seq<State>, steps: seq<Step>) {
    && |sts| == |steps| + 1 && Init(sts[0])
    && forall i {:trigger steps[i]} | 0 <= i < |steps| :: Next(sts[i], sts[i + 1], steps[i])
  }

  lemma {:induction false} RunInv(sts: seq<State>, steps: seq<Step>, n: nat)
    requires IsRun(sts, steps) && n < |sts|
    ensures Inv(sts[n])
  {
    if n == 0 {
      InitInv(sts[0]);
    } else {
      RunInv(sts, steps, n - 1);
      assert Next(sts[n - 1], sts[n], steps[n - 1]);
      NextInv(sts[n - 1], sts[n], steps[n - 1]);
    }
  }

  /** What each store leaves: sorted levels, each part of the one below. */
  lemma LevelsInEveryRun(sts: seq<State>, steps: seq<Step>, n: nat, i: nat)
    requires IsRun(sts, steps) && n < |sts| && i + 1 < MAX_HEIGHT
    ensures |sts[n].lists| == |sts[n].next| == MAX_HEIGHT && IsList(sts[n].next[i], sts[n].lists[i])
    ensures forall k | k in sts[n].lists[i + 1] :: k in sts[n].lists[i]
  {
    RunInv(sts, steps, n);
    assert Within(sts[n].lists[i + 1], sts[n].lists[i]);
  }

  /**
   What every search returns, whatever the writer did meanwhile: a node of the list at or after the
   target, and no key that was on the list when the search began was skipped on either side.
  */
  lemma SearchesSkipNothing(sts: seq<State>, steps: seq<Step>, n: nat, r: nat)
    requires IsRun(sts, steps) && n < |sts| && r < |sts[n].readers| && sts[n].readers[r].Finished?
    ensures |sts[n].lists| == MAX_HEIGHT
    ensures var s := sts[n].readers[r];
      && (s.found.At? ==> s.bound.Below? && s.found.key >= s.bound.key && s.found.key in sts[n].lists[0])
      && (forall k | k in s.began && !Passes(At(k), s.bound) :: s.found.At? && s.found.key <= k)
      && (forall k | k in s.began && Passes(At(k), s.bound) :: s.x.At? && k <= s.x.key)
  {
    RunInv(sts, steps, n);
    assert ReaderOk(sts[n].lists, sts[n].readers[r]);
  }

  // ---------- the object ----------

  /** The skip list as its writer, and a reader with nobody writing, see it. */
  class SkipList {
    var next: seq<map<Ref, Ref>>
    var maxHeight: nat
    ghost var lists: seq<seq<int>>

    /** The state of the step model with no reader under way. */
    ghost function Abs(writer: Writer): State
      reads this
    {
      State(next, maxHeight, writer, [], lists)
    }

    ghost predicate Ok()
      reads this
    {
      Inv(Abs(Idle))
    }

    constructor ()
      ensures Ok() && lists == seq(MAX_HEIGHT, _ => [])
    {
      next, maxHeight, lists := seq(MAX_HEIGHT, _ => map[Head := Nil]), 1, seq(MAX_HEIGHT, _ => []);
      new;
      InitInv(Abs(Idle));
    }

    /** `FindGreaterOrEqual`, `FindLessThan` and `FindLast`: `prev[0]` is the result of the latter two. */
    method Find(b: Bound) returns (found: Ref, prev: seq<Ref>)
      requires Ok()
      ensures found == Succ(lists[0], b)
      ensures |prev| == maxHeight && forall i | 0 <= i < maxHeight :: prev[i] == Pred(lists[i], b)
    {
      var x, level := Head, maxHeight - 1;
      prev := seq(maxHeight, _ => Head);
      ghost var j: int := -1;
      assert IsList(next[level], lists[level]);
      while true
        invariant 0 <= level < maxHeight == |prev| && Passes(x, b) && (x.At? ==> x.key in lists[level])
        invariant -1 <= j < |lists[level]| && RefAt(lists[level], j) == x
        invariant forall i | level < i < maxHeight :: prev[i] == Pred(lists[i], b)
        decreases level, |lists[level]| - j
      {
        assert IsList(next[level], lists[level]) && RefAt(lists[level], j) in next[level];
        assert next[level][RefAt(lists[level], j)] == RefAt(lists[level], j + 1);
        var n := next[level][x];
        if n.At? && Passes(n, b) {
          assert lists[level][j + 1] == n.key;
          x, j := n, j + 1;
        } else {
          EndsExactly(next[level], lists[level], x, b);
          prev := prev[level := x];
          if level == 0 {
            return n, prev;
          }
          assert Within(lists[level], lists[level - 1]);
          level := level - 1;
          assert IsList(next[level], lists[level]);
          j := LinkOf(next[level], lists[level], x);
        }
      }
    }

    /** `Insert` of a key that is not on the list: its stores are steps of the writer. */
    method Insert(key: int, height: nat)
      requires Ok() && key !in lists[0] && 1 <= height <= MAX_HEIGHT
      modifies this
      ensures Ok()
      ensures |lists| == |old(lists)| == MAX_HEIGHT
      ensures forall i | 0 <= i < MAX_HEIGHT ::
        lists[i] == if i < height then With(old(lists)[i], key) else old(lists)[i]
    {
      ghost var st := Abs(Idle);
      var _, found := Find(Below(key));
      var prev := seq(height, i requires 0 <= i < height => if i < |found| then found[i] else Head);
      if height > maxHeight {
        maxHeight := height;
      }
      assert prev == seq(height, i requires 0 <= i < height =>
        if i < st.maxHeight then Pred(st.lists[i], Below(key)) else Head);
      assert BeginStep(st, Abs(Linking(key, height, prev, 0, false)), key, height);
      BeginInv(st, Abs(Linking(key, height, prev, 0, false)), key, height);
      for i := 0 to height
        invariant Inv(Abs(if i < height then Linking(key, height, prev, i, false) else Idle))
        invariant |next| == |lists| == MAX_HEIGHT
        invariant |old(lists)| == MAX_HEIGHT
        invariant forall l | 0 <= l < MAX_HEIGHT ::
          lists[l] == if l < i then With(old(lists)[l], key) else old(lists)[l]
      {
        LinkLevel(key, height, prev, i);
      }
    }

    /** One turn of the loop of `Insert`. */
    method LinkLevel(key: int, height: nat, prev: seq<Ref>, i: nat)
      requires i < height && Inv(Abs(Linking(key, height, prev, i, false)))
      modifies this`next, this`lists
      ensures Inv(Abs(if i + 1 < height then Linking(key, height, prev, i + 1, false) else Idle))
      ensures lists == old(lists)[i := With(old(lists[i]), key)]
    {
      ghost var st0 := Abs(Linking(key, height, prev, i, false));
      assert IsList(next[i], lists[i]);
      PredLinksSucc(next[i], lists[i], Below(key));
      next := next[i := next[i][At(key) := next[i][prev[i]]]];
      ghost var st1 := Abs(Linking(key, height, prev, i, true));
      StoreLinkInv(st0, st1);
      next := next[i := next[i][prev[i] := At(key)]];
      lists := lists[i := With(lists[i], key)];
      PublishInv(st1, Abs(if i + 1 < height then Linking(key, height, prev, i + 1, false) else Idle));
    }
  }
}
