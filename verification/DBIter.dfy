/**
 The user-facing iterator (`db/db_iter.cc`): turns the internal entries of all versions into a
 bidirectional cursor over the keys that are live at one sequence number.
*/
module DBIterator {
  import opened InternalKeys
  import opened FlatMap
  import opened Runs
  import opened Cursors

  // ---------- specification ----------

  predicate Visible(e: Entry, s: nat) {
    e.key.sequence <= s
  }

  /** Entry `i` is the one a reader at `s` sees for its user key, and it is a value. */
  ghost predicate Live(es: seq<Entry>, s: nat, i: int) {
    && 0 <= i < |es| && Visible(es[i], s) && es[i].key.kind.TypeValue?
    && forall j | 0 <= j < i && es[j].key.user == es[i].key.user :: !Visible(es[j], s)
  }

  /** Live entries are exactly the keys present in the map at `s`, with their values. */
  lemma LiveIsPresent(es: seq<Entry>, s: nat, i: nat)
    requires Sorted(es) && UniqueSequences(Elements(es)) && Live(es, s, i)
    ensures Read(Elements(es), es[i].key.user, s) == Present(es[i].value)
  {
    var e := es[i];
    assert e in Elements(es);
    forall x | x in Elements(es) && VisibleAt(x, e.key.user, s) ensures x.key.sequence <= e.key.sequence {
      var j :| 0 <= j < |es| && es[j] == x;
      assert i == j || Before(es[i].key, es[j].key);
    }
    ReadIs(Elements(es), e.key.user, s, e);
  }

  lemma PresentIsLive(es: seq<Entry>, s: nat, u: UserKey) returns (i: nat)
    requires Sorted(es) && UniqueSequences(Elements(es)) && Read(Elements(es), u, s).Present?
    ensures Live(es, s, i) && es[i].key.user == u && Read(Elements(es), u, s) == Present(es[i].value)
  {
    var none, e := ReadCases(Elements(es), u, s);
    i :| 0 <= i < |es| && es[i] == e;
    forall j | 0 <= j < i && es[j].key.user == u ensures !Visible(es[j], s) {
      assert Before(es[j].key, es[i].key);
      assert es[j] in Elements(es) && (VisibleAt(es[j], u, s) <==> Visible(es[j], s));
      assert SameSequence(es[j], es[i]) ==> es[j] == es[i];
    }
  }

  /** Live entries come in strictly increasing user-key order. */
  lemma LiveInOrder(es: seq<Entry>, s: nat, i: int, j: int)
    requires Sorted(es) && Live(es, s, i) && Live(es, s, j) && i < j
    ensures es[i].key.user < es[j].key.user
  {
    assert Before(es[i].key, es[j].key);
  }

  /** No entry in `[from, to)` is live. */
  ghost predicate NoneLive(es: seq<Entry>, s: nat, from: int, to: int) {
    forall i | from <= i < to :: !Live(es, s, i)
  }

  /** With no live entry between them, two live entries hold neighbouring keys of the map at `s`. */
  lemma LiveNeighbours(es: seq<Entry>, s: nat, i: int, j: int, u: UserKey)
    requires Sorted(es) && UniqueSequences(Elements(es)) && -1 <= i < j <= |es|
    requires i == -1 || Live(es, s, i)
    requires j == |es| || Live(es, s, j)
    requires NoneLive(es, s, i + 1, j) && Read(Elements(es), u, s).Present?
    ensures (0 <= i && u <= es[i].key.user) || (j < |es| && es[j].key.user <= u)
  {
    var k := PresentIsLive(es, s, u);
    if 0 <= k < i {
      LiveInOrder(es, s, k, i);
    } else if j < k {
      LiveInOrder(es, s, j, k);
    }
  }

  /** A visible entry before `pos` has the user key of entry `i`. */
  ghost predicate SeenEarlier(es: seq<Entry>, s: nat, pos: int, i: int)
    requires pos <= i < |es|
  {
    exists j | 0 <= j < pos :: Visible(es[j], s) && es[j].key.user == es[i].key.user
  }

  /** Skipping keys up to `skip` hides every entry already superseded. */
  ghost predicate Hides(es: seq<Entry>, s: nat, pos: int, skipping: bool, skip: SavedKey)
    requires pos <= |es| && (skipping ==> skip.Saved?)
  {
    forall i | pos <= i < |es| && SeenEarlier(es, s, pos, i) :: skipping && es[i].key.user <= skip.user
  }

  /** One step past an entry that is invisible, or whose key is skipped from here on. */
  lemma HidesNext(es: seq<Entry>, s: nat, pos: nat, skipping: bool, skip: SavedKey, skipping': bool, skip': SavedKey)
    requires Sorted(es) && pos < |es| && (skipping ==> skip.Saved?) && (skipping' ==> skip'.Saved?)
    requires Hides(es, s, pos, skipping, skip)
    requires || (skipping' == skipping && skip' == skip
                 && (Visible(es[pos], s) ==> skipping && es[pos].key.user <= skip.user))
             || (skipping' && skip' == Saved(es[pos].key.user))
    ensures Hides(es, s, pos + 1, skipping', skip')
  {
    forall i | pos + 1 <= i < |es| && SeenEarlier(es, s, pos + 1, i)
      ensures skipping' && es[i].key.user <= skip'.user
    {
      var j :| 0 <= j < pos + 1 && Visible(es[j], s) && es[j].key.user == es[i].key.user;
      assert Before(es[pos].key, es[i].key);
      assert j == pos || (Before(es[j].key, es[pos].key) && SeenEarlier(es, s, pos, i));
    }
  }

  /** A visible value that is not skipped is live. */
  lemma ShownIsLive(es: seq<Entry>, s: nat, pos: nat, skipping: bool, skip: SavedKey)
    requires pos < |es| && (skipping ==> skip.Saved?) && Hides(es, s, pos, skipping, skip)
    requires Visible(es[pos], s) && es[pos].key.kind.TypeValue?
    requires skipping ==> es[pos].key.user > skip.user
    ensures Live(es, s, pos)
  {
    assert !SeenEarlier(es, s, pos, pos);
  }

  /**
   What a backward scan of `(q, p]` knows: either it saw nothing live, or `c` is the last visible
   entry it passed, a value, and nothing after `c` is live.
  */
  ghost predicate Scanned(es: seq<Entry>, s: nat, q: int, p: int, found: bool, c: int)
    requires -1 <= q <= p < |es|
  {
    if found then
      && q < c <= p && Visible(es[c], s) && es[c].key.kind.TypeValue?
      && NoneLive(es, s, c + 1, p + 1)
      && forall j | q < j < c :: !Visible(es[j], s)
    else
      NoneLive(es, s, q + 1, p + 1)
  }

  lemma ScannedNext(es: seq<Entry>, s: nat, q: int, p: int, found: bool, c: int)
    requires Sorted(es) && 0 <= q <= p < |es| && Scanned(es, s, q, p, found, c)
    requires Visible(es[q], s) && found ==> es[q].key.user >= es[c].key.user
    ensures !Visible(es[q], s) ==> Scanned(es, s, q - 1, p, found, c)
    ensures Visible(es[q], s) ==> Scanned(es, s, q - 1, p, es[q].key.kind.TypeValue?, q)
  {
    if found {
      assert Before(es[q].key, es[c].key);
    }
  }

  lemma ScannedEnds(es: seq<Entry>, s: nat, q: int, p: int, c: int)
    requires Sorted(es) && -1 <= q <= p < |es| && Scanned(es, s, q, p, true, c)
    requires q == -1 || es[q].key.user < es[c].key.user
    ensures Live(es, s, c)
  {
    forall j | 0 <= j < q ensures es[j].key.user <= es[q].key.user {
      assert Before(es[j].key, es[q].key);
    }
  }

  // ---------- the iterator ----------

  datatype Direction = Forward | Reverse

  datatype SavedKey = Cleared | Saved(user: UserKey)

  class DBIter {
    const iter: Cursor
    const sequence: nat
    var direction: Direction
    var valid: bool
    var savedKey: SavedKey
    var savedValue: Bytes
    ghost var cur: int

    /** Where the internal iterator stands; -1 when it ran off the front going backwards. */
    ghost function Under(): int
      reads this, iter
    {
      if iter.Valid() then iter.pos else -1
    }

    ghost predicate Ok()
      reads this, iter
    {
      && iter.Ok()
      && (valid ==> Live(iter.entries, sequence, cur))
      && (valid && direction.Forward? ==> iter.pos == cur)
      && (valid && direction.Reverse? ==>
            && savedKey == Saved(iter.entries[cur].key.user) && savedValue == iter.entries[cur].value
            && Under() < cur
            && forall j | Under() < j < cur :: !Visible(iter.entries[j], sequence))
    }

    constructor (iter: Cursor, sequence: nat)
      requires iter.Ok()
      ensures Ok() && !valid && this.iter == iter && this.sequence == sequence
    {
      this.iter, this.sequence := iter, sequence;
      direction, valid, savedKey, savedValue, cur := Forward, false, Cleared, [], -1;
    }

    function Key(): UserKey
      requires valid && (direction.Forward? ==> iter.Valid()) && (direction.Reverse? ==> savedKey.Saved?)
      reads this, iter
    {
      if direction.Forward? then iter.Key().user else savedKey.user
    }

    function Value(): Bytes
      requires valid && (direction.Forward? ==> iter.Valid())
      reads this, iter
    {
      if direction.Forward? then iter.Value() else savedValue
    }

    /** What the user sees is a key present in the map at this sequence number, and its value there. */
    lemma ShowsMap()
      requires Ok() && valid && UniqueSequences(Elements(iter.entries))
      ensures iter.entries[cur].key.user == Key()
      ensures Read(Elements(iter.entries), Key(), sequence) == Present(Value())
    {
      LiveIsPresent(iter.entries, sequence, cur);
    }

    /**
     `FindNextUserEntry`: the first live entry from the internal position on, past the keys up to
     `skip` if skipping.
    */
    method FindNextUserEntry(skipping0: bool, skip0: SavedKey)
      requires iter.Ok() && iter.Valid() && direction.Forward? && (skipping0 ==> skip0.Saved?)
      requires skipping0 ==>
        forall i | iter.pos <= i < |iter.entries| && Visible(iter.entries[i], sequence) ::
          skip0.user <= iter.entries[i].key.user
      requires Hides(iter.entries, sequence, iter.pos, skipping0, skip0)
      modifies this, iter
      ensures Ok() && direction.Forward?
      ensures valid ==> cur >= old(iter.pos) && (skipping0 ==> iter.entries[cur].key.user > skip0.user)
      ensures forall i | old(iter.pos) <= i < (if valid then cur else |iter.entries|)
        && (skipping0 ==> iter.entries[i].key.user > skip0.user) :: !Live(iter.entries, sequence, i)
    {
      var skipping, skip := skipping0, skip0;
      ghost var from, es := iter.pos, iter.entries;
      while true
        invariant iter.Ok() && iter.Valid() && direction.Forward? && from <= iter.pos
        invariant skipping ==> skip.Saved?
        invariant skipping0 ==> skipping && skip0.user <= skip.user
        invariant Hides(es, sequence, iter.pos, skipping, skip)
        invariant forall i | from <= i < |es| && Live(es, sequence, i)
          && (skipping0 ==> es[i].key.user > skip0.user) :: iter.pos <= i && (skipping ==> es[i].key.user > skip.user)
        decreases |es| - iter.pos
      {
        ghost var was, skip1 := skipping, skip;
        var e := iter.entries[iter.pos];
        if e.key.sequence <= sequence {
          match e.key.kind
          case TypeDeletion =>
            skip := Saved(e.key.user);
            skipping := true;
          case TypeValue =>
            if skipping && e.key.user <= skip.user {
            } else {
              valid, cur, savedKey := true, iter.pos, Cleared;
              ShownIsLive(es, sequence, cur, skipping, skip);
              return;
            }
        }
        HidesNext(es, sequence, iter.pos, was, skip1, skipping, skip);
        LiveLater(es, sequence, iter.pos);
        iter.Next();
        if !iter.Valid() {
          break;
        }
      }
      savedKey, valid := Cleared, false;
    }

    method Next()
      requires Ok() && valid
      modifies this, iter
      ensures Ok()
      ensures valid ==> cur > old(cur) && NoneLive(iter.entries, sequence, old(cur) + 1, cur)
      ensures !valid ==> NoneLive(iter.entries, sequence, old(cur) + 1, |iter.entries|)
    {
      ghost var es, c := iter.entries, cur;
      if direction.Reverse? {
        direction := Forward;
        if !iter.Valid() {
          iter.SeekToFirst();
        } else {
          iter.Next();
        }
        if !iter.Valid() {
          // The end, at which `Next` would stop: not reached, as the internal iterator is at or before `cur`.
          assert false;
        }
      } else {
        savedKey := Saved(iter.Key().user);
      }
      LiveHides(es, sequence, iter.pos, c);
      FindNextUserEntry(true, savedKey);
      forall i | c < i < |es| && Live(es, sequence, i) ensures es[i].key.user > es[c].key.user {
        LiveInOrder(es, sequence, c, i);
      }
    }

    /** `FindPrevUserEntry`: the last live entry up to the internal position. */
    method FindPrevUserEntry()
      requires iter.Ok() && direction.Reverse?
      modifies this, iter
      ensures Ok()
      ensures valid ==> cur <= old(Under()) && NoneLive(iter.entries, sequence, cur + 1, old(Under()) + 1)
      ensures !valid ==> NoneLive(iter.entries, sequence, 0, old(Under()) + 1)
    {
      ghost var es, p, c := iter.entries, Under(), -1;
      var valueType := TypeDeletion;
      if iter.Valid() {
        while true
          invariant iter.Ok() && iter.Valid() && direction.Reverse? && iter.pos <= p < |es|
          invariant Scanned(es, sequence, iter.pos, p, valueType.TypeValue?, c)
          invariant valueType.TypeValue? ==> savedKey == Saved(es[c].key.user) && savedValue == es[c].value
          decreases iter.pos
        {
          var e := iter.entries[iter.pos];
          if e.key.sequence <= sequence && valueType.TypeValue? && e.key.user < savedKey.user {
            break;
          }
          ScannedNext(es, sequence, iter.pos, p, valueType.TypeValue?, c);
          if e.key.sequence <= sequence {
            valueType := e.key.kind;
            c := iter.pos;
            if valueType.TypeDeletion? {
              savedKey := Cleared;
              savedValue := [];
            } else {
              savedKey := Saved(e.key.user);
              savedValue := e.value;
            }
          }
          iter.Prev();
          if !iter.Valid() {
            break;
          }
        }
      }
      if valueType.TypeDeletion? {
        valid := false;
        savedKey := Cleared;
        savedValue := [];
        direction := Forward;
      } else {
        ScannedEnds(es, sequence, Under(), p, c);
        valid := true;
        cur := c;
      }
    }

    method Prev()
      requires Ok() && valid
      modifies this, iter
      ensures Ok()
      ensures valid ==> cur < old(cur) && NoneLive(iter.entries, sequence, cur + 1, old(cur))
      ensures !valid ==> NoneLive(iter.entries, sequence, 0, old(cur))
    {
      ghost var es, c := iter.entries, cur;
      if direction.Forward? {
        savedKey := Saved(iter.Key().user);
        while true
          invariant iter.Ok() && iter.Valid() && iter.pos <= c
          invariant savedKey == Saved(es[c].key.user)
          invariant NoneLive(es, sequence, iter.pos, c)
          decreases iter.pos
        {
          iter.Prev();
          if !iter.Valid() {
            valid := false;
            savedKey := Cleared;
            savedValue := [];
            return;
          }
          if iter.Key().user < savedKey.user {
            break;
          }
          assert Before(es[iter.pos].key, es[c].key);
        }
        direction := Reverse;
      }
      FindPrevUserEntry();
    }

    method Seek(target: UserKey)
      requires iter.Ok()
      modifies this, iter
      ensures Ok()
      ensures valid ==> iter.entries[cur].key.user >= target
      ensures forall i | 0 <= i < (if valid then cur else |iter.entries|)
        && iter.entries[i].key.user >= target :: !Live(iter.entries, sequence, i)
    {
      direction := Forward;
      savedValue := [];
      savedKey := Cleared;
      iter.Seek(SeekKey(target, sequence));
      LowerBoundSplits(iter.entries, SeekKey(target, sequence));
      if iter.Valid() {
        FindNextUserEntry(false, savedKey);
      } else {
        valid := false;
      }
    }

    method SeekToFirst()
      requires iter.Ok()
      modifies this, iter
      ensures Ok()
      ensures NoneLive(iter.entries, sequence, 0, if valid then cur else |iter.entries|)
    {
      direction := Forward;
      savedValue := [];
      iter.SeekToFirst();
      if iter.Valid() {
        FindNextUserEntry(false, savedKey);
      } else {
        valid := false;
      }
    }

    method SeekToLast()
      requires iter.Ok()
      modifies this, iter
      ensures Ok()
      ensures NoneLive(iter.entries, sequence, if valid then cur + 1 else 0, |iter.entries|)
    {
      direction := Reverse;
      savedValue := [];
      iter.SeekToLast();
      FindPrevUserEntry();
    }
  }

  /** A live entry after a visible one has a greater key. */
  lemma LiveLater(es: seq<Entry>, s: nat, pos: nat)
    requires Sorted(es) && pos < |es|
    ensures Visible(es[pos], s) ==>
      forall i | pos < i < |es| && Live(es, s, i) :: es[pos].key.user < es[i].key.user
  {
    forall i | Visible(es[pos], s) && pos < i < |es| && Live(es, s, i) ensures es[pos].key.user < es[i].key.user {
      assert Before(es[pos].key, es[i].key);
    }
  }

  /** Skipping the key of a live entry hides whatever the entries up to it supersede. */
  lemma LiveHides(es: seq<Entry>, s: nat, from: nat, c: int)
    requires Sorted(es) && Live(es, s, c) && from <= c
    requires forall j | from <= j < c :: !Visible(es[j], s)
    ensures Hides(es, s, from, true, Saved(es[c].key.user))
    ensures forall i | from <= i < |es| && Visible(es[i], s) :: es[c].key.user <= es[i].key.user
    ensures forall i | 0 <= i <= c :: es[i].key.user <= es[c].key.user
  {
    forall i | 0 <= i < c ensures es[i].key.user <= es[c].key.user {
      assert Before(es[i].key, es[c].key);
    }
    forall i | from <= i < |es| && SeenEarlier(es, s, from, i) ensures es[i].key.user <= es[c].key.user {
      var j :| 0 <= j < from && Visible(es[j], s) && es[j].key.user == es[i].key.user;
      assert Before(es[j].key, es[c].key);
    }
    forall i | c < i < |es| ensures es[c].key.user <= es[i].key.user {
      assert Before(es[c].key, es[i].key);
    }
  }
}
