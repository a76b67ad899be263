// DBIter, the user-facing bidirectional cursor: db/db_iter.cc.
//
// The cursor runs over internal entries (user key, sequence, type) -> value, sorted by
// internal key, and has to look like a plain cursor over the map a snapshot shows.
module DbIter {
  import opened Coding
  import opened DbFormat

  // ------------------------------------------------------------------ what a snapshot shows

  // The entry parses and is not newer than the snapshot.
  predicate Visible(es: seq<Entry>, s: nat, i: int) {
    0 <= i < |es| && es[i].key.Parses() && es[i].key.sequence <= s
  }

  // Entry i is the first visible one of its user key, and it is a value.
  predicate Live(es: seq<Entry>, s: nat, i: int) {
    Visible(es, s, i) && es[i].key.kind == TYPE_VALUE &&
    forall j | 0 <= j < i :: Visible(es, s, j) ==> es[j].key.user != es[i].key.user
  }

  type Pair = (UserKey, Value)

  // The live pairs among the first n entries.
  function LivePairs(es: seq<Entry>, s: nat, n: nat): (v: seq<Pair>)
    requires n <= |es|
    ensures |v| <= n
  {
    if n == 0 then []
    else LivePairs(es, s, n - 1) +
         (if Live(es, s, n - 1) then [(es[n - 1].key.user, es[n - 1].value)] else [])
  }

  // The sorted list of pairs that a reader at snapshot s must see.
  function View(es: seq<Entry>, s: nat): (v: seq<Pair>) {
    LivePairs(es, s, |es|)
  }

  // The position of entry i in the view, when it is live.
  function Rank(es: seq<Entry>, s: nat, i: nat): (r: nat)
    requires i <= |es|
  {
    |LivePairs(es, s, i)|
  }

  lemma SortedUsers(es: seq<Entry>, i: nat, j: nat)
    requires Sorted(es) && i <= j < |es|
    ensures !KeyLess(es[j].key.user, es[i].key.user)
  {
    KeyOrder();
    InternalOrder();
  }

  // A live entry is the newest visible entry of its key, whatever the order of the list says.
  lemma LiveIsNewest(es: seq<Entry>, s: nat, i: nat)
    requires Sorted(es) && i < |es|
    ensures Live(es, s, i) <==>
            Visible(es, s, i) && es[i].key.kind == TYPE_VALUE &&
            forall j | 0 <= j < |es| :: Visible(es, s, j) && es[j].key.user == es[i].key.user ==>
                       es[j].key.Tag() <= es[i].key.Tag()
  {
    KeyOrder();
    forall j | 0 <= j < |es| && es[j].key.user == es[i].key.user && j != i
      ensures j < i <==> es[j].key.Tag() > es[i].key.Tag()
    {
      if j < i {
        assert Before(es[j].key, es[i].key);
      } else {
        assert Before(es[i].key, es[j].key);
      }
    }
  }

  // ------------------------------------------------------------------ ranks

  lemma {:induction false} LivePairsPrefix(es: seq<Entry>, s: nat, i: nat, n: nat)
    requires i <= n <= |es|
    ensures LivePairs(es, s, i) <= LivePairs(es, s, n)
    ensures i < n && Live(es, s, i) ==>
              Rank(es, s, i) < |LivePairs(es, s, n)| &&
              LivePairs(es, s, n)[Rank(es, s, i)] == (es[i].key.user, es[i].value)
    decreases n - i
  {
    if i < n {
      LivePairsPrefix(es, s, i + 1, n);
    }
  }

  lemma {:induction false} NoneLiveBetween(es: seq<Entry>, s: nat, i: nat, n: nat)
    requires i <= n <= |es|
    requires forall j | i <= j < n :: !Live(es, s, j)
    ensures Rank(es, s, i) == Rank(es, s, n)
    decreases n - i
  {
    if i < n {
      NoneLiveBetween(es, s, i + 1, n);
    }
  }

  // Every position of the view is the rank of a live entry.
  lemma {:induction false} LiveAtRank(es: seq<Entry>, s: nat, n: nat, r: nat) returns (i: nat)
    requires n <= |es| && r < |LivePairs(es, s, n)|
    ensures i < n && Live(es, s, i) && Rank(es, s, i) == r
  {
    if r < |LivePairs(es, s, n - 1)| {
      i := LiveAtRank(es, s, n - 1, r);
    } else {
      i := n - 1;
    }
  }

  // The view is the visible map: strictly sorted by key, and (k, v) is in it exactly when
  // the newest visible entry of k is a value v.
  lemma ViewIsTheVisibleMap(es: seq<Entry>, s: nat)
    requires Sorted(es)
    ensures forall a, b | 0 <= a < b < |View(es, s)| :: Bytewise(View(es, s)[a].0, View(es, s)[b].0)
    ensures forall a, b | 0 <= a < b < |View(es, s)| :: KeyLess(View(es, s)[a].0, View(es, s)[b].0)
    ensures forall k: UserKey, v: Value :: (k, v) in View(es, s) <==>
              exists i | 0 <= i < |es| :: es[i].key.user == k && es[i].value == v &&
                Visible(es, s, i) && es[i].key.kind == TYPE_VALUE &&
                forall j | 0 <= j < |es| :: Visible(es, s, j) && es[j].key.user == k ==>
                           es[j].key.Tag() <= es[i].key.Tag()
  {
    KeyOrder();
    var view := View(es, s);
    forall a, b | 0 <= a < b < |view|
      ensures KeyLess(view[a].0, view[b].0) && Bytewise(view[a].0, view[b].0)
    {
      KeyLessIsBytewise(view[a].0, view[b].0);
      var i := LiveAtRank(es, s, |es|, a);
      var j := LiveAtRank(es, s, |es|, b);
      LivePairsPrefix(es, s, i, |es|);
      LivePairsPrefix(es, s, j, |es|);
      if j <= i {
        LivePairsPrefix(es, s, j, i);
      }
      SortedUsers(es, i, j);
    }
    forall k: UserKey, v: Value | (k, v) in view
      ensures exists i | 0 <= i < |es| :: es[i].key.user == k && es[i].value == v && Live(es, s, i)
    {
      var r :| 0 <= r < |view| && view[r] == (k, v);
      var i := LiveAtRank(es, s, |es|, r);
      LivePairsPrefix(es, s, i, |es|);
    }
    forall i | 0 <= i < |es|
      ensures Live(es, s, i) ==> (es[i].key.user, es[i].value) in view
    {
      LivePairsPrefix(es, s, i, |es|);
      LiveIsNewest(es, s, i);
    }
    forall i | 0 <= i < |es| {
      LiveIsNewest(es, s, i);
    }
  }

  // ------------------------------------------------------------------ the plain cursor

  datatype Cursor = Invalid | At(n: nat)

  datatype Command = Seek(target: UserKey) | SeekToFirst | SeekToLast | Next | Prev

  // The first position whose key is not less than the target.
  function LowerBound(view: seq<Pair>, target: UserKey): (n: nat)
    ensures n <= |view|
    ensures forall j | 0 <= j < n :: KeyLess(view[j].0, target)
    ensures n < |view| ==> !KeyLess(view[n].0, target)
  {
    if view == [] || !KeyLess(view[0].0, target) then 0 else 1 + LowerBound(view[1..], target)
  }

  // A cursor over a sorted list.  Next and Prev may be asked only of a valid cursor
  // (both begin with assert(valid_)); an invalid one is left alone.
  function Moved(view: seq<Pair>, c: Cursor, cmd: Command): (c': Cursor) {
    var n: int :=
      match cmd
      case Seek(target) => LowerBound(view, target)
      case SeekToFirst => 0
      case SeekToLast => |view| - 1
      case Next => if c.At? then c.n + 1 else -1
      case Prev => if c.At? then c.n - 1 else -1;
    if 0 <= n < |view| then At(n) else Invalid
  }

  // Moving there and back.
  lemma NextThenPrev(view: seq<Pair>, n: nat)
    requires n < |view|
    ensures n + 1 < |view| ==> Moved(view, Moved(view, At(n), Next), Prev) == At(n)
    ensures n > 0 ==> Moved(view, Moved(view, At(n), Prev), Next) == At(n)
  {
  }

  // ------------------------------------------------------------------ the internal iterator

  // The contract of the merging iterator DBIter is given: a cursor over sorted entries.
  class InternalIterator {
    const es: seq<Entry>
    var pos: int

    constructor (es: seq<Entry>)
      ensures this.es == es && pos == -1
    {
      this.es := es;
      pos := -1;
    }

    predicate Valid()
      reads this
    {
      0 <= pos < |es|
    }

    method SeekToFirst()
      modifies this
      ensures pos == if es == [] then -1 else 0
    {
      pos := if es == [] then -1 else 0;
    }

    method SeekToLast()
      modifies this
      ensures pos == |es| - 1
    {
      pos := |es| - 1;
    }

    method Next()
      requires Valid()
      modifies this
      ensures pos == if old(pos) + 1 < |es| then old(pos) + 1 else -1
    {
      pos := if pos + 1 < |es| then pos + 1 else -1;
    }

    method Prev()
      requires Valid()
      modifies this
      ensures pos == old(pos) - 1
    {
      pos := pos - 1;
    }

    method Seek(target: InternalKey)
      modifies this
      ensures if Valid() then !Before(es[pos].key, target) && forall j | 0 <= j < pos :: Before(es[j].key, target)
              else pos == -1 && forall j | 0 <= j < |es| :: Before(es[j].key, target)
    {
      pos := 0;
      while pos < |es| && Before(es[pos].key, target)
        invariant 0 <= pos <= |es|
        invariant forall j | 0 <= j < pos :: Before(es[j].key, target)
      {
        pos := pos + 1;
      }
      if pos == |es| {
        pos := -1;
      }
    }
  }

  // ------------------------------------------------------------------ the forward scan

  // Where FindNextUserEntry may start.  Whatever is visible before lo is of a key the scan
  // skips, or of a key that does not come again; and nothing visible from lo on is of a key
  // below the one to skip.
  ghost predicate ScanStart(es: seq<Entry>, s: nat, lo: int, skipping: bool, skip0: UserKey) {
    && 0 <= lo < |es|
    && (forall j | 0 <= j < lo && Visible(es, s, j) ::
          (skipping && !KeyLess(skip0, es[j].key.user)) ||
          forall q | lo <= q < |es| :: es[q].key.user != es[j].key.user)
    && (skipping ==> forall j | lo <= j < |es| && Visible(es, s, j) :: !KeyLess(es[j].key.user, skip0))
  }

  // A live entry the scan has to pass over.
  ghost predicate PassedOver(es: seq<Entry>, j: int, skipping: bool, skip0: UserKey)
    requires 0 <= j < |es|
  {
    skipping && !KeyLess(skip0, es[j].key.user)
  }

  // What the scan knows after it has consumed es[lo..hi].  `hider` is the deletion the key
  // to skip came from, unless it is still the one the scan was given.
  ghost predicate Scanned(es: seq<Entry>, s: nat, lo: int, hi: int, skipping: bool, skip0: UserKey,
                          skip: bool, saved: UserKey, hider: int)
  {
    && 0 <= lo <= hi <= |es|
    && (skipping ==> skip && !KeyLess(saved, skip0))
    && (skip ==> (skipping && saved == skip0) ||
                 (lo <= hider < hi && Visible(es, s, hider) && saved == es[hider].key.user))
    && (forall j | lo <= j < hi && Visible(es, s, j) :: skip && !KeyLess(saved, es[j].key.user))
    && (forall j | lo <= j < hi && Live(es, s, j) :: PassedOver(es, j, skipping, skip0))
  }

  lemma ScanInvisible(es: seq<Entry>, s: nat, lo: int, hi: int, skipping: bool, skip0: UserKey,
                      skip: bool, saved: UserKey, hider: int)
    requires Scanned(es, s, lo, hi, skipping, skip0, skip, saved, hider) && hi < |es| && !Visible(es, s, hi)
    ensures Scanned(es, s, lo, hi + 1, skipping, skip0, skip, saved, hider)
  {
  }

  lemma ScanDeletion(es: seq<Entry>, s: nat, lo: int, hi: int, skipping: bool, skip0: UserKey,
                     skip: bool, saved: UserKey, hider: int)
    requires Sorted(es) && ScanStart(es, s, lo, skipping, skip0)
    requires Scanned(es, s, lo, hi, skipping, skip0, skip, saved, hider) && hi < |es| && Visible(es, s, hi)
    requires es[hi].key.kind == TYPE_DELETION
    ensures Scanned(es, s, lo, hi + 1, skipping, skip0, true, es[hi].key.user, hi)
  {
    forall j | lo <= j <= hi
      ensures !KeyLess(es[hi].key.user, es[j].key.user)
    {
      SortedUsers(es, j, hi);
    }
  }

  lemma ScanHidden(es: seq<Entry>, s: nat, lo: int, hi: int, skipping: bool, skip0: UserKey,
                   skip: bool, saved: UserKey, hider: int)
    requires Sorted(es)
    requires Scanned(es, s, lo, hi, skipping, skip0, skip, saved, hider) && hi < |es| && Visible(es, s, hi)
    requires skip && !KeyLess(saved, es[hi].key.user)
    ensures Scanned(es, s, lo, hi + 1, skipping, skip0, skip, saved, hider)
  {
    if lo <= hider < hi && saved == es[hider].key.user && Live(es, s, hi) {
      SortedUsers(es, hider, hi);
      KeyLessTotal(es[hider].key.user, es[hi].key.user);
    }
  }

  lemma ScanFound(es: seq<Entry>, s: nat, lo: int, hi: int, skipping: bool, skip0: UserKey,
                  skip: bool, saved: UserKey, hider: int)
    requires ScanStart(es, s, lo, skipping, skip0)
    requires Scanned(es, s, lo, hi, skipping, skip0, skip, saved, hider) && hi < |es| && Visible(es, s, hi)
    requires es[hi].key.kind == TYPE_VALUE && !(skip && !KeyLess(saved, es[hi].key.user))
    ensures Live(es, s, hi) && (skipping ==> KeyLess(skip0, es[hi].key.user))
  {
    var user := es[hi].key.user;
    if skipping && !KeyLess(skip0, user) {
      KeyOrder();
    }
    forall j | 0 <= j < hi && Visible(es, s, j)
      ensures es[j].key.user != user
    {
      if j < lo && skipping && !KeyLess(skip0, es[j].key.user) {
        KeyOrder();
      }
    }
  }

  // ------------------------------------------------------------------ the backward scan

  // What FindPrevUserEntry knows after it has consumed es(p..p0], going down: the last
  // visible entry it met was a deletion (or there was none), or the value at `cand`.
  ghost predicate ScannedBack(es: seq<Entry>, s: nat, p: int, p0: int, kind: byte,
                              saved: UserKey, savedValue: Value, cand: int)
  {
    && -1 <= p <= p0 < |es|
    && (kind != TYPE_DELETION ==>
          && p < cand <= p0 && Visible(es, s, cand) && es[cand].key.kind == TYPE_VALUE
          && saved == es[cand].key.user && savedValue == es[cand].value
          && forall j | p < j < cand :: !Visible(es, s, j))
    && (forall j | p < j <= p0 && Live(es, s, j) :: kind != TYPE_DELETION && j == cand)
  }

  lemma BackTaken(es: seq<Entry>, s: nat, p: int, p0: int, kind: byte,
                  saved: UserKey, savedValue: Value, cand: int)
    requires Sorted(es) && ScannedBack(es, s, p, p0, kind, saved, savedValue, cand)
    requires 0 <= p && Visible(es, s, p) && !(kind != TYPE_DELETION && KeyLess(es[p].key.user, saved))
    ensures ScannedBack(es, s, p - 1, p0, es[p].key.kind, es[p].key.user, es[p].value, p)
  {
    if kind != TYPE_DELETION {
      SortedUsers(es, p, cand);
      KeyLessTotal(es[p].key.user, es[cand].key.user);
    }
  }

  lemma BackStops(es: seq<Entry>, s: nat, p: int, p0: int, kind: byte,
                  saved: UserKey, savedValue: Value, cand: int)
    requires Sorted(es) && ScannedBack(es, s, p, p0, kind, saved, savedValue, cand)
    requires kind != TYPE_DELETION
    requires p == -1 || KeyLess(es[p].key.user, saved)
    ensures Live(es, s, cand)
  {
    forall j | 0 <= j <= p
      ensures es[j].key.user != saved
    {
      SortedUsers(es, j, p);
      KeyOrder();
    }
  }

  // In Reverse, the internal iterator is at the last visible entry of an earlier key, or
  // before the list when there is none.  So it is before every entry of the current key.
  ghost predicate StandsBefore(es: seq<Entry>, s: nat, pos: int, cur: int)
    requires 0 <= cur < |es|
  {
    && -1 <= pos < cur
    && (forall j | pos < j < cur :: !Visible(es, s, j))
    && (pos >= 0 ==> Visible(es, s, pos) && KeyLess(es[pos].key.user, es[cur].key.user))
  }

  // f is the first entry of the key at cur.
  predicate IsFirstOfKey(es: seq<Entry>, f: int, cur: int) {
    0 <= f <= cur < |es| && es[f].key.user == es[cur].key.user && (f == 0 || es[f - 1].key.user != es[cur].key.user)
  }

  // It is just before them, where the class comment puts it, exactly when the last entry of
  // an earlier key is one the snapshot sees, or there is no such entry.
  lemma JustBeforeIff(es: seq<Entry>, s: nat, pos: int, cur: int, f: int)
    requires Sorted(es) && IsFirstOfKey(es, f, cur) && StandsBefore(es, s, pos, cur)
    ensures pos < f && (pos == f - 1 <==> f == 0 || Visible(es, s, f - 1))
  {
    if pos >= f {
      SortedUsers(es, f, pos);
    }
  }

  // Three keys, the middle one newer than the snapshot: on the last key, the iterator stands
  // at the first.
  lemma NotAlwaysJustBefore()
    ensures var es := [Entry(InternalKey([73], 1, TYPE_VALUE), []), Entry(InternalKey([74], 9, TYPE_VALUE), []),
                       Entry(InternalKey([75], 5, TYPE_VALUE), [])];
            Sorted(es) && Live(es, 5, 2) && IsFirstOfKey(es, 2, 2) &&
            StandsBefore(es, 5, 0, 2) && forall pos | StandsBefore(es, 5, pos, 2) :: pos == 0
  {
    var es := [Entry(InternalKey([73], 1, TYPE_VALUE), []), Entry(InternalKey([74], 9, TYPE_VALUE), []),
               Entry(InternalKey([75], 5, TYPE_VALUE), [])];
    assert Visible(es, 5, 0);
  }

  // ------------------------------------------------------------------ ranks of neighbours

  lemma NextLiveRank(es: seq<Entry>, s: nat, c: int, c': int)
    requires 0 <= c < c' <= |es| && Live(es, s, c)
    requires forall j | c < j < c' :: !Live(es, s, j)
    ensures Rank(es, s, c') == Rank(es, s, c) + 1
  {
    NoneLiveBetween(es, s, c + 1, c');
  }

  lemma NoneLiveBelow(es: seq<Entry>, s: nat, c: int)
    requires 0 <= c <= |es| && forall j | 0 <= j < c :: !Live(es, s, j)
    ensures Rank(es, s, c) == 0
  {
    NoneLiveBetween(es, s, 0, c);
  }

  // Two live entries of one key would hide one another.
  lemma SameKeyNotLive(es: seq<Entry>, s: nat, c: int, j: int)
    requires Sorted(es) && 0 <= c < j < |es| && Live(es, s, c) && Live(es, s, j)
    ensures KeyLess(es[c].key.user, es[j].key.user)
  {
    SortedUsers(es, c, j);
    KeyLessTotal(es[c].key.user, es[j].key.user);
  }

  lemma SeekRank(es: seq<Entry>, s: nat, target: UserKey, c: int)
    requires Sorted(es) && 0 <= c <= |es|
    requires c < |es| ==> Live(es, s, c) && !KeyLess(es[c].key.user, target)
    requires forall j | 0 <= j < c && Live(es, s, j) :: KeyLess(es[j].key.user, target)
    ensures Rank(es, s, c) == LowerBound(View(es, s), target)
  {
    var view, n := View(es, s), Rank(es, s, c);
    LivePairsPrefix(es, s, c, |es|);
    forall r | 0 <= r < n
      ensures KeyLess(view[r].0, target)
    {
      var i := LiveAtRank(es, s, c, r);
      LivePairsPrefix(es, s, i, |es|);
    }
  }

  // ------------------------------------------------------------------ one move of the cursor

  // The plain cursor on live entry c, or past the last one.
  ghost function CursorOn(es: seq<Entry>, s: nat, c: int): (r: Cursor) {
    if 0 <= c < |es| then At(Rank(es, s, c)) else Invalid
  }

  lemma NextScanStart(es: seq<Entry>, s: nat, c: int, lo: int)
    requires Sorted(es) && Live(es, s, c) && 0 <= lo <= c
    requires forall j | lo <= j < c :: !Visible(es, s, j)
    ensures ScanStart(es, s, lo, true, es[c].key.user)
  {
    forall j | 0 <= j < |es|
      ensures j <= c ==> !KeyLess(es[c].key.user, es[j].key.user)
      ensures j >= c ==> !KeyLess(es[j].key.user, es[c].key.user)
    {
      SortedUsers(es, if j <= c then j else c, if j <= c then c else j);
    }
  }

  // The scan started at or before c and found c', the first live entry past the key of c.
  lemma AfterNext(es: seq<Entry>, s: nat, c: int, lo: int, c': int)
    requires Sorted(es) && Live(es, s, c) && 0 <= lo <= c && lo <= c' <= |es|
    requires c' < |es| ==> Live(es, s, c') && KeyLess(es[c].key.user, es[c'].key.user)
    requires forall j | lo <= j < c' && Live(es, s, j) :: PassedOver(es, j, true, es[c].key.user)
    ensures CursorOn(es, s, c') == Moved(View(es, s), CursorOn(es, s, c), Command.Next)
  {
    hide Sorted, KeyLess;
    if c' <= c {
      SortedUsers(es, c', c);
    }
    forall j | c < j < c'
      ensures !Live(es, s, j)
    {
      if Live(es, s, j) {
        SameKeyNotLive(es, s, c, j);
      }
    }
    NextLiveRank(es, s, c, c');
    LivePairsPrefix(es, s, c', |es|);
  }

  // c' is the last live entry before c, or -1.
  lemma AfterPrev(es: seq<Entry>, s: nat, c: int, c': int)
    requires Live(es, s, c) && -1 <= c' < c && (c' >= 0 ==> Live(es, s, c'))
    requires forall j | c' < j < c :: !Live(es, s, j)
    ensures CursorOn(es, s, c') == Moved(View(es, s), CursorOn(es, s, c), Command.Prev)
  {
    LivePairsPrefix(es, s, c, |es|);
    if c' >= 0 {
      NextLiveRank(es, s, c', c);
    } else {
      NoneLiveBelow(es, s, c);
    }
  }

  // Stepping back from c one more entry, still at or above the key of c.
  lemma BackOverKey(es: seq<Entry>, s: nat, c: int, p: int)
    requires Sorted(es) && Live(es, s, c) && 0 <= p < c && !KeyLess(es[p].key.user, es[c].key.user)
    ensures !Live(es, s, p)
  {
    SortedUsers(es, p, c);
    KeyLessTotal(es[p].key.user, es[c].key.user);
  }

  // ------------------------------------------------------------------ DBIter

  datatype Direction = Forward | Reverse

  class DBIter {
    const iter: InternalIterator
    const sequence: nat
    var corrupt: bool           // status_ is a corruption
    var savedKey: seq<byte>     // the current key when direction is Reverse
    var savedValue: Value       // the current value when direction is Reverse
    var direction: Direction
    var valid: bool
    ghost var cur: int          // the live entry the cursor stands on

    // The class invariant: in Forward the internal iterator is at the current entry, in
    // Reverse it is where StandsBefore says.
    ghost predicate Inv()
      reads this, iter
    {
      && Sorted(iter.es)
      && -1 <= iter.pos < |iter.es|
      && (valid ==> Live(iter.es, sequence, cur))
      && (valid && direction == Forward ==> iter.pos == cur)
      && (valid && direction == Reverse ==>
            && StandsBefore(iter.es, sequence, iter.pos, cur)
            && savedKey == iter.es[cur].key.user && savedValue == iter.es[cur].value)
    }

    ghost function Contents(): (v: seq<Pair>)
      reads this, iter
    {
      View(iter.es, sequence)
    }

    // The plain cursor this object stands for.
    ghost function Position(): (c: Cursor)
      requires Inv()
      reads this, iter
    {
      if valid then At(Rank(iter.es, sequence, cur)) else Invalid
    }

    constructor (it: InternalIterator, s: nat)
      requires Sorted(it.es) && it.pos == -1
      ensures iter == it && sequence == s && Inv() && Position() == Invalid && !corrupt
    {
      iter, sequence := it, s;
      corrupt, savedKey, savedValue := false, [], [];
      direction, valid, cur := Forward, false, -1;
    }

    method Key() returns (k: UserKey)
      requires Inv() && valid
      ensures Position().n < |Contents()| && k == Contents()[Position().n].0
    {
      LivePairsPrefix(iter.es, sequence, cur, |iter.es|);
      k := if direction == Forward then iter.es[iter.pos].key.user else savedKey;
    }

    method CurrentValue() returns (v: Value)
      requires Inv() && valid
      ensures Position().n < |Contents()| && v == Contents()[Position().n].1
    {
      LivePairsPrefix(iter.es, sequence, cur, |iter.es|);
      v := if direction == Forward then iter.es[iter.pos].value else savedValue;
    }

    // ParseKey followed by the sequence test that every caller makes.
    method ParsesAndVisible() returns (ok: bool)
      requires iter.Valid()
      modifies this`corrupt
      ensures ok == Visible(iter.es, sequence, iter.pos)
    {
      var k := iter.es[iter.pos].key;
      if !k.Parses() {
        corrupt := true;
        return false;
      }
      ok := k.sequence <= sequence;
    }

    // The first live entry at or after iter whose key is past *skip, when skipping.  The
    // source passes &saved_key_ for skip at every call.
    method FindNextUserEntry(skipping: bool)
      requires Sorted(iter.es) && direction == Forward
      requires ScanStart(iter.es, sequence, iter.pos, skipping, savedKey)
      modifies this, iter
      ensures direction == Forward && Inv()
      ensures valid ==> old(iter.pos) <= cur && (skipping ==> KeyLess(old(savedKey), iter.es[cur].key.user))
      ensures forall j | old(iter.pos) <= j < (if valid then cur else |iter.es|) && Live(iter.es, sequence, j) ::
                PassedOver(iter.es, j, skipping, old(savedKey))
    {
      var skip := skipping;
      ghost var es, lo, hi, skip0 := iter.es, iter.pos, iter.pos, savedKey;
      ghost var hider := -1;
      while iter.Valid()
        invariant direction == Forward && -1 <= iter.pos < |es|
        invariant hi == if iter.Valid() then iter.pos else |es|
        invariant Scanned(es, sequence, lo, hi, skipping, skip0, skip, savedKey, hider)
        decreases |es| - hi
      {
        var ok := ParsesAndVisible();
        if ok {
          var key := iter.es[iter.pos].key;
          if key.kind == TYPE_DELETION {
            // From here on this deletion hides its key
            ScanDeletion(es, sequence, lo, hi, skipping, skip0, skip, savedKey, hider);
            savedKey := key.user;
            skip := true;
            hider := hi;
          } else if skip && !KeyLess(savedKey, key.user) {
            // An older entry, or one of the key to skip
            ScanHidden(es, sequence, lo, hi, skipping, skip0, skip, savedKey, hider);
          } else {
            ScanFound(es, sequence, lo, hi, skipping, skip0, skip, savedKey, hider);
            valid := true;
            savedKey := [];
            cur := iter.pos;
            return;
          }
        } else {
          ScanInvisible(es, sequence, lo, hi, skipping, skip0, skip, savedKey, hider);
        }
        iter.Next();
        hi := hi + 1;
      }
      savedKey := [];
      valid := false;
    }

    method Next()
      requires Inv() && valid
      modifies this, iter
      ensures Inv() && Position() == Moved(Contents(), old(Position()), Command.Next)
      ensures direction == Forward
    {
      ghost var es, c := iter.es, cur;
      if direction == Reverse {
        direction := Forward;
        // Step forward again; whatever of the current key is met, the scan passes over
        if !iter.Valid() {
          iter.SeekToFirst();
        } else {
          iter.Next();
        }
        // The source tests !iter_->Valid() here.  The entry cur lies ahead, so it holds.
        assert iter.Valid();
      } else {
        savedKey := iter.es[iter.pos].key.user;
      }
      ghost var lo := iter.pos;
      NextScanStart(es, sequence, c, lo);
      FindNextUserEntry(true);
      AfterNext(es, sequence, c, lo, if valid then cur else |es|);
    }

    method FindPrevUserEntry()
      requires Sorted(iter.es) && direction == Reverse && -1 <= iter.pos < |iter.es|
      modifies this, iter
      ensures Inv()
      ensures valid ==> direction == Reverse && cur <= old(iter.pos) && StandsBefore(iter.es, sequence, iter.pos, cur)
      ensures forall j | (if valid then cur else -1) < j <= old(iter.pos) :: !Live(iter.es, sequence, j)
    {
      hide KeyLess;
      var kind: byte := TYPE_DELETION;
      ghost var es, p0, cand := iter.es, iter.pos, -1;
      while iter.Valid()
        invariant direction == Reverse
        invariant ScannedBack(es, sequence, iter.pos, p0, kind, savedKey, savedValue, cand)
        decreases iter.pos
      {
        var ok := ParsesAndVisible();
        if ok {
          if kind != TYPE_DELETION && KeyLess(iter.es[iter.pos].key.user, savedKey) {
            // An earlier key begins, and the saved one is live
            break;
          }
          BackTaken(es, sequence, iter.pos, p0, kind, savedKey, savedValue, cand);
          kind := iter.es[iter.pos].key.kind;
          if kind == TYPE_DELETION {
            savedKey := [];
            savedValue := [];
          } else {
            savedKey := iter.es[iter.pos].key.user;
            savedValue := iter.es[iter.pos].value;
          }
          cand := iter.pos;
        }
        iter.Prev();
      }
      if kind == TYPE_DELETION {
        // Nothing live is left before here
        valid := false;
        savedKey := [];
        savedValue := [];
        direction := Forward;
      } else {
        BackStops(es, sequence, iter.pos, p0, kind, savedKey, savedValue, cand);
        valid := true;
        cur := cand;
      }
    }

    method Prev()
      requires Inv() && valid
      modifies this, iter
      ensures Inv() && Position() == Moved(Contents(), old(Position()), Command.Prev)
      ensures valid ==> direction == Reverse
    {
      ghost var es, c := iter.es, cur;
      if direction == Forward {
        // Leave the current key behind, as the backward scan expects
        savedKey := iter.es[iter.pos].key.user;
        while true
          invariant 0 <= iter.pos <= c && savedKey == es[c].key.user
          invariant forall j | iter.pos <= j < c :: !Live(es, sequence, j)
          decreases iter.pos
        {
          iter.Prev();
          if !iter.Valid() {
            valid := false;
            savedKey := [];
            savedValue := [];
            AfterPrev(es, sequence, c, -1);
            return;
          }
          if KeyLess(iter.es[iter.pos].key.user, savedKey) {
            break;
          }
          BackOverKey(es, sequence, c, iter.pos);
        }
        direction := Reverse;
      } else {
        assert forall j | iter.pos < j < c :: !Live(es, sequence, j);
      }
      FindPrevUserEntry();
      AfterPrev(es, sequence, c, if valid then cur else -1);
    }

    method Seek(target: UserKey)
      requires Inv()
      modifies this, iter
      ensures Inv() && Position() == Moved(Contents(), old(Position()), Command.Seek(target))
    {
      KeyOrder();
      ghost var es := iter.es;
      direction := Forward;
      savedValue := [];
      var seek := InternalKey(target, sequence, TYPE_FOR_SEEK);
      savedKey := Encode(seek);
      iter.Seek(seek);
      forall j | 0 <= j < |es| && Before(es[j].key, seek) && Visible(es, sequence, j)
        ensures KeyLess(es[j].key.user, target)
      {
        TagOrder(es[j].key, seek);
      }
      if iter.Valid() {
        ghost var lo := iter.pos;
        FindNextUserEntry(false);
        if valid {
          SortedUsers(es, lo, cur);
        }
      } else {
        valid := false;
      }
      SeekRank(es, sequence, target, if valid then cur else |es|);
      LivePairsPrefix(es, sequence, if valid then cur else |es|, |es|);
    }

    method SeekToFirst()
      requires Inv()
      modifies this, iter
      ensures Inv() && Position() == Moved(Contents(), old(Position()), Command.SeekToFirst)
    {
      direction := Forward;
      savedValue := [];
      iter.SeekToFirst();
      if iter.Valid() {
        FindNextUserEntry(false);
      } else {
        valid := false;
      }
      NoneLiveBelow(iter.es, sequence, if valid then cur else |iter.es|);
      LivePairsPrefix(iter.es, sequence, if valid then cur else |iter.es|, |iter.es|);
    }

    method SeekToLast()
      requires Inv()
      modifies this, iter
      ensures Inv() && Position() == Moved(Contents(), old(Position()), Command.SeekToLast)
    {
      direction := Reverse;
      savedValue := [];
      iter.SeekToLast();
      FindPrevUserEntry();
      if valid {
        NextLiveRank(iter.es, sequence, cur, |iter.es|);
      } else {
        NoneLiveBelow(iter.es, sequence, |iter.es|);
      }
    }
  }

  // ------------------------------------------------------------------ whole runs

  // What a client sees after each command: the pair under the cursor, if it is valid.
  datatype Observation = Nothing | Sees(key: UserKey, value: Value)

  function Observed(view: seq<Pair>, c: Cursor): (o: Observation) {
    if c.At? && c.n < |view| then Sees(view[c.n].0, view[c.n].1) else Nothing
  }

  // The observations of a plain cursor over the sorted list.
  function PlainRun(view: seq<Pair>, c: Cursor, cmds: seq<Command>): (os: seq<Observation>)
    ensures |os| == |cmds|
    decreases |cmds|
  {
    if cmds == [] then []
    else
      var c' := Moved(view, c, cmds[0]);
      [Observed(view, c')] + PlainRun(view, c', cmds[1..])
  }

  function Shown(v: seq<Pair>): (os: seq<Observation>)
    ensures |os| == |v|
  {
    if v == [] then [] else [Sees(v[0].0, v[0].1)] + Shown(v[1..])
  }

  function Backwards(v: seq<Pair>): (r: seq<Pair>)
    ensures |r| == |v|
  {
    if v == [] then [] else [v[|v| - 1]] + Backwards(v[..|v| - 1])
  }

  function Repeated(cmd: Command, n: nat): (cmds: seq<Command>)
    ensures |cmds| == n
  {
    if n == 0 then [] else [cmd] + Repeated(cmd, n - 1)
  }

  lemma {:induction false} NextShowsTheRest(view: seq<Pair>, n: nat)
    requires n < |view|
    ensures PlainRun(view, At(n), Repeated(Next, |view| - n)) == Shown(view[n + 1..]) + [Nothing]
    decreases |view| - n
  {
    assert Repeated(Next, |view| - n)[1..] == Repeated(Next, |view| - n - 1);
    if n + 1 < |view| {
      NextShowsTheRest(view, n + 1);
      assert view[n + 1..][1..] == view[n + 2..];
    } else {
      assert Repeated(Next, 1)[1..] == [];
    }
  }

  lemma {:induction false} PrevShowsTheRest(view: seq<Pair>, n: nat)
    requires n < |view|
    ensures PlainRun(view, At(n), Repeated(Prev, n + 1)) == Shown(Backwards(view[..n])) + [Nothing]
  {
    assert Repeated(Prev, n + 1)[1..] == Repeated(Prev, n);
    if n > 0 {
      PrevShowsTheRest(view, n - 1);
      assert view[..n][n - 1] == view[n - 1] && view[..n][..n - 1] == view[..n - 1];
      assert Backwards(view[..n])[1..] == Backwards(view[..n - 1]);
    } else {
      assert Repeated(Prev, 1)[1..] == [];
    }
  }

  // From the first key on, Next shows every pair of the list once, in order, and then nothing;
  // from the last key back, Prev shows them in the reverse order.
  lemma ScansShowEverything(view: seq<Pair>, c: Cursor)
    ensures PlainRun(view, c, [SeekToFirst] + Repeated(Next, |view|)) == Shown(view) + [Nothing]
    ensures PlainRun(view, c, [SeekToLast] + Repeated(Prev, |view|)) == Shown(Backwards(view)) + [Nothing]
  {
    var n := |view|;
    assert ([SeekToFirst] + Repeated(Next, n))[1..] == Repeated(Next, n);
    assert ([SeekToLast] + Repeated(Prev, n))[1..] == Repeated(Prev, n);
    if n > 0 {
      NextShowsTheRest(view, 0);
      PrevShowsTheRest(view, n - 1);
      assert Backwards(view)[1..] == Backwards(view[..n - 1]);
    }
  }

  // A seek shows the first pair whose key is not before the target, or nothing if all are.
  lemma SeekShowsTheFirstAtOrAfter(view: seq<Pair>, c: Cursor, target: UserKey, n: nat)
    requires forall a, b | 0 <= a < b < |view| :: Bytewise(view[a].0, view[b].0)
    requires n <= |view| && (n > 0 ==> Bytewise(view[n - 1].0, target)) && (n < |view| ==> !Bytewise(view[n].0, target))
    ensures PlainRun(view, c, [Seek(target)]) == [if n < |view| then Sees(view[n].0, view[n].1) else Nothing]
  {
    forall a, b
      ensures Bytewise(a, b) <==> KeyLess(a, b)
    {
      KeyLessIsBytewise(a, b);
    }
    KeyOrder();
    hide KeyLess, Bytewise;
    var m := LowerBound(view, target);
    assert forall j | 0 <= j < n :: KeyLess(view[j].0, target);
    assert m == n;
    assert [Command.Seek(target)][1..] == [];
  }

  // The switch from Next to Prev and back loses nothing: the same key and value, and the
  // position itself.
  method NextPrevReturns(it: DBIter) returns (before: Pair, after: Pair)
    requires it.Inv() && it.valid && it.Position().n + 1 < |it.Contents()|
    modifies it, it.iter
    ensures it.Inv() && it.valid && it.direction == Reverse && it.Position() == old(it.Position()) && before == after
  {
    hide Live, Visible, LivePairs, KeyLess, Sorted, Rank, View, StandsBefore, DBIter.Inv;
    var k := it.Key();
    var v := it.CurrentValue();
    before := (k, v);
    it.Next();
    NextThenPrev(it.Contents(), old(it.Position()).n);
    it.Prev();
    k := it.Key();
    v := it.CurrentValue();
    after := (k, v);
  }

  method PrevNextReturns(it: DBIter) returns (before: Pair, after: Pair)
    requires it.Inv() && it.valid && it.Position().n > 0
    modifies it, it.iter
    ensures it.Inv() && it.valid && it.direction == Forward && it.Position() == old(it.Position()) && before == after
  {
    hide Live, Visible, LivePairs, KeyLess, Sorted, Rank, View, StandsBefore, DBIter.Inv;
    var k := it.Key();
    var v := it.CurrentValue();
    before := (k, v);
    it.Prev();
    NextThenPrev(it.Contents(), old(it.Position()).n);
    it.Next();
    k := it.Key();
    v := it.CurrentValue();
    after := (k, v);
  }

  // One command and one look at the cursor.  Next and Prev are issued only while the cursor
  // is valid, as their first assertion demands.
  method Execute(it: DBIter, cmd: Command) returns (o: Observation)
    requires it.Inv()
    modifies it, it.iter
    ensures it.Inv() && it.Position() == Moved(it.Contents(), old(it.Position()), cmd)
    ensures o == Observed(it.Contents(), it.Position())
  {
    match cmd {
      case Seek(target) => it.Seek(target);
      case SeekToFirst => it.SeekToFirst();
      case SeekToLast => it.SeekToLast();
      case Next => if it.valid { it.Next(); }
      case Prev => if it.valid { it.Prev(); }
    }
    o := Nothing;
    if it.valid {
      var k := it.Key();
      var v := it.CurrentValue();
      o := Sees(k, v);
    }
  }

  // Any sequence of commands, with every direction switch it contains, shows a client of
  // DBIter what the plain cursor over the visible map shows.
  method Run(it: DBIter, cmds: seq<Command>) returns (os: seq<Observation>)
    requires it.Inv()
    modifies it, it.iter
    ensures os == PlainRun(it.Contents(), old(it.Position()), cmds)
  {
    os := [];
    ghost var view, expected := it.Contents(), PlainRun(it.Contents(), it.Position(), cmds);
    for i := 0 to |cmds|
      invariant it.Inv()
      invariant os + PlainRun(view, it.Position(), cmds[i..]) == expected
    {
      assert cmds[i..][0] == cmds[i] && cmds[i..][1..] == cmds[i + 1..];
      var o := Execute(it, cmds[i]);
      os := os + [o];
    }
  }
}
