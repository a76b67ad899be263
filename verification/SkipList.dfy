// The memtable's skip list, with readers that run while a node is being linked in:
// db/skiplist.h.
//
// Nodes live in an arena and are named by their index; node 0 is head_.  A link is an index
// or NULL.  Every load and store of a link is one atomic step.
module SkipList {
  import opened DbFormat

  const MAX_HEIGHT: nat := 12
  const HEAD: nat := 0
  const NULL: int := -1

  // keys[u] and next[u][l] are node u's key and level-l link; maxHeight is max_height_.
  // linked[l] is the set of nodes that can be reached at level l.  Nothing reads it but the
  // specification.
  datatype Links = Links(keys: seq<InternalKey>, next: seq<seq<int>>, maxHeight: nat, linked: seq<set<int>>) {

    // Node u comes strictly before node v in key order; the head comes before every node.
    predicate Precedes(u: int, v: int)
      requires 0 <= u < |keys| && 0 <= v < |keys|
    {
      v != HEAD && (u == HEAD || Before(keys[u], keys[v]))
    }

    // Node u comes strictly before key k.
    predicate Under(u: int, k: InternalKey)
      requires 0 <= u < |keys|
    {
      u == HEAD || Before(keys[u], k)
    }

    // Node u is linked in at level l.
    ghost predicate On(l: int, u: int) { 0 <= l < |linked| && u in linked[l] }

    ghost predicate Shape() {
      && |keys| == |next| && |keys| > 0
      && |next[HEAD]| == MAX_HEIGHT && |linked| == MAX_HEIGHT
      && 1 <= maxHeight <= MAX_HEIGHT
      && (forall l, u {:trigger On(l, u)} :: On(l, u) ==> HEAD < u < |keys| && l < |next[u]|)
    }

    // v is the first node of level l after node u (or NULL, and there is none).
    ghost predicate Successor(l: int, u: int, v: int)
      requires Shape() && 0 <= l < MAX_HEIGHT && 0 <= u < |keys|
    {
      && (v != NULL ==> On(l, v) && Precedes(u, v))
      && (forall w | On(l, w) && Precedes(u, w) :: v != NULL && (w == v || Precedes(v, w)))
    }

    // The list a reader may find at any moment.  At every level the links run through exactly
    // the linked nodes, in order; every level is contained in the one below.
    ghost predicate Inv() {
      && Shape()
      && (forall u, v | On(0, u) && On(0, v) && u != v :: keys[u] != keys[v])
      && (forall l, u :: On(l, u) && l > 0 ==> On(l - 1, u))
      && (forall l, u :: On(l, u) ==> l < maxHeight)
      && (forall l, u | 0 <= l < MAX_HEIGHT && (On(l, u) || u == HEAD) :: Successor(l, u, next[u][l]))
    }

    ghost function Contents(): (s: set<InternalKey>)
      requires Shape()
    {
      set u | u in linked[0] && On(0, u) :: keys[u]
    }
  }

  lemma LevelsNest(s: Links, l: nat, m: nat, u: nat)
    requires s.Inv() && m <= l < MAX_HEIGHT
    ensures s.On(l, u) ==> s.On(m, u)
  {
    if m < l && s.On(l, u) {
      LevelsNest(s, l - 1, m, u);
    }
  }

  ghost function After(s: Links, l: nat, u: int): (r: set<int>)
    requires s.Shape() && l < MAX_HEIGHT && 0 <= u < |s.keys|
  {
    set w | w in s.linked[l] && s.On(l, w) && s.Precedes(u, w)
  }

  lemma StepForward(s: Links, m: nat, l: nat, u: int, v: int)
    requires s.Inv() && m <= l < MAX_HEIGHT && 0 <= u < |s.keys| && s.On(l, v) && s.Precedes(u, v)
    ensures After(s, m, v) < After(s, m, u)
  {
    InternalOrder();
    LevelsNest(s, l, m, v);
    assert v in After(s, m, u) && v !in After(s, m, v);
  }

  // The nodes a walk along the links of level l meets after node u.
  ghost function Walk(s: Links, l: nat, u: int): (r: seq<int>)
    requires s.Inv() && l < MAX_HEIGHT && (u == HEAD || s.On(l, u))
    ensures forall i | 0 <= i < |r| :: s.On(l, r[i]) && s.Precedes(u, r[i])
    decreases After(s, l, u)
  {
    assert s.Successor(l, u, s.next[u][l]);
    var v := s.next[u][l];
    if v == NULL then []
    else
      StepForward(s, l, l, u, v);
      InternalOrder();
      [v] + Walk(s, l, v)
  }

  // Each level is a list, in key order, of exactly the nodes linked in at that level.
  lemma {:induction false} WalkIsTheLevel(s: Links, l: nat, u: int)
    requires s.Inv() && l < MAX_HEIGHT && (u == HEAD || s.On(l, u))
    ensures var r := Walk(s, l, u);
            && (forall w | s.On(l, w) && s.Precedes(u, w) :: w in r)
            && (forall i, j | 0 <= i < j < |r| :: s.Precedes(r[i], r[j]))
    decreases After(s, l, u)
  {
    assert s.Successor(l, u, s.next[u][l]);
    var v := s.next[u][l];
    if v != NULL {
      StepForward(s, l, l, u, v);
      WalkIsTheLevel(s, l, v);
    }
  }

  // ------------------------------------------------------------------ searching

  // One iteration of a search loop: where a reader at (node, level) goes, or the result.
  datatype Progress = AtNode(node: nat, level: nat) | Found(result: int)

  // FindGreaterOrEqual: KeyIsAfterNode(key, next) keeps searching in this list.
  function SearchStep(s: Links, target: InternalKey, node: nat, level: nat): (p: Progress)
    requires s.Shape() && node < |s.keys| && level < |s.next[node]|
  {
    var n := s.next[node][level];
    if 0 <= n < |s.keys| && Before(s.keys[n], target) then AtNode(n, level)
    else if level == 0 then Found(n)
    else AtNode(node, level - 1)
  }

  // What a search knows between two loads, whatever was linked in since it began.
  ghost predicate Searching(s: Links, target: InternalKey, node: nat, level: nat) {
    && s.Shape() && level < MAX_HEIGHT
    && (node == HEAD || s.On(level, node))
    && s.Under(node, target)
  }

  // r is the first node whose key is at or after k, at this moment.
  ghost predicate FirstAtOrAfter(s: Links, k: InternalKey, r: int)
    requires s.Shape()
  {
    && (r != NULL ==> s.On(0, r) && !Before(s.keys[r], k))
    && (forall w | s.On(0, w) && !Before(s.keys[w], k) :: r != NULL && (w == r || s.Precedes(r, w)))
  }

  lemma SearchStepIsSafe(s: Links, target: InternalKey, node: nat, level: nat)
    requires s.Inv() && Searching(s, target, node, level)
    ensures var p := SearchStep(s, target, node, level);
            match p
            case AtNode(n, l) => Searching(s, target, n, l)
            case Found(r) => FirstAtOrAfter(s, target, r)
  {
    InternalOrder();
    assert s.Successor(level, node, s.next[node][level]);
  }

  // ------------------------------------------------------------------ inserting

  // The nodes of level l right before node x: what FindGreaterOrEqual leaves in prev[l].
  ghost predicate Predecessor(s: Links, l: nat, p: nat, x: nat)
    requires s.Shape() && l < MAX_HEIGHT && x < |s.keys|
  {
    && (p == HEAD || s.On(l, p))
    && s.Precedes(p, x)
    && forall w | s.On(l, w) && s.Precedes(p, w) :: s.Precedes(x, w)
  }

  // The writer has linked node x into levels 0..i; `stored` says x's own link of level i is
  // already written.
  ghost predicate Linking(s: Links, x: nat, prev: seq<nat>, height: nat, i: nat, stored: bool) {
    && s.Shape() && HEAD < x < |s.keys| && |prev| == MAX_HEIGHT
    && 0 < height <= s.maxHeight && |s.next[x]| == height && i <= height
    && (forall u | s.On(0, u) && u != x :: s.keys[u] != s.keys[x])
    && (forall l | 0 <= l < MAX_HEIGHT :: s.On(l, x) <==> l < i)
    && (forall l | i <= l < height :: Predecessor(s, l, prev[l], x))
    && (stored ==> i < height && s.next[x][i] == s.next[prev[i]][i])
  }

  // The new node's own link at level i: what follows its predecessor there.
  function StoreOwnLink(s: Links, x: nat, p: nat, i: nat): (s': Links)
    requires s.Shape() && HEAD < x < |s.keys| && i < |s.next[x]| && p < |s.keys| && i < |s.next[p]|
  {
    s.(next := s.next[x := s.next[x][i := s.next[p][i]]])
  }

  // The predecessor's link at level i: the moment x becomes reachable there.
  function Publish(s: Links, x: nat, p: nat, i: nat): (s': Links)
    requires s.Shape() && HEAD < x < |s.keys| && p < |s.keys| && i < |s.next[p]| && i < MAX_HEIGHT
  {
    s.(next := s.next[p := s.next[p][i := x]], linked := s.linked[i := s.linked[i] + {x}])
  }

  // Raising max_height_ and allocating node x, which no link names yet.
  function Allocate(s: Links, key: InternalKey, height: nat): (s': Links)
    requires height <= MAX_HEIGHT
  {
    s.(keys := s.keys + [key],
       next := s.next + [seq(height, l => NULL)],
       maxHeight := if height > s.maxHeight then height else s.maxHeight)
  }

  lemma AllocateKeepsInv(s: Links, key: InternalKey, height: nat)
    requires s.Inv() && 0 < height <= MAX_HEIGHT
    ensures Allocate(s, key, height).Inv()
    ensures Allocate(s, key, height).Contents() == s.Contents()
  {
    var s' := Allocate(s, key, height);
    assert forall l, u {:trigger s'.On(l, u)} :: s'.On(l, u) <==> s.On(l, u);
    assert s'.Shape();
    forall l, u | 0 <= l < MAX_HEIGHT && (s'.On(l, u) || u == HEAD)
      ensures s'.Successor(l, u, s'.next[u][l])
    {
      assert s.Successor(l, u, s.next[u][l]);
      assert s'.next[u] == s.next[u];
    }
  }

  lemma StoreKeepsInv(s: Links, x: nat, prev: seq<nat>, height: nat, i: nat)
    requires s.Inv() && Linking(s, x, prev, height, i, false) && i < height
    ensures var s' := StoreOwnLink(s, x, prev[i], i);
            s'.Inv() && Linking(s', x, prev, height, i, true) && s'.linked == s.linked && s'.keys == s.keys
  {
    var s' := StoreOwnLink(s, x, prev[i], i);
    assert forall l, u {:trigger s'.On(l, u)} :: s'.On(l, u) <==> s.On(l, u);
    assert s'.Shape();
    forall l, u | 0 <= l < MAX_HEIGHT && (s'.On(l, u) || u == HEAD)
      ensures s'.Successor(l, u, s'.next[u][l])
    {
      assert s.Successor(l, u, s.next[u][l]);
    }
  }

  lemma PublishOn(s: Links, x: nat, p: nat, i: nat)
    requires s.Shape() && HEAD < x < |s.keys| && p < |s.keys| && i < |s.next[p]| && i < |s.next[x]| && i < MAX_HEIGHT
    ensures var s' := Publish(s, x, p, i);
            s'.Shape() && forall l, u {:trigger s'.On(l, u)} :: s'.On(l, u) <==> s.On(l, u) || (l == i && u == x)
  {
    var s' := Publish(s, x, p, i);
    assert forall l, u {:trigger s'.On(l, u)} :: s'.On(l, u) <==> s.On(l, u) || (l == i && u == x);
  }

  // After the publishing store every link is still the successor link of its node.
  lemma PublishSuccessor(s: Links, x: nat, prev: seq<nat>, height: nat, i: nat, l: int, u: int)
    requires s.Inv() && Linking(s, x, prev, height, i, true) && 0 <= l < MAX_HEIGHT
    requires s.On(l, u) || u == HEAD || (l == i && u == x)
    ensures var s' := Publish(s, x, prev[i], i);
            s'.Shape() && l < |s'.next[u]| && s'.Successor(l, u, s'.next[u][l])
  {
    var p, s' := prev[i], Publish(s, x, prev[i], i);
    PublishOn(s, x, p, i);
    InternalOrder();
    if l != i {
      assert s.Successor(l, u, s.next[u][l]);
    } else if u == x || u == p {
      assert s.Successor(i, p, s.next[p][i]);
    } else {
      assert s.Successor(i, u, s.next[u][i]) && s.next[u] == s'.next[u];
      LevelsNest(s, i, 0, u);
      LevelsNest(s, i, 0, p);
    }
  }

  lemma PublishKeepsLinking(s: Links, x: nat, prev: seq<nat>, height: nat, i: nat)
    requires s.Inv() && Linking(s, x, prev, height, i, true)
    ensures Linking(Publish(s, x, prev[i], i), x, prev, height, i + 1, false)
  {
    var s' := Publish(s, x, prev[i], i);
    PublishOn(s, x, prev[i], i);
    forall l | i + 1 <= l < height
      ensures Predecessor(s', l, prev[l], x)
    {
      assert Predecessor(s, l, prev[l], x);
      assert s'.linked[l] == s.linked[l];
    }
  }

  lemma PublishKeepsInv(s: Links, x: nat, prev: seq<nat>, height: nat, i: nat)
    requires s.Inv() && Linking(s, x, prev, height, i, true)
    ensures var s' := Publish(s, x, prev[i], i);
            s'.Inv() && s'.keys == s.keys && s'.Contents() == s.Contents() + {s.keys[x]}
  {
    var p, s' := prev[i], Publish(s, x, prev[i], i);
    PublishOn(s, x, p, i);
    forall l, u | 0 <= l < MAX_HEIGHT && (s'.On(l, u) || u == HEAD)
      ensures s'.Successor(l, u, s'.next[u][l])
    {
      PublishSuccessor(s, x, prev, height, i, l, u);
    }
    assert i > 0 ==> s.On(i - 1, x) && s.On(0, x);
    forall k
      ensures k in s'.Contents() <==> k in s.Contents() || k == s.keys[x]
    {
      if k in s.Contents() {
        var u :| s.On(0, u) && s.keys[u] == k;
        assert s'.On(0, u);
      }
      assert s'.On(0, x);
    }
  }

  // ------------------------------------------------------------------ the list by itself

  // p is the last node of level l whose key is before k.
  ghost predicate LastBefore(s: Links, l: nat, p: nat, k: InternalKey)
    requires s.Shape()
  {
    && l < MAX_HEIGHT
    && (p == HEAD || s.On(l, p))
    && s.Under(p, k)
    && forall w | s.On(l, w) && s.Precedes(p, w) :: !Before(s.keys[w], k)
  }

  class SkipList {
    var keys: seq<InternalKey>
    var next: seq<seq<int>>
    var maxHeight: nat
    ghost var linked: seq<set<int>>

    ghost function List(): (s: Links)
      reads this
    {
      Links(keys, next, maxHeight, linked)
    }

    ghost predicate Inv()
      reads this
    {
      List().Inv()
    }

    constructor ()
      ensures Inv() && List().Contents() == {}
    {
      keys := [InternalKey([], 0, 0)];
      next := [seq(MAX_HEIGHT, l => NULL)];
      maxHeight := 1;
      linked := seq(MAX_HEIGHT, l => {});
    }

    // The search of FindGreaterOrEqual, with the path it leaves in prev.
    method FindGreaterOrEqual(key: InternalKey) returns (r: int, prev: seq<nat>)
      requires Inv()
      ensures FirstAtOrAfter(List(), key, r)
      ensures |prev| == MAX_HEIGHT
      ensures forall l | 0 <= l < maxHeight :: LastBefore(List(), l, prev[l], key)
    {
      InternalOrder();
      prev := seq(MAX_HEIGHT, l => HEAD);
      var x: nat, level := HEAD, maxHeight - 1;
      while true
        invariant 0 <= level < maxHeight && |prev| == MAX_HEIGHT
        invariant Searching(List(), key, x, level)
        invariant forall l | level < l < maxHeight :: LastBefore(List(), l, prev[l], key)
        decreases level, After(List(), 0, x)
      {
        SearchStepIsSafe(List(), key, x, level);
        var n := next[x][level];
        assert List().Successor(level, x, n);
        if n != NULL && Before(keys[n], key) {
          // Go on along this level
          StepForward(List(), 0, level, x, n);
          x := n;
        } else {
          prev := prev[level := x];
          if level == 0 {
            return n, prev;
          }
          // Go down a level
          level := level - 1;
        }
      }
    }

    method Contains(key: InternalKey) returns (b: bool)
      requires Inv()
      ensures b <==> key in List().Contents()
    {
      InternalOrder();
      var x, _ := FindGreaterOrEqual(key);
      b := x != NULL && keys[x] == key;
    }

    // The last node before key, or the head.
    method FindLessThan(key: InternalKey) returns (x: nat)
      requires Inv()
      ensures LastBefore(List(), 0, x, key)
    {
      x := HEAD;
      var level := maxHeight - 1;
      while true
        invariant 0 <= level < maxHeight
        invariant Searching(List(), key, x, level)
        decreases level, After(List(), 0, x)
      {
        SearchStepIsSafe(List(), key, x, level);
        var n := next[x][level];
        assert List().Successor(level, x, n);
        if n == NULL || !Before(keys[n], key) {
          if level == 0 {
            InternalOrder();
            return;
          }
          level := level - 1;
        } else {
          StepForward(List(), 0, level, x, n);
          x := n;
        }
      }
    }

    // The last node of the list, or the head.
    method FindLast() returns (x: nat)
      requires Inv()
      ensures x == HEAD || List().On(0, x)
      ensures forall w | List().On(0, w) :: w == x || List().Precedes(w, x)
    {
      x := HEAD;
      var level := maxHeight - 1;
      while true
        invariant 0 <= level < maxHeight
        invariant x == HEAD || List().On(level, x)
        decreases level, After(List(), 0, x)
      {
        var n := next[x][level];
        assert List().Successor(level, x, n);
        if n == NULL {
          if level == 0 {
            InternalOrder();
            return;
          }
          level := level - 1;
        } else {
          StepForward(List(), 0, level, x, n);
          x := n;
        }
      }
    }

    // RandomHeight() is the parameter.  Each iteration of the loop in LinkIn is the two
    // atomic stores that the machine below interleaves with readers.
    method Insert(key: InternalKey, height: nat)
      requires Inv() && key !in List().Contents()
      requires 0 < height <= MAX_HEIGHT
      modifies this
      ensures Inv() && List().Contents() == old(List().Contents()) + {key}
    {
      var r: int, prev: seq<nat> := FindGreaterOrEqual(key);
      ghost var before := List();
      if height > maxHeight {
        for i := maxHeight to height
          invariant |prev| == MAX_HEIGHT && List() == before
          invariant forall l | 0 <= l < maxHeight :: LastBefore(before, l, prev[l], key)
          invariant forall l | maxHeight <= l < i :: prev[l] == HEAD
        {
          prev := prev[i := HEAD];
        }
        maxHeight := height;
      }
      keys, next := keys + [key], next + [seq(height, l => NULL)];
      assert List() == Allocate(before, key, height);
      AllocateKeepsInv(before, key, height);
      BeginLinking(before, key, height, prev);
      LinkIn(|keys| - 1, prev, height);
    }

    method LinkIn(x: nat, prev: seq<nat>, height: nat)
      requires Inv() && Linking(List(), x, prev, height, 0, false)
      modifies this`next, this`linked
      ensures Inv() && List().Contents() == old(List().Contents()) + {keys[x]}
    {
      ghost var before := List().Contents();
      var i := 0;
      while i < height
        invariant i <= height && Inv() && Linking(List(), x, prev, height, i, false)
        invariant List().Contents() == if i == 0 then before else before + {keys[x]}
      {
        LinkLevel(x, prev, height, i);
        i := i + 1;
      }
    }

    method LinkLevel(x: nat, prev: seq<nat>, height: nat, i: nat)
      requires Inv() && Linking(List(), x, prev, height, i, false) && i < height
      modifies this`next, this`linked
      ensures Inv() && Linking(List(), x, prev, height, i + 1, false)
      ensures List().Contents() == old(List().Contents()) + {keys[x]}
    {
      ghost var s := List();
      StoreKeepsInv(s, x, prev, height, i);
      next := next[x := next[x][i := next[prev[i]][i]]];
      assert List() == StoreOwnLink(s, x, prev[i], i);
      assert List().Contents() == s.Contents();
      ghost var t := List();
      PublishKeepsInv(t, x, prev, height, i);
      PublishKeepsLinking(t, x, prev, height, i);
      next := next[prev[i] := next[prev[i]][i := x]];
      linked := linked[i := linked[i] + {x}];
      assert List() == Publish(t, x, prev[i], i);
    }
  }

  // What the search leaves in prev is what linking needs, once the node is allocated.
  lemma BeginLinking(s: Links, key: InternalKey, height: nat, prev: seq<nat>)
    requires s.Inv() && key !in s.Contents() && 0 < height <= MAX_HEIGHT && |prev| == MAX_HEIGHT
    requires forall l | 0 <= l < height :: if l < s.maxHeight then LastBefore(s, l, prev[l], key) else prev[l] == HEAD
    ensures Linking(Allocate(s, key, height), |s.keys|, prev, height, 0, false)
  {
    InternalOrder();
    AllocateKeepsInv(s, key, height);
    var x, s' := |s.keys|, Allocate(s, key, height);
    assert forall l, u {:trigger s'.On(l, u)} :: s'.On(l, u) <==> s.On(l, u);
    forall l | 0 <= l < height
      ensures Predecessor(s', l, prev[l], x)
    {
      forall w | s'.On(l, w) && s'.Precedes(prev[l], w)
        ensures s'.Precedes(x, w)
      {
        LevelsNest(s, l, 0, w);
        assert s.keys[w] in s.Contents();
      }
    }
    forall u | s'.On(0, u) && u != x
      ensures s'.keys[u] != s'.keys[x]
    {
      assert s.keys[u] in s.Contents();
    }
  }

  // ------------------------------------------------------------------ one writer, many readers

  // `seen` is the set of nodes that were in the list when the read began.
  datatype Reader =
    | NotReading
    | Reading(target: InternalKey, node: nat, level: nat, seen: set<int>)
    | Finished(target: InternalKey, result: int, seen: set<int>)

  datatype Writer =
    | NotWriting
    | Writing(x: nat, prev: seq<nat>, height: nat, i: nat, stored: bool)

  datatype System = System(list: Links, writer: Writer, readers: seq<Reader>)

  // What can happen next, at the granularity of one load or store of a link.
  datatype Event =
    | BeginInsert(key: InternalKey, height: nat, prev: seq<nat>)
    | StoreLink
    | PublishLink
    | BeginRead(reader: nat, target: InternalKey, level: nat)
    | Load(reader: nat)

  ghost predicate Enabled(s: System, e: Event)
    requires s.list.Inv()
  {
    match e
    case BeginInsert(key, height, prev) =>
      s.writer.NotWriting? && key !in s.list.Contents() && 0 < height <= MAX_HEIGHT && |prev| == MAX_HEIGHT &&
      forall l | 0 <= l < height ::
        if l < s.list.maxHeight then LastBefore(s.list, l, prev[l], key) else prev[l] == HEAD
    case StoreLink => s.writer.Writing? && !s.writer.stored
    case PublishLink => s.writer.Writing? && s.writer.stored
    // max_height_ is read without synchronization: any value it has had will do.
    case BeginRead(r, target, level) => r < |s.readers| && level < s.list.maxHeight
    case Load(r) => r < |s.readers| && s.readers[r].Reading?
  }

  ghost predicate ReaderInv(list: Links, r: Reader)
    requires list.Inv()
  {
    match r
    case NotReading => true
    case Reading(target, node, level, seen) =>
      Searching(list, target, node, level) && seen <= list.linked[0]
    case Finished(target, result, seen) =>
      && seen <= list.linked[0]
      && (result != NULL ==> list.On(0, result) && !Before(list.keys[result], target))
      && (forall u | u in seen && list.On(0, u) && !Before(list.keys[u], target) ::
            result != NULL && (u == result || list.Precedes(result, u)))
  }

  ghost predicate SystemInv(s: System) {
    && s.list.Inv()
    && (s.writer.Writing? ==>
          Linking(s.list, s.writer.x, s.writer.prev, s.writer.height, s.writer.i, s.writer.stored)
          && s.writer.i < s.writer.height)
    && (forall r | 0 <= r < |s.readers| :: ReaderInv(s.list, s.readers[r]))
  }

  ghost function Step(s: System, e: Event): (s': System)
    requires SystemInv(s) && Enabled(s, e)
  {
    match e
    case BeginInsert(key, height, prev) =>
      s.(list := Allocate(s.list, key, height), writer := Writing(|s.list.keys|, prev, height, 0, false))
    case StoreLink =>
      var w := s.writer;
      s.(list := StoreOwnLink(s.list, w.x, w.prev[w.i], w.i), writer := w.(stored := true))
    case PublishLink =>
      var w := s.writer;
      s.(list := Publish(s.list, w.x, w.prev[w.i], w.i),
         writer := if w.i + 1 < w.height then w.(i := w.i + 1, stored := false) else NotWriting)
    case BeginRead(r, target, level) =>
      s.(readers := s.readers[r := Reading(target, HEAD, level, s.list.linked[0])])
    case Load(r) =>
      var rd := s.readers[r];
      var p := SearchStep(s.list, rd.target, rd.node, rd.level);
      s.(readers := s.readers[r := match p
                                   case AtNode(n, l) => Reading(rd.target, n, l, rd.seen)
                                   case Found(x) => Finished(rd.target, x, rd.seen)])
  }

  // Whatever is linked in, a reader in flight and a finished one keep what they know.
  lemma ReaderSurvives(s: Links, s': Links, r: Reader)
    requires s.Inv() && s'.Inv() && ReaderInv(s, r)
    requires s.keys <= s'.keys && forall l, u {:trigger s'.On(l, u)} :: s.On(l, u) ==> s'.On(l, u)
    ensures ReaderInv(s', r)
  {
    forall u
      ensures u in s.linked[0] ==> u in s'.linked[0]
    {
      assert s.On(0, u) ==> s'.On(0, u);
    }
    match r {
      case NotReading =>
      case Reading(target, node, level, seen) =>
        assert s.On(level, node) ==> s'.On(level, node);
      case Finished(target, result, seen) =>
        assert s.On(0, result) ==> s'.On(0, result);
        forall u | u in seen && s'.On(0, u) && !Before(s'.keys[u], target)
          ensures result != NULL && (u == result || s'.Precedes(result, u))
        {
          assert s.On(0, u);
        }
    }
  }

  lemma StepKeepsInv(s: System, e: Event)
    requires SystemInv(s) && Enabled(s, e)
    ensures SystemInv(Step(s, e))
  {
    var s' := Step(s, e);
    match e {
      case BeginInsert(key, height, prev) =>
        AllocateKeepsInv(s.list, key, height);
        BeginLinking(s.list, key, height, prev);
        assert forall l, u {:trigger s'.list.On(l, u)} :: s'.list.On(l, u) <==> s.list.On(l, u);
        AllReadersSurvive(s, s');
      case StoreLink =>
        var w := s.writer;
        StoreKeepsInv(s.list, w.x, w.prev, w.height, w.i);
        assert forall l, u {:trigger s'.list.On(l, u)} :: s'.list.On(l, u) <==> s.list.On(l, u);
        AllReadersSurvive(s, s');
      case PublishLink =>
        var w := s.writer;
        PublishKeepsInv(s.list, w.x, w.prev, w.height, w.i);
        PublishKeepsLinking(s.list, w.x, w.prev, w.height, w.i);
        PublishOn(s.list, w.x, w.prev[w.i], w.i);
        AllReadersSurvive(s, s');
      case BeginRead(r, target, level) =>
      case Load(r) =>
        var rd := s.readers[r];
        SearchStepIsSafe(s.list, rd.target, rd.node, rd.level);
    }
  }

  lemma AllReadersSurvive(s: System, s': System)
    requires SystemInv(s) && s'.list.Inv() && s'.readers == s.readers
    requires s.list.keys <= s'.list.keys
    requires forall l, u {:trigger s'.list.On(l, u)} :: s.list.On(l, u) ==> s'.list.On(l, u)
    ensures forall r | 0 <= r < |s'.readers| :: ReaderInv(s'.list, s'.readers[r])
  {
    forall r | 0 <= r < |s'.readers|
      ensures ReaderInv(s'.list, s'.readers[r])
    {
      ReaderSurvives(s.list, s'.list, s.readers[r]);
    }
  }

  // A run: every event was enabled in the state it happened in.
  ghost predicate Run(trace: seq<System>, events: seq<Event>) {
    && |trace| == |events| + 1
    && SystemInv(trace[0])
    && (forall i | 0 <= i < |events| ::
          SystemInv(trace[i]) ==> Enabled(trace[i], events[i]) && trace[i + 1] == Step(trace[i], events[i]))
  }

  lemma {:induction false} RunKeepsInv(trace: seq<System>, events: seq<Event>, n: nat)
    requires Run(trace, events) && n < |trace|
    ensures SystemInv(trace[n])
  {
    if n > 0 {
      RunKeepsInv(trace, events, n - 1);
      StepKeepsInv(trace[n - 1], events[n - 1]);
    }
  }

  // Contains(target) by an interleaved reader, at any moment after it finished: a key that
  // was in the list when the read began is never missed, and what is found is in the list.
  lemma NoReaderMissesAKey(trace: seq<System>, events: seq<Event>, n: nat, r: nat)
    requires Run(trace, events) && n < |trace| && r < |trace[n].readers| && trace[n].readers[r].Finished?
    ensures var s, rd := trace[n], trace[n].readers[r];
            && SystemInv(s)
            && rd.seen <= s.list.linked[0]
            && ((exists u | u in rd.seen :: s.list.On(0, u) && s.list.keys[u] == rd.target) ==>
                  rd.result != NULL && s.list.keys[rd.result] == rd.target)
            && (rd.result != NULL ==> s.list.keys[rd.result] in s.list.Contents())
  {
    RunKeepsInv(trace, events, n);
    InternalOrder();
    var s, rd := trace[n], trace[n].readers[r];
    assert ReaderInv(s.list, rd);
    assert forall u | u in rd.seen :: s.list.On(0, u);
  }
}
