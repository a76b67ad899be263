// Sets of entries as the engine's reads see them: which changes of what is stored no read
// can notice, and why looking in the newest layer first is enough.
module EngineViews {
  import opened DbFormat
  import opened Lookup
  import opened Compaction
  import opened EngineModel

  // ------------------------------------------------------------------ contents of files

  lemma StoredUnion(tables: Store, a: set<nat>, b: set<nat>)
    ensures Stored(tables, a + b) == Stored(tables, a) + Stored(tables, b)
  {
  }

  lemma StoredOne(tables: Store, n: nat)
    requires n in tables
    ensures Stored(tables, {n}) == tables[n]
  {
  }

  lemma StoredNone(tables: Store)
    ensures Stored(tables, {}) == {}
  {
  }

  lemma StoredSubset(tables: Store, a: set<nat>, b: set<nat>)
    requires a <= b
    ensures Stored(tables, a) <= Stored(tables, b)
  {
  }

  ghost predicate Agree(tables: Store, tables': Store, files: set<nat>) {
    forall f | f in files :: f in tables && f in tables' && tables[f] == tables'[f]
  }

  lemma StoredSame(tables: Store, tables': Store, files: set<nat>)
    requires Agree(tables, tables', files)
    ensures Stored(tables, files) == Stored(tables', files)
  {
    assert forall f | f in files :: f in tables && f in tables' && tables[f] == tables'[f];
  }

  // ------------------------------------------------------------------ what reads can tell

  // No two operations ever got the same sequence number.
  ghost predicate IsHistory(h: Entries) {
    Distinct(h) && forall e | e in h :: e.key.Parses()
  }

  // s answers every read at floor or later as h does.
  ghost predicate Equiv(s: Entries, h: Entries, floor: nat) {
    forall k, at | at >= floor :: Read(s, k, at) == Read(h, k, at)
  }

  ghost predicate Upto(s: Entries, bound: nat) {
    forall e | e in s :: e.key.sequence <= bound
  }

  ghost predicate Below(a: Entries, b: Entries) {
    forall x, y | x in a && y in b :: x.key.sequence < y.key.sequence
  }

  lemma EquivExtends(s: Entries, h: Entries, floor: nat, more: Entries)
    requires Equiv(s, h, floor) && s <= h && Distinct(h + more) && Below(h, more)
    ensures Equiv(s + more, h + more, floor)
  {
    forall k, at | at >= floor
      ensures Read(s + more, k, at) == Read(h + more, k, at)
    {
      ReadExtends(s, h, more, k, at);
    }
  }

  // A batch comes after everything, so the history stays one.
  lemma HistoryExtends(h: Entries, bound: nat, batch: Entries, last: nat)
    requires IsHistory(h) && Upto(h, bound) && IsBatch(batch, bound, last)
    ensures IsHistory(h + batch) && Below(h, batch) && Upto(h + batch, last)
  {
  }

  lemma EquivWeakens(s: Entries, h: Entries, floor: nat, floor': nat)
    requires Equiv(s, h, floor) && floor <= floor'
    ensures Equiv(s, h, floor')
  {
  }

  // Reads above everything that is stored are all the same.
  lemma ReadFromTheTop(s: Entries, k: UserKey, top: nat, at: nat)
    requires Distinct(s) && Upto(s, top) && at >= top
    ensures Read(s, k, at) == Read(s, k, top)
  {
    forall e | e in s
      ensures Candidate(e, k, at) <==> Candidate(e, k, top)
    {
    }
    if e0 :| e0 in s && Candidate(e0, k, top) {
      var e := NewestExists(s, k, top, e0);
      ReadIs(s, k, top, e);
      ReadIs(s, k, at, e);
    } else {
      ReadNone(s, k, top);
      ReadNone(s, k, at);
    }
  }

  lemma EquivAtTheTop(s: Entries, h: Entries, floor: nat, top: nat)
    requires Equiv(s, h, floor) && s <= h && Distinct(h) && Upto(h, top)
    ensures Equiv(s, h, top)
  {
    forall k, at | at >= top
      ensures Read(s, k, at) == Read(h, k, at)
    {
      var high := if at < floor then floor else at;
      ReadFromTheTop(s, k, top, at);
      ReadFromTheTop(s, k, top, high);
      ReadFromTheTop(h, k, top, at);
      ReadFromTheTop(h, k, top, high);
    }
  }

  // Entries that came after a reader began are invisible to it.
  lemma LaterIsInvisible(s: Entries, more: Entries, k: UserKey, at: nat)
    requires Distinct(s + more) && forall e | e in more :: e.key.sequence > at
    ensures Read(s + more, k, at) == Read(s, k, at)
  {
    ReadIgnores(s, more, k, at);
  }

  // ------------------------------------------------------------------ compaction

  function KeptBy(p: Picked): (s: seq<Entry>) {
    Kept(p.es, p.smallest, p.base, |p.es|)
  }

  lemma KeptIsPart(p: Picked)
    ensures Elements(KeptBy(p)) <= Elements(p.es)
  {
    KeptElements(p.es, p.smallest, p.base, |p.es|);
  }

  lemma CompactionIsInvisible(rest: Entries, p: Picked, h: Entries, floor: nat)
    requires IsHistory(h) && rest + Elements(p.es) <= h && Sorted(p.es) && p.smallest <= floor
    requires Placed(p, rest) && (forall e | e in p.deep :: !p.base(e.key.user))
    requires Equiv(rest + Elements(p.es), h, floor)
    ensures Equiv(rest + Elements(KeptBy(p)), h, floor)
  {
    var deeper, newer := rest * p.deep, rest - p.deep;
    var kept := Elements(KeptBy(p));
    assert newer + Elements(p.es) + deeper == rest + Elements(p.es);
    assert newer + kept + deeper == rest + kept;
    assert WellPlaced(p.es, p.base, newer, deeper) by {
      assert forall e | e in newer :: NewerThan(e, p.es);
    }
    forall e | e in p.es
      ensures e.key.Parses()
    {
      assert e in Elements(p.es);
    }
    ParseableRevivesNothing(p.es, p.smallest, p.base);
    forall k, at | at >= floor
      ensures Read(rest + kept, k, at) == Read(h, k, at)
    {
      CompactionPreservesReads(p.es, p.smallest, p.base, newer, deeper, k, at);
    }
  }

  // ------------------------------------------------------------------ layers

  ghost predicate HasCandidate(s: Entries, k: UserKey, at: nat) {
    exists e :: e in s && Candidate(e, k, at)
  }

  // DBImpl::Get: the memtable, then the immutable memtable, then the tables; a layer that
  // holds any candidate decides.
  ghost function LayeredGet(mem: Entries, imm: Entries, tables: Entries, k: UserKey, at: nat): (r: Option<Value>) {
    if HasCandidate(mem, k, at) then Read(mem, k, at)
    else if HasCandidate(imm, k, at) then Read(imm, k, at)
    else Read(tables, k, at)
  }

  // A layer all newer than the rest decides when it can.
  lemma NewerLayerDecides(top: Entries, rest: Entries, k: UserKey, at: nat)
    requires Below(rest, top) && Distinct(top + rest)
    ensures Read(top + rest, k, at) == if HasCandidate(top, k, at) then Read(top, k, at) else Read(rest, k, at)
  {
    if e0 :| e0 in top && Candidate(e0, k, at) {
      var e := NewestExists(top, k, at, e0);
      assert Answers(top + rest, k, at, e);
      ReadIs(top, k, at, e);
      ReadIs(top + rest, k, at, e);
    } else {
      assert top + rest == rest + top;
      ReadIgnores(rest, top, k, at);
    }
  }

  lemma LayersAreEnough(mem: Entries, imm: Entries, tables: Entries, k: UserKey, at: nat)
    requires Below(tables, imm) && Below(tables, mem) && Below(imm, mem) && Distinct(mem + imm + tables)
    ensures LayeredGet(mem, imm, tables, k, at) == Read(mem + imm + tables, k, at)
  {
    assert mem + imm + tables == mem + (imm + tables);
    NewerLayerDecides(mem, imm + tables, k, at);
    NewerLayerDecides(imm, tables, k, at);
  }
}
