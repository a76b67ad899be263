// The compaction loop and its drop rule: DoCompactionWork in db/db_impl.cc.
module Compaction {
  import opened Coding
  import opened DbFormat
  import opened Lookup

  ghost function Elements(es: seq<Entry>): (s: set<Entry>) {
    set e | e in es
  }

  // ------------------------------------------------------------------ which entries go

  // Rule (A): the entry before this one is of the same user key and already old enough for
  // every snapshot.  An unparseable key in between breaks the run.
  predicate Hidden(es: seq<Entry>, smallest: nat, i: nat)
    requires i < |es|
  {
    i > 0 && es[i - 1].key.Parses() && es[i - 1].key.user == es[i].key.user &&
    es[i - 1].key.sequence <= smallest
  }

  // The second rule: a deletion old enough for every snapshot, with no older data below.
  predicate Obsolete(es: seq<Entry>, smallest: nat, base: UserKey -> bool, i: nat)
    requires i < |es|
  {
    es[i].key.kind == TYPE_DELETION && es[i].key.sequence <= smallest && base(es[i].key.user)
  }

  predicate Dropped(es: seq<Entry>, smallest: nat, base: UserKey -> bool, i: nat)
    requires i < |es|
  {
    es[i].key.Parses() && (Hidden(es, smallest, i) || Obsolete(es, smallest, base, i))
  }

  function Kept(es: seq<Entry>, smallest: nat, base: UserKey -> bool, n: nat): (r: seq<Entry>)
    requires n <= |es|
  {
    if n == 0 then []
    else Kept(es, smallest, base, n - 1) + (if Dropped(es, smallest, base, n - 1) then [] else [es[n - 1]])
  }

  lemma KeptStep(es: seq<Entry>, smallest: nat, base: UserKey -> bool, i: nat, kept: seq<Entry>)
    requires i < |es| && kept == Kept(es, smallest, base, i)
    ensures Kept(es, smallest, base, i + 1) == if Dropped(es, smallest, base, i) then kept else kept + [es[i]]
  {
  }

  lemma {:induction false} KeptElements(es: seq<Entry>, smallest: nat, base: UserKey -> bool, n: nat)
    requires n <= |es|
    ensures forall e :: e in Kept(es, smallest, base, n) <==>
              exists i | 0 <= i < n :: es[i] == e && !Dropped(es, smallest, base, i)
  {
    if n > 0 {
      KeptElements(es, smallest, base, n - 1);
    }
  }

  // ------------------------------------------------------------------ the loop

  // One table the compaction wrote, with the key range that goes into the version edit.
  datatype TableData = TableData(entries: seq<Entry>, smallest: InternalKey, largest: InternalKey)

  type Output = t: TableData |
    t.entries != [] && t.smallest == t.entries[0].key && t.largest == t.entries[|t.entries| - 1].key
    witness TableData([Entry(InternalKey([], 0, 0), [])], InternalKey([], 0, 0), InternalKey([], 0, 0))

  function Flatten(os: seq<Output>): (es: seq<Entry>) {
    if os == [] then [] else Flatten(os[..|os| - 1]) + os[|os| - 1].entries
  }

  // FinishCompactionOutputFile, when there is an open output.
  function Finished(os: seq<Output>, builder: seq<Entry>): (r: seq<Output>)
    ensures Flatten(r) == Flatten(os) + builder
  {
    if builder == [] then os
    else
      var o := TableData(builder, builder[0].key, builder[|builder| - 1].key);
      assert (os + [o])[..|os|] == os;
      os + [o]
  }

  // The answers the loop gets from outside while it looks at entry i: whether the output
  // should end before it, whether the output is big enough after it, whether a file
  // operation fails, and whether the database is shutting down.
  datatype Outside = Outside(stopBefore: nat -> bool, full: nat -> bool, failing: nat -> bool, shutdown: nat -> bool)

  // The loop's memory of the current run of one user key: has_current_user_key,
  // current_user_key and last_sequence_for_key.
  datatype RunState = RunState(has: bool, current: UserKey, last: nat)

  // What the loop remembers before it looks at entry i.
  function RunAt(es: seq<Entry>, i: nat): (run: RunState)
    requires i <= |es|
  {
    if i > 0 && es[i - 1].key.Parses() then RunState(true, es[i - 1].key.user, es[i - 1].key.sequence)
    else RunState(false, [], MAX_SEQUENCE)
  }

  // The body of the loop up to its decision on `drop`.
  method DropRule(es: seq<Entry>, i: nat, smallestSnapshot: nat, base: UserKey -> bool, run: RunState)
    returns (drop: bool, run': RunState)
    requires smallestSnapshot < MAX_SEQUENCE && i < |es| && run == RunAt(es, i)
    ensures drop <==> Dropped(es, smallestSnapshot, base, i)
    ensures run' == RunAt(es, i + 1)
  {
    var e := es[i];
    drop, run' := false, run;
    if !e.key.Parses() {
      // An unparseable key is kept, and ends the run
      run' := RunState(false, [], MAX_SEQUENCE);
    } else {
      if !run.has || e.key.user != run.current {
        // A run begins
        run' := RunState(true, e.key.user, MAX_SEQUENCE);
      }
      if run'.last <= smallestSnapshot {
        drop := true;
      } else if e.key.kind == TYPE_DELETION && e.key.sequence <= smallestSnapshot && base(e.key.user) {
        drop := true;
      }
      run' := run'.(last := e.key.sequence);
    }
  }

  // builder->Add, and the end of an output that has grown to its limit.
  method Add(outputs: seq<Output>, builder: seq<Entry>, e: Entry, full: bool)
    returns (outputs': seq<Output>, builder': seq<Entry>)
    ensures Flatten(outputs') + builder' == Flatten(outputs) + builder + [e]
  {
    outputs', builder' := outputs, builder + [e];
    assert Flatten(outputs) + (builder + [e]) == Flatten(outputs) + builder + [e];
    if full {
      outputs', builder' := Finished(outputs', builder'), [];
    }
  }

  method DoCompactionWork(input: seq<Entry>, smallestSnapshot: nat, base: UserKey -> bool, outside: Outside)
    returns (ok: bool, outputs: seq<Output>)
    requires smallestSnapshot < MAX_SEQUENCE
    ensures ok ==> Flatten(outputs) == Kept(input, smallestSnapshot, base, |input|)
    ensures ok <==> forall i | 0 <= i <= |input| :: !outside.failing(i) && !outside.shutdown(i)
    ensures ok && Sorted(input) ==>
              Sorted(Flatten(outputs)) && forall e :: e in Flatten(outputs) <==> IsWanted(input, smallestSnapshot, base, e)
  {
    ok, outputs := true, [];
    var run, builder: seq<Entry>, i := RunState(false, [], MAX_SEQUENCE), [], 0;
    assert run == RunAt(input, 0) && Flatten(outputs) == [];
    assert Kept(input, smallestSnapshot, base, 0) == [];
    hide *;
    while i < |input| && !outside.shutdown(i)
      invariant 0 <= i <= |input|
      invariant Flatten(outputs) + builder == Kept(input, smallestSnapshot, base, i)
      invariant forall j | 0 <= j < i :: !outside.failing(j) && !outside.shutdown(j)
      invariant run == RunAt(input, i)
    {
      KeptStep(input, smallestSnapshot, base, i, Flatten(outputs) + builder);
      if outside.failing(i) {
        return false, outputs;
      }
      if outside.stopBefore(i) {
        outputs, builder := Finished(outputs, builder), [];
      }
      var drop;
      drop, run := DropRule(input, i, smallestSnapshot, base, run);
      if !drop {
        outputs, builder := Add(outputs, builder, input[i], outside.full(i));
      }
      i := i + 1;
    }
    if outside.shutdown(i) || outside.failing(i) {
      return false, outputs;
    }
    outputs := Finished(outputs, builder);
    if Sorted(input) {
      KeptIsWanted(input, smallestSnapshot, base);
    }
  }

  // ------------------------------------------------------------------ what is left

  // Entries i to j are all of one user key and parse: the loop sees them as one run.
  predicate SameRun(es: seq<Entry>, i: nat, j: nat)
    requires i <= j < |es|
  {
    forall q | i <= q <= j :: es[q].key.Parses() && es[q].key.user == es[j].key.user
  }

  // An entry before this one in its run is what every snapshot sees in place of it.
  predicate Shadowed(es: seq<Entry>, smallest: nat, j: nat)
    requires j < |es|
  {
    exists i: nat :: i < j && SameRun(es, i, j) && es[i].key.sequence <= smallest
  }

  // What has to be kept: entries that cannot be parsed, and those that no entry shadows, but for
  // deletions that every snapshot sees and that have nothing to delete below.
  predicate Wanted(es: seq<Entry>, smallest: nat, base: UserKey -> bool, j: nat)
    requires j < |es|
  {
    var k := es[j].key;
    k.Parses() ==> !Shadowed(es, smallest, j) && !(k.kind == TYPE_DELETION && k.sequence <= smallest && base(k.user))
  }

  ghost predicate IsWanted(es: seq<Entry>, smallest: nat, base: UserKey -> bool, e: Entry) {
    exists j | 0 <= j < |es| :: es[j] == e && Wanted(es, smallest, base, j)
  }

  // The loop compares with the entry just before only; in a sorted input that is enough.
  lemma ShadowedIsHidden(es: seq<Entry>, smallest: nat, j: nat)
    requires Sorted(es) && j < |es| && es[j].key.Parses()
    ensures Shadowed(es, smallest, j) <==> Hidden(es, smallest, j)
  {
    if Hidden(es, smallest, j) {
      assert SameRun(es, j - 1, j);
    }
    if i: nat :| i < j && SameRun(es, i, j) && es[i].key.sequence <= smallest {
      assert es[i].key.user == es[j - 1].key.user;
      RunOrder(es, i, j - 1);
    }
  }

  // Exactly the wanted entries are kept, in their order.
  lemma KeptIsWanted(es: seq<Entry>, smallest: nat, base: UserKey -> bool)
    requires Sorted(es)
    ensures Sorted(Kept(es, smallest, base, |es|))
    ensures forall e :: e in Kept(es, smallest, base, |es|) <==> IsWanted(es, smallest, base, e)
  {
    KeptIsSorted(es, smallest, base, |es|);
    KeptElements(es, smallest, base, |es|);
    forall j | 0 <= j < |es|
      ensures Wanted(es, smallest, base, j) <==> !Dropped(es, smallest, base, j)
    {
      if es[j].key.Parses() {
        ShadowedIsHidden(es, smallest, j);
      }
    }
    hide Kept, Dropped, Sorted, Wanted;
  }

  lemma {:induction false} KeptIsSorted(es: seq<Entry>, smallest: nat, base: UserKey -> bool, n: nat)
    requires Sorted(es) && n <= |es|
    ensures Sorted(Kept(es, smallest, base, n))
  {
    hide Sorted;
    if n == 0 {
      NothingIsSorted();
    } else {
      var kept := Kept(es, smallest, base, n - 1);
      KeptIsSorted(es, smallest, base, n - 1);
      KeptElements(es, smallest, base, n - 1);
      KeptStep(es, smallest, base, n - 1, kept);
      hide Kept, Dropped;
      forall e | e in kept
        ensures Before(e.key, es[n - 1].key)
      {
        var j :| 0 <= j < n - 1 && es[j] == e && !Dropped(es, smallest, base, j);
        SortedAt(es, j, n - 1);
      }
      SortedGrows(kept, es[n - 1]);
    }
  }

  lemma NothingIsSorted()
    ensures Sorted([])
  {
  }

  lemma SortedAt(es: seq<Entry>, i: nat, j: nat)
    requires Sorted(es) && i < j < |es|
    ensures Before(es[i].key, es[j].key)
  {
  }

  lemma SortedGrows(es: seq<Entry>, last: Entry)
    requires Sorted(es) && forall e | e in es :: Before(e.key, last.key)
    ensures Sorted(es + [last])
  {
    hide Before;
  }

  // The same for one entry of the input.
  lemma KeptIff(es: seq<Entry>, smallest: nat, base: UserKey -> bool, j: nat)
    requires Sorted(es) && j < |es|
    ensures es[j] in Kept(es, smallest, base, |es|) <==> Wanted(es, smallest, base, j)
  {
    KeptIsWanted(es, smallest, base);
    InternalOrder();
    assert forall q | 0 <= q < |es| && es[q] == es[j] :: q == j;
    hide Kept, Wanted, Before;
  }

  // Whatever lies below, an older entry in the run of one that the smallest snapshot sees is
  // gone, so that at most one entry of a run is left at or below that snapshot.
  lemma ShadowedIsGone(es: seq<Entry>, smallest: nat, base: UserKey -> bool, i: nat, j: nat)
    requires Sorted(es) && i < j < |es| && SameRun(es, i, j) && es[i].key.sequence <= smallest
    ensures es[j] !in Kept(es, smallest, base, |es|)
  {
    KeptIff(es, smallest, base, j);
    hide Kept;
    assert Shadowed(es, smallest, j);
  }

  // ------------------------------------------------------------------ reads are preserved

  // Entry d is the newest entry of its key that the oldest snapshot sees, and the compaction
  // drops it as an obsolete deletion; yet an unparseable key m of the same run makes the loop
  // forget the run, so that it keeps the older value that follows m.
  predicate Revives(es: seq<Entry>, smallest: nat, base: UserKey -> bool, d: nat, m: nat) {
    d < m < |es| - 1 &&
    es[d].key.Parses() && Obsolete(es, smallest, base, d) &&
    (forall j | 0 <= j < d :: es[j].key.Parses() && es[j].key.user == es[d].key.user ==>
                              es[j].key.sequence > smallest) &&
    !es[m].key.Parses() && es[m].key.user == es[d].key.user &&
    es[m + 1].key.kind == TYPE_VALUE && es[m + 1].key.user == es[d].key.user
  }

  ghost predicate NothingRevives(es: seq<Entry>, smallest: nat, base: UserKey -> bool) {
    forall d: nat, m: nat :: !Revives(es, smallest, base, d, m)
  }

  // What the version set promises about the files that are not inputs: `base` is true only
  // of keys that no deeper level holds, and whatever else shares a user key with an input
  // (newer levels, memtables, files of the two levels that were not picked) is newer.
  ghost predicate WellPlaced(es: seq<Entry>, base: UserKey -> bool, newer: set<Entry>, deeper: set<Entry>) {
    && (forall e | e in deeper :: !base(e.key.user))
    && (forall e, i | e in newer && 0 <= i < |es| && e.key.user == es[i].key.user ::
          e.key.sequence > es[i].key.sequence)
  }

  // Inputs that all parse are the normal case.
  lemma ParseableRevivesNothing(es: seq<Entry>, smallest: nat, base: UserKey -> bool)
    requires forall e | e in es :: e.key.Parses()
    ensures NothingRevives(es, smallest, base)
  {
  }

  // No read at a snapshot that is still possible can tell the kept entries from the input.
  lemma CompactionPreservesReads(es: seq<Entry>, smallest: nat, base: UserKey -> bool,
                                 newer: set<Entry>, deeper: set<Entry>, k: UserKey, s: nat)
    requires Sorted(es) && NothingRevives(es, smallest, base) && WellPlaced(es, base, newer, deeper)
    requires Distinct(newer + Elements(es) + deeper)
    requires s >= smallest
    ensures Read(newer + Elements(Kept(es, smallest, base, |es|)) + deeper, k, s)
            == Read(newer + Elements(es) + deeper, k, s)
  {
    KeptElements(es, smallest, base, |es|);
    var S := newer + Elements(es) + deeper;
    var S' := newer + Elements(Kept(es, smallest, base, |es|)) + deeper;
    forall e | Answers(S, k, s, e) && e !in S'
      ensures Meaning(e) == None && Read(S', k, s) == None
    {
      var i :| 0 <= i < |es| && es[i] == e;
      NewestIsNotHidden(es, smallest, S, k, s, i);
      DeletionLeavesNothing(es, smallest, base, newer, deeper, k, s, i);
    }
    ReadShrinks(S, S', k, s);
  }

  lemma NewestIsNotHidden(es: seq<Entry>, smallest: nat, S: set<Entry>, k: UserKey, s: nat, i: nat)
    requires Sorted(es) && Elements(es) <= S && Distinct(S) && s >= smallest
    requires i < |es| && Answers(S, k, s, es[i])
    ensures !Hidden(es, smallest, i)
  {
    if Hidden(es, smallest, i) {
      assert Before(es[i - 1].key, es[i].key);
      TagOrder(es[i - 1].key, es[i].key);
      KeyLessTotal(k, k);
    }
  }

  // Once an obsolete deletion answers, nothing the compaction keeps could answer instead.
  lemma DeletionLeavesNothing(es: seq<Entry>, smallest: nat, base: UserKey -> bool,
                              newer: set<Entry>, deeper: set<Entry>, k: UserKey, s: nat, i: nat)
    requires Sorted(es) && NothingRevives(es, smallest, base) && WellPlaced(es, base, newer, deeper)
    requires Distinct(newer + Elements(es) + deeper) && s >= smallest
    requires i < |es| && Answers(newer + Elements(es) + deeper, k, s, es[i]) && Obsolete(es, smallest, base, i)
    requires es[i] !in Kept(es, smallest, base, |es|)
    ensures es[i] in newer + deeper || Read(newer + Elements(Kept(es, smallest, base, |es|)) + deeper, k, s) == None
  {
    KeptElements(es, smallest, base, |es|);
    var S, kept := newer + Elements(es) + deeper, Kept(es, smallest, base, |es|);
    forall e | e in kept
      ensures !Candidate(e, k, s)
    {
      var j :| 0 <= j < |es| && es[j] == e && !Dropped(es, smallest, base, j);
      KeptCandidateIsRevived(es, smallest, base, S, k, s, i, j);
    }
    assert forall e | e in newer :: e in S;
    ReadNone(newer + Elements(kept) + deeper, k, s);
  }

  // A kept entry could answer in place of the obsolete deletion only if it is revived.
  lemma KeptCandidateIsRevived(es: seq<Entry>, smallest: nat, base: UserKey -> bool, S: set<Entry>,
                               k: UserKey, s: nat, i: nat, j: nat)
    requires Sorted(es) && Elements(es) <= S && Distinct(S) && s >= smallest
    requires i < |es| && Answers(S, k, s, es[i]) && Obsolete(es, smallest, base, i)
    requires j < |es| && es[i] != es[j] && !Dropped(es, smallest, base, j)
    ensures Candidate(es[j], k, s) ==> j > 0 && Revives(es, smallest, base, i, j - 1)
  {
    if Candidate(es[j], k, s) {
      OlderAreHidden(es, smallest, S, i, j);
      forall a | 0 <= a < i && es[a].key.Parses() && es[a].key.user == k
        ensures es[a].key.sequence > smallest
      {
        assert es[a] in S && Before(es[a].key, es[i].key);
        TagOrder(es[a].key, es[i].key);
        KeyLessTotal(k, k);
      }
    }
  }

  // In a sorted run, an entry that is no newer than an old one comes after it, and is hidden
  // unless an unparseable key stands just before it.
  lemma OlderAreHidden(es: seq<Entry>, smallest: nat, S: set<Entry>, i: nat, j: nat)
    requires Sorted(es) && Elements(es) <= S && Distinct(S)
    requires i < |es| && j < |es| && es[i] != es[j]
    requires es[i].key.user == es[j].key.user && es[i].key.Parses() && es[j].key.Parses()
    requires es[j].key.sequence <= es[i].key.sequence <= smallest
    ensures i < j && es[j - 1].key.user == es[j].key.user
    ensures Hidden(es, smallest, j) || (i < j - 1 && !es[j - 1].key.Parses())
  {
    assert es[j].key.sequence < es[i].key.sequence;
    TagOrder(es[i].key, es[j].key);
    KeyLessTotal(es[i].key.user, es[j].key.user);
    assert i < j;
    if i < j - 1 {
      assert Before(es[i].key, es[j - 1].key) && Before(es[j - 1].key, es[j].key);
      KeyOrder();
      TagOrder(es[i].key, es[j - 1].key);
    }
  }

  // The condition is exact: when a deletion is revived, the oldest possible snapshot reads
  // a value of that key after the compaction that it did not read before.
  lemma RevivedDeletionIsRead(es: seq<Entry>, smallest: nat, base: UserKey -> bool, d: nat, m: nat)
    requires Sorted(es) && Distinct(Elements(es)) && Revives(es, smallest, base, d, m)
    ensures Read(Elements(es), es[d].key.user, smallest) == None
    ensures Read(Elements(Kept(es, smallest, base, |es|)), es[d].key.user, smallest) != None
  {
    var k, kept := es[d].key.user, Kept(es, smallest, base, |es|);
    KeptElements(es, smallest, base, |es|);
    forall j | 0 <= j < |es| && Candidate(es[j], k, smallest)
      ensures es[j].key.sequence <= es[d].key.sequence
    {
      RunOrder(es, d, j);
    }
    ReadIs(Elements(es), k, smallest, es[d]);
    RunOrder(es, d, m + 1);
    assert !Dropped(es, smallest, base, m + 1);
    KeptValueIsRead(es, smallest, base, k, m + 1);
  }

  // In a run, later means no newer.
  lemma RunOrder(es: seq<Entry>, i: nat, j: nat)
    requires Sorted(es) && i < |es| && j < |es| && es[i].key.user == es[j].key.user
    ensures i <= j ==> es[j].key.sequence <= es[i].key.sequence
  {
    if i < j {
      assert Before(es[i].key, es[j].key);
      TagOrder(es[i].key, es[j].key);
      KeyLessTotal(es[i].key.user, es[i].key.user);
    }
  }

  // Among the kept entries of a key that the oldest snapshot sees, no deletion is left when
  // the key has no older data below.
  lemma KeptValueIsRead(es: seq<Entry>, smallest: nat, base: UserKey -> bool, k: UserKey, i: nat)
    requires Sorted(es) && Distinct(Elements(es)) && base(k)
    requires i < |es| && Candidate(es[i], k, smallest) && !Dropped(es, smallest, base, i)
    ensures Read(Elements(Kept(es, smallest, base, |es|)), k, smallest) != None
  {
    var kept := Kept(es, smallest, base, |es|);
    KeptElements(es, smallest, base, |es|);
    var e := NewestExists(Elements(kept), k, smallest, es[i]);
    var j :| 0 <= j < |es| && es[j] == e && !Dropped(es, smallest, base, j);
    ReadIs(Elements(kept), k, smallest, e);
  }
}
