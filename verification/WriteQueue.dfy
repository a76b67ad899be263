// DBImpl::Write as a protocol between threads (db/db_impl.cc:1185-1256): every step is what
// one thread does between two points where it takes or releases mutex_.
module WriteQueue {
  import opened Coding
  import opened Lookup
  import opened DbFormat
  import opened WriteBatch
  import opened GroupCommit

  // What a writer gets back.  BadSync: the record may or may not survive.
  datatype Result = Success | Failure | BadSync

  // Where a calling thread is.  Its place in the order of arrival is its name.
  datatype Thread =
    | Waiting                // on its condition variable, or for the mutex
    | MakingRoom             // in MakeRoomForWrite
    | Logging                // in AddRecord, mutex_ released
    | Syncing
    | Inserting              // in InsertInto
    | Publishing(r: Result)  // about to take mutex_ again
    | Returned

  datatype Outcome = Pending | Logged | Inserted | NotLogged | Unsynced

  // A group: the writers from `from` to before `to`, and the record they share, whose sequence
  // numbers are those after `after` up to Last().
  datatype Group = Group(from: nat, to: nat, after: nat, ops: seq<Op>, outcome: Outcome) {
    function Last(): (n: nat) { after + |ops| }
  }

  // What AddRecord got: operations, and the sequence number before the first of them.
  datatype Record = Record(after: nat, ops: seq<Op>)

  // Of the threads that ever called Write, the first `popped` are out of the queue; results
  // holds each Writer's done and status, and for a leader what it returns.  groups are the
  // groups that are over; log and table are what the log and the memtables were given.
  datatype State = State(arrivals: seq<Request>, popped: nat, threads: seq<Thread>, results: seq<Option<Result>>,
                         lastSequence: nat, tmp: seq<Op>, bgError: bool, groups: seq<Group>, current: Option<Group>,
                         log: seq<Record>, table: seq<Entry>)

  datatype Event =
    | Arrive(r: Request)
    | WakeDone(t: nat)   // its write was done by another thread
    | WakeFirst(t: nat)  // it is at the front of the queue
    | NoRoom(t: nat)     // MakeRoomForWrite fails
    | Room(t: nat)       // it succeeds, and the write has no batch
    | Start(t: nat, n: nat)  // it succeeds; the group has n writers
    | Append(t: nat, ok: bool) | Sync(t: nat, ok: bool) | Insert(t: nat)
    | Publish(t: nat)
    | BackgroundError

  // The thread a step belongs to is at `th`.
  predicate Is(s: State, t: nat, th: Thread) {
    t < |s.threads| && s.threads[t] == th
  }

  ghost predicate Enabled(s: State, ev: Event) {
    match ev
    case Arrive(_) => true
    case BackgroundError => true
    case WakeDone(t) => Is(s, t, Waiting) && t < |s.results| && s.results[t].Some?
    case WakeFirst(t) => Is(s, t, Waiting) && t < |s.results| && s.results[t].None? && t == s.popped
    case NoRoom(t) => Is(s, t, MakingRoom)
    case Room(t) => Is(s, t, MakingRoom) && !s.bgError && t < |s.arrivals| && s.arrivals[t].batch.None?
    case Start(t, n) =>
      Is(s, t, MakingRoom) && !s.bgError && t < |s.arrivals| && s.arrivals[t].batch.Some? && IsGroup(s.arrivals[t..], n)
    case Append(t, _) => Is(s, t, Logging) && s.current.Some? && t < |s.arrivals|
    case Sync(t, _) => Is(s, t, Syncing) && s.current.Some?
    case Insert(t) => Is(s, t, Inserting) && s.current.Some? && t < |s.arrivals|
    case Publish(t) => t < |s.threads| && s.threads[t].Publishing? && s.current.Some?
  }

  function WithThread(s: State, t: nat, th: Thread): (r: State)
    requires t < |s.threads|
  {
    s.(threads := s.threads[t := th])
  }

  function WithOutcome(s: State, o: Outcome): (r: State)
    requires s.current.Some?
  {
    s.(current := Some(s.current.value.(outcome := o)))
  }

  // The results once the writers before `to` have left the queue with result r.
  function Filled(results: seq<Option<Result>>, from: nat, to: nat, r: Result): (rs: seq<Option<Result>>)
    ensures |rs| == |results|
  {
    seq(|results|, i requires 0 <= i < |results| => if from <= i < to then Some(r) else results[i])
  }

  // The leader pops its group, itself included, and hands the others their status.
  function Popped(s: State, t: nat, to: nat, r: Result): (r': State)
    requires t < |s.threads|
  {
    s.(popped := to, threads := s.threads[t := Returned], results := Filled(s.results, s.popped, to, r))
  }

  function Members(arrivals: seq<Request>, from: nat, to: nat): (rs: seq<Request>) {
    if from <= to <= |arrivals| then arrivals[from..to] else []
  }

  // tmp_batch_ is used for a group of more than one batch.
  function TmpFor(arrivals: seq<Request>, g: Group): (ops: seq<Op>) {
    if Batches(Members(arrivals, g.from, g.to)) > 1 then g.ops else []
  }

  function Started(s: State, t: nat, n: nat): (r: State)
    requires t < |s.threads|
  {
    var g := Group(t, t + n, s.lastSequence, AllOps(Members(s.arrivals, t, t + n)), Pending);
    WithThread(s, t, Logging).(current := Some(g), tmp := s.tmp + TmpFor(s.arrivals, g))
  }

  // What BuildBatchGroup returned: tmp_batch_, or the leader's own batch.
  function BatchFor(s: State, t: nat): (ops: seq<Op>)
    requires t < |s.arrivals| && s.current.Some?
  {
    var g := s.current.value;
    if Batches(Members(s.arrivals, g.from, g.to)) > 1 then s.tmp else OpsOf(s.arrivals[t])
  }

  function Appended(s: State, t: nat, ok: bool): (r: State)
    requires t < |s.threads| && t < |s.arrivals| && s.current.Some?
  {
    if !ok then WithOutcome(WithThread(s, t, Publishing(Failure)), NotLogged)
    else
      WithOutcome(WithThread(s, t, if s.arrivals[t].sync then Syncing else Inserting), Logged)
      .(log := s.log + [Record(s.lastSequence, BatchFor(s, t))])
  }

  // InsertInto numbers the operations as SetSequence said.
  function InsertedInto(s: State, t: nat): (r: State)
    requires t < |s.threads| && t < |s.arrivals| && s.current.Some?
  {
    WithOutcome(WithThread(s, t, Publishing(Success)), Inserted)
    .(table := s.table + Numbered(BatchFor(s, t), s.lastSequence + 1))
  }

  // SetLastSequence, even when the write failed.
  function Published(s: State, t: nat): (r: State)
    requires t < |s.threads| && s.threads[t].Publishing? && s.current.Some?
  {
    var g, r := s.current.value, s.threads[t].r;
    Popped(s, t, g.to, r).(lastSequence := g.Last(), bgError := s.bgError || r.BadSync?,
                           tmp := if Batches(Members(s.arrivals, g.from, g.to)) > 1 then [] else s.tmp,
                           groups := s.groups + [g], current := None)
  }

  ghost function Step(s: State, ev: Event): (r: State)
    requires Enabled(s, ev)
  {
    match ev
    case Arrive(q) => s.(arrivals := s.arrivals + [q], threads := s.threads + [Waiting], results := s.results + [None])
    case BackgroundError => s.(bgError := true)
    case WakeDone(t) => WithThread(s, t, Returned)
    case WakeFirst(t) => WithThread(s, t, MakingRoom)
    case NoRoom(t) => Popped(s, t, t + 1, Failure)
    case Room(t) => Popped(s, t, t + 1, Success)
    case Start(t, n) => Started(s, t, n)
    case Append(t, ok) => Appended(s, t, ok)
    case Sync(t, ok) =>
      if ok then WithThread(s, t, Inserting) else WithOutcome(WithThread(s, t, Publishing(BadSync)), Unsynced)
    case Insert(t) => InsertedInto(s, t)
    case Publish(t) => Published(s, t)
  }

  // Any run: an event that is not enabled does nothing.
  ghost function Run(s: State, events: seq<Event>): (r: State)
    decreases |events|
  {
    if events == [] then s
    else Run(if Enabled(s, events[0]) then Step(s, events[0]) else s, events[1..])
  }

  function Init(lastSequence: nat): (s: State) {
    State([], 0, [], [], lastSequence, [], false, [], None, [], [])
  }

  // ------------------------------------------------------------------ the invariant

  predicate Leads(th: Thread) {
    !th.Waiting? && !th.Returned?
  }

  function LeaderOf(threads: seq<Thread>, popped: nat): (th: Thread) {
    if popped < |threads| then threads[popped] else Waiting
  }

  // Whoever leads is at the front of the queue; exactly those who left it have a result.
  ghost predicate QueueInv(popped: nat, threads: seq<Thread>, results: seq<Option<Result>>, n: nat) {
    && popped <= n == |threads| == |results|
    && (forall t | 0 <= t < n :: Leads(threads[t]) ==> t == popped)
    && (forall t | 0 <= t < n :: results[t].Some? <==> t < popped)
    && (forall t | 0 <= t < n :: threads[t].Returned? ==> t < popped)
  }

  function ResultFor(o: Outcome): (r: Result) {
    match o
    case Inserted => Success
    case Unsynced => BadSync
    case _ => Failure
  }

  predicate Decided(o: Outcome) {
    o.Inserted? || o.NotLogged? || o.Unsynced?
  }

  // A group is a stretch of the queue, led by its first writer, which syncs if any does.
  ghost predicate GroupFits(g: Group, arrivals: seq<Request>) {
    && g.from < g.to <= |arrivals| && arrivals[g.from].batch.Some?
    && g.ops == AllOps(Members(arrivals, g.from, g.to))
    && forall t | g.from <= t < g.to :: arrivals[t].sync ==> arrivals[g.from].sync
  }

  ghost predicate OverFits(g: Group, arrivals: seq<Request>, results: seq<Option<Result>>, popped: nat, last: nat) {
    && GroupFits(g, arrivals) && g.to <= popped <= |results| && g.Last() <= last && Decided(g.outcome)
    && forall t | g.from <= t < g.to :: results[t] == Some(ResultFor(g.outcome))
  }

  // Groups follow each other in the order of the queue, and no two use a sequence number
  // twice, whether or not they reached the log.
  ghost predicate Chain(groups: seq<Group>) {
    forall i, j | 0 <= i < j < |groups| :: groups[i].to <= groups[j].from && groups[i].Last() <= groups[j].after
  }

  ghost predicate GroupsFit(groups: seq<Group>, arrivals: seq<Request>, results: seq<Option<Result>>, popped: nat, last: nat) {
    Chain(groups) && forall g | g in groups :: OverFits(g, arrivals, results, popped, last)
  }

  ghost predicate Covered(groups: seq<Group>, t: int) {
    exists g :: g in groups && g.from <= t < g.to
  }

  ghost predicate AllCovered(groups: seq<Group>, arrivals: seq<Request>, results: seq<Option<Result>>) {
    |arrivals| == |results| &&
    forall t | 0 <= t < |results| && results[t] == Some(Success) && arrivals[t].batch.Some? :: Covered(groups, t)
  }

  // What the leader is doing, and how far its group is.
  predicate StageFits(th: Thread, o: Outcome) {
    match th
    case Logging => o.Pending?
    case Syncing => o.Logged?
    case Inserting => o.Logged?
    case Publishing(r) => Decided(o) && r == ResultFor(o)
    case _ => false
  }

  ghost predicate CurrentFits(current: Option<Group>, th: Thread, arrivals: seq<Request>, popped: nat, last: nat, tmp: seq<Op>) {
    match current
    case None => (th.MakingRoom? || !Leads(th)) && tmp == []
    case Some(g) =>
      GroupFits(g, arrivals) && g.from == popped && g.after == last && StageFits(th, g.outcome) && tmp == TmpFor(arrivals, g)
  }

  ghost predicate Inv(s: State) {
    && QueueInv(s.popped, s.threads, s.results, |s.arrivals|)
    && GroupsFit(s.groups, s.arrivals, s.results, s.popped, s.lastSequence)
    && AllCovered(s.groups, s.arrivals, s.results)
    && CurrentFits(s.current, LeaderOf(s.threads, s.popped), s.arrivals, s.popped, s.lastSequence, s.tmp)
  }

  // ------------------------------------------------------------------ every step keeps it

  lemma GroupStaysFit(g: Group, arrivals: seq<Request>, q: Request)
    requires GroupFits(g, arrivals)
    ensures GroupFits(g, arrivals + [q]) && TmpFor(arrivals + [q], g) == TmpFor(arrivals, g)
  {
    assert (arrivals + [q])[g.from..g.to] == arrivals[g.from..g.to];
  }

  lemma ArriveKeeps(s: State, q: Request)
    requires Inv(s)
    ensures Inv(Step(s, Arrive(q)))
  {
    hide GroupFits, TmpFor;
    forall g | GroupFits(g, s.arrivals)
      ensures GroupFits(g, s.arrivals + [q]) && TmpFor(s.arrivals + [q], g) == TmpFor(s.arrivals, g)
    {
      GroupStaysFit(g, s.arrivals, q);
    }
  }

  lemma WakeKeeps(s: State, t: nat, th: Thread)
    requires Inv(s) && Is(s, t, Waiting)
    requires (th == Returned && t < |s.results| && s.results[t].Some?) || (th == MakingRoom && t == s.popped)
    ensures Inv(WithThread(s, t, th))
  {
    hide GroupsFit, AllCovered, GroupFits, TmpFor;
  }

  lemma FilledFits(groups: seq<Group>, arrivals: seq<Request>, results: seq<Option<Result>>, popped: nat, last: nat,
                   to: nat, r: Result, last': nat)
    requires GroupsFit(groups, arrivals, results, popped, last) && popped <= to <= |results| && last <= last'
    ensures GroupsFit(groups, arrivals, Filled(results, popped, to, r), to, last')
  {
    hide GroupFits, Chain;
  }

  lemma LeaveKeeps(s: State, t: nat, r: Result)
    requires Inv(s) && Is(s, t, MakingRoom) && (r.Failure? || (r.Success? && s.arrivals[t].batch.None?))
    ensures Inv(Popped(s, t, t + 1, r))
  {
    FilledFits(s.groups, s.arrivals, s.results, s.popped, s.lastSequence, t + 1, r, s.lastSequence);
    hide GroupsFit, GroupFits, TmpFor, Covered;
  }

  lemma StartedGroupFits(arrivals: seq<Request>, t: nat, n: nat, g: Group)
    requires t < |arrivals| && arrivals[t].batch.Some? && IsGroup(arrivals[t..], n)
    requires g.from == t && g.to == t + n && g.ops == AllOps(Members(arrivals, t, t + n))
    ensures GroupFits(g, arrivals)
  {
    hide AllOps;
    forall i | t < i < t + n
      ensures arrivals[i].sync ==> arrivals[t].sync
    {
      assert MayJoin(arrivals[t..], i - t);
    }
  }

  lemma StartKeeps(s: State, t: nat, n: nat)
    requires Inv(s) && Enabled(s, Start(t, n))
    ensures Inv(Started(s, t, n))
  {
    var g := Group(t, t + n, s.lastSequence, AllOps(Members(s.arrivals, t, t + n)), Pending);
    StartedGroupFits(s.arrivals, t, n, g);
    assert [] + TmpFor(s.arrivals, g) == TmpFor(s.arrivals, g);
    hide GroupsFit, AllCovered, GroupFits, TmpFor, IsGroup;
  }

  // A step of the leader in the middle of its write.
  lemma StageKeeps(s: State, t: nat, th: Thread, o: Outcome)
    requires Inv(s) && t < |s.threads| && Leads(s.threads[t]) && s.current.Some? && Leads(th) && StageFits(th, o)
    ensures Inv(WithOutcome(WithThread(s, t, th), o))
  {
    hide GroupsFit, AllCovered;
  }

  lemma PublishKeeps(s: State, t: nat)
    requires Inv(s) && Enabled(s, Publish(t))
    ensures Inv(Published(s, t))
  {
    var g, r := s.current.value, s.threads[t].r;
    var results := Filled(s.results, s.popped, g.to, r);
    FilledFits(s.groups, s.arrivals, s.results, s.popped, s.lastSequence, g.to, r, g.Last());
    assert OverFits(g, s.arrivals, results, g.to, g.Last());
    ChainExtends(s.groups, s.arrivals, s.results, s.popped, s.lastSequence, g);
    CoverExtends(s.groups, s.arrivals, s.results, s.popped, g, r);
    hide GroupFits, Chain, AllCovered, OverFits, TmpFor;
  }

  lemma ChainExtends(groups: seq<Group>, arrivals: seq<Request>, results: seq<Option<Result>>, popped: nat, last: nat, g: Group)
    requires GroupsFit(groups, arrivals, results, popped, last) && g.from == popped && g.after == last
    ensures Chain(groups + [g])
  {
    hide GroupFits;
    assert forall i | 0 <= i < |groups| :: groups[i] in groups;
  }

  lemma CoverExtends(groups: seq<Group>, arrivals: seq<Request>, results: seq<Option<Result>>, popped: nat, g: Group, r: Result)
    requires AllCovered(groups, arrivals, results) && g.from == popped
    ensures AllCovered(groups + [g], arrivals, Filled(results, popped, g.to, r))
  {
    forall t | Covered(groups, t)
      ensures Covered(groups + [g], t)
    {
      var g' :| g' in groups && g'.from <= t < g'.to;
      assert g' in groups + [g];
    }
    assert g in groups + [g];
    assert forall t | g.from <= t < g.to :: Covered(groups + [g], t);
  }

  lemma StepKeepsInv(s: State, ev: Event)
    requires Inv(s) && Enabled(s, ev)
    ensures Inv(Step(s, ev))
  {
    hide QueueInv, GroupsFit, AllCovered, CurrentFits, GroupFits, TmpFor, IsGroup, Filled;
    match ev
    case Arrive(q) => ArriveKeeps(s, q);
    case BackgroundError =>
    case WakeDone(t) => WakeKeeps(s, t, Returned);
    case WakeFirst(t) => WakeKeeps(s, t, MakingRoom);
    case NoRoom(t) => LeaveKeeps(s, t, Failure);
    case Room(t) => LeaveKeeps(s, t, Success);
    case Start(t, n) => StartKeeps(s, t, n);
    case Append(t, ok) =>
      StageKeeps(s, t, if !ok then Publishing(Failure) else if s.arrivals[t].sync then Syncing else Inserting,
                 if ok then Logged else NotLogged);
      OutputsAside(WithOutcome(WithThread(s, t, if !ok then Publishing(Failure) else if s.arrivals[t].sync then Syncing
                                                else Inserting), if ok then Logged else NotLogged), Step(s, ev));
    case Sync(t, ok) =>
      var o := s.current.value.outcome;
      StageIs(s, t);
      assert ok ==> WithOutcome(WithThread(s, t, Inserting), Logged) == WithThread(s, t, Inserting);
      StageKeeps(s, t, if ok then Inserting else Publishing(BadSync), if ok then Logged else Unsynced);
    case Insert(t) =>
      StageKeeps(s, t, Publishing(Success), Inserted);
      OutputsAside(WithOutcome(WithThread(s, t, Publishing(Success)), Inserted), Step(s, ev));
    case Publish(t) => PublishKeeps(s, t);
  }

  // The queue does not look at what has been written.
  lemma OutputsAside(s: State, s': State)
    requires Inv(s) && s' == s.(log := s'.log, table := s'.table)
    ensures Inv(s')
  {
    hide QueueInv, GroupsFit, AllCovered, CurrentFits;
  }

  lemma StageIs(s: State, t: nat)
    requires Inv(s) && t < |s.threads| && Leads(s.threads[t]) && s.current.Some?
    ensures t == s.popped && StageFits(s.threads[t], s.current.value.outcome)
  {
  }

  lemma {:induction false} RunKeepsInv(s: State, events: seq<Event>)
    requires Inv(s)
    ensures Inv(Run(s, events))
    decreases |events|
  {
    hide Inv, Step, Enabled;
    if events != [] {
      if Enabled(s, events[0]) {
        StepKeepsInv(s, events[0]);
        RunKeepsInv(Step(s, events[0]), events[1..]);
      } else {
        RunKeepsInv(s, events[1..]);
      }
    }
  }

  lemma InitKeeps(last: nat)
    ensures Inv(Init(last))
  {
  }

  // ------------------------------------------------------------------ what is written

  predicate Reached(o: Outcome) {
    o.Logged? || o.Inserted? || o.Unsynced?
  }

  // The records of the groups that reached the log, in their order.
  function RecordsOf(gs: seq<Group>): (rs: seq<Record>) {
    if gs == [] then []
    else
      var n := |gs| - 1;
      RecordsOf(gs[..n]) + if Reached(gs[n].outcome) then [Record(gs[n].after, gs[n].ops)] else []
  }

  // The entries of the groups that were inserted.
  function EntriesOf(gs: seq<Group>): (es: seq<Entry>) {
    if gs == [] then []
    else
      var n := |gs| - 1;
      EntriesOf(gs[..n]) + if gs[n].outcome.Inserted? then Numbered(gs[n].ops, gs[n].after + 1) else []
  }

  // All groups there have been, the current one included.
  function AllGroups(s: State): (gs: seq<Group>) {
    s.groups + if s.current.Some? then [s.current.value] else []
  }

  // The log and the memtables were given just what the groups say.
  ghost predicate Wrote(s: State) {
    s.log == RecordsOf(AllGroups(s)) && s.table == EntriesOf(AllGroups(s))
  }

  // A group with one batch is that batch.
  lemma {:induction false} OneBatch(rs: seq<Request>)
    ensures Batches(rs) == 0 ==> AllOps(rs) == []
    ensures rs != [] && rs[0].batch.Some? ==> Batches(rs) > 0 && (Batches(rs) == 1 ==> AllOps(rs) == OpsOf(rs[0]))
  {
    if rs != [] {
      OneBatch(rs[..|rs| - 1]);
    }
  }

  // What BuildBatchGroup returned holds the operations of all of the group.
  lemma BatchIsGroup(s: State, t: nat)
    requires Inv(s) && t < |s.arrivals| && t < |s.threads| && Leads(s.threads[t]) && s.current.Some?
    ensures BatchFor(s, t) == s.current.value.ops && s.current.value.after == s.lastSequence
  {
    var g := s.current.value;
    StageIs(s, t);
    OneBatch(Members(s.arrivals, g.from, g.to));
    hide GroupsFit, AllCovered, AllOps, Batches;
  }

  lemma LastGroup(s: State, g: Group, g': Group)
    requires s.current == Some(g)
    ensures RecordsOf(s.groups + [g']) ==
            RecordsOf(s.groups) + if Reached(g'.outcome) then [Record(g'.after, g'.ops)] else []
    ensures EntriesOf(s.groups + [g']) ==
            EntriesOf(s.groups) + if g'.outcome.Inserted? then Numbered(g'.ops, g'.after + 1) else []
  {
    assert (s.groups + [g'])[..|s.groups|] == s.groups;
  }

  lemma StepWrites(s: State, ev: Event)
    requires Inv(s) && Enabled(s, ev) && Wrote(s)
    ensures Wrote(Step(s, ev))
  {
    hide Inv, RecordsOf, EntriesOf, Numbered, BatchFor, Filled, IsGroup, TmpFor, AllOps, Members;
    var gs := s.groups;
    if s.current.Some? {
      var g := s.current.value;
      LastGroup(s, g, g);
      assert (gs + [g]) + [] == gs + [g];
      match ev
      case Append(t, ok) => LeaderWrites(s, t); LastGroup(s, g, g.(outcome := if ok then Logged else NotLogged));
      case Sync(t, ok) => LeaderWrites(s, t); LastGroup(s, g, g.(outcome := Unsynced));
      case Insert(t) => LeaderWrites(s, t); LastGroup(s, g, g.(outcome := Inserted));
      case Start(t, n) => NoOtherLeader(s, t);
      case _ =>
    } else if ev.Start? {
      var g := Started(s, ev.t, ev.n).current.value;
      StartedPending(s, g);
    }
    assert gs + [] == gs;
  }

  lemma LeaderWrites(s: State, t: nat)
    requires Inv(s) && t < |s.threads| && Leads(s.threads[t]) && s.current.Some?
    ensures t < |s.arrivals| && BatchFor(s, t) == s.current.value.ops && s.current.value.after == s.lastSequence
    ensures s.threads[t].Logging? ==> s.current.value.outcome.Pending?
    ensures s.threads[t].Syncing? || s.threads[t].Inserting? ==> s.current.value.outcome.Logged?
  {
    assert t < |s.arrivals|;
    StageIs(s, t);
    BatchIsGroup(s, t);
    hide GroupsFit, AllCovered, GroupFits;
  }

  lemma NoOtherLeader(s: State, t: nat)
    requires Inv(s) && Is(s, t, MakingRoom)
    ensures s.current.None?
  {
    if s.current.Some? {
      StageIs(s, t);
    }
    hide GroupsFit, AllCovered, GroupFits;
  }

  lemma StartedPending(s: State, g: Group)
    requires g.outcome.Pending?
    ensures RecordsOf(s.groups + [g]) == RecordsOf(s.groups) && EntriesOf(s.groups + [g]) == EntriesOf(s.groups)
  {
    assert (s.groups + [g])[..|s.groups|] == s.groups;
  }

  // The operations of the groups that were inserted.
  function OpsIn(gs: seq<Group>): (ops: seq<Op>) {
    if gs == [] then []
    else
      var n := |gs| - 1;
      OpsIn(gs[..n]) + if gs[n].outcome.Inserted? then gs[n].ops else []
  }

  // The operations of the first n writers, of those whose write returned success.
  function SuccessOps(arrivals: seq<Request>, results: seq<Option<Result>>, n: nat): (ops: seq<Op>)
    requires n <= |arrivals| == |results|
  {
    if n == 0 then []
    else
      SuccessOps(arrivals, results, n - 1) + if results[n - 1] == Some(Success) then OpsOf(arrivals[n - 1]) else []
  }

  ghost predicate Succeeded(s: State) {
    s.popped <= |s.arrivals| == |s.results| && OpsIn(s.groups) == SuccessOps(s.arrivals, s.results, s.popped)
  }

  lemma {:induction false} SameSuccess(arrivals: seq<Request>, results: seq<Option<Result>>, arrivals': seq<Request>,
                                       results': seq<Option<Result>>, n: nat)
    requires n <= |arrivals| == |results| && n <= |arrivals'| == |results'|
    requires arrivals[..n] == arrivals'[..n] && results[..n] == results'[..n]
    ensures SuccessOps(arrivals, results, n) == SuccessOps(arrivals', results', n)
  {
    if n > 0 {
      assert arrivals[..n - 1] == arrivals[..n][..n - 1] && arrivals'[..n - 1] == arrivals'[..n][..n - 1];
      assert results[..n - 1] == results[..n][..n - 1] && results'[..n - 1] == results'[..n][..n - 1];
      SameSuccess(arrivals, results, arrivals', results', n - 1);
      assert arrivals[n - 1] == arrivals[..n][n - 1] && results[n - 1] == results[..n][n - 1];
    }
  }

  // The writers that leave together all succeed or all fail.
  lemma {:induction false} GroupSucceeds(arrivals: seq<Request>, results: seq<Option<Result>>, from: nat, to: nat, r: Result)
    requires from <= to <= |arrivals| == |results| && forall t | from <= t < to :: results[t] == Some(r)
    ensures SuccessOps(arrivals, results, to) ==
            SuccessOps(arrivals, results, from) + if r.Success? then AllOps(arrivals[from..to]) else []
    decreases |arrivals[from..to]|
  {
    if from < to {
      var rs := arrivals[from..to];
      GroupSucceeds(arrivals, results, from, to - 1, r);
      assert rs[..|rs| - 1] == arrivals[from..to - 1] && rs[|rs| - 1] == arrivals[to - 1];
      hide OpsOf;
      assert results[to - 1] == Some(r);
      if r.Success? {
        ConcatAssociates(SuccessOps(arrivals, results, from), AllOps(arrivals[from..to - 1]), OpsOf(arrivals[to - 1]));
      } else {
        assert SuccessOps(arrivals, results, from) + [] == SuccessOps(arrivals, results, from);
      }
    } else {
      assert SuccessOps(arrivals, results, from) + [] == SuccessOps(arrivals, results, from) && arrivals[from..to] == [];
    }
  }

  lemma LeavingSucceeds(s: State, t: nat, to: nat, r: Result)
    requires Inv(s) && Succeeded(s) && t < |s.threads| && s.popped <= to <= |s.arrivals|
    ensures SuccessOps(s.arrivals, Popped(s, t, to, r).results, to) ==
            OpsIn(s.groups) + if r.Success? then AllOps(s.arrivals[s.popped..to]) else []
  {
    var results := Filled(s.results, s.popped, to, r);
    SameSuccess(s.arrivals, s.results, s.arrivals, results, s.popped);
    GroupSucceeds(s.arrivals, results, s.popped, to, r);
    hide Inv, AllOps;
  }

  lemma StepSucceeds(s: State, ev: Event)
    requires Inv(s) && Enabled(s, ev) && Succeeded(s)
    ensures Succeeded(Step(s, ev))
  {
    hide OpsIn, SuccessOps, Filled, BatchFor, Numbered, TmpFor, IsGroup, GroupsFit, AllCovered;
    match ev
    case Arrive(q) => SameSuccess(s.arrivals, s.results, s.arrivals + [q], s.results + [None], s.popped);
    case NoRoom(t) =>
      LeavingSucceeds(s, t, t + 1, Failure);
      assert OpsIn(s.groups) + [] == OpsIn(s.groups);
    case Room(t) =>
      LeavingSucceeds(s, t, t + 1, Success);
      NoOps(s.arrivals[t..t + 1]);
      assert OpsIn(s.groups) + [] == OpsIn(s.groups);
    case Publish(t) => PublishSucceeds(s, t);
    case _ =>
  }

  lemma NoOps(rs: seq<Request>)
    requires |rs| == 1 && rs[0].batch.None?
    ensures AllOps(rs) == []
  {
  }

  lemma PublishSucceeds(s: State, t: nat)
    requires Inv(s) && Enabled(s, Publish(t)) && Succeeded(s)
    ensures Succeeded(Published(s, t))
  {
    var g, r := s.current.value, s.threads[t].r;
    StageIs(s, t);
    LeavingSucceeds(s, t, g.to, r);
    assert (s.groups + [g])[..|s.groups|] == s.groups;
    assert r == ResultFor(g.outcome) && Decided(g.outcome);
    hide GroupsFit, AllCovered, AllOps;
  }

  lemma {:induction false} RunWrites(s: State, events: seq<Event>)
    requires Inv(s) && Wrote(s) && Succeeded(s)
    ensures Wrote(Run(s, events)) && Succeeded(Run(s, events))
    decreases |events|
  {
    hide Inv, Step, Enabled, Wrote, Succeeded;
    if events != [] {
      if Enabled(s, events[0]) {
        StepKeepsInv(s, events[0]);
        StepWrites(s, events[0]);
        StepSucceeds(s, events[0]);
        RunWrites(Step(s, events[0]), events[1..]);
      } else {
        RunWrites(s, events[1..]);
      }
    }
  }

  // ------------------------------------------------------------------ the main results

  // At most one thread leads, and it is the one at the front of the queue.
  lemma OneLeader(last: nat, events: seq<Event>, t: nat)
    ensures var s := Run(Init(last), events); t < |s.threads| && Leads(s.threads[t]) ==> t == s.popped
  {
    InitKeeps(last);
    RunKeepsInv(Init(last), events);
    hide Run, GroupsFit, AllCovered, CurrentFits;
  }

  // A group is a stretch of the queue in order of arrival, under a leader that syncs if any
  // of its writers asked for it; a record holds their operations in that order.  Later groups
  // hold later writers and later sequence numbers, and no number is used by two groups, not
  // even when the first of them failed.
  lemma GroupsAreStretchesOfTheQueue(last: nat, events: seq<Event>, i: nat, j: nat)
    requires var s := Run(Init(last), events); i < |s.groups| && j < |s.groups|
    ensures var s := Run(Init(last), events);
            var a, b := s.groups[i], s.groups[j];
            && GroupFits(a, s.arrivals)
            && (i < j ==> a.to <= b.from && a.Last() <= b.after)
            && a.Last() <= s.lastSequence
            && (s.current.Some? ==> a.to <= s.current.value.from && a.Last() <= s.current.value.after)
  {
    InitKeeps(last);
    RunKeepsInv(Init(last), events);
    var s := Run(Init(last), events);
    hide Run, GroupFits, AllCovered, QueueInv;
    assert s.groups[i] in s.groups;
  }

  // A write that returns Success is in exactly one group, which was logged and inserted; one
  // that returns an error is in no group that was.
  lemma CommittedExactlyOnce(last: nat, events: seq<Event>, t: nat)
    requires var s := Run(Init(last), events);
             t < |s.results| && s.results[t].Some? && t < |s.arrivals| && s.arrivals[t].batch.Some?
    ensures var s := Run(Init(last), events);
            s.results[t] == Some(Success) <==>
            exists g :: g in s.groups && g.from <= t < g.to && g.outcome == Inserted
    ensures var s := Run(Init(last), events);
            forall i, j | 0 <= i < j < |s.groups| :: !(s.groups[i].from <= t < s.groups[i].to && s.groups[j].from <= t < s.groups[j].to)
  {
    InitKeeps(last);
    RunKeepsInv(Init(last), events);
    hide Run, Inv;
    CommittedOnce(Run(Init(last), events), t);
  }

  lemma CommittedOnce(s: State, t: nat)
    requires Inv(s) && t < |s.results| && s.results[t].Some? && t < |s.arrivals| && s.arrivals[t].batch.Some?
    ensures s.results[t] == Some(Success) <==> exists g :: g in s.groups && g.from <= t < g.to && g.outcome == Inserted
    ensures forall i, j | 0 <= i < j < |s.groups| ::
              !(s.groups[i].from <= t < s.groups[i].to && s.groups[j].from <= t < s.groups[j].to)
  {
    hide GroupFits, QueueInv, CurrentFits;
    if s.results[t] == Some(Success) {
      assert Covered(s.groups, t);
      var g :| g in s.groups && g.from <= t < g.to;
      assert OverFits(g, s.arrivals, s.results, s.popped, s.lastSequence);
    }
  }

  // What was really written: the log was given the records of the groups that reached it, and
  // the memtables the operations of the groups that were inserted, numbered.  Those are the
  // operations of exactly the writes that returned success, in order of arrival and each once,
  // and of the group under way if it has been inserted.
  lemma WrittenExactlyOnce(last: nat, events: seq<Event>)
    ensures var s := Run(Init(last), events);
            && s.log == RecordsOf(AllGroups(s)) && s.table == EntriesOf(AllGroups(s))
            && s.popped <= |s.arrivals| == |s.results| && OpsIn(s.groups) == SuccessOps(s.arrivals, s.results, s.popped)
  {
    InitKeeps(last);
    RunWrites(Init(last), events);
    hide Run;
  }

  // No two entries of the memtables have the same sequence number: they increase throughout.
  lemma NumbersIncrease(last: nat, events: seq<Event>, i: nat, j: nat)
    requires i < j < |Run(Init(last), events).table|
    ensures var es := Run(Init(last), events).table; es[i].key.sequence < es[j].key.sequence
  {
    InitKeeps(last);
    RunKeepsInv(Init(last), events);
    RunWrites(Init(last), events);
    var s := Run(Init(last), events);
    hide Run;
    GroupsFollow(s);
    EntriesIncrease(AllGroups(s), i, j);
  }

  lemma GroupsFollow(s: State)
    requires Inv(s)
    ensures forall i, j | 0 <= i < j < |AllGroups(s)| :: AllGroups(s)[i].Last() <= AllGroups(s)[j].after
  {
    assert forall i | 0 <= i < |s.groups| :: s.groups[i] in s.groups;
    hide QueueInv, AllCovered, GroupFits;
  }

  lemma {:induction false} EntriesIncrease(gs: seq<Group>, i: nat, j: nat)
    requires forall i, j | 0 <= i < j < |gs| :: gs[i].Last() <= gs[j].after
    requires i < j < |EntriesOf(gs)|
    ensures EntriesOf(gs)[i].key.sequence < EntriesOf(gs)[j].key.sequence
    decreases |gs|
  {
    var n := |gs| - 1;
    var m := |EntriesOf(gs[..n])|;
    if j < m {
      EntriesIncrease(gs[..n], i, j);
    } else if i < m {
      EntriesBelow(gs[..n], i, gs[n].after);
    }
  }

  lemma {:induction false} EntriesBelow(gs: seq<Group>, i: nat, bound: nat)
    requires (forall k | 0 <= k < |gs| :: gs[k].Last() <= bound) && i < |EntriesOf(gs)|
    ensures EntriesOf(gs)[i].key.sequence <= bound
    decreases |gs|
  {
    var n := |gs| - 1;
    if i < |EntriesOf(gs[..n])| {
      EntriesBelow(gs[..n], i, bound);
    }
  }

  // BuildBatchGroup always finds tmp_batch_ empty.
  lemma TmpIsEmpty(last: nat, events: seq<Event>, t: nat, n: nat)
    requires Enabled(Run(Init(last), events), Start(t, n))
    ensures Run(Init(last), events).tmp == []
  {
    InitKeeps(last);
    RunKeepsInv(Init(last), events);
    hide Run, GroupsFit, AllCovered, IsGroup;
  }

  // Where a writer's operations stand in the record of its group: its sequence numbers are
  // the next ones after those of the writers before it.
  lemma {:induction false} PlaceInGroup(rs: seq<Request>, k: nat)
    requires k < |rs|
    ensures var off := |AllOps(rs[..k])|;
            off + |OpsOf(rs[k])| <= |AllOps(rs)| && AllOps(rs)[off..off + |OpsOf(rs[k])|] == OpsOf(rs[k])
    decreases |rs|
  {
    var n := |rs| - 1;
    if k < n {
      PlaceInGroup(rs[..n], k);
      assert rs[..n][..k] == rs[..k];
      var off, m := |AllOps(rs[..k])|, |OpsOf(rs[k])|;
      PrefixSlice(AllOps(rs[..n]), OpsOf(rs[n]), off, off + m);
    }
  }

  lemma PrefixSlice<T>(a: seq<T>, b: seq<T>, i: nat, j: nat)
    requires i <= j <= |a|
    ensures (a + b)[i..j] == a[i..j]
  {
  }

  // ------------------------------------------------------------------ every write returns

  // A step of a thread that has called Write.
  predicate OfAThread(ev: Event) {
    !ev.Arrive? && !ev.BackgroundError?
  }

  // How many steps a thread can still take.
  function StepsLeft(th: Thread): (n: nat) {
    match th
    case Waiting => 6
    case MakingRoom => 5
    case Logging => 4
    case Syncing => 3
    case Inserting => 2
    case Publishing(_) => 1
    case Returned => 0
  }

  function AllStepsLeft(threads: seq<Thread>): (n: nat) {
    if threads == [] then 0 else AllStepsLeft(threads[..|threads| - 1]) + StepsLeft(threads[|threads| - 1])
  }

  lemma {:induction false} OneThreadMoves(threads: seq<Thread>, t: nat, th: Thread)
    requires t < |threads|
    ensures AllStepsLeft(threads[t := th]) == AllStepsLeft(threads) - StepsLeft(threads[t]) + StepsLeft(th)
    decreases |threads|
  {
    var n := |threads| - 1;
    if t < n {
      assert threads[t := th][..n] == threads[..n][t := th];
      OneThreadMoves(threads[..n], t, th);
    } else {
      assert threads[t := th][..n] == threads[..n];
    }
  }

  lemma OneThreadSteps(s: State, ev: Event)
    requires Inv(s) && Enabled(s, ev) && OfAThread(ev)
    ensures ev.t < |s.threads| == |Step(s, ev).threads|
    ensures var th := Step(s, ev).threads[ev.t];
            Step(s, ev).threads == s.threads[ev.t := th] && StepsLeft(th) < StepsLeft(s.threads[ev.t])
  {
    hide GroupsFit, AllCovered, IsGroup, TmpFor, AllOps, Numbered, GroupFits, CurrentFits, BatchFor, Filled;
  }

  // Every step brings the threads closer to the end.
  lemma StepsRunOut(s: State, ev: Event)
    requires Inv(s) && Enabled(s, ev) && OfAThread(ev)
    ensures AllStepsLeft(Step(s, ev).threads) < AllStepsLeft(s.threads)
  {
    OneThreadSteps(s, ev);
    hide Step, Enabled, Inv, StepsLeft;
    OneThreadMoves(s.threads, ev.t, Step(s, ev).threads[ev.t]);
  }

  // As long as some thread has not returned, some thread can take a step: nobody waits for ever,
  // neither behind a leader nor for one that has left without a word.
  lemma NobodyIsStuck(s: State, t: nat) returns (ev: Event)
    requires Inv(s) && t < |s.threads| && s.threads[t] != Returned
    ensures Enabled(s, ev) && OfAThread(ev)
  {
    hide GroupsFit, AllCovered, TmpFor, GroupFits;
    var p := s.popped;
    if p == |s.threads| {
      return WakeDone(t);
    }
    match s.threads[p] {
      case Waiting => ev := WakeFirst(p);
      case MakingRoom => ev := NoRoom(p);
      case Logging => ev := Append(p, true);
      case Syncing => ev := Sync(p, true);
      case Inserting => ev := Insert(p);
      case Publishing(_) => ev := Publish(p);
      case Returned => assert false;
    }
  }

  // So whatever the threads are doing, they all return, and every one of them has its result.
  lemma {:induction false} EveryWriteReturns(s: State) returns (events: seq<Event>)
    requires Inv(s)
    ensures forall i | 0 <= i < |events| :: OfAThread(events[i])
    ensures var s' := Run(s, events);
            |s'.threads| == |s.threads| == |s'.results| &&
            forall t | 0 <= t < |s'.threads| :: s'.threads[t] == Returned && s'.results[t].Some?
    decreases AllStepsLeft(s.threads)
  {
    if t: nat :| t < |s.threads| && s.threads[t] != Returned {
      var ev := NobodyIsStuck(s, t);
      StepsRunOut(s, ev);
      OneThreadSteps(s, ev);
      StepKeepsInv(s, ev);
      var more := EveryWriteReturns(Step(s, ev));
      events := [ev] + more;
      assert events[1..] == more;
    } else {
      events := [];
      AllHaveResults(s);
    }
    hide Step, Enabled, Inv;
  }

  lemma AllHaveResults(s: State)
    requires Inv(s) && forall t | 0 <= t < |s.threads| :: s.threads[t] == Returned
    ensures |s.results| == |s.threads| && forall t | 0 <= t < |s.threads| :: s.results[t].Some?
  {
    hide GroupsFit, AllCovered, CurrentFits;
  }

  // ------------------------------------------------------------------ after a background error

  // The writers whose group is under way; everyone from here on is still undecided.
  function UnderWay(s: State): (to: nat) {
    if s.current.Some? then s.current.value.to else s.popped
  }

  ghost predicate FailsFrom(s: State, n: nat) {
    && s.bgError && (s.current.Some? ==> s.current.value.to <= n)
    && forall t | n <= t < |s.results| :: s.results[t] != Some(Success)
  }

  lemma StepFails(s: State, ev: Event, n: nat)
    requires Inv(s) && Enabled(s, ev) && FailsFrom(s, n)
    ensures FailsFrom(Step(s, ev), n)
  {
    hide GroupsFit, AllCovered, IsGroup, TmpFor, AllOps, Numbered, BatchFor;
  }

  // Once there is a background error, no write succeeds but those of the group that is under
  // way: whoever waits, or comes later, with a batch or without, never gets a success.
  lemma {:induction false} NoSuccessAfterAnError(s: State, events: seq<Event>, n: nat)
    requires Inv(s) && FailsFrom(s, n)
    ensures FailsFrom(Run(s, events), n)
    decreases |events|
  {
    hide Step, Enabled, Inv, FailsFrom;
    if events != [] {
      if Enabled(s, events[0]) {
        StepFails(s, events[0], n);
        StepKeepsInv(s, events[0]);
        NoSuccessAfterAnError(Step(s, events[0]), events[1..], n);
      } else {
        NoSuccessAfterAnError(s, events[1..], n);
      }
    }
  }

  lemma UndecidedWritersFail(s: State, events: seq<Event>, t: nat)
    requires Inv(s) && s.bgError && t >= UnderWay(s)
    ensures var s' := Run(s, events); t < |s'.results| ==> s'.results[t] != Some(Success)
  {
    UndecidedYet(s);
    NoSuccessAfterAnError(s, events, UnderWay(s));
    hide Run, Inv;
  }

  lemma UndecidedYet(s: State)
    requires Inv(s) && s.bgError
    ensures FailsFrom(s, UnderWay(s))
  {
    hide GroupsFit, AllCovered, TmpFor;
  }
}
