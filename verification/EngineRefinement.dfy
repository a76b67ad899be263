// Two parts that the engine's machine takes as simple values, and what really stands for them:
// its writer is the queue of writers, thread by thread, and its snapshots are the ring.
module EngineRefinement {
  import opened Lookup
  import opened DbFormat
  import opened EngineModel
  import opened EngineInvariant
  import opened EngineLosses
  import opened Engine
  import WB = WriteBatch
  import G = GroupCommit
  import Q = WriteQueue
  import opened DbImpl
  import S = Snapshots

  // ------------------------------------------------------------------ the queue is the writer

  // What the engine takes a group to write.
  function BatchOf(g: Q.Group): (b: Entries) {
    SetOf(WB.Numbered(g.ops, g.after + 1))
  }

  // Where the engine's writer is while a group is under way.  Sync is a part of its append.
  function WriterOf(g: Q.Group, leader: Q.Thread): (w: Writer) {
    match g.outcome
    case Pending => Logging(BatchOf(g), g.Last())
    case Logged => if leader.Syncing? then Logging(BatchOf(g), g.Last()) else Logged(BatchOf(g), g.Last())
    case Inserted => Inserted(BatchOf(g), g.Last())
    case _ => Failed(g.Last())
  }

  ghost predicate Follows(q: Q.State, db: Db) {
    && db.lastSequence == q.lastSequence
    && match q.current
       case None => db.writer == Idle && db.bgError == q.bgError
       case Some(g) => db.writer == WriterOf(g, Q.LeaderOf(q.threads, q.popped)) && db.bgError == (q.bgError || g.outcome.Unsynced?)
  }

  // The engine's step that a step of a thread is, if it is one.
  function StepOf(q: Q.State, ev: Q.Event, agrees: bool): (e: Option<Event>)
    requires Q.Enabled(q, ev)
  {
    match ev
    case Start(t, n) =>
      var g := Q.Started(q, t, n).current.value;
      Some(BeginWrite(BatchOf(g), g.Last()))
    case Append(t, ok) =>
      if !ok then Some(AppendFailed(agrees)) else if q.arrivals[t].sync then None else Some(AppendOk(false))
    case Sync(t, ok) => Some(if ok then AppendOk(true) else SyncFailed)
    case Insert(t) => Some(Insert)
    case Publish(t) => Some(Publish)
    case _ => None
  }

  ghost function Stepped(s: State, e: Option<Event>): (s': State)
    requires s.node.Up? && (e.Some? ==> ClientEnabled(s.node.db, e.value))
  {
    if e.Some? then ClientStep(s, s.node.db, e.value) else s
  }

  // The engine can take that step, and is then where the queue is.
  ghost predicate IsMatchedBy(q: Q.State, s: State, ev: Q.Event, agrees: bool)
    requires Q.Enabled(q, ev) && s.node.Up?
  {
    var e := StepOf(q, ev, agrees);
    && (e.Some? ==> ClientEnabled(s.node.db, e.value))
    && var s' := Stepped(s, e);
       s'.node.Up? && Follows(Q.Step(q, ev), s'.node.db)
  }

  // The leader is who the engine's writer follows.
  lemma LeaderIs(q: Q.State, t: nat)
    requires Q.Inv(q) && t < |q.threads| && Q.Leads(q.threads[t])
    ensures t == q.popped && Q.LeaderOf(q.threads, q.popped) == q.threads[t] && t < |q.arrivals|
    ensures q.threads[t].MakingRoom? ==> q.current.None?
    ensures q.current.Some? ==> Q.StageFits(q.threads[t], q.current.value.outcome) && q.current.value.after == q.lastSequence
  {
    hide Q.GroupsFit, Q.AllCovered, Q.GroupFits;
  }

  // Every step of every thread in the queue is a step of the engine's writer, or none: one
  // that is enabled and leads to where the queue is then.
  lemma QueueStepIsAStep(q: Q.State, s: State, ev: Q.Event, agrees: bool)
    requires Q.Inv(q) && Q.Enabled(q, ev) && !ev.BackgroundError? && s.node.Up? && Follows(q, s.node.db)
    ensures IsMatchedBy(q, s, ev, agrees)
    ensures Stepped(s, StepOf(q, ev, agrees)).acked ==
            s.acked + if ev.Publish? && q.current.value.outcome.Inserted? then BatchOf(q.current.value) else {}
  {
    hide SetOf, WB.Numbered, Q.TmpFor, Q.GroupsFit, Q.AllCovered, Q.GroupFits, Q.Members, Q.Filled, ClientStep, Q.BatchFor;
    match ev
    case Start(t, n) => StartIsAStep(q, s, t, n);
    case Append(t, ok) => AppendIsAStep(q, s, t, ok, agrees);
    case Sync(t, ok) => SyncIsAStep(q, s, t, ok);
    case Insert(t) => InsertIsAStep(q, s, t);
    case Publish(t) => PublishIsAStep(q, s, t);
    case NoRoom(t) => LeaderIs(q, t);
    case Room(t) => LeaderIs(q, t);
    case WakeFirst(t) => if q.current.Some? { WakesNobodyElse(q, t); }
    case WakeDone(t) => if q.current.Some? { WakesNobodyElse(q, t); }
    case Arrive(r) => if q.current.Some? { ArrivesBehind(q); }
  }

  lemma StartIsAStep(q: Q.State, s: State, t: nat, n: nat)
    requires Q.Inv(q) && Q.Enabled(q, Q.Start(t, n)) && s.node.Up? && Follows(q, s.node.db)
    ensures var e := StepOf(q, Q.Start(t, n), true);
            ClientEnabled(s.node.db, e.value) && var s' := Stepped(s, e);
            s'.node.Up? && Follows(Q.Started(q, t, n), s'.node.db) && s'.acked == s.acked
  {
    LeaderIs(q, t);
    NumberedIsBatch(Q.Started(q, t, n).current.value.ops, q.lastSequence);
    hide SetOf, WB.Numbered, G.IsGroup, Q.TmpFor, G.AllOps, Q.Inv, Q.Members;
  }

  lemma AppendIsAStep(q: Q.State, s: State, t: nat, ok: bool, agrees: bool)
    requires Q.Inv(q) && Q.Enabled(q, Q.Append(t, ok)) && s.node.Up? && Follows(q, s.node.db)
    ensures IsMatchedBy(q, s, Q.Append(t, ok), agrees) && Stepped(s, StepOf(q, Q.Append(t, ok), agrees)).acked == s.acked
  {
    AppendLeads(q, t, ok);
    EngineAppends(s, s.node.db, if ok then AppendOk(false) else AppendFailed(agrees));
    hide Q.Inv, Q.Step, Q.Enabled, Q.LeaderOf, BatchOf, ClientStep, ClientEnabled;
  }

  // Where the engine is after one.
  lemma EngineAppends(s: State, db: Db, e: Event)
    requires s.node == Up(db) && db.writer.Logging? && (e == AppendOk(false) || e.AppendFailed?)
    ensures ClientEnabled(db, e) && ClientStep(s, db, e).node.Up? && ClientStep(s, db, e).acked == s.acked
    ensures var db' := ClientStep(s, db, e).node.db;
            && db'.lastSequence == db.lastSequence && db'.bgError == db.bgError
            && db'.writer == if e.AppendOk? then Logged(db.writer.batch, db.writer.last) else Failed(db.writer.last)
  {
    hide LogAppended;
  }

  // Where the queue is after an append.
  lemma AppendLeads(q: Q.State, t: nat, ok: bool)
    requires Q.Inv(q) && Q.Enabled(q, Q.Append(t, ok))
    ensures q.current.Some? && t < |q.arrivals| && q.current.value.outcome.Pending?
    ensures var q', g := Q.Step(q, Q.Append(t, ok)), q.current.value;
            && q'.lastSequence == q.lastSequence && q'.bgError == q.bgError
            && q'.current == Some(g.(outcome := if ok then Q.Logged else Q.NotLogged))
            && Q.LeaderOf(q'.threads, q'.popped) ==
               if !ok then Q.Publishing(Q.Failure) else if q.arrivals[t].sync then Q.Syncing else Q.Inserting
  {
    LeaderIs(q, t);
    hide Q.Inv, Q.BatchFor, Q.Started, Q.Published, Q.Popped, Q.InsertedInto, Q.Filled;
  }

  lemma SyncIsAStep(q: Q.State, s: State, t: nat, ok: bool)
    requires Q.Inv(q) && Q.Enabled(q, Q.Sync(t, ok)) && s.node.Up? && Follows(q, s.node.db)
    ensures IsMatchedBy(q, s, Q.Sync(t, ok), true) && Stepped(s, StepOf(q, Q.Sync(t, ok), true)).acked == s.acked
  {
    LeaderIs(q, t);
    hide SetOf, WB.Numbered, Q.Inv, LogAppended, IsBatch;
  }

  lemma InsertIsAStep(q: Q.State, s: State, t: nat)
    requires Q.Inv(q) && Q.Enabled(q, Q.Insert(t)) && s.node.Up? && Follows(q, s.node.db)
    ensures IsMatchedBy(q, s, Q.Insert(t), true) && Stepped(s, Some(Insert)).acked == s.acked
  {
    LeaderIs(q, t);
    hide SetOf, WB.Numbered, Q.TmpFor, Q.Inv, Q.Members, Q.Filled, Q.BatchFor, Q.Started, Q.Published, Q.Popped, Q.Appended;
    hide LogAppended, IsBatch, Switched, ReaderAt;
  }

  lemma PublishIsAStep(q: Q.State, s: State, t: nat)
    requires Q.Inv(q) && Q.Enabled(q, Q.Publish(t)) && s.node.Up? && Follows(q, s.node.db)
    ensures IsMatchedBy(q, s, Q.Publish(t), true)
    ensures Stepped(s, Some(Publish)).acked ==
            s.acked + if q.current.value.outcome.Inserted? then BatchOf(q.current.value) else {}
  {
    LeaderIs(q, t);
    hide SetOf, WB.Numbered, Q.TmpFor, Q.Inv, Q.Members, Q.Filled, Q.BatchFor;
  }

  lemma WakesNobodyElse(q: Q.State, t: nat)
    requires Q.Inv(q) && Q.Is(q, t, Q.Waiting) && q.current.Some?
    ensures t != q.popped
  {
    hide Q.GroupsFit, Q.AllCovered, Q.GroupFits;
  }

  lemma ArrivesBehind(q: Q.State)
    requires Q.Inv(q) && q.current.Some?
    ensures q.popped < |q.threads|
  {
    hide Q.GroupsFit, Q.AllCovered, Q.GroupFits;
  }

  // ------------------------------------------------------------------ what it writes

  // What the groups that were inserted wrote.
  function AckedBy(groups: seq<Q.Group>): (s: Entries) {
    if groups == [] then {}
    else
      var n := |groups| - 1;
      AckedBy(groups[..n]) + if groups[n].outcome.Inserted? then BatchOf(groups[n]) else {}
  }

  // The group under way has been appended, and synced if it asked for it.
  predicate Landed(g: Q.Group, leader: Q.Thread) {
    g.outcome.Inserted? || (g.outcome.Logged? && !leader.Syncing?)
  }

  function LoggedBy(q: Q.State): (s: Entries) {
    AckedBy(q.groups) +
    if q.current.Some? && Landed(q.current.value, Q.LeaderOf(q.threads, q.popped)) then BatchOf(q.current.value) else {}
  }

  lemma OneMoreGroup(groups: seq<Q.Group>, g: Q.Group)
    ensures AckedBy(groups + [g]) == AckedBy(groups) + if g.outcome.Inserted? then BatchOf(g) else {}
  {
    assert (groups + [g])[..|groups|] == groups;
  }

  // What a step adds to the acknowledged writes and to what was logged.
  lemma QueueAdds(q: Q.State, ev: Q.Event, agrees: bool)
    requires Q.Inv(q) && Q.Enabled(q, ev) && !ev.BackgroundError?
    ensures AckedBy(Q.Step(q, ev).groups) ==
            AckedBy(q.groups) + if ev.Publish? && q.current.value.outcome.Inserted? then BatchOf(q.current.value) else {}
    ensures var e := StepOf(q, ev, agrees);
            LoggedBy(Q.Step(q, ev)) == LoggedBy(q) + if e.Some? && e.value.AppendOk? then BatchOf(q.current.value) else {}
  {
    hide AckedBy, BatchOf, Q.TmpFor, Q.Inv, Q.Members, Q.Filled, Q.BatchFor, G.IsGroup, G.AllOps, WB.Numbered;
    match ev
    case Start(t, n) => LeaderIs(q, t);
    case Append(t, ok) => LeaderAdds(q, ev, t);
    case Sync(t, ok) => LeaderAdds(q, ev, t);
    case Insert(t) => LeaderAdds(q, ev, t);
    case Publish(t) =>
      LeaderIs(q, t);
      OneMoreGroup(q.groups, q.current.value);
    case NoRoom(t) => LeaderIs(q, t);
    case Room(t) => LeaderIs(q, t);
    case WakeFirst(t) => if q.current.Some? { WakesNobodyElse(q, t); }
    case WakeDone(t) => if q.current.Some? { WakesNobodyElse(q, t); }
    case Arrive(r) => if q.current.Some? { ArrivesBehind(q); }
  }

  // An append, with its sync if that is asked for, adds the batch to what was logged.
  lemma LeaderAdds(q: Q.State, ev: Q.Event, t: nat)
    requires Q.Inv(q) && Q.Enabled(q, ev) && (ev.Append? || ev.Sync? || ev.Insert?) && t == ev.t
    ensures Q.Step(q, ev).groups == q.groups
    ensures LoggedBy(Q.Step(q, ev)) ==
            LoggedBy(q) +
            if (ev.Append? && ev.ok && !q.arrivals[t].sync) || (ev.Sync? && ev.ok) then BatchOf(q.current.value) else {}
  {
    LeaderIs(q, t);
    hide AckedBy, BatchOf, Q.Inv, Q.BatchFor, Q.Started, Q.Published, Q.Popped, Q.Filled, WB.Numbered;
    var g := q.current.value;
    assert forall o: Q.Outcome :: BatchOf(g.(outcome := o)) == BatchOf(g) by { SameBatch(g); }
  }

  lemma SameBatch(g: Q.Group)
    ensures forall o: Q.Outcome :: BatchOf(g.(outcome := o)) == BatchOf(g)
  {
    hide SetOf, WB.Numbered;
  }

  lemma EngineAdds(q: Q.State, s: State, ev: Q.Event, agrees: bool)
    requires Q.Inv(q) && Q.Enabled(q, ev) && s.node.Up? && Follows(q, s.node.db) && IsMatchedBy(q, s, ev, agrees)
    ensures var e := StepOf(q, ev, agrees);
            Stepped(s, e).history == s.history + if e.Some? && e.value.AppendOk? then BatchOf(q.current.value) else {}
  {
    var e := StepOf(q, ev, agrees);
    if ev.Append? {
      LeaderIs(q, ev.t);
    } else if ev.Sync? {
      LeaderIs(q, ev.t);
    }
    if e.Some? {
      StepLogs(s, s.node.db, e.value);
    }
    hide Q.Inv, Q.Step, ClientStep, ClientEnabled, BatchOf;
  }

  lemma StepLogs(s: State, db: Db, e: Event)
    requires s.node == Up(db) && ClientEnabled(db, e)
    ensures ClientStep(s, db, e).history == s.history + if e.AppendOk? then db.writer.batch else {}
  {
    hide LogAppended, IsBatch, Switched, ReaderAt, BatchInserted, WriteBegun;
  }

  // ------------------------------------------------------------------ the queue in the engine

  // The engine is where the queue is, and its acknowledged writes and its history are those
  // there were, and the queue's.
  ghost predicate Matches(q: Q.State, s: State, acked: Entries, history: Entries) {
    && s.node.Up? && Follows(q, s.node.db)
    && s.acked == acked + AckedBy(q.groups) && s.history == history + LoggedBy(q)
  }

  // A step of a thread in the queue, or of any other part of the running engine.
  datatype Item = Thread(step: Q.Event, agrees: bool) | Other(event: Event)

  // Whatever is not Write, a crash, or DB::Open.
  predicate IsOther(ev: Event) {
    UsesTask(ev) || ev.SwitchMemtable? || ev.TakeSnapshot? || ev.ReleaseSnapshot? || ev.BeginRead? || ev.EndRead? || ev.Schedule?
  }

  // Both sides of a step: the queue's, and the engine's.  A background error that another part
  // of the engine records is one the queue sees.
  ghost function Taken(q: Q.State, s: State, i: Item): (r: (Q.State, State))
    requires s.node.Up?
  {
    match i
    case Thread(ev, agrees) =>
      if !Q.Enabled(q, ev) || ev.BackgroundError? then (q, s)
      else
        var e := StepOf(q, ev, agrees);
        (Q.Step(q, ev), if e.Some? && ClientEnabled(s.node.db, e.value) then ClientStep(s, s.node.db, e.value) else s)
    case Other(ev) =>
      if !IsOther(ev) || !Enabled(s, ev) then (q, s)
      else
        var s' := Step(s, ev);
        (if s'.node.Up? && s'.node.db.bgError && !s.node.db.bgError then Q.Step(q, Q.BackgroundError) else q, s')
  }

  ghost function AllTaken(q: Q.State, s: State, items: seq<Item>): (r: (Q.State, State))
    decreases |items|
  {
    if items == [] || !s.node.Up? then (q, s)
    else
      var r := Taken(q, s, items[0]);
      AllTaken(r.0, r.1, items[1..])
  }

  // The rest of the engine leaves the writer alone.
  lemma OtherStepAside(s: State, db: Db, ev: Event)
    requires s.node == Up(db) && IsOther(ev) && Enabled(s, ev)
    ensures var s' := Step(s, ev);
            && s'.node.Up? && s'.acked == s.acked && s'.history == s.history
            && s'.node.db.writer == db.writer && s'.node.db.lastSequence == db.lastSequence
            && (db.bgError ==> s'.node.db.bgError)
  {
    if UsesTask(ev) {
      TaskStepAside(db, s.disk, ev);
      hide TaskStep, TaskEnabled;
    } else {
      hide TaskStep, TaskEnabled, CrashStep, OpenStep, MayLose;
    }
  }

  lemma TaskStepAside(db: Db, d: Disk, ev: Event)
    requires UsesTask(ev) && ev.i < |db.tasks| && TaskEnabled(db, d, db.tasks[ev.i], ev)
    ensures var db' := TaskStep(db, d, ev).0;
            db'.writer == db.writer && db'.lastSequence == db.lastSequence && (db.bgError ==> db'.bgError)
  {
    hide IsPick, OutputsAreKept, Garbage;
  }

  lemma OtherIsMatched(q: Q.State, s: State, ev: Event, acked: Entries, history: Entries)
    requires Q.Inv(q) && Matches(q, s, acked, history) && IsOther(ev) && Enabled(s, ev)
    ensures var r := Taken(q, s, Other(ev)); Q.Inv(r.0) && Matches(r.0, r.1, acked, history)
  {
    OtherStepAside(s, s.node.db, ev);
    Q.StepKeepsInv(q, Q.BackgroundError);
    hide Q.Inv, Step, Enabled, AckedBy, BatchOf;
  }

  lemma ThreadIsMatched(q: Q.State, s: State, ev: Q.Event, agrees: bool, acked: Entries, history: Entries)
    requires Q.Inv(q) && Matches(q, s, acked, history) && Q.Enabled(q, ev) && !ev.BackgroundError?
    ensures var r := Taken(q, s, Thread(ev, agrees)); Q.Inv(r.0) && Matches(r.0, r.1, acked, history)
    ensures var e := StepOf(q, ev, agrees); e.Some? ==> ClientEnabled(s.node.db, e.value)
  {
    QueueStepIsAStep(q, s, ev, agrees);
    QueueAdds(q, ev, agrees);
    EngineAdds(q, s, ev, agrees);
    Q.StepKeepsInv(q, ev);
    hide Follows, Q.Inv, Q.Step, Q.Enabled, ClientEnabled, ClientStep, StepOf, LoggedBy, AckedBy, BatchOf;
    var e := StepOf(q, ev, agrees);
    var x := if ev.Publish? && q.current.value.outcome.Inserted? then BatchOf(q.current.value) else {};
    var y := if e.Some? && e.value.AppendOk? then BatchOf(q.current.value) else {};
    StillMatches(q, s, Q.Step(q, ev), Stepped(s, e), acked, history, x, y);
    assert Taken(q, s, Thread(ev, agrees)) == (Q.Step(q, ev), Stepped(s, e));
  }

  lemma StillMatches(q: Q.State, s: State, q': Q.State, s': State, acked: Entries, history: Entries, x: Entries, y: Entries)
    requires Matches(q, s, acked, history) && s'.node.Up? && Follows(q', s'.node.db)
    requires AckedBy(q'.groups) == AckedBy(q.groups) + x && s'.acked == s.acked + x
    requires LoggedBy(q') == LoggedBy(q) + y && s'.history == s.history + y
    ensures Matches(q', s', acked, history)
  {
    hide Follows, LoggedBy, AckedBy;
  }

  // So what any number of threads do in the queue, interleaved in any way with readers,
  // snapshots, memtable switches and the background thread, is a run of the queue and a run of
  // the engine at once; and the engine's acknowledged writes and its history grow by exactly
  // those of the queue.
  lemma {:induction false} QueueRunIsARun(q: Q.State, s: State, items: seq<Item>, acked: Entries, history: Entries)
    returns (qs: seq<Q.Event>, es: seq<Event>)
    requires Q.Inv(q) && Matches(q, s, acked, history)
    ensures var r := AllTaken(q, s, items);
            r == (Q.Run(q, qs), Run(s, es)) && Q.Inv(r.0) && Matches(r.0, r.1, acked, history)
    decreases |items|
  {
    hide Matches, Q.Inv, Q.Step, Q.Enabled, Q.Run, Run, ClientEnabled, ClientStep, StepOf, Enabled, Step, IsOther;
    qs, es := [], [];
    NoSteps(q, s);
    if items != [] {
      assert s.node.Up? by { MatchesUp(q, s, acked, history); }
      var r := Taken(q, s, items[0]);
      if r == (q, s) {
        qs, es := QueueRunIsARun(q, s, items[1..], acked, history);
      } else {
        match items[0]
        case Thread(ev, agrees) =>
          ThreadIsMatched(q, s, ev, agrees, acked, history);
          var e := StepOf(q, ev, agrees);
          qs, es := QueueRunIsARun(r.0, r.1, items[1..], acked, history);
          QueueEvent(q, ev, qs);
          if e.Some? {
            ClientEvent(s, e.value, es);
            es := [e.value] + es;
          }
          qs := [ev] + qs;
        case Other(ev) =>
          OtherIsMatched(q, s, ev, acked, history);
          qs, es := QueueRunIsARun(r.0, r.1, items[1..], acked, history);
          OtherEvent(s, ev, es);
          es := [ev] + es;
          if r.0 != q {
            AlwaysEnabled(q);
            QueueEvent(q, Q.BackgroundError, qs);
            qs := [Q.BackgroundError] + qs;
          }
      }
    }
  }

  // With nothing but threads, the run of the queue is the one that was asked for.
  lemma {:induction false} ThreadsAlone(q: Q.State, s: State, events: seq<Q.Event>, items: seq<Item>, acked: Entries,
                                        history: Entries)
    requires Q.Inv(q) && Matches(q, s, acked, history) && |items| == |events|
    requires forall i | 0 <= i < |items| :: items[i].Thread? && items[i].step == events[i] && !events[i].BackgroundError?
    ensures AllTaken(q, s, items).0 == Q.Run(q, events)
    decreases |items|
  {
    hide Matches, Q.Inv, Q.Step, Q.Enabled, ClientEnabled, ClientStep, StepOf;
    if items != [] {
      MatchesUp(q, s, acked, history);
      var r := Taken(q, s, items[0]);
      if Q.Enabled(q, events[0]) {
        ThreadIsMatched(q, s, events[0], items[0].agrees, acked, history);
      }
      ThreadsAlone(r.0, r.1, events[1..], items[1..], acked, history);
    }
  }

  lemma MatchesUp(q: Q.State, s: State, acked: Entries, history: Entries)
    requires Matches(q, s, acked, history)
    ensures s.node.Up?
  {
  }

  lemma NoSteps(q: Q.State, s: State)
    ensures Q.Run(q, []) == q && Run(s, []) == s
  {
  }

  lemma AlwaysEnabled(q: Q.State)
    ensures Q.Enabled(q, Q.BackgroundError)
  {
  }

  lemma QueueEvent(q: Q.State, ev: Q.Event, more: seq<Q.Event>)
    requires Q.Enabled(q, ev)
    ensures Q.Run(q, [ev] + more) == Q.Run(Q.Step(q, ev), more)
  {
    hide Q.Enabled, Q.Step;
    assert ([ev] + more)[1..] == more;
  }

  lemma OtherEvent(s: State, ev: Event, more: seq<Event>)
    requires Enabled(s, ev)
    ensures Run(s, [ev] + more) == Run(Step(s, ev), more)
  {
    hide Enabled, Step;
    assert ([ev] + more)[1..] == more;
  }

  lemma ClientEvent(s: State, e: Event, more: seq<Event>)
    requires s.node.Up? && ClientEnabled(s.node.db, e)
    ensures Run(s, [e] + more) == Run(ClientStep(s, s.node.db, e), more)
  {
    assert ([e] + more)[1..] == more;
    assert Enabled(s, e) && Step(s, e) == ClientStep(s, s.node.db, e) by {
      hide ClientStep;
    }
  }

  // ------------------------------------------------------------------ from a returned write to a read

  lemma {:induction false} InAckedBy(groups: seq<Q.Group>, g: Q.Group)
    requires g in groups && g.outcome.Inserted?
    ensures BatchOf(g) <= AckedBy(groups)
  {
    hide BatchOf;
    var n := |groups| - 1;
    if g != groups[n] {
      assert g in groups[..n];
      InAckedBy(groups[..n], g);
    }
  }

  // A writer's own operations in the batch of its group.
  lemma OwnPart(g: Q.Group, off: nat, own: seq<WB.Op>)
    requires off + |own| <= |g.ops| && g.ops[off..off + |own|] == own
    ensures SetOf(WB.Numbered(own, g.after + 1 + off)) <= BatchOf(g)
  {
    forall e | e in SetOf(WB.Numbered(own, g.after + 1 + off))
      ensures e in BatchOf(g)
    {
      var i :| 0 <= i < |own| && e == WB.Numbered(own, g.after + 1 + off)[i];
      assert own[i] == g.ops[off + i];
      assert e == WB.Numbered(g.ops, g.after + 1)[off + i];
    }
  }

  // What thread t wrote, if its write returned success: its operations, with sequence numbers
  // in the range of its group.
  lemma ReturnedIsAcked(q: Q.State, t: nat) returns (n: nat)
    requires Q.Inv(q) && t < |q.results| == |q.arrivals| && q.results[t] == Some(Q.Success) && q.arrivals[t].batch.Some?
    ensures SetOf(WB.Numbered(G.OpsOf(q.arrivals[t]), n)) <= AckedBy(q.groups) && n > 0
  {
    hide Q.Inv, BatchOf, AckedBy, G.OpsOf, G.AllOps, SetOf, WB.Numbered;
    var g := GroupOf(q, t);
    n := MemberPart(g, q.arrivals[g.from..g.to], t - g.from, q.arrivals[t]);
    InAckedBy(q.groups, g);
  }

  // The group that wrote for thread t.
  lemma GroupOf(q: Q.State, t: nat) returns (g: Q.Group)
    requires Q.Inv(q) && t < |q.results| == |q.arrivals| && q.results[t] == Some(Q.Success) && q.arrivals[t].batch.Some?
    ensures g in q.groups && g.outcome == Q.Inserted && g.from <= t < g.to <= |q.arrivals|
    ensures g.ops == G.AllOps(q.arrivals[g.from..g.to])
  {
    Q.CommittedOnce(q, t);
    hide Q.Inv, G.AllOps;
    g :| g in q.groups && g.from <= t < g.to && g.outcome == Q.Inserted;
    GroupIs(q, g);
  }

  lemma MemberPart(g: Q.Group, rs: seq<G.Request>, k: nat, r: G.Request) returns (n: nat)
    requires k < |rs| && rs[k] == r && g.ops == G.AllOps(rs)
    ensures SetOf(WB.Numbered(G.OpsOf(r), n)) <= BatchOf(g) && n > 0
  {
    hide BatchOf, G.AllOps, G.OpsOf, SetOf, WB.Numbered;
    Q.PlaceInGroup(rs, k);
    var off := |G.AllOps(rs[..k])|;
    n := g.after + 1 + off;
    OwnPart(g, off, G.OpsOf(r));
  }

  lemma GroupIs(q: Q.State, g: Q.Group)
    requires Q.Inv(q) && g in q.groups
    ensures g.from < g.to <= |q.arrivals| && g.ops == G.AllOps(q.arrivals[g.from..g.to])
  {
    assert Q.OverFits(g, q.arrivals, q.results, q.popped, q.lastSequence);
  }

  // From the thread that called Write to a reader after a crash: in any interleaving of the
  // queue with the rest of the engine, and whatever runs and crashes after it, a write that
  // returned success has its operations acknowledged with sequence numbers of their own, none
  // that is not at risk is ever taken back, and a key reads as the last of them left it until
  // it is written again.
  lemma AReturnedWriteIsKept(q: Q.State, s: State, items: seq<Item>, acked: Entries, history: Entries, t: nat,
                             events: seq<Event>, machine: bool) returns (n: nat)
    requires Q.Inv(q) && Inv(s) && Matches(q, s, acked, history)
    requires var q' := AllTaken(q, s, items).0;
             t < |q'.results| == |q'.arrivals| && q'.results[t] == Some(Q.Success) && q'.arrivals[t].batch.Some?
    requires Crashes(events, machine)
    ensures var (q', s') := AllTaken(q, s, items);
            var own, s2 := SetOf(WB.Numbered(G.OpsOf(q'.arrivals[t]), n)), Run(s', events);
            && own <= s'.acked && own - AtRisk(s', machine) <= s2.acked
            && (s2.node.Up? ==> forall e | e in own - AtRisk(s', machine) && IsLastOf(e, s2) :: Engine.Get(s2, e.key.user) == Meaning(e))
  {
    hide Inv, Q.Inv, Run, Matches, AtRisk, Engine.Get, Crashes, AckedBy, G.OpsOf, SetOf, IsLastOf;
    var qs, es := QueueRunIsARun(q, s, items, acked, history);
    RunKeepsInv(s, es);
    var r := AllTaken(q, s, items);
    hide AllTaken;
    n := ReturnedIsAcked(r.0, t);
    AckedAre(r.0, r.1, acked, history);
    RunRemembers(r.1, events, machine);
    var own, s2 := SetOf(WB.Numbered(G.OpsOf(r.0.arrivals[t]), n)), Run(r.1, events);
    if s2.node.Up? {
      forall e | e in own - AtRisk(r.1, machine) && IsLastOf(e, s2)
        ensures Engine.Get(s2, e.key.user) == Meaning(e)
      {
        LastOfIsRead(r.1, events, machine, e);
      }
    }
  }

  // The same in the caller's terms: what was put is read back as it was put, and what was deleted
  // is not found, until the key is written again.
  lemma WhatWasPutIsRead(q: Q.State, s: State, items: seq<Item>, acked: Entries, history: Entries, t: nat,
                         events: seq<Event>, machine: bool) returns (n: nat)
    requires Q.Inv(q) && Inv(s) && Matches(q, s, acked, history)
    requires var q' := AllTaken(q, s, items).0;
             t < |q'.results| == |q'.arrivals| && q'.results[t] == Some(Q.Success) && q'.arrivals[t].batch.Some?
    requires Crashes(events, machine)
    ensures var (q', s') := AllTaken(q, s, items);
            var ops, s2 := q'.arrivals[t].batch.value, Run(s', events);
            s2.node.Up? ==>
              forall j | 0 <= j < |ops| && WB.EntryOf(ops[j], n + j) !in AtRisk(s', machine) && IsLastOf(WB.EntryOf(ops[j], n + j), s2) ::
                Engine.Get(s2, ops[j].key) == match ops[j] case Put(_, value) => Some(value) case Delete(_) => None
  {
    n := AReturnedWriteIsKept(q, s, items, acked, history, t, events, machine);
    hide Inv, Q.Inv, Run, Matches, AtRisk, Engine.Get, Crashes, AllTaken, IsLastOf, WB.EntryOf, WB.Numbered, Meaning, SetOf;
    var (q', s') := AllTaken(q, s, items);
    var ops, s2 := q'.arrivals[t].batch.value, Run(s', events);
    if s2.node.Up? {
      forall j | 0 <= j < |ops| && WB.EntryOf(ops[j], n + j) !in AtRisk(s', machine) && IsLastOf(WB.EntryOf(ops[j], n + j), s2)
        ensures Engine.Get(s2, ops[j].key) == match ops[j] case Put(_, value) => Some(value) case Delete(_) => None
      {
        EntryOfOp(ops, n, j);
      }
    }
  }

  lemma EntryOfOp(ops: seq<WB.Op>, n: nat, j: nat)
    requires j < |ops|
    ensures var e := WB.EntryOf(ops[j], n + j);
            && e in SetOf(WB.Numbered(ops, n)) && e.key.user == ops[j].key
            && Meaning(e) == match ops[j] case Put(_, value) => Some(value) case Delete(_) => None
  {
    assert WB.Numbered(ops, n)[j] == WB.EntryOf(ops[j], n + j);
  }

  // No newer write of the key has been published.
  ghost predicate IsLastOf(e: Entry, s: State)
    requires s.node.Up?
  {
    forall x | x in s.history && x.key.user == e.key.user && x.key.sequence <= s.node.db.lastSequence ::
      x.key.sequence <= e.key.sequence
  }

  lemma LastOfIsRead(s: State, events: seq<Event>, machine: bool, e: Entry)
    requires Inv(s) && Crashes(events, machine) && e in s.acked - AtRisk(s, machine)
    requires Run(s, events).node.Up? && IsLastOf(e, Run(s, events))
    ensures Engine.Get(Run(s, events), e.key.user) == Meaning(e)
  {
    AcknowledgedIsRead(s, events, machine, e);
    hide Inv, Run, Engine.Get, AtRisk, Crashes;
  }

  lemma AckedAre(q: Q.State, s: State, acked: Entries, history: Entries)
    requires Matches(q, s, acked, history)
    ensures AckedBy(q.groups) <= s.acked && s.node.Up?
  {
    hide AckedBy, LoggedBy, Follows;
  }

  // A database that was just opened, with nobody in the queue.
  lemma OpenedMatches(s: State)
    requires s.node.Up? && s.node.db.writer.Idle? && !s.node.db.bgError
    ensures var q := Q.Init(s.node.db.lastSequence); Q.Inv(q) && Matches(q, s, s.acked, s.history)
  {
    Q.InitKeeps(s.node.db.lastSequence);
    hide Q.Inv;
  }

  // As long as every append leaves the writer in agreement with the file, nothing is at risk
  // of a crash of the process alone: then every write that returned success is kept.
  ghost predicate InAgreement(s: State) {
    s.node.Up? && !s.node.db.risk.outOfStep && s.node.db.risk.unsure == {}
  }

  lemma StaysInAgreement(q: Q.State, s: State, i: Item)
    requires InAgreement(s) && (i.Thread? ==> i.agrees)
    ensures var s' := Taken(q, s, i).1; s'.node.Up? ==> InAgreement(s')
  {
    if i.Thread? {
      hide Q.Enabled, Q.Step, IsBatch, LogAppended, BatchOf;
    } else if IsOther(i.event) && Enabled(s, i.event) {
      if UsesTask(i.event) {
        TaskKeepsRiskSame(s.node.db, s.disk, i.event);
        hide TaskStep, TaskEnabled;
      }
      hide Q.Step, CrashStep, OpenStep, MayLose;
    }
  }

  lemma {:induction false} NothingIsAtRisk(q: Q.State, s: State, items: seq<Item>, acked: Entries, history: Entries)
    requires Q.Inv(q) && Matches(q, s, acked, history) && InAgreement(s)
    requires forall i | 0 <= i < |items| && items[i].Thread? :: items[i].agrees
    ensures AtRisk(AllTaken(q, s, items).1, false) == {}
    decreases |items|
  {
    hide Q.Inv, Matches, Taken, Replayed, Stored;
    if items != [] {
      StaysInAgreement(q, s, items[0]);
      var qs, es := QueueRunIsARun(q, s, [items[0]], acked, history);
      var r := Taken(q, s, items[0]);
      OneItem(q, s, items[0]);
      MatchesUp(r.0, r.1, acked, history);
      NothingIsAtRisk(r.0, r.1, items[1..], acked, history);
    }
  }

  lemma OneItem(q: Q.State, s: State, i: Item)
    requires s.node.Up?
    ensures AllTaken(q, s, [i]) == Taken(q, s, i)
  {
    hide Taken;
    var r := Taken(q, s, i);
    assert [i][1..] == [] && AllTaken(r.0, r.1, []) == r;
  }

  // ------------------------------------------------------------------ what was given to the files

  // The entries of the records that AddRecord got.
  function EntriesOfRecords(rs: seq<Q.Record>): (s: Entries) {
    if rs == [] then {}
    else
      var n := |rs| - 1;
      EntriesOfRecords(rs[..n]) + SetOf(WB.Numbered(rs[n].ops, rs[n].after + 1))
  }

  // Groups whose record was appended and could not be synced.
  function UnsyncedBy(groups: seq<Q.Group>): (s: Entries) {
    if groups == [] then {}
    else
      var n := |groups| - 1;
      UnsyncedBy(groups[..n]) + if groups[n].outcome.Unsynced? then BatchOf(groups[n]) else {}
  }

  lemma SetOfConcat(a: seq<Entry>, b: seq<Entry>)
    ensures SetOf(a + b) == SetOf(a) + SetOf(b)
  {
  }

  lemma OneMoreRecord(rs: seq<Q.Record>, r: Q.Record)
    ensures EntriesOfRecords(rs + [r]) == EntriesOfRecords(rs) + SetOf(WB.Numbered(r.ops, r.after + 1))
  {
    hide SetOf, WB.Numbered;
    assert (rs + [r])[..|rs|] == rs;
  }

  lemma {:induction false} RecordsAre(gs: seq<Q.Group>)
    requires forall i | 0 <= i < |gs| :: Q.Decided(gs[i].outcome)
    ensures EntriesOfRecords(Q.RecordsOf(gs)) == AckedBy(gs) + UnsyncedBy(gs)
    ensures SetOf(Q.EntriesOf(gs)) == AckedBy(gs)
  {
    hide WB.Numbered, SetOf, EntriesOfRecords;
    if gs == [] {
      NoEntries();
    } else {
      var n := |gs| - 1;
      RecordsAre(gs[..n]);
      var rs, es, g := Q.RecordsOf(gs[..n]), Q.EntriesOf(gs[..n]), gs[n];
      OneMoreRecord(rs, Q.Record(g.after, g.ops));
      SetOfConcat(es, WB.Numbered(g.ops, g.after + 1));
      assert rs + [] == rs && es + [] == es;
    }
  }

  lemma NoEntries()
    ensures EntriesOfRecords([]) == {} && SetOf([]) == {}
  {
  }

  // Between groups, what the engine takes to have been logged is what AddRecord was given, but
  // for what could not be synced; and what it has acknowledged is what the memtables were given.
  lemma WhatWasGiven(q: Q.State)
    requires Q.Inv(q) && Q.Wrote(q) && q.current.None?
    ensures EntriesOfRecords(q.log) == LoggedBy(q) + UnsyncedBy(q.groups)
    ensures SetOf(q.table) == AckedBy(q.groups) == LoggedBy(q)
  {
    forall i | 0 <= i < |q.groups|
      ensures Q.Decided(q.groups[i].outcome)
    {
      assert q.groups[i] in q.groups;
      assert Q.OverFits(q.groups[i], q.arrivals, q.results, q.popped, q.lastSequence);
    }
    assert Q.AllGroups(q) == q.groups;
    RecordsAre(q.groups);
    hide AckedBy, UnsyncedBy, EntriesOfRecords, Q.RecordsOf, Q.EntriesOf, SetOf;
  }

  // ------------------------------------------------------------------ the ring is the snapshots

  // The engine's snapshots are those in the ring, none newer than LastSequence.
  ghost predicate Holds(ring: S.SnapshotList, db: Db)
    reads ring, ring.ring
  {
    ring.Valid() && AreSnapshots(ring.Sequences(), db)
  }

  ghost predicate AreSnapshots(q: seq<nat>, db: Db) {
    multiset(q) == db.snapshots && forall n | n in db.snapshots :: n <= db.lastSequence
  }

  lemma SnapshotTaken(q: seq<nat>, s: State)
    requires s.node.Up? && AreSnapshots(q, s.node.db)
    ensures var db, s' := s.node.db, ClientStep(s, s.node.db, TakeSnapshot);
            s'.node.Up? && AreSnapshots(q + [db.lastSequence], s'.node.db)
    ensures forall i | 0 <= i < |q| :: q[i] <= s.node.db.lastSequence
  {
    assert forall i | 0 <= i < |q| :: q[i] in multiset(q);
  }

  lemma SnapshotReleased(q: seq<nat>, i: nat, s: State)
    requires s.node.Up? && AreSnapshots(q, s.node.db) && i < |q|
    ensures ClientEnabled(s.node.db, ReleaseSnapshot(q[i]))
    ensures var s' := ClientStep(s, s.node.db, ReleaseSnapshot(q[i]));
            s'.node.Up? && AreSnapshots(q[..i] + q[i + 1..], s'.node.db)
  {
    assert q == q[..i] + [q[i]] + q[i + 1..];
    assert q[i] in multiset(q);
  }

  // GetSnapshot.
  method TakeFromRing(ring: S.SnapshotList, lastSequence: nat, ghost s: State) returns (snapshot: S.Snapshot)
    requires s.node.Up? && Holds(ring, s.node.db) && lastSequence == s.node.db.lastSequence
    modifies ring, ring.ring
    ensures var s' := ClientStep(s, s.node.db, TakeSnapshot); s'.node.Up? && Holds(ring, s'.node.db)
    ensures snapshot.sequence == lastSequence
  {
    SnapshotTaken(ring.Sequences(), s);
    hide AreSnapshots, ClientStep;
    snapshot := ring.New(lastSequence);
    assert ring.Sequences()[|ring.Sequences()| - 1] == lastSequence;
  }

  // ReleaseSnapshot.
  method ReleaseFromRing(ring: S.SnapshotList, snapshot: S.Snapshot, ghost k: nat, ghost s: State)
    requires s.node.Up? && Holds(ring, s.node.db) && 1 <= k < |ring.ring| && ring.ring[k] == snapshot
    modifies ring, ring.ring
    ensures ClientEnabled(s.node.db, ReleaseSnapshot(snapshot.sequence))
    ensures var s' := ClientStep(s, s.node.db, ReleaseSnapshot(snapshot.sequence)); s'.node.Up? && Holds(ring, s'.node.db)
  {
    assert ring.Sequences()[k - 1] == snapshot.sequence;
    SnapshotReleased(ring.Sequences(), k - 1, s);
    hide AreSnapshots, ClientStep, ClientEnabled;
    ring.Delete(snapshot, k);
  }

  // What DoCompactionWork takes from the ring is what the engine's compactions ask for.
  method SmallestSnapshotOf(ring: S.SnapshotList, lastSequence: nat, ghost db: Db) returns (smallest: nat)
    requires Holds(ring, db) && lastSequence == db.lastSequence
    ensures IsSmallestSnapshot(db, smallest)
  {
    Members(ring.Sequences(), db);
    hide S.SnapshotList.Valid;
    smallest := S.SmallestSnapshot(ring, lastSequence);
  }

  lemma Members(q: seq<nat>, db: Db)
    requires AreSnapshots(q, db)
    ensures forall n :: n in q <==> n in db.snapshots
    ensures db.snapshots == multiset{} <==> q == []
  {
    assert forall n :: n in multiset(q) <==> n in q;
    if q != [] {
      assert q[0] in multiset(q);
    }
  }
}
