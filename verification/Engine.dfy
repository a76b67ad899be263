// What the engine promises over all its runs: any interleaving of writers, readers,
// snapshots and the background thread, with failures and crashes anywhere.
module Engine {
  import opened DbFormat
  import opened Lookup
  import opened Compaction
  import opened EngineModel
  import opened EngineViews
  import opened EngineInvariant
  import opened EngineClients
  import opened EngineBackground
  import opened EngineRisk
  import opened EngineRecovery
  import opened EngineLosses

  // What NewDB leaves on disk.
  function NewDatabase(): (s: State) {
    State(Disk(map[], map[], Manifest({}, 0, 0, 2, 0), 1, {File(LockFile, 0), File(DescriptorFile, 1), File(CurrentFile, 0)}),
          Down, {}, {}, 0)
  }

  lemma NewDatabaseIsSound()
    ensures Inv(NewDatabase())
  {
  }

  lemma RunStep(s: State, ev: Event, events: seq<Event>)
    requires Enabled(s, ev)
    ensures Run(s, [ev] + events) == Run(Step(s, ev), events)
  {
    hide Enabled, Step;
    assert ([ev] + events)[1..] == events;
  }

  lemma ClientRun(s: State, db: Db, ev: Event, events: seq<Event>)
    requires s.node == Up(db) && ClientEnabled(db, ev)
    ensures Run(s, [ev] + events) == Run(ClientStep(s, db, ev), events)
  {
    hide TaskEnabled, TaskStep, OpenEnabled, OpenStep, Run;
    RunStep(s, ev, events);
  }

  lemma OpenRun(s: State, o: Opening, ev: Event, events: seq<Event>)
    requires s.node == Recovering(o) && OpenEnabled(o, s.disk, ev)
    ensures Run(s, [ev] + events) == Run(OpenStep(s, o, ev), events)
  {
    hide TaskEnabled, TaskStep, ClientEnabled, ClientStep, Run;
    RunStep(s, ev, events);
  }

  lemma BeginOpenRun(s: State, events: seq<Event>)
    requires s.node == Down && CanOpen(s.disk)
    ensures Run(s, [BeginOpen] + events) == Run(Opened(s), events)
  {
    hide TaskEnabled, TaskStep, ClientEnabled, ClientStep, OpenEnabled, OpenStep, Run;
    RunStep(s, BeginOpen, events);
  }

  lemma RunNone(s: State)
    ensures Run(s, []) == s
  {
  }

  // A new database is a sound state to start from, and can be opened ...
  lemma NewDatabaseOpens(events: seq<Event>) returns (s: State)
    ensures Run(NewDatabase(), [BeginOpen] + ([CreateLog] + ([WriteDescriptor] + ([WriteNewManifest(0)] + ([OpenDone] + events)))))
            == Run(s, events)
    ensures s.node.Up? && s.node.db.writer.Idle? && !s.node.db.bgError && s.node.db.lastSequence == 0 && s.acked == {}
    ensures Inv(NewDatabase())
  {
    NewDatabaseIsSound();
    hide Run, Inv;
    var s0, d := NewDatabase(), NewDatabase().disk;
    var s1 := Opened(s0);
    BeginOpenRun(s0, [CreateLog] + ([WriteDescriptor] + ([WriteNewManifest(0)] + ([OpenDone] + events))));
    assert Stored(d.logs, {}) == {} && ToReplay(d.logs, d.manifest) == {};
    var s2 := OpenStep(s1, s1.node.o, CreateLog);
    var s3 := OpenStep(s2, s2.node.o, WriteDescriptor);
    var s4 := OpenStep(s3, s3.node.o, WriteNewManifest(0));
    OpenRun(s1, s1.node.o, CreateLog, [WriteDescriptor] + ([WriteNewManifest(0)] + ([OpenDone] + events)));
    OpenRun(s2, s2.node.o, WriteDescriptor, [WriteNewManifest(0)] + ([OpenDone] + events));
    OpenRun(s3, s3.node.o, WriteNewManifest(0), [OpenDone] + events);
    OpenRun(s4, s4.node.o, OpenDone, events);
    s := OpenStep(s4, s4.node.o, OpenDone);
  }

  // ... and a write that nothing goes wrong with is acknowledged.
  lemma AWriteIsAcknowledged(s: State, batch: Entries, last: nat, sync: bool)
    requires s.node.Up? && ClientEnabled(s.node.db, BeginWrite(batch, last))
    ensures var s' := Run(s, [BeginWrite(batch, last)] + ([AppendOk(sync)] + ([Insert] + ([Publish] + []))));
            s'.node.Up? && s'.node.db.writer.Idle? && s'.acked == s.acked + batch && s'.node.db.lastSequence == last
  {
    hide Run;
    AWriteRuns(s, batch, last, sync, []);
    RunNone(Written(s, batch, last, sync));
  }

  // The state after such a write.
  ghost function Written(s: State, batch: Entries, last: nat, sync: bool): (r: State)
    requires s.node.Up?
  {
    var db := s.node.db;
    var appended := Appended(WriteBegun(db, batch, last), sync);
    State(LogAppended(s.disk, WriteBegun(db, batch, last)),
          Up(BatchInserted(appended).(lastSequence := last, writer := Idle)),
          s.history + batch, s.acked + batch, s.floor)
  }

  lemma AWriteRuns(s: State, batch: Entries, last: nat, sync: bool, events: seq<Event>)
    requires s.node.Up? && ClientEnabled(s.node.db, BeginWrite(batch, last))
    ensures Run(s, [BeginWrite(batch, last)] + ([AppendOk(sync)] + ([Insert] + ([Publish] + events)))) ==
            Run(Written(s, batch, last, sync), events)
  {
    hide Run;
    var e1 := BeginWrite(batch, last);
    var s1 := ClientStep(s, s.node.db, e1);
    var s2 := ClientStep(s1, s1.node.db, AppendOk(sync));
    var s3 := ClientStep(s2, s2.node.db, Insert);
    var s4 := ClientStep(s3, s3.node.db, Publish);
    ClientRun(s, s.node.db, e1, [AppendOk(sync)] + ([Insert] + ([Publish] + events)));
    ClientRun(s1, s1.node.db, AppendOk(sync), [Insert] + ([Publish] + events));
    ClientRun(s2, s2.node.db, Insert, [Publish] + events);
    ClientRun(s3, s3.node.db, Publish, events);
  }

  // ------------------------------------------------------------------ every step keeps the invariant

  lemma ClientStepKeeps(s: State, db: Db, ev: Event)
    requires Inv(s) && s.node == Up(db) && ClientEnabled(db, ev)
    ensures Inv(ClientStep(s, db, ev))
  {
    hide UpInv, RiskInv;
    var d, h, a, f := s.disk, s.history, s.acked, s.floor;
    var s' := ClientStep(s, db, ev);
    ClientKeepsRisk(s, db, ev);
    match ev
    case BeginWrite(batch, last) => BeginWriteKeeps(db, d, h, a, f, batch, last);
    case AppendOk(sync) => AppendOkKeeps(db, d, h, a, f, sync, s'.node.db, s'.history);
    case AppendFailed(agrees) => AppendFailedKeeps(db, d, h, a, f, agrees);
    case SyncFailed => SyncFailedKeeps(db, d, h, a, f);
    case Insert => InsertKeeps(db, d, h, a, f, s'.node.db);
    case Publish => PublishKeeps(db, d, h, a, f, s'.node.db, s'.acked);
    case SwitchMemtable => SwitchKeeps(db, d, h, a, f, s'.node.db, s'.disk);
    case TakeSnapshot => TakeSnapshotKeeps(db, d, h, a, f);
    case ReleaseSnapshot(at) => ReleaseSnapshotKeeps(db, d, h, a, f, at);
    case BeginRead(at) => BeginReadKeeps(db, d, h, a, f, at, s'.node.db);
    case EndRead(r) => EndReadKeeps(db, d, h, a, f, r);
    case Schedule => ScheduleKeeps(db, d, h, a, f, s'.node.db);
  }

  // Edits go to the descriptor that CURRENT names.
  lemma DescriptorIsNamed(db: Db, d: Disk, h: Entries, a: Entries, f: nat)
    requires UpInv(db, d, h, a, f)
    ensures db.descriptor == d.named
  {
    hide ContentsInv, Exist, Numbered, Guarded, Synced, StageFits;
  }

  lemma TaskStepKeeps(db: Db, d: Disk, h: Entries, a: Entries, f: nat, ev: Event, db': Db, d': Disk)
    requires UpInv(db, d, h, a, f)
    requires UsesTask(ev) && ev.i < |db.tasks| && TaskEnabled(db, d, db.tasks[ev.i], ev) && (db', d') == TaskStep(db, d, ev)
    ensures UpInv(db', d', h, a, if ev.BeginCompaction? then ev.picked.smallest else f)
  {
    hide UpInv, IsPick, OutputsAreKept, FlushBegun, FlushCommitted, FlushFailed, OutputWritten, CompactionAbandoned;
    hide CompactionCommitted, Installed, AfterCollect, Garbage, ManifestWith, WithTask;
    match ev
    case NothingToDo(i) => NothingToDoKeeps(db, d, h, a, f, i, db');
    case EndCall(i) => EndCallKeeps(db, d, h, a, f, i, db');
    case BeginFlush(i) => BeginFlushKeeps(db, d, h, a, f, i, db');
    case BuildTable(i) => BuildTableKeeps(db, d, h, a, f, i, db', d');
    case BuildFailed(i) => BuildFailedKeeps(db, d, h, a, f, i, db');
    case CommitFlush(i) => CommitFlushKeeps(db, d, h, a, f, i, db');
    case BeginCompaction(i, p) => BeginCompactionKeeps(db, d, h, a, f, i, p, db');
    case WriteOutput(i, content) => WriteOutputKeeps(db, d, h, a, f, i, content, db', d');
    case CompactionFailed(i) => CompactionFailedKeeps(db, d, h, a, f, i, db');
    case CommitCompaction(i) => CommitCompactionKeeps(db, d, h, a, f, i, db');
    case WriteManifest(i) =>
      DescriptorIsNamed(db, d, h, a, f);
      if db.tasks[i].stage.flush {
        FlushReachesManifest(db, d, h, a, f, i, db', d');
      } else {
        CompactionReachesManifest(db, d, h, a, f, i, db', d');
      }
    case InstallOk(i) =>
      if db.tasks[i].stage.flush {
        FlushInstalled(db, d, h, a, f, i, db');
      } else {
        CompactionInstalled(db, d, h, a, f, i, db');
      }
    case InstallFailed(i) =>
      if db.tasks[i].stage.flush {
        FlushNotInstalled(db, d, h, a, f, i, db');
      } else {
        CompactionFailedKeeps(db, d, h, a, f, i, db');
      }
    case Collect(i) => CollectKeeps(db, d, h, a, f, i, db', d');
  }

  lemma OpenStepKeeps(s: State, o: Opening, ev: Event)
    requires Inv(s) && s.node == Recovering(o) && OpenEnabled(o, s.disk, ev)
    ensures Inv(OpenStep(s, o, ev))
  {
    hide UpInv, RiskInv, DiskInv, OpeningInv;
    var d, h, a, f := s.disk, s.history, s.acked, s.floor;
    var s' := OpenStep(s, o, ev);
    match ev
    case RecoverTable(content) => RecoverTableKeeps(o, d, h, a, f, content, s'.node.o, s'.disk);
    case RecoverLog(n) => RecoverLogKeeps(o, d, h, a, f, n, s'.node.o);
    case CreateLog => CreateLogKeeps(o, d, h, a, f, s'.node.o, s'.disk);
    case WriteDescriptor => OtherFilesKeep(o, d, h, a, f, s'.node.o, s'.disk);
    case OpenFailed => OtherFilesKeep(o, d, h, a, f, o, s'.disk);
    case WriteNewManifest(last) => WriteNewManifestKeeps(o, d, h, a, f, last, s'.node.o, s'.disk);
    case OpenDone =>
      OpenDoneKeeps(o, d, h, a, f, s'.node.db, s'.disk);
      OpenDoneHasNoRisk(o, d, h, a, f, s'.node.db, s'.disk);
  }

  lemma StepKeepsInv(s: State, ev: Event)
    requires Inv(s) && Enabled(s, ev)
    ensures Inv(Step(s, ev))
  {
    hide UpInv, RiskInv, DiskInv, OpeningInv, ClientStep, TaskStep, OpenStep, ClientEnabled, TaskEnabled, OpenEnabled;
    hide UsesTask, MayLose, Crashed, Gone;
    match s.node
    case Down =>
      if !ev.Crash? {
        BeginOpenKeeps(s.disk, s.history, s.acked, s.floor);
        var o := Begun(s.disk.manifest);
        OtherFilesKeep(o, s.disk, s.history, s.acked, s.floor, o, Opened(s).disk);
      }
    case Recovering(o) => if !ev.Crash? { OpenStepKeeps(s, o, ev); }
    case Up(db) =>
      if ev.Crash? {
        CrashKeeps(db, s.disk, s.history, s.acked, s.floor, ev.machine, ev.lost, ev.found);
      } else if UsesTask(ev) {
        var r := TaskStep(db, s.disk, ev);
        TaskStepKeeps(db, s.disk, s.history, s.acked, s.floor, ev, r.0, r.1);
        TaskKeepsRisk(db, s.disk, s.history, s.acked, s.floor, ev, r.0, r.1);
      } else {
        ClientStepKeeps(s, db, ev);
      }
  }

  lemma {:induction false} RunKeepsInv(s: State, events: seq<Event>)
    requires Inv(s)
    ensures Inv(Run(s, events))
    decreases |events|
  {
    hide Inv, Step, Enabled;
    if events != [] {
      if Enabled(s, events[0]) {
        StepKeepsInv(s, events[0]);
        RunKeepsInv(Step(s, events[0]), events[1..]);
      } else {
        RunKeepsInv(s, events[1..]);
      }
    }
  }

  // ------------------------------------------------------------------ what is not forgotten

  // Only processes die in this run, unless machines may.
  ghost predicate Crashes(events: seq<Event>, machine: bool) {
    forall i | 0 <= i < |events| && events[i].Crash? :: events[i].machine ==> machine
  }

  // No step takes anything that was not at risk, or puts it at risk.
  lemma StepRemembers(s: State, ev: Event, machine: bool)
    requires Inv(s) && Enabled(s, ev) && (ev.Crash? && ev.machine ==> machine)
    ensures s.history - AtRisk(s, machine) <= Step(s, ev).history - AtRisk(Step(s, ev), machine)
    ensures s.acked - AtRisk(s, machine) <= Step(s, ev).acked - AtRisk(Step(s, ev), machine)
  {
    AckedIsLogged(s);
    hide TaskEnabled, OpenEnabled, OpenStep, TaskStep, UpInv, RiskInv, DiskInv, OpeningInv, ClientStep, ClientEnabled, UsesTask;
    hide Losable;
    match s.node
    case Down =>
    case Recovering(o) => if !ev.Crash? { OpeningTakesNothing(s, o, ev, machine); }
    case Up(db) =>
      var d, k := s.disk, db.risk;
      if ev.Crash? {
        CrashTakesLosable(d, k, ev.machine, ev.lost, ev.found, machine);
        hide Crashed;
      } else if UsesTask(ev) {
        TaskPutsNothingAtRisk(db, d, s.history, s.acked, s.floor, ev, machine);
      } else {
        ClientPutsNothingAtRisk(s, db, ev, machine);
      }
  }

  lemma {:induction false} RunRemembers(s: State, events: seq<Event>, machine: bool)
    requires Inv(s) && Crashes(events, machine)
    ensures s.history - AtRisk(s, machine) <= Run(s, events).history
    ensures s.acked - AtRisk(s, machine) <= Run(s, events).acked
    decreases |events|
  {
    hide Step, Enabled, Inv, AtRisk;
    if events != [] {
      assert Crashes(events[1..], machine);
      if Enabled(s, events[0]) {
        assert events[0].Crash? && events[0].machine ==> machine;
        StepRemembers(s, events[0], machine);
        StepKeepsInv(s, events[0]);
        RunRemembers(Step(s, events[0]), events[1..], machine);
      } else {
        RunRemembers(s, events[1..], machine);
      }
    }
  }

  // ------------------------------------------------------------------ reads

  // DBImpl::Get in this state, at its latest sequence number.
  ghost function Get(s: State, k: UserKey): (r: Option<Value>)
    requires s.node.Up?
  {
    var db := s.node.db;
    LayeredGet(At(db.mems, Some(db.mem)), At(db.mems, db.imm), Stored(s.disk.tables, db.current), k, db.lastSequence)
  }

  // The layers of a running database answer as the whole history does, at every sequence
  // number a snapshot can still have.
  lemma LayeredReadIsCorrect(s: State, k: UserKey, at: nat)
    requires Inv(s) && s.node.Up? && s.floor <= at <= s.node.db.lastSequence
    ensures var db := s.node.db;
            LayeredGet(At(db.mems, Some(db.mem)), At(db.mems, db.imm), Stored(s.disk.tables, db.current), k, at)
            == Read(s.history, k, at)
  {
    var db := s.node.db;
    var mem, imm, cur := At(db.mems, Some(db.mem)), At(db.mems, db.imm), Stored(s.disk.tables, db.current);
    var recent := Recent(db.mems, db.mem, db.imm, db.writer);
    assert mem + imm + cur + Unsaved(db.writer) == recent + cur;
    LaterIsInvisible(mem + imm + cur, Unsaved(db.writer), k, at);
    LayersAreEnough(mem, imm, cur, k, at);
  }

  // A reader that has been running for a while, through flushes, compactions and collections
  // of files, gets what the history held when it began.
  lemma ReadersAreStable(s: State, r: Reader, k: UserKey)
    requires Inv(s) && s.node.Up? && r in s.node.db.readers
    ensures var db := s.node.db;
            LayeredGet(At(db.mems, Some(r.mem)), At(db.mems, r.imm), Stored(s.disk.tables, r.files), k, r.at)
            == Read(r.seen, k, r.at)
  {
    var db := s.node.db;
    assert ReaderFits(r, db.mems, db.mem, s.disk.tables, s.history, db.lastSequence);
    var mem, imm, bottom := At(db.mems, Some(r.mem)), At(db.mems, r.imm), Stored(s.disk.tables, r.files);
    assert Distinct(mem + imm + bottom);
    hide Stored, Views, LogsMatch, CompactionFits, EditFits;
    LayersAreEnough(mem, imm, bottom, k, r.at);
  }

  // ------------------------------------------------------------------ the main results

  // In every run, whatever is under way when it crashes: every write that is still acknowledged
  // is in the history and published, so that reads see it, and a read answers with the newest
  // published write of its key.  With no write under way, all of the history is published: then
  // the answer is the newest write of the key that there is.  And no acknowledgement is taken
  // back of what is not at risk.
  lemma CrashSafety(s: State, events: seq<Event>, machine: bool, k: UserKey)
    requires Inv(s) && Crashes(events, machine)
    ensures var s' := Run(s, events); s.acked - AtRisk(s, machine) <= s'.acked <= s'.history
    ensures var s' := Run(s, events);
            s'.node.Up? ==>
              var last := s'.node.db.lastSequence;
              && Upto(s'.acked, last) && Get(s', k) == Read(s'.history, k, last)
              && (s'.node.db.writer.Idle? ==>
                    Upto(s'.history, last) && forall at | at >= last :: Get(s', k) == Read(s'.history, k, at))
  {
    RunKeepsInv(s, events);
    RunRemembers(s, events, machine);
    var s' := Run(s, events);
    AckedIsLogged(s');
    hide Inv, Run, Get, AtRisk, Crashes;
    if s'.node.Up? {
      var last := s'.node.db.lastSequence;
      GetIsCorrect(s', k);
      if s'.node.db.writer.Idle? {
        forall at | at >= last
          ensures Read(s'.history, k, at) == Read(s'.history, k, last)
        {
          ReadFromTheTop(s'.history, k, last, at);
        }
      }
    }
  }

  lemma GetIsCorrect(s: State, k: UserKey)
    requires Inv(s) && s.node.Up?
    ensures Get(s, k) == Read(s.history, k, s.node.db.lastSequence)
    ensures IsHistory(s.history) && Upto(s.acked, s.node.db.lastSequence)
    ensures s.node.db.writer.Idle? ==> Upto(s.history, s.node.db.lastSequence)
  {
    FloorIsPublished(s);
    LayeredReadIsCorrect(s, k, s.node.db.lastSequence);
    hide Inv;
  }

  lemma AckedIsLogged(s: State)
    requires Inv(s)
    ensures s.acked <= s.history
  {
    hide Stored, Equiv, Layers, LogsMatch, CompactionFits, EditFits, FilesInv, OpeningInv;
  }

  lemma FloorIsPublished(s: State)
    requires Inv(s) && s.node.Up?
    ensures s.floor <= s.node.db.lastSequence
    ensures IsHistory(s.history) && Upto(s.acked, s.node.db.lastSequence)
    ensures forall e | e in s.history :: e.key.sequence <= s.node.db.lastSequence || e in InFlight(s.node.db.writer)
    ensures forall e | e in InFlight(s.node.db.writer) :: e in s.history && e.key.sequence > s.node.db.lastSequence
  {
    hide Stored, Equiv, Layers, LogsMatch, CompactionFits, EditFits, FilesInv;
  }

  // An acknowledged write that is not at risk is read back, at any later time and after any
  // crashes, until a newer write of its key has been published.
  lemma AcknowledgedIsRead(s: State, events: seq<Event>, machine: bool, e: Entry)
    requires Inv(s) && Crashes(events, machine) && e in s.acked - AtRisk(s, machine) && Run(s, events).node.Up?
    ensures var s' := Run(s, events);
            (forall x | x in s'.history && x.key.user == e.key.user && x.key.sequence <= s'.node.db.lastSequence ::
               x.key.sequence <= e.key.sequence) ==>
            Get(s', e.key.user) == Meaning(e)
  {
    CrashSafety(s, events, machine, e.key.user);
    RunKeepsInv(s, events);
    var s' := Run(s, events);
    GetIsCorrect(s', e.key.user);
    hide Inv, Run, Get, AtRisk, Crashes;
    var last := s'.node.db.lastSequence;
    if forall x | x in s'.history && x.key.user == e.key.user && x.key.sequence <= last :: x.key.sequence <= e.key.sequence {
      assert Answers(s'.history, e.key.user, last, e);
      ReadIs(s'.history, e.key.user, last, e);
    }
  }

  // What crashes can ever take back of what was acknowledged, exactly: what is at risk now.
  // Whatever else has been acknowledged stays, in every run.
  lemma WhatACrashCanTake(s: State, machine: bool, e: Entry)
    requires Inv(s) && e in s.acked
    ensures (exists events :: Crashes(events, machine) && e !in Run(s, events).acked) <==> e in AtRisk(s, machine)
  {
    assert e in AtRisk(s, machine) ==> s.node.Up?;
    hide Inv, Run, AtRisk;
    if e in AtRisk(s, machine) {
      var events := LoseAtRisk(s, machine);
      assert Crashes(events, machine) && e !in Run(s, events).acked;
    }
    forall events | Crashes(events, machine) && e !in AtRisk(s, machine)
      ensures e in Run(s, events).acked
    {
      RunRemembers(s, events, machine);
    }
  }

  lemma LoseAtRisk(s: State, machine: bool) returns (events: seq<Event>)
    requires s.node.Up?
    ensures Crashes(events, machine) && Run(s, events).acked == s.acked - AtRisk(s, machine)
  {
    var lost := Doubtful(s.node.db.risk, machine) * Replayed(s.disk);
    var crash := Crash(machine, lost, {});
    events := [crash] + [];
    CrashIs(s, s.node.db, crash);
    hide Run, Enabled, Step, Replayed, Doubtful, Stored, Crashed;
    RunStep(s, crash, []);
    RunNone(Step(s, crash));
  }

  // A crash at any point of a write, and a recovery (or several) with nothing appended in
  // between: the answers are those of everything that the logs still hold.  A key of which the
  // crash took and brought back nothing reads as before, if the write under way does not touch
  // it; and as that write left it if that was appended and is not lost.
  lemma RecoveryRestoresReads(s: State, crash: Event, events: seq<Event>, k: UserKey)
    requires Inv(s) && s.node.Up? && crash.Crash? && Enabled(s, crash)
    requires var s' := Run(s, [crash] + events);
             s'.node.Up? && s'.node.db.writer.Idle? && s'.history == Step(s, crash).history
    ensures var s' := Run(s, [crash] + events);
            var h' := s.history - Gone(s.disk, crash.lost) + crash.found;
            forall at | at >= s'.node.db.lastSequence :: Get(s', k) == Read(h', k, at)
    ensures (forall e | e in InFlight(s.node.db.writer) + Gone(s.disk, crash.lost) + crash.found :: e.key.user != k) ==>
              Get(Run(s, [crash] + events), k) == Get(s, k)
    ensures forall e | e in InFlight(s.node.db.writer) - crash.lost && NewestOf(InFlight(s.node.db.writer), k, e) ::
              (forall x | x in crash.found :: x.key.user != k) ==> Get(Run(s, [crash] + events), k) == Meaning(e)
  {
    var s' := Run(s, [crash] + events);
    var h, h' := s.history, s.history - Gone(s.disk, crash.lost) + crash.found;
    assert Step(s, crash).history == h';
    CrashSafety(s, [crash] + events, true, k);
    RunKeepsInv(s, [crash] + events);
    GetIsCorrect(s', k);
    GetIsCorrect(s, k);
    FloorIsPublished(s);
    hide Inv, Run, Get, Enabled, Step, Crashes, AtRisk, IsHistory, Gone;
    var last, pending := s.node.db.lastSequence, InFlight(s.node.db.writer);
    ReadsAfterCrash(h, h', k, last, last + s'.node.db.lastSequence, pending, Gone(s.disk, crash.lost), crash.lost, crash.found);
  }

  lemma ReadsAfterCrash(h: Entries, h': Entries, k: UserKey, last: nat, at: nat, pending: Entries, gone: Entries,
                        lost: Entries, found: Entries)
    requires IsHistory(h) && IsHistory(h') && h' == h - gone + found && gone <= lost && last <= at && Upto(h', at)
    requires pending <= h && forall e | e in h :: e.key.sequence <= last || e in pending
    requires forall e | e in pending :: e.key.sequence > last
    ensures (forall e | e in pending + gone + found :: e.key.user != k) ==> Read(h', k, at) == Read(h, k, last)
    ensures (forall x | x in found :: x.key.user != k) ==>
              forall e | e in pending - lost && NewestOf(pending, k, e) :: Read(h', k, at) == Meaning(e)
  {
    if forall e | e in pending + gone + found :: e.key.user != k {
      SameOfAKey(h, h', k, last);
      NothingNewer(h', k, last, at);
    }
    if forall x | x in found :: x.key.user != k {
      forall e | e in pending - lost && NewestOf(pending, k, e)
        ensures Read(h', k, at) == Meaning(e)
      {
        assert Answers(h', k, at, e);
        ReadIs(h', k, at, e);
      }
    }
  }

  lemma SameOfAKey(h: Entries, h': Entries, k: UserKey, at: nat)
    requires Distinct(h) && Distinct(h') && forall e | e in h + h' && e.key.user == k :: e in h && e in h'
    ensures Read(h, k, at) == Read(h', k, at)
  {
    if e0 :| e0 in h && Candidate(e0, k, at) {
      var e := NewestExists(h, k, at, e0);
      assert Answers(h', k, at, e);
      ReadIs(h, k, at, e);
      ReadIs(h', k, at, e);
    } else {
      ReadNone(h, k, at);
      ReadNone(h', k, at);
    }
  }

  // It does happen: one append fails and leaves the writer out of step; the next two writes go
  // through, are synced and acknowledged, and a crash of the process takes the last of them.
  lemma AnAcknowledgedWriteIsLost(s: State, first: Entries, mid: nat, second: Entries, mid2: nat, third: Entries, last: nat)
    requires Inv(s) && s.node.Up? && ClientEnabled(s.node.db, BeginWrite(first, mid))
    requires IsBatch(second, mid, mid2) && IsBatch(third, mid2, last)
    ensures var failing := [BeginWrite(first, mid)] + ([AppendFailed(false)] + ([Publish] + []));
            var writing := [BeginWrite(second, mid2)] + ([AppendOk(true)] + ([Insert] + ([Publish] + [])));
            var again := [BeginWrite(third, last)] + ([AppendOk(true)] + ([Insert] + ([Publish] + [])));
            var s2 := Run(Run(Run(s, failing), writing), again);
            var s3 := Run(s2, [Crash(false, third, {})]);
            && s2.node.Up? && second + third <= s2.acked
            && !s3.node.Up? && third !! s3.history && s3.history == s.history + second
  {
    var s1 := AFailingWriteRuns(s, first, mid);
    RunKeepsInv(s, [BeginWrite(first, mid)] + ([AppendFailed(false)] + ([Publish] + [])));
    var s2 := Written(s1, second, mid2, true);
    AWriteRuns(s1, second, mid2, true, []);
    RunNone(s2);
    RunKeepsInv(s1, [BeginWrite(second, mid2)] + ([AppendOk(true)] + ([Insert] + ([Publish] + []))));
    var s3 := Written(s2, third, last, true);
    AWriteRuns(s2, third, last, true, []);
    RunNone(s3);
    LoseAll(s2, s3, third, mid2, last);
    var crash := Crash(false, third, {});
    hide Inv, Run;
    RunStep(s3, crash, []);
    RunNone(Step(s3, crash));
    assert [crash] + [] == [crash];
    hide Enabled, Step;
  }

  lemma AFailingWriteRuns(s: State, first: Entries, mid: nat) returns (s1: State)
    requires s.node.Up? && ClientEnabled(s.node.db, BeginWrite(first, mid))
    ensures s1 == Run(s, [BeginWrite(first, mid)] + ([AppendFailed(false)] + ([Publish] + [])))
    ensures s1.node.Up? && s1.node.db.writer.Idle? && !s1.node.db.bgError && s1.node.db.lastSequence == mid
    ensures s1.node.db.risk.outOfStep && s1.history == s.history && s1.acked == s.acked
  {
    hide Run;
    var e1 := BeginWrite(first, mid);
    var s2 := ClientStep(s, s.node.db, e1);
    var s3 := ClientStep(s2, s2.node.db, AppendFailed(false));
    s1 := ClientStep(s3, s3.node.db, Publish);
    ClientRun(s, s.node.db, e1, [AppendFailed(false)] + ([Publish] + []));
    ClientRun(s2, s2.node.db, AppendFailed(false), [Publish] + []);
    ClientRun(s3, s3.node.db, Publish, []);
    RunNone(s1);
  }

  lemma LoseAll(s1: State, s2: State, second: Entries, mid: nat, last: nat)
    requires Inv(s1) && s1.node.Up? && s1.node.db.writer.Idle? && s1.node.db.lastSequence == mid && IsBatch(second, mid, last)
    requires s1.node.db.risk.outOfStep && s2 == Written(s1, second, last, true)
    ensures Enabled(s2, Crash(false, second, {}))
    ensures second !! Step(s2, Crash(false, second, {})).history && Step(s2, Crash(false, second, {})).history == s1.history
  {
    var db, d := s2.node.db, s2.disk;
    FloorIsPublished(s1);
    LogIsReplayed(s1);
    CrashIs(s2, db, Crash(false, second, {}));
    hide Inv, Enabled, Step, Crashed;
    assert second !! s1.history;
    InALog(d, db.mem, second);
    assert d.tables == s1.disk.tables && d.manifest == s1.disk.manifest;
    hide Stored;
  }

  // The other way round: a write whose Sync failed is not acknowledged, no further write begins,
  // and after a crash any part of it may be there or not.
  lemma AFailedWriteMayComeBack(s: State, batch: Entries, last: nat, found: Entries)
    requires Inv(s) && s.node.Up? && ClientEnabled(s.node.db, BeginWrite(batch, last)) && found <= batch
    ensures var s' := Run(s, [BeginWrite(batch, last)] + ([SyncFailed] + ([Publish] + [])));
            && s'.node.Up? && s'.acked == s.acked && s'.history == s.history && batch !! s'.history && s'.node.db.bgError
            && Enabled(s', Crash(false, {}, found)) && Step(s', Crash(false, {}, found)).history == s.history + found
  {
    hide Run;
    var e := BeginWrite(batch, last);
    var s1 := ClientStep(s, s.node.db, e);
    var s2 := ClientStep(s1, s1.node.db, SyncFailed);
    var s3 := ClientStep(s2, s2.node.db, Publish);
    ClientRun(s, s.node.db, e, [SyncFailed] + ([Publish] + []));
    ClientRun(s1, s1.node.db, SyncFailed, [Publish] + []);
    ClientRun(s2, s2.node.db, Publish, []);
    RunNone(s3);
    FloorIsPublished(s);
    LogIsReplayed(s);
    MemIsLogged(s);
    FoundInTheLog(s3.disk, s3.node.db.risk, s3.node.db.mem, found);
    CrashIs(s3, s3.node.db, Crash(false, {}, found));
    hide Inv, Enabled, Step, Crashed, IsHistory;
    assert s.history - {} + found == s.history + found;
  }

  lemma MemIsLogged(s: State)
    requires Inv(s) && s.node.Up?
    ensures s.node.db.mem in s.disk.logs
  {
    hide Views, Layers, WriterFits, Covered, Published, EditFits, CompactionFits, ReadersFit, RiskInv, FilesInv, Stored;
  }

  lemma FoundInTheLog(d: Disk, k: Risk, n: nat, found: Entries)
    requires n in d.logs && Replays(d.manifest, n) && n in k.failed && found <= k.failed[n]
    ensures MayLose(d, k, false, {}, found)
  {
    assert n in ToReplay(d.logs, d.manifest);
  }

  lemma CrashIs(s: State, db: Db, crash: Event)
    requires s.node == Up(db) && crash.Crash?
    ensures Enabled(s, crash) <==> MayLose(s.disk, db.risk, crash.machine, crash.lost, crash.found)
    ensures Enabled(s, crash) ==> Step(s, crash) == CrashStep(s, crash.lost, crash.found)
  {
    hide MayLose, CrashStep;
  }

  lemma InALog(d: Disk, n: nat, batch: Entries)
    requires n in d.logs && Replays(d.manifest, n) && batch <= d.logs[n]
    ensures batch <= Replayed(d)
  {
    assert n in ToReplay(d.logs, d.manifest);
  }

  lemma LogIsReplayed(s: State)
    requires Inv(s) && s.node.Up?
    ensures s.disk.manifest.logNumber <= s.node.db.mem && Stored(s.disk.tables, s.disk.manifest.files) <= s.history
  {
    hide Equiv, Layers, CompactionFits, EditFits, FilesInv, ReadersFit, RiskInv, Stored;
  }

  ghost predicate NewestOf(s: Entries, k: UserKey, e: Entry) {
    e.key.user == k && e.key.Parses() && forall x | x in s && x.key.user == k :: x.key.sequence <= e.key.sequence
  }

  // Two sequence numbers read the same when nothing of the key lies between them.
  lemma NothingNewer(h: Entries, k: UserKey, a: nat, b: nat)
    requires Distinct(h) && a <= b && forall e | e in h && e.key.user == k :: e.key.sequence <= a
    ensures Read(h, k, a) == Read(h, k, b)
  {
    if e0 :| e0 in h && Candidate(e0, k, a) {
      var e := NewestExists(h, k, a, e0);
      assert Answers(h, k, b, e);
      ReadIs(h, k, a, e);
      ReadIs(h, k, b, e);
    } else {
      ReadNone(h, k, a);
      ReadNone(h, k, b);
    }
  }

  // File collection never removes a table that a version, a running compaction or a flush
  // that is not installed yet needs, nor changes one.
  lemma CollectionIsSafe(s: State, events: seq<Event>, i: nat)
    requires Inv(s)
    requires var s' := Run(s, events); s'.node.Up? && Enabled(s', Collect(i))
    ensures var s' := Run(s, events);
            var db := s'.node.db;
            db.tasks == [db.tasks[i]] &&
            Agree(s'.disk.tables, Step(s', Collect(i)).disk.tables, Needed(db, s'.disk.manifest, db.tasks[i]))
  {
    RunKeepsInv(s, events);
    var s' := Run(s, events);
    hide Run;
    var db := s'.node.db;
    CollectingStep(s', db, i);
    hide Needed, Agree, Garbage, UpInv, RiskInv, Enabled, Step;
    OnlyCollector(db, s'.disk, s'.history, s'.acked, s'.floor, i);
    NeededTablesStay(db, s'.disk, db.tasks[i]);
  }

  lemma CollectingStep(s: State, db: Db, i: nat)
    requires s.node == Up(db) && Enabled(s, Collect(i))
    ensures i < |db.tasks| && db.tasks[i].stage.Collecting? && Step(s, Collect(i)).disk == Garbage(s.disk, db, db.tasks[i])
  {
    hide Garbage, AfterCollect;
  }

  lemma OnlyCollector(db: Db, d: Disk, h: Entries, acked: Entries, floor: nat, i: nat)
    requires UpInv(db, d, h, acked, floor) && i < |db.tasks|
    ensures db.tasks == [db.tasks[i]] && FilesInv(db, d, db.tasks[i])
  {
    hide ContentsInv, Exist, Numbered, Guarded, Synced, StageFits;
  }

  // While a compaction runs, the sequence number below which it may hide entries is at most
  // that of every snapshot there is or that can be taken.
  lemma SmallestSnapshotIsABound(s: State, events: seq<Event>, i: nat)
    requires Inv(s)
    requires var s' := Run(s, events); s'.node.Up? && i < |s'.node.db.tasks| && s'.node.db.tasks[i].job.Compacting?
    ensures var db := Run(s, events).node.db;
            var smallest := db.tasks[i].job.picked.smallest;
            smallest <= db.lastSequence && forall t | t in db.snapshots :: smallest <= t
  {
    RunKeepsInv(s, events);
    hide Run;
    var s' := Run(s, events);
    RunningCompaction(s'.node.db, s'.disk, s'.history, s'.acked, s'.floor, i);
  }

  lemma RunningCompaction(db: Db, d: Disk, h: Entries, acked: Entries, floor: nat, i: nat)
    requires UpInv(db, d, h, acked, floor) && i < |db.tasks| && db.tasks[i].job.Compacting?
    ensures db.tasks[i].job.picked.smallest <= floor <= db.lastSequence
    ensures forall t | t in db.snapshots :: floor <= t
  {
    hide Stored, Equiv, Layers, LogsMatch, EditFits, ReadersFit, Views, Covered, Numbered, Exist, Guarded, Synced;
  }
}
