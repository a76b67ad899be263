// The directory over all runs: CURRENT always names a descriptor that is there, so that the
// database can always be opened again, and DeleteObsoleteFiles leaves exactly what is needed
// (db/db_impl.cc: DeleteObsoleteFiles, Recover, DB::Open; db/version_set.cc: LogAndApply).
module EngineFiles {
  import opened DbFormat
  import opened Lookup
  import opened Compaction
  import opened EngineModel
  import opened EngineViews
  import opened EngineInvariant
  import opened EngineBackground
  import opened EngineRecovery
  import opened Engine

  // ------------------------------------------------------------------ what every step keeps

  // The tables that the background thread is writing or has not installed yet.
  function Unfinished(t: Task): (fs: set<nat>) {
    (if t.job.Compacting? then t.job.picked.outputs else {})
    + (if t.stage.Building? || t.stage.Built? then {t.stage.file} else {})
  }

  ghost predicate NoDescriptorAbove(others: set<File>, bound: nat) {
    forall f | f in others && f.kind.DescriptorFile? :: f.number <= bound
  }

  // CURRENT and the descriptor it names are there.  No descriptor has a higher number, but for
  // one that an opening has written, or was about to install when it failed: that has the number
  // which the next opening will use.
  ghost predicate Filed(s: State) {
    var d := s.disk;
    && File(CurrentFile, 0) in d.others && File(DescriptorFile, d.named) in d.others && d.named < d.manifest.nextFile
    && (forall f | f in d.others :: !f.kind.TableFile? && !f.kind.LogFile?)
    && match s.node
       case Down => NoDescriptorAbove(d.others, d.manifest.nextFile)
       case Recovering(o) =>
         && File(LockFile, 0) in d.others && o.descriptor < o.next
         && (o.described ==> File(DescriptorFile, o.descriptor) in d.others)
         && if o.installed then o.descriptor == d.named && NoDescriptorAbove(d.others, d.named)
            else o.descriptor == d.manifest.nextFile && NoDescriptorAbove(d.others, o.descriptor)
       case Up(db) =>
         && File(LockFile, 0) in d.others && NoDescriptorAbove(d.others, d.named)
         && db.pending == Unfinished(TheTask(db))
  }

  lemma NewDatabaseIsFiled()
    ensures Filed(NewDatabase())
  {
  }

  lemma TaskKeepsFiled(db: Db, d: Disk, h: Entries, acked: Entries, floor: nat, ev: Event, db': Db, d': Disk)
    requires FilesInv(db, d, TheTask(db)) && UsesTask(ev) && ev.i < |db.tasks| && TaskEnabled(db, d, db.tasks[ev.i], ev)
    requires Filed(State(d, Up(db), h, acked, floor)) && (db', d') == TaskStep(db, d, ev)
    ensures Filed(State(d', Up(db'), h, acked, floor))
  {
    assert db.tasks == [db.tasks[ev.i]] && TheTask(db) == db.tasks[ev.i];
  }

  lemma ClientKeepsFiled(s: State, db: Db, ev: Event)
    requires s.node == Up(db) && OneTask(db.scheduled, db.tasks) && ClientEnabled(db, ev) && Filed(s)
    ensures Filed(ClientStep(s, db, ev))
  {
  }

  lemma OpeningKeepsFiled(s: State, o: Opening, ev: Event)
    requires s.node == Recovering(o) && OpenEnabled(o, s.disk, ev) && Filed(s)
    requires OpeningInv(o, s.disk, s.history, s.floor)
    ensures Filed(OpenStep(s, o, ev))
  {
    hide Stored, Upto;
  }

  lemma StepKeepsFiled(s: State, ev: Event)
    requires Inv(s) && Filed(s) && Enabled(s, ev)
    ensures Filed(Step(s, ev))
  {
    hide ContentsInv, DiskInv, RiskInv, OpeningInv, FilesInv, TaskEnabled, TaskStep, ClientEnabled, ClientStep, OpenEnabled, OpenStep;
    match s.node
    case Down =>
    case Recovering(o) => if !ev.Crash? { OpeningKeepsFiled(s, o, ev); }
    case Up(db) =>
      if ev.Crash? {
      } else if UsesTask(ev) {
        var r := TaskStep(db, s.disk, ev);
        TaskKeepsFiled(db, s.disk, s.history, s.acked, s.floor, ev, r.0, r.1);
      } else {
        OneTaskOf(db, s.disk);
        ClientKeepsFiled(s, db, ev);
      }
  }

  lemma OneTaskOf(db: Db, d: Disk)
    requires FilesInv(db, d, TheTask(db))
    ensures OneTask(db.scheduled, db.tasks)
  {
  }

  lemma {:induction false} RunKeepsFiled(s: State, events: seq<Event>)
    requires Inv(s) && Filed(s)
    ensures Inv(Run(s, events)) && Filed(Run(s, events))
    decreases |events|
  {
    hide Inv, Filed, Step, Enabled;
    if events != [] {
      if Enabled(s, events[0]) {
        StepKeepsInv(s, events[0]);
        StepKeepsFiled(s, events[0]);
        RunKeepsFiled(Step(s, events[0]), events[1..]);
      } else {
        RunKeepsFiled(s, events[1..]);
      }
    }
  }

  // ------------------------------------------------------------------ the main results

  // However a run has left the directory, with crashes while files were written, installed or
  // deleted: CURRENT is there, it names a descriptor that is there, and every table which this
  // lists is there, so that DB::Open gets past its checks.
  lemma CanAlwaysBeOpened(s: State, events: seq<Event>)
    requires Inv(s) && Filed(s)
    ensures CanOpen(Run(s, events).disk)
    ensures Run(s, events).node.Down? ==> Enabled(Run(s, events), BeginOpen)
  {
    RunKeepsFiled(s, events);
    hide Run;
    TablesAreThere(Run(s, events));
    hide Inv;
  }

  lemma TablesAreThere(s: State)
    requires Inv(s)
    ensures s.disk.manifest.files <= s.disk.tables.Keys
  {
    hide ContentsInv, RiskInv, OpeningInv, Synced, Numbered, Guarded, StageFits, OneTask;
  }

  // DeleteObsoleteFiles in any reachable state without a background error: the tables that are
  // left are those which a version in use lists or the background thread is still to install,
  // the logs those of the two memtables, the descriptor the one that CURRENT names, and temporary
  // files are gone unless such a table has their number; CURRENT, the lock and info logs stay.
  lemma CollectionLeavesWhatIsNeeded(s: State, events: seq<Event>, i: nat)
    requires Inv(s) && Filed(s)
    requires var s' := Run(s, events); s'.node.Up? && Enabled(s', Collect(i)) && !s'.node.db.bgError
    ensures var s' := Run(s, events);
            var db, d := s'.node.db, Step(s', Collect(i)).disk;
            && d.tables.Keys == Needed(db, d.manifest, db.tasks[i])
            && d.logs.Keys == {db.mem} + (if db.imm.Some? then {db.imm.value} else {})
            && (forall f | f in d.others :: f.kind.DescriptorFile? ==> f.number == d.named)
            && (forall f | f in d.others :: f.kind.TempFile? ==> f.number in Needed(db, d.manifest, db.tasks[i]))
            && (forall f | f in s'.disk.others :: f.kind.InfoLogFile? ==> f in d.others)
            && d.named == s'.disk.named && d.manifest == s'.disk.manifest
            && File(DescriptorFile, d.named) in d.others && File(CurrentFile, 0) in d.others && File(LockFile, 0) in d.others
  {
    RunKeepsFiled(s, events);
    var s' := Run(s, events);
    hide Run;
    var db, d := s'.node.db, s'.disk;
    CollectingStep(s', db, i);
    hide Enabled, Step;
    LeftOthers(db, d, db.tasks[i]);
    CollectorOf(db, d, s'.history, s'.acked, s'.floor, i);
    LeftTables(db, d, db.tasks[i]);
    LeftLogs(db, d, db.tasks[i], Stored(d.tables, d.manifest.files));
    hide Inv, FilesInv, LogsMatch, LiveFiles, Needed, Stored, Garbage;
  }

  lemma CollectorOf(db: Db, d: Disk, h: Entries, acked: Entries, floor: nat, i: nat)
    requires UpInv(db, d, h, acked, floor) && i < |db.tasks|
    ensures db.tasks == [db.tasks[i]] && TheTask(db) == db.tasks[i] && FilesInv(db, d, db.tasks[i])
    ensures LogsMatch(d.logs, db.mems, db.mem, db.imm, Unsaved(db.writer), db.logNumber, d.manifest,
                      Stored(d.tables, d.manifest.files), db.next)
  {
    OnlyCollector(db, d, h, acked, floor, i);
    hide FilesInv, LogsMatch, Stored, Views, Layers, CompactionFits, ReadersFit, EditFits, Covered, Published, WriterFits;
  }

  lemma LeftOthers(db: Db, d: Disk, t: Task)
    requires !db.bgError && db.descriptor == d.named
    ensures forall f | f in Garbage(d, db, t).others ::
              f in d.others && (f.kind.DescriptorFile? ==> f.number >= d.named) &&
              (f.kind.TempFile? ==> f.number in db.pending + LiveFiles(db, t))
    ensures forall f | f in d.others ::
              f.kind.InfoLogFile? || f.kind.CurrentFile? || f.kind.LockFile? || f == File(DescriptorFile, d.named) ==>
              f in Garbage(d, db, t).others
  {
  }

  lemma LeftTables(db: Db, d: Disk, t: Task)
    requires FilesInv(db, d, t) && t.stage.Collecting? && !db.bgError && db.pending == Unfinished(t)
    ensures db.pending + LiveFiles(db, t) == Needed(db, d.manifest, t)
    ensures Garbage(d, db, t).tables.Keys == Needed(db, d.manifest, t)
  {
    hide OneTask, StageFits, Numbered;
  }

  lemma LeftLogs(db: Db, d: Disk, t: Task, man: Entries)
    requires LogsMatch(d.logs, db.mems, db.mem, db.imm, Unsaved(db.writer), db.logNumber, d.manifest, man, db.next)
    requires !db.bgError
    ensures Garbage(d, db, t).logs.Keys == {db.mem} + (if db.imm.Some? then {db.imm.value} else {})
  {
  }

  // The same when the database has just been opened: the tables of the new descriptor, the new
  // log, and of the descriptors, old and new, that one.
  lemma OpeningLeavesWhatIsNeeded(s: State, events: seq<Event>)
    requires Inv(s) && Filed(s)
    requires var s' := Run(s, events); s'.node.Recovering? && Enabled(s', OpenDone)
    ensures var s' := Run(s, events);
            var d := Step(s', OpenDone).disk;
            && d.tables.Keys == d.manifest.files && d.logs.Keys == {d.manifest.logNumber}
            && (forall f | f in d.others :: f.kind.DescriptorFile? ==> f.number == d.named)
            && d.named == s'.disk.named && d.manifest == s'.disk.manifest
            && File(DescriptorFile, d.named) in d.others && File(CurrentFile, 0) in d.others && File(LockFile, 0) in d.others
  {
    RunKeepsFiled(s, events);
    hide Run;
    OpeningLeaves(Run(s, events), Run(s, events).node.o);
  }

  lemma OpeningLeaves(s: State, o: Opening)
    requires Inv(s) && Filed(s) && s.node == Recovering(o) && OpenEnabled(o, s.disk, OpenDone)
    ensures var d := OpenStep(s, o, OpenDone).disk;
            && d.tables.Keys == d.manifest.files && d.logs.Keys == {d.manifest.logNumber}
            && (forall f | f in d.others :: f.kind.DescriptorFile? ==> f.number == d.named)
            && d.named == s.disk.named && d.manifest == s.disk.manifest
            && File(DescriptorFile, d.named) in d.others && File(CurrentFile, 0) in d.others && File(LockFile, 0) in d.others
  {
    hide Stored, Equiv, Upto;
  }
}
