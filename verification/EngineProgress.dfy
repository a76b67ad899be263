// The background thread gets its work done: db/db_impl.cc, MaybeScheduleCompaction,
// BackgroundCall, CompactMemTable and DoCompactionWork.
module EngineProgress {
  import opened DbFormat
  import opened Lookup
  import opened Compaction
  import opened EngineModel
  import opened EngineViews
  import opened EngineInvariant
  import opened EngineBackground
  import opened Engine
  import opened EngineFiles

  // ------------------------------------------------------------------ it is never stuck

  // The step that a background task takes next when nothing fails.
  function NextStep(i: nat, t: Task): (ev: Event) {
    match t.stage
    case Building(_) => BuildTable(i)
    case Built(_) => CommitFlush(i)
    case Installing(_, _, durable) => if durable then InstallOk(i) else WriteManifest(i)
    case Collecting => Collect(i)
    case Quiet => if t.job.Compacting? then CompactionFailed(i) else if t.job.Waiting? then NothingToDo(i) else EndCall(i)
  }

  // Whatever a background call is in the middle of, it can take its next step; and when there is
  // none, one can be scheduled, unless there has been a background error.
  lemma TheBackgroundThreadIsNeverStuck(s: State, events: seq<Event>)
    requires Inv(s)
    ensures var s' := Run(s, events);
            s'.node.Up? ==>
              if s'.node.db.tasks == [] then s'.node.db.bgError || Enabled(s', Schedule)
              else Enabled(s', NextStep(0, s'.node.db.tasks[0]))
  {
    RunKeepsInv(s, events);
    hide Run;
    var s' := Run(s, events);
    if s'.node.Up? {
      NotStuck(s', s'.node.db);
    }
  }

  lemma NotStuck(s: State, db: Db)
    requires s.node == Up(db) && FilesInv(db, s.disk, TheTask(db))
    ensures if db.tasks == [] then db.bgError || Enabled(s, Schedule) else Enabled(s, NextStep(0, db.tasks[0]))
  {
    hide Exist, Numbered, Guarded, Synced;
  }

  // ------------------------------------------------------------------ a flush

  lemma TaskRun(s: State, db: Db, ev: Event, events: seq<Event>, db': Db, d': Disk)
    requires s.node == Up(db) && UsesTask(ev) && ev.i < |db.tasks| && TaskEnabled(db, s.disk, db.tasks[ev.i], ev)
    requires (db', d') == TaskStep(db, s.disk, ev)
    ensures Run(s, [ev] + events) ==
            Run(State(d', Up(db'), s.history, s.acked, if ev.BeginCompaction? then ev.picked.smallest else s.floor), events)
  {
    hide TaskEnabled, TaskStep, OpenEnabled, OpenStep, ClientEnabled, ClientStep, Run;
    RunStep(s, ev, events);
  }

  lemma OnlyTaskIs(db: Db, t: Task)
    requires |db.tasks| == 1
    ensures WithTask(db, 0, t) == db.(tasks := [t])
  {
  }

  // The database with one background call, at this stage of a flush or of nothing.
  function Calling(db: Db, t: Task): (r: Db) {
    db.(scheduled := true, tasks := [t])
  }

  // The steps of a flush up to its table's being built ...
  lemma FlushIsBuilt(s: State, db: Db, events: seq<Event>) returns (s': State)
    requires s.node == Up(db) && db.tasks == [] && !db.scheduled && !db.bgError && db.imm.Some?
    ensures s'.node == Up(Calling(db.(next := db.next + 1), Task(Flushing, Built(db.next))).(pending := db.pending + {db.next}))
    ensures s' == s.(node := s'.node, disk := s.disk.(tables := s.disk.tables[db.next := At(db.mems, db.imm)]))
    ensures Run(s, [Schedule] + ([BeginFlush(0)] + ([BuildTable(0)] + events))) == Run(s', events)
  {
    hide Run;
    var d, f, db0 := s.disk, db.next, db.(next := db.next + 1);
    var db1 := Calling(db, Task(Waiting, Quiet));
    var db2 := Calling(db0, Task(Flushing, Building(f))).(pending := db.pending + {f});
    var db3 := Calling(db0, Task(Flushing, Built(f))).(pending := db.pending + {f});
    var d1 := d.(tables := d.tables[f := At(db.mems, db.imm)]);
    assert db.tasks + [Task(Waiting, Quiet)] == [Task(Waiting, Quiet)];
    var s1, s2 := s.(node := Up(db1)), s.(node := Up(db2));
    s' := s.(node := Up(db3), disk := d1);
    OnlyTaskIs(db1, db2.tasks[0]);
    OnlyTaskIs(db2, db3.tasks[0]);
    ClientRun(s, db, Schedule, [BeginFlush(0)] + ([BuildTable(0)] + events));
    TaskRun(s1, db1, BeginFlush(0), [BuildTable(0)] + events, db2, d);
    TaskRun(s2, db2, BuildTable(0), events, db3, d1);
  }

  // ... its edit's being in the descriptor ...
  lemma FlushIsWritten(s: State, db: Db, f: nat, events: seq<Event>) returns (s': State)
    requires s.node == Up(db) && db.tasks == [Task(Flushing, Built(f))] && db.descriptor == s.disk.named
    ensures var e := FlushEdit(db, f);
            && s'.node == Up(db.(pending := db.pending - {f}, tasks := [Task(Flushing, Installing(e, true, true))]))
            && s' == s.(node := s'.node, disk := s.disk.(manifest := ManifestWith(s.disk.manifest, e)))
    ensures Run(s, [CommitFlush(0)] + ([WriteManifest(0)] + events)) == Run(s', events)
  {
    hide Run;
    var e, d := FlushEdit(db, f), s.disk;
    var db1 := db.(pending := db.pending - {f}, tasks := [Task(Flushing, Installing(e, true, false))]);
    var db2 := db1.(tasks := [Task(Flushing, Installing(e, true, true))]);
    var d2 := d.(manifest := ManifestWith(d.manifest, e));
    var s1 := s.(node := Up(db1));
    s' := s.(node := Up(db2), disk := d2);
    OnlyTaskIs(db, db1.tasks[0]);
    OnlyTaskIs(db1, db2.tasks[0]);
    TaskRun(s, db, CommitFlush(0), [WriteManifest(0)] + events, db1, d);
    TaskRun(s1, db1, WriteManifest(0), events, db2, d2);
  }

  // ... and the end of the background call.
  lemma FlushIsInstalled(s: State, db: Db, e: Edit, events: seq<Event>) returns (s': State)
    requires s.node == Up(db) && db.tasks == [Task(Flushing, Installing(e, true, true))] && db.scheduled && !db.bgError
    ensures var db' := db.(current := Applied(db.current, e), logNumber := e.logNumber, imm := None);
            && s'.node == Up(db'.(scheduled := false, tasks := []))
            && s'.disk == Garbage(s.disk, db', Task(Flushing, Collecting))
            && s'.history == s.history && s'.acked == s.acked && s'.floor == s.floor
            && Run(s, [InstallOk(0)] + ([Collect(0)] + ([EndCall(0)] + events))) == Run(s', events)
  {
    hide Run, Garbage;
    var db' := db.(current := Applied(db.current, e), logNumber := e.logNumber, imm := None);
    var db1, db2 := db'.(tasks := [Task(Flushing, Collecting)]), db'.(tasks := [Task(Finished, Quiet)]);
    var d' := Garbage(s.disk, db', Task(Flushing, Collecting));
    assert Garbage(s.disk, db1, Task(Flushing, Collecting)) == d' by {
      SameGarbage(s.disk, db1, db', Task(Flushing, Collecting));
    }
    assert db2.tasks[..0] + db2.tasks[1..] == [];
    var s1, s2 := s.(node := Up(db1)), s.(node := Up(db2), disk := d');
    s' := s.(node := Up(db'.(scheduled := false, tasks := [])), disk := d');
    OnlyTaskIs(db, db1.tasks[0]);
    OnlyTaskIs(db', db1.tasks[0]);
    OnlyTaskIs(db1, db2.tasks[0]);
    TaskRun(s, db, InstallOk(0), [Collect(0)] + ([EndCall(0)] + events), db1, s.disk);
    TaskRun(s1, db1, Collect(0), [EndCall(0)] + events, db2, d');
    TaskRun(s2, db2, EndCall(0), events, db'.(scheduled := false, tasks := []), d');
  }

  lemma SameGarbage(d: Disk, db: Db, db': Db, t: Task)
    requires db == db'.(tasks := db.tasks, scheduled := db.scheduled)
    ensures Garbage(d, db, t) == Garbage(d, db', t)
  {
  }

  const FLUSH: seq<Event> :=
    [Schedule] + ([BeginFlush(0)] + ([BuildTable(0)] + ([CommitFlush(0)] + ([WriteManifest(0)]
    + ([InstallOk(0)] + ([Collect(0)] + ([EndCall(0)] + [])))))))

  // With an immutable memtable and no background call, in any sound state without a background
  // error, the next call flushes it: its entries are in a table of the current version, its log
  // is gone, and every read is as before.
  lemma AFlushCompletes(s: State)
    requires Inv(s) && s.node.Up? && s.node.db.tasks == [] && !s.node.db.bgError && s.node.db.imm.Some?
    ensures var db, s' := s.node.db, Run(s, FLUSH);
            && s'.node.Up? && s'.node.db.imm.None? && s'.node.db.tasks == [] && s'.node.db.mem == db.mem
            && At(db.mems, db.imm) <= Stored(s'.disk.tables, s'.node.db.current)
            && s'.disk.logs.Keys == {db.mem} && s'.acked == s.acked
            && forall k :: Get(s', k) == Get(s, k)
  {
    RunKeepsInv(s, FLUSH);
    hide Run;
    var db := s.node.db;
    IdleDb(s, db);
    var s1 := FlushIsBuilt(s, db, [CommitFlush(0)] + ([WriteManifest(0)] + ([InstallOk(0)] + ([Collect(0)] + ([EndCall(0)] + [])))));
    var s2 := FlushIsWritten(s1, s1.node.db, db.next, [InstallOk(0)] + ([Collect(0)] + ([EndCall(0)] + [])));
    var s3 := FlushIsInstalled(s2, s2.node.db, FlushEdit(s1.node.db, db.next), []);
    RunNone(s3);
    FlushLeaves(s, db, s2, s3);
    forall k
      ensures Get(s3, k) == Get(s, k)
    {
      GetIsCorrect(s, k);
      GetIsCorrect(s3, k);
      hide Get, Inv;
    }
  }

  lemma IdleDb(s: State, db: Db)
    requires Inv(s) && s.node == Up(db) && db.tasks == []
    ensures !db.scheduled && db.descriptor == s.disk.named
    ensures LogsMatch(s.disk.logs, db.mems, db.mem, db.imm, Unsaved(db.writer), db.logNumber, s.disk.manifest,
                      Stored(s.disk.tables, s.disk.manifest.files), db.next)
  {
    hide Views, Layers, LogsMatch, WriterFits, Covered, Published, EditFits, CompactionFits, ReadersFit, Exist, Numbered, RiskInv, Stored;
  }

  lemma FlushLeaves(s: State, db: Db, s2: State, s3: State)
    requires s.node == Up(db) && db.imm.Some? && !db.bgError
    requires LogsMatch(s.disk.logs, db.mems, db.mem, db.imm, Unsaved(db.writer), db.logNumber, s.disk.manifest,
                       Stored(s.disk.tables, s.disk.manifest.files), db.next)
    requires s2.disk.tables == s.disk.tables[db.next := At(db.mems, db.imm)] && s2.disk.logs == s.disk.logs
    requires s3.node.Up? && !s3.node.db.bgError && s3.node.db.logNumber == db.mem
    requires s3.node.db.current == Applied(db.current, FlushEdit(db.(next := db.next + 1), db.next))
    requires var db' := s3.node.db; s3.disk == Garbage(s2.disk, db', Task(Flushing, Collecting))
    ensures At(db.mems, db.imm) <= Stored(s3.disk.tables, s3.node.db.current)
    ensures s3.disk.logs.Keys == {db.mem}
  {
    var f := db.next;
    if At(db.mems, db.imm) != {} {
      assert f in s3.node.db.current && f in s3.disk.tables && s3.disk.tables[f] == At(db.mems, db.imm);
    }
  }

  // ------------------------------------------------------------------ a compaction

  // What DoCompactionWork writes, in one table.
  ghost function KeptOf(p: Picked): (s: Entries) {
    Elements(Kept(p.es, p.smallest, p.base, |p.es|))
  }

  lemma CompactionIsBegun(s: State, db: Db, p: Picked, events: seq<Event>) returns (s': State)
    requires s.node == Up(db) && db.tasks == [] && !db.scheduled && !db.bgError && db.imm.None? && IsPick(db, s.disk.tables, p)
    ensures var p' := p.(outputs := {db.next});
            && s'.node == Up(Calling(db.(next := db.next + 1, pending := db.pending + {db.next}), Task(Compacting(p'), Quiet)))
            && s' == s.(node := s'.node, disk := s.disk.(tables := s.disk.tables[db.next := KeptOf(p)]), floor := p.smallest)
    ensures Run(s, [Schedule] + ([BeginCompaction(0, p)] + ([WriteOutput(0, KeptOf(p))] + events))) == Run(s', events)
  {
    hide Run, IsPick, KeptOf;
    var d, f := s.disk, db.next;
    PickHasNoOutputs(db, d.tables, p);
    var p' := p.(outputs := {f});
    assert {} + {f} == {f};
    var db1, db2 := Calling(db, Task(Waiting, Quiet)), Calling(db, Task(Compacting(p), Quiet));
    var db3 := Calling(db.(next := f + 1, pending := db.pending + {f}), Task(Compacting(p'), Quiet));
    var d1 := d.(tables := d.tables[f := KeptOf(p)]);
    assert db.tasks + [Task(Waiting, Quiet)] == [Task(Waiting, Quiet)];
    var s1, s2 := s.(node := Up(db1)), s.(node := Up(db2), floor := p.smallest);
    s' := s.(node := Up(db3), disk := d1, floor := p.smallest);
    OnlyTaskIs(db1, db2.tasks[0]);
    OnlyTaskIs(db2, db3.tasks[0]);
    SamePick(db, db1, d.tables, p);
    ClientRun(s, db, Schedule, [BeginCompaction(0, p)] + ([WriteOutput(0, KeptOf(p))] + events));
    TaskRun(s1, db1, BeginCompaction(0, p), [WriteOutput(0, KeptOf(p))] + events, db2, d);
    TaskRun(s2, db2, WriteOutput(0, KeptOf(p)), events, db3, d1);
  }

  lemma PickHasNoOutputs(db: Db, tables: Store, p: Picked)
    requires IsPick(db, tables, p)
    ensures p.outputs == {}
  {
  }

  lemma SamePick(db: Db, db': Db, tables: Store, p: Picked)
    requires IsPick(db, tables, p) && db' == db.(scheduled := db'.scheduled, tasks := db'.tasks)
    ensures IsPick(db', tables, p)
  {
  }

  lemma CompactionIsWritten(s: State, db: Db, p: Picked, events: seq<Event>) returns (s': State)
    requires s.node == Up(db) && db.tasks == [Task(Compacting(p), Quiet)] && db.descriptor == s.disk.named
    requires OutputsAreKept(s.disk.tables, p)
    ensures var e := Edit(p.inputs, p.outputs, db.logNumber, db.next, db.lastSequence);
            && s'.node == Up(db.(tasks := [Task(Compacting(p), Installing(e, false, true))]))
            && s' == s.(node := s'.node, disk := s.disk.(manifest := ManifestWith(s.disk.manifest, e)))
    ensures Run(s, [CommitCompaction(0)] + ([WriteManifest(0)] + events)) == Run(s', events)
  {
    hide Run, OutputsAreKept;
    var e, d := Edit(p.inputs, p.outputs, db.logNumber, db.next, db.lastSequence), s.disk;
    var db1 := db.(tasks := [Task(Compacting(p), Installing(e, false, false))]);
    var db2 := db.(tasks := [Task(Compacting(p), Installing(e, false, true))]);
    var d2 := d.(manifest := ManifestWith(d.manifest, e));
    var s1 := s.(node := Up(db1));
    s' := s.(node := Up(db2), disk := d2);
    OnlyTaskIs(db, db1.tasks[0]);
    OnlyTaskIs(db1, db2.tasks[0]);
    TaskRun(s, db, CommitCompaction(0), [WriteManifest(0)] + events, db1, d);
    TaskRun(s1, db1, WriteManifest(0), events, db2, d2);
  }

  lemma CompactionIsInstalled(s: State, db: Db, p: Picked, e: Edit, events: seq<Event>) returns (s': State)
    requires s.node == Up(db) && db.tasks == [Task(Compacting(p), Installing(e, false, true))] && db.scheduled && !db.bgError
    ensures var db' := db.(current := Applied(db.current, e), logNumber := e.logNumber, pending := db.pending - p.outputs);
            && s'.node == Up(db'.(scheduled := false, tasks := []))
            && s' == s.(node := s'.node, disk := Garbage(s.disk, db', Task(Finished, Collecting)))
    ensures Run(s, [InstallOk(0)] + ([Collect(0)] + ([EndCall(0)] + events))) == Run(s', events)
  {
    hide Run, Garbage;
    var db' := db.(current := Applied(db.current, e), logNumber := e.logNumber, pending := db.pending - p.outputs);
    var db1, db2 := db'.(tasks := [Task(Finished, Collecting)]), db'.(tasks := [Task(Finished, Quiet)]);
    var d' := Garbage(s.disk, db', Task(Finished, Collecting));
    SameGarbage(s.disk, db1, db', Task(Finished, Collecting));
    assert db2.tasks[..0] + db2.tasks[1..] == [];
    var s1, s2 := s.(node := Up(db1)), s.(node := Up(db2), disk := d');
    s' := s.(node := Up(db'.(scheduled := false, tasks := [])), disk := d');
    OnlyTaskIs(db, db1.tasks[0]);
    OnlyTaskIs(db', db1.tasks[0]);
    OnlyTaskIs(db1, db2.tasks[0]);
    TaskRun(s, db, InstallOk(0), [Collect(0)] + ([EndCall(0)] + events), db1, s.disk);
    TaskRun(s1, db1, Collect(0), [EndCall(0)] + events, db2, d');
    TaskRun(s2, db2, EndCall(0), events, db'.(scheduled := false, tasks := []), d');
  }

  ghost function CompactionOf(p: Picked): (events: seq<Event>) {
    [Schedule] + ([BeginCompaction(0, p)] + ([WriteOutput(0, KeptOf(p))] + ([CommitCompaction(0)] + ([WriteManifest(0)]
    + ([InstallOk(0)] + ([Collect(0)] + ([EndCall(0)] + [])))))))
  }

  // And a compaction that the version set picks is carried out: its inputs leave the current
  // version, and the directory too but for those that a reader is using, a table of what the drop
  // rule keeps takes their place, and every read is as before.
  lemma ACompactionCompletes(s: State, p: Picked)
    requires Inv(s) && s.node.Up? && s.node.db.tasks == [] && !s.node.db.bgError && s.node.db.imm.None?
    requires IsPick(s.node.db, s.disk.tables, p)
    ensures var db, s' := s.node.db, Run(s, CompactionOf(p));
            && s'.node.Up? && s'.node.db.tasks == [] && s'.node.db.current == db.current - p.inputs + {db.next}
            && db.next in s'.disk.tables && s'.disk.tables[db.next] == KeptOf(p)
            && (forall f | f in p.inputs && f in s'.disk.tables :: f in db.pending || exists r :: r in db.readers && f in r.files)
            && s'.acked == s.acked && forall k :: Get(s', k) == Get(s, k)
  {
    RunKeepsInv(s, CompactionOf(p));
    hide Run, KeptOf, CompactionOf;
    var db := s.node.db;
    IdleDb(s, db);
    NextIsNew(s, db);
    var s' := CompactionRun(s, db, p);
    hide IsPick;
    forall k
      ensures Get(s', k) == Get(s, k)
    {
      GetIsCorrect(s, k);
      GetIsCorrect(s', k);
      hide Get, Inv;
    }
    hide Inv, Get;
  }

  lemma CompactionRun(s: State, db: Db, p: Picked) returns (s': State)
    requires s.node == Up(db) && db.tasks == [] && !db.scheduled && !db.bgError && db.imm.None? && IsPick(db, s.disk.tables, p)
    requires db.descriptor == s.disk.named && db.next !in db.current
    ensures s' == Run(s, CompactionOf(p)) && s'.acked == s.acked && s'.history == s.history
    ensures s'.node.Up? && s'.node.db.tasks == [] && s'.node.db.current == db.current - p.inputs + {db.next}
    ensures s'.node.db.lastSequence == db.lastSequence
    ensures db.next in s'.disk.tables && s'.disk.tables[db.next] == KeptOf(p)
    ensures forall f | f in p.inputs && f in s'.disk.tables :: f in db.pending || exists r :: r in db.readers && f in r.files
  {
    PickIsCurrent(db, s.disk.tables, p);
    hide Run, KeptOf, IsPick, OutputsAreKept, Garbage;
    var s1 := CompactionIsBegun(s, db, p, [CommitCompaction(0)] + ([WriteManifest(0)] + ([InstallOk(0)] + ([Collect(0)] + ([EndCall(0)] + [])))));
    var p' := p.(outputs := {db.next});
    OneOutput(s1.disk.tables, p', db.next);
    var s2 := CompactionIsWritten(s1, s1.node.db, p', [InstallOk(0)] + ([Collect(0)] + ([EndCall(0)] + [])));
    var e := Edit(p.inputs, {db.next}, db.logNumber, db.next + 1, db.lastSequence);
    var s3 := CompactionIsInstalled(s2, s2.node.db, p', e, []);
    RunNone(s3);
    assert db.pending + {db.next} - {db.next} <= db.pending;
    SameGarbage(s2.disk, s3.node.db, s3.node.db.(scheduled := true, tasks := [Task(Compacting(p'), Installing(e, false, true))]), Task(Finished, Collecting));
    CompactionLeaves(s, db, p, e, s2, s3);
    s' := s3;
  }

  lemma NextIsNew(s: State, db: Db)
    requires Inv(s) && s.node == Up(db)
    ensures db.next !in db.current
  {
    hide Views, Layers, LogsMatch, WriterFits, Covered, Published, EditFits, CompactionFits, ReadersFit, Numbered, RiskInv, Stored;
  }

  lemma PickIsCurrent(db: Db, tables: Store, p: Picked)
    requires IsPick(db, tables, p)
    ensures p.inputs <= db.current
  {
  }

  lemma OneOutput(tables: Store, p: Picked, f: nat)
    requires p.outputs == {f} && f in tables && tables[f] == KeptOf(p)
    ensures OutputsAreKept(tables, p)
  {
    StoredOne(tables, f);
  }

  lemma CompactionLeaves(s: State, db: Db, p: Picked, e: Edit, s2: State, s3: State)
    requires s.node == Up(db) && !db.bgError && db.next !in db.current && p.inputs <= db.current
    requires e.removed == p.inputs && e.added == {db.next}
    requires s2.disk.tables == s.disk.tables[db.next := KeptOf(p)]
    requires s3.node.Up? && !s3.node.db.bgError && s3.node.db.current == Applied(db.current, e)
    requires s3.node.db.readers == db.readers && s3.node.db.pending <= db.pending
    requires var db' := s3.node.db; s3.disk == Garbage(s2.disk, db', Task(Finished, Collecting))
    ensures s3.node.db.current == db.current - p.inputs + {db.next}
    ensures db.next in s3.disk.tables && s3.disk.tables[db.next] == KeptOf(p)
    ensures forall f | f in p.inputs && f in s3.disk.tables :: f in db.pending || exists r :: r in db.readers && f in r.files
  {
    hide KeptOf;
  }
}
