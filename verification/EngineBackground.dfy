// The steps of the background thread keep the invariant (db/db_impl.cc: CompactMemTable,
// DoCompactionWork, InstallCompactionResults, DeleteObsoleteFiles, BackgroundCall; and
// VersionSet::LogAndApply).
module EngineBackground {
  import opened DbFormat
  import opened Lookup
  import opened Compaction
  import opened EngineModel
  import opened EngineViews
  import opened EngineInvariant

  // There is only one task to take the step.
  lemma OnlyTask(db: Db, i: nat, t': Task)
    requires OneTask(db.scheduled, db.tasks) && i < |db.tasks|
    ensures i == 0 && db.tasks[i] == TheTask(db)
    ensures OneTask(db.scheduled, db.tasks[i := t']) && db.tasks[i := t'][0] == t'
  {
  }

  // Tables nobody needs may come and go.
  lemma TablesMayChange(db: Db, d: Disk, t: Task, h: Entries, floor: nat, recent: Entries, tables': Store)
    requires Agree(d.tables, tables', Needed(db, d.manifest, t))
    requires EditFits(t, d.tables, At(db.mems, db.imm), db.mem, db.logNumber, db.lastSequence, d.manifest)
    requires CompactionFits(t, recent, d.tables, db.current, d.manifest.files, floor)
    requires ReadersFit(db.readers, db.mems, db.mem, d.tables, h, db.lastSequence)
    ensures Stored(tables', db.current) == Stored(d.tables, db.current)
    ensures Stored(tables', d.manifest.files) == Stored(d.tables, d.manifest.files)
    ensures EditFits(t, tables', At(db.mems, db.imm), db.mem, db.logNumber, db.lastSequence, d.manifest)
    ensures CompactionFits(t, recent, tables', db.current, d.manifest.files, floor)
    ensures ReadersFit(db.readers, db.mems, db.mem, tables', h, db.lastSequence)
  {
    var needed := Needed(db, d.manifest, t);
    forall fs: set<nat> | fs <= needed
      ensures Stored(tables', fs) == Stored(d.tables, fs)
    {
      StoredSame(d.tables, tables', fs);
    }
    hide Stored, Layers, Sorted, Placed, Upto;
    forall r | r in db.readers
      ensures ReaderFits(r, db.mems, db.mem, tables', h, db.lastSequence)
    {
      assert r.files <= needed;
      assert ReaderFits(r, db.mems, db.mem, d.tables, h, db.lastSequence);
    }
  }

  // ------------------------------------------------------------------ BackgroundCall

  lemma NothingToDoKeeps(db: Db, d: Disk, h: Entries, acked: Entries, floor: nat, i: nat, db': Db)
    requires UpInv(db, d, h, acked, floor) && i < |db.tasks| && TaskEnabled(db, d, db.tasks[i], NothingToDo(i))
    requires db' == WithTask(db, i, Task(Finished, Quiet))
    ensures UpInv(db', d, h, acked, floor)
  {
    OnlyTask(db, i, Task(Finished, Quiet));
    hide Views, Layers, CompactionFits, ReadersFit, LogsMatch, Published, Covered, Stored, OneTask, WriterFits;
  }

  lemma EndCallKeeps(db: Db, d: Disk, h: Entries, acked: Entries, floor: nat, i: nat, db': Db)
    requires UpInv(db, d, h, acked, floor) && i < |db.tasks| && TaskEnabled(db, d, db.tasks[i], EndCall(i))
    requires db' == db.(tasks := db.tasks[..i] + db.tasks[i + 1..], scheduled := false)
    ensures UpInv(db', d, h, acked, floor)
  {
    hide Views, Layers, CompactionFits, ReadersFit, LogsMatch, Published, Covered, Stored, WriterFits;
  }

  // ------------------------------------------------------------------ CompactMemTable

  lemma BeginFlushKeeps(db: Db, d: Disk, h: Entries, acked: Entries, floor: nat, i: nat, db': Db)
    requires UpInv(db, d, h, acked, floor) && i < |db.tasks| && TaskEnabled(db, d, db.tasks[i], BeginFlush(i))
    requires db' == FlushBegun(db, i)
    ensures UpInv(db', d, h, acked, floor)
  {
    OnlyTask(db, i, db'.tasks[i]);
    hide Views, Layers, PickedFits, ReadersFit, Published, Covered, Stored, OneTask, WriterFits;
  }

  lemma BuildTableKeeps(db: Db, d: Disk, h: Entries, acked: Entries, floor: nat, i: nat, db': Db, d': Disk)
    requires UpInv(db, d, h, acked, floor) && i < |db.tasks| && TaskEnabled(db, d, db.tasks[i], BuildTable(i))
    requires db' == WithTask(db, i, Task(db.tasks[i].job, Built(db.tasks[i].stage.file)))
    requires d' == d.(tables := d.tables[db.tasks[i].stage.file := At(db.mems, db.imm)])
    ensures UpInv(db', d', h, acked, floor)
  {
    OnlyTask(db, i, db'.tasks[i]);
    var recent := Recent(db.mems, db.mem, db.imm, db.writer);
    TablesMayChange(db, d, TheTask(db), h, floor, recent, d'.tables);
    hide Views, Layers, PickedFits, ReadersFit, Published, Covered, Stored, OneTask, WriterFits, LogsMatch;
  }

  lemma BuildFailedKeeps(db: Db, d: Disk, h: Entries, acked: Entries, floor: nat, i: nat, db': Db)
    requires UpInv(db, d, h, acked, floor) && i < |db.tasks| && TaskEnabled(db, d, db.tasks[i], BuildFailed(i))
    requires db' == FlushFailed(db, i, db.pending - {db.tasks[i].stage.file})
    ensures UpInv(db', d, h, acked, floor)
  {
    OnlyTask(db, i, db'.tasks[i]);
    hide Views, Layers, PickedFits, ReadersFit, Published, Covered, Stored, OneTask, WriterFits, LogsMatch;
  }

  lemma CommitFlushFiles(db: Db, d: Disk, i: nat, db': Db)
    requires FilesInv(db, d, TheTask(db)) && i < |db.tasks| && TaskEnabled(db, d, db.tasks[i], CommitFlush(i))
    requires db' == FlushCommitted(db, i) && db.mem < db.next
    ensures FilesInv(db', d, TheTask(db'))
  {
    OnlyTask(db, i, db'.tasks[i]);
    hide OneTask;
  }

  lemma CommitFlushKeeps(db: Db, d: Disk, h: Entries, acked: Entries, floor: nat, i: nat, db': Db)
    requires UpInv(db, d, h, acked, floor) && i < |db.tasks| && TaskEnabled(db, d, db.tasks[i], CommitFlush(i))
    requires db' == FlushCommitted(db, i)
    ensures UpInv(db', d, h, acked, floor)
  {
    OnlyTask(db, i, db'.tasks[i]);
    CommitFlushFiles(db, d, i, db');
    StoredOne(d.tables, db.tasks[i].stage.file);
    StoredNone(d.tables);
    hide Views, Layers, PickedFits, ReadersFit, Covered, Stored, OneTask, WriterFits, LogsMatch, FilesInv;
  }

  // ------------------------------------------------------------------ DoCompactionWork

  // What is in the memtables is newer than every input.
  lemma PickFits(p: Picked, recent: Entries, tables: Store, current: set<nat>)
    requires Sorted(p.es) && Elements(p.es) == Stored(tables, p.inputs) && p.inputs <= current == p.inputVersion
    requires p.outputs == {} && (forall e | e in p.deep :: !p.base(e.key.user))
    requires Placed(p, Stored(tables, current - p.inputs)) && Below(Stored(tables, current), recent)
    ensures PickedFits(p, recent, tables, current, current, false, p.smallest)
  {
    StoredSubset(tables, p.inputs, current);
    assert forall i | 0 <= i < |p.es| :: p.es[i] in Elements(p.es);
    assert forall e | e in recent :: NewerThan(e, p.es);
  }

  lemma BeginCompactionKeeps(db: Db, d: Disk, h: Entries, acked: Entries, floor: nat, i: nat, p: Picked, db': Db)
    requires UpInv(db, d, h, acked, floor) && i < |db.tasks| && TaskEnabled(db, d, db.tasks[i], BeginCompaction(i, p))
    requires db' == WithTask(db, i, Task(Compacting(p), Quiet))
    ensures UpInv(db', d, h, acked, p.smallest)
  {
    OnlyTask(db, i, db'.tasks[i]);
    var recent, cur := Recent(db.mems, db.mem, db.imm, db.writer), Stored(d.tables, db.current);
    var man := Stored(d.tables, d.manifest.files);
    assert floor <= p.smallest <= db.lastSequence;
    assert recent == At(db.mems, Some(db.mem)) + Unsaved(db.writer);
    PickFits(p, recent, d.tables, db.current);
    EquivWeakens(recent + cur, h, floor, p.smallest);
    EquivWeakens(recent + man, h, floor, p.smallest);
    hide Equiv, Layers, PickedFits, ReadersFit, Covered, Stored, OneTask, WriterFits, LogsMatch, Published, IsHistory;
  }

  lemma WriteOutputFiles(db: Db, d: Disk, i: nat, content: Entries, db': Db, d': Disk)
    requires FilesInv(db, d, TheTask(db)) && i < |db.tasks| && TaskEnabled(db, d, db.tasks[i], WriteOutput(i, content))
    requires db' == OutputWritten(db, i) && d' == d.(tables := d.tables[db.next := content])
    ensures FilesInv(db', d', TheTask(db'))
  {
    OnlyTask(db, i, db'.tasks[i]);
    hide OneTask;
  }

  lemma WriteOutputKeeps(db: Db, d: Disk, h: Entries, acked: Entries, floor: nat, i: nat, content: Entries, db': Db, d': Disk)
    requires UpInv(db, d, h, acked, floor) && i < |db.tasks| && TaskEnabled(db, d, db.tasks[i], WriteOutput(i, content))
    requires db' == OutputWritten(db, i) && d' == d.(tables := d.tables[db.next := content])
    ensures UpInv(db', d', h, acked, floor)
  {
    OnlyTask(db, i, db'.tasks[i]);
    var recent := Recent(db.mems, db.mem, db.imm, db.writer);
    WriteOutputFiles(db, d, i, content, db', d');
    TablesMayChange(db, d, TheTask(db), h, floor, recent, d'.tables);
    hide Views, Layers, ReadersFit, Published, Covered, Stored, OneTask, WriterFits, LogsMatch, Sorted, Numbered, Guarded;
  }

  lemma CompactionFailedKeeps(db: Db, d: Disk, h: Entries, acked: Entries, floor: nat, i: nat, db': Db)
    requires UpInv(db, d, h, acked, floor) && i < |db.tasks| && db.tasks[i].job.Compacting?
    requires db' == CompactionAbandoned(db, i)
    ensures UpInv(db', d, h, acked, floor)
  {
    OnlyTask(db, i, db'.tasks[i]);
    hide Views, Layers, PickedFits, ReadersFit, Published, Covered, Stored, OneTask, WriterFits, LogsMatch;
  }

  lemma CommitCompactionKeeps(db: Db, d: Disk, h: Entries, acked: Entries, floor: nat, i: nat, db': Db)
    requires UpInv(db, d, h, acked, floor) && i < |db.tasks| && TaskEnabled(db, d, db.tasks[i], CommitCompaction(i))
    requires db' == CompactionCommitted(db, i)
    ensures UpInv(db', d, h, acked, floor)
  {
    OnlyTask(db, i, db'.tasks[i]);
    hide Views, Layers, PickedFits, ReadersFit, Covered, Stored, OneTask, WriterFits, OutputsAreKept;
  }

  // ------------------------------------------------------------------ LogAndApply

  // What an edit does to the contents of a set of files.
  lemma StoredApplied(tables: Store, files: set<nat>, e: Edit)
    ensures Stored(tables, Applied(files, e)) == Stored(tables, files - e.removed) + Stored(tables, e.added)
  {
    StoredUnion(tables, files - e.removed, e.added);
  }

  // Replacing the immutable memtable by its table changes no view.
  lemma FlushedView(tables: Store, files: set<nat>, e: Edit, recent: Entries, imm: Entries)
    requires e.removed == {} && Stored(tables, e.added) == imm && imm <= recent
    ensures Stored(tables, Applied(files, e)) == Stored(tables, files) + imm
    ensures recent + Stored(tables, Applied(files, e)) == recent + Stored(tables, files)
  {
    StoredApplied(tables, files, e);
    assert files - {} == files;
  }

  // Replacing the inputs by the outputs changes no read.
  lemma CompactedView(tables: Store, files: set<nat>, p: Picked, e: Edit, recent: Entries, h: Entries, floor: nat)
    requires IsHistory(h) && recent + Stored(tables, files) <= h && Equiv(recent + Stored(tables, files), h, floor)
    requires Sorted(p.es) && Elements(p.es) == Stored(tables, p.inputs) && p.smallest <= floor && p.inputs <= files
    requires Placed(p, recent) && Placed(p, Stored(tables, files - p.inputs))
    requires (forall x | x in p.deep :: !p.base(x.key.user))
    requires e.removed == p.inputs && e.added == p.outputs && OutputsAreKept(tables, p)
    ensures Stored(tables, Applied(files, e)) <= Stored(tables, files)
    ensures Equiv(recent + Stored(tables, Applied(files, e)), h, floor)
  {
    var others := Stored(tables, files - p.inputs);
    StoredUnion(tables, files - p.inputs, p.inputs);
    assert files - p.inputs + p.inputs == files;
    StoredApplied(tables, files, e);
    KeptIsPart(p);
    var rest := recent + others;
    assert rest + Elements(p.es) == recent + Stored(tables, files);
    assert rest + Elements(KeptBy(p)) == recent + Stored(tables, Applied(files, e));
    hide Stored, Sorted, Equiv;
    CompactionIsInvisible(rest, p, h, floor);
  }

  lemma ManifestFiles(db: Db, d: Disk, i: nat, db': Db, d': Disk)
    requires FilesInv(db, d, TheTask(db)) && i < |db.tasks| && TaskEnabled(db, d, db.tasks[i], WriteManifest(i))
    requires db' == WithTask(db, i, db.tasks[i].(stage := db.tasks[i].stage.(durable := true)))
    requires d' == d.(manifest := ManifestWith(d.manifest, db.tasks[i].stage.edit))
    ensures FilesInv(db', d', TheTask(db'))
  {
    OnlyTask(db, i, db'.tasks[i]);
    hide OneTask;
  }

  lemma FlushedManifest(recent: Entries, imm: Entries, man: Entries, man': Entries, h: Entries, m: Manifest, m': Manifest,
                        last: nat, cur: Entries)
    requires man' == man + imm && Covered(recent, man, h, m) && Published(cur, man, imm, last, m)
    requires m.lastSequence <= m'.lastSequence <= last && Upto(imm, m'.lastSequence)
    ensures Covered(recent, man', h, m') && Published(cur, man', imm, last, m')
  {
  }

  // The logs before mem_'s are no longer replayed: what the only one of them held is in the
  // new table.
  lemma FlushedLogs(logs: Store, mems: Store, mem: nat, imm: Option<nat>, unsaved: Entries, logNumber: nat, m: Manifest,
                    man: Entries, next: nat, m': Manifest, man': Entries)
    requires LogsMatch(logs, mems, mem, imm, unsaved, logNumber, m, man, next)
    requires m'.logNumber == mem && m'.prevLog == 0 && man' == man + At(mems, imm)
    ensures LogsMatch(logs, mems, mem, imm, unsaved, logNumber, m', man', next)
  {
  }

  lemma FlushedCompaction(p: Picked, recent: Entries, tables: Store, current: set<nat>, mfiles: set<nat>, floor: nat, e: Edit)
    requires PickedFits(p, recent, tables, current, mfiles, false, floor)
    requires Stored(tables, e.added) <= recent && e.added !! p.outputs && e.removed == {}
    ensures PickedFits(p, recent, tables, current, Applied(mfiles, e), false, floor)
  {
    StoredUnion(tables, mfiles - p.inputs, e.added);
    StoredSubset(tables, Applied(mfiles, e) - p.inputs, mfiles - p.inputs + e.added);
    hide Stored, Sorted, NewerThan;
  }

  lemma FlushReachesManifest(db: Db, d: Disk, h: Entries, acked: Entries, floor: nat, i: nat, db': Db, d': Disk)
    requires UpInv(db, d, h, acked, floor) && i < |db.tasks| && TaskEnabled(db, d, db.tasks[i], WriteManifest(i))
    requires db.tasks[i].stage.flush
    requires db' == WithTask(db, i, db.tasks[i].(stage := db.tasks[i].stage.(durable := true)))
    requires d' == d.(manifest := ManifestWith(d.manifest, db.tasks[i].stage.edit))
    ensures UpInv(db', d', h, acked, floor)
  {
    OnlyTask(db, i, db'.tasks[i]);
    ManifestFiles(db, d, i, db', d');
    var t, e := db.tasks[i], db.tasks[i].stage.edit;
    var recent, imm := Recent(db.mems, db.mem, db.imm, db.writer), At(db.mems, db.imm);
    var man, man' := Stored(d.tables, d.manifest.files), Stored(d.tables, d'.manifest.files);
    FlushedView(d.tables, d.manifest.files, e, recent, imm);
    FlushedManifest(recent, imm, man, man', h, d.manifest, d'.manifest, db.lastSequence, Stored(d.tables, db.current));
    FlushedLogs(d.logs, db.mems, db.mem, db.imm, Unsaved(db.writer), db.logNumber, d.manifest, man, db.next, d'.manifest, man');
    if t.job.Compacting? {
      FlushedCompaction(t.job.picked, recent, d.tables, db.current, d.manifest.files, floor, e);
    }
    hide Layers, PickedFits, ReadersFit, Stored, OneTask, WriterFits, Equiv, IsHistory, LogsMatch, FilesInv, Covered, Published;
  }

  lemma CompactionReachesManifest(db: Db, d: Disk, h: Entries, acked: Entries, floor: nat, i: nat, db': Db, d': Disk)
    requires UpInv(db, d, h, acked, floor) && i < |db.tasks| && TaskEnabled(db, d, db.tasks[i], WriteManifest(i))
    requires !db.tasks[i].stage.flush
    requires db' == WithTask(db, i, db.tasks[i].(stage := db.tasks[i].stage.(durable := true)))
    requires d' == d.(manifest := ManifestWith(d.manifest, db.tasks[i].stage.edit))
    ensures UpInv(db', d', h, acked, floor)
  {
    OnlyTask(db, i, db'.tasks[i]);
    ManifestFiles(db, d, i, db', d');
    var p, e := db.tasks[i].job.picked, db.tasks[i].stage.edit;
    var recent := Recent(db.mems, db.mem, db.imm, db.writer);
    CompactedView(d.tables, d.manifest.files, p, e, recent, h, floor);
    hide Layers, ReadersFit, Stored, OneTask, WriterFits, Equiv, IsHistory, Placed, Sorted, OutputsAreKept, FilesInv;
  }

  lemma FlushInstalledFiles(db: Db, d: Disk, i: nat, db': Db)
    requires FilesInv(db, d, TheTask(db)) && i < |db.tasks| && TaskEnabled(db, d, db.tasks[i], InstallOk(i))
    requires db.tasks[i].stage.flush && db' == Installed(db, i)
    ensures FilesInv(db', d, TheTask(db'))
  {
    OnlyTask(db, i, db'.tasks[i]);
    hide OneTask;
  }

  lemma FlushInstalledCompaction(p: Picked, recent: Entries, tables: Store, current: set<nat>, mfiles: set<nat>, floor: nat,
                                 e: Edit, recent': Entries, current': set<nat>)
    requires PickedFits(p, recent, tables, current, mfiles, false, floor)
    requires recent' <= recent && Stored(tables, e.added) <= recent && e.added !! p.outputs && e.removed == {}
    requires current' == Applied(current, e)
    ensures PickedFits(p, recent', tables, current', mfiles, false, floor)
  {
    StoredUnion(tables, current - p.inputs, e.added);
    StoredSubset(tables, current' - p.inputs, current - p.inputs + e.added);
    hide Stored, Sorted, NewerThan;
  }

  lemma FlushInstalled(db: Db, d: Disk, h: Entries, acked: Entries, floor: nat, i: nat, db': Db)
    requires UpInv(db, d, h, acked, floor) && i < |db.tasks| && TaskEnabled(db, d, db.tasks[i], InstallOk(i))
    requires db.tasks[i].stage.flush && db' == Installed(db, i)
    ensures UpInv(db', d, h, acked, floor)
  {
    OnlyTask(db, i, db'.tasks[i]);
    FlushInstalledFiles(db, d, i, db');
    FlushIsSynced(db, d, db.tasks[i]);
    FlushInstalledContents(db, d, db.tasks[i], h, acked, floor, db',
                           Recent(db.mems, db.mem, db.imm, db.writer), Recent(db'.mems, db'.mem, db'.imm, db'.writer),
                           Stored(d.tables, db.current), Stored(d.tables, db'.current), Stored(d.tables, d.manifest.files));
    hide FilesInv, ContentsInv;
  }

  lemma FlushInstalledContents(db: Db, d: Disk, t: Task, h: Entries, acked: Entries, floor: nat, db': Db,
                               recent: Entries, recent': Entries, cur: Entries, cur': Entries, man: Entries)
    requires ContentsInv(db, d, t, h, acked, floor, recent, cur, man)
    requires recent == Recent(db.mems, db.mem, db.imm, db.writer) && recent' == Recent(db.mems, db.mem, None, db.writer)
    requires cur == Stored(d.tables, db.current) && cur' == Stored(d.tables, db'.current)
    requires man == Stored(d.tables, d.manifest.files)
    requires t.stage.Installing? && t.stage.flush
    requires var e := t.stage.edit;
             && db' == db.(current := Applied(db.current, e), logNumber := e.logNumber, imm := None, tasks := db'.tasks)
             && e.added <= d.manifest.files && d.manifest.logNumber == e.logNumber && d.manifest.lastSequence == e.lastSequence
             && (t.job.Compacting? ==> e.added !! t.job.picked.outputs)
    ensures ContentsInv(db', d, Task(t.job, Collecting), h, acked, floor, recent', cur', man)
  {
    hide Layers, ReadersFit, Stored, WriterFits, Views, PickedFits, Covered, LogsMatch;
    var e, imm, top := t.stage.edit, At(db.mems, db.imm), At(db.mems, Some(db.mem)) + Unsaved(db.writer);
    FlushedView(d.tables, db.current, e, recent, imm);
    StoredSubset(d.tables, e.added, d.manifest.files);
    assert recent == recent' + imm && At(db'.mems, db'.imm) == {};
    FlushInstalledViews(recent, recent', top, imm, cur, cur', man, h, floor, d.manifest);
    FlushInstalledLogs(d.logs, db.mems, db.mem, db.imm, Unsaved(db.writer), db.logNumber, d.manifest, man, db.next);
    if t.job.Compacting? {
      FlushInstalledCompaction(t.job.picked, recent, d.tables, db.current, d.manifest.files, floor, e, recent', db'.current);
    }
  }

  lemma FlushIsSynced(db: Db, d: Disk, t: Task)
    requires FilesInv(db, d, t) && t.stage.Installing? && t.stage.flush && t.stage.durable
    ensures var e := t.stage.edit;
            e.added <= d.manifest.files && d.manifest.logNumber == e.logNumber && d.manifest.lastSequence == e.lastSequence
    ensures t.job.Compacting? ==> t.stage.edit.added !! t.job.picked.outputs
  {
    hide OneTask, Exist, Numbered;
  }

  // The immutable memtable leaves the memtables as its table enters the current version.
  lemma FlushInstalledViews(recent: Entries, recent': Entries, top: Entries, imm: Entries, cur: Entries, cur': Entries,
                            man: Entries, h: Entries, floor: nat, m: Manifest)
    requires recent == recent' + imm && cur' == cur + imm && imm <= man && Upto(imm, m.lastSequence)
    requires Views(recent, cur, man, h, floor) && Layers(cur, imm, top) && Covered(recent, man, h, m)
    ensures Views(recent', cur', man, h, floor) && Layers(cur', {}, top) && Covered(recent', man, h, m)
  {
    assert recent' + cur' == recent + cur && recent' + man == recent + man;
  }

  lemma FlushInstalledLogs(logs: Store, mems: Store, mem: nat, imm: Option<nat>, unsaved: Entries, logNumber: nat, m: Manifest,
                           man: Entries, next: nat)
    requires LogsMatch(logs, mems, mem, imm, unsaved, logNumber, m, man, next) && m.logNumber == mem
    ensures LogsMatch(logs, mems, mem, None, unsaved, mem, m, man, next)
  {
  }

  lemma CompactionInstalledFiles(db: Db, d: Disk, i: nat, db': Db)
    requires FilesInv(db, d, TheTask(db)) && i < |db.tasks| && TaskEnabled(db, d, db.tasks[i], InstallOk(i))
    requires !db.tasks[i].stage.flush && db' == Installed(db, i)
    requires db.tasks[i].stage.edit.added == db.tasks[i].job.picked.outputs
    ensures FilesInv(db', d, TheTask(db'))
  {
    OnlyTask(db, i, db'.tasks[i]);
    hide OneTask;
  }

  lemma CompactionInstalled(db: Db, d: Disk, h: Entries, acked: Entries, floor: nat, i: nat, db': Db)
    requires UpInv(db, d, h, acked, floor) && i < |db.tasks| && TaskEnabled(db, d, db.tasks[i], InstallOk(i))
    requires !db.tasks[i].stage.flush && db' == Installed(db, i)
    ensures UpInv(db', d, h, acked, floor)
  {
    OnlyTask(db, i, db'.tasks[i]);
    CompactionInstalledFiles(db, d, i, db');
    var p, e := db.tasks[i].job.picked, db.tasks[i].stage.edit;
    var recent := Recent(db.mems, db.mem, db.imm, db.writer);
    CompactedView(d.tables, db.current, p, e, recent, h, floor);
    hide Equiv, ReadersFit, Stored, OneTask, WriterFits, FilesInv, Covered, LogsMatch, PickedFits, IsHistory;
  }

  lemma FlushNotInstalled(db: Db, d: Disk, h: Entries, acked: Entries, floor: nat, i: nat, db': Db)
    requires UpInv(db, d, h, acked, floor) && i < |db.tasks| && TaskEnabled(db, d, db.tasks[i], InstallFailed(i))
    requires db.tasks[i].stage.flush && db' == FlushFailed(db, i, db.pending)
    ensures UpInv(db', d, h, acked, floor)
  {
    OnlyTask(db, i, db'.tasks[i]);
    hide Views, Layers, PickedFits, ReadersFit, Published, Covered, Stored, OneTask, WriterFits, LogsMatch;
  }

  // ------------------------------------------------------------------ DeleteObsoleteFiles

  // No table that anyone needs is removed: not one of a version somebody still reads, not an
  // output of the running compaction, and not a flushed table that is about to be installed,
  // because the only background task is the one that collects.
  lemma NeededTablesStay(db: Db, d: Disk, t: Task)
    requires FilesInv(db, d, t) && t.stage.Collecting?
    ensures Agree(d.tables, Garbage(d, db, t).tables, Needed(db, d.manifest, t))
  {
    hide OneTask, StageFits, Numbered;
  }

  // The logs a recovery would replay are exactly the ones kept.
  lemma NeededLogsStay(db: Db, d: Disk, t: Task, man: Entries)
    requires LogsMatch(d.logs, db.mems, db.mem, db.imm, Unsaved(db.writer), db.logNumber, d.manifest, man, db.next)
    ensures LogsMatch(Garbage(d, db, t).logs, db.mems, db.mem, db.imm, Unsaved(db.writer), db.logNumber, d.manifest, man,
                      db.next)
    ensures ToReplay(Garbage(d, db, t).logs, d.manifest) == ToReplay(d.logs, d.manifest)
  {
  }

  lemma CollectKeeps(db: Db, d: Disk, h: Entries, acked: Entries, floor: nat, i: nat, db': Db, d': Disk)
    requires UpInv(db, d, h, acked, floor) && i < |db.tasks| && TaskEnabled(db, d, db.tasks[i], Collect(i))
    requires db' == AfterCollect(db, i) && d' == Garbage(d, db, db.tasks[i])
    ensures UpInv(db', d', h, acked, floor)
  {
    OnlyTask(db, i, db'.tasks[i]);
    var t, recent := db.tasks[i], Recent(db.mems, db.mem, db.imm, db.writer);
    NeededTablesStay(db, d, t);
    NeededLogsStay(db, d, t, Stored(d.tables, d.manifest.files));
    TablesMayChange(db, d, t, h, floor, recent, d'.tables);
    assert d'.manifest == d.manifest && d'.tables == Garbage(d, db, t).tables && d'.logs == Garbage(d, db, t).logs;
    assert Needed(db', d'.manifest, db'.tasks[0]) == Needed(db, d.manifest, t);
    hide Views, Layers, PickedFits, ReadersFit, Published, Covered, Stored, OneTask, WriterFits, LogsMatch, Garbage;
  }
}
