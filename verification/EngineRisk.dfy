// What a crash may take from the logs or bring back in them: which steps keep the part of the
// invariant that a crash relies on, and what the crash leaves (db/db_impl.cc: Write, Recover;
// db/log_writer.cc).
module EngineRisk {
  import opened DbFormat
  import opened Lookup
  import opened Compaction
  import opened EngineModel
  import opened EngineViews
  import opened EngineInvariant
  import opened EngineBackground

  // ------------------------------------------------------------------ Write

  // A new batch is newer than everything, in its log or out of it.
  lemma BatchIsApart(h: Entries, recent: Entries, man: Entries, batch: Entries, bound: nat, last: nat)
    requires Upto(h, bound) && IsBatch(batch, bound, last) && recent <= h && man <= h
    ensures (h + batch) - (recent + batch) == h - recent && man - (recent + batch) == man - recent
    ensures Below(h, batch) && batch !! h
  {
    assert forall e | e in batch :: e.key.sequence > bound;
    assert forall e | e in h :: e.key.sequence <= bound;
  }

  lemma AppendedFits(recent: Entries, man: Entries, h: Entries, floor: nat, imm: Entries, failed: Entries,
                     failedBefore: Entries, batch: Entries, bound: nat, last: nat)
    requires RiskFits(recent, man, h, floor, imm, failed, failedBefore, bound)
    requires IsBatch(batch, bound, last) && Upto(h, bound) && recent + man <= h
    ensures RiskFits(recent + batch, man, h + batch, floor, imm, failed, failedBefore, bound)
  {
    BatchIsApart(h, recent, man, batch, bound, last);
    HistoryExtends(h + failed + failedBefore, bound, batch, last);
    assert h + failed + failedBefore + batch == h + batch + failed + failedBefore;
    hide Equiv;
  }

  // A batch that failed may be in the log all the same.
  lemma FailedFits(recent: Entries, man: Entries, h: Entries, floor: nat, imm: Entries, failed: Entries,
                   failedBefore: Entries, batch: Entries, bound: nat, last: nat)
    requires RiskFits(recent, man, h, floor, imm, failed, failedBefore, bound)
    requires IsBatch(batch, bound, last) && Upto(h, bound) && recent + man <= h && imm <= h
    ensures RiskFits(recent, man, h, floor, imm, failed + batch, failedBefore, last)
  {
    HistoryExtends(h + failed + failedBefore, bound, batch, last);
    assert h + failed + failedBefore + batch == h + (failed + batch) + failedBefore;
    hide Equiv;
  }

  lemma WhatHolds(db: Db, d: Disk, h: Entries, acked: Entries, floor: nat)
    requires UpInv(db, d, h, acked, floor)
    ensures var recent := Recent(db.mems, db.mem, db.imm, db.writer);
            recent + Stored(d.tables, d.manifest.files) <= h && IsHistory(h) && At(db.mems, db.imm) <= recent
    ensures db.imm != Some(db.mem) && db.mem < db.next && (db.imm.Some? ==> db.imm.value < db.mem)
    ensures db.writer.Logging? ==> Upto(h, db.lastSequence)
    ensures db.writer.Logging? || db.writer.Logged? || db.writer.Inserted? ==>
              IsBatch(db.writer.batch, db.lastSequence, db.writer.last)
    ensures Layers(Stored(d.tables, db.current), At(db.mems, db.imm), At(db.mems, Some(db.mem)) + Unsaved(db.writer))
  {
    hide Stored, Equiv, Layers, CompactionFits, EditFits, FilesInv, ReadersFit;
  }

  lemma WriteKeepsRisk(db: Db, d: Disk, h: Entries, acked: Entries, floor: nat, db': Db, h': Entries)
    requires UpInv(db, d, h, acked, floor) && RiskInv(db, d, h, floor) && db.writer.Logging?
    requires h' == h + db.writer.batch && exists sync :: db' == Appended(db, sync)
    ensures RiskInv(db', d, h', floor)
  {
    WhatHolds(db, d, h, acked, floor);
    hide RiskFits, UpInv, Stored, IsBatch, Upto, Layers, IsHistory;
    var recent, imm := Recent(db.mems, db.mem, db.imm, db.writer), At(db.mems, db.imm);
    AppendedFits(recent, Stored(d.tables, d.manifest.files), h, floor, imm, At(db.risk.failed, Some(db.mem)),
                 At(db.risk.failed, db.imm), db.writer.batch, db.lastSequence, db.writer.last);
    assert Recent(db'.mems, db'.mem, db'.imm, db'.writer) == recent + db.writer.batch;
  }

  lemma FailureKeepsRisk(db: Db, d: Disk, h: Entries, acked: Entries, floor: nat, db': Db, agrees: bool, bgError: bool)
    requires UpInv(db, d, h, acked, floor) && RiskInv(db, d, h, floor) && db.writer.Logging?
    requires db' == AppendFailing(db, agrees).(bgError := bgError)
    ensures RiskInv(db', d, h, floor)
  {
    WhatHolds(db, d, h, acked, floor);
    hide RiskFits, UpInv, Stored, IsBatch, Upto, Layers, IsHistory;
    var recent, imm := Recent(db.mems, db.mem, db.imm, db.writer), At(db.mems, db.imm);
    var failed, before := At(db.risk.failed, Some(db.mem)), At(db.risk.failed, db.imm);
    FailedFits(recent, Stored(d.tables, d.manifest.files), h, floor, imm, failed, before, db.writer.batch, db.lastSequence,
               db.writer.last);
    assert Recent(db'.mems, db'.mem, db'.imm, db'.writer) == recent;
    assert At(db'.risk.failed, Some(db.mem)) == failed + db.writer.batch && At(db'.risk.failed, db.imm) == before;
  }

  lemma LaterBound(recent: Entries, man: Entries, h: Entries, floor: nat, imm: Entries, failed: Entries,
                   failedBefore: Entries, bound: nat, bound': nat)
    requires RiskFits(recent, man, h, floor, imm, failed, failedBefore, bound) && bound <= bound'
    ensures RiskFits(recent, man, h, floor, imm, failed, failedBefore, bound')
  {
    hide Equiv;
  }

  lemma PublishKeepsRisk(db: Db, d: Disk, h: Entries, acked: Entries, floor: nat, db': Db)
    requires UpInv(db, d, h, acked, floor) && RiskInv(db, d, h, floor) && ClientEnabled(db, Publish)
    requires db' == db.(lastSequence := db.writer.last, writer := Idle)
    ensures RiskInv(db', d, h, floor)
  {
    WhatHolds(db, d, h, acked, floor);
    assert Recent(db'.mems, db'.mem, db'.imm, db'.writer) == Recent(db.mems, db.mem, db.imm, db.writer);
    LaterBound(Recent(db.mems, db.mem, db.imm, db.writer), Stored(d.tables, d.manifest.files), h, floor, At(db.mems, db.imm),
               At(db.risk.failed, Some(db.mem)), At(db.risk.failed, db.imm), Used(db.writer, db.lastSequence), db.writer.last);
    hide RiskFits, UpInv, Stored, Upto, Layers, IsHistory, Recent;
  }

  // The new log begins with nothing at risk, and it is the old one that is settled next.
  lemma SwitchKeepsRisk(db: Db, d: Disk, h: Entries, acked: Entries, floor: nat, db': Db)
    requires UpInv(db, d, h, acked, floor) && RiskInv(db, d, h, floor) && ClientEnabled(db, SwitchMemtable)
    requires db' == Switched(db)
    ensures RiskInv(db', d, h, floor)
  {
    WhatHolds(db, d, h, acked, floor);
    var recent, failed := Recent(db.mems, db.mem, db.imm, db.writer), At(db.risk.failed, Some(db.mem));
    assert Recent(db'.mems, db'.mem, db'.imm, db'.writer) == recent;
    assert At(db'.risk.failed, Some(db'.mem)) == {} && At(db'.risk.failed, db'.imm) == failed;
    SwitchedFits(recent, Stored(d.tables, d.manifest.files), h, floor, failed, At(db'.mems, db'.imm), db.lastSequence);
    hide RiskFits, UpInv, Stored, Layers, IsHistory, Recent;
  }

  lemma SwitchedFits(recent: Entries, man: Entries, h: Entries, floor: nat, failed: Entries, imm: Entries, bound: nat)
    requires RiskFits(recent, man, h, floor, {}, failed, {}, bound)
    ensures RiskFits(recent, man, h, floor, imm, {}, failed, bound)
  {
    assert h + failed + {} == h + {} + failed && recent + failed + {} == recent + {} + failed;
    hide Equiv;
  }

  // ------------------------------------------------------------------ the background thread

  lemma TablesKeepRisk(db: Db, d: Disk, h: Entries, floor: nat, db': Db, d': Disk)
    requires RiskInv(db, d, h, floor) && d'.manifest == d.manifest && Agree(d.tables, d'.tables, d.manifest.files)
    requires db'.mems == db.mems && db'.mem == db.mem && db'.imm == db.imm && db'.writer == db.writer
    requires db'.risk == db.risk && db'.lastSequence == db.lastSequence
    ensures RiskInv(db', d', h, floor)
  {
    StoredSame(d.tables, d'.tables, d.manifest.files);
    hide RiskFits, Stored;
  }

  lemma FloorKeepsRisk(db: Db, d: Disk, h: Entries, floor: nat, db': Db, floor': nat)
    requires RiskInv(db, d, h, floor) && floor <= floor'
    requires db'.mems == db.mems && db'.mem == db.mem && db'.imm == db.imm && db'.writer == db.writer
    requires db'.risk == db.risk && db'.lastSequence == db.lastSequence
    ensures RiskInv(db', d, h, floor')
  {
    var recent, man := Recent(db.mems, db.mem, db.imm, db.writer), Stored(d.tables, d.manifest.files);
    EquivWeakens(man - recent, h - recent, floor, floor');
    hide Stored, Equiv, Recent;
  }

  // The table of a flush holds only what is in the immutable memtable.
  lemma FlushDurableKeepsRisk(db: Db, d: Disk, h: Entries, acked: Entries, floor: nat, i: nat, db': Db, d': Disk)
    requires UpInv(db, d, h, acked, floor) && RiskInv(db, d, h, floor)
    requires i < |db.tasks| && TaskEnabled(db, d, db.tasks[i], WriteManifest(i)) && db.tasks[i].stage.flush
    requires db' == WithTask(db, i, db.tasks[i].(stage := db.tasks[i].stage.(durable := true)))
    requires d' == d.(manifest := ManifestWith(d.manifest, db.tasks[i].stage.edit))
    ensures RiskInv(db', d', h, floor)
  {
    hide RiskFits;
    OnlyTask(db, i, db'.tasks[i]);
    FlushFacts(db, d, h, acked, floor, db.tasks[i]);
    hide UpInv, Stored, Recent;
    var recent, e := Recent(db.mems, db.mem, db.imm, db.writer), db.tasks[i].stage.edit;
    var man, imm := Stored(d.tables, d.manifest.files), At(db.mems, db.imm);
    FlushedView(d.tables, d.manifest.files, e, recent, imm);
    AlreadyRecent(recent, man, h, floor, imm, At(db.risk.failed, Some(db.mem)), At(db.risk.failed, db.imm),
                  Used(db.writer, db.lastSequence));
  }

  lemma AlreadyRecent(recent: Entries, man: Entries, h: Entries, floor: nat, imm: Entries, failed: Entries,
                      failedBefore: Entries, bound: nat)
    requires RiskFits(recent, man, h, floor, imm, failed, failedBefore, bound) && imm <= recent
    ensures RiskFits(recent, man + imm, h, floor, imm, failed, failedBefore, bound)
  {
    assert man + imm - recent == man - recent;
    hide Equiv;
  }

  lemma FlushFacts(db: Db, d: Disk, h: Entries, acked: Entries, floor: nat, t: Task)
    requires UpInv(db, d, h, acked, floor) && t == TheTask(db) && t.stage.Installing? && t.stage.flush
    ensures t.stage.edit.removed == {} && Stored(d.tables, t.stage.edit.added) == At(db.mems, db.imm)
    ensures At(db.mems, db.imm) <= Recent(db.mems, db.mem, db.imm, db.writer)
  {
    hide Stored, Equiv, Layers, CompactionFits, FilesInv, ReadersFit, LogsMatch, Views, Covered, Published, WriterFits;
  }

  // Replacing inputs by outputs changes no read of the settled history.
  lemma SettledView(tables: Store, files: set<nat>, p: Picked, e: Edit, recent: Entries, h: Entries, floor: nat)
    requires IsHistory(h) && Stored(tables, files) <= h && Equiv(Stored(tables, files) - recent, h - recent, floor)
    requires Sorted(p.es) && Elements(p.es) == Stored(tables, p.inputs) && p.smallest <= floor && p.inputs <= files
    requires Stored(tables, p.inputs) !! recent && Placed(p, Stored(tables, files - p.inputs))
    requires (forall x | x in p.deep :: !p.base(x.key.user))
    requires e.removed == p.inputs && e.added == p.outputs && OutputsAreKept(tables, p)
    ensures Equiv(Stored(tables, Applied(files, e)) - recent, h - recent, floor)
  {
    var rest := Stored(tables, files - p.inputs) - recent;
    StoredUnion(tables, files - p.inputs, p.inputs);
    assert files - p.inputs + p.inputs == files;
    StoredApplied(tables, files, e);
    KeptIsPart(p);
    assert rest + Elements(p.es) == Stored(tables, files) - recent;
    assert rest + Elements(KeptBy(p)) == Stored(tables, Applied(files, e)) - recent;
    assert Placed(p, rest);
    hide Stored, Sorted, Equiv, Placed;
    CompactionIsInvisible(rest, p, h - recent, floor);
  }

  lemma CompactionDurableKeepsRisk(db: Db, d: Disk, h: Entries, acked: Entries, floor: nat, i: nat, db': Db, d': Disk)
    requires UpInv(db, d, h, acked, floor) && RiskInv(db, d, h, floor)
    requires i < |db.tasks| && TaskEnabled(db, d, db.tasks[i], WriteManifest(i)) && !db.tasks[i].stage.flush
    requires db' == WithTask(db, i, db.tasks[i].(stage := db.tasks[i].stage.(durable := true)))
    requires d' == d.(manifest := ManifestWith(d.manifest, db.tasks[i].stage.edit))
    ensures RiskInv(db', d', h, floor)
  {
    hide RiskFits;
    OnlyTask(db, i, db'.tasks[i]);
    CompactionFacts(db, d, h, acked, floor, db.tasks[i]);
    hide UpInv, Stored, PickedFits, OutputsAreKept, Recent;
    var recent, p, e := Recent(db.mems, db.mem, db.imm, db.writer), db.tasks[i].job.picked, db.tasks[i].stage.edit;
    SettledByCompaction(d.tables, d.manifest.files, p, e, db, recent, h, floor, db.current);
  }

  lemma SettledByCompaction(tables: Store, files: set<nat>, p: Picked, e: Edit, db: Db, recent: Entries, h: Entries,
                            floor: nat, current: set<nat>)
    requires RiskFits(recent, Stored(tables, files), h, floor, At(db.mems, db.imm), At(db.risk.failed, Some(db.mem)),
                      At(db.risk.failed, db.imm), Used(db.writer, db.lastSequence))
    requires IsHistory(h) && Stored(tables, files) <= h && Stored(tables, p.inputs) !! recent
    requires PickedFits(p, recent, tables, current, files, false, floor)
    requires e.removed == p.inputs && e.added == p.outputs && OutputsAreKept(tables, p)
    ensures RiskFits(recent, Stored(tables, Applied(files, e)), h, floor, At(db.mems, db.imm),
                     At(db.risk.failed, Some(db.mem)), At(db.risk.failed, db.imm), Used(db.writer, db.lastSequence))
  {
    SettledView(tables, files, p, e, recent, h, floor);
    hide Stored, Equiv, Sorted, Placed, IsHistory, Below, Upto, OutputsAreKept, At;
  }

  lemma CompactionFacts(db: Db, d: Disk, h: Entries, acked: Entries, floor: nat, t: Task)
    requires UpInv(db, d, h, acked, floor) && t == TheTask(db) && t.stage.Installing? && !t.stage.flush && !t.stage.durable
    ensures t.job.Compacting?
    ensures var recent, p, e := Recent(db.mems, db.mem, db.imm, db.writer), t.job.picked, t.stage.edit;
            && IsHistory(h) && Stored(d.tables, d.manifest.files) <= h && Stored(d.tables, p.inputs) !! recent
            && PickedFits(p, recent, d.tables, db.current, d.manifest.files, false, floor)
            && e.removed == p.inputs && e.added == p.outputs && OutputsAreKept(d.tables, p)
  {
    InputsAreOlder(d.tables, t.job.picked.inputs, db.current, At(db.mems, db.imm), At(db.mems, Some(db.mem)) + Unsaved(db.writer));
    hide Stored, Equiv, Layers, ReadersFit, LogsMatch, Covered, Published, WriterFits, OutputsAreKept, Sorted, Placed;
  }

  lemma InputsAreOlder(tables: Store, inputs: set<nat>, current: set<nat>, imm: Entries, top: Entries)
    requires inputs <= current && Layers(Stored(tables, current), imm, top)
    ensures Stored(tables, inputs) !! imm + top
  {
    StoredSubset(tables, inputs, current);
  }

  // The immutable memtable joins what the descriptor's tables stand for.
  lemma SettledFits(recent: Entries, recent': Entries, man: Entries, h: Entries, floor: nat, imm: Entries, top: Entries,
                    failed: Entries, failedBefore: Entries, bound: nat)
    requires RiskFits(recent, man, h, floor, imm, failed, failedBefore, bound) && IsHistory(h)
    requires recent == recent' + imm && recent' == top && Below(imm, top) && imm <= man && recent + man <= h
    ensures RiskFits(recent', man, h, floor, {}, failed, {}, bound)
  {
    assert imm !! top;
    assert man - recent' == (man - recent) + imm && h - recent' == (h - recent) + imm;
    EquivExtends(man - recent, h - recent, floor, imm);
    assert IsHistory(h + failed + {});
    hide Equiv;
  }

  lemma FlushInstalledKeepsRisk(db: Db, d: Disk, h: Entries, acked: Entries, floor: nat, i: nat, db': Db)
    requires UpInv(db, d, h, acked, floor) && RiskInv(db, d, h, floor)
    requires i < |db.tasks| && TaskEnabled(db, d, db.tasks[i], InstallOk(i)) && db.tasks[i].stage.flush
    requires db' == Installed(db, i)
    ensures RiskInv(db', d, h, floor)
  {
    hide RiskFits;
    OnlyTask(db, i, db'.tasks[i]);
    WhatHolds(db, d, h, acked, floor);
    FlushFacts(db, d, h, acked, floor, db.tasks[i]);
    FlushIsSynced(db, d, db.tasks[i]);
    hide UpInv, IsHistory, FilesInv;
    var top := At(db.mems, Some(db.mem)) + Unsaved(db.writer);
    var recent, imm := Recent(db.mems, db.mem, db.imm, db.writer), At(db.mems, db.imm);
    StoredSubset(d.tables, db.tasks[i].stage.edit.added, d.manifest.files);
    hide Stored;
    assert recent == top + imm && Recent(db'.mems, db'.mem, db'.imm, db'.writer) == top && Below(imm, top);
    SettledFits(recent, top, Stored(d.tables, d.manifest.files), h, floor, imm, top, At(db.risk.failed, Some(db.mem)),
                At(db.risk.failed, db.imm), Used(db.writer, db.lastSequence));
  }

  // ------------------------------------------------------------------ every step of a running engine

  lemma ClientKeepsRisk(s: State, db: Db, ev: Event)
    requires s.node == Up(db) && UpInv(db, s.disk, s.history, s.acked, s.floor) && RiskInv(db, s.disk, s.history, s.floor)
    requires ClientEnabled(db, ev)
    ensures var s' := ClientStep(s, db, ev); s'.node.Up? && RiskInv(s'.node.db, s'.disk, s'.history, s'.floor)
  {
    hide UpInv, RiskFits, Stored;
    var d, h, a, f, s' := s.disk, s.history, s.acked, s.floor, ClientStep(s, db, ev);
    match ev
    case AppendOk(sync) => WriteKeepsRisk(db, d, h, a, f, s'.node.db, s'.history);
    case AppendFailed(agrees) => FailureKeepsRisk(db, d, h, a, f, s'.node.db, agrees, db.bgError);
    case SyncFailed => FailureKeepsRisk(db, d, h, a, f, s'.node.db, true, true);
    case Publish => PublishKeepsRisk(db, d, h, a, f, s'.node.db);
    case SwitchMemtable => SwitchKeepsRisk(db, d, h, a, f, s'.node.db);
    case Insert => InsertedElsewhere(db, d, h, a, f);
    case _ =>
  }

  lemma InsertedElsewhere(db: Db, d: Disk, h: Entries, acked: Entries, floor: nat)
    requires UpInv(db, d, h, acked, floor) && db.writer.Logged?
    ensures At(BatchInserted(db).mems, db.imm) == At(db.mems, db.imm)
    ensures Recent(BatchInserted(db).mems, db.mem, db.imm, BatchInserted(db).writer) ==
            Recent(db.mems, db.mem, db.imm, db.writer)
  {
    WhatHolds(db, d, h, acked, floor);
    hide UpInv;
  }

  // Nobody's table is written over or removed.
  lemma DescriptorTablesStay(db: Db, d: Disk, ev: Event, d': Disk)
    requires FilesInv(db, d, TheTask(db)) && UsesTask(ev) && ev.i < |db.tasks| && TaskEnabled(db, d, db.tasks[ev.i], ev)
    requires d' == TaskStep(db, d, ev).1 && !ev.WriteManifest?
    ensures d'.manifest == d.manifest && Agree(d.tables, d'.tables, d.manifest.files)
  {
    OnlyTask(db, ev.i, db.tasks[ev.i]);
    if ev.Collect? {
      NeededTablesStay(db, d, db.tasks[ev.i]);
    }
    hide IsPick, OutputsAreKept, StageFits, Synced;
  }

  lemma TaskKeepsRisk(db: Db, d: Disk, h: Entries, a: Entries, f: nat, ev: Event, db': Db, d': Disk)
    requires UpInv(db, d, h, a, f) && RiskInv(db, d, h, f)
    requires UsesTask(ev) && ev.i < |db.tasks| && TaskEnabled(db, d, db.tasks[ev.i], ev) && (db', d') == TaskStep(db, d, ev)
    ensures RiskInv(db', d', h, if ev.BeginCompaction? then ev.picked.smallest else f)
  {
    if ev.WriteManifest? {
      if db.tasks[ev.i].stage.flush {
        FlushDurableKeepsRisk(db, d, h, a, f, ev.i, db', d');
      } else {
        CompactionDurableKeepsRisk(db, d, h, a, f, ev.i, db', d');
      }
    } else if ev.InstallOk? && db.tasks[ev.i].stage.flush {
      FlushInstalledKeepsRisk(db, d, h, a, f, ev.i, db');
    } else {
      DescriptorTablesStay(db, d, ev, d');
      OtherTaskStep(db, d, ev, db', d');
      TablesKeepRisk(db, d, h, f, db', d');
      if ev.BeginCompaction? {
        FloorRises(db, d, h, a, f, ev);
        FloorKeepsRisk(db, d, h, f, db', ev.picked.smallest);
      }
    }
    hide UpInv, RiskInv, TaskStep, TaskEnabled;
  }

  lemma OtherTaskStep(db: Db, d: Disk, ev: Event, db': Db, d': Disk)
    requires UsesTask(ev) && ev.i < |db.tasks| && TaskEnabled(db, d, db.tasks[ev.i], ev) && (db', d') == TaskStep(db, d, ev)
    requires !(ev.InstallOk? && db.tasks[ev.i].stage.flush)
    ensures db'.mems == db.mems && db'.mem == db.mem && db'.imm == db.imm && db'.writer == db.writer
    ensures db'.risk == db.risk && db'.lastSequence == db.lastSequence
  {
    hide IsPick, OutputsAreKept, Garbage;
  }

  lemma FloorRises(db: Db, d: Disk, h: Entries, acked: Entries, floor: nat, ev: Event)
    requires UpInv(db, d, h, acked, floor) && ev.BeginCompaction?
    requires ev.i < |db.tasks| && TaskEnabled(db, d, db.tasks[ev.i], ev)
    ensures floor <= ev.picked.smallest
  {
    hide Stored, Equiv, Layers, LogsMatch, CompactionFits, EditFits, FilesInv, ReadersFit, Views;
  }
}
