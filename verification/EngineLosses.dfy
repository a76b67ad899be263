// What crashes can take of what was acknowledged: which entries are at risk, and that no step
// of the engine puts one at risk that was not (db/db_impl.cc: Write, CompactMemTable, Recover;
// db/version_set.cc: LogAndApply).
module EngineLosses {
  import opened DbFormat
  import opened Lookup
  import opened Compaction
  import opened EngineModel
  import opened EngineViews
  import opened EngineInvariant
  import opened EngineBackground
  import opened EngineRisk
  import opened EngineRecovery

  // In a log that recovery replays, appended there while the writer was out of step with the
  // file or, where the machine may go down, not synced, and in no table of the descriptor.
  ghost function Losable(d: Disk, k: Risk, machine: bool): (s: Entries) {
    Gone(d, Doubtful(k, machine) * Replayed(d))
  }

  ghost function AtRisk(s: State, machine: bool): (r: Entries) {
    if s.node.Up? then Losable(s.disk, s.node.db.risk, machine) else {}
  }

  lemma CrashTakesLosable(d: Disk, k: Risk, crashed: bool, lost: Entries, found: Entries, machine: bool)
    requires MayLose(d, k, crashed, lost, found) && (crashed ==> machine)
    ensures Gone(d, lost) <= Losable(d, k, machine)
  {
    hide Stored, ToReplay;
  }

  lemma OpeningTakesNothing(s: State, o: Opening, ev: Event, machine: bool)
    requires OpenEnabled(o, s.disk, ev)
    ensures var s' := OpenStep(s, o, ev); s'.history == s.history && s'.acked == s.acked && AtRisk(s', machine) == {}
  {
    hide Stored, Replayed;
  }

  // ------------------------------------------------------------------ writers

  lemma WriteIsNew(db: Db, d: Disk, h: Entries, acked: Entries, floor: nat)
    requires UpInv(db, d, h, acked, floor)
    ensures db.writer.Logging? ==> db.writer.batch !! h
  {
    WhatHolds(db, d, h, acked, floor);
    hide UpInv;
    if db.writer.Logging? {
      BatchIsApart(h, {}, {}, db.writer.batch, db.lastSequence, db.writer.last);
    }
  }

  // A log that gains a batch, or is new, has recovery replay nothing else.
  lemma MoreToReplay(d: Disk, n: nat, more: Entries)
    ensures Replayed(d.(logs := d.logs[n := At(d.logs, Some(n)) + more])) <= Replayed(d) + more
  {
    var d' := d.(logs := d.logs[n := At(d.logs, Some(n)) + more]);
    forall e | e in Replayed(d')
      ensures e in Replayed(d) + more
    {
      var f :| f in ToReplay(d'.logs, d.manifest) && e in d'.logs[f];
      if e !in more {
        assert f in ToReplay(d.logs, d.manifest) && e in d.logs[f];
      }
    }
  }

  lemma ClientPutsNothingAtRisk(s: State, db: Db, ev: Event, machine: bool)
    requires s.node == Up(db) && UpInv(db, s.disk, s.history, s.acked, s.floor) && ClientEnabled(db, ev)
    ensures var s' := ClientStep(s, db, ev);
            s.history <= s'.history && s.acked <= s'.acked && AtRisk(s', machine) * s.history <= AtRisk(s, machine)
  {
    WriteIsNew(db, s.disk, s.history, s.acked, s.floor);
    if ev.AppendOk? {
      MoreToReplay(s.disk, db.mem, db.writer.batch);
    } else if ev.SwitchMemtable? {
      FreshLog(db, s.disk, s.history, s.acked, s.floor);
      MoreToReplay(s.disk, db.next, {});
    }
    hide UpInv, IsBatch, BatchInserted, Stored, ToReplay;
  }

  lemma FreshLog(db: Db, d: Disk, h: Entries, acked: Entries, floor: nat)
    requires UpInv(db, d, h, acked, floor)
    ensures At(d.logs, Some(db.next)) == {}
  {
    hide Views, Layers, Covered, ReadersFit, CompactionFits, EditFits, Published, FilesInv, WriterFits;
  }

  // ------------------------------------------------------------------ the background thread

  lemma TaskKeepsRiskSame(db: Db, d: Disk, ev: Event)
    requires UsesTask(ev) && ev.i < |db.tasks| && TaskEnabled(db, d, db.tasks[ev.i], ev)
    ensures TaskStep(db, d, ev).0.risk == db.risk
  {
    hide IsPick, OutputsAreKept, Garbage;
  }

  // The descriptor's tables stay, and logs only go.
  lemma OtherTasksPutNothingAtRisk(d: Disk, d': Disk, k: Risk, machine: bool)
    requires d'.manifest == d.manifest && Agree(d.tables, d'.tables, d.manifest.files)
    requires forall n | n in d'.logs :: n in d.logs && d'.logs[n] == d.logs[n]
    ensures Losable(d', k, machine) <= Losable(d, k, machine)
  {
    StoredSame(d.tables, d'.tables, d.manifest.files);
    forall e | e in Replayed(d')
      ensures e in Replayed(d)
    {
      var n :| n in ToReplay(d'.logs, d'.manifest) && e in d'.logs[n];
      assert n in ToReplay(d.logs, d.manifest) && e in d.logs[n];
    }
    hide Stored, Replayed;
  }

  lemma LogsOnlyGo(db: Db, d: Disk, ev: Event)
    requires UsesTask(ev) && ev.i < |db.tasks| && TaskEnabled(db, d, db.tasks[ev.i], ev)
    ensures var d' := TaskStep(db, d, ev).1; forall n | n in d'.logs :: n in d.logs && d'.logs[n] == d.logs[n]
  {
    hide IsPick, OutputsAreKept;
  }

  // A flush edit adds a table to the descriptor, and its log is replayed no more.
  lemma FlushPutsNothingAtRisk(db: Db, d: Disk, h: Entries, acked: Entries, floor: nat, i: nat, machine: bool)
    requires UpInv(db, d, h, acked, floor)
    requires i < |db.tasks| && TaskEnabled(db, d, db.tasks[i], WriteManifest(i)) && db.tasks[i].stage.flush
    ensures Losable(d.(manifest := ManifestWith(d.manifest, db.tasks[i].stage.edit)), db.risk, machine)
            <= Losable(d, db.risk, machine)
  {
    var e := db.tasks[i].stage.edit;
    OnlyTask(db, i, db.tasks[i]);
    FlushFacts(db, d, h, acked, floor, db.tasks[i]);
    LogNumbers(db, d, h, acked, floor, db.tasks[i]);
    StoredSubset(d.tables, d.manifest.files, Applied(d.manifest.files, e));
    StoredSubset(d.logs, ToReplay(d.logs, ManifestWith(d.manifest, e)), ToReplay(d.logs, d.manifest));
    hide UpInv, Stored;
  }

  lemma LogNumbers(db: Db, d: Disk, h: Entries, acked: Entries, floor: nat, t: Task)
    requires UpInv(db, d, h, acked, floor) && t == TheTask(db) && t.stage.Installing? && t.stage.flush
    ensures d.manifest.prevLog == 0 && 0 !in d.logs && d.manifest.logNumber <= t.stage.edit.logNumber
  {
    hide Views, Layers, Covered, ReadersFit, CompactionFits, Published, FilesInv, WriterFits, Stored;
  }

  // What a compaction takes out of the descriptor is in no memtable, and so in no log that is
  // replayed, even if its edit takes the log number back after a flush that was not installed.
  lemma CompactionPutsNothingAtRisk(db: Db, d: Disk, h: Entries, acked: Entries, floor: nat, i: nat, db': Db, d': Disk,
                                    machine: bool)
    requires UpInv(db, d, h, acked, floor)
    requires i < |db.tasks| && TaskEnabled(db, d, db.tasks[i], WriteManifest(i)) && !db.tasks[i].stage.flush
    requires db' == WithTask(db, i, db.tasks[i].(stage := db.tasks[i].stage.(durable := true)))
    requires d' == d.(manifest := ManifestWith(d.manifest, db.tasks[i].stage.edit))
    ensures Losable(d', db.risk, machine) <= Losable(d, db.risk, machine)
  {
    OnlyTask(db, i, db'.tasks[i]);
    CompactionFacts(db, d, h, acked, floor, db.tasks[i]);
    CompactionReachesManifest(db, d, h, acked, floor, i, db', d');
    hide PickedFits, OutputsAreKept, IsHistory;
    var recent, e := Recent(db.mems, db.mem, db.imm, db.writer), db.tasks[i].stage.edit;
    ReplayedIsRecent(db, d, h, acked, floor, recent);
    ReplayedIsRecent(db', d', h, acked, floor, recent);
    hide UpInv;
    var files := d.manifest.files;
    StoredUnion(d.tables, files - e.removed, e.removed);
    StoredSubset(d.tables, files, files - e.removed + e.removed);
    StoredApplied(d.tables, files, e);
    hide Stored, Replayed;
  }

  lemma ReplayedIsRecent(db: Db, d: Disk, h: Entries, acked: Entries, floor: nat, recent: Entries)
    requires UpInv(db, d, h, acked, floor) && recent == Recent(db.mems, db.mem, db.imm, db.writer)
    ensures Replayed(d) <= recent <= Replayed(d) + Stored(d.tables, d.manifest.files)
  {
    LogsHoldMemtables(db, d, recent, Replayed(d), Stored(d.tables, d.manifest.files));
    hide Views, Layers, Covered, ReadersFit, CompactionFits, Published, FilesInv, WriterFits, Stored;
  }

  lemma TaskPutsNothingAtRisk(db: Db, d: Disk, h: Entries, acked: Entries, floor: nat, ev: Event, machine: bool)
    requires UpInv(db, d, h, acked, floor)
    requires UsesTask(ev) && ev.i < |db.tasks| && TaskEnabled(db, d, db.tasks[ev.i], ev)
    ensures var r := TaskStep(db, d, ev); Losable(r.1, r.0.risk, machine) <= Losable(d, db.risk, machine)
  {
    var r := TaskStep(db, d, ev);
    TaskKeepsRiskSame(db, d, ev);
    if ev.WriteManifest? {
      if db.tasks[ev.i].stage.flush {
        FlushPutsNothingAtRisk(db, d, h, acked, floor, ev.i, machine);
      } else {
        CompactionPutsNothingAtRisk(db, d, h, acked, floor, ev.i, r.0, r.1, machine);
      }
    } else {
      DescriptorTablesStay(db, d, ev, r.1);
      LogsOnlyGo(db, d, ev);
      OtherTasksPutNothingAtRisk(d, r.1, db.risk, machine);
    }
    hide UpInv, Losable, TaskEnabled;
  }
}
