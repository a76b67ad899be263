// Crashes and DB::Open (db/db_impl.cc: Recover, RecoverLogFile, DB::Open).
module EngineRecovery {
  import opened DbFormat
  import opened Lookup
  import opened Compaction
  import opened EngineModel
  import opened EngineViews
  import opened EngineInvariant

  // ------------------------------------------------------------------ a crash

  // Between them the logs to replay and the tables of the descriptor hold what the memtables
  // held.
  lemma LogsHoldMemtables(db: Db, d: Disk, recent: Entries, logged: Entries, man: Entries)
    requires recent == Recent(db.mems, db.mem, db.imm, db.writer) && man == Stored(d.tables, d.manifest.files)
    requires logged == Stored(d.logs, ToReplay(d.logs, d.manifest))
    requires LogsMatch(d.logs, db.mems, db.mem, db.imm, Unsaved(db.writer), db.logNumber, d.manifest, man, db.next)
    ensures logged <= recent && recent <= logged + man
  {
  }

  // What is lost comes out of the logs, and what is found was in them.
  lemma CrashedLogs(d: Disk, k: Risk, machine: bool, lost: Entries, found: Entries)
    requires MayLose(d, k, machine, lost, found)
    ensures Replayed(Crashed(d, k, lost, found)) == Replayed(d) - lost + found
  {
    var d', ns := Crashed(d, k, lost, found), ToReplay(d.logs, d.manifest);
    assert ToReplay(d'.logs, d'.manifest) == ns;
    forall e | e in found
      ensures e in Replayed(d')
    {
      var n :| n in ns && n in k.failed && e in k.failed[n];
      assert e in d'.logs[n];
    }
    forall e | e in Replayed(d) - lost
      ensures e in Replayed(d')
    {
      var n :| n in ns && e in d.logs[n];
      assert e in d'.logs[n];
    }
  }

  lemma FoundHadFailed(db: Db, d: Disk, man: Entries, machine: bool, lost: Entries, found: Entries)
    requires LogsMatch(d.logs, db.mems, db.mem, db.imm, Unsaved(db.writer), db.logNumber, d.manifest, man, db.next)
    requires MayLose(d, db.risk, machine, lost, found)
    ensures found <= At(db.risk.failed, Some(db.mem)) + At(db.risk.failed, db.imm)
  {
  }

  // With what the tables of the descriptor stand for, any part of the rest is as good as
  // another.
  lemma CrashedView(recent: Entries, logged: Entries, man: Entries, h: Entries, floor: nat, imm: Entries, failed: Entries,
                    failedBefore: Entries, bound: nat, lost: Entries, found: Entries)
    requires RiskFits(recent, man, h, floor, imm, failed, failedBefore, bound) && man <= h
    requires logged <= recent <= logged + man && recent <= h && lost <= logged && found <= failed + failedBefore
    ensures var h' := h - (lost - man) + found;
            IsHistory(h') && logged - lost + found + man <= h' && Equiv(logged - lost + found + man, h', floor)
  {
    var rest := (recent - (lost - man)) + found;
    assert logged - lost + found + man == (man - recent) + rest;
    assert h - (lost - man) + found == (h - recent) + rest;
    EquivExtends(man - recent, h - recent, floor, rest);
    hide Equiv;
  }

  // What a crash leaves is a database from which everything comes back that the logs keep:
  // all of the history but what it took from them, and what it brought back.
  lemma CrashKeeps(db: Db, d: Disk, h: Entries, acked: Entries, floor: nat, machine: bool, lost: Entries, found: Entries)
    requires UpInv(db, d, h, acked, floor) && RiskInv(db, d, h, floor) && MayLose(d, db.risk, machine, lost, found)
    ensures DiskInv(Crashed(d, db.risk, lost, found), h - Gone(d, lost) + found, acked - Gone(d, lost), floor)
  {
    var recent := Recent(db.mems, db.mem, db.imm, db.writer);
    var man, logged := Stored(d.tables, d.manifest.files), Replayed(d);
    LogsHoldMemtables(db, d, recent, logged, man);
    FoundHadFailed(db, d, man, machine, lost, found);
    CrashedLogs(d, db.risk, machine, lost, found);
    assert Exist(d.manifest.files, d.tables, d.manifest.nextFile);
    CrashedView(recent, logged, man, h, floor, At(db.mems, db.imm), At(db.risk.failed, Some(db.mem)),
                At(db.risk.failed, db.imm), Used(db.writer, db.lastSequence), lost, found);
    hide Stored, Equiv, Layers, CompactionFits, ReadersFit, EditFits, RiskFits, IsHistory;
  }

  // ------------------------------------------------------------------ DB::Open

  // Recover's check for missing files never fails.
  lemma NothingIsMissing(d: Disk, h: Entries, acked: Entries, floor: nat)
    requires DiskInv(d, h, acked, floor)
    ensures d.manifest.files <= d.tables.Keys
  {
  }

  lemma BeginOpenKeeps(d: Disk, h: Entries, acked: Entries, floor: nat)
    requires DiskInv(d, h, acked, floor)
    ensures OpeningInv(Begun(d.manifest), d, h, floor)
  {
    StoredNone(d.tables);
    hide Stored, Equiv, IsHistory, Upto;
  }

  // Files and logs that a recovery does not look at do not matter.
  lemma DiskMayChange(d: Disk, d': Disk, h: Entries, acked: Entries, floor: nat)
    requires DiskInv(d, h, acked, floor) && d'.manifest == d.manifest && 0 !in d'.logs
    requires Agree(d.tables, d'.tables, d.manifest.files)
    requires Stored(d'.logs, ToReplay(d'.logs, d.manifest)) == Stored(d.logs, ToReplay(d.logs, d.manifest))
    ensures DiskInv(d', h, acked, floor)
  {
    StoredSame(d.tables, d'.tables, d.manifest.files);
    hide Stored, Equiv, IsHistory, Upto;
  }

  lemma RecoverTableKeeps(o: Opening, d: Disk, h: Entries, acked: Entries, floor: nat, content: Entries, o': Opening, d': Disk)
    requires DiskInv(d, h, acked, floor) && OpeningInv(o, d, h, floor) && OpenEnabled(o, d, RecoverTable(content))
    requires o' == o.(next := o.next + 1, added := o.added + {o.next}, done := o.done + content)
    requires d' == d.(tables := d.tables[o.next := content])
    ensures DiskInv(d', h, acked, floor) && OpeningInv(o', d', h, floor)
  {
    DiskMayChange(d, d', h, acked, floor);
    StoredSame(d.tables, d'.tables, o.added);
    StoredUnion(d'.tables, o.added, {o.next});
    StoredOne(d'.tables, o.next);
    hide Stored, DiskInv;
  }

  lemma RecoverLogKeeps(o: Opening, d: Disk, h: Entries, acked: Entries, floor: nat, n: nat, o': Opening)
    requires DiskInv(d, h, acked, floor) && OpeningInv(o, d, h, floor) && OpenEnabled(o, d, RecoverLog(n))
    requires o' == o.(next := if o.next <= n then n + 1 else o.next, replayed := o.replayed + {n})
    ensures OpeningInv(o', d, h, floor)
  {
    hide Stored, DiskInv;
  }

  lemma EmptyLog(logs: Store, m: Manifest, n: nat)
    requires n !in logs && n >= m.logNumber
    ensures Stored(logs[n := {}], ToReplay(logs[n := {}], m)) == Stored(logs, ToReplay(logs, m))
  {
    assert ToReplay(logs[n := {}], m) == ToReplay(logs, m) + {n};
    StoredUnion(logs[n := {}], ToReplay(logs, m), {n});
    StoredOne(logs[n := {}], n);
    StoredSame(logs, logs[n := {}], ToReplay(logs, m));
  }

  // The new log is empty and has the highest number of all.
  lemma CreateLogKeeps(o: Opening, d: Disk, h: Entries, acked: Entries, floor: nat, o': Opening, d': Disk)
    requires DiskInv(d, h, acked, floor) && OpeningInv(o, d, h, floor) && OpenEnabled(o, d, CreateLog)
    requires o' == o.(next := o.next + 1, mem := Some(o.next)) && d' == d.(logs := d.logs[o.next := {}])
    ensures DiskInv(d', h, acked, floor) && OpeningInv(o', d', h, floor)
  {
    var m := d.manifest;
    assert forall n | n in d.logs :: n < o.next by {
      assert forall n | n in d.logs && Replays(m, n) :: n in ToReplay(d.logs, m);
    }
    EmptyLog(d.logs, m, o.next);
    DiskMayChange(d, d', h, acked, floor);
    hide Stored, DiskInv, ToReplay;
  }

  // The new descriptor takes over: the tables written from the logs replace the logs.
  lemma WriteNewManifestKeeps(o: Opening, d: Disk, h: Entries, acked: Entries, floor: nat, last: nat, o': Opening, d': Disk)
    requires DiskInv(d, h, acked, floor) && OpeningInv(o, d, h, floor) && OpenEnabled(o, d, WriteNewManifest(last))
    requires o' == o.(installed := true)
    requires d'.tables == d.tables && d'.logs == d.logs && d'.named == o.descriptor
    requires d'.manifest == Manifest(d.manifest.files + o.added, o.mem.value, 0, o.next, last)
    ensures DiskInv(d', h, acked, last) && OpeningInv(o', d', h, last)
  {
    var logged, man := Stored(d.logs, ToReplay(d.logs, d.manifest)), Stored(d.tables, d.manifest.files);
    StoredUnion(d.tables, d.manifest.files, o.added);
    assert Stored(d'.logs, ToReplay(d'.logs, d'.manifest)) == {};
    assert {} + Stored(d'.tables, d'.manifest.files) == logged + man;
    assert Upto(h, last);
    EquivAtTheTop(logged + man, h, floor, last);
    hide Stored, Equiv, ToReplay;
  }

  // The names of the other files are no part of what is recovered.
  lemma OtherFilesKeep(o: Opening, d: Disk, h: Entries, acked: Entries, floor: nat, o': Opening, d': Disk)
    requires DiskInv(d, h, acked, floor) && OpeningInv(o, d, h, floor) && o' == o.(described := o'.described)
    requires d' == d.(others := d'.others)
    ensures DiskInv(d', h, acked, floor) && OpeningInv(o', d', h, floor)
  {
  }

  lemma OpenDoneKeeps(o: Opening, d: Disk, h: Entries, acked: Entries, floor: nat, db: Db, d': Disk)
    requires DiskInv(d, h, acked, floor) && OpeningInv(o, d, h, floor) && OpenEnabled(o, d, OpenDone)
    requires db == Fresh(d.manifest, o.descriptor, o.mem.value, o.next)
    requires d' == Collected(d, d.manifest.files, d.manifest.logNumber, 0, o.descriptor)
    ensures UpInv(db, d', h, acked, floor)
  {
    var man := Stored(d.tables, d.manifest.files);
    StoredSame(d.tables, d'.tables, d.manifest.files);
    assert Recent(db.mems, db.mem, db.imm, db.writer) == {};
    assert Stored(d.logs, ToReplay(d.logs, d.manifest)) == {};
    assert {} + man == man;
    hide Stored, Equiv, ToReplay;
  }

  // A database that was just opened has nothing at risk.
  lemma OpenDoneHasNoRisk(o: Opening, d: Disk, h: Entries, acked: Entries, floor: nat, db: Db, d': Disk)
    requires DiskInv(d, h, acked, floor) && OpeningInv(o, d, h, floor) && OpenEnabled(o, d, OpenDone)
    requires db == Fresh(d.manifest, o.descriptor, o.mem.value, o.next)
    requires d' == Collected(d, d.manifest.files, d.manifest.logNumber, 0, o.descriptor)
    ensures RiskInv(db, d', h, floor)
  {
    var man := Stored(d.tables, d.manifest.files);
    StoredSame(d.tables, d'.tables, d.manifest.files);
    assert Recent(db.mems, db.mem, db.imm, db.writer) == {};
    assert Stored(d.logs, ToReplay(d.logs, d.manifest)) == {};
    assert {} + man == man == man - {} && h - {} == h == h + {} + {};
    hide Stored, Equiv, ToReplay;
  }
}
