// The steps of writers, readers and snapshots keep the invariant (db/db_impl.cc: Write,
// MakeRoomForWrite, Get, GetSnapshot).
module EngineClients {
  import opened DbFormat
  import opened Lookup
  import opened Compaction
  import opened EngineModel
  import opened EngineViews
  import opened EngineInvariant

  // ------------------------------------------------------------------ Write

  lemma BeginWriteKeeps(db: Db, d: Disk, h: Entries, acked: Entries, floor: nat, batch: Entries, last: nat)
    requires UpInv(db, d, h, acked, floor) && ClientEnabled(db, BeginWrite(batch, last))
    ensures UpInv(WriteBegun(db, batch, last), d, h, acked, floor)
  {
    hide Views, Layers, Covered, LogsMatch, ReadersFit, CompactionFits, EditFits, Published, StageFits, Numbered, Exist;
  }

  lemma AppendFailedKeeps(db: Db, d: Disk, h: Entries, acked: Entries, floor: nat, agrees: bool)
    requires UpInv(db, d, h, acked, floor) && db.writer.Logging?
    ensures UpInv(AppendFailing(db, agrees), d, h, acked, floor)
  {
    hide Views, Layers, Covered, LogsMatch, ReadersFit, CompactionFits, EditFits, Published, StageFits, Numbered, Exist;
  }

  // A write that could not be synced stops all further ones.
  lemma SyncFailedKeeps(db: Db, d: Disk, h: Entries, acked: Entries, floor: nat)
    requires UpInv(db, d, h, acked, floor) && db.writer.Logging?
    ensures UpInv(AppendFailing(db, true).(bgError := true), d, h, acked, floor)
  {
    hide Views, Layers, Covered, LogsMatch, ReadersFit, CompactionFits, EditFits, Published, StageFits, Numbered, Exist;
  }

  lemma ViewsExtend(recent: Entries, cur: Entries, man: Entries, h: Entries, floor: nat, batch: Entries, last: nat)
    requires Views(recent, cur, man, h, floor) && IsHistory(h + batch) && Below(h, batch)
    ensures Views(recent + batch, cur, man, h + batch, floor)
  {
    EquivExtends(recent + cur, h, floor, batch);
    EquivExtends(recent + man, h, floor, batch);
    assert recent + cur + batch == recent + batch + cur && recent + man + batch == recent + batch + man;
  }

  lemma LayersExtend(cur: Entries, imm: Entries, top: Entries, bound: nat, batch: Entries, last: nat)
    requires Layers(cur, imm, top) && Upto(cur, bound) && Upto(imm, bound) && IsBatch(batch, bound, last)
    ensures Layers(cur, imm, top + batch)
  {
  }

  // A running compaction never sees entries that were written after it began.
  lemma CompactionExtends(t: Task, recent: Entries, tables: Store, current: set<nat>, mfiles: set<nat>, floor: nat,
                          bound: nat, batch: Entries, last: nat)
    requires CompactionFits(t, recent, tables, current, mfiles, floor)
    requires Upto(Stored(tables, current), bound) && IsBatch(batch, bound, last)
    ensures CompactionFits(t, recent + batch, tables, current, mfiles, floor)
  {
    if t.job.Compacting? {
      var p := t.job.picked;
      StoredSubset(tables, p.inputs, current);
      assert forall i | 0 <= i < |p.es| :: p.es[i] in Elements(p.es);
      assert forall e | e in batch :: NewerThan(e, p.es);
    }
  }

  lemma ReadersExtend(readers: set<Reader>, mems: Store, mem: nat, tables: Store, h: Entries, last: nat, h': Entries)
    requires ReadersFit(readers, mems, mem, tables, h, last) && h <= h'
    ensures ReadersFit(readers, mems, mem, tables, h', last)
  {
    hide Layers;
  }

  lemma AppendOkKeeps(db: Db, d: Disk, h: Entries, acked: Entries, floor: nat, sync: bool, db': Db, h': Entries)
    requires UpInv(db, d, h, acked, floor) && ClientEnabled(db, AppendOk(sync))
    requires db' == Appended(db, sync) && h' == h + db.writer.batch
    ensures UpInv(db', LogAppended(d, db), h', acked, floor)
  {
    var recent, batch := Recent(db.mems, db.mem, db.imm, db.writer), db.writer.batch;
    var cur, man := Stored(d.tables, db.current), Stored(d.tables, d.manifest.files);
    var imm, top := At(db.mems, db.imm), At(db.mems, Some(db.mem)) + Unsaved(db.writer);
    assert Recent(db'.mems, db'.mem, db'.imm, db'.writer) == recent + batch;
    assert At(db.mems, Some(db.mem)) + Unsaved(db'.writer) == top + batch;
    HistoryExtends(h, db.lastSequence, batch, db.writer.last);
    ViewsExtend(recent, cur, man, h, floor, batch, db.writer.last);
    LayersExtend(cur, imm, top, db.lastSequence, batch, db.writer.last);
    CompactionExtends(TheTask(db), recent, d.tables, db.current, d.manifest.files, floor, db.lastSequence, batch,
                      db.writer.last);
    ReadersExtend(db.readers, db.mems, db.mem, d.tables, h, db.lastSequence, h');
    hide Views, Layers, CompactionFits, ReadersFit, EditFits, Published, StageFits, Numbered, Exist, Stored, Synced;
  }

  // The entries a memtable gains come after everything its readers may see.
  lemma ReaderMissesBatch(r: Reader, mems: Store, mem: nat, tables: Store, h: Entries, bound: nat, batch: Entries, last: nat,
                          mems': Store)
    requires ReaderFits(r, mems, mem, tables, h, bound) && IsHistory(h) && batch <= h && IsBatch(batch, bound, last)
    requires mems' == mems[mem := At(mems, Some(mem)) + batch]
    ensures ReaderFits(r, mems', mem, tables, h, bound)
  {
    var top, imm, bottom := At(mems, Some(r.mem)), At(mems, r.imm), Stored(tables, r.files);
    if r.mem == mem {
      LayersExtend(bottom, imm, top, bound, batch, last);
      forall k
        ensures Read(top + batch + imm + bottom, k, r.at) == Read(top + imm + bottom, k, r.at)
      {
        assert top + batch + imm + bottom == top + imm + bottom + batch;
        LaterIsInvisible(top + imm + bottom, batch, k, r.at);
      }
    }
  }

  lemma InsertKeeps(db: Db, d: Disk, h: Entries, acked: Entries, floor: nat, db': Db)
    requires UpInv(db, d, h, acked, floor) && ClientEnabled(db, Insert) && db' == BatchInserted(db)
    ensures UpInv(db', d, h, acked, floor)
  {
    var recent, batch := Recent(db.mems, db.mem, db.imm, db.writer), db.writer.batch;
    assert IsHistory(h);
    assert At(db'.mems, db'.imm) == At(db.mems, db.imm);
    assert At(db'.mems, Some(db.mem)) + Unsaved(db'.writer) == At(db.mems, Some(db.mem)) + Unsaved(db.writer);
    assert Recent(db'.mems, db'.mem, db'.imm, db'.writer) == recent;
    forall r | r in db.readers
      ensures ReaderFits(r, db'.mems, db'.mem, d.tables, h, db.lastSequence)
    {
      ReaderMissesBatch(r, db.mems, db.mem, d.tables, h, db.lastSequence, batch, db.writer.last, db'.mems);
    }
    hide Views, Layers, CompactionFits, ReaderFits, EditFits, Published, StageFits, Numbered, Exist, Stored, Synced;
  }

  lemma PublishKeeps(db: Db, d: Disk, h: Entries, acked: Entries, floor: nat, db': Db, acked': Entries)
    requires UpInv(db, d, h, acked, floor) && ClientEnabled(db, Publish)
    requires db' == db.(lastSequence := db.writer.last, writer := Idle) && acked' == acked + InFlight(db.writer)
    ensures UpInv(db', d, h, acked', floor)
  {
  }

  lemma ReadersSwitch(readers: set<Reader>, mems: Store, mem: nat, tables: Store, h: Entries, last: nat, next: nat)
    requires ReadersFit(readers, mems, mem, tables, h, last) && mem < next
    ensures ReadersFit(readers, mems[next := {}], next, tables, h, last)
  {
    hide Layers;
    forall r | r in readers
      ensures ReaderFits(r, mems[next := {}], next, tables, h, last)
    {
      assert ReaderFits(r, mems, mem, tables, h, last);
    }
  }

  // The new memtable belongs to the new log; the old one becomes immutable with its log.
  // Nothing is replayed that was not, since there was no immutable memtable before.
  lemma SwitchKeeps(db: Db, d: Disk, h: Entries, acked: Entries, floor: nat, db': Db, d': Disk)
    requires UpInv(db, d, h, acked, floor) && ClientEnabled(db, SwitchMemtable)
    requires db' == Switched(db) && d' == d.(logs := d.logs[db.next := {}])
    ensures UpInv(db', d', h, acked, floor)
  {
    hide Stored, Views, CompactionFits, ReadersFit, Covered, OneTask, Equiv;
    var recent := Recent(db.mems, db.mem, db.imm, db.writer);
    var cur, man := Stored(d.tables, db.current), Stored(d.tables, d.manifest.files);
    assert recent <= h by {
      assert Views(recent, cur, man, h, floor);
      ViewsAreHistory(recent, cur, man, h, floor);
    }
    SwitchedLogs(d.logs, db.mems, db.mem, db.logNumber, d.manifest, man, db.next);
    assert At(db'.mems, db'.imm) == At(db.mems, Some(db.mem));
    assert At(db'.mems, Some(db'.mem)) + Unsaved(db'.writer) == {};
    assert Recent(db'.mems, db'.mem, db'.imm, db'.writer) == recent;
    ReadersSwitch(db.readers, db.mems, db.mem, d.tables, h, db.lastSequence, db.next);
    assert Layers(cur, At(db'.mems, db'.imm), {});
    assert Upto(At(db.mems, Some(db.mem)), db.lastSequence);
    hide Layers, LogsMatch;
  }

  lemma ViewsAreHistory(recent: Entries, cur: Entries, man: Entries, h: Entries, floor: nat)
    requires Views(recent, cur, man, h, floor)
    ensures recent + cur <= h && recent + man <= h && IsHistory(h)
  {
  }

  lemma SwitchedLogs(logs: Store, mems: Store, mem: nat, logNumber: nat, m: Manifest, man: Entries, next: nat)
    requires LogsMatch(logs, mems, mem, None, {}, logNumber, m, man, next)
    ensures LogsMatch(logs[next := {}], mems[next := {}], next, Some(mem), {}, logNumber, m, man, next + 1)
  {
  }

  // ------------------------------------------------------------------ snapshots and readers

  lemma TakeSnapshotKeeps(db: Db, d: Disk, h: Entries, acked: Entries, floor: nat)
    requires UpInv(db, d, h, acked, floor)
    ensures UpInv(db.(snapshots := db.snapshots + multiset{db.lastSequence}), d, h, acked, floor)
  {
    hide Views, Layers, Covered, LogsMatch, ReadersFit, CompactionFits, EditFits, Published, StageFits, Numbered, Exist;
  }

  lemma ReleaseSnapshotKeeps(db: Db, d: Disk, h: Entries, acked: Entries, floor: nat, at: nat)
    requires UpInv(db, d, h, acked, floor)
    ensures UpInv(db.(snapshots := db.snapshots - multiset{at}), d, h, acked, floor)
  {
    hide Views, Layers, Covered, LogsMatch, ReadersFit, CompactionFits, EditFits, Published, StageFits, Numbered, Exist;
  }

  lemma BeginReadKeeps(db: Db, d: Disk, h: Entries, acked: Entries, floor: nat, at: nat, db': Db)
    requires UpInv(db, d, h, acked, floor) && ClientEnabled(db, BeginRead(at))
    requires db' == db.(readers := db.readers + {ReaderAt(db, at, h)})
    ensures UpInv(db', d, h, acked, floor)
  {
    var r := ReaderAt(db, at, h);
    var cur, recent := Stored(d.tables, db.current), Recent(db.mems, db.mem, db.imm, db.writer);
    ReaderBegins(r, db, d, h, floor, recent, cur);
    BeginReadFiles(db, d, r, db');
    hide Views, Layers, CompactionFits, ReaderFits, LogsMatch, EditFits, Published, Covered, Stored, FilesInv;
  }

  lemma BeginReadFiles(db: Db, d: Disk, r: Reader, db': Db)
    requires FilesInv(db, d, TheTask(db)) && r.files == db.current && db' == db.(readers := db.readers + {r})
    ensures FilesInv(db', d, TheTask(db'))
  {
    assert Needed(db', d.manifest, TheTask(db')) == Needed(db, d.manifest, TheTask(db));
    hide OneTask, StageFits, Exist, Numbered, Guarded, Synced;
  }

  lemma ReaderBegins(r: Reader, db: Db, d: Disk, h: Entries, floor: nat, recent: Entries, cur: Entries)
    requires IsHistory(h) && recent + cur <= h && Equiv(recent + cur, h, floor)
    requires recent == Recent(db.mems, db.mem, db.imm, db.writer) && cur == Stored(d.tables, db.current)
    requires floor <= r.at <= db.lastSequence && r == ReaderAt(db, r.at, h)
    requires forall e | e in Unsaved(db.writer) :: e.key.sequence > db.lastSequence
    requires Layers(cur, At(db.mems, db.imm), At(db.mems, Some(db.mem)) + Unsaved(db.writer))
    requires Upto(cur, db.lastSequence) && Upto(At(db.mems, db.imm), db.lastSequence)
    requires db.mem in db.mems && (db.imm.Some? ==> db.imm.value < db.mem && db.imm.value in db.mems)
    ensures ReaderFits(r, db.mems, db.mem, d.tables, h, db.lastSequence)
  {
    var view := At(db.mems, Some(db.mem)) + At(db.mems, db.imm) + cur;
    assert view + Unsaved(db.writer) == recent + cur;
    forall k
      ensures Read(view, k, r.at) == Read(h, k, r.at)
    {
      LaterIsInvisible(view, Unsaved(db.writer), k, r.at);
    }
  }

  lemma EndReadKeeps(db: Db, d: Disk, h: Entries, acked: Entries, floor: nat, r: Reader)
    requires UpInv(db, d, h, acked, floor)
    ensures UpInv(db.(readers := db.readers - {r}), d, h, acked, floor)
  {
  }

  lemma ScheduleKeeps(db: Db, d: Disk, h: Entries, acked: Entries, floor: nat, db': Db)
    requires UpInv(db, d, h, acked, floor) && ClientEnabled(db, Schedule)
    requires db' == db.(scheduled := true, tasks := db.tasks + [Task(Waiting, Quiet)])
    ensures UpInv(db', d, h, acked, floor)
  {
  }
}
