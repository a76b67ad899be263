// What every step of the engine keeps.  Each part names only the fields it is about, so
// that a step which leaves those fields alone keeps it for free.
module EngineInvariant {
  import opened DbFormat
  import opened Lookup
  import opened Compaction
  import opened EngineModel
  import opened EngineViews

  // The entries no table needs to hold yet: memtables, and what is logged but not inserted.
  function Recent(mems: Store, mem: nat, imm: Option<nat>, w: Writer): (s: Entries) {
    At(mems, Some(mem)) + At(mems, imm) + Unsaved(w)
  }

  // ------------------------------------------------------------------ the background thread

  // MaybeScheduleCompaction and BackgroundCall keep at most one task in existence.
  ghost predicate OneTask(scheduled: bool, tasks: seq<Task>) {
    |tasks| == if scheduled then 1 else 0
  }

  ghost predicate StageFits(t: Task, imm: Option<nat>) {
    match t.stage
    case Quiet => !t.job.Flushing?
    case Collecting => !t.job.Waiting?
    case Building(_) => imm.Some? && (t.job.Flushing? || t.job.Compacting?)
    case Built(_) => imm.Some? && (t.job.Flushing? || t.job.Compacting?)
    case Installing(_, flush, _) => if flush then imm.Some? && (t.job.Flushing? || t.job.Compacting?) else t.job.Compacting?
  }

  // Tables the background thread has written that no version lists.
  function Held(t: Task): (fs: set<nat>) {
    (if t.job.Compacting? then t.job.picked.outputs else {})
    + (if t.stage.Built? then {t.stage.file} else if t.stage.Installing? then t.stage.edit.added else {})
  }

  // Every table somebody may still read or install.
  function Needed(db: Db, m: Manifest, t: Task): (fs: set<nat>) {
    LiveFiles(db, t) + m.files + Held(t)
  }

  ghost predicate Exist(files: set<nat>, tables: Store, next: nat) {
    forall f | f in files :: f < next && f in tables
  }

  // File numbers are handed out once.
  ghost predicate Numbered(m: Manifest, t: Task, needed: set<nat>, next: nat) {
    && (forall f | f in m.files :: f < m.nextFile) && m.logNumber < m.nextFile <= next
    && (t.stage.Building? ==> t.stage.file < next && t.stage.file !in needed)
    && (t.stage.Installing? ==>
          (forall f | f in t.stage.edit.added :: f < t.stage.edit.nextFile) &&
          t.stage.edit.logNumber < t.stage.edit.nextFile && m.nextFile <= t.stage.edit.nextFile <= next)
  }

  // pending_outputs_ covers what is being written, up to the moment a flush is committed.
  // A flush inside a compaction writes to a file of its own.
  ghost predicate Guarded(pending: set<nat>, t: Task) {
    var outputs := if t.job.Compacting? then t.job.picked.outputs else {};
    && outputs <= pending
    && (t.stage.Building? || t.stage.Built? ==> t.stage.file in pending && t.stage.file !in outputs)
    && (t.stage.Installing? && t.stage.flush ==> t.stage.edit.added !! outputs)
  }

  // ------------------------------------------------------------------ logs and descriptor

  // The log of each memtable holds what the memtable holds, and no other log is replayed.
  ghost predicate LogsMatch(logs: Store, mems: Store, mem: nat, imm: Option<nat>, unsaved: Entries, logNumber: nat,
                            m: Manifest, man: Entries, next: nat) {
    && 0 !in logs && mem in logs && mem in mems && logs[mem] == mems[mem] + unsaved
    && logNumber <= m.logNumber <= mem < next && m.prevLog == 0
    && (forall n | n in logs && n >= logNumber :: n == mem || imm == Some(n))
    && (imm.Some? ==>
          var n := imm.value;
          n in logs && n in mems && logs[n] == mems[n] && logNumber <= n < mem && (m.logNumber <= n || mems[n] <= man))
  }

  // Without a background error the descriptor is the current version, or the one being
  // installed; an edit that has reached the descriptor is in it.
  ghost predicate Synced(bgError: bool, current: set<nat>, logNumber: nat, m: Manifest, stage: Stage) {
    if stage.Installing? && stage.durable then
      && stage.edit.added <= m.files && m.logNumber == stage.edit.logNumber && m.lastSequence == stage.edit.lastSequence
      && (!bgError ==> m.files == Applied(current, stage.edit))
    else
      !bgError ==> m.files == current && m.logNumber == logNumber
  }

  // ------------------------------------------------------------------ contents

  // The running database and the disk both answer as the whole history does.
  ghost predicate Views(recent: Entries, cur: Entries, man: Entries, h: Entries, floor: nat) {
    && IsHistory(h) && recent + cur <= h && recent + man <= h
    && Equiv(recent + cur, h, floor) && Equiv(recent + man, h, floor)
  }

  // Newer layers hold newer entries.
  ghost predicate Layers(cur: Entries, imm: Entries, top: Entries) {
    Below(cur, imm) && Below(cur, top) && Below(imm, top)
  }

  ghost predicate WriterFits(w: Writer, last: nat, h: Entries, acked: Entries) {
    && (w.Logging? || w.Logged? || w.Inserted? ==> IsBatch(w.batch, last, w.last))
    && (w.Failed? ==> last <= w.last)
    && InFlight(w) <= h && acked <= h && Upto(acked, last)
    && forall e | e in h :: e.key.sequence <= last || e in InFlight(w)
  }

  // What recovery will take LastSequence to be covers all that survives.
  ghost predicate Covered(recent: Entries, man: Entries, h: Entries, m: Manifest) {
    Upto(man, m.lastSequence) && forall e | e in h :: e.key.sequence <= m.lastSequence || e in recent
  }

  ghost predicate Published(cur: Entries, man: Entries, imm: Entries, last: nat, m: Manifest) {
    Upto(cur, last) && Upto(man, last) && Upto(imm, last) && m.lastSequence <= last
  }

  ghost predicate SnapshotsFit(floor: nat, last: nat, snapshots: multiset<nat>) {
    floor <= last && forall s | s in snapshots :: floor <= s <= last
  }

  // ------------------------------------------------------------------ work in progress

  // The edit of a flush replaces the immutable memtable and its log; the edit of a
  // compaction replaces the inputs by what the drop rule keeps.
  ghost predicate EditFits(t: Task, tables: Store, imm: Entries, mem: nat, logNumber: nat, last: nat, m: Manifest) {
    match t.stage
    case Built(n) => n in tables && tables[n] == imm
    case Installing(e, flush, _) =>
      && m.lastSequence <= e.lastSequence <= last
      && if flush then
           e.removed == {} && Stored(tables, e.added) == imm && e.logNumber == mem && Upto(imm, e.lastSequence)
         else t.job.Compacting? ==>
           && e.removed == t.job.picked.inputs && e.added == t.job.picked.outputs
           && OutputsAreKept(tables, t.job.picked) && e.logNumber == logNumber
    case _ => true
  }

  // Has the compaction's own edit reached the descriptor?
  predicate OwnEditDurable(stage: Stage) {
    stage.Installing? && !stage.flush && stage.durable
  }

  ghost predicate PickedFits(p: Picked, recent: Entries, tables: Store, current: set<nat>, mfiles: set<nat>, own: bool,
                             floor: nat) {
    && Sorted(p.es) && Elements(p.es) == Stored(tables, p.inputs) && p.smallest <= floor
    && (forall e | e in p.deep :: !p.base(e.key.user))
    && p.inputs <= p.inputVersion && p.inputs <= current && p.outputs !! current
    && Placed(p, recent) && Placed(p, Stored(tables, current - p.inputs))
    && (!own ==> p.inputs <= mfiles && p.outputs !! mfiles && Placed(p, Stored(tables, mfiles - p.inputs)))
  }

  ghost predicate CompactionFits(t: Task, recent: Entries, tables: Store, current: set<nat>, mfiles: set<nat>, floor: nat) {
    t.job.Compacting? ==> PickedFits(t.job.picked, recent, tables, current, mfiles, OwnEditDurable(t.stage), floor)
  }

  // A reader still gets what it would have got when it began.
  ghost predicate ReaderFits(r: Reader, mems: Store, mem: nat, tables: Store, h: Entries, last: nat) {
    var top, imm, bottom := At(mems, Some(r.mem)), At(mems, r.imm), Stored(tables, r.files);
    && r.at <= last && r.mem <= mem && r.mem in mems && (r.imm.Some? ==> r.imm.value < r.mem && r.imm.value in mems)
    && Layers(bottom, imm, top) && top + imm + bottom <= h && Upto(imm + bottom, last)
    && forall k :: Read(top + imm + bottom, k, r.at) == Read(r.seen, k, r.at)
  }

  ghost predicate ReadersFit(readers: set<Reader>, mems: Store, mem: nat, tables: Store, h: Entries, last: nat) {
    forall r | r in readers :: ReaderFits(r, mems, mem, tables, h, last)
  }

  // ------------------------------------------------------------------ together

  // Files and the background thread.
  ghost predicate FilesInv(db: Db, d: Disk, t: Task) {
    && OneTask(db.scheduled, db.tasks) && StageFits(t, db.imm)
    && Exist(Needed(db, d.manifest, t), d.tables, db.next)
    && Numbered(d.manifest, t, Needed(db, d.manifest, t), db.next)
    && Guarded(db.pending, t)
    && Synced(db.bgError, db.current, db.logNumber, d.manifest, t.stage)
    && db.descriptor == d.named
  }

  ghost predicate ContentsInv(db: Db, d: Disk, t: Task, h: Entries, acked: Entries, floor: nat, recent: Entries,
                              cur: Entries, man: Entries) {
    var imm, m := At(db.mems, db.imm), d.manifest;
    && LogsMatch(d.logs, db.mems, db.mem, db.imm, Unsaved(db.writer), db.logNumber, m, man, db.next)
    && Views(recent, cur, man, h, floor)
    && Layers(cur, imm, At(db.mems, Some(db.mem)) + Unsaved(db.writer))
    && WriterFits(db.writer, db.lastSequence, h, acked)
    && Covered(recent, man, h, m)
    && Published(cur, man, imm, db.lastSequence, m)
    && SnapshotsFit(floor, db.lastSequence, db.snapshots)
    && EditFits(t, d.tables, imm, db.mem, db.logNumber, db.lastSequence, m)
    && CompactionFits(t, recent, d.tables, db.current, m.files, floor)
    && ReadersFit(db.readers, db.mems, db.mem, d.tables, h, db.lastSequence)
  }

  ghost predicate UpInv(db: Db, d: Disk, h: Entries, acked: Entries, floor: nat) {
    var t := TheTask(db);
    && FilesInv(db, d, t)
    && ContentsInv(db, d, t, h, acked, floor, Recent(db.mems, db.mem, db.imm, db.writer),
                   Stored(d.tables, db.current), Stored(d.tables, d.manifest.files))
  }

  // The tables of the descriptor stand for all of the history that is in no memtable, without
  // the help of what the logs may lose, and that is older than what they may lose or gain.  A
  // failed batch has sequence numbers of its own.
  ghost predicate RiskFits(recent: Entries, man: Entries, h: Entries, floor: nat, imm: Entries, failed: Entries,
                           failedBefore: Entries, bound: nat) {
    && Equiv(man - recent, h - recent, floor) && Below(h - recent, recent + failed + failedBefore)
    && IsHistory(h + failed + failedBefore) && Upto(failed + failedBefore, bound) && Below(imm, failed)
  }

  // LastSequence once the write under way is over, if it has failed already.
  function Used(w: Writer, last: nat): (n: nat) {
    if w.Failed? then w.last else last
  }

  ghost predicate RiskInv(db: Db, d: Disk, h: Entries, floor: nat) {
    RiskFits(Recent(db.mems, db.mem, db.imm, db.writer), Stored(d.tables, d.manifest.files), h, floor, At(db.mems, db.imm),
             At(db.risk.failed, Some(db.mem)), At(db.risk.failed, db.imm), Used(db.writer, db.lastSequence))
  }

  // What a crash leaves: enough to bring back every entry that matters.
  ghost predicate DiskInv(d: Disk, h: Entries, acked: Entries, floor: nat) {
    var logged, man := Stored(d.logs, ToReplay(d.logs, d.manifest)), Stored(d.tables, d.manifest.files);
    && Exist(d.manifest.files, d.tables, d.manifest.nextFile) && d.manifest.logNumber < d.manifest.nextFile
    && 0 !in d.logs
    && IsHistory(h) && acked <= h && logged + man <= h && Equiv(logged + man, h, floor)
    && Upto(man, d.manifest.lastSequence)
    && forall e | e in h :: e.key.sequence <= d.manifest.lastSequence || e in logged
  }

  ghost predicate OpeningInv(o: Opening, d: Disk, h: Entries, floor: nat) {
    var m := d.manifest;
    var logged := Stored(d.logs, ToReplay(d.logs, m));
    && Exist(m.files + o.added, d.tables, o.next) && m.logNumber < o.next && (o.installed ==> o.mem.Some?)
    && if o.installed then
         && m.logNumber == o.mem.value && m.prevLog == 0 && m.nextFile <= o.next && floor == m.lastSequence
         && o.mem.value in d.logs && d.logs[o.mem.value] == {} && (forall n | n in d.logs && n >= o.mem.value :: n == o.mem.value)
         && Upto(h, m.lastSequence) && o.descriptor == d.named
       else
         && m.nextFile < o.next && (forall f | f in o.added :: f >= m.nextFile)
         && Stored(d.tables, o.added) == o.done && o.done <= logged
         && o.replayed <= ToReplay(d.logs, m) && (forall n | n in o.replayed :: n < o.next)
         && (o.mem.Some? ==> var n := o.mem.value;
               n in d.logs && d.logs[n] == {} && n < o.next && o.done == logged
               && (forall l | l in d.logs :: l <= n) && n > 0)
  }

  ghost predicate Inv(s: State) {
    match s.node
    case Down => DiskInv(s.disk, s.history, s.acked, s.floor)
    case Recovering(o) => DiskInv(s.disk, s.history, s.acked, s.floor) && OpeningInv(o, s.disk, s.history, s.floor)
    case Up(db) => UpInv(db, s.disk, s.history, s.acked, s.floor) && RiskInv(db, s.disk, s.history, s.floor)
  }
}
