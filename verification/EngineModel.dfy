// The engine as a state machine: db/db_impl.{h,cc} and the counters and contracts of
// db/version_set.h.  A step is what one thread does between two points where it takes or
// releases mutex_; work done with mutex_ released (appending to the log, filling a memtable,
// building a table, writing the descriptor) is a step of its own, so every interleaving of
// writers, readers and the background thread is a run of this machine, and a crash may come
// between any two steps.
//
// A log, a memtable and a table are taken as the sets of entries they hold.
module EngineModel {
  import opened DbFormat
  import opened Lookup
  import opened Compaction

  type Entries = set<Entry>
  type Store = map<nat, Entries>  // files, or memtables, by number

  // ------------------------------------------------------------------ what survives a crash

  // What replaying the current descriptor gives.
  datatype Manifest = Manifest(files: set<nat>, logNumber: nat, prevLog: nat, nextFile: nat, lastSequence: nat)

  datatype FileType = LogFile | DescriptorFile | TableFile | TempFile | CurrentFile | LockFile | InfoLogFile
  datatype File = File(kind: FileType, number: nat)

  // The directory: tables and logs with what they hold, and the names of the other files.
  // CURRENT names the descriptor with number `named`, and `manifest` is what is in that one.
  datatype Disk = Disk(tables: Store, logs: Store, manifest: Manifest, named: nat, others: set<File>)

  // ------------------------------------------------------------------ what does not

  // A version edit on its way through LogAndApply.
  datatype Edit = Edit(removed: set<nat>, added: set<nat>, logNumber: nat, nextFile: nat, lastSequence: nat)

  // The leader of the write queue, from BuildBatchGroup to SetLastSequence.
  datatype Writer =
    | Idle
    | Logging(batch: Entries, last: nat)   // inside AddRecord
    | Logged(batch: Entries, last: nat)    // inside InsertInto
    | Inserted(batch: Entries, last: nat)  // about to take mutex_ again
    | Failed(last: nat)

  // A compaction: what PickCompaction chose, and the outputs so far.  es is what the input
  // iterator yields, base is IsBaseLevelForKey and deep are the entries of the levels it
  // looks at.
  datatype Picked = Picked(inputs: set<nat>, es: seq<Entry>, smallest: nat, base: UserKey -> bool, deep: Entries,
                           inputVersion: set<nat>, outputs: set<nat>)

  datatype Job = Waiting | Flushing | Compacting(picked: Picked) | Finished

  // Where the background thread is inside CompactMemTable, LogAndApply or DeleteObsoleteFiles.
  datatype Stage =
    | Quiet
    | Building(file: nat)
    | Built(file: nat)
    | Installing(edit: Edit, flush: bool, durable: bool)
    | Collecting

  datatype Task = Task(job: Job, stage: Stage)

  // A Get or an iterator: the sequence number it reads at and what it has pinned.  `seen` is
  // the history when it began.
  datatype Reader = Reader(at: nat, mem: nat, imm: Option<nat>, files: set<nat>, seen: Entries)

  // What a crash may do to the logs: outOfStep, the log's writer does not agree with the file
  // about the block it is in; unsure, what was appended while it did not, which recovery may
  // miss; unsynced, what was appended since the last Sync of its log, which is lost if the
  // machine goes down too; failed, by log, the batches whose append or Sync failed, which
  // recovery may find all the same.
  datatype Risk = Risk(outOfStep: bool, unsure: Entries, unsynced: Entries, failed: Store)

  datatype Db = Db(
    next: nat,           // next_file_number_
    lastSequence: nat,
    logNumber: nat,      // versions_->LogNumber()
    descriptor: nat,     // versions_->ManifestFileNumber()
    mem: nat,            // mem_, named by the number of its log, logfile_number_
    imm: Option<nat>,    // imm_, likewise
    mems: Store,         // every memtable still referenced
    current: set<nat>,   // the files of versions_->current()
    writer: Writer,
    risk: Risk,
    snapshots: multiset<nat>,
    readers: set<Reader>,
    pending: set<nat>,   // pending_outputs_
    bgError: bool,
    scheduled: bool,     // background_compaction_scheduled_
    tasks: seq<Task>)    // BackgroundCalls handed to Env::Schedule and not yet finished

  // DB::Open: the next file number, the tables written so far and what they hold, the logs
  // replayed, the number of the new descriptor, whether it has been written, and whether it has
  // been installed.
  datatype Opening = Opening(next: nat, added: set<nat>, done: Entries, replayed: set<nat>, mem: Option<nat>,
                             descriptor: nat, described: bool, installed: bool)

  datatype Node = Down | Recovering(o: Opening) | Up(db: Db)

  // history: every entry ever appended to a log, without those that a crash took, and with
  // those of failed writes that a crash brought back.  acked: those whose Write returned OK.
  // floor: below this sequence number no snapshot can be taken any more.
  datatype State = State(disk: Disk, node: Node, history: Entries, acked: Entries, floor: nat)

  // ------------------------------------------------------------------ contents

  // Everything in these files.
  ghost function Stored(tables: Store, files: set<nat>): (s: Entries) {
    set f, e | f in files && f in tables && e in tables[f] :: e
  }

  // Recover's choice of logs.
  predicate Replays(m: Manifest, n: nat) {
    n >= m.logNumber || n == m.prevLog
  }

  function ToReplay(logs: Store, m: Manifest): (ns: set<nat>) {
    set n | n in logs && Replays(m, n)
  }

  function At(mems: Store, m: Option<nat>): (s: Entries) {
    if m.Some? && m.value in mems then mems[m.value] else {}
  }

  // Logged, but not in the memtable yet.
  function Unsaved(w: Writer): (s: Entries) {
    if w.Logged? then w.batch else {}
  }

  // What has not been published yet.
  function InFlight(w: Writer): (s: Entries) {
    if w.Logged? || w.Inserted? then w.batch else {}
  }

  // ------------------------------------------------------------------ shared steps

  function Applied(files: set<nat>, e: Edit): (r: set<nat>) {
    files - e.removed + e.added
  }

  function TheTask(db: Db): (t: Task) {
    if db.tasks == [] then Task(Finished, Quiet) else db.tasks[0]
  }

  function WithTask(db: Db, i: nat, t: Task): (r: Db)
    requires i < |db.tasks|
  {
    db.(tasks := db.tasks[i := t])
  }

  // snapshots_.oldest(), or LastSequence when there is none.
  ghost predicate IsSmallestSnapshot(db: Db, s: nat) {
    if db.snapshots == multiset{} then s == db.lastSequence
    else s in db.snapshots && forall t | t in db.snapshots :: s <= t
  }

  // AddLiveFiles: the current version and every version a reader or a compaction refers to.
  function LiveFiles(db: Db, t: Task): (fs: set<nat>) {
    db.current + (set r, f | r in db.readers && f in r.files :: f)
    + (if t.job.Compacting? then t.job.picked.inputVersion else {})
  }

  // The switch of DeleteObsoleteFiles.
  predicate Keeps(f: File, live: set<nat>, logNumber: nat, prevLog: nat, manifestNumber: nat) {
    match f.kind
    case LogFile => f.number >= logNumber || f.number == prevLog
    case DescriptorFile => f.number >= manifestNumber
    case TableFile => f.number in live
    case TempFile => f.number in live
    case _ => true
  }

  // DeleteObsoleteFiles.
  function Collected(d: Disk, live: set<nat>, logNumber: nat, prevLog: nat, manifestNumber: nat): (r: Disk) {
    d.(tables := map n | n in d.tables && Keeps(File(TableFile, n), live, logNumber, prevLog, manifestNumber) :: d.tables[n],
       logs := map n | n in d.logs && Keeps(File(LogFile, n), live, logNumber, prevLog, manifestNumber) :: d.logs[n],
       others := set f | f in d.others && Keeps(f, live, logNumber, prevLog, manifestNumber))
  }

  // ------------------------------------------------------------------ the write path

  // What BuildBatchGroup and SetSequence hand to the log: parseable entries with sequence
  // numbers after the last one published, no two with the same.
  ghost predicate IsBatch(batch: Entries, from: nat, last: nat) {
    && from <= last
    && (forall e | e in batch :: e.key.Parses() && from < e.key.sequence <= last)
    && Distinct(batch)
  }

  // What the version set promises about a pick: an entry outside the inputs is deeper, with
  // its key not at the base level, or newer than every input entry of its key.
  ghost predicate Placed(p: Picked, rest: Entries) {
    forall e | e in rest :: e in p.deep || NewerThan(e, p.es)
  }

  ghost predicate NewerThan(e: Entry, es: seq<Entry>) {
    forall i | 0 <= i < |es| && es[i].key.user == e.key.user :: e.key.sequence > es[i].key.sequence
  }

  ghost predicate IsPick(db: Db, tables: Store, p: Picked) {
    && p.inputs <= db.current && p.inputVersion == db.current && p.outputs == {}
    && Sorted(p.es) && Elements(p.es) == Stored(tables, p.inputs)
    && IsSmallestSnapshot(db, p.smallest)
    && Placed(p, Stored(tables, db.current - p.inputs))
    && forall e | e in p.deep :: e in Stored(tables, db.current - p.inputs) && !p.base(e.key.user)
  }

  // The outputs hold what the drop rule keeps: DoCompactionWork's postcondition.
  ghost predicate OutputsAreKept(tables: Store, p: Picked) {
    Stored(tables, p.outputs) == Elements(Kept(p.es, p.smallest, p.base, |p.es|))
  }

  // ------------------------------------------------------------------ Write, GetSnapshot, Get

  function WriteBegun(db: Db, batch: Entries, last: nat): (r: Db) {
    db.(writer := Logging(batch, last))
  }

  function LogAppended(d: Disk, db: Db): (r: Disk)
    requires db.writer.Logging?
  {
    d.(logs := d.logs[db.mem := At(d.logs, Some(db.mem)) + db.writer.batch])
  }

  // Sync makes the whole of its log durable.
  function Appended(db: Db, sync: bool): (r: Db)
    requires db.writer.Logging?
  {
    var k, batch := db.risk, db.writer.batch;
    db.(writer := Logged(batch, db.writer.last),
        risk := k.(unsure := if k.outOfStep then k.unsure + batch else k.unsure,
                   unsynced := if sync then k.unsynced - At(db.mems, Some(db.mem)) else k.unsynced + batch))
  }

  // The record may be in the log or not, and the writer may agree with the file or not:
  // LogFailures says when.
  function AppendFailing(db: Db, agrees: bool): (r: Db)
    requires db.writer.Logging?
  {
    var k, m := db.risk, db.mem;
    db.(writer := Failed(db.writer.last),
        risk := k.(outOfStep := k.outOfStep || !agrees, failed := k.failed[m := At(k.failed, Some(m)) + db.writer.batch]))
  }

  function BatchInserted(db: Db): (r: Db)
    requires db.writer.Logged?
  {
    db.(mems := db.mems[db.mem := At(db.mems, Some(db.mem)) + db.writer.batch],
        writer := Inserted(db.writer.batch, db.writer.last))
  }

  // MakeRoomForWrite, once there is no immutable memtable.
  function Switched(db: Db): (r: Db) {
    db.(next := db.next + 1, imm := Some(db.mem), mem := db.next, mems := db.mems[db.next := {}],
        risk := db.risk.(outOfStep := false, failed := db.risk.failed[db.next := {}]))
  }

  function ReaderAt(db: Db, at: nat, history: Entries): (r: Reader) {
    Reader(at, db.mem, db.imm, db.current, history)
  }

  // ------------------------------------------------------------------ the background thread

  function FlushBegun(db: Db, i: nat): (r: Db)
    requires i < |db.tasks|
  {
    var job := if db.tasks[i].job.Waiting? then Flushing else db.tasks[i].job;
    WithTask(db, i, Task(job, Building(db.next))).(next := db.next + 1, pending := db.pending + {db.next})
  }

  // The edit of CompactMemTable, with logfile_number_ as it is now.
  function FlushEdit(db: Db, file: nat): (e: Edit) {
    Edit({}, if At(db.mems, db.imm) == {} then {} else {file}, db.mem, db.next, db.lastSequence)
  }

  // pending_outputs_ is erased before LogAndApply.
  function FlushCommitted(db: Db, i: nat): (r: Db)
    requires i < |db.tasks| && db.tasks[i].stage.Built?
  {
    var t := db.tasks[i];
    WithTask(db, i, Task(t.job, Installing(FlushEdit(db, t.stage.file), true, false)))
    .(pending := db.pending - {t.stage.file})
  }

  // CompactMemTable returns with an error.
  function FlushFailed(db: Db, i: nat, pending: set<nat>): (r: Db)
    requires i < |db.tasks|
  {
    var j := db.tasks[i].job;
    WithTask(db, i, Task(if j.Flushing? then Finished else j, Quiet)).(pending := pending, bgError := true)
  }

  function OutputWritten(db: Db, i: nat): (r: Db)
    requires i < |db.tasks| && db.tasks[i].job.Compacting?
  {
    var p := db.tasks[i].job.picked;
    WithTask(db, i, Task(Compacting(p.(outputs := p.outputs + {db.next})), Quiet))
    .(next := db.next + 1, pending := db.pending + {db.next})
  }

  // RecordBackgroundError, CleanupCompaction and ReleaseInputs.
  function CompactionAbandoned(db: Db, i: nat): (r: Db)
    requires i < |db.tasks| && db.tasks[i].job.Compacting?
  {
    WithTask(db, i, Task(Finished, Quiet))
    .(pending := db.pending - db.tasks[i].job.picked.outputs, bgError := true)
  }

  function CompactionCommitted(db: Db, i: nat): (r: Db)
    requires i < |db.tasks| && db.tasks[i].job.Compacting?
  {
    var p := db.tasks[i].job.picked;
    var e := Edit(p.inputs, p.outputs, db.logNumber, db.next, db.lastSequence);
    WithTask(db, i, Task(db.tasks[i].job, Installing(e, false, false)))
  }

  function ManifestWith(m: Manifest, e: Edit): (r: Manifest) {
    Manifest(Applied(m.files, e), e.logNumber, 0, e.nextFile, e.lastSequence)
  }

  function Installed(db: Db, i: nat): (r: Db)
    requires i < |db.tasks| && db.tasks[i].stage.Installing?
    requires !db.tasks[i].stage.flush ==> db.tasks[i].job.Compacting?
  {
    var t := db.tasks[i];
    var e := t.stage.edit;
    var db1 := db.(current := Applied(db.current, e), logNumber := e.logNumber);
    if t.stage.flush then WithTask(db1.(imm := None), i, Task(t.job, Collecting))
    else WithTask(db1.(pending := db.pending - t.job.picked.outputs), i, Task(Finished, Collecting))
  }

  function AfterCollect(db: Db, i: nat): (r: Db)
    requires i < |db.tasks|
  {
    var j := db.tasks[i].job;
    WithTask(db, i, Task(if j.Flushing? then Finished else j, Quiet))
  }

  // DeleteObsoleteFiles does nothing after a background error.
  function Garbage(d: Disk, db: Db, t: Task): (r: Disk) {
    if db.bgError then d else Collected(d, db.pending + LiveFiles(db, t), db.logNumber, 0, db.descriptor)
  }

  // ------------------------------------------------------------------ a crash

  // What recovery may miss.
  function Doubtful(k: Risk, machine: bool): (s: Entries) {
    k.unsure + if machine then k.unsynced else {}
  }

  ghost function Replayed(d: Disk): (s: Entries) {
    Stored(d.logs, ToReplay(d.logs, d.manifest))
  }

  // The process dies, and perhaps the machine with it.
  ghost predicate MayLose(d: Disk, k: Risk, machine: bool, lost: Entries, found: Entries) {
    && lost <= Doubtful(k, machine) * Replayed(d)
    && found <= Stored(k.failed, ToReplay(d.logs, d.manifest))
  }

  // What was lost and is in no table either.
  ghost function Gone(d: Disk, lost: Entries): (s: Entries) {
    lost - Stored(d.tables, d.manifest.files)
  }

  function Crashed(d: Disk, k: Risk, lost: Entries, found: Entries): (r: Disk) {
    d.(logs := map n | n in d.logs :: d.logs[n] - lost + At(k.failed, Some(n)) * found)
  }

  // ------------------------------------------------------------------ DB::Open

  function Begun(m: Manifest): (o: Opening) {
    Opening(m.nextFile + 1, {}, {}, {}, None, m.nextFile, false, false)
  }

  function Fresh(m: Manifest, descriptor: nat, mem: nat, next: nat): (db: Db) {
    Db(next, m.lastSequence, m.logNumber, descriptor, mem, None, map[mem := {}], m.files, Idle, Risk(false, {}, {}, map[mem := {}]), multiset{}, {}, {}, false, false, [])
  }

  function NewNames(o: Opening): (fs: set<File>) {
    {File(DescriptorFile, o.descriptor), File(TempFile, o.descriptor)}
  }

  // ------------------------------------------------------------------ the machine

  datatype Event =
    // Write
    | BeginWrite(batch: Entries, last: nat) | AppendOk(sync: bool) | AppendFailed(agrees: bool) | SyncFailed | Insert | Publish
    | SwitchMemtable
    // GetSnapshot, ReleaseSnapshot, Get, NewIterator
    | TakeSnapshot | ReleaseSnapshot(at: nat) | BeginRead(at: nat) | EndRead(r: Reader)
    // MaybeScheduleCompaction, BackgroundCall
    | Schedule | NothingToDo(i: nat) | EndCall(i: nat)
    // CompactMemTable
    | BeginFlush(i: nat) | BuildTable(i: nat) | BuildFailed(i: nat) | CommitFlush(i: nat)
    // DoCompactionWork, InstallCompactionResults
    | BeginCompaction(i: nat, picked: Picked) | WriteOutput(i: nat, content: Entries)
    | CompactionFailed(i: nat) | CommitCompaction(i: nat)
    // LogAndApply, DeleteObsoleteFiles
    | WriteManifest(i: nat) | InstallOk(i: nat) | InstallFailed(i: nat) | Collect(i: nat)
    // the process, and DB::Open
    | Crash(machine: bool, lost: Entries, found: Entries) | BeginOpen | RecoverTable(content: Entries) | RecoverLog(log: nat) | CreateLog
    | WriteDescriptor | WriteNewManifest(last: nat) | OpenFailed | OpenDone

  predicate UsesTask(ev: Event) {
    ev.NothingToDo? || ev.EndCall? || ev.BeginFlush? || ev.BuildTable? || ev.BuildFailed? || ev.CommitFlush? ||
    ev.BeginCompaction? || ev.WriteOutput? || ev.CompactionFailed? || ev.CommitCompaction? ||
    ev.WriteManifest? || ev.InstallOk? || ev.InstallFailed? || ev.Collect?
  }

  // What a step of background task t asks for.
  ghost predicate TaskEnabled(db: Db, d: Disk, t: Task, ev: Event)
    requires UsesTask(ev)
  {
    match ev
    case NothingToDo(_) => t.job.Waiting?
    case EndCall(_) => t.job.Finished? && t.stage.Quiet?
    case BeginFlush(_) =>
      t.stage.Quiet? && db.imm.Some? && (t.job.Compacting? || (t.job.Waiting? && !db.bgError))
    case BuildTable(_) => t.stage.Building?
    case BuildFailed(_) => t.stage.Building? || t.stage.Built?
    case CommitFlush(_) => t.stage.Built?
    case BeginCompaction(_, p) => t.job.Waiting? && t.stage.Quiet? && db.imm.None? && !db.bgError && IsPick(db, d.tables, p)
    case WriteOutput(_, _) => t.job.Compacting? && t.stage.Quiet?
    case CompactionFailed(_) => t.job.Compacting? && t.stage.Quiet?
    case CommitCompaction(_) => t.job.Compacting? && t.stage.Quiet? && OutputsAreKept(d.tables, t.job.picked)
    case WriteManifest(_) => t.stage.Installing? && !t.stage.durable
    case InstallOk(_) => t.stage.Installing? && t.stage.durable && (t.stage.flush || t.job.Compacting?)
    case InstallFailed(_) => t.stage.Installing? && (t.stage.flush || t.job.Compacting?)
    case Collect(_) => t.stage.Collecting?
  }

  // What a step of any other thread asks for.
  ghost predicate ClientEnabled(db: Db, ev: Event) {
    match ev
    case BeginWrite(batch, last) => db.writer.Idle? && !db.bgError && IsBatch(batch, db.lastSequence, last)
    case AppendOk(_) => db.writer.Logging?
    case AppendFailed(_) => db.writer.Logging?
    case SyncFailed => db.writer.Logging?
    case Insert => db.writer.Logged?
    case Publish => db.writer.Inserted? || db.writer.Failed?
    case SwitchMemtable => db.writer.Idle? && !db.bgError && db.imm.None?
    case TakeSnapshot => true
    case ReleaseSnapshot(s) => s in db.snapshots
    case BeginRead(at) => at == db.lastSequence || at in db.snapshots
    case EndRead(r) => r in db.readers
    case Schedule => !db.scheduled && !db.bgError
    case _ => false
  }

  ghost predicate OpenEnabled(o: Opening, d: Disk, ev: Event) {
    match ev
    case RecoverTable(content) => o.mem.None? && content <= Stored(d.logs, ToReplay(d.logs, d.manifest))
    case RecoverLog(n) => o.mem.None? && n in ToReplay(d.logs, d.manifest)
    case CreateLog =>
      o.mem.None? && o.replayed == ToReplay(d.logs, d.manifest) && o.done == Stored(d.logs, o.replayed)
    case WriteDescriptor => o.mem.Some? && !o.described
    case WriteNewManifest(last) =>
      o.mem.Some? && o.described && !o.installed && last >= d.manifest.lastSequence &&
      forall e | e in o.done :: e.key.sequence <= last
    case OpenFailed => o.mem.Some? && !o.installed
    case OpenDone => o.mem.Some? && o.installed
    case _ => false
  }

  // Recover finds CURRENT, the descriptor that it names, and the tables that this lists.
  predicate CanOpen(d: Disk) {
    File(CurrentFile, 0) in d.others && File(DescriptorFile, d.named) in d.others && d.manifest.files <= d.tables.Keys
  }

  ghost predicate Enabled(s: State, ev: Event) {
    match s.node
    case Down => (ev.BeginOpen? && CanOpen(s.disk)) || (ev.Crash? && ev.lost == ev.found == {})
    case Recovering(o) => OpenEnabled(o, s.disk, ev) || (ev.Crash? && ev.lost == ev.found == {})
    case Up(db) =>
      if ev.Crash? then MayLose(s.disk, db.risk, ev.machine, ev.lost, ev.found)
      else if UsesTask(ev) then ev.i < |db.tasks| && TaskEnabled(db, s.disk, db.tasks[ev.i], ev) else ClientEnabled(db, ev)
  }

  ghost function TaskStep(db: Db, d: Disk, ev: Event): (r: (Db, Disk))
    requires UsesTask(ev) && ev.i < |db.tasks| && TaskEnabled(db, d, db.tasks[ev.i], ev)
  {
    var t := db.tasks[ev.i];
    match ev
    case NothingToDo(i) => (WithTask(db, i, Task(Finished, Quiet)), d)
    case EndCall(i) => (db.(tasks := db.tasks[..i] + db.tasks[i + 1..], scheduled := false), d)
    case BeginFlush(i) => (FlushBegun(db, i), d)
    case BuildTable(i) =>
      (WithTask(db, i, Task(t.job, Built(t.stage.file))), d.(tables := d.tables[t.stage.file := At(db.mems, db.imm)]))
    case BuildFailed(i) => (FlushFailed(db, i, db.pending - {t.stage.file}), d)
    case CommitFlush(i) => (FlushCommitted(db, i), d)
    case BeginCompaction(i, p) => (WithTask(db, i, Task(Compacting(p), Quiet)), d)
    case WriteOutput(i, content) => (OutputWritten(db, i), d.(tables := d.tables[db.next := content]))
    case CompactionFailed(i) => (CompactionAbandoned(db, i), d)
    case CommitCompaction(i) => (CompactionCommitted(db, i), d)
    case WriteManifest(i) =>
      // the edit is appended to the descriptor that was written when the database was opened
      (WithTask(db, i, t.(stage := t.stage.(durable := true))),
       if db.descriptor == d.named then d.(manifest := ManifestWith(d.manifest, t.stage.edit)) else d)
    case InstallOk(i) => (Installed(db, i), d)
    case InstallFailed(i) => (if t.stage.flush then FlushFailed(db, i, db.pending) else CompactionAbandoned(db, i), d)
    case Collect(i) => (AfterCollect(db, i), Garbage(d, db, t))
  }

  ghost function ClientStep(s: State, db: Db, ev: Event): (r: State)
    requires ClientEnabled(db, ev)
  {
    match ev
    case BeginWrite(batch, last) => s.(node := Up(WriteBegun(db, batch, last)))
    case AppendOk(sync) =>
      State(LogAppended(s.disk, db), Up(Appended(db, sync)), s.history + db.writer.batch, s.acked, s.floor)
    case AppendFailed(agrees) => s.(node := Up(AppendFailing(db, agrees)))
    case SyncFailed => s.(node := Up(AppendFailing(db, true).(bgError := true)))
    case Insert => s.(node := Up(BatchInserted(db)))
    case Publish =>
      // the sequence numbers are used up even when the write failed
      s.(node := Up(db.(lastSequence := db.writer.last, writer := Idle)), acked := s.acked + InFlight(db.writer))
    case SwitchMemtable => s.(node := Up(Switched(db)), disk := s.disk.(logs := s.disk.logs[db.next := {}]))
    case TakeSnapshot => s.(node := Up(db.(snapshots := db.snapshots + multiset{db.lastSequence})))
    case ReleaseSnapshot(at) => s.(node := Up(db.(snapshots := db.snapshots - multiset{at})))
    case BeginRead(at) => s.(node := Up(db.(readers := db.readers + {ReaderAt(db, at, s.history)})))
    case EndRead(r) => s.(node := Up(db.(readers := db.readers - {r})))
    case Schedule => s.(node := Up(db.(scheduled := true, tasks := db.tasks + [Task(Waiting, Quiet)])))
  }

  ghost function OpenStep(s: State, o: Opening, ev: Event): (r: State)
    requires OpenEnabled(o, s.disk, ev)
  {
    var d, m := s.disk, s.disk.manifest;
    match ev
    case RecoverTable(content) =>
      s.(disk := d.(tables := d.tables[o.next := content]),
         node := Recovering(o.(next := o.next + 1, added := o.added + {o.next}, done := o.done + content)))
    case RecoverLog(n) =>
      // MarkFileNumberUsed
      s.(node := Recovering(o.(next := if o.next <= n then n + 1 else o.next, replayed := o.replayed + {n})))
    case CreateLog =>
      s.(disk := d.(logs := d.logs[o.next := {}]), node := Recovering(o.(next := o.next + 1, mem := Some(o.next))))
    case WriteDescriptor =>
      // with the file that is to become CURRENT
      s.(disk := d.(others := d.others + NewNames(o)), node := Recovering(o.(described := true)))
    case WriteNewManifest(last) =>
      s.(disk := d.(manifest := Manifest(m.files + o.added, o.mem.value, 0, o.next, last), named := o.descriptor,
                    others := d.others - {File(TempFile, o.descriptor)} + {File(CurrentFile, 0)}),
         node := Recovering(o.(installed := true)), floor := last)
    case OpenFailed =>
      // LogAndApply takes its new files away again
      s.(disk := d.(others := d.others - NewNames(o)), node := Down)
    case OpenDone =>
      s.(node := Up(Fresh(m, o.descriptor, o.mem.value, o.next)),
         disk := Collected(d, m.files, m.logNumber, 0, o.descriptor))
  }

  // Recover takes the lock and reads the descriptor.
  function Opened(s: State): (r: State) {
    s.(disk := s.disk.(others := s.disk.others + {File(LockFile, 0)}), node := Recovering(Begun(s.disk.manifest)))
  }

  ghost function CrashStep(s: State, lost: Entries, found: Entries): (r: State) {
    if !s.node.Up? then s.(node := Down)
    else
      var gone := Gone(s.disk, lost);
      State(Crashed(s.disk, s.node.db.risk, lost, found), Down, s.history - gone + found, s.acked - gone, s.floor)
  }

  ghost function Step(s: State, ev: Event): (r: State)
    requires Enabled(s, ev)
  {
    if ev.Crash? then CrashStep(s, ev.lost, ev.found)
    else
      match s.node
      case Down => Opened(s)
      case Recovering(o) => OpenStep(s, o, ev)
      case Up(db) =>
        if UsesTask(ev) then
          var r := TaskStep(db, s.disk, ev);
          var floor := if ev.BeginCompaction? then ev.picked.smallest else s.floor;
          State(r.1, Up(r.0), s.history, s.acked, floor)
        else ClientStep(s, db, ev)
  }

  // Any run: an event that is not enabled does nothing.
  ghost function Run(s: State, events: seq<Event>): (r: State)
    decreases |events|
  {
    if events == [] then s
    else Run(if Enabled(s, events[0]) then Step(s, events[0]) else s, events[1..])
  }
}
