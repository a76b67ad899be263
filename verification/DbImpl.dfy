// The loops of db/db_impl.cc that the steps of the engine stand for: replaying a log, reading
// through the layers, collecting files.
module DbImpl {
  import opened Coding
  import opened DbFormat
  import opened Lookup
  import opened LogFormat
  import R = LogReader
  import Files = LogFiles
  import Records = LogRecords
  import LogWriter
  import Failures = LogFailures
  import WB = WriteBatch
  import opened EngineModel
  import opened EngineViews
  import M = MemTable

  // ------------------------------------------------------------------ replaying a log

  // What one log record adds to the memtable.
  function RecordEntries(record: Bytes): (es: seq<Entry>) {
    if |record| < WB.HEADER then [] else WB.Numbered(WB.Replay(record).ops, WB.Sequence(record))
  }

  // The last sequence number a record claims, in 64-bit arithmetic.
  function LastOf(record: Bytes): (n: nat)
    requires |record| >= WB.HEADER
  {
    (WB.Sequence(record) + WB.Count(record) - 1) % (MAX_UINT64 + 1)
  }

  function SetOf(es: seq<Entry>): (s: Entries) {
    set e | e in es
  }

  function AllEntries(records: seq<Bytes>): (s: Entries) {
    if records == [] then {} else AllEntries(records[..|records| - 1]) + SetOf(RecordEntries(records[|records| - 1]))
  }

  function MaxSequence(records: seq<Bytes>, from: nat): (n: nat)
    ensures n >= from
  {
    if records == [] then from
    else
      var m, r := MaxSequence(records[..|records| - 1], from), records[|records| - 1];
      if |r| >= WB.HEADER && LastOf(r) > m then LastOf(r) else m
  }

  datatype Status = Ok | Corruption | IOError

  function Union(tables: seq<Entries>): (s: Entries) {
    if tables == [] then {} else Union(tables[..|tables| - 1]) + tables[|tables| - 1]
  }

  lemma UnionAdd(tables: seq<Entries>, t: Entries)
    ensures Union(tables + [t]) == Union(tables) + t
  {
    assert (tables + [t])[..|tables|] == tables;
  }

  lemma OneMore(records: seq<Bytes>, r: Bytes, from: nat)
    ensures AllEntries(records + [r]) == AllEntries(records) + SetOf(RecordEntries(r))
    ensures var m := MaxSequence(records, from);
            MaxSequence(records + [r], from) == if |r| >= WB.HEADER && LastOf(r) > m then LastOf(r) else m
  {
    assert (records + [r])[..|records|] == records;
  }

  lemma WhatARecordHolds(r: Bytes)
    ensures SetOf(RecordEntries(r)) ==
            if |r| < WB.HEADER then {} else SetOf(WB.Numbered(WB.Replay(r).ops, WB.Sequence(r)))
  {
  }

  lemma NothingYet(from: nat)
    ensures Union([]) + Content(None) == AllEntries([]) && MaxSequence([], from) == from
  {
  }

  // The answers RecoverLogFile gets from outside: whether the memtable is full after a
  // record, and whether writing a table fails.
  datatype Outside = Outside(full: nat -> bool, fails: nat -> bool)

  // A record that is a batch, all of which can be replayed.
  predicate Replayable(r: Bytes) {
    |r| >= WB.HEADER && WB.Replay(r).status == WB.Ok
  }

  // Nothing was dropped from the log, and every record of it is a batch.
  predicate Flawless(o: Outcome) {
    o.reports == [] && AllReplayable(o.records)
  }

  predicate AllReplayable(records: seq<Bytes>) {
    forall r | r in records :: Replayable(r)
  }

  lemma NothingBad()
    ensures AllReplayable([])
  {
  }

  lemma GoalHasReports(reader: R.Reader)
    requires reader.Valid()
    ensures reader.reports <= reader.Goal(false, []).reports
  {
  }

  // A flaw that has been seen is one of the whole log; and at its end all have been.
  lemma SeenSoFar(done: seq<Bytes>, more: bool, record: Bytes, o: Outcome, after: Outcome, reports: seq<nat>)
    requires o == if more then R.WithRecords(done + [record], after) else Outcome(done, reports)
    requires reports <= after.reports
    ensures reports != [] ==> !Flawless(o)
    ensures more && !Replayable(record) ==> !Flawless(o)
    ensures !more ==> (Flawless(o) <==> reports == [] && AllReplayable(done))
    ensures AllReplayable(done) && Replayable(record) ==> AllReplayable(done + [record])
  {
    hide Replayable;
    if more {
      assert o.records[|done|] == record;
    }
  }

  // RecoverLogFile without reuse of the last log.  On success the tables hold exactly what
  // the records of the log do.  With paranoid checks it fails for any flaw of the log; without
  // them only for a table that cannot be written.
  method RecoverLogFile(file: Bytes, paranoid: bool, maxSequence: nat, outside: Outside)
    returns (tables: seq<Entries>, maxSequence': nat, status: Status)
    ensures status == Ok ==>
              Union(tables) == AllEntries(ReadAll(file).records) &&
              maxSequence' == MaxSequence(ReadAll(file).records, maxSequence)
    ensures status == Ok && paranoid ==> Flawless(ReadAll(file))
    ensures (forall i :: !outside.fails(i)) ==> (status == Ok <==> !paranoid || Flawless(ReadAll(file)))
  {
    hide ReadAll, RecordEntries, LastOf, AllEntries, MaxSequence, Union, SetOf, R.WithRecords, R.Including, Delivered;
    hide R.Reader.Goal, R.Reader.Valid, R.Reader.Left, WB.Replay, WB.Numbered, WB.Sequence, Flawless, AllReplayable;
    tables, maxSequence', status := [], maxSequence, Ok;
    var reader := new R.Reader(file);
    var mem: Option<Entries> := None;
    ghost var done: seq<Bytes>, o := [], ReadAll(file);
    R.AllToCome(o);
    NothingYet(maxSequence);
    NothingBad();
    while true
      invariant reader.Valid() && fresh(reader)
      invariant o == R.WithRecords(done, reader.Goal(false, []))
      invariant Union(tables) + Content(mem) == AllEntries(done) && maxSequence' == MaxSequence(done, maxSequence)
      invariant status == Ok && (paranoid ==> reader.reports == [] && AllReplayable(done))
      decreases |reader.Left()|
    {
      ghost var before := reader.Goal(false, []);
      var more, record := reader.ReadRecord();
      ghost var after := reader.Goal(false, []);
      R.OneMore(done, more, record, before, after, reader.reports);
      GoalHasReports(reader);
      SeenSoFar(done, more, record, o, after, reader.reports);
      if paranoid && reader.reports != [] {
        status := Corruption;
      }
      if !more || status != Ok {
        break;
      }
      OneMore(done, record, maxSequence);
      WhatARecordHolds(record);
      done := done + [record];
      if |record| < WB.HEADER {
        // not even a batch header
        if paranoid {
          status := Corruption;
          break;
        }
        continue;
      }
      var replayed := WB.Replay(record);
      mem := Some(Content(mem) + SetOf(WB.Numbered(replayed.ops, WB.Sequence(record))));
      if replayed.status != WB.Ok && paranoid {
        status := Corruption;
        break;
      }
      if LastOf(record) > maxSequence' {
        maxSequence' := LastOf(record);
      }
      if outside.full(|tables|) {
        if outside.fails(|tables|) {
          status := IOError;
          break;
        }
        UnionAdd(tables, mem.value);
        tables, mem := tables + [mem.value], None;
      }
    }
    if mem.Some? && status == Ok {
      if outside.fails(|tables|) {
        status := IOError;
      } else {
        UnionAdd(tables, mem.value);
        tables := tables + [mem.value];
      }
    }
  }

  function Content(mem: Option<Entries>): (s: Entries) {
    if mem.Some? then mem.value else {}
  }

  // ------------------------------------------------------------------ the log of an engine

  // What Write appends for one group.
  datatype Batch = Batch(sequence: nat, ops: seq<WB.Op>)

  predicate Sound(b: Batch) {
    WB.AllFit(b.ops) && |b.ops| < 0x8000_0000 && b.sequence + |b.ops| <= MAX_UINT64
  }

  function LogRecords(batches: seq<Batch>): (rs: seq<Bytes>)
    ensures |rs| == |batches|
  {
    seq(|batches|, i requires 0 <= i < |batches| => WB.Contents(batches[i].sequence, batches[i].ops))
  }

  // The entries of these batches: what the engine's steps take a log to be.
  function EntriesOf(batches: seq<Batch>): (s: Entries) {
    if batches == [] then {}
    else
      var b := batches[|batches| - 1];
      EntriesOf(batches[..|batches| - 1]) + SetOf(WB.Numbered(b.ops, b.sequence))
  }

  lemma RecordOfBatch(b: Batch)
    requires Sound(b)
    ensures RecordEntries(WB.Contents(b.sequence, b.ops)) == WB.Numbered(b.ops, b.sequence)
    ensures LastOf(WB.Contents(b.sequence, b.ops)) ==
            if b.sequence + |b.ops| > 0 then b.sequence + |b.ops| - 1 else 0xFFFF_FFFF_FFFF_FFFF
  {
    hide WB.Contents, WB.Replay, WB.Numbered, WB.Sequence, WB.Count;
    WB.ReplayOf(b.sequence, b.ops);
  }

  lemma {:induction false} EntriesOfLog(batches: seq<Batch>)
    requires forall b | b in batches :: Sound(b)
    ensures AllEntries(LogRecords(batches)) == EntriesOf(batches)
    decreases |batches|
  {
    hide RecordEntries, SetOf, WB.Contents;
    if batches != [] {
      var n := |batches| - 1;
      assert LogRecords(batches)[..n] == LogRecords(batches[..n]);
      EntriesOfLog(batches[..n]);
      RecordOfBatch(batches[n]);
    }
  }

  // A crash may cut the log anywhere.  Recovery then brings back exactly the entries of the
  // batches that were appended whole, in order, and sees no corruption: an append counts
  // whole or not at all, which is how the engine's steps treat it.
  lemma AppendIsAllOrNothing(batches: seq<Batch>, n: nat)
    requires (forall b | b in batches :: Sound(b)) && n <= |LogBytes(LogRecords(batches))|
    ensures var o := ReadAll(LogBytes(LogRecords(batches))[..n]);
            var m := Records.WholeRecords(0, LogRecords(batches), n);
            AllEntries(o.records) == EntriesOf(batches[..m]) && o.reports == []
  {
    hide ReadAll, LogBytes, AllEntries, EntriesOf, Sound;
    var rs := LogRecords(batches);
    Files.TornTail(rs, n);
    var m := Records.WholeRecords(0, rs, n);
    assert rs[..m] == LogRecords(batches[..m]);
    EntriesOfLog(batches[..m]);
  }

  // The calls that append these batches, with what happens to each.
  function Calls(batches: seq<Batch>, ios: seq<seq<LogWriter.Io>>): (cs: seq<Failures.Call>)
    requires |ios| == |batches|
    ensures |cs| == |batches|
  {
    seq(|batches|, i requires 0 <= i < |batches| => Failures.Call(WB.Contents(batches[i].sequence, batches[i].ops), ios[i]))
  }

  // The batches all of whose bytes reached the file.
  function WholeBatches(l: Failures.Log, batches: seq<Batch>, ios: seq<seq<LogWriter.Io>>): (bs: seq<Batch>)
    requires |ios| == |batches|
    decreases |batches|
  {
    if batches == [] then []
    else
      var c := Calls(batches, ios)[0];
      (if Failures.AllWritten(l, c) then [batches[0]] else []) + WholeBatches(Failures.Called(l, c), batches[1..], ios[1..])
  }

  lemma {:induction false} WholeBatchesAreWritten(l: Failures.Log, batches: seq<Batch>, ios: seq<seq<LogWriter.Io>>)
    requires |ios| == |batches|
    ensures Failures.WrittenBy(l, Calls(batches, ios)) == LogRecords(WholeBatches(l, batches, ios))
    ensures forall b | b in WholeBatches(l, batches, ios) :: b in batches
    decreases |batches|
  {
    hide Failures.AllWritten, Failures.Called, WB.Contents, LogRecords, Calls;
    var cs := Calls(batches, ios);
    if batches == [] {
      assert cs == [] && LogRecords([]) == [];
    } else {
      FirstCall(batches, ios, cs);
      var whole := WholeBatches(Failures.Called(l, cs[0]), batches[1..], ios[1..]);
      WholeBatchesAreWritten(Failures.Called(l, cs[0]), batches[1..], ios[1..]);
      FirstOfLog(batches[0], whole);
      assert [] + whole == whole && [] + LogRecords(whole) == LogRecords(whole);
    }
  }

  lemma FirstCall(batches: seq<Batch>, ios: seq<seq<LogWriter.Io>>, cs: seq<Failures.Call>)
    requires |ios| == |batches| > 0 && cs == Calls(batches, ios)
    ensures cs[0].data == WB.Contents(batches[0].sequence, batches[0].ops) && cs[1..] == Calls(batches[1..], ios[1..])
  {
    hide WB.Contents;
    var more, bs, os := Calls(batches[1..], ios[1..]), batches[1..], ios[1..];
    forall i | 0 <= i < |more|
      ensures cs[1..][i] == more[i]
    {
      assert bs[i] == batches[i + 1] && os[i] == ios[i + 1];
    }
  }

  lemma FirstOfLog(b: Batch, more: seq<Batch>)
    ensures LogRecords([b] + more) == [WB.Contents(b.sequence, b.ops)] + LogRecords(more)
  {
    hide WB.Contents;
  }

  // What the engine's steps say of a log whose appends may fail: as long as the writer agrees
  // with the file after every call, recovery gets the entries of exactly the batches all of
  // which was written; and whatever is appended after that, it still gets those.
  lemma WhatTheLogKeeps(batches: seq<Batch>, ios: seq<seq<LogWriter.Io>>, later: seq<Failures.Call>)
    requires |ios| == |batches| && forall b | b in batches :: Sound(b)
    requires Failures.AlwaysAgrees(Failures.Log([], 0), Calls(batches, ios))
    ensures var l, cs := Failures.Log([], 0), Calls(batches, ios);
            var whole := EntriesOf(WholeBatches(l, batches, ios));
            && AllEntries(ReadAll(Failures.AllCalled(l, cs).file).records) == whole
            && whole <= AllEntries(ReadAll(Failures.AllCalled(l, cs + later).file).records)
  {
    hide ReadAll, AllEntries, EntriesOf, Sound, Failures.AllCalled, Failures.AlwaysAgrees, Failures.WrittenBy;
    var l, cs := Failures.Log([], 0), Calls(batches, ios);
    Failures.EmptyIsSound();
    Failures.LogOfCalls(l, cs);
    Failures.EarlierRecordsStay(cs, later);
    Failures.NothingInIt();
    WholeBatchesAreWritten(l, batches, ios);
    assert [] + Failures.WrittenBy(l, cs) == Failures.WrittenBy(l, cs);
    EntriesOfLog(WholeBatches(l, batches, ios));
    MoreRecords(Failures.WrittenBy(l, cs), ReadAll(Failures.AllCalled(l, cs + later).file).records);
  }

  lemma {:induction false} MoreRecords(a: seq<Bytes>, b: seq<Bytes>)
    requires a <= b
    ensures AllEntries(a) <= AllEntries(b)
    decreases |b|
  {
    hide RecordEntries, SetOf;
    if |a| < |b| {
      MoreRecords(a, b[..|b| - 1]);
    } else {
      assert a == b;
    }
  }

  // One put of n zeros under the empty key.
  function ZerosPut(sequence: nat, n: nat): (b: Batch) {
    Batch(sequence, [WB.Put([], Zeros(n))])
  }

  function RecordOf(b: Batch): (r: Bytes) {
    WB.Contents(b.sequence, b.ops)
  }

  lemma ZerosPutIs(sequence: nat, n: nat, k: nat)
    requires k <= n <= MAX_UINT32 && sequence < MAX_UINT64
    ensures |RecordOf(ZerosPut(sequence, n))| == 14 + |Varint(n)| + n && Sound(ZerosPut(sequence, n))
    ensures RecordOf(ZerosPut(sequence, n))[14 + |Varint(n)| + n - k..] == Zeros(k)
  {
    var op, r := WB.Put([], Zeros(n)), RecordOf(ZerosPut(sequence, n));
    assert [op][..0] == [] && WB.Body([]) == [];
    assert Varint(0) == [0];
    var prefix := [TYPE_VALUE] + ([0] + []) + Varint(n);
    assert WB.Body([op]) == prefix + Zeros(n);
    hide Varint, WB.Body, Fixed;
    TailOf(Fixed(8, sequence) + Fixed(4, 1), prefix, n, k);
  }

  lemma TailOf(front: Bytes, prefix: Bytes, n: nat, k: nat)
    requires k <= n
    ensures (front + (prefix + Zeros(n)))[|front| + |prefix| + n - k..] == Zeros(k)
  {
    var r, i := front + (prefix + Zeros(n)), |front| + |prefix| + n - k;
    assert forall j | 0 <= j < k :: r[i..][j] == r[i + j];
  }

  // What three writes give the log of a new database whose first flush fails: the second and
  // the third are acknowledged, recovery gets the second alone, and says so.
  method AnAcknowledgedBatchIsLost() returns (w: LogWriter.Writer, failed: bool, others: bool)
    ensures var second, third := ZerosPut(2, 32637), ZerosPut(3, 184);
            && failed && others && Sound(second) && Sound(third)
            && w.dest == Failures.Whole(RecordOf(second)) + Failures.Whole(RecordOf(third))
            && AllEntries(ReadAll(w.dest).records) == EntriesOf([second])
            && EntriesOf([third]) != {} && EntriesOf([third]) !! EntriesOf([second]) && ReadAll(w.dest).reports != []
  {
    ghost var second, third := ZerosPut(2, 32637), ZerosPut(3, 184);
    ThreeBatches();
    hide ReadAll, AllEntries, EntriesOf, WB.Contents, Failures.Whole, ZerosPut, Sound, Failures.IsLost;
    w, failed, others :=
      Failures.AcknowledgedAndLost(RecordOf(ZerosPut(1, 85)), RecordOf(ZerosPut(2, 32637)), RecordOf(ZerosPut(3, 184)));
    Failures.LostBeforeZeros(RecordOf(second), RecordOf(third));
    OneBatchLog(second);
    DifferentEntries();
  }

  lemma ThreeBatches()
    ensures |RecordOf(ZerosPut(1, 85))| == 100 && |RecordOf(ZerosPut(2, 32637))| == 32654 && |RecordOf(ZerosPut(3, 184))| == 200
    ensures RecordOf(ZerosPut(3, 184))[100..] == Zeros(100) && Sound(ZerosPut(2, 32637)) && Sound(ZerosPut(3, 184))
  {
    ZerosPutIs(1, 85, 0);
    ZerosPutIs(2, 32637, 0);
    ZerosPutIs(3, 184, 100);
    assert |Varint(85)| == 1 && |Varint(184)| == 2;
    assert Varint(32637) == [32637 % 128 + 128] + Varint(254) && |Varint(254)| == 2;
    hide RecordOf, Sound, ZerosPut;
  }

  lemma OneBatchLog(b: Batch)
    requires Sound(b)
    ensures AllEntries([RecordOf(b)]) == EntriesOf([b])
  {
    assert LogRecords([b]) == [RecordOf(b)];
    EntriesOfLog([b]);
  }

  lemma DifferentEntries()
    ensures EntriesOf([ZerosPut(3, 184)]) != {} && EntriesOf([ZerosPut(3, 184)]) !! EntriesOf([ZerosPut(2, 32637)])
  {
    OneEntry(2, 32637);
    OneEntry(3, 184);
  }

  lemma OneEntry(sequence: nat, n: nat)
    ensures EntriesOf([ZerosPut(sequence, n)]) == {Entry(InternalKey([], sequence, TYPE_VALUE), Zeros(n))}
  {
    var b := ZerosPut(sequence, n);
    assert [b][..0] == [] && EntriesOf([]) == {};
    assert WB.Numbered(b.ops, sequence) == [Entry(InternalKey([], sequence, TYPE_VALUE), Zeros(n))];
  }

  // The group that a leader writes is a batch in the engine's sense.
  lemma NumberedIsBatch(ops: seq<WB.Op>, last: nat)
    ensures IsBatch(SetOf(WB.Numbered(ops, last + 1)), last, last + |ops|)
  {
  }

  // ------------------------------------------------------------------ reading

  // DBImpl::Get.  What Version::Get would answer is a parameter: by its contract the newest
  // entry of its tables.
  method Get(mem: M.MemTable, imm: M.MemTable?, ghost tables: Entries, versionGet: Option<Value>, key: UserKey, snapshot: nat)
    returns (value: Option<Value>)
    requires mem.Valid() && (imm != null ==> imm.Valid())
    requires versionGet == Read(tables, key, snapshot)
    requires Distinct(mem.Contents()) && (imm != null ==> Distinct(imm.Contents()))
    ensures value == LayeredGet(mem.Contents(), if imm == null then {} else imm.Contents(), tables, key, snapshot)
  {
    hide M.MemTable.Valid, M.MemTable.Contents;
    var r := mem.Get(key, snapshot);
    if r.Here? {
      FoundIsRead(mem.Contents(), key, snapshot, r.result);
      return r.result;
    }
    if imm != null {
      r := imm.Get(key, snapshot);
      if r.Here? {
        FoundIsRead(imm.Contents(), key, snapshot, r.result);
        return r.result;
      }
    }
    value := versionGet;
  }

  lemma FoundIsRead(s: Entries, k: UserKey, at: nat, result: Option<Value>)
    requires Distinct(s) && exists e :: Answers(s, k, at, e) && result == Meaning(e)
    ensures HasCandidate(s, k, at) && Read(s, k, at) == result
  {
    var e :| Answers(s, k, at, e) && result == Meaning(e);
    ReadIs(s, k, at, e);
  }

  // ------------------------------------------------------------------ collecting files

  method DeleteObsoleteFiles(children: seq<File>, bgError: bool, pending: set<nat>, liveFiles: set<nat>,
                             logNumber: nat, prevLog: nat, manifestNumber: nat)
    returns (deleted: seq<File>)
    ensures forall f :: f in deleted <==>
              f in children && !bgError && !Keeps(f, pending + liveFiles, logNumber, prevLog, manifestNumber)
  {
    deleted := [];
    if bgError {
      // Nobody knows which version is on disk
      return;
    }
    var live := pending + liveFiles;
    for i := 0 to |children|
      invariant forall f :: f in deleted <==> f in children[..i] && !Keeps(f, live, logNumber, prevLog, manifestNumber)
    {
      assert children[..i + 1] == children[..i] + [children[i]];
      if !Keeps(children[i], live, logNumber, prevLog, manifestNumber) {
        deleted := deleted + [children[i]];
      }
    }
    assert children[..|children|] == children;
  }

  // What is left is what the engine's step leaves, of tables, logs and all other files.
  lemma DeletingIsCollecting(d: Disk, children: seq<File>, deleted: seq<File>, db: Db, t: Task)
    requires forall f :: f in children <==>
               (f.kind.TableFile? && f.number in d.tables) || (f.kind.LogFile? && f.number in d.logs) || f in d.others
    requires forall f | f in d.others :: !f.kind.TableFile? && !f.kind.LogFile?
    requires forall f :: f in deleted <==>
               f in children && !db.bgError && !Keeps(f, db.pending + LiveFiles(db, t), db.logNumber, 0, db.descriptor)
    ensures var d' := Garbage(d, db, t);
            forall f :: f in children && f !in deleted <==>
              (f.kind.TableFile? && f.number in d'.tables) || (f.kind.LogFile? && f.number in d'.logs) || f in d'.others
    ensures var d' := Garbage(d, db, t);
            (forall n | n in d'.tables :: n in d.tables && d'.tables[n] == d.tables[n]) &&
            (forall n | n in d'.logs :: n in d.logs && d'.logs[n] == d.logs[n]) &&
            d'.manifest == d.manifest && d'.named == d.named
  {
  }
}
