// What becomes of every byte that a log's reader takes in: db/log_reader.cc.
module LogAccounting {
  import Crc32c
  import opened LogFormat
  import opened LogRecords
  import LogFiles

  function Sum(ns: seq<nat>): (n: nat) {
    if ns == [] then 0 else ns[0] + Sum(ns[1..])
  }

  function Total(records: seq<Bytes>): (n: nat) {
    if records == [] then 0 else |records[0]| + Total(records[1..])
  }

  // The payloads of the fragments that passed their checks, and the stretches that
  // ReadPhysicalRecord drops with a report.
  function TakenIn(es: seq<Event>): (n: nat) {
    if es == [] then 0
    else (match es[0] case Got(_, data) => |data| case Lost(bytes, report) => if report then bytes else 0) + TakenIn(es[1..])
  }

  // What ReadRecord has of a record when the file ends.
  function Unfinished(es: seq<Event>, inside: bool, scratch: Bytes): (b: Bytes) {
    if es == [] then (if inside then scratch else [])
    else
      match es[0]
      case Lost(_, _) => Unfinished(es[1..], false, [])
      case Got(kind, data) =>
        if kind == 2 then Unfinished(es[1..], true, data)
        else if kind == 3 && inside then Unfinished(es[1..], true, scratch + data)
        else if (kind == 3 || kind == 4) && !inside then Unfinished(es[1..], false, scratch)
        else Unfinished(es[1..], false, [])
  }

  // A type byte that is one of the reader's own two signals, kEof and kBadRecord.
  ghost predicate NoSignals(es: seq<Event>) {
    forall i | 0 <= i < |es| && es[i].Got? :: es[i].kind != 5 && es[i].kind != 6
  }

  lemma {:induction false} AssembleAccounts(es: seq<Event>, inside: bool, scratch: Bytes)
    requires NoSignals(es) && (!inside ==> scratch == [])
    ensures var o := Assemble(es, inside, scratch);
            Total(o.records) + Sum(o.reports) + |Unfinished(es, inside, scratch)| == TakenIn(es) + |scratch|
    decreases |es|
  {
    if es != [] {
      var rest := es[1..];
      assert forall i | 0 <= i < |rest| :: rest[i] == es[i + 1];
      AssembleAccounts(rest, false, []);
      match es[0]
      case Lost(_, _) =>
      case Got(kind, data) =>
        if kind == FIRST_TYPE {
          AssembleAccounts(rest, true, data);
        } else if kind == MIDDLE_TYPE && inside {
          AssembleAccounts(rest, true, scratch + data);
        }
    }
  }

  // Reading any bytes whatever: everything that passed the checks is in a record that ReadRecord
  // returned or in a report, to the byte, but for the record that the file ends in the middle of;
  // and so is every stretch dropped for its checksum or its length. 
  lemma NothingIsDroppedInSilence(file: Bytes)
    requires NoSignals(Events(file, 0))
    ensures var o := ReadAll(file);
            Total(o.records) + Sum(o.reports) + |Unfinished(Events(file, 0), false, [])| == TakenIn(Events(file, 0))
  {
    AssembleAccounts(Events(file, 0), false, []);
  }

  // The condition is needed: a fragment whose type byte is 5 passes its checks, and is taken for
  // the end of the file.  What follows it, and what it interrupts, is neither read nor reported.
  lemma {:induction false} TypeFiveEndsTheFile(es: seq<Event>, data: Bytes, more: seq<Event>, inside: bool, scratch: Bytes)
    requires NoSignals(es)
    ensures Assemble(es + [Got(5, data)] + more, inside, scratch) == Assemble(es, inside, scratch)
    decreases |es|
  {
    var all := es + [Got(5, data)] + more;
    if es == [] {
      assert all[0] == Got(5, data);
    } else {
      var rest := es[1..];
      assert all[0] == es[0] && all[1..] == rest + [Got(5, data)] + more;
      assert forall i | 0 <= i < |rest| :: rest[i] == es[i + 1];
      TypeFiveEndsTheFile(rest, data, more, false, []);
      TypeFiveEndsTheFile(rest, data, more, false, scratch);
      match es[0]
      case Lost(_, _) =>
      case Got(kind, d) =>
        TypeFiveEndsTheFile(rest, data, more, true, d);
        TypeFiveEndsTheFile(rest, data, more, true, scratch + d);
    }
  }

  // ------------------------------------------------------------------ a file that is longer than its log

  // Stretches that are dropped without a report.
  ghost predicate Silent(es: seq<Event>) {
    forall i | 0 <= i < |es| :: es[i].Lost? && !es[i].report
  }

  lemma {:induction false} SilenceIsNothing(es: seq<Event>)
    requires Silent(es)
    ensures Assemble(es, false, []) == Outcome([], [])
    decreases |es|
  {
    if es != [] {
      assert forall i | 0 <= i < |es[1..]| :: es[1..][i] == es[i + 1];
      SilenceIsNothing(es[1..]);
    }
  }

  lemma ZerosFrom(n: nat, m: nat)
    requires m <= n
    ensures Zeros(n)[..m] == Zeros(m) && Zeros(n)[m..] == Zeros(n - m)
  {
  }

  lemma {:induction false} ZerosAreSilent(n: nat, pos: nat)
    ensures Silent(Events(Zeros(n), pos))
    decreases n
  {
    hide Events, Silent, InBlock, Zeros;
    var m, p := InBlock(Zeros(n), pos), PhysicalAt(Zeros(n), pos);
    ZerosRead(n, pos, m, p);
    if p.AtEof? {
      NothingIsSilent(Zeros(n), pos);
    } else {
      ZerosAreSilent(n - m, pos + m);
      LogFiles.OneRead(Zeros(n), pos, p, m, Zeros(n - m), pos + m);
      SilentFirst(p, m, Events(Zeros(n - m), pos + m));
    }
  }

  lemma NothingIsSilent(left: Bytes, pos: nat)
    requires PhysicalAt(left, pos).AtEof?
    ensures Silent(Events(left, pos))
  {
  }

  lemma SilentFirst(p: Physical, m: nat, es: seq<Event>)
    requires (p == Skip || p == Drop(false)) && Silent(es)
    ensures Silent(EventOf(p, m) + es)
  {
  }

  // A read of zeros skips what is left of the block.
  lemma ZerosRead(n: nat, pos: nat, m: nat, p: Physical)
    requires m == InBlock(Zeros(n), pos) && p == PhysicalAt(Zeros(n), pos)
    ensures m <= n && Zeros(n)[m..] == Zeros(n - m)
    ensures p.AtEof? || ((p == Skip || p == Drop(false)) && m > 0 && Consumed(p, m) == m)
  {
    ZerosFrom(n, m);
    ZerosParse(m, n < BlockEnd(pos) - pos);
    hide ParseBuffer;
  }

  lemma ZerosParse(m: nat, eof: bool)
    ensures var p := ParseBuffer(Zeros(m), eof); p.AtEof? || p == Skip || p == Drop(false)
  {
    hide Crc32c.Checksum, Crc32c.Loaded;
  }

  lemma {:induction false} RecordsThen(pos: nat, records: seq<Bytes>, more: seq<Event>)
    requires Assemble(more, false, []) == Outcome([], [])
    ensures Assemble(Pieces(FragmentsOf(pos, records)) + more, false, []) == Outcome(records, [])
    decreases |records|
  {
    if records == [] {
      assert Pieces(FragmentsOf(pos, records)) + more == more;
    } else {
      var first := FragmentsFrom(pos, records[0], true);
      var rest := FragmentsOf(End(pos, first), records[1..]);
      PiecesConcat(first, rest);
      FragmentsAreAFragmentation(pos, records[0], true);
      assert Pieces(first + rest) + more == Pieces(first) + (Pieces(rest) + more);
      WholeRecord(first, records[0], true, [], Pieces(rest) + more);
      RecordsThen(End(pos, first), records[1..], more);
      assert records == [records[0]] + records[1..] && [] + records[0] == records[0];
    }
  }

  // A log in a file that was allocated ahead, with any number of zeros behind it: its records are
  // read, and nothing is reported.
  lemma PreallocatedLogReadsBack(records: seq<Bytes>, n: nat)
    ensures ReadAll(LogBytes(records) + Zeros(n)) == Outcome(records, [])
  {
    hide Events, FragmentsOf, RenderedAll;
    var fs, file := FragmentsOf(0, records), LogBytes(records) + Zeros(n);
    LogFiles.FragmentsAreRead(0, fs, Zeros(n), file, End(0, fs));
    ZerosAreSilent(n, End(0, fs));
    SilenceIsNothing(Events(Zeros(n), End(0, fs)));
    RecordsThen(0, records, Events(Zeros(n), End(0, fs)));
  }
}
