// log::Reader: db/log_reader.cc, with initial_offset 0 and checksums on, as every caller
// opens it.
module LogReader {
  import opened Coding
  import opened Crc32c
  import opened LogFormat

  // What one call of ReadPhysicalRecord does to the events still to come and to the reports.
  ghost predicate Returns(es: seq<Event>, kind: byte, result: Bytes, more: seq<nat>, es': seq<Event>) {
    if es == [] then kind == EOF && more == [] && es' == []
    else
      && es' == es[1..]
      && match es[0]
         case Got(k, data) => kind == k && result == data && more == []
         case Lost(bytes, report) => kind == BAD_RECORD && more == if report then [bytes] else []
  }

  function Including(reports: seq<nat>, o: Outcome): (r: Outcome) {
    o.(reports := reports + o.reports)
  }

  class Reader {
    const file: Bytes
    var filePos: nat    // how much of the file has been read; end_of_buffer_offset_
    var buffer: Bytes
    var eof: bool
    var reports: seq<nat>  // the sizes given to reporter_->Corruption

    constructor (file: Bytes)
      ensures Valid() && this.file == file && reports == []
      ensures Goal(false, []) == ReadAll(file)
    {
      this.file := file;
      filePos, buffer, eof, reports := 0, [], false, [];
      new;
      hide Events, Assemble;
      assert file[0..] == file;
      AtTheStart(Assemble(Events(file, 0), false, []));
    }

    ghost predicate Valid()
      reads this`filePos, this`buffer, this`eof
    {
      && |buffer| <= filePos <= |file| && buffer == file[filePos - |buffer|..filePos]
      && if eof then filePos == |file| < BlockEnd(filePos - |buffer|)
         else filePos % BLOCK_SIZE == 0 && |buffer| <= BLOCK_SIZE
    }

    // The offset of the next byte the reader looks at, and what there is from it on.
    ghost function Pos(): (p: nat)
      reads this`filePos, this`buffer, this`eof
      requires Valid()
    {
      filePos - |buffer|
    }

    ghost function Left(): (b: Bytes)
      reads this`filePos, this`buffer, this`eof
      requires Valid()
    {
      file[Pos()..]
    }

    ghost function ToCome(): (es: seq<Event>)
      reads this`filePos, this`buffer, this`eof
      requires Valid()
    {
      Events(Left(), Pos())
    }

    // What ReadRecord calls would still deliver and report, after what was reported so far.
    ghost function Goal(inside: bool, scratch: Bytes): (o: Outcome)
      reads this
      requires Valid()
    {
      Including(reports, Assemble(ToCome(), inside, scratch))
    }

    // The next block; a short one is the last.
    method ReadBlock()
      requires Valid() && !eof && |buffer| < HEADER_SIZE
      modifies this`filePos, this`buffer, this`eof
      ensures Valid() && ToCome() == old(ToCome()) && |Left()| <= |old(Left())|
      ensures eof || |buffer| == BLOCK_SIZE
    {
      ghost var left, pos := Left(), Pos();
      var n := if |file| - filePos < BLOCK_SIZE then |file| - filePos else BLOCK_SIZE;
      buffer := file[filePos..filePos + n];
      filePos := filePos + n;
      eof := n < BLOCK_SIZE;
      TrailerSkipped(file, left, pos, Left(), Pos());
    }

    method ReadPhysicalRecord() returns (kind: byte, result: Bytes, ghost more: seq<nat>)
      requires Valid()
      modifies this
      ensures Valid() && reports == old(reports) + more
      ensures Returns(old(ToCome()), kind, result, more, ToCome())
      ensures kind != EOF ==> |Left()| < |old(Left())|
    {
      hide Events, ParseBuffer, Returns;
      more := [];
      while |buffer| < HEADER_SIZE
        invariant Valid() && ToCome() == old(ToCome()) && |Left()| <= |old(Left())|
        invariant reports == old(reports)
        decreases if eof then 0 else 1, BLOCK_SIZE - |buffer|
      {
        if eof {
          // Less than a header: the writer stopped there
          kind, result := EndOfFile();
          return;
        }
        ReadBlock();
      }
      kind, result, more := ParseHeader();
    }

    method EndOfFile() returns (kind: byte, result: Bytes)
      requires Valid() && eof && ParseBuffer(buffer, eof) == AtEof
      modifies this`buffer
      ensures Valid() && kind == EOF
      ensures Returns(old(ToCome()), kind, result, [], ToCome())
    {
      hide Events, ParseBuffer;
      AtTheBuffer(file, filePos, buffer, eof);
      EndsHere(Left(), Pos());
      buffer := [];
      NothingToCome(file[filePos..], filePos);
      kind, result := EOF, [];
    }

    // kBadRecord: what is left of the block is dropped.
    method DropBuffer(report: bool) returns (kind: byte, result: Bytes, ghost more: seq<nat>)
      requires Valid() && |buffer| >= HEADER_SIZE && ParseBuffer(buffer, eof) == Drop(report)
      modifies this
      ensures Valid() && reports == old(reports) + more && kind == BAD_RECORD
      ensures Returns(old(ToCome()), kind, result, more, ToCome()) && |Left()| < |old(Left())|
    {
      hide Events, ParseBuffer, Returns, PhysicalAt, InBlock;
      AtTheBuffer(file, filePos, buffer, eof);
      ghost var left, pos, n := Left(), Pos(), |buffer|;
      var dropSize := |buffer|;
      buffer, more := [], [];
      if report {
        reports := reports + [dropSize];
        more := [dropSize];
      }
      DropHere(left, pos, report, n, Left(), Pos());
      kind, result := BAD_RECORD, [];
    }

    // A checked physical record is handed over.
    method TakePiece(length: nat) returns (kind: byte, result: Bytes)
      requires Valid() && HEADER_SIZE + length <= |buffer|
      requires ParseBuffer(buffer, eof) == Piece(buffer[6], buffer[HEADER_SIZE..HEADER_SIZE + length])
      modifies this`buffer
      ensures Valid() && Returns(old(ToCome()), kind, result, [], ToCome()) && |Left()| < |old(Left())|
    {
      hide Events, ParseBuffer, Returns, PhysicalAt, InBlock;
      AtTheBuffer(file, filePos, buffer, eof);
      ghost var left, pos := Left(), Pos();
      kind, result := buffer[6], buffer[HEADER_SIZE..HEADER_SIZE + length];
      buffer := buffer[HEADER_SIZE + length..];
      PieceHere(left, pos, kind, result, Left(), Pos());
    }

    // The checks on the header and on what follows it.
    method ParseHeader() returns (kind: byte, result: Bytes, ghost more: seq<nat>)
      requires Valid() && |buffer| >= HEADER_SIZE
      modifies this
      ensures Valid() && reports == old(reports) + more
      ensures Returns(old(ToCome()), kind, result, more, ToCome())
      ensures kind != EOF ==> |Left()| < |old(Left())|
    {
      hide Events, Checksum, Loaded, Returns, Valid, ToCome, Left;
      more := [];
      var low: nat, high: nat, t := buffer[4], buffer[5], buffer[6];
      var length := low + 256 * high;
      if HEADER_SIZE + length > |buffer| {
        if eof {
          kind, result := EndOfFile();
        } else {
          kind, result, more := DropBuffer(true);
        }
      } else if t == ZERO_TYPE && length == 0 {
        kind, result, more := DropBuffer(false);
      } else if Loaded(buffer[..4]) != Checksum(buffer[6..HEADER_SIZE + length]) {
        // The length is part of what cannot be trusted
        kind, result, more := DropBuffer(true);
      } else {
        kind, result := TakePiece(length);
      }
    }

    method ReportCorruption(bytes: nat)
      modifies this`reports
      ensures reports == old(reports) + [bytes]
    {
      reports := reports + [bytes];
    }

    // The next logical record.
    method ReadRecord() returns (ok: bool, record: Bytes)
      requires Valid()
      modifies this
      ensures Valid()
      ensures var before, after := old(Goal(false, [])), Goal(false, []);
              if ok then before == Delivered(record, after) else before == Outcome([], reports)
      ensures ok ==> |Left()| < |old(Left())|
    {
      hide Events, Assemble, Returns, ParseBuffer, Including, Delivered, Valid, Left, Pos, ToCome;
      var scratch, inside := [], false;
      while true
        invariant Valid() && |Left()| <= |old(Left())|
        invariant !inside ==> scratch == []
        invariant Goal(inside, scratch) == old(Goal(false, []))
        decreases |Left()|
      {
        ghost var es, before := ToCome(), reports;
        var kind, fragment, more := ReadPhysicalRecord();
        Switch(es, inside, scratch, before, kind, fragment, more, ToCome());
        if kind == FULL_TYPE {
          if inside && scratch != [] {
            ReportCorruption(|scratch|);
          }
          return true, fragment;
        } else if kind == FIRST_TYPE {
          if inside && scratch != [] {
            ReportCorruption(|scratch|);
          }
          scratch, inside := fragment, true;
        } else if kind == MIDDLE_TYPE {
          if !inside {
            ReportCorruption(|fragment|);
          } else {
            scratch := scratch + fragment;
          }
        } else if kind == LAST_TYPE {
          if !inside {
            ReportCorruption(|fragment|);
          } else {
            return true, scratch + fragment;
          }
        } else if kind == EOF {
          return false, [];
        } else if kind == BAD_RECORD {
          if inside {
            ReportCorruption(|scratch|);
            scratch, inside := [], false;
          }
        } else {
          ReportCorruption(|fragment| + if inside then |scratch| else 0);
          scratch, inside := [], false;
        }
      }
    }
  }

  // What each case of the switch has to report and deliver, and in what state it goes on.
  lemma Switch(es: seq<Event>, inside: bool, scratch: Bytes, before: seq<nat>,
               kind: byte, fragment: Bytes, more: seq<nat>, es': seq<Event>)
    requires Returns(es, kind, fragment, more, es') && (!inside ==> scratch == [])
    ensures var goal, now := Including(before, Assemble(es, inside, scratch)), before + more;
            if kind == FULL_TYPE then
              goal == Delivered(fragment, Including(if inside && scratch != [] then now + [|scratch|] else now,
                                                    Assemble(es', false, [])))
            else if kind == FIRST_TYPE then
              goal == Including(if inside && scratch != [] then now + [|scratch|] else now, Assemble(es', true, fragment))
            else if kind == MIDDLE_TYPE then
              goal == if inside then Including(now, Assemble(es', true, scratch + fragment))
                      else Including(now + [|fragment|], Assemble(es', false, scratch))
            else if kind == LAST_TYPE then
              goal == if inside then Delivered(scratch + fragment, Including(now, Assemble(es', false, [])))
                      else Including(now + [|fragment|], Assemble(es', false, scratch))
            else if kind == EOF then goal == Outcome([], now)
            else if kind == BAD_RECORD then
              goal == Including(if inside then now + [|scratch|] else now, Assemble(es', false, []))
            else goal == Including(now + [|fragment| + if inside then |scratch| else 0], Assemble(es', false, []))
  {
    hide Including, Reported, Delivered;
    assert before + [] == before;
    IncludingLaws();
  }

  lemma AtTheStart(o: Outcome)
    ensures Including([], o) == o
  {
    assert [] + o.reports == o.reports;
  }

  lemma IncludingLaws()
    ensures forall r, n, o :: Including(r, Reported(n, o)) == Including(r + [n], o)
    ensures forall r, b, o :: Including(r, Delivered(b, o)) == Delivered(b, Including(r, o))
    ensures forall r :: Including(r, Outcome([], [])) == Outcome([], r)
  {
    forall r: seq<nat>, n, o: Outcome
      ensures Including(r, Reported(n, o)) == Including(r + [n], o)
    {
      ConcatAssociates(r, [n], o.reports);
    }
    forall r: seq<nat>
      ensures Including(r, Outcome([], [])) == Outcome([], r)
    {
      assert r + [] == r;
    }
  }

  // Fewer than 7 bytes before a block boundary, or none at all, are skipped.
  lemma TrailerSkipped(file: Bytes, left: Bytes, pos: nat, left': Bytes, pos': nat)
    requires pos <= pos' <= |file| && left == file[pos..] && left' == file[pos'..]
    requires pos' % BLOCK_SIZE == 0 && pos' - pos < HEADER_SIZE
    ensures Events(left, pos) == Events(left', pos')
  {
    hide Events;
    if pos < pos' {
      assert left[pos' - pos..] == left' && InBlock(left, pos) == pos' - pos;
      Reads(left, pos, Skip, pos' - pos);
      NothingBefore(Events(left', pos'));
    }
  }

  lemma NothingBefore(es: seq<Event>)
    ensures [] + es == es
  {
  }

  // The buffer is what is left of the block.
  lemma AtTheBuffer(file: Bytes, filePos: nat, buffer: Bytes, eof: bool)
    requires |buffer| <= filePos <= |file| && buffer == file[filePos - |buffer|..filePos]
    requires if eof then filePos == |file| < BlockEnd(filePos - |buffer|)
             else filePos % BLOCK_SIZE == 0 && HEADER_SIZE <= |buffer| <= BLOCK_SIZE
    ensures var pos := filePos - |buffer|;
            InBlock(file[pos..], pos) == |buffer| && PhysicalAt(file[pos..], pos) == ParseBuffer(buffer, eof)
  {
    var pos := filePos - |buffer|;
    assert file[pos..][..|buffer|] == buffer;
  }

  lemma NothingToCome(left: Bytes, pos: nat)
    requires |left| == 0
    ensures Events(left, pos) == []
  {
  }

  // One read, as the events see it.
  lemma Reads(left: Bytes, pos: nat, p: Physical, n: nat)
    requires p == PhysicalAt(left, pos) && n == InBlock(left, pos)
    ensures p.AtEof? ==> Events(left, pos) == []
    ensures !p.AtEof? ==> Events(left, pos) == EventOf(p, n) + Events(left[Consumed(p, n)..], pos + Consumed(p, n))
  {
    hide ParseBuffer, PhysicalAt, InBlock, EventOf;
  }

  lemma EndsHere(left: Bytes, pos: nat)
    requires PhysicalAt(left, pos) == AtEof
    ensures Events(left, pos) == []
  {
  }

  lemma DropHere(left: Bytes, pos: nat, report: bool, n: nat, left': Bytes, pos': nat)
    requires PhysicalAt(left, pos) == Drop(report) && n == InBlock(left, pos)
    requires left' == left[n..] && pos' == pos + n
    ensures Returns(Events(left, pos), BAD_RECORD, [], if report then [n] else [], Events(left', pos'))
  {
    hide PhysicalAt, InBlock, Events;
    Reads(left, pos, Drop(report), n);
  }

  lemma PieceHere(left: Bytes, pos: nat, kind: byte, data: Bytes, left': Bytes, pos': nat)
    requires PhysicalAt(left, pos) == Piece(kind, data) && HEADER_SIZE + |data| <= |left|
    requires left' == left[HEADER_SIZE + |data|..] && pos' == pos + HEADER_SIZE + |data|
    ensures Returns(Events(left, pos), kind, data, [], Events(left', pos'))
  {
    hide PhysicalAt, InBlock, Events;
    Reads(left, pos, Piece(kind, data), InBlock(left, pos));
  }

  // Calling ReadRecord until it returns false.
  method ReadLog(file: Bytes) returns (o: Outcome)
    ensures o == ReadAll(file)
  {
    hide *;
    var reader := new Reader(file);
    var records: seq<Bytes> := [];
    AllToCome(ReadAll(file));
    while true
      invariant reader.Valid() && fresh(reader)
      invariant ReadAll(file) == WithRecords(records, reader.Goal(false, []))
      decreases |reader.Left()|
    {
      ghost var before := reader.Goal(false, []);
      var ok, record := reader.ReadRecord();
      OneMore(records, ok, record, before, reader.Goal(false, []), reader.reports);
      if !ok {
        return Outcome(records, reader.reports);
      }
      records := records + [record];
    }
  }

  function WithRecords(records: seq<Bytes>, o: Outcome): (r: Outcome) {
    o.(records := records + o.records)
  }

  lemma AllToCome(o: Outcome)
    ensures WithRecords([], o) == o
  {
    assert [] + o.records == o.records;
  }

  lemma OneMore(records: seq<Bytes>, ok: bool, record: Bytes, before: Outcome, after: Outcome, reports: seq<nat>)
    requires if ok then before == Delivered(record, after) else before == Outcome([], reports)
    ensures WithRecords(records, before) ==
            if ok then WithRecords(records + [record], after) else Outcome(records, reports)
  {
    ConcatAssociates(records, [record], after.records);
    assert records + [] == records;
  }
}
