// Where the reader stands when it has read all there is of a log (db/log_reader.cc:56-271), and
// what it makes of records that a writer appends from there.
module LogStanding {
  import opened Coding
  import opened Crc32c
  import opened LogFormat
  import opened LogRecords
  import opened LogFiles
  import opened LogWriter
  import opened CrcOfEmpty

  // The file after these records, written by a writer that takes itself to be at offset b of
  // a block.
  function Continued(file: Bytes, b: nat, records: seq<Bytes>): (r: Bytes) {
    file + RenderedAll(b, FragmentsOf(b, records))
  }

  // Whatever is written from now on is read back, after what there is to read now.
  ghost predicate ReadsBack(file: Bytes, b: nat) {
    forall records :: ReadAll(Continued(file, b, records)).records == ReadAll(file).records + records
  }

  // ------------------------------------------------------------------ where the reader stands

  // Reading from offset pos uses up all of these bytes, whatever comes after them.
  ghost predicate Standing(left: Bytes, pos: nat)
    decreases |left|
  {
    left == [] ||
    var n, p := InBlock(left, pos), PhysicalAt(left, pos);
    && !p.AtEof? && (p.Piece? ==> p.kind != EOF) && (p.Drop? ==> n == BlockEnd(pos) - pos)
    && Standing(left[Consumed(p, n)..], pos + Consumed(p, n))
  }

  // The zeros of the trailer, if the next header does not fit in this block.
  function Trailer(pos: nat): (z: Bytes) {
    Zeros(HeaderAt(pos) - pos)
  }

  // The reader, too, will look for the next record where the file ends: it is through with
  // all there is, and the trailer that may come next completes nothing.
  ghost predicate InStep(file: Bytes) {
    var whole := file + Trailer(|file|);
    Standing(whole, 0) && ReadAll(whole).records == ReadAll(file).records
  }

  lemma StandingParts(a: Bytes, pos: nat, n: nat, p: Physical, a': Bytes, pos': nat)
    requires a != [] && n == InBlock(a, pos) && p == PhysicalAt(a, pos)
    requires a' == a[Consumed(p, n)..] && pos' == pos + Consumed(p, n)
    ensures Standing(a, pos) <==>
            !p.AtEof? && (p.Piece? ==> p.kind != EOF) && (p.Drop? ==> n == BlockEnd(pos) - pos) && Standing(a', pos')
  {
  }

  // A record that is all there is read alike whatever follows, and so is a full block.
  lemma MoreBytes(a: Bytes, pos: nat, t: Bytes, p: Physical)
    requires p == PhysicalAt(a, pos)
    requires p.Piece? || |a| >= BlockEnd(pos) - pos
    ensures PhysicalAt(a + t, pos) == p && (!p.Piece? ==> InBlock(a + t, pos) == InBlock(a, pos))
    ensures !p.AtEof? ==> (a + t)[Consumed(p, InBlock(a, pos))..] == a[Consumed(p, InBlock(a, pos))..] + t
  {
    var n, m := InBlock(a, pos), InBlock(a + t, pos);
    assert n <= m && (a + t)[..m][..n] == a[..n];
    if |a| >= BlockEnd(pos) - pos {
      assert (a + t)[..m] == a[..n];
    } else {
      SameParse(a[..n], (a + t)[..m], |a + t| < BlockEnd(pos) - pos);
    }
  }

  lemma SameParse(short: Bytes, long: Bytes, eof: bool)
    requires short <= long && ParseBuffer(short, true).Piece?
    ensures ParseBuffer(long, eof) == ParseBuffer(short, true)
  {
    var n := HEADER_SIZE + |ParseBuffer(short, true).data|;
    assert long[..4] == short[..4] && long[6..n] == short[6..n] && long[HEADER_SIZE..n] == short[HEADER_SIZE..n];
  }

  lemma {:induction false} StandingSplits(a: Bytes, pos: nat, t: Bytes)
    requires Standing(a, pos)
    ensures Events(a + t, pos) == Events(a, pos) + Events(t, pos + |a|)
    decreases |a|
  {
    hide Standing, Events, PhysicalAt, InBlock;
    if a == [] {
      NothingLeft(pos);
      assert a + t == t && [] + Events(t, pos) == Events(t, pos);
    } else {
      var n, p := InBlock(a, pos), PhysicalAt(a, pos);
      var m := Consumed(p, n);
      ReadAdvances(a, pos);
      StandingParts(a, pos, n, p, a[m..], pos + m);
      WholeUnlessPiece(a, pos);
      MoreBytes(a, pos, t, p);
      StandingSplits(a[m..], pos + m, t);
      OneRead(a, pos, p, n, a[m..], pos + m);
      OneRead(a + t, pos, p, InBlock(a + t, pos), a[m..] + t, pos + m);
      ConcatAssociates(EventOf(p, n), Events(a[m..], pos + m), Events(t, pos + |a|));
    }
  }

  lemma ReadAdvances(a: Bytes, pos: nat)
    requires a != []
    ensures 0 < Consumed(PhysicalAt(a, pos), InBlock(a, pos)) <= |a|
  {
  }

  lemma WholeUnlessPiece(a: Bytes, pos: nat)
    ensures var n, p := InBlock(a, pos), PhysicalAt(a, pos);
            p.Skip? || (p.Drop? && n == BlockEnd(pos) - pos) ==> |a| >= BlockEnd(pos) - pos && n == BlockEnd(pos) - pos
  {
  }

  // What is read from these bytes never ends the reading.
  ghost predicate Unending(es: seq<Event>) {
    forall i | 0 <= i < |es| && es[i].Got? :: es[i].kind != EOF
  }

  lemma {:induction false} StandingIsUnending(a: Bytes, pos: nat)
    requires Standing(a, pos)
    ensures Unending(Events(a, pos))
    decreases |a|
  {
    hide Standing, Events, PhysicalAt, InBlock;
    NothingLeft(pos);
    if a != [] {
      var n, p := InBlock(a, pos), PhysicalAt(a, pos);
      var m := Consumed(p, n);
      ReadAdvances(a, pos);
      StandingParts(a, pos, n, p, a[m..], pos + m);
      StandingIsUnending(a[m..], pos + m);
      OneRead(a, pos, p, n, a[m..], pos + m);
    }
  }

  // ------------------------------------------------------------------ reassembly goes on

  // A record that begins is read whole, whatever was being put together before.
  lemma {:induction false} FreshRecords(pos: nat, records: seq<Bytes>, inside: bool, scratch: Bytes)
    ensures Assemble(Pieces(FragmentsOf(pos, records)), inside, scratch).records == records
    decreases |records|
  {
    hide FragmentsFrom;
    if records != [] {
      var first := FragmentsFrom(pos, records[0], true);
      var rest := FragmentsOf(End(pos, first), records[1..]);
      var es := Pieces(rest);
      PiecesConcat(first, rest);
      FragmentsAreAFragmentation(pos, records[0], true);
      assert (Pieces(first) + es)[0] == Got(first[0].kind, first[0].data);
      WholeRecord(first, records[0], true, [], es);
      FreshRecords(End(pos, first), records[1..], false, []);
      assert [] + records[0] == records[0];
      assert Assemble(Pieces(first) + es, inside, scratch).records == Assemble(Pieces(first) + es, false, []).records;
    }
  }

  lemma {:induction false} ReadOn(es: seq<Event>, pos: nat, records: seq<Bytes>, inside: bool, scratch: Bytes)
    requires Unending(es)
    ensures Assemble(es + Pieces(FragmentsOf(pos, records)), inside, scratch).records ==
            Assemble(es, inside, scratch).records + records
    decreases |es|
  {
    hide FragmentsOf;
    var more := Pieces(FragmentsOf(pos, records));
    if es == [] {
      assert es + more == more;
      FreshRecords(pos, records, inside, scratch);
    } else {
      assert (es + more)[0] == es[0] && (es + more)[1..] == es[1..] + more;
      ReadOn(es[1..], pos, records, false, []);
      ReadOn(es[1..], pos, records, false, scratch);
      if es[0].Got? {
        ReadOn(es[1..], pos, records, true, es[0].data);
        ReadOn(es[1..], pos, records, true, scratch + es[0].data);
      }
    }
  }

  // ------------------------------------------------------------------ in step, all is well

  lemma ReadsBackInStep(file: Bytes, b: nat)
    requires InStep(file) && Congruent(|file|, b)
    ensures ReadsBack(file, b)
  {
    hide RenderedAll, FragmentsOf, Events, Assemble, Congruent, InStep;
    forall records
      ensures ReadAll(Continued(file, b, records)).records == ReadAll(file).records + records
    {
      RecordsAreRead(file, b, records, FragmentsOf(|file|, records), |file|);
    }
  }

  // The trailer comes first, and the first header after it.
  lemma ContinuedIs(file: Bytes, b: nat, records: seq<Bytes>, fs: seq<Fragment>, pos: nat, q: nat)
    requires pos == |file| && Congruent(pos, b) && fs == FragmentsOf(pos, records) && records != [] && q == HeaderAt(pos)
    ensures AllFit(q, fs) && Continued(file, b, records) == (file + Trailer(pos)) + RenderedAll(q, fs)
  {
    hide RenderedAll, FragmentsOf, Congruent, HeaderAt;
    RecordsShift(pos, b, records);
    RenderedShifts(pos, b, fs);
    SomeFragments(pos, records);
    HeaderStays(pos);
    assert fs == [fs[0]] + fs[1..];
    FromTheBoundary(pos, q, fs[0], fs[1..], Trailer(pos));
    ConcatAssociates(file, Trailer(pos), RenderedAll(q, fs));
  }

  lemma RecordsAreRead(file: Bytes, b: nat, records: seq<Bytes>, fs: seq<Fragment>, pos: nat)
    requires pos == |file| && InStep(file) && Congruent(pos, b) && fs == FragmentsOf(pos, records)
    ensures ReadAll(Continued(file, b, records)).records == ReadAll(file).records + records
  {
    hide RenderedAll, FragmentsOf, Events, Assemble, Congruent, Standing, HeaderAt;
    var q, whole := HeaderAt(pos), file + Trailer(pos);
    if records == [] {
      NoRecords(b);
      assert file + [] == file;
    } else {
      ContinuedIs(file, b, records, fs, pos, q);
      var more := RenderedAll(q, fs);
      assert more + [] == more;
      StandingSplits(whole, 0, more);
      StandingIsUnending(whole, 0);
      FragmentsAreRead(q, fs, [], more, End(q, fs));
      NothingLeft(End(q, fs));
      assert Pieces(fs) + [] == Pieces(fs);
      ReadOn(Events(whole, 0), pos, records, false, []);
    }
  }

  lemma SomeFragments(pos: nat, records: seq<Bytes>)
    requires records != []
    ensures FragmentsOf(pos, records) != []
  {
  }

  lemma HeaderStays(pos: nat)
    ensures HeaderAt(HeaderAt(pos)) == HeaderAt(pos)
  {
  }

  // ------------------------------------------------------------------ out of step with the reader

  // An empty record takes a header and nothing else.
  function EmptyRecord(): (h: Bytes) {
    Header(FULL_TYPE, [])
  }

  lemma EmptyRecordIs()
    ensures EmptyRecord() == [0x05, 0x2b, 0x28, 0x43, 0, 0, 1]
  {
    EmptyChecksum();
    hide Stored, Checksum;
    assert [FULL_TYPE] + [] == [1];
  }

  lemma OneEmptyRecord(file: Bytes, b: nat)
    requires Congruent(|file|, b)
    ensures Continued(file, b, [[]]) == file + Trailer(|file|) + EmptyRecord()
  {
    var pos, f := |file|, Fragment(FULL_TYPE, []);
    RecordsShift(pos, b, [[]]);
    assert FragmentsFrom(pos, [], true) == [f];
    NoRecords(End(pos, [f]));
    assert FragmentsOf(pos, [[]]) == [f];
    RenderedShifts(pos, b, [f]);
    OneRendered(pos, f);
    hide Header;
    assert Rendered(pos, f) == Trailer(pos) + EmptyRecord();
    ConcatAssociates(file, Trailer(pos), EmptyRecord());
  }

  // Two ways on that differ by more than the empty record, whatever is being put together.
  ghost predicate Apart(x: seq<Event>, y: seq<Event>) {
    forall inside, scratch :: Assemble(x, inside, scratch).records != Assemble(y, inside, scratch).records + [[]]
  }

  lemma ApartAfter(es: seq<Event>, x: seq<Event>, y: seq<Event>)
    requires |es| <= 1 && Apart(x, y)
    ensures Apart(es + x, es + y)
  {
    if es == [] {
      assert es + x == x && es + y == y;
    } else {
      assert (es + x)[1..] == x && (es + y)[1..] == y;
      forall inside, scratch
        ensures Assemble(es + x, inside, scratch).records != Assemble(es + y, inside, scratch).records + [[]]
      {
        ApartAfterOne(es[0], x, y, inside, scratch);
      }
    }
  }

  lemma ApartAfterOne(e: Event, x: seq<Event>, y: seq<Event>, inside: bool, scratch: Bytes)
    requires Apart(x, y)
    ensures Assemble([e] + x, inside, scratch).records != Assemble([e] + y, inside, scratch).records + [[]]
  {
    assert ([e] + x)[1..] == x && ([e] + y)[1..] == y;
    assert Assemble(x, false, []).records != Assemble(y, false, []).records + [[]];
    assert Assemble(x, false, scratch).records != Assemble(y, false, scratch).records + [[]];
    if e.Got? {
      assert Assemble(x, true, e.data).records != Assemble(y, true, e.data).records + [[]];
      assert Assemble(x, true, scratch + e.data).records != Assemble(y, true, scratch + e.data).records + [[]];
      Cancels(e.data, Assemble(x, false, []).records, Assemble(y, false, []).records);
      Cancels(scratch + e.data, Assemble(x, false, []).records, Assemble(y, false, []).records);
    }
  }

  lemma Cancels(r: Bytes, x: seq<Bytes>, y: seq<Bytes>)
    requires x != y + [[]]
    ensures [r] + x != [r] + y + [[]]
  {
    assert ([r] + x)[1..] == x && ([r] + y + [[]])[1..] == y + [[]];
  }

  // The reader stops at these bytes, or waits for the rest of a record: an empty record
  // written next is not read back.
  lemma {:induction false} Stuck(left: Bytes, pos: nat)
    requires !Standing(left, pos) && BlockEnd(pos + |left|) - (pos + |left|) >= HEADER_SIZE
    ensures Apart(Events(left + EmptyRecord(), pos), Events(left, pos))
    decreases |left|
  {
    hide Standing, Events, PhysicalAt, InBlock, EmptyRecord, Assemble, Apart, BlockEnd;
    var n, p := InBlock(left, pos), PhysicalAt(left, pos);
    var m := Consumed(p, n);
    NothingStands(pos);
    ReadAdvances(left, pos);
    StandingParts(left, pos, n, p, left[m..], pos + m);
    if p.AtEof? {
      StuckInHeader(left, pos);
    } else if p.Drop? && n != BlockEnd(pos) - pos {
      StuckInDrop(left, pos);
    } else {
      WholeUnlessPiece(left, pos);
      MoreBytes(left, pos, EmptyRecord(), p);
      OneRead(left, pos, p, n, left[m..], pos + m);
      OneRead(left + EmptyRecord(), pos, p, InBlock(left + EmptyRecord(), pos), left[m..] + EmptyRecord(), pos + m);
      if p.Piece? && p.kind == EOF {
        ReadingEnds(p.data, Events(left[m..] + EmptyRecord(), pos + m), Events(left[m..], pos + m));
      } else {
        assert pos + m + |left[m..]| == pos + |left|;
        Stuck(left[m..], pos + m);
        ApartAfter(EventOf(p, n), Events(left[m..] + EmptyRecord(), pos + m), Events(left[m..], pos + m));
      }
    }
  }

  lemma NothingStands(pos: nat)
    ensures Standing([], pos)
  {
  }

  lemma ReadingEnds(data: Bytes, x: seq<Event>, y: seq<Event>)
    ensures Apart([Got(EOF, data)] + x, [Got(EOF, data)] + y)
  {
  }

  // The rest of the block is dropped, and the empty record with it.
  lemma StuckInDrop(left: Bytes, pos: nat)
    requires var p := PhysicalAt(left, pos); p.Drop? && InBlock(left, pos) != BlockEnd(pos) - pos
    requires BlockEnd(pos + |left|) - (pos + |left|) >= HEADER_SIZE
    ensures Apart(Events(left + EmptyRecord(), pos), Events(left, pos))
  {
    EmptyRecordIs();
    hide EmptyRecord;
    var all, p := left + EmptyRecord(), PhysicalAt(left, pos);
    SameBlock(left, pos);
    assert all[..|all|] == all && left[..|left|] == left;
    assert all[..4] == left[..4];
    var low: nat, high: nat := left[4], left[5];
    assert all[6..HEADER_SIZE + low + 256 * high] == left[6..HEADER_SIZE + low + 256 * high];
    var p' := PhysicalAt(all, pos);
    assert p'.Drop?;
    OneRead(all, pos, p', |all|, [], pos + |all|);
    OneRead(left, pos, p, |left|, [], pos + |left|);
    NothingLeft(pos + |all|);
    NothingLeft(pos + |left|);
  }

  // What is left is in one block, with room for a header after it.
  lemma SameBlock(left: Bytes, pos: nat)
    requires left != [] && InBlock(left, pos) != BlockEnd(pos) - pos
    requires BlockEnd(pos + |left|) - (pos + |left|) >= HEADER_SIZE
    ensures InBlock(left, pos) == |left| && |left| + HEADER_SIZE <= BlockEnd(pos) - pos
    ensures BlockEnd(pos + |left|) == BlockEnd(pos)
  {
  }

  // What comes next is taken for the rest of a header, or of a payload.
  lemma StuckInHeader(left: Bytes, pos: nat)
    requires left != [] && PhysicalAt(left, pos).AtEof?
    requires BlockEnd(pos + |left|) - (pos + |left|) >= HEADER_SIZE
    ensures Apart(Events(left + EmptyRecord(), pos), Events(left, pos))
  {
    hide Events, Apart, PhysicalAt, Header;
    AtEofIsNothing(left, pos);
    SameBlock(left, pos);
    var all := left + EmptyRecord();
    var p := PhysicalAt(all, pos);
    if p.AtEof? {
      AtEofIsNothing(all, pos);
    } else if p.Piece? {
      TakenForAPiece(left, pos, all, p);
      OneRead(all, pos, p, |all|, all[HEADER_SIZE + |p.data|..], pos + HEADER_SIZE + |p.data|);
      FewBytes(all[HEADER_SIZE + |p.data|..], pos + HEADER_SIZE + |p.data|);
    } else {
      NotSkipped(all, pos);
      OneRead(all, pos, p, |all|, [], pos + |all|);
      NothingLeft(pos + |all|);
    }
    assert EventOf(p, |all|) + [] == EventOf(p, |all|);
    NoEmptyRecord(EventOf(p, |all|));
  }

  lemma NotSkipped(all: Bytes, pos: nat)
    requires HEADER_SIZE <= |all| <= BlockEnd(pos) - pos
    ensures !PhysicalAt(all, pos).Skip? && InBlock(all, pos) == |all|
  {
  }

  // An empty payload would need a type byte from inside the header that was written last.
  lemma TakenForAPiece(left: Bytes, pos: nat, all: Bytes, p: Physical)
    requires left != [] && PhysicalAt(left, pos).AtEof? && InBlock(left, pos) == |left|
    requires all == left + EmptyRecord() && |all| <= BlockEnd(pos) - pos && p == PhysicalAt(all, pos) && p.Piece?
    ensures p.data == [] ==> p.kind != FULL_TYPE && p.kind != LAST_TYPE
    ensures |left| < HEADER_SIZE + |p.data| <= |all| && InBlock(all, pos) == |all|
  {
    EmptyRecordIs();
    hide EmptyRecord;
    assert all[..|all|] == all && left[..|left|] == left;
    if |left| >= HEADER_SIZE {
      assert all[4] == left[4] && all[5] == left[5];
    }
    if p.data == [] {
      assert p.kind == all[6] == EmptyRecord()[6 - |left|];
    }
  }

  // One event that does not deliver an empty record.
  lemma NoEmptyRecord(es: seq<Event>)
    requires |es| <= 1
    requires es != [] && es[0].Got? && es[0].data == [] ==> es[0].kind != FULL_TYPE && es[0].kind != LAST_TYPE
    ensures Apart(es, [])
  {
    forall inside, scratch
      ensures Assemble(es, inside, scratch).records != [[]]
    {
      if es != [] {
        assert es == [es[0]] && es[1..] == [];
        assert forall i, s :: Assemble([], i, s).records == [];
        if es[0].Got? && es[0].data != [] {
          assert [es[0].data] != [[]] && |scratch + es[0].data| > 0 && [scratch + es[0].data] != [[]];
        }
      }
    }
    var none: seq<Bytes> := [];
    assert none + [[]] == [[]];
  }

  lemma AtEofIsNothing(left: Bytes, pos: nat)
    requires PhysicalAt(left, pos).AtEof?
    ensures Events(left, pos) == [] && InBlock(left, pos) != BlockEnd(pos) - pos
  {
  }

  // Less than a header is nothing to the reader.
  lemma FewBytes(left: Bytes, pos: nat)
    requires |left| < HEADER_SIZE && |left| <= BlockEnd(pos) - pos
    ensures Events(left, pos) == []
  {
    if |left| == BlockEnd(pos) - pos {
      NothingLeft(pos + |left|);
      assert left[|left|..] == [];
    }
  }

  // Two ways on that deliver the same.
  ghost predicate Alike(x: seq<Event>, y: seq<Event>) {
    forall inside, scratch :: Assemble(x, inside, scratch).records == Assemble(y, inside, scratch).records
  }

  lemma AlikeAfter(es: seq<Event>, x: seq<Event>, y: seq<Event>)
    requires |es| <= 1 && Alike(x, y)
    ensures Alike(es + x, es + y)
  {
    if es == [] {
      assert es + x == x && es + y == y;
    } else {
      assert (es + x)[1..] == x && (es + y)[1..] == y;
    }
  }

  // At the end of a block only an end of reading keeps the reader from going on, and for good.
  lemma {:induction false} Stopped(left: Bytes, pos: nat, t: Bytes)
    requires !Standing(left, pos) && (pos + |left|) % BLOCK_SIZE == 0
    ensures Alike(Events(left + t, pos), Events(left, pos))
    decreases |left|
  {
    hide Standing, Events, PhysicalAt, InBlock, BlockEnd, Alike, Assemble;
    var n, p := InBlock(left, pos), PhysicalAt(left, pos);
    var m := Consumed(p, n);
    NothingStands(pos);
    ReadAdvances(left, pos);
    ToTheEnd(left, pos);
    StandingParts(left, pos, n, p, left[m..], pos + m);
    MoreBytes(left, pos, t, p);
    OneRead(left, pos, p, n, left[m..], pos + m);
    OneRead(left + t, pos, p, InBlock(left + t, pos), left[m..] + t, pos + m);
    if p.Piece? && p.kind == EOF {
      EndedAlike(p.data, Events(left[m..] + t, pos + m), Events(left[m..], pos + m));
    } else {
      assert pos + m + |left[m..]| == pos + |left|;
      Stopped(left[m..], pos + m, t);
      AlikeAfter(EventOf(p, n), Events(left[m..] + t, pos + m), Events(left[m..], pos + m));
    }
  }

  lemma ToTheEnd(left: Bytes, pos: nat)
    requires left != [] && (pos + |left|) % BLOCK_SIZE == 0
    ensures |left| >= BlockEnd(pos) - pos == InBlock(left, pos) && !PhysicalAt(left, pos).AtEof?
  {
  }

  lemma EndedAlike(data: Bytes, x: seq<Event>, y: seq<Event>)
    ensures Alike([Got(EOF, data)] + x, [Got(EOF, data)] + y)
  {
  }

  // Not even the right place in the block helps a writer when the reader is not there.
  lemma LostToTheReader(file: Bytes, b: nat)
    requires Congruent(|file|, b) && !InStep(file)
    ensures !ReadsBack(file, b)
  {
    hide Standing, Events, Assemble, FragmentsOf, RenderedAll, EmptyRecord, HeaderAt;
    var pos := |file|;
    var q, whole, base := HeaderAt(pos), file + Trailer(pos), ReadAll(file).records;
    var one: seq<Bytes>, two: seq<Bytes> := [[]], [[], []];
    OneEmptyRecord(file, b);
    if Standing(whole, 0) {
      HeaderStays(pos);
      StandingAlone(whole);
      OneEmptyRecord(whole, |whole|);
      assert Trailer(|whole|) == [] && whole + [] == whole;
      RecordsAreRead(whole, |whole|, one, FragmentsOf(|whole|, one), |whole|);
      assert Continued(file, b, one) == Continued(whole, |whole|, one);
      var more := ReadAll(whole).records;
      assert (more + one)[..|more + one| - 1] == more && (base + one)[..|base + one| - 1] == base;
      assert ReadAll(Continued(file, b, one)).records != base + one;
    } else if whole == file {
      RoomAtTheHeader(pos);
      Stuck(whole, 0);
      assert Continued(file, b, one) == whole + EmptyRecord();
      assert Assemble(Events(whole + EmptyRecord(), 0), false, []).records != Assemble(Events(whole, 0), false, []).records + [[]];
      assert ReadAll(Continued(file, b, one)).records != base + one;
    } else {
      ContinuedIs(file, b, one, FragmentsOf(pos, one), pos, q);
      ContinuedIs(file, b, two, FragmentsOf(pos, two), pos, q);
      RoomAtTheHeader(pos);
      Stopped(whole, 0, RenderedAll(q, FragmentsOf(pos, one)));
      Stopped(whole, 0, RenderedAll(q, FragmentsOf(pos, two)));
      assert base + one != base + two;
      assert ReadAll(Continued(file, b, one)).records == ReadAll(Continued(file, b, two)).records;
    }
  }

  lemma RoomAtTheHeader(pos: nat)
    ensures BlockEnd(HeaderAt(pos)) - HeaderAt(pos) >= HEADER_SIZE
    ensures HeaderAt(pos) != pos ==> HeaderAt(pos) % BLOCK_SIZE == 0
  {
  }

  lemma StandingAlone(file: Bytes)
    requires Standing(file, 0) && HeaderAt(|file|) == |file|
    ensures InStep(file)
  {
    assert file + Trailer(|file|) == file;
  }
}
