// What a failed write to a log costs.  EmitPhysicalRecord advances block_offset_ by the whole
// fragment even when Append or Flush fails (db/log_writer.cc:82-108), so the writer may no
// longer agree with the file about the block it is in.
module LogFailures {
  import opened Coding
  import opened Crc32c
  import opened LogFormat
  import opened LogRecords
  import opened LogFiles
  import opened LogWriter
  import opened LogStanding
  import opened LogDrift

  // ------------------------------------------------------------------ exactly when records are read back

  // In any state of a file and its writer: everything that is ever written next is read back
  // if and only if the writer agrees with the file about the block and the reader is in step.
  lemma ReadsBackIff(file: Bytes, b: nat)
    ensures ReadsBack(file, b) <==> Congruent(|file|, b) && InStep(file)
  {
    hide Congruent, InStep, ReadAll, Continued;
    if !Congruent(|file|, b) {
      var n := LostOutOfStep(file, b);
      var all, base := ReadAll(Continued(file, b, [Zeros(n)])).records, ReadAll(file).records + [Zeros(n)];
      assert base[|base| - 1] == Zeros(n) && Zeros(n) !in all;
    } else if InStep(file) {
      ReadsBackInStep(file, b);
    } else {
      LostToTheReader(file, b);
    }
  }

  // ------------------------------------------------------------------ what is standing

  lemma {:induction false} StandingConcat(a: Bytes, pos: nat, t: Bytes)
    requires Standing(a, pos) && Standing(t, pos + |a|)
    ensures Standing(a + t, pos)
    decreases |a|
  {
    hide Standing, PhysicalAt, InBlock;
    if a == [] {
      assert a + t == t;
    } else {
      var n, p := InBlock(a, pos), PhysicalAt(a, pos);
      var m := Consumed(p, n);
      ReadAdvances(a, pos);
      StandingParts(a, pos, n, p, a[m..], pos + m);
      WholeUnlessPiece(a, pos);
      MoreBytes(a, pos, t, p);
      StandingConcat(a[m..], pos + m, t);
      StandingParts(a + t, pos, InBlock(a + t, pos), p, a[m..] + t, pos + m);
    }
  }

  lemma TrailerStands(pos: nat)
    ensures Standing(Trailer(pos), pos)
  {
    var z := Trailer(pos);
    if z != [] {
      assert PhysicalAt(z, pos).Skip? && InBlock(z, pos) == |z|;
      StandingParts(z, pos, |z|, Skip, [], pos + |z|);
      NothingStands(pos + |z|);
    }
  }

  lemma FragmentStands(pos: nat, f: Fragment)
    requires Fits(pos, f) && FULL_TYPE <= f.kind <= LAST_TYPE
    ensures Standing(Rendered(pos, f), pos)
  {
    hide Standing, Header, PhysicalAt, InBlock;
    var p, r := HeaderAt(pos), Header(f.kind, f.data) + f.data;
    TrailerStands(pos);
    assert r + [] == r;
    RecordParses(r, p, f, []);
    NothingStands(p + |r|);
    StandingParts(r, p, InBlock(r, p), Piece(f.kind, f.data), [], p + |r|);
    StandingConcat(Trailer(pos), pos, r);
    assert Rendered(pos, f) == Trailer(pos) + r;
  }

  lemma {:induction false} FragmentsStand(pos: nat, fs: seq<Fragment>)
    requires AllFit(pos, fs)
    ensures Standing(RenderedAll(pos, fs), pos)
    decreases |fs|
  {
    hide Standing, Rendered;
    NothingStands(pos);
    if fs != [] {
      FragmentStands(pos, fs[0]);
      FragmentsStand(After(pos, fs[0]), fs[1..]);
      StandingConcat(Rendered(pos, fs[0]), pos, RenderedAll(After(pos, fs[0]), fs[1..]));
    }
  }

  // What follows takes nothing back.
  lemma NothingReadIsLost(file: Bytes, more: Bytes)
    requires Standing(file, 0)
    ensures ReadAll(file).records <= ReadAll(file + more).records
  {
    hide Standing, Events, Assemble;
    StandingSplits(file, 0, more);
    DeliveredStays(Events(file, 0), Events(more, |file|), false, []);
  }

  lemma {:induction false} DeliveredStays(es: seq<Event>, more: seq<Event>, inside: bool, scratch: Bytes)
    ensures Assemble(es, inside, scratch).records <= Assemble(es + more, inside, scratch).records
    decreases |es|
  {
    if es != [] {
      var rest := es[1..];
      assert (es + more)[0] == es[0] && (es + more)[1..] == rest + more;
      DeliveredStays(rest, more, false, []);
      DeliveredStays(rest, more, false, scratch);
      if es[0].Got? {
        DeliveredStays(rest, more, true, es[0].data);
        DeliveredStays(rest, more, true, scratch + es[0].data);
      }
    }
  }

  // ------------------------------------------------------------------ after a failed append

  // A file the reader is through with, and perhaps the beginning of a trailer.
  ghost predicate Stood(whole: Bytes, n: nat, file: Bytes) {
    Standing(whole, 0) && n <= |Trailer(|whole|)| && file == whole + Zeros(n)
  }

  lemma StoodIsInStep(whole: Bytes, n: nat, file: Bytes)
    requires Stood(whole, n, file)
    ensures InStep(file) && ReadAll(file).records == ReadAll(whole).records
  {
    hide Standing, Events, Assemble, HeaderAt, Zeros;
    var pos, z := |whole|, Trailer(|whole|);
    PartOfTrailer(pos, n);
    ConcatAssociates(whole, Zeros(n), Trailer(|file|));
    TrailerStands(pos);
    StandingConcat(whole, 0, z);
    NothingMore(whole, z);
    NothingMore(whole, Zeros(n));
  }

  lemma NothingMore(whole: Bytes, z: Bytes)
    requires Standing(whole, 0) && |z| < HEADER_SIZE && |z| <= BlockEnd(|whole|) - |whole|
    ensures ReadAll(whole + z) == ReadAll(whole)
  {
    hide Standing, Events, Assemble;
    StandingSplits(whole, 0, z);
    FewBytes(z, |whole|);
    assert Events(whole, 0) + [] == Events(whole, 0);
  }

  lemma PartOfTrailer(pos: nat, n: nat)
    requires n <= |Trailer(pos)|
    ensures HeaderAt(pos + n) == HeaderAt(pos) && Zeros(n) + Trailer(pos + n) == Trailer(pos)
    ensures |Trailer(pos)| < HEADER_SIZE && |Trailer(pos)| <= BlockEnd(pos) - pos
  {
  }

  // A fragment that is cut short leaves the writer in agreement with the file only if nothing
  // but zeros of the trailer was written.
  lemma CutFragment(pos: nat, f: Fragment, n: nat)
    requires Fits(pos, f) && n < |Rendered(pos, f)|
    ensures Congruent(pos + n, After(pos, f)) ==> n <= |Trailer(pos)| && Rendered(pos, f)[..n] == Zeros(n)
  {
    hide Header;
    if Congruent(pos + n, After(pos, f)) {
      assert After(pos, f) - pos - n == BLOCK_SIZE;
    }
  }

  // Fragments of one record, up to one that fails.
  lemma {:induction false} PartIs(pos: nat, fs: seq<Fragment>, k: nat, n: nat, p: nat)
    requires AllFit(pos, fs) && k < |fs| && p == End(pos, fs[..k])
    ensures AllFit(pos, fs[..k]) && Fits(p, fs[k]) && FULL_TYPE <= fs[k].kind <= LAST_TYPE
    ensures Part(pos, fs, k, n) == Attempt(RenderedAll(pos, fs[..k]) + First(Rendered(p, fs[k]), n), After(p, fs[k]), false)
    decreases k
  {
    hide Rendered, Fits, After;
    if k == 0 {
      assert fs[..0] == [];
    } else {
      assert fs[..k][0] == fs[0] && fs[..k][1..] == fs[1..][..k - 1];
      PartIs(After(pos, fs[0]), fs[1..], k - 1, n, p);
      ConcatAssociates(Rendered(pos, fs[0]), RenderedAll(After(pos, fs[0]), fs[1..][..k - 1]), First(Rendered(p, fs[k]), n));
    }
  }

  // The fragments of a record that is not all there deliver nothing.
  lemma BrokenOff(es: seq<Event>, pos: nat, data: Bytes, k: nat, inside: bool, scratch: Bytes)
    requires Unending(es) && k <= |FragmentsFrom(pos, data, true)|
    ensures var fs := FragmentsFrom(pos, data, true);
            Assemble(es + Pieces(fs[..k]), inside, scratch).records ==
            Assemble(es, inside, scratch).records + if k == |fs| then [data] else []
    decreases |es|
  {
    hide FragmentsFrom;
    var fs := FragmentsFrom(pos, data, true);
    if es == [] {
      assert es + Pieces(fs[..k]) == Pieces(fs[..k]);
      BrokenRecord(pos, data, k, fs, inside, scratch);
    } else {
      var rest, more := es[1..], Pieces(fs[..k]);
      assert (es + more)[0] == es[0] && (es + more)[1..] == rest + more;
      BrokenOff(rest, pos, data, k, false, []);
      BrokenOff(rest, pos, data, k, false, scratch);
      if es[0].Got? {
        BrokenOff(rest, pos, data, k, true, es[0].data);
        BrokenOff(rest, pos, data, k, true, scratch + es[0].data);
      }
    }
  }

  lemma BrokenRecord(pos: nat, data: Bytes, k: nat, fs: seq<Fragment>, inside: bool, scratch: Bytes)
    requires fs == FragmentsFrom(pos, data, true) && k <= |fs|
    ensures Assemble(Pieces(fs[..k]), inside, scratch).records == if k == |fs| then [data] else []
  {
    hide FragmentsFrom;
    FragmentsAreAFragmentation(pos, data, true);
    if k == |fs| {
      assert fs[..k] == fs && Pieces(fs) + [] == Pieces(fs) && [] + data == data;
      WholeRecord(fs, data, true, [], []);
    } else {
      CutRecord(fs, data, true, [], k);
    }
    if k > 0 {
      assert Pieces(fs[..k])[0] == Got(fs[0].kind, fs[0].data);
      assert Assemble(Pieces(fs[..k]), inside, scratch).records == Assemble(Pieces(fs[..k]), false, []).records;
    }
  }

  // ------------------------------------------------------------------ one AddRecord after the other

  lemma {:induction false} AttemptShifts(p: nat, q: nat, left: Bytes, begin: bool, io: seq<Io>)
    requires Congruent(p, q)
    ensures var a, a' := Attempted(p, left, begin, io), Attempted(q, left, begin, io);
            a.bytes == a'.bytes && a.ok == a'.ok && Congruent(a.offset, a'.offset)
    decreases Turns(p, |left|)
  {
    hide Rendered, HeaderAt, Congruent;
    var f := NextFragment(p, left, begin);
    HeadersShift(p, q);
    FragmentShifts(p, q, f);
    if f.data != left {
      NextTurn(p, |left|, f);
      NextTurn(q, |left|, f);
      AttemptShifts(After(p, f), After(q, f), left[|f.data|..], false, Rest(io));
    }
  }

  // A part of the trailer that is there already might as well be written now.
  function WithTrailer(io: seq<Io>, n: nat): (r: seq<Io>) {
    if io != [] && io[0].Failed? then [Failed(io[0].gained + n)] + io[1..] else io
  }

  lemma NextFromTheWhole(pos: nat, n: nat, data: Bytes, f: Fragment)
    requires n <= |Trailer(pos)| && f == NextFragment(pos, data, true)
    ensures f == NextFragment(pos + n, data, true) && Fits(pos + n, f) && After(pos + n, f) == After(pos, f)
    ensures Rendered(pos, f) == Zeros(n) + Rendered(pos + n, f)
  {
    PartOfTrailer(pos, n);
    hide Header, HeaderAt, Zeros, BlockEnd, Room, KindOf, Trailer;
    var h := Header(f.kind, f.data);
    RenderedIs(pos, f);
    RenderedIs(pos + n, f);
    ConcatAssociates(Zeros(n), Trailer(pos + n), h + f.data);
  }

  lemma RenderedIs(pos: nat, f: Fragment)
    requires Fits(pos, f)
    ensures Rendered(pos, f) == Trailer(pos) + (Header(f.kind, f.data) + f.data)
  {
    hide Header, HeaderAt, Zeros;
    ConcatAssociates(Trailer(pos), Header(f.kind, f.data), f.data);
  }

  lemma FromTheWhole(pos: nat, n: nat, data: Bytes, io: seq<Io>)
    requires n <= |Trailer(pos)|
    ensures var a, a' := Attempted(pos + n, data, true, io), Attempted(pos, data, true, WithTrailer(io, n));
            a'.bytes == Zeros(n) + a.bytes && a'.ok == a.ok && a'.offset == a.offset
    ensures FragmentsFrom(pos + n, data, true) == FragmentsFrom(pos, data, true)
  {
    hide Rendered, HeaderAt, FragmentsFrom, Zeros, BlockEnd, After, Fits, Trailer, NextFragment;
    var f := NextFragment(pos, data, true);
    NextFromTheWhole(pos, n, data, f);
    IsFirst(pos, data, f);
    IsFirst(pos + n, data, f);
    assert Rest(WithTrailer(io, n)) == Rest(io);
    if f.data != data {
      ConcatAssociates(Zeros(n), Rendered(pos + n, f), Attempted(After(pos, f), data[|f.data|..], false, Rest(io)).bytes);
    }
  }

  lemma IsFirst(pos: nat, data: Bytes, f: Fragment)
    requires f == NextFragment(pos, data, true)
    ensures f.data <= data && Fits(pos, f)
    ensures FragmentsFrom(pos, data, true) ==
            if f.data == data then [f] else [f] + FragmentsFrom(After(pos, f), data[|f.data|..], false)
  {
    FirstFragment(pos, data, true, |f.data|, f);
  }

  // An AddRecord that goes through, or that fails at fragment k.
  lemma AfterWhole(whole: Bytes, data: Bytes, fs: seq<Fragment>, k: nat) returns (file: Bytes)
    requires Standing(whole, 0) && fs == FragmentsFrom(|whole|, data, true) && k <= |fs|
    ensures AllFit(|whole|, fs[..k]) && file == whole + RenderedAll(|whole|, fs[..k]) && Standing(file, 0)
    ensures ReadAll(file).records == ReadAll(whole).records + if k == |fs| then [data] else []
    ensures |file| - |whole| == |RenderedAll(|whole|, fs)| <==> k == |fs|
  {
    hide Standing, Events, Assemble, FragmentsFrom, RenderedAll, Fits;
    var pos, part := |whole|, fs[..k];
    AllFitSplit(pos, fs, k);
    var more := RenderedAll(pos, part);
    file := whole + more;
    FragmentsStand(pos, part);
    StandingConcat(whole, 0, more);
    StandingSplits(whole, 0, more);
    assert more + [] == more && Pieces(part) + [] == Pieces(part);
    FragmentsAreRead(pos, part, [], more, End(pos, part));
    NothingLeft(End(pos, part));
    StandingIsUnending(whole, 0);
    BrokenOff(Events(whole, 0), pos, data, k, false, []);
    EndGrows(End(pos, part), fs[k..]);
  }

  // A log and its writer, between two calls of AddRecord.
  datatype Log = Log(file: Bytes, offset: nat)

  predicate Agrees(l: Log) {
    Congruent(|l.file|, l.offset)
  }

  // One call, with what happens to its fragments.
  datatype Call = Call(data: Bytes, io: seq<Io>)

  function Called(l: Log, c: Call): (r: Log) {
    var a := Attempted(l.offset, c.data, true, c.io);
    Log(l.file + a.bytes, a.offset)
  }

  // Every byte of the record reached the file, whatever AddRecord returned.
  predicate AllWritten(l: Log, c: Call) {
    |Attempted(l.offset, c.data, true, c.io).bytes| == |RenderedAll(l.offset, FragmentsFrom(l.offset, c.data, true))|
  }

  // The reader is through with the file, but for a part of a trailer.
  ghost predicate Sound(l: Log) {
    exists whole, n :: Stood(whole, n, l.file)
  }

  lemma CalledOnWhole(whole: Bytes, c: Call, fs: seq<Fragment>) returns (whole': Bytes, n: nat)
    requires Standing(whole, 0) && fs == FragmentsFrom(|whole|, c.data, true)
    ensures var l := Called(Log(whole, |whole|), c);
            && (Agrees(l) ==> Stood(whole', n, l.file))
            && (Agrees(l) ==>
                  ReadAll(whole').records ==
                  ReadAll(whole).records + if AllWritten(Log(whole, |whole|), c) then [c.data] else [])
  {
    hide Standing, ReadAll, FragmentsFrom, RenderedAll, Rendered, Fits, After, HeaderAt, Congruent, Zeros, Trailer, Attempted;
    var pos, k := |whole|, FailsAt(c.io, |fs|);
    AttemptIs(pos, c.data, true, c.io, fs);
    n := 0;
    NoZeros();
    if k == |fs| {
      assert fs[..k] == fs;
      whole' := AfterWhole(whole, c.data, fs, k);
      assert whole' + [] == whole';
    } else {
      var g, p := c.io[k].gained, End(pos, fs[..k]);
      PartIs(pos, fs, k, g, p);
      var w := Rendered(p, fs[k]);
      if g < |w| {
        whole' := AfterWhole(whole, c.data, fs, k);
        CutFragment(p, fs[k], g);
        n := g;
        ConcatAssociates(whole, RenderedAll(pos, fs[..k]), w[..g]);
        OneMoreRendered(pos, fs, k, p);
      } else {
        whole' := AfterWhole(whole, c.data, fs, k + 1);
        OneMoreRendered(pos, fs, k, p);
        assert whole' + [] == whole';
      }
    }
  }

  lemma NoZeros()
    ensures Zeros(0) == []
  {
  }

  lemma OneMoreRendered(pos: nat, fs: seq<Fragment>, k: nat, p: nat)
    requires AllFit(pos, fs) && k < |fs| && p == End(pos, fs[..k])
    ensures AllFit(pos, fs[..k]) && Fits(p, fs[k]) && AllFit(pos, fs[..k + 1])
    ensures RenderedAll(pos, fs[..k + 1]) == RenderedAll(pos, fs[..k]) + Rendered(p, fs[k])
    ensures |RenderedAll(pos, fs[..k + 1])| <= |RenderedAll(pos, fs)|
  {
    hide Rendered, Fits, After, RenderedAll, End, AllFit;
    AllFitSplit(pos, fs, k);
    AllFitSplit(pos, fs, k + 1);
    EndGrows(End(pos, fs[..k + 1]), fs[k + 1..]);
    var a, f := fs[..k], fs[k];
    assert fs[..k + 1] == a + [f] && fs[k..][0] == f;
    OneFits(p, f);
    RenderedConcat(pos, a, [f]);
    OneRendered(p, f);
  }

  lemma OneFits(p: nat, f: Fragment)
    requires Fits(p, f)
    ensures FULL_TYPE <= f.kind <= LAST_TYPE ==> AllFit(p, [f])
  {
    assert [f][1..] == [];
  }

  // ------------------------------------------------------------------ the main results

  lemma FullLength(pos: nat, n: nat, data: Bytes, fs: seq<Fragment>)
    requires n <= |Trailer(pos)| && fs == FragmentsFrom(pos, data, true) && AllFit(pos + n, fs)
    ensures |RenderedAll(pos, fs)| == n + |RenderedAll(pos + n, fs)|
  {
    hide Rendered, HeaderAt, FragmentsFrom, Zeros, BlockEnd, After, Fits, Trailer, NextFragment;
    var f := NextFragment(pos, data, true);
    IsFirst(pos, data, f);
    NextFromTheWhole(pos, n, data, f);
    assert fs[0] == f;
  }

  // One call from a sound log: if the writer still agrees with the file, the log is sound, and
  // what is read is what was read before, and the record if all of it was written.
  lemma CallKeepsSound(l: Log, c: Call)
    requires Sound(l) && Agrees(l)
    ensures var l' := Called(l, c);
            Agrees(l') ==>
              Sound(l') &&
              ReadAll(l'.file).records == ReadAll(l.file).records + if AllWritten(l, c) then [c.data] else []
  {
    hide Standing, ReadAll, FragmentsFrom, RenderedAll, Rendered, After, HeaderAt, Zeros, Trailer, Attempted;
    var whole, n: nat :| Stood(whole, n, l.file);
    var pos, l' := |whole|, Called(l, c);
    var c', fs := Call(c.data, WithTrailer(c.io, n)), FragmentsFrom(pos, c.data, true);
    StoodIsInStep(whole, n, l.file);
    AttemptShifts(l.offset, pos + n, c.data, true, c.io);
    FromTheWhole(pos, n, c.data, c.io);
    FragmentsShift(l.offset, pos + n, c.data, true);
    RenderedShifts(l.offset, pos + n, fs);
    FullLength(pos, n, c.data, fs);
    ConcatAssociates(whole, Zeros(n), Attempted(pos + n, c.data, true, c.io).bytes);
    var whole', n' := CalledOnWhole(whole, c', fs);
    if Agrees(l') {
      CongruentEnds(|l'.file|, l'.offset, Called(Log(whole, pos), c').offset);
      StoodIsInStep(whole', n', l'.file);
    }
  }

  // After an AddRecord, failed or not, everything that is ever written next is read back if
  // and only if block_offset_ still agrees with the length of the file.
  lemma FailedAppendIff(l: Log, c: Call)
    requires Sound(l) && Agrees(l)
    ensures var l' := Called(l, c); ReadsBack(l'.file, l'.offset) <==> Agrees(l')
  {
    hide ReadsBack, InStep, Sound, Stood;
    CallKeepsSound(l, c);
    var l' := Called(l, c);
    ReadsBackIff(l'.file, l'.offset);
    if Agrees(l') {
      SoundIsInStep(l');
    }
  }

  lemma SoundIsInStep(l: Log)
    requires Sound(l)
    ensures InStep(l.file)
  {
    var whole, n :| Stood(whole, n, l.file);
    StoodIsInStep(whole, n, l.file);
  }

  function AllCalled(l: Log, cs: seq<Call>): (r: Log)
    decreases |cs|
  {
    if cs == [] then l else AllCalled(Called(l, cs[0]), cs[1..])
  }

  // The records all of which was written.
  function WrittenBy(l: Log, cs: seq<Call>): (r: seq<Bytes>)
    decreases |cs|
  {
    if cs == [] then []
    else (if AllWritten(l, cs[0]) then [cs[0].data] else []) + WrittenBy(Called(l, cs[0]), cs[1..])
  }

  // A log in whose whole life the writer has agreed with the file after every call.
  ghost predicate AlwaysAgrees(l: Log, cs: seq<Call>) {
    forall i | 0 <= i <= |cs| :: Agrees(AllCalled(l, cs[..i]))
  }

  lemma AgreesLater(l: Log, cs: seq<Call>)
    requires cs != []
    ensures AlwaysAgrees(l, cs) <==> Agrees(l) && AlwaysAgrees(Called(l, cs[0]), cs[1..])
  {
    hide Agrees, Called;
    assert cs[..0] == [];
    forall i | 0 < i <= |cs|
      ensures AllCalled(l, cs[..i]) == AllCalled(Called(l, cs[0]), cs[1..][..i - 1])
    {
      assert cs[..i][0] == cs[0] && cs[..i][1..] == cs[1..][..i - 1];
    }
    forall i | 0 <= i < |cs|
      ensures AllCalled(Called(l, cs[0]), cs[1..][..i]) == AllCalled(l, cs[..i + 1])
    {
    }
  }

  // Then the log holds exactly the records all of whose bytes were written, those of failed
  // calls included.
  lemma {:induction false} LogOfCalls(l: Log, cs: seq<Call>)
    requires Sound(l) && AlwaysAgrees(l, cs)
    ensures var l' := AllCalled(l, cs);
            Sound(l') && ReadAll(l'.file).records == ReadAll(l.file).records + WrittenBy(l, cs)
    decreases |cs|
  {
    hide Sound, ReadAll, Called, AllWritten, AlwaysAgrees, Agrees;
    AgreesAtFirst(l, cs);
    if cs == [] {
      assert ReadAll(l.file).records + [] == ReadAll(l.file).records;
    } else {
      AgreesLater(l, cs);
      AgreesAtFirst(Called(l, cs[0]), cs[1..]);
      CallKeepsSound(l, cs[0]);
      LogOfCalls(Called(l, cs[0]), cs[1..]);
      ConcatAssociates(ReadAll(l.file).records, if AllWritten(l, cs[0]) then [cs[0].data] else [],
                       WrittenBy(Called(l, cs[0]), cs[1..]));
    }
  }

  lemma AgreesAtFirst(l: Log, cs: seq<Call>)
    requires AlwaysAgrees(l, cs)
    ensures Agrees(l)
  {
    assert cs[..0] == [];
  }

  // At every point of a log's life all that can follow is read back, if and only if the writer
  // agrees with the file after every call.
  lemma ReadsBackThroughout(cs: seq<Call>)
    ensures (forall i | 0 <= i <= |cs| :: var l := AllCalled(Log([], 0), cs[..i]); ReadsBack(l.file, l.offset))
            <==> AlwaysAgrees(Log([], 0), cs)
  {
    hide Sound, ReadsBack, InStep, AllCalled;
    var l := Log([], 0);
    assert Sound(l) by { EmptyIsSound(); }
    forall i | 0 <= i <= |cs|
      ensures var l' := AllCalled(l, cs[..i]); ReadsBack(l'.file, l'.offset) ==> Agrees(l')
    {
      var l' := AllCalled(l, cs[..i]);
      ReadsBackIff(l'.file, l'.offset);
    }
    if AlwaysAgrees(l, cs) {
      forall i | 0 <= i <= |cs|
        ensures var l' := AllCalled(l, cs[..i]); ReadsBack(l'.file, l'.offset)
      {
        var l' := AllCalled(l, cs[..i]);
        assert forall j | 0 <= j <= i :: cs[..i][..j] == cs[..j];
        LogOfCalls(l, cs[..i]);
        SoundIsInStep(l');
        ReadsBackIff(l'.file, l'.offset);
      }
    }
  }

  lemma EmptyIsSound()
    ensures Sound(Log([], 0))
  {
    NothingStands(0);
    NoZeros();
    assert [] + Zeros(0) == [];
    assert Stood([], 0, []);
  }

  lemma {:induction false} FileGrows(l: Log, a: seq<Call>, b: seq<Call>)
    ensures l.file <= AllCalled(l, a).file && AllCalled(l, a + b) == AllCalled(AllCalled(l, a), b)
    decreases |a|
  {
    if a == [] {
      assert a + b == b;
    } else {
      assert (a + b)[0] == a[0] && (a + b)[1..] == a[1..] + b;
      FileGrows(Called(l, a[0]), a[1..], b);
    }
  }

  // What was written while the writer agreed with the file stays, however often and however
  // badly it fails later.
  lemma EarlierRecordsStay(a: seq<Call>, b: seq<Call>)
    requires AlwaysAgrees(Log([], 0), a)
    ensures WrittenBy(Log([], 0), a) <= ReadAll(AllCalled(Log([], 0), a + b).file).records
  {
    hide ReadAll, AllCalled, WrittenBy, AlwaysAgrees, Standing, Zeros;
    var l := Log([], 0);
    EmptyIsSound();
    LogOfCalls(l, a);
    var la := AllCalled(l, a);
    FileGrows(l, a, b);
    FileGrows(la, b, []);
    var whole, n: nat :| Stood(whole, n, la.file);
    StoodIsInStep(whole, n, la.file);
    var file := AllCalled(la, b).file;
    assert whole <= file;
    assert file == whole + file[|whole|..];
    NothingReadIsLost(whole, file[|whole|..]);
    NothingInIt();
    assert [] + WrittenBy(l, a) == WrittenBy(l, a);
  }

  lemma NothingInIt()
    ensures ReadAll([]).records == []
  {
    NothingLeft(0);
  }

  // ------------------------------------------------------------------ the writer itself

  // The calls made on the writer do to its file and its offset what is said of them here.
  method CallAll(w: Writer, cs: seq<Call>)
    requires w.Valid()
    modifies w
    ensures w.Valid()
    ensures var l := AllCalled(Log(old(w.dest), old(w.blockOffset)), cs);
            w.dest == l.file && Congruent(w.blockOffset, l.offset)
  {
    hide Congruent, Attempted, IsTypeCrc;
    ghost var l := Log(w.dest, w.blockOffset);
    ghost var goal := AllCalled(l, cs);
    Reflexive(l.offset);
    assert cs[0..] == cs;
    for i := 0 to |cs|
      invariant w.Valid() && w.dest == l.file && Congruent(w.blockOffset, l.offset)
      invariant goal == AllCalled(l, cs[i..])
    {
      ghost var offset := w.blockOffset;
      var ok := w.AddRecord(cs[i].data, cs[i].io);
      AttemptShifts(offset, l.offset, cs[i].data, true, cs[i].io);
      Transitive(w.blockOffset, Attempted(offset, cs[i].data, true, cs[i].io).offset, Called(l, cs[i]).offset);
      assert cs[i..][0] == cs[i] && cs[i..][1..] == cs[i + 1..];
      l := Called(l, cs[i]);
    }
  }

  lemma Reflexive(p: nat)
    ensures Congruent(p, p)
  {
  }

  lemma Transitive(p: nat, q: nat, r: nat)
    requires Congruent(p, q) && Congruent(q, r)
    ensures Congruent(p, r)
  {
  }

  // ------------------------------------------------------------------ one record

  // A record takes more bytes than it has.
  lemma {:induction false} PayloadIsLess(left: Bytes, pos: nat)
    ensures Payload(Events(left, pos)) == 0 || Payload(Events(left, pos)) + HEADER_SIZE <= |left|
    decreases |left|
  {
    hide Events, PhysicalAt, InBlock, Payload;
    NothingLeft(pos);
    NoPayload();
    if left != [] {
      var n, p := InBlock(left, pos), PhysicalAt(left, pos);
      ReadAdvances(left, pos);
      if p.AtEof? {
        AtEofIsNothing(left, pos);
      } else {
        OneRead(left, pos, p, n, left[Consumed(p, n)..], pos + Consumed(p, n));
        PayloadIsLess(left[Consumed(p, n)..], pos + Consumed(p, n));
        PayloadOne(EventOf(p, n), Events(left[Consumed(p, n)..], pos + Consumed(p, n)));
        OnePayload(p, n);
      }
    }
  }

  lemma OnePayload(p: Physical, n: nat)
    ensures Payload(EventOf(p, n)) == if p.Piece? then |p.data| else 0
  {
    if EventOf(p, n) != [] {
      assert EventOf(p, n)[1..] == [];
    }
  }

  lemma {:induction false} NoLongRecord(es: seq<Event>, inside: bool, scratch: Bytes, r: Bytes)
    requires |r| > Payload(es) + if inside then |scratch| else 0
    ensures r !in Assemble(es, inside, scratch).records
    decreases |es|
  {
    if es != [] {
      var rest := es[1..];
      NoLongRecord(rest, false, [], r);
      NoLongRecord(rest, false, scratch, r);
      if es[0].Got? && es[0].kind == FIRST_TYPE {
        NoLongRecord(rest, true, es[0].data, r);
      } else if es[0].Got? && inside && es[0].kind == MIDDLE_TYPE {
        NoLongRecord(rest, true, scratch + es[0].data, r);
      }
    }
  }

  // Behind a loss the reader begins anew.
  lemma {:induction false} AfterALoss(es: seq<Event>, lost: Event, more: seq<Event>, inside: bool, scratch: Bytes)
    requires Unending(es) && lost.Lost?
    ensures Assemble(es + ([lost] + more), inside, scratch).records ==
            Assemble(es, inside, scratch).records + Assemble(more, false, []).records
    decreases |es|
  {
    var x := [lost] + more;
    assert x[1..] == more;
    if es == [] {
      assert es + x == x;
    } else {
      var rest := es[1..];
      assert (es + x)[0] == es[0] && (es + x)[1..] == rest + x;
      AfterALoss(rest, lost, more, false, []);
      AfterALoss(rest, lost, more, false, scratch);
      if es[0].Got? {
        AfterALoss(rest, lost, more, true, es[0].data);
        AfterALoss(rest, lost, more, true, scratch + es[0].data);
      }
    }
  }

  // The bytes that one call writes for a record of one fragment, with no trailer before it.
  function Whole(data: Bytes): (b: Bytes)
    requires |data| < 65536
  {
    Header(FULL_TYPE, data) + data
  }

  lemma OneFragmentWritten(pos: nat, data: Bytes)
    requires HeaderAt(pos) == pos && |data| <= Room(pos)
    ensures Attempted(pos, data, true, []) == Attempt(Whole(data), pos + HEADER_SIZE + |data|, true)
  {
    hide Header;
    assert NextFragment(pos, data, true) == Fragment(FULL_TYPE, data);
    assert Zeros(0) + Header(FULL_TYPE, data) + data == Whole(data);
  }

  // One such record at the end of a file that the reader is through with, wherever its writer
  // takes itself to be: it is read back if and only if it fits into the block of the file, and
  // its loss is reported.
  lemma OneRecordIff(file: Bytes, data: Bytes)
    requires Standing(file, 0) && HeaderAt(|file|) == |file| && |data| < 65536
    ensures ReadAll(file + Whole(data)).records == ReadAll(file).records + [data] <==> |data| <= Room(|file|)
    ensures |data| > Room(|file|) ==> IsLost(file, data)
  {
    hide ReadAll, Standing, Room, HeaderAt, Whole;
    if |data| <= Room(|file|) {
      ItFits(file, data);
    } else {
      ItDoesNotFit(file, data);
      var base, after := ReadAll(file).records, ReadAll(file + Whole(data)).records;
      var more :| after == base + more && data !in more;
      assert (base + [data])[|base|] == data && (more != [] ==> (base + more)[|base|] == more[0]);
    }
  }

  // What was read before is still read, the record is not, and the loss is reported.
  ghost predicate IsLost(file: Bytes, data: Bytes)
    requires |data| < 65536
  {
    var o := ReadAll(file + Whole(data));
    o.reports != [] && exists more :: o.records == ReadAll(file).records + more && data !in more
  }

  lemma ItFits(file: Bytes, data: Bytes)
    requires Standing(file, 0) && HeaderAt(|file|) == |file| && |data| < 65536 && |data| <= Room(|file|)
    ensures ReadAll(file + Whole(data)).records == ReadAll(file).records + [data]
  {
    hide Standing, Events, Assemble, Header, HeaderAt, BlockEnd;
    var pos, w := |file|, Whole(data);
    RoomIs(pos);
    StandingSplits(file, 0, w);
    StandingIsUnending(file, 0);
    assert w + [] == w;
    RecordIsRead(w, pos, Fragment(FULL_TYPE, data), [], pos + HEADER_SIZE + |data|);
    NothingLeft(pos + HEADER_SIZE + |data|);
    assert [Got(FULL_TYPE, data)] + [] == [Got(FULL_TYPE, data)];
    OneFull(Events(file, 0), data, false, []);
  }

  lemma ItDoesNotFit(file: Bytes, data: Bytes)
    requires Standing(file, 0) && HeaderAt(|file|) == |file| && |data| < 65536 && |data| > Room(|file|)
    ensures IsLost(file, data)
  {
    hide Standing, Events, Assemble, Header, HeaderAt, BlockEnd, Payload, PhysicalAt, InBlock, Unending;
    var pos, w := |file|, Whole(data);
    var n := BlockEnd(pos) - pos;
    RoomIs(pos);
    StandingSplits(file, 0, w);
    StandingIsUnending(file, 0);
    DoesNotFit(w, pos, data);
    var left, es := w[n..], Events(w[n..], pos + n);
    OneRead(w, pos, Drop(true), n, left, pos + n);
    PayloadIsLess(left, pos + n);
    AfterALoss(Events(file, 0), Lost(n, true), es, false, []);
    LossIsReported(Events(file, 0), n, es, false, []);
    NoLongRecord(es, false, [], data);
    assert data !in Assemble(es, false, []).records;
  }

  lemma {:induction false} LossIsReported(es: seq<Event>, n: nat, more: seq<Event>, inside: bool, scratch: Bytes)
    requires Unending(es)
    ensures Assemble(es + ([Lost(n, true)] + more), inside, scratch).reports != []
    decreases |es|
  {
    var x := [Lost(n, true)] + more;
    if es == [] {
      assert es + x == x;
    } else {
      var rest := es[1..];
      assert (es + x)[0] == es[0] && (es + x)[1..] == rest + x;
      LossIsReported(rest, n, more, false, []);
      LossIsReported(rest, n, more, false, scratch);
      if es[0].Got? {
        LossIsReported(rest, n, more, true, es[0].data);
        LossIsReported(rest, n, more, true, scratch + es[0].data);
      }
    }
  }

  lemma RoomIs(pos: nat)
    requires HeaderAt(pos) == pos
    ensures Room(pos) == BlockEnd(pos) - pos - HEADER_SIZE >= 0
  {
  }

  lemma DoesNotFit(w: Bytes, pos: nat, data: Bytes)
    requires HeaderAt(pos) == pos && |data| < 65536 && w == Whole(data) && |data| > Room(pos)
    ensures PhysicalAt(w, pos) == Drop(true) && InBlock(w, pos) == BlockEnd(pos) - pos <= |w|
  {
    var n := BlockEnd(pos) - pos;
    assert w[..n][4] == |data| % 256 && w[..n][5] == |data| / 256;
  }

  lemma {:induction false} OneFull(es: seq<Event>, data: Bytes, inside: bool, scratch: Bytes)
    requires Unending(es)
    ensures Assemble(es + [Got(FULL_TYPE, data)], inside, scratch).records == Assemble(es, inside, scratch).records + [data]
    decreases |es|
  {
    var x := [Got(FULL_TYPE, data)];
    assert x[1..] == [];
    if es == [] {
      assert es + x == x;
    } else {
      var rest := es[1..];
      assert (es + x)[0] == es[0] && (es + x)[1..] == rest + x;
      OneFull(rest, data, false, []);
      OneFull(rest, data, false, scratch);
      if es[0].Got? {
        OneFull(rest, data, true, es[0].data);
        OneFull(rest, data, true, scratch + es[0].data);
      }
    }
  }

  // ------------------------------------------------------------------ an acknowledged record is lost

  // Three calls on a fresh log.  The flush of the first fails with nothing written; the second
  // fills what the writer takes for the rest of the block; the third goes through as well.  Its
  // record is read back if and only if it is no longer than the first one's: that is what is
  // left of the block of the file.
  method AcknowledgedAndLost(first: Bytes, second: Bytes, third: Bytes)
    returns (w: Writer, failed: bool, others: bool)
    requires |first| + |second| == BLOCK_SIZE - 2 * HEADER_SIZE && |third| <= BLOCK_SIZE - HEADER_SIZE
    ensures failed && others && w.dest == Whole(second) + Whole(third)
    ensures ReadAll(w.dest).records == [second, third] <==> |third| <= |first|
    ensures |third| > |first| ==> IsLost(Whole(second), third)
  {
    hide Attempted, Header, IsTypeCrc, ReadAll, Rendered, RenderedAll, Whole, IsLost;
    w := new Writer();
    var ok := w.AddRecord(first, [Failed(0)]);
    failed := !ok;
    Unwritten(first);
    assert w.blockOffset == HEADER_SIZE + |first|;
    Places(|first|);
    others := w.AddRecord(second, []);
    OneFragmentWritten(HEADER_SIZE + |first|, second);
    ghost var offset := w.blockOffset;
    ok := w.AddRecord(third, []);
    AttemptShifts(offset, BLOCK_SIZE, third, true, []);
    OneFragmentWritten(BLOCK_SIZE, third);
    others := others && ok;
    assert [] + Whole(second) == Whole(second);
    SecondIsRead(second);
    OneRecordIff(Whole(second), third);
    assert [second] + [third] == [second, third];
  }

  lemma Places(n: nat)
    requires n <= BLOCK_SIZE - 2 * HEADER_SIZE
    ensures HeaderAt(HEADER_SIZE + n) == HEADER_SIZE + n && Room(HEADER_SIZE + n) == BLOCK_SIZE - 2 * HEADER_SIZE - n
    ensures HeaderAt(BLOCK_SIZE) == BLOCK_SIZE && Room(BLOCK_SIZE) == BLOCK_SIZE - HEADER_SIZE
    ensures HeaderAt(0) == 0 && Room(0) == BLOCK_SIZE - HEADER_SIZE
  {
  }

  lemma Unwritten(data: Bytes)
    requires |data| <= BLOCK_SIZE - HEADER_SIZE
    ensures Attempted(0, data, true, [Failed(0)]) == Attempt([], HEADER_SIZE + |data|, false)
  {
    assert NextFragment(0, data, true) == Fragment(FULL_TYPE, data);
  }

  lemma SecondIsRead(second: Bytes)
    requires |second| <= BLOCK_SIZE - 2 * HEADER_SIZE
    ensures Standing(Whole(second), 0) && ReadAll(Whole(second)).records == [second]
    ensures HeaderAt(|Whole(second)|) == |Whole(second)|
    ensures Room(|Whole(second)|) == BLOCK_SIZE - 2 * HEADER_SIZE - |second|
  {
    hide Header, Standing, Events, Assemble;
    var f := Fragment(FULL_TYPE, second);
    Places(|second|);
    FragmentStands(0, f);
    assert Rendered(0, f) == Whole(second) by { assert Zeros(0) + Header(f.kind, f.data) + f.data == Whole(second); }
    NothingStands(0);
    NothingInIt();
    assert [] + Whole(second) == Whole(second) && [] + [second] == [second];
    OneRecordIff([], second);
  }

  // All there is to read when the rest of the third record happens to be zeros.
  lemma LostBeforeZeros(second: Bytes, third: Bytes)
    requires |second| == 32654 && |third| == 200 && third[100..] == Zeros(100)
    ensures ReadAll(Whole(second) + Whole(third)) == Outcome([second], [107])
  {
    hide Events, PhysicalAt, InBlock, Header, Assemble, Zeros;
    var tail := Whole(third);
    Places(|second|);
    RecordIsRead(Whole(second) + tail, 0, Fragment(FULL_TYPE, second), tail, 32661);
    DoesNotFit(tail, 32661, third);
    assert tail[107..] == Zeros(100);
    OneRead(tail, 32661, Drop(true), 107, Zeros(100), 32768);
    NoType(Zeros(100), 32768);
    OneRead(Zeros(100), 32768, Drop(false), 100, [], 32868);
    NothingLeft(32868);
    assert Events(Whole(second) + tail, 0) == [Got(FULL_TYPE, second), Lost(107, true), Lost(100, false)];
    TwoLosses(second);
  }

  lemma TwoLosses(second: Bytes)
    ensures Assemble([Got(FULL_TYPE, second), Lost(107, true), Lost(100, false)], false, []) == Outcome([second], [107])
  {
    var e3, e2 := [Lost(100, false)], [Lost(107, true), Lost(100, false)];
    var es := [Got(FULL_TYPE, second), Lost(107, true), Lost(100, false)];
    assert e3[1..] == [] && e2[1..] == e3 && es[1..] == e2;
    assert Assemble(e3, false, []) == Outcome([], []);
    assert Assemble(e2, false, []) == Outcome([], [107]);
  }

  lemma NoType(z: Bytes, pos: nat)
    requires z == Zeros(100) && pos == 32768
    ensures PhysicalAt(z, pos) == Drop(false) && InBlock(z, pos) == 100
  {
    assert z[..100] == z;
  }

  // Nor is it enough that the offset agrees again by accident: after three failed calls it
  // does, and the next record lies behind the remains of the first.
  lemma AgreementIsNotEnough()
    ensures var l := AllCalled(Log([], 0), [Call(Zeros(100), [Failed(10)]), Call(Zeros(32654), [Failed(0)]),
                                            Call(Zeros(3), [Failed(0)])]);
            Agrees(l) && |l.file| == 10 && !ReadsBack(l.file, l.offset)
  {
    hide ReadsBack, Header;
    var a, b, c := Call(Zeros(100), [Failed(10)]), Call(Zeros(32654), [Failed(0)]), Call(Zeros(3), [Failed(0)]);
    var f := Fragment(FULL_TYPE, Zeros(100));
    var cut := Rendered(0, f)[..10];
    assert NextFragment(0, a.data, true) == f;
    assert Called(Log([], 0), a) == Log(cut, 107);
    StillUnwritten(cut, 107, b, 32768);
    StillUnwritten(cut, 32768, c, 32778);
    assert [a, b, c][1..] == [b, c] && [b, c][1..] == [c] && [c][1..] == [];
    var l := Log(cut, 32778);
    assert AllCalled(Log(cut, 107), [b, c]) == AllCalled(Log(cut, 32768), [c]) == AllCalled(l, []) == l;
    ReadsBackIff(cut, 32778);
    CutStandsNot(cut, f);
  }

  lemma StillUnwritten(file: Bytes, pos: nat, c: Call, p: nat)
    requires HeaderAt(pos) == pos && |c.data| <= Room(pos) && c.io == [Failed(0)] && p == pos + HEADER_SIZE + |c.data|
    ensures Called(Log(file, pos), c) == Log(file, p)
  {
    hide Header;
    assert NextFragment(pos, c.data, true) == Fragment(FULL_TYPE, c.data);
    assert file + [] == file;
  }

  lemma CutStandsNot(cut: Bytes, f: Fragment)
    requires f == Fragment(FULL_TYPE, Zeros(100)) && cut == Rendered(0, f)[..10]
    ensures !InStep(cut)
  {
    assert Rendered(0, f) == Header(FULL_TYPE, Zeros(100)) + Zeros(100);
    assert Trailer(10) == [] && cut + [] == cut;
    TruncatedIsEof(f, 10);
    assert cut[..10] == cut && PhysicalAt(cut, 0).AtEof?;
  }
}
