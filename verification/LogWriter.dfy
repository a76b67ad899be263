// log::Writer: db/log_writer.cc.
module LogWriter {
  import opened Coding
  import opened Crc32c
  import opened LogFormat

  // The checksums of the type bytes, computed once.
  ghost predicate IsTypeCrc(crcs: seq<word>) {
    |crcs| == LAST_TYPE + 1 && forall t: byte | t <= LAST_TYPE :: crcs[t] == Checksum([t])
  }

  method InitTypeCrc() returns (crcs: seq<word>)
    ensures IsTypeCrc(crcs)
  {
    hide Checksum;
    crcs := [];
    for i := 0 to LAST_TYPE + 1
      invariant |crcs| == i && forall t: byte | t < i :: crcs[t] == Checksum([t])
    {
      var t: byte := i;
      crcs := crcs + [Checksum([t])];
    }
  }

  // ------------------------------------------------------------------ places in a block

  // Two offsets at the same place in a block.
  predicate Congruent(p: nat, q: nat) {
    (p - q) % BLOCK_SIZE == 0
  }

  lemma HeadersShift(p: nat, q: nat)
    requires Congruent(p, q)
    ensures HeaderAt(p) - p == HeaderAt(q) - q && Congruent(HeaderAt(p), HeaderAt(q))
    ensures Room(HeaderAt(p)) == Room(HeaderAt(q))
  {
    var k := (p - q) / BLOCK_SIZE;
    assert p == q + k * BLOCK_SIZE;
    assert p / BLOCK_SIZE == q / BLOCK_SIZE + k;
    assert HeaderAt(p) == HeaderAt(q) + k * BLOCK_SIZE;
    assert HeaderAt(p) / BLOCK_SIZE == HeaderAt(q) / BLOCK_SIZE + k;
  }

  lemma FragmentShifts(p: nat, q: nat, f: Fragment)
    requires Congruent(p, q) && Fits(p, f)
    ensures Fits(q, f) && Rendered(p, f) == Rendered(q, f) && Congruent(After(p, f), After(q, f))
  {
    HeadersShift(p, q);
    hide HeaderAt, BlockEnd, Header;
    assert Room(HeaderAt(p)) == Room(HeaderAt(q));
  }

  // What is written depends on the place in a block only.
  lemma {:induction false} RenderedShifts(p: nat, q: nat, fs: seq<Fragment>)
    requires Congruent(p, q) && AllFit(p, fs)
    ensures AllFit(q, fs) && RenderedAll(p, fs) == RenderedAll(q, fs) && Congruent(End(p, fs), End(q, fs))
    decreases |fs|
  {
    hide Rendered, Fits, After, Congruent;
    if fs != [] {
      FragmentShifts(p, q, fs[0]);
      RenderedShifts(After(p, fs[0]), After(q, fs[0]), fs[1..]);
    }
  }

  lemma {:induction false} FragmentsShift(p: nat, q: nat, data: Bytes, begin: bool)
    requires Congruent(p, q)
    ensures FragmentsFrom(p, data, begin) == FragmentsFrom(q, data, begin)
    decreases Turns(p, |data|)
  {
    HeadersShift(p, q);
    var f := NextFragment(p, data, begin);
    FirstFragment(p, data, begin, |f.data|, f);
    FirstFragment(q, data, begin, |f.data|, f);
    if f.data != data {
      FragmentShifts(p, q, f);
      NextTurn(p, |data|, f);
      FragmentsShift(After(p, f), After(q, f), data[|f.data|..], false);
    }
  }

  lemma {:induction false} RecordsShift(p: nat, q: nat, records: seq<Bytes>)
    requires Congruent(p, q)
    ensures FragmentsOf(p, records) == FragmentsOf(q, records)
    decreases |records|
  {
    hide FragmentsFrom, Congruent, RenderedAll;
    if records != [] {
      FragmentsShift(p, q, records[0], true);
      var first := FragmentsFrom(p, records[0], true);
      RenderedShifts(p, q, first);
      RecordsShift(End(p, first), End(q, first), records[1..]);
    }
  }

  // ------------------------------------------------------------------ what one AddRecord writes

  // A bound on the fragments still to come: one more when the first can hold no payload.
  function Turns(pos: nat, left: nat): (n: nat) {
    2 * left + if Room(HeaderAt(pos)) == 0 then 1 else 0
  }

  lemma NextTurn(pos: nat, left: nat, f: Fragment)
    requires |f.data| == Room(HeaderAt(pos)) < left
    ensures Turns(After(pos, f), left - |f.data|) < Turns(pos, left)
  {
  }

  // What becomes of a fragment that is flushed to the file: it is written, or the flush fails
  // after some of its bytes.
  datatype Io = Done | Failed(gained: nat)

  function First(b: Bytes, n: nat): (r: Bytes) {
    if n < |b| then b[..n] else b
  }

  // The bytes that reach the file, where the writer then takes its place in the block to be,
  // and the status.
  datatype Attempt = Attempt(bytes: Bytes, offset: nat, ok: bool)

  // The next fragment of what is left of a record.
  function NextFragment(pos: nat, left: Bytes, begin: bool): (f: Fragment)
    ensures Fits(pos, f) && f.data <= left
  {
    var n := if |left| < Room(HeaderAt(pos)) then |left| else Room(HeaderAt(pos));
    Fragment(KindOf(begin, |left| == n), left[..n])
  }

  // Writing a record, or what is left of it, from offset pos of a block; io is what happens
  // to its fragments, and those it does not mention are written.
  function Attempted(pos: nat, left: Bytes, begin: bool, io: seq<Io>): (a: Attempt)
    decreases Turns(pos, |left|)
  {
    var f := NextFragment(pos, left, begin);
    var p, whole := After(pos, f), Rendered(pos, f);
    if io != [] && io[0].Failed? then Attempt(First(whole, io[0].gained), p, false)
    else if f.data == left then Attempt(whole, p, true)
    else
      NextTurn(pos, |left|, f);
      var a := Attempted(p, left[|f.data|..], false, Rest(io));
      Attempt(whole + a.bytes, a.offset, a.ok)
  }

  function Rest(io: seq<Io>): (r: seq<Io>) {
    if io == [] then [] else io[1..]
  }

  // ------------------------------------------------------------------ the writer

  class Writer {
    var dest: Bytes        // what is in the file
    var buffer: Bytes      // what has been appended to it since the last flush
    var blockOffset: nat   // block_offset_: it may stand at the very end of a block
    var typeCrc: seq<word>

    ghost predicate Valid()
      reads this
    {
      blockOffset <= BLOCK_SIZE && buffer == [] && IsTypeCrc(typeCrc)
    }

    // The writer's place in the block is the file's.
    ghost predicate Agrees()
      reads this
    {
      Congruent(|dest|, blockOffset)
    }

    constructor ()
      ensures Valid() && Agrees() && dest == [] && blockOffset == 0
    {
      var crcs := InitTypeCrc();
      dest, buffer, blockOffset, typeCrc := [], [], 0, crcs;
      new;
      hide IsTypeCrc;
    }

    // A writer that goes on with a file of this content.
    constructor Reopen(content: Bytes)
      ensures Valid() && Agrees() && dest == content
    {
      var crcs := InitTypeCrc();
      dest, buffer, blockOffset, typeCrc := content, [], |content| % BLOCK_SIZE, crcs;
      new;
      hide IsTypeCrc;
    }

    // WritableFile::Append.
    method Append(b: Bytes)
      modifies this`buffer
      ensures buffer == old(buffer) + b
    {
      buffer := buffer + b;
    }

    // WritableFile::Flush: whatever it writes, nothing stays in the buffer.
    method Flush(io: Io) returns (ok: bool)
      modifies this`dest, this`buffer
      ensures ok == io.Done? && buffer == []
      ensures dest == old(dest) + if io.Done? then old(buffer) else First(old(buffer), io.gained)
    {
      match io {
        case Done => dest := dest + buffer;
        case Failed(gained) => dest := dest + First(buffer, gained);
      }
      buffer, ok := [], io.Done?;
    }

    // The place in the block moves on whether or not the fragment reached the file.
    method EmitPhysicalRecord(t: byte, data: Bytes, io: Io) returns (ok: bool)
      requires blockOffset + HEADER_SIZE + |data| <= BLOCK_SIZE && IsTypeCrc(typeCrc)
      requires FULL_TYPE <= t <= LAST_TYPE
      modifies this
      ensures Valid() && ok == io.Done? && typeCrc == old(typeCrc)
      ensures blockOffset == old(blockOffset) + HEADER_SIZE + |data|
      ensures var pending := old(buffer) + Header(t, data) + data;
              dest == old(dest) + if io.Done? then pending else First(pending, io.gained)
    {
      hide Checksum, Extend, Stored;
      var crc := Extend(typeCrc[t], data);
      ExtendConcat([t], data);
      var buf := Stored(crc) + [|data| % 256, |data| / 256, t];
      Append(buf);
      Append(data);
      ok := Flush(io);
      blockOffset := blockOffset + HEADER_SIZE + |data|;
    }

    // Any record, of any length, from wherever the writer takes itself to be.
    method AddRecord(slice: Bytes, io: seq<Io>) returns (ok: bool)
      requires Valid()
      modifies this
      ensures Valid()
      ensures var a := Attempted(old(blockOffset), slice, true, io);
              ok == a.ok && dest == old(dest) + a.bytes && Congruent(blockOffset, a.offset)
    {
      hide Attempted, HeaderAt, Room, Rendered, Header, Turns, Preceded, BlockEnd, After, Fits, Congruent, IsTypeCrc, First, Zeros;
      var left, begin, more := slice, true, io;
      ghost var pos: nat, written: Bytes := blockOffset, [];
      ghost var start, goal := dest, Attempted(blockOffset, slice, true, io);
      NothingWritten(start, goal, pos);
      while true
        invariant Valid() && Congruent(blockOffset, pos) && dest == start + written
        invariant goal == Preceded(written, Attempted(pos, left, begin, more))
        decreases Turns(pos, |left|)
      {
        FillTrailer(pos);
        var avail := BLOCK_SIZE - blockOffset - HEADER_SIZE;
        var n := if |left| < avail then |left| else avail;
        var end := |left| == n;
        var f := Fragment(KindOf(begin, end), left[..n]);
        var now := if more == [] then Done else more[0];
        ghost var header := HeaderAt(pos);
        var result := EmitPhysicalRecord(f.kind, f.data, now);
        OneTurn(pos, left, begin, more, f, now, written);
        Moved(pos, header, f, blockOffset);
        ConcatAssociates(start, written, OnDisk(pos, f, now));
        written, pos := written + OnDisk(pos, f, now), After(pos, f);
        if !result || end {
          return result;
        }
        left, begin, more := left[n..], false, Rest(more);
      }
    }

    // Zeros up to the block's end when no header fits before it.
    method FillTrailer(ghost pos: nat)
      requires Valid() && Congruent(blockOffset, pos)
      modifies this`buffer, this`blockOffset
      ensures buffer == Zeros(HeaderAt(pos) - pos) && Congruent(blockOffset, HeaderAt(pos))
      ensures BLOCK_SIZE - blockOffset - HEADER_SIZE == Room(HeaderAt(pos))
    {
      AtTheHeader(pos, blockOffset);
      hide IsTypeCrc, Congruent, HeaderAt, Room, Zeros;
      assert Zeros(0) == [];
      var leftover := BLOCK_SIZE - blockOffset;
      if leftover < HEADER_SIZE {
        if leftover > 0 {
          Append(Zeros(leftover));
        }
        blockOffset := 0;
      }
    }
  }

  // The next header is where block_offset_ says.
  lemma AtTheHeader(pos: nat, blockOffset: nat)
    requires blockOffset <= BLOCK_SIZE && Congruent(blockOffset, pos)
    ensures var leftover := BLOCK_SIZE - blockOffset;
            if leftover < HEADER_SIZE then
              HeaderAt(pos) - pos == leftover && Congruent(0, HeaderAt(pos)) && Room(HeaderAt(pos)) == BLOCK_SIZE - HEADER_SIZE
            else HeaderAt(pos) == pos && Room(pos) == leftover - HEADER_SIZE
  {
    var k := (pos - blockOffset) / BLOCK_SIZE;
    assert pos == k * BLOCK_SIZE + blockOffset;
    if blockOffset == BLOCK_SIZE {
      assert pos == (k + 1) * BLOCK_SIZE && pos / BLOCK_SIZE == k + 1;
    } else {
      assert pos / BLOCK_SIZE == k;
    }
    if BLOCK_SIZE - HEADER_SIZE < blockOffset < BLOCK_SIZE {
      assert HeaderAt(pos) == (k + 1) * BLOCK_SIZE && HeaderAt(pos) / BLOCK_SIZE == k + 1;
    }
  }

  function Preceded(written: Bytes, a: Attempt): (r: Attempt) {
    Attempt(written + a.bytes, a.offset, a.ok)
  }

  // What reaches the file of a fragment.
  function OnDisk(pos: nat, f: Fragment, io: Io): (b: Bytes)
    requires Fits(pos, f)
  {
    if io.Done? then Rendered(pos, f) else First(Rendered(pos, f), io.gained)
  }

  lemma NothingWritten(start: Bytes, goal: Attempt, pos: nat)
    ensures start + [] == start && Preceded([], goal) == goal && Congruent(pos, pos)
  {
  }

  // One turn of the loop writes the first of the fragments still to be written.
  lemma OneTurn(pos: nat, left: Bytes, begin: bool, more: seq<Io>, f: Fragment, now: Io, written: Bytes)
    requires var n := if |left| < Room(HeaderAt(pos)) then |left| else Room(HeaderAt(pos));
             f == Fragment(KindOf(begin, |left| == n), left[..n])
    requires now == if more == [] then Done else more[0]
    ensures Fits(pos, f) && Rendered(pos, f) == Zeros(HeaderAt(pos) - pos) + Header(f.kind, f.data) + f.data
    ensures Preceded(written, Attempted(pos, left, begin, more)) ==
            if now.Failed? || |f.data| == |left| then Attempt(written + OnDisk(pos, f, now), After(pos, f), now.Done?)
            else
              Preceded(written + OnDisk(pos, f, now), Attempted(After(pos, f), left[|f.data|..], false, Rest(more)))
    ensures |f.data| == |left| || Turns(After(pos, f), |left| - |f.data|) < Turns(pos, |left|)
  {
    hide Header, HeaderAt, BlockEnd;
    assert f == NextFragment(pos, left, begin);
    if |f.data| < |left| {
      NextTurn(pos, |left|, f);
      ConcatAssociates(written, Rendered(pos, f), Attempted(After(pos, f), left[|f.data|..], false, Rest(more)).bytes);
    } else {
      assert f.data == left;
    }
  }

  lemma Moved(pos: nat, header: nat, f: Fragment, blockOffset: nat)
    requires header == HeaderAt(pos) && blockOffset >= HEADER_SIZE + |f.data|
    requires Congruent(blockOffset - HEADER_SIZE - |f.data|, header)
    ensures Congruent(blockOffset, After(pos, f))
  {
  }

  // The first fragment that fails; n when none of them does.
  function FailsAt(io: seq<Io>, n: nat): (k: nat)
    ensures k <= n && (k < n ==> k < |io| && io[k].Failed?)
  {
    if n == 0 || (io != [] && io[0].Failed?) then 0 else 1 + FailsAt(Rest(io), n - 1)
  }

  // k fragments are written, and of the next one the first n bytes.
  function Part(pos: nat, fs: seq<Fragment>, k: nat, n: nat): (a: Attempt)
    requires AllFit(pos, fs) && k < |fs|
    decreases |fs|
  {
    if k == 0 then Attempt(First(Rendered(pos, fs[0]), n), After(pos, fs[0]), false)
    else
      var a := Part(After(pos, fs[0]), fs[1..], k - 1, n);
      Attempt(Rendered(pos, fs[0]) + a.bytes, a.offset, false)
  }

  // AddRecord writes the fragments of the record, up to the first that fails.
  lemma {:induction false} AttemptIs(pos: nat, left: Bytes, begin: bool, io: seq<Io>, fs: seq<Fragment>)
    requires fs == FragmentsFrom(pos, left, begin)
    ensures var k := FailsAt(io, |fs|);
            Attempted(pos, left, begin, io) ==
            if k == |fs| then Attempt(RenderedAll(pos, fs), End(pos, fs), true) else Part(pos, fs, k, io[k].gained)
    decreases Turns(pos, |left|)
  {
    hide Rendered, Fits, HeaderAt, FragmentsFrom;
    var f := NextFragment(pos, left, begin);
    FirstFragment(pos, left, begin, |f.data|, f);
    if f.data == left {
      OneRendered(pos, f);
    } else {
      NextTurn(pos, |left|, f);
      AttemptIs(After(pos, f), left[|f.data|..], false, Rest(io), fs[1..]);
    }
  }

  lemma FirstFragment(pos: nat, left: Bytes, begin: bool, n: nat, f: Fragment)
    requires n == if |left| < Room(HeaderAt(pos)) then |left| else Room(HeaderAt(pos))
    requires f == Fragment(KindOf(begin, |left| == n), left[..n])
    ensures FragmentsFrom(pos, left, begin) ==
            if |left| == n then [f] else [f] + FragmentsFrom(After(pos, f), left[n..], false)
  {
    assert |left| == n ==> left[..n] == left;
  }

  lemma OneRendered(pos: nat, f: Fragment)
    requires AllFit(pos, [f])
    ensures Fits(pos, f) && RenderedAll(pos, [f]) == Rendered(pos, f)
  {
    hide Rendered;
    assert [f][1..] == [];
    assert Rendered(pos, f) + [] == Rendered(pos, f);
  }

  // One AddRecord call a record, with nothing going wrong.
  method AddAll(w: Writer, records: seq<Bytes>)
    requires w.Valid() && w.Agrees()
    modifies w
    ensures w.Valid() && w.Agrees()
    ensures w.dest == old(w.dest) + RenderedAll(|old(w.dest)|, FragmentsOf(|old(w.dest)|, records))
  {
    hide RenderedAll, FragmentsOf, FragmentsFrom, Attempted, Congruent, IsTypeCrc;
    ghost var goal := w.dest + RenderedAll(|w.dest|, FragmentsOf(|w.dest|, records));
    assert records[0..] == records;
    for i := 0 to |records|
      invariant w.Valid() && w.Agrees()
      invariant goal == w.dest + RenderedAll(|w.dest|, FragmentsOf(|w.dest|, records[i..]))
    {
      ghost var before, offset := w.dest, w.blockOffset;
      var ok := w.AddRecord(records[i], []);
      NothingFails(|before|, offset, records[i], w.blockOffset);
      OneRecord(before, |before|, records[i..], FragmentsFrom(|before|, records[i], true), w.dest, |w.dest|);
      assert records[i..][1..] == records[i + 1..];
    }
    NoRecords(|w.dest|);
    assert records[|records|..] == [];
  }

  lemma NothingFails(pos: nat, offset: nat, data: Bytes, offset': nat)
    requires Congruent(pos, offset) && Congruent(offset', Attempted(offset, data, true, []).offset)
    ensures var a := Attempted(offset, data, true, []);
            a.ok && a.bytes == RenderedAll(pos, FragmentsFrom(pos, data, true)) && Congruent(pos + |a.bytes|, offset')
  {
    hide *;
    var fs := FragmentsFrom(pos, data, true);
    FragmentsShift(pos, offset, data, true);
    AttemptIs(offset, data, true, [], fs);
    NoneFails(|fs|);
    RenderedShifts(pos, offset, fs);
    CongruentEnds(End(pos, fs), End(offset, fs), offset');
  }

  lemma CongruentEnds(p: nat, q: nat, r: nat)
    requires Congruent(p, q) && Congruent(r, q)
    ensures Congruent(p, r)
  {
  }

  lemma {:induction false} NoneFails(n: nat)
    ensures FailsAt([], n) == n
  {
    if n > 0 {
      NoneFails(n - 1);
    }
  }

  // A writer reopened at a record boundary goes on as if it had written everything.
  method WriteLog(records: seq<Bytes>, more: seq<Bytes>) returns (file: Bytes)
    ensures file == LogBytes(records + more)
  {
    hide *;
    var w := new Writer();
    AddAll(w, records);
    WrittenFromScratch(w.dest, records);
    w := new Writer.Reopen(w.dest);
    AddAll(w, more);
    file := w.dest;
    Reopened(records, more, FragmentsOf(0, records), |LogBytes(records)|);
  }

  lemma WrittenFromScratch(file: Bytes, records: seq<Bytes>)
    requires file == [] + RenderedAll(0, FragmentsOf(0, records))
    ensures file == LogBytes(records)
  {
    hide RenderedAll, FragmentsOf;
  }

  lemma Reopened(records: seq<Bytes>, more: seq<Bytes>, fs: seq<Fragment>, end: nat)
    requires fs == FragmentsOf(0, records) && end == |LogBytes(records)|
    ensures LogBytes(records) + RenderedAll(end, FragmentsOf(end, more)) == LogBytes(records + more)
  {
    hide RenderedAll, FragmentsOf;
    FragmentsOfConcat(0, records, more, fs, end);
    JoinRendered([], 0, fs, end, FragmentsOf(end, more), LogBytes(records), RenderedAll(end, FragmentsOf(end, more)));
    assert [] + LogBytes(records) == LogBytes(records);
    assert [] + LogBytes(records + more) == LogBytes(records + more);
  }

  lemma {:induction false} FragmentsOfConcat(pos: nat, a: seq<Bytes>, b: seq<Bytes>, fs: seq<Fragment>, end: nat)
    requires fs == FragmentsOf(pos, a) && end == End(pos, fs)
    ensures FragmentsOf(pos, a + b) == fs + FragmentsOf(end, b)
    decreases |a|
  {
    hide FragmentsFrom, AllFit;
    if a == [] {
      assert a + b == b && fs == [] && [] + FragmentsOf(end, b) == FragmentsOf(end, b);
    } else {
      var first := FragmentsFrom(pos, a[0], true);
      var p := End(pos, first);
      var rest := FragmentsOf(p, a[1..]);
      FirstRecord(pos, a, first, p, rest);
      AllFitConcat(pos, first, rest);
      FragmentsOfConcat(p, a[1..], b, rest, End(p, rest));
      assert (a + b)[0] == a[0] && (a + b)[1..] == a[1..] + b;
      FirstRecord(pos, a + b, first, p, FragmentsOf(p, a[1..] + b));
      ConcatAssociates(first, rest, FragmentsOf(end, b));
    }
  }

  lemma NoRecords(pos: nat)
    ensures FragmentsOf(pos, []) == [] && RenderedAll(pos, []) == []
  {
  }

  lemma OneRecord(before: Bytes, pos: nat, records: seq<Bytes>, first: seq<Fragment>, after: Bytes, p: nat)
    requires records != [] && pos == |before| && p == |after|
    requires first == FragmentsFrom(pos, records[0], true) && after == before + RenderedAll(pos, first)
    ensures before + RenderedAll(pos, FragmentsOf(pos, records)) ==
            after + RenderedAll(p, FragmentsOf(p, records[1..]))
  {
    hide *;
    assert p == End(pos, first);
    var rest := FragmentsOf(p, records[1..]);
    FirstRecord(pos, records, first, p, rest);
    JoinRendered(before, pos, first, p, rest, RenderedAll(pos, first), RenderedAll(p, rest));
  }

  lemma FirstRecord(pos: nat, records: seq<Bytes>, first: seq<Fragment>, p: nat, rest: seq<Fragment>)
    requires records != [] && first == FragmentsFrom(pos, records[0], true) && p == End(pos, first)
    requires rest == FragmentsOf(p, records[1..])
    ensures FragmentsOf(pos, records) == first + rest
  {
    hide FragmentsFrom, End, AllFit;
  }

  lemma JoinRendered(before: Bytes, pos: nat, first: seq<Fragment>, p: nat, rest: seq<Fragment>, b: Bytes, c: Bytes)
    requires AllFit(pos, first) && p == End(pos, first) && AllFit(p, rest)
    requires b == RenderedAll(pos, first) && c == RenderedAll(p, rest)
    ensures AllFit(pos, first + rest) && before + RenderedAll(pos, first + rest) == (before + b) + c
  {
    hide *;
    AllFitConcat(pos, first, rest);
    RenderedConcat(pos, first, rest);
    ConcatAssociates(before, b, c);
  }
}
