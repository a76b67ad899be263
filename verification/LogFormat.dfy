// The block-structured log format: db/log_format.h, and the two sides that implement it,
// db/log_writer.cc and db/log_reader.cc (with initial_offset 0, as every caller opens it).
//
// A file is a sequence of 32 KB blocks.  A physical record (a fragment) is a 7-byte header
// and a payload that never crosses a block; fewer than 7 bytes at the end of a block are a
// trailer of zeros.
module LogFormat {
  import opened Coding
  import opened Crc32c

  const BLOCK_SIZE: nat := 32768
  const HEADER_SIZE: nat := 7

  const ZERO_TYPE: byte := 0
  const FULL_TYPE: byte := 1
  const FIRST_TYPE: byte := 2
  const MIDDLE_TYPE: byte := 3
  const LAST_TYPE: byte := 4
  const EOF: byte := 5         // kMaxRecordType + 1
  const BAD_RECORD: byte := 6  // kMaxRecordType + 2

  type Bytes = seq<byte>

  datatype Fragment = Fragment(kind: byte, data: Bytes)

  // ------------------------------------------------------------------ layout

  // The first offset after pos at which a block ends.
  function BlockEnd(pos: nat): (e: nat)
    ensures pos < e <= pos + BLOCK_SIZE && e % BLOCK_SIZE == 0
  {
    (pos / BLOCK_SIZE + 1) * BLOCK_SIZE
  }

  // Where the next header goes: in this block, or in the next one when fewer than 7 bytes
  // are left here.
  function HeaderAt(pos: nat): (p: nat)
    ensures pos <= p < pos + HEADER_SIZE && BlockEnd(p) - p >= HEADER_SIZE
  {
    if BlockEnd(pos) - pos < HEADER_SIZE then BlockEnd(pos) else pos
  }

  function Header(kind: byte, data: Bytes): (h: Bytes)
    requires |data| < 65536
    ensures |h| == HEADER_SIZE
  {
    Stored(Checksum([kind] + data)) + [|data| % 256, |data| / 256, kind]
  }

  function Zeros(n: nat): (z: Bytes)
    ensures |z| == n
  {
    seq(n, i => 0)
  }

  // A fragment fits where the writer puts it.
  predicate Fits(pos: nat, f: Fragment) {
    HeaderAt(pos) + HEADER_SIZE + |f.data| <= BlockEnd(HeaderAt(pos))
  }

  function After(pos: nat, f: Fragment): (p: nat)
    ensures p >= pos + HEADER_SIZE
  {
    HeaderAt(pos) + HEADER_SIZE + |f.data|
  }

  // The bytes one fragment adds to a file of length pos, trailer included.
  function Rendered(pos: nat, f: Fragment): (b: Bytes)
    requires Fits(pos, f)
    ensures |b| == After(pos, f) - pos
  {
    Zeros(HeaderAt(pos) - pos) + Header(f.kind, f.data) + f.data
  }

  predicate AllFit(pos: nat, fs: seq<Fragment>)
    decreases |fs|
  {
    fs == [] || (Fits(pos, fs[0]) && FULL_TYPE <= fs[0].kind <= LAST_TYPE && AllFit(After(pos, fs[0]), fs[1..]))
  }

  function End(pos: nat, fs: seq<Fragment>): (p: nat)
    ensures p >= pos
    decreases |fs|
  {
    if fs == [] then pos else End(After(pos, fs[0]), fs[1..])
  }

  function RenderedAll(pos: nat, fs: seq<Fragment>): (b: Bytes)
    requires AllFit(pos, fs)
    ensures |b| == End(pos, fs) - pos
    decreases |fs|
  {
    if fs == [] then [] else Rendered(pos, fs[0]) + RenderedAll(After(pos, fs[0]), fs[1..])
  }

  // ------------------------------------------------------------------ the writer's fragmentation

  // How much of a payload goes into the block that a header at p is in.
  function Room(p: nat): (n: nat)
    requires BlockEnd(p) - p >= HEADER_SIZE
    ensures n < 65536
  {
    BlockEnd(p) - p - HEADER_SIZE
  }

  function KindOf(begin: bool, end: bool): (k: byte)
    ensures FULL_TYPE <= k <= LAST_TYPE
  {
    if begin && end then FULL_TYPE else if begin then FIRST_TYPE else if end then LAST_TYPE else MIDDLE_TYPE
  }

  // The fragments of a record that starts (or, when !begin, continues) at offset pos.
  function FragmentsFrom(pos: nat, data: Bytes, begin: bool): (fs: seq<Fragment>)
    ensures |fs| > 0 && AllFit(pos, fs)
    decreases |data|, if BlockEnd(HeaderAt(pos)) - HeaderAt(pos) == HEADER_SIZE then 1 else 0
  {
    var room := Room(HeaderAt(pos));
    if |data| <= room then [Fragment(KindOf(begin, true), data)]
    else
      var f := Fragment(KindOf(begin, false), data[..room]);
      [f] + FragmentsFrom(After(pos, f), data[room..], false)
  }

  // The fragments of a whole log, written by AddRecord calls from offset pos on.
  function FragmentsOf(pos: nat, records: seq<Bytes>): (fs: seq<Fragment>)
    ensures AllFit(pos, fs)
    decreases |records|
  {
    if records == [] then []
    else
      var first := FragmentsFrom(pos, records[0], true);
      AllFitConcat(pos, first, FragmentsOf(End(pos, first), records[1..]));
      first + FragmentsOf(End(pos, first), records[1..])
  }

  lemma {:induction false} AllFitConcat(pos: nat, a: seq<Fragment>, b: seq<Fragment>)
    requires AllFit(pos, a) && AllFit(End(pos, a), b)
    ensures AllFit(pos, a + b) && End(pos, a + b) == End(End(pos, a), b)
    decreases |a|
  {
    if a == [] {
      assert a + b == b;
    } else {
      assert (a + b)[0] == a[0] && (a + b)[1..] == a[1..] + b;
      AllFitConcat(After(pos, a[0]), a[1..], b);
    }
  }

  lemma RenderedCons(pos: nat, f: Fragment, fs: seq<Fragment>)
    requires AllFit(pos, [f] + fs)
    ensures Fits(pos, f) && AllFit(After(pos, f), fs)
    ensures RenderedAll(pos, [f] + fs) == Rendered(pos, f) + RenderedAll(After(pos, f), fs)
  {
    assert ([f] + fs)[1..] == fs;
  }

  lemma {:induction false} RenderedConcat(pos: nat, a: seq<Fragment>, b: seq<Fragment>)
    requires AllFit(pos, a) && AllFit(End(pos, a), b) && AllFit(pos, a + b)
    ensures RenderedAll(pos, a + b) == RenderedAll(pos, a) + RenderedAll(End(pos, a), b)
    decreases |a|
  {
    if a == [] {
      assert a + b == b;
    } else {
      var p := After(pos, a[0]);
      assert a == [a[0]] + a[1..] && a + b == [a[0]] + (a[1..] + b);
      RenderedCons(pos, a[0], a[1..]);
      RenderedCons(pos, a[0], a[1..] + b);
      RenderedConcat(p, a[1..], b);
      ConcatAssociates(Rendered(pos, a[0]), RenderedAll(p, a[1..]), RenderedAll(End(pos, a), b));
    }
  }

  // The bytes of a log that holds these records.
  function LogBytes(records: seq<Bytes>): (b: Bytes) {
    RenderedAll(0, FragmentsOf(0, records))
  }

  // ------------------------------------------------------------------ reading one block

  // What ReadPhysicalRecord makes of the bytes left in its buffer.
  datatype Physical =
    | Piece(kind: byte, data: Bytes)  // a checked physical record
    | Skip                            // nothing left but a trailer: read the next block
    | Drop(report: bool)              // kBadRecord: the rest of the block is dropped
    | AtEof                           // kEof

  function ParseBuffer(buffer: Bytes, eof: bool): (p: Physical)
    ensures p.Piece? ==> HEADER_SIZE + |p.data| <= |buffer|
    ensures p.Drop? ==> |buffer| >= HEADER_SIZE
    ensures p.Skip? ==> !eof && |buffer| < HEADER_SIZE
    ensures p.AtEof? ==> eof
  {
    if |buffer| < HEADER_SIZE then (if eof then AtEof else Skip)
    else
      var low: nat, high: nat := buffer[4], buffer[5];
      var length := low + 256 * high;
      var kind := buffer[6];
      if HEADER_SIZE + length > |buffer| then (if eof then AtEof else Drop(true))
      else if kind == ZERO_TYPE && length == 0 then Drop(false)
      else if Loaded(buffer[..4]) != Checksum(buffer[6..HEADER_SIZE + length]) then Drop(true)
      else Piece(kind, buffer[HEADER_SIZE..HEADER_SIZE + length])
  }

  // A header and payload the writer produced parse back, whatever follows them.
  lemma RenderedParses(f: Fragment, tail: Bytes, eof: bool)
    requires |f.data| < 65536 && (f.kind != ZERO_TYPE || f.data != [])
    ensures ParseBuffer(Header(f.kind, f.data) + f.data + tail, eof) == Piece(f.kind, f.data)
  {
    var n, h := |f.data|, Header(f.kind, f.data);
    var buffer := h + f.data + tail;
    assert buffer[4] == n % 256 && buffer[5] == n / 256 && buffer[6] == f.kind;
    assert buffer[..4] == Stored(Checksum([f.kind] + f.data));
    assert buffer[6..HEADER_SIZE + n] == [f.kind] + f.data;
    assert buffer[HEADER_SIZE..HEADER_SIZE + n] == f.data;
    StoredRoundTrip(Checksum([f.kind] + f.data));
  }

  // Nothing else does: what the reader takes for a fragment is the bytes that the writer lays out
  // for one, checksum and length included.
  lemma PieceIff(f: Fragment, buffer: Bytes, eof: bool)
    requires |f.data| < 65536
    ensures ParseBuffer(buffer, eof) == Piece(f.kind, f.data) <==>
            Header(f.kind, f.data) + f.data <= buffer && (f.kind != ZERO_TYPE || f.data != [])
  {
    var whole := Header(f.kind, f.data) + f.data;
    if whole <= buffer && (f.kind != ZERO_TYPE || f.data != []) {
      assert buffer == whole + buffer[|whole|..];
      RenderedParses(f, buffer[|whole|..], eof);
    }
    if ParseBuffer(buffer, eof) == Piece(f.kind, f.data) {
      PieceIsWhole(f, buffer, eof);
    }
    hide ParseBuffer, Header;
  }

  lemma PieceIsWhole(f: Fragment, buffer: Bytes, eof: bool)
    requires |f.data| < 65536 && ParseBuffer(buffer, eof) == Piece(f.kind, f.data)
    ensures Header(f.kind, f.data) + f.data <= buffer && (f.kind != ZERO_TYPE || f.data != [])
  {
    hide Checksum, Stored, Loaded;
    var n := |f.data|;
    PieceParts(f, buffer, eof);
    HeaderParts(buffer, n, f.kind);
    assert buffer[..HEADER_SIZE + n] == buffer[..HEADER_SIZE] + buffer[HEADER_SIZE..HEADER_SIZE + n];
    hide ParseBuffer;
  }

  lemma PieceParts(f: Fragment, buffer: Bytes, eof: bool)
    requires |f.data| < 65536 && ParseBuffer(buffer, eof) == Piece(f.kind, f.data)
    ensures |buffer| >= HEADER_SIZE + |f.data| && buffer[HEADER_SIZE..HEADER_SIZE + |f.data|] == f.data
    ensures buffer[..4] == Stored(Checksum([f.kind] + f.data))
    ensures buffer[4] == |f.data| % 256 && buffer[5] == |f.data| / 256 && buffer[6] == f.kind
    ensures f.kind != ZERO_TYPE || f.data != []
  {
    hide Checksum, Stored, Loaded;
    LoadedRoundTrip(buffer[..4]);
    assert buffer[6..HEADER_SIZE + |f.data|] == [f.kind] + f.data;
  }

  lemma HeaderParts(buffer: Bytes, n: nat, kind: byte)
    requires |buffer| >= HEADER_SIZE && n < 65536 && buffer[4] == n % 256 && buffer[5] == n / 256 && buffer[6] == kind
    ensures buffer[..HEADER_SIZE] == buffer[..4] + [n % 256, n / 256, kind]
  {
  }

  // A record cut off in its header or payload reads as the end of the file.
  lemma TruncatedIsEof(f: Fragment, n: nat)
    requires |f.data| < 65536 && n < HEADER_SIZE + |f.data|
    ensures ParseBuffer((Header(f.kind, f.data) + f.data)[..n], true) == AtEof
  {
    if n >= HEADER_SIZE {
      var b := (Header(f.kind, f.data) + f.data)[..n];
      assert b[4] == |f.data| % 256 && b[5] == |f.data| / 256;
    }
  }

  // ------------------------------------------------------------------ reading a file

  // How many of the bytes left from offset pos on are in the same block.
  function InBlock(left: Bytes, pos: nat): (n: nat)
    ensures n <= |left|
  {
    if BlockEnd(pos) - pos <= |left| then BlockEnd(pos) - pos else |left|
  }

  // What is read at offset pos, when `left` is the file from there on.  A short block is the
  // last one.
  function PhysicalAt(left: Bytes, pos: nat): (p: Physical) {
    ParseBuffer(left[..InBlock(left, pos)], |left| < BlockEnd(pos) - pos)
  }

  // A physical record, or a stretch of `bytes` bytes dropped.
  datatype Event = Got(kind: byte, data: Bytes) | Lost(bytes: nat, report: bool)

  // How many of the bytes left a read consumes, out of the n that are in the block.
  function Consumed(p: Physical, n: nat): (m: nat) {
    if p.Piece? then HEADER_SIZE + |p.data| else n
  }

  function EventOf(p: Physical, n: nat): (es: seq<Event>) {
    match p
    case Piece(kind, data) => [Got(kind, data)]
    case Drop(report) => [Lost(n, report)]
    case _ => []
  }

  // Everything ReadPhysicalRecord returns from offset pos until the end of the file.
  function Events(left: Bytes, pos: nat): (es: seq<Event>)
    decreases |left|
  {
    var n, p := InBlock(left, pos), PhysicalAt(left, pos);
    var m := Consumed(p, n);
    if p.AtEof? then [] else EventOf(p, n) + Events(left[m..], pos + m)
  }

  // ------------------------------------------------------------------ reassembly

  // The records a caller gets by calling ReadRecord until it returns false, and the sizes
  // ReadRecord and ReadPhysicalRecord report as corrupt.
  datatype Outcome = Outcome(records: seq<Bytes>, reports: seq<nat>)

  function Reported(n: nat, o: Outcome): (r: Outcome) {
    o.(reports := [n] + o.reports)
  }

  function ReportedIf(c: bool, n: nat, o: Outcome): (r: Outcome) {
    if c then Reported(n, o) else o
  }

  function Delivered(record: Bytes, o: Outcome): (r: Outcome) {
    o.(records := [record] + o.records)
  }

  // The switch of ReadRecord.  inside and scratch are in_fragmented_record and *scratch.
  function Assemble(es: seq<Event>, inside: bool, scratch: Bytes): (o: Outcome)
    decreases |es|
  {
    if es == [] then Outcome([], [])
    else
      var rest := es[1..];
      match es[0]
      case Lost(bytes, report) =>
        ReportedIf(report, bytes, ReportedIf(inside, |scratch|, Assemble(rest, false, [])))
      case Got(kind, data) =>
        if kind == FULL_TYPE then
          ReportedIf(inside && scratch != [], |scratch|, Delivered(data, Assemble(rest, false, [])))
        else if kind == FIRST_TYPE then
          ReportedIf(inside && scratch != [], |scratch|, Assemble(rest, true, data))
        else if kind == MIDDLE_TYPE then
          if inside then Assemble(rest, true, scratch + data)
          else Reported(|data|, Assemble(rest, false, scratch))
        else if kind == LAST_TYPE then
          if inside then Delivered(scratch + data, Assemble(rest, false, []))
          else Reported(|data|, Assemble(rest, false, scratch))
        else if kind == EOF then Outcome([], [])
        else if kind == BAD_RECORD then
          ReportedIf(inside, |scratch|, Assemble(rest, false, []))
        else
          Reported(|data| + (if inside then |scratch| else 0), Assemble(rest, false, []))
  }

  // Everything there is to read in a file.
  function ReadAll(file: Bytes): (o: Outcome) {
    Assemble(Events(file, 0), false, [])
  }
}
