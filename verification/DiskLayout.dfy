// What stands in LevelDB's files, in numbers: internal keys, batches, descriptor edits, the
// buffer of a memtable's entry and the log, as any other program would read them
// (db/dbformat.h, db/write_batch.cc, db/version_edit.cc, db/memtable.cc, db/log_format.h).
// A round trip cannot tell a format from another that its two sides agree on; this can.
module DiskLayout {
  import opened Coding
  import opened Crc32c
  import opened DbFormat
  import opened Lookup
  import opened Numerals
  import Batch = WriteBatch
  import Log = LogFormat
  import MemTable
  import Version = VersionEdit

  type Bytes = seq<byte>

  // ------------------------------------------------------------------ internal keys

  // The user key and eight bytes: the type in the lowest, the sequence number in the others.
  lemma KeyLayout(k: InternalKey)
    requires k.sequence <= MAX_SEQUENCE
    ensures var b := Encode(k);
            |b| == |k.user| + 8 && b[..|k.user|] == k.user && EightBytes(b[|k.user|..]) == 256 * k.sequence + k.kind
  {
    var b := Encode(k);
    EightBytesOf(k.Tag(), Fixed(8, k.Tag()), []);
    assert b[|k.user|..] == Fixed(8, k.Tag()) + [];
    hide EightBytes, Fixed;
  }

  // A memtable's buffer: both parts behind their lengths.
  lemma BufferLayout(k: InternalKey, v: Value)
    requires |k.user| + 8 <= MAX_UINT32 && |v| <= MAX_UINT32
    ensures var b := MemTable.Buffer(k, v);
            && ReadSlice(b).Parsed? && ReadSlice(b).value == Encode(k)
            && ReadSlice(ReadSlice(b).rest) == Parsed(v, [])
  {
    hide LengthPrefixed, ReadSlice, Encode;
    SliceRead(Encode(k), LengthPrefixed(v));
    SliceRead(v, []);
    assert LengthPrefixed(v) + [] == LengthPrefixed(v);
  }

  // ------------------------------------------------------------------ batches

  // 1, key and value; or 0 and key.
  function ReadOp(b: Bytes): (p: Parsed<Batch.Op>)
    ensures p.Parsed? ==> |p.rest| < |b|
  {
    if b == [] then Malformed
    else
      var key := ReadSlice(b[1..]);
      if key.Malformed? then Malformed
      else if b[0] == 0 then Parsed(Batch.Delete(key.value), key.rest)
      else if b[0] == 1 then
        var value := ReadSlice(key.rest);
        if value.Malformed? then Malformed else Parsed(Batch.Put(key.value, value.value), value.rest)
      else Malformed
  }

  function ReadOps(b: Bytes): (ops: Option<seq<Batch.Op>>)
    decreases |b|
  {
    if b == [] then Some([])
    else
      var op := ReadOp(b);
      if op.Parsed? then Prepended([op.value], ReadOps(op.rest)) else None
  }

  lemma OpLayout(op: Batch.Op, rest: Bytes)
    requires Batch.Fits(op)
    ensures ReadOp(Batch.Record(op) + rest) == Parsed(op, rest)
  {
    hide LengthPrefixed, ReadSlice;
    match op
    case Put(key, value) =>
      var k, v := LengthPrefixed(key), LengthPrefixed(value);
      SliceRead(key, v + rest);
      SliceRead(value, rest);
      assert Batch.Record(op) + rest == [1] + (k + (v + rest));
    case Delete(key) =>
      SliceRead(key, rest);
      assert Batch.Record(op) + rest == [0] + (LengthPrefixed(key) + rest);
  }

  lemma {:induction false} BodyLayout(ops: seq<Batch.Op>, rest: Bytes)
    requires Batch.AllFit(ops)
    ensures ReadOps(Batch.Body(ops) + rest) == Prepended(ops, ReadOps(rest))
    decreases |ops|
  {
    hide Batch.Record, ReadOp;
    if ops == [] {
      assert Batch.Body(ops) + rest == rest;
      assert ReadOps(rest).Some? ==> [] + ReadOps(rest).value == ReadOps(rest).value;
    } else {
      var n := |ops| - 1;
      var tail := Batch.Record(ops[n]) + rest;
      ConcatAssociates(Batch.Body(ops[..n]), Batch.Record(ops[n]), rest);
      OpLayout(ops[n], rest);
      BodyLayout(ops[..n], tail);
      assert ops == ops[..n] + [ops[n]];
      if ReadOps(rest).Some? {
        ConcatAssociates(ops[..n], [ops[n]], ReadOps(rest).value);
      }
    }
  }

  // A batch: eight bytes of sequence number, four of count, and its operations in order.
  lemma BatchLayout(sequence: nat, ops: seq<Batch.Op>)
    requires Batch.AllFit(ops) && sequence <= MAX_UINT64
    ensures var b := Batch.Contents(sequence, ops);
            && |b| >= 12 && EightBytes(b) == sequence && FourBytes(b[8..]) == |ops| % 0x1_0000_0000
            && ReadOps(b[12..]) == Some(ops)
  {
    var count, body := |ops| % 0x1_0000_0000, Batch.Body(ops);
    BodyLayout(ops, []);
    assert body + [] == body && ops + [] == ops;
    EightBytesOf(sequence, Fixed(8, sequence), Fixed(4, count) + body);
    FourBytesOf(count, Fixed(4, count), body);
    var b := Batch.Contents(sequence, ops);
    assert b == Fixed(8, sequence) + (Fixed(4, count) + body);
    assert b[8..] == Fixed(4, count) + body && b[12..] == body;
    hide Fixed, EightBytes, FourBytes, Batch.Body;
  }

  // ------------------------------------------------------------------ descriptor edits


  // 1, comparator name; 2, log number; 3, next file number; 4, last sequence; 5, compact
  // pointer; 6, deleted file; 7, new file; 9, previous log number.
  function ReadField(b: Bytes): (p: Parsed<Version.Field>)
    ensures p.Parsed? ==> |p.rest| < |b|
  {
    var tag := ReadVarint(b);
    if tag.Malformed? then Malformed
    else if tag.value == 1 then
      var s := ReadSlice(tag.rest);
      if s.Parsed? then Parsed(Version.Comparator(s.value), s.rest) else Malformed
    else
      var n := ReadVarint(tag.rest);
      if n.Malformed? then Malformed
      else
        match tag.value
        case 2 => Parsed(Version.LogNumber(n.value), n.rest)
        case 3 => Parsed(Version.NextFile(n.value), n.rest)
        case 4 => Parsed(Version.LastSequence(n.value), n.rest)
        case 5 =>
          var key := ReadSlice(n.rest);
          if key.Parsed? then Parsed(Version.CompactPointer(Version.Pointer(n.value, key.value)), key.rest) else Malformed
        case 6 =>
          var file := ReadVarint(n.rest);
          if file.Parsed? then Parsed(Version.DeletedFile(Version.FileAt(n.value, file.value)), file.rest) else Malformed
        case 7 => ReadFile(n.value, n.rest)
        case 9 => Parsed(Version.PrevLogNumber(n.value), n.rest)
        case _ => Malformed
  }

  // File number, file size, smallest key, largest key.
  function ReadFile(level: nat, b: Bytes): (p: Parsed<Version.Field>)
    ensures p.Parsed? ==> |p.rest| < |b|
  {
    var number := ReadVarint(b);
    if number.Malformed? then Malformed
    else
      var size := ReadVarint(number.rest);
      if size.Malformed? then Malformed
      else
        var smallest := ReadSlice(size.rest);
        if smallest.Malformed? then Malformed
        else
          var largest := ReadSlice(smallest.rest);
          if largest.Malformed? then Malformed
          else
            Parsed(Version.NewFile(Version.FileMeta(level, number.value, size.value, smallest.value, largest.value)),
                   largest.rest)
  }

  function ReadFields(b: Bytes): (fs: Option<seq<Version.Field>>)
    decreases |b|
  {
    if b == [] then Some([])
    else
      var f := ReadField(b);
      if f.Parsed? then Prepended([f.value], ReadFields(f.rest)) else None
  }

  lemma NumberField(tag: nat, n: nat, rest: Bytes)
    ensures ReadVarint((Varint(tag) + Varint(n)) + rest) == Parsed(tag, Varint(n) + rest)
    ensures ReadVarint(Varint(n) + rest) == Parsed(n, rest)
  {
    ConcatAssociates(Varint(tag), Varint(n), rest);
    VarintRead(tag, Varint(n) + rest);
    VarintRead(n, rest);
  }

  lemma TwoNumbers(tag: nat, n: nat, more: Bytes, rest: Bytes)
    ensures ReadVarint((Varint(tag) + (Varint(n) + more)) + rest) == Parsed(tag, Varint(n) + (more + rest))
    ensures ReadVarint(Varint(n) + (more + rest)) == Parsed(n, more + rest)
  {
    ConcatAssociates(Varint(tag), Varint(n) + more, rest);
    ConcatAssociates(Varint(n), more, rest);
    VarintRead(tag, Varint(n) + (more + rest));
    VarintRead(n, more + rest);
  }

  lemma NewFileLayout(m: Version.FileMeta, rest: Bytes, number: Bytes, size: Bytes, lo: Bytes, hi: Bytes)
    requires Version.Fits(Version.NewFile(m))
    requires number == Varint(m.number) && size == Varint(m.size)
    requires lo == LengthPrefixed(m.smallest) && hi == LengthPrefixed(m.largest)
    ensures ReadFile(m.level, (number + (size + (lo + hi))) + rest) == Parsed(Version.NewFile(m), rest)
  {
    hide Varint, ReadVarint, LengthPrefixed, ReadSlice;
    ConcatAssociates(lo, hi, rest);
    ConcatAssociates(size, lo + hi, rest);
    ConcatAssociates(number, size + (lo + hi), rest);
    SliceRead(m.largest, rest);
    SliceRead(m.smallest, hi + rest);
    VarintRead(m.size, lo + (hi + rest));
    VarintRead(m.number, size + (lo + (hi + rest)));
  }

  lemma FieldLayout(f: Version.Field, rest: Bytes)
    requires Version.Fits(f)
    ensures ReadField(Version.FieldBytes(f) + rest) == Parsed(f, rest)
  {
    hide Varint, ReadVarint, LengthPrefixed, ReadSlice, ReadFile;
    match f
    case Comparator(name) =>
      ConcatAssociates(Varint(1), LengthPrefixed(name), rest);
      VarintRead(1, LengthPrefixed(name) + rest);
      SliceRead(name, rest);
    case LogNumber(n) => NumberField(2, n, rest);
    case NextFile(n) => NumberField(3, n, rest);
    case LastSequence(n) => NumberField(4, n, rest);
    case PrevLogNumber(n) => NumberField(9, n, rest);
    case CompactPointer(p) =>
      TwoNumbers(5, p.level, LengthPrefixed(p.key), rest);
      SliceRead(p.key, rest);
    case DeletedFile(d) =>
      TwoNumbers(6, d.level, Varint(d.number), rest);
      VarintRead(d.number, rest);
    case NewFile(m) =>
      var number, size := Varint(m.number), Varint(m.size);
      var lo, hi := LengthPrefixed(m.smallest), LengthPrefixed(m.largest);
      TwoNumbers(7, m.level, number + (size + (lo + hi)), rest);
      NewFileLayout(m, rest, number, size, lo, hi);
  }

  lemma {:induction false} FieldsLayout(fs: seq<Version.Field>, rest: Bytes)
    requires Version.AllFit(fs)
    ensures ReadFields(Version.Concatenated(fs) + rest) == Prepended(fs, ReadFields(rest))
    decreases |fs|
  {
    hide Version.FieldBytes, ReadField, Version.Fits;
    if fs == [] {
      assert Version.Concatenated(fs) + rest == rest;
      assert ReadFields(rest).Some? ==> [] + ReadFields(rest).value == ReadFields(rest).value;
    } else {
      var init, f := fs[..|fs| - 1], fs[|fs| - 1];
      ConcatAssociates(Version.Concatenated(init), Version.FieldBytes(f), rest);
      FieldLayout(f, rest);
      FieldsLayout(init, Version.FieldBytes(f) + rest);
      assert fs == init + [f];
      if ReadFields(rest).Some? {
        ConcatAssociates(init, [f], ReadFields(rest).value);
      }
    }
  }

  // An edit: its fields one after the other, each behind its number.
  lemma EditLayout(e: Version.Edit)
    requires Version.Writable(e)
    ensures ReadFields(Version.Encoded(e)) == Some(Version.Fields(e))
  {
    hide Version.Concatenated, Version.Fields, Version.Ascending;
    FieldsLayout(Version.Fields(e), []);
    assert Version.Encoded(e) + [] == Version.Encoded(e) && Version.Fields(e) + [] == Version.Fields(e);
  }

  // ------------------------------------------------------------------ the log

  // A fragment: four bytes of masked checksum of what follows the length, two bytes of length,
  // the low one first, one of type, and the payload.
  lemma FragmentLayout(f: Log.Fragment)
    requires |f.data| < 65536
    ensures var b := Log.Header(f.kind, f.data) + f.data;
            && |b| == 7 + |f.data| && FourBytes(b) == Mask(Checksum(b[6..]))
            && (var low: nat, high: nat := b[4], b[5]; low + 256 * high == |f.data|)
            && b[6] == f.kind && b[7..] == f.data
  {
    var b := Log.Header(f.kind, f.data) + f.data;
    var crc := Mask(Checksum([f.kind] + f.data));
    var more := [|f.data| % 256, |f.data| / 256, f.kind] + f.data;
    assert b == Fixed(4, crc) + more;
    FourBytesOf(crc, Fixed(4, crc), more);
    assert b[6..] == [f.kind] + f.data;
    hide Fixed, FourBytes, Mask, Checksum;
  }

  // Where the header of a fragment written at pos goes, and what stands before it: in the same
  // 32 KB block if there are seven bytes left in it, and otherwise behind a trailer of zeros in
  // the next one; all of the fragment is in that block.
  lemma FragmentPlace(pos: nat, f: Log.Fragment)
    requires Log.Fits(pos, f)
    ensures var p := Log.HeaderAt(pos);
            && pos <= p < pos + 7 && (p != pos ==> p % 32768 == 0)
            && p / 32768 == (p + 7 + |f.data| - 1) / 32768
            && Log.Rendered(pos, f)[..p - pos] == seq(p - pos, i => 0)
  {
    hide Log.Header;
  }

  // A record is one fragment of type 1, or a 2, any number of 3s and a 4; put together their
  // payloads are the record, and every fragment but the last fills its block.
  ghost predicate IsSplit(pos: nat, fs: seq<Log.Fragment>, data: Bytes, begin: bool)
    decreases |fs|
  {
    && |fs| > 0
    && if |fs| == 1 then fs[0].kind == (if begin then 1 else 4) && fs[0].data == data
       else
         && fs[0].kind == (if begin then 2 else 3)
         && Log.After(pos, fs[0]) % 32768 == 0
         && fs[0].data <= data && IsSplit(Log.After(pos, fs[0]), fs[1..], data[|fs[0].data|..], false)
  }

  lemma {:induction false} RecordLayout(pos: nat, data: Bytes, begin: bool)
    ensures IsSplit(pos, Log.FragmentsFrom(pos, data, begin), data, begin)
    decreases |data|, if Log.BlockEnd(Log.HeaderAt(pos)) - Log.HeaderAt(pos) == Log.HEADER_SIZE then 1 else 0
  {
    var room := Log.Room(Log.HeaderAt(pos));
    var fs := Log.FragmentsFrom(pos, data, begin);
    if |data| > room {
      var f := Log.Fragment(Log.KindOf(begin, false), data[..room]);
      RecordLayout(Log.After(pos, f), data[room..], false);
      assert fs[1..] == Log.FragmentsFrom(Log.After(pos, f), data[room..], false);
    }
  }
}
