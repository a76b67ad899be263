// Descriptor edits and their encoding: db/version_edit.{h,cc}.
module VersionEdit {
  import opened Coding
  import opened Lookup

  const NUM_LEVELS: nat := 7

  const COMPARATOR: nat := 1
  const LOG_NUMBER: nat := 2
  const NEXT_FILE_NUMBER: nat := 3
  const LAST_SEQUENCE: nat := 4
  const COMPACT_POINTER: nat := 5
  const DELETED_FILE: nat := 6
  const NEW_FILE: nat := 7
  const PREV_LOG_NUMBER: nat := 9

  type Bytes = seq<byte>

  // Internal keys are kept encoded.
  datatype Pointer = Pointer(level: nat, key: Bytes)
  datatype FileAt = FileAt(level: nat, number: nat)
  datatype FileMeta = FileMeta(level: nat, number: nat, size: nat, smallest: Bytes, largest: Bytes)

  // deleted is a std::set of pairs: strictly ascending.
  datatype Edit = Edit(comparator: Option<Bytes>, logNumber: Option<nat>, prevLogNumber: Option<nat>,
                       nextFile: Option<nat>, lastSequence: Option<nat>,
                       compactPointers: seq<Pointer>, deleted: seq<FileAt>, newFiles: seq<FileMeta>)

  const EMPTY := Edit(None, None, None, None, None, [], [], [])

  // VersionEdit::Clear: compact_pointers_ is not reset.
  function Cleared(e: Edit): (r: Edit) {
    EMPTY.(compactPointers := e.compactPointers)
  }

  predicate Less(a: FileAt, b: FileAt) {
    a.level < b.level || (a.level == b.level && a.number < b.number)
  }

  // std::set::insert.
  function Inserted(s: seq<FileAt>, x: FileAt): (r: seq<FileAt>) {
    if s == [] then [x]
    else if s[0] == x then s
    else if Less(s[0], x) then [s[0]] + Inserted(s[1..], x)
    else [x] + s
  }

  predicate Ascending(s: seq<FileAt>) {
    forall i, j :: 0 <= i < j < |s| ==> Less(s[i], s[j])
  }

  lemma {:induction false} InsertedAscends(s: seq<FileAt>, x: FileAt)
    requires Ascending(s)
    ensures Ascending(Inserted(s, x))
    ensures forall y :: y in Inserted(s, x) <==> y in s || y == x
  {
    if s != [] && Less(s[0], x) {
      InsertedAscends(s[1..], x);
      assert forall y :: y in s[1..] ==> Less(s[0], y);
    }
  }

  lemma {:induction false} InsertedLast(s: seq<FileAt>, x: FileAt)
    requires forall y | y in s :: Less(y, x)
    ensures Inserted(s, x) == s + [x]
  {
    if s != [] {
      InsertedLast(s[1..], x);
    }
  }

  // ------------------------------------------------------------------ one field at a time

  datatype Field =
    | Comparator(name: Bytes)
    | LogNumber(n: nat)
    | PrevLogNumber(n: nat)
    | NextFile(n: nat)
    | LastSequence(n: nat)
    | CompactPointer(pointer: Pointer)
    | DeletedFile(at: FileAt)
    | NewFile(file: FileMeta)

  function FieldBytes(f: Field): (b: Bytes)
    ensures b != []
  {
    match f
    case Comparator(name) => Varint(COMPARATOR) + LengthPrefixed(name)
    case LogNumber(n) => Varint(LOG_NUMBER) + Varint(n)
    case PrevLogNumber(n) => Varint(PREV_LOG_NUMBER) + Varint(n)
    case NextFile(n) => Varint(NEXT_FILE_NUMBER) + Varint(n)
    case LastSequence(n) => Varint(LAST_SEQUENCE) + Varint(n)
    case CompactPointer(p) => Varint(COMPACT_POINTER) + (Varint(p.level) + LengthPrefixed(p.key))
    case DeletedFile(d) => Varint(DELETED_FILE) + (Varint(d.level) + Varint(d.number))
    case NewFile(m) =>
      Varint(NEW_FILE)
      + (Varint(m.level) + (Varint(m.number) + (Varint(m.size) + (LengthPrefixed(m.smallest) + LengthPrefixed(m.largest)))))
  }

  // What the codecs can carry: levels below kNumLevels, 64-bit numbers, 32-bit lengths.
  predicate Fits(f: Field) {
    match f
    case Comparator(name) => |name| <= MAX_UINT32
    case CompactPointer(p) => p.level < NUM_LEVELS && |p.key| <= MAX_UINT32
    case DeletedFile(d) => d.level < NUM_LEVELS && d.number <= MAX_UINT64
    case NewFile(m) =>
      && m.level < NUM_LEVELS && m.number <= MAX_UINT64 && m.size <= MAX_UINT64
      && |m.smallest| <= MAX_UINT32 && |m.largest| <= MAX_UINT32
    case _ => f.n <= MAX_UINT64
  }

  function Apply(e: Edit, f: Field): (r: Edit) {
    match f
    case Comparator(name) => e.(comparator := Some(name))
    case LogNumber(n) => e.(logNumber := Some(n))
    case PrevLogNumber(n) => e.(prevLogNumber := Some(n))
    case NextFile(n) => e.(nextFile := Some(n))
    case LastSequence(n) => e.(lastSequence := Some(n))
    case CompactPointer(p) => e.(compactPointers := e.compactPointers + [p])
    case DeletedFile(d) => e.(deleted := Inserted(e.deleted, d))
    case NewFile(m) => e.(newFiles := e.newFiles + [m])
  }

  function GetLevel(input: Bytes): (p: Parsed<nat>)
    ensures p.Parsed? ==> |p.rest| < |input|
  {
    var v := GetVarint32(input);
    if v.Parsed? && v.value < NUM_LEVELS then v else Malformed
  }

  // The switch of DecodeFrom: the rest of a field whose tag has been read, or the message.
  datatype FieldRead = Bad(msg: string) | Good(field: Field, rest: Bytes)

  function ReadNumber(input: Bytes, make: nat -> Field, msg: string): (r: FieldRead)
    ensures r.Good? ==> |r.rest| < |input|
  {
    var n := GetVarint64(input);
    if n.Parsed? then Good(make(n.value), n.rest) else Bad(msg)
  }

  function ReadPointer(input: Bytes): (r: FieldRead)
    ensures r.Good? ==> |r.rest| < |input|
  {
    var level := GetLevel(input);
    if level.Malformed? then Bad("compaction pointer")
    else
      var key := GetLengthPrefixed(level.rest);
      if key.Malformed? then Bad("compaction pointer") else Good(CompactPointer(Pointer(level.value, key.value)), key.rest)
  }

  function ReadDeleted(input: Bytes): (r: FieldRead)
    ensures r.Good? ==> |r.rest| < |input|
  {
    var level := GetLevel(input);
    if level.Malformed? then Bad("deleted file")
    else
      var n := GetVarint64(level.rest);
      if n.Malformed? then Bad("deleted file") else Good(DeletedFile(FileAt(level.value, n.value)), n.rest)
  }

  function ReadNewFile(input: Bytes): (r: FieldRead)
    ensures r.Good? ==> |r.rest| < |input|
  {
    var level := GetLevel(input);
    if level.Malformed? then Bad("new-file entry")
    else
      var n := GetVarint64(level.rest);
      if n.Malformed? then Bad("new-file entry")
      else
        var size := GetVarint64(n.rest);
        if size.Malformed? then Bad("new-file entry")
        else
          var lo := GetLengthPrefixed(size.rest);
          if lo.Malformed? then Bad("new-file entry")
          else
            var hi := GetLengthPrefixed(lo.rest);
            if hi.Malformed? then Bad("new-file entry")
            else Good(NewFile(FileMeta(level.value, n.value, size.value, lo.value, hi.value)), hi.rest)
  }

  function ReadField(tag: nat, input: Bytes): (r: FieldRead)
    ensures r.Good? ==> |r.rest| < |input|
  {
    if tag == COMPARATOR then
      var s := GetLengthPrefixed(input);
      if s.Parsed? then Good(Comparator(s.value), s.rest) else Bad("comparator name")
    else if tag == LOG_NUMBER then ReadNumber(input, (n: nat) => LogNumber(n), "log number")
    else if tag == PREV_LOG_NUMBER then ReadNumber(input, (n: nat) => PrevLogNumber(n), "previous log number")
    else if tag == NEXT_FILE_NUMBER then ReadNumber(input, (n: nat) => NextFile(n), "next file number")
    else if tag == LAST_SEQUENCE then ReadNumber(input, (n: nat) => LastSequence(n), "last sequence number")
    else if tag == COMPACT_POINTER then ReadPointer(input)
    else if tag == DELETED_FILE then ReadDeleted(input)
    else if tag == NEW_FILE then ReadNewFile(input)
    else Bad("unknown tag")
  }

  // DecodeFrom's loop, from an edit as it is so far.
  datatype Decoded = Decoded(edit: Edit, error: Option<string>)

  function Decode(e: Edit, input: Bytes): (r: Decoded)
    decreases |input|
  {
    var tag := GetVarint32(input);
    if tag.Malformed? then Decoded(e, if input == [] then None else Some("invalid tag"))
    else
      match ReadField(tag.value, tag.rest)
      case Bad(msg) => Decoded(e, Some(msg))
      case Good(f, rest) => Decode(Apply(e, f), rest)
  }

  // ------------------------------------------------------------------ a whole edit

  function PointerFields(ps: seq<Pointer>): (fs: seq<Field>)
    ensures |fs| == |ps|
  {
    seq(|ps|, i requires 0 <= i < |ps| => CompactPointer(ps[i]))
  }

  function DeletedFields(ds: seq<FileAt>): (fs: seq<Field>)
    ensures |fs| == |ds|
  {
    seq(|ds|, i requires 0 <= i < |ds| => DeletedFile(ds[i]))
  }

  function NewFileFields(ms: seq<FileMeta>): (fs: seq<Field>)
    ensures |fs| == |ms|
  {
    seq(|ms|, i requires 0 <= i < |ms| => NewFile(ms[i]))
  }

  function ComparatorField(v: Option<Bytes>): (fs: seq<Field>) {
    if v.Some? then [Comparator(v.value)] else []
  }

  function LogField(v: Option<nat>): (fs: seq<Field>) {
    if v.Some? then [LogNumber(v.value)] else []
  }

  function PrevLogField(v: Option<nat>): (fs: seq<Field>) {
    if v.Some? then [PrevLogNumber(v.value)] else []
  }

  function NextFileField(v: Option<nat>): (fs: seq<Field>) {
    if v.Some? then [NextFile(v.value)] else []
  }

  function LastSequenceField(v: Option<nat>): (fs: seq<Field>) {
    if v.Some? then [LastSequence(v.value)] else []
  }

  // The fields of an edit in the order EncodeTo writes them.
  function Scalars(e: Edit): (fs: seq<Field>) {
    ComparatorField(e.comparator) + LogField(e.logNumber) + PrevLogField(e.prevLogNumber)
    + NextFileField(e.nextFile) + LastSequenceField(e.lastSequence)
  }

  function Fields(e: Edit): (fs: seq<Field>) {
    Scalars(e) + PointerFields(e.compactPointers) + DeletedFields(e.deleted) + NewFileFields(e.newFiles)
  }

  function Concatenated(fs: seq<Field>): (b: Bytes) {
    if fs == [] then [] else Concatenated(fs[..|fs| - 1]) + FieldBytes(fs[|fs| - 1])
  }

  function ApplyAll(e: Edit, fs: seq<Field>): (r: Edit) {
    if fs == [] then e else Apply(ApplyAll(e, fs[..|fs| - 1]), fs[|fs| - 1])
  }

  function Encoded(e: Edit): (b: Bytes) {
    Concatenated(Fields(e))
  }

  // ------------------------------------------------------------------ reading one field back

  lemma Tagged(tag: nat, body: Bytes, rest: Bytes)
    requires tag <= PREV_LOG_NUMBER
    ensures GetVarint32((Varint(tag) + body) + rest) == Parsed(tag, body + rest)
  {
    ConcatAssociates(Varint(tag), body, rest);
    Varint32RoundTrip(tag, body + rest);
  }

  lemma LevelRead(level: nat, rest: Bytes)
    requires level < NUM_LEVELS
    ensures GetLevel(Varint(level) + rest) == Parsed(level, rest)
  {
    hide Varint, GetVarint32;
    Varint32RoundTrip(level, rest);
  }

  lemma PointerRead(p: Pointer, rest: Bytes)
    requires p.level < NUM_LEVELS && |p.key| <= MAX_UINT32
    ensures ReadPointer((Varint(p.level) + LengthPrefixed(p.key)) + rest) == Good(CompactPointer(p), rest)
  {
    hide Varint, GetLevel, LengthPrefixed, GetLengthPrefixed;
    var key := LengthPrefixed(p.key);
    ConcatAssociates(Varint(p.level), key, rest);
    LevelRead(p.level, key + rest);
    LengthPrefixedRoundTrip(p.key, rest);
  }

  lemma DeletedRead(d: FileAt, rest: Bytes)
    requires d.level < NUM_LEVELS && d.number <= MAX_UINT64
    ensures ReadDeleted((Varint(d.level) + Varint(d.number)) + rest) == Good(DeletedFile(d), rest)
  {
    hide Varint, GetLevel, GetVarint64;
    ConcatAssociates(Varint(d.level), Varint(d.number), rest);
    LevelRead(d.level, Varint(d.number) + rest);
    Varint64RoundTrip(d.number, rest);
  }

  lemma NewFileRead(m: FileMeta, rest: Bytes, level: Bytes, number: Bytes, size: Bytes, lo: Bytes, hi: Bytes)
    requires Fits(NewFile(m))
    requires level == Varint(m.level) && number == Varint(m.number) && size == Varint(m.size)
    requires lo == LengthPrefixed(m.smallest) && hi == LengthPrefixed(m.largest)
    ensures ReadNewFile((level + (number + (size + (lo + hi)))) + rest) == Good(NewFile(m), rest)
  {
    hide Varint, GetLevel, GetVarint64, LengthPrefixed, GetLengthPrefixed;
    var after3 := hi + rest;
    ConcatAssociates(lo, hi, rest);
    ConcatAssociates(size, lo + hi, rest);
    ConcatAssociates(number, size + (lo + hi), rest);
    ConcatAssociates(level, number + (size + (lo + hi)), rest);
    LengthPrefixedRoundTrip(m.largest, rest);
    LengthPrefixedRoundTrip(m.smallest, after3);
    Varint64RoundTrip(m.size, lo + after3);
    Varint64RoundTrip(m.number, size + (lo + after3));
    LevelRead(m.level, number + (size + (lo + after3)));
  }

  // ------------------------------------------------------------------ reading them all back

  lemma FieldDecodes(e: Edit, f: Field, rest: Bytes)
    requires Fits(f)
    ensures Decode(e, FieldBytes(f) + rest) == Decode(Apply(e, f), rest)
  {
    hide Varint, GetVarint32, GetVarint64, LengthPrefixed, GetLengthPrefixed, ReadPointer, ReadDeleted, ReadNewFile, Apply;
    match f
    case Comparator(name) =>
      Tagged(COMPARATOR, LengthPrefixed(name), rest);
      LengthPrefixedRoundTrip(name, rest);
    case LogNumber(n) =>
      Tagged(LOG_NUMBER, Varint(n), rest);
      Varint64RoundTrip(n, rest);
    case PrevLogNumber(n) =>
      Tagged(PREV_LOG_NUMBER, Varint(n), rest);
      Varint64RoundTrip(n, rest);
    case NextFile(n) =>
      Tagged(NEXT_FILE_NUMBER, Varint(n), rest);
      Varint64RoundTrip(n, rest);
    case LastSequence(n) =>
      Tagged(LAST_SEQUENCE, Varint(n), rest);
      Varint64RoundTrip(n, rest);
    case CompactPointer(p) =>
      Tagged(COMPACT_POINTER, Varint(p.level) + LengthPrefixed(p.key), rest);
      PointerRead(p, rest);
    case DeletedFile(d) =>
      Tagged(DELETED_FILE, Varint(d.level) + Varint(d.number), rest);
      DeletedRead(d, rest);
    case NewFile(m) =>
      var level, number, size := Varint(m.level), Varint(m.number), Varint(m.size);
      var lo, hi := LengthPrefixed(m.smallest), LengthPrefixed(m.largest);
      Tagged(NEW_FILE, level + (number + (size + (lo + hi))), rest);
      NewFileRead(m, rest, level, number, size, lo, hi);
  }

  predicate AllFit(fs: seq<Field>) {
    forall i | 0 <= i < |fs| :: Fits(fs[i])
  }

  lemma {:induction false} FieldsDecode(e: Edit, fs: seq<Field>, rest: Bytes)
    requires AllFit(fs)
    ensures Decode(e, Concatenated(fs) + rest) == Decode(ApplyAll(e, fs), rest)
    decreases |fs|
  {
    hide FieldBytes, Apply, Decode, Fits;
    if fs == [] {
      assert Concatenated(fs) + rest == rest;
    } else {
      var init, f := fs[..|fs| - 1], fs[|fs| - 1];
      ConcatAssociates(Concatenated(init), FieldBytes(f), rest);
      FieldsDecode(e, init, FieldBytes(f) + rest);
      FieldDecodes(ApplyAll(e, init), f, rest);
    }
  }

  lemma {:induction false} ApplyAllConcat(e: Edit, a: seq<Field>, b: seq<Field>)
    ensures ApplyAll(e, a + b) == ApplyAll(ApplyAll(e, a), b)
    decreases |b|
  {
    hide Apply;
    if b == [] {
      assert a + b == a;
    } else {
      var n := |b| - 1;
      assert (a + b)[..|a| + n] == a + b[..n] && (a + b)[|a| + n] == b[n];
      ApplyAllConcat(e, a, b[..n]);
    }
  }

  lemma {:induction false} ApplyPointers(e: Edit, ps: seq<Pointer>)
    ensures ApplyAll(e, PointerFields(ps)) == e.(compactPointers := e.compactPointers + ps)
    decreases |ps|
  {
    if ps == [] {
      assert e.compactPointers + ps == e.compactPointers;
    } else {
      var n := |ps| - 1;
      assert PointerFields(ps)[..n] == PointerFields(ps[..n]);
      ApplyPointers(e, ps[..n]);
      ConcatAssociates(e.compactPointers, ps[..n], [ps[n]]);
      assert ps == ps[..n] + [ps[n]];
    }
  }

  lemma {:induction false} ApplyDeleted(e: Edit, ds: seq<FileAt>)
    requires e.deleted == [] && Ascending(ds)
    ensures ApplyAll(e, DeletedFields(ds)) == e.(deleted := ds)
    decreases |ds|
  {
    if ds != [] {
      var n := |ds| - 1;
      assert DeletedFields(ds)[..n] == DeletedFields(ds[..n]);
      ApplyDeleted(e, ds[..n]);
      InsertedLast(ds[..n], ds[n]);
      assert ds == ds[..n] + [ds[n]];
    }
  }

  lemma {:induction false} ApplyNewFiles(e: Edit, ms: seq<FileMeta>)
    ensures ApplyAll(e, NewFileFields(ms)) == e.(newFiles := e.newFiles + ms)
    decreases |ms|
  {
    if ms == [] {
      assert e.newFiles + ms == e.newFiles;
    } else {
      var n := |ms| - 1;
      assert NewFileFields(ms)[..n] == NewFileFields(ms[..n]);
      ApplyNewFiles(e, ms[..n]);
      ConcatAssociates(e.newFiles, ms[..n], [ms[n]]);
      assert ms == ms[..n] + [ms[n]];
    }
  }

  lemma ApplyOne(e: Edit, f: Field)
    ensures ApplyAll(e, [f]) == Apply(e, f)
  {
    hide Apply;
    assert [f][..0] == [];
  }

  lemma ApplyNone(e: Edit)
    ensures ApplyAll(e, []) == e
  {
  }

  function Over<T>(v: Option<T>, w: Option<T>): (r: Option<T>) {
    if v.Some? then v else w
  }

  lemma ApplyScalars(e: Edit, src: Edit)
    ensures ApplyAll(e, Scalars(src)) ==
            e.(comparator := Over(src.comparator, e.comparator), logNumber := Over(src.logNumber, e.logNumber),
               prevLogNumber := Over(src.prevLogNumber, e.prevLogNumber), nextFile := Over(src.nextFile, e.nextFile),
               lastSequence := Over(src.lastSequence, e.lastSequence))
  {
    hide ApplyAll;
    var c, l, p := ComparatorField(src.comparator), LogField(src.logNumber), PrevLogField(src.prevLogNumber);
    var x, s := NextFileField(src.nextFile), LastSequenceField(src.lastSequence);
    ApplyAllConcat(e, c + l + p + x, s);
    ApplyAllConcat(e, c + l + p, x);
    ApplyAllConcat(e, c + l, p);
    ApplyAllConcat(e, c, l);
    forall e': Edit, f: Field
      ensures ApplyAll(e', [f]) == Apply(e', f)
    {
      ApplyOne(e', f);
    }
    forall e': Edit
      ensures ApplyAll(e', []) == e'
    {
      ApplyNone(e');
    }
  }

  // The edits that can be written: AddFile and DeleteFile ask for these levels.
  predicate Writable(e: Edit) {
    AllFit(Fields(e)) && Ascending(e.deleted)
  }

  // Decoding what EncodeTo wrote succeeds and gives the same edit, except that the compact
  // pointers are added to those the decoding edit already had.
  lemma RoundTrip(before: Edit, e: Edit)
    requires Writable(e)
    ensures Decode(Cleared(before), Encoded(e)) ==
            Decoded(e.(compactPointers := before.compactPointers + e.compactPointers), None)
  {
    hide ApplyAll, Scalars, PointerFields, DeletedFields, NewFileFields, AllFit, Concatenated, Decode;
    var start := Cleared(before);
    var s, p, d, n := Scalars(e), PointerFields(e.compactPointers), DeletedFields(e.deleted), NewFileFields(e.newFiles);
    FieldsDecode(start, Fields(e), []);
    NothingToDecode(ApplyAll(start, Fields(e)));
    assert Encoded(e) + [] == Encoded(e);
    ApplyAllConcat(start, s + p + d, n);
    ApplyAllConcat(start, s + p, d);
    ApplyAllConcat(start, s, p);
    ApplyScalars(start, e);
    ApplyPointers(ApplyAll(start, s), e.compactPointers);
    ApplyDeleted(ApplyAll(start, s + p), e.deleted);
    ApplyNewFiles(ApplyAll(start, s + p + d), e.newFiles);
    assert [] + e.newFiles == e.newFiles;
  }

  lemma NothingToDecode(e: Edit)
    ensures Decode(e, []) == Decoded(e, None)
  {
  }

  // So it is the same edit exactly when the decoding edit had no compact pointers: it is
  // enough that it is freshly constructed, and not enough that it was cleared.
  lemma SameEditIffFresh(before: Edit, e: Edit)
    requires Writable(e)
    ensures Decode(Cleared(before), Encoded(e)) == Decoded(e, None) <==> before.compactPointers == []
  {
    RoundTrip(before, e);
    var ps := before.compactPointers + e.compactPointers;
    assert before.compactPointers == [] ==> ps == e.compactPointers;
    assert before.compactPointers != [] ==> |ps| > |e.compactPointers|;
  }

  ghost function WithFile(e: Edit, m: FileMeta): (r: Edit) {
    e.(newFiles := e.newFiles + [m])
  }

  // A file that is added is written last, and is as writable as the edit was.
  lemma AddedFile(e: Edit, m: FileMeta)
    ensures Encoded(WithFile(e, m)) == Encoded(e) + FieldBytes(NewFile(m))
    ensures Writable(e) && Fits(NewFile(m)) ==> Writable(WithFile(e, m))
  {
    hide PointerFields, DeletedFields, FieldBytes, Fits, Ascending;
    assert Scalars(WithFile(e, m)) == Scalars(e);
    var fs := Fields(WithFile(e, m));
    assert NewFileFields(e.newFiles + [m]) == NewFileFields(e.newFiles) + [NewFile(m)];
    assert fs == Fields(e) + [NewFile(m)];
    assert fs[..|fs| - 1] == Fields(e);
  }

  // Whoever reads the edit gets that file, after those it would have got without it.
  lemma AddedFileIsRead(before: Edit, e: Edit, m: FileMeta)
    requires Writable(e) && Fits(NewFile(m))
    ensures Decode(Cleared(before), Encoded(e) + FieldBytes(NewFile(m))) ==
            Decoded(WithFile(Decode(Cleared(before), Encoded(e)).edit, m), None)
  {
    hide Encoded, Decode, Writable;
    AddedFile(e, m);
    RoundTrip(before, e);
    RoundTrip(before, WithFile(e, m));
  }

  // ------------------------------------------------------------------ the class

  class VersionEdit {
    var e: Edit

    ghost predicate Valid()
      reads this
    {
      Ascending(e.deleted)
    }

    constructor ()
      ensures Valid() && e == EMPTY
    {
      e := EMPTY;
    }

    method Clear()
      modifies this
      ensures Valid() && e == Cleared(old(e))
    {
      e := Edit(None, None, None, None, None, e.compactPointers, [], []);
    }

    method AddFile(level: nat, number: nat, size: nat, smallest: Bytes, largest: Bytes)
      requires Valid()
      modifies this
      ensures Valid() && e == old(e).(newFiles := old(e).newFiles + [FileMeta(level, number, size, smallest, largest)])
      ensures Encoded(e) == Encoded(old(e)) + FieldBytes(NewFile(FileMeta(level, number, size, smallest, largest)))
      ensures Writable(old(e)) && Fits(NewFile(FileMeta(level, number, size, smallest, largest))) ==> Writable(e)
    {
      AddedFile(e, FileMeta(level, number, size, smallest, largest));
      e := e.(newFiles := e.newFiles + [FileMeta(level, number, size, smallest, largest)]);
    }

    method DeleteFile(level: nat, number: nat)
      requires Valid()
      modifies this
      ensures Valid() && e == old(e).(deleted := e.deleted)
      ensures forall y :: y in e.deleted <==> y in old(e).deleted || y == FileAt(level, number)
    {
      InsertedAscends(e.deleted, FileAt(level, number));
      e := e.(deleted := Inserted(e.deleted, FileAt(level, number)));
    }

    method EncodeTo(dst: Bytes) returns (out: Bytes)
      ensures out == dst + Encoded(e)
    {
      hide Concatenated, FieldBytes, PointerFields, DeletedFields, NewFileFields, Scalars;
      var done := Scalars(e);
      out := PutFields(dst, done);
      ghost var ps, ds, ns := PointerFields(e.compactPointers), DeletedFields(e.deleted), NewFileFields(e.newFiles);
      ghost var s := done;
      assert s + ps[..0] == s;
      for i := 0 to |e.compactPointers|
        invariant out == dst + Concatenated(s + ps[..i])
      {
        FieldAt(e, i);
        OneMore(dst, s, ps, i);
        out := out + FieldBytes(CompactPointer(e.compactPointers[i]));
      }
      assert ps[..|ps|] == ps && (s + ps) + ds[..0] == s + ps;
      for i := 0 to |e.deleted|
        invariant out == dst + Concatenated(s + ps + ds[..i])
      {
        FieldAt(e, i);
        OneMore(dst, s + ps, ds, i);
        out := out + FieldBytes(DeletedFile(e.deleted[i]));
      }
      assert ds[..|ds|] == ds && (s + ps + ds) + ns[..0] == s + ps + ds;
      for i := 0 to |e.newFiles|
        invariant out == dst + Concatenated(s + ps + ds + ns[..i])
      {
        FieldAt(e, i);
        OneMore(dst, s + ps + ds, ns, i);
        out := out + FieldBytes(NewFile(e.newFiles[i]));
      }
      assert ns[..|ns|] == ns;
    }

    // Parses src over whatever the edit was.
    method DecodeFrom(src: Bytes) returns (error: Option<string>)
      requires Valid()
      modifies this
      ensures Valid() && Decoded(e, error) == Decode(Cleared(old(e)), src)
    {
      hide ReadField, GetVarint32;
      Clear();
      var input := src;
      while true
        invariant Valid() && Decode(e, input) == Decode(Cleared(old(e)), src)
        decreases |input|
      {
        var tag := GetVarint32(input);
        if tag.Malformed? {
          return if input == [] then None else Some("invalid tag");
        }
        match ReadField(tag.value, tag.rest) {
          case Bad(msg) => return Some(msg);
          case Good(f, rest) =>
            ApplyAscends(e, f);
            e, input := Apply(e, f), rest;
        }
      }
    }
  }

  lemma ApplyAscends(e: Edit, f: Field)
    requires Ascending(e.deleted)
    ensures Ascending(Apply(e, f).deleted)
  {
    hide Ascending;
    if f.DeletedFile? {
      InsertedAscends(e.deleted, f.at);
    }
  }

  lemma FieldAt(e: Edit, i: nat)
    ensures i < |e.compactPointers| ==> PointerFields(e.compactPointers)[i] == CompactPointer(e.compactPointers[i])
    ensures i < |e.deleted| ==> DeletedFields(e.deleted)[i] == DeletedFile(e.deleted[i])
    ensures i < |e.newFiles| ==> NewFileFields(e.newFiles)[i] == NewFile(e.newFiles[i])
  {
  }

  lemma OneMore(dst: Bytes, done: seq<Field>, fs: seq<Field>, i: nat)
    requires i < |fs|
    ensures dst + Concatenated(done + fs[..i + 1]) == (dst + Concatenated(done + fs[..i])) + FieldBytes(fs[i])
  {
    hide FieldBytes;
    var all := done + fs[..i + 1];
    assert all[..|all| - 1] == done + fs[..i] && all[|all| - 1] == fs[i];
    ConcatAssociates(dst, Concatenated(done + fs[..i]), FieldBytes(fs[i]));
  }

  method PutFields(dst: Bytes, fs: seq<Field>) returns (out: Bytes)
    ensures out == dst + Concatenated(fs)
  {
    hide Concatenated, FieldBytes;
    out := dst;
    NoFields(dst);
    assert [] + fs[..0] == [];
    for i := 0 to |fs|
      invariant out == dst + Concatenated([] + fs[..i])
    {
      OneMore(dst, [], fs, i);
      out := out + FieldBytes(fs[i]);
    }
    assert [] + fs[..|fs|] == fs;
  }

  lemma NoFields(dst: Bytes)
    ensures dst + Concatenated([]) == dst
  {
  }
}
