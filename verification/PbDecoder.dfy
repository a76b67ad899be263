// The decoder over streams: the loops of nanopb/pb_decode.c, against what PbDecode says they
// compute.
module PbDecoder {
  import opened Coding
  import opened Lookup
  import opened PbVarint
  import opened PbStreams
  import opened PbMessage
  import opened PbDecode
  import It = PbIterator

  // A method has read what the specification says, and left the stream where it says.
  ghost predicate Reads<T(!new)>(ok: bool, v: T, rest: Bytes, g: Got<T>) {
    ok == g.Got? && (ok ==> v == g.value && rest == g.rest)
  }

  // pb_make_string_substream and pb_close_string_substream: the part is read off the parent.
  method MakeSubstream(stream: IStream) returns (ok: bool, part: Bytes)
    modifies stream
    ensures Reads(ok, part, stream.rest, Substream(old(stream.rest)))
  {
    hide Decode32;
    var p := stream.DecodeVarint32();
    if p.Malformed? {
      return false, [];
    }
    ok, part := stream.Read(p.value);
  }

  method ReadNum(stream: IStream, t: LType) returns (ok: bool, v: Value)
    requires Packable(t)
    modifies stream
    ensures Reads(ok, v, stream.rest, DecodeNum(t, old(stream.rest)))
  {
    hide Decode32, GetVarint64, ToSigned, UnZigZag, FromFixed;
    ok, v := false, Num(0);
    match t {
      case TBool =>
        var p := stream.DecodeVarint32();
        if p.Parsed? {
          ok, v := true, Num(if p.value != 0 then 1 else 0);
        }
      case TInt(size) =>
        var p := stream.DecodeVarint();
        if p.Parsed? {
          var n := if size == 8 then ToSigned(p.value, TWO_63) else ToSigned(p.value % TWO_32, TWO_31);
          ok, v := -Half(size) <= n < Half(size), Num(n);
        }
      case TUInt(size) =>
        var p := stream.DecodeVarint();
        if p.Parsed? {
          ok, v := p.value < 2 * Half(size), Num(p.value);
        }
      case TSInt(size) =>
        var p := stream.DecodeVarint();
        if p.Parsed? {
          var n := UnZigZag(p.value);
          ok, v := -Half(size) <= n < Half(size), Num(n);
        }
      case TFixed32 =>
        var b;
        ok, b := stream.Read(4);
        v := Num(FromFixed(b));
      case TFixed64 =>
        var b;
        ok, b := stream.Read(8);
        v := Num(FromFixed(b));
    }
  }

  method ReadData(stream: IStream, t: LType) returns (ok: bool, v: Value)
    requires t.TBytes? || t.TString? || t.TFixedBytes?
    modifies stream
    ensures Reads(ok, v, stream.rest, DecodeData(t, old(stream.rest)))
  {
    hide Decode32, UpToNul, Zero;
    ok, v := false, Num(0);
    var p := stream.DecodeVarint32();
    if p.Malformed? || (!t.TString? && p.value > PB_SIZE_MAX) {
      return;
    }
    if t.TFixedBytes? {
      if p.value == 0 {
        return true, Zero(t);
      }
      if p.value != t.dataSize {
        return;
      }
    } else if p.value + 1 > t.dataSize {
      return;
    }
    var b;
    ok, b := stream.Read(p.value);
    v := Data(if t.TString? then UpToNul(b) else b);
  }

  // pb_skip_field.
  method Skip(stream: IStream, wireType: nat) returns (ok: bool)
    modifies stream
    ensures Reads(ok, (), stream.rest, SkipField(wireType, old(stream.rest)))
  {
    hide Substream;
    if wireType == WT_VARINT {
      while true
        invariant SkipVarint(stream.rest) == SkipVarint(old(stream.rest))
        decreases stream.rest
      {
        var more, c := stream.ReadByte();
        if !more {
          return false;
        }
        if c < 128 {
          return true;
        }
      }
    } else if wireType == WT_64BIT {
      var skipped;
      ok, skipped := stream.Read(8);
    } else if wireType == WT_STRING {
      var skipped;
      ok, skipped := MakeSubstream(stream);
    } else if wireType == WT_32BIT {
      var skipped;
      ok, skipped := stream.Read(4);
    } else {
      ok := false;
    }
  }

  method ReadPacked(t: LType, b: Bytes, max: nat, items: seq<Value>) returns (ok: bool, r: seq<Value>)
    requires Packable(t)
    ensures var d := DecodePacked(t, b, max, items); ok == d.Some? && (ok ==> r == d.value)
  {
    hide DecodeNum;
    var substream := new IStream(b);
    r := items;
    while substream.rest != [] && |r| < max
      invariant DecodePacked(t, substream.rest, max, r) == DecodePacked(t, b, max, items) && fresh(substream)
      decreases max - |r|
    {
      var v;
      ok, v := ReadNum(substream, t);
      if !ok {
        return;
      }
      r := r + [v];
    }
    ok := substream.rest == [];
  }

  // ------------------------------------------------------------------ descriptors in memory

  function HTypeOf(r: Rule): (h: It.HType) {
    match r
    case Required => It.Required
    case Optional => It.Optional
    case Singular => It.Optional
    case Repeated(_) => It.Repeated
    case FixedCount(_) => It.Repeated
    case OneOf(_) => It.OneOf
  }

  // A field array lists the fields of a message, wherever its struct keeps them, and ends with
  // PB_LAST_FIELD.
  ghost predicate Describes(fi: seq<It.FieldInfo>, fs: seq<Field>) {
    && |fi| == |fs| + 1 && It.IsFieldArray(fi)
    && (forall i | 0 <= i < |fs| :: fi[i].tag == fs[i].tag && fi[i].htype == HTypeOf(fs[i].rule) && !fi[i].extension)
    && fi[|fs|].htype == It.Required && !fi[|fs|].extension
  }

  // A field with tag 0 would end the array.
  predicate TagsNonZero(t: LType)
    decreases t
  {
    t.TMessage? ==> forall i | 0 <= i < |t.fields| :: t.fields[i].tag != 0 && TagsNonZero(t.fields[i].ltype)
  }

  type Arrays = LType -> seq<It.FieldInfo>

  // Any layout of the structs of these messages.
  ghost predicate IsLayout(arrays: Arrays) {
    forall t: LType | t.TMessage? && TagsNonZero(t) :: Describes(arrays(t), t.fields)
  }

  function InfoOf(f: Field): (i: It.FieldInfo) {
    It.FieldInfo(f.tag, HTypeOf(f.rule), It.Static, false, 0, 0, 8, MaxCount(f))
  }

  function PlainArray(t: LType): (fi: seq<It.FieldInfo>) {
    (if t.TMessage? then seq(|t.fields|, i requires 0 <= i < |t.fields| => InfoOf(t.fields[i])) else [])
    + [It.FieldInfo(0, It.Required, It.Static, false, 0, 0, 0, 0)]
  }

  // There are such layouts.
  lemma PlainIsLayout()
    ensures IsLayout(PlainArray)
  {
  }

  // ------------------------------------------------------------------ the iterator's answers

  lemma {:induction false} FirstMatchIsFind(fi: seq<It.FieldInfo>, fs: seq<Field>, tag: nat, from: nat)
    requires Describes(fi, fs) && from <= |fs|
    ensures It.FirstMatch(fi, tag, from, |fs|) == Find(fs, tag, from)
    decreases |fs| - from
  {
    if from < |fs| {
      FirstMatchIsFind(fi, fs, tag, from + 1);
    }
  }

  lemma {:induction false} FindFinds(fs: seq<Field>, tag: nat, from: nat)
    requires from <= |fs|
    ensures Find(fs, tag, from) < |fs| ==> fs[Find(fs, tag, from)].tag == tag
    ensures Find(fs, tag, from) == |fs| ==> forall i | from <= i < |fs| :: fs[i].tag != tag
    decreases |fs| - from
  {
    if from < |fs| {
      FindFinds(fs, tag, from + 1);
    }
  }

  // What pb_field_iter_find does is what the decoding function's search does.
  lemma FoundIsFindFrom(fi: seq<It.FieldInfo>, fs: seq<Field>, tag: nat, at: nat, found: bool, pos: nat)
    requires Describes(fi, fs) && fs != [] && at < |fs|
    requires found <==> exists i | 0 <= i < |fs| :: It.Matches(fi[i], tag)
    requires found ==>
               var k := It.FirstMatch(fi, tag, at, |fs|); pos == if k < |fs| then k else It.FirstMatch(fi, tag, 0, |fs|)
    ensures FindFrom(fs, tag, at) == if found then pos else |fs|
    ensures found ==> pos < |fs|
  {
    hide It.FirstMatch, Find;
    FirstMatchIsFind(fi, fs, tag, at);
    FirstMatchIsFind(fi, fs, tag, 0);
    FindFinds(fs, tag, at);
    FindFinds(fs, tag, 0);
    if found {
      var i :| 0 <= i < |fs| && It.Matches(fi[i], tag);
      assert fs[i].tag == tag;
    } else {
      forall i | 0 <= i < |fs|
        ensures fs[i].tag != tag
      {
        assert !It.Matches(fi[i], tag);
      }
    }
  }

  lemma {:induction false} CountIsIndex(fi: seq<It.FieldInfo>, fs: seq<Field>, k: nat)
    requires Describes(fi, fs) && k <= |fs|
    ensures It.CountRequired(fi, k) == RequiredIndex(fs, k)
  {
    if k > 0 {
      CountIsIndex(fi, fs, k - 1);
    }
  }

  // ------------------------------------------------------------------ fields

  method ReadValue(stream: IStream, f: Field, items: seq<Value>, arrays: Arrays) returns (ok: bool, v: Value)
    requires TagsNonZero(f.ltype) && IsLayout(arrays)
    modifies stream
    ensures Reads(ok, v, stream.rest, DecodeValue(f, old(stream.rest), items))
    decreases f.ltype, 5
  {
    hide DecodeLoop, DecodeData, DecodeNum, Substream, Base, TagsNonZero, IsLayout;
    match f.ltype {
      case TMessage(fs) =>
        v := Num(0);
        var part;
        ok, part := MakeSubstream(stream);
        if ok {
          var substream := new IStream(part);
          var slots;
          ok, slots := DecodeNoInit(substream, f.ltype, Base(f, items), arrays);
          v := Struct(slots);
        }
      case TBytes(_) => ok, v := ReadData(stream, f.ltype);
      case TString(_) => ok, v := ReadData(stream, f.ltype);
      case TFixedBytes(_) => ok, v := ReadData(stream, f.ltype);
      case _ => ok, v := ReadNum(stream, f.ltype);
    }
  }

  // The bookkeeping of a repeated field without a count: it starts over when another one was
  // being received, which must be complete then.
  method BeginFixed(fs: seq<Field>, slots: Slots, fixed: Option<nat>, k: nat, ghost s: Progress)
    returns (ok: bool, slots': Slots, fixed': Option<nat>)
    requires k < |fs| == |slots| && s.slots == slots && s.fixed == fixed && (fixed.Some? ==> fixed.value < |fs|)
    ensures var r := WithFixed(fs, s, k);
            ok == r.Some? && (ok ==> r.value == s.(slots := slots', fixed := fixed'))
    ensures |slots'| == |fs| && (fixed'.Some? ==> fixed'.value < |fs|)
  {
    ok, slots', fixed' := true, slots, fixed;
    if fs[k].rule.FixedCount? && fixed != Some(k) {
      if fixed.Some? && |slots[fixed.value]| != MaxCount(fs[fixed.value]) {
        ok := false;
      } else {
        slots', fixed' := slots[k := []], Some(k);
      }
    }
  }

  // The value of field k goes where its rule says; which_ of a union is one member at a time.
  method StoreValue(fs: seq<Field>, slots: Slots, k: nat, v: Value, ghost p: Progress) returns (r: Slots)
    requires k < |fs| == |slots| && p.slots == slots
    ensures Store(fs, p, k, v) == p.(slots := r) && |r| == |fs|
  {
    hide IsZero;
    match fs[k].rule {
      case Required => r := slots[k := [v]];
      case Optional => r := slots[k := [v]];
      case Singular =>
        if IsZero(fs[k].ltype, v) {
          r := slots[k := []];
        } else {
          r := slots[k := [v]];
        }
      case Repeated(_) => r := slots[k := slots[k] + [v]];
      case FixedCount(_) => r := slots[k := slots[k] + [v]];
      case OneOf(_) =>
        r := slots;
        for i := 0 to |slots|
          invariant |r| == |slots|
          invariant forall j | 0 <= j < i :: r[j] == Chosen(fs, slots, k, v)[j]
          invariant forall j | i <= j < |slots| :: r[j] == slots[j]
        {
          if i == k {
            r := r[i := [v]];
          } else if SameUnion(fs[k], fs[i]) {
            r := r[i := []];
          }
        }
        assert r == Chosen(fs, slots, k, v);
    }
  }

  // decode_static_field.
  method ReadField(stream: IStream, t: LType, k: nat, wireType: nat, slots: Slots, arrays: Arrays, ghost p: Progress)
    returns (ok: bool, slots': Slots)
    requires t.TMessage? && TagsNonZero(t) && IsLayout(arrays) && k < |t.fields| == |slots| && p.slots == slots
    modifies stream
    ensures Reads(ok, p.(slots := slots'), stream.rest, DecodeStatic(t, k, wireType, old(stream.rest), p))
    ensures |slots'| == |t.fields|
    decreases t, 1
  {
    assert TagsNonZero(t.fields[k].ltype);
    hide DecodeValue, DecodePacked, Substream, Store, TagsNonZero, IsLayout;
    var f := t.fields[k];
    slots' := slots;
    if IsArray(f) && wireType == WT_STRING && Packable(f.ltype) {
      var part, items;
      ok, part := MakeSubstream(stream);
      if ok {
        ok, items := ReadPacked(f.ltype, part, MaxCount(f), slots[k]);
        slots' := slots[k := items];
      }
    } else if IsArray(f) && |slots[k]| >= MaxCount(f) {
      ok := false;
    } else {
      var v;
      ok, v := ReadValue(stream, f, slots[k], arrays);
      slots' := StoreValue(t.fields, slots, k, v, p);
    }
  }

  // ------------------------------------------------------------------ a message

  // One field that was found: the fixed-count bookkeeping, its bit in fields_seen, and its
  // value.
  method ReadFound(stream: IStream, t: LType, iter: It.FieldIter, wireType: nat, slots: Slots, fixed: Option<nat>,
                   words: seq<nat>, arrays: Arrays, ghost s: Progress)
    returns (ok: bool, slots': Slots, fixed': Option<nat>, words': seq<nat>, ghost s': Progress)
    requires t.TMessage? && TagsNonZero(t) && IsLayout(arrays)
    requires iter.Valid() && iter.start == arrays(t) && iter.pos < |t.fields|
    requires s.slots == slots && s.fixed == fixed && words == It.Words(s.seen)
    requires |slots| == |t.fields| && (fixed.Some? ==> fixed.value < |t.fields|)
    modifies stream
    ensures Reads(ok, s', stream.rest, DecodeField(t, iter.pos, wireType, old(stream.rest), s))
    ensures |slots'| == |t.fields| && (fixed'.Some? ==> fixed'.value < |t.fields|)
    ensures ok ==> s'.slots == slots' && s'.fixed == fixed' && words' == It.Words(s'.seen) && s'.at == iter.pos
    ensures ok ==> forall r | r in s'.seen :: r in s.seen || r < RequiredIndex(t.fields, |t.fields|)
    decreases t, 2
  {
    var k := iter.pos;
    assert Describes(iter.start, t.fields);
    IndexOf(iter.start, t.fields, iter.dest, k);
    hide DecodeStatic, Store, WithFixed, It.Word, It.Walk, TagsNonZero, IsLayout, RequiredIndex;
    words', s' := words, s;
    ok, slots', fixed' := BeginFixed(t.fields, slots, fixed, k, s);
    if !ok {
      return;
    }
    if iter.start[k].htype.Required? {
      words' := It.MarkSeen(words, iter.required, s.seen);
    }
    s' := Marked(t.fields, s.(slots := slots', fixed := fixed'), k);
    var stored;
    ok, stored := ReadField(stream, t, k, wireType, slots', arrays, s');
    slots', s' := stored, s'.(slots := stored);
  }

  lemma IndexOf(fi: seq<It.FieldInfo>, fs: seq<Field>, dest: int, k: nat)
    requires Describes(fi, fs) && k < |fs|
    ensures It.Walk(fi, dest, k).required == RequiredIndex(fs, k)
    ensures fi[k].htype.Required? <==> fs[k].rule.Required?
    ensures fs[k].rule.Required? ==> RequiredIndex(fs, k) < RequiredIndex(fs, |fs|)
  {
    It.WalkCounts(fi, dest, k);
    CountIsIndex(fi, fs, k);
    IndexGrows(fs, k, |fs|);
  }

  // pb_decode_noinit, with the field iterator and the words of fields_seen.
  method DecodeNoInit(stream: IStream, t: LType, start: Slots, arrays: Arrays) returns (ok: bool, slots: Slots)
    requires t.TMessage? && TagsNonZero(t) && IsLayout(arrays) && |start| == |t.fields|
    modifies stream
    ensures var r := DecodeLoop(t, old(stream.rest), Progress(start, {}, None, 0));
            ok == r.Some? && (ok ==> slots == r.value)
    decreases t, 4
  {
    assert Describes(arrays(t), t.fields);
    NoneSeen();
    hide DecodeField, Decode32, SkipField, DecodeNum, Finished, RequiredIndex, TagsNonZero, IsLayout, Find, FindFrom;
    hide It.Word, It.Words, It.Walk, It.FirstMatch, It.CountRequired;
    var iter := new It.FieldIter(arrays(t), 0);
    var fixed: Option<nat>, words: seq<nat> := None, [0, 0];
    slots := start;
    ghost var s, r := Progress(start, {}, None, 0), DecodeLoop(t, stream.rest, Progress(start, {}, None, 0));
    while stream.rest != []
      invariant iter.Valid() && fresh(iter) && iter.start == arrays(t)
      invariant s.slots == slots && s.fixed == fixed && s.at == iter.pos && words == It.Words(s.seen)
      invariant |slots| == |t.fields| && (fixed.Some? ==> fixed.value < |t.fields|)
      invariant t.fields != [] ==> forall x | x in s.seen :: x < RequiredIndex(t.fields, |t.fields|)
      invariant DecodeLoop(t, stream.rest, s) == r
      decreases |stream.rest|
    {
      var tag := stream.DecodeVarint32();
      if tag.Malformed? {
        return false, start;
      }
      if tag.value == 0 {
        ok := Finish(t, slots, fixed, words, iter, s);
        return;
      }
      ghost var at := iter.pos;
      var found := iter.Find(tag.value / 8);
      if t.fields != [] {
        FoundIsFindFrom(iter.start, t.fields, tag.value / 8, at, found, iter.pos);
      } else {
        EmptyFind(iter.start, tag.value / 8, s.at);
      }
      if !found {
        ok := Skip(stream, tag.value % 8);
      } else if t.fields != [] {
        ok, slots, fixed, words, s := ReadFound(stream, t, iter, tag.value % 8, slots, fixed, words, arrays, s);
      } else {
        // the terminator, taken for a required bool
        words := It.MarkSeen(words, 0, s.seen);
        s := s.(seen := s.seen + {0});
        var ignored;
        ok, ignored := ReadNum(stream, TBool);
      }
      if !ok {
        return false, start;
      }
    }
    ok := Finish(t, slots, fixed, words, iter, s);
  }

  lemma NoneSeen()
    ensures It.Words({}) == [0, 0]
  {
    It.NothingSeen(0, 32);
    It.NothingSeen(32, 32);
  }

  lemma EmptyFind(fi: seq<It.FieldInfo>, tag: nat, at: nat)
    requires Describes(fi, [])
    ensures FindFrom([], tag, at) == 0 && (It.Matches(fi[0], tag) <==> tag == 0)
  {
  }

  // The checks after the loop.
  method Finish(t: LType, slots: Slots, fixed: Option<nat>, words: seq<nat>, iter: It.FieldIter, ghost s: Progress)
    returns (ok: bool)
    requires t.TMessage? && iter.Valid() && Describes(iter.start, t.fields)
    requires s.slots == slots && s.fixed == fixed && words == It.Words(s.seen) && |slots| == |t.fields|
    requires fixed.Some? ==> fixed.value < |t.fields|
    requires t.fields != [] ==> forall x | x in s.seen :: x < RequiredIndex(t.fields, |t.fields|)
    modifies iter
    ensures var r := Finished(t, s); ok == r.Some? && (ok ==> slots == r.value)
  {
    hide RequiredIndex, It.Words, It.Walk;
    CountIsIndex(iter.start, t.fields, |t.fields|);
    NoFields();
    if fixed.Some? && |slots[fixed.value]| != MaxCount(t.fields[fixed.value]) {
      return false;
    }
    var count := iter.RequiredFields();
    ok := It.AllRequiredSeen(words, count, s.seen);
  }

  lemma NoFields()
    ensures RequiredIndex([], 0) == 0
  {
  }

  // pb_decode.
  method DecodeMessage(b: Bytes, t: LType, arrays: Arrays) returns (ok: bool, slots: Slots)
    requires t.TMessage? && TagsNonZero(t) && IsLayout(arrays)
    ensures var r := Decode(t, b); ok == r.Some? && (ok ==> slots == r.value)
  {
    var stream := new IStream(b);
    ok, slots := DecodeNoInit(stream, t, Defaults(t, |t.fields|), arrays);
  }
}
