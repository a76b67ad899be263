// The encoder over streams: nanopb/pb_encode.c.  A stream either counts (the sizing pass) or
// writes to a buffer of max_size bytes; a submessage is encoded twice, first to count it.
module PbEncode {
  import opened Coding
  import opened Lookup
  import opened PbVarint
  import opened PbStreams
  import opened PbMessage

  ghost predicate Fits(sizing: bool, maxSize: nat, n: nat, more: nat) {
    sizing || n + more <= maxSize
  }

  // A stream, as far as encoding goes.
  datatype Tape = Tape(sizing: bool, maxSize: nat, out: Bytes, n: nat)

  ghost function TapeOf(s: OStream): (t: Tape)
    reads s
  {
    Tape(s.sizing, s.maxSize, s.out, s.bytesWritten)
  }

  function With(t: Tape, b: Bytes): (r: Tape) {
    t.(out := if t.sizing then t.out else t.out + b, n := t.n + |b|)
  }

  // What an encoder does whose bytes are r: it succeeds exactly when there are such bytes and
  // they fit, and then the stream has just them appended.
  ghost predicate Encodes(ok: bool, r: Option<Bytes>, t: Tape, t': Tape) {
    && ok == (r.Some? && Fits(t.sizing, t.maxSize, t.n, |r.value|))
    && (ok ==> t' == With(t, r.value))
  }

  lemma Then(a: Bytes, r: Option<Bytes>, ok: bool, t: Tape, t1: Tape, t2: Tape)
    requires Encodes(true, Some(a), t, t1) && Encodes(ok, r, t1, t2)
    ensures Encodes(ok, Join(Some(a), r), t, t2)
  {
    assert r.Some? ==> (t.out + a) + r.value == t.out + (a + r.value);
  }

  lemma FailsFirst(a: Option<Bytes>, r: Option<Bytes>, t: Tape, t1: Tape)
    requires Encodes(false, a, t, t1)
    ensures Encodes(false, Join(a, r), t, t1)
  {
  }

  lemma Nothing(t: Tape)
    ensures Encodes(true, Some([]), t, t) || !Fits(t.sizing, t.maxSize, t.n, 0)
  {
    assert t.out + [] == t.out;
  }

  // ------------------------------------------------------------------ pieces

  method PutVarint(stream: OStream, v: nat) returns (ok: bool)
    requires stream.Valid()
    modifies stream
    ensures stream.Valid() && Encodes(ok, Some(Varint(v)), old(TapeOf(stream)), TapeOf(stream))
  {
    hide Varint;
    ok := stream.EncodeVarint(v);
  }

  method PutBytes(stream: OStream, b: Bytes) returns (ok: bool)
    requires stream.Valid()
    modifies stream
    ensures stream.Valid() && Encodes(ok, Some(b), old(TapeOf(stream)), TapeOf(stream))
  {
    ok := stream.Write(b);
  }

  // pb_encode_string.
  method EncodeString(stream: OStream, b: Bytes) returns (ok: bool)
    requires stream.Valid()
    modifies stream
    ensures stream.Valid() && Encodes(ok, Some(WithLength(b)), old(TapeOf(stream)), TapeOf(stream))
  {
    hide Varint, Encodes, OStream.Valid;
    ghost var t := TapeOf(stream);
    ok := PutVarint(stream, |b|);
    ghost var t1 := TapeOf(stream);
    if !ok {
      FailsFirst(Some(Varint(|b|)), Some(b), t, t1);
      return;
    }
    ok := PutBytes(stream, b);
    Then(Varint(|b|), Some(b), ok, t, t1, TapeOf(stream));
  }

  // The number encoders: one varint, or four or eight bytes.
  method PutNum(stream: OStream, lt: LType, n: int) returns (ok: bool)
    requires stream.Valid()
    modifies stream
    ensures stream.Valid() && Encodes(ok, Some(EncodeNum(lt, n)), old(TapeOf(stream)), TapeOf(stream))
  {
    hide Varint, Encodes, Fixed;
    match lt
    case TInt(_) => ok := PutVarint(stream, n % TWO_64);
    case TUInt(_) => ok := PutVarint(stream, n % TWO_64);
    case TSInt(_) => ok := PutVarint(stream, if -TWO_63 <= n < TWO_63 then ZigZag(n) else 0);
    case TFixed32 => ok := PutBytes(stream, Fixed(4, n % TWO_32));
    case TFixed64 => ok := PutBytes(stream, Fixed(8, n % TWO_64));
    case _ => ok := PutVarint(stream, if n == 0 then 0 else 1);
  }

  // ------------------------------------------------------------------ values and fields

  method PutValue(stream: OStream, lt: LType, v: Value) returns (ok: bool)
    requires stream.Valid()
    modifies stream
    ensures stream.Valid() && Encodes(ok, EncodeValue(lt, v), old(TapeOf(stream)), TapeOf(stream))
    decreases lt, 3
  {
    hide WithLength, EncodeNum, EncodeFrom;
    match lt {
      case TMessage(fs) =>
        if v.Struct? && |v.slots| == |fs| {
          ok := EncodeSubmessage(stream, lt, v.slots);
        } else {
          ok := false;
        }
      case TBytes(size) =>
        if v.Data? && |v.b| + 1 <= size {
          ok := EncodeString(stream, v.b);
        } else {
          ok := false;
        }
      case TString(size) =>
        if v.Data? && |v.b| <= size {
          ok := EncodeString(stream, v.b);
        } else {
          ok := false;
        }
      case TFixedBytes(n) =>
        if v.Data? && |v.b| == n {
          ok := EncodeString(stream, v.b);
        } else {
          ok := false;
        }
      case _ =>
        if v.Num? {
          ok := PutNum(stream, lt, v.n);
        } else {
          ok := false;
        }
    }
  }

  // pb_encode_submessage: the two passes.
  method EncodeSubmessage(stream: OStream, t: LType, m: Slots) returns (ok: bool)
    requires stream.Valid() && t.TMessage? && |m| == |t.fields|
    modifies stream
    ensures stream.Valid()
    ensures var r := EncodeFrom(t, m, 0);
            Encodes(ok, if r.Some? then Some(WithLength(r.value)) else None, old(TapeOf(stream)), TapeOf(stream))
    decreases t, 2
  {
    hide EncodeFrom;
    var r := EncodeFrom(t, m, 0);
    ghost var t0 := TapeOf(stream);
    // The counting pass
    var substream := new OStream(true, 0);
    ok := EncodeMessage(substream, t, m);
    if !ok {
      return;
    }
    var size := substream.bytesWritten;
    ok := PutVarint(stream, size);
    ghost var t1 := TapeOf(stream);
    LengthThen(r.value, t0);
    if !ok {
      return;
    }
    if stream.sizing {
      stream.Count(size);
      return;
    }
    if stream.bytesWritten + size > stream.maxSize {
      return false;
    }
    substream := new OStream(false, size);
    ok := EncodeMessage(substream, t, m);
    stream.bytesWritten := stream.bytesWritten + substream.bytesWritten;
    stream.out := stream.out + substream.out;
    assert ok && substream.bytesWritten == size;
    if substream.bytesWritten != size {
      ok := false;  // cannot happen
    }
  }

  lemma LengthThen(b: Bytes, t: Tape)
    ensures |WithLength(b)| == |Varint(|b|)| + |b|
    ensures With(With(t, Varint(|b|)), b) == With(t, WithLength(b))
  {
    assert (t.out + Varint(|b|)) + b == t.out + (Varint(|b|) + b);
  }

  // pb_encode_tag_for_field and the field encoder.
  method PutTagged(stream: OStream, f: Field, v: Value) returns (ok: bool)
    requires stream.Valid()
    modifies stream
    ensures stream.Valid()
    ensures var r := EncodeValue(f.ltype, v);
            Encodes(ok, Join(Some(TagBytes(f, WireType(f.ltype))), r), old(TapeOf(stream)), TapeOf(stream))
    decreases f.ltype, 4
  {
    hide Varint, Encodes, EncodeValue, Join, OStream.Valid;
    ghost var t := TapeOf(stream);
    ok := PutVarint(stream, f.tag * 8 + WireType(f.ltype));
    ghost var t1 := TapeOf(stream);
    if !ok {
      FailsFirst(Some(TagBytes(f, WireType(f.ltype))), EncodeValue(f.ltype, v), t, t1);
      return;
    }
    ok := PutValue(stream, f.ltype, v);
    Then(TagBytes(f, WireType(f.ltype)), EncodeValue(f.ltype, v), ok, t, t1, TapeOf(stream));
  }

  // pb_encode.
  method EncodeMessage(stream: OStream, t: LType, m: Slots) returns (ok: bool)
    requires stream.Valid() && t.TMessage? && |m| == |t.fields|
    modifies stream
    ensures stream.Valid() && Encodes(ok, EncodeFrom(t, m, 0), old(TapeOf(stream)), TapeOf(stream))
    decreases t, 1
  {
    hide Encodes, Join, OStream.Valid, EncodeField;
    ghost var t0, done: Bytes := TapeOf(stream), [];
    StartsEmpty(stream);
    JoinNone(EncodeFrom(t, m, 0));
    for k := 0 to |m|
      invariant stream.Valid() && Encodes(true, Some(done), t0, TapeOf(stream))
      invariant EncodeFrom(t, m, 0) == Join(Some(done), EncodeFrom(t, m, k))
    {
      ghost var t1, r := TapeOf(stream), EncodeField(t.fields[k], m[k]);
      ok := PutField(stream, t.fields[k], m[k]);
      Then(done, r, ok, t0, t1, TapeOf(stream));
      JoinThree(done, r, EncodeFrom(t, m, k + 1));
      if !ok {
        FailsFirst(Join(Some(done), r), EncodeFrom(t, m, k + 1), t0, TapeOf(stream));
        return;
      }
      done := Succeeded(Join(Some(done), r), t0, TapeOf(stream));
    }
    JoinEnd(done);
    ok := true;
  }

  lemma StartsEmpty(stream: OStream)
    requires stream.Valid()
    ensures Encodes(true, Some([]), TapeOf(stream), TapeOf(stream))
  {
    Nothing(TapeOf(stream));
  }

  lemma JoinNone(r: Option<Bytes>)
    ensures r == Join(Some([]), r)
  {
    assert r.Some? ==> [] + r.value == r.value;
  }

  lemma JoinEnd(b: Bytes)
    ensures Join(Some(b), Some([])) == Some(b)
  {
    assert b + [] == b;
  }

  lemma JoinThree(a: Bytes, b: Option<Bytes>, c: Option<Bytes>)
    ensures Join(Some(a), Join(b, c)) == Join(Join(Some(a), b), c)
  {
    assert b.Some? && c.Some? ==> a + (b.value + c.value) == (a + b.value) + c.value;
  }

  lemma Succeeded(r: Option<Bytes>, t: Tape, t': Tape) returns (b: Bytes)
    requires Encodes(true, r, t, t')
    ensures r == Some(b) && Encodes(true, Some(b), t, t')
  {
    b := r.value;
  }

  // encode_basic_field: required, optional, singular and union fields hold a value or not;
  // arrays are left to encode_array.
  method PutField(stream: OStream, f: Field, items: seq<Value>) returns (ok: bool)
    requires stream.Valid()
    modifies stream
    ensures stream.Valid() && Encodes(ok, EncodeField(f, items), old(TapeOf(stream)), TapeOf(stream))
    decreases f.ltype, 6
  {
    if |items| > MaxCount(f) {
      return false;
    }
    if IsArray(f) && Packable(f.ltype) {
      if items == [] {
        StartsEmpty(stream);
        return true;
      }
      ok := PutPacked(stream, f, items);
    } else {
      ok := PutEach(stream, f, items);
    }
  }

  // The unpacked branch of encode_array.
  method PutEach(stream: OStream, f: Field, items: seq<Value>) returns (ok: bool)
    requires stream.Valid()
    modifies stream
    ensures stream.Valid() && Encodes(ok, EncodeTagged(f, items, 0), old(TapeOf(stream)), TapeOf(stream))
    decreases f.ltype, 5
  {
    hide Encodes, Join, OStream.Valid, EncodeValue, TagBytes;
    ghost var t0, done: Bytes := TapeOf(stream), [];
    StartsEmpty(stream);
    JoinNone(EncodeTagged(f, items, 0));
    for i := 0 to |items|
      invariant stream.Valid() && Encodes(true, Some(done), t0, TapeOf(stream))
      invariant EncodeTagged(f, items, 0) == Join(Some(done), EncodeTagged(f, items, i))
    {
      ghost var t1, r := TapeOf(stream), Join(Some(TagBytes(f, WireType(f.ltype))), EncodeValue(f.ltype, items[i]));
      TaggedStep(f, items, i);
      ok := PutTagged(stream, f, items[i]);
      Then(done, r, ok, t0, t1, TapeOf(stream));
      JoinThree(done, r, EncodeTagged(f, items, i + 1));
      if !ok {
        FailsFirst(Join(Some(done), r), EncodeTagged(f, items, i + 1), t0, TapeOf(stream));
        return;
      }
      done := Succeeded(Join(Some(done), r), t0, TapeOf(stream));
    }
    JoinEnd(done);
    ok := true;
  }

  lemma TaggedStep(f: Field, items: seq<Value>, i: nat)
    requires i < |items|
    ensures EncodeTagged(f, items, i) ==
            Join(Join(Some(TagBytes(f, WireType(f.ltype))), EncodeValue(f.ltype, items[i])), EncodeTagged(f, items, i + 1))
  {
  }

  // The values of a packed array, one after the other.
  method PutNums(stream: OStream, lt: LType, items: seq<Value>) returns (ok: bool)
    requires stream.Valid()
    modifies stream
    ensures stream.Valid() && Encodes(ok, Some(EncodePacked(lt, items, 0)), old(TapeOf(stream)), TapeOf(stream))
  {
    hide Encodes, Join, OStream.Valid, EncodeNum, EncodePacked;
    ghost var t0, done: Bytes, all := TapeOf(stream), [], Some(EncodePacked(lt, items, 0));
    StartsEmpty(stream);
    JoinNone(all);
    for i := 0 to |items|
      invariant stream.Valid() && Encodes(true, Some(done), t0, TapeOf(stream))
      invariant all == Join(Some(done), Some(EncodePacked(lt, items, i)))
    {
      ghost var t1, r := TapeOf(stream), Some(EncodeNum(lt, NumOf(items[i])));
      PackedStep(lt, items, i);
      ok := PutNum(stream, lt, NumOf(items[i]));
      Then(done, r, ok, t0, t1, TapeOf(stream));
      JoinThree(done, r, Some(EncodePacked(lt, items, i + 1)));
      if !ok {
        FailsFirst(Join(Some(done), r), Some(EncodePacked(lt, items, i + 1)), t0, TapeOf(stream));
        return;
      }
      done := Succeeded(Join(Some(done), r), t0, TapeOf(stream));
    }
    PackedEnd(lt, items);
    JoinEnd(done);
    ok := true;
  }

  lemma PackedStep(lt: LType, items: seq<Value>, i: nat)
    requires i < |items|
    ensures Some(EncodePacked(lt, items, i)) ==
            Join(Some(EncodeNum(lt, NumOf(items[i]))), Some(EncodePacked(lt, items, i + 1)))
  {
  }

  lemma PackedEnd(lt: LType, items: seq<Value>)
    ensures EncodePacked(lt, items, |items|) == []
  {
  }

  // The sizes that encode_array knows without encoding.
  lemma {:induction false} FixedSizes(lt: LType, items: seq<Value>, i: nat)
    requires i <= |items|
    ensures lt.TFixed32? ==> |EncodePacked(lt, items, i)| == 4 * (|items| - i)
    ensures lt.TFixed64? ==> |EncodePacked(lt, items, i)| == 8 * (|items| - i)
    decreases |items| - i
  {
    if i < |items| {
      FixedSizes(lt, items, i + 1);
    }
  }

  // The packed branch of encode_array.
  method PutPacked(stream: OStream, f: Field, items: seq<Value>) returns (ok: bool)
    requires stream.Valid()
    modifies stream
    ensures stream.Valid()
    ensures Encodes(ok, Some(TagBytes(f, WT_STRING) + WithLength(EncodePacked(f.ltype, items, 0))),
                    old(TapeOf(stream)), TapeOf(stream))
  {
    hide EncodePacked, Varint;
    ghost var packed, t0 := EncodePacked(f.ltype, items, 0), TapeOf(stream);
    PackedThen(TagBytes(f, WT_STRING), packed, t0);
    ok := PutVarint(stream, f.tag * 8 + WT_STRING);
    if !ok {
      return;
    }
    // Known for fixed-width values, counted for the others
    FixedSizes(f.ltype, items, 0);
    var size := 0;
    if f.ltype.TFixed32? {
      size := 4 * |items|;
    } else if f.ltype.TFixed64? {
      size := 8 * |items|;
    } else {
      var sizestream := new OStream(true, 0);
      ok := PutNums(sizestream, f.ltype, items);
      size := sizestream.bytesWritten;
    }
    assert ok && size == |packed|;
    ok := PutVarint(stream, size);
    if !ok {
      return;
    }
    if stream.sizing {
      stream.Count(size);
      return;
    }
    ok := PutNums(stream, f.ltype, items);
  }

  lemma PackedThen(tag: Bytes, b: Bytes, t: Tape)
    ensures |WithLength(b)| == |Varint(|b|)| + |b|
    ensures With(With(With(t, tag), Varint(|b|)), b) == With(t, tag + WithLength(b))
  {
    LengthThen(b, With(t, tag));
    assert (t.out + tag) + WithLength(b) == t.out + (tag + WithLength(b));
  }

  // ------------------------------------------------------------------ the two passes agree

  // pb_get_encoded_size.
  method GetEncodedSize(t: LType, m: Slots) returns (ok: bool, size: nat)
    requires t.TMessage? && |m| == |t.fields|
    ensures ok <==> EncodeFrom(t, m, 0).Some?
    ensures ok ==> size == |EncodeFrom(t, m, 0).value|
  {
    var stream := new OStream(true, 0);
    ok := EncodeMessage(stream, t, m);
    size := stream.bytesWritten;
  }

  // If the sizing pass reports n bytes, then encoding to a buffer succeeds exactly when the
  // buffer has n bytes, and then writes exactly n.
  method SizeThenWrite(t: LType, m: Slots, maxSize: nat) returns (sized: bool, n: nat, ok: bool, out: Bytes)
    requires t.TMessage? && |m| == |t.fields|
    ensures sized ==> (ok <==> n <= maxSize) && (ok ==> |out| == n && Some(out) == EncodeFrom(t, m, 0))
    ensures !sized ==> !ok
  {
    sized, n := GetEncodedSize(t, m);
    var stream := new OStream(false, maxSize);
    ok := EncodeMessage(stream, t, m);
    out := stream.out;
    assert EncodeFrom(t, m, 0).Some? ==> [] + EncodeFrom(t, m, 0).value == EncodeFrom(t, m, 0).value;
  }
}
