// The Protocol Buffers wire format itself, in numbers and without nanopb's descriptors: what
// any reader makes of bytes (Encoding guide, sections "Base 128 Varints", "Message Structure",
// "More Integer Types", "Length-Delimited Records" and "Packed Repeated Fields"), and that
// this is how nanopb/pb_encode.c writes.
module PbWire {
  import opened Coding
  import opened Lookup
  import opened Numerals
  import opened PbVarint
  import opened PbMessage
  import opened PbRoundTrip

  // ------------------------------------------------------------------ the format

  datatype Payload = Number(n: nat) | Eight(n: nat) | Delimited(b: Bytes) | Four(n: nat)
  datatype Record = Record(number: nat, payload: Payload)

  // What follows a tag with this wire type.
  function ReadPayload(wireType: nat, b: Bytes): (p: Parsed<Payload>)
    ensures p.Parsed? ==> |p.rest| < |b|
  {
    if wireType == 0 then
      var n := ReadVarint(b);
      if n.Parsed? then Parsed(Number(n.value), n.rest) else Malformed
    else if wireType == 1 then
      if |b| < 8 then Malformed else Parsed(Eight(EightBytes(b)), b[8..])
    else if wireType == 2 then
      var s := ReadSlice(b);
      if s.Parsed? then Parsed(Delimited(s.value), s.rest) else Malformed
    else if wireType == 5 then
      if |b| < 4 then Malformed else Parsed(Four(FourBytes(b)), b[4..])
    else Malformed
  }

  // The low three bits of a tag are the wire type.
  function ReadRecord(b: Bytes): (p: Parsed<Record>)
    ensures p.Parsed? ==> |p.rest| < |b|
  {
    var tag := ReadVarint(b);
    if tag.Malformed? then Malformed
    else
      var payload := ReadPayload(tag.value % 8, tag.rest);
      if payload.Parsed? then Parsed(Record(tag.value / 8, payload.value), payload.rest) else Malformed
  }

  function ReadRecords(b: Bytes): (rs: Option<seq<Record>>)
    decreases |b|
  {
    if b == [] then Some([])
    else
      var r := ReadRecord(b);
      if r.Parsed? then Prepended([r.value], ReadRecords(r.rest)) else None
  }

  // The contents of a packed array.
  function ReadPayloads(wireType: nat, b: Bytes): (ps: Option<seq<Payload>>)
    decreases |b|
  {
    if b == [] then Some([])
    else
      var p := ReadPayload(wireType, b);
      if p.Parsed? then Prepended([p.value], ReadPayloads(wireType, p.rest)) else None
  }

  // ------------------------------------------------------------------ what a message stands for

  // A negative int32 or int64 is its 64-bit two's complement; a negative sint is an odd number.
  function PayloadOf(t: LType, v: Value): (p: Payload)
    requires Holds(t, v) && EncodeValue(t, v).Some?
  {
    match t
    case TBool => Number(v.n)
    case TInt(_) => Number(if v.n < 0 then 0x1_0000_0000_0000_0000 + v.n else v.n)
    case TUInt(_) => Number(v.n)
    case TSInt(_) => Number(if v.n < 0 then -2 * v.n - 1 else 2 * v.n)
    case TFixed32 => Four(v.n)
    case TFixed64 => Eight(v.n)
    case TMessage(_) => Delimited(EncodeFrom(t, v.slots, 0).value)
    case _ => Delimited(v.b)
  }

  // The wire type of the elements of a packed array.
  function PackedType(t: LType): (w: nat) {
    if t.TFixed32? then 5 else if t.TFixed64? then 1 else 0
  }

  ghost predicate AllHeld(t: LType, items: seq<Value>) {
    forall i | 0 <= i < |items| :: Holds(t, items[i]) && EncodeValue(t, items[i]).Some?
  }

  ghost function PayloadsOf(t: LType, items: seq<Value>, i: nat): (ps: seq<Payload>)
    requires AllHeld(t, items) && i <= |items|
    decreases |items| - i
  {
    if i == |items| then [] else [PayloadOf(t, items[i])] + PayloadsOf(t, items, i + 1)
  }

  // A record for each value from the i-th on.
  ghost function OneByOne(f: Field, items: seq<Value>, i: nat): (rs: seq<Record>)
    requires AllHeld(f.ltype, items) && i <= |items|
    decreases |items| - i
  {
    if i == |items| then [] else [Record(f.tag, PayloadOf(f.ltype, items[i]))] + OneByOne(f, items, i + 1)
  }

  predicate IsNumber(t: LType) {
    !t.TBytes? && !t.TString? && !t.TFixedBytes? && !t.TMessage?
  }

  // The records of a field: an array of numbers is packed into one.
  ghost function FieldRecords(f: Field, items: seq<Value>): (rs: seq<Record>)
    requires AllHeld(f.ltype, items)
  {
    if (f.rule.Repeated? || f.rule.FixedCount?) && IsNumber(f.ltype) then
      if items == [] then [] else [Record(f.tag, Delimited(EncodePacked(f.ltype, items, 0)))]
    else OneByOne(f, items, 0)
  }

  ghost predicate SlotsHeld(t: LType, m: Slots)
    requires t.TMessage? && |m| == |t.fields|
  {
    forall k | 0 <= k < |m| :: AllHeld(t.fields[k].ltype, m[k])
  }

  // The records of a message from field k on, in the order of the descriptor.
  ghost function MessageRecords(t: LType, m: Slots, k: nat): (rs: seq<Record>)
    requires t.TMessage? && |m| == |t.fields| && k <= |m| && SlotsHeld(t, m)
    decreases |m| - k
  {
    if k == |m| then [] else FieldRecords(t.fields[k], m[k]) + MessageRecords(t, m, k + 1)
  }

  // ------------------------------------------------------------------ numbers

  lemma NumRead(t: LType, v: Value, rest: Bytes)
    requires WellFormed(t) && Packable(t) && Holds(t, v)
    ensures v.Num? && ReadPayload(PackedType(t), EncodeNum(t, v.n) + rest) == Parsed(PayloadOf(t, v), rest)
  {
    hide Varint, ReadVarint, Fixed, FourBytes, EightBytes;
    match t
    case TBool => VarintRead(v.n, rest);
    case TInt(_) => VarintRead(v.n % TWO_64, rest);
    case TUInt(_) => VarintRead(v.n % TWO_64, rest);
    case TSInt(_) => VarintRead(ZigZag(v.n), rest);
    case TFixed32 => FourBytesOf(v.n, Fixed(4, v.n), rest);
    case TFixed64 => EightBytesOf(v.n, Fixed(8, v.n), rest);
  }

  // ------------------------------------------------------------------ values

  lemma DelimitedRead(b: Bytes, rest: Bytes)
    ensures ReadPayload(2, WithLength(b) + rest) == Parsed(Delimited(b), rest)
  {
    hide Varint, ReadVarint;
    ConcatAssociates(Varint(|b|), b, rest);
    VarintRead(|b|, b + rest);
    assert (b + rest)[..|b|] == b && (b + rest)[|b|..] == rest;
  }

  // A value is what the wire type in its tag says: 0, one varint; 1, eight bytes; 2, a length
  // and that many bytes; 5, four bytes.
  lemma ValueIsAsItsTagSays(f: Field, v: Value, rest: Bytes)
    requires WellFormed(f.ltype) && Holds(f.ltype, v) && EncodeValue(f.ltype, v).Some?
    ensures ReadRecord(TagBytes(f, WireType(f.ltype)) + EncodeValue(f.ltype, v).value + rest)
            == Parsed(Record(f.tag, PayloadOf(f.ltype, v)), rest)
  {
    hide Varint, ReadVarint, WithLength, ReadPayload, EncodeNum, EncodeFrom, Holds, WellFormed;
    var enc := EncodeValue(f.ltype, v).value;
    TagRead(f, WireType(f.ltype), enc, rest);
    if Packable(f.ltype) {
      NumRead(f.ltype, v, rest);
    } else if f.ltype.TMessage? {
      DelimitedRead(EncodeFrom(f.ltype, v.slots, 0).value, rest);
    } else {
      DelimitedRead(v.b, rest);
    }
  }

  lemma TagRead(f: Field, wireType: nat, enc: Bytes, rest: Bytes)
    requires wireType < 8
    ensures ReadRecord(TagBytes(f, wireType) + enc + rest) ==
            var p := ReadPayload(wireType, enc + rest);
            if p.Parsed? then Parsed(Record(f.tag, p.value), p.rest) else Malformed
  {
    hide Varint, ReadVarint, ReadPayload;
    ConcatAssociates(TagBytes(f, wireType), enc, rest);
    VarintRead(f.tag * 8 + wireType, enc + rest);
  }

  // ------------------------------------------------------------------ fields

  lemma RecordFirst(a: Bytes, rest: Bytes, r: Record)
    requires ReadRecord(a + rest) == Parsed(r, rest)
    ensures ReadRecords(a + rest) == Prepended([r], ReadRecords(rest))
  {
    assert |rest| < |a + rest|;
  }

  lemma {:induction false} TaggedRead(f: Field, items: seq<Value>, i: nat, rest: Bytes)
    requires WellFormed(f.ltype) && AllHeld(f.ltype, items) && i <= |items|
    ensures var b := EncodeTagged(f, items, i);
            b.Some? && ReadRecords(b.value + rest) == Prepended(OneByOne(f, items, i), ReadRecords(rest))
    decreases |items| - i
  {
    hide Holds, WellFormed, EncodeValue, PayloadOf, ReadRecord, ReadRecords, TagBytes, WireType, Prepended;
    if i < |items| {
      TaggedRead(f, items, i + 1, rest);
      var one := TagBytes(f, WireType(f.ltype)) + EncodeValue(f.ltype, items[i]).value;
      var more := EncodeTagged(f, items, i + 1).value;
      ConcatAssociates(one, more, rest);
      ValueIsAsItsTagSays(f, items[i], more + rest);
      RecordFirst(one, more + rest, Record(f.tag, PayloadOf(f.ltype, items[i])));
      PrependTwice([Record(f.tag, PayloadOf(f.ltype, items[i]))], OneByOne(f, items, i + 1), ReadRecords(rest));
    } else {
      NothingFirst(rest);
    }
  }

  lemma NothingFirst(rest: Bytes)
    ensures [] + rest == rest && Prepended([], ReadRecords(rest)) == ReadRecords(rest)
  {
    hide ReadRecords;
    assert ReadRecords(rest).Some? ==> [] + ReadRecords(rest).value == ReadRecords(rest).value;
  }

  lemma FieldRead(f: Field, items: seq<Value>, rest: Bytes)
    requires WellFormed(f.ltype) && AllHeld(f.ltype, items) && EncodeField(f, items).Some?
    ensures ReadRecords(EncodeField(f, items).value + rest) == Prepended(FieldRecords(f, items), ReadRecords(rest))
  {
    hide Holds, WellFormed, EncodeTagged, EncodePacked, ReadRecord, ReadRecords, TagBytes, OneByOne, AllHeld, WithLength, Prepended;
    if IsArray(f) && Packable(f.ltype) {
      if items == [] {
        NothingFirst(rest);
      } else {
        var b := EncodePacked(f.ltype, items, 0);
        TagRead(f, 2, WithLength(b), rest);
        DelimitedRead(b, rest);
        RecordFirst(TagBytes(f, 2) + WithLength(b), rest, Record(f.tag, Delimited(b)));
      }
    } else {
      TaggedRead(f, items, 0, rest);
    }
  }

  // A packed array holds its numbers one after the other, each as it would be without a tag.
  lemma {:induction false} PackedHoldsItsNumbers(t: LType, items: seq<Value>, i: nat)
    requires WellFormed(t) && Packable(t) && AllHeld(t, items) && i <= |items|
    ensures ReadPayloads(PackedType(t), EncodePacked(t, items, i)) == Some(PayloadsOf(t, items, i))
    decreases |items| - i
  {
    hide Holds, WellFormed, EncodeValue, EncodeNum, PayloadOf, ReadPayload, PackedType;
    if i < |items| {
      PackedHoldsItsNumbers(t, items, i + 1);
      NumRead(t, items[i], EncodePacked(t, items, i + 1));
    }
  }

  // ------------------------------------------------------------------ a message

  lemma {:induction false} MessageRead(t: LType, m: Slots, k: nat)
    requires t.TMessage? && WellFormed(t) && |m| == |t.fields| && k <= |m| && SlotsHeld(t, m) && EncodeFrom(t, m, k).Some?
    ensures ReadRecords(EncodeFrom(t, m, k).value) == Some(MessageRecords(t, m, k))
    decreases |m| - k
  {
    hide EncodeField, AllHeld, FieldRecords, ReadRecord;
    if k < |m| {
      hide ReadRecords;
      MessageRead(t, m, k + 1);
      FieldRead(t.fields[k], m[k], EncodeFrom(t, m, k + 1).value);
    }
  }

  lemma HeldSlots(t: LType, m: Slots)
    requires t.TMessage? && WellFormed(t) && Holds(t, Struct(m)) && |m| == |t.fields|
    ensures SlotsHeld(t, m)
  {
    hide EncodeValue;
    forall k, i | 0 <= k < |m| && 0 <= i < |m[k]|
      ensures Holds(t.fields[k].ltype, m[k][i]) && EncodeValue(t.fields[k].ltype, m[k][i]).Some?
    {
      assert HoldsItems(t.fields[k], m[k]) && WellFormed(t.fields[k].ltype);
      ValueEncodes(t.fields[k].ltype, m[k][i]);
    }
  }

  // Any reader of the format finds in what pb_encode writes exactly the records of the message:
  // every value behind its own field number, with the wire type and the number that the type of
  // the field asks for, in the order of the descriptor, and nothing else.  A submessage is a
  // record of which the same holds.
  lemma EncodingIsWire(t: LType, m: Slots)
    requires t.TMessage? && WellFormed(t) && Holds(t, Struct(m)) && |m| == |t.fields|
    ensures SlotsHeld(t, m) && EncodeFrom(t, m, 0).Some?
    ensures ReadRecords(EncodeFrom(t, m, 0).value) == Some(MessageRecords(t, m, 0))
  {
    HeldSlots(t, m);
    MessageEncodes(t, m, 0);
    hide Holds, WellFormed, EncodeFrom, SlotsHeld, ReadRecords;
    MessageRead(t, m, 0);
  }
}
