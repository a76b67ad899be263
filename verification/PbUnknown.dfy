// Fields the decoder does not know: nanopb/pb_decode.c skips them, so that a message written
// by a newer descriptor can still be read (Protocol Buffers Encoding guide, section "Message
// Structure").
module PbUnknown {
  import opened Coding
  import opened Lookup
  import opened Numerals
  import opened PbVarint
  import opened PbMessage
  import opened PbDecode
  import opened PbRoundTrip
  import opened PbWire
  import Safety = PbSafety

  // ------------------------------------------------------------------ any record

  lemma {:induction false} SkipsVarint(b: Bytes)
    ensures SkipVarint(b).Got? <==> ReadVarint(b).Parsed?
    ensures SkipVarint(b).Got? ==> SkipVarint(b).rest == ReadVarint(b).rest
  {
    if b != [] && b[0] >= 128 {
      SkipsVarint(b[1..]);
    }
  }

  // Skipping consumes what the wire format says belongs to the record, on any bytes whatever,
  // as long as the length of a delimited one is read right.
  lemma SkipIsWire(wireType: nat, b: Bytes)
    requires wireType == 2 ==> Decode32(b) == ReadVarint(b)
    ensures SkipField(wireType, b).Got? <==> ReadPayload(wireType, b).Parsed?
    ensures SkipField(wireType, b).Got? ==> SkipField(wireType, b).rest == ReadPayload(wireType, b).rest
  {
    SkipsVarint(b);
    hide SkipVarint, ReadVarint, Decode32, FourBytes, EightBytes;
  }

  // Every tag and every length below 2^32 is read right if it takes no more than five bytes, as
  // it does when it is written without leading zeros.
  lemma ShortIsRead(b: Bytes)
    requires Groups(b, 5).Parsed? && Groups(b, 5).value <= MAX_UINT32
    ensures Decode32(b) == ReadVarint(b)
  {
    ShortIsIntended(b);
    GroupsAreRead(b, 5);
  }

  ghost predicate Lacks(fs: seq<Field>, tag: nat) {
    forall i | 0 <= i < |fs| :: fs[i].tag != tag
  }

  // One record with a field number that the descriptor lacks: whatever is before and after it,
  // decoding goes on behind it as if it were not there.
  lemma UnknownRecordIsSkipped(t: LType, b: Bytes, s: Progress)
    requires t.TMessage? && |s.slots| == |t.fields| && ReadRecord(b).Parsed?
    requires var r := ReadRecord(b).value; r.number > 0 && Lacks(t.fields, r.number)
    requires Decode32(b) == ReadVarint(b)
    requires ReadRecord(b).value.payload.Delimited? ==> Decode32(ReadVarint(b).rest) == ReadVarint(ReadVarint(b).rest)
    ensures DecodeLoop(t, b, s) == DecodeLoop(t, ReadRecord(b).rest, s)
  {
    var tag := Decode32(b);
    FindsNone(t.fields, tag.value / 8, 0);
    if s.at <= |t.fields| {
      FindsNone(t.fields, tag.value / 8, s.at);
    }
    hide Decode32, ReadVarint, ReadSlice, Find, DecodeField, DecodeNum, FourBytes, EightBytes, SkipField;
    SkipIsWire(tag.value % 8, tag.rest);
  }

  // ------------------------------------------------------------------ what nanopb itself writes

  // The length in front of the value, if it has one, is below 2^32.
  predicate LengthFits(t: LType, v: Value)
  {
    t.TMessage? && EncodeValue(t, v).Some? ==> |EncodeFrom(t, v.slots, 0).value| <= MAX_UINT32
  }

  lemma VarintSkipped(v: nat, rest: Bytes)
    ensures SkipVarint(Varint(v) + rest) == Got((), rest)
  {
    VarintRead(v, rest);
    SkipsVarint(Varint(v) + rest);
    assert SkipVarint(Varint(v) + rest).value == ();
  }

  lemma NumSkipped(t: LType, n: int, rest: Bytes)
    requires Packable(t)
    ensures SkipField(WireType(t), EncodeNum(t, n) + rest) == Got((), rest)
  {
    hide Varint, SkipVarint, Fixed;
    match t
    case TBool => VarintSkipped(if n == 0 then 0 else 1, rest);
    case TInt(_) => VarintSkipped(n % TWO_64, rest);
    case TUInt(_) => VarintSkipped(n % TWO_64, rest);
    case TSInt(_) => VarintSkipped(if -TWO_63 <= n < TWO_63 then ZigZag(n) else 0, rest);
    case TFixed32 =>
    case TFixed64 =>
  }

  lemma DelimitedSkipped(b: Bytes, rest: Bytes)
    requires |b| < TWO_63
    ensures SkipField(WT_STRING, WithLength(b) + rest) == if |b| <= MAX_UINT32 then Got((), rest) else Bad
  {
    hide Substream, WithLength;
    if |b| <= MAX_UINT32 {
      LengthBack(b, rest);
    } else {
      LengthFails(b, rest);
    }
  }

  lemma ValueSkipped(t: LType, v: Value, rest: Bytes)
    requires WellFormed(t) && Holds(t, v) && EncodeValue(t, v).Some? && |EncodeValue(t, v).value| < TWO_63
    ensures SkipField(WireType(t), EncodeValue(t, v).value + rest) == if LengthFits(t, v) then Got((), rest) else Bad
  {
    hide EncodeNum, WithLength, SkipField, EncodeFrom;
    if Packable(t) {
      NumSkipped(t, v.n, rest);
    } else if t.TMessage? {
      var sub := EncodeFrom(t, v.slots, 0).value;
      LengthShorter(sub);
      DelimitedSkipped(sub, rest);
    } else {
      DelimitedSkipped(v.b, rest);
    }
  }

  // A tag that the descriptor lacks sends the loop to pb_skip_field.
  lemma TagLeadsNowhere(t: LType, f: Field, wireType: nat, b: Bytes, s: Progress)
    requires t.TMessage? && |s.slots| == |t.fields| && wireType < 8 && 0 < f.tag <= PB_SIZE_MAX && Lacks(t.fields, f.tag)
    ensures DecodeLoop(t, TagBytes(f, wireType) + b, s) ==
            var g := SkipField(wireType, b); if g.Bad? then None else DecodeLoop(t, g.rest, s)
  {
    var tag := f.tag * 8 + wireType;
    Decode32Unsigned(tag, b);
    NotEmpty(tag, b);
    FindsNone(t.fields, f.tag, 0);
    if s.at <= |t.fields| {
      FindsNone(t.fields, f.tag, s.at);
    }
    assert tag / 8 == f.tag && tag % 8 == wireType;
    hide Varint, Decode32, Find, DecodeField, DecodeNum, SkipField;
  }

  lemma {:induction false} TaggedSkipped(t: LType, f: Field, items: seq<Value>, i: nat, rest: Bytes, s: Progress)
    requires t.TMessage? && |s.slots| == |t.fields| && 0 < f.tag <= PB_SIZE_MAX && Lacks(t.fields, f.tag)
    requires WellFormed(f.ltype) && AllHeld(f.ltype, items) && i <= |items|
    requires EncodeTagged(f, items, i).Some? && |EncodeTagged(f, items, i).value| < TWO_63
    ensures DecodeLoop(t, EncodeTagged(f, items, i).value + rest, s) ==
            if forall j | i <= j < |items| :: LengthFits(f.ltype, items[j]) then DecodeLoop(t, rest, s) else None
    decreases |items| - i
  {
    hide Holds, WellFormed, EncodeValue, DecodeLoop, TagBytes, WireType, LengthFits, SkipField;
    if i < |items| {
      var tag, enc := TagBytes(f, WireType(f.ltype)), EncodeValue(f.ltype, items[i]).value;
      var more := EncodeTagged(f, items, i + 1).value;
      assert EncodeTagged(f, items, i).value == tag + enc + more;
      ConcatAssociates(tag + enc, more, rest);
      ConcatAssociates(tag, enc, more + rest);
      TagLeadsNowhere(t, f, WireType(f.ltype), enc + (more + rest), s);
      ValueSkipped(f.ltype, items[i], more + rest);
      TaggedSkipped(t, f, items, i + 1, rest, s);
    } else {
      assert [] + rest == rest;
    }
  }

  // A field the descriptor lacks, with any values it can hold: decoding goes on behind it as if
  // it were not there, if the length of each of its submessages is below 2^32, and fails if one
  // is not.
  lemma UnknownFieldIsSkipped(t: LType, f: Field, items: seq<Value>, rest: Bytes, s: Progress)
    requires t.TMessage? && |s.slots| == |t.fields| && 0 < f.tag <= PB_SIZE_MAX && Lacks(t.fields, f.tag)
    requires WellFormed(f.ltype) && AllHeld(f.ltype, items) && MaxCount(f) <= PB_SIZE_MAX
    requires EncodeField(f, items).Some? && |EncodeField(f, items).value| < TWO_63
    ensures DecodeLoop(t, EncodeField(f, items).value + rest, s) ==
            if forall j | 0 <= j < |items| :: LengthFits(f.ltype, items[j]) then DecodeLoop(t, rest, s) else None
  {
    hide Holds, WellFormed, EncodeTagged, EncodePacked, DecodeLoop, TagBytes, WithLength, AllHeld, SkipField, EncodeValue;
    if IsArray(f) && Packable(f.ltype) {
      if items == [] {
        assert [] + rest == rest;
      } else {
        var b := EncodePacked(f.ltype, items, 0);
        PackedLength(f.ltype, items);
        ConcatAssociates(TagBytes(f, WT_STRING), WithLength(b), rest);
        TagLeadsNowhere(t, f, WT_STRING, WithLength(b) + rest, s);
        DelimitedSkipped(b, rest);
      }
    } else {
      TaggedSkipped(t, f, items, 0, rest, s);
    }
  }

  lemma PackedLength(t: LType, items: seq<Value>)
    requires WellFormed(t) && Packable(t) && AllHeld(t, items) && |items| <= PB_SIZE_MAX
    ensures |EncodePacked(t, items, 0)| <= MAX_UINT32
  {
    PackedIsShort(t, items, 0);
  }

  // ------------------------------------------------------------------ fewer fields

  // Those of the first k fields whose tag is kept, and their contents.
  function KnownFields(fs: seq<Field>, keep: set<nat>, k: nat): (r: seq<Field>)
    requires k <= |fs|
  {
    if k == 0 then []
    else KnownFields(fs, keep, k - 1) + if fs[k - 1].tag in keep then [fs[k - 1]] else []
  }

  function KnownSlots(fs: seq<Field>, m: Slots, keep: set<nat>, k: nat): (r: Slots)
    requires k <= |fs| == |m|
    ensures |r| == |KnownFields(fs, keep, k)|
  {
    if k == 0 then []
    else KnownSlots(fs, m, keep, k - 1) + if fs[k - 1].tag in keep then [m[k - 1]] else []
  }

  // An older descriptor.
  function Known(t: LType, keep: set<nat>): (r: LType)
    requires t.TMessage?
    ensures r.TMessage?
  {
    TMessage(KnownFields(t.fields, keep, |t.fields|))
  }

  // Where the j-th of the known fields comes from.
  lemma {:induction false} Origin(fs: seq<Field>, m: Slots, keep: set<nat>, k: nat, j: nat) returns (i: nat)
    requires k <= |fs| == |m| && j < |KnownFields(fs, keep, k)|
    ensures i < k && j == |KnownFields(fs, keep, i)| && fs[i].tag in keep
    ensures KnownFields(fs, keep, k)[j] == fs[i] && KnownSlots(fs, m, keep, k)[j] == m[i]
  {
    if j < |KnownFields(fs, keep, k - 1)| {
      i := Origin(fs, m, keep, k - 1, j);
    } else {
      i := k - 1;
    }
  }

  lemma {:induction false} KnownGrows(fs: seq<Field>, m: Slots, keep: set<nat>, k: nat, n: nat)
    requires k <= n <= |fs| == |m|
    ensures KnownFields(fs, keep, k) <= KnownFields(fs, keep, n) && KnownSlots(fs, m, keep, k) <= KnownSlots(fs, m, keep, n)
    ensures k < n && fs[k].tag in keep ==>
              |KnownFields(fs, keep, k)| < |KnownFields(fs, keep, n)| &&
              KnownFields(fs, keep, n)[|KnownFields(fs, keep, k)|] == fs[k] &&
              KnownSlots(fs, m, keep, n)[|KnownFields(fs, keep, k)|] == m[k]
    decreases n - k
  {
    if k < n {
      KnownGrows(fs, m, keep, k + 1, n);
    }
  }

  lemma KnownOrder(fs: seq<Field>, m: Slots, keep: set<nat>, a: nat, b: nat) returns (i: nat, j: nat)
    requires |fs| == |m| && a < b < |KnownFields(fs, keep, |fs|)|
    ensures i < j < |fs|
    ensures KnownFields(fs, keep, |fs|)[a] == fs[i] && KnownSlots(fs, m, keep, |fs|)[a] == m[i]
    ensures KnownFields(fs, keep, |fs|)[b] == fs[j] && KnownSlots(fs, m, keep, |fs|)[b] == m[j]
  {
    i := Origin(fs, m, keep, |fs|, a);
    j := Origin(fs, m, keep, |fs|, b);
    if j <= i {
      KnownGrows(fs, m, keep, j, i);
    }
  }

  // The older descriptor is one, and holds what it knows of the message.
  lemma KnownIsWellFormed(t: LType, keep: set<nat>)
    requires t.TMessage? && WellFormed(t)
    ensures WellFormed(Known(t, keep))
  {
    var fs, fs', m := t.fields, Known(t, keep).fields, Defaults(t, |t.fields|);
    forall j | 0 <= j < |fs'|
      ensures 0 < fs'[j].tag <= PB_SIZE_MAX && MaxCount(fs'[j]) <= PB_SIZE_MAX && WellFormed(fs'[j].ltype) && DefaultFits(fs'[j])
    {
      var i := Origin(fs, m, keep, |fs|, j);
    }
    forall a, b | 0 <= a < b < |fs'|
      ensures fs'[a].tag != fs'[b].tag
    {
      var i, j := KnownOrder(fs, m, keep, a, b);
    }
    hide KnownFields, DefaultFits, Defaults;
  }

  lemma KnownHolds(t: LType, m: Slots, keep: set<nat>)
    requires t.TMessage? && WellFormed(t) && Holds(t, Struct(m)) && |m| == |t.fields|
    ensures WellFormed(Known(t, keep)) && Holds(Known(t, keep), Struct(KnownSlots(t.fields, m, keep, |m|)))
  {
    KnownIsWellFormed(t, keep);
    var fs, fs', m' := t.fields, Known(t, keep).fields, KnownSlots(t.fields, m, keep, |m|);
    forall j | 0 <= j < |fs'|
      ensures HoldsItems(fs'[j], m'[j])
    {
      var i := Origin(fs, m, keep, |fs|, j);
    }
    forall a, b | 0 <= a < b < |fs'|
      ensures SameUnion(fs'[a], fs'[b]) ==> m'[a] == [] || m'[b] == []
    {
      var i, j := KnownOrder(fs, m, keep, a, b);
    }
    hide KnownFields, KnownSlots, HoldsItems, WellFormed;
  }

  lemma UnknownIsLacked(t: LType, m: Slots, keep: set<nat>, k: nat)
    requires t.TMessage? && k < |t.fields| == |m| && t.fields[k].tag !in keep
    ensures Lacks(Known(t, keep).fields, t.fields[k].tag)
  {
    forall j | 0 <= j < |Known(t, keep).fields|
      ensures Known(t, keep).fields[j].tag != t.fields[k].tag
    {
      var i := Origin(t.fields, m, keep, |t.fields|, j);
    }
  }

  // Every length the older decoder has to read is below 2^32: those of the submessages in the
  // fields it knows, at every depth, and the outer ones of the fields it does not.
  predicate CanRead(f: Field, items: seq<Value>, keep: set<nat>) {
    if f.tag in keep then FieldFits(f, items) else forall j | 0 <= j < |items| :: LengthFits(f.ltype, items[j])
  }

  predicate CanReadFrom(t: LType, m: Slots, keep: set<nat>, k: nat)
    requires t.TMessage? && |m| == |t.fields|
  {
    forall j | k <= j < |m| :: CanRead(t.fields[j], m[j], keep)
  }

  lemma CanReadStep(t: LType, m: Slots, keep: set<nat>, k: nat)
    requires t.TMessage? && |m| == |t.fields| && k <= |m|
    ensures CanReadFrom(t, m, keep, k) <==>
            k == |m| || (CanRead(t.fields[k], m[k], keep) && CanReadFrom(t, m, keep, k + 1))
  {
    hide CanRead;
  }

  lemma {:induction false} OlderReads(t: LType, m: Slots, keep: set<nat>, k: nat, s: Progress, t': LType, m': Slots)
    requires t.TMessage? && WellFormed(t) && Holds(t, Struct(m)) && |m| == |t.fields| && k <= |m|
    requires t' == Known(t, keep) && m' == KnownSlots(t.fields, m, keep, |m|)
    requires Received(t'.fields, m', Below(|KnownFields(t.fields, keep, k)|), s)
    requires EncodeFrom(t, m, k).Some? && |EncodeFrom(t, m, k).value| < TWO_63
    ensures |s.slots| == |t'.fields|
    ensures DecodeLoop(t', EncodeFrom(t, m, k).value, s) ==
            if CanReadFrom(t, m, keep, k) then Some(m') else None
    decreases |m| - k
  {
    SlotsReceived(t'.fields, m', Below(|KnownFields(t.fields, keep, k)|), s);
    hide Received, Holds, WellFormed, CanRead, KnownFields, KnownSlots, Known, EncodeFrom, DecodeLoop, FieldFits;
    hide CanReadFrom, EncodeField, Finished;
    CanReadStep(t, m, keep, k);
    FirstField(t, m, k, t', s);
    if k == |m| {
      FinishesWith(t', m', Below(|m'|), s);
      AllReceived(t'.fields, m');
    } else {
      var first, rest := EncodeField(t.fields[k], m[k]).value, EncodeFrom(t, m, k + 1).value;
      var s' := OlderReadsField(t, m, keep, k, s, t', m', first, rest);
      if CanRead(t.fields[k], m[k], keep) {
        OlderReads(t, m, keep, k + 1, s', t', m');
      }
    }
  }

  // The encoding from field k on, and what is left when there is none.
  lemma FirstField(t: LType, m: Slots, k: nat, t': LType, s: Progress)
    requires t.TMessage? && |m| == |t.fields| && k <= |m| && EncodeFrom(t, m, k).Some?
    requires t'.TMessage? && |s.slots| == |t'.fields|
    ensures k < |m| ==> EncodeField(t.fields[k], m[k]).Some? && EncodeFrom(t, m, k + 1).Some? &&
                        EncodeFrom(t, m, k).value == EncodeField(t.fields[k], m[k]).value + EncodeFrom(t, m, k + 1).value
    ensures k == |m| ==> DecodeLoop(t', EncodeFrom(t, m, k).value, s) == Finished(t', s)
  {
    hide EncodeField, Finished;
  }

  lemma OlderReadsField(t: LType, m: Slots, keep: set<nat>, k: nat, s: Progress, t': LType, m': Slots, b: Bytes, rest: Bytes)
    returns (s': Progress)
    requires t.TMessage? && WellFormed(t) && Holds(t, Struct(m)) && k < |m| == |t.fields|
    requires t' == Known(t, keep) && m' == KnownSlots(t.fields, m, keep, |m|)
    requires Received(t'.fields, m', Below(|KnownFields(t.fields, keep, k)|), s) && |s.slots| == |t'.fields|
    requires EncodeField(t.fields[k], m[k]) == Some(b) && |b| < TWO_63
    ensures if CanRead(t.fields[k], m[k], keep)
            then Received(t'.fields, m', Below(|KnownFields(t.fields, keep, k + 1)|), s') && |s'.slots| == |t'.fields| &&
                 DecodeLoop(t', b + rest, s) == DecodeLoop(t', rest, s')
            else DecodeLoop(t', b + rest, s) == None
  {
    var j := |KnownFields(t.fields, keep, k)|;
    hide Received, DecodeLoop, EncodeField, Holds, WellFormed, FieldFits, KnownSlots, LengthFits, Known, Below;
    s' := s;
    if t.fields[k].tag in keep {
      KnownGrows(t.fields, m, keep, k, |m|);
      KnownHolds(t, m, keep);
      KnownTags(t, keep);
      hide KnownFields;
      BelowStep(j);
      s' := KnownField(t', m', Below(j), j, s, b, rest);
    } else {
      UnknownIsLacked(t, m, keep, k);
      HeldField(t, m, k);
      hide KnownFields, AllHeld;
      UnknownFieldIsSkipped(t', t.fields[k], m[k], rest, s);
    }
  }

  lemma KnownField(t: LType, m: Slots, done: set<nat>, k: nat, s: Progress, b: Bytes, rest: Bytes) returns (s': Progress)
    requires t.TMessage? && WellFormed(t) && Holds(t, Struct(m)) && k < |m| == |t.fields| && Received(t.fields, m, done, s) && k !in done
    requires EncodeField(t.fields[k], m[k]) == Some(b) && |b| < TWO_63
    ensures if FieldFits(t.fields[k], m[k])
            then Received(t.fields, m, done + {k}, s') && |s'.slots| == |t.fields| && DecodeLoop(t, b + rest, s) == DecodeLoop(t, rest, s')
            else |s.slots| == |t.fields| && DecodeLoop(t, b + rest, s) == None
  {
    SlotsReceived(t.fields, m, done, s);
    hide Received, DecodeLoop, EncodeField, Holds, WellFormed, FieldFits;
    if FieldFits(t.fields[k], m[k]) {
      s' := FieldRoundTrip(t, m, done, k, b, rest, s);
      SlotsReceived(t.fields, m, done + {k}, s');
    } else {
      FieldFails(t, m, done, k, b, rest, s);
      s' := s;
    }
  }

  lemma KnownTags(t: LType, keep: set<nat>)
    requires t.TMessage?
    ensures Known(t, keep).TMessage? && Known(t, keep).fields == KnownFields(t.fields, keep, |t.fields|)
  {
  }

  lemma HeldField(t: LType, m: Slots, k: nat)
    requires t.TMessage? && WellFormed(t) && Holds(t, Struct(m)) && k < |m| == |t.fields|
    ensures var f := t.fields[k];
            0 < f.tag <= PB_SIZE_MAX && MaxCount(f) <= PB_SIZE_MAX && WellFormed(f.ltype) && AllHeld(f.ltype, m[k])
  {
    HeldSlots(t, m);
    hide AllHeld, Holds;
  }

  // A message written under one descriptor and read under another that lacks any of its fields
  // comes back with just the fields that both know, as they were, if and only if every length
  // the older decoder has to read is below 2^32.
  lemma OlderDecodesNewer(t: LType, m: Slots, keep: set<nat>)
    requires t.TMessage? && WellFormed(t) && Holds(t, Struct(m)) && |m| == |t.fields|
    requires EncodeFrom(t, m, 0).Some? && |EncodeFrom(t, m, 0).value| < TWO_63
    ensures Decode(Known(t, keep), EncodeFrom(t, m, 0).value) ==
            if CanReadFrom(t, m, keep, 0) then Some(KnownSlots(t.fields, m, keep, |m|)) else None
  {
    var t', m' := Known(t, keep), KnownSlots(t.fields, m, keep, |m|);
    StartsEmpty(t', m');
    BelowStep(0);
    hide Received, DecodeLoop, EncodeFrom, Holds, WellFormed, CanRead, KnownSlots;
    OlderReads(t, m, keep, 0, Start(t'), t', m');
  }

}
