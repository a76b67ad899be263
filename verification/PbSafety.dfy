// Decoding any bytes at all: whatever pb_decode accepts, the struct holds it.  Array counts
// stay within array_size, strings are terminated within data_size, integers are in range, and
// a union has one member.
module PbSafety {
  import opened Coding
  import opened Lookup
  import opened PbVarint
  import opened PbMessage
  import opened PbDecode
  import opened PbRoundTrip

  // ------------------------------------------------------------------ a fresh struct

  lemma ZeroHolds(t: LType)
    requires WellFormed(t)
    ensures Holds(t, Zero(t))
    decreases t, 1
  {
    if t.TMessage? {
      DefaultsHold(t, |t.fields|);
      DefaultsAt(t, |t.fields|);
      forall i, j | 0 <= i < j < |t.fields| && SameUnion(t.fields[i], t.fields[j])
        ensures Defaults(t, |t.fields|)[i] == []
      {
        NoDefault(t.fields[i]);
      }
    }
  }

  lemma {:induction false} DefaultsHold(t: LType, k: nat)
    requires t.TMessage? && WellFormed(t) && k <= |t.fields|
    ensures forall i | 0 <= i < k :: HoldsItems(t.fields[i], Defaults(t, k)[i])
    decreases t, 0, k
  {
    hide HoldsItems, DefaultItems;
    if k > 0 {
      DefaultsHold(t, k - 1);
      assert WellFormed(t.fields[k - 1].ltype) && DefaultFits(t.fields[k - 1]);
      DefaultItemsHold(t.fields[k - 1]);
    }
  }

  lemma DefaultItemsHold(f: Field)
    requires WellFormed(f.ltype) && DefaultFits(f)
    ensures HoldsItems(f, DefaultItems(f))
    decreases f.ltype, 2
  {
    hide Holds, IsZero, WellFormed, Zero;
    ZeroHolds(f.ltype);
    if f.rule.FixedCount? {
      CopiesAre(Zero(f.ltype), f.rule.n);
    }
  }

  lemma {:induction false} CopiesAre(v: Value, n: nat)
    ensures forall i | 0 <= i < n :: Copies(v, n)[i] == v
  {
    if n > 0 {
      CopiesAre(v, n - 1);
    }
  }

  // ------------------------------------------------------------------ values

  lemma NumHolds(t: LType, b: Bytes)
    requires Packable(t) && WellFormed(t)
    ensures var g := DecodeNum(t, b); g.Got? ==> Holds(t, g.value)
  {
    hide Decode32, GetVarint64, FromFixed;
    if t.TFixed32? && |b| >= 4 {
      FixedInverse(b[..4]);
      PowersOf256();
    }
    if t.TFixed64? && |b| >= 8 {
      FixedInverse(b[..8]);
      PowersOf256();
    }
  }

  // What an integer field can hold is the range of its C type, in numbers.
  lemma HeldRanges(n: int)
    ensures Holds(TInt(1), Num(n)) <==> -128 <= n <= 127
    ensures Holds(TInt(2), Num(n)) <==> -32768 <= n <= 32767
    ensures Holds(TInt(4), Num(n)) <==> -2147483648 <= n <= 2147483647
    ensures Holds(TInt(8), Num(n)) <==> -9223372036854775808 <= n <= 9223372036854775807
    ensures Holds(TUInt(1), Num(n)) <==> 0 <= n <= 255
    ensures Holds(TUInt(2), Num(n)) <==> 0 <= n <= 65535
    ensures Holds(TUInt(4), Num(n)) <==> 0 <= n <= 4294967295
    ensures Holds(TUInt(8), Num(n)) <==> 0 <= n <= 18446744073709551615
    ensures forall size :: Holds(TSInt(size), Num(n)) <==> Holds(TInt(size), Num(n))
  {
  }

  // Decoding the encoding of any int32 or int64 into a field of some size gives the number if the
  // field can hold it, and fails if it cannot.
  lemma IntegersAreInRange(size: nat, n: int, rest: Bytes)
    requires IsSize(size) && -TWO_63 <= n < TWO_63 && (size == 8 || -TWO_31 <= n < TWO_31)
    ensures DecodeNum(TInt(size), EncodeNum(TInt(size), n) + rest) == if Holds(TInt(size), Num(n)) then Got(Num(n), rest) else Bad
    ensures DecodeNum(TSInt(size), EncodeNum(TSInt(size), n) + rest) == if Holds(TInt(size), Num(n)) then Got(Num(n), rest) else Bad
    ensures n >= 0 ==> DecodeNum(TUInt(size), EncodeNum(TUInt(size), n) + rest) ==
                       if Holds(TUInt(size), Num(n)) then Got(Num(n), rest) else Bad
  {
    hide Varint, GetVarint64, ZigZag, UnZigZag;
    Varint64RoundTrip(n % TWO_64, rest);
    IntOfBits(size, n);
    ZigZagRoundTrip(n);
    Varint64RoundTrip(ZigZag(n), rest);
  }

  lemma {:induction false} UpToNulIs(b: Bytes)
    ensures |UpToNul(b)| <= |b| && 0 !in UpToNul(b)
  {
    if b != [] && b[0] != 0 {
      UpToNulIs(b[1..]);
    }
  }

  lemma DataHolds(t: LType, b: Bytes)
    requires (t.TBytes? || t.TString? || t.TFixedBytes?) && WellFormed(t)
    ensures var g := DecodeData(t, b); g.Got? ==> Holds(t, g.value)
  {
    hide Decode32, UpToNul;
    var p := Decode32(b);
    if p.Parsed? && |p.rest| >= p.value {
      UpToNulIs(p.rest[..p.value]);
    }
  }

  lemma {:induction false} PackedHolds(t: LType, b: Bytes, max: nat, items: seq<Value>)
    requires Packable(t) && WellFormed(t) && |items| <= max && forall i | 0 <= i < |items| :: Holds(t, items[i])
    ensures var r := DecodePacked(t, b, max, items);
            r.Some? ==> |r.value| <= max && (forall i | 0 <= i < |r.value| :: Holds(t, r.value[i])) &&
                        (b != [] ==> |r.value| > 0) && (b == [] ==> r.value == items)
    decreases max - |items|
  {
    hide DecodeNum, Holds, WellFormed;
    if b != [] && |items| < max {
      var g := DecodeNum(t, b);
      NumHolds(t, b);
      if g.Got? {
        PackedHolds(t, g.rest, max, items + [g.value]);
      }
    }
  }

  // ------------------------------------------------------------------ a struct being filled

  // A fixed-count array that is being received may still be short.
  ghost predicate SoundItems(f: Field, items: seq<Value>, receiving: bool) {
    if receiving && f.rule.FixedCount? then
      |items| <= f.rule.n && forall i | 0 <= i < |items| :: Holds(f.ltype, items[i])
    else HoldsItems(f, items)
  }

  ghost predicate Sound(fs: seq<Field>, s: Progress) {
    && |s.slots| == |fs|
    && (forall i | 0 <= i < |fs| :: SoundItems(fs[i], s.slots[i], s.fixed == Some(i)))
    && (forall i, j | 0 <= i < |fs| && 0 <= j < |fs| && i != j && SameUnion(fs[i], fs[j]) ::
          s.slots[i] == [] || s.slots[j] == [])
  }

  lemma FinishedHolds(t: LType, s: Progress)
    requires t.TMessage? && Sound(t.fields, s)
    ensures var r := Finished(t, s); r.Some? ==> Holds(t, Struct(r.value))
  {
    hide RequiredSeen, IsZero, Zero;
    if FixedComplete(t.fields, s) {
      forall i | 0 <= i < |t.fields|
        ensures HoldsItems(t.fields[i], s.slots[i])
      {
        assert SoundItems(t.fields[i], s.slots[i], s.fixed == Some(i));
      }
    }
  }

  lemma FixedKeepsSound(fs: seq<Field>, s: Progress, k: nat)
    requires k < |fs| && Sound(fs, s)
    ensures var r := WithFixed(fs, s, k);
            r.Some? ==> Sound(fs, r.value) && (fs[k].rule.FixedCount? ==> r.value.fixed == Some(k))
  {
    hide Holds, IsZero, Zero;
    var r := WithFixed(fs, s, k);
    if r.Some? && r.value != s {
      forall i | 0 <= i < |fs|
        ensures SoundItems(fs[i], r.value.slots[i], r.value.fixed == Some(i))
      {
        assert SoundItems(fs[i], s.slots[i], s.fixed == Some(i));
      }
    }
  }

  // What a submessage starts from holds.
  lemma BaseHolds(f: Field, items: seq<Value>)
    requires f.ltype.TMessage? && WellFormed(f.ltype) && forall i | 0 <= i < |items| :: Holds(f.ltype, items[i])
    ensures Holds(f.ltype, Struct(Base(f, items)))
  {
    ZeroHolds(f.ltype);
    hide Holds, Defaults;
  }

  lemma HeldIsSound(t: LType, m: Slots, seen: set<nat>)
    requires t.TMessage? && Holds(t, Struct(m))
    ensures Sound(t.fields, Progress(m, seen, None, 0))
  {
  }

  lemma ValueHolds(f: Field, b: Bytes, items: seq<Value>)
    requires WellFormed(f.ltype) && forall i | 0 <= i < |items| :: Holds(f.ltype, items[i])
    ensures var g := DecodeValue(f, b, items); g.Got? ==> Holds(f.ltype, g.value)
    decreases f.ltype, 1, |b|
  {
    hide DecodeData, DecodeNum, Substream, Base, DecodeLoop;
    match f.ltype
    case TMessage(fs) =>
      var s := Substream(b);
      if s.Got? {
        BaseHolds(f, items);
        HeldIsSound(f.ltype, Base(f, items), {});
        LoopHolds(f.ltype, s.value, Progress(Base(f, items), {}, None, 0));
      }
    case TBytes(_) => DataHolds(f.ltype, b);
    case TString(_) => DataHolds(f.ltype, b);
    case TFixedBytes(_) => DataHolds(f.ltype, b);
    case _ => NumHolds(f.ltype, b);
  }

  // Only a struct whose fresh value is zero can hold a zero.
  lemma ZeroIsZero(t: LType, v: Value)
    requires WellFormed(t) && Holds(t, v) && IsZero(t, v)
    ensures IsZero(t, Zero(t))
  {
    ZeroIsDefault(t, v);
  }

  lemma StoreKeepsSound(fs: seq<Field>, s: Progress, k: nat, v: Value)
    requires k < |fs| && Sound(fs, s) && WellFormed(fs[k].ltype) && Holds(fs[k].ltype, v)
    requires IsArray(fs[k]) ==> |s.slots[k]| < MaxCount(fs[k])
    requires fs[k].rule.FixedCount? ==> s.fixed == Some(k)
    ensures Sound(fs, Store(fs, s, k, v))
  {
    hide Holds, IsZero, Zero, WellFormed;
    var s' := Store(fs, s, k, v);
    assert SoundItems(fs[k], s.slots[k], s.fixed == Some(k));
    if fs[k].rule.Singular? && IsZero(fs[k].ltype, v) {
      ZeroIsZero(fs[k].ltype, v);
    }
    forall i | 0 <= i < |fs|
      ensures SoundItems(fs[i], s'.slots[i], s'.fixed == Some(i))
    {
      assert SoundItems(fs[i], s.slots[i], s.fixed == Some(i));
    }
  }

  lemma PackedKeepsSound(fs: seq<Field>, s: Progress, k: nat, items: seq<Value>)
    requires k < |fs| && Sound(fs, s) && IsArray(fs[k]) && |items| <= MaxCount(fs[k])
    requires forall i | 0 <= i < |items| :: Holds(fs[k].ltype, items[i])
    requires fs[k].rule.FixedCount? ==> s.fixed == Some(k)
    ensures Sound(fs, s.(slots := s.slots[k := items]))
  {
    hide Holds, IsZero, Zero;
    var s' := s.(slots := s.slots[k := items]);
    forall i | 0 <= i < |fs|
      ensures SoundItems(fs[i], s'.slots[i], s'.fixed == Some(i))
    {
      assert SoundItems(fs[i], s.slots[i], s.fixed == Some(i));
    }
  }

  lemma SoundSlot(fs: seq<Field>, s: Progress, k: nat)
    requires k < |fs| && Sound(fs, s)
    ensures |s.slots| == |fs| && forall i | 0 <= i < |s.slots[k]| :: Holds(fs[k].ltype, s.slots[k][i])
    ensures IsArray(fs[k]) ==> |s.slots[k]| <= MaxCount(fs[k])
  {
    assert SoundItems(fs[k], s.slots[k], s.fixed == Some(k));
  }

  lemma MarkedIsSound(fs: seq<Field>, s: Progress, k: nat)
    requires k < |fs| && Sound(fs, s)
    ensures Sound(fs, Marked(fs, s, k)) && Marked(fs, s, k).fixed == s.fixed
  {
    hide SoundItems, RequiredIndex;
  }

  lemma FieldKeepsSound(t: LType, k: nat, wireType: nat, b: Bytes, s: Progress)
    requires t.TMessage? && WellFormed(t) && k < |t.fields| && Sound(t.fields, s)
    ensures |s.slots| == |t.fields|
    ensures var g := DecodeField(t, k, wireType, b, s); g.Got? ==> Sound(t.fields, g.value)
    decreases t, 0, |b|
  {
    SoundSlot(t.fields, s, k);
    FixedKeepsSound(t.fields, s, k);
    assert WellFormed(t.fields[k].ltype);
    hide Sound, WellFormed, Holds, WithFixed, DecodeValue, DecodePacked, Substream, Store, Marked;
    var f, ready := t.fields[k], WithFixed(t.fields, s, k);
    if ready.Some? {
      var p := Marked(t.fields, ready.value, k);
      MarkedIsSound(t.fields, ready.value, k);
      SoundSlot(t.fields, p, k);
      if IsArray(f) && wireType == WT_STRING && Packable(f.ltype) {
        var sub := Substream(b);
        if sub.Got? {
          PackedHolds(f.ltype, sub.value, MaxCount(f), p.slots[k]);
          var items := DecodePacked(f.ltype, sub.value, MaxCount(f), p.slots[k]);
          if items.Some? {
            PackedKeepsSound(t.fields, p, k, items.value);
          }
        }
      } else if !(IsArray(f) && |p.slots[k]| >= MaxCount(f)) {
        ValueHolds(f, b, p.slots[k]);
        var v := DecodeValue(f, b, p.slots[k]);
        if v.Got? {
          StoreKeepsSound(t.fields, p, k, v.value);
        }
      }
    }
  }

  lemma {:induction false} LoopHolds(t: LType, b: Bytes, s: Progress)
    requires t.TMessage? && WellFormed(t) && Sound(t.fields, s)
    ensures |s.slots| == |t.fields|
    ensures var r := DecodeLoop(t, b, s); r.Some? ==> Holds(t, Struct(r.value))
    decreases t, 0, |b|, 1
  {
    SlotCount(t.fields, s);
    FinishedHolds(t, s);
    hide Sound, WellFormed, Holds, Finished, Decode32, FindFrom, DecodeField, SkipField, DecodeNum;
    var tag := Decode32(b);
    if b != [] && tag.Parsed? && tag.value != 0 {
      var k := FindFrom(t.fields, tag.value / 8, s.at);
      if k < |t.fields| {
        FieldKeepsSound(t, k, tag.value % 8, tag.rest, s);
        var g := DecodeField(t, k, tag.value % 8, tag.rest, s);
        if g.Got? {
          LoopHolds(t, g.rest, g.value);
        }
      } else if t.fields == [] && tag.value / 8 == 0 {
        var g := DecodeNum(TBool, tag.rest);
        if g.Got? {
          SeenIsNoMatter(t.fields, s, s.seen + {0});
          LoopHolds(t, g.rest, s.(seen := s.seen + {0}));
        }
      } else {
        var g := SkipField(tag.value % 8, tag.rest);
        if g.Got? {
          LoopHolds(t, g.rest, s);
        }
      }
    }
  }

  lemma SeenIsNoMatter(fs: seq<Field>, s: Progress, seen: set<nat>)
    requires Sound(fs, s)
    ensures Sound(fs, s.(seen := seen))
  {
    hide SoundItems;
  }

  lemma SlotCount(fs: seq<Field>, s: Progress)
    requires Sound(fs, s)
    ensures |s.slots| == |fs|
  {
  }

  // ------------------------------------------------------------------ the main results

  // Whatever the bytes, an accepted message is one the struct can hold, at every level.
  lemma DecodedMessageHolds(t: LType, b: Bytes)
    requires t.TMessage? && WellFormed(t)
    ensures Decode(t, b).Some? ==> Holds(t, Struct(Decode(t, b).value))
  {
    ZeroHolds(t);
    hide Holds, WellFormed, DecodeLoop, Sound;
    HeldIsSound(t, Defaults(t, |t.fields|), {});
    LoopHolds(t, b, Start(t));
  }

  // So it can be encoded again, and that encoding decodes to the same message.
  lemma ReencodingIsStable(t: LType, b: Bytes)
    requires t.TMessage? && WellFormed(t) && Decode(t, b).Some?
    ensures var m := Decode(t, b).value;
            var r := EncodeFrom(t, m, 0);
            r.Some? && (LengthsFit(t, m) ==> Decode(t, r.value) == Some(m))
  {
    DecodedMessageHolds(t, b);
    hide Holds, WellFormed, DecodeLoop, EncodeFrom, LengthsFit;
    RoundTrip(t, Decode(t, b).value);
  }
}
