// Decoding what was encoded: every message of every descriptor comes back as it was.
module PbRoundTrip {
  import opened Coding
  import opened Lookup
  import opened PbVarint
  import opened PbMessage
  import opened PbDecode

  // ------------------------------------------------------------------ numbers

  // An int32 or int64 from its 64-bit two's complement.
  lemma IntOfBits(size: nat, n: int)
    requires -TWO_63 <= n < TWO_63 && (size == 8 || -TWO_31 <= n < TWO_31)
    ensures var z := n % TWO_64;
            z <= MAX_UINT64 && (n >= 0 ==> z == n) &&
            (if size == 8 then ToSigned(z, TWO_63) else ToSigned(z % TWO_32, TWO_31)) == n
  {
    var z := n % TWO_64;
    assert z == if n >= 0 then n else n + TWO_64;
    if size != 8 {
      assert z % TWO_32 == if n >= 0 then n else n + TWO_32;
    }
  }

  lemma FixedBack(width: nat, v: nat, rest: Bytes)
    requires v < Pow256(width)
    ensures DecodeFixed(width, Fixed(width, v) + rest) == Got(Num(v), rest)
  {
    FixedRoundTrip(width, v);
    var b := Fixed(width, v) + rest;
    assert b[..width] == Fixed(width, v) && b[width..] == rest;
  }

  lemma NumRoundTrip(t: LType, n: int, rest: Bytes)
    requires WellFormed(t) && Packable(t) && Holds(t, Num(n))
    ensures DecodeNum(t, EncodeNum(t, n) + rest) == Got(Num(n), rest)
    ensures |EncodeNum(t, n)| > 0
  {
    hide Varint, GetVarint64, Decode32, Fixed, FromFixed, Pow256, DecodeFixed, ToSigned;
    match t
    case TBool => Decode32Unsigned(n, rest);
    case TInt(size) =>
      Varint64RoundTrip(n % TWO_64, rest);
      IntOfBits(size, n);
    case TUInt(size) =>
      assert n % TWO_64 == n;
      Varint64RoundTrip(n, rest);
    case TSInt(size) =>
      ZigZagRoundTrip(n);
      Varint64RoundTrip(ZigZag(n), rest);
    case TFixed32 =>
      PowersOf256();
      FixedBack(4, n, rest);
    case TFixed64 =>
      PowersOf256();
      FixedBack(8, n, rest);
  }

  lemma {:induction false} PackedRoundTrip(t: LType, items: seq<Value>, i: nat, max: nat, b: Bytes, done: seq<Value>)
    requires WellFormed(t) && Packable(t) && i <= |items| <= max && (forall j | 0 <= j < |items| :: Holds(t, items[j]))
    requires b == EncodePacked(t, items, i) && done == items[..i]
    ensures DecodePacked(t, b, max, done) == Some(items)
    decreases |items| - i
  {
    hide EncodeNum, DecodeNum, Holds, WellFormed;
    if i < |items| {
      NumIsNum(t, items[i]);
      NumRoundTrip(t, items[i].n, EncodePacked(t, items, i + 1));
      assert items[..i + 1] == items[..i] + [items[i]];
      PackedRoundTrip(t, items, i + 1, max, EncodePacked(t, items, i + 1), items[..i + 1]);
    } else {
      assert items[..i] == items;
    }
  }

  lemma NumIsNum(t: LType, v: Value)
    requires Packable(t) && Holds(t, v)
    ensures v.Num? && v == Num(v.n)
  {
  }

  // ------------------------------------------------------------------ length-delimited values

  lemma LengthBack(b: Bytes, rest: Bytes)
    requires |b| <= MAX_UINT32
    ensures Decode32(WithLength(b) + rest) == Parsed(|b|, b + rest)
    ensures Substream(WithLength(b) + rest) == Got(b, rest)
  {
    hide Varint, Decode32;
    ConcatAssociates(Varint(|b|), b, rest);
    Decode32Unsigned(|b|, b + rest);
    assert (b + rest)[..|b|] == b && (b + rest)[|b|..] == rest;
  }

  lemma {:induction false} NoNul(b: Bytes)
    requires 0 !in b
    ensures UpToNul(b) == b
  {
    if b != [] {
      NoNul(b[1..]);
    }
  }

  lemma DataRoundTrip(t: LType, b: Bytes, rest: Bytes)
    requires t.TBytes? || t.TString? || t.TFixedBytes?
    requires WellFormed(t) && Holds(t, Data(b))
    ensures DecodeData(t, WithLength(b) + rest) == Got(Data(b), rest)
  {
    hide WithLength, Decode32;
    LengthBack(b, rest);
    assert (b + rest)[..|b|] == b && (b + rest)[|b|..] == rest;
    if t.TString? {
      NoNul(b);
    }
    if t.TFixedBytes? && |b| == 0 {
      assert b + rest == rest && seq(0, i => 0 as byte) == b;
    }
  }

  // ------------------------------------------------------------------ lengths

  // A submessage has a length that pb_decode can read, and so has every one in it.  All other
  // lengths are those of strings and arrays within pb_size_t.
  predicate ValueFits(t: LType, v: Value)
    decreases t, 2
  {
    t.TMessage? && v.Struct? && |v.slots| == |t.fields| ==>
      var sub := EncodeFrom(t, v.slots, 0);
      (sub.Some? ==> |sub.value| <= MAX_UINT32) && LengthsFit(t, v.slots)
  }

  predicate FieldFits(f: Field, items: seq<Value>)
    decreases f.ltype, 3
  {
    forall i | 0 <= i < |items| :: ValueFits(f.ltype, items[i])
  }

  // Every submessage of the message has such a length; it has none itself.
  predicate LengthsFit(t: LType, m: Slots)
    requires t.TMessage? && |m| == |t.fields|
    decreases t, 1
  {
    forall k | 0 <= k < |m| :: FieldFits(t.fields[k], m[k])
  }

  lemma {:induction false} VarintIsShort(v: nat, groups: nat)
    requires groups > 0 && v < Weight(groups)
    ensures |Varint(v)| <= groups
  {
    if v >= 128 {
      VarintIsShort(v / 128, groups - 1);
    }
  }

  lemma {:induction false} PackedIsShort(t: LType, items: seq<Value>, i: nat)
    requires WellFormed(t) && Packable(t) && i <= |items| && forall j | 0 <= j < |items| :: Holds(t, items[j])
    ensures |EncodePacked(t, items, i)| <= 10 * (|items| - i)
    decreases |items| - i
  {
    hide EncodeNum, Holds, WellFormed;
    if i < |items| {
      NumIsShort(t, NumOf(items[i]));
      PackedIsShort(t, items, i + 1);
    }
  }

  lemma NumIsShort(t: LType, n: int)
    requires Packable(t)
    ensures |EncodeNum(t, n)| <= 10
  {
    Weights();
    hide Varint, Fixed;
    if t.TInt? || t.TUInt? {
      VarintIsShort(n % TWO_64, 10);
    } else if t.TSInt? {
      VarintIsShort(if -TWO_63 <= n < TWO_63 then ZigZag(n) else 0, 10);
    } else if t.TBool? {
      VarintIsShort(if n == 0 then 0 else 1, 10);
    }
  }

  // ------------------------------------------------------------------ a value

  lemma ValueRoundTrip(f: Field, v: Value, b: Bytes, rest: Bytes, items: seq<Value>)
    requires WellFormed(f.ltype) && Holds(f.ltype, v) && EncodeValue(f.ltype, v) == Some(b) && ValueFits(f.ltype, v)
    requires f.ltype.TMessage? ==> Base(f, items) == Defaults(f.ltype, |f.ltype.fields|)
    ensures DecodeValue(f, b + rest, items) == Got(v, rest)
    decreases f.ltype, 5
  {
    hide WithLength, DecodeData, DecodeNum, EncodeNum, Substream, DecodeLoop, Base, EncodeFrom;
    match f.ltype
    case TMessage(fs) =>
      var sub := EncodeFrom(f.ltype, v.slots, 0).value;
      LengthBack(sub, rest);
      MessageRoundTrip(f.ltype, v.slots, sub);
    case TBytes(_) => DataRoundTrip(f.ltype, v.b, rest);
    case TString(_) => DataRoundTrip(f.ltype, v.b, rest);
    case TFixedBytes(_) => DataRoundTrip(f.ltype, v.b, rest);
    case _ =>
      NumIsNum(f.ltype, v);
      NumRoundTrip(f.ltype, v.n, rest);
  }

  lemma LengthShorter(b: Bytes)
    ensures |b| < |WithLength(b)|
  {
  }

  // A fresh submessage is decoded onto the defaults.
  lemma BaseOfDefault(f: Field)
    requires f.ltype.TMessage? && !IsArray(f)
    ensures Base(f, DefaultItems(f)) == Defaults(f.ltype, |f.ltype.fields|)
  {
    hide IsZero, Defaults;
    assert Initial(f) == Struct(Defaults(f.ltype, |f.ltype.fields|));
  }

  lemma BaseOfArray(f: Field, items: seq<Value>)
    requires f.ltype.TMessage? && IsArray(f)
    ensures Base(f, items) == Defaults(f.ltype, |f.ltype.fields|)
  {
  }

  // ------------------------------------------------------------------ fields

  // The marks of those of these fields that are among the first 64 required ones.
  function Marks(fs: seq<Field>, done: set<nat>): (r: set<nat>) {
    set k: nat | k in done && k < |fs| && fs[k].rule.Required? && RequiredIndex(fs, k) < MAX_REQUIRED :: RequiredIndex(fs, k)
  }

  // These fields have been received, the others are as they were initialised.
  ghost predicate Received(fs: seq<Field>, m: Slots, done: set<nat>, s: Progress) {
    && |s.slots| == |fs| == |m|
    && (forall j | 0 <= j < |fs| :: s.slots[j] == if j in done then m[j] else DefaultItems(fs[j]))
    && s.seen == Marks(fs, done)
    && FixedComplete(fs, s) && (s.fixed.Some? ==> s.fixed.value in done)
  }

  // The message that is there when only these fields have been received.
  function Partly(fs: seq<Field>, m: Slots, done: set<nat>): (r: Slots)
    requires |m| == |fs|
    ensures |r| == |fs|
  {
    seq(|fs|, j requires 0 <= j < |fs| => if j in done then m[j] else DefaultItems(fs[j]))
  }

  // None of the first 64 required fields is missing.
  predicate NoneMissing(fs: seq<Field>, done: set<nat>) {
    forall k: nat | k < |fs| && fs[k].rule.Required? && RequiredIndex(fs, k) < 64 :: k in done
  }

  lemma {:induction false} DefaultsAt(t: LType, k: nat)
    requires t.TMessage? && k <= |t.fields|
    ensures forall j | 0 <= j < k :: Defaults(t, k)[j] == DefaultItems(t.fields[j])
  {
    hide DefaultItems;
    if k > 0 {
      DefaultsAt(t, k - 1);
    }
  }

  lemma StartsEmpty(t: LType, m: Slots)
    requires t.TMessage? && |m| == |t.fields|
    ensures Received(t.fields, m, {}, Start(t))
  {
    hide DefaultItems, Defaults;
    DefaultsAt(t, |t.fields|);
  }

  // Every index below the number of required fields is that of one.
  lemma {:induction false} IndexIsOfSome(fs: seq<Field>, n: nat, r: nat) returns (k: nat)
    requires n <= |fs| && r < RequiredIndex(fs, n)
    ensures k < n && fs[k].rule.Required? && RequiredIndex(fs, k) == r
  {
    if r < RequiredIndex(fs, n - 1) {
      k := IndexIsOfSome(fs, n - 1, r);
    } else {
      k := n - 1;
    }
  }

  lemma MarkIsOf(fs: seq<Field>, done: set<nat>, k: nat)
    requires k < |fs| && fs[k].rule.Required? && RequiredIndex(fs, k) in Marks(fs, done)
    ensures k in done
  {
    var j: nat :| j in done && j < |fs| && fs[j].rule.Required? && RequiredIndex(fs, j) == RequiredIndex(fs, k);
    IndexIsUnique(fs, j, k);
  }

  lemma MarksAreEnough(fs: seq<Field>, done: set<nat>)
    ensures RequiredSeen(fs, Marks(fs, done)) <==> NoneMissing(fs, done)
  {
    hide RequiredIndex;
    if RequiredSeen(fs, Marks(fs, done)) {
      SeenAtTheEnd(fs, Marks(fs, done));
      forall k: nat | k < |fs| && fs[k].rule.Required? && RequiredIndex(fs, k) < MAX_REQUIRED
        ensures k in done
      {
        MarkIsOf(fs, done, k);
      }
    }
    if NoneMissing(fs, done) {
      forall r: nat | r < RequiredIndex(fs, |fs|) && r < MAX_REQUIRED
        ensures r in Marks(fs, done)
      {
        var k := IndexIsOfSome(fs, |fs|, r);
      }
    }
  }

  // At the end there is a message exactly if no required field is missing.
  lemma FinishesWith(t: LType, m: Slots, done: set<nat>, s: Progress)
    requires t.TMessage? && Received(t.fields, m, done, s)
    ensures |m| == |t.fields|
    ensures Finished(t, s) == if NoneMissing(t.fields, done) then Some(Partly(t.fields, m, done)) else None
  {
    MarksAreEnough(t.fields, done);
    hide DefaultItems, RequiredIndex, RequiredSeen, NoneMissing, Marks, FixedComplete;
    assert s.slots == Partly(t.fields, m, done);
  }

  lemma {:induction false} FindIs(fs: seq<Field>, k: nat, from: nat)
    requires from <= k < |fs| && forall i, j | 0 <= i < j < |fs| :: fs[i].tag != fs[j].tag
    ensures Find(fs, fs[k].tag, from) == k
    decreases k - from
  {
    if from < k {
      FindIs(fs, k, from + 1);
    }
  }

  // Wherever the iterator is, it comes to the only field with the tag.
  lemma FindFromIs(fs: seq<Field>, k: nat, at: nat)
    requires k < |fs| && forall i, j | 0 <= i < j < |fs| :: fs[i].tag != fs[j].tag
    ensures FindFrom(fs, fs[k].tag, at) == k
  {
    FindIs(fs, k, 0);
    if at <= k {
      FindIs(fs, k, at);
    } else if at <= |fs| {
      FindsNone(fs, fs[k].tag, at);
    }
  }

  lemma {:induction false} FindsNone(fs: seq<Field>, tag: nat, from: nat)
    requires from <= |fs| && forall i | from <= i < |fs| :: fs[i].tag != tag
    ensures Find(fs, tag, from) == |fs|
    decreases |fs| - from
  {
    if from < |fs| {
      FindsNone(fs, tag, from + 1);
    }
  }

  // The tag sends the loop to field k.
  lemma TagLeadsToField(t: LType, k: nat, wireType: nat, b: Bytes, s: Progress)
    requires t.TMessage? && WellFormed(t) && k < |t.fields| == |s.slots| && wireType < 8
    ensures var g := DecodeField(t, k, wireType, b, s);
            DecodeLoop(t, TagBytes(t.fields[k], wireType) + b, s) == if g.Bad? then None else DecodeLoop(t, g.rest, g.value)
  {
    hide Varint, Decode32, DecodeField, FindFrom;
    var tag := t.fields[k].tag * 8 + wireType;
    assert 0 < t.fields[k].tag <= PB_SIZE_MAX;
    Decode32Unsigned(tag, b);
    FindFromIs(t.fields, k, s.at);
    assert tag / 8 == t.fields[k].tag && tag % 8 == wireType;
    NotEmpty(tag, b);
  }

  lemma NotEmpty(tag: nat, b: Bytes)
    ensures Varint(tag) + b != []
  {
  }

  lemma MarksGrow(fs: seq<Field>, done: set<nat>, k: nat)
    requires k < |fs|
    ensures Marks(fs, done + {k}) == Marks(fs, done) +
              if fs[k].rule.Required? && RequiredIndex(fs, k) < MAX_REQUIRED then {RequiredIndex(fs, k)} else {}
  {
    hide RequiredIndex;
  }

  // Storing the only value of a field leaves the others alone: no other member of its union has
  // been received with a value.
  lemma StoredSlots(t: LType, m: Slots, done: set<nat>, k: nat, s: Progress, v: Value, j: nat)
    requires t.TMessage? && Holds(t, Struct(m)) && k < |m| == |t.fields| && j < |m| && Received(t.fields, m, done, s)
    requires !IsArray(t.fields[k]) && m[k] == [v] && k !in done
    ensures Store(t.fields, s, k, v).slots[j] == if j in done + {k} then m[j] else DefaultItems(t.fields[j])
  {
    hide DefaultItems, IsZero, Marks, FixedComplete;
    var fs := t.fields;
    assert HoldsItems(fs[k], m[k]);
    if fs[k].rule.OneOf? && j != k && SameUnion(fs[k], fs[j]) {
      NoDefault(fs[j]);
    }
  }

  lemma StoreKeepsTheRest(fs: seq<Field>, s: Progress, k: nat, v: Value)
    requires k < |fs| == |s.slots|
    ensures var r := Store(fs, s, k, v); |r.slots| == |fs| && r == s.(slots := r.slots)
  {
    hide IsZero, Chosen;
  }

  lemma StoresField(t: LType, m: Slots, done: set<nat>, k: nat, s: Progress, v: Value)
    requires t.TMessage? && Holds(t, Struct(m)) && k < |m| == |t.fields| && Received(t.fields, m, done, s)
    requires !IsArray(t.fields[k]) && m[k] == [v] && k !in done
    ensures Received(t.fields, m, done + {k}, Store(t.fields, Marked(t.fields, s, k), k, v))
  {
    var fs, s' := t.fields, Marked(t.fields, s, k);
    MarksGrow(fs, done, k);
    StoreKeepsTheRest(fs, s', k, v);
    StoreKeepsTheRest(fs, s, k, v);
    StoreSees(fs, s, s', k, v);
    forall j: nat | j < |fs|
      ensures Store(fs, s', k, v).slots[j] == if j in done + {k} then m[j] else DefaultItems(fs[j])
    {
      StoredSlots(t, m, done, k, s, v, j);
    }
    FixedStays(t, m, done, k, s, v);
    hide DefaultItems, Marks, RequiredIndex, Store, FixedComplete, Holds;
  }

  lemma StoreSees(fs: seq<Field>, s: Progress, s': Progress, k: nat, v: Value)
    requires k < |fs| == |s.slots| && s' == s.(seen := s'.seen, at := s'.at)
    ensures Store(fs, s', k, v).slots == Store(fs, s, k, v).slots
  {
    hide IsZero;
  }

  lemma FixedStays(t: LType, m: Slots, done: set<nat>, k: nat, s: Progress, v: Value)
    requires t.TMessage? && Holds(t, Struct(m)) && k < |m| == |t.fields| && Received(t.fields, m, done, s)
    requires !IsArray(t.fields[k]) && m[k] == [v] && k !in done
    ensures FixedComplete(t.fields, Store(t.fields, Marked(t.fields, s, k), k, v))
  {
    StoreKeepsTheRest(t.fields, s, k, v);
    StoreSees(t.fields, s, Marked(t.fields, s, k), k, v);
    if s.fixed.Some? {
      StoredSlots(t, m, done, k, s, v, s.fixed.value);
    }
    hide DefaultItems, Marks, RequiredIndex, Chosen, IsZero, Holds;
  }

  lemma NoDefault(f: Field)
    requires f.rule.OneOf? || f.rule.Optional? || f.rule.Repeated?
    ensures DefaultItems(f) == []
  {
  }

  // A field with no value is not written, and is still as initialised.
  lemma EmptyIsDefault(f: Field)
    requires HoldsItems(f, []) && DefaultFits(f)
    ensures EncodeField(f, []) == Some([]) && DefaultItems(f) == []
  {
    hide IsZero, Zero;
  }

  lemma SingleBytes(f: Field, v: Value, b: Bytes)
    requires !IsArray(f) && EncodeField(f, [v]) == Some(b)
    ensures EncodeValue(f.ltype, v).Some? && b == TagBytes(f, WireType(f.ltype)) + EncodeValue(f.ltype, v).value
  {
    hide TagBytes, EncodeValue;
    assert EncodeTagged(f, [v], 1) == Some([]);
    assert EncodeField(f, [v]) == EncodeTagged(f, [v], 0);
    assert b == TagBytes(f, WireType(f.ltype)) + EncodeValue(f.ltype, v).value + [];
  }

  lemma SingleRoundTrip(t: LType, m: Slots, done: set<nat>, k: nat, v: Value, b: Bytes, rest: Bytes, s: Progress) returns (s': Progress)
    requires t.TMessage? && WellFormed(t) && Holds(t, Struct(m)) && k < |m| == |t.fields| && Received(t.fields, m, done, s)
    requires !IsArray(t.fields[k]) && m[k] == [v] && EncodeField(t.fields[k], m[k]) == Some(b) && k !in done
    requires FieldFits(t.fields[k], m[k])
    ensures Received(t.fields, m, done + {k}, s') && DecodeLoop(t, b + rest, s) == DecodeLoop(t, rest, s')
    decreases t, 0, 0
  {
    hide Received, TagBytes, EncodeValue, DecodeLoop, DecodeValue, Base, Store, EncodeField, Defaults, DefaultItems, ValueFits;
    assert ValueFits(t.fields[k].ltype, m[k][0]);
    var f := t.fields[k];
    SingleBytes(f, v, b);
    var enc := EncodeValue(f.ltype, v).value;
    SlotReceived(t.fields, m, done, k, s);
    if f.ltype.TMessage? {
      BaseOfDefault(f);
    }
    HeldItem(t, m, k, 0);
    ValueRoundTrip(f, v, enc, rest, s.slots[k]);
    ConcatAssociates(TagBytes(f, WireType(f.ltype)), enc, rest);
    TagLeadsToField(t, k, WireType(f.ltype), enc + rest, s);
    StoresField(t, m, done, k, s, v);
    s' := Store(t.fields, Marked(t.fields, s, k), k, v);
  }

  lemma SlotReceived(fs: seq<Field>, m: Slots, done: set<nat>, k: nat, s: Progress)
    requires k < |fs| && Received(fs, m, done, s) && k !in done
    ensures |s.slots| == |fs| && s.slots[k] == DefaultItems(fs[k])
  {
    hide DefaultItems, Marks;
  }

  lemma HeldItem(t: LType, m: Slots, k: nat, i: nat)
    requires t.TMessage? && WellFormed(t) && Holds(t, Struct(m)) && k < |m| == |t.fields| && i < |m[k]|
    ensures WellFormed(t.fields[k].ltype) && Holds(t.fields[k].ltype, m[k][i])
  {
    assert HoldsItems(t.fields[k], m[k]);
  }

  // ------------------------------------------------------------------ arrays

  // i values of array field k have been received.
  ghost predicate AtElement(fs: seq<Field>, m: Slots, done: set<nat>, k: nat, i: nat, p: Progress) {
    && |p.slots| == |fs| == |m| && k < |fs| && k !in done && i <= |m[k]|
    && p.slots[k] == m[k][..i]
    && (forall j | 0 <= j < |fs| && j != k :: p.slots[j] == if j in done then m[j] else DefaultItems(fs[j]))
    && p.seen == Marks(fs, done)
    && if fs[k].rule.FixedCount? then p.fixed == Some(k)
       else FixedComplete(fs, p) && (p.fixed.Some? ==> p.fixed.value in done)
  }

  lemma ArrayStarts(fs: seq<Field>, m: Slots, done: set<nat>, k: nat, s: Progress) returns (p: Progress)
    requires k < |fs| && Received(fs, m, done, s) && IsArray(fs[k]) && k !in done
    ensures |s.slots| == |fs| && WithFixed(fs, s, k) == Some(p) && AtElement(fs, m, done, k, 0, p)
  {
    hide DefaultItems, Marks;
    if fs[k].rule.Repeated? {
      NoDefault(fs[k]);
    }
    p := WithFixed(fs, s, k).value;
  }

  lemma ArrayEnds(t: LType, m: Slots, done: set<nat>, k: nat, p: Progress)
    requires t.TMessage? && Holds(t, Struct(m)) && k < |m| == |t.fields| && IsArray(t.fields[k])
    requires AtElement(t.fields, m, done, k, |m[k]|, p)
    ensures Received(t.fields, m, done + {k}, p)
  {
    MarksGrow(t.fields, done, k);
    hide DefaultItems, Marks;
    assert HoldsItems(t.fields[k], m[k]);
    assert m[k][..|m[k]|] == m[k];
  }

  // Array field k, found and with these elements.
  function WithElements(p: Progress, k: nat, items: seq<Value>): (r: Progress)
    requires k < |p.slots|
  {
    p.(slots := p.slots[k := items], at := k)
  }

  lemma ElementStored(fs: seq<Field>, m: Slots, done: set<nat>, k: nat, i: nat, j: nat, p: Progress)
    requires AtElement(fs, m, done, k, i, p) && IsArray(fs[k]) && j <= |m[k]|
    ensures var p' := WithElements(p, k, m[k][..j]);
            AtElement(fs, m, done, k, j, p') && WithFixed(fs, p', k) == Some(p')
  {
    hide DefaultItems, Marks;
  }

  lemma PackedField(t: LType, m: Slots, done: set<nat>, k: nat, b: Bytes, rest: Bytes, s: Progress) returns (s': Progress)
    requires t.TMessage? && WellFormed(t) && Holds(t, Struct(m)) && k < |m| == |t.fields| && Received(t.fields, m, done, s)
    requires IsArray(t.fields[k]) && Packable(t.fields[k].ltype) && m[k] != [] && k !in done
    requires EncodeField(t.fields[k], m[k]) == Some(b)
    ensures Received(t.fields, m, done + {k}, s') && DecodeLoop(t, b + rest, s) == DecodeLoop(t, rest, s')
  {
    hide Received, AtElement, TagBytes, DecodeLoop, Store, Substream, WithLength, EncodePacked, DecodePacked, Holds, WellFormed, WithFixed;
    var f := t.fields[k];
    var p := ArrayStarts(t.fields, m, done, k, s);
    var packed := EncodePacked(f.ltype, m[k], 0);
    ElementsHeld(t, m, done, k, p, 0);
    CountFits(t, k);
    PackedIsShort(f.ltype, m[k], 0);
    LengthBack(packed, rest);
    PackedRoundTrip(f.ltype, m[k], 0, MaxCount(f), packed, m[k][..0]);
    ConcatAssociates(TagBytes(f, WT_STRING), WithLength(packed), rest);
    TagLeadsToField(t, k, WT_STRING, WithLength(packed) + rest, s);
    ElementStored(t.fields, m, done, k, 0, |m[k]|, p);
    assert m[k][..|m[k]|] == m[k];
    s' := WithElements(p, k, m[k]);
    ArrayEnds(t, m, done, k, s');
  }

  lemma CountFits(t: LType, k: nat)
    requires t.TMessage? && WellFormed(t) && k < |t.fields|
    ensures MaxCount(t.fields[k]) <= PB_SIZE_MAX
  {
  }

  lemma ElementsHeld(t: LType, m: Slots, done: set<nat>, k: nat, p: Progress, i: nat)
    requires t.TMessage? && WellFormed(t) && Holds(t, Struct(m)) && k < |m| == |t.fields| && IsArray(t.fields[k])
    requires AtElement(t.fields, m, done, k, i, p)
    ensures |p.slots| == |t.fields| && p.slots[k] == m[k][..i]
    ensures WellFormed(t.fields[k].ltype) && |m[k]| <= MaxCount(t.fields[k])
    ensures forall j | 0 <= j < |m[k]| :: Holds(t.fields[k].ltype, m[k][j])
  {
    hide DefaultItems, Marks;
    assert HoldsItems(t.fields[k], m[k]);
  }

  // One element behind its tag; numbers too, which the encoder would pack.
  lemma OneElement(t: LType, m: Slots, done: set<nat>, k: nat, i: nat, enc: Bytes, rest: Bytes, s: Progress, p: Progress)
    requires t.TMessage? && WellFormed(t) && Holds(t, Struct(m)) && k < |m| == |t.fields| && IsArray(t.fields[k]) && i < |m[k]|
    requires |s.slots| == |t.fields| && WithFixed(t.fields, s, k) == Some(p)
    requires AtElement(t.fields, m, done, k, i, p)
    requires EncodeValue(t.fields[k].ltype, m[k][i]) == Some(enc) && ValueFits(t.fields[k].ltype, m[k][i])
    ensures |p.slots| == |t.fields| && DecodeLoop(t, TagBytes(t.fields[k], WireType(t.fields[k].ltype)) + (enc + rest), s)
            == DecodeLoop(t, rest, WithElements(p, k, m[k][..i + 1]))
    decreases t, 0, 0
  {
    hide AtElement, TagBytes, DecodeLoop, DecodeValue, EncodeValue, Holds, WellFormed, WithFixed, Base;
    var f := t.fields[k];
    ElementsHeld(t, m, done, k, p, i);
    if f.ltype.TMessage? {
      BaseOfArray(f, m[k][..i]);
    }
    ValueRoundTrip(f, m[k][i], enc, rest, m[k][..i]);
    TagLeadsToField(t, k, WireType(f.ltype), enc + rest, s);
    assert m[k][..i] + [m[k][i]] == m[k][..i + 1];
  }

  lemma TaggedField(t: LType, m: Slots, done: set<nat>, k: nat, i: nat, b: Bytes, rest: Bytes, s: Progress, p: Progress) returns (s': Progress)
    requires t.TMessage? && WellFormed(t) && Holds(t, Struct(m)) && k < |m| == |t.fields| && IsArray(t.fields[k]) && i < |m[k]|
    requires |s.slots| == |t.fields| && WithFixed(t.fields, s, k) == Some(p)
    requires AtElement(t.fields, m, done, k, i, p)
    requires EncodeTagged(t.fields[k], m[k], i) == Some(b) && FieldFits(t.fields[k], m[k])
    ensures Received(t.fields, m, done + {k}, s') && DecodeLoop(t, b + rest, s) == DecodeLoop(t, rest, s')
    decreases t, 1, |m[k]| - i
  {
    hide Received, AtElement, TagBytes, DecodeLoop, EncodeValue, Holds, WellFormed, WithFixed, WireType, Packable, ValueFits;
    var f := t.fields[k];
    var enc, more := EncodeValue(f.ltype, m[k][i]).value, EncodeTagged(f, m[k], i + 1).value;
    var tag := TagBytes(f, WireType(f.ltype));
    assert b == tag + enc + more;
    ConcatAssociates(tag + enc, more, rest);
    ConcatAssociates(tag, enc, more + rest);
    OneElement(t, m, done, k, i, enc, more + rest, s, p);
    ElementStored(t.fields, m, done, k, i, i + 1, p);
    var p' := WithElements(p, k, m[k][..i + 1]);
    if i + 1 < |m[k]| {
      s' := TaggedField(t, m, done, k, i + 1, more, rest, p', p');
    } else {
      assert more + rest == rest;
      ArrayEnds(t, m, done, k, p');
      s' := p';
    }
  }

  // A singular value that is left out because it is zero is what decoding starts from, so that
  // leaving it out loses nothing.
  lemma ZeroIsDefault(t: LType, v: Value)
    requires WellFormed(t) && Holds(t, v) && IsZero(t, v)
    ensures v == Zero(t)
  {
    match t
    case TMessage(fs) =>
      DefaultsAt(t, |fs|);
      forall i | 0 <= i < |fs|
        ensures v.slots[i] == DefaultItems(fs[i])
      {
        assert SkippedInZero(fs[i], v.slots[i]) && HoldsItems(fs[i], v.slots[i]);
        EmptyIsDefault(fs[i]);
      }
      assert v.slots == Defaults(t, |fs|);
    case _ =>
  }

  // ------------------------------------------------------------------ a message

  lemma FieldRoundTrip(t: LType, m: Slots, done: set<nat>, k: nat, b: Bytes, rest: Bytes, s: Progress) returns (s': Progress)
    requires t.TMessage? && WellFormed(t) && Holds(t, Struct(m)) && k < |m| == |t.fields| && Received(t.fields, m, done, s) && k !in done
    requires EncodeField(t.fields[k], m[k]) == Some(b) && FieldFits(t.fields[k], m[k])
    ensures Received(t.fields, m, done + {k}, s') && DecodeLoop(t, b + rest, s) == DecodeLoop(t, rest, s')
    decreases t, 2
  {
    hide Received, AtElement, DecodeLoop, EncodeTagged, EncodePacked, Holds, WellFormed, WithFixed, Packable, HoldsItems, DefaultItems, DefaultFits;
    hide FieldFits;
    var f, items := t.fields[k], m[k];
    ItemsHeld(t, m, k);
    if items == [] {
      EmptyIsDefault(f);
      assert b + rest == rest;
      SkipsField(t.fields, m, done, k, s);
      s' := s;
    } else if !IsArray(f) {
      s' := SingleRoundTrip(t, m, done, k, items[0], b, rest, s);
    } else if Packable(f.ltype) {
      s' := PackedField(t, m, done, k, b, rest, s);
    } else {
      var p := ArrayStarts(t.fields, m, done, k, s);
      s' := TaggedField(t, m, done, k, 0, b, rest, s, p);
    }
  }

  lemma ItemsHeld(t: LType, m: Slots, k: nat)
    requires t.TMessage? && WellFormed(t) && Holds(t, Struct(m)) && k < |m| == |t.fields|
    ensures |m| == |t.fields| && HoldsItems(t.fields[k], m[k]) && DefaultFits(t.fields[k])
    ensures !IsArray(t.fields[k]) && m[k] != [] ==> m[k] == [m[k][0]]
  {
    assert HoldsItems(t.fields[k], m[k]);
  }

  lemma SkipsField(fs: seq<Field>, m: Slots, done: set<nat>, k: nat, s: Progress)
    requires k < |fs| && Received(fs, m, done, s) && HoldsItems(fs[k], m[k]) && m[k] == [] == DefaultItems(fs[k])
    ensures Received(fs, m, done + {k}, s)
  {
    MarksGrow(fs, done, k);
    hide DefaultItems, Marks;
  }

  // The first k fields.
  function Below(k: nat): (ks: set<nat>)
    ensures forall j: nat :: j in ks <==> j < k
  {
    if k == 0 then {} else Below(k - 1) + {k - 1}
  }

  lemma BelowStep(k: nat)
    ensures k !in Below(k) && Below(k + 1) == Below(k) + {k} && Below(0) == {}
  {
  }

  lemma AllReceived(fs: seq<Field>, m: Slots)
    requires |m| == |fs|
    ensures Partly(fs, m, Below(|fs|)) == m && NoneMissing(fs, Below(|fs|))
  {
  }

  lemma FieldsRoundTrip(t: LType, m: Slots, k: nat, b: Bytes, s: Progress)
    requires t.TMessage? && WellFormed(t) && Holds(t, Struct(m)) && |m| == |t.fields| && k <= |m|
    requires Received(t.fields, m, Below(k), s) && EncodeFrom(t, m, k) == Some(b) && LengthsFit(t, m)
    ensures |s.slots| == |t.fields| && DecodeLoop(t, b, s) == Some(m)
    decreases t, 3, |m| - k
  {
    SlotsReceived(t.fields, m, Below(k), s);
    hide Received, EncodeField, Holds, WellFormed, Finished, FieldFits, Below;
    if k == |m| {
      FinishesWith(t, m, Below(k), s);
      AllReceived(t.fields, m);
    } else {
      hide DecodeLoop;
      BelowStep(k);
      var first, rest := EncodeField(t.fields[k], m[k]).value, EncodeFrom(t, m, k + 1).value;
      var s' := FieldRoundTrip(t, m, Below(k), k, first, rest, s);
      FieldsRoundTrip(t, m, k + 1, rest, s');
    }
  }

  lemma SlotsReceived(fs: seq<Field>, m: Slots, done: set<nat>, s: Progress)
    requires Received(fs, m, done, s)
    ensures |s.slots| == |fs|
  {
    hide DefaultItems, Marks;
  }

  // pb_decode of what pb_encode wrote gives the same message: every value, has_ flag, count
  // and choice of a union, at every level of nesting.
  lemma MessageRoundTrip(t: LType, m: Slots, b: Bytes)
    requires t.TMessage? && WellFormed(t) && Holds(t, Struct(m)) && |m| == |t.fields|
    requires EncodeFrom(t, m, 0) == Some(b) && LengthsFit(t, m)
    ensures Decode(t, b) == Some(m)
    ensures DecodeLoop(t, b, Progress(Defaults(t, |t.fields|), {}, None, 0)) == Some(m)
    decreases t, 4
  {
    BelowStep(0);
    hide Received, DecodeLoop, EncodeFrom, Holds, WellFormed, LengthsFit;
    StartsEmpty(t, m);
    FieldsRoundTrip(t, m, 0, b, Start(t));
  }

  // ------------------------------------------------------------------ encoding succeeds

  lemma ValueEncodes(t: LType, v: Value)
    requires WellFormed(t) && Holds(t, v)
    ensures EncodeValue(t, v).Some?
    decreases t, 1, 0
  {
    hide EncodeNum, EncodeFrom;
    if t.TMessage? {
      MessageEncodes(t, v.slots, 0);
    }
  }

  lemma {:induction false} TaggedEncodes(f: Field, items: seq<Value>, i: nat)
    requires WellFormed(f.ltype) && i <= |items| && forall j | 0 <= j < |items| :: Holds(f.ltype, items[j])
    ensures EncodeTagged(f, items, i).Some?
    decreases f.ltype, 2, |items| - i
  {
    hide Holds, WellFormed, EncodeValue;
    if i < |items| {
      ValueEncodes(f.ltype, items[i]);
      TaggedEncodes(f, items, i + 1);
    }
  }

  lemma FieldEncodes(f: Field, items: seq<Value>)
    requires WellFormed(f.ltype) && HoldsItems(f, items)
    ensures EncodeField(f, items).Some?
    decreases f.ltype, 3, 0
  {
    hide Holds, WellFormed, EncodeTagged, EncodePacked;
    TaggedEncodes(f, items, 0);
  }

  // Encoding a message that a struct can hold never fails.
  lemma {:induction false} MessageEncodes(t: LType, m: Slots, k: nat)
    requires t.TMessage? && WellFormed(t) && Holds(t, Struct(m)) && |m| == |t.fields| && k <= |m|
    ensures EncodeFrom(t, m, k).Some?
    decreases t, 0, |m| - k
  {
    hide EncodeField, HoldsItems;
    if k < |m| {
      assert HoldsItems(t.fields[k], m[k]) && WellFormed(t.fields[k].ltype);
      FieldEncodes(t.fields[k], m[k]);
      MessageEncodes(t, m, k + 1);
    }
  }

  // ------------------------------------------------------------------ lengths that do not fit

  // A length from 2^32 up cannot be read.  No object takes up half of the 64-bit address
  // space.
  lemma LengthFails(b: Bytes, rest: Bytes)
    requires MAX_UINT32 < |b| < TWO_63
    ensures Substream(WithLength(b) + rest) == Bad
  {
    hide Varint, Decode32;
    ConcatAssociates(Varint(|b|), b, rest);
    LengthTooBig(|b|, b + rest);
  }

  lemma ValueFails(f: Field, v: Value, b: Bytes, rest: Bytes, items: seq<Value>)
    requires WellFormed(f.ltype) && Holds(f.ltype, v) && EncodeValue(f.ltype, v) == Some(b) && |b| < TWO_63
    requires !ValueFits(f.ltype, v) && Base(f, items) == Defaults(f.ltype, |f.ltype.fields|)
    ensures DecodeValue(f, b + rest, items) == Bad
    decreases f.ltype, 5
  {
    hide WithLength, Substream, DecodeLoop, Base, EncodeFrom, LengthsFit;
    var sub := EncodeFrom(f.ltype, v.slots, 0).value;
    LengthShorter(sub);
    if |sub| > MAX_UINT32 {
      LengthFails(sub, rest);
    } else {
      LengthBack(sub, rest);
      MessageFails(f.ltype, v.slots, sub);
    }
  }

  lemma SingleFails(t: LType, m: Slots, done: set<nat>, k: nat, v: Value, b: Bytes, rest: Bytes, s: Progress)
    requires t.TMessage? && WellFormed(t) && Holds(t, Struct(m)) && k < |m| == |t.fields| && Received(t.fields, m, done, s) && k !in done
    requires !IsArray(t.fields[k]) && m[k] == [v] && EncodeField(t.fields[k], m[k]) == Some(b) && |b| < TWO_63
    requires !FieldFits(t.fields[k], m[k])
    ensures DecodeLoop(t, b + rest, s) == None
    decreases t, 0, 0
  {
    hide Received, TagBytes, EncodeValue, DecodeLoop, DecodeValue, Base, Store, EncodeField, Defaults, DefaultItems;
    var f := t.fields[k];
    SingleBytes(f, v, b);
    var enc := EncodeValue(f.ltype, v).value;
    SlotReceived(t.fields, m, done, k, s);
    BaseOfDefault(f);
    HeldItem(t, m, k, 0);
    ValueFails(f, v, enc, rest, s.slots[k]);
    ConcatAssociates(TagBytes(f, WireType(f.ltype)), enc, rest);
    TagLeadsToField(t, k, WireType(f.ltype), enc + rest, s);
  }

  lemma OneElementFails(t: LType, m: Slots, done: set<nat>, k: nat, i: nat, enc: Bytes, rest: Bytes, s: Progress, p: Progress)
    requires t.TMessage? && WellFormed(t) && Holds(t, Struct(m)) && k < |m| == |t.fields| && IsArray(t.fields[k]) && i < |m[k]|
    requires !Packable(t.fields[k].ltype) && |s.slots| == |t.fields| && WithFixed(t.fields, s, k) == Some(p)
    requires AtElement(t.fields, m, done, k, i, p)
    requires EncodeValue(t.fields[k].ltype, m[k][i]) == Some(enc) && |enc| < TWO_63 && !ValueFits(t.fields[k].ltype, m[k][i])
    ensures DecodeLoop(t, TagBytes(t.fields[k], WireType(t.fields[k].ltype)) + (enc + rest), s) == None
    decreases t, 0, 0
  {
    assert t.fields[k].ltype.TMessage?;
    hide AtElement, TagBytes, DecodeLoop, DecodeValue, EncodeValue, Holds, WellFormed, WithFixed, Base, ValueFits;
    var f := t.fields[k];
    ElementsHeld(t, m, done, k, p, i);
    BaseOfArray(f, m[k][..i]);
    ValueFails(f, m[k][i], enc, rest, m[k][..i]);
    TagLeadsToField(t, k, WireType(f.ltype), enc + rest, s);
  }

  // The elements before the first that does not fit are read, and that one is not.
  lemma TaggedFails(t: LType, m: Slots, done: set<nat>, k: nat, i: nat, b: Bytes, rest: Bytes, s: Progress, p: Progress)
    requires t.TMessage? && WellFormed(t) && Holds(t, Struct(m)) && k < |m| == |t.fields| && IsArray(t.fields[k]) && i < |m[k]|
    requires !Packable(t.fields[k].ltype) && |s.slots| == |t.fields| && WithFixed(t.fields, s, k) == Some(p)
    requires AtElement(t.fields, m, done, k, i, p)
    requires EncodeTagged(t.fields[k], m[k], i) == Some(b) && |b| < TWO_63
    requires exists j :: i <= j < |m[k]| && !ValueFits(t.fields[k].ltype, m[k][j])
    ensures DecodeLoop(t, b + rest, s) == None
    decreases t, 1, |m[k]| - i
  {
    hide Received, AtElement, TagBytes, DecodeLoop, EncodeValue, Holds, WellFormed, WithFixed, WireType, Packable, ValueFits;
    var f := t.fields[k];
    var enc, more := EncodeValue(f.ltype, m[k][i]).value, EncodeTagged(f, m[k], i + 1).value;
    var tag := TagBytes(f, WireType(f.ltype));
    assert b == tag + enc + more;
    ConcatAssociates(tag + enc, more, rest);
    ConcatAssociates(tag, enc, more + rest);
    if ValueFits(f.ltype, m[k][i]) {
      OneElement(t, m, done, k, i, enc, more + rest, s, p);
      ElementStored(t.fields, m, done, k, i, i + 1, p);
      var p' := WithElements(p, k, m[k][..i + 1]);
      TaggedFails(t, m, done, k, i + 1, more, rest, p', p');
    } else {
      OneElementFails(t, m, done, k, i, enc, more + rest, s, p);
    }
  }

  lemma FieldFails(t: LType, m: Slots, done: set<nat>, k: nat, b: Bytes, rest: Bytes, s: Progress)
    requires t.TMessage? && WellFormed(t) && Holds(t, Struct(m)) && k < |m| == |t.fields| && Received(t.fields, m, done, s) && k !in done
    requires EncodeField(t.fields[k], m[k]) == Some(b) && |b| < TWO_63 && !FieldFits(t.fields[k], m[k])
    ensures DecodeLoop(t, b + rest, s) == None
    decreases t, 2
  {
    assert m[k] != [] && t.fields[k].ltype.TMessage?;
    hide Received, AtElement, DecodeLoop, EncodeTagged, EncodePacked, Holds, WellFormed, WithFixed, HoldsItems, DefaultItems, DefaultFits;
    hide ValueFits;
    ItemsHeld(t, m, k);
    if !IsArray(t.fields[k]) {
      SingleFails(t, m, done, k, m[k][0], b, rest, s);
    } else {
      var p := ArrayStarts(t.fields, m, done, k, s);
      TaggedFails(t, m, done, k, 0, b, rest, s, p);
    }
  }

  lemma FieldsFail(t: LType, m: Slots, k: nat, b: Bytes, s: Progress)
    requires t.TMessage? && WellFormed(t) && Holds(t, Struct(m)) && |m| == |t.fields| && k <= |m|
    requires Received(t.fields, m, Below(k), s) && EncodeFrom(t, m, k) == Some(b) && |b| < TWO_63
    requires exists j :: k <= j < |m| && !FieldFits(t.fields[j], m[j])
    ensures |s.slots| == |t.fields| && DecodeLoop(t, b, s) == None
    decreases t, 3, |m| - k
  {
    SlotsReceived(t.fields, m, Below(k), s);
    BelowStep(k);
    hide Received, Below, EncodeField, Holds, WellFormed, DecodeLoop, FieldFits;
    var first, rest := EncodeField(t.fields[k], m[k]).value, EncodeFrom(t, m, k + 1).value;
    if FieldFits(t.fields[k], m[k]) {
      var s' := FieldRoundTrip(t, m, Below(k), k, first, rest, s);
      FieldsFail(t, m, k + 1, rest, s');
    } else {
      FieldFails(t, m, Below(k), k, first, rest, s);
    }
  }

  lemma MessageFails(t: LType, m: Slots, b: Bytes)
    requires t.TMessage? && WellFormed(t) && Holds(t, Struct(m)) && |m| == |t.fields|
    requires EncodeFrom(t, m, 0) == Some(b) && |b| < TWO_63 && !LengthsFit(t, m)
    ensures Decode(t, b) == None
    ensures DecodeLoop(t, b, Progress(Defaults(t, |t.fields|), {}, None, 0)) == None
    decreases t, 4
  {
    BelowStep(0);
    hide Received, Below, DecodeLoop, EncodeFrom, Holds, WellFormed, FieldFits;
    StartsEmpty(t, m);
    FieldsFail(t, m, 0, b, Start(t));
  }

  // The round trip as a caller sees it: encoding succeeds, and decoding gives the message back
  // if and only if every submessage has a length below 2^32.  The message itself has no length
  // in the encoding and may be longer.
  lemma RoundTrip(t: LType, m: Slots)
    requires t.TMessage? && WellFormed(t) && Holds(t, Struct(m)) && |m| == |t.fields|
    ensures EncodeFrom(t, m, 0).Some?
    ensures LengthsFit(t, m) ==> Decode(t, EncodeFrom(t, m, 0).value) == Some(m)
    ensures !LengthsFit(t, m) && |EncodeFrom(t, m, 0).value| < TWO_63 ==> Decode(t, EncodeFrom(t, m, 0).value) == None
  {
    MessageEncodes(t, m, 0);
    hide Holds, WellFormed, EncodeFrom, Decode, LengthsFit;
    var b := EncodeFrom(t, m, 0).value;
    if LengthsFit(t, m) {
      MessageRoundTrip(t, m, b);
    } else if |b| < TWO_63 {
      MessageFails(t, m, b);
    }
  }
}
