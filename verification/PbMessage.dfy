// Messages, descriptors and the wire format as nanopb sees them: nanopb/pb.h,
// nanopb/pb_encode.c and nanopb/pb_decode.c in the default configuration (static fields,
// 64-bit integers, 8-bit pb_size_t, packed arrays).
//
// A struct is described by what it holds: for every field the sequence of its values.  The
// has_ flag of an optional field is whether there is a value, the count of a repeated field is
// how many there are, which_ of a union is the member that has one, and a proto3 singular
// field that is zero has none.
module PbMessage {
  import opened Coding
  import opened Lookup
  import opened PbVarint

  datatype LType =
    | TBool | TInt(size: nat) | TUInt(size: nat) | TSInt(size: nat) | TFixed32 | TFixed64
    | TBytes(dataSize: nat) | TString(dataSize: nat) | TFixedBytes(dataSize: nat)
    | TMessage(fields: seq<Field>)

  datatype Rule = Required | Optional | Singular | Repeated(max: nat) | FixedCount(n: nat) | OneOf(union: nat)

  // The explicit default of a proto2 field, if it has one; `ptr` of the source's pb_field_t.
  datatype Field = Field(tag: nat, ltype: LType, rule: Rule, default: Option<Value>)

  type Slots = seq<seq<Value>>

  datatype Value = Num(n: int) | Data(b: Bytes) | Struct(slots: Slots)

  const WT_VARINT: nat := 0
  const WT_64BIT: nat := 1
  const WT_STRING: nat := 2
  const WT_32BIT: nat := 5

  // PB_LTYPE_LAST_PACKABLE
  predicate Packable(t: LType) {
    t.TBool? || t.TInt? || t.TUInt? || t.TSInt? || t.TFixed32? || t.TFixed64?
  }

  function WireType(t: LType): (w: nat)
    ensures w < 8
  {
    if t.TFixed32? then WT_32BIT
    else if t.TFixed64? then WT_64BIT
    else if Packable(t) then WT_VARINT
    else WT_STRING
  }

  // ------------------------------------------------------------------ what a struct can hold

  // 2^(8 size - 1)
  function Half(size: nat): (h: int)
    ensures h >= 0x80
  {
    if size == 1 then 0x80 else if size == 2 then 0x8000 else if size == 4 then 0x8000_0000 else 0x8000_0000_0000_0000
  }

  predicate IsSize(size: nat) {
    size == 1 || size == 2 || size == 4 || size == 8
  }

  // A descriptor as the generator writes them: nonzero tags, each once; integers of a C size;
  // everything within pb_size_t.
  predicate WellFormed(t: LType)
    decreases t
  {
    match t
    case TInt(size) => IsSize(size)
    case TUInt(size) => IsSize(size)
    case TSInt(size) => IsSize(size)
    case TBytes(n) => 0 < n <= PB_SIZE_MAX
    case TString(n) => 0 < n <= PB_SIZE_MAX
    case TFixedBytes(n) => n <= PB_SIZE_MAX
    case TMessage(fs) =>
      && (forall i | 0 <= i < |fs| ::
            0 < fs[i].tag <= PB_SIZE_MAX && MaxCount(fs[i]) <= PB_SIZE_MAX && WellFormed(fs[i].ltype) && DefaultFits(fs[i]))
      && (forall i, j | 0 <= i < j < |fs| :: fs[i].tag != fs[j].tag)
    case _ => true
  }

  // An explicit default is a value of the field, and a proto3 field has none.
  predicate DefaultFits(f: Field) {
    f.default.Some? ==> !f.rule.Singular? && !f.ltype.TMessage? && Holds(f.ltype, f.default.value)
  }

  // Memory set to zero, and a submessage set to its defaults.
  function Zero(t: LType): (v: Value)
    decreases t, 1
  {
    match t
    case TMessage(fs) => Struct(Defaults(t, |fs|))
    case TFixedBytes(n) => Data(seq(n, i => 0))
    case TBytes(_) => Data([])
    case TString(_) => Data([])
    case _ => Num(0)
  }

  // pb_field_set_to_default.
  function Initial(f: Field): (v: Value)
    decreases f.ltype, 2
  {
    if f.default.Some? && !f.ltype.TMessage? then f.default.value else Zero(f.ltype)
  }

  // What a freshly initialised struct holds for a field.
  function DefaultItems(f: Field): (items: seq<Value>)
    decreases f.ltype, 3
  {
    match f.rule
    case Required => [Initial(f)]
    case Singular => if IsZero(f.ltype, Initial(f)) then [] else [Initial(f)]
    case FixedCount(n) => Copies(Zero(f.ltype), n)
    case _ => []
  }

  function Copies(v: Value, n: nat): (vs: seq<Value>)
    ensures |vs| == n
  {
    if n == 0 then [] else [v] + Copies(v, n - 1)
  }

  // pb_message_set_to_defaults.
  function Defaults(t: LType, k: nat): (m: Slots)
    requires t.TMessage? && k <= |t.fields|
    ensures |m| == k
    decreases t, 0, k
  {
    if k == 0 then [] else Defaults(t, k - 1) + [DefaultItems(t.fields[k - 1])]
  }

  // pb_check_proto3_default_value for a singular field.  Fixed-length bytes are never skipped.
  predicate IsZero(t: LType, v: Value) {
    match t
    case TMessage(fs) => v.Struct? && |v.slots| == |fs| && forall i | 0 <= i < |fs| :: SkippedInZero(fs[i], v.slots[i])
    case TFixedBytes(n) => n == 0
    case TBytes(_) => v == Data([])
    case TString(_) => v == Data([])
    case _ => v == Num(0)
  }

  // A field that does not keep its submessage from being taken for zero.
  predicate SkippedInZero(f: Field, items: seq<Value>) {
    !f.rule.Required? && !f.rule.FixedCount? && items == []
  }

  // v fits a variable of this type, and pb_decode will take it back: strings with their
  // terminator and bytes with their length within data_size.
  predicate Holds(t: LType, v: Value)
    decreases t, 1
  {
    match t
    case TBool => v == Num(0) || v == Num(1)
    case TInt(size) => v.Num? && -Half(size) <= v.n < Half(size)
    case TUInt(size) => v.Num? && 0 <= v.n < 2 * Half(size)
    case TSInt(size) => v.Num? && -Half(size) <= v.n < Half(size)
    case TFixed32 => v.Num? && 0 <= v.n < TWO_32
    case TFixed64 => v.Num? && 0 <= v.n < TWO_64
    case TBytes(size) => v.Data? && |v.b| < size
    case TString(size) => v.Data? && |v.b| < size && 0 !in v.b
    case TFixedBytes(n) => v.Data? && |v.b| == n
    case TMessage(fs) =>
      && v.Struct? && |v.slots| == |fs|
      && (forall i | 0 <= i < |fs| :: HoldsItems(fs[i], v.slots[i]))
      && (forall i, j | 0 <= i < j < |fs| && SameUnion(fs[i], fs[j]) :: v.slots[i] == [] || v.slots[j] == [])
  }

  predicate SameUnion(f: Field, g: Field) {
    f.rule.OneOf? && g.rule == f.rule
  }

  predicate HoldsItems(f: Field, items: seq<Value>)
    decreases f.ltype, 2
  {
    && (forall i | 0 <= i < |items| :: Holds(f.ltype, items[i]))
    && match f.rule
       case Required => |items| == 1
       case Optional => |items| <= 1
       case Singular => if items == [] then IsZero(f.ltype, Zero(f.ltype)) else |items| == 1 && !IsZero(f.ltype, items[0])
       case Repeated(max) => |items| <= max
       case FixedCount(n) => |items| == n
       case OneOf(_) => |items| <= 1
  }

  // ------------------------------------------------------------------ encoding

  function TagBytes(f: Field, wireType: nat): (b: Bytes) {
    Varint(f.tag * 8 + wireType)
  }

  // The bytes of a number; the order of the source's field encoders.
  function EncodeNum(t: LType, n: int): (b: Bytes) {
    match t
    case TInt(_) => Varint(n % TWO_64)
    case TUInt(_) => Varint(n % TWO_64)
    case TSInt(_) => Varint(if -TWO_63 <= n < TWO_63 then ZigZag(n) else 0)
    case TFixed32 => Fixed(4, n % TWO_32)
    case TFixed64 => Fixed(8, n % TWO_64)
    case _ => Varint(if n == 0 then 0 else 1)
  }

  // pb_encode_string.
  function WithLength(b: Bytes): (r: Bytes) {
    Varint(|b|) + b
  }

  // The bytes of one value, without a tag; None when the encoder fails.
  function EncodeValue(t: LType, v: Value): (r: Option<Bytes>)
    decreases t, 3
  {
    match t
    case TMessage(fs) =>
      if v.Struct? && |v.slots| == |fs| then
        var sub := EncodeFrom(t, v.slots, 0);
        if sub.Some? then Some(WithLength(sub.value)) else None
      else None
    case TBytes(size) => if v.Data? && |v.b| + 1 <= size then Some(WithLength(v.b)) else None
    case TString(size) => if v.Data? && |v.b| <= size then Some(WithLength(v.b)) else None
    case TFixedBytes(n) => if v.Data? && |v.b| == n then Some(WithLength(v.b)) else None
    case _ => if v.Num? then Some(EncodeNum(t, v.n)) else None
  }

  function Join(a: Option<Bytes>, b: Option<Bytes>): (r: Option<Bytes>) {
    if a.Some? && b.Some? then Some(a.value + b.value) else None
  }

  // Each value behind a tag of its own, from the i-th on.
  function EncodeTagged(f: Field, items: seq<Value>, i: nat): (r: Option<Bytes>)
    requires i <= |items|
    decreases f.ltype, 4, |items| - i
  {
    if i == |items| then Some([])
    else
      var v := EncodeValue(f.ltype, items[i]);
      Join(if v.Some? then Some(TagBytes(f, WireType(f.ltype)) + v.value) else None, EncodeTagged(f, items, i + 1))
  }

  function NumOf(v: Value): (n: int) {
    if v.Num? then v.n else 0
  }

  // The contents of a packed array, from the i-th value on.
  function EncodePacked(t: LType, items: seq<Value>, i: nat): (b: Bytes)
    requires i <= |items|
    decreases |items| - i
  {
    if i == |items| then [] else EncodeNum(t, NumOf(items[i])) + EncodePacked(t, items, i + 1)
  }

  function IsArray(f: Field): (b: bool) {
    f.rule.Repeated? || f.rule.FixedCount?
  }

  function MaxCount(f: Field): (n: nat) {
    match f.rule
    case Repeated(max) => max
    case FixedCount(n) => n
    case _ => 1
  }

  // encode_basic_field.
  function EncodeField(f: Field, items: seq<Value>): (r: Option<Bytes>)
    decreases f.ltype, 5
  {
    if |items| > MaxCount(f) then None
    else if IsArray(f) && Packable(f.ltype) then
      if items == [] then Some([])
      else Some(TagBytes(f, WT_STRING) + WithLength(EncodePacked(f.ltype, items, 0)))
    else EncodeTagged(f, items, 0)
  }

  // pb_encode, from field k on.
  function EncodeFrom(t: LType, m: Slots, k: nat): (r: Option<Bytes>)
    requires t.TMessage? && |m| == |t.fields| && k <= |m|
    decreases t, 2, |m| - k
  {
    if k == |m| then Some([]) else Join(EncodeField(t.fields[k], m[k]), EncodeFrom(t, m, k + 1))
  }
}
