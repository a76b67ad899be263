// Decoding: nanopb/pb_decode.c over a buffer.  Every function takes the bytes that are left
// and gives back what is left after it.
module PbDecode {
  import opened Coding
  import opened Lookup
  import opened PbVarint
  import opened PbMessage

  datatype Got<+T> = Bad | Got(value: T, rest: Bytes)

  // ------------------------------------------------------------------ one value

  function ToSigned(z: nat, half: int): (n: int) {
    if z < half then z else z - 2 * half
  }

  // The cast to the field's size, and the check that it did not change the value.
  function InSize(n: int, low: int, high: int, rest: Bytes): (g: Got<Value>)
    ensures g.Got? ==> g.rest == rest
  {
    if low <= n < high then Got(Num(n), rest) else Bad
  }

  function DecodeFixed(width: nat, b: Bytes): (g: Got<Value>)
    ensures g.Got? ==> |g.rest| <= |b|
  {
    if |b| < width then Bad else Got(Num(FromFixed(b[..width])), b[width..])
  }

  // pb_dec_bool, pb_dec_varint, pb_dec_uvarint, pb_dec_svarint, pb_dec_fixed32, pb_dec_fixed64.
  function DecodeNum(t: LType, b: Bytes): (g: Got<Value>)
    requires Packable(t)
    ensures g.Got? ==> |g.rest| <= |b|
  {
    match t
    case TBool =>
      var p := Decode32(b);
      if p.Parsed? then Got(Num(if p.value != 0 then 1 else 0), p.rest) else Bad
    case TInt(size) =>
      var p := GetVarint64(b);
      if p.Malformed? then Bad
      else
        // fields of up to 32 bits take the sign from bit 31
        var n := if size == 8 then ToSigned(p.value, TWO_63) else ToSigned(p.value % TWO_32, TWO_31);
        InSize(n, -Half(size), Half(size), p.rest)
    case TUInt(size) =>
      var p := GetVarint64(b);
      if p.Malformed? then Bad else InSize(p.value, 0, 2 * Half(size), p.rest)
    case TSInt(size) =>
      var p := GetVarint64(b);
      if p.Malformed? then Bad else InSize(UnZigZag(p.value), -Half(size), Half(size), p.rest)
    case TFixed32 => DecodeFixed(4, b)
    case TFixed64 => DecodeFixed(8, b)
  }

  // pb_make_string_substream: the length-limited part, and what follows it.
  function Substream(b: Bytes): (g: Got<Bytes>)
    ensures g.Got? ==> |g.value| + |g.rest| < |b|
  {
    var p := Decode32(b);
    if p.Malformed? || |p.rest| < p.value then Bad else Got(p.rest[..p.value], p.rest[p.value..])
  }

  // A C string ends at the first NUL.
  function UpToNul(b: Bytes): (s: Bytes) {
    if b == [] || b[0] == 0 then [] else [b[0]] + UpToNul(b[1..])
  }

  // pb_dec_bytes, pb_dec_string, pb_dec_fixed_length_bytes.
  function DecodeData(t: LType, b: Bytes): (g: Got<Value>)
    requires t.TBytes? || t.TString? || t.TFixedBytes?
    ensures g.Got? ==> |g.rest| <= |b|
  {
    var p := Decode32(b);
    if p.Malformed? then Bad
    else if !t.TString? && p.value > PB_SIZE_MAX then Bad  // bytes overflow
    else if t.TFixedBytes? && p.value == 0 then Got(Zero(t), p.rest)  // empty means all zeros
    else if t.TFixedBytes? && p.value != t.dataSize then Bad
    else if !t.TFixedBytes? && p.value + 1 > t.dataSize then Bad  // bytes overflow, string overflow
    else if |p.rest| < p.value then Bad
    else
      var data := p.rest[..p.value];
      Got(Data(if t.TString? then UpToNul(data) else data), p.rest[p.value..])
  }

  // pb_skip_varint.
  function SkipVarint(b: Bytes): (g: Got<()>)
    ensures g.Got? ==> |g.rest| <= |b|
  {
    if b == [] then Bad else if b[0] >= 128 then SkipVarint(b[1..]) else Got((), b[1..])
  }

  // pb_skip_field.
  function SkipField(wireType: nat, b: Bytes): (g: Got<()>)
    ensures g.Got? ==> |g.rest| <= |b|
  {
    if wireType == WT_VARINT then SkipVarint(b)
    else if wireType == WT_64BIT then (if |b| < 8 then Bad else Got((), b[8..]))
    else if wireType == WT_STRING then
      var s := Substream(b);
      if s.Bad? then Bad else Got((), s.rest)
    else if wireType == WT_32BIT then (if |b| < 4 then Bad else Got((), b[4..]))
    else Bad
  }

  // ------------------------------------------------------------------ a message

  // The struct so far, the required fields seen (by required_field_index), the fixed-count
  // field being received, and where the field iterator is.
  datatype Progress = Progress(slots: Slots, seen: set<nat>, fixed: Option<nat>, at: nat)

  function Start(t: LType): (s: Progress)
    requires t.TMessage?
  {
    Progress(Defaults(t, |t.fields|), {}, None, 0)
  }

  // The field with this tag; |fields| when there is none.
  function Find(fs: seq<Field>, tag: nat, from: nat): (k: nat)
    requires from <= |fs|
    ensures from <= k <= |fs|
    decreases |fs| - from
  {
    if from == |fs| || fs[from].tag == tag then from else Find(fs, tag, from + 1)
  }

  // pb_field_iter_find: from where the iterator is, round to there.
  function FindFrom(fs: seq<Field>, tag: nat, at: nat): (k: nat)
    ensures k <= |fs|
  {
    if at <= |fs| && Find(fs, tag, at) < |fs| then Find(fs, tag, at) else Find(fs, tag, 0)
  }

  // required_field_index
  function RequiredIndex(fs: seq<Field>, k: nat): (n: nat)
    requires k <= |fs|
  {
    if k == 0 then 0 else RequiredIndex(fs, k - 1) + if fs[k - 1].rule.Required? then 1 else 0
  }

  // The last fixed-count field is complete.
  predicate FixedComplete(fs: seq<Field>, s: Progress) {
    s.fixed.Some? ==>
      s.fixed.value < |fs| && s.fixed.value < |s.slots| && |s.slots[s.fixed.value]| == MaxCount(fs[s.fixed.value])
  }

  const MAX_REQUIRED: nat := 64

  // Each of the first 64 required fields was seen.
  predicate RequiredSeen(fs: seq<Field>, seen: set<nat>) {
    forall r: nat | r < RequiredIndex(fs, |fs|) && r < MAX_REQUIRED :: r in seen
  }

  // Field k has been found, and is marked in fields_seen if it is one of the first 64 required.
  function Marked(fs: seq<Field>, s: Progress, k: nat): (r: Progress)
    requires k < |fs|
  {
    var r := RequiredIndex(fs, k);
    s.(seen := if fs[k].rule.Required? && r < MAX_REQUIRED then s.seen + {r} else s.seen, at := k)
  }

  function Finished(t: LType, s: Progress): (r: Option<Slots>)
    requires t.TMessage?
  {
    if FixedComplete(t.fields, s) && RequiredSeen(t.fields, s.seen) then Some(s.slots) else None
  }

  // A repeated fixed-count field starts over unless it goes on.
  function WithFixed(fs: seq<Field>, s: Progress, k: nat): (r: Option<Progress>)
    requires k < |fs| == |s.slots|
    ensures r.Some? ==> |r.value.slots| == |s.slots|
  {
    if !fs[k].rule.FixedCount? || s.fixed == Some(k) then Some(s)
    else if !FixedComplete(fs, s) then None
    else Some(s.(slots := s.slots[k := []], fixed := Some(k)))
  }

  // The other members of a union lose their value.
  function Chosen(fs: seq<Field>, slots: Slots, k: nat, v: Value): (r: Slots)
    requires k < |fs| == |slots|
    ensures |r| == |slots|
  {
    seq(|slots|, i requires 0 <= i < |slots| =>
      if i == k then [v] else if SameUnion(fs[k], fs[i]) then [] else slots[i])
  }

  // Storing a value that was read for field k: decode_static_field.
  function Store(fs: seq<Field>, s: Progress, k: nat, v: Value): (r: Progress)
    requires k < |fs| == |s.slots|
    ensures |r.slots| == |s.slots|
  {
    match fs[k].rule
    case Required => s.(slots := s.slots[k := [v]])
    case Singular => s.(slots := s.slots[k := if IsZero(fs[k].ltype, v) then [] else [v]])
    case OneOf(_) => s.(slots := Chosen(fs, s.slots, k, v))
    case Optional => s.(slots := s.slots[k := [v]])
    case _ => s.(slots := s.slots[k := s.slots[k] + [v]])
  }

  // The elements of a packed array, after those there are.
  function DecodePacked(t: LType, b: Bytes, max: nat, items: seq<Value>): (r: Option<seq<Value>>)
    requires Packable(t)
    decreases if |items| < max then max - |items| else 0
  {
    if b == [] then Some(items)
    else if |items| >= max then None  // array overflow
    else
      var g := DecodeNum(t, b);
      if g.Bad? then None else DecodePacked(t, g.rest, max, items + [g.value])
  }

  // What a submessage is decoded on top of: what is there, or a fresh one for a new array
  // entry or another member of a union.
  function Base(f: Field, items: seq<Value>): (m: Slots)
    requires f.ltype.TMessage?
    ensures |m| == |f.ltype.fields|
  {
    if !IsArray(f) && |items| > 0 && items[0].Struct? && |items[0].slots| == |f.ltype.fields| then items[0].slots
    else Defaults(f.ltype, |f.ltype.fields|)
  }

  function DecodeValue(f: Field, b: Bytes, items: seq<Value>): (g: Got<Value>)
    ensures g.Got? ==> |g.rest| <= |b|
    decreases f.ltype, 1, |b|
  {
    match f.ltype
    case TMessage(fs) =>
      var s := Substream(b);
      if s.Bad? then Bad
      else
        var m := DecodeLoop(f.ltype, s.value, Progress(Base(f, items), {}, None, 0));
        if m.None? then Bad else Got(Struct(m.value), s.rest)
    case TBytes(_) => DecodeData(f.ltype, b)
    case TString(_) => DecodeData(f.ltype, b)
    case TFixedBytes(_) => DecodeData(f.ltype, b)
    case _ => DecodeNum(f.ltype, b)
  }

  // decode_static_field for field k.
  function DecodeStatic(t: LType, k: nat, wireType: nat, b: Bytes, p: Progress): (g: Got<Progress>)
    requires t.TMessage? && k < |t.fields| == |p.slots|
    ensures g.Got? ==> |g.rest| <= |b| && |g.value.slots| == |p.slots|
    decreases t, 0, |b|
  {
    var fs, f := t.fields, t.fields[k];
    if IsArray(f) && wireType == WT_STRING && Packable(f.ltype) then
      var sub := Substream(b);
      if sub.Bad? then Bad
      else
        var items := DecodePacked(f.ltype, sub.value, MaxCount(f), p.slots[k]);
        if items.None? then Bad else Got(p.(slots := p.slots[k := items.value]), sub.rest)
    else if IsArray(f) && |p.slots[k]| >= MaxCount(f) then Bad
    else
      var v := DecodeValue(f, b, p.slots[k]);
      if v.Bad? then Bad else Got(Store(fs, p, k, v.value), v.rest)
  }

  // What pb_decode_noinit does once it has found field k.
  function DecodeField(t: LType, k: nat, wireType: nat, b: Bytes, s: Progress): (g: Got<Progress>)
    requires t.TMessage? && k < |t.fields| == |s.slots|
    ensures g.Got? ==> |g.rest| <= |b| && |g.value.slots| == |s.slots|
    decreases t, 1, |b|
  {
    var ready := WithFixed(t.fields, s, k);
    if ready.None? then Bad else DecodeStatic(t, k, wireType, b, Marked(t.fields, ready.value, k))
  }

  // The loop of pb_decode_noinit.
  function DecodeLoop(t: LType, b: Bytes, s: Progress): (r: Option<Slots>)
    requires t.TMessage? && |s.slots| == |t.fields|
    ensures r.Some? ==> |r.value| == |t.fields|
    decreases t, 1, |b|
  {
    if b == [] then Finished(t, s)
    else
      var tag := Decode32(b);
      if tag.Malformed? then None
      else if tag.value == 0 then Finished(t, s)  // 0-terminated message
      else
        var k := FindFrom(t.fields, tag.value / 8, s.at);
        if k == |t.fields| then
          if t.fields == [] && tag.value / 8 == 0 then
            // an empty message: the iterator takes the terminator for a required bool with tag 0
            var g := DecodeNum(TBool, tag.rest);
            if g.Bad? then None else DecodeLoop(t, g.rest, s.(seen := s.seen + {0}))
          else
            var g := SkipField(tag.value % 8, tag.rest);
            if g.Bad? then None else DecodeLoop(t, g.rest, s)
        else
          var g := DecodeField(t, k, tag.value % 8, tag.rest, s);
          if g.Bad? then None else DecodeLoop(t, g.rest, g.value)
  }

  // pb_decode.
  function Decode(t: LType, b: Bytes): (r: Option<Slots>)
    requires t.TMessage?
  {
    DecodeLoop(t, b, Start(t))
  }

  // ------------------------------------------------------------------ required fields

  lemma {:induction false} IndexGrows(fs: seq<Field>, j: nat, k: nat)
    requires j < k <= |fs|
    ensures RequiredIndex(fs, j) <= RequiredIndex(fs, k)
    ensures fs[j].rule.Required? ==> RequiredIndex(fs, j) < RequiredIndex(fs, k)
  {
    if j < k - 1 {
      IndexGrows(fs, j, k - 1);
    }
  }

  // No two required fields have the same index.
  lemma IndexIsUnique(fs: seq<Field>, j: nat, k: nat)
    requires j < |fs| && k < |fs| && fs[j].rule.Required? && fs[k].rule.Required?
    requires RequiredIndex(fs, j) == RequiredIndex(fs, k)
    ensures j == k
  {
    if j < k {
      IndexGrows(fs, j, k);
    } else if k < j {
      IndexGrows(fs, k, j);
    }
  }

  // The fields whose tag the loop met.
  function Met(t: LType, b: Bytes, s: Progress): (ks: set<nat>)
    requires t.TMessage? && |s.slots| == |t.fields|
    decreases |b|
  {
    if b == [] then {}
    else
      var tag := Decode32(b);
      if tag.Malformed? || tag.value == 0 then {}
      else
        var k := FindFrom(t.fields, tag.value / 8, s.at);
        if k == |t.fields| then
          if t.fields == [] then {}
          else
            var g := SkipField(tag.value % 8, tag.rest);
            if g.Bad? then {} else Met(t, g.rest, s)
        else
          var g := DecodeField(t, k, tag.value % 8, tag.rest, s);
          if g.Bad? then {} else {k} + Met(t, g.rest, g.value)
  }

  lemma OnlyThisFieldIsSeen(t: LType, k: nat, wireType: nat, b: Bytes, s: Progress)
    requires t.TMessage? && k < |t.fields| == |s.slots|
    ensures var g := DecodeField(t, k, wireType, b, s);
            g.Got? ==> g.value.seen <= s.seen + if t.fields[k].rule.Required? then {RequiredIndex(t.fields, k)} else {}
  {
    hide DecodeValue, Substream, DecodePacked, Chosen, FixedComplete, IsZero, RequiredIndex;
  }

  lemma {:induction false} SeenIsMet(t: LType, b: Bytes, s: Progress)
    requires t.TMessage? && |s.slots| == |t.fields| && DecodeLoop(t, b, s).Some?
    ensures forall k: nat | k < |t.fields| && t.fields[k].rule.Required? && RequiredIndex(t.fields, k) < MAX_REQUIRED ::
              RequiredIndex(t.fields, k) in s.seen || k in Met(t, b, s)
    decreases |b|
  {
    hide DecodeField, Decode32, Find, SkipField, DecodeNum, RequiredIndex, FixedComplete;
    var fs := t.fields;
    if b == [] || Decode32(b).value == 0 {
      SeenAtTheEnd(fs, s.seen);
    } else if fs != [] {
      var tag := Decode32(b);
      var k := FindFrom(fs, tag.value / 8, s.at);
      if k < |fs| {
        var g := DecodeField(t, k, tag.value % 8, tag.rest, s);
        OnlyThisFieldIsSeen(t, k, tag.value % 8, tag.rest, s);
        SeenIsMet(t, g.rest, g.value);
        forall j: nat | j < |fs| && fs[j].rule.Required? && RequiredIndex(fs, j) < MAX_REQUIRED
          ensures RequiredIndex(fs, j) in s.seen || j in Met(t, b, s)
        {
          if RequiredIndex(fs, j) !in s.seen && j !in Met(t, g.rest, g.value) {
            IndexIsUnique(fs, j, k);
          }
        }
      } else {
        SeenIsMet(t, SkipField(tag.value % 8, tag.rest).rest, s);
      }
    }
  }

  lemma SeenAtTheEnd(fs: seq<Field>, seen: set<nat>)
    requires RequiredSeen(fs, seen)
    ensures forall k: nat | k < |fs| && fs[k].rule.Required? && RequiredIndex(fs, k) < MAX_REQUIRED ::
              RequiredIndex(fs, k) in seen
  {
    forall k: nat | k < |fs| && fs[k].rule.Required?
      ensures RequiredIndex(fs, k) < RequiredIndex(fs, |fs|)
    {
      IndexGrows(fs, k, |fs|);
    }
  }

  // Decoding succeeds only if each of the first 64 required fields is there.
  lemma RequiredFieldsAreThere(t: LType, b: Bytes, k: nat)
    requires t.TMessage? && k < |t.fields| && t.fields[k].rule.Required? && RequiredIndex(t.fields, k) < MAX_REQUIRED
    ensures Decode(t, b).Some? ==> k in Met(t, b, Start(t))
  {
    hide DecodeLoop, Met;
    if Decode(t, b).Some? {
      SeenIsMet(t, b, Start(t));
    }
  }
}
