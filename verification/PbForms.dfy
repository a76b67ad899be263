// A message may be written in many ways: its fields in any order, arrays of numbers packed or
// not, and fields in between that this descriptor does not have (Protocol Buffers Encoding
// guide, sections "Packed Repeated Fields" and "Field Order").  nanopb/pb_decode.c makes the same
// message of all of them.
module PbForms {
  import opened Coding
  import opened Lookup
  import opened PbVarint
  import opened PbMessage
  import opened PbDecode
  import opened PbRoundTrip
  import opened PbWire
  import opened PbUnknown
  import Safety = PbSafety

  // A field of the message, as the encoder writes it or with a tag for each value; or a field of
  // some other descriptor.
  datatype Piece = Own(k: nat, packed: bool) | Foreign(f: Field, items: seq<Value>)

  function PieceBytes(t: LType, m: Slots, p: Piece): (b: Option<Bytes>)
    requires t.TMessage? && |m| == |t.fields| && (p.Own? ==> p.k < |m|)
  {
    match p
    case Own(k, packed) => if packed then EncodeField(t.fields[k], m[k]) else EncodeTagged(t.fields[k], m[k], 0)
    case Foreign(f, items) => EncodeField(f, items)
  }

  ghost predicate IsPiece(t: LType, p: Piece)
    requires t.TMessage?
  {
    match p
    case Own(k, _) => k < |t.fields|
    case Foreign(f, items) =>
      0 < f.tag <= PB_SIZE_MAX && Lacks(t.fields, f.tag) && WellFormed(f.ltype) && AllHeld(f.ltype, items) && MaxCount(f) <= PB_SIZE_MAX
  }

  function OwnedBy(p: Piece): (ks: set<nat>) {
    if p.Own? then {p.k} else {}
  }

  function Owned(ps: seq<Piece>): (ks: set<nat>) {
    if ps == [] then {} else OwnedBy(ps[0]) + Owned(ps[1..])
  }

  // Pieces none of which is of a field already there, or of a field twice.
  ghost predicate ArePieces(t: LType, ps: seq<Piece>, done: set<nat>)
    requires t.TMessage?
    decreases |ps|
  {
    ps == [] || (IsPiece(t, ps[0]) && OwnedBy(ps[0]) !! done && ArePieces(t, ps[1..], done + OwnedBy(ps[0])))
  }

  ghost function Written(t: LType, m: Slots, ps: seq<Piece>, done: set<nat>): (b: Option<Bytes>)
    requires t.TMessage? && |m| == |t.fields| && ArePieces(t, ps, done)
    decreases |ps|
  {
    if ps == [] then Some([]) else Join(PieceBytes(t, m, ps[0]), Written(t, m, ps[1..], done + OwnedBy(ps[0])))
  }

  // Every length that has to be read in this piece is below 2^32.
  predicate Readable(t: LType, m: Slots, p: Piece)
    requires t.TMessage? && |m| == |t.fields| && (p.Own? ==> p.k < |m|)
  {
    match p
    case Own(k, _) => FieldFits(t.fields[k], m[k])
    case Foreign(f, items) => forall j | 0 <= j < |items| :: LengthFits(f.ltype, items[j])
  }

  ghost predicate AllReadable(t: LType, m: Slots, ps: seq<Piece>, done: set<nat>)
    requires t.TMessage? && |m| == |t.fields| && ArePieces(t, ps, done)
    decreases |ps|
  {
    ps == [] || (Readable(t, m, ps[0]) && AllReadable(t, m, ps[1..], done + OwnedBy(ps[0])))
  }

  // ------------------------------------------------------------------ one piece

  // An array of numbers with a tag for each of them.
  lemma UnpackedField(t: LType, m: Slots, done: set<nat>, k: nat, b: Bytes, rest: Bytes, s: Progress) returns (s': Progress)
    requires t.TMessage? && WellFormed(t) && Holds(t, Struct(m)) && k < |m| == |t.fields|
    requires Received(t.fields, m, done, s) && k !in done
    requires IsArray(t.fields[k]) && Packable(t.fields[k].ltype) && EncodeTagged(t.fields[k], m[k], 0) == Some(b)
    ensures Received(t.fields, m, done + {k}, s') && DecodeLoop(t, b + rest, s) == DecodeLoop(t, rest, s')
  {
    hide Received, AtElement, DecodeLoop, EncodeTagged, Holds, WellFormed, WithFixed, HoldsItems, DefaultItems, DefaultFits;
    ItemsHeld(t, m, k);
    if m[k] == [] {
      EmptyIsDefault(t.fields[k]);
      NoTags(t.fields[k]);
      assert b + rest == rest;
      SkipsField(t.fields, m, done, k, s);
      s' := s;
    } else {
      var p := ArrayStarts(t.fields, m, done, k, s);
      assert FieldFits(t.fields[k], m[k]);
      s' := TaggedField(t, m, done, k, 0, b, rest, s, p);
    }
  }

  lemma NoTags(f: Field)
    ensures EncodeTagged(f, [], 0) == Some([])
  {
  }

  // What the encoder does not pack is the same in both forms.
  lemma OneForm(t: LType, m: Slots, k: nat)
    requires t.TMessage? && Holds(t, Struct(m)) && k < |m| == |t.fields|
    requires !(IsArray(t.fields[k]) && Packable(t.fields[k].ltype))
    ensures EncodeTagged(t.fields[k], m[k], 0) == EncodeField(t.fields[k], m[k])
  {
    assert HoldsItems(t.fields[k], m[k]);
    hide Holds, EncodeTagged, Packable;
  }

  lemma OwnPiece(t: LType, m: Slots, done: set<nat>, k: nat, packed: bool, b: Bytes, rest: Bytes, s: Progress) returns (s': Progress)
    requires t.TMessage? && WellFormed(t) && Holds(t, Struct(m)) && k < |m| == |t.fields|
    requires Received(t.fields, m, done, s) && k !in done
    requires PieceBytes(t, m, Own(k, packed)) == Some(b) && |b| < TWO_63
    ensures |s.slots| == |t.fields|
    ensures if FieldFits(t.fields[k], m[k])
            then Received(t.fields, m, done + {k}, s') && |s'.slots| == |t.fields| && DecodeLoop(t, b + rest, s) == DecodeLoop(t, rest, s')
            else DecodeLoop(t, b + rest, s) == None
  {
    SlotsReceived(t.fields, m, done, s);
    hide Received, DecodeLoop, EncodeTagged, EncodeField, Holds, WellFormed, Packable;
    if !packed && IsArray(t.fields[k]) && Packable(t.fields[k].ltype) {
      NumbersFit(t.fields[k], m[k]);
      s' := UnpackedField(t, m, done, k, b, rest, s);
      SlotsReceived(t.fields, m, done + {k}, s');
    } else {
      if !packed {
        OneForm(t, m, k);
      }
      s' := KnownField(t, m, done, k, s, b, rest);
    }
  }

  lemma NumbersFit(f: Field, items: seq<Value>)
    requires Packable(f.ltype)
    ensures FieldFits(f, items)
  {
  }

  lemma OnePiece(t: LType, m: Slots, done: set<nat>, p: Piece, b: Bytes, rest: Bytes, s: Progress) returns (s': Progress)
    requires t.TMessage? && WellFormed(t) && Holds(t, Struct(m)) && |m| == |t.fields| && IsPiece(t, p)
    requires Received(t.fields, m, done, s) && OwnedBy(p) !! done
    requires PieceBytes(t, m, p) == Some(b) && |b| < TWO_63
    ensures |s.slots| == |t.fields|
    ensures if Readable(t, m, p)
            then Received(t.fields, m, done + OwnedBy(p), s') && |s'.slots| == |t.fields| && DecodeLoop(t, b + rest, s) == DecodeLoop(t, rest, s')
            else DecodeLoop(t, b + rest, s) == None
  {
    SlotsReceived(t.fields, m, done, s);
    hide Received, DecodeLoop, EncodeTagged, EncodeField, Holds, WellFormed, FieldFits, LengthFits, AllHeld;
    match p
    case Own(k, packed) => s' := OwnPiece(t, m, done, k, packed, b, rest, s);
    case Foreign(f, items) =>
      UnknownFieldIsSkipped(t, f, items, rest, s);
      assert done + {} == done;
      s' := s;
  }

  // ------------------------------------------------------------------ all of them

  lemma FirstPiece(t: LType, m: Slots, ps: seq<Piece>, done: set<nat>)
    requires t.TMessage? && |m| == |t.fields| && ps != [] && ArePieces(t, ps, done) && Written(t, m, ps, done).Some?
    ensures IsPiece(t, ps[0]) && OwnedBy(ps[0]) !! done && ArePieces(t, ps[1..], done + OwnedBy(ps[0]))
    ensures var first, rest := PieceBytes(t, m, ps[0]), Written(t, m, ps[1..], done + OwnedBy(ps[0]));
            first.Some? && rest.Some? && Written(t, m, ps, done).value == first.value + rest.value
    ensures AllReadable(t, m, ps, done) <==> Readable(t, m, ps[0]) && AllReadable(t, m, ps[1..], done + OwnedBy(ps[0]))
    ensures done + Owned(ps) == (done + OwnedBy(ps[0])) + Owned(ps[1..])
  {
    hide PieceBytes, Readable;
  }

  // The end of the bytes, or a zero where a tag should be: messages may end with one.
  predicate AtTheEnd(tail: Bytes) {
    tail == [] || tail[0] == 0
  }

  lemma TheEnd(t: LType, tail: Bytes, s: Progress)
    requires t.TMessage? && |s.slots| == |t.fields| && AtTheEnd(tail)
    ensures DecodeLoop(t, tail, s) == Finished(t, s)
  {
    hide Finished;
  }

  lemma NoPieces(t: LType, m: Slots, done: set<nat>, tail: Bytes)
    requires t.TMessage? && |m| == |t.fields|
    ensures ArePieces(t, [], done) && Written(t, m, [], done) == Some([]) && AllReadable(t, m, [], done)
    ensures [] + tail == tail && done + Owned([]) == done
  {
  }

  lemma {:induction false} PiecesDecode(t: LType, m: Slots, done: set<nat>, ps: seq<Piece>, tail: Bytes, s: Progress) returns (s': Progress)
    requires t.TMessage? && WellFormed(t) && Holds(t, Struct(m)) && |m| == |t.fields|
    requires Received(t.fields, m, done, s) && ArePieces(t, ps, done)
    requires Written(t, m, ps, done).Some? && |Written(t, m, ps, done).value| < TWO_63
    ensures |s.slots| == |t.fields|
    ensures if AllReadable(t, m, ps, done)
            then Received(t.fields, m, done + Owned(ps), s') && |s'.slots| == |t.fields| &&
                 DecodeLoop(t, Written(t, m, ps, done).value + tail, s) == DecodeLoop(t, tail, s')
            else DecodeLoop(t, Written(t, m, ps, done).value + tail, s) == None
    decreases |ps|
  {
    SlotsReceived(t.fields, m, done, s);
    hide Received, DecodeLoop, Holds, WellFormed, ArePieces, Written, AllReadable, Readable, PieceBytes, IsPiece, OwnedBy, Owned;
    s' := s;
    if ps == [] {
      NoPieces(t, m, done, tail);
    } else {
      FirstPiece(t, m, ps, done);
      var first, rest := PieceBytes(t, m, ps[0]).value, Written(t, m, ps[1..], done + OwnedBy(ps[0])).value;
      ConcatAssociates(first, rest, tail);
      s' := OnePiece(t, m, done, ps[0], first, rest + tail, s);
      if Readable(t, m, ps[0]) {
        s' := PiecesDecode(t, m, done + OwnedBy(ps[0]), ps[1..], tail, s');
      }
    }
  }

  // Any fields of a message, each once and in any order, arrays of numbers packed or not, among
  // fields the descriptor lacks, to the end of the bytes or to a zero and whatever follows it:
  // decoding gives just those fields, and the others as in a fresh struct, if and only if every
  // length is below 2^32 and no required field is missing (of the first 64, which are the ones
  // that are checked).
  lemma AnyFormDecodes(t: LType, m: Slots, ps: seq<Piece>, tail: Bytes)
    requires t.TMessage? && WellFormed(t) && Holds(t, Struct(m)) && |m| == |t.fields| && ArePieces(t, ps, {})
    requires Written(t, m, ps, {}).Some? && |Written(t, m, ps, {}).value| < TWO_63 && AtTheEnd(tail)
    ensures Decode(t, Written(t, m, ps, {}).value + tail) ==
            if AllReadable(t, m, ps, {}) && NoneMissing(t.fields, Owned(ps)) then Some(Partly(t.fields, m, Owned(ps))) else None
  {
    StartsEmpty(t, m);
    assert {} + Owned(ps) == Owned(ps);
    hide Received, DecodeLoop, Holds, WellFormed, NoneMissing, Partly, ArePieces, Written, AllReadable, Owned, AtTheEnd, Finished;
    var s := PiecesDecode(t, m, {}, ps, tail, Start(t));
    if AllReadable(t, m, ps, {}) {
      TheEnd(t, tail, s);
      FinishesWith(t, m, Owned(ps), s);
    }
  }

  // ------------------------------------------------------------------ a submessage in two parts

  lemma {:induction false} WrittenConcat(t: LType, m: Slots, a: seq<Piece>, b: seq<Piece>, done: set<nat>)
    requires t.TMessage? && |m| == |t.fields| && ArePieces(t, a, done) && ArePieces(t, b, done + Owned(a))
    requires Written(t, m, a, done).Some? && Written(t, m, b, done + Owned(a)).Some?
    ensures ArePieces(t, a + b, done) && Owned(a + b) == Owned(a) + Owned(b)
    ensures Written(t, m, a + b, done) == Some(Written(t, m, a, done).value + Written(t, m, b, done + Owned(a)).value)
    ensures AllReadable(t, m, a + b, done) <==> AllReadable(t, m, a, done) && AllReadable(t, m, b, done + Owned(a))
    decreases |a|
  {
    hide PieceBytes, Readable, AllHeld;
    if a == [] {
      assert a + b == b && done + {} == done && {} + Owned(b) == Owned(b);
      assert [] + Written(t, m, b, done).value == Written(t, m, b, done).value;
    } else {
      var done' := done + OwnedBy(a[0]);
      assert (a + b)[0] == a[0] && (a + b)[1..] == a[1..] + b;
      assert done + Owned(a) == done' + Owned(a[1..]);
      FirstPiece(t, m, a, done);
      WrittenConcat(t, m, a[1..], b, done');
      ConcatAssociates(PieceBytes(t, m, a[0]).value, Written(t, m, a[1..], done').value, Written(t, m, b, done + Owned(a)).value);
    }
  }

  ghost predicate NothingRequired(fs: seq<Field>) {
    forall k | 0 <= k < |fs| :: !fs[k].rule.Required?
  }

  lemma NoMarks(fs: seq<Field>, done: set<nat>)
    requires NothingRequired(fs)
    ensures Marks(fs, done) == {} && NoneMissing(fs, done)
  {
    hide RequiredIndex;
  }

  // A message that has some of its fields already.
  lemma Continues(t: LType, m: Slots, done: set<nat>, s: Progress)
    requires t.TMessage? && |m| == |t.fields| && NothingRequired(t.fields) && s == Progress(Partly(t.fields, m, done), {}, None, 0)
    ensures Received(t.fields, m, done, s)
  {
    NoMarks(t.fields, done);
    hide DefaultItems, Marks;
  }

  lemma NothingYet(t: LType, m: Slots)
    requires t.TMessage? && |m| == |t.fields|
    ensures Partly(t.fields, m, {}) == Defaults(t, |t.fields|)
  {
    DefaultsAt(t, |t.fields|);
    hide DefaultItems, Defaults;
  }

  // Decoding some of the fields of a message onto others gives both.
  lemma PartsAddUp(t: LType, m: Slots, done: set<nat>, ps: seq<Piece>, b: Bytes)
    requires t.TMessage? && WellFormed(t) && Holds(t, Struct(m)) && |m| == |t.fields| && NothingRequired(t.fields)
    requires ArePieces(t, ps, done) && Written(t, m, ps, done) == Some(b) && |b| < TWO_63 && AllReadable(t, m, ps, done)
    ensures DecodeLoop(t, b, Progress(Partly(t.fields, m, done), {}, None, 0)) == Some(Partly(t.fields, m, done + Owned(ps)))
  {
    var s := Progress(Partly(t.fields, m, done), {}, None, 0);
    Continues(t, m, done, s);
    NoMarks(t.fields, done + Owned(ps));
    hide Received, DecodeLoop, Holds, WellFormed, NoneMissing, Partly, ArePieces, Written, AllReadable, Owned, Marks, NothingRequired;
    hide Finished;
    var s' := PiecesDecode(t, m, done, ps, [], s);
    assert b + [] == b;
    TheEnd(t, [], s');
    FinishesWith(t, m, done + Owned(ps), s');
  }

  // A submessage of field k behind its tag, read onto what is there.
  lemma SubmessageRead(t: LType, k: nat, b: Bytes, rest: Bytes, s: Progress, base: Slots, m: Slots)
    requires t.TMessage? && WellFormed(t) && k < |t.fields| == |s.slots| && !IsArray(t.fields[k]) && t.fields[k].ltype.TMessage?
    requires |b| <= MAX_UINT32 && base == Base(t.fields[k], s.slots[k])
    requires DecodeLoop(t.fields[k].ltype, b, Progress(base, {}, None, 0)) == Some(m)
    ensures DecodeLoop(t, TagBytes(t.fields[k], 2) + (WithLength(b) + rest), s) ==
            DecodeLoop(t, rest, Store(t.fields, Marked(t.fields, s, k), k, Struct(m)))
  {
    LengthBack(b, rest);
    SubmessageValue(t.fields[k], b, rest, s.slots[k], base, m);
    hide DecodeLoop, TagBytes, Substream, WithLength, Base, Store, RequiredIndex, DecodeValue;
    TagLeadsToField(t, k, 2, WithLength(b) + rest, s);
  }

  lemma SubmessageValue(f: Field, b: Bytes, rest: Bytes, items: seq<Value>, base: Slots, m: Slots)
    requires f.ltype.TMessage? && |b| <= MAX_UINT32 && base == Base(f, items)
    requires DecodeLoop(f.ltype, b, Progress(base, {}, None, 0)) == Some(m)
    ensures DecodeValue(f, WithLength(b) + rest, items) == Got(Struct(m), rest)
  {
    LengthBack(b, rest);
    hide DecodeLoop, Substream, WithLength, Base;
  }

  // Storing one value over another, of a field that is not an array.
  lemma StoredOver(fs: seq<Field>, s: Progress, k: nat, u: Value, v: Value)
    requires k < |fs| == |s.slots| && !IsArray(fs[k])
    ensures var s' := Store(fs, Marked(fs, s, k), k, u);
            Store(fs, Marked(fs, s', k), k, v) == Store(fs, Marked(fs, s, k), k, v)
  {
    hide IsZero, RequiredIndex;
  }

  // What the second part is read onto is the first.
  lemma BaseIsFirst(f: Field, fs: seq<Field>, s: Progress, k: nat, x: Slots)
    requires k < |fs| == |s.slots| && fs[k] == f && f.ltype.TMessage? && !IsArray(f) && |x| == |f.ltype.fields|
    requires WellFormed(f.ltype) && Holds(f.ltype, Struct(x))
    ensures Base(f, Store(fs, Marked(fs, s, k), k, Struct(x)).slots[k]) == x
  {
    if f.rule.Singular? && IsZero(f.ltype, Struct(x)) {
      ZeroIsDefault(f.ltype, Struct(x));
    }
    hide Defaults, RequiredIndex, Holds, WellFormed;
  }

  lemma PartlyHolds(t: LType, m: Slots, done: set<nat>)
    requires t.TMessage? && WellFormed(t) && Holds(t, Struct(m)) && |m| == |t.fields|
    ensures Holds(t, Struct(Partly(t.fields, m, done)))
  {
    var r := Partly(t.fields, m, done);
    forall k | 0 <= k < |r|
      ensures HoldsItems(t.fields[k], r[k])
    {
      assert WellFormed(t.fields[k].ltype) && DefaultFits(t.fields[k]) && HoldsItems(t.fields[k], m[k]);
      Safety.DefaultItemsHold(t.fields[k]);
    }
    forall i, j | 0 <= i < j < |r| && SameUnion(t.fields[i], t.fields[j])
      ensures r[i] == [] || r[j] == []
    {
      NoDefault(t.fields[i]);
      NoDefault(t.fields[j]);
    }
    hide HoldsItems, DefaultItems;
  }

  // A submessage that comes in two parts is put together: the second is read onto the first, and
  // the result is that of one submessage with the fields of both.  (A submessage with required
  // fields cannot be parted, as each part has to have them all.)
  lemma SentInTwoParts(t: LType, k: nat, m: Slots, ps1: seq<Piece>, ps2: seq<Piece>, rest: Bytes, s: Progress)
    requires t.TMessage? && WellFormed(t) && k < |t.fields| == |s.slots| && s.slots[k] == DefaultItems(t.fields[k])
    requires !IsArray(t.fields[k]) && t.fields[k].ltype.TMessage? && NothingRequired(t.fields[k].ltype.fields)
    requires var sub := t.fields[k].ltype;
             && Holds(sub, Struct(m)) && |m| == |sub.fields|
             && ArePieces(sub, ps1, {}) && ArePieces(sub, ps2, {} + Owned(ps1))
             && Written(sub, m, ps1, {}).Some? && Written(sub, m, ps2, {} + Owned(ps1)).Some?
             && AllReadable(sub, m, ps1, {}) && AllReadable(sub, m, ps2, {} + Owned(ps1))
             && |Written(sub, m, ps1, {}).value| + |Written(sub, m, ps2, {} + Owned(ps1)).value| <= MAX_UINT32
    ensures var sub, tag := t.fields[k].ltype, TagBytes(t.fields[k], 2);
            var b1, b2 := Written(sub, m, ps1, {}).value, Written(sub, m, ps2, {} + Owned(ps1)).value;
            DecodeLoop(t, tag + (WithLength(b1) + (tag + (WithLength(b2) + rest))), s) ==
            DecodeLoop(t, tag + (WithLength(b1 + b2) + rest), s)
  {
    var f, sub := t.fields[k], t.fields[k].ltype;
    var b1, b2 := Written(sub, m, ps1, {}).value, Written(sub, m, ps2, {} + Owned(ps1)).value;
    var x, y := Partly(sub.fields, m, {} + Owned(ps1)), Partly(sub.fields, m, {} + Owned(ps1) + Owned(ps2));
    assert WellFormed(sub);
    NothingYet(sub, m);
    BaseOfDefault(f);
    PartsAddUp(sub, m, {}, ps1, b1);
    PartsAddUp(sub, m, {} + Owned(ps1), ps2, b2);
    WrittenConcat(sub, m, ps1, ps2, {});
    PartsAddUp(sub, m, {}, ps1 + ps2, b1 + b2);
    assert {} + Owned(ps1 + ps2) == {} + Owned(ps1) + Owned(ps2);
    PartlyHolds(sub, m, {} + Owned(ps1));
    var s1 := Store(t.fields, Marked(t.fields, s, k), k, Struct(x));
    BaseIsFirst(f, t.fields, s, k, x);
    StoredOver(t.fields, s, k, Struct(x), Struct(y));
    hide Holds, WellFormed, Partly, ArePieces, Written, AllReadable, Owned, DecodeLoop, TagBytes, WithLength, Base, Store, Marked;
    hide DefaultItems, Defaults, NothingRequired;
    var tag := TagBytes(f, 2);
    SubmessageRead(t, k, b1, tag + (WithLength(b2) + rest), s, Base(f, s.slots[k]), x);
    SubmessageRead(t, k, b2, rest, s1, x, y);
    SubmessageRead(t, k, b1 + b2, rest, s, Base(f, s.slots[k]), y);
  }

  // ------------------------------------------------------------------ more fields

  // The message that a newer descriptor makes of an older one's: what a fresh struct holds in
  // the fields that were not there.
  function Filled(fs: seq<Field>, m: Slots, keep: set<nat>, k: nat): (r: Slots)
    requires k <= |fs| && |KnownFields(fs, keep, k)| <= |m|
    ensures |r| == k
  {
    if k == 0 then []
    else
      Filled(fs, m, keep, k - 1)
      + [if fs[k - 1].tag in keep then m[|KnownFields(fs, keep, k - 1)|] else DefaultItems(fs[k - 1])]
  }

  lemma {:induction false} FilledAt(fs: seq<Field>, m: Slots, keep: set<nat>, n: nat, k: nat)
    requires k < n <= |fs| && |KnownFields(fs, keep, n)| <= |m|
    ensures fs[k].tag in keep ==> |KnownFields(fs, keep, k)| < |m|
    ensures Filled(fs, m, keep, n)[k] == if fs[k].tag in keep then m[|KnownFields(fs, keep, k)|] else DefaultItems(fs[k])
  {
    if k < n - 1 {
      FilledAt(fs, m, keep, n - 1, k);
    }
  }

  lemma FilledHolds(t: LType, m: Slots, keep: set<nat>)
    requires t.TMessage? && WellFormed(t) && |m| == |Known(t, keep).fields| && Holds(Known(t, keep), Struct(m))
    ensures Holds(t, Struct(Filled(t.fields, m, keep, |t.fields|)))
  {
    var fs, r := t.fields, Filled(t.fields, m, keep, |t.fields|);
    forall k | 0 <= k < |fs|
      ensures HoldsItems(fs[k], r[k])
    {
      FilledAt(fs, m, keep, |fs|, k);
      KnownGrows(fs, r, keep, k, |fs|);
      if fs[k].tag !in keep {
        assert WellFormed(fs[k].ltype) && DefaultFits(fs[k]);
        Safety.DefaultItemsHold(fs[k]);
      } else {
        assert HoldsItems(Known(t, keep).fields[|KnownFields(fs, keep, k)|], m[|KnownFields(fs, keep, k)|]);
      }
    }
    forall i, j | 0 <= i < j < |fs| && SameUnion(fs[i], fs[j])
      ensures r[i] == [] || r[j] == []
    {
      FilledAt(fs, m, keep, |fs|, i);
      FilledAt(fs, m, keep, |fs|, j);
      NoDefault(fs[i]);
      NoDefault(fs[j]);
      if fs[i].tag in keep && fs[j].tag in keep {
        KnownGrows(fs, r, keep, i, j);
        KnownGrows(fs, r, keep, i, |fs|);
        KnownGrows(fs, r, keep, j, |fs|);
      }
    }
    hide HoldsItems, KnownFields, DefaultItems;
  }

  // The fields that the older descriptor has, as pieces, and their numbers in the newer one.
  function KeptFrom(fs: seq<Field>, keep: set<nat>, k: nat): (ks: set<nat>) {
    set j: nat | k <= j < |fs| && fs[j].tag in keep
  }

  function KeptPieces(fs: seq<Field>, keep: set<nat>, k: nat): (ps: seq<Piece>)
    requires k <= |fs|
    decreases |fs| - k
  {
    if k == |fs| then [] else (if fs[k].tag in keep then [Own(k, true)] else []) + KeptPieces(fs, keep, k + 1)
  }

  lemma {:induction false} KeptArePieces(t: LType, keep: set<nat>, k: nat, done: set<nat>)
    requires t.TMessage? && k <= |t.fields| && forall j | j in done :: j < k
    ensures ArePieces(t, KeptPieces(t.fields, keep, k), done) && Owned(KeptPieces(t.fields, keep, k)) == KeptFrom(t.fields, keep, k)
    decreases |t.fields| - k
  {
    if k < |t.fields| {
      var more, ps := KeptPieces(t.fields, keep, k + 1), KeptPieces(t.fields, keep, k);
      if t.fields[k].tag in keep {
        KeptArePieces(t, keep, k + 1, done + {k});
        assert ps == [Own(k, true)] + more && ps[1..] == more;
      } else {
        KeptArePieces(t, keep, k + 1, done);
        assert ps == [] + more == more;
      }
    }
  }

  // They are what the older descriptor writes.
  lemma {:induction false} KeptAreWritten(t: LType, m: Slots, keep: set<nat>, k: nat, done: set<nat>, t': LType, m': Slots, j: nat)
    requires t.TMessage? && WellFormed(t) && t' == Known(t, keep) && |m| == |t'.fields| && k <= |t.fields|
    requires m' == Filled(t.fields, m, keep, |t.fields|) && j == |KnownFields(t.fields, keep, k)| && j <= |m|
    requires (forall i | i in done :: i < k) && ArePieces(t, KeptPieces(t.fields, keep, k), done)
    ensures Written(t, m', KeptPieces(t.fields, keep, k), done) == EncodeFrom(t', m, j)
    ensures AllReadable(t, m', KeptPieces(t.fields, keep, k), done) <==> forall i | j <= i < |m| :: FieldFits(t'.fields[i], m[i])
    decreases |t.fields| - k
  {
    hide EncodeField, FieldFits, DefaultItems, Filled, WellFormed;
    if k < |t.fields| {
      FilledAt(t.fields, m, keep, |t.fields|, k);
      KnownGrows(t.fields, m', keep, k, |t.fields|);
      var more, ps := KeptPieces(t.fields, keep, k + 1), KeptPieces(t.fields, keep, k);
      if t.fields[k].tag in keep {
        assert ps == [Own(k, true)] + more && ps[1..] == more;
        assert t'.fields[j] == t.fields[k] && m'[k] == m[j];
        KeptAreWritten(t, m, keep, k + 1, done + {k}, t', m', j + 1);
      } else {
        assert ps == [] + more == more;
        KeptAreWritten(t, m, keep, k + 1, done, t', m', j);
      }
    }
  }

  lemma FilledIsPartly(fs: seq<Field>, m: Slots, keep: set<nat>)
    requires |KnownFields(fs, keep, |fs|)| <= |m|
    ensures Partly(fs, Filled(fs, m, keep, |fs|), KeptFrom(fs, keep, 0)) == Filled(fs, m, keep, |fs|)
  {
    forall k | 0 <= k < |fs|
      ensures Partly(fs, Filled(fs, m, keep, |fs|), KeptFrom(fs, keep, 0))[k] == Filled(fs, m, keep, |fs|)[k]
    {
      FilledAt(fs, m, keep, |fs|, k);
    }
    hide KnownFields, DefaultItems;
  }

  // A message written under one descriptor and read under another with more fields comes back as
  // it was, with the new fields as in a fresh struct, if and only if none of the new ones is
  // required (among the first 64) and the lengths are below 2^32.
  lemma NewerDecodesOlder(t: LType, m: Slots, keep: set<nat>)
    requires t.TMessage? && WellFormed(t) && |m| == |Known(t, keep).fields| && Holds(Known(t, keep), Struct(m))
    ensures EncodeFrom(Known(t, keep), m, 0).Some?
    ensures var b := EncodeFrom(Known(t, keep), m, 0).value;
            |b| < TWO_63 ==>
              Decode(t, b) == if LengthsFit(Known(t, keep), m) && NoneMissing(t.fields, KeptFrom(t.fields, keep, 0))
                              then Some(Filled(t.fields, m, keep, |t.fields|)) else None
  {
    var t', m', ps := Known(t, keep), Filled(t.fields, m, keep, |t.fields|), KeptPieces(t.fields, keep, 0);
    FilledHolds(t, m, keep);
    KnownIsWellFormed(t, keep);
    MessageEncodes(t', m, 0);
    KeptArePieces(t, keep, 0, {});
    KeptAreWritten(t, m, keep, 0, {}, t', m', 0);
    FilledIsPartly(t.fields, m, keep);
    hide Holds, WellFormed, EncodeFrom, NoneMissing, Filled, Partly, Written, ArePieces, AllReadable, KeptPieces, KeptFrom, Owned, Known;
    if |EncodeFrom(t', m, 0).value| < TWO_63 {
      AnyFormDecodes(t, m', ps, []);
      assert EncodeFrom(t', m, 0).value + [] == EncodeFrom(t', m, 0).value;
    }
  }
}
