// The field iterator of nanopb/pb_common.c, and the required-field bookkeeping that
// pb_decode_noinit (nanopb/pb_decode.c) builds on it.
module PbIterator {
  import opened Coding
  import opened PbVarint

  datatype HType = Required | Optional | Repeated | OneOf
  datatype AType = Static | Pointer | Callback

  const POINTER_SIZE: nat := 8
  const MAX_REQUIRED_FIELDS: nat := 64

  // pb_field_t, without the submessage pointer.
  datatype FieldInfo = FieldInfo(tag: nat, htype: HType, atype: AType, extension: bool,
                                 dataOffset: nat, sizeOffset: int, dataSize: nat, arraySize: nat)

  // A field array ends at the first field with tag 0.
  ghost predicate IsFieldArray(fs: seq<FieldInfo>) {
    |fs| > 0 && fs[|fs| - 1].tag == 0 && forall i | 0 <= i < |fs| - 1 :: fs[i].tag != 0
  }

  // ------------------------------------------------------------------ a fresh walk

  function InUnion(prev: FieldInfo, field: FieldInfo): (b: bool) {
    prev.htype.OneOf? && field.htype.OneOf? && field.dataOffset == PB_SIZE_MAX
  }

  // How much of the struct a field takes.
  function SizeInStruct(f: FieldInfo): (n: nat) {
    if f.atype.Static? && f.htype.Repeated? then f.dataSize * f.arraySize
    else if f.atype.Pointer? then POINTER_SIZE
    else f.dataSize
  }

  // pData, pSize and required_field_index after k steps from the start of the array.
  datatype Place = Place(data: int, size: int, required: nat)

  function Begun(fs: seq<FieldInfo>, dest: int): (p: Place)
    requires |fs| > 0
  {
    Place(dest + fs[0].dataOffset, dest + fs[0].dataOffset + fs[0].sizeOffset, 0)
  }

  function Stepped(p: Place, prev: FieldInfo, field: FieldInfo): (r: Place) {
    if InUnion(prev, field) then p
    else
      var data := p.data + SizeInStruct(prev) + field.dataOffset;
      Place(data, data + field.sizeOffset, p.required + if prev.htype.Required? then 1 else 0)
  }

  function Walk(fs: seq<FieldInfo>, dest: int, k: nat): (p: Place)
    requires k < |fs|
  {
    if k == 0 then Begun(fs, dest) else Stepped(Walk(fs, dest, k - 1), fs[k - 1], fs[k])
  }

  // The required fields among the first k.
  function CountRequired(fs: seq<FieldInfo>, k: nat): (n: nat)
    requires k <= |fs|
  {
    if k == 0 then 0 else CountRequired(fs, k - 1) + if fs[k - 1].htype.Required? then 1 else 0
  }

  lemma {:induction false} WalkCounts(fs: seq<FieldInfo>, dest: int, k: nat)
    requires k < |fs|
    ensures Walk(fs, dest, k).required == CountRequired(fs, k)
  {
    if k > 0 {
      WalkCounts(fs, dest, k - 1);
    }
  }

  // Fields that are not of one union lie one after the other.
  lemma FieldsDoNotOverlap(fs: seq<FieldInfo>, dest: int, k: nat)
    requires 0 < k < |fs| && !InUnion(fs[k - 1], fs[k])
    ensures Walk(fs, dest, k).data >= Walk(fs, dest, k - 1).data + SizeInStruct(fs[k - 1])
  {
  }

  // A field array as the macros of pb.h make it for a struct whose members are at these offsets:
  // a member of the same union as the one before it is marked, and any other has the padding
  // before it.
  ghost predicate Describes(fs: seq<FieldInfo>, offsets: seq<nat>, sameUnion: seq<bool>, k: nat)
    requires 0 < k < |fs| && |offsets| == |sameUnion| == |fs|
  {
    var prev, field := fs[k - 1], fs[k];
    if sameUnion[k] then prev.htype.OneOf? && field.htype.OneOf? && field.dataOffset == PB_SIZE_MAX && offsets[k] == offsets[k - 1]
    else
      var taken := if prev.atype.Pointer? then 8
                   else if prev.atype.Static? && prev.htype.Repeated? then prev.arraySize * prev.dataSize else prev.dataSize;
      field.dataOffset == offsets[k] - offsets[k - 1] - taken
  }

  // Two different unions, one after the other, with as much padding in between as the mark.
  predicate TakenForOneUnion(fs: seq<FieldInfo>, sameUnion: seq<bool>, k: nat)
    requires 0 < k < |fs| == |sameUnion|
  {
    !sameUnion[k] && fs[k - 1].htype.OneOf? && fs[k].htype.OneOf? && fs[k].dataOffset == PB_SIZE_MAX
  }

  // The walk finds every member where it is in the struct, unless there are such unions.
  lemma {:induction false} WalkFindsTheMembers(fs: seq<FieldInfo>, dest: int, offsets: seq<nat>, sameUnion: seq<bool>, n: nat)
    requires 0 < n <= |fs| && |offsets| == |sameUnion| == |fs| && fs[0].dataOffset == offsets[0]
    requires forall k | 0 < k < n :: Describes(fs, offsets, sameUnion, k)
    ensures (forall k | 0 <= k < n :: Walk(fs, dest, k).data == dest + offsets[k]) <==>
            (forall k | 0 < k < n :: !TakenForOneUnion(fs, sameUnion, k))
  {
    if n > 1 {
      WalkFindsTheMembers(fs, dest, offsets, sameUnion, n - 1);
      hide Walk, Describes, TakenForOneUnion;
      if forall k | 0 <= k < n - 1 :: Walk(fs, dest, k).data == dest + offsets[k] {
        NextMember(fs, dest, offsets, sameUnion, n - 1);
      }
    }
  }

  lemma NextMember(fs: seq<FieldInfo>, dest: int, offsets: seq<nat>, sameUnion: seq<bool>, k: nat)
    requires 0 < k < |fs| && |offsets| == |sameUnion| == |fs| && Describes(fs, offsets, sameUnion, k)
    requires Walk(fs, dest, k - 1).data == dest + offsets[k - 1]
    ensures Walk(fs, dest, k).data == dest + offsets[k] <==> !TakenForOneUnion(fs, sameUnion, k)
  {
    assert fs[k - 1].arraySize * fs[k - 1].dataSize >= 0;
  }

  // ------------------------------------------------------------------ the iterator

  predicate Matches(f: FieldInfo, tag: nat) {
    f.tag == tag && !f.extension
  }

  // The k-th field from `first` on, going round the n fields.
  function Round(first: nat, k: nat, n: nat): (i: int) {
    if first + k < n then first + k else first + k - n
  }

  // The first of the n fields from `from` on that has the tag; n when there is none.
  function FirstMatch(fs: seq<FieldInfo>, tag: nat, from: nat, n: nat): (k: nat)
    requires from <= n <= |fs|
    ensures from <= k <= n
    decreases n - from
  {
    if from == n || Matches(fs[from], tag) then from else FirstMatch(fs, tag, from + 1, n)
  }

  lemma {:induction false} FirstMatchIs(fs: seq<FieldInfo>, tag: nat, from: nat, n: nat, k: nat)
    requires from <= k <= n <= |fs| && (k < n ==> Matches(fs[k], tag))
    requires forall i | from <= i < k :: !Matches(fs[i], tag)
    ensures FirstMatch(fs, tag, from, n) == k
    decreases n - from
  {
    if from < k {
      FirstMatchIs(fs, tag, from + 1, n, k);
    }
  }

  class FieldIter {
    const start: seq<FieldInfo>
    const dest: int
    var pos: nat
    var data: int
    var size: int
    var required: nat

    // Where the iterator is, it agrees with a fresh walk.
    ghost predicate Valid()
      reads this
    {
      && IsFieldArray(start)
      && (pos < |start| - 1 || (pos == 0 && |start| == 1))
      && Place(data, size, required) == Walk(start, dest, pos)
    }

    constructor (fields: seq<FieldInfo>, dest: int)
      requires IsFieldArray(fields)
      ensures Valid() && start == fields && this.dest == dest && pos == 0
    {
      start, this.dest := fields, dest;
      pos, required := 0, 0;
      data := dest + fields[0].dataOffset;
      size := dest + fields[0].dataOffset + fields[0].sizeOffset;
    }

    // pb_field_iter_begin.
    method Begin() returns (some: bool)
      requires IsFieldArray(start)
      modifies this
      ensures Valid() && pos == 0 && (some <==> |start| > 1)
    {
      pos := 0;
      required := 0;
      data := dest + start[0].dataOffset;
      size := data + start[0].sizeOffset;
      some := start[0].tag != 0;
    }

    // pb_field_iter_next: false when it wraps round.
    method Next() returns (more: bool)
      requires Valid()
      modifies this
      ensures Valid() && (more <==> old(pos) + 1 < |start| - 1)
      ensures pos == if more then old(pos) + 1 else 0
    {
      var prev := start[pos];
      if prev.tag == 0 {
        return false;
      }
      pos := pos + 1;
      if start[pos].tag == 0 {
        // The terminator: start over
        var _ := Begin();
        return false;
      }
      var prevSize := prev.dataSize;
      if prev.htype.OneOf? && start[pos].htype.OneOf? && start[pos].dataOffset == PB_SIZE_MAX {
        // The next member of a union is where this one is
        return true;
      } else if prev.atype.Static? && prev.htype.Repeated? {
        prevSize := prevSize * prev.arraySize;
      } else if prev.atype.Pointer? {
        prevSize := POINTER_SIZE;
      }
      if prev.htype.Required? {
        required := required + 1;
      }
      data := data + prevSize + start[pos].dataOffset;
      size := data + start[pos].sizeOffset;
      more := true;
    }

    // pb_field_iter_find: at most one lap, from wherever the iterator is.  The one surprise is
    // an empty message, whose terminator answers to tag 0.
    method Find(tag: nat) returns (found: bool)
      requires Valid()
      modifies this
      ensures Valid()
      ensures found <==> (exists i | 0 <= i < |start| - 1 :: Matches(start[i], tag))
                         || (|start| == 1 && Matches(start[0], tag))
      ensures found ==> Matches(start[pos], tag) && start[pos].tag == tag && !start[pos].extension
      ensures |start| > 1 ==> (found <==> exists i | 0 <= i < |start| - 1 :: start[i].tag == tag && !start[i].extension)
      ensures !found ==> pos == old(pos)
      ensures found && |start| > 1 ==>
                var n, k := |start| - 1, FirstMatch(start, tag, old(pos), |start| - 1);
                pos == if k < n then k else FirstMatch(start, tag, 0, n)
    {
      var first := pos;
      ghost var n, k: nat := |start| - 1, 0;
      while true
        invariant Valid() && n == |start| - 1
        invariant n > 0 ==> k < n && pos == Round(first, k, n)
        invariant n == 0 ==> pos == 0
        invariant forall i | 0 <= i < k && i < n :: !Matches(start[Round(first, i, n)], tag)
        decreases n - k
      {
        if start[pos].tag == tag && !start[pos].extension {
          FoundFirst(start, first, n, k, tag, pos);
          return true;
        }
        var _ := Next();
        if pos == first {
          AroundOnce(start, first, n, k, tag);
          return false;
        }
        k := k + 1;
      }
    }

    // The loop at the end of pb_decode_noinit: how many required fields there are.
    method RequiredFields() returns (count: nat)
      requires Valid()
      modifies this
      ensures Valid() && count == CountRequired(start, |start| - 1)
    {
      WalkCounts(start, dest, pos);
      var last := start[pos];
      count := required;
      var more := Next();
      while more
        invariant Valid()
        invariant more ==> pos > 0
        invariant !more ==> last == start[if |start| > 1 then |start| - 2 else 0] && pos == 0
        invariant !more ==> count == CountRequired(start, if |start| > 1 then |start| - 2 else 0)
        decreases if more then |start| - pos else 0
      {
        WalkCounts(start, dest, pos);
        last, count := start[pos], required;
        more := Next();
      }
      // The counter has not passed the last field yet
      if last.htype.Required? && start[pos].tag != 0 {
        count := count + 1;
      }
    }
  }

  // What is found first going round is the first from there on, or else the first of all.
  lemma FoundFirst(fs: seq<FieldInfo>, first: nat, n: nat, k: nat, tag: nat, pos: nat)
    requires n == |fs| - 1 && (n > 0 ==> first < n && k < n && pos == Round(first, k, n)) && pos < |fs|
    requires Matches(fs[pos], tag) && forall i | 0 <= i < k && i < n :: !Matches(fs[Round(first, i, n)], tag)
    ensures n > 0 ==> var m := FirstMatch(fs, tag, first, n); pos == if m < n then m else FirstMatch(fs, tag, 0, n)
  {
    if n > 0 {
      forall i | first <= i < (if pos >= first then pos else n)
        ensures !Matches(fs[i], tag)
      {
        assert Round(first, i - first, n) == i;
      }
      if pos >= first {
        FirstMatchIs(fs, tag, first, n, pos);
      } else {
        forall i | 0 <= i < pos
          ensures !Matches(fs[i], tag)
        {
          assert Round(first, i + n - first, n) == i;
        }
        FirstMatchIs(fs, tag, first, n, n);
        FirstMatchIs(fs, tag, 0, n, pos);
      }
    }
  }

  // After a whole lap every field has been looked at.
  lemma AroundOnce(fs: seq<FieldInfo>, first: nat, n: nat, k: nat, tag: nat)
    requires n == |fs| - 1 && (n > 0 ==> first < n && k < n && first == Round(first, k + 1, n))
    requires forall i | 0 <= i <= k && i < n :: !Matches(fs[Round(first, i, n)], tag)
    ensures forall i | 0 <= i < n :: !Matches(fs[i], tag)
  {
    forall i | 0 <= i < n
      ensures !Matches(fs[i], tag)
    {
      var j := if i >= first then i - first else i + n - first;
      assert Round(first, j, n) == i;
    }
  }

  // ------------------------------------------------------------------ fields_seen

  // The word of fields_seen for the required fields base .. base + n - 1.
  function Word(seen: set<nat>, base: nat, n: nat): (w: nat)
    ensures w < Pow2(n)
  {
    if n == 0 then 0 else Word(seen, base, n - 1) + if base + n - 1 in seen then Pow2(n - 1) else 0
  }

  // word | (1 << k).
  function SetBit(w: nat, k: nat): (r: nat) {
    if w / Pow2(k) % 2 == 1 then w else w + Pow2(k)
  }

  lemma {:induction false} BitOf(seen: set<nat>, base: nat, n: nat, k: nat)
    requires k < n
    ensures Word(seen, base, n) / Pow2(k) % 2 == 1 <==> base + k in seen
  {
    hide Pow2;
    var w, p := Word(seen, base, n - 1), Pow2(k);
    if k == n - 1 {
      DivUnique(w, p, 0, w);
      DivUnique(w + p, p, 1, w);
    } else {
      BitOf(seen, base, n - 1, k);
      HighBit(w, n - 1, k);
    }
  }

  lemma {:induction false} HighBit(w: nat, m: nat, k: nat)
    requires k < m
    ensures (w + Pow2(m)) / Pow2(k) % 2 == w / Pow2(k) % 2
  {
    PowSplit(m, k);
    var p, q := Pow2(k), Pow2(m - k - 1);
    assert w + Pow2(m) == w + 2 * q * p;
    DivAdd(w, 2 * q, p);
  }

  lemma {:induction false} PowSplit(m: nat, k: nat)
    requires k < m
    ensures Pow2(m) == 2 * Pow2(m - k - 1) * Pow2(k)
  {
    if k > 0 {
      PowSplit(m - 1, k - 1);
      assert Pow2(m) == 2 * Pow2(m - 1);
      var a, b := Pow2(m - k - 1), Pow2(k - 1);
      assert 2 * (2 * a * b) == 2 * a * (2 * b);
    }
  }

  lemma DivAdd(w: nat, c: nat, p: nat)
    requires p > 0
    ensures (w + c * p) / p == w / p + c
  {
    var q, r := w / p, w % p;
    assert w + c * p == (q + c) * p + r;
    DivUnique(w + c * p, p, q + c, r);
  }

  lemma DivUnique(a: nat, p: nat, q: nat, r: nat)
    requires p > 0 && r < p && a == q * p + r
    ensures a / p == q
  {
    var q', r' := a / p, a % p;
    var d := q - q';
    assert a == q' * p + r';
    assert d * p == r' - r;
    Multiples(d, p);
  }

  lemma {:induction false} WordGrows(seen: set<nat>, base: nat, n: nat, k: nat)
    ensures Word(seen + {base + k}, base, n) ==
            Word(seen, base, n) + if k < n && base + k !in seen then Pow2(k) else 0
  {
    if n > 0 {
      WordGrows(seen, base, n - 1, k);
    }
  }

  // Setting a bit of the word is adding a field to the set.
  lemma SetBitIsSeen(seen: set<nat>, base: nat, n: nat, k: nat)
    requires k < n
    ensures SetBit(Word(seen, base, n), k) == Word(seen + {base + k}, base, n)
  {
    BitOf(seen, base, n, k);
    WordGrows(seen, base, n, k);
  }

  // The word equals a mask of n ones exactly when all n fields were seen.
  lemma {:induction false} FullIffAllSeen(seen: set<nat>, base: nat, n: nat)
    ensures Word(seen, base, n) == Pow2(n) - 1 <==> forall k | base <= k < base + n :: k in seen
  {
    if n > 0 {
      FullIffAllSeen(seen, base, n - 1);
    }
  }

  lemma {:induction false} NothingSeen(base: nat, n: nat)
    ensures Word({}, base, n) == 0
  {
    if n > 0 {
      NothingSeen(base, n - 1);
    }
  }

  // A set of seen required fields, as the two words of fields_seen.
  function Words(seen: set<nat>): (w: seq<nat>)
    ensures |w| == 2
  {
    [Word(seen, 0, 32), Word(seen, 32, 32)]
  }

  // fields_seen[index >> 5] |= 1 << (index & 31), for the first 64 required fields.
  method MarkSeen(words: seq<nat>, index: nat, ghost seen: set<nat>) returns (r: seq<nat>)
    requires words == Words(seen)
    ensures r == Words(if index < MAX_REQUIRED_FIELDS then seen + {index} else seen)
  {
    r := words;
    if index < MAX_REQUIRED_FIELDS {
      var word, bit := index / 32, index % 32;
      SetBitIsSeen(seen, 32 * word, 32, bit);
      WordIgnores(seen, index);
      r := words[word := SetBit(words[word], bit)];
    }
  }

  lemma WordIgnores(seen: set<nat>, index: nat)
    requires index < MAX_REQUIRED_FIELDS
    ensures var other := if index < 32 then 32 else 0;
            Word(seen + {index}, other, 32) == Word(seen, other, 32)
  {
    WordSame(seen, seen + {index}, if index < 32 then 32 else 0, 32);
  }

  lemma {:induction false} WordSame(a: set<nat>, b: set<nat>, base: nat, n: nat)
    requires forall k | base <= k < base + n :: k in a <==> k in b
    ensures Word(a, base, n) == Word(b, base, n)
  {
    if n > 0 {
      WordSame(a, b, base, n - 1);
    }
  }

  // The final check of pb_decode_noinit, given the number of required fields.
  method AllRequiredSeen(words: seq<nat>, requiredFields: nat, ghost seen: set<nat>) returns (ok: bool)
    requires words == Words(seen) && (requiredFields > 0 ==> forall k | k in seen :: k < requiredFields)
    ensures ok <==> forall k: nat | k < requiredFields && k < MAX_REQUIRED_FIELDS :: k in seen
  {
    var count := if requiredFields > MAX_REQUIRED_FIELDS then MAX_REQUIRED_FIELDS else requiredFields;
    if count > 0 {
      // Words with all 32 bits in use
      for i := 0 to count / 32
        invariant forall k: nat | k < 32 * i :: k in seen
      {
        FullIffAllSeen(seen, 32 * i, 32);
        if words[i] != Pow2(32) - 1 {
          return false;
        }
      }
      // The word that is used in part
      if count % 32 != 0 {
        var word := count / 32;
        FullIffAllSeen(seen, 32 * word, count % 32);
        TopBitsClear(seen, 32 * word, count % 32);
        if words[word] != Pow2(count % 32) - 1 {
          return false;
        }
      }
    }
    ok := true;
  }

  // No field beyond the last required one was ever marked.
  lemma TopBitsClear(seen: set<nat>, base: nat, m: nat)
    requires m <= 32 && forall k | k in seen :: k < base + m
    ensures Word(seen, base, 32) == Word(seen, base, m)
  {
    TopBitsClearTo(seen, base, m, 32);
  }

  lemma {:induction false} TopBitsClearTo(seen: set<nat>, base: nat, m: nat, n: nat)
    requires m <= n && forall k | k in seen :: k < base + m
    ensures Word(seen, base, n) == Word(seen, base, m)
  {
    if m < n {
      TopBitsClearTo(seen, base, m, n - 1);
    }
  }
}
