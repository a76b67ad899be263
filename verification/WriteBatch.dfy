// Batches of updates: db/write_batch.cc and db/write_batch_internal.h.  A batch is its own
// log record: a fixed64 sequence number, a fixed32 count, and the records.
module WriteBatch {
  import opened Coding
  import opened DbFormat

  const HEADER: nat := 12
  const COUNT_MODULUS: nat := 0x1_0000_0000

  datatype Op = Put(key: UserKey, value: Value) | Delete(key: UserKey)

  datatype Status = Ok | Corruption(reason: string)

  // What Iterate hands to its handler, and what it returns.
  datatype Replayed = Replayed(ops: seq<Op>, status: Status)

  // ------------------------------------------------------------------ the format

  function Record(op: Op): (b: seq<byte>)
    ensures |b| > 0
  {
    match op
    case Put(key, value) => [TYPE_VALUE] + LengthPrefixed(key) + LengthPrefixed(value)
    case Delete(key) => [TYPE_DELETION] + LengthPrefixed(key)
  }

  function Body(ops: seq<Op>): (b: seq<byte>) {
    if ops == [] then [] else Body(ops[..|ops| - 1]) + Record(ops[|ops| - 1])
  }

  function Rep(sequence: nat, count: nat, body: seq<byte>): (b: seq<byte>)
    ensures |b| == HEADER + |body|
  {
    Fixed(8, sequence) + Fixed(4, count) + body
  }

  // Slices whose length a varint32 can hold.
  predicate Fits(op: Op) {
    |op.key| <= MAX_UINT32 && (op.Put? ==> |op.value| <= MAX_UINT32)
  }

  predicate AllFit(ops: seq<Op>) {
    forall i | 0 <= i < |ops| :: Fits(ops[i])
  }

  // ------------------------------------------------------------------ decoding

  // One turn of Iterate's loop.
  datatype Step = Bad(reason: string) | Good(op: Op, rest: seq<byte>)

  function ReadRecord(input: seq<byte>): (s: Step)
    requires input != []
    ensures s.Good? ==> |s.rest| < |input|
  {
    var key := GetLengthPrefixed(input[1..]);
    if input[0] == TYPE_VALUE then
      if key.Malformed? then Bad("bad WriteBatch Put")
      else
        var value := GetLengthPrefixed(key.rest);
        if value.Malformed? then Bad("bad WriteBatch Put") else Good(Put(key.value, value.value), value.rest)
    else if input[0] == TYPE_DELETION then
      if key.Malformed? then Bad("bad WriteBatch Delete") else Good(Delete(key.value), key.rest)
    else Bad("unknown WriteBatch tag")
  }

  // The records of a body, up to the first bad one.
  function Records(input: seq<byte>): (r: Replayed)
    decreases |input|
  {
    if input == [] then Replayed([], Ok)
    else
      match ReadRecord(input)
      case Bad(reason) => Replayed([], Corruption(reason))
      case Good(op, rest) =>
        var r := Records(rest);
        Replayed([op] + r.ops, r.status)
  }

  lemma ReadRecordOf(op: Op, rest: seq<byte>)
    requires Fits(op)
    ensures ReadRecord(Record(op) + rest) == Good(op, rest)
  {
    hide LengthPrefixed, GetLengthPrefixed;
    var key := LengthPrefixed(op.key);
    match op
    case Put(_, value) => ReadPut([TYPE_VALUE], key, LengthPrefixed(value), rest, op.key, value);
    case Delete(_) => ReadDelete([TYPE_DELETION], key, rest, op.key);
  }

  lemma ReadPut(tag: seq<byte>, k: seq<byte>, v: seq<byte>, rest: seq<byte>, key: UserKey, value: Value)
    requires |key| <= MAX_UINT32 && |value| <= MAX_UINT32 && tag == [TYPE_VALUE]
    requires k == LengthPrefixed(key) && v == LengthPrefixed(value)
    ensures ReadRecord(tag + k + v + rest) == Good(Put(key, value), rest)
  {
    hide LengthPrefixed, GetLengthPrefixed;
    var input := tag + k + v + rest;
    assert input[0] == TYPE_VALUE && input[1..] == k + (v + rest);
    LengthPrefixedRoundTrip(key, v + rest);
    LengthPrefixedRoundTrip(value, rest);
  }

  lemma ReadDelete(tag: seq<byte>, k: seq<byte>, rest: seq<byte>, key: UserKey)
    requires |key| <= MAX_UINT32 && tag == [TYPE_DELETION] && k == LengthPrefixed(key)
    ensures ReadRecord(tag + k + rest) == Good(Delete(key), rest)
  {
    hide LengthPrefixed, GetLengthPrefixed;
    var input := tag + k + rest;
    assert input[0] == TYPE_DELETION && input[1..] == k + rest;
    LengthPrefixedRoundTrip(key, rest);
  }

  // Reading a body back gives its operations, then whatever follows.
  lemma {:induction false} RecordsOf(ops: seq<Op>, rest: seq<byte>)
    requires AllFit(ops)
    ensures Records(Body(ops) + rest) == Replayed(ops + Records(rest).ops, Records(rest).status)
    decreases |ops|
  {
    hide Record, ReadRecord;
    if ops == [] {
      assert Body(ops) + rest == rest;
    } else {
      var n := |ops| - 1;
      var tail := Record(ops[n]) + rest;
      ConcatAssociates(Body(ops[..n]), Record(ops[n]), rest);
      ReadRecordOf(ops[n], rest);
      RecordsOf(ops[..n], tail);
      ConcatAssociates(ops[..n], [ops[n]], Records(rest).ops);
      assert ops == ops[..n] + [ops[n]];
    }
  }

  lemma {:induction false} BodyConcat(a: seq<Op>, b: seq<Op>)
    ensures Body(a + b) == Body(a) + Body(b)
    decreases |b|
  {
    hide Record;
    if b == [] {
      assert a + b == a;
    } else {
      var n := |b| - 1;
      assert (a + b)[..|a| + n] == a + b[..n] && (a + b)[|a| + n] == b[n];
      BodyConcat(a, b[..n]);
      ConcatAssociates(Body(a), Body(b[..n]), Record(b[n]));
    }
  }

  // ------------------------------------------------------------------ the header fields

  function Sequence(rep: seq<byte>): (s: nat)
    requires |rep| >= HEADER
  {
    FromFixed(rep[..8])
  }

  function Count32(rep: seq<byte>): (n: nat)
    requires |rep| >= HEADER
  {
    FromFixed(rep[8..HEADER])
  }

  // An int read back from four bytes is negative from 2^31 on.
  function Count(rep: seq<byte>): (n: int)
    requires |rep| >= HEADER
  {
    if Count32(rep) < 0x8000_0000 then Count32(rep) else Count32(rep) - 0x1_0000_0000
  }

  lemma HeaderOf(sequence: nat, count: nat, body: seq<byte>)
    requires sequence <= MAX_UINT64 && count <= MAX_UINT32
    ensures var rep := Rep(sequence, count, body);
            Sequence(rep) == sequence && Count32(rep) == count && rep[HEADER..] == body
  {
    PowersOf256();
    var rep := Rep(sequence, count, body);
    assert rep[..8] == Fixed(8, sequence) && rep[8..HEADER] == Fixed(4, count);
    FixedRoundTrip(8, sequence);
    FixedRoundTrip(4, count);
  }

  // Everything Iterate does: the operations it hands over, and its status.
  function Replay(rep: seq<byte>): (r: Replayed) {
    if |rep| < HEADER then Replayed([], Corruption("malformed WriteBatch (too small)"))
    else
      var r := Records(rep[HEADER..]);
      if r.status.Ok? && |r.ops| != Count(rep) then Replayed(r.ops, Corruption("WriteBatch has wrong count")) else r
  }

  // The bytes of a batch of these operations; the count is kept modulo 2^32.
  function Contents(sequence: nat, ops: seq<Op>): (b: seq<byte>)
    ensures |b| == HEADER + |Body(ops)|
  {
    Rep(sequence, |ops| % COUNT_MODULUS, Body(ops))
  }

  lemma NoRecords()
    ensures Records([]) == Replayed([], Ok)
  {
  }

  // Iterate replays exactly the operations of the batch, in order; it objects exactly when
  // there are more than an int can count.
  lemma ReplayOf(sequence: nat, ops: seq<Op>)
    requires AllFit(ops) && sequence <= MAX_UINT64
    ensures var r := Replay(Contents(sequence, ops));
            r.ops == ops && (r.status == Ok <==> |ops| < 0x8000_0000)
    ensures Sequence(Contents(sequence, ops)) == sequence
    ensures |ops| < 0x8000_0000 ==> Count(Contents(sequence, ops)) == |ops|
  {
    hide Body, Records, Rep, Sequence, Count32, AllFit;
    HeaderOf(sequence, |ops| % COUNT_MODULUS, Body(ops));
    RecordsOf(ops, []);
    NoRecords();
    assert Body(ops) + [] == Body(ops) && ops + [] == ops;
  }

  // ------------------------------------------------------------------ the memtable's side

  function EntryOf(op: Op, sequence: nat): (e: Entry) {
    match op
    case Put(key, value) => Entry(InternalKey(key, sequence, TYPE_VALUE), value)
    case Delete(key) => Entry(InternalKey(key, sequence, TYPE_DELETION), [])
  }

  // Consecutive sequence numbers, in the order of the operations.
  function Numbered(ops: seq<Op>, first: nat): (es: seq<Entry>)
    ensures |es| == |ops|
  {
    seq(|ops|, i requires 0 <= i < |ops| => EntryOf(ops[i], first + i))
  }

  // The sequence numbers of a batch are Sequence .. Sequence + Count - 1, the range that
  // recovery takes them to have.
  lemma NumberedRange(sequence: nat, ops: seq<Op>)
    requires |ops| < 0x8000_0000 && AllFit(ops) && sequence <= MAX_UINT64
    ensures var rep := Contents(sequence, ops);
            var es := Numbered(Replay(rep).ops, Sequence(rep));
            |es| == Count(rep) && forall i | 0 <= i < |es| :: es[i].key.sequence == Sequence(rep) + i
  {
    hide Replay, Sequence, Count, Contents, AllFit;
    ReplayOf(sequence, ops);
  }

  // ------------------------------------------------------------------ the class

  class WriteBatch {
    var rep: seq<byte>
    ghost var sequence: nat
    ghost var ops: seq<Op>

    ghost predicate Valid()
      reads this
    {
      sequence <= MAX_UINT64 && rep == Contents(sequence, ops)
    }

    constructor ()
      ensures Valid() && ops == []
    {
      rep, sequence, ops := Rep(0, 0, []), 0, [];
    }

    method Clear()
      modifies this
      ensures Valid() && ops == []
    {
      rep, sequence, ops := Rep(0, 0, []), 0, [];
    }

    method SetCount(n: nat)
      requires |rep| >= HEADER
      modifies this`rep
      ensures rep == WithCount(old(rep), n)
    {
      rep := WithCount(rep, n);
    }

    method SetSequence(s: nat)
      requires Valid() && s <= MAX_UINT64
      modifies this`rep, this`sequence
      ensures Valid() && sequence == s
    {
      hide Body;
      rep := Fixed(8, s) + rep[8..];
      sequence := s;
      assert rep == Contents(s, ops);
    }

    method Put(key: UserKey, value: Value)
      requires Valid()
      modifies this
      ensures Valid() && sequence == old(sequence) && ops == old(ops) + [Op.Put(key, value)]
    {
      hide Contents, Count32, WithCount, Body, Record, LengthPrefixed;
      ghost var op := Op.Put(key, value);
      Grown(sequence, ops, [op], rep, 1, Body([op]));
      SetCount(Count32(rep) + 1);
      BodyOfPut(rep, key, value);
      rep := rep + [TYPE_VALUE];
      rep := rep + LengthPrefixed(key);
      rep := rep + LengthPrefixed(value);
      ops := ops + [op];
    }

    method Delete(key: UserKey)
      requires Valid()
      modifies this
      ensures Valid() && sequence == old(sequence) && ops == old(ops) + [Op.Delete(key)]
    {
      hide Contents, Count32, WithCount, Body, Record, LengthPrefixed;
      ghost var op := Op.Delete(key);
      Grown(sequence, ops, [op], rep, 1, Body([op]));
      SetCount(Count32(rep) + 1);
      BodyOfDelete(rep, key);
      rep := rep + [TYPE_DELETION];
      rep := rep + LengthPrefixed(key);
      ops := ops + [op];
    }

    // The source may be the batch itself.
    method Append(source: WriteBatch)
      requires Valid() && source.Valid()
      modifies this
      ensures Valid() && sequence == old(sequence) && ops == old(ops) + old(source.ops)
    {
      hide Contents, Count32, WithCount, Body;
      SourceForm(source.sequence, source.ops);
      Grown(sequence, ops, source.ops, rep, Count32(source.rep), Body(source.ops));
      SetCount(Count32(rep) + Count32(source.rep));
      rep := rep + source.rep[HEADER..];
      ops := ops + source.ops;
    }

    method Iterate() returns (handled: seq<Op>, status: Status)
      ensures Replayed(handled, status) == Replay(rep)
    {
      handled := [];
      if |rep| < HEADER {
        return handled, Corruption("malformed WriteBatch (too small)");
      }
      var input, found := rep[HEADER..], 0;
      assert Replayed([] + Records(input).ops, Records(input).status) == Records(input);
      while input != []
        invariant found == |handled|
        invariant Records(rep[HEADER..]) == Replayed(handled + Records(input).ops, Records(input).status)
        decreases |input|
      {
        found := found + 1;
        var tag := input[0];
        match ReadRecord(input) {
          case Bad(reason) =>
            assert handled + [] == handled;
            return handled, Corruption(reason);
          case Good(op, rest) =>
            ConcatAssociates(handled, [op], Records(rest).ops);
            handled, input := handled + [op], rest;
        }
      }
      assert handled + [] == handled;
      status := if found != Count(rep) then Corruption("WriteBatch has wrong count") else Ok;
    }

    // The entries added to the memtable, in order.
    method InsertInto() returns (added: seq<Entry>, status: Status)
      requires |rep| >= HEADER
      ensures var r := Replay(rep); added == Numbered(r.ops, Sequence(rep)) && status == r.status
    {
      var handled;
      handled, status := Iterate();
      added := [];
      var sequence := Sequence(rep);
      for i := 0 to |handled|
        invariant added == Numbered(handled[..i], Sequence(rep)) && sequence == Sequence(rep) + i
      {
        added := added + [EntryOf(handled[i], sequence)];
        sequence := sequence + 1;
      }
      assert handled[..|handled|] == handled;
    }
  }

  // ------------------------------------------------------------------ growing a batch

  function WithCount(rep: seq<byte>, n: nat): (r: seq<byte>)
    requires |rep| >= HEADER
    ensures |r| == |rep|
  {
    rep[..8] + Fixed(4, n % COUNT_MODULUS) + rep[HEADER..]
  }

  lemma WithCountOf(sequence: nat, count: nat, body: seq<byte>, n: nat)
    ensures WithCount(Rep(sequence, count, body), n) == Rep(sequence, n % COUNT_MODULUS, body)
  {
    var rep := Rep(sequence, count, body);
    assert rep[..8] == Fixed(8, sequence) && rep[HEADER..] == body;
  }

  lemma Grown(sequence: nat, ops: seq<Op>, more: seq<Op>, rep: seq<byte>, n: nat, body: seq<byte>)
    requires sequence <= MAX_UINT64 && rep == Contents(sequence, ops)
    requires n == |more| % COUNT_MODULUS && body == Body(more)
    ensures |rep| >= HEADER && WithCount(rep, Count32(rep) + n) + body == Contents(sequence, ops + more)
  {
    hide Body, Fixed, Count32, Sequence;
    var count := |ops| % COUNT_MODULUS;
    HeaderOf(sequence, count, Body(ops));
    WithCountOf(sequence, count, Body(ops), count + n);
    BodyConcat(ops, more);
    assert (count + n) % COUNT_MODULUS == |ops + more| % COUNT_MODULUS;
    ConcatAssociates(Fixed(8, sequence) + Fixed(4, (count + n) % COUNT_MODULUS), Body(ops), body);
  }

  lemma BodyOfOne(op: Op)
    ensures Body([op]) == Record(op)
  {
    assert [op][..0] == [] && Body([]) + Record(op) == Record(op);
  }

  lemma BodyOfPut(w: seq<byte>, key: UserKey, value: Value)
    ensures ((w + [TYPE_VALUE]) + LengthPrefixed(key)) + LengthPrefixed(value) == w + Body([Put(key, value)])
  {
    BodyOfOne(Put(key, value));
    ConcatAssociates(w, [TYPE_VALUE], LengthPrefixed(key));
    ConcatAssociates(w, [TYPE_VALUE] + LengthPrefixed(key), LengthPrefixed(value));
  }

  lemma BodyOfDelete(w: seq<byte>, key: UserKey)
    ensures (w + [TYPE_DELETION]) + LengthPrefixed(key) == w + Body([Delete(key)])
  {
    BodyOfOne(Delete(key));
    ConcatAssociates(w, [TYPE_DELETION], LengthPrefixed(key));
  }

  lemma SourceForm(sequence: nat, ops: seq<Op>)
    requires sequence <= MAX_UINT64
    ensures var rep := Contents(sequence, ops);
            Count32(rep) == |ops| % COUNT_MODULUS && rep[HEADER..] == Body(ops)
    ensures forall n: nat :: WithCount(Contents(sequence, ops), n)[HEADER..] == Body(ops)
  {
    HeaderOf(sequence, |ops| % COUNT_MODULUS, Body(ops));
  }
}
