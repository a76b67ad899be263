// A writer that does not agree with the file about where blocks end (db/log_writer.cc:34-80)
// loses records to the reader (db/log_reader.cc:189-271), whatever the file holds.
module LogDrift {
  import opened Coding
  import opened Crc32c
  import opened LogFormat
  import opened LogRecords
  import opened LogFiles
  import opened LogWriter
  import opened LogStanding

  // ------------------------------------------------------------------ out of step with the file

  function Payload(es: seq<Event>): (n: nat) {
    if es == [] then 0 else (if es[0].Got? then |es[0].data| else 0) + Payload(es[1..])
  }

  lemma {:induction false} PayloadFits(left: Bytes, pos: nat)
    ensures Payload(Events(left, pos)) <= |left|
    decreases |left|
  {
    hide Events, PhysicalAt, InBlock;
    NothingLeft(pos);
    if left != [] {
      var n, p := InBlock(left, pos), PhysicalAt(left, pos);
      ReadAdvances(left, pos);
      if p.AtEof? {
        AtEofIsNothing(left, pos);
      } else {
        OneRead(left, pos, p, n, left[Consumed(p, n)..], pos + Consumed(p, n));
        PayloadFits(left[Consumed(p, n)..], pos + Consumed(p, n));
        PayloadOne(EventOf(p, n), Events(left[Consumed(p, n)..], pos + Consumed(p, n)));
      }
    }
  }

  lemma PayloadOne(es: seq<Event>, more: seq<Event>)
    requires |es| <= 1
    ensures Payload(es + more) == Payload(es) + Payload(more)
  {
    if es == [] {
      assert es + more == more;
    } else {
      assert (es + more)[1..] == more && es[1..] == [];
    }
  }

  // Whatever came before, the reader looks for a header at the start of every block.
  lemma {:induction false} EveryBlock(left: Bytes, pos: nat, q: nat) returns (before: seq<Event>)
    requires pos <= q <= pos + |left| && q % BLOCK_SIZE == 0
    ensures Events(left, pos) == before + Events(left[q - pos..], q) && Payload(before) <= q - pos
    decreases |left|
  {
    hide Events, PhysicalAt, InBlock, BlockEnd, Payload;
    if pos == q {
      before := [];
      assert left[0..] == left && Payload([]) == 0 by { NoPayload(); }
      assert before + Events(left, pos) == Events(left, pos);
    } else {
      var n, p := InBlock(left, pos), PhysicalAt(left, pos);
      var m := Consumed(p, n);
      ReadsToTheEnd(left, pos, q);
      OneRead(left, pos, p, n, left[m..], pos + m);
      var more := EveryBlock(left[m..], pos + m, q);
      assert left[m..][q - pos - m..] == left[q - pos..];
      before := EventOf(p, n) + more;
      PayloadOne(EventOf(p, n), more);
      PayloadOfOne(p, n);
      ConcatAssociates(EventOf(p, n), more, Events(left[q - pos..], q));
    }
  }

  lemma NoPayload()
    ensures Payload([]) == 0
  {
  }

  lemma PayloadOfOne(p: Physical, n: nat)
    ensures Payload(EventOf(p, n)) <= Consumed(p, n)
  {
    if EventOf(p, n) != [] {
      assert EventOf(p, n)[1..] == [];
    }
  }

  lemma ReadsToTheEnd(left: Bytes, pos: nat, q: nat)
    requires pos < q <= pos + |left| && q % BLOCK_SIZE == 0
    ensures !PhysicalAt(left, pos).AtEof? && 0 < Consumed(PhysicalAt(left, pos), InBlock(left, pos)) <= q - pos
  {
    assert BlockEnd(pos) <= q;
  }

  // ------------------------------------------------------------------ a record of zeros

  predicate Tainted(s: Bytes) {
    exists i :: 0 <= i < |s| && s[i] != 0
  }

  // Too little is left for n zeros, or what is there is not all zeros.
  lemma {:induction false} TooShort(es: seq<Event>, inside: bool, scratch: Bytes, n: nat)
    requires Payload(es) < n && (inside ==> Tainted(scratch) || |scratch| + Payload(es) < n)
    ensures Zeros(n) !in Assemble(es, inside, scratch).records
    decreases |es|
  {
    if es != [] {
      var rest := es[1..];
      TooShort(rest, false, [], n);
      if es[0].Got? {
        TooShort(rest, false, scratch, n);
        var data := es[0].data;
        if es[0].kind == FIRST_TYPE {
          TooShort(rest, true, data, n);
        } else if inside && (es[0].kind == MIDDLE_TYPE || es[0].kind == LAST_TYPE) {
          if Tainted(scratch) {
            var i :| 0 <= i < |scratch| && scratch[i] != 0;
            assert (scratch + data)[i] != 0;
          }
          if es[0].kind == MIDDLE_TYPE {
            TooShort(rest, true, scratch + data, n);
          }
        }
      }
    }
  }

  // Whatever is being put together, if it is not long, n zeros are not delivered from here on.
  ghost predicate Never(es: seq<Event>, n: nat, long: nat) {
    forall inside, scratch | |scratch| <= long :: Zeros(n) !in Assemble(es, inside, scratch).records
  }

  lemma {:induction false} NeverAfter(es: seq<Event>, x: seq<Event>, n: nat, long: nat, inside: bool, scratch: Bytes)
    requires Never(x, n, long) && |scratch| + Payload(es) <= long < n
    ensures Zeros(n) !in Assemble(es + x, inside, scratch).records
    decreases |es|
  {
    if es == [] {
      assert es + x == x;
    } else {
      var rest := es[1..];
      assert (es + x)[0] == es[0] && (es + x)[1..] == rest + x;
      NeverAfter(rest, x, n, long, false, []);
      NeverAfter(rest, x, n, long, false, scratch);
      if es[0].Got? {
        NeverAfter(rest, x, n, long, true, es[0].data);
        NeverAfter(rest, x, n, long, true, scratch + es[0].data);
      }
    }
  }

  lemma FullBlock(u: Bytes, q: nat)
    requires |u| >= BlockEnd(q) - q >= HEADER_SIZE
    ensures var k, p := BlockEnd(q) - q, PhysicalAt(u, q);
            && InBlock(u, q) == k && p == ParseBuffer(u[..k], false) && (p.Drop? || p.Piece?)
            && (p.Piece? ==> p.kind == u[6] && HEADER_SIZE + |p.data| <= k && p.data == u[HEADER_SIZE..HEADER_SIZE + |p.data|])
  {
    assert forall i | 0 <= i < BlockEnd(q) - q :: u[..BlockEnd(q) - q][i] == u[i];
  }

  lemma Resets(e: Event, rest: seq<Event>, inside: bool, scratch: Bytes)
    requires e.Got? ==> e.kind == ZERO_TYPE
    ensures Assemble([e] + rest, inside, scratch).records == Assemble(rest, false, []).records
  {
    assert ([e] + rest)[1..] == rest;
  }

  // In a full block the reader gets a record or loses the block.
  lemma FirstEvent(u: Bytes, q: nat) returns (e: Event, m: nat)
    requires |u| >= BlockEnd(q) - q >= HEADER_SIZE
    ensures HEADER_SIZE <= m <= BlockEnd(q) - q && Events(u, q) == [e] + Events(u[m..], q + m)
    ensures e.Got? ==> m == HEADER_SIZE + |e.data| && e.kind == u[6] && e.data == u[HEADER_SIZE..m]
    ensures Payload(Events(u[m..], q + m)) <= |u|
  {
    hide Events, BlockEnd, PhysicalAt, InBlock, ParseBuffer, Payload;
    var k, p := InBlock(u, q), PhysicalAt(u, q);
    FullBlock(u, q);
    m := Consumed(p, k);
    e := if p.Piece? then Got(p.kind, p.data) else Lost(k, p.report);
    OneRead(u, q, p, k, u[m..], q + m);
    PayloadFits(u[m..], q + m);
  }

  // A type byte of zero loses whatever was being put together.
  lemma TypeZero(u: Bytes, q: nat, n: nat, long: nat)
    requires |u| >= BlockEnd(q) - q >= HEADER_SIZE && u[6] == 0 && |u| < n
    ensures Never(Events(u, q), n, long)
  {
    hide Events, BlockEnd, Assemble, Zeros, Payload;
    var e, m := FirstEvent(u, q);
    var rest := Events(u[m..], q + m);
    TooShort(rest, false, [], n);
    forall inside, scratch | |scratch| <= long
      ensures Zeros(n) !in Assemble([e] + rest, inside, scratch).records
    {
      Resets(e, rest, inside, scratch);
    }
  }

  predicate StartsBlock(q: nat) {
    q % BLOCK_SIZE == 0
  }

  // The first type byte is that of a header which begins at offset e, and zeros follow it.
  ghost predicate BeginsLate(u: Bytes, e: nat) {
    && |u| >= BLOCK_SIZE && 1 <= e < HEADER_SIZE && u[e + 6] != 0
    && forall i | e + 6 < i <= 20 :: u[i] == 0
  }

  // A header that begins at most six bytes into the block: its type byte, which is not zero,
  // is taken for payload, or for part of a header with a type byte of zero.
  lemma HeaderTooLate(u: Bytes, q: nat, e: nat, n: nat, long: nat)
    requires StartsBlock(q) && BeginsLate(u, e) && |u| < n && long + HEADER_SIZE < n
    ensures Never(Events(u, q), n, long)
  {
    AtABoundary(q, 0);
    assert |u| >= BLOCK_SIZE;
    hide Events, BlockEnd, Never, Tainted, Payload, BeginsLate, StartsBlock;
    var first, m := FirstEvent(u, q);
    if first.Got? {
      PieceTooLate(u, q, e, n, long, first.data, m, u[m..]);
    }
    NeverFrom(first, Events(u[m..], q + m), n, long);
  }

  lemma PieceTooLate(u: Bytes, q: nat, e: nat, n: nat, long: nat, data: Bytes, m: nat, rest: Bytes)
    requires StartsBlock(q) && BeginsLate(u, e) && |u| < n && long + HEADER_SIZE < n
    requires HEADER_SIZE <= m <= BLOCK_SIZE && data == u[HEADER_SIZE..m] && rest == u[m..]
    ensures Tainted(data) || (long + |data| < n && Never(Events(rest, q + m), n, long + |data|))
  {
    hide Events, BlockEnd, Never;
    if |data| < e {
      AtABoundary(q, m);
      assert rest[6] == u[m + 6];
      TypeZero(rest, q + m, n, long + |data|);
    } else {
      assert data[e - 1] == u[e + 6];
    }
  }

  lemma NeverFrom(e: Event, rest: seq<Event>, n: nat, long: nat)
    requires Payload(rest) < n
    requires e.Got? ==> Tainted(e.data) || (long + |e.data| < n && Never(rest, n, long + |e.data|))
    ensures Never([e] + rest, n, long)
  {
    hide Assemble, Zeros, Tainted, Payload;
    forall inside, scratch | |scratch| <= long
      ensures Zeros(n) !in Assemble([e] + rest, inside, scratch).records
    {
      ShortOrTainted(e, rest, n, long, inside, scratch);
    }
  }

  lemma AtABoundary(q: nat, m: nat)
    requires q % BLOCK_SIZE == 0 && m < BLOCK_SIZE
    ensures BlockEnd(q + m) == q + BLOCK_SIZE
  {
  }

  lemma ShortOrTainted(e: Event, rest: seq<Event>, n: nat, long: nat, inside: bool, scratch: Bytes)
    requires Payload(rest) < n && |scratch| <= long
    requires e.Got? ==> Tainted(e.data) || (long + |e.data| < n && Never(rest, n, long + |e.data|))
    ensures Zeros(n) !in Assemble([e] + rest, inside, scratch).records
  {
    assert ([e] + rest)[1..] == rest;
    TooShort(rest, false, [], n);
    TooShort(rest, false, scratch, n);
    if e.Got? && Tainted(e.data) {
      var i :| 0 <= i < |e.data| && e.data[i] != 0;
      assert (scratch + e.data)[|scratch| + i] != 0;
      TooShort(rest, true, e.data, n);
      TooShort(rest, true, scratch + e.data, n);
    }
  }

  // ------------------------------------------------------------------ what a record of zeros looks like

  const FULL_ROOM: nat := BLOCK_SIZE - HEADER_SIZE

  // A block in the middle of the record.
  function MiddleBlock(): (b: Bytes)
    ensures |b| == BLOCK_SIZE
  {
    Header(MIDDLE_TYPE, Zeros(FULL_ROOM)) + Zeros(FULL_ROOM)
  }

  function MiddleBlocks(m: nat): (b: Bytes)
    ensures |b| == m * BLOCK_SIZE
  {
    if m == 0 then [] else MiddleBlock() + MiddleBlocks(m - 1)
  }

  lemma InMiddleBlock(i: nat)
    requires 6 <= i < BLOCK_SIZE
    ensures MiddleBlock()[i] == if i == 6 then MIDDLE_TYPE else 0
  {
  }

  lemma {:induction false} InMiddleBlocks(m: nat, k: nat, i: nat)
    requires k < m && i < BLOCK_SIZE
    ensures MiddleBlocks(m)[k * BLOCK_SIZE + i] == MiddleBlock()[i]
  {
    hide MiddleBlock;
    if k > 0 {
      InMiddleBlocks(m - 1, k - 1, i);
      assert MiddleBlocks(m)[k * BLOCK_SIZE + i] == MiddleBlocks(m - 1)[(k - 1) * BLOCK_SIZE + i];
    }
  }

  // The fragments of n zeros that start at a block.
  lemma {:induction false} FromABlock(pos: nat, m: nat, n: nat)
    requires pos % BLOCK_SIZE == 0 && n == m * FULL_ROOM + 1
    ensures RenderedAll(pos, FragmentsFrom(pos, Zeros(n), false)) ==
            MiddleBlocks(m) + (Header(LAST_TYPE, Zeros(1)) + Zeros(1))
    decreases m
  {
    hide Header, FragmentsFrom, RenderedAll, HeaderAt, BlockEnd;
    HeaderAtABlock(pos);
    if m == 0 {
      var f := Fragment(LAST_TYPE, Zeros(1));
      FirstFragment(pos, Zeros(1), false, 1, f);
      OneRendered(pos, f);
      assert Zeros(0) + Header(f.kind, f.data) + f.data == [] + (Header(LAST_TYPE, Zeros(1)) + Zeros(1));
    } else {
      var f := Fragment(MIDDLE_TYPE, Zeros(FULL_ROOM));
      assert Zeros(n)[..FULL_ROOM] == f.data && Zeros(n)[FULL_ROOM..] == Zeros(n - FULL_ROOM);
      FirstFragment(pos, Zeros(n), false, FULL_ROOM, f);
      RenderedCons(pos, f, FragmentsFrom(After(pos, f), Zeros(n - FULL_ROOM), false));
      FromABlock(pos + BLOCK_SIZE, m - 1, n - FULL_ROOM);
      assert Zeros(0) + Header(f.kind, f.data) + f.data == MiddleBlock();
      ConcatAssociates(MiddleBlock(), MiddleBlocks(m - 1), Header(LAST_TYPE, Zeros(1)) + Zeros(1));
    }
  }

  lemma HeaderAtABlock(pos: nat)
    requires pos % BLOCK_SIZE == 0
    ensures HeaderAt(pos) == pos && Room(pos) == FULL_ROOM && BlockEnd(pos) == pos + BLOCK_SIZE
  {
  }

  // Written from anywhere: up to a block's end, then m blocks and a last byte.
  lemma ZerosWritten(b: nat, m: nat, n: nat) returns (head: Bytes, tail: Bytes)
    requires m > 0 && n == Room(HeaderAt(b)) + m * FULL_ROOM + 1
    ensures RenderedAll(b, FragmentsOf(b, [Zeros(n)])) == head + (MiddleBlocks(m) + tail)
    ensures |tail| == 8 && |head| == BlockEnd(HeaderAt(b)) - b
  {
    hide Header, FragmentsFrom, RenderedAll;
    var room := Room(HeaderAt(b));
    var f := Fragment(FIRST_TYPE, Zeros(room));
    var p := After(b, f);
    tail := Header(LAST_TYPE, Zeros(1)) + Zeros(1);
    assert Zeros(n)[..room] == f.data && Zeros(n)[room..] == Zeros(n - room);
    var rest := FragmentsFrom(p, Zeros(n - room), false);
    FirstFragment(b, Zeros(n), true, room, f);
    RenderedCons(b, f, rest);
    FromABlock(p, m, n - room);
    head := Rendered(b, f);
    NoRecords(End(b, [f] + rest));
    assert FragmentsOf(b, [Zeros(n)]) == FragmentsFrom(b, Zeros(n), true);
  }

  // ------------------------------------------------------------------ the record that is lost

  // A writer that does not agree with the file about the block loses a record, whatever is in
  // the file: enough zeros are not read back, not even in part of another record.
  lemma LostOutOfStep(file: Bytes, b: nat) returns (n: nat)
    requires !Congruent(|file|, b)
    ensures Zeros(n) !in ReadAll(Continued(file, b, [Zeros(n)])).records
  {
    hide RenderedAll, FragmentsOf, Events, Assemble, MiddleBlocks, Zeros, HeaderAt, BlockEnd, Room, Congruent, Never, Payload;
    var d := |file| + (BlockEnd(HeaderAt(b)) - b);
    NotAtABlock(|file|, b, d);
    var x := d / BLOCK_SIZE + 1;
    n := Room(HeaderAt(b)) + 4 * x * FULL_ROOM + 1;
    var head, tail := ZerosWritten(b, 4 * x, n);
    var all := Continued(file, b, [Zeros(n)]);
    ConcatAssociates(file, head, MiddleBlocks(4 * x) + tail);
    InTheMiddle(file + head, tail, all, x, d % BLOCK_SIZE, n);
    var before := EveryBlock(all, 0, 2 * x * BLOCK_SIZE);
    NeverAfter(before, Events(all[2 * x * BLOCK_SIZE..], 2 * x * BLOCK_SIZE), n, 2 * x * BLOCK_SIZE, false, []);
  }

  lemma NotAtABlock(len: nat, b: nat, d: nat)
    requires !Congruent(len, b) && d == len + (BlockEnd(HeaderAt(b)) - b)
    ensures d % BLOCK_SIZE != 0
  {
    hide HeaderAt;
    if d % BLOCK_SIZE == 0 {
      Difference(d, BlockEnd(HeaderAt(b)));
    }
  }

  lemma Difference(p: nat, q: nat)
    requires p % BLOCK_SIZE == 0 && q % BLOCK_SIZE == 0
    ensures (p - q) % BLOCK_SIZE == 0
  {
  }

  // At the boundary in the middle of the zeros the reader finds no header, and it has neither
  // read nor can it still read as much as the record holds.
  lemma InTheMiddle(pre: Bytes, tail: Bytes, all: Bytes, x: nat, e: nat, n: nat)
    requires x > 0 && 0 < e < BLOCK_SIZE && |pre| == (x - 1) * BLOCK_SIZE + e && |tail| == 8
    requires all == pre + (MiddleBlocks(4 * x) + tail) && n > 4 * x * FULL_ROOM
    ensures var q := 2 * x * BLOCK_SIZE; q <= |all| && q < n && Never(Events(all[q..], q), n, q)
  {
    hide Events, Assemble, MiddleBlock, MiddleBlocks, Never, PhysicalAt, InBlock;
    var q := 2 * x * BLOCK_SIZE;
    var u := all[q..];
    forall i | 6 <= i <= 20
      ensures i < e ==> u[i] == 0
      ensures e + 6 <= i ==> u[i] == if i == e + 6 then MIDDLE_TYPE else 0
    {
      InMiddleAt(pre, tail, all, x, e, i);
    }
    AtABoundary(q, 0);
    if e > 6 {
      TypeZero(u, q, n, q);
    } else {
      HeaderTooLate(u, q, e, n, q);
    }
  }

  lemma InMiddleAt(pre: Bytes, tail: Bytes, all: Bytes, x: nat, e: nat, i: nat)
    requires x > 0 && 0 < e < BLOCK_SIZE && |pre| == (x - 1) * BLOCK_SIZE + e && 6 <= i <= 20
    requires all == pre + (MiddleBlocks(4 * x) + tail)
    ensures 2 * x * BLOCK_SIZE + i < |all|
    ensures i < e ==> all[2 * x * BLOCK_SIZE + i] == 0
    ensures e + 6 <= i ==> all[2 * x * BLOCK_SIZE + i] == if i == e + 6 then MIDDLE_TYPE else 0
  {
    hide MiddleBlock, MiddleBlocks;
    if i < e {
      InMiddleBlocks(4 * x, x, BLOCK_SIZE - e + i);
      InMiddleBlock(BLOCK_SIZE - e + i);
    } else if e + 6 <= i {
      InMiddleBlocks(4 * x, x + 1, i - e);
      InMiddleBlock(i - e);
    }
  }
}
