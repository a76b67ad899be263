// Reading whole log files back: the round trip, torn tails and contained corruption
// (db/log_reader.cc:56-271 over what db/log_writer.cc:34-108 writes).
module LogFiles {
  import opened Coding
  import opened LogFormat
  import opened LogRecords

  lemma Concat(a: Bytes, b: Bytes)
    ensures (a + b)[..|a|] == a && (a + b)[|a|..] == b
  {
  }

  lemma PrefixOfConcat(a: Bytes, b: Bytes, n: nat)
    requires n <= |a| + |b|
    ensures (a + b)[..n] == if n <= |a| then a[..n] else a + b[..n - |a|]
  {
  }

  lemma SuffixOfConcat(a: Bytes, b: Bytes, n: nat)
    requires |a| <= n <= |a| + |b|
    ensures (a + b)[n..] == b[n - |a|..]
  {
  }

  // ------------------------------------------------------------------ intact bytes

  lemma NothingLeft(pos: nat)
    ensures Events([], pos) == []
  {
  }

  // One read: the lemmas below name every offset and every rest of the file, so that the
  // verifier compares them without arithmetic.
  lemma OneRead(left: Bytes, pos: nat, p: Physical, n: nat, left': Bytes, pos': nat)
    requires p == PhysicalAt(left, pos) && !p.AtEof? && n == InBlock(left, pos)
    requires left' == left[Consumed(p, n)..] && pos' == pos + Consumed(p, n)
    ensures Events(left, pos) == EventOf(p, n) + Events(left', pos')
  {
  }

  // A trailer, as long as the next header is in the file.
  lemma SkipsTrailer(z: Bytes, left: Bytes, pos: nat, p: nat)
    requires p == HeaderAt(pos) && |z| == p - pos
    ensures Events(z + left, pos) == Events(left, p)
  {
    if p == pos {
      assert z + left == left;
    } else {
      Concat(z, left);
      OneRead(z + left, pos, Skip, |z|, left, p);
      assert EventOf(Skip, |z|) + Events(left, p) == Events(left, p);
    }
  }

  lemma RecordParses(left: Bytes, p: nat, f: Fragment, tail: Bytes)
    requires HEADER_SIZE + |f.data| <= BlockEnd(p) - p && FULL_TYPE <= f.kind <= LAST_TYPE
    requires left == Header(f.kind, f.data) + f.data + tail
    ensures PhysicalAt(left, p) == Piece(f.kind, f.data)
  {
    var r, n := Header(f.kind, f.data) + f.data, InBlock(left, p);
    PrefixOfConcat(r, tail, n);
    RenderedParses(f, tail[..n - |r|], |left| < BlockEnd(p) - p);
    assert n == |r| ==> left[..n] == r + tail[..0];
  }

  // A header and payload at their place in a block.
  lemma RecordIsRead(left: Bytes, p: nat, f: Fragment, tail: Bytes, p': nat)
    requires HEADER_SIZE + |f.data| <= BlockEnd(p) - p && FULL_TYPE <= f.kind <= LAST_TYPE
    requires left == Header(f.kind, f.data) + f.data + tail && p' == p + HEADER_SIZE + |f.data|
    ensures Events(left, p) == [Got(f.kind, f.data)] + Events(tail, p')
  {
    RecordParses(left, p, f, tail);
    Concat(Header(f.kind, f.data) + f.data, tail);
    OneRead(left, p, Piece(f.kind, f.data), InBlock(left, p), tail, p');
  }

  lemma FragmentIsRead(pos: nat, f: Fragment, tail: Bytes, left: Bytes, p': nat)
    requires Fits(pos, f) && FULL_TYPE <= f.kind <= LAST_TYPE && p' == After(pos, f)
    requires left == Rendered(pos, f) + tail
    ensures Events(left, pos) == [Got(f.kind, f.data)] + Events(tail, p')
  {
    hide Events, PhysicalAt, ParseBuffer, InBlock, Header;
    var p := HeaderAt(pos);
    var z, r := Zeros(p - pos), Header(f.kind, f.data) + f.data;
    assert left == z + (r + tail);
    SkipsTrailer(z, r + tail, pos, p);
    RecordIsRead(r + tail, p, f, tail, p');
  }

  lemma {:induction false} FragmentsAreRead(pos: nat, fs: seq<Fragment>, tail: Bytes, left: Bytes, end: nat)
    requires AllFit(pos, fs) && left == RenderedAll(pos, fs) + tail && end == End(pos, fs)
    ensures Events(left, pos) == Pieces(fs) + Events(tail, end)
    decreases |fs|
  {
    hide Events, Rendered, Header;
    if fs == [] {
      assert left == tail && Pieces(fs) + Events(tail, end) == Events(tail, end);
    } else {
      var p := After(pos, fs[0]);
      var left' := RenderedAll(p, fs[1..]) + tail;
      ConcatAssociates(Rendered(pos, fs[0]), RenderedAll(p, fs[1..]), tail);
      FragmentIsRead(pos, fs[0], left', left, p);
      FragmentsAreRead(p, fs[1..], tail, left', end);
      PiecesCons(fs);
      ConcatAssociates([Got(fs[0].kind, fs[0].data)], Pieces(fs[1..]), Events(tail, end));
    }
  }

  // ------------------------------------------------------------------ a torn tail

  lemma CutFragmentIsEof(pos: nat, f: Fragment, n: nat)
    requires Fits(pos, f) && n < After(pos, f) - pos
    ensures Events(Rendered(pos, f)[..n], pos) == []
  {
    var p := HeaderAt(pos);
    var z, r := Zeros(p - pos), Header(f.kind, f.data) + f.data;
    assert Rendered(pos, f) == z + r;
    PrefixOfConcat(z, r, n);
    if n >= |z| {
      var cut := r[..n - |z|];
      assert n == |z| ==> (z + r)[..n] == z + cut;
      SkipsTrailer(z, cut, pos, p);
      TruncatedIsEof(f, n - |z|);
      assert cut[..InBlock(cut, p)] == cut;
    }
  }

  lemma TakeCons(pos: nat, fs: seq<Fragment>, m: nat, p: nat, rest: seq<Fragment>)
    requires 0 < m <= |fs| && Fits(pos, fs[0]) && FULL_TYPE <= fs[0].kind <= LAST_TYPE
    requires p == After(pos, fs[0]) && rest == fs[1..][..m - 1] && AllFit(p, rest)
    ensures AllFit(pos, fs[..m]) && End(pos, fs[..m]) == End(p, rest)
    ensures RenderedAll(pos, fs[..m]) == Rendered(pos, fs[0]) + RenderedAll(p, rest)
  {
    assert fs[..m][0] == fs[0] && fs[..m][1..] == rest;
  }

  // A prefix of the bytes is whole fragments, then a piece of the next one.
  lemma {:induction false} CutSplits(pos: nat, fs: seq<Fragment>, n: nat, m: nat) returns (cut: Bytes)
    requires AllFit(pos, fs) && n <= |RenderedAll(pos, fs)| && m == CountWithin(pos, fs, pos + n)
    ensures AllFit(pos, fs[..m]) && RenderedAll(pos, fs)[..n] == RenderedAll(pos, fs[..m]) + cut
    ensures Events(cut, End(pos, fs[..m])) == []
    decreases |fs|
  {
    hide Events, Rendered, Header, FragmentsOf;
    if fs == [] {
      cut := [];
      assert fs[..m] == [];
      NothingLeft(End(pos, []));
    } else {
      var f, p := fs[0], After(pos, fs[0]);
      var r, rest := Rendered(pos, f), RenderedAll(p, fs[1..]);
      PrefixOfConcat(r, rest, n);
      if |r| <= n {
        cut := CutSplits(p, fs[1..], n - |r|, m - 1);
        assert n == |r| ==> r[..n] == r + rest[..0];
        TakeCons(pos, fs, m, p, fs[1..][..m - 1]);
        ConcatAssociates(r, RenderedAll(p, fs[1..][..m - 1]), cut);
      } else {
        cut := r[..n];
        CutFragmentIsEof(pos, f, n);
        assert fs[..m] == [] && RenderedAll(pos, []) + cut == cut;
      }
    }
  }

  lemma TornEvents(pos: nat, fs: seq<Fragment>, n: nat, left: Bytes)
    requires AllFit(pos, fs) && n <= |RenderedAll(pos, fs)| && left == RenderedAll(pos, fs)[..n]
    ensures Events(left, pos) == Pieces(fs[..CountWithin(pos, fs, pos + n)])
  {
    hide *;
    var m := CountWithin(pos, fs, pos + n);
    var cut := CutSplits(pos, fs, n, m);
    FragmentsAreRead(pos, fs[..m], cut, left, End(pos, fs[..m]));
    assert Pieces(fs[..m]) + [] == Pieces(fs[..m]);
  }

  // Reading any byte prefix of a log gives exactly the records that lie wholly in it, in
  // order, and reports no corruption.
  lemma TornTail(records: seq<Bytes>, n: nat)
    requires n <= |LogBytes(records)|
    ensures ReadAll(LogBytes(records)[..n]) == Outcome(records[..WholeRecords(0, records, n)], [])
  {
    hide RenderedAll, FragmentsOf, Events, Assemble, WholeRecords;
    var fs, left := FragmentsOf(0, records), LogBytes(records)[..n];
    TornTailFrom(0, records, n, left, fs, Events(left, 0));
  }

  lemma TornTailFrom(pos: nat, records: seq<Bytes>, n: nat, left: Bytes, fs: seq<Fragment>, es: seq<Event>)
    requires fs == FragmentsOf(pos, records) && n <= |RenderedAll(pos, fs)|
    requires left == RenderedAll(pos, fs)[..n] && es == Events(left, pos)
    ensures Assemble(es, false, []) == Outcome(records[..WholeRecords(pos, records, pos + n)], [])
  {
    hide *;
    TornEvents(pos, fs, n, left);
    TornRecords(pos, records, pos + n, fs, es);
  }

  // The round trip: every sequence of records, whatever their lengths.
  lemma RoundTrip(records: seq<Bytes>)
    ensures ReadAll(LogBytes(records)) == Outcome(records, [])
  {
    var fs, log := FragmentsOf(0, records), LogBytes(records);
    assert RenderedAll(0, fs) + [] == log;
    FragmentsAreRead(0, fs, [], log, End(0, fs));
    assert Events([], End(0, fs)) == [];
    assert Pieces(fs) + [] == Pieces(fs);
    AllRecords(0, records);
  }

  // ------------------------------------------------------------------ header offsets

  lemma {:induction false} HeaderOfEnd(pos: nat, fs: seq<Fragment>, i: nat)
    requires i < |fs|
    ensures HeaderOf(pos, fs, i) == HeaderAt(End(pos, fs[..i]))
    ensures End(pos, fs[..i + 1]) == After(End(pos, fs[..i]), fs[i])
    decreases |fs|
  {
    if i > 0 {
      assert fs[..i][0] == fs[0] && fs[..i][1..] == fs[1..][..i - 1];
      assert fs[..i + 1][0] == fs[0] && fs[..i + 1][1..] == fs[1..][..i];
      HeaderOfEnd(After(pos, fs[0]), fs[1..], i - 1);
    } else {
      assert fs[..1] == [fs[0]] && [fs[0]][1..] == [];
    }
  }

  lemma {:induction false} HeadersIncrease(pos: nat, fs: seq<Fragment>, i: nat, j: nat)
    requires i < j < |fs|
    ensures HeaderOf(pos, fs, i) < HeaderOf(pos, fs, j)
    decreases |fs|
  {
    if i > 0 {
      HeadersIncrease(After(pos, fs[0]), fs[1..], i - 1, j - 1);
    }
  }

  // The first fragment whose header is at or after q.
  lemma {:induction false} FirstHeaderFrom(pos: nat, fs: seq<Fragment>, q: nat, n: nat) returns (j: nat)
    requires n <= |fs|
    ensures j <= n && forall k | 0 <= k < n :: k < j <==> HeaderOf(pos, fs, k) < q
  {
    if n == 0 {
      j := 0;
    } else if HeaderOf(pos, fs, n - 1) < q {
      j := n;
      forall k | 0 <= k < n - 1 {
        HeadersIncrease(pos, fs, k, n - 1);
      }
    } else {
      j := FirstHeaderFrom(pos, fs, q, n - 1);
    }
  }

  lemma HoleFound(pos: nat, fs: seq<Fragment>, i: nat, o: nat, q: nat) returns (j: nat)
    requires i < |fs| && o == HeaderOf(pos, fs, i) && o < q
    ensures i < j <= |fs| && HoleIs(pos, fs, o, q, i, j)
  {
    j := FirstHeaderFrom(pos, fs, q, |fs|);
    forall k | 0 <= k < |fs| && k != i
      ensures k < i <==> HeaderOf(pos, fs, k) < o
    {
      HeadersIncrease(pos, fs, if k < i then k else i, if k < i then i else k);
    }
  }

  lemma {:induction false} AllFitSplit(pos: nat, fs: seq<Fragment>, i: nat)
    requires AllFit(pos, fs) && i <= |fs|
    ensures AllFit(pos, fs[..i]) && AllFit(End(pos, fs[..i]), fs[i..])
    ensures i < |fs| ==> Fits(End(pos, fs[..i]), fs[i])
    ensures End(pos, fs) == End(End(pos, fs[..i]), fs[i..])
    decreases |fs|
  {
    if i > 0 {
      assert fs[..i][0] == fs[0] && fs[..i][1..] == fs[1..][..i - 1] && fs[i..] == fs[1..][i - 1..];
      AllFitSplit(After(pos, fs[0]), fs[1..], i - 1);
    } else {
      assert fs[..0] == [] && fs[0..] == fs;
    }
  }

  lemma RenderedSplit(pos: nat, fs: seq<Fragment>, i: nat, mid: nat)
    requires AllFit(pos, fs) && i <= |fs| && mid == End(pos, fs[..i])
    ensures AllFit(pos, fs[..i]) && AllFit(mid, fs[i..])
    ensures RenderedAll(pos, fs) == RenderedAll(pos, fs[..i]) + RenderedAll(mid, fs[i..])
  {
    AllFitSplit(pos, fs, i);
    assert fs[..i] + fs[i..] == fs;
    RenderedConcat(pos, fs[..i], fs[i..]);
  }

  // ------------------------------------------------------------------ corruption

  lemma FragmentFromTheBoundary(pos: nat, q: nat, f: Fragment, z: Bytes)
    requires Fits(pos, f) && HeaderAt(pos) == q && HeaderAt(q) == q && z == Zeros(q - pos)
    ensures Fits(q, f) && After(q, f) == After(pos, f) && Rendered(pos, f) == z + Rendered(q, f)
  {
    var h := Header(f.kind, f.data);
    assert Zeros(q - q) + h + f.data == h + f.data;
    ConcatAssociates(z, h, f.data);
  }

  // Fragments laid out from just before a block boundary are laid out from the boundary.
  lemma FromTheBoundary(pos: nat, q: nat, f: Fragment, fs: seq<Fragment>, z: Bytes)
    requires AllFit(pos, [f] + fs) && HeaderAt(pos) == q && HeaderAt(q) == q && z == Zeros(q - pos)
    ensures AllFit(q, [f] + fs) && RenderedAll(pos, [f] + fs) == z + RenderedAll(q, [f] + fs)
  {
    RenderedCons(pos, f, fs);
    FragmentFromTheBoundary(pos, q, f, z);
    assert ([f] + fs)[1..] == fs;
    RenderedCons(q, f, fs);
    ConcatAssociates(z, Rendered(q, f), RenderedAll(After(pos, f), fs));
  }

  // The fragment before the boundary ends at or before it, and the one after starts there.
  lemma BoundaryBetween(fs: seq<Fragment>, j: nat, q: nat, pos: nat)
    requires AllFit(0, fs) && 0 < j <= |fs| && q % BLOCK_SIZE == 0 && pos == End(0, fs[..j])
    requires HeaderOf(0, fs, j - 1) < q && (j < |fs| ==> HeaderOf(0, fs, j) >= q)
    ensures pos <= q && (j < |fs| ==> HeaderAt(pos) == q && HeaderAt(q) == q)
  {
    hide AllFit, Header, Rendered, RenderedAll, HeaderOf, End;
    AllFitSplit(0, fs, j - 1);
    HeaderOfEnd(0, fs, j - 1);
    if j < |fs| {
      HeaderOfEnd(0, fs, j);
    }
  }

  // After the damaged block, the reader is back on the writer's fragments.
  lemma ResumesAtTheNextBlock(fs: seq<Fragment>, j: nat, q: nat, log: Bytes, post: Bytes)
    requires AllFit(0, fs) && log == RenderedAll(0, fs) && 0 < j <= |fs|
    requires q % BLOCK_SIZE == 0 && q <= |log| && post == log[q..]
    requires HeaderOf(0, fs, j - 1) < q && (j < |fs| ==> HeaderOf(0, fs, j) >= q)
    ensures Events(post, q) == Pieces(fs[j..])
  {
    hide Events, Rendered, Header, ParseBuffer;
    var pos := End(0, fs[..j]);
    BoundaryBetween(fs, j, q, pos);
    RenderedSplit(0, fs, j, pos);
    if j < |fs| {
      assert [fs[j]] + fs[j + 1..] == fs[j..];
      FromTheBoundary(pos, q, fs[j], fs[j + 1..], Zeros(q - pos));
      SuffixOfConcat(RenderedAll(0, fs[..j]), RenderedAll(pos, fs[j..]), q);
      assert post == RenderedAll(q, fs[j..]) + [];
      FragmentsAreRead(q, fs[j..], [], post, End(q, fs[j..]));
      NothingLeft(End(q, fs[j..]));
      assert Pieces(fs[j..]) + [] == Pieces(fs[j..]);
    } else {
      assert fs[j..] == [] && post == [];
      NothingLeft(q);
    }
  }

  // A loss at the very end costs no record.
  lemma {:induction false} TrailingLoss(es: seq<Event>, lost: Event, inside: bool, scratch: Bytes)
    requires lost.Lost?
    ensures Assemble(es + [lost], inside, scratch).records == Assemble(es, inside, scratch).records
    decreases |es|
  {
    var all := es + [lost];
    if es == [] {
      assert all == [lost] && all[1..] == [];
    } else {
      assert all[0] == es[0] && all[1..] == es[1..] + [lost];
      match es[0] {
        case Lost(_, _) => TrailingLoss(es[1..], lost, false, []);
        case Got(kind, data) =>
          TrailingLoss(es[1..], lost, false, []);
          TrailingLoss(es[1..], lost, false, scratch);
          TrailingLoss(es[1..], lost, true, data);
          TrailingLoss(es[1..], lost, true, scratch + data);
      }
    }
  }

  // file is the log with the bytes from offset o to the end of its block (or of the file)
  // replaced by `bad`, at which no physical record can be read any more.  `rest` is bad + post.
  ghost predicate Damaged(log: Bytes, o: nat, pre: Bytes, bad: Bytes, post: Bytes, rest: Bytes) {
    && |pre| == o && |pre| + |bad| + |post| == |log| && rest == bad + post
    && pre == log[..o] && post == log[o + |bad|..]
    && |bad| == InBlock(rest, o)
    && !PhysicalAt(rest, o).Piece?
  }

  // The undamaged bytes are whole fragments and the trailer after them.
  lemma UndamagedPart(fs: seq<Fragment>, i: nat, pos: nat, o: nat, log: Bytes, z: Bytes)
    requires AllFit(0, fs) && i < |fs| && pos == End(0, fs[..i]) && log == RenderedAll(0, fs)
    requires o == HeaderOf(0, fs, i) && o <= |log|
    ensures o == HeaderAt(pos) && AllFit(0, fs[..i])
    ensures z == Zeros(o - pos) ==> log[..o] == RenderedAll(0, fs[..i]) + z
  {
    hide RenderedAll, Events;
    HeaderOfEnd(0, fs, i);
    RenderedSplit(0, fs, i, pos);
    var f, more := fs[i], fs[i + 1..];
    assert [f] + more == fs[i..];
    RenderedCons(pos, f, more);
    var whole, r := RenderedAll(0, fs[..i]), Rendered(pos, f);
    PrefixOfConcat(whole, RenderedAll(pos, fs[i..]), o);
    PrefixOfConcat(r, RenderedAll(After(pos, f), more), o - pos);
    assert r[..o - pos] == Zeros(o - pos);
    assert o == |whole| ==> log[..o] == whole + RenderedAll(pos, fs[i..])[..0];
  }

  lemma DamagedEvents(fs: seq<Fragment>, i: nat, pos: nat, o: nat, pre: Bytes, rest: Bytes, file: Bytes, z: Bytes)
    requires AllFit(0, fs) && i < |fs| && pos == End(0, fs[..i]) && AllFit(0, fs[..i]) && o == HeaderAt(pos)
    requires z == Zeros(o - pos) && pre == RenderedAll(0, fs[..i]) + z && file == pre + rest
    ensures Events(file, 0) == Pieces(fs[..i]) + Events(rest, o)
  {
    hide *;
    ConcatAssociates(RenderedAll(0, fs[..i]), z, rest);
    FragmentsAreRead(0, fs[..i], z + rest, file, pos);
    SkipsTrailer(z, rest, pos, o);
  }

  // Corruption is contained in its block.  Take any log, and let the bytes from the header
  // of fragment i to the end of that block be replaced by anything that does not pass the
  // length, type and checksum tests there: ReadRecord delivers, in order, exactly the
  // records that have no fragment in the damaged stretch.
  lemma CorruptionIsContained(records: seq<Bytes>, i: nat, pre: Bytes, bad: Bytes, post: Bytes)
    requires i < |FragmentsOf(0, records)|
    requires Damaged(LogBytes(records), HeaderOf(0, FragmentsOf(0, records), i), pre, bad, post, bad + post)
    ensures var o := HeaderOf(0, FragmentsOf(0, records), i);
            ReadAll(pre + (bad + post)).records == Untouched(0, records, o, BlockEnd(o))
  {
    hide RenderedAll, FragmentsOf, Events, Assemble, Untouched, HeaderOf, PhysicalAt, InBlock, BlockEnd, Damaged;
    var fs := FragmentsOf(0, records);
    var o := HeaderOf(0, fs, i);
    DamagedFileIsRead(records, fs, i, o, BlockEnd(o), LogBytes(records), pre, bad, post, bad + post, pre + (bad + post));
  }

  lemma DamagedFileIsRead(records: seq<Bytes>, fs: seq<Fragment>, i: nat, o: nat, q: nat, log: Bytes,
                          pre: Bytes, bad: Bytes, post: Bytes, rest: Bytes, file: Bytes)
    requires fs == FragmentsOf(0, records) && log == RenderedAll(0, fs)
    requires i < |fs| && o == HeaderOf(0, fs, i) && q == BlockEnd(o)
    requires Damaged(log, o, pre, bad, post, rest) && file == pre + rest
    ensures Assemble(Events(file, 0), false, []).records == Untouched(0, records, o, q)
  {
    hide Events, Assemble, RenderedAll, FragmentsOf, ParseBuffer, Untouched, Pieces;
    var pos := End(0, fs[..i]);
    HeaderOfEnd(0, fs, i);
    HeaderInFile(fs, i);
    var z := Zeros(o - pos);
    UndamagedPart(fs, i, pos, o, log, z);
    DamagedEvents(fs, i, pos, o, pre, rest, file, z);
    var j := HoleFound(0, fs, i, o, q);
    var p := PhysicalAt(rest, o);
    var lost := Lost(|bad|, p.Drop? && p.report);
    if o + |bad| == q {
      DamageInAFullBlock(fs, j, o, q, log, bad, post, rest, p, lost);
    } else {
      DamageAtTheEnd(fs, j, o, q, log, bad, rest, p, lost);
    }
    DeliveredAroundTheHole(records, fs, i, j, o, q, lost, Events(rest, o));
  }

  // The reader loses the block and is then back on the fragments from j.
  lemma DamageInAFullBlock(fs: seq<Fragment>, j: nat, o: nat, q: nat, log: Bytes, bad: Bytes, post: Bytes, rest: Bytes,
                           p: Physical, lost: Event)
    requires AllFit(0, fs) && log == RenderedAll(0, fs) && 0 < j <= |fs|
    requires HeaderOf(0, fs, j - 1) < q && (j < |fs| ==> HeaderOf(0, fs, j) >= q)
    requires q == BlockEnd(o) == o + |bad| <= |log| && post == log[q..] && rest == bad + post && |bad| >= HEADER_SIZE
    requires p == PhysicalAt(rest, o) && !p.Piece? && lost == Lost(|bad|, p.Drop? && p.report)
    ensures Events(rest, o) == [lost] + Pieces(fs[j..])
  {
    hide Events, RenderedAll, ParseBuffer, AllFit, HeaderOf, Pieces;
    ResumesAtTheNextBlock(fs, j, q, log, post);
    Concat(bad, post);
    OneRead(rest, o, p, |bad|, post, q);
  }

  // In the last block, a bad length reads as the end of the file.
  lemma DamageAtTheEnd(fs: seq<Fragment>, j: nat, o: nat, q: nat, log: Bytes, bad: Bytes, rest: Bytes,
                       p: Physical, lost: Event)
    requires AllFit(0, fs) && log == RenderedAll(0, fs) && 0 < j <= |fs|
    requires j < |fs| ==> HeaderOf(0, fs, j) >= q
    requires q == BlockEnd(o) > |log| == o + |bad| && rest == bad + [] && |bad| >= HEADER_SIZE
    requires p == PhysicalAt(rest, o) && !p.Piece? && lost == Lost(|bad|, p.Drop? && p.report)
    ensures j == |fs| && (Events(rest, o) == [lost] + Pieces(fs[j..]) || Events(rest, o) == [])
  {
    if j < |fs| {
      HeaderInFile(fs, j);
    }
    if p.Drop? {
      OneRead(rest, o, p, |bad|, [], o + |bad|);
      assert Events([], o + |bad|) == [] && Pieces(fs[j..]) == [];
    }
  }

  lemma DeliveredAroundTheHole(records: seq<Bytes>, fs: seq<Fragment>, i: nat, j: nat, o: nat, q: nat, lost: Event,
                               after: seq<Event>)
    requires fs == FragmentsOf(0, records) && i < j <= |fs| && o < q && HoleIs(0, fs, o, q, i, j) && lost.Lost?
    requires after == [lost] + Pieces(fs[j..]) || (j == |fs| && after == [])
    ensures Assemble(Pieces(fs[..i]) + after, false, []).records == Untouched(0, records, o, q)
  {
    hide *;
    AroundTheHole(0, records, o, q, i, j, lost);
    if after == [] {
      assert fs[j..] == [];
      assert Pieces(fs[..i]) + [lost] + Pieces(fs[j..]) == Pieces(fs[..i]) + [lost];
      assert Pieces(fs[..i]) + after == Pieces(fs[..i]);
      TrailingLoss(Pieces(fs[..i]), lost, false, []);
    } else {
      ConcatAssociates(Pieces(fs[..i]), [lost], Pieces(fs[j..]));
    }
  }

  lemma HeaderInFile(fs: seq<Fragment>, j: nat)
    requires AllFit(0, fs) && j < |fs|
    ensures HeaderOf(0, fs, j) + HEADER_SIZE <= End(0, fs)
  {
    AllFitSplit(0, fs, j);
    HeaderOfEnd(0, fs, j);
    EndGrows(After(End(0, fs[..j]), fs[j]), fs[j..][1..]);
  }
}
