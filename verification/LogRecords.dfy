// Reassembling logical records from fragments: ReadRecord (db/log_reader.cc:56-174) against
// the fragmentation of AddRecord (db/log_writer.cc:34-80), before any byte is looked at.
module LogRecords {
  import opened Coding
  import opened LogFormat

  function Pieces(fs: seq<Fragment>): (es: seq<Event>)
    ensures |es| == |fs|
  {
    seq(|fs|, i requires 0 <= i < |fs| => Got(fs[i].kind, fs[i].data))
  }

  lemma PiecesConcat(a: seq<Fragment>, b: seq<Fragment>)
    ensures Pieces(a + b) == Pieces(a) + Pieces(b)
  {
  }

  lemma PiecesCons(fs: seq<Fragment>)
    requires fs != []
    ensures Pieces(fs) == [Got(fs[0].kind, fs[0].data)] + Pieces(fs[1..])
  {
  }

  // fs are fragments of data: FULL alone, or FIRST MIDDLE* LAST, cut anywhere.
  predicate IsFragmentation(fs: seq<Fragment>, data: Bytes, begin: bool)
    decreases |fs|
  {
    && |fs| > 0
    && if |fs| == 1 then fs[0] == Fragment(KindOf(begin, true), data)
       else
         && fs[0].kind == KindOf(begin, false) && fs[0].data <= data
         && IsFragmentation(fs[1..], data[|fs[0].data|..], false)
  }

  lemma {:induction false} FragmentsAreAFragmentation(pos: nat, data: Bytes, begin: bool)
    ensures IsFragmentation(FragmentsFrom(pos, data, begin), data, begin)
    decreases |data|, if BlockEnd(HeaderAt(pos)) - HeaderAt(pos) == HEADER_SIZE then 1 else 0
  {
    var room := Room(HeaderAt(pos));
    if |data| > room {
      var f := Fragment(KindOf(begin, false), data[..room]);
      FragmentsAreAFragmentation(After(pos, f), data[room..], false);
      assert FragmentsFrom(pos, data, begin)[1..] == FragmentsFrom(After(pos, f), data[room..], false);
    }
  }

  // ------------------------------------------------------------------ one record

  lemma {:induction false} WholeRecord(fs: seq<Fragment>, data: Bytes, begin: bool, scratch: Bytes, rest: seq<Event>)
    requires IsFragmentation(fs, data, begin) && (begin ==> scratch == [])
    ensures Assemble(Pieces(fs) + rest, !begin, scratch) == Delivered(scratch + data, Assemble(rest, false, []))
    decreases |fs|
  {
    var es := Pieces(fs) + rest;
    if |fs| == 1 {
      assert es[1..] == rest && scratch + data == if begin then data else scratch + data;
    } else {
      var f, n := fs[0], |fs[0].data|;
      assert es[0] == Got(f.kind, f.data) && es[1..] == Pieces(fs[1..]) + rest;
      assert scratch + f.data + data[n..] == scratch + data;
      assert begin ==> scratch + f.data == f.data;
      WholeRecord(fs[1..], data[n..], false, scratch + f.data, rest);
    }
  }

  // A record the file ends in the middle of is ignored, and is not reported.
  lemma {:induction false} CutRecord(fs: seq<Fragment>, data: Bytes, begin: bool, scratch: Bytes, k: nat)
    requires IsFragmentation(fs, data, begin) && (begin ==> scratch == []) && k < |fs|
    ensures Assemble(Pieces(fs[..k]), !begin, scratch) == Outcome([], [])
    decreases |fs|
  {
    if k > 0 {
      var f, es := fs[0], Pieces(fs[..k]);
      assert es[0] == Got(f.kind, f.data) && es[1..] == Pieces(fs[1..][..k - 1]);
      assert begin ==> scratch + f.data == f.data;
      CutRecord(fs[1..], data[|f.data|..], false, scratch + f.data, k - 1);
    }
  }

  // A record interrupted by a loss is dropped.
  lemma {:induction false} InterruptedRecord(fs: seq<Fragment>, data: Bytes, begin: bool, scratch: Bytes, k: nat,
                                             lost: Event, rest: seq<Event>)
    requires IsFragmentation(fs, data, begin) && (begin ==> scratch == []) && k < |fs| && lost.Lost?
    ensures Assemble(Pieces(fs[..k]) + [lost] + rest, !begin, scratch).records == Assemble(rest, false, []).records
    decreases |fs|
  {
    var es := Pieces(fs[..k]) + [lost] + rest;
    if k == 0 {
      assert es[0] == lost && es[1..] == rest;
    } else {
      var f := fs[0];
      assert es[0] == Got(f.kind, f.data) && es[1..] == Pieces(fs[1..][..k - 1]) + [lost] + rest;
      assert begin ==> scratch + f.data == f.data;
      InterruptedRecord(fs[1..], data[|f.data|..], false, scratch + f.data, k - 1, lost, rest);
    }
  }

  // The fragments left of a record whose start was lost are dropped.
  lemma {:induction false} HeadlessRecord(fs: seq<Fragment>, data: Bytes, begin: bool, k: nat, rest: seq<Event>)
    requires IsFragmentation(fs, data, begin) && k <= |fs| && (begin ==> k > 0)
    ensures Assemble(Pieces(fs[k..]) + rest, false, []).records == Assemble(rest, false, []).records
    decreases |fs|, |fs| - k
  {
    var es := Pieces(fs[k..]) + rest;
    if k == |fs| {
      assert es == rest;
    } else if k > 0 {
      assert fs[k..] == fs[1..][k - 1..];
      HeadlessRecord(fs[1..], data[|fs[0].data|..], false, k - 1, rest);
    } else {
      assert es[1..] == Pieces(fs[1..]) + rest;
      if |fs| > 1 {
        HeadlessRecord(fs[1..], data[|fs[0].data|..], false, 0, rest);
      } else {
        assert es[1..] == rest;
      }
    }
  }

  // ------------------------------------------------------------------ a whole log

  lemma NoEvents()
    ensures Pieces([]) == [] && Assemble([], false, []) == Outcome([], [])
  {
  }

  lemma {:induction false} AllRecords(pos: nat, records: seq<Bytes>)
    ensures Assemble(Pieces(FragmentsOf(pos, records)), false, []) == Outcome(records, [])
    decreases |records|
  {
    if records != [] {
      var first := FragmentsFrom(pos, records[0], true);
      var rest := FragmentsOf(End(pos, first), records[1..]);
      PiecesConcat(first, rest);
      FragmentsAreAFragmentation(pos, records[0], true);
      WholeRecord(first, records[0], true, [], Pieces(rest));
      AllRecords(End(pos, first), records[1..]);
      assert records == [records[0]] + records[1..] && [] + records[0] == records[0];
    }
  }

  // How many fragments end within the first n bytes of a file.
  function CountWithin(pos: nat, fs: seq<Fragment>, n: nat): (m: nat)
    ensures m <= |fs|
    decreases |fs|
  {
    if fs == [] || After(pos, fs[0]) > n then 0 else 1 + CountWithin(After(pos, fs[0]), fs[1..], n)
  }

  // How many records do.
  function WholeRecords(pos: nat, records: seq<Bytes>, n: nat): (m: nat)
    ensures m <= |records|
    decreases |records|
  {
    if records == [] then 0
    else
      var end := End(pos, FragmentsFrom(pos, records[0], true));
      if end > n then 0 else 1 + WholeRecords(end, records[1..], n)
  }

  lemma {:induction false} CountConcat(pos: nat, a: seq<Fragment>, b: seq<Fragment>, n: nat)
    ensures CountWithin(pos, a + b, n) ==
            if End(pos, a) <= n then |a| + CountWithin(End(pos, a), b, n) else CountWithin(pos, a, n)
    ensures End(pos, a) > n ==> CountWithin(pos, a, n) < |a| || End(pos, a) == pos
    decreases |a|
  {
    if a == [] {
      assert a + b == b;
      CountNone(pos, b, n);
    } else {
      assert (a + b)[0] == a[0] && (a + b)[1..] == a[1..] + b;
      CountConcat(After(pos, a[0]), a[1..], b, n);
      EndGrows(After(pos, a[0]), a[1..]);
    }
  }

  lemma CountNone(pos: nat, fs: seq<Fragment>, n: nat)
    ensures pos > n ==> CountWithin(pos, fs, n) == 0
  {
  }

  lemma {:induction false} EndGrows(pos: nat, fs: seq<Fragment>)
    ensures End(pos, fs) >= pos && (fs != [] ==> End(pos, fs) > pos)
    decreases |fs|
  {
    if fs != [] {
      EndGrows(After(pos, fs[0]), fs[1..]);
    }
  }

  lemma TornStep(pos: nat, data: Bytes, first: seq<Fragment>, rest: seq<Fragment>, n: nat)
    requires IsFragmentation(first, data, true)
    ensures Assemble(Pieces((first + rest)[..CountWithin(pos, first + rest, n)]), false, []) ==
            if End(pos, first) <= n then
              Delivered(data, Assemble(Pieces(rest[..CountWithin(End(pos, first), rest, n)]), false, []))
            else Outcome([], [])
  {
    var m := CountWithin(pos, first + rest, n);
    CountConcat(pos, first, rest, n);
    EndGrows(pos, first);
    if End(pos, first) <= n {
      var k := CountWithin(End(pos, first), rest, n);
      assert (first + rest)[..m] == first + rest[..k];
      PiecesConcat(first, rest[..k]);
      WholeRecord(first, data, true, [], Pieces(rest[..k]));
      assert [] + data == data;
    } else {
      assert (first + rest)[..m] == first[..m];
      CutRecord(first, data, true, [], m);
    }
  }

  // From a prefix of the fragments come the records that are whole in it, and no report.
  lemma {:induction false} TornRecords(pos: nat, records: seq<Bytes>, n: nat, fs: seq<Fragment>, es: seq<Event>)
    requires fs == FragmentsOf(pos, records) && es == Pieces(fs[..CountWithin(pos, fs, n)])
    ensures Assemble(es, false, []) == Outcome(records[..WholeRecords(pos, records, n)], [])
    decreases |records|
  {
    hide Assemble, Pieces, IsFragmentation, FragmentsFrom;
    NoEvents();
    if records != [] {
      var first := FragmentsFrom(pos, records[0], true);
      var rest := FragmentsOf(End(pos, first), records[1..]);
      FragmentsAreAFragmentation(pos, records[0], true);
      TornStep(pos, records[0], first, rest, n);
      TornRecords(End(pos, first), records[1..], n, rest, Pieces(rest[..CountWithin(End(pos, first), rest, n)]));
      var m := WholeRecords(End(pos, first), records[1..], n);
      assert records[..m + 1] == [records[0]] + records[1..][..m];
    }
  }

  // ------------------------------------------------------------------ a hole

  // Fragment i of the log starts with a header at this offset.
  function HeaderOf(pos: nat, fs: seq<Fragment>, i: nat): (p: nat)
    requires i < |fs|
    ensures p >= pos
    decreases |fs|
  {
    if i == 0 then HeaderAt(pos) else HeaderOf(After(pos, fs[0]), fs[1..], i - 1)
  }

  // Some fragment of fs has its header in [lo, hi).
  predicate Touches(pos: nat, fs: seq<Fragment>, lo: nat, hi: nat) {
    exists i | 0 <= i < |fs| :: lo <= HeaderOf(pos, fs, i) < hi
  }

  // The records with no fragment in [lo, hi).
  function Untouched(pos: nat, records: seq<Bytes>, lo: nat, hi: nat): (r: seq<Bytes>)
    decreases |records|
  {
    if records == [] then []
    else
      var first := FragmentsFrom(pos, records[0], true);
      (if Touches(pos, first, lo, hi) then [] else [records[0]])
      + Untouched(End(pos, first), records[1..], lo, hi)
  }

  // The hole [lo, hi) swallows exactly the fragments i..j.
  ghost predicate HoleIs(pos: nat, fs: seq<Fragment>, lo: nat, hi: nat, i: int, j: int) {
    forall k | 0 <= k < |fs| ::
      (k < i <==> HeaderOf(pos, fs, k) < lo) && (k < j <==> HeaderOf(pos, fs, k) < hi)
  }

  lemma {:induction false} HeaderOfConcat(pos: nat, a: seq<Fragment>, b: seq<Fragment>, k: nat)
    requires k < |a| + |b|
    ensures HeaderOf(pos, a + b, k) ==
            if k < |a| then HeaderOf(pos, a, k) else HeaderOf(End(pos, a), b, k - |a|)
    decreases |a|
  {
    if a == [] {
      assert a + b == b;
    } else {
      assert (a + b)[0] == a[0] && (a + b)[1..] == a[1..] + b;
      if k > 0 {
        HeaderOfConcat(After(pos, a[0]), a[1..], b, k - 1);
      }
    }
  }

  lemma HoleSplits(pos: nat, a: seq<Fragment>, b: seq<Fragment>, lo: nat, hi: nat, i: int, j: int)
    requires HoleIs(pos, a + b, lo, hi, i, j) && lo <= hi
    ensures HoleIs(pos, a, lo, hi, i, j) && HoleIs(End(pos, a), b, lo, hi, i - |a|, j - |a|)
    ensures a != [] ==> (Touches(pos, a, lo, hi) <==> i < |a| && j > 0 && i < j)
  {
    forall k | 0 <= k < |a| + |b|
      ensures HeaderOf(pos, a + b, k) ==
              if k < |a| then HeaderOf(pos, a, k) else HeaderOf(End(pos, a), b, k - |a|)
    {
      HeaderOfConcat(pos, a, b, k);
    }
    forall k | 0 <= k < |b|
      ensures HeaderOf(pos, a + b, k + |a|) == HeaderOf(End(pos, a), b, k)
    {
    }
    if a != [] && i < |a| && j > 0 && i < j {
      var k := if i < 0 then 0 else i;
      assert lo <= HeaderOf(pos, a, k) < hi;
    }
  }

  function Clamp(j: int, n: nat): (c: nat)
    ensures c <= n
  {
    if j < 0 then 0 else if j > n then n else j
  }

  lemma AfterStep(data: Bytes, first: seq<Fragment>, rest: seq<Fragment>, from: nat)
    requires IsFragmentation(first, data, true) && from <= |first| + |rest|
    ensures Assemble(Pieces((first + rest)[from..]), false, []).records ==
            (if from == 0 then [data] else []) +
            Assemble(Pieces(rest[Clamp(from - |first|, |rest|)..]), false, []).records
  {
    var fs := first + rest;
    if from == 0 {
      PiecesConcat(first, rest);
      WholeRecord(first, data, true, [], Pieces(rest));
      assert fs[0..] == fs && rest[0..] == rest && [] + data == data;
    } else if from <= |first| {
      assert fs[from..] == first[from..] + rest && rest[0..] == rest;
      PiecesConcat(first[from..], rest);
      HeadlessRecord(first, data, true, from, Pieces(rest));
    } else {
      assert fs[from..] == rest[from - |first|..];
    }
  }

  // The fragments from j on give back the records that start at or after the hole's end.
  lemma {:induction false} AfterTheHole(pos: nat, records: seq<Bytes>, lo: nat, hi: nat, i: int, j: int)
    requires lo <= hi && HoleIs(pos, FragmentsOf(pos, records), lo, hi, i, j) && i <= 0 && i <= j
    ensures var fs := FragmentsOf(pos, records);
            Assemble(Pieces(fs[Clamp(j, |fs|)..]), false, []).records == Untouched(pos, records, lo, hi)
    decreases |records|
  {
    hide Assemble, Pieces, IsFragmentation, HeaderOf, HoleIs, FragmentsFrom, Touches;
    NoEvents();
    if records != [] {
      var first := FragmentsFrom(pos, records[0], true);
      var rest := FragmentsOf(End(pos, first), records[1..]);
      FragmentsAreAFragmentation(pos, records[0], true);
      HoleSplits(pos, first, rest, lo, hi, i, j);
      AfterStep(records[0], first, rest, Clamp(j, |first| + |rest|));
      AfterTheHole(End(pos, first), records[1..], lo, hi, i - |first|, j - |first|);
      assert Clamp(j - |first|, |rest|) == Clamp(Clamp(j, |first| + |rest|) - |first|, |rest|);
    }
  }

  lemma AroundStep(data: Bytes, first: seq<Fragment>, rest: seq<Fragment>, i: nat, j: nat, lost: Event)
    requires IsFragmentation(first, data, true) && i < j <= |first| + |rest| && lost.Lost?
    ensures Assemble(Pieces((first + rest)[..i]) + [lost] + Pieces((first + rest)[j..]), false, []).records ==
            if i >= |first| then
              [data] + Assemble(Pieces(rest[..i - |first|]) + [lost] + Pieces(rest[j - |first|..]), false, []).records
            else
              Assemble(Pieces(rest[Clamp(j - |first|, |rest|)..]), false, []).records
  {
    var fs := first + rest;
    if i >= |first| {
      var i', j' := i - |first|, j - |first|;
      assert fs[..i] == first + rest[..i'] && fs[j..] == rest[j'..];
      PiecesConcat(first, rest[..i']);
      var es := Pieces(rest[..i']) + [lost] + Pieces(rest[j'..]);
      assert Pieces(fs[..i]) + [lost] + Pieces(fs[j..]) == Pieces(first) + es;
      WholeRecord(first, data, true, [], es);
      assert [] + data == data;
    } else {
      assert fs[..i] == first[..i];
      InterruptedRecord(first, data, true, [], i, lost, Pieces(fs[j..]));
      AfterStep(data, first, rest, j);
    }
  }

  // With a loss in place of the fragments of the hole, ReadRecord delivers exactly the
  // records that have no fragment there.
  lemma {:induction false} AroundTheHole(pos: nat, records: seq<Bytes>, lo: nat, hi: nat, i: nat, j: nat, lost: Event)
    requires lo <= hi && HoleIs(pos, FragmentsOf(pos, records), lo, hi, i, j)
    requires i < j <= |FragmentsOf(pos, records)| && lost.Lost?
    ensures var fs := FragmentsOf(pos, records);
            Assemble(Pieces(fs[..i]) + [lost] + Pieces(fs[j..]), false, []).records == Untouched(pos, records, lo, hi)
    decreases |records|
  {
    hide Assemble, Pieces, IsFragmentation, HeaderOf, HoleIs, FragmentsFrom, Touches;
    var first := FragmentsFrom(pos, records[0], true);
    var rest := FragmentsOf(End(pos, first), records[1..]);
    FragmentsAreAFragmentation(pos, records[0], true);
    HoleSplits(pos, first, rest, lo, hi, i, j);
    AroundStep(records[0], first, rest, i, j, lost);
    if i >= |first| {
      AroundTheHole(End(pos, first), records[1..], lo, hi, i - |first|, j - |first|, lost);
    } else {
      AfterTheHole(End(pos, first), records[1..], lo, hi, i - |first|, j - |first|);
    }
  }
}
