// Group commit: the queue of writers and DBImpl::Write (db/db_impl.cc).  Each calling thread
// has a place in the queue; the one at the front writes for itself and for those behind it.
module GroupCommit {
  import opened Coding
  import opened Lookup
  import opened WriteBatch

  // ------------------------------------------------------------------ one group

  // A queued Writer.  No batch: the write is only there to force a memtable switch.
  datatype Request = Request(batch: Option<seq<Op>>, sync: bool)

  function ByteSize(ops: seq<Op>): (n: nat) {
    HEADER + |Body(ops)|
  }

  function SizeOf(r: Request): (n: nat) {
    if r.batch.Some? then ByteSize(r.batch.value) else 0
  }

  function OpsOf(r: Request): (ops: seq<Op>) {
    if r.batch.Some? then r.batch.value else []
  }

  function AllOps(rs: seq<Request>): (ops: seq<Op>) {
    if rs == [] then [] else AllOps(rs[..|rs| - 1]) + OpsOf(rs[|rs| - 1])
  }

  function TotalSize(rs: seq<Request>): (n: nat) {
    if rs == [] then 0 else TotalSize(rs[..|rs| - 1]) + SizeOf(rs[|rs| - 1])
  }

  // A small first write keeps its group small.
  function MaxSize(first: nat): (n: nat) {
    if first <= 0x2_0000 then first + 0x2_0000 else 0x10_0000
  }

  // The writers after the first may all join: no sync write under a leader that does not
  // sync, and no batch that makes the group too big.
  ghost predicate MayJoin(rs: seq<Request>, i: nat)
    requires i < |rs|
  {
    && (rs[i].sync ==> rs[0].sync)
    && (rs[i].batch.Some? ==> TotalSize(rs[..i + 1]) <= MaxSize(SizeOf(rs[0])))
  }

  // The group is the longest such prefix of the queue.
  ghost predicate IsGroup(rs: seq<Request>, n: nat) {
    && 0 < n <= |rs|
    && (forall i | 1 <= i < n :: MayJoin(rs, i))
    && (n < |rs| ==> !MayJoin(rs, n))
  }

  // How many batches there are in a group; one is written as it is, more are copied.
  function Batches(rs: seq<Request>): (n: nat) {
    if rs == [] then 0 else Batches(rs[..|rs| - 1]) + if rs[|rs| - 1].batch.Some? then 1 else 0
  }

  lemma TakeStep(rs: seq<Request>, i: nat)
    requires i < |rs|
    ensures AllOps(rs[..i + 1]) == AllOps(rs[..i]) + OpsOf(rs[i])
    ensures TotalSize(rs[..i + 1]) == TotalSize(rs[..i]) + SizeOf(rs[i])
    ensures Batches(rs[..i + 1]) == Batches(rs[..i]) + if rs[i].batch.Some? then 1 else 0
  {
    assert rs[..i + 1][..i] == rs[..i];
  }

  lemma {:induction false} SizeSoFar(rs: seq<Request>, n: nat)
    requires 0 < n <= |rs| && rs[0].batch.Some? && forall i | 1 <= i < n :: MayJoin(rs, i)
    ensures Batches(rs[..n]) >= 1
    ensures Batches(rs[..n]) == 1 ==> TotalSize(rs[..n]) == SizeOf(rs[0])
    ensures Batches(rs[..n]) > 1 ==> TotalSize(rs[..n]) <= MaxSize(SizeOf(rs[0]))
    decreases n
  {
    hide SizeOf, MaxSize, TotalSize, Batches, AllOps;
    if n == 1 {
      FirstInGroup(rs);
    } else {
      SizeSoFar(rs, n - 1);
      assert MayJoin(rs, n - 1);
      TakeStep(rs, n - 1);
      NoBatchNoSize(rs[n - 1]);
    }
  }

  lemma NoBatchNoSize(r: Request)
    ensures r.batch.None? ==> SizeOf(r) == 0
  {
  }

  // A group of more than one batch is at most a megabyte, and a leader of up to 128 KB takes at
  // most 128 KB more; a writer is left out only if it asks for a sync that the leader does not
  // do, or if its batch would pass one of these limits.
  lemma GroupIsSmall(rs: seq<Request>, n: nat)
    requires IsGroup(rs, n) && rs[0].batch.Some?
    ensures Batches(rs[..n]) > 1 ==> TotalSize(rs[..n]) <= 1048576
    ensures SizeOf(rs[0]) <= 131072 ==> TotalSize(rs[..n]) - SizeOf(rs[0]) <= 131072
    ensures n < |rs| ==>
              (rs[n].sync && !rs[0].sync) ||
              (rs[n].batch.Some? &&
               (TotalSize(rs[..n + 1]) > 1048576 ||
                (SizeOf(rs[0]) <= 131072 && TotalSize(rs[..n + 1]) - SizeOf(rs[0]) > 131072)))
  {
    SizeSoFar(rs, n);
    hide SizeOf, TotalSize, Batches;
  }

  // A thread's Writer, with the caller's batch.
  class Writer {
    const batch: WriteBatch?
    const sync: bool

    constructor (batch: WriteBatch?, sync: bool)
      ensures this.batch == batch && this.sync == sync
    {
      this.batch, this.sync := batch, sync;
    }
  }

  ghost function RequestOf(w: Writer): (r: Request)
    reads w.batch
  {
    Request(if w.batch == null then None else Some(w.batch.ops), w.sync)
  }

  // rs is what is queued; every queued batch is well formed, and none is the temporary one.
  ghost predicate Queued(ws: seq<Writer>, rs: seq<Request>, tmp: WriteBatch)
    reads set w | w in ws && w.batch != null :: w.batch
  {
    && |rs| == |ws|
    && forall i | 0 <= i < |ws| ::
         rs[i] == RequestOf(ws[i]) && (ws[i].batch != null ==> ws[i].batch != tmp && ws[i].batch.Valid())
  }

  // Append a batch to what the group has so far, in the temporary batch rather than in the
  // first caller's.
  method AppendTo(result: WriteBatch, first: WriteBatch, tmp: WriteBatch, batch: WriteBatch)
    requires result.Valid() && tmp.Valid() && batch.Valid() && batch != tmp && first != tmp
    requires result == tmp || (result == first && tmp.ops == [])
    modifies tmp
    ensures tmp.Valid() && tmp.ops == old(result.ops) + batch.ops
  {
    hide WriteBatch.Valid;
    if result == first {
      tmp.Append(first);
      assert [] + first.ops == first.ops;
    }
    tmp.Append(batch);
  }

  // DBImpl::BuildBatchGroup, which is called only for a leader that has a batch.
  method BuildBatchGroup(writers: seq<Writer>, ghost rs: seq<Request>, tmp: WriteBatch) returns (n: nat, result: WriteBatch)
    requires writers != [] && writers[0].batch != null && Queued(writers, rs, tmp)
    requires tmp.Valid() && tmp.ops == []
    modifies tmp
    ensures IsGroup(rs, n) && result.Valid() && tmp.Valid() && result.ops == AllOps(rs[..n])
    ensures result == if Batches(rs[..n]) > 1 then tmp else writers[0].batch
    ensures result != tmp ==> tmp.ops == []
  {
    hide AllOps, TotalSize, Batches, MaxSize, ByteSize, WriteBatch.Valid;
    var first := writers[0].batch;
    result := first;
    FirstInGroup(rs);
    BatchIs(first);
    var size := |first.rep|;
    var maxSize := MaxSize(size);
    n := 1;
    while n < |writers|
      invariant 1 <= n <= |writers| && Queued(writers, rs, tmp) && tmp.Valid() && result.Valid()
      invariant size == TotalSize(rs[..n]) && result.ops == AllOps(rs[..n]) && Batches(rs[..n]) >= 1
      invariant forall i | 1 <= i < n :: MayJoin(rs, i)
      invariant result == if Batches(rs[..n]) > 1 then tmp else first
      invariant result != tmp ==> tmp.ops == []
    {
      var w := writers[n];
      TakeStep(rs, n);
      if w.sync && !writers[0].sync {
        // Its durability would not be what its caller asked for
        break;
      }
      if w.batch != null {
        BatchIs(w.batch);
        size := size + |w.batch.rep|;
        if size > maxSize {
          // One more would pass the limit
          break;
        }
        AppendTo(result, first, tmp, w.batch);
        result := tmp;
      } else {
        assert result.ops + [] == result.ops;
      }
      n := n + 1;
    }
  }

  lemma BatchIs(b: WriteBatch)
    requires b.Valid()
    ensures |b.rep| == ByteSize(b.ops)
  {
  }

  lemma FirstInGroup(rs: seq<Request>)
    requires rs != [] && rs[0].batch.Some?
    ensures AllOps(rs[..1]) == rs[0].batch.value && TotalSize(rs[..1]) == SizeOf(rs[0]) && Batches(rs[..1]) == 1
  {
    TakeStep(rs, 0);
    assert rs[..0] == [];
    assert [] + rs[0].batch.value == rs[0].batch.value;
  }
}
