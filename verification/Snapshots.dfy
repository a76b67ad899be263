// The list of live snapshots: db/snapshot.h.  Nodes form a circular doubly linked list
// through a dummy head; it stands for a sequence of nodes in the order they were created.
module Snapshots {

  class Snapshot {
    const sequence: nat
    var prev: Snapshot?
    var next: Snapshot?

    constructor (sequence: nat)
      ensures this.sequence == sequence
    {
      this.sequence, prev, next := sequence, null, null;
    }
  }

  class SnapshotList {
    const head: Snapshot
    ghost var ring: seq<Snapshot>  // the head, then every live snapshot

    ghost predicate Linked()
      reads this, ring
    {
      && |ring| > 0 && ring[0] == head
      && (forall i, j | 0 <= i < j < |ring| :: ring[i] != ring[j])
      && (forall i | 0 <= i < |ring| - 1 :: ring[i].next == ring[i + 1])
      && (forall i | 1 <= i < |ring| :: ring[i].prev == ring[i - 1])
      && ring[|ring| - 1].next == head && head.prev == ring[|ring| - 1]
    }

    ghost predicate Valid()
      reads this, ring
    {
      Linked() && forall i, j | 1 <= i < j < |ring| :: ring[i].sequence <= ring[j].sequence
    }

    // The sequence numbers, oldest snapshot first.
    ghost function Sequences(): (s: seq<nat>)
      reads this, ring
      requires |ring| > 0
      ensures |s| == |ring| - 1
    {
      seq(|ring| - 1, i requires 0 <= i < |ring| - 1 reads this, ring => ring[i + 1].sequence)
    }

    constructor ()
      ensures Valid() && ring == [head] && fresh(head)
    {
      head := new Snapshot(0);
      new;
      head.prev, head.next := head, head;
      ring := [head];
    }

    predicate Empty()
      reads this, ring, head
      requires Valid()
      ensures Empty() <==> Sequences() == []
    {
      assert |ring| > 1 ==> ring[0].next == ring[1];
      head.next == head
    }

    method Oldest() returns (s: Snapshot)
      requires Valid() && !Empty()
      ensures |ring| > 1 && s == ring[1]
      ensures forall q | q in Sequences() :: s.sequence <= q
    {
      assert ring != [head] ==> ring[0].next == ring[1];
      assert Sequences()[0] == ring[1].sequence;
      s := head.next;
    }

    method Newest() returns (s: Snapshot)
      requires Valid() && !Empty()
      ensures |ring| > 1 && s == ring[|ring| - 1]
      ensures forall q | q in Sequences() :: q <= s.sequence
    {
      s := head.prev;
    }

    // REQUIRES: no live snapshot is newer.
    method New(sequence: nat) returns (s: Snapshot)
      requires Valid() && (Sequences() == [] || Sequences()[|ring| - 2] <= sequence)
      modifies this, ring
      ensures Valid() && fresh(s) && ring == old(ring) + [s] && Sequences() == old(Sequences()) + [sequence]
    {
      s := new Snapshot(sequence);
      s.next := head;
      s.prev := head.prev;
      s.prev.next := s;
      s.next.prev := s;
      ring := ring + [s];
    }

    // REQUIRES: s was created by this list and not deleted yet.
    method Delete(s: Snapshot, ghost k: nat)
      requires Valid() && 1 <= k < |ring| && ring[k] == s
      modifies this, ring
      ensures Valid() && ring == old(ring)[..k] + old(ring)[k + 1..]
      ensures Sequences() == old(Sequences())[..k - 1] + old(Sequences())[k..]
    {
      assert s.prev == ring[k - 1];
      ghost var r, q, n := ring, Sequences(), if k + 1 < |ring| then k + 1 else 0;
      assert s.next == r[n];
      s.prev.next := s.next;
      s.next.prev := s.prev;
      assert r[k - 1].next == r[n] && forall i | 0 <= i < |r| && i != k - 1 :: r[i].next == old(r[i].next);
      assert r[n].prev == r[k - 1] && forall i | 0 <= i < |r| && i != n :: r[i].prev == old(r[i].prev);
      ring := ring[..k] + ring[k + 1..];
      hide Sequences;
      Relinked(r, k, n);
      SequencesWithout(r, k, q);
    }

    // With node k bypassed, the rest is a ring again.
    lemma Relinked(r: seq<Snapshot>, k: nat, n: nat)
      requires 1 <= k < |r| && n == (if k + 1 < |r| then k + 1 else 0) && ring == r[..k] + r[k + 1..]
      requires r[0] == head && (forall i, j | 0 <= i < j < |r| :: r[i] != r[j])
      requires forall i, j | 1 <= i < j < |r| :: r[i].sequence <= r[j].sequence
      requires r[k - 1].next == r[n] && r[n].prev == r[k - 1]
      requires forall i | 0 <= i < |r| - 1 && i != k - 1 :: r[i].next == r[i + 1]
      requires forall i | 1 <= i < |r| && i != n :: r[i].prev == r[i - 1]
      requires n != 0 ==> r[|r| - 1].next == head && head.prev == r[|r| - 1]
      ensures Valid()
    {
      Removed(r, k, ring);
    }

    lemma SequencesWithout(r: seq<Snapshot>, k: nat, q: seq<nat>)
      requires 1 <= k < |r| && ring == r[..k] + r[k + 1..]
      requires |q| == |r| - 1 && forall i | 0 <= i < |q| :: q[i] == r[i + 1].sequence
      ensures Sequences() == q[..k - 1] + q[k..]
    {
      Removed(r, k, ring);
    }
  }

  // Taking one node out leaves the rest in order.
  lemma Removed<T>(r: seq<T>, k: nat, r': seq<T>)
    requires 1 <= k < |r| && r' == r[..k] + r[k + 1..]
    ensures |r'| == |r| - 1
    ensures forall i | 0 <= i < |r'| :: r'[i] == if i < k then r[i] else r[i + 1]
  {
  }

  // DoCompactionWork's choice, before it releases the mutex.
  method SmallestSnapshot(snapshots: SnapshotList, lastSequence: nat) returns (smallest: nat)
    requires snapshots.Valid() && forall q | q in snapshots.Sequences() :: q <= lastSequence
    ensures smallest <= lastSequence && forall q | q in snapshots.Sequences() :: smallest <= q
    ensures if snapshots.Sequences() == [] then smallest == lastSequence else smallest in snapshots.Sequences()
  {
    if snapshots.Empty() {
      smallest := lastSequence;
    } else {
      var s := snapshots.Oldest();
      assert snapshots.Sequences()[0] == s.sequence;
      assert s.sequence in snapshots.Sequences();
      smallest := s.sequence;
    }
  }
}
