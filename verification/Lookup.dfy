// What a read at a snapshot returns from a set of internal entries, wherever they are
// stored: the newest entry of the key that is not newer than the snapshot decides.
module Lookup {
  import opened DbFormat

  datatype Option<+T> = None | Some(value: T)

  // e is an entry a read of k at snapshot s may use.
  predicate Candidate(e: Entry, k: UserKey, s: nat) {
    e.key.Parses() && e.key.user == k && e.key.sequence <= s
  }

  // e is the newest candidate in S.
  ghost predicate Answers(S: set<Entry>, k: UserKey, s: nat, e: Entry) {
    e in S && Candidate(e, k, s) &&
    forall e' | e' in S && Candidate(e', k, s) :: e'.key.sequence <= e.key.sequence
  }

  // No two entries of a key share a sequence number.
  ghost predicate Distinct(S: set<Entry>) {
    forall e, e' | e in S && e' in S && e.key.user == e'.key.user && e.key.sequence == e'.key.sequence :: e == e'
  }

  // A deletion and the absence of a candidate both read as None.
  function Meaning(e: Entry): (r: Option<Value>) {
    if e.key.kind == TYPE_VALUE then Some(e.value) else None
  }

  // The value a reader of k at snapshot s gets from S.
  ghost function Read(S: set<Entry>, k: UserKey, s: nat): (r: Option<Value>) {
    if exists e :: Answers(S, k, s, e) then
      var e :| Answers(S, k, s, e); Meaning(e)
    else None
  }

  lemma ReadIs(S: set<Entry>, k: UserKey, s: nat, e: Entry)
    requires Distinct(S) && Answers(S, k, s, e)
    ensures Read(S, k, s) == Meaning(e)
  {
  }

  // A newest candidate exists as soon as there is any.
  lemma {:induction false} NewestExists(S: set<Entry>, k: UserKey, s: nat, e0: Entry) returns (e: Entry)
    requires e0 in S && Candidate(e0, k, s)
    ensures Answers(S, k, s, e)
    decreases |S|
  {
    if e1 :| e1 in S && Candidate(e1, k, s) && e1.key.sequence > e0.key.sequence {
      var S' := S - {e0};
      assert |S'| < |S|;
      e := NewestExists(S', k, s, e1);
    } else {
      e := e0;
    }
  }

  lemma ReadNone(S: set<Entry>, k: UserKey, s: nat)
    requires forall e | e in S :: !Candidate(e, k, s)
    ensures Read(S, k, s) == None
  {
  }

  // Two stores answer the same when the newest candidate of one is a candidate of the
  // other, the other holds nothing the first does not, or ...
  lemma ReadShrinks(S: set<Entry>, S': set<Entry>, k: UserKey, s: nat)
    requires S' <= S && Distinct(S)
    requires forall e | Answers(S, k, s, e) && e !in S' :: Meaning(e) == None && Read(S', k, s) == None
    ensures Read(S', k, s) == Read(S, k, s)
  {
    if e0 :| e0 in S && Candidate(e0, k, s) {
      var e := NewestExists(S, k, s, e0);
      ReadIs(S, k, s, e);
      if e in S' {
        assert Answers(S', k, s, e);
        ReadIs(S', k, s, e);
      }
    }
  }

  // Entries newer than everything in S and S' do not tell them apart.
  lemma ReadExtends(S: set<Entry>, S': set<Entry>, more: set<Entry>, k: UserKey, s: nat)
    requires Distinct(S + more) && Distinct(S' + more)
    requires forall e, m | e in S + S' && m in more :: e.key.sequence < m.key.sequence
    requires Read(S, k, s) == Read(S', k, s)
    ensures Read(S + more, k, s) == Read(S' + more, k, s)
  {
    if m0 :| m0 in more && Candidate(m0, k, s) {
      var m := NewestExists(more, k, s, m0);
      assert Answers(S + more, k, s, m) && Answers(S' + more, k, s, m);
      ReadIs(S + more, k, s, m);
      ReadIs(S' + more, k, s, m);
    } else {
      ReadIgnores(S, more, k, s);
      ReadIgnores(S', more, k, s);
    }
  }

  lemma ReadIgnores(S: set<Entry>, more: set<Entry>, k: UserKey, s: nat)
    requires Distinct(S + more)
    requires forall m | m in more :: !Candidate(m, k, s)
    ensures Read(S + more, k, s) == Read(S, k, s)
  {
    forall e
      ensures Answers(S + more, k, s, e) <==> Answers(S, k, s, e)
    {
    }
    if e :| Answers(S, k, s, e) {
      ReadIs(S, k, s, e);
      ReadIs(S + more, k, s, e);
    }
  }
}
