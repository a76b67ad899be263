// The memtable: db/memtable.cc over the skip list of db/skiplist.h, with the lookup keys of
// db/dbformat.cc.
module MemTable {
  import opened Coding
  import opened DbFormat
  import opened Lookup
  import opened SkipList

  type Bytes = seq<byte>

  // ------------------------------------------------------------------ the buffer of an entry

  // klength varint32, internal key, vlength varint32, value.
  function Buffer(k: InternalKey, v: Value): (b: Bytes) {
    LengthPrefixed(Encode(k)) + LengthPrefixed(v)
  }

  method Written(k: InternalKey, v: Value) returns (buf: Bytes)
    ensures buf == Buffer(k, v)
  {
    buf := Varint(|Encode(k)| % (MAX_UINT32 + 1));
    buf := buf + Encode(k);
    buf := buf + Varint(|v| % (MAX_UINT32 + 1));
    buf := buf + v;
    hide Varint, Encode;
  }

  // What fits in the buffer's length fields and in the tag.
  predicate Fits(k: InternalKey, v: Value) {
    |k.user| + 8 <= MAX_UINT32 && |v| <= MAX_UINT32 && k.sequence <= MAX_SEQUENCE && k.Parses()
  }

  lemma BufferDecodes(k: InternalKey, v: Value)
    requires Fits(k, v)
    ensures var b := Buffer(k, v);
            && GetLengthPrefixed(b) == Parsed(Encode(k), LengthPrefixed(v))
            && GetLengthPrefixed(LengthPrefixed(v)) == Parsed(v, [])
  {
    hide LengthPrefixed, GetLengthPrefixed, Encode;
    LengthPrefixedRoundTrip(Encode(k), LengthPrefixed(v));
    LengthPrefixedRoundTrip(v, []);
    assert LengthPrefixed(v) + [] == LengthPrefixed(v);
  }

  // ------------------------------------------------------------------ what a seek finds

  // LookupKey: the first internal key of this user key that a reader at this snapshot may see.
  function LookupKey(user: UserKey, snapshot: nat): (k: InternalKey) {
    InternalKey(user, snapshot, TYPE_FOR_SEEK)
  }

  // Entries too new for the snapshot come before the lookup key, the others after it.
  lemma SeekSkipsNewer(e: InternalKey, user: UserKey, snapshot: nat)
    requires e.user == user && e.Parses()
    ensures Before(e, LookupKey(user, snapshot)) <==> e.sequence > snapshot
  {
    TagOrder(e, LookupKey(user, snapshot));
    KeyLessTotal(user, user);
  }

  // Of two keys at or after the lookup key, one of this user key comes first.
  lemma UserKeyComesFirst(r: InternalKey, e: InternalKey, user: UserKey, snapshot: nat)
    requires e.user == user && !Before(r, LookupKey(user, snapshot))
    requires r == e || Before(r, e)
    ensures r.user == user && r.Tag() >= e.Tag()
  {
    KeyLessTotal(r.user, user);
  }

  datatype Found = NotHere | Here(result: Option<Value>)  // None: Status::NotFound

  // Get's reading of the entry it has sought to.  The sequence number is not looked at.
  function Match(entry: Bytes, user: UserKey): (r: Found) {
    var key := GetLengthPrefixed(entry);
    if key.Malformed? || |key.value| < 8 || ExtractUserKey(key.value) != user then NotHere
    else
      var tag := FromFixed(key.value[|key.value| - 8..]);
      if tag % 256 == TYPE_VALUE then
        var v := GetLengthPrefixed(key.rest);
        if v.Parsed? then Here(Some(v.value)) else NotHere
      else if tag % 256 == TYPE_DELETION then Here(None)
      else NotHere
  }

  lemma MatchOf(k: InternalKey, v: Value, user: UserKey)
    requires Fits(k, v)
    ensures Match(Buffer(k, v), user) ==
            if k.user == user then Here(Meaning(Entry(k, v))) else NotHere
  {
    hide Buffer, Encode, LengthPrefixed, GetLengthPrefixed, ExtractUserKey, FromFixed;
    BufferDecodes(k, v);
    TagOf(k);
  }

  lemma TagOf(k: InternalKey)
    requires k.sequence <= MAX_SEQUENCE
    ensures var b := Encode(k);
            ExtractUserKey(b) == k.user && FromFixed(b[|b| - 8..]) == k.Tag() && k.Tag() % 256 == k.kind
  {
    PowersOf256();
    var b := Encode(k);
    assert b[|b| - 8..] == Fixed(8, k.Tag()) && b[..|b| - 8] == k.user;
    FixedRoundTrip(8, k.Tag());
  }

  ghost function EntriesOf(values: map<InternalKey, Value>): (s: set<Entry>) {
    set k | k in values :: Entry(k, values[k])
  }

  lemma EntriesGrow(values: map<InternalKey, Value>, k: InternalKey, v: Value)
    requires k !in values
    ensures EntriesOf(values[k := v]) == EntriesOf(values) + {Entry(k, v)}
  {
    var values' := values[k := v];
    assert Entry(k, values'[k]) in EntriesOf(values');
    forall e | e in EntriesOf(values)
      ensures e in EntriesOf(values')
    {
      assert e.key in values' && e == Entry(e.key, values'[e.key]);
    }
  }

  lemma Linked(s: Links, k: InternalKey) returns (w: int)
    requires s.Shape() && k in s.Contents()
    ensures s.On(0, w) && s.keys[w] == k
  {
    w :| s.On(0, w) && s.keys[w] == k;
  }

  // Where the seek stops.
  lemma SeekStops(s: Links, user: UserKey, snapshot: nat, x: int, k: InternalKey)
    requires s.Shape() && FirstAtOrAfter(s, LookupKey(user, snapshot), x)
    requires k in s.Contents() && k.user == user && k.Parses() && k.sequence <= snapshot
    ensures x != NULL && s.keys[x].user == user && s.keys[x].Tag() >= k.Tag()
  {
    var w := Linked(s, k);
    SeekSkipsNewer(k, user, snapshot);
    UserKeyComesFirst(s.keys[x], k, user, snapshot);
  }

  // The seek with (key, snapshot, kValueTypeForSeek) lands on the answer.
  lemma SeekFinds(s: Links, values: map<InternalKey, Value>, user: UserKey, snapshot: nat, x: int)
    requires s.Shape() && values.Keys == s.Contents() && (forall k | k in values :: k.Parses())
    requires FirstAtOrAfter(s, LookupKey(user, snapshot), x)
    ensures x != NULL ==> s.keys[x] in values
    ensures if x != NULL && s.keys[x].user == user
            then Answers(EntriesOf(values), user, snapshot, Entry(s.keys[x], values[s.keys[x]]))
            else forall e | e in EntriesOf(values) :: !Candidate(e, user, snapshot)
  {
    forall e | e in EntriesOf(values) && Candidate(e, user, snapshot)
      ensures x != NULL && s.keys[x].user == user && e.key.sequence <= s.keys[x].sequence
    {
      SeekStops(s, user, snapshot, x, e.key);
      TagOrder(e.key, s.keys[x]);
    }
    if x != NULL {
      assert s.On(0, x) && s.keys[x] in s.Contents();
      if s.keys[x].user == user {
        SeekSkipsNewer(s.keys[x], user, snapshot);
        assert Entry(s.keys[x], values[s.keys[x]]) in EntriesOf(values);
      }
    }
  }

  // ------------------------------------------------------------------ the class


  class MemTable {
    const table: SkipList
    var buffers: map<InternalKey, Bytes>  // what each node's char* points to
    ghost var values: map<InternalKey, Value>

    ghost predicate Valid()
      reads this, table
    {
      && table.Inv() && buffers.Keys == values.Keys == table.List().Contents()
      && forall k | k in values :: Fits(k, values[k]) && buffers[k] == Buffer(k, values[k])
    }

    ghost function Contents(): (s: set<Entry>)
      reads this
    {
      EntriesOf(values)
    }

    constructor ()
      ensures Valid() && Contents() == {} && fresh(table)
    {
      table := new SkipList();
      buffers, values := map[], map[];
    }

    method Add(sequence: nat, kind: byte, key: UserKey, value: Value, height: nat)
      requires Valid() && Fits(InternalKey(key, sequence, kind), value) && 0 < height <= MAX_HEIGHT
      requires InternalKey(key, sequence, kind) !in values  // sequence numbers are used once
      modifies this, table
      ensures Valid() && Contents() == old(Contents()) + {Entry(InternalKey(key, sequence, kind), value)}
      ensures values == old(values)[InternalKey(key, sequence, kind) := value]
    {
      var k := InternalKey(key, sequence, kind);
      var buf := Written(k, value);
      hide Buffer, Fits, Encode, EntriesOf, Links.Inv, Links.Contents;
      EntriesGrow(values, k, value);
      table.Insert(k, height);
      buffers, values := buffers[k := buf], values[k := value];
    }

    // The newest entry of the key that the snapshot may see, if there is one.
    method Get(user: UserKey, snapshot: nat) returns (r: Found)
      requires Valid()
      ensures match r
              case NotHere => forall e | e in Contents() :: !Candidate(e, user, snapshot)
              case Here(result) => exists e :: Answers(Contents(), user, snapshot, e) && result == Meaning(e)
    {
      var x, _ := table.FindGreaterOrEqual(LookupKey(user, snapshot));
      ghost var list := table.List();
      SeekFinds(list, values, user, snapshot, x);
      hide *;
      if x == NULL {
        return NotHere;
      }
      ghost var k := list.keys[x];
      MatchOf(k, values[k], user);
      r := Match(buffers[table.keys[x]], user);
    }
  }
}
