// User keys, internal keys and their orders: db/dbformat.{h,cc} and util/comparator.cc.
module DbFormat {
  import opened Coding

  type UserKey = seq<byte>
  type Value = seq<byte>

  const TYPE_DELETION: byte := 0
  const TYPE_VALUE: byte := 1
  const TYPE_FOR_SEEK: byte := TYPE_VALUE
  const MAX_SEQUENCE: nat := 0xFF_FFFF_FFFF_FFFF

  // ------------------------------------------------------------------ user keys

  function CommonPrefix(a: UserKey, b: UserKey): (n: nat)
    ensures n <= |a| && n <= |b| && a[..n] == b[..n]
    ensures n < |a| && n < |b| ==> a[n] != b[n]
  {
    if a == [] || b == [] || a[0] != b[0] then 0
    else
      var n := CommonPrefix(a[1..], b[1..]);
      assert a[..n + 1] == [a[0]] + a[1..][..n] && b[..n + 1] == [b[0]] + b[1..][..n];
      n + 1
  }

  // The bytewise comparator: memcmp on the common length, then the shorter key first.
  predicate KeyLess(a: UserKey, b: UserKey) {
    var n := CommonPrefix(a, b);
    n < |b| && (n == |a| || a[n] < b[n])
  }

  // The order of unsigned bytes, by what it means: a key is less than those it is a proper
  // prefix of, and otherwise the first byte that differs decides.
  ghost predicate Bytewise(a: UserKey, b: UserKey) {
    a < b || exists i: nat :: FirstDifference(a, b, i) && a[i] < b[i]
  }

  predicate FirstDifference(a: UserKey, b: UserKey, i: nat) {
    i < |a| && i < |b| && a[i] != b[i] && a[..i] == b[..i]
  }

  // The comparator finds exactly that order.
  lemma KeyLessIsBytewise(a: UserKey, b: UserKey)
    ensures KeyLess(a, b) <==> Bytewise(a, b)
    ensures |a| < |b| && b[..|a|] == a ==> KeyLess(a, b) && !KeyLess(b, a)
    ensures forall i: nat | i < |a| && i < |b| && a[..i] == b[..i] && a[i] < b[i] :: KeyLess(a, b) && !KeyLess(b, a)
  {
    forall i: nat | FirstDifference(a, b, i)
      ensures CommonPrefix(a, b) == CommonPrefix(b, a) == i
    {
      PrefixIs(a, b, i);
      PrefixIs(b, a, i);
    }
    var n := CommonPrefix(a, b);
    if n < |a| && n < |b| {
      assert FirstDifference(a, b, n);
    } else if n == |a| {
      assert a == a[..n];
    } else {
      assert b == b[..n];
    }
    if |a| <= |b| && b[..|a|] == a {
      PrefixOf(a, b);
    }
    hide CommonPrefix;
  }

  lemma {:induction false} PrefixOf(a: UserKey, b: UserKey)
    requires |a| <= |b| && b[..|a|] == a
    ensures CommonPrefix(a, b) == CommonPrefix(b, a) == |a|
  {
    if a != [] {
      assert a[0] == b[..|a|][0] && b[1..][..|a| - 1] == a[1..];
      PrefixOf(a[1..], b[1..]);
    }
  }

  lemma KeyLessTransitive(a: UserKey, b: UserKey, c: UserKey)
    requires KeyLess(a, b) && KeyLess(b, c)
    ensures KeyLess(a, c)
  {
    var m, n, r := CommonPrefix(a, b), CommonPrefix(b, c), CommonPrefix(a, c);
    var i := if m < n then m else n;
    assert a[..i] == a[..m][..i] == b[..m][..i] == b[..i] == b[..n][..i] == c[..n][..i] == c[..i];
  }

  lemma KeyLessTotal(a: UserKey, b: UserKey)
    ensures a == b || KeyLess(a, b) || KeyLess(b, a)
    ensures !(KeyLess(a, b) && KeyLess(b, a)) && !KeyLess(a, a)
  {
    var m, n := CommonPrefix(a, b), CommonPrefix(b, a);
    if m == |a| == |b| {
      assert a == a[..m] && b == b[..m];
    }
  }

  // The comparator's promise, in the form the other modules use.
  lemma KeyOrder()
    ensures forall a, b, c :: KeyLess(a, b) && KeyLess(b, c) ==> KeyLess(a, c)
    ensures forall a, b :: KeyLess(a, b) ==> !KeyLess(b, a) && a != b
    ensures forall a, b :: !KeyLess(a, b) ==> KeyLess(b, a) || a == b
  {
    forall a, b, c | KeyLess(a, b) && KeyLess(b, c)
      ensures KeyLess(a, c)
    {
      KeyLessTransitive(a, b, c);
    }
    forall a, b
      ensures a == b || KeyLess(a, b) || KeyLess(b, a)
      ensures !(KeyLess(a, b) && KeyLess(b, a)) && !KeyLess(a, a)
    {
      KeyLessTotal(a, b);
    }
  }

  // ------------------------------------------------------------------ internal keys

  // An internal key: a user key and a 64-bit tag, (sequence << 8) | type.  A tag whose type
  // byte is neither of the two value types makes the key unparseable.
  datatype InternalKey = InternalKey(user: UserKey, sequence: nat, kind: byte) {
    predicate Parses() { kind <= TYPE_VALUE }
    function Tag(): nat { sequence * 256 + kind }
  }

  // One stored (internal key, value) pair.
  datatype Entry = Entry(key: InternalKey, value: Value)

  // InternalKeyComparator::Compare(a, b) < 0: user key ascending, then tag descending.
  predicate Before(a: InternalKey, b: InternalKey) {
    KeyLess(a.user, b.user) || (a.user == b.user && a.Tag() > b.Tag())
  }

  // A list of entries as a merging iterator yields it.
  predicate Sorted(es: seq<Entry>) {
    forall i, j :: 0 <= i < j < |es| ==> Before(es[i].key, es[j].key)
  }

  lemma TagOrder(a: InternalKey, b: InternalKey)
    ensures a.Tag() > b.Tag() <==> a.sequence > b.sequence || (a.sequence == b.sequence && a.kind > b.kind)
    ensures a.Tag() == b.Tag() <==> a.sequence == b.sequence && a.kind == b.kind
  {
  }

  lemma InternalOrder()
    ensures forall a, b, c :: Before(a, b) && Before(b, c) ==> Before(a, c)
    ensures forall a, b :: Before(a, b) ==> !Before(b, a) && a != b
    ensures forall a, b :: !Before(a, b) ==> Before(b, a) || a == b
  {
    KeyOrder();
    forall a: InternalKey, b: InternalKey
      ensures a.user == b.user && a.Tag() == b.Tag() ==> a == b
    {
      TagOrder(a, b);
    }
  }

  // ------------------------------------------------------------------ their encoding

  function Encode(k: InternalKey): (b: seq<byte>)
    ensures |b| == |k.user| + 8
  {
    k.user + Fixed(8, k.Tag())
  }

  function ExtractUserKey(b: seq<byte>): (u: UserKey)
    requires |b| >= 8
  {
    b[..|b| - 8]
  }

  // ParseInternalKey fills *result before it looks at the type byte; Malformed is the
  // `n < 8` exit, and Parses() is the function's boolean result otherwise.
  function ParseInternalKey(b: seq<byte>): (p: Parsed<InternalKey>) {
    if |b| < 8 then Malformed
    else
      var num := FromFixed(b[|b| - 8..]);
      Parsed(InternalKey(ExtractUserKey(b), num / 256, num % 256), [])
  }

  lemma ParseEncoded(k: InternalKey)
    requires k.sequence <= MAX_SEQUENCE
    ensures ParseInternalKey(Encode(k)) == Parsed(k, [])
    ensures ExtractUserKey(Encode(k)) == k.user
  {
    PowersOf256();
    var b := Encode(k);
    assert b[|b| - 8..] == Fixed(8, k.Tag()) && b[..|b| - 8] == k.user;
    FixedRoundTrip(8, k.Tag());
    assert k.Tag() / 256 == k.sequence && k.Tag() % 256 == k.kind;
  }

  // InternalKeyComparator::Compare as the source computes it, on encoded keys.
  function CompareEncoded(a: seq<byte>, b: seq<byte>): (r: int)
    requires |a| >= 8 && |b| >= 8
  {
    var ua, ub := ExtractUserKey(a), ExtractUserKey(b);
    if KeyLess(ua, ub) then -1
    else if KeyLess(ub, ua) then 1
    else
      var anum, bnum := FromFixed(a[|a| - 8..]), FromFixed(b[|b| - 8..]);
      if anum > bnum then -1 else if anum < bnum then 1 else 0
  }

  lemma CompareIsBefore(a: InternalKey, b: InternalKey)
    requires a.sequence <= MAX_SEQUENCE && b.sequence <= MAX_SEQUENCE
    ensures CompareEncoded(Encode(a), Encode(b)) < 0 <==> Before(a, b)
    ensures CompareEncoded(Encode(a), Encode(b)) == 0 <==> a == b
    ensures Before(a, b) <==>
              Bytewise(a.user, b.user) ||
              (a.user == b.user && (a.sequence > b.sequence || (a.sequence == b.sequence && a.kind > b.kind)))
  {
    KeyOrder();
    KeyLessIsBytewise(a.user, b.user);
    hide Bytewise, KeyLess;
    PowersOf256();
    TagOrder(a, b);
    forall k | k in {a, b}
      ensures ExtractUserKey(Encode(k)) == k.user && FromFixed(Encode(k)[|Encode(k)| - 8..]) == k.Tag()
    {
      assert Encode(k)[..|Encode(k)| - 8] == k.user && Encode(k)[|Encode(k)| - 8..] == Fixed(8, k.Tag());
      FixedRoundTrip(8, k.Tag());
    }
  }

  // ------------------------------------------------------------------ separators

  // BytewiseComparatorImpl::FindShortestSeparator.
  method ShortestUserSeparator(start: UserKey, limit: UserKey) returns (r: UserKey)
    ensures KeyLess(start, limit) ==> (r == start || KeyLess(start, r)) && KeyLess(r, limit)
    ensures start == limit ==> r == start
  {
    var minLength := if |start| < |limit| then |start| else |limit|;
    var diff := 0;
    while diff < minLength && start[diff] == limit[diff]
      invariant diff <= minLength && start[..diff] == limit[..diff]
    {
      assert start[..diff + 1] == start[..diff] + [start[diff]];
      assert limit[..diff + 1] == limit[..diff] + [limit[diff]];
      diff := diff + 1;
    }
    r := start;
    if diff < minLength {
      var c := start[diff];
      if c < 255 && c + 1 < limit[diff] {
        r := start[..diff] + [c + 1];
        PrefixIs(start, r, diff);
        PrefixIs(r, limit, diff);
      }
    }
  }

  lemma {:induction false} PrefixIs(a: UserKey, b: UserKey, n: nat)
    requires n < |a| && n < |b| && a[..n] == b[..n] && a[n] != b[n]
    ensures CommonPrefix(a, b) == n
  {
    if n > 0 {
      assert a[0] == a[..n][0] && b[0] == b[..n][0];
      assert a[1..][..n - 1] == a[..n][1..] && b[1..][..n - 1] == b[..n][1..];
      PrefixIs(a[1..], b[1..], n - 1);
    }
  }

  // InternalKeyComparator::FindShortestSeparator: both of its own assertions, for all keys.
  method FindShortestSeparator(start: InternalKey, limit: InternalKey) returns (r: InternalKey)
    requires Before(start, limit)
    ensures (r == start || Before(start, r)) && Before(r, limit)
    ensures r != start ==> |r.user| < |start.user| && r.sequence == MAX_SEQUENCE && r.kind == TYPE_FOR_SEEK
  {
    KeyOrder();
    var tmp := ShortestUserSeparator(start.user, limit.user);
    if |tmp| < |start.user| && KeyLess(start.user, tmp) {
      r := InternalKey(tmp, MAX_SEQUENCE, TYPE_FOR_SEEK);
    } else {
      r := start;
    }
  }
}
