// Fixed-width and variable-width integers and length-prefixed slices: util/coding.cc.
// Everything the write-ahead log, the batches and the descriptor edits put on disk goes
// through these encoders.
module Coding {

  type byte = x: int | 0 <= x < 256

  // A consuming read: the decoded value and the bytes that follow it.
  datatype Parsed<+T> = Malformed | Parsed(value: T, rest: seq<byte>)

  lemma ConcatAssociates<T>(a: seq<T>, b: seq<T>, c: seq<T>)
    ensures a + (b + c) == (a + b) + c
  {
  }

  const MAX_UINT32: nat := 0xFFFF_FFFF
  const MAX_UINT64: nat := 0xFFFF_FFFF_FFFF_FFFF

  function Pow2(n: nat): (w: nat)
    ensures w >= 1
  {
    if n == 0 then 1 else 2 * Pow2(n - 1)
  }

  // 2^(7n), the weight of the n-th group of a varint.
  function Weight(n: nat): (w: nat)
    ensures w >= 1
  {
    if n == 0 then 1 else 128 * Weight(n - 1)
  }

  // ------------------------------------------------------------------ fixed width

  function Fixed(width: nat, v: nat): (b: seq<byte>)
    ensures |b| == width
  {
    if width == 0 then [] else [v % 256] + Fixed(width - 1, v / 256)
  }

  function FromFixed(b: seq<byte>): (v: nat) {
    if b == [] then 0 else b[0] + 256 * FromFixed(b[1..])
  }

  function Pow256(n: nat): (w: nat)
    ensures w >= 1
  {
    if n == 0 then 1 else 256 * Pow256(n - 1)
  }

  lemma {:induction false} FixedRoundTrip(width: nat, v: nat)
    requires v < Pow256(width)
    ensures FromFixed(Fixed(width, v)) == v
  {
    if width > 0 {
      assert v / 256 < Pow256(width - 1);
      FixedRoundTrip(width - 1, v / 256);
      assert Fixed(width, v)[1..] == Fixed(width - 1, v / 256);
    }
  }

  lemma {:induction false} FixedInverse(b: seq<byte>)
    ensures FromFixed(b) < Pow256(|b|)
    ensures Fixed(|b|, FromFixed(b)) == b
  {
    if b != [] {
      FixedInverse(b[1..]);
      var v := FromFixed(b[1..]);
      assert (b[0] + 256 * v) % 256 == b[0] && (b[0] + 256 * v) / 256 == v;
      assert b == [b[0]] + b[1..];
    }
  }

  lemma PowersOf256()
    ensures Pow256(4) == MAX_UINT32 + 1
    ensures Pow256(8) == MAX_UINT64 + 1
  {
    assert Pow256(2) == 65536;
    assert Pow256(4) == 65536 * 65536;
    assert Pow256(5) == 256 * Pow256(4);
    assert Pow256(6) == 256 * Pow256(5);
    assert Pow256(7) == 256 * Pow256(6);
    assert Pow256(8) == 256 * Pow256(7);
  }

  // ------------------------------------------------------------------ varints

  // The bytes EncodeVarint32 and EncodeVarint64 both produce: seven bits a byte, least
  // significant first, the top bit set on every byte but the last.
  function Varint(v: nat): (b: seq<byte>)
    ensures |b| >= 1
  {
    if v < 128 then [v] else [v % 128 + 128] + Varint(v / 128)
  }

  method EncodeVarint64(dst: seq<byte>, value: nat) returns (out: seq<byte>)
    ensures out == dst + Varint(value)
  {
    var v := value;
    out := dst;
    while v >= 128
      invariant out + Varint(v) == dst + Varint(value)
    {
      assert Varint(v) == [v % 128 + 128] + Varint(v / 128);
      out := out + [v % 128 + 128];
      v := v / 128;
    }
    out := out + [v];
  }

  // The unbounded value of the varint at the head of b, which must end within `groups` bytes.
  function Groups(b: seq<byte>, groups: nat): (p: Parsed<nat>)
    ensures p.Parsed? ==> |p.rest| < |b|
  {
    if groups == 0 || b == [] then Malformed
    else if b[0] < 128 then Parsed(b[0], b[1..])
    else
      var p := Groups(b[1..], groups - 1);
      if p.Parsed? then Parsed(b[0] - 128 + 128 * p.value, p.rest) else Malformed
  }

  // A decoder keeps only the low bits of the value.
  function Truncated(p: Parsed<nat>, modulus: nat): (t: Parsed<nat>)
    requires modulus > 0
  {
    if p.Parsed? then Parsed(p.value % modulus, p.rest) else Malformed
  }

  function GetVarint32(b: seq<byte>): (p: Parsed<nat>)
    ensures p.Parsed? ==> |p.rest| < |b|
  {
    Truncated(Groups(b, 5), MAX_UINT32 + 1)
  }

  function GetVarint64(b: seq<byte>): (p: Parsed<nat>)
    ensures p.Parsed? ==> |p.rest| < |b|
  {
    Truncated(Groups(b, 10), MAX_UINT64 + 1)
  }

  // c << 7n.
  function ShiftLeft(c: nat, n: nat): (r: nat) {
    if n == 0 then c else 128 * ShiftLeft(c, n - 1)
  }

  lemma {:induction false} ShiftLeftSplits(c: nat, v: nat, n: nat)
    ensures ShiftLeft(c + 128 * v, n) == ShiftLeft(c, n) + ShiftLeft(v, n + 1)
  {
    if n > 0 {
      ShiftLeftSplits(c, v, n - 1);
    }
  }

  // After n groups of b, whose value is sum, the rest of b completes the varint.
  ghost predicate Pending(b: seq<byte>, limit: nat, n: nat, sum: nat)
    requires n <= limit && n <= |b|
  {
    var more := Groups(b[n..], limit - n);
    Groups(b, limit) == if more.Parsed? then Parsed(sum + ShiftLeft(more.value, n), more.rest) else Malformed
  }

  lemma GroupsAt(b: seq<byte>, n: nat, groups: nat)
    requires n < |b| && groups > 0
    ensures var more := Groups(b[n + 1..], groups - 1);
            Groups(b[n..], groups) ==
            if b[n] < 128 then Parsed(b[n], b[n + 1..])
            else if more.Parsed? then Parsed(b[n] - 128 + 128 * more.value, more.rest) else Malformed
  {
    assert b[n..][0] == b[n] && b[n..][1..] == b[n + 1..];
  }

  lemma PendingStep(b: seq<byte>, limit: nat, n: nat, sum: nat)
    requires n < limit && n < |b| && Pending(b, limit, n, sum)
    ensures b[n] >= 128 ==> Pending(b, limit, n + 1, sum + ShiftLeft(b[n] - 128, n))
    ensures b[n] < 128 ==> Groups(b, limit) == Parsed(sum + ShiftLeft(b[n], n), b[n + 1..])
  {
    hide Groups, ShiftLeft;
    GroupsAt(b, n, limit - n);
    if b[n] >= 128 {
      OneGroup(Groups(b, limit), Groups(b[n..], limit - n), Groups(b[n + 1..], limit - n - 1), b[n] - 128, n, sum);
    }
  }

  // What is left to read before and after one more group.
  lemma OneGroup(all: Parsed<nat>, here: Parsed<nat>, more: Parsed<nat>, bits: nat, n: nat, sum: nat)
    requires here == if more.Parsed? then Parsed(bits + 128 * more.value, more.rest) else Malformed
    requires all == if here.Parsed? then Parsed(sum + ShiftLeft(here.value, n), here.rest) else Malformed
    ensures all == if more.Parsed? then Parsed(sum + ShiftLeft(bits, n) + ShiftLeft(more.value, n + 1), more.rest)
                   else Malformed
  {
    hide ShiftLeft;
    if more.Parsed? {
      ShiftLeftSplits(bits, more.value, n);
    }
  }

  lemma GroupsNone(b: seq<byte>, limit: nat)
    ensures Groups(b, 0) == Malformed && Groups([], limit) == Malformed
    ensures Pending(b, limit, 0, 0)
  {
    assert b[0..] == b;
  }

  // GetVarint64Ptr: the shifting loop.  `|=` is `+` here because the groups do not overlap,
  // and a 64-bit register keeps the sum modulo 2^64.
  method GetVarint64Ptr(b: seq<byte>) returns (p: Parsed<nat>)
    ensures p == GetVarint64(b)
  {
    hide Groups, ShiftLeft;
    GroupsNone(b, 10);
    var result: nat, n := 0, 0;
    ghost var sum: nat := 0;
    hide Pending;
    while n < 10 && n < |b|
      invariant n <= 10 && n <= |b|
      invariant result == sum % (MAX_UINT64 + 1)
      invariant Pending(b, 10, n, sum)
    {
      PendingStep(b, 10, n, sum);
      var bits: nat := if b[n] >= 128 then b[n] - 128 else b[n];
      var group: nat := ShiftLeft(bits, n);
      AddModulo(sum, group, MAX_UINT64 + 1);
      sum := sum + group;
      result := (result + group) % (MAX_UINT64 + 1);
      if b[n] < 128 {
        return Parsed(result, b[n + 1..]);
      }
      n := n + 1;
    }
    NoneLeft(b, n, sum);
    p := Malformed;
  }

  lemma AddModulo(a: nat, c: nat, m: nat)
    requires m > 0
    ensures (a % m + c) % m == (a + c) % m
  {
    var q, r := a / m, a % m;
    var q', r' := (r + c) / m, (r + c) % m;
    assert a + c == (q + q') * m + r';
    ModUnique(a + c, m, q + q', r');
  }

  lemma ModUnique(a: nat, p: nat, q: nat, r: nat)
    requires p > 0 && r < p && a == q * p + r
    ensures a % p == r
  {
    var q', r' := a / p, a % p;
    var d := q - q';
    assert a == q' * p + r';
    assert d * p == r' - r;
    Multiples(d, p);
  }

  lemma Multiples(d: int, p: int)
    requires p >= 0
    ensures d >= 1 ==> d * p >= p
    ensures d <= -1 ==> d * p <= -p
  {
    if d >= 1 {
      assert (d - 1) * p >= 0;
    }
    if d <= -1 {
      assert (-1 - d) * p >= 0;
    }
  }

  // A varint that has not ended within its bytes or ten of them.
  lemma NoneLeft(b: seq<byte>, n: nat, sum: nat)
    requires n <= 10 && n <= |b| && (n == 10 || n == |b|) && Pending(b, 10, n, sum)
    ensures Groups(b, 10) == Malformed
  {
    hide ShiftLeft;
    GroupsNone(b[n..], 10 - n);
  }

  lemma {:induction false} VarintDecodes(v: nat, tail: seq<byte>, groups: nat)
    requires groups > 0 && v < Weight(groups)
    ensures Groups(Varint(v) + tail, groups) == Parsed(v, tail)
  {
    var b := Varint(v) + tail;
    if v < 128 {
      assert b[0] == v && b[1..] == tail;
    } else {
      assert b[0] == v % 128 + 128 && b[1..] == Varint(v / 128) + tail;
      VarintDecodes(v / 128, tail, groups - 1);
    }
  }

  lemma Weights()
    ensures Weight(5) > MAX_UINT32 && Weight(10) > MAX_UINT64
  {
    assert Weight(2) == 16384;
    assert Weight(4) == 16384 * 16384;
    assert Weight(5) == 128 * Weight(4);
    assert Weight(6) == 128 * Weight(5);
    assert Weight(7) == 128 * Weight(6);
    assert Weight(8) == 128 * Weight(7);
    assert Weight(9) == 128 * Weight(8);
    assert Weight(10) == 128 * Weight(9);
  }

  lemma Varint64RoundTrip(v: nat, tail: seq<byte>)
    requires v <= MAX_UINT64
    ensures GetVarint64(Varint(v) + tail) == Parsed(v, tail)
  {
    Weights();
    VarintDecodes(v, tail, 10);
  }

  lemma Varint32RoundTrip(v: nat, tail: seq<byte>)
    requires v <= MAX_UINT32
    ensures GetVarint32(Varint(v) + tail) == Parsed(v, tail)
  {
    Weights();
    VarintDecodes(v, tail, 5);
  }

  // ------------------------------------------------------------------ slices

  // PutLengthPrefixedSlice: the length is cast to 32 bits.
  function LengthPrefixed(s: seq<byte>): (b: seq<byte>) {
    Varint(|s| % (MAX_UINT32 + 1)) + s
  }

  function GetLengthPrefixed(b: seq<byte>): (p: Parsed<seq<byte>>)
    ensures p.Parsed? ==> |p.rest| < |b|
  {
    var len := GetVarint32(b);
    if len.Parsed? && |len.rest| >= len.value then Parsed(len.rest[..len.value], len.rest[len.value..])
    else Malformed
  }

  lemma LengthPrefixedRoundTrip(s: seq<byte>, tail: seq<byte>)
    requires |s| <= MAX_UINT32
    ensures GetLengthPrefixed(LengthPrefixed(s) + tail) == Parsed(s, tail)
  {
    assert LengthPrefixed(s) + tail == Varint(|s|) + (s + tail);
    Varint32RoundTrip(|s|, s + tail);
  }
}
