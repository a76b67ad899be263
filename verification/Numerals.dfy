// Numbers as bytes, by what they mean: base-128 varints and little-endian words.  What
// util/coding.cc and nanopb's encoders write has to be this to whoever else reads it.
module Numerals {
  import opened Coding
  import opened Lookup

  // Groups of seven bits, the least significant first; the last byte is below 128.
  function ReadVarint(b: seq<byte>): (p: Parsed<nat>)
    ensures p.Parsed? ==> |p.rest| < |b|
  {
    if b == [] then Malformed
    else if b[0] < 128 then Parsed(b[0], b[1..])
    else
      var p := ReadVarint(b[1..]);
      if p.Parsed? then Parsed(b[0] - 128 + 128 * p.value, p.rest) else Malformed
  }

  // Four bytes, the least significant first.
  function FourBytes(b: seq<byte>): (n: nat)
    requires |b| >= 4
  {
    var b0: nat, b1: nat, b2: nat, b3: nat := b[0], b[1], b[2], b[3];
    b0 + 0x100 * b1 + 0x1_0000 * b2 + 0x100_0000 * b3
  }

  function EightBytes(b: seq<byte>): (n: nat)
    requires |b| >= 8
  {
    FourBytes(b) + 0x1_0000_0000 * FourBytes(b[4..])
  }

  // A length and that many bytes.
  function ReadSlice(b: seq<byte>): (p: Parsed<seq<byte>>)
    ensures p.Parsed? ==> |p.rest| < |b|
  {
    var n := ReadVarint(b);
    if n.Parsed? && n.value <= |n.rest| then Parsed(n.rest[..n.value], n.rest[n.value..]) else Malformed
  }

  // Something read, and what is read after it.
  function Prepended<T>(a: seq<T>, more: Option<seq<T>>): (r: Option<seq<T>>) {
    if more.Some? then Some(a + more.value) else None
  }

  lemma PrependTwice<T>(a: seq<T>, b: seq<T>, more: Option<seq<T>>)
    ensures Prepended(a, Prepended(b, more)) == Prepended(a + b, more)
  {
    if more.Some? {
      ConcatAssociates(a, b, more.value);
    }
  }

  lemma {:induction false} VarintRead(v: nat, rest: seq<byte>)
    ensures ReadVarint(Varint(v) + rest) == Parsed(v, rest)
  {
    var b := Varint(v) + rest;
    if v < 128 {
      assert b[0] == v && b[1..] == rest;
    } else {
      assert b[0] == v % 128 + 128 && b[1..] == Varint(v / 128) + rest;
      VarintRead(v / 128, rest);
    }
  }

  // On any bytes: the decoders read the varint that is there if it ends in time, whatever number
  // of zeros it has in front, and keep its low bits.
  lemma {:induction false} GroupsAreRead(b: seq<byte>, n: nat)
    ensures Groups(b, n).Parsed? <==> ReadVarint(b).Parsed? && |b| - |ReadVarint(b).rest| <= n
    ensures Groups(b, n).Parsed? ==> Groups(b, n) == ReadVarint(b)
  {
    if n > 0 && b != [] && b[0] >= 128 {
      GroupsAreRead(b[1..], n - 1);
    }
  }

  lemma GetVarintReads(b: seq<byte>)
    ensures var p := ReadVarint(b);
            && (GetVarint32(b) == if p.Parsed? && |b| - |p.rest| <= 5 then Parsed(p.value % 0x1_0000_0000, p.rest) else Malformed)
            && (GetVarint64(b) == if p.Parsed? && |b| - |p.rest| <= 10 then Parsed(p.value % 0x1_0000_0000_0000_0000, p.rest)
                                  else Malformed)
  {
    GroupsAreRead(b, 5);
    GroupsAreRead(b, 10);
    hide ReadVarint, Groups;
  }

  lemma FourBytesOf(v: nat, b: seq<byte>, rest: seq<byte>)
    requires v < 0x1_0000_0000 && b == Fixed(4, v)
    ensures FourBytes(b + rest) == v && (b + rest)[4..] == rest
  {
    assert b[0] == v % 256;
    assert b[1] == Fixed(3, v / 256)[0] == v / 256 % 256;
    assert b[2] == Fixed(2, v / 256 / 256)[0] == v / 256 / 256 % 256;
    assert b[3] == Fixed(1, v / 256 / 256 / 256)[0] == v / 256 / 256 / 256 % 256;
  }

  // The low bytes of a number come before those of the rest of it.
  lemma {:induction false} FixedSplits(width: nat, more: nat, low: nat, high: nat)
    requires low < Pow256(width)
    ensures Fixed(width + more, low + Pow256(width) * high) == Fixed(width, low) + Fixed(more, high)
  {
    if width > 0 {
      var p := Pow256(width - 1);
      assert Pow256(width) * high == 256 * (p * high);
      assert (low + 256 * (p * high)) % 256 == low % 256 && (low + 256 * (p * high)) / 256 == low / 256 + p * high;
      FixedSplits(width - 1, more, low / 256, high);
    } else {
      assert Pow256(0) * high == high;
    }
  }

  lemma EightBytesOf(v: nat, b: seq<byte>, rest: seq<byte>)
    requires v < 0x1_0000_0000_0000_0000 && b == Fixed(8, v)
    ensures EightBytes(b + rest) == v && (b + rest)[8..] == rest
  {
    var low, high := v % 0x1_0000_0000, v / 0x1_0000_0000;
    PowersOf256();
    FixedSplits(4, 4, low, high);
    FourBytesOf(low, Fixed(4, low), Fixed(4, high) + rest);
    FourBytesOf(high, Fixed(4, high), rest);
    assert b + rest == Fixed(4, low) + (Fixed(4, high) + rest);
    hide Fixed, FourBytes;
  }

  lemma SliceRead(s: seq<byte>, rest: seq<byte>)
    requires |s| <= MAX_UINT32
    ensures ReadSlice(LengthPrefixed(s) + rest) == Parsed(s, rest)
  {
    hide Varint, ReadVarint;
    assert LengthPrefixed(s) + rest == Varint(|s|) + (s + rest);
    VarintRead(|s|, s + rest);
  }
}
