// Byte streams and integers of the wire format: the varint and zig-zag parts of
// nanopb/pb_encode.c and nanopb/pb_decode.c (Protocol Buffers Encoding guide, sections
// "Base 128 Varints" and "Signed Integers").
module PbVarint {
  import opened Coding

  type Bytes = seq<byte>

  const PB_SIZE_MAX: nat := 255  // pb_size_t has 8 bits

  const TWO_31: int := 0x8000_0000
  const TWO_32: int := 0x1_0000_0000
  const TWO_63: int := 0x8000_0000_0000_0000
  const TWO_64: int := 0x1_0000_0000_0000_0000

  // ------------------------------------------------------------------ 32-bit varints

  // Bitwise or, on the low bits.
  function OrBits(a: nat, b: nat, bits: nat): (r: nat)
    ensures r < Pow2(bits)
  {
    if bits == 0 then 0 else (if a % 2 == 1 || b % 2 == 1 then 1 else 0) + 2 * OrBits(a / 2, b / 2, bits - 1)
  }

  // The do loop of pb_decode_varint32.  bitpos has eight bits, so that it starts over after 36
  // bytes; a byte at bit 35 or above must be zero, or the sign extension of a negative result.
  function More32(b: Bytes, bitpos: nat, result: nat): (p: Parsed<nat>)
    ensures p.Parsed? ==> |p.rest| < |b|
    decreases b
  {
    if b == [] then Malformed
    else
      var group := b[0] % 128;
      if bitpos >= 32 && group != 0 && (result < TWO_31 || b[0] != if bitpos < 63 then 0xFF else 0x01) then Malformed
      else
        var r := if bitpos >= 32 then result else OrBits(result, group * Pow2(bitpos), 32);
        var next := (bitpos + 7) % 256;
        if b[0] >= 128 then More32(b[1..], next, r)
        else if next == 35 && group >= 16 then Malformed
        else Parsed(r, b[1..])
  }

  function Decode32(b: Bytes): (p: Parsed<nat>)
    ensures p.Parsed? ==> |p.rest| < |b|
  {
    if b == [] then Malformed
    else if b[0] < 128 then Parsed(b[0], b[1..])
    else More32(b[1..], 7, b[0] - 128)
  }

  lemma SmallWeights()
    ensures Weight(1) == 0x80 && Weight(2) == 0x4000 && Weight(3) == 0x20_0000 && Weight(4) == 0x1000_0000
    ensures Weight(5) == 0x8_0000_0000
  {
    assert Weight(1) == 128 * Weight(0);
    assert Weight(2) == 128 * Weight(1);
    assert Weight(3) == 128 * Weight(2);
    assert Weight(4) == 128 * Weight(3);
    assert Weight(5) == 128 * Weight(4);
  }

  // One more group of a varint.
  lemma VarintCons(u: nat, tail: Bytes)
    ensures u < 128 ==> Varint(u) + tail == [u] + tail
    ensures u >= 128 ==> Varint(u) + tail == [u % 128 + 128] + (Varint(u / 128) + tail)
  {
  }

  // Groups that do not overlap are added.
  lemma {:induction false} OrAdds(a: nat, c: nat, k: nat, bits: nat)
    requires a < Pow2(k)
    ensures OrBits(a, c * Pow2(k), bits) == (a + c * Pow2(k)) % Pow2(bits)
    decreases bits
  {
    if bits > 0 {
      var p := Pow2(bits - 1);
      if k == 0 {
        OrZero(c, bits);
      } else {
        var q := Pow2(k - 1);
        assert c * Pow2(k) == 2 * (c * q);
        OrAdds(a / 2, c, k - 1, bits - 1);
        HalfMod(a, c * q, p);
      }
    }
  }

  lemma {:induction false} OrZero(c: nat, bits: nat)
    ensures OrBits(0, c, bits) == c % Pow2(bits)
  {
    if bits > 0 {
      OrZero(c / 2, bits - 1);
      HalfMod(c % 2, c / 2, Pow2(bits - 1));
    }
  }

  lemma HalfMod(a: nat, m: nat, p: nat)
    requires p > 0
    ensures (a + 2 * m) % (2 * p) == a % 2 + 2 * ((a / 2 + m) % p)
  {
    var x := a / 2 + m;
    var q, r := x / p, x % p;
    assert x == q * p + r;
    assert a + 2 * m == q * (2 * p) + (a % 2 + 2 * r);
    ModUnique(a + 2 * m, 2 * p, q, a % 2 + 2 * r);
  }

  lemma PowersOf2()
    ensures Pow2(7) == 0x80 && Pow2(14) == 0x4000 && Pow2(21) == 0x20_0000 && Pow2(28) == 0x1000_0000
    ensures Pow2(32) == TWO_32
  {
    assert Pow2(3) == 8;
    assert Pow2(7) == 16 * Pow2(3);
    assert Pow2(10) == 8 * Pow2(7);
    assert Pow2(14) == 16 * Pow2(10);
    assert Pow2(17) == 8 * Pow2(14);
    assert Pow2(21) == 16 * Pow2(17);
    assert Pow2(24) == 8 * Pow2(21);
    assert Pow2(28) == 16 * Pow2(24);
    assert Pow2(32) == 16 * Pow2(28);
  }

  // The first five groups fit together without overlap.
  lemma OrOfGroup(result: nat, group: nat, n: nat)
    requires 1 <= n <= 4 && result < Weight(n)
    ensures OrBits(result, group * Pow2(7 * n), 32) == (result + group * Weight(n)) % TWO_32
  {
    SmallWeights();
    PowersOf2();
    assert Weight(n) == Pow2(7 * n);
    OrAdds(result, group, 7 * n, 32);
  }

  // One turn of the loop on group n.
  lemma More32Cons(c: byte, b: Bytes, n: nat, result: nat)
    requires 1 <= n <= 9 && (n < 5 ==> result < Weight(n))
    ensures var group := c % 128;
            var r := if n >= 5 then result else (result + group * Weight(n)) % TWO_32;
            More32([c] + b, 7 * n, result) ==
              if n >= 5 && group != 0 && (result < TWO_31 || c != if n < 9 then 0xFF else 0x01) then Malformed
              else if c >= 128 then More32(b, 7 * (n + 1), r)
              else if n == 4 && group >= 16 then Malformed
              else Parsed(r, b)
  {
    hide OrBits, Pow2, Weight;
    assert ([c] + b)[1..] == b;
    if n < 5 {
      OrOfGroup(result, c % 128, n);
    }
  }

  lemma Regroup(u: nat, w: nat, r: nat)
    ensures r + u * w == (r + u % 128 * w) + u / 128 * (128 * w)
  {
    var q, m := u / 128, u % 128;
    assert u == 128 * q + m;
    assert u * w == (128 * q) * w + m * w;
    assert (128 * q) * w == q * (128 * w);
  }

  lemma GroupFits(m: nat, w: nat, r: nat)
    requires m < 128 && r < w
    ensures r + m * w < 128 * w
  {
    assert m * w <= 127 * w;
  }

  // The rest of a 32-bit value, n groups in.
  lemma {:induction false} RestOf32(v: nat, u: nat, n: nat, r: nat, w: nat, tail: Bytes)
    requires 1 <= n <= 4 && w == Weight(n) && v == r + u * w && r < w && 0 < u && v < TWO_32
    ensures More32(Varint(u) + tail, 7 * n, r) == Parsed(v, tail)
    decreases 4 - n
  {
    hide Varint, More32, Weight;
    SmallWeights();
    WeightStep(n);
    VarintCons(u, tail);
    if u < 128 {
      More32Cons(u, tail, n, r);
    } else {
      LastGroup(u, n, w, v);
      var r' := r + u % 128 * w;
      More32Cons(u % 128 + 128, Varint(u / 128) + tail, n, r);
      Regroup(u, w, r);
      GroupFits(u % 128, w, r);
      RestOf32(v, u / 128, n + 1, r', 128 * w, tail);
    }
  }

  lemma WeightStep(n: nat)
    ensures Weight(n + 1) == 128 * Weight(n)
  {
  }

  lemma LastGroup(u: nat, n: nat, w: nat, v: nat)
    requires 1 <= n <= 4 && w == Weight(n) && u >= 128 && u * w <= v < TWO_32
    ensures n < 4
  {
    SmallWeights();
  }

  // pb_decode_varint32 reads back every 32-bit value, and exactly its bytes.
  lemma Decode32Unsigned(v: nat, tail: Bytes)
    requires v < TWO_32
    ensures Decode32(Varint(v) + tail) == Parsed(v, tail)
  {
    VarintCons(v, tail);
    if v >= 128 {
      SmallWeights();
      RestOf32(v, v / 128, 1, v % 128, 128, tail);
      assert (Varint(v) + tail)[1..] == Varint(v / 128) + tail;
    }
  }

  // The first five groups of a longer varint.
  lemma {:induction false} FirstGroups(v: nat, u: nat, n: nat, r: nat, w: nat, tail: Bytes)
    requires 1 <= n <= 4 && w == Weight(n) && v == r + u * w && r < w && v >= 0x8_0000_0000
    ensures More32(Varint(u) + tail, 7 * n, r) == More32(Varint(v / 0x8_0000_0000) + tail, 35, v % TWO_32)
    decreases 4 - n
  {
    hide Varint, More32, Weight;
    SmallWeights();
    WeightStep(n);
    MoreGroups(u, n, w, r, v);
    VarintCons(u, tail);
    More32Cons(u % 128 + 128, Varint(u / 128) + tail, n, r);
    Regroup(u, w, r);
    GroupFits(u % 128, w, r);
    var r' := r + u % 128 * w;
    if n < 4 {
      FirstGroups(v, u / 128, n + 1, r', 128 * w, tail);
    } else {
      LowBits(v, r', u / 128);
    }
  }

  lemma MoreGroups(u: nat, n: nat, w: nat, r: nat, v: nat)
    requires 1 <= n <= 4 && w == Weight(n) && r < w && v == r + u * w && v >= 0x8_0000_0000
    ensures u >= 128 && (n < 4 ==> r + u % 128 * w < TWO_32)
  {
    SmallWeights();
    assert w <= 0x1000_0000;
    if u < 128 {
      GroupFits(u, w, r);
    }
    GroupFits(u % 128, w, r);
  }

  lemma LowBits(v: nat, r: nat, q: nat)
    requires r < 0x8_0000_0000 && v == r + q * 0x8_0000_0000
    ensures r % TWO_32 == v % TWO_32 && q == v / 0x8_0000_0000
  {
  }

  lemma FirstFive(v: nat, tail: Bytes)
    requires v >= 0x8_0000_0000
    ensures Decode32(Varint(v) + tail) == More32(Varint(v / 0x8_0000_0000) + tail, 35, v % TWO_32)
  {
    hide More32;
    SmallWeights();
    VarintCons(v, tail);
    assert (Varint(v) + tail)[1..] == Varint(v / 128) + tail;
    FirstGroups(v, v / 128, 1, v % 128, 128, tail);
  }

  // A negative int32 is written sign-extended to 64 bits, in ten bytes; pb_decode_varint32
  // gives its low 32 bits.
  lemma Decode32Negative(n: int, tail: Bytes)
    requires -TWO_31 <= n < 0
    ensures |Varint(TWO_64 + n)| == 10
    ensures Decode32(Varint(TWO_64 + n) + tail) == Parsed(TWO_32 + n, tail)
  {
    hide More32, Varint, Decode32;
    var v: nat := TWO_64 + n;
    FirstFive(v, tail);
    assert v / 0x8_0000_0000 == 0x1FFF_FFFF && v % TWO_32 == TWO_32 + n;
    SignExtension(tail, TWO_32 + n);
    TenBytes(v);
  }

  lemma SignBytes()
    ensures Varint(0x1FFF_FFFF) == [0xFF, 0xFF, 0xFF, 0xFF, 0x01]
  {
    assert Varint(0x1) == [0x01];
    assert Varint(0xFF) == [0xFF] + Varint(0x1);
    assert Varint(0x7FFF) == [0xFF] + Varint(0xFF);
    assert Varint(0x3F_FFFF) == [0xFF] + Varint(0x7FFF);
    assert Varint(0x1FFF_FFFF) == [0xFF] + Varint(0x3F_FFFF);
  }

  lemma SignExtension(tail: Bytes, r: nat)
    requires TWO_31 <= r < TWO_32
    ensures More32(Varint(0x1FFF_FFFF) + tail, 35, r) == Parsed(r, tail)
  {
    SignBytes();
    var b: Bytes := [0x01] + tail;
    More32Cons(0x01, tail, 9, r);
    More32Cons(0xFF, b, 8, r);
    More32Cons(0xFF, [0xFF] + b, 7, r);
    More32Cons(0xFF, [0xFF] + ([0xFF] + b), 6, r);
    More32Cons(0xFF, [0xFF] + ([0xFF] + ([0xFF] + b)), 5, r);
    assert Varint(0x1FFF_FFFF) + tail == [0xFF] + ([0xFF] + ([0xFF] + ([0xFF] + b)));
  }

  lemma TenBytes(v: nat)
    requires v / 0x8_0000_0000 == 0x1FFF_FFFF
    ensures |Varint(v)| == 10
  {
    SignBytes();
    var v1, v2, v3, v4 := v / 0x80, v / 0x4000, v / 0x20_0000, v / 0x1000_0000;
    assert v1 / 128 == v2 && v2 / 128 == v3 && v3 / 128 == v4 && v4 / 128 == 0x1FFF_FFFF;
    assert |Varint(v4)| == 6;
    assert |Varint(v3)| == 7;
    assert |Varint(v2)| == 8;
    assert |Varint(v1)| == 9;
  }

  lemma GroupsCons(c: byte, b: Bytes, groups: nat)
    requires groups > 0
    ensures var p := Groups(b, groups - 1);
            Groups([c] + b, groups) ==
              if c < 128 then Parsed(c, b)
              else if p.Parsed? then Parsed(c - 128 + 128 * p.value, p.rest)
              else Malformed
  {
    assert ([c] + b)[1..] == b;
  }

  lemma NoGroups(b: Bytes, groups: nat)
    requires Groups(b, groups).Parsed?
    ensures b != [] && groups > 0 && b == [b[0]] + b[1..]
  {
  }

  lemma Distribute(m: nat, q: nat, w: nat, r: nat)
    ensures r + (m + 128 * q) * w == (r + m * w) + q * (128 * w)
  {
    assert (m + 128 * q) * w == m * w + (128 * q) * w;
    assert (128 * q) * w == q * (128 * w);
  }

  // What the last group may be, and that the others fit.
  lemma GroupInRange(m: nat, n: nat, r: nat, w: nat)
    requires 1 <= n <= 4 && w == Weight(n) && r < w && m < 128
    ensures n < 4 ==> r + m * w < TWO_32
    ensures n == 4 ==> (m < 16 <==> r + m * w < TWO_32)
  {
    SmallWeights();
    GroupFits(m, w, r);
    assert n == 4 ==> m * w == m * 0x1000_0000;
  }

  lemma {:induction false} ShortRest(b: Bytes, n: nat, r: nat, w: nat)
    requires 1 <= n <= 5 && w == Weight(n) && r < w && Groups(b, 5 - n).Parsed?
    ensures var p := Groups(b, 5 - n);
            More32(b, 7 * n, r) == if r + p.value * w < TWO_32 then Parsed(r + p.value * w, p.rest) else Malformed
    decreases 5 - n
  {
    hide Weight, Groups, More32;
    NoGroups(b, 5 - n);
    WeightStep(n);
    var m := b[0] % 128;
    More32Cons(b[0], b[1..], n, r);
    GroupsCons(b[0], b[1..], 5 - n);
    GroupInRange(m, n, r, w);
    if b[0] >= 128 {
      NoGroups(b[1..], 4 - n);
      GroupFits(m, w, r);
      ShortRest(b[1..], n + 1, r + m * w, 128 * w);
      Distribute(m, Groups(b[1..], 4 - n).value, w, r);
    }
  }

  // Up to five bytes, the overflow check is exact.
  lemma ShortIsExact(b: Bytes)
    requires Groups(b, 5).Parsed?
    ensures var p := Groups(b, 5);
            Decode32(b) == if p.value < TWO_32 then p else Malformed
  {
    SmallWeights();
    if b[0] >= 128 {
      ShortRest(b[1..], 1, b[0] - 128, 128);
    }
  }

  // ------------------------------------------------------------------ the overflow check

  // The byte that pb_decode_varint32 takes for sign extension in group n.
  function SignByte(n: nat): (c: byte) {
    if n < 9 then 0xFF else 0x01
  }

  // What it lets through after five bytes: in every later byte either no value bits, or, below
  // a set bit 31, the sign byte.
  predicate Tolerated(c: Bytes, n: nat, negative: bool)
    decreases c
  {
    && c != []
    && (c[0] % 128 == 0 || (negative && c[0] == SignByte(n)))
    && (c[0] >= 128 ==> Tolerated(c[1..], n + 1, negative))
  }

  // No value bits at all.
  predicate NoBits(c: Bytes)
    decreases c
  {
    c != [] && c[0] % 128 == 0 && (c[0] >= 128 ==> NoBits(c[1..]))
  }

  // A varint of more than five bytes.
  predicate IsLong(b: Bytes) {
    |b| > 5 && forall i | 0 <= i < 5 :: b[i] >= 128
  }

  // Bit 31, and bits 32 to 34, are in the fifth byte.
  predicate Bit31(b: Bytes)
    requires IsLong(b)
  {
    b[4] % 16 >= 8
  }

  function Bits32To34(b: Bytes): (v: nat)
    requires IsLong(b)
  {
    b[4] % 128 / 16
  }

  // The bits above 31 are all zero, or all ones up to bit 63 above a set bit 31.
  predicate Clean(b: Bytes)
    requires IsLong(b)
  {
    || (Bits32To34(b) == 0 && NoBits(b[5..]))
    || (Bits32To34(b) == 7 && Bit31(b) && |b| >= 10 && b[5..10] == [0xFF, 0xFF, 0xFF, 0xFF, 0x01])
  }

  // What decoding to 32 bits should make of a varint: a value below 2^32 as it is, the sign
  // extension of a negative int32 as its low half, and nothing else.
  function Intended(p: Parsed<nat>): (r: Parsed<nat>) {
    if p.Malformed? then Malformed
    else if p.value < TWO_32 then p
    else if TWO_64 - TWO_31 <= p.value < TWO_64 then Parsed(p.value - (TWO_64 - TWO_32), p.rest)
    else Malformed
  }

  function Group(c: byte): (g: nat)
    ensures g < 128
  {
    c % 128
  }

  // The first five groups of a long varint.
  function Low(b: Bytes): (v: nat)
    requires IsLong(b)
  {
    Group(b[0]) + 0x80 * Group(b[1]) + 0x4000 * Group(b[2]) + 0x20_0000 * Group(b[3]) + 0x1000_0000 * Group(b[4])
  }

  lemma LowFits(b: Bytes)
    requires IsLong(b)
    ensures Low(b) < 0x8_0000_0000
    ensures Low(b) / TWO_32 == Bits32To34(b) && (Low(b) % TWO_32 >= TWO_31 <==> Bit31(b))
  {
    var g := Group(b[4]);
    var low := Low(b) - 0x1000_0000 * g;
    assert low < 0x1000_0000;
    assert g == 16 * (g / 16) + g % 16;
    assert Low(b) == TWO_32 * (g / 16) + (0x1000_0000 * (g % 16) + low);
  }

  lemma Tails(b: Bytes)
    requires IsLong(b)
    ensures forall i: nat | i < 5 :: b[i..] == [b[i]] + b[i + 1..]
    ensures b[0..] == b
  {
  }

  // One group in front of p.
  function Fronted(c: byte, p: Parsed<nat>): (r: Parsed<nat>) {
    if p.Parsed? then Parsed(Group(c) + 128 * p.value, p.rest) else Malformed
  }

  lemma FrontGroup(c: byte, b: Bytes, groups: nat)
    requires groups > 0 && c >= 128
    ensures Groups([c] + b, groups) == Fronted(c, Groups(b, groups - 1))
  {
    GroupsCons(c, b, groups);
  }

  lemma FrontFive(c0: byte, c1: byte, c2: byte, c3: byte, c4: byte, p: Parsed<nat>)
    ensures Fronted(c0, Fronted(c1, Fronted(c2, Fronted(c3, Fronted(c4, p))))) ==
            if p.Parsed? then
              Parsed(Group(c0) + 0x80 * Group(c1) + 0x4000 * Group(c2) + 0x20_0000 * Group(c3) + 0x1000_0000 * Group(c4)
                     + 0x8_0000_0000 * p.value, p.rest)
            else Malformed
  {
    hide Group;
  }

  lemma FiveGroups(b: Bytes)
    requires IsLong(b)
    ensures var t := Groups(b[5..], 5);
            Groups(b, 10) == if t.Parsed? then Parsed(Low(b) + 0x8_0000_0000 * t.value, t.rest) else Malformed
  {
    hide Groups, Group, Fronted;
    Tails(b);
    FrontGroup(b[4], b[5..], 6);
    FrontGroup(b[3], b[4..], 7);
    FrontGroup(b[2], b[3..], 8);
    FrontGroup(b[1], b[2..], 9);
    FrontGroup(b[0], b[1..], 10);
    FrontFive(b[0], b[1], b[2], b[3], b[4], Groups(b[5..], 5));
  }

  lemma PartsFit(g0: nat, g1: nat, g2: nat, g3: nat)
    requires g0 < 128 && g1 < 128 && g2 < 128 && g3 < 128
    ensures g0 + 0x80 * g1 < 0x4000 && g0 + 0x80 * g1 + 0x4000 * g2 < 0x20_0000
    ensures g0 + 0x80 * g1 + 0x4000 * g2 + 0x20_0000 * g3 < 0x1000_0000
  {
  }

  lemma OneTurn(c: byte, b: Bytes, n: nat, result: nat, w: nat, r: nat)
    requires 1 <= n <= 4 && w == Weight(n) && result < w && c >= 128 && r == (result + w * Group(c)) % TWO_32
    ensures More32([c] + b, 7 * n, result) == More32(b, 7 * (n + 1), r)
  {
    hide More32, Weight;
    More32Cons(c, b, n, result);
    assert w * Group(c) == Group(c) * w;
  }

  lemma FiveTurns(b: Bytes)
    requires IsLong(b)
    ensures Decode32(b) == More32(b[5..], 35, Low(b) % TWO_32)
  {
    hide More32, Weight, Group;
    SmallWeights();
    Tails(b);
    PartsFit(Group(b[0]), Group(b[1]), Group(b[2]), Group(b[3]));
    var r2 := Group(b[0]) + 0x80 * Group(b[1]);
    var r3 := r2 + 0x4000 * Group(b[2]);
    var r4 := r3 + 0x20_0000 * Group(b[3]);
    FirstByte(b[0]);
    OneTurn(b[1], b[2..], 1, Group(b[0]), 0x80, r2);
    OneTurn(b[2], b[3..], 2, r2, 0x4000, r3);
    OneTurn(b[3], b[4..], 3, r3, 0x20_0000, r4);
    OneTurn(b[4], b[5..], 4, r4, 0x1000_0000, Low(b) % TWO_32);
  }

  lemma FirstByte(c: byte)
    ensures Group(c) < 128 && (c >= 128 ==> Group(c) == c - 128)
  {
  }

  lemma {:induction false} LaterTurns(c: Bytes, n: nat, low: nat)
    requires 5 <= n <= 9 && Groups(c, 10 - n).Parsed?
    ensures More32(c, 7 * n, low) ==
            if Tolerated(c, n, low >= TWO_31) then Parsed(low, Groups(c, 10 - n).rest) else Malformed
    decreases 10 - n
  {
    hide Groups, More32;
    NoGroups(c, 10 - n);
    More32Cons(c[0], c[1..], n, low);
    GroupsCons(c[0], c[1..], 10 - n);
    if c[0] >= 128 {
      NoGroups(c[1..], 9 - n);
      LaterTurns(c[1..], n + 1, low);
    }
  }

  lemma {:induction false} NoBitsIsZero(c: Bytes, groups: nat)
    requires Groups(c, groups).Parsed?
    ensures Groups(c, groups).value == 0 <==> NoBits(c)
    decreases groups
  {
    if c[0] >= 128 {
      NoBitsIsZero(c[1..], groups - 1);
    }
  }

  // A value of at least 128 has its low seven bits in the first byte and the rest behind it.
  lemma Peel(c: Bytes, groups: nat, v: nat)
    requires groups > 0 && v >= 128
    ensures (Groups(c, groups).Parsed? && Groups(c, groups).value == v) <==>
            (c != [] && c[0] == v % 128 + 128 && Groups(c[1..], groups - 1).Parsed? &&
             Groups(c[1..], groups - 1).value == v / 128)
  {
  }

  lemma SignBits(c: Bytes)
    requires Groups(c, 5).Parsed?
    ensures Groups(c, 5).value == 0x1FFF_FFFF <==> |c| >= 5 && c[..5] == [0xFF, 0xFF, 0xFF, 0xFF, 0x01]
  {
    hide Groups;
    Peel(c, 5, 0x1FFF_FFFF);
    if |c| >= 5 {
      var c1, c2, c3, c4 := c[1..], c[2..], c[3..], c[4..];
      assert c1[1..] == c2 && c2[1..] == c3 && c3[1..] == c4;
      Peel(c1, 4, 0x3F_FFFF);
      Peel(c2, 3, 0x7FFF);
      Peel(c3, 2, 0xFF);
      LastIsOne(c4);
      assert c[..5] == [c[0], c1[0], c2[0], c3[0], c4[0]];
    } else {
      TooShort(c);
    }
  }

  lemma TooShort(c: Bytes)
    requires |c| < 5
    ensures !(Groups(c, 5).Parsed? && Groups(c, 5).value == 0x1FFF_FFFF)
  {
    hide Groups;
    Peel(c, 5, 0x1FFF_FFFF);
    if |c| >= 2 {
      var c1 := c[1..];
      Peel(c1, 4, 0x3F_FFFF);
      if |c| >= 3 {
        var c2 := c1[1..];
        Peel(c2, 3, 0x7FFF);
        if |c| >= 4 {
          var c3 := c2[1..];
          Peel(c3, 2, 0xFF);
          GroupsNone(c3[1..], 1);
        } else {
          GroupsNone(c2[1..], 2);
        }
      } else {
        GroupsNone(c1[1..], 3);
      }
    } else if |c| == 1 {
      GroupsNone(c[1..], 4);
    }
  }

  lemma LastIsOne(c: Bytes)
    ensures (Groups(c, 1).Parsed? && Groups(c, 1).value == 1) <==> (c != [] && c[0] == 1)
  {
  }

  lemma {:induction false} NoBitsTolerated(c: Bytes, n: nat, negative: bool)
    requires NoBits(c)
    ensures Tolerated(c, n, negative)
    decreases c
  {
    if c[0] >= 128 {
      NoBitsTolerated(c[1..], n + 1, negative);
    }
  }

  lemma SignBytesTolerated(c: Bytes)
    requires |c| >= 5 && c[..5] == [0xFF, 0xFF, 0xFF, 0xFF, 0x01]
    ensures Tolerated(c, 5, true)
  {
    assert c[0] == c[..5][0] && c[1] == c[..5][1] && c[2] == c[..5][2] && c[3] == c[..5][3] && c[4] == c[..5][4];
    assert Tolerated(c[4..], 9, true);
    assert c[3..][1..] == c[4..] && Tolerated(c[3..], 8, true);
    assert c[2..][1..] == c[3..] && Tolerated(c[2..], 7, true);
    assert c[1..][1..] == c[2..] && Tolerated(c[1..], 6, true);
  }

  // The intended result, read off the bytes.
  lemma IntendedIffClean(b: Bytes)
    requires IsLong(b) && Groups(b, 10).Parsed?
    ensures Intended(Groups(b, 10)) == if Clean(b) then Parsed(Low(b) % TWO_32, Groups(b, 10).rest) else Malformed
    ensures Clean(b) ==> Tolerated(b[5..], 5, Bit31(b))
  {
    hide Groups, Low, NoBits, Tolerated;
    FiveGroups(b);
    LowFits(b);
    var t := Groups(b[5..], 5);
    NoBitsIsZero(b[5..], 5);
    SignBits(b[5..]);
    assert |b| < 10 || b[5..][..5] == b[5..10];
    var low, top := Low(b) % TWO_32, Bits32To34(b);
    assert Low(b) == TWO_32 * top + low;
    ValueIs(low, top, t.value);
    if NoBits(b[5..]) {
      NoBitsTolerated(b[5..], 5, Bit31(b));
    }
    if |b| >= 10 && b[5..10] == [0xFF, 0xFF, 0xFF, 0xFF, 0x01] {
      SignBytesTolerated(b[5..]);
    }
  }

  lemma ValueIs(low: nat, top: nat, t: nat)
    requires low < TWO_32 && top < 8
    ensures var v := TWO_32 * top + low + 0x8_0000_0000 * t;
            && (v < TWO_32 <==> top == 0 && t == 0)
            && (TWO_64 - TWO_31 <= v < TWO_64 <==> t == 0x1FFF_FFFF && top == 7 && low >= TWO_31)
            && (t == 0x1FFF_FFFF && top == 7 ==> v - (TWO_64 - TWO_32) == low)
  {
  }

  // When pb_decode_varint32 does what it should, on every varint of up to ten bytes: always up
  // to five bytes; of longer ones it accepts those whose later bytes it tolerates, and it is
  // right about a varint exactly when the bits above 31 are clean, or it does not tolerate it.
  lemma Decode32IsRightIff(b: Bytes)
    requires Groups(b, 10).Parsed?
    ensures Decode32(b) == Intended(Groups(b, 10)) <==>
            (IsLong(b) && Tolerated(b[5..], 5, Bit31(b)) ==> Clean(b))
  {
    hide Groups, More32, Tolerated, Low, Clean, Intended, Decode32;
    if IsLong(b) {
      FiveTurns(b);
      FiveGroups(b);
      LowFits(b);
      LaterTurns(b[5..], 5, Low(b) % TWO_32);
      IntendedIffClean(b);
    } else {
      ShortGroups(b);
      ShortIsIntended(b);
    }
  }

  // What it accepts of a long varint, it accepts for the right value exactly when that is clean.
  lemma AcceptedIsRightIff(b: Bytes)
    requires IsLong(b) && Groups(b, 10).Parsed?
    ensures Decode32(b).Parsed? <==> Tolerated(b[5..], 5, Bit31(b))
    ensures Decode32(b).Parsed? && Decode32(b) == Intended(Groups(b, 10)) <==> Clean(b)
  {
    hide Groups, More32, Tolerated, Low, Clean, Intended, Decode32;
    FiveTurns(b);
    FiveGroups(b);
    LowFits(b);
    LaterTurns(b[5..], 5, Low(b) % TWO_32);
    IntendedIffClean(b);
  }

  lemma {:induction false} FewGroups(b: Bytes, few: nat, many: nat)
    requires few <= many && Groups(b, many).Parsed?
    requires |b| < few || |b| == few || exists i | 0 <= i < few :: b[i] < 128
    ensures Groups(b, few) == Groups(b, many)
    decreases few
  {
    if few > 0 && b[0] >= 128 {
      assert forall i | 0 < i < |b| :: b[i] == b[1..][i - 1];
      FewGroups(b[1..], few - 1, many - 1);
    }
  }

  lemma ShortGroups(b: Bytes)
    requires Groups(b, 10).Parsed? && !IsLong(b)
    ensures Groups(b, 5) == Groups(b, 10)
  {
    FewGroups(b, 5, 10);
  }

  lemma ShortIsIntended(b: Bytes)
    requires Groups(b, 5).Parsed?
    ensures Decode32(b) == Intended(Groups(b, 5))
  {
    ShortIsExact(b);
    FiveGroupsFit(b, 5);
    Weights();
    hide Groups, Decode32;
  }

  lemma {:induction false} FiveGroupsFit(b: Bytes, n: nat)
    requires Groups(b, n).Parsed?
    ensures Groups(b, n).value < Weight(n)
    decreases n
  {
    if b[0] >= 128 {
      FiveGroupsFit(b[1..], n - 1);
    } else {
      assert Weight(n) == 128 * Weight(n - 1);
    }
  }

  // A length from 2^32 up, as an encoder would write it, is never taken for a shorter one.
  lemma LengthTooBig(v: nat, tail: Bytes)
    requires TWO_32 <= v < TWO_63
    ensures Decode32(Varint(v) + tail) == Malformed
  {
    var b := Varint(v) + tail;
    BelowTwo63();
    VarintDecodes(v, tail, 10);
    hide Groups, Decode32, Tolerated, Clean, Varint;
    if IsLong(b) {
      var u := FifthGroup(v, tail, b);
      NotTolerated(u, 5, tail, Bit31(b));
      AcceptedIsRightIff(b);
    } else {
      Decode32IsRightIff(b);
    }
  }

  lemma BelowTwo63()
    ensures Weight(9) == TWO_63 && Weight(10) == 128 * TWO_63 && Weight(4) == 0x1000_0000 && Weight(0) == 1
  {
    SmallWeights();
    assert Weight(6) == 128 * Weight(5);
    assert Weight(7) == 128 * Weight(6);
    assert Weight(8) == 128 * Weight(7);
    assert Weight(9) == 128 * Weight(8);
    assert Weight(10) == 128 * Weight(9);
  }

  // What is left of the value after five bytes.
  lemma FifthGroup(v: nat, tail: Bytes, b: Bytes) returns (u: nat)
    requires b == Varint(v) + tail && IsLong(b) && v < TWO_63
    ensures 0 < u < 0x1000_0000 && b[5..] == Varint(u) + tail
  {
    hide Varint;
    var v1, v2, v3, v4 := v / 128, v / 128 / 128, v / 128 / 128 / 128, v / 128 / 128 / 128 / 128;
    u := v4 / 128;
    OffTheFront(b, v, tail);
    OffTheFront(b[1..], v1, tail);
    assert b[1..][1..] == b[2..];
    OffTheFront(b[2..], v2, tail);
    assert b[2..][1..] == b[3..];
    OffTheFront(b[3..], v3, tail);
    assert b[3..][1..] == b[4..];
    OffTheFront(b[4..], v4, tail);
    assert b[4..][1..] == b[5..];
  }

  lemma OffTheFront(b: Bytes, v: nat, tail: Bytes)
    requires b == Varint(v) + tail && b != [] && b[0] >= 128
    ensures v >= 128 && b[1..] == Varint(v / 128) + tail
  {
    VarintCons(v, tail);
  }

  lemma {:induction false} NotTolerated(u: nat, n: nat, tail: Bytes, negative: bool)
    requires u > 0 && n <= 9 && u < Weight(9 - n)
    ensures !Tolerated(Varint(u) + tail, n, negative)
    decreases u
  {
    hide Varint;
    VarintCons(u, tail);
    if u >= 128 {
      assert Weight(9 - n) == 128 * Weight(8 - n);
      NotTolerated(u / 128, n + 1, tail, negative);
      assert ([u % 128 + 128] + (Varint(u / 128) + tail))[1..] == Varint(u / 128) + tail;
    }
  }

  // Two of the inputs it gets wrong: bits 32 to 34 are lost, and zero bytes and sign bytes are
  // mixed.
  lemma OverflowMayGoUnnoticed()
    ensures var b: Bytes := [0x80, 0x80, 0x80, 0x80, 0xF0, 0x00];
            Groups(b, 10) == Parsed(0x7_0000_0000, []) && Decode32(b) == Parsed(0, [])
  {
    hide More32, Groups, Weight;
    var b5: Bytes := [0x00] + [];
    var b4: Bytes := [0xF0] + b5;
    var b3: Bytes := [0x80] + b4;
    var b2: Bytes := [0x80] + b3;
    var b1: Bytes := [0x80] + b2;
    var b: Bytes := [0x80] + b1;
    assert b == [0x80, 0x80, 0x80, 0x80, 0xF0, 0x00] && b[1..] == b1;
    SmallWeights();
    More32Cons(0x00, [], 5, 0);
    More32Cons(0xF0, b5, 4, 0);
    More32Cons(0x80, b4, 3, 0);
    More32Cons(0x80, b3, 2, 0);
    More32Cons(0x80, b2, 1, 0);
    GroupsCons(0x00, [], 5);
    GroupsCons(0xF0, b5, 6);
    GroupsCons(0x80, b4, 7);
    GroupsCons(0x80, b3, 8);
    GroupsCons(0x80, b2, 9);
    GroupsCons(0x80, b1, 10);
  }

  lemma MixedSignBytes()
    ensures var b: Bytes := [0x80, 0x80, 0x80, 0x80, 0x88, 0xFF, 0x00];
            Groups(b, 10) == Parsed(TWO_31 + 127 * 0x8_0000_0000, []) && Decode32(b) == Parsed(TWO_31, [])
  {
    hide More32, Groups, Weight;
    var b6: Bytes := [0x00] + [];
    var b5: Bytes := [0xFF] + b6;
    var b: Bytes := [0x80, 0x80, 0x80, 0x80, 0x88, 0xFF, 0x00];
    assert b[5..] == b5 && IsLong(b);
    FiveTurns(b);
    FiveGroups(b);
    assert Low(b) == TWO_31;
    More32Cons(0xFF, b6, 5, TWO_31);
    More32Cons(0x00, [], 6, TWO_31);
    GroupsCons(0x00, [], 4);
    GroupsCons(0xFF, b6, 5);
  }

  // ------------------------------------------------------------------ zig-zag

  // pb_encode_svarint: shift left in 64 bits, complemented for negative values.
  function ZigZag(n: int): (z: nat)
    requires -TWO_63 <= n < TWO_63
  {
    if n < 0 then TWO_64 - 1 - (2 * (TWO_64 + n)) % TWO_64 else 2 * n
  }

  // pb_decode_svarint.
  function UnZigZag(z: nat): (n: int) {
    if z % 2 == 1 then -(z / 2) - 1 else z / 2
  }

  // The pair is the identity on all int64, and uses every uint64.
  lemma ZigZagRoundTrip(n: int)
    requires -TWO_63 <= n < TWO_63
    ensures ZigZag(n) < TWO_64 && UnZigZag(ZigZag(n)) == n
  {
    if n < 0 {
      assert (2 * (TWO_64 + n)) % TWO_64 == TWO_64 + 2 * n;
    }
  }

  lemma ZigZagOnto(z: nat)
    requires z < TWO_64
    ensures -TWO_63 <= UnZigZag(z) < TWO_63 && ZigZag(UnZigZag(z)) == z
  {
    var n := UnZigZag(z);
    if n < 0 {
      assert (2 * (TWO_64 + n)) % TWO_64 == TWO_64 + 2 * n;
    }
  }
}
