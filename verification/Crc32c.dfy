// CRC-32C and its storage mask: util/crc32c.{h,cc}.  Words are integers below 2^32; the
// shifts and xors of the source are written as arithmetic on them.
module Crc32c {
  import opened Coding

  type word = x: int | 0 <= x < 0x1_0000_0000

  const POLYNOMIAL: word := 0x82f6_3b78  // reflected
  const MASK_DELTA: word := 0xa282_ead8
  const BITS_PER_BYTE: nat := 8
  const BITS_PER_WORD: nat := 32

  // ------------------------------------------------------------------ xor

  function BitXor(a: nat, b: nat, bits: nat): (r: nat) {
    if bits == 0 then 0 else (a + b) % 2 + 2 * BitXor(a / 2, b / 2, bits - 1)
  }

  lemma {:induction false} BitXorFits(a: nat, b: nat, bits: nat)
    ensures BitXor(a, b, bits) < Pow2(bits)
  {
    if bits > 0 {
      BitXorFits(a / 2, b / 2, bits - 1);
    }
  }

  lemma {:induction false} Pow2Pow256(n: nat)
    ensures Pow2(BITS_PER_BYTE * n) == Pow256(n)
  {
    if n > 0 {
      var m := BITS_PER_BYTE * (n - 1);
      Pow2Pow256(n - 1);
      assert Pow2(m + 2) == 2 * Pow2(m + 1) == 4 * Pow2(m);
      assert Pow2(m + 4) == 2 * Pow2(m + 3) == 4 * Pow2(m + 2);
      assert Pow2(m + 6) == 2 * Pow2(m + 5) == 4 * Pow2(m + 4);
      assert Pow2(m + 8) == 2 * Pow2(m + 7) == 4 * Pow2(m + 6);
    }
  }

  function Xor(a: word, b: word): (r: word) {
    BitXorFits(a, b, BITS_PER_WORD);
    Pow2Pow256(4);
    PowersOf256();
    BitXor(a, b, BITS_PER_WORD)
  }

  // Xor with 0xffffffff: kCRC32Xor, at both ends of Extend.
  function Flip(l: word): (r: word) {
    0xffff_ffff - l
  }

  // ------------------------------------------------------------------ the checksum

  // The entry of kByteExtensionTable for the low byte of l, folded into l >> 8.
  function Shift(l: word, n: nat): (r: word)
    decreases n
  {
    if n == 0 then l else Shift(if l % 2 == 1 then Xor(l / 2, POLYNOMIAL) else l / 2, n - 1)
  }

  // One byte of input: STEP1 of Extend.
  function Step1(l: word, c: byte): (r: word) {
    Shift(Xor(l, c), BITS_PER_BYTE)
  }

  function Feed(l: word, data: seq<byte>): (r: word)
    decreases data
  {
    if data == [] then l else Feed(Step1(l, data[0]), data[1..])
  }

  // Carries a checksum on over more data.
  function Extend(crc: word, data: seq<byte>): (r: word) {
    Flip(Feed(Flip(crc), data))
  }

  function Checksum(data: seq<byte>): (r: word) {
    Extend(0, data)
  }

  lemma {:induction false} FeedConcat(l: word, a: seq<byte>, b: seq<byte>)
    ensures Feed(l, a + b) == Feed(Feed(l, a), b)
    decreases a
  {
    if a == [] {
      assert a + b == b;
    } else {
      assert (a + b)[0] == a[0] && (a + b)[1..] == a[1..] + b;
      FeedConcat(Step1(l, a[0]), a[1..], b);
    }
  }

  // What Extend promises: the writer may precompute the crc of the type byte and extend it
  // over the payload, and the reader may take the crc of both together.
  lemma ExtendConcat(a: seq<byte>, b: seq<byte>)
    ensures Extend(Checksum(a), b) == Checksum(a + b)
  {
    FeedConcat(Flip(0), a, b);
  }

  // ------------------------------------------------------------------ the stored form

  // The low 15 bits trade places with the others, and a constant is added.
  function Mask(crc: word): (m: word) {
    (crc / 0x8000 + crc % 0x8000 * 0x2_0000 + MASK_DELTA) % 0x1_0000_0000
  }

  function Unmask(m: word): (crc: word) {
    var rot := (m - MASK_DELTA) % 0x1_0000_0000;
    rot / 0x2_0000 + rot % 0x2_0000 * 0x8000
  }

  lemma UnmaskMask(crc: word)
    ensures Unmask(Mask(crc)) == crc
  {
    var hi, lo := crc / 0x8000, crc % 0x8000;
    var rot := hi + lo * 0x2_0000;
    assert (Mask(crc) - MASK_DELTA) % 0x1_0000_0000 == rot;
    assert rot / 0x2_0000 == lo && rot % 0x2_0000 == hi;
  }

  lemma MaskUnmask(m: word)
    ensures 0 <= Unmask(m) < 0x1_0000_0000 && Mask(Unmask(m)) == m
  {
    var rot := (m - MASK_DELTA) % 0x1_0000_0000;
    var hi, lo := rot % 0x2_0000, rot / 0x2_0000;
    assert Unmask(m) / 0x8000 == hi && Unmask(m) % 0x8000 == lo;
  }

  // EncodeFixed32(Mask(crc)).
  function Stored(crc: word): (b: seq<byte>)
    ensures |b| == 4
  {
    Fixed(4, Mask(crc))
  }

  // Unmask(DecodeFixed32(header)).
  function Loaded(b: seq<byte>): (crc: word)
    requires |b| == 4
  {
    PowersOf256();
    FixedInverse(b);
    Unmask(FromFixed(b))
  }

  lemma StoredRoundTrip(crc: word)
    ensures Loaded(Stored(crc)) == crc
  {
    PowersOf256();
    FixedRoundTrip(4, Mask(crc));
    UnmaskMask(crc);
  }

  lemma LoadedRoundTrip(b: seq<byte>)
    requires |b| == 4
    ensures Stored(Loaded(b)) == b
  {
    PowersOf256();
    FixedInverse(b);
    MaskUnmask(FromFixed(b));
  }
}
