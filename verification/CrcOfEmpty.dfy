// One checksum in full: that of the type byte of an unfragmented record with no payload, the
// shortest thing a log can hold.  The xors of the eight shifts are done digit by digit.
module CrcOfEmpty {
  import opened Coding
  import opened Crc32c

  lemma Bit(a: nat, b: nat, x: nat, y: nat, bits: nat)
    requires x < 2 && y < 2
    ensures BitXor(x + 2 * a, y + 2 * b, bits + 1) == (x + y) % 2 + 2 * BitXor(a, b, bits)
  {
    Unfolded(x + 2 * a, y + 2 * b, bits);
    hide BitXor;
    assert (x + 2 * a) / 2 == a && (y + 2 * b) / 2 == b;
    assert (x + 2 * a + (y + 2 * b)) % 2 == (x + y) % 2 by { assert x + 2 * a + (y + 2 * b) == x + y + 2 * (a + b); }
  }

  lemma Unfolded(a: nat, b: nat, bits: nat)
    ensures BitXor(a, b, bits + 1) == (a + b) % 2 + 2 * BitXor(a / 2, b / 2, bits)
  {
  }

  lemma Digit(a: nat, b: nat, x: nat, y: nat, bits: nat)
    requires x < 16 && y < 16
    ensures BitXor(x + 16 * a, y + 16 * b, bits + 4) == BitXor(x, y, 4) + 16 * BitXor(a, b, bits)
  {
    var x3, x2, x1, x0 := Split(x);
    var y3, y2, y1, y0 := Split(y);
    hide BitXor;
    Four(a, b, x3, x2, x1, x0, y3, y2, y1, y0, bits);
    Four(0, 0, x3, x2, x1, x0, y3, y2, y1, y0, 0);
    Zero();
  }

  lemma Four(a: nat, b: nat, x3: nat, x2: nat, x1: nat, x0: nat, y3: nat, y2: nat, y1: nat, y0: nat, bits: nat)
    requires x3 < 2 && x2 < 2 && x1 < 2 && x0 < 2 && y3 < 2 && y2 < 2 && y1 < 2 && y0 < 2
    ensures BitXor(x0 + 2 * x1 + 4 * x2 + 8 * x3 + 16 * a, y0 + 2 * y1 + 4 * y2 + 8 * y3 + 16 * b, bits + 4) ==
            (x0 + y0) % 2 + 2 * ((x1 + y1) % 2) + 4 * ((x2 + y2) % 2) + 8 * ((x3 + y3) % 2)
            + 16 * BitXor(a, b, bits)
  {
    hide BitXor;
    Bit(a, b, x3, y3, bits);
    Bit(x3 + 2 * a, y3 + 2 * b, x2, y2, bits + 1);
    Bit(x2 + 2 * x3 + 4 * a, y2 + 2 * y3 + 4 * b, x1, y1, bits + 2);
    Bit(x1 + 2 * x2 + 4 * x3 + 8 * a, y1 + 2 * y2 + 4 * y3 + 8 * b, x0, y0, bits + 3);
  }

  lemma Split(x: nat) returns (x3: nat, x2: nat, x1: nat, x0: nat)
    requires x < 16
    ensures x == x0 + 2 * x1 + 4 * x2 + 8 * x3 && x3 < 2 && x2 < 2 && x1 < 2 && x0 < 2
  {
    x3, x2, x1, x0 := x / 8, x / 4 % 2, x / 2 % 2, x % 2;
  }

  lemma Zero()
    ensures BitXor(0, 0, 0) == 0
  {
  }

  function Hex(d: nat, more: nat): (n: nat) {
    d + 16 * more
  }

  lemma Next(x: nat, y: nat, z: nat, a: nat, b: nat, c: nat, bits: nat)
    requires x < 16 && y < 16 && BitXor(x, y, 4) == z && BitXor(a, b, bits) == c
    ensures BitXor(Hex(x, a), Hex(y, b), bits + 4) == Hex(z, c)
  {
    hide BitXor;
    Digit(a, b, x, y, bits);
  }

  function Word(d7: nat, d6: nat, d5: nat, d4: nat, d3: nat, d2: nat, d1: nat, d0: nat): (n: nat) {
    Hex(d0, Hex(d1, Hex(d2, Hex(d3, Hex(d4, Hex(d5, Hex(d6, Hex(d7, 0))))))))
  }

  lemma Words(a7: nat, a6: nat, a5: nat, a4: nat, a3: nat, a2: nat, a1: nat, a0: nat,
              b7: nat, b6: nat, b5: nat, b4: nat, b3: nat, b2: nat, b1: nat, b0: nat,
              c7: nat, c6: nat, c5: nat, c4: nat, c3: nat, c2: nat, c1: nat, c0: nat)
    requires a7 < 16 && a6 < 16 && a5 < 16 && a4 < 16 && a3 < 16 && a2 < 16 && a1 < 16 && a0 < 16
    requires b7 < 16 && b6 < 16 && b5 < 16 && b4 < 16 && b3 < 16 && b2 < 16 && b1 < 16 && b0 < 16
    requires BitXor(a7, b7, 4) == c7 && BitXor(a6, b6, 4) == c6 && BitXor(a5, b5, 4) == c5 && BitXor(a4, b4, 4) == c4
    requires BitXor(a3, b3, 4) == c3 && BitXor(a2, b2, 4) == c2 && BitXor(a1, b1, 4) == c1 && BitXor(a0, b0, 4) == c0
    ensures BitXor(Word(a7, a6, a5, a4, a3, a2, a1, a0), Word(b7, b6, b5, b4, b3, b2, b1, b0), 32) ==
            Word(c7, c6, c5, c4, c3, c2, c1, c0)
  {
    Zero();
    hide BitXor, Hex;
    var a, b, c := Hex(a7, 0), Hex(b7, 0), Hex(c7, 0);
    Next(a7, b7, c7, 0, 0, 0, 0);
    Next(a6, b6, c6, a, b, c, 4);
    a, b, c := Hex(a6, a), Hex(b6, b), Hex(c6, c);
    Next(a5, b5, c5, a, b, c, 8);
    a, b, c := Hex(a5, a), Hex(b5, b), Hex(c5, c);
    Next(a4, b4, c4, a, b, c, 12);
    a, b, c := Hex(a4, a), Hex(b4, b), Hex(c4, c);
    Next(a3, b3, c3, a, b, c, 16);
    a, b, c := Hex(a3, a), Hex(b3, b), Hex(c3, c);
    Next(a2, b2, c2, a, b, c, 20);
    a, b, c := Hex(a2, a), Hex(b2, b), Hex(c2, c);
    Next(a1, b1, c1, a, b, c, 24);
    a, b, c := Hex(a1, a), Hex(b1, b), Hex(c1, c);
    Next(a0, b0, c0, a, b, c, 28);
  }

  lemma Table()
    ensures BitXor(2, 7, 4) == 5 && BitXor(2, 8, 4) == 10 && BitXor(2, 11, 4) == 9 && BitXor(2, 15, 4) == 13
    ensures BitXor(3, 8, 4) == 11 && BitXor(3, 15, 4) == 12 && BitXor(4, 6, 4) == 2 && BitXor(4, 7, 4) == 3
    ensures BitXor(4, 11, 4) == 15 && BitXor(5, 8, 4) == 13 && BitXor(6, 2, 4) == 4 && BitXor(6, 3, 4) == 5
    ensures BitXor(6, 8, 4) == 14 && BitXor(6, 15, 4) == 9 && BitXor(7, 6, 4) == 1 && BitXor(7, 8, 4) == 15
    ensures BitXor(8, 15, 4) == 7 && BitXor(9, 6, 4) == 15 && BitXor(9, 7, 4) == 14 && BitXor(10, 3, 4) == 9
    ensures BitXor(11, 11, 4) == 0 && BitXor(12, 11, 4) == 7 && BitXor(13, 2, 4) == 15 && BitXor(13, 8, 4) == 5
    ensures BitXor(14, 2, 4) == 12 && BitXor(14, 3, 4) == 13 && BitXor(15, 0, 4) == 15 && BitXor(15, 1, 4) == 14
    ensures BitXor(15, 2, 4) == 13 && BitXor(15, 3, 4) == 12 && BitXor(15, 6, 4) == 9 && BitXor(15, 7, 4) == 8
    ensures BitXor(15, 8, 4) == 7 && BitXor(15, 11, 4) == 4 && BitXor(15, 15, 4) == 0
  {
  }

  lemma Xors()
    ensures Xor(0xffffffff, 1) == 0xfffffffe
    ensures Xor(0x3fffffff, POLYNOMIAL) == 0xbd09c487
    ensures Xor(0x5e84e243, POLYNOMIAL) == 0xdc72d93b
    ensures Xor(0x6e396c9d, POLYNOMIAL) == 0xeccf57e5
    ensures Xor(0x7667abf2, POLYNOMIAL) == 0xf491908a
    ensures Xor(0x3d246422, POLYNOMIAL) == 0xbfd25f5a
  {
    Table();
    hide BitXor;
    Words(15, 15, 15, 15, 15, 15, 15, 15,
          0, 0, 0, 0, 0, 0, 0, 1,
          15, 15, 15, 15, 15, 15, 15, 14);
    Words(3, 15, 15, 15, 15, 15, 15, 15,
          8, 2, 15, 6, 3, 11, 7, 8,
          11, 13, 0, 9, 12, 4, 8, 7);
    Words(5, 14, 8, 4, 14, 2, 4, 3,
          8, 2, 15, 6, 3, 11, 7, 8,
          13, 12, 7, 2, 13, 9, 3, 11);
    Words(6, 14, 3, 9, 6, 12, 9, 13,
          8, 2, 15, 6, 3, 11, 7, 8,
          14, 12, 12, 15, 5, 7, 14, 5);
    Words(7, 6, 6, 7, 10, 11, 15, 2,
          8, 2, 15, 6, 3, 11, 7, 8,
          15, 4, 9, 1, 9, 0, 8, 10);
    Words(3, 13, 2, 4, 6, 4, 2, 2,
          8, 2, 15, 6, 3, 11, 7, 8,
          11, 15, 13, 2, 5, 15, 5, 10);
  }

  // A header for an empty record begins with these bytes.
  lemma EmptyChecksum()
    ensures Stored(Checksum([1])) == [0x05, 0x2b, 0x28, 0x43]
  {
    Xors();
    hide Xor, Shift;
    Once(0xfffffffe, 8, 0x7fffffff);
    Once(0x7fffffff, 7, 0xbd09c487);
    Once(0xbd09c487, 6, 0xdc72d93b);
    Once(0xdc72d93b, 5, 0xeccf57e5);
    Once(0xeccf57e5, 4, 0xf491908a);
    Once(0xf491908a, 3, 0x7a48c845);
    Once(0x7a48c845, 2, 0xbfd25f5a);
    Once(0xbfd25f5a, 1, 0x5fe92fad);
    Last(0x5fe92fad);
    assert [1][1..] == [];
    assert Feed(Step1(0xffff_ffff, 1), []) == Step1(0xffff_ffff, 1);
    assert Feed(0xffff_ffff, [1]) == 0x5fe92fad;
    InStorage();
  }

  lemma Once(l: word, n: nat, next: word)
    requires n > 0 && next == if l % 2 == 1 then Xor(l / 2, POLYNOMIAL) else l / 2
    ensures Shift(l, n) == Shift(next, n - 1)
  {
    hide Xor;
  }

  lemma Last(l: word)
    ensures Shift(l, 0) == l
  {
  }

  lemma InStorage()
    ensures Stored(Flip(0x5fe9_2fad)) == [0x05, 0x2b, 0x28, 0x43]
  {
    assert Mask(0xa016_d052) == 0x4328_2b05;
    assert Fixed(4, 0x4328_2b05) == [0x05] + Fixed(3, 0x43_282b);
    assert Fixed(3, 0x43_282b) == [0x2b] + Fixed(2, 0x4328);
    assert Fixed(2, 0x4328) == [0x28] + Fixed(1, 0x43);
    assert Fixed(1, 0x43) == [0x43] + Fixed(0, 0);
  }
}
