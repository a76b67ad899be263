// The streams of nanopb over memory buffers: pb_write, pb_read, substreams and the varint
// loops of nanopb/pb_encode.c and nanopb/pb_decode.c.
module PbStreams {
  import opened Coding
  import opened PbVarint

  // ------------------------------------------------------------------ output

  // A sizing stream has no callback: it only counts.
  class OStream {
    const sizing: bool
    const maxSize: nat
    var out: Bytes
    var bytesWritten: nat

    constructor (sizing: bool, maxSize: nat)
      ensures this.sizing == sizing && this.maxSize == maxSize && out == [] && bytesWritten == 0
    {
      this.sizing, this.maxSize, out, bytesWritten := sizing, maxSize, [], 0;
    }

    // There is room for n more bytes.
    predicate Room(n: nat)
      reads this`bytesWritten
    {
      sizing || n == 0 || bytesWritten + n <= maxSize
    }

    ghost predicate Valid()
      reads this
    {
      sizing || (bytesWritten == |out| && bytesWritten <= maxSize)
    }

    // b has been written since the stream was as `before` says.
    twostate predicate Wrote(b: Bytes)
      reads this
    {
      bytesWritten == old(bytesWritten) + |b| && out == if sizing then old(out) else old(out) + b
    }

    method Write(b: Bytes) returns (ok: bool)
      requires Valid()
      modifies this
      ensures Valid() && ok == old(Room(|b|)) && (ok ==> Wrote(b))
    {
      if |b| > 0 && !sizing {
        if bytesWritten + |b| > maxSize {
          return false;
        }
        out := out + b;
      }
      assert |b| == 0 ==> out + b == out;
      bytesWritten := bytesWritten + |b|;
      ok := true;
    }

    // pb_write(stream, NULL, size) on a sizing stream.
    method Count(n: nat)
      requires Valid() && sizing
      modifies this
      ensures Valid() && bytesWritten == old(bytesWritten) + n && out == old(out)
    {
      bytesWritten := bytesWritten + n;
    }

    method EncodeVarint(value: nat) returns (ok: bool)
      requires Valid()
      modifies this
      ensures Valid() && ok == old(Room(|Varint(value)|)) && (ok ==> Wrote(Varint(value)))
    {
      OneByte(value);
      if value <= 0x7F {
        ok := Write([value]);
        return;
      }
      hide Varint;
      var buffer: Bytes, v: nat := [], value;
      assert [] + Continued(value) == Continued(value);
      while v > 0
        invariant buffer + Continued(v) == Continued(value)
        modifies {}
        decreases v
      {
        ContinuedStep(buffer, v);
        buffer, v := buffer + [v % 128 + 128], v / 128;
      }
      assert buffer + [] == buffer;
      LastUnset(value);
      buffer := buffer[|buffer| - 1 := buffer[|buffer| - 1] - 128];
      ok := Write(buffer);
    }
  }

  // The groups of a value, each with its top bit set.
  function Continued(v: nat): (b: Bytes) {
    if v == 0 then [] else [v % 128 + 128] + Continued(v / 128)
  }

  lemma OneByte(v: nat)
    ensures v < 128 ==> Varint(v) == [v]
  {
  }

  lemma ContinuedStep(buffer: Bytes, v: nat)
    requires v > 0
    ensures buffer + Continued(v) == (buffer + [v % 128 + 128]) + Continued(v / 128)
  {
  }

  lemma {:induction false} LastUnset(v: nat)
    requires v > 0
    ensures |Continued(v)| > 0 && Continued(v)[|Continued(v)| - 1] >= 128
    ensures Continued(v)[|Continued(v)| - 1 := Continued(v)[|Continued(v)| - 1] - 128] == Varint(v)
  {
    if v >= 128 {
      LastUnset(v / 128);
      var m := Continued(v / 128);
      assert Continued(v) == [v % 128 + 128] + m;
    } else {
      assert Continued(v) == [v + 128] + [];
    }
  }

  // ------------------------------------------------------------------ input

  // A buffer stream: what is left of it.
  class IStream {
    var rest: Bytes

    constructor (buf: Bytes)
      ensures rest == buf
    {
      rest := buf;
    }

    method ReadByte() returns (ok: bool, b: byte)
      modifies this
      ensures ok <==> old(rest) != []
      ensures ok ==> b == old(rest)[0] && rest == old(rest)[1..]
      ensures !ok ==> rest == []
    {
      if |rest| == 0 {
        return false, 0;
      }
      b, rest := rest[0], rest[1..];
      ok := true;
    }

    method Read(count: nat) returns (ok: bool, b: Bytes)
      modifies this
      ensures ok <==> count <= |old(rest)|
      ensures ok ==> b == old(rest)[..count] && rest == old(rest)[count..]
    {
      if |rest| < count {
        return false, [];
      }
      b, rest := rest[..count], rest[count..];
      ok := true;
    }

    // pb_decode_varint: at most ten bytes.
    method DecodeVarint() returns (p: Parsed<nat>)
      modifies this
      ensures p == GetVarint64(old(rest)) && (p.Parsed? ==> rest == p.rest)
    {
      hide Groups, ShiftLeft;
      var result: nat, n := 0, 0;
      ghost var b: Bytes, sum: nat := rest, 0;
      GroupsNone(b, 10);
      while true
        invariant n <= 10 && n <= |b| && rest == b[n..]
        invariant result == sum % (MAX_UINT64 + 1) && Pending(b, 10, n, sum)
        decreases 10 - n
      {
        if n >= 10 {
          GroupsNone(b[n..], 0);
          return Malformed;
        }
        var ok, c := ReadByte();
        if !ok {
          GroupsNone([], 10 - n);
          return Malformed;
        }
        PendingStep(b, 10, n, sum);
        var bits: nat := if c >= 128 then c - 128 else c;
        var group: nat := ShiftLeft(bits, n);
        sum := sum + group;
        result := (result + group) % (MAX_UINT64 + 1);
        if c < 128 {
          return Parsed(result, rest);
        }
        n := n + 1;
      }
    }

    // pb_decode_varint32.
    method DecodeVarint32() returns (p: Parsed<nat>)
      modifies this
      ensures p == Decode32(old(rest)) && (p.Parsed? ==> rest == p.rest)
    {
      hide OrBits, Pow2;
      var ok, c := ReadByte();
      if !ok {
        return Malformed;
      }
      if c < 128 {
        return Parsed(c, rest);
      }
      var result: nat, bitpos: nat := c - 128, 7;
      while true
        invariant More32(rest, bitpos, result) == Decode32(old(rest))
        decreases rest
      {
        ok, c := ReadByte();
        if !ok {
          return Malformed;
        }
        var group := c % 128;
        if bitpos >= 32 {
          var signExtension := if bitpos < 63 then 0xFF else 0x01;
          if group != 0 && (result < TWO_31 || c != signExtension) {
            return Malformed;
          }
        } else {
          result := OrBits(result, group * Pow2(bitpos), 32);
        }
        bitpos := (bitpos + 7) % 256;
        if c < 128 {
          if bitpos == 35 && group >= 16 {
            return Malformed;
          }
          return Parsed(result, rest);
        }
      }
    }
  }
}
