/** Base 128 varints of the Protocol Buffers encoding: seven bits a byte, least
    significant group first, the top bit set on every byte but the last. */
module Varint {

  type byte = b: int | 0 <= b < 0x100

  const TWO32: nat := 0x1_0000_0000
  const TWO64: nat := 0x1_0000_0000_0000_0000

  /** The result of reading something off the front of a byte string. */
  datatype Read<+T> = Bad | Got(value: T, rest: seq<byte>)

  function Encode(n: nat): (s: seq<byte>)
    ensures |s| >= 1
  {
    if n < 128 then [n] else [128 + n % 128] + Encode(n / 128)
  }

  function VarintSize(n: nat): (k: nat)
    ensures k == |Encode(n)|
  {
    if n < 128 then 1 else 1 + VarintSize(n / 128)
  }

  /** Reads one varint of at most `limit` bytes; the value is not yet truncated to a width. */
  function ReadVarint(s: seq<byte>, limit: nat): (r: Read<nat>)
    ensures r.Got? ==> |r.rest| < |s|
    decreases limit, s
  {
    if limit == 0 || s == [] then Bad
    else if s[0] < 128 then Got(s[0], s[1..])
    else
      match ReadVarint(s[1..], limit - 1)
      case Bad => Bad
      case Got(high, rest) => Got(s[0] - 128 + 128 * high, rest)
  }

  /** 128 to the power `k`: one more than the largest value of `k` varint bytes. */
  function Capacity(k: nat): nat {
    if k == 0 then 1 else 128 * Capacity(k - 1)
  }

  lemma CapacityOf5And10()
    ensures Capacity(5) == 0x8_0000_0000
    ensures Capacity(10) >= TWO64
  {
    assert Capacity(3) == 128 * (128 * 128);
    assert Capacity(5) == 128 * (128 * Capacity(3));
    assert Capacity(7) == 128 * (128 * Capacity(5));
    assert Capacity(10) == 128 * (128 * (128 * Capacity(7)));
  }

  lemma ReadCons(b: byte, rest: seq<byte>, limit: nat)
    requires limit >= 1
    ensures ReadVarint([b] + rest, limit) ==
            if b < 128 then Got(b, rest)
            else
              match ReadVarint(rest, limit - 1)
              case Bad => Bad
              case Got(high, after) => Got(b - 128 + 128 * high, after)
  {
    assert ([b] + rest)[1..] == rest;
  }

  lemma EncodeFollowed(n: nat, t: seq<byte>)
    ensures Encode(n) + t == if n < 128 then [n] + t else [128 + n % 128] + (Encode(n / 128) + t)
  {
  }

  /** Reading undoes writing, whatever follows on the wire. */
  lemma {:induction false} ReadEncode(n: nat, limit: nat, t: seq<byte>)
    requires 1 <= limit && n < Capacity(limit)
    ensures ReadVarint(Encode(n) + t, limit) == Got(n, t)
  {
    EncodeFollowed(n, t);
    if n < 128 {
      ReadCons(n, t, limit);
    } else {
      assert limit != 1 by { assert Capacity(1) == 128; }
      ReadEncode(n / 128, limit - 1, t);
      ReadCons(128 + n % 128, Encode(n / 128) + t, limit);
    }
  }

  /** A varint that can be read is read the same way when more bytes follow it. */
  lemma {:induction false} ReadVarintExtends(s: seq<byte>, t: seq<byte>, limit: nat)
    requires ReadVarint(s, limit).Got?
    ensures ReadVarint(s + t, limit) ==
            Got(ReadVarint(s, limit).value, ReadVarint(s, limit).rest + t)
    decreases limit
  {
    if s[0] < 128 {
      assert (s + t)[1..] == s[1..] + t;
    } else {
      ReadVarintExtends(s[1..], t, limit - 1);
      assert (s + t)[1..] == s[1..] + t;
    }
  }

  /** One that could not be read among all the bytes allowed to it cannot be read with more bytes either. */
  lemma {:induction false} OverlongStaysBad(s: seq<byte>, t: seq<byte>, limit: nat)
    requires ReadVarint(s, limit).Bad? && |s| >= limit
    ensures ReadVarint(s + t, limit).Bad?
    decreases limit
  {
    if limit > 0 {
      assert (s + t)[1..] == s[1..] + t;
      OverlongStaysBad(s[1..], t, limit - 1);
    }
  }

  /** A varint whose allowed bytes all announce another one is refused. */
  lemma {:induction false} ContinuedTooLong(s: seq<byte>, limit: nat)
    requires limit <= |s| && forall k :: 0 <= k < limit ==> s[k] >= 128
    ensures ReadVarint(s, limit).Bad?
    decreases limit
  {
    if limit > 0 { ContinuedTooLong(s[1..], limit - 1); }
  }

  lemma {:induction false} EncodeTooLong(n: nat, limit: nat, t: seq<byte>)
    requires n >= Capacity(limit)
    ensures ReadVarint(Encode(n) + t, limit).Bad?
    decreases limit
  {
    if limit > 0 {
      EncodeFollowed(n, t);
      if n >= 128 {
        ReadCons(128 + n % 128, Encode(n / 128) + t, limit);
        EncodeTooLong(n / 128, limit - 1, t);
      } else {
        CapacityGrows(limit);
      }
    }
  }

  /** The encoding guide's examples. */
  lemma GuideExamples()
    ensures Encode(1) == [0x01] && Encode(150) == [0x96, 0x01] && Encode(300) == [0xAC, 0x02]
  {
  }

  /** `Encode` is the shortest of all the encodings of a value that the reader accepts. */
  lemma {:induction false} EncodeIsShortest(s: seq<byte>, limit: nat)
    requires ReadVarint(s, limit).Got?
    ensures |Encode(ReadVarint(s, limit).value)| + |ReadVarint(s, limit).rest| <= |s|
    decreases limit
  {
    if s[0] >= 128 {
      EncodeIsShortest(s[1..], limit - 1);
    }
  }

  /** Exactly the values below 128^k fit `k` bytes. */
  lemma {:induction false} EncodeLength(n: nat, k: nat)
    requires k >= 1
    ensures |Encode(n)| <= k <==> n < Capacity(k)
  {
    if k == 1 {
      assert Capacity(1) == 128;
    } else if n >= 128 {
      EncodeLength(n / 128, k - 1);
    } else {
      CapacityGrows(k);
    }
  }

  lemma {:induction false} CapacityGrows(k: nat)
    requires k >= 1
    ensures Capacity(k) >= 128
  {
    if k > 1 { CapacityGrows(k - 1); }
  }

  /** Two encodings of which one starts the other are the same encoding. */
  lemma EncodePrefixFree(m: nat, n: nat, s: seq<byte>, t: seq<byte>)
    requires Encode(m) + s == Encode(n) + t
    ensures m == n && s == t
  {
    var k := |Encode(m)| + |Encode(n)|;
    EncodeLength(m, k);
    EncodeLength(n, k);
    ReadEncode(m, k, s);
    ReadEncode(n, k, t);
  }

  // Two's complement, as C++ converts between the widths.

  type uint32 = n: nat | n < 0x1_0000_0000
  type int32 = n: int | -0x8000_0000 <= n < 0x8000_0000

  /** Converting an unsigned 64-bit value to a signed 32-bit field keeps the low 32 bits. */
  function ToInt32(u: nat): (n: int32)
    ensures (u - n) % TWO32 == 0
  {
    var low := u % TWO32;
    if low < 0x8000_0000 then low else low - TWO32
  }

  /** A signed 32-bit field is sign-extended to 64 bits before it is written. */
  function SignExtend(n: int32): (u: nat)
    ensures u < TWO64
  {
    if n >= 0 then n else TWO64 + n
  }

  lemma SignExtendRoundTrip(n: int32)
    ensures ToInt32(SignExtend(n)) == n
  {
    if n < 0 {
      var u := TWO64 + n;
      assert u == TWO32 * 0xFFFF_FFFF + (TWO32 + n);
      assert u % TWO32 == TWO32 + n;
    }
  }

  /** A negative int32 takes ten bytes on the wire, any other at most five. */
  lemma Int32Length(n: int32)
    ensures n < 0 ==> |Encode(SignExtend(n))| == 10
    ensures n >= 0 ==> |Encode(SignExtend(n))| <= 5
  {
    CapacityOf5And10();
    EncodeLength(SignExtend(n), 5);
    EncodeLength(SignExtend(n), 10);
    EncodeLength(SignExtend(n), 9);
    assert Capacity(9) == 128 * (128 * (128 * (128 * Capacity(5))));
  }
}
