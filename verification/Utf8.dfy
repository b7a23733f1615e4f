/** UTF-8 (RFC 3629) of one character, enough to measure text and to percent-encode it. */
module Utf8 {

  type byte = b: nat | b < 256

  function EncodeUtf8(c: char): (r: seq<byte>)
    ensures 1 <= |r| <= 4
  {
    var n := c as int;
    if n < 0x80 then [n]
    else if n < 0x800 then [0xC0 + n / 0x40, 0x80 + n % 0x40]
    else if n < 0x1_0000 then [0xE0 + n / 0x1000, 0x80 + n / 0x40 % 0x40, 0x80 + n % 0x40]
    else [0xF0 + n / 0x4_0000, 0x80 + n / 0x1000 % 0x40, 0x80 + n / 0x40 % 0x40, 0x80 + n % 0x40]
  }

  function ByteLength(s: string): nat {
    if s == "" then 0 else |EncodeUtf8(s[0])| + ByteLength(s[1..])
  }

  /** The first byte tells how long the encoding is. */
  lemma FirstByteGivesLength(c: char, d: char)
    requires EncodeUtf8(c)[0] == EncodeUtf8(d)[0]
    ensures |EncodeUtf8(c)| == |EncodeUtf8(d)|
  {
  }

  lemma Utf8IsInjective(c: char, d: char)
    requires EncodeUtf8(c) == EncodeUtf8(d)
    ensures c == d
  {
    var u, v := EncodeUtf8(c), EncodeUtf8(d);
    var n, m := c as int, d as int;
    assert u[0] == v[0];
    if n >= 0x1_0000 {
      assert u[1] == v[1] && u[2] == v[2] && u[3] == v[3];
      assert n / 0x40 == m / 0x40 by {
        assert n / 0x1000 == m / 0x1000 by {
          assert n / 0x1000 / 0x40 == n / 0x4_0000 && m / 0x1000 / 0x40 == m / 0x4_0000;
        }
        assert n / 0x40 / 0x40 == n / 0x1000 && m / 0x40 / 0x40 == m / 0x1000;
      }
    } else if n >= 0x800 {
      assert u[1] == v[1] && u[2] == v[2];
      assert n / 0x40 / 0x40 == n / 0x1000 && m / 0x40 / 0x40 == m / 0x1000;
    } else if n >= 0x80 {
      assert u[1] == v[1];
    }
  }

  function Part(b: byte, base: nat): int {
    b as int - base
  }

  /**
   The encoding in full (section 3 of RFC 3629): as few bytes as do, the first telling how many, the others from 0x80
   to 0xBF, and the bits put together again give the character.
   */
  lemma EncodesInFull(c: char)
    ensures var r, n := EncodeUtf8(c), c as int;
      && |r| == (if n < 128 then 1 else if n < 2048 then 2 else if n < 65536 then 3 else 4)
      && (forall i :: 1 <= i < |r| ==> 128 <= r[i] <= 191)
      && match |r|
         case 1 => r[0] == n
         case 2 => 194 <= r[0] <= 223 && Part(r[0], 192) * 64 + Part(r[1], 128) == n
         case 3 => 224 <= r[0] <= 239 && (Part(r[0], 224) * 64 + Part(r[1], 128)) * 64 + Part(r[2], 128) == n
         case _ =>
           && 240 <= r[0] <= 244
           && ((Part(r[0], 240) * 64 + Part(r[1], 128)) * 64 + Part(r[2], 128)) * 64 + Part(r[3], 128) == n
  {
    var n := c as int;
    assert n / 0x1000 == n / 0x40 / 0x40;
    assert n / 0x4_0000 == n / 0x1000 / 0x40;
  }

  /** The length of a text in bytes is that of its characters together. */
  lemma {:induction false} ByteLengthAddsUp(a: string, b: string)
    ensures ByteLength(a + b) == ByteLength(a) + ByteLength(b)
    decreases |a|
  {
    if a == "" {
      assert a + b == b;
    } else {
      ByteLengthAddsUp(a[1..], b);
      assert (a + b)[1..] == a[1..] + b;
    }
  }

  lemma ByteLengthOfOne(c: char)
    ensures ByteLength([c])
         == if c as int < 128 then 1 else if c as int < 2048 then 2 else if c as int < 65536 then 3 else 4
  {
    assert [c][1..] == "";
  }
}
