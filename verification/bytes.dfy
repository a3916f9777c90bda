/**
 Bytes as they travel on the serial line of the Plantower-style sensors, the
 16-bit arithmetic sum their frames are protected by, and the big-endian
 16-bit words their fields are written in.
 */
module Bytes {

  /** One octet on the wire. */
  type byte = b: int | 0 <= b < 256

  /** The checksums are kept in a `uint16_t`, so they wrap modulo 2^16. */
  const WordModulus: int := 65536

  /** The two-byte start marker every frame and command begins with. */
  const Start1: byte := 0x42
  const Start2: byte := 0x4D

  /** The plain arithmetic sum of the bytes (no wrap-around). */
  function Sum(s: seq<byte>): nat
  {
    if |s| == 0 then 0 else Sum(s[..|s| - 1]) + s[|s| - 1]
  }

  lemma {:induction false} SumAppend(a: seq<byte>, b: seq<byte>)
    ensures Sum(a + b) == Sum(a) + Sum(b)
    decreases |b|
  {
    if |b| == 0 {
      assert a + b == a;
    } else {
      assert (a + b)[..|a + b| - 1] == a + b[..|b| - 1];
      SumAppend(a, b[..|b| - 1]);
    }
  }

  lemma SumSnoc(a: seq<byte>, x: byte)
    ensures Sum(a + [x]) == Sum(a) + x
  {
    assert (a + [x])[..|a|] == a;
  }

  /** Replacing one byte moves the sum by exactly the difference of the two values. */
  lemma {:induction false} SumUpdate(s: seq<byte>, i: nat, v: byte)
    requires i < |s|
    ensures Sum(s[i := v]) == Sum(s) - s[i] + v
    decreases |s|
  {
    var t := s[i := v];
    if i == |s| - 1 {
      assert t[..|t| - 1] == s[..|s| - 1];
    } else {
      assert t[..|t| - 1] == s[..|s| - 1][i := v];
      SumUpdate(s[..|s| - 1], i, v);
    }
  }

  /** A big-endian 16-bit word, `hi * 256 + lo`, never sign-extended. */
  function Word(hi: byte, lo: byte): (v: nat)
    ensures v < WordModulus
  {
    hi * 256 + lo
  }

  /** The two bytes of a word, high byte first. */
  function Be16(v: nat): (b: seq<byte>)
    requires v < WordModulus
    ensures |b| == 2 && Word(b[0], b[1]) == v
  {
    [v / 256, v % 256]
  }

  /** A word determines its two bytes. */
  lemma WordSplit(hi: byte, lo: byte)
    ensures Be16(Word(hi, lo)) == [hi, lo]
  {
  }

  lemma WordInjective(a: byte, b: byte, c: byte, d: byte)
    requires Word(a, b) == Word(c, d)
    ensures a == c && b == d
  {
    WordSplit(a, b);
    WordSplit(c, d);
  }

  /** Adding after a wrap is the same as wrapping after the add. */
  lemma ModAdd(x: int, y: int)
    ensures (x % WordModulus + y) % WordModulus == (x + y) % WordModulus
  {
    var q := x / WordModulus;
    assert x == q * WordModulus + x % WordModulus;
    ModShift(x % WordModulus + y, q);
  }

  lemma ModShift(y: int, q: int)
    ensures (y + q * WordModulus) % WordModulus == y % WordModulus
  {
    var z := y + q * WordModulus;
    var r := y % WordModulus;
    var p := y / WordModulus;
    assert y == p * WordModulus + r;
    assert z == (p + q) * WordModulus + r;
  }

  /** A non-zero change smaller than the modulus always shows after wrapping. */
  lemma ModDetects(x: int, d: int)
    requires d != 0 && -WordModulus < d < WordModulus
    ensures (x + d) % WordModulus != x % WordModulus
  {
    var p := x / WordModulus;
    var q := (x + d) / WordModulus;
    assert x == p * WordModulus + x % WordModulus;
    assert x + d == q * WordModulus + (x + d) % WordModulus;
    var shift := (q - p) * WordModulus;
    assert (x + d) % WordModulus - x % WordModulus == d - shift;
    if q - p >= 1 {
      assert shift >= WordModulus;
    } else if q - p <= -1 {
      assert shift <= -WordModulus;
    } else {
      assert shift == 0;
    }
  }
}
