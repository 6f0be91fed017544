// What counts as text: exactly the concatenations of encoded Unicode scalar values (section 3 of RFC 3629).
module Utf8 {
  import opened Wire

  type Scalar = c: int | 0 <= c < 0xD800 || 0xE000 <= c < 0x110000

  function Encoded(c: Scalar): Bytes {
    if c < 0x80 then [c]
    else if c < 0x800 then [0xC0 + c / 0x40, 0x80 + c % 0x40]
    else if c < 0x10000 then [0xE0 + c / 0x1000, 0x80 + c / 0x40 % 0x40, 0x80 + c % 0x40]
    else [0xF0 + c / 0x40000, 0x80 + c / 0x1000 % 0x40, 0x80 + c / 0x40 % 0x40, 0x80 + c % 0x40]
  }

  function EncodedAll(cs: seq<Scalar>): Bytes {
    if cs == [] then [] else Encoded(cs[0]) + EncodedAll(cs[1..])
  }

  lemma OneValid(c: Scalar, rest: Bytes)
    requires ValidUtf8(rest)
    ensures ValidUtf8(Encoded(c) + rest)
  {
    var s := Encoded(c) + rest;
    assert s[|Encoded(c)|..] == rest;
    if 0x800 <= c < 0x10000 {
      ThreeBytes(c);
    } else if 0x10000 <= c {
      FourBytes(c);
    }
  }

  lemma ThreeBytes(c: Scalar)
    requires 0x800 <= c < 0x10000
    ensures c / 0x1000 == 0 ==> c / 0x40 % 0x40 >= 0x20
    ensures c / 0x1000 == 13 ==> c / 0x40 % 0x40 <= 0x1F
  {
    assert c / 0x40 / 0x40 == c / 0x1000;
    assert c / 0x40 == 0x40 * (c / 0x1000) + c / 0x40 % 0x40;
  }

  lemma FourBytes(c: Scalar)
    requires 0x10000 <= c
    ensures c / 0x40000 <= 4
    ensures c / 0x40000 == 0 ==> c / 0x1000 % 0x40 >= 0x10
    ensures c / 0x40000 == 4 ==> c / 0x1000 % 0x40 <= 0xF
  {
    assert c / 0x1000 / 0x40 == c / 0x40000;
    assert c / 0x1000 == 0x40 * (c / 0x40000) + c / 0x1000 % 0x40;
  }

  lemma {:induction false} ScalarsAreValid(cs: seq<Scalar>)
    ensures ValidUtf8(EncodedAll(cs))
  {
    if cs != [] {
      ScalarsAreValid(cs[1..]);
      OneValid(cs[0], EncodedAll(cs[1..]));
    }
  }

  // The scalar value at the front of a valid text.
  lemma FirstScalar(s: Bytes) returns (c: Scalar, rest: Bytes)
    requires s != [] && ValidUtf8(s)
    ensures s == Encoded(c) + rest && ValidUtf8(rest)
  {
    var b0: int := s[0];
    if b0 < 0x80 {
      c, rest := b0, s[1..];
    } else if b0 <= 0xDF {
      var b1: int := s[1];
      c, rest := (b0 - 0xC0) * 0x40 + (b1 - 0x80), s[2..];
      assert Encoded(c) == [s[0], s[1]];
    } else if b0 <= 0xEF {
      var b1: int, b2: int := s[1], s[2];
      c, rest := (b0 - 0xE0) * 0x1000 + (b1 - 0x80) * 0x40 + (b2 - 0x80), s[3..];
      assert c / 0x40 == (b0 - 0xE0) * 0x40 + (b1 - 0x80) && c / 0x1000 == b0 - 0xE0;
      assert Encoded(c) == [s[0], s[1], s[2]];
    } else {
      var b1: int, b2: int, b3: int := s[1], s[2], s[3];
      var high := (b0 - 0xF0) * 0x40 + (b1 - 0x80);
      c, rest := high * 0x1000 + (b2 - 0x80) * 0x40 + (b3 - 0x80), s[4..];
      assert c / 0x40 == high * 0x40 + (b2 - 0x80);
      assert c / 0x1000 == high && c / 0x40000 == high / 0x40 == b0 - 0xF0;
      assert Encoded(c) == [s[0], s[1], s[2], s[3]];
    }
  }

  lemma {:induction false} ScalarsOf(s: Bytes) returns (cs: seq<Scalar>)
    requires ValidUtf8(s)
    ensures s == EncodedAll(cs)
    decreases |s|
  {
    if s == [] {
      cs := [];
    } else {
      var c, rest := FirstScalar(s);
      var tail := ScalarsOf(rest);
      cs := [c] + tail;
      assert cs[1..] == tail;
    }
  }

  // Bytes are text if and only if they are the encodings of scalar values, one after the other.
  lemma TextExactly(s: Bytes)
    ensures ValidUtf8(s) <==> exists cs :: s == EncodedAll(cs)
  {
    if ValidUtf8(s) { var cs := ScalarsOf(s); }
    forall cs | s == EncodedAll(cs) ensures ValidUtf8(s) { ScalarsAreValid(cs); }
  }
}
