/** What the codec takes for text: the encodings of Unicode scalar values (ctp/cbor.py; RFC 3629 section 3). */
module Utf8 {
  import opened Bytes
  import opened Cbor

  /** A code point that is not a surrogate. */
  predicate Scalar(c: nat) {
    c < 0xD800 || 0xE000 <= c < 0x11_0000
  }

  /** Its bits in one to four bytes. */
  function Encoded(c: nat): (b: bytes)
    requires Scalar(c)
    ensures 1 <= |b| <= 4
  {
    if c < 0x80 then [c]
    else if c < 0x800 then [0xC0 + c / 0x40, 0x80 + c % 0x40]
    else if c < 0x1_0000 then [0xE0 + c / 0x1000, 0x80 + c / 0x40 % 0x40, 0x80 + c % 0x40]
    else [0xF0 + c / 0x4_0000, 0x80 + c / 0x1000 % 0x40, 0x80 + c / 0x40 % 0x40, 0x80 + c % 0x40]
  }

  ghost predicate Scalars(cs: seq<nat>) {
    forall i | 0 <= i < |cs| :: Scalar(cs[i])
  }

  function EncodedAll(cs: seq<nat>): bytes
    requires Scalars(cs)
  {
    if cs == [] then [] else Encoded(cs[0]) + EncodedAll(cs[1..])
  }

  lemma OneRead(c: nat, rest: bytes)
    requires Scalar(c)
    ensures Utf8Length(Encoded(c) + rest) == |Encoded(c)|
  {
    var e := Encoded(c);
    var b := e + rest;
    assert forall i | 0 <= i < |e| :: b[i] == e[i];
    if 0x800 <= c < 0x1_0000 { ThreeBytes(c); }
    if c >= 0x1_0000 { FourBytes(c); }
  }

  lemma ThreeBytes(c: nat)
    requires 0x800 <= c < 0x1_0000 && Scalar(c)
    ensures c < 0x1000 ==> c / 0x40 % 0x40 >= 0x20
    ensures c / 0x1000 == 13 ==> c / 0x40 % 0x40 < 0x20
  {
  }

  lemma FourBytes(c: nat)
    requires 0x1_0000 <= c < 0x11_0000
    ensures c < 0x4_0000 ==> c / 0x1000 % 0x40 >= 0x10
    ensures c / 0x4_0000 == 4 ==> c / 0x1000 % 0x40 < 0x10
    ensures c / 0x4_0000 <= 4
  {
  }

  lemma LastSix(h: nat, l: nat)
    requires l < 0x40
    ensures (0x40 * h + l) / 0x40 == h && (0x40 * h + l) % 0x40 == l
  {
  }

  lemma SixTwice(c: nat)
    ensures c / 0x40 / 0x40 == c / 0x1000 && c / 0x1000 / 0x40 == c / 0x4_0000
  {
  }

  lemma TwoWritten(x: nat, y: nat) returns (c: nat)
    requires 2 <= x < 0x20 && y < 0x40
    ensures Scalar(c) && Encoded(c) == [0xC0 + x, 0x80 + y]
  {
    c := 0x40 * x + y;
    LastSix(x, y);
  }

  lemma ThreeWritten(x: nat, y: nat, z: nat) returns (c: nat)
    requires x < 0x10 && y < 0x40 && z < 0x40 && (x == 0 ==> y >= 0x20) && (x == 13 ==> y < 0x20)
    ensures Scalar(c) && Encoded(c) == [0xE0 + x, 0x80 + y, 0x80 + z]
  {
    var d := 0x40 * x + y;
    c := 0x40 * d + z;
    LastSix(x, y);
    LastSix(d, z);
    SixTwice(c);
  }

  lemma FourWritten(x: nat, y: nat, z: nat, w: nat) returns (c: nat)
    requires x <= 4 && y < 0x40 && z < 0x40 && w < 0x40 && (x == 0 ==> y >= 0x10) && (x == 4 ==> y < 0x10)
    ensures Scalar(c) && Encoded(c) == [0xF0 + x, 0x80 + y, 0x80 + z, 0x80 + w]
  {
    var d := 0x40 * x + y;
    var e := 0x40 * d + z;
    c := 0x40 * e + w;
    LastSix(x, y);
    LastSix(d, z);
    LastSix(e, w);
    SixTwice(c);
  }

  /** The scalar value that stands at the start of b. */
  lemma OneWritten(b: bytes) returns (c: nat)
    requires Utf8Length(b) > 0
    ensures Scalar(c) && Encoded(c) == b[..Utf8Length(b)]
  {
    hide Encoded;
    var n := Utf8Length(b);
    if n == 1 {
      c := b[0];
      OneByteWritten(c);
    } else if n == 2 {
      c := TwoWritten(b[0] as int - 0xC0, b[1] as int - 0x80);
    } else if n == 3 {
      c := ThreeWritten(b[0] as int - 0xE0, b[1] as int - 0x80, b[2] as int - 0x80);
    } else {
      c := FourWritten(b[0] as int - 0xF0, b[1] as int - 0x80, b[2] as int - 0x80, b[3] as int - 0x80);
    }
  }

  lemma OneByteWritten(c: nat)
    requires c < 0x80
    ensures Scalar(c) && Encoded(c) == [c]
  {
  }

  lemma {:induction false} AllRead(cs: seq<nat>)
    requires Scalars(cs)
    ensures IsUtf8(EncodedAll(cs))
  {
    hide Utf8Length, Encoded;
    if cs != [] {
      var rest := EncodedAll(cs[1..]);
      OneRead(cs[0], rest);
      AllRead(cs[1..]);
      assert (Encoded(cs[0]) + rest)[|Encoded(cs[0])|..] == rest;
    }
  }

  lemma {:induction false} AllWritten(b: bytes) returns (cs: seq<nat>)
    requires IsUtf8(b)
    ensures Scalars(cs) && b == EncodedAll(cs)
    decreases |b|
  {
    hide Utf8Length, Encoded;
    cs := [];
    if b != [] {
      var n := Utf8Length(b);
      var c := OneWritten(b);
      var rest := AllWritten(b[n..]);
      cs := [c] + rest;
      assert cs[1..] == rest && b == b[..n] + b[n..];
    }
  }

  /** Text is exactly what encodes a list of scalar values: no overlong form, no surrogate, nothing beyond
      U+10FFFF, nothing cut off. */
  lemma TextIff(b: bytes)
    ensures IsUtf8(b) <==> exists cs :: Scalars(cs) && b == EncodedAll(cs)
  {
    hide IsUtf8;
    if IsUtf8(b) {
      var cs := AllWritten(b);
    }
    if cs :| Scalars(cs) && b == EncodedAll(cs) { AllRead(cs); }
  }
}
