/** What the decoder's check of strings accepts: exactly the UTF-8 encodings
    (RFC 3629, section 3) of sequences of Unicode scalar values. */
module Utf8 {
  import opened Wire
  import opened Decoding

  predicate ScalarValue(c: nat) {
    c < 0xD800 || 0xE000 <= c < 0x11_0000
  }

  function EncodeScalar(c: nat): Bytes
    requires ScalarValue(c)
  {
    if c < 0x80 then [c]
    else if c < 0x800 then [0xC0 + c / 64, 0x80 + c % 64]
    else if c < 0x1_0000 then [0xE0 + c / 64 / 64, 0x80 + c / 64 % 64, 0x80 + c % 64]
    else [0xF0 + c / 64 / 64 / 64, 0x80 + c / 64 / 64 % 64, 0x80 + c / 64 % 64, 0x80 + c % 64]
  }

  predicate ScalarValues(text: seq<nat>) {
    forall i :: 0 <= i < |text| ==> ScalarValue(text[i])
  }

  function EncodeText(text: seq<nat>): Bytes
    requires ScalarValues(text)
  {
    if text == [] then [] else EncodeScalar(text[0]) + EncodeText(text[1..])
  }

  ghost predicate EncodesText(s: Bytes) {
    exists text :: ScalarValues(text) && s == EncodeText(text)
  }

  /** An encoded scalar value in front changes nothing. */
  lemma EncodedIsValid(c: nat, rest: Bytes)
    requires ScalarValue(c)
    ensures ValidUtf8(EncodeScalar(c) + rest) <==> ValidUtf8(rest)
  {
    var e := EncodeScalar(c);
    var s := e + rest;
    assert s[|e|..] == rest;
    assert forall i :: 0 <= i < |e| ==> s[i] == e[i];
  }

  lemma {:induction false} TextIsValid(text: seq<nat>)
    requires ScalarValues(text)
    ensures ValidUtf8(EncodeText(text))
  {
    if text != [] {
      TextIsValid(text[1..]);
      EncodedIsValid(text[0], EncodeText(text[1..]));
    }
  }

  lemma Digits64(high: nat, low: nat)
    requires low < 64
    ensures (64 * high + low) / 64 == high && (64 * high + low) % 64 == low
  {
  }

  lemma TwoBytes(a: Byte, b: Byte) returns (c: nat)
    requires 0xC2 <= a < 0xE0 && Continuation(b)
    ensures ScalarValue(c) && EncodeScalar(c) == [a, b]
  {
    c := 64 * (a - 0xC0) + (b - 0x80);
    Digits64(a - 0xC0, b - 0x80);
  }

  lemma ThreeBytes(a: Byte, b: Byte, d: Byte) returns (c: nat)
    requires 0xE0 <= a < 0xF0 && Continuation(b) && Continuation(d)
    requires (a == 0xE0 ==> b >= 0xA0) && (a == 0xED ==> b < 0xA0)
    ensures ScalarValue(c) && EncodeScalar(c) == [a, b, d]
  {
    var high := 64 * (a - 0xE0) + (b - 0x80);
    c := 64 * high + (d - 0x80);
    Digits64(a - 0xE0, b - 0x80);
    Digits64(high, d - 0x80);
  }

  lemma FourBytes(a: Byte, b: Byte, d: Byte, e: Byte) returns (c: nat)
    requires 0xF0 <= a < 0xF5 && Continuation(b) && Continuation(d) && Continuation(e)
    requires (a == 0xF0 ==> b >= 0x90) && (a == 0xF4 ==> b < 0x90)
    ensures ScalarValue(c) && EncodeScalar(c) == [a, b, d, e]
  {
    var top := 64 * (a - 0xF0) + (b - 0x80);
    var high := 64 * top + (d - 0x80);
    c := 64 * high + (e - 0x80);
    Digits64(a - 0xF0, b - 0x80);
    Digits64(top, d - 0x80);
    Digits64(high, e - 0x80);
  }

  /** The first scalar value of a valid string. */
  lemma FirstScalar(s: Bytes) returns (c: nat, k: nat)
    requires s != [] && ValidUtf8(s)
    ensures ScalarValue(c) && 0 < k <= |s| && EncodeScalar(c) == s[..k] && ValidUtf8(s[k..])
  {
    if s[0] < 0x80 {
      c, k := s[0], 1;
    } else if s[0] < 0xE0 {
      c := TwoBytes(s[0], s[1]);
      k := 2;
    } else if s[0] < 0xF0 {
      c := ThreeBytes(s[0], s[1], s[2]);
      k := 3;
    } else {
      c := FourBytes(s[0], s[1], s[2], s[3]);
      k := 4;
    }
  }

  lemma {:induction false} ValidEncodesText(s: Bytes)
    requires ValidUtf8(s)
    ensures EncodesText(s)
    decreases |s|
  {
    if s == [] {
      assert EncodeText([]) == s;
    } else {
      var c, k := FirstScalar(s);
      ValidEncodesText(s[k..]);
      var text :| ScalarValues(text) && s[k..] == EncodeText(text);
      assert ([c] + text)[1..] == text;
      assert s == s[..k] + s[k..];
      assert ScalarValues([c] + text) && EncodeText([c] + text) == s;
    }
  }

  lemma ValidUtf8Exactly(s: Bytes)
    ensures ValidUtf8(s) <==> EncodesText(s)
  {
    if ValidUtf8(s) {
      ValidEncodesText(s);
    }
    if text :| ScalarValues(text) && s == EncodeText(text) {
      TextIsValid(text);
    }
  }
}
