/** What the byte-wise UTF-8 and white-space tests mean in terms of Unicode code points. */
module Utf8 {
  import opened Text

  predicate Scalar(c: nat) {
    c < 0xD800 || 0xE000 <= c <= 0x10FFFF
  }

  function Byte(n: nat): char
    requires n < 0x100
  {
    n as char
  }

  /** The UTF-8 form of a code point (RFC 3629, section 3). */
  function EncodeRune(c: nat): (r: Bytes)
    requires Scalar(c)
    ensures |r| > 0
  {
    if c < 0x80 then [Byte(c)]
    else if c < 0x800 then [Byte(0xC0 + c / 64), Byte(0x80 + c % 64)]
    else if c < 0x10000 then [Byte(0xE0 + c / 4096), Byte(0x80 + c / 64 % 64), Byte(0x80 + c % 64)]
    else [Byte(0xF0 + c / 0x40000), Byte(0x80 + c / 4096 % 64), Byte(0x80 + c / 64 % 64), Byte(0x80 + c % 64)]
  }

  predicate Scalars(runes: seq<nat>) {
    forall i :: 0 <= i < |runes| ==> Scalar(runes[i])
  }

  function Encode(runes: seq<nat>): Bytes
    requires Scalars(runes)
  {
    if runes == [] then "" else EncodeRune(runes[0]) + Encode(runes[1..])
  }

  lemma RuneLenOfEncoded(c: nat, rest: Bytes)
    requires Scalar(c)
    ensures RuneLen(EncodeRune(c) + rest) == |EncodeRune(c)|
  {
    var s := EncodeRune(c) + rest;
    assert |s| >= |EncodeRune(c)| && forall i :: 0 <= i < |EncodeRune(c)| ==> s[i] == EncodeRune(c)[i];
  }

  function Bits(s: Bytes, i: nat): int
    requires i < |s|
  {
    s[i] as int - 0x80
  }

  /** Base 64, digit by digit. */
  lemma Base64(high: nat, low: nat)
    requires low < 64
    ensures (high * 64 + low) / 64 == high && (high * 64 + low) % 64 == low
  {
  }

  lemma DecodeTwo(s: Bytes) returns (c: nat)
    requires RuneLen(s) == 2
    ensures Scalar(c) && s[..2] == EncodeRune(c)
  {
    var a, b := s[0] as int - 0xC0, Bits(s, 1);
    c := a * 64 + b;
    Base64(a, b);
  }

  lemma DecodeThree(s: Bytes) returns (c: nat)
    requires RuneLen(s) == 3
    ensures Scalar(c) && s[..3] == EncodeRune(c)
  {
    var a, b, d := s[0] as int - 0xE0, Bits(s, 1), Bits(s, 2);
    var high := a * 64 + b;
    c := high * 64 + d;
    Base64(a, b);
    Base64(high, d);
    assert c / 4096 == c / 64 / 64;
    assert 0x800 <= c < 0x10000;
  }

  lemma DecodeFour(s: Bytes) returns (c: nat)
    requires RuneLen(s) == 4
    ensures Scalar(c) && s[..4] == EncodeRune(c)
  {
    var a, b, d, e := s[0] as int - 0xF0, Bits(s, 1), Bits(s, 2), Bits(s, 3);
    var top := a * 64 + b;
    var high := top * 64 + d;
    c := high * 64 + e;
    Base64(a, b);
    Base64(top, d);
    Base64(high, e);
    assert c / 4096 == c / 64 / 64 && c / 0x40000 == c / 64 / 64 / 64;
    assert 0x10000 <= c <= 0x10FFFF;
  }

  lemma DecodeRune(s: Bytes) returns (c: nat)
    requires RuneLen(s) > 0
    ensures Scalar(c) && s[..RuneLen(s)] == EncodeRune(c)
  {
    var n := RuneLen(s);
    if n == 1 {
      c := s[0] as int;
    } else if n == 2 {
      c := DecodeTwo(s);
    } else if n == 3 {
      c := DecodeThree(s);
    } else {
      c := DecodeFour(s);
    }
  }

  /** The valid byte strings are the encodings of code points. */
  lemma {:induction false} EncodedIsValid(runes: seq<nat>)
    requires Scalars(runes)
    ensures ValidUtf8(Encode(runes))
  {
    if runes != [] {
      var rest := Encode(runes[1..]);
      EncodedIsValid(runes[1..]);
      RuneLenOfEncoded(runes[0], rest);
      assert Encode(runes)[|EncodeRune(runes[0])|..] == rest;
    }
  }

  lemma {:induction false} ValidIsEncoded(s: Bytes) returns (runes: seq<nat>)
    requires ValidUtf8(s)
    ensures Scalars(runes) && s == Encode(runes)
    decreases |s|
  {
    if s == "" {
      runes := [];
    } else {
      var c := DecodeRune(s);
      var rest := ValidIsEncoded(s[RuneLen(s)..]);
      runes := [c] + rest;
      assert runes[1..] == rest;
      assert s == s[..RuneLen(s)] + s[RuneLen(s)..];
    }
  }

  /** Unicode's White_Space code points. */
  predicate WhiteSpace(c: nat) {
    || 0x9 <= c <= 0xD || c == 0x20 || c == 0x85 || c == 0xA0 || c == 0x1680
    || 0x2000 <= c <= 0x200A || c == 0x2028 || c == 0x2029 || c == 0x202F || c == 0x205F || c == 0x3000
  }

  /** Fields cuts before a code point exactly when it is white space, and takes all of it. */
  lemma SpaceIsWhite(c: nat, rest: Bytes)
    requires Scalar(c)
    ensures SpaceLen(EncodeRune(c) + rest) == if WhiteSpace(c) then |EncodeRune(c)| else 0
  {
    var s := EncodeRune(c) + rest;
    assert |s| >= |EncodeRune(c)| && forall i :: 0 <= i < |EncodeRune(c)| ==> s[i] == EncodeRune(c)[i];
  }
}
