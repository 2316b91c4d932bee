/** Bytes, and the UTF-8 encoding of characters (section 3 of RFC 3629). */
module Utf8 {
  type Byte = b: int | 0 <= b < 256

  /** A Unicode scalar value: a code point that is no surrogate. */
  predicate IsScalar(c: nat) {
    c < 0xD800 || 0xE000 <= c < 0x11_0000
  }

  /** unicode.IsSpace: Unicode's White_Space characters. */
  predicate IsSpace(c: nat) {
    || 9 <= c <= 13 || c == 0x20 || c == 0x85 || c == 0xA0 || c == 0x1680 || 0x2000 <= c <= 0x200A
    || c == 0x2028 || c == 0x2029 || c == 0x202F || c == 0x205F || c == 0x3000
  }

  function Encode(c: nat): (s: seq<Byte>)
    requires IsScalar(c)
    ensures 1 <= |s| <= 4
  {
    if c < 0x80 then [c]
    else if c < 0x800 then [0xC0 + c / 64, 0x80 + c % 64]
    else if c < 0x1_0000 then [0xE0 + c / 4096, 0x80 + c / 64 % 64, 0x80 + c % 64]
    else [0xF0 + c / 262144, 0x80 + c / 4096 % 64, 0x80 + c / 64 % 64, 0x80 + c % 64]
  }

  lemma DecodeTwo(a: nat, b: nat) returns (c: nat)
    requires 0xC2 <= a <= 0xDF && 0x80 <= b < 0xC0
    ensures IsScalar(c) && Encode(c) == [a, b]
  {
    c := (a - 0xC0) * 64 + (b - 0x80);
  }

  lemma DecodeThree(a: nat, b: nat, d: nat) returns (c: nat)
    requires 0xE0 <= a <= 0xEF && 0x80 <= b < 0xC0 && 0x80 <= d < 0xC0
    requires (a == 0xE0 ==> b >= 0xA0) && (a == 0xED ==> b <= 0x9F)
    ensures IsScalar(c) && Encode(c) == [a, b, d]
    ensures c == (a - 0xE0) * 4096 + (b - 0x80) * 64 + (d - 0x80)
  {
    c := (a - 0xE0) * 4096 + (b - 0x80) * 64 + (d - 0x80);
    assert c / 64 == (a - 0xE0) * 64 + (b - 0x80);
  }

  lemma DecodeFour(a: nat, b: nat, d: nat, e: nat) returns (c: nat)
    requires 0xF0 <= a <= 0xF4 && 0x80 <= b < 0xC0 && 0x80 <= d < 0xC0 && 0x80 <= e < 0xC0
    requires (a == 0xF0 ==> b >= 0x90) && (a == 0xF4 ==> b <= 0x8F)
    ensures IsScalar(c) && Encode(c) == [a, b, d, e]
  {
    c := (a - 0xF0) * 262144 + (b - 0x80) * 4096 + (d - 0x80) * 64 + (e - 0x80);
    assert c / 64 == (a - 0xF0) * 4096 + (b - 0x80) * 64 + (d - 0x80);
    assert c / 4096 == (a - 0xF0) * 64 + (b - 0x80);
  }

  /** What the bytes of an encoding look like. */
  lemma EncodedBytes(c: nat)
    requires IsScalar(c)
    ensures var s := Encode(c);
      && (|s| == 1 ==> s[0] <= 0x7F)
      && (|s| == 2 ==> 0xC2 <= s[0] <= 0xDF)
      && (|s| == 3 ==> 0xE0 <= s[0] <= 0xEF && (s[0] == 0xE0 ==> s[1] >= 0xA0) && (s[0] == 0xED ==> s[1] <= 0x9F))
      && (|s| == 4 ==> 0xF0 <= s[0] <= 0xF4 && (s[0] == 0xF0 ==> s[1] >= 0x90) && (s[0] == 0xF4 ==> s[1] <= 0x8F))
      && forall i :: 1 <= i < |s| ==> 0x80 <= s[i] < 0xC0
  {
  }
}
