/** UTF-8 as RFC 3629 defines it (sections 3 and 4): an encoder, and a decoder that skips what is ill-formed. */
module Utf8 {
  type Byte = b: int | 0 <= b < 256

  // -- Encoding -----------------------------------------------------------------------------------

  function EncodeChar(c: char): (r: seq<Byte>)
    ensures |r| == if c as int < 0x80 then 1 else if c as int < 0x800 then 2 else if c as int < 0x1_0000 then 3 else 4
  {
    var n := c as int;
    if n < 0x80 then [n]
    else if n < 0x800 then [0xC0 + n / 64, 0x80 + n % 64]
    else if n < 0x1_0000 then [0xE0 + n / 4096, 0x80 + n / 64 % 64, 0x80 + n % 64]
    else [0xF0 + n / 262144, 0x80 + n / 4096 % 64, 0x80 + n / 64 % 64, 0x80 + n % 64]
  }

  function Encode(s: string): seq<Byte> {
    if s == [] then [] else EncodeChar(s[0]) + Encode(s[1..])
  }

  // -- Decoding -----------------------------------------------------------------------------------

  /** How many bytes a sequence led by `b` has; 0 if no sequence begins with `b`. */
  function Width(b: Byte): (w: nat)
    ensures w <= 4
  {
    if b < 0x80 then 1
    else if b < 0xC2 then 0
    else if b < 0xE0 then 2
    else if b < 0xF0 then 3
    else if b < 0xF5 then 4
    else 0
  }

  predicate IsTail(b: Byte) {
    0x80 <= b < 0xC0
  }

  /** The second byte's range, which rules out overlong forms, surrogates and values past U+10FFFF. */
  predicate IsSecond(lead: Byte, b: Byte) {
    && IsTail(b)
    && (lead == 0xE0 ==> b >= 0xA0)
    && (lead == 0xED ==> b < 0xA0)
    && (lead == 0xF0 ==> b >= 0x90)
    && (lead == 0xF4 ==> b < 0x90)
  }

  /** How many of the first bytes could begin a well-formed sequence together. */
  function Matched(bytes: seq<Byte>): (m: nat)
    requires bytes != []
    ensures m <= |bytes| && m <= Width(bytes[0])
  {
    var w := Width(bytes[0]);
    if w < 2 || |bytes| < 2 || !IsSecond(bytes[0], bytes[1]) then (if w == 0 then 0 else 1)
    else if w < 3 || |bytes| < 3 || !IsTail(bytes[2]) then 2
    else if w < 4 || |bytes| < 4 || !IsTail(bytes[3]) then 3
    else 4
  }

  function CodePoint(bytes: seq<Byte>): (n: int)
    requires bytes != [] && Width(bytes[0]) > 0 && Matched(bytes) == Width(bytes[0])
    ensures 0 <= n < 0xD800 || 0xE000 <= n < 0x11_0000
  {
    match Width(bytes[0])
    case 1 => bytes[0]
    case 2 => (bytes[0] as int - 0xC0) * 64 + (bytes[1] as int - 0x80)
    case 3 => (bytes[0] as int - 0xE0) * 4096 + (bytes[1] as int - 0x80) * 64 + (bytes[2] as int - 0x80)
    case _ => (bytes[0] as int - 0xF0) * 262144 + (bytes[1] as int - 0x80) * 4096 + (bytes[2] as int - 0x80) * 64 + (bytes[3] as int - 0x80)
  }

  /** `bytes.decode("utf-8", errors="ignore")`: a well-formed sequence gives its character, and
      anything else is skipped as far as it could have begun one. */
  function DecodeIgnoring(bytes: seq<Byte>): string
    decreases |bytes|
  {
    if bytes == [] then []
    else
      var m := Matched(bytes);
      if m > 0 && m == Width(bytes[0]) then [CodePoint(bytes) as char] + DecodeIgnoring(bytes[m..])
      else DecodeIgnoring(bytes[if m == 0 then 1 else m..])
  }

  /** The base-64 digits a code point is spread over. */
  lemma Digits(n: nat)
    ensures n == n / 64 * 64 + n % 64
    ensures n / 64 == n / 4096 * 64 + n / 64 % 64
    ensures n / 4096 == n / 262144 * 64 + n / 4096 % 64
  {
    assert n / 64 / 64 == n / 4096 && n / 4096 / 64 == n / 262144;
  }

  lemma EncodedCharIsMatched(c: char, rest: seq<Byte>)
    ensures var e := EncodeChar(c);
      Width(e[0]) == |e| == Matched(e + rest) && CodePoint(e + rest) == c as int
  {
    var e := EncodeChar(c);
    var bytes := e + rest;
    Digits(c as int);
    assert bytes[0] == e[0];
    if |e| > 1 {
      assert bytes[1] == e[1];
      if |e| > 2 {
        assert bytes[2] == e[2];
        if |e| > 3 {
          assert bytes[3] == e[3];
        }
      }
    }
  }

  lemma DecodeAfterChar(c: char, rest: seq<Byte>)
    ensures DecodeIgnoring(EncodeChar(c) + rest) == [c] + DecodeIgnoring(rest)
  {
    EncodedCharIsMatched(c, rest);
    assert (EncodeChar(c) + rest)[|EncodeChar(c)|..] == rest;
  }

  /** A character cut short leaves nothing behind. */
  lemma CutCharVanishes(c: char, k: nat)
    requires 0 < k < |EncodeChar(c)|
    ensures DecodeIgnoring(EncodeChar(c)[..k]) == []
  {
    var e := EncodeChar(c);
    EncodedCharIsMatched(c, []);
    assert e + [] == e;
    assert Matched(e[..k]) == k;
    assert e[..k][k..] == [];
  }

  lemma {:induction false} EncodeJoins(s: string, t: string)
    ensures Encode(s + t) == Encode(s) + Encode(t)
  {
    if s == [] {
      assert s + t == t;
    } else {
      assert (s + t)[1..] == s[1..] + t;
      EncodeJoins(s[1..], t);
    }
  }

  lemma {:induction false} Utf8RoundTrip(s: string)
    ensures DecodeIgnoring(Encode(s)) == s
  {
    if s != [] {
      DecodeAfterChar(s[0], Encode(s[1..]));
      Utf8RoundTrip(s[1..]);
    }
  }

  /** Cutting the bytes of a text after `limit` of them, as seen from its first character. */
  lemma DecodeCut(c: char, rest: seq<Byte>, limit: nat)
    requires limit <= |EncodeChar(c) + rest|
    ensures limit < |EncodeChar(c)| ==> DecodeIgnoring((EncodeChar(c) + rest)[..limit]) == []
    ensures limit >= |EncodeChar(c)| ==>
      DecodeIgnoring((EncodeChar(c) + rest)[..limit]) == [c] + DecodeIgnoring(rest[..limit - |EncodeChar(c)|])
  {
    var e := EncodeChar(c);
    if limit < |e| {
      assert (e + rest)[..limit] == e[..limit];
      if limit > 0 {
        CutCharVanishes(c, limit);
      }
    } else {
      assert (e + rest)[..limit] == e + rest[..limit - |e|];
      DecodeAfterChar(c, rest[..limit - |e|]);
    }
  }
}
