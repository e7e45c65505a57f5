/** Well-formed UTF-8 (section 4 of RFC 3629), which is what str::from_utf8 accepts. */
module Utf8 {
  import opened Wrappers

  predicate IsTail(b: byte) {
    0x80 <= b <= 0xBF
  }

  /** Length of the well-formed character at the head of s, 0 when there is none. */
  function HeadLength(s: Bytes): (n: nat)
    ensures n <= |s|
  {
    if |s| == 0 then 0
    else if s[0] <= 0x7F then 1
    else if |s| < 2 || !IsTail(s[1]) then 0
    else if 0xC2 <= s[0] <= 0xDF then 2
    else if |s| < 3 || !IsTail(s[2]) then 0
    else if 0xE0 <= s[0] <= 0xEF then
      if (s[0] == 0xE0 && s[1] < 0xA0) || (s[0] == 0xED && s[1] > 0x9F) then 0 else 3
    else if |s| < 4 || !IsTail(s[3]) then 0
    else if 0xF0 <= s[0] <= 0xF4 then
      if (s[0] == 0xF0 && s[1] < 0x90) || (s[0] == 0xF4 && s[1] > 0x8F) then 0 else 4
    else 0
  }

  predicate Valid(s: Bytes)
    decreases |s|
  {
    s == [] || (HeadLength(s) > 0 && Valid(s[HeadLength(s)..]))
  }

  lemma {:induction false} HeadOfConcat(a: Bytes, b: Bytes)
    requires HeadLength(a) > 0
    ensures HeadLength(a + b) == HeadLength(a)
  {
  }

  lemma {:induction false} DropConcat(a: Bytes, b: Bytes, n: nat)
    requires n <= |a|
    ensures (a + b)[n..] == a[n..] + b
  {
  }

  lemma {:induction false} ValidConcat(a: Bytes, b: Bytes)
    requires Valid(a) && Valid(b)
    ensures Valid(a + b)
    decreases |a|
  {
    hide HeadLength;
    if a == [] {
      assert a + b == b;
    } else {
      var n := HeadLength(a);
      HeadOfConcat(a, b);
      DropConcat(a, b, n);
      ValidConcat(a[n..], b);
    }
  }

  lemma {:induction false} AsciiIsValid(s: Bytes)
    requires forall i :: 0 <= i < |s| ==> s[i] <= 0x7F
    ensures Valid(s)
  {
    if s != [] {
      AsciiIsValid(s[1..]);
    }
  }

  /** An ASCII byte is never inside a character: what is before and behind it is well-formed by itself. */
  lemma {:induction false} ValidSplits(a: Bytes, c: byte, b: Bytes)
    requires c <= 0x7F && Valid(a + [c] + b)
    ensures Valid(a) && Valid(b)
    decreases |a|
  {
    var t := a + [c] + b;
    var n := HeadLength(t);
    if a == [] {
      assert t[1..] == b;
    } else {
      HeadEndsBefore(a, c, b);
      assert t[n..] == a[n..] + [c] + b;
      ValidSplits(a[n..], c, b);
    }
  }

  lemma {:induction false} HeadEndsBefore(a: Bytes, c: byte, b: Bytes)
    requires c <= 0x7F && a != [] && HeadLength(a + [c] + b) > 0
    ensures HeadLength(a + [c] + b) == HeadLength(a)
  {
    var t := a + [c] + b;
    assert t[|a|] == c && forall i :: 0 <= i < |a| ==> t[i] == a[i];
  }

  lemma {:induction false} ValidBehindAscii(a: Bytes, b: Bytes)
    requires Valid(a + b) && forall i :: 0 <= i < |a| ==> a[i] <= 0x7F
    ensures Valid(b)
    decreases |a|
  {
    if a == [] {
      assert a + b == b;
    } else {
      assert (a + b)[1..] == a[1..] + b;
      ValidBehindAscii(a[1..], b);
    }
  }

  // ---------------------------------------------------------------- against the definition by code points

  /** A Unicode scalar value: a code point that is no surrogate. */
  predicate IsScalarValue(cp: nat) {
    cp <= 0x10FFFF && !(0xD800 <= cp <= 0xDFFF)
  }

  /** The bytes of one character (section 3 of RFC 3629). */
  function Encode(cp: nat): Bytes
    requires IsScalarValue(cp)
  {
    if cp < 0x80 then [cp]
    else if cp < 0x800 then [0xC0 + cp / 64, 0x80 + cp % 64]
    else if cp < 0x1_0000 then [0xE0 + cp / 64 / 64, 0x80 + cp / 64 % 64, 0x80 + cp % 64]
    else [0xF0 + cp / 64 / 64 / 64, 0x80 + cp / 64 / 64 % 64, 0x80 + cp / 64 % 64, 0x80 + cp % 64]
  }

  ghost predicate AreScalarValues(cps: seq<nat>) {
    forall i :: 0 <= i < |cps| ==> IsScalarValue(cps[i])
  }

  function EncodeAll(cps: seq<nat>): Bytes
    requires AreScalarValues(cps)
  {
    if cps == [] then [] else Encode(cps[0]) + EncodeAll(cps[1..])
  }

  lemma {:induction false} EncodedIsHead(cp: nat, rest: Bytes)
    requires IsScalarValue(cp)
    ensures HeadLength(Encode(cp) + rest) == |Encode(cp)| > 0
  {
    HeadOfEncoded(cp);
    HeadOfConcat(Encode(cp), rest);
  }

  lemma {:induction false} HeadOfEncoded(cp: nat)
    requires IsScalarValue(cp)
    ensures HeadLength(Encode(cp)) == |Encode(cp)| > 0
  {
  }

  lemma {:induction false} Digits(x: nat, y: nat)
    requires y < 64
    ensures (x * 64 + y) / 64 == x && (x * 64 + y) % 64 == y
  {
  }

  lemma {:induction false} TwoBytes(s: Bytes) returns (cp: nat)
    requires HeadLength(s) == 2
    ensures IsScalarValue(cp) && Encode(cp) == s[..2]
  {
    var b0: int, b1: int := s[0], s[1];
    Digits(b0 - 0xC0, b1 - 0x80);
    return (b0 - 0xC0) * 64 + (b1 - 0x80);
  }

  lemma {:induction false} ThreeBytes(s: Bytes) returns (cp: nat)
    requires HeadLength(s) == 3
    ensures IsScalarValue(cp) && Encode(cp) == s[..3]
  {
    var b0: int, b1: int, b2: int := s[0], s[1], s[2];
    var high := (b0 - 0xE0) * 64 + (b1 - 0x80);
    Digits(b0 - 0xE0, b1 - 0x80);
    Digits(high, b2 - 0x80);
    return high * 64 + (b2 - 0x80);
  }

  lemma {:induction false} FourBytes(s: Bytes) returns (cp: nat)
    requires HeadLength(s) == 4
    ensures IsScalarValue(cp) && Encode(cp) == s[..4]
  {
    var b0: int, b1: int, b2: int, b3: int := s[0], s[1], s[2], s[3];
    var higher := (b0 - 0xF0) * 64 + (b1 - 0x80);
    var high := higher * 64 + (b2 - 0x80);
    Digits(b0 - 0xF0, b1 - 0x80);
    Digits(higher, b2 - 0x80);
    Digits(high, b3 - 0x80);
    return high * 64 + (b3 - 0x80);
  }

  /** The character at the head, as a number. */
  lemma {:induction false} HeadIsEncoded(s: Bytes) returns (cp: nat)
    requires HeadLength(s) > 0
    ensures IsScalarValue(cp) && Encode(cp) == s[..HeadLength(s)]
  {
    match HeadLength(s)
    case 1 =>
      cp := s[0];
    case 2 => cp := TwoBytes(s);
    case 3 => cp := ThreeBytes(s);
    case _ => cp := FourBytes(s);
  }

  lemma {:induction false} EncodedIsValid(cps: seq<nat>)
    requires AreScalarValues(cps)
    ensures Valid(EncodeAll(cps))
    decreases |cps|
  {
    if cps != [] {
      var first, rest := Encode(cps[0]), EncodeAll(cps[1..]);
      EncodedIsValid(cps[1..]);
      EncodedIsHead(cps[0], rest);
      assert (first + rest)[|first|..] == rest;
    }
  }

  lemma {:induction false} ValidIsEncoded(s: Bytes) returns (cps: seq<nat>)
    requires Valid(s)
    ensures AreScalarValues(cps) && EncodeAll(cps) == s
    decreases |s|
  {
    hide Encode, HeadLength;
    if s == [] {
      cps := [];
    } else {
      var n := HeadLength(s);
      var cp := HeadIsEncoded(s);
      var later := ValidIsEncoded(s[n..]);
      cps := [cp] + later;
      assert cps[1..] == later;
    }
  }

  ghost predicate IsEncoding(s: Bytes, cps: seq<nat>) {
    AreScalarValues(cps) && EncodeAll(cps) == s
  }

  /** Well-formed byte sequences are exactly the encodings of sequences of scalar values. */
  lemma {:induction false} ValidIffEncoded(s: Bytes)
    ensures Valid(s) <==> exists cps :: IsEncoding(s, cps)
  {
    if Valid(s) {
      var cps := ValidIsEncoded(s);
      assert IsEncoding(s, cps);
    }
    if cps :| IsEncoding(s, cps) {
      EncodedIsValid(cps);
    }
  }
}
