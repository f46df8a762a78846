/**
 UTF-8 (section 3 of RFC 3629) and the surrogate pairs of "\u" escapes (section 7 of RFC 8259).
 */
module Utf8 {
  import opened Util
  import opened Text

  predicate IsHighSurrogate(c: int) { 0xD800 <= c <= 0xDBFF }

  predicate IsLowSurrogate(c: int) { 0xDC00 <= c <= 0xDFFF }

  predicate IsScalar(c: int)
  {
    0 <= c < 0x110000 && !IsHighSurrogate(c) && !IsLowSurrogate(c)
  }

  /** The bytes that JsonAppendUTF8 appends; `|` with disjoint bits is `+`. */
  function Encode(c: int): seq<Byte>
    requires 0 <= c < 0x110000
  {
    if c < 0x80 then [c]
    else if c < 0x800 then [0xC0 + c / 0x40, 0x80 + c % 0x40]
    else if c < 0x10000 then [0xE0 + c / 0x1000, 0x80 + c / 0x40 % 0x40, 0x80 + c % 0x40]
    else [0xF0 + c / 0x40000, 0x80 + c / 0x1000 % 0x40, 0x80 + c / 0x40 % 0x40, 0x80 + c % 0x40]
  }

  predicate IsTail(b: int) { 0x80 <= b <= 0xBF }

  /** The length of the sequence that a first byte announces, 0 for an invalid one. */
  function Announced(b: int): nat
  {
    if b < 0x80 then 1
    else if 0xC2 <= b <= 0xDF then 2
    else if 0xE0 <= b <= 0xEF then 3
    else if 0xF0 <= b <= 0xF4 then 4
    else 0
  }

  /** An independent decoder for the first character of `s`, following the syntax of
      section 4 of RFC 3629: no overlong forms, no surrogates, nothing above U+10FFFF. */
  function Decode(s: seq<Byte>): Option<int>
  {
    if s == [] || |s| < Announced(s[0]) then None
    else
      match Announced(s[0])
      case 0 => None
      case 1 => Some(s[0])
      case 2 => Decode2(s[0], s[1])
      case 3 => Decode3(s[0], s[1], s[2])
      case _ => Decode4(s[0], s[1], s[2], s[3])
  }

  function Decode2(a: int, b: int): Option<int>
  {
    if IsTail(b) then Some((a - 0xC0) * 0x40 + (b - 0x80)) else None
  }

  function Decode3(a: int, b: int, c: int): Option<int>
  {
    if IsTail(b) && IsTail(c) && (a == 0xE0 ==> b >= 0xA0) && (a == 0xED ==> b <= 0x9F)
    then Some((a - 0xE0) * 0x1000 + (b - 0x80) * 0x40 + (c - 0x80))
    else None
  }

  function Decode4(a: int, b: int, c: int, d: int): Option<int>
  {
    if IsTail(b) && IsTail(c) && IsTail(d) && (a == 0xF0 ==> b >= 0x90) && (a == 0xF4 ==> b <= 0x8F)
    then Some((a - 0xF0) * 0x40000 + (b - 0x80) * 0x1000 + (c - 0x80) * 0x40 + (d - 0x80))
    else None
  }

  /** The encoding of a scalar value is well formed, is read back as that value whatever
      follows it, and takes exactly the announced length. */
  lemma DecodeEncode(c: int, rest: seq<Byte>)
    requires IsScalar(c)
    ensures Decode(Encode(c) + rest) == Some(c)
    ensures |Encode(c)| == Announced(Encode(c)[0])
  {
    var e := Encode(c);
    var s := e + rest;
    assert forall i :: 0 <= i < |e| ==> s[i] == e[i];
    if c < 0x800 {
    } else if c < 0x10000 {
      Split(c);
      assert Decode3(e[0], e[1], e[2]) == Some(c);
    } else {
      Split(c);
      Split(c / 0x1000);
      assert Decode4(e[0], e[1], e[2], e[3]) == Some(c);
    }
  }

  lemma Split(c: int)
    requires c >= 0
    ensures c == c / 0x1000 * 0x1000 + c / 0x40 % 0x40 * 0x40 + c % 0x40
    ensures c / 0x40000 == c / 0x1000 / 0x40
  {
    assert c / 0x40 == c / 0x1000 * 0x40 + c / 0x40 % 0x40;
  }

  /** The decoder accepts only encodings of scalar values, so Encode reaches every valid sequence. */
  lemma EncodeDecode(s: seq<Byte>)
    requires Decode(s).Some?
    ensures IsScalar(Decode(s).value)
    ensures var e := Encode(Decode(s).value); |e| == Announced(s[0]) <= |s| && s[..|e|] == e
  {
    var n := Announced(s[0]);
    if n == 3 {
      EncodeDecoded3(s[0], s[1], s[2]);
    } else if n == 4 {
      EncodeDecoded4(s[0], s[1], s[2], s[3]);
    }
    assert s[..n] == Encode(Decode(s).value);
  }

  lemma EncodeDecoded3(a: Byte, b: Byte, c: Byte)
    requires Announced(a) == 3 && Decode3(a, b, c).Some?
    ensures var v := Decode3(a, b, c).value; IsScalar(v) && Encode(v) == [a, b, c]
  {
    Join(a as int - 0xE0, b as int - 0x80, c as int - 0x80);
  }

  lemma EncodeDecoded4(a: Byte, b: Byte, c: Byte, d: Byte)
    requires Announced(a) == 4 && Decode4(a, b, c, d).Some?
    ensures var v := Decode4(a, b, c, d).value; IsScalar(v) && Encode(v) == [a, b, c, d]
  {
    Join((a as int - 0xF0) * 0x40 + (b as int - 0x80), c as int - 0x80, d as int - 0x80);
  }

  lemma Join(a: int, b: int, c: int)
    requires 0 <= a && 0 <= b < 0x40 && 0 <= c < 0x40
    ensures var v := a * 0x1000 + b * 0x40 + c; v / 0x1000 == a && v / 0x40 % 0x40 == b && v % 0x40 == c
  {
    var v := a * 0x1000 + b * 0x40 + c;
    assert v / 0x40 == a * 0x40 + b;
  }

  function FromPair(hi: int, lo: int): int
  {
    0x10000 + (hi - 0xD800) * 0x400 + (lo - 0xDC00)
  }

  function HighOf(c: int): int { 0xD800 + (c - 0x10000) / 0x400 }

  function LowOf(c: int): int { 0xDC00 + (c - 0x10000) % 0x400 }

  /** Surrogate pairs map one-to-one onto U+10000..U+10FFFF. */
  lemma PairsAreBijective(hi: int, lo: int, c: int)
    requires IsHighSurrogate(hi) && IsLowSurrogate(lo) && 0x10000 <= c < 0x110000
    ensures 0x10000 <= FromPair(hi, lo) < 0x110000
    ensures IsHighSurrogate(HighOf(c)) && IsLowSurrogate(LowOf(c)) && FromPair(HighOf(c), LowOf(c)) == c
    ensures FromPair(hi, lo) == c <==> hi == HighOf(c) && lo == LowOf(c)
  {
  }
}
