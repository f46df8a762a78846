/**
 The "\u" escapes of JSON strings: every Unicode scalar value, written as one escape or as a
 surrogate pair, becomes its UTF-8 bytes, and lone surrogates are rejected.
 */
module JsonEscapes {
  import opened Util
  import opened Text
  import opened JsonText
  import opened Utf8

  /** Four hexadecimal digits, of either case, with value `v` stand at `p`. */
  predicate HexFour(t: seq<Byte>, p: nat, v: int)
  {
    && p + 4 <= |t| && (forall i :: p <= i < p + 4 ==> HexDigit(t[i]) >= 0)
    && v == ((HexDigit(t[p]) * 16 + HexDigit(t[p + 1])) * 16 + HexDigit(t[p + 2])) * 16 + HexDigit(t[p + 3])
  }

  /** A "\u" escape with value `v` stands at `p`. */
  predicate EscapeOf(t: seq<Byte>, p: nat, v: int)
  {
    p + 6 <= |t| && t[p] == BACKSLASH && t[p + 1] == LETTER_U && HexFour(t, p + 2, v)
  }

  const HEX_UPPER := "0123456789ABCDEF"
  const HEX_LOWER := "0123456789abcdef"

  /** The hexadecimal digits in either case have their places as values; no other byte has one. */
  lemma HexDigits(c: Byte)
    ensures forall i :: 0 <= i < 16 && (c == HEX_UPPER[i] as int || c == HEX_LOWER[i] as int) ==> HexDigit(c) == i
    ensures (forall i :: 0 <= i < 16 ==> c != HEX_UPPER[i] as int && c != HEX_LOWER[i] as int) ==> HexDigit(c) == -1
  {
    forall i | 0 <= i < 16
      ensures HEX_UPPER[i] as int == (if i < 10 then 48 else 55) + i
      ensures HEX_LOWER[i] as int == (if i < 10 then 48 else 87) + i
    {
      HexAlphabet(i);
    }
    var v := HexDigit(c);
    if v >= 0 {
      assert c == HEX_UPPER[v] as int || c == HEX_LOWER[v] as int;
    }
  }

  lemma HexAlphabet(i: nat)
    requires i < 16
    ensures HEX_UPPER[i] as int == (if i < 10 then 48 else 55) + i
    ensures HEX_LOWER[i] as int == (if i < 10 then 48 else 87) + i
  {
  }

  /** Exactly what Hex4 accepts: four digits, or, where a NUL byte stands in the text, the
      padding byte 0xFF in place of two digits. */
  lemma Hex4Accepts(t: seq<Byte>, p: nat, v: int)
    requires p + 4 <= |t|
    ensures Hex4(t, p) == Some(v) <==>
            || HexFour(t, p, v)
            || (t[p] == NUL && v == 0xFFFF)
            || (t[p + 2] == NUL && HexDigit(t[p]) >= 0 && HexDigit(t[p + 1]) >= 0
                && v == (HexDigit(t[p]) * 16 + HexDigit(t[p + 1])) * 256 + 0xFF)
  {
    assert HexDigit(NUL) == -1;
  }

  /** A scalar value of the basic plane: the escape yields its UTF-8 bytes, which decode to it
      again, and the cursor stops on the last of the escape's six characters. */
  lemma BasicEscape(t: seq<Byte>, p: nat, v: int)
    requires EscapeOf(t, p, v) && IsScalar(v)
    ensures ParseEscape(t, p) == Done(Encode(v), p + 5)
    ensures Decode(Encode(v)) == Some(v)
  {
    Hex4Accepts(t, p + 2, v);
    DecodeEncode(v, []);
    assert Encode(v) + [] == Encode(v);
  }

  /** Every scalar value above the basic plane, written as its surrogate pair. */
  lemma PairEscape(t: seq<Byte>, p: nat, c: int)
    requires 0x10000 <= c < 0x110000
    requires EscapeOf(t, p, HighOf(c)) && EscapeOf(t, p + 6, LowOf(c))
    ensures ParseEscape(t, p) == Done(Encode(c), p + 11)
    ensures Decode(Encode(c)) == Some(c)
  {
    Hex4Accepts(t, p + 2, HighOf(c));
    Hex4Accepts(t, p + 8, LowOf(c));
    PairsAreBijective(HighOf(c), LowOf(c), c);
    DecodeEncode(c, []);
    assert Encode(c) + [] == Encode(c);
  }

  /** Lone surrogates are rejected: a low one always, and a high one exactly when no escape of a
      low surrogate follows. A NUL behind two digits of that escape counts as the byte 0xFF. */
  lemma LoneSurrogates(t: seq<Byte>, p: nat, v: int)
    requires EscapeOf(t, p, v)
    ensures IsLowSurrogate(v) ==> ParseEscape(t, p).Fail?
    ensures IsHighSurrogate(v) ==>
              (ParseEscape(t, p).Done? <==> exists lo :: IsLowSurrogate(lo) && LowEscapeFollows(t, p + 6, lo))
  {
    hide Hex4, HexDigit, LowEscapeFollows;
    Hex4Accepts(t, p + 2, v);
    if p + 12 <= |t| {
      SecondHalf(t, p + 6);
    } else {
      NoSecondHalf(t, p + 6);
    }
  }

  /** The second half of a pair is found by reading four digits behind "\u". */
  lemma SecondHalf(t: seq<Byte>, p: nat)
    requires p + 6 <= |t|
    ensures t[p] == BACKSLASH && t[p + 1] == LETTER_U && Hex4(t, p + 2).Some? && IsLowSurrogate(Hex4(t, p + 2).value)
            <==> exists lo :: IsLowSurrogate(lo) && LowEscapeFollows(t, p, lo)
  {
    hide Hex4, HexDigit;
    forall lo | IsLowSurrogate(lo)
      ensures LowEscapeFollows(t, p, lo) <==> t[p] == BACKSLASH && t[p + 1] == LETTER_U && Hex4(t, p + 2) == Some(lo)
    {
      Hex4Accepts(t, p + 2, lo);
    }
  }

  lemma NoSecondHalf(t: seq<Byte>, p: nat)
    requires |t| < p + 6
    ensures forall lo :: !LowEscapeFollows(t, p, lo)
  {
  }

  predicate PaddedLow(t: seq<Byte>, p: nat, lo: int)
  {
    p + 4 <= |t| && t[p + 2] == NUL && HexDigit(t[p]) >= 0 && HexDigit(t[p + 1]) >= 0
    && lo == (HexDigit(t[p]) * 16 + HexDigit(t[p + 1])) * 256 + 0xFF
  }

  predicate LowEscapeFollows(t: seq<Byte>, p: nat, lo: int)
  {
    EscapeOf(t, p, lo) ||
    (p + 6 <= |t| && t[p] == BACKSLASH && t[p + 1] == LETTER_U && PaddedLow(t, p + 2, lo))
  }
}
