/**
 What unquoted tokens of a JSON text mean, told from how they are spelled: the constants in any
 case, whole numbers and numbers with a point.
 */
module JsonTokens {
  import opened Util
  import opened Text
  import opened JsonText
  import R = JsonRoundTrip

  // ----- spellings -----

  type Digit = d: nat | d < 10

  const DIGITS := "0123456789"

  /** A word in any mixture of upper and lower case. */
  predicate AnyCase(text: seq<Byte>, lower: string, upper: string)
  {
    && |text| == |lower| == |upper|
    && forall i :: 0 <= i < |text| ==> text[i] == lower[i] as int || text[i] == upper[i] as int
  }

  datatype Sign = NoSign | Plus | Minus

  function SignText(sign: Sign): seq<Byte>
  {
    match sign
    case NoSign => []
    case Plus => Ascii("+")
    case Minus => Ascii("-")
  }

  function DigitText(ds: seq<Digit>): seq<Byte>
  {
    seq(|ds|, i requires 0 <= i < |ds| => DIGITS[ds[i]] as int)
  }

  function Power10(n: nat): nat
  {
    if n == 0 then 1 else 10 * Power10(n - 1)
  }

  /** The number the digits stand for, the first one counting most. */
  function Number(ds: seq<Digit>): nat
  {
    if ds == [] then 0 else ds[0] * Power10(|ds| - 1) + Number(ds[1..])
  }

  /** The start of a number in a token with a point. */
  datatype Start =
    | Digit(d: Digit)
    | PointDigit(d: Digit)
    | Infinite(text: seq<Byte>)
    | NotANumber(text: seq<Byte>)

  function StartText(start: Start): seq<Byte>
  {
    match start
    case Digit(d) => DigitText([d])
    case PointDigit(d) => Ascii(".") + DigitText([d])
    case Infinite(text) => text
    case NotANumber(text) => text
  }

  /** `lead` are spaces of the C locale, which the library functions skip; a `tail` is what they
      leave unread. */
  datatype Spelling =
    | Truth(text: seq<Byte>)
    | Falsehood(text: seq<Byte>)
    | Nothing(text: seq<Byte>)
    | Whole(lead: seq<Byte>, sign: Sign, ds: seq<Digit>, tail: seq<Byte>)
    | Pointed(lead: seq<Byte>, sign: Sign, start: Start, tail: seq<Byte>)

  function Spell(s: Spelling): seq<Byte>
  {
    match s
    case Whole(lead, sign, ds, tail) => lead + SignText(sign) + DigitText(ds) + tail
    case Pointed(lead, sign, start, tail) => lead + SignText(sign) + StartText(start) + tail
    case _ => s.text
  }

  predicate IsLead(lead: seq<Byte>)
  {
    forall i :: 0 <= i < |lead| ==> lead[i] == ' ' as int || 9 <= lead[i] <= 13
  }

  predicate Spells(s: Spelling)
  {
    match s
    case Truth(text) => AnyCase(text, "true", "TRUE")
    case Falsehood(text) => AnyCase(text, "false", "FALSE")
    case Nothing(text) => AnyCase(text, "null", "NULL")
    case Whole(lead, sign, ds, tail) =>
      IsLead(lead) && ds != [] && '.' as int !in tail && (tail != [] ==> !('0' as int <= tail[0] <= '9' as int))
    case Pointed(lead, sign, start, tail) =>
      && IsLead(lead) && '.' as int in StartText(start) + tail
      && (start.Infinite? ==> AnyCase(start.text, "inf", "INF"))
      && (start.NotANumber? ==> AnyCase(start.text, "nan", "NAN") && (lead != [] || sign != NoSign))
  }

  function Saturated(v: int): int
  {
    if v < -9223372036854775808 then -9223372036854775808
    else if v > 9223372036854775807 then 9223372036854775807
    else v
  }

  function Signed(sign: Sign, n: int): int
  {
    if sign == Minus then -n else n
  }

  function Meaning(s: Spelling): Json
  {
    match s
    case Truth(_) => Bool(true)
    case Falsehood(_) => Bool(false)
    case Nothing(_) => Null
    case Whole(_, sign, ds, _) => Long(Saturated(Signed(sign, Number(ds))))
    case Pointed(_, _, _, _) => Double(Spell(s))
  }

  // ----- a token in a text -----

  predicate Blanks(s: seq<Byte>)
  {
    forall i :: 0 <= i < |s| ==> s[i] in Ascii(" \t\r\n")
  }

  /** A text that is read as one unquoted token, with nothing to trim. */
  predicate IsToken(token: seq<Byte>)
  {
    && token != []
    && (forall i :: 0 <= i < |token| ==> token[i] != NUL && token[i] !in Ascii(":,[]{}\\"))
    && token[0] !in Ascii(" \t\r\n\"/") && token[|token| - 1] !in Ascii(" \t\r\n")
  }

  predicate EndsToken(rest: seq<Byte>)
  {
    rest == [] || rest[0] == NUL || rest[0] in Ascii(":,[]{}")
  }

  lemma TokenBytes(c: Byte)
    ensures c in Ascii(" \t\r\n") <==> R.IsBlank(c)
    ensures c in Ascii(":,[]{}") || c == NUL <==> IsDelim(c)
    ensures c in Ascii(":,[]{}\\") || c == NUL <==> IsDelim(c) || c == BACKSLASH
    ensures c in Ascii(" \t\r\n\"/") || c == NUL <==> !R.Solid(c) || c == QUOTE
  {
    InFour(Ascii(" \t\r\n"), c);
    InSix(Ascii(":,[]{}"), c);
    InSeven(Ascii(":,[]{}\\"), c);
    InSix(Ascii(" \t\r\n\"/"), c);
  }

  lemma InFour(s: seq<Byte>, c: Byte)
    requires |s| == 4
    ensures c in s <==> c == s[0] || c == s[1] || c == s[2] || c == s[3]
  {
  }

  lemma InSix(s: seq<Byte>, c: Byte)
    requires |s| == 6
    ensures c in s <==> c == s[0] || c == s[1] || c == s[2] || c == s[3] || c == s[4] || c == s[5]
  {
  }

  lemma InSeven(s: seq<Byte>, c: Byte)
    requires |s| == 7
    ensures c in s <==> c == s[0] || c == s[1] || c == s[2] || c == s[3] || c == s[4] || c == s[5] || c == s[6]
  {
  }

  /** Between blanks and up to a delimiter a token is what its constant is. */
  lemma TokenParses(left: seq<Byte>, token: seq<Byte>, right: seq<Byte>, rest: seq<Byte>)
    requires Blanks(left) && IsToken(token) && Blanks(right) && EndsToken(rest)
    ensures Parse(left + token + right + rest) == ParseConst(token)
  {
    hide ParseConst, StringBody, ParseItems, ParseMembers, Trim, CString, SkipSpaces, IsDelim, Ascii;
    var t := left + token + right + rest;
    var q, b := |left|, |left| + |token|;
    var e := b + |right|;
    forall c: Byte
      ensures c in Ascii(" \t\r\n") <==> R.IsBlank(c)
      ensures (c in Ascii(":,[]{}") || c == NUL <==> IsDelim(c))
      && (c in Ascii(":,[]{}\\") || c == NUL <==> IsDelim(c) || c == BACKSLASH)
      && (c in Ascii(" \t\r\n\"/") || c == NUL <==> !R.Solid(c) || c == QUOTE)
    {
      TokenBytes(c);
    }
    assert t[q] == token[0];
    R.SkipToSolid(t, 0, q);
    R.SkipToSolid(t, q, q);
    assert e < |t| ==> t[e] == rest[0];
    forall i | q <= i < e ensures !IsDelim(t[i]) && t[i] != BACKSLASH {
      if i < b {
        assert t[i] == token[i - q];
      } else {
        assert t[i] == right[i - b];
      }
    }
    R.TokenReads(t, q, e, []);
    assert [] + t[q..e] == token + right;
    PaddedConst(token, right);
    TokenIsNoBracket(t, q);
  }

  lemma TokenIsNoBracket(t: seq<Byte>, q: nat)
    requires q < |t| && !IsDelim(t[q])
    ensures t[q] != LBRACE && t[q] != LBRACKET
  {
  }

  lemma PaddedConst(token: seq<Byte>, pad: seq<Byte>)
    requires IsToken(token) && Blanks(pad)
    ensures ParseConst(token + pad) == ParseConst(token) && CString(Trim(token)) == token
  {
    hide Trim, CString, CaseEqual, StrToLong, StrToDoubleReads, Ascii;
    TokenBytes(token[0]);
    TokenBytes(token[|token| - 1]);
    forall i | 0 <= i < |pad| ensures IsSpace(pad[i]) {
      TokenBytes(pad[i]);
    }
    TrimPadded(token, pad);
    TrimPadded(token, []);
    assert token + [] == token;
    CStringOfNulFree(token);
  }

  // ----- constants -----

  lemma Words()
    ensures TRUE == Ascii("true") && FALSE == Ascii("false") && NULL == Ascii("null")
  {
  }

  /** Equality without case, told letter by letter. */
  lemma CaseEqualIff(c: seq<Byte>)
    ensures CaseEqual(c, TRUE) <==> AnyCase(c, "true", "TRUE")
    ensures CaseEqual(c, FALSE) <==> AnyCase(c, "false", "FALSE")
    ensures CaseEqual(c, NULL) <==> AnyCase(c, "null", "NULL")
  {
    OneCase(c, TRUE, "true", "TRUE");
    OneCase(c, FALSE, "false", "FALSE");
    OneCase(c, NULL, "null", "NULL");
  }

  lemma OneCase(c: seq<Byte>, word: seq<Byte>, lower: string, upper: string)
    requires |word| == |lower| == |upper|
    requires forall i :: 0 <= i < |word| ==>
      'a' <= lower[i] <= 'z' && lower[i] as int == upper[i] as int + 32 && ToUpper(word[i]) == upper[i] as int
    ensures CaseEqual(c, word) <==> AnyCase(c, lower, upper)
  {
  }

  /** A token that starts with one of these letters is a constant or nothing. */
  lemma LetterIff(c: Byte)
    ensures c in Ascii("tTfFnN") <==> ToUpper(c) == 84 || ToUpper(c) == 70 || ToUpper(c) == 78
  {
    InSix(Ascii("tTfFnN"), c);
  }

  // ----- numbers -----

  lemma DigitTextAt(ds: seq<Digit>, i: nat)
    requires i < |ds|
    ensures DigitText(ds)[i] == 48 + (ds[i] as int) && IsDigit(DigitText(ds)[i])
  {
  }

  lemma {:induction false} NumberSnoc(ds: seq<Digit>, d: Digit)
    ensures Number(ds + [d]) == 10 * Number(ds) + d
  {
    if ds == [] {
      assert ds + [d] == [d] && [d][1..] == [];
      assert Number([d]) == d * Power10(0) + Number([]);
    } else {
      assert (ds + [d])[1..] == ds[1..] + [d];
      NumberSnoc(ds[1..], d);
      assert Power10(|ds|) == 10 * Power10(|ds| - 1);
      assert ds[0] * (10 * Power10(|ds| - 1)) == 10 * (ds[0] * Power10(|ds| - 1));
    }
  }

  /** Reading digits by multiplying on is their positional value. */
  lemma {:induction false} DigitsValueIs(ds: seq<Digit>)
    ensures forall i :: 0 <= i < |ds| ==> IsDigit(DigitText(ds)[i])
    ensures DigitsValue(DigitText(ds)) == Number(ds)
  {
    if ds != [] {
      var less, d := ds[..|ds| - 1], ds[|ds| - 1];
      assert ds == less + [d];
      assert DigitText(ds)[..|ds| - 1] == DigitText(less);
      DigitsValueIs(less);
      NumberSnoc(less, d);
      DigitTextAt(ds, |ds| - 1);
    }
  }

  lemma {:induction false} LeadEnds(s: seq<Byte>, i: nat, e: nat)
    requires i <= e <= |s| && IsLead(s[i..e]) && (e < |s| ==> !(s[e] == SPACE || 9 <= s[e] <= 13))
    ensures SpacesEnd(s, i) == e
    decreases e - i
  {
    if i < e {
      assert s[i] == s[i..e][0];
      assert s[i + 1..e] == s[i..e][1..];
      LeadEnds(s, i + 1, e);
    }
  }

  lemma {:induction false} DigitsEndAt(s: seq<Byte>, i: nat, e: nat)
    requires i <= e <= |s| && (forall k :: i <= k < e ==> IsDigit(s[k])) && (e < |s| ==> !IsDigit(s[e]))
    ensures DigitsEnd(s, i) == e
    decreases e - i
  {
    if i < e {
      DigitsEndAt(s, i + 1, e);
    }
  }

  /** Where the library functions find the number in a token: behind the lead and the sign. */
  lemma NumberStarts(lead: seq<Byte>, sign: Sign, text: seq<Byte>)
    requires IsLead(lead) && text != []
    requires text[0] != SPACE && !(9 <= text[0] <= 13) && text[0] != PLUS && text[0] != MINUS
    ensures var s := lead + SignText(sign) + text;
            && SpacesEnd(s, 0) == |lead| && SignEnd(s, |lead|) == |lead| + |SignText(sign)|
            && (At(s, |lead|) == MINUS <==> sign == Minus)
            && s[|lead| + |SignText(sign)|..] == text
  {
    var s := lead + SignText(sign) + text;
    assert s[0..|lead|] == lead;
    if sign == NoSign {
      assert s[|lead|] == text[0];
    } else {
      assert s[|lead|] == SignText(sign)[0];
    }
    LeadEnds(s, 0, |lead|);
  }

  /** The digits at `b` end where the tail begins. */
  lemma DigitsStop(s: seq<Byte>, b: nat, ds: seq<Digit>, tail: seq<Byte>)
    requires b <= |s| && s[b..] == DigitText(ds) + tail && (tail != [] ==> !IsDigit(tail[0]))
    ensures DigitsEnd(s, b) == b + |ds| && s[b..b + |ds|] == DigitText(ds)
  {
    hide DigitText;
    var text := DigitText(ds);
    LengthIs(ds);
    assert forall k :: 0 <= k < |s| - b ==> s[b + k] == s[b..][k];
    forall k | b <= k < b + |ds| ensures IsDigit(s[k]) {
      assert s[k] == text[k - b];
      DigitTextAt(ds, k - b);
    }
    DigitsEndAt(s, b, b + |ds|);
    assert s[b..b + |ds|] == s[b..][..|ds|] == text;
  }

  /** What strtoll reads of a whole number. */
  lemma WholeReads(lead: seq<Byte>, sign: Sign, ds: seq<Digit>, tail: seq<Byte>)
    requires Spells(Whole(lead, sign, ds, tail))
    ensures StrToLong(Spell(Whole(lead, sign, ds, tail))) == Some(Saturated(Signed(sign, Number(ds))))
  {
    hide Number, DigitsValue, DigitText, SignText, SpacesEnd, SignEnd, DigitsEnd;
    var s := Spell(Whole(lead, sign, ds, tail));
    LengthIs(ds);
    DigitTextAt(ds, 0);
    DigitsValueIs(ds);
    assert s == lead + SignText(sign) + (DigitText(ds) + tail);
    NumberStarts(lead, sign, DigitText(ds) + tail);
    DigitsStop(s, |lead| + |SignText(sign)|, ds, tail);
  }

  lemma LengthIs(ds: seq<Digit>)
    ensures |DigitText(ds)| == |ds|
  {
  }

  lemma WholeHasNoPoint(lead: seq<Byte>, sign: Sign, ds: seq<Digit>, tail: seq<Byte>)
    requires Spells(Whole(lead, sign, ds, tail))
    ensures DOT !in Spell(Whole(lead, sign, ds, tail))
  {
    forall c | c in DigitText(ds) ensures c != DOT {
      var i :| 0 <= i < |DigitText(ds)| && DigitText(ds)[i] == c;
      DigitTextAt(ds, i);
    }
  }

  /** What strtod can start on at `i`. */
  predicate DoubleAt(s: seq<Byte>, i: nat)
  {
    || IsDigit(At(s, i))
    || (At(s, i) == DOT && IsDigit(At(s, i + 1)))
    || (i + 3 <= |s| && CaseEqual(s[i..i + 3], [73, 78, 70]))
    || (i + 3 <= |s| && CaseEqual(s[i..i + 3], [78, 65, 78]))
  }

  lemma DoubleAtStart(s: seq<Byte>)
    ensures StrToDoubleReads(s) == DoubleAt(s, SignEnd(s, SpacesEnd(s, 0)))
  {
  }

  lemma StartIsRead(s: seq<Byte>, i: nat, start: Start, tail: seq<Byte>)
    requires i <= |s| && s[i..] == StartText(start) + tail
    requires start.Infinite? ==> AnyCase(start.text, "inf", "INF")
    requires start.NotANumber? ==> AnyCase(start.text, "nan", "NAN")
    ensures DoubleAt(s, i)
  {
    hide CaseEqual, AnyCase;
    var text := StartText(start);
    assert forall k :: 0 <= k < |text| ==> s[i + k] == s[i..][k] == text[k];
    match start {
      case Digit(d) => DigitTextAt([d], 0);
      case PointDigit(d) => DigitTextAt([d], 0);
      case Infinite(w) =>
        assert |w| == 3 by { ThreeLetters(w, "inf", "INF"); }
        OneCase(w, [73, 78, 70], "inf", "INF");
        assert s[i..i + 3] == w;
      case NotANumber(w) =>
        assert |w| == 3 by { ThreeLetters(w, "nan", "NAN"); }
        OneCase(w, [78, 65, 78], "nan", "NAN");
        assert s[i..i + 3] == w;
    }
  }

  lemma ThreeLetters(w: seq<Byte>, lower: string, upper: string)
    requires AnyCase(w, lower, upper) && |lower| == 3
    ensures |w| == 3
  {
  }

  lemma StartIsSolid(start: Start, tail: seq<Byte>)
    requires start.Infinite? ==> AnyCase(start.text, "inf", "INF")
    requires start.NotANumber? ==> AnyCase(start.text, "nan", "NAN")
    ensures var text := StartText(start) + tail;
            text != [] && text[0] != SPACE && !(9 <= text[0] <= 13) && text[0] != PLUS && text[0] != MINUS
  {
    match start {
      case Digit(d) => DigitTextAt([d], 0);
      case _ =>
    }
  }

  lemma PointedReads(lead: seq<Byte>, sign: Sign, start: Start, tail: seq<Byte>)
    requires Spells(Pointed(lead, sign, start, tail))
    ensures StrToDoubleReads(Spell(Pointed(lead, sign, start, tail)))
    ensures DOT in Spell(Pointed(lead, sign, start, tail))
  {
    hide DoubleAt, SignText, StartText, SpacesEnd, SignEnd, AnyCase;
    var s := Spell(Pointed(lead, sign, start, tail));
    var text := StartText(start) + tail;
    assert s == lead + SignText(sign) + text;
    StartIsSolid(start, tail);
    NumberStarts(lead, sign, text);
    DoubleAtStart(s);
    StartIsRead(s, |lead| + |SignText(sign)|, start, tail);
  }

  // ----- what tokens mean -----

  lemma SpelledConst(s: Spelling)
    requires Spells(s) && IsToken(Spell(s))
    ensures ParseConst(Spell(s)) == Some(Meaning(s))
  {
    hide Spells, Spell, Trim, CString, CaseEqual, AnyCase, StrToLong, StrToDoubleReads, Ascii, Number;
    var c := Spell(s);
    PaddedConst(c, []);
    CaseEqualIff(c);
    match s
    case Whole(lead, sign, ds, tail) =>
      WholeHasNoPoint(lead, sign, ds, tail);
      WholeReads(lead, sign, ds, tail);
      NumberIsNoWord(s);
    case Pointed(lead, sign, start, tail) =>
      PointedReads(lead, sign, start, tail);
      NumberIsNoWord(s);
    case _ =>
      WordIsSpelled(s);
  }

  lemma WordIsSpelled(s: Spelling)
    requires Spells(s) && !s.Whole? && !s.Pointed?
    ensures s.Truth? ==> AnyCase(Spell(s), "true", "TRUE")
    ensures s.Falsehood? ==> AnyCase(Spell(s), "false", "FALSE") && !AnyCase(Spell(s), "true", "TRUE")
    ensures s.Nothing? ==> AnyCase(Spell(s), "null", "NULL") && !AnyCase(Spell(s), "true", "TRUE")
                           && !AnyCase(Spell(s), "false", "FALSE")
  {
    assert s.Nothing? ==> s.text[0] == 110 || s.text[0] == 78;
  }

  /** A number does not start with a letter of a constant. */
  lemma NumberIsNoWord(s: Spelling)
    requires Spells(s) && (s.Whole? || s.Pointed?) && IsToken(Spell(s))
    ensures !AnyCase(Spell(s), "true", "TRUE") && !AnyCase(Spell(s), "false", "FALSE")
    ensures !AnyCase(Spell(s), "null", "NULL")
    ensures At(Spell(s), 0) != NUL && Spell(s)[0] !in Ascii("tTfFnN")
    ensures var u := ToUpper(At(Spell(s), 0)); u != 84 && u != 70 && u != 78
  {
    hide Ascii, Number, DigitText, IsToken;
    var c := Spell(s);
    TokenStarts(c);
    LetterIff(c[0]);
    if s.lead != [] {
      assert c[0] == s.lead[0];
    } else if s.sign != NoSign {
      assert c[0] == SignText(s.sign)[0] && |SignText(s.sign)| == 1;
      assert c[0] == PLUS || c[0] == MINUS by { SignIs(s.sign); }
    } else if s.Whole? {
      DigitTextAt(s.ds, 0);
      LengthIs(s.ds);
      assert c[0] == DigitText(s.ds)[0];
    } else {
      StartLetter(s.start, s.tail);
      assert c == StartText(s.start) + s.tail;
    }
  }

  lemma SignIs(sign: Sign)
    requires sign != NoSign
    ensures |SignText(sign)| == 1 && (SignText(sign)[0] == PLUS || SignText(sign)[0] == MINUS)
  {
  }

  lemma TokenStarts(c: seq<Byte>)
    requires IsToken(c)
    ensures c != [] && c[0] != NUL
  {
  }

  lemma StartLetter(start: Start, tail: seq<Byte>)
    requires start.Infinite? ==> AnyCase(start.text, "inf", "INF")
    requires !start.NotANumber?
    ensures var text := StartText(start) + tail;
            text != [] && var u := ToUpper(text[0]); u != 84 && u != 70 && u != 78
  {
    match start {
      case Digit(d) => DigitTextAt([d], 0);
      case _ =>
    }
  }

  /** Wherever blanks and a delimiter end it, a token that is spelled as a constant or a number is
      parsed to what it is spelled for. */
  lemma SpelledParses(left: seq<Byte>, s: Spelling, right: seq<Byte>, rest: seq<Byte>)
    requires Spells(s) && IsToken(Spell(s)) && Blanks(left) && Blanks(right) && EndsToken(rest)
    ensures Parse(left + Spell(s) + right + rest) == Some(Meaning(s))
  {
    hide Parse, Spells, Spell, Meaning, IsToken;
    TokenParses(left, Spell(s), right, rest);
    SpelledConst(s);
  }

  // ----- and no other token means anything -----

  function DigitOf(c: Byte): Digit
    requires IsDigit(c)
  {
    c as int - 48
  }

  function DigitsOf(text: seq<Byte>): (ds: seq<Digit>)
    requires forall i :: 0 <= i < |text| ==> IsDigit(text[i])
    ensures |ds| == |text| && forall i :: 0 <= i < |ds| ==> 48 + (ds[i] as int) == text[i]
  {
    if text == [] then [] else [DigitOf(text[0])] + DigitsOf(text[1..])
  }

  lemma DigitsSpelled(text: seq<Byte>)
    requires forall i :: 0 <= i < |text| ==> IsDigit(text[i])
    ensures DigitText(DigitsOf(text)) == text
  {
    hide DigitText;
    LengthIs(DigitsOf(text));
    forall i | 0 <= i < |text| ensures DigitText(DigitsOf(text))[i] == text[i] {
      DigitTextAt(DigitsOf(text), i);
    }
  }

  /** A token that is accepted is spelled in one of these ways. */
  lemma AcceptedIsSpelled(token: seq<Byte>) returns (s: Spelling)
    requires IsToken(token) && ParseConst(token).Some?
    ensures Spells(s) && Spell(s) == token
  {
    hide Trim, CString, CaseEqual, AnyCase, StrToLong, StrToDoubleReads, Ascii;
    PaddedConst(token, []);
    CaseEqualIff(token);
    if AnyCase(token, "true", "TRUE") {
      s := Truth(token);
    } else if AnyCase(token, "false", "FALSE") {
      s := Falsehood(token);
    } else if AnyCase(token, "null", "NULL") {
      s := Nothing(token);
    } else if DOT in token {
      s := PointedOf(token);
    } else {
      s := WholeOf(token);
    }
  }

  lemma {:induction false} SpacesAreLead(s: seq<Byte>, i: nat)
    requires i <= |s|
    ensures IsLead(s[i..SpacesEnd(s, i)])
    decreases |s| - i
  {
    var e := SpacesEnd(s, i);
    if i < e {
      SpacesAreLead(s, i + 1);
      assert s[i..e] == [s[i]] + s[i + 1..e];
    }
  }

  function SignOf(s: seq<Byte>, i: nat): (sign: Sign)
    requires i <= |s|
    ensures s[i..SignEnd(s, i)] == SignText(sign)
  {
    if i < |s| && s[i] == PLUS then Plus else if i < |s| && s[i] == MINUS then Minus else NoSign
  }

  lemma FourParts(s: seq<Byte>, a: nat, b: nat, e: nat)
    requires a <= b <= e <= |s|
    ensures s == s[..a] + s[a..b] + s[b..e] + s[e..] && s[b..] == s[b..e] + s[e..]
  {
  }

  lemma WholeOf(token: seq<Byte>) returns (s: Spelling)
    requires DOT !in token && StrToLong(token).Some?
    ensures Spells(s) && Spell(s) == token
  {
    hide DigitText, DigitsValue, SignText, IsLead, SpacesEnd;
    var a := SpacesEnd(token, 0);
    var b := SignEnd(token, a);
    var e := DigitsEnd(token, b);
    SpacesAreLead(token, 0);
    var ds := DigitsOf(token[b..e]);
    DigitsSpelled(token[b..e]);
    s := Whole(token[..a], SignOf(token, a), ds, token[e..]);
    assert token[0..a] == token[..a];
    FourParts(token, a, b, e);
  }

  lemma PointedOf(token: seq<Byte>) returns (s: Spelling)
    requires DOT in token && StrToDoubleReads(token) && token != [] && ToUpper(token[0]) != 78
    ensures Spells(s) && Spell(s) == token
  {
    hide DoubleAt, DigitText, SignText, StartText, IsLead, AnyCase, SpacesEnd, StrToDoubleReads;
    var a := SpacesEnd(token, 0);
    var b := SignEnd(token, a);
    SpacesAreLead(token, 0);
    DoubleAtStart(token);
    var start, e := StartOf(token, b);
    var sign := SignOf(token, a);
    s := Pointed(token[..a], sign, start, token[e..]);
    assert token[0..a] == token[..a];
    FourParts(token, a, b, e);
    PointBehind(token, a, b);
    assert b < e ==> token[b..e][0] == token[b];
    SignGiven(token, a);
  }

  lemma SignGiven(token: seq<Byte>, a: nat)
    requires a <= |token|
    ensures SignOf(token, a) == NoSign <==> SignEnd(token, a) == a
  {
  }

  /** The point is not among the spaces or the sign. */
  lemma PointBehind(token: seq<Byte>, a: nat, b: nat)
    requires a <= b <= |token| && IsLead(token[..a]) && b == SignEnd(token, a) && DOT in token
    ensures DOT in token[b..]
  {
    forall k | 0 <= k < a ensures token[k] != DOT {
      assert token[..a][k] == token[k];
    }
    var i :| 0 <= i < |token| && token[i] == DOT;
    assert token[b..][i - b] == DOT;
  }

  lemma StartOf(token: seq<Byte>, b: nat) returns (start: Start, e: nat)
    requires b <= |token| && DoubleAt(token, b)
    ensures b <= e <= |token| && token[b..e] == StartText(start)
    ensures start.Infinite? ==> AnyCase(start.text, "inf", "INF")
    ensures start.NotANumber? ==>
      AnyCase(start.text, "nan", "NAN") && StartText(start) != [] && ToUpper(StartText(start)[0]) == 78
  {
    hide DigitText, CaseEqual, AnyCase;
    if IsDigit(At(token, b)) {
      e := b + 1;
      start := OneDigit(token, b);
    } else if At(token, b) == DOT && IsDigit(At(token, b + 1)) {
      e := b + 2;
      var digit := OneDigit(token, b + 1);
      start := PointDigit(digit.d);
      assert token[b..e] == [token[b]] + token[b + 1..e];
    } else if b + 3 <= |token| && CaseEqual(token[b..b + 3], [73, 78, 70]) {
      e := b + 3;
      start := Infinite(token[b..e]);
      OneCase(token[b..e], [73, 78, 70], "inf", "INF");
    } else {
      e := b + 3;
      start := NotANumber(token[b..e]);
      OneCase(token[b..e], [78, 65, 78], "nan", "NAN");
      FirstIsN(token[b..e]);
    }
  }

  lemma FirstIsN(text: seq<Byte>)
    requires AnyCase(text, "nan", "NAN")
    ensures text != [] && ToUpper(text[0]) == 78
  {
  }

  lemma OneDigit(token: seq<Byte>, i: nat) returns (start: Start)
    requires i < |token| && IsDigit(token[i])
    ensures start.Digit? && DigitText([start.d]) == token[i..i + 1]
  {
    DigitsSpelled(token[i..i + 1]);
    var ds := DigitsOf(token[i..i + 1]);
    start := Digit(ds[0]);
    assert ds == [start.d];
  }

  /** A token is accepted exactly when it is spelled as a constant or a number. */
  lemma TokenAcceptedIff(left: seq<Byte>, token: seq<Byte>, right: seq<Byte>, rest: seq<Byte>)
    requires IsToken(token) && Blanks(left) && Blanks(right) && EndsToken(rest)
    ensures Parse(left + token + right + rest).Some? <==> exists s :: Spells(s) && Spell(s) == token
  {
    hide Parse, ParseConst, Spells, Spell, IsToken;
    TokenParses(left, token, right, rest);
    if ParseConst(token).Some? {
      var s := AcceptedIsSpelled(token);
    }
    if s :| Spells(s) && Spell(s) == token {
      SpelledConst(s);
    }
  }

  // ----- in particular -----

  /** The bytes of numbers are those of tokens. */
  predicate NumberBytes(s: seq<Byte>)
  {
    forall i :: 0 <= i < |s| ==> IsDigit(s[i]) || s[i] == PLUS || s[i] == MINUS || s[i] == DOT
  }

  lemma NumberIsToken(s: seq<Byte>)
    requires NumberBytes(s) && s != []
    ensures IsToken(s)
  {
    hide Ascii;
    forall i | 0 <= i < |s| ensures s[i] != NUL && s[i] !in Ascii(":,[]{}\\") && s[i] !in Ascii(" \t\r\n\"/")
      && s[i] !in Ascii(" \t\r\n")
    {
      TokenBytes(s[i]);
    }
  }

  lemma SpelledNumber(sign: Sign, ds: seq<Digit>)
    ensures NumberBytes(SignText(sign)) && NumberBytes(DigitText(ds))
  {
    forall i | 0 <= i < |ds| ensures IsDigit(DigitText(ds)[i]) {
      DigitTextAt(ds, i);
    }
  }

  /** A sign and digits, leading zeros allowed, are a long, saturated at 64 bits. */
  lemma WholeNumbers(left: seq<Byte>, sign: Sign, ds: seq<Digit>, right: seq<Byte>, rest: seq<Byte>)
    requires ds != [] && Blanks(left) && Blanks(right) && EndsToken(rest)
    ensures Parse(left + (SignText(sign) + DigitText(ds)) + right + rest)
            == Some(Long(Saturated(Signed(sign, Number(ds)))))
  {
    hide Parse, IsToken, DigitText, SignText, Number;
    var s := Whole([], sign, ds, []);
    SpelledNumber(sign, ds);
    LengthIs(ds);
    assert Spell(s) == SignText(sign) + DigitText(ds);
    NumberIsToken(Spell(s));
    SpelledParses(left, s, right, rest);
  }

  /** A sign, digits, a point and perhaps more digits are a double. */
  lemma PointNumbers(left: seq<Byte>, sign: Sign, ds: seq<Digit>, fs: seq<Digit>, right: seq<Byte>, rest: seq<Byte>)
    requires ds != [] && Blanks(left) && Blanks(right) && EndsToken(rest)
    ensures var text := SignText(sign) + DigitText(ds) + Ascii(".") + DigitText(fs);
            Parse(left + text + right + rest) == Some(Double(text))
  {
    hide Parse, IsToken, DigitText, SignText, Number;
    var text := SignText(sign) + DigitText(ds) + Ascii(".") + DigitText(fs);
    var tail := DigitText(ds[1..]) + Ascii(".") + DigitText(fs);
    var s := Pointed([], sign, Digit(ds[0]), tail);
    SpelledNumber(sign, ds);
    SpelledNumber(sign, fs);
    FirstDigit(ds);
    assert Spell(s) == text;
    assert tail[|ds| - 1] == DOT by { LengthIs(ds[1..]); }
    NumberIsToken(text);
    SpelledParses(left, s, right, rest);
  }

  lemma FirstDigit(ds: seq<Digit>)
    requires ds != []
    ensures DigitText(ds) == DigitText([ds[0]]) + DigitText(ds[1..])
  {
  }

  /** A token that starts like a constant and is none is rejected. */
  lemma FalseStart(left: seq<Byte>, token: seq<Byte>, right: seq<Byte>, rest: seq<Byte>)
    requires IsToken(token) && Blanks(left) && Blanks(right) && EndsToken(rest) && token[0] in Ascii("tTfFnN")
    requires !AnyCase(token, "true", "TRUE") && !AnyCase(token, "false", "FALSE") && !AnyCase(token, "null", "NULL")
    ensures Parse(left + token + right + rest) == None
  {
    hide Parse, IsToken, AnyCase, Ascii, CaseEqual, Trim, CString;
    TokenStarts(token);
    TokenParses(left, token, right, rest);
    PaddedConst(token, []);
    CaseEqualIff(token);
    LetterIff(token[0]);
  }

  /** What follows the digits of a whole number is ignored: an exponent, and another number too,
      since blanks do not end a token. */
  lemma TailsAreIgnored(ds: seq<Digit>, tail: seq<Byte>)
    requires ds != [] && IsToken(DigitText(ds) + tail) && '.' as int !in tail && (tail != [] ==> !IsDigit(tail[0]))
    ensures Parse(DigitText(ds) + tail) == Some(Long(Saturated(Number(ds))))
  {
    hide Parse, DigitText, IsToken;
    var s := Whole([], NoSign, ds, tail);
    assert Spell(s) == DigitText(ds) + tail;
    SpelledParses([], s, [], []);
    assert [] + Spell(s) + [] + [] == Spell(s);
  }
}
