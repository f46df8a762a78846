/**
 Blanks and comments of JSON texts, described apart from the function that skips them, and
 the fact that a document parses to the same value with and without them in front.
 */
module JsonComments {
  import opened Util
  import opened Text
  import opened JsonText
  import OM = OrderedMap

  /** A blank, a line comment with the byte that ends it, or a block comment. */
  datatype Gap = Blank(c: Byte) | Line(body: seq<Byte>, end: Byte) | Block(body: seq<Byte>)

  predicate EndsLine(c: Byte) { c == CR || c == LF || c == NUL }

  predicate GapOk(g: Gap)
  {
    match g
    case Blank(c) => IsSpace(c)
    case Line(body, end) => EndsLine(end) && forall i :: 0 <= i < |body| ==> !EndsLine(body[i])
    case Block(body) => forall i :: 0 <= i < |body| - 1 ==> !(body[i] == STAR && body[i + 1] == SLASH)
  }

  function GapText(g: Gap): (s: seq<Byte>)
    ensures s != []
  {
    match g
    case Blank(c) => [c]
    case Line(body, end) => [SLASH, SLASH] + body + [end]
    case Block(body) => [SLASH, STAR] + body + [STAR, SLASH]
  }

  predicate GapsOk(gaps: seq<Gap>)
  {
    forall i :: 0 <= i < |gaps| ==> GapOk(gaps[i])
  }

  function GapsText(gaps: seq<Gap>): seq<Byte>
  {
    if gaps == [] then [] else GapText(gaps[0]) + GapsText(gaps[1..])
  }

  // ----- gaps are skipped -----

  lemma {:induction false} LineEndIs(t: seq<Byte>, p: nat, e: nat)
    requires p <= e < |t| && EndsLine(t[e]) && forall i :: p <= i < e ==> !EndsLine(t[i])
    ensures LineEnd(t, p) == e
    decreases e - p
  {
    if p < e {
      LineEndIs(t, p + 1, e);
    }
  }

  lemma {:induction false} BlockEndIs(t: seq<Byte>, p: nat, e: nat)
    requires p <= e && e + 2 <= |t| && t[e] == STAR && t[e + 1] == SLASH
    requires forall i :: p <= i < e ==> !(t[i] == STAR && t[i + 1] == SLASH)
    ensures BlockEnd(t, p) == e
    decreases e - p
  {
    if p < e {
      BlockEndIs(t, p + 1, e);
    }
  }

  /** A gap in front of a text is skipped as a whole. */
  lemma GapSkipped(g: Gap, rest: seq<Byte>)
    requires GapOk(g)
    ensures SkipSpaces(GapText(g) + rest, 0) == SkipSpaces(GapText(g) + rest, |GapText(g)|)
  {
    var t := GapText(g) + rest;
    match g
    case Blank(c) => assert t[0] == c;
    case Line(body, end) =>
      assert t[0] == t[1] == SLASH && t[|body| + 2] == end;
      assert forall i :: 2 <= i < |body| + 2 ==> t[i] == body[i - 2];
      LineEndIs(t, 2, |body| + 2);
    case Block(body) =>
      assert t[0] == SLASH && t[1] == STAR && t[|body| + 2] == STAR && t[|body| + 3] == SLASH;
      assert forall i :: 2 <= i < |body| + 2 ==> t[i] == body[i - 2];
      BlockEndIs(t, 2, |body| + 2);
  }

  // ----- parsing depends on the text ahead only -----

  function Shifted<T>(r: Parsed<T>, n: nat): Parsed<T>
  {
    if r.Done? then Done(r.value, r.pos + n) else Fail
  }

  lemma {:induction false} LineEndShift(a: seq<Byte>, t: seq<Byte>, p: nat)
    requires p <= |t|
    ensures LineEnd(a + t, |a| + p) == |a| + LineEnd(t, p)
    decreases |t| - p
  {
    if p < |t| {
      assert (a + t)[|a| + p] == t[p];
      LineEndShift(a, t, p + 1);
    }
  }

  lemma AtShift(a: seq<Byte>, t: seq<Byte>, p: nat)
    ensures At(a + t, |a| + p) == At(t, p)
  {
  }

  lemma {:induction false} BlockEndShift(a: seq<Byte>, t: seq<Byte>, p: nat)
    requires p <= |t|
    ensures BlockEnd(a + t, |a| + p) == |a| + BlockEnd(t, p)
    decreases |t| - p
  {
    if p < |t| {
      AtShift(a, t, p);
      AtShift(a, t, p + 1);
      BlockEndShift(a, t, p + 1);
    }
  }

  /** The end of the one blank or comment at `p`. */
  function OneGapEnd(t: seq<Byte>, p: nat): (r: Option<nat>)
    requires p <= |t|
    ensures r.Some? ==> p < r.value <= |t|
  {
    if p == |t| then None
    else if IsSpace(t[p]) then Some(p + 1)
    else if t[p] == SLASH && At(t, p + 1) == SLASH then Some(LineEnd(t, p + 2))
    else if t[p] == SLASH && At(t, p + 1) == STAR then
      Some(if BlockEnd(t, p + 2) < |t| then BlockEnd(t, p + 2) + 2 else |t|)
    else None
  }

  lemma SkipStep(t: seq<Byte>, p: nat)
    requires p <= |t|
    ensures SkipSpaces(t, p) == if OneGapEnd(t, p).Some? then SkipSpaces(t, OneGapEnd(t, p).value) else p
  {
    hide LineEnd, BlockEnd, IsSpace;
  }

  lemma OneGapShift(a: seq<Byte>, t: seq<Byte>, p: nat)
    requires p <= |t|
    ensures OneGapEnd(a + t, |a| + p) ==
      if OneGapEnd(t, p).Some? then Some(|a| + OneGapEnd(t, p).value) else None
  {
    hide LineEnd, BlockEnd, IsSpace;
    if p < |t| {
      assert (a + t)[|a| + p] == t[p];
      AtShift(a, t, p + 1);
      if p + 2 <= |t| {
        LineEndShift(a, t, p + 2);
        BlockEndShift(a, t, p + 2);
      }
    }
  }

  lemma {:induction false} SkipShift(a: seq<Byte>, t: seq<Byte>, p: nat)
    requires p <= |t|
    ensures SkipSpaces(a + t, |a| + p) == |a| + SkipSpaces(t, p)
    decreases |t| - p
  {
    hide SkipSpaces, OneGapEnd;
    SkipStep(t, p);
    SkipStep(a + t, |a| + p);
    OneGapShift(a, t, p);
    if OneGapEnd(t, p).Some? {
      SkipShift(a, t, OneGapEnd(t, p).value);
    }
  }

  lemma HexShift(a: seq<Byte>, t: seq<Byte>, p: nat)
    ensures HexByte(a + t, |a| + p) == Shifted(HexByte(t, p), |a|)
  {
    hide HexDigit;
    AtShift(a, t, p);
    AtShift(a, t, p + 1);
  }

  lemma Hex4Shift(a: seq<Byte>, t: seq<Byte>, p: nat)
    ensures Hex4(a + t, |a| + p) == Hex4(t, p)
  {
    hide HexByte;
    HexShift(a, t, p);
    if HexByte(t, p).Done? {
      HexShift(a, t, HexByte(t, p).pos);
    }
  }

  lemma EscapeShift(a: seq<Byte>, t: seq<Byte>, p: nat)
    requires p < |t|
    ensures ParseEscape(a + t, |a| + p) == Shifted(ParseEscape(t, p), |a|)
  {
    hide ParseUnicode;
    if p + 1 < |t| {
      assert (a + t)[|a| + (p + 1)] == t[p + 1];
      UnicodeShift(a, t, p + 1);
    }
  }

  lemma UnicodeShift(a: seq<Byte>, t: seq<Byte>, q: nat)
    requires q < |t|
    ensures ParseUnicode(a + t, |a| + q) == Shifted(ParseUnicode(t, q), |a|)
  {
    hide Hex4;
    Hex4Shift(a, t, q + 1);
    Hex4Shift(a, t, q + 7);
    if |t| - q >= 11 {
      assert (a + t)[|a| + (q + 5)] == t[q + 5] && (a + t)[|a| + (q + 6)] == t[q + 6];
    }
  }

  lemma {:induction false} BodyShift(a: seq<Byte>, t: seq<Byte>, p: nat, quoted: bool, acc: seq<Byte>)
    requires p <= |t|
    ensures StringBody(a + t, |a| + p, quoted, acc) == Shifted(StringBody(t, p, quoted, acc), |a|)
    decreases |t| - p
  {
    hide ParseEscape, IsDelim;
    if p < |t| {
      assert (a + t)[|a| + p] == t[p];
      if t[p] == BACKSLASH {
        EscapeShift(a, t, p);
        var e := ParseEscape(t, p);
        if e.Done? {
          BodyShift(a, t, e.pos + 1, quoted, acc + e.value);
        }
      } else {
        BodyShift(a, t, p + 1, quoted, acc + [t[p]]);
      }
    }
  }

  lemma StringShift(a: seq<Byte>, t: seq<Byte>, p: nat)
    requires p <= |t|
    ensures ParseString(a + t, |a| + p) == Shifted(ParseString(t, p), |a|)
    ensures StartsQuoted(a + t, |a| + p) == StartsQuoted(t, p)
  {
    hide SkipSpaces, StringBody;
    SkipShift(a, t, p);
    var q := SkipSpaces(t, p);
    AtShift(a, t, q);
    if q < |t| {
      assert (a + t)[|a| + q] == t[q];
      BodyShift(a, t, q + 1, true, []);
      BodyShift(a, t, q, false, []);
    }
  }

  lemma ValueShift(a: seq<Byte>, t: seq<Byte>, p: nat)
    requires p <= |t|
    ensures ParseValue(a + t, |a| + p) == Shifted(ParseValue(t, p), |a|)
  {
    hide SkipSpaces, ParseString, ParseConst, StartsQuoted;
    SkipShift(a, t, p);
    StringShift(a, t, SkipSpaces(t, p));
  }

  lemma NameShift(a: seq<Byte>, t: seq<Byte>, p: nat)
    requires p <= |t|
    ensures ParseName(a + t, |a| + p) == Shifted(ParseName(t, p), |a|)
  {
    hide SkipSpaces, ParseString;
    StringShift(a, t, p);
    var name := ParseString(t, p);
    if name.Done? {
      SkipShift(a, t, name.pos);
      AtShift(a, t, SkipSpaces(t, name.pos));
    }
  }

  lemma {:induction false} BaseShift(a: seq<Byte>, t: seq<Byte>, p: nat, depth: nat)
    requires p <= |t|
    ensures ParseBase(a + t, |a| + p, depth) == Shifted(ParseBase(t, p, depth), |a|)
    decreases |t| - p, 0
  {
    hide SkipSpaces, ParseValue, ParseItems, ParseMembers;
    SkipShift(a, t, p);
    var q := SkipSpaces(t, p);
    if q < |t| && depth < MAX_DEPTH {
      assert (a + t)[|a| + q] == t[q];
      MembersShift(a, t, q + 1, depth + 1, []);
      ItemsShift(a, t, q + 1, depth + 1, []);
      ValueShift(a, t, q);
    }
  }

  lemma {:induction false} ItemsShift(a: seq<Byte>, t: seq<Byte>, p: nat, depth: nat, acc: seq<Json>)
    requires p <= |t|
    ensures ParseItems(a + t, |a| + p, depth, acc) == Shifted(ParseItems(t, p, depth, acc), |a|)
    decreases |t| - p, 1
  {
    hide SkipSpaces, ParseBase;
    SkipShift(a, t, p);
    var q := SkipSpaces(t, p);
    if q < |t| {
      assert (a + t)[|a| + q] == t[q];
      BaseShift(a, t, q, depth);
      var item := ParseBase(t, q, depth);
      if item.Done? {
        SkipShift(a, t, item.pos);
        var e := SkipSpaces(t, item.pos);
        if e < |t| {
          assert (a + t)[|a| + e] == t[e];
          ItemsShift(a, t, e + 1, depth, acc + [item.value]);
        }
      }
    }
  }

  lemma {:induction false} MembersShift(a: seq<Byte>, t: seq<Byte>, p: nat, depth: nat,
                                        acc: seq<OM.Pair<seq<Byte>, Json>>)
    requires p <= |t|
    ensures ParseMembers(a + t, |a| + p, depth, acc) == Shifted(ParseMembers(t, p, depth, acc), |a|)
    decreases |t| - p, 1
  {
    hide SkipSpaces, ParseBase, ParseName, ParseMembers, OM.Put;
    SkipShift(a, t, p);
    var q := SkipSpaces(t, p);
    MembersEnd(t, p, depth, acc);
    MembersEnd(a + t, |a| + p, depth, acc);
    if p < |t| && q < |t| {
      ByteShift(a, t, q);
      NameShift(a, t, q);
      var name := ParseName(t, q);
      if t[q] != RBRACE && name.Done? {
        BaseShift(a, t, name.pos, depth);
        var item := ParseBase(t, name.pos, depth);
        if item.Done? {
          SkipShift(a, t, item.pos);
          var e := SkipSpaces(t, item.pos);
          MembersGoOn(t, p, depth, acc);
          MembersGoOn(a + t, |a| + p, depth, acc);
          if e < |t| {
            ByteShift(a, t, e);
            MembersShift(a, t, e + 1, depth, OM.Put(acc, name.value, item.value));
          }
        }
      }
    }
  }

  lemma ByteShift(a: seq<Byte>, t: seq<Byte>, p: nat)
    requires p < |t|
    ensures (a + t)[|a| + p] == t[p]
  {
  }

  /** Where the loop over the members ends before it has read one. */
  lemma MembersEnd(t: seq<Byte>, p: nat, depth: nat, acc: seq<OM.Pair<seq<Byte>, Json>>)
    requires p <= |t|
    ensures var q := SkipSpaces(t, p);
            && (p == |t| ==> ParseMembers(t, p, depth, acc) == Done(acc, p))
            && (p < |t| && q == |t| ==> ParseMembers(t, p, depth, acc) == Fail)
            && (q < |t| && t[q] == RBRACE ==> ParseMembers(t, p, depth, acc) == Done(acc, q + 1))
            && (q < |t| && t[q] != RBRACE
                && (ParseName(t, q).Fail? || ParseBase(t, ParseName(t, q).pos, depth).Fail?) ==>
                  ParseMembers(t, p, depth, acc) == Fail)
  {
    hide SkipSpaces, ParseBase, ParseName, OM.Put;
  }

  /** What the loop over the members does behind one. */
  lemma MembersGoOn(t: seq<Byte>, p: nat, depth: nat, acc: seq<OM.Pair<seq<Byte>, Json>>)
    requires p <= |t| && SkipSpaces(t, p) < |t| && t[SkipSpaces(t, p)] != RBRACE
    requires ParseName(t, SkipSpaces(t, p)).Done? && ParseBase(t, ParseName(t, SkipSpaces(t, p)).pos, depth).Done?
    ensures var name := ParseName(t, SkipSpaces(t, p));
            var item := ParseBase(t, name.pos, depth);
            var e := SkipSpaces(t, item.pos);
            ParseMembers(t, p, depth, acc) ==
            if e < |t| && t[e] == COMMA then ParseMembers(t, e + 1, depth, OM.Put(acc, name.value, item.value))
            else if e < |t| && t[e] == RBRACE then Done(OM.Put(acc, name.value, item.value), e + 1)
            else Fail
  {
    hide SkipSpaces, ParseBase, ParseName, OM.Put;
  }

  /** What stands at a position is parsed from where the blanks and comments end. */
  lemma GapsDoNotMatter(t: seq<Byte>, p: nat, q: nat, depth: nat)
    requires p <= |t| && q <= |t| && SkipSpaces(t, p) == SkipSpaces(t, q)
    ensures ParseBase(t, p, depth) == ParseBase(t, q, depth)
  {
    hide SkipSpaces, ParseValue, ParseItems, ParseMembers;
  }

  /** Wherever a document is expected, blanks and comments in front of it leave its value and
      move its end by their length. */
  lemma {:induction false} GapsAreSkipped(gaps: seq<Gap>, t: seq<Byte>, depth: nat)
    requires GapsOk(gaps)
    ensures ParseBase(GapsText(gaps) + t, 0, depth) == Shifted(ParseBase(t, 0, depth), |GapsText(gaps)|)
  {
    hide ParseBase, SkipSpaces, GapText, GapOk;
    if gaps == [] {
      assert GapsText(gaps) + t == t;
    } else {
      var first := GapText(gaps[0]);
      var rest := GapsText(gaps[1..]) + t;
      assert GapsText(gaps) + t == first + rest;
      GapSkipped(gaps[0], rest);
      GapsDoNotMatter(first + rest, 0, |first|, depth);
      BaseShift(first, rest, 0, depth);
      GapsAreSkipped(gaps[1..], t, depth);
    }
  }

  /** Blanks and comments inserted anywhere a document is expected, inside an array or behind a
      member's colon as well as at the start, leave the value that is parsed there. */
  lemma InsertedGaps(before: seq<Byte>, gaps: seq<Gap>, t: seq<Byte>, depth: nat)
    requires GapsOk(gaps)
    ensures var n := |GapsText(gaps)|;
            ParseBase(before + (GapsText(gaps) + t), |before|, depth)
            == Shifted(ParseBase(before + t, |before|, depth), n)
  {
    hide ParseBase, GapsText, GapsOk;
    GapsAreSkipped(gaps, t, depth);
    BaseShift(before, GapsText(gaps) + t, 0, depth);
    BaseShift(before, t, 0, depth);
  }

  /** Blanks and comments in front of a text do not change what it parses to. */
  lemma LeadingGaps(gaps: seq<Gap>, t: seq<Byte>)
    requires GapsOk(gaps)
    ensures Parse(GapsText(gaps) + t) == Parse(t)
  {
    hide ParseBase;
    GapsAreSkipped(gaps, t, 0);
  }
}
