/**
 Parsing undoes printing: for every document of longs, NUL-free strings, booleans, nulls,
 arrays and objects, compact or pretty, up to the depth limit of the parser and no further.
 */
module JsonRoundTrip {
  import opened Util
  import opened Text
  import opened OrderedMap
  import opened JsonText

  /** The text `s` stands at position `p` of `t`. */
  predicate ReadsAt(t: seq<Byte>, p: nat, s: seq<Byte>)
  {
    p + |s| <= |t| && t[p..p + |s|] == s
  }

  lemma Split(t: seq<Byte>, p: nat, a: seq<Byte>, b: seq<Byte>)
    requires ReadsAt(t, p, a + b)
    ensures ReadsAt(t, p, a) && ReadsAt(t, p + |a|, b) && p + |a| + |b| <= |t|
  {
    var s := t[p..p + |a + b|];
    assert s[..|a|] == a && s[|a|..] == b;
    assert t[p..p + |a|] == s[..|a|];
    assert t[p + |a|..p + |a| + |b|] == s[|a|..];
  }

  lemma Join(t: seq<Byte>, p: nat, a: seq<Byte>, b: seq<Byte>)
    requires ReadsAt(t, p, a) && ReadsAt(t, p + |a|, b)
    ensures ReadsAt(t, p, a + b)
  {
    assert t[p..p + |a + b|] == t[p..p + |a|] + t[p + |a|..p + |a| + |b|];
  }

  /** Three pieces in front of an end: the first, the second, and the third with the end. */
  lemma SplitThree(t: seq<Byte>, p: nat, a: seq<Byte>, b: seq<Byte>, c: seq<Byte>, end: seq<Byte>)
    requires ReadsAt(t, p, a + b + c + end)
    ensures ReadsAt(t, p, a) && ReadsAt(t, p + |a|, b) && ReadsAt(t, p + |a| + |b|, c + end)
  {
    Split(t, p, a + b + c, end);
    Split(t, p, a + b, c);
    Split(t, p, a, b);
    Join(t, p + |a| + |b|, c, end);
  }

  lemma ByteAt(t: seq<Byte>, p: nat, s: seq<Byte>, i: nat)
    requires ReadsAt(t, p, s) && i < |s|
    ensures p + |s| <= |t| && t[p + i] == s[i]
  {
    assert t[p..p + |s|][i] == t[p + i];
  }

  // ----- blanks -----

  predicate IsBlank(c: Byte) { c == SPACE || c == TAB || c == CR || c == LF }

  /** The end of the blanks that start at `p`. */
  function BlankEnd(t: seq<Byte>, p: nat): (e: nat)
    requires p <= |t|
    ensures p <= e <= |t| && (e < |t| ==> !IsBlank(t[e])) && forall i :: p <= i < e ==> IsBlank(t[i])
    decreases |t| - p
  {
    if p < |t| && IsBlank(t[p]) then BlankEnd(t, p + 1) else p
  }

  /** Neither a blank nor the start of a comment. */
  predicate Solid(c: Byte) { !IsSpace(c) && c != SLASH }

  lemma {:induction false} SkipBlanks(t: seq<Byte>, p: nat, e: nat)
    requires p <= e <= |t| && forall i :: p <= i < e ==> IsBlank(t[i])
    ensures SkipSpaces(t, p) == SkipSpaces(t, e)
    decreases e - p
  {
    if p < e {
      SkipBlanks(t, p + 1, e);
    }
  }

  /** The blanks before a solid byte are exactly what is skipped. */
  lemma SkipToSolid(t: seq<Byte>, p: nat, e: nat)
    requires p <= e < |t| && (forall i :: p <= i < e ==> IsBlank(t[i])) && Solid(t[e])
    ensures SkipSpaces(t, p) == e
  {
    SkipBlanks(t, p, e);
  }

  lemma {:induction false} IndentIsBlank(depth: nat)
    ensures forall i :: 0 <= i < |Indent(depth)| ==> Indent(depth)[i] == SPACE
  {
    if depth > 0 {
      IndentIsBlank(depth - 1);
    }
  }

  lemma SkipLineBreak(t: seq<Byte>, p: nat, pretty: bool, depth: nat)
    requires ReadsAt(t, p, LineBreak(pretty, depth))
    ensures forall i :: p <= i < p + |LineBreak(pretty, depth)| ==> IsBlank(t[i])
  {
    IndentIsBlank(depth);
    forall i | p <= i < p + |LineBreak(pretty, depth)| ensures IsBlank(t[i]) {
      ByteAt(t, p, LineBreak(pretty, depth), i - p);
    }
  }

  /** A printed value may be followed by blanks and then the end, a comma or a bracket. */
  predicate Follows(t: seq<Byte>, q: nat)
    requires q <= |t|
  {
    var e := BlankEnd(t, q);
    e == |t| || t[e] == COMMA || t[e] == RBRACKET || t[e] == RBRACE
  }

  // ----- strings -----

  /** Printing one byte of a string and reading it back. */
  lemma EscapeByteReads(t: seq<Byte>, p: nat, c: Byte, acc: seq<Byte>)
    requires ReadsAt(t, p, EscapeByte(c)) && c != NUL
    ensures StringBody(t, p, true, acc) == StringBody(t, p + |EscapeByte(c)|, true, acc + [c])
  {
    var e := EscapeByte(c);
    assert forall i :: 0 <= i < |e| ==> t[p + i] == e[i] by {
      forall i | 0 <= i < |e| ensures t[p + i] == e[i] {
        ByteAt(t, p, e, i);
      }
    }
    assert t[p] == e[0];
    if |e| >= 2 {
      assert t[p + 1] == e[1];
    }
    if |e| == 6 {
      assert t[p + 2] == e[2] && t[p + 3] == e[3] && t[p + 4] == e[4] && t[p + 5] == e[5];
      assert Hex4(t, p + 2) == Some(c);
      assert ParseEscape(t, p) == Done([c], p + 5);
    }
  }

  lemma {:induction false} EscapedReads(t: seq<Byte>, p: nat, s: seq<Byte>, acc: seq<Byte>)
    requires ReadsAt(t, p, EscapeAll(s) + [QUOTE]) && NUL !in s
    ensures StringBody(t, p, true, acc) == Done(acc + s, p + |EscapeAll(s)| + 1)
    decreases |s|
  {
    hide EscapeByte, ParseEscape, ReadsAt;
    if s == [] {
      ByteAt(t, p, EscapeAll(s) + [QUOTE], 0);
      assert acc + s == acc;
    } else {
      var e := EscapeByte(s[0]);
      assert EscapeAll(s) + [QUOTE] == e + (EscapeAll(s[1..]) + [QUOTE]);
      Split(t, p, e, EscapeAll(s[1..]) + [QUOTE]);
      EscapeByteReads(t, p, s[0], acc);
      EscapedReads(t, p + |e|, s[1..], acc + [s[0]]);
      assert acc + [s[0]] + s[1..] == acc + s;
    }
  }

  /** A printed string reads back as itself, and the parser stops right behind it. */
  lemma QuotedReads(t: seq<Byte>, p: nat, q: nat, s: seq<Byte>)
    requires p <= |t| && SkipSpaces(t, p) == q && ReadsAt(t, q, Quoted(s)) && NUL !in s
    ensures StartsQuoted(t, p) && ParseString(t, p) == Done(s, q + |Quoted(s)|)
  {
    CStringOfNulFree(s);
    assert Quoted(s) == [QUOTE] + (EscapeAll(s) + [QUOTE]);
    Split(t, q, [QUOTE], EscapeAll(s) + [QUOTE]);
    ByteAt(t, q, [QUOTE], 0);
    EscapedReads(t, q + 1, s, []);
    assert [] + s == s;
  }

  // ----- unquoted tokens -----

  lemma {:induction false} TokenReads(t: seq<Byte>, p: nat, e: nat, acc: seq<Byte>)
    requires p <= e <= |t| && (e < |t| ==> IsDelim(t[e]))
    requires forall i :: p <= i < e ==> !IsDelim(t[i]) && t[i] != BACKSLASH
    ensures StringBody(t, p, false, acc) == Done(acc + t[p..e], e)
    decreases e - p
  {
    if p == e {
      assert acc + t[p..e] == acc;
    } else {
      TokenReads(t, p + 1, e, acc + [t[p]]);
      assert acc + [t[p]] + t[p + 1..e] == acc + t[p..e];
    }
  }

  /** A printed scalar that is not a string is a token that ParseConst understands. */
  predicate PlainToken(s: seq<Byte>)
  {
    s != [] && forall i :: 0 <= i < |s| ==> !IsDelim(s[i]) && s[i] != BACKSLASH && s[i] != QUOTE && Solid(s[i])
  }

  /** The token is read up to the next delimiter, together with the blanks behind it. */
  lemma TokenSpan(t: seq<Byte>, q: nat, token: seq<Byte>)
    requires ReadsAt(t, q, token) && PlainToken(token) && Follows(t, q + |token|)
    ensures var e := BlankEnd(t, q + |token|);
            && SkipSpaces(t, q) == q < |t| && t[q] != QUOTE
            && ParseString(t, q) == Done(token + t[q + |token|..e], e)
  {
    hide SkipSpaces, StringBody, ReadsAt;
    var b := q + |token|;
    var e := BlankEnd(t, b);
    forall i | 0 <= i < |token| ensures t[q + i] == token[i] {
      ByteAt(t, q, token, i);
    }
    assert t[q] == token[0];
    SkipToSolid(t, q, q);
    forall i | q <= i < e ensures !IsDelim(t[i]) && t[i] != BACKSLASH {
      if i < b {
        assert t[q + (i - q)] == token[i - q];
      }
    }
    TokenReads(t, q, e, []);
    assert [] + t[q..e] == token + t[b..e];
  }

  /** The blanks behind a token are trimmed and there is no NUL to end it early. */
  lemma TokenTrims(token: seq<Byte>, pad: seq<Byte>)
    requires PlainToken(token) && forall i :: 0 <= i < |pad| ==> IsBlank(pad[i])
    ensures CString(Trim(token + pad)) == token
  {
    TrimPadded(token, pad);
    CStringOfNulFree(token);
  }

  lemma PlainTokenReads(t: seq<Byte>, q: nat, token: seq<Byte>, d: Json)
    requires ReadsAt(t, q, token) && PlainToken(token) && Follows(t, q + |token|)
    requires ParseConst(token) == Some(d)
    ensures ParseValue(t, q) == Done(d, BlankEnd(t, q + |token|))
  {
    hide ParseString, Trim, CString;
    var pad := t[q + |token|..BlankEnd(t, q + |token|)];
    TokenSpan(t, q, token);
    TokenTrims(token, pad);
    TokenTrims(token, []);
    assert token + [] == token;
    assert ParseConst(token + pad) == ParseConst(token);
  }

  lemma DecimalIsPlain(n: int)
    ensures PlainToken(Decimal(n))
  {
    var s := Decimal(n);
    forall i | 0 <= i < |s| ensures s[i] == MINUS || IsDigit(s[i]) {
    }
  }

  /** A token that starts with a sign or a digit is none of the constants. */
  lemma NumberIsNoConstant(s: seq<Byte>)
    requires s != [] && (s[0] == MINUS || IsDigit(s[0]))
    ensures !CaseEqual(s, TRUE) && !CaseEqual(s, FALSE) && !CaseEqual(s, NULL)
  {
    assert ToUpper(s[0]) == s[0] && ToUpper(TRUE[0]) == 84 && ToUpper(FALSE[0]) == 70 && ToUpper(NULL[0]) == 78;
  }

  lemma DecimalIsLong(n: int)
    requires INT64_MIN <= n <= INT64_MAX
    ensures ParseConst(Decimal(n)) == Some(Long(n))
  {
    hide Decimal, Trim, CString, CaseEqual, StrToLong, StrToDoubleReads, PlainToken;
    var s := Decimal(n);
    DecimalIsPlain(n);
    TokenTrims(s, []);
    assert s + [] == s;
    NumberIsNoConstant(s);
    assert DOT !in s;
    StrToLongOfDecimal(n);
  }

  lemma ConstantReads(c: seq<Byte>)
    requires c == TRUE || c == FALSE || c == NULL
    ensures PlainToken(c)
    ensures ParseConst(c) == Some(if c == NULL then Null else Bool(c == TRUE))
  {
    TokenTrims(c, []);
    assert c + [] == c;
    assert ToUpper(TRUE[0]) != ToUpper(NULL[0]);
  }

  // ----- documents -----

  ghost predicate Printable(d: Json)
  {
    match d
    case Long(n) => INT64_MIN <= n <= INT64_MAX
    case Double(_) => false
    case Str(s) => NUL !in s
    case Array(items) => forall i :: 0 <= i < |items| ==> Printable(items[i])
    case Object(members) => DistinctKeys(members) && forall i :: 0 <= i < |members| ==> PrintableMember(members[i])
    case _ => true
  }

  ghost predicate PrintableMember(m: Pair<seq<Byte>, Json>)
  {
    NUL !in m.key && Printable(m.value)
  }

  function Max(a: nat, b: nat): nat { if a < b then b else a }

  /** The levels of nesting: a scalar has one. */
  function Levels(d: Json): nat
    decreases d, 1
  {
    match d
    case Array(items) => 1 + LevelsOfItems(items)
    case Object(members) => 1 + LevelsOfMembers(members)
    case _ => 1
  }

  function LevelsOfItems(items: seq<Json>): nat
    decreases items, 0
  {
    if items == [] then 0 else Max(Levels(items[0]), LevelsOfItems(items[1..]))
  }

  function LevelsOfMembers(members: seq<Pair<seq<Byte>, Json>>): nat
    decreases members, 0
  {
    if members == [] then 0 else Max(LevelsOfMember(members[0]), LevelsOfMembers(members[1..]))
  }

  function LevelsOfMember(m: Pair<seq<Byte>, Json>): nat
    decreases m, 2
  {
    Levels(m.value)
  }

  /** The first byte of a printed document tells its kind. */
  lemma FirstByte(d: Json, pretty: bool, depth: nat)
    requires Printable(d)
    ensures var s := Print(d, pretty, depth);
            s != [] && Solid(s[0]) && s[0] != RBRACKET && s[0] != RBRACE
            && (s[0] == LBRACE <==> d.Object?) && (s[0] == LBRACKET <==> d.Array?) && (s[0] == QUOTE <==> d.Str?)
  {
  }

  /** What the parser makes of a document printed at `q`: the document if it is not too deep,
      and it stops at the end of the print or of the blanks behind it. */
  ghost predicate ReadAs<T>(t: seq<Byte>, r: Parsed<T>, v: T, fits: bool, q: nat)
    requires q <= |t|
  {
    if fits then r.Done? && r.value == v && (r.pos == q || r.pos == BlankEnd(t, q)) else r.Fail?
  }

  lemma {:induction false} BaseReads(t: seq<Byte>, p: nat, d: Json, pretty: bool, ind: nat, depth: nat)
    requires p <= |t| && Printable(d)
    requires ReadsAt(t, SkipSpaces(t, p), Print(d, pretty, ind))
    requires Follows(t, SkipSpaces(t, p) + |Print(d, pretty, ind)|)
    ensures ReadAs(t, ParseBase(t, p, depth), d, depth + Levels(d) <= MAX_DEPTH,
                   SkipSpaces(t, p) + |Print(d, pretty, ind)|)
    decreases d, 1
  {
    hide Print, PrintItems, PrintMembers, ParseItems, ParseMembers, ParseValue, ReadsAt, Follows, BlankEnd,
      SkipSpaces, Max, LevelsOfMember;
    var q := SkipSpaces(t, p);
    FirstByte(d, pretty, ind);
    ByteAt(t, q, Print(d, pretty, ind), 0);
    if depth < MAX_DEPTH {
      match d
      case Array(items) =>
        ArrayShape(t, q, items, pretty, ind);
        ItemsRead(t, q + 1, q + 1, items, pretty, ind, depth + 1, []);
        assert [] + items == items;
      case Object(members) =>
        ObjectShape(t, q, members, pretty, ind);
        MembersRead(t, q + 1, members, pretty, ind, depth + 1, []);
        PutAllDistinct([], members);
        assert [] + members == members;
      case _ => ScalarReads(t, q, d, pretty, ind);
    }
  }

  lemma StringReads(t: seq<Byte>, q: nat, text: seq<Byte>)
    requires ReadsAt(t, q, Quoted(text)) && NUL !in text
    ensures ParseValue(t, q) == Done(Str(text), q + |Quoted(text)|)
  {
    hide ReadsAt, Quoted, ParseString, SkipSpaces;
    QuotedStart(text);
    ByteAt(t, q, Quoted(text), 0);
    SkipToSolid(t, q, q);
    QuotedReads(t, q, q, text);
    CStringOfNulFree(text);
  }

  /** Strings, numbers and constants. */
  lemma ScalarReads(t: seq<Byte>, q: nat, d: Json, pretty: bool, ind: nat)
    requires Printable(d) && !d.Array? && !d.Object?
    requires ReadsAt(t, q, Print(d, pretty, ind)) && Follows(t, q + |Print(d, pretty, ind)|)
    ensures ReadAs(t, ParseValue(t, q), d, true, q + |Print(d, pretty, ind)|)
  {
    hide ReadsAt, Quoted, ParseValue, Decimal, ParseConst, PlainToken, Follows, BlankEnd;
    match d
    case Str(text) =>
      StringReads(t, q, text);
    case Long(n) =>
      DecimalIsPlain(n);
      DecimalIsLong(n);
      PlainTokenReads(t, q, Decimal(n), d);
    case Bool(b) =>
      ConstantReads(if b then TRUE else FALSE);
      PlainTokenReads(t, q, if b then TRUE else FALSE, d);
    case _ =>
      ConstantReads(NULL);
      PlainTokenReads(t, q, NULL, d);
  }

  lemma ArrayShape(t: seq<Byte>, q: nat, items: seq<Json>, pretty: bool, ind: nat)
    requires ReadsAt(t, q, Print(Array(items), pretty, ind))
    ensures q + 1 <= |t| && ReadsAt(t, q + 1, PrintItems(items, pretty, ind) + [RBRACKET])
    ensures |Print(Array(items), pretty, ind)| == |PrintItems(items, pretty, ind)| + 2
  {
    hide PrintItems;
    var body := PrintItems(items, pretty, ind);
    Split(t, q, [LBRACKET] + body, [RBRACKET]);
    Split(t, q, [LBRACKET], body);
    Join(t, q + 1, body, [RBRACKET]);
  }

  /** What stands behind the members of an object. */
  function ObjectEnd(members: seq<Pair<seq<Byte>, Json>>, pretty: bool, ind: nat): seq<Byte>
  {
    (if members == [] then [] else LineBreak(pretty, ind)) + [RBRACE]
  }

  lemma ObjectShape(t: seq<Byte>, q: nat, members: seq<Pair<seq<Byte>, Json>>, pretty: bool, ind: nat)
    requires ReadsAt(t, q, Print(Object(members), pretty, ind))
    ensures ReadsAt(t, q + 1, PrintMembers(members, pretty, ind) + ObjectEnd(members, pretty, ind))
    ensures |Print(Object(members), pretty, ind)|
            == 1 + |PrintMembers(members, pretty, ind)| + |ObjectEnd(members, pretty, ind)|
  {
    hide PrintMembers, LineBreak, ReadsAt;
    var body := PrintMembers(members, pretty, ind);
    var brk := if members == [] then [] else LineBreak(pretty, ind);
    assert Print(Object(members), pretty, ind) == [LBRACE] + body + brk + [RBRACE];
    SplitThree(t, q, [LBRACE], body, brk, [RBRACE]);
    Join(t, q + 1, body, brk + [RBRACE]);
  }

  /** A comma or a closing bracket ends the blanks. */
  lemma DelimStops(t: seq<Byte>, e: nat)
    requires e < |t| && (t[e] == COMMA || t[e] == RBRACKET || t[e] == RBRACE)
    ensures BlankEnd(t, e) == e == SkipSpaces(t, e) && Follows(t, e)
  {
  }

  /** The text between two items: a comma, and a blank if pretty. */
  lemma ItemBreakShape(t: seq<Byte>, e: nat, pretty: bool)
    requires ReadsAt(t, e, ItemBreak(pretty))
    ensures e < |t| && t[e] == COMMA
    ensures e + |ItemBreak(pretty)| <= |t| && forall i :: e + 1 <= i < e + |ItemBreak(pretty)| ==> IsBlank(t[i])
  {
    ByteAt(t, e, ItemBreak(pretty), 0);
    if pretty {
      ByteAt(t, e, ItemBreak(pretty), 1);
    }
  }

  /** What stands between an item and the rest of its array. */
  function Separator(n: nat, pretty: bool): seq<Byte>
  {
    if n == 1 then [] else ItemBreak(pretty)
  }

  /** One round of the loop over the items. */
  lemma ItemsRound(t: seq<Byte>, p: nat, q: nat, depth: nat, acc: seq<Json>, item: Parsed<Json>, e: nat)
    requires p <= q < |t| && e < |t| && SkipSpaces(t, p) == q && t[q] != RBRACKET
    requires item == ParseBase(t, q, depth)
    requires item.Done? ==> SkipSpaces(t, item.pos) == e && (t[e] == RBRACKET || t[e] == COMMA)
    ensures ParseItems(t, p, depth, acc) ==
            if item.Fail? then Fail
            else if t[e] == RBRACKET then Done(acc + [item.value], e + 1)
            else ParseItems(t, e + 1, depth, acc + [item.value])
  {
  }

  lemma {:induction false} ItemsRead(t: seq<Byte>, p: nat, q: nat, items: seq<Json>, pretty: bool, ind: nat, depth: nat,
                                     acc: seq<Json>)
    requires p <= q <= |t| && forall i :: p <= i < q ==> IsBlank(t[i])
    requires forall i :: 0 <= i < |items| ==> Printable(items[i])
    requires ReadsAt(t, q, PrintItems(items, pretty, ind) + [RBRACKET])
    ensures ParseItems(t, p, depth, acc) ==
            if items == [] || depth + LevelsOfItems(items) <= MAX_DEPTH
            then Done(acc + items, q + |PrintItems(items, pretty, ind)| + 1) else Fail
    decreases items, 0
  {
    hide Print, ParseBase, ParseItems, Levels, ReadsAt, SkipSpaces, BlankEnd, IsBlank, Printable;
    if items == [] {
      ItemsEnd(t, p, q, depth, acc);
      assert acc + items == acc;
    } else {
      var one := Print(items[0], pretty, ind + 1);
      var sep := Separator(|items|, pretty);
      var rest := PrintItems(items[1..], pretty, ind);
      assert PrintItems(items, pretty, ind) == one + sep + rest;
      SplitThree(t, q, one, sep, rest, [RBRACKET]);
      var e := q + |one|;
      if |items| == 1 {
        assert items == [items[0]] && rest == [];
        ByteAt(t, e, [] + [RBRACKET], 0);
      } else {
        ItemBreakShape(t, e, pretty);
      }
      DelimStops(t, e);
      FirstItemReads(t, p, q, items[0], pretty, ind, depth);
      ItemsRound(t, p, q, depth, acc, ParseBase(t, q, depth), e);
      if |items| > 1 {
        ItemsRead(t, e + 1, e + |sep|, items[1..], pretty, ind, depth, acc + [items[0]]);
        assert acc + [items[0]] + items[1..] == acc + items;
      }
    }
  }

  lemma ItemsEnd(t: seq<Byte>, p: nat, q: nat, depth: nat, acc: seq<Json>)
    requires p <= q <= |t| && (forall i :: p <= i < q ==> IsBlank(t[i])) && ReadsAt(t, q, [] + [RBRACKET])
    ensures ParseItems(t, p, depth, acc) == Done(acc, q + 1)
  {
    ByteAt(t, q, [] + [RBRACKET], 0);
    SkipToSolid(t, p, q);
  }

  lemma {:induction false} FirstItemReads(t: seq<Byte>, p: nat, q: nat, item: Json, pretty: bool, ind: nat, depth: nat)
    requires p <= q <= |t| && (forall i :: p <= i < q ==> IsBlank(t[i])) && Printable(item)
    requires ReadsAt(t, q, Print(item, pretty, ind + 1))
    requires var e := q + |Print(item, pretty, ind + 1)|;
             BlankEnd(t, e) == e < |t| && (t[e] == COMMA || t[e] == RBRACKET)
    ensures SkipSpaces(t, p) == q < |t| && t[q] != RBRACKET
    ensures ParseBase(t, q, depth) ==
            if depth + Levels(item) <= MAX_DEPTH then Done(item, q + |Print(item, pretty, ind + 1)|) else Fail
    decreases item, 2
  {
    hide Print;
    FirstByte(item, pretty, ind + 1);
    ByteAt(t, q, Print(item, pretty, ind + 1), 0);
    SkipToSolid(t, p, q);
    SkipToSolid(t, q, q);
    BaseReads(t, q, item, pretty, ind + 1, depth);
  }

  /** Behind the last member stand a line break and the closing brace. */
  lemma ObjectEndShape(t: seq<Byte>, e: nat, members: seq<Pair<seq<Byte>, Json>>, pretty: bool, ind: nat)
    requires members != [] && ReadsAt(t, e, ObjectEnd(members, pretty, ind))
    ensures Follows(t, e)
    ensures var b := e + |LineBreak(pretty, ind)|; b < |t| && BlankEnd(t, e) == b == SkipSpaces(t, e) && t[b] == RBRACE
  {
    var brk := LineBreak(pretty, ind);
    Split(t, e, brk, [RBRACE]);
    SkipLineBreak(t, e, pretty, ind);
    ByteAt(t, e + |brk|, [RBRACE], 0);
    BlankEndIs(t, e, e + |brk|);
    SkipToSolid(t, e, e + |brk|);
  }

  lemma {:induction false} BlankEndIs(t: seq<Byte>, p: nat, e: nat)
    requires p <= e < |t| && (forall i :: p <= i < e ==> IsBlank(t[i])) && !IsBlank(t[e])
    ensures BlankEnd(t, p) == e
    decreases e - p
  {
    if p < e {
      BlankEndIs(t, p + 1, e);
    }
  }

  lemma QuotedStart(s: seq<Byte>)
    ensures |Quoted(s)| > 0 && Quoted(s)[0] == QUOTE
  {
  }

  /** A printed member splits into a line break, its name, a colon and its value. */
  lemma MemberShape(t: seq<Byte>, p: nat, m: Pair<seq<Byte>, Json>, pretty: bool, ind: nat)
    requires ReadsAt(t, p, PrintMember(m, pretty, ind))
    ensures var q := p + |LineBreak(pretty, ind + 1)|;
            var c := q + |Quoted(m.key)|;
            var v := c + (if pretty then 2 else 1);
            && q < |t| && (forall i :: p <= i < q ==> IsBlank(t[i])) && ReadsAt(t, q, Quoted(m.key)) && t[q] == QUOTE
            && c < |t| && t[c] == COLON && v <= |t| && (forall i :: c + 1 <= i < v ==> IsBlank(t[i]))
            && ReadsAt(t, v, Print(m.value, pretty, ind + 1))
            && p + |PrintMember(m, pretty, ind)| == v + |Print(m.value, pretty, ind + 1)|
  {
    hide Print, PrintItems, PrintMembers, LineBreak, Quoted, ReadsAt;
    var brk := LineBreak(pretty, ind + 1);
    var key := Quoted(m.key);
    var colon := if pretty then [COLON, SPACE] else [COLON];
    var value := Print(m.value, pretty, ind + 1);
    assert PrintMember(m, pretty, ind) == brk + key + colon + value;
    QuotedStart(m.key);
    Split(t, p, brk + key + colon, value);
    Split(t, p, brk + key, colon);
    Split(t, p, brk, key);
    var q := p + |brk|;
    var c := q + |key|;
    SkipLineBreak(t, p, pretty, ind + 1);
    ByteAt(t, q, key, 0);
    ByteAt(t, c, colon, 0);
    if pretty {
      ByteAt(t, c, colon, 1);
    }
  }

  /** The name of a printed member is read back; the parser then stands before its value. */
  lemma NameReads(t: seq<Byte>, q: nat, key: seq<Byte>)
    requires ReadsAt(t, q, Quoted(key)) && NUL !in key && q < |t| && t[q] == QUOTE
    requires q + |Quoted(key)| < |t| && t[q + |Quoted(key)|] == COLON
    ensures ParseName(t, q) == Done(key, q + |Quoted(key)| + 1)
  {
    assert SkipSpaces(t, q) == q;
    QuotedReads(t, q, q, key);
    CStringOfNulFree(key);
    assert SkipSpaces(t, q + |Quoted(key)|) == q + |Quoted(key)|;
  }

  /** One round of the loop over the members. */
  lemma MembersRound(t: seq<Byte>, p: nat, q: nat, depth: nat, acc: seq<Pair<seq<Byte>, Json>>,
                     name: Parsed<seq<Byte>>, item: Parsed<Json>, e: nat)
    requires p <= q < |t| && e < |t| && SkipSpaces(t, p) == q && t[q] != RBRACE
    requires name == ParseName(t, q) && name.Done? && item == ParseBase(t, name.pos, depth)
    requires item.Done? ==> SkipSpaces(t, item.pos) == e && (t[e] == RBRACE || t[e] == COMMA)
    ensures ParseMembers(t, p, depth, acc) ==
            if item.Fail? then Fail
            else if t[e] == RBRACE then Done(Put(acc, name.value, item.value), e + 1)
            else ParseMembers(t, e + 1, depth, Put(acc, name.value, item.value))
  {
    hide SkipSpaces, ParseName, ParseBase, Put;
  }

  lemma {:induction false} MemberReads(t: seq<Byte>, v: nat, p: nat, m: Pair<seq<Byte>, Json>, pretty: bool, ind: nat,
                                       depth: nat)
    requires PrintableMember(m)
    requires p <= v <= |t| && forall i :: p <= i < v ==> IsBlank(t[i])
    requires ReadsAt(t, v, Print(m.value, pretty, ind + 1)) && Follows(t, v + |Print(m.value, pretty, ind + 1)|)
    ensures ReadAs(t, ParseBase(t, p, depth), m.value, depth + LevelsOfMember(m) <= MAX_DEPTH,
                   v + |Print(m.value, pretty, ind + 1)|)
    decreases m, 2
  {
    FirstByte(m.value, pretty, ind + 1);
    ByteAt(t, v, Print(m.value, pretty, ind + 1), 0);
    SkipToSolid(t, p, v);
    BaseReads(t, p, m.value, pretty, ind + 1, depth);
  }

  /** What putting members one after the other makes of a map. */
  function PutAll(acc: seq<Pair<seq<Byte>, Json>>, members: seq<Pair<seq<Byte>, Json>>): seq<Pair<seq<Byte>, Json>>
    decreases |members|
  {
    if members == [] then acc else PutAll(Put(acc, members[0].key, members[0].value), members[1..])
  }

  lemma {:induction false} PutAllDistinct(acc: seq<Pair<seq<Byte>, Json>>, members: seq<Pair<seq<Byte>, Json>>)
    requires DistinctKeys(acc + members)
    ensures PutAll(acc, members) == acc + members
    decreases |members|
  {
    if members == [] {
      assert acc + members == acc;
    } else {
      PutNewKey(acc, members);
      PutAllDistinct(acc + [members[0]], members[1..]);
    }
  }

  lemma PutNewKey(acc: seq<Pair<seq<Byte>, Json>>, members: seq<Pair<seq<Byte>, Json>>)
    requires members != [] && DistinctKeys(acc + members)
    ensures Put(acc, members[0].key, members[0].value) == acc + [members[0]]
    ensures acc + members == acc + [members[0]] + members[1..]
  {
    forall i | 0 <= i < |acc| ensures acc[i].key != members[0].key {
      assert (acc + members)[i] == acc[i] && (acc + members)[|acc|] == members[0];
    }
    WithoutAbsent(acc, members[0].key);
  }

  lemma {:induction false} MembersRead(t: seq<Byte>, p: nat, members: seq<Pair<seq<Byte>, Json>>, pretty: bool,
                                       ind: nat, depth: nat, acc: seq<Pair<seq<Byte>, Json>>)
    requires forall i :: 0 <= i < |members| ==> PrintableMember(members[i])
    requires ReadsAt(t, p, PrintMembers(members, pretty, ind) + ObjectEnd(members, pretty, ind))
    ensures ParseMembers(t, p, depth, acc) ==
            if members == [] || depth + LevelsOfMembers(members) <= MAX_DEPTH
            then Done(PutAll(acc, members),
                      p + |PrintMembers(members, pretty, ind)| + |ObjectEnd(members, pretty, ind)|)
            else Fail
    decreases members, 0
  {
    hide PrintMember, PrintMembers, ParseMembers, LevelsOfMember, LineBreak, ReadsAt, SkipSpaces, BlankEnd,
      PrintableMember, Put;
    if members == [] {
      NoMembers(t, p, pretty, ind, depth, acc);
    } else {
      var m := members[0];
      var e := p + |PrintMember(m, pretty, ind)|;
      MembersText(t, p, members, pretty, ind);
      if |members| == 1 {
        assert members == [m];
        ObjectEndShape(t, e, members, pretty, ind);
      } else {
        DelimStops(t, e);
      }
      FirstMemberReads(t, p, m, pretty, ind, depth, acc, BlankEnd(t, e));
      if |members| > 1 {
        MembersRead(t, e + 1, members[1..], pretty, ind, depth, Put(acc, m.key, m.value));
      }
    }
  }

  lemma NoMembers(t: seq<Byte>, p: nat, pretty: bool, ind: nat, depth: nat, acc: seq<Pair<seq<Byte>, Json>>)
    requires ReadsAt(t, p, PrintMembers([], pretty, ind) + ObjectEnd([], pretty, ind))
    ensures ParseMembers(t, p, depth, acc) == Done(acc, p + 1)
    ensures |PrintMembers([], pretty, ind)| == 0 && |ObjectEnd([], pretty, ind)| == 1
  {
    var end := PrintMembers([], pretty, ind) + ObjectEnd([], pretty, ind);
    assert end == [RBRACE];
    ByteAt(t, p, end, 0);
    SkipToSolid(t, p, p);
  }

  lemma FirstMemberText(members: seq<Pair<seq<Byte>, Json>>, pretty: bool, ind: nat)
    requires members != []
    ensures PrintMembers(members, pretty, ind) ==
            PrintMember(members[0], pretty, ind) + (if |members| == 1 then [] else [COMMA])
            + PrintMembers(members[1..], pretty, ind)
    ensures |members| == 1 ==> PrintMembers(members[1..], pretty, ind) == []
  {
    hide PrintMember;
  }

  /** The text of some members: the first, and what follows it. */
  lemma MembersText(t: seq<Byte>, p: nat, members: seq<Pair<seq<Byte>, Json>>, pretty: bool, ind: nat)
    requires members != [] && ReadsAt(t, p, PrintMembers(members, pretty, ind) + ObjectEnd(members, pretty, ind))
    ensures var one := PrintMember(members[0], pretty, ind);
            var e := p + |one|;
            && ReadsAt(t, p, one)
            && if |members| == 1
               then ReadsAt(t, e, ObjectEnd(members, pretty, ind)) && |PrintMembers(members, pretty, ind)| == |one|
               else
                 && e < |t| && t[e] == COMMA
                 && ReadsAt(t, e + 1, PrintMembers(members[1..], pretty, ind) + ObjectEnd(members[1..], pretty, ind))
                 && |PrintMembers(members, pretty, ind)| == |one| + 1 + |PrintMembers(members[1..], pretty, ind)|
                 && ObjectEnd(members[1..], pretty, ind) == ObjectEnd(members, pretty, ind)
  {
    hide PrintMember, PrintMembers, ReadsAt, LineBreak;
    var one := PrintMember(members[0], pretty, ind);
    var sep := if |members| == 1 then [] else [COMMA];
    var rest := PrintMembers(members[1..], pretty, ind);
    var end := ObjectEnd(members, pretty, ind);
    FirstMemberText(members, pretty, ind);
    SplitThree(t, p, one, sep, rest, end);
    if |members| == 1 {
      assert [] + end == end;
    } else {
      ByteAt(t, p + |one|, [COMMA], 0);
    }
  }

  /** One round of the loop over the members, on a printed member. */
  lemma {:induction false} FirstMemberReads(t: seq<Byte>, p: nat, m: Pair<seq<Byte>, Json>, pretty: bool, ind: nat,
                                            depth: nat, acc: seq<Pair<seq<Byte>, Json>>, e: nat)
    requires PrintableMember(m) && ReadsAt(t, p, PrintMember(m, pretty, ind))
    requires e == BlankEnd(t, p + |PrintMember(m, pretty, ind)|) == SkipSpaces(t, p + |PrintMember(m, pretty, ind)|)
    requires e < |t| && (t[e] == COMMA || t[e] == RBRACE)
    ensures ParseMembers(t, p, depth, acc) ==
            if depth + LevelsOfMember(m) > MAX_DEPTH then Fail
            else if t[e] == RBRACE then Done(Put(acc, m.key, m.value), e + 1)
            else ParseMembers(t, e + 1, depth, Put(acc, m.key, m.value))
    decreases m, 3
  {
    hide Print, PrintMember, ParseMembers, ParseName, ParseBase, LevelsOfMember, Quoted, Put, ReadsAt, LineBreak,
      IsBlank, SkipSpaces, BlankEnd, Printable;
    var q := p + |LineBreak(pretty, ind + 1)|;
    var c := q + |Quoted(m.key)|;
    var v := c + (if pretty then 2 else 1);
    MemberShape(t, p, m, pretty, ind);
    SkipToSolid(t, p, q);
    NameReads(t, q, m.key);
    MemberReads(t, v, c + 1, m, pretty, ind, depth);
    SkipToSolid(t, e, e);
    MembersRound(t, p, q, depth, acc, ParseName(t, q), ParseBase(t, c + 1, depth), e);
  }

  /** Printing, compact or pretty, and parsing again gives back the same document with the same
      key order exactly when the document has at most 512 levels; a deeper one is rejected. */
  lemma RoundTrip(d: Json, pretty: bool)
    requires Printable(d)
    ensures Parse(Print(d, pretty, 0)) == if Levels(d) <= 512 then Some(d) else None
  {
    hide Print, ParseBase, Levels, Printable;
    var t := Print(d, pretty, 0);
    FirstByte(d, pretty, 0);
    assert SkipSpaces(t, 0) == 0;
    assert t[0..0 + |t|] == t;
    BaseReads(t, 0, d, pretty, 0, 0);
  }
}
