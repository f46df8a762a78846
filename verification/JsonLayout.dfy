/**
 How printed JSON texts are laid out: compact texts have no blank outside strings, pretty ones
 differ from them in blanks only and give each member its own indented line.
 */
module JsonLayout {
  import opened Text
  import opened OrderedMap
  import opened JsonText

  // ----- the characters -----

  /** The grammar's characters. */
  lemma Characters()
    ensures [QUOTE, STAR, COMMA, SLASH, COLON, LBRACKET, BACKSLASH, RBRACKET, LBRACE, RBRACE] == Ascii("\"*,/:[\\]{}")
    ensures [SPACE, TAB, CR, LF, PLUS, MINUS, DOT] == Ascii(" \t\r\n+-.") && NUL == 0
    ensures TRUE == Ascii("true") && FALSE == Ascii("false") && NULL == Ascii("null")
  {
  }

  const HEX := "0123456789ABCDEF"

  /** How a byte of a string is printed. */
  lemma EscapeIs(c: Byte)
    ensures EscapeByte(c) ==
      if c == 8 then Ascii("\\b") else if c == 9 then Ascii("\\t") else if c == 10 then Ascii("\\n")
      else if c == 12 then Ascii("\\f") else if c == 13 then Ascii("\\r")
      else if c == '\"' as int then Ascii("\\\"") else if c == '\\' as int then Ascii("\\\\")
      else if c < 32 then Ascii("\\u00") + [HEX[c / 16] as int, HEX[c % 16] as int]
      else [c]
  {
  }

  // ----- compact and pretty -----

  /** A text without the blanks outside its strings. */
  function Strip(s: seq<Byte>, inside: bool): seq<Byte>
  {
    if s == [] then []
    else if inside then
      if s[0] == '\\' as int && |s| > 1 then s[..2] + Strip(s[2..], true)
      else [s[0]] + Strip(s[1..], s[0] != '\"' as int)
    else if s[0] == ' ' as int || s[0] == '\t' as int || s[0] == '\r' as int || s[0] == '\n' as int then
      Strip(s[1..], false)
    else [s[0]] + Strip(s[1..], s[0] == '\"' as int)
  }

  predicate Outside(s: seq<Byte>)
  {
    forall i :: 0 <= i < |s| ==> s[i] != '\"' as int
  }

  predicate Dense(s: seq<Byte>)
  {
    Outside(s) && forall i :: 0 <= i < |s| ==> s[i] !in Ascii(" \t\r\n")
  }

  lemma {:induction false} StripDense(s: seq<Byte>, rest: seq<Byte>)
    requires Dense(s)
    ensures Strip(s + rest, false) == s + Strip(rest, false)
  {
    if s == [] {
      assert s + rest == rest;
    } else {
      var c := s[0];
      assert c !in Ascii(" \t\r\n");
      assert Ascii(" \t\r\n")[0] == ' ' as int && Ascii(" \t\r\n")[1] == '\t' as int
          && Ascii(" \t\r\n")[2] == '\r' as int && Ascii(" \t\r\n")[3] == '\n' as int;
      assert (s + rest)[1..] == s[1..] + rest;
      StripDense(s[1..], rest);
    }
  }

  lemma {:induction false} StripBlank(s: seq<Byte>, rest: seq<Byte>)
    requires forall i :: 0 <= i < |s| ==> s[i] == ' ' as int || s[i] == '\n' as int
    ensures Strip(s + rest, false) == Strip(rest, false)
  {
    if s == [] {
      assert s + rest == rest;
    } else {
      assert (s + rest)[1..] == s[1..] + rest;
      StripBlank(s[1..], rest);
    }
  }

  lemma StripEscaped(c: Byte, rest: seq<Byte>)
    ensures Strip(EscapeByte(c) + rest, true) == EscapeByte(c) + Strip(rest, true)
  {
    hide HexChar;
    var e := EscapeByte(c);
    var t := e + rest;
    if |e| == 1 {
      assert t[1..] == rest;
    } else if |e| == 2 {
      assert t[..2] == e && t[2..] == rest;
    } else {
      HexIsPlain(c / 16);
      HexIsPlain(c % 16);
      assert t[..2] == e[..2];
      StripPlain(e[2..], rest);
      assert t[2..] == e[2..] + rest;
      assert e == e[..2] + e[2..];
    }
  }

  lemma HexIsPlain(v: int)
    requires 0 <= v < 16
    ensures HexChar(v) != QUOTE && HexChar(v) != BACKSLASH
  {
  }

  lemma {:induction false} StripPlain(s: seq<Byte>, rest: seq<Byte>)
    requires forall i :: 0 <= i < |s| ==> s[i] != '\"' as int && s[i] != '\\' as int
    ensures Strip(s + rest, true) == s + Strip(rest, true)
  {
    if s == [] {
      assert s + rest == rest;
    } else {
      assert (s + rest)[1..] == s[1..] + rest;
      StripPlain(s[1..], rest);
    }
  }

  lemma {:induction false} StripString(s: seq<Byte>, rest: seq<Byte>)
    ensures Strip(EscapeAll(s) + [QUOTE] + rest, true) == EscapeAll(s) + [QUOTE] + Strip(rest, false)
  {
    hide EscapeByte;
    if s == [] {
      assert ([QUOTE] + rest)[1..] == rest;
      assert EscapeAll(s) + [QUOTE] + rest == [QUOTE] + rest;
    } else {
      assert EscapeAll(s) + [QUOTE] + rest == EscapeByte(s[0]) + (EscapeAll(s[1..]) + [QUOTE] + rest);
      StripEscaped(s[0], EscapeAll(s[1..]) + [QUOTE] + rest);
      StripString(s[1..], rest);
    }
  }

  /** Strings are left as they are. */
  lemma StripQuoted(s: seq<Byte>, rest: seq<Byte>)
    ensures Strip(Quoted(s) + rest, false) == Quoted(s) + Strip(rest, false)
  {
    hide EscapeAll, CString;
    var body := EscapeAll(CString(s)) + [QUOTE];
    assert Quoted(s) + rest == [QUOTE] + (body + rest);
    assert ([QUOTE] + (body + rest))[1..] == body + rest;
    StripString(CString(s), rest);
  }

  /** The digits a double is printed with are no blanks and no quotes. */
  ghost predicate DenseDoubles(d: Json)
  {
    match d
    case Double(token) => Dense(token)
    case Array(items) => forall i :: 0 <= i < |items| ==> DenseDoubles(items[i])
    case Object(members) => forall i :: 0 <= i < |members| ==> DenseDoubles(members[i].value)
    case _ => true
  }

  lemma {:induction false} StripPrint(d: Json, pretty: bool, n: nat, m: nat, rest: seq<Byte>)
    requires DenseDoubles(d)
    ensures Strip(Print(d, pretty, n) + rest, false) == Print(d, false, m) + Strip(rest, false)
    decreases d, 1
  {
    hide PrintItems, PrintMembers, Quoted, Strip, Decimal, LineBreak;
    match d
    case Str(text) => StripQuoted(text, rest);
    case Array(items) =>
      var body := PrintItems(items, pretty, n);
      assert Print(d, pretty, n) + rest == [LBRACKET] + (body + ([RBRACKET] + rest));
      StripDense([LBRACKET], body + ([RBRACKET] + rest)) by { OneIsDense(LBRACKET); }
      StripItems(items, pretty, n, m, [RBRACKET] + rest);
      StripDense([RBRACKET], rest) by { OneIsDense(RBRACKET); }
    case Object(members) =>
      var body, brk := PrintMembers(members, pretty, n), if members == [] then [] else LineBreak(pretty, n);
      assert Print(d, pretty, n) + rest == [LBRACE] + (body + (brk + ([RBRACE] + rest)));
      StripDense([LBRACE], body + (brk + ([RBRACE] + rest))) by { OneIsDense(LBRACE); }
      StripMembers(members, pretty, n, m, brk + ([RBRACE] + rest));
      StripBlank(brk, [RBRACE] + rest) by { BreakIsBlank(pretty, n); }
      StripDense([RBRACE], rest) by { OneIsDense(RBRACE); }
      assert LineBreak(false, m) == [] by { NoBreak(m); }
    case _ =>
      ScalarIsDense(d, pretty, n);
      StripDense(Print(d, pretty, n), rest);
  }

  lemma OneIsDense(c: Byte)
    requires c > 34
    ensures Dense([c])
  {
  }

  lemma NoBreak(m: nat)
    ensures LineBreak(false, m) == []
  {
  }

  lemma {:induction false} BreakIsBlank(pretty: bool, n: nat)
    ensures var s := LineBreak(pretty, n);
            forall i :: 0 <= i < |s| ==> s[i] == ' ' as int || s[i] == '\n' as int
  {
    IndentIs(n);
  }

  /** Two blanks per level. */
  lemma {:induction false} IndentIs(n: nat)
    ensures Indent(n) == seq(2 * n, _ => ' ' as int)
  {
    if n > 0 {
      IndentIs(n - 1);
    }
  }

  lemma ScalarIsDense(d: Json, pretty: bool, n: nat)
    requires DenseDoubles(d) && !d.Str? && !d.Array? && !d.Object?
    ensures Dense(Print(d, pretty, n)) && Print(d, pretty, n) == Print(d, false, 0)
  {
    match d
    case Long(v) =>
      forall i | 0 <= i < |Decimal(v)| ensures Decimal(v)[i] > 34 {
        assert i == 0 || IsDigit(Decimal(v)[i]);
      }
    case _ =>
  }

  lemma {:induction false} StripItems(items: seq<Json>, pretty: bool, n: nat, m: nat, rest: seq<Byte>)
    requires forall i :: 0 <= i < |items| ==> DenseDoubles(items[i])
    ensures Strip(PrintItems(items, pretty, n) + rest, false) == PrintItems(items, false, m) + Strip(rest, false)
    decreases items, 0
  {
    hide Print, Strip;
    if items == [] {
      assert [] + rest == rest;
    } else {
      var first := Print(items[0], pretty, n + 1);
      var sep := if |items| == 1 then [] else ItemBreak(pretty);
      var more := PrintItems(items[1..], pretty, n) + rest;
      assert PrintItems(items, pretty, n) + rest == first + (sep + more);
      StripPrint(items[0], pretty, n + 1, m + 1, sep + more);
      StripComma(sep, if |items| == 1 then [] else ItemBreak(false), more);
      StripItems(items[1..], pretty, n, m, rest);
    }
  }

  /** A separator that is a comma, perhaps with a blank behind it. */
  lemma StripComma(sep: seq<Byte>, dense: seq<Byte>, rest: seq<Byte>)
    requires sep == dense == [] || (dense == [COMMA] && (sep == [COMMA] || sep == [COMMA, SPACE]))
          || (dense == [COLON] && (sep == [COLON] || sep == [COLON, SPACE]))
    ensures Strip(sep + rest, false) == dense + Strip(rest, false)
  {
    hide Strip;
    if sep == [] {
      assert sep + rest == rest;
    } else {
      OneIsDense(sep[0]);
      assert sep + rest == dense + (sep[1..] + rest);
      StripDense(dense, sep[1..] + rest);
      StripBlank(sep[1..], rest);
    }
  }

  lemma {:induction false} StripMember(x: Pair<seq<Byte>, Json>, pretty: bool, n: nat, m: nat, rest: seq<Byte>)
    requires DenseDoubles(x.value)
    ensures Strip(PrintMember(x, pretty, n) + rest, false) == PrintMember(x, false, m) + Strip(rest, false)
    decreases x, 2
  {
    hide Print, Strip, Quoted, LineBreak;
    var brk := LineBreak(pretty, n + 1);
    var colon := if pretty then [COLON, SPACE] else [COLON];
    var value := Print(x.value, pretty, n + 1);
    assert PrintMember(x, pretty, n) + rest == brk + (Quoted(x.key) + (colon + (value + rest)));
    StripBlank(brk, Quoted(x.key) + (colon + (value + rest))) by { BreakIsBlank(pretty, n + 1); }
    StripQuoted(x.key, colon + (value + rest));
    StripComma(colon, [COLON], value + rest);
    StripPrint(x.value, pretty, n + 1, m + 1, rest);
    NoBreak(m + 1);
  }

  lemma {:induction false} StripMembers(members: seq<Pair<seq<Byte>, Json>>, pretty: bool, n: nat, m: nat,
                                        rest: seq<Byte>)
    requires forall i :: 0 <= i < |members| ==> DenseDoubles(members[i].value)
    ensures Strip(PrintMembers(members, pretty, n) + rest, false)
            == PrintMembers(members, false, m) + Strip(rest, false)
    decreases members, 0
  {
    hide PrintMember, Strip;
    if members == [] {
      assert [] + rest == rest;
    } else {
      var first := PrintMember(members[0], pretty, n);
      var sep := if |members| == 1 then [] else [COMMA];
      var more := PrintMembers(members[1..], pretty, n) + rest;
      assert PrintMembers(members, pretty, n) + rest == first + (sep + more);
      StripMember(members[0], pretty, n, m, sep + more);
      StripComma(sep, sep, more);
      StripMembers(members[1..], pretty, n, m, rest);
    }
  }

  /** Without the blanks outside its strings a printed text, compact or pretty, is the compact text
      of its document; so the compact text has no such blank. */
  lemma PrettyIsCompact(d: Json, pretty: bool)
    requires DenseDoubles(d)
    ensures Strip(Print(d, pretty, 0), false) == Print(d, false, 0)
  {
    hide Print;
    StripPrint(d, pretty, 0, 0, []);
    assert Print(d, pretty, 0) + [] == Print(d, pretty, 0);
  }

  // ----- lines -----

  /** The parts with a separator between each two of them. */
  function Joined(parts: seq<seq<Byte>>, sep: seq<Byte>): seq<Byte>
  {
    if parts == [] then [] else if |parts| == 1 then parts[0] else parts[0] + sep + Joined(parts[1..], sep)
  }

  /** A line of its own behind two blanks per level. */
  function Line(level: nat): seq<Byte>
  {
    ['\n' as int] + seq(2 * level, _ => ' ' as int)
  }

  /** A member in pretty text. */
  function MemberLine(x: Pair<seq<Byte>, Json>, level: nat): seq<Byte>
  {
    Line(level) + Quoted(x.key) + Ascii(": ") + Print(x.value, true, level)
  }

  lemma {:induction false} MembersJoined(members: seq<Pair<seq<Byte>, Json>>, level: nat)
    ensures PrintMembers(members, true, level)
            == Joined(seq(|members|, i requires 0 <= i < |members| => MemberLine(members[i], level + 1)), Ascii(","))
  {
    hide Print, Quoted;
    if members != [] {
      var lines := seq(|members|, i requires 0 <= i < |members| => MemberLine(members[i], level + 1));
      var rest := members[1..];
      MembersJoined(rest, level);
      assert lines[1..] == seq(|rest|, i requires 0 <= i < |rest| => MemberLine(rest[i], level + 1));
      IndentIs(level + 1);
      assert PrintMember(members[0], true, level) == MemberLine(members[0], level + 1);
      if |members| == 1 {
        assert PrintMembers(rest, true, level) == [];
      }
    }
  }

  lemma {:induction false} ItemsJoined(items: seq<Json>, pretty: bool, level: nat)
    ensures PrintItems(items, pretty, level)
            == Joined(seq(|items|, i requires 0 <= i < |items| => Print(items[i], pretty, level + 1)),
                      if pretty then Ascii(", ") else Ascii(","))
  {
    hide Print;
    if items != [] {
      var parts := seq(|items|, i requires 0 <= i < |items| => Print(items[i], pretty, level + 1));
      var rest := items[1..];
      ItemsJoined(rest, pretty, level);
      assert parts[1..] == seq(|rest|, i requires 0 <= i < |rest| => Print(rest[i], pretty, level + 1));
      if |items| == 1 {
        assert PrintItems(rest, pretty, level) == [];
      }
    }
  }

  /** Pretty objects: each member on its own line one level deeper, the closing brace on its own. */
  lemma PrettyObject(members: seq<Pair<seq<Byte>, Json>>, level: nat)
    ensures Print(Object(members), true, level) ==
      if members == [] then Ascii("{}")
      else Ascii("{")
           + Joined(seq(|members|, i requires 0 <= i < |members| => MemberLine(members[i], level + 1)), Ascii(","))
           + Line(level) + Ascii("}")
  {
    hide PrintMembers, Joined, MemberLine;
    MembersJoined(members, level);
    IndentIs(level);
    if members == [] {
      assert PrintMembers(members, true, level) == [] by { NoMembers(level); }
    }
  }

  lemma NoMembers(level: nat)
    ensures PrintMembers([], true, level) == []
  {
  }

  /** Arrays stay on one line. */
  lemma ArrayText(items: seq<Json>, pretty: bool, level: nat)
    ensures Print(Array(items), pretty, level) ==
      Ascii("[")
      + Joined(seq(|items|, i requires 0 <= i < |items| => Print(items[i], pretty, level + 1)),
               if pretty then Ascii(", ") else Ascii(","))
      + Ascii("]")
  {
    hide PrintItems, Joined;
    ItemsJoined(items, pretty, level);
  }
}
