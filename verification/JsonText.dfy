/**
 JSON documents and the language that nanojson.c reads: RFC 8259 with comments, unquoted
 tokens and other leniences, as functions of the text and a position in it.
 */
module JsonText {
  import opened Util
  import opened Text
  import opened OrderedMap
  import Utf8

  const MAX_DEPTH := 512

  const QUOTE: Byte := 34
  const STAR: Byte := 42
  const COMMA: Byte := 44
  const SLASH: Byte := 47
  const COLON: Byte := 58
  const LBRACKET: Byte := 91
  const BACKSLASH: Byte := 92
  const RBRACKET: Byte := 93
  const LBRACE: Byte := 123
  const RBRACE: Byte := 125
  const LETTER_B: Byte := 98
  const LETTER_F: Byte := 102
  const LETTER_N: Byte := 110
  const LETTER_R: Byte := 114
  const LETTER_T: Byte := 116
  const LETTER_U: Byte := 117

  const TRUE: seq<Byte> := [116, 114, 117, 101]
  const FALSE: seq<Byte> := [102, 97, 108, 115, 101]
  const NULL: seq<Byte> := [110, 117, 108, 108]

  /** A double is represented by the token it was read from. */
  datatype Json =
    | Long(value: int)
    | Double(token: seq<Byte>)
    | Str(text: seq<Byte>)
    | Bool(b: bool)
    | Null
    | Array(items: seq<Json>)
    | Object(members: seq<Pair<seq<Byte>, Json>>)

  datatype Parsed<+T> = Fail | Done(value: T, pos: nat)

  // ----- blanks and comments -----

  /** The end of a line comment whose text starts at `p`; a NUL ends it too. */
  function LineEnd(t: seq<Byte>, p: nat): (e: nat)
    requires p <= |t|
    ensures p <= e <= |t|
    decreases |t| - p
  {
    if p < |t| && t[p] != CR && t[p] != LF && t[p] != NUL then LineEnd(t, p + 1) else p
  }

  /** The position of the closing star and slash of a block comment, or the end of the text. */
  function BlockEnd(t: seq<Byte>, p: nat): (e: nat)
    requires p <= |t|
    ensures p <= e <= |t|
    ensures e < |t| ==> e + 2 <= |t|
    decreases |t| - p
  {
    if p < |t| && !(t[p] == STAR && At(t, p + 1) == SLASH) then BlockEnd(t, p + 1) else p
  }

  /** Skips blanks, NULs and comments. */
  function SkipSpaces(t: seq<Byte>, p: nat): (e: nat)
    requires p <= |t|
    ensures p <= e <= |t|
    decreases |t| - p
  {
    if p == |t| then p
    else if IsSpace(t[p]) then SkipSpaces(t, p + 1)
    else if t[p] == SLASH && At(t, p + 1) == SLASH then SkipSpaces(t, LineEnd(t, p + 2))
    else if t[p] == SLASH && At(t, p + 1) == STAR then
      var e := BlockEnd(t, p + 2);
      SkipSpaces(t, if e < |t| then e + 2 else e)
    else p
  }

  // ----- strings and tokens -----

  /** The value of a hexadecimal digit, -1 for another byte. */
  function HexDigit(c: Byte): (v: int)
    ensures -1 <= v < 16
  {
    var u := ToUpper(c);
    if 65 <= u <= 70 then u - 55 else if 48 <= u <= 57 then u - 48 else -1
  }

  /** One byte from two hexadecimal digits at `p`. A NUL stands for 0xFF and is not passed. */
  function HexByte(t: seq<Byte>, p: nat): (r: Parsed<int>)
    ensures r.Done? ==> 0 <= r.value < 256
  {
    if At(t, p) == NUL then Done(0xFF, p)
    else if HexDigit(At(t, p)) < 0 || HexDigit(At(t, p + 1)) < 0 then Fail
    else Done(HexDigit(At(t, p)) * 16 + HexDigit(At(t, p + 1)), p + 2)
  }

  /** The number written with four hexadecimal digits at `p`. */
  function Hex4(t: seq<Byte>, p: nat): (r: Option<int>)
    ensures r.Some? ==> 0 <= r.value < 0x10000
  {
    var hi := HexByte(t, p);
    if hi.Fail? then None
    else
      var lo := HexByte(t, hi.pos);
      if lo.Fail? then None else Some(hi.value * 256 + lo.value)
  }

  /** The escape whose backslash is at `p`: the bytes it stands for and the position of its
      last character. */
  function ParseEscape(t: seq<Byte>, p: nat): (r: Parsed<seq<Byte>>)
    requires p < |t|
    ensures r.Done? ==> p < r.pos < |t|
  {
    var q := p + 1;
    if q == |t| then Fail
    else if t[q] == LETTER_B then Done([8], q)
    else if t[q] == LETTER_F then Done([12], q)
    else if t[q] == LETTER_T then Done([TAB], q)
    else if t[q] == LETTER_R then Done([CR], q)
    else if t[q] == LETTER_N then Done([LF], q)
    else if t[q] == LETTER_U then ParseUnicode(t, q)
    else Done([t[q]], q)
  }

  /** The rest of a "\u" escape whose `u` is at `q`. */
  function ParseUnicode(t: seq<Byte>, q: nat): (r: Parsed<seq<Byte>>)
    requires q < |t|
    ensures r.Done? ==> q < r.pos < |t|
  {
    if |t| - q < 5 || Hex4(t, q + 1).None? then Fail
    else
      var cp := Hex4(t, q + 1).value;
      if Utf8.IsHighSurrogate(cp) then
        if |t| - (q + 4) < 7 || t[q + 5] != BACKSLASH || t[q + 6] != LETTER_U then Fail
        else if Hex4(t, q + 7).None? || !Utf8.IsLowSurrogate(Hex4(t, q + 7).value) then Fail
        else Done(Utf8.Encode(Utf8.FromPair(cp, Hex4(t, q + 7).value)), q + 10)
      else if Utf8.IsLowSurrogate(cp) then Fail
      else Done(Utf8.Encode(cp), q + 4)
  }

  /** strchr(":,[]{}", c): the terminator counts as found. */
  predicate IsDelim(c: Byte)
  {
    c == COLON || c == COMMA || c == LBRACKET || c == RBRACKET || c == LBRACE || c == RBRACE || c == NUL
  }

  /** The body of a string or of an unquoted token; the end of the text ends both. */
  function StringBody(t: seq<Byte>, p: nat, quoted: bool, acc: seq<Byte>): (r: Parsed<seq<Byte>>)
    requires p <= |t|
    ensures r.Done? ==> p <= r.pos <= |t|
    decreases |t| - p
  {
    if p == |t| then Done(acc, p)
    else if t[p] == BACKSLASH then
      var e := ParseEscape(t, p);
      if e.Fail? then Fail else StringBody(t, e.pos + 1, quoted, acc + e.value)
    else if quoted && t[p] == QUOTE then Done(acc, p + 1)
    else if !quoted && IsDelim(t[p]) then Done(acc, p)
    else StringBody(t, p + 1, quoted, acc + [t[p]])
  }

  predicate StartsQuoted(t: seq<Byte>, p: nat)
    requires p <= |t|
  {
    At(t, SkipSpaces(t, p)) == QUOTE
  }

  function ParseString(t: seq<Byte>, p: nat): (r: Parsed<seq<Byte>>)
    requires p <= |t|
    ensures r.Done? ==> p <= r.pos <= |t|
  {
    var q := SkipSpaces(t, p);
    if q == |t| then Fail
    else if t[q] == QUOTE then StringBody(t, q + 1, true, [])
    else StringBody(t, q, false, [])
  }

  /** The value of an unquoted token. */
  function ParseConst(token: seq<Byte>): Option<Json>
  {
    var c := CString(Trim(token));
    var first := At(c, 0);
    if CaseEqual(c, TRUE) then Some(Bool(true))
    else if CaseEqual(c, FALSE) then Some(Bool(false))
    else if CaseEqual(c, NULL) then Some(Null)
    else if first == NUL || ToUpper(first) == 84 || ToUpper(first) == 70 || ToUpper(first) == 78 then None
    else if DOT in c then if StrToDoubleReads(c) then Some(Double(c)) else None
    else if StrToLong(c).Some? then Some(Long(StrToLong(c).value)) else None
  }

  function ParseValue(t: seq<Byte>, p: nat): (r: Parsed<Json>)
    requires p <= |t|
    ensures r.Done? ==> p <= r.pos <= |t|
  {
    var s := ParseString(t, SkipSpaces(t, p));
    if s.Fail? then Fail
    else if StartsQuoted(t, SkipSpaces(t, p)) then Done(Str(CString(s.value)), s.pos)
    else if ParseConst(s.value).Some? then Done(ParseConst(s.value).value, s.pos)
    else Fail
  }

  // ----- documents -----

  /** A document at `p`, inside `depth` open arrays and objects. */
  function ParseBase(t: seq<Byte>, p: nat, depth: nat): (r: Parsed<Json>)
    requires p <= |t|
    ensures r.Done? ==> p <= r.pos <= |t|
    decreases |t| - p, 0
  {
    var q := SkipSpaces(t, p);
    if depth >= MAX_DEPTH || q == |t| then Fail
    else if t[q] == LBRACE then
      var r := ParseMembers(t, q + 1, depth + 1, []);
      if r.Done? then Done(Object(r.value), r.pos) else Fail
    else if t[q] == LBRACKET then
      var r := ParseItems(t, q + 1, depth + 1, []);
      if r.Done? then Done(Array(r.value), r.pos) else Fail
    else ParseValue(t, q)
  }

  /** The loop over the items of an array; the end of the text ends it too. */
  function ParseItems(t: seq<Byte>, p: nat, depth: nat, acc: seq<Json>): (r: Parsed<seq<Json>>)
    requires p <= |t|
    ensures r.Done? ==> p <= r.pos <= |t|
    decreases |t| - p, 1
  {
    var q := SkipSpaces(t, p);
    if p == |t| then Done(acc, p)
    else if q == |t| then Fail
    else if t[q] == RBRACKET then Done(acc, q + 1)
    else
      var item := ParseBase(t, q, depth);
      if item.Fail? then Fail
      else
        var e := SkipSpaces(t, item.pos);
        if e == |t| then Fail
        else if t[e] == RBRACKET then Done(acc + [item.value], e + 1)
        else if t[e] == COMMA then ParseItems(t, e + 1, depth, acc + [item.value])
        else Fail
  }

  /** The name of a member and the colon behind it. */
  function ParseName(t: seq<Byte>, p: nat): (r: Parsed<seq<Byte>>)
    requires p <= |t|
    ensures r.Done? ==> p < r.pos <= |t|
  {
    var name := ParseString(t, p);
    if name.Fail? then Fail
    else
      var c := SkipSpaces(t, name.pos);
      if c == |t| || t[c] != COLON then Fail else Done(CString(name.value), c + 1)
  }

  /** The loop over the members of an object; a repeated name replaces its member, at the end. */
  function ParseMembers(t: seq<Byte>, p: nat, depth: nat, acc: seq<Pair<seq<Byte>, Json>>)
    : (r: Parsed<seq<Pair<seq<Byte>, Json>>>)
    requires p <= |t|
    ensures r.Done? ==> p <= r.pos <= |t|
    decreases |t| - p, 1
  {
    var q := SkipSpaces(t, p);
    if p == |t| then Done(acc, p)
    else if q == |t| then Fail
    else if t[q] == RBRACE then Done(acc, q + 1)
    else
      var name := ParseName(t, q);
      if name.Fail? then Fail
      else
        var item := ParseBase(t, name.pos, depth);
        if item.Fail? then Fail
        else
          var e := SkipSpaces(t, item.pos);
          if e == |t| then Fail
          else if t[e] == COMMA then ParseMembers(t, e + 1, depth, Put(acc, name.value, item.value))
          else if t[e] == RBRACE then Done(Put(acc, name.value, item.value), e + 1)
          else Fail
  }

  function Parse(t: seq<Byte>): Option<Json>
  {
    var r := ParseBase(t, 0, 0);
    if r.Done? then Some(r.value) else None
  }

  // ----- printing -----

  const BACKSPACE: Byte := 8
  const FORMFEED: Byte := 12

  function HexChar(v: int): Byte
    requires 0 <= v < 16
  {
    if v < 10 then 48 + v else 55 + v
  }

  /** How one byte of a string is printed. */
  function EscapeByte(c: Byte): seq<Byte>
  {
    if c == BACKSPACE then [BACKSLASH, LETTER_B]
    else if c == FORMFEED then [BACKSLASH, LETTER_F]
    else if c == CR then [BACKSLASH, LETTER_R]
    else if c == LF then [BACKSLASH, LETTER_N]
    else if c == TAB then [BACKSLASH, LETTER_T]
    else if c == QUOTE then [BACKSLASH, QUOTE]
    else if c == BACKSLASH then [BACKSLASH, BACKSLASH]
    else if c < 0x20 then [BACKSLASH, LETTER_U, 48, 48, HexChar(c / 16), HexChar(c % 16)]
    else [c]
  }

  function EscapeAll(s: seq<Byte>): seq<Byte>
  {
    if s == [] then [] else EscapeByte(s[0]) + EscapeAll(s[1..])
  }

  /** A printed string; printing stops at the first NUL. */
  function Quoted(s: seq<Byte>): seq<Byte>
  {
    [QUOTE] + EscapeAll(CString(s)) + [QUOTE]
  }

  function Indent(depth: nat): seq<Byte>
  {
    if depth == 0 then [] else Indent(depth - 1) + [SPACE, SPACE]
  }

  function LineBreak(pretty: bool, depth: nat): seq<Byte>
  {
    if pretty then [LF] + Indent(depth) else []
  }

  /** The printed text. The digits of a double are not modelled: its token stands for them. */
  function Print(d: Json, pretty: bool, depth: nat): seq<Byte>
    decreases d, 1
  {
    match d
    case Long(n) => Decimal(n)
    case Double(token) => token
    case Str(s) => Quoted(s)
    case Bool(b) => if b then TRUE else FALSE
    case Null => NULL
    case Array(items) => [LBRACKET] + PrintItems(items, pretty, depth) + [RBRACKET]
    case Object(members) =>
      [LBRACE] + PrintMembers(members, pretty, depth)
      + (if members == [] then [] else LineBreak(pretty, depth)) + [RBRACE]
  }

  /** What stands between two items of an array. */
  function ItemBreak(pretty: bool): seq<Byte>
  {
    if pretty then [COMMA, SPACE] else [COMMA]
  }

  function PrintItems(items: seq<Json>, pretty: bool, depth: nat): seq<Byte>
    decreases items, 0
  {
    if items == [] then []
    else
      Print(items[0], pretty, depth + 1)
      + (if |items| == 1 then [] else ItemBreak(pretty)) + PrintItems(items[1..], pretty, depth)
  }

  function PrintMember(m: Pair<seq<Byte>, Json>, pretty: bool, depth: nat): seq<Byte>
    decreases m, 2
  {
    LineBreak(pretty, depth + 1) + Quoted(m.key) + (if pretty then [COLON, SPACE] else [COLON])
    + Print(m.value, pretty, depth + 1)
  }

  function PrintMembers(members: seq<Pair<seq<Byte>, Json>>, pretty: bool, depth: nat): seq<Byte>
    decreases members, 0
  {
    if members == [] then []
    else
      PrintMember(members[0], pretty, depth)
      + (if |members| == 1 then [] else [COMMA]) + PrintMembers(members[1..], pretty, depth)
  }
}
