/**
 The recursive-descent parser and the printer of nanojson.c in their own form: a context whose
 cursor, remaining length, line count and depth change in place, and loops that append to
 buffers. Each method is proved against the functions of module JsonText.
 */
module JsonParser {
  import opened Util
  import opened Text
  import opened OrderedMap
  import opened JsonText
  import Utf8

  /** The line feeds before position `p`. */
  function LinesBefore(t: seq<Byte>, p: nat): nat
    requires p <= |t|
  {
    if p == 0 then 0 else LinesBefore(t, p - 1) + if t[p - 1] == LF then 1 else 0
  }

  class Parser {
    const orig: seq<Byte>
    var curr: nat
    var remain: int
    var linecnt: nat
    var depth: nat

    /** Consumed plus remaining bytes make up the text, and the consumed lines are counted. */
    ghost predicate Valid()
      reads this
    {
      remain >= 0 && curr + remain == |orig| && linecnt == LinesBefore(orig, curr)
    }

    constructor (text: seq<Byte>)
      ensures Valid() && orig == text && curr == 0 && depth == 0
    {
      orig := text;
      curr, remain, linecnt, depth := 0, |text|, 0, 0;
    }

    method Consume(n: nat)
      requires Valid()
      modifies this`curr, this`remain, this`linecnt
      ensures Valid() && curr == Min(old(curr) + n, |orig|)
    {
      var count := n;
      if remain < count {
        count := remain;
      }
      remain := remain - count;
      while count > 0
        invariant 0 <= count && curr + count + remain == |orig| && remain >= 0
        invariant linecnt == LinesBefore(orig, curr)
        invariant curr + count == Min(old(curr) + n, |orig|)
      {
        count := count - 1;
        if orig[curr] == LF {
          linecnt := linecnt + 1;
        }
        curr := curr + 1;
      }
    }

    method SkipSpaces() returns (more: bool)
      requires Valid()
      modifies this`curr, this`remain, this`linecnt
      ensures Valid() && curr == JsonText.SkipSpaces(orig, old(curr)) && (more <==> curr < |orig|)
    {
      var retry := true;
      while retry
        invariant Valid() && old(curr) <= curr
        invariant JsonText.SkipSpaces(orig, curr) == JsonText.SkipSpaces(orig, old(curr))
        invariant !retry ==> JsonText.SkipSpaces(orig, curr) == curr
        decreases remain, retry
      {
        retry := false;
        while IsSpace(At(orig, curr)) && remain > 0
          invariant Valid() && old(curr) <= curr
          invariant JsonText.SkipSpaces(orig, curr) == JsonText.SkipSpaces(orig, old(curr))
          decreases remain
        {
          Consume(1);
        }
        if remain > 0 && At(orig, curr) == SLASH {
          if At(orig, curr + 1) == SLASH {
            SkipLineComment();
            retry := true;
          } else if At(orig, curr + 1) == STAR {
            SkipBlockComment();
            retry := true;
          }
        }
      }
      more := remain > 0;
    }

    method SkipLineComment()
      requires Valid() && curr + 2 <= |orig|
      modifies this`curr, this`remain, this`linecnt
      ensures Valid() && curr == LineEnd(orig, old(curr) + 2) && remain < old(remain)
    {
      Consume(2);
      while At(orig, curr) != CR && At(orig, curr) != LF && At(orig, curr) != NUL && remain > 0
        invariant Valid() && old(curr) + 2 <= curr
        invariant LineEnd(orig, curr) == LineEnd(orig, old(curr) + 2)
        decreases remain
      {
        Consume(1);
      }
    }

    method SkipBlockComment()
      requires Valid() && curr + 2 <= |orig|
      modifies this`curr, this`remain, this`linecnt
      ensures Valid() && remain < old(remain)
      ensures var e := BlockEnd(orig, old(curr) + 2); curr == if e < |orig| then e + 2 else e
    {
      Consume(2);
      while !(At(orig, curr) == STAR && At(orig, curr + 1) == SLASH) && remain > 0
        invariant Valid() && old(curr) + 2 <= curr
        invariant BlockEnd(orig, curr) == BlockEnd(orig, old(curr) + 2)
        decreases remain
      {
        Consume(1);
      }
      if remain > 0 {
        Consume(2);
      }
    }

    /** Appends what an escape stands for; the cursor ends on its last character. */
    method ParseEscape(sbuf: seq<Byte>) returns (ok: bool, out: seq<Byte>)
      requires Valid() && remain > 0
      modifies this`curr, this`remain, this`linecnt
      ensures Valid()
      ensures var r := JsonText.ParseEscape(orig, old(curr));
              (ok <==> r.Done?) && (ok ==> curr == r.pos && out == sbuf + r.value)
    {
      Consume(1);
      if remain <= 0 {
        return false, sbuf;
      }
      var c := orig[curr];
      if c == LETTER_B {
        out := sbuf + [8];
      } else if c == LETTER_F {
        out := sbuf + [12];
      } else if c == LETTER_T {
        out := sbuf + [TAB];
      } else if c == LETTER_R {
        out := sbuf + [CR];
      } else if c == LETTER_N {
        out := sbuf + [LF];
      } else if c == LETTER_U {
        ok, out := ParseUnicode(sbuf);
        return;
      } else {
        out := sbuf + [c];
      }
      ok := true;
    }

    method ParseUnicode(sbuf: seq<Byte>) returns (ok: bool, out: seq<Byte>)
      requires Valid() && remain > 0
      modifies this`curr, this`remain, this`linecnt
      ensures Valid()
      ensures var r := JsonText.ParseUnicode(orig, old(curr));
              (ok <==> r.Done?) && (ok ==> curr == r.pos && out == sbuf + r.value)
    {
      if remain < 5 {
        return false, sbuf;
      }
      var hex := Hex4(orig, curr + 1);
      if hex.None? {
        return false, sbuf;
      }
      var cp := hex.value;
      Consume(4);
      if 0xD800 <= cp <= 0xDBFF {
        if remain < 7 || orig[curr + 1] != BACKSLASH || orig[curr + 2] != LETTER_U {
          return false, sbuf;
        }
        var low := Hex4(orig, curr + 3);
        if low.None? || low.value < 0xDC00 || low.value > 0xDFFF {
          return false, sbuf;
        }
        cp := 0x10000 + (cp - 0xD800) * 0x400 + (low.value - 0xDC00);
        Consume(6);
      } else if 0xDC00 <= cp <= 0xDFFF {
        return false, sbuf;
      }
      return true, sbuf + Utf8.Encode(cp);
    }

    /** Reads a string or an unquoted token; `isconst` tells which. */
    method ParseString() returns (ok: bool, res: seq<Byte>, isconst: bool)
      requires Valid()
      modifies this`curr, this`remain, this`linecnt
      ensures Valid()
      ensures var r := JsonText.ParseString(orig, old(curr));
              (ok <==> r.Done?) && (ok ==> curr == r.pos && res == r.value)
      ensures ok ==> (isconst <==> !StartsQuoted(orig, old(curr)))
    {
      hide JsonText.SkipSpaces, JsonText.ParseEscape, LinesBefore;
      res, isconst := [], false;
      var more := SkipSpaces();
      if !more {
        return false, res, isconst;
      }
      var quoted := orig[curr] == QUOTE;
      if quoted {
        Consume(1);
      }
      ghost var start := curr;
      var isend := false;
      while remain > 0 && !isend
        invariant Valid() && start <= curr
        invariant if isend then StringBody(orig, start, quoted, []) == Done(res, curr)
                  else StringBody(orig, start, quoted, []) == StringBody(orig, curr, quoted, res)
        decreases remain, !isend
      {
        var c := orig[curr];
        if c == BACKSLASH {
          var escaped;
          escaped, res := ParseEscape(res);
          if !escaped {
            return false, res, isconst;
          }
        } else if quoted && c == QUOTE {
          isend := true;
        } else if !quoted && IsDelim(c) {
          isend := true;
          break;
        } else {
          res := res + [c];
        }
        Consume(1);
      }
      return true, res, !quoted;
    }

    /** The value of an unquoted token, by the branches of the source. */
    method ParseConst(token: seq<Byte>) returns (r: Option<Json>)
      ensures r == JsonText.ParseConst(token)
    {
      var str := Trim(token);
      var cstr := CString(str);
      if |str| < 5 {
        if CaseEqual(cstr, TRUE) {
          return Some(Bool(true));
        } else if CaseEqual(cstr, FALSE) {
          return Some(Bool(false));
        } else if CaseEqual(cstr, NULL) {
          return Some(Null);
        }
      }
      var first := At(cstr, 0);
      if first == NUL || first == 84 || first == 116 || first == 70 || first == 102 {
        if CaseEqual(cstr, TRUE) {
          return Some(Bool(true));
        } else if CaseEqual(cstr, FALSE) {
          return Some(Bool(false));
        }
        assert CaseEqual(cstr, NULL) ==> ToUpper(cstr[0]) == ToUpper(NULL[0]);
        return None;
      }
      assert CaseEqual(cstr, TRUE) ==> ToUpper(cstr[0]) == ToUpper(TRUE[0]);
      assert CaseEqual(cstr, FALSE) ==> ToUpper(cstr[0]) == ToUpper(FALSE[0]);
      if first == 78 || first == 110 {
        return if CaseEqual(cstr, NULL) then Some(Null) else None;
      }
      assert CaseEqual(cstr, NULL) ==> ToUpper(cstr[0]) == ToUpper(NULL[0]);
      if DOT in cstr {
        return if StrToDoubleReads(cstr) then Some(Double(cstr)) else None;
      }
      var value := StrToLong(cstr);
      return if value.Some? then Some(Long(value.value)) else None;
    }

    method ParseValue() returns (r: Option<Json>)
      requires Valid()
      modifies this`curr, this`remain, this`linecnt
      ensures Valid()
      ensures var e := JsonText.ParseValue(orig, old(curr));
              (r.Some? <==> e.Done?) && (r.Some? ==> r.value == e.value && curr == e.pos)
    {
      var more := SkipSpaces();
      if !more {
        return None;
      }
      var ok, sbuf, isconst := ParseString();
      if !ok {
        return None;
      }
      if isconst {
        r := ParseConst(sbuf);
      } else {
        r := Some(Str(CString(sbuf)));
      }
    }

    /** A document; whatever happens, the depth is restored. */
    method ParseBase() returns (r: Option<Json>)
      requires Valid()
      modifies this
      ensures Valid() && depth == old(depth)
      ensures var e := JsonText.ParseBase(orig, old(curr), old(depth));
              (r.Some? <==> e.Done?) && (r.Some? ==> r.value == e.value && curr == e.pos)
      decreases remain, 1
    {
      hide ParseItems, ParseMembers, JsonText.ParseValue;
      if depth >= MAX_DEPTH {
        return None;
      }
      depth := depth + 1;
      r := None;
      var more := SkipSpaces();
      if more {
        if orig[curr] == LBRACE {
          r := ParseObject();
        } else if orig[curr] == LBRACKET {
          r := ParseArray();
        } else {
          r := ParseValue();
        }
      }
      depth := depth - 1;
    }

    method ParseArray() returns (r: Option<Json>)
      requires Valid() && remain > 0 && orig[curr] == LBRACKET
      modifies this
      ensures Valid() && depth == old(depth)
      ensures var e := ParseItems(orig, old(curr) + 1, depth, []);
              (r.Some? <==> e.Done?) && (r.Some? ==> r.value == Array(e.value) && curr == e.pos)
      decreases remain, 0
    {
      hide JsonText.ParseBase, JsonText.SkipSpaces, LinesBefore;
      Consume(1);
      var items := [];
      ghost var whole := ParseItems(orig, curr, depth, []);
      while remain > 0
        invariant Valid() && depth == old(depth) && curr > old(curr)
        invariant whole == ParseItems(orig, curr, depth, items)
        decreases remain
      {
        ghost var start := curr;
        var more := SkipSpaces();
        if !more {
          return None;
        }
        if orig[curr] == RBRACKET {
          Consume(1);
          return Some(Array(items));
        }
        var item := ParseBase();
        if item.None? {
          return None;
        }
        items := items + [item.value];
        more := SkipSpaces();
        if !more {
          return None;
        }
        if orig[curr] == RBRACKET {
          Consume(1);
          return Some(Array(items));
        } else if orig[curr] == COMMA {
          Consume(1);
        } else {
          return None;
        }
      }
      return Some(Array(items));
    }

    method ParseObject() returns (r: Option<Json>)
      requires Valid() && remain > 0 && orig[curr] == LBRACE
      modifies this
      ensures Valid() && depth == old(depth)
      ensures var e := ParseMembers(orig, old(curr) + 1, depth, []);
              (r.Some? <==> e.Done?) && (r.Some? ==> r.value == Object(e.value) && curr == e.pos)
      decreases remain, 0
    {
      hide JsonText.ParseBase, JsonText.SkipSpaces, JsonText.ParseName, Put, LinesBefore;
      Consume(1);
      var members := [];
      ghost var whole := ParseMembers(orig, curr, depth, []);
      while remain > 0
        invariant Valid() && depth == old(depth) && curr > old(curr)
        invariant whole == ParseMembers(orig, curr, depth, members)
        decreases remain
      {
        var more := SkipSpaces();
        if !more {
          return None;
        }
        if orig[curr] == RBRACE {
          Consume(1);
          return Some(Object(members));
        }
        var name := ParseName();
        if name.None? {
          return None;
        }
        var value := ParseBase();
        if value.None? {
          return None;
        }
        members := Put(members, name.value, value.value);
        more := SkipSpaces();
        if !more {
          return None;
        }
        if orig[curr] == COMMA {
          Consume(1);
        } else if orig[curr] == RBRACE {
          Consume(1);
          return Some(Object(members));
        } else {
          return None;
        }
      }
      return Some(Object(members));
    }

    /** The name of a member, as a C string, and the colon behind it. */
    method ParseName() returns (r: Option<seq<Byte>>)
      requires Valid()
      modifies this`curr, this`remain, this`linecnt
      ensures Valid()
      ensures var e := JsonText.ParseName(orig, old(curr));
              (r.Some? <==> e.Done?) && (r.Some? ==> r.value == e.value && curr == e.pos)
    {
      var ok, name, _ := ParseString();
      if !ok {
        return None;
      }
      var more := SkipSpaces();
      if !more || orig[curr] != COLON {
        return None;
      }
      Consume(1);
      return Some(CString(name));
    }
  }

  /** Parsing terminates on every text, with the result of the specification. */
  method JsonParse(text: seq<Byte>) returns (r: Option<Json>)
    ensures r == Parse(text)
  {
    var parser := new Parser(text);
    r := parser.ParseBase();
  }

  // ----- printing -----

  /** Appends a printed string to `buf`. */
  method AppendQuoted(s: seq<Byte>, buf: seq<Byte>) returns (out: seq<Byte>)
    ensures out == buf + Quoted(s)
  {
    hide EscapeByte;
    out := buf + [QUOTE];
    var i := 0;
    while At(s, i) != NUL
      invariant i <= |CString(s)|
      invariant out + EscapeAll(CString(s)[i..]) == buf + [QUOTE] + EscapeAll(CString(s))
      decreases |s| - i
    {
      assert CString(s)[i..][1..] == CString(s)[i + 1..];
      out := out + EscapeByte(s[i]);
      i := i + 1;
    }
    assert CString(s)[i..] == [] && out + [] == out;
    out := out + [QUOTE];
    assert buf + Quoted(s) == buf + [QUOTE] + EscapeAll(CString(s)) + [QUOTE];
  }

  method AppendIndent(depth: nat, buf: seq<Byte>) returns (out: seq<Byte>)
    ensures out == buf + Indent(depth)
  {
    out := buf;
    var left := depth;
    while left > 0
      invariant out == buf + Indent(depth - left) && 0 <= left <= depth
    {
      out := out + [SPACE, SPACE];
      left := left - 1;
    }
  }

  /** The keys of every object are distinct, as its map keeps them. */
  ghost predicate KeysDistinct(d: Json)
  {
    match d
    case Array(items) => forall i :: 0 <= i < |items| ==> KeysDistinct(items[i])
    case Object(members) => DistinctKeys(members) && forall i :: 0 <= i < |members| ==> KeysDistinct(members[i].value)
    case _ => true
  }

  /** What is still to print of an array when the loop stands before item `i`. */
  function ItemsFrom(items: seq<Json>, i: nat, pretty: bool, depth: nat): seq<Byte>
    requires i <= |items|
  {
    (if 0 < i < |items| then ItemBreak(pretty) else []) + PrintItems(items[i..], pretty, depth)
  }

  /** What is still to print of the members of an object when the loop stands before member `i`. */
  function MembersFrom(members: seq<Pair<seq<Byte>, Json>>, i: nat, pretty: bool, depth: nat): seq<Byte>
    requires i <= |members|
  {
    (if 0 < i < |members| then [COMMA] else []) + PrintMembers(members[i..], pretty, depth)
  }

  lemma ItemsFromStep(items: seq<Json>, i: nat, pretty: bool, depth: nat)
    requires i < |items|
    ensures ItemsFrom(items, i, pretty, depth) ==
            (if i > 0 then ItemBreak(pretty) else []) + Print(items[i], pretty, depth + 1)
            + ItemsFrom(items, i + 1, pretty, depth)
  {
    hide Print;
    assert items[i..][1..] == items[i + 1..];
  }

  lemma MembersFromStep(members: seq<Pair<seq<Byte>, Json>>, i: nat, pretty: bool, depth: nat)
    requires i < |members|
    ensures MembersFrom(members, i, pretty, depth) ==
            (if i > 0 then [COMMA] else []) + PrintMember(members[i], pretty, depth)
            + MembersFrom(members, i + 1, pretty, depth)
  {
    hide PrintMember;
    assert members[i..][1..] == members[i + 1..];
  }

  lemma Regroup(buf: seq<Byte>, a: seq<Byte>, b: seq<Byte>, c: seq<Byte>)
    ensures buf + (a + b + c) == buf + a + b + c
    ensures buf + [] + b == buf + b
  {
  }

  /** Appends a printed document to `buf`. */
  method AppendJson(d: Json, pretty: bool, depth: nat, buf: seq<Byte>) returns (out: seq<Byte>)
    requires KeysDistinct(d)
    ensures out == buf + Print(d, pretty, depth)
    decreases d, 2
  {
    match d
    case Long(n) => out := buf + Decimal(n);
    case Double(token) => out := buf + token;
    case Str(s) => out := AppendQuoted(s, buf);
    case Bool(b) => out := buf + if b then TRUE else FALSE;
    case Null => out := buf + NULL;
    case Array(items) => out := AppendArray(items, pretty, depth, buf);
    case Object(members) => out := AppendObject(members, pretty, depth, buf);
  }

  method AppendArray(items: seq<Json>, pretty: bool, depth: nat, buf: seq<Byte>) returns (out: seq<Byte>)
    requires forall i :: 0 <= i < |items| ==> KeysDistinct(items[i])
    ensures out == buf + ([LBRACKET] + PrintItems(items, pretty, depth) + [RBRACKET])
    decreases items, 1
  {
    hide Print, PrintItems, ItemsFrom, ItemBreak;
    out := buf + [LBRACKET];
    ghost var start := out;
    var i := 0;
    AllItemsLeft(items, pretty, depth);
    while i < |items|
      invariant 0 <= i <= |items|
      invariant out + ItemsFrom(items, i, pretty, depth) == start + PrintItems(items, pretty, depth)
    {
      ItemsFromStep(items, i, pretty, depth);
      Regroup(out, if i > 0 then ItemBreak(pretty) else [], Print(items[i], pretty, depth + 1),
              ItemsFrom(items, i + 1, pretty, depth));
      if i > 0 {
        out := out + ItemBreak(pretty);
      }
      out := AppendJson(items[i], pretty, depth + 1, out);
      i := i + 1;
    }
    assert out + [] == out;
    out := out + [RBRACKET];
  }

  lemma AllItemsLeft(items: seq<Json>, pretty: bool, depth: nat)
    ensures ItemsFrom(items, 0, pretty, depth) == PrintItems(items, pretty, depth)
    ensures ItemsFrom(items, |items|, pretty, depth) == []
  {
    assert items[0..] == items && items[|items|..] == [];
  }

  /** The loop prints the keys in the order of the map and looks each value up by its key. */
  method AppendObject(members: seq<Pair<seq<Byte>, Json>>, pretty: bool, depth: nat, buf: seq<Byte>)
    returns (out: seq<Byte>)
    requires DistinctKeys(members) && forall i :: 0 <= i < |members| ==> KeysDistinct(members[i].value)
    ensures out == buf + ([LBRACE] + PrintMembers(members, pretty, depth)
                          + (if members == [] then [] else LineBreak(pretty, depth)) + [RBRACE])
    decreases members, 1
  {
    hide Print, PrintMembers, PrintMember, MembersFrom, Get, KeysDistinct, Indent;
    out := buf + [LBRACE];
    ghost var start := out;
    var i := 0;
    AllMembersLeft(members, pretty, depth);
    while i < |members|
      invariant 0 <= i <= |members|
      invariant out + MembersFrom(members, i, pretty, depth) == start + PrintMembers(members, pretty, depth)
    {
      MembersFromStep(members, i, pretty, depth);
      Regroup(out, if i > 0 then [COMMA] else [], PrintMember(members[i], pretty, depth),
              MembersFrom(members, i + 1, pretty, depth));
      if i > 0 {
        out := out + [COMMA];
      }
      GetAt(members, i);
      var item := Get(members, members[i].key);
      out := AppendMember(Pair(members[i].key, item.value), pretty, depth, out);
      i := i + 1;
    }
    assert out + [] == out;
    if |members| > 0 && pretty {
      out := out + [LF];
      out := AppendIndent(depth, out);
    }
    out := out + [RBRACE];
  }

  lemma AllMembersLeft(members: seq<Pair<seq<Byte>, Json>>, pretty: bool, depth: nat)
    ensures MembersFrom(members, 0, pretty, depth) == PrintMembers(members, pretty, depth)
    ensures MembersFrom(members, |members|, pretty, depth) == []
  {
    assert members[0..] == members && members[|members|..] == [];
  }

  method AppendMember(m: Pair<seq<Byte>, Json>, pretty: bool, depth: nat, buf: seq<Byte>) returns (out: seq<Byte>)
    requires KeysDistinct(m.value)
    ensures out == buf + PrintMember(m, pretty, depth)
    decreases m, 3
  {
    hide Print, Quoted;
    out := buf;
    if pretty {
      out := out + [LF];
      out := AppendIndent(depth + 1, out);
    }
    out := AppendQuoted(m.key, out);
    out := out + if pretty then [COLON, SPACE] else [COLON];
    out := AppendJson(m.value, pretty, depth + 1, out);
  }
}
