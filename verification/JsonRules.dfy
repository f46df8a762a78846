/**
 Rules of the JSON language that the round trip does not show: which value of a repeated name is
 kept, that commas and colons are needed, and what an escaped character stands for.
 */
module JsonRules {
  import opened Util
  import opened Text
  import opened OrderedMap
  import opened JsonText
  import G = JsonGaps
  import R = JsonRoundTrip

  type Member = Pair<seq<Byte>, Json>

  // ----- repeated names -----

  predicate Names(members: seq<Member>, key: seq<Byte>)
  {
    exists i :: 0 <= i < |members| && members[i].key == key
  }

  /** The members whose name does not come again. */
  function LastOnes(members: seq<Member>): seq<Member>
  {
    if members == [] then []
    else (if Names(members[1..], members[0].key) then [] else [members[0]]) + LastOnes(members[1..])
  }

  function NotNamed(acc: seq<Member>, members: seq<Member>): seq<Member>
  {
    if acc == [] then []
    else (if Names(members, acc[0].key) then [] else [acc[0]]) + NotNamed(acc[1..], members)
  }

  lemma NotNamedStep(x: Member, more: seq<Member>, rest: seq<Member>)
    ensures NotNamed([x] + more, rest) == (if Names(rest, x.key) then [] else [x]) + NotNamed(more, rest)
    ensures NotNamed([], rest) == []
  {
    hide Names;
    assert ([x] + more)[1..] == more;
  }

  lemma {:induction false} NotNamedPut(acc: seq<Member>, k: seq<Byte>, v: Json, rest: seq<Member>)
    ensures NotNamed(Put(acc, k, v), rest)
            == NotNamed(acc, [Pair(k, v)] + rest) + if Names(rest, k) then [] else [Pair(k, v)]
  {
    hide Names, NotNamed;
    var x := Pair(k, v);
    NotNamedStep(x, [], rest);
    if acc == [] {
      assert Put(acc, k, v) == [x] == [x] + [];
      NotNamedStep(x, [], [x] + rest);
    } else {
      var more := Put(acc[1..], k, v);
      NotNamedPut(acc[1..], k, v, rest);
      NamesMore(x, rest, acc[0].key);
      NotNamedStep(acc[0], acc[1..], [x] + rest);
      assert [acc[0]] + acc[1..] == acc;
      if acc[0].key == k {
        assert Put(acc, k, v) == more;
        assert [] + NotNamed(acc[1..], [x] + rest) == NotNamed(acc[1..], [x] + rest);
      } else {
        assert Put(acc, k, v) == [acc[0]] + more;
        NotNamedStep(acc[0], more, rest);
      }
    }
  }

  lemma NamesMore(x: Member, rest: seq<Member>, key: seq<Byte>)
    ensures Names([x] + rest, key) <==> x.key == key || Names(rest, key)
  {
    var all := [x] + rest;
    assert all[0] == x;
    if i :| 0 <= i < |rest| && rest[i].key == key {
      assert all[i + 1].key == key;
    }
  }

  lemma {:induction false} PutAllIsLast(acc: seq<Member>, members: seq<Member>)
    ensures R.PutAll(acc, members) == NotNamed(acc, members) + LastOnes(members)
    decreases |members|
  {
    hide Put, Names, NotNamed, LastOnes;
    if members == [] {
      NotNamedNone(acc);
      assert LastOnes([]) == [] by { LastNone(); }
    } else {
      var m, rest := members[0], members[1..];
      PutAllIsLast(Put(acc, m.key, m.value), rest);
      NotNamedPut(acc, m.key, m.value, rest);
      assert [m] + rest == members;
      var one := if Names(rest, m.key) then [] else [m];
      LastStep(members);
      assert NotNamed(acc, members) + one + LastOnes(rest) == NotNamed(acc, members) + (one + LastOnes(rest));
    }
  }

  lemma LastNone()
    ensures LastOnes([]) == []
  {
  }

  lemma LastStep(members: seq<Member>)
    requires members != []
    ensures LastOnes(members)
            == (if Names(members[1..], members[0].key) then [] else [members[0]]) + LastOnes(members[1..])
  {
    hide Names;
  }

  lemma {:induction false} NotNamedNone(acc: seq<Member>)
    ensures NotNamed(acc, []) + [] == acc
  {
    if acc != [] {
      NotNamedNone(acc[1..]);
    }
  }

  /** Of an object's text with repeated names each name keeps its last value, at the place of the
      last one; the depth limit counts the values that are lost as well. */
  lemma RepeatedNames(members: seq<Member>, pretty: bool)
    requires forall i :: 0 <= i < |members| ==> R.PrintableMember(members[i])
    ensures Parse(Print(Object(members), pretty, 0)) ==
      if 1 + R.LevelsOfMembers(members) <= MAX_DEPTH then Some(Object(LastOnes(members))) else None
  {
    hide Print, ParseMembers, PrintMembers, R.ReadsAt;
    var t := Print(Object(members), pretty, 0);
    ReadsItself(t);
    R.ObjectShape(t, 0, members, pretty, 0);
    R.MembersRead(t, 1, members, pretty, 0, 1, []);
    PutAllIsLast([], members);
    assert NotNamed([], members) == [];
    assert [] + LastOnes(members) == LastOnes(members);
    StartsWithBrace(members, pretty);
    R.SkipToSolid(t, 0, 0);
    G.BracesAt(t, 0, 0);
    if members == [] {
      NoLevels();
    }
  }

  lemma NoLevels()
    ensures R.LevelsOfMembers([]) == 0
  {
  }

  lemma ReadsItself(t: seq<Byte>)
    ensures R.ReadsAt(t, 0, t)
  {
    assert t[0..0 + |t|] == t;
  }

  lemma StartsWithBrace(members: seq<Member>, pretty: bool)
    ensures var t := Print(Object(members), pretty, 0); t != [] && t[0] == LBRACE && R.Solid(t[0])
  {
    hide PrintMembers;
  }

  // ----- separators -----

  /** Values that end with a byte of their own: strings, arrays and objects. */
  predicate ClosesItself(d: Json)
  {
    d.Str? || d.Array? || d.Object?
  }

  /** Such a value is read the same whatever follows it. */
  lemma ReadBefore(before: seq<Byte>, d: Json, pretty: bool, depth: nat, after: seq<Byte>)
    requires R.Printable(d) && ClosesItself(d) && depth + R.Levels(d) <= MAX_DEPTH
    ensures var t, p := before + Print(d, pretty, 0) + after, |before|;
            && p < |t| && SkipSpaces(t, p) == p && G.Closes(t[p])
            && ParseBase(t, p, depth) == Done(d, p + |Print(d, pretty, 0)|)
  {
    hide Print, ParseBase, SkipSpaces, R.Levels, R.ReadsAt, R.Printable, R.Follows;
    var text, p := Print(d, pretty, 0), |before|;
    var t, u := before + text + after, before + text + [COMMA];
    R.FirstByte(d, pretty, 0);
    assert t[p] == u[p] == text[0];
    R.SkipToSolid(t, p, p);
    R.SkipToSolid(u, p, p);
    StandsThere(before, text, [COMMA]);
    R.DelimStops(u, p + |text|);
    R.BaseReads(u, p, d, pretty, 0, depth);
    G.BaseLocal(u, t, p, depth, p + |text|);
  }

  lemma StandsThere(before: seq<Byte>, text: seq<Byte>, after: seq<Byte>)
    ensures R.ReadsAt(before + text + after, |before|, text)
  {
    var t := before + text + after;
    assert t[|before|..|before| + |text|] == text;
  }

  predicate Blanks(s: seq<Byte>)
  {
    forall i :: 0 <= i < |s| ==> R.IsBlank(s[i])
  }

  /** Where the blanks behind a value end. */
  lemma BlanksEnd(head: seq<Byte>, right: seq<Byte>, c: Byte, rest: seq<Byte>)
    requires Blanks(right) && R.Solid(c)
    ensures var t, e := head + (right + [c] + rest), |head| + |right|;
            e < |t| && t[e] == c && SkipSpaces(t, |head|) == e
  {
    var t, e := head + (right + [c] + rest), |head| + |right|;
    forall i | |head| <= i < e ensures R.IsBlank(t[i]) {
      assert t[i] == right[i - |head|];
    }
    R.SkipToSolid(t, |head|, e);
  }

  /** In an array only a comma or the closing bracket may follow such a value. */
  lemma NeedsComma(d: Json, pretty: bool, right: seq<Byte>, c: Byte, rest: seq<Byte>)
    requires R.Printable(d) && ClosesItself(d) && 1 + R.Levels(d) <= MAX_DEPTH
    requires Blanks(right) && R.Solid(c) && c != ',' as int && c != ']' as int
    ensures Parse(Ascii("[") + Print(d, pretty, 0) + (right + [c] + rest)) == None
  {
    hide Print, ParseBase, ParseItems, SkipSpaces, R.Levels, R.Printable, R.Solid, Blanks;
    var text, after := Print(d, pretty, 0), right + [c] + rest;
    var t := Ascii("[") + text + after;
    ReadBefore(Ascii("["), d, pretty, 1, after);
    BlanksEnd(Ascii("[") + text, right, c, rest);
    G.ItemsRound(t, 1, 1, 1, [], ParseBase(t, 1, 1), 1 + |text| + |right|);
    Bracket(t);
    G.BracesAt(t, 0, 0);
  }

  lemma Bracket(t: seq<Byte>)
    requires t != [] && (t[0] == LBRACKET || t[0] == LBRACE)
    ensures SkipSpaces(t, 0) == 0
  {
    R.SkipToSolid(t, 0, 0);
  }

  /** In an object only a colon may follow a quoted name. */
  lemma NeedsColon(key: seq<Byte>, right: seq<Byte>, c: Byte, rest: seq<Byte>)
    requires NUL !in key && Blanks(right) && R.Solid(c) && c != ':' as int
    ensures Parse(Ascii("{") + Quoted(key) + (right + [c] + rest)) == None
  {
    hide ParseBase, ParseMembers, ParseString, Quoted, SkipSpaces, R.Solid, Blanks;
    var text, after := Quoted(key), right + [c] + rest;
    var t := Ascii("{") + text + after;
    QuotedAt(t, text, key, after);
    R.QuotedReads(t, 1, 1, key);
    BlanksEnd(Ascii("{") + text, right, c, rest);
    NoName(t);
    Bracket(t);
    G.BracesAt(t, 0, 0);
  }

  lemma QuotedAt(t: seq<Byte>, text: seq<Byte>, key: seq<Byte>, after: seq<Byte>)
    requires text == Quoted(key) && t == Ascii("{") + text + after
    ensures R.ReadsAt(t, 1, text) && t[1] == QUOTE && SkipSpaces(t, 1) == 1
  {
    StandsThere(Ascii("{"), text, after);
    assert t[1] == text[0];
    R.SkipToSolid(t, 1, 1);
  }

  lemma NoName(t: seq<Byte>)
    requires |t| > 1 && SkipSpaces(t, 1) == 1 && t[1] == QUOTE && ParseName(t, 1).Fail?
    ensures ParseMembers(t, 1, 1, []).Fail?
  {
    hide SkipSpaces, ParseName, ParseBase;
  }

  /** In an object only a comma or the closing brace may follow such a value. */
  lemma NeedsCommaInObject(key: seq<Byte>, d: Json, pretty: bool, right: seq<Byte>, c: Byte, rest: seq<Byte>)
    requires NUL !in key && R.Printable(d) && ClosesItself(d) && 1 + R.Levels(d) <= MAX_DEPTH
    requires Blanks(right) && R.Solid(c) && c != ',' as int && c != '}' as int
    ensures Parse(Ascii("{") + Quoted(key) + Ascii(":") + Print(d, pretty, 0) + (right + [c] + rest)) == None
  {
    hide Print, ParseBase, ParseMembers, ParseName, Quoted, SkipSpaces, R.Levels, R.Printable, R.Solid, Blanks;
    var name, text, after := Quoted(key), Print(d, pretty, 0), right + [c] + rest;
    var head := Ascii("{") + name + Ascii(":");
    var t := head + text + after;
    assert t == Ascii("{") + name + (Ascii(":") + text + after);
    QuotedAt(t, name, key, Ascii(":") + text + after);
    assert t[1 + |name|] == COLON;
    R.NameReads(t, 1, key);
    ReadBefore(head, d, pretty, 1, after);
    BlanksEnd(head + text, right, c, rest);
    NoSeparator(t, |head|, 1 + |name| + 1 + |text| + |right|);
    Bracket(t);
    G.BracesAt(t, 0, 0);
  }

  lemma NoSeparator(t: seq<Byte>, p: nat, e: nat)
    requires |t| > 1 && SkipSpaces(t, 1) == 1 && t[1] == QUOTE && p <= |t|
    requires ParseName(t, 1).Done? && ParseName(t, 1).pos == p && ParseBase(t, p, 1).Done?
    requires SkipSpaces(t, ParseBase(t, p, 1).pos) == e < |t| && t[e] != COMMA && t[e] != RBRACE
    ensures ParseMembers(t, 1, 1, []).Fail?
  {
    hide SkipSpaces, ParseName, ParseBase, Put;
  }

  // ----- escaped characters -----

  /** What a character behind a backslash stands for. */
  function Escaped(c: Byte): Byte
  {
    if c == 'b' as int then 8
    else if c == 't' as int then 9
    else if c == 'n' as int then 10
    else if c == 'f' as int then 12
    else if c == 'r' as int then 13
    else c
  }

  /** Every character but `u` may be escaped; all but five stand for themselves. */
  lemma EscapedCharacter(c: Byte)
    requires c != 'u' as int && c != NUL
    ensures Parse(Ascii("\"\\") + [c] + Ascii("\"")) == Some(Str([Escaped(c)]))
  {
    hide SkipSpaces, ParseItems, ParseMembers, IsDelim, CString;
    var t := Ascii("\"\\") + [c] + Ascii("\"");
    assert |t| == 4 && t[0] == QUOTE && t[1] == BACKSLASH && t[2] == c && t[3] == QUOTE;
    R.SkipToSolid(t, 0, 0);
    assert ParseEscape(t, 1) == Done([Escaped(c)], 2);
    assert StringBody(t, 3, true, [Escaped(c)]) == Done([Escaped(c)], 4);
    assert [] + [Escaped(c)] == [Escaped(c)];
    assert StringBody(t, 1, true, []) == Done([Escaped(c)], 4);
    CStringOfNulFree([Escaped(c)]);
  }
}
