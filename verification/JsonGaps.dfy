/**
 Where blanks and comments may be inserted into a JSON text: in front of any item, member name,
 value and closing bracket, and in front of a colon or comma behind a string, array or object.
 */
module JsonGaps {
  import opened Util
  import opened Text
  import opened JsonText
  import opened JsonComments
  import OM = OrderedMap
  import R = JsonRoundTrip

  // ----- what ends before a place does not depend on what stands there -----

  /** The texts are the same before `i`, which is inside the first. */
  ghost predicate Same(t: seq<Byte>, u: seq<Byte>, i: nat)
  {
    i < |t| && i <= |u| && forall k :: 0 <= k < i ==> t[k] == u[k]
  }

  lemma {:induction false} LineEndLocal(t: seq<Byte>, u: seq<Byte>, p: nat, i: nat)
    requires Same(t, u, i) && p <= |t| && LineEnd(t, p) < i
    ensures LineEnd(u, p) == LineEnd(t, p)
    decreases |t| - p
  {
    if LineEnd(t, p) > p {
      LineEndLocal(t, u, p + 1, i);
    }
  }

  lemma {:induction false} BlockEndLocal(t: seq<Byte>, u: seq<Byte>, p: nat, i: nat)
    requires Same(t, u, i) && p <= |t| && BlockEnd(t, p) + 2 <= i
    ensures BlockEnd(u, p) == BlockEnd(t, p)
    decreases |t| - p
  {
    if BlockEnd(t, p) > p {
      BlockEndLocal(t, u, p + 1, i);
    }
  }

  lemma OneGapLocal(t: seq<Byte>, u: seq<Byte>, p: nat, i: nat)
    requires Same(t, u, i) && p < i && OneGapEnd(t, p).Some? && SkipSpaces(t, p) <= i
    ensures OneGapEnd(u, p) == OneGapEnd(t, p) && OneGapEnd(t, p).value <= SkipSpaces(t, p)
  {
    hide LineEnd, BlockEnd, SkipSpaces;
    SkipStep(t, p);
    var e := OneGapEnd(t, p).value;
    if !IsSpace(t[p]) {
      SkipStep(t, e);
      if At(t, p + 1) == SLASH {
        LineEndStops(t, p + 2);
        LineEndLocal(t, u, p + 2, i);
      } else {
        SkipAtEnd(t);
        BlockEndLocal(t, u, p + 2, i);
      }
    }
  }

  lemma SkipAtEnd(t: seq<Byte>)
    ensures SkipSpaces(t, |t|) == |t|
  {
  }

  /** A line comment ends at a byte that is skipped, or with the text. */
  lemma {:induction false} LineEndStops(t: seq<Byte>, p: nat)
    requires p <= |t|
    ensures LineEnd(t, p) < |t| ==> IsSpace(t[LineEnd(t, p)])
    ensures SkipSpaces(t, LineEnd(t, p)) > LineEnd(t, p) || LineEnd(t, p) == |t| == SkipSpaces(t, |t|)
    decreases |t| - p
  {
    if LineEnd(t, p) > p {
      LineEndStops(t, p + 1);
    }
  }

  lemma {:induction false} SkipLocal(t: seq<Byte>, u: seq<Byte>, p: nat, i: nat)
    requires Same(t, u, i) && p <= |t| && SkipSpaces(t, p) <= i
    ensures SkipSpaces(u, p) == SkipSpaces(u, SkipSpaces(t, p))
    decreases |t| - p
  {
    hide SkipSpaces, OneGapEnd;
    SkipStep(t, p);
    if OneGapEnd(t, p).Some? {
      assert p < i;
      OneGapLocal(t, u, p, i);
      SkipStep(u, p);
      SkipLocal(t, u, OneGapEnd(t, p).value, i);
    }
  }

  /** Skipping ends at the same byte. */
  lemma SkipStays(t: seq<Byte>, u: seq<Byte>, p: nat, i: nat)
    requires Same(t, u, i) && p <= |t| && SkipSpaces(t, p) < i
    requires t[SkipSpaces(t, p)] == SLASH ==> SkipSpaces(t, p) + 1 < i
    ensures SkipSpaces(u, p) == SkipSpaces(t, p)
  {
    hide SkipSpaces, LineEnd, BlockEnd;
    var e := SkipSpaces(t, p);
    SkipLocal(t, u, p, i);
    SkipIsSolid(t, p);
    SkipStep(t, e);
    SkipStep(u, e);
  }

  lemma {:induction false} SkipIsSolid(t: seq<Byte>, p: nat)
    requires p <= |t|
    ensures SkipSpaces(t, SkipSpaces(t, p)) == SkipSpaces(t, p)
    ensures OneGapEnd(t, SkipSpaces(t, p)).None?
    decreases |t| - p
  {
    hide SkipSpaces, OneGapEnd;
    SkipStep(t, p);
    if OneGapEnd(t, p).Some? {
      SkipIsSolid(t, OneGapEnd(t, p).value);
    }
  }

  lemma UnicodeLocal(t: seq<Byte>, u: seq<Byte>, q: nat, i: nat)
    requires Same(t, u, i) && q < |t| && ParseUnicode(t, q).Done? && ParseUnicode(t, q).pos < i
    ensures ParseUnicode(u, q) == ParseUnicode(t, q)
  {
    hide HexDigit;
    Hex4Local(t, u, q + 1, i);
    if ParseUnicode(t, q).pos == q + 10 {
      Hex4Local(t, u, q + 7, i);
    }
  }

  lemma Hex4Local(t: seq<Byte>, u: seq<Byte>, p: nat, i: nat)
    requires Same(t, u, i) && p + 4 <= i
    ensures Hex4(u, p) == Hex4(t, p)
  {
    hide HexDigit;
  }

  lemma EscapeLocal(t: seq<Byte>, u: seq<Byte>, p: nat, i: nat)
    requires Same(t, u, i) && p < |t| && ParseEscape(t, p).Done? && ParseEscape(t, p).pos < i
    ensures ParseEscape(u, p) == ParseEscape(t, p)
  {
    hide ParseUnicode;
    if t[p + 1] == LETTER_U {
      UnicodeLocal(t, u, p + 1, i);
    }
  }

  lemma {:induction false} BodyLocal(t: seq<Byte>, u: seq<Byte>, p: nat, quoted: bool, acc: seq<Byte>, i: nat)
    requires Same(t, u, i) && p <= |t| && StringBody(t, p, quoted, acc).Done?
    requires StringBody(t, p, quoted, acc).pos <= i && (!quoted ==> StringBody(t, p, quoted, acc).pos < i)
    ensures StringBody(u, p, quoted, acc) == StringBody(t, p, quoted, acc)
    decreases |t| - p
  {
    hide ParseEscape, IsDelim;
    if t[p] == BACKSLASH {
      var e := ParseEscape(t, p);
      EscapeLocal(t, u, p, i);
      BodyLocal(t, u, e.pos + 1, quoted, acc + e.value, i);
    } else if !(quoted && t[p] == QUOTE) && !(!quoted && IsDelim(t[p])) {
      BodyLocal(t, u, p + 1, quoted, acc + [t[p]], i);
    }
  }

  /** What a string read at `p` needs to be read the same: a quoted one ends with its quote, an
      unquoted one with the byte behind it. */
  lemma StringLocal(t: seq<Byte>, u: seq<Byte>, p: nat, i: nat)
    requires Same(t, u, i) && p <= |t| && ParseString(t, p).Done?
    requires ParseString(t, p).pos <= i && (!StartsQuoted(t, p) ==> ParseString(t, p).pos < i)
    ensures ParseString(u, p) == ParseString(t, p) && StartsQuoted(u, p) == StartsQuoted(t, p)
    ensures SkipSpaces(u, p) == SkipSpaces(t, p)
  {
    hide SkipSpaces, StringBody;
    var q := SkipSpaces(t, p);
    if t[q] == QUOTE {
      SkipStays(t, u, p, i);
      BodyLocal(t, u, q + 1, true, [], i);
    } else {
      BodyLocal(t, u, q, false, [], i);
      if t[q] == SLASH {
        SlashIsRead(t, q);
      }
      SkipStays(t, u, p, i);
    }
  }

  lemma SlashIsRead(t: seq<Byte>, q: nat)
    requires q < |t| && t[q] == SLASH
    ensures StringBody(t, q, false, []).Done? ==> StringBody(t, q, false, []).pos > q
  {
  }

  lemma ValueLocal(t: seq<Byte>, u: seq<Byte>, q: nat, i: nat)
    requires Same(t, u, i) && q <= |t| && SkipSpaces(t, q) == q && ParseValue(t, q).Done?
    requires ParseValue(t, q).pos <= i && (!StartsQuoted(t, q) ==> ParseValue(t, q).pos < i)
    ensures ParseValue(u, q) == ParseValue(t, q)
  {
    hide SkipSpaces, ParseString, ParseConst, StartsQuoted, CString;
    StringLocal(t, u, q, i);
  }

  lemma NameLocal(t: seq<Byte>, u: seq<Byte>, q: nat, i: nat)
    requires Same(t, u, i) && q <= |t| && ParseName(t, q).Done? && ParseName(t, q).pos <= i
    ensures ParseName(u, q) == ParseName(t, q)
  {
    hide SkipSpaces, ParseString, StartsQuoted, CString;
    StringLocal(t, u, q, i);
    SkipStays(t, u, ParseString(t, q).pos, i);
  }

  /** What starts with this byte ends with a byte of its own, and not with the one behind it. */
  predicate Closes(c: Byte)
  {
    c == QUOTE || c == LBRACKET || c == LBRACE
  }

  lemma {:induction false} BaseLocal(t: seq<Byte>, u: seq<Byte>, p: nat, depth: nat, i: nat)
    requires Same(t, u, i) && p <= |t| && ParseBase(t, p, depth).Done? && ParseBase(t, p, depth).pos <= i
    requires !Closes(At(t, SkipSpaces(t, p))) ==> ParseBase(t, p, depth).pos < i
    ensures ParseBase(u, p, depth) == ParseBase(t, p, depth)
    decreases |t| - p, 0
  {
    hide SkipSpaces, ParseValue, ParseItems, ParseMembers;
    var q := SkipSpaces(t, p);
    SkipIsSolid(t, p);
    if t[q] == LBRACE {
      SkipStays(t, u, p, i);
      MembersLocal(t, u, q + 1, depth + 1, [], i);
    } else if t[q] == LBRACKET {
      SkipStays(t, u, p, i);
      ItemsLocal(t, u, q + 1, depth + 1, [], i);
    } else {
      ValueIsRead(t, q);
      SkipStays(t, u, p, i);
      ValueLocal(t, u, q, i);
    }
  }

  /** A value is not empty. */
  lemma ValueIsRead(t: seq<Byte>, q: nat)
    requires q < |t| && SkipSpaces(t, q) == q && ParseValue(t, q).Done?
    ensures q < ParseValue(t, q).pos
  {
    hide SkipSpaces, CaseEqual, StrToLong, StrToDoubleReads;
    if t[q] != QUOTE && ParseValue(t, q).pos == q {
      assert StringBody(t, q, false, []) == Done([], q) by { BodyGrows(t, q, false, []); }
      assert Trim([]) == [];
      assert ParseConst([]).None? by { EmptyIsNoConst(); }
    }
  }

  lemma EmptyIsNoConst()
    ensures ParseConst([]).None?
  {
  }

  lemma {:induction false} BodyGrows(t: seq<Byte>, p: nat, quoted: bool, acc: seq<Byte>)
    requires p <= |t|
    ensures StringBody(t, p, quoted, acc).Done? && StringBody(t, p, quoted, acc).pos == p
            ==> StringBody(t, p, quoted, acc).value == acc
  {
  }

  lemma {:induction false} ItemsLocal(t: seq<Byte>, u: seq<Byte>, p: nat, depth: nat, acc: seq<Json>, i: nat)
    requires Same(t, u, i) && p <= |t| && ParseItems(t, p, depth, acc).Done? && ParseItems(t, p, depth, acc).pos <= i
    ensures ParseItems(u, p, depth, acc) == ParseItems(t, p, depth, acc)
    decreases |t| - p, 1
  {
    hide SkipSpaces, ParseBase;
    var q := SkipSpaces(t, p);
    if t[q] == RBRACKET {
      SkipStays(t, u, p, i);
    } else {
      var item := ParseBase(t, q, depth);
      var e := SkipSpaces(t, item.pos);
      BaseLocal(t, u, q, depth, i);
      SkipStays(t, u, item.pos, i);
      BaseStart(t, p, q, depth);
      SkipStays(t, u, p, i);
      if t[e] == COMMA {
        ItemsLocal(t, u, e + 1, depth, acc + [item.value], i);
      }
    }
  }

  /** A document takes at least one byte. */
  lemma BaseStart(t: seq<Byte>, p: nat, q: nat, depth: nat)
    requires p <= |t| && SkipSpaces(t, p) == q && ParseBase(t, q, depth).Done?
    ensures SkipSpaces(t, q) == q < ParseBase(t, q, depth).pos
  {
    hide SkipSpaces, ParseItems, ParseMembers, ParseValue;
    SkipIsSolid(t, p);
    if q < |t| && t[q] != LBRACE && t[q] != LBRACKET {
      ValueIsRead(t, q);
    }
  }

  lemma {:induction false} MembersLocal(t: seq<Byte>, u: seq<Byte>, p: nat, depth: nat,
                                        acc: seq<OM.Pair<seq<Byte>, Json>>, i: nat)
    requires Same(t, u, i) && p <= |t|
    requires ParseMembers(t, p, depth, acc).Done? && ParseMembers(t, p, depth, acc).pos <= i
    ensures ParseMembers(u, p, depth, acc) == ParseMembers(t, p, depth, acc)
    decreases |t| - p, 1
  {
    hide SkipSpaces, ParseBase, ParseName, OM.Put;
    var q := SkipSpaces(t, p);
    if t[q] == RBRACE {
      SkipStays(t, u, p, i);
    } else {
      var name := ParseName(t, q);
      var item := ParseBase(t, name.pos, depth);
      var e := SkipSpaces(t, item.pos);
      NameLocal(t, u, q, i);
      BaseLocal(t, u, name.pos, depth, i);
      SkipStays(t, u, item.pos, i);
      SkipStays(t, u, p, i);
      if t[e] == COMMA {
        MembersLocal(t, u, e + 1, depth, OM.Put(acc, name.value, item.value), i);
      }
    }
  }

  // ----- the places -----

  /** Places in the document at `p`: in front of it and inside it. */
  ghost predicate PlaceInBase(t: seq<Byte>, p: nat, depth: nat, i: nat)
    requires p <= |t|
    decreases |t| - p, 0
  {
    var q := SkipSpaces(t, p);
    && depth < MAX_DEPTH && q < |t|
    && (|| i == q
        || (t[q] == LBRACE && PlaceInMembers(t, q + 1, depth + 1, i))
        || (t[q] == LBRACKET && PlaceInItems(t, q + 1, depth + 1, i)))
  }

  /** In front of an item or of the closing bracket, inside an item, or in front of what follows
      an item that is a string, an array or an object. */
  ghost predicate PlaceInItems(t: seq<Byte>, p: nat, depth: nat, i: nat)
    requires p <= |t|
    decreases |t| - p, 1
  {
    var q := SkipSpaces(t, p);
    && q < |t|
    && (|| i == q
        || (t[q] != RBRACKET && ParseBase(t, q, depth).Done?
            && var item := ParseBase(t, q, depth);
               var e := SkipSpaces(t, item.pos);
               || PlaceInBase(t, q, depth, i)
               || (e < |t| && i == e && Closes(t[q]))
               || (e < |t| && t[e] == COMMA && PlaceInItems(t, e + 1, depth, i))))
  }

  /** In front of a name or of the closing brace, in front of the colon behind a quoted name,
      inside a value, or in front of what follows a value that is a string, an array or an object. */
  ghost predicate PlaceInMembers(t: seq<Byte>, p: nat, depth: nat, i: nat)
    requires p <= |t|
    decreases |t| - p, 1
  {
    var q := SkipSpaces(t, p);
    && q < |t|
    && (|| i == q
        || (t[q] != RBRACE && ParseName(t, q).Done? && ParseBase(t, ParseName(t, q).pos, depth).Done?
            && var name := ParseName(t, q);
               var item := ParseBase(t, name.pos, depth);
               var e := SkipSpaces(t, item.pos);
               || (t[q] == QUOTE && i == name.pos - 1)
               || PlaceInBase(t, name.pos, depth, i)
               || (e < |t| && i == e && Closes(At(t, SkipSpaces(t, name.pos))))
               || (e < |t| && t[e] == COMMA && PlaceInMembers(t, e + 1, depth, i))))
  }

  // ----- inserting -----

  function Inserted(t: seq<Byte>, i: nat, gaps: seq<Gap>): seq<Byte>
    requires i <= |t|
  {
    t[..i] + GapsText(gaps) + t[i..]
  }

  lemma InsertedSame(t: seq<Byte>, i: nat, gaps: seq<Gap>)
    requires i < |t|
    ensures Same(t, Inserted(t, i, gaps), i)
  {
  }

  /** What stands at the place or behind it is only moved. */
  lemma Behind(t: seq<Byte>, i: nat, gaps: seq<Gap>, p: nat) returns (a: seq<Byte>, b: seq<Byte>)
    requires i <= p <= |t|
    ensures a + b == Inserted(t, i, gaps) && b == t[p..] && |a| == p + |GapsText(gaps)| && t == t[..p] + b
  {
    hide GapsText;
    a, b := t[..i] + GapsText(gaps) + t[i..p], t[p..];
    assert t[i..] == t[i..p] + t[p..];
  }

  lemma SkipBehind(t: seq<Byte>, i: nat, gaps: seq<Gap>, p: nat)
    requires i <= p <= |t|
    ensures SkipSpaces(Inserted(t, i, gaps), p + |GapsText(gaps)|) == SkipSpaces(t, p) + |GapsText(gaps)|
  {
    hide SkipSpaces;
    var a, b := Behind(t, i, gaps, p);
    SkipShift(a, b, 0);
    SkipShift(t[..p], b, 0);
  }

  lemma BaseBehind(t: seq<Byte>, i: nat, gaps: seq<Gap>, p: nat, depth: nat)
    requires i <= p <= |t|
    ensures ParseBase(Inserted(t, i, gaps), p + |GapsText(gaps)|, depth)
            == Shifted(ParseBase(t, p, depth), |GapsText(gaps)|)
  {
    hide ParseBase;
    var a, b := Behind(t, i, gaps, p);
    BaseShift(a, b, 0, depth);
    BaseShift(t[..p], b, 0, depth);
  }

  lemma ItemsBehind(t: seq<Byte>, i: nat, gaps: seq<Gap>, p: nat, depth: nat, acc: seq<Json>)
    requires i <= p <= |t|
    ensures ParseItems(Inserted(t, i, gaps), p + |GapsText(gaps)|, depth, acc)
            == Shifted(ParseItems(t, p, depth, acc), |GapsText(gaps)|)
  {
    hide ParseItems;
    var a, b := Behind(t, i, gaps, p);
    ItemsShift(a, b, 0, depth, acc);
    ItemsShift(t[..p], b, 0, depth, acc);
  }

  lemma MembersBehind(t: seq<Byte>, i: nat, gaps: seq<Gap>, p: nat, depth: nat, acc: seq<OM.Pair<seq<Byte>, Json>>)
    requires i <= p <= |t|
    ensures ParseMembers(Inserted(t, i, gaps), p + |GapsText(gaps)|, depth, acc)
            == Shifted(ParseMembers(t, p, depth, acc), |GapsText(gaps)|)
  {
    hide ParseMembers;
    var a, b := Behind(t, i, gaps, p);
    MembersShift(a, b, 0, depth, acc);
    MembersShift(t[..p], b, 0, depth, acc);
  }

  lemma {:induction false} GapsAreBlank(gaps: seq<Gap>, rest: seq<Byte>)
    requires GapsOk(gaps)
    ensures SkipSpaces(GapsText(gaps) + rest, 0) == SkipSpaces(GapsText(gaps) + rest, |GapsText(gaps)|)
  {
    hide SkipSpaces, GapText, GapOk;
    if gaps != [] {
      var first := GapText(gaps[0]);
      var more := GapsText(gaps[1..]) + rest;
      assert GapsText(gaps) + rest == first + more;
      GapSkipped(gaps[0], more);
      GapsAreBlank(gaps[1..], rest);
      SkipShift(first, more, 0);
      SkipShift(first, more, |GapsText(gaps[1..])|);
    }
  }

  /** The byte at the place is still what skipping ends at. */
  lemma SkipReaches(t: seq<Byte>, i: nat, gaps: seq<Gap>, p: nat)
    requires GapsOk(gaps) && p <= |t| && SkipSpaces(t, p) == i < |t|
    ensures SkipSpaces(Inserted(t, i, gaps), p) == i + |GapsText(gaps)|
  {
    hide SkipSpaces, GapsText, GapsOk;
    var u := Inserted(t, i, gaps);
    InsertedSame(t, i, gaps);
    SkipLocal(t, u, p, i);
    GapsAreBlank(gaps, t[i..]);
    SkipShift(t[..i], GapsText(gaps) + t[i..], 0);
    SkipShift(t[..i], GapsText(gaps) + t[i..], |GapsText(gaps)|);
    assert t[..i] + (GapsText(gaps) + t[i..]) == u;
    SkipBehind(t, i, gaps, i);
    SkipIsSolid(t, p);
  }

  lemma InsertedByte(t: seq<Byte>, i: nat, gaps: seq<Gap>, p: nat)
    requires i <= |t| && p < |t|
    ensures var u := Inserted(t, i, gaps);
            && |u| == |t| + |GapsText(gaps)| && (p < i ==> u[p] == t[p])
            && (i <= p ==> u[p + |GapsText(gaps)|] == t[p])
  {
  }

  /** One round of the loop over the items. */
  lemma ItemsRound(t: seq<Byte>, p: nat, q: nat, depth: nat, acc: seq<Json>, item: Parsed<Json>, e: nat)
    requires p <= q < |t| && SkipSpaces(t, p) == q && t[q] != RBRACKET
    requires item == ParseBase(t, q, depth) && item.Done? && SkipSpaces(t, item.pos) == e
    ensures ParseItems(t, p, depth, acc) ==
            if e == |t| then Fail
            else if t[e] == RBRACKET then Done(acc + [item.value], e + 1)
            else if t[e] == COMMA then ParseItems(t, e + 1, depth, acc + [item.value])
            else Fail
  {
    hide SkipSpaces, ParseBase;
  }

  /** The rest of a round whose separator was moved. */
  lemma MovedRound(t: seq<Byte>, i: nat, gaps: seq<Gap>, p: nat, depth: nat, acc: seq<Json>, u: seq<Byte>,
                   item: Parsed<Json>, moved: Parsed<Json>)
    requires i <= |t| && u == Inserted(t, i, gaps) && p <= |t|
    requires SkipSpaces(t, p) < |t| && t[SkipSpaces(t, p)] != RBRACKET
    requires item == ParseBase(t, SkipSpaces(t, p), depth) && item.Done?
    requires SkipSpaces(t, p) < i && SkipSpaces(u, p) == SkipSpaces(t, p)
    requires moved == ParseBase(u, SkipSpaces(t, p), depth) && moved.Done? && moved.value == item.value
    requires i <= SkipSpaces(t, item.pos)
    requires SkipSpaces(u, moved.pos) == SkipSpaces(t, item.pos) + |GapsText(gaps)|
    ensures ParseItems(u, p, depth, acc) == Shifted(ParseItems(t, p, depth, acc), |GapsText(gaps)|)
  {
    hide SkipSpaces, ParseBase, ParseItems, GapsText, Inserted;
    var q := SkipSpaces(t, p);
    var e := SkipSpaces(t, item.pos);
    InsertedByte(t, i, gaps, q);
    ItemsRound(t, p, q, depth, acc, item, e);
    ItemsRound(u, p, q, depth, acc, moved, e + |GapsText(gaps)|);
    if e < |t| {
      InsertedByte(t, i, gaps, e);
      ItemsBehind(t, i, gaps, e + 1, depth, acc + [item.value]);
    }
  }

  lemma InsertInFrontOfBase(t: seq<Byte>, i: nat, gaps: seq<Gap>, p: nat, depth: nat)
    requires GapsOk(gaps) && p <= |t| && SkipSpaces(t, p) == i < |t|
    ensures ParseBase(Inserted(t, i, gaps), p, depth) == Shifted(ParseBase(t, p, depth), |GapsText(gaps)|)
    ensures ParseBase(t, p, depth).Done? ==> i < ParseBase(t, p, depth).pos
  {
    hide SkipSpaces, ParseBase, GapsOk, GapsText;
    SkipReaches(t, i, gaps, p);
    BaseBehind(t, i, gaps, i, depth);
    SkipBehind(t, i, gaps, i);
    SkipIsSolid(t, p);
    GapsDoNotMatter(Inserted(t, i, gaps), p, i + |GapsText(gaps)|, depth);
    GapsDoNotMatter(t, p, i, depth);
    if ParseBase(t, i, depth).Done? {
      BaseStart(t, p, i, depth);
    }
  }

  lemma {:induction false} InsertInBase(t: seq<Byte>, i: nat, gaps: seq<Gap>, p: nat, depth: nat)
    requires GapsOk(gaps) && i < |t| && p <= |t| && PlaceInBase(t, p, depth, i) && ParseBase(t, p, depth).Done?
    ensures ParseBase(Inserted(t, i, gaps), p, depth) == Shifted(ParseBase(t, p, depth), |GapsText(gaps)|)
    ensures SkipSpaces(t, p) <= i < ParseBase(t, p, depth).pos
    ensures i != SkipSpaces(t, p) ==> Closes(t[SkipSpaces(t, p)])
    decreases |t| - p, 0
  {
    hide SkipSpaces, ParseBase, ParseItems, ParseMembers, GapsOk, Inserted, PlaceInItems, PlaceInMembers;
    var q := SkipSpaces(t, p);
    var u := Inserted(t, i, gaps);
    InsertedSame(t, i, gaps);
    InsertedByte(t, i, gaps, q);
    SkipIsSolid(t, p);
    if i == q {
      InsertInFrontOfBase(t, i, gaps, p, depth);
    } else if t[q] == LBRACE {
      BracesAt(t, p, depth);
      InsertInMembers(t, i, gaps, q + 1, depth + 1, []);
      SkipStays(t, u, p, i);
      BracesAt(u, p, depth);
    } else {
      BracesAt(t, p, depth);
      InsertInItems(t, i, gaps, q + 1, depth + 1, []);
      SkipStays(t, u, p, i);
      BracesAt(u, p, depth);
    }
  }

  /** What is parsed at an opening bracket or brace. */
  lemma BracesAt(t: seq<Byte>, p: nat, depth: nat)
    requires p <= |t| && SkipSpaces(t, p) < |t| && depth < MAX_DEPTH
    ensures var q := SkipSpaces(t, p);
            && (t[q] == LBRACE ==>
                  var r := ParseMembers(t, q + 1, depth + 1, []);
                  ParseBase(t, p, depth) == if r.Done? then Done(Object(r.value), r.pos) else Fail)
            && (t[q] == LBRACKET ==>
                  var r := ParseItems(t, q + 1, depth + 1, []);
                  ParseBase(t, p, depth) == if r.Done? then Done(Array(r.value), r.pos) else Fail)
  {
    hide SkipSpaces, ParseItems, ParseMembers, ParseValue;
  }

  /** Behind an item that closes itself. */
  lemma InsertBehindItem(t: seq<Byte>, i: nat, gaps: seq<Gap>, p: nat, depth: nat, acc: seq<Json>)
    requires GapsOk(gaps) && i < |t| && p <= |t| && SkipSpaces(t, p) < |t| && Closes(t[SkipSpaces(t, p)])
    requires ParseBase(t, SkipSpaces(t, p), depth).Done?
    requires i == SkipSpaces(t, ParseBase(t, SkipSpaces(t, p), depth).pos)
    ensures ParseItems(Inserted(t, i, gaps), p, depth, acc) == Shifted(ParseItems(t, p, depth, acc), |GapsText(gaps)|)
  {
    hide SkipSpaces, ParseBase, ParseItems, GapsOk, Inserted;
    var q := SkipSpaces(t, p);
    var u := Inserted(t, i, gaps);
    var item := ParseBase(t, q, depth);
    BaseStart(t, p, q, depth);
    InsertedSame(t, i, gaps);
    BaseLocal(t, u, q, depth, i);
    SkipStays(t, u, p, i);
    SkipReaches(t, i, gaps, item.pos);
    MovedRound(t, i, gaps, p, depth, acc, u, item, item);
  }

  /** In an item. */
  lemma InsertInsideItem(t: seq<Byte>, i: nat, gaps: seq<Gap>, p: nat, depth: nat, acc: seq<Json>)
    requires i < |t| && p <= |t| && SkipSpaces(t, p) < |t| && Closes(t[SkipSpaces(t, p)])
    requires ParseBase(t, SkipSpaces(t, p), depth).Done?
    requires SkipSpaces(t, p) < i < ParseBase(t, SkipSpaces(t, p), depth).pos
    requires ParseBase(Inserted(t, i, gaps), SkipSpaces(t, p), depth)
             == Shifted(ParseBase(t, SkipSpaces(t, p), depth), |GapsText(gaps)|)
    ensures ParseItems(Inserted(t, i, gaps), p, depth, acc) == Shifted(ParseItems(t, p, depth, acc), |GapsText(gaps)|)
  {
    hide SkipSpaces, ParseBase, ParseItems, Inserted, GapsText;
    var q := SkipSpaces(t, p);
    var u := Inserted(t, i, gaps);
    var item := ParseBase(t, q, depth);
    InsertedSame(t, i, gaps);
    SkipStays(t, u, p, i);
    SkipBehind(t, i, gaps, item.pos);
    MovedRound(t, i, gaps, p, depth, acc, u, item, ParseBase(u, q, depth));
  }

  /** Behind the comma. */
  lemma InsertLater(t: seq<Byte>, i: nat, gaps: seq<Gap>, p: nat, depth: nat, acc: seq<Json>, item: Parsed<Json>,
                    e: nat)
    requires i < |t| && p <= |t| && SkipSpaces(t, p) < |t| && t[SkipSpaces(t, p)] != RBRACKET
    requires item == ParseBase(t, SkipSpaces(t, p), depth) && item.Done?
    requires e == SkipSpaces(t, item.pos) < i && t[e] == COMMA
    requires ParseItems(Inserted(t, i, gaps), e + 1, depth, acc + [item.value])
             == Shifted(ParseItems(t, e + 1, depth, acc + [item.value]), |GapsText(gaps)|)
    ensures ParseItems(Inserted(t, i, gaps), p, depth, acc) == Shifted(ParseItems(t, p, depth, acc), |GapsText(gaps)|)
  {
    hide SkipSpaces, ParseBase, ParseItems, Inserted, GapsText;
    var q := SkipSpaces(t, p);
    var u := Inserted(t, i, gaps);
    BaseStart(t, p, q, depth);
    InsertedSame(t, i, gaps);
    BaseLocal(t, u, q, depth, i);
    SkipStays(t, u, p, i);
    SkipStays(t, u, item.pos, i);
    InsertedByte(t, i, gaps, q);
    InsertedByte(t, i, gaps, e);
    ItemsRound(t, p, q, depth, acc, item, e);
    ItemsRound(u, p, q, depth, acc, item, e);
  }

  /** In front of an item or of the closing bracket. */
  lemma InsertInFront(t: seq<Byte>, i: nat, gaps: seq<Gap>, p: nat, depth: nat, acc: seq<Json>)
    requires GapsOk(gaps) && i < |t| && p <= |t| && SkipSpaces(t, p) == i
    ensures ParseItems(Inserted(t, i, gaps), p, depth, acc) == Shifted(ParseItems(t, p, depth, acc), |GapsText(gaps)|)
  {
    hide SkipSpaces, ParseItems, GapsOk, GapsText;
    var u := Inserted(t, i, gaps);
    SkipReaches(t, i, gaps, p);
    ItemsBehind(t, i, gaps, i, depth, acc);
    ItemsFromSolid(t, p, depth, acc);
    ItemsFromSolid(u, p, depth, acc);
  }

  lemma {:induction false} InsertInItems(t: seq<Byte>, i: nat, gaps: seq<Gap>, p: nat, depth: nat, acc: seq<Json>)
    requires GapsOk(gaps) && i < |t| && p <= |t| && PlaceInItems(t, p, depth, i) && ParseItems(t, p, depth, acc).Done?
    ensures ParseItems(Inserted(t, i, gaps), p, depth, acc) == Shifted(ParseItems(t, p, depth, acc), |GapsText(gaps)|)
    ensures p <= i < ParseItems(t, p, depth, acc).pos
    decreases |t| - p, 1
  {
    hide SkipSpaces, ParseBase, ParseItems, GapsOk, Inserted, PlaceInBase;
    var q := SkipSpaces(t, p);
    SkipIsSolid(t, p);
    if i == q {
      InsertInFront(t, i, gaps, p, depth, acc);
      ItemsFromSolid(t, p, depth, acc);
    } else {
      var item := ParseBase(t, q, depth);
      var e := SkipSpaces(t, item.pos);
      BaseStart(t, p, q, depth);
      ItemsRound(t, p, q, depth, acc, item, e);
      if PlaceInBase(t, q, depth, i) {
        InsertInBase(t, i, gaps, q, depth);
        InsertInsideItem(t, i, gaps, p, depth, acc);
      } else if i == e && Closes(t[q]) {
        InsertBehindItem(t, i, gaps, p, depth, acc);
      } else {
        InsertInItems(t, i, gaps, e + 1, depth, acc + [item.value]);
        InsertLater(t, i, gaps, p, depth, acc, item, e);
      }
    }
  }

  /** The loop goes on the same from where skipping ends. */
  lemma ItemsFromSolid(t: seq<Byte>, p: nat, depth: nat, acc: seq<Json>)
    requires p <= |t| && SkipSpaces(t, p) < |t|
    ensures SkipSpaces(t, SkipSpaces(t, p)) == SkipSpaces(t, p)
    ensures ParseItems(t, p, depth, acc) == ParseItems(t, SkipSpaces(t, p), depth, acc)
    ensures ParseItems(t, p, depth, acc).Done? ==> SkipSpaces(t, p) < ParseItems(t, p, depth, acc).pos
  {
    hide SkipSpaces, ParseBase;
    SkipIsSolid(t, p);
    if ParseBase(t, SkipSpaces(t, p), depth).Done? {
      BaseStart(t, p, SkipSpaces(t, p), depth);
    }
  }

  // ----- the same for members -----

  lemma MembersFromSolid(t: seq<Byte>, p: nat, depth: nat, acc: seq<OM.Pair<seq<Byte>, Json>>)
    requires p <= |t| && SkipSpaces(t, p) < |t|
    ensures SkipSpaces(t, SkipSpaces(t, p)) == SkipSpaces(t, p)
    ensures ParseMembers(t, p, depth, acc) == ParseMembers(t, SkipSpaces(t, p), depth, acc)
    ensures ParseMembers(t, p, depth, acc).Done? ==> SkipSpaces(t, p) < ParseMembers(t, p, depth, acc).pos
  {
    hide SkipSpaces, ParseBase, ParseName, OM.Put;
    SkipIsSolid(t, p);
  }

  lemma InsertInFrontOfName(t: seq<Byte>, i: nat, gaps: seq<Gap>, p: nat, depth: nat,
                            acc: seq<OM.Pair<seq<Byte>, Json>>)
    requires GapsOk(gaps) && i < |t| && p <= |t| && SkipSpaces(t, p) == i
    ensures ParseMembers(Inserted(t, i, gaps), p, depth, acc)
            == Shifted(ParseMembers(t, p, depth, acc), |GapsText(gaps)|)
  {
    hide SkipSpaces, ParseMembers, GapsOk, GapsText;
    var u := Inserted(t, i, gaps);
    SkipReaches(t, i, gaps, p);
    MembersBehind(t, i, gaps, i, depth, acc);
    MembersFromSolid(t, p, depth, acc);
    MembersFromSolid(u, p, depth, acc);
  }

  /** In front of the colon behind a quoted name. */
  lemma InsertInFrontOfColon(t: seq<Byte>, i: nat, gaps: seq<Gap>, q: nat)
    requires GapsOk(gaps) && i < |t| && q < |t| && t[q] == QUOTE
    requires ParseName(t, q).Done? && i == ParseName(t, q).pos - 1
    ensures ParseName(Inserted(t, i, gaps), q) == Shifted(ParseName(t, q), |GapsText(gaps)|)
    ensures q < i
  {
    hide SkipSpaces, ParseString, GapsOk, Inserted, GapsText;
    var u := Inserted(t, i, gaps);
    var name := ParseString(t, q);
    InsertedSame(t, i, gaps);
    QuoteIsRead(t, q);
    StringLocal(t, u, q, i);
    SkipReaches(t, i, gaps, name.pos);
    InsertedByte(t, i, gaps, i);
  }

  lemma QuoteIsRead(t: seq<Byte>, q: nat)
    requires q < |t| && t[q] == QUOTE && ParseString(t, q).Done?
    ensures StartsQuoted(t, q) && q < ParseString(t, q).pos
  {
    hide StringBody;
  }

  /** A name takes at least one byte and its colon one more, if it starts with a slash. */
  lemma NameIsRead(t: seq<Byte>, q: nat)
    requires q < |t| && SkipSpaces(t, q) == q && t[q] == SLASH && ParseName(t, q).Done?
    ensures q + 1 < ParseName(t, q).pos
  {
    hide SkipSpaces, StringBody;
    SlashIsRead(t, q);
  }

  /** A round whose separator was moved. */
  lemma MovedMember(t: seq<Byte>, i: nat, gaps: seq<Gap>, p: nat, depth: nat, acc: seq<OM.Pair<seq<Byte>, Json>>,
                    u: seq<Byte>, name: Parsed<seq<Byte>>, item: Parsed<Json>)
    requires i <= |t| && u == Inserted(t, i, gaps) && p <= |t|
    requires SkipSpaces(t, p) < |t| && t[SkipSpaces(t, p)] != RBRACE
    requires name == ParseName(t, SkipSpaces(t, p)) && name.Done?
    requires item == ParseBase(t, name.pos, depth) && item.Done?
    requires SkipSpaces(t, p) < i && SkipSpaces(u, p) == SkipSpaces(t, p)
    requires ParseName(u, SkipSpaces(t, p)).Done? && ParseName(u, SkipSpaces(t, p)).value == name.value
    requires var moved := ParseBase(u, ParseName(u, SkipSpaces(t, p)).pos, depth);
             && moved.Done? && moved.value == item.value && i <= SkipSpaces(t, item.pos)
             && SkipSpaces(u, moved.pos) == SkipSpaces(t, item.pos) + |GapsText(gaps)|
    ensures ParseMembers(u, p, depth, acc) == Shifted(ParseMembers(t, p, depth, acc), |GapsText(gaps)|)
  {
    hide SkipSpaces, ParseBase, ParseName, ParseMembers, GapsText, Inserted, OM.Put;
    var q := SkipSpaces(t, p);
    var e := SkipSpaces(t, item.pos);
    InsertedByte(t, i, gaps, q);
    MembersGoOn(t, p, depth, acc);
    MembersGoOn(u, p, depth, acc);
    if e < |t| {
      InsertedByte(t, i, gaps, e);
      MembersBehind(t, i, gaps, e + 1, depth, OM.Put(acc, name.value, item.value));
    }
  }

  /** A member whose name ends in front of the place. */
  lemma NameStays(t: seq<Byte>, i: nat, gaps: seq<Gap>, p: nat)
    requires i < |t| && p <= |t| && SkipSpaces(t, p) < |t|
    requires ParseName(t, SkipSpaces(t, p)).Done? && ParseName(t, SkipSpaces(t, p)).pos <= i
    ensures var u, q := Inserted(t, i, gaps), SkipSpaces(t, p);
            SkipSpaces(u, p) == q < i && ParseName(u, q) == ParseName(t, q)
  {
    hide SkipSpaces, ParseName, Inserted;
    var q := SkipSpaces(t, p);
    InsertedSame(t, i, gaps);
    NameLocal(t, Inserted(t, i, gaps), q, i);
    SkipIsSolid(t, p);
    if t[q] == SLASH {
      NameIsRead(t, q);
    }
    SkipStays(t, Inserted(t, i, gaps), p, i);
  }

  /** What a place in the member at `p`, behind the start of its name, can be. */
  ghost predicate AtMember(t: seq<Byte>, p: nat, depth: nat, name: Parsed<seq<Byte>>, item: Parsed<Json>, e: nat)
    requires p <= |t|
  {
    && SkipSpaces(t, p) < |t| && t[SkipSpaces(t, p)] != RBRACE
    && name == ParseName(t, SkipSpaces(t, p)) && name.Done?
    && item == ParseBase(t, name.pos, depth) && item.Done? && e == SkipSpaces(t, item.pos)
  }

  lemma InsertAtColon(t: seq<Byte>, i: nat, gaps: seq<Gap>, p: nat, depth: nat, acc: seq<OM.Pair<seq<Byte>, Json>>,
                      name: Parsed<seq<Byte>>, item: Parsed<Json>, e: nat)
    requires GapsOk(gaps) && i < |t| && p <= |t| && AtMember(t, p, depth, name, item, e)
    requires t[SkipSpaces(t, p)] == QUOTE && i == name.pos - 1
    ensures ParseMembers(Inserted(t, i, gaps), p, depth, acc)
            == Shifted(ParseMembers(t, p, depth, acc), |GapsText(gaps)|)
  {
    hide SkipSpaces, ParseBase, ParseName, ParseMembers, GapsOk, Inserted, GapsText;
    var q := SkipSpaces(t, p);
    var u := Inserted(t, i, gaps);
    InsertInFrontOfColon(t, i, gaps, q);
    InsertedSame(t, i, gaps);
    SkipStays(t, u, p, i);
    BaseBehind(t, i, gaps, name.pos, depth);
    SkipBehind(t, i, gaps, item.pos);
    MovedMember(t, i, gaps, p, depth, acc, u, name, item);
  }

  lemma InsertInsideValue(t: seq<Byte>, i: nat, gaps: seq<Gap>, p: nat, depth: nat,
                          acc: seq<OM.Pair<seq<Byte>, Json>>, name: Parsed<seq<Byte>>, item: Parsed<Json>, e: nat)
    requires i < |t| && p <= |t| && AtMember(t, p, depth, name, item, e) && name.pos <= i < item.pos
    requires ParseBase(Inserted(t, i, gaps), name.pos, depth) == Shifted(item, |GapsText(gaps)|)
    ensures ParseMembers(Inserted(t, i, gaps), p, depth, acc)
            == Shifted(ParseMembers(t, p, depth, acc), |GapsText(gaps)|)
  {
    hide SkipSpaces, ParseBase, ParseName, ParseMembers, Inserted, GapsText;
    NameStays(t, i, gaps, p);
    SkipBehind(t, i, gaps, item.pos);
    MovedMember(t, i, gaps, p, depth, acc, Inserted(t, i, gaps), name, item);
  }

  lemma InsertBehindValue(t: seq<Byte>, i: nat, gaps: seq<Gap>, p: nat, depth: nat,
                          acc: seq<OM.Pair<seq<Byte>, Json>>, name: Parsed<seq<Byte>>, item: Parsed<Json>, e: nat)
    requires GapsOk(gaps) && i < |t| && p <= |t| && AtMember(t, p, depth, name, item, e)
    requires i == e && Closes(At(t, SkipSpaces(t, name.pos)))
    ensures ParseMembers(Inserted(t, i, gaps), p, depth, acc)
            == Shifted(ParseMembers(t, p, depth, acc), |GapsText(gaps)|)
  {
    hide SkipSpaces, ParseBase, ParseName, ParseMembers, GapsOk, Inserted, GapsText;
    var u := Inserted(t, i, gaps);
    InsertedSame(t, i, gaps);
    NameStays(t, i, gaps, p);
    BaseLocal(t, u, name.pos, depth, i);
    SkipReaches(t, i, gaps, item.pos);
    MovedMember(t, i, gaps, p, depth, acc, u, name, item);
  }

  lemma InsertInLaterMember(t: seq<Byte>, i: nat, gaps: seq<Gap>, p: nat, depth: nat,
                            acc: seq<OM.Pair<seq<Byte>, Json>>, name: Parsed<seq<Byte>>, item: Parsed<Json>, e: nat)
    requires i < |t| && p <= |t| && AtMember(t, p, depth, name, item, e) && e < i && t[e] == COMMA
    requires var more := OM.Put(acc, name.value, item.value);
             ParseMembers(Inserted(t, i, gaps), e + 1, depth, more)
             == Shifted(ParseMembers(t, e + 1, depth, more), |GapsText(gaps)|)
    ensures ParseMembers(Inserted(t, i, gaps), p, depth, acc)
            == Shifted(ParseMembers(t, p, depth, acc), |GapsText(gaps)|)
  {
    hide SkipSpaces, ParseBase, ParseName, ParseMembers, Inserted, GapsText, OM.Put;
    var u := Inserted(t, i, gaps);
    InsertedSame(t, i, gaps);
    NameStays(t, i, gaps, p);
    BaseLocal(t, u, name.pos, depth, i);
    SkipStays(t, u, item.pos, i);
    InsertedByte(t, i, gaps, SkipSpaces(t, p));
    InsertedByte(t, i, gaps, e);
    MembersGoOn(t, p, depth, acc);
    MembersGoOn(u, p, depth, acc);
  }

  lemma {:induction false} InsertInMembers(t: seq<Byte>, i: nat, gaps: seq<Gap>, p: nat, depth: nat,
                                           acc: seq<OM.Pair<seq<Byte>, Json>>)
    requires GapsOk(gaps) && i < |t| && p <= |t|
    requires PlaceInMembers(t, p, depth, i) && ParseMembers(t, p, depth, acc).Done?
    ensures ParseMembers(Inserted(t, i, gaps), p, depth, acc)
            == Shifted(ParseMembers(t, p, depth, acc), |GapsText(gaps)|)
    ensures p <= i < ParseMembers(t, p, depth, acc).pos
    decreases |t| - p, 1
  {
    hide SkipSpaces, ParseBase, ParseName, ParseMembers, GapsOk, Inserted, PlaceInBase, OM.Put;
    var q := SkipSpaces(t, p);
    if i == q {
      InsertInFrontOfName(t, i, gaps, p, depth, acc);
      MembersFromSolid(t, p, depth, acc);
    } else {
      var name := ParseName(t, q);
      var item := ParseBase(t, name.pos, depth);
      var e := SkipSpaces(t, item.pos);
      MembersGoOn(t, p, depth, acc);
      if t[q] == QUOTE && i == name.pos - 1 {
        InsertAtColon(t, i, gaps, p, depth, acc, name, item, e);
      } else if PlaceInBase(t, name.pos, depth, i) {
        InsertInBase(t, i, gaps, name.pos, depth);
        InsertInsideValue(t, i, gaps, p, depth, acc, name, item, e);
      } else if i == e && Closes(At(t, SkipSpaces(t, name.pos))) {
        InsertBehindValue(t, i, gaps, p, depth, acc, name, item, e);
      } else {
        InsertInMembers(t, i, gaps, e + 1, depth, OM.Put(acc, name.value, item.value));
        InsertInLaterMember(t, i, gaps, p, depth, acc, name, item, e);
      }
    }
  }

  /** Blanks and comments inserted at any such place of an accepted text leave the document that
      it parses to. */
  lemma InsertedAnywhere(t: seq<Byte>, i: nat, gaps: seq<Gap>)
    requires GapsOk(gaps) && i < |t| && PlaceInBase(t, 0, 0, i) && Parse(t).Some?
    ensures Parse(t[..i] + GapsText(gaps) + t[i..]) == Parse(t)
  {
    hide ParseBase, PlaceInBase;
    InsertInBase(t, i, gaps, 0, 0);
  }

  /** An unquoted token alone in an array goes on to the bracket, with whatever stands there. */
  lemma TokenInArray(token: seq<Byte>)
    requires token != [] && forall k :: 0 <= k < |token| ==> !IsDelim(token[k]) && token[k] != BACKSLASH
    requires R.Solid(token[0]) && token[0] != QUOTE
    ensures Parse([LBRACKET] + token + [RBRACKET])
            == if ParseConst(token).Some? then Some(Array([ParseConst(token).value])) else None
  {
    hide ParseConst, StringBody, ParseItems, ParseMembers, Trim, CString;
    var t := [LBRACKET] + token + [RBRACKET];
    var e := |t| - 1;
    forall k | 1 <= k < e ensures t[k] == token[k - 1] {
    }
    assert SkipSpaces(t, 0) == 0 && SkipSpaces(t, 1) == 1 && SkipSpaces(t, e) == e;
    R.TokenReads(t, 1, e, []);
    assert [] + t[1..e] == token;
    assert t[1] == token[0];
    assert ParseBase(t, 1, 1) == ParseValue(t, 1);
    BracesAt(t, 0, 0);
    if ParseConst(token).Some? {
      var v := ParseConst(token).value;
      assert ParseBase(t, 1, 1) == Done(v, e);
      ItemsRound(t, 1, 1, 1, [], Done(v, e), e);
      assert [] + [v] == [v];
    } else {
      ItemFails(t, 1, 1, []);
    }
  }

  lemma ItemFails(t: seq<Byte>, p: nat, depth: nat, acc: seq<Json>)
    requires p < |t| && SkipSpaces(t, p) == p && t[p] != RBRACKET && ParseBase(t, p, depth).Fail?
    ensures ParseItems(t, p, depth, acc).Fail?
  {
    hide SkipSpaces, ParseBase;
  }

  /** So a comment behind `true` makes an array be rejected. */
  lemma CommentBehindToken()
    ensures Parse([LBRACKET] + TRUE + [RBRACKET]) == Some(Array([Bool(true)]))
    ensures Parse([LBRACKET] + (TRUE + GapText(Block([]))) + [RBRACKET]) == None
  {
    hide Parse;
    TokenInArray(TRUE);
    TokenInArray(TRUE + GapText(Block([])));
    assert ParseConst(TRUE) == Some(Bool(true));
    assert ParseConst(TRUE + GapText(Block([]))) == None;
  }
}
