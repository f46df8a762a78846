/**
 The file name patterns of pattern.c. A pattern is matched as text; an abstract syntax with
 a rendering and a denotation says what the text means. A pointer into a C string is the
 rest of the string from there; at its end the program reads the terminator.
 */
module Pattern {
  import opened Util

  /** A char is signed. */
  type Char = c: int | -128 <= c < 128

  const NUL: Char := 0
  const QUOTE: Char := 92
  const ANY: Char := 63
  const CLOS: Char := 42
  const SUB: Char := 26
  const NOT: Char := 33
  const SET_L: Char := 91
  const SET_R: Char := 93
  const THRU: Char := 45
  const DOT: Char := 46

  /** The characters with a meaning. */
  lemma Characters()
    ensures NUL == 0 && SUB == 0x1A
    ensures [QUOTE, ANY, CLOS, NOT, SET_L, SET_R, THRU, DOT]
            == ['\\' as Char, '?' as Char, '*' as Char, '!' as Char, '[' as Char, ']' as Char, '-' as Char, '.' as Char]
  {
  }

  type CStr = s: seq<Char> | NUL !in s

  predicate Starts(s: seq<Char>, c: Char)
  {
    s != [] && s[0] == c
  }

  function SkipQuote(s: seq<Char>): (r: seq<Char>)
    ensures |r| <= |s|
  {
    if Starts(s, QUOTE) then s[1..] else s
  }

  // ----- abstract syntax -----

  datatype SetChar = SetChar(c: Char, quoted: bool)

  datatype SetItem = One(lo: SetChar) | Thru(lo: SetChar, hi: SetChar)

  datatype Elem =
    | Lit(c: Char)
    | Quoted(c: Char)
    | Any
    | Star
    | Sub
    | Set(neg: bool, items: seq<SetItem>)

  datatype Pat = End | Not(negated: Pat) | Then(first: Elem, rest: Pat)

  function RenderChar(x: SetChar): seq<Char>
  {
    if x.quoted then [QUOTE, x.c] else [x.c]
  }

  function RenderItem(x: SetItem): (r: seq<Char>)
    ensures |r| > 0
  {
    match x
    case One(lo) => RenderChar(lo)
    case Thru(lo, hi) => RenderChar(lo) + [THRU] + RenderChar(hi)
  }

  function RenderItems(items: seq<SetItem>): seq<Char>
  {
    if items == [] then [] else RenderItem(items[0]) + RenderItems(items[1..])
  }

  function RenderElem(e: Elem): seq<Char>
  {
    match e
    case Lit(c) => [c]
    case Quoted(c) => [QUOTE, c]
    case Any => [ANY]
    case Star => [CLOS]
    case Sub => [SUB]
    case Set(neg, items) => [SET_L] + (if neg then [NOT] else []) + RenderItems(items) + [SET_R]
  }

  function Render(p: Pat): seq<Char>
  {
    match p
    case End => []
    case Not(q) => [NOT] + Render(q)
    case Then(e, q) => RenderElem(e) + Render(q)
  }

  // ----- well-formed syntax: what a rendering can say in only one way -----

  /** Behind a dash even a closing bracket is an ordinary character. */
  predicate SetCharOk(x: SetChar, behindDash: bool)
  {
    x.c != NUL && (x.quoted || (x.c != QUOTE && (behindDash || x.c != SET_R)))
  }

  predicate ItemOk(x: SetItem)
  {
    SetCharOk(x.lo, false) && (x.Thru? ==> SetCharOk(x.hi, true))
  }

  predicate ItemsOk(items: seq<SetItem>)
  {
    items != [] ==>
      && ItemOk(items[0])
      && ItemsOk(items[1..])
      && (items[0].One? ==> !Starts(RenderItems(items[1..]), THRU))
  }

  predicate Special(c: Char)
  {
    c == NUL || c == QUOTE || c == ANY || c == CLOS || c == SUB || c == NOT || c == SET_L
  }

  predicate ElemOk(e: Elem)
  {
    match e
    case Lit(c) => !Special(c)
    case Quoted(c) => c != NUL
    case Set(neg, items) => ItemsOk(items) && (neg || !Starts(RenderItems(items), NOT))
    case _ => true
  }

  predicate PatOk(p: Pat)
  {
    match p
    case End => true
    case Not(q) => q != End && PatOk(q)
    case Then(e, q) => ElemOk(e) && PatOk(q)
  }

  predicate HasNot(p: Pat)
  {
    match p
    case End => false
    case Not(_) => true
    case Then(_, q) => HasNot(q)
  }

  // ----- denotation -----

  ghost predicate InSet(items: seq<SetItem>, c: Char)
  {
    exists i :: 0 <= i < |items| && items[i].lo.c <= c <= (if items[i].Thru? then items[i].hi.c else items[i].lo.c)
  }

  ghost predicate ElemDenotes(e: Elem, s: seq<Char>)
  {
    match e
    case Lit(c) => s == [c]
    case Quoted(c) => s == [c]
    case Any => |s| == 1
    case Star => true
    case Sub => DOT !in s
    case Set(neg, items) => |s| == 1 && (InSet(items, s[0]) <==> !neg)
  }

  /** The language of a pattern: elements match consecutive pieces, a negation is the complement. */
  ghost predicate Denotes(p: Pat, s: seq<Char>)
  {
    match p
    case End => s == []
    case Not(q) => !Denotes(q, s)
    case Then(e, q) => exists i :: 0 <= i <= |s| && ElemDenotes(e, s[..i]) && Denotes(q, s[i..])
  }

  // ----- the matcher on text -----

  /** The scan of a set: whether `c` matches, and the text at the closing bracket, or nothing
      if the text ends first. */
  function SetScan(pat: seq<Char>, c: Char, yes: bool, found: bool): (r: (bool, seq<Char>))
    ensures |r.1| <= |pat| && (r.1 != [] ==> r.1[0] == SET_R)
    decreases |pat|
  {
    if pat == [] || pat[0] == SET_R then (found, pat)
    else
      var p1 := SkipQuote(pat);
      if p1 == [] then (found, [])
      else
        var lo, p2 := p1[0], p1[1..];
        if Starts(p2, THRU) then
          var p4 := SkipQuote(p2[1..]);
          if |p4| <= 1 then (found, [])
          else SetScan(p4[1..], c, yes, if lo <= c <= p4[0] then yes else found)
        else if p2 == [] then (found, [])
        else SetScan(p2, c, yes, if lo <= c <= lo then yes else found)
  }

  /** The length of the dot-free start. */
  function SubLength(s: seq<Char>): (n: nat)
    ensures n <= |s| && DOT !in s[..n] && (n < |s| ==> s[n] == DOT)
  {
    if s == [] || s[0] == DOT then 0
    else
      assert s[..1 + SubLength(s[1..])] == [s[0]] + s[1..][..SubLength(s[1..])];
      1 + SubLength(s[1..])
  }

  predicate Submatch(pat: seq<Char>, s: seq<Char>)
    decreases |pat|, 1, 0
  {
    if pat == [] then s == []
    else
      var rest := pat[1..];
      if pat[0] == ANY then s != [] && Submatch(rest, s[1..])
      else if pat[0] == CLOS then SomeSplit(rest, s, |s|)
      else if pat[0] == SUB then SomeSplit(rest, s, SubLength(s))
      else if pat[0] == QUOTE then rest != [] && Starts(s, rest[0]) && Submatch(rest[1..], s[1..])
      else if pat[0] == SET_L then
        s != [] &&
        var neg := Starts(rest, NOT);
        var scan := SetScan(if neg then rest[1..] else rest, s[0], !neg, neg);
        scan.0 && scan.1 != [] && Submatch(scan.1[1..], s[1..])
      else if pat[0] == NOT then rest != [] && !Submatch(rest, s)
      else Starts(s, pat[0]) && Submatch(rest, s[1..])
  }

  /** The splits tried for a star, from the longest piece down. */
  predicate SomeSplit(pat: seq<Char>, s: seq<Char>, i: nat)
    requires i <= |s|
    decreases |pat|, 2, i
  {
    Submatch(pat, s[i..]) || (i > 0 && SomeSplit(pat, s, i - 1))
  }

  // ----- the text of a pattern matches what the pattern denotes -----

  lemma {:induction false} SomeSplitMeans(pat: seq<Char>, s: seq<Char>, i: nat)
    requires i <= |s|
    ensures SomeSplit(pat, s, i) <==> exists k :: 0 <= k <= i && Submatch(pat, s[k..])
  {
    if i > 0 {
      SomeSplitMeans(pat, s, i - 1);
    }
  }

  lemma {:induction false} ScanOfItems(items: seq<SetItem>, tail: seq<Char>, c: Char, yes: bool, found: bool)
    requires ItemsOk(items)
    ensures SetScan(RenderItems(items) + [SET_R] + tail, c, yes, found)
            == (if InSet(items, c) then yes else found, [SET_R] + tail)
  {
    hide SetScan, InSet, RenderItem, ItemOk;
    if items == [] {
      assert RenderItems(items) + [SET_R] + tail == [SET_R] + tail;
      ScanOfNone(tail, c, yes, found);
    } else {
      ScanOfItem(items[0], RenderItems(items[1..]) + [SET_R] + tail, c, yes, found);
      var here := items[0].lo.c <= c <= (if items[0].Thru? then items[0].hi.c else items[0].lo.c);
      ScanOfItems(items[1..], tail, c, yes, if here then yes else found);
      assert RenderItems(items) + [SET_R] + tail == RenderItem(items[0]) + (RenderItems(items[1..]) + [SET_R] + tail);
      InSetStep(items, c);
    }
  }

  lemma ScanOfNone(tail: seq<Char>, c: Char, yes: bool, found: bool)
    ensures SetScan([SET_R] + tail, c, yes, found) == (found, [SET_R] + tail) && !InSet([], c)
  {
  }

  lemma InSetStep(items: seq<SetItem>, c: Char)
    requires items != []
    ensures InSet(items, c) <==>
            items[0].lo.c <= c <= (if items[0].Thru? then items[0].hi.c else items[0].lo.c) || InSet(items[1..], c)
  {
    if InSet(items[1..], c) {
      var i :| 0 <= i < |items[1..]|
        && items[1..][i].lo.c <= c <= (if items[1..][i].Thru? then items[1..][i].hi.c else items[1..][i].lo.c);
      assert items[i + 1] == items[1..][i];
    }
  }

  lemma ScanOfItem(item: SetItem, tail: seq<Char>, c: Char, yes: bool, found: bool)
    requires ItemOk(item) && tail != [] && (item.One? ==> !Starts(tail, THRU))
    ensures SetScan(RenderItem(item) + tail, c, yes, found)
            == SetScan(tail, c, yes,
                       if item.lo.c <= c <= (if item.Thru? then item.hi.c else item.lo.c) then yes else found)
  {
    hide RenderItem, RenderChar, SkipQuote;
    ItemText(item, tail);
  }

  /** How the text of an item is taken apart. */
  lemma ItemText(item: SetItem, tail: seq<Char>)
    requires ItemOk(item) && (item.One? ==> !Starts(tail, THRU))
    ensures var text := RenderItem(item) + tail;
            var p1 := SkipQuote(text);
            && text != [] && text[0] != SET_R && p1 != [] && p1[0] == item.lo.c
            && (item.One? ==> p1[1..] == tail && !Starts(p1[1..], THRU))
            && (item.Thru? ==>
                  && Starts(p1[1..], THRU)
                  && var p4 := SkipQuote(p1[1..][1..]);
                  p4 != [] && p4[0] == item.hi.c && p4[1..] == tail)
  {
    match item
    case One(lo) => CharText(lo, tail);
    case Thru(lo, hi) =>
      var dash := [THRU] + (RenderChar(hi) + tail);
      assert RenderItem(item) + tail == RenderChar(lo) + dash;
      CharText(lo, dash);
      CharText(hi, tail);
      assert dash[1..] == RenderChar(hi) + tail;
  }

  lemma CharText(x: SetChar, tail: seq<Char>)
    requires SetCharOk(x, true)
    ensures var text := RenderChar(x) + tail;
            && text[0] == (if x.quoted then QUOTE else x.c)
            && SkipQuote(text) != [] && SkipQuote(text)[0] == x.c && SkipQuote(text)[1..] == tail
  {
    assert SkipQuote(RenderChar(x) + tail) == [x.c] + tail;
  }

  /** The matcher decides the language of every pattern, on every name. */
  lemma {:induction false} SubmatchDenotes(p: Pat, s: seq<Char>)
    requires PatOk(p)
    ensures Submatch(Render(p), s) <==> Denotes(p, s)
    decreases p
  {
    match p
    case End =>
    case Not(q) =>
      assert Render(p)[1..] == Render(q);
      RenderNonEmpty(q);
      SubmatchDenotes(q, s);
    case Then(e, q) =>
      forall i | 0 <= i <= |s| ensures Submatch(Render(q), s[i..]) <==> Denotes(q, s[i..]) {
        SubmatchDenotes(q, s[i..]);
      }
      FirstElem(e, Render(q), s);
  }

  lemma RenderNonEmpty(p: Pat)
    requires PatOk(p) && p != End
    ensures Render(p) != []
  {
  }

  /** One element takes a piece off the name. */
  lemma FirstElem(e: Elem, rest: seq<Char>, s: seq<Char>)
    requires ElemOk(e)
    ensures Submatch(RenderElem(e) + rest, s)
            <==> exists i :: 0 <= i <= |s| && ElemDenotes(e, s[..i]) && Submatch(rest, s[i..])
  {
    hide InSet;
    var text := RenderElem(e) + rest;
    match e
    case Star =>
      assert text[1..] == rest;
      SomeSplitMeans(rest, s, |s|);
    case Sub =>
      assert text[1..] == rest;
      SomeSplitMeans(rest, s, SubLength(s));
      forall i | 0 <= i <= |s| ensures DOT !in s[..i] <==> i <= SubLength(s) {
        DotFree(s, i);
      }
    case Lit(c) =>
      assert text[1..] == rest;
      SinglePiece(e, rest, s);
    case Any =>
      assert text[1..] == rest;
      SinglePiece(e, rest, s);
    case Quoted(c) =>
      assert text[1..] == [c] + rest && text[1..][1..] == rest;
      SinglePiece(e, rest, s);
    case Set(neg, items) =>
      SetElem(neg, items, rest, s);
      SinglePiece(e, rest, s);
  }

  lemma DotFree(s: seq<Char>, i: nat)
    requires i <= |s|
    ensures DOT !in s[..i] <==> i <= SubLength(s)
  {
    if SubLength(s) < i {
      assert s[..i][SubLength(s)] == DOT;
    } else {
      assert s[..i] == s[..SubLength(s)][..i];
    }
  }

  /** Elements that denote single characters. */
  lemma SinglePiece(e: Elem, rest: seq<Char>, s: seq<Char>)
    requires !e.Star? && !e.Sub?
    ensures (exists i :: 0 <= i <= |s| && ElemDenotes(e, s[..i]) && Submatch(rest, s[i..]))
            <==> s != [] && ElemDenotes(e, [s[0]]) && Submatch(rest, s[1..])
  {
    hide Submatch, InSet;
    forall i | 0 <= i <= |s| && ElemDenotes(e, s[..i]) ensures i == 1 {
      assert |s[..i]| == i;
    }
    if s != [] {
      assert s[..1] == [s[0]];
    }
  }

  lemma SetElem(neg: bool, items: seq<SetItem>, rest: seq<Char>, s: seq<Char>)
    requires ElemOk(Set(neg, items))
    ensures Submatch(RenderElem(Set(neg, items)) + rest, s)
            <==> s != [] && (InSet(items, s[0]) <==> !neg) && Submatch(rest, s[1..])
  {
    hide SetScan, InSet, ItemsOk, RenderElem, RenderItems;
    SetText(neg, items, rest);
    if s != [] {
      ScanOfItems(items, rest, s[0], !neg, neg);
      assert ([SET_R] + rest)[1..] == rest;
    }
  }

  lemma SetText(neg: bool, items: seq<SetItem>, rest: seq<Char>)
    requires ElemOk(Set(neg, items))
    ensures var text := RenderElem(Set(neg, items)) + rest;
            && Starts(text, SET_L)
            && (Starts(text[1..], NOT) <==> neg)
            && (if neg then text[1..][1..] else text[1..]) == RenderItems(items) + [SET_R] + rest
  {
    hide ItemsOk, RenderItems;
    var text := RenderElem(Set(neg, items)) + rest;
    assert text[1..] == (if neg then [NOT] else []) + (RenderItems(items) + [SET_R] + rest);
  }

  // ----- validity -----

  /** The scan of a set by the validity check: the text behind the closing bracket. */
  function SkipSet(pat: seq<Char>): (r: Option<seq<Char>>)
    ensures r.Some? ==> |r.value| < |pat|
    decreases |pat|
  {
    if Starts(pat, SET_R) then Some(pat[1..])
    else
      var p1 := SkipQuote(pat);
      if p1 == [] then None
      else
        var p2 := p1[1..];
        if Starts(p2, THRU) then
          var p4 := SkipQuote(p2[1..]);
          if |p4| <= 1 then None else SkipSet(p4[1..])
        else if p2 == [] then None
        else SkipSet(p2)
  }

  predicate Valid(pat: seq<Char>)
    decreases |pat|
  {
    pat == [] ||
    if pat[0] == SET_L then
      var rest := SkipSet(if Starts(pat[1..], NOT) then pat[2..] else pat[1..]);
      rest.Some? && Valid(rest.value)
    else if pat[0] == QUOTE || pat[0] == NOT then |pat| > 1 && Valid(pat[2..])
    else Valid(pat[1..])
  }

  /** What the check does at an element: it steps over exactly its rendering. */
  lemma {:induction false} ValidSteps(e: Elem, rest: seq<Char>)
    requires ElemOk(e)
    ensures Valid(RenderElem(e) + rest) <==> Valid(rest)
  {
    var text := RenderElem(e) + rest;
    match e
    case Quoted(c) => assert text[2..] == rest;
    case Set(neg, items) =>
      SetText(neg, items, rest);
      assert neg ==> text[1..][1..] == text[2..];
      SkipOfItems(items, rest);
    case _ => assert text[1..] == rest;
  }

  /** The check and the matcher read a set alike, whatever character is looked for. */
  lemma {:induction false} SkipIsScan(pat: seq<Char>, c: Char, yes: bool, found: bool)
    ensures var at := SetScan(pat, c, yes, found).1;
            SkipSet(pat) == if at == [] then None else Some(at[1..])
    decreases |pat|
  {
    if pat != [] && pat[0] != SET_R {
      var p1 := SkipQuote(pat);
      if p1 != [] {
        var lo, p2 := p1[0], p1[1..];
        if Starts(p2, THRU) {
          var p4 := SkipQuote(p2[1..]);
          if |p4| > 1 {
            SkipIsScan(p4[1..], c, yes, if lo <= c <= p4[0] then yes else found);
          }
        } else if p2 != [] {
          SkipIsScan(p2, c, yes, if lo <= c <= lo then yes else found);
        }
      }
    }
  }

  lemma SkipOfItems(items: seq<SetItem>, tail: seq<Char>)
    requires ItemsOk(items)
    ensures SkipSet(RenderItems(items) + [SET_R] + tail) == Some(tail)
  {
    hide SkipSet, SetScan, ItemsOk, InSet;
    ScanOfItems(items, tail, NUL, true, false);
    SkipIsScan(RenderItems(items) + [SET_R] + tail, NUL, true, false);
    assert ([SET_R] + tail)[1..] == tail;
  }

  lemma ThruText(lo: SetChar, hi: SetChar, dash: seq<Char>, tail: seq<Char>)
    requires Starts(dash, THRU) && dash[1..] == RenderChar(hi) + tail
    ensures RenderChar(lo) + dash == RenderItem(Thru(lo, hi)) + tail
  {
    assert dash == [THRU] + dash[1..];
  }

  lemma NoItems(tail: seq<Char>)
    ensures ItemsOk([]) && [SET_R] + tail == RenderItems([]) + [SET_R] + tail
  {
  }

  /** Every text the set scan accepts is the rendering of some items. */
  lemma {:induction false} ItemsOfText(pat: CStr) returns (items: seq<SetItem>)
    requires SkipSet(pat).Some?
    ensures ItemsOk(items) && pat == RenderItems(items) + [SET_R] + SkipSet(pat).value
    decreases |pat|
  {
    hide ItemsOk, RenderItems;
    if Starts(pat, SET_R) {
      items := [];
      NoItems(pat[1..]);
      assert pat == [SET_R] + pat[1..];
    } else {
      var p1 := SkipQuote(pat);
      var lo := SetChar(p1[0], Starts(pat, QUOTE));
      var p2 := p1[1..];
      assert pat == RenderChar(lo) + p2;
      if Starts(p2, THRU) {
        var p4 := SkipQuote(p2[1..]);
        var hi := SetChar(p4[0], Starts(p2[1..], QUOTE));
        ThruText(lo, hi, p2, p4[1..]);
        var more := ItemsOfText(p4[1..]);
        items := PrependItem(Thru(lo, hi), more, p4[1..], SkipSet(pat).value);
      } else {
        var more := ItemsOfText(p2);
        items := PrependItem(One(lo), more, p2, SkipSet(pat).value);
      }
    }
  }

  lemma PrependItem(item: SetItem, more: seq<SetItem>, text: seq<Char>, tail: seq<Char>) returns (items: seq<SetItem>)
    requires ItemOk(item) && ItemsOk(more) && text == RenderItems(more) + [SET_R] + tail
    requires item.One? ==> !Starts(text, THRU)
    ensures ItemsOk(items) && RenderItem(item) + text == RenderItems(items) + [SET_R] + tail
  {
    items := [item] + more;
    assert items[1..] == more;
    assert RenderItems(items) == RenderItem(item) + RenderItems(more);
  }

  /** Renderings without a negation are valid. */
  lemma {:induction false} RenderingsAreValid(p: Pat)
    requires PatOk(p) && !HasNot(p)
    ensures Valid(Render(p))
  {
    if p.Then? {
      RenderingsAreValid(p.rest);
      ValidSteps(p.first, Render(p.rest));
    }
  }

  /** The check skips the character behind a negation, whatever it is. */
  lemma {:induction false} ValidAtNot(p: Pat, rest: seq<Char>)
    requires PatOk(p) && !HasNot(p)
    ensures Valid(Render(p) + [NOT] + rest) <==> rest != [] && Valid(rest[1..])
  {
    var text := Render(p) + [NOT] + rest;
    if p == End {
      assert text == [NOT] + rest;
      assert rest != [] ==> text[2..] == rest[1..];
    } else {
      var more := Render(p.rest) + [NOT] + rest;
      assert text == RenderElem(p.first) + more;
      ValidSteps(p.first, more);
      ValidAtNot(p.rest, rest);
    }
  }

  /** A text is spelled by a negation-free pattern, perhaps with a negation mark and a text
      behind it that is valid from its second character on. */
  ghost predicate Spells(p: Pat, mark: Option<seq<Char>>, pat: seq<Char>)
  {
    && PatOk(p) && !HasNot(p)
    && pat == Render(p) + (if mark.Some? then [NOT] + mark.value else [])
    && (mark.Some? ==> mark.value != [] && Valid(mark.value[1..]))
  }

  /** What the check accepts: without a negation mark outside sets, exactly the renderings. */
  lemma {:induction false} ValidIff(pat: CStr)
    ensures Valid(pat) <==> exists p, mark :: Spells(p, mark, pat)
  {
    hide Valid, Render, PatOk;
    if Valid(pat) {
      var p, mark := PatOfText(pat);
      assert Spells(p, mark, pat);
    }
    forall p, mark | Spells(p, mark, pat) ensures Valid(pat) {
      if mark.Some? {
        assert pat == Render(p) + [NOT] + mark.value;
        ValidAtNot(p, mark.value);
      } else {
        assert pat == Render(p);
        RenderingsAreValid(p);
      }
    }
  }

  lemma {:induction false} PatOfText(pat: CStr) returns (p: Pat, mark: Option<seq<Char>>)
    requires Valid(pat)
    ensures Spells(p, mark, pat)
    decreases |pat|
  {
    hide Valid, ElemOk, RenderElem;
    if pat == [] {
      p, mark := End, None;
    } else if pat[0] == NOT {
      ValidText(pat);
      p, mark := End, Some(pat[1..]);
      assert pat == [NOT] + pat[1..] && pat[1..][1..] == pat[2..];
    } else {
      var e, more := ElemOfText(pat);
      ValidSteps(e, more);
      var q;
      q, mark := PatOfText(more);
      p := Then(e, q);
    }
  }

  lemma ElemOfText(pat: CStr) returns (e: Elem, more: CStr)
    requires Valid(pat) && pat != [] && pat[0] != NOT
    ensures ElemOk(e) && pat == RenderElem(e) + more && |more| < |pat|
  {
    hide Valid, ItemsOk, RenderItems, SkipSet;
    ValidText(pat);
    if pat[0] == SET_L {
      var neg := Starts(pat[1..], NOT);
      var body: CStr := if neg then pat[2..] else pat[1..];
      var items := ItemsOfText(body);
      e, more := Set(neg, items), SkipSet(body).value;
      SetSpelled(pat, neg, items, more);
    } else if pat[0] == QUOTE {
      e, more := Quoted(pat[1]), pat[2..];
    } else {
      e := if pat[0] == ANY then Any else if pat[0] == CLOS then Star else if pat[0] == SUB then Sub else Lit(pat[0]);
      more := pat[1..];
    }
  }

  lemma SetSpelled(pat: seq<Char>, neg: bool, items: seq<SetItem>, more: seq<Char>)
    requires Starts(pat, SET_L) && (neg <==> Starts(pat[1..], NOT))
    requires (if neg then pat[2..] else pat[1..]) == RenderItems(items) + [SET_R] + more
    ensures pat == RenderElem(Set(neg, items)) + more && |more| < |pat|
    ensures neg || !Starts(RenderItems(items), NOT)
  {
    hide RenderItems;
    var body, mark := RenderItems(items), if neg then [NOT] else [];
    assert pat == [SET_L] + (mark + (body + [SET_R] + more));
    Regroup([SET_L], mark, body, [SET_R], more);
    if !neg && body != [] {
      assert pat[1..][0] == (body + [SET_R] + more)[0] == body[0];
    }
  }

  lemma Regroup(a: seq<Char>, b: seq<Char>, c: seq<Char>, d: seq<Char>, e: seq<Char>)
    ensures a + (b + (c + d + e)) == a + b + c + d + e
  {
  }

  lemma ValidText(pat: seq<Char>)
    requires Valid(pat) && pat != []
    ensures pat[0] == QUOTE ==> |pat| > 1
    ensures pat[0] == NOT ==> |pat| > 1 && Valid(pat[2..])
    ensures pat[0] == SET_L ==> SkipSet(if Starts(pat[1..], NOT) then pat[2..] else pat[1..]).Some?
  {
  }

  /** "![" is valid, but it renders no pattern: nothing closes the bracket. */
  lemma ValidAcceptsMore()
    ensures Valid([NOT, SET_L])
    ensures !exists p: Pat :: PatOk(p) && Render(p) == [NOT, SET_L]
  {
    forall p: Pat | PatOk(p) ensures Render(p) != [NOT, SET_L] {
      match p
      case End =>
      case Then(e, q) => FirstChar(e, Render(q));
      case Not(q) => OpenBracket(q); assert Render(p)[1..] == Render(q);
    }
  }

  lemma FirstChar(e: Elem, rest: seq<Char>)
    requires ElemOk(e)
    ensures (RenderElem(e) + rest)[0] != NOT
    ensures (RenderElem(e) + rest)[0] == SET_L ==> |RenderElem(e)| > 1
  {
  }

  lemma OpenBracket(q: Pat)
    requires PatOk(q)
    ensures Render(q) != [SET_L]
  {
    match q
    case End =>
    case Not(_) => assert Render(q)[0] == NOT;
    case Then(e, r) => FirstChar(e, Render(r));
  }

  // ----- the program -----

  /** The loop of the set case. */
  method ScanSet(start: CStr, fch: Char, yes: bool) returns (found: bool, pat: CStr)
    ensures (found, pat) == SetScan(start, fch, yes, !yes)
  {
    pat := start;
    found := !yes;
    while !Starts(pat, SET_R) && pat != []
      invariant SetScan(start, fch, yes, !yes) == SetScan(pat, fch, yes, found)
      decreases |pat|
    {
      pat := SkipQuote(pat);
      if pat == [] {
        break;
      }
      var lo := pat[0];
      pat := pat[1..];
      var hi := lo;
      if Starts(pat, THRU) {
        pat := SkipQuote(pat[1..]);
        if pat == [] {
          break;
        }
        hi := pat[0];
        pat := pat[1..];
      }
      if pat == [] {
        break;
      }
      if lo <= fch <= hi {
        found := yes;
      }
    }
  }

  /** The stars: tries every split, from the longest piece down. */
  method TrySplits(pat: CStr, fname: CStr, longest: nat) returns (ok: bool)
    requires longest <= |fname|
    ensures ok == SomeSplit(pat, fname, longest)
    decreases |pat|, 2
  {
    var i: int := longest;
    while i >= 0
      invariant -1 <= i <= longest
      invariant SomeSplit(pat, fname, longest) == (i >= 0 && SomeSplit(pat, fname, i))
    {
      var here := PatternSubmatch(pat, fname[i..]);
      if here {
        return true;
      }
      i := i - 1;
    }
    return false;
  }

  method PatternSubmatch(pattern: CStr, name: CStr) returns (ok: bool)
    ensures ok == Submatch(pattern, name)
    decreases |pattern|, 1
  {
    hide SetScan, SomeSplit;
    var pat, fname: CStr := pattern, name;
    while pat != []
      invariant |pat| <= |pattern|
      invariant Submatch(pattern, name) == Submatch(pat, fname)
      decreases |pat|
    {
      var pch := pat[0];
      var rest: CStr := pat[1..];
      if pch == CLOS || pch == SUB {
        var i := 0;
        while i < |fname| && (pch == CLOS || fname[i] != DOT)
          invariant 0 <= i <= |fname| && (pch == SUB ==> DOT !in fname[..i])
        {
          i := i + 1;
        }
        if pch == SUB {
          DotFree(fname, i);
        }
        ok := TrySplits(rest, fname, i);
        return;
      } else if pch == NOT {
        if rest == [] {
          return false;
        }
        var other := PatternSubmatch(rest, fname);
        return !other;
      } else if fname == [] {
        return false;
      } else if pch == ANY {
        pat := rest;
      } else if pch == QUOTE {
        if !Starts(rest, fname[0]) {
          return false;
        }
        pat := rest[1..];
      } else if pch == SET_L {
        var neg := Starts(rest, NOT);
        var found, at := ScanSet(if neg then rest[1..] else rest, fname[0], !neg);
        if !found || at == [] {
          return false;
        }
        pat := at[1..];
      } else {
        if fname[0] != pch {
          return false;
        }
        pat := rest;
      }
      fname := fname[1..];
    }
    return fname == [];
  }

  method PatternIsValid(pattern: Option<CStr>) returns (ok: bool)
    ensures ok == (pattern.Some? && Valid(pattern.value))
  {
    if pattern.None? {
      return false;
    }
    var pat: CStr := pattern.value;
    while pat != []
      invariant Valid(pattern.value) == Valid(pat)
      decreases |pat|
    {
      if pat[0] == SET_L {
        ghost var start := if Starts(pat[1..], NOT) then pat[2..] else pat[1..];
        ghost var whole := Valid(pat);
        assert whole == (SkipSet(start).Some? && Valid(SkipSet(start).value));
        var n := |pat|;
        pat := pat[1..];
        if Starts(pat, NOT) {
          pat := pat[1..];
        }
        while !Starts(pat, SET_R)
          invariant SkipSet(start) == SkipSet(pat) && |pat| < n
          decreases |pat|
        {
          pat := SkipQuote(pat);
          if pat == [] {
            return false;
          }
          pat := pat[1..];
          if Starts(pat, THRU) {
            pat := SkipQuote(pat[1..]);
            if pat == [] {
              return false;
            }
            pat := pat[1..];
          }
          if pat == [] {
            return false;
          }
        }
        pat := pat[1..];
      } else if pat[0] == QUOTE || pat[0] == NOT {
        if |pat| == 1 {
          return false;
        }
        pat := pat[2..];
      } else {
        pat := pat[1..];
      }
    }
    return true;
  }

  /** CMUTIL_PatternMatch; a missing argument is a null pointer. */
  method PatternMatch(pat: Option<CStr>, fname: Option<CStr>) returns (ok: bool)
    ensures ok == (pat.Some? && fname.Some? && Accepts(pat.value, fname.value))
  {
    hide Valid, Submatch;
    if fname.None? || pat.None? {
      return false;
    }
    var valid := PatternIsValid(pat);
    if !valid {
      return false;
    }
    if fname.value == [] {
      return pat.value == [];
    }
    ok := PatternSubmatch(pat.value, fname.value);
  }

  method PatternMatchN(pat: Option<CStr>, fname: Option<CStr>) returns (ok: bool)
    ensures ok == (pat.Some? && fname.Some? && Submatch(pat.value, fname.value))
  {
    if fname.None? || pat.None? {
      return false;
    }
    ok := PatternSubmatch(pat.value, fname.value);
  }

  predicate Accepts(pat: seq<Char>, s: seq<Char>)
  {
    Valid(pat) && if s == [] then pat == [] else Submatch(pat, s)
  }

  /** What the public matcher accepts, for every pattern: what the pattern denotes, unless the
      check refuses the text or the name is empty. */
  lemma MatchDenotes(p: Pat, s: seq<Char>)
    requires PatOk(p)
    ensures Accepts(Render(p), s) <==> Valid(Render(p)) && if s == [] then p == End else Denotes(p, s)
  {
    hide Valid, Submatch, Render;
    SubmatchDenotes(p, s);
    EndText();
    if p != End {
      RenderNonEmpty(p);
    }
  }

  /** What stands behind the first negation mark. */
  function Negated(p: Pat): Pat
    requires HasNot(p)
  {
    if p.Not? then p.negated else Negated(p.rest)
  }

  lemma EmptyIsValid()
    ensures Valid([])
  {
  }

  lemma ValidBehindNot(text: seq<Char>)
    requires text != []
    ensures Valid([NOT] + text) <==> Valid(text[1..])
  {
    assert ([NOT] + text)[2..] == text[1..];
  }

  /** The check accepts the text of every pattern without a negation mark, and of another one
      exactly when it accepts what follows the character behind the mark. */
  lemma {:induction false} RenderingValidIff(p: Pat)
    requires PatOk(p)
    ensures Valid(Render(p)) <==> !HasNot(p) || (Render(Negated(p)) != [] && Valid(Render(Negated(p))[1..]))
  {
    hide Valid, RenderElem, ElemOk;
    match p
    case End => EmptyIsValid();
    case Not(q) =>
      RenderNonEmpty(q);
      ValidBehindNot(Render(q));
    case Then(e, q) =>
      RenderingValidIff(q);
      ValidSteps(e, Render(q));
  }

  /** What that means for the pattern behind the mark: the text of an element of one character
      is stepped over as it should be, a second mark is taken for an ordinary character, and a
      quote for its own character, so that the quoted one is read as if nothing quoted it. */
  lemma NegationValid(q: Pat)
    requires PatOk(q) && q != End
    ensures Render(q) != []
    ensures q.Not? ==> (Valid(Render(q)[1..]) <==> Valid(Render(q.negated)))
    ensures q.Then? && (q.first.Lit? || q.first.Any? || q.first.Star? || q.first.Sub?) ==>
      (Valid(Render(q)[1..]) <==> Valid(Render(q.rest)))
    ensures q.Then? && q.first.Quoted? && q.first.c != QUOTE && q.first.c != NOT && q.first.c != SET_L ==>
      (Valid(Render(q)[1..]) <==> Valid(Render(q.rest)))
    ensures q.Then? && q.first.Quoted? && (q.first.c == QUOTE || q.first.c == NOT) ==>
      (Valid(Render(q)[1..]) <==> Render(q.rest) != [] && Valid(Render(q.rest)[1..]))
    ensures q.Then? && (q.first == Quoted(SET_L) || q.first.Set?) ==>
      (Valid(Render(q)[1..]) <==> Valid(RenderElem(q.first)[1..] + Render(q.rest)))
  {
    hide Valid, Render, RenderElem;
    RenderNonEmpty(q);
    TextBehindFirst(q);
    if q.Then? && q.first.Quoted? && q.first.c != SET_L {
      BehindChar(q.first.c, Render(q.rest));
    }
  }

  /** The text of a pattern behind its first character. */
  lemma TextBehindFirst(q: Pat)
    requires PatOk(q) && q != End
    ensures Render(q) != []
    ensures q.Not? ==> Render(q)[1..] == Render(q.negated)
    ensures q.Then? ==> RenderElem(q.first) != [] && Render(q)[1..] == RenderElem(q.first)[1..] + Render(q.rest)
    ensures q.Then? && !q.first.Quoted? && !q.first.Set? ==> Render(q)[1..] == Render(q.rest)
    ensures q.Then? && q.first.Quoted? ==> Render(q)[1..] == [q.first.c] + Render(q.rest)
  {
    hide RenderItems;
    match q
    case Not(r) => assert Render(q)[1..] == Render(r);
    case Then(e, r) => assert Render(q)[1..] == RenderElem(e)[1..] + Render(r);
  }

  lemma BehindChar(c: Char, text: seq<Char>)
    requires c != SET_L
    ensures Valid([c] + text) <==> if c == QUOTE || c == NOT then text != [] && Valid(text[1..]) else Valid(text)
  {
    assert ([c] + text)[1..] == text;
    assert text != [] ==> ([c] + text)[2..] == text[1..];
  }

  /** Two well-formed negations that the check refuses, so that nothing matches them: of a
      quoted bracket and of a quoted quote. */
  lemma ValidRefusesNegations(s: seq<Char>)
    ensures var bracket, quote := Not(Then(Quoted(SET_L), End)), Not(Then(Quoted(QUOTE), End));
            && PatOk(bracket) && Render(bracket) == [NOT, QUOTE, SET_L] && !Valid(Render(bracket))
            && PatOk(quote) && Render(quote) == [NOT, QUOTE, QUOTE] && !Valid(Render(quote))
            && !Accepts(Render(bracket), s) && !Accepts(Render(quote), s)
            && (|s| > 1 ==> Denotes(bracket, s) && Denotes(quote, s))
  {
    var bracket, quote := Not(Then(Quoted(SET_L), End)), Not(Then(Quoted(QUOTE), End));
    assert Render(bracket) == [NOT, QUOTE, SET_L] && Render(quote) == [NOT, QUOTE, QUOTE];
    assert [NOT, QUOTE, SET_L][2..] == [SET_L] && [NOT, QUOTE, QUOTE][2..] == [QUOTE];
    assert [SET_L][1..] == [];
    if |s| > 1 {
      forall i | 0 <= i <= |s| && s[i..] == [] ensures s[..i] == s {
      }
    }
  }

  lemma EndText()
    ensures Render(End) == []
  {
  }

  /** The star denotes the empty name but does not match it. */
  lemma StarMissesEmptyName()
    ensures Denotes(Then(Star, End), []) && !Accepts(Render(Then(Star, End)), [])
  {
    var empty: seq<Char> := [];
    assert ElemDenotes(Star, empty[..0]) && Denotes(End, empty[0..]);
  }
}
