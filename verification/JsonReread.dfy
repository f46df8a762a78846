/**
 Printing undoes parsing: whatever document the parser accepts, from whatever text, is one that
 the printed text gives back.
 */
module JsonReread {
  import opened Util
  import opened Text
  import opened OrderedMap
  import opened JsonText
  import opened JsonRoundTrip

  /** What the parser can produce: longs of 64 bits, strings and names without NUL, and objects
      with distinct names. */
  ghost predicate WellRead(d: Json)
  {
    match d
    case Long(n) => INT64_MIN <= n <= INT64_MAX
    case Str(s) => NUL !in s
    case Array(items) => forall i :: 0 <= i < |items| ==> WellRead(items[i])
    case Object(members) => DistinctKeys(members) && forall i :: 0 <= i < |members| ==> WellReadMember(members[i])
    case _ => true
  }

  ghost predicate WellReadMember(m: Pair<seq<Byte>, Json>)
  {
    NUL !in m.key && WellRead(m.value)
  }

  ghost predicate NoDouble(d: Json)
  {
    match d
    case Double(_) => false
    case Array(items) => forall i :: 0 <= i < |items| ==> NoDouble(items[i])
    case Object(members) => forall i :: 0 <= i < |members| ==> NoDouble(members[i].value)
    case _ => true
  }

  lemma {:induction false} WellReadPrints(d: Json)
    requires WellRead(d) && NoDouble(d)
    ensures Printable(d)
    decreases d
  {
    match d
    case Array(items) =>
      forall i | 0 <= i < |items| ensures Printable(items[i]) {
        WellReadPrints(items[i]);
      }
    case Object(members) =>
      forall i | 0 <= i < |members| ensures PrintableMember(members[i]) {
        assert WellReadMember(members[i]);
        WellReadPrints(members[i].value);
      }
    case _ =>
  }

  /** A document that fits under `depth` open arrays and objects. */
  ghost predicate Fits(d: Json, depth: nat)
  {
    WellRead(d) && depth + Levels(d) <= MAX_DEPTH
  }

  ghost predicate ItemsFit(items: seq<Json>, depth: nat)
  {
    forall i :: 0 <= i < |items| ==> Fits(items[i], depth)
  }

  ghost predicate MembersFit(members: seq<Pair<seq<Byte>, Json>>, depth: nat)
  {
    DistinctKeys(members) && forall m :: m in members ==> NUL !in m.key && Fits(m.value, depth)
  }

  lemma {:induction false} ArrayFits(items: seq<Json>, depth: nat)
    requires ItemsFit(items, depth) && depth <= MAX_DEPTH
    ensures depth + LevelsOfItems(items) <= MAX_DEPTH
    decreases items
  {
    if items != [] {
      ArrayFits(items[1..], depth);
    }
  }

  lemma {:induction false} ObjectFits(members: seq<Pair<seq<Byte>, Json>>, depth: nat)
    requires (forall m :: m in members ==> Fits(m.value, depth)) && depth <= MAX_DEPTH
    ensures depth + LevelsOfMembers(members) <= MAX_DEPTH
    decreases members
  {
    if members != [] {
      assert members[0] in members;
      ObjectFits(members[1..], depth);
    }
  }

  lemma {:induction false} BaseFits(t: seq<Byte>, p: nat, depth: nat)
    requires p <= |t|
    ensures ParseBase(t, p, depth).Done? ==> Fits(ParseBase(t, p, depth).value, depth)
    decreases |t| - p, 0
  {
    hide SkipSpaces, ParseValue, ParseItems, ParseMembers, WellRead, Fits;
    var q := SkipSpaces(t, p);
    if depth < MAX_DEPTH && q < |t| {
      if t[q] == LBRACE {
        MembersAllFit(t, q + 1, depth + 1, []);
        if ParseMembers(t, q + 1, depth + 1, []).Done? {
          var members := ParseMembers(t, q + 1, depth + 1, []).value;
          ObjectFits(members, depth + 1);
          ObjectWellRead(members, depth + 1);
        }
      } else if t[q] == LBRACKET {
        ItemsAllFit(t, q + 1, depth + 1, []);
        if ParseItems(t, q + 1, depth + 1, []).Done? {
          var items := ParseItems(t, q + 1, depth + 1, []).value;
          ArrayFits(items, depth + 1);
          ArrayWellRead(items, depth + 1);
        }
      } else {
        ValueFits(t, q, depth);
      }
    }
  }

  lemma ObjectWellRead(members: seq<Pair<seq<Byte>, Json>>, depth: nat)
    requires MembersFit(members, depth) && depth > 0 && depth + LevelsOfMembers(members) <= MAX_DEPTH
    ensures Fits(Object(members), depth - 1)
  {
    forall i | 0 <= i < |members| ensures WellReadMember(members[i]) {
      assert members[i] in members;
    }
  }

  lemma ArrayWellRead(items: seq<Json>, depth: nat)
    requires ItemsFit(items, depth) && depth > 0 && depth + LevelsOfItems(items) <= MAX_DEPTH
    ensures Fits(Array(items), depth - 1)
  {
  }

  lemma ValueFits(t: seq<Byte>, p: nat, depth: nat)
    requires p <= |t| && depth < MAX_DEPTH
    ensures ParseValue(t, p).Done? ==> Fits(ParseValue(t, p).value, depth)
  {
    hide ParseString, SkipSpaces, CString, Trim, CaseEqual, StrToDoubleReads;
  }

  lemma {:induction false} ItemsAllFit(t: seq<Byte>, p: nat, depth: nat, acc: seq<Json>)
    requires p <= |t| && ItemsFit(acc, depth)
    ensures ParseItems(t, p, depth, acc).Done? ==> ItemsFit(ParseItems(t, p, depth, acc).value, depth)
    decreases |t| - p, 1
  {
    hide SkipSpaces, ParseBase, Fits;
    var q := SkipSpaces(t, p);
    if q < |t| && t[q] != RBRACKET {
      BaseFits(t, q, depth);
      var item := ParseBase(t, q, depth);
      if item.Done? {
        var e := SkipSpaces(t, item.pos);
        if e < |t| && t[e] == COMMA {
          ItemsAllFit(t, e + 1, depth, acc + [item.value]);
        }
      }
    }
  }

  lemma {:induction false} MembersAllFit(t: seq<Byte>, p: nat, depth: nat, acc: seq<Pair<seq<Byte>, Json>>)
    requires p <= |t| && MembersFit(acc, depth)
    ensures ParseMembers(t, p, depth, acc).Done? ==> MembersFit(ParseMembers(t, p, depth, acc).value, depth)
    decreases |t| - p, 1
  {
    hide SkipSpaces, ParseBase, ParseString, Fits, Put, MembersFit;
    var q := SkipSpaces(t, p);
    if q < |t| && t[q] != RBRACE {
      var name := ParseName(t, q);
      if name.Done? {
        BaseFits(t, name.pos, depth);
        var item := ParseBase(t, name.pos, depth);
        if item.Done? {
          var e := SkipSpaces(t, item.pos);
          PutFits(acc, name.value, item.value, depth);
          if e < |t| && t[e] == COMMA {
            MembersAllFit(t, e + 1, depth, Put(acc, name.value, item.value));
          }
        }
      }
    }
  }

  lemma PutFits(members: seq<Pair<seq<Byte>, Json>>, key: seq<Byte>, value: Json, depth: nat)
    requires MembersFit(members, depth) && NUL !in key && Fits(value, depth)
    ensures MembersFit(Put(members, key, value), depth)
  {
    hide Fits;
    WithoutKeeps(members, key);
  }

  lemma {:induction false} WithoutKeeps(m: seq<Pair<seq<Byte>, Json>>, k: seq<Byte>)
    requires DistinctKeys(m)
    ensures DistinctKeys(Without(m, k)) && forall x :: x in Without(m, k) ==> x in m && x.key != k
  {
    if m != [] {
      WithoutKeeps(m[1..], k);
    }
  }

  /** Whatever the parser accepts is within the depth limit, and printing it, compact or pretty,
      gives a text that parses to the same document again, unless there are doubles in it. */
  lemma Reread(t: seq<Byte>, d: Json, pretty: bool)
    requires Parse(t) == Some(d)
    ensures WellRead(d) && Levels(d) <= 512
    ensures NoDouble(d) ==> Parse(Print(d, pretty, 0)) == Some(d)
  {
    hide ParseBase, Print, WellRead, Levels, NoDouble;
    BaseFits(t, 0, 0);
    if NoDouble(d) {
      WellReadPrints(d);
      RoundTrip(d, pretty);
    }
  }

  /** The end of the text closes an array or object that was just opened, or one that waits for
      its next item or member behind a comma. */
  lemma EndCloses(t: seq<Byte>, depth: nat, items: seq<Json>, members: seq<Pair<seq<Byte>, Json>>)
    ensures ParseItems(t, |t|, depth, items) == Done(items, |t|)
    ensures ParseMembers(t, |t|, depth, members) == Done(members, |t|)
  {
  }

  /** So these three texts are accepted. */
  lemma OpenEndsAreAccepted()
    ensures Parse([LBRACKET]) == Some(Array([])) && Parse([LBRACE]) == Some(Object([]))
    ensures Parse([LBRACKET, LBRACKET, RBRACKET, COMMA]) == Some(Array([Array([])]))
  {
    hide ParseItems, ParseMembers;
    EndCloses([LBRACKET], 1, [], []);
    EndCloses([LBRACE], 1, [], []);
    var t := [LBRACKET, LBRACKET, RBRACKET, COMMA];
    EndCloses(t, 1, [Array([])], []);
    EmptyItem(t, 1);
    OneItem(t, 0);
  }

  /** An empty array at `p`. */
  lemma EmptyItem(t: seq<Byte>, p: nat)
    requires p + 2 <= |t| && t[p] == LBRACKET && t[p + 1] == RBRACKET
    ensures ParseBase(t, p, 1) == Done(Array([]), p + 2)
  {
    assert SkipSpaces(t, p) == p && SkipSpaces(t, p + 1) == p + 1;
    assert ParseItems(t, p + 1, 2, []) == Done([], p + 2);
  }

  lemma OneItem(t: seq<Byte>, p: nat)
    requires p + 3 < |t| && t[p + 1] == LBRACKET && t[p + 3] == COMMA
    requires ParseBase(t, p + 1, 1) == Done(Array([]), p + 3)
    ensures ParseItems(t, p + 1, 1, []) == ParseItems(t, p + 4, 1, [Array([])])
  {
    hide ParseBase;
    assert SkipSpaces(t, p + 1) == p + 1 && SkipSpaces(t, p + 3) == p + 3;
    assert [] + [Array([])] == [Array([])];
  }
}
