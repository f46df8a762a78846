/**
 The rolling file appender of logger.c. A file is a named sequence of messages; the roll
 path, filled in for a timestamp, is a function.
 */
module RollLog {
  import opened Text

  /** The fields of struct tm up to the year, in their order in memory. */
  datatype Tm = Tm(sec: int, min: int, hour: int, mday: int, mon: int, year: int)

  datatype Term = Year | Month | Date | Hour | Minute

  /** The bytes IsChanged compares: from the field of the term to the year. */
  function Key(term: Term, t: Tm): seq<int>
  {
    match term
    case Year => [t.year]
    case Month => [t.mon, t.year]
    case Date => [t.mday, t.mon, t.year]
    case Hour => [t.hour, t.mday, t.mon, t.year]
    case Minute => [t.min, t.hour, t.mday, t.mon, t.year]
  }

  predicate SameYear(a: Tm, b: Tm) { a.year == b.year }

  predicate SameMonth(a: Tm, b: Tm) { SameYear(a, b) && a.mon == b.mon }

  predicate SameDay(a: Tm, b: Tm) { SameMonth(a, b) && a.mday == b.mday }

  predicate SameHour(a: Tm, b: Tm) { SameDay(a, b) && a.hour == b.hour }

  predicate SameMinute(a: Tm, b: Tm) { SameHour(a, b) && a.min == b.min }

  /** What a term means for two times: they agree in the year and every unit down to the term. */
  predicate SameTerm(term: Term, a: Tm, b: Tm)
  {
    && (term == Year ==> SameYear(a, b))
    && (term == Month ==> SameMonth(a, b))
    && (term == Date ==> SameDay(a, b))
    && (term == Hour ==> SameHour(a, b))
    && (term == Minute ==> SameMinute(a, b))
  }

  type Name = seq<Byte>

  datatype Item = Item(log: seq<Byte>, logtm: Tm)

  datatype Config = Config(fpath: Name, term: Term, rollName: Tm -> Name)

  /** `rolled` lists the files renamed away so far, oldest first. */
  datatype State = State(files: map<Name, seq<Item>>, lasttm: Tm, rolled: seq<Name>)

  predicate IsChanged(cfg: Config, s: State, t: Tm)
  {
    Key(cfg.term, s.lasttm) != Key(cfg.term, t)
  }

  /** The bytes compared differ exactly when the term has changed. */
  lemma IsChangedIff(cfg: Config, s: State, t: Tm)
    ensures IsChanged(cfg, s, t) <==> !SameTerm(cfg.term, s.lasttm, t)
  {
  }

  /** The names tried for a rolled file: the plain one, then with "-0", "-1" and so on. */
  function Candidate(base: Name, k: nat): Name
  {
    if k == 0 then base else base + [MINUS] + Decimal(k - 1)
  }

  lemma CandidatesDiffer(base: Name, j: nat, k: nat)
    requires j != k
    ensures Candidate(base, j) != Candidate(base, k)
  {
    hide Decimal;
    if j == 0 {
      assert |Candidate(base, k)| > |base|;
    } else if k == 0 {
      assert |Candidate(base, j)| > |base|;
    } else {
      assert Candidate(base, j)[|base| + 1..] == Decimal(j - 1);
      assert Candidate(base, k)[|base| + 1..] == Decimal(k - 1);
      if Decimal(j - 1) == Decimal(k - 1) {
        DecimalInjective(j - 1, k - 1);
      }
    }
  }

  /** How many files bear one of the names from the `k`-th on; it bounds the search. */
  ghost function Taken(files: set<Name>, base: Name, k: nat): set<Name>
  {
    set n | n in files && exists j :: j >= k && n == Candidate(base, j)
  }

  lemma TakenShrinks(files: set<Name>, base: Name, k: nat)
    requires Candidate(base, k) in files
    ensures |Taken(files, base, k + 1)| < |Taken(files, base, k)|
  {
    var c := Candidate(base, k);
    assert c in Taken(files, base, k);
    forall j | j >= k + 1 ensures Candidate(base, j) != c {
      CandidatesDiffer(base, j, k);
    }
    assert c !in Taken(files, base, k + 1);
    assert Taken(files, base, k + 1) <= Taken(files, base, k) - {c};
    SubsetSize(Taken(files, base, k + 1), Taken(files, base, k) - {c});
  }

  lemma {:induction false} SubsetSize(a: set<Name>, b: set<Name>)
    requires a <= b
    ensures |a| <= |b|
    decreases a
  {
    if a != {} {
      var x :| x in a;
      SubsetSize(a - {x}, b - {x});
    }
  }

  /** The first of the names from the `k`-th on that no file bears. */
  function FirstFree(files: map<Name, seq<Item>>, base: Name, k: nat): (n: Name)
    ensures n !in files
    decreases |Taken(files.Keys, base, k)|
  {
    if Candidate(base, k) in files then
      TakenShrinks(files.Keys, base, k);
      FirstFree(files, base, k + 1)
    else Candidate(base, k)
  }

  /** rename(2) without an existing target; a missing source leaves everything as it is. */
  function Roll(cfg: Config, s: State, t: Tm): State
  {
    var target := FirstFree(s.files, cfg.rollName(s.lasttm), 0);
    if cfg.fpath in s.files then
      State((s.files - {cfg.fpath})[target := s.files[cfg.fpath]], t, s.rolled + [target])
    else s.(lasttm := t)
  }

  function Numbered(base: Name, k: nat): Name
  {
    base + ['-' as int] + Decimal(k)
  }

  /** The name of a rolled file: the expanded roll path, or that with a minus and the least
      number that makes it new. */
  ghost predicate IsNewName(files: map<Name, seq<Item>>, base: Name, name: Name)
  {
    if base !in files then name == base
    else
      exists k: nat ::
        name == Numbered(base, k) && name !in files && forall j: nat :: j < k ==> Numbered(base, j) in files
  }

  lemma {:induction false} FirstFreeIs(files: map<Name, seq<Item>>, base: Name, k: nat)
    requires k > 0 && base in files && forall j: nat :: j < k - 1 ==> Numbered(base, j) in files
    ensures IsNewName(files, base, FirstFree(files, base, k))
    decreases |Taken(files.Keys, base, k)|
  {
    hide Decimal, Taken;
    assert Candidate(base, k) == Numbered(base, k - 1);
    if Candidate(base, k) in files {
      TakenShrinks(files.Keys, base, k);
      FirstFreeIs(files, base, k + 1);
    }
  }

  /** Rolling renames the current file, by the time recorded when its term began, and touches no
      other file. */
  lemma RollRenames(cfg: Config, s: State, t: Tm)
    requires cfg.fpath in s.files
    ensures var s' := Roll(cfg, s, t);
            && |s'.rolled| == |s.rolled| + 1 && s'.rolled[..|s.rolled|] == s.rolled && s'.lasttm == t
            && var name := s'.rolled[|s.rolled|];
               && IsNewName(s.files, cfg.rollName(s.lasttm), name)
               && s'.files == map n | n in s.files.Keys - {cfg.fpath} + {name} ::
                    if n == name then s.files[cfg.fpath] else s.files[n]
  {
    hide Taken;
    var base := cfg.rollName(s.lasttm);
    if base in s.files {
      TakenShrinks(s.files.Keys, base, 0);
      FirstFreeIs(s.files, base, 1);
    }
  }

  function Content(s: State, name: Name): seq<Item>
  {
    if name in s.files then s.files[name] else []
  }

  function Append(cfg: Config, s: State, item: Item): State
  {
    s.(files := s.files[cfg.fpath := Content(s, cfg.fpath) + [item]])
  }

  function RollIfChanged(cfg: Config, s: State, t: Tm): State
  {
    if IsChanged(cfg, s, t) then Roll(cfg, s, t) else s
  }

  /** What writing one message does. */
  function WriteOne(cfg: Config, s: State, item: Item): State
  {
    Append(cfg, RollIfChanged(cfg, s, item.logtm), item)
  }

  /** What writing messages one after the other does. */
  function WriteAll(cfg: Config, s: State, items: seq<Item>): State
    decreases |items|
  {
    if items == [] then s else WriteAll(cfg, WriteOne(cfg, s, items[0]), items[1..])
  }

  /** The loop of the batched flush with its file open: `opens` says which further opens
      succeed. After one that fails the remaining messages are dropped. */
  function Drain(cfg: Config, s: State, items: seq<Item>, opens: seq<bool>): State
    decreases |items|
  {
    if items == [] then s
    else if IsChanged(cfg, s, items[0].logtm) then
      var rolled := Roll(cfg, s, items[0].logtm);
      if opens != [] && !opens[0] then rolled
      else Drain(cfg, Append(cfg, rolled, items[0]), items[1..], if opens == [] then [] else opens[1..])
    else Drain(cfg, Append(cfg, s, items[0]), items[1..], opens)
  }

  /** With every open succeeding, the batch leaves the same files as single writes. */
  lemma {:induction false} DrainIsWriteAll(cfg: Config, s: State, items: seq<Item>, opens: seq<bool>)
    requires forall i :: 0 <= i < |opens| ==> opens[i]
    ensures Drain(cfg, s, items, opens) == WriteAll(cfg, s, items)
    decreases |items|
  {
    hide Roll, Append, IsChanged;
    if items != [] {
      var rest := if IsChanged(cfg, s, items[0].logtm) && opens != [] then opens[1..] else opens;
      DrainIsWriteAll(cfg, WriteOne(cfg, s, items[0]), items[1..], rest);
    }
  }

  /** However the opens turn out, the batch is that of a number of single writes; only when an open
      failed it ends early, with the current file rolled away for the first message it drops. */
  lemma {:induction false} DrainWritesPrefix(cfg: Config, s: State, items: seq<Item>, opens: seq<bool>)
    returns (n: nat)
    ensures n <= |items| && (n < |items| ==> false in opens)
    ensures n == |items| ==> Drain(cfg, s, items, opens) == WriteAll(cfg, s, items)
    ensures n < |items| ==>
      var done := WriteAll(cfg, s, items[..n]);
      IsChanged(cfg, done, items[n].logtm) && Drain(cfg, s, items, opens) == Roll(cfg, done, items[n].logtm)
    decreases |items|
  {
    hide Roll, Append, IsChanged;
    if items == [] {
      n := 0;
    } else if IsChanged(cfg, s, items[0].logtm) && opens != [] && !opens[0] {
      n := 0;
      assert WriteAll(cfg, s, items[..0]) == s;
    } else {
      var rest := if IsChanged(cfg, s, items[0].logtm) && opens != [] then opens[1..] else opens;
      var m := DrainWritesPrefix(cfg, WriteOne(cfg, s, items[0]), items[1..], rest);
      n := m + 1;
      assert items[..n][0] == items[0] && items[..n][1..] == items[1..][..m];
    }
  }

  // ----- what the files hold -----

  /** All messages in the order of the files: rolled ones first, then the current one. */
  function Rolled(s: State, names: seq<Name>): seq<Item>
  {
    if names == [] then [] else Content(s, names[0]) + Rolled(s, names[1..])
  }

  function Log(cfg: Config, s: State): seq<Item>
  {
    Rolled(s, s.rolled) + Content(s, cfg.fpath)
  }

  /** All messages belong to the term of a time. */
  ghost predicate AllOf(cfg: Config, items: seq<Item>, t: Tm)
  {
    forall i :: 0 <= i < |items| ==> SameTerm(cfg.term, t, items[i].logtm)
  }

  /** All messages belong to one term. */
  ghost predicate OneTerm(cfg: Config, items: seq<Item>)
  {
    forall i, j :: 0 <= i < j < |items| ==> SameTerm(cfg.term, items[i].logtm, items[j].logtm)
  }

  /** The rolled files are there under different names, none of them the current file's, and
      every generation, the current one included, holds the messages of one term. */
  ghost predicate Inv(cfg: Config, s: State)
  {
    && (forall i :: 0 <= i < |s.rolled| ==> s.rolled[i] in s.files && s.rolled[i] != cfg.fpath)
    && (forall i, j :: 0 <= i < j < |s.rolled| ==> s.rolled[i] != s.rolled[j])
    && (forall i :: 0 <= i < |s.rolled| ==> OneTerm(cfg, Content(s, s.rolled[i])))
    && AllOf(cfg, Content(s, cfg.fpath), s.lasttm)
  }

  /** An appender that starts without a current file. */
  lemma NewAppender(cfg: Config, files: map<Name, seq<Item>>, t: Tm)
    requires cfg.fpath !in files
    ensures Inv(cfg, State(files, t, [])) && Log(cfg, State(files, t, [])) == []
  {
  }

  /** What is written from such a start is exactly what the files of the appender hold, in order
      and term by term. */
  lemma WrittenIsKept(cfg: Config, files: map<Name, seq<Item>>, t: Tm, items: seq<Item>)
    requires cfg.fpath !in files
    ensures var s := WriteAll(cfg, State(files, t, []), items);
            && Log(cfg, s) == items
            && AllOf(cfg, Content(s, cfg.fpath), s.lasttm)
            && forall i :: 0 <= i < |s.rolled| ==> OneTerm(cfg, Content(s, s.rolled[i]))
  {
    hide Log, AllOf, OneTerm, WriteAll;
    NewAppender(cfg, files, t);
    WriteAllKeeps(cfg, State(files, t, []), items);
    assert [] + items == items;
  }

  lemma {:induction false} RolledSame(s: State, s': State, names: seq<Name>)
    requires forall i :: 0 <= i < |names| ==> Content(s, names[i]) == Content(s', names[i])
    ensures Rolled(s, names) == Rolled(s', names)
  {
    if names != [] {
      RolledSame(s, s', names[1..]);
    }
  }

  lemma {:induction false} RolledAppend(s: State, names: seq<Name>, name: Name)
    ensures Rolled(s, names + [name]) == Rolled(s, names) + Content(s, name)
  {
    if names == [] {
      assert names + [name] == [name] && [name][1..] == [];
    } else {
      assert (names + [name])[1..] == names[1..] + [name];
      RolledAppend(s, names[1..], name);
    }
  }

  /** Rolling starts an empty generation and loses nothing. */
  lemma RollKeeps(cfg: Config, s: State, t: Tm)
    requires Inv(cfg, s)
    ensures Inv(cfg, Roll(cfg, s, t)) && Log(cfg, Roll(cfg, s, t)) == Log(cfg, s)
    ensures Content(Roll(cfg, s, t), cfg.fpath) == []
  {
    hide FirstFree, Rolled, Key;
    var s' := Roll(cfg, s, t);
    if cfg.fpath in s.files {
      var target := FirstFree(s.files, cfg.rollName(s.lasttm), 0);
      assert forall i :: 0 <= i < |s.rolled| ==> Content(s', s.rolled[i]) == Content(s, s.rolled[i]);
      RolledSame(s, s', s.rolled);
      RolledAppend(s', s.rolled, target);
      assert Content(s', cfg.fpath) == [];
    } else {
      RolledSame(s, s', s.rolled);
    }
  }

  lemma AppendKeepsInv(cfg: Config, s: State, item: Item)
    requires Inv(cfg, s) && !IsChanged(cfg, s, item.logtm)
    ensures Inv(cfg, Append(cfg, s, item))
  {
    hide Key;
    IsChangedIff(cfg, s, item.logtm);
    var s' := Append(cfg, s, item);
    assert forall i :: 0 <= i < |s.rolled| ==> Content(s', s.rolled[i]) == Content(s, s.rolled[i]);
    assert Content(s', cfg.fpath) == Content(s, cfg.fpath) + [item];
  }

  lemma AppendKeeps(cfg: Config, s: State, item: Item)
    requires Inv(cfg, s) && !IsChanged(cfg, s, item.logtm)
    ensures Inv(cfg, Append(cfg, s, item)) && Log(cfg, Append(cfg, s, item)) == Log(cfg, s) + [item]
  {
    hide OneTerm, AllOf, Rolled;
    AppendKeepsInv(cfg, s, item);
    RolledSame(s, Append(cfg, s, item), s.rolled);
  }

  /** Writing any messages, whatever their timestamps, keeps them all in order, each file
      generation with the messages of one term. */
  lemma {:induction false} WriteAllKeeps(cfg: Config, s: State, items: seq<Item>)
    requires Inv(cfg, s)
    ensures Inv(cfg, WriteAll(cfg, s, items)) && Log(cfg, WriteAll(cfg, s, items)) == Log(cfg, s) + items
    decreases |items|
  {
    hide Inv, Log, Append, Roll;
    if items != [] {
      var ready := RollIfChanged(cfg, s, items[0].logtm);
      if IsChanged(cfg, s, items[0].logtm) {
        RollKeeps(cfg, s, items[0].logtm);
        RollSets(cfg, s, items[0].logtm);
      }
      AppendKeeps(cfg, ready, items[0]);
      WriteAllKeeps(cfg, WriteOne(cfg, s, items[0]), items[1..]);
      assert items == [items[0]] + items[1..];
    }
  }

  lemma RollSets(cfg: Config, s: State, t: Tm)
    ensures Roll(cfg, s, t).lasttm == t && !IsChanged(cfg, Roll(cfg, s, t), t)
  {
  }

  // ----- which messages share a file -----

  /** The messages cut wherever the term changes: the longest stretches of one term. */
  function Stretches(term: Term, items: seq<Item>): (r: seq<seq<Item>>)
    ensures items != [] ==> r != []
    ensures forall i :: 0 <= i < |r| ==> r[i] != []
  {
    if items == [] then []
    else
      var r, x := Stretches(term, items[..|items| - 1]), items[|items| - 1];
      if r != [] && SameTerm(term, r[|r| - 1][|r[|r| - 1]| - 1].logtm, x.logtm)
      then r[..|r| - 1] + [r[|r| - 1] + [x]]
      else r + [[x]]
  }

  /** The contents of the files of an appender, the current one last. */
  function Generations(cfg: Config, s: State): seq<seq<Item>>
  {
    Contents(s, s.rolled) + if cfg.fpath in s.files then [s.files[cfg.fpath]] else []
  }

  function Contents(s: State, names: seq<Name>): seq<seq<Item>>
  {
    seq(|names|, i requires 0 <= i < |names| => Content(s, names[i]))
  }

  lemma {:induction false} WriteAllSnoc(cfg: Config, s: State, items: seq<Item>, x: Item)
    ensures WriteAll(cfg, s, items + [x]) == WriteOne(cfg, WriteAll(cfg, s, items), x)
    decreases |items|
  {
    hide WriteOne;
    if items == [] {
      assert items + [x] == [x] && [x][1..] == [];
    } else {
      assert (items + [x])[1..] == items[1..] + [x];
      WriteAllSnoc(cfg, WriteOne(cfg, s, items[0]), items[1..], x);
    }
  }

  /** An appender that starts without a current file writes each stretch of messages of one term
      into a file of its own, and nothing else: it rolls exactly when the term changes. */
  lemma {:induction false} FilesAreStretches(cfg: Config, files: map<Name, seq<Item>>, t: Tm, items: seq<Item>)
    requires cfg.fpath !in files
    ensures var s := WriteAll(cfg, State(files, t, []), items);
            && Generations(cfg, s) == Stretches(cfg.term, items)
            && (cfg.fpath in s.files <==> items != [])
            && (items != [] ==> SameTerm(cfg.term, s.lasttm, items[|items| - 1].logtm))
    decreases |items|
  {
    hide WriteAll, WriteOne;
    var start := State(files, t, []);
    if items == [] {
      assert WriteAll(cfg, start, items) == start by { NothingToWrite(cfg, start); }
    } else {
      var less, x := items[..|items| - 1], items[|items| - 1];
      assert items == less + [x];
      FilesAreStretches(cfg, files, t, less);
      WriteAllSnoc(cfg, start, less, x);
      NewAppender(cfg, files, t);
      WriteAllKeeps(cfg, start, less);
      WriteOneGenerations(cfg, WriteAll(cfg, start, less), x);
    }
  }

  lemma ContentsSame(s: State, s': State, names: seq<Name>)
    requires forall i :: 0 <= i < |names| ==> Content(s', names[i]) == Content(s, names[i])
    ensures Contents(s', names) == Contents(s, names)
  {
  }

  lemma ContentsSnoc(s: State, names: seq<Name>, name: Name)
    ensures Contents(s, names + [name]) == Contents(s, names) + [Content(s, name)]
  {
  }

  /** Renaming the current file away makes it a generation of the past. */
  lemma RollGenerations(cfg: Config, s: State, t: Tm)
    requires Inv(cfg, s)
    ensures cfg.fpath !in Roll(cfg, s, t).files && Generations(cfg, Roll(cfg, s, t)) == Generations(cfg, s)
  {
    hide FirstFree, OneTerm, AllOf, Contents;
    var s' := Roll(cfg, s, t);
    ContentsSame(s, s', s.rolled);
    if cfg.fpath in s.files {
      var target := FirstFree(s.files, cfg.rollName(s.lasttm), 0);
      ContentsSnoc(s', s.rolled, target);
    }
  }

  lemma AppendGenerations(cfg: Config, s: State, x: Item)
    requires Inv(cfg, s)
    ensures var s', g := Append(cfg, s, x), Generations(cfg, s);
            && cfg.fpath in s'.files
            && Generations(cfg, s') ==
               if cfg.fpath in s.files then g[..|g| - 1] + [g[|g| - 1] + [x]] else g + [[x]]
  {
    hide OneTerm, AllOf, Contents;
    ContentsSame(s, Append(cfg, s, x), s.rolled);
    var c := Contents(s, s.rolled);
    if cfg.fpath in s.files {
      assert (c + [s.files[cfg.fpath]])[..|c|] == c;
    } else {
      assert [] + [x] == [x];
    }
  }

  lemma WriteOneGenerations(cfg: Config, s: State, x: Item)
    requires Inv(cfg, s)
    ensures var s', g := WriteOne(cfg, s, x), Generations(cfg, s);
            && cfg.fpath in s'.files && SameTerm(cfg.term, s'.lasttm, x.logtm)
            && Generations(cfg, s') ==
               if cfg.fpath in s.files && SameTerm(cfg.term, s.lasttm, x.logtm)
               then g[..|g| - 1] + [g[|g| - 1] + [x]] else g + [[x]]
  {
    hide Roll, Inv, Generations, SameTerm;
    IsChangedIff(cfg, s, x.logtm);
    SameAsItself(cfg.term, x.logtm);
    AppendGenerations(cfg, s, x);
    if IsChanged(cfg, s, x.logtm) {
      RollKeeps(cfg, s, x.logtm);
      RollSets(cfg, s, x.logtm);
      RollGenerations(cfg, s, x.logtm);
      AppendGenerations(cfg, Roll(cfg, s, x.logtm), x);
    }
  }

  lemma SameAsItself(term: Term, t: Tm)
    ensures SameTerm(term, t, t)
  {
  }

  // ----- the appender -----

  class Appender {
    const cfg: Config
    var state: State
    var buffer: seq<Item>
    var flushBuffer: seq<Item>

    constructor (cfg: Config, state: State)
      ensures this.cfg == cfg && this.state == state && buffer == [] && flushBuffer == []
    {
      this.cfg, this.state, buffer, flushBuffer := cfg, state, [], [];
    }

    /** Renames the current file to the first free name. */
    method Rolling(curr: Tm)
      modifies this`state
      ensures state == Roll(cfg, old(state), curr)
    {
      var base := cfg.rollName(state.lasttm);
      var target := base;
      var i := 0;
      while target in state.files
        invariant state == old(state)
        invariant target == Candidate(base, i)
        invariant FirstFree(state.files, base, 0) == FirstFree(state.files, base, i)
        decreases |Taken(state.files.Keys, base, i)|
      {
        TakenShrinks(state.files.Keys, base, i);
        target := base + [MINUS] + Decimal(i);
        i := i + 1;
      }
      assert target == FirstFree(state.files, base, 0);
      if cfg.fpath in state.files {
        state := State((state.files - {cfg.fpath})[target := state.files[cfg.fpath]], state.lasttm,
                       state.rolled + [target]);
      }
      state := state.(lasttm := curr);
    }

    /** Appends a message to the current file, if it opens. */
    method Write(item: Item, opens: bool)
      modifies this`state
      ensures opens ==> state == WriteOne(cfg, old(state), item)
      ensures !opens ==> state == RollIfChanged(cfg, old(state), item.logtm)
    {
      hide Roll;
      if IsChanged(cfg, state, item.logtm) {
        Rolling(item.logtm);
      }
      if opens {
        state := Append(cfg, state, item);
      }
    }

    /** Writes everything buffered. If the file does not open, it all stays buffered. */
    method Flush(opens: seq<bool>)
      modifies this`state, this`buffer, this`flushBuffer
      ensures buffer == []
      ensures var items := old(flushBuffer) + old(buffer);
        if items == [] then state == old(state) && flushBuffer == []
        else
          var ready := RollIfChanged(cfg, old(state), items[0].logtm);
          if opens != [] && !opens[0] then state == ready && flushBuffer == items
          else state == Drain(cfg, ready, items, if opens == [] then [] else opens[1..]) && flushBuffer == []
      ensures (forall i :: 0 <= i < |opens| ==> opens[i]) ==>
        flushBuffer == [] && state == WriteAll(cfg, old(state), old(flushBuffer) + old(buffer))
    {
      hide Roll, Append, IsChanged, Drain, WriteAll;
      flushBuffer := flushBuffer + buffer;
      buffer := [];
      ghost var items := flushBuffer;
      NothingToWrite(cfg, state);
      if |flushBuffer| > 0 {
        FlushIsWriteAll(cfg, state, items, opens);
        var first := flushBuffer[0];
        if IsChanged(cfg, state, first.logtm) {
          Rolling(first.logtm);
        }
        var more := opens;
        if opens != [] {
          if !opens[0] {
            return;
          }
          more := opens[1..];
        }
        ghost var ready, left := state, more;
        var isOpen := true;
        while |flushBuffer| > 0
          invariant buffer == []
          invariant isOpen ==> Drain(cfg, ready, items, left) == Drain(cfg, state, flushBuffer, more)
          invariant !isOpen ==> Drain(cfg, ready, items, left) == state
          decreases |flushBuffer|
        {
          var item := flushBuffer[0];
          DrainStep(cfg, state, flushBuffer, more);
          flushBuffer := flushBuffer[1..];
          if isOpen && IsChanged(cfg, state, item.logtm) {
            Rolling(item.logtm);
            if more != [] {
              isOpen := more[0];
              more := more[1..];
            }
          }
          if isOpen {
            state := Append(cfg, state, item);
          }
        }
        NothingToDrain(cfg, state, more);
      }
    }
  }

  lemma NothingToWrite(cfg: Config, s: State)
    ensures WriteAll(cfg, s, []) == s
  {
  }

  lemma NothingToDrain(cfg: Config, s: State, opens: seq<bool>)
    ensures Drain(cfg, s, [], opens) == s
  {
  }

  lemma DrainStep(cfg: Config, s: State, items: seq<Item>, opens: seq<bool>)
    requires items != []
    ensures Drain(cfg, s, items, opens) ==
      if IsChanged(cfg, s, items[0].logtm) then
        (if opens != [] && !opens[0] then Roll(cfg, s, items[0].logtm)
         else Drain(cfg, Append(cfg, Roll(cfg, s, items[0].logtm), items[0]), items[1..],
                    if opens == [] then [] else opens[1..]))
      else Drain(cfg, Append(cfg, s, items[0]), items[1..], opens)
  {
  }

  /** The roll before the loop is the one the first message asks for. */
  lemma FlushIsWriteAll(cfg: Config, s: State, items: seq<Item>, opens: seq<bool>)
    requires items != []
    ensures (forall i :: 0 <= i < |opens| ==> opens[i]) ==>
      Drain(cfg, RollIfChanged(cfg, s, items[0].logtm), items, if opens == [] then [] else opens[1..])
      == WriteAll(cfg, s, items)
  {
    hide Append;
    var ready := RollIfChanged(cfg, s, items[0].logtm);
    if forall i :: 0 <= i < |opens| ==> opens[i] {
      DrainIsWriteAll(cfg, ready, items, if opens == [] then [] else opens[1..]);
      RollSets(cfg, s, items[0].logtm);
    }
  }
}
