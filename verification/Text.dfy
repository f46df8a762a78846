/**
 Bytes and C strings: what CMUTIL_String and the C library functions used by the JSON
 parser and the logger do, over sequences of bytes.
 */
module Text {
  import opened Util

  type Byte = b: int | 0 <= b < 256

  const NUL: Byte := 0
  const TAB: Byte := 9
  const LF: Byte := 10
  const CR: Byte := 13
  const SPACE: Byte := 32
  const PLUS: Byte := 43
  const MINUS: Byte := 45
  const DOT: Byte := 46

  /** The bytes of a text in ASCII. */
  function Ascii(s: string): (r: seq<Byte>)
    requires forall i :: 0 <= i < |s| ==> s[i] as int < 128
    ensures |r| == |s| && forall i :: 0 <= i < |r| ==> r[i] == s[i] as int
  {
    seq(|s|, i requires 0 <= i < |s| => s[i] as int)
  }

  /** The byte at `i`, or the terminator past the end. */
  function At(s: seq<Byte>, i: nat): Byte
  {
    if i < |s| then s[i] else NUL
  }

  /** strchr(" \t\r\n", c): the terminator counts as found. */
  predicate IsSpace(c: Byte)
  {
    c == SPACE || c == TAB || c == CR || c == LF || c == NUL
  }

  predicate IsDigit(c: Byte) { 48 <= c <= 57 }

  /** toupper in the C locale. */
  function ToUpper(c: Byte): Byte { if 97 <= c <= 122 then c - 32 else c }

  /** The C string that starts a buffer: everything before the first NUL. */
  function CString(s: seq<Byte>): (r: seq<Byte>)
    ensures |r| <= |s| && r == s[..|r|] && NUL !in r
    ensures |r| < |s| ==> s[|r|] == NUL
  {
    if s == [] || s[0] == NUL then [] else [s[0]] + CString(s[1..])
  }

  lemma {:induction false} CStringOfNulFree(s: seq<Byte>)
    requires NUL !in s
    ensures CString(s) == s
  {
    if s != [] {
      CStringOfNulFree(s[1..]);
    }
  }

  predicate CaseEqual(a: seq<Byte>, b: seq<Byte>)
  {
    |a| == |b| && forall i :: 0 <= i < |a| ==> ToUpper(a[i]) == ToUpper(b[i])
  }

  // ----- SelfTrim -----

  /** The right trim never drops the first byte; a trailing NUL counts as a space. */
  function TrimRight(s: seq<Byte>): seq<Byte>
  {
    if |s| > 1 && IsSpace(s[|s| - 1]) then TrimRight(s[..|s| - 1]) else s
  }

  function TrimLeft(s: seq<Byte>): seq<Byte>
  {
    if s != [] && s[0] != NUL && IsSpace(s[0]) then TrimLeft(s[1..]) else s
  }

  function Trim(s: seq<Byte>): seq<Byte>
  {
    TrimLeft(TrimRight(s))
  }

  /** Blank padding on the right of a token is trimmed away. */
  lemma {:induction false} TrimPadded(token: seq<Byte>, pad: seq<Byte>)
    requires token != [] && !IsSpace(token[0]) && !IsSpace(token[|token| - 1])
    requires forall i :: 0 <= i < |pad| ==> IsSpace(pad[i])
    ensures Trim(token + pad) == token
  {
    if pad == [] {
      assert token + pad == token;
    } else {
      assert (token + pad)[..|token + pad| - 1] == token + pad[..|pad| - 1];
      TrimPadded(token, pad[..|pad| - 1]);
    }
  }

  lemma {:induction false} TrimLeftOnly(left: seq<Byte>, core: seq<Byte>)
    requires forall i :: 0 <= i < |left| ==> IsSpace(left[i]) && left[i] != NUL
    requires core != [] && !IsSpace(core[0])
    ensures TrimLeft(left + core) == core
  {
    if left == [] {
      assert left + core == core;
    } else {
      assert (left + core)[1..] == left[1..] + core;
      TrimLeftOnly(left[1..], core);
    }
  }

  /** Trimming takes the spaces off both ends, NULs on the right included, and nothing else. */
  lemma {:induction false} TrimIs(left: seq<Byte>, core: seq<Byte>, right: seq<Byte>)
    requires forall i :: 0 <= i < |left| ==> IsSpace(left[i]) && left[i] != NUL
    requires forall i :: 0 <= i < |right| ==> IsSpace(right[i])
    requires core != [] && !IsSpace(core[0]) && !IsSpace(core[|core| - 1])
    ensures Trim(left + core + right) == core
    decreases |right|
  {
    if right == [] {
      assert left + core + right == left + core;
      TrimLeftOnly(left, core);
    } else {
      var n := |right| - 1;
      assert (left + core + right)[..|left + core + right| - 1] == left + core + right[..n];
      TrimIs(left, core, right[..n]);
    }
  }

  // ----- decimal numbers -----

  const INT64_MIN := -0x8000_0000_0000_0000
  const INT64_MAX := 0x7FFF_FFFF_FFFF_FFFF

  function Digits(n: nat): (r: seq<Byte>)
    ensures r != [] && forall i :: 0 <= i < |r| ==> IsDigit(r[i])
  {
    if n < 10 then [48 + n] else Digits(n / 10) + [48 + n % 10]
  }

  /** What "%lld" prints. */
  function Decimal(n: int): (r: seq<Byte>)
    ensures r != [] && (forall i :: 1 <= i < |r| ==> IsDigit(r[i])) && (r[0] == MINUS || IsDigit(r[0]))
  {
    if n < 0 then [MINUS] + Digits(-n) else Digits(n)
  }

  /** How many digits start at `i`. */
  function DigitsEnd(s: seq<Byte>, i: nat): (e: nat)
    requires i <= |s|
    ensures i <= e <= |s| && forall k :: i <= k < e ==> IsDigit(s[k])
    ensures e < |s| ==> !IsDigit(s[e])
    decreases |s| - i
  {
    if i < |s| && IsDigit(s[i]) then DigitsEnd(s, i + 1) else i
  }

  function DigitsValue(s: seq<Byte>): nat
    requires forall i :: 0 <= i < |s| ==> IsDigit(s[i])
  {
    if s == [] then 0
    else
      assert IsDigit(s[|s| - 1]);
      DigitsValue(s[..|s| - 1]) * 10 + (s[|s| - 1] as int - 48)
  }

  lemma {:induction false} DigitsValueOfDigits(n: nat)
    ensures DigitsValue(Digits(n)) == n
  {
    if n < 10 {
      assert Digits(n)[..0] == [];
    } else {
      DigitsValueOfDigits(n / 10);
      assert Digits(n)[..|Digits(n)| - 1] == Digits(n / 10);
    }
  }

  /** isspace in the C locale. */
  function SpacesEnd(s: seq<Byte>, i: nat): (e: nat)
    requires i <= |s|
    ensures i <= e <= |s|
    decreases |s| - i
  {
    if i < |s| && (s[i] == SPACE || 9 <= s[i] <= 13) then SpacesEnd(s, i + 1) else i
  }

  function SignEnd(s: seq<Byte>, i: nat): (e: nat)
    requires i <= |s|
    ensures i <= e <= |s|
  {
    if i < |s| && (s[i] == PLUS || s[i] == MINUS) then i + 1 else i
  }

  /** strtoll(s, &end, 10): None when no digit is read, else the value, saturated. */
  function StrToLong(s: seq<Byte>): Option<int>
  {
    var sign := SpacesEnd(s, 0);
    var start := SignEnd(s, sign);
    var end := DigitsEnd(s, start);
    if end == start then None
    else
      var n: int := DigitsValue(s[start..end]);
      var v: int := if At(s, sign) == MINUS then -n else n;
      Some(if v < INT64_MIN then INT64_MIN else if v > INT64_MAX then INT64_MAX else v)
  }

  /** strtoll undoes "%lld" on every 64-bit integer. */
  lemma StrToLongOfDecimal(n: int)
    requires INT64_MIN <= n <= INT64_MAX
    ensures StrToLong(Decimal(n)) == Some(n)
  {
    var s := Decimal(n);
    var start := SignEnd(s, 0);
    assert SpacesEnd(s, 0) == 0;
    assert start == if n < 0 then 1 else 0;
    assert DigitsEnd(s, start) == |s|;
    var m := if n < 0 then -n else n;
    assert s[start..|s|] == Digits(m);
    DigitsValueOfDigits(m);
  }

  /** Whether strtod reads a number at all: digits with or without a radix point, or INF or NAN. */
  predicate StrToDoubleReads(s: seq<Byte>)
  {
    var i := SignEnd(s, SpacesEnd(s, 0));
    || IsDigit(At(s, i))
    || (At(s, i) == DOT && IsDigit(At(s, i + 1)))
    || (i + 3 <= |s| && CaseEqual(s[i..i + 3], [73, 78, 70]))
    || (i + 3 <= |s| && CaseEqual(s[i..i + 3], [78, 65, 78]))
  }

  /** Different numbers print differently. */
  lemma DecimalInjective(a: nat, b: nat)
    requires Decimal(a) == Decimal(b)
    ensures a == b
  {
    DigitsValueOfDigits(a);
    DigitsValueOfDigits(b);
  }
}
