/** The hash functions, case folding and key order of maps.c, over NUL-free C strings. */
module MapHash {
  import opened Text

  type CStr = s: seq<Byte> | NUL !in s

  /** One round: shift in a character, fold the top four bits back and clear them. */
  function Step(h: bv32, c: bv32): bv32
  {
    var shifted := (h << 4) + c;
    var g := shifted & 0xf000_0000;
    if g != 0 then (shifted ^ (g >> 24)) ^ g else shifted
  }

  /** A char is signed: bytes from 128 up are sign-extended to 32 bits. */
  function Widen(c: Byte): bv32
  {
    if c < 128 then c as bv32 else 0xffff_ff00 + c as bv32
  }

  /** The hash after the first `n` bytes. */
  function HashPrefix(s: seq<Byte>, n: nat, ucase: bool): bv32
    requires n <= |s|
  {
    if n == 0 then 0
    else Step(HashPrefix(s, n - 1, ucase), if ucase then ToUpper(s[n - 1]) as bv32 else Widen(s[n - 1]))
  }

  function Hash(key: CStr, ucase: bool): bv32
  {
    HashPrefix(key, |key|, ucase)
  }

  /** What is stored as the key of an item. */
  function Norm(key: CStr, ucase: bool): (r: CStr)
    ensures |r| == |key|
    ensures forall i :: 0 <= i < |key| ==> r[i] == if ucase then ToUpper(key[i]) else key[i]
  {
    if !ucase || key == [] then key
    else
      var tail: CStr := key[1..];
      [ToUpper(key[0])] + Norm(tail, ucase)
  }

  // ----- which keys are the same -----

  const UPPER_CASE := "ABCDEFGHIJKLMNOPQRSTUVWXYZ"
  const LOWER_CASE := "abcdefghijklmnopqrstuvwxyz"

  /** The two cases of one letter. */
  ghost predicate TwoCases(a: Byte, b: Byte)
  {
    exists i :: 0 <= i < 26 && ((a == UPPER_CASE[i] as int && b == LOWER_CASE[i] as int)
                                || (a == LOWER_CASE[i] as int && b == UPPER_CASE[i] as int))
  }

  /** What two keys being the same means for a map: the same bytes or, with folding, letters that
      differ in case only. */
  ghost predicate SameKey(a: CStr, b: CStr, ucase: bool)
  {
    if ucase then |a| == |b| && forall i :: 0 <= i < |a| ==> a[i] == b[i] || TwoCases(a[i], b[i]) else a == b
  }

  lemma Alphabet(i: nat)
    requires i < 26
    ensures |UPPER_CASE| == 26 == |LOWER_CASE|
    ensures UPPER_CASE[i] as int == 65 + i && LOWER_CASE[i] as int == 97 + i
  {
  }

  /** Folding maps each lower-case letter to its upper case and leaves every other byte. */
  lemma FoldsLetters(c: Byte)
    ensures forall i :: 0 <= i < 26 && c == LOWER_CASE[i] as int ==> ToUpper(c) == UPPER_CASE[i] as int
    ensures (forall i :: 0 <= i < 26 ==> c != LOWER_CASE[i] as int) ==> ToUpper(c) == c
  {
    forall i | 0 <= i < 26 ensures UPPER_CASE[i] as int == 65 + i && LOWER_CASE[i] as int == 97 + i {
      Alphabet(i);
    }
    if 97 <= c <= 122 {
      Alphabet(c - 97);
    }
  }

  lemma FoldIff(a: Byte, b: Byte)
    ensures ToUpper(a) == ToUpper(b) <==> a == b || TwoCases(a, b)
  {
    forall i | 0 <= i < 26 ensures UPPER_CASE[i] as int == 65 + i && LOWER_CASE[i] as int == 97 + i {
      Alphabet(i);
    }
    if 97 <= a <= 122 && b == a - 32 {
      assert a == LOWER_CASE[a - 97] as int && b == UPPER_CASE[a - 97] as int;
    } else if 97 <= b <= 122 && a == b - 32 {
      assert b == LOWER_CASE[b - 97] as int && a == UPPER_CASE[b - 97] as int;
    }
  }

  /** Two keys are stored as the same bytes exactly when they are the same for the map. */
  lemma NormIff(a: CStr, b: CStr, ucase: bool)
    ensures Norm(a, ucase) == Norm(b, ucase) <==> SameKey(a, b, ucase)
  {
    hide Norm, TwoCases, ToUpper;
    if ucase {
      var na, nb := Norm(a, true), Norm(b, true);
      if |a| == |b| {
        forall i | 0 <= i < |a| ensures na[i] == nb[i] <==> a[i] == b[i] || TwoCases(a[i], b[i]) {
          FoldIff(a[i], b[i]);
        }
      }
      assert |na| == |a| && |nb| == |b|;
    } else {
      NormKeeps(a);
      NormKeeps(b);
    }
  }

  lemma NormKeeps(a: CStr)
    ensures Norm(a, false) == a
  {
  }

  /** A round in other words: the low 28 bits of the shifted sum, with its top four bits laid over
      the bits from 4 to 7. */
  lemma StepFolds(h: bv32, c: bv32)
    ensures var sum := (h << 4) + c; Step(h, c) == (sum & 0x0fff_ffff) ^ ((sum >> 28) << 4)
  {
  }

  /** Without folding, bytes from 128 up, and only these, are 256 less than they look. */
  lemma WidensSigned(c: Byte)
    ensures Widen(c) == (c as bv32) - (if c >= 0x80 then 0x100 else 0)
  {
  }

  /** Four bits stay clear, so no shift ever loses one. */
  lemma StepClearsTop(h: bv32, c: bv32)
    ensures Step(h, c) & 0xf000_0000 == 0
  {
  }

  lemma {:induction false} HashClearsTop(s: seq<Byte>, n: nat, ucase: bool)
    requires n <= |s|
    ensures HashPrefix(s, n, ucase) & 0xf000_0000 == 0
  {
    if n > 0 {
      StepClearsTop(HashPrefix(s, n - 1, ucase), if ucase then ToUpper(s[n - 1]) as bv32 else Widen(s[n - 1]));
    }
  }

  /** Keys that are stored as the same bytes hash alike: a lookup goes to the bucket of the
      stored key however its letters were written. */
  lemma {:induction false} HashOfNorm(a: CStr, b: CStr, ucase: bool)
    requires Norm(a, ucase) == Norm(b, ucase)
    ensures Hash(a, ucase) == Hash(b, ucase)
  {
    assert |a| == |Norm(a, ucase)| == |b|;
    HashOfNormPrefix(a, b, |a|, ucase);
  }

  lemma {:induction false} HashOfNormPrefix(a: CStr, b: CStr, n: nat, ucase: bool)
    requires Norm(a, ucase) == Norm(b, ucase) && n <= |a| == |b|
    ensures HashPrefix(a, n, ucase) == HashPrefix(b, n, ucase)
  {
    hide Step, Widen;
    if n > 0 {
      HashOfNormPrefix(a, b, n - 1, ucase);
      assert Norm(a, ucase)[n - 1] == Norm(b, ucase)[n - 1];
    }
  }

  lemma NormIdempotent(key: CStr, ucase: bool)
    ensures Norm(Norm(key, ucase), ucase) == Norm(key, ucase)
  {
    var once := Norm(key, ucase);
    var twice := Norm(once, ucase);
    forall i | 0 <= i < |key| ensures twice[i] == once[i] {
    }
  }

  /** strcmp on the bytes as unsigned characters. */
  function StrCmp(a: seq<Byte>, b: seq<Byte>): int
  {
    if a == [] then (if b == [] then 0 else -1)
    else if b == [] then 1
    else if a[0] != b[0] then a[0] as int - b[0] as int
    else StrCmp(a[1..], b[1..])
  }

  lemma {:induction false} StrCmpEqual(a: seq<Byte>, b: seq<Byte>)
    ensures StrCmp(a, b) == 0 <==> a == b
  {
    if a != [] && b != [] && a[0] == b[0] {
      StrCmpEqual(a[1..], b[1..]);
      assert a == [a[0]] + a[1..] && b == [b[0]] + b[1..];
    }
  }

  lemma {:induction false} StrCmpFlips(a: seq<Byte>, b: seq<Byte>)
    ensures StrCmp(a, b) < 0 <==> StrCmp(b, a) > 0
  {
    if a != [] && b != [] && a[0] == b[0] {
      StrCmpFlips(a[1..], b[1..]);
    }
  }

  lemma {:induction false} StrCmpTransitive(a: seq<Byte>, b: seq<Byte>, c: seq<Byte>)
    requires StrCmp(a, b) <= 0 && StrCmp(b, c) <= 0
    ensures StrCmp(a, c) <= 0
  {
    if a != [] && b != [] && c != [] && a[0] == b[0] == c[0] {
      StrCmpTransitive(a[1..], b[1..], c[1..]);
    }
  }

  method Round(start: bv32, c: bv32) returns (h: bv32)
    ensures h == Step(start, c)
  {
    var shifted := (start << 4) + c;
    var g := shifted & 0xf000_0000;
    if g == 0 {
      return shifted;
    }
    h := shifted ^ (g >> 24);
    h := h ^ g;
  }

  method ComputeHash(key: CStr, ucase: bool) returns (h: bv32)
    ensures h == Hash(key, ucase)
  {
    hide Step, Widen;
    h := 0;
    var p := 0;
    while p < |key|
      invariant 0 <= p <= |key| && h == HashPrefix(key, p, ucase)
    {
      h := Round(h, if ucase then ToUpper(key[p]) as bv32 else Widen(key[p]));
      p := p + 1;
    }
  }

  /** Folds a string in place. */
  method MapToUpper(s: array<Byte>)
    requires NUL !in s[..]
    modifies s
    ensures NUL !in s[..] && s[..] == Norm(old(s[..]), true)
  {
    ghost var before: CStr := s[..];
    var p := 0;
    while p < s.Length
      invariant 0 <= p <= s.Length
      invariant forall k :: 0 <= k < p ==> s[k] == ToUpper(before[k])
      invariant forall k :: p <= k < s.Length ==> s[k] == before[k]
    {
      s[p] := ToUpper(s[p]);
      p := p + 1;
    }
    assert s[..] == Norm(before, true);
  }
}
