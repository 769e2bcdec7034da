/** Text as the store and the server write it: decimal numbers, hex digests, fields without a separator. */
module Text {
  import opened Bytes
  import opened Seqs

  /** `c` does not occur in `s`. */
  predicate Free(s: string, c: char) {
    c !in s
  }

  predicate Contains(s: string, part: string) {
    exists i :: 0 <= i <= |s| && part <= s[i..]
  }

  /** Text up to a separator is determined, whatever follows and whatever the other text contains. */
  lemma FirstFieldIsUnique(a: string, b: string, restA: string, restB: string, c: char)
    requires Free(a, c) && Free(b, c)
    requires a + [c] + restA == b + [c] + restB
    ensures a == b && restA == restB
  {
    var s := a + [c] + restA;
    assert s[|a|] == c;
    assert (b + [c] + restB)[|b|] == c;
    assert s[..|a|] == a && s[..|b|] == b;
    assert s[|a| + 1..] == restA && s[|b| + 1..] == restB;
  }

  /** Text after the last separator is determined, whatever stands before it. */
  lemma LastFieldIsUnique(a: string, b: string, lastA: string, lastB: string, c: char)
    requires Free(lastA, c) && Free(lastB, c)
    requires a + [c] + lastA == b + [c] + lastB
    ensures a == b && lastA == lastB
  {
    var s := a + [c] + lastA;
    assert s[|a|] == c;
    assert (b + [c] + lastB)[|b|] == c;
    assert s[|a| + 1..] == lastA && s[|b| + 1..] == lastB;
    assert s[..|a|] == a && s[..|b|] == b;
  }

  // ---- white space ----

  /** The characters with the Unicode White_Space property. */
  predicate IsSpace(c: char) {
    || '\t' <= c <= '\r' || c == ' ' || c == '\U{85}' || c == '\U{A0}' || c == '\U{1680}'
    || '\U{2000}' <= c <= '\U{200A}' || c == '\U{2028}' || c == '\U{2029}' || c == '\U{202F}'
    || c == '\U{205F}' || c == '\U{3000}'
  }

  function TrimStart(s: string): string {
    if s != "" && IsSpace(s[0]) then TrimStart(s[1..]) else s
  }

  function TrimEnd(s: string): string {
    if s != "" && IsSpace(s[|s| - 1]) then TrimEnd(s[..|s| - 1]) else s
  }

  function Trim(s: string): string {
    TrimEnd(TrimStart(s))
  }

  predicate AllSpace(s: string) {
    forall i :: 0 <= i < |s| ==> IsSpace(s[i])
  }

  lemma {:induction false} TrimStartExactly(s: string) returns (a: string)
    ensures s == a + TrimStart(s) && AllSpace(a)
    ensures TrimStart(s) != "" ==> !IsSpace(TrimStart(s)[0])
  {
    hide IsSpace;
    a := "";
    if s != "" && IsSpace(s[0]) {
      a := TrimStartExactly(s[1..]);
      a := [s[0]] + a;
    }
  }

  lemma {:induction false} TrimEndExactly(s: string) returns (b: string)
    ensures s == TrimEnd(s) + b && AllSpace(b)
    ensures TrimEnd(s) != "" ==> !IsSpace(TrimEnd(s)[|TrimEnd(s)| - 1])
  {
    hide IsSpace;
    b := "";
    if s != "" && IsSpace(s[|s| - 1]) {
      b := TrimEndExactly(s[..|s| - 1]);
      b := b + [s[|s| - 1]];
    }
  }

  /** Trimming takes off white space at both ends, all of it, and nothing else. */
  lemma TrimExactly(s: string) returns (a: string, b: string)
    ensures s == a + Trim(s) + b && AllSpace(a) && AllSpace(b)
    ensures Trim(s) != "" ==> !IsSpace(Trim(s)[0]) && !IsSpace(Trim(s)[|Trim(s)| - 1])
  {
    hide IsSpace;
    a := TrimStartExactly(s);
    b := TrimEndExactly(TrimStart(s));
    Assoc(a, Trim(s), b);
    if Trim(s) != "" { assert Trim(s)[0] == TrimStart(s)[0]; }
  }

  // ---- ASCII case ----

  function UpperChar(c: char): char {
    if 'a' <= c <= 'z' then (c as int - 32) as char else c
  }

  function LowerChar(c: char): char {
    if 'A' <= c <= 'Z' then (c as int + 32) as char else c
  }

  function Upper(s: string): (r: string)
    ensures |r| == |s|
  {
    if s == "" then "" else [UpperChar(s[0])] + Upper(s[1..])
  }

  function Lower(s: string): (r: string)
    ensures |r| == |s|
  {
    if s == "" then "" else [LowerChar(s[0])] + Lower(s[1..])
  }

  lemma {:induction false} CaseAt(s: string, i: nat)
    requires i < |s|
    ensures Upper(s)[i] == UpperChar(s[i]) && Lower(s)[i] == LowerChar(s[i])
  {
    if i > 0 { CaseAt(s[1..], i - 1); }
  }

  /** The same character, or the same ASCII letter in the other case. */
  predicate SameLetter(a: char, b: char) {
    || a == b
    || ('a' <= a <= 'z' && a as int - 32 == b as int)
    || ('a' <= b <= 'z' && b as int - 32 == a as int)
  }

  predicate SameLetters(s: string, t: string) {
    |s| == |t| && forall i :: 0 <= i < |s| ==> SameLetter(s[i], t[i])
  }

  predicate NoLowercase(s: string) {
    forall i :: 0 <= i < |s| ==> !('a' <= s[i] <= 'z')
  }

  predicate NoUppercase(s: string) {
    forall i :: 0 <= i < |s| ==> !('A' <= s[i] <= 'Z')
  }

  /** Case conversion changes the case of ASCII letters and nothing else. */
  lemma CaseExactly(s: string)
    ensures SameLetters(Upper(s), s) && NoLowercase(Upper(s))
    ensures SameLetters(Lower(s), s) && NoUppercase(Lower(s))
  {
    hide Upper, Lower;
    forall i | 0 <= i < |s|
      ensures SameLetter(Upper(s)[i], s[i]) && !('a' <= Upper(s)[i] <= 'z')
      ensures SameLetter(Lower(s)[i], s[i]) && !('A' <= Lower(s)[i] <= 'Z')
    {
      CaseAt(s, i);
    }
  }

  /** Two texts agree in lower case exactly if they differ in case only. */
  lemma SameLowerExactly(s: string, t: string)
    ensures Lower(s) == Lower(t) <==> SameLetters(s, t)
  {
    hide Lower;
    forall i | 0 <= i < |s| && i < |t|
      ensures Lower(s)[i] == Lower(t)[i] <==> SameLetter(s[i], t[i])
    {
      CaseAt(s, i);
      CaseAt(t, i);
    }
    assert SameLetters(s, t) ==> Lower(s) == Lower(t);
  }

  /** `part` occurs at place `i`, in any case. */
  predicate OccursAt(s: string, part: string, i: nat) {
    i + |part| <= |s| && SameLetters(s[i..i + |part|], part)
  }

  lemma LowerSlice(s: string, i: nat, j: nat)
    requires i <= j <= |s|
    ensures Lower(s)[i..j] == Lower(s[i..j])
  {
    hide Lower;
    forall k | 0 <= k < j - i
      ensures Lower(s)[i..j][k] == Lower(s[i..j])[k]
    {
      CaseAt(s, i + k);
      CaseAt(s[i..j], k);
    }
  }

  lemma LowerOfLower(part: string)
    requires NoUppercase(part)
    ensures Lower(part) == part
  {
    hide Lower;
    forall k | 0 <= k < |part|
      ensures Lower(part)[k] == part[k]
    {
      CaseAt(part, k);
    }
  }

  /** A word is found in the lower-cased text exactly if it occurs somewhere, in any case. */
  lemma FoundInAnyCase(s: string, part: string)
    requires NoUppercase(part)
    ensures Contains(Lower(s), part) <==> exists i: nat :: OccursAt(s, part, i)
  {
    hide Lower, SameLetters, NoUppercase;
    LowerOfLower(part);
    forall i: nat | i + |part| <= |s|
      ensures part <= Lower(s)[i..] <==> OccursAt(s, part, i)
    {
      LowerSlice(s, i, i + |part|);
      SameLowerExactly(s[i..i + |part|], part);
      assert Lower(s)[i..][..|part|] == Lower(s)[i..i + |part|];
    }
    if Contains(Lower(s), part) {
      var i :| 0 <= i <= |s| && part <= Lower(s)[i..];
      assert OccursAt(s, part, i);
    }
    if i: nat :| OccursAt(s, part, i) {
      assert part <= Lower(s)[i..];
    }
  }

  // ---- decimal ----

  function DigitChar(d: nat): (c: char)
    requires d < 10
    ensures '0' <= c <= '9' && c as int == '0' as int + d
  {
    ('0' as int + d) as char
  }

  function Decimal(n: nat): (s: string)
    ensures s != "" && forall i :: 0 <= i < |s| ==> '0' <= s[i] <= '9'
  {
    if n < 10 then [DigitChar(n)] else Decimal(n / 10) + [DigitChar(n % 10)]
  }

  /** `to_string` of an integer. */
  function Show(n: int): string {
    if n < 0 then "-" + Decimal(-n) else Decimal(n)
  }

  /** The number that a string of digits denotes. */
  function FromDecimal(s: string): int {
    if s == "" then 0 else FromDecimal(s[..|s| - 1]) * 10 + (s[|s| - 1] as int - '0' as int)
  }

  /** A number is written as the digits that denote it, without leading zeros. */
  lemma {:induction false} DecimalReadsBack(n: nat)
    ensures FromDecimal(Decimal(n)) == n && (n > 0 ==> Decimal(n)[0] != '0')
    ensures Show(n) == Decimal(n) && (n > 0 ==> Show(-(n as int)) == "-" + Decimal(n))
  {
    if n >= 10 {
      DecimalReadsBack(n / 10);
      Splits(Decimal(n / 10), [DigitChar(n % 10)]);
    }
  }

  lemma {:induction false} DecimalInjective(m: nat, n: nat)
    requires Decimal(m) == Decimal(n)
    ensures m == n
  {
    var a, b := Decimal(m), Decimal(n);
    assert a[|a| - 1] == b[|b| - 1];
    if m >= 10 && n >= 10 {
      Splits(Decimal(m / 10), [DigitChar(m % 10)]);
      Splits(Decimal(n / 10), [DigitChar(n % 10)]);
      assert a[..|a| - 1] == b[..|b| - 1];
      DecimalInjective(m / 10, n / 10);
    }
  }

  lemma ShowInjective(m: int, n: int)
    requires Show(m) == Show(n)
    ensures m == n
  {
    var a, b := Show(m), Show(n);
    assert (m < 0) == (a[0] == '-') && (n < 0) == (b[0] == '-');
    if m < 0 {
      assert a[1..] == Decimal(-m) && b[1..] == Decimal(-n);
      DecimalInjective(-m, -n);
    } else {
      DecimalInjective(m, n);
    }
  }

  lemma ShowHasNoNewline(n: int)
    ensures Free(Show(n), '\n')
  {}

  // ---- hex ----

  function HexChar(d: nat): (c: char)
    requires d < 16
    ensures c != '\n'
  {
    if d < 10 then ('0' as int + d) as char else ('a' as int + (d - 10)) as char
  }

  /** `hex::encode`. */
  function Hex(bytes: seq<Byte>): (s: string)
    ensures |s| == 2 * |bytes| && Free(s, '\n')
  {
    if bytes == [] then ""
    else [HexChar(bytes[0] / 16), HexChar(bytes[0] % 16)] + Hex(bytes[1..])
  }

  lemma {:induction false} HexInjective(a: seq<Byte>, b: seq<Byte>)
    requires Hex(a) == Hex(b)
    ensures a == b
  {
    if a != [] {
      assert |a| == |b|;
      var s := Hex(a);
      assert s[0] == HexChar(a[0] / 16) == HexChar(b[0] / 16);
      assert s[1] == HexChar(a[0] % 16) == HexChar(b[0] % 16);
      assert s[2..] == Hex(a[1..]) == Hex(b[1..]);
      HexInjective(a[1..], b[1..]);
      assert a == [a[0]] + a[1..] && b == [b[0]] + b[1..];
    }
  }
}
