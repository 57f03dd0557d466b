/** Character classes, searching, and the decimal conversions of the C/C++
    runtime that ufmt relies on: `std::string::find`, `std::to_string` for
    integers, `atoi` and `std::stoi`. */
module Text {
  import opened Wrappers

  const INT_MIN: int := -0x8000_0000
  const INT_MAX: int := 0x7FFF_FFFF

  /** `std::isdigit` in the C locale. */
  predicate IsDigit(c: char) {
    '0' <= c <= '9'
  }

  /** `std::isspace` in the C locale: space, \t, \n, \v, \f, \r. */
  predicate IsSpace(c: char) {
    c == ' ' || ('\t' <= c <= '\r')
  }

  predicate AllDigits(s: string) {
    forall i :: 0 <= i < |s| ==> IsDigit(s[i])
  }

  /** `std::string(n, c)`. */
  function Repeat(c: char, n: nat): (r: string)
    ensures |r| == n
    ensures forall i :: 0 <= i < n ==> r[i] == c
  {
    seq(n, _ => c)
  }

  // ---------------------------------------------------------------------
  // Searching (std::string::find)
  // ---------------------------------------------------------------------

  predicate OccursAt(s: string, pat: string, k: nat) {
    k + |pat| <= |s| && s[k..k + |pat|] == pat
  }

  /** An occurrence of `pat` ends in `pat`'s last character. */
  lemma OccurrencesEndWith(s: string, pat: string)
    requires pat != []
    ensures forall k: nat :: OccursAt(s, pat, k) ==> s[k + |pat| - 1] == pat[|pat| - 1]
  {
    forall k: nat | OccursAt(s, pat, k)
      ensures s[k + |pat| - 1] == pat[|pat| - 1]
    {
      assert s[k..k + |pat|][|pat| - 1] == s[k + |pat| - 1];
    }
  }

  /** The first position where `pat` occurs in `s`, scanning from the front.
      The search functions state only their bounds; what they find is stated
      by the lemmas that follow each of them. */
  function IndexOf(s: string, pat: string): (r: Option<nat>)
    ensures r.Some? ==> r.value + |pat| <= |s|
    decreases |s|
  {
    if |pat| > |s| then None
    else if s[..|pat|] == pat then Some(0)
    else
      match IndexOf(s[1..], pat)
      case None => None
      case Some(k) => Some(k + 1)
  }

  lemma {:induction false} IndexOfFinds(s: string, pat: string)
    ensures var r := IndexOf(s, pat);
            && (r.Some? ==> OccursAt(s, pat, r.value))
            && (r.Some? ==> forall k :: 0 <= k < r.value ==> !OccursAt(s, pat, k))
            && (r.None? ==> forall k: nat :: !OccursAt(s, pat, k))
    decreases |s|
  {
    if |pat| <= |s| && s[..|pat|] != pat {
      IndexOfFinds(s[1..], pat);
      ShiftOccurs(s, pat, 1);
    }
  }

  /** `s.find(pat, from)`: the first position at or after `from` where `pat`
      occurs, or None (npos). */
  function Find(s: string, pat: string, from: nat): (r: Option<nat>)
    ensures r.Some? ==> from <= r.value && r.value + |pat| <= |s|
  {
    if from > |s| then None
    else
      match IndexOf(s[from..], pat)
      case None => None
      case Some(k) => Some(from + k)
  }

  lemma FindFinds(s: string, pat: string, from: nat)
    ensures var r := Find(s, pat, from);
            && (r.Some? ==> OccursAt(s, pat, r.value))
            && (r.Some? ==> forall k :: from <= k < r.value ==> !OccursAt(s, pat, k))
            && (r.None? ==> forall k :: from <= k ==> !OccursAt(s, pat, k))
  {
    if from <= |s| {
      IndexOfFinds(s[from..], pat);
      ShiftOccurs(s, pat, from);
    }
  }

  /** What `Find` returns is an occurrence. */
  lemma FindOccurs(s: string, pat: string, from: nat)
    ensures var r := Find(s, pat, from);
            r.Some? ==> OccursAt(s, pat, r.value)
  {
    FindFinds(s, pat, from);
  }

  /** An occurrence in `s[from..]` is an occurrence in `s`, shifted. */
  lemma ShiftOccurs(s: string, pat: string, from: nat)
    requires from <= |s|
    ensures forall k: nat :: from <= k ==> (OccursAt(s[from..], pat, k - from) <==> OccursAt(s, pat, k))
  {
    forall k: nat | from <= k
      ensures OccursAt(s[from..], pat, k - from) <==> OccursAt(s, pat, k)
    {
      if k + |pat| <= |s| {
        assert s[from..][k - from..k - from + |pat|] == s[k..k + |pat|];
      }
    }
  }

  /** The first position of `c` in `s`, scanning from the front. */
  function IndexOfChar(s: string, c: char): (r: Option<nat>)
    ensures r.Some? ==> r.value < |s| && s[r.value] == c
    decreases |s|
  {
    if s == [] then None
    else if s[0] == c then Some(0)
    else
      match IndexOfChar(s[1..], c)
      case None => None
      case Some(k) => Some(k + 1)
  }

  lemma {:induction false} IndexOfCharFinds(s: string, c: char)
    ensures var r := IndexOfChar(s, c);
            && (r.Some? ==> forall k :: 0 <= k < r.value ==> s[k] != c)
            && (r.None? ==> forall k :: 0 <= k < |s| ==> s[k] != c)
    decreases |s|
  {
    if s != [] && s[0] != c {
      IndexOfCharFinds(s[1..], c);
      assert forall k :: 1 <= k < |s| ==> s[k] == s[1..][k - 1];
    }
  }

  /** `s.find(c, from)` for a single character (also what `s.find("}")`
      computes for a one-character needle). */
  function FindChar(s: string, c: char, from: nat): (r: Option<nat>)
    ensures r.Some? ==> from <= r.value < |s| && s[r.value] == c
  {
    if from > |s| then None
    else
      match IndexOfChar(s[from..], c)
      case None => None
      case Some(k) => Some(from + k)
  }

  lemma FindCharFinds(s: string, c: char, from: nat)
    ensures var r := FindChar(s, c, from);
            && (r.Some? ==> forall k :: from <= k < r.value ==> s[k] != c)
            && (r.None? ==> forall k :: from <= k < |s| ==> s[k] != c)
  {
    if from <= |s| {
      IndexOfCharFinds(s[from..], c);
      assert forall k :: from <= k < |s| ==> s[k] == s[from..][k - from];
    }
  }

  /** The first `c` at or after `from` is what `FindChar` returns. */
  lemma FindCharIs(s: string, c: char, from: nat, k: nat)
    requires from <= k < |s| && s[k] == c
    requires forall j :: from <= j < k ==> s[j] != c
    ensures FindChar(s, c, from) == Some(k)
  {
    FindCharFinds(s, c, from);
  }

  /** Searching a suffix finds the same position, shifted. */
  lemma FindCharSuffix(s: string, c: char, pos: nat, from: nat)
    requires pos <= from <= |s|
    ensures FindChar(s[pos..], c, from - pos)
         == (match FindChar(s, c, from) case None => None case Some(k) => Some(k - pos))
  {
    assert s[pos..][from - pos..] == s[from..];
  }

  lemma FindSuffix(s: string, pat: string, pos: nat, from: nat)
    requires pos <= from <= |s|
    ensures Find(s[pos..], pat, from - pos)
         == (match Find(s, pat, from) case None => None case Some(k) => Some(k - pos))
  {
    assert s[pos..][from - pos..] == s[from..];
  }

  // ---------------------------------------------------------------------
  // Decimal rendering (std::to_string on integers)
  // ---------------------------------------------------------------------

  function DigitChar(d: nat): (c: char)
    requires d < 10
    ensures IsDigit(c)
  {
    ('0' as int + d) as char
  }

  function DigitValue(c: char): (d: nat)
    requires IsDigit(c)
    ensures d < 10
  {
    c as int - '0' as int
  }

  /** The number a string of decimal digits denotes. */
  function DigitsValue(s: string): nat
    requires AllDigits(s)
  {
    if s == [] then 0 else DigitsValue(s[..|s| - 1]) * 10 + DigitValue(s[|s| - 1])
  }

  /** Minimal decimal digits of `n`. */
  function NatToDecimal(n: nat): (s: string)
    ensures |s| >= 1 && AllDigits(s)
    ensures |s| > 1 ==> s[0] != '0'
  {
    if n < 10 then [DigitChar(n)] else NatToDecimal(n / 10) + [DigitChar(n % 10)]
  }

  /** `std::to_string` of an integer: an optional '-' and minimal digits. */
  function IntToDecimal(n: int): string {
    if n < 0 then "-" + NatToDecimal(-n) else NatToDecimal(n)
  }

  lemma {:induction false} NatToDecimalValue(n: nat)
    ensures DigitsValue(NatToDecimal(n)) == n
  {
    if n >= 10 {
      var s := NatToDecimal(n);
      NatToDecimalValue(n / 10);
      assert s[..|s| - 1] == NatToDecimal(n / 10);
    }
  }

  // ---------------------------------------------------------------------
  // Leading-integer parsing (atoi, std::stoi)
  // ---------------------------------------------------------------------

  /** Drops the leading white space. */
  function SkipSpaces(s: string): (r: string)
    ensures |r| <= |s| && r == s[|s| - |r|..]
    ensures forall i :: 0 <= i < |s| - |r| ==> IsSpace(s[i])
    ensures r == [] || !IsSpace(r[0])
  {
    if s != [] && IsSpace(s[0]) then SkipSpaces(s[1..]) else s
  }

  /** The longest prefix made of decimal digits. */
  function LeadingDigits(s: string): (d: string)
    ensures |d| <= |s| && d == s[..|d|] && AllDigits(d)
    ensures |d| == |s| || !IsDigit(s[|d|])
  {
    if s != [] && IsDigit(s[0]) then [s[0]] + LeadingDigits(s[1..]) else []
  }

  /** The value of the leading "[spaces][+|-]digits" of a string, and how
      many digits took part (0 when there were none). */
  datatype Leading = Leading(value: int, digits: nat)

  function ParseLeadingInt(s: string): Leading {
    var t := SkipSpaces(s);
    var signed := t != [] && (t[0] == '-' || t[0] == '+');
    var d := LeadingDigits(if signed then t[1..] else t);
    var magnitude: int := DigitsValue(d);
    Leading(if signed && t[0] == '-' then -magnitude else magnitude, |d|)
  }

  /** C `atoi`: the leading integer, or 0 when there is none. */
  function Atoi(s: string): (n: int)
    ensures ParseLeadingInt(s).digits == 0 ==> n == 0
  {
    ParseLeadingInt(s).value
  }

  /** `std::stoi`: the leading integer; None where the C++ function throws
      (no digits: invalid_argument; outside `int`: out_of_range). */
  function StoI(s: string): (r: Option<int>)
    ensures r.Some? ==> INT_MIN <= r.value <= INT_MAX && r.value == Atoi(s)
    ensures r.None? <==> ParseLeadingInt(s).digits == 0 || !(INT_MIN <= Atoi(s) <= INT_MAX)
  {
    var l := ParseLeadingInt(s);
    if l.digits == 0 || !(INT_MIN <= l.value <= INT_MAX) then None else Some(l.value)
  }

  /** `atoi` reads back what `std::to_string` writes. */
  lemma AtoiOfDecimal(n: nat)
    ensures Atoi(NatToDecimal(n)) == n
  {
    var s := NatToDecimal(n);
    assert !IsSpace(s[0]) && s[0] != '-' && s[0] != '+';
    assert SkipSpaces(s) == s;
    LeadingDigitsOfDigits(s);
    NatToDecimalValue(n);
  }

  /** ... and so does it for negative numbers, through the '-' sign. */
  lemma AtoiOfIntDecimal(n: int)
    ensures Atoi(IntToDecimal(n)) == n
  {
    if n < 0 {
      var d := NatToDecimal(-n);
      var s := "-" + d;
      assert SkipSpaces(s) == s;
      assert s[1..] == d;
      LeadingDigitsOfDigits(d);
      NatToDecimalValue(-n);
    } else {
      AtoiOfDecimal(n);
    }
  }

  lemma {:induction false} LeadingDigitsOfDigits(s: string)
    requires AllDigits(s)
    ensures LeadingDigits(s) == s
  {
    if s != [] {
      LeadingDigitsOfDigits(s[1..]);
    }
  }

  /** A string that starts with neither white space, a sign nor a digit
      reads as 0 (so do the empty string and "." alone). */
  lemma AtoiOfNonNumeric(s: string)
    requires s == [] || !(IsSpace(s[0]) || IsDigit(s[0]) || s[0] == '-' || s[0] == '+')
    ensures Atoi(s) == 0
  {
  }
}
