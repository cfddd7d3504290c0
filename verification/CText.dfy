/**
 The parts of the C library the text components rest on: character classes, strtol, the %d
 conversion, and string search. A C string is a Dafny string without NUL characters, except
 where a buffer that may contain them is cut with `CString`.
 */
module CText {

  const INT_MAX := 0x7fff_ffff
  const INT_MIN := -0x8000_0000

  predicate IsInt32(n: int) { INT_MIN <= n <= INT_MAX }

  predicate IsSpace(c: char) {
    c == ' ' || c == '\t' || c == '\n' || c == '\U{0b}' || c == '\U{0c}' || c == '\r'
  }

  function Lower(c: char): char { if 'A' <= c <= 'Z' then c - 'A' + 'a' else c }

  predicate IsDigit(c: char) { '0' <= c <= '9' }

  function DigitValue(c: char): nat
    requires IsDigit(c)
  {
    c as int - '0' as int
  }

  function DigitChar(d: nat): char
    requires d < 10
  {
    '0' + d as char
  }

  /** The buffer as the string functions see it: up to its first NUL. */
  function CString(buffer: string): string {
    if buffer == "" || buffer[0] == '\0' then "" else [buffer[0]] + CString(buffer[1..])
  }

  predicate NoNul(s: string) { '\0' !in s }

  lemma {:induction false} CStringIsPrefix(s: string)
    ensures CString(s) <= s && NoNul(CString(s))
  {
    if s != "" && s[0] != '\0' {
      CStringIsPrefix(s[1..]);
    }
  }

  lemma {:induction false} CStringConcat(s: string, t: string)
    requires NoNul(s)
    ensures CString(s + t) == s + CString(t)
  {
    if s == "" {
      assert s + t == t;
    } else {
      assert (s + t)[1..] == s[1..] + t;
      CStringConcat(s[1..], t);
    }
  }

  /** What follows the terminator does not matter. */
  lemma {:induction false} CStringCut(s: string, rest: string)
    ensures CString(s + (['\0'] + rest)) == CString(s)
  {
    if s == "" {
      assert s + (['\0'] + rest) == ['\0'] + rest;
    } else {
      assert (s + (['\0'] + rest))[1..] == s[1..] + (['\0'] + rest);
      CStringCut(s[1..], rest);
    }
  }

  /** A terminated string without NUL is read back as it is. */
  lemma CStringOf(s: string, rest: string)
    requires NoNul(s) && (rest == "" || rest[0] == '\0')
    ensures CString(s + rest) == s
  {
    CStringConcat(s, rest);
  }

  function SkipSpaces(s: string): string {
    if s != "" && IsSpace(s[0]) then SkipSpaces(s[1..]) else s
  }

  /** The value of the digits at the head of `s`, continued from `value`. */
  function DigitsValue(s: string, value: nat): nat {
    if s != "" && IsDigit(s[0]) then DigitsValue(s[1..], 10 * value + DigitValue(s[0])) else value
  }

  function Clamp(n: int): int {
    if n > INT_MAX then INT_MAX else if n < INT_MIN then INT_MIN else n
  }

  /** strtol in base 10 with a 32-bit long: blanks, a sign, digits; saturating. */
  function StrTol(s: string): (n: int)
    ensures IsInt32(n)
  {
    var t := SkipSpaces(s);
    if t != "" && t[0] == '-' then Clamp(-(DigitsValue(t[1..], 0) as int))
    else if t != "" && t[0] == '+' then Clamp(DigitsValue(t[1..], 0))
    else Clamp(DigitsValue(t, 0))
  }

  /** atoi, as (int) strtol. */
  function Atoi(s: string): int { StrTol(s) }

  function PrintNat(n: nat): string {
    if n < 10 then [DigitChar(n)] else PrintNat(n / 10) + [DigitChar(n % 10)]
  }

  /** The %d conversion. */
  function PrintInt(n: int): string {
    if n < 0 then "-" + PrintNat(-n) else PrintNat(n)
  }

  lemma {:induction false} PrintNatIsDigits(n: nat)
    ensures PrintNat(n) != ""
    ensures forall i :: 0 <= i < |PrintNat(n)| ==> IsDigit(PrintNat(n)[i])
  {
    if n >= 10 {
      PrintNatIsDigits(n / 10);
    }
  }

  lemma {:induction false} DigitsOfPrint(n: nat, rest: string)
    ensures DigitsValue(PrintNat(n) + rest, 0) == DigitsValue(rest, n)
  {
    if n < 10 {
      assert (PrintNat(n) + rest)[1..] == rest;
    } else {
      var d := [DigitChar(n % 10)];
      DigitsOfPrint(n / 10, d + rest);
      assert PrintNat(n) + rest == PrintNat(n / 10) + (d + rest);
      assert (d + rest)[1..] == rest;
    }
  }

  /** Spaces, tabs, newlines, vertical tabs, form feeds and carriage returns. */
  predicate Blanks(s: string) { forall i :: 0 <= i < |s| ==> s[i] == ' ' || 9 <= s[i] as int <= 13 }

  lemma {:induction false} SkipBlanks(blanks: string, rest: string)
    requires Blanks(blanks) && (rest == "" || !(rest[0] == ' ' || 9 <= rest[0] as int <= 13))
    ensures SkipSpaces(blanks + rest) == rest
  {
    if blanks == "" {
      assert blanks + rest == rest;
    } else {
      assert (blanks + rest)[1..] == blanks[1..] + rest;
      SkipBlanks(blanks[1..], rest);
    }
  }

  /** A printed number of any size is read behind blanks and an optional plus sign; it saturates at 32 bits. */
  lemma NumberIsRead(blanks: string, plus: bool, n: int, rest: string)
    requires Blanks(blanks) && (plus ==> n >= 0) && (rest == "" || !('0' <= rest[0] <= '9'))
    ensures StrTol(blanks + ((if plus then "+" else "") + PrintInt(n) + rest)) ==
            if n > 0x7fff_ffff then 0x7fff_ffff else if n < -0x8000_0000 then -0x8000_0000 else n
  {
    hide DigitsValue, SkipSpaces, PrintNat;
    var m: nat := if n < 0 then -n else n;
    PrintNatIsDigits(m);
    DigitsOfPrint(m, rest);
    NothingToRead(rest, m);
    var digits := PrintNat(m) + rest;
    var s := (if plus then "+" else "") + PrintInt(n) + rest;
    assert IsDigit(digits[0]);
    if plus {
      assert s == "+" + digits && s[1..] == digits;
    } else if n < 0 {
      assert s == "-" + digits && s[1..] == digits;
    } else {
      assert s == digits;
    }
    SkipBlanks(blanks, s);
  }

  /** Printing and parsing a 32-bit integer gives it back, whatever non-digit follows. */
  lemma IntRoundTrip(n: int, rest: string)
    requires IsInt32(n) && (rest == "" || !IsDigit(rest[0]))
    ensures StrTol(PrintInt(n) + rest) == n
  {
    hide StrTol, PrintInt;
    NumberIsRead("", false, n, rest);
    assert "" + ("" + PrintInt(n) + rest) == PrintInt(n) + rest;
  }

  lemma NothingToRead(rest: string, value: nat)
    requires rest == "" || !('0' <= rest[0] <= '9')
    ensures DigitsValue(rest, value) == value
  {
  }

  /** What begins neither with a digit nor with a sign is read as 0. */
  lemma NoNumberIsZero(blanks: string, rest: string)
    requires Blanks(blanks) && (rest == "" || !(rest[0] == ' ' || 9 <= rest[0] as int <= 13))
    requires rest != "" ==> !('0' <= rest[0] <= '9') && rest[0] != '-' && rest[0] != '+'
    ensures StrTol(blanks + rest) == 0
  {
    hide DigitsValue, SkipSpaces;
    SkipBlanks(blanks, rest);
    NothingToRead(rest, 0);
  }

  predicate AllDigits(s: string) { forall i :: 0 <= i < |s| ==> '0' <= s[i] <= '9' }

  /** Digits are read in base 10: one more at the end multiplies by ten and adds its value. */
  lemma {:induction false} DigitsAreDecimal(s: string, c: char, value: nat)
    requires AllDigits(s) && '0' <= c <= '9'
    ensures DigitsValue(s + [c], value) == 10 * DigitsValue(s, value) + (c as int - '0' as int)
  {
    if s == "" {
      assert s + [c] == [c] && [c][1..] == "";
    } else {
      assert (s + [c])[1..] == s[1..] + [c];
      DigitsAreDecimal(s[1..], c, 10 * value + DigitValue(s[0]));
    }
  }

  /** The same for strtol, as long as the result has not reached the largest 32-bit number. */
  lemma StrTolIsDecimal(s: string, c: char)
    requires AllDigits(s) && '0' <= c <= '9' && StrTol(s) < 0x7fff_ffff
    ensures var n := 10 * StrTol(s) + (c as int - '0' as int);
            StrTol(s + [c]) == if n > 0x7fff_ffff then 0x7fff_ffff else n
    ensures StrTol("") == 0
  {
    hide DigitsValue;
    NothingToRead("", 0);
    DigitsAreDecimal(s, c, 0);
    assert SkipSpaces(s) == s && SkipSpaces(s + [c]) == s + [c];
  }

  // ---------------------------------------------------------------------------
  // Case
  // ---------------------------------------------------------------------------

  /** `text` is the word `lower`, whose capitals are `upper`, with each letter in either case. */
  predicate Spells(text: string, lower: string, upper: string)
    requires |lower| == |upper|
  {
    |text| == |lower| && forall j :: 0 <= j < |text| ==> text[j] == lower[j] || text[j] == upper[j]
  }

  /** The two spellings belong together: the same character, or a lower-case letter and its capital. */
  predicate Cases(lower: char, upper: char) {
    if 'a' <= lower <= 'z' then upper == lower - 'a' + 'A' else upper == lower && !('A' <= lower <= 'Z')
  }

  lemma LowerIs(c: char, lower: char, upper: char)
    requires Cases(lower, upper)
    ensures Lower(c) == lower <==> c == lower || c == upper
    ensures Lower(lower) == lower
  {
  }

  // ---------------------------------------------------------------------------
  // Search
  // ---------------------------------------------------------------------------

  predicate OccursAt(s: string, pat: string, i: nat) {
    i + |pat| <= |s| && s[i..i + |pat|] == pat
  }

  datatype Found = NotFound | At(index: nat)

  /** strstr: the first occurrence of `pat` from position `i` on. */
  function StrStr(s: string, pat: string, i: nat := 0): (r: Found)
    requires i <= |s|
    ensures r.At? ==> i <= r.index && OccursAt(s, pat, r.index)
    ensures r.At? ==> forall k :: i <= k < r.index ==> !OccursAt(s, pat, k)
    ensures r.NotFound? ==> forall k :: i <= k ==> !OccursAt(s, pat, k)
    decreases |s| - i
  {
    if OccursAt(s, pat, i) then At(i)
    else if i < |s| then StrStr(s, pat, i + 1)
    else NotFound
  }

  /** strchr: the first position of `c`. */
  function StrChr(s: string, c: char, i: nat := 0): (r: Found)
    requires i <= |s|
    ensures r.At? ==> i <= r.index < |s| && s[r.index] == c && forall k :: i <= k < r.index ==> s[k] != c
    ensures r.NotFound? ==> forall k :: i <= k < |s| ==> s[k] != c
    decreases |s| - i
  {
    if i == |s| then NotFound else if s[i] == c then At(i) else StrChr(s, c, i + 1)
  }
}
