/** The decimal text form of 64-bit ids: printing with `%llu`, reading back with `strtoull` (section
    7.22.1.4 of ISO/IEC 9899:2011). */
module Decimal {
  import opened Prelude

  predicate IsDigit(c: char) {
    '0' <= c <= '9'
  }

  predicate IsSpace(c: char) {
    c == ' ' || '\t' <= c <= '\r'
  }

  function DigitValue(c: char): nat
    requires IsDigit(c)
  {
    c as nat - '0' as nat
  }

  function DigitChar(d: nat): (c: char)
    requires d < 10
    ensures IsDigit(c) && DigitValue(c) == d
  {
    '0' + d as char
  }

  /** `%llu`. */
  function Print(n: nat): (s: string)
    ensures s != [] && forall c :: c in s ==> IsDigit(c)
  {
    if n < 10 then [DigitChar(n)] else Print(n / 10) + [DigitChar(n % 10)]
  }

  const SNPRINTF_LIMIT: nat := 127

  /** `ld_snowflake2str`: `snprintf` keeps one character of its limit for the terminator. */
  function SnowflakeToString(flake: nat): string {
    var text := Print(flake);
    if |text| < SNPRINTF_LIMIT then text else text[..SNPRINTF_LIMIT - 1]
  }

  /** The number spelled by the leading digits of a text, continuing from acc. */
  function ReadDigits(s: string, acc: nat): nat {
    if s == [] || !IsDigit(s[0]) then acc else ReadDigits(s[1..], acc * 10 + DigitValue(s[0]))
  }

  function SkipSpaces(s: string): string {
    if s != [] && IsSpace(s[0]) then SkipSpaces(s[1..]) else s
  }

  /** A sign, if there is one, and the number spelled after it. */
  function ReadSigned(s: string): (bool, nat) {
    var body := SkipSpaces(s);
    if body != [] && body[0] == '-' then (true, ReadDigits(body[1..], 0))
    else if body != [] && body[0] == '+' then (false, ReadDigits(body[1..], 0))
    else (false, ReadDigits(body, 0))
  }

  /** `strtoull(s, NULL, 10)`: saturates, and negates modulo 2^64. */
  function StrToULL(s: string): (n: nat)
    ensures n < TWO_64
  {
    var (negative, v) := ReadSigned(s);
    if v >= TWO_64 then TWO_64 - 1 else if negative then (TWO_64 - v) % TWO_64 else v
  }

  /** `strtol(s, NULL, 10)` with a 64-bit `long`: saturates at both ends. */
  function StrToL(s: string): int {
    var (negative, v) := ReadSigned(s);
    if negative then (if v > TWO_64 / 2 then -TWO_64 / 2 else 0 - v)
    else if v >= TWO_64 / 2 then TWO_64 / 2 - 1 else v
  }

  /* ---- reading undoes printing ---- */

  lemma {:induction false} ReadOneMore(s: string, c: char, acc: nat)
    requires IsDigit(c) && forall d :: d in s ==> IsDigit(d)
    ensures ReadDigits(s + [c], acc) == ReadDigits(s, acc) * 10 + DigitValue(c)
    decreases |s|
  {
    if s != [] {
      assert (s + [c])[1..] == s[1..] + [c];
      assert s[0] in s;
      ReadOneMore(s[1..], c, acc * 10 + DigitValue(s[0]));
    }
  }

  lemma {:induction false} ReadUndoesPrint(n: nat)
    ensures ReadDigits(Print(n), 0) == n
  {
    if n >= 10 {
      ReadUndoesPrint(n / 10);
      ReadOneMore(Print(n / 10), DigitChar(n % 10), 0);
    }
  }

  function Pow10(k: nat): nat {
    if k == 0 then 1 else 10 * Pow10(k - 1)
  }

  lemma {:induction false} PrintIsShort(n: nat, k: nat)
    requires k > 0 && n < Pow10(k)
    ensures |Print(n)| <= k
  {
    if n >= 10 {
      PrintIsShort(n / 10, k - 1);
    }
  }

  lemma DigitsAreNotSkipped(s: string)
    requires s != [] && forall c :: c in s ==> IsDigit(c)
    ensures ReadSigned(s) == (false, ReadDigits(s, 0))
  {
  }

  /** Every 64-bit id survives its text form, which has at most 20 digits and is never cut off. */
  lemma IdRoundTrip(flake: nat)
    requires flake < TWO_64
    ensures |SnowflakeToString(flake)| <= 20
    ensures StrToULL(SnowflakeToString(flake)) == flake
  {
    assert Pow10(20) == 100_000_000_000_000_000_000 by {
      assert Pow10(5) == 100_000;
      assert Pow10(10) == 10_000_000_000;
      assert Pow10(15) == 1_000_000_000_000_000;
    }
    PrintIsShort(flake, 20);
    ReadUndoesPrint(flake);
    DigitsAreNotSkipped(Print(flake));
  }

  lemma SignedText(n: nat)
    ensures ReadSigned(Print(n)) == (false, n) && ReadSigned("-" + Print(n)) == (true, n)
  {
    var text := "-" + Print(n);
    ReadUndoesPrint(n);
    DigitsAreNotSkipped(Print(n));
    assert SkipSpaces(text) == text && text[1..] == Print(n);
  }

  /** Outside 64 bits `strtoull` saturates; a minus sign negates modulo 2^64. */
  lemma OutsideULL(n: nat)
    ensures n >= 0x1_0000_0000_0000_0000 ==> StrToULL(Print(n)) == 0xFFFF_FFFF_FFFF_FFFF
    ensures 0 < n < 0x1_0000_0000_0000_0000 ==> StrToULL("-" + Print(n)) == 0x1_0000_0000_0000_0000 - n
  {
    SignedText(n);
  }

  /** White space before a number is skipped; and reading stops at the first character that is no digit. */
  lemma {:induction false} NumberInText(c: char, rest: string, n: nat)
    ensures c == ' ' || c == '\t' || c == '\n' || c == '\r' ==> StrToULL([c] + rest) == StrToULL(rest)
    ensures !IsDigit(c) ==> ReadDigits(Print(n) + [c] + rest, 0) == n
  {
    assert ([c] + rest)[1..] == rest;
    if !IsDigit(c) {
      ReadUndoesPrint(n);
      ReadingStops(Print(n), c, rest, 0);
    }
  }

  lemma {:induction false} ReadingStops(s: string, c: char, rest: string, acc: nat)
    requires !IsDigit(c) && forall d :: d in s ==> IsDigit(d)
    ensures ReadDigits(s + [c] + rest, acc) == ReadDigits(s, acc)
    decreases |s|
  {
    if s != [] {
      assert (s + [c] + rest)[1..] == s[1..] + [c] + rest;
      assert s[0] in s;
      ReadingStops(s[1..], c, rest, acc * 10 + DigitValue(s[0]));
    }
  }

  /** `strtol` reads every number of 63 bits back from its text, with or without a minus sign. */
  lemma LongRoundTrip(n: nat)
    requires n < TWO_64 / 2
    ensures StrToL(Print(n)) == n && StrToL("-" + Print(n)) == 0 - n
  {
    SignedText(n);
  }

  /* ---- printing undoes reading ---- */

  /** Texts an id can have: digits without leading zeros. */
  predicate Canonical(s: string) {
    s != [] && (forall c :: c in s ==> IsDigit(c)) && (|s| > 1 ==> s[0] != '0')
  }

  lemma {:induction false} PrintUndoesRead(s: string)
    requires Canonical(s)
    ensures Print(ReadDigits(s, 0)) == s
    ensures |s| > 1 || s[0] != '0' ==> ReadDigits(s, 0) > 0
    decreases |s|
  {
    var front, c := s[..|s| - 1], s[|s| - 1];
    assert s == front + [c];
    assert c in s;
    assert forall d :: d in front ==> d in s;
    ReadOneMore(front, c, 0);
    if front == [] {
      assert ReadDigits(front, 0) == 0;
      assert DigitChar(DigitValue(c)) == c;
    } else {
      assert front[0] == s[0];
      PrintUndoesRead(front);
      assert DigitChar(DigitValue(c)) == c;
    }
  }

  /** And every canonical text of a 64-bit number is the text of the id it reads as, so texts and ids
      correspond one to one. */
  lemma TextRoundTrip(s: string)
    requires Canonical(s) && ReadDigits(s, 0) < TWO_64
    ensures SnowflakeToString(StrToULL(s)) == s
  {
    DigitsAreNotSkipped(s);
    PrintUndoesRead(s);
    IdRoundTrip(ReadDigits(s, 0));
  }
}
