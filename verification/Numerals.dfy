/** How the C library reads numbers (strtoul, strtoull, atoi, atol) and how numbers are printed. */
module Numerals {
  const ULONG_MAX := 0xFFFF_FFFF
  const UINT64_MAX := 0xFFFF_FFFF_FFFF_FFFF
  const INT_MAX := 0x7FFF_FFFF

  predicate IsSpace(c: char) {
    c == ' ' || '\t' <= c <= '\r'
  }

  /** The value of a digit, or 36 for any other character. */
  function DigitOf(c: char): nat {
    if '0' <= c <= '9' then c as nat - '0' as nat
    else if 'a' <= c <= 'z' then c as nat - 'a' as nat + 10
    else if 'A' <= c <= 'Z' then c as nat - 'A' as nat + 10
    else 36
  }

  /** Reads digits from the front of `s`, with `value` already read; `rest` is where they end. */
  function ReadDigits(s: string, base: nat, value: nat): (nat, string) {
    if s != "" && DigitOf(s[0]) < base then ReadDigits(s[1..], base, value * base + DigitOf(s[0]))
    else (value, s)
  }

  function SkipSpace(s: string): string {
    if s != "" && IsSpace(s[0]) then SkipSpace(s[1..]) else s
  }

  /** A number at the front of a string: none, or its sign and magnitude and what follows. */
  datatype Scan = NoNumber | Number(negative: bool, magnitude: nat, rest: string)

  /** Base 16 lets the digits be preceded by 0x. */
  function AfterPrefix(s: string, base: nat): string {
    if base == 16 && |s| > 2 && s[0] == '0' && (s[1] == 'x' || s[1] == 'X') && DigitOf(s[2]) < 16 then s[2..] else s
  }

  function ScanNumber(s: string, base: nat): Scan {
    var t := SkipSpace(s);
    var negative := t != "" && t[0] == '-';
    var u := if t != "" && (t[0] == '-' || t[0] == '+') then t[1..] else t;
    var digits := AfterPrefix(u, base);
    if digits == "" || DigitOf(digits[0]) >= base then NoNumber
    else Number(negative, ReadDigits(digits, base, 0).0, ReadDigits(digits, base, 0).1)
  }

  /** strtoul and strtoull with `max` the largest value: too large gives `max`, a minus sign wraps. */
  function ToUnsigned(n: Scan, max: nat): nat {
    match n
    case NoNumber => 0
    case Number(negative, m, _) => if m > max then max else if negative && m > 0 then max + 1 - m else m
  }

  /** atoi and atol: too large gives the nearest value. */
  function ToInt(n: Scan): int {
    match n
    case NoNumber => 0
    case Number(negative, m, _) =>
      if negative then -(if m > INT_MAX then INT_MAX + 1 else m)
      else if m > INT_MAX then INT_MAX else m
  }

  /** A string of digits of the base, at least one. */
  predicate IsNumeral(s: string, base: nat) {
    s != "" && forall i :: 0 <= i < |s| ==> DigitOf(s[i]) < base
  }

  /** The value of a string of digits, most significant first. */
  function ValueOf(s: string, base: nat): nat {
    if s == "" then 0 else ValueOf(s[..|s| - 1], base) * base + DigitOf(s[|s| - 1])
  }

  /** Nothing that could extend a number: the end, or a character that is no digit. */
  predicate Ends(rest: string, base: nat) {
    rest == "" || DigitOf(rest[0]) >= base
  }

  /** Reading a numeral gives its value and stops where the numeral does. */
  lemma {:induction false} ReadsNumeral(done: string, s: string, rest: string, base: nat)
    requires forall i :: 0 <= i < |done| ==> DigitOf(done[i]) < base
    requires forall i :: 0 <= i < |s| ==> DigitOf(s[i]) < base
    requires Ends(rest, base)
    ensures ReadDigits(s + rest, base, ValueOf(done, base)) == (ValueOf(done + s, base), rest)
    decreases |s|
  {
    if s == "" {
      assert s + rest == rest && done + s == done;
    } else {
      var more := done + [s[0]];
      assert more[..|more| - 1] == done;
      assert (s + rest)[1..] == s[1..] + rest;
      assert done + s == more + s[1..];
      assert ReadDigits(s + rest, base, ValueOf(done, base)) == ReadDigits(s[1..] + rest, base, ValueOf(more, base));
      hide ReadDigits, ValueOf;
      ReadsNumeral(more, s[1..], rest, base);
    }
  }

  /** A text that starts with a digit has no space, sign or prefix to pass over. */
  lemma StartsNumeral(s: string, rest: string, base: nat)
    requires IsNumeral(s, base) && base <= 16
    requires base == 16 && rest != "" ==> rest[0] != 'x' && rest[0] != 'X'
    ensures s + rest != "" && DigitOf((s + rest)[0]) < base && (s + rest)[0] != '-' && (s + rest)[0] != '+'
    ensures SkipSpace(s + rest) == s + rest && AfterPrefix(s + rest, base) == s + rest
  {
    var t := s + rest;
    assert t[0] == s[0];
    assert |t| > 1 ==> t[1] == if |s| > 1 then s[1] else rest[0];
  }

  lemma ReadsWhole(s: string, rest: string, base: nat)
    requires IsNumeral(s, base) && Ends(rest, base)
    ensures ReadDigits(s + rest, base, 0) == (ValueOf(s, base), rest)
  {
    ReadsNumeral("", s, rest, base);
    assert "" + s == s;
  }

  lemma ScansNumeral(s: string, rest: string, base: nat)
    requires IsNumeral(s, base) && base <= 16 && Ends(rest, base)
    requires base == 16 && rest != "" ==> rest[0] != 'x' && rest[0] != 'X'
    ensures ScanNumber(s + rest, base) == Number(false, ValueOf(s, base), rest)
  {
    hide AfterPrefix, SkipSpace, ReadDigits, DigitOf, ValueOf, IsNumeral;
    StartsNumeral(s, rest, base);
    ReadsWhole(s, rest, base);
  }

  lemma NumeralHasNo(s: string, base: nat, c: char)
    requires IsNumeral(s, base) && DigitOf(c) >= base
    ensures c !in s
  {
  }

  /** The digit for a value below 16. */
  function Digit(v: nat): (c: char)
    requires v < 16
    ensures DigitOf(c) == v
  {
    if v < 10 then '0' + v as char else 'A' + (v - 10) as char
  }

  /** One more digit on the right. */
  lemma AppendDigit(s: string, base: nat, d: nat)
    requires IsNumeral(s, base) || s == ""
    requires d < base <= 16
    ensures IsNumeral(s + [Digit(d)], base)
    ensures ValueOf(s + [Digit(d)], base) == ValueOf(s, base) * base + d
  {
    assert (s + [Digit(d)])[..|s|] == s;
  }

  /** A number printed without leading zeros. */
  function Print(v: nat, base: nat): (s: string)
    requires base == 10 || base == 16
    ensures IsNumeral(s, base) && ValueOf(s, base) == v
  {
    var front := if v < base then "" else Print(v / base, base);
    assert ValueOf(front, base) * base + v % base == v;
    AppendDigit(front, base, v % base);
    front + [Digit(v % base)]
  }
}
