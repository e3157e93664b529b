/** Character classes and number formats of the C library calls that the HTTP code relies on. */
module Ascii {

  datatype Option<+T> = None | Some(value: T)

  const CRLF: string := "\r\n"

  /** Largest value of the 32-bit `size_t` and `unsigned long` of the target. */
  const MAX_SIZE: nat := 0xFFFF_FFFF

  type Size = n: int | 0 <= n <= MAX_SIZE

  predicate IsSpace(c: char) {
    c == ' ' || 9 <= c as int <= 13
  }

  function Lower(c: char): char {
    if 'A' <= c <= 'Z' then (c as int + 32) as char else c
  }

  predicate EqualsNoCase(s: string, t: string) {
    |s| == |t| && forall i :: 0 <= i < |s| ==> Lower(s[i]) == Lower(t[i])
  }

  function SkipSpaces(s: string): string {
    if s != "" && IsSpace(s[0]) then SkipSpaces(s[1..]) else s
  }

  function TrimRight(s: string): string {
    if s != "" && IsSpace(s[|s| - 1]) then TrimRight(s[..|s| - 1]) else s
  }

  predicate IsDigit(c: char) {
    '0' <= c <= '9'
  }

  predicate IsHex(c: char) {
    IsDigit(c) || 'a' <= c <= 'f' || 'A' <= c <= 'F'
  }

  function HexDigit(c: char): nat
    requires IsHex(c)
  {
    if IsDigit(c) then c as int - '0' as int
    else if 'a' <= c then c as int - 'a' as int + 10
    else c as int - 'A' as int + 10
  }

  predicate AllHex(s: string) {
    forall i :: 0 <= i < |s| ==> IsHex(s[i])
  }

  function HexValue(s: string): nat
    requires AllHex(s)
  {
    if s == "" then 0 else 16 * HexValue(s[..|s| - 1]) + HexDigit(s[|s| - 1])
  }

  function DecimalValue(s: string): nat
    requires forall i :: 0 <= i < |s| ==> IsDigit(s[i])
  {
    if s == "" then 0 else 10 * DecimalValue(s[..|s| - 1]) + HexDigit(s[|s| - 1])
  }

  /** Length of the longest prefix of decimal digits. */
  function DigitPrefix(s: string): (n: nat)
    ensures n <= |s| && forall i :: 0 <= i < n ==> IsDigit(s[i])
  {
    if s != "" && IsDigit(s[0]) then 1 + DigitPrefix(s[1..]) else 0
  }

  /** Unsigned conversion of an optionally signed magnitude, as strtoul does on a 32-bit target. */
  function Signed(negative: bool, magnitude: nat): Size {
    if magnitude > MAX_SIZE then MAX_SIZE
    else if negative && magnitude > 0 then MAX_SIZE + 1 - magnitude
    else magnitude
  }

  /** strtoul(s, &end, 16), with None when `end` is not the end of `s`. */
  function ParseHex(s: string): Option<Size> {
    var t := SkipSpaces(s);
    var signed := t != "" && (t[0] == '+' || t[0] == '-');
    var u := if signed then t[1..] else t;
    var digits := if |u| >= 3 && u[0] == '0' && Lower(u[1]) == 'x' && IsHex(u[2]) then u[2..] else u;
    if digits == "" || !AllHex(digits) then None
    else Some(Signed(signed && t[0] == '-', HexValue(digits)))
  }

  /** sscanf(s, "%u", &n). C leaves a magnitude over 32 bits to the library: `overflow` says what it yields. */
  function ParseUnsigned(s: string, overflow: string -> Size): Option<Size> {
    var t := SkipSpaces(s);
    var signed := t != "" && (t[0] == '+' || t[0] == '-');
    var u := if signed then t[1..] else t;
    var n := DigitPrefix(u);
    if n == 0 then None
    else if DecimalValue(u[..n]) > MAX_SIZE then Some(overflow(s))
    else Some(Signed(signed && t[0] == '-', DecimalValue(u[..n])))
  }

  // ---------------------------------------------------------------- what they are, character by character

  const UPPERCASE: string := "ABCDEFGHIJKLMNOPQRSTUVWXYZ"
  const LOWERCASE: string := "abcdefghijklmnopqrstuvwxyz"

  /** The letters are mapped one by one, and nothing else is. */
  lemma LowerIs(c: char)
    ensures forall d :: 0 <= d < 26 ==> (c == UPPERCASE[d] ==> Lower(c) == LOWERCASE[d])
    ensures c !in UPPERCASE ==> Lower(c) == c
  {
    forall d | 0 <= d < 26 && c == UPPERCASE[d] ensures Lower(c) == LOWERCASE[d] {
      LowerLetter(d);
    }
    if 'A' <= c <= 'Z' {
      assert UPPERCASE[c as int - 65] == c;
    }
  }

  lemma LowerLetter(d: nat)
    requires d < 26
    ensures Lower(UPPERCASE[d]) == LOWERCASE[d]
  {
  }

  /** Blank, tab, line feed, vertical tab, form feed, carriage return. */
  lemma IsSpaceIff(c: char)
    ensures IsSpace(c) <==> c as int in {32, 9, 10, 11, 12, 13}
  {
  }

  /** White space goes from one end, all of it, and nothing else. */
  lemma {:induction false} SkipSpacesIs(s: string)
    ensures var t := SkipSpaces(s); var n := |s| - |t|;
      n >= 0 && t == s[n..] && (forall i :: 0 <= i < n ==> IsSpace(s[i])) && (t != "" ==> !IsSpace(t[0]))
    decreases |s|
  {
    if s != "" && IsSpace(s[0]) {
      SkipSpacesIs(s[1..]);
    }
  }

  lemma {:induction false} TrimRightIs(s: string)
    ensures var t := TrimRight(s);
      t <= s && (forall i :: |t| <= i < |s| ==> IsSpace(s[i])) && (t != "" ==> !IsSpace(t[|t| - 1]))
    decreases |s|
  {
    if s != "" && IsSpace(s[|s| - 1]) {
      TrimRightIs(s[..|s| - 1]);
    }
  }

  /** The digits in either case. */
  lemma HexDigitIs(d: nat)
    requires d < 16
    ensures var lower, upper := "0123456789abcdef"[d], "0123456789ABCDEF"[d];
      IsHex(lower) && HexDigit(lower) == d && IsHex(upper) && HexDigit(upper) == d
  {
  }

  lemma IsHexIff(c: char)
    ensures IsHex(c) <==> c in "0123456789abcdefABCDEF"
  {
    var s := "0123456789abcdefABCDEF";
    if IsDigit(c) {
      assert s[c as int - 48] == c;
    } else if 'a' <= c <= 'f' {
      assert s[c as int - 87] == c;
    } else if 'A' <= c <= 'F' {
      assert s[c as int - 49] == c;
    }
  }

  /** What may stand around a hexadecimal number: blanks, a sign, and 0x; a minus is taken modulo 2^32. */
  lemma HexForms(digits: string)
    requires AllHex(digits) && digits != "" && HexValue(digits) <= 0xFFFF_FFFF
    ensures ParseHex(digits) == ParseHex(" " + digits) == ParseHex("+" + digits) == Some(HexValue(digits))
    ensures ParseHex("0x" + digits) == ParseHex("0X" + digits) == Some(HexValue(digits))
    ensures ParseHex("-" + digits) == Some((0x1_0000_0000 - HexValue(digits)) % 0x1_0000_0000)
  {
    HexPlain(digits);
    HexPrefixed('x', digits);
    HexPrefixed('X', digits);
    hide ParseHex;
    assert ['0', 'x'] + digits == "0x" + digits && ['0', 'X'] + digits == "0X" + digits;
  }

  lemma HexPlain(digits: string)
    requires AllHex(digits) && digits != "" && HexValue(digits) <= 0xFFFF_FFFF
    ensures ParseHex(digits) == ParseHex(" " + digits) == ParseHex("+" + digits) == Some(HexValue(digits))
    ensures ParseHex("-" + digits) == Some((0x1_0000_0000 - HexValue(digits)) % 0x1_0000_0000)
  {
    hide HexValue;
    assert !IsSpace(digits[0]) && SkipSpaces(digits) == digits && IsHex(digits[0]);
    assert |digits| > 1 ==> IsHex(digits[1]) && Lower(digits[1]) != 'x';
    assert (" " + digits)[1..] == digits && ("+" + digits)[1..] == digits && ("-" + digits)[1..] == digits;
    assert SkipSpaces(" " + digits) == SkipSpaces(digits);
  }

  lemma HexPrefixed(x: char, digits: string)
    requires AllHex(digits) && digits != "" && HexValue(digits) <= 0xFFFF_FFFF && (x == 'x' || x == 'X')
    ensures ParseHex(['0', x] + digits) == Some(HexValue(digits))
  {
    hide HexValue;
    var s := ['0', x] + digits;
    assert IsHex(digits[0]) && s[2] == digits[0] && s[2..] == digits && SkipSpaces(s) == s;
  }

  /** Nothing may stand behind it; and what is too large is the largest number. */
  lemma HexLimits(digits: string)
    requires AllHex(digits) && digits != ""
    ensures HexValue(digits) > 0xFFFF_FFFF ==> ParseHex(digits) == Some(0xFFFF_FFFF)
    ensures ParseHex("") == None && ParseHex("x") == None && ParseHex("0x") == None
    ensures ParseHex(digits + ";") == None
  {
    hide HexValue;
    assert !IsSpace(digits[0]) && SkipSpaces(digits) == digits && IsHex(digits[0]);
    assert |digits| > 1 ==> IsHex(digits[1]) && Lower(digits[1]) != 'x';
    var s := digits + ";";
    assert s[0] == digits[0] && SkipSpaces(s) == s && !IsHex(s[|digits|]);
    assert |s| > 1 ==> Lower(s[1]) != 'x';
  }

  /** Decimal numbers likewise, except that other characters may follow. */
  lemma DecimalForms(digits: string, rest: string, overflow: string -> Size)
    requires digits != "" && (forall i :: 0 <= i < |digits| ==> IsDigit(digits[i]))
    requires rest == "" || !IsDigit(rest[0])
    requires DecimalValue(digits) <= 0xFFFF_FFFF
    ensures ParseUnsigned(digits + rest, overflow) == Some(DecimalValue(digits))
    ensures ParseUnsigned(" " + (digits + rest), overflow) == Some(DecimalValue(digits))
    ensures ParseUnsigned("+" + (digits + rest), overflow) == Some(DecimalValue(digits))
    ensures ParseUnsigned("-" + (digits + rest), overflow)
         == Some((0x1_0000_0000 - DecimalValue(digits)) % 0x1_0000_0000)
  {
    var s := digits + rest;
    DigitsInFront(digits, rest);
    assert s[..|digits|] == digits && s[0] == digits[0];
    hide DecimalValue, DigitPrefix;
    DecimalPlain(s, s, digits, overflow);
    assert (" " + s)[1..] == s && SkipSpaces(" " + s) == SkipSpaces(s);
    DecimalPlain(" " + s, s, digits, overflow);
    DecimalSigned('+', s, digits, overflow);
    DecimalSigned('-', s, digits, overflow);
  }

  lemma DecimalPlain(all: string, s: string, digits: string, overflow: string -> Size)
    requires SkipSpaces(all) == s && s != "" && IsDigit(s[0])
    requires (forall i :: 0 <= i < |digits| ==> IsDigit(digits[i])) && digits != ""
    requires DigitPrefix(s) == |digits| && s[..|digits|] == digits && DecimalValue(digits) <= 0xFFFF_FFFF
    ensures ParseUnsigned(all, overflow) == Some(DecimalValue(digits))
  {
    hide DecimalValue, DigitPrefix, SkipSpaces;
  }

  lemma DecimalSigned(sign: char, s: string, digits: string, overflow: string -> Size)
    requires (sign == '+' || sign == '-') && s != ""
    requires (forall i :: 0 <= i < |digits| ==> IsDigit(digits[i])) && digits != ""
    requires DigitPrefix(s) == |digits| && s[..|digits|] == digits && DecimalValue(digits) <= 0xFFFF_FFFF
    ensures ParseUnsigned([sign] + s, overflow) == Some(
      if sign == '-' then (0x1_0000_0000 - DecimalValue(digits)) % 0x1_0000_0000 else DecimalValue(digits))
  {
    var all := [sign] + s;
    assert SkipSpaces(all) == all && all[1..] == s;
    hide DecimalValue, DigitPrefix, SkipSpaces;
  }

  lemma {:induction false} DigitsInFront(digits: string, rest: string)
    requires (forall i :: 0 <= i < |digits| ==> IsDigit(digits[i])) && (rest == "" || !IsDigit(rest[0]))
    ensures DigitPrefix(digits + rest) == |digits|
    decreases |digits|
  {
    if digits == "" {
      assert digits + rest == rest;
    } else {
      assert (digits + rest)[1..] == digits[1..] + rest;
      DigitsInFront(digits[1..], rest);
    }
  }

  /** Only a digit, behind blanks and a sign, makes a number. */
  lemma NoDecimal(s: string, overflow: string -> Size)
    requires s == "" || (!IsSpace(s[0]) && !IsDigit(s[0]) && s[0] != '+' && s[0] != '-')
    ensures ParseUnsigned(s, overflow) == None
  {
  }
}
