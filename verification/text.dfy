/**
 * Character classes and number formatting as the C library sees them in the
 * "C" locale: `isdigit`, `isspace`, decimal scanning for `%d`/`atoi`, and the
 * lower-case hexadecimal of `%04hx`.
 */
module Text {

  predicate IsDigit(c: char) {
    '0' <= c <= '9'
  }

  /** `isspace`: space, tab, newline, vertical tab, form feed, carriage return. */
  predicate IsSpace(c: char) {
    c == ' ' || c == '\t' || c == '\n' || c == '\r' || c as int == 11 || c as int == 12
  }

  predicate IsLowerHex(c: char) {
    IsDigit(c) || 'a' <= c <= 'f'
  }

  predicate AllDigits(s: string) {
    forall i :: 0 <= i < |s| ==> IsDigit(s[i])
  }

  predicate StartsWith(s: string, prefix: string) {
    |prefix| <= |s| && s[..|prefix|] == prefix
  }

  predicate EndsWith(s: string, suffix: string) {
    |suffix| <= |s| && s[|s| - |suffix|..] == suffix
  }

  /** Removes one trailing newline, and only when there is one. */
  function StripNewline(raw: string): (line: string)
    ensures line == raw || raw == line + "\n"
    ensures raw == line + "\n" <==> |raw| > 0 && raw[|raw| - 1] == '\n'
  {
    if |raw| > 0 && raw[|raw| - 1] == '\n' then raw[..|raw| - 1] else raw
  }

  function DigitValue(c: char): (d: nat)
    requires IsDigit(c)
    ensures d < 10
  {
    c as int - '0' as int
  }

  function DigitChar(d: nat): (c: char)
    requires d < 10
    ensures IsDigit(c) && DigitValue(c) == d
  {
    ('0' as int + d) as char
  }

  /** Drops the leading white space, as every scanf conversion but `%c` does. */
  function SkipSpaces(s: string): (t: string)
    ensures |t| <= |s| && t == s[|s| - |t|..]
    ensures |t| == 0 || !IsSpace(t[0])
  {
    if |s| > 0 && IsSpace(s[0]) then SkipSpaces(s[1..]) else s
  }

  /** Length of the leading run of decimal digits. */
  function DigitRun(s: string): (n: nat)
    ensures n <= |s|
    ensures forall i :: 0 <= i < n ==> IsDigit(s[i])
    ensures n == |s| || !IsDigit(s[n])
  {
    if |s| > 0 && IsDigit(s[0]) then 1 + DigitRun(s[1..]) else 0
  }

  /** Length of the leading run of non-white-space characters. */
  function WordRun(s: string): (n: nat)
    ensures n <= |s|
    ensures forall i :: 0 <= i < n ==> !IsSpace(s[i])
    ensures n == |s| || IsSpace(s[n])
  {
    if |s| > 0 && !IsSpace(s[0]) then 1 + WordRun(s[1..]) else 0
  }

  /** The number a string of decimal digits denotes (most significant digit first). */
  function DigitsValue(s: string): nat
    requires AllDigits(s)
  {
    if |s| == 0 then 0 else 10 * DigitsValue(s[..|s| - 1]) + DigitValue(s[|s| - 1])
  }

  function Pow10(k: nat): (p: nat)
    ensures p >= 1
  {
    if k == 0 then 1 else 10 * Pow10(k - 1)
  }

  /** A string of `k` decimal digits denotes a number below 10^k. */
  lemma {:induction false} DigitsValueBound(s: string)
    requires AllDigits(s)
    ensures DigitsValue(s) < Pow10(|s|)
  {
    if |s| > 0 {
      DigitsValueBound(s[..|s| - 1]);
    }
  }

  /** Shortest decimal spelling of `n`, as `printf("%d")` writes it. */
  function NatToDecimal(n: nat): (s: string)
    ensures 1 <= |s| && AllDigits(s)
  {
    (if n < 10 then "" else NatToDecimal(n / 10)) + [DigitChar(n % 10)]
  }

  function IntToDecimal(i: int): string {
    if i < 0 then "-" + NatToDecimal(-i) else NatToDecimal(i)
  }

  /** Reading back a printed natural number gives the number. */
  lemma {:induction false} DecimalRoundTrip(n: nat)
    ensures DigitsValue(NatToDecimal(n)) == n
  {
    var s := NatToDecimal(n);
    var p := if n < 10 then "" else NatToDecimal(n / 10);
    assert s == p + [DigitChar(n % 10)];
    assert s[..|s| - 1] == p;
    if n >= 10 {
      DecimalRoundTrip(n / 10);
    }
  }

  function HexDigitChar(d: nat): (c: char)
    requires d < 16
    ensures IsLowerHex(c)
  {
    if d < 10 then DigitChar(d) else ('a' as int + d - 10) as char
  }

  function HexDigitValue(c: char): (d: nat)
    requires IsLowerHex(c)
    ensures d < 16
  {
    if IsDigit(c) then DigitValue(c) else c as int - 'a' as int + 10
  }

  /** The number a string of lower-case hex digits denotes. */
  function HexValue(s: string): nat
    requires forall i :: 0 <= i < |s| ==> IsLowerHex(s[i])
  {
    if |s| == 0 then 0 else 16 * HexValue(s[..|s| - 1]) + HexDigitValue(s[|s| - 1])
  }

  /** `%04hx` of a 16-bit value: always four lower-case hex digits, zero-padded. */
  function Hex4(v: int): (s: string)
    requires 0 <= v < 0x1_0000
    ensures |s| == 4
    ensures forall i :: 0 <= i < 4 ==> IsLowerHex(s[i])
  {
    [HexDigitChar(v / 0x1000), HexDigitChar(v / 0x100 % 16), HexDigitChar(v / 0x10 % 16), HexDigitChar(v % 16)]
  }

  /** Every hex digit character reads back as the digit it was printed from. */
  lemma HexDigitRoundTrip(d: nat)
    requires d < 16
    ensures HexDigitValue(HexDigitChar(d)) == d
  {
  }

  /** Parsing the four digits of `Hex4(v)` gives back `v`; hence distinct ids give distinct paths. */
  lemma Hex4RoundTrip(v: int)
    requires 0 <= v < 0x1_0000
    ensures HexValue(Hex4(v)) == v
  {
    var s := Hex4(v);
    var d0, d1, d2, d3 := v / 0x1000, v / 0x100 % 16, v / 0x10 % 16, v % 16;
    HexDigitRoundTrip(d0);
    HexDigitRoundTrip(d1);
    HexDigitRoundTrip(d2);
    HexDigitRoundTrip(d3);
    assert s[..1][..0] == "" && s[..2][..1] == s[..1] && s[..3][..2] == s[..2] && s[..4][..3] == s[..3];
    assert HexValue(s[..1]) == d0;
    assert HexValue(s[..2]) == 16 * d0 + d1;
    assert HexValue(s[..3]) == 16 * (16 * d0 + d1) + d2;
    assert s[..4] == s;
    assert HexValue(s) == 16 * (16 * (16 * d0 + d1) + d2) + d3;
    var a := v / 16;
    var b := a / 16;
    assert v == 16 * a + d3;
    assert a == 16 * b + d2;
    assert b / 16 == d0 && b % 16 == d1 by {
      assert b == v / 0x100;
    }
  }

  lemma Hex4Injective(v: int, w: int)
    requires 0 <= v < 0x1_0000 && 0 <= w < 0x1_0000
    ensures Hex4(v) == Hex4(w) <==> v == w
  {
    if Hex4(v) == Hex4(w) {
      Hex4RoundTrip(v);
      Hex4RoundTrip(w);
    }
  }

  lemma Hex4Examples()
    ensures Hex4(0x1234) == "1234" && Hex4(0x5678) == "5678" && Hex4(0) == "0000" && Hex4(0xbeef) == "beef"
  {
  }
}
