/** Decimal numerals, as printf's %d writes them and scanf's %d reads them. */
module Decimal {

  predicate IsDigit(c: char) {
    '0' <= c <= '9'
  }

  function DigitChar(d: nat): (c: char)
    requires d < 10
    ensures IsDigit(c) && DigitValue(c) == d
  {
    '0' + d as char
  }

  function DigitValue(c: char): (d: nat)
    requires IsDigit(c)
    ensures d < 10
  {
    (c - '0') as nat
  }

  ghost predicate AllDigits(s: string) {
    forall i :: 0 <= i < |s| ==> IsDigit(s[i])
  }

  function Numeral(n: nat): (s: string)
    ensures |s| > 0 && AllDigits(s)
  {
    if n < 10 then [DigitChar(n)] else Numeral(n / 10) + [DigitChar(n % 10)]
  }

  function Value(s: string): nat
    requires AllDigits(s)
  {
    if s == [] then 0 else 10 * Value(s[..|s| - 1]) + DigitValue(s[|s| - 1])
  }

  lemma {:induction false} ValueOfNumeral(n: nat)
    ensures Value(Numeral(n)) == n
  {
    if n < 10 {
      assert Numeral(n)[..0] == [];
    } else {
      ValueOfNumeral(n / 10);
      assert Numeral(n)[..|Numeral(n)| - 1] == Numeral(n / 10);
    }
  }

  function Power10(k: nat): nat {
    if k == 0 then 1 else 10 * Power10(k - 1)
  }

  lemma {:induction false} NumeralLength(n: nat, k: nat)
    requires k > 0 && n < Power10(k)
    ensures |Numeral(n)| <= k
  {
    if n >= 10 {
      NumeralLength(n / 10, k - 1);
    }
  }

  // The length of the longest prefix of digits.
  function DigitRun(s: string): (k: nat)
    ensures k <= |s| && AllDigits(s[..k]) && (k < |s| ==> !IsDigit(s[k]))
  {
    if s == [] || !IsDigit(s[0]) then 0 else
      assert s[..1 + DigitRun(s[1..])] == [s[0]] + s[1..][..DigitRun(s[1..])];
      1 + DigitRun(s[1..])
  }

  predicate IsSpace(c: char) {
    c == ' ' || c == '\t' || c == '\n' || c == '\r' || c as int == 11 || c as int == 12
  }

  datatype Scanned = Mismatch | Number(value: int, rest: string)

  // scanf's %d: blanks, an optional sign, at least one digit.
  function ScanInt(s: string): Scanned {
    if s == [] then Mismatch
    else if IsSpace(s[0]) then ScanInt(s[1..])
    else if s[0] == '-' then
      match ScanDigits(s[1..])
      case Mismatch => Mismatch
      case Number(v, rest) => Number(-v, rest)
    else if s[0] == '+' then ScanDigits(s[1..])
    else ScanDigits(s)
  }

  function ScanDigits(s: string): Scanned {
    var k := DigitRun(s);
    if k == 0 then Mismatch else Number(Value(s[..k]), s[k..])
  }

  // Reading back what was printed, up to the first character that is no digit.
  lemma ScanNumeral(n: nat, rest: string)
    requires rest == [] || !IsDigit(rest[0])
    ensures ScanInt(Numeral(n) + rest) == Number(n, rest)
  {
    var d := Numeral(n);
    var s := d + rest;
    assert s[..|d|] == d && s[|d|..] == rest;
    assert forall i :: 0 <= i < |d| ==> s[i] == d[i];
    DigitRunIs(s, |d|);
    ValueOfNumeral(n);
  }

  lemma DigitRunIs(s: string, n: nat)
    requires n <= |s| && (forall i :: 0 <= i < n ==> IsDigit(s[i])) && (n == |s| || !IsDigit(s[n]))
    ensures DigitRun(s) == n
  {
  }
}
