/** The decimal text that printf writes and atol reads back. */
module Decimal {

  predicate IsDigit(c: char) { '0' <= c <= '9' }

  predicate IsSpace(c: char) { c == ' ' || '\t' <= c <= '\r' }

  predicate AllDigits(s: string) { forall i :: 0 <= i < |s| ==> IsDigit(s[i]) }

  function Digit(d: nat): (c: char)
    requires d < 10
    ensures IsDigit(c)
  {
    ('0' as int + d) as char
  }

  function DigitValue(c: char): nat
    requires IsDigit(c)
  {
    c as int - '0' as int
  }

  /** printf("%lld", n) for a number that is not negative. */
  function Dec(n: nat): (s: string)
    ensures |s| > 0 && AllDigits(s)
  {
    if n < 10 then [Digit(n)] else Dec(n / 10) + [Digit(n % 10)]
  }

  function Blanks(n: nat): (s: string)
    ensures |s| == n && forall i :: 0 <= i < n ==> s[i] == ' '
  {
    seq(n, _ => ' ')
  }

  /** printf("%*lld", width, n): right justified, padded with blanks, never cut. */
  function Padded(n: nat, width: nat): string {
    var s := Dec(n);
    if |s| < width then Blanks(width - |s|) + s else s
  }

  /** The value of the leading digits of s, continuing from acc. */
  function Leading(s: string, acc: nat): nat {
    if s != [] && IsDigit(s[0]) then Leading(s[1..], 10 * acc + DigitValue(s[0])) else acc
  }

  function SkipSpaces(s: string): string {
    if s != [] && IsSpace(s[0]) then SkipSpaces(s[1..]) else s
  }

  /** atol: skip white space, take an optional sign, then as many digits as there are. */
  function Atol(s: string): int {
    var t := SkipSpaces(s);
    if t != [] && t[0] == '-' then 0 - Leading(t[1..], 0)
    else if t != [] && t[0] == '+' then Leading(t[1..], 0)
    else Leading(t, 0)
  }

  function Pow10(k: nat): nat { if k == 0 then 1 else 10 * Pow10(k - 1) }

  lemma {:induction false} LeadingSnoc(s: string, c: char, acc: nat)
    requires AllDigits(s) && IsDigit(c)
    ensures Leading(s + [c], acc) == 10 * Leading(s, acc) + DigitValue(c)
  {
    if s == [] {
      assert s + [c] == [c];
    } else {
      assert (s + [c])[1..] == s[1..] + [c];
      LeadingSnoc(s[1..], c, 10 * acc + DigitValue(s[0]));
    }
  }

  lemma {:induction false} LeadingDec(n: nat)
    ensures Leading(Dec(n), 0) == n
  {
    if n < 10 {
      assert Dec(n)[1..] == [];
    } else {
      LeadingDec(n / 10);
      LeadingSnoc(Dec(n / 10), Digit(n % 10), 0);
    }
  }

  lemma {:induction false} SkipBlanks(k: nat, s: string)
    ensures SkipSpaces(Blanks(k) + s) == SkipSpaces(s)
  {
    if k == 0 {
      assert Blanks(0) + s == s;
    } else {
      assert (Blanks(k) + s)[1..] == Blanks(k - 1) + s;
      SkipBlanks(k - 1, s);
    }
  }

  /** atol reads back what printf wrote, blank padding or not. */
  lemma AtolPadded(n: nat, width: nat)
    ensures Atol(Padded(n, width)) == n
    ensures Atol(Dec(n)) == n
  {
    var s := Dec(n);
    LeadingDec(n);
    assert IsDigit(s[0]) && SkipSpaces(s) == s;
    if |s| < width { SkipBlanks(width - |s|, s); }
  }

  lemma {:induction false} LeadingStops(s: string, rest: string, acc: nat)
    requires AllDigits(s) && (rest == [] || !IsDigit(rest[0]))
    ensures Leading(s + rest, acc) == Leading(s, acc)
    decreases |s|
  {
    if s == [] {
      assert s + rest == rest;
    } else {
      assert (s + rest)[1..] == s[1..] + rest;
      LeadingStops(s[1..], rest, 10 * acc + DigitValue(s[0]));
    }
  }

  /** atol takes blanks, a sign, digits, and whatever is behind them; without digits it is 0. */
  lemma AtolReads(k: nat, sign: string, n: nat, rest: string)
    requires (sign == "" || sign == "+" || sign == "-") && (rest == [] || !(48 <= rest[0] as int <= 57))
    ensures Atol(Blanks(k) + (sign + (Dec(n) + rest))) == if sign == "-" then 0 - n else n
    ensures rest == [] || !(rest[0] in " +-" || 9 <= rest[0] as int <= 13) ==> Atol(Blanks(k) + rest) == 0
  {
    hide Leading, Dec;
    var t := Dec(n) + rest;
    LeadingDec(n);
    LeadingStops(Dec(n), rest, 0);
    SkipBlanks(k, sign + t);
    assert t[0] == Dec(n)[0] && "" + t == t;
    assert sign != "" ==> (sign + t)[0] == sign[0] && (sign + t)[1..] == t;
    SkipBlanks(k, rest);
    NoDigits(rest);
  }

  lemma NoDigits(rest: string)
    requires rest == [] || !IsDigit(rest[0])
    ensures Leading(rest, 0) == 0
  {
  }

  lemma {:induction false} DecWidth(n: nat, k: nat)
    requires 0 < k
    ensures |Dec(n)| <= k <==> n < Pow10(k)
  {
    if n >= 10 && k > 1 { DecWidth(n / 10, k - 1); }
    if n < 10 { Pow10Positive(k - 1); }
    if n >= 10 && k == 1 { assert Pow10(1) == 10 * Pow10(0); }
  }

  lemma {:induction false} Pow10Positive(k: nat)
    ensures Pow10(k) >= 1
  {
    if k > 0 { Pow10Positive(k - 1); }
  }

  /** A field of the given width holds exactly the numbers below ten to that width. */
  lemma FieldWidth(n: nat, width: nat)
    requires 0 < width
    ensures |Padded(n, width)| == width <==> n < Pow10(width)
  {
    DecWidth(n, width);
  }
}
