/** Numbers as the formatters print them: `{}`, `{:02d}` and `{:X}`. */
module Numerals {
  import opened Text

  function Digit(d: nat): char
    requires d < 16
  {
    if d < 10 then '0' + d as char else 'A' + (d - 10) as char
  }

  /** Decimal, hexadecimal or octal. */
  datatype Base = Dec | Hex | Oct {
    function Size(): nat { match this { case Dec => 10 case Hex => 16 case Oct => 8 } }
    function Quotient(n: nat): nat { match this { case Dec => n / 10 case Hex => n / 16 case Oct => n / 8 } }
    function Remainder(n: nat): (r: nat)
      ensures r < Size()
    {
      match this { case Dec => n % 10 case Hex => n % 16 case Oct => n % 8 }
    }
    function Shifted(q: nat, r: nat): nat {
      match this { case Dec => 10 * q + r case Hex => 16 * q + r case Oct => 8 * q + r }
    }
  }

  lemma Recombined(n: nat, base: Base)
    ensures base.Shifted(base.Quotient(n), base.Remainder(n)) == n
    ensures n >= base.Size() ==> base.Quotient(n) < n
  {}

  function Digits(n: nat, base: Base): string {
    if n < base.Size() then [Digit(n)]
    else
      Recombined(n, base);
      Digits(base.Quotient(n), base) + [Digit(base.Remainder(n))]
  }

  /** `{:02d}` */
  function Padded2(n: nat): string {
    if n < 10 then "0" + Digits(n, Dec) else Digits(n, Dec)
  }

  predicate IsDigit(c: char, base: Base)
  {
    || ('0' <= c <= '9' && c as nat - '0' as nat < base.Size())
    || ('A' <= c <= 'F' && c as nat - 'A' as nat + 10 < base.Size())
    || ('a' <= c <= 'f' && c as nat - 'a' as nat + 10 < base.Size())
  }

  function DigitValue(c: char, base: Base): nat
    requires IsDigit(c, base)
  {
    if c <= '9' then c as nat - '0' as nat
    else if c <= 'F' then c as nat - 'A' as nat + 10
    else c as nat - 'a' as nat + 10
  }

  /** The digits at the start of `s`. */
  function DigitRun(s: string, base: Base): (n: nat)
    ensures n <= |s|
  {
    if s != "" && IsDigit(s[0], base) then 1 + DigitRun(s[1..], base) else 0
  }

  lemma {:induction false} DigitRunIsDigits(s: string, base: Base)
    ensures AllDigits(s[..DigitRun(s, base)], base)
  {
    var n := DigitRun(s, base);
    if n > 0 {
      DigitRunIsDigits(s[1..], base);
      assert s[..n] == [s[0]] + s[1..][..n - 1];
    }
  }

  predicate AllDigits(s: string, base: Base)
  {
    forall c <- s :: IsDigit(c, base)
  }

  function Value(s: string, base: Base): nat
    requires AllDigits(s, base)
  {
    if s == "" then 0
    else base.Shifted(Value(s[..|s| - 1], base), DigitValue(s[|s| - 1], base))
  }

  lemma DigitRoundTrip(d: nat, base: Base)
    requires d < base.Size()
    ensures IsDigit(Digit(d), base) && DigitValue(Digit(d), base) == d
  {}

  lemma ValueOfAppended(s: string, c: char, base: Base)
    requires AllDigits(s, base) && IsDigit(c, base)
    ensures AllDigits(s + [c], base) && Value(s + [c], base) == base.Shifted(Value(s, base), DigitValue(c, base))
  {
    assert (s + [c])[..|s|] == s;
  }

  /** Printed numerals are digits that evaluate to the number. */
  lemma {:induction false} DigitsRoundTrip(n: nat, base: Base)
    ensures Digits(n, base) != ""
    ensures AllDigits(Digits(n, base), base) && Value(Digits(n, base), base) == n
  {
    if n < base.Size() {
      DigitRoundTrip(n, base);
      ValueOfAppended("", Digit(n), base);
      assert Digits(n, base) == "" + [Digit(n)];
    } else {
      var q, r := base.Quotient(n), base.Remainder(n);
      DigitRoundTrip(r, base);
      Recombined(n, base);
      DigitsRoundTrip(q, base);
      ValueOfAppended(Digits(q, base), Digit(r), base);
    }
  }

  /** A numeral ends where its digits end. */
  lemma {:induction false} DigitRunStops(s: string, k: string, base: Base)
    requires AllDigits(s, base)
    requires k == "" || !IsDigit(k[0], base)
    ensures DigitRun(s + k, base) == |s|
  {
    if s == "" {
      assert s + k == k;
    } else {
      assert s[0] in s;
      assert (s + k)[1..] == s[1..] + k;
      forall c | c in s[1..] ensures IsDigit(c, base) { assert c in s; }
      DigitRunStops(s[1..], k, base);
    }
  }

  lemma DigitsInjective(m: nat, n: nat, base: Base)
    requires Digits(m, base) == Digits(n, base)
    ensures m == n
  {
    DigitsRoundTrip(m, base);
    DigitsRoundTrip(n, base);
  }

  /** Two digits for every number below a hundred. */
  lemma Padded2Splits(n: nat)
    requires n < 100
    ensures Padded2(n) == [Digit(n / 10), Digit(n % 10)]
  {
    if n >= 10 {
      assert Digits(n / 10, Dec) == [Digit(n / 10)];
    }
  }

  /** Numerals have no leading zero. */
  lemma {:induction false} NoLeadingZero(n: nat, base: Base)
    requires n > 0
    ensures Digits(n, base)[0] != '0'
  {
    if n >= base.Size() { NoLeadingZero(base.Quotient(n), base); }
  }

  /** A zero in front does not change the value. */
  lemma {:induction false} ZeroInFront(s: string, base: Base)
    requires AllDigits(s, base)
    ensures AllDigits("0" + s, base) && Value("0" + s, base) == Value(s, base)
  {
    if s == "" {
      ValueOfAppended("", '0', base);
      assert "0" + s == "" + ['0'];
    } else {
      var front, last := s[..|s| - 1], s[|s| - 1];
      assert s == front + [last] && "0" + s == ("0" + front) + [last];
      assert last in s;
      forall c <- front ensures IsDigit(c, base) { assert c in s; }
      ZeroInFront(front, base);
      ValueOfAppended(front, last, base);
      ValueOfAppended("0" + front, last, base);
    }
  }

  /** A sign that number parsers accept. */
  predicate IsSign(sign: string) { sign == "" || sign == "+" || sign == "-" }

  function Negated(n: int, negative: bool): int { if negative then -n else n }

  function Signed(sign: string, n: nat): int { Negated(n, sign == "-") }

  lemma SignSplits(sign: string, u: string)
    requires IsSign(sign) && (u != "" ==> u[0] != '+' && u[0] != '-')
    ensures var t := sign + u;
      && (t != "" && (t[0] == '-' || t[0] == '+') <==> sign != "")
      && (t != "" && t[0] == '-' <==> sign == "-")
      && (if sign == "" then t == u else t[1..] == u)
  {
    var t := sign + u;
    if sign == "" {
      assert t == u;
    } else {
      assert t[0] == sign[0] && t[1..] == u;
    }
  }
}
