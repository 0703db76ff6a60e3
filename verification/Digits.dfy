// Positional numerals, as the number printers of kernel/core/print.c emit them.
module Digits {
  import opened Words

  function Digit(d: int): char
    requires 0 <= d < 16
  {
    if d < 10 then '0' + d as char else 'a' + (d - 10) as char
  }

  function DigitValue(c: char): Option<nat> {
    if '0' <= c <= '9' then Some(c as int - '0' as int)
    else if 'a' <= c <= 'f' then Some(c as int - 'a' as int + 10)
    else None
  }

  lemma DigitRoundTrip(d: int)
    requires 0 <= d < 16
    ensures DigitValue(Digit(d)) == Some(d) && Digit(d) == "0123456789abcdef"[d]
  {
  }

  // The bases the printers use.
  type Base = b: nat | b == 2 || b == 10 || b == 16 witness 2

  // The usual numeral: most significant digit first, no leading zero.
  function Numeral(n: nat, base: Base): string
  {
    if n < base then [Digit(n)] else Numeral(n / base, base) + [Digit(n % base)]
  }

  // Reads a numeral back, digit by digit.
  function Parse(s: string, base: Base): Option<nat>
  {
    if s == [] then Some(0)
    else match (Parse(s[..|s| - 1], base), DigitValue(s[|s| - 1]))
      case (Some(v), Some(d)) => if d < base then Some(v * base + d) else None
      case _ => None
  }

  // Exactly p digits: the value modulo base^p.
  function FixedNumeral(n: nat, base: Base, p: nat): (s: string)
    ensures |s| == p
  {
    if p == 0 then [] else FixedNumeral(n / base, base, p - 1) + [Digit(n % base)]
  }

  function Pow(b: Base, e: nat): (r: nat)
    ensures r >= 1
  {
    if e == 0 then 1 else b * Pow(b, e - 1)
  }

  lemma ParseSnoc(s: string, base: Base, v: nat, d: int)
    requires 0 <= d < base && Parse(s, base) == Some(v)
    ensures Parse(s + [Digit(d)], base) == Some(v * base + d)
  {
    DigitRoundTrip(d);
    assert (s + [Digit(d)])[..|s|] == s;
  }

  // n split into its last digit and the rest.
  lemma Divide(n: nat, base: Base) returns (q: nat, d: nat)
    ensures q == n / base && d == n % base && d < base
    ensures n == q * base + d && (n >= base ==> 1 <= q < n)
  {
    q, d := n / base, n % base;
    if base == 2 { assert n == q * 2 + d; }
    else if base == 10 { assert n == q * 10 + d; }
    else { assert n == q * 16 + d; }
  }

  lemma {:induction false} ParseNumeral(n: nat, base: Base)
    ensures Parse(Numeral(n, base), base) == Some(n)
  {
    if n < base {
      ParseSnoc([], base, 0, n);
      assert [] + [Digit(n)] == [Digit(n)];
    } else {
      var q, d := Divide(n, base);
      ParseNumeral(q, base);
      ParseSnoc(Numeral(q, base), base, q, d);
      assert Numeral(n, base) == Numeral(q, base) + [Digit(d)];
    }
  }

  lemma {:induction false} NoLeadingZero(n: nat, base: Base)
    ensures |Numeral(n, base)| >= 1
    ensures Numeral(n, base)[0] == '0' <==> n == 0
  {
    if n < base {
      DigitRoundTrip(n);
      assert DigitValue('0') == Some(0);
    } else {
      var q, d := Divide(n, base);
      NoLeadingZero(q, base);
    }
  }

  lemma MulCancelLess(b: int, x: int, y: int)
    requires b > 0 && b * x < b * y
    ensures x < y
  {
    assert b * (y - x) > 0;
  }

  lemma DigitIsUnique(c: char)
    requires DigitValue(c).Some?
    ensures DigitValue(c).value < 16 && c == Digit(DigitValue(c).value)
  {
  }

  lemma {:induction false} ParsePositive(s: string, base: Base)
    requires |s| >= 1 && s[0] != '0' && Parse(s, base).Some?
    ensures Parse(s, base).value >= 1
  {
    var v := Parse(s[..|s| - 1], base).value;
    if |s| == 1 {
      DigitIsUnique(s[0]);
    } else {
      ParsePositive(s[..|s| - 1], base);
      assert v * base >= 1 by { if base == 2 {} else if base == 10 {} else {} }
    }
  }

  // Numeral is the only representation without leading zeros.
  lemma {:induction false} NumeralIsUnique(s: string, base: Base)
    requires |s| >= 1 && (|s| > 1 ==> s[0] != '0') && Parse(s, base).Some?
    ensures s == Numeral(Parse(s, base).value, base)
  {
    var r := s[..|s| - 1];
    var v, d := Parse(r, base).value, DigitValue(s[|s| - 1]).value;
    DigitIsUnique(s[|s| - 1]);
    assert s == r + [Digit(d)];
    if |s| > 1 {
      ParsePositive(r, base);
      NumeralIsUnique(r, base);
      var n := v * base + d;
      DivIs(n, base, v, d);
      assert n >= base by { if base == 2 {} else if base == 10 {} else {} }
      assert Numeral(n, base) == Numeral(v, base) + [Digit(d)];
    }
  }

  // A value below base^k has at most k digits.
  lemma {:induction false} NumeralLength(n: nat, base: Base, k: nat)
    requires k >= 1 && n < Pow(base, k)
    ensures |Numeral(n, base)| <= k
  {
    if n >= base {
      assert k > 1;
      var q, d := Divide(n, base);
      MulCancelLess(base, q, Pow(base, k - 1));
      NumeralLength(q, base, k - 1);
    }
  }

  // The value of the last p digits of n.
  function LowDigits(n: nat, base: Base, p: nat): nat {
    if p == 0 then 0 else LowDigits(n / base, base, p - 1) * base + n % base
  }

  lemma {:induction false} LowDigitsIsMod(n: nat, base: Base, p: nat)
    ensures LowDigits(n, base, p) == n % Pow(base, p)
  {
    if p > 0 {
      var m := Pow(base, p - 1);
      LowDigitsIsMod(n / base, base, p - 1);
      ModSplit(n, base, m);
    }
  }

  lemma {:induction false} ParseFixedDigits(n: nat, base: Base, p: nat)
    ensures Parse(FixedNumeral(n, base, p), base) == Some(LowDigits(n, base, p))
    decreases p
  {
    hide Digit, DigitValue, Parse, FixedNumeral, LowDigits;
    if p == 0 {
      NoDigits(n, base);
    } else {
      var q, s, v, d := FixedSplits(n, base, p);
      ParseFixedDigits(q, base, p - 1);
      ParseSnoc(s, base, v, d);
    }
  }

  lemma NoDigits(n: nat, base: Base)
    ensures Parse(FixedNumeral(n, base, 0), base) == Some(LowDigits(n, base, 0))
  {
  }

  lemma FixedSplits(n: nat, base: Base, p: nat) returns (q: nat, s: string, v: nat, d: nat)
    requires p > 0
    ensures s == FixedNumeral(q, base, p - 1) && v == LowDigits(q, base, p - 1) && d < base
    ensures FixedNumeral(n, base, p) == s + [Digit(d)] && LowDigits(n, base, p) == v * base + d
  {
    q, d := Divide(n, base);
    s, v := FixedNumeral(q, base, p - 1), LowDigits(q, base, p - 1);
  }

  // The fixed form denotes the value modulo base^p.
  lemma ParseFixed(n: nat, base: Base, p: nat)
    ensures Parse(FixedNumeral(n, base, p), base) == Some(n % Pow(base, p))
  {
    ParseFixedDigits(n, base, p);
    LowDigitsIsMod(n, base, p);
  }

  lemma ModSplit(n: nat, base: Base, m: nat)
    requires m >= 1
    ensures base * m > 0 && n % (base * m) == n / base % m * base + n % base
  {
    var a, r := Divide(n, base);
    var t, u := Euclid(a, m);
    Combine(n, a, r, t, u, m, base);
  }

  lemma Euclid(a: nat, m: nat) returns (t: nat, u: nat)
    requires m >= 1
    ensures t == a / m && u == a % m && a == t * m + u && u < m
  {
    t, u := a / m, a % m;
  }

  lemma Combine(n: nat, a: nat, r: nat, t: nat, u: nat, m: nat, base: Base)
    requires n == a * base + r && r < base && a == t * m + u && u < m
    ensures base * m > 0 && n % (base * m) == u * base + r
  {
    var bm, low := base * m, u * base + r;
    BelowProduct(u, m, r, base);
    Regroup(t, m, u, base);
    DivIs(n, bm, t, low);
  }

  lemma BelowProduct(u: nat, m: nat, r: nat, base: Base)
    requires u < m && r < base
    ensures u * base + r < base * m
  {
    if base == 2 {} else if base == 10 {} else {}
  }

  lemma Regroup(t: nat, m: nat, u: nat, base: Base)
    ensures (t * m + u) * base == t * (base * m) + u * base
  {
    var x := t * m;
    if base == 2 { assert t * (2 * m) == 2 * x; }
    else if base == 10 { assert t * (10 * m) == 10 * x; }
    else { assert t * (16 * m) == 16 * x; }
  }
}
