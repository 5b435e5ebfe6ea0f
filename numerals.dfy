/**
 * Fixed-width, zero-padded rendering of natural numbers in base 10 and
 * base 16 (what `strftime`'s `%Y`/`%m`/... and `format(x, '08x')` produce),
 * Python's `str` of an integer, and the parsers that invert them.
 */
module Numerals {
  import opened Wrappers

  function Pow(base: nat, k: nat): (r: nat)
    ensures base > 0 ==> r > 0
  {
    if k == 0 then 1 else base * Pow(base, k - 1)
  }

  /** The lower-case digit character of a digit value below 16. */
  function DigitChar(d: nat): char
    requires d < 16
  {
    if d < 10 then ('0' as int + d) as char else ('a' as int + (d - 10)) as char
  }

  /** The value of one lower-case digit character, if it is one. */
  function DigitValue(c: char): (r: Option<nat>)
    ensures r.Some? ==> r.value < 16
  {
    if '0' <= c <= '9' then Some(c as int - '0' as int)
    else if 'a' <= c <= 'f' then Some(c as int - 'a' as int + 10)
    else None
  }

  lemma DigitRoundTrip(d: nat)
    requires d < 16
    ensures DigitValue(DigitChar(d)) == Some(d)
  {
  }

  /** A character that reads as a digit reads back from its own value. */
  lemma DigitValueRoundTrip(c: char)
    requires DigitValue(c).Some?
    ensures DigitChar(DigitValue(c).value) == c
  {
  }

  /** True when `c` is a digit of the given base. */
  predicate IsDigit(c: char, base: nat)
  {
    DigitValue(c).Some? && DigitValue(c).value < base
  }

  /** The `width` least significant base-`base` digits of `v`, most significant first. */
  function Digits(v: nat, base: nat, width: nat): (s: string)
    requires 2 <= base <= 16
    ensures |s| == width
  {
    if width == 0 then "" else Digits(v / base, base, width - 1) + [DigitChar(v % base)]
  }

  /** Every character of a rendering is a digit of its base. */
  lemma {:induction false} DigitsAreDigits(v: nat, base: nat, width: nat)
    requires 2 <= base <= 16
    ensures forall i :: 0 <= i < width ==> IsDigit(Digits(v, base, width)[i], base)
  {
    if width > 0 {
      DigitsAreDigits(v / base, base, width - 1);
      DigitRoundTrip(v % base);
      var s := Digits(v, base, width);
      assert forall i :: 0 <= i < width - 1 ==> s[i] == Digits(v / base, base, width - 1)[i];
    }
  }

  /** Reads a string of base-`base` digits, most significant first; `None` if any character is not one. */
  function ParseDigits(s: string, base: nat): (r: Option<nat>)
  {
    if s == [] then Some(0)
    else
      var last := DigitValue(s[|s| - 1]);
      match ParseDigits(s[..|s| - 1], base)
      case None => None
      case Some(high) =>
        if last.Some? && last.value < base then Some(high * base + last.value) else None
  }

  /** The parser accepts exactly the strings made of digits of the base. */
  lemma {:induction false} ParseDigitsAccepts(s: string, base: nat)
    ensures ParseDigits(s, base).Some? <==> forall i :: 0 <= i < |s| ==> IsDigit(s[i], base)
  {
    if s != [] {
      var init := s[..|s| - 1];
      ParseDigitsAccepts(init, base);
      assert forall i :: 0 <= i < |init| ==> init[i] == s[i];
    }
  }

  lemma MulMono(x: nat, y: nat, d: nat)
    requires x <= y
    ensures x * d <= y * d
  {
    var k := y - x;
    assert y * d == x * d + k * d;
  }

  /** Quotient and remainder are the only pair that rebuilds `a`. */
  lemma DivModUnique(a: nat, d: nat, q: nat, r: nat)
    requires d > 0 && r < d && a == q * d + r
    ensures a / d == q && a % d == r
  {
    var q', r' := a / d, a % d;
    assert a == q' * d + r';
    if q' < q {
      MulMono(q' + 1, q, d);
      assert false;
    } else if q < q' {
      MulMono(q + 1, q', d);
      assert false;
    }
  }

  /** Two nested quotient-remainder splits compose into one. */
  lemma Recombine(v: int, b: int, p: int, q: int, r: int, k: int, m: int)
    requires v == q * b + r && q == k * p + m
    ensures v == k * (p * b) + (m * b + r)
  {
    calc {
      v;
      q * b + r;
      (k * p + m) * b + r;
      { assert (k * p + m) * b == (k * p) * b + m * b; }
      (k * p) * b + m * b + r;
      { assert (k * p) * b == k * (p * b); }
      k * (p * b) + (m * b + r);
    }
  }

  lemma RemainderBound(m: nat, r: nat, b: nat, p: nat)
    requires m < p && r < b
    ensures m * b + r < p * b
  {
    MulMono(m + 1, p, b);
    assert (m + 1) * b == m * b + b;
  }

  lemma ModOfProduct(v: nat, b: nat, p: nat)
    requires b > 0 && p > 0
    ensures (v / b % p) * b + v % b == v % (p * b)
  {
    var q, r := v / b, v % b;
    var k, m := q / p, q % p;
    Recombine(v, b, p, q, r, k, m);
    RemainderBound(m, r, b, p);
    DivModUnique(v, p * b, k, m * b + r);
  }

  /** Appending one digit multiplies the value read so far by the base and adds the digit. */
  lemma ParseSnoc(s: string, d: nat, base: nat)
    requires d < base <= 16
    ensures ParseDigits(s + [DigitChar(d)], base) ==
      match ParseDigits(s, base)
      case None => None
      case Some(h) => Some(h * base + d)
  {
    var t := s + [DigitChar(d)];
    assert t[..|t| - 1] == s;
    DigitRoundTrip(d);
  }

  lemma PowSucc(base: nat, width: nat)
    requires width > 0
    ensures Pow(base, width) == Pow(base, width - 1) * base
  {
  }

  /** Parsing a fixed-width rendering gives back the value modulo base^width. */
  lemma {:induction false} ParseDigitsRoundTrip(v: nat, base: nat, width: nat)
    requires 2 <= base <= 16
    ensures ParseDigits(Digits(v, base, width), base) == Some(v % Pow(base, width))
    decreases width
  {
    if width > 0 {
      var high, low := v / base, v % base;
      var p := Pow(base, width - 1);
      ParseDigitsRoundTrip(high, base, width - 1);
      ParseSnoc(Digits(high, base, width - 1), low, base);
      ModOfProduct(v, base, p);
      PowSucc(base, width);
    }
  }

  /** A value below base^width survives rendering and parsing unchanged. */
  lemma DigitsInjective(v: nat, base: nat, width: nat)
    requires 2 <= base <= 16 && v < Pow(base, width)
    ensures ParseDigits(Digits(v, base, width), base) == Some(v)
  {
    ParseDigitsRoundTrip(v, base, width);
    DivModUnique(v, Pow(base, width), 0, v);
  }

  /** Python's `str(n)` for a natural number: the shortest decimal rendering. */
  function NatText(n: nat): (s: string)
    ensures |s| >= 1 && '0' <= s[0] <= '9' && (n > 0 ==> s[0] != '0')
    ensures ParseDigits(s, 10) == Some(n)
  {
    DigitRoundTrip(n % 10);
    if n < 10 then [DigitChar(n)]
    else
      var prefix := NatText(n / 10);
      var s := prefix + [DigitChar(n % 10)];
      assert s[..|s| - 1] == prefix;
      s
  }

  /** Python's `str(n)` for an integer. */
  function IntText(n: int): (s: string)
    ensures |s| >= 1
    ensures n >= 0 ==> ParseDigits(s, 10) == Some(n)
    ensures n < 0 <==> s[0] == '-'
  {
    if n < 0 then "-" + NatText(-n) else NatText(n)
  }
}
