/** Decimal text of fencing tokens, and the range test that the lock's scripts and
    the client apply to it without converting it to a number. */
module Decimal {

  const MAX_FENCE: nat := 9_223_372_036_854_775_807
  const MAX_FENCE_TEXT := "9223372036854775807"

  predicate IsDigit(c: char) {
    '0' <= c <= '9'
  }

  function DigitOf(c: char): nat
    requires IsDigit(c)
  {
    c as int - '0' as int
  }

  function DigitChar(d: nat): char
    requires d < 10
  {
    (d + '0' as int) as char
  }

  predicate AllDigits(s: string) {
    forall c | c in s :: IsDigit(c)
  }

  function Pow10(n: nat): nat {
    if n == 0 then 1 else 10 * Pow10(n - 1)
  }

  function Value(s: string): nat
    requires AllDigits(s)
  {
    if s == "" then 0 else DigitOf(s[0]) * Pow10(|s| - 1) + Value(s[1..])
  }

  /** The decimal text Redis and Python write for a number. */
  function Text(n: nat): string {
    if n < 10 then [DigitChar(n)] else Text(n / 10) + [DigitChar(n % 10)]
  }

  /** `^[1-9][0-9]*$` */
  predicate Canonical(s: string) {
    s != "" && s[0] != '0' && AllDigits(s)
  }

  /** String comparison, character by character. */
  predicate LexLe(a: string, b: string) {
    if a == "" then true
    else if b == "" then false
    else a[0] < b[0] || (a[0] == b[0] && LexLe(a[1..], b[1..]))
  }

  /** `valid_fence` of the scripts and `_is_canonical_fence` of the client: by
      length first, then as text. */
  predicate ValidFence(s: string) {
    Canonical(s) && (|s| < 19 || (|s| == 19 && LexLe(s, MAX_FENCE_TEXT)))
  }

  lemma ScaleBounds(d: nat, p: nat, q: nat)
    requires d <= 9 && q < p
    ensures d * p + q < 10 * p
    ensures d >= 1 ==> p <= d * p + q
  {
    assert (9 - d) * p >= 0;
    if d >= 1 { assert (d - 1) * p >= 0; }
  }

  lemma ScaleOrder(x: nat, y: nat, p: nat, u: nat, v: nat)
    requires u < p && v < p && x < y
    ensures x * p + u < y * p + v
  {
    assert (x + 1) * p <= y * p by { MulMonotone(x + 1, y, p); }
  }

  lemma MulMonotone(a: nat, b: nat, p: nat)
    requires a <= b
    ensures a * p <= b * p
  {
    if a < b { MulMonotone(a, b - 1, p); }
  }

  lemma ValueBound(s: string)
    requires AllDigits(s)
    ensures Value(s) < Pow10(|s|)
    ensures Canonical(s) ==> Pow10(|s| - 1) <= Value(s)
  {
    if s != "" {
      ValueBound(s[1..]);
      ScaleBounds(DigitOf(s[0]), Pow10(|s| - 1), Value(s[1..]));
    }
  }

  lemma PowMonotone(m: nat, n: nat)
    requires m <= n
    ensures 1 <= Pow10(m) <= Pow10(n)
  {
    if m < n { PowMonotone(m, n - 1); }
    else if m > 0 { PowMonotone(m - 1, n - 1); }
  }

  /** For digit strings of one length, text order is number order. */
  lemma {:induction false} LexIsNumeric(a: string, b: string)
    requires AllDigits(a) && AllDigits(b) && |a| == |b|
    ensures LexLe(a, b) <==> Value(a) <= Value(b)
  {
    if a != "" {
      LexIsNumeric(a[1..], b[1..]);
      ValueBound(a[1..]);
      ValueBound(b[1..]);
      var p := Pow10(|a| - 1);
      var x, y := DigitOf(a[0]), DigitOf(b[0]);
      if x < y {
        ScaleOrder(x, y, p, Value(a[1..]), Value(b[1..]));
      } else if y < x {
        ScaleOrder(y, x, p, Value(b[1..]), Value(a[1..]));
      }
    }
  }

  lemma AppendValue(s: string, c: char)
    requires AllDigits(s) && IsDigit(c)
    ensures AllDigits(s + [c]) && Value(s + [c]) == 10 * Value(s) + DigitOf(c)
  {
    if s == "" {
      assert Value([c]) == DigitOf(c) * Pow10(0) + Value("");
    } else {
      var t := s + [c];
      assert t[1..] == s[1..] + [c];
      AppendValue(s[1..], c);
      assert Pow10(|s|) == 10 * Pow10(|s| - 1);
      assert DigitOf(s[0]) * Pow10(|s|) == 10 * (DigitOf(s[0]) * Pow10(|s| - 1));
    }
  }

  lemma TextFacts(n: nat)
    ensures AllDigits(Text(n)) && Value(Text(n)) == n && Text(n) != ""
    ensures n >= 1 ==> Canonical(Text(n))
  {
    if n >= 10 {
      TextFacts(n / 10);
      AppendValue(Text(n / 10), DigitChar(n % 10));
    } else {
      AppendValue("", DigitChar(n));
      assert [] + [DigitChar(n)] == [DigitChar(n)];
    }
  }

  /** Canonical text is the text of its value. */
  lemma {:induction false} TextOfValue(s: string)
    requires Canonical(s)
    ensures Value(s) >= 1 && Text(Value(s)) == s
  {
    var init, c := s[..|s| - 1], s[|s| - 1];
    assert s == init + [c];
    AppendValue(init, c);
    if init != "" {
      TextOfValue(init);
      assert Value(s) / 10 == Value(init) && Value(s) % 10 == DigitOf(c);
    } else {
      AppendValue("", c);
      assert "" + [c] == s;
    }
  }

  lemma Extend(s: string, c: char, t: string, v: nat)
    requires AllDigits(s) && IsDigit(c) && Value(s) == v && t == s + [c]
    ensures AllDigits(t) && Value(t) == 10 * v + DigitOf(c)
  {
    AppendValue(s, c);
  }

  lemma FirstDigits()
    ensures AllDigits("92233") && Value("92233") == 92233
  {
    assert Value("") == 0 && AllDigits("");
    hide Value, AllDigits;
    Extend("", '9', "9", 0);
    Extend("9", '2', "92", 9);
    Extend("92", '2', "922", 92);
    Extend("922", '3', "9223", 922);
    Extend("9223", '3', "92233", 9223);
  }

  lemma TenDigits()
    ensures AllDigits("9223372036") && Value("9223372036") == 9223372036
  {
    FirstDigits();
    hide Value, AllDigits;
    Extend("92233", '7', "922337", 92233);
    Extend("922337", '2', "9223372", 922337);
    Extend("9223372", '0', "92233720", 9223372);
    Extend("92233720", '3', "922337203", 92233720);
    Extend("922337203", '6', "9223372036", 922337203);
  }

  lemma FifteenDigits()
    ensures AllDigits("922337203685477") && Value("922337203685477") == 922337203685477
  {
    TenDigits();
    hide Value, AllDigits;
    Extend("9223372036", '8', "92233720368", 9223372036);
    Extend("92233720368", '5', "922337203685", 92233720368);
    Extend("922337203685", '4', "9223372036854", 922337203685);
    Extend("9223372036854", '7', "92233720368547", 9223372036854);
    Extend("92233720368547", '7', "922337203685477", 92233720368547);
  }

  lemma NineteenDigits()
    ensures AllDigits("9223372036854775807") && Value("9223372036854775807") == 9223372036854775807
  {
    FifteenDigits();
    hide Value, AllDigits;
    Extend("922337203685477", '5', "9223372036854775", 922337203685477);
    Extend("9223372036854775", '8', "92233720368547758", 9223372036854775);
    Extend("92233720368547758", '0', "922337203685477580", 92233720368547758);
    Extend("922337203685477580", '7', "9223372036854775807", 922337203685477580);
  }

  lemma MaxFenceValue()
    ensures AllDigits(MAX_FENCE_TEXT) && Value(MAX_FENCE_TEXT) == MAX_FENCE && |MAX_FENCE_TEXT| == 19
  {
    NineteenDigits();
  }

  lemma Pow18BelowMax()
    ensures Pow10(18) <= MAX_FENCE < Pow10(19)
  {
    assert Pow10(3) == 1000;
    assert Pow10(6) == 1000 * Pow10(3);
    assert Pow10(9) == 1000 * Pow10(6);
    assert Pow10(12) == 1000 * Pow10(9);
    assert Pow10(15) == 1000 * Pow10(12);
    assert Pow10(18) == 1000 * Pow10(15);
  }

  /** The test without arithmetic accepts exactly the texts of 1 .. 2^63 - 1. */
  lemma ValidFenceIffInRange(s: string)
    ensures ValidFence(s) <==> Canonical(s) && 1 <= Value(s) <= MAX_FENCE
    ensures ValidFence(s) <==> exists n: nat :: 1 <= n <= MAX_FENCE && s == Text(n)
  {
    hide Value, Text, LexLe;
    if Canonical(s) {
      ValueBound(s);
      TextOfValue(s);
      MaxFenceValue();
      Pow18BelowMax();
      if |s| < 19 {
        PowMonotone(|s|, 18);
      } else if |s| == 19 {
        LexIsNumeric(s, MAX_FENCE_TEXT);
      } else {
        PowMonotone(19, |s| - 1);
      }
    }
    if n: nat :| 1 <= n <= MAX_FENCE && s == Text(n) {
      TextFacts(n);
    }
  }
}
