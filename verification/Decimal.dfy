/** Decimal text of natural numbers, with and without zero padding. */
module Decimal {
  import opened Wrappers
  import LexOrder

  function DigitChar(d: nat): char
    requires d < 10
  {
    '0' + d as char
  }

  predicate IsDigit(c: char) {
    '0' <= c <= '9'
  }

  ghost predicate AllDigits(s: string) {
    forall c :: c in s ==> IsDigit(c)
  }

  function DigitValue(c: char): nat
    requires IsDigit(c)
  {
    c as int - '0' as int
  }

  /** The shortest decimal text of n. */
  function Text(n: nat): (s: string)
    ensures |s| > 0 && AllDigits(s)
  {
    if n < 10 then [DigitChar(n)] else Text(n / 10) + [DigitChar(n % 10)]
  }

  /** The number a digit string denotes; leading zeros are allowed. */
  function Value(s: string): nat
    requires AllDigits(s)
  {
    if s == [] then 0 else 10 * Value(s[..|s| - 1]) + DigitValue(s[|s| - 1])
  }

  function Parse(s: string): Option<nat> {
    if s != [] && forall c :: c in s ==> IsDigit(c) then Some(Value(s)) else None
  }

  function Pow10(k: nat): (p: nat)
    ensures p > 0
  {
    if k == 0 then 1 else 10 * Pow10(k - 1)
  }

  lemma {:induction false} ValueText(n: nat)
    ensures Value(Text(n)) == n
  {
    if n >= 10 {
      ValueText(n / 10);
      assert Text(n)[..|Text(n)| - 1] == Text(n / 10);
    }
  }

  /** Number text decides the number. */
  lemma TextInjective(m: nat, n: nat)
    requires Text(m) == Text(n)
    ensures m == n
  {
    ValueText(m);
    ValueText(n);
  }

  lemma {:induction false} TextLength(n: nat)
    ensures n < Pow10(|Text(n)|)
    ensures |Text(n)| > 1 ==> Pow10(|Text(n)| - 1) <= n
  {
    if n >= 10 {
      TextLength(n / 10);
    }
  }

  function Zeros(k: nat): (s: string)
    ensures |s| == k && AllDigits(s)
  {
    if k == 0 then [] else ['0'] + Zeros(k - 1)
  }

  /** Python's `{n:06d}` for width 6: zeros on the left up to `width`, longer text as it is. */
  function Padded(n: nat, width: nat): (s: string)
    ensures AllDigits(s) && s != []
    ensures |s| == if |Text(n)| < width then width else |Text(n)|
  {
    if |Text(n)| < width then Zeros(width - |Text(n)|) + Text(n) else Text(n)
  }

  lemma {:induction false} ValueConcat(s: string, t: string)
    requires AllDigits(s) && AllDigits(t)
    ensures AllDigits(s + t)
    ensures Value(s + t) == Value(s) * Pow10(|t|) + Value(t)
  {
    if t == [] {
      assert s + t == s;
    } else {
      var t' := t[..|t| - 1];
      ValueConcat(s, t');
      assert (s + t)[..|s + t| - 1] == s + t' && (s + t)[|s + t| - 1] == t[|t| - 1];
      var p := Pow10(|t'|);
      assert Pow10(|t|) == 10 * p;
      assert Value(s) * (10 * p) == 10 * (Value(s) * p);
    }
  }

  lemma {:induction false} ValueZeros(k: nat)
    ensures Value(Zeros(k)) == 0
  {
    if k > 0 {
      ValueZeros(k - 1);
      ValueConcat(['0'], Zeros(k - 1));
    }
  }

  lemma ValuePadded(n: nat, width: nat)
    ensures Value(Padded(n, width)) == n
  {
    ValueText(n);
    if |Text(n)| < width {
      ValueZeros(width - |Text(n)|);
      ValueConcat(Zeros(width - |Text(n)|), Text(n));
    }
  }

  lemma {:induction false} ValueBound(s: string)
    requires AllDigits(s)
    ensures Value(s) < Pow10(|s|)
  {
    if s != [] {
      var front := s[..|s| - 1];
      ValueBound(front);
      assert Value(s) == 10 * Value(front) + DigitValue(s[|s| - 1]);
      assert Pow10(|s|) == 10 * Pow10(|front|);
    }
  }

  lemma TimesMonotone(x: nat, y: nat, p: nat)
    requires x <= y
    ensures x * p <= y * p
  {
  }

  /** A leading digit outweighs everything behind it. */
  lemma LeadingDigitDecides(x: nat, y: nat, p: nat, u: nat, v: nat)
    requires u < p && v < p
    ensures x * p + u < y * p + v <==> x < y || (x == y && u < v)
    ensures x * p + u == y * p + v <==> x == y && u == v
  {
    if x < y {
      TimesMonotone(x + 1, y, p);
      assert (x + 1) * p == x * p + p;
    } else if y < x {
      TimesMonotone(y + 1, x, p);
      assert (y + 1) * p == y * p + p;
    }
  }

  lemma ValueOfHead(s: string)
    requires AllDigits(s) && s != []
    ensures Value(s) == DigitValue(s[0]) * Pow10(|s| - 1) + Value(s[1..])
    ensures Value(s[1..]) < Pow10(|s| - 1)
  {
    ValueConcat([s[0]], s[1..]);
    assert s == [s[0]] + s[1..];
    assert Value([s[0]]) == DigitValue(s[0]);
    ValueBound(s[1..]);
  }

  /** Digit strings of one length compare as text exactly as they compare as numbers. */
  lemma {:induction false} EqualWidthOrder(s: string, t: string)
    requires AllDigits(s) && AllDigits(t) && |s| == |t|
    ensures LexOrder.Less(s, t) <==> Value(s) < Value(t)
    ensures s == t <==> Value(s) == Value(t)
  {
    if s != [] {
      ValueOfHead(s);
      ValueOfHead(t);
      EqualWidthOrder(s[1..], t[1..]);
      assert s == [s[0]] + s[1..] && t == [t[0]] + t[1..];
      LeadingDigitDecides(DigitValue(s[0]), DigitValue(t[0]), Pow10(|s| - 1), Value(s[1..]), Value(t[1..]));
    }
  }

  /** The leading part of a digit string is its value divided by a power of ten. */
  lemma LeadingPart(s: string, t: string)
    requires AllDigits(s) && AllDigits(t)
    ensures AllDigits(s + t) && Value(s) == Value(s + t) / Pow10(|t|)
  {
    ValueConcat(s, t);
    ValueBound(t);
    var q, p, r := Value(s), Pow10(|t|), Value(t);
    DivOfSum(q, p, r);
  }

  lemma DivOfSum(q: nat, p: nat, r: nat)
    requires r < p
    ensures (q * p + r) / p == q
  {
    var d := (q * p + r) / p;
    LeadingDigitDecides(d, q, p, (q * p + r) % p, r);
  }

  lemma {:induction false} Pow10Monotone(j: nat, k: nat)
    ensures j <= k ==> Pow10(j) <= Pow10(k)
    decreases k
  {
    if j < k {
      Pow10Monotone(j, k - 1);
    }
  }

  lemma TextLengthMonotone(m: nat, n: nat)
    requires m <= n
    ensures |Text(m)| <= |Text(n)|
  {
    TextLength(m);
    TextLength(n);
    Pow10Monotone(|Text(n)|, |Text(m)| - 1);
  }
}
