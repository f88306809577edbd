/** Decimal printing as `fmt` does it for `%d` and the zero-padded `%0wd`, reading it back, and how
    the byte order of strings relates to the order of the numbers. */
module Decimal {

  predicate IsDigit(c: char) {
    '0' <= c <= '9'
  }

  predicate AllDigits(s: string) {
    forall i :: 0 <= i < |s| ==> IsDigit(s[i])
  }

  function DigitChar(d: nat): (c: char)
    requires d < 10
    ensures IsDigit(c) && DigitValue(c) == d
  {
    ('0' as int + d) as char
  }

  function DigitValue(c: char): (d: nat)
    requires IsDigit(c)
    ensures d < 10
  {
    c as int - '0' as int
  }

  /** `%d` of a natural number. */
  function Print(n: nat): (s: string)
    ensures s != "" && AllDigits(s)
  {
    if n < 10 then [DigitChar(n)] else Print(n / 10) + [DigitChar(n % 10)]
  }

  function Zeros(k: nat): (s: string)
    ensures |s| == k && AllDigits(s)
  {
    seq(k, _ => '0')
  }

  /** `%0wd` of a natural number. */
  function Padded(n: nat, w: nat): (s: string)
    ensures s != "" && AllDigits(s)
  {
    var s := Print(n);
    if |s| < w then Zeros(w - |s|) + s else s
  }

  function Value(s: string): nat
    requires AllDigits(s)
  {
    if s == "" then 0 else Value(s[..|s| - 1]) * 10 + DigitValue(s[|s| - 1])
  }

  function Pow10(k: nat): (p: nat)
    ensures p >= 1
  {
    if k == 0 then 1 else 10 * Pow10(k - 1)
  }

  lemma {:induction false} PrintValue(n: nat)
    ensures Value(Print(n)) == n
  {
    if n >= 10 {
      PrintValue(n / 10);
      assert Print(n)[..|Print(n)| - 1] == Print(n / 10);
    }
  }

  lemma {:induction false} NoLeadingZero(n: nat)
    ensures Print(n)[0] == '0' ==> n == 0 && Print(n) == "0"
  {
    if n >= 10 {
      NoLeadingZero(n / 10);
    }
  }

  lemma {:induction false} LeadingZeros(k: nat, s: string)
    requires AllDigits(s)
    ensures Value(Zeros(k) + s) == Value(s)
    decreases |s|, k
  {
    if s != "" {
      LeadingZeros(k, s[..|s| - 1]);
      assert (Zeros(k) + s)[..k + |s| - 1] == Zeros(k) + s[..|s| - 1];
    } else if k > 0 {
      assert Zeros(k) + s == Zeros(k) && Zeros(k - 1) + s == Zeros(k - 1);
      assert Zeros(k)[..k - 1] == Zeros(k - 1);
      LeadingZeros(k - 1, s);
    }
  }

  /** A padded number reads back as itself. */
  lemma {:induction false} PaddedValue(n: nat, w: nat)
    ensures Value(Padded(n, w)) == n
  {
    var s := Print(n);
    PrintValue(n);
    if |s| < w {
      LeadingZeros(w - |s|, s);
    }
  }

  /** `w` digits are enough exactly for the numbers below 10^w. */
  lemma {:induction false} PrintLength(n: nat, w: nat)
    requires w > 0
    ensures |Print(n)| <= w <==> n < Pow10(w)
  {
    if n < 10 {
      assert Pow10(w) == 10 * Pow10(w - 1);
    } else if w == 1 {
      assert Pow10(1) == 10 * Pow10(0);
    } else {
      PrintLength(n / 10, w - 1);
    }
  }

  lemma {:induction false} PaddedLength(n: nat, w: nat)
    requires w > 0
    ensures |Padded(n, w)| >= w
    ensures n < Pow10(w) ==> |Padded(n, w)| == w
    ensures n >= Pow10(w) ==> Padded(n, w) == Print(n)
  {
    PrintLength(n, w);
  }

  lemma {:induction false} TimesGrows(m: nat, a: nat, b: nat)
    requires a < b
    ensures a * m + m <= b * m
    decreases b
  {
    assert b * m == (b - 1) * m + m;
    if a < b - 1 {
      TimesGrows(m, a, b - 1);
    }
  }

  lemma Quotient(n: nat, m: nat, q: nat)
    requires m > 0 && q * m <= n < q * m + m
    ensures n / m == q
  {
    var d := n / m;
    assert d * m <= n < d * m + m;
    if d < q {
      TimesGrows(m, d, q);
    } else if q < d {
      TimesGrows(m, q, d);
    }
  }

  lemma DivideByTen(n: nat, p: nat)
    requires p > 0
    ensures n / 10 / p == n / (10 * p)
  {
    var t := n / 10;
    var q := t / p;
    assert q * p <= t < q * p + p;
    assert q * (10 * p) == 10 * (q * p);
    Quotient(n, 10 * p, q);
  }

  /** `n` without its last `k` digits. */
  function Leading(n: nat, k: nat): nat {
    if k == 0 then n else Leading(n / 10, k - 1)
  }

  lemma {:induction false} LeadingDivides(n: nat, k: nat)
    ensures Leading(n, k) == n / Pow10(k)
    decreases k
  {
    if k > 0 {
      LeadingDivides(n / 10, k - 1);
      DivideByTen(n, Pow10(k - 1));
    }
  }

  lemma {:induction false} PrintPrefix(n: nat, k: nat)
    requires k < |Print(n)|
    ensures Print(n)[..|Print(n)| - k] == Print(Leading(n, k))
    decreases k
  {
    var s := Print(n);
    if k == 0 {
      assert s[..|s|] == s;
    } else {
      var t := Print(n / 10);
      assert s == t + [DigitChar(n % 10)];
      PrintPrefix(n / 10, k - 1);
      assert s[..|s| - k] == t[..|t| - (k - 1)];
    }
  }

  /** Byte-wise order of strings. */
  predicate Less(a: string, b: string) {
    b != "" && (a == "" || a[0] < b[0] || (a[0] == b[0] && Less(a[1..], b[1..])))
  }

  lemma {:induction false} LessAppend(a: string, b: string, x: string, y: string)
    requires |a| == |b|
    ensures Less(a + x, b + y) <==> Less(a, b) || (a == b && Less(x, y))
  {
    if a == "" {
      assert a + x == x && b + y == y;
    } else {
      assert (a + x)[1..] == a[1..] + x && (b + y)[1..] == b[1..] + y;
      LessAppend(a[1..], b[1..], x, y);
      assert a == [a[0]] + a[1..] && b == [b[0]] + b[1..];
    }
  }

  /** Among digit strings of one length, string order is numeric order and equal values mean equal
      strings. */
  lemma {:induction false} LessIsNumeric(a: string, b: string)
    requires AllDigits(a) && AllDigits(b) && |a| == |b|
    ensures Less(a, b) <==> Value(a) < Value(b)
    ensures a == b <==> Value(a) == Value(b)
  {
    if a != "" {
      var n := |a| - 1;
      LessIsNumeric(a[..n], b[..n]);
      LessAppend(a[..n], b[..n], [a[n]], [b[n]]);
      assert a == a[..n] + [a[n]] && b == b[..n] + [b[n]];
    }
  }
}
