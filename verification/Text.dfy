/** Decimal text and the byte order in which SQLite compares TEXT values. */
module Text {

  predicate IsDigit(c: char) { '0' <= c <= '9' }

  predicate AllDigits(s: string) { forall i :: 0 <= i < |s| ==> IsDigit(s[i]) }

  function DigitValue(c: char): (d: nat)
    requires IsDigit(c)
    ensures d < 10
  {
    c as int - '0' as int
  }

  function Digit(d: nat): (c: char)
    requires d < 10
    ensures IsDigit(c) && DigitValue(c) == d
  {
    ('0' as int + d) as char
  }

  function Pow10(w: nat): (p: nat)
    ensures p >= 1
  {
    if w == 0 then 1 else 10 * Pow10(w - 1)
  }

  /** The number that a string of decimal digits denotes. */
  function Value(s: string): nat
    requires AllDigits(s)
  {
    if s == "" then 0 else 10 * Value(s[..|s| - 1]) + DigitValue(s[|s| - 1])
  }

  /** The verb %d of a Go format string, on a natural number. */
  function Decimal(n: nat): (s: string)
    ensures |s| > 0 && AllDigits(s)
  {
    if n < 10 then [Digit(n)] else Decimal(n / 10) + [Digit(n % 10)]
  }

  /** The low w decimal digits of n, zero padded. */
  function Fixed(n: nat, w: nat): (s: string)
    ensures |s| == w && AllDigits(s)
  {
    if w == 0 then "" else Fixed(n / 10, w - 1) + [Digit(n % 10)]
  }

  function Zeros(k: nat): (s: string)
    ensures |s| == k && AllDigits(s) && forall i :: 0 <= i < k ==> s[i] == '0'
  {
    seq(k, _ => '0')
  }

  /** The verb %0wd: at least w digits, zero padded. */
  function Padded(n: nat, w: nat): (s: string)
    ensures AllDigits(s) && |s| >= w && s != ""
  {
    var d := Decimal(n);
    if |d| >= w then d else Zeros(w - |d|) + d
  }

  lemma {:induction false} DecimalValue(n: nat)
    ensures Value(Decimal(n)) == n
  {
    if n >= 10 {
      DecimalValue(n / 10);
      assert Decimal(n)[..|Decimal(n)| - 1] == Decimal(n / 10);
    } else {
      assert Decimal(n)[..0] == "";
    }
  }

  lemma {:induction false} LeadingZeros(k: nat, s: string)
    requires AllDigits(s)
    ensures Value(Zeros(k) + s) == Value(s)
  {
    var t := Zeros(k) + s;
    if s == "" {
      if k > 0 {
        assert t[..|t| - 1] == Zeros(k - 1) + "";
        LeadingZeros(k - 1, "");
      }
    } else {
      assert t[..|t| - 1] == Zeros(k) + s[..|s| - 1];
      LeadingZeros(k, s[..|s| - 1]);
    }
  }

  lemma PaddedValue(n: nat, w: nat)
    ensures Value(Padded(n, w)) == n
  {
    DecimalValue(n);
    if |Decimal(n)| < w {
      LeadingZeros(w - |Decimal(n)|, Decimal(n));
    }
  }

  lemma {:induction false} FixedZero(w: nat)
    ensures Fixed(0, w) == Zeros(w)
  {
    if w > 0 {
      FixedZero(w - 1);
      assert Zeros(w) == Zeros(w - 1) + ['0'];
    }
  }

  /** Numbers that fit are padded to exactly the width. */
  lemma {:induction false} PaddedFits(n: nat, w: nat)
    requires w > 0 && n < Pow10(w)
    ensures |Decimal(n)| <= w && Padded(n, w) == Fixed(n, w)
  {
    var last := [Digit(n % 10)];
    if n < 10 {
      FixedZero(w - 1);
      assert Fixed(n, w) == Zeros(w - 1) + last;
      if w == 1 { assert Zeros(0) + last == last; }
    } else {
      PaddedFits(n / 10, w - 1);
      var d := Decimal(n / 10);
      if |d| < w - 1 { assert Zeros(w - 1 - |d|) + d + last == Zeros(w - 1 - |d|) + (d + last); }
    }
  }

  /** Numbers that do not fit take more digits. */
  lemma {:induction false} PaddedExceeds(n: nat, w: nat)
    requires Pow10(w) <= n
    ensures |Decimal(n)| > w && Padded(n, w) == Decimal(n)
  {
    if w > 0 { PaddedExceeds(n / 10, w - 1); }
  }

  lemma {:induction false} ValueBound(s: string)
    requires AllDigits(s)
    ensures Value(s) < Pow10(|s|)
  {
    if s != "" { ValueBound(s[..|s| - 1]); }
  }

  lemma ValueSnoc(s: string, c: char)
    requires AllDigits(s) && IsDigit(c)
    ensures Value(s + [c]) == 10 * Value(s) + DigitValue(c)
  {
    assert (s + [c])[..|s|] == s;
  }

  lemma {:induction false} FixedValue(n: nat, w: nat)
    requires n < Pow10(w)
    ensures Value(Fixed(n, w)) == n
  {
    if w > 0 {
      FixedValue(n / 10, w - 1);
      ValueSnoc(Fixed(n / 10, w - 1), Digit(n % 10));
    }
  }

  // ----- separators -----

  lemma NotBeyondSeparator(a: string, b: string, sep: char, x: string, y: string)
    requires a + [sep] + x == b + [sep] + y
    requires sep !in x
    ensures |b| <= |a|
  {
    var s := a + [sep] + x;
    assert s[|b|] == (b + [sep] + y)[|b|] == sep;
    assert forall i :: |a| < i < |s| ==> s[i] == x[i - |a| - 1];
  }

  /** A separator that does not occur to its right marks where a text was joined. */
  lemma SplitAtLast(a: string, b: string, sep: char, x: string, y: string)
    requires a + [sep] + x == b + [sep] + y
    requires sep !in x && sep !in y
    ensures a == b && x == y
  {
    NotBeyondSeparator(a, b, sep, x, y);
    NotBeyondSeparator(b, a, sep, y, x);
    assert (a + [sep] + x)[..|a|] == a && (b + [sep] + y)[..|a|] == b;
    assert (a + [sep] + x)[|a| + 1..] == x && (b + [sep] + y)[|a| + 1..] == y;
  }

  // ----- order -----

  /** s sorts before t in byte order (the BINARY collation). */
  predicate Less(s: string, t: string)
  {
    t != "" && (s == "" || s[0] < t[0] || (s[0] == t[0] && Less(s[1..], t[1..])))
  }

  lemma {:induction false} LessIrreflexive(s: string)
    ensures !Less(s, s)
  {
    if s != "" { LessIrreflexive(s[1..]); }
  }

  lemma {:induction false} LessTotal(s: string, t: string)
    ensures s == t || Less(s, t) || Less(t, s)
  {
    if s != "" && t != "" && s[0] == t[0] {
      LessTotal(s[1..], t[1..]);
      assert s == [s[0]] + s[1..] && t == [t[0]] + t[1..];
    }
  }

  lemma {:induction false} LessTransitive(s: string, t: string, u: string)
    requires Less(s, t) && Less(t, u)
    ensures Less(s, u)
  {
    if s != "" && s[0] == t[0] && t[0] == u[0] {
      LessTransitive(s[1..], t[1..], u[1..]);
    }
  }

  lemma LessAsymmetric(s: string, t: string)
    requires Less(s, t)
    ensures !Less(t, s)
  {
    if Less(t, s) {
      LessTransitive(s, t, s);
      LessIrreflexive(s);
    }
  }

  lemma {:induction false} LessCommonPrefix(p: string, s: string, t: string)
    ensures Less(p + s, p + t) == Less(s, t)
  {
    if p == "" {
      assert p + s == s && p + t == t;
    } else {
      LessCommonPrefix(p[1..], s, t);
      assert (p + s)[1..] == p[1..] + s && (p + t)[1..] == p[1..] + t;
    }
  }

  /** Different prefixes of one length decide the order. */
  lemma {:induction false} LessByPrefix(p: string, q: string, s: string, t: string)
    requires |p| == |q| && p != q
    ensures Less(p + s, q + t) == Less(p, q)
  {
    assert (p + s)[1..] == p[1..] + s && (q + t)[1..] == q[1..] + t;
    if p[0] == q[0] {
      assert p == [p[0]] + p[1..] && q == [q[0]] + q[1..];
      LessByPrefix(p[1..], q[1..], s, t);
    }
  }

  lemma {:induction false} FixedInjective(n: nat, m: nat, w: nat)
    requires n < Pow10(w) && m < Pow10(w)
    ensures Fixed(n, w) == Fixed(m, w) <==> n == m
  {
    FixedValue(n, w);
    FixedValue(m, w);
  }

  /** Zero-padded numbers sort as numbers. */
  lemma {:induction false} FixedOrder(n: nat, m: nat, w: nat)
    requires n < Pow10(w) && m < Pow10(w)
    ensures Less(Fixed(n, w), Fixed(m, w)) <==> n < m
  {
    if w > 0 {
      var p, q := Fixed(n / 10, w - 1), Fixed(m / 10, w - 1);
      FixedInjective(n / 10, m / 10, w - 1);
      if n / 10 == m / 10 {
        LessCommonPrefix(p, [Digit(n % 10)], [Digit(m % 10)]);
      } else {
        FixedOrder(n / 10, m / 10, w - 1);
        LessByPrefix(p, q, [Digit(n % 10)], [Digit(m % 10)]);
      }
    }
  }

  /** One zero-padded field followed by anything: the field is compared first. */
  lemma FieldOrder(n: nat, m: nat, w: nat, s: string, t: string)
    requires n < Pow10(w) && m < Pow10(w)
    ensures Less(Fixed(n, w) + s, Fixed(m, w) + t) <==> n < m || (n == m && Less(s, t))
  {
    FixedInjective(n, m, w);
    if n == m {
      LessCommonPrefix(Fixed(n, w), s, t);
    } else {
      FixedOrder(n, m, w);
      LessByPrefix(Fixed(n, w), Fixed(m, w), s, t);
    }
  }
}
