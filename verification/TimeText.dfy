/** Instants as the RFC 3339 text that the database stores, compares and sorts. */
module TimeText {
  import opened Results
  import opened Text
  import opened Calendar

  predicate InFourDigits(sec: int) { 0 <= sec < 86400 * FOUR_DIGIT_DAYS }

  type Nanos = n: nat | n < 1_000_000_000

  /** A UTC instant of any year: whole seconds since 0000-01-01T00:00:00Z, and nanoseconds within the second. */
  datatype Instant = Instant(sec: int, ns: Nanos) {
    /** Years 0 to 9999, which the four-digit year can show. */
    predicate Valid() { InFourDigits(sec) }

    predicate Before(other: Instant) { sec < other.sec || (sec == other.sec && ns < other.ns) }
  }

  // ----- formatTime -----

  function Trim(s: string): (t: string)
    ensures |t| <= |s| && t == s[..|t|]
  {
    if s != "" && s[|s| - 1] == '0' then Trim(s[..|s| - 1]) else s
  }

  /** The significant fraction digits, without trailing zeros. */
  function Fraction(ns: nat): (f: string)
    ensures AllDigits(f) && |f| <= 9
  {
    Trim(Fixed(ns, 9))
  }

  function FractionText(ns: nat): string {
    var f := Fraction(ns);
    (if f == "" then "" else "." + f) + "Z"
  }

  /** One field of a layout: a zero-padded number and the literal text after it. */
  datatype Field = Field(width: nat, after: string)

  /** The layout 2006-01-02T15:04:05. */
  const LAYOUT: seq<Field> :=
    [Field(4, "-"), Field(2, "-"), Field(2, "T"), Field(2, ":"), Field(2, ":"), Field(2, "")]

  predicate Fits(layout: seq<Field>, v: seq<nat>) {
    |layout| == |v| && forall i :: 0 <= i < |v| ==> v[i] < Pow10(layout[i].width)
  }

  function Render(layout: seq<Field>, v: seq<nat>): string
    requires |layout| == |v|
  {
    if layout == [] then ""
    else Fixed(v[0], layout[0].width) + (layout[0].after + Render(layout[1..], v[1..]))
  }

  /** Year, month, day, hour, minute and second of an instant from year 0 on. */
  function Fields(sec: nat): (v: seq<nat>)
    ensures |v| == 6
  {
    var d := DateOf(sec / 86400);
    var c := sec % 86400;
    [d.year, d.month, d.day, c / 3600, c / 60 % 60, c % 60]
  }

  /** At least four digits, and a sign before year 0. */
  function YearText(y: int): (s: string)
    ensures s != ""
  {
    if y < 0 then "-" + Padded(-y, 4) else Padded(y, 4)
  }

  /** Month, day, hour, minute and second. */
  function Clock(sec: int): (v: seq<nat>)
    ensures |v| == 5
  {
    var d := CivilOf(sec / 86400);
    var c := sec % 86400;
    [d.month, d.day, c / 3600, c / 60 % 60, c % 60]
  }

  function DateText(sec: int): string {
    YearText(CivilOf(sec / 86400).year) + ("-" + Render(LAYOUT[1..], Clock(sec)))
  }

  function FormatTime(t: Instant): string {
    DateText(t.sec) + FractionText(t.ns)
  }

  // ----- parseTime -----

  function Scan(layout: seq<Field>, s: string): (r: Option<(seq<nat>, string)>)
    ensures r.Some? ==> |r.value.0| == |layout|
  {
    if layout == [] then Some(([], s))
    else
      var w, after := layout[0].width, layout[0].after;
      if |s| < w + |after| || !AllDigits(s[..w]) || !(after <= s[w..]) then None
      else
        var (v, rest) :- Scan(layout[1..], s[w..][|after|..]);
        Some(([Value(s[..w])] + v, rest))
  }

  function DigitRun(s: string): (k: nat)
    ensures k <= |s| && AllDigits(s[..k]) && (k < |s| ==> !IsDigit(s[k]))
  {
    if s != "" && IsDigit(s[0]) then
      var k := DigitRun(s[1..]);
      assert s[..k + 1] == [s[0]] + s[1..][..k];
      k + 1
    else 0
  }

  lemma Powers()
    ensures Pow10(2) == 100 && Pow10(4) == 10000 && Pow10(9) == 1_000_000_000
  {
    assert Pow10(2) == 100;
    assert Pow10(4) == 10000;
    assert Pow10(6) == 1000000;
    assert Pow10(8) == 100000000;
  }

  /** Nine fraction digits, padded or cut. */
  function Nanoseconds(digits: string): Nanos
    requires AllDigits(digits)
  {
    Powers();
    ValueBound(if |digits| >= 9 then digits[..9] else digits + Zeros(9 - |digits|));
    if |digits| >= 9 then Value(digits[..9]) else Value(digits + Zeros(9 - |digits|))
  }

  function TakeFraction(s: string): (Nanos, string) {
    if |s| >= 2 && s[0] == '.' && IsDigit(s[1]) then
      var k := DigitRun(s[1..]);
      (Nanoseconds(s[1..][..k]), s[1..][k..])
    else (0, s)
  }

  /** The instant that scanned fields denote, if they are in range. */
  function Denote(v: seq<nat>, ns: Nanos): Option<Instant>
    requires |v| == 6
  {
    var d := Date(v[0], v[1], v[2]);
    if d.Valid() && v[3] < 24 && v[4] < 60 && v[5] < 60 then
      Some(Instant(86400 * d.Number() + 3600 * v[3] + 60 * v[4] + v[5], ns))
    else None
  }

  function ParseTime(s: string): Option<Instant> {
    var (v, s1) :- Scan(LAYOUT, s);
    var (ns, s2) := TakeFraction(s1);
    if s2 == "Z" then Denote(v, ns) else None
  }

  // ----- parseTime inverts formatTime -----

  lemma {:induction false} TrimPads(s: string)
    ensures s == Trim(s) + Zeros(|s| - |Trim(s)|)
  {
    if s != "" && s[|s| - 1] == '0' {
      var front := s[..|s| - 1];
      TrimPads(front);
      assert s == front + ['0'];
    }
  }

  lemma RenderFirst(layout: seq<Field>, v: seq<nat>, s: string)
    requires |layout| == |v| > 0
    ensures Render(layout, v) + s
         == Fixed(v[0], layout[0].width) + (layout[0].after + (Render(layout[1..], v[1..]) + s))
  {
  }

  lemma CutJoined(a: string, b: string, c: string)
    ensures var s := a + (b + c); s[..|a|] == a && s[|a|..] == b + c && s[|a|..][|b|..] == c && b <= s[|a|..]
  {
  }

  lemma ScanFirst(layout: seq<Field>, n: nat, tail: string)
    requires layout != [] && n < Pow10(layout[0].width)
    ensures var r := Scan(layout[1..], tail);
      Scan(layout, Fixed(n, layout[0].width) + (layout[0].after + tail)) ==
        if r.None? then None else Some(([n] + r.value.0, r.value.1))
  {
    CutJoined(Fixed(n, layout[0].width), layout[0].after, tail);
    FixedValue(n, layout[0].width);
  }

  lemma {:induction false} ScanInvertsRender(layout: seq<Field>, v: seq<nat>, rest: string)
    requires Fits(layout, v)
    ensures Scan(layout, Render(layout, v) + rest) == Some((v, rest))
  {
    if layout == [] {
      assert Render(layout, v) + rest == rest;
    } else {
      RenderFirst(layout, v, rest);
      ScanFirst(layout, v[0], Render(layout[1..], v[1..]) + rest);
      ScanInvertsRender(layout[1..], v[1..], rest);
      assert v == [v[0]] + v[1..];
    }
  }

  lemma {:induction false} DigitRunStops(f: string, rest: string)
    requires AllDigits(f) && (rest == "" || !IsDigit(rest[0]))
    ensures DigitRun(f + rest) == |f|
  {
    if f == "" {
      assert f + rest == rest;
    } else {
      assert (f + rest)[1..] == f[1..] + rest;
      DigitRunStops(f[1..], rest);
    }
  }

  lemma TrimKeepsValue(s: string)
    requires AllDigits(s)
    ensures AllDigits(Trim(s)) && Value(Trim(s) + Zeros(|s| - |Trim(s)|)) == Value(s)
  {
    TrimPads(s);
  }

  lemma TakesDigits(f: string)
    requires f != "" && AllDigits(f)
    ensures TakeFraction("." + f + "Z") == (Nanoseconds(f), "Z")
  {
    var s := "." + f + "Z";
    assert s[1..] == f + "Z";
    DigitRunStops(f, "Z");
    assert (f + "Z")[..|f|] == f && (f + "Z")[|f|..] == "Z";
    assert s[1] == f[0];
  }

  lemma NanosecondsOf(f: string)
    requires AllDigits(f) && |f| <= 9
    ensures Nanoseconds(f) == Value(f + Zeros(9 - |f|))
  {
    if |f| == 9 { assert f[..9] == f && f + Zeros(0) == f; }
  }

  lemma ParsesFraction(ns: nat)
    requires ns < 1_000_000_000
    ensures TakeFraction(FractionText(ns)) == (ns, "Z")
  {
    var f := Fraction(ns);
    Powers();
    FixedValue(ns, 9);
    TrimKeepsValue(Fixed(ns, 9));
    if f == "" {
      assert "" + Zeros(9) == Zeros(9) + "";
      LeadingZeros(9, "");
      assert FractionText(ns) == "Z";
    } else {
      TakesDigits(f);
      NanosecondsOf(f);
    }
  }

  lemma FieldsFit(sec: nat)
    requires InFourDigits(sec)
    ensures Fits(LAYOUT, Fields(sec))
  {
    FourDigitYears(sec / 86400);
    Powers();
  }

  /** Up to year 9999 the date is one rendered layout of fixed widths. */
  lemma DateTextIsRender(sec: int)
    requires InFourDigits(sec)
    ensures DateText(sec) == Render(LAYOUT, Fields(sec))
  {
    FourDigitYears(sec / 86400);
    Powers();
    PaddedFits(DateOf(sec / 86400).year, 4);
    assert Fields(sec)[1..] == Clock(sec);
  }

  lemma ClockParts(c: nat)
    ensures c == 3600 * (c / 3600) + 60 * (c / 60 % 60) + c % 60
  {
    assert c / 60 / 60 == c / 3600;
  }

  lemma DenoteInvertsFields(t: Instant)
    requires t.Valid()
    ensures Denote(Fields(t.sec), t.ns) == Some(t)
  {
    ClockParts(t.sec % 86400);
  }

  /** Reading a stored time gives back the instant that was written. */
  lemma ParseInvertsFormat(t: Instant)
    requires t.Valid()
    ensures ParseTime(FormatTime(t)) == Some(t)
  {
    FieldsFit(t.sec);
    DateTextIsRender(t.sec);
    ScanInvertsRender(LAYOUT, Fields(t.sec), FractionText(t.ns));
    ParsesFraction(t.ns);
    DenoteInvertsFields(t);
  }

  // ----- years that the parser rejects -----

  lemma ScanNeedsFourDigits(s: string)
    requires |s| >= 5 && (!IsDigit(s[0]) || IsDigit(s[4]))
    ensures Scan(LAYOUT, s) == None
  {
    assert s[..4][0] == s[0] && s[4..][0] == s[4];
  }

  lemma YearTextOutside(y: int)
    requires !(0 <= y < 10000)
    ensures var s := YearText(y); |s| >= 5 && (!IsDigit(s[0]) || IsDigit(s[4]))
  {
    Powers();
    if y >= 10000 { PaddedExceeds(y, 4); }
  }

  /** A stored time can be read if and only if it lies in the years 0 to 9999. */
  lemma ReadableTimes(t: Instant)
    ensures ParseTime(FormatTime(t)).Some? <==> t.Valid()
  {
    if t.Valid() {
      ParseInvertsFormat(t);
    } else {
      var y := CivilOf(t.sec / 86400).year;
      CivilYears(t.sec / 86400);
      YearTextOutside(y);
      var s := FormatTime(t);
      assert s[0] == YearText(y)[0] && s[4] == YearText(y)[4];
      ScanNeedsFourDigits(s);
    }
  }

  lemma RenderFrom(k: nat, n: nat, v: seq<nat>)
    requires k < 6 && |v| == 5 - k
    ensures Render(LAYOUT[k..], [n] + v) == Fixed(n, LAYOUT[k].width) + (LAYOUT[k].after + Render(LAYOUT[k + 1..], v))
  {
    assert LAYOUT[k..][0] == LAYOUT[k] && LAYOUT[k..][1..] == LAYOUT[k + 1..];
    assert ([n] + v)[1..] == v;
  }

  lemma FixedSnoc(n: nat, w: nat)
    ensures Fixed(n, w + 1) == Fixed(n / 10, w) + [Digit(n % 10)]
  {
  }

  lemma SplitTens(n: nat, tens: nat, ones: nat)
    requires n == 10 * tens + ones && ones < 10
    ensures n / 10 == tens && n % 10 == ones
  {
  }

  lemma OneDigit(n: nat, w: nat)
    requires n < 10 && w == 1
    ensures Fixed(n, w) == [Digit(n)]
  {
    FixedSnoc(n, w - 1);
    SplitTens(n, 0, n);
  }

  lemma TwoDigits(n: nat, w: nat, tens: nat, ones: nat)
    requires n == 10 * tens + ones && tens < 10 && ones < 10 && w == 2
    ensures Fixed(n, w) == [Digit(tens), Digit(ones)]
  {
    SplitTens(n, tens, ones);
    FixedSnoc(n, w - 1);
    OneDigit(tens, w - 1);
  }

  lemma ClockText(m: nat, d: nat, h: nat, mi: nat, s: nat)
    ensures Render(LAYOUT[1..], [m, d, h, mi, s]) ==
      Fixed(m, 2) + ("-" + (Fixed(d, 2) + ("T" + (Fixed(h, 2) + (":" + (Fixed(mi, 2) + (":" + (Fixed(s, 2) + ""))))))))
  {
    RenderFrom(5, s, []);
    RenderFrom(4, mi, [s]);
    RenderFrom(3, h, [mi, s]);
    RenderFrom(2, d, [h, mi, s]);
    RenderFrom(1, m, [d, h, mi, s]);
    assert [mi] + [s] == [mi, s] && [h] + [mi, s] == [h, mi, s] && [d] + [h, mi, s] == [d, h, mi, s];
    assert [m] + [d, h, mi, s] == [m, d, h, mi, s] && [s] + [] == [s];
  }

  lemma NewYearText()
    ensures Render(LAYOUT[1..], [1, 1, 0, 59, 59]) == "01-01T00:59:59"
  {
    ClockText(1, 1, 0, 59, 59);
    TwoDigits(0, 2, 0, 0);
    TwoDigits(1, 2, 0, 1);
    TwoDigits(59, 2, 5, 9);
  }

  lemma FirstDay(z: nat)
    ensures CivilOf(DaysBeforeYear(z)) == CivilDate(z, 1, 1)
  {
    OneDate(Date(z, 1, 1), DaysBeforeYear(z));
  }

  /** 59 minutes and 59 seconds into a year. */
  function NewYear(z: nat): Instant { Instant(86400 * DaysBeforeYear(z) + 3599, 0) }

  lemma DayAndSecond(day: int, sec: int)
    requires sec == 86400 * day + 3599
    ensures sec / 86400 == day && sec % 86400 == 3599
  {
  }

  lemma LastSecondOfHour(c: nat)
    requires c == 3599
    ensures c / 3600 == 0 && c / 60 % 60 == 59 && c % 60 == 59
  {
  }

  lemma ClockAt(day: int, sec: int, d: CivilDate)
    requires sec == 86400 * day + 3599 && CivilOf(day) == d
    ensures Clock(sec) == [d.month, d.day, 0, 59, 59] && CivilOf(sec / 86400) == d
  {
    DayAndSecond(day, sec);
    LastSecondOfHour(sec % 86400);
  }

  lemma {:induction false} TrimZeros(k: nat)
    ensures Trim(Zeros(k)) == ""
  {
    if k > 0 {
      assert Zeros(k)[..k - 1] == Zeros(k - 1);
      TrimZeros(k - 1);
    }
  }

  lemma NoFraction()
    ensures FractionText(0) == "Z"
  {
    FixedZero(9);
    TrimZeros(9);
  }

  lemma JoinTexts(a: string, b: string, c: string, d: string, bcd: string)
    requires bcd == b + c + d
    ensures a + (b + c) + d == a + bcd
  {
  }

  lemma NewYearFormat(z: nat)
    ensures FormatTime(NewYear(z)) == YearText(z) + "-01-01T00:59:59Z"
  {
    FirstDay(z);
    ClockAt(DaysBeforeYear(z), NewYear(z).sec, CivilDate(z, 1, 1));
    NewYearText();
    NoFraction();
    JoinTexts(YearText(z), "-", "01-01T00:59:59", "Z", "-01-01T00:59:59Z");
  }

  lemma FiveDigits(n: nat)
    requires n == 10000
    ensures Decimal(n) == "10000"
  {
    assert Decimal(n / 1000) == Decimal(n / 10000) + ['0'];
    assert Decimal(n / 100) == Decimal(n / 1000) + ['0'];
    assert Decimal(n / 10) == Decimal(n / 100) + ['0'];
    assert Decimal(n) == Decimal(n / 10) + ['0'];
  }

  lemma TenThousandDays(z: nat)
    requires z == 10000
    ensures DaysBeforeYear(z) == FOUR_DIGIT_DAYS
  {
    YearStart(z);
    TenThousandYears(z);
  }

  lemma FiveDigitYear(z: nat)
    requires z == 10000
    ensures YearText(z) == "10000"
  {
    FiveDigits(z);
  }

  lemma TextOfTenThousand(z: nat)
    requires z == 10000
    ensures YearText(z) + "-01-01T00:59:59Z" == "10000-01-01T00:59:59Z"
  {
    FiveDigitYear(z);
  }

  lemma NotReadable(t: Instant)
    requires !t.Valid()
    ensures ParseTime(FormatTime(t)) == None
  {
    ReadableTimes(t);
  }

  lemma SecondOfTenThousand(z: nat)
    requires z == 10000
    ensures NewYear(z).sec == 86400 * FOUR_DIGIT_DAYS + 3599
  {
    TenThousandDays(z);
  }

  lemma YearTenThousandText(z: nat)
    requires z == 10000
    ensures FormatTime(NewYear(z)) == "10000-01-01T00:59:59Z"
  {
    NewYearFormat(z);
    TextOfTenThousand(z);
  }

  lemma FindNewYear() returns (z: nat)
    ensures NewYear(z).sec == 86400 * FOUR_DIGIT_DAYS + 3599
    ensures FormatTime(NewYear(z)) == "10000-01-01T00:59:59Z"
  {
    z :| z == 10000;
    SecondOfTenThousand(z);
    YearTenThousandText(z);
  }

  /** 9999-12-31T23:59:59-01:00 is stored with a five-digit year and cannot be read back. */
  lemma LateInstant() returns (t: Instant)
    ensures t.sec == 86400 * FOUR_DIGIT_DAYS + 3599 && !t.Valid()
    ensures FormatTime(t) == "10000-01-01T00:59:59Z" && ParseTime(FormatTime(t)) == None
  {
    var z := FindNewYear();
    t := NewYear(z);
    NotReadable(t);
  }

  // ----- text order against time order -----

  predicate FieldsBefore(v: seq<nat>, w: seq<nat>)
    requires |v| == |w|
  {
    v != [] && (v[0] < w[0] || (v[0] == w[0] && FieldsBefore(v[1..], w[1..])))
  }

  lemma FieldThenRest(f: Field, n: nat, m: nat, a: string, b: string)
    requires n < Pow10(f.width) && m < Pow10(f.width)
    ensures Less(Fixed(n, f.width) + (f.after + a), Fixed(m, f.width) + (f.after + b))
       <==> n < m || (n == m && Less(a, b))
  {
    FieldOrder(n, m, f.width, f.after + a, f.after + b);
    LessCommonPrefix(f.after, a, b);
  }

  /** Rendered fields sort field by field, and then by what follows them. */
  lemma {:induction false} RenderOrder(layout: seq<Field>, v: seq<nat>, w: seq<nat>, s: string, t: string)
    requires Fits(layout, v) && Fits(layout, w)
    ensures Less(Render(layout, v) + s, Render(layout, w) + t)
       <==> FieldsBefore(v, w) || (v == w && Less(s, t))
  {
    if layout == [] {
      assert Render(layout, v) + s == s && Render(layout, w) + t == t;
    } else {
      var a, b := Render(layout[1..], v[1..]) + s, Render(layout[1..], w[1..]) + t;
      RenderFirst(layout, v, s);
      RenderFirst(layout, w, t);
      FieldThenRest(layout[0], v[0], w[0], a, b);
      RenderOrder(layout[1..], v[1..], w[1..], s, t);
      assert v == w <==> v[0] == w[0] && v[1..] == w[1..];
    }
  }

  lemma FieldsBeforeAt(v: seq<nat>, w: seq<nat>, k: nat)
    requires |v| == |w| && k < |v|
    ensures FieldsBefore(v[k..], w[k..]) <==> v[k] < w[k] || (v[k] == w[k] && FieldsBefore(v[k + 1..], w[k + 1..]))
  {
    assert v[k..][1..] == v[k + 1..] && w[k..][1..] == w[k + 1..];
  }

  lemma SixFieldsBefore(v: seq<nat>, w: seq<nat>)
    requires |v| == |w| == 6
    ensures FieldsBefore(v, w) <==>
      Date(v[0], v[1], v[2]).Before(Date(w[0], w[1], w[2])) ||
      (v[0] == w[0] && v[1] == w[1] && v[2] == w[2] &&
        (v[3] < w[3] || (v[3] == w[3] && (v[4] < w[4] || (v[4] == w[4] && v[5] < w[5])))))
  {
    assert v[0..] == v && w[0..] == w;
    FieldsBeforeAt(v, w, 0);
    FieldsBeforeAt(v, w, 1);
    FieldsBeforeAt(v, w, 2);
    FieldsBeforeAt(v, w, 3);
    FieldsBeforeAt(v, w, 4);
    FieldsBeforeAt(v, w, 5);
  }

  lemma ClockOrder(s: nat, t: nat)
    ensures s < t <==>
      (s / 3600 < t / 3600 || (s / 3600 == t / 3600 &&
        (s / 60 % 60 < t / 60 % 60 || (s / 60 % 60 == t / 60 % 60 && s % 60 < t % 60))))
  {
    ClockParts(s);
    ClockParts(t);
  }

  lemma SecondsOrder(s: nat, t: nat)
    ensures FieldsBefore(Fields(s), Fields(t)) <==> s < t
  {
    var d, e := DateOf(s / 86400), DateOf(t / 86400);
    SixFieldsBefore(Fields(s), Fields(t));
    DateOrder(d, e);
    ClockOrder(s % 86400, t % 86400);
  }

  /** The second decides; within one second the text of the fraction does. */
  lemma TextOrder(a: Instant, b: Instant)
    requires a.Valid() && b.Valid()
    ensures Less(FormatTime(a), FormatTime(b))
       <==> a.sec < b.sec || (a.sec == b.sec && Less(FractionText(a.ns), FractionText(b.ns)))
  {
    FieldsFit(a.sec);
    FieldsFit(b.sec);
    DateTextIsRender(a.sec);
    DateTextIsRender(b.sec);
    RenderOrder(LAYOUT, Fields(a.sec), Fields(b.sec), FractionText(a.ns), FractionText(b.ns));
    SecondsOrder(a.sec, b.sec);
    DenoteInvertsFields(Instant(a.sec, 0));
    DenoteInvertsFields(Instant(b.sec, 0));
  }

  /** Across seconds the text order is the time order. */
  lemma TextOrderAcrossSeconds(a: Instant, b: Instant)
    requires a.Valid() && b.Valid() && a.sec != b.sec
    ensures Less(FormatTime(a), FormatTime(b)) <==> a.Before(b)
  {
    TextOrder(a, b);
  }

  /** The terminator sorts after every digit, so a shorter fraction sorts after its extensions. */
  lemma {:induction false} TerminatedFractions(f: string, g: string)
    requires AllDigits(f) && AllDigits(g) && f != g
    ensures Less(f + "Z", g + "Z") <==> !(f <= g) && (g <= f || Less(f, g))
  {
    if f == "" {
      assert (f + "Z")[0] == 'Z' && (g + "Z")[0] == g[0];
    } else if g == "" {
      assert (g + "Z")[0] == 'Z' && (f + "Z")[0] == f[0];
    } else {
      assert (f + "Z")[1..] == f[1..] + "Z" && (g + "Z")[1..] == g[1..] + "Z";
      assert (f + "Z")[0] == f[0] && (g + "Z")[0] == g[0];
      if f[0] == g[0] {
        assert f == [f[0]] + f[1..] && g == [g[0]] + g[1..];
        TerminatedFractions(f[1..], g[1..]);
        assert f <= g <==> f[1..] <= g[1..];
        assert g <= f <==> g[1..] <= f[1..];
      }
    }
  }

  /** Trimmed fractions compare like the full ones, unless one is a prefix of the other. */
  lemma {:induction false} TrimmedOrder(f: string, g: string, s: string, t: string)
    requires !(f <= g) && !(g <= f)
    ensures Less(f + s, g + t) <==> Less(f, g)
  {
    assert (f + s)[1..] == f[1..] + s && (g + t)[1..] == g[1..] + t;
    if f[0] == g[0] {
      TrimmedOrder(f[1..], g[1..], s, t);
    }
  }

  lemma {:induction false} NothingBelowZeros(s: string, k: nat)
    requires AllDigits(s) && |s| == k
    ensures !Less(s, Zeros(k))
  {
    if k > 0 && s[0] == '0' {
      assert Zeros(k)[1..] == Zeros(k - 1);
      NothingBelowZeros(s[1..], k - 1);
    }
  }

  lemma ExtensionNotBelow(f: string, g: string, k: nat, l: nat)
    requires AllDigits(f) && g <= f && |f| + k == |g| + l
    ensures !Less(f + Zeros(k), g + Zeros(l))
  {
    var h := f[|g|..];
    assert f + Zeros(k) == g + (h + Zeros(k));
    LessCommonPrefix(g, h + Zeros(k), Zeros(l));
    NothingBelowZeros(h + Zeros(k), l);
  }

  /** Two texts of one length against their own beginnings. */
  lemma PaddedOrder(s: string, f: string, t: string, g: string)
    requires AllDigits(f) && |s| == |t| && |f| <= |s| && |g| <= |t|
    requires s == f + Zeros(|s| - |f|) && t == g + Zeros(|t| - |g|) && Less(s, t)
    ensures !(g <= f) && (f <= g || Less(f, g))
  {
    if g <= f {
      ExtensionNotBelow(f, g, |s| - |f|, |t| - |g|);
    } else if !(f <= g) {
      TrimmedOrder(f, g, Zeros(|s| - |f|), Zeros(|t| - |g|));
    }
  }

  lemma TrimmedTextOrder(s: string, t: string)
    requires AllDigits(s) && |s| == |t| && Less(s, t)
    ensures !(Trim(t) <= Trim(s)) && (Trim(s) <= Trim(t) || Less(Trim(s), Trim(t)))
  {
    TrimPads(s);
    TrimPads(t);
    PaddedOrder(s, Trim(s), t, Trim(t));
  }

  lemma FractionOrder(n: nat, m: nat)
    requires n < m < 1_000_000_000
    ensures !(Fraction(m) <= Fraction(n))
    ensures Fraction(n) <= Fraction(m) || Less(Fraction(n), Fraction(m))
  {
    Powers();
    FixedOrder(n, m, 9);
    TrimmedTextOrder(Fixed(n, 9), Fixed(m, 9));
  }

  /**
    Within one second the text order is the time order exactly when the digits of the earlier
    fraction do not begin the digits of the later one; otherwise it is reversed.
   */
  lemma TextOrderWithinSecond(a: Instant, b: Instant)
    requires a.Valid() && b.Valid() && a.sec == b.sec && a.ns < b.ns
    ensures Less(FormatTime(a), FormatTime(b)) <==> !(Fraction(a.ns) <= Fraction(b.ns))
    ensures Less(FormatTime(b), FormatTime(a)) <==> Fraction(a.ns) <= Fraction(b.ns)
  {
    var f, g := Fraction(a.ns), Fraction(b.ns);
    FractionOrder(a.ns, b.ns);
    TextOrder(a, b);
    TextOrder(b, a);
    if f != "" && g != "" {
      assert FractionText(a.ns) == "." + (f + "Z") && FractionText(b.ns) == "." + (g + "Z");
      LessCommonPrefix(".", f + "Z", g + "Z");
      LessCommonPrefix(".", g + "Z", f + "Z");
      TerminatedFractions(f, g);
      TerminatedFractions(g, f);
      if !(f <= g) { LessAsymmetric(f, g); }
    } else {
      assert f == "" && g != "";
      assert FractionText(a.ns)[0] == 'Z' && FractionText(b.ns)[0] == '.';
    }
  }

  /** Distinct instants have distinct texts. */
  lemma FormatInjective(a: Instant, b: Instant)
    requires a.Valid() && b.Valid()
    ensures FormatTime(a) == FormatTime(b) <==> a == b
  {
    ParseInvertsFormat(a);
    ParseInvertsFormat(b);
  }

  lemma TrimSnoc(s: string)
    ensures Trim(s + ['0']) == Trim(s)
  {
    assert (s + ['0'])[..|s|] == s;
  }

  lemma {:induction false} TrimDropsZeros(s: string, k: nat)
    ensures Trim(s + Zeros(k)) == Trim(s)
  {
    if k == 0 {
      assert s + Zeros(k) == s;
    } else {
      TrimDropsZeros(s, k - 1);
      TrimSnoc(s + Zeros(k - 1));
      assert s + Zeros(k) == s + Zeros(k - 1) + ['0'];
    }
  }

  function Shift(n: nat, k: nat): nat {
    if k == 0 then n else 10 * Shift(n, k - 1)
  }

  lemma {:induction false} FixedShift(n: nat, w: nat, k: nat)
    ensures Fixed(Shift(n, k), w + k) == Fixed(n, w) + Zeros(k)
  {
    if k == 0 {
      assert Zeros(0) == "";
    } else {
      FixedShift(n, w, k - 1);
      var m := Shift(n, k - 1);
      assert Fixed(10 * m, w + k) == Fixed(m, w + k - 1) + ['0'];
      assert Zeros(k) == Zeros(k - 1) + ['0'];
    }
  }

  lemma ShiftedFraction(n: nat, w: nat, ns: nat)
    requires w <= 9 && ns == Shift(n, 9 - w)
    ensures Fraction(ns) == Trim(Fixed(n, w))
  {
    FixedShift(n, w, 9 - w);
    TrimDropsZeros(Fixed(n, w), 9 - w);
  }

  lemma ReversedBySample(sec: nat, n: nat, m: nat)
    requires InFourDigits(sec) && n < m < 1_000_000_000 && Fraction(n) <= Fraction(m)
    ensures Less(FormatTime(Instant(sec, m)), FormatTime(Instant(sec, n)))
  {
    TextOrderWithinSecond(Instant(sec, n), Instant(sec, m));
  }

  /** The two reversals within one second: 0.5 s sorts before 0 s, 0.123 s before 0.12 s. */
  lemma ReversedWithinSecond(sec: nat)
    requires InFourDigits(sec)
    ensures Less(FormatTime(Instant(sec, 500_000_000)), FormatTime(Instant(sec, 0)))
    ensures Less(FormatTime(Instant(sec, 123_000_000)), FormatTime(Instant(sec, 120_000_000)))
  {
    ShiftedFraction(0, 0, 0);
    ShiftedFraction(12, 2, 120_000_000);
    ShiftedFraction(123, 3, 123_000_000);
    ReversedBySample(sec, 0, 500_000_000);
    ReversedBySample(sec, 120_000_000, 123_000_000);
  }
}
