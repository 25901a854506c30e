/** What the text of a stored time says, in general and on samples. */
module TimeSamples {
  import opened Results
  import opened Text
  import opened Calendar
  import opened TimeText
  import opened Store

  lemma SplitClock(c: nat, h: nat, mi: nat, s: nat)
    requires c == 3600 * h + 60 * mi + s && mi < 60 && s < 60
    ensures c / 3600 == h && c / 60 % 60 == mi && c % 60 == s
  {
    assert c == 60 * (60 * h + mi) + s;
    assert c / 60 == 60 * h + mi;
  }

  lemma SplitDay(day: nat, c: nat, sec: int)
    requires sec == 86400 * day + c && c < 86400
    ensures sec / 86400 == day && sec % 86400 == c
  {
  }

  lemma ClockOf(d: Date, h: nat, mi: nat, s: nat, sec: int)
    requires d.Valid() && h < 24 && mi < 60 && s < 60
    requires sec == 86400 * d.Number() + (3600 * h + 60 * mi + s)
    ensures Clock(sec) == [d.month, d.day, h, mi, s] && CivilOf(sec / 86400).year == d.year
  {
    SplitDay(d.Number(), 3600 * h + 60 * mi + s, sec);
    SplitClock(3600 * h + 60 * mi + s, h, mi, s);
    OneDate(d, d.Number());
  }

  function ClockString(m: nat, d: nat, h: nat, mi: nat, s: nat): string {
    Fixed(m, 2) + ("-" + (Fixed(d, 2) + ("T" + (Fixed(h, 2) + (":" + (Fixed(mi, 2) + (":" + (Fixed(s, 2) + ""))))))))
  }

  lemma DateTextOf(sec: int, y: int, m: nat, d: nat, h: nat, mi: nat, s: nat)
    requires Clock(sec) == [m, d, h, mi, s] && CivilOf(sec / 86400).year == y
    ensures DateText(sec) == YearText(y) + ("-" + ClockString(m, d, h, mi, s))
  {
    ClockText(m, d, h, mi, s);
  }

  lemma SecondOf(d: Date, h: nat, mi: nat, s: nat, sec: int)
    requires d.Valid() && h < 24 && mi < 60 && s < 60
    requires sec == 86400 * d.Number() + (3600 * h + 60 * mi + s)
    ensures DateText(sec) == YearText(d.year) + ("-" + ClockString(d.month, d.day, h, mi, s))
  {
    ClockOf(d, h, mi, s, sec);
    DateTextOf(sec, d.year, d.month, d.day, h, mi, s);
  }

  /** The text is year-month-dayThour:minute:second, the fraction and Z, each number in its place. */
  lemma TextOf(t: Instant, d: Date, h: nat, mi: nat, s: nat)
    requires d.Valid() && h < 24 && mi < 60 && s < 60
    requires t.sec == 86400 * d.Number() + (3600 * h + 60 * mi + s)
    ensures FormatTime(t) == YearText(d.year) + ("-" + ClockString(d.month, d.day, h, mi, s)) + FractionText(t.ns)
  {
    SecondOf(d, h, mi, s, t.sec);
  }

  // ----- samples -----

  lemma SpringNumber(y: nat)
    requires y == 2024
    ensures Date(y, 5, 1).Valid() && Date(y, 5, 1).Number() == 739_372
  {
    DayNumber(Date(y, 5, 1));
  }

  lemma FourDigits(n: nat, w: nat)
    requires n == 2024 && w == 4
    ensures YearText(n) == "2024"
  {
    Powers();
    PaddedFits(n, w);
    SplitTens(n, 202, 4);
    SplitTens(202, 20, 2);
    FixedSnoc(n, w - 1);
    FixedSnoc(202, w - 2);
    TwoDigits(20, w - 2, 2, 0);
  }

  lemma SpringFraction(ns: nat)
    requires ns == 120_000_000
    ensures FractionText(ns) == ".12Z"
  {
    assert Shift(12, 7) == 120_000_000;
    ShiftedFraction(12, 2, ns);
    TwoDigits(12, 2, 1, 2);
    assert Trim("12") == "12";
  }

  lemma SpringClock()
    ensures ClockString(5, 1, 13, 7, 9) == "05-01T13:07:09"
  {
    TwoDigits(5, 2, 0, 5);
    TwoDigits(1, 2, 0, 1);
    TwoDigits(13, 2, 1, 3);
    TwoDigits(7, 2, 0, 7);
    TwoDigits(9, 2, 0, 9);
  }

  lemma JoinSpring(clock: string)
    requires clock == "05-01T13:07:09"
    ensures "2024" + ("-" + clock) + ".12Z" == "2024-05-01T13:07:09.12Z"
  {
  }

  lemma SpringAt(y: nat, h: nat, mi: nat, sec: nat, t: Instant)
    requires y == 2024 && h == 13 && mi == 7 && sec == 9
    requires t.sec == 86400 * 739_372 + (3600 * h + 60 * mi + sec) && t.ns == 120_000_000
    ensures FormatTime(t) == "2024-05-01T13:07:09.12Z"
  {
    SpringNumber(y);
    TextOf(t, Date(y, 5, 1), h, mi, sec);
    FourDigits(y, 4);
    SpringClock();
    SpringFraction(t.ns);
    JoinSpring(ClockString(5, 1, 13, 7, 9));
  }

  /** A time in a leap year after February. */
  lemma SpringText(t: Instant)
    requires t.sec == 86400 * 739_372 + 3600 * 13 + 60 * 7 + 9 && t.ns == 120_000_000
    ensures FormatTime(t) == "2024-05-01T13:07:09.12Z"
  {
    var y: nat :| y == 2024;
    var h: nat, mi: nat, sec: nat :| h == 13 && mi == 7 && sec == 9;
    SpringAt(y, h, mi, sec, t);
  }

  // ----- the zero time -----

  lemma ZeroNumber(y: nat)
    requires y == 1
    ensures Date(y, 1, 1).Valid() && Date(y, 1, 1).Number() == 366
  {
    DayNumber(Date(y, 1, 1));
  }

  lemma FirstYear(n: nat, w: nat)
    requires n == 1 && w == 4
    ensures YearText(n) == "0001"
  {
    Powers();
    PaddedFits(n, w);
    SplitTens(n, 0, 1);
    FixedSnoc(n, w - 1);
    FixedZero(w - 1);
  }

  lemma MidnightClock()
    ensures ClockString(1, 1, 0, 0, 0) == "01-01T00:00:00"
  {
    TwoDigits(1, 2, 0, 1);
    TwoDigits(0, 2, 0, 0);
  }

  lemma JoinZero(clock: string)
    requires clock == "01-01T00:00:00"
    ensures "0001" + ("-" + clock) + "Z" == "0001-01-01T00:00:00Z"
  {
  }

  lemma ZeroAt(y: nat, zero: nat, t: Instant)
    requires y == 1 && zero == 0 && t.sec == 86400 * 366 + (3600 * zero + 60 * zero + zero) && t.ns == zero
    ensures FormatTime(t) == "0001-01-01T00:00:00Z"
  {
    ZeroNumber(y);
    TextOf(t, Date(y, 1, 1), zero, zero, zero);
    FirstYear(y, 4);
    MidnightClock();
    NoFraction();
    JoinZero(ClockString(1, 1, 0, 0, 0));
  }

  /** The zero time is midnight of the first day of year 1. */
  lemma ZeroText()
    ensures FormatTime(ZERO_TIME) == "0001-01-01T00:00:00Z"
  {
    var y: nat :| y == 1;
    var zero: nat :| zero == 0;
    var t: Instant :| t == ZERO_TIME;
    ZeroAt(y, zero, t);
  }

  /** A missing time and the zero time become NULL, and any other time its text. */
  lemma NullTimeIs(t: Option<Instant>)
    ensures NullTime(t) == None <==> t == None || t == Some(Instant(86400 * 366, 0))
    ensures t.Some? && NullTime(t) != None ==> NullTime(t) == Some(FormatTime(t.value))
  {
  }
}
