/** The proleptic Gregorian calendar at minute resolution, as `datetime` counts it. */
module Calendar {

  datatype Date = Date(year: int, month: int, day: int)
  datatype Moment = Moment(date: Date, hour: int, minute: int)

  predicate Leap(y: int) { y % 4 == 0 && (y % 100 != 0 || y % 400 == 0) }

  function DaysIn(y: int, m: int): int {
    if m == 2 then (if Leap(y) then 29 else 28)
    else if m == 4 || m == 6 || m == 9 || m == 11 then 30
    else 31
  }

  predicate ValidDate(d: Date) {
    d.year >= 1 && 1 <= d.month <= 12 && 1 <= d.day <= DaysIn(d.year, d.month)
  }

  predicate ValidMoment(m: Moment) {
    ValidDate(m.date) && 0 <= m.hour < 24 && 0 <= m.minute < 60
  }

  function BeforeYear(y: int): int { 365 * (y - 1) + (y - 1) / 4 - (y - 1) / 100 + (y - 1) / 400 }

  function BeforeMonth(y: int, m: int): int
    decreases m
  {
    if m <= 1 then 0 else BeforeMonth(y, m - 1) + DaysIn(y, m - 1)
  }

  /** `date.toordinal`: day 1 is 1 January of year 1. */
  function Ordinal(d: Date): int { BeforeYear(d.year) + BeforeMonth(d.year, d.month) + d.day }

  /** Minutes on one time line. */
  function Minutes(m: Moment): int { (Ordinal(m.date) * 24 + m.hour) * 60 + m.minute }

  function NextDay(d: Date): Date {
    if d.day < DaysIn(d.year, d.month) then d.(day := d.day + 1)
    else if d.month < 12 then Date(d.year, d.month + 1, 1)
    else Date(d.year + 1, 1, 1)
  }

  /** `moment + timedelta(minutes=1)`. */
  function NextMinute(m: Moment): Moment {
    if m.minute < 59 then m.(minute := m.minute + 1)
    else if m.hour < 23 then Moment(m.date, m.hour + 1, 0)
    else Moment(NextDay(m.date), 0, 0)
  }

  /** `(moment.weekday() + 1) % 7`: Sunday is 0. */
  function CronWeekday(d: Date): int { Ordinal(d) % 7 }

  /** Stepping to a year enters a new group of `d` years exactly at a multiple of `d`. */
  lemma Quotient(y: int, d: int)
    requires d == 4 || d == 100 || d == 400
    ensures y / d == (y - 1) / d + (if y % d == 0 then 1 else 0)
  {
  }

  lemma YearLength(y: int)
    ensures BeforeYear(y + 1) == BeforeYear(y) + 365 + (if Leap(y) then 1 else 0)
  {
    Quotient(y, 4);
    Quotient(y, 100);
    Quotient(y, 400);
    Multiples(y);
  }

  lemma Multiples(y: int)
    ensures y % 400 == 0 ==> y % 100 == 0
    ensures y % 100 == 0 ==> y % 4 == 0
  {
  }

  lemma MonthStarts(y: int)
    ensures BeforeMonth(y, 1) == 0 && BeforeMonth(y, 2) == 31
    ensures var l := if Leap(y) then 1 else 0;
      && BeforeMonth(y, 3) == 59 + l && BeforeMonth(y, 4) == 90 + l && BeforeMonth(y, 5) == 120 + l
      && BeforeMonth(y, 6) == 151 + l && BeforeMonth(y, 7) == 181 + l && BeforeMonth(y, 8) == 212 + l
      && BeforeMonth(y, 9) == 243 + l && BeforeMonth(y, 10) == 273 + l && BeforeMonth(y, 11) == 304 + l
      && BeforeMonth(y, 12) == 334 + l
  {
    assert BeforeMonth(y, 4) == BeforeMonth(y, 3) + 31;
    assert BeforeMonth(y, 6) == BeforeMonth(y, 5) + 31;
    assert BeforeMonth(y, 8) == BeforeMonth(y, 7) + 31;
    assert BeforeMonth(y, 10) == BeforeMonth(y, 9) + 30;
  }

  lemma NextDayFollows(d: Date)
    requires ValidDate(d)
    ensures ValidDate(NextDay(d)) && Ordinal(NextDay(d)) == Ordinal(d) + 1
  {
    if d.month == 12 {
      MonthStarts(d.year);
      YearLength(d.year);
    }
  }

  const LENGTHS := [31, 28, 31, 30, 31, 30, 31, 31, 30, 31, 30, 31]

  /** The lengths of the months, February's with a leap day in the years that have one: every
      fourth, but of the centuries only every fourth. */
  lemma MonthLengths(d: Date)
    requires ValidDate(d)
    ensures
      var leap := d.year % 400 == 0 || (d.year % 4 == 0 && d.year % 100 != 0);
      var last := LENGTHS[d.month - 1] + if d.month == 2 && leap then 1 else 0;
      && d.day <= last
      && NextDay(d) == if d.day < last then Date(d.year, d.month, d.day + 1)
                       else if d.month < 12 then Date(d.year, d.month + 1, 1) else Date(d.year + 1, 1, 1)
  {
    Multiples(d.year);
  }

  /** The date `n` days later. */
  function DaysLater(d: Date, n: nat): Date { if n == 0 then d else NextDay(DaysLater(d, n - 1)) }

  lemma {:induction false} DaysLaterFollow(d: Date, n: nat)
    requires ValidDate(d)
    ensures ValidDate(DaysLater(d, n)) && Ordinal(DaysLater(d, n)) == Ordinal(d) + n
  {
    if n > 0 {
      DaysLaterFollow(d, n - 1);
      NextDayFollows(DaysLater(d, n - 1));
    }
  }

  /** 1 January 2000 was a Saturday. */
  const SATURDAY := Date(2000, 1, 1)

  /** The weekday of a date, counted from that Saturday on or back to it; Sunday is 0. */
  ghost predicate FallsOn(d: Date, weekday: int) {
    0 <= weekday < 7 && exists n: nat :: CountedOn(d, weekday, n) || CountedBack(d, weekday, n)
  }

  predicate CountedOn(d: Date, weekday: int, n: nat) { d == DaysLater(SATURDAY, n) && weekday == (6 + n) % 7 }

  predicate CountedBack(d: Date, weekday: int, n: nat) { DaysLater(d, n) == SATURDAY && (weekday + n) % 7 == 6 }

  lemma Anchor()
    ensures ValidDate(SATURDAY) && Ordinal(SATURDAY) == 730120 && CronWeekday(SATURDAY) == 6
  {
    assert BeforeYear(2000) == 730119;
  }

  lemma SevenDays(o: int, n: int)
    ensures (o + n) % 7 == (o % 7 + n) % 7
  {
  }

  lemma WeekdayLater(d: Date, n: nat)
    requires ValidDate(d)
    ensures CronWeekday(DaysLater(d, n)) == (CronWeekday(d) + n) % 7
  {
    DaysLaterFollow(d, n);
    SevenDays(Ordinal(d), n);
  }

  lemma SameRest(a: int, b: int, n: int)
    requires 0 <= a < 7 && 0 <= b < 7 && (a + n) % 7 == (b + n) % 7
    ensures a == b
  {
    var q, r := (a + n) / 7, (b + n) / 7;
    assert a - b == 7 * (q - r);
  }

  /** The weekday the cron engine reads off a date is the one counted on the calendar. */
  lemma WeekdayIsCounted(d: Date, weekday: int)
    requires ValidDate(d)
    ensures CronWeekday(d) == weekday <==> FallsOn(d, weekday)
  {
    Anchor();
    if Ordinal(d) >= Ordinal(SATURDAY) {
      var n: nat := Ordinal(d) - Ordinal(SATURDAY);
      DaysLaterFollow(SATURDAY, n);
      OrdinalInjective(d, DaysLater(SATURDAY, n));
      WeekdayLater(SATURDAY, n);
      assert CountedOn(d, CronWeekday(d), n);
    } else {
      var n: nat := Ordinal(SATURDAY) - Ordinal(d);
      DaysLaterFollow(d, n);
      OrdinalInjective(SATURDAY, DaysLater(d, n));
      WeekdayLater(d, n);
      assert CountedBack(d, CronWeekday(d), n);
    }
    if FallsOn(d, weekday) { CountIsUnique(d, weekday); }
  }

  lemma CountIsUnique(d: Date, weekday: int)
    requires ValidDate(d) && FallsOn(d, weekday)
    ensures weekday == CronWeekday(d)
  {
    var n: nat :| CountedOn(d, weekday, n) || CountedBack(d, weekday, n);
    if CountedOn(d, weekday, n) { OnIsRead(d, weekday, n); } else { BackIsRead(d, weekday, n); }
  }

  lemma OnIsRead(d: Date, weekday: int, n: nat)
    requires CountedOn(d, weekday, n)
    ensures weekday == CronWeekday(d)
  {
    Anchor();
    WeekdayLater(SATURDAY, n);
  }

  lemma BackIsRead(d: Date, weekday: int, n: nat)
    requires ValidDate(d) && 0 <= weekday < 7 && CountedBack(d, weekday, n)
    ensures weekday == CronWeekday(d)
  {
    Anchor();
    WeekdayLater(d, n);
    SameRest(weekday, CronWeekday(d), n);
  }

  lemma NextMinuteFollows(m: Moment)
    requires ValidMoment(m)
    ensures ValidMoment(NextMinute(m)) && Minutes(NextMinute(m)) == Minutes(m) + 1
  {
    NextDayFollows(m.date);
  }

  lemma WithinYear(d: Date)
    requires ValidDate(d)
    ensures BeforeYear(d.year) < Ordinal(d) <= BeforeYear(d.year + 1)
  {
    MonthStarts(d.year);
    YearLength(d.year);
  }

  lemma {:induction false} YearsGrow(a: int, b: int)
    requires a <= b
    ensures BeforeYear(a) + 365 * (b - a) <= BeforeYear(b)
    decreases b - a
  {
    if a < b {
      YearsGrow(a, b - 1);
      YearLength(b - 1);
    }
  }

  /** Days are numbered without repetition. */
  lemma OrdinalInjective(a: Date, b: Date)
    requires ValidDate(a) && ValidDate(b) && Ordinal(a) == Ordinal(b)
    ensures a == b
  {
    if a.year < b.year { EarlierYear(a, b); }
    if b.year < a.year { EarlierYear(b, a); }
    if a.month < b.month { EarlierMonth(a, b); }
    if b.month < a.month { EarlierMonth(b, a); }
  }

  lemma EarlierYear(a: Date, b: Date)
    requires ValidDate(a) && ValidDate(b) && a.year < b.year
    ensures Ordinal(a) < Ordinal(b)
  {
    WithinYear(a);
    WithinYear(b);
    YearsGrow(a.year + 1, b.year);
  }

  lemma EarlierMonth(a: Date, b: Date)
    requires ValidDate(a) && ValidDate(b) && a.year == b.year && a.month < b.month
    ensures Ordinal(a) < Ordinal(b)
  {
    MonthsGrow(a.year, a.month, b.month);
  }

  lemma {:induction false} MonthsGrow(y: int, m: int, n: int)
    requires 1 <= m < n <= 12
    ensures BeforeMonth(y, m) + DaysIn(y, m) <= BeforeMonth(y, n)
    decreases n - m
  {
    if m < n - 1 { MonthsGrow(y, m, n - 1); }
  }

  lemma MinutesInjective(a: Moment, b: Moment)
    requires ValidMoment(a) && ValidMoment(b) && Minutes(a) == Minutes(b)
    ensures a == b
  {
    OrdinalInjective(a.date, b.date);
  }

  /** Any date of the next year lies 1 to 731 days ahead. */
  lemma NextYearIsNear(d: Date, e: Date)
    requires ValidDate(d) && ValidDate(e) && e.year == d.year + 1
    ensures Ordinal(d) < Ordinal(e) <= Ordinal(d) + 731
  {
    WithinYear(d);
    WithinYear(e);
    YearLength(d.year);
    YearLength(d.year + 1);
  }

  lemma Remainder(q: int, k: int, y: int)
    requires y == 4 * q + k && 0 <= k < 4
    ensures y % 4 == k && y / 4 == q
  {
  }

  lemma PlainYear(y: int)
    requires y % 4 != 0
    ensures BeforeYear(y + 1) == BeforeYear(y) + 365
  {
    YearLength(y);
  }

  /** No leap year strictly between a year and the next multiple of four. */
  lemma {:induction false} PlainYears(q: int, a: int, b: int)
    requires 4 * q < a <= b <= 4 * q + 4
    ensures BeforeYear(b) == BeforeYear(a) + 365 * (b - a)
    decreases b - a
  {
    if a < b {
      PlainYears(q, a, b - 1);
      Remainder(q, b - 1 - 4 * q, b - 1);
      PlainYear(b - 1);
    }
  }

  function LeapDay(y: int): Date { Date(y, 2, 29) }

  /** The number of the last day of February. */
  function EndOfFebruary(y: int): int { BeforeYear(y) + 59 + (if Leap(y) then 1 else 0) }

  lemma EndOfFebruaryIs(y: int)
    ensures Ordinal(Date(y, 2, 28)) == BeforeYear(y) + 59
    ensures Leap(y) ==> Ordinal(LeapDay(y)) == EndOfFebruary(y)
  {
    MonthStarts(y);
  }

  /** The end of February of the next year divisible by four (this year's, if it
      is still ahead) lies 1 to 1461 days ahead. */
  lemma NextQuadYear(d: Date) returns (y: int)
    requires ValidDate(d)
    ensures y >= 1 && y % 4 == 0 && Ordinal(d) < EndOfFebruary(y) <= Ordinal(d) + 1461
  {
    var year := d.year;
    WithinYear(d);
    if year % 4 == 0 && Ordinal(d) < EndOfFebruary(year) {
      y := year;
    } else {
      y := QuadYearAfter(year);
    }
  }

  lemma QuadYearAfter(year: int) returns (y: int)
    requires year >= 1
    ensures y % 4 == 0 && year < y <= year + 4
    ensures BeforeYear(year + 1) <= BeforeYear(y)
    ensures year % 4 == 0 ==> EndOfFebruary(y) <= EndOfFebruary(year) + 1461
    ensures year % 4 != 0 ==> EndOfFebruary(y) <= BeforeYear(year) + 1155
  {
    var q, r := year / 4, year % 4;
    y := 4 * (q + 1);
    Remainder(q + 1, 0, y);
    YearLength(year);
    if r == 0 { PlainYears(q, year + 1, y); } else { PlainYears(q, year, y); }
  }
}
