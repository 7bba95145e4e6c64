/** The minutes a parsed cron expression allows, the next of them, and when there is none. */
module CronTimes {
  import opened Calendar

  /** The value sets of the five fields; a day field is restricted unless it is `*`. */
  datatype Times = Times(minutes: set<int>, hours: set<int>, doms: set<int>, months: set<int>, dows: set<int>,
                         domRestricted: bool, dowRestricted: bool)

  ghost predicate WithinRange(values: set<int>, low: int, high: int) {
    (exists v :: v in values) && forall v <- values :: low <= v <= high
  }

  /** What parsing guarantees. */
  ghost predicate InRange(t: Times) {
    && WithinRange(t.minutes, 0, 59) && WithinRange(t.hours, 0, 23) && WithinRange(t.doms, 1, 31)
    && WithinRange(t.months, 1, 12) && WithinRange(t.dows, 0, 6)
  }

  /** The day rule: day-of-month or day-of-week when both are restricted. */
  predicate DayAllowed(t: Times, d: Date) {
    d.month in t.months &&
    if t.domRestricted && t.dowRestricted then d.day in t.doms || CronWeekday(d) in t.dows
    else if t.domRestricted then d.day in t.doms
    else if t.dowRestricted then CronWeekday(d) in t.dows
    else true
  }

  predicate Allows(t: Times, m: Moment) {
    m.minute in t.minutes && m.hour in t.hours && DayAllowed(t, m.date)
  }

  const WINDOW := 366 * 4 * 24 * 60

  /** `after` is a minute and the microseconds past it. */
  datatype Instant = Instant(minute: Moment, micros: nat)

  predicate ValidInstant(i: Instant) { ValidMoment(i.minute) && i.micros < 60_000_000 }

  function Micros(i: Instant): int { Minutes(i.minute) * 60_000_000 + i.micros }

  function OnTheMinute(m: Moment): Instant { Instant(m, 0) }

  datatype NextRun = At(moment: Moment) | NeverFires

  /** The minutes the search examines. */
  predicate InWindow(after: Moment, m: Moment) {
    Minutes(after) < Minutes(m) <= Minutes(after) + 1 + WINDOW
  }

  /** Nothing matches after `after` and before minute number `until`. */
  ghost predicate NoneUntil(t: Times, after: Moment, until: int) {
    forall m :: ValidMoment(m) && Minutes(after) < Minutes(m) < until ==> !Allows(t, m)
  }

  lemma NoneUntilGrows(t: Times, after: Moment, moment: Moment)
    requires InRange(t) && ValidMoment(moment) && !Allows(t, moment) && NoneUntil(t, after, Minutes(moment))
    ensures NoneUntil(t, after, Minutes(moment) + 1)
  {
    forall m | ValidMoment(m) && Minutes(after) < Minutes(m) < Minutes(moment) + 1 ensures !Allows(t, m) {
      if Minutes(m) == Minutes(moment) { MinutesInjective(m, moment); }
    }
  }

  /** The least matching minute of the window, if there is one. */
  ghost predicate IsNext(t: Times, after: Moment, m: Moment) {
    ValidMoment(m) && InWindow(after, m) && Allows(t, m) && NoneUntil(t, after, Minutes(m))
  }

  /** What the search computes, independently of how it searches. */
  ghost function Next(t: Times, after: Moment): (r: NextRun)
    ensures r.At? ==> IsNext(t, after, r.moment)
    ensures r.NeverFires? ==> forall m :: !IsNext(t, after, m)
  {
    if exists m :: IsNext(t, after, m) then (var m :| IsNext(t, after, m); At(m)) else NeverFires
  }

  lemma FirstMatchIsNext(t: Times, after: Moment, m: Moment)
    requires InRange(t) && IsNext(t, after, m)
    ensures Next(t, after) == At(m)
  {
    var n := Next(t, after).moment;
    MinutesInjective(m, n);
  }

  /** The first `k` results of iterating the search. */
  ghost function Fires(t: Times, after: Moment, k: nat): seq<Moment>
    decreases k
  {
    if k == 0 then [] else
    match Next(t, after)
    case NeverFires => []
    case At(m) => [m] + Fires(t, m, k - 1)
  }

  /** What the results of the iteration are. */
  ghost predicate InTurn(t: Times, after: Moment, f: seq<Moment>) {
    && (forall i :: 0 <= i < |f| ==> ValidMoment(f[i]) && Allows(t, f[i]) && Minutes(after) < Minutes(f[i]))
    && (forall i, j :: 0 <= i < j < |f| ==> Minutes(f[i]) < Minutes(f[j]))
  }

  lemma InTurnCons(t: Times, after: Moment, n: Moment, f: seq<Moment>)
    requires InTurn(t, n, f) && ValidMoment(n) && Allows(t, n) && Minutes(after) < Minutes(n)
    ensures InTurn(t, after, [n] + f)
  {
    forall i, j | 0 <= i < j < |f| + 1 ensures Minutes(([n] + f)[i]) < Minutes(([n] + f)[j]) {
      if i > 0 { assert Minutes(f[i - 1]) < Minutes(f[j - 1]); }
    }
  }

  /** Iteration enumerates the matching minutes in order, without repetition or omission. */
  lemma {:induction false} FiresAreAll(t: Times, after: Moment, k: nat, m: Moment)
    requires InRange(t) && ValidMoment(m)
    ensures var f := Fires(t, after, k);
      InTurn(t, after, f) && Listed(t, after, f, m)
    decreases k
  {
    if k > 0 && Next(t, after).At? {
      var n := Next(t, after).moment;
      var rest := Fires(t, n, k - 1);
      FiresAreAll(t, n, k - 1, m);
      InTurnCons(t, after, n, rest);
      NoneOmitted(t, after, n, rest, m);
    }
  }

  ghost predicate Listed(t: Times, after: Moment, f: seq<Moment>, m: Moment) {
    f != [] && Allows(t, m) && Minutes(after) < Minutes(m) <= Minutes(f[|f| - 1]) ==> m in f
  }

  /** Between the start and the first result nothing matches. */
  lemma NoneOmitted(t: Times, after: Moment, n: Moment, rest: seq<Moment>, m: Moment)
    requires InRange(t) && ValidMoment(m) && Next(t, after) == At(n) && Listed(t, n, rest, m)
    ensures Listed(t, after, [n] + rest, m)
  {
    var f := [n] + rest;
    assert rest != [] ==> f[|f| - 1] == rest[|rest| - 1];
    if Allows(t, m) && Minutes(after) < Minutes(m) <= Minutes(n) { MinutesInjective(m, n); }
  }

  // ---------------------------------------------------------------------
  // When the search gives up
  // ---------------------------------------------------------------------

  /** A month and day every year has. */
  predicate YearlyDay(month: int, day: int) { 1 <= month <= 12 && 1 <= day <= DaysIn(1, month) }

  /** Only the day of the month restricts the day. */
  predicate DomAlone(t: Times) { t.domRestricted && !t.dowRestricted }

  /** Some (month, day) pair of the fields exists in every year. */
  predicate SomeYearlyDay(t: Times) {
    exists mo <- t.months, d <- t.doms :: YearlyDay(mo, d)
  }

  predicate AsksForLeapDay(t: Times) {
    2 in t.months && 29 in t.doms
  }

  /** The window holds a 29 February at one of the expression's times of day. */
  ghost predicate LeapSlot(t: Times, after: Moment) {
    AsksForLeapDay(t) && exists y, h, mi ::
      y >= 1 && Leap(y) && h in t.hours && mi in t.minutes && InWindow(after, Moment(LeapDay(y), h, mi))
  }

  /** No end of February without a leap day within the window, i.e. no century
      year that the leap rule skips. */
  ghost predicate NoSkippedLeapDay(after: Moment) {
    forall y :: y % 4 == 0 && Ordinal(after.date) < EndOfFebruary(y) <= Ordinal(after.date) + 1461 ==> Leap(y)
  }

  /** An allowed day strictly inside the window makes the search succeed. */
  lemma AllowedDayFires(t: Times, after: Moment, d: Date)
    requires InRange(t) && ValidMoment(after) && ValidDate(d) && DayAllowed(t, d)
    requires Ordinal(after.date) < Ordinal(d) <= Ordinal(after.date) + 1461
    ensures Next(t, after).At?
  {
    var h :| h in t.hours;
    var mi :| mi in t.minutes;
    var m := Moment(d, h, mi);
    MatchMakesNext(t, after, m);
  }

  lemma {:induction false} MatchMakesNext(t: Times, after: Moment, m: Moment)
    requires InRange(t) && ValidMoment(m) && InWindow(after, m) && Allows(t, m)
    ensures Next(t, after).At?
    decreases Minutes(m) - Minutes(after)
  {
    if !IsNext(t, after, m) {
      var n :| ValidMoment(n) && Minutes(after) < Minutes(n) < Minutes(m) && Allows(t, n);
      MatchMakesNext(t, after, n);
    }
  }

  lemma WeekdayOffset(first: int, w: int) returns (k: int)
    requires 0 <= w <= 6
    ensures 0 <= k <= 6 && (first + k) % 7 == w
  {
    k := (w - first) % 7;
    var q := (w - first) / 7;
    assert first + k == w - 7 * q;
  }

  /** A day with a given weekday in the first week of a month. */
  lemma WeekdayInMonth(y: int, month: int, w: int) returns (d: Date)
    requires y >= 1 && 1 <= month <= 12 && 0 <= w <= 6
    ensures ValidDate(d) && d.year == y && d.month == month && CronWeekday(d) == w
  {
    var first := Ordinal(Date(y, month, 1));
    var k := WeekdayOffset(first, w);
    d := Date(y, month, 1 + k);
    assert Ordinal(d) == first + k;
  }

  lemma UnlessDomAlone(t: Times, after: Moment)
    requires InRange(t) && ValidMoment(after) && !DomAlone(t)
    ensures Next(t, after).At?
  {
    var mo :| mo in t.months;
    var w :| w in t.dows;
    var d := WeekdayInMonth(after.date.year + 1, mo, w);
    NextYearIsNear(after.date, d);
    AllowedDayFires(t, after, d);
  }

  lemma YearlyDayFires(t: Times, after: Moment)
    requires InRange(t) && ValidMoment(after) && DomAlone(t) && SomeYearlyDay(t)
    ensures Next(t, after).At?
  {
    var mo, dd :| mo in t.months && dd in t.doms && YearlyDay(mo, dd);
    var d := Date(after.date.year + 1, mo, dd);
    NextYearIsNear(after.date, d);
    AllowedDayFires(t, after, d);
  }

  lemma LeapSlotFires(t: Times, after: Moment)
    requires InRange(t) && ValidMoment(after) && DomAlone(t) && LeapSlot(t, after)
    ensures Next(t, after).At?
  {
    var y, h, mi :| y >= 1 && Leap(y) && h in t.hours && mi in t.minutes && InWindow(after, Moment(LeapDay(y), h, mi));
    MatchMakesNext(t, after, Moment(LeapDay(y), h, mi));
  }

  /** A match without a day every year has is a leap day. */
  lemma FiringNamesADay(t: Times, after: Moment)
    requires InRange(t) && ValidMoment(after) && Next(t, after).At? && DomAlone(t) && !SomeYearlyDay(t)
    ensures LeapSlot(t, after)
  {
    var m := Next(t, after).moment;
    assert !YearlyDay(m.date.month, m.date.day);
    assert m.date == LeapDay(m.date.year) && InWindow(after, Moment(LeapDay(m.date.year), m.hour, m.minute));
  }

  /** The search fires unless only the day of the month restricts the day and the
      fields name neither a day every year has nor a leap day in the window. */
  lemma FiresIff(t: Times, after: Moment)
    requires InRange(t) && ValidMoment(after)
    ensures Next(t, after).At? <==> !DomAlone(t) || SomeYearlyDay(t) || LeapSlot(t, after)
  {
    if !DomAlone(t) {
      UnlessDomAlone(t, after);
    } else if SomeYearlyDay(t) {
      YearlyDayFires(t, after);
    } else if LeapSlot(t, after) {
      LeapSlotFires(t, after);
    }
    if Next(t, after).At? && DomAlone(t) && !SomeYearlyDay(t) { FiringNamesADay(t, after); }
  }

  /** Where the leap rule skips nothing, the window holds a leap day. */
  lemma WindowHasLeapDay(t: Times, after: Moment)
    requires InRange(t) && ValidMoment(after) && NoSkippedLeapDay(after)
    ensures LeapSlot(t, after) <==> AsksForLeapDay(t)
  {
    if AsksForLeapDay(t) {
      var y := NextQuadYear(after.date);
      EndOfFebruaryIs(y);
      var h :| h in t.hours;
      var mi :| mi in t.minutes;
      assert InWindow(after, Moment(LeapDay(y), h, mi));
    }
  }

  /** A (month, day) pair of the fields exists in the Gregorian calendar. */
  predicate SomeRealDay(t: Times) {
    SomeYearlyDay(t) || AsksForLeapDay(t)
  }

  /** Away from skipped leap years, "never fires" means exactly: only the day of
      the month restricts the day, and no pair in the fields is a real date. */
  lemma NeverFiresIff(t: Times, after: Moment)
    requires InRange(t) && ValidMoment(after) && NoSkippedLeapDay(after)
    ensures Next(t, after).NeverFires? <==> DomAlone(t) && !SomeRealDay(t)
  {
    FiresIff(t, after);
    WindowHasLeapDay(t, after);
  }

  /** A century the leap rule skips. */
  predicate SkippedCentury(c: int) { c > 4 && c % 100 == 0 && c % 400 != 0 }

  lemma FourFromCentury(c: int)
    requires c % 100 == 0
    ensures c % 4 == 0 && (c - 4) % 4 == 0 && (c + 4) % 4 == 0 && (c - 4) % 100 == 96 && (c + 4) % 100 == 4
  {
    var k := c / 100;
    assert c - 4 == 100 * (k - 1) + 96 && c + 4 == 100 * k + 4;
    assert c == 4 * (25 * k);
  }

  lemma AroundSkippedCentury(c: int)
    requires SkippedCentury(c)
    ensures Leap(c - 4) && !Leap(c) && Leap(c + 4) && c % 4 == 0
    ensures BeforeYear(c + 4) == BeforeYear(c - 4) + 2921
  {
    FourFromCentury(c);
    YearLength(c - 4);
    PlainYears(c / 4 - 1, c - 3, c);
    YearLength(c);
    PlainYears(c / 4, c + 1, c + 4);
  }

  lemma BetweenMultiples(q: int, y: int)
    requires 4 * q < y < 4 * q + 4
    ensures y % 4 != 0
  {
    Remainder(q, y - 4 * q, y);
  }

  /** Four years are not enough across a skipped century: from 29 February four years
      before it, past the day's last slot, the search for 29 February gives up, although
      that of four years after it matches. */
  lemma CenturySkipGivesUp(t: Times, c: int, after: Moment, h: int, mi: int)
    requires InRange(t) && DomAlone(t) && t.months == {2} && t.doms == {29} && h in t.hours && mi in t.minutes
    requires SkippedCentury(c) && ValidMoment(after) && after.date == LeapDay(c - 4)
    requires forall hh <- t.hours, mm <- t.minutes :: hh * 60 + mm <= after.hour * 60 + after.minute
    ensures Next(t, after).NeverFires?
    ensures ValidMoment(Moment(LeapDay(c + 4), h, mi)) && Allows(t, Moment(LeapDay(c + 4), h, mi))
  {
    FiresIff(t, after);
    AroundSkippedCentury(c);
    assert !SomeYearlyDay(t);
    forall y, hh, mm | y >= 1 && Leap(y) && hh in t.hours && mm in t.minutes
      ensures !InWindow(after, Moment(LeapDay(y), hh, mm))
    {
      LeapDaysAroundCentury(c, y);
    }
  }

  lemma LeapDaysAroundCentury(c: int, y: int)
    requires SkippedCentury(c) && y >= 1 && Leap(y)
    ensures Ordinal(LeapDay(y)) <= Ordinal(LeapDay(c - 4)) || Ordinal(LeapDay(y)) >= Ordinal(LeapDay(c - 4)) + 2921
  {
    AroundSkippedCentury(c);
    EndOfFebruaryIs(y);
    EndOfFebruaryIs(c - 4);
    if y <= c - 4 {
      YearsGrow(y, c - 4);
    } else {
      NoLeapBetween(c, y);
      YearsGrow(c + 4, y);
    }
  }

  lemma NoLeapBetween(c: int, y: int)
    requires SkippedCentury(c) && Leap(y) && y > c - 4
    ensures y >= c + 4
  {
    AroundSkippedCentury(c);
    var q := c / 4;
    if y < c { BetweenMultiples(q - 1, y); }
    if c < y < c + 4 { BetweenMultiples(q, y); }
  }
}
