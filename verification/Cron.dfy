/** The built-in cron engine: which minutes an expression matches, the bounded
    search for the next one, and exactly when that search gives up. */
module Cron {
  import opened Calendar
  import opened CronField
  import opened CronTimes

  /** A five-field expression, split on whitespace. */
  datatype Expr = Expr(minute: string, hour: string, dom: string, month: string, dow: string)

  predicate Accepted(e: Expr) {
    && ParseField(e.minute, 0, 59, NO_NAMES).Ok?
    && ParseField(e.hour, 0, 23, NO_NAMES).Ok?
    && ParseField(e.dom, 1, 31, NO_NAMES).Ok?
    && ParseField(e.month, 1, 12, MONTHS).Ok?
    && ParseField(e.dow, 0, 6, DOWS).Ok?
  }

  function MinuteSet(e: Expr): set<int> requires Accepted(e) { ParseField(e.minute, 0, 59, NO_NAMES).value }
  function HourSet(e: Expr): set<int> requires Accepted(e) { ParseField(e.hour, 0, 23, NO_NAMES).value }
  function DomSet(e: Expr): set<int> requires Accepted(e) { ParseField(e.dom, 1, 31, NO_NAMES).value }
  function MonthSet(e: Expr): set<int> requires Accepted(e) { ParseField(e.month, 1, 12, MONTHS).value }
  function DowSet(e: Expr): set<int> requires Accepted(e) { ParseField(e.dow, 0, 6, DOWS).value }

  datatype Validated = Valid(e: Expr) | WrongFieldCount(n: nat) | BadField(error: FieldError)

  function Low(i: nat): int { if i == 2 || i == 3 then 1 else 0 }
  function High(i: nat): int {
    if i == 0 then 59 else if i == 1 then 23 else if i == 2 then 31 else if i == 3 then 12 else 6
  }
  function NamesFor(i: nat): Names { if i == 3 then MONTHS else if i == 4 then DOWS else NO_NAMES }
  predicate FieldParses(i: nat, text: string) { ParseField(text, Low(i), High(i), NamesFor(i)).Ok? }

  /** `validate_cron`, on the words of the text. */
  method ValidateCron(words: seq<string>) returns (r: Validated)
    ensures r.Valid? <==> |words| == 5 && Accepted(Expr(words[0], words[1], words[2], words[3], words[4]))
    ensures r.Valid? ==> r.e == Expr(words[0], words[1], words[2], words[3], words[4])
    ensures r.WrongFieldCount? <==> |words| != 5
  {
    if |words| != 5 { return WrongFieldCount(|words|); }
    var e := Expr(words[0], words[1], words[2], words[3], words[4]);
    assert Accepted(e) <==> forall k: nat :: k < 5 ==> FieldParses(k, words[k]) by {
      if forall k: nat :: k < 5 ==> FieldParses(k, words[k]) {
        assert FieldParses(0, words[0]) && FieldParses(1, words[1]) && FieldParses(2, words[2]);
        assert FieldParses(3, words[3]) && FieldParses(4, words[4]);
      }
    }
    for i := 0 to 5
      invariant forall k: nat :: k < i ==> FieldParses(k, words[k])
    {
      var f := ParseCronField(words[i], Low(i), High(i), NamesFor(i));
      if f.Error? {
        assert !FieldParses(i, words[i]);
        return BadField(f.error);
      }
    }
    r := Valid(e);
  }

  function SundayAsZero(dows: set<int>): set<int> { set d | d in dows :: if d == 7 then 0 else d }

  /** `_cron_matches`, with every field parsed afresh; the day rule is
      day-of-month or day-of-week when both are restricted. */
  predicate Matches(e: Expr, m: Moment)
    requires Accepted(e)
  {
    if m.minute !in MinuteSet(e) then false
    else if m.hour !in HourSet(e) then false
    else if m.date.month !in MonthSet(e) then false
    else
      var dowSet := SundayAsZero(DowSet(e));
      var weekday := CronWeekday(m.date);
      if e.dom != "*" && e.dow != "*" then m.date.day in DomSet(e) || weekday in dowSet
      else if e.dom != "*" then m.date.day in DomSet(e)
      else if e.dow != "*" then weekday in dowSet
      else true
  }

  /** The expression, parsed. */
  function Read(e: Expr): Times
    requires Accepted(e)
  {
    Times(MinuteSet(e), HourSet(e), DomSet(e), MonthSet(e), DowSet(e), e.dom != "*", e.dow != "*")
  }

  lemma ReadIsInRange(e: Expr)
    requires Accepted(e)
    ensures InRange(Read(e))
  {
    FieldInRange(e.minute, 0, 59, NO_NAMES);
    FieldInRange(e.hour, 0, 23, NO_NAMES);
    FieldInRange(e.dom, 1, 31, NO_NAMES);
    FieldInRange(e.month, 1, 12, MONTHS);
    FieldInRange(e.dow, 0, 6, DOWS);
    NonEmpty(MinuteSet(e));
    NonEmpty(HourSet(e));
    NonEmpty(DomSet(e));
    NonEmpty(MonthSet(e));
    NonEmpty(DowSet(e));
  }

  lemma NonEmpty(s: set<int>)
    requires s != {}
    ensures exists v :: v in s
  {
    assert (forall v :: v !in s) ==> s == {};
  }

  lemma NoSevens(dows: set<int>)
    requires WithinRange(dows, 0, 6)
    ensures SundayAsZero(dows) == dows
  {
    forall d ensures d in dows <==> d in SundayAsZero(dows) {
      if d in dows { assert d == if d == 7 then 0 else d; }
      if d in SundayAsZero(dows) {
        var x :| x in dows && d == if x == 7 then 0 else x;
      }
    }
  }

  /** Matching is the field-wise rule; accepted weekdays are 0 to 6, so Sunday
      written as 7 never arises. */
  lemma MatchesIsAllows(e: Expr, m: Moment)
    requires Accepted(e)
    ensures Matches(e, m) <==> Allows(Read(e), m)
  {
    ReadIsInRange(e);
    NoSevens(Read(e).dows);
  }

  /** `next_cron_time`: the search minute by minute, to the end of the window. */
  method NextCronTime(e: Expr, after: Instant) returns (r: NextRun)
    requires Accepted(e) && ValidInstant(after)
    ensures r == Next(Read(e), after.minute)
  {
    ghost var t := Read(e);
    ReadIsInRange(e);
    var moment := NextMinute(after.minute);
    NextMinuteFollows(after.minute);
    var limit := Minutes(moment) + WINDOW;
    while Minutes(moment) <= limit
      invariant ValidMoment(moment) && Minutes(after.minute) < Minutes(moment) <= limit + 1
      invariant NoneUntil(t, after.minute, Minutes(moment))
      decreases limit - Minutes(moment)
    {
      var matches := Matches(e, moment);
      MatchesIsAllows(e, moment);
      if matches {
        FirstMatchIsNext(t, after.minute, moment);
        return At(moment);
      }
      NoneUntilGrows(t, after.minute, moment);
      NextMinuteFollows(moment);
      moment := NextMinute(moment);
    }
    r := NeverFires;
  }

  /** What the search finds: the least matching minute strictly after `after`,
      unless the whole window matches nothing. */
  lemma NextIsLeast(e: Expr, after: Instant)
    requires Accepted(e) && ValidInstant(after)
    ensures match Next(Read(e), after.minute)
      case At(n) => ValidMoment(n) && Matches(e, n) && Micros(OnTheMinute(n)) > Micros(after)
        && (forall m :: ValidMoment(m) && Matches(e, m) && Micros(OnTheMinute(m)) > Micros(after) ==>
          Minutes(n) <= Minutes(m))
      case NeverFires => forall m :: ValidMoment(m) && InWindow(after.minute, m) ==> !Matches(e, m)
  {
    var t := Read(e);
    ReadIsInRange(e);
    match Next(t, after.minute)
    case At(n) =>
      MatchesIsAllows(e, n);
      forall m | ValidMoment(m) && Matches(e, m) && Micros(OnTheMinute(m)) > Micros(after)
        ensures Minutes(n) <= Minutes(m)
      {
        MatchesIsAllows(e, m);
      }
    case NeverFires =>
      forall m | ValidMoment(m) && InWindow(after.minute, m) ensures !Matches(e, m) {
        MatchesIsAllows(e, m);
        if Allows(t, m) { MatchMakesNext(t, after.minute, m); }
      }
  }

  /** The field-wise rule on the calendar, with weekdays counted from a known Saturday: where
      both day fields are restricted either may match, and an unrestricted one never does alone. */
  ghost predicate FiresAt(e: Expr, m: Moment)
    requires Accepted(e)
  {
    && m.minute in MinuteSet(e) && m.hour in HourSet(e) && m.date.month in MonthSet(e)
    && (|| (e.dom == "*" && e.dow == "*")
        || (e.dom != "*" && m.date.day in DomSet(e))
        || (e.dow != "*" && exists w <- DowSet(e) :: FallsOn(m.date, w)))
  }

  lemma MatchesOnTheCalendar(e: Expr, m: Moment)
    requires Accepted(e) && ValidMoment(m)
    ensures Matches(e, m) <==> FiresAt(e, m)
  {
    ReadIsInRange(e);
    NoSevens(DowSet(e));
    var weekday := CronWeekday(m.date);
    WeekdayIsCounted(m.date, weekday);
    forall w <- DowSet(e) ensures FallsOn(m.date, w) <==> w == weekday { WeekdayIsCounted(m.date, w); }
  }

  /** Not more than four times 366 days ahead, from the next minute on. */
  predicate Ahead(after: Moment, m: Moment) {
    Minutes(after) < Minutes(m) <= Minutes(after) + 1 + 4 * 366 * 24 * 60
  }

  /** What the search finds, by the calendar alone. */
  lemma NextOnTheCalendar(e: Expr, after: Instant)
    requires Accepted(e) && ValidInstant(after)
    ensures match Next(Read(e), after.minute)
      case At(n) => ValidMoment(n) && FiresAt(e, n) && Ahead(after.minute, n) && Micros(OnTheMinute(n)) > Micros(after)
        && (forall m :: ValidMoment(m) && FiresAt(e, m) && Micros(OnTheMinute(m)) > Micros(after) ==>
          Minutes(n) <= Minutes(m))
      case NeverFires => forall m :: ValidMoment(m) && Ahead(after.minute, m) ==> !FiresAt(e, m)
  {
    NextIsLeast(e, after);
    forall m | ValidMoment(m) ensures Matches(e, m) <==> FiresAt(e, m) { MatchesOnTheCalendar(e, m); }
  }

  /** A weekday written as its number or its name. */
  predicate WritesWeekday(text: string, w: nat) {
    w < 7 && ((IsDigits(text) && Num(text) == w) || WordFor(text, WEEK[w]))
  }

  lemma WeekdayIsRead(text: string, w: nat)
    requires WritesWeekday(text, w)
    ensures ParseField(text, 0, 6, DOWS) == Ok({w}) && text != "*"
  {
    NameTablesAreLetters();
    if IsDigits(text) && Num(text) == w {
      NumberField(text, 0, 6, DOWS);
    } else {
      NamesAreNumbers(text, w, 0);
      assert |text| >= 3;
    }
  }

  /** An expression for one weekday always fires: at the least later moment that falls on that
      weekday, at a time of day and in a month its fields name. */
  lemma WeekdayFires(e: Expr, w: nat, after: Instant)
    requires Accepted(e) && e.dom == "*" && WritesWeekday(e.dow, w) && ValidInstant(after)
    ensures Next(Read(e), after.minute).At?
    ensures var n := Next(Read(e), after.minute).moment;
      && OnWeekday(e, w, n) && Micros(OnTheMinute(n)) > Micros(after)
      && forall m :: OnWeekday(e, w, m) && Micros(OnTheMinute(m)) > Micros(after) ==> Minutes(n) <= Minutes(m)
  {
    WeekdayIsRead(e.dow, w);
    GivesUpIff(e, after.minute);
    NextOnTheCalendar(e, after);
    forall m | ValidMoment(m) ensures FiresAt(e, m) <==> OnWeekday(e, w, m) {}
  }

  /** A moment on that weekday whose minute, hour and month the fields allow. */
  ghost predicate OnWeekday(e: Expr, w: nat, m: Moment)
    requires Accepted(e)
  {
    && ValidMoment(m) && FallsOn(m.date, w)
    && m.minute in MinuteSet(e) && m.hour in HourSet(e) && m.date.month in MonthSet(e)
  }

  /** The search gives up exactly when the fields name no day that exists. */
  lemma GivesUpIff(e: Expr, after: Moment)
    requires Accepted(e) && ValidMoment(after)
    ensures Next(Read(e), after).At? <==>
      !(e.dom != "*" && e.dow == "*") || SomeYearlyDay(Read(e)) || LeapSlot(Read(e), after)
    ensures NoSkippedLeapDay(after) ==>
      (Next(Read(e), after).NeverFires? <==> e.dom != "*" && e.dow == "*" && !SomeRealDay(Read(e)))
  {
    ReadIsInRange(e);
    FiresIff(Read(e), after);
    if NoSkippedLeapDay(after) { NeverFiresIff(Read(e), after); }
  }

  /** Acceptance in terms of the field grammar, with the tables of names each field has. */
  lemma AcceptedIffFieldsWritten(e: Expr)
    ensures Accepted(e) <==>
      && Written(e.minute, 0, 59, NO_NAMES) && Written(e.hour, 0, 23, NO_NAMES) && Written(e.dom, 1, 31, NO_NAMES)
      && Written(e.month, 1, 12, MONTHS) && Written(e.dow, 0, 6, DOWS)
  {
    NameTablesAreLetters();
    AcceptedIffWritten(e.minute, 0, 59, NO_NAMES);
    AcceptedIffWritten(e.hour, 0, 23, NO_NAMES);
    AcceptedIffWritten(e.dom, 1, 31, NO_NAMES);
    AcceptedIffWritten(e.month, 1, 12, MONTHS);
    AcceptedIffWritten(e.dow, 0, 6, DOWS);
  }

  predicate IsNumber(text: string, low: int, high: int) { IsDigits(text) && low <= Num(text) <= high }

  /** Four numbers in range and a star: a time of one day of the year. */
  predicate OneDayOfTheYear(e: Expr) {
    && IsNumber(e.minute, 0, 59) && IsNumber(e.hour, 0, 23) && IsNumber(e.dom, 1, 31) && IsNumber(e.month, 1, 12)
    && e.dow == "*"
  }

  /** Such a text is accepted, and read as these numbers. */
  lemma OneDayIsRead(e: Expr)
    requires OneDayOfTheYear(e)
    ensures Accepted(e)
    ensures var t := Read(e);
      && t.minutes == {Num(e.minute)} && t.hours == {Num(e.hour)}
      && t.doms == {Num(e.dom)} && t.months == {Num(e.month)}
      && DomAlone(t)
  {
    NameTablesAreLetters();
    NumberField(e.minute, 0, 59, NO_NAMES);
    NumberField(e.hour, 0, 23, NO_NAMES);
    NumberField(e.dom, 1, 31, NO_NAMES);
    NumberField(e.month, 1, 12, MONTHS);
    StarField(0, 6, DOWS);
    assert e.dom != "*" by { assert e.dom[0] != '*'; }
  }

  /** Every text that asks for one time of 29 February gives up when started four years
      before a skipped century, on that 29 February past its time, although the 29 February
      four years after it matches. */
  lemma LeapDayGivesUp(e: Expr, c: int, after: Moment)
    requires OneDayOfTheYear(e) && Num(e.dom) == 29 && Num(e.month) == 2
    requires SkippedCentury(c) && ValidMoment(after) && after.date == LeapDay(c - 4)
    requires Num(e.hour) * 60 + Num(e.minute) <= after.hour * 60 + after.minute
    ensures Accepted(e) && Next(Read(e), after).NeverFires?
    ensures Matches(e, Moment(LeapDay(c + 4), Num(e.hour), Num(e.minute)))
  {
    OneDayIsRead(e);
    ReadIsInRange(e);
    CenturySkipGivesUp(Read(e), c, after, Num(e.hour), Num(e.minute));
    MatchesIsAllows(e, Moment(LeapDay(c + 4), Num(e.hour), Num(e.minute)));
  }

  /** So `0 0 29 2 *` gives up from any moment of 29 February 2096, with 2104 to come. */
  lemma LeapDay2096GivesUp(e: Expr, after: Moment)
    requires e == Expr("0", "0", "29", "2", "*") && ValidMoment(after) && after.date == LeapDay(2096)
    ensures Accepted(e) && Next(Read(e), after).NeverFires? && Matches(e, Moment(LeapDay(2104), 0, 0))
  {
    NumOf("0", 0);
    NumOf("2", 2);
    assert "29"[..1] == "2";
    NumOf("29", 29);
    LeapDayGivesUp(e, 2100, after);
  }

  lemma NumOf(text: string, n: nat)
    requires |text| > 0 && forall k :: 0 <= k < |text| ==> '0' <= text[k] <= '9'
    requires n == (if |text| == 1 then 0 else Num(text[..|text| - 1]) * 10) + (text[|text| - 1] as int - '0' as int)
    ensures IsDigits(text) && Num(text) == n
  {
    if |text| == 1 { assert text[..0] == ""; }
  }
}
