/** Schedules and how they roll forward: what is due, what a firing does, and what a
    whole history of ticks, pauses and restarts can and cannot do. Times are whole
    microseconds. */
module Schedules {
  import opened Payload
  import opened Calendar
  import opened CronTimes
  import opened Cron

  const MAX_SCHEDULES := 200
  const MIN_INTERVAL := 1_000_000

  datatype Row = Row(
    id: string, task: string,
    cron: Option<Expr>, interval: Option<int>, at: Option<int>,
    enabled: bool, maxRuns: Option<int>, runCount: nat, createdAt: int,
    lastRunAt: Option<int>, nextRunAt: Option<int>, lastError: string)

  /** Fired as often as it ever will. */
  predicate Exhausted(r: Row) {
    (r.at.Some? && r.runCount >= 1) || (r.maxRuns.Some? && r.runCount >= r.maxRuns.value)
  }

  datatype Computed = Time(t: int) | NeverRuns | NoTrigger

  /** The next slot counting from `now`: the cron trigger first, then the interval, then
      the single time. A bad field fails whichever minute the search reaches it at, since
      no minute matches before every field is parsed. */
  ghost function ComputeNext(r: Row, now: Instant): Computed {
    if r.cron.Some? then
      if !Accepted(r.cron.value) then NeverRuns else
      match Next(Read(r.cron.value), now.minute)
      case At(m) => Time(Micros(OnTheMinute(m)))
      case NeverFires => NeverRuns
    else if r.interval.Some? && r.interval.value != 0 then Time(Micros(now) + r.interval.value)
    else if r.at.Some? then Time(r.at.value)
    else NoTrigger
  }

  predicate Due(r: Row, now: Instant) {
    r.enabled && !Exhausted(r) && r.nextRunAt.Some? && r.nextRunAt.value <= Micros(now)
  }

  function Complaint(c: Computed): string {
    if c.NeverRuns? then "cron expression never fires" else "schedule has no trigger"
  }

  /** A firing recorded. */
  ghost function Fired(r: Row, now: Instant, error: string): Row {
    var counted := r.(runCount := r.runCount + 1, lastRunAt := Some(Micros(now)), lastError := error);
    if Exhausted(counted) then counted.(nextRunAt := None, enabled := false)
    else
      var next := ComputeNext(counted, now);
      if next.Time? then counted.(nextRunAt := Some(next.t))
      else counted.(nextRunAt := None, enabled := false, lastError := Complaint(next))
  }

  /** Paused or resumed. A resumed schedule without a slot gets one; where there is none
      to get the call fails with the schedule already marked enabled. */
  ghost function Switched(r: Row, on: bool, now: Instant): Row {
    var s := r.(enabled := on);
    if on && s.nextRunAt.None? && ComputeNext(s, now).Time? then s.(nextRunAt := Some(ComputeNext(s, now).t)) else s
  }

  /** Read back from disk. */
  ghost function Restored(r: Row, now: Instant): Row {
    if r.nextRunAt.None? && r.enabled && !Exhausted(r) then
      (if ComputeNext(r, now).Time? then r.(nextRunAt := Some(ComputeNext(r, now).t)) else r.(enabled := false))
    else r
  }

  /** What `parse_schedule` guarantees of the triggers and the limit. */
  predicate WellFormed(r: Row) {
    && (r.interval.Some? ==> r.interval.value >= MIN_INTERVAL)
    && (r.maxRuns.Some? ==> r.maxRuns.value >= 1)
  }

  predicate WithinLimits(r: Row) {
    && WellFormed(r)
    && (r.maxRuns.Some? ==> r.runCount <= r.maxRuns.value)
    && (r.at.Some? ==> r.runCount <= 1)
  }

  // ---- what is owed, and what a firing leaves -----------------------------------------

  /** It is to run: it is on, may run once more, and its slot has come. */
  predicate Owed(r: Row, now: Instant) {
    && r.enabled && r.nextRunAt.Some? && r.nextRunAt.value <= Micros(now)
    && (r.at.Some? ==> r.runCount == 0) && (r.maxRuns.Some? ==> r.runCount < r.maxRuns.value)
  }

  /** One run more is the last. */
  predicate LastRun(r: Row) {
    r.at.Some? || (r.maxRuns.Some? && r.maxRuns.value <= r.runCount + 1)
  }

  /** The first minute after `now`, and within the search, at which the expression fires. */
  ghost predicate FirstFiring(e: Expr, now: Instant, n: Moment)
    requires Accepted(e)
  {
    && ValidMoment(n) && FiresAt(e, n) && Ahead(now.minute, n)
    && forall m :: ValidMoment(m) && FiresAt(e, m) && Minutes(m) > Minutes(now.minute) ==> Minutes(n) <= Minutes(m)
  }

  /** The slot of a schedule, counted from `now`. */
  ghost predicate SlotIs(r: Row, now: Instant, t: int) {
    if r.cron.Some? then
      Accepted(r.cron.value) && exists n :: FirstFiring(r.cron.value, now, n) && t == Minutes(n) * 60 * 1_000_000
    else if r.interval.Some? && r.interval.value != 0 then t == Micros(now) + r.interval.value
    else r.at.Some? && t == r.at.value
  }

  lemma CronSlot(e: Expr, now: Instant, t: int)
    requires Accepted(e) && ValidInstant(now)
    ensures Next(Read(e), now.minute).At? && t == Micros(OnTheMinute(Next(Read(e), now.minute).moment))
      <==> exists n :: FirstFiring(e, now, n) && t == Minutes(n) * 60 * 1_000_000
  {
    NextOnTheCalendar(e, now);
    forall m ensures Minutes(m) > Minutes(now.minute) <==> Micros(OnTheMinute(m)) > Micros(now) {}
    match Next(Read(e), now.minute)
    case At(k) =>
      assert FirstFiring(e, now, k);
      forall n | FirstFiring(e, now, n) ensures Minutes(n) == Minutes(k) {}
    case NeverFires =>
      forall n ensures !FirstFiring(e, now, n) {}
  }

  lemma ComputedIsTheSlot(r: Row, now: Instant, t: int)
    requires ValidInstant(now)
    ensures ComputeNext(r, now) == Time(t) <==> SlotIs(r, now, t)
  {
    if r.cron.Some? && Accepted(r.cron.value) { CronSlot(r.cron.value, now, t); }
  }

  /** What a firing makes of a schedule: counted, and on for its next slot from now, if it has
      one and may run again. */
  ghost predicate MovesOn(r: Row, now: Instant, error: string, f: Row) {
    && f.runCount == r.runCount + 1 && f.lastRunAt == Some(Micros(now))
    && (forall t :: f.nextRunAt == Some(t) <==> !LastRun(r) && SlotIs(r, now, t))
    && (f.enabled <==> r.enabled && f.nextRunAt.Some?)
    && f.lastError == (if LastRun(r) || f.nextRunAt.Some? then error
                       else if r.cron.Some? then "cron expression never fires" else "schedule has no trigger")
    && SameTriggers(f, r) && f.id == r.id && f.task == r.task && f.createdAt == r.createdAt
  }

  /** A firing rolls the schedule forward from now, so that one missed slot or a thousand, it
      fires once: the next slot is strictly later, or the schedule is off for good, and an
      immediate second tick finds nothing. */
  lemma FiringMovesOn(r: Row, now: Instant, error: string)
    requires WellFormed(r) && Due(r, now) && ValidInstant(now)
    ensures var f := Fired(r, now, error);
      && MovesOn(r, now, error, f)
      && (f.enabled ==> f.nextRunAt.value > Micros(now))
      && (forall earlier :: Micros(earlier) <= Micros(now) ==> !Due(f, earlier))
  {
    var f := Fired(r, now, error);
    FiredMovesOn(r, now, error);
    if r.cron.Some? && Accepted(r.cron.value) { NextIsLeast(r.cron.value, now); }
  }

  lemma FiredMovesOn(r: Row, now: Instant, error: string)
    requires ValidInstant(now)
    ensures MovesOn(r, now, error, Fired(r, now, error))
  {
    var f := Fired(r, now, error);
    var counted := r.(runCount := r.runCount + 1, lastRunAt := Some(Micros(now)), lastError := error);
    assert Exhausted(counted) <==> LastRun(r);
    forall t ensures f.nextRunAt == Some(t) <==> !LastRun(r) && SlotIs(r, now, t) {
      ComputedIsTheSlot(counted, now, t);
      assert SlotIs(counted, now, t) <==> SlotIs(r, now, t);
    }
  }

  // ---- histories --------------------------------------------------------------------

  datatype Op =
    | Tick(now: Instant, error: string)
    | Switch(on: bool, now: Instant)
    | Restart(now: Instant)

  /** What one operation on the scheduler does to one of its schedules. */
  ghost function Apply(r: Row, op: Op): Row {
    match op
    case Tick(now, error) => if Due(r, now) then Fired(r, now, error) else r
    case Switch(on, now) => Switched(r, on, now)
    case Restart(now) => Restored(r, now)
  }

  ghost function After(r: Row, ops: seq<Op>): Row
    decreases |ops|
  {
    if ops == [] then r else Apply(After(r, ops[..|ops| - 1]), ops[|ops| - 1])
  }

  /** The times at which a schedule fired. */
  ghost function Firings(r: Row, ops: seq<Op>): seq<Instant>
    decreases |ops|
  {
    if ops == [] then []
    else
      var init, op := ops[..|ops| - 1], ops[|ops| - 1];
      Firings(r, init) + if op.Tick? && Due(After(r, init), op.now) then [op.now] else []
  }

  lemma ApplyKeeps(r: Row, op: Op)
    ensures var q := Apply(r, op);
      && q.(enabled := r.enabled, runCount := r.runCount, lastRunAt := r.lastRunAt,
            nextRunAt := r.nextRunAt, lastError := r.lastError) == r
      && (WithinLimits(r) ==> WithinLimits(q))
      && q.runCount == r.runCount + (if op.Tick? && Due(r, op.now) then 1 else 0)
  {
  }

  /** Over any history, whatever the clock shows, the run count is the number of firings
      and stays within the limit; a one-shot fires at most once. */
  lemma {:induction false} LimitsHold(r: Row, ops: seq<Op>)
    requires WithinLimits(r)
    ensures var q := After(r, ops);
      && WithinLimits(q) && q.maxRuns == r.maxRuns && q.at == r.at
      && q.runCount == r.runCount + |Firings(r, ops)|
      && (r.maxRuns.Some? ==> |Firings(r, ops)| <= r.maxRuns.value - r.runCount)
      && (r.at.Some? ==> |Firings(r, ops)| <= 1 - r.runCount)
    decreases |ops|
  {
    if ops != [] {
      var init := ops[..|ops| - 1];
      LimitsHold(r, init);
      ApplyKeeps(After(r, init), ops[|ops| - 1]);
    }
  }

  predicate ClockForward(ops: seq<Op>) {
    && (forall i :: 0 <= i < |ops| ==> ValidInstant(ops[i].now))
    && (forall i, j :: 0 <= i < j < |ops| ==> Micros(ops[i].now) <= Micros(ops[j].now))
  }

  /** `t` is a slot of the trigger after `last`: a matching minute, or a whole interval
      away. */
  ghost predicate SlotAfter(r: Row, last: Instant, t: int) {
    if r.cron.Some? then
      Accepted(r.cron.value) && exists m ::
        ValidMoment(m) && Matches(r.cron.value, m) && Micros(last) < Micros(OnTheMinute(m)) == t
    else r.interval.Some? ==> t >= Micros(last) + r.interval.value
  }

  /** Two firings have a slot of their own between them. */
  ghost predicate OwnSlot(r: Row, a: Instant, b: Instant) {
    Micros(a) < Micros(b) && exists t :: SlotAfter(r, a, t) && Micros(a) < t <= Micros(b)
  }

  lemma ComputedIsASlot(r: Row, last: Instant, now: Instant)
    requires WellFormed(r) && ValidInstant(now) && Micros(last) <= Micros(now)
    requires ComputeNext(r, now).Time? && (r.cron.Some? || r.interval.Some?)
    ensures SlotAfter(r, last, ComputeNext(r, now).t) && ComputeNext(r, now).t > Micros(last)
  {
    if r.cron.Some? && Accepted(r.cron.value) { NextIsLeast(r.cron.value, now); }
  }

  /** While a schedule that has fired can fire again, its next slot lies after its last
      firing. */
  ghost predicate Awaiting(r: Row, last: Instant) {
    r.runCount >= 1 && (!Exhausted(r) && r.nextRunAt.Some? && (r.cron.Some? || r.interval.Some?) ==>
      SlotAfter(r, last, r.nextRunAt.value) && r.nextRunAt.value > Micros(last))
  }

  /** Where the slot of a schedule comes from. */
  lemma SlotIsKeptOrComputed(r: Row, op: Op)
    ensures var q := Apply(r, op);
      || q.nextRunAt.None?
      || (q.nextRunAt == r.nextRunAt && !(op.Tick? && Due(r, op.now)))
      || (ComputeNext(r, op.now).Time? && q.nextRunAt == Some(ComputeNext(r, op.now).t))
  {
  }

  lemma SlotsDependOnTriggers(q: Row, r: Row, last: Instant, t: int)
    requires q.cron == r.cron && q.interval == r.interval && SlotAfter(r, last, t)
    ensures SlotAfter(q, last, t)
  {
  }

  lemma ApplyKeepsAwaiting(r: Row, op: Op, last: Instant)
    requires WellFormed(r) && ValidInstant(op.now) && Micros(last) <= Micros(op.now)
    requires if op.Tick? && Due(r, op.now) then last == op.now else Awaiting(r, last)
    ensures Awaiting(Apply(r, op), last)
  {
    var q := Apply(r, op);
    ApplyKeeps(r, op);
    SlotIsKeptOrComputed(r, op);
    if !Exhausted(q) && q.nextRunAt.Some? && (q.cron.Some? || q.interval.Some?) {
      var t := q.nextRunAt.value;
      if q.nextRunAt != r.nextRunAt || (op.Tick? && Due(r, op.now)) {
        ComputedIsASlot(r, last, op.now);
      }
      SlotsDependOnTriggers(q, r, last, t);
    }
  }

  predicate HasTrigger(r: Row) { r.cron.Some? || r.interval.Some? || r.at.Some? }

  ghost predicate Spaced(r: Row, f: seq<Instant>) {
    forall i :: 0 <= i < |f| - 1 ==> OwnSlot(r, f[i], f[i + 1])
  }

  lemma FiringHasItsSlot(r: Row, mid: Row, last: Instant, now: Instant)
    requires HasTrigger(mid) && Awaiting(mid, last) && Due(mid, now)
    requires mid.cron == r.cron && mid.interval == r.interval
    ensures OwnSlot(r, last, now)
  {
    SlotsDependOnTriggers(r, mid, last, mid.nextRunAt.value);
  }

  lemma ClockForwardInit(ops: seq<Op>)
    requires ClockForward(ops) && ops != []
    ensures ClockForward(ops[..|ops| - 1]) && ValidInstant(ops[|ops| - 1].now)
    ensures |ops| > 1 ==> Micros(ops[|ops| - 2].now) <= Micros(ops[|ops| - 1].now)
  {
  }

  predicate SameTriggers(q: Row, r: Row) {
    q.cron == r.cron && q.interval == r.interval && q.at == r.at && q.maxRuns == r.maxRuns
  }

  lemma {:induction false} TriggersStay(r: Row, ops: seq<Op>)
    ensures SameTriggers(After(r, ops), r)
    decreases |ops|
  {
    if ops != [] {
      TriggersStay(r, ops[..|ops| - 1]);
      ApplyKeeps(After(r, ops[..|ops| - 1]), ops[|ops| - 1]);
    }
  }

  /** After the last firing of a history. */
  ghost predicate AfterLast(q: Row, f: seq<Instant>, ops: seq<Op>) {
    f != [] ==> ops != [] && Awaiting(q, f[|f| - 1]) && Micros(f[|f| - 1]) <= Micros(ops[|ops| - 1].now)
  }

  lemma AfterLastStep(mid: Row, f: seq<Instant>, ops: seq<Op>)
    requires WellFormed(mid) && ClockForward(ops) && ops != []
    requires AfterLast(mid, f, ops[..|ops| - 1])
    ensures
      var op := ops[|ops| - 1];
      AfterLast(Apply(mid, op), f + (if op.Tick? && Due(mid, op.now) then [op.now] else []), ops)
  {
    var op := ops[|ops| - 1];
    ClockForwardInit(ops);
    if op.Tick? && Due(mid, op.now) {
      ApplyKeepsAwaiting(mid, op, op.now);
    } else if f != [] {
      assert ops[..|ops| - 1][|ops| - 2] == ops[|ops| - 2];
      ApplyKeepsAwaiting(mid, op, f[|f| - 1]);
    }
  }

  lemma {:induction false} AwaitingAfterLast(r: Row, ops: seq<Op>)
    requires WellFormed(r) && ClockForward(ops)
    ensures AfterLast(After(r, ops), Firings(r, ops), ops)
    decreases |ops|
  {
    if ops != [] {
      var init := ops[..|ops| - 1];
      ClockForwardInit(ops);
      AwaitingAfterLast(r, init);
      TriggersStay(r, init);
      AfterLastStep(After(r, init), Firings(r, init), ops);
    }
  }

  lemma SpacedPush(r: Row, f: seq<Instant>, now: Instant)
    requires Spaced(r, f) && (f != [] ==> OwnSlot(r, f[|f| - 1], now))
    ensures Spaced(r, f + [now])
  {
  }

  /** With a clock that does not go back, firings are strictly in order, an interval
      apart, and no cron minute is answered twice, through any pauses and restarts. */
  lemma {:induction false} FiringsAreSpaced(r: Row, ops: seq<Op>)
    requires WellFormed(r) && HasTrigger(r) && ClockForward(ops)
    ensures Spaced(r, Firings(r, ops))
    decreases |ops|
  {
    if ops != [] {
      var init, op := ops[..|ops| - 1], ops[|ops| - 1];
      ClockForwardInit(ops);
      FiringsAreSpaced(r, init);
      AwaitingAfterLast(r, init);
      TriggersStay(r, init);
      var mid, f := After(r, init), Firings(r, init);
      if op.Tick? && Due(mid, op.now) {
        if f != [] { FiringHasItsSlot(r, mid, f[|f| - 1], op.now); }
        SpacedPush(r, f, op.now);
      }
    }
  }
}
