/** The scheduler: a table of schedule objects updated in place, and their form on disk. */
module Scheduler {
  import opened Payload
  import opened Calendar
  import opened CronTimes
  import opened Cron
  import opened Schedules
  import opened ScheduleTable

  // ---- on disk ----------------------------------------------------------------------

  datatype Field =
    | Nothing
    | Str(text: string)
    | CronLine(expr: Expr)
    | Number(n: int)
    | Flag(b: bool)

  /** The keys, each spelled as the field it names. */
  datatype Name =
    | Id | TaskOf | CronKey | IntervalSeconds | AtKey | Enabled | MaxRuns | RunCount
    | CreatedAt | LastRunAt | NextRunAt | LastError | ExhaustedKey

  datatype Key = Known(name: Name) | Unknown(text: string)

  type Record = map<Key, Field>

  function OfNumber(o: Option<int>): Field { if o.Some? then Number(o.value) else Nothing }
  function OfCron(o: Option<Expr>): Field { if o.Some? then CronLine(o.value) else Nothing }

  function FieldOf(r: Row, name: Name): Field {
    match name
    case Id => Str(r.id)
    case TaskOf => Str(r.task)
    case CronKey => OfCron(r.cron)
    case IntervalSeconds => OfNumber(r.interval)
    case AtKey => OfNumber(r.at)
    case Enabled => Flag(r.enabled)
    case MaxRuns => OfNumber(r.maxRuns)
    case RunCount => Number(r.runCount)
    case CreatedAt => Number(r.createdAt)
    case LastRunAt => OfNumber(r.lastRunAt)
    case NextRunAt => OfNumber(r.nextRunAt)
    case LastError => Str(r.lastError)
    case ExhaustedKey => Flag(Exhausted(r))
  }

  /** `to_dict`. */
  function ToDict(r: Row): Record { map n: Name | true :: Known(n) := FieldOf(r, n) }

  /** A known key, or its default. */
  function Get(d: Record, name: Name, default: Field): Field {
    if Known(name) in d then d[Known(name)] else default
  }

  function ToNumber(f: Field): Option<int> { if f.Number? then Some(f.n) else None }
  function ToCron(f: Field): Option<Expr> { if f.CronLine? then Some(f.expr) else None }

  predicate IsNumber(f: Field) { f.Nothing? || f.Number? }

  predicate NumbersReadable(d: Record) {
    && IsNumber(Get(d, IntervalSeconds, Nothing)) && IsNumber(Get(d, AtKey, Nothing))
    && IsNumber(Get(d, MaxRuns, Nothing))
    && IsNumber(Get(d, LastRunAt, Nothing)) && IsNumber(Get(d, NextRunAt, Nothing))
    && Get(d, CreatedAt, Number(0)).Number?
    && Get(d, RunCount, Number(0)).Number? && Get(d, RunCount, Number(0)).n >= 0
  }

  predicate TextsReadable(d: Record) {
    && Get(d, Id, Nothing).Str? && Get(d, TaskOf, Nothing).Str? && Get(d, LastError, Str("")).Str?
    && (Get(d, CronKey, Nothing).Nothing? || Get(d, CronKey, Nothing).CronLine?)
    && Get(d, Enabled, Flag(true)).Flag?
  }

  /** Each known key holds what `to_dict` writes there; the id and the task have no
      default. */
  predicate Readable(d: Record) { NumbersReadable(d) && TextsReadable(d) }

  /** `from_dict`: known keys only, with the defaults of the missing ones. */
  function FromDict(d: Record, clock: int): Option<Row> {
    if !Readable(d) then None
    else Some(Row(
      Get(d, Id, Nothing).text, Get(d, TaskOf, Nothing).text, ToCron(Get(d, CronKey, Nothing)),
      ToNumber(Get(d, IntervalSeconds, Nothing)), ToNumber(Get(d, AtKey, Nothing)),
      Get(d, Enabled, Flag(true)).b, ToNumber(Get(d, MaxRuns, Nothing)),
      Get(d, RunCount, Number(0)).n, (if Known(CreatedAt) in d then d[Known(CreatedAt)].n else clock),
      ToNumber(Get(d, LastRunAt, Nothing)), ToNumber(Get(d, NextRunAt, Nothing)),
      Get(d, LastError, Str("")).text))
  }

  /** A record that holds every field of a row, and perhaps more, gives the row back. */
  ghost predicate Holds(d: Record, r: Row) {
    forall n: Name {:trigger HoldsAt(d, r, n)} :: n.ExhaustedKey? || HoldsAt(d, r, n)
  }

  predicate HoldsAt(d: Record, r: Row, n: Name) { Known(n) in d && d[Known(n)] == FieldOf(r, n) }

  lemma HoldsNumber(d: Record, r: Row, n: Name)
    requires Holds(d, r) && n in {IntervalSeconds, AtKey, MaxRuns, LastRunAt, NextRunAt}
    ensures IsNumber(Get(d, n, Nothing))
  {
    assert HoldsAt(d, r, n);
  }

  lemma HoldsNumbers(d: Record, r: Row)
    requires Holds(d, r)
    ensures NumbersReadable(d)
  {
    HoldsNumber(d, r, IntervalSeconds);
    HoldsNumber(d, r, AtKey);
    HoldsNumber(d, r, MaxRuns);
    HoldsNumber(d, r, LastRunAt);
    HoldsNumber(d, r, NextRunAt);
    assert HoldsAt(d, r, CreatedAt) && HoldsAt(d, r, RunCount);
  }

  lemma HoldsTexts(d: Record, r: Row)
    requires Holds(d, r)
    ensures TextsReadable(d)
  {
    assert HoldsAt(d, r, Id) && HoldsAt(d, r, TaskOf) && HoldsAt(d, r, LastError);
    assert HoldsAt(d, r, CronKey) && HoldsAt(d, r, Enabled);
  }

  lemma HoldsTriggers(d: Record, r: Row)
    requires Holds(d, r) && Readable(d)
    ensures ToCron(Get(d, CronKey, Nothing)) == r.cron && ToNumber(Get(d, IntervalSeconds, Nothing)) == r.interval
    ensures ToNumber(Get(d, AtKey, Nothing)) == r.at && ToNumber(Get(d, MaxRuns, Nothing)) == r.maxRuns
  {
    assert HoldsAt(d, r, CronKey) && HoldsAt(d, r, IntervalSeconds) && HoldsAt(d, r, AtKey) && HoldsAt(d, r, MaxRuns);
  }

  lemma HoldsTimes(d: Record, r: Row)
    requires Holds(d, r) && Readable(d)
    ensures ToNumber(Get(d, LastRunAt, Nothing)) == r.lastRunAt && ToNumber(Get(d, NextRunAt, Nothing)) == r.nextRunAt
    ensures Known(CreatedAt) in d && d[Known(CreatedAt)].n == r.createdAt && Get(d, RunCount, Number(0)).n == r.runCount
  {
    assert HoldsAt(d, r, LastRunAt) && HoldsAt(d, r, NextRunAt) && HoldsAt(d, r, CreatedAt) && HoldsAt(d, r, RunCount);
  }

  lemma HoldsGivesRow(d: Record, r: Row, clock: int)
    requires Holds(d, r) && Readable(d)
    ensures FromDict(d, clock) == Some(r)
  {
    HoldsTriggers(d, r);
    HoldsTimes(d, r);
    assert HoldsAt(d, r, Id) && HoldsAt(d, r, TaskOf) && HoldsAt(d, r, Enabled) && HoldsAt(d, r, LastError);
  }

  /** What is written is read back, whatever other keys were added to it, and whatever
      the derived one was changed to. */
  lemma RowRoundTrip(r: Row, extra: Record, clock: int)
    requires forall k :: k in extra ==> k.Unknown? || k.name.ExhaustedKey?
    ensures FromDict(ToDict(r) + extra, clock) == Some(r)
  {
    var d := ToDict(r) + extra;
    forall n: Name ensures n.ExhaustedKey? || HoldsAt(d, r, n) {
      assert Known(n) in ToDict(r);
    }
    HoldsNumbers(d, r);
    HoldsTexts(d, r);
    HoldsGivesRow(d, r, clock);
  }

  /** The derived key says whether the schedule will never fire again. */
  lemma ExhaustedIsWritten(r: Row)
    ensures ToDict(r)[Known(ExhaustedKey)]
      == Flag((r.at.Some? && r.runCount > 0) || (r.maxRuns.Some? && r.maxRuns.value <= r.runCount))
  {
  }

  /** Part of what was written. */
  ghost predicate PartOf(d: Record, r: Row) {
    forall n: Name {:trigger HoldsAt(d, r, n)} :: Known(n) in d ==> HoldsAt(d, r, n)
  }

  lemma PartIsReadable(d: Record, r: Row)
    requires PartOf(d, r) && Known(Id) in d && Known(TaskOf) in d
    ensures Readable(d)
  {
    PartNumbers(d, r);
    assert HoldsAt(d, r, Id) && HoldsAt(d, r, TaskOf);
    assert Known(LastError) in d ==> HoldsAt(d, r, LastError);
    assert Known(CronKey) in d ==> HoldsAt(d, r, CronKey);
    assert Known(Enabled) in d ==> HoldsAt(d, r, Enabled);
  }

  lemma PartNumber(d: Record, r: Row, n: Name, o: Option<int>)
    requires PartOf(d, r) && FieldOf(r, n) == OfNumber(o)
    ensures IsNumber(Get(d, n, Nothing)) && ToNumber(Get(d, n, Nothing)) == if Known(n) in d then o else None
  {
    assert Known(n) in d ==> HoldsAt(d, r, n);
  }

  lemma PartNumbers(d: Record, r: Row)
    requires PartOf(d, r)
    ensures NumbersReadable(d)
  {
    PartNumber(d, r, IntervalSeconds, r.interval);
    PartNumber(d, r, AtKey, r.at);
    PartNumber(d, r, MaxRuns, r.maxRuns);
    PartNumber(d, r, LastRunAt, r.lastRunAt);
    PartNumber(d, r, NextRunAt, r.nextRunAt);
    assert Known(CreatedAt) in d ==> HoldsAt(d, r, CreatedAt);
    assert Known(RunCount) in d ==> HoldsAt(d, r, RunCount);
  }

  /** Some of the keys of what was written read as they were, and the missing ones as their
      defaults; without the id or the task there is no schedule. */
  lemma MissingKeysAreDefaults(r: Row, d: Record, clock: int)
    requires PartOf(d, r)
    ensures FromDict(d, clock).Some? <==> Known(Id) in d && Known(TaskOf) in d
    ensures FromDict(d, clock).Some? ==> var q := FromDict(d, clock).value;
      && q.id == r.id && q.task == r.task
      && q.cron == (if Known(CronKey) in d then r.cron else None)
      && q.interval == (if Known(IntervalSeconds) in d then r.interval else None)
      && q.at == (if Known(AtKey) in d then r.at else None)
      && q.enabled == (if Known(Enabled) in d then r.enabled else true)
      && q.maxRuns == (if Known(MaxRuns) in d then r.maxRuns else None)
      && q.runCount == (if Known(RunCount) in d then r.runCount else 0)
      && q.createdAt == (if Known(CreatedAt) in d then r.createdAt else clock)
      && q.lastRunAt == (if Known(LastRunAt) in d then r.lastRunAt else None)
      && q.nextRunAt == (if Known(NextRunAt) in d then r.nextRunAt else None)
      && q.lastError == (if Known(LastError) in d then r.lastError else "")
  {
    if Known(Id) in d && Known(TaskOf) in d {
      PartIsReadable(d, r);
      PartTimes(d, r, clock);
      PartNumber(d, r, IntervalSeconds, r.interval);
      PartNumber(d, r, AtKey, r.at);
      PartNumber(d, r, MaxRuns, r.maxRuns);
      assert HoldsAt(d, r, Id) && HoldsAt(d, r, TaskOf);
      assert Known(CronKey) in d ==> HoldsAt(d, r, CronKey);
      assert Known(Enabled) in d ==> HoldsAt(d, r, Enabled);
      assert Known(LastError) in d ==> HoldsAt(d, r, LastError);
    }
  }

  lemma PartTimes(d: Record, r: Row, clock: int)
    requires PartOf(d, r) && Readable(d)
    ensures var q := FromDict(d, clock).value;
      && q.runCount == (if Known(RunCount) in d then r.runCount else 0)
      && q.createdAt == (if Known(CreatedAt) in d then r.createdAt else clock)
      && q.lastRunAt == (if Known(LastRunAt) in d then r.lastRunAt else None)
      && q.nextRunAt == (if Known(NextRunAt) in d then r.nextRunAt else None)
  {
    PartNumber(d, r, LastRunAt, r.lastRunAt);
    PartNumber(d, r, NextRunAt, r.nextRunAt);
    assert Known(CreatedAt) in d ==> HoldsAt(d, r, CreatedAt);
    assert Known(RunCount) in d ==> HoldsAt(d, r, RunCount);
  }

  // ---- requests ---------------------------------------------------------------------

  datatype Reject =
    | NoTask | NoTriggers | ManyTriggers | BadCron | ShortInterval | BadLimit | CronNeverFires

  datatype Parsed = Good(row: Row) | Bad(why: Reject)

  function Triggers(cron: Option<seq<string>>, interval: Option<int>, at: Option<int>): nat {
    (if cron.Some? then 1 else 0) + (if interval.Some? then 1 else 0) + (if at.Some? then 1 else 0)
  }

  /** `parse_schedule`, on the words of the cron text and numbers already read. */
  method ParseSchedule(id: string, task: string, hasKind: bool, cron: Option<seq<string>>, interval: Option<int>,
                       at: Option<int>, enabled: bool, maxRuns: Option<int>, now: Instant)
    returns (p: Parsed)
    requires ValidInstant(now)
    ensures p.Bad? && p.why.NoTask? <==> !hasKind
    ensures p.Good? <==> Usable(hasKind, cron, interval, at, maxRuns) && (cron.Some? ==> FiresAfter(cron.value, now))
    ensures p == Bad(NoTriggers) <==> hasKind && cron.None? && interval.None? && at.None?
    ensures p == Bad(ManyTriggers) <==>
      hasKind && !OneTrigger(cron, interval, at) && (cron.Some? || interval.Some? || at.Some?)
    ensures p == Bad(BadCron) <==>
      hasKind && OneTrigger(cron, interval, at) && cron.Some? && !CronWords(cron.value)
    ensures p == Bad(ShortInterval) <==>
      hasKind && OneTrigger(cron, interval, at) && interval.Some? && interval.value < 1_000_000
    ensures p == Bad(CronNeverFires) <==>
      Usable(hasKind, cron, interval, at, maxRuns) && cron.Some? && !FiresAfter(cron.value, now)
    ensures p.Good? ==> WithinLimits(p.row) && p.row.runCount == 0 && p.row.lastRunAt.None? && p.row.lastError == ""
    ensures p.Good? ==>
      p.row.interval == interval && p.row.at == at && p.row.maxRuns == maxRuns && p.row.enabled == enabled
      && p.row.id == id && p.row.task == task && p.row.createdAt == Micros(now)
    ensures p.Good? ==> (p.row.cron.Some? <==> cron.Some?)
    ensures p.Good? && cron.Some? ==> cron.value == WordsOf(p.row.cron.value)
    ensures p.Good? ==> p.row.nextRunAt.Some? && SlotIs(p.row, now, p.row.nextRunAt.value)
    ensures p.Good? && p.row.at.None? ==> p.row.nextRunAt.value > Micros(now)
    ensures p.Good? ==> HasTrigger(p.row) && !Exhausted(p.row)
  {
    if !hasKind { return Bad(NoTask); }
    var triggers := Triggers(cron, interval, at);
    if triggers == 0 { return Bad(NoTriggers); }
    if triggers > 1 { return Bad(ManyTriggers); }
    var ok, expr := ReadCron(cron);
    if !ok { return Bad(BadCron); }
    if interval.Some? && interval.value < MIN_INTERVAL { return Bad(ShortInterval); }
    if maxRuns.Some? && maxRuns.value < 1 { return Bad(BadLimit); }
    var row := Row(id, task, expr, interval, at, enabled, maxRuns, 0, Micros(now), None, None, "");
    var next := NextSlot(row, now);
    if !next.Time? { return Bad(CronNeverFires); }
    p := Good(row.(nextRunAt := Some(next.t)));
    FirstSlotIsAhead(p.row, now);
    ComputedIsTheSlot(row, now, next.t);
    assert SlotIs(p.row, now, next.t) <==> SlotIs(row, now, next.t);
  }

  lemma FirstSlotIsAhead(r: Row, now: Instant)
    requires ValidInstant(now) && WellFormed(r) && HasTrigger(r)
    ensures r.at.None? && ComputeNext(r, now).Time? ==> ComputeNext(r, now).t > Micros(now)
  {
    if r.at.None? && r.cron.Some? && Accepted(r.cron.value) { NextIsLeast(r.cron.value, now); }
  }

  function ExprOf(words: seq<string>): Expr
    requires |words| == 5
  {
    Expr(words[0], words[1], words[2], words[3], words[4])
  }

  predicate CronWords(words: seq<string>) { |words| == 5 && Accepted(ExprOf(words)) }

  /** The search from `now` finds a minute. */
  ghost predicate FiresAfter(words: seq<string>, now: Instant)
    requires CronWords(words)
  {
    Next(Read(ExprOf(words)), now.minute).At?
  }

  predicate OneTrigger(cron: Option<seq<string>>, interval: Option<int>, at: Option<int>) {
    || (cron.Some? && interval.None? && at.None?)
    || (cron.None? && interval.Some? && at.None?)
    || (cron.None? && interval.None? && at.Some?)
  }

  /** What a request must satisfy before its first slot is looked for. */
  predicate Usable(hasKind: bool, cron: Option<seq<string>>, interval: Option<int>, at: Option<int>,
      maxRuns: Option<int>)
  {
    && hasKind && OneTrigger(cron, interval, at) && (cron.Some? ==> CronWords(cron.value))
    && (interval.Some? ==> interval.value >= 1_000_000) && (maxRuns.Some? ==> maxRuns.value >= 1)
  }

  method ReadCron(words: Option<seq<string>>) returns (ok: bool, expr: Option<Expr>)
    ensures ok <==> words.Some? ==> CronWords(words.value)
    ensures ok && words.Some? ==> expr == Some(ExprOf(words.value)) && WordsOf(expr.value) == words.value
    ensures words.None? ==> ok && expr.None?
  {
    if words.None? { return true, None; }
    var v := ValidateCron(words.value);
    if !v.Valid? { return false, None; }
    FiveWords(words.value);
    ok, expr := true, Some(v.e);
  }

  lemma FiveWords(words: seq<string>)
    requires |words| == 5
    ensures WordsOf(ExprOf(words)) == words
  {
  }

  function WordsOf(e: Expr): seq<string> { [e.minute, e.hour, e.dom, e.month, e.dow] }

  /** `compute_next_run`. */
  method NextSlot(r: Row, now: Instant) returns (c: Computed)
    requires ValidInstant(now)
    ensures c == ComputeNext(r, now)
  {
    if r.cron.Some? {
      if !Accepted(r.cron.value) { return NeverRuns; }
      var n := NextCronTime(r.cron.value, now);
      return if n.At? then Time(Micros(OnTheMinute(n.moment))) else NeverRuns;
    }
    if r.interval.Some? && r.interval.value != 0 { return Time(Micros(now) + r.interval.value); }
    if r.at.Some? { return Time(r.at.value); }
    c := NoTrigger;
  }

  // ---- the table --------------------------------------------------------------------

  class Schedule {
    const id: string
    const task: string
    const cron: Option<Expr>
    const interval: Option<int>
    const at: Option<int>
    const maxRuns: Option<int>
    const createdAt: int
    var enabled: bool
    var runCount: nat
    var lastRunAt: Option<int>
    var nextRunAt: Option<int>
    var lastError: string

    constructor (r: Row)
      ensures Row() == r
    {
      id, task, cron, interval, at := r.id, r.task, r.cron, r.interval, r.at;
      maxRuns, createdAt, enabled, runCount := r.maxRuns, r.createdAt, r.enabled, r.runCount;
      lastRunAt, nextRunAt, lastError := r.lastRunAt, r.nextRunAt, r.lastError;
    }

    function Row(): Row
      reads this
    {
      Schedules.Row(id, task, cron, interval, at, enabled, maxRuns, runCount, createdAt, lastRunAt, nextRunAt,
        lastError)
    }
  }

  lemma SoonestExists(ids: set<string>, slot: map<string, int>) returns (s: string)
    requires ids != {} && ids <= slot.Keys
    ensures s in ids && forall k :: k in ids ==> slot[s] <= slot[k]
    decreases |ids|
  {
    s :| s in ids;
    var rest := ids - {s};
    if rest == {} {
      assert ids == {s};
    } else {
      var t := SoonestExists(rest, slot);
      if slot[t] < slot[s] { s := t; }
      forall k | k in ids ensures slot[s] <= slot[k] { assert k in rest || k !in rest; }
    }
  }

  /** `sorted(..., key=next_run_at)`; how ties fall is not determined. */
  method SoonestFirst(slot: map<string, int>) returns (order: seq<string>)
    ensures forall k :: k in order <==> k in slot
    ensures forall i, j :: 0 <= i < j < |order| ==> order[i] != order[j] && slot[order[i]] <= slot[order[j]]
  {
    order := [];
    var rest := slot.Keys;
    while rest != {}
      invariant rest <= slot.Keys
      invariant forall k :: k in slot <==> k in order || k in rest
      invariant forall i :: 0 <= i < |order| ==> order[i] !in rest
      invariant forall i, k :: 0 <= i < |order| && k in rest ==> slot[order[i]] <= slot[k]
      invariant forall i, j :: 0 <= i < j < |order| ==> order[i] != order[j] && slot[order[i]] <= slot[order[j]]
      decreases |rest|
    {
      ghost var soonest := SoonestExists(rest, slot);
      var s :| s in rest && forall k :: k in rest ==> slot[s] <= slot[k];
      order := order + [s];
      rest := rest - {s};
    }
  }

  lemma TickedIs(rows: map<string, Row>, after: map<string, Row>, fired: seq<string>, now: Instant,
      fails: string -> string)
    requires after.Keys == rows.Keys
    requires forall k :: k in fired <==> k in rows && Schedules.Due(rows[k], now)
    requires forall k :: k in rows ==> after[k] == if k in fired then Fired(rows[k], now, fails(k)) else rows[k]
    ensures after == Ticked(rows, now, fails)
  {
  }

  lemma OneChanged(rows: map<string, Row>, after: map<string, Row>, id: string)
    requires id in rows && after.Keys == rows.Keys
    requires forall k :: k in rows && k != id ==> after[k] == rows[k]
    ensures after == rows[id := after[id]]
  {
  }

  // ---- the file of schedules ----------------------------------------------------------

  /** What stands in the file: nothing that can be read, no list, or a list of records. */
  datatype File = Missing | NotAList | Listed(items: seq<Record>)

  function ItemsOf(file: File): seq<Record> { if file.Listed? then file.items else [] }

  /** The rows of the readable records, a later one replacing an earlier one of its id. */
  ghost function Loaded(items: seq<Record>, now: Instant, clock: int): Table
    decreases |items|
  {
    if items == [] then map[]
    else WithRecord(Loaded(items[..|items| - 1], now, clock), items[|items| - 1], now, clock)
  }

  ghost function WithRecord(rows: Table, item: Record, now: Instant, clock: int): Table {
    match FromDict(item, clock)
    case None => rows
    case Some(r) => rows[r.id := Restored(r, now)]
  }

  /** What `save` writes, in some order of the ids. */
  function Saved(rows: Table, order: seq<string>): seq<Record>
    requires forall k <- order :: k in rows
  {
    seq(|order|, i requires 0 <= i < |order| => ToDict(rows[order[i]]))
  }

  lemma ToDictReads(r: Row, clock: int)
    ensures FromDict(ToDict(r), clock) == Some(r)
  {
    var none: Record := map[];
    RowRoundTrip(r, none, clock);
    assert ToDict(r) + none == ToDict(r);
  }

  lemma SavedPush(rows: Table, init: seq<string>, last: string)
    requires (forall x <- init :: x in rows) && last in rows
    ensures Saved(rows, init + [last]) == Saved(rows, init) + [ToDict(rows[last])]
  {
  }

  lemma LoadedPush(items: seq<Record>, r: Row, now: Instant, clock: int)
    ensures Loaded(items + [ToDict(r)], now, clock) == Loaded(items, now, clock)[r.id := Restored(r, now)]
  {
    var all := items + [ToDict(r)];
    ToDictReads(r, clock);
    assert all[..|all| - 1] == items;
  }

  lemma {:induction false} LoadedSoFar(rows: Table, order: seq<string>, now: Instant, clock: int, k: string)
    requires (forall x <- order :: x in rows) && forall x <- rows :: rows[x].id == x
    ensures var t := Loaded(Saved(rows, order), now, clock);
      (k in t <==> k in order) && (k in order ==> t[k] == Apply(rows[k], Restart(now)))
    decreases |order|
  {
    if order != [] {
      var init, last := order[..|order| - 1], order[|order| - 1];
      LoadedSoFar(rows, init, now, clock, k);
      assert order == init + [last];
      SavedPush(rows, init, last);
      LoadedPush(Saved(rows, init), rows[last], now, clock);
    }
  }

  /** Loading what was saved restores every row, and no other. */
  lemma SavedThenLoaded(rows: Table, order: seq<string>, now: Instant, clock: int)
    requires (forall k :: k in order <==> k in rows) && forall k <- rows :: rows[k].id == k
    ensures Loaded(Saved(rows, order), now, clock) == Reloaded(rows, now)
  {
    var t := Loaded(Saved(rows, order), now, clock);
    forall k ensures (k in t <==> k in rows) && (k in rows ==> t[k] == Apply(rows[k], Restart(now))) {
      LoadedSoFar(rows, order, now, clock, k);
    }
  }

  function RowsIn(schedules: map<string, Schedule>): Table
    reads schedules.Values
  {
    map k | k in schedules :: schedules[k].Row()
  }

  lemma RowsInPut(schedules: map<string, Schedule>, s: Schedule)
    ensures RowsIn(schedules[s.id := s]) == RowsIn(schedules)[s.id := s.Row()]
  {
  }

  lemma RowsInSize(schedules: map<string, Schedule>)
    ensures |RowsIn(schedules)| == |schedules|
  {
    assert RowsIn(schedules).Keys == schedules.Keys;
    assert |RowsIn(schedules).Keys| == |schedules.Keys|;
  }

  lemma LoadedOneMore(items: seq<Record>, i: nat, now: Instant, clock: int)
    requires i < |items|
    ensures Loaded(items[..i + 1], now, clock) == WithRecord(Loaded(items[..i], now, clock), items[i], now, clock)
  {
    assert items[..i + 1][..i] == items[..i];
  }

  class Scheduler {
    var schedules: map<string, Schedule>

    ghost predicate Valid()
      reads this
    {
      forall k :: k in schedules ==> schedules[k].id == k
    }

    function Rows(): Table
      reads this, schedules.Values
    {
      RowsIn(schedules)
    }

    constructor ()
      ensures Valid() && schedules == map[]
    {
      schedules := map[];
    }

    /** Registers a schedule, replacing one with the same id; a new one only while there
        is room. */
    method Add(s: Schedule) returns (ok: bool)
      requires Valid()
      modifies this
      ensures Valid()
      ensures ok <==> s.id in old(schedules) || |old(schedules)| < 200
      ensures schedules == if ok then old(schedules)[s.id := s] else old(schedules)
      ensures Rows() == if Takes(old(Rows()), s.id) then old(Rows())[s.id := s.Row()] else old(Rows())
    {
      RowsInSize(schedules);
      RowsInPut(schedules, s);
      if s.id !in schedules && |schedules| >= MAX_SCHEDULES { return false; }
      schedules := schedules[s.id := s];
      ok := true;
    }

    method Remove(id: string) returns (removed: bool)
      requires Valid()
      modifies this
      ensures Valid()
      ensures removed <==> id in old(schedules)
      ensures schedules == old(schedules) - {id} && Rows() == old(Rows()) - {id}
    {
      removed := id in schedules;
      schedules := schedules - {id};
    }

    /** A row read back, with a slot of its own if it should have one. */
    static method Restore(r: Row, now: Instant) returns (s: Schedule)
      requires ValidInstant(now)
      ensures fresh(s) && s.Row() == Restored(r, now)
    {
      s := new Schedule(r);
      if s.nextRunAt.None? && s.enabled && !Exhausted(s.Row()) {
        var next := NextSlot(s.Row(), now);
        if next.Time? { s.nextRunAt := Some(next.t); } else { s.enabled := false; }
      }
    }

    /** One record more, if it is readable. */
    static method ReadOne(given: map<string, Schedule>, item: Record, now: Instant, clock: int)
      returns (more: map<string, Schedule>)
      requires ValidInstant(now)
      ensures forall k :: k in more ==> (k in given && more[k] == given[k]) || (more[k].id == k && fresh(more[k]))
      ensures RowsIn(more) == WithRecord(RowsIn(given), item, now, clock)
    {
      more := given;
      var read := FromDict(item, clock);
      if read.Some? {
        var s := Restore(read.value, now);
        RowsInPut(given, s);
        more := given[s.id := s];
      }
    }

    /** The readable records as schedules, by id. */
    static method ReadAll(items: seq<Record>, now: Instant, clock: int) returns (restored: map<string, Schedule>)
      requires ValidInstant(now)
      ensures forall k :: k in restored ==> restored[k].id == k && fresh(restored[k])
      ensures RowsIn(restored) == Loaded(items, now, clock)
    {
      restored := map[];
      for i := 0 to |items|
        invariant forall k :: k in restored ==> restored[k].id == k && fresh(restored[k])
        invariant RowsIn(restored) == Loaded(items[..i], now, clock)
      {
        LoadedOneMore(items, i, now, clock);
        restored := ReadOne(restored, items[i], now, clock);
      }
      assert items[..|items|] == items;
    }

    /** `load`: a file that cannot be read leaves the table as it is; any other replaces it by
        its readable records, however many. */
    method Load(file: File, now: Instant, clock: int) returns (count: nat)
      requires Valid() && ValidInstant(now)
      modifies this
      ensures Valid()
      ensures file.Missing? ==> count == 0 && schedules == old(schedules)
      ensures !file.Missing? ==> count == |schedules| && forall k :: k in schedules ==> fresh(schedules[k])
      ensures !file.Missing? ==> Rows() == Loaded(ItemsOf(file), now, clock)
    {
      if file.Missing? { return 0; }
      schedules := ReadAll(ItemsOf(file), now, clock);
      count := |schedules|;
    }

    /** `raised` says that no next slot could be found; the schedule is enabled even so. */
    method SetEnabled(id: string, on: bool, now: Instant) returns (found: bool, raised: bool)
      requires Valid() && ValidInstant(now)
      modifies schedules.Values
      ensures Valid()
      ensures found <==> id in schedules
      ensures Rows() == if found then old(Rows())[id := Switched(old(Rows())[id], on, now)] else old(Rows())
      ensures raised <==> found && on && old(Rows())[id].nextRunAt.None? && !ComputeNext(old(Rows())[id], now).Time?
    {
      ghost var was := Rows();
      if id !in schedules { return false, false; }
      var s := schedules[id];
      s.enabled := on;
      found, raised := true, false;
      if on && s.nextRunAt.None? {
        var next := NextSlot(s.Row(), now);
        if next.Time? { s.nextRunAt := Some(next.t); } else { raised := true; }
      }
      OneChanged(was, Rows(), id);
    }

    /** The ids of the schedules whose slot has arrived, soonest first. */
    method Due(now: Instant) returns (ids: seq<string>)
      requires Valid()
      ensures forall k :: k in ids <==> k in schedules && Owed(Rows()[k], now)
      ensures forall i, j :: 0 <= i < j < |ids| ==> ids[i] != ids[j] && Sooner(Rows(), ids[i], ids[j])
    {
      var rows := Rows();
      var slot := map k | k in rows && Schedules.Due(rows[k], now) :: SlotOf(rows, k);
      ids := SoonestFirst(slot);
    }

    /** `mark_fired`. */
    method MarkFired(s: Schedule, now: Instant, error: string)
      requires ValidInstant(now)
      modifies s
      ensures s.Row() == Fired(old(s.Row()), now, error) && MovesOn(old(s.Row()), now, error, s.Row())
    {
      FiredMovesOn(s.Row(), now, error);
      s.runCount := s.runCount + 1;
      s.lastRunAt := Some(Micros(now));
      s.lastError := error;
      if Exhausted(s.Row()) {
        s.nextRunAt, s.enabled := None, false;
      } else {
        var next := NextSlot(s.Row(), now);
        if next.Time? {
          s.nextRunAt := Some(next.t);
        } else {
          s.nextRunAt, s.enabled, s.lastError := None, false, Complaint(next);
        }
      }
    }

    /** One tick: `fails` gives the error text of a dispatch, empty when it succeeds.
        Every due schedule fires once, soonest first, and no other changes. */
    method RunDue(now: Instant, fails: string -> string) returns (fired: seq<string>)
      requires Valid() && ValidInstant(now)
      modifies schedules.Values
      ensures Valid()
      ensures Rows() == Ticked(old(Rows()), now, fails)
      ensures forall k :: k in fired <==> k in schedules && Owed(old(Rows())[k], now)
      ensures forall i, j :: 0 <= i < j < |fired| ==> fired[i] != fired[j] && Sooner(old(Rows()), fired[i], fired[j])
      ensures forall k <- schedules ::
        if k in fired then MovesOn(old(Rows())[k], now, fails(k), Rows()[k]) else Rows()[k] == old(Rows())[k]
    {
      ghost var was := Rows();
      fired := Due(now);
      FireEach(fired, now, fails);
      TickedIs(was, Rows(), fired, now, fails);
      forall k <- fired ensures MovesOn(was[k], now, fails(k), Rows()[k]) { FiredMovesOn(was[k], now, fails(k)); }
    }

    method FireEach(ids: seq<string>, now: Instant, fails: string -> string)
      requires Valid() && ValidInstant(now)
      requires forall k :: k in ids ==> k in schedules
      requires forall i, j :: 0 <= i < j < |ids| ==> ids[i] != ids[j]
      modifies schedules.Values
      ensures forall k :: k in schedules ==>
        schedules[k].Row()
          == if k in ids then Fired(old(schedules[k].Row()), now, fails(k)) else old(schedules[k].Row())
    {
      ghost var was := Rows();
      for i := 0 to |ids|
        invariant forall k :: k in schedules ==>
          schedules[k].Row() == if k in ids[..i] then Fired(was[k], now, fails(k)) else was[k]
      {
        assert ids[..i + 1] == ids[..i] + [ids[i]];
        MarkFired(schedules[ids[i]], now, fails(ids[i]));
      }
      assert ids[..|ids|] == ids;
    }
  }

  /** Both have a slot, and the first one's is no later. */
  predicate Sooner(rows: Table, a: string, b: string) {
    && a in rows && b in rows && rows[a].nextRunAt.Some? && rows[b].nextRunAt.Some?
    && rows[a].nextRunAt.value <= rows[b].nextRunAt.value
  }

  function SlotOf(rows: map<string, Row>, id: string): int {
    if id in rows && rows[id].nextRunAt.Some? then rows[id].nextRunAt.value else 0
  }

  /** A tick right after a tick at the same time, or an earlier one, fires nothing. */
  lemma SecondTickFiresNothing(rows: map<string, Row>, now: Instant, earlier: Instant, fails: string -> string,
      again: string -> string)
    requires forall k :: k in rows ==> WellFormed(rows[k])
    requires ValidInstant(now) && Micros(earlier) <= Micros(now)
    ensures Ticked(Ticked(rows, now, fails), earlier, again) == Ticked(rows, now, fails)
  {
    forall k | k in rows ensures !Schedules.Due(Ticked(rows, now, fails)[k], earlier) {
      if Schedules.Due(rows[k], now) { FiringMovesOn(rows[k], now, fails(k)); }
    }
  }
}
