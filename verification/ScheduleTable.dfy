/** The table of schedules as a value, and its history: each row of a table that was added
    to, removed from, paused, ticked and restarted is a row with a history of its own. */
module ScheduleTable {
  import opened Sets
  import opened Payload
  import opened Calendar
  import opened CronTimes
  import opened Schedules

  type Table = map<string, Row>

  /** An operation on the table at some time. `fails` gives the error text of a dispatch,
      empty when it succeeds; a reload is a save and a load. */
  datatype Operation =
    | Put(row: Row, now: Instant)
    | Drop(id: string, now: Instant)
    | Toggle(id: string, on: bool, now: Instant)
    | TickAll(fails: string -> string, now: Instant)
    | Reload(now: Instant)

  /** What one tick does to a table. */
  ghost function Ticked(rows: Table, now: Instant, fails: string -> string): Table {
    map k | k in rows :: Apply(rows[k], Tick(now, fails(k)))
  }

  /** What saving and loading does to a table. */
  ghost function Reloaded(rows: Table, now: Instant): Table {
    map k | k in rows :: Apply(rows[k], Restart(now))
  }

  /** There is room for the id, or it is there already. */
  predicate Takes(rows: Table, id: string) { id in rows || |rows| < MAX_SCHEDULES }

  ghost function Step(rows: Table, op: Operation): Table {
    match op
    case Put(r, _) => if Takes(rows, r.id) then rows[r.id := r] else rows
    case Drop(id, _) => rows - {id}
    case Toggle(id, on, now) => if id in rows then rows[id := Apply(rows[id], Switch(on, now))] else rows
    case TickAll(fails, now) => Ticked(rows, now, fails)
    case Reload(now) => Reloaded(rows, now)
  }

  /** The table after these operations, from an empty one. */
  ghost function TableAfter(ops: seq<Operation>): Table
    decreases |ops|
  {
    if ops == [] then map[] else Step(TableAfter(ops[..|ops| - 1]), ops[|ops| - 1])
  }

  lemma SameKeysSameSize<V>(a: map<string, V>, b: map<string, V>)
    requires a.Keys == b.Keys
    ensures |a| == |b|
  {
    assert |a.Keys| == |a| && |b.Keys| == |b|;
  }

  lemma PutStaysBounded(rows: Table, r: Row)
    requires |rows| <= MAX_SCHEDULES && Takes(rows, r.id)
    ensures |rows[r.id := r]| <= MAX_SCHEDULES
  {
    if r.id in rows { SameKeysSameSize(rows, rows[r.id := r]); } else { OneKeyMore(rows, r.id, r); }
  }

  /** What puts nothing in adds no id. */
  lemma OthersAddNone(rows: Table, op: Operation)
    requires !op.Put?
    ensures Step(rows, op).Keys <= rows.Keys
  {
  }

  lemma StepStaysBounded(rows: Table, op: Operation)
    requires |rows| <= MAX_SCHEDULES
    ensures |Step(rows, op)| <= MAX_SCHEDULES
  {
    if op.Put? {
      if Takes(rows, op.row.id) { PutStaysBounded(rows, op.row); }
    } else {
      OthersAddNone(rows, op);
      SubsetSize(Step(rows, op).Keys, rows.Keys);
    }
  }

  /** No history fills the table beyond its limit. */
  lemma {:induction false} TableIsBounded(ops: seq<Operation>)
    ensures |TableAfter(ops)| <= 200
    decreases |ops|
  {
    if ops != [] {
      TableIsBounded(ops[..|ops| - 1]);
      StepStaysBounded(TableAfter(ops[..|ops| - 1]), ops[|ops| - 1]);
    }
  }

  /** A row as it was put in, and what happened to it since. */
  datatype Life = Life(row: Row, ops: seq<Op>)

  function Then(life: Option<Life>, op: Op): Option<Life> {
    match life
    case None => None
    case Some(l) => Some(Life(l.row, l.ops + [op]))
  }

  /** What one operation, on a table that takes this id or not, adds to the life of its row. */
  function Lives(before: Option<Life>, op: Operation, id: string, takes: bool): Option<Life> {
    match op
    case Put(r, _) => if r.id == id && takes then Some(Life(r, [])) else before
    case Drop(x, _) => if x == id then None else before
    case Toggle(x, on, now) => if x == id then Then(before, Switch(on, now)) else before
    case TickAll(fails, now) => Then(before, Tick(now, fails(id)))
    case Reload(now) => Then(before, Restart(now))
  }

  /** The life of the row with this id, from the last time it was put in. */
  ghost function LifeOf(ops: seq<Operation>, id: string): Option<Life>
    decreases |ops|
  {
    if ops == [] then None
    else
      var init := ops[..|ops| - 1];
      Lives(LifeOf(init, id), ops[|ops| - 1], id, Takes(TableAfter(init), id))
  }

  /** The row of an id is what its life has made of it. */
  ghost predicate RowIs(rows: Table, id: string, life: Option<Life>) {
    match life
    case None => id !in rows
    case Some(l) => id in rows && rows[id] == After(l.row, l.ops)
  }

  lemma AfterThen(r: Row, ops: seq<Op>, op: Op)
    ensures After(r, ops + [op]) == Apply(After(r, ops), op)
  {
    assert (ops + [op])[..|ops|] == ops;
  }

  lemma StepIsLived(rows: Table, op: Operation, id: string, life: Option<Life>)
    requires RowIs(rows, id, life)
    ensures RowIs(Step(rows, op), id, Lives(life, op, id, Takes(rows, id)))
  {
    if life.Some? {
      var l := life.value;
      match op
      case Put(_, _) =>
      case Drop(_, _) =>
      case Toggle(_, on, now) => AfterThen(l.row, l.ops, Switch(on, now));
      case TickAll(fails, now) => AfterThen(l.row, l.ops, Tick(now, fails(id)));
      case Reload(now) => AfterThen(l.row, l.ops, Restart(now));
    }
  }

  /** Each row of a table is the row last put in under that id, with the history the
      operations since amount to; and no row is there without one. */
  lemma {:induction false} RowsHaveHistories(ops: seq<Operation>, id: string)
    ensures RowIs(TableAfter(ops), id, LifeOf(ops, id))
    decreases |ops|
  {
    if ops != [] {
      var init := ops[..|ops| - 1];
      RowsHaveHistories(init, id);
      StepIsLived(TableAfter(init), ops[|ops| - 1], id, LifeOf(init, id));
    }
  }

  /** Every row put in is one that a request can give. */
  predicate SoundPuts(ops: seq<Operation>) {
    forall i :: 0 <= i < |ops| && ops[i].Put? ==> WithinLimits(ops[i].row) && HasTrigger(ops[i].row)
  }

  lemma SoundPutsInit(ops: seq<Operation>)
    requires SoundPuts(ops) && ops != []
    ensures SoundPuts(ops[..|ops| - 1])
    ensures ops[|ops| - 1].Put? ==> WithinLimits(ops[|ops| - 1].row) && HasTrigger(ops[|ops| - 1].row)
  {
  }

  ghost predicate BeganSound(life: Option<Life>, id: string) {
    life.Some? ==> life.value.row.id == id && WithinLimits(life.value.row) && HasTrigger(life.value.row)
  }

  lemma LivesBeginSound(before: Option<Life>, op: Operation, id: string, takes: bool)
    requires BeganSound(before, id) && (op.Put? ==> WithinLimits(op.row) && HasTrigger(op.row))
    ensures BeganSound(Lives(before, op, id, takes), id)
  {
  }

  lemma {:induction false} LifeBeganSound(ops: seq<Operation>, id: string)
    requires SoundPuts(ops)
    ensures BeganSound(LifeOf(ops, id), id)
    decreases |ops|
  {
    if ops != [] {
      var init := ops[..|ops| - 1];
      SoundPutsInit(ops);
      LifeBeganSound(init, id);
      LivesBeginSound(LifeOf(init, id), ops[|ops| - 1], id, Takes(TableAfter(init), id));
    }
  }

  /** Over any history of the table, the run count of each row is the one it came with plus
      its firings since, and within its limit; a one-shot fires at most once. */
  lemma TableLimitsHold(ops: seq<Operation>, id: string)
    requires SoundPuts(ops) && id in TableAfter(ops)
    ensures LifeOf(ops, id).Some?
    ensures
      var q, l := TableAfter(ops)[id], LifeOf(ops, id).value;
      && WithinLimits(q) && q.id == id
      && q.runCount == l.row.runCount + |Firings(l.row, l.ops)|
      && (q.maxRuns.Some? ==> |Firings(l.row, l.ops)| <= q.maxRuns.value - l.row.runCount)
      && (q.at.Some? ==> |Firings(l.row, l.ops)| <= 1 - l.row.runCount)
  {
    RowsHaveHistories(ops, id);
    LifeBeganSound(ops, id);
    var l := LifeOf(ops, id).value;
    LimitsHold(l.row, l.ops);
    NamesStay(l.row, l.ops);
  }

  lemma {:induction false} NamesStay(r: Row, ops: seq<Op>)
    ensures After(r, ops).id == r.id
    decreases |ops|
  {
    if ops != [] {
      NamesStay(r, ops[..|ops| - 1]);
      ApplyKeeps(After(r, ops[..|ops| - 1]), ops[|ops| - 1]);
    }
  }

  predicate TimesForward(ops: seq<Operation>) {
    && (forall i :: 0 <= i < |ops| ==> ValidInstant(ops[i].now))
    && (forall i, j :: 0 <= i < j < |ops| ==> Micros(ops[i].now) <= Micros(ops[j].now))
  }

  lemma TimesForwardInit(ops: seq<Operation>)
    requires TimesForward(ops) && ops != []
    ensures TimesForward(ops[..|ops| - 1]) && ValidInstant(ops[|ops| - 1].now)
    ensures |ops| > 1 ==> Micros(ops[|ops| - 2].now) <= Micros(ops[|ops| - 1].now)
  {
  }

  /** The clock of a life goes forward, and has not passed this time. */
  ghost predicate ForwardTo(life: Option<Life>, now: Instant) {
    life.Some? ==>
      var ops := life.value.ops;
      ClockForward(ops) && (ops != [] ==> Micros(ops[|ops| - 1].now) <= Micros(now))
  }

  lemma ForwardThen(ops: seq<Op>, op: Op)
    requires ClockForward(ops) && ValidInstant(op.now)
    requires ops != [] ==> Micros(ops[|ops| - 1].now) <= Micros(op.now)
    ensures ClockForward(ops + [op])
  {
    forall i | 0 <= i < |ops| ensures Micros(ops[i].now) <= Micros(op.now) {
      assert i < |ops| - 1 ==> Micros(ops[i].now) <= Micros(ops[|ops| - 1].now);
    }
  }

  lemma ForwardOn(before: Option<Life>, op: Op)
    requires ForwardTo(before, op.now) && ValidInstant(op.now)
    ensures ForwardTo(Then(before, op), op.now)
  {
    if before.Some? { ForwardThen(before.value.ops, op); }
  }

  lemma LivesForward(before: Option<Life>, op: Operation, id: string, takes: bool)
    requires ForwardTo(before, op.now) && ValidInstant(op.now)
    ensures ForwardTo(Lives(before, op, id, takes), op.now)
  {
    match op
    case Put(_, _) =>
    case Drop(_, _) =>
    case Toggle(_, on, now) => ForwardOn(before, Switch(on, now));
    case TickAll(fails, now) => ForwardOn(before, Tick(now, fails(id)));
    case Reload(now) => ForwardOn(before, Restart(now));
  }

  lemma {:induction false} LifeGoesForward(ops: seq<Operation>, id: string)
    requires TimesForward(ops) && ops != []
    ensures ForwardTo(LifeOf(ops, id), ops[|ops| - 1].now)
    decreases |ops|
  {
    var init, op := ops[..|ops| - 1], ops[|ops| - 1];
    TimesForwardInit(ops);
    if init == [] {
      assert LifeOf(init, id).None?;
    } else {
      LifeGoesForward(init, id);
    }
    LivesForward(LifeOf(init, id), op, id, Takes(TableAfter(init), id));
  }

  /** With a clock that does not go back, the firings of each row of the table have slots of
      their own between them, whatever happens to the other rows. */
  lemma TableFiringsAreSpaced(ops: seq<Operation>, id: string)
    requires SoundPuts(ops) && TimesForward(ops) && id in TableAfter(ops)
    ensures LifeOf(ops, id).Some?
    ensures var l := LifeOf(ops, id).value; Spaced(l.row, Firings(l.row, l.ops))
  {
    RowsHaveHistories(ops, id);
    LifeBeganSound(ops, id);
    LifeGoesForward(ops, id);
    FiringsAreSpaced(LifeOf(ops, id).value.row, LifeOf(ops, id).value.ops);
  }
}
