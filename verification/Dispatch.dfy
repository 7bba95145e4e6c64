/** The task runner's concurrency as interleaved steps: one thread that submits,
    cancels and pumps, and any number of workers on a bounded pool. */
module Dispatch {
  import opened Sets
  import opened Payload
  import opened Queueing

  /** `Outcome.status`. */
  datatype Status = StatusOk | StatusError | StatusBlocked | StatusConfirmRequired | StatusCancelled

  /** Where a worker thread stands in `run_task` and `_spawn`. */
  datatype Phase =
    | Starting                  // registered, not yet in the executor
    | Executing                 // inside `executor.run`
    | Between                   // an attempt is over; retry or settle
    | Reported(status: Status)  // the result is reported
    | Marked                    // `mark_completed` is done, the worker still registered
    | Forgotten                 // the cancel requests for its id are off the record
    | Deregistered              // out of `_workers`, the slot not yet released

  datatype Worker = Worker(entry: Entry, phase: Phase)

  /** Where the pumping thread stands; `since` is the time at which the pump drained the queue. */
  datatype Pump = Idle | AtTop(since: int) | Looking(since: int) | Got(since: int, e: Entry)

  /** How an accepted task ended. `Dropped` is none of the promised ways. */
  datatype Terminal = ByRun(status: Status) | ByCancel | ByDeadline | Dropped

  /** `Asked` is a cancel request, `Forgot` the end of a run that takes those of its id off the record. */
  datatype Event =
    | Submitted(task: Task) | Entered(task: Task) | Finished(id: string, status: Status)
    | Asked(id: string) | Forgot(id: string)

  /** Threads are numbered by the arrival number of the task they run; `cancelled` holds the
      ids with a cancel request on record. */
  datatype State = State(q: Queue, free: int, pump: Pump, workers: map<nat, Worker>, registry: map<string, nat>,
                         cancelled: set<string>, settled: map<nat, Terminal>, inFlight: int, peak: int, log: seq<Event>)

  datatype Step =
    | Submit(t: Task)
    | Cancel(id: string)
    | PumpStart(now: int)
    | PumpAcquire
    | PumpNext(drainAt: int, now: int, vouched: set<string>, r: Option<Entry>, q': Queue)
    | PumpSpawn
    | Enter(k: nat)
    | Leave(k: nat)
    | Report(k: nat, raw: Status)
    | Mark(k: nat)
    | Forget(k: nat)
    | Deregister(k: nat)
    | Release(k: nat)

  function Initial(slots: int): State {
    State(EMPTY, slots, Idle, map[], map[], {}, map[], 0, 0, [])
  }

  predicate At(s: State, k: nat, p: Phase) { k in s.workers && s.workers[k].phase == p }

  predicate Applicable(s: State, step: Step) {
    match step
    case Submit(_) => s.pump.Idle?
    case Cancel(_) => s.pump.Idle?
    case PumpStart(_) => s.pump.Idle?
    case PumpAcquire => s.pump.AtTop?
    case PumpNext(_, _, _, _, _) => s.pump.Looking?
    case PumpSpawn => s.pump.Got?
    case Enter(k) => At(s, k, Starting) || At(s, k, Between)
    case Leave(k) => At(s, k, Executing)
    case Report(k, _) => At(s, k, Between)
    case Mark(k) => k in s.workers && s.workers[k].phase.Reported?
    case Forget(k) => At(s, k, Marked)
    case Deregister(k) => At(s, k, Forgotten)
    case Release(k) => At(s, k, Deregistered)
  }

  /** A pump given no time reads the clock again for every task: `drainAt` and `now` of a
      `PumpNext` are the two readings, not bound to the pump's own nor to each other.
      `vouched` is what a result index or dependency check vouches for at that moment, and
      `external` bounds what it ever does. */
  ghost predicate Enabled(s: State, external: set<string>, step: Step) {
    && Applicable(s, step)
    && (step.PumpNext? ==>
          step.vouched <= external && Popped(s.q, step.drainAt, step.now, step.vouched, step.r, step.q'))
  }

  function ToPhase(s: State, k: nat, p: Phase): map<nat, Worker>
    requires k in s.workers
  {
    s.workers[k := Worker(s.workers[k].entry, p)]
  }

  function Verdicts(entries: seq<Entry>, t: Terminal): map<nat, Terminal> {
    map e | e in entries :: e.seqNo := t
  }

  /** `cancel`: the request goes on record, whatever the id. A queued task is taken out, and
      reported unless a worker is registered under its id. */
  function Cancelled(s: State, id: string): State {
    var asked := s.(cancelled := s.cancelled + {id}, log := s.log + [Asked(id)]);
    match FindId(s.q.entries, id)
    case None => asked
    case Some(e) =>
      asked.(q := Removed(s.q, id), settled := s.settled[e.seqNo := if id in s.registry then Dropped else ByCancel])
  }

  /** The status a run settles with: a request on record for its id overrides the result's own. */
  function Verdict(s: State, k: nat, raw: Status): Status
    requires k in s.workers
  {
    if s.workers[k].entry.task.id in s.cancelled then StatusCancelled else raw
  }

  function Max(a: int, b: int): int { if a > b then a else b }

  function Apply(s: State, step: Step): State
    requires Applicable(s, step)
  {
    match step
    case Submit(t) => s.(q := Added(s.q, t), log := s.log + [Submitted(t)])
    case Cancel(id) => Cancelled(s, id)
    case PumpStart(now) =>
      s.(q := Drained(s.q, now), settled := s.settled + Verdicts(Late(s.q.entries, now), ByDeadline),
        pump := AtTop(now))
    case PumpAcquire =>
      if s.free > 0 then s.(free := s.free - 1, pump := Looking(s.pump.since)) else s.(pump := Idle)
    case PumpNext(drainAt, _, _, r, q') =>
      var settled := s.settled + Verdicts(Late(s.q.entries, drainAt), Dropped);
      (match r
       case Some(e) => s.(q := q', settled := settled, pump := Got(s.pump.since, e))
       case None => s.(q := q', settled := settled, free := s.free + 1, pump := Idle))
    case PumpSpawn =>
      var e := s.pump.e;
      s.(workers := s.workers[e.seqNo := Worker(e, Starting)], registry := s.registry[e.task.id := e.seqNo],
         inFlight := s.inFlight + 1, peak := Max(s.peak, s.inFlight + 1), pump := AtTop(s.pump.since))
    case Enter(k) => s.(workers := ToPhase(s, k, Executing), log := s.log + [Entered(s.workers[k].entry.task)])
    case Leave(k) => s.(workers := ToPhase(s, k, Between))
    case Report(k, raw) =>
      var status := Verdict(s, k, raw);
      s.(workers := ToPhase(s, k, Reported(status)), settled := s.settled[k := ByRun(status)],
         log := s.log + [Finished(s.workers[k].entry.task.id, status)])
    case Mark(k) =>
      s.(workers := ToPhase(s, k, Marked),
         q := Completed(s.q, s.workers[k].entry.task.id, s.workers[k].phase.status.StatusOk?))
    case Forget(k) =>
      var id := s.workers[k].entry.task.id;
      s.(workers := ToPhase(s, k, Forgotten), cancelled := s.cancelled - {id}, log := s.log + [Forgot(id)])
    case Deregister(k) =>
      s.(workers := ToPhase(s, k, Deregistered), registry := s.registry - {s.workers[k].entry.task.id},
         inFlight := s.inFlight - 1)
    case Release(k) => s.(workers := s.workers - {k}, free := s.free + 1)
  }

  ghost predicate Next(external: set<string>, s: State, s': State) {
    exists step :: Enabled(s, external, step) && s' == Apply(s, step)
  }

  ghost predicate IsRun(slots: int, external: set<string>, run: seq<State>) {
    && |run| > 0 && run[0] == Initial(slots)
    && forall i :: 0 <= i < |run| - 1 ==> Next(external, run[i], run[i + 1])
  }

  // ---------------------------------------------------------------------
  // The pool
  // ---------------------------------------------------------------------

  predicate HasSlot(p: Pump) { p.Looking? || p.Got? }

  /** Threads counted by `_in_flight`. */
  function Registered(s: State): set<nat> { set k | k in s.workers && !s.workers[k].phase.Deregistered? }

  /** Free slots, the pump's slot and the workers' slots add up to the pool. */
  ghost predicate PoolInv(slots: int, s: State) {
    && s.free >= 0 && s.free + (if HasSlot(s.pump) then 1 else 0) + |s.workers| == slots
    && s.inFlight == |Registered(s)| <= s.peak <= slots
  }

  /** No dispatch reuses the number of a thread that is still there. */
  ghost predicate FreshGot(s: State) { s.pump.Got? ==> s.pump.e.seqNo !in s.workers }

  lemma RegisteredFits(s: State)
    ensures |Registered(s)| <= |s.workers|
  {
    SubsetSize(Registered(s), s.workers.Keys);
  }

  lemma PoolPhase(slots: int, s: State, s': State, k: nat, p: Phase)
    requires PoolInv(slots, s) && k in s.workers && !s.workers[k].phase.Deregistered? && !p.Deregistered?
    requires s'.workers == ToPhase(s, k, p) && s'.pump == s.pump
    requires s'.free == s.free && s'.inFlight == s.inFlight && s'.peak == s.peak
    ensures PoolInv(slots, s')
  {
    assert s'.workers.Keys == s.workers.Keys;
    assert Registered(s') == Registered(s);
  }

  lemma PoolDeregister(slots: int, s: State, k: nat)
    requires PoolInv(slots, s) && At(s, k, Forgotten)
    ensures PoolInv(slots, s.(workers := ToPhase(s, k, Deregistered), inFlight := s.inFlight - 1))
  {
    var s' := s.(workers := ToPhase(s, k, Deregistered), inFlight := s.inFlight - 1);
    assert s'.workers.Keys == s.workers.Keys;
    assert Registered(s) == Registered(s') + {k};
  }

  lemma SpawnRegisters(s: State, s': State, k: nat, w: Worker)
    requires k !in s.workers && !w.phase.Deregistered? && s'.workers == s.workers[k := w]
    ensures |s'.workers| == |s.workers| + 1 && |Registered(s')| == |Registered(s)| + 1
  {
    MoreKeys(s.workers, k, w);
    RegisteredGrows(s, s', k, w);
    assert k !in Registered(s);
  }

  lemma RegisteredGrows(s: State, s': State, k: nat, w: Worker)
    requires k !in s.workers && !w.phase.Deregistered? && s'.workers == s.workers[k := w]
    ensures Registered(s') == Registered(s) + {k}
  {
    forall x ensures x in Registered(s') <==> x in Registered(s) + {k} {
      if x != k { assert x in s'.workers <==> x in s.workers; }
    }
  }

  lemma MoreKeys(m: map<nat, Worker>, k: nat, w: Worker)
    requires k !in m
    ensures |m[k := w]| == |m| + 1
  {
    var more := m[k := w];
    assert more.Keys == m.Keys + {k};
    assert |more| == |more.Keys| && |m| == |m.Keys|;
  }

  lemma PoolSpawn(slots: int, s: State, k: nat, w: Worker)
    requires PoolInv(slots, s) && s.pump.Got? && k !in s.workers && !w.phase.Deregistered?
    ensures PoolInv(slots, s.(workers := s.workers[k := w], inFlight := s.inFlight + 1,
                              peak := Max(s.peak, s.inFlight + 1), pump := AtTop(s.pump.since)))
  {
    var s' := s.(workers := s.workers[k := w], inFlight := s.inFlight + 1,
                 peak := Max(s.peak, s.inFlight + 1), pump := AtTop(s.pump.since));
    SpawnRegisters(s, s', k, w);
    RegisteredFits(s');
  }

  lemma PoolRelease(slots: int, s: State, k: nat)
    requires PoolInv(slots, s) && At(s, k, Deregistered)
    ensures PoolInv(slots, s.(workers := s.workers - {k}, free := s.free + 1))
  {
    var s' := s.(workers := s.workers - {k}, free := s.free + 1);
    assert s.workers.Keys == s'.workers.Keys + {k};
    assert Registered(s') == Registered(s);
  }

  /** The pool depends on these components only. */
  lemma PoolFrame(slots: int, s: State, s': State)
    requires PoolInv(slots, s) && s'.workers == s.workers && s'.inFlight == s.inFlight && s'.peak == s.peak
    requires s'.free >= 0
    requires s'.free + (if HasSlot(s'.pump) then 1 else 0) == s.free + (if HasSlot(s.pump) then 1 else 0)
    ensures PoolInv(slots, s')
  {
    assert Registered(s') == Registered(s);
  }

  lemma PoolWorkerStep(slots: int, s: State, step: Step)
    requires PoolInv(slots, s) && Applicable(s, step)
    requires step.Enter? || step.Leave? || step.Report? || step.Mark? || step.Forget?
    ensures PoolInv(slots, Apply(s, step))
  {
    match step
    case Enter(k) => PoolPhase(slots, s, Apply(s, step), k, Executing);
    case Leave(k) => PoolPhase(slots, s, Apply(s, step), k, Between);
    case Report(k, raw) => PoolPhase(slots, s, Apply(s, step), k, Reported(Verdict(s, k, raw)));
    case Mark(k) => PoolPhase(slots, s, Apply(s, step), k, Marked);
    case Forget(k) => PoolPhase(slots, s, Apply(s, step), k, Forgotten);
  }

  lemma PoolEndStep(slots: int, s: State, step: Step)
    requires PoolInv(slots, s) && FreshGot(s) && Applicable(s, step)
    requires step.PumpSpawn? || step.Deregister? || step.Release?
    ensures PoolInv(slots, Apply(s, step))
  {
    var s' := Apply(s, step);
    match step
    case PumpSpawn =>
      PoolSpawn(slots, s, s.pump.e.seqNo, Worker(s.pump.e, Starting));
      PoolFrame(slots, s.(workers := s'.workers, inFlight := s'.inFlight, peak := s'.peak, pump := s'.pump), s');
    case Deregister(k) =>
      PoolDeregister(slots, s, k);
      PoolFrame(slots, s.(workers := s'.workers, inFlight := s'.inFlight), s');
    case Release(k) => PoolRelease(slots, s, k);
  }

  lemma PoolCancel(slots: int, s: State, id: string)
    requires PoolInv(slots, s)
    ensures PoolInv(slots, Cancelled(s, id))
  {
    PoolFrame(slots, s, Cancelled(s, id));
  }

  lemma PoolAcquire(slots: int, s: State)
    requires PoolInv(slots, s) && s.pump.AtTop?
    ensures PoolInv(slots, Apply(s, PumpAcquire))
  {
    PoolFrame(slots, s, Apply(s, PumpAcquire));
  }

  lemma PoolStart(slots: int, s: State, now: int)
    requires PoolInv(slots, s) && s.pump.Idle?
    ensures PoolInv(slots, Apply(s, PumpStart(now)))
  {
    PoolFrame(slots, s, Apply(s, PumpStart(now)));
  }

  lemma PoolQuietStep(slots: int, s: State, step: Step)
    requires PoolInv(slots, s) && Applicable(s, step)
    requires step.Submit? || step.Cancel? || step.PumpStart? || step.PumpAcquire?
    ensures PoolInv(slots, Apply(s, step))
  {
    match step
    case Submit(_) => PoolFrame(slots, s, Apply(s, step));
    case Cancel(id) => PoolCancel(slots, s, id);
    case PumpStart(now) => PoolStart(slots, s, now);
    case PumpAcquire => PoolAcquire(slots, s);
  }

  lemma PoolNextStep(slots: int, s: State, step: Step)
    requires PoolInv(slots, s) && Applicable(s, step) && step.PumpNext?
    ensures PoolInv(slots, Apply(s, step))
  {
    PoolFrame(slots, s, Apply(s, step));
  }

  lemma PoolStep(slots: int, s: State, step: Step)
    requires PoolInv(slots, s) && FreshGot(s) && Applicable(s, step)
    ensures PoolInv(slots, Apply(s, step))
  {
    if step.PumpSpawn? || step.Deregister? || step.Release? {
      PoolEndStep(slots, s, step);
    } else if step.Enter? || step.Leave? || step.Report? || step.Mark? || step.Forget? {
      PoolWorkerStep(slots, s, step);
    } else if step.PumpNext? {
      PoolNextStep(slots, s, step);
    } else {
      PoolQuietStep(slots, s, step);
    }
  }

  // ---------------------------------------------------------------------
  // Ids: what is known is queued or dispatched and not completed
  // ---------------------------------------------------------------------

  /** Dispatched under this id and not yet marked completed. */
  predicate RunsId(s: State, k: nat, id: string) {
    k in s.workers && s.workers[k].entry.task.id == id
    && (s.workers[k].phase.Starting? || s.workers[k].phase.Executing? || s.workers[k].phase.Between?
      || s.workers[k].phase.Reported?)
  }

  predicate HoldsId(p: Pump, id: string) { p.Got? && p.e.task.id == id }

  predicate QueuesId(q: Queue, id: string) { exists e <- q.entries :: e.task.id == id }

  /** A known id - never the empty one - is queued, or held by the pump, or run by one worker,
      and only one of these. */
  ghost predicate IdSafe(s: State, id: string) {
    id == "" || (
    && (id in s.q.known ==> QueuesId(s.q, id) || HoldsId(s.pump, id) || exists k :: RunsId(s, k, id))
    && (QueuesId(s.q, id) ==> id in s.q.known && !HoldsId(s.pump, id) && forall k :: !RunsId(s, k, id))
    && (HoldsId(s.pump, id) ==> id in s.q.known && forall k :: !RunsId(s, k, id))
    && (forall k :: RunsId(s, k, id) ==> id in s.q.known)
    && (forall k, m :: RunsId(s, k, id) && RunsId(s, m, id) ==> k == m))
  }

  ghost predicate IdInv(s: State) {
    WellFormed(s.q) && Tidy(s.q) && forall id {:trigger IdSafe(s, id)} :: IdSafe(s, id)
  }

  lemma AddedIds(q: Queue, t: Task)
    requires WellFormed(q) && Tidy(q)
    ensures WellFormed(Added(q, t)) && Tidy(Added(q, t))
    ensures forall id :: QueuesId(Added(q, t), id) <==> QueuesId(q, id) || (t.id !in q.known && id == t.id)
  {
    AddKeepsTidy(q, t);
    if t.id !in q.known {
      var e := Entry(t, q.nextSeq);
      assert forall x :: x in Added(q, t).entries <==> x in q.entries || x == e;
      assert e in Added(q, t).entries;
    }
  }

  /** An arrival number has one entry. */
  lemma OneEntry(q: Queue, a: Entry, b: Entry)
    requires WellFormed(q) && a in q.entries && b in q.entries && a.seqNo == b.seqNo
    ensures a == b
  {
    var i :| 0 <= i < |q.entries| && q.entries[i] == a;
    var j :| 0 <= j < |q.entries| && q.entries[j] == b;
  }

  lemma TakenOutIds(q: Queue, e: Entry)
    requires WellFormed(q) && Tidy(q) && e in q.entries
    ensures Distinct(Without(q.entries, e))
    ensures forall id :: id != "" ==>
      (QueuesId(q.(entries := Without(q.entries, e)), id) <==> QueuesId(q, id) && id != e.task.id)
  {
    WithoutIs(q.entries, e);
    forall id | id != ""
      ensures QueuesId(q.(entries := Without(q.entries, e)), id) <==> QueuesId(q, id) && id != e.task.id
    {
      if x :| x in q.entries && x.task.id == id && id != e.task.id {
        assert x in Without(q.entries, e);
      }
    }
  }

  lemma DrainedIds(q: Queue, now: int)
    requires WellFormed(q) && Tidy(q)
    ensures WellFormed(Drained(q, now)) && Tidy(Drained(q, now))
    ensures forall id :: id != "" ==>
      (QueuesId(Drained(q, now), id) <==> QueuesId(q, id) && id !in Ids(Late(q.entries, now)))
    ensures forall id :: id in Ids(Late(q.entries, now)) ==> QueuesId(q, id)
  {
    DrainKeepsQueue(q, now);
    DrainKeepsTidy(q, now);
    LiveAndLate(q.entries, now);
    forall id | id != ""
      ensures QueuesId(Drained(q, now), id) <==> QueuesId(q, id) && id !in Ids(Late(q.entries, now))
    {
      if QueuesId(Drained(q, now), id) {
        var x :| x in Live(q.entries, now) && x.task.id == id;
        assert x.task.id in Drained(q, now).known;
      } else if x :| x in q.entries && x.task.id == id {
        assert x in Late(q.entries, now) || x in Live(q.entries, now);
      }
    }
  }

  lemma SubmitKeepsIds(s: State, t: Task)
    requires IdInv(s) && s.pump.Idle?
    ensures IdInv(Apply(s, Submit(t)))
  {
    var s' := Apply(s, Submit(t));
    AddedIds(s.q, t);
    forall id ensures IdSafe(s', id) {
      assert IdSafe(s, id);
      assert forall k :: RunsId(s', k, id) <==> RunsId(s, k, id);
    }
  }

  lemma CancelKeepsIds(s: State, id0: string)
    requires IdInv(s) && s.pump.Idle?
    ensures IdInv(Cancelled(s, id0))
  {
    FindIdIs(s.q.entries, id0);
    var s' := Cancelled(s, id0);
    if FindId(s.q.entries, id0).Some? {
      var e := FindId(s.q.entries, id0).value;
      TakenOutIds(s.q, e);
      WithoutIs(s.q.entries, e);
      assert s'.q.entries == Without(s.q.entries, e);
      RemoveKeepsTidy(s.q, id0);
      forall id ensures IdSafe(s', id) {
        assert IdSafe(s, id);
        assert QueuesId(s'.q, id) <==> QueuesId(s.q.(entries := Without(s.q.entries, e)), id);
        assert forall k :: RunsId(s', k, id) <==> RunsId(s, k, id);
      }
    } else {
      forall id ensures IdSafe(s', id) {
        assert IdSafe(s, id);
        assert forall k :: RunsId(s', k, id) <==> RunsId(s, k, id);
      }
    }
  }

  /** Dropping expired entries keeps the ids, whatever else the pump does. */
  lemma DrainKeepsIds(s: State, s': State, now: int)
    requires IdInv(s) && s'.q == Drained(s.q, now) && s'.workers == s.workers
    requires forall id :: HoldsId(s'.pump, id) <==> HoldsId(s.pump, id)
    ensures IdInv(s')
  {
    DrainedIds(s.q, now);
    forall id ensures IdSafe(s', id) {
      assert IdSafe(s, id);
      assert forall k :: RunsId(s', k, id) <==> RunsId(s, k, id);
    }
  }

  /** Taking an entry out of the queue into the pump's hand. */
  lemma TakeKeepsIds(t: State, s': State, e: Entry)
    requires IdInv(t) && t.pump.Looking? && e in t.q.entries
    requires s'.workers == t.workers && s'.pump.Got? && s'.pump.e == e
    requires s'.q.entries == Without(t.q.entries, e) && s'.q.known == t.q.known && s'.q.nextSeq == t.q.nextSeq
    ensures IdInv(s')
  {
    TakenOutIds(t.q, e);
    WithoutIs(t.q.entries, e);
    forall id ensures IdSafe(s', id) {
      assert IdSafe(t, id);
      assert QueuesId(s'.q, id) <==> QueuesId(t.q.(entries := Without(t.q.entries, e)), id);
      assert QueuesId(t.q, e.task.id);
      assert forall k :: RunsId(s', k, id) <==> RunsId(t, k, id);
    }
  }

  lemma LeaveKeepsIds(t: State, s': State)
    requires IdInv(t) && t.pump.Looking? && s'.pump.Idle? && s'.workers == t.workers
    requires s'.q.entries == t.q.entries && s'.q.known == t.q.known && s'.q.nextSeq == t.q.nextSeq
    ensures IdInv(s')
  {
    forall id ensures IdSafe(s', id) {
      assert IdSafe(t, id);
      assert QueuesId(s'.q, id) <==> QueuesId(t.q, id);
      assert forall k :: RunsId(s', k, id) <==> RunsId(t, k, id);
    }
  }

  lemma PumpNextKeepsIds(s: State, external: set<string>, step: Step)
    requires IdInv(s) && step.PumpNext? && Enabled(s, external, step)
    ensures IdInv(Apply(s, step))
  {
    var t := s.(q := Drained(s.q, step.drainAt));
    DrainKeepsIds(s, t, step.drainAt);
    var s' := Apply(s, step);
    if step.r.Some? { TakeKeepsIds(t, s', step.r.value); } else { LeaveKeepsIds(t, s'); }
  }

  lemma AcquireKeepsIds(s: State)
    requires IdInv(s) && s.pump.AtTop?
    ensures IdInv(Apply(s, PumpAcquire))
  {
    var s' := Apply(s, PumpAcquire);
    forall id ensures IdSafe(s', id) {
      assert IdSafe(s, id);
      assert forall k :: RunsId(s', k, id) <==> RunsId(s, k, id);
    }
  }

  lemma SpawnKeepsIds(s: State)
    requires IdInv(s) && s.pump.Got? && FreshGot(s)
    ensures IdInv(Apply(s, PumpSpawn))
  {
    var s' := Apply(s, PumpSpawn);
    var e := s.pump.e;
    forall id ensures IdSafe(s', id) {
      assert IdSafe(s, id);
      assert forall k :: RunsId(s', k, id) <==> RunsId(s, k, id) || (k == e.seqNo && id == e.task.id);
      assert RunsId(s', e.seqNo, e.task.id);
    }
  }

  /** Worker steps between spawning and `mark_completed` leave the ids alone, and so do those after it. */
  lemma PhaseKeepsIds(s: State, s': State, k0: nat)
    requires IdInv(s) && k0 in s.workers && s'.q == s.q && s'.pump == s.pump
    requires forall k, id :: RunsId(s', k, id) <==> RunsId(s, k, id)
    ensures IdInv(s')
  {
    forall id ensures IdSafe(s', id) { assert IdSafe(s, id); }
  }

  lemma MarkKeepsIds(s: State, k0: nat)
    requires IdInv(s) && k0 in s.workers && s.workers[k0].phase.Reported?
    ensures IdInv(Apply(s, Mark(k0)))
  {
    var s' := Apply(s, Mark(k0));
    var id0 := s.workers[k0].entry.task.id;
    assert RunsId(s, k0, id0) && IdSafe(s, id0);
    forall e <- s.q.entries | e.task.id != "" ensures e.task.id in s'.q.known { assert QueuesId(s.q, e.task.id); }
    forall id ensures IdSafe(s', id) {
      assert IdSafe(s, id);
      assert QueuesId(s'.q, id) <==> QueuesId(s.q, id);
      assert forall k :: RunsId(s', k, id) <==> RunsId(s, k, id) && k != k0;
    }
  }

  lemma WorkerKeepsIds(s: State, step: Step)
    requires IdInv(s) && Applicable(s, step)
    requires step.Enter? || step.Leave? || step.Report? || step.Mark? || step.Forget? || step.Deregister?
      || step.Release?
    ensures IdInv(Apply(s, step))
  {
    if step.Mark? { MarkKeepsIds(s, step.k); } else { PhaseKeepsIds(s, Apply(s, step), step.k); }
  }

  lemma IdStep(external: set<string>, s: State, step: Step)
    requires IdInv(s) && FreshGot(s) && Enabled(s, external, step)
    ensures IdInv(Apply(s, step))
  {
    match step
    case Submit(t) => SubmitKeepsIds(s, t);
    case Cancel(id) => CancelKeepsIds(s, id);
    case PumpStart(now) => DrainKeepsIds(s, Apply(s, step), now);
    case PumpAcquire => AcquireKeepsIds(s);
    case PumpNext(_, _, _, _, _) => PumpNextKeepsIds(s, external, step);
    case PumpSpawn => SpawnKeepsIds(s);
    case _ => WorkerKeepsIds(s, step);
  }

  // ---------------------------------------------------------------------
  // Conservation: every accepted task is in exactly one place
  // ---------------------------------------------------------------------

  predicate QueuesNo(q: Queue, n: nat) { exists e <- q.entries :: e.seqNo == n }

  predicate HoldsNo(p: Pump, n: nat) { p.Got? && p.e.seqNo == n }

  /** Dispatched, and its result not yet reported. */
  predicate Unreported(s: State, n: nat) {
    n in s.workers && (s.workers[n].phase.Starting? || s.workers[n].phase.Executing? || s.workers[n].phase.Between?)
  }

  /** The task accepted as number `n` is queued, held, running or settled, and only one of these. */
  ghost predicate PlaceSafe(s: State, n: nat) {
    && (QueuesNo(s.q, n) ==> !HoldsNo(s.pump, n) && !Unreported(s, n) && n !in s.settled)
    && (HoldsNo(s.pump, n) ==> !Unreported(s, n) && n !in s.settled)
    && (Unreported(s, n) ==> n !in s.settled)
    && (QueuesNo(s.q, n) || HoldsNo(s.pump, n) || Unreported(s, n) || n in s.settled <==> n < s.q.nextSeq)
    && (n in s.workers ==> s.workers[n].entry.seqNo == n && (Unreported(s, n) || n in s.settled))
  }

  /** While the pump runs, nothing in the queue was past its deadline when it began. */
  ghost predicate NothingLate(s: State) {
    s.pump.AtTop? || s.pump.Looking? || s.pump.Got? ==> forall e <- s.q.entries :: !Expired(e.task, s.pump.since)
  }

  ghost predicate Placed(s: State) {
    forall n: nat {:trigger PlaceSafe(s, n)} :: PlaceSafe(s, n)
  }

  ghost predicate PlaceInv(s: State) { NothingLate(s) && Placed(s) }

  lemma PlaceMakesFresh(s: State)
    requires PlaceInv(s)
    ensures FreshGot(s)
  {
    if s.pump.Got? { assert PlaceSafe(s, s.pump.e.seqNo); }
  }

  lemma {:induction false} NothingToDrain(entries: seq<Entry>, now: int)
    requires forall e <- entries :: !Expired(e.task, now)
    ensures Live(entries, now) == entries && Late(entries, now) == []
  {
    if entries != [] { NothingToDrain(entries[1..], now); }
  }

  lemma SubmitKeepsPlaces(s: State, t: Task)
    requires WellFormed(s.q) && PlaceInv(s) && s.pump.Idle?
    ensures PlaceInv(Apply(s, Submit(t)))
  {
    var s' := Apply(s, Submit(t));
    if t.id !in s.q.known {
      assert forall x :: x in s'.q.entries <==> x in s.q.entries || x == Entry(t, s.q.nextSeq);
      assert Entry(t, s.q.nextSeq) in s'.q.entries;
    }
    forall n: nat ensures PlaceSafe(s', n) {
      assert PlaceSafe(s, n);
      assert QueuesNo(s'.q, n) <==> QueuesNo(s.q, n) || (t.id !in s.q.known && n == s.q.nextSeq);
    }
  }

  lemma TakenOutNo(q: Queue, e: Entry, n: nat)
    requires WellFormed(q) && e in q.entries
    ensures (exists x <- Without(q.entries, e) :: x.seqNo == n) <==> QueuesNo(q, n) && n != e.seqNo
  {
    WithoutIs(q.entries, e);
    if x :| x in q.entries && x.seqNo == n && (n != e.seqNo || x != e) {
      if n == e.seqNo { OneEntry(q, x, e); }
      assert x in Without(q.entries, e);
    }
  }

  lemma CancelKeepsPlaces(s: State, id: string)
    requires WellFormed(s.q) && PlaceInv(s) && s.pump.Idle?
    ensures PlaceInv(Cancelled(s, id))
  {
    FindIdIs(s.q.entries, id);
    var s' := Cancelled(s, id);
    if FindId(s.q.entries, id).Some? {
      var e := FindId(s.q.entries, id).value;
      forall n: nat ensures PlaceSafe(s', n) {
        assert PlaceSafe(s, n) && PlaceSafe(s, e.seqNo);
        TakenOutNo(s.q, e, n);
      }
    } else {
      forall n: nat ensures PlaceSafe(s', n) { assert PlaceSafe(s, n); }
    }
  }

  /** Dropping expired entries with some verdict keeps every task in one place. */
  lemma DrainKeepsPlaces(s: State, s': State, now: int, verdict: Terminal)
    requires WellFormed(s.q) && Placed(s) && s'.q == Drained(s.q, now) && s'.workers == s.workers
    requires s'.settled == s.settled + Verdicts(Late(s.q.entries, now), verdict)
    requires forall n: nat :: HoldsNo(s'.pump, n) <==> HoldsNo(s.pump, n)
    ensures Placed(s')
  {
    forall n: nat ensures PlaceSafe(s', n) {
      assert PlaceSafe(s, n);
      DrainedNo(s.q, now, n);
      assert n in s'.settled <==> n in s.settled || exists e <- Late(s.q.entries, now) :: e.seqNo == n;
    }
  }

  lemma PumpStartKeepsPlaces(s: State, now: int)
    requires WellFormed(s.q) && PlaceInv(s) && s.pump.Idle?
    ensures PlaceInv(Apply(s, PumpStart(now)))
  {
    LiveAndLate(s.q.entries, now);
    DrainKeepsPlaces(s, Apply(s, PumpStart(now)), now, ByDeadline);
  }

  lemma DrainedNo(q: Queue, now: int, n: nat)
    requires WellFormed(q)
    ensures QueuesNo(q, n) <==> QueuesNo(Drained(q, now), n) || exists e <- Late(q.entries, now) :: e.seqNo == n
    ensures QueuesNo(Drained(q, now), n) ==> forall e <- Late(q.entries, now) :: e.seqNo != n
  {
    LiveAndLate(q.entries, now);
    if x :| x in q.entries && x.seqNo == n {
      assert x in Live(q.entries, now) || x in Late(q.entries, now);
      forall y | y in q.entries && y.seqNo == n ensures y == x { OneEntry(q, x, y); }
    }
  }

  /** An entry passes from the queue into the pump's hand. */
  lemma TakeKeepsPlaces(t: State, s': State, e: Entry)
    requires WellFormed(t.q) && PlaceInv(t) && t.pump.Looking? && e in t.q.entries
    requires s'.workers == t.workers && s'.settled == t.settled && s'.pump == Got(t.pump.since, e)
    requires s'.q.entries == Without(t.q.entries, e) && s'.q.nextSeq == t.q.nextSeq
    ensures PlaceInv(s')
  {
    WithoutIs(t.q.entries, e);
    forall n: nat ensures PlaceSafe(s', n) {
      assert PlaceSafe(t, n);
      TakenOutNo(t.q, e, n);
    }
  }

  lemma LeaveKeepsPlaces(t: State, s': State)
    requires PlaceInv(t) && t.pump.Looking? && s'.pump.Idle? && s'.workers == t.workers && s'.settled == t.settled
    requires s'.q.entries == t.q.entries && s'.q.nextSeq == t.q.nextSeq
    ensures PlaceInv(s')
  {
    forall n: nat ensures PlaceSafe(s', n) {
      assert PlaceSafe(t, n);
      assert QueuesNo(s'.q, n) <==> QueuesNo(t.q, n);
    }
  }

  lemma PumpNextKeepsPlaces(s: State, external: set<string>, step: Step)
    requires WellFormed(s.q) && PlaceInv(s) && step.PumpNext? && Enabled(s, external, step)
    ensures PlaceInv(Apply(s, step))
  {
    var late := Late(s.q.entries, step.drainAt);
    var t := s.(q := Drained(s.q, step.drainAt), settled := s.settled + Verdicts(late, Dropped));
    LiveAndLate(s.q.entries, step.drainAt);
    DrainKeepsQueue(s.q, step.drainAt);
    DrainKeepsPlaces(s, t, step.drainAt, Dropped);
    if step.r.Some? {
      TakeKeepsPlaces(t, Apply(s, step), step.r.value);
    } else {
      LeaveKeepsPlaces(t, Apply(s, step));
    }
  }

  lemma SpawnKeepsPlaces(s: State)
    requires PlaceInv(s) && s.pump.Got?
    ensures PlaceInv(Apply(s, PumpSpawn))
  {
    var s' := Apply(s, PumpSpawn);
    forall n: nat ensures PlaceSafe(s', n) { assert PlaceSafe(s, n); }
  }

  lemma WorkerKeepsPlaces(s: State, step: Step)
    requires PlaceInv(s) && Applicable(s, step)
    requires step.Enter? || step.Leave? || step.Report? || step.Mark? || step.Forget? || step.Deregister?
      || step.Release?
    ensures PlaceInv(Apply(s, step))
  {
    var s' := Apply(s, step);
    forall n: nat ensures PlaceSafe(s', n) {
      assert PlaceSafe(s, n);
      assert QueuesNo(s'.q, n) <==> QueuesNo(s.q, n);
    }
  }

  lemma PlaceStep(external: set<string>, s: State, step: Step)
    requires WellFormed(s.q) && PlaceInv(s) && Enabled(s, external, step)
    ensures PlaceInv(Apply(s, step))
  {
    match step
    case Submit(t) => SubmitKeepsPlaces(s, t);
    case Cancel(id) => CancelKeepsPlaces(s, id);
    case PumpStart(now) => PumpStartKeepsPlaces(s, now);
    case PumpAcquire =>
      var s' := Apply(s, step);
      forall n: nat ensures PlaceSafe(s', n) { assert PlaceSafe(s, n); }
    case PumpNext(_, _, _, _, _) => PumpNextKeepsPlaces(s, external, step);
    case PumpSpawn => SpawnKeepsPlaces(s);
    case _ => WorkerKeepsPlaces(s, step);
  }

  // ---------------------------------------------------------------------
  // The worker registry
  // ---------------------------------------------------------------------

  /** Whoever is registered under an id is a thread of that id, still registered. */
  ghost predicate RegisteredRight(workers: map<nat, Worker>, id: string, k: nat) {
    k in workers && workers[k].entry.task.id == id && !workers[k].phase.Deregistered?
  }

  ghost predicate RegistryInv(s: State) {
    forall id {:trigger s.registry[id]} :: id in s.registry ==> RegisteredRight(s.workers, id, s.registry[id])
  }

  lemma SpawnKeepsRegistry(s: State)
    requires RegistryInv(s) && FreshGot(s) && s.pump.Got?
    ensures RegistryInv(Apply(s, PumpSpawn))
  {}

  lemma DeregisterKeepsRegistry(s: State, k: nat)
    requires RegistryInv(s) && At(s, k, Forgotten)
    ensures RegistryInv(Apply(s, Deregister(k)))
  {}

  lemma ReleaseKeepsRegistry(s: State, k: nat)
    requires RegistryInv(s) && At(s, k, Deregistered)
    ensures RegistryInv(Apply(s, Release(k)))
  {}

  lemma PhaseKeepsRegistry(s: State, s': State, k: nat, p: Phase)
    requires RegistryInv(s) && k in s.workers && s'.workers == ToPhase(s, k, p) && s'.registry == s.registry
    requires !p.Deregistered?
    ensures RegistryInv(s')
  {}

  lemma RegistryStep(s: State, step: Step)
    requires RegistryInv(s) && FreshGot(s) && Applicable(s, step)
    ensures RegistryInv(Apply(s, step))
  {
    var s' := Apply(s, step);
    match step
    case PumpSpawn => SpawnKeepsRegistry(s);
    case Enter(k) => PhaseKeepsRegistry(s, s', k, Executing);
    case Leave(k) => PhaseKeepsRegistry(s, s', k, Between);
    case Report(k, raw) => PhaseKeepsRegistry(s, s', k, Reported(Verdict(s, k, raw)));
    case Mark(k) => PhaseKeepsRegistry(s, s', k, Marked);
    case Forget(k) => PhaseKeepsRegistry(s, s', k, Forgotten);
    case Deregister(k) => DeregisterKeepsRegistry(s, k);
    case Release(k) => ReleaseKeepsRegistry(s, k);
    case _ =>
  }

  // ---------------------------------------------------------------------
  // Dependencies
  // ---------------------------------------------------------------------

  /** A run of `id` with status ok was reported before event `n`. */
  predicate SucceededBefore(log: seq<Event>, n: nat, id: string) {
    exists i :: 0 <= i < n && i < |log| && log[i] == Finished(id, StatusOk)
  }

  predicate EnteredBefore(log: seq<Event>, n: nat, id: string) {
    exists i :: 0 <= i < n && i < |log| && log[i].Entered? && log[i].task.id == id
  }

  predicate SubmittedBefore(log: seq<Event>, n: nat, t: Task) {
    exists i :: 0 <= i < n && i < |log| && log[i] == Submitted(t)
  }

  /** `id` counts as done: vouched for from outside, or reported. */
  predicate Done(external: set<string>, log: seq<Event>, n: nat, id: string) {
    id in external || SucceededBefore(log, n, id)
  }

  /** A task that may enter the executor: submitted, and its dependencies are done. */
  predicate Cleared(external: set<string>, log: seq<Event>, n: nat, t: Task) {
    SubmittedBefore(log, n, t) && forall d <- t.dependsOn :: Done(external, log, n, d)
  }

  /** A task enters the executor only after its dependencies are done and after it was
      submitted; a result is reported only after a run. */
  ghost predicate MayHappen(external: set<string>, log: seq<Event>, n: nat, e: Event) {
    match e
    case Entered(t) => Cleared(external, log, n, t)
    case Finished(id, _) => EnteredBefore(log, n, id)
    case _ => true
  }

  ghost predicate EventSafe(external: set<string>, log: seq<Event>, n: nat)
    requires n < |log|
  {
    MayHappen(external, log, n, log[n])
  }

  ghost predicate EventsSafe(external: set<string>, log: seq<Event>) {
    forall n {:trigger EventSafe(external, log, n)} :: 0 <= n < |log| ==> EventSafe(external, log, n)
  }

  ghost predicate WorkerSafe(external: set<string>, log: seq<Event>, w: Worker) {
    && Cleared(external, log, |log|, w.entry.task)
    && (w.phase.Executing? || w.phase.Between? ==> EnteredBefore(log, |log|, w.entry.task.id))
    && (w.phase == Reported(StatusOk) ==> SucceededBefore(log, |log|, w.entry.task.id))
  }

  ghost predicate WorkersSafe(external: set<string>, log: seq<Event>, workers: map<nat, Worker>) {
    forall k {:trigger workers[k]} :: k in workers ==> WorkerSafe(external, log, workers[k])
  }

  ghost predicate QueueSafe(log: seq<Event>, entries: seq<Entry>) {
    forall e <- entries :: SubmittedBefore(log, |log|, e.task)
  }

  ghost predicate CompletedSafe(external: set<string>, log: seq<Event>, completed: set<string>) {
    forall id <- completed :: Done(external, log, |log|, id)
  }

  ghost predicate LogInv(external: set<string>, s: State) {
    && EventsSafe(external, s.log)
    && CompletedSafe(external, s.log, s.q.completed)
    && QueueSafe(s.log, s.q.entries)
    && (s.pump.Got? ==> Cleared(external, s.log, |s.log|, s.pump.e.task))
    && WorkersSafe(external, s.log, s.workers)
  }

  /** What was before stays before as the log grows. */
  lemma LogGrows(external: set<string>, log: seq<Event>, e: Event, n: nat)
    requires n <= |log|
    ensures forall id :: SucceededBefore(log, n, id) ==> SucceededBefore(log + [e], n, id)
    ensures forall id :: EnteredBefore(log, n, id) ==> EnteredBefore(log + [e], n, id)
    ensures forall t :: SubmittedBefore(log, n, t) ==> SubmittedBefore(log + [e], n, t)
  {
    assert forall i :: 0 <= i < |log| ==> (log + [e])[i] == log[i];
  }

  lemma BeforeIsBefore(log: seq<Event>, n: nat)
    requires n < |log|
    ensures forall id :: SucceededBefore(log, n, id) ==> SucceededBefore(log, n + 1, id)
    ensures forall id :: EnteredBefore(log, n, id) ==> EnteredBefore(log, n + 1, id)
    ensures forall t :: SubmittedBefore(log, n, t) ==> SubmittedBefore(log, n + 1, t)
  {}

  lemma EventsGrow(external: set<string>, log: seq<Event>, e: Event)
    requires EventsSafe(external, log) && MayHappen(external, log, |log|, e)
    ensures EventsSafe(external, log + [e])
  {
    forall n | 0 <= n < |log + [e]| ensures EventSafe(external, log + [e], n) {
      LogGrows(external, log, e, n);
      if n < |log| { assert EventSafe(external, log, n); }
    }
  }

  lemma ClearedGrows(external: set<string>, log: seq<Event>, e: Event, t: Task)
    requires Cleared(external, log, |log|, t)
    ensures Cleared(external, log + [e], |log| + 1, t)
  {
    LogGrows(external, log, e, |log|);
    BeforeIsBefore(log + [e], |log|);
  }

  lemma WorkerGrows(external: set<string>, log: seq<Event>, e: Event, w: Worker)
    requires WorkerSafe(external, log, w)
    ensures WorkerSafe(external, log + [e], w)
  {
    ClearedGrows(external, log, e, w.entry.task);
    LogGrows(external, log, e, |log|);
    BeforeIsBefore(log + [e], |log|);
  }

  lemma RestGrows(external: set<string>, log: seq<Event>, e: Event, completed: set<string>, entries: seq<Entry>)
    requires CompletedSafe(external, log, completed) && QueueSafe(log, entries)
    ensures CompletedSafe(external, log + [e], completed) && QueueSafe(log + [e], entries)
  {
    LogGrows(external, log, e, |log|);
    BeforeIsBefore(log + [e], |log|);
  }

  /** One more event, nothing else changed. */
  lemma LogInvGrows(external: set<string>, s: State, e: Event)
    requires LogInv(external, s) && MayHappen(external, s.log, |s.log|, e)
    ensures LogInv(external, s.(log := s.log + [e]))
  {
    EventsGrow(external, s.log, e);
    RestGrows(external, s.log, e, s.q.completed, s.q.entries);
    if s.pump.Got? { ClearedGrows(external, s.log, e, s.pump.e.task); }
    forall k | k in s.workers ensures WorkerSafe(external, s.log + [e], s.workers[k]) {
      WorkerGrows(external, s.log, e, s.workers[k]);
    }
  }

  lemma SubmitKeepsLog(external: set<string>, s: State, t: Task)
    requires LogInv(external, s) && s.pump.Idle?
    ensures LogInv(external, Apply(s, Submit(t)))
  {
    LogInvGrows(external, s, Submitted(t));
    var log := s.log + [Submitted(t)];
    assert log[|s.log|] == Submitted(t);
  }

  lemma {:induction false} WithoutKeeps(entries: seq<Entry>, e: Entry)
    ensures forall x :: x in Without(entries, e) ==> x in entries
  {
    if entries != [] && entries[0] != e { WithoutKeeps(entries[1..], e); }
  }

  lemma CancelKeepsLog(external: set<string>, s: State, id: string)
    requires LogInv(external, s)
    ensures LogInv(external, Cancelled(s, id))
  {
    LogInvGrows(external, s, Asked(id));
    FindIdIs(s.q.entries, id);
    if FindId(s.q.entries, id).Some? { WithoutKeeps(s.q.entries, FindId(s.q.entries, id).value); }
  }

  /** Dropping entries keeps what the log says of the others. */
  lemma DrainKeepsLog(external: set<string>, s: State, s': State, now: int)
    requires LogInv(external, s) && !s'.pump.Got? && s'.workers == s.workers && s'.log == s.log
    requires s'.q.entries == Live(s.q.entries, now) && s'.q.completed == s.q.completed
    ensures LogInv(external, s')
  {
    LiveAndLate(s.q.entries, now);
  }

  lemma TakenIsCleared(external: set<string>, s: State, vouched: set<string>, e: Entry)
    requires LogInv(external, s) && vouched <= external && e in s.q.entries
    requires DepsMet(e.task, s.q.completed + vouched)
    ensures Cleared(external, s.log, |s.log|, e.task)
  {
  }

  lemma TakeKeepsLog(external: set<string>, t: State, s': State, vouched: set<string>, r: Option<Entry>)
    requires LogInv(external, t) && vouched <= external && s'.workers == t.workers && s'.log == t.log
    requires s'.q.completed <= t.q.completed + vouched
    requires if r.Some? then
        && r.value in t.q.entries && DepsMet(r.value.task, t.q.completed + vouched)
        && s'.pump.Got? && s'.pump.e == r.value && s'.q.entries == Without(t.q.entries, r.value)
      else s'.pump.Idle? && s'.q.entries == t.q.entries
    ensures LogInv(external, s')
  {
    if r.Some? {
      TakenIsCleared(external, t, vouched, r.value);
      WithoutKeeps(t.q.entries, r.value);
    }
  }

  lemma PumpNextKeepsLog(external: set<string>, s: State, step: Step)
    requires LogInv(external, s) && step.PumpNext? && Enabled(s, external, step)
    ensures LogInv(external, Apply(s, step))
  {
    var t := s.(q := Drained(s.q, step.drainAt));
    DrainKeepsLog(external, s, t, step.drainAt);
    TakeKeepsLog(external, t, Apply(s, step), step.vouched, step.r);
  }

  /** A worker in a new phase. */
  lemma PutKeepsLog(external: set<string>, s: State, s': State, k: nat, w: Worker)
    requires LogInv(external, s) && s'.workers == s.workers[k := w] && WorkerSafe(external, s.log, w)
    requires s'.log == s.log && s'.q.entries == s.q.entries && (s'.pump == s.pump || !s'.pump.Got?)
    requires forall id <- s'.q.completed :: id in s.q.completed || Done(external, s.log, |s.log|, id)
    ensures LogInv(external, s')
  {
    forall j | j in s'.workers ensures WorkerSafe(external, s'.log, s'.workers[j]) {
      if j != k { assert s.workers[j] == s'.workers[j]; }
    }
  }

  lemma EnterKeepsLog(external: set<string>, s: State, k: nat)
    requires LogInv(external, s) && Applicable(s, Enter(k))
    ensures LogInv(external, Apply(s, Enter(k)))
  {
    var w := s.workers[k];
    var e := Entered(w.entry.task);
    var t := s.(log := s.log + [e]);
    LogInvGrows(external, s, e);
    assert t.log[|s.log|] == e;
    assert WorkerSafe(external, t.log, t.workers[k]);
    PutKeepsLog(external, t, Apply(s, Enter(k)), k, Worker(w.entry, Executing));
  }

  lemma ReportKeepsLog(external: set<string>, s: State, k: nat, raw: Status)
    requires LogInv(external, s) && Applicable(s, Report(k, raw))
    ensures LogInv(external, Apply(s, Report(k, raw)))
  {
    var w, status := s.workers[k], Verdict(s, k, raw);
    var e := Finished(w.entry.task.id, status);
    var t := s.(log := s.log + [e]);
    assert WorkerSafe(external, s.log, w);
    LogInvGrows(external, s, e);
    assert t.log[|s.log|] == e;
    assert WorkerSafe(external, t.log, t.workers[k]);
    PutKeepsLog(external, t, Apply(s, Report(k, raw)), k, Worker(w.entry, Reported(status)));
  }

  /** Steps of a worker that the log does not show. */
  lemma QuietKeepsLog(external: set<string>, s: State, step: Step)
    requires LogInv(external, s) && Applicable(s, step) && (step.Leave? || step.Mark? || step.Deregister?)
    ensures LogInv(external, Apply(s, step))
  {
    var w, s' := s.workers[step.k], Apply(s, step);
    assert WorkerSafe(external, s.log, w);
    PutKeepsLog(external, s, s', step.k, s'.workers[step.k]);
  }

  lemma ForgetKeepsLog(external: set<string>, s: State, k: nat)
    requires LogInv(external, s) && Applicable(s, Forget(k))
    ensures LogInv(external, Apply(s, Forget(k)))
  {
    var w := s.workers[k];
    var t := s.(log := s.log + [Forgot(w.entry.task.id)]);
    LogInvGrows(external, s, Forgot(w.entry.task.id));
    assert WorkerSafe(external, t.log, t.workers[k]);
    PutKeepsLog(external, t, Apply(s, Forget(k)), k, Worker(w.entry, Forgotten));
  }

  lemma ReleaseKeepsLog(external: set<string>, s: State, k: nat)
    requires LogInv(external, s) && Applicable(s, Release(k))
    ensures LogInv(external, Apply(s, Release(k)))
  {
    var s' := Apply(s, Release(k));
    forall j | j in s'.workers
      ensures WorkerSafe(external, s'.log, s'.workers[j])
    {
      assert s'.workers[j] == s.workers[j];
    }
  }

  lemma StepKeepsLog(external: set<string>, s: State, step: Step)
    requires LogInv(external, s) && Enabled(s, external, step)
    ensures LogInv(external, Apply(s, step))
  {
    match step
    case Submit(t) => SubmitKeepsLog(external, s, t);
    case Cancel(id) => CancelKeepsLog(external, s, id);
    case PumpStart(now) => DrainKeepsLog(external, s, Apply(s, step), now);
    case PumpAcquire =>
    case PumpNext(_, _, _, _, _) => PumpNextKeepsLog(external, s, step);
    case PumpSpawn => PutKeepsLog(external, s, Apply(s, step), s.pump.e.seqNo, Worker(s.pump.e, Starting));
    case Enter(k) => EnterKeepsLog(external, s, k);
    case Report(k, raw) => ReportKeepsLog(external, s, k, raw);
    case Forget(k) => ForgetKeepsLog(external, s, k);
    case Release(k) => ReleaseKeepsLog(external, s, k);
    case _ => QuietKeepsLog(external, s, step);
  }

  // ---------------------------------------------------------------------
  // Cancel requests
  // ---------------------------------------------------------------------

  /** A cancel of `id` was asked for, and no run of that id has taken it off the record since. */
  ghost predicate Pending(log: seq<Event>, id: string) {
    exists i: nat :: PendingSince(log, id, i)
  }

  predicate PendingSince(log: seq<Event>, id: string, i: nat) {
    i < |log| && log[i] == Asked(id) && forall j :: i < j < |log| ==> log[j] != Forgot(id)
  }

  lemma PendingPush(log: seq<Event>, e: Event, id: string)
    ensures Pending(log + [e], id) <==> e == Asked(id) || (Pending(log, id) && e != Forgot(id))
  {
    var more := log + [e];
    if i: nat :| PendingSince(more, id, i) {
      if i < |log| {
        assert more[|log|] == e;
        forall j | i < j < |log| ensures log[j] != Forgot(id) { assert more[j] == log[j]; }
        assert PendingSince(log, id, i);
      }
    }
    if e == Asked(id) {
      assert PendingSince(more, id, |log|);
    } else if i: nat :| PendingSince(log, id, i) {
      if e != Forgot(id) { assert PendingSince(more, id, i); }
    }
  }

  predicate OnRecord(s: State, id: string) { id in s.cancelled }

  /** The record holds exactly the ids with a pending request. */
  ghost predicate AskInv(s: State) {
    forall id {:trigger OnRecord(s, id)} :: OnRecord(s, id) <==> Pending(s.log, id)
  }

  /** A step whose event, if any, is this one, and that changes the record accordingly. */
  lemma EventKeepsAsk(s: State, s': State, e: Event)
    requires AskInv(s) && s'.log == s.log + [e]
    requires s'.cancelled
      == match e
         case Asked(x) => s.cancelled + {x}
         case Forgot(x) => s.cancelled - {x}
         case _ => s.cancelled
    ensures AskInv(s')
  {
    forall id ensures OnRecord(s', id) <==> Pending(s'.log, id) {
      PendingPush(s.log, e, id);
      assert OnRecord(s, id) <==> Pending(s.log, id);
    }
  }

  lemma SilentKeepsAsk(s: State, s': State)
    requires AskInv(s) && s'.log == s.log && s'.cancelled == s.cancelled
    ensures AskInv(s')
  {
    forall id ensures OnRecord(s', id) <==> Pending(s'.log, id) { assert OnRecord(s, id) <==> Pending(s.log, id); }
  }

  lemma StepKeepsAsk(s: State, step: Step)
    requires AskInv(s) && Applicable(s, step)
    ensures AskInv(Apply(s, step))
  {
    var s' := Apply(s, step);
    match step
    case Submit(t) => EventKeepsAsk(s, s', Submitted(t));
    case Cancel(id) => EventKeepsAsk(s, s', Asked(id));
    case Enter(k) => EventKeepsAsk(s, s', Entered(s.workers[k].entry.task));
    case Report(k, raw) => EventKeepsAsk(s, s', Finished(s.workers[k].entry.task.id, Verdict(s, k, raw)));
    case Forget(k) => EventKeepsAsk(s, s', Forgot(s.workers[k].entry.task.id));
    case _ => SilentKeepsAsk(s, s');
  }

  // ---------------------------------------------------------------------
  // Theorems about every run
  // ---------------------------------------------------------------------

  ghost predicate Inv(slots: int, s: State) {
    PoolInv(slots, s) && IdInv(s) && PlaceInv(s) && RegistryInv(s)
  }

  lemma InitialInv(slots: int, external: set<string>)
    requires slots >= 0
    ensures Inv(slots, Initial(slots)) && LogInv(external, Initial(slots)) && AskInv(Initial(slots))
  {
    var s := Initial(slots);
    assert Registered(s) == {};
    forall id ensures IdSafe(s, id) {}
    forall n: nat ensures PlaceSafe(s, n) {}
  }

  lemma StepKeepsInv(slots: int, external: set<string>, s: State, step: Step)
    requires Inv(slots, s) && Enabled(s, external, step)
    ensures Inv(slots, Apply(s, step))
  {
    PlaceMakesFresh(s);
    PoolStep(slots, s, step);
    IdStep(external, s, step);
    PlaceStep(external, s, step);
    RegistryStep(s, step);
  }

  lemma {:induction false} RunKeepsInv(slots: int, external: set<string>, run: seq<State>)
    requires slots >= 0 && IsRun(slots, external, run)
    ensures Inv(slots, run[|run| - 1]) && LogInv(external, run[|run| - 1]) && AskInv(run[|run| - 1])
  {
    if |run| == 1 {
      InitialInv(slots, external);
    } else {
      var before := run[..|run| - 1];
      RunKeepsInv(slots, external, before);
      var s := before[|before| - 1];
      assert Next(external, run[|run| - 2], run[|run| - 2 + 1]);
      var step :| Enabled(s, external, step) && run[|run| - 1] == Apply(s, step);
      StepKeepsInv(slots, external, s, step);
      StepKeepsLog(external, s, step);
      StepKeepsAsk(s, step);
    }
  }

  /** Two threads of one task id; the empty id is nobody's. */
  predicate SameId(s: State, a: nat, b: nat)
    requires a in s.workers && b in s.workers
  {
    s.workers[a].entry.task.id == s.workers[b].entry.task.id != ""
  }

  /** The pool bound, and exclusion: two workers never run the same id. */
  lemma PoolAndExclusion(slots: int, external: set<string>, run: seq<State>)
    requires slots >= 0 && IsRun(slots, external, run)
    ensures var s := run[|run| - 1];
      && s.free + (if HasSlot(s.pump) then 1 else 0) + |s.workers| == slots && s.free >= 0
      && s.inFlight <= s.peak <= slots
      && (forall a, b :: At(s, a, Executing) && At(s, b, Executing) && SameId(s, a, b) ==> a == b)
      && (forall id :: id != "" ==>
            (id in s.q.known <==> QueuesId(s.q, id) || HoldsId(s.pump, id) || exists k :: RunsId(s, k, id)))
  {
    RunKeepsInv(slots, external, run);
    var s := run[|run| - 1];
    forall a, b | At(s, a, Executing) && At(s, b, Executing) && SameId(s, a, b) ensures a == b {
      var id := s.workers[a].entry.task.id;
      assert IdSafe(s, id) && RunsId(s, a, id) && RunsId(s, b, id);
    }
    forall id | id != ""
      ensures id in s.q.known <==> QueuesId(s.q, id) || HoldsId(s.pump, id) || exists k :: RunsId(s, k, id)
    {
      assert IdSafe(s, id);
    }
  }

  /** Conservation: every accepted task is queued, held by the pump, running
      unreported, or settled - exactly one of these. */
  lemma Conservation(slots: int, external: set<string>, run: seq<State>, n: nat)
    requires slots >= 0 && IsRun(slots, external, run)
    ensures var s := run[|run| - 1];
      if n < s.q.nextSeq then
        (if QueuesNo(s.q, n) then 1 else 0) + (if HoldsNo(s.pump, n) then 1 else 0)
        + (if Unreported(s, n) then 1 else 0) + (if n in s.settled then 1 else 0) == 1
      else !QueuesNo(s.q, n) && !HoldsNo(s.pump, n) && n !in s.workers && n !in s.settled
  {
    RunKeepsInv(slots, external, run);
    assert PlaceSafe(run[|run| - 1], n);
  }

  /** Verdicts on queued entries leave what is settled alone. */
  lemma VerdictsSpare(s: State, now: int, t: Terminal, n: nat)
    requires PlaceSafe(s, n) && n in s.settled
    ensures var settled := s.settled + Verdicts(Late(s.q.entries, now), t);
      n in settled && settled[n] == s.settled[n]
  {
    LiveAndLate(s.q.entries, now);
  }

  lemma CancelSpares(s: State, id: string, n: nat)
    requires PlaceSafe(s, n) && n in s.settled
    ensures n in Cancelled(s, id).settled && Cancelled(s, id).settled[n] == s.settled[n]
  {
    FindIdIs(s.q.entries, id);
  }

  /** A terminal outcome is final: no step settles a task twice. */
  lemma SettledIsFinal(slots: int, external: set<string>, s: State, step: Step, n: nat)
    requires Inv(slots, s) && Enabled(s, external, step) && n in s.settled
    ensures n in Apply(s, step).settled && Apply(s, step).settled[n] == s.settled[n]
  {
    assert PlaceSafe(s, n);
    match step
    case Cancel(id) => CancelSpares(s, id, n);
    case PumpStart(now) => VerdictsSpare(s, now, ByDeadline, n);
    case PumpNext(drainAt, _, _, _, _) => VerdictsSpare(s, drainAt, Dropped, n);
    case _ =>
  }

  /** The two ways to lose task number `n`: its id is cancelled while some worker is
      registered under that id, or `next_task` finds it past its deadline. */
  ghost predicate Loses(s: State, step: Step, n: nat) {
    match step
    case Cancel(id) => id in s.registry && FindId(s.q.entries, id).Some? && FindId(s.q.entries, id).value.seqNo == n
    case PumpNext(drainAt, _, _, _, _) => exists e <- s.q.entries :: e.seqNo == n && Expired(e.task, drainAt)
    case _ => false
  }

  lemma VerdictOn(settled: map<nat, Terminal>, entries: seq<Entry>, t: Terminal, n: nat)
    requires n !in settled
    ensures n in settled + Verdicts(entries, t) <==> exists e <- entries :: e.seqNo == n
    ensures n in settled + Verdicts(entries, t) ==> (settled + Verdicts(entries, t))[n] == t
  {
  }

  lemma DroppedByTheClock(s: State, external: set<string>, step: Step, n: nat)
    requires step.PumpNext? && Enabled(s, external, step) && n !in s.settled
    ensures n in Apply(s, step).settled && Apply(s, step).settled[n].Dropped? <==> Loses(s, step, n)
  {
    VerdictOn(s.settled, Late(s.q.entries, step.drainAt), Dropped, n);
    LiveAndLate(s.q.entries, step.drainAt);
  }

  lemma DroppedByCancel(s: State, id: string, n: nat)
    requires n !in s.settled
    ensures n in Cancelled(s, id).settled && Cancelled(s, id).settled[n].Dropped? <==> Loses(s, Cancel(id), n)
  {
  }

  /** Exactly these leave an accepted task without any of the promised outcomes. */
  lemma DroppedIff(slots: int, external: set<string>, s: State, step: Step, n: nat)
    requires Inv(slots, s) && Enabled(s, external, step) && n !in s.settled
    ensures n in Apply(s, step).settled && Apply(s, step).settled[n].Dropped? <==> Loses(s, step, n)
  {
    match step
    case Cancel(id) => DroppedByCancel(s, id, n);
    case PumpStart(now) => VerdictOn(s.settled, Late(s.q.entries, now), ByDeadline, n);
    case PumpNext(_, _, _, _, _) => DroppedByTheClock(s, external, step, n);
    case _ =>
  }

  /** The deadline lies between two readings of the clock. */
  predicate DeadlineBetween(t: Task, from: int, to: int) {
    t.deadline.Some? && !t.priority.High? && from <= t.deadline.value < to
  }

  /** The worker registered under the id is past `mark_completed` and not yet deregistered. */
  predicate Finishing(s: State, id: string) {
    id in s.registry && (At(s, s.registry[id], Marked) || At(s, s.registry[id], Forgotten))
  }

  /** When that happens: a cancel loses a task only if a worker of the same id is past
      `mark_completed` and not yet deregistered, and the clock only if the deadline lies
      between the time the pump began and the later reading. */
  lemma LossNeedsAWindow(slots: int, external: set<string>, s: State, step: Step, n: nat)
    requires Inv(slots, s) && Enabled(s, external, step) && Loses(s, step, n)
    ensures QueuesNo(s.q, n)
    ensures step.Cancel? && step.id != "" ==> Finishing(s, step.id)
    ensures step.PumpNext? ==>
      exists e <- s.q.entries :: e.seqNo == n && DeadlineBetween(e.task, s.pump.since, step.drainAt)
  {
    if step.Cancel? {
      FindIdIs(s.q.entries, step.id);
      if step.id != "" { assert IdSafe(s, step.id) && !RunsId(s, s.registry[step.id], step.id); }
    } else {
      var e :| e in s.q.entries && e.seqNo == n && Expired(e.task, step.drainAt);
      assert !Expired(e.task, s.pump.since);
    }
  }

  lemma LastStep(slots: int, external: set<string>, run: seq<State>) returns (step: Step)
    requires slots >= 0 && IsRun(slots, external, run) && |run| > 1
    ensures Inv(slots, run[|run| - 2]) && IsRun(slots, external, run[..|run| - 1])
    ensures Enabled(run[|run| - 2], external, step) && run[|run| - 1] == Apply(run[|run| - 2], step)
  {
    var i := |run| - 2;
    assert Next(external, run[i], run[i + 1]);
    RunKeepsInv(slots, external, run[..|run| - 1]);
    step :| Enabled(run[i], external, step) && run[i + 1] == Apply(run[i], step);
  }

  /** Number `n` was lost by the step from position `i`. */
  ghost predicate LostAt(external: set<string>, run: seq<State>, n: nat, i: nat) {
    i + 1 < |run| && exists step ::
      Enabled(run[i], external, step) && run[i + 1] == Apply(run[i], step) && Loses(run[i], step, n)
  }

  lemma LastStepLoses(slots: int, external: set<string>, run: seq<State>, n: nat)
    requires slots >= 0 && IsRun(slots, external, run) && |run| > 1
    requires n in run[|run| - 1].settled && run[|run| - 1].settled[n].Dropped?
    ensures (n in run[|run| - 2].settled && run[|run| - 2].settled[n].Dropped?) || LostAt(external, run, n, |run| - 2)
  {
    var step := LastStep(slots, external, run);
    var s := run[|run| - 2];
    if n in s.settled {
      SettledIsFinal(slots, external, s, step, n);
    } else {
      DroppedIff(slots, external, s, step, n);
      assert run[|run| - 2 + 1] == Apply(s, step);
    }
  }

  lemma LostEarlier(external: set<string>, run: seq<State>, n: nat, i: nat)
    requires |run| > 0 && LostAt(external, run[..|run| - 1], n, i)
    ensures LostAt(external, run, n, i)
  {
    assert run[..|run| - 1][i] == run[i] && run[..|run| - 1][i + 1] == run[i + 1];
  }

  lemma RunShortens(slots: int, external: set<string>, run: seq<State>)
    requires slots >= 0 && IsRun(slots, external, run) && run[|run| - 1].settled != map[]
    ensures |run| > 1 && IsRun(slots, external, run[..|run| - 1])
  {
  }

  /** In every run, whatever was lost was lost by one of these steps. */
  lemma {:induction false} EveryLossHasACause(slots: int, external: set<string>, run: seq<State>, n: nat)
    requires slots >= 0 && IsRun(slots, external, run)
    requires n in run[|run| - 1].settled && run[|run| - 1].settled[n].Dropped?
    ensures exists i: nat :: LostAt(external, run, n, i)
    decreases |run|
  {
    RunShortens(slots, external, run);
    LastStepLoses(slots, external, run, n);
    if !LostAt(external, run, n, |run| - 2) {
      var before := run[..|run| - 1];
      EveryLossHasACause(slots, external, before, n);
      var i: nat :| LostAt(external, before, n, i);
      LostEarlier(external, run, n, i);
    }
  }

  /** A pump that is given its time uses that one throughout, and its `next_task` then
      loses nothing. */
  lemma OneTimeLosesNothing(slots: int, external: set<string>, s: State, step: Step)
    requires Inv(slots, s) && Enabled(s, external, step) && step.PumpNext? && step.drainAt == s.pump.since
    ensures Apply(s, step).settled == s.settled
  {
    NothingToDrain(s.q.entries, step.drainAt);
    NoVerdicts(s.settled, Dropped);
  }

  lemma NoVerdicts(settled: map<nat, Terminal>, t: Terminal)
    ensures settled + Verdicts([], t) == settled
  {
  }

  /** What a caller can do to lose nothing: give each pump one time, and cancel no id whose
      registered worker is past `mark_completed`, nor the empty one. */
  predicate Careful(s: State, step: Step) {
    match step
    case Cancel(id) => id != "" && !Finishing(s, id)
    case PumpNext(drainAt, _, _, _, _) => HasSlot(s.pump) && drainAt == s.pump.since
    case _ => true
  }

  ghost predicate CarefulNext(external: set<string>, s: State, s': State) {
    exists step :: Enabled(s, external, step) && Careful(s, step) && s' == Apply(s, step)
  }

  ghost predicate IsCarefulRun(slots: int, external: set<string>, run: seq<State>) {
    && |run| > 0 && run[0] == Initial(slots)
    && forall i :: 0 <= i < |run| - 1 ==> CarefulNext(external, run[i], run[i + 1])
  }

  lemma CarefulIsRun(slots: int, external: set<string>, run: seq<State>)
    requires IsCarefulRun(slots, external, run)
    ensures IsRun(slots, external, run)
  {
    forall i | 0 <= i < |run| - 1 ensures Next(external, run[i], run[i + 1]) {
      assert CarefulNext(external, run[i], run[i + 1]);
    }
  }

  lemma CarefulLosesNothing(slots: int, external: set<string>, s: State, step: Step, n: nat)
    requires Inv(slots, s) && Enabled(s, external, step) && Careful(s, step)
    ensures !Loses(s, step, n)
  {
    if Loses(s, step, n) { LossNeedsAWindow(slots, external, s, step, n); }
  }

  /** No task is lost in a run of careful steps. */
  lemma {:induction false} CarefulRunsLoseNothing(slots: int, external: set<string>, run: seq<State>, n: nat)
    requires slots >= 0 && IsCarefulRun(slots, external, run) && n in run[|run| - 1].settled
    ensures !run[|run| - 1].settled[n].Dropped?
    decreases |run|
  {
    if |run| > 1 {
      var before, s := run[..|run| - 1], run[|run| - 2];
      CarefulIsRun(slots, external, before);
      RunKeepsInv(slots, external, before);
      assert CarefulNext(external, run[|run| - 2], run[|run| - 2 + 1]);
      var step :| Enabled(s, external, step) && Careful(s, step) && run[|run| - 1] == Apply(s, step);
      if n in s.settled {
        CarefulRunsLoseNothing(slots, external, before, n);
        SettledIsFinal(slots, external, s, step, n);
      } else {
        CarefulLosesNothing(slots, external, s, step, n);
        DroppedIff(slots, external, s, step, n);
      }
    }
  }

  /** Reporting a successful call and marking it: the record of requests decides. */
  lemma ReportThenMark(s: State, k: nat, id: string, asked: bool)
    requires At(s, k, Between) && id == s.workers[k].entry.task.id && (asked <==> OnRecord(s, id))
    ensures
      var reported := Apply(s, Report(k, StatusOk));
      && Applicable(reported, Mark(k))
      && reported.settled[k] == ByRun(if asked then StatusCancelled else StatusOk)
      && Apply(reported, Mark(k)).q.completed == s.q.completed + (if asked then {} else {id})
  {
    var status := Verdict(s, k, StatusOk);
    var reported := Apply(s, Report(k, StatusOk));
    assert reported.workers[k] == Worker(s.workers[k].entry, Reported(status));
  }

  /** Exactly when a successful run is not reported as one: when a cancel of its id was asked
      for, at whatever time, and no run of that id has ended since. Then its status is
      cancelled, and the tasks that wait for it are not unblocked. */
  lemma SuccessCountsIffNotAsked(slots: int, external: set<string>, run: seq<State>, k: nat)
    requires slots >= 0 && IsRun(slots, external, run) && At(run[|run| - 1], k, Between)
    ensures
      var s := run[|run| - 1];
      var reported := Apply(s, Report(k, StatusOk));
      var id := s.workers[k].entry.task.id;
      && Applicable(reported, Mark(k))
      && reported.settled[k] == ByRun(if Pending(s.log, id) then StatusCancelled else StatusOk)
      && Apply(reported, Mark(k)).q.completed == s.q.completed + (if Pending(s.log, id) then {} else {id})
  {
    RunKeepsInv(slots, external, run);
    var s := run[|run| - 1];
    var id := s.workers[k].entry.task.id;
    assert OnRecord(s, id) <==> Pending(s.log, id);
    ReportThenMark(s, k, id, Pending(s.log, id));
  }

  /** Dependency safety: whatever enters the executor, each of its dependencies is vouched
      for from outside or had a run reported with status ok before. */
  lemma DependenciesFirst(slots: int, external: set<string>, run: seq<State>, n: nat)
    requires slots >= 0 && IsRun(slots, external, run)
    requires n < |run[|run| - 1].log| && run[|run| - 1].log[n].Entered?
    ensures var log := run[|run| - 1].log;
      forall d <- log[n].task.dependsOn :: d in external || exists i :: 0 <= i < n && log[i] == Finished(d, StatusOk)
  {
    RunKeepsInv(slots, external, run);
    var log := run[|run| - 1].log;
    assert EventSafe(external, log, n);
    forall d <- log[n].task.dependsOn
      ensures d in external || exists i :: 0 <= i < n && log[i] == Finished(d, StatusOk)
    {
      assert Done(external, log, n, d);
    }
  }

  /** Every task submitted under an id of `doomed` waits for some id of `doomed`:
      the members of a dependency cycle, with anything downstream of them. */
  ghost predicate Doomed(log: seq<Event>, doomed: set<string>) {
    forall i :: 0 <= i < |log| && log[i].Submitted? && log[i].task.id in doomed ==>
      exists d <- log[i].task.dependsOn :: d in doomed
  }

  /** Nothing on or downstream of a dependency cycle is ever dispatched, if nobody outside
      vouches for it. */
  lemma {:induction false} CyclesNeverRun(
      slots: int, external: set<string>, run: seq<State>, doomed: set<string>, n: nat)
    requires slots >= 0 && IsRun(slots, external, run) && Doomed(run[|run| - 1].log, doomed) && doomed !! external
    requires n < |run[|run| - 1].log| && run[|run| - 1].log[n].Entered?
    ensures run[|run| - 1].log[n].task.id !in doomed
    decreases n
  {
    RunKeepsInv(slots, external, run);
    var log := run[|run| - 1].log;
    var t := log[n].task;
    assert EventSafe(external, log, n);
    if t.id in doomed {
      var i :| 0 <= i < n && log[i] == Submitted(t);
      assert log[i].Submitted? && log[i].task.id in doomed;
      var d :| d in t.dependsOn && d in doomed;
      assert Done(external, log, n, d) && d !in external;
      var j :| 0 <= j < n && log[j] == Finished(d, StatusOk);
      assert EventSafe(external, log, j);
      var m :| 0 <= m < j && log[m].Entered? && log[m].task.id == d;
      CyclesNeverRun(slots, external, run, doomed, m);
    }
  }

  /** Each dispatch serves high before normal before low, and among equals who came first,
      of the entries that may start at its time; it takes nothing only when none may, and leaves
      queued all that was neither taken nor past its deadline. */
  lemma DispatchIsFirst(slots: int, external: set<string>, s: State, step: Step)
    requires Inv(slots, s) && Enabled(s, external, step) && step.PumpNext?
    ensures ServedInTurn(s.q, step.drainAt, step.now, step.vouched, step.r)
    ensures OthersStay(s.q, step.drainAt, step.r, Apply(s, step).q)
    ensures step.r.Some? ==>
      First(Live(s.q.entries, step.drainAt), step.now, s.q.completed + step.vouched, step.r.value)
  {
    PoppedInTurn(s.q, step.drainAt, step.now, step.vouched, step.r, step.q');
  }

  lemma Extend(slots: int, external: set<string>, run: seq<State>, step: Step) returns (longer: seq<State>)
    requires IsRun(slots, external, run) && Enabled(run[|run| - 1], external, step)
    ensures IsRun(slots, external, longer) && longer[|longer| - 1] == Apply(run[|run| - 1], step)
  {
    longer := run + [Apply(run[|run| - 1], step)];
  }

  /** A pump that begins at `since` with one entry and a free slot goes on to look for a task. */
  lemma PumpLooks(run: seq<State>, e: Entry, since: int) returns (longer: seq<State>)
    requires IsRun(1, {}, run) && !Expired(e.task, since)
    requires var s := run[|run| - 1]; s.pump.Idle? && s.q.entries == [e] && s.free == 1 && s.settled == map[]
    ensures IsRun(1, {}, longer)
    ensures longer[|longer| - 1] == run[|run| - 1].(free := 0, pump := Looking(since))
  {
    var s := run[|run| - 1];
    LiveOrLate(e, since);
    NoVerdicts(map[], ByDeadline);
    assert Drained(s.q, since) == s.q;
    longer := Extend(1, {}, run, PumpStart(since));
    longer := Extend(1, {}, longer, PumpAcquire);
  }

  /** One task, looked for by a pump that began at `since`. */
  lemma RunToLooking(t: Task, since: int) returns (run: seq<State>)
    requires t.id != "" && !Expired(t, since)
    ensures IsRun(1, {}, run)
    ensures run[|run| - 1] ==
      State(Queue([Entry(t, 0)], 1, {t.id}, {}), 0, Looking(since), map[], map[], {}, map[], 0, 0, [Submitted(t)])
  {
    var e := Entry(t, 0);
    run := [Initial(1)];
    run := Extend(1, {}, run, Submit(t));
    assert run[|run| - 1].q == Queue([e], 1, {t.id}, {}) && run[|run| - 1].log == [Submitted(t)];
    run := PumpLooks(run, e, since);
  }

  /** One task, queued and taken by the pump. */
  lemma RunToGot(t: Task) returns (run: seq<State>)
    requires t.id != "" && t.notBefore.None? && t.deadline.None? && t.dependsOn == []
    ensures IsRun(1, {}, run)
    ensures run[|run| - 1]
      == State(Queue([], 1, {t.id}, {}), 0, Got(0, Entry(t, 0)), map[], map[], {}, map[], 0, 0, [Submitted(t)])
  {
    var e := Entry(t, 0);
    run := RunToLooking(t, 0);
    NothingToDrain([e], 0);
    NoVerdicts(map[], Dropped);
    assert Popped(Queue([e], 1, {t.id}, {}), 0, 0, {}, Some(e), Queue([], 1, {t.id}, {}));
    run := Extend(1, {}, run, PumpNext(0, 0, {}, Some(e), Queue([], 1, {t.id}, {})));
  }

  /** One task through a one-slot pool, up to `mark_completed`. */
  lemma RunToMarked(t: Task) returns (run: seq<State>)
    requires t.id != "" && t.notBefore.None? && t.deadline.None? && t.dependsOn == []
    ensures IsRun(1, {}, run)
    ensures var s := run[|run| - 1];
      s.pump.Idle? && s.q == Queue([], 1, {}, {t.id}) && t.id in s.registry && s.settled == map[0 := ByRun(StatusOk)]
  {
    run := RunToGot(t);
    run := Extend(1, {}, run, PumpSpawn);
    run := Extend(1, {}, run, PumpAcquire);
    run := Extend(1, {}, run, Enter(0));
    run := Extend(1, {}, run, Leave(0));
    run := Extend(1, {}, run, Report(0, StatusOk));
    assert run[|run| - 1].q == Queue([], 1, {t.id}, {});
    run := Extend(1, {}, run, Mark(0));
    assert run[|run| - 1].q == Queue([], 1, {}, {t.id});
  }

  /** The same after a cancel of the id before anything was submitted under it. */
  lemma AskedRunToGot(t: Task) returns (run: seq<State>)
    requires t.id != "" && t.notBefore.None? && t.deadline.None? && t.dependsOn == []
    ensures IsRun(1, {}, run)
    ensures run[|run| - 1] == State(Queue([], 1, {t.id}, {}), 0, Got(0, Entry(t, 0)), map[], map[], {t.id}, map[], 0, 0,
                                    [Asked(t.id), Submitted(t)])
  {
    var e := Entry(t, 0);
    run := [Initial(1)];
    run := Extend(1, {}, run, Cancel(t.id));
    run := Extend(1, {}, run, Submit(t));
    assert run[|run| - 1].q == Queue([e], 1, {t.id}, {}) && run[|run| - 1].log == [Asked(t.id), Submitted(t)];
    run := PumpLooks(run, e, 0);
    NothingToDrain([e], 0);
    NoVerdicts(map[], Dropped);
    assert Popped(Queue([e], 1, {t.id}, {}), 0, 0, {}, Some(e), Queue([], 1, {t.id}, {}));
    run := Extend(1, {}, run, PumpNext(0, 0, {}, Some(e), Queue([], 1, {t.id}, {})));
  }

  /** And on to the end of its only call. */
  lemma AskedRunToBetween(t: Task) returns (run: seq<State>)
    requires t.id != "" && t.notBefore.None? && t.deadline.None? && t.dependsOn == []
    ensures IsRun(1, {}, run)
    ensures var s := run[|run| - 1];
      && s.workers == map[0 := Worker(Entry(t, 0), Between)] && s.cancelled == {t.id}
      && s.settled == map[] && s.q == Queue([], 1, {t.id}, {})
  {
    run := AskedRunToGot(t);
    run := Extend(1, {}, run, PumpSpawn);
    run := Extend(1, {}, run, PumpAcquire);
    run := Extend(1, {}, run, Enter(0));
    run := Extend(1, {}, run, Leave(0));
  }

  /** A cancel that found nothing spoils the next run of that id: the call succeeds, the task
      settles as cancelled, and what waits for it stays blocked. */
  lemma StaleCancelSpoilsARun(t: Task) returns (run: seq<State>)
    requires t.id != "" && t.notBefore.None? && t.deadline.None? && t.dependsOn == []
    ensures IsRun(1, {}, run) && At(run[|run| - 1], 0, Between)
    ensures
      var reported := Apply(run[|run| - 1], Report(0, StatusOk));
      && reported.settled == map[0 := ByRun(StatusCancelled)]
      && Applicable(reported, Mark(0)) && Apply(reported, Mark(0)).q == Queue([], 1, {}, {})
  {
    run := AskedRunToBetween(t);
    ReportThenMark(run[|run| - 1], 0, t.id, true);
  }

  /** The failing case: resubmitted and cancelled inside the window, the task is
      neither run nor reported. */
  lemma WindowDropsATask(t: Task) returns (run: seq<State>)
    requires t.id != "" && t.notBefore.None? && t.deadline.None? && t.dependsOn == []
    ensures IsRun(1, {}, run)
    ensures var s := run[|run| - 1]; 1 in s.settled && s.settled[1].Dropped? && s.q.entries == []
  {
    run := RunToMarked(t);
    run := Extend(1, {}, run, Submit(t));
    assert run[|run| - 1].q.entries == [Entry(t, 1)];
    run := Extend(1, {}, run, Cancel(t.id));
  }

  /** The other failing case: a task looked for by a pump that began no later than its
      deadline, once the clock has passed it, is neither run nor reported. */
  lemma DeadlineDropsATask(t: Task, since: int, later: int) returns (run: seq<State>)
    requires t.id != "" && DeadlineBetween(t, since, later)
    ensures IsRun(1, {}, run)
    ensures var s := run[|run| - 1]; s.settled == map[0 := Dropped] && s.q == Queue([], 1, {}, {}) && s.pump.Idle?
  {
    var e := Entry(t, 0);
    run := RunToLooking(t, since);
    OnlyLate(e, later);
    LiveOrLate(e, later);
    run := Extend(1, {}, run, PumpNext(later, later, {}, None, Queue([], 1, {}, {})));
  }

  lemma OnlyLate(e: Entry, now: int)
    requires Expired(e.task, now)
    ensures Drained(Queue([e], 1, {e.task.id}, {}), now) == Queue([], 1, {}, {})
    ensures map[] + Verdicts(Late([e], now), Dropped) == map[e.seqNo := Dropped]
  {
    LiveOrLate(e, now);
    assert Ids([e]) == {e.task.id};
  }

  lemma LiveOrLate(e: Entry, now: int)
    ensures
      if Expired(e.task, now) then Live([e], now) == [] && Late([e], now) == [e]
      else Live([e], now) == [e] && Late([e], now) == []
  {
    assert [e][1..] == [];
    assert Live([e][1..], now) == [] && Late([e][1..], now) == [];
  }
}
