/** The sub-task manager: a bounded pool whose admission check keeps a worker
    available for every queued child. */
module Subtasks {
  import opened Sets

  datatype ChildState = Queued | Running | Succeeded | Failed | Cancelled {
    predicate Finished() { Succeeded? || Failed? || Cancelled? }
  }

  datatype Record = Record(id: string, depth: nat, state: ChildState)

  /** Records are numbered as they are made; an id names its latest record.
      `submitting` and `backlog` hold the items not yet picked up by a worker,
      `executing` those inside `execute`, `leaving` those past it whose worker is
      not back in the pool. `executed` and `promised` are history: records that
      reached `execute`, and records a cancellation of which returned True. */
  datatype State = State(latest: map<string, nat>, records: map<nat, Record>, submitting: set<nat>, backlog: seq<nat>,
                         executing: set<nat>, leaving: set<nat>, cancelled: set<string>,
                         executed: set<nat>, promised: set<nat>, next: nat)

  datatype Refusal = TooDeep | AlreadyInFlight | TooMany
  datatype Spawned = Accepted(record: nat) | Refused(why: Refusal)

  function Unfinished(s: State): set<nat> { set r | r in s.records && !s.records[r].state.Finished() }

  predicate InFlight(s: State, id: string) {
    id in s.latest && s.latest[id] in s.records && !s.records[s.latest[id]].state.Finished()
  }

  /** The children that have not come to an end: they wait or they run. */
  function Going(s: State): set<nat> {
    set r | r in s.records && (s.records[r].state == Queued || s.records[r].state == Running)
  }

  /** The id's latest child has not come to an end. */
  predicate Under(s: State, id: string) { id in s.latest && s.latest[id] in Going(s) }

  lemma GoingIsUnfinished(s: State)
    ensures Going(s) == Unfinished(s) && forall id :: Under(s, id) <==> InFlight(s, id)
  {
  }

  function WithState(s: State, r: nat, c: ChildState): map<nat, Record>
    requires r in s.records
  {
    s.records[r := s.records[r].(state := c)]
  }

  function AfterSpawn(s: State, id: string, depth: nat): State {
    s.(latest := s.latest[id := s.next], records := s.records[s.next := Record(id, depth, Queued)],
       submitting := s.submitting + {s.next}, next := s.next + 1)
  }

  function AfterSubmit(s: State, r: nat): State {
    s.(submitting := s.submitting - {r}, backlog := s.backlog + [r])
  }

  /** A free worker picks up the oldest item: it never starts if its id was cancelled. */
  function AfterPick(s: State): State
    requires s.backlog != [] && s.backlog[0] in s.records
  {
    var r := s.backlog[0];
    if s.records[r].id in s.cancelled then
      s.(backlog := s.backlog[1..], records := WithState(s, r, Cancelled))
    else
      s.(backlog := s.backlog[1..], records := WithState(s, r, Running), executing := s.executing + {r},
        executed := s.executed + {r})
  }

  function AfterReturn(s: State, r: nat, ok: bool): State
    requires r in s.records
  {
    s.(records := WithState(s, r, if ok then Succeeded else Failed), executing := s.executing - {r},
      leaving := s.leaving + {r})
  }

  function AfterCancel(s: State, id: string): State {
    var t := s.(cancelled := s.cancelled + {id});
    if id in s.latest && s.latest[id] in s.records && s.records[s.latest[id]].state.Queued? then
      t.(records := WithState(s, s.latest[id], Cancelled), promised := s.promised + {s.latest[id]})
    else t
  }

  ghost predicate RecordSafe(maxDepth: nat, s: State, r: nat)
    requires r in s.records
  {
    var c := s.records[r];
    && r < s.next && c.depth <= maxDepth
    && (!c.state.Finished() ==> c.id in s.latest && s.latest[c.id] == r)
    && (r in s.executing <==> c.state.Running?)
    && (r in s.leaving ==> c.state.Succeeded? || c.state.Failed?)
    && (r in s.executed <==> c.state.Running? || c.state.Succeeded? || c.state.Failed?)
    && (c.state.Queued? ==> r in s.submitting || r in s.backlog)
    && (r in s.submitting || r in s.backlog ==> c.state.Queued? || c.state.Cancelled?)
    && (c.state.Cancelled? ==> c.id in s.cancelled)
    && (r in s.promised ==> c.state.Cancelled? && c.id in s.cancelled)
  }

  /** An id names a record of its own. */
  ghost predicate Named(s: State) {
    forall id <- s.latest :: s.latest[id] in s.records && s.records[s.latest[id]].id == id
  }

  /** Every number the manager keeps is that of a record. */
  ghost predicate Known(s: State) {
    && (forall r <- s.backlog :: r in s.records)
    && s.submitting <= s.records.Keys && s.executing <= s.records.Keys && s.leaving <= s.records.Keys
    && s.executed <= s.records.Keys && s.promised <= s.records.Keys
  }

  /** An item waits once. */
  ghost predicate Once(s: State) {
    && (forall i, j :: 0 <= i < j < |s.backlog| ==> s.backlog[i] != s.backlog[j])
    && (forall r <- s.backlog :: r !in s.submitting)
  }

  ghost predicate AllSafe(maxDepth: nat, s: State) {
    forall r: nat {:trigger RecordSafe(maxDepth, s, r)} :: r in s.records ==> RecordSafe(maxDepth, s, r)
  }

  ghost predicate Valid(maxActive: nat, maxDepth: nat, s: State) {
    && AllSafe(maxDepth, s)
    && Named(s) && Known(s) && Once(s)
    && |Unfinished(s)| <= maxActive
    && |s.executing| + |s.leaving| <= maxActive
  }

  function QueuedRecords(s: State): set<nat> { set r | r in s.records && s.records[r].state.Queued? }

  // ---------------------------------------------------------------------
  // Every step keeps this
  // ---------------------------------------------------------------------

  lemma SpawnKeepsRecord(maxActive: nat, maxDepth: nat, s: State, id: string, depth: nat, r: nat)
    requires Valid(maxActive, maxDepth, s) && depth <= maxDepth && !InFlight(s, id)
    requires r in AfterSpawn(s, id, depth).records
    requires s.next !in s.records
    ensures RecordSafe(maxDepth, AfterSpawn(s, id, depth), r)
  {
    if r != s.next { assert RecordSafe(maxDepth, s, r); }
  }

  lemma NextIsFresh(maxActive: nat, maxDepth: nat, s: State)
    requires Valid(maxActive, maxDepth, s)
    ensures s.next !in s.records
  {
    assert s.next in s.records ==> RecordSafe(maxDepth, s, s.next);
  }

  lemma SpawnKeepsValid(maxActive: nat, maxDepth: nat, s: State, id: string, depth: nat)
    requires Valid(maxActive, maxDepth, s) && depth <= maxDepth && !InFlight(s, id) && |Unfinished(s)| < maxActive
    ensures Valid(maxActive, maxDepth, AfterSpawn(s, id, depth))
  {
    var t := AfterSpawn(s, id, depth);
    NextIsFresh(maxActive, maxDepth, s);
    forall r | r in t.records
      ensures RecordSafe(maxDepth, t, r)
    {
      SpawnKeepsRecord(maxActive, maxDepth, s, id, depth, r);
    }
    SpawnAddsOne(s, id, depth);
  }

  lemma SpawnAddsOne(s: State, id: string, depth: nat)
    requires s.next !in s.records
    ensures |Unfinished(AfterSpawn(s, id, depth))| == |Unfinished(s)| + 1
  {
    assert Unfinished(AfterSpawn(s, id, depth)) == Unfinished(s) + {s.next};
  }

  lemma SubmitKeepsValid(maxActive: nat, maxDepth: nat, s: State, r0: nat)
    requires Valid(maxActive, maxDepth, s) && r0 in s.submitting
    ensures Valid(maxActive, maxDepth, AfterSubmit(s, r0))
  {
    var t := AfterSubmit(s, r0);
    forall r | r in t.records ensures RecordSafe(maxDepth, t, r) { assert RecordSafe(maxDepth, s, r); }
    assert Unfinished(t) == Unfinished(s);
  }

  lemma PickKeepsRecord(maxActive: nat, maxDepth: nat, s: State, r: nat)
    requires Valid(maxActive, maxDepth, s) && s.backlog != [] && r in s.records
    ensures RecordSafe(maxDepth, AfterPick(s), r)
  {
    var r0 := s.backlog[0];
    assert RecordSafe(maxDepth, s, r) && RecordSafe(maxDepth, s, r0);
    assert r in s.backlog <==> r == r0 || r in s.backlog[1..];
  }

  /** The picked child was cancelled: it finishes without running. */
  lemma PickCancelled(maxActive: nat, maxDepth: nat, s: State)
    requires Valid(maxActive, maxDepth, s) && s.backlog != [] && |s.executing| + |s.leaving| < maxActive
    requires s.records[s.backlog[0]].id in s.cancelled
    ensures Named(AfterPick(s)) && Known(AfterPick(s)) && Once(AfterPick(s))
    ensures |AfterPick(s).executing| + |AfterPick(s).leaving| <= maxActive
  {}

  /** The picked child starts. */
  lemma PickStarted(maxActive: nat, maxDepth: nat, s: State)
    requires Valid(maxActive, maxDepth, s) && s.backlog != [] && |s.executing| + |s.leaving| < maxActive
    requires s.records[s.backlog[0]].id !in s.cancelled
    ensures Named(AfterPick(s)) && Known(AfterPick(s)) && Once(AfterPick(s))
    ensures |AfterPick(s).executing| + |AfterPick(s).leaving| <= maxActive
  {}

  lemma PickKeepsValid(maxActive: nat, maxDepth: nat, s: State)
    requires Valid(maxActive, maxDepth, s) && s.backlog != [] && |s.executing| + |s.leaving| < maxActive
    ensures Valid(maxActive, maxDepth, AfterPick(s))
  {
    var t := AfterPick(s);
    forall r | r in t.records ensures RecordSafe(maxDepth, t, r) { PickKeepsRecord(maxActive, maxDepth, s, r); }
    if s.records[s.backlog[0]].id in s.cancelled {
      PickCancelled(maxActive, maxDepth, s);
    } else {
      PickStarted(maxActive, maxDepth, s);
    }
    assert RecordSafe(maxDepth, s, s.backlog[0]);
    SubsetSize(Unfinished(t), Unfinished(s));
  }

  lemma ReturnKeepsValid(maxActive: nat, maxDepth: nat, s: State, r0: nat, ok: bool)
    requires Valid(maxActive, maxDepth, s) && r0 in s.executing
    ensures Valid(maxActive, maxDepth, AfterReturn(s, r0, ok))
  {
    var t := AfterReturn(s, r0, ok);
    assert RecordSafe(maxDepth, s, r0);
    forall r | r in t.records ensures RecordSafe(maxDepth, t, r) { assert RecordSafe(maxDepth, s, r); }
    SubsetSize(Unfinished(t), Unfinished(s));
    assert |t.executing| == |s.executing| - 1 && |t.leaving| <= |s.leaving| + 1;
  }

  lemma CancelKeepsRecord(maxDepth: nat, s: State, id: string, r: nat)
    requires r in s.records && RecordSafe(maxDepth, s, r) && Named(s)
    ensures RecordSafe(maxDepth, AfterCancel(s, id), r)
  {}

  lemma CancelKeepsValid(maxActive: nat, maxDepth: nat, s: State, id: string)
    requires Valid(maxActive, maxDepth, s)
    ensures Valid(maxActive, maxDepth, AfterCancel(s, id))
  {
    var t := AfterCancel(s, id);
    forall r | r in t.records ensures RecordSafe(maxDepth, t, r) {
      assert RecordSafe(maxDepth, s, r);
      CancelKeepsRecord(maxDepth, s, id, r);
    }
    SubsetSize(Unfinished(t), Unfinished(s));
  }

  lemma LeaveKeepsValid(maxActive: nat, maxDepth: nat, s: State, r0: nat)
    requires Valid(maxActive, maxDepth, s) && r0 in s.leaving
    ensures Valid(maxActive, maxDepth, s.(leaving := s.leaving - {r0}))
  {
    var t := s.(leaving := s.leaving - {r0});
    forall r | r in t.records ensures RecordSafe(maxDepth, t, r) { assert RecordSafe(maxDepth, s, r); }
    assert Unfinished(t) == Unfinished(s);
  }

  // ---------------------------------------------------------------------
  // Every run
  // ---------------------------------------------------------------------

  function Initial(): State { State(map[], map[], {}, [], {}, {}, {}, {}, {}, 0) }

  /** One step of the manager, whichever thread takes it. */
  ghost predicate Step(maxActive: nat, maxDepth: nat, s: State, s': State) {
    || (exists id, depth: nat ::
      depth <= maxDepth && !InFlight(s, id) && |Unfinished(s)| < maxActive && s' == AfterSpawn(s, id, depth))
    || (exists r: nat :: r in s.submitting && s' == AfterSubmit(s, r))
    || (s.backlog != [] && s.backlog[0] in s.records && |s.executing| + |s.leaving| < maxActive && s' == AfterPick(s))
    || (exists r: nat, ok :: r in s.executing && r in s.records && s' == AfterReturn(s, r, ok))
    || (exists r: nat :: r in s.leaving && s' == s.(leaving := s.leaving - {r}))
    || (exists id :: s' == AfterCancel(s, id))
  }

  ghost predicate Absorbs(s: State, s': State, r: nat) {
    r in s.records ==>
      r in s'.records && s'.records[r] == s.records[r] && s.executed <= s'.executed && s.promised <= s'.promised
  }

  lemma PickAbsorbs(maxDepth: nat, s: State, r: nat)
    requires s.backlog != [] && s.backlog[0] in s.records && RecordSafe(maxDepth, s, s.backlog[0])
    requires r in s.records && s.records[r].state.Finished()
    ensures Absorbs(s, AfterPick(s), r)
  {
  }

  lemma ReturnAbsorbs(maxDepth: nat, s: State, r0: nat, ok: bool, r: nat)
    requires r0 in s.executing && r0 in s.records && RecordSafe(maxDepth, s, r0)
    requires r in s.records && s.records[r].state.Finished()
    ensures Absorbs(s, AfterReturn(s, r0, ok), r)
  {
  }

  lemma CancelAbsorbs(s: State, id: string, r: nat)
    requires r in s.records && s.records[r].state.Finished()
    ensures Absorbs(s, AfterCancel(s, id), r)
  {
  }

  lemma SpawnAbsorbs(maxActive: nat, maxDepth: nat, s: State, id: string, depth: nat, r: nat)
    requires Valid(maxActive, maxDepth, s) && r in s.records
    ensures Absorbs(s, AfterSpawn(s, id, depth), r)
  {
    NextIsFresh(maxActive, maxDepth, s);
  }

  lemma StepAbsorbs(maxActive: nat, maxDepth: nat, s: State, s': State, r: nat)
    requires Valid(maxActive, maxDepth, s) && Step(maxActive, maxDepth, s, s')
    requires r in s.records && s.records[r].state.Finished()
    ensures Absorbs(s, s', r)
  {
    if s.backlog != [] && s.backlog[0] in s.records && s' == AfterPick(s) {
      assert RecordSafe(maxDepth, s, s.backlog[0]);
      PickAbsorbs(maxDepth, s, r);
    } else if r0: nat, ok :| r0 in s.executing && r0 in s.records && s' == AfterReturn(s, r0, ok) {
      assert RecordSafe(maxDepth, s, r0);
      ReturnAbsorbs(maxDepth, s, r0, ok, r);
    } else if id :| s' == AfterCancel(s, id) {
      CancelAbsorbs(s, id, r);
    } else if id, depth: nat :| s' == AfterSpawn(s, id, depth) {
      SpawnAbsorbs(maxActive, maxDepth, s, id, depth, r);
    }
  }

  lemma StepKeepsValid(maxActive: nat, maxDepth: nat, s: State, s': State)
    requires Valid(maxActive, maxDepth, s) && Step(maxActive, maxDepth, s, s')
    ensures Valid(maxActive, maxDepth, s')
  {
    if id, depth: nat :|
      depth <= maxDepth && !InFlight(s, id) && |Unfinished(s)| < maxActive && s' == AfterSpawn(s, id, depth)
    {
      SpawnKeepsValid(maxActive, maxDepth, s, id, depth);
    } else if r: nat :| r in s.submitting && s' == AfterSubmit(s, r) {
      SubmitKeepsValid(maxActive, maxDepth, s, r);
    } else if
      s.backlog != [] && s.backlog[0] in s.records && |s.executing| + |s.leaving| < maxActive && s' == AfterPick(s)
    {
      PickKeepsValid(maxActive, maxDepth, s);
    } else if r: nat, ok :| r in s.executing && r in s.records && s' == AfterReturn(s, r, ok) {
      ReturnKeepsValid(maxActive, maxDepth, s, r, ok);
    } else if r: nat :| r in s.leaving && s' == s.(leaving := s.leaving - {r}) {
      LeaveKeepsValid(maxActive, maxDepth, s, r);
    } else {
      var id :| s' == AfterCancel(s, id);
      CancelKeepsValid(maxActive, maxDepth, s, id);
    }
  }

  ghost predicate StepAt(maxActive: nat, maxDepth: nat, run: seq<State>, i: nat)
    requires i + 1 < |run|
  {
    Step(maxActive, maxDepth, run[i], run[i + 1])
  }

  /** The manager from its creation on, all threads interleaved. */
  ghost predicate IsRun(maxActive: nat, maxDepth: nat, run: seq<State>) {
    && |run| > 0 && run[0] == Initial()
    && forall i :: 0 <= i < |run| - 1 ==> StepAt(maxActive, maxDepth, run, i)
  }

  lemma {:induction false} RunIsValid(maxActive: nat, maxDepth: nat, run: seq<State>, i: nat)
    requires IsRun(maxActive, maxDepth, run) && i < |run|
    ensures Valid(maxActive, maxDepth, run[i])
  {
    if i == 0 {
      assert Unfinished(Initial()) == {};
    } else {
      RunIsValid(maxActive, maxDepth, run, i - 1);
      assert StepAt(maxActive, maxDepth, run, i - 1);
      StepKeepsValid(maxActive, maxDepth, run[i - 1], run[i]);
    }
  }

  /** In every reachable state, queued and running children together fit the pool. */
  lemma AdmissionBound(maxActive: nat, maxDepth: nat, run: seq<State>)
    requires IsRun(maxActive, maxDepth, run)
    ensures var s := run[|run| - 1]; |QueuedRecords(s)| + |s.executing| <= maxActive
  {
    RunIsValid(maxActive, maxDepth, run, |run| - 1);
    ValidFits(maxActive, maxDepth, run[|run| - 1]);
  }

  lemma ValidFits(maxActive: nat, maxDepth: nat, s: State)
    requires Valid(maxActive, maxDepth, s)
    ensures |QueuedRecords(s)| + |s.executing| <= maxActive
  {
    var q := QueuedRecords(s);
    forall r <- s.executing ensures r in Unfinished(s) && r !in q { assert RecordSafe(maxDepth, s, r); }
    assert q <= Unfinished(s);
    SubsetSize(q + s.executing, Unfinished(s));
    assert |q + s.executing| == |q| + |s.executing|;
  }

  /** No starvation: in every reachable state with a queued child some worker is not
      inside `execute`, even when every running child waits for others; either it is
      free or it is on its way back to the pool. */
  lemma NoStarvation(maxActive: nat, maxDepth: nat, run: seq<State>, r: nat)
    requires IsRun(maxActive, maxDepth, run)
    requires var s := run[|run| - 1]; r in s.records && s.records[r].state.Queued?
    ensures var s := run[|run| - 1];
      |s.executing| < maxActive && (|s.executing| + |s.leaving| < maxActive || s.leaving != {})
  {
    var s := run[|run| - 1];
    AdmissionBound(maxActive, maxDepth, run);
    assert r in QueuedRecords(s);
    SubsetSize({r}, QueuedRecords(s));
  }

  lemma RunStepAbsorbs(maxActive: nat, maxDepth: nat, run: seq<State>, i: nat, r: nat)
    requires IsRun(maxActive, maxDepth, run) && i + 1 < |run|
    requires r in run[i].records && run[i].records[r].state.Finished()
    ensures Absorbs(run[i], run[i + 1], r)
  {
    RunIsValid(maxActive, maxDepth, run, i);
    assert StepAt(maxActive, maxDepth, run, i);
    StepAbsorbs(maxActive, maxDepth, run[i], run[i + 1], r);
  }

  /** Terminal states are absorbing, and history only grows: what is finished, executed or
      promised at one point of a run is so at every later one. */
  lemma {:induction false} TerminalIsAbsorbing(maxActive: nat, maxDepth: nat, run: seq<State>, i: nat, j: nat, r: nat)
    requires IsRun(maxActive, maxDepth, run) && i <= j < |run|
    requires r in run[i].records && run[i].records[r].state != Queued && run[i].records[r].state != Running
    ensures r in run[j].records && run[j].records[r] == run[i].records[r]
    ensures run[i].executed <= run[j].executed && run[i].promised <= run[j].promised
    decreases j
  {
    if i < j {
      TerminalIsAbsorbing(maxActive, maxDepth, run, i, j - 1, r);
      RunStepAbsorbs(maxActive, maxDepth, run, j - 1, r);
    }
  }

  /** A child for which `cancel` returned True at some point of a run has not reached
      `execute` before and never reaches it after. */
  lemma PromisedNeverRuns(maxActive: nat, maxDepth: nat, run: seq<State>, i: nat, j: nat, r: nat)
    requires IsRun(maxActive, maxDepth, run) && i <= j < |run| && r in run[i].promised
    ensures r !in run[j].executed
  {
    RunIsValid(maxActive, maxDepth, run, i);
    RunIsValid(maxActive, maxDepth, run, j);
    assert RecordSafe(maxDepth, run[i], r);
    TerminalIsAbsorbing(maxActive, maxDepth, run, i, j, r);
    assert RecordSafe(maxDepth, run[j], r);
  }

  // ---------------------------------------------------------------------
  // The manager
  // ---------------------------------------------------------------------

  /** The lock-protected sections of the manager, each one step. */
  class SubtaskManager {
    const maxActive: nat
    const maxDepth: nat
    var s: State

    ghost predicate Consistent() reads this { maxActive >= 1 && Valid(maxActive, maxDepth, s) }

    constructor (maxActive: int, maxDepth: int)
      ensures Consistent() && s == Initial()
      ensures this.maxActive == (if maxActive > 1 then maxActive else 1)
      ensures this.maxDepth == if maxDepth > 1 then maxDepth else 1
    {
      this.maxActive := if maxActive > 1 then maxActive else 1;
      this.maxDepth := if maxDepth > 1 then maxDepth else 1;
      s := Initial();
      new;
      assert Unfinished(s) == {};
    }

    /** `spawn`: refuses what is too deep, already in flight, or one too many. */
    method Spawn(id: string, depth: nat) returns (r: Spawned)
      requires Consistent()
      modifies this`s
      ensures Consistent()
      ensures r.Accepted? <==> depth <= maxDepth && !Under(old(s), id) && |Going(old(s))| < maxActive
      ensures r.Accepted? ==>
        && s == AfterSpawn(old(s), id, depth) && Step(maxActive, maxDepth, old(s), s)
        && r.record !in old(s).records && s.latest == old(s).latest[id := r.record]
        && s.records == old(s).records[r.record := Record(id, depth, Queued)]
        && s.cancelled == old(s).cancelled && s.executed == old(s).executed && s.promised == old(s).promised
      ensures r.Refused? ==> s == old(s)
      ensures r == Refused(TooDeep) <==> depth > maxDepth
      ensures r == Refused(AlreadyInFlight) <==> depth <= maxDepth && Under(old(s), id)
    {
      NextIsFresh(maxActive, maxDepth, s);
      GoingIsUnfinished(s);
      if depth > maxDepth { return Refused(TooDeep); }
      if InFlight(s, id) { return Refused(AlreadyInFlight); }
      var active := ActiveCount();
      if active >= maxActive { return Refused(TooMany); }
      SpawnKeepsValid(maxActive, maxDepth, s, id, depth);
      r := Accepted(s.next);
      s := AfterSpawn(s, id, depth);
    }

    /** `active_count`: the records that are not finished. */
    method ActiveCount() returns (n: nat)
      requires Consistent()
      ensures n == |Going(s)|
    {
      GoingIsUnfinished(s);
      forall x | x in s.records && !s.records[x].state.Finished()
        ensures s.records[x].id in s.latest && s.latest[s.records[x].id] == x
      {
        assert RecordSafe(maxDepth, s, x);
      }
      n := 0;
      var left := s.latest.Keys;
      ghost var seen: set<nat> := {};
      while left != {}
        invariant left <= s.latest.Keys
        invariant n == |seen| && forall r ::
          r in seen <==> r in s.records && !s.records[r].state.Finished() && s.records[r].id !in left
        decreases |left|
      {
        var id :| id in left;
        var r := s.latest[id];
        if !s.records[r].state.Finished() {
          seen := seen + {r};
          n := n + 1;
        }
        left := left - {id};
      }
      assert seen == Unfinished(s);
    }

    /** The pool takes the item over. */
    method Submit(r: nat)
      requires Consistent() && r in s.submitting
      modifies this`s
      ensures Consistent() && s == AfterSubmit(old(s), r) && Step(maxActive, maxDepth, old(s), s)
    {
      SubmitKeepsValid(maxActive, maxDepth, s, r);
      s := AfterSubmit(s, r);
    }

    /** The start of `_run` on a free worker. */
    method BeginRun() returns (started: bool)
      requires Consistent() && s.backlog != [] && |s.executing| + |s.leaving| < maxActive
      modifies this`s
      ensures Consistent() && s == AfterPick(old(s)) && Step(maxActive, maxDepth, old(s), s)
      ensures started <==> old(s.records[s.backlog[0]]).id !in old(s).cancelled
      ensures var q, was := old(s).backlog[0], old(s.records[s.backlog[0]]);
        && s.records == old(s).records[q := was.(state := if started then Running else Cancelled)]
        && s.executing == old(s).executing + (if started then {q} else {})
        && s.executed == old(s).executed + (if started then {q} else {}) && s.backlog == old(s).backlog[1..]
        && s.latest == old(s).latest && s.cancelled == old(s).cancelled && s.promised == old(s).promised
    {
      assert RecordSafe(maxDepth, s, s.backlog[0]);
      PickKeepsValid(maxActive, maxDepth, s);
      started := s.records[s.backlog[0]].id !in s.cancelled;
      s := AfterPick(s);
    }

    /** `execute` returned (`ok`), returned a failure, or raised. */
    method EndRun(r: nat, ok: bool)
      requires Consistent() && r in s.executing
      modifies this`s
      ensures Consistent() && s == AfterReturn(old(s), r, ok) && Step(maxActive, maxDepth, old(s), s)
      ensures s.records == old(s).records[r := old(s).records[r].(state := if ok then Succeeded else Failed)]
      ensures s.executing == old(s).executing - {r} && s.leaving == old(s).leaving + {r}
      ensures s == old(s).(records := s.records, executing := s.executing, leaving := s.leaving)
    {
      ReturnKeepsValid(maxActive, maxDepth, s, r, ok);
      s := AfterReturn(s, r, ok);
    }

    /** The worker is back in the pool. */
    method Leave(r: nat)
      requires Consistent() && r in s.leaving
      modifies this`s
      ensures Consistent() && s == old(s).(leaving := old(s).leaving - {r}) && Step(maxActive, maxDepth, old(s), s)
    {
      LeaveKeepsValid(maxActive, maxDepth, s, r);
      s := s.(leaving := s.leaving - {r});
    }

    /** `cancel`: effective only before the child starts running. */
    method Cancel(id: string) returns (stopped: bool)
      requires Consistent()
      modifies this`s
      ensures Consistent() && s == AfterCancel(old(s), id) && Step(maxActive, maxDepth, old(s), s)
      ensures stopped <==> id in old(s).latest && old(s.records[s.latest[id]]).state == Queued
      ensures s.cancelled == old(s).cancelled + {id}
      ensures stopped ==> var q := s.latest[id];
        && s.records == old(s).records[q := old(s).records[q].(state := Cancelled)]
        && s.promised == old(s).promised + {q} && q !in s.executed
      ensures !stopped ==> s == old(s).(cancelled := s.cancelled)
      ensures s == old(s).(cancelled := s.cancelled, records := s.records, promised := s.promised)
    {
      CancelKeepsValid(maxActive, maxDepth, s, id);
      stopped := id in s.latest && s.records[s.latest[id]].state.Queued?;
      s := AfterCancel(s, id);
      if stopped { assert RecordSafe(maxDepth, s, s.latest[id]); }
    }
  }
}
