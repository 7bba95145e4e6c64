/** `WorkflowRunner`: the main loop itself, which follows one schedule of the
    step machine whatever its workers, `wait` and `cancel` do. */
module Runner {
  import opened Dag
  import opened Payload
  import opened Plan
  import opened Workflow
  import opened Parallelism
  import Resolution

  datatype Report = Report(ok: bool, cancelled: bool, nodes: seq<Outcome>, order: seq<string>,
                           total: nat, succeeded: nat, failed: nat, skipped: nat, cancelledCount: nat)

  function InOrder(nodes: seq<Node>, outcomes: Outcomes): seq<Outcome> {
    if nodes == [] then [] else
    (if nodes[0].id in outcomes then [outcomes[nodes[0].id]] else []) + InOrder(nodes[1..], outcomes)
  }

  datatype Verdict = Succeeded | Failed | WasSkipped | WasCancelled

  function VerdictOf(o: Outcome): Verdict {
    match o
    case Ran(ok, _, _) => if ok then Succeeded else Failed
    case Skipped => WasSkipped
    case Cancelled => WasCancelled
  }

  function Count(os: seq<Outcome>, v: Verdict): nat {
    if os == [] then 0 else (if VerdictOf(os[0]) == v then 1 else 0) + Count(os[1..], v)
  }

  /** Every outcome is counted once. */
  lemma {:induction false} CountsAddUp(os: seq<Outcome>)
    ensures Count(os, Succeeded) + Count(os, Failed) + Count(os, WasSkipped) + Count(os, WasCancelled) == |os|
  {
    if os != [] { CountsAddUp(os[1..]); }
  }

  /** The places of the outcomes of each kind. */
  function Successes(os: seq<Outcome>): set<int> { set i | 0 <= i < |os| && os[i].Ran? && os[i].ok }
  function Failures(os: seq<Outcome>): set<int> { set i | 0 <= i < |os| && os[i].Ran? && !os[i].ok }
  function Skippings(os: seq<Outcome>): set<int> { set i | 0 <= i < |os| && os[i].Skipped? }
  function Cancellings(os: seq<Outcome>): set<int> { set i | 0 <= i < |os| && os[i].Cancelled? }

  /** The places from `k` on of the outcomes with this verdict. */
  function PlacesOf(os: seq<Outcome>, v: Verdict, k: nat): set<int> {
    set i | k <= i < |os| && VerdictOf(os[i]) == v
  }

  lemma {:induction false} CountIsPlaces(os: seq<Outcome>, v: Verdict, k: nat)
    requires k <= |os|
    ensures Count(os[k..], v) == |PlacesOf(os, v, k)|
    decreases |os| - k
  {
    if k < |os| {
      CountIsPlaces(os, v, k + 1);
      var rest := PlacesOf(os, v, k + 1);
      assert PlacesOf(os, v, k) == if VerdictOf(os[k]) == v then rest + {k} else rest;
      assert os[k..][0] == os[k] && os[k..][1..] == os[k + 1..];
    }
  }

  lemma CountsArePlaces(os: seq<Outcome>)
    ensures Count(os, Succeeded) == |Successes(os)| && Count(os, Failed) == |Failures(os)|
    ensures Count(os, WasSkipped) == |Skippings(os)| && Count(os, WasCancelled) == |Cancellings(os)|
  {
    assert os[0..] == os;
    CountIsPlaces(os, Succeeded, 0);
    CountIsPlaces(os, Failed, 0);
    CountIsPlaces(os, WasSkipped, 0);
    CountIsPlaces(os, WasCancelled, 0);
    assert PlacesOf(os, Succeeded, 0) == Successes(os) && PlacesOf(os, Failed, 0) == Failures(os);
    assert PlacesOf(os, WasSkipped, 0) == Skippings(os) && PlacesOf(os, WasCancelled, 0) == Cancellings(os);
  }

  lemma {:induction false} OrderedIsComplete(nodes: seq<Node>, outcomes: Outcomes)
    requires forall n <- nodes :: n.id in outcomes
    ensures |InOrder(nodes, outcomes)| == |nodes|
    ensures forall i :: 0 <= i < |nodes| ==> InOrder(nodes, outcomes)[i] == outcomes[nodes[i].id]
  {
    if nodes != [] { OrderedIsComplete(nodes[1..], outcomes); }
  }

  class WorkflowRunner {
    /** The cancel event; other threads may set it at any time. */
    var cancelled: bool

    constructor ()
      ensures !cancelled
    {
      cancelled := false;
    }

    method Cancel()
      modifies this
      ensures cancelled
    {
      cancelled := true;
    }

    /** A moment at which another thread may have called `Cancel`. */
    method Meanwhile(spec: Spec, exec: Execute, ghost run: seq<State>) returns (ghost later: seq<State>)
      requires UniqueIds(spec.nodes) && IsRun(spec, exec, run) && run[|run| - 1].cancelled == cancelled
      modifies this
      ensures IsRun(spec, exec, later)
      ensures later[|later| - 1] == run[|run| - 1].(cancelled := cancelled)
      ensures old(cancelled) ==> cancelled
    {
      later := run;
      if * {
        Cancel();
        later := run + [run[|run| - 1].(cancelled := true)];
      }
    }

    /** Launches or skips the ready nodes, one by one. */
    method LaunchReady(spec: Spec, pending: set<string>, inFlight: map<string, Outcomes>, outcomes: Outcomes,
        ghost s: State)
      returns (pending': set<string>, inFlight': map<string, Outcomes>, outcomes': Outcomes)
      requires s.pending == pending && s.inFlight == inFlight && s.outcomes == outcomes && !s.stop && !s.cancelled
      ensures var t := LaunchPass(spec, s);
        t.pending == pending' && t.inFlight == inFlight' && t.outcomes == outcomes'
    {
      pending', inFlight', outcomes' := pending, inFlight, outcomes;
      ghost var t := s;
      var ready := ReadyNodes(spec, State(pending, inFlight, outcomes, false, false, Top, multiset{}));
      assert ready == ReadyNodes(spec, s);
      for i := 0 to |ready|
        invariant t.pending == pending' && t.inFlight == inFlight' && t.outcomes == outcomes'
        invariant Launch(t, ready[i..]) == Launch(s, ready)
      {
        var n := ready[i];
        assert ready[i..][0] == n && ready[i..][1..] == ready[i + 1..];
        t := Decide(t, n);
        pending' := pending' - {n.id};
        if Skips(n, outcomes') {
          outcomes' := outcomes'[n.id := Skipped];
        } else {
          inFlight' := inFlight'[n.id := outcomes'];
        }
      }
    }

    /** `wait`: some in-flight nodes are done; each worker saw some snapshot. */
    method Wait(inFlight: map<string, Outcomes>, outcomes: Outcomes, ghost s: State)
        returns (done: map<string, Outcomes>)
      requires s.inFlight == inFlight && s.outcomes == outcomes && inFlight != map[]
      requires forall id <- inFlight :: SubMap(inFlight[id], outcomes)
      ensures CanComplete(s, done)
    {
      done := *;
      if done == map[]
        || !(forall n <- done :: n in inFlight && SubMap(inFlight[n], done[n]) && SubMap(done[n], outcomes)) {
        done := inFlight;
      }
    }

    /** Records what `wait` returned; any unforgiven failure stops the launching. */
    method Collect(spec: Spec, exec: Execute, done: map<string, Outcomes>, inFlight: map<string, Outcomes>,
                   outcomes: Outcomes, stop: bool, ghost s: State)
      returns (inFlight': map<string, Outcomes>, outcomes': Outcomes, stop': bool)
      requires UniqueIds(spec.nodes) && s.inFlight == inFlight && s.outcomes == outcomes && s.stop == stop
      ensures var t := Complete(spec, exec, s, done);
        t.inFlight == inFlight' && t.outcomes == outcomes' && t.stop == stop'
    {
      var results := Results(spec, exec, done);
      outcomes' := outcomes + results;
      inFlight' := map n | n in inFlight && n !in done :: inFlight[n];
      stop' := stop || (spec.failFast && AnyUnforgiven(spec, results));
    }

    /** `run`. */
    method Run(spec: Spec, exec: Execute) returns (report: Report, outcomes: Outcomes, ghost run: seq<State>)
      requires Planned(spec)
      modifies this
      ensures FinishedRun(spec, exec, run, outcomes, report.cancelled)
      ensures Summarises(spec, exec, outcomes, report)
      ensures old(cancelled) ==> report.cancelled && !report.ok
    {
      var pending := IdsOf(spec.nodes);
      var inFlight: map<string, Outcomes> := map[];
      outcomes := map[];
      var stop := false;
      assert spec.nodes[0].id in pending;
      run := [Initial(spec)];
      if cancelled { run := run + [Initial(spec).(cancelled := true)]; }
      while pending != {} || inFlight != map[]
        invariant Follows(spec, exec, run, pending, inFlight, outcomes, stop,
                          if pending == {} && inFlight == map[] then Exited else Top)
        invariant run[|run| - 1].cancelled == cancelled && (old(cancelled) ==> cancelled)
        decreases Work(run[|run| - 1])
      {
        pending, inFlight, outcomes, run := LaunchTurn(spec, exec, pending, inFlight, outcomes, stop, run);
        if inFlight == map[] {
          outcomes, run := DrainPending(spec, exec, pending, outcomes, stop, run);
          break;
        }
        inFlight, outcomes, stop, run := AwaitTurn(spec, exec, pending, inFlight, outcomes, stop, run);
      }
      report := Summary(spec, exec, outcomes, run);
    }

    /** The first half of an iteration: launch what is ready unless stopped or cancelled. */
    method LaunchTurn(spec: Spec, exec: Execute, pending: set<string>, inFlight: map<string, Outcomes>,
                      outcomes: Outcomes, stop: bool, ghost run: seq<State>)
      returns (pending': set<string>, inFlight': map<string, Outcomes>, outcomes': Outcomes, ghost run': seq<State>)
      requires Planned(spec) && Follows(spec, exec, run, pending, inFlight, outcomes, stop, Top)
      requires run[|run| - 1].cancelled == cancelled
      modifies this
      ensures Follows(spec, exec, run', pending', inFlight', outcomes', stop, Mid)
      ensures run'[|run'| - 1].cancelled == cancelled && Work(run'[|run'| - 1]) <= Work(run[|run| - 1])
      ensures old(cancelled) ==> cancelled
    {
      run' := Meanwhile(spec, exec, run);
      ghost var s := run'[|run'| - 1];
      RunIsSafe(spec, exec, run');
      PassKeepsInv(spec, exec, s);
      pending', inFlight', outcomes' := pending, inFlight, outcomes;
      if !stop && !cancelled {
        pending', inFlight', outcomes' := LaunchReady(spec, pending, inFlight, outcomes, s);
      }
      run' := Extended(spec, exec, run', LaunchPass(spec, s));
      run' := Meanwhile(spec, exec, run');
    }

    /** The second half: wait for completions and record them. */
    method AwaitTurn(spec: Spec, exec: Execute, pending: set<string>, inFlight: map<string, Outcomes>,
                     outcomes: Outcomes, stop: bool, ghost run: seq<State>)
      returns (inFlight': map<string, Outcomes>, outcomes': Outcomes, stop': bool, ghost run': seq<State>)
      requires Planned(spec) && Follows(spec, exec, run, pending, inFlight, outcomes, stop, Mid) && inFlight != map[]
      ensures Follows(spec, exec, run', pending, inFlight', outcomes', stop',
                      if pending == {} && inFlight' == map[] then Exited else Top)
      ensures run'[|run'| - 1].cancelled == run[|run| - 1].cancelled && Work(run'[|run'| - 1]) < Work(run[|run| - 1])
    {
      ghost var s := run[|run| - 1];
      RunIsSafe(spec, exec, run);
      SnapshotsExist(spec, exec, s);
      var done := Wait(inFlight, outcomes, s);
      CompleteKeepsInv(spec, exec, s, done);
      inFlight', outcomes', stop' := Collect(spec, exec, done, inFlight, outcomes, stop, s);
      run' := Extended(spec, exec, run, Complete(spec, exec, s, done));
    }

    /** Nothing runs and nothing was launched: what is pending never will. */
    method DrainPending(spec: Spec, exec: Execute, pending: set<string>, outcomes: Outcomes, stop: bool,
        ghost run: seq<State>)
      returns (outcomes': Outcomes, ghost run': seq<State>)
      requires UniqueIds(spec.nodes) && Follows(spec, exec, run, pending, map[], outcomes, stop, Mid)
      requires run[|run| - 1].cancelled == cancelled
      ensures FinishedRun(spec, exec, run', outcomes', cancelled)
    {
      outcomes' := outcomes + map n | n in pending :: if cancelled then Cancelled else Skipped;
      run' := Extended(spec, exec, run, Drain(run[|run| - 1]));
    }

    ghost method Extended(spec: Spec, exec: Execute, run: seq<State>, s: State) returns (longer: seq<State>)
      requires UniqueIds(spec.nodes) && IsRun(spec, exec, run) && Next(spec, exec, run[|run| - 1], s)
      ensures |longer| > 0 && longer[|longer| - 1] == s && IsRun(spec, exec, longer)
    {
      longer := run + [s];
    }

    method Summary(spec: Spec, exec: Execute, outcomes: Outcomes, ghost run: seq<State>) returns (report: Report)
      requires Planned(spec) && FinishedRun(spec, exec, run, outcomes, cancelled)
      modifies this
      ensures FinishedRun(spec, exec, run, outcomes, report.cancelled)
      ensures Summarises(spec, exec, outcomes, report)
      ensures old(cancelled) ==> report.cancelled && !report.ok
    {
      ExitedRunIsSettled(spec, exec, run);
      var ordered := InOrder(spec.nodes, outcomes);
      var ok := !AnyUnforgiven(spec, outcomes) && !cancelled;
      if * { Cancel(); }
      var order := TopologicalOrder(spec.nodes);
      PlanIsOrdered(spec, order);
      report := Report(ok, cancelled, ordered, order.order, |spec.nodes|, Count(ordered, Succeeded),
                       Count(ordered, Failed), Count(ordered, WasSkipped), Count(ordered, WasCancelled));
      OrderedIsComplete(spec.nodes, outcomes);
      ReportSummarises(spec, exec, outcomes, report);
    }
  }

  /** The sort of an accepted plan succeeds. */
  lemma PlanIsOrdered(spec: Spec, r: TopoResult)
    requires Planned(spec) && SortsInto(spec.nodes, GraphOf(spec.nodes), r)
    ensures r.Ordered? && PlanOrder(spec.nodes, GraphOf(spec.nodes), r.order)
  {
    LinksAreKnown(spec.nodes);
  }

  lemma SnapshotsExist(spec: Spec, exec: Execute, s: State)
    requires Planned(spec) && Inv(spec, exec, s)
    ensures forall id <- s.inFlight :: SubMap(s.inFlight[id], s.outcomes)
  {
    forall id <- s.inFlight ensures SubMap(s.inFlight[id], s.outcomes) { assert NodeSafe(spec, exec, s, id); }
  }

  /** The loop's variables are those of the last state of a run. */
  ghost predicate Follows(spec: Spec, exec: Execute, run: seq<State>, pending: set<string>,
                          inFlight: map<string, Outcomes>, outcomes: Outcomes, stop: bool, phase: Phase)
    requires UniqueIds(spec.nodes)
  {
    && IsRun(spec, exec, run)
    && var s := run[|run| - 1];
      s == s.(pending := pending, inFlight := inFlight, outcomes := outcomes, stop := stop, phase := phase)
  }

  /** A schedule of the step machine that left the loop with these outcomes. */
  ghost predicate FinishedRun(spec: Spec, exec: Execute, run: seq<State>, outcomes: Outcomes, cancelled: bool)
    requires UniqueIds(spec.nodes)
  {
    && IsRun(spec, exec, run) && run[|run| - 1].phase.Exited?
    && run[|run| - 1].outcomes == outcomes && (run[|run| - 1].cancelled ==> cancelled)
  }

  /** It ran behind dependencies that all succeeded, and on its payload with every reference
      replaced by the value of that field of the node it names. */
  ghost predicate RanAsTold(spec: Spec, exec: Execute, id: string, outcomes: Outcomes)
    requires UniqueIds(spec.nodes) && id in outcomes && Has(spec, id)
  {
    var n := ById(spec, id);
    && (forall d <- n.dependsOn :: d in outcomes && outcomes[d].Ran? && outcomes[d].ok)
    && Resolution.RanOn(exec, n, outcomes, outcomes[id])
  }

  /** What the outcomes of a finished run are worth. */
  ghost predicate Settles(spec: Spec, exec: Execute, outcomes: Outcomes, cancelled: bool)
    requires Planned(spec)
  {
    && outcomes.Keys == IdsOf(spec.nodes)
    && (forall id <- outcomes :: Has(spec, id) && (outcomes[id].Ran? ==> outcomes[id] == Reference(spec, exec, id)))
    && (forall id <- outcomes :: outcomes[id].Ran? ==> RanAsTold(spec, exec, id, outcomes))
    && (forall id <- outcomes :: outcomes[id].Cancelled? ==> cancelled)
    && (Roomy(|spec.nodes|, spec.maxParallel) && !cancelled && !(spec.failFast && Blocked(spec, outcomes)) ==>
        forall id <- outcomes :: outcomes[id] == Reference(spec, exec, id))
  }

  /** The summary of a plan: an outcome per node in declaration order, the number of
      outcomes of each kind, which add up to the nodes, the plan's order, and `ok` unless a failure was not forgiven
      or the run was cancelled. */
  ghost predicate Summarises(spec: Spec, exec: Execute, outcomes: Outcomes, report: Report)
    requires Planned(spec)
  {
    && Settles(spec, exec, outcomes, report.cancelled)
    && |report.nodes| == |spec.nodes|
    && (forall i :: 0 <= i < |spec.nodes| ==>
      spec.nodes[i].id in outcomes && report.nodes[i] == outcomes[spec.nodes[i].id])
    && report.total == |spec.nodes|
    && report.succeeded == |Successes(report.nodes)| && report.failed == |Failures(report.nodes)|
    && report.skipped == |Skippings(report.nodes)| && report.cancelledCount == |Cancellings(report.nodes)|
    && report.succeeded + report.failed + report.skipped + report.cancelledCount == report.total
    && (report.ok ==> !Blocked(spec, outcomes))
    && (Blocked(spec, outcomes) || report.cancelled || report.ok)
    && PlanOrder(spec.nodes, GraphOf(spec.nodes), report.order)
  }

  lemma ReportSummarises(spec: Spec, exec: Execute, outcomes: Outcomes, report: Report)
    requires Planned(spec) && Settles(spec, exec, outcomes, report.cancelled)
    requires |report.nodes| == |spec.nodes| == report.total
    requires forall i :: 0 <= i < |spec.nodes| ==>
      spec.nodes[i].id in outcomes && report.nodes[i] == outcomes[spec.nodes[i].id]
    requires report.succeeded == Count(report.nodes, Succeeded) && report.failed == Count(report.nodes, Failed)
    requires report.skipped == Count(report.nodes, WasSkipped)
    requires report.cancelledCount == Count(report.nodes, WasCancelled)
    requires report.ok ==> !AnyUnforgiven(spec, outcomes)
    requires AnyUnforgiven(spec, outcomes) || report.cancelled || report.ok
    requires PlanOrder(spec.nodes, GraphOf(spec.nodes), report.order)
    ensures Summarises(spec, exec, outcomes, report)
  {
    CountsAddUp(report.nodes);
    CountsArePlaces(report.nodes);
    BlockedIsUnforgiven(spec, outcomes);
  }

  lemma {:induction false} NothingCancelledUnasked(spec: Spec, exec: Execute, run: seq<State>)
    requires Planned(spec) && IsRun(spec, exec, run)
    ensures var s := run[|run| - 1]; forall id <- s.outcomes :: s.outcomes[id].Cancelled? ==> s.cancelled
  {
    if |run| > 1 {
      var before := run[..|run| - 1];
      NothingCancelledUnasked(spec, exec, before);
      RunIsSafe(spec, exec, before);
      RunIsSafe(spec, exec, run);
      var s, s' := before[|before| - 1], run[|run| - 1];
      forall id <- s'.outcomes ensures s'.outcomes[id].Cancelled? ==> s'.cancelled {
        assert NodeSafe(spec, exec, s', id);
      }
    }
  }

  /** What a skipped node waited for did not succeed. */
  ghost predicate SkippedForACause(spec: Spec, outcomes: Outcomes, id: string)
    requires UniqueIds(spec.nodes)
  {
    Has(spec, id) && exists d <- ById(spec, id).dependsOn :: d in outcomes && !(outcomes[d].Ran? && outcomes[d].ok)
  }

  lemma SkippedInTheLoop(spec: Spec, exec: Execute, s: State, id: string)
    requires Planned(spec) && Inv(spec, exec, s) && !s.phase.Exited?
    requires id in s.outcomes && s.outcomes[id].Skipped?
    ensures SkippedForACause(spec, s.outcomes, id)
  {
    assert NodeSafe(spec, exec, s, id);
    var d := FailingDependency(spec, exec, ById(spec, id));
    assert NodeSafe(spec, exec, s, d);
  }

  /** A run cancelled while it was in the loop: a node is skipped for a dependency that did
      not succeed, and whatever else never ran is cancelled. */
  lemma {:induction false} CancelledInTheLoop(spec: Spec, exec: Execute, run: seq<State>, i: nat)
    requires Planned(spec) && IsRun(spec, exec, run)
    requires i < |run| && run[i].cancelled && !run[i].phase.Exited?
    ensures var s := run[|run| - 1];
      s.cancelled && forall id <- s.outcomes :: s.outcomes[id].Skipped? ==> SkippedForACause(spec, s.outcomes, id)
  {
    var s' := run[|run| - 1];
    RunIsSafe(spec, exec, run);
    if i < |run| - 1 {
      var before := run[..|run| - 1];
      CancelledInTheLoop(spec, exec, before, i);
      RunIsSafe(spec, exec, before);
      SkippedAfterAStep(spec, exec, before[|before| - 1], s');
    } else {
      forall id <- s'.outcomes ensures s'.outcomes[id].Skipped? ==> SkippedForACause(spec, s'.outcomes, id) {
        if s'.outcomes[id].Skipped? { SkippedInTheLoop(spec, exec, s', id); }
      }
    }
  }

  lemma SkippedAfterAStep(spec: Spec, exec: Execute, s: State, s': State)
    requires Planned(spec) && Inv(spec, exec, s) && Inv(spec, exec, s') && Next(spec, exec, s, s') && s.cancelled
    requires forall id <- s.outcomes :: s.outcomes[id].Skipped? ==> SkippedForACause(spec, s.outcomes, id)
    ensures forall id <- s'.outcomes :: s'.outcomes[id].Skipped? ==> SkippedForACause(spec, s'.outcomes, id)
  {
    forall id <- s'.outcomes ensures s'.outcomes[id].Skipped? ==> SkippedForACause(spec, s'.outcomes, id) {
      if s'.outcomes[id].Skipped? {
        if !s'.phase.Exited? {
          SkippedInTheLoop(spec, exec, s', id);
        } else {
          OutcomesStay(spec, exec, s, s');
          assert id in s.outcomes && SkippedForACause(spec, s.outcomes, id);
        }
      }
    }
  }

  /** What a step resolves stays, and a step into the exit under a cancellation skips nothing. */
  lemma OutcomesStay(spec: Spec, exec: Execute, s: State, s': State)
    requires Planned(spec) && Inv(spec, exec, s) && Next(spec, exec, s, s') && s.cancelled && s'.phase.Exited?
    ensures forall id <- s.outcomes :: id in s'.outcomes && s'.outcomes[id] == s.outcomes[id]
    ensures forall id <- s'.outcomes :: id in s.outcomes || !s'.outcomes[id].Skipped?
  {
    forall id <- s.outcomes ensures id in s'.outcomes && s'.outcomes[id] == s.outcomes[id] {
      assert NodeSafe(spec, exec, s, id);
    }
  }

  lemma ExitedRunIsSettled(spec: Spec, exec: Execute, run: seq<State>)
    requires Planned(spec) && IsRun(spec, exec, run) && run[|run| - 1].phase.Exited?
    ensures Settles(spec, exec, run[|run| - 1].outcomes, run[|run| - 1].cancelled)
    ensures forall n <- spec.nodes :: n.id in run[|run| - 1].outcomes
  {
    var s := run[|run| - 1];
    RunIsSafe(spec, exec, run);
    RunIsBounded(spec, exec, run);
    BlockedIsUnforgiven(spec, s.outcomes);
    if Roomy(|spec.nodes|, spec.maxParallel) && !s.stop && !s.cancelled {
      EveryScheduleAgrees(spec, exec, run);
    }
    forall id <- s.outcomes
      ensures Has(spec, id) && (s.outcomes[id].Ran? ==> s.outcomes[id] == Reference(spec, exec, id))
    {
      assert NodeSafe(spec, exec, s, id);
    }
    forall id <- s.outcomes ensures s.outcomes[id].Ran? ==> RanAsTold(spec, exec, id, s.outcomes) {
      if s.outcomes[id].Ran? {
        assert NodeSafe(spec, exec, s, id);
        Resolution.ExecutedOnResolved(spec, exec, run, id);
      }
    }
    NothingCancelledUnasked(spec, exec, run);
    forall n <- spec.nodes ensures n.id in s.outcomes { assert n.id in IdsOf(spec.nodes); }
  }
}
