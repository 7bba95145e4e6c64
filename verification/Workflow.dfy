/** The workflow runner as a step machine, and the sequential meaning of a plan
    that every schedule of it refines. */
module Workflow {
  import opened Sets
  import opened Dag
  import opened Payload
  import opened Plan

  /** What running a kind amounts to: a result, or an exception. */
  datatype Reply = Returned(result: TaskResult) | Raised(message: string)

  /** The injected `execute`, a function of the node and its resolved payload. */
  type Execute = (Node, Json) -> Reply

  /** `_run_node`, given the outcomes its worker saw. */
  function RunNode(exec: Execute, n: Node, seen: Outcomes): (o: Outcome)
    ensures o.Ran? && (o.Succeeded() ==> o.result.Some? && o.result.value.ok)
  {
    match exec(n, Substitute(n.payload, seen))
    case Returned(t) =>
      Ran(t.ok, Some(t), if t.ok then "" else if t.error == "" then "node returned ok=false" else t.error)
    case Raised(m) => Ran(false, None, m)
  }

  predicate DepsResolved(n: Node, outcomes: Outcomes) {
    forall d <- n.dependsOn :: d in outcomes
  }

  predicate DepsSucceeded(n: Node, outcomes: Outcomes) {
    forall d <- n.dependsOn :: d in outcomes && outcomes[d].Succeeded()
  }

  /** `_skip_reason` is non-empty: a resolved dependency was skipped, cancelled or not ok. */
  predicate Skips(n: Node, outcomes: Outcomes) {
    exists d <- n.dependsOn :: d in outcomes && !outcomes[d].Succeeded()
  }

  predicate SubMap(a: Outcomes, b: Outcomes) {
    forall k <- a :: k in b && a[k] == b[k]
  }

  // ---------------------------------------------------------------------
  // Plans that validation accepted
  // ---------------------------------------------------------------------

  ghost predicate Planned(spec: Spec) { Valid(spec.nodes, spec.maxParallel) }

  predicate Has(spec: Spec, id: string) { exists n <- spec.nodes :: n.id == id }

  function ById(spec: Spec, id: string): (n: Node)
    requires UniqueIds(spec.nodes) && Has(spec, id)
    ensures n in spec.nodes && n.id == id
  {
    var i :| 0 <= i < |spec.nodes| && spec.nodes[i].id == id; spec.nodes[i]
  }

  /** How deep a node sits: the length of its longest dependency chain. */
  ghost function Depth(spec: Spec, id: string): nat
    requires Planned(spec)
  {
    var g := GraphOf(spec.nodes);
    if id in Done(g, |g|) then Height(g, id, |g|) else 0
  }

  lemma DepsAreShallower(spec: Spec, n: Node, d: string)
    requires Planned(spec) && n in spec.nodes && d in n.dependsOn
    ensures Has(spec, d) && d != n.id && Depth(spec, d) < Depth(spec, n.id)
  {
    var g := GraphOf(spec.nodes);
    assert SoundLinks(n, IdsOf(spec.nodes));
    LinksAreKnown(spec.nodes);
    AllDoneIff(g);
    assert n.id in g && g[n.id] == Deps(n);
    HeightDrops(g, n.id, d, |g|);
  }

  /** The sequential reference evaluation of one node. */
  ghost function Reference(spec: Spec, exec: Execute, id: string): (o: Outcome)
    requires Planned(spec) && Has(spec, id)
    ensures o.Ran? || o.Skipped?
    decreases Depth(spec, id)
  {
    var n := ById(spec, id);
    var deps := map d | d in n.dependsOn :: (DepsAreShallower(spec, n, d); Reference(spec, exec, d));
    if DepsSucceeded(n, deps) then RunNode(exec, n, deps) else Skipped
  }

  // ---------------------------------------------------------------------
  // The step machine
  // ---------------------------------------------------------------------

  /** Where the main loop stands: before a launch pass, after it, or left. */
  datatype Phase = Top | Mid | Exited

  /** `inFlight` maps a launched node to the outcomes at its launch, the least
      its worker can see; `started` is the history of launches. */
  datatype State = State(pending: set<string>, inFlight: map<string, Outcomes>, outcomes: Outcomes,
                         stop: bool, cancelled: bool, phase: Phase, started: multiset<string>)

  function Initial(spec: Spec): State {
    State(IdsOf(spec.nodes), map[], map[], false, false, Top, multiset{})
  }

  function Eligible(nodes: seq<Node>, pending: set<string>, outcomes: Outcomes): seq<Node> {
    if nodes == [] then [] else
    (if nodes[0].id in pending && DepsResolved(nodes[0], outcomes) then [nodes[0]] else [])
      + Eligible(nodes[1..], pending, outcomes)
  }

  function Slots(spec: Spec, s: State): nat {
    if spec.maxParallel > |s.inFlight| then spec.maxParallel - |s.inFlight| else 0
  }

  /** `_ready_nodes`: in declaration order, cut to the free slots. */
  function ReadyNodes(spec: Spec, s: State): seq<Node> {
    var e := Eligible(spec.nodes, s.pending, s.outcomes);
    if Slots(spec, s) < |e| then e[..Slots(spec, s)] else e
  }

  /** One turn of the launch loop: skip the node or submit it. */
  function Decide(s: State, n: Node): State {
    if Skips(n, s.outcomes) then
      s.(pending := s.pending - {n.id}, outcomes := s.outcomes[n.id := Skipped])
    else
      s.(pending := s.pending - {n.id}, inFlight := s.inFlight[n.id := s.outcomes],
        started := s.started + multiset{n.id})
  }

  function Launch(s: State, ready: seq<Node>): State
    decreases |ready|
  {
    if ready == [] then s else Launch(Decide(s, ready[0]), ready[1..])
  }

  function LaunchPass(spec: Spec, s: State): State {
    (if s.stop || s.cancelled then s else Launch(s, ReadyNodes(spec, s))).(phase := Mid)
  }

  /** The drain branch: nothing runs, so whatever is pending is resolved without running. */
  function Drained(s: State): Outcomes {
    s.outcomes + map n | n in s.pending :: if s.cancelled then Cancelled else Skipped
  }

  function Drain(s: State): State {
    s.(outcomes := Drained(s), pending := {}, phase := Exited)
  }

  /** `wait` may return any non-empty part of the in-flight nodes; each worker
      took its snapshot some time after its launch and before `wait` returned. */
  predicate CanComplete(s: State, done: map<string, Outcomes>) {
    && done != map[]
    && forall n <- done :: n in s.inFlight && SubMap(s.inFlight[n], done[n]) && SubMap(done[n], s.outcomes)
  }

  function Results(spec: Spec, exec: Execute, done: map<string, Outcomes>): Outcomes
    requires UniqueIds(spec.nodes)
  {
    map n | n in done && Has(spec, n) :: RunNode(exec, ById(spec, n), done[n])
  }

  /** A failure that `continue_on_error` does not excuse. */
  predicate Unforgiven(spec: Spec, outcomes: Outcomes, n: string)
    requires UniqueIds(spec.nodes)
  {
    n in outcomes && Has(spec, n) && outcomes[n].Ran? && !outcomes[n].ok && !ById(spec, n).continueOnError
  }

  predicate AnyUnforgiven(spec: Spec, outcomes: Outcomes)
    requires UniqueIds(spec.nodes)
  {
    exists n <- outcomes :: Unforgiven(spec, outcomes, n)
  }

  function Complete(spec: Spec, exec: Execute, s: State, done: map<string, Outcomes>): State
    requires UniqueIds(spec.nodes)
  {
    var results := Results(spec, exec, done);
    var inFlight := map n | n in s.inFlight && n !in done :: s.inFlight[n];
    s.(outcomes := s.outcomes + results, inFlight := inFlight,
       stop := s.stop || (spec.failFast && AnyUnforgiven(spec, results)),
       phase := if s.pending == {} && inFlight == map[] then Exited else Top)
  }

  ghost predicate Next(spec: Spec, exec: Execute, s: State, s': State)
    requires UniqueIds(spec.nodes)
  {
    || s' == s.(cancelled := true)
    || (s.phase.Top? && s' == LaunchPass(spec, s))
    || (s.phase.Mid? && s.inFlight == map[] && s' == Drain(s))
    || (s.phase.Mid? && exists done :: CanComplete(s, done) && s' == Complete(spec, exec, s, done))
  }

  /** A run: any schedule of workers, completions and cancellation. */
  ghost predicate IsRun(spec: Spec, exec: Execute, run: seq<State>)
    requires UniqueIds(spec.nodes)
  {
    && |run| > 0 && run[0] == Initial(spec)
    && forall i :: 0 <= i < |run| - 1 ==> Next(spec, exec, run[i], run[i + 1])
  }

  // ---------------------------------------------------------------------
  // The reference evaluation and the outcomes of a run
  // ---------------------------------------------------------------------

  lemma ByIdIsUnique(spec: Spec, n: Node)
    requires Planned(spec) && n in spec.nodes
    ensures Has(spec, n.id) && ById(spec, n.id) == n && n.id in IdsOf(spec.nodes)
  {}

  ghost predicate AgreesWithRef(spec: Spec, exec: Execute, ids: seq<string>, seen: Outcomes)
    requires Planned(spec)
  {
    forall d <- ids :: d in seen && Has(spec, d) && seen[d] == Reference(spec, exec, d)
  }

  /** What a node does depends on the outcomes of its dependencies only. */
  lemma RunNodeFrame(spec: Spec, exec: Execute, n: Node, a: Outcomes, b: Outcomes)
    requires Planned(spec) && n in spec.nodes
    requires forall d <- n.dependsOn :: d in a && d in b && a[d] == b[d]
    ensures RunNode(exec, n, a) == RunNode(exec, n, b)
  {
    assert SoundLinks(n, IdsOf(spec.nodes));
    forall r <- References(n.payload) ensures Lookup(r, a) == Lookup(r, b) {
      assert SoundReference(n, IdsOf(spec.nodes), r);
    }
    SubstituteFrame(n.payload, a, b);
  }

  lemma RefRuns(spec: Spec, exec: Execute, n: Node, seen: Outcomes)
    requires Planned(spec) && n in spec.nodes && DepsSucceeded(n, seen)
    requires AgreesWithRef(spec, exec, n.dependsOn, seen)
    ensures Has(spec, n.id) && Reference(spec, exec, n.id) == RunNode(exec, n, seen)
  {
    ByIdIsUnique(spec, n);
    var deps := map d | d in n.dependsOn :: (DepsAreShallower(spec, n, d); Reference(spec, exec, d));
    RunNodeFrame(spec, exec, n, seen, deps);
  }

  lemma RefSkips(spec: Spec, exec: Execute, n: Node, d: string)
    requires Planned(spec) && n in spec.nodes && d in n.dependsOn && Has(spec, d)
    requires !Reference(spec, exec, d).Succeeded()
    ensures Has(spec, n.id) && Reference(spec, exec, n.id) == Skipped
  {
    ByIdIsUnique(spec, n);
  }

  // ---------------------------------------------------------------------
  // The invariant
  // ---------------------------------------------------------------------

  /** A node of the plan is pending, in flight or resolved, and only one of these. */
  ghost predicate InOnePlace(spec: Spec, s: State, id: string) {
    if id in s.pending then id !in s.inFlight && id !in s.outcomes && id in IdsOf(spec.nodes)
    else if id in s.inFlight then id !in s.outcomes && id in IdsOf(spec.nodes)
    else id in s.outcomes <==> id in IdsOf(spec.nodes)
  }

  /** The launch history holds each in-flight or executed node once, and nothing else. */
  ghost predicate StartedOnce(s: State, id: string) {
    s.started[id] == if id in s.inFlight || (id in s.outcomes && s.outcomes[id].Ran?) then 1 else 0
  }

  /** A worker in flight will see all its dependencies, succeeded. */
  ghost predicate FlightSafe(spec: Spec, s: State, id: string)
    requires Planned(spec) && id in s.inFlight
  {
    Has(spec, id) && DepsSucceeded(ById(spec, id), s.inFlight[id]) && SubMap(s.inFlight[id], s.outcomes)
  }

  /** An executed node has the reference result and its dependencies succeeded;
      until the loop is left, every outcome is the reference outcome. */
  ghost predicate OutcomeSafe(spec: Spec, exec: Execute, s: State, id: string)
    requires Planned(spec) && id in s.outcomes
  {
    && Has(spec, id)
    && (s.outcomes[id].Ran? ==> DepsSucceeded(ById(spec, id), s.outcomes))
    && (s.outcomes[id].Ran? || !s.phase.Exited? ==> s.outcomes[id] == Reference(spec, exec, id))
    && (!s.phase.Exited? ==> DepsResolved(ById(spec, id), s.outcomes))
  }

  ghost predicate NodeSafe(spec: Spec, exec: Execute, s: State, id: string)
    requires Planned(spec)
  {
    && InOnePlace(spec, s, id)
    && StartedOnce(s, id)
    && (id in s.inFlight ==> FlightSafe(spec, s, id))
    && (id in s.outcomes ==> OutcomeSafe(spec, exec, s, id))
  }

  ghost predicate Inv(spec: Spec, exec: Execute, s: State)
    requires Planned(spec)
  {
    && (forall id {:trigger NodeSafe(spec, exec, s, id)} :: NodeSafe(spec, exec, s, id))
    && |s.inFlight| <= spec.maxParallel
    && (s.stop <==> spec.failFast && AnyUnforgiven(spec, s.outcomes))
    && (s.phase.Exited? ==> s.pending == {} && s.inFlight == map[])
  }

  /** What `_ready_nodes` hands to the launch loop. */
  ghost predicate Launchable(spec: Spec, s: State, ready: seq<Node>) {
    && |s.inFlight| + |ready| <= spec.maxParallel
    && (forall n <- ready :: n in spec.nodes && n.id in s.pending && DepsResolved(n, s.outcomes))
    && (forall i, j :: 0 <= i < j < |ready| ==> ready[i].id != ready[j].id)
  }

  lemma {:induction false} EligibleNodes(nodes: seq<Node>, pending: set<string>, outcomes: Outcomes)
    requires UniqueIds(nodes)
    ensures var e := Eligible(nodes, pending, outcomes);
      && (forall n :: n in e <==> n in nodes && n.id in pending && DepsResolved(n, outcomes))
      && (forall i, j :: 0 <= i < j < |e| ==> e[i].id != e[j].id)
  {
    if nodes != [] {
      EligibleNodes(nodes[1..], pending, outcomes);
      var rest := Eligible(nodes[1..], pending, outcomes);
      forall n | n in nodes ensures n == nodes[0] || n in nodes[1..] {}
      forall n | n in rest ensures n.id != nodes[0].id {}
    }
  }

  lemma ReadyIsLaunchable(spec: Spec, exec: Execute, s: State)
    requires Planned(spec) && Inv(spec, exec, s)
    ensures Launchable(spec, s, ReadyNodes(spec, s))
  {
    EligibleNodes(spec.nodes, s.pending, s.outcomes);
    var e := Eligible(spec.nodes, s.pending, s.outcomes);
    var ready := ReadyNodes(spec, s);
    forall n <- ready ensures n in e {}
  }

  /** A node may leave `pending`: it is there and its dependencies are resolved. */
  ghost predicate Decidable(spec: Spec, s: State, n: Node) {
    && n in spec.nodes && n.id in s.pending && DepsResolved(n, s.outcomes)
    && s.phase.Top? && |s.inFlight| < spec.maxParallel
  }

  /** Outcomes that are not failures leave the failure flag alone. */
  lemma SameFailures(spec: Spec, a: Outcomes, b: Outcomes)
    requires UniqueIds(spec.nodes) && SubMap(a, b)
    requires forall id <- b :: id in a || !b[id].Ran?
    ensures AnyUnforgiven(spec, a) <==> AnyUnforgiven(spec, b)
  {
    forall id <- a ensures Unforgiven(spec, a, id) ==> Unforgiven(spec, b, id) {}
    forall id <- b ensures Unforgiven(spec, b, id) ==> Unforgiven(spec, a, id) {}
  }

  lemma SkippedIsRef(spec: Spec, exec: Execute, s: State, n: Node)
    requires Planned(spec) && Inv(spec, exec, s) && Decidable(spec, s, n) && Skips(n, s.outcomes)
    ensures Has(spec, n.id) && Reference(spec, exec, n.id) == Skipped
  {
    var d :| d in n.dependsOn && d in s.outcomes && !s.outcomes[d].Succeeded();
    assert NodeSafe(spec, exec, s, d);
    RefSkips(spec, exec, n, d);
  }

  /** A skip touches no other node. */
  lemma SkipKeepsOther(spec: Spec, exec: Execute, s: State, n: Node, id: string)
    requires Planned(spec) && Skips(n, s.outcomes) && n.id !in s.outcomes && id != n.id
    requires NodeSafe(spec, exec, s, id)
    ensures NodeSafe(spec, exec, Decide(s, n), id)
  {
  }

  lemma SkipKeepsThis(spec: Spec, exec: Execute, s: State, n: Node)
    requires Planned(spec) && Decidable(spec, s, n) && Skips(n, s.outcomes)
    requires NodeSafe(spec, exec, s, n.id) && Has(spec, n.id) && Reference(spec, exec, n.id) == Skipped
    ensures NodeSafe(spec, exec, Decide(s, n), n.id)
  {
    ByIdIsUnique(spec, n);
  }

  lemma SkipKeepsNode(spec: Spec, exec: Execute, s: State, n: Node, id: string)
    requires Planned(spec) && Inv(spec, exec, s) && Decidable(spec, s, n) && Skips(n, s.outcomes)
    ensures NodeSafe(spec, exec, Decide(s, n), id)
  {
    assert NodeSafe(spec, exec, s, n.id) && NodeSafe(spec, exec, s, id);
    if id == n.id {
      SkippedIsRef(spec, exec, s, n);
      SkipKeepsThis(spec, exec, s, n);
    } else {
      SkipKeepsOther(spec, exec, s, n, id);
    }
  }

  lemma SkipKeepsInv(spec: Spec, exec: Execute, s: State, n: Node)
    requires Planned(spec) && Inv(spec, exec, s) && Decidable(spec, s, n) && Skips(n, s.outcomes)
    ensures Inv(spec, exec, Decide(s, n))
  {
    forall id ensures NodeSafe(spec, exec, Decide(s, n), id) { SkipKeepsNode(spec, exec, s, n, id); }
    assert n.id !in s.outcomes by { assert NodeSafe(spec, exec, s, n.id); }
    SameFailures(spec, s.outcomes, s.outcomes[n.id := Skipped]);
  }

  /** A start touches no other node. */
  lemma StartKeepsOther(spec: Spec, exec: Execute, s: State, n: Node, id: string)
    requires Planned(spec) && !Skips(n, s.outcomes) && id != n.id && NodeSafe(spec, exec, s, id)
    ensures NodeSafe(spec, exec, Decide(s, n), id)
  {}

  lemma StartKeepsThis(spec: Spec, exec: Execute, s: State, n: Node)
    requires Planned(spec) && Decidable(spec, s, n) && !Skips(n, s.outcomes) && NodeSafe(spec, exec, s, n.id)
    ensures NodeSafe(spec, exec, Decide(s, n), n.id)
  {
    ByIdIsUnique(spec, n);
    assert DepsSucceeded(n, s.outcomes);
  }

  lemma StartKeepsInv(spec: Spec, exec: Execute, s: State, n: Node)
    requires Planned(spec) && Inv(spec, exec, s) && Decidable(spec, s, n) && !Skips(n, s.outcomes)
    ensures Inv(spec, exec, Decide(s, n))
  {
    assert NodeSafe(spec, exec, s, n.id);
    forall id ensures NodeSafe(spec, exec, Decide(s, n), id) {
      assert NodeSafe(spec, exec, s, id);
      if id == n.id { StartKeepsThis(spec, exec, s, n); } else { StartKeepsOther(spec, exec, s, n, id); }
    }
    OneKeyMore(s.inFlight, n.id, s.outcomes);
  }

  /** The measure that bounds the main loop. */
  function Work(s: State): nat { 2 * |s.pending| + |s.inFlight| }

  /** What a launch pass did to the nodes it was handed. */
  ghost predicate Launched(s: State, ready: seq<Node>, s': State) {
    && s'.pending <= s.pending
    && SubMap(s.outcomes, s'.outcomes) && s.inFlight.Keys <= s'.inFlight.Keys
    && s'.stop == s.stop && s'.cancelled == s.cancelled && s'.phase == s.phase
    && Work(s') + |ready| <= Work(s)
    && (forall n <- ready :: n.id !in s'.pending && (n.id in s'.inFlight || n.id in s'.outcomes))
    && (forall id <- s'.outcomes :: id in s.outcomes || s'.outcomes[id].Skipped?)
  }

  lemma SkipLaunches(s: State, n: Node)
    requires n.id in s.pending && n.id !in s.outcomes && Skips(n, s.outcomes)
    ensures Launched(s, [n], Decide(s, n)) && Decide(s, n).inFlight == s.inFlight
  {
    OneElementLess(s.pending, n.id);
  }

  lemma StartLaunches(s: State, n: Node)
    requires n.id in s.pending && n.id !in s.inFlight && !Skips(n, s.outcomes)
    ensures Launched(s, [n], Decide(s, n)) && |Decide(s, n).inFlight| == |s.inFlight| + 1
  {
    OneElementLess(s.pending, n.id);
    OneKeyMore(s.inFlight, n.id, s.outcomes);
  }

  lemma DecideLaunches(s: State, n: Node)
    requires n.id in s.pending && n.id !in s.inFlight && n.id !in s.outcomes
    ensures Launched(s, [n], Decide(s, n)) && |Decide(s, n).inFlight| <= |s.inFlight| + 1
  {
    if Skips(n, s.outcomes) { SkipLaunches(s, n); } else { StartLaunches(s, n); }
  }

  lemma DecideKeepsInv(spec: Spec, exec: Execute, s: State, n: Node)
    requires Planned(spec) && Inv(spec, exec, s) && Decidable(spec, s, n)
    ensures Inv(spec, exec, Decide(s, n)) && Launched(s, [n], Decide(s, n))
    ensures |Decide(s, n).inFlight| <= |s.inFlight| + 1
  {
    assert NodeSafe(spec, exec, s, n.id);
    DecideLaunches(s, n);
    if Skips(n, s.outcomes) { SkipKeepsInv(spec, exec, s, n); } else { StartKeepsInv(spec, exec, s, n); }
  }

  lemma LaunchedMore(s: State, n: Node, t: State, rest: seq<Node>, u: State)
    requires Launched(s, [n], t) && Launched(t, rest, u)
    ensures Launched(s, [n] + rest, u)
  {
    assert n in [n];
    forall m | m in [n] + rest ensures m == n || m in rest {}
  }

  lemma StillLaunchable(spec: Spec, s: State, ready: seq<Node>)
    requires Launchable(spec, s, ready) && ready != []
    requires Launched(s, [ready[0]], Decide(s, ready[0])) && |Decide(s, ready[0]).inFlight| <= |s.inFlight| + 1
    ensures Launchable(spec, Decide(s, ready[0]), ready[1..])
  {
    forall n | n in ready[1..] ensures n in ready && n.id != ready[0].id {
      var i :| 0 <= i < |ready| - 1 && ready[1..][i] == n;
      assert ready[i + 1] == n;
    }
  }

  lemma LaunchOne(spec: Spec, exec: Execute, s: State, ready: seq<Node>)
    requires Planned(spec) && Inv(spec, exec, s) && s.phase.Top? && Launchable(spec, s, ready) && ready != []
    ensures var t := Decide(s, ready[0]);
      Inv(spec, exec, t) && t.phase.Top? && Launchable(spec, t, ready[1..]) && Launched(s, [ready[0]], t)
  {
    assert ready[0] in ready;
    DecideKeepsInv(spec, exec, s, ready[0]);
    StillLaunchable(spec, s, ready);
  }

  lemma {:induction false} LaunchKeepsInv(spec: Spec, exec: Execute, s: State, ready: seq<Node>)
    requires Planned(spec) && Inv(spec, exec, s) && s.phase.Top? && Launchable(spec, s, ready)
    ensures Inv(spec, exec, Launch(s, ready)) && Launched(s, ready, Launch(s, ready))
    decreases |ready|
  {
    if ready != [] {
      var t := Decide(s, ready[0]);
      LaunchOne(spec, exec, s, ready);
      LaunchKeepsInv(spec, exec, t, ready[1..]);
      LaunchedMore(s, ready[0], t, ready[1..], Launch(t, ready[1..]));
      assert [ready[0]] + ready[1..] == ready;
    }
  }

  lemma PassKeepsInv(spec: Spec, exec: Execute, s: State)
    requires Planned(spec) && Inv(spec, exec, s) && s.phase.Top?
    ensures var t := LaunchPass(spec, s);
      Inv(spec, exec, t) && Work(t) <= Work(s) && t.cancelled == s.cancelled && t.stop == s.stop
  {
    var t := s;
    if !s.stop && !s.cancelled {
      ReadyIsLaunchable(spec, exec, s);
      LaunchKeepsInv(spec, exec, s, ReadyNodes(spec, s));
      t := Launch(s, ReadyNodes(spec, s));
    }
    PhaseKeepsInv(spec, exec, t, t.(phase := Mid));
  }

  /** Moving between `Top` and `Mid`, or setting the cancel flag, changes nothing else. */
  lemma PhaseKeepsInv(spec: Spec, exec: Execute, s: State, s': State)
    requires Planned(spec) && Inv(spec, exec, s)
    requires s' == s.(phase := s'.phase, cancelled := s'.cancelled) && (s.phase.Exited? <==> s'.phase.Exited?)
    ensures Inv(spec, exec, s') && Work(s') == Work(s)
  {
    forall id ensures NodeSafe(spec, exec, s', id) { assert NodeSafe(spec, exec, s, id); }
  }

  lemma DrainKeepsInv(spec: Spec, exec: Execute, s: State)
    requires Planned(spec) && Inv(spec, exec, s) && s.phase.Mid? && s.inFlight == map[]
    ensures Inv(spec, exec, Drain(s))
  {
    var s' := Drain(s);
    forall id <- s.pending ensures id !in s.outcomes { assert NodeSafe(spec, exec, s, id); }
    SameFailures(spec, s.outcomes, s'.outcomes);
    forall id ensures NodeSafe(spec, exec, s', id) { DrainKeepsNode(spec, exec, s, id); }
  }

  lemma DrainKeepsNode(spec: Spec, exec: Execute, s: State, id: string)
    requires Planned(spec) && Inv(spec, exec, s) && s.phase.Mid? && s.inFlight == map[]
    requires forall id <- s.pending :: id !in s.outcomes
    ensures NodeSafe(spec, exec, Drain(s), id)
  {
    assert NodeSafe(spec, exec, s, id);
  }

  /** A worker's result is the reference result, whatever it saw beside its dependencies. */
  lemma ResultIsRef(spec: Spec, exec: Execute, s: State, done: map<string, Outcomes>, id: string)
    requires Planned(spec) && Inv(spec, exec, s) && !s.phase.Exited? && CanComplete(s, done) && id in done
    ensures Has(spec, id) && id in Results(spec, exec, done)
    ensures Results(spec, exec, done)[id] == Reference(spec, exec, id)
    ensures DepsSucceeded(ById(spec, id), s.outcomes)
  {
    assert NodeSafe(spec, exec, s, id);
    var n := ById(spec, id);
    forall d <- n.dependsOn
      ensures d in done[id] && Has(spec, d) && done[id][d] == Reference(spec, exec, d) && done[id][d].Succeeded()
    {
      assert NodeSafe(spec, exec, s, d);
    }
    RefRuns(spec, exec, n, done[id]);
  }

  lemma CompleteKeepsNode(spec: Spec, exec: Execute, s: State, done: map<string, Outcomes>, id: string)
    requires Planned(spec) && Inv(spec, exec, s) && s.phase.Mid? && CanComplete(s, done)
    ensures NodeSafe(spec, exec, Complete(spec, exec, s, done), id)
  {
    assert NodeSafe(spec, exec, s, id);
    var s' := Complete(spec, exec, s, done);
    CompleteGrows(spec, exec, s, done);
    if id in done {
      ResultIsRef(spec, exec, s, done, id);
      DoneNodeIsSafe(spec, exec, s, s', id);
    } else {
      OtherNodeIsSafe(spec, exec, s, s', id);
    }
  }

  lemma CompleteGrows(spec: Spec, exec: Execute, s: State, done: map<string, Outcomes>)
    requires Planned(spec) && Inv(spec, exec, s) && CanComplete(s, done)
    ensures SubMap(s.outcomes, Complete(spec, exec, s, done).outcomes)
  {
    forall id <- s.outcomes ensures id !in done { assert NodeSafe(spec, exec, s, id); }
  }

  lemma OtherNodeIsSafe(spec: Spec, exec: Execute, s: State, s': State, id: string)
    requires Planned(spec) && NodeSafe(spec, exec, s, id) && !s.phase.Exited? && s'.started == s.started
    requires s'.pending == s.pending && (id in s'.inFlight <==> id in s.inFlight)
    requires (id in s'.outcomes <==> id in s.outcomes)
    requires id in s.inFlight ==> s'.inFlight[id] == s.inFlight[id]
    requires SubMap(s.outcomes, s'.outcomes)
    ensures NodeSafe(spec, exec, s', id)
  {}

  lemma DoneNodeIsSafe(spec: Spec, exec: Execute, s: State, s': State, id: string)
    requires Planned(spec) && NodeSafe(spec, exec, s, id) && id in s.inFlight && s'.started == s.started
    requires id !in s'.pending && id !in s'.inFlight && id in s'.outcomes && s'.outcomes[id].Ran?
    requires Has(spec, id) && s'.outcomes[id] == Reference(spec, exec, id)
    requires DepsSucceeded(ById(spec, id), s.outcomes) && SubMap(s.outcomes, s'.outcomes)
    ensures NodeSafe(spec, exec, s', id)
  {}

  lemma CompleteKeepsInv(spec: Spec, exec: Execute, s: State, done: map<string, Outcomes>)
    requires Planned(spec) && Inv(spec, exec, s) && s.phase.Mid? && CanComplete(s, done)
    ensures Inv(spec, exec, Complete(spec, exec, s, done))
    ensures Work(Complete(spec, exec, s, done)) < Work(s)
  {
    forall id ensures NodeSafe(spec, exec, Complete(spec, exec, s, done), id) {
      CompleteKeepsNode(spec, exec, s, done, id);
    }
    var s' := Complete(spec, exec, s, done);
    var id :| id in done;
    assert id in s.inFlight && id !in s'.inFlight;
    assert s'.inFlight.Keys <= s.inFlight.Keys - {id};
    SubsetSize(s'.inFlight.Keys, s.inFlight.Keys - {id});
    FailuresAdd(spec, exec, s, done);
  }

  /** Outcomes with no name in common: a failure is among the one or among the others. */
  lemma FailuresJoin(spec: Spec, a: Outcomes, b: Outcomes)
    requires UniqueIds(spec.nodes) && a.Keys !! b.Keys
    ensures AnyUnforgiven(spec, a + b) <==> AnyUnforgiven(spec, a) || AnyUnforgiven(spec, b)
  {
    forall id <- a ensures Unforgiven(spec, a, id) <==> Unforgiven(spec, a + b, id) {}
    forall id <- b ensures Unforgiven(spec, b, id) <==> Unforgiven(spec, a + b, id) {}
  }

  lemma FailuresAdd(spec: Spec, exec: Execute, s: State, done: map<string, Outcomes>)
    requires Planned(spec) && Inv(spec, exec, s) && !s.phase.Exited? && CanComplete(s, done)
    ensures var results := Results(spec, exec, done);
      AnyUnforgiven(spec, s.outcomes + results) <==> AnyUnforgiven(spec, s.outcomes) || AnyUnforgiven(spec, results)
  {
    var results := Results(spec, exec, done);
    forall id <- results ensures id !in s.outcomes { assert NodeSafe(spec, exec, s, id); }
    FailuresJoin(spec, s.outcomes, results);
  }

  // ---------------------------------------------------------------------
  // Theorems about every run
  // ---------------------------------------------------------------------

  lemma InitialInv(spec: Spec, exec: Execute)
    requires Planned(spec)
    ensures Inv(spec, exec, Initial(spec))
  {}

  lemma NextKeepsInv(spec: Spec, exec: Execute, s: State, s': State)
    requires Planned(spec) && Inv(spec, exec, s) && Next(spec, exec, s, s')
    ensures Inv(spec, exec, s')
  {
    if s' == s.(cancelled := true) {
      PhaseKeepsInv(spec, exec, s, s');
    } else if s.phase.Top? {
      PassKeepsInv(spec, exec, s);
    } else if s.inFlight == map[] && s' == Drain(s) {
      DrainKeepsInv(spec, exec, s);
    } else {
      var done :| CanComplete(s, done) && s' == Complete(spec, exec, s, done);
      CompleteKeepsInv(spec, exec, s, done);
    }
  }

  /** Every reachable state is safe. */
  lemma {:induction false} RunIsSafe(spec: Spec, exec: Execute, run: seq<State>)
    requires Planned(spec) && IsRun(spec, exec, run)
    ensures Inv(spec, exec, run[|run| - 1])
  {
    if |run| == 1 {
      InitialInv(spec, exec);
    } else {
      var before := run[..|run| - 1];
      RunIsSafe(spec, exec, before);
      NextKeepsInv(spec, exec, before[|before| - 1], run[|run| - 1]);
    }
  }

  /** Schedule independence: whatever ran has the reference result, started
      exactly once, and everything it transitively depends on ran and succeeded. */
  lemma ExecutedIsReference(spec: Spec, exec: Execute, run: seq<State>, id: string)
    requires Planned(spec) && IsRun(spec, exec, run)
    requires var s := run[|run| - 1]; id in s.outcomes && s.outcomes[id].Ran?
    ensures var s := run[|run| - 1];
      && Has(spec, id) && s.outcomes[id] == Reference(spec, exec, id) && s.started[id] == 1
      && forall p, i :: ChainFrom(GraphOf(spec.nodes), id, p) && 0 < i < |p| ==>
        p[i] in s.outcomes && s.outcomes[p[i]].Succeeded()
  {
    RunIsSafe(spec, exec, run);
    var s := run[|run| - 1];
    assert NodeSafe(spec, exec, s, id);
    forall p, i | ChainFrom(GraphOf(spec.nodes), id, p) && 0 < i < |p|
      ensures p[i] in s.outcomes && s.outcomes[p[i]].Succeeded()
    {
      AncestorSucceeded(spec, exec, s, p, i);
    }
  }

  lemma {:induction false} AncestorSucceeded(spec: Spec, exec: Execute, s: State, p: seq<string>, i: nat)
    requires Planned(spec) && Inv(spec, exec, s) && Chain(GraphOf(spec.nodes), p) && 0 < i < |p|
    requires p[0] in s.outcomes && s.outcomes[p[0]].Ran?
    ensures p[i] in s.outcomes && s.outcomes[p[i]].Succeeded()
  {
    if i > 1 { AncestorSucceeded(spec, exec, s, p, i - 1); }
    var id := p[i - 1];
    assert NodeSafe(spec, exec, s, id);
    assert p[i - 1 + 1] in GraphOf(spec.nodes)[id];
    assert p[i] in ById(spec, id).dependsOn;
  }

  /** The pool bound, and at the exit a verdict for every node: the counts add up. */
  lemma RunIsBounded(spec: Spec, exec: Execute, run: seq<State>)
    requires Planned(spec) && IsRun(spec, exec, run)
    ensures var s := run[|run| - 1];
      && |s.inFlight| <= spec.maxParallel
      && (s.phase.Exited? ==> s.outcomes.Keys == IdsOf(spec.nodes))
  {
    RunIsSafe(spec, exec, run);
    var s := run[|run| - 1];
    if s.phase.Exited? {
      forall id ensures id in s.outcomes <==> id in IdsOf(spec.nodes) { assert NodeSafe(spec, exec, s, id); }
    }
  }

  /** A failure that counts against the plan: the node ran, failed, and is not advisory. */
  predicate Blocks(n: Node, o: Outcome) {
    o.Ran? && !o.ok && !n.continueOnError
  }

  ghost predicate Blocked(spec: Spec, outcomes: Outcomes) {
    exists n <- spec.nodes :: n.id in outcomes && Blocks(n, outcomes[n.id])
  }

  lemma BlockedIsUnforgiven(spec: Spec, outcomes: Outcomes)
    requires Planned(spec)
    ensures Blocked(spec, outcomes) <==> AnyUnforgiven(spec, outcomes)
  {
    forall n <- spec.nodes
      ensures n.id in outcomes && Blocks(n, outcomes[n.id]) <==> Unforgiven(spec, outcomes, n.id)
    {
      ByIdIsUnique(spec, n);
    }
    if AnyUnforgiven(spec, outcomes) {
      var id :| id in outcomes && Unforgiven(spec, outcomes, id);
      assert ById(spec, id) in spec.nodes;
    }
  }

  /** `fail_fast`: after an unforgiven failure nothing is launched any more. */
  lemma NothingStartsAfterFailure(spec: Spec, exec: Execute, run: seq<State>, s': State)
    requires Planned(spec) && IsRun(spec, exec, run) && Next(spec, exec, run[|run| - 1], s')
    requires spec.failFast && Blocked(spec, run[|run| - 1].outcomes)
    ensures s'.started == run[|run| - 1].started
    ensures Blocked(spec, s'.outcomes)
  {
    RunIsSafe(spec, exec, run);
    var s := run[|run| - 1];
    BlockedIsUnforgiven(spec, s.outcomes);
    BlockedIsUnforgiven(spec, s'.outcomes);
    NextKeepsInv(spec, exec, s, s');
    if s'.phase.Exited? && s.phase.Mid? && s' == Drain(s) {}
  }

  /** Cancellation: once the flag is set no step launches a node. */
  lemma NothingStartsAfterCancel(spec: Spec, exec: Execute, s: State, s': State)
    requires UniqueIds(spec.nodes) && s.cancelled && Next(spec, exec, s, s')
    ensures s'.cancelled && s'.started == s.started
  {}

  lemma {:induction false} LaunchIgnoresCancel(s: State, ready: seq<Node>)
    ensures Launch(s.(cancelled := true), ready) == Launch(s, ready).(cancelled := true)
    decreases |ready|
  {
    if ready != [] { LaunchIgnoresCancel(Decide(s, ready[0]), ready[1..]); }
  }

  lemma {:induction false} LaunchInParts(s: State, first: seq<Node>, rest: seq<Node>)
    ensures Launch(Launch(s, first), rest) == Launch(s, first + rest)
    decreases |first|
  {
    if first == [] {
      assert first + rest == rest;
    } else {
      assert (first + rest)[1..] == first[1..] + rest;
      LaunchInParts(Decide(s, first[0]), first[1..], rest);
    }
  }

  function IdBag(nodes: seq<Node>): multiset<string>
    decreases |nodes|
  {
    if nodes == [] then multiset{} else multiset{nodes[0].id} + IdBag(nodes[1..])
  }

  lemma {:induction false} LaunchStartsOnly(s: State, ready: seq<Node>)
    ensures s.started <= Launch(s, ready).started <= s.started + IdBag(ready)
    decreases |ready|
  {
    if ready != [] { LaunchStartsOnly(Decide(s, ready[0]), ready[1..]); }
  }

  /** A cancellation that lands inside a launch pass, between the nodes of `first` and
      those of `rest`: the pass goes on, to the state that a cancellation right behind it
      gives, and what starts after the cancellation is among `rest`. */
  lemma CancelInsideAPass(spec: Spec, s: State, first: seq<Node>, rest: seq<Node>)
    requires ReadyNodes(spec, s) == first + rest && !s.stop && !s.cancelled
    ensures var mid := Launch(s, first).(cancelled := true);
      && Launch(mid, rest).(phase := Mid) == LaunchPass(spec, s).(cancelled := true)
      && mid.started <= LaunchPass(spec, s).started <= mid.started + IdBag(rest)
  {
    LaunchInParts(s, first, rest);
    LaunchIgnoresCancel(Launch(s, first), rest);
    LaunchStartsOnly(Launch(s, first), rest);
  }

  /** The loop terminates: every step but a cancellation does not increase the
      measure, and a completion (one per iteration) decreases it. */
  lemma StepsTerminate(spec: Spec, exec: Execute, run: seq<State>, s': State)
    requires Planned(spec) && IsRun(spec, exec, run) && Next(spec, exec, run[|run| - 1], s')
    ensures var s := run[|run| - 1];
      && Work(s') <= Work(s)
      && (s.phase.Mid? && !s'.phase.Mid? && !s'.phase.Exited? ==> Work(s') < Work(s))
  {
    RunIsSafe(spec, exec, run);
    var s := run[|run| - 1];
    if s' == s.(cancelled := true) {
    } else if s.phase.Top? {
      PassKeepsInv(spec, exec, s);
    } else if s.inFlight == map[] && s' == Drain(s) {
    } else {
      var done :| CanComplete(s, done) && s' == Complete(spec, exec, s, done);
      CompleteKeepsInv(spec, exec, s, done);
    }
  }

  /** Every reference a worker resolves names a succeeded node with a result. */
  lemma ReferencesResolve(spec: Spec, exec: Execute, run: seq<State>, done: map<string, Outcomes>, id: string, r: Ref)
    requires Planned(spec) && IsRun(spec, exec, run) && CanComplete(run[|run| - 1], done) && id in done
    requires Has(spec, id) && r in References(ById(spec, id).payload)
    ensures r.id in done[id] && done[id][r.id].Succeeded() && done[id][r.id].result.Some?
    ensures r.field in REFERENCEABLE_FIELDS
  {
    RunIsSafe(spec, exec, run);
    var s := run[|run| - 1];
    var n := ById(spec, id);
    assert NodeSafe(spec, exec, s, id);
    assert SoundLinks(n, IdsOf(spec.nodes));
    assert SoundReference(n, IdsOf(spec.nodes), r);
    assert NodeSafe(spec, exec, s, r.id);
    RefRanHasResult(spec, exec, r.id);
  }

  lemma RefRanHasResult(spec: Spec, exec: Execute, id: string)
    requires Planned(spec) && Has(spec, id) && Reference(spec, exec, id).Succeeded()
    ensures Reference(spec, exec, id).result.Some?
  {}

  ghost predicate AncestorsSucceed(spec: Spec, exec: Execute, id: string)
    requires Planned(spec)
  {
    forall p, i :: ChainFrom(GraphOf(spec.nodes), id, p) && 0 < i < |p| ==>
      Has(spec, p[i]) && Reference(spec, exec, p[i]).Succeeded()
  }

  /** In the reference evaluation a node runs iff everything it transitively
      depends on succeeded. */
  lemma RunsIffAncestorsSucceed(spec: Spec, exec: Execute, id: string)
    requires Planned(spec) && Has(spec, id)
    ensures Reference(spec, exec, id).Ran? <==> AncestorsSucceed(spec, exec, id)
  {
    if Reference(spec, exec, id).Ran? {
      forall p, i | ChainFrom(GraphOf(spec.nodes), id, p) && 0 < i < |p|
        ensures Has(spec, p[i]) && Reference(spec, exec, p[i]).Succeeded()
      {
        AncestorsOfRun(spec, exec, p, i);
      }
    } else {
      SomeDependencyFailed(spec, exec, id);
    }
  }

  lemma FailedDependency(spec: Spec, exec: Execute, id: string) returns (d: string)
    requires Planned(spec) && Has(spec, id) && !Reference(spec, exec, id).Ran?
    ensures d in ById(spec, id).dependsOn && Has(spec, d) && !Reference(spec, exec, d).Succeeded()
    ensures Depth(spec, d) < Depth(spec, id)
  {
    d := FailingDependency(spec, exec, ById(spec, id));
  }

  lemma FailingDependency(spec: Spec, exec: Execute, n: Node) returns (d: string)
    requires Planned(spec) && n in spec.nodes && Has(spec, n.id) && !Reference(spec, exec, n.id).Ran?
    ensures d in n.dependsOn && Has(spec, d) && !Reference(spec, exec, d).Succeeded()
    ensures Depth(spec, d) < Depth(spec, n.id)
  {
    forall x <- n.dependsOn ensures Has(spec, x) && Depth(spec, x) < Depth(spec, n.id) { DepsAreShallower(spec, n, x); }
    if forall x <- n.dependsOn :: Reference(spec, exec, x).Succeeded() { SucceedingDependencies(spec, exec, n); }
    d :| d in n.dependsOn && !Reference(spec, exec, d).Succeeded();
  }

  lemma SucceedingDependencies(spec: Spec, exec: Execute, n: Node)
    requires Planned(spec) && n in spec.nodes
    requires forall d <- n.dependsOn :: Has(spec, d) && Reference(spec, exec, d).Succeeded()
    ensures Has(spec, n.id) && Reference(spec, exec, n.id).Ran?
  {
    var seen := map d | d in n.dependsOn && Has(spec, d) :: Reference(spec, exec, d);
    RefRuns(spec, exec, n, seen);
  }

  lemma DependencyIsChain(spec: Spec, id: string, d: string)
    requires Planned(spec) && Has(spec, id) && d in ById(spec, id).dependsOn && Has(spec, d)
    ensures ChainFrom(GraphOf(spec.nodes), id, [id, d])
  {
    var g := GraphOf(spec.nodes);
    assert ById(spec, d).id in g;
    assert g[id] == Deps(ById(spec, id));
  }

  lemma SomeDependencyFailed(spec: Spec, exec: Execute, id: string)
    requires Planned(spec) && Has(spec, id) && !Reference(spec, exec, id).Ran?
    ensures !AncestorsSucceed(spec, exec, id)
  {
    var d := FailedDependency(spec, exec, id);
    DependencyIsChain(spec, id, d);
    var p := [id, d];
    assert ChainFrom(GraphOf(spec.nodes), id, p) && 0 < 1 < |p| && p[1] == d;
  }

  lemma {:induction false} AncestorsOfRun(spec: Spec, exec: Execute, p: seq<string>, i: nat)
    requires Planned(spec) && Chain(GraphOf(spec.nodes), p) && 0 < i < |p|
    requires Has(spec, p[0]) && Reference(spec, exec, p[0]).Ran?
    ensures Has(spec, p[i]) && Reference(spec, exec, p[i]).Succeeded()
  {
    if i > 1 { AncestorsOfRun(spec, exec, p, i - 1); }
    var n := ById(spec, p[i - 1]);
    assert p[i - 1 + 1] in GraphOf(spec.nodes)[p[i - 1]];
    assert p[i] in n.dependsOn;
    DepsAreShallower(spec, n, p[i]);
  }
}
