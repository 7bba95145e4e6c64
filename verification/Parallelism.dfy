/** How much parallelism a plan needs before the drain branch is harmless.
    Skipped nodes use up launch slots, so a launch pass can start nothing while
    a runnable node is pending; the drain then resolves it as skipped. */
module Parallelism {
  import opened Sets
  import opened Dag
  import opened Payload
  import opened Plan
  import opened Workflow

  /** Enough slots for every plan of `n` nodes. */
  predicate Roomy(n: nat, p: int) {
    n <= p + 1 || (p >= 2 && n == p + 2)
  }

  /** Every node has its reference outcome. */
  ghost predicate Settled(spec: Spec, exec: Execute, s: State)
    requires Planned(spec)
  {
    forall id <- s.outcomes :: Has(spec, id) && s.outcomes[id] == Reference(spec, exec, id)
  }

  function Roots(spec: Spec): set<string> { set n | n in spec.nodes && n.dependsOn == [] :: n.id }

  ghost predicate RootsGone(spec: Spec, s: State) {
    |Roots(spec)| <= spec.maxParallel ==> Roots(spec) !! s.pending
  }

  /** A pending node that could run now. */
  ghost predicate Waiting(spec: Spec, s: State, n: Node) {
    n in spec.nodes && n.id in s.pending && DepsSucceeded(n, s.outcomes)
  }

  ghost function SkippedIds(s: State): set<string> {
    set id | id in s.outcomes && s.outcomes[id].Skipped?
  }

  ghost predicate PassWasFull(spec: Spec, s: State) {
    s.inFlight == map[] && (exists n :: Waiting(spec, s, n)) ==> |SkippedIds(s)| >= spec.maxParallel
  }

  /** What holds along a run that is neither cancelled nor stopped. */
  ghost predicate Undisturbed(spec: Spec, exec: Execute, s: State)
    requires Planned(spec)
  {
    !s.cancelled && !s.stop ==>
      && (s.pending != IdsOf(spec.nodes) || s.outcomes != map[] || !s.phase.Top? ==> RootsGone(spec, s))
      && (s.phase.Mid? ==> PassWasFull(spec, s))
      && (s.phase.Exited? && Roomy(|spec.nodes|, spec.maxParallel) ==> Settled(spec, exec, s))
  }

  lemma {:induction false} IdCount(nodes: seq<Node>)
    requires UniqueIds(nodes)
    ensures |IdsOf(nodes)| == |nodes|
  {
    if nodes != [] {
      IdCount(nodes[1..]);
      assert IdsOf(nodes) == IdsOf(nodes[1..]) + {nodes[0].id};
    }
  }

  // ---------------------------------------------------------------------
  // Enough slots: nothing runnable is ever drained
  // ---------------------------------------------------------------------

  lemma SkippedHasCause(spec: Spec, exec: Execute, s: State, id: string) returns (d: string)
    requires Planned(spec) && Inv(spec, exec, s) && !s.phase.Exited?
    requires id in s.outcomes && s.outcomes[id].Skipped?
    ensures d in s.outcomes && (s.outcomes[d].Skipped? || (s.outcomes[d].Ran? && !s.outcomes[d].ok))
    ensures Depth(spec, d) < Depth(spec, id)
  {
    assert NodeSafe(spec, exec, s, id);
    d := FailedDependency(spec, exec, id);
    assert NodeSafe(spec, exec, s, d);
    NeverCancelled(spec, exec, d);
  }

  lemma NeverCancelled(spec: Spec, exec: Execute, id: string)
    requires Planned(spec) && Has(spec, id)
    ensures !Reference(spec, exec, id).Cancelled?
  {
  }

  /** A skipped node has a failed ancestor among the outcomes. */
  lemma {:induction false} SkippedHasFailure(spec: Spec, exec: Execute, s: State, id: string) returns (f: string)
    requires Planned(spec) && Inv(spec, exec, s) && !s.phase.Exited?
    requires id in s.outcomes && s.outcomes[id].Skipped?
    ensures f in s.outcomes && s.outcomes[f].Ran? && !s.outcomes[f].ok
    decreases Depth(spec, id)
  {
    var d := SkippedHasCause(spec, exec, s, id);
    if s.outcomes[d].Skipped? { f := SkippedHasFailure(spec, exec, s, d); } else { f := d; }
  }

  lemma SkippedIsNoRoot(spec: Spec, exec: Execute, s: State, id: string)
    requires Planned(spec) && Inv(spec, exec, s) && !s.phase.Exited?
    requires id in s.outcomes && s.outcomes[id].Skipped?
    ensures id !in Roots(spec)
  {
    assert NodeSafe(spec, exec, s, id);
    forall n | n in spec.nodes && n.id == id ensures n.dependsOn != [] { ByIdIsUnique(spec, n); }
  }

  lemma CountThree(k: set<string>, f: string, x: string, all: set<string>)
    requires f !in k && x !in k && f != x && k <= all && f in all && x in all
    ensures |k| + 2 <= |all|
    ensures |all| <= |k| + 2 ==> all == k + {f, x}
  {
    assert |k + {f, x}| == |k| + 2;
    SubsetSize(k + {f, x}, all);
    if |all| <= |k| + 2 {
      assert all == (k + {f, x}) + (all - (k + {f, x}));
    }
  }

  lemma NothingWaits(spec: Spec, exec: Execute, s: State, x: Node)
    requires Planned(spec) && Inv(spec, exec, s) && s.phase.Mid? && s.inFlight == map[]
    requires RootsGone(spec, s) && PassWasFull(spec, s) && Roomy(|spec.nodes|, spec.maxParallel)
    ensures !Waiting(spec, s, x)
  {
    if Waiting(spec, s, x) {
      var k := SkippedIds(s);
      var some :| some in k;
      var f := SkippedHasFailure(spec, exec, s, some);
      var all := IdsOf(spec.nodes);
      forall id | id in s.outcomes || id in s.pending ensures id in all && (id in s.outcomes ==> id !in s.pending) {
        assert NodeSafe(spec, exec, s, id);
      }
      IdCount(spec.nodes);
      CountThree(k, f, x.id, all);
      OnlyRootsAre(spec, exec, s, x, f);
    }
  }

  /** With one failed outcome and skipped ones, what waits has no dependency. */
  lemma WaitingIsARoot(spec: Spec, exec: Execute, s: State, x: Node, f: string)
    requires Planned(spec) && Inv(spec, exec, s) && s.phase.Mid?
    requires IdsOf(spec.nodes) == SkippedIds(s) + {f, x.id}
    requires Waiting(spec, s, x) && f in s.outcomes && !s.outcomes[f].Succeeded()
    ensures x.id in Roots(spec)
  {
    var d := if x.dependsOn == [] then f else x.dependsOn[0];
    assert NodeSafe(spec, exec, s, x.id) && NodeSafe(spec, exec, s, d);
    assert x.dependsOn == [] || d in x.dependsOn;
  }

  lemma OnlyRootsAre(spec: Spec, exec: Execute, s: State, x: Node, f: string)
    requires Planned(spec) && Inv(spec, exec, s) && s.phase.Mid?
    requires IdsOf(spec.nodes) == SkippedIds(s) + {f, x.id} && spec.maxParallel >= 2
    requires Waiting(spec, s, x) && f in s.outcomes && !s.outcomes[f].Succeeded()
    ensures Roots(spec) <= {f, x.id} && |Roots(spec)| <= 2 && x.id in Roots(spec)
  {
    forall id <- Roots(spec) ensures id in {f, x.id} {
      assert id in IdsOf(spec.nodes);
      if id in SkippedIds(s) { SkippedIsNoRoot(spec, exec, s, id); }
    }
    SubsetSize(Roots(spec), {f, x.id});
    WaitingIsARoot(spec, exec, s, x, f);
  }

  /** With nothing runnable pending, draining gives every pending node its reference outcome. */
  lemma {:induction false} DrainedIsRef(spec: Spec, exec: Execute, s: State, id: string)
    requires Planned(spec) && Inv(spec, exec, s) && s.phase.Mid? && s.inFlight == map[]
    requires forall n :: !Waiting(spec, s, n)
    requires id in s.pending
    ensures Has(spec, id) && Reference(spec, exec, id) == Skipped
    decreases Depth(spec, id)
  {
    assert NodeSafe(spec, exec, s, id);
    var n := ById(spec, id);
    assert !Waiting(spec, s, n);
    var d :| d in n.dependsOn && !(d in s.outcomes && s.outcomes[d].Succeeded());
    DepsAreShallower(spec, n, d);
    assert NodeSafe(spec, exec, s, d);
    if d in s.pending { DrainedIsRef(spec, exec, s, d); }
    RefSkips(spec, exec, n, d);
  }

  lemma DrainSettles(spec: Spec, exec: Execute, s: State)
    requires Planned(spec) && Inv(spec, exec, s) && s.phase.Mid? && s.inFlight == map[]
    requires RootsGone(spec, s) && PassWasFull(spec, s) && Roomy(|spec.nodes|, spec.maxParallel) && !s.cancelled
    ensures Settled(spec, exec, Drain(s))
  {
    forall n ensures !Waiting(spec, s, n) {
      NothingWaits(spec, exec, s, n);
    }
    forall id <- Drain(s).outcomes ensures Has(spec, id) && Drain(s).outcomes[id] == Reference(spec, exec, id) {
      assert NodeSafe(spec, exec, s, id);
      if id in s.pending { DrainedIsRef(spec, exec, s, id); }
    }
  }

  // ---------------------------------------------------------------------
  // The invariant of an undisturbed run
  // ---------------------------------------------------------------------

  lemma {:induction false} FirstReady(nodes: seq<Node>, pending: set<string>)
    requires forall n <- nodes :: n.id in pending
    ensures var e := Eligible(nodes, pending, map[]);
      && (forall n :: n in e <==> n in nodes && n.dependsOn == [])
  {
    if nodes != [] {
      FirstReady(nodes[1..], pending);
      assert DepsResolved(nodes[0], map[]) <==> nodes[0].dependsOn == [] by {
        if nodes[0].dependsOn != [] { assert nodes[0].dependsOn[0] in nodes[0].dependsOn; }
      }
      forall n | n in nodes ensures n == nodes[0] || n in nodes[1..] {}
    }
  }

  lemma {:induction false} IdsOfDistinct(e: seq<Node>)
    requires forall i, j :: 0 <= i < j < |e| ==> e[i].id != e[j].id
    ensures |IdsOf(e)| == |e|
  {
    IdCount(e);
  }

  /** The first pass launches every root when there are slots for all of them. */
  lemma FirstPassTakesRoots(spec: Spec, exec: Execute, s: State)
    requires Planned(spec) && Inv(spec, exec, s) && s.phase.Top? && !s.stop && !s.cancelled
    requires s.pending == IdsOf(spec.nodes) && s.outcomes == map[]
    ensures RootsGone(spec, LaunchPass(spec, s))
  {
    if |Roots(spec)| <= spec.maxParallel {
      var e := Eligible(spec.nodes, s.pending, s.outcomes);
      FirstReady(spec.nodes, s.pending);
      EligibleNodes(spec.nodes, s.pending, s.outcomes);
      IdsOfDistinct(e);
      assert IdsOf(e) == Roots(spec);
      NothingInFlight(spec, exec, s);
      var ready := ReadyNodes(spec, s);
      assert ready == e;
      ReadyIsLaunchable(spec, exec, s);
      LaunchKeepsInv(spec, exec, s, ready);
      forall id <- Roots(spec) ensures id !in Launch(s, ready).pending {
        assert id in IdsOf(e);
        var n :| n in e && n.id == id;
        assert n in ready;
      }
    }
  }

  lemma NothingInFlight(spec: Spec, exec: Execute, s: State)
    requires Planned(spec) && Inv(spec, exec, s) && s.pending == IdsOf(spec.nodes)
    ensures s.inFlight == map[]
  {
    forall id ensures id !in s.inFlight { assert NodeSafe(spec, exec, s, id); }
  }

  /** A pass that starts nothing while a runnable node waits has skipped a full load. */
  lemma PassFillsUp(spec: Spec, exec: Execute, s: State)
    requires Planned(spec) && Inv(spec, exec, s) && s.phase.Top? && !s.stop && !s.cancelled
    ensures PassWasFull(spec, LaunchPass(spec, s))
  {
    var ready := ReadyNodes(spec, s);
    ReadyIsLaunchable(spec, exec, s);
    LaunchKeepsInv(spec, exec, s, ready);
    var t := Launch(s, ready);
    if t.inFlight == map[] {
      assert SkippedIds(LaunchPass(spec, s)) == SkippedIds(t);
      forall x | Waiting(spec, LaunchPass(spec, s), x) ensures |SkippedIds(t)| >= spec.maxParallel {
        assert Waiting(spec, t, x);
        NothingWasInFlight(s, t);
        WaitingWasEligible(spec, s, t, x, ready);
        ReadyWereSkipped(spec, exec, s, t, ready);
      }
    }
  }

  lemma NothingWasInFlight(s: State, t: State)
    requires s.inFlight.Keys <= t.inFlight.Keys && t.inFlight == map[]
    ensures s.inFlight == map[]
  {
    assert s.inFlight.Keys == {};
  }

  lemma WaitingWasEligible(spec: Spec, s: State, t: State, x: Node, ready: seq<Node>)
    requires Planned(spec) && Waiting(spec, t, x) && Launched(s, ready, t) && ready == ReadyNodes(spec, s)
    requires s.inFlight == map[]
    ensures |ready| == spec.maxParallel
  {
    EligibleNodes(spec.nodes, s.pending, s.outcomes);
    forall d <- x.dependsOn ensures d in s.outcomes { assert t.outcomes[d].Succeeded(); }
    var e := Eligible(spec.nodes, s.pending, s.outcomes);
    assert x in e && x !in ready;
    assert |s.inFlight| == 0 && Slots(spec, s) == spec.maxParallel < |e|;
  }

  lemma ReadyWereSkipped(spec: Spec, exec: Execute, s: State, t: State, ready: seq<Node>)
    requires Planned(spec) && Inv(spec, exec, s) && Launchable(spec, s, ready) && Launched(s, ready, t)
    requires t.inFlight == map[]
    ensures |SkippedIds(t)| >= |ready|
  {
    forall id <- IdsOf(ready) ensures id in SkippedIds(t) {
      assert NodeSafe(spec, exec, s, id);
    }
    IdsOfDistinct(ready);
    SubsetSize(IdsOf(ready), SkippedIds(t));
  }

  lemma CompleteSettles(spec: Spec, exec: Execute, s: State, done: map<string, Outcomes>)
    requires Planned(spec) && Inv(spec, exec, s) && s.phase.Mid? && CanComplete(s, done)
    ensures Settled(spec, exec, Complete(spec, exec, s, done))
  {
    var s' := Complete(spec, exec, s, done);
    forall id <- s'.outcomes ensures Has(spec, id) && s'.outcomes[id] == Reference(spec, exec, id) {
      assert NodeSafe(spec, exec, s, id);
      if id in done { ResultIsRef(spec, exec, s, done, id); }
    }
  }

  lemma NextUndisturbed(spec: Spec, exec: Execute, s: State, s': State)
    requires Planned(spec) && Inv(spec, exec, s) && Undisturbed(spec, exec, s) && Next(spec, exec, s, s')
    ensures Undisturbed(spec, exec, s')
  {
    if !s'.cancelled && !s'.stop {
      if s.phase.Top? {
        PassFillsUp(spec, exec, s);
        if s.pending == IdsOf(spec.nodes) && s.outcomes == map[] {
          FirstPassTakesRoots(spec, exec, s);
        } else {
          ReadyIsLaunchable(spec, exec, s);
          LaunchKeepsInv(spec, exec, s, ReadyNodes(spec, s));
        }
      } else if s.inFlight == map[] && s' == Drain(s) {
        if Roomy(|spec.nodes|, spec.maxParallel) { DrainSettles(spec, exec, s); }
      } else {
        var done :| CanComplete(s, done) && s' == Complete(spec, exec, s, done);
        CompleteSettles(spec, exec, s, done);
      }
    }
  }

  lemma {:induction false} RunIsUndisturbed(spec: Spec, exec: Execute, run: seq<State>)
    requires Planned(spec) && IsRun(spec, exec, run)
    ensures Undisturbed(spec, exec, run[|run| - 1])
  {
    if |run| > 1 {
      var before := run[..|run| - 1];
      RunIsUndisturbed(spec, exec, before);
      RunIsSafe(spec, exec, before);
      NextUndisturbed(spec, exec, before[|before| - 1], run[|run| - 1]);
    }
  }

  /** With enough slots, every schedule of an undisturbed run ends in the same
      state: the reference outcome for every node of the plan. */
  lemma EveryScheduleAgrees(spec: Spec, exec: Execute, run: seq<State>)
    requires Planned(spec) && IsRun(spec, exec, run) && Roomy(|spec.nodes|, spec.maxParallel)
    requires var s := run[|run| - 1]; s.phase.Exited? && !s.cancelled && !s.stop
    ensures var s := run[|run| - 1];
      && s.outcomes.Keys == IdsOf(spec.nodes)
      && Settled(spec, exec, s)
  {
    RunIsUndisturbed(spec, exec, run);
    RunIsBounded(spec, exec, run);
  }

  // ---------------------------------------------------------------------
  // Too few slots: a plan whose runnable last node is drained
  // ---------------------------------------------------------------------

  /** n pairwise distinct ids. */
  function Dependent(i: nat): string { seq(i + 1, _ => 's') }

  function DependentOf(i: nat): Node { Plain(Dependent(i), ["f"]) }

  function Plain(id: string, deps: seq<string>): Node { Node(id, "shell", Dict(End), deps, false) }

  function Dependents(k: nat): seq<Node> { seq(k, i requires 0 <= i < k => DependentOf(i)) }

  /** The first nodes to run: one that fails and, with two slots or more, one that succeeds. */
  function Openers(p: int): seq<Node> {
    if p == 1 then [Plain("f", [])] else [Plain("f", []), Plain("g", [])]
  }

  function Last(p: int): Node { Plain("x", if p == 1 then [] else ["g"]) }

  /** `f` fails, so the `s` nodes skip; `x`, declared last, depends on nothing that fails. */
  function Starving(n: nat, p: int): Spec
    requires n > |Openers(p)|
  {
    Spec(Openers(p) + Dependents(n - |Openers(p)| - 1) + [Last(p)], p, false)
  }

  function OnlyFFails(n: Node, payload: Json): Reply {
    if n.id == "f" then Raised("boom") else Returned(TaskResult(true, "", "", Null, "", "auto"))
  }

  lemma StarvingIds(n: nat, p: int)
    requires |Openers(p)| < n
    ensures UniqueIds(Starving(n, p).nodes)
  {
    var nodes := Starving(n, p).nodes;
    forall i, j | 0 <= i < j < |nodes| ensures nodes[i].id != nodes[j].id {
      var k := |Openers(p)|;
      if k <= i && j < n - 1 {
        assert |nodes[i].id| == i - k + 1 && |nodes[j].id| == j - k + 1;
      } else if k <= i {
        assert nodes[i].id[0] == 's';
      } else if k <= j < n - 1 {
        assert nodes[j].id[0] == 's';
      }
    }
  }

  lemma StarvingIsPlanned(n: nat, p: int)
    requires p >= 1 && |Openers(p)| < n <= MAX_NODES
    ensures Planned(Starving(n, p))
  {
    var nodes := Starving(n, p).nodes;
    StarvingIds(n, p);
    assert nodes[0].id == "f";
    assert p > 1 ==> nodes[1].id == "g";
    forall m <- nodes ensures SoundNode(m) && SoundLinks(m, IdsOf(nodes)) { StarvingNodeIsSound(n, p, m); }
    LinksAreKnown(nodes);
    StarvingIsShallow(n, p);
    ShallowIsAcyclic(nodes);
  }

  lemma OpenersAreThere(n: nat, p: int)
    requires p >= 1 && |Openers(p)| < n
    ensures "f" in IdsOf(Starving(n, p).nodes) && (p > 1 ==> "g" in IdsOf(Starving(n, p).nodes))
  {
    var nodes := Starving(n, p).nodes;
    assert nodes[0] in nodes && nodes[0].id == "f";
    assert p > 1 ==> nodes[1] in nodes && nodes[1].id == "g";
  }

  lemma StarvingDeps(n: nat, p: int, m: Node)
    requires p >= 1 && |Openers(p)| < n && m in Starving(n, p).nodes
    ensures m.dependsOn == [] || m.dependsOn == ["f"] || m.dependsOn == ["g"]
    ensures m.id == "f" || m.id == "g" ==> m.dependsOn == []
    ensures m.id != "" && m.kind != "" && m.payload == Dict(End)
    ensures p == 1 ==> m.dependsOn != ["g"]
  {
    var nodes := Starving(n, p).nodes;
    var i :| 0 <= i < |nodes| && nodes[i] == m;
    if |Openers(p)| <= i < n - 1 { assert m.id[0] == 's'; }
  }

  lemma StarvingNodeIsSound(n: nat, p: int, m: Node)
    requires p >= 1 && |Openers(p)| < n && m in Starving(n, p).nodes
    ensures SoundNode(m) && SoundLinks(m, IdsOf(Starving(n, p).nodes))
  {
    OpenersAreThere(n, p);
    StarvingDeps(n, p, m);
    assert References(m.payload) == [];
  }

  lemma StarvingIsShallow(n: nat, p: int)
    requires p >= 1 && |Openers(p)| < n
    ensures forall m: Node, d: Node ::
      m in Starving(n, p).nodes && d in Starving(n, p).nodes && d.id in m.dependsOn ==> d.dependsOn == []
  {
    var nodes := Starving(n, p).nodes;
    forall m: Node, d: Node | m in nodes && d in nodes && d.id in m.dependsOn ensures d.dependsOn == [] {
      StarvingDeps(n, p, m);
      StarvingDeps(n, p, d);
    }
  }

  /** A plan whose dependencies have no dependencies themselves is acyclic. */
  lemma ShallowIsAcyclic(nodes: seq<Node>)
    requires UniqueIds(nodes) && Closed(GraphOf(nodes))
    requires forall m: Node, d: Node :: m in nodes && d in nodes && d.id in m.dependsOn ==> d.dependsOn == []
    ensures Acyclic(GraphOf(nodes))
  {
    var g := GraphOf(nodes);
    var m := |g| + 2;
    DoneGrows(g, 2, m);
    forall id <- g ensures !ReachesCycle(g, id) {
      var n := Table(nodes)[id];
      forall d <- g[id] ensures d in Done(g, 1) { assert KnownDeps(g, id) && Table(nodes)[d].dependsOn == []; }
      assert id in Done(g, 2);
      StuckIffHopeless(g, m, id);
    }
  }

  function HeadIfEligible(n: Node, pending: set<string>, outcomes: Outcomes): seq<Node> {
    if n.id in pending && DepsResolved(n, outcomes) then [n] else []
  }

  lemma EligibleCons(n: Node, rest: seq<Node>, pending: set<string>, outcomes: Outcomes)
    ensures Eligible([n] + rest, pending, outcomes)
      == HeadIfEligible(n, pending, outcomes) + Eligible(rest, pending, outcomes)
  {
    assert ([n] + rest)[1..] == rest;
  }

  lemma NodesRegroup(x: seq<Node>, y: seq<Node>, z: seq<Node>)
    ensures x + (y + z) == (x + y) + z
  {
  }

  lemma EligibleConcatStep(n: Node, rest: seq<Node>, b: seq<Node>, pending: set<string>, outcomes: Outcomes)
    requires Eligible(rest + b, pending, outcomes) == Eligible(rest, pending, outcomes) + Eligible(b, pending, outcomes)
    ensures Eligible([n] + (rest + b), pending, outcomes)
      == Eligible([n] + rest, pending, outcomes) + Eligible(b, pending, outcomes)
  {
    EligibleCons(n, rest, pending, outcomes);
    EligibleCons(n, rest + b, pending, outcomes);
    var head := HeadIfEligible(n, pending, outcomes);
    NodesRegroup(head, Eligible(rest, pending, outcomes), Eligible(b, pending, outcomes));
  }

  lemma {:induction false} EligibleConcat(a: seq<Node>, b: seq<Node>, pending: set<string>, outcomes: Outcomes)
    ensures Eligible(a + b, pending, outcomes) == Eligible(a, pending, outcomes) + Eligible(b, pending, outcomes)
  {
    if a == [] {
      assert a + b == b;
    } else {
      EligibleConcat(a[1..], b, pending, outcomes);
      EligibleConcatStep(a[0], a[1..], b, pending, outcomes);
      assert a == [a[0]] + a[1..];
      NodesRegroup([a[0]], a[1..], b);
    }
  }

  lemma {:induction false} AllEligible(nodes: seq<Node>, pending: set<string>, outcomes: Outcomes)
    requires forall n <- nodes :: n.id in pending && DepsResolved(n, outcomes)
    ensures Eligible(nodes, pending, outcomes) == nodes
  {
    if nodes != [] { AllEligible(nodes[1..], pending, outcomes); }
  }

  lemma {:induction false} NoneEligible(nodes: seq<Node>, pending: set<string>, outcomes: Outcomes)
    requires forall n <- nodes :: n.id !in pending || !DepsResolved(n, outcomes)
    ensures Eligible(nodes, pending, outcomes) == []
  {
    if nodes != [] { NoneEligible(nodes[1..], pending, outcomes); }
  }

  /** Launching nodes that all skip leaves nothing in flight. */
  lemma {:induction false} LaunchOnlySkips(s: State, ready: seq<Node>, x: string)
    requires forall n <- ready :: n.dependsOn == ["f"] && n.id != "f" && n.id != x
    requires "f" in s.outcomes && !s.outcomes["f"].Succeeded() && x in s.pending
    ensures var t := Launch(s, ready);
      t.inFlight == s.inFlight && x in t.pending && !t.cancelled == !s.cancelled && t.stop == s.stop
        && t.phase == s.phase
    decreases |ready|
  {
    if ready != [] {
      assert ready[0] in ready && ready[0].dependsOn[0] == "f";
      LaunchOnlySkips(Decide(s, ready[0]), ready[1..], x);
    }
  }

  lemma DependentsAreBlocked(k: nat, pending: set<string>)
    ensures Eligible(Dependents(k), pending, map[]) == []
  {
    forall m <- Dependents(k) ensures !DepsResolved(m, map[]) { assert m.dependsOn[0] in m.dependsOn; }
    NoneEligible(Dependents(k), pending, map[]);
  }

  lemma LastIsLastOrBlocked(p: int, pending: set<string>)
    requires p >= 1
    ensures |Eligible([Last(p)], pending, map[])| <= (if p == 1 then 1 else 0)
  {
    assert [Last(p)][1..] == [];
    if p > 1 {
      assert Last(p).dependsOn[0] in Last(p).dependsOn;
      assert !DepsResolved(Last(p), map[]);
    }
  }

  lemma OpenersAreEligible(p: int, pending: set<string>)
    requires p >= 1 && "f" in pending && (p > 1 ==> "g" in pending)
    ensures Eligible(Openers(p), pending, map[]) == Openers(p)
  {
    AllEligible(Openers(p), pending, map[]);
  }

  lemma EligibleParts(openers: seq<Node>, middle: seq<Node>, last: seq<Node>, pending: set<string>)
    requires Eligible(openers, pending, map[]) == openers && Eligible(middle, pending, map[]) == []
    ensures Eligible(openers + middle + last, pending, map[]) == openers + [] + Eligible(last, pending, map[])
  {
    EligibleConcat(openers + middle, last, pending, map[]);
    EligibleConcat(openers, middle, pending, map[]);
  }

  lemma OpenersComeFirst(n: nat, p: int, pending: set<string>) returns (last: seq<Node>)
    requires p >= 1 && |Openers(p)| < n && "f" in pending && (p > 1 ==> "g" in pending)
    ensures Eligible(Starving(n, p).nodes, pending, map[]) == Openers(p) + [] + last
    ensures |last| <= (if p == 1 then 1 else 0)
  {
    OpenersAreEligible(p, pending);
    DependentsAreBlocked(n - |Openers(p)| - 1, pending);
    LastIsLastOrBlocked(p, pending);
    var openers, middle := Openers(p), Dependents(n - |Openers(p)| - 1);
    assert Starving(n, p).nodes == openers + middle + [Last(p)];
    EligibleParts(openers, middle, [Last(p)], pending);
    last := Eligible([Last(p)], pending, map[]);
  }

  lemma OpenersAreReady(n: nat, p: int)
    requires p >= 1 && |Openers(p)| < n <= MAX_NODES
    ensures ReadyNodes(Starving(n, p), Initial(Starving(n, p))) == Openers(p)
  {
    var nodes := Starving(n, p).nodes;
    assert nodes[0] in nodes && nodes[0].id == "f";
    assert p > 1 ==> nodes[1] in nodes && nodes[1].id == "g";
    var last := OpenersComeFirst(n, p, IdsOf(nodes));
    CutToOpeners(p, last);
  }

  lemma CutToOpeners(p: int, last: seq<Node>)
    requires p >= 1 && |last| <= (if p == 1 then 1 else 0)
    ensures var e := Openers(p) + [] + last; (if p < |e| then e[..p] else e) == Openers(p)
  {}

  lemma LaunchOneOpener(s: State)
    requires s.outcomes == map[] && s.inFlight == map[]
    ensures var t := Launch(s, Openers(1));
      t.inFlight == map["f" := map[]] && t.outcomes == map[] && t.pending == s.pending - {"f"}
        && t.stop == s.stop && t.cancelled == s.cancelled
  {
    var f := Plain("f", []);
    assert Openers(1) == [f] + [] && [f][1..] == [];
    assert Launch(s, [f]) == Launch(Decide(s, f), []);
  }

  lemma LaunchTwoOpeners(s: State, p: int)
    requires p > 1 && s.outcomes == map[] && s.inFlight == map[]
    ensures var t := Launch(s, Openers(p));
      t.inFlight == map["f" := map[], "g" := map[]] && t.outcomes == map[] && t.pending == s.pending - {"f", "g"}
        && t.stop == s.stop && t.cancelled == s.cancelled
  {
    var f, g := Plain("f", []), Plain("g", []);
    assert Openers(p) == [f, g] && [f, g][1..] == [g] && [g][1..] == [];
    var t := Decide(s, f);
    assert Launch(s, [f, g]) == Launch(t, [g]);
    assert Launch(t, [g]) == Launch(Decide(t, g), []);
  }

  /** The opening pass of the starving plan launches the openers and nothing else. */
  lemma OpeningPass(n: nat, p: int) returns (s: State)
    requires p >= 1 && |Openers(p)| < n <= MAX_NODES
    ensures var spec := Starving(n, p); s == LaunchPass(spec, Initial(spec))
    ensures OpenersInFlight(p, s) && "x" in s.pending
    ensures RestPending(n, p, s.pending)
  {
    var spec := Starving(n, p);
    var s0 := Initial(spec);
    OpenersAreReady(n, p);
    assert spec.nodes[n - 1] in spec.nodes && spec.nodes[n - 1].id == "x";
    s := LaunchPass(spec, s0);
    if p == 1 { LaunchOneOpener(s0); } else { LaunchTwoOpeners(s0, p); }
  }

  lemma LastWouldRun(n: nat, p: int)
    requires p >= 1 && |Openers(p)| < n <= MAX_NODES && Planned(Starving(n, p))
    ensures Has(Starving(n, p), "x") && Reference(Starving(n, p), OnlyFFails, "x").Ran?
  {
    var spec := Starving(n, p);
    assert spec.nodes[n - 1] == Last(p);
    ByIdIsUnique(spec, Last(p));
    if p > 1 {
      assert spec.nodes[1] == Plain("g", []);
      ByIdIsUnique(spec, Plain("g", []));
      assert Reference(spec, OnlyFFails, "g").Succeeded();
    }
  }

  ghost predicate RestPending(n: nat, p: int, pending: set<string>)
    requires n > |Openers(p)|
  {
    IdsOf(Starving(n, p).nodes) - {"f", "g"} <= pending && "f" !in pending && (p > 1 ==> "g" !in pending)
  }

  predicate OpenersDone(p: int, outcomes: Outcomes) {
    && "f" in outcomes && !outcomes["f"].Succeeded() && (p > 1 ==> "g" in outcomes)
  }

  predicate OpenersInFlight(p: int, s: State) {
    && "f" in s.inFlight && (p > 1 ==> "g" in s.inFlight) && (forall id <- s.inFlight :: s.inFlight[id] == map[])
    && s.outcomes == map[] && !s.stop && !s.cancelled && s.phase.Mid? && s.pending != {}
  }

  lemma OpenersRun(n: nat, p: int, done: map<string, Outcomes>)
    requires p >= 1 && |Openers(p)| + 1 < n && Planned(Starving(n, p))
    requires "f" in done && (p > 1 ==> "g" in done)
    ensures OpenersDone(p, Results(Starving(n, p), OnlyFFails, done))
  {
    var spec := Starving(n, p);
    assert spec.nodes[0] == Plain("f", []);
    ByIdIsUnique(spec, Plain("f", []));
    if p > 1 {
      assert spec.nodes[1] == Plain("g", []);
      ByIdIsUnique(spec, Plain("g", []));
    }
  }

  lemma CompleteAll(spec: Spec, exec: Execute, s: State) returns (t: State)
    requires UniqueIds(spec.nodes) && !spec.failFast
    requires s.outcomes == map[] && !s.stop && s.pending != {} && s.inFlight != map[]
    requires forall id <- s.inFlight :: s.inFlight[id] == map[]
    ensures CanComplete(s, s.inFlight) && t == Complete(spec, exec, s, s.inFlight)
    ensures t == s.(inFlight := map[], outcomes := Results(spec, exec, s.inFlight), phase := Top)
  {
    t := Complete(spec, exec, s, s.inFlight);
    assert t.inFlight.Keys == {};
    assert map[] + Results(spec, exec, s.inFlight) == Results(spec, exec, s.inFlight);
  }

  /** After the openers are done: `f` failed, nothing is in flight, the rest is pending. */
  lemma OpenersComplete(n: nat, p: int, s: State) returns (t: State)
    requires p >= 1 && |Openers(p)| + 1 < n && Planned(Starving(n, p)) && OpenersInFlight(p, s)
    ensures CanComplete(s, s.inFlight) && t == Complete(Starving(n, p), OnlyFFails, s, s.inFlight)
    ensures t.inFlight == map[] && t.pending == s.pending && !t.stop && !t.cancelled && t.phase.Top?
    ensures OpenersDone(p, t.outcomes)
  {
    OpenersRun(n, p, s.inFlight);
    t := CompleteAll(Starving(n, p), OnlyFFails, s);
  }

  lemma DependentsAreEligible(n: nat, p: int, pending: set<string>, outcomes: Outcomes)
    requires p >= 1 && n > |Openers(p)| && "f" in outcomes
    requires IdsOf(Starving(n, p).nodes) - {"f", "g"} <= pending
    ensures Eligible(Dependents(n - |Openers(p)| - 1), pending, outcomes) == Dependents(n - |Openers(p)| - 1)
  {
    forall m <- Dependents(n - |Openers(p)| - 1) ensures m.id in pending && DepsResolved(m, outcomes) {
      DependentIsInPlan(n, p, m);
      assert m.id[0] == 's';
    }
    AllEligible(Dependents(n - |Openers(p)| - 1), pending, outcomes);
  }

  lemma LastIsEligible(n: nat, p: int, pending: set<string>, outcomes: Outcomes)
    requires p >= 1 && n > |Openers(p)| && OpenersDone(p, outcomes)
    requires IdsOf(Starving(n, p).nodes) - {"f", "g"} <= pending
    ensures "x" in pending && Eligible([Last(p)], pending, outcomes) == [Last(p)]
  {
    assert Starving(n, p).nodes[n - 1] == Last(p) && Last(p) in Starving(n, p).nodes;
    AllEligible([Last(p)], pending, outcomes);
  }

  lemma RestIsEligible(n: nat, p: int, pending: set<string>, outcomes: Outcomes)
    requires p >= 1 && n > |Openers(p)| && OpenersDone(p, outcomes)
    requires RestPending(n, p, pending)
    ensures var k := n - |Openers(p)| - 1;
      Eligible(Starving(n, p).nodes, pending, outcomes) == [] + Dependents(k) + [Last(p)]
    ensures "x" in pending
  {
    var k := n - |Openers(p)| - 1;
    EligibleConcat(Openers(p) + Dependents(k), [Last(p)], pending, outcomes);
    EligibleConcat(Openers(p), Dependents(k), pending, outcomes);
    NoneEligible(Openers(p), pending, outcomes);
    DependentsAreEligible(n, p, pending, outcomes);
    LastIsEligible(n, p, pending, outcomes);
  }

  /** The next pass spends every slot on a node it skips. */
  lemma AllSlotsSkip(n: nat, p: int, t: State)
    requires p >= 1 && n >= |Openers(p)| + 1 + p && OpenersDone(p, t.outcomes)
    requires RestPending(n, p, t.pending)
    requires t.inFlight == map[] && !t.stop && !t.cancelled
    ensures var u := LaunchPass(Starving(n, p), t);
      u.inFlight == map[] && "x" in u.pending && !u.cancelled && !u.stop && u.phase.Mid?
  {
    var k := n - |Openers(p)| - 1;
    RestIsEligible(n, p, t.pending, t.outcomes);
    var ready := Dependents(k)[..p];
    assert ([] + Dependents(k) + [Last(p)])[..p] == ready;
    assert ReadyNodes(Starving(n, p), t) == ready;
    forall m <- ready ensures m.dependsOn == ["f"] && m.id != "f" && m.id != "x" {
      assert m in Dependents(k);
      DependentIsInPlan(n, p, m);
    }
    LaunchOnlySkips(t, ready, "x");
  }

  lemma DependentIsInPlan(n: nat, p: int, m: Node)
    requires p >= 1 && n > |Openers(p)| && m in Dependents(n - |Openers(p)| - 1)
    ensures m in Starving(n, p).nodes && m.dependsOn == ["f"] && m.id[0] == 's'
  {}

  /** With too few slots some plan, on some schedule, never runs a node whose
      dependencies all succeed. */
  lemma TooFewSlotsStarve(n: nat, p: int) returns (run: seq<State>)
    requires p >= 1 && n <= MAX_NODES && !Roomy(n, p)
    ensures Planned(Starving(n, p)) && IsRun(Starving(n, p), OnlyFFails, run)
    ensures var s := run[|run| - 1];
      s.phase.Exited? && !s.cancelled && "x" in s.outcomes && s.outcomes["x"].Skipped?
    ensures Has(Starving(n, p), "x") && Reference(Starving(n, p), OnlyFFails, "x").Ran?
  {
    var spec := Starving(n, p);
    assert n >= |Openers(p)| + 1 + p;
    StarvingIsPlanned(n, p);
    LastWouldRun(n, p);
    run := StarvingRun(n, p);
  }

  lemma StarvingRun(n: nat, p: int) returns (run: seq<State>)
    requires p >= 1 && |Openers(p)| + 1 + p <= n <= MAX_NODES && Planned(Starving(n, p))
    ensures IsRun(Starving(n, p), OnlyFFails, run)
    ensures var s := run[|run| - 1];
      s.phase.Exited? && !s.cancelled && "x" in s.outcomes && s.outcomes["x"].Skipped?
  {
    var spec := Starving(n, p);
    var s1 := OpeningPass(n, p);
    var s2 := OpenersComplete(n, p, s1);
    AllSlotsSkip(n, p, s2);
    var s3 := LaunchPass(spec, s2);
    run := [Initial(spec), s1, s2, s3, Drain(s3)];
    StepsMakeARun(spec, OnlyFFails, s1, s2, s3, s1.inFlight);
  }

  lemma FourSteps(spec: Spec, exec: Execute, s0: State, s1: State, s2: State, s3: State, s4: State)
    requires UniqueIds(spec.nodes) && s0 == Initial(spec)
    requires Next(spec, exec, s0, s1) && Next(spec, exec, s1, s2)
    requires Next(spec, exec, s2, s3) && Next(spec, exec, s3, s4)
    ensures IsRun(spec, exec, [s0, s1, s2, s3, s4])
  {
  }

  lemma StepsMakeARun(spec: Spec, exec: Execute, s1: State, s2: State, s3: State, done: map<string, Outcomes>)
    requires UniqueIds(spec.nodes) && s1 == LaunchPass(spec, Initial(spec))
    requires CanComplete(s1, done) && s2 == Complete(spec, exec, s1, done)
    requires s2.phase.Top? && s3 == LaunchPass(spec, s2) && s3.inFlight == map[]
    ensures IsRun(spec, exec, [Initial(spec), s1, s2, s3, Drain(s3)])
  {
    FourSteps(spec, exec, Initial(spec), s1, s2, s3, Drain(s3));
  }

  /** Every undisturbed run of every plan of `n` nodes ends in the reference outcomes. */
  ghost predicate NeverStarves(n: nat, p: int) {
    forall spec: Spec, exec: Execute, run: seq<State> ::
      Planned(spec) && |spec.nodes| == n && spec.maxParallel == p && !spec.failFast
      && IsRun(spec, exec, run) && run[|run| - 1].phase.Exited? && !run[|run| - 1].cancelled
      ==> Settled(spec, exec, run[|run| - 1])
  }

  /** The parallelism a plan needs: `max_parallel` must be at least the number of
      nodes minus one, or minus two when it is at least two. */
  lemma SlotsNeeded(n: nat, p: int)
    requires p >= 1 && n <= MAX_NODES
    ensures NeverStarves(n, p) <==> Roomy(n, p)
  {
    if Roomy(n, p) {
      forall spec: Spec, exec: Execute, run: seq<State> |
        Planned(spec) && |spec.nodes| == n && spec.maxParallel == p && !spec.failFast
        && IsRun(spec, exec, run) && run[|run| - 1].phase.Exited? && !run[|run| - 1].cancelled
        ensures Settled(spec, exec, run[|run| - 1])
      {
        RunIsSafe(spec, exec, run);
        EveryScheduleAgrees(spec, exec, run);
      }
    } else {
      var run := TooFewSlotsStarve(n, p);
      assert !Settled(Starving(n, p), OnlyFFails, run[|run| - 1]);
    }
  }
}
