/** A workflow plan: its static validation and its deterministic order. */
module Plan {
  import opened Dag
  import opened Payload

  const MAX_NODES := 100

  datatype Node = Node(id: string, kind: string, payload: Json, dependsOn: seq<string>, continueOnError: bool)

  datatype Spec = Spec(nodes: seq<Node>, maxParallel: int, failFast: bool)

  predicate UniqueIds(nodes: seq<Node>) {
    forall i, j :: 0 <= i < j < |nodes| ==> nodes[i].id != nodes[j].id
  }

  /** `{n.id: n for n in nodes}`. */
  function Table(nodes: seq<Node>): (t: map<string, Node>)
    requires UniqueIds(nodes)
    ensures forall n <- nodes :: n.id in t && t[n.id] == n
    ensures forall i <- t :: t[i].id == i && t[i] in nodes
  {
    map n | n in nodes :: n.id := n
  }

  function Deps(n: Node): set<string> { set d | d in n.dependsOn }

  /** `{n.id: set(n.depends_on) for n in nodes}`. */
  function GraphOf(nodes: seq<Node>): Graph
    requires UniqueIds(nodes)
  {
    map n | n in nodes :: n.id := Deps(n)
  }

  // ---------------------------------------------------------------------
  // topological_order
  // ---------------------------------------------------------------------

  /** The ids of the nodes in `s`, in declaration order. */
  function Picked(nodes: seq<Node>, s: set<string>): seq<string> {
    if nodes == [] then [] else (if nodes[0].id in s then [nodes[0].id] else []) + Picked(nodes[1..], s)
  }

  /** Rounds 1 to k of the sort, each in declaration order. */
  function Layers(nodes: seq<Node>, g: Graph, k: nat): seq<string> {
    if k == 0 then [] else Layers(nodes, g, k - 1) + Picked(nodes, Done(g, k) - Done(g, k - 1))
  }

  ghost predicate Named(nodes: seq<Node>, id: string) { exists n <- nodes :: n.id == id }

  /** Position of an id in the declaration. */
  ghost predicate DeclaredAt(nodes: seq<Node>, id: string, i: nat) {
    i < |nodes| && nodes[i].id == id
  }

  /** `a` is declared before `b`. */
  ghost predicate DeclaredBefore(nodes: seq<Node>, a: string, b: string) {
    exists i, j :: 0 <= i < j && DeclaredAt(nodes, a, i) && DeclaredAt(nodes, b, j)
  }

  lemma DeclaredLater(nodes: seq<Node>, a: string, b: string)
    requires nodes != [] && DeclaredBefore(nodes[1..], a, b)
    ensures DeclaredBefore(nodes, a, b)
  {
    var i, j :| 0 <= i < j && DeclaredAt(nodes[1..], a, i) && DeclaredAt(nodes[1..], b, j);
    assert DeclaredAt(nodes, a, i + 1) && DeclaredAt(nodes, b, j + 1);
  }

  lemma FirstIsBefore(nodes: seq<Node>, b: string)
    requires nodes != [] && Named(nodes[1..], b)
    ensures DeclaredBefore(nodes, nodes[0].id, b)
  {
    var n :| n in nodes[1..] && n.id == b;
    var j :| 0 <= j < |nodes| - 1 && nodes[1..][j] == n;
    assert DeclaredAt(nodes, nodes[0].id, 0) && DeclaredAt(nodes, b, j + 1);
  }

  lemma BeforeIsOther(nodes: seq<Node>, a: string, b: string)
    requires UniqueIds(nodes) && DeclaredBefore(nodes, a, b)
    ensures a != b
  {
    var i, j :| 0 <= i < j && DeclaredAt(nodes, a, i) && DeclaredAt(nodes, b, j);
  }

  lemma {:induction false} PickedAre(nodes: seq<Node>, s: set<string>, x: string)
    ensures x in Picked(nodes, s) <==> x in s && Named(nodes, x)
  {
    if nodes != [] {
      PickedAre(nodes[1..], s, x);
      assert Named(nodes, x) <==> nodes[0].id == x || Named(nodes[1..], x);
    }
  }

  lemma {:induction false} PickedInOrder(nodes: seq<Node>, s: set<string>, i: nat, j: nat)
    requires i < j < |Picked(nodes, s)|
    ensures DeclaredBefore(nodes, Picked(nodes, s)[i], Picked(nodes, s)[j])
  {
    var rest := Picked(nodes[1..], s);
    var shift := if nodes[0].id in s then 1 else 0;
    var b := rest[j - shift];
    if i >= shift {
      PickedInOrder(nodes[1..], s, i - shift, j - shift);
      DeclaredLater(nodes, rest[i - shift], b);
    } else {
      PickedAre(nodes[1..], s, b);
      FirstIsBefore(nodes, b);
    }
  }

  lemma PickedIsSorted(nodes: seq<Node>, s: set<string>)
    requires UniqueIds(nodes)
    ensures
      var p := Picked(nodes, s);
      && (forall x :: x in p <==> x in s && Named(nodes, x))
      && (forall i, j :: 0 <= i < j < |p| ==> DeclaredBefore(nodes, p[i], p[j]) && p[i] != p[j])
  {
    var p := Picked(nodes, s);
    forall x ensures x in p <==> x in s && Named(nodes, x) { PickedAre(nodes, s, x); }
    forall i, j | 0 <= i < j < |p| ensures DeclaredBefore(nodes, p[i], p[j]) && p[i] != p[j] {
      PickedInOrder(nodes, s, i, j);
      BeforeIsOther(nodes, p[i], p[j]);
    }
  }

  /** Earlier in the order: a shorter longest-chain, or the same and declared first. */
  ghost predicate Before(nodes: seq<Node>, g: Graph, k: nat, a: string, b: string)
    requires a in Done(g, k) && b in Done(g, k)
  {
    || Height(g, a, k) < Height(g, b, k)
    || (Height(g, a, k) == Height(g, b, k) && DeclaredBefore(nodes, a, b))
  }

  ghost predicate SortedOrder(nodes: seq<Node>, g: Graph, k: nat, order: seq<string>) {
    && (forall x :: x in order <==> x in Done(g, k))
    && (forall i, j :: 0 <= i < j < |order| ==> order[i] != order[j] && Before(nodes, g, k, order[i], order[j]))
  }

  /** `g` describes nodes of the plan only. */
  ghost predicate Describes(nodes: seq<Node>, g: Graph) {
    forall x {:trigger Named(nodes, x)} :: x in g ==> Named(nodes, x)
  }

  /** The sorted order lists each resolved id once, by (longest chain, declaration index). */
  lemma {:induction false} LayersAreSorted(nodes: seq<Node>, g: Graph, k: nat)
    requires UniqueIds(nodes) && Describes(nodes, g)
    ensures SortedOrder(nodes, g, k, Layers(nodes, g, k))
  {
    if k > 0 {
      LayersAreSorted(nodes, g, k - 1);
      DoneGrows(g, k - 1, k);
      var layer := Done(g, k) - Done(g, k - 1);
      PickedIsSorted(nodes, layer);
      LayerExtends(nodes, g, k, Layers(nodes, g, k - 1), Picked(nodes, layer));
    }
  }

  lemma BeforeInNextRound(nodes: seq<Node>, g: Graph, k: nat, a: string, b: string)
    requires k > 0 && a in Done(g, k) && b in Done(g, k)
    requires a in Done(g, k - 1) && b in Done(g, k - 1) ==> Before(nodes, g, k - 1, a, b)
    requires b in Done(g, k - 1) ==> a in Done(g, k - 1)
    requires a !in Done(g, k - 1) ==> DeclaredBefore(nodes, a, b)
    ensures Before(nodes, g, k, a, b)
  {}

  lemma LayerExtends(nodes: seq<Node>, g: Graph, k: nat, head: seq<string>, tail: seq<string>)
    requires k > 0 && SortedOrder(nodes, g, k - 1, head) && Done(g, k - 1) <= Done(g, k)
    requires forall x :: x in tail <==> x in Done(g, k) - Done(g, k - 1)
    requires forall i, j :: 0 <= i < j < |tail| ==> DeclaredBefore(nodes, tail[i], tail[j]) && tail[i] != tail[j]
    ensures SortedOrder(nodes, g, k, head + tail)
  {
    var order := head + tail;
    forall i, j | 0 <= i < j < |order|
      ensures order[i] != order[j] && order[i] in Done(g, k) && order[j] in Done(g, k)
      ensures Before(nodes, g, k, order[i], order[j])
    {
      var a := if i < |head| then head[i] else tail[i - |head|];
      var b := if j < |head| then head[j] else tail[j - |head|];
      assert a in if i < |head| then head else tail;
      assert b in if j < |head| then head else tail;
      BeforeInNextRound(nodes, g, k, a, b);
    }
  }

  datatype TopoResult = Ordered(order: seq<string>) | CycleAmong(stuck: set<string>)

  /** Each dependency is listed before its dependents. */
  ghost predicate DepsComeFirst(g: Graph, order: seq<string>) {
    forall i, j :: 0 <= i < |order| && 0 <= j < |order| && order[i] in g && order[j] in g[order[i]] ==> j < i
  }

  /** Sorted, complete, without repetition, and every dependency before its dependents. */
  ghost predicate PlanOrder(nodes: seq<Node>, g: Graph, order: seq<string>) {
    && SortedOrder(nodes, g, |nodes|, order)
    && multiset(order) == multiset(g.Keys)
    && DepsComeFirst(g, order)
  }

  /** `remaining` after `k` rounds. */
  ghost predicate Remaining(g: Graph, k: nat, remaining: Graph) {
    && remaining.Keys == g.Keys - Done(g, k)
    && forall n <- remaining :: remaining[n] == g[n] - Done(g, k)
  }

  function IdSet(ids: seq<string>): set<string> { set n | n in ids }

  /** The ids nothing holds back any more. */
  function Free(remaining: Graph): set<string> { set n | n in remaining && remaining[n] == {} }

  function Strike(remaining: Graph, resolved: set<string>): Graph {
    map n | n in remaining && n !in resolved :: remaining[n] - resolved
  }

  lemma FreeIsNextLayer(g: Graph, k: nat, remaining: Graph)
    requires Remaining(g, k, remaining)
    ensures Free(remaining) == Done(g, k + 1) - Done(g, k)
  {
    DoneGrows(g, k, k + 1);
    forall n <- remaining ensures remaining[n] == {} <==> g[n] <= Done(g, k) {
      assert forall d <- g[n] :: d in remaining[n] || d in Done(g, k);
    }
  }

  lemma StruckTwice(all: set<string>, before: set<string>, layer: set<string>, now: set<string>)
    requires before <= now && layer == now - before
    ensures all - before - layer == all - now
  {}

  lemma StrikeLeavesTheRest(g: Graph, k: nat, remaining: Graph, layer: set<string>)
    requires Remaining(g, k, remaining) && layer == Done(g, k + 1) - Done(g, k) && layer != {}
    ensures Remaining(g, k + 1, Strike(remaining, layer))
    ensures |Strike(remaining, layer)| < |remaining|
  {
    DoneGrows(g, k, k + 1);
    var next := Strike(remaining, layer);
    forall n <- next ensures next[n] == g[n] - Done(g, k + 1) {
      StruckTwice(g[n], Done(g, k), layer, Done(g, k + 1));
    }
    StruckTwice(g.Keys, Done(g, k), layer, Done(g, k + 1));
    StrikeShrinks(remaining, layer);
  }

  lemma StrikeShrinks(remaining: Graph, layer: set<string>)
    requires layer <= remaining.Keys && layer != {}
    ensures Strike(remaining, layer).Keys == remaining.Keys - layer
    ensures |Strike(remaining, layer)| < |remaining|
  {
    var next := Strike(remaining, layer);
    assert remaining.Keys == next.Keys + layer;
  }

  lemma RoundIsStuck(nodes: seq<Node>, g: Graph, k: nat, remaining: Graph)
    requires Remaining(g, k, remaining) && remaining != map[] && Free(remaining) == {}
    ensures SortsInto(nodes, g, CycleAmong(remaining.Keys))
  {
    FreeIsNextLayer(g, k, remaining);
    DoneGrows(g, k, k + 1);
    assert remaining.Keys != {};
    assert forall x <- Done(g, k + 1) :: x in Done(g, k) || x in Free(remaining);
    StuckSet(g, k);
  }

  lemma RoundAdvances(nodes: seq<Node>, g: Graph, k: nat, remaining: Graph)
    requires Remaining(g, k, remaining) && Free(remaining) != {}
    ensures Layers(nodes, g, k + 1) == Layers(nodes, g, k) + Picked(nodes, Free(remaining))
    ensures Remaining(g, k + 1, Strike(remaining, Free(remaining)))
    ensures |Strike(remaining, Free(remaining))| < |remaining|
  {
    FreeIsNextLayer(g, k, remaining);
    StrikeLeavesTheRest(g, k, remaining, Free(remaining));
  }

  /** What the sort promises about a graph that describes the plan. What it names when it
      gives up reaches a cycle or a name that is no node. */
  ghost predicate SortsInto(nodes: seq<Node>, g: Graph, r: TopoResult) {
    match r
    case Ordered(order) => Closed(g) && Acyclic(g) && PlanOrder(nodes, g, order)
    case CycleAmong(stuck) => !(Closed(g) && Acyclic(g)) && forall n :: n in stuck <==> n in g && Hopeless(g, n)
  }

  /** Kahn's algorithm, one layer a round. */
  method TopologicalOrder(nodes: seq<Node>) returns (r: TopoResult)
    requires UniqueIds(nodes)
    ensures SortsInto(nodes, GraphOf(nodes), r)
  {
    var remaining := GraphOf(nodes);
    ghost var g := remaining;
    var order := [];
    ghost var k := 0;
    FirstRound(nodes);
    while remaining != map[]
      invariant Rounds(nodes, g, k, remaining, order)
      decreases |remaining|
    {
      var ready := Picked(nodes, Free(remaining));
      if ready == [] {
        NoneReady(nodes, g, k, remaining, order);
        return CycleAmong(remaining.Keys);
      }
      SomeReady(nodes, g, k, remaining, order);
      order := order + ready;
      remaining := Strike(remaining, IdSet(ready));
      k := k + 1;
    }
    AllSorted(nodes, g, k, remaining, order);
    r := Ordered(order);
  }

  /** The state of the sort after `k` rounds. */
  ghost predicate Rounds(nodes: seq<Node>, g: Graph, k: nat, remaining: Graph, order: seq<string>) {
    Remaining(g, k, remaining) && order == Layers(nodes, g, k) && k + |remaining| <= |g|
  }

  lemma FirstRound(nodes: seq<Node>)
    requires UniqueIds(nodes)
    ensures var g := GraphOf(nodes);
      Describes(nodes, g) && |g| == |nodes| && Rounds(nodes, g, 0, g, [])
  {
    TableDescribes(nodes);
  }

  lemma AllSorted(nodes: seq<Node>, g: Graph, k: nat, remaining: Graph, order: seq<string>)
    requires UniqueIds(nodes) && Describes(nodes, g) && |g| == |nodes|
    requires Rounds(nodes, g, k, remaining, order) && remaining == map[]
    ensures SortsInto(nodes, g, Ordered(order))
  {
    AllResolved(g, k, remaining);
    OrderIsComplete(nodes, g, k);
  }

  lemma NoneReady(nodes: seq<Node>, g: Graph, k: nat, remaining: Graph, order: seq<string>)
    requires UniqueIds(nodes) && Describes(nodes, g)
    requires Rounds(nodes, g, k, remaining, order) && remaining != map[] && Picked(nodes, Free(remaining)) == []
    ensures SortsInto(nodes, g, CycleAmong(remaining.Keys))
  {
    ReadyIsFree(nodes, g, Free(remaining));
    RoundIsStuck(nodes, g, k, remaining);
  }

  lemma SomeReady(nodes: seq<Node>, g: Graph, k: nat, remaining: Graph, order: seq<string>)
    requires UniqueIds(nodes) && Describes(nodes, g)
    requires Rounds(nodes, g, k, remaining, order) && Picked(nodes, Free(remaining)) != []
    ensures
      var ready := Picked(nodes, Free(remaining));
      var next := Strike(remaining, IdSet(ready));
      Rounds(nodes, g, k + 1, next, order + ready) && |next| < |remaining|
  {
    ReadyIsFree(nodes, g, Free(remaining));
    RoundAdvances(nodes, g, k, remaining);
  }

  lemma AllResolved(g: Graph, k: nat, remaining: Graph)
    requires Remaining(g, k, remaining) && remaining == map[]
    ensures Done(g, k) == g.Keys
  {
    DoneGrows(g, k, k);
    assert remaining.Keys == {};
    assert forall x <- g :: x in Done(g, k) || x in remaining.Keys;
  }

  lemma TableDescribes(nodes: seq<Node>)
    requires UniqueIds(nodes)
    ensures Describes(nodes, GraphOf(nodes)) && |GraphOf(nodes)| == |nodes|
  {
    forall x <- GraphOf(nodes) ensures Named(nodes, x) {}
    IdsCount(nodes);
    assert GraphOf(nodes).Keys == set n | n in nodes :: n.id;
  }

  lemma ReadyIsFree(nodes: seq<Node>, g: Graph, s: set<string>)
    requires UniqueIds(nodes) && Describes(nodes, g) && s <= g.Keys
    ensures IdSet(Picked(nodes, s)) == s
    ensures Picked(nodes, s) == [] <==> s == {}
  {
    var p := Picked(nodes, s);
    PickedIsSorted(nodes, s);
    forall x <- s ensures x in Picked(nodes, s) { assert Named(nodes, x); }
    if p != [] { assert p[0] in s; } else { assert forall x :: x !in s; }
  }

  /** When a round resolves nothing, no later round does. */
  lemma {:induction false} DoneStalls(g: Graph, k: nat, m: nat)
    requires Done(g, k) == Done(g, k + 1) && k <= m
    ensures Done(g, m) == Done(g, k)
    decreases m
  {
    if k < m {
      DoneStalls(g, k, m - 1);
      assert Done(g, m) == Done(g, k + 1);
    }
  }

  lemma StuckSet(g: Graph, k: nat)
    requires Done(g, k + 1) == Done(g, k) && Done(g, k) != g.Keys
    ensures forall n :: n in g.Keys - Done(g, k) <==> n in g && Hopeless(g, n)
    ensures !(Closed(g) && Acyclic(g))
  {
    DoneGrows(g, k, k + 1);
    var m := if k > |g| then k else |g|;
    DoneStalls(g, k, m);
    forall n <- g ensures n !in Done(g, k) <==> Hopeless(g, n) {
      StuckIffHopeless(g, m, n);
    }
    AllDoneIff(g);
    assert exists n :: n in g.Keys && n !in Done(g, k);
  }

  lemma {:induction false} IdsCount(nodes: seq<Node>)
    requires UniqueIds(nodes)
    ensures |set n | n in nodes :: n.id| == |nodes|
  {
    if nodes != [] {
      IdsCount(nodes[1..]);
      assert (set n | n in nodes :: n.id) == (set n | n in nodes[1..] :: n.id) + {nodes[0].id};
    }
  }

  lemma {:induction false} NoDupMultiset(s: seq<string>, ids: set<string>)
    requires forall x :: x in s <==> x in ids
    requires forall i, j :: 0 <= i < j < |s| ==> s[i] != s[j]
    ensures multiset(s) == multiset(ids)
  {
    if s != [] {
      assert forall x :: x in s[1..] <==> x in ids - {s[0]};
      NoDupMultiset(s[1..], ids - {s[0]});
      assert s == [s[0]] + s[1..];
    }
  }

  /** Sortedness does not depend on how many rounds beyond the last are counted. */
  lemma SortedLater(nodes: seq<Node>, g: Graph, k: nat, m: nat, order: seq<string>)
    requires k <= m && Done(g, k) == Done(g, m) && SortedOrder(nodes, g, k, order)
    ensures SortedOrder(nodes, g, m, order)
  {
    forall x <- order ensures x in Done(g, m) && Height(g, x, k) == Height(g, x, m) {
      HeightUnique(g, x, m, Height(g, x, k));
    }
    forall i, j | 0 <= i < j < |order| ensures Before(nodes, g, m, order[i], order[j]) {
      assert Before(nodes, g, k, order[i], order[j]);
    }
  }

  lemma SortedRespectsDeps(nodes: seq<Node>, g: Graph, k: nat, order: seq<string>, i: nat, j: nat)
    requires SortedOrder(nodes, g, k, order)
    requires i < |order| && j < |order| && order[i] in g && order[j] in g[order[i]]
    ensures j < i
  {
    HeightDrops(g, order[i], order[j], k);
    assert i < j ==> Before(nodes, g, k, order[i], order[j]);
  }

  lemma SortedIsDepsFirst(nodes: seq<Node>, g: Graph, k: nat, order: seq<string>)
    requires SortedOrder(nodes, g, k, order)
    ensures DepsComeFirst(g, order)
  {
    forall i, j | 0 <= i < |order| && 0 <= j < |order| && order[i] in g && order[j] in g[order[i]] ensures j < i {
      SortedRespectsDeps(nodes, g, k, order, i, j);
    }
  }

  lemma SortedListsAll(nodes: seq<Node>, g: Graph, k: nat, order: seq<string>)
    requires SortedOrder(nodes, g, k, order) && Done(g, k) == g.Keys
    ensures multiset(order) == multiset(g.Keys)
  {
    NoDupMultiset(order, g.Keys);
  }

  lemma OrderIsComplete(nodes: seq<Node>, g: Graph, k: nat)
    requires UniqueIds(nodes) && Describes(nodes, g) && k <= |g| == |nodes| && Done(g, k) == g.Keys
    ensures SortsInto(nodes, g, Ordered(Layers(nodes, g, k)))
  {
    var order := Layers(nodes, g, k);
    DoneGrows(g, k, |g|);
    AllDoneIff(g);
    LayersAreSorted(nodes, g, k);
    SortedLater(nodes, g, k, |nodes|, order);
    SortedListsAll(nodes, g, k, order);
    SortedIsDepsFirst(nodes, g, |nodes|, order);
  }

  // ---------------------------------------------------------------------
  // parse_workflow
  // ---------------------------------------------------------------------

  /** One entry of the packet's node list; an absent id or kind reads as empty. */
  datatype RawNode = RawNode(id: string, kind: string, payload: Json, dependsOn: seq<string>, continueOnError: bool)

  datatype Rejection =
    | NoNodes
    | TooManyNodes
    | BadNode(index: nat)
    | DuplicateId(id: string)
    | UnknownDependency(node: Node, dep: string)
    | SelfDependency(node: Node)
    | BadReference(node: Node, ref: Ref)
    | Cycle(stuck: set<string>)
    | BadParallelism

  datatype Parsed = Accepted(spec: Spec) | Rejected(why: Rejection)

  function NodeOf(raw: RawNode, index: nat): Node {
    Node(Strip(if raw.id == "" then "node-" + Digits(index) else raw.id), Strip(raw.kind),
         raw.payload, raw.dependsOn, raw.continueOnError)
  }

  function NodesOf(raw: seq<RawNode>): (nodes: seq<Node>)
    ensures |nodes| == |raw| && forall i :: 0 <= i < |raw| ==> nodes[i] == NodeOf(raw[i], i)
  {
    seq(|raw|, i requires 0 <= i < |raw| => NodeOf(raw[i], i))
  }

  predicate SoundNode(n: Node) { n.id != "" && n.kind != "" && n.payload.Dict? }

  /** A reference may only read a supported field of a direct dependency. */
  predicate SoundReference(n: Node, ids: set<string>, r: Ref) {
    r.id in ids && r.field in REFERENCEABLE_FIELDS && r.id in n.dependsOn
  }

  predicate SoundLinks(n: Node, ids: set<string>) {
    && (forall d <- n.dependsOn :: d in ids && d != n.id)
    && (forall r <- References(n.payload) :: SoundReference(n, ids, r))
  }

  function IdsOf(nodes: seq<Node>): set<string> { set n | n in nodes :: n.id }

  ghost predicate AllSound(nodes: seq<Node>) {
    forall n {:trigger SoundNode(n)} :: n in nodes ==> SoundNode(n)
  }

  ghost predicate AllLinked(nodes: seq<Node>) {
    forall n {:trigger SoundLinks(n, IdsOf(nodes))} :: n in nodes ==> SoundLinks(n, IdsOf(nodes))
  }

  /** Everything that can be wrong with a plan statically is not. */
  ghost predicate Valid(nodes: seq<Node>, maxParallel: int) {
    && 0 < |nodes| <= MAX_NODES
    && AllSound(nodes)
    && UniqueIds(nodes)
    && AllLinked(nodes)
    && Acyclic(GraphOf(nodes))
    && maxParallel >= 1
  }

  /** The reported flaw is really there. */
  ghost predicate Justified(why: Rejection, nodes: seq<Node>, maxParallel: int) {
    match why
    case NoNodes => nodes == []
    case TooManyNodes => |nodes| > MAX_NODES
    case BadNode(i) => i < |nodes| && !SoundNode(nodes[i])
    case DuplicateId(id) => exists i, j :: 0 <= i < j < |nodes| && nodes[i].id == id == nodes[j].id
    case UnknownDependency(n, d) => n in nodes && d in n.dependsOn && d !in IdsOf(nodes)
    case SelfDependency(n) => n in nodes && n.id in n.dependsOn
    case BadReference(n, r) => n in nodes && r in References(n.payload) && !SoundReference(n, IdsOf(nodes), r)
    case Cycle(stuck) => UniqueIds(nodes) && stuck != {}
      && forall n :: n in stuck <==> n in GraphOf(nodes) && ReachesCycle(GraphOf(nodes), n)
    case BadParallelism => maxParallel < 1
  }

  /** The first two passes of validation: node by node, then link by link. */
  method CheckNodes(nodes: seq<Node>) returns (flaw: Option<Rejection>)
    ensures flaw.None? ==> UniqueIds(nodes) && AllSound(nodes)
    ensures flaw.Some? ==> Justified(flaw.value, nodes, 1)
  {
    var seen: set<string> := {};
    for i := 0 to |nodes|
      invariant forall k :: 0 <= k < i ==> SoundNode(nodes[k]) && nodes[k].id in seen
      invariant forall x <- seen :: exists k :: 0 <= k < i && nodes[k].id == x
      invariant forall j, k :: 0 <= j < k < i ==> nodes[j].id != nodes[k].id
    {
      if nodes[i].id != "" && nodes[i].id in seen { return Some(DuplicateId(nodes[i].id)); }
      if !SoundNode(nodes[i]) { return Some(BadNode(i)); }
      seen := seen + {nodes[i].id};
    }
    flaw := None;
  }

  method CheckLinks(nodes: seq<Node>) returns (flaw: Option<Rejection>)
    ensures flaw.None? ==> AllLinked(nodes)
    ensures flaw.Some? ==> Justified(flaw.value, nodes, 1)
  {
    var ids := IdsOf(nodes);
    for i := 0 to |nodes|
      invariant forall k :: 0 <= k < i ==> SoundLinks(nodes[k], ids)
    {
      var n := nodes[i];
      for j := 0 to |n.dependsOn|
        invariant forall k :: 0 <= k < j ==> n.dependsOn[k] in ids && n.dependsOn[k] != n.id
      {
        if n.dependsOn[j] !in ids { return Some(UnknownDependency(n, n.dependsOn[j])); }
        if n.dependsOn[j] == n.id { return Some(SelfDependency(n)); }
      }
      var refs := References(n.payload);
      for j := 0 to |refs|
        invariant forall k :: 0 <= k < j ==> SoundReference(n, ids, refs[k])
      {
        if !SoundReference(n, ids, refs[j]) { return Some(BadReference(n, refs[j])); }
      }
    }
    flaw := None;
  }

  lemma LinksAreKnown(nodes: seq<Node>)
    requires UniqueIds(nodes) && AllLinked(nodes)
    ensures Closed(GraphOf(nodes))
  {
    var g := GraphOf(nodes);
    assert g.Keys == IdsOf(nodes);
    forall n | n in g ensures KnownDeps(g, n) {
      assert Table(nodes)[n] in nodes && SoundLinks(Table(nodes)[n], IdsOf(nodes)) && g[n] == Deps(Table(nodes)[n]);
    }
  }

  lemma StuckIsAFlaw(nodes: seq<Node>, stuck: set<string>)
    requires UniqueIds(nodes) && Closed(GraphOf(nodes)) && SortsInto(nodes, GraphOf(nodes), CycleAmong(stuck))
    ensures Justified(Cycle(stuck), nodes, 1)
  {
    var g := GraphOf(nodes);
    forall n <- g ensures Hopeless(g, n) <==> ReachesCycle(g, n) { ClosedIsKnown(g, n); }
    var n :| n in g && ReachesCycle(g, n);
    assert n in stuck;
  }

  /** A flaw that is there keeps the plan from being valid. */
  lemma FlawsInvalidate(why: Rejection, nodes: seq<Node>, maxParallel: int)
    requires Justified(why, nodes, maxParallel)
    ensures !Valid(nodes, maxParallel)
  {
    match why
    case UnknownDependency(n, _) => assert !SoundLinks(n, IdsOf(nodes));
    case SelfDependency(n) => assert !SoundLinks(n, IdsOf(nodes));
    case BadReference(n, _) => assert !SoundLinks(n, IdsOf(nodes));
    case BadNode(i) => assert nodes[i] in nodes;
    case Cycle(stuck) =>
      var n :| n in stuck;
      assert ReachesCycle(GraphOf(nodes), n);
    case _ =>
  }

  // ---------------------------------------------------------------------
  // What is accepted, said of the nodes alone
  // ---------------------------------------------------------------------

  /** Nodes of the plan that wait for each other in a circle. */
  ghost predicate Circle(nodes: seq<Node>, loop: seq<Node>) {
    && |loop| > 1 && loop[0] == loop[|loop| - 1]
    && (forall i :: 0 <= i < |loop| ==> loop[i] in nodes)
    && forall i :: 0 <= i < |loop| - 1 ==> loop[i + 1].id in loop[i].dependsOn
  }

  /** A reference reads one of six fields of a node waited for. */
  predicate ReadsADependency(n: Node, r: Ref) {
    && r.id in n.dependsOn
    && (r.field == "stdout" || r.field == "stderr" || r.field == "exit_code"
        || r.field == "ok" || r.field == "error" || r.field == "decision")
  }

  ghost predicate Orderly(n: Node, nodes: seq<Node>) {
    && n.id != "" && n.kind != "" && n.payload.Dict?
    && (forall d <- n.dependsOn :: d != n.id && Named(nodes, d))
    && (forall r <- References(n.payload) :: ReadsADependency(n, r))
  }

  /** One to a hundred nodes of different names, each in order, and none waits in a circle. */
  ghost predicate WellPlanned(nodes: seq<Node>, maxParallel: int) {
    && 1 <= |nodes| <= 100 && maxParallel >= 1
    && (forall i, j :: 0 <= i < j < |nodes| ==> nodes[i].id != nodes[j].id)
    && (forall n <- nodes :: Orderly(n, nodes))
    && !exists loop :: Circle(nodes, loop)
  }

  lemma CircleIsCycle(nodes: seq<Node>, loop: seq<Node>)
    requires UniqueIds(nodes) && Circle(nodes, loop)
    ensures !Acyclic(GraphOf(nodes))
  {
    var g := GraphOf(nodes);
    var p := seq(|loop|, i requires 0 <= i < |loop| => loop[i].id);
    forall i | 0 <= i < |p| ensures p[i] in g && g[p[i]] == Deps(loop[i]) { assert loop[i] in nodes; }
    assert ChainFrom(g, p[0], p) && 0 <= 0 < |p| - 1 < |p| && p[0] == p[|p| - 1];
    assert ReachesCycle(g, p[0]);
  }

  lemma CycleIsCircle(nodes: seq<Node>) returns (loop: seq<Node>)
    requires UniqueIds(nodes) && !Acyclic(GraphOf(nodes))
    ensures Circle(nodes, loop)
  {
    var g := GraphOf(nodes);
    var n :| n in g && ReachesCycle(g, n);
    var p, i, j :| ChainFrom(g, n, p) && 0 <= i < j < |p| && p[i] == p[j];
    loop := LoopOf(nodes, p, i, j);
  }

  lemma LoopOf(nodes: seq<Node>, p: seq<string>, i: nat, j: nat) returns (loop: seq<Node>)
    requires UniqueIds(nodes) && Chain(GraphOf(nodes), p) && i < j < |p| && p[i] == p[j]
    ensures Circle(nodes, loop)
  {
    var t := Table(nodes);
    loop := seq(j - i + 1, k requires 0 <= k < j - i + 1 => t[p[i + k]]);
    forall k | 0 <= k < |loop| - 1 ensures loop[k + 1].id in loop[k].dependsOn { LinkOf(nodes, p, i + k); }
  }

  lemma LinkOf(nodes: seq<Node>, p: seq<string>, k: nat)
    requires UniqueIds(nodes) && Chain(GraphOf(nodes), p) && k + 1 < |p|
    ensures var t := Table(nodes); p[k] in t && p[k + 1] in t && t[p[k + 1]].id in t[p[k]].dependsOn
  {
    var g, t := GraphOf(nodes), Table(nodes);
    assert p[k] in g && p[k + 1] in g[p[k]] && g[p[k]] == Deps(t[p[k]]);
  }

  lemma LinksAreOrderly(n: Node, nodes: seq<Node>)
    ensures SoundNode(n) && SoundLinks(n, IdsOf(nodes)) <==> Orderly(n, nodes)
  {
    forall d ensures d in IdsOf(nodes) <==> Named(nodes, d) {}
    if Orderly(n, nodes) {
      forall r <- References(n.payload) ensures SoundReference(n, IdsOf(nodes), r) {
        assert ReadsADependency(n, r);
      }
    }
    if SoundNode(n) && SoundLinks(n, IdsOf(nodes)) {
      forall r <- References(n.payload) ensures ReadsADependency(n, r) {
        assert SoundReference(n, IdsOf(nodes), r);
      }
    }
  }

  lemma ValidIsWellPlanned(nodes: seq<Node>, maxParallel: int)
    ensures Valid(nodes, maxParallel) <==> WellPlanned(nodes, maxParallel)
  {
    forall n <- nodes ensures SoundNode(n) && SoundLinks(n, IdsOf(nodes)) <==> Orderly(n, nodes) {
      LinksAreOrderly(n, nodes);
    }
    if Valid(nodes, maxParallel) {
      forall loop | Circle(nodes, loop) ensures false { CircleIsCycle(nodes, loop); }
    } else if WellPlanned(nodes, maxParallel) {
      assert AllSound(nodes) && AllLinked(nodes);
      var loop := CycleIsCircle(nodes);
    }
  }

  /** `t` is `s` without the white space around it. */
  ghost predicate TrimsTo(s: string, t: string) {
    && (t != [] ==> !Blank(t[0]) && !Blank(t[|t| - 1]))
    && exists a, b :: s == a + t + b && (forall c <- a + b :: Blank(c))
  }

  lemma StripTrims(s: string)
    ensures TrimsTo(s, Strip(s))
  {
    var rest := s[StripLeft(s)..];
    StripLeftStops(s);
    StripRightStops(rest);
    var a, b := s[..StripLeft(s)], rest[StripRight(rest)..];
    assert s == a + Strip(s) + b;
    forall c | c in a + b ensures Blank(c) {
      if c in a {
        var k :| 0 <= k < |a| && a[k] == c;
        assert Space(s[k]);
      } else {
        var k :| 0 <= k < |b| && b[k] == c;
        assert Space(rest[StripRight(rest) + k]);
      }
    }
  }

  lemma {:induction false} StripLeftStops(s: string)
    ensures StripLeft(s) < |s| ==> !Blank(s[StripLeft(s)])
  {
    if s != [] && Space(s[0]) { StripLeftStops(s[1..]); }
  }

  lemma {:induction false} StripRightStops(s: string)
    ensures StripRight(s) > 0 ==> !Blank(s[StripRight(s) - 1])
  {
    if s != [] && Space(s[|s| - 1]) { StripRightStops(s[..|s| - 1]); }
  }

  /** The node an entry of the packet describes: its names trimmed, one made up from its place
      when it brings none, and everything else as it came. */
  ghost predicate Describing(raw: RawNode, i: nat, n: Node) {
    && TrimsTo(if raw.id != "" then raw.id else "node-" + Digits(i), n.id)
    && TrimsTo(raw.kind, n.kind)
    && n.payload == raw.payload && n.dependsOn == raw.dependsOn && n.continueOnError == raw.continueOnError
  }

  lemma DescribedOneByOne(raw: seq<RawNode>)
    ensures forall i :: 0 <= i < |raw| ==> Describing(raw[i], i, NodesOf(raw)[i])
  {
    forall i | 0 <= i < |raw| ensures Describing(raw[i], i, NodesOf(raw)[i]) {
      StripTrims(if raw[i].id == "" then "node-" + Digits(i) else raw[i].id);
      StripTrims(raw[i].kind);
    }
  }

  /** `parse_workflow`. */
  method ParseWorkflow(raw: seq<RawNode>, maxParallel: int, failFast: bool) returns (r: Parsed)
    ensures r.Accepted? <==> Valid(NodesOf(raw), maxParallel)
    ensures r.Accepted? <==> WellPlanned(NodesOf(raw), maxParallel)
    ensures r.Accepted? ==> r.spec == Spec(NodesOf(raw), maxParallel, failFast)
    ensures forall i :: 0 <= i < |raw| ==> Describing(raw[i], i, NodesOf(raw)[i])
    ensures r.Rejected? ==> Justified(r.why, NodesOf(raw), maxParallel)
  {
    var nodes := NodesOf(raw);
    DescribedOneByOne(raw);
    ValidIsWellPlanned(nodes, maxParallel);
    var flaw := None;
    if nodes == [] {
      flaw := Some(NoNodes);
    } else if |nodes| > MAX_NODES {
      flaw := Some(TooManyNodes);
    } else {
      flaw := CheckNodes(nodes);
      if flaw.None? { flaw := CheckLinks(nodes); }
      if flaw.None? { flaw := CheckOrder(nodes); }
      if flaw.None? && maxParallel < 1 { flaw := Some(BadParallelism); }
    }
    if flaw.Some? {
      FlawsInvalidate(flaw.value, nodes, maxParallel);
      return Rejected(flaw.value);
    }
    r := Accepted(Spec(nodes, maxParallel, failFast));
  }

  /** The third pass: `topological_order` raises on a cycle. */
  method CheckOrder(nodes: seq<Node>) returns (flaw: Option<Rejection>)
    requires UniqueIds(nodes) && AllLinked(nodes)
    ensures flaw.None? <==> Acyclic(GraphOf(nodes))
    ensures flaw.Some? ==> flaw.value.Cycle? && Justified(flaw.value, nodes, 1)
  {
    LinksAreKnown(nodes);
    var order := TopologicalOrder(nodes);
    if order.CycleAmong? {
      StuckIsAFlaw(nodes, order.stuck);
      return Some(Cycle(order.stuck));
    }
    flaw := None;
  }
}
