/** Dependency graphs: what each node of a plan waits for, and the layered
    Kahn sort of `topological_order`. */
module Dag {

  /** Node id -> ids it depends on; the sort's starting value of `remaining`. */
  type Graph = map<string, set<string>>

  predicate KnownDeps(g: Graph, n: string)
    requires n in g
  {
    g[n] <= g.Keys
  }

  /** Every dependency names a node of the plan. */
  predicate Closed(g: Graph) {
    forall n {:trigger KnownDeps(g, n)} :: n in g ==> KnownDeps(g, n)
  }

  /** The nodes resolved after `k` rounds of the sort. */
  function Done(g: Graph, k: nat): set<string> {
    if k == 0 then {} else set n | n in g && g[n] <= Done(g, k - 1)
  }

  /** A dependency chain: each entry depends on the next. */
  ghost predicate Chain(g: Graph, p: seq<string>) {
    && (forall i :: 0 <= i < |p| ==> p[i] in g)
    && (forall i :: 0 <= i < |p| - 1 ==> p[i + 1] in g[p[i]])
  }

  ghost predicate ChainFrom(g: Graph, n: string, p: seq<string>) {
    Chain(g, p) && |p| > 0 && p[0] == n
  }

  /** A chain that meets some node twice, so a cycle is reachable from `n`. */
  ghost predicate ReachesCycle(g: Graph, n: string) {
    exists p, i, j :: ChainFrom(g, n, p) && 0 <= i < j < |p| && p[i] == p[j]
  }

  /** A chain whose end depends on a name that is no node. */
  ghost predicate ReachesUnknown(g: Graph, n: string) {
    exists p :: ChainFrom(g, n, p) && !KnownDeps(g, p[|p| - 1])
  }

  /** What the sort can never resolve. */
  ghost predicate Hopeless(g: Graph, n: string) { ReachesCycle(g, n) || ReachesUnknown(g, n) }

  ghost predicate Acyclic(g: Graph) {
    forall n {:trigger ReachesCycle(g, n)} :: n in g ==> !ReachesCycle(g, n)
  }

  /** Nodes in the longest dependency chain that starts at `n`. */
  ghost predicate LongestChain(g: Graph, n: string, k: nat) {
    && (exists p :: ChainFrom(g, n, p) && |p| == k)
    && (forall p :: ChainFrom(g, n, p) ==> |p| <= k)
  }

  lemma {:induction false} DoneGrows(g: Graph, k: nat, m: nat)
    requires k <= m
    ensures Done(g, k) <= Done(g, m) <= g.Keys
    decreases m
  {
    if k > 0 {
      DoneGrows(g, k - 1, m - 1);
    } else if m > 0 {
      DoneGrows(g, 0, m - 1);
    }
  }

  /** A chain of a node behind another is one of the other. */
  lemma ChainCons(g: Graph, n: string, d: string, q: seq<string>)
    requires n in g && d in g[n] && ChainFrom(g, d, q)
    ensures ChainFrom(g, n, [n] + q) && ([n] + q)[|[n] + q| - 1] == q[|q| - 1]
  {
  }

  lemma UnknownBehind(g: Graph, n: string, d: string)
    requires n in g && d in g[n] && d in g && ReachesUnknown(g, d)
    ensures ReachesUnknown(g, n)
  {
    var q :| ChainFrom(g, d, q) && !KnownDeps(g, q[|q| - 1]);
    ChainCons(g, n, d, q);
    var p := [n] + q;
    assert ChainFrom(g, n, p) && !KnownDeps(g, p[|p| - 1]);
  }

  /** A node resolves within `k` rounds exactly when no chain from it is longer than `k`
      and none ends at an unknown name. */
  lemma {:induction false} DoneIffShortChains(g: Graph, k: nat, n: string)
    requires n in g
    ensures n in Done(g, k) <==> !ReachesUnknown(g, n) && forall p :: ChainFrom(g, n, p) ==> |p| <= k
  {
    if n in Done(g, k) {
      DoneHasShortChains(g, k, n);
    } else {
      assert ChainFrom(g, n, [n]);
      if k > 0 {
        var d :| d in g[n] && d !in Done(g, k - 1);
        if d !in g {
          assert !KnownDeps(g, [n][|[n]| - 1]);
        } else {
          DoneIffShortChains(g, k - 1, d);
          if ReachesUnknown(g, d) {
            UnknownBehind(g, n, d);
          } else {
            var q :| ChainFrom(g, d, q) && |q| > k - 1;
            ChainCons(g, n, d, q);
          }
        }
      }
    }
  }

  lemma {:induction false} DoneHasShortChains(g: Graph, k: nat, n: string)
    requires n in Done(g, k)
    ensures !ReachesUnknown(g, n) && forall p :: ChainFrom(g, n, p) ==> |p| <= k
  {
    DoneGrows(g, k - 1, k - 1);
    assert KnownDeps(g, n);
    forall p | ChainFrom(g, n, p) ensures |p| <= k && KnownDeps(g, p[|p| - 1]) {
      if |p| > 1 {
        DoneHasShortChains(g, k - 1, p[1]);
        assert ChainFrom(g, p[1], p[1..]);
        assert p[1..][|p[1..]| - 1] == p[|p| - 1];
      }
    }
  }

  /** Pigeonhole: a repetition-free chain is no longer than the plan. */
  lemma {:induction false} DistinctFits(s: set<string>, p: seq<string>)
    requires forall i :: 0 <= i < |p| ==> p[i] in s
    requires forall i, j :: 0 <= i < j < |p| ==> p[i] != p[j]
    ensures |p| <= |s|
  {
    if p != [] {
      DistinctFits(s - {p[0]}, p[1..]);
    }
  }

  /** Walking round a reachable cycle gives chains of every length. */
  lemma CyclePumps(g: Graph, n: string, p: seq<string>, i: nat, j: nat, k: nat)
    returns (q: seq<string>)
    requires ChainFrom(g, n, p) && i < j < |p| && p[i] == p[j]
    ensures ChainFrom(g, n, q) && |q| > k
  {
    q := p;
    while |q| <= k
      invariant ChainFrom(g, n, q) && j < |q| && q[i] == q[j]
      decreases k + 1 - |q|
    {
      ghost var was := q;
      q := was[..j] + was[i..];
      forall m | 0 <= m < |q| - 1 ensures q[m + 1] in g[q[m]] {
        if m >= j { assert q[m] == was[i + (m - j)]; }
      }
    }
  }

  /** The sort gives up on exactly the nodes from which a cycle or an unknown name is
      reachable. */
  lemma StuckIffHopeless(g: Graph, k: nat, n: string)
    requires n in g && k >= |g|
    ensures n !in Done(g, k) <==> Hopeless(g, n)
  {
    DoneIffShortChains(g, k, n);
    if n !in Done(g, k) {
      if !ReachesUnknown(g, n) {
        var p :| ChainFrom(g, n, p) && |p| > k;
        assert |p| > |g.Keys|;
        if forall i, j :: 0 <= i < j < |p| ==> p[i] != p[j] {
          DistinctFits(g.Keys, p);
        }
      }
    } else if ReachesCycle(g, n) {
      var p, i, j :| ChainFrom(g, n, p) && 0 <= i < j < |p| && p[i] == p[j];
      var q := CyclePumps(g, n, p, i, j, k);
    }
  }

  /** Where every dependency is known, the sort gives up on what reaches a cycle. */
  lemma ClosedIsKnown(g: Graph, n: string)
    requires Closed(g) && n in g
    ensures Hopeless(g, n) <==> ReachesCycle(g, n)
  {
    forall p | ChainFrom(g, n, p) ensures KnownDeps(g, p[|p| - 1]) {}
  }

  /** Every node resolves exactly if every dependency is known and there is no cycle. */
  lemma AllDoneIff(g: Graph)
    ensures Closed(g) && Acyclic(g) <==> Done(g, |g|) == g.Keys
    ensures Closed(g) && Acyclic(g) <==> forall n <- g :: !Hopeless(g, n)
  {
    DoneGrows(g, 0, |g|);
    forall n <- g ensures n !in Done(g, |g|) <==> Hopeless(g, n) {
      StuckIffHopeless(g, |g|, n);
    }
    forall n <- g ensures !KnownDeps(g, n) ==> Hopeless(g, n) {
      assert ChainFrom(g, n, [n]);
      assert [n][|[n]| - 1] == n;
    }
    if Closed(g) && Acyclic(g) {
      forall n <- g ensures !Hopeless(g, n) { ClosedIsKnown(g, n); }
    }
    if forall n <- g :: !Hopeless(g, n) {
      assert Closed(g) && Acyclic(g);
    }
  }

  /** First round in which `n` is resolved (its depth in the plan). */
  function Height(g: Graph, n: string, k: nat): (h: nat)
    requires n in Done(g, k)
    ensures h <= k && h > 0 && n in Done(g, h) && n !in Done(g, h - 1)
  {
    if n in Done(g, k - 1) then Height(g, n, k - 1) else k
  }

  lemma {:induction false} HeightUnique(g: Graph, n: string, k: nat, h: nat)
    requires n in Done(g, k) && h > 0 && n in Done(g, h) && n !in Done(g, h - 1)
    ensures Height(g, n, k) == h
  {
    var x := Height(g, n, k);
    if x < h { DoneGrows(g, x, h - 1); } else if x > h { DoneGrows(g, h, x - 1); }
  }

  /** The round in which a node resolves is the length of its longest dependency chain. */
  lemma HeightIsLongestChain(g: Graph, n: string, k: nat)
    requires n in Done(g, k)
    ensures LongestChain(g, n, Height(g, n, k))
  {
    DoneGrows(g, k, k);
    var h := Height(g, n, k);
    DoneIffShortChains(g, h, n);
    DoneIffShortChains(g, h - 1, n);
    var p :| ChainFrom(g, n, p) && |p| > h - 1;
    assert |p| == h;
  }

  /** Dependencies resolve in strictly earlier rounds. */
  lemma HeightDrops(g: Graph, n: string, d: string, k: nat)
    requires n in Done(g, k) && d in g[n]
    ensures d in Done(g, k) && Height(g, d, k) < Height(g, n, k)
  {
    var h := Height(g, n, k);
    DoneGrows(g, h - 1, k);
    assert d in Done(g, h - 1);
    var hd := Height(g, d, h - 1);
    HeightUnique(g, d, k, hd);
  }
}
