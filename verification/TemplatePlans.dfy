/** A template's nodes rendered as one document: what validation accepts before the
    parameters are filled in, it accepts after, and the other way round. */
module TemplatePlans {
  import opened Payload
  import opened Plan
  import opened Templates

  function Names(ids: seq<string>): Members {
    if ids == [] then End else Member("", Atom(Text(ids[0])), Names(ids[1..]))
  }

  /** What stands behind the payload of a node. */
  function Links(r: RawNode): Members {
    Member("depends_on", List(Names(r.dependsOn)),
      Member("continue_on_error", Atom(Bool(r.continueOnError)), End))
  }

  function Shape(r: RawNode, k: string, l: string, m: string): Json {
    Dict(Member(k, Atom(Text(r.id)), Member(l, Atom(Text(r.kind)), Member(m, r.payload, Links(r)))))
  }

  /** A node as the template holds it. */
  function Document(r: RawNode): Json { Shape(r, "id", "kind", "payload") }

  function Documents(raw: seq<RawNode>): Members {
    if raw == [] then End else Member("", Document(raw[0]), Documents(raw[1..]))
  }

  /** No parameter is written outside the payload. */
  predicate PlainNames(r: RawNode) {
    DollarFree(r.id) && DollarFree(r.kind) && forall d <- r.dependsOn :: DollarFree(d)
  }

  ghost predicate Renderable(r: RawNode) { PlainNames(r) && r.payload.Dict? && AllWritten(r.payload) }

  ghost predicate AllRenderable(raw: seq<RawNode>) {
    forall i {:trigger raw[i]} :: 0 <= i < |raw| ==> Renderable(raw[i])
  }

  lemma PlainTextStays(s: string, params: Params, show: Show)
    requires DollarFree(s)
    ensures RenderString(s, params, show) == Atom(Text(s))
  {
    SkipRender(s, 0, |s|, params, show);
    assert s[0..|s|] == s && s + "" == s;
    var t := Strip(s);
    if t != "" {
      assert t[0] in s;
      PlainIsNoMatch(t, 0);
    }
  }

  /** An entry that stays as it is leaves the rendering to the entries behind it. */
  lemma StaysInFront(k: string, v: Json, rest: Members, params: Params, show: Show, depth: nat)
    requires SubstituteParams(v, params, show, depth) == Some(v)
    ensures Templates.SubstituteInside(Member(k, v, rest), params, show, depth)
      == match Templates.SubstituteInside(rest, params, show, depth)
         case None => None
         case Some(more) => Some(Member(k, v, more))
  {}

  lemma {:induction false} NamesStay(ids: seq<string>, params: Params, show: Show, depth: nat)
    requires depth <= MAX_RENDER_DEPTH && forall d <- ids :: DollarFree(d)
    ensures Templates.SubstituteInside(Names(ids), params, show, depth) == Some(Names(ids))
  {
    if ids != [] {
      PlainTextStays(ids[0], params, show);
      NamesStay(ids[1..], params, show, depth);
      StaysInFront("", Atom(Text(ids[0])), Names(ids[1..]), params, show, depth);
    }
  }

  lemma PayloadRenders(k: string, v: Json, rest: Members, params: Params, show: Show, depth: nat)
    requires Templates.SubstituteInside(rest, params, show, depth) == Some(rest)
    ensures Templates.SubstituteInside(Member(k, v, rest), params, show, depth)
      == match SubstituteParams(v, params, show, depth)
         case None => None
         case Some(p) => Some(Member(k, p, rest))
  {}

  /** Of the entries of a document only the third changes. */
  lemma ThirdRenders(k: string, v: Json, l: string, w: Json, m: string, x: Json, rest: Members,
                     params: Params, show: Show, depth: nat)
    requires depth <= MAX_RENDER_DEPTH
    requires SubstituteParams(v, params, show, depth + 1) == Some(v)
    requires SubstituteParams(w, params, show, depth + 1) == Some(w)
    requires Templates.SubstituteInside(rest, params, show, depth + 1) == Some(rest)
    ensures SubstituteParams(Dict(Member(k, v, Member(l, w, Member(m, x, rest)))), params, show, depth)
      == match SubstituteParams(x, params, show, depth + 1)
         case None => None
         case Some(y) => Some(Dict(Member(k, v, Member(l, w, Member(m, y, rest)))))
  {
    var body := Member(m, x, rest);
    PayloadRenders(m, x, rest, params, show, depth + 1);
    StaysInFront(l, w, body, params, show, depth + 1);
    StaysInFront(k, v, Member(l, w, body), params, show, depth + 1);
  }

  lemma LinksStay(r: RawNode, params: Params, show: Show, depth: nat)
    requires PlainNames(r) && depth + 1 <= MAX_RENDER_DEPTH
    ensures Templates.SubstituteInside(Links(r), params, show, depth) == Some(Links(r))
  {
    NamesStay(r.dependsOn, params, show, depth + 1);
    var flag := Atom(Bool(r.continueOnError));
    StaysInFront("continue_on_error", flag, End, params, show, depth);
    StaysInFront("depends_on", List(Names(r.dependsOn)), Member("continue_on_error", flag, End), params, show, depth);
  }

  /** A document of this shape, under whatever keys, is rendered in its payload alone. */
  lemma RenderedShape(r: RawNode, k: string, l: string, m: string, params: Params, show: Show, depth: nat)
    requires PlainNames(r) && depth + 2 <= MAX_RENDER_DEPTH
    ensures SubstituteParams(Shape(r, k, l, m), params, show, depth)
      == match SubstituteParams(r.payload, params, show, depth + 1)
         case None => None
         case Some(p) => Some(Shape(r.(payload := p), k, l, m))
  {
    PlainTextStays(r.id, params, show);
    PlainTextStays(r.kind, params, show);
    LinksStay(r, params, show, depth + 1);
    ThirdRenders(k, Atom(Text(r.id)), l, Atom(Text(r.kind)), m, r.payload, Links(r), params, show, depth);
  }

  /** Rendering a node renders its payload. */
  lemma RenderedDocument(r: RawNode, params: Params, show: Show, depth: nat)
    requires PlainNames(r) && depth + 2 <= MAX_RENDER_DEPTH
    ensures SubstituteParams(Document(r), params, show, depth)
      == match SubstituteParams(r.payload, params, show, depth + 1)
         case None => None
         case Some(p) => Some(Document(r.(payload := p)))
  {
    RenderedShape(r, "id", "kind", "payload", params, show, depth);
  }

  /** The nodes with their payloads filled in. */
  function RenderedNodes(raw: seq<RawNode>, params: Params, show: Show): Option<seq<RawNode>> {
    if raw == [] then Some([]) else
    match SubstituteParams(raw[0].payload, params, show, 2)
    case None => None
    case Some(p) =>
      match RenderedNodes(raw[1..], params, show)
      case None => None
      case Some(more) => Some([raw[0].(payload := p)] + more)
  }

  lemma {:induction false} RenderedDocuments(raw: seq<RawNode>, params: Params, show: Show)
    requires forall i :: 0 <= i < |raw| ==> PlainNames(raw[i])
    ensures Templates.SubstituteInside(Documents(raw), params, show, 1)
      == match RenderedNodes(raw, params, show)
         case None => None
         case Some(out) => Some(Documents(out))
  {
    if raw != [] {
      RenderedDocument(raw[0], params, show, 1);
      RenderedDocuments(raw[1..], params, show);
    }
  }

  /** Alike for validation: the same names and links, and the same references read. */
  predicate Alike(a: Node, b: Node) {
    && a.id == b.id && a.kind == b.kind && a.dependsOn == b.dependsOn
    && a.payload.Dict? && b.payload.Dict? && References(a.payload) == References(b.payload)
  }

  lemma RenderedNodeIsAlike(r: RawNode, index: nat, params: Params, show: Show)
    requires Renderable(r) && Harmless(params, show) && SubstituteParams(r.payload, params, show, 2).Some?
    ensures var p := SubstituteParams(r.payload, params, show, 2).value;
      Alike(NodeOf(r, index), NodeOf(r.(payload := p), index))
  {
    RenderingKeepsReferences(r.payload, params, show, 2);
  }

  lemma {:induction false} RenderedNodesMatch(raw: seq<RawNode>, params: Params, show: Show, i: nat)
    requires RenderedNodes(raw, params, show).Some?
    ensures var out := RenderedNodes(raw, params, show).value;
      && |out| == |raw|
      && (i < |raw| ==>
        && SubstituteParams(raw[i].payload, params, show, 2).Some?
        && out[i] == raw[i].(payload := SubstituteParams(raw[i].payload, params, show, 2).value))
  {
    if raw != [] { RenderedNodesMatch(raw[1..], params, show, if i > 0 then i - 1 else 0); }
  }

  ghost predicate AllAlike(a: seq<Node>, b: seq<Node>) {
    |a| == |b| && forall i {:trigger a[i]} {:trigger b[i]} :: 0 <= i < |a| ==> Alike(a[i], b[i])
  }

  lemma AlikeNames(a: seq<Node>, b: seq<Node>)
    requires AllAlike(a, b)
    ensures IdsOf(a) == IdsOf(b) && (UniqueIds(a) ==> UniqueIds(b))
  {
    forall id <- IdsOf(a) ensures id in IdsOf(b) { var i :| 0 <= i < |a| && a[i].id == id; assert b[i] in b; }
    forall id <- IdsOf(b) ensures id in IdsOf(a) { var i :| 0 <= i < |b| && b[i].id == id; assert a[i] in a; }
  }

  lemma GraphAt(nodes: seq<Node>, i: nat)
    requires UniqueIds(nodes) && i < |nodes|
    ensures nodes[i].id in GraphOf(nodes) && GraphOf(nodes)[nodes[i].id] == Deps(nodes[i])
  {
    assert nodes[i] in nodes;
  }

  lemma AlikeGraphs(a: seq<Node>, b: seq<Node>)
    requires AllAlike(a, b) && UniqueIds(a) && UniqueIds(b) && IdsOf(a) == IdsOf(b)
    ensures GraphOf(a) == GraphOf(b)
  {
    assert GraphOf(a).Keys == IdsOf(a) && GraphOf(b).Keys == IdsOf(b);
    forall id <- GraphOf(a) ensures GraphOf(a)[id] == GraphOf(b)[id] {
      var i :| 0 <= i < |a| && a[i].id == id;
      GraphAt(a, i);
      GraphAt(b, i);
    }
  }

  lemma AlikeIsValid(a: seq<Node>, b: seq<Node>, maxParallel: int)
    requires AllAlike(a, b) && Valid(a, maxParallel)
    ensures Valid(b, maxParallel)
  {
    AlikeNames(a, b);
    AlikeGraphs(a, b);
    forall n | n in b ensures SoundNode(n) && SoundLinks(n, IdsOf(b)) {
      var i :| 0 <= i < |b| && b[i] == n;
      assert a[i] in a && SoundNode(a[i]) && SoundLinks(a[i], IdsOf(a));
    }
  }

  lemma RenderedAreAlike(raw: seq<RawNode>, out: seq<RawNode>, params: Params, show: Show)
    requires AllRenderable(raw) && Harmless(params, show) && RenderedNodes(raw, params, show) == Some(out)
    ensures AllAlike(NodesOf(raw), NodesOf(out))
  {
    RenderedNodesMatch(raw, params, show, 0);
    forall i | 0 <= i < |raw| ensures Alike(NodeOf(raw[i], i), NodeOf(out[i], i)) {
      RenderedNodesMatch(raw, params, show, i);
      RenderedNodeIsAlike(raw[i], i, params, show);
    }
  }

  lemma AlikeIsSymmetric(a: seq<Node>, b: seq<Node>)
    requires AllAlike(a, b)
    ensures AllAlike(b, a)
  {}

  /** Validation and rendering commute: a template whose parameters stand in its payloads, filled
      in with values without `$`, is a valid plan after rendering iff it is one before. */
  lemma ValidationSurvivesRendering(raw: seq<RawNode>, maxParallel: int, params: Params, show: Show)
    requires AllRenderable(raw) && Harmless(params, show)
    ensures
      match SubstituteParams(List(Documents(raw)), params, show, 0)
      case None => true
      case Some(v) => exists out: seq<RawNode> ::
        v == List(Documents(out)) && (Valid(NodesOf(out), maxParallel) <==> Valid(NodesOf(raw), maxParallel))
  {
    RenderedDocuments(raw, params, show);
    var rendered := RenderedNodes(raw, params, show);
    if rendered.Some? {
      var a, b := NodesOf(raw), NodesOf(rendered.value);
      RenderedAreAlike(raw, rendered.value, params, show);
      AlikeIsSymmetric(a, b);
      if Valid(a, maxParallel) { AlikeIsValid(a, b, maxParallel); }
      if Valid(b, maxParallel) { AlikeIsValid(b, a, maxParallel); }
    }
  }
}
