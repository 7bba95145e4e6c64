/** Workflow templates: parameters written `${name}` are filled in before the workflow is
    validated, and references written `${nodes.<id>.<field>}` must come through. */
module Templates {
  import opened Payload
  import Replace

  const MAX_RENDER_DEPTH := 20

  type Params = map<string, Json>

  /** How a value prints inside a longer string. */
  type Show = Json -> string

  predicate NameStart(c: char) { FieldChar(c) && !('0' <= c <= '9') }

  /** Letters, digits and underscores, and no digit first. */
  predicate ParamName(n: string) {
    && n != "" && !('0' <= n[0] <= '9')
    && forall k :: 0 <= k < |n| ==>
         'a' <= n[k] <= 'z' || 'A' <= n[k] <= 'Z' || '0' <= n[k] <= '9' || n[k] == '_'
  }

  datatype ParamMatch = NoParam | Param(name: string, end: nat)

  /** The parameter pattern tried at one position. */
  function ParamAt(s: string, i: nat): (m: ParamMatch)
    requires i <= |s|
    ensures m.Param? ==> i < m.end <= |s|
  {
    var a := i + 2;
    if a > |s| || s[i..a] != "${" then NoParam else
    var b := RunEnd(s, a, false);
    if b == a || !NameStart(s[a]) || b == |s| || s[b] != '}' then NoParam else Param(s[a..b], b + 1)
  }

  /** Every match whose name is a parameter replaced, the rest kept. */
  function RenderText(s: string, i: nat, params: Params, show: Show): string
    requires i <= |s|
    decreases |s| - i
  {
    if i == |s| then "" else
    match ParamAt(s, i)
    case NoParam => [s[i]] + RenderText(s, i + 1, params, show)
    case Param(n, e) =>
      (if n in params then show(params[n]) else s[i..e]) + RenderText(s, e, params, show)
  }

  /** The parameter a whole string amounts to, if it is one. */
  function WholeParam(s: string): Option<string> {
    var t := Strip(s);
    match ParamAt(t, 0)
    case NoParam => None
    case Param(n, e) => if e == |t| then Some(n) else None
  }

  function RenderString(s: string, params: Params, show: Show): Json {
    match WholeParam(s)
    case Some(n) => if n in params then params[n] else Atom(Text(RenderText(s, 0, params, show)))
    case None => Atom(Text(RenderText(s, 0, params, show)))
  }

  /** `substitute_params`; nothing when the nesting is too deep. */
  function SubstituteParams(v: Json, params: Params, show: Show, depth: nat): Option<Json> {
    if depth > MAX_RENDER_DEPTH then None else
    match v
    case Atom(Text(s)) => Some(RenderString(s, params, show))
    case Atom(_) => Some(v)
    case List(items) =>
      (match SubstituteInside(items, params, show, depth + 1) case None => None case Some(m) => Some(List(m)))
    case Dict(entries) =>
      (match SubstituteInside(entries, params, show, depth + 1) case None => None case Some(m) => Some(Dict(m)))
  }

  function SubstituteInside(m: Members, params: Params, show: Show, depth: nat): Option<Members> {
    match m
    case End => Some(End)
    case Member(k, v, rest) =>
      match SubstituteParams(v, params, show, depth)
      case None => None
      case Some(w) =>
        match SubstituteInside(rest, params, show, depth)
        case None => None
        case Some(more) => Some(Member(k, w, more))
  }

  // ---- texts in which `$` only begins a reference -----------------------------------

  datatype Token = Plain(c: char) | NodeRef(ref: Ref) | ParamRef(name: string)

  predicate GoodToken(t: Token) {
    match t
    case Plain(c) => c != '$'
    case NodeRef(r) => WellNamed(r)
    case ParamRef(n) => ParamName(n)
  }

  predicate Good(ts: seq<Token>) { forall t <- ts :: GoodToken(t) }

  function Spelling(t: Token): string {
    match t
    case Plain(c) => [c]
    case NodeRef(r) => OPENING + r.id + "." + r.field + "}"
    case ParamRef(n) => "${" + n + "}"
  }

  function TextOf(ts: seq<Token>): string {
    if ts == [] then "" else Spelling(ts[0]) + TextOf(ts[1..])
  }

  function NodeRefs(ts: seq<Token>): seq<Ref> {
    if ts == [] then [] else (if ts[0].NodeRef? then [ts[0].ref] else []) + NodeRefs(ts[1..])
  }

  function Plains(s: string): seq<Token> { seq(|s|, i requires 0 <= i < |s| => Plain(s[i])) }

  predicate DollarFree(s: string) { '$' !in s }

  /** What a token becomes: a known parameter, the characters of its value. */
  function RenderedToken(t: Token, params: Params, show: Show): seq<Token> {
    if t.ParamRef? && t.name in params then Plains(show(params[t.name])) else [t]
  }

  /** The tokens after rendering. */
  function RenderTokens(ts: seq<Token>, params: Params, show: Show): seq<Token> {
    if ts == [] then [] else RenderedToken(ts[0], params, show) + RenderTokens(ts[1..], params, show)
  }

  lemma TokensCons(t: Token, ts: seq<Token>)
    ensures TextOf([t] + ts) == Spelling(t) + TextOf(ts)
    ensures NodeRefs([t] + ts) == (if t.NodeRef? then [t.ref] else []) + NodeRefs(ts)
  {
    assert ([t] + ts)[1..] == ts;
  }

  lemma PlainsCons(s: string, rest: seq<Token>)
    requires s != ""
    ensures Plains(s) + rest == [Plain(s[0])] + (Plains(s[1..]) + rest)
  {
  }

  lemma {:induction false} PlainsRead(s: string, rest: seq<Token>)
    ensures TextOf(Plains(s) + rest) == s + TextOf(rest)
    ensures NodeRefs(Plains(s) + rest) == NodeRefs(rest)
    decreases |s|
  {
    if s == "" {
      assert Plains(s) + rest == rest;
    } else {
      PlainsRead(s[1..], rest);
      PlainsCons(s, rest);
      TokensCons(Plain(s[0]), Plains(s[1..]) + rest);
      Replace.Regroup([s[0]], s[1..], TextOf(rest));
      assert [s[0]] + s[1..] == s;
    }
  }

  // ---- one token at a position ------------------------------------------------------

  lemma PlainIsNoMatch(s: string, i: nat)
    requires i < |s| && s[i] != '$'
    ensures MatchAt(s, i).NoMatch? && ParamAt(s, i).NoParam?
  {
    assert i + |OPENING| <= |s| ==> s[i..i + |OPENING|][0] == s[i];
    assert i + 2 <= |s| ==> s[i..i + 2][0] == s[i];
  }

  /** The characters of a slice, and a slice of it. */
  lemma SliceAt(s: string, i: nat, w: string)
    requires i + |w| <= |s| && s[i..i + |w|] == w
    ensures forall k :: 0 <= k < |w| ==> s[i + k] == w[k]
  {
    forall k | 0 <= k < |w| ensures s[i + k] == w[k] { assert s[i..i + |w|][k] == w[k]; }
  }

  lemma SliceOfSlice(s: string, i: nat, w: string, a: nat, b: nat)
    requires i + |w| <= |s| && s[i..i + |w|] == w && a <= b <= |w|
    ensures s[i + a..i + b] == w[a..b]
  {
    SliceAt(s, i, w);
    assert |s[i + a..i + b]| == b - a;
    forall k | 0 <= k < b - a ensures s[i + a..i + b][k] == w[a..b][k] { assert s[i + (a + k)] == w[a + k]; }
  }

  lemma ParamParts(n: string)
    ensures var w := Spelling(ParamRef(n));
      |w| == |n| + 3 && w[..2] == "${" && w[2..|n| + 2] == n && w[|n| + 2] == '}'
  {
  }

  lemma ParamIsSeen(s: string, i: nat, n: string)
    requires ParamName(n) && i + |n| + 3 <= |s| && s[i..i + |n| + 3] == Spelling(ParamRef(n))
    ensures ParamAt(s, i) == Param(n, i + |n| + 3)
  {
    var w := Spelling(ParamRef(n));
    ParamParts(n);
    SliceAt(s, i, w);
    SliceOfSlice(s, i, w, 0, 2);
    SliceOfSlice(s, i, w, 2, |n| + 2);
    assert s[i + (|n| + 2)] == '}';
    RunEndAt(s, i + 2, n, false);
    assert n[0] == s[i + 2..i + 2 + |n|][0];
  }

  /** A parameter reference is not a node reference: its name ends before the dot of one
      could come. */
  lemma ParamIsNoNode(s: string, i: nat, n: string)
    requires ParamName(n) && i + |n| + 3 <= |s| && s[i..i + |n| + 3] == "${" + n + "}"
    ensures MatchAt(s, i).NoMatch?
    ensures ParamAt(s, i) == Param(n, i + |n| + 3)
    ensures forall k :: i < k < i + |n| + 3 ==> s[k] != '$'
  {
    ParamIsSeen(s, i, n);
    ParamLetters(s, i, n);
    var a := i + |OPENING|;
    if a <= |s| && s[i..a] == OPENING {
      SliceAt(s, i, OPENING);
      var k := if |n| < 6 then |n| + 2 else 7;
      OpeningLetter(k);
    }
  }

  lemma OpeningLetter(k: nat)
    requires 2 <= k < 8
    ensures OPENING[k] != '}' && (k == 7 ==> OPENING[k] == '.')
  {
    assert OPENING[2..] == "nodes.";
    assert OPENING[k] == "nodes."[k - 2];
  }

  lemma ParamLetters(s: string, i: nat, n: string)
    requires ParamName(n) && i + |n| + 3 <= |s| && s[i..i + |n| + 3] == Spelling(ParamRef(n))
    ensures s[i + (|n| + 2)] == '}' && s[i + 1] == '{'
    ensures forall k :: i + 2 <= k < i + |n| + 2 ==> FieldChar(s[k])
  {
    var w := Spelling(ParamRef(n));
    ParamParts(n);
    SliceAt(s, i, w);
    assert w[1] == w[..2][1];
    SliceOfSlice(s, i, w, 2, |n| + 2);
    SliceAt(s, i + 2, n);
    forall k | i + 2 <= k < i + |n| + 2 ensures FieldChar(s[k]) { assert s[i + 2 + (k - i - 2)] == n[k - i - 2]; }
  }

  lemma NodeParts(r: Ref)
    ensures var w, b := Spelling(NodeRef(r)), |OPENING| + |r.id|;
      && |w| == b + |r.field| + 2
      && w[..|OPENING|] == OPENING && w[|OPENING|..b] == r.id && w[b] == '.'
      && w[b + 1..|w| - 1] == r.field && w[|w| - 1] == '}'
  {
  }

  lemma NodeIsSpelled(s: string, i: nat, r: Ref)
    requires WellNamed(r) && i + |Spelling(NodeRef(r))| <= |s|
    requires s[i..i + |Spelling(NodeRef(r))|] == Spelling(NodeRef(r))
    ensures Spells(s, i, r, i + |Spelling(NodeRef(r))|)
  {
    var w, b := Spelling(NodeRef(r)), |OPENING| + |r.id|;
    NodeParts(r);
    SliceAt(s, i, w);
    SliceOfSlice(s, i, w, 0, |OPENING|);
    SliceOfSlice(s, i, w, |OPENING|, b);
    SliceOfSlice(s, i, w, b + 1, |w| - 1);
    assert s[i + b] == '.' && s[i + (|w| - 1)] == '}';
  }

  /** A node reference is not a parameter reference: a dot follows its first word. */
  lemma NodeIsNoParam(s: string, i: nat, r: Ref)
    requires WellNamed(r) && i + |Spelling(NodeRef(r))| <= |s|
    requires s[i..i + |Spelling(NodeRef(r))|] == Spelling(NodeRef(r))
    ensures Spells(s, i, r, i + |Spelling(NodeRef(r))|)
    ensures ParamAt(s, i).NoParam?
    ensures forall k :: i < k < i + |Spelling(NodeRef(r))| ==> s[k] != '$'
  {
    var e := i + |Spelling(NodeRef(r))|;
    NodeIsSpelled(s, i, r);
    OpeningIsNoParam(s, i);
    SpelledHasOneDollar(s, i, r, e);
  }

  lemma OpeningIsNoParam(s: string, i: nat)
    requires i + |OPENING| <= |s| && s[i..i + |OPENING|] == OPENING
    ensures ParamAt(s, i).NoParam?
  {
    SliceAt(s, i, OPENING);
    SliceOfSlice(s, i, OPENING, 2, 7);
    assert OPENING[2..7] == "nodes" && s[i + 7] == '.';
    RunEndAt(s, i + 2, "nodes", false);
  }

  lemma SpelledHasOneDollar(s: string, i: nat, r: Ref, e: nat)
    requires Spells(s, i, r, e)
    ensures forall k :: i < k < e ==> s[k] != '$'
  {
    var b := i + |OPENING| + |r.id|;
    SliceAt(s, i, OPENING);
    SliceAt(s, i + |OPENING|, r.id);
    SliceAt(s, b + 1, r.field);
    forall k | i < k < e ensures s[k] != '$' {
      if k < i + |OPENING| {
        assert s[i + (k - i)] == OPENING[k - i];
      } else if k < b {
        assert s[i + |OPENING| + (k - i - |OPENING|)] == r.id[k - i - |OPENING|];
      } else if b < k < e - 1 {
        assert s[b + 1 + (k - b - 1)] == r.field[k - b - 1];
      }
    }
  }

  lemma NoParamStep(s: string, i: nat, params: Params, show: Show)
    requires i < |s| && ParamAt(s, i).NoParam?
    ensures RenderText(s, i, params, show) == [s[i]] + RenderText(s, i + 1, params, show)
  {}

  lemma SliceStep(s: string, i: nat, j: nat)
    requires i < j <= |s|
    ensures s[i..j] == [s[i]] + s[i + 1..j]
  {}

  lemma {:induction false} SkipRender(s: string, i: nat, j: nat, params: Params, show: Show)
    requires i <= j <= |s|
    requires forall k :: i <= k < j ==> s[k] != '$'
    ensures RenderText(s, i, params, show) == s[i..j] + RenderText(s, j, params, show)
    decreases j - i
  {
    var rest := RenderText(s, j, params, show);
    if i < j {
      PlainIsNoMatch(s, i);
      NoParamStep(s, i, params, show);
      SkipRender(s, i + 1, j, params, show);
      SliceStep(s, i, j);
      Replace.Regroup([s[i]], s[i + 1..j], rest);
    } else {
      assert s[i..j] == "" && "" + rest == rest;
    }
  }

  // ---- whole texts ------------------------------------------------------------------

  lemma NodeFound(s: string, i: nat, r: Ref, e: nat)
    requires WellNamed(r) && e == i + |Spelling(NodeRef(r))| <= |s| && s[i..e] == Spelling(NodeRef(r))
    ensures Holes(Pieces(s, i)) == [r] + Holes(Pieces(s, e))
  {
    NodeIsNoParam(s, i, r);
    SpelledIsMatched(s, i, r, e);
    assert Pieces(s, i) == [Hole(r)] + Pieces(s, e);
  }

  lemma ParamNotFound(s: string, i: nat, n: string, e: nat)
    requires ParamName(n) && e == i + |Spelling(ParamRef(n))| <= |s| && s[i..e] == Spelling(ParamRef(n))
    ensures Holes(Pieces(s, i)) == Holes(Pieces(s, e))
  {
    ParamIsNoNode(s, i, n);
    assert Pieces(s, i) == [Lit(s[i])] + Pieces(s, i + 1);
    SkipPlain(s, i + 1, e);
  }

  lemma FoundStep(s: string, i: nat, t: Token, e: nat)
    requires GoodToken(t) && e == i + |Spelling(t)| <= |s| && s[i..e] == Spelling(t)
    ensures Holes(Pieces(s, i)) == (if t.NodeRef? then [t.ref] else []) + Holes(Pieces(s, e))
  {
    if t.NodeRef? {
      NodeFound(s, i, t.ref, e);
    } else {
      if t.Plain? { PlainNotFound(s, i, t.c); } else { ParamNotFound(s, i, t.name, e); }
      assert [] + Holes(Pieces(s, e)) == Holes(Pieces(s, e));
    }
  }

  lemma PlainNotFound(s: string, i: nat, c: char)
    requires c != '$' && i < |s| && s[i..i + 1] == [c]
    ensures Holes(Pieces(s, i)) == Holes(Pieces(s, i + 1))
  {
    assert s[i] == s[i..i + 1][0];
    SkipPlain(s, i, i + 1);
  }

  /** The pattern finds exactly the node references that were written. */
  lemma {:induction false} TokensAreFound(s: string, i: nat, ts: seq<Token>)
    requires i <= |s| && s[i..] == TextOf(ts) && Good(ts)
    ensures Holes(Pieces(s, i)) == NodeRefs(ts)
    decreases |ts|
  {
    if ts != [] {
      var e := NextToken(s, i, ts);
      FoundStep(s, i, ts[0], e);
      TokensAreFound(s, e, ts[1..]);
    }
  }

  lemma TakeAndDrop(s: string, i: nat, w: string, rest: string)
    requires i <= |s| && s[i..] == w + rest
    ensures i + |w| <= |s| && s[i..i + |w|] == w && s[i + |w|..] == rest
  {
    assert s[i..][..|w|] == w && s[i..][|w|..] == rest;
  }

  lemma NextToken(s: string, i: nat, ts: seq<Token>) returns (e: nat)
    requires i <= |s| && s[i..] == TextOf(ts) && ts != []
    ensures e == i + |Spelling(ts[0])| <= |s| && s[i..e] == Spelling(ts[0]) && s[e..] == TextOf(ts[1..])
  {
    TakeAndDrop(s, i, Spelling(ts[0]), TextOf(ts[1..]));
    e := i + |Spelling(ts[0])|;
  }

  /** A `$` that begins no parameter is kept, with all up to the next one. */
  lemma DollarKept(s: string, i: nat, e: nat, params: Params, show: Show)
    requires i < e <= |s| && ParamAt(s, i).NoParam? && forall k :: i < k < e ==> s[k] != '$'
    ensures RenderText(s, i, params, show) == s[i..e] + RenderText(s, e, params, show)
  {
    var first, more, rest := [s[i]], s[i + 1..e], RenderText(s, e, params, show);
    NoParamStep(s, i, params, show);
    SkipRender(s, i + 1, e, params, show);
    SliceStep(s, i, e);
    Replace.Regroup(first, more, rest);
  }

  lemma NodeKept(s: string, i: nat, r: Ref, e: nat, params: Params, show: Show)
    requires WellNamed(r) && e == i + |Spelling(NodeRef(r))| <= |s| && s[i..e] == Spelling(NodeRef(r))
    ensures RenderText(s, i, params, show) == Spelling(NodeRef(r)) + RenderText(s, e, params, show)
  {
    NodeIsNoParam(s, i, r);
    DollarKept(s, i, e, params, show);
  }

  lemma PlainKept(s: string, i: nat, c: char, params: Params, show: Show)
    requires c != '$' && i < |s| && s[i..i + 1] == [c]
    ensures RenderText(s, i, params, show) == [c] + RenderText(s, i + 1, params, show)
  {
    assert s[i] == s[i..i + 1][0];
    PlainIsNoMatch(s, i);
    NoParamStep(s, i, params, show);
  }

  /** A token that is no parameter is kept. */
  lemma KeptStep(s: string, i: nat, t: Token, e: nat, params: Params, show: Show)
    requires GoodToken(t) && e == i + |Spelling(t)| <= |s| && s[i..e] == Spelling(t) && !t.ParamRef?
    ensures RenderText(s, i, params, show) == Spelling(t) + RenderText(s, e, params, show)
  {
    if t.NodeRef? { NodeKept(s, i, t.ref, e, params, show); } else { PlainKept(s, i, t.c, params, show); }
  }

  /** What stands for a token in the rendered text. */
  function RenderedSpelling(t: Token, params: Params, show: Show): string {
    if t.ParamRef? && t.name in params then show(params[t.name]) else Spelling(t)
  }

  lemma MatchStep(s: string, i: nat, n: string, e: nat, params: Params, show: Show)
    requires i < e <= |s| && ParamAt(s, i) == Param(n, e)
    ensures RenderText(s, i, params, show)
      == (if n in params then show(params[n]) else s[i..e]) + RenderText(s, e, params, show)
  {}

  lemma ParamStep(s: string, i: nat, n: string, e: nat, params: Params, show: Show)
    requires ParamName(n) && e == i + |Spelling(ParamRef(n))| <= |s| && s[i..e] == Spelling(ParamRef(n))
    ensures RenderText(s, i, params, show)
      == RenderedSpelling(ParamRef(n), params, show) + RenderText(s, e, params, show)
  {
    ParamParts(n);
    ParamIsSeen(s, i, n);
    MatchStep(s, i, n, e, params, show);
  }

  lemma RenderStep(s: string, i: nat, t: Token, e: nat, params: Params, show: Show)
    requires GoodToken(t) && e == i + |Spelling(t)| <= |s| && s[i..e] == Spelling(t)
    ensures RenderText(s, i, params, show) == RenderedSpelling(t, params, show) + RenderText(s, e, params, show)
  {
    if t.ParamRef? { ParamStep(s, i, t.name, e, params, show); } else { KeptStep(s, i, t, e, params, show); }
  }

  lemma RenderedTokenReads(t: Token, rest: seq<Token>, params: Params, show: Show)
    ensures TextOf(RenderedToken(t, params, show) + rest)
      == RenderedSpelling(t, params, show) + TextOf(rest)
    ensures NodeRefs(RenderedToken(t, params, show) + rest) == (if t.NodeRef? then [t.ref] else []) + NodeRefs(rest)
  {
    if t.ParamRef? && t.name in params {
      PlainsRead(show(params[t.name]), rest);
    } else {
      TokensCons(t, rest);
    }
  }

  /** Rendering replaces exactly the parameter references that were written. */
  lemma {:induction false} TokensAreRendered(s: string, i: nat, ts: seq<Token>, params: Params, show: Show)
    requires i <= |s| && s[i..] == TextOf(ts) && Good(ts)
    ensures RenderText(s, i, params, show) == TextOf(RenderTokens(ts, params, show))
    ensures NodeRefs(RenderTokens(ts, params, show)) == NodeRefs(ts)
    decreases |ts|
  {
    if ts != [] {
      var e := NextToken(s, i, ts);
      RenderStep(s, i, ts[0], e, params, show);
      TokensAreRendered(s, e, ts[1..], params, show);
      RenderedTokenReads(ts[0], RenderTokens(ts[1..], params, show), params, show);
    }
  }

  /** Every value prints without `$`. */
  ghost predicate Harmless(params: Params, show: Show) {
    forall n :: n in params ==> DollarFree(show(params[n])) && NoDollars(params[n])
  }

  lemma {:induction false} RenderedIsGood(ts: seq<Token>, params: Params, show: Show)
    requires Good(ts) && Harmless(params, show)
    ensures Good(RenderTokens(ts, params, show))
    ensures forall t <- RenderTokens(ts, params, show) :: t.ParamRef? ==> t.name !in params
    decreases |ts|
  {
    if ts != [] {
      assert GoodToken(ts[0]);
      RenderedIsGood(ts[1..], params, show);
    }
  }

  /** A text whose `$` all begin references. */
  ghost predicate Written(s: string) { exists ts :: Good(ts) && s == TextOf(ts) }

  predicate NoDollars(v: Json)
  {
    match v
    case Atom(Text(s)) => DollarFree(s)
    case Atom(_) => true
    case List(items) => NoDollarsInside(items)
    case Dict(entries) => NoDollarsInside(entries)
  }

  predicate NoDollarsInside(m: Members) { m.Member? ==> NoDollars(m.value) && NoDollarsInside(m.rest) }

  ghost predicate AllWritten(v: Json) {
    match v
    case Atom(Text(s)) => Written(s)
    case Atom(_) => true
    case List(items) => AllWrittenInside(items)
    case Dict(entries) => AllWrittenInside(entries)
  }

  ghost predicate AllWrittenInside(m: Members) { m.Member? ==> AllWritten(m.value) && AllWrittenInside(m.rest) }

  lemma {:induction false} NoDollarsNoReferences(v: Json)
    requires NoDollars(v)
    ensures References(v) == []
  {
    match v
    case Atom(Text(s)) => SkipPlain(s, 0, |s|);
    case Atom(_) =>
    case List(items) => NoDollarsInsideNoReferences(items);
    case Dict(entries) => NoDollarsInsideNoReferences(entries);
  }

  lemma {:induction false} NoDollarsInsideNoReferences(m: Members)
    requires NoDollarsInside(m)
    ensures ReferencesInside(m) == []
  {
    if m.Member? {
      NoDollarsNoReferences(m.value);
      NoDollarsInsideNoReferences(m.rest);
    }
  }

  /** The inside of a text that is one parameter reference up to whitespace. */
  lemma WholeParamHasNoNodes(s: string)
    requires WholeParam(s).Some?
    ensures Holes(Pieces(s, 0)) == []
  {
    var lead := StripLeft(s);
    var tail := lead + StripRight(s[lead..]);
    var t := Strip(s);
    var n := WholeParam(s).value;
    assert s[lead..tail] == t;
    ParamIsSpelled(t);
    ParamIsNoNode(s, lead, n);
    SkipPlain(s, 0, lead);
    assert Pieces(s, lead)[1..] == Pieces(s, lead + 1);
    OnlySpaceBehind(s);
    SkipPlain(s, lead + 1, |s|);
  }

  lemma ParamIsSpelled(t: string)
    requires ParamAt(t, 0).Param? && ParamAt(t, 0).end == |t|
    ensures var n := ParamAt(t, 0).name; ParamName(n) && t == "${" + n + "}"
  {
    var n := ParamAt(t, 0).name;
    var b := RunEnd(t, 2, false);
    assert n == t[2..b] && |t| == b + 1;
    assert forall k :: 0 <= k < |n| ==> n[k] == t[k + 2];
    assert t == t[0..2] + t[2..b] + t[b..];
  }

  lemma StringKeepsReferences(s: string, params: Params, show: Show)
    requires Written(s) && Harmless(params, show)
    ensures References(RenderString(s, params, show)) == References(Atom(Text(s)))
  {
    var w := WholeParam(s);
    if w.Some? && w.value in params {
      WholeParamHasNoNodes(s);
      NoDollarsNoReferences(params[w.value]);
    } else {
      var ts :| Good(ts) && s == TextOf(ts);
      var us := RenderTokens(ts, params, show);
      assert s[0..] == s;
      TokensAreRendered(s, 0, ts, params, show);
      TokensAreFound(s, 0, ts);
      RenderedIsGood(ts, params, show);
      var out := RenderText(s, 0, params, show);
      assert out[0..] == out;
      TokensAreFound(out, 0, us);
    }
  }

  /** Filling in values without `$` changes no node reference, anywhere in a payload: what
      validation sees after rendering is what the template wrote. */
  lemma {:induction false} RenderingKeepsReferences(v: Json, params: Params, show: Show, depth: nat)
    requires AllWritten(v) && Harmless(params, show)
    ensures var w := SubstituteParams(v, params, show, depth);
      w.Some? ==> References(w.value) == References(v)
  {
    if depth <= MAX_RENDER_DEPTH {
      match v
      case Atom(Text(s)) => StringKeepsReferences(s, params, show);
      case Atom(_) =>
      case List(items) => RenderingInsideKeepsReferences(items, params, show, depth + 1);
      case Dict(entries) => RenderingInsideKeepsReferences(entries, params, show, depth + 1);
    }
  }

  lemma {:induction false} RenderingInsideKeepsReferences(m: Members, params: Params, show: Show, depth: nat)
    requires AllWrittenInside(m) && Harmless(params, show)
    ensures var w := SubstituteInside(m, params, show, depth);
      w.Some? ==> ReferencesInside(w.value) == ReferencesInside(m)
  {
    if m.Member? {
      RenderingKeepsReferences(m.value, params, show, depth);
      RenderingInsideKeepsReferences(m.rest, params, show, depth);
    }
  }

  lemma ParamIsWhole(n: string)
    requires ParamName(n)
    ensures WholeParam(Spelling(ParamRef(n))) == Some(n)
  {
    var s := Spelling(ParamRef(n));
    assert s[0..|s|] == s;
    ParamIsSeen(s, 0, n);
    assert s[0] == '$' && s[|s| - 1] == '}';
    assert s[0..] == s && s[..|s|] == s;
  }

  lemma NodeAlone(r: Ref)
    requires WellNamed(r)
    ensures References(Atom(Text(Spelling(NodeRef(r))))) == [r]
  {
    var s := Spelling(NodeRef(r));
    assert s[0..|s|] == s;
    NodeFound(s, 0, r, |s|);
  }

  /** A value with a reference in it does add one: validation has to come after rendering. */
  lemma ValueCanAddAReference(n: string, r: Ref, show: Show)
    requires ParamName(n) && WellNamed(r)
    ensures
      var s, value := Spelling(ParamRef(n)), Spelling(NodeRef(r));
      && References(Atom(Text(s))) == []
      && SubstituteParams(Atom(Text(s)), map[n := Atom(Text(value))], show, 0) == Some(Atom(Text(value)))
      && References(Atom(Text(value))) == [r]
  {
    ParamIsWhole(n);
    WholeParamHasNoNodes(Spelling(ParamRef(n)));
    NodeAlone(r);
  }

  // ---- which values are harmless ----------------------------------------------------

  predicate StartsWith(s: string, p: string) { |p| <= |s| && s[..|p|] == p }

  /** One of two texts begins with the other. */
  predicate Comparable(x: string, y: string) { StartsWith(x, y) || StartsWith(y, x) }

  /** No reference begins in the value, neither a whole one nor one that what follows the
      value could complete. */
  ghost predicate BeginsNoReference(u: string) {
    forall i: nat, r: Ref :: i < |u| && WellNamed(r) ==> !Comparable(u[i..], Spelling(NodeRef(r)))
  }

  /** Wherever it is put among tokens, the value adds no reference and hides none. */
  ghost predicate AddsNothing(u: string) {
    forall a: seq<Token>, b: seq<Token> :: Good(a) && Good(b) ==> KeepsReferences(u, a, b)
  }

  predicate KeepsReferences(u: string, a: seq<Token>, b: seq<Token>) {
    Holes(Pieces(TextOf(a) + u + TextOf(b), 0)) == NodeRefs(a) + NodeRefs(b)
  }

  ghost predicate NoneAt(s: string, i: nat) { i < |s| && MatchAt(s, i).NoMatch? }

  lemma UnmatchedStep(s: string, i: nat)
    requires NoneAt(s, i)
    ensures Holes(Pieces(s, i)) == Holes(Pieces(s, i + 1))
  {
    assert Pieces(s, i)[1..] == Pieces(s, i + 1);
  }

  lemma {:induction false} SkipUnmatched(s: string, i: nat, j: nat)
    requires i <= j <= |s| && forall k :: i <= k < j ==> NoneAt(s, k)
    ensures Holes(Pieces(s, i)) == Holes(Pieces(s, j))
    decreases j - i
  {
    if i < j {
      UnmatchedStep(s, i);
      SkipUnmatched(s, i + 1, j);
    }
  }

  /** Tokens at the front of a text are found, whatever follows. */
  lemma {:induction false} TokensInFront(s: string, i: nat, ts: seq<Token>, rest: string, e: nat)
    requires i <= |s| && s[i..] == TextOf(ts) + rest && Good(ts) && e == i + |TextOf(ts)|
    ensures e <= |s| && Holes(Pieces(s, i)) == NodeRefs(ts) + Holes(Pieces(s, e))
    decreases |ts|
  {
    if ts == [] {
      assert [] + Holes(Pieces(s, i)) == Holes(Pieces(s, i));
    } else {
      var m := FirstToken(s, i, ts, rest);
      FoundStep(s, i, ts[0], m);
      TokensInFront(s, m, ts[1..], rest, e);
      Regrouped(if ts[0].NodeRef? then [ts[0].ref] else [], NodeRefs(ts[1..]), Holes(Pieces(s, e)));
    }
  }

  lemma FirstToken(s: string, i: nat, ts: seq<Token>, rest: string) returns (e: nat)
    requires i <= |s| && s[i..] == TextOf(ts) + rest && ts != []
    ensures e == i + |Spelling(ts[0])| <= |s| && s[i..e] == Spelling(ts[0]) && s[e..] == TextOf(ts[1..]) + rest
    ensures |TextOf(ts)| == |Spelling(ts[0])| + |TextOf(ts[1..])|
  {
    var w, more := Spelling(ts[0]), TextOf(ts[1..]);
    Replace.Regroup(w, more, rest);
    TakeAndDrop(s, i, w, more + rest);
    e := i + |w|;
  }

  lemma Regrouped(x: seq<Ref>, y: seq<Ref>, z: seq<Ref>)
    ensures x + (y + z) == (x + y) + z
  {
  }

  /** A value that begins no reference begins none before any text. */
  lemma NoneBegins(u: string, rest: string, s: string, at: nat, i: nat)
    requires BeginsNoReference(u) && at <= |s| && s[at..] == u + rest && i < |u|
    ensures MatchAt(s, at + i).NoMatch?
  {
    FrontOfRest(u, rest, s, at, i);
    if MatchAt(s, at + i).Found? {
      var r := MatchedIsThere(s, at + i);
      BothBegin(s[at + i..], u[i..], Spelling(NodeRef(r)));
    }
  }

  lemma NoneBeginsWithin(u: string, rest: string, s: string, at: nat)
    requires BeginsNoReference(u) && at + |u| <= |s| && s[at..] == u + rest
    ensures forall k :: at <= k < at + |u| ==> NoneAt(s, k)
  {
    forall k | at <= k < at + |u| ensures NoneAt(s, k) { NoneBegins(u, rest, s, at, k - at); }
  }

  lemma MatchedIsThere(s: string, i: nat) returns (r: Ref)
    requires i <= |s| && MatchAt(s, i).Found?
    ensures WellNamed(r) && StartsWith(s[i..], Spelling(NodeRef(r)))
  {
    var m := MatchAt(s, i);
    MatchedIsSpelled(s, i);
    SpelledIsThere(s, i, m.ref, m.end);
    r := m.ref;
  }

  lemma FrontOfRest(u: string, rest: string, s: string, at: nat, i: nat)
    requires at <= |s| && s[at..] == u + rest && i < |u|
    ensures StartsWith(s[at + i..], u[i..])
  {
    var x := s[at + i..];
    assert forall k :: 0 <= k < |u| - i ==> x[k] == s[at..][i + k] == u[i + k];
    assert x[..|u| - i] == u[i..];
  }

  lemma SpelledAt(s: string, i: nat, r: Ref, e: nat, k: nat)
    requires Spells(s, i, r, e) && k < e - i
    ensures |Spelling(NodeRef(r))| == e - i && s[i + k] == Spelling(NodeRef(r))[k]
  {
    NodeParts(r);
    SameParts(s, i, Spelling(NodeRef(r)), |OPENING|, |OPENING| + |r.id|, k);
  }

  /** Texts that agree on an opening, a name, a dot, a name and a last character. */
  lemma SameParts(s: string, i: nat, w: string, o: nat, b: nat, k: nat)
    requires o <= b < |w| - 1 && i + |w| <= |s| && k < |w|
    requires s[i..i + o] == w[..o] && s[i + o..i + b] == w[o..b] && s[i + b] == w[b]
    requires s[i + b + 1..i + |w| - 1] == w[b + 1..|w| - 1] && s[i + |w| - 1] == w[|w| - 1]
    ensures s[i + k] == w[k]
  {
    if k < o {
      SamePart(s, i, w, 0, o, k);
    } else if k < b {
      SamePart(s, i, w, o, b, k);
    } else if b < k < |w| - 1 {
      SamePart(s, i, w, b + 1, |w| - 1, k);
    }
  }

  lemma SamePart(s: string, i: nat, w: string, a: nat, b: nat, k: nat)
    requires a <= k < b <= |w| && i + b <= |s| && s[i + a..i + b] == w[a..b]
    ensures s[i + k] == w[k]
  {
    assert s[i + a..i + b][k - a] == s[i + k] && w[a..b][k - a] == w[k];
  }

  lemma SpelledIsThere(s: string, i: nat, r: Ref, e: nat)
    requires Spells(s, i, r, e)
    ensures StartsWith(s[i..], Spelling(NodeRef(r)))
  {
    var w := Spelling(NodeRef(r));
    SpelledAt(s, i, r, e, 0);
    forall k | 0 <= k < |w| ensures s[i..][k] == w[k] { SpelledAt(s, i, r, e, k); }
    assert s[i..][..|w|] == w;
  }

  lemma BothBegin(t: string, x: string, y: string)
    requires StartsWith(t, x) && StartsWith(t, y)
    ensures Comparable(x, y)
  {
    if |x| <= |y| { assert y[..|x|] == t[..|x|]; } else { assert x[..|y|] == t[..|y|]; }
  }

  lemma ThreeParts(x: string, u: string, y: string)
    ensures var s := x + u + y;
      |s| == |x| + |u| + |y| && s[0..] == x + (u + y) && s[|x|..] == u + y && s[|x| + |u|..] == y
  {
  }

  /** The references of a text, around a part in which none is found. */
  lemma FoundAround(s: string, a: seq<Token>, u: string, y: string, b: seq<Token>, at: nat, end: nat)
    requires Good(a) && Good(b) && s[0..] == TextOf(a) + (u + y) && y == TextOf(b)
    requires at == |TextOf(a)| && end == at + |u| <= |s| && s[end..] == y
    requires forall k :: at <= k < end ==> NoneAt(s, k)
    ensures Holes(Pieces(s, 0)) == NodeRefs(a) + NodeRefs(b)
  {
    TokensInFront(s, 0, a, u + y, at);
    SkipUnmatched(s, at, end);
    TokensAreFound(s, end, b);
  }

  lemma HarmlessAddsNothing(u: string, a: seq<Token>, b: seq<Token>)
    requires BeginsNoReference(u) && Good(a) && Good(b)
    ensures KeepsReferences(u, a, b)
  {
    HarmlessBetween(u, a, TextOf(a), b, TextOf(b));
  }

  lemma HarmlessBetween(u: string, a: seq<Token>, x: string, b: seq<Token>, y: string)
    requires BeginsNoReference(u) && Good(a) && Good(b) && x == TextOf(a) && y == TextOf(b)
    ensures Holes(Pieces(x + u + y, 0)) == NodeRefs(a) + NodeRefs(b)
  {
    var s, at := x + u + y, |x|;
    ThreeParts(x, u, y);
    NoneBeginsWithin(u, y, s, at);
    FoundAround(s, a, u, y, b, at, at + |u|);
  }

  /** A reference spelled somewhere is not overlooked. */
  lemma {:induction false} SpelledLeavesAHole(s: string, i: nat, j: nat, r: Ref, e: nat)
    requires i <= j && Spells(s, j, r, e)
    ensures Holes(Pieces(s, i)) != []
    decreases j - i
  {
    if i == j {
      SpelledIsMatched(s, i, r, e);
    } else if MatchAt(s, i).NoMatch? {
      assert Pieces(s, i)[1..] == Pieces(s, i + 1);
      SpelledLeavesAHole(s, i + 1, j, r, e);
    }
  }

  /** A value in which a reference begins adds one when the rest of it follows. */
  lemma BegunReferenceAppears(u: string, i: nat, r: Ref)
    requires i < |u| && WellNamed(r) && Comparable(u[i..], Spelling(NodeRef(r)))
    ensures !AddsNothing(u)
  {
    var w, k := Spelling(NodeRef(r)), |u| - i;
    var missing := if k < |w| then w[k..] else "";
    DollarLeads(r, k, missing);
    Completed(u, i, w, missing);
    WrittenIsFound(u + missing, i, r);
    AddsSomething(u, missing);
  }

  lemma WrittenIsFound(s: string, i: nat, r: Ref)
    requires WellNamed(r) && i + |Spelling(NodeRef(r))| <= |s|
    requires s[i..i + |Spelling(NodeRef(r))|] == Spelling(NodeRef(r))
    ensures Holes(Pieces(s, 0)) != []
  {
    NodeIsSpelled(s, i, r);
    SpelledLeavesAHole(s, 0, i, r, i + |Spelling(NodeRef(r))|);
  }

  lemma PlainsAlone(t: string)
    ensures TextOf(Plains(t)) == t && NodeRefs(Plains(t)) == []
  {
    PlainsRead(t, []);
    assert Plains(t) + [] == Plains(t) && t + "" == t;
  }

  lemma AddsSomething(u: string, rest: string)
    requires Good(Plains(rest)) && Holes(Pieces(u + rest, 0)) != []
    ensures !AddsNothing(u)
  {
    var none := Plains("");
    PlainsAlone(rest);
    PlainsAlone("");
    assert "" + u == u;
    assert !KeepsReferences(u, none, Plains(rest));
  }

  lemma Completed(u: string, i: nat, w: string, missing: string)
    requires i < |u| && Comparable(u[i..], w) && missing == (if |u| - i < |w| then w[|u| - i..] else "")
    ensures i + |w| <= |u + missing| && (u + missing)[i..i + |w|] == w
  {
    var s, k := u + missing, |u| - i;
    forall j | 0 <= j < |w| ensures s[i + j] == w[j] {
      if j < k {
        assert u[i..][j] == u[i + j];
        assert |w| <= k ==> u[i..][..|w|][j] == w[j];
        assert k <= |w| ==> w[..k][j] == w[j];
      }
    }
  }

  lemma DollarLeads(r: Ref, k: nat, missing: string)
    requires WellNamed(r) && k > 0
    requires missing == if k < |Spelling(NodeRef(r))| then Spelling(NodeRef(r))[k..] else ""
    ensures Good(Plains(missing)) && NodeRefs(Plains(missing)) == []
  {
    var w := Spelling(NodeRef(r));
    assert w[0..|w|] == w;
    NodeIsNoParam(w, 0, r);
    assert forall j :: 0 <= j < |missing| ==> missing[j] == w[k + j];
    PlainsRead(missing, []);
    assert Plains(missing) + [] == Plains(missing);
  }

  /** Exactly which values are harmless: those in which no reference begins. */
  lemma HarmlessIff(u: string)
    ensures AddsNothing(u) <==> BeginsNoReference(u)
  {
    if BeginsNoReference(u) {
      forall a: seq<Token>, b: seq<Token> | Good(a) && Good(b) ensures KeepsReferences(u, a, b) {
        HarmlessAddsNothing(u, a, b);
      }
    } else {
      var i: nat, r: Ref :| i < |u| && WellNamed(r) && Comparable(u[i..], Spelling(NodeRef(r)));
      BegunReferenceAppears(u, i, r);
    }
  }

  // ---- what a string becomes, and how deep a template may be --------------------------

  /** The text is this parameter, with nothing but blanks around it. */
  predicate ParamAloneAt(s: string, i: nat, n: string) {
    var j := i + |n| + 3;
    && ParamName(n) && j <= |s| && s[i..j] == "${" + n + "}"
    && (forall k :: 0 <= k < i ==> Blank(s[k])) && (forall k :: j <= k < |s| ==> Blank(s[k]))
  }

  lemma ParamIsStripped(s: string, i: nat, n: string)
    requires ParamAloneAt(s, i, n)
    ensures Strip(s) == "${" + n + "}"
  {
    var w, t := "${" + n + "}", s[i..];
    assert w[0] == s[i..i + |w|][0] == s[i] && w[|w| - 1] == s[i..i + |w|][|w| - 1] == s[i + |w| - 1];
    StripLeftAt(s, i);
    StripRightAt(t, |w|);
    assert t[..|w|] == s[i..i + |w|];
  }

  lemma WholeParamIsSpelled(s: string)
    requires WholeParam(s).Some?
    ensures var n := WholeParam(s).value; ParamName(n) && Strip(s) == "${" + n + "}"
  {
    ParamIsSpelled(Strip(s));
  }

  lemma StrippedPart(s: string)
    ensures var i := StripLeft(s); i + |Strip(s)| <= |s| && s[i..i + |Strip(s)|] == Strip(s)
    ensures forall k :: 0 <= k < StripLeft(s) ==> Blank(s[k])
    ensures forall k :: StripLeft(s) + |Strip(s)| <= k < |s| ==> Blank(s[k])
  {
    var i := StripLeft(s);
    var len := StripRight(s[i..]);
    SubSlice(s, i, |s|, 0, len);
    assert s[i..|s|] == s[i..] && s[i..][0..len] == Strip(s);
    OnlySpaceBehind(s);
  }

  lemma WholeParamIsAlone(s: string)
    requires WholeParam(s).Some?
    ensures ParamAloneAt(s, StripLeft(s), WholeParam(s).value)
  {
    WholeParamIsSpelled(s);
    StrippedPart(s);
  }

  lemma AloneIsWholeParam(s: string, i: nat, n: string)
    requires ParamAloneAt(s, i, n)
    ensures WholeParam(s) == Some(n)
  {
    ParamIsStripped(s, i, n);
    SpelledParam(n);
  }

  lemma SpelledParam(n: string)
    requires ParamName(n)
    ensures ParamAt("${" + n + "}", 0) == Param(n, |n| + 3)
  {
    var w := Spelling(ParamRef(n));
    assert w[0..|n| + 3] == w;
    ParamIsSeen(w, 0, n);
  }

  /** `fullmatch` on the stripped text. */
  lemma WholeParamIff(s: string, n: string)
    ensures WholeParam(s) == Some(n) <==> exists i: nat :: ParamAloneAt(s, i, n)
  {
    if WholeParam(s) == Some(n) { WholeParamIsAlone(s); }
    if i: nat :| ParamAloneAt(s, i, n) { AloneIsWholeParam(s, i, n); }
  }

  /** A string that is a known parameter becomes the value, whatever its type; any other
      string becomes a text. */
  lemma StringBecomes(s: string, params: Params, show: Show)
    ensures forall i: nat, n :: ParamAloneAt(s, i, n) && n in params ==> RenderString(s, params, show) == params[n]
    ensures (forall i: nat, n :: ParamAloneAt(s, i, n) ==> n !in params) ==>
      RenderString(s, params, show) == Atom(Text(RenderText(s, 0, params, show)))
  {
    forall i: nat, n | ParamAloneAt(s, i, n) ensures WholeParam(s) == Some(n) { AloneIsWholeParam(s, i, n); }
    if WholeParam(s).Some? { WholeParamIsAlone(s); }
  }

  /** How many lists and objects lie around the innermost part of a value. */
  function Nesting(v: Json): nat {
    match v
    case Atom(_) => 0
    case List(items) => DeepestInside(items)
    case Dict(entries) => DeepestInside(entries)
  }

  function DeepestInside(m: Members): nat {
    match m
    case End => 0
    case Member(_, v, rest) => if DeepestInside(rest) > Nesting(v) + 1 then DeepestInside(rest) else Nesting(v) + 1
  }

  /** A template is refused exactly when it is nested more than twenty deep. */
  lemma {:induction false} TooDeepIff(v: Json, params: Params, show: Show, depth: nat)
    requires depth <= 20
    ensures SubstituteParams(v, params, show, depth).None? <==> depth + Nesting(v) > 20
    decreases v
  {
    match v
    case Atom(_) =>
    case List(items) => TooDeepInsideIff(items, params, show, depth + 1);
    case Dict(entries) => TooDeepInsideIff(entries, params, show, depth + 1);
  }

  lemma {:induction false} TooDeepInsideIff(m: Members, params: Params, show: Show, depth: nat)
    requires 0 < depth <= 21
    ensures SubstituteInside(m, params, show, depth).None? <==> depth - 1 + DeepestInside(m) > 20
    decreases m
  {
    match m
    case End =>
    case Member(_, v, rest) =>
      if depth <= 20 { TooDeepIff(v, params, show, depth); }
      TooDeepInsideIff(rest, params, show, depth);
  }

  // ---- parameters -------------------------------------------------------------------

  datatype ParamSpec = ParamSpec(name: string, required: bool, default: Json)

  datatype Resolved =
    | Filled(params: Params)
    | UnknownNames(names: set<string>)
    | MissingNames(names: set<string>)

  /** The parameters by name; of two with one name the later. */
  function Known(specs: seq<ParamSpec>): map<string, ParamSpec>
    decreases |specs|
  {
    if specs == [] then map[]
    else Known(specs[..|specs| - 1])[specs[|specs| - 1].name := specs[|specs| - 1]]
  }

  predicate IsGiven(given: Params, n: string) { n in given && given[n] != Atom(Null) }

  /** The last parameter of the list that has the name. */
  ghost predicate Declared(specs: seq<ParamSpec>, n: string, p: ParamSpec) {
    exists i :: 0 <= i < |specs| && LastOf(specs, i, n) && p == specs[i]
  }

  predicate LastOf(specs: seq<ParamSpec>, i: nat, n: string) {
    i < |specs| && specs[i].name == n && forall j :: i < j < |specs| ==> specs[j].name != n
  }

  lemma {:induction false} KnownIsLast(specs: seq<ParamSpec>, n: string)
    ensures n in Known(specs) <==> exists p <- specs :: p.name == n
    ensures n in Known(specs) ==> Declared(specs, n, Known(specs)[n])
    decreases |specs|
  {
    if specs != [] {
      var init, last := specs[..|specs| - 1], specs[|specs| - 1];
      KnownIsLast(init, n);
      assert specs == init + [last];
      if last.name == n {
        assert LastOf(specs, |specs| - 1, n);
      } else if n in Known(init) {
        var i :| 0 <= i < |init| && LastOf(init, i, n) && Known(init)[n] == init[i];
        assert LastOf(specs, i, n);
      }
    }
  }

  /** The rule for one parameter. */
  predicate Settled(n: string, known: map<string, ParamSpec>, given: Params, resolved: Params, missing: set<string>) {
    if n !in known then n !in resolved && n !in missing
    else if n in given && given[n] != Atom(Null) then n in resolved && resolved[n] == given[n] && n !in missing
    else if known[n].required then n !in resolved && n in missing
    else n in resolved && resolved[n] == known[n].default && n !in missing
  }

  /** A parameter that must be given and is not, or is null. */
  ghost predicate Lacks(specs: seq<ParamSpec>, given: Params, n: string) {
    (n in given ==> given[n] == Atom(Null)) && exists p <- specs :: Declared(specs, n, p) && p.required
  }

  /** What is filled in for a name: the given value unless it is null, else the default. */
  ghost predicate FilledWith(specs: seq<ParamSpec>, given: Params, n: string, v: Json) {
    exists p <- specs ::
      Declared(specs, n, p) && v == if n in given && given[n] != Atom(Null) then given[n] else p.default
  }

  lemma DeclaredOnce(specs: seq<ParamSpec>, n: string, p: ParamSpec)
    ensures Declared(specs, n, p) <==> n in Known(specs) && Known(specs)[n] == p
  {
    KnownIsLast(specs, n);
    if Declared(specs, n, p) {
      var i :| 0 <= i < |specs| && LastOf(specs, i, n) && p == specs[i];
      assert specs[i] in specs;
      var j :| 0 <= j < |specs| && LastOf(specs, j, n) && Known(specs)[n] == specs[j];
    }
  }

  lemma OnDeclared(specs: seq<ParamSpec>, given: Params, n: string)
    ensures n in Known(specs) <==> exists p <- specs :: p.name == n
    ensures Lacks(specs, given, n) <==> n in Known(specs) && Known(specs)[n].required && !IsGiven(given, n)
    ensures forall v :: FilledWith(specs, given, n, v) <==>
      n in Known(specs) && v == if IsGiven(given, n) then given[n] else Known(specs)[n].default
  {
    KnownIsLast(specs, n);
    forall p ensures Declared(specs, n, p) <==> n in Known(specs) && Known(specs)[n] == p {
      DeclaredOnce(specs, n, p);
    }
    assert n in Known(specs) ==> Declared(specs, n, Known(specs)[n]) && Known(specs)[n] in specs;
  }

  /** What the resolution promises: every parameter has its value, given or default, or what is
      wrong is named. */
  ghost predicate Resolves(specs: seq<ParamSpec>, given: Params, r: Resolved) {
    match r
    case UnknownNames(names) =>
      names != {} && forall n :: n in names <==> n in given && !exists p <- specs :: p.name == n
    case MissingNames(names) =>
      && (forall n <- given :: exists p <- specs :: p.name == n)
      && names != {} && forall n :: n in names <==> Lacks(specs, given, n)
    case Filled(params) =>
      && (forall n <- given :: exists p <- specs :: p.name == n)
      && (forall n :: !Lacks(specs, given, n))
      && (forall n :: n in params <==> exists p <- specs :: p.name == n)
      && forall n <- params :: FilledWith(specs, given, n, params[n])
  }

  /** `resolve_params`. */
  method ResolveParams(specs: seq<ParamSpec>, given: Params) returns (r: Resolved)
    ensures Resolves(specs, given, r)
  {
    forall n
      ensures n in Known(specs) <==> exists p <- specs :: p.name == n
      ensures Lacks(specs, given, n) <==> n in Known(specs) && Known(specs)[n].required && !IsGiven(given, n)
    {
      OnDeclared(specs, given, n);
    }
    r := ResolveKnown(Known(specs), given);
    if r.Filled? {
      forall n
        ensures n in r.params <==> n in Known(specs)
        ensures n in r.params ==> FilledWith(specs, given, n, r.params[n])
        ensures !Lacks(specs, given, n)
      {
        assert Settled(n, Known(specs), given, r.params, {});
        OnDeclared(specs, given, n);
      }
    }
  }

  method ResolveKnown(known: map<string, ParamSpec>, given: Params) returns (r: Resolved)
    ensures r.UnknownNames? <==> !(given.Keys <= known.Keys)
    ensures r.UnknownNames? ==> r.names == given.Keys - known.Keys && r.names != {}
    ensures r.MissingNames? ==> r.names != {}
    ensures r.MissingNames? ==>
      forall n :: n in r.names <==> n in known && known[n].required && !IsGiven(given, n)
    ensures r.Filled? ==> forall n :: Settled(n, known, given, r.params, {})
  {
    var unknown := given.Keys - known.Keys;
    assert unknown == {} <==> given.Keys <= known.Keys by {
      if unknown == {} {
        forall n | n in given.Keys ensures n in known.Keys { assert n !in unknown; }
      }
    }
    if unknown != {} { return UnknownNames(unknown); }
    var resolved, missing := Merge(known, given);
    if missing != {} {
      forall n ensures n in missing <==> n in known && known[n].required && !IsGiven(given, n) {
        assert Settled(n, known, given, resolved, missing);
      }
      return MissingNames(missing);
    }
    r := Filled(resolved);
  }

  method Merge(known: map<string, ParamSpec>, given: Params) returns (resolved: Params, missing: set<string>)
    ensures forall n :: Settled(n, known, given, resolved, missing)
  {
    resolved, missing := map[], {};
    var rest := known.Keys;
    while rest != {}
      invariant rest <= known.Keys
      invariant forall n :: n in rest ==> n !in resolved && n !in missing
      invariant forall n :: n in rest || Settled(n, known, given, resolved, missing)
      decreases |rest|
    {
      var n :| n in rest;
      rest := rest - {n};
      ghost var before, without := resolved, missing;
      if IsGiven(given, n) {
        resolved := resolved[n := given[n]];
      } else if known[n].required {
        missing := missing + {n};
      } else {
        resolved := resolved[n := known[n].default];
      }
      forall k | k !in rest && k != n ensures Settled(k, known, given, resolved, missing) {
        assert Settled(k, known, given, before, without);
      }
    }
  }
}
