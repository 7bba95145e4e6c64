/** What reaches the executor: a payload in which every reference has been replaced by what it
    names, said of the text itself and not of the way it is computed. */
module Resolution {
  import opened Payload
  import opened Plan
  import opened Workflow
  import opened Replace
  import CronField
  import Templates

  // ---- the references of a text ------------------------------------------------------

  predicate WordChar(c: char) { 'A' <= c <= 'Z' || 'a' <= c <= 'z' || '0' <= c <= '9' || c == '_' }

  /** An id of letters, digits, `_` and `-`, and a field of letters, digits and `_`. */
  predicate Nameable(r: Ref) {
    && r.id != "" && (forall k :: 0 <= k < |r.id| ==> WordChar(r.id[k]) || r.id[k] == '-')
    && r.field != "" && (forall k :: 0 <= k < |r.field| ==> WordChar(r.field[k]))
  }

  function RefText(r: Ref): string { "${nodes." + r.id + "." + r.field + "}" }

  predicate BeginsWith(s: string, r: Ref) { Nameable(r) && PrefixOf(RefText(r), s) }

  /** A text read from left to right: where a reference begins it is taken as a whole, and any
      other character is one on its own. */
  ghost predicate Cut(s: string, ps: seq<Piece>)
    decreases |ps|
  {
    if ps == [] then s == "" else
    match ps[0]
    case Hole(r) => BeginsWith(s, r) && Cut(s[|RefText(r)|..], ps[1..])
    case Lit(c) => s != "" && s[0] == c && (forall r :: !BeginsWith(s, r)) && Cut(s[1..], ps[1..])
  }

  lemma SameNames(r: Ref)
    ensures Nameable(r) <==> WellNamed(r)
    ensures RefText(r) == Templates.Spelling(Templates.NodeRef(r))
  {
    assert forall c :: WordChar(c) <==> FieldChar(c);
  }

  lemma BeginsIffMatched(s: string, i: nat, r: Ref)
    requires i <= |s|
    ensures BeginsWith(s[i..], r) <==> MatchAt(s, i).Found? && MatchAt(s, i).ref == r
    ensures BeginsWith(s[i..], r) ==> MatchAt(s, i).end == i + |RefText(r)|
  {
    var w := RefText(r);
    SameNames(r);
    if BeginsWith(s[i..], r) {
      assert s[i..i + |w|] == s[i..][..|w|];
      Templates.NodeIsSpelled(s, i, r);
      SpelledIsMatched(s, i, r, i + |w|);
    }
    if MatchAt(s, i).Found? && MatchAt(s, i).ref == r {
      MatchedIsSpelled(s, i);
      Templates.SpelledIsThere(s, i, r, MatchAt(s, i).end);
    }
  }

  lemma PlainCut(s: string, ps: seq<Piece>)
    requires s != "" && forall r :: !BeginsWith(s, r)
    ensures Cut(s, ps) <==> ps != [] && ps[0] == Lit(s[0]) && Cut(s[1..], ps[1..])
  {
  }

  lemma ReferenceCut(s: string, r: Ref, ps: seq<Piece>)
    requires BeginsWith(s, r) && forall q :: BeginsWith(s, q) ==> q == r
    ensures Cut(s, ps) <==> ps != [] && ps[0] == Hole(r) && Cut(s[|RefText(r)|..], ps[1..])
  {
  }

  lemma UnmatchedCut(s: string, i: nat, ps: seq<Piece>)
    requires i < |s| && MatchAt(s, i).NoMatch?
    ensures Cut(s[i..], ps) <==> ps != [] && ps[0] == Lit(s[i]) && Cut(s[i + 1..], ps[1..])
  {
    forall r ensures !BeginsWith(s[i..], r) { BeginsIffMatched(s, i, r); }
    PlainCut(s[i..], ps);
    assert s[i..][1..] == s[i + 1..];
  }

  lemma MatchedCut(s: string, i: nat, ps: seq<Piece>)
    requires i < |s| && MatchAt(s, i).Found?
    ensures var m := MatchAt(s, i);
      Cut(s[i..], ps) <==> ps != [] && ps[0] == Hole(m.ref) && Cut(s[m.end..], ps[1..])
  {
    var m := MatchAt(s, i);
    forall r ensures BeginsWith(s[i..], r) <==> m.ref == r { BeginsIffMatched(s, i, r); }
    BeginsIffMatched(s, i, m.ref);
    ReferenceCut(s[i..], m.ref, ps);
    assert s[i..][m.end - i..] == s[m.end..];
  }

  /** The pattern cuts a text in that way, and there is no other. */
  lemma {:induction false} CutIsPieces(s: string, i: nat, ps: seq<Piece>)
    requires i <= |s|
    ensures Cut(s[i..], ps) <==> ps == Pieces(s, i)
    decreases |s| - i
  {
    if i == |s| {
      NothingIsCut(ps);
    } else if MatchAt(s, i).NoMatch? {
      UnmatchedCut(s, i, ps);
      if ps != [] { CutIsPieces(s, i + 1, ps[1..]); }
      FirstIs(ps, Lit(s[i]), Pieces(s, i + 1));
    } else {
      var m := MatchAt(s, i);
      MatchedCut(s, i, ps);
      if ps != [] { CutIsPieces(s, m.end, ps[1..]); }
      FirstIs(ps, Hole(m.ref), Pieces(s, m.end));
    }
  }

  lemma NothingIsCut(ps: seq<Piece>)
    ensures Cut("", ps) <==> ps == []
  {
  }

  lemma FirstIs(ps: seq<Piece>, p: Piece, rest: seq<Piece>)
    ensures ps == [p] + rest <==> ps != [] && ps[0] == p && ps[1..] == rest
  {
    if ps != [] { assert ps == [ps[0]] + ps[1..]; }
  }

  // ---- what stands for a reference ---------------------------------------------------

  /** The fields of an outcome that can be read. */
  function FieldsOf(o: Outcome): map<string, Scalar> {
    match o
    case Ran(ok, Some(t), error) =>
      map["stdout" := Text(t.stdout), "stderr" := Text(t.stderr), "exit_code" := t.exitCode,
          "decision" := Text(t.decision), "ok" := Bool(ok), "error" := Text(error)]
    case Ran(ok, None, error) => map["ok" := Bool(ok), "error" := Text(error)]
    case _ => map["ok" := Bool(false), "error" := Text("")]
  }

  function ValueOf(r: Ref, seen: Outcomes): Scalar {
    if r.id in seen && r.field in FieldsOf(seen[r.id]) then FieldsOf(seen[r.id])[r.field] else Null
  }

  lemma LookupIsValue(r: Ref, seen: Outcomes)
    ensures Lookup(r, seen) == ValueOf(r, seen)
  {
  }

  /** A numeral without leading noughts. */
  predicate Numeral(t: string, n: int) { CronField.IsDigits(t) && CronField.Num(t) == n && t[0] != '0' }

  /** How a value shows inside a text: as nothing if it is none, false or zero. */
  predicate Shows(v: Scalar, t: string) {
    match v
    case Null => t == ""
    case Bool(b) => t == if b then "True" else ""
    case Int(n) =>
      if n == 0 then t == "" else if n > 0 then Numeral(t, n) else t != "" && t[0] == '-' && Numeral(t[1..], -n)
    case Text(s) => t == s
  }

  lemma PrintedShows(v: Scalar, t: string)
    ensures Shows(v, t) <==> t == Printed(v)
  {
    if v.Int? && v.n != 0 {
      var n := if v.n > 0 then v.n else -v.n;
      var d := if v.n > 0 then t else if t == "" then "" else t[1..];
      CronField.DigitsAreRead(n);
      if Numeral(d, n) { CronField.NumeralIsUnique(d, Digits(n)); }
      if v.n < 0 && t != "" { assert t == [t[0]] + t[1..]; }
      assert ("-" + Digits(n))[1..] == Digits(n);
    }
  }

  /** The text of these pieces, with what shows its value in place of each reference. */
  ghost predicate FilledIn(ps: seq<Piece>, seen: Outcomes, t: string)
    decreases |ps|
  {
    if ps == [] then t == "" else
    match ps[0]
    case Lit(c) => t != "" && t[0] == c && FilledIn(ps[1..], seen, t[1..])
    case Hole(r) => exists k: nat :: k <= |t| && Shows(ValueOf(r, seen), t[..k]) && FilledIn(ps[1..], seen, t[k..])
  }

  lemma {:induction false} FillFillsIn(ps: seq<Piece>, seen: Outcomes, t: string)
    ensures FilledIn(ps, seen, t) <==> t == Fill(ps, seen)
    decreases |ps|
  {
    if ps != [] {
      var rest := Fill(ps[1..], seen);
      match ps[0]
      case Lit(c) =>
        if t != "" {
          FillFillsIn(ps[1..], seen, t[1..]);
          assert t == [t[0]] + t[1..];
        }
      case Hole(r) =>
        var v, w := ValueOf(r, seen), Printed(ValueOf(r, seen));
        LookupIsValue(r, seen);
        forall k: nat | k <= |t| ensures FilledIn(ps[1..], seen, t[k..]) <==> t[k..] == rest {
          FillFillsIn(ps[1..], seen, t[k..]);
        }
        forall k: nat | k <= |t| ensures Shows(v, t[..k]) <==> t[..k] == w { PrintedShows(v, t[..k]); }
        if FilledIn(ps, seen, t) {
          var k: nat :| k <= |t| && Shows(v, t[..k]) && FilledIn(ps[1..], seen, t[k..]);
          assert t == t[..k] + t[k..];
        }
        if t == w + rest { assert t[..|w|] == w && t[|w|..] == rest; }
    }
  }

  // ---- a text that is one reference --------------------------------------------------

  /** The text is this reference, with nothing but blanks around it. */
  predicate AloneAt(s: string, i: nat, r: Ref) {
    var j := i + |RefText(r)|;
    && Nameable(r) && j <= |s| && s[i..j] == RefText(r)
    && (forall k :: 0 <= k < i ==> Blank(s[k])) && (forall k :: j <= k < |s| ==> Blank(s[k]))
  }

  ghost predicate Alone(s: string, r: Ref) { exists i: nat :: AloneAt(s, i, r) }

  lemma RefTextMatches(r: Ref)
    requires Nameable(r)
    ensures MatchAt(RefText(r), 0) == Found(r, |RefText(r)|)
    ensures |RefText(r)| > 0 && RefText(r)[0] == '$' && RefText(r)[|RefText(r)| - 1] == '}'
  {
    var w := RefText(r);
    SameNames(r);
    assert w[0..|w|] == w;
    Templates.NodeIsSpelled(w, 0, r);
    SpelledIsMatched(w, 0, r, |w|);
  }

  lemma AloneIsStripped(s: string, i: nat, r: Ref)
    requires AloneAt(s, i, r)
    ensures Strip(s) == RefText(r)
  {
    var w := RefText(r);
    var t := s[i..];
    RefTextMatches(r);
    assert w[0] == s[i] && w[|w| - 1] == s[i + |w| - 1];
    StripLeftAt(s, i);
    StripRightAt(t, |w|);
    assert t[..|w|] == s[i..i + |w|];
  }

  lemma MatchedWholly(t: string, r: Ref)
    requires MatchAt(t, 0) == Found(r, |t|)
    ensures Nameable(r) && t == RefText(r)
  {
    SameNames(r);
    MatchedIsSpelled(t, 0);
    Templates.SpelledAt(t, 0, r, |t|, 0);
    Templates.SpelledIsThere(t, 0, r, |t|);
    assert t[0..] == t;
  }

  lemma StrippedIsAlone(s: string)
    requires Whole(s).Some?
    ensures AloneAt(s, StripLeft(s), Whole(s).value)
  {
    var lead, r := StripLeft(s), Whole(s).value;
    var len := StripRight(s[lead..]);
    MatchedWholly(Strip(s), r);
    SubSlice(s, lead, |s|, 0, len);
    assert s[lead..|s|] == s[lead..] && s[lead..][0..len] == Strip(s);
    OnlySpaceBehind(s);
    BlanksAround(s, lead, r);
  }

  lemma BlanksAround(s: string, i: nat, r: Ref)
    requires Nameable(r) && i + |RefText(r)| <= |s| && s[i..i + |RefText(r)|] == RefText(r)
    requires forall k :: 0 <= k < i || i + |RefText(r)| <= k < |s| ==> Space(s[k])
    ensures AloneAt(s, i, r)
  {
  }

  /** `fullmatch` on the stripped text. */
  lemma WholeIff(s: string, r: Ref)
    ensures Whole(s) == Some(r) <==> Alone(s, r)
  {
    if Whole(s) == Some(r) { StrippedIsAlone(s); }
    if Alone(s, r) {
      var i: nat :| AloneAt(s, i, r);
      AloneIsStripped(s, i, r);
      RefTextMatches(r);
    }
  }

  // ---- payloads ----------------------------------------------------------------------

  /** A text that is one reference becomes its value, of whatever type; any other becomes the
      text with each reference filled in. */
  ghost predicate TextResolves(s: string, v: Scalar, seen: Outcomes) {
    && (forall r :: Alone(s, r) ==> v == ValueOf(r, seen))
    && ((forall r :: !Alone(s, r)) ==> v.Text? && forall ps :: Cut(s, ps) ==> FilledIn(ps, seen, v.s))
  }

  /** `w` is `v` with all its texts resolved, at any depth, and nothing else changed. */
  ghost predicate Resolves(v: Json, w: Json, seen: Outcomes) {
    match v
    case Atom(Text(s)) => w.Atom? && TextResolves(s, w.v, seen)
    case Atom(_) => w == v
    case List(items) => w.List? && ResolvesInside(items, w.items, seen)
    case Dict(entries) => w.Dict? && ResolvesInside(entries, w.entries, seen)
  }

  ghost predicate ResolvesInside(m: Members, n: Members, seen: Outcomes) {
    match m
    case End => n.End?
    case Member(k, v, rest) =>
      n.Member? && n.key == k && Resolves(v, n.value, seen) && ResolvesInside(rest, n.rest, seen)
  }

  lemma TextIsSubstituted(s: string, v: Scalar, seen: Outcomes)
    ensures TextResolves(s, v, seen) <==> v == SubstituteText(s, seen)
  {
    forall r ensures Whole(s) == Some(r) <==> Alone(s, r) { WholeIff(s, r); }
    if Whole(s).Some? {
      LookupIsValue(Whole(s).value, seen);
    } else {
      assert s[0..] == s;
      forall ps ensures Cut(s, ps) <==> ps == Pieces(s, 0) { CutIsPieces(s, 0, ps); }
      if v.Text? { FillFillsIn(Pieces(s, 0), seen, v.s); }
    }
  }

  /** `substitute` resolves a payload, and a payload has no other resolution. */
  lemma {:induction false} SubstituteResolves(v: Json, w: Json, seen: Outcomes)
    ensures Resolves(v, w, seen) <==> w == Substitute(v, seen)
    decreases v
  {
    match v
    case Atom(Text(s)) => if w.Atom? { TextIsSubstituted(s, w.v, seen); }
    case Atom(_) =>
    case List(items) => if w.List? { InsideResolves(items, w.items, seen); }
    case Dict(entries) => if w.Dict? { InsideResolves(entries, w.entries, seen); }
  }

  lemma {:induction false} InsideResolves(m: Members, n: Members, seen: Outcomes)
    ensures ResolvesInside(m, n, seen) <==> n == SubstituteInside(m, seen)
    decreases m
  {
    if m.Member? && n.Member? {
      SubstituteResolves(m.value, n.value, seen);
      InsideResolves(m.rest, n.rest, seen);
    }
  }

  lemma PlainIsUnmatched(s: string, i: nat)
    requires i < |s| && s[i] != '$'
    ensures MatchAt(s, i).NoMatch?
  {
    assert i + |OPENING| <= |s| ==> s[i..i + |OPENING|][0] == s[i];
  }

  lemma UnmatchedFill(s: string, i: nat, seen: Outcomes)
    requires i < |s| && MatchAt(s, i).NoMatch?
    ensures Fill(Pieces(s, i), seen) == [s[i]] + Fill(Pieces(s, i + 1), seen)
  {
    assert Pieces(s, i)[1..] == Pieces(s, i + 1);
  }

  lemma MatchedFill(s: string, i: nat, seen: Outcomes)
    requires i < |s| && MatchAt(s, i).Found?
    ensures var m := MatchAt(s, i);
      Fill(Pieces(s, i), seen) == Printed(Lookup(m.ref, seen)) + Fill(Pieces(s, m.end), seen)
  {
    assert Pieces(s, i)[1..] == Pieces(s, MatchAt(s, i).end);
  }

  lemma {:induction false} FillKeeps(s: string, i: nat, j: nat, seen: Outcomes)
    requires i <= j <= |s| && forall k :: i <= k < j ==> s[k] != '$'
    ensures Fill(Pieces(s, i), seen) == s[i..j] + Fill(Pieces(s, j), seen)
    decreases j - i
  {
    if i < j {
      PlainIsUnmatched(s, i);
      UnmatchedFill(s, i, seen);
      FillKeeps(s, i + 1, j, seen);
      Templates.SliceStep(s, i, j);
      Regroup([s[i]], s[i + 1..j], Fill(Pieces(s, j), seen));
    }
  }

  lemma FillAround(s: string, i: nat, j: nat, r: Ref, seen: Outcomes)
    requires i < j <= |s| && MatchAt(s, i) == Found(r, j)
    requires forall k :: 0 <= k < i || j <= k < |s| ==> s[k] != '$'
    ensures Fill(Pieces(s, 0), seen) == s[..i] + Printed(Lookup(r, seen)) + s[j..]
  {
    FillKeeps(s, 0, i, seen);
    MatchedFill(s, i, seen);
    FillKeeps(s, j, |s|, seen);
    assert s[j..|s|] == s[j..] && s[j..] + "" == s[j..];
    Regroup(s[..i], Printed(Lookup(r, seen)), s[j..]);
  }

  lemma AloneIsMatched(s: string, n: nat, q: Ref)
    requires AloneAt(s, n, q)
    ensures n < |s| && s[n] == '$' && MatchAt(s, n) == Found(q, n + |RefText(q)|)
  {
    var w := RefText(q);
    RefTextMatches(q);
    assert s[n..n + |w|][0] == s[n];
    assert s[n..][..|w|] == w;
    BeginsIffMatched(s, n, q);
  }

  /** Where a text has one `$`, which begins a reference, it is that reference alone or none. */
  lemma NotAlone(s: string, i: nat, j: nat, r: Ref, q: Ref)
    requires i < j <= |s| && MatchAt(s, i) == Found(r, j)
    requires forall k :: 0 <= k < i || j <= k < |s| ==> s[k] != '$'
    requires Alone(s, q)
    ensures forall k :: 0 <= k < i || j <= k < |s| ==> Blank(s[k])
  {
    var n: nat :| AloneAt(s, n, q);
    AloneIsMatched(s, n, q);
    MatchedDollar(s, i);
    assert n == i;
  }

  lemma MatchedDollar(s: string, i: nat)
    requires i < |s| && MatchAt(s, i).Found?
    ensures forall k :: i < k < MatchAt(s, i).end ==> s[k] != '$'
  {
    MatchedIsSpelled(s, i);
    Templates.SpelledHasOneDollar(s, i, MatchAt(s, i).ref, MatchAt(s, i).end);
  }

  lemma Middle(a: string, w: string, b: string)
    ensures var s, i, j := a + w + b, |a|, |a| + |w|;
      && s[..i] == a && s[j..] == b && PrefixOf(w, s[i..])
      && (forall k :: 0 <= k < i ==> s[k] == a[k]) && (forall k :: j <= k < |s| ==> s[k] == b[k - j])
  {
  }

  /** A reference inside a text, with no other `$` around it: what shows its value takes its
      place, and the rest stays. */
  lemma EmbeddedReference(a: string, w: string, r: Ref, b: string, seen: Outcomes, t: string)
    requires Nameable(r) && w == RefText(r) && '$' !in a && '$' !in b
    requires (exists c <- a :: !Blank(c)) || exists c <- b :: !Blank(c)
    requires Shows(ValueOf(r, seen), t)
    ensures Resolves(Atom(Text(a + w + b)), Atom(Text(a + t + b)), seen)
  {
    Middle(a, w, b);
    BeginsIffMatched(a + w + b, |a|, r);
    LookupIsValue(r, seen);
    PrintedShows(ValueOf(r, seen), t);
    OneReferenceResolves(a + w + b, |a|, |a| + |w|, r, seen);
  }

  lemma OneReferenceResolves(s: string, i: nat, j: nat, r: Ref, seen: Outcomes)
    requires i < j <= |s| && MatchAt(s, i) == Found(r, j)
    requires forall k :: 0 <= k < i || j <= k < |s| ==> s[k] != '$'
    requires exists k :: (0 <= k < i || j <= k < |s|) && !Blank(s[k])
    ensures Resolves(Atom(Text(s)), Atom(Text(s[..i] + Printed(Lookup(r, seen)) + s[j..])), seen)
  {
    forall q ensures !Alone(s, q) { if Alone(s, q) { NotAlone(s, i, j, r, q); } }
    forall q ensures Whole(s) != Some(q) { WholeIff(s, q); }
    FillAround(s, i, j, r, seen);
    TextIsSubstituted(s, SubstituteText(s, seen), seen);
  }

  // ---- what a node does --------------------------------------------------------------

  /** The outcome of a node whose execution gave this reply. */
  predicate Makes(reply: Reply, o: Outcome) {
    match reply
    case Returned(t) =>
      && o.Ran? && o.ok == t.ok && o.result == Some(t)
      && (t.ok ==> o.error == "")
      && (!t.ok ==> o.error == if t.error != "" then t.error else "node returned ok=false")
    case Raised(m) => o == Ran(false, None, m)
  }

  /** The outcome is that of executing the node on its payload, resolved by these outcomes. */
  ghost predicate RanOn(exec: Execute, n: Node, seen: Outcomes, o: Outcome) {
    && (exists w :: Resolves(n.payload, w, seen))
    && forall w :: Resolves(n.payload, w, seen) ==> Makes(exec(n, w), o)
  }

  lemma NodeRunsOnResolved(exec: Execute, n: Node, seen: Outcomes)
    ensures RanOn(exec, n, seen, RunNode(exec, n, seen))
  {
    forall w ensures Resolves(n.payload, w, seen) <==> w == Substitute(n.payload, seen) {
      SubstituteResolves(n.payload, w, seen);
    }
  }

  /** In any run, what executed did so on its payload with every reference replaced by what
      the named node ended with, and has the outcome that the executor's reply to it makes. */
  lemma ExecutedOnResolved(spec: Spec, exec: Execute, run: seq<State>, id: string)
    requires Planned(spec) && IsRun(spec, exec, run)
    requires var s := run[|run| - 1]; id in s.outcomes && s.outcomes[id].Ran?
    ensures var s := run[|run| - 1]; Has(spec, id) && RanOn(exec, ById(spec, id), s.outcomes, s.outcomes[id])
  {
    var s := run[|run| - 1];
    RunIsSafe(spec, exec, run);
    assert NodeSafe(spec, exec, s, id);
    var n := ById(spec, id);
    forall d <- n.dependsOn
      ensures d in s.outcomes && Has(spec, d) && s.outcomes[d] == Workflow.Reference(spec, exec, d)
    {
      assert NodeSafe(spec, exec, s, d);
    }
    RefRuns(spec, exec, n, s.outcomes);
    NodeRunsOnResolved(exec, n, s.outcomes);
  }
}
