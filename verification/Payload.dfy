/** `${nodes.<id>.<field>}` references: how they are found in a payload and how
    the values produced so far are substituted for them. */
module Payload {

  datatype Scalar = Null | Bool(b: bool) | Int(n: int) | Text(s: string)

  /** A payload: JSON with insertion-ordered objects. Array items carry the empty key. */
  datatype Json = Atom(v: Scalar) | List(items: Members) | Dict(entries: Members)
  datatype Members = End | Member(key: string, value: Json, rest: Members)

  /** What a kind hands back. */
  datatype TaskResult = TaskResult(ok: bool, stdout: string, stderr: string,
                                   exitCode: Scalar, error: string, decision: string)

  datatype Option<+T> = None | Some(value: T)

  /** What happened to one node; `Ran` covers the states "succeeded" and "failed". */
  datatype Outcome = Ran(ok: bool, result: Option<TaskResult>, error: string) | Skipped | Cancelled {
    predicate Succeeded() { Ran? && ok }
  }
  type Outcomes = map<string, Outcome>

  const REFERENCEABLE_FIELDS := {"stdout", "stderr", "exit_code", "ok", "error", "decision"}

  datatype Ref = Ref(id: string, field: string)

  // ---------------------------------------------------------------------
  // The reference pattern
  // ---------------------------------------------------------------------

  predicate FieldChar(c: char) {
    'A' <= c <= 'Z' || 'a' <= c <= 'z' || '0' <= c <= '9' || c == '_'
  }

  predicate IdChar(c: char) { FieldChar(c) || c == '-' }

  const OPENING: string := "${nodes."

  /** End of the longest run of id (or field) characters that starts at `i`. */
  function RunEnd(s: string, i: nat, dash: bool): (e: nat)
    requires i <= |s|
    ensures i <= e <= |s|
    ensures forall k :: i <= k < e ==> FieldChar(s[k]) || (dash && s[k] == '-')
    ensures e < |s| ==> !(FieldChar(s[e]) || (dash && s[e] == '-'))
    decreases |s| - i
  {
    if i < |s| && (FieldChar(s[i]) || (dash && s[i] == '-')) then RunEnd(s, i + 1, dash) else i
  }

  datatype Match = NoMatch | Found(ref: Ref, end: nat)

  /** The pattern tried at one position. */
  function MatchAt(s: string, i: nat): (m: Match)
    requires i <= |s|
    ensures m.Found? ==> i < m.end <= |s|
  {
    var a := i + |OPENING|;
    if a > |s| || s[i..a] != OPENING then NoMatch else
    var b := RunEnd(s, a, true);
    if b == a || b == |s| || s[b] != '.' then NoMatch else
    var c := RunEnd(s, b + 1, false);
    if c == b + 1 || c == |s| || s[c] != '}' then NoMatch else
    Found(Ref(s[a..b], s[b + 1..c]), c + 1)
  }

  predicate WellNamed(r: Ref) {
    && |r.id| > 0 && (forall k :: 0 <= k < |r.id| ==> IdChar(r.id[k]))
    && |r.field| > 0 && (forall k :: 0 <= k < |r.field| ==> FieldChar(r.field[k]))
  }

  /** `s[i..e]` is the text `${nodes.<id>.<field>}`. */
  predicate Spells(s: string, i: nat, r: Ref, e: nat) {
    var b := i + |OPENING| + |r.id|;
    && WellNamed(r) && e == b + |r.field| + 2 && e <= |s|
    && s[i..i + |OPENING|] == OPENING && s[i + |OPENING|..b] == r.id && s[b] == '.'
    && s[b + 1..e - 1] == r.field && s[e - 1] == '}'
  }

  /** A run of name characters that is followed by another character ends there. */
  lemma RunEndAt(s: string, i: nat, name: string, dash: bool)
    requires i + |name| < |s| && s[i..i + |name|] == name
    requires forall k :: 0 <= k < |name| ==> FieldChar(name[k]) || (dash && name[k] == '-')
    requires !(FieldChar(s[i + |name|]) || (dash && s[i + |name|] == '-'))
    ensures RunEnd(s, i, dash) == i + |name|
  {
    var x := RunEnd(s, i, dash);
    assert forall k :: i <= k < i + |name| ==> s[k] == name[k - i];
  }

  lemma SpelledIsMatched(s: string, i: nat, r: Ref, e: nat)
    requires Spells(s, i, r, e)
    ensures MatchAt(s, i) == Found(r, e)
  {
    RunEndAt(s, i + |OPENING|, r.id, true);
    RunEndAt(s, i + |OPENING| + |r.id| + 1, r.field, false);
  }

  lemma MatchedIsSpelled(s: string, i: nat)
    requires i <= |s| && MatchAt(s, i).Found?
    ensures Spells(s, i, MatchAt(s, i).ref, MatchAt(s, i).end)
  {
    var a := i + |OPENING|;
    var b := RunEnd(s, a, true);
    var c := RunEnd(s, b + 1, false);
    var r := MatchAt(s, i).ref;
    assert r.id == s[a..b] && r.field == s[b + 1..c];
    forall k | 0 <= k < |r.id| ensures IdChar(r.id[k]) { assert r.id[k] == s[a + k]; }
    forall k | 0 <= k < |r.field| ensures FieldChar(r.field[k]) { assert r.field[k] == s[b + 1 + k]; }
  }

  /** The pattern matches at `i` exactly when the text there spells a reference. */
  lemma MatchIffSpelled(s: string, i: nat, r: Ref, e: nat)
    requires i <= |s|
    ensures MatchAt(s, i) == Found(r, e) <==> Spells(s, i, r, e)
  {
    if Spells(s, i, r, e) {
      SpelledIsMatched(s, i, r, e);
    } else if MatchAt(s, i).Found? {
      MatchedIsSpelled(s, i);
    }
  }

  /** A text cut by the pattern, leftmost first and without overlaps. */
  datatype Piece = Lit(c: char) | Hole(ref: Ref)

  function Pieces(s: string, i: nat): seq<Piece>
    requires i <= |s|
    decreases |s| - i
  {
    if i == |s| then [] else
    match MatchAt(s, i)
    case NoMatch => [Lit(s[i])] + Pieces(s, i + 1)
    case Found(r, e) => [Hole(r)] + Pieces(s, e)
  }

  function Holes(ps: seq<Piece>): seq<Ref> {
    if ps == [] then [] else (if ps[0].Hole? then [ps[0].ref] else []) + Holes(ps[1..])
  }

  /** `str.strip` on ASCII text. */
  predicate Space(c: char) { c == ' ' || '\t' <= c <= '\r' || '\U{1c}' <= c <= '\U{1f}' }

  function StripLeft(s: string): nat
    ensures StripLeft(s) <= |s|
    ensures forall k :: 0 <= k < StripLeft(s) ==> Space(s[k])
  {
    if s != [] && Space(s[0]) then 1 + StripLeft(s[1..]) else 0
  }

  function StripRight(s: string): nat
    ensures StripRight(s) <= |s|
    ensures forall k :: StripRight(s) <= k < |s| ==> Space(s[k])
  {
    if s != [] && Space(s[|s| - 1]) then StripRight(s[..|s| - 1]) else |s|
  }

  function Strip(s: string): string {
    var t := s[StripLeft(s)..];
    t[..StripRight(t)]
  }

  /** What `strip` takes off, by code point. */
  predicate Blank(c: char) { c == ' ' || 9 <= c as int <= 13 || 28 <= c as int <= 31 }

  lemma {:induction false} StripLeftAt(s: string, i: nat)
    requires i < |s| && !Space(s[i]) && forall k :: 0 <= k < i ==> Space(s[k])
    ensures StripLeft(s) == i
    decreases i
  {
    if i > 0 { StripLeftAt(s[1..], i - 1); }
  }

  lemma {:induction false} StripRightAt(s: string, j: nat)
    requires 0 < j <= |s| && !Space(s[j - 1]) && forall k :: j <= k < |s| ==> Space(s[k])
    ensures StripRight(s) == j
    decreases |s| - j
  {
    if j < |s| { StripRightAt(s[..|s| - 1], j); }
  }

  /** The reference a whole string amounts to, if it is one. */
  function Whole(s: string): Option<Ref> {
    var t := Strip(s);
    match MatchAt(t, 0)
    case NoMatch => None
    case Found(r, e) => if e == |t| then Some(r) else None
  }

  // ---------------------------------------------------------------------
  // Reading and substituting
  // ---------------------------------------------------------------------

  /** `_references`: every reference in a nested payload, in order. */
  function References(v: Json): seq<Ref> {
    match v
    case Atom(Text(s)) => Holes(Pieces(s, 0))
    case Atom(_) => []
    case List(items) => ReferencesInside(items)
    case Dict(entries) => ReferencesInside(entries)
  }

  function ReferencesInside(m: Members): seq<Ref> {
    match m
    case End => []
    case Member(_, v, rest) => References(v) + ReferencesInside(rest)
  }

  /** `_lookup`. */
  function Lookup(r: Ref, outcomes: Outcomes): Scalar {
    if r.id !in outcomes then Null else
    var o := outcomes[r.id];
    if r.field == "ok" then Bool(o.Succeeded())
    else if r.field == "error" then Text(if o.Ran? then o.error else "")
    else if !o.Ran? || o.result.None? then Null else
    var t := o.result.value;
    match r.field
    case "stdout" => Text(t.stdout)
    case "stderr" => Text(t.stderr)
    case "exit_code" => t.exitCode
    case "decision" => Text(t.decision)
    case _ => Null
  }

  function Digits(n: nat): string {
    if n < 10 then [('0' as int + n) as char] else Digits(n / 10) + Digits(n % 10)
  }

  /** `str(value or "")`: zero, false and null all print as nothing. */
  function Printed(v: Scalar): string {
    match v
    case Null => ""
    case Bool(b) => if b then "True" else ""
    case Int(n) => if n == 0 then "" else if n < 0 then "-" + Digits(-n) else Digits(n)
    case Text(s) => s
  }

  function Fill(ps: seq<Piece>, outcomes: Outcomes): string {
    if ps == [] then "" else
    (match ps[0] case Lit(c) => [c] case Hole(r) => Printed(Lookup(r, outcomes))) + Fill(ps[1..], outcomes)
  }

  function SubstituteText(s: string, outcomes: Outcomes): Scalar {
    match Whole(s)
    case Some(r) => Lookup(r, outcomes)
    case None => Text(Fill(Pieces(s, 0), outcomes))
  }

  /** `substitute`. */
  function Substitute(v: Json, outcomes: Outcomes): Json {
    match v
    case Atom(Text(s)) => Atom(SubstituteText(s, outcomes))
    case Atom(_) => v
    case List(items) => List(SubstituteInside(items, outcomes))
    case Dict(entries) => Dict(SubstituteInside(entries, outcomes))
  }

  function SubstituteInside(m: Members, outcomes: Outcomes): Members {
    match m
    case End => End
    case Member(k, v, rest) => Member(k, Substitute(v, outcomes), SubstituteInside(rest, outcomes))
  }

  // The same with a record of every lookup made, in order.

  function FillReading(ps: seq<Piece>, outcomes: Outcomes): (string, seq<Ref>) {
    if ps == [] then ("", []) else
    var (rest, made) := FillReading(ps[1..], outcomes);
    (match ps[0]
     case Lit(c) => ([c] + rest, made)
     case Hole(r) => (Printed(Lookup(r, outcomes)) + rest, [r] + made))
  }

  function TextReading(s: string, outcomes: Outcomes): (Scalar, seq<Ref>) {
    match Whole(s)
    case Some(r) => (Lookup(r, outcomes), [r])
    case None => var (text, made) := FillReading(Pieces(s, 0), outcomes); (Text(text), made)
  }

  function Reading(v: Json, outcomes: Outcomes): (Json, seq<Ref>) {
    match v
    case Atom(Text(s)) => var (value, made) := TextReading(s, outcomes); (Atom(value), made)
    case Atom(_) => (v, [])
    case List(items) => var (more, made) := ReadingInside(items, outcomes); (List(more), made)
    case Dict(entries) => var (more, made) := ReadingInside(entries, outcomes); (Dict(more), made)
  }

  function ReadingInside(m: Members, outcomes: Outcomes): (Members, seq<Ref>) {
    match m
    case End => (End, [])
    case Member(k, v, rest) =>
      var (value, first) := Reading(v, outcomes);
      var (more, later) := ReadingInside(rest, outcomes);
      (Member(k, value, more), first + later)
  }

  /** Characters before a `$` are never part of a match. */
  lemma {:induction false} SkipPlain(s: string, i: nat, j: nat)
    requires i <= j <= |s|
    requires forall k :: i <= k < j ==> s[k] != '$'
    ensures Holes(Pieces(s, i)) == Holes(Pieces(s, j))
    decreases j - i
  {
    if i < j {
      assert i + |OPENING| <= |s| ==> s[i..i + |OPENING|][0] == s[i];
      assert Pieces(s, i)[1..] == Pieces(s, i + 1);
      SkipPlain(s, i + 1, j);
    }
  }

  lemma SpaceFrom(s: string, lead: nat, m: nat)
    requires lead <= |s| && m <= |s| - lead && forall k :: m <= k < |s| - lead ==> Space(s[lead..][k])
    ensures forall k :: lead + m <= k < |s| ==> Space(s[k])
  {
    forall k | lead + m <= k < |s| ensures Space(s[k]) { assert s[lead..][k - lead] == s[k]; }
  }

  lemma OnlySpaceBehind(s: string)
    ensures forall k :: StripLeft(s) + StripRight(s[StripLeft(s)..]) <= k < |s| ==> Space(s[k])
  {
    SpaceFrom(s, StripLeft(s), StripRight(s[StripLeft(s)..]));
  }

  /** A reference with no `$` before or behind it is the only one. */
  lemma OneReferenceBetween(s: string, lead: nat, tail: nat, r: Ref)
    requires lead <= tail <= |s| && Spells(s, lead, r, tail)
    requires forall k :: 0 <= k < lead || tail <= k < |s| ==> s[k] != '$'
    ensures Holes(Pieces(s, 0)) == [r]
  {
    SpelledIsMatched(s, lead, r, tail);
    SkipPlain(s, 0, lead);
    assert Pieces(s, lead)[1..] == Pieces(s, tail);
    SkipPlain(s, tail, |s|);
  }

  /** A string that is one reference up to whitespace contains that reference and no other. */
  lemma WholeIsTheOnlyReference(s: string)
    requires Whole(s).Some?
    ensures Holes(Pieces(s, 0)) == [Whole(s).value]
  {
    var lead := StripLeft(s);
    var tail := lead + StripRight(s[lead..]);
    var t := Strip(s);
    assert s[lead..tail] == t;
    var r := Whole(s).value;
    MatchIffSpelled(t, 0, r, |t|);
    WholeSpelledInside(s, lead, tail, r);
    OnlySpaceBehind(s);
    OneReferenceBetween(s, lead, tail, r);
  }

  lemma SubSlice(s: string, lead: nat, tail: nat, a: nat, b: nat)
    requires lead <= tail <= |s| && a <= b <= tail - lead
    ensures s[lead..tail][a..b] == s[lead + a..lead + b]
  {
    var x, y := s[lead..tail][a..b], s[lead + a..lead + b];
    assert |x| == |y|;
    forall k | 0 <= k < b - a ensures x[k] == y[k] {}
  }

  lemma WholeSpelledInside(s: string, lead: nat, tail: nat, r: Ref)
    requires lead <= tail <= |s| && Spells(s[lead..tail], 0, r, tail - lead)
    ensures Spells(s, lead, r, tail)
  {
    var t := s[lead..tail];
    var b := |OPENING| + |r.id|;
    SubSlice(s, lead, tail, 0, |OPENING|);
    SubSlice(s, lead, tail, |OPENING|, b);
    SubSlice(s, lead, tail, b + 1, |t| - 1);
    assert s[lead + b] == t[b] && s[tail - 1] == t[|t| - 1];
  }

  lemma {:induction false} FillReadsHoles(ps: seq<Piece>, outcomes: Outcomes)
    ensures FillReading(ps, outcomes) == (Fill(ps, outcomes), Holes(ps))
  {
    if ps != [] {
      FillReadsHoles(ps[1..], outcomes);
      assert [] + Holes(ps[1..]) == Holes(ps[1..]);
    }
  }

  /** On a string, the lookups are the references of the string. */
  lemma TextReadsReferences(s: string, outcomes: Outcomes)
    ensures TextReading(s, outcomes) == (SubstituteText(s, outcomes), Holes(Pieces(s, 0)))
  {
    if Whole(s).Some? { WholeIsTheOnlyReference(s); } else { FillReadsHoles(Pieces(s, 0), outcomes); }
  }

  /** On any payload, the lookups `substitute` makes are exactly the references that
      validation saw, in order. */
  lemma {:induction false} ReadsAreReferences(v: Json, outcomes: Outcomes)
    ensures Reading(v, outcomes) == (Substitute(v, outcomes), References(v))
  {
    match v
    case Atom(Text(s)) => TextReadsReferences(s, outcomes);
    case Atom(_) =>
    case List(items) => ReadsInsideAreReferences(items, outcomes);
    case Dict(entries) => ReadsInsideAreReferences(entries, outcomes);
  }

  lemma {:induction false} ReadsInsideAreReferences(m: Members, outcomes: Outcomes)
    ensures ReadingInside(m, outcomes) == (SubstituteInside(m, outcomes), ReferencesInside(m))
  {
    if m.Member? {
      ReadsAreReferences(m.value, outcomes);
      ReadsInsideAreReferences(m.rest, outcomes);
    }
  }

  ghost predicate AgreeOn(refs: seq<Ref>, a: Outcomes, b: Outcomes) {
    forall r <- refs :: Lookup(r, a) == Lookup(r, b)
  }

  lemma {:induction false} FillFrame(ps: seq<Piece>, a: Outcomes, b: Outcomes)
    requires AgreeOn(Holes(ps), a, b)
    ensures Fill(ps, a) == Fill(ps, b)
  {
    if ps != [] {
      forall r <- Holes(ps[1..]) ensures r in Holes(ps) {}
      FillFrame(ps[1..], a, b);
    }
  }

  /** The resolved payload depends on nothing but the values of its references. */
  lemma {:induction false} SubstituteFrame(v: Json, a: Outcomes, b: Outcomes)
    requires AgreeOn(References(v), a, b)
    ensures Substitute(v, a) == Substitute(v, b)
  {
    match v
    case Atom(Text(s)) =>
      if Whole(s).None? {
        FillFrame(Pieces(s, 0), a, b);
      } else {
        WholeIsTheOnlyReference(s);
      }
    case Atom(_) =>
    case List(items) => SubstituteInsideFrame(items, a, b);
    case Dict(entries) => SubstituteInsideFrame(entries, a, b);
  }

  lemma {:induction false} SubstituteInsideFrame(m: Members, a: Outcomes, b: Outcomes)
    requires AgreeOn(ReferencesInside(m), a, b)
    ensures SubstituteInside(m, a) == SubstituteInside(m, b)
  {
    if m.Member? {
      SubstituteFrame(m.value, a, b);
      SubstituteInsideFrame(m.rest, a, b);
    }
  }
}
