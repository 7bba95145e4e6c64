/** One field of a cron expression: the parser and the grammar it accepts.
    Fields come from splitting on whitespace, so they contain none. */
module CronField {
  import opened Payload

  type Names = map<string, int>

  const MONTHS: Names := map["jan" := 1, "feb" := 2, "mar" := 3, "apr" := 4, "may" := 5, "jun" := 6,
                             "jul" := 7, "aug" := 8, "sep" := 9, "oct" := 10, "nov" := 11, "dec" := 12]
  const DOWS: Names := map["sun" := 0, "mon" := 1, "tue" := 2, "wed" := 3, "thu" := 4, "fri" := 5, "sat" := 6]
  const NO_NAMES: Names := map[]

  datatype FieldError = EmptyElement | BadStep | BadNumber | InvertedRange | OutOfRange
  datatype Parse<+T> = Ok(value: T) | Error(error: FieldError)

  /** The values `start`, `start + step`, ... up to `end`. */
  datatype Span = Span(start: int, end: int, step: int)

  predicate InSpan(sp: Span, v: int)
    requires sp.step > 0
  {
    sp.start <= v <= sp.end && (v - sp.start) % sp.step == 0
  }

  function SpanSet(sp: Span): set<int>
    requires sp.step > 0
  {
    set v | sp.start <= v <= sp.end && InSpan(sp, v)
  }

  function IndexOf(s: string, c: char): (i: nat)
    ensures i <= |s| && (i < |s| ==> s[i] == c) && forall k :: 0 <= k < i ==> s[k] != c
  {
    if s == "" || s[0] == c then 0 else 1 + IndexOf(s[1..], c)
  }

  /** `s.split(c)`. */
  function Split(s: string, c: char): (parts: seq<string>)
    ensures |parts| > 0
    decreases |s|
  {
    var i := IndexOf(s, c);
    if i == |s| then [s] else [s[..i]] + Split(s[i + 1..], c)
  }

  function LowerChar(c: char): char { if 'A' <= c <= 'Z' then ((c as int) + 32) as char else c }

  function Lower(s: string): string { seq(|s|, i requires 0 <= i < |s| => LowerChar(s[i])) }

  predicate IsDigits(s: string) { |s| > 0 && forall k :: 0 <= k < |s| ==> '0' <= s[k] <= '9' }

  function Num(s: string): nat
    requires forall k :: 0 <= k < |s| ==> '0' <= s[k] <= '9'
  {
    if s == "" then 0 else Num(s[..|s| - 1]) * 10 + (s[|s| - 1] as int - '0' as int)
  }

  /** `_cron_number`: a name is recognised by its first three letters. */
  function CronNumber(text: string, names: Names): Parse<int> {
    var key := if |text| < 3 then text else text[..3];
    if key in names then Ok(names[key])
    else if !IsDigits(text) then Error(BadNumber)
    else Ok(Num(text))
  }

  /** The bounds of an element without its step. */
  function Bounds(part: string, low: int, high: int, names: Names): Parse<(int, int)> {
    var dash := IndexOf(part, '-');
    if part == "*" then Ok((low, high))
    else if part != "" && '-' in part[1..] then
      match CronNumber(part[..dash], names)
      case Error(e) => Error(e)
      case Ok(a) =>
        match CronNumber(if dash < |part| then part[dash + 1..] else "", names)
        case Error(e) => Error(e)
        case Ok(b) => Ok((a, b))
    else
      match CronNumber(part, names)
      case Error(e) => Error(e)
      case Ok(a) => Ok((a, a))
  }

  /** One comma-separated element. */
  function ParsePart(raw: string, low: int, high: int, names: Names): (r: Parse<Span>)
    ensures r.Ok? ==> low <= r.value.start <= r.value.end <= high && r.value.step >= 1
  {
    var part := Lower(raw);
    var slash := IndexOf(part, '/');
    if part == "" then Error(EmptyElement)
    else if slash < |part| && (!IsDigits(part[slash + 1..]) || Num(part[slash + 1..]) < 1) then Error(BadStep)
    else
      var step := if slash < |part| then Num(part[slash + 1..]) else 1;
      var head := if slash == 0 then "*" else part[..slash];
      match Bounds(head, low, high, names)
      case Error(e) => Error(e)
      case Ok((start, end)) =>
        if start > end then Error(InvertedRange)
        else if start < low || end > high then Error(OutOfRange)
        else Ok(Span(start, end, step))
  }

  function PartSet(part: string, low: int, high: int, names: Names): Parse<set<int>> {
    match ParsePart(part, low, high, names)
    case Error(e) => Error(e)
    case Ok(sp) => Ok(SpanSet(sp))
  }

  function Both(a: Parse<set<int>>, b: Parse<set<int>>): Parse<set<int>> {
    if a.Error? then a else if b.Error? then b else Ok(a.value + b.value)
  }

  /** The union of the elements' values; the first bad element is the error. */
  function Union(rs: seq<Parse<set<int>>>): Parse<set<int>> {
    if rs == [] then Ok({}) else Both(rs[0], Union(rs[1..]))
  }

  function PartSets(parts: seq<string>, low: int, high: int, names: Names): (rs: seq<Parse<set<int>>>)
    ensures |rs| == |parts| && forall i :: 0 <= i < |parts| ==> rs[i] == PartSet(parts[i], low, high, names)
  {
    seq(|parts|, i requires 0 <= i < |parts| => PartSet(parts[i], low, high, names))
  }

  /** The values of a field. */
  function ParseField(text: string, low: int, high: int, names: Names): Parse<set<int>> {
    Union(PartSets(Split(text, ','), low, high, names))
  }

  lemma PartInRange(part: string, low: int, high: int, names: Names)
    ensures var r := PartSet(part, low, high, names);
      r.Ok? ==> r.value != {} && forall v <- r.value :: low <= v <= high
  {
    var p := ParsePart(part, low, high, names);
    if p.Ok? { assert InSpan(p.value, p.value.start) && p.value.start in SpanSet(p.value); }
  }

  lemma {:induction false} UnionInRange(rs: seq<Parse<set<int>>>, low: int, high: int)
    requires Union(rs).Ok? && forall r <- rs :: r.Ok? ==> r.value != {} && forall v <- r.value :: low <= v <= high
    ensures (rs != [] ==> Union(rs).value != {}) && forall v <- Union(rs).value :: low <= v <= high
  {
    if rs != [] { UnionInRange(rs[1..], low, high); }
  }

  /** An accepted field matches something, and nothing outside its range. */
  lemma FieldInRange(text: string, low: int, high: int, names: Names)
    requires ParseField(text, low, high, names).Ok?
    ensures var r := ParseField(text, low, high, names).value;
      r != {} && forall v <- r :: low <= v <= high
  {
    var parts := Split(text, ',');
    var rs := PartSets(parts, low, high, names);
    forall r <- rs ensures r.Ok? ==> r.value != {} && forall v <- r.value :: low <= v <= high {
      var i :| 0 <= i < |parts| && r == PartSet(parts[i], low, high, names);
      PartInRange(parts[i], low, high, names);
    }
    UnionInRange(rs, low, high);
  }

  lemma {:induction false} UnionSnoc(rs: seq<Parse<set<int>>>, i: nat)
    requires i < |rs|
    ensures Union(rs[..i + 1]) == Both(Union(rs[..i]), rs[i])
    ensures Union(rs[..i + 1]).Error? ==> Union(rs) == Union(rs[..i + 1])
  {
    if i == 0 {
      assert rs[..1][1..] == [];
      if rs[0].Ok? { assert rs[0].value + {} == rs[0].value == {} + rs[0].value; }
    } else {
      UnionSnoc(rs[1..], i - 1);
      assert rs[1..][..i] == rs[..i + 1][1..] && rs[1..][..i - 1] == rs[..i][1..];
      BothAssoc(rs[0], Union(rs[1..i]), rs[i]);
    }
  }

  lemma BothAssoc(a: Parse<set<int>>, b: Parse<set<int>>, c: Parse<set<int>>)
    ensures Both(Both(a, b), c) == Both(a, Both(b, c))
  {
    if a.Ok? && b.Ok? && c.Ok? { assert a.value + b.value + c.value == a.value + (b.value + c.value); }
  }

  /** `_parse_cron_field`: grows the value set element by element. */
  method ParseCronField(text: string, low: int, high: int, names: Names) returns (r: Parse<set<int>>)
    ensures r == ParseField(text, low, high, names)
  {
    var values: set<int> := {};
    var parts := Split(text, ',');
    ghost var rs := PartSets(parts, low, high, names);
    for i := 0 to |parts|
      invariant Union(rs[..i]) == Ok(values)
    {
      UnionSnoc(rs, i);
      var sp := ParsePart(parts[i], low, high, names);
      if sp.Error? { return Error(sp.error); }
      values := values + SpanSet(sp.value);
    }
    assert rs[..|parts|] == rs;
    r := Ok(values);
  }

  // ---------------------------------------------------------------------
  // The grammar: what a text denotes, and which texts denote something
  // ---------------------------------------------------------------------

  datatype Endpoint = Plain(n: nat) | Named(name: string)
  datatype Base = Every | One(e: Endpoint) | FromTo(a: Endpoint, b: Endpoint)
  datatype Element = Element(base: Base, step: Option<nat>)

  predicate Letters(s: string) { |s| == 3 && forall k :: 0 <= k < |s| ==> 'a' <= s[k] <= 'z' }

  predicate NamesAreLetters(names: Names) { forall k <- names :: Letters(k) }

  /** A number in digits, or any text that begins with a name. */
  predicate EndpointIs(s: string, x: Endpoint, names: Names) {
    match x
    case Plain(n) => IsDigits(s) && Num(s) == n
    case Named(k) => k in names && (if |s| < 3 then s else s[..3]) == k
  }

  predicate RangeAt(s: string, d: nat, x: Endpoint, y: Endpoint, names: Names) {
    d < |s| && s[d] == '-' && '-' !in s[..d] && EndpointIs(s[..d], x, names) && EndpointIs(s[d + 1..], y, names)
  }

  /** `*`, one endpoint, or two joined by the first dash. */
  ghost predicate BaseIs(s: string, b: Base, names: Names) {
    match b
    case Every => s == "*"
    case One(x) => '-' !in s && EndpointIs(s, x, names)
    case FromTo(x, y) => exists d: nat :: RangeAt(s, d, x, y, names)
  }

  ghost predicate SteppedAt(p: string, c: nat, b: Base, n: nat, names: Names) {
    && c < |p| && p[c] == '/' && '/' !in p[..c] && IsDigits(p[c + 1..]) && Num(p[c + 1..]) == n
    && if c == 0 then b.Every? else BaseIs(p[..c], b, names)
  }

  /** A base, with a step behind the first slash; before a slash `*` may be left out. */
  ghost predicate ElementIs(raw: string, e: Element, names: Names) {
    match e.step
    case None => '/' !in Lower(raw) && BaseIs(Lower(raw), e.base, names)
    case Some(n) => exists c: nat :: SteppedAt(Lower(raw), c, e.base, n, names)
  }

  predicate KnownEndpoint(e: Endpoint, names: Names) { e.Named? ==> e.name in names }

  function EndpointValue(e: Endpoint, names: Names): int
    requires KnownEndpoint(e, names)
  {
    match e case Plain(n) => n case Named(s) => names[s]
  }

  predicate KnownBase(b: Base, names: Names) {
    match b
    case Every => true
    case One(x) => KnownEndpoint(x, names)
    case FromTo(x, y) => KnownEndpoint(x, names) && KnownEndpoint(y, names)
  }

  function Ends(b: Base, low: int, high: int, names: Names): (int, int)
    requires KnownBase(b, names)
  {
    match b
    case Every => (low, high)
    case One(x) => (EndpointValue(x, names), EndpointValue(x, names))
    case FromTo(x, y) => (EndpointValue(x, names), EndpointValue(y, names))
  }

  /** In range, not inverted, with a step of at least one. */
  predicate WellFormed(e: Element, low: int, high: int, names: Names) {
    && KnownBase(e.base, names)
    && low <= Ends(e.base, low, high, names).0 <= Ends(e.base, low, high, names).1 <= high
    && (e.step.Some? ==> e.step.value >= 1)
  }

  /** The values an element denotes. */
  function Denoted(e: Element, low: int, high: int, names: Names): (sp: Span)
    requires WellFormed(e, low, high, names)
    ensures sp.step >= 1
  {
    var (a, b) := Ends(e.base, low, high, names);
    Span(a, b, if e.step.Some? then e.step.value else 1)
  }

  /** `v` is reached from `a` in steps of `step`, and not beyond `b`. */
  ghost predicate Reached(a: int, b: int, step: nat, v: int) { v <= b && exists k: nat :: StepsTo(a, step, k, v) }

  predicate StepsTo(a: int, step: nat, k: nat, v: int) { v == a + k * step }

  ghost predicate DenotedBy(e: Element, low: int, high: int, names: Names, v: int)
    requires WellFormed(e, low, high, names)
  {
    var ends := Ends(e.base, low, high, names);
    Reached(ends.0, ends.1, if e.step.Some? then e.step.value else 1, v)
  }

  ghost predicate Denotes(es: seq<Element>, low: int, high: int, names: Names, v: int)
    requires forall e <- es :: WellFormed(e, low, high, names)
  {
    exists e <- es :: DenotedBy(e, low, high, names, v)
  }

  lemma Exactly(d: int, n: int)
    requires n > 0 && d % n == 0
    ensures d == (d / n) * n
  {
  }

  lemma AtLeast(n: int, d: int)
    requires n > 0 && d >= 1
    ensures n * d >= n
  {
  }

  lemma NoRoom(n: int, d: int, r: int)
    requires 0 <= r < n && n * d == r
    ensures r == 0
  {
    if r > 0 && d >= 1 { AtLeast(n, d); }
  }

  lemma TimesIsMultiple(k: nat, n: int)
    requires n > 0
    ensures (k * n) % n == 0 && k * n >= 0
  {
    var x := k * n;
    var q, r := x / n, x % n;
    assert x == n * q + r;
    assert n * (k - q) == r;
    NoRoom(n, k - q, r);
  }

  /** The values of a span are those reached by its steps. */
  lemma SpanIsReached(sp: Span, v: int)
    requires sp.step > 0
    ensures InSpan(sp, v) <==> Reached(sp.start, sp.end, sp.step, v)
  {
    if InSpan(sp, v) {
      Exactly(v - sp.start, sp.step);
      assert StepsTo(sp.start, sp.step, (v - sp.start) / sp.step, v);
    }
    if Reached(sp.start, sp.end, sp.step, v) {
      var k: nat :| StepsTo(sp.start, sp.step, k, v);
      TimesIsMultiple(k, sp.step);
      assert v - sp.start == k * sp.step;
    }
  }

  // What is written is read ...

  lemma EndpointParses(s: string, x: Endpoint, names: Names)
    requires NamesAreLetters(names) && EndpointIs(s, x, names)
    ensures KnownEndpoint(x, names) && CronNumber(s, names) == Ok(EndpointValue(x, names))
    ensures s != "" && s != "*" && s[0] != '-'
  {
    var key := if |s| < 3 then s else s[..3];
    if x.Plain? {
      assert key[0] == s[0];
      assert forall k <- names :: 'a' <= k[0];
    } else {
      assert Letters(key) && key[0] == s[0];
    }
  }

  lemma FirstOf(s: string, c: char, i: nat)
    requires i < |s| && s[i] == c && c !in s[..i]
    ensures IndexOf(s, c) == i
  {
    assert forall k :: 0 <= k < i ==> s[..i][k] == s[k];
  }

  lemma RangeParses(s: string, d: nat, x: Endpoint, y: Endpoint, low: int, high: int, names: Names)
    requires NamesAreLetters(names) && RangeAt(s, d, x, y, names)
    ensures KnownBase(FromTo(x, y), names) && Bounds(s, low, high, names) == Ok(Ends(FromTo(x, y), low, high, names))
  {
    EndpointParses(s[..d], x, names);
    EndpointParses(s[d + 1..], y, names);
    FirstOf(s, '-', d);
    assert s[1..][d - 1] == '-';
  }

  lemma BaseParses(s: string, b: Base, low: int, high: int, names: Names)
    requires NamesAreLetters(names) && BaseIs(s, b, names)
    ensures KnownBase(b, names) && Bounds(s, low, high, names) == Ok(Ends(b, low, high, names)) && s != ""
  {
    match b
    case Every =>
    case One(x) => EndpointParses(s, x, names);
    case FromTo(x, y) =>
      var d: nat :| RangeAt(s, d, x, y, names);
      RangeParses(s, d, x, y, low, high, names);
  }

  lemma SteppedParses(raw: string, c: nat, e: Element, low: int, high: int, names: Names)
    requires NamesAreLetters(names) && WellFormed(e, low, high, names) && e.step.Some?
    requires SteppedAt(Lower(raw), c, e.base, e.step.value, names)
    ensures ParsePart(raw, low, high, names) == Ok(Denoted(e, low, high, names))
  {
    var p := Lower(raw);
    FirstOf(p, '/', c);
    BaseParses(if c == 0 then "*" else p[..c], e.base, low, high, names);
  }

  lemma UnsteppedParses(raw: string, e: Element, low: int, high: int, names: Names)
    requires NamesAreLetters(names) && WellFormed(e, low, high, names) && e.step.None?
    requires '/' !in Lower(raw) && BaseIs(Lower(raw), e.base, names)
    ensures ParsePart(raw, low, high, names) == Ok(Denoted(e, low, high, names))
  {
    var p := Lower(raw);
    BaseParses(p, e.base, low, high, names);
    assert IndexOf(p, '/') == |p| && p[..|p|] == p;
  }

  lemma ElementParses(raw: string, e: Element, low: int, high: int, names: Names)
    requires NamesAreLetters(names) && ElementIs(raw, e, names) && WellFormed(e, low, high, names)
    ensures ParsePart(raw, low, high, names) == Ok(Denoted(e, low, high, names))
  {
    if e.step.None? {
      UnsteppedParses(raw, e, low, high, names);
    } else {
      var c: nat :| SteppedAt(Lower(raw), c, e.base, e.step.value, names);
      SteppedParses(raw, c, e, low, high, names);
    }
  }

  // ... and what is read was written.

  lemma EndpointWritten(s: string, names: Names) returns (x: Endpoint)
    requires CronNumber(s, names).Ok?
    ensures EndpointIs(s, x, names) && CronNumber(s, names) == Ok(EndpointValue(x, names))
  {
    var key := if |s| < 3 then s else s[..3];
    x := if key in names then Named(key) else Plain(Num(s));
  }

  lemma BaseWritten(s: string, low: int, high: int, names: Names) returns (b: Base)
    requires NamesAreLetters(names) && Bounds(s, low, high, names).Ok?
    ensures BaseIs(s, b, names) && KnownBase(b, names) && Bounds(s, low, high, names) == Ok(Ends(b, low, high, names))
  {
    var d := IndexOf(s, '-');
    if s == "*" {
      b := Every;
    } else if s != "" && '-' in s[1..] {
      assert d < |s| by { var k :| 0 <= k < |s| - 1 && s[1..][k] == '-'; assert s[k + 1] == '-'; }
      var x := EndpointWritten(s[..d], names);
      var y := EndpointWritten(s[d + 1..], names);
      assert RangeAt(s, d, x, y, names);
      b := FromTo(x, y);
    } else {
      var x := EndpointWritten(s, names);
      EndpointParses(s, x, names);
      assert '-' !in s by { assert s == [s[0]] + s[1..]; }
      b := One(x);
    }
  }

  lemma StarIsEvery(b: Base, names: Names)
    requires NamesAreLetters(names) && BaseIs("*", b, names)
    ensures b.Every?
  {
    match b
    case Every =>
    case One(x) => EndpointParses("*", x, names);
    case FromTo(x, y) =>
  }

  /** A part read with its base is the element of that base. */
  lemma ReadIsWellFormed(raw: string, b: Base, step: Option<nat>, low: int, high: int, names: Names)
    requires ParsePart(raw, low, high, names).Ok? && KnownBase(b, names)
    requires var p, c := Lower(raw), IndexOf(Lower(raw), '/');
      Bounds(if c == 0 then "*" else p[..c], low, high, names) == Ok(Ends(b, low, high, names))
    requires step.Some? ==> step.value >= 1
    ensures WellFormed(Element(b, step), low, high, names)
  {}

  /** A part with a slash: the base before it, the step behind it. */
  lemma SteppedWritten(p: string, c: nat, head: string, b: Base, names: Names)
    requires NamesAreLetters(names) && c == IndexOf(p, '/') < |p| && IsDigits(p[c + 1..])
    requires head == (if c == 0 then "*" else p[..c]) && BaseIs(head, b, names)
    ensures SteppedAt(p, c, b, Num(p[c + 1..]), names)
  {
    if c == 0 { StarIsEvery(b, names); }
  }

  lemma ElementWritten(raw: string, low: int, high: int, names: Names) returns (e: Element)
    requires NamesAreLetters(names) && ParsePart(raw, low, high, names).Ok?
    ensures ElementIs(raw, e, names) && WellFormed(e, low, high, names)
  {
    var p := Lower(raw);
    var c := IndexOf(p, '/');
    var head := if c == 0 then "*" else p[..c];
    var b := BaseWritten(head, low, high, names);
    if c < |p| {
      SteppedWritten(p, c, head, b, names);
      e := Element(b, Some(Num(p[c + 1..])));
      assert SteppedAt(p, c, b, e.step.value, names);
    } else {
      assert p[..c] == p;
      e := Element(b, None);
    }
    ReadIsWellFormed(raw, b, e.step, low, high, names);
  }

  // Whole fields.

  ghost predicate AllWritten(parts: seq<string>, es: seq<Element>, low: int, high: int, names: Names) {
    && |es| == |parts|
    && forall i :: 0 <= i < |es| ==> ElementIs(parts[i], es[i], names) && WellFormed(es[i], low, high, names)
  }

  lemma UnionCons(parts: seq<string>, low: int, high: int, names: Names)
    requires parts != []
    ensures Union(PartSets(parts, low, high, names)) ==
      Both(PartSet(parts[0], low, high, names), Union(PartSets(parts[1..], low, high, names)))
  {
    assert PartSets(parts, low, high, names)[1..] == PartSets(parts[1..], low, high, names);
  }

  lemma WrittenTail(parts: seq<string>, es: seq<Element>, low: int, high: int, names: Names)
    requires AllWritten(parts, es, low, high, names) && parts != []
    ensures AllWritten(parts[1..], es[1..], low, high, names)
  {
    forall i | 0 <= i < |es| - 1
      ensures ElementIs(parts[1..][i], es[1..][i], names) && WellFormed(es[1..][i], low, high, names)
    {
      assert parts[1..][i] == parts[i + 1] && es[1..][i] == es[i + 1];
    }
  }

  lemma WrittenCons(parts: seq<string>, e: Element, es: seq<Element>, low: int, high: int, names: Names)
    requires parts != [] && ElementIs(parts[0], e, names) && WellFormed(e, low, high, names)
    requires AllWritten(parts[1..], es, low, high, names)
    ensures AllWritten(parts, [e] + es, low, high, names)
  {
    forall i | 0 <= i < |es| + 1
      ensures ElementIs(parts[i], ([e] + es)[i], names) && WellFormed(([e] + es)[i], low, high, names)
    {
      if i > 0 { assert parts[i] == parts[1..][i - 1]; }
    }
  }

  lemma ElementIsReached(e: Element, low: int, high: int, names: Names)
    requires WellFormed(e, low, high, names)
    ensures forall v :: InSpan(Denoted(e, low, high, names), v) <==> DenotedBy(e, low, high, names, v)
  {
    var sp := Denoted(e, low, high, names);
    forall v ensures InSpan(sp, v) <==> DenotedBy(e, low, high, names, v) { SpanIsReached(sp, v); }
  }

  lemma DenotesCons(es: seq<Element>, low: int, high: int, names: Names)
    requires es != [] && forall e <- es :: WellFormed(e, low, high, names)
    ensures forall v :: Denotes(es, low, high, names, v) <==>
      InSpan(Denoted(es[0], low, high, names), v) || Denotes(es[1..], low, high, names, v)
  {
    ElementIsReached(es[0], low, high, names);
    assert es[0] in es;
    assert forall e <- es :: e == es[0] || e in es[1..];
    assert forall e <- es[1..] :: e in es;
  }

  lemma {:induction false} PartsDenote(parts: seq<string>, es: seq<Element>, low: int, high: int, names: Names)
    requires NamesAreLetters(names) && AllWritten(parts, es, low, high, names)
    ensures Union(PartSets(parts, low, high, names)).Ok?
    ensures forall v :: v in Union(PartSets(parts, low, high, names)).value <==> Denotes(es, low, high, names, v)
    decreases |parts|
  {
    if parts != [] {
      WrittenTail(parts, es, low, high, names);
      PartsDenote(parts[1..], es[1..], low, high, names);
      ElementParses(parts[0], es[0], low, high, names);
      UnionCons(parts, low, high, names);
      DenotesCons(es, low, high, names);
      assert forall v ::
        v in SpanSet(Denoted(es[0], low, high, names)) <==> InSpan(Denoted(es[0], low, high, names), v);
    }
  }

  lemma {:induction false} PartsWritten(parts: seq<string>, low: int, high: int, names: Names)
      returns (es: seq<Element>)
    requires NamesAreLetters(names) && Union(PartSets(parts, low, high, names)).Ok?
    ensures AllWritten(parts, es, low, high, names)
    decreases |parts|
  {
    es := [];
    if parts != [] {
      UnionCons(parts, low, high, names);
      var e := ElementWritten(parts[0], low, high, names);
      var rest := PartsWritten(parts[1..], low, high, names);
      WrittenCons(parts, e, rest, low, high, names);
      es := [e] + rest;
    }
  }

  ghost predicate Written(text: string, low: int, high: int, names: Names) {
    exists es: seq<Element> :: AllWritten(Split(text, ','), es, low, high, names)
  }

  /** A field is accepted exactly when each of its comma-separated parts writes a
      well-formed element. */
  lemma AcceptedIffWritten(text: string, low: int, high: int, names: Names)
    requires NamesAreLetters(names)
    ensures ParseField(text, low, high, names).Ok? <==> Written(text, low, high, names)
  {
    var parts := Split(text, ',');
    if ParseField(text, low, high, names).Ok? {
      var es := PartsWritten(parts, low, high, names);
      assert AllWritten(parts, es, low, high, names);
    } else {
      if Written(text, low, high, names) {
        var es: seq<Element> :| AllWritten(parts, es, low, high, names);
        PartsDenote(parts, es, low, high, names);
      }
    }
  }

  /** And then it yields precisely the integers those elements denote. */
  lemma FieldIsItsGrammar(text: string, es: seq<Element>, low: int, high: int, names: Names)
    requires NamesAreLetters(names) && AllWritten(Split(text, ','), es, low, high, names)
    ensures var r := ParseField(text, low, high, names);
      r.Ok? && forall v :: v in r.value <==> Denotes(es, low, high, names, v)
  {
    PartsDenote(Split(text, ','), es, low, high, names);
  }

  lemma MonthsAreLetters()
    ensures NamesAreLetters(MONTHS)
  {}

  lemma DaysAreLetters()
    ensures NamesAreLetters(DOWS)
  {}

  lemma NameTablesAreLetters()
    ensures NamesAreLetters(MONTHS) && NamesAreLetters(DOWS) && NamesAreLetters(NO_NAMES)
  {
    MonthsAreLetters();
    DaysAreLetters();
  }

  /** A text without the separator is its only part. */
  lemma OnePart(text: string)
    requires ',' !in text
    ensures Split(text, ',') == [text]
  {
  }

  lemma OneWritten(text: string, e: Element, low: int, high: int, names: Names)
    requires ',' !in text && ElementIs(text, e, names) && WellFormed(e, low, high, names)
    ensures AllWritten(Split(text, ','), [e], low, high, names)
    ensures forall v :: Denotes([e], low, high, names, v) <==> InSpan(Denoted(e, low, high, names), v)
  {
    OnePart(text);
    ElementIsReached(e, low, high, names);
    assert e in [e];
  }

  /** A number stands for itself. */
  lemma NumberField(text: string, low: int, high: int, names: Names)
    requires NamesAreLetters(names) && IsDigits(text) && low <= Num(text) <= high
    ensures ParseField(text, low, high, names) == Ok({Num(text)})
  {
    var n := Num(text);
    var e := Element(One(Plain(n)), None);
    assert Lower(text) == text;
    OneWritten(text, e, low, high, names);
    FieldIsItsGrammar(text, [e], low, high, names);
    assert Denoted(e, low, high, names) == Span(n, n, 1);
    OnePoint(ParseField(text, low, high, names).value, n);
  }

  lemma OnePoint(values: set<int>, n: int)
    requires forall v :: v in values <==> InSpan(Span(n, n, 1), v)
    ensures values == {n}
  {
    forall v ensures v in values <==> v in {n} {
      assert InSpan(Span(n, n, 1), v) ==> v == n;
      assert (n - n) % 1 == 0;
    }
  }

  /** Two numbers with a dash stand for all between them, or are refused for their own cause. */
  lemma NumbersRange(s: string, t: string, low: int, high: int, names: Names)
    requires NamesAreLetters(names) && IsDigits(s) && IsDigits(t)
    ensures ParsePart(s + "-" + t, low, high, names) ==
      if Num(s) > Num(t) then Error(InvertedRange)
      else if Num(s) < low || Num(t) > high then Error(OutOfRange) else Ok(Span(Num(s), Num(t), 1))
  {
    var p := s + "-" + t;
    DashedText(s, t);
    DashedBounds(s, t, low, high, names);
    assert p[..|p|] == p;
  }

  lemma DashedText(s: string, t: string)
    requires IsDigits(s) && IsDigits(t)
    ensures var p := s + "-" + t; Lower(p) == p && IndexOf(p, '/') == |p|
  {
    var p := s + "-" + t;
    forall k | 0 <= k < |p| ensures p[k] != '/' && LowerChar(p[k]) == p[k] {
      if k > |s| { assert p[k] == t[k - |s| - 1]; }
    }
    assert |Lower(p)| == |p| && forall k :: 0 <= k < |p| ==> Lower(p)[k] == p[k];
  }

  lemma DashedBounds(s: string, t: string, low: int, high: int, names: Names)
    requires NamesAreLetters(names) && IsDigits(s) && IsDigits(t)
    ensures Bounds(s + "-" + t, low, high, names) == Ok((Num(s), Num(t)))
  {
    var p := s + "-" + t;
    DashAt(s, t);
    assert p[..|s|] == s && p[|s| + 1..] == t;
    DigitsAreNoName(s, names);
    DigitsAreNoName(t, names);
  }

  lemma DashAt(s: string, t: string)
    requires IsDigits(s) && IsDigits(t)
    ensures var p := s + "-" + t; p != "*" && '-' in p[1..] && IndexOf(p, '-') == |s|
  {
    var p := s + "-" + t;
    assert p[1..][|s| - 1] == '-';
    var i := IndexOf(p, '-');
    assert p[|s|] == '-' && forall k :: 0 <= k < |s| ==> p[k] == s[k];
  }

  lemma DigitsAreNoName(s: string, names: Names)
    requires NamesAreLetters(names) && IsDigits(s)
    ensures CronNumber(s, names) == Ok(Num(s))
  {
    var key := if |s| < 3 then s else s[..3];
    assert key[0] == s[0];
  }

  /** A step that is no number, or zero, is refused as such, and an empty part as empty. */
  lemma PartRefused(head: string, step: string, low: int, high: int, names: Names)
    requires '/' !in head
    ensures ParsePart("", low, high, names) == Error(EmptyElement)
    ensures ParsePart(head + "/" + step, low, high, names) == Error(BadStep) <==> !(IsDigits(step) && Num(step) > 0)
  {
    SlashAt(head, step);
    DigitsStay(step);
    var p := Lower(head + "/" + step);
    match Bounds(if |head| == 0 then "*" else p[..|head|], low, high, names)
    case Error(e) => OnlyBadNumbers(if |head| == 0 then "*" else p[..|head|], low, high, names);
    case Ok(_) =>
  }

  lemma OnlyBadNumbers(part: string, low: int, high: int, names: Names)
    ensures var b := Bounds(part, low, high, names); b.Error? ==> b.error == BadNumber
  {
  }

  lemma SlashAt(head: string, step: string)
    requires '/' !in head
    ensures var p := Lower(head + "/" + step);
      p != "" && IndexOf(p, '/') == |head| < |p| && p[|head| + 1..] == Lower(step)
  {
    var q := head + "/" + step;
    var p := Lower(q);
    forall k | 0 <= k < |head| ensures p[k] != '/' { assert q[k] == head[k] && head[k] in head; }
    assert q[|head|] == '/' && p[|head|] == '/';
    var i := IndexOf(p, '/');
    forall k | 0 <= k < |step| ensures p[|head| + 1..][k] == Lower(step)[k] { assert q[|head| + 1 + k] == step[k]; }
  }

  lemma DigitsStay(s: string)
    ensures IsDigits(Lower(s)) <==> IsDigits(s)
    ensures IsDigits(s) ==> Lower(s) == s
  {
    forall k | 0 <= k < |s| ensures '0' <= Lower(s)[k] <= '9' <==> '0' <= s[k] <= '9' {}
  }

  /** A star stands for the whole range. */
  lemma StarField(low: int, high: int, names: Names)
    requires NamesAreLetters(names) && low <= high
    ensures var r := ParseField("*", low, high, names); r.Ok? && forall v :: v in r.value <==> low <= v <= high
  {
    var e := Element(Every, None);
    assert Lower("*") == "*";
    OneWritten("*", e, low, high, names);
    FieldIsItsGrammar("*", [e], low, high, names);
  }

  // ---------------------------------------------------------------------
  // Names, digits and commas
  // ---------------------------------------------------------------------

  predicate IsLetter(c: char) { 'a' <= c <= 'z' || 'A' <= c <= 'Z' }

  /** The same small letter, or its capital. */
  predicate SameLetter(c: char, small: char) { 'a' <= small <= 'z' && (c == small || c as int + 32 == small as int) }

  /** A word that begins with these three letters, in capitals or not. */
  predicate WordFor(text: string, name: string) {
    && |text| >= 3 && |name| == 3 && (forall k :: 0 <= k < |text| ==> IsLetter(text[k]))
    && forall k :: 0 <= k < 3 ==> SameLetter(text[k], name[k])
  }

  lemma WordIsLowered(text: string, name: string)
    requires WordFor(text, name)
    ensures Lower(text)[..3] == name && '/' !in Lower(text) && '-' !in Lower(text) && ',' !in text
  {
    var p := Lower(text);
    forall k | 0 <= k < 3 ensures p[k] == name[k] { assert SameLetter(text[k], name[k]); }
    forall k | 0 <= k < |p| ensures 'a' <= p[k] <= 'z' { assert IsLetter(text[k]); }
  }

  /** A word for a name stands for its number. */
  lemma NameField(text: string, name: string, low: int, high: int, names: Names)
    requires NamesAreLetters(names) && WordFor(text, name) && name in names && low <= names[name] <= high
    ensures ParseField(text, low, high, names) == Ok({names[name]})
  {
    WordIsLowered(text, name);
    var n, e := names[name], Element(One(Named(name)), None);
    OneWritten(text, e, low, high, names);
    FieldIsItsGrammar(text, [e], low, high, names);
    assert Denoted(e, low, high, names) == Span(n, n, 1);
    OnePoint(ParseField(text, low, high, names).value, n);
  }

  const WEEK := ["sun", "mon", "tue", "wed", "thu", "fri", "sat"]
  const YEAR := ["jan", "feb", "mar", "apr", "may", "jun", "jul", "aug", "sep", "oct", "nov", "dec"]

  lemma DayNumbers(w: nat)
    requires w < 7
    ensures WEEK[w] in DOWS && DOWS[WEEK[w]] == w
  {
  }

  lemma MonthNumbers(m: nat)
    requires m < 12
    ensures YEAR[m] in MONTHS && MONTHS[YEAR[m]] == m + 1
  {
  }

  /** The days of the week are numbered from Sunday, the months from January. */
  lemma NamesAreNumbers(text: string, w: nat, m: nat)
    ensures w < 7 && WordFor(text, WEEK[w]) ==> ParseField(text, 0, 6, DOWS) == Ok({w})
    ensures m < 12 && WordFor(text, YEAR[m]) ==> ParseField(text, 1, 12, MONTHS) == Ok({m + 1})
  {
    NameTablesAreLetters();
    if w < 7 && WordFor(text, WEEK[w]) {
      DayNumbers(w);
      NameField(text, WEEK[w], 0, 6, DOWS);
    }
    if m < 12 && WordFor(text, YEAR[m]) {
      MonthNumbers(m);
      NameField(text, YEAR[m], 1, 12, MONTHS);
    }
  }

  function Together(parts: seq<string>, c: char): string {
    if parts == [] then "" else if |parts| == 1 then parts[0] else parts[0] + [c] + Together(parts[1..], c)
  }

  /** The parts of a text hold no separator, and put together with it they are the text. */
  lemma {:induction false} SplitIsCutting(s: string, c: char)
    ensures Together(Split(s, c), c) == s && forall p <- Split(s, c) :: c !in p
    decreases |s|
  {
    var i := IndexOf(s, c);
    assert forall k :: 0 <= k < i ==> s[..i][k] == s[k];
    if i < |s| {
      SplitIsCutting(s[i + 1..], c);
      assert Split(s, c)[1..] == Split(s[i + 1..], c);
      assert s == s[..i] + [c] + s[i + 1..];
    }
  }

  /** A number in digits reads as itself. */
  lemma {:induction false} DigitsAreRead(n: nat)
    ensures IsDigits(Digits(n)) && Num(Digits(n)) == n && (n > 0 ==> Digits(n)[0] != '0')
  {
    var s := Digits(n);
    if n < 10 {
      assert s[..0] == "";
    } else {
      DigitsAreRead(n / 10);
      DigitsAreRead(n % 10);
      assert s[..|s| - 1] == Digits(n / 10) && s[|s| - 1] == Digits(n % 10)[0];
    }
  }

  /** And no other digits that do not begin with a nought do. */
  lemma {:induction false} NumeralIsUnique(s: string, t: string)
    requires IsDigits(s) && IsDigits(t) && Num(s) == Num(t) && s[0] != '0' && t[0] != '0'
    ensures s == t
    decreases |s|
  {
    var a, b := s[..|s| - 1], t[..|t| - 1];
    var x, y := s[|s| - 1] as int - '0' as int, t[|t| - 1] as int - '0' as int;
    LastDigit(Num(a), x, Num(b), y);
    if a != "" && b != "" {
      NumeralIsUnique(a, b);
    } else {
      if a != "" { LeadingDigit(a); }
      if b != "" { LeadingDigit(b); }
    }
    assert s == a + [s[|s| - 1]] && t == b + [t[|t| - 1]];
  }

  lemma LastDigit(a: int, x: int, b: int, y: int)
    requires 0 <= x < 10 && 0 <= y < 10 && a * 10 + x == b * 10 + y
    ensures a == b && x == y
  {
  }

  lemma {:induction false} LeadingDigit(s: string)
    requires IsDigits(s) && s[0] != '0'
    ensures Num(s) > 0
    decreases |s|
  {
    if |s| > 1 { LeadingDigit(s[..|s| - 1]); }
  }
}
