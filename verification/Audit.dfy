/** The hash-chained audit log: append, verify, and what a verified file can be. */
module Audit {

  /** JSON values; objects compare the way sorted-key encoding compares them. */
  datatype Value = Null | Flag(b: bool) | Number(n: int) | Text(s: string)
                 | Items(items: seq<Value>) | Object(members: map<string, Value>)

  type Fields = map<string, Value>

  const HASHED_FIELDS := {"ts", "actor", "action", "resource", "outcome", "meta", "prev"}
  const VALID_OUTCOMES := {"ok", "deny", "error"}

  /** A non-blank line of the file: not JSON, or a record and its `hmac` field. */
  datatype Line = Garbled | Entry(fields: Fields, hmac: string)

  /** HMAC-SHA256 under the log's key (as a hex digest) and the canonical encoder. */
  datatype Sealing = Sealing(mac: string -> string, canon: Fields -> string)

  /** The digest is non-empty hex; the encoder is injective and writes an object. */
  ghost predicate Sound(c: Sealing) {
    && (forall m :: c.mac(m) != "" && '{' !in c.mac(m))
    && (forall f :: c.canon(f) != "" && c.canon(f)[0] == '{')
    && (forall f, g :: c.canon(f) == c.canon(g) ==> f == g)
  }

  /** The fields that participate in the hash. */
  function Hashed(f: Fields): Fields { map k | k in f && k in HASHED_FIELDS :: f[k] }

  /** What is authenticated: `prev`, then the canonical bytes of the record. */
  function Message(c: Sealing, prev: string, f: Fields): string { prev + c.canon(Hashed(f)) }

  function PrevField(f: Fields): Value { if "prev" in f then f["prev"] else Text("") }

  /** The digest the line at `i` has to chain onto. */
  function PrevOf(lines: seq<Line>, i: nat): string
    requires i <= |lines|
  {
    if i > 0 && lines[i - 1].Entry? then lines[i - 1].hmac else ""
  }

  function MessageAt(c: Sealing, lines: seq<Line>, i: nat): string
    requires i < |lines| && lines[i].Entry?
  {
    Message(c, PrevOf(lines, i), lines[i].fields)
  }

  /** The line names this digest as the one before it; a line that names none begins a chain. */
  predicate ChainsOnto(f: Fields, prev: string) {
    if "prev" in f then f["prev"] == Text(prev) else prev == ""
  }

  /** The checks `verify_chain` makes on one line. */
  predicate Genuine(c: Sealing, lines: seq<Line>, i: nat)
    requires i < |lines|
  {
    lines[i].Entry? && ChainsOnto(lines[i].fields, PrevOf(lines, i))
    && c.mac(MessageAt(c, lines, i)) == lines[i].hmac
  }

  /** The first `n` lines pass. */
  ghost predicate GenuineUpTo(c: Sealing, lines: seq<Line>, n: nat)
    requires n <= |lines|
  {
    forall i :: 0 <= i < n ==> Genuine(c, lines, i)
  }

  ghost predicate Intact(c: Sealing, lines: seq<Line>) { GenuineUpTo(c, lines, |lines|) }

  /** `verify_chain` stops at this line. */
  ghost predicate StopsAt(c: Sealing, file: seq<Line>, i: nat) {
    i < |file| && GenuineUpTo(c, file, i) && !Genuine(c, file, i)
  }

  /** It stops there only. */
  lemma StopsOnce(c: Sealing, file: seq<Line>, i: nat, j: nat)
    requires StopsAt(c, file, i) && StopsAt(c, file, j)
    ensures i == j
  {
  }

  datatype Verdict = Verified | NotJson(line: nat) | DoesNotChain(line: nat) | BadHmac(line: nat)

  /** `verify_chain`: reports the first line (counted from 1) that fails. */
  method VerifyChain(c: Sealing, lines: seq<Line>) returns (v: Verdict)
    ensures v.Verified? <==> Intact(c, lines)
    ensures !v.Verified? ==> v.line >= 1 && StopsAt(c, lines, v.line - 1)
    ensures forall i: nat :: StopsAt(c, lines, i) ==> !v.Verified? && v.line == i + 1
    ensures v.NotJson? ==> lines[v.line - 1].Garbled?
    ensures v.DoesNotChain? ==>
      lines[v.line - 1].Entry? && !ChainsOnto(lines[v.line - 1].fields, PrevOf(lines, v.line - 1))
    ensures v.BadHmac? ==>
      lines[v.line - 1].Entry? && ChainsOnto(lines[v.line - 1].fields, PrevOf(lines, v.line - 1))
  {
    var prev := "";
    for i := 0 to |lines|
      invariant prev == PrevOf(lines, i)
      invariant GenuineUpTo(c, lines, i)
    {
      ghost var genuine := Genuine(c, lines, i);
      if !genuine {
        forall j: nat | StopsAt(c, lines, j) ensures j == i { StopsOnce(c, lines, i, j); }
      }
      if lines[i].Garbled? { return NotJson(i + 1); }
      var r := lines[i];
      if PrevField(r.fields) != Text(prev) { return DoesNotChain(i + 1); }
      if c.mac(Message(c, prev, r.fields)) != r.hmac { return BadHmac(i + 1); }
      prev := r.hmac;
    }
    v := Verified;
  }

  // ---------------------------------------------------------------------
  // record
  // ---------------------------------------------------------------------

  /** Strips secret material out of every string, at any depth. */
  function Masked(maskText: string -> string, v: Value): Value {
    match v
    case Text(s) => Text(maskText(s))
    case Items(items) => Items(seq(|items|, i requires 0 <= i < |items| => Masked(maskText, items[i])))
    case Object(m) => Object(map k | k in m :: Masked(maskText, m[k]))
    case _ => v
  }

  datatype Event = Event(ts: string, actor: string, action: string, resource: string, outcome: string,
                         meta: map<string, Value>)

  function Body(maskText: string -> string, e: Event): Fields {
    map["ts" := Text(e.ts),
        "actor" := Text(maskText(e.actor)),
        "action" := Text(maskText(e.action)),
        "resource" := Text(maskText(e.resource)),
        "outcome" := Text(if e.outcome in VALID_OUTCOMES then e.outcome else "error"),
        "meta" := Masked(maskText, Object(e.meta))]
  }

  /** `_last_hmac`: a garbled tail restarts the chain. */
  function LastHmac(lines: seq<Line>): string { PrevOf(lines, |lines|) }

  /** The record of an event, chained onto the last line. */
  function Sealed(c: Sealing, lines: seq<Line>, body: Fields): Line {
    var prev := LastHmac(lines);
    var sealedFields := body["prev" := Text(prev)];
    Entry(sealedFields, c.mac(Message(c, prev, sealedFields)))
  }

  function Appended(c: Sealing, lines: seq<Line>, body: Fields): seq<Line> { lines + [Sealed(c, lines, body)] }

  /** The file after a sequence of events on an empty log. */
  function Written(c: Sealing, bodies: seq<Fields>): seq<Line> {
    if bodies == [] then [] else Appended(c, Written(c, bodies[..|bodies| - 1]), bodies[|bodies| - 1])
  }

  /** The file: its lines, and whether the writing of the last one was cut off before its
      newline. */
  datatype Disk = Disk(lines: seq<Line>, cut: bool)

  /** A record written behind a cut line stands on that line, and the two are no JSON. */
  function WrittenTo(c: Sealing, d: Disk, body: Fields): Disk {
    if d.cut && d.lines != [] then Disk(d.lines[..|d.lines| - 1] + [Garbled], false)
    else Disk(Appended(c, d.lines, body), false)
  }

  /** `w` is `v` with every string in it, at any depth, masked, and nothing else changed. */
  ghost predicate MaskedCopy(maskText: string -> string, v: Value, w: Value) {
    match v
    case Text(s) => w == Text(maskText(s))
    case Items(items) =>
      w.Items? && |w.items| == |items| && forall i :: 0 <= i < |items| ==> MaskedCopy(maskText, items[i], w.items[i])
    case Object(m) =>
      w.Object? && w.members.Keys == m.Keys && forall k <- m :: MaskedCopy(maskText, m[k], w.members[k])
    case _ => w == v
  }

  lemma {:induction false} MaskedIsACopy(maskText: string -> string, v: Value)
    ensures MaskedCopy(maskText, v, Masked(maskText, v))
  {
    match v
    case Items(items) =>
      forall i | 0 <= i < |items| ensures MaskedCopy(maskText, items[i], Masked(maskText, items[i])) {
        MaskedIsACopy(maskText, items[i]);
      }
    case Object(m) =>
      forall k <- m ensures MaskedCopy(maskText, m[k], Masked(maskText, m[k])) {
        MaskedIsACopy(maskText, m[k]);
      }
    case _ =>
  }

  const RECORD_KEYS := {"ts", "actor", "action", "resource", "outcome", "meta", "prev"}

  /** A record says this of an event: seven fields, with all text of the caller's masked but the
      outcome, which is one of three. */
  ghost predicate Says(maskText: string -> string, f: Fields, e: Event, prev: string) {
    && f.Keys == RECORD_KEYS
    && f["ts"] == Text(e.ts) && f["prev"] == Text(prev)
    && f["actor"] == Text(maskText(e.actor)) && f["action"] == Text(maskText(e.action))
    && f["resource"] == Text(maskText(e.resource))
    && f["outcome"] == Text(if e.outcome == "ok" || e.outcome == "deny" then e.outcome else "error")
    && MaskedCopy(maskText, Object(e.meta), f["meta"])
  }

  lemma BodySays(maskText: string -> string, e: Event, prev: string)
    ensures Says(maskText, Body(maskText, e)["prev" := Text(prev)], e, prev)
  {
    MaskedIsACopy(maskText, Object(e.meta));
  }

  lemma RecordSays(c: Sealing, maskText: string -> string, lines: seq<Line>, e: Event)
    ensures Says(maskText, Sealed(c, lines, Body(maskText, e)).fields, e, LastHmac(lines))
  {
    BodySays(maskText, e, LastHmac(lines));
  }

  class AuditLog {
    var disk: Disk
    const c: Sealing
    const maskText: string -> string

    constructor (c: Sealing, maskText: string -> string)
      ensures disk == Disk([], false) && this.c == c && this.maskText == maskText
    {
      disk := Disk([], false);
      this.c := c;
      this.maskText := maskText;
    }

    /** Appends one event, chained onto the last line; nothing before that line changes. */
    method Record(e: Event) returns (line: Line)
      modifies this
      ensures line == Sealed(c, old(disk).lines, Body(maskText, e)) && line.Entry?
      ensures Says(maskText, line.fields, e, LastHmac(old(disk).lines))
      ensures disk == WrittenTo(c, old(disk), Body(maskText, e)) && !disk.cut
      ensures !old(disk).cut ==> disk.lines == old(disk).lines + [line]
      ensures !old(disk).cut && Intact(c, old(disk).lines) ==> Intact(c, disk.lines)
    {
      RecordSays(c, maskText, disk.lines, e);
      if Intact(c, disk.lines) { AppendKeepsChain(c, disk.lines, Body(maskText, e)); }
      var fields := Body(maskText, e);
      var prev := LastHmac(disk.lines);
      fields := fields["prev" := Text(prev)];
      line := Entry(fields, c.mac(Message(c, prev, fields)));
      var n := |disk.lines|;
      disk := Disk(if disk.cut && n > 0 then disk.lines[..n - 1] + [Garbled] else disk.lines + [line], false);
    }
  }

  lemma AppendKeepsChain(c: Sealing, lines: seq<Line>, body: Fields)
    requires Intact(c, lines)
    ensures Intact(c, Appended(c, lines, body))
  {
    var more := Appended(c, lines, body);
    forall i | 0 <= i < |more| ensures Genuine(c, more, i) {
      assert PrevOf(more, i) == PrevOf(lines, i);
      if i < |lines| { assert Genuine(c, lines, i) && more[i] == lines[i]; }
    }
  }

  /** Whatever is recorded verifies. */
  lemma {:induction false} RecordedVerifies(c: Sealing, bodies: seq<Fields>)
    ensures Intact(c, Written(c, bodies)) && |Written(c, bodies)| == |bodies|
  {
    if bodies != [] {
      RecordedVerifies(c, bodies[..|bodies| - 1]);
      AppendKeepsChain(c, Written(c, bodies[..|bodies| - 1]), bodies[|bodies| - 1]);
    }
  }

  /** The file after a sequence of events on what is already there. */
  function RecordedOn(c: Sealing, lines: seq<Line>, bodies: seq<Fields>): seq<Line>
    decreases |bodies|
  {
    if bodies == [] then lines else Appended(c, RecordedOn(c, lines, bodies[..|bodies| - 1]), bodies[|bodies| - 1])
  }

  /** Behind an unreadable line the chain restarts: what is recorded there is what an empty
      log would get. */
  lemma {:induction false} ChainRestarts(c: Sealing, lines: seq<Line>, bodies: seq<Fields>)
    ensures RecordedOn(c, lines + [Garbled], bodies) == lines + [Garbled] + Written(c, bodies)
    decreases |bodies|
  {
    if bodies != [] {
      var init := bodies[..|bodies| - 1];
      ChainRestarts(c, lines, init);
      RestartedLink(lines, Written(c, init));
    }
  }

  lemma RestartedLink(lines: seq<Line>, later: seq<Line>)
    ensures LastHmac(lines + [Garbled] + later) == LastHmac(later)
  {
  }

  /** Verification keeps stopping at the unreadable line, whatever is recorded behind it. */
  lemma GarbledTailStaysVisible(c: Sealing, lines: seq<Line>, bodies: seq<Fields>)
    requires Intact(c, lines)
    ensures var file := RecordedOn(c, lines + [Garbled], bodies);
      && file == lines + [Garbled] + Written(c, bodies)
      && GenuineUpTo(c, file, |lines|) && !Genuine(c, file, |lines|)
  {
    ChainRestarts(c, lines, bodies);
    var file := lines + [Garbled] + Written(c, bodies);
    forall i | 0 <= i < |lines| ensures Genuine(c, file, i) {
      assert PrevOf(file, i) == PrevOf(lines, i) && Genuine(c, lines, i);
    }
  }

  /** The file after a sequence of events on what is already there, cut or not. */
  function Continued(c: Sealing, d: Disk, bodies: seq<Fields>): Disk
    decreases |bodies|
  {
    if bodies == [] then d else WrittenTo(c, Continued(c, d, bodies[..|bodies| - 1]), bodies[|bodies| - 1])
  }

  lemma {:induction false} CutTailRestarts(c: Sealing, lines: seq<Line>, tail: Line, bodies: seq<Fields>)
    requires bodies != []
    ensures Continued(c, Disk(lines + [tail], true), bodies) == Disk(lines + [Garbled] + Written(c, bodies[1..]), false)
    decreases |bodies|
  {
    var d, init, last := Disk(lines + [tail], true), bodies[..|bodies| - 1], bodies[|bodies| - 1];
    if init == [] {
      assert (lines + [tail])[..|lines|] == lines;
      assert bodies[1..] == [] && lines + [Garbled] + [] == lines + [Garbled];
    } else {
      CutTailRestarts(c, lines, tail, init);
      var later := Written(c, init[1..]);
      assert bodies[1..][..|bodies| - 2] == init[1..];
      RestartedLink(lines, later);
      assert lines + [Garbled] + (later + [Sealed(c, later, last)])
        == (lines + [Garbled] + later) + [Sealed(c, later, last)];
    }
  }

  /** A tail cut off in writing, readable or not, swallows the first event recorded behind it:
      one line stays unreadable and stops verification, and the events after it are
      what an empty log would get. */
  lemma CutTailSwallowsOne(c: Sealing, lines: seq<Line>, tail: Line, bodies: seq<Fields>)
    requires Intact(c, lines) && bodies != []
    ensures var d := Continued(c, Disk(lines + [tail], true), bodies);
      && d == Disk(lines + [Garbled] + Written(c, bodies[1..]), false) && |d.lines| == |lines| + |bodies|
      && GenuineUpTo(c, d.lines, |lines|) && !Genuine(c, d.lines, |lines|)
  {
    CutTailRestarts(c, lines, tail, bodies);
    RecordedVerifies(c, bodies[1..]);
    ChainRestarts(c, lines, bodies[1..]);
    GarbledTailStaysVisible(c, lines, bodies[1..]);
  }

  // ---------------------------------------------------------------------
  // What a verified file can be
  // ---------------------------------------------------------------------

  /** The digest and the record cannot be confused with each other. */
  lemma MessageInjective(c: Sealing, p: string, f: Fields, q: string, g: Fields)
    requires Sound(c) && '{' !in p && '{' !in q && Message(c, p, f) == Message(c, q, g)
    ensures p == q && Hashed(f) == Hashed(g)
  {
    var m := Message(c, p, f);
    assert m[|p|] == c.canon(Hashed(f))[0] && m[|q|] == c.canon(Hashed(g))[0];
    assert m[..|p|] == p && m[..|q|] == q;
    assert forall k :: 0 <= k < |p| ==> p[k] == m[k];
    assert forall k :: 0 <= k < |q| ==> q[k] == m[k];
    assert m[|p|..] == c.canon(Hashed(f)) && m[|q|..] == c.canon(Hashed(g));
  }

  /** No two different messages of the log have the same digest. */
  ghost predicate CollisionFree(c: Sealing, log: seq<Line>) {
    forall i, j :: 0 <= i < |log| && 0 <= j < |log| && log[i].Entry? && log[j].Entry? ==>
      c.mac(MessageAt(c, log, i)) == c.mac(MessageAt(c, log, j)) ==>
        MessageAt(c, log, i) == MessageAt(c, log, j)
  }

  ghost predicate Produced(c: Sealing, log: seq<Line>, message: string) {
    exists j :: 0 <= j < |log| && log[j].Entry? && MessageAt(c, log, j) == message
  }

  /** Unforgeability: a digest that checks out in the file was computed for the log. */
  ghost predicate Unforged(c: Sealing, log: seq<Line>, file: seq<Line>) {
    forall i :: 0 <= i < |file| && file[i].Entry? ==>
      c.mac(MessageAt(c, file, i)) == file[i].hmac ==>
        Produced(c, log, MessageAt(c, file, i))
  }

  /** Line `i` of the file is line `i` of the log, on the hashed fields and the digest. */
  ghost predicate SameLine(log: seq<Line>, file: seq<Line>, i: nat)
    requires i < |file|
  {
    i < |log| && log[i].Entry? && file[i].Entry?
    && Hashed(file[i].fields) == Hashed(log[i].fields) && file[i].hmac == log[i].hmac
  }

  lemma DigestIsHex(c: Sealing, lines: seq<Line>, i: nat)
    requires Sound(c) && i <= |lines| && (i > 0 ==> Genuine(c, lines, i - 1))
    ensures '{' !in PrevOf(lines, i) && (i > 0 ==> PrevOf(lines, i) != "")
  {}

  /** Equal digests on a recorded log chain onto equal digests. */
  lemma SameDigestSameLink(c: Sealing, log: seq<Line>, i: nat, j: nat)
    requires Sound(c) && Intact(c, log) && CollisionFree(c, log)
    requires i < |log| && j < |log| && PrevOf(log, i + 1) == PrevOf(log, j + 1)
    ensures PrevOf(log, i) == PrevOf(log, j)
  {
    assert Genuine(c, log, i) && Genuine(c, log, j);
    assert i > 0 ==> Genuine(c, log, i - 1);
    assert j > 0 ==> Genuine(c, log, j - 1);
    DigestIsHex(c, log, i);
    DigestIsHex(c, log, j);
    MessageInjective(c, PrevOf(log, i), log[i].fields, PrevOf(log, j), log[j].fields);
  }

  lemma LinkIsEmptyAtStart(c: Sealing, log: seq<Line>, i: nat)
    requires Sound(c) && Intact(c, log) && i <= |log|
    ensures PrevOf(log, i) == "" <==> i == 0
  {
    assert i > 0 ==> Genuine(c, log, i - 1);
    DigestIsHex(c, log, i);
  }

  /** The digest each position chains onto. */
  function Links(log: seq<Line>): seq<string> { seq(|log| + 1, i requires 0 <= i <= |log| => PrevOf(log, i)) }

  predicate BackwardsDetermined(links: seq<string>, i: nat, j: nat)
    requires i + 1 < |links| && j + 1 < |links|
  {
    links[i + 1] == links[j + 1] ==> links[i] == links[j]
  }

  /** Digests that determine their predecessors, back to the one empty start, differ. */
  lemma {:induction false} NoRepeats(links: seq<string>, i: nat, j: nat)
    requires i < |links| && j < |links| && links[i] == links[j]
    requires forall k :: 0 <= k < |links| ==> (links[k] == "" <==> k == 0)
    requires forall k: nat, l: nat :: k + 1 < |links| && l + 1 < |links| ==> BackwardsDetermined(links, k, l)
    ensures i == j
  {
    if i > 0 && j > 0 {
      assert BackwardsDetermined(links, i - 1, j - 1);
      NoRepeats(links, i - 1, j - 1);
    }
  }

  /** Every position of a recorded log chains onto a different digest. */
  lemma PositionsDiffer(c: Sealing, log: seq<Line>, i: nat, j: nat)
    requires Sound(c) && Intact(c, log) && CollisionFree(c, log)
    requires i <= |log| && j <= |log| && PrevOf(log, i) == PrevOf(log, j)
    ensures i == j
  {
    var links := Links(log);
    forall k | 0 <= k < |links| ensures links[k] == "" <==> k == 0 { LinkIsEmptyAtStart(c, log, k); }
    forall k: nat, l: nat | k + 1 < |links| && l + 1 < |links| ensures BackwardsDetermined(links, k, l) {
      if links[k + 1] == links[l + 1] { SameDigestSameLink(c, log, k, l); }
    }
    NoRepeats(links, i, j);
  }

  /** After a faithful prefix, a line passes exactly if it is the log's next line. */
  lemma PassesIffSame(c: Sealing, log: seq<Line>, file: seq<Line>, i: nat)
    requires Sound(c) && Intact(c, log) && CollisionFree(c, log) && Unforged(c, log, file)
    requires i < |file| && (i > 0 ==> SameLine(log, file, i - 1))
    ensures Genuine(c, file, i) <==> SameLine(log, file, i)
  {
    assert i <= |log| && PrevOf(file, i) == PrevOf(log, i);
    if Genuine(c, file, i) {
      var j :| 0 <= j < |log| && log[j].Entry? && MessageAt(c, log, j) == MessageAt(c, file, i);
      DigestIsHex(c, log, i);
      DigestIsHex(c, log, j);
      MessageInjective(c, PrevOf(log, j), log[j].fields, PrevOf(log, i), file[i].fields);
      PositionsDiffer(c, log, i, j);
      assert Genuine(c, log, i);
    }
    if SameLine(log, file, i) {
      assert Genuine(c, log, i);
      assert ("prev" in Hashed(file[i].fields) <==> "prev" in file[i].fields)
        && ("prev" in Hashed(log[i].fields) <==> "prev" in log[i].fields);
      assert "prev" in file[i].fields ==> Hashed(file[i].fields)["prev"] == Hashed(log[i].fields)["prev"];
    }
  }

  ghost predicate SameUpTo(log: seq<Line>, file: seq<Line>, n: nat)
    requires n <= |file|
  {
    forall i :: 0 <= i < n ==> SameLine(log, file, i)
  }

  lemma {:induction false} GenuineUpToDeparture(c: Sealing, log: seq<Line>, file: seq<Line>, n: nat)
    requires Sound(c) && Intact(c, log) && CollisionFree(c, log) && Unforged(c, log, file) && n <= |file|
    ensures GenuineUpTo(c, file, n) <==> SameUpTo(log, file, n)
  {
    if n > 0 {
      GenuineUpToDeparture(c, log, file, n - 1);
      assert GenuineUpTo(c, file, n) <==> GenuineUpTo(c, file, n - 1) && Genuine(c, file, n - 1);
      assert SameUpTo(log, file, n) <==> SameUpTo(log, file, n - 1) && SameLine(log, file, n - 1);
      if SameUpTo(log, file, n - 1) { PassesIffSame(c, log, file, n - 1); }
    }
  }

  /** The prefix theorem: a file verifies iff it is a prefix of the recorded log on
      the authenticated content, and otherwise the reported line is exactly the
      first that departs from the log. */
  lemma VerifiedIffPrefix(c: Sealing, bodies: seq<Fields>, file: seq<Line>, bad: nat)
    requires Sound(c) && CollisionFree(c, Written(c, bodies)) && Unforged(c, Written(c, bodies), file)
    ensures var log := Written(c, bodies);
      && (Intact(c, file) <==> |file| <= |bodies| && SameUpTo(log, file, |file|))
      && (bad < |file| ==>
          (GenuineUpTo(c, file, bad) && !Genuine(c, file, bad) <==>
           SameUpTo(log, file, bad) && !SameLine(log, file, bad)))
  {
    var log := Written(c, bodies);
    RecordedVerifies(c, bodies);
    GenuineUpToDeparture(c, log, file, |file|);
    if SameUpTo(log, file, |file|) && file != [] { assert SameLine(log, file, |file| - 1); }
    if bad < |file| {
      GenuineUpToDeparture(c, log, file, bad);
      if SameUpTo(log, file, bad) { PassesIffSame(c, log, file, bad); }
    }
  }

  // ---------------------------------------------------------------------
  // What is authenticated of a recorded event
  // ---------------------------------------------------------------------

  function Bodies(maskText: string -> string, events: seq<Event>): seq<Fields> {
    seq(|events|, i requires 0 <= i < |events| => Body(maskText, events[i]))
  }

  /** The log of a sequence of events on an empty file. */
  function LogOf(c: Sealing, maskText: string -> string, events: seq<Event>): seq<Line> {
    Written(c, Bodies(maskText, events))
  }

  /** Line `i` of this file is a record of the event, chained onto the line before. */
  ghost predicate Reads(maskText: string -> string, lines: seq<Line>, i: nat, e: Event) {
    i < |lines| && lines[i].Entry? && Says(maskText, lines[i].fields, e, PrevOf(lines, i))
  }

  lemma {:induction false} WrittenHolds(c: Sealing, bodies: seq<Fields>, i: nat)
    requires i < |bodies|
    ensures var log := Written(c, bodies);
      |log| == |bodies| && log[i].Entry? && log[i].fields == bodies[i]["prev" := Text(PrevOf(log, i))]
    decreases |bodies|
  {
    var init := bodies[..|bodies| - 1];
    RecordedVerifies(c, init);
    if i < |init| { WrittenHolds(c, init, i); }
    LinkStays(Written(c, init), Sealed(c, Written(c, init), bodies[|bodies| - 1]), i);
  }

  /** Line `i` of the log says what event `i` was, and is chained onto the line before. */
  lemma LogSaysTheEvents(c: Sealing, maskText: string -> string, events: seq<Event>, i: nat)
    requires i < |events|
    ensures var log := LogOf(c, maskText, events); |log| == |events| && Reads(maskText, log, i, events[i])
  {
    WrittenHolds(c, Bodies(maskText, events), i);
    BodySays(maskText, events[i], PrevOf(LogOf(c, maskText, events), i));
  }

  lemma LinkStays(before: seq<Line>, line: Line, i: nat)
    requires i <= |before|
    ensures PrevOf(before + [line], i) == PrevOf(before, i)
  {
  }

  /** On a recorded log, being the same line is to hold the same digest and, under each of
      the seven keys of the record, the same value, whatever else the line holds. */
  lemma SameLineSameFields(c: Sealing, maskText: string -> string, events: seq<Event>, file: seq<Line>, i: nat)
    requires i < |file| && i < |events|
    ensures var log := LogOf(c, maskText, events);
      && |log| == |events| && log[i].Entry? && log[i].fields.Keys == RECORD_KEYS
      && (SameLine(log, file, i) <==>
          file[i].Entry? && file[i].hmac == log[i].hmac && Holds(file[i].fields, log[i].fields))
  {
    var log := LogOf(c, maskText, events);
    LogSaysTheEvents(c, maskText, events, i);
    if file[i].Entry? { HashedIsHeld(file[i].fields, log[i].fields); }
  }

  /** `f` has all the entries of `g`. */
  predicate Holds(f: Fields, g: Fields) { forall k <- g :: k in f && f[k] == g[k] }

  lemma HashedIsHeld(f: Fields, g: Fields)
    requires g.Keys == RECORD_KEYS
    ensures Hashed(f) == Hashed(g) <==> Holds(f, g)
  {
    if Hashed(f) == Hashed(g) {
      forall k <- g ensures k in f && f[k] == g[k] { assert k in Hashed(g) && Hashed(g)[k] == g[k]; }
    }
  }

  /** Line `i` of the log holds this value under this key. */
  predicate Recorded(log: seq<Line>, i: nat, k: string, v: Value) {
    i < |log| && log[i].Entry? && k in log[i].fields && log[i].fields[k] == v
  }

  lemma FieldIsRecorded(c: Sealing, maskText: string -> string, events: seq<Event>, i: nat, k: string)
    requires i < |events| && k in {"ts", "actor", "action", "resource", "outcome", "meta", "prev"}
    ensures var log := LogOf(c, maskText, events);
      |log| == |events| && log[i].Entry? && k in log[i].fields
  {
    LogSaysTheEvents(c, maskText, events, i);
  }

  /** Any change to any of the seven fields of a recorded event, be it the outcome, is found,
      and found at its line, as long as the lines before it are the log's. */
  lemma AlteredFieldIsReported(c: Sealing, maskText: string -> string, events: seq<Event>, file: seq<Line>, i: nat,
      k: string)
    requires var log := LogOf(c, maskText, events); Sound(c) && CollisionFree(c, log) && Unforged(c, log, file)
    requires i < |file| && i < |events| && SameUpTo(LogOf(c, maskText, events), file, i) && file[i].Entry?
    requires k in {"ts", "actor", "action", "resource", "outcome", "meta", "prev"}
    requires !(k in file[i].fields && Recorded(LogOf(c, maskText, events), i, k, file[i].fields[k]))
    ensures StopsAt(c, file, i)
  {
    FieldIsRecorded(c, maskText, events, i, k);
    VerifiedIffPrefix(c, Bodies(maskText, events), file, i);
    if SameLine(LogOf(c, maskText, events), file, i) { SameLineSameFields(c, maskText, events, file, i); }
  }
}
