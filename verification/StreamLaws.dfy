/** What a streamed call guarantees about the text itself: under any interleaving of the
    two pipes nothing is lost, and no secret gets out, not even in two halves. */
module StreamLaws {
  import opened Stream
  import opened Replace
  import opened Redaction

  /** One of the two pipes: what its reader has still to push, and whether its end mark
      is still to come. */
  datatype Pipe = Pipe(lines: seq<PipeLine>, open: bool)

  /** What one event does to the pipes: a reader pushes its next line, or, having none
      left, its one end mark. */
  predicate Feeds(e: Event, a: Both<Pipe>, b: Both<Pipe>) {
    match e
    case Quiet => b == a
    case Got(ch, l) =>
      && a.At(ch).open && a.At(ch).lines != [] && a.At(ch).lines[0] == l
      && b == a.Put(ch, Pipe(a.At(ch).lines[1..], true))
    case Ended => Closes(a, b, Stdout) || Closes(a, b, Stderr)
  }

  predicate Closes(a: Both<Pipe>, b: Both<Pipe>, ch: Channel) {
    a.At(ch) == Pipe([], true) && b == a.Put(ch, Pipe([], false))
  }

  /** A script in which the two readers feed the queue, in any interleaving. */
  ghost predicate Interleaves(script: seq<Turn>, a: Both<Pipe>)
    decreases |script|
  {
    script == [] || exists b :: Feeds(script[0].event, a, b) && Interleaves(script[1..], b)
  }

  function Open(a: Both<Pipe>): nat {
    (if a.out.open then 1 else 0) + (if a.err.open then 1 else 0)
  }

  lemma {:induction false} LinesCons(e: Event, events: seq<Event>, ch: Channel)
    ensures Lines([e] + events, ch) == (if e.Got? && e.channel == ch then [e.line] else []) + Lines(events, ch)
    decreases |events|
  {
    if events == [] {
      assert [e] + events == [] + [e];
      LinesPush([], e, ch);
    } else {
      var n := |events| - 1;
      assert [e] + events == ([e] + events[..n]) + [events[n]];
      LinesPush([e] + events[..n], events[n], ch);
      LinesCons(e, events[..n], ch);
    }
  }

  /** What was taken from a pipe is the beginning of what was written to it; once the
      call has drained both, it is all of it. */
  predicate InOrder(events: seq<Event>, ch: Channel, written: seq<PipeLine>, ending: Ending) {
    && |Lines(events, ch)| <= |written|
    && Lines(events, ch) == written[..|Lines(events, ch)|]
    && (ending == Drained ==> Lines(events, ch) == written)
  }

  lemma InOrderCons(e: Event, events: seq<Event>, ch: Channel, written: seq<PipeLine>, ending: Ending)
    requires InOrder(events, ch, written, ending)
    ensures InOrder([e] + events, ch, (if e.Got? && e.channel == ch then [e.line] else []) + written, ending)
  {
    LinesCons(e, events, ch);
  }

  lemma FeedsOne(e: Event, a: Both<Pipe>, b: Both<Pipe>, ch: Channel)
    requires Feeds(e, a, b)
    ensures a.At(ch).lines == (if e.Got? && e.channel == ch then [e.line] else []) + b.At(ch).lines
    ensures Open(b) == if e.Ended? then Open(a) - 1 else Open(a)
  {
  }

  /** Whatever the interleaving, what is taken from each pipe is the beginning of what
      was written to it, and all of it when the call was neither cut short nor cancelled. */
  lemma {:induction false} EachPipeInOrder(script: seq<Turn>, a: Both<Pipe>, ch: Channel)
    requires Interleaves(script, a)
    requires !a.At(ch).open ==> a.At(ch).lines == []
    ensures InOrder(Taken(script, Open(a)), ch, a.At(ch).lines, EndingOf(script, Open(a)))
    decreases |script|
  {
    var n := Open(a);
    if n > 0 && script != [] && !script[0].cancel && !script[0].late {
      var rest, e := script[1..], script[0].event;
      var b :| Feeds(e, a, b) && Interleaves(rest, b);
      FeedsOne(e, a, b, ch);
      EachPipeInOrder(rest, b, ch);
      InOrderCons(e, Taken(rest, Open(b)), ch, b.At(ch).lines, EndingOf(rest, Open(b)));
    }
  }

  /** Where scrubbing changes nothing, the chunk texts of a channel put together are the
      lines of its pieces put together. */
  lemma {:induction false} WithoutSecrets(pieces: seq<Piece>, ch: Channel, scrub: string -> string)
    requires forall t :: scrub(t) == t
    ensures Concat(Scrubbed(pieces, ch, scrub)) == Concat(Flat(pieces, ch))
    decreases |pieces|
  {
    if pieces != [] {
      var n := |pieces| - 1;
      var p := pieces[n];
      WithoutSecrets(pieces[..n], ch, scrub);
      if p.channel == ch {
        ConcatAppend(Flat(pieces[..n], ch), p.lines);
        ConcatPush(Scrubbed(pieces[..n], ch, scrub), Concat(p.lines));
      } else {
        assert Flat(pieces, ch) == Flat(pieces[..n], ch) + [] == Flat(pieces[..n], ch);
        assert Scrubbed(pieces, ch, scrub) == Scrubbed(pieces[..n], ch, scrub) + [] == Scrubbed(pieces[..n], ch, scrub);
      }
    }
  }

  /** Any two calls on interleavings of the same pipes, both read to the end, send the
      same text on each channel, however differently it is cut into chunks: what was
      written to the pipe. */
  lemma InterleavingIsIrrelevant(
      one: seq<Turn>, two: seq<Turn>, a: Both<Pipe>, n: int, m: int, scrub: string -> string,
      out: seq<Chunk>, p: seq<Piece>, also: seq<Chunk>, q: seq<Piece>, ch: Channel)
    requires forall t :: scrub(t) == t
    requires a.out.open && a.err.open && Interleaves(one, a) && Interleaves(two, a)
    requires EndingOf(one, 2) == Drained && EndingOf(two, 2) == Drained
    requires Streamed(one, n, scrub, out, p) && Streamed(two, m, scrub, also, q)
    ensures Concat(Texts(out, ch)) == Concat(Texts(also, ch)) == Concat(a.At(ch).lines)
  {
    EachPipeInOrder(one, a, ch);
    EachPipeInOrder(two, a, ch);
    WithoutSecrets(p, ch, scrub);
    WithoutSecrets(q, ch, scrub);
  }

  // ---- secrets ----------------------------------------------------------------------

  predicate EndsIn(t: string, ends: set<char>) { t == "" || t[|t| - 1] in ends }

  /** Replacing keeps the last character, or puts the mark's there. */
  lemma {:induction false} LastOfReplaced(t: string, w: string, mark: string, ends: set<char>)
    requires w != "" && mark != "" && mark[|mark| - 1] in ends && EndsIn(t, ends)
    ensures EndsIn(ReplaceAll(t, w, mark), ends)
    decreases |t|
  {
    if t != "" {
      var rest := if PrefixOf(w, t) then t[|w|..] else t[1..];
      assert EndsIn(rest, ends) by { assert rest != "" ==> rest[|rest| - 1] == t[|t| - 1]; }
      LastOfReplaced(rest, w, mark, ends);
    }
  }

  const SEAMS: set<char> := {'\n', '*'}

  lemma {:induction false} LastOfRedacted(t: string, order: seq<Value>)
    requires EndsIn(t, SEAMS)
    ensures EndsIn(Redacted(t, order), SEAMS)
    decreases |order|
  {
    if order != [] {
      LastOfReplaced(t, order[0], REDACTED, SEAMS);
      LastOfRedacted(if Occurs(order[0], t) then ReplaceAll(t, order[0], REDACTED) else t, order[1..]);
    }
  }

  /** A value that has the characters a text ends in at most as its own last one does not
      reach across its end. */
  lemma SeamHolds(v: string, a: string, b: string, ends: set<char>)
    requires v != "" && !Occurs(v, a) && !Occurs(v, b)
    requires EndsIn(a, ends) && forall c :: c in ends ==> c !in v[..|v| - 1]
    ensures !Occurs(v, a + b)
  {
    if Occurs(v, a + b) {
      var i := OccursSomewhere(v, a + b);
      SeamHoldsAt(v, a, b, ends, i);
    }
  }

  lemma SeamHoldsAt(v: string, a: string, b: string, ends: set<char>, i: nat)
    requires v != "" && !Occurs(v, a) && !Occurs(v, b)
    requires EndsIn(a, ends) && forall c :: c in ends ==> c !in v[..|v| - 1]
    requires i <= |a + b|
    ensures !PrefixOf(v, (a + b)[i..])
  {
    if i >= |a| {
      assert (a + b)[i..] == b[i - |a|..];
      NowhereIn(v, b, i - |a|);
    } else if i + |v| <= |a| {
      NowhereIn(v, a, i);
      FrontOfJoin(a, b, i, |v|);
    } else {
      NoneAcross(v, a, b, ends, i);
    }
  }

  lemma NoneAcross(v: string, a: string, b: string, ends: set<char>, i: nat)
    requires i < |a| < i + |v|
    requires EndsIn(a, ends) && forall c :: c in ends ==> c !in v[..|v| - 1]
    ensures !PrefixOf(v, (a + b)[i..])
  {
    EndOfFront(v, a, b, i);
    assert v[..|v| - 1][|a| - i - 1] != a[|a| - 1];
  }

  lemma FrontOfJoin(a: string, b: string, i: nat, n: nat)
    requires i + n <= |a|
    ensures (a + b)[i..][..n] == a[i..][..n]
  {
  }

  lemma EndOfFront(v: string, a: string, b: string, i: nat)
    requires i < |a| < i + |v|
    ensures PrefixOf(v, (a + b)[i..]) ==> v[|a| - i - 1] == a[|a| - 1]
  {
    var at := (a + b)[i..];
    if |v| <= |at| { assert at[..|v|][|a| - i - 1] == a[|a| - 1]; }
  }

  /** Every line but the last one ends in a newline, as reading a file by lines gives. */
  predicate Terminated(lines: seq<PipeLine>, all: bool) {
    forall k :: 0 <= k < |lines| - (if all then 0 else 1) ==> lines[k][|lines[k]| - 1] == '\n'
  }

  /** Whether a newline stands anywhere but at the end. */
  predicate OneLine(v: string) { v != "" ==> '\n' !in v[..|v| - 1] }

  /** The scrubbing of a call that knows these values. */
  function Scrub(order: seq<Value>): string -> string { (t: string) => Redacted(t, order) }

  lemma {:induction false} ConcatHas(lines: seq<string>, k: nat, c: char)
    requires k < |lines| && c in lines[k]
    ensures c in Concat(lines)
    decreases |lines|
  {
    if k < |lines| - 1 { ConcatHas(lines[..|lines| - 1], k, c); }
  }

  /** Nothing waits behind a newline. */
  lemma TimelyIsOneLine(lines: seq<PipeLine>, maxChunk: int)
    requires Timely(lines, maxChunk) && (|lines| > 1 ==> '\n' in lines[0])
    ensures lines == [lines[0]] && Concat(lines) == lines[0]
  {
    if |lines| > 1 { ConcatHas(lines[..|lines| - 1], 0, '\n'); }
    ConcatPush([], lines[0]);
    assert [] + [lines[0]] == [lines[0]];
  }

  /** The text of each line. */
  function Each(lines: seq<PipeLine>, scrub: string -> string): (texts: seq<string>)
    ensures |texts| == |lines|
  {
    seq(|lines|, i requires 0 <= i < |lines| => scrub(lines[i]))
  }

  /** The last piece of a channel whose lines are terminated is one line. */
  lemma LastIsOneLine(flat: seq<PipeLine>, p: Piece, maxChunk: int, all: bool)
    requires Terminated(flat + p.lines, all) && Timely(p.lines, maxChunk)
    ensures p.lines == [p.lines[0]] && Concat(p.lines) == p.lines[0] && Terminated(flat, true)
  {
    var whole, n := flat + p.lines, |flat|;
    forall k | 0 <= k < n ensures flat[k][|flat[k]| - 1] == '\n' { assert flat[k] == whole[k]; }
    assert p.lines[0] == whole[n];
    TimelyIsOneLine(p.lines, maxChunk);
  }

  /** Lines that all end in a newline, but perhaps the last, go out one to a chunk. */
  lemma {:induction false} OneLineEach(pieces: seq<Piece>, ch: Channel, scrub: string -> string, maxChunk: int,
      all: bool)
    requires Terminated(Flat(pieces, ch), all)
    requires forall k :: 0 <= k < |pieces| ==> Timely(pieces[k].lines, maxChunk)
    ensures Scrubbed(pieces, ch, scrub) == Each(Flat(pieces, ch), scrub)
    decreases |pieces|
  {
    if pieces != [] {
      var n := |pieces| - 1;
      var init, p := pieces[..n], pieces[n];
      var flat, sent := Flat(init, ch), Scrubbed(init, ch, scrub);
      assert init + [p] == pieces;
      PiecesPush(init, p, ch, scrub);
      if p.channel == ch {
        LastIsOneLine(flat, p, maxChunk, all);
        OneLineEach(init, ch, scrub, maxChunk, true);
        assert Each(flat + [p.lines[0]], scrub) == Each(flat, scrub) + [scrub(p.lines[0])];
      } else {
        assert flat + [] == flat && sent + [] == sent;
        OneLineEach(init, ch, scrub, maxChunk, all);
      }
    }
  }

  lemma ConcatCons(line: string, lines: seq<string>)
    ensures Concat([line] + lines) == line + Concat(lines)
  {
    ConcatAppend([line], lines);
    ConcatPush([], line);
    assert [] + [line] == [line];
  }

  /** Behind this text the value begins anew, whatever follows. */
  ghost predicate Seals(a: string, v: string) {
    forall b: string :: !Occurs(v, b) ==> !Occurs(v, a + b)
  }

  /** What is in no text is not in the texts put together, if it cannot reach across. */
  lemma {:induction false} JoinedHoldNone(texts: seq<string>, v: string)
    requires v != "" && forall k :: 0 <= k < |texts| ==> !Occurs(v, texts[k])
    requires forall k :: 0 <= k < |texts| - 1 ==> Seals(texts[k], v)
    ensures !Occurs(v, Concat(texts))
    decreases |texts|
  {
    if texts != [] {
      var first, rest := texts[0], texts[1..];
      JoinedHoldNone(rest, v);
      ConcatCons(first, rest);
      assert [first] + rest == texts;
      if rest == [] { assert first + "" == first; } else { assert Seals(first, v); }
    }
  }

  /** No secret leaves on a channel, neither inside a chunk nor across chunks, as long as
      the value has no newline but at its end, no `*`, and is not part of the mark. */
  lemma NoSecretLeaves(script: seq<Turn>, maxChunk: int, order: seq<Value>, out: seq<Chunk>, pieces: seq<Piece>,
                       ch: Channel, v: Value)
    requires Streamed(script, maxChunk, Scrub(order), out, pieces) && Terminated(Lines(Taken(script, 2), ch), false)
    requires v in order && StarFree(v) && OneLine(v) && !Occurs(v, REDACTED)
    ensures !Occurs(v, Concat(Texts(out, ch)))
  {
    var lines := Lines(Taken(script, 2), ch);
    OneLineEach(pieces, ch, Scrub(order), maxChunk, false);
    StarFreeIsApart(v);
    var texts := Each(lines, Scrub(order));
    forall k | 0 <= k < |texts| ensures !Occurs(v, texts[k]) { NoneIsLeft(v, lines[k], order); }
    forall k | 0 <= k < |texts| - 1 ensures Seals(texts[k], v) { LineSeals(lines[k], order, v); }
    JoinedHoldNone(texts, v);
  }

  lemma LineSeals(line: PipeLine, order: seq<Value>, v: Value)
    requires line[|line| - 1] == '\n' && v in order && StarFree(v) && OneLine(v) && !Occurs(v, REDACTED)
    ensures Seals(Redacted(line, order), v)
  {
    var a := Redacted(line, order);
    StarFreeIsApart(v);
    NoneIsLeft(v, line, order);
    LastOfRedacted(line, order);
    forall b: string | !Occurs(v, b) ensures !Occurs(v, a + b) { SeamHolds(v, a, b, SEAMS); }
  }

  // ---- values with `*` --------------------------------------------------------------

  predicate EndsWith(t: string, e: string) { |e| <= |t| && t[|t| - |e|..] == e }

  /** A text that ends in a newline or in the mark. */
  predicate Sealed(t: string) { EndsWith(t, "\n") || EndsWith(t, REDACTED) }

  lemma EndsBehind(a: string, t: string, e: string)
    requires EndsWith(t, e)
    ensures EndsWith(a + t, e)
  {
    var s := a + t;
    assert s[|s| - |e|..] == t[|t| - |e|..];
  }

  lemma SealedBehind(a: string, t: string)
    requires Sealed(t)
    ensures Sealed(a + t)
  {
    if EndsWith(t, "\n") { EndsBehind(a, t, "\n"); } else { EndsBehind(a, t, REDACTED); }
  }

  /** No occurrence lies across the place where the two texts meet. */
  ghost predicate MeetApart(w: string, a: string, b: string) {
    forall i: nat | i < |a| < i + |w| :: !PrefixOf(w, (a + b)[i..])
  }

  lemma MeetsLater(w: string, a: string, b: string)
    requires a != "" && MeetApart(w, a, b)
    ensures MeetApart(w, a[1..], b)
  {
    forall i: nat | i < |a[1..]| < i + |w| ensures !PrefixOf(w, (a[1..] + b)[i..]) {
      assert (a[1..] + b)[i..] == (a + b)[i + 1..];
    }
  }

  lemma {:induction false} MeetsAfter(w: string, a: string, b: string, n: nat)
    requires n <= |a| && MeetApart(w, a, b)
    ensures MeetApart(w, a[n..], b)
    decreases n
  {
    if n > 0 {
      MeetsLater(w, a, b);
      MeetsAfter(w, a[1..], b, n - 1);
      assert a[1..][n - 1..] == a[n..];
    } else {
      assert a[0..] == a;
    }
  }

  /** An occurrence at the front of the joined texts is in the first one. */
  lemma FrontOfBoth(w: string, a: string, b: string)
    requires w != "" && a != "" && MeetApart(w, a, b)
    ensures PrefixOf(w, a + b) <==> PrefixOf(w, a)
  {
    assert (a + b)[0..] == a + b;
    if |w| <= |a| { assert (a + b)[..|w|] == a[..|w|]; }
  }

  /** Where no occurrence lies across, replacing in the whole is replacing in the parts. */
  lemma {:induction false} ReplaceParts(a: string, b: string, w: string, mark: string)
    requires w != "" && MeetApart(w, a, b)
    ensures ReplaceAll(a + b, w, mark) == ReplaceAll(a, w, mark) + ReplaceAll(b, w, mark)
    decreases |a|
  {
    var back := ReplaceAll(b, w, mark);
    if a == "" {
      assert a + b == b && "" + back == back;
    } else {
      FrontOfBoth(w, a, b);
      if PrefixOf(w, a) {
        PartsAfter(a, b, w, |w|);
        MeetsAfter(w, a, b, |w|);
        ReplaceParts(a[|w|..], b, w, mark);
        Regroup(mark, ReplaceAll(a[|w|..], w, mark), back);
      } else {
        PartsAfter(a, b, w, 1);
        MeetsLater(w, a, b);
        ReplaceParts(a[1..], b, w, mark);
        Regroup([a[0]], ReplaceAll(a[1..], w, mark), back);
      }
    }
  }

  lemma PartsAfter(a: string, b: string, w: string, n: nat)
    requires n <= |a|
    ensures (a + b)[n..] == a[n..] + b
  {
  }

  /** A value apart from the mark leaves a mark at the end of a text alone. */
  lemma MarkEndsKept(c: string, mark: string, w: string)
    requires w != "" && mark != "" && Apart(w, mark)
    ensures ReplaceAll(c + mark, w, mark) == ReplaceAll(c, w, mark) + mark
  {
    forall i: nat | i < |c| < i + |w| ensures !PrefixOf(w, (c + mark)[i..]) { NotIntoTheMark(c, mark, w, i); }
    ReplaceParts(c, mark, w, mark);
    NothingToReplace(mark, w, mark);
  }

  lemma NotIntoTheMark(c: string, mark: string, w: string, i: nat)
    requires Apart(w, mark) && i < |c| < i + |w|
    ensures !PrefixOf(w, (c + mark)[i..])
  {
    var at, k := (c + mark)[i..], i + |w| - |c|;
    if |w| <= |at| {
      assert w[|w| - k..] != mark[..k];
      assert at[..|w|][|w| - k..] == mark[..k];
    }
  }

  /** Replacing values apart from the mark keeps a text sealed. */
  lemma {:induction false} SealedReplaced(t: string, w: string)
    requires w != "" && Apart(w, REDACTED) && EndsWith(t, "\n")
    ensures Sealed(ReplaceAll(t, w, REDACTED))
    decreases |t|
  {
    var n := if PrefixOf(w, t) then |w| else 1;
    var front, rest := if PrefixOf(w, t) then REDACTED else [t[0]], t[n..];
    if rest == "" {
      assert front + "" == front;
    } else {
      assert EndsWith(rest, "\n") by { assert rest[|rest| - 1..] == t[|t| - 1..]; }
      SealedReplaced(rest, w);
      SealedBehind(front, ReplaceAll(rest, w, REDACTED));
    }
  }

  lemma SealedAfter(t: string, w: string)
    requires w != "" && Apart(w, REDACTED) && Sealed(t)
    ensures Sealed(ReplaceAll(t, w, REDACTED))
  {
    if EndsWith(t, REDACTED) {
      var c := t[..|t| - |REDACTED|];
      assert t == c + REDACTED;
      MarkEndsKept(c, REDACTED, w);
      SealedBehind(ReplaceAll(c, w, REDACTED), REDACTED);
    } else {
      SealedReplaced(t, w);
    }
  }

  lemma {:induction false} SealedRedacted(t: string, order: seq<Value>)
    requires Sealed(t) && forall w :: w in order ==> Apart(w, REDACTED)
    ensures Sealed(Redacted(t, order))
    decreases |order|
  {
    if order != [] {
      SealedAfter(t, order[0]);
      SealedRedacted(if Occurs(order[0], t) then ReplaceAll(t, order[0], REDACTED) else t, order[1..]);
    }
  }

  /** A value apart from the mark does not reach over a mark in the middle. */
  lemma NotOver(v: string, c: string, mark: string, b: string)
    requires v != "" && Apart(v, mark) && !Occurs(v, c + mark) && !Occurs(v, b)
    ensures !Occurs(v, c + mark + b)
  {
    var a := c + mark;
    if Occurs(v, a + b) {
      var i := OccursSomewhere(v, a + b);
      if i + |v| <= |a| {
        FrontOfJoin(a, b, i, |v|);
        OccursAt(v, a, i);
      } else {
        NotOverAt(v, c, mark, b, i);
      }
    }
  }

  /** A text without the mark is not at the front of one with the mark so early. */
  lemma NotWithMark(v: string, at: string, d: nat, mark: string)
    requires !Occurs(mark, v) && d + |mark| <= |v| && d + |mark| <= |at| && at[d..d + |mark|] == mark
    ensures !PrefixOf(v, at)
  {
    if PrefixOf(v, at) {
      assert v[d..][..|mark|] == at[..|v|][d..d + |mark|] == at[d..d + |mark|];
      OccursAt(mark, v, d);
    }
  }

  lemma MarkBehind(c: string, mark: string, b: string, i: nat)
    requires i <= |c|
    ensures (c + mark + b)[i..][|c| - i..|c| - i + |mark|] == mark
  {
  }

  lemma BehindFront(c: string, mark: string, b: string, i: nat)
    requires |c| <= i <= |c + mark + b|
    ensures (c + mark + b)[i..] == (mark + b)[i - |c|..]
  {
  }

  lemma NotOverAt(v: string, c: string, mark: string, b: string, i: nat)
    requires v != "" && Apart(v, mark) && !Occurs(v, b) && |c + mark| < i + |v| && i <= |c + mark + b|
    ensures !PrefixOf(v, (c + mark + b)[i..])
  {
    var at := (c + mark + b)[i..];
    if i < |c| {
      MarkBehind(c, mark, b, i);
      NotWithMark(v, at, |c| - i, mark);
    } else {
      BehindFront(c, mark, b, i);
      NotAt(v, mark, b, i - |c|);
    }
  }

  lemma SealedSeals(a: string, v: Value)
    requires Sealed(a) && Apart(v, REDACTED) && OneLine(v) && !Occurs(v, a)
    ensures Seals(a, v)
  {
    forall b: string | !Occurs(v, b) ensures !Occurs(v, a + b) {
      if EndsWith(a, REDACTED) {
        var c := a[..|a| - |REDACTED|];
        assert a == c + REDACTED;
        NotOver(v, c, REDACTED, b);
      } else {
        assert a[|a| - 1] == a[|a| - 1..][0];
        SeamHolds(v, a, b, {'\n'});
      }
    }
  }

  /** Values apart from the mark never leave, with `*` or without, if they have no newline
      but at their end. */
  lemma NoneApartLeaves(script: seq<Turn>, maxChunk: int, order: seq<Value>, out: seq<Chunk>, pieces: seq<Piece>,
                        ch: Channel, v: Value)
    requires Streamed(script, maxChunk, Scrub(order), out, pieces) && Terminated(Lines(Taken(script, 2), ch), false)
    requires (forall w :: w in order ==> Apart(w, REDACTED)) && v in order && OneLine(v)
    ensures !Occurs(v, Concat(Texts(out, ch)))
  {
    var lines := Lines(Taken(script, 2), ch);
    OneLineEach(pieces, ch, Scrub(order), maxChunk, false);
    var texts := Each(lines, Scrub(order));
    forall k | 0 <= k < |texts| ensures !Occurs(v, texts[k]) { NoneIsLeft(v, lines[k], order); }
    forall k | 0 <= k < |texts| - 1 ensures Seals(texts[k], v) {
      assert lines[k][|lines[k]| - 1..] == "\n";
      SealedRedacted(lines[k], order);
      SealedSeals(texts[k], v);
    }
    JoinedHoldNone(texts, v);
  }

  // ---- the secrets that do leave ----------------------------------------------------

  function FirstNewline(t: string): (i: nat)
    ensures i <= |t| && (i < |t| ==> t[i] == '\n') && '\n' !in t[..i]
  {
    if t == "" || t[0] == '\n' then 0
    else
      var i := 1 + FirstNewline(t[1..]);
      assert t[..i] == [t[0]] + t[1..][..i - 1];
      i
  }

  /** A text as a pipe gives it, line by line. */
  function SplitLines(t: string): seq<PipeLine>
    decreases |t|
  {
    if t == "" then []
    else
      var i := FirstNewline(t);
      if i == |t| then [t] else [t[..i + 1]] + SplitLines(t[i + 1..])
  }

  lemma TerminatedCons(line: PipeLine, lines: seq<PipeLine>)
    requires line[|line| - 1] == '\n' && Terminated(lines, false)
    ensures Terminated([line] + lines, false)
  {
    var all := [line] + lines;
    forall k | 0 <= k < |all| - 1 ensures all[k][|all[k]| - 1] == '\n' {
      if k > 0 { assert all[k] == lines[k - 1]; }
    }
  }

  /** The first line of a text of more than one, and the rest. */
  lemma FirstLine(t: string) returns (first: PipeLine, rest: string)
    requires t != "" && FirstNewline(t) < |t|
    ensures t == first + rest && |rest| < |t| && SplitLines(t) == [first] + SplitLines(rest)
    ensures OneLine(first) && first[|first| - 1] == '\n'
  {
    var i := FirstNewline(t);
    first, rest := t[..i + 1], t[i + 1..];
    assert first[..i] == t[..i];
  }

  lemma {:induction false} SplitLinesIs(t: string)
    ensures Concat(SplitLines(t)) == t && Terminated(SplitLines(t), false)
    ensures forall l <- SplitLines(t) :: OneLine(l)
    decreases |t|
  {
    if t != "" {
      if FirstNewline(t) == |t| {
        WholeIsOneLine(t);
      } else {
        var first, rest := FirstLine(t);
        SplitLinesIs(rest);
        ConcatCons(first, SplitLines(rest));
        TerminatedCons(first, SplitLines(rest));
      }
    }
  }

  lemma {:induction false} LinesOccur(t: string, l: PipeLine)
    requires l in SplitLines(t)
    ensures Occurs(l, t)
    decreases |t|
  {
    if FirstNewline(t) == |t| {
      WholeIsOneLine(t);
    } else {
      var first, rest := FirstLine(t);
      if l == first {
        HeldFront(first, rest);
      } else {
        LinesOccur(rest, l);
        HeldBack(first, rest);
        OccursThrough(l, rest, t);
      }
    }
  }

  lemma WholeIsOneLine(t: string)
    requires t != "" && FirstNewline(t) == |t|
    ensures OneLine(t) && Concat([t]) == t && Occurs(t, t)
  {
    assert t[..|t|] == t;
    ConcatPush([], t);
    assert [] + [t] == [t];
    HeldFront(t, "");
    assert t + "" == t;
  }

  /** A value with a newline before its end is in no line. */
  lemma ManyLinesInNone(v: string, line: string)
    requires !OneLine(v) && OneLine(line)
    ensures !Occurs(v, line)
  {
    var k :| 0 <= k < |v| - 1 && v[..|v| - 1][k] == '\n';
    if Occurs(v, line) {
      var i := OccursSomewhere(v, line);
      NotInLine(v, k, line, i);
    }
  }

  lemma NotInLine(v: string, k: nat, line: string, i: nat)
    requires k < |v| - 1 && v[k] == '\n' && OneLine(line) && i <= |line|
    ensures !PrefixOf(v, line[i..])
  {
    if |v| <= |line| - i {
      assert line[i..][..|v|][k] == line[i + k];
      assert line[..|line| - 1][i + k] != '\n';
    }
  }

  /** Lines that hold none of the values go out as they came. */
  lemma CleanLinesLeave(lines: seq<PipeLine>, order: seq<Value>)
    requires forall v, l :: v in order && l in lines ==> !Occurs(v, l)
    ensures Each(lines, Scrub(order)) == lines
  {
    forall k | 0 <= k < |lines| ensures Each(lines, Scrub(order))[k] == lines[k] { CleanIsUnchanged(lines[k], order); }
  }

  /** A secret of more than one line leaves in clear unless a registered value of one line
      is part of it: written to a pipe, it is in what any call sends. */
  lemma ManyLinesLeave(script: seq<Turn>, maxChunk: int, order: seq<Value>, out: seq<Chunk>, pieces: seq<Piece>,
                       ch: Channel, v: Value)
    requires Streamed(script, maxChunk, Scrub(order), out, pieces) && Lines(Taken(script, 2), ch) == SplitLines(v)
    requires !OneLine(v) && forall w :: w in order && OneLine(w) ==> !Occurs(w, v)
    ensures Concat(Texts(out, ch)) == v
  {
    var lines := SplitLines(v);
    SplitLinesIs(v);
    forall w, l | w in order && l in lines ensures !Occurs(w, l) {
      if OneLine(w) {
        LinesOccur(v, l);
        if Occurs(w, l) { OccursThrough(w, l, v); }
      } else {
        ManyLinesInNone(w, l);
      }
    }
    CleanLinesLeave(lines, order);
    OneLineEach(pieces, ch, Scrub(order), maxChunk, false);
  }

  /** A secret that is part of the mark shows in the mark that replaces it, whatever else is
      scrubbed. */
  lemma PartOfTheMarkLeaves(script: seq<Turn>, maxChunk: int, order: seq<Value>, out: seq<Chunk>, pieces: seq<Piece>,
                            ch: Channel, v: Value)
    requires Streamed(script, maxChunk, Scrub(order), out, pieces) && Lines(Taken(script, 2), ch) == SplitLines(v)
    requires v in order && Occurs(v, REDACTED)
    ensures Occurs(v, Concat(Texts(out, ch)))
  {
    SplitLinesIs(v);
    OneLineEach(pieces, ch, Scrub(order), maxChunk, false);
    MarkHasNoNewline(v);
    OnlyLine(v);
    EachOfOne(v, Scrub(order));
    PartOfTheMarkShows(v, v, order);
  }

  lemma PartHasNone(v: string, t: string, c: char)
    requires Occurs(v, t) && forall k :: 0 <= k < |t| ==> t[k] != c
    ensures forall k :: 0 <= k < |v| ==> v[k] != c
  {
    var i := OccursSomewhere(v, t);
    forall k | 0 <= k < |v| ensures v[k] != c { assert t[i..][..|v|][k] == t[i + k]; }
  }

  lemma MarkIsOneLine()
    ensures forall k :: 0 <= k < |REDACTED| ==> REDACTED[k] != '\n'
  {}

  lemma MarkHasNoNewline(v: Value)
    requires Occurs(v, REDACTED)
    ensures forall k :: 0 <= k < |v| ==> v[k] != '\n'
  {
    MarkIsOneLine();
    PartHasNone(v, REDACTED, '\n');
  }

  lemma OnlyLine(v: string)
    requires v != "" && forall k :: 0 <= k < |v| ==> v[k] != '\n'
    ensures SplitLines(v) == [v]
  {
    assert FirstNewline(v) == |v|;
  }

  lemma EachOfOne(line: PipeLine, scrub: string -> string)
    ensures Concat(Each([line], scrub)) == scrub(line)
  {
    ConcatPush([], scrub(line));
    assert [] + [scrub(line)] == [scrub(line)] == Each([line], scrub);
  }

  // A call for any lines of one channel.

  /** The lines, one a turn, and the two end marks. */
  function ScriptOf(lines: seq<PipeLine>, ch: Channel): seq<Turn>
    decreases |lines|
  {
    if lines == [] then [Turn(false, false, Ended), Turn(false, false, Ended)]
    else [Turn(false, false, Got(ch, lines[0]))] + ScriptOf(lines[1..], ch)
  }

  lemma EndsGiveNothing(ch: Channel)
    ensures Lines(Taken([Turn(false, false, Ended), Turn(false, false, Ended)], 2), ch) == []
  {
    var last := [Turn(false, false, Ended)];
    var both := [Turn(false, false, Ended)] + last;
    assert last[1..] == [] && both[1..] == last;
    assert Taken(last[1..], 0) == [];
    assert Taken(last, 1) == [Ended] + [];
    assert Taken(both, 2) == [Ended] + Taken(last, 1);
    LinesCons(Ended, [], ch);
    LinesCons(Ended, Taken(last, 1), ch);
  }

  lemma {:induction false} ScriptGives(lines: seq<PipeLine>, ch: Channel, other: Channel)
    ensures Lines(Taken(ScriptOf(lines, ch), 2), other) == if other == ch then lines else []
    decreases |lines|
  {
    var script := ScriptOf(lines, ch);
    if lines == [] {
      EndsGiveNothing(other);
    } else {
      ScriptGives(lines[1..], ch, other);
      assert script[1..] == ScriptOf(lines[1..], ch);
      LinesCons(script[0].event, Taken(script[1..], 2), other);
      assert [lines[0]] + lines[1..] == lines;
    }
  }

  function PieceEach(lines: seq<PipeLine>, ch: Channel): seq<Piece>
    decreases |lines|
  {
    if lines == [] then [] else PieceEach(lines[..|lines| - 1], ch) + [Piece(ch, [lines[|lines| - 1]])]
  }

  function ChunkEach(lines: seq<PipeLine>, ch: Channel, scrub: string -> string): seq<Chunk>
    decreases |lines|
  {
    if lines == [] then []
    else
      var n := |lines| - 1;
      ChunkEach(lines[..n], ch, scrub) + [Output("", n, ch, scrub(Concat([lines[n]])))]
  }

  lemma OnePieceMore(init: seq<PipeLine>, last: PipeLine, ch: Channel)
    ensures PieceEach(init + [last], ch) == PieceEach(init, ch) + [Piece(ch, [last])]
  {
    var lines: seq<PipeLine> := init + [last];
    assert lines[..|lines| - 1] == init;
  }

  lemma FlatPush(pieces: seq<Piece>, p: Piece, ch: Channel)
    ensures Flat(pieces + [p], ch) == Flat(pieces, ch) + if p.channel == ch then p.lines else []
  {
    assert (pieces + [p])[..|pieces|] == pieces;
  }

  lemma {:induction false} PieceEachIsFlat(lines: seq<PipeLine>, ch: Channel, other: Channel)
    ensures Flat(PieceEach(lines, ch), other) == if other == ch then lines else []
    decreases |lines|
  {
    if lines != [] {
      var init, last := lines[..|lines| - 1], lines[|lines| - 1];
      PieceEachIsFlat(init, ch, other);
      assert lines == init + [last];
      OnePieceMore(init, last, ch);
      FlatPush(PieceEach(init, ch), Piece(ch, [last]), other);
    }
  }

  lemma {:induction false} ChunkEachIsScrubbed(lines: seq<PipeLine>, ch: Channel, scrub: string -> string,
      other: Channel)
    ensures Texts(ChunkEach(lines, ch, scrub), other) == Scrubbed(PieceEach(lines, ch), other, scrub)
    decreases |lines|
  {
    if lines != [] {
      var n := |lines| - 1;
      ChunkEachIsScrubbed(lines[..n], ch, scrub, other);
      PiecesPush(PieceEach(lines[..n], ch), Piece(ch, [lines[n]]), other, scrub);
      TextsPush(ChunkEach(lines[..n], ch, scrub), Output("", n, ch, scrub(Concat([lines[n]]))), other);
    }
  }

  lemma {:induction false} PieceEachIsTimely(lines: seq<PipeLine>, ch: Channel, maxChunk: int)
    ensures forall k :: 0 <= k < |PieceEach(lines, ch)| ==> Timely(PieceEach(lines, ch)[k].lines, maxChunk)
    decreases |lines|
  {
    if lines != [] {
      var n := |lines| - 1;
      PieceEachIsTimely(lines[..n], ch, maxChunk);
      var one: seq<PipeLine> := [lines[n]];
      assert one[..0] == [];
    }
  }

  lemma CallExists(lines: seq<PipeLine>, ch: Channel, maxChunk: int, scrub: string -> string)
      returns (script: seq<Turn>, out: seq<Chunk>, pieces: seq<Piece>)
    ensures Streamed(script, maxChunk, scrub, out, pieces) && Lines(Taken(script, 2), ch) == lines
  {
    script, out, pieces := ScriptOf(lines, ch), ChunkEach(lines, ch, scrub), PieceEach(lines, ch);
    forall other
      ensures Texts(out, other) == Scrubbed(pieces, other, scrub)
      ensures Flat(pieces, other) == Lines(Taken(script, 2), other)
    {
      ScriptGives(lines, ch, other);
      PieceEachIsFlat(lines, ch, other);
      ChunkEachIsScrubbed(lines, ch, scrub, other);
    }
    ScriptGives(lines, ch, ch);
    PieceEachIsTimely(lines, ch, maxChunk);
  }

  /** No call that scrubs these values in this order sends one of them on this channel. */
  ghost predicate NeverLeave(order: seq<Value>, ch: Channel, maxChunk: int) {
    forall script: seq<Turn>, out: seq<Chunk>, pieces: seq<Piece> ::
      Streamed(script, maxChunk, Scrub(order), out, pieces) && Terminated(Lines(Taken(script, 2), ch), false)
      ==> HoldsNone(order, Concat(Texts(out, ch)))
  }

  predicate HoldsNone(order: seq<Value>, text: string) { forall v <- order :: !Occurs(v, text) }

  /** The value does not leave: it is apart from the mark, or, with several lines, has a
      registered part of one line. */
  ghost predicate Kept(order: seq<Value>, v: Value) {
    if OneLine(v) then Apart(v, REDACTED) else exists w <- order :: OneLine(w) && Occurs(w, v)
  }

  lemma KeptDoesNotLeave(script: seq<Turn>, maxChunk: int, order: seq<Value>, out: seq<Chunk>, pieces: seq<Piece>,
                         ch: Channel, v: Value)
    requires Streamed(script, maxChunk, Scrub(order), out, pieces) && Terminated(Lines(Taken(script, 2), ch), false)
    requires (forall w :: w in order ==> Apart(w, REDACTED)) && v in order && Kept(order, v)
    ensures !Occurs(v, Concat(Texts(out, ch)))
  {
    if OneLine(v) {
      NoneApartLeaves(script, maxChunk, order, out, pieces, ch, v);
    } else {
      var w :| w in order && OneLine(w) && Occurs(w, v);
      NoneApartLeaves(script, maxChunk, order, out, pieces, ch, w);
      if Occurs(v, Concat(Texts(out, ch))) { OccursThrough(w, v, Concat(Texts(out, ch))); }
    }
  }

  /** A value that is not kept leaves when it is written to the pipe on its own. */
  lemma NotKeptLeaves(order: seq<Value>, ch: Channel, maxChunk: int, v: Value)
    requires v in order && !Kept(order, v) && (Apart(v, REDACTED) || Occurs(v, REDACTED))
    ensures !NeverLeave(order, ch, maxChunk)
  {
    var script, out, pieces := CallExists(SplitLines(v), ch, maxChunk, Scrub(order));
    SplitLinesIs(v);
    if OneLine(v) {
      PartOfTheMarkLeaves(script, maxChunk, order, out, pieces, ch, v);
    } else {
      ManyLinesLeave(script, maxChunk, order, out, pieces, ch, v);
      HeldFront(v, "");
      assert v + "" == v;
    }
    assert !HoldsNone(order, Concat(Texts(out, ch)));
  }

  /** Exactly when none of the values ever leaves, for values none of which overlaps the mark
      otherwise than by being part of it, as all without `*` are: when each value of one line
      is outside the mark, and each other has one of these for a part. */
  lemma NeverLeaveIff(order: seq<Value>, ch: Channel, maxChunk: int)
    requires forall v :: v in order ==> Apart(v, REDACTED) || Occurs(v, REDACTED)
    ensures NeverLeave(order, ch, maxChunk) <==> forall v :: v in order ==> Kept(order, v)
  {
    if v :| v in order && !Kept(order, v) {
      NotKeptLeaves(order, ch, maxChunk, v);
    } else {
      forall v | v in order ensures Apart(v, REDACTED) {
        if Occurs(v, REDACTED) { MarkHasNoNewline(v); }
        assert Kept(order, v);
      }
      forall script: seq<Turn>, out: seq<Chunk>, pieces: seq<Piece> |
        Streamed(script, maxChunk, Scrub(order), out, pieces) && Terminated(Lines(Taken(script, 2), ch), false)
        ensures HoldsNone(order, Concat(Texts(out, ch)))
      {
        forall v <- order ensures !Occurs(v, Concat(Texts(out, ch))) {
          KeptDoesNotLeave(script, maxChunk, order, out, pieces, ch, v);
        }
      }
    }
  }

  /** A line's newline keeps a value of one line from lying across it and the next. */
  lemma LinesMeetApart(line: PipeLine, b: string, v: string)
    requires OneLine(v) && v != "" && line[|line| - 1] == '\n'
    ensures MeetApart(v, line, b)
  {
    forall i: nat | i < |line| < i + |v| ensures !PrefixOf(v, (line + b)[i..]) {
      NoneAcross(v, line, b, {'\n'}, i);
    }
  }

  lemma RedactedIsReplaced(t: string, v: Value)
    ensures Redacted(t, [v]) == ReplaceAll(t, v, REDACTED)
  {
    RedactedByOne(t, v);
    if !Occurs(v, t) { NothingToReplace(t, v, REDACTED); }
  }

  lemma EachCons(first: PipeLine, rest: seq<PipeLine>, scrub: string -> string)
    ensures Each([first] + rest, scrub) == [scrub(first)] + Each(rest, scrub)
  {
  }

  /** Replacing in a line and in what follows is replacing in both together. */
  lemma LineStep(line: PipeLine, text: string, v: Value)
    requires OneLine(v) && (text == "" || line[|line| - 1] == '\n')
    ensures ReplaceAll(line + text, v, REDACTED) == ReplaceAll(line, v, REDACTED) + ReplaceAll(text, v, REDACTED)
  {
    if text == "" {
      assert line + text == line;
    } else {
      LinesMeetApart(line, text, v);
      ReplaceParts(line, text, v, REDACTED);
    }
  }

  /** Scrubbing one value of one line, line by line is all at once. */
  lemma {:induction false} LineByLine(lines: seq<PipeLine>, v: Value)
    requires OneLine(v) && Terminated(lines, false)
    ensures Concat(Each(lines, Scrub([v]))) == ReplaceAll(Concat(lines), v, REDACTED)
    decreases |lines|
  {
    if lines != [] {
      var first, rest := lines[0], lines[1..];
      forall k | 0 <= k < |rest| - 1 ensures rest[k][|rest[k]| - 1] == '\n' { assert rest[k] == lines[k + 1]; }
      LineByLine(rest, v);
      assert lines == [first] + rest;
      EachCons(first, rest, Scrub([v]));
      RedactedIsReplaced(first, v);
      ConcatCons(Redacted(first, [v]), Each(rest, Scrub([v])));
      ConcatCons(first, rest);
      LineStep(first, Concat(rest), v);
    }
  }

  /** A value that can overlap the mark leaves. */
  lemma OverlapLeaves(v: Value, ch: Channel, maxChunk: int)
    requires OneLine(v) && !Apart(v, REDACTED)
    ensures !NeverLeave([v], ch, maxChunk)
  {
    var text := NotApartComesBack(v, REDACTED);
    var script, out, pieces := CallExists(SplitLines(text), ch, maxChunk, Scrub([v]));
    SplitLinesIs(text);
    OneLineEach(pieces, ch, Scrub([v]), maxChunk, false);
    LineByLine(SplitLines(text), v);
    assert v in [v] && !HoldsNone([v], Concat(Texts(out, ch)));
  }

  lemma ManyLinesAlone(v: Value, ch: Channel, maxChunk: int)
    requires !OneLine(v)
    ensures !NeverLeave([v], ch, maxChunk)
  {
    var script, out, pieces := CallExists(SplitLines(v), ch, maxChunk, Scrub([v]));
    SplitLinesIs(v);
    ManyLinesLeave(script, maxChunk, [v], out, pieces, ch, v);
    HeldFront(v, "");
    assert v + "" == v;
    assert v in [v] && !HoldsNone([v], Concat(Texts(out, ch)));
  }

  /** Exactly when one value, any value, never leaves: when it is apart from the mark and has
      no newline but at its end. */
  lemma NeverLeavesIff(v: Value, ch: Channel, maxChunk: int)
    ensures NeverLeave([v], ch, maxChunk) <==> Apart(v, REDACTED) && OneLine(v)
  {
    if !OneLine(v) {
      ManyLinesAlone(v, ch, maxChunk);
    } else if Apart(v, REDACTED) {
      NeverLeaveIff([v], ch, maxChunk);
    } else {
      OverlapLeaves(v, ch, maxChunk);
    }
  }
}
