/** Streaming the output of a command: two reader threads push lines and an end mark
    each on one queue; the loop gathers lines, sends them in numbered chunks and closes
    the stream with one final chunk. What the queue, the clock and the cancel flag do is
    given as a script, one turn per pass of the loop; past its end the deadline is over. */
module Stream {
  import Replace

  datatype Channel = Stdout | Stderr

  /** A line read from a pipe: never empty. */
  type PipeLine = s: string | s != "" witness "x"

  datatype Event =
    | Got(channel: Channel, line: PipeLine)
    | Ended
    | Quiet

  datatype Turn = Turn(cancel: bool, late: bool, event: Event)

  datatype Ending = Drained | Cancelled | TimedOut

  datatype Both<T> = Both(out: T, err: T) {
    function At(ch: Channel): T { if ch == Stdout then out else err }
    function Put(ch: Channel, v: T): Both<T> {
      if ch == Stdout then this.(out := v) else this.(err := v)
    }
  }

  datatype Closing =
    | NotStarted(error: string)
    | Ran(ok: bool, exitCode: Exit, ending: Ending, chunks: nat, stats: Both<nat>)

  datatype Exit = NoCode | Code(code: int)

  datatype Chunk =
    | Output(task: string, seqNo: nat, channel: Channel, text: string)
    | Final(task: string, seqNo: nat, closing: Closing)

  // ---- what a script means ----------------------------------------------------------

  /** The events the loop takes from the queue: up to a cancel, the deadline, or the
      last end mark. */
  function Taken(script: seq<Turn>, open: nat): seq<Event>
    decreases |script|
  {
    if open == 0 || script == [] || script[0].cancel || script[0].late then []
    else [script[0].event] + Taken(script[1..], if script[0].event.Ended? then open - 1 else open)
  }

  function EndingOf(script: seq<Turn>, open: nat): Ending
    decreases |script|
  {
    if open == 0 then Drained
    else if script == [] then TimedOut
    else if script[0].cancel then Cancelled
    else if script[0].late then TimedOut
    else EndingOf(script[1..], if script[0].event.Ended? then open - 1 else open)
  }

  /** The lines of one channel among the events. */
  function Lines(events: seq<Event>, ch: Channel): seq<PipeLine>
    decreases |events|
  {
    if events == [] then []
    else
      var e := events[|events| - 1];
      Lines(events[..|events| - 1], ch) + if e.Got? && e.channel == ch then [e.line] else []
  }

  function Concat(lines: seq<string>): string
    decreases |lines|
  {
    if lines == [] then "" else Concat(lines[..|lines| - 1]) + lines[|lines| - 1]
  }

  /** The texts of one channel among the chunks, in order. */
  function Texts(chunks: seq<Chunk>, ch: Channel): seq<string>
    decreases |chunks|
  {
    if chunks == [] then []
    else
      var c := chunks[|chunks| - 1];
      Texts(chunks[..|chunks| - 1], ch) + if c.Output? && c.channel == ch then [c.text] else []
  }

  /** The consecutive lines of one channel that go out in one chunk. */
  datatype Piece = Piece(channel: Channel, lines: seq<PipeLine>)

  function Flat(pieces: seq<Piece>, ch: Channel): seq<PipeLine>
    decreases |pieces|
  {
    if pieces == [] then []
    else
      var p := pieces[|pieces| - 1];
      Flat(pieces[..|pieces| - 1], ch) + if p.channel == ch then p.lines else []
  }

  /** The scrubbed text of each piece, in order. */
  function Scrubbed(pieces: seq<Piece>, ch: Channel, scrub: string -> string): seq<string>
    decreases |pieces|
  {
    if pieces == [] then []
    else
      var p := pieces[|pieces| - 1];
      Scrubbed(pieces[..|pieces| - 1], ch, scrub) + if p.channel == ch then [scrub(Concat(p.lines))] else []
  }

  predicate Numbered(chunks: seq<Chunk>, task: string, start: nat) {
    forall i :: 0 <= i < |chunks| ==> chunks[i].task == task && chunks[i].seqNo == start + i
  }

  predicate AllOutput(chunks: seq<Chunk>) { forall c :: c in chunks ==> c.Output? }

  lemma ConcatPush(lines: seq<string>, line: string)
    ensures Concat(lines + [line]) == Concat(lines) + line
  {
    assert (lines + [line])[..|lines|] == lines;
  }

  lemma LinesPush(events: seq<Event>, e: Event, ch: Channel)
    ensures Lines(events + [e], ch) == Lines(events, ch) + if e.Got? && e.channel == ch then [e.line] else []
  {
    assert (events + [e])[..|events|] == events;
  }

  lemma TextsPush(chunks: seq<Chunk>, c: Chunk, ch: Channel)
    ensures Texts(chunks + [c], ch) == Texts(chunks, ch) + if c.Output? && c.channel == ch then [c.text] else []
  {
    assert (chunks + [c])[..|chunks|] == chunks;
  }

  lemma PiecesPush(pieces: seq<Piece>, p: Piece, ch: Channel, scrub: string -> string)
    ensures Flat(pieces + [p], ch) == Flat(pieces, ch) + if p.channel == ch then p.lines else []
    ensures Scrubbed(pieces + [p], ch, scrub)
      == Scrubbed(pieces, ch, scrub) + if p.channel == ch then [scrub(Concat(p.lines))] else []
  {
    assert (pieces + [p])[..|pieces|] == pieces;
  }

  lemma ConcatEmpty(lines: seq<PipeLine>)
    ensures Concat(lines) == "" <==> lines == []
  {
  }

  lemma {:induction false} ConcatAppend(a: seq<string>, b: seq<string>)
    ensures Concat(a + b) == Concat(a) + Concat(b)
    decreases |b|
  {
    if b == [] {
      assert a + b == a;
    } else {
      var c, last := b[..|b| - 1], b[|b| - 1];
      ConcatAppend(a, c);
      assert b == c + [last] && a + b == (a + c) + [last];
      ConcatPush(c, last);
      ConcatPush(a + c, last);
      Replace.Regroup(Concat(a), Concat(c), last);
    }
  }

  // ---- the loop ---------------------------------------------------------------------

  /** The variables of one call. */
  datatype Pump = Pump(buffers: Both<string>, totals: Both<nat>, chunks: nat)

  /** Text waits only while it holds no end of line and is too short to send. */
  predicate Prompt(buffer: string, maxChunk: int) {
    buffer == "" || ('\n' !in buffer && |buffer| < maxChunk)
  }

  /** Lines that go out together: before the last of them there was no reason to send. */
  predicate Timely(lines: seq<PipeLine>, maxChunk: int) {
    lines != [] && Prompt(Concat(lines[..|lines| - 1]), maxChunk)
  }

  /** What a call has done so far: the chunks sent, the lines each was made of, the
      lines still in the buffers, and the events taken. */
  datatype Account = Account(out: seq<Chunk>, pieces: seq<Piece>, waiting: Both<seq<PipeLine>>, events: seq<Event>,
                             maxChunk: int)

  ghost predicate Agrees(p: Pump, a: Account, scrub: string -> string) {
    && AllOutput(a.out)
    && p.chunks == |a.out|
    && (forall k :: 0 <= k < |a.pieces| ==> Timely(a.pieces[k].lines, a.maxChunk))
    && forall ch {:trigger AgreesOn(p, a, scrub, ch)} :: AgreesOn(p, a, scrub, ch)
  }

  /** Every line taken from the channel is in a chunk or in its buffer, in order. */
  ghost predicate AgreesOn(p: Pump, a: Account, scrub: string -> string, ch: Channel) {
    && p.buffers.At(ch) == Concat(a.waiting.At(ch))
    && (a.waiting.At(ch) != [] ==> Timely(a.waiting.At(ch), a.maxChunk))
    && p.totals.At(ch) == |Concat(Texts(a.out, ch))|
    && Texts(a.out, ch) == Scrubbed(a.pieces, ch, scrub)
    && Flat(a.pieces, ch) + a.waiting.At(ch) == Lines(a.events, ch)
  }

  // The effect of sending the buffer of one channel, of a line, and of any other event.

  function Flushed(p: Pump, ch: Channel, text: string): Pump {
    Pump(p.buffers.Put(ch, ""), p.totals.Put(ch, p.totals.At(ch) + |text|), p.chunks + 1)
  }

  function Sent(a: Account, ch: Channel, c: Chunk): Account {
    Account(a.out + [c], a.pieces + [Piece(ch, a.waiting.At(ch))], a.waiting.Put(ch, []), a.events, a.maxChunk)
  }

  lemma FlushKeepsChannel(p: Pump, a: Account, scrub: string -> string, ch: Channel, c: Chunk, other: Channel)
    requires AgreesOn(p, a, scrub, other) && AgreesOn(p, a, scrub, ch)
    requires c.Output? && c.channel == ch && c.text == scrub(p.buffers.At(ch))
    ensures AgreesOn(Flushed(p, ch, c.text), Sent(a, ch, c), scrub, other)
  {
    TextsPush(a.out, c, other);
    PiecesPush(a.pieces, Piece(ch, a.waiting.At(ch)), other, scrub);
    var b := Sent(a, ch, c);
    if other == ch {
      ConcatPush(Texts(a.out, ch), c.text);
      assert b.waiting.At(ch) == [];
      assert Flat(b.pieces, ch) + [] == Flat(b.pieces, ch);
    } else {
      assert b.waiting.At(other) == a.waiting.At(other);
      assert Flat(b.pieces, other) == Flat(a.pieces, other) + [] == Flat(a.pieces, other);
      assert Texts(b.out, other) == Texts(a.out, other) + [] == Texts(a.out, other);
      assert Scrubbed(b.pieces, other, scrub) == Scrubbed(a.pieces, other, scrub) + []
        == Scrubbed(a.pieces, other, scrub);
    }
  }

  lemma FlushKeepsAgreement(p: Pump, a: Account, scrub: string -> string, ch: Channel, c: Chunk)
    requires Agrees(p, a, scrub) && p.buffers.At(ch) != ""
    requires c.Output? && c.channel == ch && c.text == scrub(p.buffers.At(ch))
    ensures Agrees(Flushed(p, ch, c.text), Sent(a, ch, c), scrub)
  {
    assert AgreesOn(p, a, scrub, ch);
    assert Timely(a.waiting.At(ch), a.maxChunk);
    forall other ensures AgreesOn(Flushed(p, ch, c.text), Sent(a, ch, c), scrub, other) {
      assert AgreesOn(p, a, scrub, other);
      FlushKeepsChannel(p, a, scrub, ch, c, other);
    }
  }

  lemma EventKeepsAgreement(p: Pump, a: Account, scrub: string -> string, e: Event)
    requires Agrees(p, a, scrub) && (forall ch :: Prompt(p.buffers.At(ch), a.maxChunk))
    ensures Agrees(Buffered(p, e), Seen(a, e), scrub)
  {
    forall ch ensures AgreesOn(Buffered(p, e), Seen(a, e), scrub, ch) {
      assert Prompt(p.buffers.At(ch), a.maxChunk);
      assert AgreesOn(p, a, scrub, ch);
      EventKeepsChannel(p, a, scrub, e, ch);
    }
  }

  lemma NumberedPush(out: seq<Chunk>, task: string, start: nat, c: Chunk)
    requires Numbered(out, task, start) && c.task == task && c.seqNo == start + |out|
    ensures Numbered(out + [c], task, start)
  {
  }

  function Seen(a: Account, e: Event): Account {
    var events := a.events + [e];
    if e.Got? then a.(waiting := a.waiting.Put(e.channel, a.waiting.At(e.channel) + [e.line]), events := events)
    else a.(events := events)
  }

  function Buffered(p: Pump, e: Event): Pump {
    if e.Got? then p.(buffers := p.buffers.Put(e.channel, p.buffers.At(e.channel) + e.line)) else p
  }

  /** A line joins the lines that wait. */
  lemma OneMoreWaits(flat: seq<PipeLine>, waiting: seq<PipeLine>, line: PipeLine, maxChunk: int)
    requires Prompt(Concat(waiting), maxChunk)
    ensures Timely(waiting + [line], maxChunk)
    ensures flat + (waiting + [line]) == (flat + waiting) + [line]
    ensures Concat(waiting + [line]) == Concat(waiting) + line
  {
    ConcatPush(waiting, line);
    assert (waiting + [line])[..|waiting|] == waiting;
  }

  lemma LineKeepsChannel(p: Pump, a: Account, scrub: string -> string, e: Event)
    requires e.Got? && AgreesOn(p, a, scrub, e.channel) && Prompt(p.buffers.At(e.channel), a.maxChunk)
    ensures AgreesOn(Buffered(p, e), Seen(a, e), scrub, e.channel)
  {
    var ch := e.channel;
    LinesPush(a.events, e, ch);
    OneMoreWaits(Flat(a.pieces, ch), a.waiting.At(ch), e.line, a.maxChunk);
    assert Seen(a, e).waiting.At(ch) == a.waiting.At(ch) + [e.line];
  }

  lemma EventKeepsChannel(p: Pump, a: Account, scrub: string -> string, e: Event, ch: Channel)
    requires AgreesOn(p, a, scrub, ch) && Prompt(p.buffers.At(ch), a.maxChunk)
    ensures AgreesOn(Buffered(p, e), Seen(a, e), scrub, ch)
  {
    if e.Got? && e.channel == ch {
      LineKeepsChannel(p, a, scrub, e);
    } else {
      LinesPush(a.events, e, ch);
      assert Seen(a, e).waiting.At(ch) == a.waiting.At(ch) && Buffered(p, e).buffers.At(ch) == p.buffers.At(ch);
    }
  }

  /** With both buffers empty, the chunks account for every line taken. */
  lemma NothingWaits(p: Pump, a: Account, scrub: string -> string)
    requires Agrees(p, a, scrub) && p.buffers == Both("", "")
    ensures forall ch :: Flat(a.pieces, ch) == Lines(a.events, ch)
    ensures forall ch :: Texts(a.out, ch) == Scrubbed(a.pieces, ch, scrub)
    ensures AllOutput(a.out) && p.chunks == |a.out|
    ensures forall k :: 0 <= k < |a.pieces| ==> Timely(a.pieces[k].lines, a.maxChunk)
    ensures p.totals == Both(|Concat(Texts(a.out, Stdout))|, |Concat(Texts(a.out, Stderr))|)
  {
    forall ch ensures Flat(a.pieces, ch) == Lines(a.events, ch) && Texts(a.out, ch) == Scrubbed(a.pieces, ch, scrub) {
      assert AgreesOn(p, a, scrub, ch);
      ConcatEmpty(a.waiting.At(ch));
    }
    assert AgreesOn(p, a, scrub, Stdout) && AgreesOn(p, a, scrub, Stderr);
  }

  lemma TakenOnce(script: seq<Turn>, i: nat, open: nat, events: seq<Event>)
    requires i < |script| && open > 0 && !script[i].cancel && !script[i].late
    ensures
      var e := script[i].event;
      var left := if e.Ended? then open - 1 else open;
      && events + Taken(script[i..], open) == events + [e] + Taken(script[i + 1..], left)
      && EndingOf(script[i..], open) == EndingOf(script[i + 1..], left)
  {
    assert script[i..][1..] == script[i + 1..];
  }

  /** What a call that ran its command has sent: every line taken from a pipe in exactly
      one chunk of its own channel, whole and in order, scrubbed, and no line that could be
      sent waiting for another. */
  ghost predicate Streamed(script: seq<Turn>, maxChunk: int, scrub: string -> string, out: seq<Chunk>,
      pieces: seq<Piece>)
  {
    && (forall ch :: Texts(out, ch) == Scrubbed(pieces, ch, scrub))
    && (forall ch :: Flat(pieces, ch) == Lines(Taken(script, 2), ch))
    && (forall k :: 0 <= k < |pieces| ==> Timely(pieces[k].lines, maxChunk))
  }

  /** What the final chunk says of a command that ran and sent these chunks. */
  ghost function ClosingOf(script: seq<Turn>, cancelAtEnd: bool, exit: Exit, out: seq<Chunk>): Closing {
    var ending := if cancelAtEnd then Cancelled else EndingOf(script, 2);
    Ran(ending == Drained && exit == Code(0), exit, ending, |out|,
        Both(|Concat(Texts(out, Stdout))|, |Concat(Texts(out, Stderr))|))
  }

  /** With nothing left in the buffers, all that was taken has been sent. */
  lemma AllSent(p: Pump, a: Account, scrub: string -> string, script: seq<Turn>)
    requires Agrees(p, a, scrub) && p.buffers == Both("", "") && a.events == Taken(script, 2)
    ensures Streamed(script, a.maxChunk, scrub, a.out, a.pieces) && AllOutput(a.out) && p.chunks == |a.out|
    ensures p.totals == Both(|Concat(Texts(a.out, Stdout))|, |Concat(Texts(a.out, Stderr))|)
  {
    NothingWaits(p, a, scrub);
  }

  function SeqIn(counters: map<string, nat>, task: string): nat {
    if task in counters then counters[task] else 0
  }

  /** How the call begins: the secrets resolve and the process starts, or not. */
  datatype Opening = Refused(error: string) | Started

  class StreamingExecutor {
    var counters: map<string, nat>
    var sent: seq<Chunk>

    constructor ()
      ensures counters == map[] && sent == []
    {
      counters, sent := map[], [];
    }

    method NextSeq(task: string) returns (n: nat)
      modifies this`counters
      ensures n == SeqIn(old(counters), task)
      ensures counters == old(counters)[task := n + 1]
    {
      n := if task in counters then counters[task] else 0;
      counters := counters[task := n + 1];
    }

    /** One chunk that is not the last. */
    method EmitOutput(task: string, ch: Channel, text: string) returns (ghost c: Chunk)
      modifies this
      ensures c == Output(task, SeqIn(old(counters), task), ch, text)
      ensures sent == old(sent) + [c]
      ensures counters == old(counters)[task := c.seqNo + 1]
    {
      var n := NextSeq(task);
      c := Output(task, n, ch, text);
      sent := sent + [Output(task, n, ch, text)];
    }

    method EmitFinal(task: string, closing: Closing) returns (c: Chunk)
      modifies this
      ensures c == Final(task, SeqIn(old(counters), task), closing)
      ensures sent == old(sent) + [c]
      ensures counters == old(counters)[task := c.seqNo + 1]
    {
      var n := NextSeq(task);
      c := Final(task, n, closing);
      sent := sent + [c];
    }

    /** The chunks of the running call follow those sent before it, numbered from
        `start`; no other task's numbers move. */
    ghost predicate Streaming(task: string, before: seq<Chunk>, was: map<string, nat>, out: seq<Chunk>)
      reads this
    {
      && sent == before + out
      && Numbered(out, task, SeqIn(was, task))
      && counters == (if out == [] then was else was[task := SeqIn(was, task) + |out|])
    }

    method Flush(p: Pump, task: string, ch: Channel, scrub: string -> string,
                 ghost a: Account, ghost before: seq<Chunk>, ghost was: map<string, nat>)
      returns (q: Pump, ghost b: Account)
      requires Agrees(p, a, scrub) && Streaming(task, before, was, a.out)
      modifies this
      ensures Agrees(q, b, scrub) && Streaming(task, before, was, b.out)
      ensures b.events == a.events && b.maxChunk == a.maxChunk
      ensures q.buffers == p.buffers.Put(ch, "")
    {
      var text := p.buffers.At(ch);
      if text == "" { return p, a; }
      text := scrub(text);
      q := Flushed(p, ch, text);
      ghost var c := EmitOutput(task, ch, text);
      b := Sent(a, ch, c);
      FlushKeepsAgreement(p, a, scrub, ch, c);
      NumberedPush(a.out, task, SeqIn(was, task), c);
    }

    /** The loop over the queue. */
    method Gather(task: string, script: seq<Turn>, maxChunk: int, scrub: string -> string,
                  ghost before: seq<Chunk>, ghost was: map<string, nat>)
      returns (p: Pump, ending: Ending, ghost a: Account)
      requires Streaming(task, before, was, [])
      modifies this
      ensures Agrees(p, a, scrub) && Streaming(task, before, was, a.out)
      ensures Prompt(p.buffers.out, maxChunk) && Prompt(p.buffers.err, maxChunk)
      ensures a.maxChunk == maxChunk && a.events == Taken(script, 2) && ending == EndingOf(script, 2)
    {
      p := Pump(Both("", ""), Both(0, 0), 0);
      a := Account([], [], Both([], []), [], maxChunk);
      var open := 2;
      var i := 0;
      assert script[0..] == script;
      while open > 0
        invariant 0 <= i <= |script| && open <= 2
        invariant Agrees(p, a, scrub) && Streaming(task, before, was, a.out) && a.maxChunk == maxChunk
        invariant Prompt(p.buffers.out, maxChunk) && Prompt(p.buffers.err, maxChunk)
        invariant Taken(script, 2) == a.events + Taken(script[i..], open)
        invariant EndingOf(script, 2) == EndingOf(script[i..], open)
        decreases |script| - i
      {
        if i == |script| { return p, TimedOut, a; }
        var turn := script[i];
        if turn.cancel { return p, Cancelled, a; }
        if turn.late { return p, TimedOut, a; }
        TakenOnce(script, i, open, a.events);
        i := i + 1;
        p, a := Take(p, task, turn.event, maxChunk, scrub, a, before, was);
        if turn.event.Ended? { open := open - 1; }
      }
      ending := Drained;
    }

    /** One item of the queue, or none in time. */
    method Take(p: Pump, task: string, e: Event, maxChunk: int, scrub: string -> string,
                ghost a: Account, ghost before: seq<Chunk>, ghost was: map<string, nat>)
      returns (q: Pump, ghost b: Account)
      requires Agrees(p, a, scrub) && Streaming(task, before, was, a.out) && a.maxChunk == maxChunk
      requires Prompt(p.buffers.out, maxChunk) && Prompt(p.buffers.err, maxChunk)
      modifies this
      ensures Agrees(q, b, scrub) && Streaming(task, before, was, b.out)
      ensures Prompt(q.buffers.out, maxChunk) && Prompt(q.buffers.err, maxChunk)
      ensures b.events == a.events + [e] && b.maxChunk == maxChunk
      ensures e.Quiet? ==> q.buffers == Both("", "")
    {
      EventKeepsAgreement(p, a, scrub, e);
      q, b := Buffered(p, e), Seen(a, e);
      match e
      case Ended =>
      case Quiet =>
        q, b := Flush(q, task, Stdout, scrub, b, before, was);
        q, b := Flush(q, task, Stderr, scrub, b, before, was);
      case Got(ch, _) =>
        if '\n' in q.buffers.At(ch) || |q.buffers.At(ch)| >= maxChunk {
          q, b := Flush(q, task, ch, scrub, b, before, was);
        }
    }

    /** The part of a call in which the command runs. */
    method RunCommand(task: string, script: seq<Turn>, cancelAtEnd: bool, exit: Exit, maxChunk: int,
                      scrub: string -> string, ghost before: seq<Chunk>, ghost was: map<string, nat>)
      returns (closing: Closing, ghost out: seq<Chunk>, ghost pieces: seq<Piece>)
      requires Streaming(task, before, was, [])
      modifies this
      ensures Streaming(task, before, was, out) && AllOutput(out) && Streamed(script, maxChunk, scrub, out, pieces)
      ensures closing == ClosingOf(script, cancelAtEnd, exit, out)
    {
      var p, ending, a := Gather(task, script, maxChunk, scrub, before, was);
      p, a := Flush(p, task, Stdout, scrub, a, before, was);
      p, a := Flush(p, task, Stderr, scrub, a, before, was);
      AllSent(p, a, scrub, script);
      if cancelAtEnd { ending := Cancelled; }
      var ok := ending == Drained && exit == Code(0);
      closing := Ran(ok, exit, ending, p.chunks, p.totals);
      out, pieces := a.out, a.pieces;
    }

    /** One call: what it sent, the chunks numbered without gaps, and the last one alone
        final and counting the others. */
    method ShellStream(task: string, opening: Opening, script: seq<Turn>, cancelAtEnd: bool, exit: Exit,
                       maxChunk: int, scrub: string -> string)
      returns (closing: Closing, ghost out: seq<Chunk>, ghost pieces: seq<Piece>)
      modifies this
      ensures sent == old(sent) + out + [Final(task, SeqIn(old(counters), task) + |out|, closing)]
      ensures AllOutput(out) && Numbered(out, task, SeqIn(old(counters), task))
      ensures counters == old(counters)[task := SeqIn(old(counters), task) + |out| + 1]
      ensures opening.Refused? ==> out == [] && closing == NotStarted(opening.error)
      ensures opening.Started? ==> Streamed(script, maxChunk, scrub, out, pieces)
      ensures opening.Started? ==> closing == ClosingOf(script, cancelAtEnd, exit, out)
    {
      ghost var before, was := sent, counters;
      out, pieces := [], [];
      if opening.Refused? {
        closing := NotStarted(opening.error);
      } else {
        closing, out, pieces := RunCommand(task, script, cancelAtEnd, exit, maxChunk, scrub, before, was);
      }
      Close(task, closing, before, was, out);
    }

    method Close(task: string, closing: Closing, ghost before: seq<Chunk>, ghost was: map<string, nat>,
        ghost out: seq<Chunk>)
      requires Streaming(task, before, was, out)
      modifies this
      ensures sent == before + out + [Final(task, SeqIn(was, task) + |out|, closing)]
      ensures counters == was[task := SeqIn(was, task) + |out| + 1]
    {
      var _ := EmitFinal(task, closing);
    }
  }
}
