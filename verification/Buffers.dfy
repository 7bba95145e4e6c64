/** Two ways of handing out data piece by piece: the bounded event buffer of a file watch,
    and paging through a file by byte offsets. */
module Buffers {

  // ---- the event buffer of a watch --------------------------------------------------

  datatype Event = Event(kind: string, path: string)

  predicate Ascending(indices: seq<nat>) { forall i, j :: 0 <= i < j < |indices| ==> indices[i] < indices[j] }

  /** A bounded queue that forgets its oldest event and counts what it forgot. The ghost
      fields keep the history: every event recorded, the positions in it of those handed
      out, and the losses already reported. */
  class FileWatch {
    const maxLen: nat
    var events: seq<Event>
    var dropped: nat
    ghost var recorded: seq<Event>
    ghost var delivered: seq<nat>
    ghost var reported: nat

    /** The buffer is the end of the history, what was handed out lies before it in order
        and without repetition, and what is neither is counted as lost. */
    ghost predicate Valid()
      reads this
    {
      && |events| <= maxLen && |events| <= |recorded|
      && events == recorded[|recorded| - |events|..]
      && Ascending(delivered)
      && (forall i :: 0 <= i < |delivered| ==> delivered[i] < |recorded| - |events|)
      && |recorded| == |delivered| + |events| + reported + dropped
    }

    constructor (maxLen: nat)
      ensures Valid() && this.maxLen == maxLen && recorded == [] && delivered == []
    {
      this.maxLen := maxLen;
      events, dropped, recorded, delivered, reported := [], 0, [], [], 0;
    }

    /** `record`; `matches` says whether the file name fits a configured pattern. */
    method Record(e: Event, matches: bool)
      requires Valid()
      modifies this
      ensures Valid()
      ensures recorded == old(recorded) + (if matches then [e] else [])
      ensures delivered == old(delivered) && reported == old(reported)
      ensures dropped == old(dropped) + (if matches && |old(events)| == maxLen then 1 else 0)
    {
      if !matches { return; }
      if |events| == maxLen {
        dropped := dropped + 1;
        events := (events + [e])[1..];
      } else {
        events := events + [e];
      }
      recorded := recorded + [e];
    }

    /** `drain`: the oldest buffered events, and the losses since the last call. */
    method Drain(maxEvents: int) returns (out: seq<Event>, lost: nat)
      requires Valid()
      modifies this
      ensures Valid() && recorded == old(recorded)
      ensures out + events == old(events)
      ensures |out| == (if maxEvents < 0 then 0 else if maxEvents < |old(events)| then maxEvents else |old(events)|)
      ensures lost == old(dropped) && dropped == 0 && reported == old(reported) + lost
      ensures |delivered| == |old(delivered)| + |out|
      ensures forall k :: 0 <= k < |old(delivered)| ==> delivered[k] == old(delivered)[k]
      ensures forall k :: 0 <= k < |out| ==> recorded[delivered[|old(delivered)| + k]] == out[k]
    {
      var n := if maxEvents < 0 then 0 else if maxEvents < |events| then maxEvents else |events|;
      ghost var first := |recorded| - |events|;
      out, events := events[..n], events[n..];
      lost, dropped := dropped, 0;
      reported := reported + lost;
      ghost var handed := seq(n, k requires 0 <= k < n => first + k);
      StillAscending(delivered, handed, first);
      delivered := delivered + handed;
    }
  }

  /** Positions that follow on from `first` come behind all that lie before it. */
  lemma StillAscending(done: seq<nat>, more: seq<nat>, first: nat)
    requires Ascending(done) && forall i :: 0 <= i < |done| ==> done[i] < first
    requires forall k :: 0 <= k < |more| ==> more[k] == first + k
    ensures Ascending(done + more)
    ensures forall i :: 0 <= i < |done + more| ==> (done + more)[i] < first + |more|
  {
  }

  // ---- paging -----------------------------------------------------------------------

  type Byte = b: int | 0 <= b < 256

  /** One `read_file_chunked` reply; no next offset at the end of the file. */
  datatype Page = Page(offset: nat, raw: seq<Byte>, eof: bool)

  function Least(a: int, b: int): int { if a < b then a else b }

  function ReadChunk(file: seq<Byte>, offset: int, limit: int): Page {
    var start := if offset < 0 then 0 else offset;
    var most := if limit < 1 then 1 else limit;
    var raw := if start >= |file| then [] else file[start..Least(start + most, |file|)];
    Page(start, raw, start + |raw| >= |file|)
  }

  function NextOffset(p: Page): nat { p.offset + |p.raw| }

  /** A page that is not the last is full, so a reader that follows the offsets moves on. */
  lemma PageMovesOn(file: seq<Byte>, offset: nat, limit: int)
    ensures var p := ReadChunk(file, offset, limit);
      && (!p.eof ==> |p.raw| == (if limit < 1 then 1 else limit) && offset < NextOffset(p) < |file|)
      && (p.eof <==> NextOffset(p) >= |file|)
  {
  }

  /** An offset before the beginning reads from the beginning. */
  lemma NegativeOffset(file: seq<Byte>, offset: int, limit: int)
    requires offset < 0
    ensures ReadChunk(file, offset, limit) == ReadChunk(file, 0, limit)
  {
  }

  /** The bytes of the pages read by following the offsets. */
  function Followed(file: seq<Byte>, offset: nat, limit: int): seq<Byte>
    decreases |file| - offset
  {
    var p := ReadChunk(file, offset, limit);
    if p.eof then p.raw else p.raw + Followed(file, NextOffset(p), limit)
  }

  function PageCount(file: seq<Byte>, offset: nat, limit: int): nat
    decreases |file| - offset
  {
    var p := ReadChunk(file, offset, limit);
    if p.eof then 1 else 1 + PageCount(file, NextOffset(p), limit)
  }

  /** `k` pages of `most` bytes are just enough for `n` bytes; none still take one. */
  predicate JustEnough(k: nat, most: nat, n: nat) {
    if n == 0 then k == 1 else (k - 1) * most < n <= k * most
  }

  /** Following the offsets reads the rest of the file, each byte once, whatever the page
      size, in exactly the pages that its size asks for. */
  lemma {:induction false} PagesAreTheFile(file: seq<Byte>, offset: nat, limit: int)
    requires offset <= |file|
    ensures Followed(file, offset, limit) == file[offset..]
    ensures JustEnough(PageCount(file, offset, limit), if limit < 1 then 1 else limit, |file| - offset)
    decreases |file| - offset
  {
    var p := ReadChunk(file, offset, limit);
    var most := if limit < 1 then 1 else limit;
    PageMovesOn(file, offset, limit);
    if !p.eof {
      PagesAreTheFile(file, NextOffset(p), limit);
      assert file[offset..] == p.raw + file[NextOffset(p)..];
      var k := PageCount(file, NextOffset(p), limit);
      MoreByOne(k - 1, most);
      MoreByOne(k, most);
    }
  }

  lemma MoreByOne(n: int, d: int)
    ensures (n + 1) * d == n * d + d
  {
  }
}
