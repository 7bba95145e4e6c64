/** Search-and-replace edits applied to a file all together or not at all. */
module Patch {
  import opened Replace

  datatype Edit = Edit(find: string, into: string, everywhere: bool)

  datatype Flaw =
    | EmptyOld
    | NoChange
    | NotFound
    | NotUnique(occurrences: nat)

  datatype Verdict =
    | Good
    | Bad(flaw: Flaw)

  datatype Reply =
    | FileNotFound
    | Refused(index: nat, why: Flaw)
    | Applied(edits: nat, replacements: nat)

  /** What is wrong with an edit on a text, if anything. */
  function Judge(e: Edit, text: string): Verdict {
    if e.find == "" then Bad(EmptyOld)
    else if e.find == e.into then Bad(NoChange)
    else if Count(text, e.find) == 0 then Bad(NotFound)
    else if Count(text, e.find) > 1 && !e.everywhere then Bad(NotUnique(Count(text, e.find)))
    else Good
  }

  /** Every occurrence replaced: the gaps between them, joined by the new text. */
  function After(e: Edit, text: string): string {
    if e.find == "" then text else Joined(Gaps(text, e.find), e.into)
  }

  function Hits(e: Edit, text: string): nat {
    if e.find == "" then 0 else |Gaps(text, e.find)| - 1
  }

  predicate Step(edits: seq<Edit>, trace: seq<string>, i: nat)
    requires i < |edits| && i + 1 < |trace|
  {
    Judge(edits[i], trace[i]) == Good && trace[i + 1] == After(edits[i], trace[i])
  }

  /** The texts before the first edit, after it, after the second, and so on. */
  predicate Follows(edits: seq<Edit>, trace: seq<string>) {
    && 0 < |trace| <= |edits| + 1
    && forall i :: 0 <= i < |trace| - 1 ==> Step(edits, trace, i)
  }

  function TotalHits(edits: seq<Edit>, trace: seq<string>): nat
    requires |trace| <= |edits| + 1
    decreases |trace|
  {
    if |trace| <= 1 then 0
    else TotalHits(edits, trace[..|trace| - 1]) + Hits(edits[|trace| - 2], trace[|trace| - 2])
  }

  /** What one edit adds to the length. */
  function Growth(e: Edit, hits: nat): int { hits * (|e.into| - |e.find|) }

  function TotalGrowth(edits: seq<Edit>, trace: seq<string>): int
    requires |trace| <= |edits| + 1
    decreases |trace|
  {
    if |trace| <= 1 then 0
    else
      TotalGrowth(edits, trace[..|trace| - 1])
      + Growth(edits[|trace| - 2], Hits(edits[|trace| - 2], trace[|trace| - 2]))
  }

  lemma FollowsPrefix(edits: seq<Edit>, trace: seq<string>, k: nat)
    requires Follows(edits, trace) && 0 < k <= |trace|
    ensures Follows(edits, trace[..k])
  {
    forall i | 0 <= i < k - 1 ensures Step(edits, trace[..k], i) { assert Step(edits, trace, i); }
  }

  lemma StepStays(edits: seq<Edit>, trace: seq<string>, next: string, i: nat)
    requires i < |edits| && i + 1 < |trace| && Step(edits, trace, i)
    ensures Step(edits, trace + [next], i)
  {
    assert (trace + [next])[i] == trace[i] && (trace + [next])[i + 1] == trace[i + 1];
  }

  /** One more accepted edit. */
  lemma FollowsOn(edits: seq<Edit>, trace: seq<string>, next: string)
    requires Follows(edits, trace) && |trace| <= |edits|
    requires Judge(edits[|trace| - 1], trace[|trace| - 1]) == Good
    requires next == After(edits[|trace| - 1], trace[|trace| - 1])
    ensures Follows(edits, trace + [next])
  {
    forall i | 0 <= i < |trace| ensures Step(edits, trace + [next], i) {
      if i < |trace| - 1 { StepStays(edits, trace, next, i); }
    }
  }

  lemma OneMoreHit(edits: seq<Edit>, trace: seq<string>, next: string)
    requires 0 < |trace| <= |edits|
    ensures TotalHits(edits, trace + [next])
      == TotalHits(edits, trace) + Hits(edits[|trace| - 1], trace[|trace| - 1])
  {
    var longer := trace + [next];
    assert longer[..|longer| - 1] == trace;
  }

  /** The edits of a call: the list, or the single edit written in the payload itself. */
  function EditsOf(given: seq<Edit>, single: Edit): seq<Edit> {
    if given == [] then [single] else given
  }

  /** One accepted edit grows the text by its replacements times the change in length. */
  lemma EditGrows(e: Edit, text: string)
    requires Judge(e, text) == Good
    ensures |After(e, text)| == |text| + Growth(e, Hits(e, text))
  {
    ReplaceIsSplitJoin(text, e.find, e.into);
    ReplaceLength(text, e.find, e.into);
  }

  /** The final length is the initial one plus, for each edit, its number of
      replacements times the change in length. */
  lemma {:induction false} LengthIsConserved(edits: seq<Edit>, trace: seq<string>)
    requires Follows(edits, trace)
    ensures |trace[|trace| - 1]| == |trace[0]| + TotalGrowth(edits, trace)
    decreases |trace|
  {
    var n := |trace|;
    if n > 1 {
      FollowsPrefix(edits, trace, n - 1);
      LengthIsConserved(edits, trace[..n - 1]);
      assert Step(edits, trace, n - 2);
      EditGrows(edits[n - 2], trace[n - 2]);
    }
  }

  /** An accepted edit replaces every occurrence, whether or not it asked to: asking for
      one is accepted only when there is exactly one. */
  lemma AcceptedReplacesAll(e: Edit, text: string)
    requires Judge(e, text) == Good
    ensures After(e, text)
      == if e.everywhere then ReplaceAll(text, e.find, e.into) else ReplaceFirst(text, e.find, e.into)
    ensures Hits(e, text) == (if e.everywhere then Count(text, e.find) else 1) > 0
    ensures Occurs(e.find, text)
  {
    ReplaceIsSplitJoin(text, e.find, e.into);
    CountIffOccurs(text, e.find);
    if !e.everywhere { OneIsAll(text, e.find, e.into); }
  }

  predicate NothingShared(a: string, b: string) { forall c :: c in a ==> c !in b }

  /** Where the new text shares no character with the old file, the reverse edit undoes
      the edit. */
  lemma {:induction false} ReverseUndoes(text: string, find: string, into: string)
    requires find != "" && into != "" && NothingShared(into, text)
    ensures ReplaceAll(ReplaceAll(text, find, into), into, find) == text
    decreases |text|
  {
    var out := ReplaceAll(text, find, into);
    if text != "" {
      if PrefixOf(find, text) {
        var rest := text[|find|..];
        ReverseUndoes(rest, find, into);
        assert out[..|into|] == into && out[|into|..] == ReplaceAll(rest, find, into);
        assert find + rest == text;
      } else {
        ReverseUndoes(text[1..], find, into);
        assert out[0] == text[0] && out[1..] == ReplaceAll(text[1..], find, into);
        assert into[0] in into;
        assert |into| <= |out| ==> out[..|into|][0] == out[0];
        assert [text[0]] + text[1..] == text;
      }
    }
  }

  lemma GapsNotEmpty(s: string, find: string)
    requires find != ""
    ensures Gaps(s, find) != []
  {
    ReplaceIsSplitJoin(s, find, find);
  }

  /** `g` begins with the text up to an occurrence and goes on with the cutting of the rest. */
  predicate CutAt(s: string, find: string, g: seq<string>)
    requires find != ""
  {
    && |g| > 1 && |g[0]| + |find| <= |s| && s[..|g[0]|] == g[0]
    && PrefixOf(find, s[|g[0]|..]) && g[1..] == Gaps(s[|g[0]| + |find|..], find)
  }

  lemma CutHere(s: string, find: string)
    requires find != "" && PrefixOf(find, s)
    ensures CutAt(s, find, Gaps(s, find)) && Gaps(s, find)[0] == ""
  {
    var rest := Gaps(s[|find|..], find);
    GapsNotEmpty(s[|find|..], find);
    assert ([""] + rest)[1..] == rest && s[0..] == s;
  }

  lemma CutLater(c: char, s: string, find: string, h: seq<string>)
    requires find != "" && CutAt(s, find, h)
    ensures CutAt([c] + s, find, [[c] + h[0]] + h[1..])
  {
    var t, first, n := [c] + s, [c] + h[0], |h[0]|;
    var g := [first] + h[1..];
    assert g[1..] == h[1..];
    assert t[..n + 1] == [c] + s[..n];
    assert t[n + 1..] == s[n..] && t[n + 1 + |find|..] == s[n + |find|..];
  }

  /** The first cut of a text is at the first occurrence, and the others are those of the
      rest. */
  lemma {:induction false} FirstCut(s: string, find: string, i: nat)
    requires find != "" && i <= |s| && PrefixOf(find, s[i..])
    ensures CutAt(s, find, Gaps(s, find)) && |Gaps(s, find)[0]| <= i
    decreases i
  {
    if PrefixOf(find, s) {
      CutHere(s, find);
    } else {
      assert i > 0 by { assert s[0..] == s; }
      var rest := s[1..];
      assert rest[i - 1..] == s[i..];
      FirstCut(rest, find, i - 1);
      CutLater(s[0], rest, find, Gaps(rest, find));
      assert [s[0]] + rest == s;
    }
  }

  /** Any cutting of a text at occurrences has its first cut no earlier than that. */
  lemma JoinedCut(c: seq<string>, find: string)
    requires find != "" && |c| > 1
    ensures var s := Joined(c, find);
      && |c[0]| + |find| <= |s| && s[..|c[0]|] == c[0] && PrefixOf(find, s[|c[0]|..])
      && s[|c[0]| + |find|..] == Joined(c[1..], find)
  {
    var s, rest := Joined(c, find), Joined(c[1..], find);
    assert s == c[0] + (find + rest);
    assert s[|c[0]|..] == find + rest;
  }

  /** Two texts, each the other with the two pieces exchanged along its own first cuts, are
      cut at the same places. */
  lemma {:induction false} CutsAgree(t: string, find: string, u: string, into: string)
    requires find != "" && into != ""
    requires u == Joined(Gaps(t, find), into) && t == Joined(Gaps(u, into), find)
    ensures Gaps(u, into) == Gaps(t, find)
    decreases |t|
  {
    var g, h := Gaps(t, find), Gaps(u, into);
    GapsNotEmpty(t, find);
    GapsNotEmpty(u, into);
    if |g| > 1 {
      JoinedCut(g, into);
      FirstCut(u, into, |g[0]|);
    }
    if |h| > 1 {
      JoinedCut(h, find);
      FirstCut(t, find, |h[0]|);
      var n := |h[0]|;
      assert g[0] == t[..n] == h[0];
      CutsAgree(t[n + |find|..], find, u[n + |into|..], into);
      assert g == [g[0]] + g[1..] && h == [h[0]] + h[1..];
    } else {
      ReplaceIsSplitJoin(u, into, find);
      assert g == [g[0]] && h == [h[0]];
    }
  }

  /** What does not occur cuts nothing. */
  lemma {:induction false} OneGap(s: string, find: string)
    requires find != ""
    ensures Gaps(s, find) == [s] <==> !Occurs(find, s)
  {
    ReplaceIsSplitJoin(s, find, find);
    CountIffOccurs(s, find);
  }

  /** Between these pieces no occurrence of the text forms, neither inside a piece nor over
      the border to the text put behind it. */
  predicate NothingForms(g: seq<string>, into: string)
    requires into != ""
  {
    g == [] || (if |g| == 1 then !Occurs(into, g[0])
      else !Occurs(into, g[0] + into[..|into| - 1]) && NothingForms(g[1..], into))
  }

  /** An occurrence that begins in the piece lies before the last character put behind it. */
  lemma FormsInFront(piece: string, into: string, rest: string, i: nat)
    requires into != "" && i < |piece|
    ensures PrefixOf(into, (piece + into + rest)[i..]) <==> PrefixOf(into, (piece + into[..|into| - 1])[i..])
  {
    var s, t := piece + into + rest, piece + into[..|into| - 1];
    assert s[..|t|] == t;
    assert i + |into| <= |t|;
    assert s[i..][..|into|] == t[i..][..|into|];
  }

  lemma CutIsThePiece(piece: string, into: string, rest: string, n: nat)
    requires into != "" && n <= |piece|
    requires var s := piece + into + rest;
      PrefixOf(into, s[n..]) && forall i: nat | i <= |s| && PrefixOf(into, s[i..]) :: n <= i
    ensures n == |piece| <==> !Occurs(into, piece + into[..|into| - 1])
  {
    var s, t := piece + into + rest, piece + into[..|into| - 1];
    if n < |piece| {
      FormsInFront(piece, into, rest, n);
      OccursAt(into, t, n);
    } else if Occurs(into, t) {
      var i := OccursSomewhere(into, t);
      FormsInFront(piece, into, rest, i);
    }
  }

  /** The first cut is the first piece exactly when nothing forms there. */
  lemma FirstPieceBack(piece: string, into: string, rest: string, s: string, h: seq<string>)
    requires into != "" && s == piece + into + rest && h == Gaps(s, into)
    ensures CutAt(s, into, h) && (h[0] == piece <==> !Occurs(into, piece + into[..|into| - 1]))
  {
    var n := |piece|;
    assert s[..n] == piece && s[n..] == into + rest;
    FirstCut(s, into, n);
    FirstCutIsLeast(s, into, h);
    CutIsThePiece(piece, into, rest, |h[0]|);
  }

  lemma FirstCutIsLeast(s: string, find: string, h: seq<string>)
    requires find != "" && h == Gaps(s, find) && h != []
    ensures forall i: nat | i <= |s| && PrefixOf(find, s[i..]) :: |h[0]| <= i
  {
    forall i: nat | i <= |s| && PrefixOf(find, s[i..]) ensures |h[0]| <= i { FirstCut(s, find, i); }
  }

  lemma SameCuts(piece: string, into: string, rest: string, s: string, h: seq<string>, g: seq<string>)
    requires into != "" && s == piece + into + rest && CutAt(s, into, h) && |g| > 1 && g[0] == piece
    ensures h == g <==> h[0] == piece && Gaps(rest, into) == g[1..]
  {
    assert s[|piece| + |into|..] == rest;
    assert g == [g[0]] + g[1..] && h == [h[0]] + h[1..];
  }

  /** The pieces are what the text is cut into again exactly when nothing forms. */
  lemma {:induction false} CutsBack(g: seq<string>, into: string)
    requires into != "" && g != []
    ensures Gaps(Joined(g, into), into) == g <==> NothingForms(g, into)
    decreases |g|
  {
    if |g| == 1 {
      OneGap(g[0], into);
      assert g == [g[0]];
    } else {
      var s, rest := Joined(g, into), Joined(g[1..], into);
      var h := Gaps(s, into);
      FirstPieceBack(g[0], into, rest, s, h);
      SameCuts(g[0], into, rest, s, h, g);
      CutsBack(g[1..], into);
    }
  }

  /** Exactly when the reverse edit undoes an edit, by the file before it: when the text put
      in occurs in no piece between the replaced occurrences, and none forms where a piece
      meets the text put behind it. */
  lemma ReverseUndoesIff(text: string, find: string, into: string)
    requires find != "" && into != ""
    ensures ReplaceAll(ReplaceAll(text, find, into), into, find) == text <==> NothingForms(Gaps(text, find), into)
  {
    var out := ReplaceAll(text, find, into);
    ReplaceIsSplitJoin(text, find, into);
    ReplaceIsSplitJoin(out, into, find);
    if ReplaceAll(out, into, find) == text { CutsAgree(text, find, out, into); }
    CutsBack(Gaps(text, find), into);
  }

  /** Two lists of edits in one call do what two successful calls would. */
  lemma OneCallOrTwo(first: seq<Edit>, second: seq<Edit>, t: seq<string>, u: seq<string>)
    requires Follows(first, t) && |t| == |first| + 1
    requires Follows(second, u) && u[0] == t[|t| - 1]
    ensures Follows(first + second, t + u[1..])
  {
    var edits, trace := first + second, t + u[1..];
    forall i | 0 <= i < |trace| - 1
      ensures Step(edits, trace, i)
    {
      if i >= |first| {
        var j := i - |first|;
        assert Step(second, u, j);
        assert edits[i] == second[j] && trace[i] == u[j] && trace[i + 1] == u[j + 1];
      } else {
        assert Step(first, t, i);
        assert edits[i] == first[i] && trace[i] == t[i] && trace[i + 1] == t[i + 1];
      }
    }
  }

  /** A file and the backup copies made of it. */
  class TextFile {
    var present: bool
    var content: string
    var backups: seq<string>

    /** One `patch_file` call. `trace` holds the texts the edits went through. */
    method PatchFile(given: seq<Edit>, single: Edit, dryRun: bool, backup: bool)
      returns (reply: Reply, ghost trace: seq<string>)
      modifies this`content, this`backups
      ensures reply.FileNotFound? <==> !present
      ensures present ==> Follows(EditsOf(given, single), trace) && trace[0] == old(content)
      ensures !reply.Applied? || dryRun ==> content == old(content) && backups == old(backups)
      ensures reply.Refused? ==>
        var edits := EditsOf(given, single);
        && reply.index == |trace| - 1 < |edits|
        && Judge(edits[reply.index], trace[reply.index]) == Bad(reply.why)
      ensures reply.Applied? ==>
        var edits := EditsOf(given, single);
        && |trace| == |edits| + 1
        && reply == Applied(|edits|, TotalHits(edits, trace))
        && (!dryRun ==> content == trace[|edits|])
        && (!dryRun ==> backups == old(backups) + (if backup then [old(content)] else []))
    {
      trace := [];
      if !present { return FileNotFound, trace; }
      var edits := if given == [] then [single] else given;
      var text := content;
      var replacements: nat := 0;
      trace := [text];
      var i := 0;
      while i < |edits|
        invariant 0 <= i <= |edits|
        invariant Follows(edits, trace) && |trace| == i + 1
        invariant trace[0] == old(content) && trace[i] == text
        invariant replacements == TotalHits(edits, trace)
        invariant content == old(content) && backups == old(backups)
      {
        var e := edits[i];
        if e.find == "" { return Refused(i, EmptyOld), trace; }
        if e.find == e.into { return Refused(i, NoChange), trace; }
        var occurrences := Count(text, e.find);
        if occurrences == 0 { return Refused(i, NotFound), trace; }
        if occurrences > 1 && !e.everywhere { return Refused(i, NotUnique(occurrences)), trace; }
        AcceptedReplacesAll(e, text);
        text := if e.everywhere then ReplaceAll(text, e.find, e.into) else ReplaceFirst(text, e.find, e.into);
        replacements := replacements + if e.everywhere then occurrences else 1;
        FollowsOn(edits, trace, text);
        OneMoreHit(edits, trace, text);
        trace := trace + [text];
        i := i + 1;
      }
      if !dryRun {
        if backup { backups := backups + [content]; }
        content := text;
      }
      reply := Applied(|edits|, replacements);
    }
  }
}
