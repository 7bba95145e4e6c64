/** Redaction of secret values: every registered value of at least four characters is
    replaced by a fixed mark, longest value first. Each replacement rewrites a text
    already cleaned of the earlier values, so that nothing comes back is a theorem
    about how the mark and the values can overlap. */
module Redaction {
  import opened Replace

  const REDACTED := "***REDACTED***"
  const MIN_REDACT_LEN: nat := 4

  /** Neither text occurs in the other, and no end of one is a beginning of the other. */
  predicate Apart(v: string, mark: string) {
    && !Occurs(v, mark)
    && !Occurs(mark, v)
    && (forall k: nat :: 0 < k <= |v| && k <= |mark| ==> v[..k] != mark[|mark| - k..])
    && (forall k: nat :: 0 < k <= |v| && k <= |mark| ==> v[|v| - k..] != mark[..k])
  }

  /** Values too short to be replaced are never registered. */
  type Value = v: string | |v| >= MIN_REDACT_LEN witness "****"

  predicate StarFree(v: string) { '*' !in v }

  /** The loop of `redact` over values in a given order. */
  function Redacted(text: string, order: seq<Value>): string
    decreases |order|
  {
    if order == [] then text
    else Redacted(if Occurs(order[0], text) then ReplaceAll(text, order[0], REDACTED) else text, order[1..])
  }

  // ---- one replacement --------------------------------------------------------------

  lemma NowhereIn(p: string, s: string, i: nat)
    requires !Occurs(p, s) && i <= |s|
    ensures !PrefixOf(p, s[i..])
  {
    if PrefixOf(p, s[i..]) { OccursAt(p, s, i); }
  }

  /** The end of a value apart from the mark is not at the front of a text that begins
      with the mark. */
  lemma FrontIsTheMark(v: string, j: nat, mark: string, s: string)
    requires mark != "" && Apart(v, mark) && j < |v|
    ensures !PrefixOf(v[j..], mark + s)
  {
    var u := v[j..];
    assert v[|v| - |u|..] == u;
    NowhereIn(mark, v, j);
    if |u| <= |mark| {
      assert (mark + s)[..|u|] == mark[..|u|];
    } else if |u| <= |mark + s| {
      assert (mark + s)[..|u|][..|mark|] == mark;
    }
  }

  /** The end of a value at the front of a replaced text stood at the front before. */
  lemma {:induction false} FrontStoodThere(v: string, j: nat, t: string, w: string, mark: string)
    requires w != "" && mark != "" && Apart(v, mark)
    requires j <= |v| && PrefixOf(v[j..], ReplaceAll(t, w, mark))
    ensures PrefixOf(v[j..], t)
    decreases |t|
  {
    var u := v[j..];
    if t != "" && u != "" {
      if PrefixOf(w, t) { FrontIsTheMark(v, j, mark, ReplaceAll(t[|w|..], w, mark)); }
      var out := ReplaceAll(t, w, mark);
      assert out == [t[0]] + ReplaceAll(t[1..], w, mark);
      assert u[0] == out[..|u|][0] == t[0];
      assert v[j + 1..] == u[1..] == out[..|u|][1..] == out[1..][..|u| - 1];
      FrontStoodThere(v, j + 1, t[1..], w, mark);
      assert t[..|u|] == [t[0]] + t[1..][..|u| - 1];
      assert u == [u[0]] + u[1..];
    }
  }

  /** A value apart from the mark does not reach across the end of one. */
  lemma NotAt(v: string, mark: string, s: string, i: nat)
    requires v != "" && Apart(v, mark) && !Occurs(v, s) && i <= |mark + s|
    ensures !PrefixOf(v, (mark + s)[i..])
  {
    var at := (mark + s)[i..];
    if i >= |mark| {
      assert at == s[i - |mark|..];
      NowhereIn(v, s, i - |mark|);
    } else if i + |v| <= |mark| {
      NowhereIn(v, mark, i);
      assert at == mark[i..] + s;
    } else {
      var k := |mark| - i;
      assert v[..k] != mark[i..];
      assert |v| <= |at| ==> at[..|v|][..k] == mark[i..];
    }
  }

  lemma NotAcross(v: string, mark: string, s: string)
    requires v != "" && Apart(v, mark) && !Occurs(v, s)
    ensures !Occurs(v, mark + s)
  {
    if Occurs(v, mark + s) {
      var i := OccursSomewhere(v, mark + s);
      NotAt(v, mark, s, i);
    }
  }

  /** Replacing one value removes it, and builds no other value that was absent. */
  lemma {:induction false} NeverBuilt(v: string, t: string, w: string, mark: string)
    requires v != "" && w != "" && mark != "" && Apart(v, mark)
    requires v == w || !Occurs(v, t)
    ensures !Occurs(v, ReplaceAll(t, w, mark))
    decreases |t|
  {
    if t != "" {
      var out := ReplaceAll(t, w, mark);
      if PrefixOf(w, t) {
        if Occurs(v, t[|w|..]) { OccursInSuffix(v, t, |w|); }
        NeverBuilt(v, t[|w|..], w, mark);
        NotAcross(v, mark, ReplaceAll(t[|w|..], w, mark));
      } else {
        NeverBuilt(v, t[1..], w, mark);
        assert out[1..] == ReplaceAll(t[1..], w, mark);
        if PrefixOf(v, out) {
          assert v[0..] == v;
          FrontStoodThere(v, 0, t, w, mark);
        }
      }
    }
  }

  /** Replacing something leaves the mark in the text. */
  lemma {:induction false} MarkAppears(t: string, w: string, mark: string)
    requires w != "" && Occurs(w, t)
    ensures Occurs(mark, ReplaceAll(t, w, mark))
    decreases |t|
  {
    var out := ReplaceAll(t, w, mark);
    if t != "" {
      if PrefixOf(w, t) {
        assert out[..|mark|] == mark;
      } else {
        MarkAppears(t[1..], w, mark);
        assert out[1..] == ReplaceAll(t[1..], w, mark);
      }
    }
  }

  lemma OccursThrough(v: string, m: string, t: string)
    requires Occurs(v, m) && Occurs(m, t)
    ensures Occurs(v, t)
  {
    var i := OccursSomewhere(v, m);
    var j := OccursSomewhere(m, t);
    var at := t[j..];
    assert m[i..] == at[..|m|][i..];
    assert t[i + j..] == at[i..];
    assert t[i + j..][..|v|] == m[i..][..|v|];
    OccursAt(v, t, i + j);
  }

  // ---- all the values ---------------------------------------------------------------

  lemma {:induction false} StaysOut(v: string, text: string, order: seq<Value>)
    requires v != "" && Apart(v, REDACTED) && !Occurs(v, text)
    ensures !Occurs(v, Redacted(text, order))
    decreases |order|
  {
    if order != [] {
      NeverBuilt(v, text, order[0], REDACTED);
      StaysOut(v, if Occurs(order[0], text) then ReplaceAll(text, order[0], REDACTED) else text, order[1..]);
    }
  }

  /** Redaction is complete: whatever the text and the order, no value apart from the
      mark is left. */
  lemma {:induction false} NoneIsLeft(v: string, text: string, order: seq<Value>)
    requires v in order && Apart(v, REDACTED)
    ensures !Occurs(v, Redacted(text, order))
    decreases |order|
  {
    var next := if Occurs(order[0], text) then ReplaceAll(text, order[0], REDACTED) else text;
    if v == order[0] {
      NeverBuilt(v, text, v, REDACTED);
      StaysOut(v, next, order[1..]);
    } else {
      NoneIsLeft(v, next, order[1..]);
    }
  }

  /** A text that holds none of the values is returned as it is. */
  lemma {:induction false} CleanIsUnchanged(text: string, order: seq<Value>)
    requires forall w :: w in order ==> !Occurs(w, text)
    ensures Redacted(text, order) == text
    decreases |order|
  {
    if order != [] { CleanIsUnchanged(text, order[1..]); }
  }

  /** Redacting again, in any order of the same values, changes nothing. */
  lemma RedactingTwiceIsOnce(text: string, order: seq<Value>, again: seq<Value>)
    requires forall w :: w in order ==> Apart(w, REDACTED)
    requires forall w :: w in again ==> w in order
    ensures Redacted(Redacted(text, order), again) == Redacted(text, order)
  {
    forall w | w in again ensures !Occurs(w, Redacted(text, order)) { NoneIsLeft(w, text, order); }
    CleanIsUnchanged(Redacted(text, order), again);
  }

  lemma {:induction false} FirstOccurs(p: string, s: string)
    requires p != "" && Occurs(p, s)
    ensures p[0] in s
    decreases |s|
  {
    if PrefixOf(p, s) { assert s[..|p|][0] == s[0]; } else { FirstOccurs(p, s[1..]); }
  }

  /** For values without `*`, being apart from the mark is not being part of it. */
  lemma StarFreeIsApart(v: string)
    requires StarFree(v) && v != ""
    ensures Apart(v, REDACTED) <==> !Occurs(v, REDACTED)
  {
    if Occurs(REDACTED, v) { FirstOccurs(REDACTED, v); }
    forall k: nat | 0 < k <= |v| && k <= |REDACTED|
      ensures v[..k] != REDACTED[|REDACTED| - k..] && v[|v| - k..] != REDACTED[..k]
    {
      assert REDACTED[|REDACTED| - k..][k - 1] == '*';
      assert v[..k][k - 1] == v[k - 1];
      assert REDACTED[..k][0] == '*';
      assert v[|v| - k..][0] == v[|v| - k];
    }
  }

  lemma {:induction false} PartOfTheMarkShows(v: string, text: string, order: seq<Value>)
    requires Occurs(v, REDACTED)
    requires (text == v && v in order) || Occurs(REDACTED, text)
    ensures Occurs(v, Redacted(text, order))
    decreases |order|
  {
    if order == [] {
      OccursThrough(v, REDACTED, text);
    } else {
      var w := order[0];
      if Occurs(w, text) {
        MarkAppears(text, w, REDACTED);
        PartOfTheMarkShows(v, ReplaceAll(text, w, REDACTED), order[1..]);
      } else {
        ReplaceSelf(w, REDACTED);
        PartOfTheMarkShows(v, text, order[1..]);
      }
    }
  }

  ghost predicate AlwaysClean(order: seq<Value>)
  {
    forall text: string, v: Value :: v in order ==> !Occurs(v, Redacted(text, order))
  }

  /** Exactly when redaction by values without `*` is complete on every text: when no
      value is part of the mark itself. */
  lemma CleanIffOutsideTheMark(order: seq<Value>)
    requires forall v :: v in order ==> StarFree(v)
    ensures AlwaysClean(order) <==> forall v :: v in order ==> !Occurs(v, REDACTED)
  {
    if AlwaysClean(order) {
      forall v | v in order ensures !Occurs(v, REDACTED) {
        if Occurs(v, REDACTED) {
          PartOfTheMarkShows(v, v, order);
        }
      }
    }
    if forall v :: v in order ==> !Occurs(v, REDACTED) {
      forall text: string, v | v in order ensures !Occurs(v, Redacted(text, order)) {
        StarFreeIsApart(v);
        NoneIsLeft(v, text, order);
      }
    }
  }

  // ---- a value that can overlap the mark --------------------------------------------

  /** A value put behind a beginning of itself is found there and no earlier, if the
      character it is cut at is not the one it begins with. */
  lemma {:induction false} ReplaceBehind(v: string, i: nat, j: nat, rest: string, mark: string)
    requires j <= i < |v| && v[i] != v[0]
    ensures ReplaceAll(v[j..i] + (v + rest), v, mark) == v[j..i] + (mark + ReplaceAll(rest, v, mark))
    decreases i - j
  {
    if j == i {
      ReplaceFront(v, rest, mark);
      assert v[j..i] + (v + rest) == v + rest;
      assert v[j..i] + (mark + ReplaceAll(rest, v, mark)) == mark + ReplaceAll(rest, v, mark);
    } else {
      var t := v[j..i] + (v + rest);
      NotYet(v, i, j, rest);
      assert v[j..i] == [v[j]] + v[j + 1..i];
      Regroup([v[j]], v[j + 1..i], v + rest);
      assert t == [v[j]] + (v[j + 1..i] + (v + rest));
      assert t[1..] == v[j + 1..i] + (v + rest);
      ReplaceBehind(v, i, j + 1, rest, mark);
      Regroup([v[j]], v[j + 1..i], mark + ReplaceAll(rest, v, mark));
    }
  }

  lemma NotYet(v: string, i: nat, j: nat, rest: string)
    requires j < i < |v| && v[i] != v[0]
    ensures !PrefixOf(v, v[j..i] + (v + rest))
  {
    var t := v[j..i] + (v + rest);
    assert t[0] == v[j] && t[i] == v[j];
    assert |v| <= |t| ==> t[..|v|][0] == t[0] && t[..|v|][i] == t[i];
  }

  lemma ReplaceFront(v: string, rest: string, mark: string)
    requires v != ""
    ensures ReplaceAll(v + rest, v, mark) == mark + ReplaceAll(rest, v, mark)
  {
    assert (v + rest)[..|v|] == v && (v + rest)[|v|..] == rest;
  }

  lemma ShorterStays(t: string, v: string, mark: string)
    requires |t| < |v|
    ensures ReplaceAll(t, v, mark) == t
  {
    if Occurs(v, t) { OccursIsShorter(v, t); }
    NothingToReplace(t, v, mark);
  }

  lemma HeldInside(a: string, v: string, b: string)
    ensures Occurs(v, a + (v + b))
  {
    var text := a + (v + b);
    assert text[|a|..] == v + b;
    assert text[|a|..][..|v|] == v;
    OccursAt(v, text, |a|);
  }

  lemma HeldFront(v: string, b: string)
    ensures Occurs(v, v + b)
  {
    assert (v + b)[..|v|] == v;
  }

  lemma HeldBack(a: string, v: string)
    ensures Occurs(v, a + v)
  {
    HeldInside(a, v, "");
    assert v + "" == v;
  }

  /** A value that begins as the mark ends: the mark's end and the rest make it again. */
  lemma ComesBackBefore(c: string, a: string, b: string)
    requires a != ""
    ensures var v, mark := a + b, c + a;
      Occurs(v, v + b) && Occurs(v, ReplaceAll(v + b, v, mark))
  {
    var v, mark := a + b, c + a;
    HeldFront(v, b);
    ReplaceFront(v, b, mark);
    ShorterStays(b, v, mark);
    Regroup(c, a, b);
    HeldBack(c, v);
  }

  /** A value that ends as the mark begins: its beginning and the mark's make it again. */
  lemma ComesBackBehind(a: string, b: string, c: string)
    requires a != "" && b != "" && b[0] != a[0]
    ensures var v, mark := a + b, b + c;
      Occurs(v, a + v) && Occurs(v, ReplaceAll(a + v, v, mark))
  {
    var v, mark := a + b, b + c;
    HeldBack(a, v);
    BehindItself(a, b, "", mark);
    assert v + "" == v && mark + "" == mark;
    Regroup(a, b, c);
    HeldFront(v, c);
  }

  /** A value that holds the mark: put in the mark's place within itself. */
  lemma ComesBackAround(a: string, mark: string, b: string)
    requires a != "" && mark != "" && mark[0] != a[0]
    ensures var v := a + (mark + b);
      Occurs(v, a + (v + b)) && Occurs(v, ReplaceAll(a + (v + b), v, mark))
  {
    var v := a + (mark + b);
    HeldInside(a, v, b);
    BehindItself(a, mark + b, b, mark);
    ShorterStays(b, v, mark);
    ReplaceSelf(v, mark);
  }

  lemma BehindItself(a: string, b: string, rest: string, mark: string)
    requires a != "" && b != "" && b[0] != a[0]
    ensures ReplaceAll(a + ((a + b) + rest), a + b, mark) == a + (mark + ReplaceAll(rest, a + b, mark))
  {
    var v := a + b;
    assert v[0..|a|] == a && v[|a|] == b[0];
    ReplaceBehind(v, |a|, 0, rest, mark);
  }

  /** A value that is not apart from a mark that begins and ends with one character has a
      text in which replacing it leaves it. */
  lemma NotApartComesBack(v: string, mark: string) returns (text: string)
    requires |v| > 1 && mark != "" && mark[0] == mark[|mark| - 1] && !Apart(v, mark)
    ensures Occurs(v, text) && Occurs(v, ReplaceAll(text, v, mark))
  {
    if Occurs(v, mark) {
      ReplaceSelf(v, mark);
      text := v;
    } else if v[0] == mark[0] {
      text := BeginningComesBack(v, 1, mark);
    } else if Occurs(mark, v) {
      var i := OccursSomewhere(mark, v);
      text := InsideComesBack(v, i, mark);
    } else {
      text := OverlapComesBack(v, mark);
    }
  }

  lemma BeginningComesBack(v: string, k: nat, mark: string) returns (text: string)
    requires 0 < k <= |v| && k <= |mark| && v[..k] == mark[|mark| - k..]
    ensures Occurs(v, text) && Occurs(v, ReplaceAll(text, v, mark))
  {
    var a, b, c := v[..k], v[k..], mark[..|mark| - k];
    assert v == a + b && mark == c + a;
    text := v + b;
    ComesBackBefore(c, a, b);
  }

  lemma InsideComesBack(v: string, i: nat, mark: string) returns (text: string)
    requires mark != "" && |v| > 1 && v[0] != mark[0] && i <= |v| && PrefixOf(mark, v[i..])
    ensures Occurs(v, text) && Occurs(v, ReplaceAll(text, v, mark))
  {
    var tail := v[i..];
    var a, b := v[..i], tail[|mark|..];
    assert tail == mark + b && v == a + (mark + b);
    text := a + (v + b);
    ComesBackAround(a, mark, b);
  }

  lemma EndComesBack(v: string, k: nat, mark: string) returns (text: string)
    requires 0 < k <= |v| && k <= |mark| && v[|v| - k..] == mark[..k] && v[0] != mark[0]
    ensures Occurs(v, text) && Occurs(v, ReplaceAll(text, v, mark))
  {
    var a, b, c := v[..|v| - k], mark[..k], mark[k..];
    assert v == a + b && mark == b + c && b[0] == mark[0];
    text := a + v;
    ComesBackBehind(a, b, c);
  }

  lemma OverlapComesBack(v: string, mark: string) returns (text: string)
    requires |v| > 1 && mark != "" && !Occurs(v, mark) && v[0] != mark[0]
    requires !Apart(v, mark) && !Occurs(mark, v)
    ensures Occurs(v, text) && Occurs(v, ReplaceAll(text, v, mark))
  {
    if k: nat :| 0 < k <= |v| && k <= |mark| && v[..k] == mark[|mark| - k..] {
      text := BeginningComesBack(v, k, mark);
    } else {
      var k: nat :| 0 < k <= |v| && k <= |mark| && v[|v| - k..] == mark[..k];
      text := EndComesBack(v, k, mark);
    }
  }

  /** Exactly when redacting one value, any value, is complete on every text. */
  lemma CleanIffApart(v: Value)
    ensures AlwaysClean([v]) <==> Apart(v, REDACTED)
  {
    if Apart(v, REDACTED) {
      forall text: string, w: Value | w in [v] ensures !Occurs(w, Redacted(text, [v])) { NoneIsLeft(v, text, [v]); }
    } else {
      var text := NotApartComesBack(v, REDACTED);
      RedactedByOne(text, v);
      assert v in [v] && Occurs(v, Redacted(text, [v]));
    }
  }

  lemma ReplaceSelf(v: string, mark: string)
    requires v != ""
    ensures ReplaceAll(v, v, mark) == mark && Occurs(v, v)
  {
    assert v[..|v|] == v && v[|v|..] == "";
    assert mark + "" == mark;
  }

  /** Each value in turn cut out of what the one before left, and the mark put in its places. */
  ghost predicate MarkedInTurn(text: string, order: seq<Value>, out: string)
    decreases |order|
  {
    if order == [] then out == text
    else MarkedInTurn(Joined(Gaps(text, order[0]), "***REDACTED***"), order[1..], out)
  }

  /** What the loop leaves of a text: the text with each value in turn replaced by the mark,
      and nothing else. */
  lemma {:induction false} RedactedInTurn(text: string, order: seq<Value>, out: string)
    ensures MarkedInTurn(text, order, out) <==> out == Redacted(text, order)
    decreases |order|
  {
    if order != [] {
      ReplaceIsSplitJoin(text, order[0], REDACTED);
      if !Occurs(order[0], text) { NothingToReplace(text, order[0], REDACTED); }
      RedactedInTurn(Joined(Gaps(text, order[0]), REDACTED), order[1..], out);
    }
  }

  lemma RedactedByOne(t: string, v: Value)
    ensures Redacted(t, [v]) == if Occurs(v, t) then ReplaceAll(t, v, REDACTED) else t
  {
  }

  // ---- why the longest goes first ---------------------------------------------------

  predicate LongestFirst(order: seq<Value>) {
    forall i, j :: 0 <= i < j < |order| ==> |order[i]| >= |order[j]|
  }

  lemma OccursIsShorter(p: string, s: string)
    requires Occurs(p, s)
    ensures |p| < |s| || p == s
  {
    var i := OccursSomewhere(p, s);
    if i == 0 { assert s[0..] == s; }
  }

  /** Longest first, a value on its own becomes the mark and nothing of it is left. */
  lemma {:induction false} ValueBecomesTheMark(v: Value, order: seq<Value>)
    requires forall w :: w in order ==> !Occurs(w, REDACTED)
    requires LongestFirst(order) && v in order
    ensures Redacted(v, order) == "***REDACTED***"
    decreases |order|
  {
    var w := order[0];
    if w == v {
      ReplaceSelf(v, REDACTED);
      CleanIsUnchanged(REDACTED, order[1..]);
    } else {
      if Occurs(w, v) { OccursIsShorter(w, v); }
      ValueBecomesTheMark(v, order[1..]);
    }
  }

  /** Shortest first, the end of a longer secret would stay in clear. */
  lemma ShortestFirstLeaksTheRest(w: Value, rest: string)
    requires rest != "" && !Occurs(w, rest) && Apart(w + rest, REDACTED)
    ensures Redacted(w + rest, [w, w + rest]) == REDACTED + rest
  {
    var v: Value := w + rest;
    assert v[..|w|] == w && v[|w|..] == rest;
    NothingToReplace(rest, w, REDACTED);
    if Occurs(v, rest) { OccursIsShorter(v, rest); }
    NotAcross(v, REDACTED, rest);
    assert [w, v][1..] == [v];
    RedactedByOne(REDACTED + rest, v);
  }

  // ---- the registry -----------------------------------------------------------------

  lemma LongestExists(values: set<Value>) returns (v: Value)
    requires values != {}
    ensures v in values && forall w :: w in values ==> |w| <= |v|
    decreases |values|
  {
    v :| v in values;
    var rest := values - {v};
    if rest == {} {
      assert values == {v};
    } else {
      var u := LongestExists(rest);
      assert forall w :: w in values ==> w == v || w in rest;
      if |u| > |v| { v := u; }
    }
  }

  /** `sorted(candidates, key=len, reverse=True)`; how ties fall is not determined. */
  method SortedByLength(values: set<Value>) returns (order: seq<Value>)
    ensures LongestFirst(order)
    ensures forall v :: v in order <==> v in values
  {
    order := [];
    var rest := values;
    while rest != {}
      invariant rest <= values
      invariant forall v :: v in values <==> v in order || v in rest
      invariant forall i, w :: 0 <= i < |order| && w in rest ==> |order[i]| >= |w|
      invariant LongestFirst(order)
      decreases |rest|
    {
      ghost var longest := LongestExists(rest);
      var v :| v in rest && forall w :: w in rest ==> |w| <= |v|;
      order := order + [v];
      rest := rest - {v};
    }
  }

  /** The process-wide set of values. */
  class ValueRegistry {
    var known: set<Value>

    constructor ()
      ensures known == {}
    {
      known := {};
    }

    method RegisterValue(value: string)
      modifies this
      ensures known == old(known) + (if |value| >= 4 then {value} else {})
    {
      if |value| >= MIN_REDACT_LEN { known := known + {value}; }
    }

    /** Registered values and long enough extra ones. */
    function Candidates(values: seq<string>): set<Value>
      reads this
    {
      known + (set v: Value | v in values)
    }

    /** One call of `redact`: the text after the loop, for some longest-first order of
        exactly the candidates; with star-free candidates outside the mark, none of
        them is left. */
    method Redact(text: string, values: seq<string>) returns (masked: string, ghost order: seq<Value>)
      ensures LongestFirst(order) && forall v :: v in order <==> v in known || (v in values && |v| >= 4)
      ensures masked == Redacted(text, order) && MarkedInTurn(text, order, masked)
      ensures forall v :: v in Candidates(values) && StarFree(v) && !Occurs(v, REDACTED) ==> !Occurs(v, masked)
      ensures (forall v :: v in Candidates(values) ==> !Occurs(v, text)) ==> masked == text
    {
      var sorted := SortedByLength(Candidates(values));
      order := sorted;
      masked := text;
      var i := 0;
      assert sorted[0..] == sorted;
      while i < |sorted|
        invariant 0 <= i <= |sorted|
        invariant Redacted(masked, sorted[i..]) == Redacted(text, sorted)
      {
        assert sorted[i..][1..] == sorted[i + 1..];
        if Occurs(sorted[i], masked) {
          masked := ReplaceAll(masked, sorted[i], REDACTED);
        }
        i := i + 1;
      }
      assert |sorted[i..]| == 0;
      RedactedInTurn(text, order, masked);
      forall v | v in Candidates(values) && StarFree(v) && !Occurs(v, REDACTED) ensures !Occurs(v, masked) {
        StarFreeIsApart(v);
        NoneIsLeft(v, text, order);
      }
      if forall v :: v in Candidates(values) ==> !Occurs(v, text) {
        CleanIsUnchanged(text, order);
      }
    }
  }
}
