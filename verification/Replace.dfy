/** Substrings, and `str.count` and `str.replace`: leftmost first, without overlaps. */
module Replace {

  predicate PrefixOf(p: string, s: string) { |p| <= |s| && s[..|p|] == p }

  /** `p in s`. */
  predicate Occurs(p: string, s: string) {
    PrefixOf(p, s) || (s != "" && Occurs(p, s[1..]))
  }

  /** `s.count(old)`. */
  function Count(s: string, find: string): nat
    requires find != ""
    decreases |s|
  {
    if s == "" then 0
    else if PrefixOf(find, s) then 1 + Count(s[|find|..], find)
    else Count(s[1..], find)
  }

  /** `s.replace(old, new)`. */
  function ReplaceAll(s: string, find: string, into: string): string
    requires find != ""
    decreases |s|
  {
    if s == "" then ""
    else if PrefixOf(find, s) then into + ReplaceAll(s[|find|..], find, into)
    else [s[0]] + ReplaceAll(s[1..], find, into)
  }

  /** `s.replace(old, new, 1)`. */
  function ReplaceFirst(s: string, find: string, into: string): string
    requires find != ""
    decreases |s|
  {
    if s == "" then ""
    else if PrefixOf(find, s) then into + s[|find|..]
    else [s[0]] + ReplaceFirst(s[1..], find, into)
  }

  /** Occurrence, by position. */
  lemma {:induction false} OccursAt(p: string, s: string, i: nat)
    requires i <= |s| && PrefixOf(p, s[i..])
    ensures Occurs(p, s)
    decreases i
  {
    if i > 0 {
      assert s[1..][i - 1..] == s[i..];
      OccursAt(p, s[1..], i - 1);
    } else {
      assert s[0..] == s;
    }
  }

  lemma {:induction false} OccursSomewhere(p: string, s: string) returns (i: nat)
    requires Occurs(p, s)
    ensures i <= |s| && PrefixOf(p, s[i..])
  {
    if PrefixOf(p, s) {
      i := 0;
      assert s[0..] == s;
    } else {
      i := OccursSomewhere(p, s[1..]);
      i := i + 1;
      assert s[1..][i - 1..] == s[i..];
    }
  }

  /** What occurs in a suffix occurs in the whole. */
  lemma {:induction false} OccursInSuffix(p: string, s: string, k: nat)
    requires k <= |s| && Occurs(p, s[k..])
    ensures Occurs(p, s)
    decreases k
  {
    if k > 0 {
      assert s[1..][k - 1..] == s[k..];
      OccursInSuffix(p, s[1..], k - 1);
    } else {
      assert s[0..] == s;
    }
  }

  lemma {:induction false} CountIffOccurs(s: string, find: string)
    requires find != ""
    ensures Count(s, find) > 0 <==> Occurs(find, s)
    decreases |s|
  {
    if s != "" && !PrefixOf(find, s) { CountIffOccurs(s[1..], find); }
  }

  /** Replacing changes the length by the number of occurrences times the difference. */
  lemma {:induction false} ReplaceLength(s: string, find: string, into: string)
    requires find != ""
    ensures |ReplaceAll(s, find, into)| == |s| + Count(s, find) * (|into| - |find|)
    decreases |s|
  {
    if s != "" {
      if PrefixOf(find, s) {
        var rest := s[|find|..];
        ReplaceLength(rest, find, into);
        OneMore(Count(rest, find), |into| - |find|);
      } else {
        ReplaceLength(s[1..], find, into);
      }
    }
  }

  lemma OneMore(c: int, d: int)
    ensures (1 + c) * d == d + c * d
  {
  }

  lemma {:induction false} NothingToReplace(s: string, find: string, into: string)
    requires find != "" && !Occurs(find, s)
    ensures ReplaceAll(s, find, into) == s && Count(s, find) == 0
    decreases |s|
  {
    if s != "" { NothingToReplace(s[1..], find, into); }
  }

  /** With one occurrence, replacing the first replaces all. */
  lemma {:induction false} OneIsAll(s: string, find: string, into: string)
    requires find != "" && Count(s, find) == 1
    ensures ReplaceFirst(s, find, into) == ReplaceAll(s, find, into)
    decreases |s|
  {
    if PrefixOf(find, s) {
      var rest := s[|find|..];
      CountIffOccurs(rest, find);
      NothingToReplace(rest, find, into);
    } else {
      OneIsAll(s[1..], find, into);
    }
  }

  /** A text cut into what lies between the replaced occurrences. */
  function Gaps(s: string, find: string): seq<string>
    requires find != ""
    decreases |s|
  {
    if s == "" then [""]
    else if PrefixOf(find, s) then [""] + Gaps(s[|find|..], find)
    else
      var rest := Gaps(s[1..], find);
      [[s[0]] + (if rest != [] then rest[0] else "")] + (if rest != [] then rest[1..] else [])
  }

  function Joined(parts: seq<string>, into: string): string {
    if parts == [] then "" else if |parts| == 1 then parts[0] else parts[0] + into + Joined(parts[1..], into)
  }

  lemma JoinedPrepend(c: char, parts: seq<string>, into: string)
    requires parts != []
    ensures Joined([[c] + parts[0]] + parts[1..], into) == [c] + Joined(parts, into)
  {
    var more := [[c] + parts[0]] + parts[1..];
    assert more[1..] == parts[1..];
    if |parts| > 1 {
      assert ([c] + parts[0]) + into + Joined(parts[1..], into) == [c] + (parts[0] + into + Joined(parts[1..], into));
    }
  }

  lemma {:induction false} SplitJoin(s: string, find: string, into: string)
    requires find != ""
    ensures |Gaps(s, find)| == Count(s, find) + 1
    ensures ReplaceAll(s, find, into) == Joined(Gaps(s, find), into)
    decreases |s|
  {
    if s != "" {
      if PrefixOf(find, s) {
        var g := Gaps(s[|find|..], find);
        SplitJoin(s[|find|..], find, into);
        assert ([""] + g)[1..] == g;
        assert "" + into + Joined(g, into) == into + Joined(g, into);
      } else {
        SplitJoin(s[1..], find, into);
        JoinedPrepend(s[0], Gaps(s[1..], find), into);
      }
    }
  }

  lemma {:induction false} ReplaceBySelf(s: string, find: string)
    requires find != ""
    ensures ReplaceAll(s, find, find) == s
    decreases |s|
  {
    if s != "" { ReplaceBySelf(if PrefixOf(find, s) then s[|find|..] else s[1..], find); }
  }

  /** Replacement is splitting at the occurrences and joining by the new text; the
      number of cuts is the count, and joining by the old text gives the text back. */
  lemma ReplaceIsSplitJoin(s: string, find: string, into: string)
    requires find != ""
    ensures |Gaps(s, find)| == Count(s, find) + 1
    ensures ReplaceAll(s, find, into) == Joined(Gaps(s, find), into)
    ensures s == Joined(Gaps(s, find), find)
  {
    SplitJoin(s, find, into);
    SplitJoin(s, find, find);
    ReplaceBySelf(s, find);
  }

  lemma Regroup(x: string, y: string, z: string)
    ensures x + (y + z) == (x + y) + z
  {
  }
}
