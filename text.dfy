/** Literal (non-regular-expression) text replacement, as performed by Java's
    `String.replace(CharSequence, CharSequence)`: occurrences of the target are
    found from left to right and never overlap: each occurrence that starts
    inside an occurrence already replaced is skipped. */
module Text {

  /** `pat` occurs in `s` starting at index `i`. */
  predicate OccursAt(s: string, pat: string, i: int) {
    0 <= i && i + |pat| <= |s| && s[i..i + |pat|] == pat
  }

  predicate Contains(s: string, pat: string) {
    exists i :: 0 <= i <= |s| && OccursAt(s, pat, i)
  }

  /** Replaces every non-overlapping occurrence of `pat` in `s`, scanning left to
      right, by `rep`. */
  function ReplaceAll(s: string, pat: string, rep: string): string
    requires |pat| > 0
    decreases |s|
  {
    if |s| < |pat| then s
    else if s[..|pat|] == pat then rep + ReplaceAll(s[|pat|..], pat, rep)
    else [s[0]] + ReplaceAll(s[1..], pat, rep)
  }

  /** The pieces of `s` between the occurrences that `ReplaceAll` replaces:
      a reference definition of replacement, independent of the replacement text. */
  function Split(s: string, pat: string): (pieces: seq<string>)
    requires |pat| > 0
    ensures |pieces| > 0
    decreases |s|
  {
    if |s| < |pat| then [s]
    else if s[..|pat|] == pat then [""] + Split(s[|pat|..], pat)
    else
      var rest := Split(s[1..], pat);
      [[s[0]] + rest[0]] + rest[1..]
  }

  /** The pieces glued back together with `sep` between consecutive pieces. */
  function Join(pieces: seq<string>, sep: string): string
    requires |pieces| > 0
  {
    if |pieces| == 1 then pieces[0] else pieces[0] + sep + Join(pieces[1..], sep)
  }

  lemma JoinConsChar(c: char, pieces: seq<string>, sep: string)
    requires |pieces| > 0
    ensures Join([[c] + pieces[0]] + pieces[1..], sep) == [c] + Join(pieces, sep)
  {
    var ps := [[c] + pieces[0]] + pieces[1..];
    if |pieces| > 1 {
      assert ps[1..] == pieces[1..];
    }
  }

  /** Replacement is splitting at the occurrences `Split` finds (leftmost
      first, non-overlapping) and joining with the replacement text: those
      occurrences are replaced, and nothing else changes. */
  lemma {:induction false} ReplaceAllIsSplitJoin(s: string, pat: string, rep: string)
    requires |pat| > 0
    ensures ReplaceAll(s, pat, rep) == Join(Split(s, pat), rep)
    decreases |s|
  {
    if |s| < |pat| {
    } else if s[..|pat|] == pat {
      ReplaceAllIsSplitJoin(s[|pat|..], pat, rep);
      var ps := [""] + Split(s[|pat|..], pat);
      assert ps[1..] == Split(s[|pat|..], pat);
    } else {
      ReplaceAllIsSplitJoin(s[1..], pat, rep);
      JoinConsChar(s[0], Split(s[1..], pat), rep);
    }
  }

  /** Replacing the target by itself changes nothing. */
  lemma {:induction false} ReplaceAllBySelf(s: string, pat: string)
    requires |pat| > 0
    ensures ReplaceAll(s, pat, pat) == s
    decreases |s|
  {
    if |s| < |pat| {
    } else if s[..|pat|] == pat {
      ReplaceAllBySelf(s[|pat|..], pat);
      assert s == s[..|pat|] + s[|pat|..];
    } else {
      ReplaceAllBySelf(s[1..], pat);
      assert s == [s[0]] + s[1..];
    }
  }

  /** Round trip: joining the pieces with the target gives back the original. */
  lemma SplitJoinRoundTrip(s: string, pat: string)
    requires |pat| > 0
    ensures Join(Split(s, pat), pat) == s
  {
    ReplaceAllIsSplitJoin(s, pat, pat);
    ReplaceAllBySelf(s, pat);
  }

  lemma {:induction false} SplitFirstIsPrefix(s: string, pat: string)
    requires |pat| > 0
    ensures |Split(s, pat)[0]| <= |s| && s[..|Split(s, pat)[0]|] == Split(s, pat)[0]
    decreases |s|
  {
    if |s| < |pat| {
    } else if s[..|pat|] == pat {
    } else {
      SplitFirstIsPrefix(s[1..], pat);
      var p := Split(s[1..], pat)[0];
      assert s[..1 + |p|] == [s[0]] + s[1..][..|p|];
    }
  }

  lemma OccurrenceShift(c: char, p: string, pat: string, j: int)
    requires OccursAt([c] + p, pat, j) && j > 0
    ensures OccursAt(p, pat, j - 1)
  {
    assert ([c] + p)[j..j + |pat|] == p[j - 1..j - 1 + |pat|];
  }

  /** No piece contains the target. For a target that cannot overlap itself
      (such as the three placeholders) it follows that the occurrences in `s`
      are exactly the boundaries between consecutive pieces; that consequence
      is not proved here. For a target that can overlap itself, an occurrence
      may also straddle a boundary. */
  lemma {:induction false} SplitPiecesAreFree(s: string, pat: string)
    requires |pat| > 0
    ensures forall i :: 0 <= i < |Split(s, pat)| ==> !Contains(Split(s, pat)[i], pat)
    decreases |s|
  {
    var ps := Split(s, pat);
    if |s| < |pat| {
      assert ps == [s];
    } else if s[..|pat|] == pat {
      SplitPiecesAreFree(s[|pat|..], pat);
      assert ps[0] == "";
      forall i | 1 <= i < |ps| ensures ps[i] == Split(s[|pat|..], pat)[i - 1] { }
    } else {
      var rest := Split(s[1..], pat);
      SplitPiecesAreFree(s[1..], pat);
      SplitFirstIsPrefix(s[1..], pat);
      var first := [s[0]] + rest[0];
      forall j | 0 <= j <= |first| ensures !OccursAt(first, pat, j) {
        if j > 0 && OccursAt(first, pat, j) {
          OccurrenceShift(s[0], rest[0], pat, j);
        }
      }
      forall i | 1 <= i < |ps| ensures ps[i] == rest[i] { }
    }
  }

  /** A string in which the target does not occur is left unchanged. */
  lemma {:induction false} ReplaceAllAbsent(s: string, pat: string, rep: string)
    requires |pat| > 0
    requires !Contains(s, pat)
    ensures ReplaceAll(s, pat, rep) == s
    decreases |s|
  {
    if |s| < |pat| {
    } else {
      assert !OccursAt(s, pat, 0);
      forall i | OccursAt(s[1..], pat, i) ensures OccursAt(s, pat, i + 1) {
        assert s[1..][i..i + |pat|] == s[i + 1..i + 1 + |pat|];
      }
      ReplaceAllAbsent(s[1..], pat, rep);
      assert s == [s[0]] + s[1..];
    }
  }

  /** A string without the target's first character does not contain it. */
  lemma WithoutLeadNotContained(s: string, pat: string)
    requires |pat| > 0 && pat[0] !in s
    ensures !Contains(s, pat)
  {
    forall i | 0 <= i <= |s| ensures !OccursAt(s, pat, i) {
      if i + |pat| <= |s| {
        assert s[i..i + |pat|][0] == s[i];
      }
    }
  }

  /** A string without the target's first character is left unchanged. */
  lemma ReplaceAllWithoutLead(s: string, pat: string, rep: string)
    requires |pat| > 0 && pat[0] !in s
    ensures ReplaceAll(s, pat, rep) == s
  {
    WithoutLeadNotContained(s, pat);
    ReplaceAllAbsent(s, pat, rep);
  }

  /** A string that shares only its first character with the target's start,
      and has no other occurrence of that character, is left unchanged. */
  lemma ReplaceAllMismatchAfterLead(s: string, pat: string, rep: string)
    requires |pat| > 1 && |s| > 1 && s[1] != pat[1] && pat[0] !in s[1..]
    ensures ReplaceAll(s, pat, rep) == s
  {
    if |s| >= |pat| {
      assert s[..|pat|][1] != pat[1];
    }
    ReplaceAllWithoutLead(s[1..], pat, rep);
    assert s == [s[0]] + s[1..];
  }

  /** A string that starts with the target has it replaced first. */
  lemma ReplaceAllLeading(pat: string, rest: string, rep: string)
    requires |pat| > 0
    ensures ReplaceAll(pat + rest, pat, rep) == rep + ReplaceAll(rest, pat, rep)
  {
    var s := pat + rest;
    assert s[..|pat|] == pat;
    assert s[|pat|..] == rest;
  }
}
