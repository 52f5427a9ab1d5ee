/** The "simple" pattern language of dynamic templates: a pattern matches a
    whole string, and `*` stands for any run of zero or more characters; every
    other character stands for itself. */
module Glob {

  function SimpleMatch(pattern: string, s: string): bool
    decreases |pattern| + |s|
  {
    if |pattern| == 0 then |s| == 0
    else if pattern[0] == '*' then SimpleMatch(pattern[1..], s) || (|s| > 0 && SimpleMatch(pattern, s[1..]))
    else |s| > 0 && pattern[0] == s[0] && SimpleMatch(pattern[1..], s[1..])
  }

  /** A pattern without `*` matches exactly itself. */
  lemma {:induction false} LiteralMatchesOnlyItself(pattern: string, s: string)
    requires '*' !in pattern
    ensures SimpleMatch(pattern, s) <==> pattern == s
  {
    if |pattern| > 0 && |s| > 0 {
      assert '*' !in pattern[1..];
      LiteralMatchesOnlyItself(pattern[1..], s[1..]);
      assert pattern == [pattern[0]] + pattern[1..];
      assert s == [s[0]] + s[1..];
    }
  }

  /** Every pattern matches itself (a `*` in the string is matched by the `*`). */
  lemma {:induction false} MatchesItself(pattern: string)
    ensures SimpleMatch(pattern, pattern)
    decreases |pattern|
  {
    if |pattern| > 0 {
      MatchesItself(pattern[1..]);
      if pattern[0] == '*' {
        StarSkips(pattern[1..], pattern[1..], [pattern[0]]);
        assert [pattern[0]] + pattern[1..] == pattern;
      }
    }
  }

  /** A leading `*` may swallow any prefix. */
  lemma {:induction false} StarSkips(rest: string, s: string, prefix: string)
    requires SimpleMatch(rest, s)
    ensures SimpleMatch(['*'] + rest, prefix + s)
    decreases |prefix|
  {
    var p := ['*'] + rest;
    assert p[1..] == rest;
    if |prefix| > 0 {
      StarSkips(rest, s, prefix[1..]);
      assert (prefix + s)[1..] == prefix[1..] + s;
    } else {
      assert prefix + s == s;
    }
  }

  /** The pattern `*` matches everything. */
  lemma {:induction false} StarMatchesAll(s: string)
    ensures SimpleMatch("*", s)
    decreases |s|
  {
    if |s| > 0 {
      StarMatchesAll(s[1..]);
    }
  }

  /** `*suffix`, with no other `*`, matches exactly the strings ending in `suffix`. */
  lemma {:induction false} StarSuffix(suffix: string, s: string)
    requires '*' !in suffix
    ensures SimpleMatch(['*'] + suffix, s) <==> |suffix| <= |s| && s[|s| - |suffix|..] == suffix
    decreases |s|
  {
    var p := ['*'] + suffix;
    assert p[1..] == suffix;
    LiteralMatchesOnlyItself(suffix, s);
    if |s| > 0 {
      StarSuffix(suffix, s[1..]);
      if |suffix| <= |s| - 1 {
        assert s[1..][|s| - 1 - |suffix|..] == s[|s| - |suffix|..];
      }
    }
  }

  /** `prefix*`, with no other `*`, matches exactly the strings starting with `prefix`. */
  lemma {:induction false} PrefixStar(prefix: string, s: string)
    requires '*' !in prefix
    ensures SimpleMatch(prefix + "*", s) <==> |prefix| <= |s| && s[..|prefix|] == prefix
    decreases |prefix|
  {
    if |prefix| == 0 {
      assert prefix + "*" == "*";
      StarMatchesAll(s);
    } else {
      var p := prefix + "*";
      assert p[0] == prefix[0] && p[1..] == prefix[1..] + "*";
      assert '*' !in prefix[1..];
      if |s| > 0 {
        PrefixStar(prefix[1..], s[1..]);
        if |prefix| <= |s| {
          assert s[..|prefix|] == [s[0]] + s[1..][..|prefix| - 1];
          assert prefix == [prefix[0]] + prefix[1..];
        }
      }
    }
  }

  /** Matching is compositional: a pattern made of two pieces matches a string
      made of two pieces that the pattern pieces match. */
  lemma {:induction false} Concatenation(p1: string, s1: string, p2: string, s2: string)
    requires SimpleMatch(p1, s1) && SimpleMatch(p2, s2)
    ensures SimpleMatch(p1 + p2, s1 + s2)
    decreases |p1| + |s1|
  {
    if |p1| == 0 {
      assert p1 + p2 == p2 && s1 + s2 == s2;
    } else {
      assert (p1 + p2)[0] == p1[0] && (p1 + p2)[1..] == p1[1..] + p2;
      if p1[0] == '*' {
        if SimpleMatch(p1[1..], s1) {
          Concatenation(p1[1..], s1, p2, s2);
        } else {
          Concatenation(p1, s1[1..], p2, s2);
          assert (s1 + s2)[1..] == s1[1..] + s2;
        }
      } else {
        Concatenation(p1[1..], s1[1..], p2, s2);
        assert (s1 + s2)[0] == s1[0] && (s1 + s2)[1..] == s1[1..] + s2;
      }
    }
  }
}
