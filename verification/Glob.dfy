/** The glob matcher: `*` stands for any bytes, `?` for one byte, every other byte for itself. */
module Glob {
  import opened Bytes
  import opened Sequences

  const STAR: byte := 42
  const QUESTION: byte := 63

  // ---------- What a pattern means ----------

  predicate SegmentOk(p: byte, seg: Str) {
    p == STAR || (if p == QUESTION then |seg| == 1 else seg == [p])
  }

  /** The segments make up the string, one for each byte of the pattern. */
  predicate Splits(pattern: Str, segs: seq<Str>, s: Str) {
    && |segs| == |pattern|
    && Flatten<byte>(segs) == s
    && forall i :: 0 <= i < |segs| ==> SegmentOk(pattern[i], segs[i])
  }

  ghost predicate Matches(pattern: Str, s: Str) {
    exists segs :: Splits(pattern, segs, s)
  }

  lemma MatchesNothing(s: Str)
    ensures Matches([], s) <==> s == []
  {
    if s == [] { assert Splits([], [], s); }
  }

  /** A first segment and a match of the rest make a match. */
  lemma MatchFrom(pattern: Str, s: Str, k: nat)
    requires pattern != [] && k <= |s| && SegmentOk(pattern[0], s[..k]) && Matches(pattern[1..], s[k..])
    ensures Matches(pattern, s)
  {
    var rest :| Splits(pattern[1..], rest, s[k..]);
    var segs := [s[..k]] + rest;
    assert segs[1..] == rest;
    assert Splits(pattern, segs, s) by {
      forall i | 0 <= i < |segs| ensures SegmentOk(pattern[i], segs[i]) {
        if i > 0 { assert segs[i] == rest[i - 1] && pattern[i] == pattern[1..][i - 1]; }
      }
    }
  }

  /** Every match has a first segment and a match of the rest. */
  lemma MatchSplit(pattern: Str, s: Str) returns (k: nat)
    requires pattern != [] && Matches(pattern, s)
    ensures k <= |s| && SegmentOk(pattern[0], s[..k]) && Matches(pattern[1..], s[k..])
  {
    var segs :| Splits(pattern, segs, s);
    k := |segs[0]|;
    assert s[..k] == segs[0] && s[k..] == Flatten<byte>(segs[1..]);
    assert Splits(pattern[1..], segs[1..], s[k..]);
  }

  /** A byte other than `*` consumes one byte. */
  lemma MatchByte(pattern: Str, s: Str)
    requires pattern != [] && pattern[0] != STAR
    ensures Matches(pattern, s) <==>
            s != [] && (pattern[0] == QUESTION || pattern[0] == s[0]) && Matches(pattern[1..], s[1..])
  {
    if Matches(pattern, s) {
      var k := MatchSplit(pattern, s);
      assert k == 1 && s[..1] == [s[0]];
    }
    if s != [] && (pattern[0] == QUESTION || pattern[0] == s[0]) && Matches(pattern[1..], s[1..]) {
      assert s[..1] == [s[0]];
      MatchFrom(pattern, s, 1);
    }
  }

  /** A `*` may stop anywhere. */
  lemma MatchStar(pattern: Str, s: Str)
    requires pattern != [] && pattern[0] == STAR
    ensures Matches(pattern, s) <==> exists k :: 0 <= k <= |s| && Matches(pattern[1..], s[k..])
  {
    if Matches(pattern, s) {
      var k := MatchSplit(pattern, s);
    }
    if k :| 0 <= k <= |s| && Matches(pattern[1..], s[k..]) {
      MatchFrom(pattern, s, k);
    }
  }

  /** What one byte of a pattern matches. */
  lemma OneByte(b: byte, s: Str)
    ensures Matches([b], s) <==>
            if b == '*' as int then true else if b == '?' as int then |s| == 1 else s == [b]
  {
    hide Matches;
    assert [b][1..] == [];
    if b == STAR {
      MatchStar([b], s);
      MatchesNothing(s[|s|..]);
    } else {
      MatchByte([b], s);
      if s != [] { MatchesNothing(s[1..]); }
    }
  }

  /**
   * Patterns side by side match strings side by side. With `MatchesNothing` and `OneByte` this fixes the meaning of
   * globs.
   */
  lemma {:induction false} MatchConcat(p: Str, q: Str, s: Str)
    ensures Matches(p + q, s) <==> exists k :: 0 <= k <= |s| && Matches(p, s[..k]) && Matches(q, s[k..])
  {
    hide Matches;
    if p == [] {
      assert p + q == q && s[..0] == [] && s[0..] == s;
      MatchesNothing(s[..0]);
      forall k | 0 <= k <= |s| && Matches(p, s[..k]) ensures k == 0 { MatchesNothing(s[..k]); }
    } else {
      assert (p + q)[1..] == p[1..] + q && (p + q)[0] == p[0];
      if Matches(p + q, s) {
        var j := MatchSplit(p + q, s);
        MatchConcat(p[1..], q, s[j..]);
        var k :| 0 <= k <= |s[j..]| && Matches(p[1..], s[j..][..k]) && Matches(q, s[j..][k..]);
        var t := s[..j + k];
        assert t[..j] == s[..j] && t[j..] == s[j..][..k] && s[j..][k..] == s[j + k..];
        MatchFrom(p, t, j);
      }
      if k :| 0 <= k <= |s| && Matches(p, s[..k]) && Matches(q, s[k..]) {
        var j := MatchSplit(p, s[..k]);
        var t := s[j..];
        assert s[..k][..j] == s[..j] && s[..k][j..] == t[..k - j] && s[k..] == t[k - j..];
        MatchConcat(p[1..], q, t);
        MatchFrom(p + q, s, j);
      }
    }
  }

  // ---------- The matcher ----------

  /** The loop shortens the pattern; the recursion starts past at least one `*`. */
  method GlobMatch(pattern: Str, s: Str) returns (b: bool)
    ensures b <==> Matches(pattern, s)
    decreases |pattern|
  {
    hide Matches;
    var p, t := pattern, s;
    while |p| > 0
      invariant |p| <= |pattern| && (Matches(p, t) <==> Matches(pattern, s))
      decreases |p|
    {
      if p[0] == STAR {
        b := MatchFromStar(p, t);
        return;
      }
      MatchByte(p, t);
      if |t| == 0 {
        return false;
      }
      if p[0] == QUESTION || p[0] == t[0] {
        p := p[1..];
        t := t[1..];
      } else {
        return false;
      }
    }
    MatchesNothing(t);
    return |t| == 0;
  }

  /** The branch of the matcher taken at a `*`. */
  method MatchFromStar(pattern: Str, s: Str) returns (b: bool)
    requires pattern != [] && pattern[0] == STAR
    ensures b <==> Matches(pattern, s)
    decreases |pattern|, 0
  {
    hide Matches;
    var p := pattern[1..];
    MatchStar(pattern, s);
    while |p| > 0 && p[0] == STAR
      invariant |p| < |pattern|
      invariant Matches(pattern, s) <==> exists k :: 0 <= k <= |s| && Matches(p, s[k..])
      decreases |p|
    {
      StarPast(p, s);
      p := p[1..];
    }
    if |p| == 0 {
      MatchesNothing(s[|s|..]);
      return true;
    }
    for i := 0 to |s| + 1
      invariant forall k :: 0 <= k < i ==> !Matches(p, s[k..])
    {
      var m := GlobMatch(p, s[i..]);
      if m {
        return true;
      }
    }
    return false;
  }

  /** Stopping before a `*` or after it makes no difference. */
  lemma StarPast(p: Str, s: Str)
    requires p != [] && p[0] == STAR
    ensures (exists k :: 0 <= k <= |s| && Matches(p, s[k..])) <==>
            (exists k :: 0 <= k <= |s| && Matches(p[1..], s[k..]))
  {
    hide Matches;
    if k :| 0 <= k <= |s| && Matches(p, s[k..]) {
      MatchStar(p, s[k..]);
      var j :| 0 <= j <= |s[k..]| && Matches(p[1..], s[k..][j..]);
      assert s[k..][j..] == s[k + j..];
    }
    if k :| 0 <= k <= |s| && Matches(p[1..], s[k..]) {
      MatchStar(p, s[k..]);
      assert s[k..][0..] == s[k..];
    }
  }

  // ---------- Patterns that are a prefix and one final star ----------

  /** The prefix, when the pattern is a prefix and a final `*` without other wildcards. */
  function PrefixGlob(pattern: Str): (r: (bool, Str))
    ensures r.0 <==> exists p :: pattern == p + [STAR] && STAR !in p && QUESTION !in p
    ensures r.0 ==> pattern == r.1 + [STAR] && STAR !in r.1 && QUESTION !in r.1
  {
    if pattern == [] || pattern[|pattern| - 1] != STAR then (false, [])
    else
      var prefix := pattern[..|pattern| - 1];
      assert forall p :: pattern == p + [STAR] ==> p == prefix;
      assert pattern == prefix + [STAR];
      if STAR in prefix || QUESTION in prefix then (false, []) else (true, prefix)
  }

  /** Such a pattern matches exactly the strings that start with the prefix. */
  lemma {:induction false} PrefixGlobMatches(prefix: Str, s: Str)
    requires STAR !in prefix && QUESTION !in prefix
    ensures Matches(prefix + [STAR], s) <==> prefix <= s
  {
    var pattern := prefix + [STAR];
    if prefix == [] {
      MatchStar(pattern, s);
      assert pattern[1..] == [];
      MatchesNothing(s[|s|..]);
    } else {
      MatchByte(pattern, s);
      assert pattern[1..] == prefix[1..] + [STAR];
      if s != [] {
        PrefixGlobMatches(prefix[1..], s[1..]);
        assert prefix == [prefix[0]] + prefix[1..] && s == [s[0]] + s[1..];
        assert prefix <= s <==> prefix[0] == s[0] && prefix[1..] <= s[1..];
      }
    }
  }
}
