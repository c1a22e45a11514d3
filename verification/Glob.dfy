/**
 The newsgroup allowlist of anidbscraper/group_gate.go: a greedy matcher proved exact against
 the meaning of a pattern.
 */
module Glob {
  import opened Basics

  const STAR: byte := 42

  /** What a pattern means: a star stands for any run of bytes, anything else for itself. */
  ghost predicate Matches(p: Bytes, s: Bytes) {
    if p == [] then s == []
    else if p[0] == STAR then exists k :: 0 <= k <= |s| && Matches(p[1..], s[k..])
    else s != [] && s[0] == p[0] && Matches(p[1..], s[1..])
  }

  // ---- Patterns by their parts ---------------------------------------------

  /** In bytes: an asterisk stands for any run, and a pattern without one only for itself. */
  lemma {:induction false} StarsStandForRuns(p: Bytes, s: Bytes)
    ensures Matches([42] + p, s) <==> exists k :: 0 <= k <= |s| && Matches(p, s[k..])
    ensures 42 !in p ==> (Matches(p, s) <==> p == s)
  {
    assert ([42] + p)[1..] == p;
    if p != [] && 42 !in p {
      assert p[0] in p && p == [p[0]] + p[1..];
      if s != [] {
        StarsStandForRuns(p[1..], s[1..]);
        assert s == [s[0]] + s[1..];
      }
    }
  }

  /** The pieces between the stars, at least one. */
  function Split(p: Bytes): (parts: seq<Bytes>)
    ensures parts != []
  {
    if p == [] then [[]]
    else if p[0] == STAR then [[]] + Split(p[1..])
    else [[p[0]] + Split(p[1..])[0]] + Split(p[1..])[1..]
  }

  predicate HasSuffix(s: Bytes, p: Bytes) { |p| <= |s| && s[|s| - |p|..] == p }

  /** The parts in order: the first at the very start, the last at the very end, a gap between any two. */
  ghost predicate Anchored(parts: seq<Bytes>, s: Bytes)
    requires parts != []
    decreases |parts|, 0
  {
    if |parts| == 1 then s == parts[0] else HasPrefix(s, parts[0]) && Floating(parts[1..], s[|parts[0]|..])
  }

  /** The parts in order, the first anywhere. */
  ghost predicate Floating(parts: seq<Bytes>, s: Bytes)
    requires parts != []
    decreases |parts|, 1
  {
    exists k :: 0 <= k <= |s| && Anchored(parts, s[k..])
  }

  /** A first part that is one byte longer takes one byte more. */
  lemma {:induction false} AnchoredCons(b: byte, parts: seq<Bytes>, s: Bytes)
    requires parts != []
    ensures Anchored([[b] + parts[0]] + parts[1..], s) <==> s != [] && s[0] == b && Anchored(parts, s[1..])
  {
    var longer := [[b] + parts[0]] + parts[1..];
    assert longer[1..] == parts[1..];
    if s != [] {
      assert s == [s[0]] + s[1..];
      var n := |parts[0]|;
      if n + 1 <= |s| {
        assert s[..n + 1] == [s[0]] + s[1..][..n];
        assert s[n + 1..] == s[1..][n..];
      }
    }
  }

  lemma {:induction false} MatchesByParts(p: Bytes, s: Bytes)
    ensures Matches(p, s) <==> Anchored(Split(p), s)
    decreases |p|
  {
    if p == [] {
    } else if p[0] == STAR {
      var rest := Split(p[1..]);
      assert Split(p)[1..] == rest && Split(p)[0] == [] && s[0..] == s;
      forall k | 0 <= k <= |s| ensures Matches(p[1..], s[k..]) <==> Anchored(rest, s[k..]) {
        MatchesByParts(p[1..], s[k..]);
      }
      assert Anchored(Split(p), s) <==> Floating(rest, s);
    } else {
      AnchoredCons(p[0], Split(p[1..]), s);
      if s != [] { MatchesByParts(p[1..], s[1..]); }
    }
  }

  // ---- Why the leftmost place is enough ------------------------------------

  lemma {:induction false} FloatingFurtherLeft(parts: seq<Bytes>, s: Bytes, i: nat, j: nat)
    requires parts != [] && i <= j <= |s| && Floating(parts, s[j..])
    ensures Floating(parts, s[i..])
  {
    var k :| 0 <= k <= |s[j..]| && Anchored(parts, s[j..][k..]);
    assert s[j..][k..] == s[i..][j - i + k..];
  }

  lemma {:induction false} AtIsPrefix(s: Bytes, mid: Bytes, i: nat)
    requires i <= |s|
    ensures At(s, i, mid) <==> HasPrefix(s[i..], mid)
  {
    if i + |mid| <= |s| { assert s[i..][..|mid|] == s[i..i + |mid|]; }
  }

  /** Taking the leftmost occurrence of a middle part loses no match. */
  lemma {:induction false} LeftmostSuffices(mid: Bytes, rest: seq<Bytes>, s: Bytes, i: nat)
    requires rest != [] && At(s, i, mid) && forall j :: 0 <= j < i ==> !At(s, j, mid)
    ensures Floating([mid] + rest, s) <==> Floating(rest, s[i + |mid|..])
  {
    var parts := [mid] + rest;
    assert parts[1..] == rest;
    if Floating(parts, s) {
      var k :| 0 <= k <= |s| && Anchored(parts, s[k..]);
      AtIsPrefix(s, mid, k);
      assert s[k..][|mid|..] == s[k + |mid|..];
      FloatingFurtherLeft(rest, s, i + |mid|, k + |mid|);
    }
    if Floating(rest, s[i + |mid|..]) {
      AtIsPrefix(s, mid, i);
      assert s[i..][|mid|..] == s[i + |mid|..];
      assert Anchored(parts, s[i..]);
    }
  }

  lemma {:induction false} NowhereFails(mid: Bytes, rest: seq<Bytes>, s: Bytes)
    requires rest != [] && forall j :: 0 <= j <= |s| ==> !At(s, j, mid)
    ensures !Floating([mid] + rest, s)
  {
    if Floating([mid] + rest, s) {
      var k :| 0 <= k <= |s| && Anchored([mid] + rest, s[k..]);
      AtIsPrefix(s, mid, k);
    }
  }

  lemma {:induction false} LastIsSuffix(last: Bytes, s: Bytes)
    ensures Floating([last], s) <==> HasSuffix(s, last)
  {
    if HasSuffix(s, last) { assert Anchored([last], s[|s| - |last|..]); }
  }

  // ---- The matcher -----------------------------------------------------

  /** The leftmost occurrence. */
  method Index(s: Bytes, mid: Bytes) returns (i: Option<nat>)
    ensures i.Some? ==> At(s, i.value, mid) && forall j :: 0 <= j < i.value ==> !At(s, j, mid)
    ensures i.None? ==> forall j :: 0 <= j <= |s| ==> !At(s, j, mid)
  {
    var k := 0;
    while k + |mid| <= |s|
      invariant forall j :: 0 <= j < k ==> !At(s, j, mid)
    {
      if s[k..k + |mid|] == mid {
        return Some(k);
      }
      k := k + 1;
    }
    i := None;
  }

  method GlobMatch(pattern: Bytes, s: Bytes) returns (r: bool)
    ensures r <==> Matches(pattern, s)
  {
    hide Matches, Anchored, Floating, At, Split;
    MatchesByParts(pattern, s);
    var parts := Split(pattern);
    AnchoredAt(parts, s);
    if |parts| == 1 {
      SplitOne(pattern);
      return pattern == s;
    }
    if !HasPrefix(s, parts[0]) {
      return false;
    }
    var left := s[|parts[0]|..];
    var last := parts[|parts| - 1];
    var i := 1;
    while i < |parts| - 1
      invariant 1 <= i <= |parts| - 1
      invariant Anchored(parts, s) <==> Floating(parts[i..], left)
    {
      var mid := parts[i];
      assert parts[i..] == [mid] + parts[i + 1..];
      i := i + 1;
      if mid == [] {
        LeftmostSuffices(mid, parts[i..], left, 0);
        assert left[0..] == left;
        continue;
      }
      var at := Index(left, mid);
      if at.None? {
        NowhereFails(mid, parts[i..], left);
        return false;
      }
      LeftmostSuffices(mid, parts[i..], left, at.value);
      left := left[at.value + |mid|..];
    }
    assert parts[i..] == [last];
    LastIsSuffix(last, left);
    if last == [] {
      return true;
    }
    r := HasSuffix(left, last);
  }

  lemma AnchoredAt(parts: seq<Bytes>, s: Bytes)
    requires parts != []
    ensures Anchored(parts, s) <==>
      if |parts| == 1 then s == parts[0] else HasPrefix(s, parts[0]) && Floating(parts[1..], s[|parts[0]|..])
  {
  }

  lemma {:induction false} SplitOne(p: Bytes)
    requires |Split(p)| == 1
    ensures Split(p)[0] == p
  {
    if p != [] { SplitOne(p[1..]); }
  }

  // ---- The allowlist ---------------------------------------------------

  /** `custom` is the host's own answer for the row, which replaces the patterns. */
  datatype Gate = Gate(off: bool, patterns: seq<Bytes>, custom: Option<bool>)

  predicate Active(g: Gate) { !g.off && (g.custom.Some? || g.patterns != []) }

  /** A group the row was seen in, trimmed and lowered by `norm`, that is on the list. */
  ghost predicate Listed(g: Gate, groups: seq<Bytes>, norm: Bytes -> Bytes) {
    exists grp, p :: grp in groups && norm(grp) != [] && p in g.patterns && Matches(p, norm(grp))
  }

  /** One listed group is enough, and a row known from no group at all is let through. */
  method Allows(g: Gate, groups: seq<Bytes>, norm: Bytes -> Bytes) returns (r: bool)
    ensures g.off || (g.custom.None? && g.patterns == []) ==> r
    ensures !g.off && g.custom.Some? ==> r == g.custom.value
    ensures !g.off && g.custom.None? && g.patterns != [] ==>
      (r <==> Listed(g, groups, norm) || forall grp :: grp in groups ==> norm(grp) == [])
  {
    if !Active(g) {
      return true;
    }
    if g.custom.Some? {
      return g.custom.value;
    }
    var known := false;
    for i := 0 to |groups|
      invariant known <==> exists grp :: grp in groups[..i] && norm(grp) != []
      invariant forall grp, p :: grp in groups[..i] && norm(grp) != [] && p in g.patterns ==> !Matches(p, norm(grp))
    {
      assert groups[..i + 1] == groups[..i] + [groups[i]];
      var grp := norm(groups[i]);
      if grp != [] {
        known := true;
        for j := 0 to |g.patterns|
          invariant forall p :: p in g.patterns[..j] ==> !Matches(p, grp)
        {
          assert g.patterns[..j + 1] == g.patterns[..j] + [g.patterns[j]];
          var hit := GlobMatch(g.patterns[j], grp);
          if hit {
            assert groups[i] in groups && g.patterns[j] in g.patterns;
            return true;
          }
        }
        assert g.patterns[..|g.patterns|] == g.patterns;
      }
    }
    assert groups[..|groups|] == groups;
    r := !known;
  }
}
