/**
 Which filesystem governs a path, read from mountinfo lines: backup/mountcheck.go against the
 proc(5) line format.
 */
module Mountinfo {
  import opened Basics

  const SPACE: byte := 32
  const TAB: byte := 9
  const NEWLINE: byte := 10
  const SLASH: byte := 47
  const BACKSLASH: byte := 92
  const DASH: byte := 45
  const SEPARATOR: Bytes := [SPACE, DASH, SPACE]

  // ---- Escapes -------------------------------------------------------------

  /** A backslash and three octal digits. */
  function Octal(c: byte): Bytes
    requires c < 64 || c == 92
  {
    [92, 48 + c / 64, 48 + c / 8 % 8, 48 + c % 8]
  }

  predicate Escaped(c: byte) { c == 32 || c == 9 || c == 10 || c == 92 }

  /** What the kernel writes for a path. */
  function Escape(s: Bytes): Bytes {
    if s == [] then [] else (if Escaped(s[0]) then Octal(s[0]) else [s[0]]) + Escape(s[1..])
  }

  /** One pass from the left; what an escape decodes to is not looked at again. */
  function Replace(s: Bytes): Bytes {
    if s == [] then []
    else if HasPrefix(s, [BACKSLASH, 48, 52, 48]) then [SPACE] + Replace(s[4..])
    else if HasPrefix(s, [BACKSLASH, 48, 49, 49]) then [TAB] + Replace(s[4..])
    else if HasPrefix(s, [BACKSLASH, 48, 49, 50]) then [NEWLINE] + Replace(s[4..])
    else if HasPrefix(s, [BACKSLASH, 49, 51, 52]) then [BACKSLASH] + Replace(s[4..])
    else [s[0]] + Replace(s[1..])
  }

  function UnescapeMountField(s: Bytes): Bytes { if BACKSLASH !in s then s else Replace(s) }

  lemma {:induction false} ReplacePlain(s: Bytes)
    requires BACKSLASH !in s
    ensures Replace(s) == s
  {
    if s != [] {
      assert s[0] in s && s == [s[0]] + s[1..];
      ReplacePlain(s[1..]);
      ReplaceOther(s[0], s[1..]);
      hide Replace;
    }
  }

  lemma {:induction false} ReplaceOctal(c: byte, rest: Bytes)
    requires Escaped(c)
    ensures Replace(Octal(c) + rest) == [c] + Replace(rest)
  {
    var s := Octal(c) + rest;
    assert s[..4] == Octal(c) && s[4..] == rest;
  }

  lemma ReplaceOther(c: byte, rest: Bytes)
    requires c != BACKSLASH
    ensures Replace([c] + rest) == [c] + Replace(rest)
  {
    var s := [c] + rest;
    assert s[0] == c && s[1..] == rest;
  }

  lemma {:induction false} ReplaceEscape(s: Bytes)
    ensures Replace(Escape(s)) == s
  {
    if s != [] {
      hide Replace, Octal;
      ReplaceEscape(s[1..]);
      if Escaped(s[0]) { ReplaceOctal(s[0], Escape(s[1..])); } else { ReplaceOther(s[0], Escape(s[1..])); }
      assert s == [s[0]] + s[1..];
    }
  }

  /** For every string, backslashes, spaces and look-alikes of escapes included. */
  lemma {:induction false} UnescapeEscape(s: Bytes)
    ensures UnescapeMountField(Escape(s)) == s
  {
    ReplaceEscape(s);
    if BACKSLASH !in Escape(s) { ReplacePlain(Escape(s)); }
  }

  predicate IsSpace(c: byte) { c == SPACE || (9 <= c <= 13) }

  /** One field of a line: not empty, no white space. */
  ghost predicate Token(t: Bytes) { t != [] && forall i :: 0 <= i < |t| ==> !IsSpace(t[i]) }

  // ---- Lines ---------------------------------------------------------------

  /** The text before and after the first separator. */
  function Cut(s: Bytes): Option<(Bytes, Bytes)> {
    if HasPrefix(s, SEPARATOR) then Some(([], s[3..]))
    else if s == [] then None
    else match Cut(s[1..])
      case None => None
      case Some(found) => Some(([s[0]] + found.0, found.1))
  }

  /** The length of the run without white space that `s` starts with. */
  function Run(s: Bytes): (n: nat)
    ensures n <= |s|
  {
    if s == [] || IsSpace(s[0]) then 0 else 1 + Run(s[1..])
  }

  function Fields(s: Bytes): seq<Bytes>
    decreases |s|
  {
    if s == [] then []
    else if IsSpace(s[0]) then Fields(s[1..])
    else [s[..Run(s)]] + Fields(s[Run(s)..])
  }

  datatype Mount = Mount(point: Bytes, fstype: Bytes)

  function ParseLine(line: Bytes): Option<Mount> {
    match Cut(line)
    case None => None
    case Some((left, right)) =>
      if |Fields(left)| < 5 || |Fields(right)| < 1 then None
      else Some(Mount(UnescapeMountField(Fields(left)[4]), Fields(right)[0]))
  }

  // ---- What the kernel writes is what is read ------------------------------

  function Join(ts: seq<Bytes>): Bytes
    requires ts != []
  {
    if |ts| == 1 then ts[0] else ts[0] + [32] + Join(ts[1..])
  }

  lemma {:induction false} RunOfToken(t: Bytes, rest: Bytes)
    requires (forall i :: 0 <= i < |t| ==> !IsSpace(t[i])) && (rest == [] || IsSpace(rest[0]))
    ensures Run(t + rest) == |t|
  {
    if t == [] {
      assert t + rest == rest;
    } else {
      assert (t + rest)[1..] == t[1..] + rest;
      RunOfToken(t[1..], rest);
    }
  }

  lemma {:induction false} FieldsOfJoin(ts: seq<Bytes>)
    requires ts != [] && forall t :: t in ts ==> Token(t)
    ensures Fields(Join(ts)) == ts
  {
    var t := ts[0];
    assert Token(t);
    if |ts| == 1 {
      RunOfToken(t, []);
      assert t + [] == t && t[..|t|] == t && t[|t|..] == [];
    } else {
      var tail := [SPACE] + Join(ts[1..]);
      var s := t + tail;
      assert Join(ts) == s;
      RunOfToken(t, tail);
      assert s[..|t|] == t && s[|t|..] == tail && tail[1..] == Join(ts[1..]);
      FieldsOfJoin(ts[1..]);
      assert Fields(tail) == Fields(Join(ts[1..]));
      assert ts == [t] + ts[1..];
    }
  }

  lemma {:induction false} CutSkips(t: Bytes, s: Bytes)
    requires Cut(s).Some? && forall i :: 0 <= i < |t| ==> !IsSpace(t[i])
    ensures Cut(t + s) == Some((t + Cut(s).value.0, Cut(s).value.1))
  {
    if t == [] {
      assert t + s == s && t + Cut(s).value.0 == Cut(s).value.0;
    } else {
      assert (t + s)[1..] == t[1..] + s && (t + s)[0] == t[0];
      CutSkips(t[1..], s);
      assert [t[0]] + (t[1..] + Cut(s).value.0) == t + Cut(s).value.0;
    }
  }

  lemma {:induction false} NoSeparatorYet(ts: seq<Bytes>, after: Bytes)
    requires ts != [] && Token(ts[0]) && ts[0] != [DASH] && after != [] && after[0] == SPACE
    ensures !HasPrefix([SPACE] + (Join(ts) + after), SEPARATOR)
  {
    JoinStarts(ts);
    var t, j := ts[0], Join(ts);
    var s := [SPACE] + (j + after);
    assert s[1] == j[0] == j[..|t|][0] == t[0];
    if |t| > 1 { assert s[2] == j[1] == j[..|t|][1] == t[1]; }
    hide Join;
    if |s| >= 3 { assert s[..3] == [s[0], s[1], s[2]]; }
  }

  lemma {:induction false} CutAtSeparator(right: Bytes)
    ensures Cut(SEPARATOR + right) == Some(([], right))
  {
    var s := SEPARATOR + right;
    assert s[..3] == SEPARATOR && s[3..] == right;
  }

  lemma CutAfterSpace(s: Bytes, left: Bytes, right: Bytes)
    requires Cut(s) == Some((left, right)) && !HasPrefix([SPACE] + s, SEPARATOR)
    ensures Cut([SPACE] + s) == Some(([SPACE] + left, right))
  {
    assert ([SPACE] + s)[1..] == s;
    hide HasPrefix;
  }

  lemma {:induction false} CutStep(t: Bytes, j: Bytes, after: Bytes, right: Bytes)
    requires (forall i :: 0 <= i < |t| ==> !IsSpace(t[i])) && Cut(j + after) == Some((j, right))
    requires !HasPrefix([SPACE] + (j + after), SEPARATOR)
    ensures Cut(t + [SPACE] + j + after) == Some((t + [SPACE] + j, right))
  {
    var s := [SPACE] + (j + after);
    CutAfterSpace(j + after, j, right);
    hide Cut, HasPrefix;
    CutSkips(t, s);
    assert t + [SPACE] + j + after == t + s;
    assert t + ([SPACE] + j) == t + [SPACE] + j;
  }

  lemma CutLast(t: Bytes, right: Bytes)
    requires forall i :: 0 <= i < |t| ==> !IsSpace(t[i])
    ensures Cut(t + (SEPARATOR + right)) == Some((t, right))
  {
    CutAtSeparator(right);
    hide Cut;
    CutSkips(t, SEPARATOR + right);
    assert t + [] == t;
  }

  /** No field on the left is a lone dash, so the first separator is the separator. */
  lemma {:induction false} CutOfJoin(ts: seq<Bytes>, right: Bytes)
    requires ts != [] && forall t :: t in ts ==> Token(t) && t != [DASH]
    ensures Cut(Join(ts) + (SEPARATOR + right)) == Some((Join(ts), right))
  {
    hide Cut;
    assert Token(ts[0]);
    if |ts| == 1 {
      CutLast(ts[0], right);
    } else {
      CutOfJoin(ts[1..], right);
      NoSeparatorYet(ts[1..], SEPARATOR + right);
      CutStep(ts[0], Join(ts[1..]), SEPARATOR + right, right);
    }
  }

  lemma JoinStarts(ts: seq<Bytes>)
    requires ts != []
    ensures |ts[0]| <= |Join(ts)| && Join(ts)[..|ts[0]|] == ts[0]
  {
  }

  lemma {:induction false} EscapedIsToken(s: Bytes)
    requires s != [] && forall i :: 0 <= i < |s| ==> !(11 <= s[i] <= 13)
    ensures Token(Escape(s))
  {
    if |s| > 1 { EscapedIsToken(s[1..]); }
    assert s[1..] == [] ==> Escape(s[1..]) == [];
  }

  /**
   A mountinfo line as proc(5) lays it out: four fields, the mount point, options and optional
   fields, the separator, the type.
  */
  function LineOf(four: seq<Bytes>, point: Bytes, more: seq<Bytes>, fstype: Bytes, tail: seq<Bytes>): Bytes {
    Join(four + [Escape(point)] + more) + ([32, 45, 32] + Join([fstype] + tail))
  }

  lemma {:induction false} LineReadsBack(four: seq<Bytes>, point: Bytes, more: seq<Bytes>, fstype: Bytes,
                                         tail: seq<Bytes>)
    requires |four| == 4 && point != [] && point != [DASH] && Token(fstype)
    requires forall i :: 0 <= i < |point| ==> !(11 <= point[i] <= 13)
    requires forall t :: t in four || t in more ==> Token(t) && t != [DASH]
    requires forall t :: t in tail ==> Token(t)
    ensures ParseLine(LineOf(four, point, more, fstype, tail)) == Some(Mount(point, fstype))
  {
    var left := four + [Escape(point)] + more;
    EscapedIsToken(point);
    UnescapeEscape(point);
    assert UnescapeMountField([DASH]) == [DASH];
    CutOfJoin(left, Join([fstype] + tail));
    FieldsOfJoin(left);
    FieldsOfJoin([fstype] + tail);
    assert left[4] == Escape(point);
  }

  // ---- Governing a path ----------------------------------------------------

  predicate UnderMount(mp: Bytes, path: Bytes) { mp == [SLASH] || path == mp || HasPrefix(path, mp + [SLASH]) }

  /** The components of a path; the root has one, the empty one every absolute path starts with. */
  function Components(p: Bytes): seq<Bytes> { if p == [47] then [[]] else Parts(p) }

  function Parts(p: Bytes): (cs: seq<Bytes>)
    ensures cs != []
  {
    if p == [] then [[]]
    else if p[0] == 47 then [[]] + Parts(p[1..])
    else [[p[0]] + Parts(p[1..])[0]] + Parts(p[1..])[1..]
  }

  /** `a` is an initial run of the components `b`. */
  ghost predicate Leads(a: seq<Bytes>, b: seq<Bytes>) { |a| <= |b| && forall i :: 0 <= i < |a| ==> a[i] == b[i] }

  lemma StartsCons(s: Bytes, p: Bytes)
    requires s != [] && p != []
    ensures HasPrefix(s, p) <==> s[0] == p[0] && HasPrefix(s[1..], p[1..])
  {
    if |p| <= |s| {
      assert s[..|p|] == [s[0]] + s[1..][..|p| - 1];
      assert p == [p[0]] + p[1..];
    }
  }

  lemma {:induction false} LeadsCons(a: seq<Bytes>, b: seq<Bytes>, x: Bytes, y: Bytes)
    ensures Leads([x] + a, [y] + b) <==> x == y && Leads(a, b)
  {
    var xa, yb := [x] + a, [y] + b;
    if Leads(xa, yb) {
      assert xa[0] == yb[0];
      forall i | 0 <= i < |a| ensures a[i] == b[i] { assert xa[i + 1] == yb[i + 1]; }
    }
  }

  lemma {:induction false} PartsCons(mp: Bytes, path: Bytes)
    requires mp != [] && path != []
    ensures Leads(Parts(mp), Parts(path)) <==> mp[0] == path[0] && Leads(Parts(mp[1..]), Parts(path[1..]))
  {
    var a, b := Parts(mp[1..]), Parts(path[1..]);
    LeadsCons(a, b, [], []);
    LeadsCons(a[1..], b[1..], a[0], b[0]);
    assert a == [a[0]] + a[1..] && b == [b[0]] + b[1..];
    LeadsCons(a[1..], b[1..], [mp[0]] + a[0], [path[0]] + b[0]);
    ConsSplits(mp[0], path[0], a[0], b[0]);
    LeadsCons(a, b[1..], [], [path[0]] + b[0]);
    LeadsCons(a[1..], b, [mp[0]] + a[0], []);
  }

  lemma ConsSplits(x: byte, y: byte, a: Bytes, b: Bytes)
    ensures [x] + a == [y] + b <==> x == y && a == b
  {
    assert ([x] + a)[1..] == a && ([y] + b)[1..] == b;
  }

  lemma {:induction false} PartsPrefix(mp: Bytes, path: Bytes)
    ensures (path == mp || HasPrefix(path, mp + [SLASH])) <==> Leads(Parts(mp), Parts(path))
  {
    if mp == [] {
      if path != [] {
        assert HasPrefix(path, [SLASH]) <==> path[0] == SLASH;
        assert mp + [SLASH] == [SLASH];
        assert Parts(mp)[0] == [] && (Parts(path)[0] == [] <==> path[0] == SLASH);
        assert Leads(Parts(mp), Parts(path)) <==> Parts(mp)[0] == Parts(path)[0];
      }
    } else if path == [] {
      assert |Parts(mp)| > 1 || Parts(mp)[0] != [];
      assert Parts(path) == [[]];
    } else {
      PartsPrefix(mp[1..], path[1..]);
      assert mp == [mp[0]] + mp[1..] && path == [path[0]] + path[1..];
      StartsCons(path, mp + [SLASH]);
      assert (mp + [SLASH])[1..] == mp[1..] + [SLASH];
      PartsCons(mp, path);
    }
  }


  /** A mount point governs the paths whose components it is an initial run of. */
  lemma {:induction false} UnderIsComponentwise(mp: Bytes, path: Bytes)
    requires path != [] && path[0] == SLASH
    ensures UnderMount(mp, path) <==> Leads(Components(mp), Components(path))
  {
    PartsPrefix(mp, path);
    assert Parts(path) == [[]] + Parts(path[1..]);
    if path == [SLASH] && mp != [SLASH] {
      assert Parts(path) == [[], []] && Components(path) == [[]];
      if mp != [] { assert mp[0] == SLASH || Parts(mp)[0] != []; }
      assert mp != [] && mp[0] == SLASH ==> |Parts(mp)| > 1;
    }
  }

  /** Two mount points of one length that both govern a path are one. */
  lemma {:induction false} SameLengthSameMount(a: Bytes, b: Bytes, path: Bytes)
    requires path != [] && path[0] == SLASH && UnderMount(a, path) && UnderMount(b, path) && |a| == |b|
    ensures a == b
  {
    assert a == path[..|a|] by { PointIsPrefix(a, path); }
    assert b == path[..|b|] by { PointIsPrefix(b, path); }
  }

  lemma PointIsPrefix(a: Bytes, path: Bytes)
    requires path != [] && path[0] == SLASH && UnderMount(a, path)
    ensures |a| <= |path| && a == path[..|a|]
  {
    if a != [SLASH] && path != a { assert path[..|a| + 1][..|a|] == (a + [SLASH])[..|a|]; }
  }

  ghost predicate Governs(line: Bytes, path: Bytes) {
    ParseLine(line).Some? && UnderMount(ParseLine(line).value.point, path)
  }

  ghost function PointOf(line: Bytes): Bytes { if ParseLine(line).Some? then ParseLine(line).value.point else [] }

  /** Of the first `n` lines, line `i` is the first with the longest mount point that governs. */
  ghost predicate Best(lines: seq<Bytes>, n: nat, path: Bytes, i: nat) {
    && i < n <= |lines| && Governs(lines[i], path)
    && (forall j :: 0 <= j < n && Governs(lines[j], path) ==> |PointOf(lines[j])| <= |PointOf(lines[i])|)
    && (forall j :: 0 <= j < i && Governs(lines[j], path) ==> |PointOf(lines[j])| < |PointOf(lines[i])|)
  }

  ghost predicate NoneGoverns(lines: seq<Bytes>, n: nat, path: Bytes)
    requires n <= |lines|
  {
    forall j :: 0 <= j < n ==> !Governs(lines[j], path)
  }

  ghost predicate Passes(line: Bytes, path: Bytes, bestLen: int) { Governs(line, path) && |PointOf(line)| > bestLen }

  lemma {:induction false} OneMoreLine(lines: seq<Bytes>, i: nat, path: Bytes, at: nat)
    requires i < |lines|
    ensures NoneGoverns(lines, i, path) && !Governs(lines[i], path) ==> NoneGoverns(lines, i + 1, path)
    ensures NoneGoverns(lines, i, path) && Governs(lines[i], path) ==> Best(lines, i + 1, path, i)
    ensures Best(lines, i, path, at) ==>
      Best(lines, i + 1, path, if Passes(lines[i], path, |PointOf(lines[at])|) then i else at)
  {
    hide Governs, PointOf;
  }

  lemma NoLinesYet(lines: seq<Bytes>, path: Bytes)
    ensures NoneGoverns(lines, 0, path)
  {
  }

  lemma BestGoverns(lines: seq<Bytes>, path: Bytes, at: nat)
    requires Best(lines, |lines|, path, at)
    ensures !NoneGoverns(lines, |lines|, path)
  {
    hide Governs;
  }

  method FsTypeForPath(lines: seq<Bytes>, path: Bytes) returns (r: Option<Bytes>)
    ensures r.None? <==> NoneGoverns(lines, |lines|, path)
    ensures r.Some? ==> exists i: nat :: Best(lines, |lines|, path, i) && r.value == ParseLine(lines[i]).value.fstype
  {
    var best: Bytes, bestLen: int := [], -1;
    ghost var at: nat := 0;
    hide ParseLine, UnderMount, Best, NoneGoverns;
    NoLinesYet(lines, path);
    for i := 0 to |lines|
      invariant (bestLen == -1 && NoneGoverns(lines, i, path)) ||
        (bestLen >= 0 && at < |lines| && Best(lines, i, path, at) && |PointOf(lines[at])| == bestLen &&
         ParseLine(lines[at]).Some? && best == ParseLine(lines[at]).value.fstype)
    {
      var m := ParseLine(lines[i]);
      OneMoreLine(lines, i, path, at);
      if m.None? || !UnderMount(m.value.point, path) || |m.value.point| <= bestLen {
        continue;
      }
      best, bestLen := m.value.fstype, |m.value.point|;
      at := i;
    }
    if at < |lines| && bestLen >= 0 { BestGoverns(lines, path, at); }
    if bestLen < 0 {
      return None;
    }
    r := Some(best);
  }

  /** Mount points of the governing lines are distinct. */
  ghost predicate DistinctPoints(lines: seq<Bytes>, path: Bytes) {
    forall i, j :: 0 <= i < j < |lines| && Governs(lines[i], path) && Governs(lines[j], path) ==>
      PointOf(lines[i]) != PointOf(lines[j])
  }

  /** Then the answer does not depend on the order of the lines. */
  lemma {:induction false} OrderDoesNotMatter(lines: seq<Bytes>, other: seq<Bytes>, path: Bytes, i: nat, j: nat)
    requires path != [] && path[0] == SLASH && DistinctPoints(lines, path)
    requires multiset(lines) == multiset(other) && Best(lines, |lines|, path, i) && Best(other, |other|, path, j)
    ensures lines[i] == other[j]
  {
    assert other[j] in multiset(lines) && lines[i] in multiset(other);
    var k :| 0 <= k < |lines| && lines[k] == other[j];
    var l :| 0 <= l < |other| && other[l] == lines[i];
    hide ParseLine;
    SameLengthSameMount(PointOf(lines[i]), PointOf(lines[k]), path);
  }
}
