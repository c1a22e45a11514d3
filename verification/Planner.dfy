/**
 planPacks of backup/pack.go: one class's files, sorted by path and grouped next-fit into
 packs, and what that grouping promises a puller between two runs.
 */
module Planner {
  import opened Basics

  const PACK_TARGET_BYTES := 0x400_0000
  const PACK_MAX_MEMBERS := 20000

  /** The columns of an inventory row that planning reads. */
  datatype FileRow = FileRow(path: Bytes, sha: Bytes, size: nat)

  datatype PackMember = PackMember(path: Bytes, sha: Bytes, size: nat, crc: nat, offset: nat)

  datatype PackPlan = PackPlan(cls: Bytes, members: seq<PackMember>, bytes: nat)

  function MemberOf(f: FileRow): PackMember { PackMember(f.path, f.sha, f.size, 0, 0) }

  function MembersOf(rows: seq<FileRow>): seq<PackMember> {
    seq(|rows|, i requires 0 <= i < |rows| => MemberOf(rows[i]))
  }

  // ---- The input: one row per path, in path order -----------------------

  ghost predicate StrictlySorted(rows: seq<FileRow>) {
    forall i, j :: 0 <= i < j < |rows| ==> Less(rows[i].path, rows[j].path)
  }

  ghost predicate DistinctPaths(rows: seq<FileRow>) {
    forall i, j :: 0 <= i < j < |rows| ==> rows[i].path != rows[j].path
  }

  predicate HasPath(files: seq<FileRow>, p: Bytes) {
    exists j :: 0 <= j < |files| && files[j].path == p
  }

  /** `r` is the row `files` lists first for its path. */
  ghost predicate FirstForPath(files: seq<FileRow>, r: FileRow) {
    exists i :: 0 <= i < |files| && files[i] == r && !HasPath(files[..i], r.path)
  }

  /** `rows` lists every path of `files` once, in order, each with the first row given for it. */
  ghost predicate IsCatalogue(rows: seq<FileRow>, files: seq<FileRow>) {
    StrictlySorted(rows) && forall r :: r in rows <==> FirstForPath(files, r)
  }

  /** sort.Slice by path, as insertion. */
  function Insert(r: FileRow, rows: seq<FileRow>): seq<FileRow> {
    if rows == [] || Less(r.path, rows[0].path) then [r] + rows else [rows[0]] + Insert(r, rows[1..])
  }

  function SortByPath(rows: seq<FileRow>): seq<FileRow> {
    if rows == [] then [] else Insert(rows[|rows| - 1], SortByPath(rows[..|rows| - 1]))
  }

  lemma {:induction false} InsertSorted(r: FileRow, rows: seq<FileRow>)
    requires StrictlySorted(rows) && forall x :: x in rows ==> x.path != r.path
    ensures StrictlySorted(Insert(r, rows))
    ensures forall x :: x in Insert(r, rows) <==> x == r || x in rows
  {
    if rows != [] {
      if Less(r.path, rows[0].path) {
        forall i | 0 < i < |rows| ensures Less(r.path, rows[i].path) {
          LessTransitive(r.path, rows[0].path, rows[i].path);
        }
      } else {
        var t := Insert(r, rows[1..]);
        InsertSorted(r, rows[1..]);
        assert rows == [rows[0]] + rows[1..];
        forall j | 0 <= j < |t| ensures Less(rows[0].path, t[j].path) {
          LessTotal(r.path, rows[0].path);
          assert t[j] in t;
        }
      }
    }
  }

  lemma {:induction false} SortByPathSorts(rows: seq<FileRow>)
    requires DistinctPaths(rows)
    ensures StrictlySorted(SortByPath(rows))
    ensures forall x :: x in SortByPath(rows) <==> x in rows
  {
    if rows != [] {
      var init := rows[..|rows| - 1];
      SortByPathSorts(init);
      InsertSorted(rows[|rows| - 1], SortByPath(init));
      assert rows == init + [rows[|rows| - 1]];
    }
  }

  /** A strictly sorted list is determined by what it contains. */
  lemma {:induction false} SortedUnique(a: seq<FileRow>, b: seq<FileRow>)
    requires StrictlySorted(a) && StrictlySorted(b)
    requires forall x :: x in a <==> x in b
    ensures a == b
  {
    assert b != [] ==> b[0] in b;
    if a != [] {
      assert a[0] in b && (b[0] in a);
      var i :| 0 <= i < |b| && b[i] == a[0];
      var j :| 0 <= j < |a| && a[j] == b[0];
      if i > 0 && j > 0 {
        LessTransitive(a[0].path, a[j].path, b[i].path);
        LessIrreflexive(a[0].path);
      }
      assert a[0] == b[0];
      forall x ensures x in a[1..] <==> x in b[1..] {
        if x in a[1..] { LessIrreflexive(x.path); assert x in a && x != a[0]; }
        if x in b[1..] { LessIrreflexive(x.path); assert x in b && x != b[0]; }
      }
      SortedUnique(a[1..], b[1..]);
    }
  }

  lemma CatalogueUnique(a: seq<FileRow>, b: seq<FileRow>, files: seq<FileRow>)
    requires IsCatalogue(a, files) && IsCatalogue(b, files)
    ensures a == b
  {
    SortedUnique(a, b);
  }

  // ---- The grouping -----------------------------------------------------

  function Total(ms: seq<PackMember>): nat {
    if ms == [] then 0 else Total(ms[..|ms| - 1]) + ms[|ms| - 1].size
  }

  lemma {:induction false} TotalConcat(a: seq<PackMember>, b: seq<PackMember>)
    ensures Total(a + b) == Total(a) + Total(b)
  {
    if b == [] {
      assert a + b == a;
    } else {
      TotalConcat(a, b[..|b| - 1]);
      assert (a + b)[..|a + b| - 1] == a + b[..|b| - 1];
    }
  }

  function Flatten(gs: seq<seq<PackMember>>): seq<PackMember> {
    if gs == [] then [] else gs[0] + Flatten(gs[1..])
  }

  /** Where pack `j` begins in the list of all members. */
  function StartOf(gs: seq<seq<PackMember>>, j: nat): nat
    requires j <= |gs|
  {
    |Flatten(gs[..j])|
  }

  /** The pack and the place in it where member `i` is. */
  lemma {:induction false} Locate(gs: seq<seq<PackMember>>, i: nat) returns (j: nat, o: nat)
    requires i < |Flatten(gs)|
    ensures j < |gs| && o < |gs[j]| && StartOf(gs, j) + o == i && gs[j][o] == Flatten(gs)[i]
  {
    if i < |gs[0]| {
      j, o := 0, i;
      assert gs[..0] == [];
    } else {
      j, o := Locate(gs[1..], i - |gs[0]|);
      assert gs[..j + 1][0] == gs[0] && gs[..j + 1][1..] == gs[1..][..j];
      j := j + 1;
    }
  }

  lemma {:induction false} FlattenConcat(a: seq<seq<PackMember>>, b: seq<seq<PackMember>>)
    ensures Flatten(a + b) == Flatten(a) + Flatten(b)
  {
    if a == [] {
      assert a + b == b;
    } else {
      FlattenConcat(a[1..], b);
      assert (a + b)[1..] == a[1..] + b;
      assert a[0] + (Flatten(a[1..]) + Flatten(b)) == a[0] + Flatten(a[1..]) + Flatten(b);
    }
  }

  /** A pack is within limits: only a lone member may exceed the target. */
  ghost predicate WithinLimits(g: seq<PackMember>, target: nat, max: nat) {
    1 <= |g| <= max && (|g| >= 2 ==> Total(g) <= target)
  }

  /** The next file had no room in `g`. */
  ghost predicate Closed(g: seq<PackMember>, next: PackMember, target: nat, max: nat) {
    Total(g) + next.size > target || |g| >= max
  }

  /** Pack `i + 1` had to be started: its first file had no room in pack `i`. */
  ghost predicate Forced(gs: seq<seq<PackMember>>, i: nat, target: nat, max: nat)
    requires i < |gs| - 1
  {
    gs[i + 1] != [] && Closed(gs[i], gs[i + 1][0], target, max)
  }

  /** `gs` groups consecutive members within limits, and starts a new pack only when it must. */
  ghost predicate IsNextFit(gs: seq<seq<PackMember>>, target: nat, max: nat) {
    && (forall i :: 0 <= i < |gs| ==> WithinLimits(gs[i], target, max))
    && (forall i :: 0 <= i < |gs| - 1 ==> Forced(gs, i, target, max))
  }

  /** There is only one such grouping of a given list. */
  lemma {:induction false} NextFitUnique(a: seq<seq<PackMember>>, b: seq<seq<PackMember>>, target: nat, max: nat)
    requires IsNextFit(a, target, max) && IsNextFit(b, target, max) && Flatten(a) == Flatten(b)
    ensures a == b
  {
    FlattenEmpty(a, target, max);
    FlattenEmpty(b, target, max);
    if a != [] {
      FirstPackNotShorter(a, b, target, max);
      FirstPackNotShorter(b, a, target, max);
      ClosedAfterFirst(a, target, max);
      ClosedAfterFirst(b, target, max);
      SliceOfNextFit(a, 1, |a|, target, max);
      SliceOfNextFit(b, 1, |b|, target, max);
      assert Flatten(a)[|a[0]|..] == Flatten(a[1..]);
      assert Flatten(b)[|b[0]|..] == Flatten(b[1..]);
      assert a[1..|a|] == a[1..] && b[1..|b|] == b[1..];
      NextFitUnique(a[1..], b[1..], target, max);
      assert a == [a[0]] + a[1..] && b == [b[0]] + b[1..];
    }
  }

  /** Any run of packs of a next-fit grouping is itself one. */
  lemma SliceOfNextFit(gs: seq<seq<PackMember>>, lo: nat, hi: nat, target: nat, max: nat)
    requires IsNextFit(gs, target, max) && lo <= hi <= |gs|
    ensures IsNextFit(gs[lo..hi], target, max)
  {
    forall i: nat | i < |gs[lo..hi]| - 1 ensures Forced(gs[lo..hi], i, target, max) {
      assert Forced(gs, lo + i, target, max);
    }
  }

  lemma FlattenEmpty(gs: seq<seq<PackMember>>, target: nat, max: nat)
    requires IsNextFit(gs, target, max)
    ensures Flatten(gs) == [] <==> gs == []
  {
    if gs != [] { assert WithinLimits(gs[0], target, max); }
  }

  /** The first pack stopped only because the next file had no room. */
  lemma ClosedAfterFirst(gs: seq<seq<PackMember>>, target: nat, max: nat)
    requires gs != [] && IsNextFit(gs, target, max)
    ensures var f, n := Flatten(gs), |gs[0]|;
      0 < n <= |f| && f[..n] == gs[0] && (n < |f| ==> Closed(f[..n], f[n], target, max))
  {
    assert WithinLimits(gs[0], target, max);
    if |gs| > 1 {
      assert Forced(gs, 0, target, max);
      assert Flatten(gs[1..]) == gs[1] + Flatten(gs[1..][1..]);
    } else {
      assert Flatten(gs[1..]) == [];
    }
  }

  /** At no point inside the first pack was the next file out of room. */
  lemma OpenInsideFirst(gs: seq<seq<PackMember>>, n: nat, target: nat, max: nat)
    requires gs != [] && IsNextFit(gs, target, max) && 0 < n < |gs[0]|
    ensures n < |Flatten(gs)| && !Closed(Flatten(gs)[..n], Flatten(gs)[n], target, max)
  {
    var g := gs[0];
    assert WithinLimits(g, target, max);
    TotalConcat(g[..n], [g[n]]);
    TotalConcat(g[..n] + [g[n]], g[n + 1..]);
    assert g == g[..n] + [g[n]] + g[n + 1..];
    assert Total([g[n]]) == Total([]) + g[n].size;
    assert Flatten(gs)[..n] == g[..n] && Flatten(gs)[n] == g[n];
  }

  lemma FirstPackNotShorter(a: seq<seq<PackMember>>, b: seq<seq<PackMember>>, target: nat, max: nat)
    requires a != [] && b != []
    requires IsNextFit(a, target, max) && IsNextFit(b, target, max) && Flatten(a) == Flatten(b)
    ensures |a[0]| >= |b[0]|
  {
    ClosedAfterFirst(a, target, max);
    if |a[0]| < |b[0]| { OpenInsideFirst(b, |a[0]|, target, max); }
  }

  // ---- planPacks --------------------------------------------------------

  /** The groups a list of plans stands for. */
  function GroupsOf(plans: seq<PackPlan>): seq<seq<PackMember>> {
    seq(|plans|, i requires 0 <= i < |plans| => plans[i].members)
  }

  function TargetOrDefault(targetBytes: int): nat { if targetBytes <= 0 then PACK_TARGET_BYTES else targetBytes }

  function MaxOrDefault(maxMembers: int): nat { if maxMembers <= 0 then PACK_MAX_MEMBERS else maxMembers }

  function FirstPerPath(files: seq<FileRow>): seq<FileRow> {
    if files == [] then []
    else
      var init, f := files[..|files| - 1], files[|files| - 1];
      if HasPath(init, f.path) then FirstPerPath(init) else FirstPerPath(init) + [f]
  }

  lemma FirstForPathStep(init: seq<FileRow>, f: FileRow, r: FileRow)
    ensures FirstForPath(init + [f], r) <==> FirstForPath(init, r) || (r == f && !HasPath(init, r.path))
  {
    var files := init + [f];
    if k: nat :| k < |files| && files[k] == r && !HasPath(files[..k], r.path) {
      assert k < |init| ==> files[..k] == init[..k];
      assert files[..|init|] == init;
    }
    if k: nat :| k < |init| && init[k] == r && !HasPath(init[..k], r.path) {
      assert files[k] == r && files[..k] == init[..k];
    }
    if r == f && !HasPath(init, r.path) {
      assert files[|init|] == r && files[..|init|] == init;
    }
  }

  lemma {:induction false} FirstPerPathIs(files: seq<FileRow>)
    ensures DistinctPaths(FirstPerPath(files))
    ensures forall r :: r in FirstPerPath(files) <==> FirstForPath(files, r)
  {
    if files != [] {
      var init, f := files[..|files| - 1], files[|files| - 1];
      FirstPerPathIs(init);
      assert init + [f] == files;
      forall r ensures r in FirstPerPath(files) <==> FirstForPath(files, r) {
        FirstForPathStep(init, f, r);
      }
      forall r | r in FirstPerPath(init) ensures HasPath(init, r.path) {
        assert FirstForPath(init, r);
      }
    }
  }

  /** Keeps the first row of each path, then sorts. */
  method SelectAndSort(files: seq<FileRow>) returns (sorted: seq<FileRow>)
    ensures IsCatalogue(sorted, files)
  {
    sorted := [];
    var seen: set<Bytes> := {};
    for i := 0 to |files|
      invariant sorted == FirstPerPath(files[..i])
      invariant forall p :: p in seen <==> exists j :: 0 <= j < i && files[j].path == p
    {
      var f := files[i];
      assert files[..i + 1][..i] == files[..i];
      if f.path !in seen {
        seen := seen + {f.path};
        sorted := sorted + [f];
      }
    }
    assert files[..|files|] == files;
    FirstPerPathIs(files);
    SortByPathSorts(sorted);
    sorted := SortByPath(sorted);
  }

  lemma ExtendFlatten(gs: seq<seq<PackMember>>, g: seq<PackMember>)
    ensures Flatten(gs + [g]) == Flatten(gs) + g
  {
    FlattenConcat(gs, [g]);
    assert Flatten([g]) == g + Flatten([]);
  }

  /** Appending to the pack being filled keeps the grouping next-fit while there is room. */
  lemma GrowPack(gs: seq<seq<PackMember>>, cur: seq<PackMember>, m: PackMember, target: nat, max: nat)
    requires max > 0 && (cur == [] ==> gs == []) && (cur != [] ==> IsNextFit(gs + [cur], target, max))
    requires cur == [] || !Closed(cur, m, target, max)
    ensures IsNextFit(gs + [cur + [m]], target, max)
  {
    var before, after := gs + [cur], gs + [cur + [m]];
    TotalConcat(cur, [m]);
    assert Total([m]) == Total([]) + m.size;
    forall i: nat | i < |after| ensures WithinLimits(after[i], target, max) {
      if cur != [] { assert WithinLimits(before[i], target, max); }
    }
    forall i: nat | i < |after| - 1 ensures Forced(after, i, target, max) {
      assert Forced(before, i, target, max);
    }
  }

  /** Starting a new pack keeps the grouping next-fit when the last one had no room. */
  lemma StartPack(gs: seq<seq<PackMember>>, m: PackMember, target: nat, max: nat)
    requires max > 0 && IsNextFit(gs, target, max)
    requires gs == [] || Closed(gs[|gs| - 1], m, target, max)
    ensures IsNextFit(gs + [[m]], target, max)
  {
    var after := gs + [[m]];
    forall i: nat | i < |after| - 1 ensures Forced(after, i, target, max) {
      if i < |gs| - 1 { assert Forced(gs, i, target, max); }
    }
  }

  /** `plans` are the packs of exactly these rows: `rows` in order, next-fit, each with its true total. */
  ghost predicate IsPlanOfRows(plans: seq<PackPlan>, cls: Bytes, rows: seq<FileRow>, target: nat, max: nat) {
    && (forall i :: 0 <= i < |plans| ==> plans[i].cls == cls && plans[i].bytes == Total(plans[i].members))
    && IsNextFit(GroupsOf(plans), target, max)
    && Flatten(GroupsOf(plans)) == MembersOf(rows)
  }

  /** What planPacks owes its caller. */
  ghost predicate IsPlanOf(plans: seq<PackPlan>, cls: Bytes, files: seq<FileRow>, target: nat, max: nat) {
    exists rows :: IsCatalogue(rows, files) && IsPlanOfRows(plans, cls, rows, target, max)
  }

  /** The filling loop's state: closed packs `gs` and the open pack `cur` hold exactly `rows` so far. */
  ghost predicate Filling(gs: seq<seq<PackMember>>, cur: seq<PackMember>, rows: seq<FileRow>, target: nat, max: nat) {
    && (cur == [] ==> gs == [])
    && (cur != [] ==> IsNextFit(gs + [cur], target, max))
    && Flatten(gs) + cur == MembersOf(rows)
  }

  lemma FillStart(target: nat, max: nat)
    ensures Filling(GroupsOf([]), [], [], target, max) && Total([]) == 0
  {
  }

  lemma FillStep(gs: seq<seq<PackMember>>, cur: seq<PackMember>, rows: seq<FileRow>, f: FileRow, target: nat, max: nat)
    requires max > 0 && Filling(gs, cur, rows, target, max)
    ensures var m := MemberOf(f);
      if cur != [] && Closed(cur, m, target, max) then Filling(gs + [cur], [m], rows + [f], target, max)
      else Filling(gs, cur + [m], rows + [f], target, max)
  {
    var m := MemberOf(f);
    assert MembersOf(rows + [f]) == MembersOf(rows) + [m];
    if cur != [] && Closed(cur, m, target, max) {
      StartPack(gs + [cur], m, target, max);
      ExtendFlatten(gs, cur);
    } else {
      GrowPack(gs, cur, m, target, max);
      assert Flatten(gs) + (cur + [m]) == Flatten(gs) + cur + [m];
    }
  }

  lemma FillDone(gs: seq<seq<PackMember>>, cur: seq<PackMember>, rows: seq<FileRow>, target: nat, max: nat)
    requires Filling(gs, cur, rows, target, max)
    ensures var all := if cur == [] then gs else gs + [cur];
      IsNextFit(all, target, max) && Flatten(all) == MembersOf(rows)
  {
    ExtendFlatten(gs, cur);
    if cur == [] { assert Flatten(gs) + cur == Flatten(gs); }
  }

  lemma AppendTotal(ms: seq<PackMember>, m: PackMember)
    ensures Total(ms + [m]) == Total(ms) + m.size
  {
    TotalConcat(ms, [m]);
    assert Total([m]) == Total([]) + m.size;
  }

  /** The final loop of planPacks: each pack's content total. */
  method AddTotals(plans: seq<PackPlan>) returns (out: seq<PackPlan>)
    ensures |out| == |plans| && GroupsOf(out) == GroupsOf(plans)
    ensures forall j :: 0 <= j < |out| ==> out[j].cls == plans[j].cls && out[j].bytes == Total(out[j].members)
  {
    out := plans;
    for i := 0 to |out|
      invariant |out| == |plans|
      invariant forall j :: 0 <= j < |out| ==> out[j].members == plans[j].members && out[j].cls == plans[j].cls
      invariant forall j :: 0 <= j < i ==> out[j].bytes == Total(out[j].members)
    {
      var ms, total := out[i].members, 0;
      for k := 0 to |ms|
        invariant total == Total(ms[..k])
      {
        total := total + ms[k].size;
        assert ms[..k + 1][..k] == ms[..k];
      }
      assert ms[..|ms|] == ms;
      out := out[i := out[i].(bytes := total)];
    }
  }

  method PlanPacks(cls: Bytes, files: seq<FileRow>, targetBytes: int, maxMembers: int) returns (out: seq<PackPlan>)
    ensures IsPlanOf(out, cls, files, if targetBytes <= 0 then 67108864 else targetBytes,
                     if maxMembers <= 0 then 20000 else maxMembers)
  {
    hide Filling, Flatten, IsNextFit, MembersOf, GroupsOf, Total;
    var target, max := TargetOrDefault(targetBytes), MaxOrDefault(maxMembers);
    var sorted := SelectAndSort(files);
    out := [];
    var cur, size := PackPlan(cls, [], 0), 0;
    FillStart(target, max);
    for i := 0 to |sorted|
      invariant forall j :: 0 <= j < |out| ==> out[j].cls == cls
      invariant cur.cls == cls && size == Total(cur.members)
      invariant Filling(GroupsOf(out), cur.members, sorted[..i], target, max)
    {
      var f := sorted[i];
      FillStep(GroupsOf(out), cur.members, sorted[..i], f, target, max);
      assert sorted[..i + 1] == sorted[..i] + [f];
      if size + f.size > target || |cur.members| >= max {
        assert cur.members == [] ==> cur.members + [MemberOf(f)] == [] + [MemberOf(f)];
        assert [] + [MemberOf(f)] == [MemberOf(f)];
        out, cur, size := Flush(cls, out, cur);
      }
      AppendTotal(cur.members, MemberOf(f));
      cur := cur.(members := cur.members + [MemberOf(f)]);
      size := size + f.size;
    }
    assert sorted[..|sorted|] == sorted;
    FillDone(GroupsOf(out), cur.members, sorted, target, max);
    out, cur, size := Flush(cls, out, cur);
    out := AddTotals(out);
    assert IsPlanOfRows(out, cls, sorted, target, max);
  }

  /** The flush closure: keeps the open pack unless it is empty, and opens another. */
  method Flush(cls: Bytes, out: seq<PackPlan>, cur: PackPlan) returns (out': seq<PackPlan>, cur': PackPlan, size: nat)
    ensures out' == if cur.members == [] then out else out + [cur]
    ensures GroupsOf(out') == if cur.members == [] then GroupsOf(out) else GroupsOf(out) + [cur.members]
    ensures cur' == PackPlan(cls, [], 0) && size == Total([])
  {
    out' := out;
    if |cur.members| > 0 {
      out' := out + [cur];
    }
    cur', size := PackPlan(cls, [], 0), 0;
  }
}
