/**
 What the next-fit grouping of Planner means between two runs: which packs keep their
 members after an edit, when two plans fall back into step, and how many packs there are.
 */
module PlanStability {
  import opened Basics
  import opened Planner

  /** One list of files has one plan. */
  lemma PlanUnique(p: seq<PackPlan>, q: seq<PackPlan>, cls: Bytes, files: seq<FileRow>, target: nat, max: nat)
    requires IsPlanOf(p, cls, files, target, max) && IsPlanOf(q, cls, files, target, max)
    ensures p == q
  {
    var a :| IsCatalogue(a, files) && IsPlanOfRows(p, cls, a, target, max);
    var b :| IsCatalogue(b, files) && IsPlanOfRows(q, cls, b, target, max);
    CatalogueUnique(a, b, files);
    RowsPlanUnique(p, q, cls, a, target, max);
  }

  lemma RowsPlanUnique(p: seq<PackPlan>, q: seq<PackPlan>, cls: Bytes, rows: seq<FileRow>, target: nat, max: nat)
    requires IsPlanOfRows(p, cls, rows, target, max) && IsPlanOfRows(q, cls, rows, target, max)
    ensures p == q
  {
    NextFitUnique(GroupsOf(p), GroupsOf(q), target, max);
    assert |p| == |GroupsOf(p)| == |GroupsOf(q)| == |q|;
    forall i | 0 <= i < |p| ensures p[i] == q[i] {
      assert p[i].members == GroupsOf(p)[i] == GroupsOf(q)[i] == q[i].members;
    }
  }

  lemma DistinctAreFirst(files: seq<FileRow>)
    requires DistinctPaths(files)
    ensures forall r :: FirstForPath(files, r) <==> r in files
  {
    forall r | r in files ensures FirstForPath(files, r) {
      var i :| 0 <= i < |files| && files[i] == r;
      assert !HasPath(files[..i], r.path);
    }
  }

  /** When no path repeats, the order rows arrive in does not matter; RowOrder has the exact condition. */
  lemma PlanIgnoresOrder(p: seq<PackPlan>, q: seq<PackPlan>, cls: Bytes, files: seq<FileRow>, files': seq<FileRow>,
                         target: nat, max: nat)
    requires DistinctPaths(files) && DistinctPaths(files') && forall r :: r in files <==> r in files'
    requires IsPlanOf(p, cls, files, target, max) && IsPlanOf(q, cls, files', target, max)
    ensures p == q
  {
    DistinctAreFirst(files);
    DistinctAreFirst(files');
    var b :| IsCatalogue(b, files') && IsPlanOfRows(q, cls, b, target, max);
    assert IsCatalogue(b, files);
    PlanUnique(p, q, cls, files, target, max);
  }

  // ---- How many packs ---------------------------------------------------

  /** Counts the pack boundaries forced by size and those forced by the member limit. */
  lemma {:induction false} CountBoundaries(gs: seq<seq<PackMember>>, target: nat, max: nat)
    returns (bySize: nat, byCount: nat)
    requires gs != [] && IsNextFit(gs, target, max)
    ensures bySize + byCount == |gs| - 1
    ensures bySize * target + Total(gs[|gs| - 1]) <= 2 * Total(Flatten(gs))
    ensures byCount * max + |gs[|gs| - 1]| <= |Flatten(gs)|
  {
    var init, last := gs[..|gs| - 1], gs[|gs| - 1];
    assert gs == init + [last];
    ExtendFlatten(init, last);
    TotalConcat(Flatten(init), last);
    if init == [] {
      bySize, byCount := 0, 0;
    } else {
      var prev := gs[|gs| - 2];
      SliceOfNextFit(gs, 0, |gs| - 1, target, max);
      assert gs[0..|gs| - 1] == init;
      bySize, byCount := CountBoundaries(init, target, max);
      assert Forced(gs, |gs| - 2, target, max);
      if |prev| >= max {
        byCount := byCount + 1;
        assert byCount * max == (byCount - 1) * max + max;
      } else {
        TotalConcat([last[0]], last[1..]);
        assert last == [last[0]] + last[1..];
        assert Total([last[0]]) == Total([]) + last[0].size;
        bySize := bySize + 1;
        assert bySize * target == (bySize - 1) * target + target;
      }
    }
  }

  lemma QuotientBound(k: nat, d: nat, n: nat)
    requires d > 0 && k * d <= n
    ensures k <= n / d
  {
    if k > n / d { MultiplesApart(n / d, k, d); }
  }

  /** At most one pack per half target of content, plus one per full member list, plus one. */
  lemma PackCountBound(plans: seq<PackPlan>, cls: Bytes, rows: seq<FileRow>, target: nat, max: nat)
    requires target > 0 && max > 0 && IsPlanOfRows(plans, cls, rows, target, max)
    ensures |plans| <= 2 * Total(MembersOf(rows)) / target + |rows| / max + 1
  {
    var gs := GroupsOf(plans);
    if gs != [] {
      var bySize, byCount := CountBoundaries(gs, target, max);
      QuotientBound(bySize, target, 2 * Total(Flatten(gs)));
      QuotientBound(byCount, max, |rows|);
    } else {
      assert |plans| == 0;
    }
  }

  // ---- What an edit changes ---------------------------------------------

  function Bare(m: PackMember): PackMember { PackMember([], [], m.size, 0, 0) }

  function BareAll(ms: seq<PackMember>): seq<PackMember> { seq(|ms|, i requires 0 <= i < |ms| => Bare(ms[i])) }

  function BareGroups(gs: seq<seq<PackMember>>): seq<seq<PackMember>> {
    seq(|gs|, i requires 0 <= i < |gs| => BareAll(gs[i]))
  }

  lemma {:induction false} BareTotal(ms: seq<PackMember>)
    ensures Total(BareAll(ms)) == Total(ms)
  {
    if ms != [] {
      BareTotal(ms[..|ms| - 1]);
      assert BareAll(ms)[..|ms| - 1] == BareAll(ms[..|ms| - 1]);
    }
  }

  lemma {:induction false} BareFlatten(gs: seq<seq<PackMember>>)
    ensures Flatten(BareGroups(gs)) == BareAll(Flatten(gs))
  {
    if gs != [] {
      BareFlatten(gs[1..]);
      assert BareGroups(gs)[1..] == BareGroups(gs[1..]);
      assert BareAll(gs[0] + Flatten(gs[1..])) == BareAll(gs[0]) + BareAll(Flatten(gs[1..]));
    }
  }

  lemma BareNextFit(gs: seq<seq<PackMember>>, target: nat, max: nat)
    requires IsNextFit(gs, target, max)
    ensures IsNextFit(BareGroups(gs), target, max)
  {
    var bs := BareGroups(gs);
    forall i: nat | i < |bs| ensures WithinLimits(bs[i], target, max) {
      BareTotal(gs[i]);
      assert WithinLimits(gs[i], target, max);
    }
    forall i: nat | i < |bs| - 1 ensures Forced(bs, i, target, max) {
      BareTotal(gs[i]);
      assert Forced(gs, i, target, max);
    }
  }

  /** Grouping looks at sizes only. */
  lemma SameSizesSameShape(a: seq<seq<PackMember>>, b: seq<seq<PackMember>>, target: nat, max: nat)
    requires IsNextFit(a, target, max) && IsNextFit(b, target, max)
    requires BareAll(Flatten(a)) == BareAll(Flatten(b))
    ensures |a| == |b| && forall j :: 0 <= j < |a| ==> |a[j]| == |b[j]|
  {
    BareNextFit(a, target, max);
    BareNextFit(b, target, max);
    BareFlatten(a);
    BareFlatten(b);
    NextFitUnique(BareGroups(a), BareGroups(b), target, max);
    assert |a| == |BareGroups(a)| == |b|;
    forall j | 0 <= j < |a| ensures |a[j]| == |b[j]| {
      assert |BareGroups(a)[j]| == |a[j]| && |BareGroups(b)[j]| == |b[j]|;
    }
  }

  ghost predicate SameShape(a: seq<seq<PackMember>>, b: seq<seq<PackMember>>) {
    |a| == |b| && forall j :: 0 <= j < |a| ==> |a[j]| == |b[j]|
  }

  lemma {:induction false} SameShapeSameContent(a: seq<seq<PackMember>>, b: seq<seq<PackMember>>)
    requires SameShape(a, b) && Flatten(a) == Flatten(b)
    ensures a == b
  {
    if a != [] {
      assert a[0] == Flatten(a)[..|a[0]|] == b[0];
      assert Flatten(a[1..]) == Flatten(a)[|a[0]|..] == Flatten(b[1..]);
      SameShapeSameContent(a[1..], b[1..]);
      assert a == [a[0]] + a[1..] && b == [b[0]] + b[1..];
    }
  }

  /** Two groupings of one shape whose contents differ at one place differ in one group. */
  lemma {:induction false} OneGroupDiffers(a: seq<seq<PackMember>>, b: seq<seq<PackMember>>, i: nat) returns (j: nat)
    requires SameShape(a, b) && |Flatten(a)| == |Flatten(b)| && i < |Flatten(a)|
    requires Flatten(a)[i] != Flatten(b)[i]
    requires forall k :: 0 <= k < |Flatten(a)| && k != i ==> Flatten(a)[k] == Flatten(b)[k]
    ensures j < |a| && a[j] != b[j]
    ensures forall k :: 0 <= k < |a| && k != j ==> a[k] == b[k]
  {
    var n, fa, fb := |a[0]|, Flatten(a), Flatten(b);
    assert fa[..n] == a[0] && fb[..n] == b[0];
    assert fa[n..] == Flatten(a[1..]) && fb[n..] == Flatten(b[1..]);
    if i < n {
      j := 0;
      assert a[0][i] == fa[i] && b[0][i] == fb[i];
      assert fa[n..] == fb[n..];
      SameShapeSameContent(a[1..], b[1..]);
      assert forall k :: 1 <= k < |a| ==> a[k] == a[1..][k - 1] == b[1..][k - 1] == b[k];
    } else {
      assert a[0] == b[0];
      assert fa[n..][i - n] == fa[i] && fb[n..][i - n] == fb[i];
      j := OneGroupDiffers(a[1..], b[1..], i - n);
      assert a[j + 1] == a[1..][j] && b[j + 1] == b[1..][j];
      forall k | 0 <= k < |a| && k != j + 1 ensures a[k] == b[k] {
        if k > 0 { assert a[k] == a[1..][k - 1] && b[k] == b[1..][k - 1]; }
      }
      j := j + 1;
    }
  }

  /** An edit that keeps a file's size changes exactly one pack of its class. */
  lemma SameSizeEditChangesOnePack(p: seq<PackPlan>, q: seq<PackPlan>, cls: Bytes, rows: seq<FileRow>, i: nat,
                                   sha: Bytes, target: nat, max: nat)
    returns (j: nat)
    requires i < |rows| && sha != rows[i].sha
    requires IsPlanOfRows(p, cls, rows, target, max)
    requires IsPlanOfRows(q, cls, rows[i := rows[i].(sha := sha)], target, max)
    ensures |p| == |q| && j < |p| && p[j] != q[j]
    ensures forall k :: 0 <= k < |p| && k != j ==> p[k] == q[k]
  {
    var rows' := rows[i := rows[i].(sha := sha)];
    var a, b := GroupsOf(p), GroupsOf(q);
    assert BareAll(MembersOf(rows)) == BareAll(MembersOf(rows'));
    SameSizesSameShape(a, b, target, max);
    assert MembersOf(rows)[i] == MemberOf(rows[i]) && MembersOf(rows')[i] == MemberOf(rows'[i]);
    j := OneGroupDiffers(a, b, i);
    assert |p| == |a| && |q| == |b|;
    assert p[j].members == a[j] && q[j].members == b[j];
    forall k | 0 <= k < |p| && k != j ensures p[k] == q[k] {
      assert p[k].members == a[k] == b[k] == q[k].members;
    }
  }

  /** Every pack flushed before the first file that differs is unchanged, whatever the edit. */
  lemma {:induction false} FlushedPacksUnchanged(a: seq<seq<PackMember>>, b: seq<seq<PackMember>>, n: nat, k: nat,
                                                 target: nat, max: nat)
    requires IsNextFit(a, target, max) && IsNextFit(b, target, max)
    requires n <= |Flatten(a)| && n <= |Flatten(b)| && Flatten(a)[..n] == Flatten(b)[..n]
    requires k <= |a| && |Flatten(a[..k])| < n
    ensures k <= |b| && a[..k] == b[..k]
    decreases k
  {
    if k > 0 {
      var fa, fb, m := Flatten(a), Flatten(b), |a[0]|;
      assert a[..k] == [a[0]] + a[..k][1..] && a[..k][1..] == a[1..][..k - 1];
      assert Flatten(a[..k]) == a[0] + Flatten(a[1..][..k - 1]);
      assert b != [];
      SameFirstPackInPrefix(a, b, n, target, max);
      assert Flatten(a[1..]) == fa[m..] && Flatten(b[1..]) == fb[m..];
      assert fa[m..][..n - m] == fa[..n][m..] == fb[..n][m..] == fb[m..][..n - m];
      SliceOfNextFit(a, 1, |a|, target, max);
      SliceOfNextFit(b, 1, |b|, target, max);
      assert a[1..|a|] == a[1..] && b[1..|b|] == b[1..];
      FlushedPacksUnchanged(a[1..], b[1..], n - m, k - 1, target, max);
      forall i | 0 <= i < k ensures a[i] == b[i] {
        if i > 0 { assert a[i] == a[1..][..k - 1][i - 1] && b[i] == b[1..][..k - 1][i - 1]; }
      }
    }
  }

  lemma SameFirstPackInPrefix(a: seq<seq<PackMember>>, b: seq<seq<PackMember>>, n: nat, target: nat, max: nat)
    requires a != [] && b != [] && IsNextFit(a, target, max) && IsNextFit(b, target, max)
    requires |a[0]| < n <= |Flatten(a)| && n <= |Flatten(b)| && Flatten(a)[..n] == Flatten(b)[..n]
    ensures a[0] == b[0]
  {
    var fa, fb, m, l := Flatten(a), Flatten(b), |a[0]|, |b[0]|;
    ClosedAfterFirst(a, target, max);
    ClosedAfterFirst(b, target, max);
    assert fa[..m] == fa[..n][..m] == fb[..m] && fa[m] == fa[..n][m] == fb[..n][m] == fb[m];
    if m < l { OpenInsideFirst(b, m, target, max); }
    if l < m {
      assert fa[..l] == fa[..n][..l] == fb[..l] && fa[l] == fa[..n][l] == fb[..n][l] == fb[l];
      OpenInsideFirst(a, l, target, max);
    }
  }

  /** Once two plans end a pack at the same later file, every pack after it coincides. */
  lemma SharedBoundaryResynchronises(p: seq<PackPlan>, q: seq<PackPlan>, cls: Bytes, pre: seq<FileRow>,
                                     pre': seq<FileRow>, rest: seq<FileRow>,
                                     i: nat, j: nat, target: nat, max: nat)
    requires IsPlanOfRows(p, cls, pre + rest, target, max) && IsPlanOfRows(q, cls, pre' + rest, target, max)
    requires i <= |p| && Flatten(GroupsOf(p[..i])) == MembersOf(pre)
    requires j <= |q| && Flatten(GroupsOf(q[..j])) == MembersOf(pre')
    ensures p[i..] == q[j..]
  {
    PlanSuffix(p, cls, pre, rest, i, target, max);
    PlanSuffix(q, cls, pre', rest, j, target, max);
    RowsPlanUnique(p[i..], q[j..], cls, rest, target, max);
  }

  lemma PlanSuffix(p: seq<PackPlan>, cls: Bytes, pre: seq<FileRow>, rest: seq<FileRow>, i: nat, target: nat, max: nat)
    requires IsPlanOfRows(p, cls, pre + rest, target, max)
    requires i <= |p| && Flatten(GroupsOf(p[..i])) == MembersOf(pre)
    ensures IsPlanOfRows(p[i..], cls, rest, target, max)
  {
    var gs := GroupsOf(p);
    SliceOfNextFit(gs, i, |gs|, target, max);
    assert gs[i..|gs|] == GroupsOf(p[i..]) && gs == GroupsOf(p[..i]) + GroupsOf(p[i..]);
    FlattenConcat(GroupsOf(p[..i]), GroupsOf(p[i..]));
    assert MembersOf(pre + rest) == MembersOf(pre) + MembersOf(rest);
    assert Flatten(GroupsOf(p[i..])) == MembersOf(pre + rest)[|pre|..];
    assert MembersOf(pre + rest)[|pre|..] == MembersOf(rest);
  }

  lemma TotalOfOne(x: PackMember)
    ensures Total([x]) == x.size
  {
    AppendTotal([], x);
    assert [] + [x] == [x];
  }

  lemma TotalOfTwo(x: PackMember, y: PackMember)
    ensures Total([x, y]) == x.size + y.size
  {
    TotalOfOne(x);
    AppendTotal([x], y);
    assert [x] + [y] == [x, y];
  }

  lemma FlattenTwo(g: seq<PackMember>, h: seq<PackMember>)
    ensures Flatten([g, h]) == g + h
  {
    ExtendFlatten([], g);
    ExtendFlatten([g], h);
    assert [] + [g] == [g] && [g] + [h] == [g, h];
  }
}
