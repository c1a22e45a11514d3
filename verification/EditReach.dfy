/**
 How far an edit of one file reaches into the plan of its class: exactly when it stays within
 one pack, and two edits under the shipped limits that do not.
 */
module EditReach {
  import opened Basics
  import opened Planner
  import opened PlanStability

  /** Pack `j` may become `g`: it holds what it holds, and nothing moves over either boundary. */
  ghost predicate Fits(gs: seq<seq<PackMember>>, j: nat, g: seq<PackMember>, target: nat, max: nat)
    requires j < |gs|
  {
    && g != [] && (|g| >= 2 ==> Total(g) <= target)
    && (j > 0 ==> Closed(gs[j - 1], g[0], target, max))
    && (j + 1 < |gs| ==> gs[j + 1] != [] && Closed(g, gs[j + 1][0], target, max))
  }

  lemma {:induction false} SpliceIsNextFit(gs: seq<seq<PackMember>>, j: nat, g: seq<PackMember>, target: nat, max: nat)
    requires IsNextFit(gs, target, max) && j < |gs| && |g| == |gs[j]|
    ensures IsNextFit(gs[j := g], target, max) <==> Fits(gs, j, g, target, max)
  {
    var c := gs[j := g];
    assert WithinLimits(gs[j], target, max);
    if IsNextFit(c, target, max) {
      assert WithinLimits(c[j], target, max);
      if j > 0 { assert Forced(c, j - 1, target, max); }
      if j + 1 < |c| { assert Forced(c, j, target, max); }
    }
    if Fits(gs, j, g, target, max) {
      forall i: nat | i < |c| - 1 ensures Forced(c, i, target, max) { assert Forced(gs, i, target, max); }
    }
  }

  lemma {:induction false} FlattenSplice(gs: seq<seq<PackMember>>, j: nat, o: nat, m: PackMember)
    requires j < |gs| && o < |gs[j]|
    ensures StartOf(gs, j) + o < |Flatten(gs)|
    ensures Flatten(gs[j := gs[j][o := m]]) == Flatten(gs)[StartOf(gs, j) + o := m]
  {
    var c, g := gs[j := gs[j][o := m]], gs[j][o := m];
    assert gs == gs[..j] + ([gs[j]] + gs[j + 1..]) && c == gs[..j] + ([g] + gs[j + 1..]);
    FlattenConcat(gs[..j], [gs[j]] + gs[j + 1..]);
    FlattenConcat(gs[..j], [g] + gs[j + 1..]);
    assert ([gs[j]] + gs[j + 1..])[1..] == gs[j + 1..] && ([g] + gs[j + 1..])[1..] == gs[j + 1..];
  }

  ghost predicate OnlyGroup(a: seq<seq<PackMember>>, b: seq<seq<PackMember>>, k: nat) {
    |a| == |b| && forall l :: 0 <= l < |a| && l != k ==> a[l] == b[l]
  }

  lemma {:induction false} OneGroupSameShape(a: seq<seq<PackMember>>, b: seq<seq<PackMember>>, k: nat)
    requires OnlyGroup(a, b, k) && |Flatten(a)| == |Flatten(b)|
    ensures SameShape(a, b)
  {
    if k < |a| {
      assert a == a[..k] + ([a[k]] + a[k + 1..]) && b == a[..k] + ([b[k]] + a[k + 1..]);
      FlattenConcat(a[..k], [a[k]] + a[k + 1..]);
      FlattenConcat(a[..k], [b[k]] + a[k + 1..]);
      assert ([a[k]] + a[k + 1..])[1..] == a[k + 1..] && ([b[k]] + a[k + 1..])[1..] == a[k + 1..];
    }
  }

  lemma {:induction false} OneGroupExactlyWhen(a: seq<seq<PackMember>>, b: seq<seq<PackMember>>, j: nat, o: nat,
                                               m: PackMember,
                                               target: nat, max: nat)
    requires IsNextFit(a, target, max) && IsNextFit(b, target, max) && j < |a| && o < |a[j]|
    requires StartOf(a, j) + o < |Flatten(a)| && Flatten(b) == Flatten(a)[StartOf(a, j) + o := m]
    ensures (exists k: nat :: OnlyGroup(a, b, k)) <==> Fits(a, j, a[j][o := m], target, max)
    ensures Fits(a, j, a[j][o := m], target, max) ==> OnlyGroup(a, b, j)
  {
    var g := a[j][o := m];
    var c := a[j := g];
    FlattenSplice(a, j, o, m);
    SpliceIsNextFit(a, j, g, target, max);
    if Fits(a, j, g, target, max) {
      NextFitUnique(b, c, target, max);
      assert OnlyGroup(a, b, j);
    }
    if k: nat :| OnlyGroup(a, b, k) {
      OneGroupSameShape(a, b, k);
      SameShapeSameContent(b, c);
    }
  }

  // ---- Plans ---------------------------------------------------------------

  /** The plans have the same packs but for the one at `k`. */
  ghost predicate OnlyPack(p: seq<PackPlan>, q: seq<PackPlan>, k: nat) {
    |p| == |q| && forall l :: 0 <= l < |p| && l != k ==> p[l] == q[l]
  }

  lemma OnlyPackIsOnlyGroup(p: seq<PackPlan>, q: seq<PackPlan>, cls: Bytes, rows: seq<FileRow>, rows': seq<FileRow>,
                            target: nat, max: nat, k: nat)
    requires IsPlanOfRows(p, cls, rows, target, max) && IsPlanOfRows(q, cls, rows', target, max)
    ensures OnlyPack(p, q, k) <==> OnlyGroup(GroupsOf(p), GroupsOf(q), k)
  {
    assert |p| == |GroupsOf(p)| && |q| == |GroupsOf(q)|;
    forall l | 0 <= l < |p| && l < |q| ensures p[l] == q[l] <==> GroupsOf(p)[l] == GroupsOf(q)[l] {
    }
  }

  /**
   Any edit of file `i`, of its hash or its size, leaves all packs but one as they were exactly
   if the edited pack `j` still holds its members, its first member still has no room in the
   pack before, and the first member of the pack after has no room in it.
   */
  lemma {:induction false} OnePackExactlyWhen(p: seq<PackPlan>, q: seq<PackPlan>, cls: Bytes, rows: seq<FileRow>,
                                              i: nat, edited: FileRow, target: nat, max: nat) returns (j: nat, o: nat)
    requires i < |rows| && edited.path == rows[i].path
    requires IsPlanOfRows(p, cls, rows, target, max)
    requires IsPlanOfRows(q, cls, rows[i := edited], target, max)
    ensures j < |p| && o < |p[j].members| && StartOf(GroupsOf(p), j) + o == i
    ensures (exists k: nat :: OnlyPack(p, q, k)) <==>
      Fits(GroupsOf(p), j, p[j].members[o := MemberOf(edited)], target, max)
    ensures Fits(GroupsOf(p), j, p[j].members[o := MemberOf(edited)], target, max) ==> OnlyPack(p, q, j)
  {
    var a, b := GroupsOf(p), GroupsOf(q);
    assert MembersOf(rows[i := edited]) == MembersOf(rows)[i := MemberOf(edited)];
    j, o := Locate(a, i);
    assert a[j] == p[j].members && |a| == |p|;
    hide IsNextFit, GroupsOf, Flatten, Fits, OnlyPack, OnlyGroup;
    OneGroupExactlyWhen(a, b, j, o, MemberOf(edited), target, max);
    forall k: nat ensures OnlyPack(p, q, k) <==> OnlyGroup(a, b, k) {
      OnlyPackIsOnlyGroup(p, q, cls, rows, rows[i := edited], target, max, k);
    }
  }

  // ---- Two edits that reach further ------------------------------------

  function Named(name: byte, size: nat): FileRow { FileRow([name], [], size) }

  function Pack(cls: Bytes, rows: seq<FileRow>): PackPlan { PackPlan(cls, MembersOf(rows), Total(MembersOf(rows))) }

  const HALF := PACK_TARGET_BYTES / 2

  lemma TotalOfPair(x: FileRow, y: FileRow)
    ensures Total(MembersOf([x, y])) == x.size + y.size && Total(MembersOf([x])) == x.size
  {
    assert MembersOf([x]) == [MemberOf(x)] && MembersOf([x, y]) == [MemberOf(x), MemberOf(y)];
    TotalOfOne(MemberOf(x));
    TotalOfTwo(MemberOf(x), MemberOf(y));
  }

  lemma TwoPacks(cls: Bytes, x: seq<FileRow>, y: seq<FileRow>)
    requires WithinLimits(MembersOf(x), PACK_TARGET_BYTES, PACK_MAX_MEMBERS) && y != []
    requires WithinLimits(MembersOf(y), PACK_TARGET_BYTES, PACK_MAX_MEMBERS)
    requires Closed(MembersOf(x), MemberOf(y[0]), PACK_TARGET_BYTES, PACK_MAX_MEMBERS)
    ensures IsPlanOfRows([Pack(cls, x), Pack(cls, y)], cls, x + y, PACK_TARGET_BYTES, PACK_MAX_MEMBERS)
  {
    var plans := [Pack(cls, x), Pack(cls, y)];
    assert GroupsOf(plans) == [MembersOf(x), MembersOf(y)];
    FlattenTwo(MembersOf(x), MembersOf(y));
    assert MembersOf(x + y) == MembersOf(x) + MembersOf(y);
  }

  lemma SortedIsItsCatalogue(rows: seq<FileRow>)
    requires StrictlySorted(rows)
    ensures IsCatalogue(rows, rows)
  {
    forall i, j | 0 <= i < j < |rows| ensures rows[i].path != rows[j].path { LessIrreflexive(rows[i].path); }
    DistinctAreFirst(rows);
  }

  const THREE := [Named(65, HALF + 1), Named(66, HALF), Named(67, HALF)]

  /** Three files, the first a byte over half a pack: losing that byte it takes the second in, and both packs change. */
  lemma {:induction false} ShrinkingRegroups(cls: Bytes)
    ensures var a, b, c := THREE[0], THREE[1], THREE[2];
      var a' := a.(size := HALF);
      var p, q := [Pack(cls, [a]), Pack(cls, [b, c])], [Pack(cls, [a', b]), Pack(cls, [c])];
      && IsPlanOf(p, cls, THREE, PACK_TARGET_BYTES, PACK_MAX_MEMBERS)
      && IsPlanOf(q, cls, THREE[0 := a'], PACK_TARGET_BYTES, PACK_MAX_MEMBERS)
      && p[0] != q[0] && p[1] != q[1]
  {
    var a, b, c := THREE[0], THREE[1], THREE[2];
    var a' := a.(size := HALF);
    TotalOfPair(a, b);
    TotalOfPair(b, c);
    TotalOfPair(a', b);
    TotalOfPair(c, c);
    TwoPacks(cls, [a], [b, c]);
    TwoPacks(cls, [a', b], [c]);
    assert THREE == [a] + [b, c] && THREE[0 := a'] == [a', b] + [c];
    SortedIsItsCatalogue(THREE);
    SortedIsItsCatalogue(THREE[0 := a']);
    assert |MembersOf([a])| != |MembersOf([a', b])| && |MembersOf([b, c])| != |MembersOf([c])|;
  }

  const TWO := [Named(65, PACK_TARGET_BYTES - 10), Named(66, 20)]

  /** The second of two files shrinks into the room the first pack has left: one pack less. */
  lemma {:induction false} ShrinkingMovesBack(cls: Bytes)
    ensures var x, y := TWO[0], TWO[1];
      var y' := y.(size := 10);
      && IsPlanOf([Pack(cls, [x]), Pack(cls, [y])], cls, TWO, PACK_TARGET_BYTES, PACK_MAX_MEMBERS)
      && IsPlanOf([Pack(cls, [x, y'])], cls, TWO[1 := y'], PACK_TARGET_BYTES, PACK_MAX_MEMBERS)
  {
    var x, y := TWO[0], TWO[1];
    var y' := y.(size := 10);
    TotalOfPair(x, y);
    TotalOfPair(y, y);
    TotalOfPair(x, y');
    TwoPacks(cls, [x], [y]);
    assert TWO == [x] + [y] && TWO[1 := y'] == [x, y'];
    SortedIsItsCatalogue(TWO);
    SortedIsItsCatalogue([x, y']);
    var one := [Pack(cls, [x, y'])];
    assert GroupsOf(one) == [MembersOf([x, y'])];
    ExtendFlatten([], MembersOf([x, y']));
    assert [] + [MembersOf([x, y'])] == GroupsOf(one) && [] + MembersOf([x, y']) == MembersOf([x, y']);
    assert IsPlanOfRows(one, cls, [x, y'], PACK_TARGET_BYTES, PACK_MAX_MEMBERS);
  }
}
