/**
 Whether the order in which a query returns rows of one path matters to the plan: the exact
 condition, over every order sorted by path.
 */
module RowOrder {
  import opened Basics
  import opened Planner
  import opened PlanStability
  import opened Inventory

  /** One of the answers a query that orders by path alone may give. */
  ghost predicate IsAnswer(files: seq<FileRow>, answer: seq<FileRow>) {
    multiset(answer) == multiset(files) && SortedByPath(answer)
  }

  /** No path has two different rows. */
  ghost predicate PathsAgree(files: seq<FileRow>) {
    forall x, y :: x in files && y in files && x.path == y.path ==> x == y
  }

  // ---- Every list of rows has a plan -----------------------------------

  lemma {:induction false} Filled(rows: seq<FileRow>, target: nat, max: nat)
    returns (gs: seq<seq<PackMember>>, cur: seq<PackMember>)
    requires max > 0
    ensures Filling(gs, cur, rows, target, max)
  {
    if rows == [] {
      gs, cur := [], [];
      FillStart(target, max);
      assert GroupsOf([]) == [];
    } else {
      var init, f := rows[..|rows| - 1], rows[|rows| - 1];
      gs, cur := Filled(init, target, max);
      FillStep(gs, cur, init, f, target, max);
      assert init + [f] == rows;
      if cur != [] && Closed(cur, MemberOf(f), target, max) {
        gs, cur := gs + [cur], [MemberOf(f)];
      } else {
        cur := cur + [MemberOf(f)];
      }
    }
  }

  lemma {:induction false} PlanExists(cls: Bytes, files: seq<FileRow>, target: nat, max: nat) returns (p: seq<PackPlan>)
    requires max > 0
    ensures IsPlanOf(p, cls, files, target, max)
  {
    FirstPerPathIs(files);
    var rows := SortByPath(FirstPerPath(files));
    SortByPathSorts(FirstPerPath(files));
    var gs, cur := Filled(rows, target, max);
    FillDone(gs, cur, rows, target, max);
    var all := if cur == [] then gs else gs + [cur];
    p := seq(|all|, i requires 0 <= i < |all| => PackPlan(cls, all[i], Total(all[i])));
    assert GroupsOf(p) == all;
    assert IsCatalogue(rows, files);
  }

  // ---- Putting a row first ---------------------------------------------

  /** Before all rows of its path, wherever they are. */
  function Place(r: FileRow, rows: seq<FileRow>): seq<FileRow> {
    if rows == [] || !Less(rows[0].path, r.path) then [r] + rows else [rows[0]] + Place(r, rows[1..])
  }

  function StableSort(rows: seq<FileRow>): seq<FileRow> {
    if rows == [] then [] else Place(rows[0], StableSort(rows[1..]))
  }

  lemma {:induction false} PlaceHolds(r: FileRow, rows: seq<FileRow>)
    ensures multiset(Place(r, rows)) == multiset(rows) + multiset{r}
    ensures forall x :: x in Place(r, rows) ==> x == r || x in rows
  {
    if rows != [] && Less(rows[0].path, r.path) {
      PlaceHolds(r, rows[1..]);
      assert rows == [rows[0]] + rows[1..];
    } else {
      assert multiset([r] + rows) == multiset{r} + multiset(rows);
    }
  }

  lemma HeadedSorted(first: FileRow, rest: seq<FileRow>)
    requires SortedByPath(rest) && forall x :: x in rest ==> !Less(x.path, first.path)
    ensures SortedByPath([first] + rest)
  {
    LessIrreflexive(first.path);
  }

  lemma {:induction false} PlaceSorted(r: FileRow, rows: seq<FileRow>)
    requires SortedByPath(rows)
    ensures SortedByPath(Place(r, rows))
  {
    if rows == [] {
    } else if Less(rows[0].path, r.path) {
      PlaceSorted(r, rows[1..]);
      PlaceHolds(r, rows[1..]);
      LessAsymmetric(rows[0].path, r.path);
      hide Place, Less;
      forall x | x in Place(r, rows[1..]) ensures !Less(x.path, rows[0].path) {
        if x != r { var j :| 0 <= j < |rows[1..]| && rows[1..][j] == x; }
      }
      HeadedSorted(rows[0], Place(r, rows[1..]));
      PlaceLater(r, rows);
    } else {
      forall x | x in rows ensures !Less(x.path, r.path) {
        var j :| 0 <= j < |rows| && rows[j] == x;
        if j > 0 { LessNegTransitive(rows[j].path, rows[0].path, r.path); }
      }
      HeadedSorted(r, rows);
    }
  }

  lemma PlaceLater(r: FileRow, rows: seq<FileRow>)
    requires rows != [] && Less(rows[0].path, r.path)
    ensures Place(r, rows) == [rows[0]] + Place(r, rows[1..])
  {
  }

  lemma {:induction false} StableSortIsAnswer(rows: seq<FileRow>)
    ensures IsAnswer(rows, StableSort(rows))
  {
    if rows != [] {
      StableSortIsAnswer(rows[1..]);
      PlaceSorted(rows[0], StableSort(rows[1..]));
      PlaceHolds(rows[0], StableSort(rows[1..]));
      assert rows == [rows[0]] + rows[1..];
    }
  }

  lemma {:induction false} PlacedIsFirst(r: FileRow, rows: seq<FileRow>)
    ensures FirstForPath(Place(r, rows), r)
  {
    var placed := Place(r, rows);
    if rows == [] || !Less(rows[0].path, r.path) {
      assert placed[0] == r && !HasPath(placed[..0], r.path);
    } else {
      var t := Place(r, rows[1..]);
      PlacedIsFirst(r, rows[1..]);
      var i: nat :| i < |t| && t[i] == r && !HasPath(t[..i], r.path);
      LessIrreflexive(r.path);
      assert placed[i + 1] == r && placed[..i + 1] == [rows[0]] + t[..i];
    }
  }

  /** Some answer lists `x` first among the rows of its path. */
  lemma {:induction false} AnswerWithFirst(files: seq<FileRow>, x: FileRow) returns (answer: seq<FileRow>)
    requires x in files
    ensures IsAnswer(files, answer) && FirstForPath(answer, x)
  {
    var i :| 0 <= i < |files| && files[i] == x;
    var rest := files[..i] + files[i + 1..];
    assert files == files[..i] + ([x] + files[i + 1..]);
    StableSortIsAnswer(rest);
    answer := Place(x, StableSort(rest));
    PlaceSorted(x, StableSort(rest));
    PlaceHolds(x, StableSort(rest));
    PlacedIsFirst(x, StableSort(rest));
  }

  // ---- The exact condition ---------------------------------------------

  /** All answers to the query give one plan. */
  ghost predicate PlannedAlike(cls: Bytes, files: seq<FileRow>, target: nat, max: nat) {
    forall f, g, p, q ::
      IsAnswer(files, f) && IsAnswer(files, g) && IsPlanOf(p, cls, f, target, max) && IsPlanOf(q, cls, g, target, max)
      ==> p == q
  }

  /** Planning depends on the files of a class, not on how a query listed them. */
  lemma SameRowsSamePlans(p: seq<PackPlan>, q: seq<PackPlan>, cls: Bytes, a: seq<FileRow>, b: seq<FileRow>, target: nat,
                          max: nat)
    requires IsPlanOf(p, cls, a, target, max) && IsPlanOf(q, cls, b, target, max)
    requires (forall r :: r in a <==> r in b) && PathsAgree(a)
    ensures p == q
  {
    FirstsAreAll(a);
    FirstsAreAll(b);
    var rows :| IsCatalogue(rows, b) && IsPlanOfRows(q, cls, rows, target, max);
    assert IsCatalogue(rows, a);
    PlanUnique(p, q, cls, a, target, max);
  }

  lemma FirstsAreAll(files: seq<FileRow>)
    requires PathsAgree(files)
    ensures forall r :: FirstForPath(files, r) <==> r in files
  {
    forall r | r in files ensures FirstForPath(files, r) {
      var i :| 0 <= i < |files| && files[i] == r;
      LeastIndex(files, r, i);
    }
  }

  lemma {:induction false} LeastIndex(files: seq<FileRow>, r: FileRow, i: nat)
    requires i < |files| && files[i] == r
    requires PathsAgree(files)
    ensures FirstForPath(files, r)
    decreases i
  {
    if HasPath(files[..i], r.path) {
      var j :| 0 <= j < i && files[..i][j].path == r.path;
      assert files[j] in files && files[j] == r;
      LeastIndex(files, r, j);
    }
  }

  lemma {:induction false} SamePlanSameRows(p: seq<PackPlan>, cls: Bytes, a: seq<FileRow>, b: seq<FileRow>, target: nat,
                                            max: nat)
    requires IsPlanOfRows(p, cls, a, target, max) && IsPlanOfRows(p, cls, b, target, max)
    ensures a == b
  {
    assert |a| == |MembersOf(a)| == |MembersOf(b)| == |b|;
    forall i | 0 <= i < |a| ensures a[i] == b[i] { assert MembersOf(a)[i] == MembersOf(b)[i]; }
  }

  lemma {:induction false} DifferentFirstsDiffer(cls: Bytes, f: seq<FileRow>, g: seq<FileRow>, x: FileRow, y: FileRow,
                                                 p: seq<PackPlan>, target: nat, max: nat)
    requires x.path == y.path && x != y && FirstForPath(f, x) && FirstForPath(g, y) && IsPlanOf(p, cls, f, target, max)
    ensures !IsPlanOf(p, cls, g, target, max)
  {
    if IsPlanOf(p, cls, g, target, max) {
      var a :| IsCatalogue(a, f) && IsPlanOfRows(p, cls, a, target, max);
      var b :| IsCatalogue(b, g) && IsPlanOfRows(p, cls, b, target, max);
      hide IsPlanOfRows, FirstForPath;
      SamePlanSameRows(p, cls, a, b, target, max);
      var i :| 0 <= i < |a| && a[i] == x;
      var j :| 0 <= j < |a| && a[j] == y;
      LessIrreflexive(x.path);
    }
  }

  /** The order of the rows does not matter to the plan exactly if no path has two different rows. */
  lemma {:induction false} OrderMattersExactlyWhen(cls: Bytes, files: seq<FileRow>, target: nat, max: nat)
    requires max > 0
    ensures PlannedAlike(cls, files, target, max) <==> PathsAgree(files)
  {
    if PathsAgree(files) {
      forall f, g, p, q | IsAnswer(files, f) && IsAnswer(files, g) && IsPlanOf(p, cls, f, target, max) &&
      IsPlanOf(q, cls, g, target, max)
        ensures p == q
      {
        forall r ensures (r in f <==> r in files) && (r in g <==> r in files) {
          assert (r in multiset(f) <==> r in multiset(files)) && (r in multiset(g) <==> r in multiset(files));
        }
        SameRowsSamePlans(p, q, cls, f, g, target, max);
      }
    } else {
      var x, y :| x in files && y in files && x.path == y.path && x != y;
      var f := AnswerWithFirst(files, x);
      var g := AnswerWithFirst(files, y);
      var p := PlanExists(cls, f, target, max);
      var q := PlanExists(cls, g, target, max);
      DifferentFirstsDiffer(cls, f, g, x, y, p, target, max);
    }
  }
}
