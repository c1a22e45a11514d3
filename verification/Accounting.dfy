/**
 The numbers of a manifest: the packs of a freshly sealed generation add up to the file and
 byte counts its header carries from the index pass.
 */
module Accounting {
  import opened Basics
  import opened Planner
  import opened Inventory
  import opened Classes
  import opened IndexPass
  import opened Snapshots
  import opened ManifestCache
  import opened Recovery

  // ---- Sums over packs --------------------------------------------------

  function MemberSum(ps: seq<PackInfo>): nat {
    if ps == [] then 0 else MemberSum(ps[..|ps| - 1]) + ps[|ps| - 1].members
  }

  function ContentSum(ps: seq<PackInfo>): nat {
    if ps == [] then 0 else ContentSum(ps[..|ps| - 1]) + ps[|ps| - 1].content
  }

  lemma {:induction false} SumsConcat(a: seq<PackInfo>, b: seq<PackInfo>)
    ensures MemberSum(a + b) == MemberSum(a) + MemberSum(b) && ContentSum(a + b) == ContentSum(a) + ContentSum(b)
  {
    if b == [] {
      assert a + b == a;
    } else {
      SumsConcat(a, b[..|b| - 1]);
      assert (a + b)[..|a + b| - 1] == a + b[..|b| - 1];
    }
  }

  lemma SumsOfOne(x: PackInfo)
    ensures MemberSum([x]) == x.members && ContentSum([x]) == x.content
  {
    assert [x][..0] == [];
  }

  lemma {:induction false} PlaceInfoSums(ranks: map<Bytes, nat>, x: PackInfo, ps: seq<PackInfo>)
    ensures MemberSum(PlaceInfo(ranks, x, ps)) == MemberSum(ps) + x.members
    ensures ContentSum(PlaceInfo(ranks, x, ps)) == ContentSum(ps) + x.content
  {
    SumsOfOne(x);
    if ps == [] || InfoBefore(ranks, x, ps[0]) {
      SumsConcat([x], ps);
    } else {
      PlaceInfoSums(ranks, x, ps[1..]);
      SumsConcat([ps[0]], ps[1..]);
      SumsConcat([ps[0]], PlaceInfo(ranks, x, ps[1..]));
      assert ps == [ps[0]] + ps[1..];
    }
  }

  lemma {:induction false} PrioritySums(ranks: map<Bytes, nat>, ps: seq<PackInfo>)
    ensures MemberSum(SortByPriority(ranks, ps)) == MemberSum(ps)
    ensures ContentSum(SortByPriority(ranks, ps)) == ContentSum(ps)
  {
    if ps != [] {
      PrioritySums(ranks, ps[..|ps| - 1]);
      PlaceInfoSums(ranks, ps[|ps| - 1], SortByPriority(ranks, ps[..|ps| - 1]));
    }
  }

  lemma {:induction false} InfosConcat(fp: Bytes -> Bytes, a: seq<PackPlan>, b: seq<PackPlan>)
    ensures InfosOf(fp, a + b) == InfosOf(fp, a) + InfosOf(fp, b)
  {
  }

  /** The packs of a plan hold its members once each. */
  lemma {:induction false} PlanSums(fp: Bytes -> Bytes, plans: seq<PackPlan>)
    requires forall i :: 0 <= i < |plans| ==> plans[i].bytes == Total(plans[i].members)
    ensures MemberSum(InfosOf(fp, plans)) == |Flatten(GroupsOf(plans))|
    ensures ContentSum(InfosOf(fp, plans)) == Total(Flatten(GroupsOf(plans)))
  {
    hide InfoOf;
    if plans != [] {
      hide Flatten, Total;
      var init, p := plans[..|plans| - 1], plans[|plans| - 1];
      PlanSums(fp, init);
      assert GroupsOf(plans) == GroupsOf(init) + [p.members];
      ExtendFlatten(GroupsOf(init), p.members);
      TotalConcat(Flatten(GroupsOf(init)), p.members);
      assert InfosOf(fp, plans)[..|plans| - 1] == InfosOf(fp, init);
      InfoNumbers(fp, p);
    }
  }

  lemma InfoNumbers(fp: Bytes -> Bytes, p: PackPlan)
    ensures InfoOf(fp, p).members == |p.members| && InfoOf(fp, p).content == p.bytes
  {
  }

  // ---- One class --------------------------------------------------------

  function OfClass(rows: seq<IndexedRow>, cls: Bytes): seq<FileRow> {
    if rows == [] then []
    else
      var r := rows[|rows| - 1];
      OfClass(rows[..|rows| - 1], cls) + if r.cls == cls then [RowOf(r)] else []
  }

  lemma {:induction false} OfClassLists(rows: seq<IndexedRow>, cls: Bytes)
    requires DistinctRowPaths(rows)
    ensures Lists(OfClass(rows, cls), rows, cls) && DistinctPaths(OfClass(rows, cls))
  {
    if rows != [] {
      var init, r := rows[..|rows| - 1], rows[|rows| - 1];
      var a := OfClass(init, cls);
      OfClassLists(init, cls);
      forall i | 0 <= i < |a| ensures a[i].path != r.path { assert a[i] in a; }
      forall x
        ensures x in OfClass(rows, cls) <==> exists i :: 0 <= i < |rows| && rows[i].cls == cls && x == RowOf(rows[i])
      {
        if x in a {
          var i :| 0 <= i < |init| && init[i].cls == cls && x == RowOf(init[i]);
          assert rows[i] == init[i];
        }
        if i :| 0 <= i < |rows| && rows[i].cls == cls && x == RowOf(rows[i]) {
          if i < |init| { assert init[i] == rows[i] && x in a; }
        }
      }
    }
  }

  function SizeSum(rows: seq<FileRow>): nat {
    if rows == [] then 0 else SizeSum(rows[..|rows| - 1]) + rows[|rows| - 1].size
  }

  lemma {:induction false} SizeSumConcat(a: seq<FileRow>, b: seq<FileRow>)
    ensures SizeSum(a + b) == SizeSum(a) + SizeSum(b)
  {
    if b == [] {
      assert a + b == a;
    } else {
      SizeSumConcat(a, b[..|b| - 1]);
      assert (a + b)[..|a + b| - 1] == a + b[..|b| - 1];
    }
  }

  lemma {:induction false} MembersTotal(rows: seq<FileRow>)
    ensures Total(MembersOf(rows)) == SizeSum(rows)
  {
    if rows != [] {
      MembersTotal(rows[..|rows| - 1]);
      assert MembersOf(rows)[..|rows| - 1] == MembersOf(rows[..|rows| - 1]);
    }
  }

  lemma {:induction false} InsertSums(r: FileRow, rows: seq<FileRow>)
    ensures |Insert(r, rows)| == |rows| + 1 && SizeSum(Insert(r, rows)) == SizeSum(rows) + r.size
  {
    assert SizeSum([r]) == SizeSum([r][..0]) + r.size;
    if rows == [] || Less(r.path, rows[0].path) {
      SizeSumConcat([r], rows);
    } else {
      InsertSums(r, rows[1..]);
      SizeSumConcat([rows[0]], rows[1..]);
      SizeSumConcat([rows[0]], Insert(r, rows[1..]));
      assert rows == [rows[0]] + rows[1..];
    }
  }

  lemma {:induction false} SortSums(rows: seq<FileRow>)
    ensures |SortByPath(rows)| == |rows| && SizeSum(SortByPath(rows)) == SizeSum(rows)
  {
    if rows != [] {
      SortSums(rows[..|rows| - 1]);
      InsertSums(rows[|rows| - 1], SortByPath(rows[..|rows| - 1]));
    }
  }

  /** The packs of a class add up to the rows recorded for it. */
  lemma ClassSums(fp: Bytes -> Bytes, files: FileTable, gen: nat, rows: seq<IndexedRow>, cls: Bytes,
                  plans: seq<PackPlan>)
    requires Ordered(files) && (forall k :: k in files ==> files[k].lastGen < gen)
    requires ClassesStable(files, rows) && DistinctRowPaths(rows)
    requires ClassPlans(Upserted(files, gen, rows), gen, cls, plans)
    ensures MemberSum(InfosOf(fp, plans)) == |OfClass(rows, cls)|
    ensures ContentSum(InfosOf(fp, plans)) == SizeSum(OfClass(rows, cls))
  {
    hide InfosOf, IsPlanOf, RowsAt, Upserted;
    var answer :| Answers(Upserted(files, gen, rows), gen, cls, answer) &&
        IsPlanOf(plans, cls, answer, PACK_TARGET_BYTES, PACK_MAX_MEMBERS);
    ClassSnapshotAtSeal(files, gen, rows, cls);
    var cat := PlannedWhole(plans, cls, answer, rows);
    OfClassLists(rows, cls);
    SortByPathSorts(OfClass(rows, cls));
    SortedUnique(cat, SortByPath(OfClass(rows, cls)));
    SortSums(OfClass(rows, cls));
    MembersTotal(cat);
    PlanSums(fp, plans);
    assert |MembersOf(cat)| == |cat|;
  }

  // ---- The whole generation ---------------------------------------------

  function FilesPerClass(cs: seq<AssetClass>, rows: seq<IndexedRow>): nat {
    if cs == [] then 0 else FilesPerClass(cs[..|cs| - 1], rows) + |OfClass(rows, cs[|cs| - 1].slug)|
  }

  function BytesPerClass(cs: seq<AssetClass>, rows: seq<IndexedRow>): nat {
    if cs == [] then 0 else BytesPerClass(cs[..|cs| - 1], rows) + SizeSum(OfClass(rows, cs[|cs| - 1].slug))
  }

  lemma {:induction false} OneMoreRow(cs: seq<AssetClass>, init: seq<IndexedRow>, r: IndexedRow)
    requires DistinctSlugs(cs)
    ensures FilesPerClass(cs, init + [r]) == FilesPerClass(cs, init) + (if HasSlug(cs, r.cls) then 1 else 0)
    ensures BytesPerClass(cs, init + [r]) == BytesPerClass(cs, init) + (if HasSlug(cs, r.cls) then r.stat.size else 0)
  {
    if cs != [] {
      var most, c := cs[..|cs| - 1], cs[|cs| - 1];
      assert forall i :: 0 <= i < |most| ==> most[i] == cs[i];
      OneMoreRow(most, init, r);
      assert (init + [r])[..|init|] == init;
      if r.cls == c.slug {
        assert cs[|cs| - 1].slug == r.cls;
        SizeSumConcat(OfClass(init, c.slug), [RowOf(r)]);
        assert SizeSum([RowOf(r)]) == SizeSum([RowOf(r)][..0]) + r.stat.size;
      } else {
        assert OfClass(init + [r], c.slug) == OfClass(init, c.slug);
        if HasSlug(cs, r.cls) {
          var i :| 0 <= i < |cs| && cs[i].slug == r.cls;
          assert most[i].slug == r.cls;
        }
      }
    }
  }

  lemma {:induction false} NoRows(cs: seq<AssetClass>)
    ensures FilesPerClass(cs, []) == 0 && BytesPerClass(cs, []) == 0
  {
    if cs != [] { NoRows(cs[..|cs| - 1]); }
  }

  lemma {:induction false} RowsPartition(cs: seq<AssetClass>, rows: seq<IndexedRow>)
    requires DistinctSlugs(cs) && Declared(cs, rows)
    ensures FilesPerClass(cs, rows) == |rows| && BytesPerClass(cs, rows) == TotalSize(rows)
  {
    if rows == [] {
      NoRows(cs);
    } else {
      var init, r := rows[..|rows| - 1], rows[|rows| - 1];
      assert rows == init + [r] && forall k :: 0 <= k < |init| ==> init[k] == rows[k];
      RowsPartition(cs, init);
      OneMoreRow(cs, init, r);
      assert rows[|rows| - 1].cls == r.cls;
    }
  }

  lemma {:induction false} ManifestSums(fp: Bytes -> Bytes, files: FileTable, gen: nat, cs: seq<AssetClass>,
                                        rows: seq<IndexedRow>, per: seq<seq<PackPlan>>)
    requires Ordered(files) && (forall k :: k in files ==> files[k].lastGen < gen)
    requires ClassesStable(files, rows) && DistinctRowPaths(rows)
    requires AllClassPlans(Upserted(files, gen, rows), gen, cs, per)
    ensures MemberSum(InfosOf(fp, Concat(per))) == FilesPerClass(cs, rows)
    ensures ContentSum(InfosOf(fp, Concat(per))) == BytesPerClass(cs, rows)
    decreases |cs|
  {
    hide ClassPlans, Upserted, InfosOf, OfClass;
    if cs == [] {
      NoPacks(fp);
    } else {
      var n := |cs| - 1;
      assert AllClassPlans(Upserted(files, gen, rows), gen, cs[..n], per[..n]);
      ManifestSums(fp, files, gen, cs[..n], rows, per[..n]);
      ClassSums(fp, files, gen, rows, cs[n].slug, per[n]);
      InfosConcat(fp, Concat(per[..n]), per[n]);
      SumsConcat(InfosOf(fp, Concat(per[..n])), InfosOf(fp, per[n]));
    }
  }

  /**
   The manifest of a freshly sealed generation adds up: its packs hold exactly the files and bytes
   its header counts.
  */
  lemma ManifestAddsUp(fp: Bytes -> Bytes, files: FileTable, gen: nat, gens: map<nat, Generation>, cs: seq<AssetClass>,
                       rows: seq<IndexedRow>, g: GenPlans)
    requires Ordered(files) && (forall k :: k in files ==> files[k].lastGen < gen)
    requires ClassesStable(files, rows) && DistinctRowPaths(rows) && DistinctSlugs(cs) && Declared(cs, rows)
    requires IsBuild(fp, cs, gens, Upserted(files, gen, rows), gen, g)
    requires gens[gen].files == |rows| && gens[gen].bytes == TotalSize(rows)
    ensures MemberSum(g.man.packs) == g.man.files && ContentSum(g.man.packs) == g.man.bytes
  {
    hide AllClassPlans, Upserted, InfosOf, SortByPriority, PlanMap;
    var per :| AllClassPlans(Upserted(files, gen, rows), gen, cs, per) &&
        g == Assembled(fp, cs, gen, gens[gen], Concat(per));
    ManifestSums(fp, files, gen, cs, rows, per);
    RowsPartition(cs, rows);
    PrioritySums(Ranks(cs), InfosOf(fp, Concat(per)));
  }
}
