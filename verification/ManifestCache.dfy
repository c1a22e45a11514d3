/**
 The served manifest of backup/manifest.go: one generation planned into packs in priority
 order, remembered for two generations, and streamed pack by pack.
 */
module ManifestCache {
  import opened Basics
  import opened Planner
  import opened RowOrder
  import opened PackIdentity
  import opened PackWriter
  import opened Transfer
  import opened Inventory
  import opened Classes

  datatype PackInfo = PackInfo(id: Bytes, cls: Bytes, bytes: nat, content: nat, members: nat, raw: bool, path: Bytes,
                               sha: Bytes)

  datatype Manifest = Manifest(generation: nat, files: nat, bytes: nat, packs: seq<PackInfo>)

  datatype GenPlans = GenPlans(plans: map<Bytes, PackPlan>, man: Manifest)

  // ---- Priority order ---------------------------------------------------

  function RankOf(ranks: map<Bytes, nat>, cls: Bytes): nat { if cls in ranks then ranks[cls] else |ranks| }

  predicate InfoBefore(ranks: map<Bytes, nat>, a: PackInfo, b: PackInfo) {
    var ra, rb := RankOf(ranks, a.cls), RankOf(ranks, b.cls);
    if ra != rb then ra < rb else if a.cls != b.cls then Less(a.cls, b.cls) else Less(a.id, b.id)
  }

  function PlaceInfo(ranks: map<Bytes, nat>, x: PackInfo, ps: seq<PackInfo>): seq<PackInfo> {
    if ps == [] || InfoBefore(ranks, x, ps[0]) then [x] + ps else [ps[0]] + PlaceInfo(ranks, x, ps[1..])
  }

  /** sortPacksByPriority. */
  function SortByPriority(ranks: map<Bytes, nat>, ps: seq<PackInfo>): seq<PackInfo> {
    if ps == [] then [] else PlaceInfo(ranks, ps[|ps| - 1], SortByPriority(ranks, ps[..|ps| - 1]))
  }

  ghost predicate RanksAscend(ranks: map<Bytes, nat>, ps: seq<PackInfo>) {
    forall i, j :: 0 <= i < j < |ps| ==> RankOf(ranks, ps[i].cls) <= RankOf(ranks, ps[j].cls)
  }

  lemma {:induction false} PlaceInfoContent(ranks: map<Bytes, nat>, x: PackInfo, ps: seq<PackInfo>)
    ensures multiset(PlaceInfo(ranks, x, ps)) == multiset(ps) + multiset{x}
    ensures forall y :: y in PlaceInfo(ranks, x, ps) ==> y == x || y in ps
  {
    if ps != [] && !InfoBefore(ranks, x, ps[0]) {
      PlaceInfoContent(ranks, x, ps[1..]);
      assert ps == [ps[0]] + ps[1..];
    }
  }

  lemma {:induction false} PlaceInfoAscends(ranks: map<Bytes, nat>, x: PackInfo, ps: seq<PackInfo>)
    requires RanksAscend(ranks, ps)
    ensures RanksAscend(ranks, PlaceInfo(ranks, x, ps))
  {
    if ps != [] && !InfoBefore(ranks, x, ps[0]) {
      var t := PlaceInfo(ranks, x, ps[1..]);
      PlaceInfoAscends(ranks, x, ps[1..]);
      PlaceInfoContent(ranks, x, ps[1..]);
      forall j | 0 <= j < |t| ensures RankOf(ranks, ps[0].cls) <= RankOf(ranks, t[j].cls) {
        assert t[j] in t;
        if t[j] != x {
          var k :| 0 <= k < |ps[1..]| && ps[1..][k] == t[j];
          assert ps[k + 1] == t[j];
        }
      }
    }
  }

  lemma {:induction false} PrioritySorts(ranks: map<Bytes, nat>, ps: seq<PackInfo>)
    ensures RanksAscend(ranks, SortByPriority(ranks, ps)) && multiset(SortByPriority(ranks, ps)) == multiset(ps)
  {
    hide RankOf, PlaceInfo;
    if ps != [] {
      var init, x := ps[..|ps| - 1], ps[|ps| - 1];
      PrioritySorts(ranks, init);
      PlaceInfoAscends(ranks, x, SortByPriority(ranks, init));
      PlaceInfoContent(ranks, x, SortByPriority(ranks, init));
      assert ps == init + [x];
    }
  }

  /** A transfer cut after `n` packs that reached rank r has every pack of every lower rank. */
  lemma CutTransferHoldsLowerRanks(ranks: map<Bytes, nat>, ps: seq<PackInfo>, n: nat, p: PackInfo)
    requires 0 < n <= |SortByPriority(ranks, ps)| && p in ps
    requires RankOf(ranks, p.cls) < RankOf(ranks, SortByPriority(ranks, ps)[n - 1].cls)
    ensures p in SortByPriority(ranks, ps)[..n]
  {
    var sorted := SortByPriority(ranks, ps);
    PrioritySorts(ranks, ps);
    assert p in multiset(ps) && p in multiset(sorted);
    var i :| 0 <= i < |sorted| && sorted[i] == p;
    assert i < n;
    assert sorted[..n][i] == p;
  }

  /** The rank of each class as the priority loop hands them out. */
  function Ranks(cs: seq<AssetClass>): map<Bytes, nat> {
    if cs == [] then map[] else var m := Ranks(cs[..|cs| - 1]); m[cs[|cs| - 1].slug := |m|]
  }

  lemma {:induction false} RanksArePlaces(cs: seq<AssetClass>)
    requires DistinctSlugs(cs)
    ensures |Ranks(cs)| == |cs| && (forall s :: s in Ranks(cs) <==> HasSlug(cs, s))
    ensures forall i :: 0 <= i < |cs| ==> cs[i].slug in Ranks(cs) && Ranks(cs)[cs[i].slug] == i
  {
    if cs != [] {
      var n := |cs| - 1;
      var init, last := cs[..n], cs[n];
      RanksArePlaces(init);
      assert cs[..n + 1] == cs;
      forall s ensures HasSlug(cs, s) <==> HasSlug(init, s) || s == last.slug { SlugStep(cs, n, s); }
      FreshSlug(cs);
      var before := Ranks(init);
      assert Ranks(cs) == before[last.slug := |before|];
      hide HasSlug, Ranks, DistinctSlugs;
      MapGrows(before, last.slug, |before|);
      forall i | 0 <= i < |cs| ensures cs[i].slug in Ranks(cs) && Ranks(cs)[cs[i].slug] == i {
        if i < n { assert init[i] == cs[i] && before[init[i].slug] == i && HasSlug(init, init[i].slug); }
      }
    }
  }

  lemma MapGrows(m: map<Bytes, nat>, k: Bytes, v: nat)
    requires k !in m
    ensures |m[k := v]| == |m| + 1
  {
    assert m[k := v].Keys == m.Keys + {k};
  }

  lemma FreshSlug(cs: seq<AssetClass>)
    requires cs != [] && DistinctSlugs(cs)
    ensures !HasSlug(cs[..|cs| - 1], cs[|cs| - 1].slug)
  {
  }

  /**
   A transfer cut in class j, or in one nobody declared, has every pack of every class declared
   before: priority order is the order of the classes, with undeclared ones last.
   */
  lemma CutTransferHoldsEarlierClasses(cs: seq<AssetClass>, ps: seq<PackInfo>, n: nat, p: PackInfo, i: nat, j: nat)
    requires DistinctSlugs(cs) && 0 < n <= |SortByPriority(Ranks(cs), ps)| && p in ps
    requires i < |cs| && p.cls == cs[i].slug
    requires var cut := SortByPriority(Ranks(cs), ps)[n - 1];
      if j < |cs| then i < j && cut.cls == cs[j].slug else !HasSlug(cs, cut.cls)
    ensures p in SortByPriority(Ranks(cs), ps)[..n]
  {
    RanksArePlaces(cs);
    hide Ranks, SortByPriority;
    CutTransferHoldsLowerRanks(Ranks(cs), ps, n, p);
  }

  /** In the numbers themselves: of two packs of declared classes the one of the lower order is listed first. */
  lemma LowerOrderServedFirst(classes: seq<AssetClass>, ps: seq<PackInfo>, i: nat, j: nat, a: AssetClass, b: AssetClass)
    requires DistinctSlugs(classes) && i < j < |SortByPriority(Ranks(OrderedClasses(classes)), ps)|
    requires var sorted := SortByPriority(Ranks(OrderedClasses(classes)), ps);
      a in classes && b in classes && sorted[i].cls == a.slug && sorted[j].cls == b.slug
    ensures a.order <= b.order
  {
    var cs := OrderedClasses(classes);
    OrderedStayDistinct(classes);
    PrioritySorts(Ranks(cs), ps);
    hide SortByPriority, Ranks, OrderedClasses, DistinctSlugs, HasSlug;
    var x := PlaceOf(cs, a);
    var y := PlaceOf(cs, b);
    assert x <= y;
    if x < y { LowerOrderFirst(classes, x, y); }
  }

  /** Where a class stands in priority order, which is its rank. */
  lemma PlaceOf(cs: seq<AssetClass>, c: AssetClass) returns (x: nat)
    requires DistinctSlugs(cs) && c in cs
    ensures x < |cs| && cs[x] == c && RankOf(Ranks(cs), c.slug) == x
  {
    RanksArePlaces(cs);
    hide Ranks, DistinctSlugs, HasSlug;
    x :| 0 <= x < |cs| && cs[x] == c;
  }

  // ---- Building ---------------------------------------------------------

  function InfoOf(fp: Bytes -> Bytes, plan: PackPlan): PackInfo {
    var raw := PackIsRaw(plan);
    PackInfo(IdOf(fp, plan), plan.cls, WireSize(plan), plan.bytes, |plan.members|, raw,
             if raw then plan.members[0].path else [], if raw then plan.members[0].sha else [])
  }

  function InfosOf(fp: Bytes -> Bytes, plans: seq<PackPlan>): seq<PackInfo> {
    seq(|plans|, i requires 0 <= i < |plans| => InfoOf(fp, plans[i]))
  }

  function PlanMap(fp: Bytes -> Bytes, plans: seq<PackPlan>): map<Bytes, PackPlan> {
    if plans == [] then map[]
    else PlanMap(fp, plans[..|plans| - 1])[IdOf(fp, plans[|plans| - 1]) := plans[|plans| - 1]]
  }

  function Concat(per: seq<seq<PackPlan>>): seq<PackPlan> {
    if per == [] then [] else Concat(per[..|per| - 1]) + per[|per| - 1]
  }

  /** `rows` is an answer the class query may give. */
  ghost predicate Answers(files: FileTable, gen: nat, cls: Bytes, rows: seq<FileRow>) {
    SortedByPath(rows) && forall r :: r in rows <==> r in RowsAt(files, gen, cls)
  }

  /** `plans` are the packs of one class, planned from some answer of the query: 64 MiB or 20000 members each. */
  ghost predicate ClassPlans(files: FileTable, gen: nat, cls: Bytes, plans: seq<PackPlan>) {
    exists rows :: Answers(files, gen, cls, rows) && IsPlanOf(plans, cls, rows, 67108864, 20000)
  }

  ghost predicate AllClassPlans(files: FileTable, gen: nat, cs: seq<AssetClass>, per: seq<seq<PackPlan>>) {
    |per| == |cs| && forall i :: 0 <= i < |cs| ==> ClassPlans(files, gen, cs[i].slug, per[i])
  }

  function Assembled(fp: Bytes -> Bytes, cs: seq<AssetClass>, gen: nat, meta: Generation,
                     plans: seq<PackPlan>): GenPlans {
    GenPlans(PlanMap(fp, plans), Manifest(gen, meta.files, meta.bytes, SortByPriority(Ranks(cs), InfosOf(fp, plans))))
  }

  /** What plansFor builds when nothing is remembered. */
  ghost predicate IsBuild(fp: Bytes -> Bytes, cs: seq<AssetClass>, gens: map<nat, Generation>, files: FileTable,
                          gen: nat, g: GenPlans) {
    gen in gens && exists per ::
      AllClassPlans(files, gen, cs, per) && g == Assembled(fp, cs, gen, gens[gen], Concat(per))
  }

  /** `failed` says that a query failed; an unknown generation is an answer. */
  method BuildPlans(st: InventoryStore, fp: Bytes -> Bytes, classes: seq<AssetClass>, gen: nat)
    returns (g: Option<GenPlans>, failed: bool)
    ensures g.Some? ==> IsBuild(fp, OrderedClasses(classes), st.generations, st.files, gen, g.value)
    ensures g.Some? <==> !failed && gen in st.generations
  {
    hide RowsAt, IsPlanOf, InfosOf, PlanMap, SortByPriority, SortedByPath, AllClassPlans, Ranks, Concat, OrderedClasses;
    failed := *;
    if failed || gen !in st.generations {
      return None, failed;
    }
    NoPacks(fp);
    var meta := st.generations[gen];
    var cs := OrderedClasses(classes);
    var plans: map<Bytes, PackPlan> := map[];
    var infos: seq<PackInfo> := [];
    var ranks: map<Bytes, nat> := map[];
    ghost var per: seq<seq<PackPlan>> := [];
    NoClassYet(st.files, gen, cs);
    for i := 0 to |cs|
      invariant !failed && AllClassPlans(st.files, gen, cs[..i], per)
      invariant ranks == Ranks(cs[..i]) && plans == PlanMap(fp, Concat(per)) && infos == InfosOf(fp, Concat(per))
    {
      var c := cs[i];
      ranks := ranks[c.slug := |ranks|];
      failed := *;
      if failed {
        return None, true;
      }
      var rows := st.FilesForGen(gen, c.slug);
      var packs := PlanPacks(c.slug, rows, PACK_TARGET_BYTES, PACK_MAX_MEMBERS);
      assert ClassPlans(st.files, gen, c.slug, packs);
      plans, infos := AddPacks(fp, packs, plans, infos, Concat(per));
      OneMoreClass(st.files, gen, cs, i, per, packs);
      per := per + [packs];
    }
    assert cs[..|cs|] == cs;
    var man := Manifest(gen, meta.files, meta.bytes, SortByPriority(ranks, infos));
    g := Some(GenPlans(plans, man));
  }

  lemma NoClassYet(files: FileTable, gen: nat, cs: seq<AssetClass>)
    ensures AllClassPlans(files, gen, cs[..0], []) && Ranks(cs[..0]) == map[] && Concat([]) == []
  {
  }

  lemma OneMoreClass(files: FileTable, gen: nat, cs: seq<AssetClass>, i: nat, per: seq<seq<PackPlan>>,
                     packs: seq<PackPlan>)
    requires i < |cs| && AllClassPlans(files, gen, cs[..i], per) && ClassPlans(files, gen, cs[i].slug, packs)
    ensures AllClassPlans(files, gen, cs[..i + 1], per + [packs]) && Concat(per + [packs]) == Concat(per) + packs
    ensures Ranks(cs[..i + 1]) == Ranks(cs[..i])[cs[i].slug := |Ranks(cs[..i])|]
  {
    hide ClassPlans;
    assert cs[..i + 1][..i] == cs[..i] && (per + [packs])[..|per|] == per;
  }

  lemma NoPacks(fp: Bytes -> Bytes)
    ensures PlanMap(fp, []) == map[] && InfosOf(fp, []) == []
  {
  }

  lemma OneMorePack(fp: Bytes -> Bytes, plans: seq<PackPlan>, plan: PackPlan)
    ensures PlanMap(fp, plans + [plan]) == PlanMap(fp, plans)[IdOf(fp, plan) := plan]
    ensures InfosOf(fp, plans + [plan]) == InfosOf(fp, plans) + [InfoOf(fp, plan)]
  {
    assert (plans + [plan])[..|plans|] == plans;
  }

  /** The inner loop of plansFor: one class's packs into the map and the manifest. */
  method AddPacks(fp: Bytes -> Bytes, packs: seq<PackPlan>, plans: map<Bytes, PackPlan>, infos: seq<PackInfo>,
                  ghost before: seq<PackPlan>)
    returns (plans': map<Bytes, PackPlan>, infos': seq<PackInfo>)
    requires plans == PlanMap(fp, before) && infos == InfosOf(fp, before)
    ensures plans' == PlanMap(fp, before + packs) && infos' == InfosOf(fp, before + packs)
  {
    hide PlanMap, InfosOf, WireSize, Preimage;
    plans', infos' := plans, infos;
    assert before + [] == before;
    for i := 0 to |packs|
      invariant plans' == PlanMap(fp, before + packs[..i]) && infos' == InfosOf(fp, before + packs[..i])
    {
      var plan := packs[i];
      assert before + packs[..i + 1] == before + packs[..i] + [plan];
      OneMorePack(fp, before + packs[..i], plan);
      var id := PackId(fp, plan);
      plans' := plans'[id := plan];
      var wire := PackWireSize(plan);
      var info := PackInfo(id, plan.cls, wire, plan.bytes, |plan.members|, false, [], []);
      if PackIsRaw(plan) {
        info := info.(raw := true, path := plan.members[0].path, sha := plan.members[0].sha);
      }
      infos' := infos' + [info];
    }
    assert packs[..|packs|] == packs;
  }

  /** The manifest names exactly the packs that can be asked for. */
  ghost predicate NamesItsPlans(g: GenPlans) {
    && (forall x :: x in g.man.packs ==> x.id in g.plans)
    && (forall id :: id in g.plans ==> exists x :: x in g.man.packs && x.id == id)
  }

  lemma {:induction false} PlanMapKeys(fp: Bytes -> Bytes, plans: seq<PackPlan>)
    ensures forall id :: id in PlanMap(fp, plans) <==> exists x :: x in InfosOf(fp, plans) && x.id == id
  {
    hide IdOf, WireSize;
    if plans != [] {
      var init, last := plans[..|plans| - 1], plans[|plans| - 1];
      PlanMapKeys(fp, init);
      assert plans == init + [last];
      OneMorePack(fp, init, last);
      forall id ensures id in PlanMap(fp, plans) <==> exists x :: x in InfosOf(fp, plans) && x.id == id {
        if id in PlanMap(fp, init) {
          var x :| x in InfosOf(fp, init) && x.id == id;
          assert x in InfosOf(fp, plans);
        }
        if id == IdOf(fp, last) { assert InfoOf(fp, last) in InfosOf(fp, plans); }
      }
    }
  }

  lemma {:induction false} AssembledNamesItsPlans(fp: Bytes -> Bytes, cs: seq<AssetClass>, gen: nat, meta: Generation,
                                                  plans: seq<PackPlan>)
    ensures NamesItsPlans(Assembled(fp, cs, gen, meta, plans))
  {
    hide PlanMap, InfosOf, SortByPriority, Ranks;
    var g := Assembled(fp, cs, gen, meta, plans);
    PlanMapKeys(fp, plans);
    PrioritySorts(Ranks(cs), InfosOf(fp, plans));
    forall x ensures x in g.man.packs <==> x in InfosOf(fp, plans) {
      assert x in multiset(g.man.packs) <==> x in multiset(InfosOf(fp, plans));
    }
  }

  /** A build bears the number and the sealed totals of the generation it was asked for. */
  lemma BuildBearsItsGeneration(fp: Bytes -> Bytes, cs: seq<AssetClass>, gens: map<nat, Generation>, files: FileTable,
                                gen: nat, g: GenPlans)
    requires IsBuild(fp, cs, gens, files, gen, g)
    ensures gen in gens && g.man.generation == gen
    ensures g.man.files == gens[gen].files && g.man.bytes == gens[gen].bytes
  {
    hide AllClassPlans, Ranks, SortByPriority, InfosOf, PlanMap, Concat;
  }

  lemma BuildNamesItsPlans(fp: Bytes -> Bytes, cs: seq<AssetClass>, gens: map<nat, Generation>, files: FileTable,
                           gen: nat, g: GenPlans)
    requires IsBuild(fp, cs, gens, files, gen, g)
    ensures NamesItsPlans(g)
  {
    var per :| AllClassPlans(files, gen, cs, per) && g == Assembled(fp, cs, gen, gens[gen], Concat(per));
    AssembledNamesItsPlans(fp, cs, gen, gens[gen], Concat(per));
  }

  // ---- When a rebuild must agree ----------------------------------------

  ghost predicate OneRowEach(rows: set<FileRow>) {
    forall x, y :: x in rows && y in rows && x.path == y.path ==> x == y
  }

  /** No class of the generation holds two rows of one path. */
  ghost predicate OneRowPerPath(files: FileTable, gen: nat, cs: seq<AssetClass>) {
    forall i :: 0 <= i < |cs| ==> OneRowEach(RowsAt(files, gen, cs[i].slug))
  }

  /** The class query answers the same for every class. */
  ghost predicate SameAnswers(a: FileTable, b: FileTable, gen: nat, cs: seq<AssetClass>) {
    forall i :: 0 <= i < |cs| ==> RowsAt(a, gen, cs[i].slug) == RowsAt(b, gen, cs[i].slug)
  }

  /** A rebuild is the same build as long as the generation's answers are the same and no path repeats. */
  lemma RebuildAgrees(fp: Bytes -> Bytes, cs: seq<AssetClass>, gens: map<nat, Generation>, files: FileTable,
                      gens': map<nat, Generation>, files': FileTable, gen: nat, g: GenPlans, g': GenPlans)
    requires IsBuild(fp, cs, gens, files, gen, g) && IsBuild(fp, cs, gens', files', gen, g')
    requires gens'[gen] == gens[gen] && SameAnswers(files, files', gen, cs) && OneRowPerPath(files, gen, cs)
    ensures g' == g
  {
    var per :| AllClassPlans(files, gen, cs, per) && g == Assembled(fp, cs, gen, gens[gen], Concat(per));
    var per' :| AllClassPlans(files', gen, cs, per') && g' == Assembled(fp, cs, gen, gens[gen], Concat(per'));
    hide Assembled, IsBuild, ClassPlans;
    forall i | 0 <= i < |cs| ensures per[i] == per'[i] {
      ClassPlansAgree(files, files', gen, cs[i].slug, per[i], per'[i]);
    }
    assert per == per';
  }

  lemma ClassPlansAgree(files: FileTable, files': FileTable, gen: nat, cls: Bytes, p: seq<PackPlan>, q: seq<PackPlan>)
    requires ClassPlans(files, gen, cls, p) && ClassPlans(files', gen, cls, q)
    requires RowsAt(files, gen, cls) == RowsAt(files', gen, cls)
    requires forall x, y :: x in RowsAt(files, gen, cls) && y in RowsAt(files, gen, cls) && x.path == y.path ==> x == y
    ensures p == q
  {
    hide RowsAt, IsPlanOf;
    var a :| Answers(files, gen, cls, a) && IsPlanOf(p, cls, a, PACK_TARGET_BYTES, PACK_MAX_MEMBERS);
    var b :| Answers(files', gen, cls, b) && IsPlanOf(q, cls, b, PACK_TARGET_BYTES, PACK_MAX_MEMBERS);
    SameRowsSamePlans(p, q, cls, a, b, PACK_TARGET_BYTES, PACK_MAX_MEMBERS);
  }

  /** The same build counts as a build against any later state that answers the same. */
  lemma BuildOutlivesPasses(fp: Bytes -> Bytes, cs: seq<AssetClass>, gens: map<nat, Generation>, files: FileTable,
                            gens': map<nat, Generation>, files': FileTable, gen: nat, g: GenPlans)
    requires IsBuild(fp, cs, gens, files, gen, g)
    requires gen in gens' && gens'[gen] == gens[gen] && SameAnswers(files, files', gen, cs)
    ensures IsBuild(fp, cs, gens', files', gen, g)
  {
    var per :| AllClassPlans(files, gen, cs, per) && g == Assembled(fp, cs, gen, gens[gen], Concat(per));
    forall i | 0 <= i < |cs| ensures ClassPlans(files', gen, cs[i].slug, per[i]) {
      assert ClassPlans(files, gen, cs[i].slug, per[i]);
      var rows :| Answers(files, gen, cs[i].slug, rows) &&
          IsPlanOf(per[i], cs[i].slug, rows, PACK_TARGET_BYTES, PACK_MAX_MEMBERS);
      assert Answers(files', gen, cs[i].slug, rows);
    }
    assert AllClassPlans(files', gen, cs, per);
  }

  // ---- The cache --------------------------------------------------------

  const KEPT_GENERATIONS := 2

  datatype CacheState = CacheState(byGen: map<nat, GenPlans>, order: seq<nat>)

  ghost predicate CacheOk(c: CacheState) {
    && (forall i, j :: 0 <= i < j < |c.order| ==> c.order[i] != c.order[j])
    && (forall g :: g in c.byGen <==> g in c.order)
    && |c.order| <= KEPT_GENERATIONS
  }

  /** Adds a build, forgetting the oldest when there is no room for it. */
  function Remembered(c: CacheState, gen: nat, g: GenPlans): CacheState {
    var order := c.order + [gen];
    if |order| > KEPT_GENERATIONS then CacheState(c.byGen[gen := g] - {order[0]}, order[1..])
    else CacheState(c.byGen[gen := g], order)
  }

  lemma RememberedOk(c: CacheState, gen: nat, g: GenPlans)
    requires CacheOk(c) && gen !in c.byGen
    ensures CacheOk(Remembered(c, gen, g))
    ensures forall h :: h in Remembered(c, gen, g).byGen ==>
      Remembered(c, gen, g).byGen[h] == if h == gen then g else if h in c.byGen then c.byGen[h] else g
  {
    var order, c' := c.order + [gen], Remembered(c, gen, g);
    assert forall i :: 0 <= i < |c.order| ==> c.order[i] in c.order;
    if |order| > KEPT_GENERATIONS {
      assert order == [order[0]] + order[1..];
      assert order[0] !in order[1..];
    }
    forall h ensures h in c'.byGen <==> h in c'.order {
      assert h in order <==> h in c.order || h == gen;
    }
  }

  /** The two generations built last are both remembered, so serving one does not push out the other. */
  lemma LastTwoRemembered(c: CacheState, gen: nat, g: GenPlans, one: CacheState, gen': nat, g': GenPlans,
                          two: CacheState)
    requires CacheOk(c) && gen !in c.byGen && one == Remembered(c, gen, g)
    requires gen' !in one.byGen && two == Remembered(one, gen', g')
    ensures forall x :: x in two.byGen <==> x == gen || x == gen'
    ensures two.byGen[gen] == g && two.byGen[gen'] == g'
  {
    hide Remembered;
    RememberedOk(c, gen, g);
    RememberedOk(one, gen', g');
    LastIn(c, gen, g);
    LastIn(one, gen', g');
    assert two.order == [gen, gen'];
    assert gen in one.order;
    assert forall x :: x in [gen, gen'] <==> x == gen || x == gen';
  }

  lemma LastIn(c: CacheState, gen: nat, g: GenPlans)
    requires |c.order| <= 2
    ensures var after := Remembered(c, gen, g).order;
      after == match |c.order| case 0 => [gen] case 1 => [c.order[0], gen] case _ => [c.order[1], gen]
  {
  }

  ghost predicate IsNewestSealed(gens: map<nat, Generation>, gen: nat) {
    gen in gens && gens[gen].sealed && forall h :: h in gens && gens[h].sealed ==> h <= gen
  }

  predicate AnySealed(gens: map<nat, Generation>) { exists g :: g in gens && gens[g].sealed }

  class PackCache {
    var byGen: map<nat, GenPlans>
    var order: seq<nat>

    constructor ()
      ensures State() == CacheState(map[], [])
    {
      byGen, order := map[], [];
    }

    function State(): CacheState
      reads this
    {
      CacheState(byGen, order)
    }

    /** A remembered generation is answered from memory; any other is built now and remembered. */
    method PlansFor(st: InventoryStore, fp: Bytes -> Bytes, classes: seq<AssetClass>, gen: nat)
      returns (g: Option<GenPlans>, failed: bool)
      requires CacheOk(State())
      modifies this
      ensures CacheOk(State())
      ensures g.Some? <==> gen in old(byGen) || (!failed && gen in st.generations)
      ensures
        if gen in old(byGen) then g == Some(old(byGen)[gen]) && !failed && State() == old(State())
        else if g.None? then State() == old(State())
        else IsBuild(fp, OrderedClasses(classes), st.generations, st.files, gen, g.value)
             && State() == Remembered(old(State()), gen, g.value)
    {
      if gen in byGen {
        return Some(byGen[gen]), false;
      }
      g, failed := BuildPlans(st, fp, classes, gen);
      if g.None? {
        return;
      }
      RememberedOk(State(), gen, g.value);
      ghost var before := State();
      byGen := byGen[gen := g.value];
      order := order + [gen];
      while |order| > KEPT_GENERATIONS
        invariant State() ==
          if |order| > KEPT_GENERATIONS then CacheState(before.byGen[gen := g.value], before.order + [gen])
          else Remembered(before, gen, g.value)
      {
        byGen := byGen - {order[0]};
        order := order[1..];
      }
    }

    /** The newest sealed generation's manifest: without a failing query, whenever there is one. */
    method BuildManifest(st: InventoryStore, fp: Bytes -> Bytes, classes: seq<AssetClass>)
      returns (man: Option<Manifest>, failed: bool, ghost g: Option<GenPlans>, ghost newest: nat)
      requires CacheOk(State()) && st.Valid()
      modifies this
      ensures CacheOk(State())
      ensures man.Some? <==> g.Some?
      ensures g.Some? ==> IsNewestSealed(st.generations, newest) && man.value == g.value.man
      ensures !failed ==> (man.Some? <==> AnySealed(st.generations))
      ensures g.Some? ==>
        if newest in old(byGen) then g.value == old(byGen)[newest]
        else IsBuild(fp, OrderedClasses(classes), st.generations, st.files, newest, g.value)
    {
      man, g, newest := None, None, 0;
      failed := *;
      if failed {
        return;
      }
      var gen := st.LastSealedGeneration();
      if gen == 0 {
        return;
      }
      newest := gen;
      var found;
      found, failed := PlansFor(st, fp, classes, gen);
      if found.None? {
        return;
      }
      g := found;
      man := Some(found.value.man);
    }

    /** Streams the pack named `id` of a pinned generation, or of the newest sealed one for 0. */
    method StreamPack(st: InventoryStore, d: Digests, fp: Bytes -> Bytes, files: Files, classes: seq<AssetClass>,
                      sink: Sink,
                      gen: nat, id: Bytes, skip: int)
      returns (r: Option<StreamResult>, failed: bool, ghost g: Option<GenPlans>, ghost pinned: nat)
      requires CacheOk(State()) && st.Valid()
      modifies this, sink
      ensures CacheOk(State())
      ensures !failed ==>
        if gen != 0 then pinned == gen
        else if AnySealed(st.generations) then IsNewestSealed(st.generations, pinned) else pinned == 0
      ensures !failed ==> (g.Some? <==> pinned in old(byGen) || pinned in st.generations)
      ensures g.Some? ==>
        if pinned in old(byGen) then g.value == old(byGen)[pinned]
        else IsBuild(fp, OrderedClasses(classes), st.generations, st.files, pinned, g.value)
      ensures r.Some? <==> g.Some? && id in g.value.plans
      ensures r.None? ==> sink.received == old(sink.received)
      ensures r.Some? ==>
        var plan := g.value.plans[id];
        var stream := Stream(d, files, plan);
        if skip < 0 then r.value == NegativeOffset && sink.received == old(sink.received)
        else if skip >= WireSize(plan) then r.value == OffsetPastEnd && sink.received == old(sink.received)
        else
          && r.value == Attempted(Answer(d, files, plan, |Drop(stream, skip)| <= old(sink.budget)))
          && sink.received == old(sink.received) + Take(Drop(stream, skip), old(sink.budget))
    {
      r, g, pinned := None, None, gen;
      var wanted := gen;
      failed := false;
      if gen == 0 {
        failed := *;
        if failed {
          return;
        }
        wanted := st.LastSealedGeneration();
        pinned := wanted;
      }
      var found;
      found, failed := PlansFor(st, fp, classes, wanted);
      g := found;
      if found.None? || id !in found.value.plans {
        return;
      }
      var res := StreamPlan(sink, d, files, found.value.plans[id], skip);
      r := Some(res);
    }
  }

  // ---- Transparency over histories --------------------------------------

  /** One request: the tables as they stood, the generation asked for, the answer given. */
  datatype Request = Request(gens: map<nat, Generation>, files: FileTable, gen: nat, reply: GenPlans)

  /** What PlansFor does with one request. */
  ghost predicate Serves(fp: Bytes -> Bytes, cs: seq<AssetClass>, c: CacheState, r: Request, c': CacheState) {
    if r.gen in c.byGen then r.reply == c.byGen[r.gen] && c' == c
    else IsBuild(fp, cs, r.gens, r.files, r.gen, r.reply) && c' == Remembered(c, r.gen, r.reply)
  }

  ghost predicate IsService(fp: Bytes -> Bytes, cs: seq<AssetClass>, caches: seq<CacheState>, rs: seq<Request>) {
    && |caches| == |rs| + 1 && caches[0] == CacheState(map[], [])
    && forall i :: 0 <= i < |rs| ==> Serves(fp, cs, caches[i], rs[i], caches[i + 1])
  }

  /** Between two requests nothing changed what a requested generation answers. */
  ghost predicate GenerationsStable(cs: seq<AssetClass>, rs: seq<Request>) {
    forall i, j :: 0 <= i <= j < |rs| ==> AnswersStill(cs, rs[i], rs[j])
  }

  ghost predicate AnswersStill(cs: seq<AssetClass>, a: Request, b: Request) {
    && a.gen in a.gens && a.gen in b.gens && b.gens[a.gen] == a.gens[a.gen]
    && SameAnswers(a.files, b.files, a.gen, cs)
  }

  /** Everything a cache holds was the answer to one of the first `n` requests. */
  ghost predicate HoldsAnswers(rs: seq<Request>, n: nat, c: CacheState)
    requires n <= |rs|
  {
    forall g :: g in c.byGen ==> exists i :: 0 <= i < n && rs[i].gen == g && rs[i].reply == c.byGen[g]
  }

  ghost predicate RepliedTruly(fp: Bytes -> Bytes, cs: seq<AssetClass>, r: Request) {
    IsBuild(fp, cs, r.gens, r.files, r.gen, r.reply)
  }

  lemma ServeOne(fp: Bytes -> Bytes, cs: seq<AssetClass>, c: CacheState, rs: seq<Request>, n: nat, c': CacheState)
    requires n < |rs| && Serves(fp, cs, c, rs[n], c') && GenerationsStable(cs, rs)
    requires CacheOk(c) && HoldsAnswers(rs, n, c) && forall i :: 0 <= i < n ==> RepliedTruly(fp, cs, rs[i])
    ensures CacheOk(c') && HoldsAnswers(rs, n + 1, c') && RepliedTruly(fp, cs, rs[n])
  {
    hide IsBuild, SameAnswers;
    var r := rs[n];
    if r.gen in c.byGen {
      var i :| 0 <= i < n && rs[i].gen == r.gen && rs[i].reply == c.byGen[r.gen];
      assert RepliedTruly(fp, cs, rs[i]) && AnswersStill(cs, rs[i], rs[n]);
      BuildOutlivesPasses(fp, cs, rs[i].gens, rs[i].files, r.gens, r.files, r.gen, r.reply);
    } else {
      RememberedOk(c, r.gen, r.reply);
      forall g | g in c'.byGen ensures exists i :: 0 <= i < n + 1 && rs[i].gen == g && rs[i].reply == c'.byGen[g] {
        if g == r.gen { assert rs[n].gen == g; }
      }
    }
  }

  /** The cache is invisible: every answer ever given is what building from the tables at that moment would give. */
  lemma {:induction false} CacheIsTransparent(fp: Bytes -> Bytes, cs: seq<AssetClass>, caches: seq<CacheState>,
                                              rs: seq<Request>, n: nat)
    requires IsService(fp, cs, caches, rs) && GenerationsStable(cs, rs) && n <= |rs|
    ensures CacheOk(caches[n]) && HoldsAnswers(rs, n, caches[n])
    ensures forall i :: 0 <= i < n ==> RepliedTruly(fp, cs, rs[i])
  {
    hide IsBuild, GenerationsStable, Serves;
    if n > 0 {
      CacheIsTransparent(fp, cs, caches, rs, n - 1);
      assert Serves(fp, cs, caches[n - 1], rs[n - 1], caches[n - 1 + 1]);
      ServeOne(fp, cs, caches[n - 1], rs, n - 1, caches[n]);
    }
  }

  /** A manifest stays good for as long as its generation is stable: every later answer is the same, evicted or not. */
  lemma PinnedManifestStaysServable(fp: Bytes -> Bytes, cs: seq<AssetClass>, caches: seq<CacheState>, rs: seq<Request>,
                                    i: nat, j: nat)
    requires IsService(fp, cs, caches, rs) && GenerationsStable(cs, rs)
    requires i <= j < |rs| && rs[i].gen == rs[j].gen && OneRowPerPath(rs[i].files, rs[i].gen, cs)
    ensures rs[j].reply == rs[i].reply
    ensures forall x :: x in rs[i].reply.man.packs ==>
      x.id in rs[j].reply.plans && x.id in rs[i].reply.plans && rs[j].reply.plans[x.id] == rs[i].reply.plans[x.id]
  {
    CacheIsTransparent(fp, cs, caches, rs, |rs|);
    assert AnswersStill(cs, rs[i], rs[j]) && RepliedTruly(fp, cs, rs[i]) && RepliedTruly(fp, cs, rs[j]);
    BuildNamesItsPlans(fp, cs, rs[i].gens, rs[i].files, rs[i].gen, rs[i].reply);
    RebuildAgrees(fp, cs, rs[i].gens, rs[i].files, rs[j].gens, rs[j].files, rs[i].gen, rs[i].reply, rs[j].reply);
  }
}
