/**
 End to end: what a puller can restore from the manifest of a freshly sealed generation.
 */
module Recovery {
  import opened Basics
  import opened Zip
  import opened Planner
  import opened PackIdentity
  import opened PackWriter
  import opened Transfer
  import opened Inventory
  import opened Classes
  import opened FileCheck
  import opened IndexPass
  import opened Snapshots
  import opened StatGate
  import opened ManifestCache
  import opened RowOrder

  /** The files a pack writer can open. */
  ghost function Readable(w: World): Files { map p | p in w.disk && w.disk[p].readable :: w.disk[p].content }

  /** The digests of the writer agree with the hasher of the index. */
  ghost predicate SameHash(d: Digests, h: Hasher) { forall b :: d.shaOf(b) == h.shaOf(b) }

  /** The members in one pack of this plan. */
  function Restore(d: Digests, plan: PackPlan, stream: Bytes): seq<Entry> {
    if PackIsRaw(plan) then
      if d.shaOf(stream) == plan.members[0].sha then [Entry(plan.members[0].path, stream)] else []
    else
      match ReadArchive(d.crcOf, stream)
      case None => []
      case Some(es) => es
  }

  /**
   What a client recovers from one transfer with nothing but the manifest entry to go by: it stops
   at the advertised length, names a raw pack by the entry's path and checks it against its hash,
   and opens any other as an archive.
   */
  function RestoreBy(d: Digests, x: PackInfo, stream: Bytes): seq<Entry> {
    var got := Take(stream, x.bytes);
    if |got| < x.bytes then []
    else if x.raw then if d.shaOf(got) == x.sha then [Entry(x.path, got)] else []
    else
      match ReadArchive(d.crcOf, got)
      case None => []
      case Some(es) => es
  }

  /** The row is true, its file can be opened, and its size is its length. */
  ghost predicate Servable(h: Hasher, w: World, r: IndexedRow) {
    && Truthful(h, w, r) && w.disk[r.path].readable
    && w.disk[r.path].stat.size == |w.disk[r.path].content| && |r.path| <= MAX_U16
  }

  ghost predicate AllServable(h: Hasher, w: World, rows: seq<IndexedRow>) {
    forall i :: 0 <= i < |rows| ==> Servable(h, w, rows[i])
  }

  /** `m` is the plan's entry for a servable row. */
  ghost predicate Backs(h: Hasher, w: World, rows: seq<IndexedRow>, m: PackMember) {
    exists i :: 0 <= i < |rows| && Servable(h, w, rows[i]) && m == MemberOf(RowOf(rows[i]))
  }

  /** `cat` lists one row for every recorded row of a class, and no other. */
  ghost predicate Lists(cat: seq<FileRow>, rows: seq<IndexedRow>, cls: Bytes) {
    forall x :: x in cat <==> exists i :: 0 <= i < |rows| && rows[i].cls == cls && x == RowOf(rows[i])
  }

  lemma BackedMemberIsGood(d: Digests, h: Hasher, w: World, rows: seq<IndexedRow>, m: PackMember)
    requires SameHash(d, h) && Backs(h, w, rows, m)
    ensures d.shaOf(ContentOf(Readable(w), m.path)) == m.sha
    ensures MemberRefusal(d, Readable(w), m) == None && |m.path| <= MAX_U16
    ensures m.path in w.disk && ContentOf(Readable(w), m.path) == w.disk[m.path].content
  {
    var i :| 0 <= i < |rows| && Servable(h, w, rows[i]) && m == MemberOf(RowOf(rows[i]));
  }

  lemma {:induction false} AllMembersGood(d: Digests, files: Files, ms: seq<PackMember>)
    requires forall i :: 0 <= i < |ms| ==> MemberRefusal(d, files, ms[i]) == None
    ensures GoodMembers(d, files, ms) == |ms|
  {
  }

  /** A pack of servable rows restores exactly its members' contents, unless it lies in the 32-bit gap. */
  lemma PackRestores(d: Digests, h: Hasher, w: World, rows: seq<IndexedRow>, plan: PackPlan)
    requires SameHash(d, h) && forall i :: 0 <= i < |plan.members| ==> Backs(h, w, rows, plan.members[i])
    requires WithinLimits(plan.members, PACK_TARGET_BYTES, PACK_MAX_MEMBERS) && plan.bytes == Total(plan.members)
    requires !InGap(plan)
    ensures Refusal(d, Readable(w), plan) == None
    ensures Restore(d, plan, Stream(d, Readable(w), plan)) == EntriesOf(Readable(w), plan.members)
  {
    hide ReadArchive, Readable;
    var files := Readable(w);
    forall i | 0 <= i < |plan.members|
      ensures MemberRefusal(d, files, plan.members[i]) == None && |plan.members[i].path| <= MAX_U16
    {
      BackedMemberIsGood(d, h, w, rows, plan.members[i]);
    }
    AllMembersGood(d, files, plan.members);
    ExactFrontier(d, files, plan);
    if PackIsRaw(plan) {
      RawPackIsTheFile(d, files, plan);
      BackedMemberIsGood(d, h, w, rows, plan.members[0]);
      assert ContentOf(files, plan.members[0].path) == files[plan.members[0].path];
    } else {
      ServedPackReadsBack(d, files, plan);
    }
  }

  // ---- One class --------------------------------------------------------

  /** An answer without repeated paths is planned whole. */
  lemma PlannedWhole(plans: seq<PackPlan>, cls: Bytes, answer: seq<FileRow>, rows: seq<IndexedRow>)
    returns (cat: seq<FileRow>)
    requires IsPlanOf(plans, cls, answer, PACK_TARGET_BYTES, PACK_MAX_MEMBERS)
    requires DistinctRowPaths(rows) && Lists(answer, rows, cls)
    ensures StrictlySorted(cat) && Lists(cat, rows, cls)
    ensures IsPlanOfRows(plans, cls, cat, PACK_TARGET_BYTES, PACK_MAX_MEMBERS)
  {
    cat :| IsCatalogue(cat, answer) && IsPlanOfRows(plans, cls, cat, PACK_TARGET_BYTES, PACK_MAX_MEMBERS);
    assert forall x, y :: x in answer && y in answer && x.path == y.path ==> x == y;
    FirstsAreAll(answer);
  }

  ghost predicate RestoredFrom(d: Digests, files: Files, plans: seq<PackPlan>, e: Entry) {
    exists i :: 0 <= i < |plans| && e in Restore(d, plans[i], Stream(d, files, plans[i]))
  }

  /** `e` is the file at `path` as it is on disk. */
  ghost predicate IsFile(w: World, path: Bytes, e: Entry) { path in w.disk && e == Entry(path, w.disk[path].content) }

  /** `e` is a recorded file of class `cls` with its content on disk. */
  ghost predicate IsOnDisk(w: World, rows: seq<IndexedRow>, cls: Bytes, e: Entry) {
    exists k :: 0 <= k < |rows| && rows[k].cls == cls && IsFile(w, rows[k].path, e)
  }

  lemma PlannedMember(plans: seq<PackPlan>, cls: Bytes, cat: seq<FileRow>, i: nat, j: nat) returns (t: nat)
    requires IsPlanOfRows(plans, cls, cat, PACK_TARGET_BYTES, PACK_MAX_MEMBERS) && i < |plans| && j < |plans[i].members|
    ensures t < |cat| && plans[i].members[j] == MemberOf(cat[t])
  {
    var gs := GroupsOf(plans);
    var n := GroupStart(gs, i);
    t := n + j;
    assert plans[i].members[j] == Flatten(gs)[n..n + |gs[i]|][j] == MembersOf(cat)[t];
  }

  lemma ListedMemberIsBacked(h: Hasher, w: World, rows: seq<IndexedRow>, cls: Bytes, plans: seq<PackPlan>,
                             cat: seq<FileRow>, i: nat)
    requires AllServable(h, w, rows) && Lists(cat, rows, cls)
    requires IsPlanOfRows(plans, cls, cat, PACK_TARGET_BYTES, PACK_MAX_MEMBERS) && i < |plans|
    ensures forall j :: 0 <= j < |plans[i].members| ==>
      (Backs(h, w, rows, plans[i].members[j])
       && IsOnDisk(w, rows, cls, Entry(plans[i].members[j].path, ContentOf(Readable(w), plans[i].members[j].path))))
  {
    forall j | 0 <= j < |plans[i].members|
      ensures Backs(h, w, rows, plans[i].members[j])
      ensures IsOnDisk(w, rows, cls, Entry(plans[i].members[j].path, ContentOf(Readable(w), plans[i].members[j].path)))
    {
      var t := PlannedMember(plans, cls, cat, i, j);
      assert cat[t] in cat;
      var k :| 0 <= k < |rows| && rows[k].cls == cls && cat[t] == RowOf(rows[k]);
      assert Servable(h, w, rows[k]);
    }
  }

  lemma PlanWithin(plans: seq<PackPlan>, cls: Bytes, cat: seq<FileRow>, i: nat)
    requires IsPlanOfRows(plans, cls, cat, PACK_TARGET_BYTES, PACK_MAX_MEMBERS) && i < |plans|
    ensures WithinLimits(plans[i].members, PACK_TARGET_BYTES, PACK_MAX_MEMBERS)
    ensures plans[i].bytes == Total(plans[i].members)
  {
    assert GroupsOf(plans)[i] == plans[i].members;
  }

  /** The packs of one class restore exactly the class's recorded files. */
  lemma ClassRestores(d: Digests, h: Hasher, w: World, rows: seq<IndexedRow>, cls: Bytes, answer: seq<FileRow>,
                      plans: seq<PackPlan>)
    requires SameHash(d, h) && AllServable(h, w, rows) && DistinctRowPaths(rows) && Lists(answer, rows, cls)
    requires IsPlanOf(plans, cls, answer, PACK_TARGET_BYTES, PACK_MAX_MEMBERS)
    requires forall i :: 0 <= i < |plans| ==> !InGap(plans[i])
    ensures forall i :: 0 <= i < |plans| ==> Refusal(d, Readable(w), plans[i]) == None
    ensures forall e :: RestoredFrom(d, Readable(w), plans, e) <==> IsOnDisk(w, rows, cls, e)
  {
    hide IsPlanOf, Refusal, Restore, Stream, Servable, InGap, Readable;
    var cat := PlannedWhole(plans, cls, answer, rows);
    var files := Readable(w);
    forall i | 0 <= i < |plans| ensures Refusal(d, files, plans[i]) == None
      && Restore(d, plans[i], Stream(d, files, plans[i])) == EntriesOf(files, plans[i].members) {
      ListedMemberIsBacked(h, w, rows, cls, plans, cat, i);
      PlanWithin(plans, cls, cat, i);
      PackRestores(d, h, w, rows, plans[i]);
    }
    forall e ensures RestoredFrom(d, files, plans, e) <==> IsOnDisk(w, rows, cls, e) {
      if RestoredFrom(d, files, plans, e) {
        var i :| 0 <= i < |plans| && e in EntriesOf(files, plans[i].members);
        ListedMemberIsBacked(h, w, rows, cls, plans, cat, i);
      }
      if IsOnDisk(w, rows, cls, e) { RowIsRestored(d, h, w, rows, cls, plans, cat, e); }
    }
  }

  lemma RowIsRestored(d: Digests, h: Hasher, w: World, rows: seq<IndexedRow>, cls: Bytes, plans: seq<PackPlan>,
                      cat: seq<FileRow>, e: Entry)
    requires AllServable(h, w, rows) && Lists(cat, rows, cls) && IsOnDisk(w, rows, cls, e)
    requires IsPlanOfRows(plans, cls, cat, PACK_TARGET_BYTES, PACK_MAX_MEMBERS)
    ensures exists i :: 0 <= i < |plans| && e in EntriesOf(Readable(w), plans[i].members)
  {
    var k :| 0 <= k < |rows| && rows[k].cls == cls && IsFile(w, rows[k].path, e);
    assert Servable(h, w, rows[k]) && RowOf(rows[k]) in cat;
    var t :| 0 <= t < |cat| && cat[t] == RowOf(rows[k]);
    var i, j := Locate(GroupsOf(plans), t);
    assert plans[i].members[j] == MembersOf(cat)[t];
    assert EntriesOf(Readable(w), plans[i].members)[j] == e;
  }

  // ---- The whole manifest -----------------------------------------------

  /** Every row belongs to a declared class. */
  ghost predicate Declared(cs: seq<AssetClass>, rows: seq<IndexedRow>) {
    forall k :: 0 <= k < |rows| ==> exists c :: 0 <= c < |cs| && cs[c].slug == rows[k].cls
  }

  lemma {:induction false} ConcatIndex(per: seq<seq<PackPlan>>, c: nat, i: nat) returns (n: nat)
    requires c < |per| && i < |per[c]|
    ensures n < |Concat(per)| && Concat(per)[n] == per[c][i]
    decreases |per|
  {
    var init := per[..|per| - 1];
    if c == |init| {
      n := |Concat(init)| + i;
    } else {
      n := ConcatIndex(init, c, i);
    }
  }

  lemma {:induction false} ConcatOrigin(per: seq<seq<PackPlan>>, n: nat) returns (c: nat, i: nat)
    requires n < |Concat(per)|
    ensures c < |per| && i < |per[c]| && Concat(per)[n] == per[c][i]
    decreases |per|
  {
    var init := per[..|per| - 1];
    if n < |Concat(init)| {
      c, i := ConcatOrigin(init, n);
    } else {
      c, i := |init|, n - |Concat(init)|;
    }
  }

  /** Two plans with one id are one plan: nothing a later one overwrites is lost. */
  ghost predicate IdsFaithful(fp: Bytes -> Bytes, plans: seq<PackPlan>) {
    forall i, j :: 0 <= i < |plans| && 0 <= j < |plans| && IdOf(fp, plans[i]) == IdOf(fp, plans[j]) ==>
      plans[i] == plans[j]
  }

  lemma {:induction false} PlanMapHolds(fp: Bytes -> Bytes, plans: seq<PackPlan>)
    requires IdsFaithful(fp, plans)
    ensures forall i :: 0 <= i < |plans| ==>
      IdOf(fp, plans[i]) in PlanMap(fp, plans) && PlanMap(fp, plans)[IdOf(fp, plans[i])] == plans[i]
    ensures forall id :: id in PlanMap(fp, plans) ==>
      exists i :: 0 <= i < |plans| && plans[i] == PlanMap(fp, plans)[id] && id == IdOf(fp, plans[i])
  {
    hide IdOf;
    if plans != [] {
      var n := |plans| - 1;
      var init := plans[..n];
      assert forall i :: 0 <= i < n ==> init[i] == plans[i];
      PlanMapHolds(fp, init);
      forall i | 0 <= i < |plans|
        ensures IdOf(fp, plans[i]) in PlanMap(fp, plans) && PlanMap(fp, plans)[IdOf(fp, plans[i])] == plans[i]
      {
        if i < n { assert IdOf(fp, init[i]) in PlanMap(fp, init); }
      }
      forall id | id in PlanMap(fp, plans)
        ensures exists i :: 0 <= i < |plans| && plans[i] == PlanMap(fp, plans)[id] && id == IdOf(fp, plans[i])
      {
        if id == IdOf(fp, plans[n]) {
          assert plans[n] == PlanMap(fp, plans)[id];
        } else {
          var i :| 0 <= i < n && init[i] == PlanMap(fp, init)[id] && id == IdOf(fp, init[i]);
          assert plans[i] == PlanMap(fp, plans)[id];
        }
      }
    }
  }

  /** A plan as planPacks leaves it: its true total, and no member placed yet. */
  ghost predicate JustPlanned(p: PackPlan) {
    p.bytes == Total(p.members) && forall j :: 0 <= j < |p.members| ==> AsPlanned(p.members[j])
  }

  /** Without collisions on these packs, ids are faithful. */
  lemma CollisionFreeIdsAreFaithful(fp: Bytes -> Bytes, plans: seq<PackPlan>)
    requires CollisionFree(fp, plans)
    requires forall i :: 0 <= i < |plans| ==> Printable(plans[i]) && JustPlanned(plans[i])
    ensures IdsFaithful(fp, plans)
  {
    forall i, j | 0 <= i < |plans| && 0 <= j < |plans| && IdOf(fp, plans[i]) == IdOf(fp, plans[j])
      ensures plans[i] == plans[j]
    {
      IdsTellApart(fp, plans, i, j);
      SameIdentitySameMembers(plans[i].members, plans[j].members);
    }
  }

  /** The state a sealed pass leaves: `rows` recorded as generation `gen` over the older table `files`. */
  ghost predicate FreshlySealed(h: Hasher, w: World, files: FileTable, gen: nat, rows: seq<IndexedRow>) {
    && Ordered(files) && (forall k :: k in files ==> files[k].lastGen < gen)
    && ClassesStable(files, rows) && DistinctRowPaths(rows) && AllServable(h, w, rows)
  }

  lemma ClassOfManifestRestores(d: Digests, h: Hasher, w: World, files: FileTable, gen: nat, rows: seq<IndexedRow>,
                                cls: Bytes, plans: seq<PackPlan>)
    requires SameHash(d, h) && FreshlySealed(h, w, files, gen, rows)
    requires ClassPlans(Upserted(files, gen, rows), gen, cls, plans)
    requires forall i :: 0 <= i < |plans| ==> !InGap(plans[i])
    ensures forall i :: 0 <= i < |plans| ==> Refusal(d, Readable(w), plans[i]) == None
    ensures forall e :: RestoredFrom(d, Readable(w), plans, e) <==> IsOnDisk(w, rows, cls, e)
  {
    hide IsPlanOf, Refusal, InGap, RestoredFrom, IsOnDisk, Upserted, RowsAt, AllServable;
    var after := Upserted(files, gen, rows);
    var answer :| Answers(after, gen, cls, answer) && IsPlanOf(plans, cls, answer, PACK_TARGET_BYTES, PACK_MAX_MEMBERS);
    ClassSnapshotAtSeal(files, gen, rows, cls);
    ClassRestores(d, h, w, rows, cls, answer, plans);
  }

  /** The pack asked for under the identifier of `x` comes as `x` says. */
  ghost predicate EntryTrue(d: Digests, files: Files, x: PackInfo, plan: PackPlan) {
    && x.cls == plan.cls && x.members == |plan.members| && x.content == plan.bytes
    && x.bytes == |Stream(d, files, plan)|
    && (x.raw <==> |plan.members| == 1 && plan.members[0].size > 0xFFFF_FFFF)
    && (x.raw ==>
        && x.path == plan.members[0].path && x.sha == plan.members[0].sha
        && x.path in files && Stream(d, files, plan) == files[x.path])
  }

  /** Every field of an entry, against the pack that will be streamed for it. */
  lemma {:induction false} EntryTellsTheTruth(d: Digests, fp: Bytes -> Bytes, cs: seq<AssetClass>, gen: nat,
                                              meta: Generation, plans: seq<PackPlan>, files: Files, x: PackInfo)
    requires IdsFaithful(fp, plans) && x in Assembled(fp, cs, gen, meta, plans).man.packs
    ensures var g := Assembled(fp, cs, gen, meta, plans);
      && x.id in g.plans && x == InfoOf(fp, g.plans[x.id])
      && (Refusal(d, files, g.plans[x.id]) == None ==> EntryTrue(d, files, x, g.plans[x.id]))
  {
    var infos := InfosOf(fp, plans);
    PrioritySorts(Ranks(cs), infos);
    PlanMapHolds(fp, plans);
    var sorted := SortByPriority(Ranks(cs), infos);
    assert x in multiset(sorted) && x in multiset(infos);
    var n :| 0 <= n < |infos| && infos[n] == x;
    var plan := plans[n];
    assert x == InfoOf(fp, plan) && x.id == IdOf(fp, plan);
    hide PlanMap, SortByPriority, IdOf, InfosOf, Ranks;
    if Refusal(d, files, plan) == None { InfoTellsTheTruth(d, fp, files, plan); }
  }

  lemma InfoTellsTheTruth(d: Digests, fp: Bytes -> Bytes, files: Files, plan: PackPlan)
    requires Refusal(d, files, plan) == None
    ensures EntryTrue(d, files, InfoOf(fp, plan), plan)
  {
    WireSizeExact(d, files, plan);
    if PackIsRaw(plan) { RawPackIsTheFile(d, files, plan); }
    hide WireSize, Stream, Refusal, IdOf;
  }

  /** Going by a true entry restores what going by the plan does. */
  lemma EntryIsEnough(d: Digests, fp: Bytes -> Bytes, files: Files, plan: PackPlan)
    requires Refusal(d, files, plan) == None
    ensures RestoreBy(d, InfoOf(fp, plan), Stream(d, files, plan)) == Restore(d, plan, Stream(d, files, plan))
  {
    InfoTellsTheTruth(d, fp, files, plan);
    hide Stream, Refusal, IdOf, WireSize, ReadArchive;
  }

  /** `e` comes out of some pack the manifest names, going by the manifest alone. */
  ghost predicate RestoredByManifest(d: Digests, files: Files, g: GenPlans, e: Entry) {
    exists x :: x in g.man.packs && x.id in g.plans && e in RestoreBy(d, x, Stream(d, files, g.plans[x.id]))
  }

  /** A recorded file of any class, with its content on disk. */
  ghost predicate IsRecorded(w: World, rows: seq<IndexedRow>, e: Entry) {
    exists k :: 0 <= k < |rows| && IsFile(w, rows[k].path, e)
  }

  /**
   The backup restores: fetching every pack a freshly sealed generation's manifest names gives
   back exactly the recorded files, each with the content it has on disk, and none is refused.
   */
  lemma ManifestRestoresCorpus(d: Digests, h: Hasher, fp: Bytes -> Bytes, cs: seq<AssetClass>, w: World,
                               files: FileTable, meta: Generation,
                               gen: nat, rows: seq<IndexedRow>, per: seq<seq<PackPlan>>)
    requires SameHash(d, h) && FreshlySealed(h, w, files, gen, rows) && Declared(cs, rows)
    requires AllClassPlans(Upserted(files, gen, rows), gen, cs, per) && IdsFaithful(fp, Concat(per))
    requires forall i :: 0 <= i < |Concat(per)| ==> !InGap(Concat(per)[i])
    ensures var g := Assembled(fp, cs, gen, meta, Concat(per));
      && (forall x :: x in g.man.packs ==>
          && x.id in g.plans && Refusal(d, Readable(w), g.plans[x.id]) == None
          && EntryTrue(d, Readable(w), x, g.plans[x.id]))
      && (forall e :: RestoredByManifest(d, Readable(w), g, e) <==> IsRecorded(w, rows, e))
  {
    hide Refusal, InGap, RestoredFrom, IsOnDisk, Readable, FreshlySealed, Upserted, PlanMap, SortByPriority, InfosOf,
      IdOf, ClassPlans, EntryTrue, InfoOf;
    var g, root := Assembled(fp, cs, gen, meta, Concat(per)), Readable(w);
    PlanMapHolds(fp, Concat(per));
    forall c | 0 <= c < |cs|
      ensures forall i :: 0 <= i < |per[c]| ==> Refusal(d, root, per[c][i]) == None
      ensures forall e :: RestoredFrom(d, root, per[c], e) <==> IsOnDisk(w, rows, cs[c].slug, e)
    {
      forall i | 0 <= i < |per[c]| ensures !InGap(per[c][i]) { var n := ConcatIndex(per, c, i); }
      ClassOfManifestRestores(d, h, w, files, gen, rows, cs[c].slug, per[c]);
    }
    AssembledNamesItsPlans(fp, cs, gen, meta, Concat(per));
    forall x | x in g.man.packs
      ensures x.id in g.plans && Refusal(d, root, g.plans[x.id]) == None
      ensures EntryTrue(d, root, x, g.plans[x.id]) && x == InfoOf(fp, g.plans[x.id])
    {
      var id := x.id;
      var n :| 0 <= n < |Concat(per)| && Concat(per)[n] == g.plans[id];
      var c, i := ConcatOrigin(per, n);
      EntryTellsTheTruth(d, fp, cs, gen, meta, Concat(per), root, x);
    }
    forall e ensures RestoredByManifest(d, root, g, e) <==> IsRecorded(w, rows, e) {
      ByManifestIffByPlans(d, fp, root, g, e);
      ByPlansIffByClass(d, fp, root, g.plans, per, e);
      RecordedIffOnDiskOfClass(w, cs, rows, e);
    }
  }

  /** `e` comes out of some pack that can be asked for. */
  ghost predicate RestoredByPlans(d: Digests, files: Files, plans: map<Bytes, PackPlan>, e: Entry) {
    exists id :: id in plans && e in Restore(d, plans[id], Stream(d, files, plans[id]))
  }

  lemma ByManifestIffByPlans(d: Digests, fp: Bytes -> Bytes, root: Files, g: GenPlans, e: Entry)
    requires NamesItsPlans(g)
    requires forall x :: x in g.man.packs ==>
      x.id in g.plans && x == InfoOf(fp, g.plans[x.id]) && Refusal(d, root, g.plans[x.id]) == None
    ensures RestoredByManifest(d, root, g, e) <==> RestoredByPlans(d, root, g.plans, e)
  {
    hide Restore, RestoreBy, Stream, Refusal, InfoOf;
    forall x | x in g.man.packs
      ensures var stream := Stream(d, root, g.plans[x.id]); RestoreBy(d, x, stream) == Restore(d, g.plans[x.id], stream)
    {
      EntryIsEnough(d, fp, root, g.plans[x.id]);
    }
    if RestoredByPlans(d, root, g.plans, e) {
      var id :| id in g.plans && e in Restore(d, g.plans[id], Stream(d, root, g.plans[id]));
      var x :| x in g.man.packs && x.id == id;
    }
  }

  lemma ByPlansIffByClass(d: Digests, fp: Bytes -> Bytes, root: Files, plans: map<Bytes, PackPlan>,
                          per: seq<seq<PackPlan>>, e: Entry)
    requires IdsFaithful(fp, Concat(per)) && plans == PlanMap(fp, Concat(per))
    ensures RestoredByPlans(d, root, plans, e) <==> exists c :: 0 <= c < |per| && RestoredFrom(d, root, per[c], e)
  {
    hide Restore, Stream, PlanMap, IdOf;
    PlanMapHolds(fp, Concat(per));
    if RestoredByPlans(d, root, plans, e) {
      var id :| id in plans && e in Restore(d, plans[id], Stream(d, root, plans[id]));
      var n :| 0 <= n < |Concat(per)| && Concat(per)[n] == plans[id];
      var c, i := ConcatOrigin(per, n);
      assert RestoredFrom(d, root, per[c], e);
    }
    if c :| 0 <= c < |per| && RestoredFrom(d, root, per[c], e) {
      var i :| 0 <= i < |per[c]| && e in Restore(d, per[c][i], Stream(d, root, per[c][i]));
      var n := ConcatIndex(per, c, i);
      assert IdOf(fp, Concat(per)[n]) in plans;
    }
  }

  lemma RecordedIffOnDiskOfClass(w: World, cs: seq<AssetClass>, rows: seq<IndexedRow>, e: Entry)
    requires Declared(cs, rows)
    ensures IsRecorded(w, rows, e) <==> exists c :: 0 <= c < |cs| && IsOnDisk(w, rows, cs[c].slug, e)
  {
    if IsRecorded(w, rows, e) {
      var k :| 0 <= k < |rows| && IsFile(w, rows[k].path, e);
      var c :| 0 <= c < |cs| && cs[c].slug == rows[k].cls;
      assert IsOnDisk(w, rows, cs[c].slug, e);
    }
  }

  // ---- From a history of passes -----------------------------------------

  /** No path is walked by two classes. */
  ghost predicate DisjointWalks(w: World, cs: seq<AssetClass>) {
    forall i, j, p :: 0 <= i < j < |cs| && WalkedBy(w, cs[i], p) ==> !WalkedBy(w, cs[j], p)
  }

  ghost predicate WalkedBy(w: World, c: AssetClass, p: Bytes) { w.walk(c).Some? && p in w.walk(c).value }

  lemma {:induction false} AllRowsOrigin(ps: Pass, cs: seq<AssetClass>, k: nat) returns (c: nat)
    requires Walkable(ps.w) && UsableDenom(ps.denom) && k < |ps.AllRows(cs)|
    ensures c < |cs| && WalkedBy(ps.w, cs[c], ps.AllRows(cs)[k].path) && ps.AllRows(cs)[k].cls == cs[c].slug
  {
    var init, last := cs[..|cs| - 1], cs[|cs| - 1];
    if k < |ps.AllRows(init)| {
      c := AllRowsOrigin(ps, init, k);
    } else {
      c := |init|;
      if ps.w.walk(last).Some? {
        assert ListsOnce(ps.w, ps.w.walk(last).value) by { assert ps.w.walk(last) == Some(ps.w.walk(last).value); }
        RowsForPaths(ps, last.slug, ps.w.walk(last).value);
      }
    }
  }

  lemma {:induction false} AllRowsDistinct(ps: Pass, cs: seq<AssetClass>)
    requires Walkable(ps.w) && UsableDenom(ps.denom) && DisjointWalks(ps.w, cs)
    ensures DistinctRowPaths(ps.AllRows(cs))
  {
    if cs != [] {
      var init, last := cs[..|cs| - 1], cs[|cs| - 1];
      var a, b := ps.AllRows(init), ps.ClassRows(last);
      assert forall i :: 0 <= i < |init| ==> init[i] == cs[i];
      AllRowsDistinct(ps, init);
      if ps.w.walk(last).Some? {
        assert ListsOnce(ps.w, ps.w.walk(last).value) by { assert ps.w.walk(last) == Some(ps.w.walk(last).value); }
        RowsForPaths(ps, last.slug, ps.w.walk(last).value);
      }
      forall i, j | 0 <= i < |a| && 0 <= j < |b| ensures a[i].path != b[j].path {
        var c := AllRowsOrigin(ps, init, i);
        assert WalkedBy(ps.w, cs[c], a[i].path) && WalkedBy(ps.w, cs[|cs| - 1], b[j].path);
      }
    }
  }

  /** Sizes on disk are lengths, and names fit a ZIP header. */
  ghost predicate SoundDisk(w: World) {
    forall p :: p in w.disk ==> w.disk[p].stat.size == |w.disk[p].content| && |p| <= MAX_U16
  }

  /**
   Any complete pass of any history leaves the state the manifest restores from, as long as
   stats are honest, class directories are disjoint, slugs keep their files, and what was
   recorded can still be opened.
   */
  lemma CompletePassIsFreshlySealed(h: Hasher, tables: seq<FileTable>, runs: seq<Run>, n: nat)
    requires IsHistory(h, tables, runs) && HonestStats(Worlds(runs)) && n < |runs|
    requires Walkable(runs[n].ps.w) && UsableDenom(runs[n].ps.denom)
    requires runs[n].done == runs[n].ps.AllRows(runs[n].cs) && DisjointWalks(runs[n].ps.w, runs[n].cs)
    requires SoundDisk(runs[n].ps.w)
    requires forall i :: 0 <= i < |runs[n].done| ==>
      runs[n].done[i].path in runs[n].ps.w.disk && runs[n].ps.w.disk[runs[n].done[i].path].readable
    requires Ordered(tables[n]) && (forall k :: k in tables[n] ==> tables[n][k].lastGen < runs[n].ps.gen)
    requires ClassesStable(tables[n], runs[n].done)
    ensures FreshlySealed(h, runs[n].ps.w, tables[n], runs[n].ps.gen, runs[n].done)
    ensures Declared(runs[n].cs, runs[n].done) && tables[n + 1] == Upserted(tables[n], runs[n].ps.gen, runs[n].done)
  {
    var run := runs[n];
    assert IsRun(h, tables[n], tables[n + 1], run);
    AllRowsDistinct(run.ps, run.cs);
    forall i | 0 <= i < |run.done|
      ensures Servable(h, run.ps.w, run.done[i])
      ensures exists c :: 0 <= c < |run.cs| && run.cs[c].slug == run.done[i].cls
    {
      EveryRecordedRowIsTrue(h, tables, runs, n, i);
      var c := AllRowsOrigin(run.ps, run.cs, i);
      assert run.cs[c].slug == run.done[i].cls;
    }
  }
}
