/**
 When the cache may be trusted over a history of passes and requests: an answer stays good exactly
 as long as the generation's own pass records nothing new, which a sealed one's does not, and no
 pass revives a row that had ended before it.
 */
module ServedHistory {
  import opened Basics
  import opened Planner
  import opened Inventory
  import opened Classes
  import opened Snapshots
  import opened ManifestCache

  /** Passes `log` write to the table one after the other; request `i` comes after `at[i]` of them. */
  ghost predicate IsTimeline(base: FileTable, log: seq<PassRecord>, at: seq<nat>, rs: seq<Request>) {
    && |at| == |rs| && (forall i :: 0 <= i < |at| ==> at[i] <= |log|)
    && (forall i, j :: 0 <= i <= j < |at| ==> at[i] <= at[j])
    && (forall i :: 0 <= i < |rs| ==> rs[i].files == Applied(base, log[..at[i]]) && Ordered(rs[i].files))
  }

  /** Every generation asked for is sealed: its pass has ended, and its row is not written again. */
  ghost predicate AsksSealed(log: seq<PassRecord>, at: seq<nat>, rs: seq<Request>)
    requires |at| == |rs| && forall i :: 0 <= i < |at| ==> at[i] <= |log|
  {
    forall i, j :: 0 <= i <= j < |rs| ==>
      && rs[i].gen in rs[i].gens && rs[i].gens[rs[i].gen].sealed
      && rs[i].gen in rs[j].gens && rs[j].gens[rs[i].gen] == rs[i].gens[rs[i].gen]
      && AllLater(log[at[i]..], rs[i].gen)
  }

  /** The class query on the generation asked for by `a` reads the same for `b`. */
  ghost predicate ReadsSame(a: Request, b: Request) {
    forall cls :: RowsAt(b.files, a.gen, cls) == RowsAt(a.files, a.gen, cls)
  }

  /** Between the two requests a pass records again a row that had ended before the generation `a` asks for. */
  ghost predicate RevivedBetween(log: seq<PassRecord>, from: nat, to: nat, a: Request)
    requires from <= to <= |log|
  {
    Revives(a.files, log[from..to], a.gen)
  }

  /** Between the two requests the pass of that very generation records a key the table did not hold. */
  ghost predicate GrownBetween(log: seq<PassRecord>, from: nat, to: nat, a: Request)
    requires from <= to <= |log|
  {
    Grows(a.files, log[from..to], a.gen)
  }

  /** Every generation asked for is the one whose pass runs, or an earlier one. */
  ghost predicate AsksStarted(log: seq<PassRecord>, at: seq<nat>, rs: seq<Request>)
    requires |at| == |rs| && forall i :: 0 <= i < |at| ==> at[i] <= |log|
  {
    forall i :: 0 <= i < |rs| ==> NoneEarlier(log[at[i]..], rs[i].gen)
  }

  lemma {:induction false} AppliedSplit(base: FileTable, a: seq<PassRecord>, b: seq<PassRecord>)
    ensures Applied(base, a + b) == Applied(Applied(base, a), b)
  {
    if b == [] {
      assert a + b == a;
    } else {
      AppliedSplit(base, a, b[..|b| - 1]);
      assert (a + b)[..|a + b| - 1] == a + b[..|b| - 1];
    }
  }

  /**
   For any request, sealed or not: its answers still read true at a later one exactly if in between
   nothing was revived and the generation's own pass recorded nothing new.
   */
  lemma {:induction false} ReadsSameExactlyWhen(sizeOf: Bytes -> nat, base: FileTable, log: seq<PassRecord>,
                                                at: seq<nat>, rs: seq<Request>, i: nat, j: nat)
    requires IsTimeline(base, log, at, rs) && AsksStarted(log, at, rs) && i <= j < |rs|
    requires RunSizesByHash(sizeOf, base, log)
    ensures ReadsSame(rs[i], rs[j]) <==>
      !RevivedBetween(log, at[i], at[j], rs[i]) && !GrownBetween(log, at[i], at[j], rs[i])
  {
    var early, since := log[..at[i]], log[at[i]..at[j]];
    assert log[..at[j]] == early + since;
    AppliedSplit(base, early, since);
    SizesSince(sizeOf, base, log, at[i], at[j]);
    forall n | 0 <= n < |since| ensures since[n].gen >= rs[i].gen { assert since[n] == log[at[i]..][n]; }
    hide RunSizesByHash, RowsAt, Revives, Grows, Applied;
    AnswersStableExactlyWhen(sizeOf, rs[i].files, since, rs[i].gen);
  }

  lemma SealedIsStarted(log: seq<PassRecord>, at: seq<nat>, rs: seq<Request>)
    requires |at| == |rs| && (forall i :: 0 <= i < |at| ==> at[i] <= |log|) && AsksSealed(log, at, rs)
    ensures AsksStarted(log, at, rs)
  {
    forall i | 0 <= i < |rs| ensures NoneEarlier(log[at[i]..], rs[i].gen) {
      assert AllLater(log[at[i]..], rs[i].gen);
    }
  }

  lemma SealedNeverGrows(log: seq<PassRecord>, at: seq<nat>, rs: seq<Request>, i: nat, j: nat)
    requires |at| == |rs| && (forall i :: 0 <= i < |at| ==> at[i] <= |log|) && AsksSealed(log, at, rs)
    requires i <= j < |rs| && at[i] <= at[j]
    ensures !GrownBetween(log, at[i], at[j], rs[i])
  {
    var since := log[at[i]..at[j]];
    assert AllLater(log[at[i]..], rs[i].gen);
    forall n | 0 <= n < |since| ensures since[n].gen > rs[i].gen { assert since[n] == log[at[i]..][n]; }
    forall k ensures !Joins(since, rs[i].gen, k) { JoinsRecords(since, rs[i].gen, k); }
  }

  /** For a sealed generation, exactly if nothing was revived. */
  lemma {:induction false} SealedReadsSameExactlyWhen(sizeOf: Bytes -> nat, base: FileTable, log: seq<PassRecord>,
                                                      at: seq<nat>, rs: seq<Request>, i: nat, j: nat)
    requires IsTimeline(base, log, at, rs) && AsksSealed(log, at, rs) && i <= j < |rs|
    requires RunSizesByHash(sizeOf, base, log)
    ensures ReadsSame(rs[i], rs[j]) <==> !RevivedBetween(log, at[i], at[j], rs[i])
  {
    SealedIsStarted(log, at, rs);
    SealedNeverGrows(log, at, rs, i, j);
    hide AsksSealed, AsksStarted, ReadsSame, RevivedBetween, GrownBetween;
    ReadsSameExactlyWhen(sizeOf, base, log, at, rs, i, j);
  }

  lemma {:induction false} SizesSince(sizeOf: Bytes -> nat, base: FileTable, log: seq<PassRecord>, from: nat, to: nat)
    requires from <= to <= |log| && RunSizesByHash(sizeOf, base, log)
    ensures RunSizesByHash(sizeOf, Applied(base, log[..from]), log[from..to])
  {
    var early := log[..from];
    assert RunSizesByHash(sizeOf, base, early);
    forall k | k in Applied(base, early)
      ensures Applied(base, early)[k].stat.size == sizeOf(k.sha)
    {
      AppliedSizes(sizeOf, base, early, k);
    }
    hide SizesByHash, Applied;
    forall n | 0 <= n < to - from
      ensures SizesByHash(sizeOf, log[from..to][n].rows)
    {
      assert log[from..to][n] == log[from + n];
    }
  }

  /** What was asked for by the first request has the same seal and the same rows at the second. */
  ghost predicate StaysGood(log: seq<PassRecord>, from: nat, to: nat, a: Request, b: Request)
    requires from <= to <= |log|
  {
    && a.gen in a.gens && a.gen in b.gens && b.gens[a.gen] == a.gens[a.gen]
    && !RevivedBetween(log, from, to, a) && !GrownBetween(log, from, to, a)
  }

  /**
   Over any history of requests that stay good, sealed or not, evictions or not, every answer is
   what building from the tables at that moment would give.
   */
  lemma {:induction false} RequestsServedTruly(sizeOf: Bytes -> nat, base: FileTable, log: seq<PassRecord>,
                                               at: seq<nat>, rs: seq<Request>,
                                               fp: Bytes -> Bytes, cs: seq<AssetClass>, caches: seq<CacheState>)
    requires IsTimeline(base, log, at, rs) && AsksStarted(log, at, rs) && RunSizesByHash(sizeOf, base, log)
    requires IsService(fp, cs, caches, rs)
    requires forall i, j :: 0 <= i <= j < |rs| ==> StaysGood(log, at[i], at[j], rs[i], rs[j])
    ensures GenerationsStable(cs, rs) && forall i :: 0 <= i < |rs| ==> RepliedTruly(fp, cs, rs[i])
  {
    forall i, j | 0 <= i <= j < |rs| ensures AnswersStill(cs, rs[i], rs[j]) {
      assert StaysGood(log, at[i], at[j], rs[i], rs[j]);
      ReadsSameExactlyWhen(sizeOf, base, log, at, rs, i, j);
      hide RowsAt;
      assert ReadsSame(rs[i], rs[j]);
    }
    CacheIsTransparent(fp, cs, caches, rs, |rs|);
  }

  /** Sealed requests are such, as long as nothing is revived between them. */
  lemma {:induction false} SealedRequestsServedTruly(sizeOf: Bytes -> nat, base: FileTable, log: seq<PassRecord>,
                                                     at: seq<nat>, rs: seq<Request>,
                                                     fp: Bytes -> Bytes, cs: seq<AssetClass>, caches: seq<CacheState>)
    requires IsTimeline(base, log, at, rs) && AsksSealed(log, at, rs) && RunSizesByHash(sizeOf, base, log)
    requires IsService(fp, cs, caches, rs)
    requires forall i, j :: 0 <= i <= j < |rs| ==> !RevivedBetween(log, at[i], at[j], rs[i])
    ensures GenerationsStable(cs, rs) && forall i :: 0 <= i < |rs| ==> RepliedTruly(fp, cs, rs[i])
  {
    SealedIsStarted(log, at, rs);
    hide AsksStarted, RevivedBetween, GrownBetween, IsService, RunSizesByHash;
    forall i, j | 0 <= i <= j < |rs| ensures StaysGood(log, at[i], at[j], rs[i], rs[j]) {
      SealedNeverGrows(log, at, rs, i, j);
    }
    hide AsksSealed, StaysGood;
    RequestsServedTruly(sizeOf, base, log, at, rs, fp, cs, caches);
  }

  // ---- Asking too early ------------------------------------------------

  const ROW := IndexedRow([112], [99], [65], StatKey(1, 0, 0, 0))
  const CLASS := AssetClass([99], [99], 0, false)
  const RUNNING := Generation(false, 0, 0, 0, false)
  const SEALED := Generation(true, 1, 1, 1, false)

  const NOTHING := CacheState(map[], [])

  ghost function EmptyBuild(fp: Bytes -> Bytes): GenPlans { Assembled(fp, [CLASS], 1, RUNNING, []) }

  ghost function Kept(fp: Bytes -> Bytes): CacheState { CacheState(map[1 := EmptyBuild(fp)], [1]) }

  /** The same generation asked for twice: while its pass runs, and after the seal. */
  ghost function Early(fp: Bytes -> Bytes): Request { Request(map[1 := RUNNING], map[], 1, EmptyBuild(fp)) }

  ghost function Late(fp: Bytes -> Bytes): Request {
    Request(map[1 := SEALED], Upserted(map[], 1, [ROW]), 1, EmptyBuild(fp))
  }

  lemma {:induction false} NothingPlannedYet(fp: Bytes -> Bytes)
    ensures IsBuild(fp, [CLASS], map[1 := RUNNING], map[], 1, EmptyBuild(fp))
  {
    assert Answers(map[], 1, CLASS.slug, []);
    assert GroupsOf([]) == [] && MembersOf([]) == [];
    assert IsPlanOfRows([], CLASS.slug, [], PACK_TARGET_BYTES, PACK_MAX_MEMBERS);
    assert IsCatalogue([], []);
    assert ClassPlans(map[], 1, CLASS.slug, []);
    var per: seq<seq<PackPlan>> := [[]];
    assert Concat(per[..0]) == [] && Concat(per) == [];
    assert AllClassPlans(map[], 1, [CLASS], per);
  }

  lemma {:induction false} RowIsPlanned(plans: seq<PackPlan>, cls: Bytes, rows: seq<FileRow>)
    requires rows != [] && IsPlanOf(plans, cls, rows, PACK_TARGET_BYTES, PACK_MAX_MEMBERS)
    ensures plans != []
  {
    var cat :| IsCatalogue(cat, rows) && IsPlanOfRows(plans, cls, cat, PACK_TARGET_BYTES, PACK_MAX_MEMBERS);
    assert rows[..0] == [] && FirstForPath(rows, rows[0]);
    assert rows[0] in cat;
    assert GroupsOf([]) == [] && |MembersOf(cat)| == |cat|;
  }

  lemma LateTable(fp: Bytes -> Bytes)
    ensures FileRow(ROW.path, ROW.sha, ROW.stat.size) in RowsAt(Late(fp).files, 1, CLASS.slug)
  {
    var files := Late(fp).files;
    UpsertedKey(map[], 1, [ROW], KeyOf(ROW));
    assert Records([ROW], KeyOf(ROW)) by { assert [ROW][0] == ROW; }
    assert KeyOf(ROW) in files && files[KeyOf(ROW)] == FileRec(ROW.cls, ROW.stat, 1, 1);
  }

  lemma {:induction false} SealedHasPacks(fp: Bytes -> Bytes, g: GenPlans)
    requires IsBuild(fp, [CLASS], Late(fp).gens, Late(fp).files, 1, g)
    ensures g.man.packs != []
  {
    LateTable(fp);
    hide RowsAt, IsPlanOf, InfosOf, SortByPriority, Ranks, Upserted, PlanMap;
    var files := Late(fp).files;
    var per :| AllClassPlans(files, 1, [CLASS], per) && g == Assembled(fp, [CLASS], 1, Late(fp).gens[1], Concat(per));
    assert ClassPlans(files, 1, [CLASS][0].slug, per[0]);
    var rows :| Answers(files, 1, CLASS.slug, rows) &&
        IsPlanOf(per[0], CLASS.slug, rows, PACK_TARGET_BYTES, PACK_MAX_MEMBERS);
    RowIsPlanned(per[0], CLASS.slug, rows);
    assert per == [per[0]] && per[..0] == [] && Concat(per) == [] + per[0];
    InfosSorted(fp, [CLASS], Concat(per));
  }

  lemma InfosSorted(fp: Bytes -> Bytes, cs: seq<AssetClass>, plans: seq<PackPlan>)
    ensures |SortByPriority(Ranks(cs), InfosOf(fp, plans))| == |plans|
  {
    hide SortByPriority;
    var sorted, infos := SortByPriority(Ranks(cs), InfosOf(fp, plans)), InfosOf(fp, plans);
    PrioritySorts(Ranks(cs), infos);
    assert |multiset(sorted)| == |sorted| && |multiset(infos)| == |infos|;
  }

  const ONE_BATCH := PassRecord(1, [ROW])

  lemma {:induction false} LateIsOrdered()
    ensures Ordered(Upserted(map[], 1, [ROW]))
  {
    forall k | k in Upserted(map[], 1, [ROW])
      ensures Upserted(map[], 1, [ROW])[k].firstGen <= Upserted(map[], 1, [ROW])[k].lastGen
    {
      UpsertedKey(map[], 1, [ROW], k);
    }
  }

  lemma {:induction false} BatchJoins()
    ensures Joins([ONE_BATCH], 1, KeyOf(ROW))
  {
    assert [ONE_BATCH][0] == ONE_BATCH;
    assert KeyOf(ONE_BATCH.rows[0]) == KeyOf(ROW);
    assert FirstRecords([ONE_BATCH], KeyOf(ROW), 0);
  }

  /** One request before a batch and one after it. */
  lemma AroundBatch(base: FileTable, p: PassRecord, a: Request, b: Request)
    requires a.files == base && Ordered(a.files) && b.files == Upserted(base, p.gen, p.rows) && Ordered(b.files)
    requires a.gen <= p.gen
    ensures IsTimeline(base, [p], [0, 1], [a, b]) && AsksStarted([p], [0, 1], [a, b])
  {
    var log, at, rs := [p], [0, 1], [a, b];
    AppliedOne(base, p);
    assert log[..0] == [] && log[..1] == log && log[1..] == [];
    assert Applied(base, log[..0]) == base;
    hide Upserted, Applied, Ordered;
  }

  lemma {:induction false} BatchGrows(fp: Bytes -> Bytes)
    ensures IsTimeline(map[], [ONE_BATCH], [0, 1], [Early(fp), Late(fp)])
    ensures AsksStarted([ONE_BATCH], [0, 1], [Early(fp), Late(fp)])
    ensures GrownBetween([ONE_BATCH], 0, 1, Early(fp))
  {
    LateIsOrdered();
    BatchJoins();
    assert [ONE_BATCH][0..1] == [ONE_BATCH];
    assert Ordered(Early(fp).files);
    hide Ordered, Joins, Upserted, EmptyBuild;
    AroundBatch(map[], ONE_BATCH, Early(fp), Late(fp));
    hide IsTimeline, AsksStarted;
  }

  /**
   The failing family in its smallest form. A generation asked for while its pass runs is
   remembered as it stood, then grows: after the seal the cache still answers with the partial plan,
   though every build from the tables would name packs.
   */
  lemma {:induction false} UnsealedAnswersGoStale(fp: Bytes -> Bytes)
    ensures IsService(fp, [CLASS], [NOTHING, Kept(fp), Kept(fp)], [Early(fp), Late(fp)])
    ensures Late(fp).gens[1].sealed && Late(fp).reply.man.packs == [] && !RepliedTruly(fp, [CLASS], Late(fp))
  {
    NothingPlannedYet(fp);
    hide IsBuild;
    assert NOTHING.order + [1] == [1];
    assert Remembered(NOTHING, 1, EmptyBuild(fp)) == Kept(fp);
    assert Serves(fp, [CLASS], NOTHING, Early(fp), Kept(fp)) && Serves(fp, [CLASS], Kept(fp), Late(fp), Kept(fp));
    NoPacks(fp);
    PrioritySorts(Ranks([CLASS]), []);
    if RepliedTruly(fp, [CLASS], Late(fp)) { SealedHasPacks(fp, EmptyBuild(fp)); }
  }
}
