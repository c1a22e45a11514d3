/** The Backup Index job of backup/index_job.go: baseline, pass, shrink gate, in that order. */
module IndexJob {
  import opened Basics
  import opened Inventory
  import opened Classes
  import opened FileCheck
  import opened IndexPass
  import opened ManifestCache

  const REHASH_DENOMINATOR := 8

  datatype JobOutcome = PassFailed | ShrinkReported(reports: seq<ShrinkReport>) | Indexed

  function RotatingClasses(cs: seq<AssetClass>): set<Bytes> { set i | 0 <= i < |cs| && cs[i].rotates :: cs[i].slug }

  function StatsOf(stats: map<(nat, Bytes), ClassTotal>, gen: nat): map<Bytes, ClassTotal> {
    map k | k in stats && k.0 == gen :: k.1 := stats[k]
  }

  /** The last sealed generation's totals, or nothing when there is none or they cannot be read. */
  method Baseline(st: InventoryStore) returns (prev: map<Bytes, ClassTotal>, ghost read: bool, ghost last: nat)
    requires st.Valid()
    ensures last != 0 ==> IsNewestSealed(st.generations, last)
    ensures read ==> last != 0 && prev == StatsOf(st.classStats, last)
    ensures !read ==> prev == map[]
  {
    var gen := st.LastSealedGeneration();
    prev, read, last := map[], false, gen;
    if gen > 0 {
      if * {
        prev, read := StatsOf(st.classStats, gen), true;
      }
    }
  }

  /** No class of the baseline shrank beyond the gate between two generations. */
  ghost predicate WithinGate(stats: map<(nat, Bytes), ClassTotal>, prev: nat, cur: nat, rotating: set<Bytes>) {
    forall c :: (prev, c) in stats ==>
      !Shrank(stats[(prev, c)].files, if (cur, c) in stats then stats[(cur, c)].files else 0, c in rotating)
  }

  ghost predicate Rotates(cs: seq<AssetClass>, slug: Bytes) {
    exists i :: 0 <= i < |cs| && cs[i].slug == slug && cs[i].rotates
  }

  /** A rotating class lost every file, or another is left with under nine tenths of them. */
  ghost predicate LostTooMuch(stats: map<(nat, Bytes), ClassTotal>, prev: nat, cur: nat, cs: seq<AssetClass>,
                              slug: Bytes) {
    && (prev, slug) in stats
    && var was, now := stats[(prev, slug)].files, FilesAt(stats, cur, slug);
      if Rotates(cs, slug) then was > 0 && now == 0 else 10 * now < 9 * was
  }

  function ReportsOf(outcome: JobOutcome): seq<ShrinkReport> {
    match outcome case ShrinkReported(reports) => reports case _ => []
  }

  /** Exactly the classes that lost too much are reported, each once, with what it held and holds, the worst first. */
  ghost predicate ReportsLosses(reports: seq<ShrinkReport>, stats: map<(nat, Bytes), ClassTotal>, prev: nat, cur: nat,
                                cs: seq<AssetClass>) {
    && WorstFirst(reports)
    && (forall s :: (exists x :: x in reports && x.cls == s) <==> LostTooMuch(stats, prev, cur, cs, s))
    && (forall x :: x in reports ==> x.was == FilesAt(stats, prev, x.cls) && x.now == FilesAt(stats, cur, x.cls))
  }

  /** One run of the job: the tables before and after, the outcome, the baseline and the generation of the pass. */
  datatype JobRun = JobRun(gens: map<nat, Generation>, stats: map<(nat, Bytes), ClassTotal>,
                           gens': map<nat, Generation>, stats': map<(nat, Bytes), ClassTotal>,
                           outcome: JobOutcome, read: bool, last: nat, cur: nat)

  /**
   The gate speaks of the newest sealed generations: the baseline is the newest before the run,
   and a run that finishes its pass leaves its own as the newest, reported or not.
   */
  ghost predicate IsJobRun(r: JobRun, rotating: set<Bytes>) {
    && OthersKept(r.gens, r.gens') && OtherStatsKept(r.stats, r.stats', r.cur) && r.cur !in r.gens
    && (r.last != 0 ==> IsNewestSealed(r.gens, r.last)) && (r.read ==> r.last != 0)
    && (r.outcome == PassFailed ==> forall g :: g in r.gens' && g !in r.gens ==> !r.gens'[g].sealed)
    && (r.outcome != PassFailed ==> IsNewestSealed(r.gens', r.cur))
    && (r.outcome == Indexed && r.read ==> WithinGate(r.stats', r.last, r.cur, rotating))
    && (r.outcome.ShrinkReported? ==> r.read && !WithinGate(r.stats', r.last, r.cur, rotating))
  }

  /**
   The gate runs after the seal and nothing unseals: a reported generation is sealed, is the
   newest, and is what the next run will compare against.
   */
  method RunIndex(st: InventoryStore, h: Hasher, w: World, classes: seq<AssetClass>)
    returns (outcome: JobOutcome, ghost r: JobRun, ghost ps: Pass)
    requires st.Valid() && Walkable(w)
    modifies st
    ensures ps.h == h && ps.w == w && ps.denom == 8 && ps.gen == r.cur
    ensures st.Valid() && OthersKept(old(st.generations), st.generations)
    ensures r ==
      JobRun(old(st.generations), old(st.classStats), st.generations, st.classStats, outcome, r.read, r.last, r.cur)
    ensures IsJobRun(r, RotatingClasses(classes))
    ensures outcome != PassFailed ==> r.cur == st.lastId > old(st.lastId) && IsCurrent(old(st.files), ps.known)
    ensures outcome != PassFailed ==> Progress(old(st.files), st.files, r.cur, ps.AllRows(OrderedClasses(classes)))
    ensures outcome != PassFailed && r.read ==>
      ReportsLosses(ReportsOf(outcome), st.classStats, r.last, r.cur, classes)
  {
    hide TotalsKept, SuspectsTrack, Progress, Counted, IsCurrent, WithinGate, StatsOf, OtherStatsKept;
    var prev;
    ghost var read, last;
    prev, read, last := Baseline(st);
    ghost var gens, stats := st.generations, st.classStats;
    ghost var done;
    var ok, res;
    ok, res, ps, done := RunPass(st, h, w, classes, REHASH_DENOMINATOR);
    if !ok {
      return PassFailed, JobRun(gens, stats, st.generations, st.classStats, PassFailed, read, last, ps.gen), ps;
    }
    var rotating := RotatingClasses(classes);
    var reports := DetectShrink(prev, res.perClass, rotating);
    if read {
      GateReadsTables(old(st.classStats), st.classStats, prev, last, ps, OrderedClasses(classes),
                      res.perClass, rotating);
      ReportsReadTables(old(st.classStats), st.classStats, prev, last, ps, OrderedClasses(classes),
                        res.perClass, classes, reports);
    }
    if |reports| > 0 {
      assert reports[0] in reports;
      outcome := ShrinkReported(reports);
    } else {
      outcome := Indexed;
    }
    r := JobRun(gens, stats, st.generations, st.classStats, outcome, read, last, ps.gen);
  }

  lemma TablesRead(before: map<(nat, Bytes), ClassTotal>, after: map<(nat, Bytes), ClassTotal>,
                   prev: map<Bytes, ClassTotal>, last: nat, ps: Pass, cs: seq<AssetClass>,
                   perClass: map<Bytes, ClassTotal>, s: Bytes)
    requires prev == StatsOf(before, last) && last != ps.gen && OtherStatsKept(before, after, ps.gen)
    requires Walkable(ps.w) && UsableDenom(ps.denom) && TotalsKept(ps, cs, perClass, after)
    ensures (s in prev <==> (last, s) in after) && (s in prev ==> prev[s] == after[(last, s)])
    ensures FilesOf(perClass, s) == FilesAt(after, ps.gen, s)
  {
    if (last, s) in before { assert (last, s).0 == last; }
    if s in prev {
      var k :| k in before && k.0 == last && k.1 == s;
      assert k == (last, s);
    }
  }

  /** The reports are of what class_stats holds for the two generations. */
  lemma ReportsReadTables(before: map<(nat, Bytes), ClassTotal>, after: map<(nat, Bytes), ClassTotal>,
                          prev: map<Bytes, ClassTotal>, last: nat, ps: Pass, cs: seq<AssetClass>,
                          perClass: map<Bytes, ClassTotal>, classes: seq<AssetClass>, reports: seq<ShrinkReport>)
    requires prev == StatsOf(before, last) && last != ps.gen && OtherStatsKept(before, after, ps.gen)
    requires Walkable(ps.w) && UsableDenom(ps.denom) && TotalsKept(ps, cs, perClass, after)
    requires WorstFirst(reports)
    requires forall x :: x in reports ==> IsReport(x, prev, perClass, RotatingClasses(classes))
    requires forall c :: (exists x :: x in reports && x.cls == c) <==>
      c in prev && var now := if c in perClass then perClass[c].files else 0;
        if c in RotatingClasses(classes) then prev[c].files > 0 && now == 0 else 10 * now < 9 * prev[c].files
    ensures ReportsLosses(reports, after, last, ps.gen, classes)
  {
    hide WorstFirst, StatsOf, OtherStatsKept, TotalsKept;
    forall s ensures (exists x :: x in reports && x.cls == s) <==> LostTooMuch(after, last, ps.gen, classes, s) {
      TablesRead(before, after, prev, last, ps, cs, perClass, s);
      assert Rotates(classes, s) <==> s in RotatingClasses(classes);
    }
    forall x | x in reports
      ensures x.was == FilesAt(after, last, x.cls) && x.now == FilesAt(after, ps.gen, x.cls)
    {
      TablesRead(before, after, prev, last, ps, cs, perClass, x.cls);
    }
  }

  /** What the gate compared is what class_stats holds for the two generations. */
  lemma GateReadsTables(before: map<(nat, Bytes), ClassTotal>, after: map<(nat, Bytes), ClassTotal>,
                        prev: map<Bytes, ClassTotal>, last: nat,
                        ps: Pass, cs: seq<AssetClass>, perClass: map<Bytes, ClassTotal>, rotating: set<Bytes>)
    requires prev == StatsOf(before, last) && last != ps.gen && OtherStatsKept(before, after, ps.gen)
    requires Walkable(ps.w) && UsableDenom(ps.denom) && TotalsKept(ps, cs, perClass, after)
    ensures WithinGate(after, last, ps.gen, rotating) <==>
      forall c :: c in prev ==> !Shrank(prev[c].files, FilesOf(perClass, c), c in rotating)
  {
    forall c ensures (last, c) in after <==> c in prev {
      if (last, c) in before { assert (last, c).0 == last; }
      if c in prev {
        var k :| k in before && k.0 == last && k.1 == c;
        assert k == (last, c);
      }
    }
    forall c | c in prev ensures prev[c] == after[(last, c)] {
      var k :| k in before && k.0 == last && k.1 == c;
      assert k == (last, c);
    }
  }

  function FilesAt(stats: map<(nat, Bytes), ClassTotal>, gen: nat, cls: Bytes): nat {
    if (gen, cls) in stats then stats[(gen, cls)].files else 0
  }

  /** Over any chain of generations that each passed the gate, as class_stats records them. */
  lemma {:induction false} GatedRunsLoseLittle(stats: map<(nat, Bytes), ClassTotal>, gens: seq<nat>,
                                               rotating: set<Bytes>, cls: Bytes)
    requires gens != [] && forall i :: 0 <= i < |gens| - 1 ==> WithinGate(stats, gens[i], gens[i + 1], rotating)
    ensures var k, first, last := |gens| - 1, FilesAt(stats, gens[0], cls), FilesAt(stats, gens[|gens| - 1], cls);
      if cls in rotating then first > 0 ==> last > 0 else Pow(10, k) * last >= Pow(9, k) * first
  {
    var counts := seq(|gens|, i requires 0 <= i < |gens| => FilesAt(stats, gens[i], cls));
    forall i | 0 <= i < |counts| - 1 ensures !Shrank(counts[i], counts[i + 1], cls in rotating) {
      assert WithinGate(stats, gens[i], gens[i + 1], rotating);
    }
    if cls !in rotating {
      BoundedSilentLoss(counts);
    } else if counts[0] > 0 {
      RotatingNeverVanishesSilently(counts);
    }
  }

  // ---- Over many runs ------------------------------------------------------

  /** Only the job writes these tables. */
  ghost predicate IsJobHistory(rs: seq<JobRun>, rotating: set<Bytes>) {
    && (forall i :: 0 <= i < |rs| ==> IsJobRun(rs[i], rotating))
    && (forall i :: 0 <= i < |rs| - 1 ==> rs[i + 1].gens == rs[i].gens' && rs[i + 1].stats == rs[i].stats')
  }

  /** No run reported a shrink: each failed, or finished with its baseline read. */
  ghost predicate Silent(rs: seq<JobRun>) {
    forall i :: 0 <= i < |rs| ==> rs[i].outcome == PassFailed || (rs[i].outcome == Indexed && rs[i].read)
  }

  ghost function Finished(rs: seq<JobRun>): nat {
    if rs == [] then 0 else Finished(rs[..|rs| - 1]) + if rs[|rs| - 1].outcome == Indexed then 1 else 0
  }

  lemma {:induction false} GateOutlives(stats: map<(nat, Bytes), ClassTotal>, later: map<(nat, Bytes), ClassTotal>,
                                        cur: nat,
                                        a: nat, b: nat, rotating: set<Bytes>)
    requires OtherStatsKept(stats, later, cur) && a != cur && b != cur && WithinGate(stats, a, b, rotating)
    ensures WithinGate(later, a, b, rotating)
  {
    forall c | (a, c) in later
      ensures !Shrank(later[(a, c)].files, if (b, c) in later then later[(b, c)].files else 0, c in rotating)
    {
      assert (a, c).0 == a && (b, c).0 == b;
      assert (a, c) in stats;
    }
  }

  /** The generations a silent history sealed, each within the gate of the one before. */
  lemma {:induction false} SilentChain(rs: seq<JobRun>, rotating: set<Bytes>, first: nat) returns (gens: seq<nat>)
    requires rs != [] && IsJobHistory(rs, rotating) && Silent(rs) && IsNewestSealed(rs[0].gens, first)
    ensures |gens| == 1 + Finished(rs) && gens[0] == first
    ensures var end := rs[|rs| - 1];
      && IsNewestSealed(end.gens', gens[|gens| - 1]) && (forall i :: 0 <= i < |gens| ==> gens[i] in end.gens')
      && (forall i :: 0 <= i < |gens| - 1 ==> WithinGate(end.stats', gens[i], gens[i + 1], rotating))
  {
    hide WithinGate, OtherStatsKept;
    var n := |rs| - 1;
    var end := rs[n];
    assert IsJobRun(end, rotating);
    gens := [first];
    if n > 0 {
      assert IsJobHistory(rs[..n], rotating) && rs[..n][n - 1] == rs[n - 1];
      gens := SilentChain(rs[..n], rotating, first);
      assert rs[n - 1 + 1].gens == rs[n - 1].gens';
    } else {
      assert Finished(rs[..0]) == 0;
    }
    forall i | 0 <= i < |gens| - 1 ensures WithinGate(end.stats', gens[i], gens[i + 1], rotating) {
      GateOutlives(end.stats, end.stats', end.cur, gens[i], gens[i + 1], rotating);
    }
    if end.outcome == Indexed {
      assert end.last == gens[|gens| - 1];
      gens := gens + [end.cur];
    }
  }

  /**
   However many runs go by without a report, failures included, a class keeps at least (9/10)^k
   of its files over the k that finished, and a rotating class that had files still has some.
   */
  lemma {:induction false} SilentRunsLoseLittle(rs: seq<JobRun>, rotating: set<Bytes>, first: nat, cls: Bytes)
    returns (newest: nat)
    requires rs != [] && IsJobHistory(rs, rotating) && Silent(rs) && IsNewestSealed(rs[0].gens, first)
    ensures IsNewestSealed(rs[|rs| - 1].gens', newest)
    ensures var stats, k := rs[|rs| - 1].stats', Finished(rs);
      if cls in rotating then FilesAt(stats, first, cls) > 0 ==> FilesAt(stats, newest, cls) > 0
      else Pow(10, k) * FilesAt(stats, newest, cls) >= Pow(9, k) * FilesAt(stats, first, cls)
  {
    var gens := SilentChain(rs, rotating, first);
    newest := gens[|gens| - 1];
    GatedRunsLoseLittle(rs[|rs| - 1].stats', gens, rotating, cls);
  }
}
