/** What a report of lost files does to the next run: nothing holds back the generation that lost them. */
module LossReports {
  import opened Basics
  import opened Inventory
  import opened Classes
  import opened IndexJob
  import opened ManifestCache

  const CLASS: Bytes := [99]

  function Sealed(files: nat): Generation { Generation(true, files, files, 0, false) }

  function Held(was: nat, now: nat, g: nat): nat { if g <= 1 then was else now }

  /** Generation 1 held `was` files of the one class, every later one holds `now`. */
  function GensTo(was: nat, now: nat, n: nat): map<nat, Generation> {
    if n == 0 then map[] else GensTo(was, now, n - 1)[n := Sealed(Held(was, now, n))]
  }

  function StatsTo(was: nat, now: nat, n: nat): map<(nat, Bytes), ClassTotal> {
    if n == 0 then map[] else StatsTo(was, now, n - 1)[(n, CLASS) := ClassTotal(Held(was, now, n), 0)]
  }

  function LossReport(was: nat, now: nat): JobOutcome
    requires was > 0
  {
    ShrinkReported([ShrinkReport(CLASS, was, now, Dropped(was, now))])
  }

  function RunTo(was: nat, now: nat, n: nat, outcome: JobOutcome): JobRun
    requires n > 1
  {
    JobRun(GensTo(was, now, n - 1), StatsTo(was, now, n - 1), GensTo(was, now, n), StatsTo(was, now, n), outcome, true,
           n - 1, n)
  }

  lemma {:induction false} TablesHold(was: nat, now: nat, n: nat)
    ensures forall g: nat :: g in GensTo(was, now, n) <==> 1 <= g <= n
    ensures forall g: nat :: 1 <= g <= n ==> GensTo(was, now, n)[g] == Sealed(Held(was, now, g))
    ensures forall g: nat, c :: (g, c) in StatsTo(was, now, n) <==> 1 <= g <= n && c == CLASS
    ensures forall g: nat :: 1 <= g <= n ==> StatsTo(was, now, n)[(g, CLASS)] == ClassTotal(Held(was, now, g), 0)
  {
    if n > 0 { TablesHold(was, now, n - 1); }
  }

  lemma {:induction false} RunToIsRun(was: nat, now: nat, n: nat, outcome: JobOutcome, rotating: set<Bytes>)
    requires n > 1 && Shrank(was, now, CLASS in rotating)
    requires outcome == if n == 2 then LossReport(was, now) else Indexed
    ensures IsJobRun(RunTo(was, now, n, outcome), rotating)
  {
    TablesHold(was, now, n - 1);
    TablesHold(was, now, n);
    var before, after := StatsTo(was, now, n - 1), StatsTo(was, now, n);
    hide StatsTo, GensTo, Dropped;
    forall k: (nat, Bytes) | k.0 != n ensures (k in after <==> k in before) && (k in before ==> after[k] == before[k]) {
      assert k == (k.0, k.1);
    }
    GateOn(was, now, n, rotating);
    hide WithinGate, Shrank;
  }

  lemma GateOn(was: nat, now: nat, n: nat, rotating: set<Bytes>)
    requires n > 1 && Shrank(was, now, CLASS in rotating)
    ensures WithinGate(StatsTo(was, now, n), n - 1, n, rotating) <==> n > 2
  {
    TablesHold(was, now, n);
    var after := StatsTo(was, now, n);
    hide StatsTo, GensTo;
    assert (n - 1, CLASS) in after && (n, CLASS) in after;
    if n == 2 { assert Shrank(after[(1, CLASS)].files, after[(2, CLASS)].files, CLASS in rotating); }
  }

  /**
   Whatever loss the gate reports, the generation that lost stays the newest sealed one and becomes
   the baseline: a next run with the files still missing has nothing to report.
   */
  lemma {:induction false} LossIsReportedOnce(was: nat, now: nat, rotating: set<Bytes>) returns (rs: seq<JobRun>)
    requires Shrank(was, now, CLASS in rotating)
    ensures |rs| == 2 && IsJobHistory(rs, rotating)
    ensures FilesAt(rs[0].stats, rs[0].last, CLASS) == was && FilesAt(rs[0].stats', rs[0].cur, CLASS) == now
    ensures rs[0].outcome.ShrinkReported? && IsNewestSealed(rs[0].gens', rs[0].cur)
    ensures FilesAt(rs[1].stats', rs[1].cur, CLASS) == now && rs[1].outcome == Indexed && rs[1].read
  {
    rs := [RunTo(was, now, 2, LossReport(was, now)), RunTo(was, now, 3, Indexed)];
    RunToIsRun(was, now, 2, LossReport(was, now), rotating);
    RunToIsRun(was, now, 3, Indexed, rotating);
    TablesHold(was, now, 1);
    TablesHold(was, now, 2);
    TablesHold(was, now, 3);
    hide IsJobRun, StatsTo, GensTo, Shrank;
  }
}
