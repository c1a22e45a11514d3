/**
 What the stat gate cannot see: content that changes while the stat key stays. Every file has its
 turn, in which its recorded hash is that of the bytes it then holds, whatever its stat says.
 */
module BitRot {
  import opened Basics
  import opened Inventory
  import opened Classes
  import opened FileCheck
  import opened IndexPass
  import opened StatGate

  /** The pass recorded `p`, and every row of it says what the file holds at that pass. */
  ghost predicate ReadsTruly(run: Run, p: Bytes) {
    && (exists k :: 0 <= k < |run.done| && run.done[k].path == p)
    && (forall k :: 0 <= k < |run.done| && run.done[k].path == p ==> Truthful(run.ps.h, run.ps.w, run.done[k]))
  }

  /** Passes that ran to the end, numbered one after the other. */
  ghost predicate FullPasses(runs: seq<Run>, denom: int) {
    forall i :: 0 <= i < |runs| ==>
      && Walkable(runs[i].ps.w) && UsableDenom(denom) && runs[i].ps.denom == denom
      && runs[i].ps.gen == runs[0].ps.gen + i && runs[i].done == runs[i].ps.AllRows(runs[i].cs)
  }

  lemma {:induction false} RowsOfPath(ps: Pass, cs: seq<AssetClass>, p: Bytes)
    requires Walkable(ps.w) && UsableDenom(ps.denom) && p in Walked(ps.w, cs)
    requires p in ps.w.disk && forall cls :: ps.RowFor(cls, p).Some?
    ensures exists k :: 0 <= k < |ps.AllRows(cs)| && ps.AllRows(cs)[k].path == p
  {
    var init, c := cs[..|cs| - 1], cs[|cs| - 1];
    var rows := ps.AllRows(cs);
    if p in Walked(ps.w, init) {
      RowsOfPath(ps, init, p);
      var k :| 0 <= k < |ps.AllRows(init)| && ps.AllRows(init)[k].path == p;
      assert rows[k].path == p;
    } else {
      var paths := ps.w.walk(c).value;
      assert ListsOnce(ps.w, paths) by { assert ps.w.walk(c) == Some(paths); }
      RowsForPaths(ps, c.slug, paths);
      hide Pass.RowFor, Pass.RowsFor;
      var row := ps.RowFor(c.slug, p).value;
      var j :| 0 <= j < |ps.RowsFor(c.slug, paths)| && ps.RowsFor(c.slug, paths)[j] == row;
      RowKeepsPath(ps, c.slug, p);
      assert rows[|ps.AllRows(init)| + j].path == p;
    }
  }

  lemma RowKeepsPath(ps: Pass, cls: Bytes, p: Bytes)
    requires p in ps.w.disk && UsableDenom(ps.denom) && ps.RowFor(cls, p).Some?
    ensures ps.RowFor(cls, p).value.path == p
  {
  }

  lemma {:induction false} RowsAreGated(ps: Pass, cs: seq<AssetClass>, k: nat)
    requires Walkable(ps.w) && UsableDenom(ps.denom) && k < |ps.AllRows(cs)|
    ensures var r := ps.AllRows(cs)[k]; r.path in ps.w.disk && ps.RowFor(r.cls, r.path) == Some(r)
  {
    var init, c := cs[..|cs| - 1], cs[|cs| - 1];
    if k < |ps.AllRows(init)| {
      RowsAreGated(ps, init, k);
    } else if ps.w.walk(c).Some? {
      var paths := ps.w.walk(c).value;
      assert ListsOnce(ps.w, paths) by { assert ps.w.walk(c) == Some(paths); }
      RowsForPaths(ps, c.slug, paths);
    }
  }

  /** A file that is due is read, whatever its stat key and whatever was known of it. */
  lemma DueIsRead(ps: Pass, cls: Bytes, p: Bytes)
    requires p in ps.w.disk && ps.w.disk[p].readable && UsableDenom(ps.denom) && IsDue(p, ps.gen, ps.denom)
    ensures ps.RowFor(cls, p) == Some(IndexedRow(p, cls, ps.h.shaOf(ps.w.disk[p].content), ps.w.disk[p].stat))
  {
    hide IsDue;
  }

  lemma {:induction false} DuePassReadsTruly(run: Run, p: Bytes)
    requires Walkable(run.ps.w) && UsableDenom(run.ps.denom) && run.done == run.ps.AllRows(run.cs)
    requires p in Walked(run.ps.w, run.cs) && p in run.ps.w.disk && run.ps.w.disk[p].readable
    requires IsDue(p, run.ps.gen, run.ps.denom)
    ensures ReadsTruly(run, p)
  {
    forall cls ensures run.ps.RowFor(cls, p).Some? { DueIsRead(run.ps, cls, p); }
    RowsOfPath(run.ps, run.cs, p);
    hide Pass.AllRows, Pass.RowFor, IsDue;
    forall k | 0 <= k < |run.done| && run.done[k].path == p ensures Truthful(run.ps.h, run.ps.w, run.done[k]) {
      RowsAreGated(run.ps, run.cs, k);
      DueIsRead(run.ps, run.done[k].cls, p);
    }
  }

  /**
   Over any window of `denom` finished passes one after the other, a file that is walked and readable
   in all of them is read in one, and its row there carries the hash of what it holds then. Nothing is
   assumed of stat keys: they may lie in every pass.
   */
  lemma {:induction false} EveryFileHasItsTurn(runs: seq<Run>, denom: int, p: Bytes) returns (i: nat)
    requires runs != [] && denom <= |runs| && denom < 0x1_0000_0000 && FullPasses(runs, denom)
    requires forall j :: 0 <= j < |runs| ==>
      p in Walked(runs[j].ps.w, runs[j].cs) && p in runs[j].ps.w.disk && runs[j].ps.w.disk[p].readable
    ensures i < |runs| && ReadsTruly(runs[i], p)
  {
    var from := runs[0].ps.gen;
    var gen := from;
    if denom > 1 { gen := DueExactlyOnce(p, from, denom); }
    i := gen - from;
    hide Walked, Walkable, ReadsTruly;
    assert runs[i].ps.gen == from + i;
    DuePassReadsTruly(runs[i], p);
  }

  /** A file known, unmoved and unsuspected is left alone until its turn: the gate reads it once in the window. */
  lemma {:induction false} SettledFileIsReadOnce(passes: seq<Pass>, denom: int, p: Bytes) returns (i: nat)
    requires 1 < denom == |passes| < 0x1_0000_0000
    requires forall j :: 0 <= j < |passes| ==>
      && passes[j].denom == denom && passes[j].gen == passes[0].gen + j && p in passes[j].w.disk
      && p in passes[j].known && passes[j].known[p].key == passes[j].w.disk[p].stat && p !in passes[j].suspects
    ensures i < |passes| && forall j :: 0 <= j < |passes| ==> (passes[j].TallyFor(p).skipped == 1 <==> j != i)
  {
    var from := passes[0].gen;
    var gen := DueExactlyOnce(p, from, denom);
    i := gen - from;
    hide IsDue, Truncated;
    forall j | 0 <= j < |passes| ensures passes[j].NeedHash(p) <==> j == i {
      assert from <= passes[j].gen < from + denom;
    }
  }
}
