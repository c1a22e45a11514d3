/**
 The stat gate over whole histories of passes (indexPass of backup/inventory.go): carrying a
 hash forward on an unchanged stat records what reading the file again would have recorded.
 */
module StatGate {
  import opened Basics
  import opened Inventory
  import opened Classes
  import opened FileCheck
  import opened IndexPass
  import opened Snapshots

  /** The one assumption about the disk: a file whose stat key repeats has the same content. */
  ghost predicate HonestStats(ws: seq<World>) {
    forall i, j, p ::
      0 <= i < |ws| && 0 <= j < |ws| && p in ws[i].disk && p in ws[j].disk && ws[i].disk[p].stat == ws[j].disk[p].stat
      ==> ws[i].disk[p].content == ws[j].disk[p].content
  }

  /** In world `w` the file of `k` had the stat and the hash that `rec` says. */
  ghost predicate Attests(h: Hasher, w: World, k: FileKey, rec: FileRec) {
    k.path in w.disk && w.disk[k.path].stat == rec.stat && h.shaOf(w.disk[k.path].content) == k.sha
  }

  /** Every record is attested by some world the table has seen. */
  ghost predicate Attested(h: Hasher, ws: seq<World>, files: FileTable) {
    forall k :: k in files ==> exists i :: 0 <= i < |ws| && Attests(h, ws[i], k, files[k])
  }

  /** A row says what its file's content is now. */
  ghost predicate Truthful(h: Hasher, w: World, r: IndexedRow) {
    r.path in w.disk && r.stat == w.disk[r.path].stat && r.sha == h.shaOf(w.disk[r.path].content)
  }

  lemma RowIsTrue(ps: Pass, ws: seq<World>, files: FileTable, cls: Bytes, p: Bytes)
    requires UsableDenom(ps.denom) && p in ps.w.disk && ps.RowFor(cls, p).Some?
    requires IsCurrent(files, ps.known) && Attested(ps.h, ws, files) && HonestStats(ws + [ps.w])
    ensures Truthful(ps.h, ps.w, ps.RowFor(cls, p).value)
  {
    if !ps.NeedHash(p) {
      var k, all := FileKey(p, ps.known[p].sha), ws + [ps.w];
      assert IsNewest(files, k) && files[k].stat == ps.known[p].key;
      var i :| 0 <= i < |ws| && Attests(ps.h, ws[i], k, files[k]);
      assert all[i] == ws[i] && all[|ws|] == ps.w;
      assert all[i].disk[p].content == all[|ws|].disk[p].content;
    }
  }

  lemma {:induction false} AllRowsTrue(ps: Pass, ws: seq<World>, files: FileTable, cs: seq<AssetClass>)
    requires Walkable(ps.w) && UsableDenom(ps.denom)
    requires IsCurrent(files, ps.known) && Attested(ps.h, ws, files) && HonestStats(ws + [ps.w])
    ensures forall i :: 0 <= i < |ps.AllRows(cs)| ==> Truthful(ps.h, ps.w, ps.AllRows(cs)[i])
  {
    if cs != [] {
      var c := cs[|cs| - 1];
      AllRowsTrue(ps, ws, files, cs[..|cs| - 1]);
      if ps.w.walk(c).Some? {
        var paths := ps.w.walk(c).value;
        assert ListsOnce(ps.w, paths) by { assert ps.w.walk(c) == Some(paths); }
        RowsForPaths(ps, c.slug, paths);
        var rows := ps.RowsFor(c.slug, paths);
        forall i | 0 <= i < |rows| ensures Truthful(ps.h, ps.w, rows[i]) {
          RowIsTrue(ps, ws, files, c.slug, rows[i].path);
        }
      }
    }
  }

  /** Recording true rows keeps the table attested. */
  lemma UpsertKeepsAttested(ps: Pass, ws: seq<World>, files: FileTable, rows: seq<IndexedRow>)
    requires Attested(ps.h, ws, files) && forall i :: 0 <= i < |rows| ==> Truthful(ps.h, ps.w, rows[i])
    ensures Attested(ps.h, ws + [ps.w], Upserted(files, ps.gen, rows))
  {
    var after, all := Upserted(files, ps.gen, rows), ws + [ps.w];
    forall k | k in after ensures exists i :: 0 <= i < |all| && Attests(ps.h, all[i], k, after[k]) {
      UpsertedKey(files, ps.gen, rows, k);
      if Records(rows, k) {
        assert Attests(ps.h, all[|ws|], k, after[k]);
      } else {
        var i :| 0 <= i < |ws| && Attests(ps.h, ws[i], k, files[k]);
        assert all[i] == ws[i];
      }
    }
  }

  /** One pass of a history: what it decided from, and the rows that reached the table. */
  datatype Run = Run(ps: Pass, cs: seq<AssetClass>, done: seq<IndexedRow>)

  /** What RunPass guarantees of one pass, whether it sealed, failed or was cut short. */
  ghost predicate IsRun(h: Hasher, before: FileTable, after: FileTable, run: Run) {
    && run.ps.h == h && Walkable(run.ps.w) && UsableDenom(run.ps.denom)
    && (run.done != [] ==> IsCurrent(before, run.ps.known))
    && run.done <= run.ps.AllRows(run.cs)
    && Progress(before, after, run.ps.gen, run.done)
  }

  /** A table starting empty and the passes that wrote to it. */
  ghost predicate IsHistory(h: Hasher, tables: seq<FileTable>, runs: seq<Run>) {
    && |tables| == |runs| + 1 && tables[0] == map[]
    && forall i :: 0 <= i < |runs| ==> IsRun(h, tables[i], tables[i + 1], runs[i])
  }

  function Worlds(runs: seq<Run>): seq<World> { seq(|runs|, i requires 0 <= i < |runs| => runs[i].ps.w) }

  lemma RunKeepsAttested(h: Hasher, ws: seq<World>, before: FileTable, after: FileTable, run: Run)
    requires IsRun(h, before, after, run) && Attested(h, ws, before) && HonestStats(ws + [run.ps.w])
    ensures Attested(h, ws + [run.ps.w], after)
    ensures forall i :: 0 <= i < |run.done| ==> Truthful(h, run.ps.w, run.done[i])
  {
    if run.done != [] { AllRowsTrue(run.ps, ws, before, run.cs); }
    UpsertKeepsAttested(run.ps, ws, before, run.done);
  }

  lemma {:induction false} HistoryAttested(h: Hasher, tables: seq<FileTable>, runs: seq<Run>)
    requires IsHistory(h, tables, runs) && HonestStats(Worlds(runs))
    ensures Attested(h, Worlds(runs), tables[|runs|])
  {
    if runs != [] {
      var n := |runs| - 1;
      assert Worlds(runs) == Worlds(runs[..n]) + [runs[n].ps.w];
      assert IsRun(h, tables[n], tables[n + 1], runs[n]);
      PrefixHistory(h, tables, runs, n);
      hide HonestStats, IsRun, Attested;
      HistoryAttested(h, tables[..n + 1], runs[..n]);
      RunKeepsAttested(h, Worlds(runs[..n]), tables[n], tables[n + 1], runs[n]);
    }
  }

  /** Over any history every row any pass records carries the hash of its file's content at that pass. */
  lemma {:induction false} EveryRecordedRowIsTrue(h: Hasher, tables: seq<FileTable>, runs: seq<Run>, n: nat, i: nat)
    requires IsHistory(h, tables, runs) && HonestStats(Worlds(runs))
    requires n < |runs| && i < |runs[n].done|
    ensures Truthful(h, runs[n].ps.w, runs[n].done[i])
  {
    PrefixHistory(h, tables, runs, n);
    PrefixHistory(h, tables, runs, n + 1);
    assert Worlds(runs[..n + 1]) == Worlds(runs[..n]) + [runs[n].ps.w];
    assert IsRun(h, tables[n], tables[n + 1], runs[n]);
    hide HonestStats, IsRun, Attested, Truthful;
    HistoryAttested(h, tables[..n + 1], runs[..n]);
    RunKeepsAttested(h, Worlds(runs[..n]), tables[n], tables[n + 1], runs[n]);
  }

  lemma PrefixHistory(h: Hasher, tables: seq<FileTable>, runs: seq<Run>, n: nat)
    requires IsHistory(h, tables, runs) && n <= |runs| && HonestStats(Worlds(runs))
    ensures IsHistory(h, tables[..n + 1], runs[..n]) && HonestStats(Worlds(runs[..n]))
  {
    var ws, vs := Worlds(runs), Worlds(runs[..n]);
    assert forall i :: 0 <= i < n ==> vs[i] == ws[i];
    forall i | 0 <= i < n ensures IsRun(h, tables[..n + 1][i], tables[..n + 1][i + 1], runs[..n][i]) {
      assert IsRun(h, tables[i], tables[i + 1], runs[i]);
    }
  }

  /** For a file that can be read, the gate records exactly what a pass that knows nothing would. */
  lemma {:induction false} GateEqualsReread(h: Hasher, tables: seq<FileTable>, runs: seq<Run>, ps: Pass, cls: Bytes,
                                            p: Bytes)
    requires IsHistory(h, tables, runs) && |tables| > |runs| && ps.h == h && UsableDenom(ps.denom)
    requires HonestStats(Worlds(runs) + [ps.w])
    requires IsCurrent(tables[|runs|], ps.known) && p in ps.w.disk && ps.w.disk[p].readable
    ensures ps.RowFor(cls, p) == ps.(known := map[]).RowFor(cls, p)
  {
    HonestBefore(Worlds(runs), ps.w);
    ReadableRow(ps, cls, p);
    hide HonestStats, Attested, IsCurrent, IsHistory, Worlds, Pass.RowFor;
    HistoryAttested(h, tables, runs);
    RowIsTrue(ps, Worlds(runs), tables[|runs|], cls, p);
  }

  lemma ReadableRow(ps: Pass, cls: Bytes, p: Bytes)
    requires UsableDenom(ps.denom) && p in ps.w.disk && ps.w.disk[p].readable
    ensures ps.RowFor(cls, p).Some? && ps.RowFor(cls, p).value.path == p && ps.RowFor(cls, p).value.cls == cls
    ensures ps.(known := map[]).RowFor(cls, p) ==
      Some(IndexedRow(p, cls, ps.h.shaOf(ps.w.disk[p].content), ps.w.disk[p].stat))
  {
  }

  lemma HonestBefore(ws: seq<World>, w: World)
    requires HonestStats(ws + [w])
    ensures HonestStats(ws)
  {
    var all := ws + [w];
    assert forall i :: 0 <= i < |ws| ==> ws[i] == all[i];
  }

  /** After a finished pass a walked file is suspect exactly if this pass read it and flagged it. */
  lemma SuspectIffFlagged(table: map<Bytes, nat>, ps: Pass, cs: seq<AssetClass>, p: Bytes)
    requires Walkable(ps.w) && UsableDenom(ps.denom) && SuspectsTrack(table, ps, Walked(ps.w, cs))
    requires p in Walked(ps.w, cs)
    ensures p in ps.w.disk && (p in table <==> ps.Flags(p))
  {
    WalkedOnDisk(ps.w, cs, p);
  }

  lemma {:induction false} WalkedOnDisk(w: World, cs: seq<AssetClass>, p: Bytes)
    requires Walkable(w) && p in Walked(w, cs)
    ensures p in w.disk
  {
    var c := cs[|cs| - 1];
    if p in Walked(w, cs[..|cs| - 1]) {
      WalkedOnDisk(w, cs[..|cs| - 1], p);
    } else {
      assert ListsOnce(w, w.walk(c).value) by { assert w.walk(c) == Some(w.walk(c).value); }
    }
  }

  /** The pass after one that recorded a row compares the file's stat with that row's, and would carry its hash. */
  lemma {:induction false} NextPassKnows(files: FileTable, gen: nat, rows: seq<IndexedRow>,
                                         known: map<Bytes, KnownFile>, i: nat)
    requires (forall k :: k in files ==> files[k].lastGen < gen) && DistinctRowPaths(rows) && i < |rows|
    requires IsCurrent(Upserted(files, gen, rows), known)
    ensures rows[i].path in known && known[rows[i].path] == KnownFile(rows[i].stat, rows[i].sha)
  {
    var after, k := Upserted(files, gen, rows), KeyOf(rows[i]);
    UpsertedKey(files, gen, rows, k);
    assert Records(rows, k);
    hide Upserted;
    assert k in after && k.path in known;
    var newest := FileKey(k.path, known[k.path].sha);
    UpsertedKey(files, gen, rows, newest);
    assert IsNewest(after, newest) && after[newest].stat == known[k.path].key;
    assert after[newest].lastGen >= gen;
    var j :| 0 <= j < |rows| && KeyOf(rows[j]) == newest && after[newest].stat == rows[j].stat;
    assert j == i;
  }

  // ---- The headline counts ----------------------------------------------

  /** The files among `paths` that this pass found damaged. */
  ghost function FlaggedOf(ps: Pass, paths: seq<Bytes>): set<Bytes>
    requires UsableDenom(ps.denom)
  {
    set p | p in paths && p in ps.w.disk && ps.Flags(p)
  }

  /** The files among `paths` that were suspect and are whole. */
  ghost function ClearedOf(ps: Pass, paths: seq<Bytes>): set<Bytes>
    requires UsableDenom(ps.denom)
  {
    set p | p in paths && p in ps.suspects && p in ps.w.disk && !ps.Flags(p)
  }

  /** The counts reported of a class are the numbers of files that entered, stayed on and left the suspect list. */
  lemma {:induction false} TallyCountsSuspects(ps: Pass, paths: seq<Bytes>)
    requires ListsOnce(ps.w, paths) && UsableDenom(ps.denom)
    ensures ps.TallyOver(paths).suspect == |FlaggedOf(ps, paths)|
    ensures ps.TallyOver(paths).cleared == |ClearedOf(ps, paths)|
  {
    if paths != [] {
      var init, p := paths[..|paths| - 1], paths[|paths| - 1];
      assert paths == init + [p];
      TallyCountsSuspects(ps, init);
      TallyOfOne(ps, p);
      OneMoreFile(ps, init, p);
      hide Pass.Flags, Pass.TallyFor, Pass.NeedHash, FlaggedOf, ClearedOf;
    }
  }

  lemma OneMoreFile(ps: Pass, init: seq<Bytes>, p: Bytes)
    requires p in ps.w.disk && UsableDenom(ps.denom) && p !in init
    ensures |FlaggedOf(ps, init + [p])| == |FlaggedOf(ps, init)| + if ps.Flags(p) then 1 else 0
    ensures |ClearedOf(ps, init + [p])| == |ClearedOf(ps, init)| + if p in ps.suspects && !ps.Flags(p) then 1 else 0
  {
    OneMoreFlagged(ps, init, p);
    OneMoreCleared(ps, init, p);
    hide Pass.Flags, FlaggedOf, ClearedOf;
  }

  lemma OneMoreFlagged(ps: Pass, init: seq<Bytes>, p: Bytes)
    requires p in ps.w.disk && UsableDenom(ps.denom) && p !in init
    ensures p !in FlaggedOf(ps, init)
    ensures FlaggedOf(ps, init + [p]) == FlaggedOf(ps, init) + if ps.Flags(p) then {p} else {}
  {
    hide Pass.Flags;
  }

  lemma OneMoreCleared(ps: Pass, init: seq<Bytes>, p: Bytes)
    requires p in ps.w.disk && UsableDenom(ps.denom) && p !in init
    ensures p !in ClearedOf(ps, init)
    ensures ClearedOf(ps, init + [p]) == ClearedOf(ps, init) + if p in ps.suspects && !ps.Flags(p) then {p} else {}
  {
    hide Pass.Flags;
  }

  lemma TallyOfOne(ps: Pass, p: Bytes)
    requires p in ps.w.disk && UsableDenom(ps.denom)
    ensures ps.TallyFor(p).suspect == if ps.Flags(p) then 1 else 0
    ensures ps.TallyFor(p).cleared == if p in ps.suspects && !ps.Flags(p) then 1 else 0
  {
  }

  // ---- Suspects over many passes ---------------------------------------

  /** A pass and the classes it walked. */
  datatype Visit = Visit(ps: Pass, cs: seq<AssetClass>)

  /** Finished passes in a row, each of which could read the suspect list the one before left. */
  ghost predicate IsWatch(tables: seq<map<Bytes, nat>>, visits: seq<Visit>) {
    |tables| == |visits| + 1 && forall i :: 0 <= i < |visits| ==> IsVisit(tables[i], visits[i], tables[i + 1])
  }

  ghost predicate IsVisit(before: map<Bytes, nat>, v: Visit, after: map<Bytes, nat>) {
    && Walkable(v.ps.w) && UsableDenom(v.ps.denom)
    && v.ps.suspects == before.Keys && SuspectsTrack(after, v.ps, Walked(v.ps.w, v.cs))
  }

  /** The file is there and cannot be read whole. */
  predicate Damaged(v: Visit, p: Bytes) {
    p in v.ps.w.disk && (
      !v.ps.w.disk[p].readable || Truncated(v.ps.h, v.ps.w.disk[p].content, v.ps.w.disk[p].stat.size, p))
  }

  /**
   Once flagged, a file is read by every pass, whether or not its stat moves or its turn has
   come: it stays suspect through every pass that finds it damaged and is cleared by the first
   that finds it whole.
   */
  lemma {:induction false} SuspectUntilWhole(tables: seq<map<Bytes, nat>>, visits: seq<Visit>, p: Bytes, n: nat)
    requires IsWatch(tables, visits) && 0 < n <= |visits|
    requires forall i :: 0 <= i < n ==> p in Walked(visits[i].ps.w, visits[i].cs)
    requires p in visits[0].ps.w.disk && UsableDenom(visits[0].ps.denom) && visits[0].ps.NeedHash(p)
    requires forall i :: 0 <= i < n - 1 ==> Damaged(visits[i], p)
    ensures p in tables[n] <==> Damaged(visits[n - 1], p)
  {
    var v := visits[n - 1];
    assert IsVisit(tables[n - 1], v, tables[n - 1 + 1]);
    SuspectIffFlagged(tables[n], v.ps, v.cs, p);
    if n > 1 {
      SuspectUntilWhole(tables, visits, p, n - 1);
      assert v.ps.NeedHash(p);
    }
  }
}
