/** indexPass of backup/inventory.go: the stat-gated walk that records one generation. */
module IndexPass {
  import opened Basics
  import opened Inventory
  import opened Classes
  import opened FileCheck

  datatype DiskFile = DiskFile(stat: StatKey, content: Bytes, readable: bool)

  /** The assets during one pass; `walk` is walkClass, None where the walk fails. */
  datatype World = World(disk: map<Bytes, DiskFile>, walk: AssetClass -> Option<seq<Bytes>>)

  /** A walk lists files that are there, each once. */
  ghost predicate Walkable(w: World) {
    forall c, ps {:trigger w.walk(c), Some(ps)} :: w.walk(c) == Some(ps) ==> ListsOnce(w, ps)
  }

  ghost predicate ListsOnce(w: World, ps: seq<Bytes>) {
    (forall i :: 0 <= i < |ps| ==> ps[i] in w.disk) && (forall i, j :: 0 <= i < j < |ps| ==> ps[i] != ps[j])
  }

  /** Files read, carried forward, flagged and cleared. */
  datatype Tally = Tally(hashed: nat, skipped: nat, suspect: nat, cleared: nat) {
    function Plus(t: Tally): Tally {
      Tally(hashed + t.hashed, skipped + t.skipped, suspect + t.suspect, cleared + t.cleared)
    }
  }

  /** Everything one pass decides from. */
  datatype Pass = Pass(h: Hasher, w: World, gen: nat, denom: int, known: map<Bytes, KnownFile>, suspects: set<Bytes>) {

    predicate NeedHash(p: Bytes)
      requires p in w.disk && UsableDenom(denom)
    {
      p !in known || known[p].key != w.disk[p].stat || p in suspects || IsDue(p, gen, denom)
    }

    /** This pass reads the file and finds it unreadable or damaged. */
    predicate Flags(p: Bytes)
      requires p in w.disk && UsableDenom(denom)
    {
      NeedHash(p) && (!w.disk[p].readable || Truncated(h, w.disk[p].content, w.disk[p].stat.size, p))
    }

    /** What is recorded for one file, if anything. */
    function RowFor(cls: Bytes, p: Bytes): Option<IndexedRow>
      requires p in w.disk && UsableDenom(denom)
    {
      var f := w.disk[p];
      if !NeedHash(p) then Some(IndexedRow(p, cls, known[p].sha, f.stat))
      else if !f.readable then None
      else Some(IndexedRow(p, cls, h.shaOf(f.content), f.stat))
    }

    function RowsFor(cls: Bytes, ps: seq<Bytes>): seq<IndexedRow>
      requires (forall i :: 0 <= i < |ps| ==> ps[i] in w.disk) && UsableDenom(denom)
    {
      if ps == [] then []
      else
        var init := RowsFor(cls, ps[..|ps| - 1]);
        match RowFor(cls, ps[|ps| - 1])
        case None => init
        case Some(r) => init + [r]
    }

    /** How one file is counted. */
    function TallyFor(p: Bytes): Tally
      requires p in w.disk && UsableDenom(denom)
    {
      if !NeedHash(p) then Tally(0, 1, 0, 0)
      else if !w.disk[p].readable then Tally(0, 0, 1, 0)
      else if Truncated(h, w.disk[p].content, w.disk[p].stat.size, p) then Tally(1, 0, 1, 0)
      else Tally(1, 0, 0, if p in suspects then 1 else 0)
    }

    function TallyOver(ps: seq<Bytes>): Tally
      requires (forall i :: 0 <= i < |ps| ==> ps[i] in w.disk) && UsableDenom(denom)
    {
      if ps == [] then Tally(0, 0, 0, 0) else TallyOver(ps[..|ps| - 1]).Plus(TallyFor(ps[|ps| - 1]))
    }

    ghost function ClassTally(c: AssetClass): Tally
      requires Walkable(w) && UsableDenom(denom)
    {
      match w.walk(c)
      case None => Tally(0, 0, 0, 0)
      case Some(ps) => assert ListsOnce(w, ps); TallyOver(ps)
    }

    ghost function TallyOfAll(cs: seq<AssetClass>): Tally
      requires Walkable(w) && UsableDenom(denom)
    {
      if cs == [] then Tally(0, 0, 0, 0) else TallyOfAll(cs[..|cs| - 1]).Plus(ClassTally(cs[|cs| - 1]))
    }

    ghost function ClassRows(c: AssetClass): seq<IndexedRow>
      requires Walkable(w) && UsableDenom(denom)
    {
      match w.walk(c)
      case None => []
      case Some(ps) => assert ListsOnce(w, ps); RowsFor(c.slug, ps)
    }

    /** Every row the pass records, class by class. */
    ghost function AllRows(cs: seq<AssetClass>): seq<IndexedRow>
      requires Walkable(w) && UsableDenom(denom)
    {
      if cs == [] then [] else AllRows(cs[..|cs| - 1]) + ClassRows(cs[|cs| - 1])
    }
  }

  function TotalSize(rows: seq<IndexedRow>): nat {
    if rows == [] then 0 else TotalSize(rows[..|rows| - 1]) + rows[|rows| - 1].stat.size
  }

  lemma {:induction false} TotalSizeConcat(a: seq<IndexedRow>, b: seq<IndexedRow>)
    ensures TotalSize(a + b) == TotalSize(a) + TotalSize(b)
  {
    if b == [] {
      assert a + b == a;
    } else {
      TotalSizeConcat(a, b[..|b| - 1]);
      assert (a + b)[..|a + b| - 1] == a + b[..|b| - 1];
    }
  }

  /** The rows of one class have the paths walked, each once. */
  lemma {:induction false} RowsForPaths(ps: Pass, cls: Bytes, paths: seq<Bytes>)
    requires ListsOnce(ps.w, paths) && UsableDenom(ps.denom)
    ensures var rows := ps.RowsFor(cls, paths);
      && (forall i :: 0 <= i < |rows| ==>
          rows[i].path in paths && rows[i].cls == cls && Some(rows[i]) == ps.RowFor(cls, rows[i].path))
      && (forall i, j :: 0 <= i < j < |rows| ==> rows[i].path != rows[j].path)
      && (forall p :: p in paths && ps.RowFor(cls, p).Some? ==> ps.RowFor(cls, p).value in rows)
  {
    if paths != [] {
      var init, p := paths[..|paths| - 1], paths[|paths| - 1];
      assert paths == init + [p];
      RowsForPaths(ps, cls, init);
    }
  }

  datatype IndexResult = IndexResult(files: nat, bytes: nat, hashed: nat, skipped: nat, suspect: nat, cleared: nat,
                                     perClass: map<Bytes, ClassTotal>)

  function TallyOf(res: IndexResult): Tally { Tally(res.hashed, res.skipped, res.suspect, res.cleared) }

  /** A file counted as read or carried forward is a file with a row. */
  lemma {:induction false} TallyMatchesRows(ps: Pass, cls: Bytes, paths: seq<Bytes>)
    requires ListsOnce(ps.w, paths) && UsableDenom(ps.denom)
    ensures var t := ps.TallyOver(paths); t.hashed + t.skipped == |ps.RowsFor(cls, paths)|
  {
    if paths != [] { TallyMatchesRows(ps, cls, paths[..|paths| - 1]); }
  }

  /** What the suspect table must say once the files of `seen` have been dealt with. */
  ghost predicate SuspectsTrack(table: map<Bytes, nat>, ps: Pass, seen: set<Bytes>)
    requires UsableDenom(ps.denom)
  {
    forall p :: p in table <==> if p in seen then p in ps.w.disk && ps.Flags(p) else p in ps.suspects
  }

  const BATCH := 512

  /** One file of the walk: read it or carry it forward, and keep the suspect table current. */
  method IndexFile(st: InventoryStore, ps: Pass, cls: Bytes, p: Bytes, res: IndexResult, ghost seen: set<Bytes>)
    returns (row: Option<IndexedRow>, res': IndexResult)
    requires p in ps.w.disk && UsableDenom(ps.denom)
    modifies st`suspect
    ensures row == ps.RowFor(cls, p)
    ensures TallyOf(res') == TallyOf(res).Plus(ps.TallyFor(p))
    ensures res'.perClass == res.perClass && res'.files == res.files && res'.bytes == res.bytes
    ensures old(SuspectsTrack(st.suspect, ps, seen)) ==> SuspectsTrack(st.suspect, ps, seen + {p})
  {
    var f := ps.w.disk[p];
    var due := RehashDue(p, ps.gen, ps.denom);
    var needHash := p !in ps.known || ps.known[p].key != f.stat || p in ps.suspects || due;
    if !needHash {
      return Some(IndexedRow(p, cls, ps.known[p].sha, f.stat)), res.(skipped := res.skipped + 1);
    }
    if !f.readable {
      st.NoteSuspect(p);
      return None, res.(suspect := res.suspect + 1);
    }
    var sum, truncated := HashFile(ps.h, f.content, f.stat.size, p);
    res' := res.(hashed := res.hashed + 1);
    if truncated {
      st.NoteSuspect(p);
      res' := res'.(suspect := res'.suspect + 1);
    } else if p in ps.suspects {
      st.ClearSuspect(p);
      res' := res'.(cleared := res'.cleared + 1);
    }
    row := Some(IndexedRow(p, cls, sum, f.stat));
  }

  /** Where an interrupted or finished pass has got to: `done` is what reached the table. */
  ghost predicate Progress(before: FileTable, now: FileTable, gen: nat, done: seq<IndexedRow>) {
    now == Upserted(before, gen, done)
  }

  function PathSet(paths: seq<Bytes>): set<Bytes> { set p | p in paths }

  function Totals(rows: seq<IndexedRow>): ClassTotal { ClassTotal(|rows|, TotalSize(rows)) }

  function AsRows(row: Option<IndexedRow>): seq<IndexedRow> { match row case None => [] case Some(r) => [r] }

  lemma NextPath(paths: seq<Bytes>, i: nat)
    requires i < |paths|
    ensures PathSet(paths[..i + 1]) == PathSet(paths[..i]) + {paths[i]}
  {
    assert paths[..i + 1] == paths[..i] + [paths[i]];
  }

  lemma {:induction false} NextFile(ps: Pass, cls: Bytes, paths: seq<Bytes>, i: nat)
    requires ListsOnce(ps.w, paths) && UsableDenom(ps.denom) && i < |paths|
    ensures var row := ps.RowFor(cls, paths[i]);
      && ps.RowsFor(cls, paths[..i + 1]) == ps.RowsFor(cls, paths[..i]) + AsRows(row)
      && Totals(ps.RowsFor(cls, paths[..i + 1])) == (
        var t := Totals(ps.RowsFor(cls, paths[..i]));
        match row case None => t case Some(r) => ClassTotal(t.files + 1, t.bytes + r.stat.size))
    ensures ps.TallyOver(paths[..i + 1]) == ps.TallyOver(paths[..i]).Plus(ps.TallyFor(paths[i]))
  {
    hide Pass.RowFor, Pass.TallyFor;
    assert paths[..i + 1][..i] == paths[..i];
    var init, row := ps.RowsFor(cls, paths[..i]), ps.RowFor(cls, paths[i]);
    if row.Some? { assert (init + [row.value])[..|init|] == init; }
  }

  lemma FirstRowsOf(ps: Pass, cls: Bytes, paths: seq<Bytes>, i: nat)
    requires ListsOnce(ps.w, paths) && UsableDenom(ps.denom) && i <= |paths|
    ensures ps.RowsFor(cls, paths[..i]) <= ps.RowsFor(cls, paths)
    decreases |paths| - i
  {
    if i < |paths| {
      FirstRowsOf(ps, cls, paths, i + 1);
      NextFile(ps, cls, paths, i);
    } else {
      assert paths[..i] == paths;
    }
  }

  /** One class of the walk. `done` is what had reached the table before it. */
  method IndexClass(st: InventoryStore, ps: Pass, cls: Bytes, paths: seq<Bytes>, res: IndexResult,
                    ghost before: FileTable, ghost done: seq<IndexedRow>, ghost seen: set<Bytes>)
    returns (ok: bool, res': IndexResult, ct: ClassTotal, ghost done': seq<IndexedRow>)
    requires st.ReadyFor(ps.gen)
    requires ListsOnce(ps.w, paths) && UsableDenom(ps.denom)
    requires Progress(before, st.files, ps.gen, done)
    modifies st`files, st`suspect
    ensures st.ReadyFor(ps.gen)
    ensures Progress(before, st.files, ps.gen, done') && done <= done' <= done + ps.RowsFor(cls, paths)
    ensures ok ==> done' == done + ps.RowsFor(cls, paths) && ct == Totals(ps.RowsFor(cls, paths))
    ensures ok ==> TallyOf(res') == TallyOf(res).Plus(ps.TallyOver(paths))
    ensures res'.perClass == res.perClass && res'.files == res.files && res'.bytes == res.bytes
    ensures ok && old(SuspectsTrack(st.suspect, ps, seen)) ==> SuspectsTrack(st.suspect, ps, seen + PathSet(paths))
  {
    hide Progress, SuspectsTrack, Pass.RowsFor, Pass.RowFor, Pass.TallyFor, Pass.TallyOver, Tally.Plus, TallyOf,
      PathSet, Totals;
    PlusNothing(TallyOf(res));
    res', ct, ok, done' := res, ClassTotal(0, 0), true, done;
    var batch: seq<IndexedRow> := [];
    var i := 0;
    NothingYet(ps, cls, paths, seen);
    assert done + [] == done;
    while i < |paths|
      invariant i <= |paths| && st.ReadyFor(ps.gen)
      invariant Progress(before, st.files, ps.gen, done') && done <= done' <= done + ps.RowsFor(cls, paths)
      invariant done' + batch == done + ps.RowsFor(cls, paths[..i])
      invariant ct == Totals(ps.RowsFor(cls, paths[..i]))
      invariant TallyOf(res') == TallyOf(res).Plus(ps.TallyOver(paths[..i]))
      invariant res'.perClass == res.perClass && res'.files == res.files && res'.bytes == res.bytes
      invariant old(SuspectsTrack(st.suspect, ps, seen)) ==> SuspectsTrack(st.suspect, ps, seen + PathSet(paths[..i]))
    {
      var row;
      row, res' := IndexFile(st, ps, cls, paths[i], res', seen + PathSet(paths[..i]));
      NextFile(ps, cls, paths, i);
      NextPath(paths, i);
      BatchStep(done, done', batch, ps.RowsFor(cls, paths[..i]), row);
      PlusAssociates(TallyOf(res), ps.TallyOver(paths[..i]), ps.TallyFor(paths[i]));
      assert seen + PathSet(paths[..i]) + {paths[i]} == seen + PathSet(paths[..i + 1]);
      i := i + 1;
      if row.Some? {
        ct := ClassTotal(ct.files + 1, ct.bytes + row.value.stat.size);
        batch := batch + [row.value];
        if |batch| >= BATCH {
          ok, done' := Flush(st, ps, cls, paths, i, batch, before, done, done');
          if !ok {
            return;
          }
          batch := [];
        }
      }
    }
    assert paths[..i] == paths;
    if |batch| > 0 {
      ok, done' := Flush(st, ps, cls, paths, i, batch, before, done, done');
    }
  }

  lemma BatchStep(start: seq<IndexedRow>, done: seq<IndexedRow>, batch: seq<IndexedRow>, rows: seq<IndexedRow>,
                  row: Option<IndexedRow>)
    requires done + batch == start + rows
    ensures done + (if row.Some? then batch + [row.value] else batch) == start + (rows + AsRows(row))
  {
    assert batch + AsRows(row) == if row.Some? then batch + [row.value] else batch;
    assert done + (batch + AsRows(row)) == done + batch + AsRows(row);
    assert start + (rows + AsRows(row)) == start + rows + AsRows(row);
  }

  lemma PlusAssociates(a: Tally, b: Tally, c: Tally)
    ensures a.Plus(b).Plus(c) == a.Plus(b.Plus(c))
  {
  }

  lemma PlusNothing(a: Tally)
    ensures a.Plus(Tally(0, 0, 0, 0)) == a
  {
  }

  lemma NothingYet(ps: Pass, cls: Bytes, paths: seq<Bytes>, seen: set<Bytes>)
    requires UsableDenom(ps.denom)
    ensures ps.RowsFor(cls, paths[..0]) == [] && ps.TallyOver(paths[..0]) == Tally(0, 0, 0, 0)
    ensures Totals([]) == ClassTotal(0, 0) && seen + PathSet(paths[..0]) == seen
  {
  }

  lemma BatchIsDistinct(ps: Pass, cls: Bytes, paths: seq<Bytes>, i: nat, batch: seq<IndexedRow>, start: seq<IndexedRow>,
                        done: seq<IndexedRow>)
    requires ListsOnce(ps.w, paths) && UsableDenom(ps.denom) && i <= |paths|
    requires start <= done && done + batch == start + ps.RowsFor(cls, paths[..i])
    ensures DistinctKeys(batch)
  {
    hide Pass.RowFor;
    RowsForPaths(ps, cls, paths[..i]);
    var rows, n := ps.RowsFor(cls, paths[..i]), |done| - |start|;
    forall a | 0 <= a < |batch| ensures batch[a] == rows[n + a] {
      assert batch[a] == (done + batch)[|done| + a] == (start + rows)[|done| + a];
    }
  }

  /** Sends one batch. */
  method Flush(st: InventoryStore, ps: Pass, cls: Bytes, paths: seq<Bytes>, i: nat, batch: seq<IndexedRow>,
               ghost before: FileTable, ghost start: seq<IndexedRow>, ghost done: seq<IndexedRow>)
    returns (ok: bool, ghost done': seq<IndexedRow>)
    requires st.ReadyFor(ps.gen)
    requires ListsOnce(ps.w, paths) && UsableDenom(ps.denom) && i <= |paths|
    requires Progress(before, st.files, ps.gen, done) && start <= done
    requires done + batch == start + ps.RowsFor(cls, paths[..i])
    modifies st`files
    ensures st.ReadyFor(ps.gen)
    ensures Progress(before, st.files, ps.gen, done')
    ensures done' == (if ok then done + batch else done) && start <= done' <= start + ps.RowsFor(cls, paths)
  {
    BatchIsDistinct(ps, cls, paths, i, batch, start, done);
    hide Pass.RowsFor, Pass.RowFor, Upserted;
    FirstRowsOf(ps, cls, paths, i);
    ghost var pre, all := ps.RowsFor(cls, paths[..i]), ps.RowsFor(cls, paths);
    assert start + all == done + batch + all[|pre|..];
    UpsertedConcat(before, ps.gen, done, batch);
    ok := st.UpsertFiles(ps.gen, batch);
    done' := if ok then done + batch else done;
  }

  /** Generations that existed before a pass are not touched by it. */
  ghost predicate OthersKept(before: map<nat, Generation>, now: map<nat, Generation>) {
    forall g :: g in before ==> g in now && now[g] == before[g]
  }

  ghost function Walked(w: World, cs: seq<AssetClass>): set<Bytes> {
    if cs == [] then {}
    else
      Walked(w, cs[..|cs| - 1]) + match w.walk(cs[|cs| - 1]) case None => {} case Some(paths) => PathSet(paths)
  }

  /** The per-class totals of a pass, in its result and in class_stats. */
  ghost predicate TotalsKept(ps: Pass, cs: seq<AssetClass>, perClass: map<Bytes, ClassTotal>,
                             stats: map<(nat, Bytes), ClassTotal>)
    requires Walkable(ps.w) && UsableDenom(ps.denom)
  {
    && (forall s :: s in perClass <==> HasSlug(cs, s))
    && (forall s :: (ps.gen, s) in stats <==> s in perClass)
    && (forall s :: s in perClass ==> stats[(ps.gen, s)] == perClass[s])
    && (DistinctSlugs(cs) ==> TotalsTrue(ps, cs, perClass))
  }

  ghost predicate TotalsTrue(ps: Pass, cs: seq<AssetClass>, perClass: map<Bytes, ClassTotal>)
    requires Walkable(ps.w) && UsableDenom(ps.denom)
  {
    forall i :: 0 <= i < |cs| ==>
      && cs[i].slug in perClass && perClass[cs[i].slug].files == |ps.ClassRows(cs[i])|
      && perClass[cs[i].slug].bytes == TotalSize(ps.ClassRows(cs[i]))
  }

  /** The totals of other generations stay as they were. */
  ghost predicate OtherStatsKept(before: map<(nat, Bytes), ClassTotal>, now: map<(nat, Bytes), ClassTotal>, gen: nat) {
    forall k: (nat, Bytes) :: k.0 != gen ==> (k in now <==> k in before) && (k in before ==> now[k] == before[k])
  }

  /** The headline numbers of a pass. */
  ghost predicate Counted(ps: Pass, cs: seq<AssetClass>, res: IndexResult, done: seq<IndexedRow>)
    requires Walkable(ps.w) && UsableDenom(ps.denom)
  {
    && res.files == |done| && res.bytes == TotalSize(done)
    && res.hashed + res.skipped == res.files && TallyOf(res) == ps.TallyOfAll(cs)
  }

  /** One turn of the class loop: walk, index, total. */
  method WalkClass(st: InventoryStore, ps: Pass, cs: seq<AssetClass>, i: nat, res: IndexResult, ghost before: FileTable,
                   ghost done: seq<IndexedRow>)
    returns (ok: bool, res': IndexResult, ghost done': seq<IndexedRow>)
    requires st.ReadyFor(ps.gen) && Walkable(ps.w) && UsableDenom(ps.denom) && i < |cs|
    requires Progress(before, st.files, ps.gen, done) && done == ps.AllRows(cs[..i]) && Counted(ps, cs[..i], res, done)
    requires TotalsKept(ps, cs[..i], res.perClass, st.classStats)
    modifies st`files, st`suspect, st`classStats
    ensures st.ReadyFor(ps.gen) && Progress(before, st.files, ps.gen, done') && done' <= ps.AllRows(cs[..i + 1])
    ensures ok ==> done' == ps.AllRows(cs[..i + 1]) && Counted(ps, cs[..i + 1], res', done')
    ensures ok ==> TotalsKept(ps, cs[..i + 1], res'.perClass, st.classStats)
    ensures ok && old(SuspectsTrack(st.suspect, ps, Walked(ps.w, cs[..i]))) ==>
      SuspectsTrack(st.suspect, ps, Walked(ps.w, cs[..i + 1]))
    ensures OtherStatsKept(old(st.classStats), st.classStats, ps.gen)
  {
    hide Progress, SuspectsTrack, TotalsKept, Pass.RowsFor, Pass.TallyOver, TotalSize;
    assert cs[..i + 1][..i] == cs[..i];
    var c := cs[i];
    var paths := ps.w.walk(c);
    if paths.None? {
      return false, res, done;
    }
    assert ListsOnce(ps.w, paths.value);
    var ct;
    ok, res', ct, done' := IndexClass(st, ps, c.slug, paths.value, res, before, done, Walked(ps.w, cs[..i]));
    if !ok {
      return;
    }
    TotalSizeConcat(done, ps.RowsFor(c.slug, paths.value));
    TallyMatchesRows(ps, c.slug, paths.value);
    AddClassTotal(ps, cs, i, res'.perClass, st.classStats, ct);
    ok := st.RecordClassTotal(ps.gen, c.slug, ct);
    res' :=
        res'.(perClass := res'.perClass[c.slug := ct], files := res'.files + ct.files, bytes := res'.bytes + ct.bytes);
  }

  lemma AddClassTotal(ps: Pass, cs: seq<AssetClass>, i: nat, perClass: map<Bytes, ClassTotal>,
                      stats: map<(nat, Bytes), ClassTotal>, ct: ClassTotal)
    requires Walkable(ps.w) && UsableDenom(ps.denom) && i < |cs|
    requires TotalsKept(ps, cs[..i], perClass, stats) && ct == Totals(ps.ClassRows(cs[i]))
    ensures TotalsKept(ps, cs[..i + 1], perClass[cs[i].slug := ct], stats[(ps.gen, cs[i].slug) := ct])
  {
    hide HasSlug, TotalsTrue, DistinctSlugs, Totals, Pass.ClassRows;
    var a, b := cs[..i], cs[..i + 1];
    forall s ensures HasSlug(b, s) <==> HasSlug(a, s) || cs[i].slug == s { SlugStep(cs, i, s); }
    if DistinctSlugs(b) {
      assert b[..i] == a && b[i] == cs[i];
      FewerDistinct(b);
      AddClassTrue(ps, b, perClass, ct);
    }
  }

  lemma FewerDistinct(cs: seq<AssetClass>)
    requires cs != [] && DistinctSlugs(cs)
    ensures DistinctSlugs(cs[..|cs| - 1])
  {
  }

  lemma AddClassTrue(ps: Pass, cs: seq<AssetClass>, perClass: map<Bytes, ClassTotal>, ct: ClassTotal)
    requires Walkable(ps.w) && UsableDenom(ps.denom) && cs != [] && DistinctSlugs(cs)
    requires TotalsTrue(ps, cs[..|cs| - 1], perClass) && ct == Totals(ps.ClassRows(cs[|cs| - 1]))
    ensures TotalsTrue(ps, cs, perClass[cs[|cs| - 1].slug := ct])
  {
    hide Pass.ClassRows, TotalSize;
  }

  /** The class loop, which stops at the first failure or when the run is cancelled. */
  method WalkClasses(st: InventoryStore, ps: Pass, cs: seq<AssetClass>)
    returns (ok: bool, res: IndexResult, ghost done: seq<IndexedRow>)
    requires st.ReadyFor(ps.gen) && Walkable(ps.w) && UsableDenom(ps.denom)
    requires forall k :: k in st.classStats ==> k.0 != ps.gen
    modifies st`files, st`suspect, st`classStats
    ensures st.ReadyFor(ps.gen) && Progress(old(st.files), st.files, ps.gen, done) && done <= ps.AllRows(cs)
    ensures ok ==>
      done == ps.AllRows(cs) && Counted(ps, cs, res, done) && TotalsKept(ps, cs, res.perClass, st.classStats)
    ensures ok && ps.suspects == old(st.suspect).Keys ==> SuspectsTrack(st.suspect, ps, Walked(ps.w, cs))
    ensures OtherStatsKept(old(st.classStats), st.classStats, ps.gen)
  {
    hide Progress, SuspectsTrack, TotalsKept, Counted, Pass.AllRows, Walked;
    NothingDone(st.files);
    NoClassesYet(ps, st.suspect);
    ghost var before := st.files;
    ok, res, done := true, IndexResult(0, 0, 0, 0, 0, 0, map[]), [];
    assert cs[..0] == [];
    var i := 0;
    while i < |cs|
      invariant i <= |cs| && st.ReadyFor(ps.gen)
      invariant Progress(before, st.files, ps.gen, done) && done == ps.AllRows(cs[..i])
      invariant Counted(ps, cs[..i], res, done)
      invariant TotalsKept(ps, cs[..i], res.perClass, st.classStats)
      invariant ps.suspects == old(st.suspect).Keys ==> SuspectsTrack(st.suspect, ps, Walked(ps.w, cs[..i]))
      invariant OtherStatsKept(old(st.classStats), st.classStats, ps.gen)
    {
      PrefixOfAllRows(ps, cs, i);
      PrefixOfAllRows(ps, cs, i + 1);
      if * {
        ok := false;
        return;
      }
      ok, res, done := WalkClass(st, ps, cs, i, res, before, done);
      if !ok {
        return;
      }
      i := i + 1;
    }
    assert cs[..i] == cs;
  }

  /** Opens a generation and reads what the pass will compare against. */
  method BeginPass(st: InventoryStore, h: Hasher, w: World, denom: int) returns (ok: bool, pass: Pass)
    requires st.Valid()
    modifies st`generations, st`lastId
    ensures st.Valid() && st.lastId >= old(st.lastId) && OthersKept(old(st.generations), st.generations)
    ensures pass.h == h && pass.w == w && pass.denom == denom && (pass.gen == 0 || pass.gen > old(st.lastId))
    ensures forall g :: g in st.generations && g !in old(st.generations) ==>
      st.generations[g] == Generation(false, 0, 0, 0, false)
    ensures ok ==>
      && pass.gen == st.lastId > old(st.lastId) && pass.gen in st.generations && pass.gen !in old(st.generations)
      && st.generations.Keys == old(st.generations).Keys + {pass.gen} && IsCurrent(st.files, pass.known)
  {
    ok, pass := false, Pass(h, w, 0, denom, map[], {});
    var gen := st.StartGeneration();
    if gen.None? {
      return;
    }
    var known := st.CurrentStats();
    if known.None? {
      return;
    }
    var suspects := {};
    if * {
      suspects := st.suspect.Keys;
    }
    ok, pass := true, Pass(h, w, gen.value, denom, known.value, suspects);
  }

  /** A pass either seals what it recorded, or stops with some leading part of it in the table. */
  method RunPass(st: InventoryStore, h: Hasher, w: World, classes: seq<AssetClass>, denom: int)
    returns (ok: bool, res: IndexResult, ghost ps: Pass, ghost done: seq<IndexedRow>)
    requires st.Valid() && Walkable(w) && UsableDenom(denom)
    modifies st
    ensures st.Valid() && OthersKept(old(st.generations), st.generations)
    ensures ps.h == h && ps.w == w && ps.denom == denom && Progress(old(st.files), st.files, ps.gen, done)
    ensures ps.gen == 0 || ps.gen > old(st.lastId)
    ensures done != [] ==> ps.gen == st.lastId > old(st.lastId) && IsCurrent(old(st.files), ps.known)
    ensures done <= ps.AllRows(OrderedClasses(classes))
    ensures !ok ==> forall g :: g in st.generations && g !in old(st.generations) ==> !st.generations[g].sealed
    ensures ok ==>
      && ps.gen == st.lastId > old(st.lastId) && IsCurrent(old(st.files), ps.known)
      && done == ps.AllRows(OrderedClasses(classes)) && Counted(ps, OrderedClasses(classes), res, done)
      && ps.gen in st.generations && st.generations[ps.gen] == Generation(true, res.files, res.bytes, res.hashed, false)
      && TotalsKept(ps, OrderedClasses(classes), res.perClass, st.classStats)
    ensures ok && ps.suspects == old(st.suspect).Keys ==>
      SuspectsTrack(st.suspect, ps, Walked(w, OrderedClasses(classes)))
    ensures OtherStatsKept(old(st.classStats), st.classStats, ps.gen)
  {
    hide Progress, SuspectsTrack, TotalsKept, Counted, Pass.AllRows, Walked, IsCurrent, OrderedClasses;
    NothingDone(st.files);
    ok, res, done := false, IndexResult(0, 0, 0, 0, 0, 0, map[]), [];
    var begun, pass := BeginPass(st, h, w, denom);
    ps := pass;
    if !begun {
      return;
    }
    ok, res, done := WalkClasses(st, pass, OrderedClasses(classes));
    if !ok {
      if * {
        st.FailGeneration(pass.gen);
      }
      return;
    }
    ok := st.SealGeneration(pass.gen, res.files, res.bytes, res.hashed);
  }

  lemma NothingDone(files: FileTable)
    ensures forall gen :: Progress(files, files, gen, [])
  {
  }

  lemma NoClassesYet(ps: Pass, table: map<Bytes, nat>)
    requires Walkable(ps.w) && UsableDenom(ps.denom)
    ensures ps.AllRows([]) == [] && Walked(ps.w, []) == {} && Counted(ps, [], IndexResult(0, 0, 0, 0, 0, 0, map[]), [])
    ensures ps.suspects == table.Keys ==> SuspectsTrack(table, ps, {})
    ensures forall stats: map<(nat, Bytes), ClassTotal> :: (forall k :: k in stats ==> k.0 != ps.gen) ==>
      TotalsKept(ps, [], map[], stats)
  {
  }

  lemma PrefixOfAllRows(ps: Pass, cs: seq<AssetClass>, i: nat)
    requires Walkable(ps.w) && UsableDenom(ps.denom) && i <= |cs|
    ensures ps.AllRows(cs[..i]) <= ps.AllRows(cs)
    decreases |cs| - i
  {
    if i < |cs| {
      PrefixOfAllRows(ps, cs, i + 1);
      assert cs[..i + 1][..i] == cs[..i];
    } else {
      assert cs[..i] == cs;
    }
  }
}
