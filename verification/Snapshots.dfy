/**
 What a sealed generation means while later passes keep writing to the same table
 (filesForGen of backup/inventory_store.go): exact at the seal, never smaller afterwards,
 and unchanged exactly as long as no older row is recorded again.
 */
module Snapshots {
  import opened Basics
  import opened Planner
  import opened Inventory

  ghost predicate Records(rows: seq<IndexedRow>, k: FileKey) {
    exists i :: 0 <= i < |rows| && KeyOf(rows[i]) == k
  }

  ghost predicate Ordered(files: FileTable) { forall k :: k in files ==> files[k].firstGen <= files[k].lastGen }

  /** The record of `k` is current at `gen`. */
  ghost predicate Current(files: FileTable, k: FileKey, gen: nat) { k in files && InGen(files[k], gen) }

  /** What the upsert does to one key. */
  lemma {:induction false} UpsertedKey(files: FileTable, gen: nat, rows: seq<IndexedRow>, k: FileKey)
    ensures var after := Upserted(files, gen, rows);
      && (k in after <==> k in files || Records(rows, k))
      && (k in files ==>
        && after[k].cls == files[k].cls && after[k].firstGen == files[k].firstGen
        && after[k].lastGen == if Records(rows, k) then gen else files[k].lastGen)
      && (k in files && !Records(rows, k) ==> after[k] == files[k])
      && (k !in files && Records(rows, k) ==> after[k].firstGen == after[k].lastGen == gen)
      && (Records(rows, k) ==> exists i :: 0 <= i < |rows| && KeyOf(rows[i]) == k && after[k].stat == rows[i].stat)
      && (k !in files && Records(rows, k) ==>
          exists i :: 0 <= i < |rows| && KeyOf(rows[i]) == k && after[k].cls == rows[i].cls)
  {
    if rows != [] {
      var init, r := rows[..|rows| - 1], rows[|rows| - 1];
      UpsertedKey(files, gen, init, k);
      assert forall i :: 0 <= i < |init| ==> init[i] == rows[i];
      if KeyOf(r) == k { assert KeyOf(rows[|rows| - 1]) == k; }
    }
  }

  // ---- At the seal ------------------------------------------------------

  /** At the moment pass `gen` seals, its generation is exactly what it recorded. */
  lemma SnapshotAtSeal(files: FileTable, gen: nat, rows: seq<IndexedRow>, k: FileKey)
    requires Ordered(files) && forall j :: j in files ==> files[j].lastGen < gen
    ensures Current(Upserted(files, gen, rows), k, gen) <==> Records(rows, k)
  {
    UpsertedKey(files, gen, rows, k);
    assert k in files ==> files[k].lastGen < gen;
  }

  /** No file is recorded under a class other than the one its row was first stored with. */
  ghost predicate ClassesStable(files: FileTable, rows: seq<IndexedRow>) {
    forall i :: 0 <= i < |rows| && KeyOf(rows[i]) in files ==> files[KeyOf(rows[i])].cls == rows[i].cls
  }

  /** The classes walk disjoint directories: no path is recorded twice in one pass. */
  ghost predicate DistinctRowPaths(rows: seq<IndexedRow>) {
    forall i, j :: 0 <= i < j < |rows| ==> rows[i].path != rows[j].path
  }

  function RowOf(r: IndexedRow): FileRow { FileRow(r.path, r.sha, r.stat.size) }

  /** A recorded key ends up with the class and stat of the row that recorded it. */
  lemma RecordedRow(files: FileTable, gen: nat, rows: seq<IndexedRow>, i: nat)
    requires ClassesStable(files, rows) && DistinctRowPaths(rows) && i < |rows|
    ensures var k := KeyOf(rows[i]);
      && Records(rows, k) && k in Upserted(files, gen, rows)
      && Upserted(files, gen, rows)[k].stat == rows[i].stat && Upserted(files, gen, rows)[k].cls == rows[i].cls
  {
    UpsertedKey(files, gen, rows, KeyOf(rows[i]));
  }

  /** Class by class, the query answers exactly the rows the pass recorded for that class. */
  lemma ClassSnapshotAtSeal(files: FileTable, gen: nat, rows: seq<IndexedRow>, cls: Bytes)
    requires Ordered(files) && forall j :: j in files ==> files[j].lastGen < gen
    requires ClassesStable(files, rows) && DistinctRowPaths(rows)
    ensures forall x :: x in RowsAt(Upserted(files, gen, rows), gen, cls) <==>
      exists i :: 0 <= i < |rows| && rows[i].cls == cls && x == RowOf(rows[i])
  {
    var after := Upserted(files, gen, rows);
    forall x
      ensures x in RowsAt(after, gen, cls) <==> exists i :: 0 <= i < |rows| && rows[i].cls == cls && x == RowOf(rows[i])
    {
      if x in RowsAt(after, gen, cls) {
        var k :| k in after && after[k].cls == cls && InGen(after[k], gen) &&
            x == FileRow(k.path, k.sha, after[k].stat.size);
        SnapshotAtSeal(files, gen, rows, k);
        var i :| 0 <= i < |rows| && KeyOf(rows[i]) == k;
        RecordedRow(files, gen, rows, i);
      }
      if i :| 0 <= i < |rows| && rows[i].cls == cls && x == RowOf(rows[i]) {
        RecordedRow(files, gen, rows, i);
        SnapshotAtSeal(files, gen, rows, KeyOf(rows[i]));
      }
    }
  }

  /** A file first stored under another slug is not served under its new one: the conflict leaves the class alone. */
  lemma ServedUnderClassIffStored(files: FileTable, gen: nat, rows: seq<IndexedRow>, k: FileKey, cls: Bytes)
    requires k in files && files[k].firstGen <= gen && Records(rows, k)
    ensures (exists x :: x in RowsAt(Upserted(files, gen, rows), gen, cls) && x.path == k.path && x.sha == k.sha) <==>
      files[k].cls == cls
  {
    var after := Upserted(files, gen, rows);
    UpsertedKey(files, gen, rows, k);
    if files[k].cls == cls {
      assert FileRow(k.path, k.sha, after[k].stat.size) in RowsAt(after, gen, cls);
    }
    if x :| x in RowsAt(after, gen, cls) && x.path == k.path && x.sha == k.sha {
      var j :| j in after && after[j].cls == cls && InGen(after[j], gen) &&
          x == FileRow(j.path, j.sha, after[j].stat.size);
      assert j == k;
    }
  }

  // ---- Afterwards -------------------------------------------------------

  /** What one later pass, sealed, failed or killed, left in the table. */
  datatype PassRecord = PassRecord(gen: nat, rows: seq<IndexedRow>)

  function Applied(files: FileTable, passes: seq<PassRecord>): FileTable {
    if passes == [] then files
    else
      var last := passes[|passes| - 1];
      Upserted(Applied(files, passes[..|passes| - 1]), last.gen, last.rows)
  }

  ghost predicate AnyRecords(passes: seq<PassRecord>, k: FileKey) {
    exists i :: 0 <= i < |passes| && Records(passes[i].rows, k)
  }

  ghost predicate AllLater(passes: seq<PassRecord>, gen: nat) { forall i :: 0 <= i < |passes| ==> passes[i].gen > gen }

  ghost predicate NoneEarlier(passes: seq<PassRecord>, gen: nat) {
    forall i :: 0 <= i < |passes| ==> passes[i].gen >= gen
  }

  /** A batch of pass `gen` itself is the first to record `k`. */
  ghost predicate Joins(passes: seq<PassRecord>, gen: nat, k: FileKey) {
    exists i :: 0 <= i < |passes| && FirstRecords(passes, k, i) && passes[i].gen == gen
  }

  ghost predicate FirstRecords(passes: seq<PassRecord>, k: FileKey, i: nat)
    requires i < |passes|
  {
    Records(passes[i].rows, k) && forall j :: 0 <= j < i ==> !Records(passes[j].rows, k)
  }

  /** Joining while another batch follows. */
  lemma JoinsStep(passes: seq<PassRecord>, gen: nat, k: FileKey)
    requires passes != []
    ensures var init, last := passes[..|passes| - 1], passes[|passes| - 1];
      && (AnyRecords(passes, k) <==> AnyRecords(init, k) || Records(last.rows, k))
      && (Joins(passes, gen, k) <==>
          Joins(init, gen, k) || (!AnyRecords(init, k) && Records(last.rows, k) && last.gen == gen))
  {
    var n := |passes| - 1;
    var init, last := passes[..n], passes[n];
    assert forall i :: 0 <= i < n ==> init[i] == passes[i];
    assert forall i :: 0 <= i < n ==> (FirstRecords(init, k, i) <==> FirstRecords(passes, k, i));
    hide Records;
    if AnyRecords(init, k) {
      var i :| 0 <= i < |init| && Records(init[i].rows, k);
      assert Records(passes[i].rows, k);
      assert !FirstRecords(passes, k, n);
    } else {
      assert FirstRecords(passes, k, n) <==> Records(last.rows, k);
    }
  }

  /** What batches of pass `gen` and of later ones do to one key. */
  lemma {:induction false} AppliedFrom(files: FileTable, passes: seq<PassRecord>, gen: nat, k: FileKey)
    requires NoneEarlier(passes, gen)
    ensures var after := Applied(files, passes);
      && (k in after <==> k in files || AnyRecords(passes, k))
      && (k in files ==>
        && after[k].cls == files[k].cls && after[k].firstGen == files[k].firstGen
        && (if AnyRecords(passes, k) then after[k].lastGen >= gen else after[k] == files[k]))
      && (k !in files && k in after ==>
        && after[k].lastGen >= gen && after[k].firstGen >= gen
        && (after[k].firstGen == gen <==> Joins(passes, gen, k)))
  {
    if passes != [] {
      var init, last := passes[..|passes| - 1], passes[|passes| - 1];
      JoinsStep(passes, gen, k);
      AppliedFrom(files, init, gen, k);
      UpsertedKey(Applied(files, init), last.gen, last.rows, k);
      hide Records, AnyRecords, Joins;
    }
  }

  lemma AppliedKey(files: FileTable, passes: seq<PassRecord>, gen: nat, k: FileKey)
    requires AllLater(passes, gen)
    ensures var after := Applied(files, passes);
      && (k in after <==> k in files || AnyRecords(passes, k))
      && (k in files ==>
        && after[k].cls == files[k].cls && after[k].firstGen == files[k].firstGen
        && (if AnyRecords(passes, k) then after[k].lastGen > gen else after[k] == files[k]))
      && (k !in files && k in after ==> after[k].firstGen > gen)
  {
    AppliedFrom(files, passes, gen + 1, k);
  }

  /** Whatever later passes do, nothing leaves a generation. */
  lemma GenerationNeverShrinks(files: FileTable, passes: seq<PassRecord>, gen: nat, k: FileKey)
    requires AllLater(passes, gen) && Current(files, k, gen)
    ensures Current(Applied(files, passes), k, gen)
  {
    AppliedKey(files, passes, gen, k);
  }

  /** A later pass records again a row that had already fallen behind `gen`. */
  ghost predicate Revives(files: FileTable, passes: seq<PassRecord>, gen: nat) {
    exists k :: k in files && files[k].lastGen < gen && AnyRecords(passes, k)
  }

  /** The generation's own pass goes on to record a key the table does not hold. */
  ghost predicate Grows(files: FileTable, passes: seq<PassRecord>, gen: nat) {
    exists k :: k !in files && Joins(passes, gen, k)
  }

  /**
   Sealed or still running, a generation keeps its rows exactly as long as no pass from it on
   revives an older row, and its own pass records nothing new.
   */
  lemma StableExactlyWhen(files: FileTable, passes: seq<PassRecord>, gen: nat)
    requires Ordered(files) && NoneEarlier(passes, gen)
    ensures (forall k :: Current(Applied(files, passes), k, gen) <==> Current(files, k, gen)) <==>
      !Revives(files, passes, gen) && !Grows(files, passes, gen)
  {
    forall k ensures (Current(Applied(files, passes), k, gen) <==> Current(files, k, gen)) <==>
      !(k in files && files[k].lastGen < gen && AnyRecords(passes, k)) && !(k !in files && Joins(passes, gen, k)) {
      AppliedFrom(files, passes, gen, k);
      JoinsRecords(passes, gen, k);
    }
  }

  lemma JoinsRecords(passes: seq<PassRecord>, gen: nat, k: FileKey)
    ensures Joins(passes, gen, k) ==> AnyRecords(passes, k)
    ensures AllLater(passes, gen) ==> !Joins(passes, gen, k)
  {
    hide Records;
  }

  /** Once its pass is over, a generation keeps its rows exactly as long as no later pass revives an older one. */
  lemma StableIffNothingRevived(files: FileTable, passes: seq<PassRecord>, gen: nat)
    requires Ordered(files) && AllLater(passes, gen)
    ensures (forall k :: Current(Applied(files, passes), k, gen) <==> Current(files, k, gen)) <==>
      !Revives(files, passes, gen)
  {
    StableExactlyWhen(files, passes, gen);
    forall k ensures !Joins(passes, gen, k) { JoinsRecords(passes, gen, k); }
  }

  /** One hash means one size. */
  ghost predicate SizesByHash(sizeOf: Bytes -> nat, rows: seq<IndexedRow>) {
    forall i :: 0 <= i < |rows| ==> rows[i].stat.size == sizeOf(rows[i].sha)
  }

  /** Sizes agree with hashes throughout a run. */
  ghost predicate RunSizesByHash(sizeOf: Bytes -> nat, files: FileTable, passes: seq<PassRecord>) {
    && (forall k :: k in files ==> files[k].stat.size == sizeOf(k.sha))
    && (forall i :: 0 <= i < |passes| ==> SizesByHash(sizeOf, passes[i].rows))
  }

  lemma {:induction false} AppliedSizes(sizeOf: Bytes -> nat, files: FileTable, passes: seq<PassRecord>, k: FileKey)
    requires RunSizesByHash(sizeOf, files, passes) && k in Applied(files, passes)
    ensures Applied(files, passes)[k].stat.size == sizeOf(k.sha)
  {
    if passes != [] {
      var init, last := passes[..|passes| - 1], passes[|passes| - 1];
      assert forall i :: 0 <= i < |init| ==> init[i] == passes[i];
      UpsertedKey(Applied(files, init), last.gen, last.rows, k);
      assert SizesByHash(sizeOf, passes[|passes| - 1].rows);
      if !Records(last.rows, k) { AppliedSizes(sizeOf, files, init, k); }
    }
  }

  lemma AnswerIdentifiesKey(files: FileTable, gen: nat, cls: Bytes, x: FileRow)
    requires x in RowsAt(files, gen, cls)
    ensures Current(files, FileKey(x.path, x.sha), gen) && files[FileKey(x.path, x.sha)].cls == cls
  {
    var j :| j in files && files[j].cls == cls && InGen(files[j], gen) &&
        x == FileRow(j.path, j.sha, files[j].stat.size);
    assert j == FileKey(x.path, x.sha);
  }

  /** The same, for what the query answers. */
  lemma AnswersStableExactlyWhen(sizeOf: Bytes -> nat, files: FileTable, passes: seq<PassRecord>, gen: nat)
    requires Ordered(files) && NoneEarlier(passes, gen) && RunSizesByHash(sizeOf, files, passes)
    ensures (forall cls :: RowsAt(Applied(files, passes), gen, cls) == RowsAt(files, gen, cls)) <==>
      !Revives(files, passes, gen) && !Grows(files, passes, gen)
  {
    var after := Applied(files, passes);
    StableExactlyWhen(files, passes, gen);
    if !Revives(files, passes, gen) && !Grows(files, passes, gen) {
      forall cls ensures RowsAt(after, gen, cls) == RowsAt(files, gen, cls) {
        SameAnswer(sizeOf, files, passes, gen, cls);
      }
    } else {
      var k :| Current(after, k, gen) <==> !Current(files, k, gen);
      AppliedFrom(files, passes, gen, k);
      assert Current(after, k, gen);
      var x := FileRow(k.path, k.sha, after[k].stat.size);
      assert x in RowsAt(after, gen, after[k].cls);
      if x in RowsAt(files, gen, after[k].cls) { AnswerIdentifiesKey(files, gen, after[k].cls, x); }
    }
  }

  /** After the seal every class of the generation reads as it did then, exactly if nothing is revived. */
  lemma AnswersStableIffNothingRevived(sizeOf: Bytes -> nat, files: FileTable, passes: seq<PassRecord>, gen: nat)
    requires Ordered(files) && AllLater(passes, gen) && RunSizesByHash(sizeOf, files, passes)
    ensures (forall cls :: RowsAt(Applied(files, passes), gen, cls) == RowsAt(files, gen, cls)) <==>
      !Revives(files, passes, gen)
  {
    AnswersStableExactlyWhen(sizeOf, files, passes, gen);
    forall k ensures !Joins(passes, gen, k) { JoinsRecords(passes, gen, k); }
    hide RowsAt;
  }

  lemma SameAnswer(sizeOf: Bytes -> nat, files: FileTable, passes: seq<PassRecord>, gen: nat, cls: Bytes)
    requires NoneEarlier(passes, gen) && RunSizesByHash(sizeOf, files, passes)
    requires forall k :: Current(Applied(files, passes), k, gen) <==> Current(files, k, gen)
    ensures RowsAt(Applied(files, passes), gen, cls) == RowsAt(files, gen, cls)
  {
    var after := Applied(files, passes);
    forall x ensures x in RowsAt(after, gen, cls) <==> x in RowsAt(files, gen, cls) {
      if x in RowsAt(after, gen, cls) {
        var k :| k in after && after[k].cls == cls && InGen(after[k], gen) &&
            x == FileRow(k.path, k.sha, after[k].stat.size);
        assert Current(after, k, gen) && Current(files, k, gen);
        AppliedFrom(files, passes, gen, k);
        AppliedSizes(sizeOf, files, passes, k);
      }
      if x in RowsAt(files, gen, cls) {
        var k :| k in files && files[k].cls == cls && InGen(files[k], gen) &&
            x == FileRow(k.path, k.sha, files[k].stat.size);
        assert Current(files, k, gen) && Current(after, k, gen);
        AppliedFrom(files, passes, gen, k);
        AppliedSizes(sizeOf, files, passes, k);
      }
    }
  }

  lemma AppliedOne(files: FileTable, p: PassRecord)
    ensures Applied(files, [p]) == Upserted(files, p.gen, p.rows)
  {
    assert [p][..0] == [] && [p][|[p]| - 1] == p;
  }

  const P: Bytes := [112]
  const C: Bytes := [99]
  const STAT := StatKey(1, 0, 0, 0)

  function Version(sha: byte): IndexedRow { IndexedRow(P, C, [sha], STAT) }

  /**
   The failing family in its smallest form: content A, then B, then A again. Generation 2
   held B alone when it sealed; after pass 3 it holds both, under one path.
   */
  lemma RestoredContentRewritesHistory()
    ensures var one := Upserted(map[], 1, [Version(65)]);
      var two := Upserted(one, 2, [Version(66)]);
      var three := Applied(two, [PassRecord(3, [Version(65)])]);
      && (forall k :: Current(two, k, 2) <==> k == FileKey(P, [66]))
      && (forall k :: Current(three, k, 2) <==> k == FileKey(P, [66]) || k == FileKey(P, [65]))
  {
    var one := Upserted(map[], 1, [Version(65)]);
    var two := Upserted(one, 2, [Version(66)]);
    var passes := [PassRecord(3, [Version(65)])];
    var three := Applied(two, passes);
    AppliedOne(two, passes[0]);
    forall k ensures Current(two, k, 2) <==> k == FileKey(P, [66])
      ensures Current(three, k, 2) <==> k == FileKey(P, [66]) || k == FileKey(P, [65]) {
      UpsertedKey(map[], 1, [Version(65)], k);
      UpsertedKey(one, 2, [Version(66)], k);
      UpsertedKey(two, 3, [Version(65)], k);
      assert Records([Version(65)], k) <==> k == FileKey(P, [65]) by {
        assert KeyOf([Version(65)][0]) == FileKey(P, [65]);
      }
      assert Records([Version(66)], k) <==> k == FileKey(P, [66]) by {
        assert KeyOf([Version(66)][0]) == FileKey(P, [66]);
      }
    }
  }
}
