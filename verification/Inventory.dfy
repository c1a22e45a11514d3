/**
 The inventory tables of backup/inventory_store.go. Each method is one SQL statement: it
 applies whole or, when the database answers with an error, not at all.
 */
module Inventory {
  import opened Basics
  import opened Planner

  /** The cheap identity a file is compared by. */
  datatype StatKey = StatKey(size: nat, mtimeNS: int, ctimeNS: int, inode: int)

  /** UNIQUE (path, sha256): a file that changes gets another row. */
  datatype FileKey = FileKey(path: Bytes, sha: Bytes)

  datatype FileRec = FileRec(cls: Bytes, stat: StatKey, firstGen: nat, lastGen: nat)

  /** One file as a pass records it. */
  datatype IndexedRow = IndexedRow(path: Bytes, cls: Bytes, sha: Bytes, stat: StatKey)

  datatype Generation = Generation(sealed: bool, files: nat, bytes: nat, hashed: nat, error: bool)

  datatype ClassTotal = ClassTotal(files: nat, bytes: nat)

  datatype KnownFile = KnownFile(key: StatKey, sha: Bytes)

  type FileTable = map<FileKey, FileRec>

  function KeyOf(r: IndexedRow): FileKey { FileKey(r.path, r.sha) }

  // ---- The statements as functions on tables ----------------------------

  /** One row of the upsert: a conflict moves last_gen and the stat columns, and nothing else. */
  function UpsertRow(files: FileTable, gen: nat, r: IndexedRow): FileTable {
    var k := KeyOf(r);
    if k in files then files[k := files[k].(lastGen := gen, stat := r.stat)]
    else files[k := FileRec(r.cls, r.stat, gen, gen)]
  }

  function Upserted(files: FileTable, gen: nat, rows: seq<IndexedRow>): FileTable {
    if rows == [] then files else UpsertRow(Upserted(files, gen, rows[..|rows| - 1]), gen, rows[|rows| - 1])
  }

  lemma {:induction false} UpsertedConcat(files: FileTable, gen: nat, a: seq<IndexedRow>, b: seq<IndexedRow>)
    ensures Upserted(files, gen, a + b) == Upserted(Upserted(files, gen, a), gen, b)
  {
    if b == [] {
      assert a + b == a;
    } else {
      UpsertedConcat(files, gen, a, b[..|b| - 1]);
      assert (a + b)[..|a + b| - 1] == a + b[..|b| - 1];
    }
  }

  predicate DistinctKeys(rows: seq<IndexedRow>) {
    forall i, j :: 0 <= i < j < |rows| ==> KeyOf(rows[i]) != KeyOf(rows[j])
  }

  /** The interval test: which row was current at `gen`. */
  predicate InGen(rec: FileRec, gen: nat) { rec.firstGen <= gen <= rec.lastGen }

  /** What a generation's query answers for one class. */
  ghost function RowsAt(files: FileTable, gen: nat, cls: Bytes): set<FileRow> {
    set k | k in files && files[k].cls == cls && InGen(files[k], gen) :: FileRow(k.path, k.sha, files[k].stat.size)
  }

  /** `rec` is the newest record of its path: what DISTINCT ON (path) ... ORDER BY last_gen DESC may return. */
  ghost predicate IsNewest(files: FileTable, k: FileKey) {
    k in files && forall j :: j in files && j.path == k.path ==> files[j].lastGen <= files[k].lastGen
  }

  ghost predicate IsCurrent(files: FileTable, known: map<Bytes, KnownFile>) {
    && (forall k :: k in files ==> k.path in known)
    && (forall p :: p in known ==>
      var k := FileKey(p, known[p].sha);
      IsNewest(files, k) && files[k].stat == known[p].key)
  }

  ghost predicate SortedByPath(rows: seq<FileRow>) {
    forall i, j :: 0 <= i < j < |rows| ==> !Less(rows[j].path, rows[i].path)
  }

  ghost predicate NoRepeats(rows: seq<FileRow>) { forall i, j :: 0 <= i < j < |rows| ==> rows[i] != rows[j] }

  // ---- The store --------------------------------------------------------

  class InventoryStore {
    var generations: map<nat, Generation>
    var lastId: nat
    var files: FileTable
    var suspect: map<Bytes, nat>
    var classStats: map<(nat, Bytes), ClassTotal>

    constructor ()
      ensures generations == map[] && lastId == 0 && files == map[] && suspect == map[] && classStats == map[]
    {
      generations, lastId, files, suspect, classStats := map[], 0, map[], map[], map[];
    }

    /** Ids come from a sequence, which no failure ever winds back. */
    ghost predicate Valid()
      reads this
    {
      && (forall g :: g in generations ==> 0 < g <= lastId)
      && (forall k :: k in files ==> 0 < files[k].firstGen <= files[k].lastGen <= lastId)
      && (forall k :: k in classStats ==> k.0 <= lastId)
    }

    /** Generation `gen` may be written to: nothing recorded is newer. */
    ghost predicate ReadyFor(gen: nat)
      reads this
    {
      Valid() && 0 < gen <= lastId && forall k :: k in files ==> files[k].firstGen <= gen
    }

    method StartGeneration() returns (gen: Option<nat>)
      requires Valid()
      modifies this`generations, this`lastId
      ensures Valid() && lastId >= old(lastId)
      ensures gen.None? ==> generations == old(generations)
      ensures gen.Some? ==>
        && gen.value == lastId > old(lastId)
        && generations == old(generations)[lastId := Generation(false, 0, 0, 0, false)]
    {
      if * {
        return None;
      }
      lastId := lastId + 1;
      generations := generations[lastId := Generation(false, 0, 0, 0, false)];
      gen := Some(lastId);
    }

    method SealGeneration(gen: nat, n: nat, bytes: nat, hashed: nat) returns (ok: bool)
      requires Valid() && gen in generations
      modifies this`generations
      ensures Valid()
      ensures !ok ==> generations == old(generations)
      ensures ok ==>
        generations == old(generations)[gen := Generation(true, n, bytes, hashed, old(generations)[gen].error)]
    {
      if * {
        return false;
      }
      generations := generations[gen := Generation(true, n, bytes, hashed, generations[gen].error)];
      ok := true;
    }

    method FailGeneration(gen: nat)
      requires Valid() && gen in generations
      modifies this`generations
      ensures Valid()
      ensures generations != old(generations) ==>
        generations == old(generations)[gen := old(generations)[gen].(error := true)]
    {
      if * {
        generations := generations[gen := generations[gen].(error := true)];
      }
    }

    method CurrentStats() returns (known: Option<map<Bytes, KnownFile>>)
      ensures known.Some? ==> IsCurrent(files, known.value)
    {
      if * {
        return None;
      }
      var newest: map<Bytes, FileKey> := map[];
      var rest := files.Keys;
      while rest != {}
        invariant rest <= files.Keys
        invariant forall p :: p in newest ==> newest[p] in files && newest[p].path == p
        invariant forall k :: k in files.Keys - rest ==>
          k.path in newest && files[k].lastGen <= files[newest[k.path]].lastGen
        decreases rest
      {
        var k :| k in rest;
        if k.path !in newest || files[newest[k.path]].lastGen <= files[k].lastGen {
          newest := newest[k.path := k];
        }
        rest := rest - {k};
      }
      var m := map p | p in newest :: KnownFile(files[newest[p]].stat, newest[p].sha);
      forall p | p in m ensures IsNewest(files, FileKey(p, m[p].sha)) && files[FileKey(p, m[p].sha)].stat == m[p].key {
        assert FileKey(p, m[p].sha) == newest[p];
      }
      known := Some(m);
    }

    /** One statement in a transaction, which the database refuses if two of its rows conflict with each other. */
    method UpsertFiles(gen: nat, rows: seq<IndexedRow>) returns (ok: bool)
      requires ReadyFor(gen)
      modifies this`files
      ensures ReadyFor(gen)
      ensures files == if ok then Upserted(old(files), gen, rows) else old(files)
      ensures rows == [] ==> ok
      ensures !DistinctKeys(rows) ==> !ok
    {
      if rows == [] {
        return true;
      }
      if !DistinctKeys(rows) {
        return false;
      }
      if * {
        return false;
      }
      var i := 0;
      while i < |rows|
        invariant i <= |rows| && files == Upserted(old(files), gen, rows[..i])
        invariant ReadyFor(gen)
      {
        files := UpsertRow(files, gen, rows[i]);
        assert rows[..i + 1][..i] == rows[..i];
        i := i + 1;
      }
      assert rows[..|rows|] == rows;
      ok := true;
    }

    method RecordClassTotal(gen: nat, cls: Bytes, total: ClassTotal) returns (ok: bool)
      requires Valid() && gen <= lastId
      modifies this`classStats
      ensures Valid()
      ensures classStats == if ok then old(classStats)[(gen, cls) := total] else old(classStats)
    {
      if * {
        return false;
      }
      classStats := classStats[(gen, cls) := total];
      ok := true;
    }

    method NoteSuspect(path: Bytes)
      modifies this`suspect
      ensures suspect == old(suspect)[path := if path in old(suspect) then old(suspect)[path] + 1 else 1]
    {
      suspect := suspect[path := if path in suspect then suspect[path] + 1 else 1];
    }

    method ClearSuspect(path: Bytes)
      modifies this`suspect
      ensures suspect == old(suspect) - {path}
    {
      suspect := suspect - {path};
    }

    method LastSealedGeneration() returns (gen: nat)
      requires Valid()
      ensures gen != 0 ==> gen in generations && generations[gen].sealed
      ensures forall g :: g in generations && generations[g].sealed ==> g <= gen
    {
      gen := 0;
      var rest := generations.Keys;
      while rest != {}
        invariant rest <= generations.Keys
        invariant gen != 0 ==> gen in generations && generations[gen].sealed
        invariant forall g :: g in generations.Keys - rest && generations[g].sealed ==> g <= gen
        decreases rest
      {
        var g :| g in rest;
        if generations[g].sealed && g > gen {
          gen := g;
        }
        rest := rest - {g};
      }
    }

    /** One class at one generation, ordered by path alone: rows sharing a path come in any order. */
    method FilesForGen(gen: nat, cls: Bytes) returns (rows: seq<FileRow>)
      ensures forall r :: r in rows <==> r in RowsAt(files, gen, cls)
      ensures SortedByPath(rows) && NoRepeats(rows)
    {
      rows := [];
      var rest := files.Keys;
      while rest != {}
        invariant rest <= files.Keys && SortedByPath(rows) && NoRepeats(rows)
        invariant forall r :: r in rows <==> r in RowsAt(map k | k in files && k !in rest :: files[k], gen, cls)
        decreases rest
      {
        var k :| k in rest;
        ghost var before, seen := rows, map j | j in files && j !in rest :: files[j];
        if files[k].cls == cls && InGen(files[k], gen) {
          rows := InsertSomewhere(rows, FileRow(k.path, k.sha, files[k].stat.size));
        }
        RowsAtStep(seen, k, files[k], gen, cls);
        rest := rest - {k};
        assert (map j | j in files && j !in rest :: files[j]) == seen[k := files[k]];
      }
      assert (map k | k in files && k !in rest :: files[k]) == files;
    }
  }

  lemma RowsAtStep(seen: FileTable, k: FileKey, rec: FileRec, gen: nat, cls: Bytes)
    requires k !in seen
    ensures RowsAt(seen[k := rec], gen, cls) ==
      RowsAt(seen, gen, cls) + if rec.cls == cls && InGen(rec, gen) then {FileRow(k.path, k.sha, rec.stat.size)} else {}
    ensures FileRow(k.path, k.sha, rec.stat.size) !in RowsAt(seen, gen, cls)
  {
    var after := seen[k := rec];
    forall r ensures r in RowsAt(after, gen, cls) <==>
      r in RowsAt(seen, gen, cls) || (rec.cls == cls && InGen(rec, gen) && r == FileRow(k.path, k.sha, rec.stat.size)) {
      if r in RowsAt(seen, gen, cls) {
        var j :| j in seen && seen[j].cls == cls && InGen(seen[j], gen) &&
            r == FileRow(j.path, j.sha, seen[j].stat.size);
        assert j in after && after[j] == seen[j];
      }
      if rec.cls == cls && InGen(rec, gen) && r == FileRow(k.path, k.sha, rec.stat.size) {
        assert k in after && after[k] == rec;
      }
    }
  }

  lemma InsertAtHolds(rows: seq<FileRow>, i: nat, r: FileRow)
    requires i <= |rows| && NoRepeats(rows) && r !in rows && SortedByPath(rows)
    requires forall j :: 0 <= j < i ==> !Less(r.path, rows[j].path)
    requires forall j :: i <= j < |rows| ==> !Less(rows[j].path, r.path)
    ensures SortedByPath(InsertAt(rows, i, r)) && NoRepeats(InsertAt(rows, i, r))
    ensures forall x :: x in InsertAt(rows, i, r) <==> x == r || x in rows
  {
    var out := InsertAt(rows, i, r);
    InsertAtIndex(rows, i, r);
    hide InsertAt, Less;
    forall a, b | 0 <= a < b < |out| ensures !Less(out[b].path, out[a].path) && out[a] != out[b] {
      if a < i && b > i {
        assert !Less(rows[b - 1].path, rows[a].path) && rows[a] != rows[b - 1];
      } else if a > i {
        assert !Less(rows[b - 1].path, rows[a - 1].path) && rows[a - 1] != rows[b - 1];
      } else if b < i {
        assert !Less(rows[b].path, rows[a].path) && rows[a] != rows[b];
      } else if a == i {
        assert rows[b - 1] in rows;
      } else {
        assert rows[a] in rows;
      }
    }
  }

  /** Puts a row at some place its path allows; among equal paths, any. */
  method InsertSomewhere(rows: seq<FileRow>, r: FileRow) returns (out: seq<FileRow>)
    requires SortedByPath(rows) && NoRepeats(rows) && r !in rows
    ensures SortedByPath(out) && NoRepeats(out) && forall x :: x in out <==> x == r || x in rows
  {
    var i := 0;
    while i < |rows| && Less(rows[i].path, r.path)
      invariant i <= |rows| && forall j :: 0 <= j < i ==> !Less(r.path, rows[j].path)
    {
      LessAsymmetric(rows[i].path, r.path);
      i := i + 1;
    }
    while i < |rows| && rows[i].path == r.path
      invariant i <= |rows| && forall j :: 0 <= j < i ==> !Less(r.path, rows[j].path)
      invariant i < |rows| ==> !Less(rows[i].path, r.path)
    {
      if * {
        break;
      }
      LessIrreflexive(r.path);
      if i + 1 < |rows| { assert !Less(rows[i + 1].path, rows[i].path); }
      i := i + 1;
    }
    forall j | i <= j < |rows| ensures !Less(rows[j].path, r.path) {
      LessNegTransitive(rows[j].path, rows[i].path, r.path);
    }
    out := InsertAt(rows, i, r);
    InsertAtHolds(rows, i, r);
  }
}
