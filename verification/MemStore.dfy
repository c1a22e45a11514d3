/**
 The in-memory store of achievements/store_mem.go, proved against the SQL statements it
 stands in for.
 */
module MemStore {
  import opened Basics
  import opened AchievementRows

  datatype MemProgress = MemProgress(value: int, times: nat, completedAt: Option<nat>, paidAt: Option<nat>)

  const FRESH := MemProgress(0, 0, None, None)

  function RowFrom(p: MemProgress): Row { Row(p.value, p.times, p.completedAt, p.paidAt) }

  /** The table a progress map stands for. */
  function TableOf(ps: map<Key, MemProgress>): Rows { map k | k in ps :: RowFrom(ps[k]) }

  lemma TableStep(ps: map<Key, MemProgress>, k: Key, p: MemProgress)
    ensures TableOf(ps[k := p]) == TableOf(ps)[k := RowFrom(p)]
    ensures RowOf(TableOf(ps), k) == RowFrom(if k in ps then ps[k] else FRESH)
  {
  }

  class Store {
    var achDefs: Defs
    var achProgress: map<Key, MemProgress>
    var now: nat

    constructor (now: nat)
      ensures achDefs == map[] && achProgress == map[] && this.now == now
    {
      achDefs, achProgress, this.now := map[], map[], now;
    }

    function Table(): Rows
      reads this
    {
      TableOf(achProgress)
    }

    /** Keys name definitions, as the foreign key and the primary key have it. */
    ghost predicate Valid()
      reads this
    {
      RowsOk(achDefs, Table()) && forall id :: id in achDefs ==> achDefs[id].id == id
    }

    method SetProgress(k: Key, n: int, add: bool) returns (reached: Option<bool>)
      modifies this`achProgress
      ensures
        var before := old(Table());
        var wanted :=
          if add && n > 0 then AchievementRows.IncrementProgress(achDefs, before, k, n)
          else if add then AchievementRows.RecordProgress(achDefs, before, k, RowOf(before, k).progress + n)
          else AchievementRows.RecordProgress(achDefs, before, k, n);
        if wanted.Moved? then reached == Some(wanted.reached) && Table() == wanted.rows
        else reached == None && Table() == old(Table())
    {
      if k.achievement !in achDefs {
        return None;
      }
      var d := achDefs[k.achievement];
      var p := if k in achProgress then achProgress[k] else FRESH;
      if add {
        p := p.(value := p.value + n);
      } else {
        p := p.(value := n);
      }
      TableStep(achProgress, k, p);
      hide TableOf;
      achProgress := achProgress[k := p];
      if p.completedAt.Some? || d.threshold <= 0 {
        return Some(false);
      }
      reached := Some(p.value >= d.threshold);
    }

    method RecordProgress(k: Key, value: int) returns (reached: Option<bool>)
      requires Valid()
      modifies this`achProgress
      ensures Valid()
      ensures var wanted := AchievementRows.RecordProgress(achDefs, old(Table()), k, value);
        if wanted.Moved? then reached == Some(wanted.reached) && Table() == wanted.rows
        else reached == None && Table() == old(Table())
    {
      StatementsKeepRows(achDefs, Table(), k, value, false, 0);
      reached := SetProgress(k, value, false);
    }

    method IncrementProgress(k: Key, delta: int) returns (reached: Option<bool>)
      requires Valid()
      modifies this`achProgress
      ensures Valid()
      ensures var wanted := AchievementRows.IncrementProgress(achDefs, old(Table()), k, delta);
        if wanted.Moved? then reached == Some(wanted.reached) && Table() == wanted.rows
        else reached == None && Table() == old(Table())
    {
      if delta <= 0 {
        return Some(false);
      }
      StatementsKeepRows(achDefs, Table(), k, delta, false, 0);
      reached := SetProgress(k, delta, true);
    }

    method CompleteAchievement(k: Key, paid: bool) returns (c: Completion)
      requires Valid()
      modifies this`achProgress
      ensures Valid()
      ensures c == AchievementRows.CompleteAchievement(achDefs, old(Table()), k, paid, now)
      ensures Table() == if c.Completed? then c.rows else old(Table())
    {
      StatementsKeepRows(achDefs, Table(), k, 0, paid, now);
      hide TableOf, RowsOk;
      if k.achievement !in achDefs {
        return NoSuchAchievement;
      }
      var p := if k in achProgress then achProgress[k] else FRESH;
      TableStep(achProgress, k, p);
      if p.completedAt.Some? {
        return AlreadyCompleted;
      }
      p := p.(times := p.times + 1, completedAt := Some(now));
      if paid {
        p := p.(paidAt := Some(now));
      }
      TableStep(achProgress, k, p);
      achProgress := achProgress[k := p];
      c := Completed(Table());
    }

    method MarkPaid(k: Key)
      requires Valid()
      modifies this`achProgress
      ensures Valid() && Table() == AchievementRows.MarkPaid(old(Table()), k, now)
    {
      StatementsKeepRows(achDefs, Table(), k, 0, false, now);
      hide RowsOk;
      assert k in Table() <==> k in achProgress;
      if k !in achProgress || achProgress[k].completedAt.None? || achProgress[k].paidAt.Some? {
        return;
      }
      TableStep(achProgress, k, achProgress[k].(paidAt := Some(now)));
      hide TableOf;
      achProgress := achProgress[k := achProgress[k].(paidAt := Some(now))];
    }

    /** The one place the double is stricter: an unknown id is an error here and a no-op in SQL. */
    method MarkBackfilled(id: nat) returns (ok: bool)
      requires Valid()
      modifies this`achDefs
      ensures Valid() && achDefs == AchievementRows.MarkBackfilled(old(achDefs), id, now)
      ensures ok <==> id in old(achDefs)
    {
      StatementsKeepRows(achDefs, Table(), Key(id, 0), 0, false, now);
      if id !in achDefs {
        return false;
      }
      if achDefs[id].backfilledAt.None? {
        achDefs := achDefs[id := achDefs[id].(backfilledAt := Some(now))];
      }
      ok := true;
    }

    /** The first `limit` owed rows by identity. */
    method UnpaidCompletions(limit: nat) returns (out: seq<Key>)
      ensures InIdentityOrder(out) && |out| <= limit
      ensures forall k :: k in out ==> k in UnpaidKeys(achDefs, Table())
      ensures forall k :: k in UnpaidKeys(achDefs, Table()) && k !in out ==>
        |out| == limit && forall o :: o in out ==> KeyBefore(o, k)
    {
      out := [];
      var rest := achProgress.Keys;
      while rest != {}
        invariant rest <= achProgress.Keys && InIdentityOrder(out)
        invariant forall k :: k in out <==> k in achProgress && k !in rest && Owed(achDefs, Table(), k)
        decreases rest
      {
        var k :| k in rest;
        var p := achProgress[k];
        if p.completedAt.Some? && p.paidAt.None? && k.achievement in achDefs && achDefs[k.achievement].reward != [] {
          out := InsertByIdentity(out, k);
        }
        rest := rest - {k};
      }
      if |out| > limit {
        assert forall k :: k in out && k !in out[..limit] ==> k in out[limit..];
        out := out[..limit];
      }
    }
  }

  predicate KeyBefore(a: Key, b: Key) {
    if a.achievement != b.achievement then a.achievement < b.achievement else a.user < b.user
  }

  /** Strictly ascending by achievement, then by member, so nothing twice. */
  ghost predicate InIdentityOrder(ks: seq<Key>) {
    forall i, j :: 0 <= i < j < |ks| ==>
      ks[i].achievement < ks[j].achievement || (ks[i].achievement == ks[j].achievement && ks[i].user < ks[j].user)
  }

  /** The double orders by identity; SQL orders by age. */
  method InsertByIdentity(ks: seq<Key>, k: Key) returns (out: seq<Key>)
    requires k !in ks && InIdentityOrder(ks)
    ensures InIdentityOrder(out) && forall x :: x in out <==> x == k || x in ks
  {
    var i := 0;
    while i < |ks| && KeyBefore(ks[i], k)
      invariant i <= |ks| && forall j :: 0 <= j < i ==> KeyBefore(ks[j], k)
    {
      i := i + 1;
    }
    out := InsertAt(ks, i, k);
    InsertAtIndex(ks, i, k);
    hide InsertAt;
  }
}
