/** What one sweep leaves behind when any of its calls may fail. */
module Repaying {
  import opened Basics
  import opened AchievementRows
  import opened Protocol

  // ---- What a sweep leaves ---------------------------------------------------

  /** How one row of the batch fared. */
  datatype Fate = RepaidNow | GrantFailed | StampFailed

  ghost predicate IsFate(fate: Fate, b: Book, c: Book, e: Due, now: nat) {
    var stamped := MarkPaid(b.rows, e.key, now);
    match fate
    case RepaidNow => DueGrant(e) in c.grants && c.rows == stamped
    case GrantFailed => c.rows == b.rows
    case StampFailed => DueGrant(e) in c.grants && (c.rows == b.rows || c.rows == stamped)
  }

  /** The reward a row was owed when the batch was read is granted to its member under the slug. */
  ghost predicate IsGranted(defs: Defs, c: Book, k: Key) {
    && k.achievement in defs
    && Grant(defs[k.achievement].reward, k.user, defs[k.achievement].slug) in c.grants
  }

  /** The row has gained its stamp and changed in nothing else. */
  ghost predicate IsStamped(b: Book, c: Book, k: Key) {
    var row := RowOf(c.rows, k);
    row.paidAt.Some? && row == RowOf(b.rows, k).(paidAt := row.paidAt)
  }

  ghost predicate Repaid(b: Book, c: Book, k: Key) { IsGranted(b.defs, c, k) && IsStamped(b, c, k) }

  /** Granted, and the stamp is there or not. */
  ghost predicate HalfRepaid(b: Book, c: Book, k: Key) {
    IsGranted(b.defs, c, k) && (RowOf(c.rows, k) == RowOf(b.rows, k) || IsStamped(b, c, k))
  }

  /** In the columns: a completed and unpaid row whose definition has a reward. */
  predicate OwedRow(b: Book, k: Key) {
    && k.achievement in b.defs && b.defs[k.achievement].reward != []
    && RowOf(b.rows, k).completedAt.Some? && RowOf(b.rows, k).paidAt.None?
  }

  /** Every owed row, each once, or 500 of them. */
  ghost predicate TakesOwed(b: Book, batch: seq<Key>) {
    && (forall k :: k in batch ==> OwedRow(b, k))
    && (forall i, j :: 0 <= i < j < |batch| ==> batch[i] != batch[j])
    && (if |batch| < 500 then forall k :: OwedRow(b, k) ==> k in batch else |batch| == 500)
  }

  lemma BatchTakesOwed(b: Book, batch: seq<Key>)
    requires IsBatch(b, batch)
    ensures TakesOwed(b, batch)
  {
    forall k | k in batch ensures OwedRow(b, k) {
      var i :| 0 <= i < |batch| && batch[i] == k;
      assert Owed(b.defs, b.rows, batch[i]);
    }
    forall k | OwedRow(b, k) && |batch| < 500 ensures k in batch { assert Owed(b.defs, b.rows, k); }
  }

  /**
   A refused row is as it was, like every row outside the batch; one whose stamp failed is granted;
   every other one is granted and stamped.
   */
  ghost predicate SweepLeaves(b: Book, c: Book, batch: seq<Key>, refused: set<Key>, unstamped: set<Key>) {
    && c.defs == b.defs && b.grants <= c.grants && refused !! unstamped
    && (forall k :: k in refused || k in unstamped ==> k in batch)
    && (forall k :: RowLeft(b, c, k, k in batch && k !in refused, k in unstamped))
  }

  ghost predicate RowLeft(b: Book, c: Book, k: Key, granted: bool, unstamped: bool) {
    if !granted then RowOf(c.rows, k) == RowOf(b.rows, k)
    else if unstamped then HalfRepaid(b, c, k)
    else Repaid(b, c, k)
  }

  function Refused(refused: set<Key>, fate: Fate, k: Key): set<Key> {
    if fate.GrantFailed? then refused + {k} else refused
  }

  function Unstamped(unstamped: set<Key>, fate: Fate, k: Key): set<Key> {
    if fate.StampFailed? then unstamped + {k} else unstamped
  }

  lemma BatchKnown(b: Book, batch: seq<Key>)
    requires IsBatch(b, batch)
    ensures forall i :: 0 <= i < |batch| ==> batch[i].achievement in b.defs
    ensures |Dues(b.defs, batch)| == |batch|
  {
    forall i | 0 <= i < |batch| ensures batch[i].achievement in b.defs { assert Owed(b.defs, b.rows, batch[i]); }
  }

  lemma DueNext(b: Book, batch: seq<Key>, i: nat)
    requires IsBatch(b, batch) && i < |batch| && forall j :: 0 <= j < |batch| ==> batch[j].achievement in b.defs
    ensures var dues := Dues(b.defs, batch);
      dues[i] == DueOf(b.defs, batch[i]) && dues[i..] == [dues[i]] + dues[i + 1..]
    ensures batch[i] !in batch[..i] && Owed(b.defs, b.rows, batch[i])
  {
  }

  lemma SweepBegins(b: Book)
    ensures SweepLeaves(b, b, [], {}, {})
  {
  }

  lemma StampMovesOne(rows: Rows, k: Key, now: nat)
    ensures forall x :: x != k ==> RowOf(MarkPaid(rows, k, now), x) == RowOf(rows, x)
    ensures k in rows && rows[k].completedAt.Some? && rows[k].paidAt.None? ==>
      RowOf(MarkPaid(rows, k, now), k) == rows[k].(paidAt := Some(now))
  {
  }

  /** What one row's calls do: to that row as its fate says, to no other. */
  lemma FateMoves(b: Book, c: Book, v: Book, k: Key, fate: Fate, now: nat)
    requires Owed(b.defs, b.rows, k) && RowLeft(b, c, k, false, false) && v.defs == b.defs
    requires IsFate(fate, c, v, DueOf(b.defs, k), now)
    ensures forall x :: x != k ==> RowOf(v.rows, x) == RowOf(c.rows, x)
    ensures RowLeft(b, v, k, !fate.GrantFailed?, fate.StampFailed?)
  {
    StampMovesOne(c.rows, k, now);
    assert RowOf(c.rows, k).completedAt.Some? && RowOf(c.rows, k) == b.rows[k];
    hide MarkPaid;
  }

  lemma RowLeftStays(b: Book, c: Book, v: Book, x: Key, granted: bool, unstamped: bool)
    requires c.grants <= v.grants && RowOf(v.rows, x) == RowOf(c.rows, x) && RowLeft(b, c, x, granted, unstamped)
    ensures RowLeft(b, v, x, granted, unstamped)
  {
  }

  lemma {:induction false} SweepGoesOn(b: Book, c: Book, v: Book, batch: seq<Key>, i: nat, refused: set<Key>,
                                       unstamped: set<Key>, fate: Fate, now: nat)
    requires i < |batch| && batch[i] !in batch[..i] && Owed(b.defs, b.rows, batch[i])
    requires SweepLeaves(b, c, batch[..i], refused, unstamped) && v.defs == c.defs && c.grants <= v.grants
    requires IsFate(fate, c, v, DueOf(b.defs, batch[i]), now)
    ensures var r, u := Refused(refused, fate, batch[i]), Unstamped(unstamped, fate, batch[i]);
      && SweepLeaves(b, v, batch[..i + 1], r, u)
      && |r| + |u| + (if fate.RepaidNow? then 1 else 0) == |refused| + |unstamped| + 1
  {
    hide IsFate, RowLeft, Owed, DueOf, RowOf;
    var k := batch[i];
    assert batch[..i + 1] == batch[..i] + [k];
    assert k !in refused && k !in unstamped;
    FateMoves(b, c, v, k, fate, now) by { assert RowLeft(b, c, k, false, k in unstamped); }
    var r, u := Refused(refused, fate, k), Unstamped(unstamped, fate, k);
    forall x ensures RowLeft(b, v, x, x in batch[..i + 1] && x !in r, x in u) {
      if x != k {
        assert RowLeft(b, c, x, x in batch[..i] && x !in refused, x in unstamped);
        RowLeftStays(b, c, v, x, x in batch[..i] && x !in refused, x in unstamped);
      }
    }
  }
}
