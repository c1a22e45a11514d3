/**
 The achievements tables and the statements of achievements/store_pg.go, each one atomic
 step on them.
 */
module AchievementRows {
  import opened Basics

  /** One definition. An empty reward is a pure badge. */
  datatype Def = Def(id: nat, slug: Bytes, reward: Bytes, metric: Bytes, threshold: int, trigger: Bytes, enabled: bool,
                     backfilledAt: Option<nat>)

  datatype Key = Key(achievement: nat, user: nat)

  /** One member's standing; the two stamps are times. */
  datatype Row = Row(progress: int, times: nat, completedAt: Option<nat>, paidAt: Option<nat>)

  type Defs = map<nat, Def>
  type Rows = map<Key, Row>

  const NO_ROW := Row(0, 0, None, None)

  function RowOf(rows: Rows, k: Key): Row { if k in rows then rows[k] else NO_ROW }

  /** What both progress statements return from the row they have just written. */
  predicate Reached(d: Def, row: Row) { row.progress >= d.threshold && d.threshold > 0 && row.completedAt.None? }

  datatype Progress = Moved(rows: Rows, reached: bool) | UnknownAchievement

  function RecordProgress(defs: Defs, rows: Rows, k: Key, value: int): Progress {
    if k.achievement !in defs then UnknownAchievement
    else
      var row := RowOf(rows, k).(progress := value);
      Moved(rows[k := row], Reached(defs[k.achievement], row))
  }

  /** A delta that is not positive is answered before the database is asked. */
  function IncrementProgress(defs: Defs, rows: Rows, k: Key, delta: int): Progress {
    if delta <= 0 then Moved(rows, false)
    else if k.achievement !in defs then UnknownAchievement
    else
      var row := RowOf(rows, k);
      var moved := row.(progress := row.progress + delta);
      Moved(rows[k := moved], Reached(defs[k.achievement], moved))
  }

  datatype Completion = Completed(rows: Rows) | AlreadyCompleted | NoSuchAchievement

  /** The latch: of any number of evaluations exactly one finds completed_at empty. */
  function CompleteAchievement(defs: Defs, rows: Rows, k: Key, paid: bool, now: nat): Completion {
    if k.achievement !in defs then NoSuchAchievement
    else
      var row := RowOf(rows, k);
      if row.completedAt.Some? then AlreadyCompleted
      else
        var done := row.(times := row.times + 1, completedAt := Some(now));
        Completed(rows[k := if paid then done.(paidAt := Some(now)) else done])
  }

  function MarkPaid(rows: Rows, k: Key, now: nat): Rows {
    if k in rows && rows[k].completedAt.Some? &&
    rows[k].paidAt.None? then rows[k := rows[k].(paidAt := Some(now))] else rows
  }

  function MarkBackfilled(defs: Defs, id: nat, now: nat): Defs {
    if id in defs && defs[id].backfilledAt.None? then defs[id := defs[id].(backfilledAt := Some(now))] else defs
  }

  /** The repair sweep's condition on one row. */
  predicate Owed(defs: Defs, rows: Rows, k: Key) {
    k in rows && rows[k].completedAt.Some? && rows[k].paidAt.None? && k.achievement in defs &&
    defs[k.achievement].reward != []
  }

  function UnpaidKeys(defs: Defs, rows: Rows): set<Key> { set k | k in rows && Owed(defs, rows, k) }

  /** What every statement keeps: a payment belongs to a completion, and completions latch at one. */
  ghost predicate RowsOk(defs: Defs, rows: Rows) {
    forall k :: k in rows ==> k.achievement in defs && RowOk(rows[k])
  }

  ghost predicate RowOk(row: Row) {
    (row.paidAt.Some? ==> row.completedAt.Some?) && row.times == if row.completedAt.Some? then 1 else 0
  }

  lemma StatementsKeepRows(defs: Defs, rows: Rows, k: Key, value: int, paid: bool, now: nat)
    requires RowsOk(defs, rows)
    ensures RecordProgress(defs, rows, k, value).Moved? ==> RowsOk(defs, RecordProgress(defs, rows, k, value).rows)
    ensures IncrementProgress(defs, rows, k, value).Moved? ==>
      RowsOk(defs, IncrementProgress(defs, rows, k, value).rows)
    ensures CompleteAchievement(defs, rows, k, paid, now).Completed? ==>
      RowsOk(defs, CompleteAchievement(defs, rows, k, paid, now).rows)
    ensures RowsOk(defs, MarkPaid(rows, k, now)) && RowsOk(MarkBackfilled(defs, k.achievement, now), rows)
  {
  }

  /** Column by column: what latching an open row writes, and that it writes no other row. */
  lemma LatchWrites(defs: Defs, rows: Rows, k: Key, paid: bool, now: nat)
    requires k.achievement in defs && RowOf(rows, k).completedAt.None?
    ensures CompleteAchievement(defs, rows, k, paid, now).Completed?
    ensures var was, after := RowOf(rows, k), CompleteAchievement(defs, rows, k, paid, now).rows;
      && RowOf(after, k) == Row(was.progress, was.times + 1, Some(now), if paid then Some(now) else was.paidAt)
      && forall x :: x != k ==> RowOf(after, x) == RowOf(rows, x)
  {
  }

  /** Column by column: a stamp goes to a completed row without one, and nothing else is written. */
  lemma StampWrites(rows: Rows, k: Key, now: nat)
    ensures var was, after := RowOf(rows, k), MarkPaid(rows, k, now);
      && RowOf(after, k) ==
        (if was.completedAt.Some? && was.paidAt.None? then Row(was.progress, was.times, was.completedAt, Some(now))
         else was)
      && forall x :: x != k ==> RowOf(after, x) == RowOf(rows, x)
  {
  }

  /** Nothing takes back a completion or a payment: `after` has both wherever `before` had. */
  ghost predicate OnlyForward(before: Rows, after: Rows) {
    forall k :: k in before ==> k in after && RowForward(before[k], after[k])
  }

  ghost predicate RowForward(before: Row, after: Row) {
    before.completedAt.Some? ==>
      after.completedAt == before.completedAt && (before.paidAt.Some? ==> after.paidAt == before.paidAt)
  }

  lemma StatementsOnlyForward(defs: Defs, rows: Rows, k: Key, value: int, paid: bool, now: nat)
    ensures RecordProgress(defs, rows, k, value).Moved? ==> OnlyForward(rows, RecordProgress(defs, rows, k, value).rows)
    ensures IncrementProgress(defs, rows, k, value).Moved? ==>
      OnlyForward(rows, IncrementProgress(defs, rows, k, value).rows)
    ensures CompleteAchievement(defs, rows, k, paid, now).Completed? ==>
      OnlyForward(rows, CompleteAchievement(defs, rows, k, paid, now).rows)
    ensures OnlyForward(rows, MarkPaid(rows, k, now))
  {
  }

  // ---- The crossing is a level, not an edge ------------------------------

  /** One write to a member's progress. */
  datatype Write = Set(value: int) | Add(delta: int)

  function Written(defs: Defs, rows: Rows, k: Key, w: Write): Progress {
    match w
    case Set(v) => RecordProgress(defs, rows, k, v)
    case Add(n) => IncrementProgress(defs, rows, k, n)
  }

  function WrittenAll(defs: Defs, rows: Rows, k: Key, ws: seq<Write>): Rows {
    if ws == [] then rows
    else
      var before := WrittenAll(defs, rows, k, ws[..|ws| - 1]);
      match Written(defs, before, k, ws[|ws| - 1])
      case Moved(after, _) => after
      case UnknownAchievement => before
  }

  lemma {:induction false} WritesNeverComplete(defs: Defs, rows: Rows, k: Key, ws: seq<Write>)
    ensures RowOf(WrittenAll(defs, rows, k, ws), k).completedAt == RowOf(rows, k).completedAt
  {
    if ws != [] { WritesNeverComplete(defs, rows, k, ws[..|ws| - 1]); }
  }

  /** Where a run of writes leaves the number: the last total set, plus what was added since. */
  function Level(start: int, ws: seq<Write>): int {
    if ws == [] then start
    else match ws[|ws| - 1]
      case Set(v) => v
      case Add(n) => Level(start, ws[..|ws| - 1]) + if n > 0 then n else 0
  }

  lemma {:induction false} WritesReachLevel(defs: Defs, rows: Rows, k: Key, ws: seq<Write>)
    requires k.achievement in defs
    ensures RowOf(WrittenAll(defs, rows, k, ws), k).progress == Level(RowOf(rows, k).progress, ws)
  {
    if ws != [] { WritesReachLevel(defs, rows, k, ws[..|ws| - 1]); }
  }

  /**
   A crossing is never lost: after any run of writes, whatever they reported and whoever died
   on hearing it, the next write that is not a retraction reports a crossing exactly if the row
   was open and the writes and it together stand at or above a positive threshold.
   */
  lemma {:induction false} CrossingReportedUntilCompleted(defs: Defs, rows: Rows, k: Key, ws: seq<Write>, w: Write)
    requires k.achievement in defs && (w.Add? ==> w.delta > 0)
    ensures var p, d := Written(defs, WrittenAll(defs, rows, k, ws), k, w), defs[k.achievement];
      && p.Moved?
      && (p.reached <==>
          RowOf(rows, k).completedAt.None? && d.threshold > 0
          && Level(RowOf(rows, k).progress, ws + [w]) >= d.threshold)
  {
    WritesNeverComplete(defs, rows, k, ws);
    WritesReachLevel(defs, rows, k, ws);
    assert (ws + [w])[..|ws|] == ws;
  }
}
