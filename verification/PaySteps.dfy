/**
 Every action keeps the invariant, so every run does.
 */
module PaySteps {
  import opened Basics
  import opened AchievementRows
  import opened Protocol
  import opened PayOnce

  /** `f` owes, tells and may complete no more than `g`. */
  ghost predicate Narrower(f: Task, g: Task) {
    && (forall k, s :: Owes(f, k, s) ==> Owes(g, k, s))
    && (forall k, s :: MayComplete(f, k, s) ==> MayComplete(g, k, s))
    && (Telling(f) ==> Telling(g) && KeyOf(f) == KeyOf(g))
  }

  lemma {:induction false} NarrowerFits(w: World, t: nat, f: Task)
    requires Inv(w) && t in w.tasks && TaskOk(w.book, f) && Narrower(f, w.tasks[t])
    ensures Fits(w, t, f)
  {
    hide TaskOk, Owes, MayComplete, Open, Unpaid, Current, RowsOk, Named, AskedOk, PaidOk, NewsOk, Told;
    forall k, s | Owes(f, k, s) ensures Promise(w, k, s) {
      assert Owes(w.tasks[t], k, s);
    }
    forall k, s | Owes(f, k, s) && Unpaid(w.book, k) && !Open(w.book, k) ensures Current(w.book, k, s) {
      OwedIsClaimed(w, t, k, s);
    }
    forall k, s | MayComplete(f, k, s) && s != [] && Open(w.book, k) ensures Current(w.book, k, s) {
      MayCompleteIsClaimed(w, t, k, s);
    }
  }

  lemma {:induction false} OwedIsClaimed(w: World, t: nat, k: Key, s: Bytes)
    requires Inv(w) && t in w.tasks && Owes(w.tasks[t], k, s) && Unpaid(w.book, k)
    ensures Current(w.book, k, s)
  {
    assert TaskOk(w.book, w.tasks[t]);
    hide Open, Unpaid, RowsOk, Named, AskedOk, PaidOk, NewsOk, PromisesAgree;
    assert Promise(w, k, s);
    assert s != [];
    assert Claim(w, k, s);
  }

  lemma {:induction false} MayCompleteIsClaimed(w: World, t: nat, k: Key, s: Bytes)
    requires Inv(w) && t in w.tasks && MayComplete(w.tasks[t], k, s) && s != [] && Open(w.book, k)
    ensures Current(w.book, k, s)
  {
    assert Unpaid(w.book, k) by { assert RowsOk(w.book.defs, w.book.rows); }
    assert TaskOk(w.book, w.tasks[t]);
    assert Claim(w, k, s);
  }

  lemma {:induction false} Advance(w: World, t: nat, f: Task)
    requires Inv(w) && t in w.tasks && TaskOk(w.book, f) && Narrower(f, w.tasks[t])
    ensures Inv(Put(w, t, f))
  {
    NarrowerFits(w, t, f);
    PutKeeps(w, t, f);
  }

  /** Later in the same pass: what is left is part of what was left. */
  ghost predicate Follows(f: Task, g: Task) {
    f.Flow? && g.Flow? && forall user :: ToMeet(f, user) ==> ToMeet(g, user)
  }

  lemma {:induction false} FinishKeeps(w: World, t: nat, f: Task)
    requires Inv(w) && t in w.tasks && w.tasks[t].Flow? && f.Flow? && f.d == w.tasks[t].d && f.pass == w.tasks[t].pass
    requires Follows(f, w.tasks[t])
    ensures Inv(Finish(w, t, f))
  {
    if f.pass {
      assert TaskOk(w.book, w.tasks[t]);
      hide Inv;
      Advance(w, t, f.(stage := Scoring));
    } else {
      DropKeeps(w, t);
    }
  }

  lemma {:induction false} SettleKeeps(w: World, t: nat, f: Task, paid: bool)
    requires Inv(w) && t in w.tasks && w.tasks[t] == f && f.Flow? && Telling(f) && (paid ==> PaidFor(w.book, KeyOf(f)))
    ensures Inv(Settle(w, t, f, paid))
  {
    if f.silent {
      FinishKeeps(w, t, f);
    } else {
      assert TaskOk(w.book, f);
      hide Inv, PaidFor, Open, Free;
      Advance(w, t, f.(stage := Announcing(paid)));
    }
  }

  // ---- The latch -------------------------------------------------------

  ghost predicate Alone(w: World, t: nat, k: Key) {
    !Told(w, k) && forall u :: u in w.tasks && u != t && Telling(w.tasks[u]) ==> KeyOf(w.tasks[u]) != k
  }

  lemma {:induction false} OpenIsAlone(w: World, t: nat, k: Key)
    requires Inv(w) && Open(w.book, k)
    ensures Alone(w, t, k) && forall s :: !Promise(w, k, s)
  {
    forall s ensures !Promise(w, k, s) {
      if Promise(w, k, s) { PromisedIsCompleted(w, k, s); }
    }
    hide Open, RowsOk, Named, AskedOk, PaidOk, PromisesAgree, ClaimsCurrent;
    forall u | u in w.tasks && u != t && Telling(w.tasks[u]) ensures KeyOf(w.tasks[u]) != k {
      assert TaskOk(w.book, w.tasks[u]);
    }
  }

  /** The winner of the latch, in the world after it: on to the granter, or to the announcement. */
  lemma {:induction false} WinnerKeeps(w: World, t: nat, f: Task, stage: Stage)
    requires Inv(w) && t in w.tasks && w.tasks[t].Flow? && f == w.tasks[t].(stage := stage)
    requires w.tasks[t].stage.Completing? || w.tasks[t].stage.Awarding?
    requires Alone(w, t, KeyOf(f)) && !Open(w.book, KeyOf(f)) && (forall s :: !Promise(w, KeyOf(f), s))
    requires stage == Announcing(true) || stage == Paying
    requires stage == Announcing(true) ==> PaidFor(w.book, KeyOf(f))
    requires stage == Paying ==> f.d.reward != [] && !Free(w.book, KeyOf(f)) && Current(w.book, KeyOf(f), f.d.reward)
    ensures Inv(Put(w, t, f))
  {
    assert TaskOk(w.book, w.tasks[t]);
    assert TaskOk(w.book, f);
    forall k, s | MayComplete(f, k, s) && s != [] && Open(w.book, k) ensures Current(w.book, k, s) {
      MayCompleteIsClaimed(w, t, k, s);
    }
    hide Inv, TaskOk, Open, Unpaid, Current, Promise, PaidFor, Free, Told;
    assert Fits(w, t, f);
    PutKeeps(w, t, f);
  }

  lemma {:induction false} CompleteKeeps(w: World, t: nat, o: Outcome)
    requires Inv(w) && (Before(w, t, Completing) || Before(w, t, Awarding))
    ensures Inv(StepComplete(w, t, w.tasks[t], o))
  {
    var f := w.tasks[t];
    var k := KeyOf(f);
    var direct := f.stage.Awarding?;
    var paid := direct || f.d.reward == [];
    var c := CompleteAchievement(w.book.defs, w.book.rows, k, paid, w.clock);
    if o.FailedBefore? || !c.Completed? {
      FinishKeeps(w, t, f);
    } else {
      CompleteWins(w, t, o);
    }
  }

  lemma {:induction false} CompleteWins(w: World, t: nat, o: Outcome)
    requires Inv(w) && (Before(w, t, Completing) || Before(w, t, Awarding)) && !o.FailedBefore?
    requires w.tasks[t].d.id in w.book.defs && Open(w.book, KeyOf(w.tasks[t]))
    ensures Inv(StepComplete(w, t, w.tasks[t], o))
  {
    var f := w.tasks[t];
    var k := KeyOf(f);
    var direct := f.stage.Awarding?;
    var paid := direct || f.d.reward == [];
    var c := CompleteAchievement(w.book.defs, w.book.rows, k, paid, w.clock);
    LatchKeeps(w, k, paid, direct, w.clock);
    LatchRow(w.book, k, paid, direct, w.clock);
    OpenIsAlone(w, t, k);
    assert TaskOk(w.book, f);
    if !paid { MayCompleteIsClaimed(w, t, k, f.d.reward); }
    var v := w.(book := Latch(w.book, k, c.rows, paid, direct));
    hide Inv, Open, Unpaid, Free, CompleteAchievement, TaskOk;
    assert forall s :: Promise(v, k, s) == Promise(w, k, s);
    assert Alone(v, t, k);
    if o.FailedAfter? || (paid && f.silent) {
      FinishKeeps(v, t, f);
    } else if paid {
      WinnerKeeps(v, t, f.(stage := Announcing(true)), Announcing(true));
    } else {
      assert Current(v.book, k, f.d.reward);
      WinnerKeeps(v, t, f.(stage := Paying), Paying);
    }
  }

  // ---- The payment -----------------------------------------------------

  lemma {:induction false} GrantedMayStamp(b: Book, f: Task)
    requires TaskOk(b, f) && f.Flow? && f.stage.Paying? && GrantOf(f) in b.grants
    ensures TaskOk(b, f.(stage := Stamping)) && Narrower(f.(stage := Stamping), f)
  {
  }

  lemma PayingOwes(b: Book, f: Task)
    requires TaskOk(b, f) && f.Flow? && f.stage.Paying?
    ensures Owes(f, KeyOf(f), f.d.reward) && GrantOf(f) == GrantFor(b, KeyOf(f), f.d.reward)
  {
  }

  lemma {:induction false} PayKeeps(w: World, t: nat, o: Outcome)
    requires Inv(w) && Before(w, t, Paying)
    ensures Inv(StepFlow(w, t, w.tasks[t], o))
  {
    var f := w.tasks[t];
    InvOfTask(w, t);
    hide Inv, Narrower;
    PayingOwes(w.book, f);
    hide TaskOk, Owes;
    AskKeeps(w, t, KeyOf(f), f.d.reward, o);
    var v := w.(book := Ask(w.book, GrantOf(f), o));
    InvOfTask(v, t);
    if o.Done? {
      GrantedMayStamp(v.book, f);
      Advance(v, t, f.(stage := Stamping));
    } else {
      SettleKeeps(v, t, f, false);
    }
  }

  lemma {:induction false} StampStepKeeps(w: World, t: nat, o: Outcome)
    requires Inv(w) && Before(w, t, Stamping)
    ensures Inv(StepFlow(w, t, w.tasks[t], o))
  {
    var f := w.tasks[t];
    assert TaskOk(w.book, f);
    assert IsGrantOf(w.book, KeyOf(f), GrantOf(f));
    StampKeeps(w, KeyOf(f), o, w.clock);
    var v := w.(book := Stamp(w.book, KeyOf(f), o, w.clock));
    assert IsGrantOf(v.book, KeyOf(f), GrantOf(f));
    hide Inv;
    SettleKeeps(v, t, f, true);
  }

  lemma {:induction false} TellerLeaves(w: World, t: nat)
    requires TellersOk(w) && TasksOk(w) && t in w.tasks && Telling(w.tasks[t])
    ensures var f := w.tasks[t]; var v := Finish(w, t, f);
      !Open(w.book, KeyOf(f)) && (f.stage.Announcing? && f.stage.paid ==> PaidFor(w.book, KeyOf(f))) && v.book == w.book
      && !Told(v, KeyOf(f)) && forall u :: u in v.tasks && Telling(v.tasks[u]) ==> KeyOf(v.tasks[u]) != KeyOf(f)
  {
    var f := w.tasks[t];
    assert TaskOk(w.book, f);
    hide Open, PaidFor;
    assert forall u :: u in Finish(w, t, f).tasks && Telling(Finish(w, t, f).tasks[u]) ==>
      u in w.tasks && u != t && Finish(w, t, f).tasks[u] == w.tasks[u];
  }

  lemma {:induction false} TellKeeps(w: World, t: nat, o: Outcome)
    requires Inv(w) && t in w.tasks && w.tasks[t].Flow? && w.tasks[t].stage.Announcing?
    ensures Inv(StepFlow(w, t, w.tasks[t], o))
  {
    var f := w.tasks[t];
    FinishKeeps(w, t, f);
    TellerLeaves(w, t);
    hide Inv, Open, PaidFor, Told;
    AnnounceKeeps(Finish(w, t, f), KeyOf(f), f.stage.paid);
  }

  lemma {:induction false} SweepKeeps(w: World, t: nat, o: Outcome)
    requires Inv(w) && t in w.tasks && w.tasks[t].Sweep?
    ensures Inv(StepSweep(w, t, w.tasks[t], o))
  {
    var s := w.tasks[t];
    if s.todo == [] {
      DropKeeps(w, t);
    } else {
      var e := s.todo[0];
      assert TaskOk(w.book, s);
      assert DueOk(w.book, e);
      assert DueGrant(e) == GrantFor(w.book, e.key, e.reward);
      var rest := Sweep(s.todo[1..], false);
      var v;
      if s.granted {
        assert IsGrantOf(w.book, e.key, DueGrant(e));
        StampKeeps(w, e.key, o, w.clock);
        v := w.(book := Stamp(w.book, e.key, o, w.clock));
      } else {
        assert Owes(s, e.key, e.reward);
        AskKeeps(w, t, e.key, e.reward, o);
        v := w.(book := Ask(w.book, DueGrant(e), o));
      }
      assert TaskOk(v.book, s) by { assert Inv(v); }
      hide Inv, DueOk;
      Advance(v, t, if !s.granted && o.Done? then Sweep(s.todo, true) else rest);
    }
  }

  lemma {:induction false} StepKeeps(w: World, t: nat, o: Outcome)
    requires Inv(w) && t in w.tasks
    ensures Inv(Act(w, Step(t, o)))
  {
    var f := w.tasks[t];
    if f.Sweep? {
      SweepKeeps(w, t, o);
    } else {
      match f.stage
      case Scoring =>
      case Counting =>
      case Completing => CompleteKeeps(w, t, o);
      case Awarding => CompleteKeeps(w, t, o);
      case Paying => PayKeeps(w, t, o);
      case Stamping => StampStepKeeps(w, t, o);
      case Announcing(_) => TellKeeps(w, t, o);
    }
  }

  // ---- Progress, reads and definitions -------------------------------------

  lemma {:induction false} WroteKeeps(w: World, t: nat, f: Task, p: Progress)
    requires Inv(w) && t in w.tasks && w.tasks[t].Flow? && f.Flow? && KeyOf(f).user != 0
    requires f.d == w.tasks[t].d && f.pass == w.tasks[t].pass && Follows(f, w.tasks[t])
    requires if f.pass then ToMeet(w.tasks[t], f.user) else f == w.tasks[t]
    requires w.tasks[t].stage.Counting? || w.tasks[t].stage.Scoring?
    requires p.Moved? ==> OnlyProgress(w.book.rows, p.rows) && RowsOk(w.book.defs, p.rows)
    ensures Inv(Wrote(w, t, f, p))
  {
    match p
    case UnknownAchievement => FinishKeeps(w, t, f);
    case Moved(rows, reached) =>
      ProgressKeeps(w, rows);
      var v := w.(book := w.book.(rows := rows));
      if reached {
        assert TaskOk(w.book, w.tasks[t]);
        hide Inv;
        Advance(v, t, f.(stage := Completing));
      } else {
        FinishKeeps(v, t, f);
      }
  }

  lemma {:induction false} OneRowMoves(rows: Rows, k: Key, row: Row)
    requires row.completedAt == RowOf(rows, k).completedAt && row.paidAt == RowOf(rows, k).paidAt
    ensures OnlyProgress(rows, rows[k := row])
  {
  }

  lemma {:induction false} WritesMoveProgressOnly(defs: Defs, rows: Rows, k: Key, n: int)
    ensures var p := IncrementProgress(defs, rows, k, n); p.Moved? ==> OnlyProgress(rows, p.rows)
    ensures var p := RecordProgress(defs, rows, k, n); p.Moved? ==> OnlyProgress(rows, p.rows)
  {
    var row := RowOf(rows, k);
    OneRowMoves(rows, k, row.(progress := row.progress + n));
    OneRowMoves(rows, k, row.(progress := n));
    assert OnlyProgress(rows, rows);
    hide OnlyProgress;
  }

  lemma InvOfTask(w: World, t: nat)
    requires Inv(w) && t in w.tasks
    ensures TaskOk(w.book, w.tasks[t]) && RowsOk(w.book.defs, w.book.rows)
  {
  }

  lemma {:induction false} CountKeeps(w: World, t: nat, delta: int)
    requires Inv(w)
    ensures Inv(Act(w, Count(t, delta)))
  {
    if Before(w, t, Counting) && delta > 0 {
      var f := w.tasks[t];
      InvOfTask(w, t);
      hide Inv;
      WritesMoveProgressOnly(w.book.defs, w.book.rows, KeyOf(f), delta);
      StatementsKeepRows(w.book.defs, w.book.rows, KeyOf(f), delta, false, 0);
      hide RowsOk, OnlyProgress, IncrementProgress;
      WroteKeeps(w, t, f, IncrementProgress(w.book.defs, w.book.rows, KeyOf(f), delta));
    }
  }

  lemma {:induction false} RecordKeeps(w: World, t: nat, user: nat)
    requires Inv(w)
    ensures Inv(Act(w, Record(t, user)))
  {
    if Before(w, t, Scoring) && ToMeet(w.tasks[t], user) {
      InvOfTask(w, t);
      hide Inv;
      var f, value := Meet(w.tasks[t], user), w.tasks[t].left[user];
      WritesMoveProgressOnly(w.book.defs, w.book.rows, KeyOf(f), value);
      StatementsKeepRows(w.book.defs, w.book.rows, KeyOf(f), value, false, 0);
      hide RowsOk, OnlyProgress, RecordProgress;
      WroteKeeps(w, t, f, RecordProgress(w.book.defs, w.book.rows, KeyOf(f), value));
    }
  }

  lemma {:induction false} BeginKeeps(w: World, t: nat, id: nat, stage: Stage, user: nat, silent: bool,
                                      left: map<nat, int>)
    requires Inv(w) && id in w.book.defs && (stage.Scoring? || user != 0)
    requires stage.Scoring? || stage.Counting? || stage.Completing? || stage.Awarding?
    ensures Inv(Begin(w, t, id, stage, user, silent, left))
  {
    if t !in w.tasks {
      var f := Flow(stage, w.book.defs[id], user, silent, stage.Scoring?, left);
      assert Named(w.book.defs);
      assert TaskOk(w.book, f);
      hide Inv, TaskOk;
      PutKeeps(w, t, f);
    }
  }

  lemma {:induction false} BatchFits(w: World, t: nat, batch: seq<Key>)
    requires Inv(w) && IsBatch(w.book, batch)
    ensures Fits(w, t, Sweep(Dues(w.book.defs, batch), false))
  {
    var s := Sweep(Dues(w.book.defs, batch), false);
    assert forall i :: 0 <= i < |batch| ==> s.todo[i] == DueOf(w.book.defs, batch[i]);
    forall e | e in s.todo ensures DueOk(w.book, e) && Unpaid(w.book, e.key) && DueOf(w.book.defs, e.key) == e {
      var i :| 0 <= i < |batch| && s.todo[i] == e;
      assert Owed(w.book.defs, w.book.rows, batch[i]);
      assert PaidOk(w.book);
    }
    hide Inv, DueOk;
    forall k, x, r | Owes(s, k, x) && Promise(w, k, r) ensures x == r {
      OwedMeansCurrent(w, k, r);
    }
  }

  /** While a reward is named, what an unpaid row has been promised is that reward. */
  lemma {:induction false} OwedMeansCurrent(w: World, k: Key, s: Bytes)
    requires Inv(w) && Promise(w, k, s) && Unpaid(w.book, k) && k.achievement in w.book.defs
    requires w.book.defs[k.achievement].reward != []
    ensures s == w.book.defs[k.achievement].reward
  {
    PromisedIsCompleted(w, k, s);
    assert Claim(w, k, s);
  }

  lemma {:induction false} SweepStartKeeps(w: World, t: nat, batch: seq<Key>)
    requires Inv(w)
    ensures Inv(Act(w, SweepStart(t, batch)))
  {
    if t !in w.tasks && IsBatch(w.book, batch) {
      BatchFits(w, t, batch);
      hide Inv, Fits, IsBatch;
      PutKeeps(w, t, Sweep(Dues(w.book.defs, batch), false));
    }
  }

  lemma {:induction false} BackfillRedefines(w: World, id: nat, now: nat)
    requires Named(w.book.defs)
    ensures Redefines(w, MarkBackfilled(w.book.defs, id, now))
  {
    hide SafeReward;
  }

  lemma {:induction false} PassEndKeeps(w: World, t: nat)
    requires Inv(w)
    ensures Inv(Act(w, PassEnd(t)))
  {
    assert Named(w.book.defs);
    hide Inv;
    if Before(w, t, Scoring) {
      var defs := MarkBackfilled(w.book.defs, w.tasks[t].d.id, w.clock);
      BackfillRedefines(w, w.tasks[t].d.id, w.clock);
      hide MarkBackfilled, Redefines;
      DefinitionsKeep(w, defs);
      DropKeeps(w, t);
      DropKeeps(w.(book := w.book.(defs := defs)), t);
    }
  }

  /** An administrator's action that either keeps each reward or changes it safely. */
  ghost predicate Safe(w: World, a: Action) {
    a.Edit? && a.id in w.book.defs ==> a.reward == w.book.defs[a.id].reward || SafeReward(w, a.id, a.reward)
  }

  lemma {:induction false} SafelyRedefines(w: World, a: Action)
    requires Named(w.book.defs) && Safe(w, a)
    ensures Redefines(w, Define(w.book.defs, a))
  {
    StillNamed(w.book.defs, a);
    hide SafeReward, Named;
  }

  lemma {:induction false} StillNamed(defs: Defs, a: Action)
    requires Named(defs)
    ensures Named(Define(defs, a))
  {
    hide CriterionOk;
  }

  lemma {:induction false} DefineKeeps(w: World, a: Action)
    requires Inv(w) && Safe(w, a)
    ensures Inv(w.(book := w.book.(defs := Define(w.book.defs, a))))
  {
    SafelyRedefines(w, a);
    hide Inv, Redefines;
    DefinitionsKeep(w, Define(w.book.defs, a));
  }

  lemma {:induction false} ActKeeps(w: World, a: Action)
    requires Inv(w) && Safe(w, a)
    ensures Inv(Apply(w, a))
  {
    hide Inv, Safe, Act;
    ActKeepsRaw(w, a);
    ClockKeeps(Act(w, a), w.clock + 1);
  }

  lemma {:induction false} ClockKeeps(w: World, clock: nat)
    requires Inv(w)
    ensures Inv(w.(clock := clock))
  {
    var v := w.(clock := clock);
    hide Named, RowsOk, AskedOk, PaidOk, TaskOk, Telling, Open, Unpaid, PaidFor, Owes, MayComplete, Current;
    assert forall k, s :: Promise(v, k, s) == Promise(w, k, s);
    assert forall k, s :: Claim(v, k, s) == Claim(w, k, s);
    assert forall k :: Told(v, k) == Told(w, k);
  }

  lemma {:induction false} ActKeepsRaw(w: World, a: Action)
    requires Inv(w) && Safe(w, a)
    ensures Inv(Act(w, a))
  {
    hide Inv, Before, IncrementProgress, RecordProgress, IsBatch, Dues, StepFlow, StepSweep, Wrote, MarkBackfilled;
    match a
    case HearMetric(t, id, user) =>
      if id in w.book.defs && user != 0 {
        BeginKeeps(w, t, id, Counting, user, w.book.defs[id].backfilledAt.None?, map[]);
      }
    case HearTrigger(t, id, user) =>
      if id in w.book.defs && user != 0 { BeginKeeps(w, t, id, Completing, user, false, map[]); }
    case AwardStart(t, id, user) =>
      if id in w.book.defs && user != 0 { BeginKeeps(w, t, id, Awarding, user, false, map[]); }
    case PassStart(t, id, values) =>
      if id in w.book.defs { BeginKeeps(w, t, id, Scoring, 0, w.book.defs[id].backfilledAt.None?, values); }
    case SweepStart(t, batch) => SweepStartKeeps(w, t, batch);
    case Count(t, delta) => CountKeeps(w, t, delta);
    case Record(t, user) => RecordKeeps(w, t, user);
    case PassEnd(t) => PassEndKeeps(w, t);
    case Step(t, o) => if t in w.tasks { StepKeeps(w, t, o); }
    case Crash(t) => DropKeeps(w, t);
    case _ => DefineKeeps(w, a);
  }
}
