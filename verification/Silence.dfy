/**
 An achievement that no metric pass ever scores stays silent: its definition is never marked
 backfilled, and events complete it as if it were being backfilled still.
 */
module Silence {
  import opened AchievementRows
  import opened Protocol

  /** Events may count towards `id`, but nothing scores it, triggers it or awards it. */
  predicate LeavesUnscored(a: Action, id: nat) {
    match a
    case PassStart(_, i, _) => i != id
    case HearTrigger(_, i, _) => i != id
    case AwardStart(_, i, _) => i != id
    case _ => true
  }

  ghost predicate Quiet(w: World, id: nat) {
    && (forall i :: i in w.book.defs ==> w.book.defs[i].id == i)
    && (id in w.book.defs ==> w.book.defs[id].backfilledAt.None?)
    && (forall t :: t in w.tasks ==> QuietTask(w.tasks[t], id))
    && (forall i :: 0 <= i < |w.news| ==> w.news[i].key.achievement != id)
  }

  predicate QuietTask(f: Task, id: nat) {
    f.Flow? && f.d.id == id ==> f.silent && !f.pass && !f.stage.Scoring? && !f.stage.Awarding? && !f.stage.Announcing?
  }

  lemma {:induction false} QuietPut(w: World, id: nat, t: nat, f: Task)
    requires Quiet(w, id)
    ensures Quiet(Drop(w, t), id) && (QuietTask(f, id) ==> Quiet(Put(w, t, f), id))
  {
    hide QuietTask;
  }

  lemma {:induction false} QuietSettle(w: World, id: nat, t: nat, f: Task, paid: bool)
    requires Quiet(w, id) && f.Flow? && QuietTask(f, id)
    ensures Quiet(Finish(w, t, f), id) && Quiet(Settle(w, t, f, paid), id)
  {
    QuietPut(w, id, t, f.(stage := Scoring));
    QuietPut(w, id, t, f.(stage := Announcing(paid)));
    hide Quiet;
  }

  lemma {:induction false} QuietBook(w: World, id: nat, b: Book)
    requires Quiet(w, id) && b.defs == w.book.defs
    ensures Quiet(w.(book := b), id)
  {
    hide QuietTask;
  }

  lemma {:induction false} QuietComplete(w: World, id: nat, t: nat, f: Task, o: Outcome)
    requires Quiet(w, id) && f.Flow? && (f.stage.Completing? || f.stage.Awarding?) && QuietTask(f, id)
    ensures Quiet(StepComplete(w, t, f, o), id)
  {
    var paid := f.stage.Awarding? || f.d.reward == [];
    var c := CompleteAchievement(w.book.defs, w.book.rows, KeyOf(f), paid, w.clock);
    QuietSettle(w, id, t, f, true);
    if c.Completed? {
      var b := Latch(w.book, KeyOf(f), c.rows, paid, f.stage.Awarding?);
      QuietBook(w, id, b);
      QuietSettle(w.(book := b), id, t, f, true);
      QuietPut(w.(book := b), id, t, f.(stage := Paying));
    }
    hide Quiet, CompleteAchievement;
  }

  lemma {:induction false} QuietFlow(w: World, id: nat, t: nat, o: Outcome)
    requires Quiet(w, id) && t in w.tasks && w.tasks[t].Flow?
    ensures Quiet(StepFlow(w, t, w.tasks[t], o), id)
  {
    var f := w.tasks[t];
    assert QuietTask(f, id);
    match f.stage
    case Paying =>
      var b := Ask(w.book, GrantOf(f), o);
      QuietBook(w, id, b);
      QuietSettle(w.(book := b), id, t, f, false);
      QuietPut(w.(book := b), id, t, f.(stage := Stamping));
      hide Quiet;
    case Stamping =>
      var b := Stamp(w.book, KeyOf(f), o, w.clock);
      QuietBook(w, id, b);
      hide Quiet;
      QuietSettle(w.(book := b), id, t, f, true);
    case Announcing(paid) =>
      var told := w.(news := w.news + [News(KeyOf(f), paid)]);
      assert Quiet(told, id) by { hide QuietTask; }
      hide Quiet;
      QuietSettle(told, id, t, f, true);
    case Completing => QuietComplete(w, id, t, f, o);
    case Awarding => QuietComplete(w, id, t, f, o);
    case _ =>
  }

  lemma {:induction false} QuietSweep(w: World, id: nat, t: nat, o: Outcome)
    requires Quiet(w, id) && t in w.tasks && w.tasks[t].Sweep?
    ensures Quiet(StepSweep(w, t, w.tasks[t], o), id)
  {
    var s := w.tasks[t];
    QuietPut(w, id, t, s);
    if s.todo != [] {
      var b := if s.granted then Stamp(w.book, s.todo[0].key, o, w.clock) else Ask(w.book, DueGrant(s.todo[0]), o);
      QuietBook(w, id, b);
      hide Quiet;
      QuietPut(w.(book := b), id, t, Sweep(s.todo, true));
      QuietPut(w.(book := b), id, t, Sweep(s.todo[1..], false));
    }
  }

  lemma {:induction false} QuietWrote(w: World, id: nat, t: nat, f: Task, p: Progress)
    requires Quiet(w, id) && f.Flow? && QuietTask(f, id)
    ensures Quiet(Wrote(w, t, f, p), id)
  {
    QuietSettle(w, id, t, f, true);
    if p.Moved? {
      var b := w.book.(rows := p.rows);
      QuietBook(w, id, b);
      hide Quiet;
      QuietSettle(w.(book := b), id, t, f, true);
      QuietPut(w.(book := b), id, t, f.(stage := Completing));
    }
  }

  lemma {:induction false} QuietDefs(w: World, id: nat, defs: Defs)
    requires Quiet(w, id) && (forall i :: i in defs ==> defs[i].id == i) && (id in defs ==> defs[id].backfilledAt.None?)
    ensures Quiet(w.(book := w.book.(defs := defs)), id)
  {
    hide QuietTask;
  }

  lemma {:induction false} QuietPassEnd(w: World, id: nat, t: nat)
    requires Quiet(w, id)
    ensures Quiet(Act(w, PassEnd(t)), id)
  {
    if Before(w, t, Scoring) {
      var d := w.tasks[t].d;
      assert QuietTask(w.tasks[t], id);
      var defs := MarkBackfilled(w.book.defs, d.id, w.clock);
      QuietDefs(w, id, defs);
      QuietPut(w, id, t, w.tasks[t]);
      QuietPut(w.(book := w.book.(defs := defs)), id, t, w.tasks[t]);
      hide Quiet;
    }
  }

  lemma {:induction false} QuietBegin(w: World, id: nat, t: nat, i: nat, stage: Stage, user: nat, silent: bool,
                                      left: map<nat, int>)
    requires Quiet(w, id) && i in w.book.defs
    requires i == id ==> stage.Counting? && silent
    ensures Quiet(Begin(w, t, i, stage, user, silent, left), id)
  {
    QuietPut(w, id, t, Flow(stage, w.book.defs[i], user, silent, stage.Scoring?, left));
  }

  lemma {:induction false} QuietApply(w: World, id: nat, a: Action)
    requires Quiet(w, id) && LeavesUnscored(a, id)
    ensures Quiet(Apply(w, a), id)
  {
    QuietAct(w, id, a);
    hide Act, Quiet, LeavesUnscored;
    QuietClock(Act(w, a), id, w.clock + 1);
  }

  lemma {:induction false} QuietAct(w: World, id: nat, a: Action)
    requires Quiet(w, id) && LeavesUnscored(a, id)
    ensures Quiet(Act(w, a), id)
  {
    var defs := w.book.defs;
    match a
    case HearMetric(t, i, user) =>
      if i in defs { QuietBegin(w, id, t, i, Counting, user, defs[i].backfilledAt.None?, map[]); }
    case HearTrigger(t, i, user) => if i in defs { QuietBegin(w, id, t, i, Completing, user, false, map[]); }
    case AwardStart(t, i, user) => if i in defs { QuietBegin(w, id, t, i, Awarding, user, false, map[]); }
    case PassStart(t, i, values) =>
      if i in defs { QuietBegin(w, id, t, i, Scoring, 0, defs[i].backfilledAt.None?, values); }
    case SweepStart(t, batch) => if IsBatch(w.book, batch) { QuietPut(w, id, t, Sweep(Dues(defs, batch), false)); }
    case Count(t, delta) =>
      if Before(w, t, Counting) {
        assert QuietTask(w.tasks[t], id);
        QuietWrote(w, id, t, w.tasks[t], IncrementProgress(defs, w.book.rows, KeyOf(w.tasks[t]), delta));
      }
    case Record(t, user) =>
      if Before(w, t, Scoring) && ToMeet(w.tasks[t], user) {
        assert QuietTask(w.tasks[t], id);
        var f := Meet(w.tasks[t], user);
        QuietWrote(w, id, t, f, RecordProgress(defs, w.book.rows, KeyOf(f), w.tasks[t].left[user]));
      }
    case PassEnd(t) => QuietPassEnd(w, id, t);
    case Step(t, o) =>
      if t in w.tasks { if w.tasks[t].Flow? { QuietFlow(w, id, t, o); } else { QuietSweep(w, id, t, o); } }
    case Crash(t) => QuietPut(w, id, t, Sweep([], false));
    case _ => QuietDefs(w, id, Define(defs, a));
  }

  lemma {:induction false} QuietClock(w: World, id: nat, clock: nat)
    requires Quiet(w, id)
    ensures Quiet(w.(clock := clock), id)
  {
    hide QuietTask;
  }

  lemma {:induction false} QuietRun(w: World, id: nat, acts: seq<Action>)
    requires Quiet(w, id) && forall i :: 0 <= i < |acts| ==> LeavesUnscored(acts[i], id)
    ensures Quiet(Run(w, acts), id)
    decreases |acts|
  {
    if acts != [] {
      QuietApply(w, id, acts[0]);
      hide Quiet, Apply, LeavesUnscored;
      QuietRun(Apply(w, acts[0]), id, acts[1..]);
    }
  }

  /** However many members complete it, none of it is ever announced. */
  lemma {:induction false} UnscoredStaysSilent(id: nat, acts: seq<Action>)
    requires forall i :: 0 <= i < |acts| ==> LeavesUnscored(acts[i], id)
    ensures var w := Run(EMPTY, acts);
      (forall i :: 0 <= i < |w.news| ==> w.news[i].key.achievement != id) && (id in w.book.defs ==>
        w.book.defs[id].backfilledAt.None?)
  {
    QuietRun(EMPTY, id, acts);
    hide Run;
  }
}
