/**
 When a completion by count is announced: exactly when a metric pass over the achievement had
 ended before the event was heard.
 */
module Announcing {
  import opened Basics
  import opened AchievementRows
  import opened Protocol
  import opened PayRuns

  // ---- What one action does to definitions and to the copies threads hold ----

  /** This action ends a metric pass over `id`. */
  predicate EndsPass(w: World, a: Action, id: nat) {
    a.PassEnd? && Before(w, a.t, Scoring) && Through(w.tasks[a.t]) && w.tasks[a.t].d.id == id
  }

  function DefsAfter(w: World, a: Action): Defs {
    match a
    case PassEnd(t) =>
      if Before(w, t, Scoring) && Through(w.tasks[t]) && w.tasks[t].d.backfilledAt.None?
      then MarkBackfilled(w.book.defs, w.tasks[t].d.id, w.clock) else w.book.defs
    case Create(_, _, _, _, _, _) => Define(w.book.defs, a)
    case Edit(_, _, _, _, _) => Define(w.book.defs, a)
    case Enable(_, _) => Define(w.book.defs, a)
    case _ => w.book.defs
  }

  lemma {:induction false} StepKeepsDefs(w: World, t: nat, o: Outcome)
    ensures Act(w, Step(t, o)).book.defs == w.book.defs
  {
    hide CompleteAchievement, MarkPaid;
  }

  lemma {:induction false} DefsMove(w: World, a: Action)
    ensures Apply(w, a).book.defs == DefsAfter(w, a)
  {
    if a.Step? { StepKeepsDefs(w, a.t, a.outcome); }
    hide Define, MarkBackfilled, IsBatch, Dues, IncrementProgress, RecordProgress, StepFlow, StepSweep;
  }

  /** A copy was in some thread's hands already, or is what the table says now. */
  ghost predicate Held(w: World, d: Def) {
    (exists t ::
      t in w.tasks && w.tasks[t].Flow? && w.tasks[t].d == d) || (exists id :: id in w.book.defs && w.book.defs[id] == d)
  }

  ghost predicate OnlyHeld(w: World, v: World) {
    forall t :: t in v.tasks && v.tasks[t].Flow? ==> Held(w, v.tasks[t].d)
  }

  lemma HeldPut(w: World, v: World, t: nat, f: Task)
    requires OnlyHeld(w, v) && (f.Flow? ==> Held(w, f.d))
    ensures OnlyHeld(w, Put(v, t, f)) && OnlyHeld(w, Drop(v, t))
  {
    hide Held;
  }

  lemma HeldSettle(w: World, v: World, t: nat, f: Task, paid: bool)
    requires OnlyHeld(w, v) && f.Flow? && Held(w, f.d)
    ensures OnlyHeld(w, Finish(v, t, f)) && OnlyHeld(w, Settle(v, t, f, paid))
  {
    HeldPut(w, v, t, f.(stage := Scoring));
    HeldPut(w, v, t, f.(stage := Announcing(paid)));
    hide OnlyHeld, Held;
  }

  lemma {:induction false} HeldFlow(w: World, t: nat, o: Outcome)
    requires t in w.tasks && w.tasks[t].Flow?
    ensures OnlyHeld(w, StepFlow(w, t, w.tasks[t], o))
  {
    var f := w.tasks[t];
    var paid := f.stage.Awarding? || f.d.reward == [];
    var c := CompleteAchievement(w.book.defs, w.book.rows, KeyOf(f), paid, w.clock);
    var v := match f.stage
      case Paying => w.(book := Ask(w.book, GrantOf(f), o))
      case Stamping => w.(book := Stamp(w.book, KeyOf(f), o, w.clock))
      case Announcing(p) => w.(news := w.news + [News(KeyOf(f), p)])
      case _ => if c.Completed? then w.(book := Latch(w.book, KeyOf(f), c.rows, paid, f.stage.Awarding?)) else w;
    assert OnlyHeld(w, w) && OnlyHeld(w, v) && Held(w, f.d);
    hide OnlyHeld, Held, CompleteAchievement, Latch, Stamp, Ask;
    HeldSettle(w, v, t, f, f.stage.Stamping? || f.stage.Completing? || f.stage.Awarding?);
    HeldSettle(w, w, t, f, false);
    HeldPut(w, v, t, f.(stage := Paying));
    HeldPut(w, v, t, f.(stage := Stamping));
  }

  lemma {:induction false} HeldAct(w: World, a: Action)
    ensures OnlyHeld(w, Apply(w, a))
  {
    HeldActRaw(w, a);
    hide Act, Held;
  }

  lemma {:induction false} HeldActRaw(w: World, a: Action)
    ensures OnlyHeld(w, Act(w, a))
  {
    assert OnlyHeld(w, w);
    forall t | t in w.tasks && w.tasks[t].Flow? ensures Held(w, w.tasks[t].d) {
    }
    forall id | id in w.book.defs ensures Held(w, w.book.defs[id]) {
    }
    hide OnlyHeld, Held, Define, MarkBackfilled, IsBatch, Dues, IncrementProgress, RecordProgress, StepFlow;
    match a
    case HearMetric(t, i, user) => HeldBegin(w, t, i, Counting, user);
    case HearTrigger(t, i, user) => HeldBegin(w, t, i, Completing, user);
    case AwardStart(t, i, user) => HeldBegin(w, t, i, Awarding, user);
    case PassStart(t, i, _) => HeldBegin(w, t, i, Scoring, 0);
    case SweepStart(t, batch) => if IsBatch(w.book, batch) { HeldPut(w, w, t, Sweep(Dues(w.book.defs, batch), false)); }
    case Count(t, delta) =>
      if Before(w, t, Counting) {
        HeldWrote(w, t, w.tasks[t], IncrementProgress(w.book.defs, w.book.rows, KeyOf(w.tasks[t]), delta));
      }
    case Record(t, user) =>
      if Before(w, t, Scoring) && ToMeet(w.tasks[t], user) {
        var f := Meet(w.tasks[t], user);
        HeldWrote(w, t, f, RecordProgress(w.book.defs, w.book.rows, KeyOf(f), w.tasks[t].left[user]));
      }
    case PassEnd(t) => HeldDrop(w, t);
    case Step(t, o) =>
      if t in w.tasks {
        if w.tasks[t].Flow? { HeldFlow(w, t, o); } else { HeldSweep(w, t, o); }
      }
    case Crash(t) => HeldDrop(w, t);
    case _ => HeldBook(w, w.book.(defs := Define(w.book.defs, a)));
  }

  lemma HeldBook(w: World, b: Book)
    ensures OnlyHeld(w, w.(book := b))
  {
  }

  lemma HeldDrop(w: World, t: nat)
    ensures forall b :: OnlyHeld(w, Drop(w.(book := b), t)) && OnlyHeld(w, Drop(w, t))
  {
  }

  lemma HeldBegin(w: World, t: nat, id: nat, stage: Stage, user: nat)
    ensures id in w.book.defs ==> forall silent, left :: OnlyHeld(w, Begin(w, t, id, stage, user, silent, left))
  {
  }

  lemma {:induction false} HeldWrote(w: World, t: nat, f: Task, p: Progress)
    requires f.Flow? && Held(w, f.d)
    ensures OnlyHeld(w, Wrote(w, t, f, p))
  {
    HeldBook(w, w.book);
    if p.Moved? {
      var v := w.(book := w.book.(rows := p.rows));
      HeldBook(w, v.book);
      HeldSettle(w, v, t, f, true);
      HeldPut(w, v, t, f.(stage := Completing));
    }
    assert w.(book := w.book) == w;
    HeldSettle(w, w, t, f, true);
    hide OnlyHeld, Held;
  }

  lemma {:induction false} HeldSweep(w: World, t: nat, o: Outcome)
    requires t in w.tasks && w.tasks[t].Sweep?
    ensures OnlyHeld(w, StepSweep(w, t, w.tasks[t], o))
  {
    hide MarkPaid;
  }

  // ---- Backfilled means that a pass has ended ------------------------------

  predicate Backfilled(defs: Defs, id: nat) { id in defs && defs[id].backfilledAt.Some? }

  /** No copy knows of an end that the table does not. */
  ghost predicate CopiesLag(w: World) {
    && (forall i :: i in w.book.defs ==> w.book.defs[i].id == i)
    && (forall t :: t in w.tasks && w.tasks[t].Flow? ==> CopyLags(w.book.defs, w.tasks[t].d))
  }

  predicate CopyLags(defs: Defs, d: Def) { d.id in defs && (d.backfilledAt.Some? ==> Backfilled(defs, d.id)) }

  lemma {:induction false} DefsOnlyAdvance(w: World, a: Action)
    requires CopiesLag(w)
    ensures var after := DefsAfter(w, a);
      && (forall i :: i in after ==> after[i].id == i) && (forall i :: i in w.book.defs ==> i in after)
      && (forall i :: Backfilled(after, i) <==> Backfilled(w.book.defs, i) || EndsPass(w, a, i))
  {
    if a.PassEnd? && Before(w, a.t, Scoring) { assert CopyLags(w.book.defs, w.tasks[a.t].d); }
    hide CriterionOk, SlugTaken;
  }

  lemma {:induction false} LagAct(w: World, a: Action)
    requires CopiesLag(w)
    ensures CopiesLag(Apply(w, a))
    ensures forall i :: Backfilled(Apply(w, a).book.defs, i) <==> Backfilled(w.book.defs, i) || EndsPass(w, a, i)
  {
    DefsMove(w, a);
    DefsOnlyAdvance(w, a);
    HeldAct(w, a);
    hide Apply, DefsAfter, EndsPass, Backfilled;
    var v := Apply(w, a);
    forall t | t in v.tasks && v.tasks[t].Flow? ensures CopyLags(v.book.defs, v.tasks[t].d) {
      var d := v.tasks[t].d;
      assert Held(w, d);
      if id :| id in w.book.defs && w.book.defs[id] == d {
        assert d.id == id;
        HeldCopyLags(w.book.defs, v.book.defs, d);
      } else {
        var u :| u in w.tasks && w.tasks[u].Flow? && w.tasks[u].d == d;
      }
    }
  }

  lemma HeldCopyLags(before: Defs, after: Defs, d: Def)
    requires d.id in before && before[d.id] == d && d.id in after
    requires Backfilled(before, d.id) ==> Backfilled(after, d.id)
    ensures CopyLags(after, d)
  {
  }

  /** Some pass over `id` ends in this run. */
  predicate PassEnded(w: World, acts: seq<Action>, id: nat)
    decreases |acts|
  {
    acts != [] && (EndsPass(w, acts[0], id) || PassEnded(Apply(w, acts[0]), acts[1..], id))
  }

  lemma {:induction false} BackfilledExactlyWhen(w: World, acts: seq<Action>, id: nat)
    requires CopiesLag(w)
    ensures CopiesLag(Run(w, acts))
    ensures Backfilled(Run(w, acts).book.defs, id) <==> Backfilled(w.book.defs, id) || PassEnded(w, acts, id)
    decreases |acts|
  {
    if acts != [] {
      LagAct(w, acts[0]);
      hide Apply, CopiesLag, Backfilled, EndsPass;
      BackfilledExactlyWhen(Apply(w, acts[0]), acts[1..], id);
    }
  }

  // ---- One event, from hearing it to the end ---------------------------

  /** The calls of a handler that none of them fails. */
  function Completion(t: nat, d: Def): seq<Action> {
    [Step(t, Done)] + (if d.reward == [] then [] else [Step(t, Done), Step(t, Done)]) +
        (if d.backfilledAt.Some? then [Step(t, Done)] else [])
  }

  function EventFlow(t: nat, user: nat, delta: int, d: Def): seq<Action> {
    [HearMetric(t, d.id, user), Count(t, delta)] + Completion(t, d)
  }

  lemma {:induction false} RunTwo(w: World, a: Action, b: Action)
    ensures Run(w, [a, b]) == Apply(Apply(w, a), b)
  {
    RunOne(w, a);
    RunOne(Apply(w, a), b);
    RunAppends(w, [a], [b]);
    assert [a] + [b] == [a, b];
  }

  ghost predicate Finished(w: World, t: nat, k: Key) {
    t !in w.tasks && RowOf(w.book.rows, k).completedAt.Some? && RowOf(w.book.rows, k).paidAt.Some?
  }

  /** Completed and paid: nothing is left of a silent flow, and the announcement of any other. */
  ghost predicate Paid(w: World, t: nat, f: Task)
    requires f.Flow?
  {
    && RowOf(w.book.rows, KeyOf(f)).completedAt.Some? && RowOf(w.book.rows, KeyOf(f)).paidAt.Some?
    && (if f.silent then t !in w.tasks else t in w.tasks && w.tasks[t] == f.(stage := Announcing(true)))
  }

  lemma {:induction false} Latches(w: World, t: nat, f: Task)
    requires t in w.tasks && w.tasks[t] == f && f.Flow? && f.stage.Completing? && !f.pass && f.d.id in w.book.defs
    requires RowOf(w.book.rows, KeyOf(f)).completedAt.None?
    ensures var u := Apply(w, Step(t, Done));
      && u.news == w.news
      && if f.d.reward == [] then Paid(u, t, f)
         else t in u.tasks && u.tasks[t] == f.(stage := Paying) && RowOf(u.book.rows, KeyOf(f)).completedAt.Some?
  {
  }

  lemma {:induction false} Pays(u: World, t: nat, f: Task)
    requires f.Flow? && !f.pass && t in u.tasks && u.tasks[t] == f.(stage := Paying)
    requires RowOf(u.book.rows, KeyOf(f)).completedAt.Some?
    ensures var x := Apply(Apply(u, Step(t, Done)), Step(t, Done)); x.news == u.news && Paid(x, t, f)
  {
  }

  /** From the latch on: paid, and announced unless silent. */
  lemma {:induction false} CompletionEnds(w: World, t: nat, f: Task)
    requires t in w.tasks && w.tasks[t] == f && f.Flow? && f.stage.Completing? && !f.pass && f.d.id in w.book.defs
    requires RowOf(w.book.rows, KeyOf(f)).completedAt.None? && f.silent == f.d.backfilledAt.None?
    ensures var v := Run(w, Completion(t, f.d));
      Finished(v, t, KeyOf(f)) && v.news == if f.silent then w.news else w.news + [News(KeyOf(f), true)]
  {
    var step := Step(t, Done);
    var u := Apply(w, step);
    Latches(w, t, f);
    RunOne(w, step);
    var pay: seq<Action> := if f.d.reward == [] then [] else [step, step];
    var x := if f.d.reward == [] then u else Apply(Apply(u, step), step);
    if f.d.reward == [] {
      assert Run(u, pay) == u;
    } else {
      Pays(u, t, f);
      RunTwo(u, step, step);
    }
    RunAppends(w, [step], pay);
    var tell: seq<Action> := if f.silent then [] else [step];
    if f.silent { assert Run(x, tell) == x; } else { RunOne(x, step); }
    RunAppends(w, [step] + pay, tell);
    assert Completion(t, f.d) == [step] + pay + tell;
    hide Run;
  }

  /**
   An open row that an event brings to its threshold, no call failing, is completed and paid, and
   it is announced exactly if a metric pass over the achievement had ended before.
   */
  lemma {:induction false} AnnouncedExactlyWhenPassEnded(before: seq<Action>, t: nat, id: nat, user: nat, delta: int)
    requires var w := Run(EMPTY, before);
      && t !in w.tasks && id in w.book.defs && w.book.defs[id].enabled && user != 0 && delta > 0
      && RowOf(w.book.rows, Key(id, user)).completedAt.None? && w.book.defs[id].threshold > 0
      && RowOf(w.book.rows, Key(id, user)).progress + delta >= w.book.defs[id].threshold
    ensures var w := Run(EMPTY, before);
      var v := Run(w, EventFlow(t, user, delta, w.book.defs[id]));
      && Finished(v, t, Key(id, user))
      && v.news == if PassEnded(EMPTY, before, id) then w.news + [News(Key(id, user), true)] else w.news
  {
    BackfilledExactlyWhen(EMPTY, before, id);
    var w := Run(EMPTY, before);
    var d := w.book.defs[id];
    assert d.id == id;
    hide Run, PassEnded, CopiesLag;
    RunTwo(w, HearMetric(t, id, user), Count(t, delta));
    var u := Apply(Apply(w, HearMetric(t, id, user)), Count(t, delta));
    assert u.tasks[t] == Flow(Completing, d, user, d.backfilledAt.None?, false, map[]);
    assert u.news == w.news;
    hide Apply;
    CompletionEnds(u, t, u.tasks[t]);
    RunAppends(w, [HearMetric(t, id, user), Count(t, delta)], Completion(t, d));
  }

  // ---- A silent completion ---------------------------------------------

  const COUNTED := Def(1, [1], [], [5], 1, [], true, None)

  /** A metric achievement without a source is created and enabled, and one event completes it for a member. */
  const ONE_EVENT: seq<Action> := [Create(1, [1], [], [5], 1, []), Enable(1, true)] + EventFlow(0, 7, 1, COUNTED)

  lemma {:induction false} CompletedInSilence()
    ensures var w := Run(EMPTY, ONE_EVENT);
      RowOf(w.book.rows, Key(1, 7)).completedAt.Some? && w.news == [] && w.tasks == map[]
  {
    var create, enable := Create(1, [1], [], [5], 1, []), Enable(1, true);
    var ready := Apply(Apply(EMPTY, create), enable);
    assert ready == World(Book(map[1 := COUNTED], map[], {}, {}, {}, {}), map[], [], 2);
    RunTwo(EMPTY, create, enable);
    RunAppends(EMPTY, [create, enable], EventFlow(0, 7, 1, COUNTED));
    RunTwo(ready, HearMetric(0, 1, 7), Count(0, 1));
    RunAppends(ready, [HearMetric(0, 1, 7), Count(0, 1)], Completion(0, COUNTED));
    var u := Apply(Apply(ready, HearMetric(0, 1, 7)), Count(0, 1));
    assert u.tasks == map[0 := Flow(Completing, COUNTED, 7, true, false, map[])];
    assert Completion(0, COUNTED) == [Step(0, Done)];
    RunOne(u, Step(0, Done));
  }
}
