/**
 The payment protocol over whole runs: what holds in every reachable state, what no step takes
 back, and exactly which edit of a reward can make a member be paid twice.
 */
module PayRuns {
  import opened AchievementRows
  import opened Protocol
  import opened PayOnce
  import opened PaySteps

  /** Every edit is safe at its moment. */
  ghost predicate SafeRun(w: World, acts: seq<Action>)
    decreases |acts|
  {
    acts == [] || (Safe(w, acts[0]) && SafeRun(Apply(w, acts[0]), acts[1..]))
  }

  lemma {:induction false} RunKeeps(w: World, acts: seq<Action>)
    requires Inv(w) && SafeRun(w, acts)
    ensures Inv(Run(w, acts))
    decreases |acts|
  {
    if acts != [] {
      ActKeeps(w, acts[0]);
      hide Inv, Safe, Apply;
      RunKeeps(Apply(w, acts[0]), acts[1..]);
    }
  }

  lemma EmptyInv()
    ensures Inv(EMPTY)
  {
    hide CriterionOk;
    assert forall k, s :: !Promise(EMPTY, k, s);
    assert forall k, s :: !Claim(EMPTY, k, s);
  }

  /** One grant for a member under one reference, ever. */
  ghost predicate GrantedOnce(w: World) {
    forall g, h :: g in w.book.grants && h in w.book.grants && g.user == h.user && g.reference == h.reference ==> g == h
  }

  ghost predicate CompletedOnce(w: World) {
    forall k :: k in w.book.rows ==> w.book.rows[k].times == if w.book.rows[k].completedAt.Some? then 1 else 0
  }

  ghost predicate AnnouncedOnce(w: World) {
    && (forall i, j :: 0 <= i < j < |w.news| ==> w.news[i].key != w.news[j].key)
    && (forall i :: 0 <= i < |w.news| ==> !Open(w.book, w.news[i].key))
    && (forall i :: 0 <= i < |w.news| && w.news[i].paid ==> PaidFor(w.book, w.news[i].key))
  }

  /** A stamp belongs to a completion, and is backed by a grant unless nothing was owed. */
  ghost predicate StampsBacked(w: World) {
    forall k :: !Unpaid(w.book, k) ==> !Open(w.book, k) && (Free(w.book, k) != Granted(w.book, k))
  }

  /** The granter is asked only for completed rows, never for a badge or a direct award. */
  ghost predicate AskedFor(w: World) {
    && (forall g :: g in w.book.asked ==> exists k :: IsGrantOf(w.book, k, g) && !Open(w.book, k))
    && (forall g, k :: g in w.book.asked && IsGrantOf(w.book, k, g) ==> !Free(w.book, k))
  }

  lemma {:induction false} GrantIsPromise(w: World, g: Grant)
    requires Inv(w) && g in w.book.grants
    ensures exists k :: Promise(w, k, g.reward) && k.achievement in w.book.defs && GrantFor(w.book, k, g.reward) == g
  {
    var id :| Names(w.book, id, g);
    assert Promise(w, Key(id, g.user), g.reward);
  }

  lemma {:induction false} InvGrantsOnce(w: World)
    requires Inv(w)
    ensures GrantedOnce(w)
  {
    forall g, h | g in w.book.grants && h in w.book.grants && g.user == h.user && g.reference == h.reference
      ensures g == h
    {
      GrantIsPromise(w, g);
      GrantIsPromise(w, h);
      hide Promise;
    }
  }

  lemma {:induction false} InvAsked(w: World)
    requires Inv(w)
    ensures AskedFor(w)
  {
    hide Open, Free, TasksOk, TellersOk, NewsOk, PromisesAgree, ClaimsCurrent, PaidOk, RowsOk;
    forall g | g in w.book.asked ensures exists k :: IsGrantOf(w.book, k, g) && !Open(w.book, k) {
      var id :| Names(w.book, id, g);
      assert IsGrantOf(w.book, Key(id, g.user), g);
    }
    forall g, k | g in w.book.asked && IsGrantOf(w.book, k, g) ensures !Free(w.book, k) {
      var id :| Names(w.book, id, g);
      assert id == k.achievement;
    }
  }

  lemma {:induction false} InvStamps(w: World)
    requires Inv(w) && AskedFor(w)
    ensures StampsBacked(w)
  {
    hide TasksOk, TellersOk, NewsOk, PromisesAgree, ClaimsCurrent, Free, Named;
    forall k | !Unpaid(w.book, k) ensures !Open(w.book, k) && (Free(w.book, k) != Granted(w.book, k)) {
      assert k in w.book.rows;
      if Granted(w.book, k) {
        var g :| g in w.book.grants && IsGrantOf(w.book, k, g);
        assert g in w.book.asked;
      }
    }
  }

  /** In every state that any interleaving of threads and crashes reaches. */
  lemma {:induction false} ExactlyOnce(acts: seq<Action>)
    requires SafeRun(EMPTY, acts)
    ensures var w := Run(EMPTY, acts);
      CompletedOnce(w) && AnnouncedOnce(w) && GrantedOnce(w) && StampsBacked(w) && AskedFor(w)
  {
    EmptyInv();
    RunKeeps(EMPTY, acts);
    var w := Run(EMPTY, acts);
    InvGrantsOnce(w);
    InvAsked(w);
    InvStamps(w);
    hide AskedFor, StampsBacked, GrantedOnce, Run, SafeRun;
  }

  // ---- Nothing is taken back -------------------------------------------

  ghost predicate Later(w: World, v: World) {
    && OnlyForward(w.book.rows, v.book.rows) && w.book.grants <= v.book.grants && w.book.direct <= v.book.direct
    && |w.news| <= |v.news| && v.news[..|w.news|] == w.news
  }


  lemma {:induction false} LaterTransitive(u: World, v: World, w: World)
    requires Later(u, v) && Later(v, w)
    ensures Later(u, w)
  {
    assert u.news == v.news[..|u.news|] == w.news[..|u.news|];
    forall k | k in u.book.rows ensures k in w.book.rows && RowForward(u.book.rows[k], w.book.rows[k]) {
      assert RowForward(u.book.rows[k], v.book.rows[k]) && RowForward(v.book.rows[k], w.book.rows[k]);
    }
  }

  /** Whatever any thread or administrator does, safe edit or not. */
  lemma {:induction false} ActOnlyForward(w: World, a: Action)
    ensures Later(w, Apply(w, a))
  {
    assert OnlyForward(w.book.rows, w.book.rows);
    hide OnlyForward, IsBatch, Define, Dues, IncrementProgress, RecordProgress, CompleteAchievement, MarkPaid;
    match a
    case Count(t, delta) =>
      if Before(w, t, Counting) { StatementsOnlyForward(w.book.defs, w.book.rows, KeyOf(w.tasks[t]), delta, false, 0); }
    case Record(t, user) =>
      if Before(w, t, Scoring) && ToMeet(w.tasks[t], user) {
        var value := w.tasks[t].left[user];
        StatementsOnlyForward(w.book.defs, w.book.rows, Key(w.tasks[t].d.id, user), value, false, 0);
      }
    case Step(t, o) => if t in w.tasks { StepOnlyForward(w, t, o); }
    case _ =>
  }

  lemma {:induction false} StepOnlyForward(w: World, t: nat, o: Outcome)
    requires t in w.tasks
    ensures Later(w, Act(w, Step(t, o)))
  {
    assert OnlyForward(w.book.rows, w.book.rows);
    var f := w.tasks[t];
    if f.Flow? {
      FlowOnlyForward(w, t, o);
    } else if f.todo != [] {
      StatementsOnlyForward(w.book.defs, w.book.rows, f.todo[0].key, 0, false, w.clock);
      hide OnlyForward, MarkPaid;
    }
  }

  lemma {:induction false} TasksMoveOnly(w: World, v: World, t: nat, f: Task, paid: bool)
    requires Later(w, v) && f.Flow?
    ensures Later(w, Put(v, t, f)) && Later(w, Finish(v, t, f)) && Later(w, Settle(v, t, f, paid))
  {
    hide OnlyForward;
  }

  lemma {:induction false} FlowOnlyForward(w: World, t: nat, o: Outcome)
    requires t in w.tasks && w.tasks[t].Flow?
    ensures Later(w, StepFlow(w, t, w.tasks[t], o))
  {
    var f := w.tasks[t];
    var paid := f.stage.Awarding? || f.d.reward == [];
    var c := CompleteAchievement(w.book.defs, w.book.rows, KeyOf(f), paid, w.clock);
    StatementsOnlyForward(w.book.defs, w.book.rows, KeyOf(f), 0, paid, w.clock);
    assert OnlyForward(w.book.rows, w.book.rows);
    hide OnlyForward, CompleteAchievement, MarkPaid;
    var v := match f.stage
      case Paying => w.(book := Ask(w.book, GrantOf(f), o))
      case Stamping => w.(book := Stamp(w.book, KeyOf(f), o, w.clock))
      case Announcing(p) => w.(news := w.news + [News(KeyOf(f), p)])
      case _ => if c.Completed? then w.(book := Latch(w.book, KeyOf(f), c.rows, paid, f.stage.Awarding?)) else w;
    assert Later(w, v) && Later(w, w);
    hide Later, Finish, Settle, Latch, Stamp, Ask;
    TasksMoveOnly(w, v, t, f, f.stage.Stamping? || f.stage.Completing? || f.stage.Awarding?);
    TasksMoveOnly(w, w, t, f, false);
    TasksMoveOnly(w, v, t, f.(stage := Paying), false);
    TasksMoveOnly(w, v, t, f.(stage := Stamping), false);
  }

  /** A completion, its time, a payment, a grant and an announcement are for good. */
  lemma {:induction false} NothingIsTakenBack(w: World, acts: seq<Action>)
    ensures Later(w, Run(w, acts))
    decreases |acts|
  {
    if acts == [] {
      assert OnlyForward(w.book.rows, w.book.rows);
    } else {
      ActOnlyForward(w, acts[0]);
      hide Apply, Later;
      NothingIsTakenBack(Apply(w, acts[0]), acts[1..]);
      LaterTransitive(w, Apply(w, acts[0]), Run(w, acts));
    }
  }

  // ---- Rewards that never change -------------------------------------------

  ghost predicate KeepsReward(w: World, a: Action) {
    a.Edit? && a.id in w.book.defs ==> a.reward == w.book.defs[a.id].reward
  }

  ghost predicate KeepsRewards(w: World, acts: seq<Action>)
    decreases |acts|
  {
    acts == [] || (KeepsReward(w, acts[0]) && KeepsRewards(Apply(w, acts[0]), acts[1..]))
  }

  lemma {:induction false} KeptIsSafe(w: World, acts: seq<Action>)
    requires KeepsRewards(w, acts)
    ensures SafeRun(w, acts)
    decreases |acts|
  {
    hide Apply, SafeReward;
    if acts != [] { KeptIsSafe(Apply(w, acts[0]), acts[1..]); }
  }

  /** What every thread holds of a definition's reward is still true. */
  ghost predicate FreshTask(defs: Defs, f: Task) {
    if f.Flow? then f.d.id in defs && defs[f.d.id].reward == f.d.reward
    else forall e :: e in f.todo ==> e.key.achievement in defs && defs[e.key.achievement].reward == e.reward
  }

  ghost predicate FreshBook(b: Book) {
    && (forall k :: k in b.badges ==> k.achievement in b.defs && b.defs[k.achievement].reward == [])
    && (forall g, k :: g in b.asked && IsGrantOf(b, k, g) ==> g.reward == b.defs[k.achievement].reward)
  }

  ghost predicate Fresh(w: World) {
    FreshBook(w.book) && forall t :: t in w.tasks ==> FreshTask(w.book.defs, w.tasks[t])
  }

  lemma {:induction false} FreshAsk(b: Book, id: nat, g: Grant, o: Outcome)
    requires Named(b.defs) && FreshBook(b) && id in b.defs && b.defs[id].slug == g.reference
    requires b.defs[id].reward == g.reward
    ensures FreshBook(Ask(b, g, o))
  {
    var c := Ask(b, g, o);
    forall h, k | h in c.asked && IsGrantOf(c, k, h) ensures h.reward == c.defs[k.achievement].reward {
      if h in b.asked { assert IsGrantOf(b, k, h); }
    }
  }

  lemma {:induction false} FreshLatch(b: Book, k: Key, rows: Rows, paid: bool, direct: bool)
    requires FreshBook(b) && k.achievement in b.defs && (paid && !direct ==> b.defs[k.achievement].reward == [])
    ensures FreshBook(Latch(b, k, rows, paid, direct))
  {
    var c := Latch(b, k, rows, paid, direct);
    assert forall g, x :: IsGrantOf(c, x, g) ==> IsGrantOf(b, x, g);
  }

  lemma {:induction false} FreshRows(b: Book, rows: Rows)
    requires FreshBook(b)
    ensures FreshBook(b.(rows := rows))
  {
    assert forall g, x :: IsGrantOf(b.(rows := rows), x, g) ==> IsGrantOf(b, x, g);
  }

  lemma {:induction false} FreshPut(w: World, t: nat, f: Task)
    requires Fresh(w)
    ensures Fresh(Drop(w, t)) && (FreshTask(w.book.defs, f) ==> Fresh(Put(w, t, f)))
  {
    hide FreshBook, FreshTask;
  }

  lemma {:induction false} FreshSettle(w: World, t: nat, f: Task, paid: bool)
    requires Fresh(w) && f.Flow? && FreshTask(w.book.defs, f)
    ensures Fresh(Finish(w, t, f)) && Fresh(Settle(w, t, f, paid))
  {
    FreshPut(w, t, f.(stage := Scoring));
    FreshPut(w, t, f.(stage := Announcing(paid)));
    hide Fresh;
  }

  lemma {:induction false} FreshComplete(w: World, t: nat, f: Task, o: Outcome)
    requires Fresh(w) && f.Flow? && FreshTask(w.book.defs, f)
    ensures Fresh(StepComplete(w, t, f, o))
  {
    var paid := f.stage.Awarding? || f.d.reward == [];
    var c := CompleteAchievement(w.book.defs, w.book.rows, KeyOf(f), paid, w.clock);
    FreshSettle(w, t, f, true);
    if c.Completed? {
      FreshLatch(w.book, KeyOf(f), c.rows, paid, f.stage.Awarding?);
      var done := w.(book := Latch(w.book, KeyOf(f), c.rows, paid, f.stage.Awarding?));
      assert Fresh(done) by { hide FreshBook, FreshTask; }
      FreshSettle(done, t, f, true);
      FreshPut(done, t, f.(stage := Paying));
    }
    hide Fresh, CompleteAchievement;
  }

  lemma {:induction false} FreshFlow(w: World, t: nat, o: Outcome)
    requires Inv(w) && Fresh(w) && t in w.tasks && w.tasks[t].Flow?
    ensures Fresh(StepFlow(w, t, w.tasks[t], o))
  {
    var f := w.tasks[t];
    assert TaskOk(w.book, f) && FreshTask(w.book.defs, f) && Named(w.book.defs) && FreshBook(w.book);
    hide Inv, TaskOk;
    match f.stage
    case Paying =>
      FreshAsk(w.book, f.d.id, GrantOf(f), o);
      var called := w.(book := Ask(w.book, GrantOf(f), o));
      FreshBooks(w, called);
      hide Fresh, FreshBook;
      FreshPut(called, t, f.(stage := Stamping));
      FreshSettle(called, t, f, false);
    case Stamping =>
      FreshRows(w.book, MarkPaid(w.book.rows, KeyOf(f), w.clock));
      var stamped := w.(book := Stamp(w.book, KeyOf(f), o, w.clock));
      FreshBooks(w, stamped);
      hide Fresh, FreshBook;
      FreshSettle(stamped, t, f, true);
    case Announcing(paid) =>
      var told := w.(news := w.news + [News(KeyOf(f), paid)]);
      FreshBooks(w, told);
      hide Fresh, FreshBook;
      FreshSettle(told, t, f, true);
    case _ => FreshComplete(w, t, f, o);
  }

  lemma {:induction false} FreshBooks(w: World, v: World)
    requires Fresh(w) && v.tasks == w.tasks && v.book.defs == w.book.defs && FreshBook(v.book)
    ensures Fresh(v)
  {
    hide FreshTask, FreshBook;
  }

  lemma {:induction false} FreshSweep(w: World, t: nat, o: Outcome)
    requires Inv(w) && Fresh(w) && t in w.tasks && w.tasks[t].Sweep?
    ensures Fresh(StepSweep(w, t, w.tasks[t], o))
  {
    var s := w.tasks[t];
    assert TaskOk(w.book, s) && FreshTask(w.book.defs, s);
    FreshPut(w, t, s);
    if s.todo != [] {
      var e := s.todo[0];
      assert DueOk(w.book, e);
      FreshAsk(w.book, e.key.achievement, DueGrant(e), o);
      FreshRows(w.book, MarkPaid(w.book.rows, e.key, w.clock));
      hide FreshBook, Inv, TaskOk, MarkPaid;
      var called := w.(book := Ask(w.book, DueGrant(e), o));
      var stamped := w.(book := Stamp(w.book, e.key, o, w.clock));
      assert Fresh(called) && Fresh(stamped);
      hide Fresh;
      FreshPut(called, t, Sweep(s.todo, true));
      FreshPut(called, t, Sweep(s.todo[1..], false));
      FreshPut(stamped, t, Sweep(s.todo[1..], false));
    }
  }

  lemma {:induction false} FreshDefs(w: World, defs: Defs)
    requires Inv(w) && Fresh(w) && Redefines(w, defs)
    requires forall id :: id in w.book.defs ==> defs[id].reward == w.book.defs[id].reward
    ensures Fresh(w.(book := w.book.(defs := defs)))
  {
    var c := w.book.(defs := defs);
    forall g, k | g in c.asked && IsGrantOf(c, k, g) ensures g.reward == c.defs[k.achievement].reward {
      var id :| Names(w.book, id, g);
      assert id in defs && id == k.achievement;
    }
    hide Inv, SafeReward, IsGrantOf;
    assert FreshBook(c);
    forall t | t in w.tasks ensures FreshTask(defs, w.tasks[t]) {
      assert FreshTask(w.book.defs, w.tasks[t]);
    }
  }

  lemma {:induction false} FreshAct(w: World, a: Action)
    requires Inv(w) && Fresh(w) && KeepsReward(w, a)
    ensures Fresh(Apply(w, a))
  {
    FreshActRaw(w, a);
    var v := Act(w, a);
    hide FreshBook, FreshTask, Act;
    assert Fresh(v.(clock := w.clock + 1));
  }

  lemma {:induction false} FreshActRaw(w: World, a: Action)
    requires Inv(w) && Fresh(w) && KeepsReward(w, a)
    ensures Fresh(Act(w, a))
  {
    hide Inv, Fresh;
    match a
    case Count(t, delta) =>
      if Before(w, t, Counting) {
        FreshWrote(w, t, w.tasks[t], IncrementProgress(w.book.defs, w.book.rows, KeyOf(w.tasks[t]), delta));
      }
    case Record(t, user) =>
      if Before(w, t, Scoring) && ToMeet(w.tasks[t], user) {
        var f := Meet(w.tasks[t], user);
        FreshWrote(w, t, f, RecordProgress(w.book.defs, w.book.rows, KeyOf(f), w.tasks[t].left[user]));
      }
    case PassEnd(t) => if Before(w, t, Scoring) { FreshPassEnd(w, t); }
    case Step(t, o) => if t in w.tasks { if w.tasks[t].Flow? { FreshFlow(w, t, o); } else { FreshSweep(w, t, o); } }
    case SweepStart(t, batch) =>
      if t !in w.tasks && IsBatch(w.book, batch) {
        FreshBatch(w.book, batch);
        FreshPut(w, t, Sweep(Dues(w.book.defs, batch), false));
      }
    case Crash(t) => FreshPut(w, t, Sweep([], false));
    case HearMetric(t, id, user) => FreshBegin(w, t, id, Counting, user);
    case HearTrigger(t, id, user) => FreshBegin(w, t, id, Completing, user);
    case AwardStart(t, id, user) => FreshBegin(w, t, id, Awarding, user);
    case PassStart(t, id, _) => FreshBegin(w, t, id, Scoring, 0);
    case _ => FreshDefine(w, a);
  }

  lemma {:induction false} FreshBegin(w: World, t: nat, id: nat, stage: Stage, user: nat)
    requires Inv(w) && Fresh(w)
    ensures id in w.book.defs ==> forall silent, left :: Fresh(Begin(w, t, id, stage, user, silent, left))
  {
    if id in w.book.defs {
      assert w.book.defs[id].id == id;
      hide Inv;
      forall silent, left ensures Fresh(Begin(w, t, id, stage, user, silent, left)) {
        FreshPut(w, t, Flow(stage, w.book.defs[id], user, silent, stage.Scoring?, left));
      }
    }
  }

  lemma {:induction false} FreshWrote(w: World, t: nat, f: Task, p: Progress)
    requires Fresh(w) && t in w.tasks && w.tasks[t].Flow? && f.Flow? && f.d == w.tasks[t].d
    ensures Fresh(Wrote(w, t, f, p))
  {
    assert FreshTask(w.book.defs, w.tasks[t]);
    FreshSettle(w, t, f, true);
    if p.Moved? {
      FreshRows(w.book, p.rows);
      var moved := w.(book := w.book.(rows := p.rows));
      assert Fresh(moved) by { hide FreshBook; }
      FreshSettle(moved, t, f, true);
      FreshPut(moved, t, f.(stage := Completing));
    }
  }

  lemma {:induction false} FreshPassEnd(w: World, t: nat)
    requires Inv(w) && Fresh(w) && Before(w, t, Scoring)
    ensures Fresh(Act(w, PassEnd(t)))
  {
    var d := w.tasks[t].d;
    var defs := MarkBackfilled(w.book.defs, d.id, w.clock);
    BackfillRedefines(w, d.id, w.clock);
    MarkKeepsRewards(w.book.defs, d.id, w.clock);
    hide MarkBackfilled, Redefines;
    FreshDefs(w, defs);
    hide Inv, Fresh, Drop;
    FreshPut(w, t, w.tasks[t]);
    FreshPut(w.(book := w.book.(defs := defs)), t, w.tasks[t]);
  }

  lemma MarkKeepsRewards(defs: Defs, id: nat, now: nat)
    ensures forall i :: i in defs ==>
      i in MarkBackfilled(defs, id, now) && MarkBackfilled(defs, id, now)[i].reward == defs[i].reward
  {
  }

  lemma {:induction false} FreshBatch(b: Book, batch: seq<Key>)
    requires IsBatch(b, batch)
    ensures FreshTask(b.defs, Sweep(Dues(b.defs, batch), false))
  {
    var todo := Dues(b.defs, batch);
    forall e | e in todo ensures e.key.achievement in b.defs && b.defs[e.key.achievement].reward == e.reward {
      var i :| 0 <= i < |batch| && todo[i] == e;
      assert Owed(b.defs, b.rows, batch[i]);
    }
  }

  lemma {:induction false} FreshDefine(w: World, a: Action)
    requires Inv(w) && Fresh(w) && KeepsReward(w, a)
    ensures Fresh(w.(book := w.book.(defs := Define(w.book.defs, a))))
  {
    SafelyRedefines(w, a);
    var defs := Define(w.book.defs, a);
    assert forall id :: id in w.book.defs ==> id in defs && defs[id].reward == w.book.defs[id].reward;
    hide Inv, Fresh, Redefines, Define;
    FreshDefs(w, defs);
  }

  lemma {:induction false} FreshRun(w: World, acts: seq<Action>)
    requires Inv(w) && Fresh(w) && KeepsRewards(w, acts)
    ensures Inv(Run(w, acts)) && Fresh(Run(w, acts))
    decreases |acts|
  {
    if acts != [] {
      FreshAct(w, acts[0]);
      ActKeeps(w, acts[0]);
      hide Inv, Fresh, Apply, KeepsReward;
      FreshRun(Apply(w, acts[0]), acts[1..]);
    }
  }

  /** A paid row of a rewarded achievement that was not awarded directly. */
  predicate PaidByGrant(b: Book, k: Key) {
    && k in b.rows && b.rows[k].paidAt.Some? && k !in b.direct
    && k.achievement in b.defs && b.defs[k.achievement].reward != []
  }

  /**
   With rewards fixed, a paid row of a rewarded achievement that was not awarded directly has
   exactly that reward granted.
  */
  lemma {:induction false} PaidMeansGranted(acts: seq<Action>, k: Key)
    requires KeepsRewards(EMPTY, acts)
    ensures var b := Run(EMPTY, acts).book;
      PaidByGrant(b, k) ==> GrantFor(b, k, b.defs[k.achievement].reward) in b.grants
  {
    EmptyInv();
    FreshRun(EMPTY, acts);
    var w := Run(EMPTY, acts);
    hide Run, KeepsRewards;
    if PaidByGrant(w.book, k) {
      assert PaidOk(w.book) && !Unpaid(w.book, k);
      assert Granted(w.book, k);
      var g :| g in w.book.grants && IsGrantOf(w.book, k, g);
      assert g in w.book.asked;
    }
  }

  // ---- Runs in pieces ----------------------------------------------------

  lemma {:induction false} RunAppends(w: World, a: seq<Action>, b: seq<Action>)
    ensures Run(w, a + b) == Run(Run(w, a), b)
    ensures KeepsRewards(w, a) && KeepsRewards(Run(w, a), b) ==> KeepsRewards(w, a + b)
    decreases |a|
  {
    hide Apply, KeepsReward;
    if a == [] {
      assert a + b == b;
    } else {
      assert (a + b)[0] == a[0] && (a + b)[1..] == a[1..] + b;
      RunAppends(Apply(w, a[0]), a[1..], b);
    }
  }

  lemma {:induction false} RunOne(w: World, a: Action)
    ensures Run(w, [a]) == Apply(w, a) && (KeepsReward(w, a) ==> KeepsRewards(w, [a]))
  {
    hide Apply, KeepsReward;
    assert Run(Apply(w, a), []) == Apply(w, a) && KeepsRewards(Apply(w, a), []);
    assert [a][1..] == [];
  }
}
