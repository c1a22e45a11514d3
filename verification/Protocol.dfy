/**
 The completion and payment protocol of the achievements plugin as a step relation: web and
 worker threads interleave call by call, every store statement is one step, the rewards
 engine is a set of grants, any call may fail before or after taking effect, and a thread may
 die between any two calls.
 */
module Protocol {
  import opened Basics
  import opened AchievementRows

  /** The engine's UNIQUE (reward, user, reference). */
  datatype Grant = Grant(reward: Bytes, user: nat, reference: Bytes)

  datatype News = News(key: Key, paid: bool)

  /** One row of the repair sweep's batch, as it was read. */
  datatype Due = Due(key: Key, slug: Bytes, reward: Bytes)

  /** The call a thread makes next. */
  datatype Stage = Scoring | Counting | Completing | Awarding | Paying | Stamping | Announcing(paid: bool)

  /**
   What a thread holds between calls. `d` is the definition as it was read, stale or not;
   `pass` says that the thread is a metric pass, which goes on to other members with it: `left`
   holds the totals it read and has not come to yet.
   */
  datatype Task =
    | Flow(stage: Stage, d: Def, user: nat, silent: bool, pass: bool, left: map<nat, int>)
    | Sweep(todo: seq<Due>, granted: bool)

  /**
   What outlives a thread: the tables, the engine's grants, and three logs. `asked` holds
   every call of the granter, `direct` and `badges` the completions that stamped paid_at
   themselves.
   */
  datatype Book = Book(defs: Defs, rows: Rows, grants: set<Grant>, asked: set<Grant>, direct: set<Key>,
                       badges: set<Key>)

  datatype World = World(book: Book, tasks: map<nat, Task>, news: seq<News>, clock: nat)

  const EMPTY := World(Book(map[], map[], {}, {}, {}, {}), map[], [], 0)

  datatype Outcome = Done | FailedBefore | FailedAfter

  datatype Action =
    | HearMetric(t: nat, id: nat, user: nat)
    | HearTrigger(t: nat, id: nat, user: nat)
    | AwardStart(t: nat, id: nat, user: nat)
    | PassStart(t: nat, id: nat, values: map<nat, int>)
    | SweepStart(t: nat, batch: seq<Key>)
    | Count(t: nat, delta: int)
    | Record(t: nat, user: nat)
    | PassEnd(t: nat)
    | Step(t: nat, outcome: Outcome)
    | Crash(t: nat)
    | Create(id: nat, slug: Bytes, reward: Bytes, metric: Bytes, threshold: int, trigger: Bytes)
    | Edit(id: nat, reward: Bytes, metric: Bytes, threshold: int, trigger: Bytes)
    | Enable(id: nat, on: bool)

  const REPAY_BATCH := 500

  predicate CriterionOk(metric: Bytes, threshold: int, trigger: Bytes) {
    (metric != [] || trigger != []) && (metric != [] ==> threshold > 0)
  }

  function KeyOf(f: Task): Key
    requires f.Flow?
  {
    Key(f.d.id, f.user)
  }

  function GrantOf(f: Task): Grant
    requires f.Flow?
  {
    Grant(f.d.reward, f.user, f.d.slug)
  }

  function DueGrant(d: Due): Grant { Grant(d.reward, d.key.user, d.slug) }

  // ---- One step -----------------------------------------------------------

  function Put(w: World, t: nat, f: Task): World { w.(tasks := w.tasks[t := f]) }

  function Drop(w: World, t: nat): World { w.(tasks := w.tasks - {t}) }

  /** The thread is through with this member: a pass goes on, anything else returns. */
  function Finish(w: World, t: nat, f: Task): World
    requires f.Flow?
  {
    if f.pass then Put(w, t, f.(stage := Scoring)) else Drop(w, t)
  }

  function Settle(w: World, t: nat, f: Task, paid: bool): World
    requires f.Flow?
  {
    if f.silent then Finish(w, t, f) else Put(w, t, f.(stage := Announcing(paid)))
  }

  /** The completion statement's effect if it wins the latch. */
  function Latch(b: Book, k: Key, rows: Rows, paid: bool, direct: bool): Book {
    b.(rows := rows,
       direct := if direct then b.direct + {k} else b.direct,
       badges := if paid && !direct then b.badges + {k} else b.badges)
  }

  function StepComplete(w: World, t: nat, f: Task, o: Outcome): World
    requires f.Flow?
  {
    var direct := f.stage.Awarding?;
    var paid := direct || f.d.reward == [];
    var c := CompleteAchievement(w.book.defs, w.book.rows, KeyOf(f), paid, w.clock);
    if o.FailedBefore? || !c.Completed? then Finish(w, t, f)
    else
      var done := w.(book := Latch(w.book, KeyOf(f), c.rows, paid, direct));
      if o.FailedAfter? then Finish(done, t, f)
      else if paid then Settle(done, t, f, true)
      else Put(done, t, f.(stage := Paying))
  }

  /** GrantOneOff: idempotent on the whole triple. */
  function Ask(b: Book, g: Grant, o: Outcome): Book {
    b.(asked := b.asked + {g}, grants := if o.FailedBefore? then b.grants else b.grants + {g})
  }

  function Stamp(b: Book, k: Key, o: Outcome, now: nat): Book {
    if o.FailedBefore? then b else b.(rows := MarkPaid(b.rows, k, now))
  }

  function StepFlow(w: World, t: nat, f: Task, o: Outcome): World
    requires f.Flow?
  {
    match f.stage
    case Scoring => w
    case Counting => w
    case Completing => StepComplete(w, t, f, o)
    case Awarding => StepComplete(w, t, f, o)
    case Paying =>
      var called := w.(book := Ask(w.book, GrantOf(f), o));
      if o.Done? then Put(called, t, f.(stage := Stamping)) else Settle(called, t, f, false)
    case Stamping => Settle(w.(book := Stamp(w.book, KeyOf(f), o, w.clock)), t, f, true)
    case Announcing(paid) => Finish(w.(news := w.news + [News(KeyOf(f), paid)]), t, f)
  }

  function StepSweep(w: World, t: nat, s: Task, o: Outcome): World
    requires s.Sweep?
  {
    if s.todo == [] then Drop(w, t)
    else if !s.granted then
      Put(w.(book := Ask(w.book, DueGrant(s.todo[0]), o)), t,
          if o.Done? then Sweep(s.todo, true) else Sweep(s.todo[1..], false))
    else
      Put(w.(book := Stamp(w.book, s.todo[0].key, o, w.clock)), t, Sweep(s.todo[1..], false))
  }

  /** What the sweep's SELECT may answer: owed rows, each once, all of them or a full batch. */
  predicate IsBatch(b: Book, batch: seq<Key>) {
    && |batch| <= REPAY_BATCH
    && (forall i :: 0 <= i < |batch| ==> Owed(b.defs, b.rows, batch[i]))
    && (forall i, j :: 0 <= i < j < |batch| ==> batch[i] != batch[j])
    && (|batch| == REPAY_BATCH || forall k :: k in b.rows && Owed(b.defs, b.rows, k) ==> k in batch)
  }

  function DueOf(defs: Defs, k: Key): Due
    requires k.achievement in defs
  {
    Due(k, defs[k.achievement].slug, defs[k.achievement].reward)
  }

  function Dues(defs: Defs, batch: seq<Key>): seq<Due>
    requires forall i :: 0 <= i < |batch| ==> batch[i].achievement in defs
  {
    seq(|batch|, i requires 0 <= i < |batch| => DueOf(defs, batch[i]))
  }

  predicate SlugTaken(defs: Defs, slug: Bytes) { exists id :: id in defs && defs[id].slug == slug }

  /** A progress write, and the completion it may call for. */
  function Wrote(w: World, t: nat, f: Task, p: Progress): World
    requires f.Flow?
  {
    match p
    case UnknownAchievement => Finish(w, t, f)
    case Moved(rows, reached) =>
      var moved := w.(book := w.book.(rows := rows));
      if reached then Put(moved, t, f.(stage := Completing)) else Finish(moved, t, f)
  }

  /** What an administrator does to the definitions. */
  function Define(defs: Defs, a: Action): Defs {
    match a
    case Create(id, slug, reward, metric, threshold, trigger) =>
      if id in defs || slug == [] || SlugTaken(defs, slug) || !CriterionOk(metric, threshold, trigger) then defs
      else defs[id := Def(id, slug, reward, metric, threshold, trigger, false, None)]
    case Edit(id, reward, metric, threshold, trigger) =>
      if id !in defs || !CriterionOk(metric, threshold, trigger) then defs
      else defs[id := defs[id].(reward := reward, metric := metric, threshold := threshold, trigger := trigger)]
    case Enable(id, on) =>
      if id !in defs then defs else defs[id := defs[id].(enabled := on)]
    case _ => defs
  }

  /** A thread begins with a read of the definitions. */
  function Begin(w: World, t: nat, id: nat, stage: Stage, user: nat, silent: bool, left: map<nat, int>): World
    requires id in w.book.defs
  {
    if t in w.tasks then w else Put(w, t, Flow(stage, w.book.defs[id], user, silent, stage.Scoring?, left))
  }

  /** The pass has a positive total of this member to record still. */
  predicate ToMeet(f: Task, user: nat) { f.Flow? && user != 0 && user in f.left && f.left[user] > 0 }

  /** The pass has come to the end of its members; one that gives up earlier is a thread that dies. */
  predicate Through(f: Task) { f.Flow? && forall user :: user in f.left ==> !ToMeet(f, user) }

  /** Each member is met once. */
  function Meet(f: Task, user: nat): Task
    requires f.Flow?
  {
    f.(user := user, left := f.left - {user})
  }

  predicate Before(w: World, t: nat, stage: Stage) { t in w.tasks && w.tasks[t].Flow? && w.tasks[t].stage == stage }

  /** One step; an action that is not enabled changes nothing. */
  function Act(w: World, a: Action): World {
    var defs := w.book.defs;
    match a
    case HearMetric(t, id, user) =>
      if id !in defs || !defs[id].enabled || user == 0 then w
      else Begin(w, t, id, Counting, user, defs[id].backfilledAt.None?, map[])
    case HearTrigger(t, id, user) =>
      if id !in defs || !defs[id].enabled || user == 0 then w
      else Begin(w, t, id, Completing, user, false, map[])
    case AwardStart(t, id, user) =>
      if id !in defs || user == 0 then w else Begin(w, t, id, Awarding, user, false, map[])
    case PassStart(t, id, values) =>
      if id !in defs || !defs[id].enabled then w
      else Begin(w, t, id, Scoring, 0, defs[id].backfilledAt.None?, values)
    case SweepStart(t, batch) =>
      if t in w.tasks || !IsBatch(w.book, batch) then w else Put(w, t, Sweep(Dues(defs, batch), false))
    case Count(t, delta) =>
      if !Before(w, t, Counting) || delta <= 0 then w
      else Wrote(w, t, w.tasks[t], IncrementProgress(defs, w.book.rows, KeyOf(w.tasks[t]), delta))
    case Record(t, user) =>
      if !Before(w, t, Scoring) || !ToMeet(w.tasks[t], user) then w
      else
        var f := Meet(w.tasks[t], user);
        Wrote(w, t, f, RecordProgress(defs, w.book.rows, KeyOf(f), w.tasks[t].left[user]))
    case PassEnd(t) =>
      if !Before(w, t, Scoring) || !Through(w.tasks[t]) then w
      else
        var d := w.tasks[t].d;
        Drop(if d.backfilledAt.None? then w.(book := w.book.(defs := MarkBackfilled(defs, d.id, w.clock))) else w, t)
    case Step(t, o) =>
      if t !in w.tasks then w
      else if w.tasks[t].Flow? then StepFlow(w, t, w.tasks[t], o)
      else StepSweep(w, t, w.tasks[t], o)
    case Crash(t) => Drop(w, t)
    case _ => w.(book := w.book.(defs := Define(defs, a)))
  }

  function Apply(w: World, a: Action): World { Act(w, a).(clock := w.clock + 1) }

  function Run(w: World, acts: seq<Action>): World
    decreases |acts|
  {
    if acts == [] then w else Run(Apply(w, acts[0]), acts[1..])
  }
}
