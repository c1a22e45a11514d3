/**
 The event handlers, the direct award and the repair sweep, as the loops and calls they are.
 Every call of the store or the granter may fail, before or after it takes effect. Each method
 is proved to be a run of the protocol, so all that holds of every run holds of it; what it
 achieves in every share of its work none of whose calls failed is stated beside that.
 */
module Handlers {
  import opened Basics
  import opened AchievementRows
  import opened Protocol
  import opened Columns
  import opened PayRuns
  import opened Repaying
  import opened Shares

  ghost predicate Keeps(before: map<nat, Task>, after: map<nat, Task>) {
    forall t :: t in before ==> t in after && after[t] == before[t]
  }

  function Failed(o: Outcome): nat { if o.Done? then 0 else 1 }

  class Plugin {
    var book: Book
    var news: seq<News>
    var now: nat
    /** The protocol's threads, as this one moves among them. */
    ghost var tasks: map<nat, Task>
    /** How many calls have failed. */
    var failures: nat

    constructor ()
      ensures Now() == EMPTY && failures == 0
    {
      book, news, now, tasks, failures := EMPTY.book, [], 0, map[], 0;
    }

    /** The world of the protocol this plugin is in. */
    ghost function Now(): World
      reads this
    {
      World(book, tasks, news, now)
    }

    // ---- The calls, one atomic step each -----------------------------------

    method Called() returns (o: Outcome)
      modifies this`failures
      ensures failures == old(failures) + Failed(o)
    {
      o := *;
      failures := failures + Failed(o);
    }

    method IncrementProgress(d: Def, user: nat, delta: int, ghost t: nat) returns (o: Outcome, reached: bool)
      requires Before(Now(), t, Counting) && tasks[t].d == d && tasks[t].user == user && d.id in book.defs && delta > 0
      modifies this
      ensures Now() == if o.FailedBefore? then old(Now()) else Apply(old(Now()), Count(t, delta))
      ensures failures == old(failures) + Failed(o)
      ensures news == old(news) && book.defs == old(book.defs)
      ensures var p := AchievementRows.IncrementProgress(old(book.defs), old(book.rows), Key(d.id, user), delta);
        reached == p.reached && (!o.FailedBefore? ==> book == old(book).(rows := p.rows))
      ensures !o.FailedBefore? ==>
        tasks == if reached then old(tasks)[t := old(tasks[t]).(stage := Completing)]
                 else old(Finish(Now(), t, tasks[t]).tasks)
    {
      o := Called();
      var p := AchievementRows.IncrementProgress(book.defs, book.rows, Key(d.id, user), delta);
      reached := p.reached;
      if !o.FailedBefore? {
        tasks := Apply(Now(), Count(t, delta)).tasks;
        book, now := book.(rows := p.rows), now + 1;
      }
    }

    method CompleteAchievement(d: Def, user: nat, paid: bool, direct: bool, ghost t: nat)
      returns (o: Outcome, c: Completion)
      requires Before(Now(), t, if direct then Awarding else Completing) && tasks[t].d == d && tasks[t].user == user
      requires paid == (direct || d.reward == [])
      modifies this
      ensures Now() == Apply(old(Now()), Step(t, o))
      ensures c == AchievementRows.CompleteAchievement(old(book.defs), old(book.rows), Key(d.id, user), paid, old(now))
      ensures failures == old(failures) + Failed(o)
      ensures news == old(news)
      ensures book ==
        if o.FailedBefore? || !c.Completed? then old(book) else Latch(old(book), Key(d.id, user), c.rows, paid, direct)
      ensures tasks == if !o.Done? || !c.Completed? then old(Finish(Now(), t, tasks[t]).tasks)
                       else if paid then old(Settle(Now(), t, tasks[t], true).tasks)
                       else old(tasks)[t := old(tasks[t]).(stage := Paying)]
    {
      o := Called();
      c := AchievementRows.CompleteAchievement(book.defs, book.rows, Key(d.id, user), paid, now);
      tasks := Apply(Now(), Step(t, o)).tasks;
      now := now + 1;
      if !o.FailedBefore? && c.Completed? {
        book := Latch(book, Key(d.id, user), c.rows, paid, direct);
      }
    }

    method GrantOneOff(d: Def, user: nat, ghost t: nat) returns (o: Outcome)
      requires Before(Now(), t, Paying) && tasks[t].d == d && tasks[t].user == user
      modifies this
      ensures Now() == Apply(old(Now()), Step(t, o))
      ensures failures == old(failures) + Failed(o)
    {
      o := Called();
      tasks := Apply(Now(), Step(t, o)).tasks;
      book, now := Ask(book, Grant(d.reward, user, d.slug), o), now + 1;
    }

    method MarkPaid(d: Def, user: nat, ghost t: nat) returns (o: Outcome)
      requires Before(Now(), t, Stamping) && tasks[t].d == d && tasks[t].user == user
      modifies this
      ensures Now() == Apply(old(Now()), Step(t, o))
      ensures failures == old(failures) + Failed(o)
    {
      o := Called();
      tasks := Apply(Now(), Step(t, o)).tasks;
      book, now := Stamp(book, Key(d.id, user), o, now), now + 1;
    }

    method Announce(d: Def, user: nat, paid: bool, ghost t: nat)
      requires Before(Now(), t, Announcing(paid)) && tasks[t].d == d && tasks[t].user == user
      modifies this
      ensures Now() == Apply(old(Now()), Step(t, Done)) && failures == old(failures)
      ensures book == old(book) && news == old(news) + [News(Key(d.id, user), paid)]
      ensures tasks == old(Finish(Now(), t, tasks[t]).tasks)
    {
      tasks := Apply(Now(), Step(t, Done)).tasks;
      news, now := news + [News(Key(d.id, user), paid)], now + 1;
    }

    // ---- Completing and paying ---------------------------------------------

    /** Asks the granter, then stamps; a stamp that fails does not make the reward unpaid. */
    method PayReward(d: Def, user: nat, ghost t: nat) returns (paid: bool, ghost acts: seq<Action>)
      requires Before(Now(), t, Paying) && tasks[t].d == d && tasks[t].user == user
      modifies this
      ensures Now() == Run(old(Now()), acts) && KeepsRewards(old(Now()), acts) && failures >= old(failures)
      ensures tasks == old(Settle(Now(), t, tasks[t], paid).tasks)
      ensures book.defs == old(book.defs) && news == old(news) && OnlyRow(old(book.rows), book.rows, Key(d.id, user))
      ensures RowOf(book.rows, Key(d.id, user)).progress == old(RowOf(book.rows, Key(d.id, user)).progress)
      ensures RowOf(book.rows, Key(d.id, user)).completedAt == old(RowOf(book.rows, Key(d.id, user)).completedAt)
      ensures paid ==> Grant(d.reward, user, d.slug) in book.grants
      ensures failures == old(failures) ==>
        paid && book.rows == AchievementRows.MarkPaid(old(book.rows), Key(d.id, user), old(now) + 1)
    {
      var o := GrantOneOff(d, user, t);
      acts := [Step(t, o)];
      RunOne(old(Now()), Step(t, o));
      if !o.Done? {
        return false, acts;
      }
      var s := MarkPaid(d, user, t);
      RunOne(Run(old(Now()), acts), Step(t, s));
      RunAppends(old(Now()), acts, [Step(t, s)]);
      acts := acts + [Step(t, s)];
      paid := true;
    }

    /** The completion first, the payment after it, the announcement last and only if it is news. */
    method CompleteAchievementSilent(d: Def, user: nat, silent: bool, ghost t: nat)
      returns (err: bool, ghost acts: seq<Action>)
      requires Before(Now(), t, Completing) && tasks[t].d == d && tasks[t].user == user && tasks[t].silent == silent
      requires d.id in book.defs
      modifies this
      ensures Now() == Run(old(Now()), acts) && KeepsRewards(old(Now()), acts) && failures >= old(failures)
      ensures err ==> failures > old(failures)
      ensures !err ==> RowOf(book.rows, Key(d.id, user)).completedAt.Some?
      ensures failures == old(failures) ==> Honoured(old(Now()), Now(), d, user, silent)
      ensures tasks == old(Finish(Now(), t, tasks[t]).tasks)
      ensures book.defs == old(book.defs) && OnlyRow(old(book.rows), book.rows, Key(d.id, user))
      ensures RowOf(book.rows, Key(d.id, user)).progress == old(RowOf(book.rows, Key(d.id, user)).progress)
      ensures silent ==> news == old(news)
      ensures news == old(news) || OneMore(old(news), news, Key(d.id, user))
    {
      hide Apply, Run, KeepsRewards;
      var badge := d.reward == [];
      var o, c := CompleteAchievement(d, user, badge, false, t);
      acts := [Step(t, o)];
      RunOne(old(Now()), Step(t, o));
      if !o.Done? || !c.Completed? {
        return !o.Done?, acts;
      }
      err := false;
      var paid := badge;
      if !badge {
        ghost var more;
        paid, more := PayReward(d, user, t);
        RunAppends(old(Now()), acts, more);
        acts := acts + more;
      }
      if !silent {
        ghost var before := Now();
        Announce(d, user, paid, t);
        RunOne(before, Step(t, Done));
        RunAppends(old(Now()), acts, [Step(t, Done)]);
        acts := acts + [Step(t, Done)];
      }
    }

    // ---- Events --------------------------------------------------------------

    /** The enabled definitions a name selects, or the query fails. */
    method DefsWhere(name: Bytes, metric: bool) returns (defs: seq<Def>, ok: bool)
      requires Identified(book.defs)
      modifies this`failures
      ensures failures == old(failures) + if ok then 0 else 1
      ensures if ok then Lists(defs, book.defs, name, metric) else defs == []
    {
      hide Lists;
      defs := [];
      var o := Called();
      ok := o.Done?;
      if ok {
        defs := SelectDefs(name, metric);
      }
    }

    /** Each once, those of a metric by threshold. */
    method SelectDefs(name: Bytes, metric: bool) returns (defs: seq<Def>)
      requires Identified(book.defs)
      ensures Lists(defs, book.defs, name, metric)
      ensures metric ==> forall i, j :: 0 <= i < j < |defs| ==> defs[i].threshold <= defs[j].threshold
    {
      hide Selected, ListsBut;
      defs := [];
      var rest := book.defs.Keys;
      ListsNone(book.defs, name, metric);
      while rest != {}
        invariant rest <= book.defs.Keys && ListsBut(defs, book.defs, rest, name, metric)
        decreases rest
      {
        Lowest(book.defs, rest);
        var id :| id in rest && forall x :: x in rest ==> book.defs[id].threshold <= book.defs[x].threshold;
        ListsNext(defs, book.defs, rest, name, metric, id);
        rest := rest - {id};
        if Selected(book.defs[id], name, metric) {
          defs := defs + [book.defs[id]];
        }
      }
      ListsAll(defs, book.defs, name, metric);
    }

    /** The thread of the protocol this flow is from here on. */
    method Begin(d: Def, user: nat, metric: bool, ghost t: nat) returns (ghost acts: seq<Action>)
      requires t !in tasks && d.id in book.defs && book.defs[d.id] == d && d.enabled && user != 0
      modifies this`now, this`tasks
      ensures Now() == Run(old(Now()), acts) && KeepsRewards(old(Now()), acts)
      ensures metric ==> tasks == old(tasks)[t := Flow(Counting, d, user, d.backfilledAt.None?, false, map[])]
      ensures !metric ==> tasks == old(tasks)[t := Flow(Completing, d, user, false, false, map[])]
    {
      ghost var a := if metric then HearMetric(t, d.id, user) else HearTrigger(t, d.id, user);
      acts := [a];
      RunOne(Now(), a);
      tasks := Apply(Now(), a).tasks;
      now := now + 1;
    }

    /** One definition's share of a countable event. */
    method ScoreOne(d: Def, user: nat, count: int) returns (ghost s: Share, ghost acts: seq<Action>)
      requires d.id in book.defs && book.defs[d.id] == d && d.enabled && user != 0 && count > 0
      modifies this
      ensures Now() == Run(old(Now()), acts) && KeepsRewards(old(Now()), acts)
      ensures Keeps(old(tasks), tasks) && book.defs == old(book.defs)
      ensures IsSharesOf([s], Adds, [d], user, count) && Met(old(Now()), Now(), [s])
      ensures failures >= old(failures) && (s.clean <==> failures == old(failures))
    {
      hide Apply, Run, KeepsRewards, Met;
      ghost var t := Above(tasks.Keys);
      ghost var was := Now();
      acts := Begin(d, user, true, t);
      ghost var begun := Now();
      ghost var more;
      s, more := CountOne(d, user, count, t);
      RunAppends(was, acts, more);
      acts := acts + more;
      MetSince(was, begun, Now(), [s]);
    }

    /** Adds, and completes if that is reported to reach the threshold. */
    method CountOne(d: Def, user: nat, count: int, ghost t: nat) returns (ghost s: Share, ghost acts: seq<Action>)
      requires t in tasks && tasks[t] == Flow(Counting, d, user, d.backfilledAt.None?, false, map[])
      requires d.id in book.defs && book.defs[d.id] == d && user != 0 && count > 0
      modifies this
      ensures Now() == Run(old(Now()), acts) && KeepsRewards(old(Now()), acts)
      ensures Keeps(old(tasks) - {t}, tasks) && book.defs == old(book.defs)
      ensures IsSharesOf([s], Adds, [d], user, count) && Met(old(Now()), Now(), [s])
      ensures failures >= old(failures) && (s.clean <==> failures == old(failures))
    {
      hide Apply, Run, KeepsRewards, Honoured, RowServed, Tells, OneMore, Met, Completes, Reached, ShareOk,
          AchievementRows.IncrementProgress;
      ghost var was, before := Now(), failures;
      acts := [];
      RunNone(was);
      s := ShareDue(book.rows, Share(Adds, d, user, count, false, [], false));
      CountMoves(book.defs, book.rows, s);
      var o, reached := IncrementProgress(d, user, count, t);
      if o.FailedBefore? {
        s := MetBy(was, Now(), s, false);
        return;
      }
      acts := [Count(t, count)];
      RunOne(was, Count(t, count));
      ghost var mid := Now();
      if o.Done? && reached {
        var err, more := CompleteAchievementSilent(d, user, d.backfilledAt.None?, t);
        RunAppends(was, acts, more);
        acts := acts + more;
      }
      GrantsOnlyGrow(was, acts);
      if failures == before { ServedInFull(was.book.rows, mid, Now(), s, reached); }
      s := MetBy(was, Now(), s, failures == before);
    }

    /** Every definition the event counts towards; one that fails does not stop the others. */
    method ScoreEvent(name: Bytes, user: nat, count: int)
      returns (ghost listed: bool, ghost heard: seq<Def>, ghost shares: seq<Share>, ghost acts: seq<Action>)
      requires Identified(book.defs) && user != 0 && count > 0
      modifies this
      ensures Now() == Run(old(Now()), acts) && KeepsRewards(old(Now()), acts)
      ensures Keeps(old(tasks), tasks) && book.defs == old(book.defs)
      ensures if listed then Lists(heard, book.defs, name, true) else heard == []
      ensures IsSharesOf(shares, Adds, heard, user, count) && Met(old(Now()), Now(), shares)
      ensures forall k :: !Concerns(book.defs, k, name, user, true) ==> RowOf(book.rows, k) == RowOf(old(book.rows), k)
      ensures failures - old(failures) >= Unclean(shares) + if listed then 0 else 1
      ensures LowestFirst(book.defs, news, |old(news)|)
    {
      hide Apply, Run, KeepsRewards, ShareOk, LowestFirst;
      var defs, ok := DefsWhere(name, true);
      listed, heard, shares, acts := ok, defs, [], [];
      RunNone(Now());
      MetNone(Now());
      ghost var was, before := Now(), failures;
      for i := 0 to |defs|
        invariant Now() == Run(was, acts) && KeepsRewards(was, acts)
        invariant Keeps(was.tasks, tasks) && book.defs == was.book.defs
        invariant IsSharesOf(shares, Adds, defs[..i], user, count) && Met(was, Now(), shares)
        invariant failures >= before + Unclean(shares)
      {
        ghost var sofar := Now();
        assert defs[i] in defs;
        var s, more := ScoreOne(defs[i], user, count);
        RunAppends(was, acts, more);
        acts := acts + more;
        NextShare(was, sofar, Now(), shares, s, Adds, defs, i, user, count);
        shares := shares + [s];
      }
      assert defs[..|defs|] == defs;
      SharesConcern(was, Now(), shares, Adds, defs, book.defs, name, user, count, true);
      HeardLowestFirst(was, Now(), shares, defs, book.defs, name, user, count);
    }

    /** A trigger is always news: never silent, backfilled or not. */
    method FireOne(d: Def, user: nat) returns (ghost s: Share, ghost acts: seq<Action>)
      requires d.id in book.defs && book.defs[d.id] == d && d.enabled && user != 0
      modifies this
      ensures Now() == Run(old(Now()), acts) && KeepsRewards(old(Now()), acts)
      ensures Keeps(old(tasks), tasks) && book.defs == old(book.defs)
      ensures IsSharesOf([s], Fires, [d], user, 0) && Met(old(Now()), Now(), [s])
      ensures failures >= old(failures) && (s.clean <==> failures == old(failures))
    {
      hide Apply, Run, KeepsRewards, Honoured, RowServed, Tells, OneMore, Met;
      ghost var t := Above(tasks.Keys);
      ghost var was, before := Now(), failures;
      acts := Begin(d, user, false, t);
      ghost var mid := Now();
      var err, more := CompleteAchievementSilent(d, user, false, t);
      RunAppends(was, acts, more);
      acts := acts + more;
      GrantsOnlyGrow(was, acts);
      s := ShareDue(was.book.rows, Share(Fires, d, user, 0, false, [], false));
      if failures == before { ServedInFull(was.book.rows, mid, Now(), s, true); }
      s := MetBy(was, Now(), s, failures == before);
    }

    method FireTriggers(name: Bytes, user: nat)
      returns (ghost listed: bool, ghost fired: seq<Def>, ghost shares: seq<Share>, ghost acts: seq<Action>)
      requires Identified(book.defs) && user != 0
      modifies this
      ensures Now() == Run(old(Now()), acts) && KeepsRewards(old(Now()), acts)
      ensures Keeps(old(tasks), tasks) && book.defs == old(book.defs)
      ensures if listed then Lists(fired, book.defs, name, false) else fired == []
      ensures IsSharesOf(shares, Fires, fired, user, 0) && Met(old(Now()), Now(), shares)
      ensures forall k :: !Concerns(book.defs, k, name, user, false) ==> RowOf(book.rows, k) == RowOf(old(book.rows), k)
      ensures forall k :: RowOf(book.rows, k).progress == RowOf(old(book.rows), k).progress
      ensures failures - old(failures) >= Unclean(shares) + if listed then 0 else 1
    {
      hide Apply, Run, KeepsRewards, ShareOk;
      var defs, ok := DefsWhere(name, false);
      listed, fired, shares, acts := ok, defs, [], [];
      RunNone(Now());
      MetNone(Now());
      ghost var was, before := Now(), failures;
      for i := 0 to |defs|
        invariant Now() == Run(was, acts) && KeepsRewards(was, acts)
        invariant Keeps(was.tasks, tasks) && book.defs == was.book.defs
        invariant IsSharesOf(shares, Fires, defs[..i], user, 0) && Met(was, Now(), shares)
        invariant failures >= before + Unclean(shares)
      {
        ghost var sofar := Now();
        assert defs[i] in defs;
        var s, more := FireOne(defs[i], user);
        RunAppends(was, acts, more);
        acts := acts + more;
        NextShare(was, sofar, Now(), shares, s, Fires, defs, i, user, 0);
        shares := shares + [s];
      }
      assert defs[..|defs|] == defs;
      SharesConcern(was, Now(), shares, Fires, defs, book.defs, name, user, 0, false);
      FiringKeepsProgress(was, Now(), shares);
    }

    /** Nothing for the system's own events and retractions; otherwise the count, then the triggers. */
    method OnEvent(name: Bytes, user: nat, count: int, countable: bool)
      returns (ghost e: Heard, ghost acts: seq<Action>)
      requires Identified(book.defs)
      modifies this
      ensures Now() == Run(old(Now()), acts) && KeepsRewards(old(Now()), acts)
      ensures Keeps(old(tasks), tasks) && book.defs == old(book.defs)
      ensures user == 0 || count <= 0 ==> Now() == old(Now()) && failures == old(failures)
      ensures OnlyNamed(old(book.rows), book, name, user, countable)
      ensures forall k :: k in Targets(e.counted) ==> countable && Countable(book.defs, {name}, k)
      ensures user != 0 && count > 0 ==>
        && IsSharesOf(e.counted, Adds, e.heard, user, count) && Met(old(Now()), e.mid, e.counted)
        && IsSharesOf(e.triggered, Fires, e.fired, user, 0) && Met(e.mid, Now(), e.triggered)
        && failures - old(failures) >= Unclean(e.counted) + Unclean(e.triggered)
      ensures user != 0 && count > 0 && failures == old(failures) ==>
        && (if countable then Lists(e.heard, book.defs, name, true) else e.heard == [])
        && Lists(e.fired, book.defs, name, false)
      ensures user != 0 && count > 0 ==> LowestFirst(book.defs, e.mid.news, |old(news)|)
      ensures user != 0 && count > 0 && failures == old(failures) ==>
        && EventDone(old(Now()), Now(), book.defs, name, user, count, countable)
        && EventTold(old(Now()), Now(), book.defs, name, user, count, countable)
    {
      hide Apply, Run, KeepsRewards, Met, Lists, IsSharesOf, Concerns, Countable, EventDone, EventTold,
        LowestFirst;
      acts, e := [], Heard([], [], Now(), [], []);
      RunNone(Now());
      if user == 0 || count <= 0 {
        return;
      }
      ghost var was, before := Now(), failures;
      ghost var heard, shares, listed := [], [], true;
      MetNone(was);
      SharesOfNone(Adds, user, count);
      HeardLowestFirst(was, was, [], [], book.defs, name, user, count);
      if countable {
        listed, heard, shares, acts := ScoreEvent(name, user, count);
      }
      ghost var mid := Now();
      ghost var fired, triggered, more;
      listed, fired, triggered, more := FireTriggers(name, user);
      RunAppends(was, acts, more);
      acts := acts + more;
      e := Heard(heard, shares, mid, fired, triggered);
      NamedOnly(was.book.rows, mid.book.rows, book, name, user, countable);
      WritesReachCountable(shares, Adds, heard, book.defs, name, user, count);
      if failures == before { EventIsDone(was, Now(), e, book.defs, name, user, count, countable); }
    }

    // ---- The direct award ----------------------------------------------------

    /** Marks a badge held and never pays its reward; a badge already held is no error. */
    method GrantAchievement(user: nat, slug: Bytes) returns (err: bool, ghost acts: seq<Action>)
      requires Identified(book.defs)
      modifies this
      ensures Now() == Run(old(Now()), acts) && KeepsRewards(old(Now()), acts) && failures >= old(failures)
      ensures Keeps(old(tasks), tasks) && book.defs == old(book.defs)
      ensures book.grants == old(book.grants) && book.asked == old(book.asked) && book.badges == old(book.badges)
      ensures user == 0 || !SlugTaken(book.defs, slug) ==> err && Now() == old(Now())
      ensures !err ==> failures == old(failures)
      ensures !err ==>
        exists id :: id in book.defs && book.defs[id].slug == slug && Awarded(old(Now()), Now(), Key(id, user))
      ensures failures == old(failures) && user != 0 && SlugTaken(book.defs, slug) ==> !err
    {
      hide Run, KeepsRewards, Awarded;
      acts := [];
      RunNone(Now());
      if user == 0 {
        return true, acts;
      }
      var found := BySlug(slug);
      if found.None? {
        return true, acts;
      }
      err, acts := Award(found.value, user);
      assert found.value.id in book.defs && book.defs[found.value.id].slug == slug;
    }

    method Award(d: Def, user: nat) returns (err: bool, ghost acts: seq<Action>)
      requires d.id in book.defs && book.defs[d.id] == d && user != 0
      modifies this
      ensures Now() == Run(old(Now()), acts) && KeepsRewards(old(Now()), acts) && failures >= old(failures)
      ensures Keeps(old(tasks), tasks) && book.defs == old(book.defs)
      ensures book.grants == old(book.grants) && book.asked == old(book.asked) && book.badges == old(book.badges)
      ensures !err <==> failures == old(failures)
      ensures !err ==> Awarded(old(Now()), Now(), Key(d.id, user))
    {
      hide Apply, Run, KeepsRewards;
      ghost var was := Now();
      ghost var t := Above(tasks.Keys);
      acts := BeginAward(d, user, t);
      var o, c := CompleteAchievement(d, user, true, true, t);
      RunOne(Run(was, acts), Step(t, o));
      RunAppends(was, acts, [Step(t, o)]);
      acts := acts + [Step(t, o)];
      if !o.Done? || !c.Completed? {
        return !o.Done?, acts;
      }
      err := false;
      Announce(d, user, true, t);
      RunOne(Run(was, acts), Step(t, Done));
      RunAppends(was, acts, [Step(t, Done)]);
      acts := acts + [Step(t, Done)];
    }

    /** The definition of a slug; none if there is none, or the query fails. */
    method BySlug(slug: Bytes) returns (found: Option<Def>)
      requires Identified(book.defs)
      modifies this`failures
      ensures old(failures) <= failures <= old(failures) + 1
      ensures found.Some? <==> failures == old(failures) && SlugTaken(book.defs, slug)
      ensures found.Some? ==>
        found.value.slug == slug && found.value.id in book.defs && book.defs[found.value.id] == found.value
    {
      var o := Called();
      if !o.Done? {
        return None;
      }
      var rest := book.defs.Keys;
      while rest != {}
        invariant rest <= book.defs.Keys
        invariant forall id :: id in book.defs && id !in rest ==> book.defs[id].slug != slug
        decreases rest
      {
        var id :| id in rest;
        if book.defs[id].slug == slug {
          return Some(book.defs[id]);
        }
        rest := rest - {id};
      }
      found := None;
    }

    method BeginAward(d: Def, user: nat, ghost t: nat) returns (ghost acts: seq<Action>)
      requires t !in tasks && d.id in book.defs && book.defs[d.id] == d && user != 0
      modifies this`now, this`tasks
      ensures Now() == Run(old(Now()), acts) && KeepsRewards(old(Now()), acts)
      ensures tasks == old(tasks)[t := Flow(Awarding, d, user, false, false, map[])]
    {
      acts := [AwardStart(t, d.id, user)];
      RunOne(Now(), AwardStart(t, d.id, user));
      tasks := Apply(Now(), AwardStart(t, d.id, user)).tasks;
      now := now + 1;
    }

    // ---- The repair sweep ------------------------------------------------

    /** A batch of owed rows, or the query fails. */
    method UnpaidCompletions() returns (batch: seq<Key>, ok: bool)
      modifies this`failures
      ensures failures == old(failures) + if ok then 0 else 1
      ensures if ok then IsBatch(book, batch) else batch == []
    {
      batch, ok := [], true;
      var o := Called();
      if !o.Done? {
        return [], false;
      }
      var rest := book.rows.Keys;
      while rest != {} && |batch| < REPAY_BATCH
        invariant rest <= book.rows.Keys && |batch| <= REPAY_BATCH
        invariant forall i :: 0 <= i < |batch| ==> batch[i] !in rest && Owed(book.defs, book.rows, batch[i])
        invariant forall i, j :: 0 <= i < j < |batch| ==> batch[i] != batch[j]
        invariant forall k :: k in book.rows && k !in rest && Owed(book.defs, book.rows, k) ==> k in batch
        decreases rest
      {
        var k :| k in rest;
        rest := rest - {k};
        if Owed(book.defs, book.rows, k) {
          batch := batch + [k];
        }
      }
    }

    method SweepGrant(e: Due, ghost t: nat) returns (o: Outcome)
      requires t in tasks && tasks[t].Sweep? && !tasks[t].granted && tasks[t].todo != [] && tasks[t].todo[0] == e
      modifies this
      ensures Now() == Apply(old(Now()), Step(t, o)) && failures == old(failures) + Failed(o)
      ensures book == Ask(old(book), DueGrant(e), o)
      ensures tasks ==
        old(tasks)[t := if o.Done? then Sweep(old(tasks[t]).todo, true) else Sweep(old(tasks[t]).todo[1..], false)]
    {
      o := Called();
      tasks := Apply(Now(), Step(t, o)).tasks;
      book, now := Ask(book, DueGrant(e), o), now + 1;
    }

    method SweepStamp(e: Due, ghost t: nat) returns (o: Outcome)
      requires t in tasks && tasks[t].Sweep? && tasks[t].granted && tasks[t].todo != [] && tasks[t].todo[0] == e
      modifies this
      ensures Now() == Apply(old(Now()), Step(t, o)) && failures == old(failures) + Failed(o)
      ensures book == Stamp(old(book), e.key, o, old(now))
      ensures tasks == old(tasks)[t := Sweep(old(tasks[t]).todo[1..], false)]
    {
      o := Called();
      tasks := Apply(Now(), Step(t, o)).tasks;
      book, now := Stamp(book, e.key, o, now), now + 1;
    }

    method BeginSweep(batch: seq<Key>, ghost t: nat) returns (ghost acts: seq<Action>)
      requires t !in tasks && IsBatch(book, batch)
      modifies this`now, this`tasks
      ensures Now() == Run(old(Now()), acts) && KeepsRewards(old(Now()), acts)
      ensures tasks == old(tasks)[t := Sweep(Dues(book.defs, batch), false)]
    {
      acts := [SweepStart(t, batch)];
      RunOne(Now(), SweepStart(t, batch));
      tasks := Apply(Now(), SweepStart(t, batch)).tasks;
      now := now + 1;
    }

    /** One row of the batch: the same idempotent call, then the stamp; a refusal leaves the row alone. */
    method RepayOne(e: Due, ghost t: nat) returns (fate: Fate, ghost acts: seq<Action>)
      requires t in tasks && tasks[t].Sweep? && !tasks[t].granted && tasks[t].todo != [] && tasks[t].todo[0] == e
      modifies this
      ensures Now() == Run(old(Now()), acts) && KeepsRewards(old(Now()), acts)
      ensures tasks == old(tasks)[t := Sweep(old(tasks[t]).todo[1..], false)] && book.defs == old(book.defs)
      ensures old(book.grants) <= book.grants <= old(book.grants) + {DueGrant(e)}
      ensures IsFate(fate, old(book), book, e, old(now) + 1)
      ensures failures == old(failures) + if fate.RepaidNow? then 0 else 1
    {
      ghost var was := Now();
      var o := SweepGrant(e, t);
      acts := [Step(t, o)];
      RunOne(was, Step(t, o));
      hide Apply, Run, KeepsRewards;
      if !o.Done? {
        return GrantFailed, acts;
      }
      var s := SweepStamp(e, t);
      RunOne(Run(was, acts), Step(t, s));
      RunAppends(was, acts, [Step(t, s)]);
      acts := acts + [Step(t, s)];
      fate := if s.Done? then RepaidNow else StampFailed;
    }

    /**
     Pays every row of one batch whose calls answer; a refused one does not stop the rest. With no
     granter it pays none and says so.
     */
    method RepayUnpaid(granter: bool)
      returns (err: bool, repaired: nat, ghost batch: seq<Key>, ghost refused: set<Key>, ghost unstamped: set<Key>,
               ghost acts: seq<Action>)
      modifies this
      ensures Now() == Run(old(Now()), acts) && KeepsRewards(old(Now()), acts) && Keeps(old(tasks), tasks)
      ensures err ==> Now() == old(Now()) && repaired == 0 && failures == old(failures) + 1
      ensures !err ==> IsBatch(old(book), batch) && TakesOwed(old(book), batch)
      ensures !err && (!granter || batch == []) ==> Now() == old(Now()) && repaired == 0 && failures == old(failures)
      ensures !err && granter ==>
        && SweepLeaves(old(book), book, batch, refused, unstamped)
        && repaired + |refused| + |unstamped| == |batch|
        && failures == old(failures) + |refused| + |unstamped|
    {
      hide Apply, Run, KeepsRewards, SweepLeaves, Owed, Dues, TakesOwed;
      var rows, ok := UnpaidCompletions();
      batch, refused, unstamped, acts, err, repaired := rows, {}, {}, [], !ok, 0;
      RunNone(Now());
      SweepBegins(book);
      if ok { BatchTakesOwed(book, rows); }
      if !ok || |rows| == 0 || !granter {
        return;
      }
      ghost var was := Now();
      ghost var t := Above(tasks.Keys);
      acts := BeginSweep(rows, t);
      ghost var more;
      repaired, refused, unstamped, more := RepayRows(rows, t);
      RunAppends(was, acts, more);
      acts := acts + more;
    }

    /** Row by row, each with its own calls. */
    method RepayRows(rows: seq<Key>, ghost t: nat)
      returns (repaired: nat, ghost refused: set<Key>, ghost unstamped: set<Key>, ghost acts: seq<Action>)
      requires IsBatch(book, rows) && t in tasks && tasks[t] == Sweep(Dues(book.defs, rows), false)
      modifies this
      ensures Now() == Run(old(Now()), acts) && KeepsRewards(old(Now()), acts) && Keeps(old(tasks) - {t}, tasks)
      ensures SweepLeaves(old(book), book, rows, refused, unstamped)
      ensures repaired + |refused| + |unstamped| == |rows|
      ensures failures == old(failures) + |refused| + |unstamped|
    {
      hide Apply, Run, KeepsRewards, SweepLeaves, IsFate, DueGrant, DueOf, Dues, IsBatch, Refused, Unstamped;
      ghost var was, before := Now(), failures;
      refused, unstamped, acts, repaired := {}, {}, [], 0;
      RunNone(was);
      SweepBegins(book);
      BatchKnown(book, rows);
      var dues := Dues(book.defs, rows);
      assert dues[0..] == dues;
      for i := 0 to |rows|
        invariant Now() == Run(was, acts) && KeepsRewards(was, acts) && book.defs == was.book.defs
        invariant t in tasks && tasks[t] == Sweep(dues[i..], false) && Keeps(was.tasks - {t}, tasks)
        invariant SweepLeaves(was.book, book, rows[..i], refused, unstamped)
        invariant repaired + |refused| + |unstamped| == i && failures == before + |refused| + |unstamped|
      {
        ghost var sofar, sofar_now := book, now + 1;
        DueNext(was.book, rows, i);
        var fate, more := RepayOne(dues[i], t);
        SweepGoesOn(was.book, sofar, book, rows, i, refused, unstamped, fate, sofar_now);
        RunAppends(was, acts, more);
        acts := acts + more;
        refused, unstamped := Refused(refused, fate, rows[i]), Unstamped(unstamped, fate, rows[i]);
        repaired := repaired + if fate.RepaidNow? then 1 else 0;
      }
      assert rows[..|rows|] == rows;
    }

    // ---- The metric pass -----------------------------------------------------

    method RecordProgress(d: Def, user: nat, value: int, ghost t: nat) returns (o: Outcome, reached: bool)
      requires Before(Now(), t, Scoring) && tasks[t].d == d && d.id in book.defs
      requires ToMeet(tasks[t], user) && tasks[t].left[user] == value
      modifies this
      ensures Now() == if o.FailedBefore? then old(Now()) else Apply(old(Now()), Record(t, user))
      ensures failures == old(failures) + Failed(o)
      ensures news == old(news) && book.defs == old(book.defs)
      ensures var p := AchievementRows.RecordProgress(old(book.defs), old(book.rows), Key(d.id, user), value);
        reached == p.reached && book == if o.FailedBefore? then old(book) else old(book).(rows := p.rows)
      ensures var f := Meet(old(tasks[t]), user);
        !o.FailedBefore? ==>
          tasks == if reached then old(tasks)[t := f.(stage := Completing)] else old(Finish(Now(), t, f).tasks)
    {
      o := Called();
      var p := AchievementRows.RecordProgress(book.defs, book.rows, Key(d.id, user), value);
      reached := p.reached;
      if !o.FailedBefore? {
        tasks := Apply(Now(), Record(t, user)).tasks;
        book, now := book.(rows := p.rows), now + 1;
      }
    }

    method BeginPass(d: Def, values: map<nat, int>, ghost t: nat) returns (ghost acts: seq<Action>)
      requires t !in tasks && d.id in book.defs && book.defs[d.id] == d && d.enabled
      modifies this`now, this`tasks
      ensures Now() == Run(old(Now()), acts) && KeepsRewards(old(Now()), acts)
      ensures tasks == old(tasks)[t := Flow(Scoring, d, 0, d.backfilledAt.None?, true, values)]
    {
      acts := [PassStart(t, d.id, values)];
      RunOne(Now(), PassStart(t, d.id, values));
      tasks := Apply(Now(), PassStart(t, d.id, values)).tasks;
      now := now + 1;
    }

    /** A pass that was the first stamps its definition; a stamp that fails leaves it to the next. */
    method EndPass(d: Def, ghost t: nat) returns (ghost acts: seq<Action>)
      requires Passing(tasks, d, t, map[])
      modifies this
      ensures Now() == Run(old(Now()), acts) && KeepsRewards(old(Now()), acts) && failures >= old(failures)
      ensures news == old(news) && tasks == old(tasks) - {t} && book == old(book).(defs := book.defs)
      ensures book.defs != old(book.defs) ==>
        d.backfilledAt.None? && book.defs == AchievementRows.MarkBackfilled(old(book.defs), d.id, old(now))
      ensures failures == old(failures) && d.backfilledAt.None? ==>
        book.defs == AchievementRows.MarkBackfilled(old(book.defs), d.id, old(now))
    {
      var failed := false;
      if d.backfilledAt.None? {
        var o := Called();
        failed := o.FailedBefore?;
      }
      ghost var a := if failed then Crash(t) else PassEnd(t);
      acts := [a];
      RunOne(Now(), a);
      tasks := tasks - {t};
      if d.backfilledAt.None? && !failed {
        book := book.(defs := AchievementRows.MarkBackfilled(book.defs, d.id, now));
      }
      now := now + 1;
    }

    /**
     One member's total against one definition. A completion that fails is logged and not counted;
     a write that fails says that the pass must be given up.
     */
    method ScoreMember(d: Def, user: nat, value: int, ghost t: nat, ghost left: map<nat, int>)
      returns (o: Outcome, completed: bool, ghost s: Share, ghost acts: seq<Action>)
      requires Passing(tasks, d, t, left) && d.id in book.defs && book.defs[d.id] == d
      requires Worth(left, user) && left[user] == value
      modifies this
      ensures Now() == Run(old(Now()), acts) && KeepsRewards(old(Now()), acts)
      ensures Keeps(old(tasks) - {t}, tasks) && (o.Done? ==> Passing(tasks, d, t, left - {user}))
      ensures book.defs == old(book.defs)
      ensures IsSharesOf([s], Sets, [d], user, value) && Met(old(Now()), Now(), [s]) && completed == s.counted
      ensures failures >= old(failures) && (s.clean <==> failures == old(failures)) && (!o.Done? ==> !s.clean)
    {
      hide Apply, Run, KeepsRewards, Honoured, RowServed, Tells, OneMore, Met, Passing, Worth;
      PassingTask(tasks, d, t, left, user);
      ghost var was, before := Now(), failures;
      acts, completed := [], false;
      s := Share(Sets, d, user, value, false, [], false);
      RunNone(was);
      var reached;
      o, reached := RecordProgress(d, user, value, t);
      if o.FailedBefore? {
        s := MetBy(was, Now(), s, false);
        return;
      }
      acts := [Record(t, user)];
      RunOne(was, Record(t, user));
      ghost var mid := Now();
      if o.Done? && reached {
        var err, more := CompleteAchievementSilent(d, user, d.backfilledAt.None?, t);
        RunAppends(was, acts, more);
        acts := acts + more;
        completed := !err;
      }
      GrantsOnlyGrow(was, acts);
      s := s.(counted := completed);
      if failures == before { ServedInFull(was.book.rows, mid, Now(), s, reached); }
      s := MetBy(was, Now(), s, failures == before);
      if o.Done? { PassingNext(was.tasks, tasks, d, t, left, user); }
    }

    /** One member's total against every definition of the pass. */
    method ScoreMemberAll(defs: seq<Def>, user: nat, value: int, ghost base: nat, ghost left: map<nat, int>)
      returns (ok: bool, completed: nat, ghost shares: seq<Share>, ghost acts: seq<Action>)
      requires Distinct(defs) && AllPassing(tasks, defs, base, left) && Worth(left, user) && left[user] == value
      requires forall d :: d in defs ==> d.id in book.defs && book.defs[d.id] == d
      modifies this
      ensures Now() == Run(old(Now()), acts) && KeepsRewards(old(Now()), acts) && book.defs == old(book.defs)
      ensures KeepsBelow(old(tasks), tasks, base) && (ok ==> AllPassing(tasks, defs, base, left - {user}))
      ensures Met(old(Now()), Now(), shares) && completed == Tally(shares)
      ensures failures >= old(failures) + Unclean(shares)
      ensures if ok then IsSharesOf(shares, Sets, defs, user, value) else IsCutShort(shares, defs, user, value)
    {
      hide Apply, Run, KeepsRewards, Passing, AllPassing, PassesAt, Worth, Met, IsSharesOf, IsCutShort, Keeps;
      ghost var was, before := Now(), failures;
      acts, completed, ok, shares := [], 0, true, [];
      RunNone(was);
      MetNone(was);
      assert forall j :: 0 <= j < |defs| ==> defs[j] in defs;
      PassesBegin(tasks, defs, base, left, user);
      assert defs[..0] == [];
      SharesOfNone(Sets, user, value);
      for i := 0 to |defs|
        invariant Now() == Run(was, acts) && KeepsRewards(was, acts) && book.defs == was.book.defs
        invariant KeepsBelow(was.tasks, tasks, base)
        invariant PassesAt(tasks, defs, base, left, user, i)
        invariant IsSharesOf(shares, Sets, defs[..i], user, value) && Met(was, Now(), shares)
        invariant completed == Tally(shares) && failures >= before + Unclean(shares)
      {
        ghost var sofar, threads := Now(), tasks;
        var d := defs[i];
        PassesHere(tasks, defs, base, left, user, i);
        var o, done, s, more := ScoreMember(d, user, value, base + d.id, left);
        RunAppends(was, acts, more);
        acts := acts + more;
        OthersPass(threads, tasks, defs, i, base, left, user);
        NextShare(was, sofar, Now(), shares, s, Sets, defs, i, user, value);
        shares := shares + [s];
        completed := completed + if done then 1 else 0;
        if !o.Done? {
          CutShortAt(shares, defs, i, user, value);
          return false, completed, shares, acts;
        }
      }
      PassesDone(tasks, defs, base, left, user);
      assert defs[..|defs|] == defs;
    }

    method BeginPasses(defs: seq<Def>, values: map<nat, int>, ghost base: nat) returns (ghost acts: seq<Action>)
      requires Distinct(defs) && (forall t :: t in tasks ==> t < base)
      requires forall d :: d in defs ==> d.id in book.defs && book.defs[d.id] == d && d.enabled
      modifies this`now, this`tasks
      ensures Now() == Run(old(Now()), acts) && KeepsRewards(old(Now()), acts)
      ensures KeepsBelow(old(tasks), tasks, base) && AllPassing(tasks, defs, base, values)
    {
      hide Run, KeepsRewards, Passing;
      ghost var was := Now();
      acts := [];
      RunNone(was);
      for i := 0 to |defs|
        invariant Now() == Run(was, acts) && KeepsRewards(was, acts) && KeepsBelow(was.tasks, tasks, base)
        invariant forall j :: 0 <= j < i ==> Passing(tasks, defs[j], base + defs[j].id, values)
        invariant forall j :: i <= j < |defs| ==> base + defs[j].id !in tasks
      {
        assert defs[i] in defs;
        ghost var threads, t := tasks, base + defs[i].id;
        var more := BeginPass(defs[i], values, t);
        RunAppends(was, acts, more);
        acts := acts + more;
        PassingBegun(tasks, defs[i], t, values);
        forall j | 0 <= j < i ensures Passing(tasks, defs[j], base + defs[j].id, values) {
          PassingStays(threads, tasks, defs[j], t, base + defs[j].id, values);
        }
      }
    }

    method EndPasses(defs: seq<Def>, ghost base: nat) returns (ghost acts: seq<Action>)
      requires Distinct(defs) && AllPassing(tasks, defs, base, map[])
      requires forall d :: d in defs ==> d.id in book.defs && book.defs[d.id] == d
      modifies this
      ensures Now() == Run(old(Now()), acts) && KeepsRewards(old(Now()), acts) && failures >= old(failures)
      ensures KeepsBelow(old(tasks), tasks, base) && news == old(news) && book == old(book).(defs := book.defs)
      ensures OnlyBackfilled(old(book.defs), book.defs)
      ensures failures == old(failures) ==> forall d :: d in defs ==> IsBackfilled(book.defs, d.id)
    {
      hide Run, KeepsRewards, Passing, OnlyBackfilled, AchievementRows.MarkBackfilled;
      BackfilledRefl(book.defs);
      ghost var was, before := Now(), failures;
      acts := [];
      RunNone(was);
      assert forall j :: 0 <= j < |defs| ==> defs[j] in defs;
      for i := 0 to |defs|
        invariant Now() == Run(was, acts) && KeepsRewards(was, acts) && KeepsBelow(was.tasks, tasks, base)
        invariant failures >= before && news == old(news) && book == old(book).(defs := book.defs)
        invariant forall j :: i <= j < |defs| ==> Passing(tasks, defs[j], base + defs[j].id, map[])
        invariant OnlyBackfilled(was.book.defs, book.defs)
        invariant failures == before ==> forall j :: 0 <= j < i ==> IsBackfilled(book.defs, defs[j].id)
      {
        ghost var threads := tasks;
        MarkedBackfilled(was.book.defs, book.defs, defs[i], now);
        var more := EndPass(defs[i], base + defs[i].id);
        RunAppends(was, acts, more);
        acts := acts + more;
        forall j | i < j < |defs| ensures Passing(tasks, defs[j], base + defs[j].id, map[]) {
          PassingStays(threads, tasks, defs[j], base + defs[i].id, base + defs[j].id, map[]);
        }
      }
    }

    /**
     Every member the counter names; an absent one is never treated as zero. A completion that
     fails stops nobody else; a write that fails ends the pass where it is.
     */
    method ScoreMembers(defs: seq<Def>, values: map<nat, int>, ghost base: nat)
      returns (ok: bool, completed: nat, ghost order: seq<nat>, ghost shares: seq<Share>, ghost acts: seq<Action>)
      requires Distinct(defs) && AllPassing(tasks, defs, base, values)
      requires forall d :: d in defs ==> d.id in book.defs && book.defs[d.id] == d
      modifies this
      ensures Now() == Run(old(Now()), acts) && KeepsRewards(old(Now()), acts) && book.defs == old(book.defs)
      ensures KeepsBelow(old(tasks), tasks, base) && (ok ==> AllPassing(tasks, defs, base, map[]))
      ensures Met(old(Now()), Now(), shares) && completed == Tally(shares)
      ensures failures >= old(failures) + Unclean(shares)
      ensures if ok then IsOrder(order, values, {}) && Grouped(shares, defs, order, values)
        else GivenUp(shares, defs, order, values)
    {
      hide Run, KeepsRewards, AllPassing, Met, Grouped, Worth, IsSharesOf;
      ghost var was, before := Now(), failures;
      acts, completed, ok, order, shares := [], 0, true, [], [];
      RunNone(was);
      MetNone(was);
      NobodyYet(defs, values);
      var rest := values.Keys;
      while rest != {}
        invariant ok && rest <= values.Keys && Now() == Run(was, acts) && KeepsRewards(was, acts)
        invariant KeepsBelow(was.tasks, tasks, base) && AllPassing(tasks, defs, base, Rest(values, rest))
        invariant book.defs == was.book.defs && Met(was, Now(), shares)
        invariant completed == Tally(shares) && failures >= before + Unclean(shares)
        invariant IsOrder(order, values, rest) && Grouped(shares, defs, order, values)
        decreases rest
      {
        ghost var sofar := Now();
        var user :| user in rest;
        OrderNext(order, values, rest, user);
        if user != 0 && values[user] > 0 {
          WorthStill(values, rest, user);
          var fine, done, more, tail := ScoreMemberAll(defs, user, values[user], base, Rest(values, rest));
          RunAppends(was, acts, tail);
          acts := acts + tail;
          completed := completed + done;
          GroupNext(was, sofar, Now(), shares, more, defs, order, values, user, fine);
          shares := shares + more;
          order := order + [user];
          if !fine {
            return false, completed, order, shares, acts;
          }
        } else {
          WorthlessSkipped(tasks, defs, base, values, rest, user);
        }
        RestNext(values, rest, user);
        rest := rest - {user};
      }
      assert Rest(values, {}) == map[];
    }

    /**
     One counter, read once, settles every achievement it scores. Reading it at all only
     matters when something is scored on it; a first pass is silent and is marked at its end.
     */
    method ScoreMetric(metric: Bytes, source: Option<map<nat, int>>)
      returns (ok: bool, completed: nat, ghost p: Pass, ghost acts: seq<Action>)
      requires Identified(book.defs)
      modifies this
      ensures Now() == Run(old(Now()), acts) && KeepsRewards(old(Now()), acts)
      ensures Keeps(old(tasks), tasks) && OnlyBackfilled(old(book.defs), book.defs)
      ensures if p.listed then Lists(p.heard, old(book.defs), metric, true) else p.heard == []
      ensures p.heard == [] || source.None? ==> Now() == old(Now()) && completed == 0 && p.shares == []
      ensures ok <==> p.listed && (p.heard == [] || (source.Some? && p.whole))
      ensures Met(old(Now()), Now(), p.shares) && completed == Tally(p.shares)
      ensures p.heard != [] && source.Some? ==>
        if ok then IsOrder(p.order, source.value, {}) && Grouped(p.shares, p.heard, p.order, source.value)
        else GivenUp(p.shares, p.heard, p.order, source.value)
      ensures source.None? ==> OnlyScored(old(book.rows), book.rows, old(book.defs), metric, map[])
      ensures source.Some? ==> OnlyScored(old(book.rows), book.rows, old(book.defs), metric, source.value)
      ensures forall k :: k in Targets(p.shares) ==> Countable(old(book.defs), {metric}, k)
      ensures failures == old(failures) && ok && source.Some? ==>
        && PassDone(old(Now()), Now(), old(book.defs), metric, source.value)
        && PassTold(old(Now()), Now(), old(book.defs), metric, source.value)
      ensures failures == old(failures) ==> completed == |NewlyCompleted(old(book.rows), book.rows)|
      ensures failures >= old(failures) + Unclean(p.shares) + if p.listed then 0 else 1
      ensures failures == old(failures) && ok && source.Some? ==>
        forall d :: d in p.heard ==> IsBackfilled(book.defs, d.id)
    {
      hide Run, KeepsRewards, Grouped, Met, GivenUp, IsOrder, PassDone, PassTold, OnlyScored, Countable, CounterNames,
        Lists, Worth, Unclean, Tally, Targets, NewlyCompleted, Distinct, Identified, IsBackfilled, OnlyBackfilled,
        AllPassing, KeepsBelow, Keeps;
      ghost var was := Now();
      var defs, listed := DefsWhere(metric, true);
      ghost var before := failures;
      acts, ok, completed, p := [], true, 0, Pass(listed, defs, [], [], true);
      RunNone(was);
      MetNone(was);
      BackfilledRefl(book.defs);
      NothingScored(book.rows, book.defs, metric);
      NoShares();
      NoneCompleted(book.rows);
      KeepsRefl(tasks);
      if listed && |defs| == 0 { NobodyHears(was, book.defs, metric); }
      if !listed || |defs| == 0 || source.None? {
        return listed && |defs| == 0, 0, p, acts;
      }
      ghost var base := Above(tasks.Keys);
      assert forall i :: 0 <= i < |defs| ==> defs[i] in defs;
      ListedAreKnown(defs, book.defs, metric, true);
      acts := BeginPasses(defs, source.value, base);
      ghost var order, shares, more;
      ghost var started := Now();
      ok, completed, order, shares, more := ScoreMembers(defs, source.value, base);
      RunAppends(was, acts, more);
      acts := acts + more;
      p := Pass(listed, defs, order, shares, ok);
      PassConcerns(started, Now(), p, was.book.defs, metric, source.value);
      ScoredOnly(was.book.rows, book.rows, was.book.defs, metric, source.value);
      PassReachesCountable(p, was.book.defs, metric, source.value);
      MetSince(was, started, Now(), shares);
      if Unclean(shares) == 0 { CountIsOfCompletions(was, Now(), shares); }
      AllBelow(was.tasks, started.tasks, tasks, base);
      if !ok {
        return;
      }
      ghost var scored := Now();
      more := EndPasses(defs, base);
      RunAppends(was, acts, more);
      acts := acts + more;
      MetOutlives(was, scored, Now(), shares);
      AllBelow(was.tasks, scored.tasks, tasks, base);
      if Unclean(shares) == 0 { PassInColumns(was, Now(), p, was.book.defs, metric, source.value); }
    }
  }

  // ---- What threads keep -----------------------------------------------

  /** Thread `t` is a metric pass over `d`, between two members, with the totals of `left` to come. */
  ghost predicate Passing(tasks: map<nat, Task>, d: Def, t: nat, left: map<nat, int>) {
    && t in tasks && tasks[t].Flow? && tasks[t].stage.Scoring? && tasks[t].d == d && tasks[t].pass
    && tasks[t].silent == d.backfilledAt.None?
    && (forall u :: ToMeet(tasks[t], u) <==> Worth(left, u))
    && (forall u :: Worth(left, u) ==> tasks[t].left[u] == left[u])
  }

  ghost predicate AllPassing(tasks: map<nat, Task>, defs: seq<Def>, base: nat, left: map<nat, int>) {
    forall d :: d in defs ==> Passing(tasks, d, base + d.id, left)
  }

  ghost predicate KeepsBelow(before: map<nat, Task>, after: map<nat, Task>, base: nat) {
    forall t :: t in before && t < base ==> t in after && after[t] == before[t]
  }

  lemma KeepsRefl(tasks: map<nat, Task>)
    ensures Keeps(tasks, tasks)
  {
  }

  /** Where every thread is below `base`, keeping those is keeping all. */
  lemma AllBelow(a: map<nat, Task>, b: map<nat, Task>, c: map<nat, Task>, base: nat)
    requires (forall t :: t in a ==> t < base) && KeepsBelow(a, b, base) && KeepsBelow(b, c, base)
    ensures KeepsBelow(a, c, base) && Keeps(a, c)
  {
  }

  lemma PassingBegun(tasks: map<nat, Task>, d: Def, t: nat, values: map<nat, int>)
    requires t in tasks && tasks[t] == Flow(Scoring, d, 0, d.backfilledAt.None?, true, values)
    ensures Passing(tasks, d, t, values)
  {
  }

  lemma PassingTask(tasks: map<nat, Task>, d: Def, t: nat, left: map<nat, int>, user: nat)
    requires Passing(tasks, d, t, left) && Worth(left, user)
    ensures t in tasks && tasks[t].Flow? && tasks[t].stage.Scoring? && tasks[t].d == d && tasks[t].pass
    ensures tasks[t].silent == d.backfilledAt.None? && ToMeet(tasks[t], user) && tasks[t].left[user] == left[user]
    ensures user != 0 && left[user] > 0
  {
  }

  lemma PassingNext(before: map<nat, Task>, after: map<nat, Task>, d: Def, t: nat, left: map<nat, int>, user: nat)
    requires Passing(before, d, t, left)
    requires t in after && after[t] == before[t].(user := user, left := before[t].left - {user})
    ensures Passing(after, d, t, left - {user})
  {
    forall u ensures ToMeet(after[t], u) <==> Worth(left - {user}, u) {
      assert ToMeet(before[t], u) <==> Worth(left, u);
    }
  }

  lemma PassingStays(before: map<nat, Task>, after: map<nat, Task>, d: Def, u: nat, t: nat, left: map<nat, int>)
    requires Passing(before, d, t, left) && Keeps(before - {u}, after) && t != u
    ensures Passing(after, d, t, left)
  {
  }

  /** The first `i` definitions have met the member, the others have not. */
  ghost predicate PassesAt(tasks: map<nat, Task>, defs: seq<Def>, base: nat, left: map<nat, int>, user: nat, i: nat) {
    && (forall j :: 0 <= j < i && j < |defs| ==> Passing(tasks, defs[j], base + defs[j].id, left - {user}))
    && (forall j :: i <= j < |defs| ==> Passing(tasks, defs[j], base + defs[j].id, left))
  }

  lemma PassesBegin(tasks: map<nat, Task>, defs: seq<Def>, base: nat, left: map<nat, int>, user: nat)
    requires AllPassing(tasks, defs, base, left)
    ensures PassesAt(tasks, defs, base, left, user, 0)
  {
    hide Passing;
  }

  lemma PassesHere(tasks: map<nat, Task>, defs: seq<Def>, base: nat, left: map<nat, int>, user: nat, i: nat)
    requires PassesAt(tasks, defs, base, left, user, i) && i < |defs|
    ensures Passing(tasks, defs[i], base + defs[i].id, left)
  {
    hide Passing;
  }

  lemma PassesDone(tasks: map<nat, Task>, defs: seq<Def>, base: nat, left: map<nat, int>, user: nat)
    requires PassesAt(tasks, defs, base, left, user, |defs|)
    ensures AllPassing(tasks, defs, base, left - {user})
  {
    hide Passing;
  }

  /** One definition's step leaves the passes over the others where they were. */
  lemma {:induction false} OthersPass(before: map<nat, Task>, after: map<nat, Task>, defs: seq<Def>, i: nat, base: nat,
                                      left: map<nat, int>, user: nat)
    requires i < |defs| && Distinct(defs) && Keeps(before - {base + defs[i].id}, after)
    requires PassesAt(before, defs, base, left, user, i)
    ensures KeepsBelow(before, after, base)
    ensures Passing(after, defs[i], base + defs[i].id, left - {user}) ==>
      PassesAt(after, defs, base, left, user, i + 1)
  {
    hide Passing;
    forall j | 0 <= j < i ensures Passing(after, defs[j], base + defs[j].id, left - {user}) {
      PassingStays(before, after, defs[j], base + defs[i].id, base + defs[j].id, left - {user});
    }
    forall j | i < j < |defs| ensures Passing(after, defs[j], base + defs[j].id, left) {
      PassingStays(before, after, defs[j], base + defs[i].id, base + defs[j].id, left);
    }
  }

  lemma WorthlessSkipped(tasks: map<nat, Task>, defs: seq<Def>, base: nat, values: map<nat, int>, rest: set<nat>,
                         user: nat)
    requires AllPassing(tasks, defs, base, Rest(values, rest)) && user in values && (user == 0 || values[user] <= 0)
    ensures AllPassing(tasks, defs, base, Rest(values, rest) - {user})
  {
    forall d | d in defs ensures Passing(tasks, d, base + d.id, Rest(values, rest) - {user}) {
      assert Passing(tasks, d, base + d.id, Rest(values, rest));
    }
  }

  // ---- Marks -----------------------------------------------------------------

  ghost predicate OnlyBackfilled(before: Defs, after: Defs) {
    && before.Keys == after.Keys
    && (forall id :: id in before ==> after[id] == before[id].(backfilledAt := after[id].backfilledAt))
    && (forall id :: id in before && before[id].backfilledAt.Some? ==> after[id] == before[id])
  }

  predicate IsBackfilled(defs: Defs, id: nat) { id in defs && defs[id].backfilledAt.Some? }

  lemma BackfilledRefl(defs: Defs)
    ensures OnlyBackfilled(defs, defs)
  {
  }

  lemma {:induction false} MarkedBackfilled(before: Defs, defs: Defs, d: Def, now: nat)
    requires OnlyBackfilled(before, defs) && d.id in before && before[d.id] == d
    ensures OnlyBackfilled(before, AchievementRows.MarkBackfilled(defs, d.id, now))
    ensures IsBackfilled(AchievementRows.MarkBackfilled(defs, d.id, now), d.id)
    ensures d.backfilledAt.Some? ==> IsBackfilled(defs, d.id)
    ensures forall id :: IsBackfilled(defs, id) ==> IsBackfilled(AchievementRows.MarkBackfilled(defs, d.id, now), id)
  {
  }

  /** A held row is left alone; an open one is completed, stamped and announced as paid. */
  ghost predicate Awarded(w: World, v: World, k: Key) {
    if RowOf(w.book.rows, k).completedAt.Some? then v.book == w.book && v.news == w.news
    else
      && RowOf(v.book.rows, k).completedAt.Some? && RowOf(v.book.rows, k).paidAt.Some?
      && RowOf(v.book.rows, k).progress == RowOf(w.book.rows, k).progress
      && RowOf(v.book.rows, k).times == RowOf(w.book.rows, k).times + 1
      && v.book.grants == w.book.grants && k in v.book.direct && v.news == w.news + [News(k, true)]
  }

  /** The count moves rows of one column, the triggers rows of the other. */
  lemma NamedOnly(before: Rows, mid: Rows, b: Book, name: Bytes, user: nat, countable: bool)
    requires countable ==> forall k :: !Concerns(b.defs, k, name, user, true) ==> RowOf(mid, k) == RowOf(before, k)
    requires !countable ==> mid == before
    requires forall k :: !Concerns(b.defs, k, name, user, false) ==> RowOf(b.rows, k) == RowOf(mid, k)
    ensures OnlyNamed(before, b, name, user, countable)
  {
  }

  lemma {:induction false} EventIsDone(w: World, v: World, e: Heard, defs: Defs, name: Bytes, user: nat, count: int,
                                       countable: bool)
    requires Identified(defs) && IsSharesOf(e.counted, Adds, e.heard, user, count) && Met(w, e.mid, e.counted)
    requires IsSharesOf(e.triggered, Fires, e.fired, user, 0) && Met(e.mid, v, e.triggered)
    requires Unclean(e.counted) == 0 && Unclean(e.triggered) == 0
    requires if countable then Lists(e.heard, defs, name, true) else e.heard == [] && e.mid.book == w.book
    requires Lists(e.fired, defs, name, false)
    ensures EventDone(w, v, defs, name, user, count, countable) && EventTold(w, v, defs, name, user, count, countable)
  {
    var a, b := Told(e.counted), Told(e.triggered);
    MetTells(w, e.mid, e.counted);
    MetTells(e.mid, v, e.triggered);
    if !countable { assert e.counted == [] && a == []; }
    hide Met, Lists, IsSharesOf, Told, Unclean, EventDone, EventTold, Heeded, Announced;
    if countable {
      ListedIsHeeded(w, e.mid, e.counted, Adds, e.heard, defs, name, user, count);
      ListedIsAnnounced(w, e.mid, e.counted, Adds, e.heard, defs, name, user, count);
    }
    ListedIsHeeded(e.mid, v, e.triggered, Fires, e.fired, defs, name, user, 0);
    ListedIsAnnounced(e.mid, v, e.triggered, Fires, e.fired, defs, name, user, 0);
    EventInColumns(w, e.mid, v, defs, name, user, count, countable, a, b);
  }

  lemma MetTells(w: World, v: World, shares: seq<Share>)
    requires Met(w, v, shares)
    ensures v.news == w.news + Told(shares) && w.book.grants <= v.book.grants
  {
    hide Told, ShareOk;
  }

  lemma ScoredOnly(before: Rows, after: Rows, defs: Defs, metric: Bytes, values: map<nat, int>)
    requires forall k :: !CounterNames(defs, metric, values, k) ==> RowOf(after, k) == RowOf(before, k)
    ensures OnlyScored(before, after, defs, metric, values)
  {
  }

  lemma NothingScored(rows: Rows, defs: Defs, metric: Bytes)
    ensures forall values :: OnlyScored(rows, rows, defs, metric, values)
  {
  }

  lemma NobodyHears(w: World, defs: Defs, metric: Bytes)
    requires Lists([], defs, metric, true)
    ensures forall values :: PassDone(w, w, defs, metric, values) && PassTold(w, w, defs, metric, values)
  {
    assert w.news[|w.news|..] == [];
  }

  lemma PassReachesCountable(p: Pass, defs: Defs, metric: Bytes, values: map<nat, int>)
    requires Lists(p.heard, defs, metric, true)
    requires if p.whole then IsOrder(p.order, values, {}) && Grouped(p.shares, p.heard, p.order, values)
      else GivenUp(p.shares, p.heard, p.order, values)
    ensures forall k :: k in Targets(p.shares) ==> Countable(defs, {metric}, k)
  {
    PassTargets(p, values);
    hide Lists, Grouped, GivenUp, IsOrder;
    forall k | k in Targets(p.shares) ensures Countable(defs, {metric}, k) {
      var i :| 0 <= i < |p.shares| && Target(p.shares[i]) == k;
      var j :| 0 <= j < |p.heard| && p.heard[j] == p.shares[i].d;
      ListsOne(p.heard, defs, metric, true, j);
    }
  }

  lemma RunNone(w: World)
    ensures Run(w, []) == w && KeepsRewards(w, [])
  {
  }

  lemma GrantsOnlyGrow(w: World, acts: seq<Action>)
    ensures w.book.grants <= Run(w, acts).book.grants
  {
    NothingIsTakenBack(w, acts);
    hide Run;
  }
}
