/**
 When an edit of a reward can make a member be paid twice for one achievement: exactly when
 something under way disagrees with the new reward.
 */
module RewardEdit {
  import opened Basics
  import opened AchievementRows
  import opened Protocol
  import opened PayOnce
  import opened PaySteps
  import opened PayRuns

  /** Thread `t` holds reward `s` of an achievement that `k` has not completed. */
  ghost predicate Ripe(w: World, t: nat, k: Key, s: Bytes) {
    && k.achievement in w.book.defs && k.user != 0 && s != [] && Open(w.book, k) && Unpaid(w.book, k)
    && w.book.defs[k.achievement].id == k.achievement
    && t in w.tasks && w.tasks[t].Flow?
    && w.tasks[t].d.id == k.achievement && w.tasks[t].d.reward == s
    && w.tasks[t].d.slug == w.book.defs[k.achievement].slug
  }

  ghost predicate SameReward(w: World, v: World, id: nat) {
    id in w.book.defs && id in v.book.defs && v.book.defs[id].reward == w.book.defs[id].reward
  }

  /** How many failing calls bring a pass back to scoring, at most. */
  function CallsLeft(stage: Stage): nat {
    if stage.Scoring? then 0 else if stage.Paying? || stage.Stamping? then 2 else 1
  }

  /** A pass whose calls fail comes back to score the next member. */
  lemma {:induction false} BackToScoring(w: World, t: nat, k: Key, s: Bytes) returns (acts: seq<Action>)
    requires Ripe(w, t, k, s) && w.tasks[t].pass && !w.tasks[t].stage.Counting? && ToMeet(w.tasks[t], k.user)
    ensures KeepsRewards(w, acts)
    ensures Ripe(Run(w, acts), t, k, s) && Before(Run(w, acts), t, Scoring)
    ensures ToMeet(Run(w, acts).tasks[t], k.user)
    ensures SameReward(w, Run(w, acts), k.achievement)
    decreases CallsLeft(w.tasks[t].stage)
  {
    if w.tasks[t].stage.Scoring? {
      acts := [];
    } else {
      var a := Step(t, FailedBefore);
      RunOne(w, a);
      var rest := BackToScoring(Apply(w, a), t, k, s);
      RunAppends(w, [a], rest);
      acts := [a] + rest;
    }
  }

  const ANY: Bytes := [0]

  /** One more write crosses the threshold, whatever it is set to. */
  lemma {:induction false} CrossThreshold(w: World, t: nat, k: Key, s: Bytes) returns (acts: seq<Action>)
    requires Ripe(w, t, k, s)
    requires (Before(w, t, Scoring) && ToMeet(w.tasks[t], k.user)) ||
      (Before(w, t, Counting) && w.tasks[t].user == k.user)
    ensures KeepsRewards(w, acts)
    ensures Ripe(Run(w, acts), t, k, s) && Before(Run(w, acts), t, Completing) && Run(w, acts).tasks[t].user == k.user
    ensures SameReward(w, Run(w, acts), k.achievement)
  {
    var d := w.book.defs[k.achievement];
    var lower := Edit(k.achievement, d.reward, ANY, 1, d.trigger);
    var v := Apply(w, lower);
    RunOne(w, lower);
    assert v.book.defs[k.achievement] == d.(metric := ANY, threshold := 1);
    var progress := RowOf(w.book.rows, k).progress;
    var write :=
        if w.tasks[t].stage.Scoring? then Record(t, k.user) else Count(t, if progress > 0 then 1 else 1 - progress);
    RunOne(v, write);
    RunAppends(w, [lower], [write]);
    acts := [lower] + [write];
  }

  lemma {:induction false} WinLatch(w: World, t: nat, k: Key, s: Bytes) returns (acts: seq<Action>)
    requires Ripe(w, t, k, s) && Before(w, t, Completing) && w.tasks[t].user == k.user
    ensures KeepsRewards(w, acts)
    ensures var v := Run(w, acts);
      && SameReward(w, v, k.achievement) && !Open(v.book, k) && Unpaid(v.book, k)
      && Before(v, t, Paying) && GrantOf(v.tasks[t]) == GrantFor(v.book, k, s)
  {
    acts := [Step(t, Done)];
    RunOne(w, Step(t, Done));
  }

  lemma {:induction false} CompleteIt(w: World, t: nat, k: Key, s: Bytes) returns (acts: seq<Action>)
    requires Ripe(w, t, k, s) && MayComplete(w.tasks[t], k, s) && (w.tasks[t].stage.Counting? ==> !w.tasks[t].pass)
    ensures KeepsRewards(w, acts)
    ensures var v := Run(w, acts);
      && SameReward(w, v, k.achievement) && !Open(v.book, k) && Unpaid(v.book, k)
      && Before(v, t, Paying) && GrantOf(v.tasks[t]) == GrantFor(v.book, k, s)
  {
    var first: seq<Action> := [];
    if w.tasks[t].pass && ToMeet(w.tasks[t], k.user) { first := BackToScoring(w, t, k, s); }
    var v := Run(w, first);
    var cross: seq<Action> := [];
    hide Ripe, Run, KeepsRewards;
    if !Before(v, t, Completing) {
      cross := CrossThreshold(v, t, k, s);
    } else {
      assert Run(v, []) == v && KeepsRewards(v, []);
    }
    RunAppends(w, first, cross);
    var last := WinLatch(Run(v, cross), t, k, s);
    RunAppends(w, first + cross, last);
    acts := first + cross + last;
  }

  // ---- The sweep pays at the new reward --------------------------------

  lemma {:induction false} Listed(s: set<Key>) returns (ks: seq<Key>)
    ensures forall k :: k in ks <==> k in s
    ensures forall i, j :: 0 <= i < j < |ks| ==> ks[i] != ks[j]
    decreases |s|
  {
    if s == {} {
      ks := [];
    } else {
      var k :| k in s;
      var rest := Listed(s - {k});
      ks := [k] + rest;
    }
  }

  lemma {:induction false} BatchWith(b: Book, k: Key) returns (batch: seq<Key>)
    requires Owed(b.defs, b.rows, k)
    ensures IsBatch(b, batch) && batch != [] && batch[0] == k
  {
    var others := Listed(UnpaidKeys(b.defs, b.rows) - {k});
    hide Owed;
    var rest := if |others| < REPAY_BATCH then others else others[..REPAY_BATCH - 1];
    batch := [k] + rest;
    forall i | 0 <= i < |batch| ensures Owed(b.defs, b.rows, batch[i]) {
      if i > 0 { assert batch[i] in others; }
    }
    forall i, j | 0 <= i < j < |batch| ensures batch[i] != batch[j] {
      assert batch[j] in others;
    }
    if |batch| != REPAY_BATCH {
      forall x | x in b.rows && Owed(b.defs, b.rows, x) ensures x in batch {
        assert x == k || x in others;
      }
    }
  }

  /** A sweep begun now grants an owed row its current reward; every other thread stays where it was. */
  lemma {:induction false} SweepPays(w: World, k: Key) returns (acts: seq<Action>)
    requires Owed(w.book.defs, w.book.rows, k)
    ensures KeepsRewards(w, acts)
    ensures var v := Run(w, acts);
      && v.book.defs == w.book.defs && GrantFor(w.book, k, w.book.defs[k.achievement].reward) in v.book.grants
      && w.book.grants <= v.book.grants && forall t :: t in w.tasks ==> t in v.tasks && v.tasks[t] == w.tasks[t]
  {
    var t := Above(w.tasks.Keys);
    var batch := BatchWith(w.book, k);
    var start := SweepStart(t, batch);
    var pay := Step(t, Done);
    assert t !in w.tasks;
    RunOne(w, start);
    var v := Apply(w, start);
    assert v.tasks[t] == Sweep(Dues(w.book.defs, batch), false);
    assert v.tasks[t].todo[0] == DueOf(w.book.defs, k);
    RunOne(v, pay);
    RunAppends(w, [start], [pay]);
    hide IsBatch, Owed;
    acts := [start] + [pay];
  }

  // ---- A thread pays what it holds as owed -----------------------------

  ghost predicate Payable(w: World, t: nat, k: Key, s: Bytes) {
    && k.achievement in w.book.defs && t in w.tasks
    && match w.tasks[t]
       case Flow(stage, _, _, _, _, _) =>
         (stage.Paying? && GrantOf(w.tasks[t]) == GrantFor(w.book, k, s)) || GrantFor(w.book, k, s) in w.book.grants
       case Sweep(todo, granted) =>
         && (granted ==> todo != [] && DueGrant(todo[0]) in w.book.grants)
         && exists e :: e in todo && DueGrant(e) == GrantFor(w.book, k, s)
  }

  lemma {:induction false} OwedIsPayable(w: World, t: nat, k: Key, s: Bytes)
    requires t in w.tasks && TaskOk(w.book, w.tasks[t]) && Owes(w.tasks[t], k, s) && k.achievement in w.book.defs
    ensures Payable(w, t, k, s)
  {
    var f := w.tasks[t];
    if f.Sweep? {
      var e :| e in f.todo && e.key == k && e.reward == s;
      assert DueOk(w.book, e);
      assert DueGrant(e) == GrantFor(w.book, k, s);
    }
  }

  lemma {:induction false} PromisePays(w: World, t: nat, k: Key, s: Bytes) returns (acts: seq<Action>)
    requires Payable(w, t, k, s)
    ensures KeepsRewards(w, acts)
    ensures Run(w, acts).book.defs == w.book.defs && GrantFor(w.book, k, s) in Run(w, acts).book.grants
    decreases if t in w.tasks && w.tasks[t].Sweep? then |w.tasks[t].todo| else 0
  {
    var f := w.tasks[t];
    if GrantFor(w.book, k, s) in w.book.grants {
      acts := [];
    } else if f.Flow? || (!f.granted && DueGrant(f.todo[0]) == GrantFor(w.book, k, s)) {
      acts := [Step(t, Done)];
      RunOne(w, Step(t, Done));
    } else {
      var skip := Step(t, FailedBefore);
      RunOne(w, skip);
      var v := Apply(w, skip);
      var e :| e in f.todo && DueGrant(e) == GrantFor(w.book, k, s);
      assert e != f.todo[0];
      assert e in f.todo[1..];
      var rest := PromisePays(v, t, k, s);
      RunAppends(w, [skip], rest);
      acts := [skip] + rest;
    }
  }

  // ---- Exactly the safe edits ------------------------------------------

  lemma {:induction false} DisagreementPaysTwice(v: World, k: Key, t: nat, s: Bytes) returns (acts: seq<Action>)
    requires Owed(v.book.defs, v.book.rows, k) && s != v.book.defs[k.achievement].reward
    requires GrantFor(v.book, k, s) in v.book.grants || Payable(v, t, k, s)
    ensures KeepsRewards(v, acts) && !GrantedOnce(Run(v, acts))
  {
    var r := v.book.defs[k.achievement].reward;
    var sweep := SweepPays(v, k);
    var u := Run(v, sweep);
    var pay: seq<Action> := [];
    assert KeepsRewards(u, []) && Run(u, []) == u;
    if GrantFor(v.book, k, s) !in v.book.grants {
      assert Payable(u, t, k, s);
      pay := PromisePays(u, t, k, s);
    }
    NothingIsTakenBack(u, pay);
    RunAppends(v, sweep, pay);
    acts := sweep + pay;
    hide Run, KeepsRewards, Payable, Owed;
    var g, h := GrantFor(v.book, k, r), GrantFor(v.book, k, s);
    assert g in Run(v, acts).book.grants && h in Run(v, acts).book.grants && g != h;
  }

  /** A reachable world and an edit an administrator makes there. */
  ghost predicate Editable(w: World, e: Action) {
    e.Edit? && e.id in w.book.defs && CriterionOk(e.metric, e.threshold, e.trigger)
  }

  lemma {:induction false} EditKeepsTasks(w: World, e: Action)
    requires Inv(w) && Editable(w, e)
    ensures TasksOk(Apply(w, e))
  {
    var c := Apply(w, e).book;
    GrowsKeeps(w, c);
    var v := w.(book := c);
    hide TaskOk;
    assert forall t :: t in v.tasks ==> TaskOk(c, v.tasks[t]);
  }

  lemma {:induction false} UnsafeEditPaysTwice(w: World, e: Action) returns (acts: seq<Action>)
    requires Inv(w) && Editable(w, e) && !SafeReward(w, e.id, e.reward)
    ensures KeepsRewards(Apply(w, e), acts) && !GrantedOnce(Run(Apply(w, e), acts))
  {
    var v := Apply(w, e);
    EditKeepsTasks(w, e);
    var k: Key, s :| k.achievement == e.id && Claim(w, k, s) && s != e.reward;
    assert Named(w.book.defs);
    hide Inv;
    var first: seq<Action> := [];
    var t: nat := 0;
    if Open(w.book, k) {
      t :| t in w.tasks && MayComplete(w.tasks[t], k, s);
      assert TaskOk(v.book, v.tasks[t]);
      first := CompleteIt(v, t, k, s);
    } else if GrantFor(w.book, k, s) !in w.book.grants {
      t :| t in w.tasks && Owes(w.tasks[t], k, s);
      assert TaskOk(v.book, v.tasks[t]);
      OwedIsPayable(v, t, k, s);
    }
    var u := Run(v, first);
    assert Owed(u.book.defs, u.book.rows, k) && u.book.defs[k.achievement].reward == e.reward;
    hide Apply;
    var rest := DisagreementPaysTwice(u, k, t, s);
    RunAppends(v, first, rest);
    acts := first + rest;
  }

  /**
   In any state that safe edits lead to: an edit is safe exactly if no continuation, with
   rewards left alone from there on, pays a member twice under one achievement.
   */
  lemma {:induction false} EditIsSafeExactlyWhen(before: seq<Action>, e: Action)
    requires SafeRun(EMPTY, before) && Editable(Run(EMPTY, before), e)
    ensures var w := Run(EMPTY, before);
      SafeReward(w, e.id, e.reward) <==>
      forall acts :: KeepsRewards(Apply(w, e), acts) ==> GrantedOnce(Run(Apply(w, e), acts))
  {
    EmptyInv();
    RunKeeps(EMPTY, before);
    var w := Run(EMPTY, before);
    hide Run, SafeRun, KeepsRewards, Inv, Apply, SafeReward;
    var v := Apply(w, e);
    if SafeReward(w, e.id, e.reward) {
      ActKeeps(w, e);
      forall acts | KeepsRewards(v, acts) ensures GrantedOnce(Run(v, acts)) {
        KeptIsSafe(v, acts);
        RunKeeps(v, acts);
        InvGrantsOnce(Run(v, acts));
      }
    } else {
      var acts := UnsafeEditPaysTwice(w, e);
    }
  }

  // ---- A concrete double payment ---------------------------------------

  const MEMBER := Key(1, 7)
  const DRAFT := Def(1, [1], [2], [], 0, [3], false, None)
  const DEF := DRAFT.(enabled := true)
  const PAYING := Flow(Completing, DEF, 7, false, false, map[])
  const DONE: Rows := map[MEMBER := Row(0, 1, Some(3), None)]
  const PAID := {Grant([2], 7, [1])}

  const CREATED := World(Book(map[1 := DRAFT], map[], {}, {}, {}, {}), map[], [], 1)
  const ENABLED := World(Book(map[1 := DEF], map[], {}, {}, {}, {}), map[], [], 2)
  const HEARD := World(Book(map[1 := DEF], map[], {}, {}, {}, {}), map[0 := PAYING], [], 3)
  const LATCHED := World(Book(map[1 := DEF], DONE, {}, {}, {}, {}), map[0 := PAYING.(stage := Paying)], [], 4)
  const GRANTED := World(Book(map[1 := DEF], DONE, PAID, PAID, {}, {}), map[0 := PAYING.(stage := Stamping)], [], 5)
  const DIED := World(Book(map[1 := DEF], DONE, PAID, PAID, {}, {}), map[], [], 6)

  /** A trigger completes an achievement, its reward is granted, and the thread dies before the stamp. */
  const KILLED: seq<Action> :=
      [Create(1, [1], [2], [], 0, [3]), Enable(1, true), HearTrigger(0, 1, 7), Step(0, Done), Step(0, Done), Crash(0)]

  lemma Drafted()
    ensures Apply(EMPTY, KILLED[0]) == CREATED && Apply(CREATED, KILLED[1]) == ENABLED
  {
  }

  lemma Started()
    ensures Apply(ENABLED, KILLED[2]) == HEARD && Apply(HEARD, KILLED[3]) == LATCHED
  {
  }

  lemma Stopped()
    ensures Apply(LATCHED, KILLED[4]) == GRANTED && Apply(GRANTED, KILLED[5]) == DIED
  {
  }

  lemma {:induction false} KilledBeforeStamp()
    ensures Run(EMPTY, KILLED) == DIED
  {
    Drafted();
    Started();
    Stopped();
    hide Apply, EMPTY, CREATED, ENABLED, HEARD, LATCHED, GRANTED, DIED;
    calc {
      Run(EMPTY, KILLED);
      Run(CREATED, KILLED[1..]);
      { assert KILLED[1..][0] == KILLED[1] && KILLED[1..][1..] == KILLED[2..]; }
      Run(ENABLED, KILLED[2..]);
      { assert KILLED[2..][0] == KILLED[2] && KILLED[2..][1..] == KILLED[3..]; }
      Run(HEARD, KILLED[3..]);
      { assert KILLED[3..][0] == KILLED[3] && KILLED[3..][1..] == KILLED[4..]; }
      Run(LATCHED, KILLED[4..]);
      { assert KILLED[4..][0] == KILLED[4] && KILLED[4..][1..] == KILLED[5..]; }
      Run(GRANTED, KILLED[5..]);
      { assert KILLED[5..][0] == KILLED[5] && KILLED[5..][1..] == []; }
      DIED;
    }
  }

  const CHANGED := World(Book(map[1 := DEF.(reward := [4])], DONE, PAID, PAID, {}, {}), map[], [], 7)

  lemma Edited()
    ensures Apply(DIED, Edit(1, [4], [], 0, [3])) == CHANGED
  {
  }

  /** An edit in that window, and the next sweep pays the new reward on top of the old one. */
  lemma {:induction false} EditedBeforeStampPaysTwice() returns (acts: seq<Action>)
    ensures Run(EMPTY, KILLED) == DIED
    ensures KeepsRewards(Apply(DIED, Edit(1, [4], [], 0, [3])), acts)
    ensures !GrantedOnce(Run(Apply(DIED, Edit(1, [4], [], 0, [3])), acts))
  {
    KilledBeforeStamp();
    Edited();
    assert Owed(CHANGED.book.defs, CHANGED.book.rows, MEMBER);
    assert GrantFor(CHANGED.book, MEMBER, [2]) in CHANGED.book.grants;
    hide Run, KeepsRewards, GrantedOnce, Apply;
    acts := DisagreementPaysTwice(CHANGED, MEMBER, 0, [2]);
  }
}
