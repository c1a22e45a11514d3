/**
 What every step of the payment protocol keeps, whatever the interleaving.
 */
module PayOnce {
  import opened Basics
  import opened AchievementRows
  import opened Protocol

  // ---- The invariant -------------------------------------------------------

  predicate Open(b: Book, k: Key) { RowOf(b.rows, k).completedAt.None? }

  predicate Unpaid(b: Book, k: Key) { RowOf(b.rows, k).paidAt.None? }

  predicate Free(b: Book, k: Key) { k in b.direct || k in b.badges }

  /** Slugs name definitions one to one. */
  ghost predicate Named(defs: Defs) {
    && (forall id :: id in defs ==>
        defs[id].id == id && CriterionOk(defs[id].metric, defs[id].threshold, defs[id].trigger))
    && (forall a, b :: a in defs && b in defs && defs[a].slug == defs[b].slug ==> a == b)
  }

  ghost predicate Known(b: Book, d: Def) { d.id in b.defs && b.defs[d.id].slug == d.slug }

  predicate IsGrantOf(b: Book, k: Key, g: Grant) {
    k.achievement in b.defs && g.user == k.user && g.reference == b.defs[k.achievement].slug
  }

  function GrantFor(b: Book, k: Key, s: Bytes): Grant
    requires k.achievement in b.defs
  {
    Grant(s, k.user, b.defs[k.achievement].slug)
  }

  ghost predicate Granted(b: Book, k: Key) { exists g :: g in b.grants && IsGrantOf(b, k, g) }

  ghost predicate PaidFor(b: Book, k: Key) { Free(b, k) || Granted(b, k) }

  /** The thread that completed a row, until it has said so. */
  predicate Telling(f: Task) { f.Flow? && (f.stage.Paying? || f.stage.Stamping? || f.stage.Announcing?) }

  ghost predicate FlowOk(b: Book, f: Task)
    requires f.Flow?
  {
    && Known(b, f.d)
    && (f.stage.Scoring? ==> f.pass)
    && (f.stage.Awarding? || f.stage.Counting? ==> !f.pass)
    && (!f.stage.Scoring? ==> f.user != 0)
    && (Telling(f) ==> !Open(b, KeyOf(f)))
    && (f.stage.Paying? || f.stage.Stamping? ==> f.d.reward != [] && !Free(b, KeyOf(f)))
    && (f.stage.Stamping? ==> GrantOf(f) in b.grants)
    && (f.stage.Announcing? && f.stage.paid ==> PaidFor(b, KeyOf(f)))
  }

  ghost predicate DueOk(b: Book, e: Due) {
    && e.key.achievement in b.defs && b.defs[e.key.achievement].slug == e.slug
    && e.reward != [] && !Open(b, e.key) && !Free(b, e.key)
  }

  ghost predicate TaskOk(b: Book, f: Task) {
    if f.Flow? then FlowOk(b, f)
    else (forall e :: e in f.todo ==> DueOk(b, e)) && (f.granted ==> f.todo != [] && DueGrant(f.todo[0]) in b.grants)
  }

  ghost predicate TasksOk(w: World) { forall t :: t in w.tasks ==> TaskOk(w.book, w.tasks[t]) }

  predicate Told(w: World, k: Key) { exists i :: 0 <= i < |w.news| && w.news[i].key == k }

  /** At most one thread is on its way to announce a row, and none once it is announced. */
  ghost predicate TellersOk(w: World) {
    && (forall t :: t in w.tasks && Telling(w.tasks[t]) ==> !Told(w, KeyOf(w.tasks[t])))
    && (forall t, u :: t in w.tasks && u in w.tasks && t != u && Telling(w.tasks[t]) && Telling(w.tasks[u])
          ==> KeyOf(w.tasks[t]) != KeyOf(w.tasks[u]))
  }

  ghost predicate NewsOk(w: World) {
    && (forall i :: 0 <= i < |w.news| ==>
        !Open(w.book, w.news[i].key) && (w.news[i].paid ==> PaidFor(w.book, w.news[i].key)))
    && (forall i, j :: 0 <= i < j < |w.news| ==> w.news[i].key != w.news[j].key)
  }

  ghost predicate Names(b: Book, id: nat, g: Grant) {
    var k := Key(id, g.user);
    IsGrantOf(b, k, g) && !Open(b, k) && !Free(b, k) && g.reward != []
  }

  /** The granter is only ever asked for completed rows that do not stamp themselves. */
  ghost predicate AskedOk(b: Book) {
    b.grants <= b.asked && forall g :: g in b.asked ==> exists id :: Names(b, id, g)
  }

  ghost predicate PaidOk(b: Book) {
    && (forall k :: Free(b, k) ==> !Unpaid(b, k))
    && (forall k :: !Unpaid(b, k) ==> PaidFor(b, k))
  }

  /** A thread that may still complete `k` and would then owe it `s`. */
  predicate MayComplete(f: Task, k: Key, s: Bytes) {
    && f.Flow? && f.d.id == k.achievement && f.d.reward == s && k.user != 0
    && ((f.pass && ToMeet(f, k.user)) || ((f.stage.Counting? || f.stage.Completing?) && f.user == k.user))
  }

  /** A thread about to ask the granter, or to stamp what it answered. */
  predicate Owes(f: Task, k: Key, s: Bytes) {
    if f.Flow? then (f.stage.Paying? || f.stage.Stamping?) && KeyOf(f) == k && f.d.reward == s
    else exists e :: e in f.todo && e.key == k && e.reward == s
  }

  /** Reward `s` is granted for the completion of `k`, or a thread holds it as owed. */
  ghost predicate Promise(w: World, k: Key, s: Bytes) {
    || (k.achievement in w.book.defs && GrantFor(w.book, k, s) in w.book.grants)
    || exists t :: t in w.tasks && Owes(w.tasks[t], k, s)
  }

  ghost predicate PromisesAgree(w: World) {
    forall k, s, r :: Promise(w, k, s) && Promise(w, k, r) ==> s == r
  }

  /** A claim on an unpaid row: what has been or may yet be granted for it by what is already under way. */
  ghost predicate Claim(w: World, k: Key, s: Bytes) {
    && s != [] && k.achievement in w.book.defs && Unpaid(w.book, k)
    && if Open(w.book, k) then exists t :: t in w.tasks && MayComplete(w.tasks[t], k, s) else Promise(w, k, s)
  }

  ghost predicate Current(b: Book, k: Key, s: Bytes) {
    k.achievement in b.defs && (b.defs[k.achievement].reward == s || b.defs[k.achievement].reward == [])
  }

  ghost predicate ClaimsCurrent(w: World) { forall k, s :: Claim(w, k, s) ==> Current(w.book, k, s) }

  ghost predicate Inv(w: World) {
    && Named(w.book.defs) && RowsOk(w.book.defs, w.book.rows) && TasksOk(w) && TellersOk(w) && NewsOk(w)
    && AskedOk(w.book) && PaidOk(w.book) && PromisesAgree(w) && ClaimsCurrent(w)
  }

  // ---- Effects on the threads ------------------------------------------------

  lemma {:induction false} DropKeeps(w: World, t: nat)
    requires Inv(w)
    ensures Inv(Drop(w, t))
  {
    var v := Drop(w, t);
    assert forall k, s :: Promise(v, k, s) ==> Promise(w, k, s);
    assert forall k, s :: Claim(v, k, s) ==> Claim(w, k, s);
  }

  /** What a task must satisfy to take the place of task `t`. */
  ghost predicate Fits(w: World, t: nat, f: Task) {
    && TaskOk(w.book, f)
    && (Telling(f) ==> !Told(w, KeyOf(f)) && forall u :: u in w.tasks && u != t && Telling(w.tasks[u]) ==>
        KeyOf(w.tasks[u]) != KeyOf(f))
    && (forall k, s, r :: Owes(f, k, s) && Promise(w, k, r) ==> s == r)
    && (forall k, s, r :: Owes(f, k, s) && Owes(f, k, r) ==> s == r)
    && (forall k, s :: Owes(f, k, s) && Unpaid(w.book, k) && !Open(w.book, k) ==> Current(w.book, k, s))
    && (forall k, s :: MayComplete(f, k, s) && s != [] && Open(w.book, k) ==> Current(w.book, k, s))
  }

  lemma {:induction false} PutTellers(w: World, t: nat, f: Task)
    requires TasksOk(w) && TellersOk(w) && Fits(w, t, f)
    ensures TasksOk(Put(w, t, f)) && TellersOk(Put(w, t, f))
  {
    hide TaskOk, Owes, MayComplete, Promise, Current, Open, Unpaid;
  }

  lemma {:induction false} PutPromises(w: World, t: nat, f: Task)
    requires PromisesAgree(w) && ClaimsCurrent(w) && Fits(w, t, f)
    ensures PromisesAgree(Put(w, t, f)) && ClaimsCurrent(Put(w, t, f))
  {
    hide TaskOk, Owes, MayComplete, Current, Open, Unpaid, Telling, Told;
    var v := Put(w, t, f);
    assert forall k, s :: Promise(v, k, s) ==> Promise(w, k, s) || Owes(f, k, s);
    forall k, s, r | Promise(v, k, s) && Promise(v, k, r) ensures s == r {
    }
    assert v.book == w.book;
    forall k, s | Claim(v, k, s) ensures Current(w.book, k, s) {
      if Open(w.book, k) {
        var u :| u in v.tasks && MayComplete(v.tasks[u], k, s);
        assert u != t ==> Claim(w, k, s);
      } else {
        assert Promise(w, k, s) ==> Claim(w, k, s);
      }
    }
  }

  lemma {:induction false} PutKeeps(w: World, t: nat, f: Task)
    requires Inv(w) && Fits(w, t, f)
    ensures Inv(Put(w, t, f))
  {
    PutTellers(w, t, f);
    PutPromises(w, t, f);
    hide Fits, TasksOk, TellersOk, PromisesAgree, ClaimsCurrent;
  }

  // ---- Effects on the book -------------------------------------------------

  /** What every step does to the book: nothing named, completed, granted or settled is lost. */
  ghost predicate Grows(b: Book, c: Book) {
    && (forall id :: id in b.defs ==> id in c.defs && c.defs[id].slug == b.defs[id].slug)
    && (forall k :: !Open(b, k) ==> !Open(c, k) && (Free(c, k) ==> Free(b, k)))
    && (forall k :: Free(b, k) ==> Free(c, k))
    && b.grants <= c.grants
  }

  lemma {:induction false} TaskGrows(b: Book, c: Book, f: Task)
    requires Grows(b, c) && TaskOk(b, f)
    ensures TaskOk(c, f)
  {
    hide Open, Free;
    PaidForGrows(b, c);
    if f.Flow? {
      hide PaidFor;
    } else {
      hide PaidFor;
    }
  }

  lemma {:induction false} PaidForGrows(b: Book, c: Book)
    requires Grows(b, c)
    ensures forall k :: PaidFor(b, k) && k.achievement in b.defs ==> PaidFor(c, k)
  {
    hide Open, Free;
    forall k | PaidFor(b, k) && k.achievement in b.defs ensures PaidFor(c, k) {
      if Granted(b, k) {
        var g :| g in b.grants && IsGrantOf(b, k, g);
        assert IsGrantOf(c, k, g);
      }
    }
  }

  lemma {:induction false} NamesGrows(b: Book, c: Book, g: Grant)
    requires Grows(b, c) && exists id :: Names(b, id, g)
    ensures exists id :: Names(c, id, g)
  {
    hide Open, Free;
    var id :| Names(b, id, g);
    assert Names(c, id, g);
  }

  /** The part of the invariant that any growth of the book keeps. */
  lemma {:induction false} GrowsKeeps(w: World, c: Book)
    requires Inv(w) && Grows(w.book, c)
    ensures TasksOk(w.(book := c)) && TellersOk(w.(book := c)) && NewsOk(w.(book := c))
  {
    PaidForGrows(w.book, c);
    hide PaidFor, Free, RowsOk, AskedOk, PaidOk, PromisesAgree, ClaimsCurrent;
    NewsNamed(w);
    forall t | t in w.tasks ensures TaskOk(c, w.tasks[t]) { TaskGrows(w.book, c, w.tasks[t]); }
    hide TaskOk, Open;
    var v := w.(book := c);
    assert forall t :: t in v.tasks ==> TaskOk(v.book, v.tasks[t]);
    assert TellersOk(v);
    hide TellersOk, TasksOk;
    forall i | 0 <= i < |v.news|
      ensures !Open(v.book, v.news[i].key) && (v.news[i].paid ==> PaidFor(v.book, v.news[i].key))
    {
      assert !Open(w.book, w.news[i].key);
    }
  }

  lemma {:induction false} NewsNamed(w: World)
    requires Inv(w)
    ensures forall i :: 0 <= i < |w.news| ==> w.news[i].key.achievement in w.book.defs
  {
    forall i | 0 <= i < |w.news| ensures w.news[i].key.achievement in w.book.defs {
      assert !Open(w.book, w.news[i].key);
      assert w.news[i].key in w.book.rows;
    }
  }

  /** Only completed rows that did not stamp themselves are promised anything. */
  lemma {:induction false} PromisedIsCompleted(w: World, k: Key, s: Bytes)
    requires Inv(w) && Promise(w, k, s)
    ensures !Open(w.book, k) && !Free(w.book, k) && s != []
  {
    if t :| t in w.tasks && Owes(w.tasks[t], k, s) {
      assert TaskOk(w.book, w.tasks[t]);
    } else {
      var g := GrantFor(w.book, k, s);
      var id :| Names(w.book, id, g);
      assert id == k.achievement;
    }
  }

  lemma {:induction false} AskedGrows(b: Book, c: Book)
    requires AskedOk(b) && Grows(b, c) && c.asked == b.asked && c.grants == b.grants
    ensures AskedOk(c)
  {
    hide Open, Free, Names;
    forall g | g in c.asked ensures exists id :: Names(c, id, g) { NamesGrows(b, c, g); }
  }

  lemma {:induction false} AskedMore(b: Book, c: Book, g: Grant)
    requires AskedOk(b) && Grows(b, c) && c.asked == b.asked + {g} && c.grants <= b.grants + {g}
    requires exists id :: Names(c, id, g)
    ensures AskedOk(c)
  {
    hide Open, Free, Names;
    forall h | h in c.asked ensures exists id :: Names(c, id, h) {
      if h in b.asked { NamesGrows(b, c, h); }
    }
  }

  /** Nothing becomes paid that was not paid, and nothing stamps itself. */
  lemma {:induction false} PaidKept(b: Book, c: Book)
    requires PaidOk(b) && Grows(b, c) && RowsOk(b.defs, b.rows)
    requires forall k :: !Unpaid(c, k) ==> !Unpaid(b, k)
    requires forall k :: Free(c, k) ==> Free(b, k) && !Unpaid(c, k)
    ensures PaidOk(c)
  {
    PaidForGrows(b, c);
    forall k | !Unpaid(c, k) ensures PaidFor(c, k) {
      assert k in b.rows;
    }
  }

  /** Progress moves, completions and payments stay. */
  ghost predicate OnlyProgress(rows: Rows, after: Rows) {
    forall k ::
      RowOf(after, k).completedAt == RowOf(rows, k).completedAt && RowOf(after, k).paidAt == RowOf(rows, k).paidAt
  }

  /** The claims of a book that promises no more than before. */
  lemma {:induction false} ClaimsKept(w: World, c: Book)
    requires PromisesAgree(w) && ClaimsCurrent(w)
    requires forall k, s :: Promise(w.(book := c), k, s) ==> Promise(w, k, s)
    requires forall k, s :: Current(w.book, k, s) ==> Current(c, k, s)
    requires forall k, s :: Claim(w.(book := c), k, s) ==> Claim(w, k, s)
    ensures PromisesAgree(w.(book := c)) && ClaimsCurrent(w.(book := c))
  {
    hide Promise, Current, Claim;
  }

  /** Definitions and grants stay as they are. */
  lemma {:induction false} SamePromises(w: World, c: Book)
    requires PromisesAgree(w) && ClaimsCurrent(w) && c.defs == w.book.defs && c.grants == w.book.grants
    requires forall k :: Unpaid(c, k) ==> Unpaid(w.book, k)
    requires forall k :: Open(c, k) ==> Open(w.book, k)
    requires forall k, s :: !Open(c, k) && Open(w.book, k) ==> !Promise(w, k, s)
    ensures PromisesAgree(w.(book := c)) && ClaimsCurrent(w.(book := c))
  {
    hide PromisesAgree, ClaimsCurrent, Open, Unpaid, Owes, MayComplete;
    var v := w.(book := c);
    assert forall k, s :: Promise(v, k, s) == Promise(w, k, s);
    forall k, s | Claim(v, k, s) ensures Claim(w, k, s) {
    }
    ClaimsKept(w, c);
  }

  lemma {:induction false} ProgressKeeps(w: World, rows: Rows)
    requires Inv(w) && OnlyProgress(w.book.rows, rows) && RowsOk(w.book.defs, rows)
    ensures Inv(w.(book := w.book.(rows := rows)))
  {
    var c := w.book.(rows := rows);
    assert forall k ::
      Open(c, k) == Open(w.book, k) && Unpaid(c, k) == Unpaid(w.book, k) && Free(c, k) == Free(w.book, k);
    assert forall k :: Free(w.book, k) ==> !Unpaid(w.book, k);
    hide Open, Unpaid, Free, OnlyProgress, RowsOk, Named, AskedOk, PaidOk, TasksOk, TellersOk, NewsOk, PromisesAgree,
      ClaimsCurrent;
    GrowsKeeps(w, c);
    AskedGrows(w.book, c);
    PaidKept(w.book, c);
    SamePromises(w, c);
  }

  lemma {:induction false} LatchRow(b: Book, k: Key, paid: bool, direct: bool, now: nat)
    requires RowsOk(b.defs, b.rows) && PaidOk(b) && k.achievement in b.defs && Open(b, k) && (direct ==> paid)
    ensures var done := CompleteAchievement(b.defs, b.rows, k, paid, now);
      done.Completed? && RowsOk(b.defs, done.rows) &&
      var c := Latch(b, k, done.rows, paid, direct);
      && (forall x :: x != k ==> Open(c, x) == Open(b, x) && Unpaid(c, x) == Unpaid(b, x) && Free(c, x) == Free(b, x))
      && Unpaid(b, k) && !Open(c, k) && Unpaid(c, k) == !paid && Free(c, k) == paid && !Free(b, k)
  {
    StatementsKeepRows(b.defs, b.rows, k, 0, paid, now);
    assert k in b.rows ==> RowOk(b.rows[k]);
    assert Unpaid(b, k);
    var rows := CompleteAchievement(b.defs, b.rows, k, paid, now).rows;
    assert forall x :: x != k ==> RowOf(rows, x) == RowOf(b.rows, x);
    assert RowOf(rows, k).completedAt == Some(now) && (RowOf(rows, k).paidAt.None? <==> !paid);
  }

  /** The completion statement wins the latch on `k`. */
  lemma {:induction false} LatchKeeps(w: World, k: Key, paid: bool, direct: bool, now: nat)
    requires Inv(w) && k.achievement in w.book.defs && Open(w.book, k) && (direct ==> paid)
    ensures var c := CompleteAchievement(w.book.defs, w.book.rows, k, paid, now);
      c.Completed? && Inv(w.(book := Latch(w.book, k, c.rows, paid, direct)))
  {
    LatchRow(w.book, k, paid, direct, now);
    var c := Latch(w.book, k, CompleteAchievement(w.book.defs, w.book.rows, k, paid, now).rows, paid, direct);
    forall s ensures !Promise(w, k, s) {
      if Promise(w, k, s) { PromisedIsCompleted(w, k, s); }
    }
    hide Open, Unpaid, Free, TasksOk, TellersOk, NewsOk, RowsOk, Named, PaidOk, AskedOk, PromisesAgree, ClaimsCurrent,
      Promise, CompleteAchievement;
    GrowsKeeps(w, c);
    AskedGrows(w.book, c);
    LatchPaid(w.book, c, k);
    SamePromises(w, c);
  }

  lemma {:induction false} LatchPaid(b: Book, c: Book, k: Key)
    requires PaidOk(b) && Grows(b, c) && RowsOk(b.defs, b.rows)
    requires forall x :: x != k ==> Unpaid(c, x) == Unpaid(b, x) && Free(c, x) == Free(b, x)
    requires Free(c, k) <==> !Unpaid(c, k)
    ensures PaidOk(c)
  {
    PaidForGrows(b, c);
    forall x | !Unpaid(c, x) ensures PaidFor(c, x) {
      if x != k { assert x in b.rows; }
    }
  }

  /** A thread asks for what it holds as owed. */
  lemma {:induction false} AskKeeps(w: World, t: nat, k: Key, s: Bytes, o: Outcome)
    requires Inv(w) && t in w.tasks && Owes(w.tasks[t], k, s) && k.achievement in w.book.defs
    ensures Inv(w.(book := Ask(w.book, GrantFor(w.book, k, s), o)))
  {
    var g := GrantFor(w.book, k, s);
    var c := Ask(w.book, g, o);
    assert Promise(w, k, s);
    PromisedIsCompleted(w, k, s);
    assert forall k ::
      Open(c, k) == Open(w.book, k) && Unpaid(c, k) == Unpaid(w.book, k) && Free(c, k) == Free(w.book, k);
    assert forall k :: Free(w.book, k) ==> !Unpaid(w.book, k);
    assert forall x: Key, r :: x.achievement in c.defs && GrantFor(c, x, r) == g ==> x == k && r == s;
    assert Names(c, k.achievement, g);
    AskedMore(w.book, c, g);
    hide Open, Unpaid, Free, TasksOk, TellersOk, NewsOk, RowsOk, Named, PaidOk, PromisesAgree, ClaimsCurrent, Owes,
      AskedOk, Names;
    GrowsKeeps(w, c);
    PaidKept(w.book, c);
    AskPromises(w, c, k, s);
  }

  lemma {:induction false} AskPromises(w: World, c: Book, k: Key, s: Bytes)
    requires PromisesAgree(w) && ClaimsCurrent(w) && Promise(w, k, s) && k.achievement in w.book.defs
    requires c.defs == w.book.defs && c.rows == w.book.rows && c.grants <= w.book.grants + {GrantFor(c, k, s)}
    requires forall x: Key, r :: x.achievement in c.defs && GrantFor(c, x, r) == GrantFor(c, k, s) ==> x == k && r == s
    ensures PromisesAgree(w.(book := c)) && ClaimsCurrent(w.(book := c))
  {
    hide PromisesAgree, ClaimsCurrent, Owes, MayComplete;
    var v := w.(book := c);
    forall x: Key, r | Promise(v, x, r) ensures Promise(w, x, r) {
      if x.achievement in c.defs && GrantFor(c, x, r) in c.grants {
        assert GrantFor(c, x, r) in w.book.grants || (x == k && r == s);
      }
    }
    forall x, r | Claim(v, x, r) ensures Claim(w, x, r) {
    }
    ClaimsKept(w, c);
  }

  lemma {:induction false} StampRow(b: Book, k: Key, o: Outcome, now: nat)
    requires RowsOk(b.defs, b.rows)
    ensures var c := Stamp(b, k, o, now);
      && RowsOk(c.defs, c.rows)
      && (forall x :: Open(c, x) == Open(b, x) && (Unpaid(c, x) ==> Unpaid(b, x)) && Free(c, x) == Free(b, x))
      && (forall x :: x != k ==> Unpaid(c, x) == Unpaid(b, x))
  {
    StatementsKeepRows(b.defs, b.rows, k, 0, false, now);
  }

  /** A row whose grant exists is stamped. */
  lemma {:induction false} StampKeeps(w: World, k: Key, o: Outcome, now: nat)
    requires Inv(w) && Granted(w.book, k)
    ensures Inv(w.(book := Stamp(w.book, k, o, now)))
  {
    var c := Stamp(w.book, k, o, now);
    StampRow(w.book, k, o, now);
    hide Open, Unpaid, Free, TasksOk, TellersOk, NewsOk, RowsOk, Named, PaidOk, AskedOk, PromisesAgree, ClaimsCurrent,
      Promise, Granted, MarkPaid;
    GrowsKeeps(w, c);
    AskedGrows(w.book, c);
    StampPaid(w.book, c, k);
    SamePromises(w, c);
  }

  lemma {:induction false} StampPaid(b: Book, c: Book, k: Key)
    requires PaidOk(b) && Grows(b, c) && RowsOk(b.defs, b.rows) && Granted(b, k)
    requires forall x :: x != k ==> Unpaid(c, x) == Unpaid(b, x)
    requires forall x :: Free(c, x) == Free(b, x) && (Unpaid(c, x) ==> Unpaid(b, x))
    ensures PaidOk(c)
  {
    PaidForGrows(b, c);
    forall x | !Unpaid(c, x) ensures PaidFor(c, x) {
      if x != k { assert x in b.rows; }
    }
  }

  // ---- Effects on the definitions ------------------------------------------

  /**
   A reward may be changed when nothing under way disagrees with it: nobody has been, or may
   yet be, granted another reward for an unpaid row of this achievement. Blanking is free.
   */
  ghost predicate SafeReward(w: World, id: nat, reward: Bytes) {
    reward == [] || forall k: Key, s :: k.achievement == id && Claim(w, k, s) ==> s == reward
  }

  ghost predicate Redefines(w: World, defs: Defs) {
    && Named(defs)
    && (forall id :: id in w.book.defs ==> id in defs && defs[id].slug == w.book.defs[id].slug)
    && (forall id :: id in w.book.defs ==>
        defs[id].reward == w.book.defs[id].reward || SafeReward(w, id, defs[id].reward))
  }

  lemma {:induction false} DefinitionPromises(w: World, defs: Defs, k: Key, s: Bytes)
    requires Inv(w) && Redefines(w, defs) && Promise(w.(book := w.book.(defs := defs)), k, s)
    ensures Promise(w, k, s)
  {
    var c := w.book.(defs := defs);
    if k.achievement in defs && GrantFor(c, k, s) in w.book.grants {
      var id :| Names(w.book, id, GrantFor(c, k, s));
      assert id in defs;
    }
  }

  lemma {:induction false} DefinitionClaims(w: World, defs: Defs, k: Key, s: Bytes)
    requires Inv(w) && Redefines(w, defs) && Claim(w.(book := w.book.(defs := defs)), k, s)
    ensures Claim(w, k, s)
  {
    var v := w.(book := w.book.(defs := defs));
    if Open(w.book, k) {
      var t :| t in v.tasks && MayComplete(v.tasks[t], k, s);
      assert TaskOk(w.book, w.tasks[t]);
    } else {
      DefinitionPromises(w, defs, k, s);
      assert k in w.book.rows;
    }
  }

  lemma {:induction false} DefinitionsKeep(w: World, defs: Defs)
    requires Inv(w) && Redefines(w, defs)
    ensures Inv(w.(book := w.book.(defs := defs)))
  {
    var c := w.book.(defs := defs);
    var v := w.(book := c);
    assert RowsOk(defs, c.rows);
    assert forall k ::
      Open(c, k) == Open(w.book, k) && Unpaid(c, k) == Unpaid(w.book, k) && Free(c, k) == Free(w.book, k);
    assert forall k :: Free(w.book, k) ==> !Unpaid(w.book, k);
    hide Open, Unpaid, Free, TasksOk, TellersOk, NewsOk, PromisesAgree, RowsOk, AskedOk, PaidOk;
    GrowsKeeps(w, c);
    AskedGrows(w.book, c);
    PaidKept(w.book, c);
    hide Named;
    forall k, s | Promise(v, k, s) ensures Promise(w, k, s) { DefinitionPromises(w, defs, k, s); }
    assert PromisesAgree(v) by { PromisesFewer(w, v); }
    forall k, s | Claim(v, k, s) ensures Current(c, k, s) {
      DefinitionClaims(w, defs, k, s);
      hide Claim;
      assert Current(w.book, k, s);
    }
  }

  lemma {:induction false} PromisesFewer(w: World, v: World)
    requires PromisesAgree(w) && forall k, s :: Promise(v, k, s) ==> Promise(w, k, s)
    ensures PromisesAgree(v)
  {
    hide Promise;
  }

  /** A row is announced once no thread is left that would. */
  lemma {:induction false} AnnounceKeeps(w: World, k: Key, paid: bool)
    requires Inv(w) && !Open(w.book, k) && !Told(w, k) && (paid ==> PaidFor(w.book, k))
    requires forall t :: t in w.tasks && Telling(w.tasks[t]) ==> KeyOf(w.tasks[t]) != k
    ensures Inv(w.(news := w.news + [News(k, paid)]))
  {
    var v := w.(news := w.news + [News(k, paid)]);
    hide PaidFor, Open, Unpaid, Free, Telling, TaskOk, RowsOk, Named, AskedOk, PaidOk, Owes, MayComplete;
    assert forall x :: Told(v, x) ==> Told(w, x) || x == k;
    assert forall x, s :: Promise(v, x, s) == Promise(w, x, s);
    assert forall x, s :: Claim(v, x, s) ==> Claim(w, x, s);
  }
}
