/**
 What an event and a metric pass do to the tables, read off the columns: which definitions hear of
 a name, which rows move, and what becomes of them when no call fails.
 */
module Columns {
  import opened Basics
  import opened AchievementRows
  import opened Protocol
  import opened Shares

  /** What a row of a definition is after `n` was added to it or set on it, or its trigger fired. */
  ghost predicate RowDone(was: Row, row: Row, grants: set<Grant>, d: Def, user: nat, level: int, due: bool) {
    && row.progress == level && row.times == was.times + (if was.completedAt.None? && due then 1 else 0)
    && (row.completedAt.Some? <==> was.completedAt.Some? || due)
    && (was.completedAt.Some? || !due ==> row.completedAt == was.completedAt && row.paidAt == was.paidAt)
    && (was.completedAt.None? && due ==>
        row.paidAt.Some? && (d.reward == [] || Grant(d.reward, user, d.slug) in grants))
  }

  /** An enabled definition hears a name as its metric, or as its trigger; the row of any other stays. */
  ghost predicate Heeds(was: Row, row: Row, grants: set<Grant>, d: Def, how: How, name: Bytes, user: nat, n: int) {
    match how
    case Adds =>
      var level := was.progress + n;
      if d.enabled && d.metric == name
      then RowDone(was, row, grants, d, user, level, d.threshold > 0 && level >= d.threshold) else row == was
    case Sets =>
      if d.enabled && d.metric == name
      then RowDone(was, row, grants, d, user, n, d.threshold > 0 && n >= d.threshold) else row == was
    case Fires =>
      if d.enabled && d.trigger == name then RowDone(was, row, grants, d, user, was.progress, true) else row == was
  }

  ghost predicate Heeded(w: World, v: World, defs: Defs, how: How, name: Bytes, user: nat, n: int) {
    forall id :: id in defs ==>
      Heeds(RowOf(w.book.rows, Key(id, user)), RowOf(v.book.rows, Key(id, user)), v.book.grants, defs[id], how, name,
            user, n)
  }

  lemma {:induction false} AllClean(shares: seq<Share>)
    requires Unclean(shares) == 0
    ensures forall i :: 0 <= i < |shares| ==> shares[i].clean
  {
    if shares != [] {
      var init := shares[..|shares| - 1];
      AllClean(init);
      assert forall i :: 0 <= i < |init| ==> init[i] == shares[i];
    }
  }

  lemma ServedHeeds(was: Row, b: Book, s: Share, name: Bytes)
    requires RowServed(was, b, s) && Selected(s.d, name, !s.how.Fires?)
    ensures Heeds(was, RowOf(b.rows, Target(s)), b.grants, s.d, s.how, name, s.user, s.n)
  {
  }

  lemma UnheardHeeds(was: Row, grants: set<Grant>, d: Def, how: How, name: Bytes, user: nat, n: int)
    requires !Selected(d, name, !how.Fires?)
    ensures Heeds(was, was, grants, d, how, name, user, n)
  {
  }

  lemma {:induction false} ListedIsHeeded(w: World, v: World, shares: seq<Share>, how: How, heard: seq<Def>,
                                          defs: Defs, name: Bytes, user: nat, n: int)
    requires Met(w, v, shares) && IsSharesOf(shares, how, heard, user, n) && Unclean(shares) == 0
    requires Identified(defs) && Lists(heard, defs, name, !how.Fires?)
    ensures Heeded(w, v, defs, how, name, user, n)
  {
    AllClean(shares);
    hide RowServed, Heeds, Selected, Unclean, Told, Tells, Completes;
    forall id | id in defs
      ensures Heeds(RowOf(w.book.rows, Key(id, user)), RowOf(v.book.rows, Key(id, user)), v.book.grants, defs[id], how,
                    name, user, n)
    {
      var k, d := Key(id, user), defs[id];
      if Selected(d, name, !how.Fires?) {
        var i :| 0 <= i < |heard| && heard[i] == d;
        assert shares[i].d == d && ShareOk(w.book.rows, v.book, shares[i]);
        ServedHeeds(RowOf(w.book.rows, k), v.book, shares[i], name);
      } else {
        if k in Targets(shares) {
          var i :| 0 <= i < |shares| && Target(shares[i]) == k;
          ListsOne(heard, defs, name, !how.Fires?, i);
        }
        UnheardHeeds(RowOf(w.book.rows, k), v.book.grants, d, how, name, user, n);
      }
    }
  }

  // ---- What is announced -------------------------------------------------

  lemma {:induction false} ToldHas(shares: seq<Share>, x: News)
    ensures x in Told(shares) <==> exists i :: 0 <= i < |shares| && x in shares[i].tells
  {
    if shares != [] {
      var n := |shares| - 1;
      ToldHas(shares[..n], x);
      assert forall i :: 0 <= i < n ==> shares[..n][i] == shares[i];
      if x in shares[n].tells { assert x in Told(shares); }
    }
  }

  /** A completion by number is news only of an achievement backfilled before; one by trigger always is. */
  predicate Newsworthy(was: Row, d: Def, how: How, name: Bytes, n: int) {
    was.completedAt.None? && d.enabled &&
    match how
    case Adds => d.metric == name && d.threshold > 0 && was.progress + n >= d.threshold && d.backfilledAt.Some?
    case Sets => d.metric == name && d.threshold > 0 && n >= d.threshold && d.backfilledAt.Some?
    case Fires => d.trigger == name
  }

  lemma TellsNewsworthy(was: Row, s: Share, name: Bytes)
    requires Selected(s.d, name, !s.how.Fires?)
    ensures News(Target(s), true) in Tells(was, s) <==> Newsworthy(was, s.d, s.how, name, s.n)
    ensures forall x :: x in Tells(was, s) ==> x == News(Target(s), true)
  {
  }

  lemma UnheardIsNoNews(was: Row, d: Def, how: How, name: Bytes, n: int)
    requires !Selected(d, name, !how.Fires?)
    ensures !Newsworthy(was, d, how, name, n)
  {
  }

  /** Exactly the newsworthy completions are among the announcements. */
  ghost predicate Announced(before: Rows, told: seq<News>, defs: Defs, how: How, name: Bytes, user: nat, n: int) {
    forall id :: id in defs ==>
      (News(Key(id, user), true) in told <==> Newsworthy(RowOf(before, Key(id, user)), defs[id], how, name, n))
  }

  lemma TellsOwn(was: Row, s: Share)
    ensures forall x :: x in Tells(was, s) ==> x.key == Target(s)
  {
  }

  /** Of the announcements of clean shares, those about one row are that share's. */
  lemma {:induction false} ToldOf(w: World, v: World, shares: seq<Share>, i: nat)
    requires Met(w, v, shares) && Unclean(shares) == 0 && i < |shares|
    ensures var k := Target(shares[i]);
      News(k, true) in Told(shares) <==> News(k, true) in Tells(RowOf(w.book.rows, k), shares[i])
  {
    var k := Target(shares[i]);
    AllClean(shares);
    ToldHas(shares, News(k, true));
    hide Told, Unclean, RowServed, Tells;
    assert ShareOk(w.book.rows, v.book, shares[i]);
    forall j | 0 <= j < |shares| && News(k, true) in shares[j].tells ensures j == i {
      assert ShareOk(w.book.rows, v.book, shares[j]);
    }
  }

  lemma {:induction false} ToldNotOf(w: World, v: World, shares: seq<Share>, k: Key)
    requires Met(w, v, shares) && k !in Targets(shares)
    ensures News(k, true) !in Told(shares)
  {
    ToldHas(shares, News(k, true));
    hide Told, RowServed, Tells;
    forall j | 0 <= j < |shares| ensures News(k, true) !in shares[j].tells {
      assert ShareOk(w.book.rows, v.book, shares[j]);
      TargetOf(shares, j);
    }
  }

  lemma UnheardIsNoTarget(shares: seq<Share>, how: How, heard: seq<Def>, defs: Defs, name: Bytes, user: nat, n: int,
                          id: nat)
    requires IsSharesOf(shares, how, heard, user, n) && Lists(heard, defs, name, !how.Fires?)
    requires id in defs && !Selected(defs[id], name, !how.Fires?)
    ensures Key(id, user) !in Targets(shares)
  {
    hide Selected;
  }

  lemma {:induction false} ListedIsAnnounced(w: World, v: World, shares: seq<Share>, how: How, heard: seq<Def>,
                                             defs: Defs, name: Bytes, user: nat, n: int)
    requires Met(w, v, shares) && IsSharesOf(shares, how, heard, user, n) && Unclean(shares) == 0
    requires Identified(defs) && Lists(heard, defs, name, !how.Fires?)
    ensures Announced(w.book.rows, Told(shares), defs, how, name, user, n)
  {
    hide Met, Selected, Unclean, Told, Tells, Newsworthy, Targets;
    forall id | id in defs
      ensures News(Key(id, user), true) in Told(shares) <==>
        Newsworthy(RowOf(w.book.rows, Key(id, user)), defs[id], how, name, n)
    {
      var k, d := Key(id, user), defs[id];
      if Selected(d, name, !how.Fires?) {
        var i :| 0 <= i < |heard| && heard[i] == d;
        assert shares[i].d == d;
        ToldOf(w, v, shares, i);
        TellsNewsworthy(RowOf(w.book.rows, k), shares[i], name);
      } else {
        UnheardIsNoNews(RowOf(w.book.rows, k), d, how, name, n);
        UnheardIsNoTarget(shares, how, heard, defs, name, user, n, id);
        ToldNotOf(w, v, shares, k);
      }
    }
  }

  // ---- One event ---------------------------------------------------------

  /** What is announced from place `from` on comes in the order of the thresholds. */
  ghost predicate LowestFirst(defs: Defs, news: seq<News>, from: nat) {
    && (forall i :: from <= i < |news| ==> news[i].key.achievement in defs)
    && (forall i, j :: from <= i < j < |news| ==>
        defs[news[i].key.achievement].threshold <= defs[news[j].key.achievement].threshold)
  }

  lemma {:induction false} ToldWithin(shares: seq<Share>, defs: Defs, bound: int)
    requires forall i :: 0 <= i < |shares| ==>
      && |shares[i].tells| <= 1 && (shares[i].tells != [] ==> shares[i].tells[0].key == Target(shares[i]))
      && shares[i].d.id in defs && defs[shares[i].d.id].threshold <= bound
    ensures forall x :: x in Told(shares) ==> x.key.achievement in defs && defs[x.key.achievement].threshold <= bound
  {
    if shares != [] { ToldWithin(shares[..|shares| - 1], defs, bound); }
  }

  /** Milestones of one name that are crossed at once are announced from the lowest threshold up. */
  lemma {:induction false} ToldLowestFirst(shares: seq<Share>, defs: Defs)
    requires forall i :: 0 <= i < |shares| ==>
      && |shares[i].tells| <= 1 && (shares[i].tells != [] ==> shares[i].tells[0].key == Target(shares[i]))
      && shares[i].d.id in defs
    requires forall i, j :: 0 <= i < j < |shares| ==>
      defs[shares[i].d.id].threshold <= defs[shares[j].d.id].threshold
    ensures LowestFirst(defs, Told(shares), 0)
  {
    if shares != [] {
      var init, last := shares[..|shares| - 1], shares[|shares| - 1];
      ToldLowestFirst(init, defs);
      ToldWithin(init, defs, defs[last.d.id].threshold);
      assert forall i :: 0 <= i < |Told(init)| ==> Told(init)[i] in Told(init);
    }
  }

  lemma HeardLowestFirst(w: World, v: World, shares: seq<Share>, heard: seq<Def>, defs: Defs, name: Bytes, user: nat,
                         n: int)
    requires Met(w, v, shares) && IsSharesOf(shares, Adds, heard, user, n)
    requires heard == [] || Lists(heard, defs, name, true)
    ensures LowestFirst(defs, v.news, |w.news|)
  {
    MetTellsOwn(w, v, shares);
    SharesAscend(shares, heard, defs, name, user, n);
    hide Met, Told, Lists, IsSharesOf;
    ToldLowestFirst(shares, defs);
    assert forall i :: |w.news| <= i < |v.news| ==> v.news[i] == Told(shares)[i - |w.news|];
  }

  lemma SharesAscend(shares: seq<Share>, heard: seq<Def>, defs: Defs, name: Bytes, user: nat, n: int)
    requires IsSharesOf(shares, Adds, heard, user, n) && (heard == [] || Lists(heard, defs, name, true))
    ensures forall i :: 0 <= i < |shares| ==> shares[i].d.id in defs
    ensures forall i, j :: 0 <= i < j < |shares| ==>
      defs[shares[i].d.id].threshold <= defs[shares[j].d.id].threshold
  {
    hide Selected;
    assert forall i :: 0 <= i < |shares| ==> shares[i].d in heard && defs[shares[i].d.id] == heard[i];
  }

  lemma MetTellsOwn(w: World, v: World, shares: seq<Share>)
    requires Met(w, v, shares)
    ensures v.news == w.news + Told(shares)
    ensures forall i :: 0 <= i < |shares| ==>
      |shares[i].tells| <= 1 && (shares[i].tells != [] ==> shares[i].tells[0].key == Target(shares[i]))
  {
    forall i | 0 <= i < |shares|
      ensures |shares[i].tells| <= 1 && (shares[i].tells != [] ==> shares[i].tells[0].key == Target(shares[i]))
    {
      assert ShareOk(w.book.rows, v.book, shares[i]);
    }
  }

  /** Only rows of the member and of enabled definitions that name the event in a column it reads. */
  ghost predicate OnlyNamed(before: Rows, b: Book, name: Bytes, user: nat, countable: bool) {
    forall k :: RowOf(b.rows, k) != RowOf(before, k) ==>
      && k.user == user && k.achievement in b.defs && b.defs[k.achievement].enabled
      && ((countable && b.defs[k.achievement].metric == name) || b.defs[k.achievement].trigger == name)
  }

  /** One definition's row after an event without a failing call: both columns, each for itself. */
  ghost predicate EventRow(was: Row, row: Row, grants: set<Grant>, d: Def, name: Bytes, user: nat, count: int,
                           countable: bool) {
    var counts := countable && d.enabled && d.metric == name;
    var level := was.progress + if counts then count else 0;
    RowDone(was, row, grants, d, user, level,
            (d.enabled && d.trigger == name) || (counts && d.threshold > 0 && level >= d.threshold))
  }

  /** A completion the count brings is told exactly if the definition was backfilled; any other by the trigger is. */
  predicate EventNews(was: Row, d: Def, name: Bytes, count: int, countable: bool) {
    was.completedAt.None? && d.enabled &&
    if countable && d.metric == name && d.threshold > 0 && was.progress + count >= d.threshold
    then d.backfilledAt.Some? else d.trigger == name
  }

  ghost predicate EventDone(w: World, v: World, defs: Defs, name: Bytes, user: nat, count: int, countable: bool) {
    forall id :: id in defs ==>
      EventRow(RowOf(w.book.rows, Key(id, user)), RowOf(v.book.rows, Key(id, user)), v.book.grants, defs[id], name,
               user, count, countable)
  }

  ghost predicate EventTold(w: World, v: World, defs: Defs, name: Bytes, user: nat, count: int, countable: bool) {
    |w.news| <= |v.news| && forall id :: id in defs ==>
      (News(Key(id, user), true) in v.news[|w.news|..] <==>
        EventNews(RowOf(w.book.rows, Key(id, user)), defs[id], name, count, countable))
  }

  lemma HeedsBoth(was: Row, half: Row, row: Row, grants: set<Grant>, more: set<Grant>, d: Def, name: Bytes, user: nat,
                  count: int, countable: bool)
    requires if countable then Heeds(was, half, grants, d, Adds, name, user, count) else half == was
    requires Heeds(half, row, more, d, Fires, name, user, 0) && grants <= more
    ensures EventRow(was, row, more, d, name, user, count, countable)
    ensures EventNews(was, d, name, count, countable) <==>
      (countable && Newsworthy(was, d, Adds, name, count)) || Newsworthy(half, d, Fires, name, 0)
  {
  }

  lemma {:induction false} EventInColumns(w: World, mid: World, v: World, defs: Defs, name: Bytes, user: nat,
                                          count: int, countable: bool, a: seq<News>, b: seq<News>)
    requires if countable then Heeded(w, mid, defs, Adds, name, user, count) else mid.book.rows == w.book.rows
    requires Heeded(mid, v, defs, Fires, name, user, 0) && mid.book.grants <= v.book.grants
    requires v.news == w.news + a + b && (!countable ==> a == [])
    requires countable ==> Announced(w.book.rows, a, defs, Adds, name, user, count)
    requires Announced(mid.book.rows, b, defs, Fires, name, user, 0)
    ensures EventDone(w, v, defs, name, user, count, countable)
    ensures EventTold(w, v, defs, name, user, count, countable)
  {
    assert v.news[|w.news|..] == a + b;
    hide RowDone, Heeds, Newsworthy, EventRow, EventNews;
    forall id | id in defs
      ensures EventRow(RowOf(w.book.rows, Key(id, user)), RowOf(v.book.rows, Key(id, user)), v.book.grants, defs[id],
                       name, user, count, countable)
      ensures News(Key(id, user), true) in a + b <==>
        EventNews(RowOf(w.book.rows, Key(id, user)), defs[id], name, count, countable)
    {
      var k := Key(id, user);
      HeedsBoth(RowOf(w.book.rows, k), RowOf(mid.book.rows, k), RowOf(v.book.rows, k), mid.book.grants, v.book.grants,
                defs[id], name, user, count, countable);
    }
  }

  // ---- One metric pass -----------------------------------------------------

  /** A pass that ran to its end without a failing call: each member of the reading, each definition scored on it. */
  ghost predicate PassDone(w: World, v: World, defs: Defs, metric: Bytes, values: map<nat, int>) {
    forall id, user :: id in defs && user != 0 && user in values && values[user] > 0 ==>
      Heeds(RowOf(w.book.rows, Key(id, user)), RowOf(v.book.rows, Key(id, user)), v.book.grants, defs[id], Sets, metric,
            user, values[user])
  }

  ghost predicate PassTold(w: World, v: World, defs: Defs, metric: Bytes, values: map<nat, int>) {
    |w.news| <= |v.news| && forall id, user :: id in defs && user != 0 && user in values && values[user] > 0 ==>
      (News(Key(id, user), true) in v.news[|w.news|..] <==>
        Newsworthy(RowOf(w.book.rows, Key(id, user)), defs[id], Sets, metric, values[user]))
  }

  /** Only rows of members the reading names with a positive total, and of enabled definitions of the metric. */
  ghost predicate OnlyScored(before: Rows, after: Rows, defs: Defs, metric: Bytes, values: map<nat, int>) {
    forall k :: RowOf(after, k) != RowOf(before, k) ==>
      && k.user != 0 && k.user in values && values[k.user] > 0
      && k.achievement in defs && defs[k.achievement].enabled && defs[k.achievement].metric == metric
  }

  lemma {:induction false} GroupedHas(shares: seq<Share>, heard: seq<Def>, order: seq<nat>, values: map<nat, int>,
                                      user: nat, d: Def) returns (i: nat)
    requires Grouped(shares, heard, order, values) && user in order && d in heard
    ensures i < |shares| && shares[i].how == Sets && shares[i].d == d && shares[i].user == user
    ensures shares[i].n == TotalOf(values, user)
    decreases |order|
  {
    var last, m := order[|order| - 1], |shares| - |heard|;
    if user == last {
      var j :| 0 <= j < |heard| && heard[j] == d;
      assert shares[m..][j] == shares[m + j];
      i := m + j;
    } else {
      assert order == order[..|order| - 1] + [last];
      i := GroupedHas(shares[..m], heard, order[..|order| - 1], values, user, d);
    }
  }

  lemma {:induction false} PassNotTarget(p: Pass, defs: Defs, metric: Bytes, values: map<nat, int>, id: nat, user: nat)
    requires Lists(p.heard, defs, metric, true) && Grouped(p.shares, p.heard, p.order, values)
    requires id in defs && !Selected(defs[id], metric, true)
    ensures Key(id, user) !in Targets(p.shares)
  {
    GroupedTargets(p.shares, p.heard, p.order, values);
    hide Selected, Grouped;
    forall j | 0 <= j < |p.shares| ensures Target(p.shares[j]) != Key(id, user) {
      var l :| 0 <= l < |p.heard| && p.heard[l] == p.shares[j].d;
      ListsOne(p.heard, defs, metric, true, l);
    }
  }

  /** One member and one definition of a clean pass. */
  lemma {:induction false} PassHeedsOne(w: World, v: World, p: Pass, defs: Defs, metric: Bytes, values: map<nat, int>,
                                        id: nat, user: nat)
    requires Met(w, v, p.shares) && Unclean(p.shares) == 0 && Identified(defs) && Lists(p.heard, defs, metric, true)
    requires IsOrder(p.order, values, {}) && Grouped(p.shares, p.heard, p.order, values)
    requires id in defs && Worth(values, user)
    ensures Heeds(RowOf(w.book.rows, Key(id, user)), RowOf(v.book.rows, Key(id, user)), v.book.grants, defs[id], Sets,
                  metric, user, values[user])
    ensures News(Key(id, user), true) in Told(p.shares) <==>
      Newsworthy(RowOf(w.book.rows, Key(id, user)), defs[id], Sets, metric, values[user])
  {
    hide Met, Heeds, Selected, Unclean, Told, Tells, Newsworthy, Grouped, Targets;
    var k, d := Key(id, user), defs[id];
    if Selected(d, metric, true) {
      var i := GroupedHas(p.shares, p.heard, p.order, values, user, d);
      CleanIsServed(w, v, p.shares, i);
      ServedHeeds(RowOf(w.book.rows, k), v.book, p.shares[i], metric);
      ToldOf(w, v, p.shares, i);
      TellsNewsworthy(RowOf(w.book.rows, k), p.shares[i], metric);
    } else {
      PassNotTarget(p, defs, metric, values, id, user);
      OthersUnmoved(w, v, p.shares, k);
      ToldNotOf(w, v, p.shares, k);
      UnheardHeeds(RowOf(w.book.rows, k), v.book.grants, d, Sets, metric, user, values[user]);
      UnheardIsNoNews(RowOf(w.book.rows, k), d, Sets, metric, values[user]);
    }
  }

  lemma CleanIsServed(w: World, v: World, shares: seq<Share>, i: nat)
    requires Met(w, v, shares) && Unclean(shares) == 0 && i < |shares|
    ensures RowServed(RowOf(w.book.rows, Target(shares[i])), v.book, shares[i])
  {
    AllClean(shares);
    hide RowServed, Unclean, Told, Tells, Completes;
    assert ShareOk(w.book.rows, v.book, shares[i]);
  }

  lemma OthersUnmoved(w: World, v: World, shares: seq<Share>, k: Key)
    requires Met(w, v, shares) && k !in Targets(shares)
    ensures RowOf(v.book.rows, k) == RowOf(w.book.rows, k)
  {
    hide ShareOk, Told;
  }

  lemma {:induction false} PassInColumns(w: World, v: World, p: Pass, defs: Defs, metric: Bytes, values: map<nat, int>)
    requires Met(w, v, p.shares) && Unclean(p.shares) == 0 && Identified(defs) && Lists(p.heard, defs, metric, true)
    requires IsOrder(p.order, values, {}) && Grouped(p.shares, p.heard, p.order, values)
    ensures PassDone(w, v, defs, metric, values) && PassTold(w, v, defs, metric, values)
  {
    assert v.news[|w.news|..] == Told(p.shares);
    hide Met, Heeds, Newsworthy, Grouped, IsOrder, Lists, Told, Unclean;
    forall id, user | id in defs && user != 0 && user in values && values[user] > 0
      ensures Heeds(RowOf(w.book.rows, Key(id, user)), RowOf(v.book.rows, Key(id, user)), v.book.grants, defs[id], Sets,
                    metric, user, values[user])
      ensures News(Key(id, user), true) in Told(p.shares) <==>
        Newsworthy(RowOf(w.book.rows, Key(id, user)), defs[id], Sets, metric, values[user])
    {
      PassHeedsOne(w, v, p, defs, metric, values, id, user);
    }
  }

  // ---- Which rows a progress write can reach -------------------------------

  // ---- How many were completed ---------------------------------------------

  /** The rows that were open before and are completed after. */
  ghost function NewlyCompleted(before: Rows, after: Rows): set<Key> {
    set k | k in after && after[k].completedAt.Some? && RowOf(before, k).completedAt.None?
  }

  lemma NoneCompleted(rows: Rows)
    ensures NewlyCompleted(rows, rows) == {}
  {
  }

  ghost function CountedKeys(shares: seq<Share>): set<Key> { set s | s in shares && s.counted :: Target(s) }

  lemma {:induction false} TallyCountsKeys(shares: seq<Share>)
    requires forall i, j :: 0 <= i < j < |shares| ==> Target(shares[i]) != Target(shares[j])
    ensures Tally(shares) == |CountedKeys(shares)|
  {
    if shares != [] {
      var init, s := shares[..|shares| - 1], shares[|shares| - 1];
      TallyCountsKeys(init);
      assert shares == init + [s];
      CountedOneMore(init, s);
      hide CountedKeys;
    }
  }

  lemma CountedOneMore(init: seq<Share>, s: Share)
    requires forall i :: 0 <= i < |init| ==> Target(init[i]) != Target(s)
    ensures Target(s) !in CountedKeys(init)
    ensures CountedKeys(init + [s]) == CountedKeys(init) + if s.counted then {Target(s)} else {}
  {
    hide Target;
    var all := init + [s];
    forall k ensures k in CountedKeys(all) <==> k in CountedKeys(init) || (s.counted && k == Target(s)) {
      if k in CountedKeys(init) {
        var x :| x in init && x.counted && Target(x) == k;
        assert x in all;
      }
      if s.counted { assert s in all; }
    }
  }

  /** With no failing call a pass counts exactly the rows that were open before it and are completed after it. */
  lemma {:induction false} CountIsOfCompletions(w: World, v: World, shares: seq<Share>)
    requires Met(w, v, shares) && Unclean(shares) == 0
    ensures Tally(shares) == |NewlyCompleted(w.book.rows, v.book.rows)|
  {
    var before, after := w.book.rows, v.book.rows;
    TallyCountsKeys(shares);
    AllClean(shares);
    forall k ensures k in CountedKeys(shares) <==> k in NewlyCompleted(before, after) {
      if k in Targets(shares) {
        var i :| 0 <= i < |shares| && Target(shares[i]) == k;
        assert ShareOk(before, v.book, shares[i]) && Target(shares[i]) == k;
        CountedIsCompleted(before, v.book, shares[i]);
        if k in CountedKeys(shares) {
          var s :| s in shares && s.counted && Target(s) == k;
          var j :| 0 <= j < |shares| && shares[j] == s;
          assert i == j;
        }
      } else {
        assert RowOf(after, k) == RowOf(before, k);
      }
    }
    assert CountedKeys(shares) == NewlyCompleted(before, after);
  }

  lemma CountedIsCompleted(before: Rows, b: Book, s: Share)
    requires ShareOk(before, b, s) && s.clean
    ensures s.counted <==> RowOf(before, Target(s)).completedAt.None? && RowOf(b.rows, Target(s)).completedAt.Some?
  {
  }

  /**
   Progress writes go through the enabled definitions a name selects, so they reach a row only if
   its definition is scored on one of `names`.
   */
  ghost predicate Countable(defs: Defs, names: set<Bytes>, k: Key) {
    k.achievement in defs && defs[k.achievement].enabled && defs[k.achievement].metric in names
  }

  lemma WritesReachCountable(shares: seq<Share>, how: How, heard: seq<Def>, defs: Defs, name: Bytes, user: nat, n: int)
    requires IsSharesOf(shares, how, heard, user, n) && !how.Fires? && (heard == [] || Lists(heard, defs, name, true))
    ensures forall k :: k in Targets(shares) ==> Countable(defs, {name}, k)
  {
    hide Lists;
    forall k | k in Targets(shares) ensures Countable(defs, {name}, k) {
      var i :| 0 <= i < |shares| && Target(shares[i]) == k;
      ListsOne(heard, defs, name, true, i);
    }
  }
}
