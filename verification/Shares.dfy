/**
 What the event handlers and the metric pass owe one member for one definition, and how a run of
 such shares adds up: what was written, paid, announced and counted, failing calls included.
 */
module Shares {
  import opened Basics
  import opened AchievementRows
  import opened Protocol

  /** Only the row of `k` may have moved. */
  ghost predicate OnlyRow(before: Rows, after: Rows, k: Key) {
    forall x :: x != k ==> RowOf(after, x) == RowOf(before, x)
  }

  // ---- One definition and one member -----------------------------------

  /** How a definition hears of a member: a count to add, a total to set, or its trigger. */
  datatype How = Adds | Sets | Fires

  /**
   What became of one definition and one member: whether every call made for them answered, what
   was announced, and whether the completion was counted.
   */
  datatype Share = Share(how: How, d: Def, user: nat, n: int, clean: bool, tells: seq<News>, counted: bool)

  function Target(s: Share): Key { Key(s.d.id, s.user) }

  /** An event adds to the number, a metric pass sets it. */
  function LevelOf(row: Row, s: Share): int {
    match s.how
    case Adds => row.progress + s.n
    case Sets => s.n
    case Fires => row.progress
  }

  predicate Completes(row: Row, s: Share) {
    row.completedAt.None? && (s.how.Fires? || (s.d.threshold > 0 && LevelOf(row, s) >= s.d.threshold))
  }

  /** The row is completed and stamped, and the reward there is has been granted. */
  ghost predicate Settled(b: Book, d: Def, user: nat) {
    var row := RowOf(b.rows, Key(d.id, user));
    row.completedAt.Some? && row.paidAt.Some? && (d.reward != [] ==> Grant(d.reward, user, d.slug) in b.grants)
  }

  /**
   The number moves; an open row is completed and paid exactly if that reaches the threshold, or
   the trigger fired; a held one stays held.
   */
  ghost predicate RowServed(was: Row, b: Book, s: Share) {
    var row := RowOf(b.rows, Target(s));
    && row.progress == LevelOf(was, s)
    && (if Completes(was, s) then Settled(b, s.d, s.user) && row.times == was.times + 1
        else row == was.(progress := row.progress))
  }

  /** A trigger is always news; a completion by number only if the definition was backfilled before. */
  predicate IsNews(s: Share) { s.how.Fires? || s.d.backfilledAt.Some? }

  function Tells(was: Row, s: Share): seq<News> {
    if Completes(was, s) && IsNews(s) then [News(Target(s), true)] else []
  }

  /** A share whose calls all answered is served in full; any other announces its own row or nothing. */
  ghost predicate ShareOk(before: Rows, b: Book, s: Share) {
    var was := RowOf(before, Target(s));
    && |s.tells| <= 1 && (s.tells != [] ==> s.tells[0].key == Target(s) && IsNews(s))
    && (s.how.Fires? ==> RowOf(b.rows, Target(s)).progress == was.progress)
    && (s.how.Sets? && s.counted ==> RowOf(b.rows, Target(s)).completedAt.Some?)
    && (s.clean ==> RowServed(was, b, s) && s.tells == Tells(was, s) && s.counted == Completes(was, s))
  }

  function Told(shares: seq<Share>): seq<News> {
    if shares == [] then [] else Told(shares[..|shares| - 1]) + shares[|shares| - 1].tells
  }

  function Tally(shares: seq<Share>): nat {
    if shares == [] then 0 else Tally(shares[..|shares| - 1]) + if shares[|shares| - 1].counted then 1 else 0
  }

  function Unclean(shares: seq<Share>): nat {
    if shares == [] then 0 else Unclean(shares[..|shares| - 1]) + if shares[|shares| - 1].clean then 0 else 1
  }

  function Targets(shares: seq<Share>): set<Key> { set s | s in shares :: Target(s) }

  /** From `w` to `v` these shares were dealt with, in this order and each once, and nothing else moved. */
  ghost predicate Met(w: World, v: World, shares: seq<Share>) {
    && w.book.grants <= v.book.grants && v.news == w.news + Told(shares)
    && (forall i, j :: 0 <= i < j < |shares| ==> Target(shares[i]) != Target(shares[j]))
    && (forall k :: k !in Targets(shares) ==> RowOf(v.book.rows, k) == RowOf(w.book.rows, k))
    && (forall i :: 0 <= i < |shares| ==> ShareOk(w.book.rows, v.book, shares[i]))
  }

  /** One share for every definition, in order, all for one member. */
  ghost predicate IsSharesOf(shares: seq<Share>, how: How, defs: seq<Def>, user: nat, n: int) {
    |shares| == |defs| && forall i :: 0 <= i < |shares| ==>
      shares[i].how == how && shares[i].d == defs[i] && shares[i].user == user && shares[i].n == n
  }

  // ---- What a name selects -----------------------------------------------

  predicate Worth(values: map<nat, int>, user: nat) { user != 0 && user in values && values[user] > 0 }

  ghost predicate Distinct(defs: seq<Def>) { forall i, j :: 0 <= i < j < |defs| ==> defs[i].id != defs[j].id }

  predicate Ascending(defs: seq<Def>) { forall i, j :: 0 <= i < j < |defs| ==> defs[i].threshold <= defs[j].threshold }

  ghost predicate Identified(defs: Defs) { forall id :: id in defs ==> defs[id].id == id }

  predicate Selected(d: Def, name: Bytes, metric: bool) {
    d.enabled && (if metric then d.metric else d.trigger) == name
  }

  /** Every definition a name selects, each once; those of a metric by threshold. */
  ghost predicate Lists(heard: seq<Def>, defs: Defs, name: Bytes, metric: bool) {
    && Distinct(heard) && (metric ==> Ascending(heard))
    && (forall d :: d in heard ==> d.id in defs && defs[d.id] == d && Selected(d, name, metric))
    && (forall id :: id in defs && Selected(defs[id], name, metric) ==> defs[id] in heard)
  }

  /** The same with the definitions of `rest`, all of no lower threshold, to come. */
  ghost predicate ListsBut(heard: seq<Def>, defs: Defs, rest: set<nat>, name: Bytes, metric: bool) {
    && Distinct(heard) && Ascending(heard)
    && (forall d :: d in heard ==> d.id in defs && d.id !in rest && defs[d.id] == d && Selected(d, name, metric))
    && (forall id :: id in defs && id !in rest && Selected(defs[id], name, metric) ==> defs[id] in heard)
    && (forall d, id :: d in heard && id in rest && id in defs ==> d.threshold <= defs[id].threshold)
  }

  lemma ListsNone(defs: Defs, name: Bytes, metric: bool)
    ensures ListsBut([], defs, defs.Keys, name, metric)
  {
  }

  lemma ListsAll(heard: seq<Def>, defs: Defs, name: Bytes, metric: bool)
    requires ListsBut(heard, defs, {}, name, metric)
    ensures Lists(heard, defs, name, metric)
  {
  }

  lemma ListsNext(heard: seq<Def>, defs: Defs, rest: set<nat>, name: Bytes, metric: bool, id: nat)
    requires Identified(defs) && ListsBut(heard, defs, rest, name, metric) && id in rest && rest <= defs.Keys
    requires forall x :: x in rest ==> defs[id].threshold <= defs[x].threshold
    ensures ListsBut(if Selected(defs[id], name, metric) then heard + [defs[id]] else heard, defs, rest - {id}, name,
                     metric)
  {
    hide Selected;
    assert forall j :: 0 <= j < |heard| ==> heard[j] in heard;
  }

  lemma {:induction false} Lowest(defs: Defs, ids: set<nat>)
    requires ids != {} && ids <= defs.Keys
    ensures exists id :: id in ids && forall x :: x in ids ==> defs[id].threshold <= defs[x].threshold
    decreases |ids|
  {
    var id :| id in ids;
    if ids != {id} {
      var rest := ids - {id};
      Lowest(defs, rest);
      var low :| low in rest && forall x :: x in rest ==> defs[low].threshold <= defs[x].threshold;
      var best := if defs[low].threshold < defs[id].threshold then low else id;
      assert forall x :: x in ids ==> x == id || x in rest;
      assert best in ids && forall x :: x in ids ==> defs[best].threshold <= defs[x].threshold;
    }
  }

  /** An event named `name` by `user` is about the row `k`. */
  ghost predicate Concerns(defs: Defs, k: Key, name: Bytes, user: nat, metric: bool) {
    k.user == user && k.achievement in defs && Selected(defs[k.achievement], name, metric)
  }

  // ---- Shares ----------------------------------------------------------------

  /** What an event did: the definitions it counts towards and those it triggers, and the world in between. */
  datatype Heard = Heard(heard: seq<Def>, counted: seq<Share>, mid: World, fired: seq<Def>, triggered: seq<Share>)

  /** What a metric pass did: the definitions it scores, and the members met, whole or up to a failing write. */
  datatype Pass = Pass(listed: bool, heard: seq<Def>, order: seq<nat>, shares: seq<Share>, whole: bool)

  ghost predicate OneMore(before: seq<News>, after: seq<News>, k: Key) {
    |after| == |before| + 1 && after[..|before|] == before && after[|before|].key == k
  }

  /** What a completion achieves when no call fails: nothing if the row was held, otherwise all of it. */
  ghost predicate Honoured(w: World, v: World, d: Def, user: nat, silent: bool) {
    var k := Key(d.id, user);
    if RowOf(w.book.rows, k).completedAt.Some? then v.book == w.book && v.news == w.news
    else
      && RowOf(v.book.rows, k).completedAt.Some? && RowOf(v.book.rows, k).paidAt.Some?
      && RowOf(v.book.rows, k).times == RowOf(w.book.rows, k).times + 1
      && (d.reward != [] ==> Grant(d.reward, user, d.slug) in v.book.grants)
      && v.news == if silent then w.news else w.news + [News(k, true)]
  }

  /** The write and then, if it was due, the completion, no call failing. */
  lemma {:induction false} ServedInFull(before: Rows, u: World, v: World, s: Share, reached: bool)
    requires var was := RowOf(before, Target(s));
      && RowOf(u.book.rows, Target(s)) == was.(progress := LevelOf(was, s))
      && reached == (s.how.Fires? || Reached(s.d, RowOf(u.book.rows, Target(s))))
    requires if reached then Honoured(u, v, s.d, s.user, !IsNews(s)) else v.book == u.book && v.news == u.news
    requires RowOf(v.book.rows, Target(s)).progress == RowOf(u.book.rows, Target(s)).progress
    ensures RowServed(RowOf(before, Target(s)), v.book, s)
    ensures v.news == u.news + Tells(RowOf(before, Target(s)), s)
    ensures !s.how.Fires? ==> reached == Completes(RowOf(before, Target(s)), s)
  {
    assert u.news + [] == u.news;
  }

  lemma CountMoves(defs: Defs, rows: Rows, s: Share)
    requires s.how.Adds? && s.n > 0 && s.d.id in defs && defs[s.d.id] == s.d
    ensures var p := AchievementRows.IncrementProgress(defs, rows, Target(s), s.n);
      && p.Moved? && OnlyRow(rows, p.rows, Target(s))
      && RowOf(p.rows, Target(s)) == RowOf(rows, Target(s)).(progress := LevelOf(RowOf(rows, Target(s)), s))
      && p.reached == Reached(s.d, RowOf(p.rows, Target(s)))
  {
  }

  /** A completion that is due counts. */
  lemma ShareDue(rows: Rows, s: Share) returns (due: Share)
    ensures due == s.(counted := due.counted) && due.counted == Completes(RowOf(rows, Target(due)), due)
  {
    due := s.(counted := Completes(RowOf(rows, Target(s)), s));
  }

  /** The share of one definition and one member, once what was announced is known. */
  lemma {:induction false} MetBy(w: World, v: World, s: Share, clean: bool) returns (done: Share)
    requires w.book.grants <= v.book.grants && OnlyRow(w.book.rows, v.book.rows, Target(s))
    requires v.news == w.news || (IsNews(s) && OneMore(w.news, v.news, Target(s)))
    requires s.how.Fires? ==> RowOf(v.book.rows, Target(s)).progress == RowOf(w.book.rows, Target(s)).progress
    requires s.how.Sets? && s.counted ==> RowOf(v.book.rows, Target(s)).completedAt.Some?
    requires var was := RowOf(w.book.rows, Target(s));
      clean ==> RowServed(was, v.book, s) && v.news == w.news + Tells(was, s) && s.counted == Completes(was, s)
    ensures done == s.(clean := clean, tells := done.tells) && Met(w, v, [done])
  {
    var was := RowOf(w.book.rows, Target(s));
    done := s.(clean := clean, tells := v.news[|w.news|..]);
    assert Target(done) == Target(s);
    if v.news == w.news { assert done.tells == [] && w.news + [] == w.news; }
    if v.news != w.news { assert v.news == w.news + [v.news[|w.news|]]; }
    if clean {
      assert (w.news + Tells(was, s))[|w.news|..] == Tells(was, s);
      assert RowServed(was, v.book, done) && Tells(was, done) == Tells(was, s);
    }
    hide RowServed, Tells;
    MetOne(w, v, done);
  }

  lemma MetOne(w: World, v: World, s: Share)
    requires w.book.grants <= v.book.grants && OnlyRow(w.book.rows, v.book.rows, Target(s))
    requires v.news == w.news + s.tells && ShareOk(w.book.rows, v.book, s)
    ensures Met(w, v, [s])
  {
    assert [s][..0] == [] && Told([s]) == [] + s.tells;
    assert Targets([s]) == {Target(s)};
    hide ShareOk;
  }

  lemma NoShares()
    ensures Tally([]) == 0 && Unclean([]) == 0 && Targets([]) == {}
  {
  }

  lemma ListedAreKnown(heard: seq<Def>, defs: Defs, name: Bytes, metric: bool)
    requires Lists(heard, defs, name, metric)
    ensures Distinct(heard) && forall d :: d in heard ==> d.id in defs && defs[d.id] == d && d.enabled
  {
  }

  lemma MetNone(w: World)
    ensures Met(w, w, [])
  {
    assert w.news + [] == w.news;
  }

  lemma SharesOfNone(how: How, user: nat, n: int)
    ensures IsSharesOf([], how, [], user, n)
  {
  }

  /** Told, counted and spoilt add up. */
  lemma {:induction false} SharesAdd(a: seq<Share>, b: seq<Share>)
    ensures Told(a + b) == Told(a) + Told(b)
    ensures Tally(a + b) == Tally(a) + Tally(b) && Unclean(a + b) == Unclean(a) + Unclean(b)
  {
    if b == [] {
      assert a + b == a;
    } else {
      var init, last := b[..|b| - 1], b[|b| - 1];
      SharesAdd(a, init);
      assert (a + b)[..|a + b| - 1] == a + init && (a + b)[|a + b| - 1] == last;
      assert Told(a) + Told(init) + last.tells == Told(a) + (Told(init) + last.tells);
    }
  }

  lemma TargetsAdd(a: seq<Share>, b: seq<Share>)
    ensures Targets(a + b) == Targets(a) + Targets(b)
  {
    forall k | k in Targets(a) + Targets(b) ensures k in Targets(a + b) {
      if s :| s in a && Target(s) == k { assert s in a + b; }
      if s :| s in b && Target(s) == k { assert s in a + b; }
    }
  }

  lemma TargetOf(shares: seq<Share>, i: nat)
    requires i < |shares|
    ensures Target(shares[i]) in Targets(shares)
  {
  }

  /** What was served stays served while other rows move. */
  lemma ShareStays(before: Rows, b: Book, c: Book, s: Share)
    requires ShareOk(before, b, s) && b.grants <= c.grants && RowOf(c.rows, Target(s)) == RowOf(b.rows, Target(s))
    ensures ShareOk(before, c, s)
  {
  }

  lemma ShareSince(before: Rows, b: Rows, c: Book, s: Share)
    requires ShareOk(b, c, s) && RowOf(b, Target(s)) == RowOf(before, Target(s))
    ensures ShareOk(before, c, s)
  {
  }

  /** Shares of different rows, one lot after the other. */
  lemma {:induction false} MetJoins(w: World, u: World, v: World, a: seq<Share>, b: seq<Share>)
    requires Met(w, u, a) && Met(u, v, b) && Targets(a) !! Targets(b)
    ensures Met(w, v, a + b)
  {
    hide ShareOk;
    SharesAdd(a, b);
    TargetsAdd(a, b);
    var all := a + b;
    hide Told, Targets;
    assert w.news + Told(a) + Told(b) == w.news + (Told(a) + Told(b));
    forall i | 0 <= i < |all| ensures ShareOk(w.book.rows, v.book, all[i]) {
      if i < |a| {
        TargetOf(a, i);
        assert ShareOk(w.book.rows, u.book, a[i]);
        ShareStays(w.book.rows, u.book, v.book, a[i]);
      } else {
        TargetOf(b, i - |a|);
        assert ShareOk(u.book.rows, v.book, b[i - |a|]);
        ShareSince(w.book.rows, u.book.rows, v.book, b[i - |a|]);
      }
    }
    forall i, j | 0 <= i < j < |all| ensures Target(all[i]) != Target(all[j]) {
      if i < |a| <= j {
        TargetOf(a, i);
        TargetOf(b, j - |a|);
      }
    }
  }

  lemma {:induction false} NextShare(w: World, u: World, v: World, shares: seq<Share>, s: Share, how: How,
                                     defs: seq<Def>, i: nat, user: nat, n: int)
    requires i < |defs| && Distinct(defs) && IsSharesOf(shares, how, defs[..i], user, n) && Met(w, u, shares)
    requires IsSharesOf([s], how, [defs[i]], user, n) && Met(u, v, [s])
    ensures IsSharesOf(shares + [s], how, defs[..i + 1], user, n) && Met(w, v, shares + [s])
    ensures Tally(shares + [s]) == Tally(shares) + if s.counted then 1 else 0
    ensures Unclean(shares + [s]) == Unclean(shares) + if s.clean then 0 else 1
  {
    assert (shares + [s])[..|shares|] == shares;
    assert [s][0] == s && [defs[i]][0] == defs[i];
    hide Met;
    MetJoins(w, u, v, shares, [s]) by {
      forall k | k in Targets(shares) ensures k !in Targets([s]) {
        var j :| 0 <= j < |shares| && Target(shares[j]) == k;
        assert defs[..i][j] == defs[j];
      }
    }
  }

  /** Only rows the event is about are among its shares. */
  lemma {:induction false} SharesConcern(w: World, v: World, shares: seq<Share>, how: How, heard: seq<Def>, defs: Defs,
                                         name: Bytes, user: nat, n: int, metric: bool)
    requires Met(w, v, shares) && IsSharesOf(shares, how, heard, user, n)
    requires heard != [] ==> Lists(heard, defs, name, metric)
    ensures forall k :: !Concerns(defs, k, name, user, metric) ==> RowOf(v.book.rows, k) == RowOf(w.book.rows, k)
  {
    hide ShareOk, Lists;
    forall k | k in Targets(shares) ensures Concerns(defs, k, name, user, metric) {
      var i :| 0 <= i < |shares| && Target(shares[i]) == k;
      ListsOne(heard, defs, name, metric, i);
    }
  }

  lemma ListsOne(heard: seq<Def>, defs: Defs, name: Bytes, metric: bool, i: nat)
    requires i < |heard| && Lists(heard, defs, name, metric)
    ensures heard[i].id in defs && defs[heard[i].id] == heard[i] && Selected(heard[i], name, metric)
  {
  }

  lemma {:induction false} FiringKeepsProgress(w: World, v: World, shares: seq<Share>)
    requires Met(w, v, shares) && forall i :: 0 <= i < |shares| ==> shares[i].how.Fires?
    ensures forall k :: RowOf(v.book.rows, k).progress == RowOf(w.book.rows, k).progress
  {
    hide RowServed, Tells, Completes;
    forall k ensures RowOf(v.book.rows, k).progress == RowOf(w.book.rows, k).progress {
      if k in Targets(shares) {
        var i :| 0 <= i < |shares| && Target(shares[i]) == k;
        assert ShareOk(w.book.rows, v.book, shares[i]);
      }
    }
  }

  /** Reads and marks of definitions move no row, no grant and no announcement. */
  lemma MetSince(w: World, u: World, v: World, shares: seq<Share>)
    requires Met(u, v, shares) && u.book == w.book && u.news == w.news
    ensures Met(w, v, shares)
  {
  }

  lemma MetOutlives(w: World, v: World, x: World, shares: seq<Share>)
    requires Met(w, v, shares) && x.book == v.book.(defs := x.book.defs) && x.news == v.news
    ensures Met(w, x, shares)
  {
    hide RowServed, Tells, Completes;
    forall i | 0 <= i < |shares| ensures ShareOk(w.book.rows, x.book, shares[i]) {
      assert ShareOk(w.book.rows, v.book, shares[i]);
      ShareStays(w.book.rows, v.book, x.book, shares[i]);
    }
  }

  // ---- A pass, member by member ---------------------------------------------

  /** The members met so far, each once: those worth scoring that are not in `rest`. */
  ghost predicate IsOrder(order: seq<nat>, values: map<nat, int>, rest: set<nat>) {
    && (forall u :: u in order <==> u !in rest && Worth(values, u))
    && (forall i, j :: 0 <= i < j < |order| ==> order[i] != order[j])
  }

  function TotalOf(values: map<nat, int>, user: nat): int { if user in values then values[user] else 0 }

  /** Member by member, one share for every definition of the pass. */
  ghost predicate Grouped(shares: seq<Share>, defs: seq<Def>, order: seq<nat>, values: map<nat, int>)
    decreases |order|
  {
    if order == [] then shares == []
    else
      var u, m := order[|order| - 1], |shares| - |defs|;
      && m >= 0 && IsSharesOf(shares[m..], Sets, defs, u, TotalOf(values, u))
      && Grouped(shares[..m], defs, order[..|order| - 1], values)
  }

  /** The first definitions of one member, the last of which a call failed for. */
  ghost predicate IsCutShort(shares: seq<Share>, defs: seq<Def>, user: nat, n: int) {
    && 0 < |shares| <= |defs| && !shares[|shares| - 1].clean
    && IsSharesOf(shares, Sets, defs[..|shares|], user, n)
  }

  /** A pass that stopped at its last member's failing write: every member before was dealt with in full. */
  ghost predicate GivenUp(shares: seq<Share>, defs: seq<Def>, order: seq<nat>, values: map<nat, int>) {
    && order != [] && (forall u :: u in order ==> Worth(values, u))
    && (forall i, j :: 0 <= i < j < |order| ==> order[i] != order[j])
    && exists m :: 0 <= m <= |shares| && Grouped(shares[..m], defs, order[..|order| - 1], values) &&
        IsCutShort(shares[m..], defs, order[|order| - 1], TotalOf(values, order[|order| - 1]))
  }

  function Rest(values: map<nat, int>, rest: set<nat>): map<nat, int> { map u | u in values && u in rest :: values[u] }

  lemma NobodyYet(defs: seq<Def>, values: map<nat, int>)
    ensures IsOrder([], values, values.Keys) && Grouped([], defs, [], values) && Rest(values, values.Keys) == values
  {
  }

  lemma OrderNext(order: seq<nat>, values: map<nat, int>, rest: set<nat>, user: nat)
    requires IsOrder(order, values, rest) && user in rest
    ensures IsOrder(if Worth(values, user) then order + [user] else order, values, rest - {user})
    ensures user !in order && Worth(values, user) == (user in values && user != 0 && values[user] > 0)
  {
  }

  lemma WorthStill(values: map<nat, int>, rest: set<nat>, user: nat)
    requires user in rest && user in values && user != 0 && values[user] > 0
    ensures Worth(Rest(values, rest), user) && Rest(values, rest)[user] == values[user]
  {
  }

  lemma RestNext(values: map<nat, int>, rest: set<nat>, user: nat)
    ensures Rest(values, rest - {user}) == Rest(values, rest) - {user}
  {
  }

  /** The rows of a pass so far belong to the members it has met. */
  lemma {:induction false} GroupedTargets(shares: seq<Share>, defs: seq<Def>, order: seq<nat>, values: map<nat, int>)
    requires Grouped(shares, defs, order, values)
    ensures forall i :: 0 <= i < |shares| ==>
      && shares[i].user in order && shares[i].d in defs && shares[i].n == TotalOf(values, shares[i].user)
    decreases |order|
  {
    if order != [] {
      var m := |shares| - |defs|;
      GroupedTargets(shares[..m], defs, order[..|order| - 1], values);
      forall i | 0 <= i < |shares|
        ensures shares[i].user in order && shares[i].d in defs && shares[i].n == TotalOf(values, shares[i].user)
      {
        if i >= m { assert shares[m..][i - m] == shares[i]; } else { assert shares[..m][i] == shares[i]; }
      }
    }
  }

  lemma {:induction false} GroupJoins(shares: seq<Share>, more: seq<Share>, defs: seq<Def>, order: seq<nat>,
                                      values: map<nat, int>, user: nat, fine: bool)
    requires Grouped(shares, defs, order, values) && user !in order && Worth(values, user)
    requires forall x :: x in order ==> Worth(values, x)
    requires forall i, j :: 0 <= i < j < |order| ==> order[i] != order[j]
    requires if fine then IsSharesOf(more, Sets, defs, user, values[user])
      else IsCutShort(more, defs, user, values[user])
    ensures if fine then Grouped(shares + more, defs, order + [user], values)
      else GivenUp(shares + more, defs, order + [user], values)
  {
    var all, m := shares + more, |shares|;
    assert all[..m] == shares && all[m..] == more && (order + [user])[..|order|] == order;
    hide IsCutShort;
    if fine { assert m == |all| - |defs|; }
  }

  lemma {:induction false} GroupNext(w: World, u: World, v: World, shares: seq<Share>, more: seq<Share>, defs: seq<Def>,
                                     order: seq<nat>, values: map<nat, int>, user: nat, fine: bool)
    requires Grouped(shares, defs, order, values) && Met(w, u, shares) && Met(u, v, more)
    requires user !in order && Worth(values, user) && (forall x :: x in order ==> Worth(values, x))
    requires forall i, j :: 0 <= i < j < |order| ==> order[i] != order[j]
    requires if fine then IsSharesOf(more, Sets, defs, user, values[user])
      else IsCutShort(more, defs, user, values[user])
    ensures Met(w, v, shares + more)
    ensures Tally(shares + more) == Tally(shares) + Tally(more)
    ensures Unclean(shares + more) == Unclean(shares) + Unclean(more)
    ensures if fine then Grouped(shares + more, defs, order + [user], values)
      else GivenUp(shares + more, defs, order + [user], values)
  {
    GroupJoins(shares, more, defs, order, values, user, fine);
    SharesAdd(shares, more);
    GroupedTargets(shares, defs, order, values);
    assert forall k :: k in Targets(shares) ==> k.user in order;
    assert forall k :: k in Targets(more) ==> k.user == user;
    hide Met, Grouped, GivenUp, Targets, Told, Tally, Unclean, IsSharesOf, IsCutShort;
    MetJoins(w, u, v, shares, more);
  }

  ghost predicate CounterNames(defs: Defs, metric: Bytes, values: map<nat, int>, k: Key) {
    Worth(values, k.user) && Concerns(defs, k, metric, k.user, true)
  }

  lemma {:induction false} GivenUpTargets(shares: seq<Share>, defs: seq<Def>, order: seq<nat>, values: map<nat, int>,
                                          m: nat)
    requires order != [] && m <= |shares| && Grouped(shares[..m], defs, order[..|order| - 1], values)
    requires IsCutShort(shares[m..], defs, order[|order| - 1], TotalOf(values, order[|order| - 1]))
    ensures forall i :: 0 <= i < |shares| ==> shares[i].user in order && shares[i].d in defs
  {
    var last := order[|order| - 1];
    GroupedTargets(shares[..m], defs, order[..|order| - 1], values);
    CutShortTargets(shares[m..], defs, last, TotalOf(values, last));
    hide Grouped, IsCutShort;
    forall i | 0 <= i < |shares| ensures shares[i].user in order && shares[i].d in defs {
      assert shares[i] == if i < m then shares[..m][i] else shares[m..][i - m];
    }
  }

  /** Whole or given up, a pass has shares only of its definitions and of the members in its order. */
  lemma {:induction false} PassTargets(p: Pass, values: map<nat, int>)
    requires if p.whole then IsOrder(p.order, values, {}) && Grouped(p.shares, p.heard, p.order, values)
      else GivenUp(p.shares, p.heard, p.order, values)
    ensures forall u :: u in p.order ==> Worth(values, u)
    ensures forall i :: 0 <= i < |p.shares| ==> p.shares[i].user in p.order && p.shares[i].d in p.heard
  {
    hide Grouped, IsCutShort, Worth;
    if p.whole {
      GroupedTargets(p.shares, p.heard, p.order, values);
    } else {
      var order, last := p.order[..|p.order| - 1], p.order[|p.order| - 1];
      var m :| 0 <= m <= |p.shares| && Grouped(p.shares[..m], p.heard, order, values) &&
          IsCutShort(p.shares[m..], p.heard, last, TotalOf(values, last));
      GivenUpTargets(p.shares, p.heard, p.order, values, m);
    }
  }

  lemma CutShortAt(shares: seq<Share>, defs: seq<Def>, i: nat, user: nat, n: int)
    requires i < |defs| && IsSharesOf(shares, Sets, defs[..i + 1], user, n) && !shares[|shares| - 1].clean
    ensures IsCutShort(shares, defs, user, n)
  {
  }

  lemma CutShortTargets(shares: seq<Share>, defs: seq<Def>, user: nat, n: int)
    requires IsCutShort(shares, defs, user, n)
    ensures forall i :: 0 <= i < |shares| ==> shares[i].user == user && shares[i].d in defs
  {
  }

  lemma {:induction false} PassConcerns(w: World, v: World, p: Pass, defs: Defs, metric: Bytes, values: map<nat, int>)
    requires Met(w, v, p.shares) && Lists(p.heard, defs, metric, true)
    requires if p.whole then IsOrder(p.order, values, {}) && Grouped(p.shares, p.heard, p.order, values)
      else GivenUp(p.shares, p.heard, p.order, values)
    ensures forall k :: !CounterNames(defs, metric, values, k) ==> RowOf(v.book.rows, k) == RowOf(w.book.rows, k)
  {
    PassTargets(p, values);
    hide ShareOk, Grouped, GivenUp, IsOrder, Lists, Worth;
    forall k | k in Targets(p.shares) ensures CounterNames(defs, metric, values, k) {
      var i :| 0 <= i < |p.shares| && Target(p.shares[i]) == k;
      var j :| 0 <= j < |p.heard| && p.heard[j] == p.shares[i].d;
      ListsOne(p.heard, defs, metric, true, j);
    }
  }
}
