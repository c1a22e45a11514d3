/**
 runDBDump of backup/dbdump.go: what is on the dump volume after any run, wherever it ends,
 and after any sequence of runs.
 */
module DumpRetention {
  import opened Basics
  import opened Stamps

  /**
   The dated directories and the dot-prefixed ones in flight. The flag of a directory says whether
   it is whole: pg_dump finished in it, and no deletion began on it.
   */
  datatype SpoolState = SpoolState(published: map<Stamp, bool>, incoming: map<Stamp, bool>)

  /** A prune killed after so many deletions, perhaps inside the next. */
  datatype Kill = Kill(deleted: nat, inside: bool)

  /** Where a run ends. Only the last is a success; the rest refuse, fail or are killed. */
  datatype Ending =
    | NeverStarted
    | KilledClearing(left: set<Stamp>)
    | KilledPrePruning(kill: Kill)
    | RefusedForDisk
    | KilledDumping
    | DumpFailed
    | KilledBeforePublish
    | RenameFailed
    | KilledAfterPublish
    | KilledPruning(kill: Kill)
    | Finished

  // ---- Listing and pruning ----------------------------------------------

  predicate Newer(a: Stamp, b: Stamp) { Less(Text(b), Text(a)) }

  /** How many published dumps are newer. */
  function Rank(m: map<Stamp, bool>, s: Stamp): nat { |set t | t in m && Newer(t, s)| }

  /** Prunes to `keep`, killed part-way: the tail goes newest first, and the next in line may be half deleted. */
  function PrunedPart(m: map<Stamp, bool>, keep: nat, kill: Kill): map<Stamp, bool> {
    map s | s in m && (Rank(m, s) < keep || Rank(m, s) >= keep + kill.deleted) ::
      m[s] && !(kill.inside && Rank(m, s) == keep + kill.deleted)
  }

  function PrunedTo(m: map<Stamp, bool>, keep: nat): map<Stamp, bool> {
    map s | s in m && Rank(m, s) < keep :: m[s]
  }

  /** Names newest first, each once. */
  ghost predicate IsListing(names: seq<Stamp>, stamps: set<Stamp>) {
    && (forall i, j :: 0 <= i < j < |names| ==> Newer(names[i], names[j]))
    && (forall s :: s in names <==> s in stamps)
  }

  /** Every name on the volume is a real instant. */
  ghost predicate Dated(m: map<Stamp, bool>) { forall s :: s in m ==> InRange(s) }

  lemma NewerTotal(a: Stamp, b: Stamp)
    requires InRange(a) && InRange(b)
    ensures a == b || Newer(a, b) || Newer(b, a)
    ensures !(Newer(a, b) && Newer(b, a)) && !Newer(a, a)
  {
    TextOrderIsTimeOrder(a, b);
    TextOrderIsTimeOrder(b, a);
    TextOrderIsTimeOrder(a, a);
  }

  lemma NewerTransitive(a: Stamp, b: Stamp, c: Stamp)
    requires Newer(a, b) && Newer(b, c)
    ensures Newer(a, c)
  {
    LessTransitive(Text(c), Text(b), Text(a));
  }

  lemma Listed(names: seq<Stamp>, stamps: set<Stamp>, s: Stamp)
    requires IsListing(names, stamps) && s in stamps
    ensures s in names
  {
  }

  /** A listing has no repeats, and what is newer than an entry stands before it. */
  lemma ListingOrder(m: map<Stamp, bool>, names: seq<Stamp>)
    requires Dated(m) && IsListing(names, m.Keys)
    ensures forall a, b :: 0 <= a < b < |names| ==> names[a] != names[b]
    ensures forall a, b :: 0 <= a < |names| && 0 <= b < |names| && Newer(names[a], names[b]) ==> a < b
  {
    hide Newer;
    forall a, b | 0 <= a < |names| && 0 <= b < |names|
      ensures !Newer(names[a], names[a]) && !(Newer(names[a], names[b]) && Newer(names[b], names[a]))
    {
      assert names[a] in names && names[b] in names;
      NewerTotal(names[a], names[b]);
    }
  }

  /** A dump's place in the listing is its rank. */
  lemma RankIsIndex(m: map<Stamp, bool>, names: seq<Stamp>, i: nat)
    requires Dated(m) && IsListing(names, m.Keys) && i < |names|
    ensures Rank(m, names[i]) == i
  {
    hide Newer;
    ListingOrder(m, names);
    var newer := set t | t in m && Newer(t, names[i]);
    forall t ensures t in newer <==> t in names[..i] {
      if t in newer {
        assert t in names;
        var j :| 0 <= j < |names| && names[j] == t;
        assert names[..i][j] == t;
      }
    }
    DistinctPrefix(names, i, newer);
  }

  lemma {:induction false} DistinctPrefix(names: seq<Stamp>, i: nat, s: set<Stamp>)
    requires i <= |names| && (forall a, b :: 0 <= a < b < |names| ==> names[a] != names[b])
    requires forall t :: t in s <==> t in names[..i]
    ensures |s| == i
  {
    if i == 0 {
      assert s == {};
    } else {
      assert names[..i] == names[..i - 1] + [names[i - 1]];
      assert names[i - 1] !in names[..i - 1];
      DistinctPrefix(names, i - 1, s - {names[i - 1]});
    }
  }

  /** `s` is half deleted. */
  function Spoilt(m: map<Stamp, bool>, s: Stamp): map<Stamp, bool> { map t | t in m :: m[t] && t != s }

  function Without(m: map<Stamp, bool>, gone: seq<Stamp>): map<Stamp, bool> { map s | s in m && s !in gone :: m[s] }

  /** Deleting from the listing's tail prunes by rank. */
  lemma PrunedByRank(m: map<Stamp, bool>, names: seq<Stamp>, keep: nat, to: nat)
    requires Dated(m) && IsListing(names, m.Keys) && keep <= to <= |names|
    ensures Without(m, names[keep..to]) == PrunedPart(m, keep, Kill(to - keep, false))
    ensures to < |names| ==>
      Spoilt(Without(m, names[keep..to]), names[to]) == PrunedPart(m, keep, Kill(to - keep, true))
    ensures to == |names| ==> Without(m, names[keep..to]) == PrunedTo(m, keep)
  {
    hide Rank, Newer, IsListing;
    ListingOrder(m, names);
    forall s | s in m
      ensures (s in names[keep..to] <==> keep <= Rank(m, s) < to) && Rank(m, s) < |names|
      ensures to < |names| ==> (s == names[to] <==> Rank(m, s) == to)
    {
      assert s in names by { Listed(names, m.Keys, s); }
      var i :| 0 <= i < |names| && names[i] == s;
      RankIsIndex(m, names, i);
      if keep <= i < to { assert names[keep..to][i - keep] == s; }
    }
  }

  lemma WithoutOneMore(m: map<Stamp, bool>, gone: seq<Stamp>, s: Stamp)
    requires s in m && s !in gone
    ensures var before, after := Without(m, gone), Without(m, gone + [s]);
      s in before && after == before - {s} && |after| + 1 == |before|
  {
    var before, after := Without(m, gone), Without(m, gone + [s]);
    assert after == before - {s};
    assert after.Keys == before.Keys - {s};
  }

  lemma DeleteNext(m: map<Stamp, bool>, names: seq<Stamp>, keep: nat, i: nat)
    requires Dated(m) && IsListing(names, m.Keys) && keep <= i < |names|
    ensures var before, after := Without(m, names[keep..i]), Without(m, names[keep..i + 1]);
      names[i] in before && after == before - {names[i]} && |after| + 1 == |before|
  {
    hide Newer;
    ListingOrder(m, names);
    assert names[keep..i + 1] == names[keep..i] + [names[i]];
    assert names[i] in names && names[i] !in names[keep..i];
    hide IsListing, Dated;
    WithoutOneMore(m, names[keep..i], names[i]);
  }

  class Spool {
    var published: map<Stamp, bool>
    var incoming: map<Stamp, bool>

    function State(): SpoolState
      reads this
    {
      SpoolState(published, incoming)
    }

    /** Deletes every abandoned partial; killed part-way it leaves some of them. */
    method ClearStaleIncoming(left: Option<set<Stamp>>)
      modifies this`incoming
      ensures incoming ==
        if left.None? then map[] else map s | s in old(incoming) && s in left.value :: old(incoming)[s]
    {
      var rest := incoming.Keys;
      if left.Some? {
        rest := rest - left.value;
      }
      ghost var doomed := rest;
      while rest != {}
        invariant rest <= doomed
        invariant incoming == map s | s in old(incoming) && (s !in doomed || s in rest) :: old(incoming)[s]
        decreases rest
      {
        var s :| s in rest;
        incoming := incoming - {s};
        rest := rest - {s};
      }
    }

    /** Published names, newest first. */
    method PublishedDumps() returns (names: seq<Stamp>)
      requires Dated(published)
      ensures IsListing(names, published.Keys)
    {
      hide Newer, InsertByAge;
      names := [];
      var rest := published.Keys;
      while rest != {}
        invariant rest <= published.Keys && IsListing(names, published.Keys - rest)
        decreases rest
      {
        var s :| s in rest;
        InsertByAgeLists(names, s, published.Keys - rest);
        names := InsertByAge(names, s);
        rest := rest - {s};
        assert published.Keys - rest == published.Keys - (rest + {s}) + {s};
      }
    }

    /** Deletes all but the newest `keep`, one directory at a time, unless it is killed. */
    method PruneDumpsTo(keep: int, limit: Option<Kill>) returns (pruned: nat)
      requires Dated(published)
      modifies this`published
      ensures published ==
        if keep < 1 then old(published)
        else if limit.Some? then PrunedPart(old(published), keep, limit.value)
        else PrunedTo(old(published), keep)
      ensures keep >= 1 ==> pruned + |published| == |old(published)|
    {
      hide Rank, Newer, Without, PrunedPart, PrunedTo;
      if keep < 1 {
        return 0;
      }
      var names := PublishedDumps();
      ghost var before := published;
      ListingCount(before, names);
      if |names| <= keep {
        FewEnough(before, names, keep);
        return 0;
      }
      pruned := 0;
      var i: nat := keep;
      NothingDeleted(before, names, keep);
      while i < |names| && (limit.None? || pruned < limit.value.deleted)
        invariant keep <= i <= |names| && pruned == i - keep && (limit.Some? ==> pruned <= limit.value.deleted)
        invariant published == Without(before, names[keep..i]) && pruned + |published| == |before|
      {
        DeleteNext(before, names, keep, i);
        published := published - {names[i]};
        pruned := pruned + 1;
        i := i + 1;
      }
      PrunedByRank(before, names, keep, i);
      if limit.Some? { PastTheEnd(before, names, keep, i, limit.value); }
      if limit.Some? && limit.value.inside && i < |names| {
        SpoiltCount(published, names[i]);
        published := Spoilt(published, names[i]);
      }
    }
  }

  lemma NothingDeleted(m: map<Stamp, bool>, names: seq<Stamp>, keep: nat)
    requires keep <= |names|
    ensures Without(m, names[keep..keep]) == m
  {
  }

  lemma SpoiltCount(m: map<Stamp, bool>, s: Stamp)
    ensures |Spoilt(m, s)| == |m|
  {
    assert Spoilt(m, s).Keys == m.Keys;
  }

  /** A kill beyond the last deletion makes no difference. */
  lemma PastTheEnd(m: map<Stamp, bool>, names: seq<Stamp>, keep: nat, i: nat, kill: Kill)
    requires Dated(m) && IsListing(names, m.Keys) && keep <= i <= |names|
    requires i - keep == kill.deleted || (i == |names| && i - keep <= kill.deleted)
    ensures PrunedPart(m, keep, kill) == PrunedPart(m, keep, Kill(i - keep, kill.inside && i < |names|))
  {
    hide Rank;
    if i == |names| { AllRanked(m, names, |names|); }
  }

  lemma FewEnough(m: map<Stamp, bool>, names: seq<Stamp>, keep: nat)
    requires Dated(m) && IsListing(names, m.Keys) && |names| <= keep
    ensures PrunedTo(m, keep) == m && forall kill :: PrunedPart(m, keep, kill) == m
  {
    hide Rank;
    AllRanked(m, names, keep);
  }

  lemma {:induction false} ListingCount(m: map<Stamp, bool>, names: seq<Stamp>)
    requires Dated(m) && IsListing(names, m.Keys)
    ensures |m| == |names|
  {
    ListingOrder(m, names);
    assert names[..|names|] == names;
    DistinctPrefix(names, |names|, m.Keys);
  }

  lemma AllRanked(m: map<Stamp, bool>, names: seq<Stamp>, n: nat)
    requires Dated(m) && IsListing(names, m.Keys) && |names| <= n
    ensures forall s :: s in m ==> Rank(m, s) < n
    ensures PrunedTo(m, n) == m
  {
    hide Rank;
    forall s | s in m ensures Rank(m, s) < n {
      assert s in names;
      var i :| 0 <= i < |names| && names[i] == s;
      RankIsIndex(m, names, i);
    }
  }

  /** sort.Reverse, one name at a time. */
  function InsertByAge(names: seq<Stamp>, s: Stamp): seq<Stamp> {
    if names == [] || !Newer(names[0], s) then [s] + names else [names[0]] + InsertByAge(names[1..], s)
  }

  lemma TailLists(names: seq<Stamp>, have: set<Stamp>)
    requires names != [] && IsListing(names, have) && InRange(names[0])
    ensures IsListing(names[1..], have - {names[0]}) && names[0] in have
    ensures forall t :: t in have - {names[0]} ==> Newer(names[0], t)
  {
    hide Newer;
    NewerTotal(names[0], names[0]);
    assert names == [names[0]] + names[1..];
    forall t | t in names[1..] ensures Newer(names[0], t) {
      var k :| 0 <= k < |names[1..]| && names[1..][k] == t;
      assert Newer(names[0], names[k + 1]);
    }
  }

  lemma {:induction false} InsertByAgeLists(names: seq<Stamp>, s: Stamp, have: set<Stamp>)
    requires IsListing(names, have) && s !in have && InRange(s) && forall t :: t in have ==> InRange(t)
    ensures IsListing(InsertByAge(names, s), have + {s})
  {
    hide Newer;
    if names != [] {
      assert names[0] in names;
      TailLists(names, have);
      if !Newer(names[0], s) {
        NewerTotal(names[0], s);
        forall j | 0 <= j < |names| ensures Newer(s, names[j]) {
          assert names[j] in names;
          if names[j] != names[0] { NewerTransitive(s, names[0], names[j]); }
        }
      } else {
        var rest := InsertByAge(names[1..], s);
        InsertByAgeLists(names[1..], s, have - {names[0]});
        forall j | 0 <= j < |rest| ensures Newer(names[0], rest[j]) { assert rest[j] in rest; }
      }
    }
  }

  lemma {:induction false} ListingExists(stamps: set<Stamp>) returns (names: seq<Stamp>)
    requires forall s :: s in stamps ==> InRange(s)
    ensures IsListing(names, stamps)
    decreases stamps
  {
    hide Newer;
    if stamps == {} {
      names := [];
    } else {
      var s :| s in stamps;
      names := ListingExists(stamps - {s});
      InsertByAgeLists(names, s, stamps - {s});
      names := InsertByAge(names, s);
      assert stamps - {s} + {s} == stamps;
    }
  }

  /** Some whole dump of `m` is as new as `s`. */
  ghost predicate Covers(m: map<Stamp, bool>, s: Stamp) { exists t :: t in m && m[t] && (t == s || Newer(t, s)) }

  /** The newest is whole: nothing published, half deleted or not, is newer than every whole dump. */
  ghost predicate Covered(m: map<Stamp, bool>) { forall s :: s in m ==> Covers(m, s) }

  lemma CoversTransitive(m: map<Stamp, bool>, n: map<Stamp, bool>, s: Stamp)
    requires Covers(m, s) && forall t :: t in m ==> Covers(n, t)
    ensures Covers(n, s)
  {
    hide Newer;
    var r :| r in m && m[r] && (r == s || Newer(r, s));
    var t :| t in n && n[t] && (t == r || Newer(t, r));
    if t != r && r != s { NewerTransitive(t, r, s); }
  }

  lemma {:induction false} NewestIsWhole(m: map<Stamp, bool>, names: seq<Stamp>)
    requires Dated(m) && Covered(m) && IsListing(names, m.Keys) && names != []
    ensures names[0] in m && m[names[0]] && Rank(m, names[0]) == 0
  {
    hide Newer, Rank;
    RankIsIndex(m, names, 0);
    assert names[0] in names;
    var t :| t in m && m[t] && (t == names[0] || Newer(t, names[0]));
    ListingOrder(m, names);
  }

  /** Pruning to `keep` leaves that many, or all there are. */
  lemma PruneLeavesFew(m: map<Stamp, bool>, keep: nat)
    requires Dated(m) && keep >= 1
    ensures |PrunedTo(m, keep)| == if |m| <= keep then |m| else keep
  {
    hide Rank, Newer;
    var names := ListingExists(m.Keys);
    var kept := PrunedTo(m, keep);
    var n := if |names| <= keep then |names| else keep;
    ListingOrder(m, names);
    forall s ensures s in kept.Keys <==> s in names[..n] {
      if s in m {
        assert s in names;
        var i :| 0 <= i < |names| && names[i] == s;
        RankIsIndex(m, names, i);
        if i < n { assert names[..n][i] == s; }
      }
    }
    DistinctPrefix(names, n, kept.Keys);
    ListingCount(m, names);
  }

  /** Pruned to the end or killed part-way, the newest is there and whole. */
  lemma {:induction false} PruneKeepsNewest(m: map<Stamp, bool>, keep: nat, kill: Kill)
    requires Dated(m) && Covered(m) && keep >= 1
    ensures forall s :: s in m ==> Covers(PrunedTo(m, keep), s) && Covers(PrunedPart(m, keep, kill), s)
  {
    hide Rank, Newer, Covered;
    var names := ListingExists(m.Keys);
    if names != [] { NewestIsWhole(m, names); }
    var kept, part := PrunedTo(m, keep), PrunedPart(m, keep, kill);
    forall s | s in m ensures Covers(kept, s) && Covers(part, s) {
      assert s in names;
      var i :| 0 <= i < |names| && names[i] == s;
      assert names[0] in kept && kept[names[0]] && names[0] in part && part[names[0]];
    }
  }

  // ---- One run ----------------------------------------------------------

  const DEFAULT_KEEP := 2

  /** How many published dumps stay; a setting that is not positive means the default. */
  function DumpKeep(configured: Option<int>): (keep: nat)
    ensures keep >= 1
    ensures configured == Some(keep) || (keep == 2 && (configured.None? || configured.value <= 0))
  {
    if configured.Some? && configured.value > 0 then configured.value else DEFAULT_KEEP
  }

  /** The published dumps once room has been made for the coming one. */
  function RoomMade(m: map<Stamp, bool>, keep: nat): map<Stamp, bool> { if keep >= 2 then PrunedTo(m, keep - 1) else m }

  /** The volume after a run that ends as `e` says. */
  function After(a: SpoolState, now: Stamp, keep: nat, e: Ending): SpoolState {
    var room := RoomMade(a.published, keep);
    match e
    case NeverStarted => a
    case KilledClearing(left) => SpoolState(a.published, map s | s in a.incoming && s in left :: a.incoming[s])
    case KilledPrePruning(kill) =>
      SpoolState(if keep >= 2 then PrunedPart(a.published, keep - 1, kill) else a.published, map[])
    case RefusedForDisk => SpoolState(room, map[])
    case KilledDumping => SpoolState(room, map[now := false])
    case DumpFailed => SpoolState(room, map[])
    case KilledBeforePublish => SpoolState(room, map[now := true])
    case RenameFailed => SpoolState(room, map[])
    case KilledAfterPublish => SpoolState(room[now := true], map[])
    case KilledPruning(kill) => SpoolState(PrunedPart(room[now := true], keep, kill), map[])
    case Finished => SpoolState(PrunedTo(room[now := true], keep), map[])
  }

  /** The job. Everything it deletes is deleted before the check that can refuse. */
  method RunDBDump(spool: Spool, now: Stamp, keep: nat, ending: Ending)
    requires keep >= 1 && Dated(spool.published) && InRange(now)
    modifies spool
    ensures spool.State() == After(old(spool.State()), now, keep, ending)
  {
    hide Rank, PrunedPart, PrunedTo;
    var goOn := MakeRoom(spool, now, keep, ending);
    if !goOn || ending.RefusedForDisk? {
      return;
    }
    PruneKeepsDates(old(spool.published));
    spool.incoming := spool.incoming - {now};
    spool.incoming := spool.incoming[now := false];
    if ending.KilledDumping? {
      return;
    }
    if ending.DumpFailed? {
      spool.incoming := spool.incoming - {now};
      return;
    }
    spool.incoming := spool.incoming[now := true];
    if ending.KilledBeforePublish? {
      return;
    }
    if ending.RenameFailed? {
      spool.incoming := spool.incoming - {now};
      return;
    }
    spool.published := spool.published[now := spool.incoming[now]];
    spool.incoming := spool.incoming - {now};
    if ending.KilledAfterPublish? {
      return;
    }
    var n := spool.PruneDumpsTo(keep, if ending.KilledPruning? then Some(ending.kill) else None);
  }

  /** The cleanup every run does first: abandoned partials, then all but `keep - 1` dumps. */
  method MakeRoom(spool: Spool, now: Stamp, keep: nat, ending: Ending) returns (goOn: bool)
    requires keep >= 1 && Dated(spool.published)
    modifies spool
    ensures goOn == MadeRoom(ending)
    ensures spool.State() ==
      if goOn then SpoolState(RoomMade(old(spool.published), keep), map[])
      else After(old(spool.State()), now, keep, ending)
  {
    hide Rank, PrunedPart, PrunedTo;
    if ending.NeverStarted? {
      return false;
    }
    spool.ClearStaleIncoming(if ending.KilledClearing? then Some(ending.left) else None);
    if ending.KilledClearing? {
      return false;
    }
    var room := keep - 1;
    if room >= 1 {
      var n := spool.PruneDumpsTo(room, if ending.KilledPrePruning? then Some(ending.kill) else None);
    }
    goOn := !ending.KilledPrePruning?;
  }

  lemma PruneKeepsDates(m: map<Stamp, bool>)
    requires Dated(m)
    ensures forall keep :: Dated(PrunedTo(m, keep))
    ensures forall keep, kill :: Dated(PrunedPart(m, keep, kill))
  {
  }

  // ---- Over whole runs --------------------------------------------------

  /** The run got past the prune that makes room. */
  predicate MadeRoom(e: Ending) { !e.NeverStarted? && !e.KilledClearing? && !e.KilledPrePruning? }

  ghost predicate Bounded(s: SpoolState, keep: nat) { |s.published| <= keep && |s.incoming| <= 1 }

  lemma {:induction false} SmallerSet(a: set<Stamp>, b: set<Stamp>)
    requires a <= b
    ensures |a| <= |b|
    decreases a
  {
    if a != {} {
      var x :| x in a;
      SmallerSet(a - {x}, b - {x});
    }
  }

  lemma AfterWithin(a: SpoolState, now: Stamp, keep: nat, e: Ending)
    ensures var b := After(a, now, keep, e);
      if MadeRoom(e) then b.published.Keys <= RoomMade(a.published, keep).Keys + {now} && b.incoming.Keys <= {now}
      else b.published.Keys <= a.published.Keys && b.incoming.Keys <= a.incoming.Keys
  {
    hide Rank;
  }

  /** Once room has been made the volume is bounded, whatever it held before; and bounded it stays. */
  lemma RunBoundsVolume(a: SpoolState, now: Stamp, keep: nat, e: Ending)
    requires keep >= 2 && Dated(a.published) && InRange(now) && (MadeRoom(e) || Bounded(a, keep))
    ensures Bounded(After(a, now, keep, e), keep)
  {
    AfterWithin(a, now, keep, e);
    hide Rank, After, PrunedTo;
    var b, room := After(a, now, keep, e), RoomMade(a.published, keep);
    PruneLeavesFew(a.published, keep - 1);
    if MadeRoom(e) {
      assert |room.Keys + {now}| <= |room.Keys| + 1;
      SmallerSet(b.published.Keys, room.Keys + {now});
      SmallerSet(b.incoming.Keys, {now});
    } else {
      SmallerSet(b.published.Keys, a.published.Keys);
      SmallerSet(b.incoming.Keys, a.incoming.Keys);
    }
  }

  lemma PublishingCovers(room: map<Stamp, bool>, now: Stamp)
    ensures forall s :: Covers(room, s) ==> Covers(room[now := true], s)
    ensures Covers(room[now := true], now)
  {
    hide Newer;
    var full := room[now := true];
    assert now in full && full[now];
    forall s | Covers(room, s) ensures Covers(full, s) {
      var t :| t in room && room[t] && (t == s || Newer(t, s));
      assert t in full && full[t];
    }
  }

  lemma PrunedWithin(m: map<Stamp, bool>, keep: nat)
    ensures PrunedTo(m, keep).Keys <= m.Keys && (Dated(m) ==> Dated(PrunedTo(m, keep)))
  {
  }

  lemma RoomCovers(m: map<Stamp, bool>, keep: nat)
    requires keep >= 1 && Dated(m) && Covered(m)
    ensures forall s :: s in m ==> Covers(RoomMade(m, keep), s)
    ensures Covered(RoomMade(m, keep)) && Dated(RoomMade(m, keep))
  {
    hide Rank, Newer, Covers, PrunedTo;
    if keep >= 2 {
      PrunedWithin(m, keep - 1);
      PruneKeepsNewest(m, keep - 1, Kill(0, false));
    }
  }

  lemma CoveredAfterRoom(m: map<Stamp, bool>, now: Stamp, keep: nat)
    requires keep >= 1 && Dated(m) && Covered(m) && InRange(now)
    ensures forall s :: s in m ==> Covers(RoomMade(m, keep), s) && Covers(RoomMade(m, keep)[now := true], s)
    ensures Covered(RoomMade(m, keep)) && Covered(RoomMade(m, keep)[now := true])
    ensures Dated(RoomMade(m, keep)[now := true])
  {
    RoomCovers(m, keep);
    hide RoomMade, Covers;
    PublishingCovers(RoomMade(m, keep), now);
  }

  /** No run leaves the volume with only older or half-deleted dumps where it had a whole one, wherever it ends. */
  lemma RunKeepsNewest(a: SpoolState, now: Stamp, keep: nat, e: Ending, s: Stamp)
    requires keep >= 1 && Dated(a.published) && Covered(a.published) && InRange(now) && s in a.published
    ensures Covers(After(a, now, keep, e).published, s)
  {
    hide Rank, Newer, PrunedPart, PrunedTo, Covered;
    var room := RoomMade(a.published, keep);
    var full := room[now := true];
    CoveredAfterRoom(a.published, now, keep);
    if e.KilledPrePruning? {
      if keep >= 2 { PruneKeepsNewest(a.published, keep - 1, e.kill); } else { assert Covers(room, s); }
    } else if e.KilledPruning? || e.Finished? {
      var kill := if e.KilledPruning? then e.kill else Kill(0, false);
      PruneKeepsNewest(full, keep, kill);
      CoversTransitive(full, After(a, now, keep, e).published, s);
    } else if e.NeverStarted? || e.KilledClearing? {
      assert Covered(a.published);
      CoversOwn(a.published, s);
    }
  }

  lemma CoversOwn(m: map<Stamp, bool>, s: Stamp)
    requires Covered(m) && s in m
    ensures Covers(m, s)
  {
  }

  /**
   A directory is published whole, by a dump that finished; it is only ever spoilt by a prune, and
   never without a newer whole one beside it.
   */
  lemma {:induction false} RunPublishesFinished(a: SpoolState, now: Stamp, keep: nat, e: Ending)
    requires keep >= 1 && Covered(a.published) && Dated(a.published) && InRange(now)
    ensures var after := After(a, now, keep, e).published;
      && Covered(after) && Dated(after)
      && (forall d :: d in after ==> d in a.published || d == now)
      && (forall d :: d in after && after[d] && d != now ==> a.published[d])
      && (forall d :: d in after && !after[d] && d in a.published && a.published[d] ==>
          e.KilledPrePruning? || e.KilledPruning?)
  {
    hide Rank, Newer, Covered, Covers;
    var b := After(a, now, keep, e);
    var full := RoomMade(a.published, keep)[now := true];
    CoveredAfterRoom(a.published, now, keep);
    forall d | d in b.published ensures Covers(b.published, d) {
      if d in a.published {
        RunKeepsNewest(a, now, keep, e, d);
      } else {
        var kill := if e.KilledPruning? then e.kill else Kill(0, false);
        PruneKeepsNewest(full, keep, kill);
        CoversOwn(full, d);
      }
    }
    CoveredIs(b.published);
  }

  lemma CoveredIs(m: map<Stamp, bool>)
    requires forall d :: d in m ==> Covers(m, d)
    ensures Covered(m)
  {
  }

  /** A run that finishes keeps the dump it made, if its clock is past every older stamp. */
  lemma FinishedDumpStays(a: SpoolState, now: Stamp, keep: nat)
    requires keep >= 1 && Dated(a.published) && Covered(a.published) && InRange(now)
    requires forall s :: s in a.published ==> Newer(now, s)
    ensures var after := After(a, now, keep, Finished).published; now in after && after[now]
  {
    hide Rank, Newer;
    var full := RoomMade(a.published, keep)[now := true];
    CoveredAfterRoom(a.published, now, keep);
    PruneKeepsNewest(full, keep, Kill(0, false));
    assert Covers(PrunedTo(full, keep), now) by { assert now in full; }
    var t :| t in PrunedTo(full, keep) && PrunedTo(full, keep)[t] && (t == now || Newer(t, now));
    if t != now { NewerTotal(t, now); }
  }

  // ---- What no run takes ---------------------------------------------------

  lemma RankOfMore(m: map<Stamp, bool>, now: Stamp, s: Stamp)
    ensures Rank(m[now := true], s) <= Rank(m, s) + 1
  {
    var a, b := set t | t in m && Newer(t, s), set t | t in m[now := true] && Newer(t, s);
    assert b <= a + {now};
    SmallerSet(b, a + {now});
    assert |a + {now}| <= |a| + 1;
  }

  lemma RankOfFewer(m: map<Stamp, bool>, n: map<Stamp, bool>, s: Stamp)
    requires n.Keys <= m.Keys
    ensures Rank(n, s) <= Rank(m, s)
  {
    var a, b := set t | t in m && Newer(t, s), set t | t in n && Newer(t, s);
    SmallerSet(b, a);
  }

  /** The `keep - 1` newest dumps outlive every run, wherever it ends, and none of them is spoilt. */
  lemma {:induction false} NewestFewSurvive(a: SpoolState, now: Stamp, keep: nat, e: Ending, s: Stamp)
    requires keep >= 1 && s in a.published && Rank(a.published, s) < keep - 1
    ensures s in After(a, now, keep, e).published
    ensures a.published[s] ==> After(a, now, keep, e).published[s]
  {
    hide Rank, Newer, PrunedTo, PrunedPart;
    var room := RoomMade(a.published, keep);
    NewestKept(a.published, keep - 1, s);
    PrunedWithin(a.published, keep - 1);
    RankOfFewer(a.published, room, s);
    RankOfMore(room, now, s);
    NewestKept(room[now := true], keep, s);
  }

  lemma NewestKept(m: map<Stamp, bool>, keep: nat, s: Stamp)
    requires s in m && Rank(m, s) < keep
    ensures s in PrunedTo(m, keep) && PrunedTo(m, keep)[s] == m[s]
    ensures forall kill :: s in PrunedPart(m, keep, kill) && PrunedPart(m, keep, kill)[s] == m[s]
  {
    hide Rank;
  }

  lemma RoomCount(m: map<Stamp, bool>, keep: nat)
    requires keep >= 1 && Dated(m)
    ensures var room := RoomMade(m, keep);
      && room.Keys <= m.Keys && Dated(room)
      && |room| == if keep >= 2 && |m| > keep - 1 then keep - 1 else |m|
  {
    hide Rank, PrunedTo, Dated;
    PrunedWithin(m, keep - 1);
    if keep >= 2 { PruneLeavesFew(m, keep - 1); }
  }

  lemma OneDatedMore(m: map<Stamp, bool>, now: Stamp)
    requires Dated(m) && InRange(now) && now !in m
    ensures Dated(m[now := true]) && |m[now := true]| == |m| + 1
  {
    assert m[now := true].Keys == m.Keys + {now};
  }

  /** A run that finishes leaves as many dumps as it is to keep, or one more than it found. */
  lemma {:induction false} FinishedLeavesKeep(a: SpoolState, now: Stamp, keep: nat)
    requires keep >= 1 && Dated(a.published) && InRange(now) && now !in a.published
    ensures |After(a, now, keep, Finished).published| == if |a.published| < keep then |a.published| + 1 else keep
  {
    hide Rank, PrunedTo, RoomMade, Dated;
    RoomCount(a.published, keep);
    var room := RoomMade(a.published, keep);
    assert now !in room;
    OneDatedMore(room, now);
    PruneLeavesFew(room[now := true], keep);
  }

  /**
   What is left of dumps that were not published: nothing once the clearing is over, unless the run is
   killed with its own in hand, and then that one alone, whole exactly if `pg_dump` had finished.
   */
  lemma PartialsLeft(a: SpoolState, now: Stamp, keep: nat, e: Ending)
    ensures var left := After(a, now, keep, e).incoming;
      if e.KilledDumping? then left == map[now := false]
      else if e.KilledBeforePublish? then left == map[now := true]
      else if e.NeverStarted? then left == a.incoming
      else if e.KilledClearing? then left.Keys <= a.incoming.Keys
      else left == map[]
  {
    hide PrunedTo, PrunedPart, RoomMade;
  }

  /** Nothing is deleted by a run that gets no further than its partials, and nothing at all to make room for one. */
  lemma NothingTakenBeforeRoom(a: SpoolState, now: Stamp, keep: nat, e: Ending)
    requires e.NeverStarted? || e.KilledClearing? || (keep == 1 && !e.KilledPruning? && !e.Finished?)
    ensures forall s :: s in a.published ==> s in After(a, now, keep, e).published
  {
    hide Rank;
  }

  datatype Run = Run(now: Stamp, ending: Ending)

  function AfterRuns(a: SpoolState, keep: nat, runs: seq<Run>): SpoolState {
    if runs == [] then a
    else After(AfterRuns(a, keep, runs[..|runs| - 1]), runs[|runs| - 1].now, keep, runs[|runs| - 1].ending)
  }

  ghost predicate Sound(a: SpoolState, runs: seq<Run>) {
    Covered(a.published) && Dated(a.published) && forall i :: 0 <= i < |runs| ==> InRange(runs[i].now)
  }

  lemma {:induction false} RunsStaySound(a: SpoolState, keep: nat, runs: seq<Run>)
    requires Sound(a, runs) && keep >= 1
    ensures Covered(AfterRuns(a, keep, runs).published) && Dated(AfterRuns(a, keep, runs).published)
  {
    hide Rank, Covered, After;
    if runs != [] {
      RunsStaySound(a, keep, runs[..|runs| - 1]);
      RunPublishesFinished(AfterRuns(a, keep, runs[..|runs| - 1]), runs[|runs| - 1].now, keep, runs[|runs| - 1].ending);
    }
  }

  /** After the first run that makes room, every reachable state is within bounds, whatever the later runs do. */
  lemma {:induction false} VolumeNeverRatchets(a: SpoolState, keep: nat, runs: seq<Run>, first: nat)
    requires keep >= 2 && Sound(a, runs) && first < |runs| && MadeRoom(runs[first].ending)
    ensures Bounded(AfterRuns(a, keep, runs), keep)
  {
    hide After, Bounded;
    var n := |runs| - 1;
    if first < n { VolumeNeverRatchets(a, keep, runs[..n], first); }
    RunsStaySound(a, keep, runs[..n]);
    RunBoundsVolume(AfterRuns(a, keep, runs[..n]), runs[n].now, keep, runs[n].ending);
  }

  /** Once there is a whole dump there is always a whole one at least as new, and it is the newest there is. */
  lemma {:induction false} LastDumpIsNeverLost(a: SpoolState, keep: nat, runs: seq<Run>, s: Stamp)
    requires keep >= 1 && Sound(a, runs) && s in a.published
    ensures Covers(AfterRuns(a, keep, runs).published, s)
  {
    hide After, Newer, Covered;
    if runs == [] {
      CoversOwn(a.published, s);
    } else {
      var n := |runs| - 1;
      var before, after := AfterRuns(a, keep, runs[..n]), AfterRuns(a, keep, runs);
      LastDumpIsNeverLost(a, keep, runs[..n], s);
      RunsStaySound(a, keep, runs[..n]);
      forall r | r in before.published ensures Covers(after.published, r) {
        RunKeepsNewest(before, runs[n].now, keep, runs[n].ending, r);
      }
      CoversTransitive(before.published, after.published, s);
    }
  }

  // ---- The same in time ----------------------------------------------------

  lemma NewerIsLater(a: Stamp, b: Stamp)
    requires InRange(a) && InRange(b)
    ensures Newer(a, b) <==> Earlier(b, a)
  {
    TextOrderIsTimeOrder(b, a);
  }

  /** In time: once there is a whole dump there is always a whole one that is no earlier. */
  lemma {:induction false} NoLaterDumpIsLost(a: SpoolState, keep: nat, runs: seq<Run>, s: Stamp)
    requires keep >= 1 && Sound(a, runs) && s in a.published
    ensures var after := AfterRuns(a, keep, runs).published;
      exists t :: t in after && after[t] && (t == s || Earlier(s, t))
  {
    LastDumpIsNeverLost(a, keep, runs, s);
    RunsStaySound(a, keep, runs);
    hide AfterRuns, Newer, Covered;
    var after := AfterRuns(a, keep, runs).published;
    var t :| t in after && after[t] && (t == s || Newer(t, s));
    NewerIsLater(t, s);
  }

  /** In time: a dump with fewer than `keep - 1` later ones outlives every run, wherever it ends. */
  lemma {:induction false} LatestFewSurvive(a: SpoolState, now: Stamp, keep: nat, e: Ending, s: Stamp)
    requires Dated(a.published) && s in a.published
    requires keep >= 1 && |set t | t in a.published && Earlier(s, t)| < keep - 1
    ensures s in After(a, now, keep, e).published
    ensures a.published[s] ==> After(a, now, keep, e).published[s]
  {
    hide After, Newer;
    forall t | t in a.published ensures Newer(t, s) <==> Earlier(s, t) { NewerIsLater(t, s); }
    assert (set t | t in a.published && Newer(t, s)) == set t | t in a.published && Earlier(s, t);
    NewestFewSurvive(a, now, keep, e, s);
  }

  /**
   Keeping one is the exception: no room is made beforehand, so every run killed between
   publishing and pruning adds a dump, without limit.
   */
  lemma {:induction false} KeepOneRatchets(a: SpoolState, runs: seq<Run>)
    requires (forall i :: 0 <= i < |runs| ==> runs[i].ending == KilledAfterPublish) && FreshStamps(a, runs)
    ensures |AfterRuns(a, 1, runs).published| == |a.published| + |runs|
  {
    hide After, Rank;
    if runs != [] {
      var init, last := runs[..|runs| - 1], runs[|runs| - 1];
      assert last.ending == KilledAfterPublish;
      KeepOneRatchets(a, init);
      OneMoreDump(AfterRuns(a, 1, init), last.now);
    }
  }

  lemma OneMoreDump(a: SpoolState, now: Stamp)
    requires now !in a.published
    ensures |After(a, now, 1, KilledAfterPublish).published| == |a.published| + 1
  {
    hide Rank;
    assert a.published[now := true].Keys == a.published.Keys + {now};
  }

  /** No run reuses a stamp that is already on the volume. */
  ghost predicate FreshStamps(a: SpoolState, runs: seq<Run>) {
    runs != [] ==>
      runs[|runs| - 1].now !in AfterRuns(a, 1, runs[..|runs| - 1]).published && FreshStamps(a, runs[..|runs| - 1])
  }

  /** Every volume stays bounded from its first run that makes room on, whatever the runs. */
  ghost predicate NeverRatchets(keep: nat) {
    forall a, runs: seq<Run>, first: nat :: Sound(a, runs) && first < |runs| && MadeRoom(runs[first].ending) ==>
      Bounded(AfterRuns(a, keep, runs), keep)
  }

  function NewYear(year: nat): Stamp { Stamp(year, 1, 1, 0, 0, 0) }

  /** Keeping one, an empty volume and two runs killed between publishing and pruning are enough. */
  lemma {:induction false} TwoKillsExceedOne() returns (runs: seq<Run>)
    ensures Sound(SpoolState(map[], map[]), runs) && |runs| == 2 && MadeRoom(runs[0].ending)
    ensures !Bounded(AfterRuns(SpoolState(map[], map[]), 1, runs), 1)
  {
    var empty := SpoolState(map[], map[]);
    runs := [Run(NewYear(2025), KilledAfterPublish), Run(NewYear(2026), KilledAfterPublish)];
    hide Rank;
    var init := runs[..1];
    assert init[..0] == [] && AfterRuns(empty, 1, init[..0]) == empty;
    var one := AfterRuns(empty, 1, init);
    assert one == After(empty, NewYear(2025), 1, KilledAfterPublish);
    assert one.published == map[NewYear(2025) := true];
    OneMoreDump(one, NewYear(2026));
    OneMoreDump(empty, NewYear(2025));
  }

  /** The disk is bounded exactly if more than one dump is kept. */
  lemma {:induction false} BoundedExactlyWhen(keep: nat)
    requires keep >= 1
    ensures NeverRatchets(keep) <==> keep >= 2
  {
    hide After, AfterRuns, Bounded, Sound;
    if keep >= 2 {
      forall a, runs: seq<Run>, first: nat | Sound(a, runs) && first < |runs| && MadeRoom(runs[first].ending)
        ensures Bounded(AfterRuns(a, keep, runs), keep)
      {
        VolumeNeverRatchets(a, keep, runs, first);
      }
    } else {
      var runs := TwoKillsExceedOne();
    }
  }
}
