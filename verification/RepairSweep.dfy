/**
 The repair sweep over many ticks: how soon everything payable is paid while some rewards are
 refused for good, whatever progress writes do to the age order in between, and when refused
 rows starve the rest.
 */
module RepairSweep {
  import opened Basics
  import opened AchievementRows
  import opened Columns
  import opened Protocol
  import opened Repaying

  /** The owed rows, each with its updated_at. */
  type Owing = map<Key, nat>

  ghost function Refused(w: Owing, bad: set<Key>): nat { |w.Keys * bad| }

  ghost function Payable(w: Owing, bad: set<Key>): nat { |w.Keys - bad| }

  /** ORDER BY updated_at LIMIT 500: the oldest rows, ties in any order. */
  ghost predicate IsOldest(w: Owing, batch: set<Key>) {
    && batch <= w.Keys && |batch| == (if |w| < REPAY_BATCH then |w| else REPAY_BATCH)
    && (forall k, l :: k in batch && l in w && l !in batch ==> w[k] <= w[l])
  }

  /** Progress writes re-date the rows they touch, completed or not, and leave the others. */
  ghost predicate Redated(w: Owing, touched: set<Key>, v: Owing) {
    && v.Keys == w.Keys
    && (forall k :: k in w ==> w[k] <= v[k] && (k !in touched ==> v[k] == w[k]))
  }

  /** The rows of a batch whose reward is not refused are paid; a refused one is not written to. */
  function Swept(w: Owing, batch: set<Key>, bad: set<Key>): Owing {
    map k | k in w && !(k in batch && k !in bad) :: w[k]
  }

  /** One tick of the job: the metric passes, and whatever events did meanwhile, then the sweep. */
  ghost predicate IsTick(w: Owing, touched: set<Key>, bad: set<Key>, v: Owing) {
    exists dated, batch :: Redated(w, touched, dated) && IsOldest(dated, batch) && v == Swept(dated, batch, bad)
  }

  /** No new completions: only progress writes and sweeps. */
  ghost predicate IsHistory(ws: seq<Owing>, touched: seq<set<Key>>, bad: set<Key>) {
    |ws| == |touched| + 1 && forall i :: 0 <= i < |touched| ==> IsTick(ws[i], touched[i], bad, ws[i + 1])
  }

  // ---- How soon ------------------------------------------------------------

  lemma SubsetSmaller(a: set<Key>, b: set<Key>)
    requires a <= b
    ensures |a| <= |b| && (|a| == |b| ==> a == b)
  {
    assert b == a + (b - a);
  }

  lemma SplitBy(s: set<Key>, bad: set<Key>)
    ensures |s| == |s * bad| + |s - bad|
  {
    assert s == s * bad + (s - bad);
  }

  /** Taking the payable part of a batch out of the owed rows. */
  lemma {:induction false} BatchRoom(keys: set<Key>, batch: set<Key>, bad: set<Key>)
    requires batch <= keys && |batch| == (if |keys| < REPAY_BATCH then |keys| else REPAY_BATCH)
    ensures var rest := keys - (batch - bad);
      && |rest * bad| == |keys * bad| && |rest - bad| <= |keys - bad|
      && (|rest - bad| == 0 || |rest - bad| + REPAY_BATCH <= |keys - bad| + |keys * bad|)
  {
    var rest := keys - (batch - bad);
    assert rest * bad == keys * bad;
    assert keys - bad == (rest - bad) + (batch - bad);
    SplitBy(batch, bad);
    SubsetSmaller(batch * bad, keys * bad);
    SubsetSmaller(batch, keys);
    if |keys| < REPAY_BATCH { assert rest - bad == {}; }
  }

  /** A tick pays everything payable, or at least the room the refused rows leave in a batch. */
  lemma {:induction false} TickPaysItsRoom(w: Owing, touched: set<Key>, bad: set<Key>, v: Owing)
    requires IsTick(w, touched, bad, v)
    ensures Refused(v, bad) == Refused(w, bad) && Payable(v, bad) <= Payable(w, bad)
    ensures Payable(v, bad) == 0 || Payable(v, bad) + REPAY_BATCH <= Payable(w, bad) + Refused(w, bad)
  {
    var dated, batch :| Redated(w, touched, dated) && IsOldest(dated, batch) && v == Swept(dated, batch, bad);
    assert |dated| == |dated.Keys| && dated.Keys == w.Keys;
    assert v.Keys == w.Keys - (batch - bad);
    BatchRoom(w.Keys, batch, bad);
  }

  lemma EnoughLeft(n: nat, room: nat, before: nat, after: nat)
    requires n > 0 && n * room >= before && (after == 0 || after + room <= before)
    ensures (n - 1) * room >= after
  {
    assert (n - 1) * room == n * room - room;
  }

  lemma HistoryGoesOn(ws: seq<Owing>, touched: seq<set<Key>>, bad: set<Key>)
    requires IsHistory(ws, touched, bad) && touched != []
    ensures IsHistory(ws[1..], touched[1..], bad)
  {
    hide IsTick;
    forall i | 0 <= i < |touched[1..]| ensures IsTick(ws[1..][i], touched[1..][i], bad, ws[1..][i + 1]) {
      assert IsTick(ws[i + 1], touched[i + 1], bad, ws[i + 1 + 1]);
    }
  }

  /**
   With fewer refused rows than a batch holds, n ticks pay n times the room they leave, however
   the rows are re-dated from tick to tick.
   */
  lemma {:induction false} Drains(ws: seq<Owing>, touched: seq<set<Key>>, bad: set<Key>, n: nat)
    requires IsHistory(ws, touched, bad) && n <= |touched|
    requires Refused(ws[0], bad) < REPAY_BATCH && n * (REPAY_BATCH - Refused(ws[0], bad)) >= Payable(ws[0], bad)
    ensures Payable(ws[n], bad) == 0
  {
    DrainsRoom(ws, touched, bad, n, REPAY_BATCH - Refused(ws[0], bad));
  }

  lemma {:induction false} DrainsRoom(ws: seq<Owing>, touched: seq<set<Key>>, bad: set<Key>, n: nat, room: nat)
    requires IsHistory(ws, touched, bad) && n <= |touched|
    requires Refused(ws[0], bad) + room == REPAY_BATCH && n * room >= Payable(ws[0], bad)
    ensures Payable(ws[n], bad) == 0
    decreases n
  {
    hide Payable, Refused, IsTick;
    if n > 0 {
      assert IsTick(ws[0], touched[0], bad, ws[0 + 1]);
      TickPaysItsRoom(ws[0], touched[0], bad, ws[1]);
      EnoughLeft(n, room, Payable(ws[0], bad), Payable(ws[1], bad));
      HistoryGoesOn(ws, touched, bad);
      DrainsRoom(ws[1..], touched[1..], bad, n - 1, room);
    }
  }

  // ---- Batches ---------------------------------------------------------------

  lemma {:induction false} OldestOf(w: Owing, s: set<Key>) returns (x: Key)
    requires s <= w.Keys && s != {}
    ensures x in s && forall y :: y in s ==> w[x] <= w[y]
    decreases |s|
  {
    x :| x in s;
    if s != {x} {
      var y := OldestOf(w, s - {x});
      if w[y] < w[x] { x := y; }
    }
  }

  lemma {:induction false} OldestBatch(w: Owing, n: nat) returns (batch: set<Key>)
    requires n <= |w.Keys|
    ensures batch <= w.Keys && |batch| == n
    ensures forall k, l :: k in batch && l in w && l !in batch ==> w[k] <= w[l]
  {
    batch := {};
    if n > 0 {
      var init := OldestBatch(w, n - 1);
      SubsetSmaller(init, w.Keys);
      var x := OldestOf(w, w.Keys - init);
      batch := init + {x};
    }
  }

  lemma BatchExists(w: Owing) returns (batch: set<Key>)
    ensures IsOldest(w, batch)
  {
    assert |w| == |w.Keys|;
    batch := OldestBatch(w, if |w| < REPAY_BATCH then |w| else REPAY_BATCH);
  }

  /** Of two rows of one age either may stand in the batch for the other. */
  lemma Swap(w: Owing, batch: set<Key>, x: Key, y: Key)
    requires IsOldest(w, batch) && x in batch && y in w && y !in batch && w[x] == w[y]
    ensures IsOldest(w, batch - {x} + {y})
  {
  }

  /** A row left out of a batch leaves a full batch of rows at least as old. */
  lemma LeftOut(w: Owing, batch: set<Key>, k: Key)
    requires IsOldest(w, batch) && k in w && k !in batch
    ensures |batch| == REPAY_BATCH && forall b :: b in batch ==> w[b] <= w[k]
  {
    assert |w| == |w.Keys|;
    SubsetSmaller(batch, w.Keys);
  }

  // ---- Paid under every re-dating ----------------------------------------------

  /** Refused rows no younger than `k`: a batch may hold them in its place. */
  ghost function Ahead(w: Owing, bad: set<Key>, k: Key): set<Key>
    requires k in w
  {
    set b | b in w && b in bad && w[b] <= w[k]
  }

  /** The writes of a history re-date rows of `can` only. */
  ghost predicate Confined(touched: seq<set<Key>>, can: set<Key>) {
    forall i :: 0 <= i < |touched| ==> touched[i] <= can
  }

  /** While an untouched row with room ahead of it waits, every tick pays some other. */
  lemma {:induction false} TickNearer(w: Owing, touched: set<Key>, bad: set<Key>, v: Owing, k: Key)
    requires IsTick(w, touched, bad, v) && k in w && k !in bad && k !in touched && |Ahead(w, bad, k)| < REPAY_BATCH
    ensures k in v ==> |Ahead(v, bad, k)| < REPAY_BATCH && Payable(v, bad) < Payable(w, bad)
  {
    var dated, batch :| Redated(w, touched, dated) && IsOldest(dated, batch) && v == Swept(dated, batch, bad);
    if k in v {
      LeftOut(dated, batch, k);
      SubsetSmaller(Ahead(v, bad, k), Ahead(w, bad, k));
      if batch <= bad {
        assert batch <= Ahead(w, bad, k);
        SubsetSmaller(batch, Ahead(w, bad, k));
      }
      var x :| x in batch && x !in bad;
      SubsetSmaller(v.Keys - bad, w.Keys - bad);
      assert x in w.Keys - bad && x !in v.Keys - bad;
    }
  }

  lemma {:induction false} WaitsNoLonger(ws: seq<Owing>, touched: seq<set<Key>>, bad: set<Key>, can: set<Key>, k: Key,
                                         n: nat)
    requires IsHistory(ws, touched, bad) && Confined(touched, can) && n <= |touched|
    requires k in ws[0] && k !in bad && k !in can && |Ahead(ws[0], bad, k)| < REPAY_BATCH
    ensures k in ws[n] ==> |Ahead(ws[n], bad, k)| < REPAY_BATCH && Payable(ws[n], bad) + n <= Payable(ws[0], bad)
  {
    if n > 0 {
      WaitsNoLonger(ws, touched, bad, can, k, n - 1);
      assert IsTick(ws[n - 1], touched[n - 1], bad, ws[n - 1 + 1]) && touched[n - 1] <= can;
      TickShrinks(ws[n - 1], touched[n - 1], bad, ws[n]);
      hide IsTick, Payable, Ahead;
      if k in ws[n - 1] { TickNearer(ws[n - 1], touched[n - 1], bad, ws[n], k); }
    }
  }

  lemma TickShrinks(w: Owing, touched: set<Key>, bad: set<Key>, v: Owing)
    requires IsTick(w, touched, bad, v)
    ensures v.Keys <= w.Keys
  {
  }

  lemma PayableCounts(w: Owing, bad: set<Key>, k: Key)
    requires k in w && k !in bad
    ensures Payable(w, bad) > 0
  {
    assert k in w.Keys - bad;
  }

  /** However writes re-date rows of `can`, as many ticks as there are payable rows have paid `k`. */
  ghost predicate SurelyPaid(w: Owing, bad: set<Key>, can: set<Key>, k: Key) {
    forall ws: seq<Owing>, touched: seq<set<Key>> ::
      IsHistory(ws, touched, bad) && ws[0] == w && Confined(touched, can) && |touched| >= Payable(w, bad) ==>
      k !in ws[|touched|]
  }

  /** No write can put a full batch of refused rows in the place of `k`. */
  ghost predicate KeepsItsTurn(w: Owing, bad: set<Key>, can: set<Key>, k: Key)
    requires k in w
  {
    (k in can ==> Refused(w, bad) < REPAY_BATCH) && |Ahead(w, bad, k)| < REPAY_BATCH
  }

  lemma {:induction false} PaidInTurn(w: Owing, bad: set<Key>, can: set<Key>, k: Key, ws: seq<Owing>,
                                      touched: seq<set<Key>>)
    requires k in w && k !in bad && KeepsItsTurn(w, bad, can, k)
    requires IsHistory(ws, touched, bad) && ws[0] == w && Confined(touched, can) && |touched| >= Payable(w, bad)
    ensures k !in ws[|touched|]
  {
    var n := |touched|;
    if k in ws[n] {
      PayableCounts(ws[n], bad, k);
      hide IsTick, IsHistory, Refused, Payable, Ahead;
      if k in can {
        AtLeast(n, REPAY_BATCH - Refused(w, bad));
        Drains(ws, touched, bad, n);
      } else {
        WaitsNoLonger(ws, touched, bad, can, k, n);
      }
    }
  }

  lemma AtLeast(n: nat, room: nat)
    requires room >= 1
    ensures n * room >= n
  {
  }

  // ---- Passed over -----------------------------------------------------------

  /** With a full batch of refused rows ahead, a tick may pass over `k`. */
  lemma {:induction false} TickPast(w: Owing, touched: set<Key>, dated: Owing, bad: set<Key>, k: Key)
    returns (v: Owing)
    requires Redated(w, touched, dated) && k in w && k !in bad && |Ahead(dated, bad, k)| >= REPAY_BATCH
    ensures IsTick(w, touched, bad, v) && k in v && |Ahead(v, bad, k)| >= REPAY_BATCH
  {
    var batch := BatchExists(dated);
    if k in batch {
      if Ahead(dated, bad, k) <= batch { SubsetSmaller(Ahead(dated, bad, k) + {k}, batch); }
      var b :| b in Ahead(dated, bad, k) && b !in batch;
      Swap(dated, batch, k, b);
      batch := batch - {k} + {b};
    }
    v := Swept(dated, batch, bad);
    SubsetSmaller(Ahead(dated, bad, k), Ahead(v, bad, k));
  }

  lemma Prepend(w: Owing, first: set<Key>, ws: seq<Owing>, touched: seq<set<Key>>, bad: set<Key>)
    requires IsHistory(ws, touched, bad) && IsTick(w, first, bad, ws[0])
    ensures IsHistory([w] + ws, [first] + touched, bad)
  {
    hide IsTick;
    var vs, ts := [w] + ws, [first] + touched;
    forall i | 0 <= i < |ts| ensures IsTick(vs[i], ts[i], bad, vs[i + 1]) {
      if i > 0 { assert IsTick(ws[i - 1], touched[i - 1], bad, ws[i - 1 + 1]); }
    }
  }

  /** A re-dating that puts a full batch of refused rows ahead of `k` is enough to keep it waiting. */
  lemma {:induction false} PassedOver(w: Owing, first: set<Key>, dated: Owing, bad: set<Key>, can: set<Key>, k: Key,
                                      n: nat)
    returns (ws: seq<Owing>, touched: seq<set<Key>>)
    requires Redated(w, first, dated) && first <= can && k in w && k !in bad && |Ahead(dated, bad, k)| >= REPAY_BATCH
    ensures IsHistory(ws, touched, bad) && ws[0] == w && Confined(touched, can) && |touched| == n && k in ws[n]
    decreases n
  {
    ws, touched := [w], [];
    if n > 0 {
      var v := TickPast(w, first, dated, bad, k);
      ws, touched := PassedOver(v, {}, v, bad, can, k, n - 1);
      Prepend(w, first, ws, touched, bad);
      ws, touched := [w] + ws, [first] + touched;
    }
  }

  /** A write to `k` alone puts every refused row ahead of it. */
  lemma {:induction false} LosesItsTurn(w: Owing, bad: set<Key>, can: set<Key>, k: Key)
    returns (first: set<Key>, dated: Owing)
    requires k in w && k !in bad && !KeepsItsTurn(w, bad, can, k)
    ensures Redated(w, first, dated) && first <= can && |Ahead(dated, bad, k)| >= REPAY_BATCH
  {
    first, dated := {}, w;
    if |Ahead(w, bad, k)| < REPAY_BATCH {
      var m := Above(w.Values);
      first, dated := {k}, w[k := m];
      forall l | l in w ensures w[l] < m { assert w[l] in w.Values; }
      assert Ahead(dated, bad, k) == w.Keys * bad;
    }
  }

  /**
   A payable row is paid under every re-dating exactly if fewer than 500 refused rows are as old
   as it, and fewer than 500 rows are refused at all in case a write can re-date it.
  */
  lemma {:induction false} SurelyPaidExactlyWhen(w: Owing, bad: set<Key>, can: set<Key>, k: Key)
    requires k in w && k !in bad
    ensures SurelyPaid(w, bad, can, k) <==> KeepsItsTurn(w, bad, can, k)
  {
    if KeepsItsTurn(w, bad, can, k) {
      hide IsHistory, Payable, Confined, KeepsItsTurn;
      forall ws: seq<Owing>, touched: seq<set<Key>> |
        IsHistory(ws, touched, bad) && ws[0] == w && Confined(touched, can) && |touched| >= Payable(w, bad)
        ensures k !in ws[|touched|]
      {
        PaidInTurn(w, bad, can, k, ws, touched);
      }
    } else {
      var first, dated := LosesItsTurn(w, bad, can, k);
      hide IsHistory, Payable, Confined, KeepsItsTurn, Redated, Ahead;
      var ws, touched := PassedOver(w, first, dated, bad, can, k, Payable(w, bad));
    }
  }

  /** Every history of at least as many ticks as there are payable rows has paid them all. */
  ghost predicate AlwaysDrains(w: Owing, bad: set<Key>, can: set<Key>) {
    forall ws: seq<Owing>, touched: seq<set<Key>> ::
      IsHistory(ws, touched, bad) && ws[0] == w && Confined(touched, can) && |touched| >= Payable(w, bad) ==>
      Payable(ws[|touched|], bad) == 0
  }

  /** Everything payable gets paid under every re-dating exactly if no payable row can lose its turn. */
  lemma {:induction false} DrainsExactlyWhen(w: Owing, bad: set<Key>, can: set<Key>)
    ensures AlwaysDrains(w, bad, can) <==> forall k :: k in w && k !in bad ==> KeepsItsTurn(w, bad, can, k)
  {
    forall k | k in w && k !in bad ensures SurelyPaid(w, bad, can, k) <==> KeepsItsTurn(w, bad, can, k) {
      SurelyPaidExactlyWhen(w, bad, can, k);
    }
    DrainsRowByRow(w, bad, can);
  }

  lemma {:induction false} DrainsRowByRow(w: Owing, bad: set<Key>, can: set<Key>)
    ensures AlwaysDrains(w, bad, can) <==> forall k :: k in w && k !in bad ==> SurelyPaid(w, bad, can, k)
  {
    if AlwaysDrains(w, bad, can) {
      forall k | k in w && k !in bad ensures SurelyPaid(w, bad, can, k) {
        forall ws: seq<Owing>, touched: seq<set<Key>> |
          IsHistory(ws, touched, bad) && ws[0] == w && Confined(touched, can) && |touched| >= Payable(w, bad)
          ensures k !in ws[|touched|]
        {
          hide IsHistory, Confined;
          assert k !in ws[|touched|].Keys - bad;
        }
      }
    } else {
      var ws: seq<Owing>, touched: seq<set<Key>> :|
          IsHistory(ws, touched, bad) && ws[0] == w && Confined(touched, can) &&
          |touched| >= Payable(w, bad) && Payable(ws[|touched|], bad) != 0;
      var k :| k in ws[|touched|].Keys - bad;
      KeysShrink(ws, touched, bad, |touched|);
      hide IsHistory, Confined;
      assert !SurelyPaid(w, bad, can, k);
    }
  }

  lemma {:induction false} KeysShrink(ws: seq<Owing>, touched: seq<set<Key>>, bad: set<Key>, n: nat)
    requires IsHistory(ws, touched, bad) && n <= |touched|
    ensures ws[n].Keys <= ws[0].Keys
  {
    hide IsTick;
    if n > 0 {
      KeysShrink(ws, touched, bad, n - 1);
      assert IsTick(ws[n - 1], touched[n - 1], bad, ws[n - 1 + 1]);
      TickShrinks(ws[n - 1], touched[n - 1], bad, ws[n]);
    }
  }

  // ---- Starved under every re-dating --------------------------------------------

  /** Refused rows older than `k` that no write re-dates. */
  ghost function Wall(w: Owing, bad: set<Key>, can: set<Key>, k: Key): set<Key>
    requires k in w
  {
    set b | b in w && b in bad && b !in can && w[b] < w[k]
  }

  /** However writes re-date rows of `can`, and for however long, `k` is never paid. */
  ghost predicate NeverPaid(w: Owing, bad: set<Key>, can: set<Key>, k: Key) {
    forall ws: seq<Owing>, touched: seq<set<Key>> ::
      IsHistory(ws, touched, bad) && ws[0] == w && Confined(touched, can) ==> k in ws[|touched|]
  }

  lemma {:induction false} CrowdedOut(w: Owing, batch: set<Key>, older: set<Key>, k: Key)
    requires IsOldest(w, batch) && k in w && |older| >= REPAY_BATCH
    requires forall b :: b in older ==> b in w && w[b] < w[k]
    ensures k !in batch
  {
    if k in batch {
      assert older <= batch;
      SubsetSmaller(older + {k}, batch);
    }
  }

  /** Behind a full batch of them a row is not tried, and the wall stands. */
  lemma {:induction false} WalledTick(w: Owing, touched: set<Key>, bad: set<Key>, can: set<Key>, v: Owing, k: Key)
    requires IsTick(w, touched, bad, v) && touched <= can
    requires k in w && k !in bad && |Wall(w, bad, can, k)| >= REPAY_BATCH
    ensures k in v && |Wall(v, bad, can, k)| >= REPAY_BATCH
  {
    var dated, batch :| Redated(w, touched, dated) && IsOldest(dated, batch) && v == Swept(dated, batch, bad);
    var wall := Wall(w, bad, can, k);
    CrowdedOut(dated, batch, wall, k);
    assert v[k] == dated[k] >= w[k];
    forall b | b in wall ensures b in Wall(v, bad, can, k) {
      assert v[b] == dated[b] == w[b];
    }
    SubsetSmaller(wall, Wall(v, bad, can, k));
  }

  lemma {:induction false} StaysWalled(ws: seq<Owing>, touched: seq<set<Key>>, bad: set<Key>, can: set<Key>, k: Key,
                                       n: nat)
    requires IsHistory(ws, touched, bad) && Confined(touched, can) && n <= |touched|
    requires k in ws[0] && k !in bad && |Wall(ws[0], bad, can, k)| >= REPAY_BATCH
    ensures k in ws[n] && |Wall(ws[n], bad, can, k)| >= REPAY_BATCH
  {
    hide IsTick, Wall;
    if n > 0 {
      StaysWalled(ws, touched, bad, can, k, n - 1);
      assert IsTick(ws[n - 1], touched[n - 1], bad, ws[n - 1 + 1]);
      WalledTick(ws[n - 1], touched[n - 1], bad, can, ws[n], k);
    }
  }

  /** Refused rows older than `k`. */
  ghost function Older(w: Owing, bad: set<Key>, k: Key): set<Key>
    requires k in w
  {
    set b | b in w && b in bad && w[b] < w[k]
  }

  /** With fewer than a batch of them a tick may pay `k`, or else pays something older. */
  lemma {:induction false} TickToward(w: Owing, touched: set<Key>, dated: Owing, bad: set<Key>, k: Key)
    returns (v: Owing)
    requires Redated(w, touched, dated) && k in w && k !in bad && |Older(dated, bad, k)| < REPAY_BATCH
    ensures IsTick(w, touched, bad, v)
    ensures k in v ==> |Older(v, bad, k)| < REPAY_BATCH && Payable(v, bad) < Payable(w, bad)
  {
    var batch := BatchExists(dated);
    if k !in batch {
      LeftOut(dated, batch, k);
      if batch <= Older(dated, bad, k) { SubsetSmaller(batch, Older(dated, bad, k)); }
      if x :| x in batch && dated[x] == dated[k] {
        Swap(dated, batch, x, k);
        batch := batch - {x} + {k};
      } else {
        var x :| x in batch && x !in Older(dated, bad, k);
        v := Swept(dated, batch, bad);
        SubsetSmaller(Older(v, bad, k), Older(dated, bad, k));
        SubsetSmaller(v.Keys - bad, w.Keys - bad);
        assert x in w.Keys - bad && x !in v.Keys - bad;
        return;
      }
    }
    v := Swept(dated, batch, bad);
  }

  lemma {:induction false} Reaches(w: Owing, first: set<Key>, dated: Owing, bad: set<Key>, can: set<Key>, k: Key)
    returns (ws: seq<Owing>, touched: seq<set<Key>>)
    requires Redated(w, first, dated) && first <= can && k in w && k !in bad && |Older(dated, bad, k)| < REPAY_BATCH
    ensures IsHistory(ws, touched, bad) && ws[0] == w && Confined(touched, can) && k !in ws[|touched|]
    decreases Payable(w, bad)
  {
    hide IsTick, Payable;
    var v := TickToward(w, first, dated, bad, k);
    ws, touched := [v], [];
    hide Redated;
    if k in v { ws, touched := Reaches(v, {}, v, bad, can, k); }
    Prepend(w, first, ws, touched, bad);
    ws, touched := [w] + ws, [first] + touched;
  }

  /** Writing to every other row of `can` leaves only the wall before `k`. */
  lemma {:induction false} ClearsTheWay(w: Owing, bad: set<Key>, can: set<Key>, k: Key)
    returns (first: set<Key>, dated: Owing)
    requires k in w && k !in bad
    ensures Redated(w, first, dated) && first <= can && Older(dated, bad, k) == Wall(w, bad, can, k)
  {
    var m := Above(w.Values);
    first := can - {k};
    dated := map l | l in w :: if l in first then m else w[l];
    forall l | l in w ensures w[l] < m { assert w[l] in w.Values; }
  }

  /**
   A payable row is never paid, whatever the re-datings, exactly behind 500 older refused rows
   out of reach of writes.
  */
  lemma {:induction false} NeverPaidExactlyWhen(w: Owing, bad: set<Key>, can: set<Key>, k: Key)
    requires k in w && k !in bad
    ensures NeverPaid(w, bad, can, k) <==> |Wall(w, bad, can, k)| >= REPAY_BATCH
  {
    if |Wall(w, bad, can, k)| >= REPAY_BATCH {
      hide IsHistory, Confined, Wall;
      forall ws: seq<Owing>, touched: seq<set<Key>> |
        IsHistory(ws, touched, bad) && ws[0] == w && Confined(touched, can)
        ensures k in ws[|touched|]
      {
        StaysWalled(ws, touched, bad, can, k, |touched|);
      }
    } else {
      var first, dated := ClearsTheWay(w, bad, can, k);
      hide IsHistory, Confined, Wall, Older, Redated;
      var ws, touched := Reaches(w, first, dated, bad, can, k);
    }
  }

  // ---- The tables ------------------------------------------------------

  /** `w` holds the owed rows of the tables. */
  ghost predicate IsOwing(b: Book, w: Owing) { w.Keys == UnpaidKeys(b.defs, b.rows) }

  function Elements(ks: seq<Key>): set<Key> { set k | k in ks }

  lemma {:induction false} ElementsCount(ks: seq<Key>)
    requires forall i, j :: 0 <= i < j < |ks| ==> ks[i] != ks[j]
    ensures |Elements(ks)| == |ks|
  {
    if ks != [] {
      ElementsCount(ks[1..]);
      assert Elements(ks) == {ks[0]} + Elements(ks[1..]);
    }
  }

  lemma OwedHasRow(defs: Defs, rows: Rows)
    ensures forall k :: k in UnpaidKeys(defs, rows) <==> Owed(defs, rows, k)
  {
  }

  lemma OldestIsBatch(b: Book, w: Owing, batch: seq<Key>)
    requires IsOwing(b, w) && IsOldest(w, Elements(batch))
    requires forall i, j :: 0 <= i < j < |batch| ==> batch[i] != batch[j]
    ensures IsBatch(b, batch)
  {
    ElementsCount(batch);
    OwedHasRow(b.defs, b.rows);
    SubsetSmaller(Elements(batch), w.Keys);
    assert |w| == |w.Keys|;
    hide Owed;
    forall i | 0 <= i < |batch| ensures Owed(b.defs, b.rows, batch[i]) {
      assert batch[i] in Elements(batch);
    }
    forall k | k in b.rows && Owed(b.defs, b.rows, k) && |batch| < REPAY_BATCH ensures k in batch {
      assert k in UnpaidKeys(b.defs, b.rows);
      assert k in Elements(batch);
    }
  }

  lemma OwedByRow(defs: Defs, a: Rows, b: Rows, k: Key)
    requires RowOf(a, k) == RowOf(b, k)
    ensures Owed(defs, a, k) <==> Owed(defs, b, k)
  {
  }

  /** What is owed of a row once the sweep is through with it. */
  lemma {:induction false} OwedAfter(b: Book, c: Book, batch: seq<Key>, refused: set<Key>, unstamped: set<Key>, k: Key)
    requires SweepLeaves(b, c, batch, refused, unstamped)
    ensures k !in unstamped ==>
      (Owed(c.defs, c.rows, k) <==> Owed(b.defs, b.rows, k) && (k in batch ==> k in refused))
    ensures Owed(c.defs, c.rows, k) ==> Owed(b.defs, b.rows, k)
  {
    assert RowLeft(b, c, k, k in batch && k !in refused, k in unstamped);
    hide DueGrant, DueOf;
    if RowOf(c.rows, k) == RowOf(b.rows, k) { OwedByRow(b.defs, b.rows, c.rows, k); }
  }

  /**
   The loop's own account of a batch, in terms of the owed rows: what it leaves owed lies between
   the table with the refused rows of the batch unpaid and the one with those of a failed stamp
   unpaid as well; with every stamp written it is the swept table.
   */
  lemma {:induction false} SweepMovesTheTable(b: Book, c: Book, w: Owing, batch: seq<Key>, refused: set<Key>,
                                              unstamped: set<Key>)
    requires IsOwing(b, w) && SweepLeaves(b, c, batch, refused, unstamped)
    ensures var all := Elements(batch);
      && Swept(w, all, refused).Keys <= UnpaidKeys(c.defs, c.rows) <= Swept(w, all, refused + unstamped).Keys
      && (unstamped == {} ==> IsOwing(c, Swept(w, all, refused)))
      && forall bad :: refused == all * bad ==> Swept(w, all, refused) == Swept(w, all, bad)
  {
    OwedHasRow(b.defs, b.rows);
    OwedHasRow(c.defs, c.rows);
    assert forall k :: k in batch <==> k in Elements(batch);
    forall k
      ensures k !in unstamped ==>
        (Owed(c.defs, c.rows, k) <==> Owed(b.defs, b.rows, k) && (k in batch ==> k in refused))
      ensures Owed(c.defs, c.rows, k) ==> Owed(b.defs, b.rows, k)
    {
      OwedAfter(b, c, batch, refused, unstamped, k);
    }
    assert forall k :: k in refused || k in unstamped ==> k in batch;
    hide SweepLeaves, Owed;
    assert forall k :: k in w <==> Owed(b.defs, b.rows, k);
    forall k | k in Swept(w, Elements(batch), refused) ensures k in UnpaidKeys(c.defs, c.rows) {
      assert k !in batch || k in refused;
    }
    forall k | k in UnpaidKeys(c.defs, c.rows) ensures k in Swept(w, Elements(batch), refused + unstamped) {
    }
  }

  // ---- Which rows a write can reach ------------------------------------------

  /** The owed rows a progress write may re-date, `names` being the countable events and the counters of the site. */
  ghost function Reachable(b: Book, names: set<Bytes>, w: Owing): set<Key> {
    set k | k in w && Countable(b.defs, names, k)
  }

  /** Everything payable in the tables gets paid exactly if no progress write can cost a row its turn. */
  lemma {:induction false} TablesDrainExactlyWhen(b: Book, w: Owing, bad: set<Key>, names: set<Bytes>)
    requires IsOwing(b, w)
    ensures AlwaysDrains(w, bad, Reachable(b, names, w)) <==>
      forall k :: Owed(b.defs, b.rows, k) && k !in bad ==>
        && (Countable(b.defs, names, k) ==> Refused(w, bad) < REPAY_BATCH)
        && k in w && |Ahead(w, bad, k)| < REPAY_BATCH
  {
    DrainsExactlyWhen(w, bad, Reachable(b, names, w));
    OwedHasRow(b.defs, b.rows);
    forall k ensures Owed(b.defs, b.rows, k) <==> k in w {
    }
    hide AlwaysDrains, Owed, Countable;
  }

  // ---- Two tables ------------------------------------------------------------

  const EVENT: Bytes := [7]
  const BADGE := Def(1, [1], [8], [], 0, [3], true, None)
  const MILESTONE := Def(1, [1], [8], EVENT, 1, [], true, None)
  const PRIZE := Def(2, [2], [9], [], 0, [4], true, None)
  const PRIZE_ROW := Key(2, 1)
  const DONE := Row(1, 1, Some(1), None)

  /** The first `n` members' rows of achievement 1. */
  function Front(n: nat): set<Key> { if n == 0 then {} else Front(n - 1) + {Key(1, n)} }

  lemma {:induction false} FrontHolds(n: nat)
    ensures |Front(n)| == n && forall k :: k in Front(n) <==> k.achievement == 1 && 1 <= k.user <= n
  {
    if n > 0 { FrontHolds(n - 1); }
  }

  /** `m` members are owed a reward for achievement 1 that is refused, and one a payable prize of age `age`. */
  function RowsOf(m: nat): Rows { (map k | k in Front(m) :: DONE)[PRIZE_ROW := DONE] }

  function AgesOf(m: nat, age: nat): Owing { (map k | k in Front(m) :: k.user)[PRIZE_ROW := age] }

  function Tables(first: Def, m: nat): Book { Book(map[1 := first, 2 := PRIZE], RowsOf(m), {}, {}, {}, {}) }

  lemma {:induction false} TablesOwe(first: Def, m: nat, age: nat)
    requires first.reward != []
    ensures IsOwing(Tables(first, m), AgesOf(m, age)) && PRIZE_ROW !in Front(m)
    ensures AgesOf(m, age).Keys == Front(m) + {PRIZE_ROW}
  {
    FrontHolds(m);
    hide Front;
    var b := Tables(first, m);
    OwedHasRow(b.defs, b.rows);
    forall k ensures k in AgesOf(m, age) <==> Owed(b.defs, b.rows, k) {
    }
  }

  /** Behind 500 refused trigger badges, which no progress write reaches, a younger prize is never paid. */
  lemma {:induction false} TriggerBadgesStarve(m: nat, names: set<Bytes>)
    requires m >= REPAY_BATCH && [] !in names
    ensures var b, w := Tables(BADGE, m), AgesOf(m, m + 1);
      IsOwing(b, w) && NeverPaid(w, Front(m), Reachable(b, names, w), PRIZE_ROW)
  {
    var b, w := Tables(BADGE, m), AgesOf(m, m + 1);
    TablesOwe(BADGE, m, m + 1);
    FrontHolds(m);
    hide Front;
    var can := Reachable(b, names, w);
    SubsetSmaller(Front(m), Wall(w, Front(m), can, PRIZE_ROW));
    hide AgesOf, RowsOf, IsOwing, NeverPaid, Wall;
    NeverPaidExactlyWhen(w, Front(m), can, PRIZE_ROW);
  }

  /**
   Any number of refused milestones, re-dated as writes please, cannot keep an older prize from
   being paid, because no write reaches it; if one could, 500 of them would be enough.
   */
  lemma {:induction false} OlderPrizeIsPaid(m: nat, names: set<Bytes>)
    requires m >= REPAY_BATCH && [] !in names
    ensures var b, w := Tables(MILESTONE, m), AgesOf(m, 0);
      && IsOwing(b, w) && AlwaysDrains(w, Front(m), Reachable(b, names, w)) && !AlwaysDrains(w, Front(m), w.Keys)
  {
    var b, w := Tables(MILESTONE, m), AgesOf(m, 0);
    TablesOwe(MILESTONE, m, 0);
    FrontHolds(m);
    hide Front;
    var can := Reachable(b, names, w);
    assert Ahead(w, Front(m), PRIZE_ROW) == {};
    assert PRIZE_ROW !in can;
    assert w.Keys * Front(m) == Front(m);
    hide AgesOf, RowsOf, IsOwing, AlwaysDrains, Ahead;
    DrainsExactlyWhen(w, Front(m), can);
    DrainsExactlyWhen(w, Front(m), w.Keys);
  }
}
