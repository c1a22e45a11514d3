/** Asset classes of backup/inventory.go: their indexing order and the shrink gate. */
module Classes {
  import opened Basics
  import opened Inventory

  /** `dir` is where the class is walked; lower `order` is indexed and served earlier. */
  datatype AssetClass = AssetClass(slug: Bytes, dir: Bytes, order: int, rotates: bool)

  predicate HasSlug(cs: seq<AssetClass>, slug: Bytes) { exists c :: 0 <= c < |cs| && cs[c].slug == slug }

  ghost predicate DistinctSlugs(cs: seq<AssetClass>) {
    forall i, j :: 0 <= i < j < |cs| ==> cs[i].slug != cs[j].slug
  }

  lemma SlugStep(cs: seq<AssetClass>, i: nat, s: Bytes)
    requires i < |cs|
    ensures HasSlug(cs[..i + 1], s) <==> HasSlug(cs[..i], s) || cs[i].slug == s
  {
    var a, b := cs[..i], cs[..i + 1];
    if c :| 0 <= c < |a| && a[c].slug == s { assert b[c].slug == s; }
    if cs[i].slug == s { assert b[i].slug == s; }
    if c :| 0 <= c < |b| && b[c].slug == s { assert c < i ==> a[c].slug == s; }
  }

  predicate Before(a: AssetClass, b: AssetClass) {
    if a.order != b.order then a.order < b.order else Less(a.slug, b.slug)
  }

  /** One step of a stable sort: after everything that is not greater. */
  function Place(c: AssetClass, cs: seq<AssetClass>): seq<AssetClass> {
    if cs == [] || Before(c, cs[0]) then [c] + cs else [cs[0]] + Place(c, cs[1..])
  }

  /** sort.SliceStable by order, then slug. */
  function OrderedClasses(cs: seq<AssetClass>): seq<AssetClass> {
    if cs == [] then [] else Place(cs[|cs| - 1], OrderedClasses(cs[..|cs| - 1]))
  }

  ghost predicate InOrder(cs: seq<AssetClass>) {
    forall i, j :: 0 <= i < j < |cs| ==> !Before(cs[j], cs[i])
  }

  lemma BeforeTransitive(a: AssetClass, b: AssetClass, c: AssetClass)
    requires !Before(b, a) && !Before(c, b)
    ensures !Before(c, a)
  {
    if a.order == b.order == c.order {
      LessTotal(b.slug, a.slug);
      LessTotal(c.slug, b.slug);
      LessNegTransitive(c.slug, b.slug, a.slug);
    }
  }

  lemma {:induction false} PlaceContent(c: AssetClass, cs: seq<AssetClass>)
    ensures multiset(Place(c, cs)) == multiset(cs) + multiset{c}
    ensures forall x :: x in Place(c, cs) ==> x == c || x in cs
  {
    if cs != [] && !Before(c, cs[0]) {
      PlaceContent(c, cs[1..]);
      assert cs == [cs[0]] + cs[1..];
    }
  }

  lemma {:induction false} PlaceKeepsOrder(c: AssetClass, cs: seq<AssetClass>)
    requires InOrder(cs)
    ensures InOrder(Place(c, cs))
  {
    if cs != [] {
      if Before(c, cs[0]) {
        forall j | 0 <= j < |cs| ensures !Before(cs[j], c) {
          if c.order == cs[0].order { LessAsymmetric(c.slug, cs[0].slug); }
          if j > 0 { BeforeTransitive(c, cs[0], cs[j]); }
        }
      } else {
        var t := Place(c, cs[1..]);
        PlaceKeepsOrder(c, cs[1..]);
        PlaceContent(c, cs[1..]);
        forall j | 0 <= j < |t| ensures !Before(t[j], cs[0]) {
          assert t[j] in t;
          if t[j] != c {
            var k :| 0 <= k < |cs[1..]| && cs[1..][k] == t[j];
            assert cs[k + 1] == t[j];
          }
        }
      }
    }
  }

  /** The order is a permutation of the declared classes, cheapest first. */
  lemma {:induction false} OrderedClassesOrders(cs: seq<AssetClass>)
    ensures InOrder(OrderedClasses(cs)) && multiset(OrderedClasses(cs)) == multiset(cs)
  {
    if cs != [] {
      OrderedClassesOrders(cs[..|cs| - 1]);
      PlaceKeepsOrder(cs[|cs| - 1], OrderedClasses(cs[..|cs| - 1]));
      PlaceContent(cs[|cs| - 1], OrderedClasses(cs[..|cs| - 1]));
      assert cs == cs[..|cs| - 1] + [cs[|cs| - 1]];
    }
  }

  /** In the numbers themselves: a lower order comes first, and within one order the slug that sorts lower. */
  lemma LowerOrderFirst(cs: seq<AssetClass>, i: nat, j: nat)
    requires i < j < |OrderedClasses(cs)|
    ensures var a, b := OrderedClasses(cs)[i], OrderedClasses(cs)[j];
      a.order <= b.order && (a.order == b.order ==> a.slug == b.slug || Less(a.slug, b.slug))
  {
    OrderedClassesOrders(cs);
    hide OrderedClasses;
    var a, b := OrderedClasses(cs)[i], OrderedClasses(cs)[j];
    assert !Before(b, a);
    LessTotal(a.slug, b.slug);
  }

  lemma {:induction false} DistinctCount(cs: seq<AssetClass>, c: AssetClass)
    requires DistinctSlugs(cs)
    ensures multiset(cs)[c] <= 1
  {
    if cs != [] {
      var init, last := cs[..|cs| - 1], cs[|cs| - 1];
      assert cs == init + [last];
      DistinctCount(init, c);
      if c == last { assert c !in init; }
    }
  }

  lemma {:induction false} CountTwice(cs: seq<AssetClass>, i: nat, j: nat)
    requires i < j < |cs| && cs[i] == cs[j]
    ensures multiset(cs)[cs[i]] >= 2
  {
    var a, b := cs[..j], cs[j..];
    assert cs == a + b && a[i] == cs[i] && b[0] == cs[i];
    assert cs[i] in a && cs[i] in b;
  }

  lemma {:induction false} OrderedStayDistinct(cs: seq<AssetClass>)
    requires DistinctSlugs(cs)
    ensures DistinctSlugs(OrderedClasses(cs)) && forall c :: c in OrderedClasses(cs) <==> c in cs
  {
    var out := OrderedClasses(cs);
    OrderedClassesOrders(cs);
    hide OrderedClasses, InOrder;
    forall c ensures c in out <==> c in cs {
      assert c in multiset(out) <==> c in multiset(cs);
    }
    forall i, j | 0 <= i < j < |out| ensures out[i].slug != out[j].slug {
      if out[i].slug == out[j].slug {
        assert out[i] in cs && out[j] in cs;
        CountTwice(out, i, j);
        DistinctCount(cs, out[i]);
      }
    }
  }

  // ---- The shrink gate --------------------------------------------------

  /** The percentage above which a loss is reported, compared exactly instead of in floating point. */
  const MAX_CLASS_SHRINK_PCT := 10

  function FilesOf(totals: map<Bytes, ClassTotal>, cls: Bytes): nat { if cls in totals then totals[cls].files else 0 }

  /** A loss the gate must report: everything of a rotating class, over ten percent of any other. */
  predicate Shrank(was: nat, now: nat, rotating: bool) {
    was > 0 && now < was && (if rotating then now == 0 else 100 * (was - now) > MAX_CLASS_SHRINK_PCT * was)
  }

  /** No false alarms and no missed ones: all of a rotating class is gone, or of another under nine tenths is left. */
  lemma ReportedExactlyWhen(was: nat, now: nat)
    ensures Shrank(was, now, true) <==> was > 0 && now == 0
    ensures Shrank(was, now, false) <==> 10 * now < 9 * was
  {
  }

  datatype ShrinkReport = ShrinkReport(cls: Bytes, was: nat, now: nat, pct: real)

  /** The loss in percent. */
  function Dropped(was: nat, now: nat): real
    requires was > 0
  {
    100.0 * (was as real - now as real) / was as real
  }

  lemma DroppedOver(was: nat, now: nat)
    requires was > 0 && now <= was
    ensures Dropped(was, now) > MAX_CLASS_SHRINK_PCT as real <==> 100 * (was - now) > MAX_CLASS_SHRINK_PCT * was
    ensures now == 0 ==> Dropped(was, now) == 100.0
  {
    Quotient(100.0 * (was as real - now as real), was as real, MAX_CLASS_SHRINK_PCT as real);
    InReals(was, now);
    hide Dropped;
    if now == 0 { Whole(was); }
  }

  lemma Whole(was: nat)
    requires was > 0
    ensures Dropped(was, 0) == 100.0
  {
    assert 100.0 * (was as real - 0 as real) == 100.0 * was as real;
  }

  lemma InReals(was: nat, now: nat)
    ensures 100.0 * (was as real - now as real) == (100 * (was - now)) as real
    ensures MAX_CLASS_SHRINK_PCT as real * was as real == (MAX_CLASS_SHRINK_PCT * was) as real
  {
  }

  lemma Quotient(a: real, b: real, c: real)
    requires b > 0.0
    ensures a / b > c <==> a > c * b
  {
    assert a / b * b == a;
  }

  ghost predicate WorstFirst(rs: seq<ShrinkReport>) {
    && (forall i, j :: 0 <= i < j < |rs| ==> rs[i].pct >= rs[j].pct)
    && (forall i, j :: 0 <= i < j < |rs| ==> rs[i].cls != rs[j].cls)
  }

  /** The report is the class's own loss, and a loss to report. */
  ghost predicate IsReport(r: ShrinkReport, prev: map<Bytes, ClassTotal>, cur: map<Bytes, ClassTotal>,
                           rotating: set<Bytes>) {
    && r.cls in prev && r.was == prev[r.cls].files && r.now == FilesOf(cur, r.cls)
    && Shrank(r.was, r.now, r.cls in rotating) && r.was > 0 && r.pct == Dropped(r.was, r.now)
  }

  method InsertByLoss(rs: seq<ShrinkReport>, r: ShrinkReport) returns (out: seq<ShrinkReport>)
    requires WorstFirst(rs) && forall x :: x in rs ==> x.cls != r.cls
    ensures WorstFirst(out) && forall x :: x in out <==> x == r || x in rs
  {
    var i := 0;
    while i < |rs| && rs[i].pct > r.pct
      invariant i <= |rs| && forall j :: 0 <= j < i ==> rs[j].pct > r.pct
    {
      i := i + 1;
    }
    out := InsertAt(rs, i, r);
    InsertedByLoss(rs, r, i);
  }

  lemma InsertedByLoss(rs: seq<ShrinkReport>, r: ShrinkReport, i: nat)
    requires WorstFirst(rs) && i <= |rs| && forall x :: x in rs ==> x.cls != r.cls
    requires (forall j :: 0 <= j < i ==> rs[j].pct >= r.pct) && (i < |rs| ==> rs[i].pct <= r.pct)
    ensures WorstFirst(InsertAt(rs, i, r)) && forall x :: x in InsertAt(rs, i, r) <==> x == r || x in rs
  {
    var out := InsertAt(rs, i, r);
    InsertAtIndex(rs, i, r);
    hide InsertAt;
    forall a, b | 0 <= a < b < |out| ensures out[a].pct >= out[b].pct && out[a].cls != out[b].cls {
      if a < i && b > i {
        assert rs[a].pct >= rs[b - 1].pct && rs[a].cls != rs[b - 1].cls;
      } else if a > i {
        assert rs[a - 1].pct >= rs[b - 1].pct && rs[a - 1].cls != rs[b - 1].cls;
      } else if b < i {
        assert rs[a].pct >= rs[b].pct && rs[a].cls != rs[b].cls;
      } else if a == i {
        assert rs[b - 1] in rs && rs[i].pct >= rs[b - 1].pct;
      } else {
        assert rs[a] in rs;
      }
    }
  }

  /** Every loss to report, once, the worst first. */
  method DetectShrink(prev: map<Bytes, ClassTotal>, cur: map<Bytes, ClassTotal>, rotating: set<Bytes>)
    returns (out: seq<ShrinkReport>)
    ensures WorstFirst(out) && forall r :: r in out ==> IsReport(r, prev, cur, rotating)
    ensures forall c :: c in prev && Shrank(prev[c].files, FilesOf(cur, c), c in rotating) ==>
      exists r :: r in out && r.cls == c
    ensures forall c :: (exists r :: r in out && r.cls == c) <==>
      c in prev && var now := if c in cur then cur[c].files else 0;
        if c in rotating then prev[c].files > 0 && now == 0 else 10 * now < 9 * prev[c].files
  {
    out := [];
    var rest := prev.Keys;
    while rest != {}
      invariant rest <= prev.Keys && WorstFirst(out)
      invariant forall r :: r in out ==> r.cls !in rest && IsReport(r, prev, cur, rotating)
      invariant forall c :: c in prev && c !in rest && Shrank(prev[c].files, FilesOf(cur, c), c in rotating) ==>
        exists r :: r in out && r.cls == c
      decreases rest
    {
      var c :| c in rest;
      var was, now := prev[c].files, FilesOf(cur, c);
      ghost var before := out;
      rest := rest - {c};
      if was != 0 && now < was {
        var dropped := Dropped(was, now);
        DroppedOver(was, now);
        hide Dropped;
        if c in rotating {
          if now == 0 { out := InsertByLoss(out, ShrinkReport(c, was, 0, 100.0)); }
        } else if dropped > MAX_CLASS_SHRINK_PCT as real {
          out := InsertByLoss(out, ShrinkReport(c, was, now, dropped));
        }
        assert Shrank(was, now, c in rotating) ==> exists r :: r in out && r.cls == c;
      }
      assert forall r :: r in before ==> r in out;
    }
    ReportsExactly(out, prev, cur, rotating);
  }

  lemma ReportsExactly(out: seq<ShrinkReport>, prev: map<Bytes, ClassTotal>, cur: map<Bytes, ClassTotal>,
                       rotating: set<Bytes>)
    requires forall r :: r in out ==> IsReport(r, prev, cur, rotating)
    requires forall c :: c in prev && Shrank(prev[c].files, FilesOf(cur, c), c in rotating) ==>
      exists r :: r in out && r.cls == c
    ensures forall c :: (exists r :: r in out && r.cls == c) <==>
      c in prev && var now := if c in cur then cur[c].files else 0;
        if c in rotating then prev[c].files > 0 && now == 0 else 10 * now < 9 * prev[c].files
  {
    forall c
      ensures (exists r :: r in out && r.cls == c) <==>
        c in prev && Shrank(prev[c].files, FilesOf(cur, c), c in rotating)
    {
    }
  }

  function Pow(b: nat, k: nat): nat { if k == 0 then 1 else b * Pow(b, k - 1) }

  /** Every step of `counts` passed the gate. */
  ghost predicate NeverReported(counts: seq<nat>, rotating: bool) {
    forall i :: 0 <= i < |counts| - 1 ==> !Shrank(counts[i], counts[i + 1], rotating)
  }

  /** After k passes without a report a class still holds at least (9/10)^k of its files. */
  lemma {:induction false} BoundedSilentLoss(counts: seq<nat>)
    requires counts != [] && NeverReported(counts, false)
    ensures var k := |counts| - 1; Pow(10, k) * counts[k] >= Pow(9, k) * counts[0]
  {
    var k := |counts| - 1;
    if k > 0 {
      BoundedSilentLoss(counts[..k]);
      assert !Shrank(counts[k - 1], counts[k - 1 + 1], false);
      LossStep(Pow(10, k - 1), Pow(9, k - 1), counts[0], counts[k - 1], counts[k]);
    }
  }

  lemma LossStep(p10: nat, p9: nat, first: nat, was: nat, now: nat)
    requires p10 * was >= p9 * first && 10 * now >= 9 * was
    ensures 10 * p10 * now >= 9 * p9 * first
  {
    Times(p10, 9 * was, 10 * now);
    Reassociate(10, p10, now);
    Reassociate(9, p10, was);
    Reassociate(9, p9, first);
  }

  lemma Times(a: nat, x: nat, y: nat)
    requires x <= y
    ensures a * x <= a * y
  {
  }

  lemma Reassociate(a: nat, b: nat, c: nat)
    ensures a * b * c == a * (b * c) == b * (a * c)
  {
  }

  /** A rotating class never goes from some files to none without a report. */
  lemma {:induction false} RotatingNeverVanishesSilently(counts: seq<nat>)
    requires counts != [] && counts[0] > 0 && NeverReported(counts, true)
    ensures counts[|counts| - 1] > 0
  {
    if |counts| > 1 {
      var k := |counts| - 1;
      RotatingNeverVanishesSilently(counts[..k]);
      assert !Shrank(counts[k - 1], counts[k - 1 + 1], true);
    }
  }
}
