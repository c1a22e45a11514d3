/** The order of the manifest's list is total, so one generation's packs have exactly one list. */
module ManifestOrder {
  import opened Basics
  import opened ManifestCache

  ghost predicate InInfoOrder(ranks: map<Bytes, nat>, ps: seq<PackInfo>) {
    forall i, j :: 0 <= i < j < |ps| ==> !InfoBefore(ranks, ps[j], ps[i])
  }

  lemma NotBeforeTransitive(ranks: map<Bytes, nat>, a: PackInfo, b: PackInfo, c: PackInfo)
    requires !InfoBefore(ranks, b, a) && !InfoBefore(ranks, c, b)
    ensures !InfoBefore(ranks, c, a)
  {
    LessTotal(b.cls, a.cls);
    LessTotal(c.cls, b.cls);
    if a.cls == b.cls == c.cls {
      LessTotal(b.id, a.id);
      LessTotal(c.id, b.id);
      LessNegTransitive(c.id, b.id, a.id);
    } else if RankOf(ranks, a.cls) == RankOf(ranks, b.cls) == RankOf(ranks, c.cls) {
      if a.cls != b.cls { LessNegTransitive(c.cls, b.cls, a.cls); }
      if a.cls == c.cls && Less(a.cls, b.cls) { LessAsymmetric(a.cls, b.cls); }
    }
  }

  lemma BeforeOnlyOnce(ranks: map<Bytes, nat>, a: PackInfo, b: PackInfo)
    requires InfoBefore(ranks, a, b)
    ensures !InfoBefore(ranks, b, a)
  {
    if Less(a.cls, b.cls) { LessAsymmetric(a.cls, b.cls); }
    if Less(a.id, b.id) { LessAsymmetric(a.id, b.id); }
  }

  lemma {:induction false} PlaceInfoInOrder(ranks: map<Bytes, nat>, x: PackInfo, ps: seq<PackInfo>)
    requires InInfoOrder(ranks, ps)
    ensures InInfoOrder(ranks, PlaceInfo(ranks, x, ps))
  {
    hide InfoBefore;
    if ps == [] {
    } else if InfoBefore(ranks, x, ps[0]) {
      BeforeOnlyOnce(ranks, x, ps[0]);
      forall j | 0 <= j < |ps| ensures !InfoBefore(ranks, ps[j], x) {
        if j > 0 { NotBeforeTransitive(ranks, x, ps[0], ps[j]); }
      }
    } else {
      var t := PlaceInfo(ranks, x, ps[1..]);
      PlaceInfoInOrder(ranks, x, ps[1..]);
      PlaceInfoContent(ranks, x, ps[1..]);
      forall j | 0 <= j < |t| ensures !InfoBefore(ranks, t[j], ps[0]) {
        assert t[j] in t;
        if t[j] != x {
          var k :| 0 <= k < |ps[1..]| && ps[1..][k] == t[j];
          assert ps[k + 1] == t[j];
        }
      }
    }
  }

  lemma {:induction false} PriorityOrders(ranks: map<Bytes, nat>, ps: seq<PackInfo>)
    ensures InInfoOrder(ranks, SortByPriority(ranks, ps))
  {
    if ps != [] {
      PriorityOrders(ranks, ps[..|ps| - 1]);
      PlaceInfoInOrder(ranks, ps[|ps| - 1], SortByPriority(ranks, ps[..|ps| - 1]));
    }
  }

  /** In the strings themselves: classes of one rank ascend by name, packs of one class by identifier. */
  lemma ClassListedById(ranks: map<Bytes, nat>, ps: seq<PackInfo>, i: nat, j: nat)
    requires i < j < |SortByPriority(ranks, ps)|
    ensures var a, b := SortByPriority(ranks, ps)[i], SortByPriority(ranks, ps)[j];
      && (a.cls == b.cls ==> a.id == b.id || Less(a.id, b.id))
      && (a.cls != b.cls && a.cls !in ranks && b.cls !in ranks ==> Less(a.cls, b.cls))
  {
    PriorityOrders(ranks, ps);
    hide SortByPriority;
    var a, b := SortByPriority(ranks, ps)[i], SortByPriority(ranks, ps)[j];
    assert !InfoBefore(ranks, b, a);
    LessTotal(a.id, b.id);
    LessTotal(a.cls, b.cls);
  }

  /** No two different packs of the list have the same class and identifier. */
  ghost predicate Told(ps: seq<PackInfo>) {
    forall x, y :: x in ps && y in ps && x.cls == y.cls && x.id == y.id ==> x == y
  }

  lemma TieIsSame(ranks: map<Bytes, nat>, x: PackInfo, y: PackInfo)
    requires !InfoBefore(ranks, x, y) && !InfoBefore(ranks, y, x)
    ensures x.cls == y.cls && x.id == y.id
  {
    LessTotal(x.cls, y.cls);
    LessTotal(x.id, y.id);
  }

  lemma FirstAgrees(ranks: map<Bytes, nat>, a: seq<PackInfo>, b: seq<PackInfo>)
    requires InInfoOrder(ranks, a) && InInfoOrder(ranks, b) && Told(a) && a != [] && b != []
    requires a[0] in b && b[0] in a
    ensures a[0] == b[0]
  {
    hide InfoBefore;
    var i :| 0 <= i < |b| && b[i] == a[0];
    var j :| 0 <= j < |a| && a[j] == b[0];
    if i > 0 && j > 0 { TieIsSame(ranks, a[0], b[0]); }
  }

  lemma RestOf(a: seq<PackInfo>)
    requires a != []
    ensures multiset(a[1..]) == multiset(a) - multiset{a[0]}
  {
    assert a == [a[0]] + a[1..];
  }

  lemma {:induction false} OneOrderedList(ranks: map<Bytes, nat>, a: seq<PackInfo>, b: seq<PackInfo>)
    requires InInfoOrder(ranks, a) && InInfoOrder(ranks, b) && multiset(a) == multiset(b) && Told(a)
    ensures a == b
  {
    hide InfoBefore;
    assert |multiset(a)| == |a| && |multiset(b)| == |b|;
    if a != [] {
      assert a[0] in multiset(b) && b[0] in multiset(a);
      FirstAgrees(ranks, a, b);
      RestOf(a);
      RestOf(b);
      assert InInfoOrder(ranks, a[1..]) && InInfoOrder(ranks, b[1..]);
      OneOrderedList(ranks, a[1..], b[1..]);
      assert a == [a[0]] + a[1..] && b == [b[0]] + b[1..];
    }
  }

  /** Whatever order the packs were appended in, and whichever sort is used, the served list is the same. */
  lemma ManifestIsByteStable(ranks: map<Bytes, nat>, ps: seq<PackInfo>, qs: seq<PackInfo>)
    requires multiset(ps) == multiset(qs) && Told(ps)
    ensures SortByPriority(ranks, ps) == SortByPriority(ranks, qs)
    ensures forall rs :: InInfoOrder(ranks, rs) && multiset(rs) == multiset(ps) ==> rs == SortByPriority(ranks, ps)
  {
    PriorityOrders(ranks, ps);
    PriorityOrders(ranks, qs);
    PrioritySorts(ranks, ps);
    PrioritySorts(ranks, qs);
    hide SortByPriority;
    assert forall x :: x in SortByPriority(ranks, ps) ==> x in multiset(ps) && x in ps;
    OneOrderedList(ranks, SortByPriority(ranks, ps), SortByPriority(ranks, qs));
    forall rs | InInfoOrder(ranks, rs) && multiset(rs) == multiset(ps) ensures rs == SortByPriority(ranks, ps) {
      OneOrderedList(ranks, SortByPriority(ranks, ps), rs);
    }
  }
}
