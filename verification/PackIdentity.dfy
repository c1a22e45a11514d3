/** packID of backup/manifest.go: what a pack's fingerprint is taken over, and what it tells apart. */
module PackIdentity {
  import opened Basics
  import opened Planner
  import opened PlanStability

  const NL: byte := 10
  const SP: byte := 32
  const CLASS_PREFIX: Bytes := [99, 108, 97, 115, 115, 61]

  /** The decimal digits of a number, as %d prints it. */
  function Decimal(n: nat): Bytes {
    if n < 10 then [48 + n] else Decimal(n / 10) + [48 + n % 10]
  }

  function LineBody(m: PackMember): Bytes { m.path + [SP] + m.sha + [SP] + Decimal(m.size) }

  function Lines(ms: seq<PackMember>): Bytes {
    if ms == [] then [] else LineBody(ms[0]) + [NL] + Lines(ms[1..])
  }

  /** The bytes the fingerprint is taken over. */
  function Preimage(p: PackPlan): Bytes { CLASS_PREFIX + p.cls + [NL] + Lines(p.members) }

  lemma {:induction false} LinesConcat(a: seq<PackMember>, b: seq<PackMember>)
    ensures Lines(a + b) == Lines(a) + Lines(b)
  {
    hide LineBody;
    if a == [] {
      assert a + b == b;
    } else {
      LinesConcat(a[1..], b);
      assert (a + b)[1..] == a[1..] + b && (a + b)[0] == a[0];
      assert LineBody(a[0]) + [NL] + (Lines(a[1..]) + Lines(b)) == LineBody(a[0]) + [NL] + Lines(a[1..]) + Lines(b);
    }
  }

  /** The number a string of decimal digits stands for. */
  function ValueOf(s: Bytes): int {
    if s == [] then 0 else 10 * ValueOf(s[..|s| - 1]) + s[|s| - 1] - 48
  }

  lemma {:induction false} DecimalReadsBack(n: nat)
    ensures ValueOf(Decimal(n)) == n && Decimal(n) != []
    ensures forall i :: 0 <= i < |Decimal(n)| ==> 48 <= Decimal(n)[i] <= 57
    ensures n > 0 ==> Decimal(n)[0] != 48
  {
    if n < 10 {
      assert Decimal(n)[..0] == [];
    } else {
      DecimalReadsBack(n / 10);
      assert Decimal(n)[..|Decimal(n)| - 1] == Decimal(n / 10);
    }
  }

  /** Byte by byte, for class c with a member a of hash b and 12 bytes: "class=c", "a b 12", each on its line. */
  lemma PreimageInBytes()
    ensures Preimage(PackPlan([99], [PackMember([97], [98], 12, 0, 0)], 12)) ==
      [99, 108, 97, 115, 115, 61, 99, 10, 97, 32, 98, 32, 49, 50, 10]
  {
    var m := PackMember([97], [98], 12, 0, 0);
    assert Decimal(12) == [49] + [50] by { assert Decimal(12 / 10) == [49]; }
    assert Lines([m][1..]) == [];
    assert Lines([m]) == LineBody(m) + [NL] + Lines([m][1..]);
  }

  /** `fingerprint` stands for the first 32 hex digits of sha256. */
  method PackId(fingerprint: Bytes -> Bytes, p: PackPlan) returns (id: Bytes)
    ensures id == fingerprint(Preimage(p))
  {
    var written := CLASS_PREFIX + p.cls + [NL];
    for i := 0 to |p.members|
      invariant written == CLASS_PREFIX + p.cls + [NL] + Lines(p.members[..i])
    {
      var m := p.members[i];
      assert p.members[..i + 1] == p.members[..i] + [m];
      LinesConcat(p.members[..i], [m]);
      assert Lines([m]) == LineBody(m) + [NL] + Lines([]);
      assert Lines([m]) == LineBody(m) + [NL];
      assert CLASS_PREFIX + p.cls + [NL] + Lines(p.members[..i]) + Lines([m]) ==
        CLASS_PREFIX + p.cls + [NL] + Lines(p.members[..i + 1]);
      written := written + (m.path + [SP] + m.sha + [SP] + Decimal(m.size) + [NL]);
    }
    assert p.members[..|p.members|] == p.members;
    id := fingerprint(written);
  }

  // ---- Unique decoding --------------------------------------------------

  predicate Free(b: Bytes, c: byte) { c !in b }

  lemma FirstOccurrence(c: byte, a: Bytes, x: Bytes)
    requires Free(a, c)
    ensures (a + [c] + x)[|a|] == c && forall k :: 0 <= k < |a| ==> (a + [c] + x)[k] != c
  {
    assert forall k :: 0 <= k < |a| ==> (a + [c] + x)[k] == a[k];
  }

  lemma LastOccurrence(c: byte, x: Bytes, a: Bytes)
    requires Free(a, c)
    ensures (x + [c] + a)[|x|] == c && forall k :: |x| < k < |x + [c] + a| ==> (x + [c] + a)[k] != c
  {
    assert forall k :: |x| < k < |x + [c] + a| ==> (x + [c] + a)[k] == a[k - |x| - 1];
  }

  lemma SplitAtFirst(c: byte, a: Bytes, x: Bytes, b: Bytes, y: Bytes)
    requires Free(a, c) && Free(b, c) && a + [c] + x == b + [c] + y
    ensures a == b && x == y
  {
    var s := a + [c] + x;
    FirstOccurrence(c, a, x);
    FirstOccurrence(c, b, y);
    assert s[..|a|] == a && s[..|b|] == b;
    assert s[|a| + 1..] == x && s[|b| + 1..] == y;
  }

  lemma SplitAtLast(c: byte, x: Bytes, a: Bytes, y: Bytes, b: Bytes)
    requires Free(a, c) && Free(b, c) && x + [c] + a == y + [c] + b
    ensures x == y && a == b
  {
    var s := x + [c] + a;
    LastOccurrence(c, x, a);
    LastOccurrence(c, y, b);
    assert s[..|x|] == x && s[..|y|] == y;
    assert s[|x| + 1..] == a && s[|y| + 1..] == b;
  }

  lemma {:induction false} DecimalDigits(n: nat)
    ensures Decimal(n) != [] && forall d :: d in Decimal(n) ==> 48 <= d <= 57
  {
    if n >= 10 { DecimalDigits(n / 10); }
  }

  lemma {:induction false} DecimalInjective(m: nat, n: nat)
    requires Decimal(m) == Decimal(n)
    ensures m == n
  {
    DecimalDigits(m / 10);
    DecimalDigits(n / 10);
    var s := Decimal(m);
    if m >= 10 && n >= 10 {
      assert s[..|s| - 1] == Decimal(m / 10) && s[..|s| - 1] == Decimal(n / 10);
      assert s[|s| - 1] == 48 + m % 10 && s[|s| - 1] == 48 + n % 10;
      DecimalInjective(m / 10, n / 10);
    } else if m < 10 && n < 10 {
      assert s[0] == 48 + m && s[0] == 48 + n;
    } else {
      assert |Decimal(m)| == |Decimal(n)|;
    }
  }

  /** Names a line-oriented preimage can hold: no newline anywhere, no space in a hash. */
  ghost predicate Printable(p: PackPlan) {
    Free(p.cls, NL) && forall i :: 0 <= i < |p.members| ==> PrintableMember(p.members[i])
  }

  ghost predicate PrintableMember(m: PackMember) { Free(m.path, NL) && Free(m.sha, NL) && Free(m.sha, SP) }

  /** The identity of a member list: every path, hash and size, in order. */
  function IdentityOf(ms: seq<PackMember>): seq<(Bytes, Bytes, nat)> {
    seq(|ms|, i requires 0 <= i < |ms| => (ms[i].path, ms[i].sha, ms[i].size))
  }

  lemma LineDecodes(m: PackMember, n: PackMember)
    requires PrintableMember(m) && PrintableMember(n) && LineBody(m) == LineBody(n)
    ensures m.path == n.path && m.sha == n.sha && m.size == n.size
  {
    DecimalDigits(m.size);
    DecimalDigits(n.size);
    SplitAtLast(SP, m.path + [SP] + m.sha, Decimal(m.size), n.path + [SP] + n.sha, Decimal(n.size));
    SplitAtLast(SP, m.path, m.sha, n.path, n.sha);
    DecimalInjective(m.size, n.size);
  }

  lemma {:induction false} LinesDecode(a: seq<PackMember>, b: seq<PackMember>)
    requires forall i :: 0 <= i < |a| ==> PrintableMember(a[i])
    requires forall i :: 0 <= i < |b| ==> PrintableMember(b[i])
    requires Lines(a) == Lines(b)
    ensures IdentityOf(a) == IdentityOf(b)
  {
    if a != [] && b != [] {
      DecimalDigits(a[0].size);
      DecimalDigits(b[0].size);
      SplitAtFirst(NL, LineBody(a[0]), Lines(a[1..]), LineBody(b[0]), Lines(b[1..]));
      LineDecodes(a[0], b[0]);
      LinesDecode(a[1..], b[1..]);
      assert IdentityOf(a) == [(a[0].path, a[0].sha, a[0].size)] + IdentityOf(a[1..]);
      assert IdentityOf(b) == [(b[0].path, b[0].sha, b[0].size)] + IdentityOf(b[1..]);
    }
  }

  /** Two packs with one preimage have one class and one member list. */
  lemma PreimageDecodes(p: PackPlan, q: PackPlan)
    requires Printable(p) && Printable(q) && Preimage(p) == Preimage(q)
    ensures p.cls == q.cls && IdentityOf(p.members) == IdentityOf(q.members)
  {
    assert (CLASS_PREFIX + p.cls + [NL] + Lines(p.members))[|CLASS_PREFIX|..] == p.cls + [NL] + Lines(p.members);
    assert (CLASS_PREFIX + q.cls + [NL] + Lines(q.members))[|CLASS_PREFIX|..] == q.cls + [NL] + Lines(q.members);
    SplitAtFirst(NL, p.cls, Lines(p.members), q.cls, Lines(q.members));
    LinesDecode(p.members, q.members);
  }

  /** The fingerprint does not collide on the packs in question. */
  ghost predicate CollisionFree(fingerprint: Bytes -> Bytes, plans: seq<PackPlan>) {
    forall i, j ::
      0 <= i < |plans| && 0 <= j < |plans| && fingerprint(Preimage(plans[i])) == fingerprint(Preimage(plans[j]))
      ==> Preimage(plans[i]) == Preimage(plans[j])
  }

  function IdOf(fingerprint: Bytes -> Bytes, p: PackPlan): Bytes { fingerprint(Preimage(p)) }

  lemma IdsTellApart(fingerprint: Bytes -> Bytes, plans: seq<PackPlan>, i: nat, j: nat)
    requires i < |plans| && j < |plans| && CollisionFree(fingerprint, plans) && Printable(plans[i])
    requires Printable(plans[j])
    requires IdOf(fingerprint, plans[i]) == IdOf(fingerprint, plans[j])
    ensures plans[i].cls == plans[j].cls && IdentityOf(plans[i].members) == IdentityOf(plans[j].members)
  {
    PreimageDecodes(plans[i], plans[j]);
  }

  /** An edit that keeps a file's size renames exactly one pack: that is all a puller has to fetch again. */
  lemma SameSizeEditRenamesOnePack(fingerprint: Bytes -> Bytes, p: seq<PackPlan>, q: seq<PackPlan>, cls: Bytes,
                                   rows: seq<FileRow>,
                                   i: nat, sha: Bytes, target: nat, max: nat) returns (j: nat)
    requires i < |rows| && sha != rows[i].sha
    requires IsPlanOfRows(p, cls, rows, target, max)
    requires IsPlanOfRows(q, cls, rows[i := rows[i].(sha := sha)], target, max)
    requires CollisionFree(fingerprint, p + q) && forall k :: 0 <= k < |p + q| ==> Printable((p + q)[k])
    ensures |p| == |q| && j < |p|
    ensures forall k :: 0 <= k < |p| ==> (IdOf(fingerprint, p[k]) == IdOf(fingerprint, q[k]) <==> k != j)
  {
    j := SameSizeEditChangesOnePack(p, q, cls, rows, i, sha, target, max);
    if IdOf(fingerprint, p[j]) == IdOf(fingerprint, q[j]) {
      var all := p + q;
      assert all[j] == p[j] && all[|p| + j] == q[j];
      IdsTellApart(fingerprint, all, j, |p| + j);
      PlannedMembersAreBare(p, cls, rows, j, target, max);
      PlannedMembersAreBare(q, cls, rows[i := rows[i].(sha := sha)], j, target, max);
      SameIdentitySameMembers(p[j].members, q[j].members);
    }
  }

  /** A member as planned: nothing filled in beyond its identity. */
  ghost predicate AsPlanned(m: PackMember) { m.crc == 0 && m.offset == 0 }

  lemma SameIdentitySameMembers(a: seq<PackMember>, b: seq<PackMember>)
    requires IdentityOf(a) == IdentityOf(b)
    requires (forall i :: 0 <= i < |a| ==> AsPlanned(a[i])) && (forall i :: 0 <= i < |b| ==> AsPlanned(b[i]))
    ensures a == b
  {
    assert |a| == |IdentityOf(a)| == |IdentityOf(b)| == |b|;
    forall i | 0 <= i < |a| ensures a[i] == b[i] {
      assert IdentityOf(a)[i] == (a[i].path, a[i].sha, a[i].size);
      assert IdentityOf(b)[i] == (b[i].path, b[i].sha, b[i].size);
    }
  }

  /** Where group `j` begins in the flattened list. */
  lemma {:induction false} GroupStart(gs: seq<seq<PackMember>>, j: nat) returns (n: nat)
    requires j < |gs|
    ensures n + |gs[j]| <= |Flatten(gs)| && Flatten(gs)[n..n + |gs[j]|] == gs[j] && n == |Flatten(gs[..j])|
  {
    assert gs == gs[..j] + gs[j..];
    FlattenConcat(gs[..j], gs[j..]);
    assert Flatten(gs[j..]) == gs[j] + Flatten(gs[j..][1..]);
    n := |Flatten(gs[..j])|;
    var f := Flatten(gs);
    assert f == Flatten(gs[..j]) + (gs[j] + Flatten(gs[j..][1..]));
    assert f[n..n + |gs[j]|] == gs[j];
  }

  lemma PlannedMembersAreBare(p: seq<PackPlan>, cls: Bytes, rows: seq<FileRow>, j: nat, target: nat, max: nat)
    requires IsPlanOfRows(p, cls, rows, target, max) && j < |p|
    ensures forall i :: 0 <= i < |p[j].members| ==> AsPlanned(p[j].members[i])
  {
    var n := GroupStart(GroupsOf(p), j);
    forall i | 0 <= i < |p[j].members| ensures AsPlanned(p[j].members[i]) {
      assert p[j].members[i] == Flatten(GroupsOf(p))[n..n + |p[j].members|][i] == MembersOf(rows)[n + i];
    }
  }
}
