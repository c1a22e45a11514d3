/**
 Resuming while files change between attempts: a zipped pack can only ever be assembled from the
 recorded content, because each member's hash is checked before any of it is sent; a raw pack
 can be stitched together from two contents.
 */
module Resume {
  import opened Basics
  import opened Zip
  import opened Planner
  import opened PackWriter
  import opened Transfer

  /** One request for the rest of a pack: the files as they are then, and how long the peer stays. */
  datatype Attempt = Attempt(files: Files, budget: nat)

  /** What a client holds after asking from where it stands, until it has the advertised length. */
  function Fetched(d: Digests, plan: PackPlan, got: Bytes, attempts: seq<Attempt>): Bytes
    decreases |attempts|
  {
    if attempts == [] || |got| >= WireSize(plan) then got
    else
      var a := attempts[0];
      Fetched(d, plan, got + Take(Drop(Stream(d, a.files, plan), |got|), a.budget), attempts[1..])
  }

  /** Content that passes for a recorded member is that member's content. */
  ghost predicate TellsApart(d: Digests, plan: PackPlan, want: Files, files: Files) {
    forall m :: m in plan.members && MemberRefusal(d, files, m) == None ==>
      m.path in want && files[m.path] == want[m.path]
  }

  /** Hashes that do not collide on the contents at hand tell them apart, wherever the plan records one. */
  lemma HashesTellApart(d: Digests, plan: PackPlan, want: Files, files: Files)
    requires AllGood(d, want, plan) && forall m :: m in plan.members ==> m.sha != []
    requires forall p, q :: p in want && q in files && d.shaOf(want[p]) == d.shaOf(files[q]) ==> want[p] == files[q]
    ensures TellsApart(d, plan, want, files)
  {
    forall m | m in plan.members && MemberRefusal(d, files, m) == None
      ensures m.path in want && files[m.path] == want[m.path]
    {
      var i :| 0 <= i < |plan.members| && plan.members[i] == m;
      AcceptedIsOpen(d, want, plan.members[i]);
      AcceptedIsOpen(d, files, m);
    }
  }

  lemma {:induction false} LocalsSame(crcOf: Checksum, a: seq<Entry>, b: seq<Entry>, n: nat)
    requires n <= |a| && n <= |b| && forall i :: 0 <= i < n ==> a[i] == b[i]
    ensures Locals(crcOf, a, n) == Locals(crcOf, b, n)
  {
    hide LocalRecord;
    if n > 0 { LocalsSame(crcOf, a, b, n - 1); }
  }

  lemma GoodEntriesSame(d: Digests, plan: PackPlan, want: Files, files: Files)
    requires AllGood(d, want, plan) && TellsApart(d, plan, want, files)
    ensures forall i :: 0 <= i < GoodMembers(d, files, plan.members) ==>
      EntriesOf(want, plan.members)[i] == EntriesOf(files, plan.members)[i]
  {
    var ms := plan.members;
    forall i | 0 <= i < GoodMembers(d, files, ms) ensures EntriesOf(want, ms)[i] == EntriesOf(files, ms)[i] {
      assert ms[i] in ms && MemberRefusal(d, files, ms[i]) == None;
      AcceptedIsOpen(d, files, ms[i]);
    }
  }

  lemma ArchiveBegins(crcOf: Checksum, es: seq<Entry>, k: nat)
    requires k <= |es|
    ensures Locals(crcOf, es, k) <= Archive(crcOf, es)
  {
    LocalsIsPrefix(crcOf, es, k, |es|);
    hide Locals, Central;
  }

  lemma UnrefusedIsWhole(d: Digests, plan: PackPlan, want: Files)
    requires !PackIsRaw(plan) && Refusal(d, want, plan) == None
    ensures AllGood(d, want, plan) && EarlyRefusal(plan) == None
    ensures Stream(d, want, plan) == Archive(d.crcOf, EntriesOf(want, plan.members))
  {
    hide Locals, Archive, EarlyRefusal;
  }

  /** Whatever the files have become, what is sent of a zipped pack is a beginning of the recorded one. */
  lemma {:induction false} ZippedStreamIsPrefix(d: Digests, plan: PackPlan, want: Files, files: Files)
    requires !PackIsRaw(plan) && Refusal(d, want, plan) == None && TellsApart(d, plan, want, files)
    ensures Stream(d, files, plan) <= Stream(d, want, plan)
  {
    var ms := plan.members;
    var es, fs, k := EntriesOf(want, ms), EntriesOf(files, ms), GoodMembers(d, files, ms);
    UnrefusedIsWhole(d, plan, want);
    GoodEntriesSame(d, plan, want, files);
    LocalsSame(d.crcOf, es, fs, k);
    ArchiveBegins(d.crcOf, es, k);
    StreamForm(d, files, plan);
    hide Stream, Locals, Archive, EntriesOf, GoodMembers, EarlyRefusal, Refusal, TellsApart;
    if k == |ms| { SameLength(d, plan, want, files); }
  }

  lemma SameLength(d: Digests, plan: PackPlan, want: Files, files: Files)
    requires forall i :: 0 <= i < |plan.members| ==>
      EntriesOf(want, plan.members)[i] == EntriesOf(files, plan.members)[i]
    ensures EntriesOf(want, plan.members) == EntriesOf(files, plan.members)
  {
  }

  lemma StreamForm(d: Digests, files: Files, plan: PackPlan)
    requires !PackIsRaw(plan) && EarlyRefusal(plan) == None
    ensures var fs, k := EntriesOf(files, plan.members), GoodMembers(d, files, plan.members);
      Stream(d, files, plan) != Locals(d.crcOf, fs, k) ==> k == |fs| && Stream(d, files, plan) == Archive(d.crcOf, fs)
  {
    hide Locals, Archive, EarlyRefusal;
  }

  /**
   Any number of broken attempts, with files changing, vanishing and coming back between them:
   the client holds a beginning of the recorded pack, and the whole of it once it has the
   advertised length.
   */
  lemma {:induction false} ZippedResumeAssembles(d: Digests, plan: PackPlan, want: Files, got: Bytes,
                                                 attempts: seq<Attempt>)
    requires !PackIsRaw(plan) && Refusal(d, want, plan) == None && got <= Stream(d, want, plan)
    requires forall i :: 0 <= i < |attempts| ==> TellsApart(d, plan, want, attempts[i].files)
    ensures var r := Fetched(d, plan, got, attempts);
      r <= Stream(d, want, plan) && (|r| >= WireSize(plan) ==> r == Stream(d, want, plan))
    decreases |attempts|
  {
    WireSizeExact(d, want, plan);
    if attempts != [] && |got| < WireSize(plan) {
      var part, whole := Stream(d, attempts[0].files, plan), Stream(d, want, plan);
      assert TellsApart(d, plan, want, attempts[0].files);
      ZippedStreamIsPrefix(d, plan, want, attempts[0].files);
      hide Stream, TellsApart, Refusal, WireSize;
      var next := got + Take(Drop(part, |got|), attempts[0].budget);
      if |got| < |part| { assert next <= part; }
      ZippedResumeAssembles(d, plan, want, next, attempts[1..]);
    }
  }

  // ---- Raw packs -------------------------------------------------------------

  function Till(plan: PackPlan, from: nat, budget: nat): nat {
    if from + budget <= WireSize(plan) then from + budget else WireSize(plan)
  }

  /** Each attempt's file agrees with `x` on the range that attempt sends. */
  ghost predicate PiecesAgree(plan: PackPlan, x: Bytes, from: nat, attempts: seq<Attempt>)
    requires PackIsRaw(plan) && |x| == WireSize(plan) && from <= |x|
    decreases |attempts|
  {
    attempts == [] || (
      var file, till := plan.members[0].path, Till(plan, from, attempts[0].budget);
      && file in attempts[0].files && |attempts[0].files[file]| == WireSize(plan)
      && attempts[0].files[file][from..till] == x[from..till]
      && PiecesAgree(plan, x, till, attempts[1..]))
  }

  lemma PieceOf(d: Digests, plan: PackPlan, a: Attempt, from: nat)
    requires PackIsRaw(plan) && Refusal(d, a.files, plan) == None && from <= WireSize(plan)
    ensures var file := plan.members[0].path;
      && file in a.files && |a.files[file]| == WireSize(plan)
      && Take(Drop(Stream(d, a.files, plan), from), a.budget) == a.files[file][from..Till(plan, from, a.budget)]
  {
    RawPackIsTheFile(d, a.files, plan);
    WireSizeExact(d, a.files, plan);
  }

  /** Two beginnings of one length agree exactly if their parts do. */
  lemma PartsAgree(got: Bytes, piece: Bytes, x: Bytes)
    requires |got| + |piece| <= |x|
    ensures got + piece <= x <==> got <= x && piece == x[|got|..|got| + |piece|]
  {
    if got + piece <= x {
      assert got == (got + piece)[..|got|] == x[..|got|];
      assert piece == (got + piece)[|got|..] == x[|got|..|got| + |piece|];
    }
    if got <= x && piece == x[|got|..|got| + |piece|] {
      assert x[..|got| + |piece|] == x[..|got|] + x[|got|..|got| + |piece|];
    }
  }

  lemma {:induction false} NothingMore(d: Digests, plan: PackPlan, x: Bytes, from: nat, attempts: seq<Attempt>)
    requires PackIsRaw(plan) && |x| == WireSize(plan) == from
    requires forall i :: 0 <= i < |attempts| ==> Refusal(d, attempts[i].files, plan) == None
    ensures PiecesAgree(plan, x, from, attempts)
    decreases |attempts|
  {
    if attempts != [] {
      PieceOf(d, plan, attempts[0], from);
      hide Refusal, WireSize;
      NothingMore(d, plan, x, from, attempts[1..]);
    }
  }

  lemma {:induction false} RawPrefixExactlyWhen(d: Digests, plan: PackPlan, x: Bytes, got: Bytes,
                                                attempts: seq<Attempt>)
    requires PackIsRaw(plan) && |x| == WireSize(plan) && |got| <= WireSize(plan)
    requires forall i :: 0 <= i < |attempts| ==> Refusal(d, attempts[i].files, plan) == None
    ensures var r := Fetched(d, plan, got, attempts);
      |r| <= WireSize(plan) && (r <= x <==> got <= x && PiecesAgree(plan, x, |got|, attempts))
    decreases |attempts|
  {
    if attempts != [] && |got| < WireSize(plan) {
      var a := attempts[0];
      PieceOf(d, plan, a, |got|);
      var piece := a.files[plan.members[0].path][|got|..Till(plan, |got|, a.budget)];
      assert Fetched(d, plan, got, attempts) == Fetched(d, plan, got + piece, attempts[1..]);
      hide Refusal, Stream, WireSize, Fetched, PackIsRaw;
      PartsAgree(got, piece, x);
      RawPrefixExactlyWhen(d, plan, x, got + piece, attempts[1..]);
    } else if attempts != [] {
      NothingMore(d, plan, x, |got|, attempts);
    }
  }

  /**
   A raw pack is served without a look at its hash. Over any number of attempts, each cut anywhere
   and each against other content of the planned size, what arrives is the beginning of a given
   content exactly if every attempt's file agrees with it on the range that attempt sent; once
   complete, it is that content or not by the same condition.
   */
  lemma RawResumeExactlyWhen(d: Digests, plan: PackPlan, x: Bytes, attempts: seq<Attempt>)
    requires PackIsRaw(plan) && |x| == WireSize(plan)
    requires forall i :: 0 <= i < |attempts| ==> Refusal(d, attempts[i].files, plan) == None
    ensures var r := Fetched(d, plan, [], attempts);
      && |r| <= WireSize(plan) && (r <= x <==> PiecesAgree(plan, x, 0, attempts))
      && (|r| == WireSize(plan) ==> (r == x <==> PiecesAgree(plan, x, 0, attempts)))
  {
    RawPrefixExactlyWhen(d, plan, x, [], attempts);
  }

  /** Cut once after k bytes: what the first attempt was reading, exactly if the two contents agree from k on. */
  lemma {:induction false} RawCutOnce(d: Digests, plan: PackPlan, first: Files, second: Files, k: nat)
    requires PackIsRaw(plan) && Refusal(d, first, plan) == None && Refusal(d, second, plan) == None
    requires 0 < k < WireSize(plan)
    ensures var p := plan.members[0].path;
      var r := Fetched(d, plan, [], [Attempt(first, k), Attempt(second, WireSize(plan))]);
      && p in first && p in second && |r| == WireSize(plan)
      && r == first[p][..k] + second[p][k..]
      && (r == first[p] <==> first[p][k..] == second[p][k..])
  {
    RawPackIsTheFile(d, first, plan);
    RawPackIsTheFile(d, second, plan);
    var p := plan.members[0].path;
    var a, b, both := first[p], second[p], [Attempt(first, k), Attempt(second, WireSize(plan))];
    assert both[1..] == [both[1]] && both[1..][1..] == [];
    assert [] + a[..k] == a[..k] && a == a[..k] + a[k..];
    assert Fetched(d, plan, [], both) == Fetched(d, plan, a[..k], both[1..]);
    assert Fetched(d, plan, a[..k], both[1..]) == a[..k] + b[k..];
    assert (a[..k] + b[k..])[k..] == b[k..];
  }
}
