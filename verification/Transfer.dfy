/**
 Serving one pack: StreamPack of backup/manifest.go after the plan has been looked up, and
 what the bytes a peer receives are worth to it.
 */
module Transfer {
  import opened Basics
  import opened Zip
  import opened Planner
  import opened PackWriter

  // ---- Length -----------------------------------------------------------

  function HeadersAndData(ms: seq<PackMember>): nat {
    if ms == [] then 0
    else
      var m := ms[|ms| - 1];
      HeadersAndData(ms[..|ms| - 1]) + (LOCAL_HEADER_LEN + |m.path| + m.size) + (CENTRAL_HEADER_LEN + |m.path|)
  }

  /** The length the manifest advertises. */
  function WireSize(plan: PackPlan): nat {
    if PackIsRaw(plan) then plan.members[0].size else HeadersAndData(plan.members) + EOCD_LEN
  }

  method PackWireSize(plan: PackPlan) returns (n: nat)
    ensures n == WireSize(plan)
  {
    if PackIsRaw(plan) {
      return plan.members[0].size;
    }
    n := 0;
    var ms := plan.members;
    for i := 0 to |ms|
      invariant n == HeadersAndData(ms[..i])
    {
      assert ms[..i + 1][..i] == ms[..i];
      n := n + (LOCAL_HEADER_LEN + |ms[i].path|) + ms[i].size;
      n := n + (CENTRAL_HEADER_LEN + |ms[i].path|);
    }
    assert ms[..|ms|] == ms;
    n := n + EOCD_LEN;
  }

  /** Every member is present with the size and hash the plan records. */
  ghost predicate AllGood(d: Digests, files: Files, plan: PackPlan) {
    GoodMembers(d, files, plan.members) == |plan.members|
  }

  lemma GoodSizes(d: Digests, files: Files, plan: PackPlan)
    requires AllGood(d, files, plan)
    ensures forall i :: 0 <= i < |plan.members| ==>
      plan.members[i].path in files && |EntriesOf(files, plan.members)[i].data| == plan.members[i].size
  {
    forall i | 0 <= i < |plan.members|
      ensures plan.members[i].path in files && |files[plan.members[i].path]| == plan.members[i].size
    {
      AcceptedIsOpen(d, files, plan.members[i]);
    }
  }

  lemma {:induction false} ArchiveLengths(d: Digests, es: seq<Entry>, ms: seq<PackMember>, n: nat)
    requires n <= |ms| == |es|
    requires forall i :: 0 <= i < |ms| ==> es[i].path == ms[i].path && |es[i].data| == ms[i].size
    ensures |Locals(d.crcOf, es, n)| + |Central(d.crcOf, es, n)| == HeadersAndData(ms[..n])
  {
    hide LocalRecord, CentralHeader;
    if n > 0 {
      ArchiveLengths(d, es, ms, n - 1);
      RecordLengths(d.crcOf, es, n - 1);
      assert ms[..n][..n - 1] == ms[..n - 1];
    }
  }

  /** A write that is not refused emits exactly the advertised length, raw packs included. */
  lemma WireSizeExact(d: Digests, files: Files, plan: PackPlan)
    requires Refusal(d, files, plan) == None
    ensures |Stream(d, files, plan)| == WireSize(plan)
  {
    hide Locals, Central;
    if !PackIsRaw(plan) {
      var ms := plan.members;
      var es := EntriesOf(files, ms);
      GoodSizes(d, files, plan);
      ArchiveLengths(d, es, ms, |ms|);
      ArchiveParts(d.crcOf, es);
      assert ms[..|ms|] == ms;
    }
  }

  // ---- Serving ----------------------------------------------------------

  datatype StreamResult = NegativeOffset | OffsetPastEnd | Attempted(result: WriteResult)

  /** One request: `skip` leading bytes are regenerated and thrown away. */
  method StreamPlan(sink: Sink, d: Digests, files: Files, plan: PackPlan, skip: int) returns (r: StreamResult)
    modifies sink
    ensures var stream := Stream(d, files, plan);
      if skip < 0 then r == NegativeOffset && sink.received == old(sink.received)
      else if skip >= WireSize(plan) then r == OffsetPastEnd && sink.received == old(sink.received)
      else
        && r == Attempted(Answer(d, files, plan, |Drop(stream, skip)| <= old(sink.budget)))
        && sink.received == old(sink.received) + Take(Drop(stream, skip), old(sink.budget))
  {
    if skip < 0 {
      return NegativeOffset;
    }
    var size := PackWireSize(plan);
    if skip >= size {
      return OffsetPastEnd;
    }
    var dst := new SkipWriter(sink, skip);
    var cw := new CountingWriter(dst);
    ghost var s := Start(sink.received, skip, sink.budget);
    assert cw.Carried(s, []);
    var res := WritePack(cw, d, files, plan, s);
    r := Attempted(res);
  }

  /** What a client holds after asking again from where each broken attempt stopped. */
  function Fetch(stream: Bytes, got: Bytes, budgets: seq<nat>): Bytes
    decreases |budgets|
  {
    if budgets == [] then got
    else Fetch(stream, got + Take(Drop(stream, |got|), budgets[0]), budgets[1..])
  }

  function Sum(ns: seq<nat>): nat { if ns == [] then 0 else ns[0] + Sum(ns[1..]) }

  /** However often a transfer breaks, the pieces concatenate to the one pack, with nothing repeated or lost. */
  lemma {:induction false} ResumesConcatenate(stream: Bytes, got: Bytes, budgets: seq<nat>)
    requires got <= stream
    ensures Fetch(stream, got, budgets) == Take(stream, |got| + Sum(budgets))
    decreases |budgets|
  {
    if budgets != [] {
      var more := Take(Drop(stream, |got|), budgets[0]);
      assert got + more == Take(stream, |got| + budgets[0]);
      ResumesConcatenate(stream, got + more, budgets[1..]);
    }
  }

  /** The advertised length is the point at which, and not before, a client holds the whole pack. */
  lemma CompleteExactlyAtWireSize(d: Digests, files: Files, plan: PackPlan, budgets: seq<nat>)
    requires Refusal(d, files, plan) == None
    ensures Fetch(Stream(d, files, plan), [], budgets) == Stream(d, files, plan) <==> Sum(budgets) >= WireSize(plan)
  {
    hide Stream, Refusal, WireSize, Fetch, Sum;
    WireSizeExact(d, files, plan);
    var stream := Stream(d, files, plan);
    ResumesConcatenate(stream, [], budgets);
  }

  // ---- What a pack is worth ---------------------------------------------

  ghost predicate NamesFit(ms: seq<PackMember>) {
    forall i :: 0 <= i < |ms| ==> |ms[i].path| <= MAX_U16
  }

  lemma {:induction false} HeaderBounds(d: Digests, es: seq<Entry>, ms: seq<PackMember>, n: nat)
    requires n <= |ms| == |es| && NamesFit(ms)
    requires forall i :: 0 <= i < |ms| ==> es[i].path == ms[i].path && |es[i].data| == ms[i].size
    ensures |Locals(d.crcOf, es, n)| <= n * (LOCAL_HEADER_LEN + MAX_U16) + Total(ms[..n])
    ensures |Central(d.crcOf, es, n)| <= n * (CENTRAL_HEADER_LEN + MAX_U16)
  {
    hide LocalRecord, CentralHeader;
    if n > 0 {
      HeaderBounds(d, es, ms, n - 1);
      RecordLengths(d.crcOf, es, n - 1);
      assert ms[..n] == ms[..n - 1] + [ms[n - 1]];
      AppendTotal(ms[..n - 1], ms[n - 1]);
    }
  }

  /** What a write returns of a member: its plan, the checksum of its file, and where that lies in the stream. */
  lemma PlacedIsMeasured(d: Digests, files: Files, plan: PackPlan)
    requires Refusal(d, files, plan) == None && !PackIsRaw(plan)
    ensures |Placed(d, files, plan)| == |plan.members|
    ensures forall i :: 0 <= i < |plan.members| ==>
      var m, placed := plan.members[i], Placed(d, files, plan)[i];
      m.path in files && placed == PackMember(m.path, m.sha, m.size, d.crcOf(files[m.path]), placed.offset)
  {
    GoodSizes(d, files, plan);
    hide Locals, Central, Archive, DataOffset;
  }

  /**
   A completed transfer of a zipped pack reads back as exactly the planned files, and each one can
   be cut out alone.
  */
  lemma ServedPackReadsBack(d: Digests, files: Files, plan: PackPlan)
    requires Refusal(d, files, plan) == None && !PackIsRaw(plan)
    requires |plan.members| <= PACK_MAX_MEMBERS && NamesFit(plan.members)
    ensures ReadArchive(d.crcOf, Stream(d, files, plan)) == Some(EntriesOf(files, plan.members))
    ensures forall i :: 0 <= i < |plan.members| ==>
      && plan.members[i].path in files
      && At(Stream(d, files, plan), Placed(d, files, plan)[i].offset, files[plan.members[i].path])
  {
    hide Locals, Central, Archive, ReadArchive, At;
    var ms := plan.members;
    var es := EntriesOf(files, ms);
    GoodSizes(d, files, plan);
    HeaderBounds(d, es, ms, |ms|);
    assert Representable(d.crcOf, es);
    RoundTrip(d.crcOf, es);
    forall i | 0 <= i < |ms| ensures At(Stream(d, files, plan), Placed(d, files, plan)[i].offset, files[ms[i].path]) {
      DataAtOffset(d.crcOf, es, i);
    }
  }

  /** A raw pack is its file. */
  lemma RawPackIsTheFile(d: Digests, files: Files, plan: PackPlan)
    requires Refusal(d, files, plan) == None && PackIsRaw(plan)
    ensures plan.members[0].path in files && Stream(d, files, plan) == files[plan.members[0].path]
    ensures Placed(d, files, plan)[0].offset == 0
  {
  }

  // ---- The 32-bit frontier ----------------------------------------------

  /** A lone member whose size fits 32 bits while its own local header pushes the directory past them. */
  predicate InGap(plan: PackPlan) {
    |plan.members| == 1
    && MAX_U32 - LOCAL_HEADER_LEN - |plan.members[0].path| < plan.members[0].size <= MAX_U32
  }

  /** Planned packs never reach the two early size refusals. */
  lemma {:induction false} PlannedNeverRefusedEarly(plan: PackPlan)
    requires WithinLimits(plan.members, PACK_TARGET_BYTES, PACK_MAX_MEMBERS) && plan.bytes == Total(plan.members)
    requires !PackIsRaw(plan)
    ensures EarlyRefusal(plan) == None
  {
    var ms := plan.members;
    forall i | 0 <= i < |ms| ensures ms[i].size <= Total(ms) { SizeInTotal(ms, i); }
    if |ms| == 1 {
      assert ms == [] + [ms[0]];
      AppendTotal([], ms[0]);
    }
  }

  lemma {:induction false} SizeInTotal(ms: seq<PackMember>, i: nat)
    requires i < |ms|
    ensures ms[i].size <= Total(ms)
  {
    if i < |ms| - 1 { SizeInTotal(ms[..|ms| - 1], i); }
  }

  /**
   For a planned pack whose files are as recorded, the only refusal left is the directory
   offset, and it fires exactly in the gap; every other pack is served.
   */
  lemma ExactFrontier(d: Digests, files: Files, plan: PackPlan)
    requires WithinLimits(plan.members, PACK_TARGET_BYTES, PACK_MAX_MEMBERS) && plan.bytes == Total(plan.members)
    requires NamesFit(plan.members) && AllGood(d, files, plan)
    ensures Refusal(d, files, plan) == if InGap(plan) then Some(DirectoryOffsetTooLarge) else None
    ensures !InGap(plan) && !PackIsRaw(plan) ==> Representable(d.crcOf, EntriesOf(files, plan.members))
  {
    hide Central, LocalHeader, LocalRecord;
    var ms := plan.members;
    var es := EntriesOf(files, ms);
    GoodSizes(d, files, plan);
    if !PackIsRaw(plan) {
      PlannedNeverRefusedEarly(plan);
      HeaderBounds(d, es, ms, |ms|);
      assert ms[..|ms|] == ms;
      if |ms| == 1 {
        assert Locals(d.crcOf, es, 0) == [];
        RecordLengths(d.crcOf, es, 0);
      }
    }
  }
}
