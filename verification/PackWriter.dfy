/**
 writePack of backup/pack.go and the writers it streams through: the counting writer that
 discovers offsets, the skip writer of backup/manifest.go that resumes a transfer, and a
 peer that may hang up after any byte.
 */
module PackWriter {
  import opened Basics
  import opened Zip
  import opened Planner

  /** The two digests the writer computes: crc32 and the hex sha256, uninterpreted. */
  datatype Digests = Digests(crcOf: Checksum, shaOf: Bytes -> Bytes)

  /** The asset root: each readable file's content. It does not change during one write. */
  type Files = map<Bytes, Bytes>

  function Drop(t: Bytes, n: nat): Bytes { if n >= |t| then [] else t[n..] }

  function Take(t: Bytes, n: nat): Bytes { if n >= |t| then t else t[..n] }

  lemma DropConcat(t: Bytes, p: Bytes, n: nat)
    ensures Drop(t + p, n) == Drop(t, n) + Drop(p, if n > |t| then n - |t| else 0)
  {
    if n < |t| {
      assert (t + p)[n..] == t[n..] + p;
    } else if n < |t| + |p| {
      assert (t + p)[n..] == p[n - |t|..];
    }
  }

  // ---- Writers ----------------------------------------------------------

  /** The far end of a transfer: it takes `budget` more bytes and then the connection is gone. */
  class Sink {
    var received: Bytes
    var budget: nat

    constructor (budget: nat)
      ensures received == [] && this.budget == budget
    {
      received, this.budget := [], budget;
    }

    method Write(p: Bytes) returns (n: nat, ok: bool)
      modifies this
      ensures n == |Take(p, old(budget))| && ok == (n == |p|)
      ensures received == old(received) + Take(p, old(budget)) && budget == old(budget) - n
    {
      n := if |p| <= budget then |p| else budget;
      received, budget, ok := received + p[..n], budget - n, n == |p|;
    }
  }

  /** Drops the first `remaining` bytes written through it and reports them as written. */
  class SkipWriter {
    const w: Sink
    var remaining: nat

    constructor (w: Sink, skip: nat)
      ensures this.w == w && remaining == skip
    {
      this.w, remaining := w, skip;
    }

    method Write(p: Bytes) returns (n: nat, ok: bool)
      modifies this, w
      ensures var forwarded := Drop(p, old(remaining));
        && w.received == old(w.received) + Take(forwarded, old(w.budget))
        && w.budget == old(w.budget) - |Take(forwarded, old(w.budget))|
        && ok == (|forwarded| <= old(w.budget))
        && (ok ==> n == |p|)
      ensures remaining == if old(remaining) > |p| then old(remaining) - |p| else 0
    {
      if remaining <= 0 {
        n, ok := w.Write(p);
        return;
      }
      if |p| <= remaining {
        remaining := remaining - |p|;
        return |p|, true;
      }
      var drop := remaining;
      remaining := 0;
      n, ok := w.Write(p[drop..]);
      n := n + drop;
    }
  }

  /** Where a transfer stood when the writers were set up. */
  datatype Start = Start(received: Bytes, skip: nat, budget: nat)

  /** Tracks the offset of the next byte. */
  class CountingWriter {
    const w: SkipWriter
    var n: nat

    constructor (w: SkipWriter)
      ensures this.w == w && n == 0
    {
      this.w, n := w, 0;
    }

    /** Since `s`, exactly `t` has been written, and all of it past the skip has arrived. */
    ghost predicate Carried(s: Start, t: Bytes)
      reads this, w, w.w
    {
      && n == |t|
      && w.remaining == (if s.skip > |t| then s.skip - |t| else 0)
      && w.w.received == s.received + Drop(t, s.skip)
      && w.w.budget == s.budget - |Drop(t, s.skip)|
    }

    /** Since `s`, the peer has hung up while being sent `t`. */
    ghost predicate Cut(s: Start, t: Bytes)
      reads w.w
    {
      |Drop(t, s.skip)| > s.budget && w.w.received == s.received + Take(Drop(t, s.skip), s.budget)
    }

    method Write(p: Bytes, ghost s: Start, ghost t: Bytes) returns (ok: bool)
      requires Carried(s, t)
      modifies this, w, w.w
      ensures if ok then Carried(s, t + p) else Cut(s, t + p)
    {
      var k;
      k, ok := w.Write(p);
      n := n + k;
      DropConcat(t, p, s.skip);
    }

    /** io.Copy: the file in chunks of any size, until it ends or a write fails. */
    method Copy(data: Bytes, ghost s: Start, ghost t: Bytes) returns (ok: bool)
      requires Carried(s, t)
      modifies this, w, w.w
      ensures if ok then Carried(s, t + data) else Cut(s, t + data)
    {
      var i := 0;
      ok := true;
      assert t + data[..0] == t;
      while i < |data|
        invariant i <= |data| && Carried(s, t + data[..i])
      {
        var k :| 0 < k <= |data| - i;
        ok := Write(data[i..i + k], s, t + data[..i]);
        assert t + data[..i] + data[i..i + k] == t + data[..i + k];
        if !ok {
          CutLater(s, t + data[..i + k], data[i + k..]);
          assert t + data[..i + k] + data[i + k..] == t + data;
          return;
        }
        i := i + k;
      }
      assert data[..|data|] == data;
    }

    /** Once cut, what else would have been sent makes no difference. */
    lemma CutLater(s: Start, t: Bytes, more: Bytes)
      requires Cut(s, t)
      ensures Cut(s, t + more)
    {
      DropConcat(t, more, s.skip);
    }
  }

  // ---- What a write emits -----------------------------------------------

  datatype WriteError =
    | OpenFailed(path: Bytes)
    | SizeChanged(path: Bytes)
    | ContentChanged(path: Bytes)
    | MemberNeedsZip64(path: Bytes)
    | PackNeedsZip64
    | DirectoryOffsetTooLarge
    | PeerGone

  datatype WriteResult = Written(members: seq<PackMember>, size: nat) | Refused(error: WriteError)

  /** One member, too big for the 32-bit fields of a classic ZIP. */
  predicate PackIsRaw(plan: PackPlan) { |plan.members| == 1 && plan.members[0].size > MAX_U32 }

  function ContentOf(files: Files, path: Bytes): Bytes { if path in files then files[path] else [] }

  function EntriesOf(files: Files, ms: seq<PackMember>): seq<Entry> {
    seq(|ms|, i requires 0 <= i < |ms| => Entry(ms[i].path, ContentOf(files, ms[i].path)))
  }

  /** Why a member cannot be written as the plan describes it, if it cannot. */
  function MemberRefusal(d: Digests, files: Files, m: PackMember): Option<WriteError> {
    if m.path !in files then Some(OpenFailed(m.path))
    else if |files[m.path]| != m.size then Some(SizeChanged(m.path))
    else if m.sha != [] && d.shaOf(files[m.path]) != m.sha then Some(ContentChanged(m.path))
    else None
  }

  /** The number of members before the first that is refused. */
  function GoodMembers(d: Digests, files: Files, ms: seq<PackMember>): (k: nat)
    ensures k <= |ms|
    ensures forall i :: 0 <= i < k ==> MemberRefusal(d, files, ms[i]) == None
    ensures k < |ms| ==> MemberRefusal(d, files, ms[k]) != None
  {
    if ms == [] || MemberRefusal(d, files, ms[0]) != None then 0
    else
      var k := GoodMembers(d, files, ms[1..]);
      assert forall i :: 0 < i < k + 1 ==> ms[i] == ms[1..][i - 1];
      k + 1
  }

  function OversizedMember(ms: seq<PackMember>): (r: Option<Bytes>)
    ensures r.None? <==> forall i :: 0 <= i < |ms| ==> ms[i].size <= MAX_U32
  {
    if ms == [] then None
    else if ms[0].size > MAX_U32 then Some(ms[0].path)
    else
      assert forall i :: 0 < i < |ms| ==> ms[i] == ms[1..][i - 1];
      OversizedMember(ms[1..])
  }

  /** The refusals made before anything is written. */
  function EarlyRefusal(plan: PackPlan): Option<WriteError> {
    match OversizedMember(plan.members)
    case Some(path) => Some(MemberNeedsZip64(path))
    case None => if plan.bytes > MAX_U32 then Some(PackNeedsZip64) else None
  }

  /** Every byte a write offers its peer, up to its end or its refusal. */
  function Stream(d: Digests, files: Files, plan: PackPlan): Bytes {
    var ms := plan.members;
    var es, k := EntriesOf(files, ms), GoodMembers(d, files, ms);
    if PackIsRaw(plan) then ContentOf(files, ms[0].path)
    else if EarlyRefusal(plan).Some? then []
    else if k < |ms| || |Locals(d.crcOf, es, |es|)| > MAX_U32 then Locals(d.crcOf, es, k)
    else Archive(d.crcOf, es)
  }

  /** Why a write fails on its own account, if it does. */
  function Refusal(d: Digests, files: Files, plan: PackPlan): Option<WriteError> {
    var ms := plan.members;
    var es, k := EntriesOf(files, ms), GoodMembers(d, files, ms);
    if PackIsRaw(plan) then
      if ms[0].path !in files then Some(OpenFailed(ms[0].path))
      else if |files[ms[0].path]| != ms[0].size then Some(SizeChanged(ms[0].path))
      else None
    else if EarlyRefusal(plan).Some? then EarlyRefusal(plan)
    else if k < |ms| then MemberRefusal(d, files, ms[k])
    else if |Locals(d.crcOf, es, |es|)| > MAX_U32 then Some(DirectoryOffsetTooLarge)
    else None
  }

  /**
   In numbers: a member over 4 GiB - 1 that is not alone, or more than that in all, is refused before a
   byte is sent, and nothing else is.
   */
  lemma TooLargeIsRefused(d: Digests, files: Files, plan: PackPlan, i: nat)
    requires i < |plan.members| != 1
    requires forall j :: 0 <= j < i ==> plan.members[j].size <= 0xFFFF_FFFF
    requires plan.members[i].size > 0xFFFF_FFFF
    ensures Refusal(d, files, plan) == Some(MemberNeedsZip64(plan.members[i].path)) && Stream(d, files, plan) == []
  {
    FirstOversized(plan.members, i);
  }

  lemma {:induction false} FirstOversized(ms: seq<PackMember>, i: nat)
    requires i < |ms| && ms[i].size > 0xFFFF_FFFF && forall j :: 0 <= j < i ==> ms[j].size <= 0xFFFF_FFFF
    ensures OversizedMember(ms) == Some(ms[i].path)
  {
    if i > 0 { FirstOversized(ms[1..], i - 1); }
  }

  lemma TooMuchIsRefused(d: Digests, files: Files, plan: PackPlan)
    requires forall j :: 0 <= j < |plan.members| ==> plan.members[j].size <= 0xFFFF_FFFF
    ensures Refusal(d, files, plan) == Some(PackNeedsZip64) <==> plan.bytes > 0xFFFF_FFFF
    ensures plan.bytes > 0xFFFF_FFFF ==> Stream(d, files, plan) == []
    ensures forall p :: Refusal(d, files, plan) != Some(MemberNeedsZip64(p))
  {
  }

  /** A zipped pack ends in front of the first member that is gone, has another size or has another hash. */
  lemma FirstChangedMemberEnds(d: Digests, files: Files, plan: PackPlan, i: nat)
    requires i < |plan.members| && plan.bytes <= 0xFFFF_FFFF
    requires forall j :: 0 <= j < |plan.members| ==> plan.members[j].size <= 0xFFFF_FFFF
    requires forall j :: 0 <= j < i ==>
      var m := plan.members[j];
      m.path in files && |files[m.path]| == m.size && (m.sha == [] || d.shaOf(files[m.path]) == m.sha)
    requires var m := plan.members[i];
      m.path !in files || |files[m.path]| != m.size || (m.sha != [] && d.shaOf(files[m.path]) != m.sha)
    ensures var m := plan.members[i];
      Refusal(d, files, plan) == Some(
        if m.path !in files then OpenFailed(m.path)
        else if |files[m.path]| != m.size then SizeChanged(m.path)
        else ContentChanged(m.path))
    ensures Stream(d, files, plan) == Locals(d.crcOf, EntriesOf(files, plan.members), i)
  {
    var k := GoodMembers(d, files, plan.members);
    assert MemberRefusal(d, files, plan.members[i]) != None;
    assert forall j :: 0 <= j < i ==> MemberRefusal(d, files, plan.members[j]) == None;
    assert k == i;
  }

  /** The first `n` members with the checksum and data offset of their entry filled in. */
  function PlacedUpTo(d: Digests, es: seq<Entry>, ms: seq<PackMember>, n: nat): seq<PackMember>
    requires n <= |ms| == |es|
  {
    seq(n, i requires 0 <= i < n => ms[i].(crc := d.crcOf(es[i].data), offset := DataOffset(d.crcOf, es, i)))
  }

  /** Where the local headers of the first `n` entries begin. */
  ghost predicate OffsetsUpTo(d: Digests, es: seq<Entry>, offsets: seq<nat>, n: nat)
    requires n <= |es|
  {
    |offsets| == n && forall j :: 0 <= j < n ==> offsets[j] == |Locals(d.crcOf, es, j)|
  }

  lemma RecordNone(d: Digests, es: seq<Entry>, ms: seq<PackMember>)
    requires |ms| == |es|
    ensures PlacedUpTo(d, es, ms, 0) == [] && OffsetsUpTo(d, es, [], 0)
  {
  }

  lemma RecordMember(d: Digests, es: seq<Entry>, ms: seq<PackMember>, n: nat, offsets: seq<nat>)
    requires n < |ms| == |es| && OffsetsUpTo(d, es, offsets, n)
    ensures PlacedUpTo(d, es, ms, n + 1) ==
      PlacedUpTo(d, es, ms, n) + [ms[n].(crc := d.crcOf(es[n].data), offset := DataOffset(d.crcOf, es, n))]
    ensures OffsetsUpTo(d, es, offsets + [|Locals(d.crcOf, es, n)|], n + 1)
  {
  }

  lemma AcceptedIsOpen(d: Digests, files: Files, m: PackMember)
    requires MemberRefusal(d, files, m) == None
    ensures m.path in files && |files[m.path]| == m.size && (m.sha == [] || d.shaOf(files[m.path]) == m.sha)
  {
  }

  /** The members with their checksums and data offsets filled in. */
  function Placed(d: Digests, files: Files, plan: PackPlan): seq<PackMember> {
    var ms := plan.members;
    var es := EntriesOf(files, ms);
    if PackIsRaw(plan) then [ms[0].(offset := 0)] else PlacedUpTo(d, es, ms, |ms|)
  }

  /** A write's answer, given whether the peer stayed for the whole stream. */
  function Answer(d: Digests, files: Files, plan: PackPlan, peerStayed: bool): WriteResult {
    if !peerStayed then Refused(PeerGone)
    else
      match Refusal(d, files, plan)
      case Some(e) => Refused(e)
      case None => Written(Placed(d, files, plan), |Stream(d, files, plan)|)
  }

  method WriteRawPack(cw: CountingWriter, d: Digests, files: Files, plan: PackPlan, ghost s: Start)
    returns (r: WriteResult)
    requires PackIsRaw(plan) && cw.Carried(s, [])
    modifies cw, cw.w, cw.w.w
    ensures var stream := Stream(d, files, plan);
      var stayed := |Drop(stream, s.skip)| <= s.budget;
      r == Answer(d, files, plan, stayed) && if stayed then cw.Carried(s, stream) else cw.Cut(s, stream)
  {
    var m := plan.members[0];
    if m.path !in files {
      return Refused(OpenFailed(m.path));
    }
    var ok := cw.Copy(files[m.path], s, []);
    assert [] + files[m.path] == files[m.path];
    if !ok {
      return Refused(PeerGone);
    }
    if |files[m.path]| != m.size {
      return Refused(SizeChanged(m.path));
    }
    r := Written([m.(offset := 0)], |files[m.path]|);
  }

  /** One turn of the member loop: the local header, then the file. */
  method WriteMember(cw: CountingWriter, d: Digests, e: Entry, ghost s: Start, ghost before: Bytes)
    returns (ok: bool, offset: nat)
    requires cw.Carried(s, before)
    modifies cw, cw.w, cw.w.w
    ensures var after := before + LocalRecord(d.crcOf, e);
      if ok then cw.Carried(s, after) && offset == |before| + LOCAL_HEADER_LEN + |e.path| else cw.Cut(s, after)
  {
    hide LocalHeader;
    var hdr := LocalHeader(d.crcOf(e.data), |e.data|, e.path);
    LocalHeaderLayout(d.crcOf(e.data), |e.data|, e.path);
    assert before + hdr + e.data == before + LocalRecord(d.crcOf, e);
    offset := 0;
    ok := cw.Write(hdr, s, before);
    if !ok {
      cw.CutLater(s, before + hdr, e.data);
      return;
    }
    offset := cw.n;
    ok := cw.Copy(e.data, s, before + hdr);
  }

  /** The member loop of writePack: stops at the first member refused or when the peer goes. */
  method WriteMembers(cw: CountingWriter, d: Digests, files: Files, ms: seq<PackMember>, ghost s: Start)
    returns (err: Option<WriteError>, members: seq<PackMember>, localOffsets: seq<nat>)
    requires cw.Carried(s, [])
    modifies cw, cw.w, cw.w.w
    ensures var es, k := EntriesOf(files, ms), GoodMembers(d, files, ms);
      var locals := Locals(d.crcOf, es, k);
      if |Drop(locals, s.skip)| > s.budget then err == Some(PeerGone) && cw.Cut(s, locals)
      else
        && cw.Carried(s, locals)
        && err == (if k < |ms| then MemberRefusal(d, files, ms[k]) else None)
        && members == PlacedUpTo(d, es, ms, k)
        && OffsetsUpTo(d, es, localOffsets, k)
  {
    hide LocalRecord, LocalHeader, Drop, PlacedUpTo, OffsetsUpTo, MemberRefusal, CountingWriter.Carried,
      CountingWriter.Cut;
    RecordNone(d, EntriesOf(files, ms), ms);
    ghost var es, k := EntriesOf(files, ms), GoodMembers(d, files, ms);
    members, localOffsets := [], [];
    var i := 0;
    while i < |ms|
      invariant i <= k && cw.Carried(s, Locals(d.crcOf, es, i))
      invariant members == PlacedUpTo(d, es, ms, i)
      invariant OffsetsUpTo(d, es, localOffsets, i)
    {
      var m := ms[i];
      err := MemberRefusal(d, files, m);
      if err.Some? {
        StayedSoFar(cw, s, Locals(d.crcOf, es, i));
        return;
      }
      AcceptedIsOpen(d, files, m);
      var data, localOffset := files[m.path], cw.n;
      CarriedCounts(cw, s, Locals(d.crcOf, es, i));
      var ok, offset := WriteMember(cw, d, Entry(m.path, data), s, Locals(d.crcOf, es, i));
      if !ok {
        LocalsIsPrefix(d.crcOf, es, i + 1, k);
        CutForGood(cw, s, Locals(d.crcOf, es, i + 1), Locals(d.crcOf, es, k));
        return Some(PeerGone), members, localOffsets;
      }
      RecordMember(d, es, ms, i, localOffsets);
      members := members + [m.(crc := d.crcOf(data), offset := offset)];
      localOffsets := localOffsets + [localOffset];
      i := i + 1;
    }
    StayedSoFar(cw, s, Locals(d.crcOf, es, i));
    err := None;
  }

  /** The second half of writePack: the central directory and the end record. */
  method WriteDirectory(cw: CountingWriter, d: Digests, members: seq<PackMember>, localOffsets: seq<nat>,
                        ghost es: seq<Entry>, ghost s: Start)
    returns (ok: bool)
    requires |members| == |es| && cw.Carried(s, Locals(d.crcOf, es, |es|))
    requires OffsetsUpTo(d, es, localOffsets, |es|)
    requires forall j :: 0 <= j < |es| ==>
      && members[j].path == es[j].path && members[j].size == |es[j].data| && members[j].crc == d.crcOf(es[j].data)
    modifies cw, cw.w, cw.w.w
    ensures var stream := Archive(d.crcOf, es);
      if ok then cw.Carried(s, stream) else cw.Cut(s, stream)
  {
    hide LocalRecord, CentralHeader, Eocd, Drop;
    ghost var locals, stream := Locals(d.crcOf, es, |es|), Archive(d.crcOf, es);
    var cdOffset := cw.n;
    assert locals + Central(d.crcOf, es, 0) == locals;
    var j := 0;
    while j < |members|
      invariant j <= |members| && cw.Carried(s, locals + Central(d.crcOf, es, j))
    {
      var m := members[j];
      var rec := CentralHeader(m.crc, m.size, m.path, localOffsets[j]);
      ok := cw.Write(rec, s, locals + Central(d.crcOf, es, j));
      assert locals + Central(d.crcOf, es, j) + rec == locals + Central(d.crcOf, es, j + 1);
      if !ok {
        CentralIsPrefix(d.crcOf, es, j + 1);
        CutForGood(cw, s, locals + Central(d.crcOf, es, j + 1), stream);
        return;
      }
      j := j + 1;
    }
    var cdSize := cw.n - cdOffset;
    ok := cw.Write(Eocd(|members|, cdSize, cdOffset), s, locals + Central(d.crcOf, es, |es|));
  }

  method WritePack(cw: CountingWriter, d: Digests, files: Files, plan: PackPlan, ghost s: Start)
    returns (r: WriteResult)
    requires cw.Carried(s, [])
    modifies cw, cw.w, cw.w.w
    ensures var stream := Stream(d, files, plan);
      var stayed := |Drop(stream, s.skip)| <= s.budget;
      r == Answer(d, files, plan, stayed) && if stayed then cw.Carried(s, stream) else cw.Cut(s, stream)
  {
    hide Locals, Archive;
    if PackIsRaw(plan) {
      r := WriteRawPack(cw, d, files, plan, s);
      return;
    }
    var early := EarlyRefusal(plan);
    if early.Some? {
      return Refused(early.value);
    }
    ghost var es := EntriesOf(files, plan.members);
    LocalsBeginStream(d, files, plan);
    var err, members, localOffsets := WriteMembers(cw, d, files, plan.members, s);
    if err.Some? {
      if err == Some(PeerGone) {
        CutForGood(cw, s, Locals(d.crcOf, es, GoodMembers(d, files, plan.members)), Stream(d, files, plan));
      }
      return Refused(err.value);
    }
    if cw.n > MAX_U32 {
      return Refused(DirectoryOffsetTooLarge);
    }
    forall j | 0 <= j < |members| ensures members[j].size == |es[j].data| {
      assert MemberRefusal(d, files, plan.members[j]) == None;
    }
    var ok := WriteDirectory(cw, d, members, localOffsets, es, s);
    r := if ok then Written(members, cw.n) else Refused(PeerGone);
  }

  lemma CarriedCounts(cw: CountingWriter, s: Start, t: Bytes)
    requires cw.Carried(s, t)
    ensures cw.n == |t|
  {
  }

  /** While everything sent has arrived, the peer's budget was enough for it. */
  lemma StayedSoFar(cw: CountingWriter, s: Start, t: Bytes)
    requires cw.Carried(s, t)
    ensures |Drop(t, s.skip)| <= s.budget
  {
  }

  /** A peer gone part-way through a stream is gone for the whole of it. */
  lemma CutForGood(cw: CountingWriter, s: Start, t: Bytes, stream: Bytes)
    requires cw.Cut(s, t) && t <= stream
    ensures cw.Cut(s, stream)
  {
    cw.CutLater(s, t, stream[|t|..]);
    assert t + stream[|t|..] == stream;
  }

  lemma {:induction false} LocalsIsPrefix(crcOf: Checksum, es: seq<Entry>, i: nat, n: nat)
    requires i <= n <= |es|
    ensures Locals(crcOf, es, i) <= Locals(crcOf, es, n)
    decreases n
  {
    hide LocalRecord;
    if i < n { LocalsIsPrefix(crcOf, es, i, n - 1); }
  }

  lemma {:induction false} CentralIsPrefix(crcOf: Checksum, es: seq<Entry>, j: nat)
    requires j <= |es|
    ensures Locals(crcOf, es, |es|) + Central(crcOf, es, j) <= Archive(crcOf, es)
    decreases |es| - j
  {
    hide LocalRecord, CentralHeader, Locals, Eocd;
    if j < |es| { CentralIsPrefix(crcOf, es, j + 1); }
  }

  /** The local records of the members before the first refused one begin the stream. */
  lemma LocalsBeginStream(d: Digests, files: Files, plan: PackPlan)
    requires !PackIsRaw(plan) && EarlyRefusal(plan) == None
    ensures var es, k := EntriesOf(files, plan.members), GoodMembers(d, files, plan.members);
      Locals(d.crcOf, es, k) <= Stream(d, files, plan)
  {
    hide LocalRecord, Eocd, Central;
  }
}
