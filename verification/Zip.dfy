/**
 The pack format of backup/pack.go: a STORED ZIP archive written by hand, and a
 reader that follows the format's own chain, end-of-central-directory record to
 central directory to local headers (PKWARE APPNOTE sections 4.3.16, 4.3.12 and
 4.3.7).
 */
module Zip {
  import opened Basics

  const MAX_U16 := 0xFFFF
  const MAX_U32 := 0xFFFF_FFFF

  const LOCAL_HEADER_LEN := 30
  const CENTRAL_HEADER_LEN := 46
  const EOCD_LEN := 22

  const FLAG_UTF8 := 0x0800
  const DOS_TIME := 0
  const DOS_DATE := 33

  const LOCAL_SIG: Bytes := [0x50, 0x4b, 0x03, 0x04]
  const CENTRAL_SIG: Bytes := [0x50, 0x4b, 0x01, 0x02]
  const EOCD_SIG: Bytes := [0x50, 0x4b, 0x05, 0x06]

  /** The conversion uint16(v): wraps modulo 2^16 rather than failing. */
  function ToU16(v: nat): nat { v % 0x1_0000 }

  /** The conversion uint32(v): wraps modulo 2^32 rather than failing. */
  function ToU32(v: nat): nat { v % 0x1_0000_0000 }

  function PutU16(v: nat): Bytes { [v % 256, v / 256 % 256] }

  function PutU32(v: nat): Bytes { [v % 256, v / 256 % 256, v / 0x1_0000 % 256, v / 0x100_0000 % 256] }

  /** One member of an archive: its name and its content. */
  datatype Entry = Entry(path: Bytes, data: Bytes)

  function LocalHeader(crc: nat, size: nat, name: Bytes): Bytes {
    LOCAL_SIG + PutU16(10) + PutU16(FLAG_UTF8) + PutU16(0) + PutU16(DOS_TIME) + PutU16(DOS_DATE)
    + PutU32(crc) + PutU32(ToU32(size)) + PutU32(ToU32(size)) + PutU16(ToU16(|name|)) + PutU16(0) + name
  }

  function CentralHeader(crc: nat, size: nat, name: Bytes, localOffset: nat): Bytes {
    CENTRAL_SIG + PutU16(20) + PutU16(10) + PutU16(FLAG_UTF8) + PutU16(0) + PutU16(DOS_TIME) + PutU16(DOS_DATE)
    + PutU32(crc) + PutU32(ToU32(size)) + PutU32(ToU32(size)) + PutU16(ToU16(|name|))
    + PutU16(0) + PutU16(0) + PutU16(0) + PutU16(0) + PutU32(0x1A4_0000) + PutU32(ToU32(localOffset)) + name
  }

  function Eocd(count: nat, cdSize: nat, cdOffset: nat): Bytes {
    EOCD_SIG + PutU16(0) + PutU16(0) + PutU16(ToU16(count)) + PutU16(ToU16(count))
    + PutU32(ToU32(cdSize)) + PutU32(ToU32(cdOffset)) + PutU16(0)
  }

  /** A checksum of the kind a ZIP header can hold. */
  type Checksum = Bytes -> u32

  function LocalRecord(crcOf: Checksum, e: Entry): Bytes {
    LocalHeader(crcOf(e.data), |e.data|, e.path) + e.data
  }

  /** The local records of the first `n` entries. */
  function Locals(crcOf: Checksum, es: seq<Entry>, n: nat): Bytes
    requires n <= |es|
  {
    if n == 0 then [] else Locals(crcOf, es, n - 1) + LocalRecord(crcOf, es[n - 1])
  }

  /** The central directory records of the first `n` entries. */
  function Central(crcOf: Checksum, es: seq<Entry>, n: nat): Bytes
    requires n <= |es|
  {
    if n == 0 then []
    else
      var e := es[n - 1];
      Central(crcOf, es, n - 1)
      + CentralHeader(crcOf(e.data), |e.data|, e.path, |Locals(crcOf, es, n - 1)|)
  }

  function Archive(crcOf: Checksum, es: seq<Entry>): Bytes {
    var locals := Locals(crcOf, es, |es|);
    var central := Central(crcOf, es, |es|);
    locals + central + Eocd(|es|, |central|, |locals|)
  }

  // ---- The reader -------------------------------------------------------

  function U16At(b: Bytes, p: nat): nat
    requires p + 2 <= |b|
  {
    (b[p] as int) + 256 * (b[p + 1] as int)
  }

  function U32At(b: Bytes, p: nat): nat
    requires p + 4 <= |b|
  {
    (b[p] as int) + 256 * (b[p + 1] as int) + 0x1_0000 * (b[p + 2] as int) + 0x100_0000 * (b[p + 3] as int)
  }

  datatype CentralInfo = CentralInfo(crc: nat, size: nat, name: Bytes, localOffset: nat, next: nat)

  /** Bit 11 of the general-purpose flags: the name is UTF-8. Without it a reader takes it for CP437. */
  predicate NameIsUtf8(flags: nat) { flags / 0x800 % 2 == 1 }

  /** One central directory record at `p`, refused unless it describes a stored, unencrypted member named in UTF-8. */
  function ReadCentral(b: Bytes, p: nat): Option<CentralInfo> {
    if p + CENTRAL_HEADER_LEN > |b| || b[p..p + 4] != [0x50, 0x4b, 0x01, 0x02]
       || U16At(b, p + 8) % 2 != 0 || !NameIsUtf8(U16At(b, p + 8)) || U16At(b, p + 10) != 0
       || U32At(b, p + 20) != U32At(b, p + 24) then None
    else
      var nlen, xlen, clen := U16At(b, p + 28), U16At(b, p + 30), U16At(b, p + 32);
      var next := p + CENTRAL_HEADER_LEN + nlen + xlen + clen;
      if next > |b| then None
      else Some(CentralInfo(U32At(b, p + 16), U32At(b, p + 24),
                            b[p + CENTRAL_HEADER_LEN..p + CENTRAL_HEADER_LEN + nlen], U32At(b, p + 42), next))
  }

  /** Follows a central record to its local header, and checks that the two agree before taking the data. */
  function ReadLocal(crcOf: Checksum, b: Bytes, c: CentralInfo): Option<Entry> {
    var p := c.localOffset;
    if p + LOCAL_HEADER_LEN > |b| || b[p..p + 4] != [0x50, 0x4b, 0x03, 0x04]
       || !NameIsUtf8(U16At(b, p + 6)) || U16At(b, p + 8) != 0 then None
    else
      var nlen, xlen := U16At(b, p + 26), U16At(b, p + 28);
      var start := p + LOCAL_HEADER_LEN + nlen + xlen;
      if start + c.size > |b| || b[p + LOCAL_HEADER_LEN..p + LOCAL_HEADER_LEN + nlen] != c.name
         || U32At(b, p + 14) != c.crc || U32At(b, p + 22) != c.size then None
      else
        var data := b[start..start + c.size];
        if crcOf(data) != c.crc then None else Some(Entry(c.name, data))
  }

  /** Reads `n` central records from `p`; they must end exactly at `end`. */
  function ReadEntries(crcOf: Checksum, b: Bytes, p: nat, n: nat, end: nat): Option<seq<Entry>>
    decreases n
  {
    if n == 0 then if p == end then Some([]) else None
    else
      match ReadCentral(b, p)
      case None => None
      case Some(c) =>
        match ReadLocal(crcOf, b, c)
        case None => None
        case Some(e) =>
          match ReadEntries(crcOf, b, c.next, n - 1, end)
          case None => None
          case Some(rest) => Some([e] + rest)
  }

  /** Scans backwards from `p` for an end record whose comment runs exactly to the end of the file. */
  function FindEocd(b: Bytes, p: nat): (r: Option<nat>)
    ensures r.Some? ==> r.value + EOCD_LEN <= |b|
  {
    if p + EOCD_LEN <= |b| && b[p..p + 4] == [0x50, 0x4b, 0x05, 0x06] && p + EOCD_LEN + U16At(b, p + 20) == |b|
    then Some(p)
    else if p == 0 then None
    else FindEocd(b, p - 1)
  }

  function ReadArchive(crcOf: Checksum, b: Bytes): Option<seq<Entry>> {
    if |b| < EOCD_LEN then None
    else
      match FindEocd(b, |b| - EOCD_LEN)
      case None => None
      case Some(p) =>
        var cdOffset := U32At(b, p + 16);
        var end := cdOffset + U32At(b, p + 12);
        if U16At(b, p + 4) != 0 || U16At(b, p + 6) != 0 || U16At(b, p + 8) != U16At(b, p + 10) || end > p then None
        else ReadEntries(crcOf, b, cdOffset, U16At(b, p + 10), end)
  }

  // ---- Field lemmas -----------------------------------------------------

  lemma {:induction false} U16RoundTrip(v: nat, b: Bytes, p: nat)
    requires v <= MAX_U16 && At(b, p, PutU16(v))
    ensures p + 2 <= |b| && U16At(b, p) == v
  {
    AtIndex(b, p, PutU16(v), 0);
    AtIndex(b, p, PutU16(v), 1);
  }

  lemma {:induction false} DigitsOfU32(v: nat)
    requires v <= MAX_U32
    ensures v == v % 256 + 256 * (v / 256 % 256) + 0x1_0000 * (v / 0x1_0000 % 256) + 0x100_0000 * (v / 0x100_0000 % 256)
  {
    assert v / 0x1_0000 == v / 256 / 256;
    assert v / 0x100_0000 == v / 256 / 256 / 256;
  }

  lemma {:induction false} U32RoundTrip(v: nat, b: Bytes, p: nat)
    requires v <= MAX_U32 && At(b, p, PutU32(v))
    ensures p + 4 <= |b| && U32At(b, p) == v
  {
    DigitsOfU32(v);
    forall k | 0 <= k < 4 ensures b[p + k] == PutU32(v)[k] { AtIndex(b, p, PutU32(v), k); }
    assert b[p + 0] == v % 256 && b[p + 1] == v / 256 % 256;
    assert b[p + 2] == v / 0x1_0000 % 256 && b[p + 3] == v / 0x100_0000 % 256;
  }

  /** A 16-bit field of a header found at `p`. */
  lemma {:induction false} Read16(b: Bytes, p: nat, h: Bytes, k: nat, v: nat)
    requires v <= MAX_U16 && At(b, p, h) && At(h, k, PutU16(v))
    ensures p + k + 2 <= |b| && U16At(b, p + k) == v
  {
    AtWithin(b, p, h, k, PutU16(v));
    U16RoundTrip(v, b, p + k);
  }

  /** A 32-bit field of a header found at `p`. */
  lemma {:induction false} Read32(b: Bytes, p: nat, h: Bytes, k: nat, v: nat)
    requires v <= MAX_U32 && At(b, p, h) && At(h, k, PutU32(v))
    ensures p + k + 4 <= |b| && U32At(b, p + k) == v
  {
    AtWithin(b, p, h, k, PutU32(v));
    U32RoundTrip(v, b, p + k);
  }

  /** A run of bytes of a header found at `p`. */
  lemma {:induction false} ReadRun(b: Bytes, p: nat, h: Bytes, k: nat, piece: Bytes)
    requires At(b, p, h) && At(h, k, piece)
    ensures p + |h| <= |b| && p + k + |piece| <= |b| && b[p + k..p + k + |piece|] == piece
  {
    AtWithin(b, p, h, k, piece);
  }

  lemma {:induction false} FieldLengths()
    ensures forall v: nat :: |PutU16(v)| == 2
    ensures forall v: nat :: |PutU32(v)| == 4
  {
  }

  lemma {:induction false} LocalHeaderLayout(crc: nat, size: nat, name: Bytes)
    ensures var h := LocalHeader(crc, size, name);
      && |h| == LOCAL_HEADER_LEN + |name|
      && At(h, 0, LOCAL_SIG) && At(h, 6, PutU16(FLAG_UTF8)) && At(h, 8, PutU16(0)) && At(h, 14, PutU32(crc))
      && At(h, 18, PutU32(ToU32(size))) && At(h, 22, PutU32(ToU32(size)))
      && At(h, 26, PutU16(ToU16(|name|))) && At(h, 28, PutU16(0)) && At(h, LOCAL_HEADER_LEN, name)
  {
    FieldLengths();
    hide PutU16, PutU32, ToU16, ToU32;
  }

  lemma {:induction false} CentralHeaderLayout(crc: nat, size: nat, name: Bytes, localOffset: nat)
    ensures var h := CentralHeader(crc, size, name, localOffset);
      && |h| == CENTRAL_HEADER_LEN + |name|
      && At(h, 0, CENTRAL_SIG) && At(h, 8, PutU16(FLAG_UTF8)) && At(h, 10, PutU16(0)) && At(h, 16, PutU32(crc))
      && At(h, 20, PutU32(ToU32(size))) && At(h, 24, PutU32(ToU32(size)))
      && At(h, 28, PutU16(ToU16(|name|))) && At(h, 30, PutU16(0)) && At(h, 32, PutU16(0))
      && At(h, 42, PutU32(ToU32(localOffset))) && At(h, CENTRAL_HEADER_LEN, name)
  {
    FieldLengths();
    hide PutU16, PutU32, ToU16, ToU32;
  }

  lemma {:induction false} EocdLayout(count: nat, cdSize: nat, cdOffset: nat)
    ensures var h := Eocd(count, cdSize, cdOffset);
      && |h| == EOCD_LEN
      && At(h, 0, EOCD_SIG) && At(h, 4, PutU16(0)) && At(h, 6, PutU16(0))
      && At(h, 8, PutU16(ToU16(count))) && At(h, 10, PutU16(ToU16(count)))
      && At(h, 12, PutU32(ToU32(cdSize))) && At(h, 16, PutU32(ToU32(cdOffset))) && At(h, 20, PutU16(0))
  {
    FieldLengths();
    hide PutU16, PutU32, ToU16, ToU32;
  }

  /**
   The fields no reader here looks at, byte for byte as APPNOTE sections 4.3.7 and 4.3.12 place
   them: stored, version 1.0 needed and 2.0 made, midnight of 1 January 1980, mode 0644.
   */
  lemma {:induction false} LocalFixedFields(crc: nat, size: nat, name: Bytes)
    ensures var h := LocalHeader(crc, size, name); |h| >= 30 && h[4..14] == [10, 0, 0, 8, 0, 0, 0, 0, 33, 0]
  {
    FieldLengths();
    hide PutU32, ToU32, ToU16;
  }

  lemma {:induction false} CentralFixedFields(crc: nat, size: nat, name: Bytes, localOffset: nat)
    ensures var h := CentralHeader(crc, size, name, localOffset);
      |h| >= 46 && h[4..16] == [20, 0, 10, 0, 0, 8, 0, 0, 0, 0, 33, 0] && h[34..42] == [0, 0, 0, 0, 0, 0, 0xA4, 1]
  {
    CentralAttributes(crc, size, name, localOffset);
    FieldLengths();
    hide PutU32, ToU32, ToU16;
  }

  lemma {:induction false} CentralAttributes(crc: nat, size: nat, name: Bytes, localOffset: nat)
    ensures var h := CentralHeader(crc, size, name, localOffset); |h| >= 46 && h[34..42] == [0, 0, 0, 0, 0, 0, 0xA4, 1]
  {
    FieldLengths();
    assert PutU16(0) + PutU16(0) + PutU32(0x1A4_0000) == [0, 0, 0, 0, 0, 0, 0xA4, 1];
    hide PutU32, PutU16, ToU32, ToU16;
  }

  // ---- Round trip -------------------------------------------------------

  /** The header fields can hold every count, length, size and offset of the archive. */
  ghost predicate Representable(crcOf: Checksum, es: seq<Entry>) {
    && |es| <= MAX_U16
    && (forall i :: 0 <= i < |es| ==> |es[i].path| <= MAX_U16)
    && |Locals(crcOf, es, |es|)| <= MAX_U32
    && |Central(crcOf, es, |es|)| <= MAX_U32
  }

  lemma {:induction false} LocalAt(crcOf: Checksum, es: seq<Entry>, i: nat, n: nat)
    requires i < n <= |es|
    ensures At(Locals(crcOf, es, n), |Locals(crcOf, es, i)|, LocalRecord(crcOf, es[i]))
  {
    hide LocalHeader, CentralHeader, Eocd;
    var before, last := Locals(crcOf, es, n - 1), LocalRecord(crcOf, es[n - 1]);
    if i == n - 1 {
      AtMiddle(before, last, []);
      assert before + last + [] == before + last;
    } else {
      LocalAt(crcOf, es, i, n - 1);
      AtAppend(before, |Locals(crcOf, es, i)|, LocalRecord(crcOf, es[i]), last);
    }
  }

  /** The central record the writer emits for entry `i`. */
  function CentralRecord(crcOf: Checksum, es: seq<Entry>, i: nat): Bytes
    requires i < |es|
  {
    CentralHeader(crcOf(es[i].data), |es[i].data|, es[i].path, |Locals(crcOf, es, i)|)
  }

  lemma {:induction false} RecordLengths(crcOf: Checksum, es: seq<Entry>, i: nat)
    requires i < |es|
    ensures |LocalRecord(crcOf, es[i])| == LOCAL_HEADER_LEN + |es[i].path| + |es[i].data|
    ensures |CentralRecord(crcOf, es, i)| == CENTRAL_HEADER_LEN + |es[i].path|
  {
    hide LocalHeader, CentralHeader, Locals;
    var e := es[i];
    LocalHeaderLayout(crcOf(e.data), |e.data|, e.path);
    CentralHeaderLayout(crcOf(e.data), |e.data|, e.path, |Locals(crcOf, es, i)|);
  }

  lemma {:induction false} CentralAt(crcOf: Checksum, es: seq<Entry>, i: nat, n: nat)
    requires i < n <= |es|
    ensures At(Central(crcOf, es, n), |Central(crcOf, es, i)|, CentralRecord(crcOf, es, i))
  {
    hide LocalHeader, CentralHeader, Eocd;
    var before, last := Central(crcOf, es, n - 1), CentralRecord(crcOf, es, n - 1);
    if i == n - 1 {
      AtMiddle(before, last, []);
      assert before + last + [] == before + last;
    } else {
      CentralAt(crcOf, es, i, n - 1);
      AtAppend(before, |Central(crcOf, es, i)|, CentralRecord(crcOf, es, i), last);
    }
  }

  lemma {:induction false} ReadCentralHeader(b: Bytes, p: nat, crc: u32, size: nat, name: Bytes, localOffset: nat)
    requires size <= MAX_U32 && localOffset <= MAX_U32 && |name| <= MAX_U16
    requires At(b, p, CentralHeader(crc, size, name, localOffset))
    ensures ReadCentral(b, p) == Some(CentralInfo(crc, size, name, localOffset, p + CENTRAL_HEADER_LEN + |name|))
  {
    hide CentralHeader, PutU16, PutU32, U16At, U32At, At;
    var h := CentralHeader(crc, size, name, localOffset);
    CentralHeaderLayout(crc, size, name, localOffset);
    ReadRun(b, p, h, 0, CENTRAL_SIG);
    Read16(b, p, h, 8, FLAG_UTF8);
    Read16(b, p, h, 10, 0);
    Read32(b, p, h, 16, crc);
    Read32(b, p, h, 20, size);
    Read32(b, p, h, 24, size);
    Read16(b, p, h, 28, |name|);
    Read16(b, p, h, 30, 0);
    Read16(b, p, h, 32, 0);
    Read32(b, p, h, 42, localOffset);
    ReadRun(b, p, h, CENTRAL_HEADER_LEN, name);
  }

  /** A local record is its header followed by the member's data. */
  lemma {:induction false} RecordParts(crcOf: Checksum, b: Bytes, p: nat, e: Entry)
    requires At(b, p, LocalRecord(crcOf, e))
    ensures var h := LocalHeader(crcOf(e.data), |e.data|, e.path);
      |h| == LOCAL_HEADER_LEN + |e.path| && At(b, p, h) && At(b, p + |h|, e.data)
      && p + |h| + |e.data| <= |b| && b[p + |h|..p + |h| + |e.data|] == e.data
  {
    hide LocalHeader;
    var h := LocalHeader(crcOf(e.data), |e.data|, e.path);
    LocalHeaderLayout(crcOf(e.data), |e.data|, e.path);
    assert [] + h + e.data == LocalRecord(crcOf, e) && h + e.data + [] == LocalRecord(crcOf, e);
    AtMiddle([], h, e.data);
    AtMiddle(h, e.data, []);
    AtWithin(b, p, LocalRecord(crcOf, e), 0, h);
    AtWithin(b, p, LocalRecord(crcOf, e), |h|, e.data);
  }

  lemma {:induction false} ReadLocalRecord(crcOf: Checksum, b: Bytes, c: CentralInfo, e: Entry)
    requires |e.data| <= MAX_U32 && |e.path| <= MAX_U16
    requires c.crc == crcOf(e.data) && c.size == |e.data| && c.name == e.path
    requires At(b, c.localOffset, LocalRecord(crcOf, e))
    ensures ReadLocal(crcOf, b, c) == Some(e)
  {
    hide LocalHeader, PutU16, PutU32, U16At, U32At, At, LocalRecord;
    var p, h := c.localOffset, LocalHeader(c.crc, |e.data|, e.path);
    LocalHeaderLayout(c.crc, |e.data|, e.path);
    RecordParts(crcOf, b, p, e);
    ReadRun(b, p, h, 0, LOCAL_SIG);
    Read16(b, p, h, 6, FLAG_UTF8);
    Read16(b, p, h, 8, 0);
    Read32(b, p, h, 14, c.crc);
    Read32(b, p, h, 22, |e.data|);
    Read16(b, p, h, 26, |e.path|);
    Read16(b, p, h, 28, 0);
    ReadRun(b, p, h, LOCAL_HEADER_LEN, e.path);
  }

  lemma {:induction false} LocalsGrow(crcOf: Checksum, es: seq<Entry>, i: nat, n: nat)
    requires i <= n <= |es|
    ensures |Locals(crcOf, es, i)| <= |Locals(crcOf, es, n)|
    decreases n
  {
    if i < n { LocalsGrow(crcOf, es, i, n - 1); }
  }

  /** What the reader must see at entry `i`: its central record, and the entry that record leads to. */
  lemma {:induction false} ReadEntryAt(crcOf: Checksum, es: seq<Entry>, b: Bytes, i: nat)
    requires i < |es| && Representable(crcOf, es)
    requires At(b, 0, Locals(crcOf, es, |es|)) && At(b, |Locals(crcOf, es, |es|)|, Central(crcOf, es, |es|))
    ensures var e, cd := es[i], |Locals(crcOf, es, |es|)|;
      var c := CentralInfo(crcOf(e.data), |e.data|, e.path, |Locals(crcOf, es, i)|, cd + |Central(crcOf, es, i + 1)|);
      ReadCentral(b, cd + |Central(crcOf, es, i)|) == Some(c) && ReadLocal(crcOf, b, c) == Some(e)
  {
    hide LocalHeader, CentralHeader, ReadCentral, ReadLocal, At;
    var locals, central, e := Locals(crcOf, es, |es|), Central(crcOf, es, |es|), es[i];
    var offset := |Locals(crcOf, es, i)|;
    assert offset + LOCAL_HEADER_LEN + |e.path| + |e.data| <= MAX_U32 by {
      LocalsGrow(crcOf, es, i + 1, |es|);
      RecordLengths(crcOf, es, i);
    }
    assert |Central(crcOf, es, i + 1)| == |Central(crcOf, es, i)| + CENTRAL_HEADER_LEN + |e.path| by {
      RecordLengths(crcOf, es, i);
    }
    assert At(b, offset, LocalRecord(crcOf, e)) by {
      LocalAt(crcOf, es, i, |es|);
      AtWithin(b, 0, locals, offset, LocalRecord(crcOf, e));
    }
    assert At(b, |locals| + |Central(crcOf, es, i)|, CentralRecord(crcOf, es, i)) by {
      CentralAt(crcOf, es, i, |es|);
      AtWithin(b, |locals|, central, |Central(crcOf, es, i)|, CentralRecord(crcOf, es, i));
    }
    hide Locals, Central, LocalRecord;
    ReadCentralHeader(b, |locals| + |Central(crcOf, es, i)|, crcOf(e.data), |e.data|, e.path, offset);
    ReadLocalRecord(crcOf, b, ReadCentral(b, |locals| + |Central(crcOf, es, i)|).value, e);
  }

  lemma {:induction false} ReadEntriesFrom(crcOf: Checksum, es: seq<Entry>, b: Bytes, i: nat)
    requires i <= |es| && Representable(crcOf, es)
    requires At(b, 0, Locals(crcOf, es, |es|)) && At(b, |Locals(crcOf, es, |es|)|, Central(crcOf, es, |es|))
    ensures var cd := |Locals(crcOf, es, |es|)|;
      ReadEntries(crcOf, b, cd + |Central(crcOf, es, i)|, |es| - i, cd + |Central(crcOf, es, |es|)|) == Some(es[i..])
    decreases |es| - i
  {
    hide Locals, Central, At, ReadCentral, ReadLocal;
    if i < |es| {
      ReadEntryAt(crcOf, es, b, i);
      ReadEntriesFrom(crcOf, es, b, i + 1);
      assert [es[i]] + es[i + 1..] == es[i..];
    } else {
      assert es[i..] == [];
    }
  }

  lemma {:induction false} FoundEocd(b: Bytes, p: nat)
    requires p + EOCD_LEN <= |b| && b[p..p + 4] == [0x50, 0x4b, 0x05, 0x06] && p + EOCD_LEN + U16At(b, p + 20) == |b|
    ensures FindEocd(b, p) == Some(p)
  {
    hide U16At;
  }

  lemma {:induction false} ReadEocd(b: Bytes, count: nat, cdSize: nat, cdOffset: nat)
    requires count <= MAX_U16 && cdSize <= MAX_U32 && cdOffset <= MAX_U32 && |b| >= EOCD_LEN
    requires At(b, |b| - EOCD_LEN, Eocd(count, cdSize, cdOffset))
    ensures var p := |b| - EOCD_LEN;
      && FindEocd(b, p) == Some(p)
      && U16At(b, p + 4) == 0 && U16At(b, p + 6) == 0 && U16At(b, p + 8) == count && U16At(b, p + 10) == count
      && U32At(b, p + 12) == cdSize && U32At(b, p + 16) == cdOffset
  {
    hide Eocd, PutU16, PutU32, U16At, U32At, At, FindEocd;
    var p, h := |b| - EOCD_LEN, Eocd(count, cdSize, cdOffset);
    EocdLayout(count, cdSize, cdOffset);
    ReadRun(b, p, h, 0, EOCD_SIG);
    Read16(b, p, h, 4, 0);
    Read16(b, p, h, 6, 0);
    Read16(b, p, h, 8, count);
    Read16(b, p, h, 10, count);
    Read32(b, p, h, 12, cdSize);
    Read32(b, p, h, 16, cdOffset);
    Read16(b, p, h, 20, 0);
    FoundEocd(b, p);
  }

  lemma {:induction false} ArchiveParts(crcOf: Checksum, es: seq<Entry>)
    ensures var b, locals, central := Archive(crcOf, es), Locals(crcOf, es, |es|), Central(crcOf, es, |es|);
      && |b| == |locals| + |central| + EOCD_LEN
      && At(b, 0, locals) && At(b, |locals|, central)
      && At(b, |b| - EOCD_LEN, Eocd(|es|, |central|, |locals|))
  {
    hide Eocd, Locals, Central;
    var locals, central := Locals(crcOf, es, |es|), Central(crcOf, es, |es|);
    var end, b := Eocd(|es|, |central|, |locals|), Archive(crcOf, es);
    EocdLayout(|es|, |central|, |locals|);
    AtMiddle(locals + central, end, []);
    assert locals + central + end + [] == b;
    AtMiddle(locals, central, end);
    AtMiddle([], locals, central + end);
    assert [] + locals + (central + end) == b;
  }

  lemma {:induction false} ReadAllEntries(crcOf: Checksum, es: seq<Entry>, b: Bytes)
    requires Representable(crcOf, es)
    requires At(b, 0, Locals(crcOf, es, |es|)) && At(b, |Locals(crcOf, es, |es|)|, Central(crcOf, es, |es|))
    ensures ReadEntries(crcOf, b, |Locals(crcOf, es, |es|)|, |es|,
                        |Locals(crcOf, es, |es|)| + |Central(crcOf, es, |es|)|) == Some(es)
  {
    hide LocalRecord, CentralHeader, ReadCentral, ReadLocal, ReadEntries, At;
    ReadEntriesFrom(crcOf, es, b, 0);
  }

  /** Reading back what was written recovers exactly the ordered list of names and contents. */
  lemma {:induction false} RoundTrip(crcOf: Checksum, es: seq<Entry>)
    requires Representable(crcOf, es)
    ensures ReadArchive(crcOf, Archive(crcOf, es)) == Some(es)
  {
    hide Archive, Eocd, Locals, Central, U16At, U32At, FindEocd, ReadEntries, At;
    var b, locals, central := Archive(crcOf, es), Locals(crcOf, es, |es|), Central(crcOf, es, |es|);
    ArchiveParts(crcOf, es);
    ReadEocd(b, |es|, |central|, |locals|);
    ReadAllEntries(crcOf, es, b);
  }

  /** Where the writer says entry `i`'s data begins: past its local header. */
  function DataOffset(crcOf: Checksum, es: seq<Entry>, i: nat): nat
    requires i < |es|
  {
    |Locals(crcOf, es, i)| + LOCAL_HEADER_LEN + |es[i].path|
  }

  /** A single range read at that offset yields the file, with no archive parsing. */
  lemma {:induction false} DataAtOffset(crcOf: Checksum, es: seq<Entry>, i: nat)
    requires i < |es|
    ensures At(Archive(crcOf, es), DataOffset(crcOf, es, i), es[i].data)
  {
    hide LocalHeader, CentralHeader, Eocd;
    var locals, e, rec := Locals(crcOf, es, |es|), es[i], LocalRecord(crcOf, es[i]);
    var h := LocalHeader(crcOf(e.data), |e.data|, e.path);
    LocalHeaderLayout(crcOf(e.data), |e.data|, e.path);
    LocalAt(crcOf, es, i, |es|);
    AtMiddle(h, e.data, []);
    assert h + e.data + [] == rec;
    AtWithin(locals, |Locals(crcOf, es, i)|, rec, |h|, e.data);
    var tail := Central(crcOf, es, |es|) + Eocd(|es|, |Central(crcOf, es, |es|)|, |locals|);
    AtAppend(locals, DataOffset(crcOf, es, i), e.data, tail);
    assert locals + tail == Archive(crcOf, es);
  }
}
