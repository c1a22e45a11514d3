/** hashFile and rehashDue of backup/inventory.go: what is read of a file, and when. */
module FileCheck {
  import opened Basics

  const TAIL_WINDOW := 512
  const HEAD_WINDOW := 16

  /** sha256 and the test that a name has an image extension, both left uninterpreted. */
  datatype Hasher = Hasher(shaOf: Bytes -> Bytes, isImageName: Bytes -> bool)

  function Last(b: Bytes, n: nat): Bytes { if |b| <= n then b else b[|b| - n..] }

  function First(b: Bytes, n: nat): Bytes { if |b| <= n then b else b[..n] }

  predicate MarkerAt(b: Bytes, i: nat, marker: Bytes) { i + |marker| <= |b| && b[i..i + |marker|] == marker }

  predicate Contains(b: Bytes, marker: Bytes) {
    exists i :: 0 <= i <= |b| && MarkerAt(b, i, marker)
  }

  datatype Format = Jpeg | Png | Gif | Webp | Unknown

  function ImageFormat(head: Bytes): Format {
    if [0xFF, 0xD8, 0xFF] <= head then Jpeg
    else if [0x89, 0x50, 0x4E, 0x47, 0x0D, 0x0A, 0x1A, 0x0A] <= head then Png
    else if [0x47, 0x49, 0x46, 0x38] <= head then Gif
    else if [0x52, 0x49, 0x46, 0x46] <= head then Webp
    else Unknown
  }

  predicate HasCompleteTail(h: Hasher, head: Bytes, tail: Bytes, size: nat, path: Bytes) {
    if size == 0 then !h.isImageName(path)
    else if tail == [] then true
    else
      match ImageFormat(head)
      case Jpeg => Contains(tail, [0xFF, 0xD9])
      case Png => Contains(tail, [0x49, 0x45, 0x4E, 0x44])
      case Gif => Contains(tail, [0x3B])
      case _ => true
  }

  /** The verdict on a file, from its content and the size the walk saw. */
  predicate Truncated(h: Hasher, content: Bytes, size: nat, path: Bytes) {
    !HasCompleteTail(h, First(content, HEAD_WINDOW), Last(content, TAIL_WINDOW), size, path)
  }

  /**
   One pass over a file in chunks of any size, keeping a bounded head and tail. Only the
   first read is assumed not to come back shorter than the head window needs.
   */
  method HashFile(h: Hasher, content: Bytes, size: nat, path: Bytes) returns (sum: Bytes, truncated: bool)
    ensures sum == h.shaOf(content) && truncated == Truncated(h, content, size, path)
  {
    var head, tail: Bytes := [], [];
    var started, i := false, 0;
    while i < |content|
      invariant i <= |content| && started == (i > 0)
      invariant tail == Last(content[..i], TAIL_WINDOW)
      invariant i > 0 ==> head == First(content, HEAD_WINDOW)
    {
      var n :| 0 < n <= |content| - i && (i == 0 ==> n >= HEAD_WINDOW || n == |content|);
      var chunk := content[i..i + n];
      if !started {
        head, started := First(chunk, HEAD_WINDOW), true;
      }
      LastOfLonger(content[..i], chunk);
      assert content[..i] + chunk == content[..i + n];
      tail := Last(tail + Last(chunk, TAIL_WINDOW), TAIL_WINDOW);
      i := i + n;
    }
    assert content[..|content|] == content;
    sum := h.shaOf(content);
    truncated := !HasCompleteTail(h, head, tail, size, path);
  }

  /** Trimming at every chunk keeps what trimming once at the end would. */
  lemma LastOfLonger(seen: Bytes, chunk: Bytes)
    ensures Last(Last(seen, TAIL_WINDOW) + Last(chunk, TAIL_WINDOW), TAIL_WINDOW) == Last(seen + chunk, TAIL_WINDOW)
  {
  }

  /** `marker` lies within the last 512 bytes. */
  ghost predicate EndsWith(content: Bytes, marker: Bytes) {
    exists i :: 0 <= i <= |content| && |content| - 512 <= i && MarkerAt(content, i, marker)
  }

  lemma {:induction false} TailHolds(content: Bytes, marker: Bytes)
    ensures Contains(Last(content, TAIL_WINDOW), marker) <==> EndsWith(content, marker)
  {
    var tail := Last(content, TAIL_WINDOW);
    var skipped := |content| - |tail|;
    forall i: nat | i <= |tail| ensures MarkerAt(tail, i, marker) <==> MarkerAt(content, skipped + i, marker) {
      if i + |marker| <= |tail| {
        assert tail[i..i + |marker|] == content[skipped + i..skipped + i + |marker|];
      }
    }
    if Contains(tail, marker) {
      var i :| 0 <= i <= |tail| && MarkerAt(tail, i, marker);
      assert MarkerAt(content, skipped + i, marker);
    }
    if EndsWith(content, marker) {
      var i :| 0 <= i <= |content| && |content| - 512 <= i && MarkerAt(content, i, marker);
      assert MarkerAt(tail, i - skipped, marker);
    }
  }

  lemma HeadStarts(content: Bytes, magic: Bytes)
    requires |magic| <= 16
    ensures magic <= First(content, HEAD_WINDOW) <==> magic <= content
  {
  }

  /**
   What is flagged, by content and not by name: a JPEG, PNG or GIF whose end marker is not in its
   last 512 bytes, and nothing else that has content; of the empty files exactly those named as images.
   */
  lemma {:induction false} FlaggedExactlyWhen(h: Hasher, content: Bytes, path: Bytes)
    ensures var flagged := Truncated(h, content, |content|, path);
      if content == [] then flagged <==> h.isImageName(path)
      else if [0xFF, 0xD8, 0xFF] <= content then flagged <==> !EndsWith(content, [0xFF, 0xD9])
      else if [0x89, 0x50, 0x4E, 0x47, 13, 10, 26, 10] <= content then flagged <==> !EndsWith(content, [73, 69, 78, 68])
      else if [71, 73, 70, 56] <= content then flagged <==> !EndsWith(content, [0x3B])
      else !flagged
  {
    HeadStarts(content, [0xFF, 0xD8, 0xFF]);
    HeadStarts(content, [0x89, 0x50, 0x4E, 0x47, 13, 10, 26, 10]);
    HeadStarts(content, [71, 73, 70, 56]);
    TailHolds(content, [0xFF, 0xD9]);
    TailHolds(content, [73, 69, 78, 68]);
    TailHolds(content, [0x3B]);
    hide Contains, EndsWith;
  }

  // ---- Rolling re-hash --------------------------------------------------

  /** Bitwise exclusive or. */
  function Xor(a: nat, b: nat): nat { if a == 0 && b == 0 then 0 else (a + b) % 2 + 2 * Xor(a / 2, b / 2) }

  /** One byte of 32-bit FNV-1a: xor, which a byte does to the low eight bits, then multiply modulo 2^32. */
  function FnvStep(h: u32, b: byte): u32 { (h / 256 * 256 + Xor(h % 256, b)) * 16777619 % 0x1_0000_0000 }

  function Fnv(path: Bytes): u32 {
    if path == [] then 2166136261 else FnvStep(Fnv(path[..|path| - 1]), path[|path| - 1])
  }

  /** Reducing the denominator to 32 bits must not leave zero, or the remainder below has none to divide by. */
  predicate UsableDenom(denom: int) { denom <= 1 || denom % 0x1_0000_0000 != 0 }

  /** Whether a file is read again this generation although its stat has not moved. */
  predicate IsDue(path: Bytes, gen: nat, denom: int)
    requires UsableDenom(denom)
  {
    denom <= 1 || Fnv(path) % (denom % 0x1_0000_0000) == gen % denom
  }

  method RehashDue(path: Bytes, gen: nat, denom: int) returns (due: bool)
    requires UsableDenom(denom)
    ensures due == IsDue(path, gen, denom)
  {
    hide FnvStep;
    if denom <= 1 {
      return true;
    }
    var h: u32 := 2166136261;
    for i := 0 to |path|
      invariant h == Fnv(path[..i])
    {
      assert path[..i + 1][..i] == path[..i];
      h := FnvStep(h, path[i]);
    }
    assert path[..|path|] == path;
    due := h % (denom % 0x1_0000_0000) == gen % denom;
  }

  /** Among any `denom` consecutive generations every path is due exactly once. */
  lemma DueExactlyOnce(path: Bytes, from: nat, denom: nat) returns (gen: nat)
    requires 1 < denom < 0x1_0000_0000
    ensures from <= gen < from + denom && IsDue(path, gen, denom)
    ensures forall g :: from <= g < from + denom && IsDue(path, g, denom) ==> g == gen
  {
    var f := Fnv(path) % denom;
    gen := OnceInWindow(f, from, denom);
  }

  lemma OnceInWindow(f: nat, from: nat, denom: nat) returns (gen: nat)
    requires f < denom
    ensures from <= gen < from + denom && gen % denom == f
    ensures forall g :: from <= g < from + denom && g % denom == f ==> g == gen
  {
    var r := from % denom;
    gen := if r <= f then from + (f - r) else from + (f + denom - r);
    var k := if r <= f then from / denom else from / denom + 1;
    assert gen == k * denom + f by { Split(from, denom); }
    Residue(k, f, denom);
    forall g | from <= g < from + denom && g % denom == f ensures g == gen {
      Split(g, denom);
      SameResidueFarApart(g / denom, k, f, denom);
    }
  }

  lemma Split(n: nat, denom: nat)
    requires denom > 0
    ensures n == n / denom * denom + n % denom
    ensures (n / denom + 1) * denom == n / denom * denom + denom
  {
  }

  lemma Residue(k: nat, f: nat, denom: nat)
    requires f < denom
    ensures (k * denom + f) % denom == f
  {
    Split(k * denom + f, denom);
    SameRemainder((k * denom + f) / denom, (k * denom + f) % denom, k, f, denom);
  }

  lemma SameRemainder(a: nat, r: nat, b: nat, f: nat, denom: nat)
    requires r < denom && f < denom && a * denom + r == b * denom + f
    ensures r == f
  {
    if a < b { MultiplesApart(a, b, denom); }
    if b < a { MultiplesApart(b, a, denom); }
  }

  /** Two different numbers with one residue are at least a period apart. */
  lemma SameResidueFarApart(a: nat, b: nat, f: nat, denom: nat)
    ensures a == b || a * denom + f + denom <= b * denom + f || b * denom + f + denom <= a * denom + f
  {
    if a < b { MultiplesApart(a, b, denom); }
    if b < a { MultiplesApart(b, a, denom); }
  }
}
