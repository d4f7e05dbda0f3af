/**
  The write-ahead log as a byte file: appending the frames of a commit, looking up
  the frame of a page, and rebuilding the index from the bytes of a file.
 */
module Wal {
  import opened Bytes

  type PageNumber = Word
  type Page = seq<Byte>

  const WAL_MAGIC: Word := 0x377F0682
  const WAL_FORMAT_VERSION: Word := 3007000
  const HDR: nat := 32
  const FRAME_HDR: nat := 24

  /** Page number of a frame, and the database size if the frame ends a commit (else 0). */
  datatype FrameMeta = FrameMeta(pgno: PageNumber, dbSize: Word)

  /** The file and the in-memory index; frames[i] describes frame number i + 1. */
  datatype Wal = Wal(bytes: seq<Byte>, frames: seq<FrameMeta>, salt1: Word, salt2: Word, cksum1: Word, cksum2: Word)

  /** One page of a commit. */
  datatype DirtyPage = DirtyPage(pgno: PageNumber, data: Page)

  function FrameSize(ps: nat): nat {
    FRAME_HDR + ps
  }

  /** Where frame number i + 1 starts: the header and i whole frames precede it. */
  function FrameOffset(i: nat, ps: nat): nat {
    if i == 0 then HDR else FrameOffset(i - 1, ps) + FrameSize(ps)
  }

  // ---- The index ----

  /** Number of the last frame that ends a commit; 0 if there is none. */
  function LastCommit(frames: seq<FrameMeta>): (n: nat)
    ensures n <= |frames|
    ensures n > 0 ==> frames[n - 1].dbSize != 0
    ensures forall i :: n <= i < |frames| ==> frames[i].dbSize == 0
  {
    if frames == [] then 0
    else if frames[|frames| - 1].dbSize != 0 then |frames|
    else LastCommit(frames[..|frames| - 1])
  }

  /** Number of the last of the first n frames that holds page p; 0 if there is none. */
  function LatestFrame(frames: seq<FrameMeta>, n: nat, p: PageNumber): (i: nat)
    requires n <= |frames|
    ensures i <= n
    ensures i > 0 ==> frames[i - 1].pgno == p
    ensures forall j :: i <= j < n ==> frames[j].pgno != p
  {
    if n == 0 then 0 else if frames[n - 1].pgno == p then n else LatestFrame(frames, n - 1, p)
  }

  /** The two backward scans, as the code runs them. */
  method FindLatestFrame(frames: seq<FrameMeta>, p: PageNumber) returns (frameNo: nat)
    ensures frameNo == LatestFrame(frames, LastCommit(frames), p)
  {
    var n: nat := |frames|;
    while n > 0 && frames[n - 1].dbSize == 0
      invariant n <= |frames|
      invariant LastCommit(frames[..n]) == LastCommit(frames)
    {
      assert frames[..n][..n - 1] == frames[..n - 1];
      n := n - 1;
    }
    assert n > 0 ==> frames[..n][|frames[..n]| - 1].dbSize != 0;
    frameNo := n;
    while frameNo > 0 && frames[frameNo - 1].pgno != p
      invariant frameNo <= n
      invariant LatestFrame(frames, frameNo, p) == LatestFrame(frames, n, p)
    {
      frameNo := frameNo - 1;
    }
  }

  // ---- Views ----

  /** Page p of the main file; pages past its end read as zeros. */
  function FilePage(file: seq<Page>, ps: nat, p: PageNumber): Page {
    if 1 <= p <= |file| then file[p - 1] else Zeros(ps)
  }

  /** The data of frame i + 1. */
  function FrameData(w: Wal, ps: nat, i: nat): Page {
    var o := FrameOffset(i, ps);
    if o + FrameSize(ps) <= |w.bytes| then w.bytes[o + FRAME_HDR..o + FrameSize(ps)] else []
  }

  /** Every indexed frame lies in the file, with the header that the index describes. */
  ghost predicate WalOk(w: Wal, ps: nat) {
    && HeaderOk(w, ps)
    && (forall i :: 0 <= i < |w.frames| ==> FrameOk(w, ps, i))
  }

  ghost predicate FrameOk(w: Wal, ps: nat, i: nat) {
    var o := FrameOffset(i, ps);
    && o + FrameSize(ps) <= |w.bytes|
    && i < |w.frames|
    && Get32(w.bytes[o..]) == w.frames[i].pgno
    && Get32(w.bytes[o + 4..]) == w.frames[i].dbSize
    && Get32(w.bytes[o + 8..]) == w.salt1
    && Get32(w.bytes[o + 12..]) == w.salt2
  }

  ghost predicate HeaderOk(w: Wal, ps: nat) {
    && |w.bytes| >= HDR && 0 < ps < 0x1_0000_0000
    && (Get32(w.bytes) == WAL_MAGIC || Get32(w.bytes) == WAL_MAGIC + 1)
    && (Get32(w.bytes[8..]) == ps || Get32(w.bytes[8..]) == 0)
    && Get32(w.bytes[16..]) == w.salt1
    && Get32(w.bytes[20..]) == w.salt2
  }

  /** What a read outside a transaction returns: the latest committed frame, else the main file. */
  function Lookup(w: Wal, file: seq<Page>, ps: nat, p: PageNumber): Page {
    var i := LatestFrame(w.frames, LastCommit(w.frames), p);
    if i > 0 then FrameData(w, ps, i - 1) else FilePage(file, ps, p)
  }

  /** Page p as the first n frames leave it. */
  function FrameView(w: Wal, file: seq<Page>, ps: nat, n: nat, p: PageNumber): Page
    requires n <= |w.frames|
  {
    var i := LatestFrame(w.frames, n, p);
    if i > 0 then FrameData(w, ps, i - 1) else FilePage(file, ps, p)
  }

  /** The main file with page p written. */
  function FileWrite(file: seq<Page>, ps: nat, p: PageNumber, data: Page): (f: seq<Page>)
    requires p >= 1
    ensures |f| >= |file| && |f| >= p
    ensures forall q: PageNumber :: FilePage(f, ps, q) == if q == p then data else FilePage(file, ps, q)
  {
    if p <= |file| then file[p - 1 := data]
    else file + seq(p - 1 - |file|, _ => Zeros(ps)) + [data]
  }

  /** The main file after the first n frames have been copied into it, first frame first. */
  function CopyFrames(w: Wal, file: seq<Page>, ps: nat, n: nat): seq<Page>
    requires n <= |w.frames|
  {
    if n == 0 then file
    else
      var f := CopyFrames(w, file, ps, n - 1);
      if w.frames[n - 1].pgno == 0 then f else FileWrite(f, ps, w.frames[n - 1].pgno, FrameData(w, ps, n - 1))
  }

  lemma {:induction false} FrameOffsetMono(i: nat, j: nat, ps: nat)
    requires i <= j
    ensures FrameOffset(i, ps) <= FrameOffset(j, ps)
    ensures i < j ==> FrameOffset(i, ps) + FrameSize(ps) <= FrameOffset(j, ps)
  {
    if i < j {
      FrameOffsetMono(i, j - 1, ps);
    }
  }

  /** The offset as the code computes it, and how many whole frames a file of a given length holds. */
  lemma {:induction false} FrameOffsetClosed(i: nat, ps: nat)
    ensures FrameOffset(i, ps) == HDR + i * FrameSize(ps)
  {
    if i > 0 {
      FrameOffsetClosed(i - 1, ps);
    }
  }

  function FramesIn(len: nat, ps: nat): nat
    requires len >= HDR
  {
    (len - HDR) / FrameSize(ps)
  }

  lemma FramesInBounds(len: nat, ps: nat)
    requires len >= HDR
    ensures FrameOffset(FramesIn(len, ps), ps) <= len < FrameOffset(FramesIn(len, ps) + 1, ps)
  {
    var n := FramesIn(len, ps);
    FrameOffsetClosed(n, ps);
    var fs := FrameSize(ps);
    assert len - HDR == n * fs + (len - HDR) % fs;
  }

  /** The backward scan for the latest frame of a page agrees with copying the frames over the main file in order. */
  lemma {:induction false} LookupIsReplay(w: Wal, file: seq<Page>, ps: nat, n: nat, p: PageNumber)
    requires n <= |w.frames| && p >= 1
    ensures FrameView(w, file, ps, n, p) == FilePage(CopyFrames(w, file, ps, n), ps, p)
  {
    hide FrameData, FilePage, FileWrite;
    if n > 0 {
      LookupIsReplay(w, file, ps, n - 1, p);
    }
  }

  // ---- Appending ----

  function HeaderBytes(pgno: PageNumber, dbSize: Word, salt1: Word, salt2: Word, c1: Word, c2: Word): (h: seq<Byte>)
    ensures |h| == FRAME_HDR
  {
    Put32(pgno) + Put32(dbSize) + Put32(salt1) + Put32(salt2) + Put32(c1) + Put32(c2)
  }

  /** The page data, zero-padded or cut to the page size. */
  function Padded(data: Page, ps: nat): (d: Page)
    ensures |d| == ps
  {
    if |data| < ps then data + Zeros(ps - |data|) else data[..ps]
  }

  /** The file with `x` written at `o`. */
  function WriteAt(b: seq<Byte>, o: nat, x: seq<Byte>): (r: seq<Byte>)
    requires o <= |b|
    ensures |r| >= o + |x| && r[..o] == b[..o] && r[o..o + |x|] == x
  {
    b[..o] + x + (if o + |x| <= |b| then b[o + |x|..] else [])
  }

  /** One round of the checksum: wrapping 32-bit sums over pairs of words. */
  function Checksum(data: seq<Byte>, s1: Word, s2: Word): (Word, Word)
    decreases |data|
  {
    if |data| < 8 then (s1, s2)
    else
      var a := (s1 + Get32(data) + s2) % 0x1_0000_0000;
      var b := (s2 + Get32(data[4..]) + a) % 0x1_0000_0000;
      Checksum(data[8..], a, b)
  }

  /** Append one frame at its place in the file. */
  function AppendFrame(w: Wal, ps: nat, d: DirtyPage, dbSize: Word): (v: Wal)
    requires FrameOffset(|w.frames|, ps) <= |w.bytes|
    ensures FrameOffset(|v.frames|, ps) <= |v.bytes|
  {
    var h := Checksum(Put32(d.pgno) + Put32(dbSize), w.cksum1, w.cksum2);
    var c := Checksum(d.data, h.0, h.1);
    var x := HeaderBytes(d.pgno, dbSize, w.salt1, w.salt2, c.0, c.1) + Padded(d.data, ps);
    w.(bytes := WriteAt(w.bytes, FrameOffset(|w.frames|, ps), x),
       frames := w.frames + [FrameMeta(d.pgno, dbSize)],
       cksum1 := c.0, cksum2 := c.1)
  }

  /** The fields of a frame header can be read back. */
  lemma HeaderFields(pgno: PageNumber, dbSize: Word, s1: Word, s2: Word, c1: Word, c2: Word, rest: seq<Byte>)
    ensures
      var h := HeaderBytes(pgno, dbSize, s1, s2, c1, c2) + rest;
      Get32(h) == pgno && Get32(h[4..]) == dbSize && Get32(h[8..]) == s1 && Get32(h[12..]) == s2
  {
    hide Get32, Put32;
    var h := HeaderBytes(pgno, dbSize, s1, s2, c1, c2) + rest;
    assert h == Put32(pgno) + h[4..];
    PutGet32(pgno, h[4..]);
    assert h[4..] == Put32(dbSize) + h[8..];
    PutGet32(dbSize, h[8..]);
    assert h[8..] == Put32(s1) + h[12..];
    PutGet32(s1, h[12..]);
    assert h[12..] == Put32(s2) + h[16..];
    PutGet32(s2, h[16..]);
  }

  /** Two files that agree up to `k` agree on the 32-bit number at any offset before k - 4. */
  lemma Get32Agree(a: seq<Byte>, b: seq<Byte>, k: nat, o: nat)
    requires k <= |a| && k <= |b| && a[..k] == b[..k] && o + 4 <= k
    ensures Get32(a[o..]) == Get32(b[o..])
  {
    forall j | 0 <= j < 4 ensures a[o..][j] == b[o..][j] {
      assert a[o + j] == a[..k][o + j] == b[..k][o + j];
    }
  }

  /** Bytes before `k` determine the frames that end before it. */
  lemma FrameAgree(w: Wal, v: Wal, ps: nat, i: nat, k: nat)
    requires FrameOk(w, ps, i) && FrameOffset(i, ps) + FrameSize(ps) <= k
    requires k <= |w.bytes| && k <= |v.bytes| && w.bytes[..k] == v.bytes[..k]
    requires i < |v.frames| && v.frames[i] == w.frames[i] && v.salt1 == w.salt1 && v.salt2 == w.salt2
    ensures FrameOk(v, ps, i) && FrameData(v, ps, i) == FrameData(w, ps, i)
  {
    hide FrameOffset, Get32;
    var o := FrameOffset(i, ps);
    Get32Agree(w.bytes, v.bytes, k, o);
    Get32Agree(w.bytes, v.bytes, k, o + 4);
    Get32Agree(w.bytes, v.bytes, k, o + 8);
    Get32Agree(w.bytes, v.bytes, k, o + 12);
    SliceAgree(w.bytes, v.bytes, k, o + FRAME_HDR, o + FrameSize(ps));
  }

  lemma SliceAgree(a: seq<Byte>, b: seq<Byte>, k: nat, i: nat, j: nat)
    requires k <= |a| && k <= |b| && a[..k] == b[..k] && i <= j <= k
    ensures a[i..j] == b[i..j]
  {
    assert a[..k][i..j] == a[i..j] && b[..k][i..j] == b[i..j];
  }

  lemma HeaderAgree(w: Wal, v: Wal, ps: nat, k: nat)
    requires HeaderOk(w, ps) && HDR <= k <= |w.bytes| && k <= |v.bytes| && w.bytes[..k] == v.bytes[..k]
    requires v.salt1 == w.salt1 && v.salt2 == w.salt2
    ensures HeaderOk(v, ps)
  {
    Get32Agree(w.bytes, v.bytes, k, 0);
    Get32Agree(w.bytes, v.bytes, k, 8);
    Get32Agree(w.bytes, v.bytes, k, 16);
    Get32Agree(w.bytes, v.bytes, k, 20);
    assert w.bytes[0..] == w.bytes && v.bytes[0..] == v.bytes;
  }

  /** An appended frame is in the file, and the earlier ones still are. */
  lemma AppendFrameOk(w: Wal, ps: nat, d: DirtyPage, dbSize: Word)
    requires WalOk(w, ps) && FrameOffset(|w.frames|, ps) <= |w.bytes|
    ensures
      var v := AppendFrame(w, ps, d, dbSize);
      && WalOk(v, ps) && FrameOffset(|v.frames|, ps) <= |v.bytes|
      && FrameData(v, ps, |w.frames|) == Padded(d.data, ps)
      && forall i :: 0 <= i < |w.frames| ==> FrameData(v, ps, i) == FrameData(w, ps, i)
  {
    hide FrameData, FrameOk, Padded, Get32, HeaderOk;
    var v := AppendFrame(w, ps, d, dbSize);
    var n := |w.frames|;
    var o := FrameOffset(n, ps);
    FrameOffsetMono(0, n, ps);
    HeaderAgree(w, v, ps, o);
    forall i | 0 <= i < n ensures FrameOk(v, ps, i) && FrameData(v, ps, i) == FrameData(w, ps, i) {
      assert FrameOk(w, ps, i);
      FrameOffsetMono(i, n, ps);
      FrameAgree(w, v, ps, i, o);
    }
    NewFrame(w, ps, d, dbSize);
  }

  lemma NewFrame(w: Wal, ps: nat, d: DirtyPage, dbSize: Word)
    requires FrameOffset(|w.frames|, ps) <= |w.bytes|
    ensures
      var v := AppendFrame(w, ps, d, dbSize);
      && FrameOk(v, ps, |w.frames|) && FrameOffset(|v.frames|, ps) <= |v.bytes|
      && FrameData(v, ps, |w.frames|) == Padded(d.data, ps)
  {
    var v := AppendFrame(w, ps, d, dbSize);
    var o := FrameOffset(|w.frames|, ps);
    var data := Padded(d.data, ps);
    var h := Checksum(Put32(d.pgno) + Put32(dbSize), w.cksum1, w.cksum2);
    var c := Checksum(d.data, h.0, h.1);
    var hb := HeaderBytes(d.pgno, dbSize, w.salt1, w.salt2, c.0, c.1);
    var x := hb + data;
    assert v.bytes[o..o + |x|] == x;
    var tail := v.bytes[o + |x|..];
    assert v.bytes[o..] == hb + (data + tail);
    HeaderFields(d.pgno, dbSize, w.salt1, w.salt2, c.0, c.1, data + tail);
    assert forall k :: 0 <= k <= |x| ==> v.bytes[o..][k..] == v.bytes[o + k..];
    assert v.bytes[o + FRAME_HDR..o + FrameSize(ps)] == x[FRAME_HDR..] == data;
  }

  // ---- Commits ----

  /** The frames of one commit; only the last one carries the database size. */
  function AppendFrom(w: Wal, ps: nat, pages: seq<DirtyPage>, dbSize: Word): (v: Wal)
    requires FrameOffset(|w.frames|, ps) <= |w.bytes|
    ensures FrameOffset(|v.frames|, ps) <= |v.bytes|
    decreases |pages|
  {
    if pages == [] then w
    else AppendFrom(AppendFrame(w, ps, pages[0], if |pages| == 1 then dbSize else 0), ps, pages[1..], dbSize)
  }

  method AppendFrames(w: Wal, ps: nat, pages: seq<DirtyPage>, dbSize: Word) returns (v: Wal)
    requires FrameOffset(|w.frames|, ps) <= |w.bytes|
    ensures v == AppendFrom(w, ps, pages, dbSize)
  {
    v := w;
    var i := 0;
    while i < |pages|
      invariant i <= |pages| && FrameOffset(|v.frames|, ps) <= |v.bytes|
      invariant AppendFrom(v, ps, pages[i..], dbSize) == AppendFrom(w, ps, pages, dbSize)
    {
      assert pages[i..][1..] == pages[i + 1..];
      v := AppendFrame(v, ps, pages[i], if i + 1 == |pages| then dbSize else 0);
      i := i + 1;
    }
  }

  /** Page p after the pages of a commit have been written over `base`. */
  function Overlay(pages: seq<DirtyPage>, ps: nat, p: PageNumber, base: Page): Page
    decreases |pages|
  {
    if pages == [] then base
    else Overlay(pages[1..], ps, p, if pages[0].pgno == p then Padded(pages[0].data, ps) else base)
  }

  lemma {:induction false} LatestFramePrefix(a: seq<FrameMeta>, b: seq<FrameMeta>, n: nat, p: PageNumber)
    requires n <= |a| && n <= |b| && a[..n] == b[..n]
    ensures LatestFrame(a, n, p) == LatestFrame(b, n, p)
  {
    if n > 0 {
      assert a[n - 1] == a[..n][n - 1] == b[..n][n - 1] == b[n - 1];
      assert a[..n - 1] == a[..n][..n - 1] && b[..n - 1] == b[..n][..n - 1];
      LatestFramePrefix(a, b, n - 1, p);
    }
  }

  lemma {:induction false} LastCommitBelow(frames: seq<FrameMeta>, n: nat)
    requires n <= |frames| && (n > 0 ==> frames[n - 1].dbSize != 0)
    requires forall i :: n <= i < |frames| ==> frames[i].dbSize == 0
    ensures LastCommit(frames) == n
  {
    var c := LastCommit(frames);
    assert !(c > n);
  }

  /** Frames that two logs share look the same in both. */
  lemma ViewAgree(w: Wal, v: Wal, file: seq<Page>, ps: nat, n: nat, p: PageNumber)
    requires n <= |w.frames| && n <= |v.frames| && w.frames[..n] == v.frames[..n]
    requires forall i :: 0 <= i < n ==> FrameData(v, ps, i) == FrameData(w, ps, i)
    ensures FrameView(v, file, ps, n, p) == FrameView(w, file, ps, n, p)
  {
    LatestFramePrefix(w.frames, v.frames, n, p);
  }

  /** What appending the pages of a commit does: the file and the index only grow. */
  ghost predicate Extends(w: Wal, v: Wal, ps: nat) {
    && v.salt1 == w.salt1 && v.salt2 == w.salt2
    && |w.frames| <= |v.frames| && v.frames[..|w.frames|] == w.frames
    && forall i :: 0 <= i < |w.frames| ==> FrameData(v, ps, i) == FrameData(w, ps, i)
  }

  lemma ExtendsTrans(u: Wal, w: Wal, v: Wal, ps: nat)
    requires Extends(u, w, ps) && Extends(w, v, ps)
    ensures Extends(u, v, ps)
  {
    assert v.frames[..|u.frames|] == v.frames[..|w.frames|][..|u.frames|];
  }

  /** v is w with the frames of `pages` appended; only the last one carries dbSize. */
  ghost predicate Appended(w: Wal, v: Wal, ps: nat, count: nat, dbSize: Word) {
    && WalOk(v, ps) && Extends(w, v, ps)
    && |v.frames| == |w.frames| + count
    && (forall i :: |w.frames| <= i < |v.frames| ==> v.frames[i].dbSize == if i + 1 == |v.frames| then dbSize else 0)
  }

  lemma AppendOne(w: Wal, file: seq<Page>, ps: nat, d: DirtyPage, dbSize: Word, p: PageNumber)
    requires WalOk(w, ps) && FrameOffset(|w.frames|, ps) <= |w.bytes|
    ensures
      var v := AppendFrame(w, ps, d, dbSize);
      && Appended(w, v, ps, 1, dbSize)
      && FrameView(v, file, ps, |v.frames|, p) == if d.pgno == p then Padded(d.data, ps) else FrameView(w, file, ps, |w.frames|, p)
  {
    hide FrameOffset, WalOk, FrameData, Padded;
    AppendFrameOk(w, ps, d, dbSize);
    ViewAgree(w, AppendFrame(w, ps, d, dbSize), file, ps, |w.frames|, p);
  }

  lemma AppendedStep(w: Wal, u: Wal, v: Wal, ps: nat, n: nat, dbSize: Word)
    requires Appended(w, u, ps, 1, if n == 0 then dbSize else 0) && Appended(u, v, ps, n, dbSize)
    ensures Appended(w, v, ps, n + 1, dbSize)
  {
    hide FrameOffset, WalOk, FrameData;
    ExtendsTrans(w, u, v, ps);
    assert v.frames[|w.frames|] == v.frames[..|u.frames|][|w.frames|];
  }

  lemma {:induction false} AppendFromOk(w: Wal, file: seq<Page>, ps: nat, pages: seq<DirtyPage>, dbSize: Word, p: PageNumber)
    requires WalOk(w, ps) && FrameOffset(|w.frames|, ps) <= |w.bytes|
    ensures
      var v := AppendFrom(w, ps, pages, dbSize);
      && Appended(w, v, ps, |pages|, dbSize)
      && FrameView(v, file, ps, |v.frames|, p) == Overlay(pages, ps, p, FrameView(w, file, ps, |w.frames|, p))
    decreases |pages|
  {
    hide FrameOffset, WalOk, FrameData, FrameView, AppendFrame;
    if pages != [] {
      var size := if |pages| == 1 then dbSize else 0;
      var u := AppendFrame(w, ps, pages[0], size);
      AppendOne(w, file, ps, pages[0], size, p);
      AppendFromOk(u, file, ps, pages[1..], dbSize, p);
      AppendedStep(w, u, AppendFrom(u, ps, pages[1..], dbSize), ps, |pages| - 1, dbSize);
    }
  }

  /** A commit makes its pages, and no others, visible, when the log has no uncommitted tail. */
  lemma CommitVisible(w: Wal, file: seq<Page>, ps: nat, pages: seq<DirtyPage>, dbSize: Word, p: PageNumber)
    requires WalOk(w, ps) && FrameOffset(|w.frames|, ps) <= |w.bytes| && LastCommit(w.frames) == |w.frames|
    requires dbSize != 0
    ensures
      var v := AppendFrom(w, ps, pages, dbSize);
      && WalOk(v, ps) && LastCommit(v.frames) == |v.frames|
      && Lookup(v, file, ps, p) == Overlay(pages, ps, p, Lookup(w, file, ps, p))
  {
    AppendFromOk(w, file, ps, pages, dbSize, p);
    var v := AppendFrom(w, ps, pages, dbSize);
    if pages != [] {
      LastCommitBelow(v.frames, |v.frames|);
    }
  }

  /**
    After a reopen that kept an uncommitted tail, the next commit makes the tail visible as well:
    page p is right exactly when the commit rewrites it or the tail does not change it.
   */
  lemma CommitAfterTail(w: Wal, file: seq<Page>, ps: nat, pages: seq<DirtyPage>, dbSize: Word, p: PageNumber)
    requires WalOk(w, ps) && FrameOffset(|w.frames|, ps) <= |w.bytes|
    requires dbSize != 0 && pages != []
    ensures
      var v := AppendFrom(w, ps, pages, dbSize);
      Lookup(v, file, ps, p) == Overlay(pages, ps, p, Lookup(w, file, ps, p))
      <==> (exists i :: 0 <= i < |pages| && pages[i].pgno == p)
           || FrameView(w, file, ps, |w.frames|, p) == Lookup(w, file, ps, p)
  {
    AppendFromOk(w, file, ps, pages, dbSize, p);
    var v := AppendFrom(w, ps, pages, dbSize);
    LastCommitBelow(v.frames, |v.frames|);
    OverlayCases(pages, ps, p, FrameView(w, file, ps, |w.frames|, p), Lookup(w, file, ps, p));
  }

  lemma {:induction false} OverlayCases(pages: seq<DirtyPage>, ps: nat, p: PageNumber, a: Page, b: Page)
    ensures (exists i :: 0 <= i < |pages| && pages[i].pgno == p) ==> Overlay(pages, ps, p, a) == Overlay(pages, ps, p, b)
    ensures !(exists i :: 0 <= i < |pages| && pages[i].pgno == p) ==> Overlay(pages, ps, p, a) == a && Overlay(pages, ps, p, b) == b
    decreases |pages|
  {
    if pages != [] {
      if pages[0].pgno != p {
        OverlayCases(pages[1..], ps, p, a, b);
        if i :| 0 <= i < |pages| && pages[i].pgno == p {
          assert pages[1..][i - 1].pgno == p;
        }
      }
    }
  }
}
