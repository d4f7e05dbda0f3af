/**
  The log as bytes: what its header and its frames hold, field by field, how their checksums are computed,
  and when the checksum of every frame continues that of the frame before.
 */
module LogFormat {
  import opened Bytes
  import opened Wal
  import opened WalRecovery

  // ---- Numbers and bytes ----

  /** The most significant byte comes first. */
  lemma BigEndian(a: Byte, b: Byte, c: Byte, d: Byte, rest: seq<Byte>)
    ensures
      var v := ((a as int * 256 + b) * 256 + c) * 256 + d;
      Get32([a, b, c, d] + rest) == v && Put32(v) == [a, b, c, d]
  {
    var v := ((a as int * 256 + b) * 256 + c) * 256 + d;
    assert v / 256 == (a as int * 256 + b) * 256 + c;
    assert v / 0x1_0000 == v / 256 / 256 == a as int * 256 + b;
    assert v / 0x100_0000 == v / 256 / 256 / 256 == a;
  }

  /** Writing at an offset changes the bytes written, and the length only if they go past the end. */
  lemma Overwritten(b: seq<Byte>, o: nat, x: seq<Byte>)
    requires o <= |b|
    ensures
      var r := WriteAt(b, o, x);
      && |r| == (if |b| > o + |x| then |b| else o + |x|)
      && forall k :: 0 <= k < |r| ==> r[k] == if o <= k < o + |x| then x[k - o] else b[k]
  {
  }

  // ---- The checksum ----

  /** The two sums after the first n pairs of big-endian words of `data`. */
  ghost function Sums(data: seq<Byte>, s1: Word, s2: Word, n: nat): (Word, Word)
    requires 8 * n <= |data|
  {
    if n == 0 then (s1, s2)
    else
      var p := Sums(data, s1, s2, n - 1);
      var a := (p.0 + WordAt(data, 8 * n - 8) + p.1) % 0x1_0000_0000;
      (a, (p.1 + WordAt(data, 8 * n - 4) + a) % 0x1_0000_0000)
  }

  ghost function WordAt(data: seq<Byte>, o: nat): nat
    requires o + 4 <= |data|
  {
    ((data[o] as int * 256 + data[o + 1]) * 256 + data[o + 2]) * 256 + data[o + 3]
  }

  lemma WordIs(data: seq<Byte>, o: nat)
    requires o + 4 <= |data|
    ensures Get32(data[o..]) == WordAt(data, o)
  {
  }

  /** Dropping the first pair. */
  lemma {:induction false} SumsTail(data: seq<Byte>, s1: Word, s2: Word, n: nat)
    requires 8 * n + 8 <= |data|
    ensures var p := Sums(data, s1, s2, 1); Sums(data, s1, s2, n + 1) == Sums(data[8..], p.0, p.1, n)
  {
    hide WordAt;
    if n > 0 {
      SumsTail(data, s1, s2, n - 1);
      WordShift(data, 8 * n);
      WordShift(data, 8 * n + 4);
    }
  }

  lemma WordShift(data: seq<Byte>, o: nat)
    requires 8 <= o && o + 4 <= |data|
    ensures WordAt(data[8..], o - 8) == WordAt(data, o)
  {
  }

  /** The checksum takes the whole pairs of words in order, and ignores up to seven bytes at the end. */
  lemma {:induction false} ChecksumIs(data: seq<Byte>, s1: Word, s2: Word)
    ensures Checksum(data, s1, s2) == Sums(data, s1, s2, |data| / 8)
    decreases |data|
  {
    hide Get32, WordAt;
    if |data| >= 8 {
      FirstPair(data, s1, s2);
      hide Sums;
      var p := Sums(data, s1, s2, 1);
      ChecksumIs(data[8..], p.0, p.1);
      SumsTail(data, s1, s2, |data| / 8 - 1);
    }
  }

  lemma FirstPair(data: seq<Byte>, s1: Word, s2: Word)
    requires |data| >= 8
    ensures var p := Sums(data, s1, s2, 1); Checksum(data, s1, s2) == Checksum(data[8..], p.0, p.1)
  {
    WordIs(data, 0);
    WordIs(data, 4);
    hide Get32, WordAt;
    assert data[0..] == data;
    assert Sums(data, s1, s2, 0) == (s1, s2);
  }

  /** The loop over the pairs, as the code runs it. */
  method SumWords(data: seq<Byte>, s1: Word, s2: Word) returns (a: Word, b: Word)
    ensures (a, b) == Sums(data, s1, s2, |data| / 8)
  {
    a, b := s1, s2;
    ghost var n := 0;
    var i := 0;
    while i + 8 <= |data|
      invariant i == 8 * n <= |data| && (a, b) == Sums(data, s1, s2, n)
    {
      WordIs(data, i);
      WordIs(data, i + 4);
      a := (a + Get32(data[i..]) + b) % 0x1_0000_0000;
      b := (b + Get32(data[i + 4..]) + a) % 0x1_0000_0000;
      i, n := i + 8, n + 1;
    }
  }

  // ---- Header and frames ----

  /** The two sums stored at o. */
  ghost function SumsAt(b: seq<Byte>, o: nat): (Word, Word)
    requires o + 8 <= |b|
  {
    (Get32(b[o..]), Get32(b[o + 4..]))
  }

  /** A new log is a header of 32 bytes: magic number, version, page size, 0, two salts, and the checksum of these 24 bytes. */
  lemma NewLog(ps: Word, salt1: Word, salt2: Word)
    ensures
      var w := NewWal(ps, salt1, salt2);
      var b := w.bytes;
      && w.frames == [] && |b| == 32 && Get32(b) == 0x377F0682 && Get32(b[4..]) == 3007000 && Get32(b[8..]) == ps && Get32(b[12..]) == 0
      && Get32(b[16..]) == salt1 && Get32(b[20..]) == salt2 && SumsAt(b, 24) == Checksum(b[..24], 0, 0) == (w.cksum1, w.cksum2)
  {
    hide Get32, Put32, Checksum;
    var b := WalHeader(ps, salt1, salt2);
    var h := HeaderBytes(WAL_MAGIC, WAL_FORMAT_VERSION, ps, 0, salt1, salt2);
    var c := Checksum(h, 0, 0);
    assert b == h + Put32(c.0) + Put32(c.1);
    FrameHeader(b, 0, WAL_MAGIC, WAL_FORMAT_VERSION, ps, 0, (salt1, salt2));
    assert b[0..] == b && b[..24] == h;
    assert b[24..] == Put32(c.0) + b[28..];
    PutGet32(c.0, b[28..]);
    assert b[28..] == Put32(c.1) + [];
    PutGet32(c.1, []);
  }

  /** A file is taken for a log if its first word is one of two magic numbers; the page size at 8 counts unless it is 0. */
  lemma Recognised(bytes: seq<Byte>, ps: Word)
    ensures IsWalHeader(bytes) <==> |bytes| >= 32 && (Get32(bytes) == 0x377F0682 || Get32(bytes) == 0x377F0683)
    ensures |bytes| >= 32 ==> EffectivePageSize(bytes, ps) == if Get32(bytes[8..]) == 0 then ps else Get32(bytes[8..])
  {
    hide Get32;
  }

  /** The 24 header bytes of a frame at o: page number, size, salts, and sums. */
  ghost predicate FrameFields(b: seq<Byte>, o: nat, pgno: Word, dbSize: Word, salt1: Word, salt2: Word, c: (Word, Word)) {
    && o + 24 <= |b| && Get32(b[o..]) == pgno && Get32(b[o + 4..]) == dbSize && Get32(b[o + 8..]) == salt1
    && Get32(b[o + 12..]) == salt2 && SumsAt(b, o + 16) == c
  }

  /** An appended frame: its fields, its page padded with zeros or cut to the page size, and every byte around it as before. */
  lemma AppendedBytes(w: Wal, ps: nat, d: DirtyPage, dbSize: Word)
    requires 32 + |w.frames| * (24 + ps) <= |w.bytes|
    ensures FrameOffset(|w.frames|, ps) == 32 + |w.frames| * (24 + ps)
    ensures
      var o, v := 32 + |w.frames| * (24 + ps), AppendFrame(w, ps, d, dbSize);
      && o + 24 + ps <= |v.bytes| && FrameFields(v.bytes, o, d.pgno, dbSize, w.salt1, w.salt2, (v.cksum1, v.cksum2))
      && (forall k :: 0 <= k < ps ==> v.bytes[o + 24 + k] == if k < |d.data| then d.data[k] else 0)
      && (forall k :: 0 <= k < |v.bytes| && !(o <= k < o + 24 + ps) ==> k < |w.bytes| && v.bytes[k] == w.bytes[k])
      && v.frames == w.frames + [FrameMeta(d.pgno, dbSize)] && v.salt1 == w.salt1 && v.salt2 == w.salt2
  {
    hide Get32, Put32, Checksum, FrameOffset;
    FrameOffsetClosed(|w.frames|, ps);
    var o, v := FrameOffset(|w.frames|, ps), AppendFrame(w, ps, d, dbSize);
    var x := HeaderBytes(d.pgno, dbSize, w.salt1, w.salt2, v.cksum1, v.cksum2) + Padded(d.data, ps);
    assert v.bytes == WriteAt(w.bytes, o, x);
    Overwritten(w.bytes, o, x);
    FrameHeader(v.bytes, o, d.pgno, dbSize, w.salt1, w.salt2, (v.cksum1, v.cksum2));
  }

  lemma FrameHeader(b: seq<Byte>, o: nat, pgno: Word, dbSize: Word, salt1: Word, salt2: Word, c: (Word, Word))
    requires o + 24 <= |b| && forall k :: 0 <= k < 24 ==> b[o + k] == HeaderBytes(pgno, dbSize, salt1, salt2, c.0, c.1)[k]
    ensures FrameFields(b, o, pgno, dbSize, salt1, salt2, c)
  {
    hide Get32, Put32;
    var h := b[o..];
    assert h[4..] == b[o + 4..] && h[8..] == b[o + 8..] && h[12..] == b[o + 12..] && h[16..] == b[o + 16..] && h[20..] == b[o + 20..];
    assert h == HeaderBytes(pgno, dbSize, salt1, salt2, c.0, c.1) + h[24..];
    HeaderFields(pgno, dbSize, salt1, salt2, c.0, c.1, h[24..]);
    assert h[16..] == Put32(c.0) + h[20..];
    PutGet32(c.0, h[20..]);
    assert h[20..] == Put32(c.1) + h[24..];
    PutGet32(c.1, h[24..]);
  }

  // ---- The chain of checksums ----

  /** Where the sums that frame number i + 1 continues are stored. */
  ghost function SumsBefore(i: nat, ps: nat): nat {
    if i == 0 then 24 else FrameOffset(i - 1, ps) + 16
  }

  /** The sums of frame number i + 1 cover its page number, its size and its page, starting from the sums before. */
  ghost predicate FrameChained(b: seq<Byte>, ps: nat, i: nat) {
    var o := FrameOffset(i, ps);
    && o + 24 + ps <= |b| && SumsBefore(i, ps) + 8 <= |b|
    && var p := SumsAt(b, SumsBefore(i, ps));
       var q := Checksum(b[o..o + 8], p.0, p.1);
       SumsAt(b, o + 16) == Checksum(b[o + 24..o + 24 + ps], q.0, q.1)
  }

  /** Every frame continues the checksum of the one before, the first one that of the header; the next one will. */
  ghost predicate Chained(w: Wal, ps: nat) {
    && |w.bytes| >= 32 && SumsAt(w.bytes, 24) == Checksum(w.bytes[..24], 0, 0)
    && (forall i :: 0 <= i < |w.frames| ==> FrameChained(w.bytes, ps, i))
    && SumsBefore(|w.frames|, ps) + 8 <= |w.bytes| && SumsAt(w.bytes, SumsBefore(|w.frames|, ps)) == (w.cksum1, w.cksum2)
  }

  lemma NewLogChained(ps: Word, salt1: Word, salt2: Word)
    ensures Chained(NewWal(ps, salt1, salt2), ps)
  {
    NewLog(ps, salt1, salt2);
  }

  lemma SumsAgree(a: seq<Byte>, b: seq<Byte>, k: nat, o: nat)
    requires k <= |a| && k <= |b| && a[..k] == b[..k] && o + 8 <= k
    ensures SumsAt(a, o) == SumsAt(b, o)
  {
    hide Get32;
    Get32Agree(a, b, k, o);
    Get32Agree(a, b, k, o + 4);
  }

  lemma ChainAgree(a: seq<Byte>, b: seq<Byte>, ps: nat, i: nat, k: nat)
    requires k <= |a| && k <= |b| && a[..k] == b[..k] && FrameOffset(i, ps) + 24 + ps <= k && FrameChained(a, ps, i)
    ensures FrameChained(b, ps, i)
  {
    hide Get32, Checksum, FrameOffset, SumsAt;
    var o := FrameOffset(i, ps);
    BeforeFrame(i, ps);
    SumsAgree(a, b, k, SumsBefore(i, ps));
    SumsAgree(a, b, k, o + 16);
    SliceAgree(a, b, k, o, o + 8);
    SliceAgree(a, b, k, o + 24, o + 24 + ps);
  }

  lemma BeforeFrame(i: nat, ps: nat)
    ensures SumsBefore(i, ps) + 8 <= FrameOffset(i, ps) && FrameOffset(i, ps) >= 32
  {
    FrameOffsetMono(0, i, ps);
    if i > 0 {
      FrameOffsetMono(i - 1, i, ps);
    }
  }

  /** Appending a whole page keeps the chain. */
  lemma FrameKeepsChain(w: Wal, ps: nat, d: DirtyPage, dbSize: Word)
    requires Chained(w, ps) && FrameOffset(|w.frames|, ps) <= |w.bytes| && |d.data| == ps
    ensures Chained(AppendFrame(w, ps, d, dbSize), ps)
  {
    hide Get32, Put32, Checksum, FrameOffset, SumsAt, FrameChained, HeaderBytes;
    var n, v := |w.frames|, AppendFrame(w, ps, d, dbSize);
    var o := FrameOffset(n, ps);
    BeforeFrame(n, ps);
    SumsAgree(w.bytes, v.bytes, o, 24);
    SliceAgree(w.bytes, v.bytes, o, 0, 24);
    assert w.bytes[..24] == w.bytes[0..24] && v.bytes[..24] == v.bytes[0..24];
    forall i | 0 <= i < n ensures FrameChained(v.bytes, ps, i) {
      FrameOffsetMono(i, n, ps);
      ChainAgree(w.bytes, v.bytes, ps, i, o);
    }
    NewFrameChained(w, ps, d, dbSize);
  }

  lemma NewFrameChained(w: Wal, ps: nat, d: DirtyPage, dbSize: Word)
    requires FrameOffset(|w.frames|, ps) <= |w.bytes| && |d.data| == ps
    requires SumsBefore(|w.frames|, ps) + 8 <= |w.bytes| && SumsAt(w.bytes, SumsBefore(|w.frames|, ps)) == (w.cksum1, w.cksum2)
    ensures
      var v := AppendFrame(w, ps, d, dbSize);
      && FrameChained(v.bytes, ps, |w.frames|)
      && SumsBefore(|v.frames|, ps) + 8 <= |v.bytes| && SumsAt(v.bytes, SumsBefore(|v.frames|, ps)) == (v.cksum1, v.cksum2)
  {
    hide Get32, Put32, Checksum, FrameOffset;
    var n, v := |w.frames|, AppendFrame(w, ps, d, dbSize);
    var o := FrameOffset(n, ps);
    FrameOffsetClosed(n, ps);
    AppendedBytes(w, ps, d, dbSize);
    BeforeFrame(n, ps);
    SumsAgree(w.bytes, v.bytes, o, SumsBefore(n, ps));
    assert v.bytes[o + 24..o + 24 + ps] == d.data;
    FirstEight(w, ps, d, dbSize);
  }

  lemma FirstEight(w: Wal, ps: nat, d: DirtyPage, dbSize: Word)
    requires FrameOffset(|w.frames|, ps) <= |w.bytes|
    ensures var o := FrameOffset(|w.frames|, ps);
      AppendFrame(w, ps, d, dbSize).bytes[o..o + 8] == Put32(d.pgno) + Put32(dbSize)
  {
    hide Put32, Checksum, FrameOffset;
    var o, v := FrameOffset(|w.frames|, ps), AppendFrame(w, ps, d, dbSize);
    var x := HeaderBytes(d.pgno, dbSize, w.salt1, w.salt2, v.cksum1, v.cksum2) + Padded(d.data, ps);
    assert v.bytes[o..o + |x|] == x;
    assert v.bytes[o..o + 8] == v.bytes[o..o + |x|][..8];
  }

  /** The pages of a commit are whole. */
  ghost predicate WholePages(pages: seq<DirtyPage>, ps: nat) {
    forall i :: 0 <= i < |pages| ==> |pages[i].data| == ps
  }

  /** A commit keeps the chain. */
  lemma {:induction false} CommitKeepsChain(w: Wal, ps: nat, pages: seq<DirtyPage>, dbSize: Word)
    requires Chained(w, ps) && FrameOffset(|w.frames|, ps) <= |w.bytes| && WholePages(pages, ps)
    ensures Chained(AppendFrom(w, ps, pages, dbSize), ps)
    decreases |pages|
  {
    hide Chained, AppendFrame, FrameOffset;
    if pages != [] {
      assert WholePages(pages[1..], ps);
      FrameKeepsChain(w, ps, pages[0], if |pages| == 1 then dbSize else 0);
      CommitKeepsChain(AppendFrame(w, ps, pages[0], if |pages| == 1 then dbSize else 0), ps, pages[1..], dbSize);
    }
  }

  /** Any run of commits on a new log leaves one whose checksums continue each other from the header to the last frame. */
  lemma {:induction false} RunChained(ps: Word, salt1: Word, salt2: Word, commits: seq<Commit>, n: nat)
    requires n <= |commits| && forall i :: 0 <= i < |commits| ==> WholePages(commits[i].pages, ps)
    ensures Chained(After(NewWal(ps, salt1, salt2), ps, commits, n), ps)
  {
    hide Chained, AppendFrom, WalHeader, Checksum;
    if n == 0 {
      NewLogChained(ps, salt1, salt2);
    } else {
      RunChained(ps, salt1, salt2, commits, n - 1);
      CommitKeepsChain(After(NewWal(ps, salt1, salt2), ps, commits, n - 1), ps, commits[n - 1].pages, commits[n - 1].dbSize);
    }
  }

  /**
    A checkpoint that empties the log keeps the running sums, while the next frame will follow the header:
    the chain survives if and only if the running sums are those of the header.
   */
  lemma RestartChained(w: Wal, ps: nat)
    requires Chained(w, ps)
    ensures
      var v := w.(bytes := w.bytes[..32], frames := []);
      Chained(v, ps) <==> (w.cksum1, w.cksum2) == SumsAt(w.bytes, 24)
  {
    hide Get32, Checksum;
    var v := w.(bytes := w.bytes[..32], frames := []);
    assert v.bytes[..32] == w.bytes[..32] && v.bytes[..24] == w.bytes[..24];
    SumsAgree(w.bytes, v.bytes, 32, 24);
  }

  /** Reopening a log takes the sums of the header for the running ones, however many frames follow. */
  lemma ReopenChained(w: Wal, ps: nat, v: Wal)
    requires Chained(w, ps) && Recovered(w.bytes, ps, v) && v.frames == w.frames
    ensures Chained(v, ps) <==> (w.cksum1, w.cksum2) == SumsAt(w.bytes, 24)
  {
    hide Get32, Checksum, FrameChained;
  }

  /** A page after which the running sums are not those of the header: emptying or reopening that log breaks the chain. */
  lemma ChainBreaks(ps: Word, salt1: Word, salt2: Word, dbSize: Word) returns (data: Page)
    requires ps > 0 && ps % 8 == 0
    ensures
      var w := AppendFrame(NewWal(ps, salt1, salt2), ps, DirtyPage(1, data), dbSize);
      && |data| == ps && Chained(w, ps) && !Chained(w.(bytes := w.bytes[..32], frames := []), ps)
  {
    hide Get32, Put32, Chained, NewWal;
    var w0 := NewWal(ps, salt1, salt2);
    NewLog(ps, salt1, salt2);
    NewLogChained(ps, salt1, salt2);
    data := Zeros(ps);
    if Same(w0, ps, data, dbSize) {
      LastByte(w0, ps, data, dbSize);
      data := data[ps - 1 := 1];
    }
    var w := AppendFrame(w0, ps, DirtyPage(1, data), dbSize);
    assert w0.frames == [];
    FrameKeepsChain(w0, ps, DirtyPage(1, data), dbSize);
    RestartChained(w, ps);
    SumsAgree(w0.bytes, w.bytes, 32, 24);
  }

  ghost predicate Same(w: Wal, ps: nat, data: Page, dbSize: Word)
    requires FrameOffset(|w.frames|, ps) <= |w.bytes|
  {
    var v := AppendFrame(w, ps, DirtyPage(1, data), dbSize);
    (v.cksum1, v.cksum2) == (w.cksum1, w.cksum2)
  }

  /** Pages of whole pairs that differ in the last byte have different sums. */
  lemma LastByte(w: Wal, ps: nat, data: Page, dbSize: Word)
    requires FrameOffset(|w.frames|, ps) <= |w.bytes| && ps > 0 && ps % 8 == 0 && |data| == ps && data[ps - 1] == 0
    requires Same(w, ps, data, dbSize)
    ensures !Same(w, ps, data[ps - 1 := 1], dbSize)
  {
    hide *;
    var q := Checksum(Put32(1) + Put32(dbSize), w.cksum1, w.cksum2);
    var other, n := data[ps - 1 := 1], ps / 8;
    SameIs(w, ps, data, dbSize);
    SameIs(w, ps, other, dbSize);
    ChecksumIs(data, q.0, q.1);
    ChecksumIs(other, q.0, q.1);
    assert data[..8 * (n - 1)] == other[..8 * (n - 1)];
    SumsPrefix(data, other, q.0, q.1, n - 1);
    LastPair(data, other, q.0, q.1, n);
  }

  lemma SameIs(w: Wal, ps: nat, data: Page, dbSize: Word)
    requires FrameOffset(|w.frames|, ps) <= |w.bytes|
    ensures Same(w, ps, data, dbSize) <==>
      var q := Checksum(Put32(1) + Put32(dbSize), w.cksum1, w.cksum2);
      Checksum(data, q.0, q.1) == (w.cksum1, w.cksum2)
  {
    hide Checksum, Put32, FrameOffset, WriteAt, Padded;
  }

  lemma LastPair(a: seq<Byte>, b: seq<Byte>, s1: Word, s2: Word, n: nat)
    requires n > 0 && |a| == 8 * n && a[8 * n - 1] == 0 && b == a[8 * n - 1 := 1]
    requires Sums(a, s1, s2, n - 1) == Sums(b, s1, s2, n - 1)
    ensures Sums(a, s1, s2, n) != Sums(b, s1, s2, n)
  {
    var k := 8 * n - 8;
    assert WordAt(a, k) == WordAt(b, k) && WordAt(b, k + 4) == WordAt(a, k + 4) + 1;
    hide WordAt;
    var p := Sums(a, s1, s2, n - 1);
    var x := (p.0 + WordAt(a, k) + p.1) % 0x1_0000_0000;
    NextDiffers(p.1 + WordAt(a, k + 4) + x);
  }

  lemma NextDiffers(x: nat)
    ensures x % 0x1_0000_0000 != (x + 1) % 0x1_0000_0000
  {
  }

  lemma {:induction false} SumsPrefix(a: seq<Byte>, b: seq<Byte>, s1: Word, s2: Word, n: nat)
    requires 8 * n <= |a| && 8 * n <= |b| && a[..8 * n] == b[..8 * n]
    ensures Sums(a, s1, s2, n) == Sums(b, s1, s2, n)
  {
    if n > 0 {
      var k := 8 * n;
      forall i | 0 <= i < k ensures a[i] == b[i] {
        assert a[i] == a[..k][i] && b[i] == b[..k][i];
      }
      assert a[..8 * (n - 1)] == b[..8 * (n - 1)];
      SumsPrefix(a, b, s1, s2, n - 1);
    }
  }
}
