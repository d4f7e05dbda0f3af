/**
  Reopening a write-ahead log file, and checkpoints: what a reader sees after either.
 */
module WalRecovery {
  import opened Bytes
  import opened Wal

  datatype CheckpointMode = Passive | Full | Restart | Truncate

  // ---- Opening a log file ----

  function WalHeader(ps: Word, salt1: Word, salt2: Word): (h: seq<Byte>)
    ensures |h| == HDR
  {
    var h := Put32(WAL_MAGIC) + Put32(WAL_FORMAT_VERSION) + Put32(ps) + Put32(0) + Put32(salt1) + Put32(salt2);
    var c := Checksum(h, 0, 0);
    h + Put32(c.0) + Put32(c.1)
  }

  /** A log that has just been created. */
  function NewWal(ps: Word, salt1: Word, salt2: Word): Wal {
    var h := WalHeader(ps, salt1, salt2);
    var c := Checksum(h[..24], 0, 0);
    Wal(h, [], salt1, salt2, c.0, c.1)
  }

  predicate IsWalHeader(bytes: seq<Byte>) {
    |bytes| >= HDR && (Get32(bytes) == WAL_MAGIC || Get32(bytes) == WAL_MAGIC + 1)
  }

  function EffectivePageSize(bytes: seq<Byte>, ps: Word): Word
    requires |bytes| >= HDR
  {
    if Get32(bytes[8..]) == 0 then ps else Get32(bytes[8..])
  }

  /** The frame header at offset o carries the salts of the file header. */
  predicate SaltsMatch(bytes: seq<Byte>, o: nat)
    requires |bytes| >= HDR && o + FRAME_HDR <= |bytes|
  {
    Get32(bytes[o + 8..]) == Get32(bytes[16..]) && Get32(bytes[o + 12..]) == Get32(bytes[20..])
  }

  /** The index lists the whole frames of the file up to the first one with other salts. */
  ghost predicate Recovered(bytes: seq<Byte>, ps: nat, w: Wal)
    requires |bytes| >= HDR
  {
    && w.bytes == bytes && w.salt1 == Get32(bytes[16..]) && w.salt2 == Get32(bytes[20..])
    && w.cksum1 == Get32(bytes[24..]) && w.cksum2 == Get32(bytes[28..])
    && |w.frames| <= FramesIn(|bytes|, ps)
    && (forall i :: 0 <= i < |w.frames| ==> MetaOk(bytes, ps, w.frames, i))
    && (|w.frames| == FramesIn(|bytes|, ps) || SaltsDiffer(bytes, FrameOffset(|w.frames|, ps)))
  }

  ghost predicate MetaOk(bytes: seq<Byte>, ps: nat, frames: seq<FrameMeta>, i: nat) {
    var o := FrameOffset(i, ps);
    && HDR <= o && o + FRAME_HDR <= |bytes| && i < |frames|
    && SaltsMatch(bytes, o)
    && frames[i] == FrameMeta(Get32(bytes[o..]), Get32(bytes[o + 4..]))
  }

  ghost predicate SaltsDiffer(bytes: seq<Byte>, o: nat) {
    && HDR <= o && o + FRAME_HDR <= |bytes| && !SaltsMatch(bytes, o)
  }

  /** Open the log file of a database, creating its header if there is none; r1 and r2 are fresh salts. */
  method Open(bytes: seq<Byte>, ps: Word, r1: Word, r2: Word) returns (w: Wal, pageSize: Word)
    ensures !IsWalHeader(bytes) ==> pageSize == ps && w == NewWal(ps, r1, r2).(bytes := WriteAt(bytes, 0, NewWal(ps, r1, r2).bytes))
    ensures !IsWalHeader(bytes) && |bytes| <= HDR ==> w == NewWal(ps, r1, r2)
    ensures IsWalHeader(bytes) ==> pageSize == EffectivePageSize(bytes, ps) && Recovered(bytes, pageSize, w)
  {
    hide IsWalHeader, Get32, MetaOk, SaltsMatch;
    if IsWalHeader(bytes) {
      WalHeaderLength(bytes);
      pageSize := EffectivePageSize(bytes, ps);
      var salt1, salt2 := Get32(bytes[16..]), Get32(bytes[20..]);
      var n := FramesIn(|bytes|, pageSize);
      FramesInBounds(|bytes|, pageSize);
      var frames: seq<FrameMeta> := [];
      var i, o := 0, HDR;
      while i < n
        invariant i <= n && o == FrameOffset(i, pageSize) && |frames| == i
        invariant MetasOk(bytes, pageSize, frames)
      {
        FrameOffsetMono(i, n, pageSize);
        FrameOffsetMono(0, i, pageSize);
        if !SaltsMatch(bytes, o) {
          break;
        }
        OneMoreMeta(bytes, pageSize, frames, o);
        frames := frames + [FrameMeta(Get32(bytes[o..]), Get32(bytes[o + 4..]))];
        i, o := i + 1, o + FrameSize(pageSize);
      }
      w := Wal(bytes, frames, salt1, salt2, Get32(bytes[24..]), Get32(bytes[28..]));
    } else {
      pageSize := ps;
      w := NewWal(ps, r1, r2);
      w := w.(bytes := WriteAt(bytes, 0, w.bytes));
    }
  }

  lemma WalHeaderLength(bytes: seq<Byte>)
    requires IsWalHeader(bytes)
    ensures |bytes| >= HDR
  {
  }

  ghost predicate MetasOk(bytes: seq<Byte>, ps: nat, frames: seq<FrameMeta>) {
    forall j :: 0 <= j < |frames| ==> MetaOk(bytes, ps, frames, j)
  }

  lemma OneMoreMeta(bytes: seq<Byte>, ps: nat, frames: seq<FrameMeta>, o: nat)
    requires |bytes| >= HDR && o == FrameOffset(|frames|, ps) >= HDR && o + FRAME_HDR <= |bytes| && SaltsMatch(bytes, o)
    requires MetasOk(bytes, ps, frames)
    ensures MetasOk(bytes, ps, frames + [FrameMeta(Get32(bytes[o..]), Get32(bytes[o + 4..]))])
  {
    hide Get32, FrameOffset, SaltsMatch;
    var more := frames + [FrameMeta(Get32(bytes[o..]), Get32(bytes[o + 4..]))];
    forall j | 0 <= j < |more| ensures MetaOk(bytes, ps, more, j) {
      assert j < |frames| ==> MetaOk(bytes, ps, frames, j);
    }
  }

  /** Whatever Open finds, it leaves a log that can be read. */
  lemma RecoveredOk(bytes: seq<Byte>, ps: Word, w: Wal)
    requires ps > 0 && IsWalHeader(bytes) && EffectivePageSize(bytes, ps) == ps && Recovered(bytes, ps, w)
    ensures WalOk(w, ps) && FrameOffset(|w.frames|, ps) <= |w.bytes|
  {
    hide Get32;
    var n := FramesIn(|bytes|, ps);
    FramesInBounds(|bytes|, ps);
    FrameOffsetMono(|w.frames|, n, ps);
    forall i | 0 <= i < |w.frames| ensures FrameOk(w, ps, i) {
      assert MetaOk(bytes, ps, w.frames, i);
      FrameOffsetMono(i, |w.frames|, ps);
    }
  }

  /** A header written over anything else starts a log without frames. */
  lemma OverwrittenOk(bytes: seq<Byte>, ps: Word, r1: Word, r2: Word)
    requires ps > 0
    ensures
      var w := NewWal(ps, r1, r2).(bytes := WriteAt(bytes, 0, NewWal(ps, r1, r2).bytes));
      WalOk(w, ps) && w.frames == [] && FrameOffset(|w.frames|, ps) <= |w.bytes|
  {
    hide Get32, Checksum;
    var v := NewWal(ps, r1, r2);
    var w := v.(bytes := WriteAt(bytes, 0, v.bytes));
    FreshLog(ps, r1, r2, [], 1);
    assert w.bytes[..HDR] == v.bytes[..HDR];
    HeaderAgree(v, w, ps, HDR);
  }

  // ---- A prefix of a log ----

  /** The file ends with the last indexed frame. */
  ghost predicate Exact(w: Wal, ps: nat) {
    |w.bytes| == FrameOffset(|w.frames|, ps)
  }

  lemma SaltsFromHeader(bytes: seq<Byte>, w: Wal, ps: nat, i: nat)
    requires HeaderOk(w, ps) && FrameOk(w, ps, i)
    requires HDR <= |bytes| <= |w.bytes| && bytes == w.bytes[..|bytes|] && FrameOffset(i, ps) + FrameSize(ps) <= |bytes|
    ensures MetaOk(bytes, ps, w.frames, i)
  {
    hide Get32;
    var k := |bytes|;
    var o := FrameOffset(i, ps);
    FrameOffsetMono(0, i, ps);
    assert bytes[..k] == w.bytes[..k];
    Get32Agree(bytes, w.bytes, k, 16);
    Get32Agree(bytes, w.bytes, k, 20);
    Get32Agree(bytes, w.bytes, k, o);
    Get32Agree(bytes, w.bytes, k, o + 4);
    Get32Agree(bytes, w.bytes, k, o + 8);
    Get32Agree(bytes, w.bytes, k, o + 12);
  }

  /** Reopening a prefix of a log recovers exactly the frames that lie wholly in it. */
  lemma PrefixFrames(full: Wal, ps: nat, k: nat, w: Wal)
    requires WalOk(full, ps) && Exact(full, ps) && HDR <= k <= |full.bytes|
    requires Recovered(full.bytes[..k], ps, w)
    ensures FramesIn(k, ps) <= |full.frames| && w.frames == full.frames[..FramesIn(k, ps)]
    ensures WalOk(w, ps)
    ensures forall i :: 0 <= i < |w.frames| ==> FrameData(w, ps, i) == FrameData(full, ps, i)
  {
    var bytes := full.bytes[..k];
    var m := FramesIn(k, ps);
    FramesInBounds(k, ps);
    if m > |full.frames| {
      FrameOffsetMono(|full.frames|, m, ps);
    }
    forall i | 0 <= i < m ensures MetaOk(bytes, ps, full.frames, i) && FrameOffset(i, ps) + FrameSize(ps) <= k {
      assert FrameOk(full, ps, i);
      FrameOffsetMono(i, m, ps);
      SaltsFromHeader(bytes, full, ps, i);
    }
    assert m > 0 ==> MetaOk(bytes, ps, full.frames, if |w.frames| < m then |w.frames| else 0);
    forall i | 0 <= i < m ensures w.frames[i] == full.frames[i] {
      assert MetaOk(bytes, ps, full.frames, i) && MetaOk(bytes, ps, w.frames, i);
    }
    PrefixHeader(full, ps, k, w);
    assert w.bytes[..k] == full.bytes[..k];
    forall i | 0 <= i < m ensures FrameOk(w, ps, i) && FrameData(w, ps, i) == FrameData(full, ps, i) {
      assert FrameOk(full, ps, i);
      FrameAgree(full, w, ps, i, k);
    }
  }

  lemma PrefixHeader(full: Wal, ps: nat, k: nat, w: Wal)
    requires HeaderOk(full, ps) && HDR <= k <= |full.bytes|
    requires Recovered(full.bytes[..k], ps, w)
    ensures HeaderOk(w, ps) && w.salt1 == full.salt1 && w.salt2 == full.salt2
  {
    var bytes := full.bytes[..k];
    assert bytes[..k] == full.bytes[..k];
    Get32Agree(bytes, full.bytes, k, 16);
    Get32Agree(bytes, full.bytes, k, 20);
    HeaderAgree(full, w, ps, k);
  }

  // ---- Runs of commits ----

  datatype Commit = Commit(pages: seq<DirtyPage>, dbSize: Word)

  /** A commit that wrote a page has a positive database size. */
  ghost predicate CommitsOk(commits: seq<Commit>) {
    forall i :: 0 <= i < |commits| ==> commits[i].pages == [] || commits[i].dbSize != 0
  }

  /** The log after the first j commits. */
  ghost function After(w: Wal, ps: nat, commits: seq<Commit>, j: nat): (v: Wal)
    requires FrameOffset(|w.frames|, ps) <= |w.bytes| && j <= |commits|
    ensures FrameOffset(|v.frames|, ps) <= |v.bytes|
  {
    if j == 0 then w else AppendFrom(After(w, ps, commits, j - 1), ps, commits[j - 1].pages, commits[j - 1].dbSize)
  }

  lemma {:induction false} AppendExact(w: Wal, ps: nat, pages: seq<DirtyPage>, dbSize: Word)
    requires Exact(w, ps)
    ensures
      var v := AppendFrom(w, ps, pages, dbSize);
      Exact(v, ps) && |w.bytes| <= |v.bytes| && v.bytes[..|w.bytes|] == w.bytes
    decreases |pages|
  {
    if pages != [] {
      var u := AppendFrame(w, ps, pages[0], if |pages| == 1 then dbSize else 0);
      assert u.bytes[..|w.bytes|] == w.bytes[..|w.bytes|] == w.bytes;
      AppendExact(u, ps, pages[1..], dbSize);
      var v := AppendFrom(u, ps, pages[1..], dbSize);
      assert v.bytes[..|u.bytes|][..|w.bytes|] == v.bytes[..|w.bytes|];
    }
  }

  /** Between two points of a run the log only grows, and every commit is marked at its end. */
  lemma {:induction false} AfterGrows(w: Wal, ps: nat, commits: seq<Commit>, i: nat, j: nat)
    requires WalOk(w, ps) && Exact(w, ps) && i <= j <= |commits| && CommitsOk(commits) && LastCommit(w.frames) == |w.frames|
    ensures
      var u, v := After(w, ps, commits, i), After(w, ps, commits, j);
      && WalOk(v, ps) && Exact(v, ps) && LastCommit(v.frames) == |v.frames|
      && Extends(u, v, ps) && |u.bytes| <= |v.bytes| && v.bytes[..|u.bytes|] == u.bytes
    decreases j
  {
    hide WalOk, LastCommit, Extends, FrameOffset;
    if j > 0 {
      var u := After(w, ps, commits, j - 1);
      var c := commits[j - 1];
      assert CommitsOk(commits) && c in commits;
      if i == j {
        AfterGrows(w, ps, commits, j - 1, j - 1);
      } else {
        AfterGrows(w, ps, commits, i, j - 1);
      }
      StepGrows(u, ps, c);
      if i < j {
        var a, v := After(w, ps, commits, i), After(w, ps, commits, j);
        ExtendsTrans(a, u, v, ps);
        assert v.bytes[..|a.bytes|] == v.bytes[..|u.bytes|][..|a.bytes|];
      } else {
        ExtendsSelf(After(w, ps, commits, j), ps);
      }
    } else {
      ExtendsSelf(w, ps);
    }
  }

  lemma ExtendsSelf(w: Wal, ps: nat)
    ensures Extends(w, w, ps) && w.bytes[..|w.bytes|] == w.bytes
  {
  }

  lemma StepGrows(u: Wal, ps: nat, c: Commit)
    requires WalOk(u, ps) && Exact(u, ps) && LastCommit(u.frames) == |u.frames|
    requires c.pages == [] || c.dbSize != 0
    ensures
      var v := AppendFrom(u, ps, c.pages, c.dbSize);
      && WalOk(v, ps) && Exact(v, ps) && LastCommit(v.frames) == |v.frames| && Extends(u, v, ps)
      && |u.bytes| <= |v.bytes| && v.bytes[..|u.bytes|] == u.bytes
      && (forall i :: |u.frames| <= i < |v.frames| - 1 ==> v.frames[i].dbSize == 0)
  {
    AppendFromOk(u, [], ps, c.pages, c.dbSize, 0);
    AppendExact(u, ps, c.pages, c.dbSize);
    var v := AppendFrom(u, ps, c.pages, c.dbSize);
    if c.pages != [] {
      LastCommitBelow(v.frames, |v.frames|);
    }
  }

  /** The database size of the last commit; 0 if there is none. */
  function LastDbSize(frames: seq<FrameMeta>): Word {
    var n := LastCommit(frames);
    if n > 0 then frames[n - 1].dbSize else 0
  }

  /**
    For every prefix of the file that a run of commits wrote, reopening it shows, on every page,
    exactly the state after the last commit whose frames lie wholly in the prefix.
   */
  lemma PrefixRecovery(w0: Wal, ps: nat, commits: seq<Commit>, k: nat, w: Wal, file: seq<Page>) returns (j: nat)
    requires WalOk(w0, ps) && Exact(w0, ps) && w0.frames == [] && CommitsOk(commits)
    requires HDR <= k <= |After(w0, ps, commits, |commits|).bytes|
    requires Recovered(After(w0, ps, commits, |commits|).bytes[..k], ps, w)
    ensures j <= |commits| && |After(w0, ps, commits, j).bytes| <= k
    ensures forall i :: j < i <= |commits| ==> |After(w0, ps, commits, i).bytes| > k
    ensures LastCommit(w.frames) == |After(w0, ps, commits, j).frames|
    ensures forall p: PageNumber :: Lookup(w, file, ps, p) == Lookup(After(w0, ps, commits, j), file, ps, p)
    ensures LastDbSize(w.frames) == LastDbSize(After(w0, ps, commits, j).frames)
  {
    hide WalOk, Recovered, AppendFrom, FrameOffset, FrameData, Get32, FramesIn;
    var n := |commits|;
    var full := After(w0, ps, commits, n);
    AfterGrows(w0, ps, commits, n, n);
    PrefixFrames(full, ps, k, w);
    var m := FramesIn(k, ps);
    FramesInBounds(k, ps);
    j := LastFitting(w0, ps, commits, n, m);
    var v := After(w0, ps, commits, j);
    AfterGrows(w0, ps, commits, j, n);
    AfterGrows(w0, ps, commits, j, j);
    FrameOffsetMono(|v.frames|, m, ps);
    PrefixCommit(w0, ps, commits, j, m);
    forall p: PageNumber ensures Lookup(w, file, ps, p) == Lookup(v, file, ps, p) {
      RecoveredView(full, v, w, file, ps, p);
    }
    RecoveredView(full, v, w, file, ps, 0);
    forall i | j < i <= n ensures |After(w0, ps, commits, i).bytes| > k {
      AfterGrows(w0, ps, commits, j + 1, i);
      FrameOffsetMono(m + 1, |After(w0, ps, commits, i).frames|, ps);
    }
  }

  /** A log whose last commit ends where v ends, and which shares its frames with v, shows what v shows. */
  lemma RecoveredView(full: Wal, v: Wal, w: Wal, file: seq<Page>, ps: nat, p: PageNumber)
    requires Extends(v, full, ps) && LastCommit(v.frames) == |v.frames|
    requires |v.frames| <= |w.frames| <= |full.frames| && w.frames == full.frames[..|w.frames|]
    requires LastCommit(w.frames) == |v.frames| && w.frames[..|v.frames|] == v.frames
    requires forall i :: 0 <= i < |w.frames| ==> FrameData(w, ps, i) == FrameData(full, ps, i)
    ensures Lookup(w, file, ps, p) == Lookup(v, file, ps, p) && LastDbSize(w.frames) == LastDbSize(v.frames)
  {
    hide FrameData;
    ViewAgree(v, w, file, ps, |v.frames|, p);
    assert |v.frames| > 0 ==> w.frames[|v.frames| - 1] == w.frames[..|v.frames|][|v.frames| - 1];
  }

  lemma {:induction false} LastFitting(w0: Wal, ps: nat, commits: seq<Commit>, n: nat, m: nat) returns (j: nat)
    requires Exact(w0, ps) && w0.frames == [] && n <= |commits|
    ensures j <= n && |After(w0, ps, commits, j).frames| <= m
    ensures j < n ==> |After(w0, ps, commits, j + 1).frames| > m
    decreases n
  {
    if |After(w0, ps, commits, n).frames| <= m {
      j := n;
    } else {
      j := LastFitting(w0, ps, commits, n - 1, m);
    }
  }

  /** Among the first m frames, the last commit is commit j. */
  lemma PrefixCommit(w0: Wal, ps: nat, commits: seq<Commit>, j: nat, m: nat)
    requires WalOk(w0, ps) && Exact(w0, ps) && w0.frames == [] && CommitsOk(commits) && j <= |commits|
    requires |After(w0, ps, commits, j).frames| <= m <= |After(w0, ps, commits, |commits|).frames|
    requires j < |commits| ==> |After(w0, ps, commits, j + 1).frames| > m
    ensures
      var frames := After(w0, ps, commits, |commits|).frames[..m];
      var v := After(w0, ps, commits, j);
      LastCommit(frames) == |v.frames| && frames[..|v.frames|] == v.frames
  {
    hide WalOk, AppendFrom, FrameOffset, FrameData;
    var full, v := After(w0, ps, commits, |commits|), After(w0, ps, commits, j);
    AfterGrows(w0, ps, commits, j, |commits|);
    AfterGrows(w0, ps, commits, j, j);
    if j < |commits| {
      AfterGrows(w0, ps, commits, j + 1, |commits|);
      StepGrows(v, ps, commits[j]);
      CommitInside(full.frames, v.frames, After(w0, ps, commits, j + 1).frames, m);
    } else {
      assert full.frames[..m] == v.frames;
    }
  }

  lemma CommitInside(full: seq<FrameMeta>, v: seq<FrameMeta>, u: seq<FrameMeta>, m: nat)
    requires |v| <= m < |u| <= |full| && full[..|u|] == u && full[..|v|] == v
    requires LastCommit(v) == |v| && forall i :: |v| <= i < |u| - 1 ==> u[i].dbSize == 0
    ensures LastCommit(full[..m]) == |v| && full[..m][..|v|] == v
  {
    var frames := full[..m];
    assert frames[..|v|] == full[..|v|];
    forall i | |v| <= i < m ensures frames[i].dbSize == 0 {
      assert full[i] == full[..|u|][i];
    }
    assert |v| > 0 ==> frames[|v| - 1] == full[..|v|][|v| - 1];
    LastCommitBelow(frames, |v|);
  }

  /** A file too short for the log header starts a log without frames: nothing was committed. */
  lemma FreshLog(ps: Word, salt1: Word, salt2: Word, file: seq<Page>, p: PageNumber)
    requires ps > 0
    ensures
      var w := NewWal(ps, salt1, salt2);
      && WalOk(w, ps) && Exact(w, ps) && w.frames == []
      && Lookup(w, file, ps, p) == FilePage(file, ps, p)
  {
    var h := WalHeader(ps, salt1, salt2);
    assert h == Put32(WAL_MAGIC) + h[4..];
    PutGet32(WAL_MAGIC, h[4..]);
    assert h[8..] == Put32(ps) + h[12..];
    PutGet32(ps, h[12..]);
    assert h[16..] == Put32(salt1) + h[20..];
    PutGet32(salt1, h[20..]);
    assert h[20..] == Put32(salt2) + h[24..];
    PutGet32(salt2, h[24..]);
  }

  /** A log whose one frame ends no commit: the next commit, of page 2, changes what page 1 reads as. */
  lemma TailShowsThrough(ps: Word, salt1: Word, salt2: Word, dbSize: Word)
    requires ps > 0 && dbSize != 0
    ensures
      var w := AppendFrame(NewWal(ps, salt1, salt2), ps, DirtyPage(1, [1]), 0);
      && WalOk(w, ps) && FrameOffset(|w.frames|, ps) <= |w.bytes|
      && Lookup(AppendFrom(w, ps, [DirtyPage(2, [])], dbSize), [], ps, 1) != Lookup(w, [], ps, 1)
  {
    hide WalOk, Get32, Put32, Checksum, FrameData;
    FreshLog(ps, salt1, salt2, [], 1);
    var w0, d := NewWal(ps, salt1, salt2), DirtyPage(1, [1]);
    AppendFrameOk(w0, ps, d, 0);
    var w := AppendFrame(w0, ps, d, 0);
    assert w.frames == [FrameMeta(1, 0)];
    assert LastCommit(w.frames) == 0 && LatestFrame(w.frames, 1, 1) == 1;
    assert FrameView(w, [], ps, 1, 1)[0] == 1;
    var pages := [DirtyPage(2, [])];
    CommitAfterTail(w, [], ps, pages, dbSize, 1);
    assert pages[1..] == [];
    assert Overlay(pages, ps, 1, Lookup(w, [], ps, 1)) == Lookup(w, [], ps, 1);
  }

  /** At least a header of the file is left: it is read as a log with the same page size. */
  lemma PrefixIsLog(w0: Wal, ps: Word, commits: seq<Commit>, bytes: seq<Byte>)
    requires WalOk(w0, ps) && Exact(w0, ps) && w0.frames == [] && CommitsOk(commits)
    requires var full := After(w0, ps, commits, |commits|).bytes; HDR <= |bytes| <= |full| && bytes == full[..|bytes|]
    ensures IsWalHeader(bytes) && EffectivePageSize(bytes, ps) == ps
  {
    hide After, Get32;
    var n := |commits|;
    AfterGrows(w0, ps, commits, n, n);
    var full := After(w0, ps, commits, n).bytes;
    assert bytes[..|bytes|] == full[..|bytes|];
    Get32Agree(bytes, full, |bytes|, 0);
    Get32Agree(bytes, full, |bytes|, 8);
    assert bytes[0..] == bytes && full[0..] == full;
  }

  /** PrefixRecovery, extended to files too short for a log header: those start a fresh log. */
  lemma CutRecovery(w0: Wal, ps: Word, commits: seq<Commit>, bytes: seq<Byte>, r1: Word, r2: Word, w: Wal, file: seq<Page>) returns (j: nat)
    requires ps > 0 && WalOk(w0, ps) && Exact(w0, ps) && w0.frames == [] && CommitsOk(commits)
    requires var full := After(w0, ps, commits, |commits|).bytes; |bytes| <= |full| && bytes == full[..|bytes|]
    requires if |bytes| < HDR then w == NewWal(ps, r1, r2) else Recovered(bytes, ps, w)
    ensures j <= |commits| && (j > 0 ==> |After(w0, ps, commits, j).bytes| <= |bytes|)
    ensures forall i :: j < i <= |commits| ==> |After(w0, ps, commits, i).bytes| > |bytes|
    ensures forall p: PageNumber :: Lookup(w, file, ps, p) == Lookup(After(w0, ps, commits, j), file, ps, p)
    ensures LastDbSize(w.frames) == LastDbSize(After(w0, ps, commits, j).frames)
  {
    hide WalOk, Recovered, AppendFrom, Get32, NewWal, FrameData;
    if |bytes| >= HDR {
      j := PrefixRecovery(w0, ps, commits, |bytes|, w, file);
    } else {
      j := 0;
      forall p: PageNumber ensures Lookup(w, file, ps, p) == Lookup(w0, file, ps, p) {
        FreshLog(ps, r1, r2, file, p);
      }
      FreshLog(ps, r1, r2, file, 0);
      forall i | 0 < i <= |commits| ensures |After(w0, ps, commits, i).bytes| > |bytes| {
        AfterGrows(w0, ps, commits, 0, i);
        StartLength(w0, ps);
      }
    }
  }

  lemma StartLength(w: Wal, ps: nat)
    requires Exact(w, ps) && w.frames == []
    ensures |w.bytes| == HDR
  {
  }

  // ---- Checkpoints ----

  /** Copy the committed frames into the main file; Restart and Truncate then empty the log. */
  method Checkpoint(w: Wal, file: seq<Page>, ps: nat, mode: CheckpointMode) returns (v: Wal, file': seq<Page>, inWal: nat, copied: nat)
    requires |w.bytes| >= HDR
    ensures inWal == LastCommit(w.frames) && copied <= inWal
    ensures file' == CopyFrames(w, file, ps, inWal)
    ensures v == if inWal > 0 && (mode == Restart || mode == Truncate) then w.(bytes := w.bytes[..HDR], frames := []) else w
  {
    inWal, copied := LastCommit(w.frames), 0;
    v, file' := w, file;
    if inWal == 0 {
      return;
    }
    var i := 0;
    while i < inWal
      invariant i <= inWal && copied <= i && file' == CopyFrames(w, file, ps, i)
    {
      if w.frames[i].pgno != 0 {
        file' := FileWrite(file', ps, w.frames[i].pgno, FrameData(w, ps, i));
        copied := copied + 1;
      }
      i := i + 1;
    }
    if mode == Truncate || mode == Restart {
      v := w.(bytes := w.bytes[..HDR], frames := []);
    }
  }

  /** In every mode a checkpoint leaves what a reader sees unchanged, on every page. */
  lemma CheckpointView(w: Wal, file: seq<Page>, ps: nat, v: Wal, p: PageNumber)
    requires WalOk(w, ps) && p >= 1
    requires v == w || v == w.(bytes := w.bytes[..HDR], frames := [])
    ensures Lookup(v, CopyFrames(w, file, ps, LastCommit(w.frames)), ps, p) == Lookup(w, file, ps, p)
    ensures WalOk(v, ps)
  {
    var n := LastCommit(w.frames);
    LookupIsReplay(w, file, ps, n, p);
    if v == w {
      CopiedOver(w, file, CopyFrames(w, file, ps, n), ps, n, p);
    } else {
      assert v.bytes[..HDR] == w.bytes[..HDR];
      HeaderAgree(w, v, ps, HDR);
    }
  }

  lemma CopiedOver(w: Wal, file: seq<Page>, file': seq<Page>, ps: nat, n: nat, p: PageNumber)
    requires n <= |w.frames| && FilePage(file', ps, p) == FrameView(w, file, ps, n, p)
    ensures FrameView(w, file', ps, n, p) == FrameView(w, file, ps, n, p)
  {
  }
}
