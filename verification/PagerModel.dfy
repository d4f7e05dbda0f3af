/**
  What the pager's fields mean: the pages on disk, the pages its cache shows, and the facts that
  tie the dirty list, the savepoints and the journal to them.
 */
module PagerModel {
  import opened Bytes
  import opened Wal
  import opened WalRecovery
  import opened Journal

  datatype CachedPage = CachedPage(data: Page, dirty: bool)
  type Cache = map<PageNumber, CachedPage>

  datatype State = Unlocked | Reader | Writer | WriterLocked

  /** Every dirty page, the length of the dirty list and the database size when the savepoint was opened. */
  datatype Savepoint = Savepoint(dirtyPages: map<PageNumber, Page>, nDirty: nat, dbSize: Word)

  datatype PagerError = ReadOnly | NotInTransaction | PageOutOfRange(page: nat) | UnexpectedEof
  datatype Outcome = Ok | Err(error: PagerError)

  /** Everything below the cache. */
  datatype Disk = Disk(ps: nat, file: seq<Page>, wal: Option<Wal>)

  /** Page p on disk: its latest committed frame, else the main file. */
  function Base(d: Disk, p: PageNumber): Page {
    match d.wal
    case None => FilePage(d.file, d.ps, p)
    case Some(w) => Lookup(w, d.file, d.ps, p)
  }

  /** Page p as the pager shows it. */
  function Shown(d: Disk, cache: Cache, p: PageNumber): Page {
    if p in cache then cache[p].data else Base(d, p)
  }

  /** Page p as it was when the savepoint was opened. */
  function SavedPage(d: Disk, sp: Savepoint, p: PageNumber): Page {
    if p in sp.dirtyPages then sp.dirtyPages[p] else Base(d, p)
  }

  ghost predicate FileOk(file: seq<Page>, ps: nat) {
    forall i :: 0 <= i < |file| ==> |file[i]| == ps
  }

  /** A log, possibly with frames after the last commit, as a crash may leave it. */
  ghost predicate LogOk(w: Wal, ps: nat) {
    WalOk(w, ps) && FrameOffset(|w.frames|, ps) <= |w.bytes|
  }

  /** The last frame ends a commit. The next commit would make an uncommitted tail visible: see Wal.CommitAfterTail. */
  predicate NoTail(d: Disk) {
    d.wal.Some? ==> LastCommit(d.wal.value.frames) == |d.wal.value.frames|
  }

  ghost predicate DiskOk(d: Disk) {
    0 < d.ps < 0x1_0000_0000 && FileOk(d.file, d.ps) && (d.wal.Some? ==> LogOk(d.wal.value, d.ps))
  }

  ghost predicate CacheOk(d: Disk, cache: Cache) {
    forall p :: p in cache ==> p >= 1 && |cache[p].data| == d.ps && (!cache[p].dirty ==> cache[p].data == Base(d, p))
  }

  /** The dirty list holds each dirty page once, and the database size covers them. */
  ghost predicate DirtyOk(cache: Cache, order: seq<PageNumber>, dbSize: Word) {
    && (forall i, j :: 0 <= i < j < |order| ==> order[i] != order[j])
    && (forall p :: p in order <==> p in cache && cache[p].dirty)
    && (forall p :: p in order ==> p <= dbSize)
  }

  ghost predicate SavepointOk(sp: Savepoint, order: seq<PageNumber>, ps: nat) {
    && sp.nDirty <= |order|
    && (forall p :: p in sp.dirtyPages <==> p in order[..sp.nDirty])
    && (forall p :: p in sp.dirtyPages ==> p <= sp.dbSize && |sp.dirtyPages[p]| == ps)
  }

  ghost predicate SavepointsOk(sps: seq<Savepoint>, order: seq<PageNumber>, dbSize: Word, ps: nat) {
    && (forall i :: 0 <= i < |sps| ==> SavepointOk(sps[i], order, ps) && sps[i].dbSize <= dbSize)
    && (forall i, j :: 0 <= i < j < |sps| ==> sps[i].nDirty <= sps[j].nDirty && sps[i].dbSize <= sps[j].dbSize)
  }

  lemma BaseLength(d: Disk, p: PageNumber)
    requires DiskOk(d)
    ensures |Base(d, p)| == d.ps
  {
    if d.wal.Some? {
      var w := d.wal.value;
      var i := LatestFrame(w.frames, LastCommit(w.frames), p);
      if i > 0 {
        assert FrameOk(w, d.ps, i - 1);
      }
    }
  }

  lemma FileWriteOk(file: seq<Page>, ps: nat, p: PageNumber, data: Page)
    requires FileOk(file, ps) && p >= 1 && |data| == ps
    ensures FileOk(FileWrite(file, ps, p, data), ps)
  {
  }

  // ---- The journal of a transaction ----

  function Body(j: Journal): seq<Byte> {
    if |j.bytes| >= JOURNAL_HDR then j.bytes[JOURNAL_HDR..] else []
  }

  function Records(j: Journal, ps: nat): seq<Record> {
    match ParseRecords(Body(j), ps)
    case None => []
    case Some(recs) => recs
  }

  /** `start` is the main file when the transaction began. */
  ghost predicate JournalOk(j: Journal, ps: nat, start: seq<Page>) {
    && |j.bytes| >= JOURNAL_HDR && Aligned(Body(j), ps) && ParseRecords(Body(j), ps).Some?
    && Originals(Records(j, ps), start, j.startSize, ps)
    && JournalFile(j, ps)
  }

  /**
    The journal as bytes: the eight magic bytes, the nonce at 12, the starting size at 16, the sector size
    512 at 20 and the page size at 24; every record with its checksum; and a counter that is the number of records.
   */
  ghost predicate JournalFile(j: Journal, ps: nat) {
    && |j.bytes| >= 28 && j.bytes[..8] == [0xD9, 0xD5, 0x05, 0xF9, 0x20, 0xA1, 0x63, 0xD7] && Get32(j.bytes[12..]) == j.nonce
    && Get32(j.bytes[16..]) == j.startSize && Get32(j.bytes[20..]) == 512 && Get32(j.bytes[24..]) == ps
    && SumsOk(j.bytes[28..], j.nonce, ps)
    && j.nRecords == |Records(j, ps)| % 0x1_0000_0000
  }

  /** The header of a sealed journal holds the number of its records at 8. */
  ghost predicate CountStored(j: Journal, ps: nat) {
    |j.bytes| >= 28 && Get32(j.bytes[8..]) == |Records(j, ps)| % 0x1_0000_0000
  }

  /** Bytes from 12 to 28 decide the header fields. */
  lemma JournalFileAgree(j: Journal, k: Journal, ps: nat)
    requires JournalFile(j, ps) && |k.bytes| >= 28 && k.bytes[..8] == j.bytes[..8] && k.bytes[12..28] == j.bytes[12..28]
    requires k.nonce == j.nonce && k.startSize == j.startSize
    requires SumsOk(k.bytes[28..], k.nonce, ps) && k.nRecords == |Records(k, ps)| % 0x1_0000_0000
    ensures JournalFile(k, ps)
  {
    hide Get32, SumsOk, Records;
    var a, b := j.bytes[12..], k.bytes[12..];
    assert a[..16] == j.bytes[12..28] && b[..16] == k.bytes[12..28];
    Get32Agree(a, b, 16, 0);
    Get32Agree(a, b, 16, 4);
    Get32Agree(a, b, 16, 8);
    Get32Agree(a, b, 16, 12);
    assert a[0..] == a && b[0..] == b && a[4..] == j.bytes[16..] && b[4..] == k.bytes[16..];
    assert a[8..] == j.bytes[20..] && b[8..] == k.bytes[20..] && a[12..] == j.bytes[24..] && b[12..] == k.bytes[24..];
  }

  ghost predicate Covered(cache: Cache, recs: seq<Record>) {
    forall p :: p in cache && cache[p].dirty ==> p in Journaled(recs)
  }

  ghost predicate SizesOk(j: Journal, dbSize: Word, sps: seq<Savepoint>) {
    j.startSize <= dbSize && forall i :: 0 <= i < |sps| ==> j.startSize <= sps[i].dbSize
  }

  const DB_MAGIC: seq<Byte> := [83, 81, 76, 105, 116, 101, 32, 102, 111, 114, 109, 97, 116, 32, 51, 0]

  predicate HasMagic(data: Page) {
    |data| >= 100 && data[..16] == DB_MAGIC
  }

  /** Page 1 with the change counter incremented and the database size stored. */
  function Patched(data: Page, dbSize: Word): (r: Page)
    requires HasMagic(data)
    ensures |r| == |data|
  {
    data[..24] + Put32((Get32(data[24..]) + 1) % 0x1_0000_0000) + Put32(dbSize) + data[32..]
  }

  /** Page 1 as the first commit phase leaves it. */
  function Header(data: Page, dbSize: Word): Page {
    if dbSize >= 1 && HasMagic(data) then Patched(data, dbSize) else data
  }

  /**
    What a commit makes of page 1. A page that begins with the sixteen bytes "SQLite format 3" and a zero
    gets its change counter, at 24, incremented and the database size stored at 28; all other bytes stay,
    and so does any other page.
   */
  ghost predicate HeaderWritten(a: Page, b: Page, dbSize: Word) {
    if |a| >= 100 && a[..16] == [83, 81, 76, 105, 116, 101, 32, 102, 111, 114, 109, 97, 116, 32, 51, 0] && dbSize >= 1 then
      && |b| == |a| && Get32(b[28..]) == dbSize && Get32(b[24..]) == (Get32(a[24..]) + 1) % 0x1_0000_0000
      && forall k :: 0 <= k < |a| && !(24 <= k < 32) ==> b[k] == a[k]
    else b == a
  }

  lemma HeaderIsWritten(data: Page, dbSize: Word)
    ensures HeaderWritten(data, Header(data, dbSize), dbSize)
  {
    hide Put32, Get32;
    if dbSize >= 1 && HasMagic(data) {
      var c: int := Get32(data[24..]);
      var r := Patched(data, dbSize);
      assert r[24..] == Put32((c + 1) % 0x1_0000_0000) + r[28..];
      PutGet32((c + 1) % 0x1_0000_0000, r[28..]);
      assert r[28..] == Put32(dbSize) + data[32..];
      PutGet32(dbSize, data[32..]);
    }
  }

  lemma PatchChanges(data: Page, dbSize: Word)
    requires HasMagic(data)
    ensures Patched(data, dbSize) != data
  {
    hide Put32, Get32;
    var c: int := Get32(data[24..]);
    var r := Patched(data, dbSize);
    assert r[24..] == Put32((c + 1) % 0x1_0000_0000) + r[28..];
    PutGet32((c + 1) % 0x1_0000_0000, r[28..]);
  }

  /** The first commit phase may patch page 1 without a record of it. */
  ghost predicate Spared(recs: seq<Record>, start: seq<Page>, ps: nat, p: PageNumber) {
    p in Journaled(recs) || p != 1 || !HasMagic(FilePage(start, ps, 1))
  }

  /** Away from the journaled pages, the main file is still the one the transaction began with. */
  ghost predicate Untouched(recs: seq<Record>, start: seq<Page>, file: seq<Page>, size: Word, ps: nat) {
    forall p: PageNumber :: 1 <= p <= size && p !in Journaled(recs) && Spared(recs, start, ps, p) ==>
      FilePage(file, ps, p) == FilePage(start, ps, p)
  }

  /** One more record at the end of the journal. */
  function WithRecord(j: Journal, r: Record): Journal
    requires j.pos <= |j.bytes|
  {
    var x := RecordBytes(r, j.nonce);
    j.(bytes := WriteAt(j.bytes, j.pos, x), pos := j.pos + |x|, nRecords := (j.nRecords + 1) % 0x1_0000_0000)
  }

  lemma RecordGrows(j: Journal, r: Record)
    requires j.pos <= |j.bytes|
    ensures
      var k := WithRecord(j, r);
      k.pos <= |k.bytes| && |k.bytes| >= |j.bytes| && k.startSize == j.startSize
  {
  }

  lemma JournalAppend(j: Journal, r: Record, ps: nat, start: seq<Page>)
    requires JournalOk(j, ps, start) && j.pos == |j.bytes|
    requires |r.data| == ps && r.pgno >= 1 && (r.pgno <= j.startSize ==> r.data == FilePage(start, ps, r.pgno))
    ensures
      var k := WithRecord(j, r);
      && JournalOk(k, ps, start) && k.pos == |k.bytes|
      && Records(k, ps) == Records(j, ps) + [r]
      && Journaled(Records(k, ps)) == Journaled(Records(j, ps)) + {r.pgno}
  {
    hide RecordBytes, ParseRecords, Aligned, FilePage, JournalFile;
    var k := WithRecord(j, r);
    var x := RecordBytes(r, j.nonce);
    assert k.bytes == j.bytes + x;
    assert Body(k) == Body(j) + x;
    ParseAppend(Body(j), r, j.nonce, ps);
    var recs := Records(k, ps);
    assert recs[..|recs| - 1] == Records(j, ps);
    JournaledInit(recs);
    FileAppend(j, k, r, ps);
  }

  lemma FileAppend(j: Journal, k: Journal, r: Record, ps: nat)
    requires JournalFile(j, ps) && Aligned(Body(j), ps) && j.pos == |j.bytes| && |r.data| == ps
    requires k == WithRecord(j, r) && |Records(k, ps)| == |Records(j, ps)| + 1
    ensures JournalFile(k, ps)
  {
    hide RecordBytes, Aligned, SumsOk, Records, Get32;
    assert Body(j) == j.bytes[28..] && Body(k) == Body(j) + RecordBytes(r, j.nonce);
    SumsAppend(Body(j), r, j.nonce, ps);
    assert k.bytes[..8] == j.bytes[..8] && k.bytes[12..28] == j.bytes[12..28];
    JournalFileAgree(j, k, ps);
  }

  /** Overwriting the record count in the header leaves the records alone. */
  function Sealed(j: Journal): Journal
    requires |j.bytes| >= JOURNAL_HDR
  {
    j.(bytes := WriteAt(j.bytes, 8, Put32(j.nRecords)), pos := 12)
  }

  lemma SealKeeps(j: Journal, ps: nat)
    requires |j.bytes| >= JOURNAL_HDR
    ensures |Sealed(j).bytes| == |j.bytes| && Body(Sealed(j)) == Body(j) && Records(Sealed(j), ps) == Records(j, ps)
    ensures JournalFile(j, ps) ==> JournalFile(Sealed(j), ps) && CountStored(Sealed(j), ps)
  {
    hide ParseRecords, Get32, Put32, SumsOk;
    var k := Sealed(j);
    assert Body(k) == Body(j);
    if JournalFile(j, ps) {
      assert k.bytes[..8] == j.bytes[..8] && k.bytes[12..28] == j.bytes[12..28] && k.bytes[28..] == j.bytes[28..];
      JournalFileAgree(j, k, ps);
      assert k.bytes[8..] == Put32(j.nRecords) + k.bytes[12..];
      PutGet32(j.nRecords, k.bytes[12..]);
    }
  }

  /** A transaction that has not begun to commit: its journal can restore the start. */
  lemma StartJournal(nonce: Word, dbSize: Word, ps: Word, start: seq<Page>)
    ensures
      var j := Journal(JournalHeader(nonce, dbSize, ps), JOURNAL_HDR, nonce, 0, dbSize);
      JournalOk(j, ps, start) && Records(j, ps) == [] && Get32(j.bytes[8..]) == 0xFFFF_FFFF
  {
    var j := Journal(JournalHeader(nonce, dbSize, ps), JOURNAL_HDR, nonce, 0, dbSize);
    assert Body(j) == [];
    JournalFields(nonce, dbSize, ps);
    hide Get32;
    assert j.bytes[28..] == [];
  }

  /**
    A crash during the first commit phase: whatever bytes are on the journaled pages, the records
    read back from the journal restore every page up to the starting size.
   */
  lemma CrashRestores(j: Journal, ps: nat, start: seq<Page>, crashed: seq<Page>)
    requires JournalOk(j, ps, start)
    requires Untouched(Records(j, ps), start, crashed, j.startSize, ps)
    ensures
      forall p: PageNumber :: 1 <= p <= j.startSize && Spared(Records(j, ps), start, ps, p) ==>
        FilePage(Replayed(Records(j, ps), crashed, ps), ps, p) == FilePage(start, ps, p)
  {
    hide FilePage, JournalChecksum, ParseRecords, HasMagic;
    var recs := Records(j, ps);
    forall p: PageNumber | 1 <= p <= j.startSize && Spared(recs, start, ps, p)
      ensures FilePage(Replayed(recs, crashed, ps), ps, p) == FilePage(start, ps, p)
    {
      ReplayedPage(recs, crashed, start, j.startSize, ps, p);
    }
  }

  // ---- Committing to the log ----

  /** The pages of a commit, in the order in which they became dirty. */
  ghost predicate Listed(pages: seq<DirtyPage>, order: seq<PageNumber>, cache: Cache) {
    && |pages| == |order|
    && forall i :: 0 <= i < |pages| ==> order[i] in cache && pages[i] == DirtyPage(order[i], cache[order[i]].data)
  }

  lemma {:induction false} OverlayLast(pages: seq<DirtyPage>, ps: nat, p: PageNumber, base: Page, i: nat)
    requires i < |pages| && pages[i].pgno == p && |pages[i].data| == ps
    requires forall k :: i < k < |pages| ==> pages[k].pgno != p
    ensures Overlay(pages, ps, p, base) == pages[i].data
    decreases |pages|
  {
    var next := if pages[0].pgno == p then Padded(pages[0].data, ps) else base;
    if i == 0 {
      OverlayCases(pages[1..], ps, p, next, next);
      assert Overlay(pages[1..], ps, p, next) == next;
    } else {
      OverlayLast(pages[1..], ps, p, next, i - 1);
    }
  }

  lemma OverlayShown(pages: seq<DirtyPage>, d: Disk, cache: Cache, order: seq<PageNumber>, dbSize: Word, p: PageNumber)
    requires CacheOk(d, cache) && DirtyOk(cache, order, dbSize) && Listed(pages, order, cache)
    ensures Overlay(pages, d.ps, p, Base(d, p)) == Shown(d, cache, p)
  {
    if p in order {
      var i :| 0 <= i < |order| && order[i] == p;
      OverlayLast(pages, d.ps, p, Base(d, p), i);
    } else {
      OverlayCases(pages, d.ps, p, Base(d, p), Base(d, p));
    }
  }

  /** After a commit to the log, the disk shows every page as the cache did. */
  lemma LogCommit(d: Disk, cache: Cache, order: seq<PageNumber>, dbSize: Word, pages: seq<DirtyPage>)
    requires DiskOk(d) && d.wal.Some? && NoTail(d)
    requires CacheOk(d, cache) && DirtyOk(cache, order, dbSize) && Listed(pages, order, cache)
    ensures
      var e := Disk(d.ps, d.file, Some(AppendFrom(d.wal.value, d.ps, pages, dbSize)));
      DiskOk(e) && NoTail(e) && forall p: PageNumber :: Base(e, p) == Shown(d, cache, p)
  {
    hide WalOk, Overlay, Lookup, FrameOffset;
    var w := d.wal.value;
    var v := AppendFrom(w, d.ps, pages, dbSize);
    if pages != [] {
      assert order[0] in order;
    }
    forall p: PageNumber ensures LogOk(v, d.ps) && LastCommit(v.frames) == |v.frames| && Lookup(v, d.file, d.ps, p) == Shown(d, cache, p) {
      if pages != [] {
        assert cache[order[0]].dirty && order[0] >= 1;
        CommitVisible(w, d.file, d.ps, pages, dbSize, p);
      } else {
        CommitNothing(w, d.ps, d.file, dbSize, p);
      }
      OverlayShown(pages, d, cache, order, dbSize, p);
    }
    assert LogOk(v, d.ps) && LastCommit(v.frames) == |v.frames| by {
      var p: PageNumber := 1;
      assert Lookup(v, d.file, d.ps, p) == Shown(d, cache, p);
    }
  }

  lemma CommitNothing(w: Wal, ps: nat, file: seq<Page>, dbSize: Word, p: PageNumber)
    requires LogOk(w, ps)
    ensures AppendFrom(w, ps, [], dbSize) == w && Lookup(w, file, ps, p) == Overlay([], ps, p, Lookup(w, file, ps, p))
  {
  }

  // ---- Savepoints ----

  lemma SavepointsGrow(sps: seq<Savepoint>, order: seq<PageNumber>, p: PageNumber, dbSize: Word, dbSize': Word, ps: nat)
    requires SavepointsOk(sps, order, dbSize, ps) && dbSize <= dbSize'
    ensures SavepointsOk(sps, order + [p], dbSize', ps)
  {
    forall i | 0 <= i < |sps| ensures SavepointOk(sps[i], order + [p], ps) {
      assert SavepointOk(sps[i], order, ps);
      assert (order + [p])[..sps[i].nDirty] == order[..sps[i].nDirty];
    }
  }

  lemma DirtyGrows(cache: Cache, order: seq<PageNumber>, p: PageNumber, e: CachedPage, dbSize: Word, dbSize': Word)
    requires DirtyOk(cache, order, dbSize) && dbSize <= dbSize' && p <= dbSize' && e.dirty
    requires p in cache ==> !cache[p].dirty
    ensures DirtyOk(cache[p := e], order + [p], dbSize')
  {
  }

  lemma CacheDirtied(d: Disk, cache: Cache, p: PageNumber, e: CachedPage)
    requires CacheOk(d, cache - {p}) && p >= 1 && e.dirty && |e.data| == d.ps
    ensures CacheOk(d, cache[p := e])
  {
    hide Base;
    forall q | q in cache && q != p
      ensures q >= 1 && |cache[q].data| == d.ps && (!cache[q].dirty ==> cache[q].data == Base(d, q))
    {
      assert q in cache - {p};
    }
  }

  lemma CoveredGrows(cache: Cache, p: PageNumber, e: CachedPage, recs: seq<Record>, recs': seq<Record>)
    requires Covered(cache, recs) && Journaled(recs') == Journaled(recs) + {p}
    ensures Covered(cache[p := e], recs')
  {
  }

  // ---- Writing the dirty pages to the main file ----

  /** The file after the pages of `done` have been written over `file`. */
  ghost predicate Flushed(file: seq<Page>, out: seq<Page>, cache: Cache, done: seq<PageNumber>, ps: nat) {
    && FileOk(out, ps) && (if done == [] then out == file else out != [])
    && forall q: PageNumber :: FilePage(out, ps, q) == if q in done && q in cache then cache[q].data else FilePage(file, ps, q)
  }

  lemma FlushStep(file: seq<Page>, out: seq<Page>, cache: Cache, order: seq<PageNumber>, i: nat, ps: nat)
    requires i < |order| && Flushed(file, out, cache, order[..i], ps)
    requires order[i] in cache && order[i] >= 1 && |cache[order[i]].data| == ps
    ensures Flushed(file, FileWrite(out, ps, order[i], cache[order[i]].data), cache, order[..i + 1], ps)
  {
    FileWriteOk(out, ps, order[i], cache[order[i]].data);
    assert order[..i + 1] == order[..i] + [order[i]];
    hide FilePage, FileWrite;
  }

  /** Once every dirty page is written, the main file shows what the cache does. */
  lemma FlushedShown(d: Disk, out: seq<Page>, cache: Cache, order: seq<PageNumber>, dbSize: Word)
    requires DiskOk(d) && d.wal == None && CacheOk(d, cache) && DirtyOk(cache, order, dbSize)
    requires Flushed(d.file, out, cache, order, d.ps)
    ensures
      var e := Disk(d.ps, out, None);
      && DiskOk(e) && CacheOk(e, cache)
      && forall q: PageNumber :: Base(e, q) == Shown(d, cache, q)
  {
    hide FilePage;
  }

  lemma FlushedUntouched(d: Disk, out: seq<Page>, cache: Cache, order: seq<PageNumber>, dbSize: Word, recs: seq<Record>, start: seq<Page>, size: Word)
    requires DirtyOk(cache, order, dbSize) && Flushed(d.file, out, cache, order, d.ps)
    requires Covered(cache, recs) && Untouched(recs, start, d.file, size, d.ps)
    ensures Untouched(recs, start, out, size, d.ps)
  {
    hide FilePage, HasMagic;
  }

  lemma DirtySame(cache: Cache, p: PageNumber, data: Page, order: seq<PageNumber>, dbSize: Word)
    requires DirtyOk(cache, order, dbSize) && p in cache
    ensures DirtyOk(cache[p := cache[p].(data := data)], order, dbSize)
  {
  }

  lemma HeaderUntouched(recs: seq<Record>, start: seq<Page>, file: seq<Page>, out: seq<Page>, size: Word, ps: nat, dbSize: Word)
    requires Untouched(recs, start, file, size, ps)
    requires forall p: PageNumber :: p >= 1 ==> FilePage(out, ps, p) == if p == 1 then Header(FilePage(file, ps, 1), dbSize) else FilePage(file, ps, p)
    ensures Untouched(recs, start, out, size, ps)
  {
    hide FilePage, HasMagic, Patched;
  }

  // ---- Writing the journal back ----

  /** Journaled pages in the cache hold what the file holds, and are clean; the others are as before. */
  ghost predicate Restored(cache: Cache, out: Cache, recs: seq<Record>, file: seq<Page>, ps: nat) {
    && out.Keys == cache.Keys
    && forall p :: p in cache ==> out[p] == if p in Journaled(recs) then CachedPage(FilePage(file, ps, p), false) else cache[p]
  }

  lemma RestoreStep(cache: Cache, out: Cache, recs: seq<Record>, i: nat, file: seq<Page>, ps: nat)
    requires i < |recs| && recs[i].pgno >= 1 && Restored(cache, out, recs[..i], file, ps)
    ensures
      var r := recs[i];
      Restored(cache, if r.pgno in out then out[r.pgno := CachedPage(r.data, false)] else out, recs[..i + 1], FileWrite(file, ps, r.pgno, r.data), ps)
  {
    hide FilePage, FileWrite;
    assert recs[..i + 1][..i] == recs[..i];
    JournaledInit(recs[..i + 1]);
  }

  lemma {:induction false} ReplayedOk(recs: seq<Record>, file: seq<Page>, ps: nat)
    requires FileOk(file, ps) && forall i :: 0 <= i < |recs| ==> recs[i].pgno >= 1 && |recs[i].data| == ps
    ensures FileOk(Replayed(recs, file, ps), ps)
    decreases |recs|
  {
    if recs != [] {
      var r := recs[|recs| - 1];
      ReplayedOk(recs[..|recs| - 1], file, ps);
      FileWriteOk(Replayed(recs[..|recs| - 1], file, ps), ps, r.pgno, r.data);
    }
  }

  /** Unjournaled pages are as they were on disk; the pages up to the starting size are as at the start. */
  ghost predicate RolledBack(d: Disk, e: Disk, out: Cache, recs: seq<Record>, start: seq<Page>, size: Word) {
    && (forall p: PageNumber :: p >= 1 && p !in Journaled(recs) ==> Shown(e, out, p) == Base(d, p))
    && (forall p: PageNumber :: 1 <= p <= size && Spared(recs, start, d.ps, p) ==> Shown(e, out, p) == FilePage(start, d.ps, p))
  }

  /** After a rollback the cache is clean, and every page is as the replayed file has it. */
  lemma RollbackOk(d: Disk, cache: Cache, out: Cache, recs: seq<Record>, start: seq<Page>, size: Word)
    requires DiskOk(d) && d.wal == None && CacheOk(d, cache) && Covered(cache, recs) && Originals(recs, start, size, d.ps)
    requires Untouched(recs, start, d.file, size, d.ps)
    requires Restored(cache, out, recs, Replayed(recs, d.file, d.ps), d.ps)
    ensures
      var e := Disk(d.ps, Replayed(recs, d.file, d.ps), None);
      && DiskOk(e) && CacheOk(e, out) && DirtyOk(out, [], size)
      && (forall p: PageNumber :: p >= 1 ==> Base(e, p) == Shown(e, out, p))
      && RolledBack(d, e, out, recs, start, size)
  {
    hide FilePage, HasMagic;
    ReplayedOk(recs, d.file, d.ps);
    var e := Disk(d.ps, Replayed(recs, d.file, d.ps), None);
    forall p: PageNumber | p >= 1
      ensures p !in Journaled(recs) ==> Base(e, p) == Base(d, p)
      ensures p in Journaled(recs) && p <= size ==> Base(e, p) == FilePage(start, d.ps, p)
    {
      ReplayedPage(recs, d.file, start, size, d.ps, p);
    }
    forall p | p in out ensures |out[p].data| == d.ps {
      BaseLength(e, p);
    }
  }

  // ---- Rolling back to a savepoint ----

  /** The cache without the pages that became dirty since, the others as they were saved. */
  ghost predicate BackTo(cache: Cache, out: Cache, order: seq<PageNumber>, sp: Savepoint)
    requires sp.nDirty <= |order|
  {
    && (forall p :: p in out <==> p in cache && p !in order[sp.nDirty..])
    && forall p :: p in out ==> out[p] == if p in sp.dirtyPages then CachedPage(sp.dirtyPages[p], true) else cache[p]
  }

  /** The pages of the dirty list are those dirty at the savepoint and those added since. */
  lemma DirtySplit(cache: Cache, order: seq<PageNumber>, dbSize: Word, sp: Savepoint, ps: nat, p: PageNumber)
    requires DirtyOk(cache, order, dbSize) && SavepointOk(sp, order, ps)
    ensures p in order <==> p in sp.dirtyPages || p in order[sp.nDirty..]
    ensures p in sp.dirtyPages ==> p !in order[sp.nDirty..]
  {
    var n := sp.nDirty;
    assert order == order[..n] + order[n..];
    assert forall i, j :: 0 <= i < n && 0 <= j < |order| - n ==> order[..n][i] != order[n..][j];
  }

  lemma BackToOk(d: Disk, cache: Cache, out: Cache, order: seq<PageNumber>, dbSize: Word, sp: Savepoint)
    requires CacheOk(d, cache) && DirtyOk(cache, order, dbSize) && SavepointOk(sp, order, d.ps) && BackTo(cache, out, order, sp)
    ensures CacheOk(d, out) && DirtyOk(out, order[..sp.nDirty], sp.dbSize)
    ensures forall p: PageNumber :: Shown(d, out, p) == SavedPage(d, sp, p)
    ensures forall p :: p in out && out[p].dirty ==> p in cache && cache[p].dirty
  {
    hide Base, CacheOk, DirtyOk;
    forall p: PageNumber
      ensures p in order <==> p in sp.dirtyPages || p in order[sp.nDirty..]
      ensures p in sp.dirtyPages ==> p !in order[sp.nDirty..]
    {
      DirtySplit(cache, order, dbSize, sp, d.ps, p);
    }
    BackToCache(d, cache, out, order, dbSize, sp);
    forall p: PageNumber
      ensures Shown(d, out, p) == SavedPage(d, sp, p)
      ensures p in out && out[p].dirty ==> p in cache && cache[p].dirty
    {
      BackToPage(d, cache, out, order, dbSize, sp, p);
    }
  }

  lemma BackToPage(d: Disk, cache: Cache, out: Cache, order: seq<PageNumber>, dbSize: Word, sp: Savepoint, p: PageNumber)
    requires CacheOk(d, cache) && DirtyOk(cache, order, dbSize) && sp.nDirty <= |order| && BackTo(cache, out, order, sp)
    requires p in order <==> p in sp.dirtyPages || p in order[sp.nDirty..]
    requires p in sp.dirtyPages ==> p !in order[sp.nDirty..]
    ensures Shown(d, out, p) == SavedPage(d, sp, p)
    ensures p in out && out[p].dirty ==> p in cache && cache[p].dirty
  {
    hide Base;
    assert p in order <==> p in cache && cache[p].dirty;
  }

  lemma BackToCache(d: Disk, cache: Cache, out: Cache, order: seq<PageNumber>, dbSize: Word, sp: Savepoint)
    requires CacheOk(d, cache) && DirtyOk(cache, order, dbSize) && SavepointOk(sp, order, d.ps) && BackTo(cache, out, order, sp)
    requires forall p: PageNumber :: p in order <==> p in sp.dirtyPages || p in order[sp.nDirty..]
    requires forall p: PageNumber :: p in sp.dirtyPages ==> p !in order[sp.nDirty..]
    ensures CacheOk(d, out) && DirtyOk(out, order[..sp.nDirty], sp.dbSize)
  {
    hide Base;
    var rest := order[..sp.nDirty];
    forall p: PageNumber ensures p in rest <==> p in out && out[p].dirty {
      assert p in sp.dirtyPages <==> p in rest;
      assert p in order <==> p in cache && cache[p].dirty;
    }
    forall p | p in rest ensures p <= sp.dbSize {
      assert p in sp.dirtyPages;
    }
  }

  lemma SavepointAt(sps: seq<Savepoint>, order: seq<PageNumber>, dbSize: Word, ps: nat, n: nat)
    requires SavepointsOk(sps, order, dbSize, ps) && n < |sps|
    ensures SavepointOk(sps[n], order, ps)
  {
  }

  lemma SavepointWithin(sp: Savepoint, order: seq<PageNumber>, ps: nat)
    requires SavepointOk(sp, order, ps)
    ensures sp.nDirty <= |order|
  {
  }

  lemma SavepointsBack(sps: seq<Savepoint>, order: seq<PageNumber>, dbSize: Word, ps: nat, n: nat)
    requires SavepointsOk(sps, order, dbSize, ps) && n < |sps|
    ensures SavepointsOk(sps[..n + 1], order[..sps[n].nDirty], sps[n].dbSize, ps)
  {
    var m := sps[n].nDirty;
    forall i | 0 <= i <= n ensures SavepointOk(sps[i], order[..m], ps) {
      assert SavepointOk(sps[i], order, ps);
      assert order[..m][..sps[i].nDirty] == order[..sps[i].nDirty];
    }
  }

  // ---- Checkpoints ----

  lemma {:induction false} CopyFramesOk(w: Wal, file: seq<Page>, ps: nat, n: nat)
    requires WalOk(w, ps) && FileOk(file, ps) && n <= |w.frames|
    ensures FileOk(CopyFrames(w, file, ps, n), ps)
  {
    hide FileOk, FileWrite, HeaderOk, Get32;
    if n > 0 {
      CopyFramesOk(w, file, ps, n - 1);
      assert FrameOk(w, ps, n - 1);
      if w.frames[n - 1].pgno != 0 {
        FileWriteOk(CopyFrames(w, file, ps, n - 1), ps, w.frames[n - 1].pgno, FrameData(w, ps, n - 1));
      }
    }
  }

  lemma CheckpointOk(d: Disk, v: Wal)
    requires DiskOk(d) && d.wal.Some?
    requires var w := d.wal.value; v == w || v == w.(bytes := w.bytes[..HDR], frames := [])
    ensures
      var e := Disk(d.ps, CopyFrames(d.wal.value, d.file, d.ps, LastCommit(d.wal.value.frames)), Some(v));
      DiskOk(e) && forall p: PageNumber :: p >= 1 ==> Base(e, p) == Base(d, p)
  {
    assert |d.wal.value.bytes| >= HDR;
    hide WalOk, FrameOk, Lookup;
    var w := d.wal.value;
    CopyFramesOk(w, d.file, d.ps, LastCommit(w.frames));
    CheckpointView(w, d.file, d.ps, v, 1);
    forall p: PageNumber | p >= 1 {
      CheckpointView(w, d.file, d.ps, v, p);
    }
  }

  /** Outside a transaction: the cache, the savepoints and the size go together over the disk d. */
  ghost predicate AtRest(d: Disk, cache: Cache, dbSize: Word, sps: seq<Savepoint>) {
    && DiskOk(d) && CacheOk(d, cache) && DirtyOk(cache, [], dbSize) && SavepointsOk(sps, [], dbSize, d.ps)
    && forall i :: 0 <= i < |sps| ==> sps[i].dbSize == dbSize
  }

  ghost predicate Current(d: Disk, cache: Cache) {
    forall p :: p in cache ==> cache[p].data == Base(d, p)
  }

  /** A log e comes over the main file d: what was cached stays. */
  lemma LogOver(d: Disk, e: Disk, cache: Cache, dbSize: Word, size: Word, sps: seq<Savepoint>)
    requires AtRest(d, cache, dbSize, sps) && d.wal == None && DiskOk(e) && e.ps == d.ps
    ensures AtRest(e, cache, size, sps) <==> Current(e, cache) && (sps == [] || size == dbSize)
    ensures forall p: PageNumber :: Shown(e, cache, p) == Base(e, p) <==> p !in cache || Base(e, p) == FilePage(d.file, d.ps, p)
  {
    CleanShown(d, cache, dbSize);
    hide FilePage, DiskOk;
    assert forall p :: p in cache ==> p !in [];
    if Current(e, cache) && (sps == [] || size == dbSize) {
      assert CacheOk(e, cache) && DirtyOk(cache, [], size);
      assert SavepointsOk(sps, [], size, e.ps);
    }
    if AtRest(e, cache, size, sps) && sps != [] {
      assert sps[0].dbSize == dbSize;
    }
  }

  /** Outside a transaction nothing is dirty, so the pager shows the disk. */
  lemma CleanShown(d: Disk, cache: Cache, dbSize: Word)
    requires CacheOk(d, cache) && DirtyOk(cache, [], dbSize)
    ensures forall p: PageNumber :: Shown(d, cache, p) == Base(d, p)
    ensures forall p :: p in cache ==> !cache[p].dirty
  {
    hide Base;
    assert forall p :: p in cache && cache[p].dirty ==> p in [];
  }
}
