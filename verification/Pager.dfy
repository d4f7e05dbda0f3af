/** The pager: page cache, dirty list, savepoints and transactions over a journal or a log. */
module Pager {
  import opened Bytes
  import opened Wal
  import opened WalRecovery
  import opened Journal
  import opened PagerModel

  datatype Op =
    | Read(page: PageNumber)
    | Write(page: PageNumber, data: Page)
    | OpenSavepoint
    | RollbackTo(n: nat)
    | Release(n: nat)
    | SetCacheSize(n: nat)

  // ---- What a run of operations does to the database size ----

  /** The database size, and the sizes that the open savepoints recorded. */
  datatype Sizes = Sizes(size: nat, marks: seq<nat>)

  function SizesAfter(op: Op, s: Sizes): Sizes {
    match op
    case Write(p, _) => s.(size := if p > s.size then p else s.size)
    case OpenSavepoint => s.(marks := s.marks + [s.size])
    case RollbackTo(n) => if n < |s.marks| then Sizes(s.marks[n], s.marks[..n + 1]) else s
    case Release(n) => s.(marks := if n < |s.marks| then s.marks[..n] else s.marks)
    case _ => s
  }

  function SizesAfterAll(ops: seq<Op>, s: Sizes): Sizes {
    if ops == [] then s else SizesAfter(ops[|ops| - 1], SizesAfterAll(ops[..|ops| - 1], s))
  }

  /** The pages written and not rolled back to a savepoint since, and how many there were at each open savepoint. */
  datatype Writes = Writes(pages: seq<PageNumber>, marks: seq<nat>)

  function WritesAfter(op: Op, w: Writes): Writes {
    match op
    case Write(p, _) => w.(pages := w.pages + [p])
    case OpenSavepoint => w.(marks := w.marks + [|w.pages|])
    case RollbackTo(n) => if n < |w.marks| && w.marks[n] <= |w.pages| then Writes(w.pages[..w.marks[n]], w.marks[..n + 1]) else w
    case Release(n) => w.(marks := if n < |w.marks| then w.marks[..n] else w.marks)
    case _ => w
  }

  function WritesAfterAll(ops: seq<Op>): Writes {
    if ops == [] then Writes([], []) else WritesAfter(ops[|ops| - 1], WritesAfterAll(ops[..|ops| - 1]))
  }

  /** The largest of `start` and the pages. */
  function Grown(start: nat, pages: seq<PageNumber>): nat {
    if pages == [] then start
    else
      var g := Grown(start, pages[..|pages| - 1]);
      if pages[|pages| - 1] > g then pages[|pages| - 1] else g
  }

  predicate Within(pages: seq<PageNumber>, size: nat) {
    forall i :: 0 <= i < |pages| ==> pages[i] <= size
  }

  lemma {:induction false} GrownPast(start: nat, pages: seq<PageNumber>)
    ensures Grown(start, pages) >= start
    ensures Grown(start, pages) == start <==> Within(pages, start)
  {
    if pages != [] {
      GrownPast(start, pages[..|pages| - 1]);
    }
  }

  /** The size is that of the surviving writes, and each savepoint has the size of those before it. */
  ghost predicate Tracks(w: Writes, s: Sizes, start: nat) {
    && (forall i :: 0 <= i < |w.marks| ==> w.marks[i] <= |w.pages|)
    && (forall i, j :: 0 <= i < j < |w.marks| ==> w.marks[i] <= w.marks[j])
    && s.size == Grown(start, w.pages) && |s.marks| == |w.marks|
    && (forall i :: 0 <= i < |w.marks| ==> s.marks[i] == Grown(start, w.pages[..w.marks[i]]))
  }

  lemma TracksStep(op: Op, w: Writes, s: Sizes, start: nat)
    requires Tracks(w, s, start)
    ensures Tracks(WritesAfter(op, w), SizesAfter(op, s), start)
  {
    hide Grown;
    var v := WritesAfter(op, w);
    assert w.pages[..|w.pages|] == w.pages;
    forall i | 0 <= i < |v.marks| && i < |w.marks| ensures v.pages[..v.marks[i]] == w.pages[..w.marks[i]] {
      assert v.marks[i] == w.marks[i];
      if op.RollbackTo? && op.n < |w.marks| {
        assert i < op.n ==> w.marks[i] <= w.marks[op.n];
      }
    }
    if op.Write? {
      GrownOne(start, w.pages, op.page);
    }
  }

  lemma GrownOne(start: nat, pages: seq<PageNumber>, p: PageNumber)
    ensures Grown(start, pages + [p]) == if p > Grown(start, pages) then p else Grown(start, pages)
  {
    assert (pages + [p])[..|pages|] == pages;
  }

  lemma {:induction false} SurvivorsGrow(ops: seq<Op>, start: nat)
    ensures Tracks(WritesAfterAll(ops), SizesAfterAll(ops, Sizes(start, [])), start)
  {
    if ops != [] {
      SurvivorsGrow(ops[..|ops| - 1], start);
      TracksStep(ops[|ops| - 1], WritesAfterAll(ops[..|ops| - 1]), SizesAfterAll(ops[..|ops| - 1], Sizes(start, [])), start);
    }
  }

  class Pager {
    const ps: Word
    const readOnly: bool
    var file: seq<Page>
    var wal: Option<Wal>
    var journal: Option<Journal>
    var cache: Cache
    var dirtyOrder: seq<PageNumber>
    var state: State
    var dbSize: Word
    var savepoints: seq<Savepoint>
    var cacheSize: nat
    /** The main file when the transaction began, and whether its commit has started. */
    ghost var start: seq<Page>
    ghost var committing: bool

    constructor (ps: Word, file: seq<Page>, dbSize: Word, readOnly: bool)
      requires ps > 0 && FileOk(file, ps)
      ensures Valid() && this.file == file && wal == None && this.dbSize == dbSize && state == Unlocked && cache == map[] && savepoints == []
      ensures this.ps == ps && this.readOnly == readOnly
      ensures forall p: PageNumber :: Shown(D(), cache, p) == FilePage(file, ps, p)
    {
      this.ps, this.readOnly, this.file, this.dbSize := ps, readOnly, file, dbSize;
      wal, journal, cache, dirtyOrder := None, None, map[], [];
      state, savepoints, cacheSize := Unlocked, [], 2000;
      start, committing := [], false;
    }

    function D(): Disk
      reads this
    {
      Disk(ps, file, wal)
    }

    ghost predicate Valid()
      reads this
    {
      && DiskOk(D()) && CacheOk(D(), cache) && DirtyOk(cache, dirtyOrder, dbSize)
      && SavepointsOk(savepoints, dirtyOrder, dbSize, ps)
      && (journal.Some? ==> journal.value.pos <= |journal.value.bytes| && |journal.value.bytes| >= JOURNAL_HDR && wal == None)
      && (!Writing() ==> dirtyOrder == [] && journal == None && forall i :: 0 <= i < |savepoints| ==> savepoints[i].dbSize == dbSize)
    }

    predicate Writing()
      reads this
    {
      state == Writer || state == WriterLocked
    }

    /** The journal can restore the main file that the transaction began with. */
    ghost predicate Recoverable()
      reads this
    {
      && Valid() && Writing()
      && (wal == None ==>
        && journal.Some?
        && JournalOk(journal.value, ps, start)
        && Covered(cache, Records(journal.value, ps))
        && SizesOk(journal.value, dbSize, savepoints)
        && Untouched(Records(journal.value, ps), start, file, journal.value.startSize, ps))
    }

    /** A write transaction that has not begun to commit. */
    ghost predicate InTxn()
      reads this
    {
      Valid() && Begun()
    }

    ghost predicate Begun()
      reads this
    {
      && state == Writer && !committing
      && (wal == None ==>
        && journal.Some? && file == start
        && journal.value.pos == |journal.value.bytes|
        && JournalOk(journal.value, ps, start)
        && Covered(cache, Records(journal.value, ps))
        && SizesOk(journal.value, dbSize, savepoints))
    }

    // ---- Reading ----

    /** Drop one clean page, if there is one. */
    method EvictClean(keep: PageNumber)
      requires CacheOk(D(), cache)
      modifies this`cache
      ensures CacheOk(D(), cache)
      ensures keep in cache <==> keep in old(cache)
      ensures forall q :: q in cache ==> q in old(cache) && cache[q] == old(cache[q])
      ensures forall q :: q in old(cache) && q !in cache ==> !old(cache[q].dirty)
    {
      if p :| p in cache && p != keep && !cache[p].dirty {
        cache := cache - {p};
      }
    }

    method Insert(p: PageNumber, data: Page)
      requires Valid() && p >= 1 && p !in cache && data == Base(D(), p)
      modifies this`cache
      ensures Valid() && p in cache && old(cache.Keys) !! {p}
      ensures Loaded(old(cache), cache)
      ensures forall q: PageNumber :: Shown(D(), cache, q) == old(Shown(D(), cache, q))
    {
      hide Base, SavepointsOk, DiskOk, DirtyOk, CacheOk, Loaded, Shown;
      ghost var before := cache;
      LoadOne(D(), cache, dirtyOrder, dbSize, p);
      cache := cache[p := CachedPage(data, false)];
      ghost var loaded := cache;
      if |cache| > cacheSize {
        EvictClean(p);
      }
      LoadFew(D(), before, loaded, cache, dirtyOrder, dbSize);
    }

    /** A clean copy of a page changes nothing that is shown. */
    static lemma LoadOne(d: Disk, cache: Cache, order: seq<PageNumber>, dbSize: Word, p: PageNumber)
      requires DiskOk(d) && CacheOk(d, cache) && DirtyOk(cache, order, dbSize) && p >= 1 && p !in cache
      ensures
        var loaded := cache[p := CachedPage(Base(d, p), false)];
        && CacheOk(d, loaded) && DirtyOk(loaded, order, dbSize) && Loaded(cache, loaded)
        && forall q: PageNumber :: Shown(d, loaded, q) == Shown(d, cache, q)
    {
      hide Base, DiskOk;
      BaseLength(d, p);
    }

    /** Nor does dropping clean pages. */
    static lemma LoadFew(d: Disk, cache: Cache, loaded: Cache, kept: Cache, order: seq<PageNumber>, dbSize: Word)
      requires CacheOk(d, loaded) && DirtyOk(loaded, order, dbSize) && Loaded(cache, loaded)
      requires forall q :: q in kept ==> q in loaded && kept[q] == loaded[q]
      requires forall q :: q in loaded && q !in kept ==> !loaded[q].dirty
      requires forall q: PageNumber :: Shown(d, loaded, q) == Shown(d, cache, q)
      ensures DirtyOk(kept, order, dbSize) && Loaded(cache, kept)
      ensures forall q: PageNumber :: Shown(d, kept, q) == Shown(d, cache, q)
    {
      hide Base;
    }

    /** Dirty pages stay as they are, and no page becomes dirty. */
    static ghost predicate Loaded(old_: Cache, new_: Cache) {
      && (forall q :: q in old_ && old_[q].dirty ==> q in new_ && new_[q] == old_[q])
      && (forall q :: q in new_ && new_[q].dirty ==> q in old_ && new_[q] == old_[q])
    }

    /** The page is neither cached nor in the log, and the main file does not have it. */
    predicate Missing(p: PageNumber)
      reads this
    {
      && p !in cache && dbSize > 0
      && (wal == None || LatestFrame(wal.value.frames, LastCommit(wal.value.frames), p) == 0)
      && (p > dbSize || p > |file|)
    }

    method EnsureCached(p: PageNumber) returns (r: Outcome)
      requires Valid() && p >= 1
      modifies this`cache
      ensures Valid() && Loaded(old(cache), cache)
      ensures r == if !old(Missing(p)) then Ok else if p > dbSize then Err(PageOutOfRange(p)) else Err(UnexpectedEof)
      ensures r == Ok ==> p in cache
      ensures r != Ok ==> cache == old(cache)
      ensures forall q: PageNumber :: Shown(D(), cache, q) == old(Shown(D(), cache, q))
    {
      hide SavepointsOk, DirtyOk, CacheOk, DiskOk, FrameData;
      if p in cache {
        return Ok;
      }
      if wal.Some? {
        var frameNo := FindLatestFrame(wal.value.frames, p);
        if frameNo > 0 {
          Insert(p, FrameData(wal.value, ps, frameNo - 1));
          return Ok;
        }
      }
      if p > dbSize && dbSize > 0 {
        return Err(PageOutOfRange(p));
      }
      if p > |file| {
        if dbSize > 0 {
          return Err(UnexpectedEof);
        }
        Insert(p, Zeros(ps));
      } else {
        Insert(p, file[p - 1]);
      }
      r := Ok;
    }

    /**
      Outside a write transaction a read returns what replaying the committed frames in order over
      the main file gives, whatever the cache holds and evicts.
     */
    method Acquire(p: PageNumber) returns (r: Outcome, data: Page)
      requires Valid()
      modifies this`cache
      ensures Valid() && Loaded(old(cache), cache)
      ensures r == if p == 0 then Err(PageOutOfRange(0)) else if !old(Missing(p)) then Ok else if p > dbSize then Err(PageOutOfRange(p)) else Err(UnexpectedEof)
      ensures forall q: PageNumber :: Shown(D(), cache, q) == old(Shown(D(), cache, q))
      ensures r == Ok ==> data == Shown(D(), cache, p)
      ensures r == Ok && !Writing() ==>
        data == if wal == None then FilePage(file, ps, p) else FilePage(CopyFrames(wal.value, file, ps, LastCommit(wal.value.frames)), ps, p)
      ensures old(InTxn()) ==> InTxn()
    {
      if p == 0 {
        return Err(PageOutOfRange(0)), [];
      }
      r := EnsureCached(p);
      if r == Ok {
        data := cache[p].data;
        if wal.Some? {
          LookupIsReplay(wal.value, file, ps, LastCommit(wal.value.frames), p);
        }
      } else {
        data := [];
      }
    }

    // ---- Writing ----

    method BeginWrite(nonce: Word) returns (r: Outcome)
      requires Valid()
      modifies this`journal, this`state, this`start, this`committing
      ensures r == if readOnly then Err(ReadOnly) else Ok
      ensures readOnly || old(Writing()) ==> journal == old(journal) && state == old(state)
      ensures r == Ok && !old(Writing()) ==> InTxn() && start == file && (wal == None ==> journal.value.startSize == dbSize)
      ensures r == Ok && !old(Writing()) && wal == None ==>
        Records(journal.value, ps) == [] && JournalFile(journal.value, ps) && Get32(journal.value.bytes[8..]) == 0xFFFF_FFFF
    {
      hide SavepointsOk, DirtyOk, CacheOk, DiskOk, HasMagic, JournalFile, Get32;
      if readOnly {
        return Err(ReadOnly);
      }
      if Writing() {
        return Ok;
      }
      if wal == None {
        journal := Some(Journal(JournalHeader(nonce, dbSize, ps), JOURNAL_HDR, nonce, 0, dbSize));
        StartJournal(nonce, dbSize, ps, file);
        CleanShown(D(), cache, dbSize);
      }
      start, committing := file, false;
      state := Writer;
      r := Ok;
    }

    /** Record the content of a cached page in the journal, if there is one. */
    method JournalPage(p: PageNumber)
      requires p in cache && (journal.Some? ==> journal.value.pos <= |journal.value.bytes|)
      modifies this`journal
      ensures journal == if old(journal).None? then None else Some(WithRecord(old(journal).value, Record(p, cache[p].data)))
    {
      if journal.Some? {
        var j := journal.value;
        var x := Put32(p) + cache[p].data + Put32(JournalChecksum(j.nonce, cache[p].data, |cache[p].data| - 200));
        journal := Some(j.(bytes := WriteAt(j.bytes, j.pos, x), pos := j.pos + |x|, nRecords := (j.nRecords + 1) % 0x1_0000_0000));
      }
    }

    /** The first write to a page: its original content goes to the journal, and the page joins the dirty list. */
    method MarkDirty(p: PageNumber)
      requires Writing() && p >= 1 && p in cache && !cache[p].dirty && |cache[p].data| == ps
      requires DiskOk(D()) && CacheOk(D(), cache - {p}) && DirtyOk(cache, dirtyOrder, dbSize)
      requires SavepointsOk(savepoints, dirtyOrder, dbSize, ps)
      requires journal.Some? ==> journal.value.pos <= |journal.value.bytes| && |journal.value.bytes| >= JOURNAL_HDR && wal == None
      requires Begun() && wal == None && p <= dbSize ==> cache[p].data == FilePage(file, ps, p)
      modifies this`journal, this`cache, this`dirtyOrder, this`dbSize
      ensures Valid() && cache == old(cache)[p := CachedPage(old(cache[p].data), true)]
      ensures dbSize == if p > old(dbSize) then p else old(dbSize)
      ensures dirtyOrder == old(dirtyOrder) + [p]
      ensures wal == None && old(journal) == None ==> journal == None
      ensures old(Begun()) ==> Begun() && (wal == None ==> journal.value.startSize == old(journal).value.startSize)
    {
      hide FilePage, SavepointsOk, DirtyOk, CacheOk, DiskOk, Covered, JournalOk, Records, WithRecord;
      ghost var txn, n0 := Begun(), dbSize;
      ghost var e := CachedPage(cache[p].data, true);
      if wal == None {
        ghost var j := journal;
        if j.Some? {
          RecordGrows(j.value, Record(p, cache[p].data));
        }
        JournalPage(p);
        if txn {
          JournalAppend(j.value, Record(p, cache[p].data), ps, start);
          CoveredGrows(cache, p, e, Records(j.value, ps), Records(journal.value, ps));
        }
      }
      cache := cache[p := cache[p].(dirty := true)];
      dirtyOrder := dirtyOrder + [p];
      if p > dbSize {
        dbSize := p;
      }
      SavepointsGrow(savepoints, old(dirtyOrder), p, n0, dbSize, ps);
      DirtyGrows(old(cache), old(dirtyOrder), p, e, n0, dbSize);
      CacheDirtied(D(), old(cache), p, e);
    }

    /** Obtain a page for writing. */
    method WriteAccess(p: PageNumber) returns (r: Outcome)
      requires Valid()
      modifies this`journal, this`cache, this`dirtyOrder, this`dbSize
      ensures Valid() && (old(InTxn()) ==> InTxn())
      ensures r == if !Writing() then Err(NotInTransaction) else if p == 0 then Err(PageOutOfRange(0)) else if p <= old(dbSize) && old(Missing(p)) then Err(UnexpectedEof) else Ok
      ensures r == Ok ==> p in cache && cache[p].dirty && dbSize == if p > old(dbSize) then p else old(dbSize)
      ensures r != Ok ==> dbSize == old(dbSize)
      ensures forall q: PageNumber :: q != p ==> Shown(D(), cache, q) == old(Shown(D(), cache, q))
      ensures r != Ok || p <= old(dbSize) || p in old(cache) ==> Shown(D(), cache, p) == old(Shown(D(), cache, p))
      ensures r == Ok && p > old(dbSize) && p !in old(cache) ==> Shown(D(), cache, p) == Zeros(ps)
      ensures old(InTxn()) && wal == None ==> journal.value.startSize == old(journal).value.startSize
      ensures wal == None && old(journal) == None ==> journal == None
    {
      hide FilePage, DiskOk, SavepointsOk, JournalOk, CacheOk, DirtyOk, Covered, Records, SizesOk, Base;
      if !Writing() {
        return Err(NotInTransaction);
      }
      if p == 0 {
        return Err(PageOutOfRange(0));
      }
      r := Provide(p);
      if r == Ok && !cache[p].dirty {
        MarkDirty(p);
      }
    }

    /** A buffer for the page: the cached or stored page, or zeros for a page past the end. */
    method Provide(p: PageNumber) returns (r: Outcome)
      requires Valid() && Writing() && p >= 1
      modifies this`cache
      ensures r == if p <= dbSize && old(Missing(p)) then Err(UnexpectedEof) else Ok
      ensures r != Ok ==> cache == old(cache)
      ensures DiskOk(D()) && CacheOk(D(), cache - {p}) && DirtyOk(cache, dirtyOrder, dbSize)
      ensures r == Ok ==> p in cache && |cache[p].data| == ps && (cache[p].dirty ==> Valid() && p <= dbSize)
      ensures r != Ok ==> Valid()
      ensures old(Begun()) ==> Begun()
      ensures wal == None && p <= dbSize && p in cache && !cache[p].dirty ==> cache[p].data == FilePage(file, ps, p)
      ensures forall q: PageNumber :: q != p ==> Shown(D(), cache, q) == old(Shown(D(), cache, q))
      ensures r != Ok || p <= dbSize || p in old(cache) ==> Shown(D(), cache, p) == old(Shown(D(), cache, p))
      ensures r == Ok && p > dbSize && p !in old(cache) ==> Shown(D(), cache, p) == Zeros(ps)
    {
      hide FilePage, DiskOk, SavepointsOk, JournalOk, Journaled;
      if p <= dbSize {
        r := EnsureCached(p);
      } else {
        if p !in cache {
          cache := cache[p := CachedPage(Zeros(ps), false)];
        }
        r := Ok;
      }
    }

    /** Write through the buffer that WriteAccess handed out. */
    method Store(p: PageNumber, data: Page)
      requires Valid() && p in cache && cache[p].dirty && |data| == ps
      modifies this`cache
      ensures Valid() && (old(InTxn()) ==> InTxn())
      ensures cache == old(cache)[p := CachedPage(data, true)]
    {
      cache := cache[p := CachedPage(data, true)];
    }

    // ---- Committing ----

    /** The disk shows every page as the pager does. */
    ghost predicate Synced()
      reads this
    {
      forall p: PageNumber :: p >= 1 ==> Base(D(), p) == Shown(D(), cache, p)
    }

    /** Page 1 gets the new change counter and size, in the cache and in the main file. */
    method UpdateDbHeader() returns (r: Outcome)
      requires Valid() && wal == None && Synced()
      modifies this`cache, this`file
      ensures Valid() && Synced()
      ensures r == if dbSize >= 1 && old(Missing(1)) then Err(UnexpectedEof) else Ok
      ensures forall p: PageNumber :: p != 1 || r != Ok ==> Shown(D(), cache, p) == old(Shown(D(), cache, p))
      ensures r == Ok ==> Shown(D(), cache, 1) == Header(old(Shown(D(), cache, 1)), dbSize)
      ensures r == Ok ==> HeaderWritten(old(Shown(D(), cache, 1)), Shown(D(), cache, 1), dbSize)
      ensures forall p: PageNumber :: p in cache && cache[p].dirty <==> p in old(cache) && old(cache[p].dirty)
    {
      hide DirtyOk, SavepointsOk, FilePage, Patched, HasMagic, HeaderWritten;
      HeaderIsWritten(Shown(D(), cache, 1), dbSize);
      if dbSize < 1 {
        return Ok;
      }
      r := EnsureCached(1);
      if r != Ok {
        return;
      }
      if HasMagic(cache[1].data) {
        var data := Patched(cache[1].data, dbSize);
        DirtySame(cache, 1, data, dirtyOrder, dbSize);
        cache := cache[1 := cache[1].(data := data)];
        FileWriteOk(file, ps, 1, data);
        ghost var d := D();
        file := FileWrite(file, ps, 1, data);
        assert forall p: PageNumber :: p > 1 ==> Base(D(), p) == Base(d, p);
      }
    }

    /** Write every dirty page to the main file, in the order in which they became dirty. */
    method FlushDirty()
      requires DiskOk(D()) && CacheOk(D(), cache) && DirtyOk(cache, dirtyOrder, dbSize) && wal == None
      modifies this`file
      ensures Flushed(old(file), file, cache, dirtyOrder, ps)
      ensures if dirtyOrder == [] then file == old(file) else file != []
    {
      hide Base, FileWrite, FilePage;
      var i := 0;
      while i < |dirtyOrder|
        invariant i <= |dirtyOrder| && Flushed(old(file), file, cache, dirtyOrder[..i], ps)
      {
        var p := dirtyOrder[i];
        assert p in dirtyOrder;
        if p in cache && cache[p].dirty {
          FlushStep(old(file), file, cache, dirtyOrder, i, ps);
          file := FileWrite(file, ps, p, cache[p].data);
        }
        i := i + 1;
      }
      assert dirtyOrder[..i] == dirtyOrder;
    }

    /** Append the dirty pages to the log as one commit. */
    method AppendDirty()
      requires Valid() && wal.Some? && NoTail(D())
      modifies this`wal
      ensures wal.Some? && Valid() && Synced() && NoTail(D())
      ensures forall p: PageNumber :: Shown(D(), cache, p) == old(Shown(D(), cache, p))
    {
      hide Base, WalOk, DirtyOk, SavepointsOk, Listed, AppendFrom, FrameOffset, FileOk;
      var pages := DirtyPages();
      LogCommit(D(), cache, dirtyOrder, dbSize, pages);
      var v := AppendFrames(wal.value, ps, pages, dbSize);
      wal := Some(v);
    }

    /** The dirty pages, in the order in which they became dirty. */
    method DirtyPages() returns (pages: seq<DirtyPage>)
      requires DirtyOk(cache, dirtyOrder, dbSize)
      ensures Listed(pages, dirtyOrder, cache)
    {
      pages := [];
      var i := 0;
      while i < |dirtyOrder|
        invariant i <= |dirtyOrder| && Listed(pages, dirtyOrder[..i], cache)
      {
        var p := dirtyOrder[i];
        assert p in dirtyOrder;
        if p in cache && cache[p].dirty {
          pages := pages + [DirtyPage(p, cache[p].data)];
        }
        i := i + 1;
      }
      assert dirtyOrder[..i] == dirtyOrder;
    }

    /** First phase: make the transaction durable. */
    method CommitPhaseOne() returns (r: Outcome)
      requires Valid() && (Writing() ==> Recoverable()) && NoTail(D())
      modifies this`journal, this`cache, this`file, this`wal, this`state, this`committing
      ensures !old(Writing()) ==> r == Err(NotInTransaction) && state == old(state)
      ensures old(Writing()) ==> r == if wal == None && dbSize >= 1 && old(Missing(1) && dirtyOrder == []) then Err(UnexpectedEof) else Ok
      ensures old(Writing()) ==> Recoverable()
      ensures wal.Some? == old(wal).Some?
      ensures r == Ok ==> state == WriterLocked && Synced()
      ensures r == Ok ==> forall p: PageNumber :: p != 1 || wal.Some? ==> Shown(D(), cache, p) == old(Shown(D(), cache, p))
      ensures r == Ok && wal == None ==> Shown(D(), cache, 1) == Header(old(Shown(D(), cache, 1)), dbSize)
      ensures r == Ok && wal == None ==> HeaderWritten(old(Shown(D(), cache, 1)), Shown(D(), cache, 1), dbSize)
      ensures journal.Some? == old(journal).Some?
      ensures journal.Some? ==> Records(journal.value, ps) == Records(old(journal).value, ps) && journal.value.startSize == old(journal).value.startSize
      ensures r == Ok && wal == None ==> JournalFile(journal.value, ps) && CountStored(journal.value, ps)
    {
      hide FilePage, HasMagic, SavepointsOk, DiskOk, CacheOk, DirtyOk, Untouched, Patched, JournalOk, Covered, SizesOk, Base, Records, HeaderWritten;
      HeaderIsWritten(Shown(D(), cache, 1), dbSize);
      if !Writing() {
        return Err(NotInTransaction);
      }
      if wal.Some? {
        AppendDirty();
        r := Ok;
      } else {
        r := CommitToFile();
        if r != Ok {
          return;
        }
      }
      state := WriterLocked;
    }

    method CommitToFile() returns (r: Outcome)
      requires Recoverable() && wal == None
      modifies this`journal, this`cache, this`file, this`committing
      ensures Recoverable()
      ensures r == if dbSize >= 1 && old(Missing(1)) && dirtyOrder == [] then Err(UnexpectedEof) else Ok
      ensures Synced()
      ensures forall p: PageNumber :: p != 1 || r != Ok ==> Shown(D(), cache, p) == old(Shown(D(), cache, p))
      ensures r == Ok ==> Shown(D(), cache, 1) == Header(old(Shown(D(), cache, 1)), dbSize)
      ensures journal.Some?
      ensures Records(journal.value, ps) == Records(old(journal).value, ps) && journal.value.startSize == old(journal).value.startSize
      ensures JournalFile(journal.value, ps) && CountStored(journal.value, ps)
    {
      hide FilePage, HasMagic, SavepointsOk, Patched, Flushed, Untouched, JournalFile, CountStored;
      committing := true;
      SealKeeps(journal.value, ps);
      journal := Some(Sealed(journal.value));
      ghost var d := D();
      FlushDirty();
      FlushedShown(d, file, cache, dirtyOrder, dbSize);
      ghost var recs := Records(journal.value, ps);
      FlushedUntouched(d, file, cache, dirtyOrder, dbSize, recs, start, journal.value.startSize);
      ghost var flushed := file;
      r := UpdateDbHeader();
      assert forall p: PageNumber :: p >= 1 ==> FilePage(file, ps, p) == Shown(D(), cache, p);
      HeaderUntouched(recs, start, flushed, file, journal.value.startSize, ps, if r == Ok then dbSize else 0);
    }

    /** Second phase: forget the journal. */
    method CommitPhaseTwo()
      requires Valid()
      modifies this`journal, this`cache, this`dirtyOrder, this`savepoints, this`state
      ensures state == Reader && journal == None && dirtyOrder == [] && savepoints == []
      ensures forall p: PageNumber :: Shown(D(), cache, p) == old(Shown(D(), cache, p))
      ensures old(Synced()) ==> Valid()
    {
      hide Base;
      journal := if wal == None then None else journal;
      cache := map p | p in cache :: cache[p].(dirty := false);
      dirtyOrder, savepoints := [], [];
      state := Reader;
    }

    // ---- Rolling back ----

    /** Write the journal's records back to the main file and into the cache. */
    method ApplyRollback() returns (r: Outcome)
      requires Valid() && Writing() && wal == None
      modifies this`file, this`cache, this`dbSize, this`journal, this`dirtyOrder, this`savepoints, this`state
      ensures old(journal) == None ==> r == Ok && dbSize == 0 && cache == old(cache) && file == old(file)
      ensures r == Ok ==> state == Reader && journal == None && dirtyOrder == [] && savepoints == []
      ensures r == Ok && old(journal).Some? ==> dbSize == old(journal).value.startSize
      ensures old(Recoverable()) ==> r == Ok && Valid() && Synced() && dbSize == old(journal).value.startSize
      ensures old(Recoverable()) ==> RolledBack(old(D()), D(), cache, old(Records(journal.value, ps)), start, dbSize)
    {
      hide FilePage, HasMagic, RolledBack, Untouched, Replayed, JournalFile;
      if journal.Some? {
        var read := ReadJournalRecords(journal.value.bytes[JOURNAL_HDR..], ps);
        if read == None {
          return Err(UnexpectedEof);
        }
        ghost var d, before, txn := D(), cache, Recoverable();
        WriteBack(read.value);
        if txn {
          RollbackOk(d, before, cache, read.value, start, journal.value.startSize);
        }
      }
      dbSize := if journal == None then 0 else journal.value.startSize;
      journal, dirtyOrder, savepoints := None, [], [];
      state := Reader;
      r := Ok;
    }

    method WriteBack(records: seq<Record>)
      requires CacheOk(D(), cache)
      modifies this`file, this`cache
      ensures file == Replayed(records, old(file), ps)
      ensures (forall i :: 0 <= i < |records| ==> records[i].pgno >= 1) ==> Restored(old(cache), cache, records, file, ps)
    {
      hide FilePage, FileWrite;
      ghost var positive := forall i :: 0 <= i < |records| ==> records[i].pgno >= 1;
      var i := 0;
      while i < |records|
        invariant i <= |records| && file == Replayed(records[..i], old(file), ps)
        invariant positive ==> Restored(old(cache), cache, records[..i], file, ps)
      {
        var r := records[i];
        assert records[..i + 1][..i] == records[..i];
        if positive {
          RestoreStep(old(cache), cache, records, i, file, ps);
        }
        if r.pgno != 0 {
          file := FileWrite(file, ps, r.pgno, r.data);
        }
        if r.pgno in cache {
          cache := cache[r.pgno := CachedPage(r.data, false)];
        }
        i := i + 1;
      }
      assert records[..i] == records;
    }

    /**
      Undo a write transaction. With a journal, every page up to the starting size and the size are
      restored; with a log, the dirty pages are dropped and the size stays.
     */
    method Rollback() returns (r: Outcome)
      requires Valid()
      modifies this`file, this`cache, this`dbSize, this`journal, this`dirtyOrder, this`savepoints, this`state
      ensures !old(Writing()) ==> r == Err(NotInTransaction) && state == old(state)
      ensures r == Ok ==> state == Reader && journal == None && dirtyOrder == [] && savepoints == []
      ensures wal.Some? && old(Writing()) ==> r == Ok && Valid() && dbSize == old(dbSize)
      ensures wal.Some? && old(Writing()) ==> forall p: PageNumber :: Shown(D(), cache, p) == old(Base(D(), p))
      ensures wal == None && old(Writing()) && old(journal) == None ==> r == Ok && dbSize == 0 && cache == old(cache) && file == old(file)
      ensures wal == None && r == Ok && old(journal).Some? ==> dbSize == old(journal).value.startSize
      ensures wal == None && old(Recoverable()) ==> r == Ok && Valid() && Synced() && dbSize == old(journal).value.startSize
      ensures wal == None && old(Recoverable()) ==> RolledBack(old(D()), D(), cache, old(Records(journal.value, ps)), start, dbSize)
    {
      if !Writing() {
        return Err(NotInTransaction);
      }
      if wal.Some? {
        DropPages(dirtyOrder);
        dirtyOrder, savepoints := [], [];
        state := Reader;
        r := Ok;
      } else {
        r := ApplyRollback();
      }
    }

    /** Drop the listed pages from the cache. */
    method DropPages(pages: seq<PageNumber>)
      modifies this`cache
      ensures forall p :: p in cache <==> p in old(cache) && p !in pages
      ensures forall p :: p in cache ==> cache[p] == old(cache[p])
    {
      var i := 0;
      while i < |pages|
        invariant i <= |pages|
        invariant forall p :: p in cache <==> p in old(cache) && p !in pages[..i]
        invariant forall p :: p in cache ==> cache[p] == old(cache[p])
      {
        cache := cache - {pages[i]};
        i := i + 1;
      }
      assert pages[..i] == pages;
    }

    // ---- Savepoints ----

    method OpenSavepoint()
      requires Valid()
      modifies this`savepoints
      ensures Valid() && (old(InTxn()) ==> InTxn())
      ensures |savepoints| == |old(savepoints)| + 1 && savepoints[..|old(savepoints)|] == old(savepoints)
      ensures forall p: PageNumber :: SavedPage(D(), savepoints[|old(savepoints)|], p) == Shown(D(), cache, p)
      ensures savepoints[|old(savepoints)|].dbSize == dbSize
    {
      var snapshot: map<PageNumber, Page> := map[];
      var i := 0;
      while i < |dirtyOrder|
        invariant i <= |dirtyOrder|
        invariant forall p :: p in snapshot <==> p in dirtyOrder[..i]
        invariant forall p :: p in snapshot ==> p in cache && snapshot[p] == cache[p].data
      {
        assert dirtyOrder[i] in dirtyOrder;
        if dirtyOrder[i] in cache {
          snapshot := snapshot[dirtyOrder[i] := cache[dirtyOrder[i]].data];
        }
        i := i + 1;
      }
      assert dirtyOrder[..i] == dirtyOrder;
      savepoints := savepoints + [Savepoint(snapshot, |dirtyOrder|, dbSize)];
    }

    /** Drop the pages added since the savepoint; put the others back as they were saved. */
    method RestoreCache(sp: Savepoint)
      requires sp.nDirty <= |dirtyOrder|
      modifies this`cache
      ensures BackTo(old(cache), cache, dirtyOrder, sp)
    {
      DropPages(dirtyOrder[sp.nDirty..]);
      cache := map p | p in cache :: if p in sp.dirtyPages then CachedPage(sp.dirtyPages[p], true) else cache[p];
    }

    /** Back to savepoint n, which stays open; the enclosing transaction goes on. */
    method SavepointRollback(n: nat) returns (r: Outcome)
      requires Valid()
      modifies this`cache, this`dirtyOrder, this`dbSize, this`savepoints, this`state
      ensures r == if n < |old(savepoints)| then Ok else Err(PageOutOfRange(n))
      ensures Valid() && (old(InTxn()) ==> InTxn())
      ensures r != Ok ==> savepoints == old(savepoints) && cache == old(cache) && dbSize == old(dbSize) && state == old(state)
      ensures r == Ok ==> savepoints == old(savepoints)[..n + 1] && state == Writer && dbSize == savepoints[n].dbSize
      ensures r == Ok ==> forall p: PageNumber :: Shown(D(), cache, p) == SavedPage(D(), savepoints[n], p)
    {
      if n >= |savepoints| {
        return Err(PageOutOfRange(n));
      }
      hide Base, CacheOk, DirtyOk, DiskOk, JournalOk, Journaled, SavepointsOk, SavepointOk, FileOk, BackTo;
      var sp := savepoints[n];
      SavepointAt(savepoints, dirtyOrder, dbSize, ps, n);
      assert sp.nDirty <= |dirtyOrder| by {
        SavepointWithin(sp, dirtyOrder, ps);
      }
      ghost var order := dirtyOrder;
      RestoreCache(sp);
      dirtyOrder := dirtyOrder[..sp.nDirty];
      BackToOk(D(), old(cache), cache, order, dbSize, sp);
      SavepointsBack(savepoints, order, dbSize, ps, n);
      dbSize := sp.dbSize;
      savepoints := savepoints[..n + 1];
      state := Writer;
      r := Ok;
    }

    method SavepointRelease(n: nat)
      requires Valid()
      modifies this`savepoints
      ensures Valid() && (old(InTxn()) ==> InTxn())
      ensures savepoints == if n < |old(savepoints)| then old(savepoints)[..n] else old(savepoints)
    {
      if n < |savepoints| {
        savepoints := savepoints[..n];
      }
    }

    // ---- The log ----

    /** Copy the committed frames into the main file and forget the cache. */
    method Checkpoint(mode: CheckpointMode) returns (inWal: nat, copied: nat)
      requires Valid()
      modifies this`file, this`wal, this`cache
      ensures wal.Some? == old(wal).Some?
      ensures wal == None ==> inWal == copied == 0 && cache == old(cache) && file == old(file)
      ensures DiskOk(D()) && forall p: PageNumber :: p >= 1 ==> Base(D(), p) == old(Base(D(), p))
      ensures wal.Some? ==> forall p: PageNumber :: p >= 1 ==> Shown(D(), cache, p) == old(Base(D(), p))
      ensures old(dirtyOrder) == [] ==> Valid() && forall p: PageNumber :: p >= 1 ==> Shown(D(), cache, p) == old(Shown(D(), cache, p))
    {
      hide Base, WalOk, FileOk, SavepointOk, JournalOk;
      if wal == None {
        return 0, 0;
      }
      assert |wal.value.bytes| >= HDR by {
        LogHeader(wal.value, ps);
      }
      var v, out;
      v, out, inWal, copied := WalRecovery.Checkpoint(wal.value, file, ps, mode);
      CheckpointOk(D(), v);
      if dirtyOrder == [] {
        CleanShown(D(), cache, dbSize);
      }
      file, wal, cache := out, Some(v), map[];
    }

    lemma Resting()
      requires DiskOk(D())
      ensures !Writing() && dirtyOrder == [] && journal == None ==> (Valid() <==> AtRest(D(), cache, dbSize, savepoints))
      ensures Valid() && !Writing() ==> dirtyOrder == [] && journal == None
    {
      hide CacheOk, DirtyOk, SavepointsOk;
    }

    static lemma LogHeader(w: Wal, ps: nat)
      requires WalOk(w, ps)
      ensures |w.bytes| >= HDR
    {
    }

    /**
      Switch to a log file with the given bytes; r1 and r2 are fresh salts for a new one. The cache is
      not cleared: a page cached before shadows the log exactly when the log has other content for it.
     */
    method EnableWal(bytes: seq<Byte>, r1: Word, r2: Word) returns (r: Outcome)
      requires Valid() && ps > 0
      requires IsWalHeader(bytes) ==> EffectivePageSize(bytes, ps) == ps
      modifies this`wal, this`dbSize
      ensures r == if readOnly then Err(ReadOnly) else Ok
      ensures r != Ok || old(wal).Some? ==> wal == old(wal) && dbSize == old(dbSize)
      ensures r == Ok && old(wal) == None ==> wal.Some?
      ensures r == Ok && old(wal) == None && IsWalHeader(bytes) ==> Recovered(bytes, ps, wal.value)
      ensures r == Ok && old(wal) == None && !IsWalHeader(bytes) ==>
        wal == Some(NewWal(ps, r1, r2).(bytes := WriteAt(bytes, 0, NewWal(ps, r1, r2).bytes)))
      ensures r == Ok && old(wal) == None && |bytes| < HDR ==> wal == Some(NewWal(ps, r1, r2))
      ensures r == Ok && old(wal) == None ==> dbSize == if LastDbSize(wal.value.frames) > 0 then LastDbSize(wal.value.frames) else old(dbSize)
      ensures r == Ok ==> DiskOk(D())
      ensures r == Ok && old(wal) == None && !Writing() ==>
        (Valid() <==> Current(D(), cache) && (savepoints == [] || dbSize == old(dbSize)))
      ensures r == Ok && old(wal) == None && !Writing() ==> forall p: PageNumber ::
        Shown(D(), cache, p) == Base(D(), p) <==> p !in cache || Base(D(), p) == FilePage(file, ps, p)
    {
      hide AtRest, Current, Recovered, IsWalHeader, NewWal, EffectivePageSize, WalOk, FileOk, Base, Shown, FilePage;
      ghost var d, size := D(), dbSize;
      Resting();
      if readOnly {
        return Err(ReadOnly);
      }
      if wal.Some? {
        return Ok;
      }
      var w, _ := Open(bytes, ps, r1, r2);
      if |bytes| < HDR {
        NoHeader(bytes);
      }
      if IsWalHeader(bytes) {
        RecoveredOk(bytes, ps, w);
      } else {
        OverwrittenOk(bytes, ps, r1, r2);
      }
      if LastCommit(w.frames) > 0 {
        dbSize := w.frames[LastCommit(w.frames) - 1].dbSize;
      }
      wal := Some(w);
      if !Writing() {
        LogOver(d, D(), cache, size, dbSize, savepoints);
        Resting();
      }
      r := Ok;
    }

    // ---- Runs ----

    /** The operation leaves the first m savepoints open, and writes whole pages. */
    predicate Keeps(op: Op, m: nat) {
      match op
      case Write(_, data) => |data| == ps
      case RollbackTo(n) => n + 1 >= m
      case Release(n) => n >= m
      case _ => true
    }

    function CurrentSizes(): Sizes
      reads this
    {
      Sizes(dbSize, seq(|savepoints|, i requires 0 <= i < |savepoints| reads this => savepoints[i].dbSize))
    }

    /** Any mix of reads, writes, evictions and savepoint operations. */
    method Run(ops: seq<Op>, ghost m: nat)
      requires InTxn() && m <= |savepoints| && forall i :: 0 <= i < |ops| ==> Keeps(ops[i], m)
      modifies this`journal, this`cache, this`dirtyOrder, this`dbSize, this`savepoints, this`state, this`cacheSize
      ensures InTxn() && m <= |savepoints| && savepoints[..m] == old(savepoints[..m])
      ensures wal == None ==> journal.value.startSize == old(journal.value.startSize)
      ensures CurrentSizes() == SizesAfterAll(ops, old(CurrentSizes()))
    {
      hide CurrentSizes, Valid, SizesAfter;
      var i := 0;
      assert ops[..0] == [];
      while i < |ops|
        invariant i <= |ops| && CurrentSizes() == SizesAfterAll(ops[..i], old(CurrentSizes()))
        invariant InTxn() && m <= |savepoints| && savepoints[..m] == old(savepoints[..m])
        invariant wal == None ==> journal.value.startSize == old(journal.value.startSize)
      {
        Step(ops[i], m);
        assert ops[..i + 1][..i] == ops[..i];
        i := i + 1;
      }
      assert ops[..i] == ops;
    }

    method Step(op: Op, ghost m: nat)
      requires InTxn() && m <= |savepoints| && Keeps(op, m)
      modifies this`journal, this`cache, this`dirtyOrder, this`dbSize, this`savepoints, this`state, this`cacheSize
      ensures InTxn() && m <= |savepoints| && savepoints[..m] == old(savepoints[..m])
      ensures wal == None ==> journal.value.startSize == old(journal.value.startSize)
      ensures CurrentSizes() == SizesAfter(op, old(CurrentSizes()))
    {
      hide DiskOk, CacheOk, DirtyOk, SavepointsOk, Covered, JournalOk, SizesOk, Shown, Base, SavedPage, Records;
      match op {
        case Read(p) =>
          var _, _ := Acquire(p);
        case Write(p, data) =>
          var r := WriteAccess(p);
          if r == Ok {
            Store(p, data);
          }
        case OpenSavepoint =>
          OpenSavepoint();
          assert savepoints[..m] == savepoints[..|old(savepoints)|][..m];
        case RollbackTo(n) =>
          var _ := SavepointRollback(n);
        case Release(n) =>
          SavepointRelease(n);
        case SetCacheSize(n) =>
          cacheSize := n;
      }
    }

    /** Atomicity: whatever a transaction did before its commit, rolling it back restores every page and the size. */
    method Transaction(ops: seq<Op>, nonce: Word)
      requires Valid() && !Writing() && !readOnly
      requires forall i :: 0 <= i < |ops| ==> Keeps(ops[i], 0)
      modifies this
      ensures Valid() && state == Reader
      ensures wal == old(wal)
      ensures wal == None ==> dbSize == old(dbSize)
      ensures wal == None ==> forall p: PageNumber :: 1 <= p <= dbSize ==> Shown(D(), cache, p) == old(Shown(D(), cache, p))
      ensures wal.Some? ==> forall p: PageNumber :: Shown(D(), cache, p) == old(Shown(D(), cache, p))
      ensures wal.Some? ==> dbSize == SizesAfterAll(ops, old(CurrentSizes())).size
      ensures wal.Some? && old(savepoints) == [] ==>
        (dbSize == old(dbSize) <==> Within(WritesAfterAll(ops).pages, old(dbSize)))
    {
      hide DiskOk, CacheOk, DirtyOk, SavepointsOk, Covered, JournalOk, SizesOk, FilePage, Records, HasMagic, SizesAfterAll, WritesAfterAll, Grown, Within;
      SurvivorsGrow(ops, dbSize);
      assert SizesAfterAll(ops, Sizes(dbSize, [])).size == Grown(dbSize, WritesAfterAll(ops).pages);
      GrownPast(dbSize, WritesAfterAll(ops).pages);
      CleanShown(D(), cache, dbSize);
      ghost var d := D();
      ghost var sizes := CurrentSizes();
      var _ := BeginWrite(nonce);
      assert CurrentSizes().marks == sizes.marks;
      assert old(savepoints) == [] ==> sizes == Sizes(old(dbSize), []);
      Run(ops, 0);
      assert Recoverable() by {
        Unchanged();
      }
      var _ := Rollback();
    }

    /** Before the commit starts the main file is untouched. */
    lemma Unchanged()
      requires InTxn()
      ensures Recoverable()
    {
      hide FilePage, HasMagic;
    }

    /** Whatever happens after a savepoint is opened, rolling back to it restores every page and the size. */
    method SavepointRun(ops: seq<Op>)
      requires InTxn()
      requires forall i :: 0 <= i < |ops| ==> Keeps(ops[i], |savepoints| + 1)
      modifies this`journal, this`cache, this`dirtyOrder, this`dbSize, this`savepoints, this`state, this`cacheSize
      ensures InTxn() && dbSize == old(dbSize)
      ensures |savepoints| == |old(savepoints)| + 1 && savepoints[..|old(savepoints)|] == old(savepoints)
      ensures forall p: PageNumber :: Shown(D(), cache, p) == old(Shown(D(), cache, p))
      ensures forall i, p: PageNumber :: 0 <= i < |old(savepoints)| ==> SavedPage(D(), savepoints[i], p) == old(SavedPage(D(), savepoints[i], p))
    {
      hide DiskOk, CacheOk, DirtyOk, SavepointsOk, Covered, JournalOk, SizesOk, Shown, Base, SavedPage, Records;
      var n := |savepoints|;
      OpenSavepoint();
      ghost var all := savepoints;
      Run(ops, n + 1);
      var _ := SavepointRollback(n);
      assert savepoints == all;
    }

    /** Both commit phases: the new view is on disk, and only the header of page 1 differs from what was shown. */
    method Commit() returns (r: Outcome)
      requires InTxn() && NoTail(D())
      modifies this
      ensures r == if wal == None && dbSize >= 1 && old(Missing(1) && dirtyOrder == []) then Err(UnexpectedEof) else Ok
      ensures r == Ok ==> Valid() && state == Reader && dbSize == old(dbSize)
      ensures r == Ok ==> forall p: PageNumber :: p != 1 || wal.Some? ==> Shown(D(), cache, p) == old(Shown(D(), cache, p))
      ensures r == Ok && wal == None ==> Shown(D(), cache, 1) == Header(old(Shown(D(), cache, 1)), dbSize)
      ensures r == Ok && wal == None ==> HeaderWritten(old(Shown(D(), cache, 1)), FilePage(file, ps, 1), dbSize)
      ensures r == Ok ==> forall p: PageNumber :: p >= 1 ==> Base(D(), p) == Shown(D(), cache, p)
    {
      hide DiskOk, CacheOk, DirtyOk, SavepointsOk, Covered, JournalOk, SizesOk, Shown, Base, Records, HasMagic, Patched, HeaderWritten;
      HeaderIsWritten(Shown(D(), cache, 1), dbSize);
      Unchanged();
      r := CommitPhaseOne();
      if r == Ok {
        CommitPhaseTwo();
        if wal == None {
          assert Base(D(), 1) == Shown(D(), cache, 1);
          BaseIsFile(D(), 1);
        }
      }
    }

    /**
      A rollback after the first commit phase restores page 1 exactly when the page was journaled or
      carries no database header, and every other page always.
     */
    method RollbackAfterPhaseOne() returns (r: Outcome)
      requires InTxn() && wal == None && journal.value.startSize >= 1
      modifies this
      ensures r == if old(dbSize >= 1 && Missing(1) && dirtyOrder == []) then Err(UnexpectedEof) else Ok
      ensures r == Ok ==> Valid() && dbSize == old(journal.value.startSize)
      ensures r == Ok ==> forall p: PageNumber :: 2 <= p <= dbSize ==> Shown(D(), cache, p) == old(FilePage(file, ps, p))
      ensures r == Ok ==> (Shown(D(), cache, 1) == old(FilePage(file, ps, 1)) <==> old(Spared(Records(journal.value, ps), start, ps, 1)))
    {
      hide DiskOk, CacheOk, DirtyOk, SavepointsOk, JournalOk, FilePage, Records, HasMagic, Patched, Untouched;
      Unchanged();
      ghost var page := FilePage(start, ps, 1);
      ghost var recs, size := Records(journal.value, ps), journal.value.startSize;
      FirstPage();
      r := CommitPhaseOne();
      if r == Ok {
        assert Base(D(), 1) == Shown(D(), cache, 1);
        if !Spared(recs, start, ps, 1) {
          PatchChanges(page, dbSize);
        }
        var _ := Rollback();
      }
    }

    /** A page without a record is still shown as it was at the start. */
    lemma FirstPage()
      requires InTxn() && wal == None
      ensures 1 !in Journaled(Records(journal.value, ps)) ==> Shown(D(), cache, 1) == FilePage(start, ps, 1)
    {
      hide FilePage;
    }

    /** In WAL mode a rollback keeps the size that the transaction grew to. */
    method WalRollbackKeepsSize(p: PageNumber)
      requires Valid() && wal.Some? && !Writing() && !readOnly && p > dbSize
      modifies this
      ensures Valid() && state == Reader && dbSize == p
      ensures forall q: PageNumber :: Shown(D(), cache, q) == old(Shown(D(), cache, q))
    {
      hide DiskOk, CacheOk, DirtyOk, SavepointsOk, Base;
      CleanShown(D(), cache, dbSize);
      var _ := BeginWrite(0);
      var _ := WriteAccess(p);
      var _ := Rollback();
    }

    /** The size that a rollback ought to come back to: that of the open transaction, else that of the savepoint. */
    function RecordedSize(n: nat): Word
      requires n < |savepoints|
      reads this
    {
      if journal.Some? then journal.value.startSize else savepoints[n].dbSize
    }

    /**
      Back to savepoint n, then a rollback: the recorded size survives exactly when a transaction was
      open.  Outside a transaction the first step leaves a writer without a journal, and the second
      one sets the size to 0.
     */
    method RollbackFromSavepoint(n: nat) returns (r: Outcome)
      requires Valid() && wal == None && n < |savepoints|
      modifies this
      ensures old(journal) == None || old(InTxn()) ==> r == Ok
      ensures r == Ok ==> state == Reader && dbSize == if old(journal).Some? then old(RecordedSize(n)) else 0
      ensures r == Ok ==> (dbSize == old(RecordedSize(n)) <==> old(journal).Some? || old(RecordedSize(n)) == 0)
    {
      hide DiskOk, CacheOk, DirtyOk, SavepointsOk, Covered, JournalOk, SizesOk, FilePage, Records, HasMagic, Base, Shown, SavedPage;
      ghost var txn := InTxn();
      var _ := SavepointRollback(n);
      if txn {
        Unchanged();
      }
      r := Rollback();
    }

    /**
      A crash at any point of the flush of a commit: the sealed journal restores every page, up to the
      starting size, from what has been written so far.
     */
    lemma CrashInCommit(out: seq<Page>, k: nat)
      requires InTxn() && wal == None && k <= |dirtyOrder| && Flushed(file, out, cache, dirtyOrder[..k], ps)
      ensures
        var j := Sealed(journal.value);
        forall p: PageNumber :: 1 <= p <= j.startSize && Spared(Records(j, ps), start, ps, p) ==>
          FilePage(Replayed(Records(j, ps), out, ps), ps, p) == FilePage(start, ps, p)
    {
      hide FilePage, HasMagic, DiskOk, CacheOk, ParseRecords;
      var recs, size := Records(journal.value, ps), journal.value.startSize;
      SealKeeps(journal.value, ps);
      assert JournalOk(Sealed(journal.value), ps, start);
      forall p: PageNumber | 1 <= p <= size && p !in Journaled(recs) && Spared(recs, start, ps, p)
        ensures FilePage(out, ps, p) == FilePage(start, ps, p)
      {
        assert p in dirtyOrder[..k] ==> p in dirtyOrder;
      }
      CrashRestores(Sealed(journal.value), ps, start, out);
    }
  }

  /** A new pager on a file of 5 pages, a savepoint, a rollback to it and a rollback: the size is 0. */
  method SavepointRollbackOutsideTransaction(file: seq<Page>) returns (pager: Pager)
    requires |file| == 5 && FileOk(file, 512)
    ensures fresh(pager) && pager.dbSize == 0
  {
    pager := new Pager(512, file, 5, false);
    pager.OpenSavepoint();
    var _ := pager.RollbackFromSavepoint(0);
  }

  /** A transaction that writes nothing, its first commit phase, and a rollback: the header page has changed. */
  method HeaderNotRolledBack(file: seq<Page>) returns (pager: Pager)
    requires |file| == 2 && FileOk(file, 512) && HasMagic(file[0])
    ensures fresh(pager) && Shown(pager.D(), pager.cache, 1) != file[0]
  {
    hide HasMagic;
    pager := new Pager(512, file, 2, false);
    var _ := pager.BeginWrite(0);
    var _ := pager.RollbackAfterPhaseOne();
  }

  lemma BaseIsFile(d: Disk, p: PageNumber)
    requires d.wal == None
    ensures Base(d, p) == FilePage(d.file, d.ps, p)
  {
  }

  /** Reopening a database whose log was cut at any byte shows the last commit that lies wholly in the file. */
  method ReopenAfterCrash(ps: Word, file: seq<Page>, dbSize: Word, bytes: seq<Byte>, r1: Word, r2: Word, ghost w0: Wal, ghost commits: seq<Commit>)
    returns (pager: Pager, ghost j: nat)
    requires ps > 0 && FileOk(file, ps)
    requires WalOk(w0, ps) && Exact(w0, ps) && w0.frames == [] && CommitsOk(commits)
    requires |bytes| <= |After(w0, ps, commits, |commits|).bytes| && bytes == After(w0, ps, commits, |commits|).bytes[..|bytes|]
    ensures j <= |commits| && (j > 0 ==> |After(w0, ps, commits, j).bytes| <= |bytes|)
    ensures forall i :: j < i <= |commits| ==> |After(w0, ps, commits, i).bytes| > |bytes|
    ensures
      var v := After(w0, ps, commits, j);
      && fresh(pager) && pager.Valid() && !pager.Writing() && pager.ps == ps && pager.file == file
      && pager.dbSize == (if LastDbSize(v.frames) > 0 then LastDbSize(v.frames) else dbSize)
      && forall p: PageNumber :: Shown(pager.D(), pager.cache, p) == Lookup(v, file, ps, p)
  {
    hide After, WalOk, FileOk, Lookup, Get32, AppendFrom, Recovered, IsWalHeader, EffectivePageSize, LastDbSize, NewWal, Exact;
    pager := new Pager(ps, file, dbSize, false);
    if |bytes| >= HDR {
      PrefixIsLog(w0, ps, commits, bytes);
    } else {
      NoHeader(bytes);
    }
    var _ := pager.EnableWal(bytes, r1, r2);
    j := CutRecovery(w0, ps, commits, bytes, r1, r2, pager.wal.value, file);
  }

  /** A read after such a reopening returns what the last whole commit left. */
  method ReadAfterCrash(ps: Word, file: seq<Page>, dbSize: Word, bytes: seq<Byte>, r1: Word, r2: Word, p: PageNumber,
                        ghost w0: Wal, ghost commits: seq<Commit>)
    returns (r: Outcome, data: Page, ghost j: nat)
    requires ps > 0 && FileOk(file, ps)
    requires WalOk(w0, ps) && Exact(w0, ps) && w0.frames == [] && CommitsOk(commits)
    requires |bytes| <= |After(w0, ps, commits, |commits|).bytes| && bytes == After(w0, ps, commits, |commits|).bytes[..|bytes|]
    ensures j <= |commits| && (j > 0 ==> |After(w0, ps, commits, j).bytes| <= |bytes|)
    ensures forall i :: j < i <= |commits| ==> |After(w0, ps, commits, i).bytes| > |bytes|
    ensures r == Ok ==> data == Lookup(After(w0, ps, commits, j), file, ps, p)
    ensures
      var v := After(w0, ps, commits, j);
      var size := if LastDbSize(v.frames) > 0 then LastDbSize(v.frames) else dbSize;
      1 <= p <= |file| && p <= size ==> r == Ok
  {
    hide After, WalOk, FileOk, Lookup, Recovered, LastDbSize, Exact, Shown;
    var pager;
    pager, j := ReopenAfterCrash(ps, file, dbSize, bytes, r1, r2, w0, commits);
    r, data := pager.Acquire(p);
  }

  lemma NoHeader(bytes: seq<Byte>)
    requires |bytes| < HDR
    ensures !IsWalHeader(bytes)
  {
  }
}
