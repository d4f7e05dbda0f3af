/** The rollback journal: its records as bytes, and what replaying them does to the main file. */
module Journal {
  import opened Bytes
  import opened Wal
  import opened WalRecovery

  const JOURNAL_HDR: nat := 28
  const JOURNAL_MAGIC: seq<Byte> := [0xD9, 0xD5, 0x05, 0xF9, 0x20, 0xA1, 0x63, 0xD7]

  datatype Option<T> = None | Some(value: T)

  /** The original content of one page. */
  datatype Record = Record(pgno: PageNumber, data: Page)

  /** The journal file, the position at which the next write goes, and the counters. */
  datatype Journal = Journal(bytes: seq<Byte>, pos: nat, nonce: Word, nRecords: Word, startSize: Word)

  function JournalHeader(nonce: Word, dbSize: Word, ps: Word): (h: seq<Byte>)
    ensures |h| == JOURNAL_HDR
  {
    JOURNAL_MAGIC + Put32(0xFFFF_FFFF) + Put32(nonce) + Put32(dbSize) + Put32(512) + Put32(ps)
  }

  /** Wrapping sum of the nonce and every 200th byte from the end. */
  function JournalChecksum(c: Word, data: Page, i: int): Word
    requires i < |data|
    decreases i
  {
    if i <= 0 then c else JournalChecksum((c + data[i]) % 0x1_0000_0000, data, i - 200)
  }

  /** Position i of n, not the first, is a multiple of 200 before the end. */
  predicate IsSampled(n: nat, i: nat) {
    0 < i <= n && (n - i) % 200 == 0
  }

  /** The sampled bytes among the first n, added up. */
  function Sampled(data: Page, n: nat): nat
    requires n <= |data|
  {
    if n == 0 then 0
    else Sampled(data, n - 1) + if IsSampled(|data|, n - 1) then data[n - 1] else 0
  }

  /** No position between two multiples is sampled. */
  lemma {:induction false} SampledGap(data: Page, a: nat, b: nat)
    requires a <= b <= |data|
    requires forall i :: a <= i < b ==> !IsSampled(|data|, i)
    ensures Sampled(data, b) == Sampled(data, a)
  {
    if a < b {
      SampledGap(data, a, b - 1);
    }
  }

  /** The checksum of a page is the nonce plus the sampled bytes, modulo 2^32. */
  lemma ChecksumIs(nonce: Word, data: Page)
    ensures JournalChecksum(nonce, data, |data| - 200) == (nonce + Sampled(data, |data|)) % 0x1_0000_0000
  {
    ChecksumBelow(nonce, data, |data| - 200);
    var a := if |data| >= 200 then |data| - 199 else 0;
    Between(|data|, a, |data|);
    SampledGap(data, a, |data|);
  }

  lemma {:induction false} ChecksumBelow(c: Word, data: Page, i: int)
    requires i < |data| && (|data| - i) % 200 == 0
    ensures JournalChecksum(c, data, i) == (c + Sampled(data, if i >= 0 then i + 1 else 0)) % 0x1_0000_0000
    decreases i
  {
    if i > 0 {
      var d := (c + data[i]) % 0x1_0000_0000;
      ChecksumBelow(d, data, i - 200);
      var a := if i >= 200 then i - 199 else 0;
      Between(|data|, a, i);
      SampledGap(data, a, i);
      SumOfSums(c, data[i], Sampled(data, i));
    }
  }

  lemma SumOfSums(a: nat, b: nat, c: nat)
    ensures ((a + b) % 0x1_0000_0000 + c) % 0x1_0000_0000 == (a + (c + b)) % 0x1_0000_0000
  {
  }

  /** Fewer than 200 positions, ending before one that is sampled. */
  lemma Between(n: nat, a: nat, b: nat)
    requires a <= b <= n && (n - b) % 200 == 0 && ((a == 0 && b <= 200) || b == a + 199)
    ensures forall i :: a <= i < b ==> !IsSampled(n, i)
  {
  }

  /** The loop over every 200th byte, as the code runs it. */
  method SumPage(nonce: Word, data: Page) returns (c: Word)
    ensures c == (nonce + Sampled(data, |data|)) % 0x1_0000_0000
  {
    ChecksumIs(nonce, data);
    c := nonce;
    var i: int := |data| - 200;
    while i > 0
      invariant i < |data| && JournalChecksum(c, data, i) == JournalChecksum(nonce, data, |data| - 200)
    {
      c := (c + data[i]) % 0x1_0000_0000;
      i := i - 200;
    }
  }

  function RecordBytes(r: Record, nonce: Word): (b: seq<Byte>)
    ensures |b| == |r.data| + 8
  {
    Put32(r.pgno) + r.data + Put32(JournalChecksum(nonce, r.data, |r.data| - 200))
  }

  /** The records in `b`; None when the last one is cut short after its page number. */
  function ParseRecords(b: seq<Byte>, ps: nat): Option<seq<Record>>
    decreases |b|
  {
    if |b| < 4 then Some([])
    else if |b| < ps + 8 then None
    else
      match ParseRecords(b[ps + 8..], ps)
      case None => None
      case Some(rest) => Some([Record(Get32(b), b[4..4 + ps])] + rest)
  }

  method ReadJournalRecords(b: seq<Byte>, ps: nat) returns (r: Option<seq<Record>>)
    ensures r == ParseRecords(b, ps)
  {
    var out: seq<Record> := [];
    var pos := 0;
    assert b[0..] == b;
    PrefixedEmpty(ParseRecords(b, ps));
    while |b| - pos >= 4
      invariant pos <= |b|
      invariant ParseRecords(b, ps) == Prefixed(out, ParseRecords(b[pos..], ps))
      decreases |b| - pos
    {
      var rest := b[pos..];
      if |rest| < ps + 8 {
        return None;
      }
      assert rest[ps + 8..] == b[pos + ps + 8..];
      PrefixedStep(out, Record(Get32(rest), rest[4..4 + ps]), ParseRecords(rest[ps + 8..], ps));
      out := out + [Record(Get32(rest), rest[4..4 + ps])];
      pos := pos + ps + 8;
    }
    assert out + [] == out;
    r := Some(out);
  }

  ghost function Prefixed(out: seq<Record>, r: Option<seq<Record>>): Option<seq<Record>> {
    match r
    case None => None
    case Some(rest) => Some(out + rest)
  }

  lemma PrefixedEmpty(r: Option<seq<Record>>)
    ensures Prefixed([], r) == r
  {
    if r.Some? {
      assert [] + r.value == r.value;
    }
  }

  lemma PrefixedStep(out: seq<Record>, x: Record, r: Option<seq<Record>>)
    ensures Prefixed(out, Prefixed([x], r)) == Prefixed(out + [x], r)
  {
    if r.Some? {
      assert out + ([x] + r.value) == out + [x] + r.value;
    }
  }

  /** Whole records only. */
  ghost predicate Aligned(b: seq<Byte>, ps: nat)
    decreases |b|
  {
    b == [] || (|b| >= ps + 8 && Aligned(b[ps + 8..], ps))
  }

  /** Every whole record ends in the checksum of its page. */
  ghost predicate SumsOk(b: seq<Byte>, nonce: Word, ps: nat)
    decreases |b|
  {
    |b| >= ps + 8 ==> Get32(b[4 + ps..]) == (nonce + Sampled(b[4..4 + ps], ps)) % 0x1_0000_0000 && SumsOk(b[ps + 8..], nonce, ps)
  }

  /** A record written at the end of whole records keeps all checksums. */
  lemma {:induction false} SumsAppend(b: seq<Byte>, r: Record, nonce: Word, ps: nat)
    requires Aligned(b, ps) && SumsOk(b, nonce, ps) && |r.data| == ps
    ensures SumsOk(b + RecordBytes(r, nonce), nonce, ps)
    decreases |b|
  {
    hide RecordBytes, Get32, Sampled;
    var x := RecordBytes(r, nonce);
    if b == [] {
      assert b + x == x;
      SumsOne(r, nonce, ps);
    } else {
      SumsAppend(b[ps + 8..], r, nonce, ps);
      FirstKept(b, x, ps);
      Get32Agree(b, b + x, |b|, 4 + ps);
    }
  }

  lemma SumsOne(r: Record, nonce: Word, ps: nat)
    requires |r.data| == ps
    ensures SumsOk(RecordBytes(r, nonce), nonce, ps)
  {
    hide Get32, Put32, Sampled, JournalChecksum;
    var x := RecordBytes(r, nonce);
    var c := JournalChecksum(nonce, r.data, ps - 200);
    assert x[ps + 8..] == [] && x[4..4 + ps] == r.data;
    assert x[4 + ps..] == Put32(c) + [];
    PutGet32(c, []);
    ChecksumIs(nonce, r.data);
  }

  /** The fields of a new journal's header, by offset. */
  lemma JournalFields(nonce: Word, dbSize: Word, ps: Word)
    ensures
      var h := JournalHeader(nonce, dbSize, ps);
      && h[..8] == [0xD9, 0xD5, 0x05, 0xF9, 0x20, 0xA1, 0x63, 0xD7] && Get32(h[8..]) == 0xFFFF_FFFF && Get32(h[12..]) == nonce
      && Get32(h[16..]) == dbSize && Get32(h[20..]) == 512 && Get32(h[24..]) == ps
  {
    hide Get32, Put32;
    var h := JournalHeader(nonce, dbSize, ps);
    assert h[8..] == Put32(0xFFFF_FFFF) + h[12..];
    PutGet32(0xFFFF_FFFF, h[12..]);
    assert h[12..] == Put32(nonce) + h[16..];
    PutGet32(nonce, h[16..]);
    assert h[16..] == Put32(dbSize) + h[20..];
    PutGet32(dbSize, h[20..]);
    assert h[20..] == Put32(512) + h[24..];
    PutGet32(512, h[24..]);
    assert h[24..] == Put32(ps) + [];
    PutGet32(ps, []);
  }

  /** More bytes at the end change neither the first record nor what comes after it. */
  lemma FirstKept(b: seq<Byte>, x: seq<Byte>, ps: nat)
    requires |b| >= ps + 8
    ensures (b + x)[ps + 8..] == b[ps + 8..] + x && Get32(b + x) == Get32(b) && (b + x)[4..4 + ps] == b[4..4 + ps]
    ensures Aligned(b[ps + 8..] + x, ps) ==> Aligned(b + x, ps)
  {
    assert (b + x)[ps + 8..] == b[ps + 8..] + x;
  }

  /** A record written at the end of whole records is read back after them. */
  lemma {:induction false} ParseAppend(b: seq<Byte>, r: Record, nonce: Word, ps: nat)
    requires Aligned(b, ps) && |r.data| == ps
    ensures
      var b' := b + RecordBytes(r, nonce);
      Aligned(b', ps) && ParseRecords(b, ps).Some? && ParseRecords(b', ps) == Some(ParseRecords(b, ps).value + [r])
    decreases |b|
  {
    hide RecordBytes;
    var x := RecordBytes(r, nonce);
    if b == [] {
      assert b + x == x;
      ParseOne(r, nonce, ps);
      assert [] + [r] == [r];
    } else {
      ParseAppend(b[ps + 8..], r, nonce, ps);
      FirstKept(b, x, ps);
      hide Get32, Aligned;
      var first := Record(Get32(b), b[4..4 + ps]);
      assert [first] + (ParseRecords(b[ps + 8..], ps).value + [r]) == [first] + ParseRecords(b[ps + 8..], ps).value + [r];
    }
  }

  lemma ParseOne(r: Record, nonce: Word, ps: nat)
    requires |r.data| == ps
    ensures Aligned(RecordBytes(r, nonce), ps) && ParseRecords(RecordBytes(r, nonce), ps) == Some([r])
  {
    var x := RecordBytes(r, nonce);
    assert x[ps + 8..] == [];
    assert x == Put32(r.pgno) + x[4..];
    PutGet32(r.pgno, x[4..]);
    assert x[4..4 + ps] == r.data;
    assert [r] + [] == [r];
  }

  // ---- Replay ----

  ghost function Journaled(recs: seq<Record>): set<PageNumber> {
    set i | 0 <= i < |recs| :: recs[i].pgno
  }

  /** The main file after the records have been written back in order. */
  function Replayed(recs: seq<Record>, file: seq<Page>, ps: nat): seq<Page> {
    if recs == [] then file
    else
      var f := Replayed(recs[..|recs| - 1], file, ps);
      var r := recs[|recs| - 1];
      if r.pgno == 0 then f else FileWrite(f, ps, r.pgno, r.data)
  }

  /** Every record of a page up to the starting size holds the page as it was at the start. */
  ghost predicate Originals(recs: seq<Record>, start: seq<Page>, size: Word, ps: nat) {
    forall i :: 0 <= i < |recs| ==>
      1 <= recs[i].pgno && |recs[i].data| == ps && (recs[i].pgno <= size ==> recs[i].data == FilePage(start, ps, recs[i].pgno))
  }

  lemma {:induction false} ReplayedPage(recs: seq<Record>, file: seq<Page>, start: seq<Page>, size: Word, ps: nat, p: PageNumber)
    requires Originals(recs, start, size, ps) && 1 <= p
    ensures p !in Journaled(recs) ==> FilePage(Replayed(recs, file, ps), ps, p) == FilePage(file, ps, p)
    ensures p in Journaled(recs) && p <= size ==> FilePage(Replayed(recs, file, ps), ps, p) == FilePage(start, ps, p)
    decreases |recs|
  {
    hide FilePage, FileWrite;
    if recs != [] {
      var init, r := recs[..|recs| - 1], recs[|recs| - 1];
      ReplayedPage(init, file, start, size, ps, p);
      JournaledInit(recs);
    }
  }

  /**
    Whatever bytes the first commit phase left on the journaled pages, replaying the journal gives
    back every page up to the starting size.
   */
  lemma ReplayRestores(recs: seq<Record>, start: seq<Page>, crashed: seq<Page>, size: Word, ps: nat)
    requires Originals(recs, start, size, ps)
    requires forall p: PageNumber :: 1 <= p <= size && p !in Journaled(recs) ==> FilePage(crashed, ps, p) == FilePage(start, ps, p)
    ensures forall p: PageNumber :: 1 <= p <= size ==> FilePage(Replayed(recs, crashed, ps), ps, p) == FilePage(start, ps, p)
  {
    forall p: PageNumber | 1 <= p <= size
      ensures FilePage(Replayed(recs, crashed, ps), ps, p) == FilePage(start, ps, p)
    {
      ReplayedPage(recs, crashed, start, size, ps, p);
    }
  }

  lemma JournaledInit(recs: seq<Record>)
    requires recs != []
    ensures Journaled(recs) == Journaled(recs[..|recs| - 1]) + {recs[|recs| - 1].pgno}
  {
    var init := recs[..|recs| - 1];
    forall i | 0 <= i < |recs| ensures recs[i].pgno in Journaled(init) + {recs[|recs| - 1].pgno} {
      assert i < |init| ==> init[i].pgno in Journaled(init);
    }
    forall i | 0 <= i < |init| ensures init[i].pgno in Journaled(recs) {
      assert recs[i].pgno in Journaled(recs);
    }
  }

  lemma {:induction false} ReplayedLast(recs: seq<Record>, f: seq<Page>, g: seq<Page>, ps: nat, p: PageNumber)
    requires p in Journaled(recs) && 1 <= p
    ensures FilePage(Replayed(recs, f, ps), ps, p) == FilePage(Replayed(recs, g, ps), ps, p)
    decreases |recs|
  {
    hide FilePage, FileWrite;
    var init, r := recs[..|recs| - 1], recs[|recs| - 1];
    JournaledInit(recs);
    if r.pgno != p {
      ReplayedLast(init, f, g, ps, p);
    }
  }

  lemma {:induction false} ReplayedLength(recs: seq<Record>, file: seq<Page>, ps: nat)
    ensures |Replayed(recs, file, ps)| >= |file|
    ensures forall g: seq<Page> :: |g| == |Replayed(recs, file, ps)| ==> |Replayed(recs, g, ps)| == |g|
    decreases |recs|
  {
    if recs != [] {
      var init, r := recs[..|recs| - 1], recs[|recs| - 1];
      ReplayedLength(init, file, ps);
      forall g: seq<Page> | |g| == |Replayed(recs, file, ps)| ensures |Replayed(recs, g, ps)| == |g| {
        ReplayedKeeps(init, g, ps, |Replayed(init, file, ps)|, file);
      }
    }
  }

  /** A file at least as long as one replay made it keeps its length under another. */
  lemma {:induction false} ReplayedKeeps(recs: seq<Record>, g: seq<Page>, ps: nat, n: nat, file: seq<Page>)
    requires n == |Replayed(recs, file, ps)| && |g| >= n
    ensures |Replayed(recs, g, ps)| == |g|
    decreases |recs|
  {
    if recs != [] {
      var init := recs[..|recs| - 1];
      ReplayedKeeps(init, g, ps, |Replayed(init, file, ps)|, file);
    }
  }

  /** Replaying the same journal twice equals replaying it once. */
  lemma ReplayTwice(recs: seq<Record>, file: seq<Page>, ps: nat)
    requires forall i :: 0 <= i < |recs| ==> 1 <= recs[i].pgno
    requires |Replayed(recs, file, ps)| < 0x1_0000_0000
    ensures Replayed(recs, Replayed(recs, file, ps), ps) == Replayed(recs, file, ps)
  {
    var once := Replayed(recs, file, ps);
    var twice := Replayed(recs, once, ps);
    ReplayedLength(recs, file, ps);
    forall i | 0 <= i < |once| ensures twice[i] == once[i] {
      var p: PageNumber := i + 1;
      assert FilePage(once, ps, p) == once[i] && FilePage(twice, ps, p) == twice[i];
      if p in Journaled(recs) {
        ReplayedLast(recs, file, once, ps, p);
      } else {
        ReplayedOther(recs, once, ps, p);
      }
    }
  }

  lemma {:induction false} ReplayedOther(recs: seq<Record>, file: seq<Page>, ps: nat, p: PageNumber)
    requires p !in Journaled(recs) && 1 <= p
    ensures FilePage(Replayed(recs, file, ps), ps, p) == FilePage(file, ps, p)
    decreases |recs|
  {
    hide FilePage, FileWrite;
    if recs != [] {
      var init := recs[..|recs| - 1];
      JournaledInit(recs);
      ReplayedOther(init, file, ps, p);
    }
  }
}
