/** Building a leaf cell and loading it back, with the payload's tail on overflow pages. */
module Overflow {
  import opened Bytes
  import opened BTreeLevels
  import opened BTreePage
  import opened Varint
  import opened LeafCells

  datatype Loaded = Loaded(rowid: Key, payload: seq<Byte>)

  /** What loading the leaf cell at `off` yields. */
  function LoadAt(pages: Pages, data: seq<Byte>, off: nat, ps: nat): CellResult<Loaded>
    requires ps >= MIN_PAGE_SIZE && forall q :: q in pages ==> |pages[q]| >= 4
  {
    if off >= |data| then Failed(Corrupt)
    else
      var cell := data[off..];
      match LayoutOf(cell, ps)
      case Failed(e) => Failed(e)
      case Found(l) =>
        var end := l.start + LocalSize(l.len, ps);
        if end > |cell| then Failed(Corrupt)
        else if !Overflows(l.len, ps) then Found(Loaded(l.rowid, cell[l.start..end]))
        else if end + 4 > |cell| then Failed(Corrupt)
        else
          match ReadFrom(pages, Get32(cell[end..end + 4]), l.len - LocalSize(l.len, ps), ps)
          case Failed(e) => Failed(e)
          case Found(tail) => Found(Loaded(l.rowid, cell[l.start..end] + tail))
  }

  /** `cell` stores the row: its inline bytes, and the chain with the rest of the payload. */
  ghost predicate Stores(pages: Pages, cell: seq<Byte>, rowid: Key, payload: seq<Byte>, first: Word, ps: nat)
    requires ps >= MIN_PAGE_SIZE && |payload| < KEY_LIMIT
  {
    cell == CellOf(rowid, payload, first, ps) && Chain(pages, first, payload[LocalSize(|payload|, ps)..], ps)
  }

  /** The parts of a cell. */
  lemma CellParts(rowid: Key, payload: seq<Byte>, first: Word, ps: nat)
    requires ps >= MIN_PAGE_SIZE && |payload| < KEY_LIMIT
    ensures
      var cell, local := CellOf(rowid, payload, first, ps), LocalSize(|payload|, ps);
      var start := VarintLength(|payload|) + VarintLength(rowid);
      && |cell| == start + local + (if Overflows(|payload|, ps) then 4 else 0)
      && cell[start..start + local] == payload[..local]
      && (Overflows(|payload|, ps) ==> Get32(cell[start + local..]) == first)
  {
    hide Encoded, LocalSize, VarintLength, Get32, Put32;
    if Overflows(|payload|, ps) {
      var end := VarintLength(|payload|) + VarintLength(rowid) + LocalSize(|payload|, ps);
      assert CellOf(rowid, payload, first, ps)[end..] == Put32(first) + [];
      PutGet32(first, []);
    }
  }

  /** Loading a stored cell gives back its rowid and payload, wherever the cell is on the page. */
  lemma LoadStored(pages: Pages, data: seq<Byte>, off: nat, cell: seq<Byte>, rowid: Key, payload: seq<Byte>, first: Word, ps: nat)
    requires ps >= MIN_PAGE_SIZE && |payload| < KEY_LIMIT && forall q :: q in pages ==> |pages[q]| >= 4
    requires Stores(pages, cell, rowid, payload, first, ps)
    requires off + |cell| <= |data| && data[off..off + |cell|] == cell
    ensures LoadAt(pages, data, off, ps) == Found(Loaded(rowid, payload))
  {
    hide LayoutOf, Encoded, Chain, ReadFrom, LocalSize, VarintLength, CellOf, Get32;
    var local, rest := LocalSize(|payload|, ps), data[off + |cell|..];
    var start := VarintLength(|payload|) + VarintLength(rowid);
    LocalBounds(|payload|, ps);
    CellParts(rowid, payload, first, ps);
    CellLayout(rowid, payload, first, ps, rest);
    var at := data[off..];
    assert at == cell + rest;
    assert at[start..start + local] == cell[start..start + local];
    if Overflows(|payload|, ps) {
      assert at[start + local..start + local + 4] == cell[start + local..];
      ReadChain(pages, first, payload[local..], ps);
      assert payload == payload[..local] + payload[local..];
    } else {
      assert payload[..local] == payload;
    }
  }

  /** Rows stored later, on new pages, leave the row as it is. */
  lemma StoresKept(pages: Pages, later: Pages, size: nat, cell: seq<Byte>, rowid: Key, payload: seq<Byte>, first: Word, ps: nat)
    requires ps >= MIN_PAGE_SIZE && |payload| < KEY_LIMIT && Stores(pages, cell, rowid, payload, first, ps)
    requires forall p :: p in pages ==> p <= size && p in later && later[p] == pages[p]
    ensures Stores(later, cell, rowid, payload, first, ps)
  {
    LocalBounds(|payload|, ps);
    ChainKept(pages, later, size, first, payload[LocalSize(|payload|, ps)..], ps);
  }

  /** A row cell that decodes to `key` and is exactly as long as its layout says. */
  predicate RowOk(bytes: seq<Byte>, key: Key, ps: nat)
    requires ps >= MIN_PAGE_SIZE
  {
    match LayoutOf(bytes, ps)
    case Failed(_) => false
    case Found(l) => l.rowid == key && l.size == |bytes|
  }

  lemma CellRowOk(rowid: Key, payload: seq<Byte>, first: Word, ps: nat)
    requires ps >= MIN_PAGE_SIZE && |payload| < KEY_LIMIT
    ensures RowOk(CellOf(rowid, payload, first, ps), rowid, ps)
  {
    hide LayoutOf;
    CellLayout(rowid, payload, first, ps, []);
    assert CellOf(rowid, payload, first, ps) + [] == CellOf(rowid, payload, first, ps);
  }

  // ---- Chunks ----

  /** The overflowing bytes, a page's worth at a time. */
  function Chunks(extra: seq<Byte>, ps: nat): (c: seq<seq<Byte>>)
    requires ps >= MIN_PAGE_SIZE
    ensures |c| == PageCount(|extra|, ps)
    decreases |extra|
  {
    if extra == [] then [] else
      var take := Take(|extra|, ps);
      [extra[..take]] + Chunks(extra[take..], ps)
  }

  /** What is left after i chunks. */
  function Rest(extra: seq<Byte>, i: nat, ps: nat): seq<Byte>
    requires ps >= MIN_PAGE_SIZE && i <= PageCount(|extra|, ps)
    decreases i
  {
    if i == 0 then extra else Rest(extra[Take(|extra|, ps)..], i - 1, ps)
  }

  lemma {:induction false} RestStart(extra: seq<Byte>, ps: nat)
    requires ps >= MIN_PAGE_SIZE
    ensures Rest(extra, PageCount(|extra|, ps), ps) == []
    decreases |extra|
  {
    if extra != [] {
      RestStart(extra[Take(|extra|, ps)..], ps);
    }
  }

  lemma {:induction false} RestStep(extra: seq<Byte>, i: nat, ps: nat)
    requires ps >= MIN_PAGE_SIZE && i < PageCount(|extra|, ps)
    ensures
      var r := Rest(extra, i, ps);
      && r != [] && Chunks(extra, ps)[i] == r[..Take(|r|, ps)]
      && Rest(extra, i + 1, ps) == r[Take(|r|, ps)..]
    decreases i
  {
    if i > 0 {
      RestStep(extra[Take(|extra|, ps)..], i - 1, ps);
    }
  }

  /** A page in front of a chain. */
  lemma ChainGrown(pages: Pages, p: Word, next: Word, content: seq<Byte>, ps: nat)
    requires ps >= MIN_PAGE_SIZE && content != [] && p != 0 && p in pages && |pages[p]| == ps
    requires pages[p][..4 + Take(|content|, ps)] == Put32(next) + content[..Take(|content|, ps)]
    requires Chain(pages, next, content[Take(|content|, ps)..], ps)
    ensures Chain(pages, p, content, ps)
  {
    hide Get32, Put32;
    var take := Take(|content|, ps);
    assert pages[p][4..4 + take] == pages[p][..4 + take][4..4 + take] == content[..take];
    PutGet32(next, pages[p][4..]);
    assert pages[p] == Put32(next) + pages[p][4..] by {
      assert pages[p][..4] == pages[p][..4 + take][..4] == Put32(next);
    }
  }

  /** What was read, followed by the rest. */
  function After(out: seq<Byte>, r: CellResult<seq<Byte>>): CellResult<seq<Byte>> {
    match r case Failed(e) => Failed(e) case Found(more) => Found(out + more)
  }

  lemma AfterNothing(r: CellResult<seq<Byte>>)
    ensures After([], r) == r
  {
    if r.Found? {
      assert [] + r.value == r.value;
    }
  }

  lemma AfterMore(out: seq<Byte>, more: seq<Byte>, r: CellResult<seq<Byte>>)
    ensures After(out, After(more, r)) == After(out + more, r)
  {
    if r.Found? {
      assert out + (more + r.value) == out + more + r.value;
    }
  }

  /** The pages of the database, as the pager shows them. */
  class OverflowStore {
    var pages: Pages
    var dbSize: nat
    const pageSize: nat

    constructor (ps: nat)
      requires ps >= MIN_PAGE_SIZE
      ensures Valid() && pageSize == ps && pages == map[] && dbSize == 0
    {
      pages, dbSize, pageSize := map[], 0, ps;
    }

    ghost predicate Valid()
      reads this
    {
      && pageSize >= MIN_PAGE_SIZE
      && (forall q :: q in pages ==> q <= dbSize)
      && (forall q :: q in pages ==> |pages[q]| >= 4)
    }

    /**
      Write `extra` to new overflow pages, last chunk first, so that each page can name the next.
      The page that holds the first chunk is allocated last.
     */
    method WriteOverflowChain(extra: seq<Byte>) returns (first: Word)
      requires Valid() && dbSize + PageCount(|extra|, pageSize) < 0x1_0000_0000
      modifies this
      ensures Valid()
      ensures dbSize == old(dbSize) + PageCount(|extra|, pageSize)
      ensures first == (if extra == [] then 0 else dbSize)
      ensures Chain(pages, first, extra, pageSize)
      ensures forall q :: q in old(pages) ==> q in pages && pages[q] == old(pages)[q]
    {
      var chunks := Chunks(extra, pageSize);
      RestStart(extra, pageSize);
      first := 0;
      for i := |chunks| downto 0
        invariant Valid() && dbSize == old(dbSize) + (|chunks| - i)
        invariant first == (if i == |chunks| then 0 else dbSize)
        invariant Chain(pages, first, Rest(extra, i, pageSize), pageSize)
        invariant forall q :: q in old(pages) ==> q in pages && pages[q] == old(pages)[q]
      {
        RestStep(extra, i, pageSize);
        ghost var before, size, rest := pages, dbSize, Rest(extra, i, pageSize);
        var p := WriteOverflowPage(first, chunks[i]);
        ChainKept(before, pages, size, first, Rest(extra, i + 1, pageSize), pageSize);
        ChainGrown(pages, p, first, rest, pageSize);
        first := p;
      }
    }

    /** Put a chunk on a new page that names the page after it. */
    method WriteOverflowPage(next: Word, chunk: seq<Byte>) returns (p: Word)
      requires Valid() && dbSize + 1 < 0x1_0000_0000 && 0 < |chunk| <= pageSize - 4
      modifies this
      ensures Valid() && dbSize == old(dbSize) + 1 == p
      ensures pages.Keys == old(pages).Keys + {p}
      ensures |pages[p]| == pageSize && pages[p][..4 + |chunk|] == Put32(next) + chunk
      ensures forall q :: q in old(pages) ==> pages[q] == old(pages)[q]
    {
      p := dbSize + 1;
      dbSize := p;
      var data := new Byte[pageSize](_ => 0);
      var pointer := Put32(next);
      forall i | 0 <= i < 4 { data[i] := pointer[i]; }
      forall i | 0 <= i < |chunk| { data[4 + i] := chunk[i]; }
      pages := pages[p := data[..]];
      assert data[..4 + |chunk|] == Put32(next) + chunk;
    }

    /** Follow the chain from `first` for at most `remaining` bytes. */
    method ReadOverflowChain(first: Word, remaining: nat) returns (r: CellResult<seq<Byte>>)
      requires Valid()
      ensures r == ReadFrom(pages, first, remaining, pageSize)
    {
      hide Take;
      var p: Word, left: nat, out: seq<Byte> := first, remaining, [];
      AfterNothing(ReadFrom(pages, first, remaining, pageSize));
      while p != 0 && left > 0
        invariant ReadFrom(pages, first, remaining, pageSize) == After(out, ReadFrom(pages, p, left, pageSize))
        decreases left
      {
        var page := PageAt(pages, p, pageSize);
        var take := Take(left, pageSize);
        if 4 + take > |page| {
          return Failed(Corrupt);
        }
        AfterMore(out, page[4..4 + take], ReadFrom(pages, Get32(page), left - take, pageSize));
        out := out + page[4..4 + take];
        left := left - take;
        p := Get32(page);
      }
      assert out + [] == out;
      r := Found(out);
    }

    /** The on-page bytes of a row; a payload too long for the page goes to new overflow pages. */
    method BuildLeafCell(rowid: Key, payload: seq<Byte>) returns (cell: seq<Byte>, ghost first: Word)
      requires Valid() && |payload| < KEY_LIMIT
      requires dbSize + PageCount(|payload|, pageSize) < 0x1_0000_0000
      modifies this
      ensures Valid()
      ensures Stores(pages, cell, rowid, payload, first, pageSize)
      ensures forall q :: q in old(pages) ==> q in pages && pages[q] == old(pages)[q]
      ensures !Overflows(|payload|, pageSize) ==> dbSize == old(dbSize) && pages == old(pages)
      ensures dbSize == old(dbSize) + PageCount(|payload| - LocalSize(|payload|, pageSize), pageSize)
    {
      hide Encoded, LocalSize;
      LocalBounds(|payload|, pageSize);
      var local := LocalSize(|payload|, pageSize);
      cell := Encoded(|payload|) + Encoded(rowid) + payload[..local];
      first := 0;
      if Overflows(|payload|, pageSize) {
        PageCountMono(|payload| - local, |payload|, pageSize);
        var p := WriteOverflowChain(payload[local..]);
        cell := cell + Put32(p);
        first := p;
      }
    }

    /** Load the leaf cell at `off`. */
    method LoadCell(data: seq<Byte>, off: nat) returns (r: CellResult<Loaded>)
      requires Valid()
      ensures r == LoadAt(pages, data, off, pageSize)
    {
      hide DecodeFrom, LocalSize, ReadFrom;
      if off >= |data| {
        return Failed(Corrupt);
      }
      var cell := data[off..];
      var a := DecodeVarint(cell);
      if a.Err? {
        return Failed(Corrupt);
      }
      var n1 := a.value.size;
      var b := DecodeVarint(cell[n1..]);
      if b.Err? {
        return Failed(Corrupt);
      }
      var plen, start := a.value.value, n1 + b.value.size;
      var local := LocalSize(plen, pageSize);
      LocalBounds(plen, pageSize);
      var end := start + local;
      if end > |cell| {
        return Failed(Corrupt);
      }
      var payload := cell[start..end];
      if Overflows(plen, pageSize) {
        if end + 4 > |cell| {
          return Failed(Corrupt);
        }
        var tail := ReadOverflowChain(Get32(cell[end..end + 4]), plen - local);
        if tail.Failed? {
          return Failed(tail.error);
        }
        payload := payload + tail.value;
      }
      r := Found(Loaded(b.value.value, payload));
    }
  }
}
