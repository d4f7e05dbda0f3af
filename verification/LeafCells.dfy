/** Table-leaf cells and their overflow chains, written back to front and read front to back. */
module LeafCells {
  import opened Bytes
  import opened Integers
  import opened BTreeLevels
  import opened BTreePage
  import opened Varint

  const MIN_PAGE_SIZE: nat := 512
  const MAX_PAGE_SIZE: nat := 32768

  type PageSize = ps: nat | MIN_PAGE_SIZE <= ps <= MAX_PAGE_SIZE witness MIN_PAGE_SIZE

  datatype CellError = Corrupt | PageFull
  datatype CellResult<+T> = Found(value: T) | Failed(error: CellError)

  // ---- How much of a payload stays in the cell ----

  function MaxLocal(ps: nat): nat
    requires ps >= MIN_PAGE_SIZE
  {
    ps - 35
  }

  function MinLocal(ps: nat): nat
    requires ps >= 12
  {
    var m := (ps - 12) * 32 / 255;
    if m < 23 then 0 else m - 23
  }

  predicate Overflows(len: nat, ps: nat)
    requires ps >= MIN_PAGE_SIZE
  {
    len > MaxLocal(ps)
  }

  lemma RemainderLe(n: nat, d: nat)
    requires d > 0
    ensures n % d <= n
  {
    if n < d {
      assert n % d == n;
    }
  }

  function LocalSize(len: nat, ps: nat): (local: nat)
    requires ps >= MIN_PAGE_SIZE
    ensures local <= len
  {
    if len <= MaxLocal(ps) then len
    else
      RemainderLe(len - MinLocal(ps), ps - 4);
      var local := MinLocal(ps) + (len - MinLocal(ps)) % (ps - 4);
      if local > MaxLocal(ps) then MinLocal(ps) else local
  }

  /** How many of the remaining n bytes the next overflow page takes. */
  function Take(n: nat, ps: nat): (k: nat)
    requires ps >= MIN_PAGE_SIZE
    ensures k <= n && (n > 0 ==> k > 0)
  {
    if n <= ps - 4 then n else ps - 4
  }

  /** Overflow pages needed for n bytes. */
  function PageCount(n: nat, ps: nat): (k: nat)
    requires ps >= MIN_PAGE_SIZE
  {
    if n == 0 then 0 else 1 + PageCount(n - Take(n, ps), ps)
  }

  lemma {:induction false} PageCountMono(m: nat, n: nat, ps: nat)
    requires ps >= MIN_PAGE_SIZE && m <= n
    ensures PageCount(m, ps) <= PageCount(n, ps)
    decreases n
  {
    if m > 0 {
      PageCountMono(m - Take(m, ps), n - Take(n, ps), ps);
    }
  }

  /** n bytes fill q pages. */
  predicate Fill(n: nat, q: nat, ps: nat)
    requires ps >= MIN_PAGE_SIZE
  {
    n == q * (ps - 4)
  }

  lemma OneLess(q: nat, cap: nat)
    requires q > 0
    ensures q * cap >= cap && (q - 1) * cap == q * cap - cap
  {
  }

  lemma FillStep(n: nat, q: nat, ps: nat)
    requires ps >= MIN_PAGE_SIZE && q > 0 && Fill(n, q, ps)
    ensures n >= ps - 4 && Fill(n - (ps - 4), q - 1, ps)
  {
    OneLess(q, ps - 4);
  }

  /** q full pages and r more bytes. */
  lemma {:induction false} PageCountFill(n: nat, q: nat, r: nat, ps: nat)
    requires ps >= MIN_PAGE_SIZE && r <= ps - 4 && Fill(n, q, ps)
    ensures PageCount(n + r, ps) == q + if r == 0 then 0 else 1
    decreases q
  {
    if q == 0 {
      assert n == 0;
    } else {
      FillStep(n, q, ps);
      hide Fill;
      PageCountFill(n - (ps - 4), q - 1, r, ps);
    }
  }

  lemma Divide(n: nat, ps: nat) returns (whole: nat, q: nat)
    requires ps >= MIN_PAGE_SIZE
    ensures Fill(whole, q, ps) && n == whole + n % (ps - 4) && n % (ps - 4) < ps - 4
  {
    var cap := ps - 4;
    q, whole := n / cap, n - n % cap;
    assert n == cap * (n / cap) + n % cap;
  }

  /** The inline part stays within the bounds; if it is above the lower bound, every overflow page is full. */
  lemma LocalBounds(len: nat, ps: nat)
    requires ps >= MIN_PAGE_SIZE
    ensures LocalSize(len, ps) <= MaxLocal(ps) && LocalSize(len, ps) <= len
    ensures Overflows(len, ps) <==> LocalSize(len, ps) < len
    ensures Overflows(len, ps) ==> LocalSize(len, ps) >= MinLocal(ps)
    ensures Overflows(len, ps) && LocalSize(len, ps) > MinLocal(ps) ==>
      Fill(len - LocalSize(len, ps), PageCount(len - LocalSize(len, ps), ps), ps)
  {
    if Overflows(len, ps) {
      hide Fill;
      var whole, q := Divide(len - MinLocal(ps), ps);
      PageCountFill(whole, q, 0, ps);
    }
  }

  /**
    The inline size of a payload at a page size: up to 35 bytes less than a page it is kept whole; a longer
    one leaves full overflow pages if some size from m up to that bound does, and else keeps m bytes.
   */
  lemma InlineSize(len: nat, ps: nat)
    requires ps >= 512
    ensures (ps - 12) * 32 / 255 >= 23
    ensures len <= ps - 35 ==> LocalSize(len, ps) == len
    ensures len > ps - 35 ==>
      var m: nat := (ps - 12) * 32 / 255 - 23;
      && (forall x: nat :: m <= x <= ps - 35 && LeavesFullPages(len, x, ps) ==> LocalSize(len, ps) == x)
      && (LocalSize(len, ps) == m || (m <= LocalSize(len, ps) <= ps - 35 && LeavesFullPages(len, LocalSize(len, ps), ps)))
  {
    if len > ps - 35 {
      var m: nat := (ps - 12) * 32 / 255 - 23;
      assert m == MinLocal(ps);
      InlineBounds(ps);
      FullAt(len, m, ps);
      forall x: nat | m <= x <= ps - 35 && LeavesFullPages(len, x, ps) ensures LocalSize(len, ps) == x {
        OnlyFull(len, m, x, ps);
      }
    }
  }

  lemma InlineBounds(ps: nat)
    requires ps >= 512
    ensures 39 <= MinLocal(ps) <= ps - 35
  {
  }

  /** What does not stay inline fills its overflow pages. */
  predicate LeavesFullPages(len: nat, inline: nat, ps: nat)
    requires ps >= 512
  {
    inline <= len && (len - inline) % (ps - 4) == 0
  }

  lemma FullAt(len: nat, m: nat, ps: nat)
    requires ps >= 512 && m <= len
    ensures LeavesFullPages(len, m + (len - m) % (ps - 4), ps)
  {
    var q, r := (len - m) / (ps - 4), (len - m) % (ps - 4);
    RemainderLe(len - m, ps - 4);
    assert len - m == (ps - 4) * q + r;
    DivMod(len - m - r, ps - 4, q, 0);
  }

  lemma OnlyFull(len: nat, m: nat, x: nat, ps: nat)
    requires ps >= 512 && m <= x <= ps - 35 && LeavesFullPages(len, x, ps)
    ensures (len - m) % (ps - 4) == x - m
  {
    var q := (len - x) / (ps - 4);
    assert len - x == (ps - 4) * q;
    DivMod(len - m, ps - 4, q, x - m);
  }

  /** A chain has as many pages as full ones are needed, a last one included: n divided by a page less 4, rounded up. */
  lemma {:induction false} ChainLength(n: nat, ps: nat)
    requires ps >= 512
    ensures PageCount(n, ps) == (n + (ps - 5)) / (ps - 4)
    decreases n
  {
    if n > 0 {
      var rest := n - Take(n, ps);
      ChainLength(rest, ps);
      var q, r := (rest + (ps - 5)) / (ps - 4), (rest + (ps - 5)) % (ps - 4);
      assert rest + (ps - 5) == (ps - 4) * q + r;
      if n <= ps - 4 {
        DivMod(ps - 5, ps - 4, 0, ps - 5);
        DivMod(n + (ps - 5), ps - 4, 1, n - 1);
      } else {
        assert (ps - 4) * (q + 1) == (ps - 4) * q + (ps - 4);
        DivMod(n + (ps - 5), ps - 4, q + 1, r);
      }
    } else {
      DivMod(ps - 5, ps - 4, 0, ps - 5);
    }
  }

  /** No other inline size within the bounds needs fewer overflow pages. */
  lemma FewestPages(len: nat, ps: nat, other: nat)
    requires ps >= MIN_PAGE_SIZE && Overflows(len, ps) && MinLocal(ps) <= other <= MaxLocal(ps)
    ensures PageCount(len - LocalSize(len, ps), ps) <= PageCount(len - other, ps)
  {
    LocalBounds(len, ps);
    var whole, q := Divide(len - MinLocal(ps), ps);
    var s, d := (len - MinLocal(ps)) % (ps - 4), other - MinLocal(ps);
    assert q == 0 ==> whole == 0;
    hide Fill;
    PageCountFill(whole, q, s, ps);
    PageCountFill(whole, q, 0, ps);
    if d <= s {
      PageCountFill(whole, q, s - d, ps);
    } else {
      FillStep(whole, q, ps);
      PageCountFill(whole - (ps - 4), q - 1, ps - 4 + s - d, ps);
    }
  }

  // ---- The bytes of a cell ----

  /** A row's cell; `first` is the first overflow page, if there is any. */
  function CellOf(rowid: Key, payload: seq<Byte>, first: Word, ps: nat): seq<Byte>
    requires ps >= MIN_PAGE_SIZE && |payload| < KEY_LIMIT
  {
    Encoded(|payload|) + Encoded(rowid) + payload[..LocalSize(|payload|, ps)]
    + if Overflows(|payload|, ps) then Put32(first) else []
  }

  /** The length of a row's cell. */
  function CellLength(rowid: Key, len: nat, ps: nat): nat
    requires ps >= MIN_PAGE_SIZE && len < KEY_LIMIT
  {
    VarintLength(len) + VarintLength(rowid) + LocalSize(len, ps) + if Overflows(len, ps) then 4 else 0
  }

  /** Where a cell's parts are: the payload length, the rowid, the start of the payload, the cell's size. */
  datatype Layout = Layout(len: nat, rowid: Key, start: nat, size: nat)

  function LayoutOf(s: seq<Byte>, ps: nat): CellResult<Layout>
    requires ps >= MIN_PAGE_SIZE
  {
    match DecodeFrom(s, 0, 0)
    case Err(_) => Failed(Corrupt)
    case Ok(a) =>
      match DecodeFrom(s[a.size..], 0, 0)
      case Err(_) => Failed(Corrupt)
      case Ok(b) =>
        var start := a.size + b.size;
        Found(Layout(a.value, b.value, start,
                    start + LocalSize(a.value, ps) + if Overflows(a.value, ps) then 4 else 0))
  }

  /** A number's encoding is all that decoding looks at. */
  lemma {:induction false} DecodePrefix(s: seq<Byte>, t: seq<Byte>, i: nat, acc: nat)
    requires i <= |s| && i <= |t| && i <= 8 && acc < Pow128(i)
    requires
      match DecodeFrom(s, i, acc)
      case Err(_) => false
      case Ok(r) => r.size <= |t| && forall k :: 0 <= k < r.size ==> t[k] == s[k]
    ensures DecodeFrom(t, i, acc) == DecodeFrom(s, i, acc)
    decreases 8 - i
  {
    hide DecodeFrom, Pow128;
    FirstByte(s, i, acc);
    if i < 8 && s[i] >= 128 {
      DecodeMore(s, i, acc);
      DecodeMore(t, i, acc);
      DecodePrefix(s, t, i + 1, acc * 128 + s[i] % 128);
    } else {
      DecodeLast(s, t, i, acc);
    }
  }

  lemma FirstByte(s: seq<Byte>, i: nat, acc: nat)
    requires i <= |s| && i <= 8 && acc < Pow128(i) && DecodeFrom(s, i, acc).Ok?
    ensures i < |s| && i < DecodeFrom(s, i, acc).value.size
  {
  }

  lemma DecodeMore(s: seq<Byte>, i: nat, acc: nat)
    requires i < |s| && i < 8 && acc < Pow128(i) && s[i] >= 128
    ensures acc * 128 + s[i] % 128 < Pow128(i + 1)
    ensures DecodeFrom(s, i, acc) == DecodeFrom(s, i + 1, acc * 128 + s[i] % 128)
  {
  }

  lemma DecodeLast(s: seq<Byte>, t: seq<Byte>, i: nat, acc: nat)
    requires i < |s| && i < |t| && i <= 8 && acc < Pow128(i) && (i == 8 || s[i] < 128) && t[i] == s[i]
    ensures DecodeFrom(t, i, acc) == DecodeFrom(s, i, acc)
  {
  }

  /** The layout depends on the bytes of the cell only. */
  lemma LayoutPrefix(s: seq<Byte>, t: seq<Byte>, ps: nat)
    requires ps >= MIN_PAGE_SIZE && LayoutOf(s, ps).Found?
    requires
      var l := LayoutOf(s, ps).value;
      l.size <= |s| && l.size <= |t| && t[..l.size] == s[..l.size]
    ensures LayoutOf(t, ps) == LayoutOf(s, ps)
  {
    hide DecodeFrom, LocalSize;
    var l := LayoutOf(s, ps).value;
    assert forall k :: 0 <= k < l.size ==> t[k] == t[..l.size][k] == s[k];
    DecodePrefix(s, t, 0, 0);
    var a := DecodeFrom(s, 0, 0).value;
    DecodePrefix(s[a.size..], t[a.size..], 0, 0);
  }

  /** A cell's layout gives its parts back, whatever bytes follow. */
  lemma CellLayout(rowid: Key, payload: seq<Byte>, first: Word, ps: nat, rest: seq<Byte>)
    requires ps >= MIN_PAGE_SIZE && |payload| < KEY_LIMIT
    ensures
      var n := VarintLength(|payload|) + VarintLength(rowid);
      LayoutOf(CellOf(rowid, payload, first, ps) + rest, ps)
      == Found(Layout(|payload|, rowid, n, |CellOf(rowid, payload, first, ps)|))
  {
    hide DecodeFrom, Encoded, LocalSize, VarintLength;
    LocalBounds(|payload|, ps);
    var cell := CellOf(rowid, payload, first, ps);
    var s := cell + rest;
    var tail := payload[..LocalSize(|payload|, ps)] + if Overflows(|payload|, ps) then Put32(first) else [];
    var n := VarintLength(|payload|);
    assert s == Encoded(|payload|) + (Encoded(rowid) + tail + rest);
    VarintRoundTrip(|payload|, Encoded(rowid) + tail + rest);
    assert s[n..] == Encoded(rowid) + (tail + rest);
    VarintRoundTrip(rowid, tail + rest);
  }

  // ---- Size bounds ----

  /** Every cell fits an empty leaf other than page 1, at every page size. */
  lemma CellFitsEmptyLeaf(rowid: Key, payload: seq<Byte>, first: Word, ps: nat, p: PageNumber, rightmost: PageNumber)
    requires MIN_PAGE_SIZE <= ps <= MAX_PAGE_SIZE && |payload| < KEY_LIMIT && p != 1
    ensures Fits(Node(true, ps, [], rightmost), p, |CellOf(rowid, payload, first, ps)|)
  {
    LocalBounds(|payload|, ps);
  }

  /** The 100 bytes of the database header make page 1 smaller: a cell fits it, empty, exactly when it leaves them free. */
  lemma CellFitsPageOne(rowid: Key, payload: seq<Byte>, first: Word, ps: nat, rightmost: PageNumber)
    requires MIN_PAGE_SIZE <= ps <= MAX_PAGE_SIZE && |payload| < KEY_LIMIT
    ensures
      Fits(Node(true, ps, [], rightmost), 1, |CellOf(rowid, payload, first, ps)|) <==> CellLength(rowid, |payload|, ps) <= ps - 110
  {
    LocalBounds(|payload|, ps);
  }

  /** The largest payload that is kept whole does not fit. */
  lemma PageOneTooSmall(ps: nat)
    requires MIN_PAGE_SIZE <= ps <= MAX_PAGE_SIZE
    ensures !Fits(Node(true, ps, [], 0), 1, |CellOf(0, Zeros(MaxLocal(ps)), 0, ps)|)
  {
    CellFitsPageOne(0, Zeros(MaxLocal(ps)), 0, ps, 0);
  }

  // ---- Overflow chains ----

  type Pages = map<PageNumber, seq<Byte>>

  /** A page never written is all zeros. */
  function PageAt(pages: Pages, p: PageNumber, ps: nat): seq<Byte> {
    if p in pages then pages[p] else Zeros(ps)
  }

  /** The chain that starts at `first` holds exactly `content`. */
  ghost predicate Chain(pages: Pages, first: Word, content: seq<Byte>, ps: nat)
    requires ps >= MIN_PAGE_SIZE
    decreases |content|
  {
    if content == [] then first == 0
    else
      && first != 0 && first in pages && |pages[first]| == ps
      && var take := Take(|content|, ps);
         pages[first][4..4 + take] == content[..take] && Chain(pages, Get32(pages[first]), content[take..], ps)
  }

  /** The bytes the read loop collects from page p on. */
  function ReadFrom(pages: Pages, p: Word, left: nat, ps: nat): (r: CellResult<seq<Byte>>)
    requires ps >= MIN_PAGE_SIZE && forall q :: q in pages ==> |pages[q]| >= 4
    ensures r.Found? ==> |r.value| <= left
    decreases left
  {
    if p == 0 || left == 0 then Found([])
    else
      var page := PageAt(pages, p, ps);
      var take := Take(left, ps);
      if 4 + take > |page| then Failed(Corrupt)
      else
        match ReadFrom(pages, Get32(page), left - take, ps)
        case Failed(e) => Failed(e)
        case Found(more) => Found(page[4..4 + take] + more)
  }

  /** Reading a chain front to back returns its content. */
  lemma {:induction false} ReadChain(pages: Pages, first: Word, content: seq<Byte>, ps: nat)
    requires ps >= MIN_PAGE_SIZE && forall q :: q in pages ==> |pages[q]| >= 4
    requires Chain(pages, first, content, ps)
    ensures ReadFrom(pages, first, |content|, ps) == Found(content)
    decreases |content|
  {
    if content != [] {
      var take := Take(|content|, ps);
      var next := Get32(pages[first]);
      hide Get32;
      ReadChain(pages, next, content[take..], ps);
      ReadStep(pages, first, content, take, ps);
    }
  }

  lemma ReadStep(pages: Pages, first: Word, content: seq<Byte>, take: nat, ps: nat)
    requires ps >= MIN_PAGE_SIZE && forall q :: q in pages ==> |pages[q]| >= 4
    requires content != [] && take == Take(|content|, ps) && first != 0 && first in pages && |pages[first]| == ps
    requires pages[first][4..4 + take] == content[..take]
    requires ReadFrom(pages, Get32(pages[first]), |content| - take, ps) == Found(content[take..])
    ensures ReadFrom(pages, first, |content|, ps) == Found(content)
  {
    hide Get32;
    assert content == content[..take] + content[take..];
  }

  /** A chain survives whatever is written to other pages than its own. */
  lemma {:induction false} ChainKept(pages: Pages, later: Pages, size: nat, first: Word, content: seq<Byte>, ps: nat)
    requires ps >= MIN_PAGE_SIZE && Chain(pages, first, content, ps)
    requires forall p :: p in pages && p <= size ==> p in later && later[p] == pages[p]
    requires forall p :: p in pages ==> p <= size
    ensures Chain(later, first, content, ps)
    decreases |content|
  {
    if content != [] {
      var take := Take(|content|, ps);
      ChainKept(pages, later, size, Get32(pages[first]), content[take..], ps);
    }
  }
}
