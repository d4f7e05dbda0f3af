/** Slotted pages as bytes: insertion and rewriting in place match their form on decoded pages. */
module PageBytes {
  import opened Bytes
  import opened BTreeLevels
  import opened BTreePage
  import opened Varint
  import opened LeafCells
  import opened Overflow

  const TABLE_INTERIOR: Byte := 0x05
  const TABLE_LEAF: Byte := 0x0D
  const INDEX_INTERIOR: Byte := 0x02
  const INDEX_LEAF: Byte := 0x0A

  datatype Kind = TableInterior | TableLeaf | IndexInterior | IndexLeaf {
    predicate IsLeaf() {
      TableLeaf? || IndexLeaf?
    }
  }

  function KindOf(b: Byte): CellResult<Kind> {
    if b == TABLE_INTERIOR then Found(TableInterior)
    else if b == TABLE_LEAF then Found(TableLeaf)
    else if b == INDEX_INTERIOR then Found(IndexInterior)
    else if b == INDEX_LEAF then Found(IndexLeaf)
    else Failed(Corrupt)
  }

  datatype Header = Header(kind: Kind, count: Half, start: nat, rightmost: Word)

  function HalfAt(s: seq<Byte>, at: nat): Half
    requires at + 2 <= |s|
  {
    s[at] as int * 256 + s[at + 1] as int
  }

  function WordAt(s: seq<Byte>, at: nat): Word
    requires at + 4 <= |s|
  {
    Get32(s[at..at + 4])
  }

  function Parse(s: seq<Byte>, p: PageNumber): (r: CellResult<Header>)
    ensures r.Found? ==> |s| >= HeaderOffset(p) + 12 && 0 < r.value.start <= 65536
  {
    var ho := HeaderOffset(p);
    if |s| < ho + 12 then Failed(Corrupt)
    else
      match KindOf(s[ho])
      case Failed(e) => Failed(e)
      case Found(kind) =>
        var raw := HalfAt(s, ho + 5);
        Found(Header(kind, HalfAt(s, ho + 3), if raw == 0 then 65536 else raw,
                     if kind.IsLeaf() then 0 else WordAt(s, ho + 8)))
  }

  /** Where pointer i is stored. */
  function PtrAt(p: PageNumber, leaf: bool, i: nat): nat {
    HeaderOffset(p) + HeaderSize(leaf) + 2 * i
  }

  /** The rowid of cell i, read from its bytes. */
  function CellRowid(s: seq<Byte>, p: PageNumber, kind: Kind, i: nat): CellResult<Key> {
    var at := PtrAt(p, kind.IsLeaf(), i);
    if at + 2 > |s| then Failed(Corrupt)
    else
      var off := HalfAt(s, at);
      if off >= |s| then Failed(Corrupt)
      else
        var cell := s[off..];
        match kind
        case TableLeaf => (
          match DecodeFrom(cell, 0, 0)
          case Err(_) => Failed(Corrupt)
          case Ok(a) => RowidFrom(cell, a.size))
        case TableInterior => if |cell| < 5 then Failed(Corrupt) else RowidFrom(cell, 4)
        case _ => Failed(Corrupt)
  }

  function RowidFrom(cell: seq<Byte>, at: nat): CellResult<Key>
    requires at <= |cell|
  {
    match DecodeFrom(cell[at..], 0, 0)
    case Err(_) => Failed(Corrupt)
    case Ok(b) => Found(b.value)
  }

  // ---- A byte page that stores a decoded page ----

  predicate CellOk(c: Cell, leaf: bool, ps: nat)
    requires ps >= MIN_PAGE_SIZE
  {
    match c
    case Row(key, bytes) => leaf && RowOk(bytes, key, ps)
    case Divider(_, child) => !leaf && child < 0x1_0000_0000
  }

  function CellBytes(c: Cell): (s: seq<Byte>)
    requires c.Divider? ==> c.child < 0x1_0000_0000
    ensures |s| == CellSize(c)
  {
    match c
    case Row(_, bytes) => bytes
    case Divider(key, child) => Put32(child) + Encoded(key)
  }

  /** Cell c is stored in full at `off`. */
  predicate CellAt(s: seq<Byte>, off: nat, c: Cell, leaf: bool)
    requires |s| >= MIN_PAGE_SIZE
  {
    CellOk(c, leaf, |s|) && off + CellSize(c) <= |s| && s[off..off + CellSize(c)] == CellBytes(c)
  }

  function KindFor(leaf: bool): Kind {
    if leaf then TableLeaf else TableInterior
  }

  /** No byte belongs to two cells. */
  predicate Apart(a: nat, m: nat, b: nat, n: nat) {
    a + m <= b || b + n <= a
  }

  /** Pointer i, provided the pointer array lies on the page. */
  function Ptr(s: seq<Byte>, p: PageNumber, leaf: bool, i: nat): Half
    requires PtrAt(p, leaf, i) + 2 <= |s|
  {
    HalfAt(s, PtrAt(p, leaf, i))
  }

  ghost predicate HeaderIs(s: seq<Byte>, p: PageNumber, n: Node) {
    match Parse(s, p)
    case Failed(_) => false
    case Found(h) =>
      h.kind == KindFor(n.leaf) && h.count == |n.cells| && h.start == n.contentStart && h.rightmost == n.rightmost
  }

  ghost predicate PointersIn(s: seq<Byte>, p: PageNumber, n: Node) {
    PtrAt(p, n.leaf, |n.cells|) <= n.contentStart <= |s|
  }

  ghost predicate CellsStored(s: seq<Byte>, p: PageNumber, n: Node)
    requires |s| >= MIN_PAGE_SIZE && PointersIn(s, p, n)
  {
    forall i :: 0 <= i < |n.cells| ==>
      Ptr(s, p, n.leaf, i) >= n.contentStart && CellAt(s, Ptr(s, p, n.leaf, i), n.cells[i], n.leaf)
  }

  ghost predicate CellsApart(s: seq<Byte>, p: PageNumber, n: Node)
    requires PointersIn(s, p, n)
  {
    forall i, j :: 0 <= i < j < |n.cells| ==>
      Apart(Ptr(s, p, n.leaf, i), CellSize(n.cells[i]), Ptr(s, p, n.leaf, j), CellSize(n.cells[j]))
  }

  /** The well-formed byte pages and what they decode to. */
  ghost predicate Stored(s: seq<Byte>, p: PageNumber, n: Node) {
    MIN_PAGE_SIZE <= |s| <= 65536 && HeaderIs(s, p, n) && PointersIn(s, p, n) && CellsStored(s, p, n) && CellsApart(s, p, n)
  }

  // ---- Inserting a cell ----

  function Overwritten(s: seq<Byte>, at: nat, b: seq<Byte>): (t: seq<Byte>)
    requires at + |b| <= |s|
    ensures |t| == |s|
  {
    s[..at] + b + s[at + |b|..]
  }

  /** Byte k once the pointers in [at, end) have moved up to make room for a new one, and the header is updated. */
  function ByteAfter(w: seq<Byte>, ho: nat, at: nat, end: nat, count: seq<Byte>, start: seq<Byte>, k: nat): Byte
    requires at <= end && k < |w| && |count| == |start| == 2
  {
    if ho + 3 <= k < ho + 5 then count[k - (ho + 3)]
    else if ho + 5 <= k < ho + 7 then start[k - (ho + 5)]
    else if at <= k < at + 2 then start[k - at]
    else if at + 2 <= k < end + 2 then w[k - 2]
    else w[k]
  }

  /** The page once `cell` is written in front of the other cells and its pointer becomes number i. */
  function Placed(s: seq<Byte>, p: PageNumber, h: Header, cell: seq<Byte>, i: nat): (t: seq<Byte>)
    requires PtrAt(p, h.kind.IsLeaf(), h.count + 1) + |cell| <= h.start <= |s| && i <= h.count
    requires h.count < 65535
    ensures |t| == |s|
  {
    var at, end := PtrAt(p, h.kind.IsLeaf(), i), PtrAt(p, h.kind.IsLeaf(), h.count);
    var w, start := Overwritten(s, h.start - |cell|, cell), Put16((h.start - |cell|) % 65536);
    seq(|s|, k requires 0 <= k < |s| => ByteAfter(w, HeaderOffset(p), at, end, Put16(h.count + 1), start, k))
  }

  /** The first cell from i on whose rowid is readable and not below `rowid`. */
  function SortedIndex(s: seq<Byte>, p: PageNumber, h: Header, rowid: Key, i: nat): (r: nat)
    requires i <= h.count
    ensures i <= r <= h.count
    decreases h.count - i
  {
    if i == h.count then i
    else
      match CellRowid(s, p, h.kind, i)
      case Found(r) => if rowid <= r then i else SortedIndex(s, p, h, rowid, i + 1)
      case Failed(_) => SortedIndex(s, p, h, rowid, i + 1)
  }

  /** The page after inserting a cell, or why it is not inserted. */
  function InsertResult(s: seq<Byte>, p: PageNumber, cell: seq<Byte>, rowid: Key): CellResult<seq<Byte>> {
    match Parse(s, p)
    case Failed(e) => Failed(e)
    case Found(h) =>
      if h.start < PtrAt(p, h.kind.IsLeaf(), h.count + 1) + |cell| then Failed(PageFull)
      else if h.start > |s| then Failed(Corrupt)
      else Found(Placed(s, p, h, cell, SortedIndex(Overwritten(s, h.start - |cell|, cell), p, h, rowid, 0)))
  }

  method InsertCell(data: array<Byte>, p: PageNumber, cell: seq<Byte>, rowid: Key) returns (r: CellResult<()>)
    modifies data
    ensures
      match InsertResult(old(data[..]), p, cell, rowid)
      case Failed(e) => r == Failed(e) && data[..] == old(data[..])
      case Found(s) => r == Found(()) && data[..] == s
  {
    hide CellRowid, SortedIndex, Overwritten, Parse, Put16;
    var parsed := Parse(data[..], p);
    if parsed.Failed? {
      return Failed(parsed.error);
    }
    var h := parsed.value;
    var leaf, count: nat := h.kind.IsLeaf(), h.count;
    if h.start < PtrAt(p, leaf, count + 1) + |cell| {
      return Failed(PageFull);
    }
    var start := h.start - |cell|;
    if start + |cell| > data.Length {
      return Failed(Corrupt);
    }
    CopyFromSlice(data, start, cell);
    var i := FindIndex(data, p, h, rowid);
    PutPointer(data, PtrAt(p, leaf, i), PtrAt(p, leaf, count), Put16(start % 65536));
    var ho, counter, content := HeaderOffset(p), Put16(count + 1), Put16(start % 65536);
    data[ho + 3], data[ho + 4] := counter[0], counter[1];
    data[ho + 5], data[ho + 6] := content[0], content[1];
    assert data[..] == Placed(old(data[..]), p, h, cell, i);
    r := Found(());
  }

  method CopyFromSlice(data: array<Byte>, at: nat, b: seq<Byte>)
    requires at + |b| <= data.Length
    modifies data
    ensures data[..] == Overwritten(old(data[..]), at, b)
  {
    forall k | 0 <= k < |b| { data[at + k] := b[k]; }
  }

  /** The scan for the sorted position. */
  method FindIndex(data: array<Byte>, p: PageNumber, h: Header, rowid: Key) returns (i: nat)
    ensures i == SortedIndex(data[..], p, h, rowid, 0)
  {
    hide CellRowid;
    i := 0;
    while i < h.count
      invariant i <= h.count
      invariant SortedIndex(data[..], p, h, rowid, 0) == SortedIndex(data[..], p, h, rowid, i)
    {
      var at := CellRowid(data[..], p, h.kind, i);
      if at.Found? && rowid <= at.value {
        break;
      }
      i := i + 1;
    }
  }

  /** Move the pointers in [at, end) up by one place and put a new one before them. */
  method PutPointer(data: array<Byte>, at: nat, end: nat, ptr: seq<Byte>)
    requires at <= end && end + 2 <= data.Length && |ptr| == 2
    modifies data
    ensures forall k :: 0 <= k < data.Length ==>
      data[k] == if at <= k < at + 2 then ptr[k - at] else if at + 2 <= k < end + 2 then old(data[k - 2]) else old(data[k])
  {
    forall k | at + 2 <= k < end + 2 { data[k] := data[k - 2]; }
    data[at], data[at + 1] := ptr[0], ptr[1];
  }

  // ---- Insertion on bytes is insertion on decoded pages ----

  /** The rowid read from a stored cell is its key. */
  lemma RowidOfCell(s: seq<Byte>, off: nat, c: Cell, leaf: bool)
    requires |s| >= MIN_PAGE_SIZE && CellAt(s, off, c, leaf)
    ensures off < |s|
    ensures c.Row? ==> LayoutOf(s[off..], |s|).Found? && LayoutOf(s[off..], |s|).value.rowid == c.key
    ensures c.Row? ==> LayoutOf(s[off..], |s|).value.size == CellSize(c)
    ensures c.Divider? ==> |s[off..]| >= 5 && RowidFrom(s[off..], 4) == Found(c.key)
    ensures c.Divider? ==> DecodeFrom(s[off..][4..], 0, 0).Ok? && 4 + DecodeFrom(s[off..][4..], 0, 0).value.size == CellSize(c)
  {
    hide LayoutOf, DecodeFrom, Encoded, VarintLength;
    var m, cell := CellSize(c), s[off..];
    assert cell[..m] == s[off..off + m];
    match c
    case Row(_, bytes) =>
      assert bytes[..m] == bytes;
      LayoutPrefix(bytes, cell, |s|);
      LayoutSize(bytes, |s|);
    case Divider(key, child) =>
      assert cell[4..] == Encoded(key) + cell[m..] by {
        assert cell == cell[..m] + cell[m..];
      }
      VarintRoundTrip(key, cell[m..]);
  }

  lemma LayoutSize(s: seq<Byte>, ps: nat)
    requires ps >= MIN_PAGE_SIZE && LayoutOf(s, ps).Found?
    ensures LayoutOf(s, ps).value.size >= 2
  {
  }

  /** The code's reading of cell i. */
  lemma StoredRowid(s: seq<Byte>, p: PageNumber, n: Node, i: nat)
    requires Stored(s, p, n) && i < |n.cells|
    ensures CellRowid(s, p, KindFor(n.leaf), i) == Found(n.cells[i].key)
  {
    hide DecodeFrom, VarintLength;
    RowidOfCell(s, Ptr(s, p, n.leaf, i), n.cells[i], n.leaf);
  }

  /** The scan stops where the cell belongs. */
  lemma {:induction false} SortedIndexIs(s: seq<Byte>, p: PageNumber, n: Node, h: Header, rowid: Key, i: nat)
    requires Stored(s, p, n) && Parse(s, p) == Found(h) && i <= |n.cells|
    ensures SortedIndex(s, p, h, rowid, i) == i + InsertPos(n.cells[i..], rowid)
    decreases |n.cells| - i
  {
    hide Stored, CellRowid, Parse;
    assert h.count == |n.cells| && h.kind == KindFor(n.leaf) by {
      StoredHeader(s, p, n);
    }
    if i < |n.cells| {
      StoredRowid(s, p, n, i);
      SortedIndexIs(s, p, n, h, rowid, i + 1);
      assert n.cells[i..][1..] == n.cells[i + 1..];
    }
  }

  lemma StoredHeader(s: seq<Byte>, p: PageNumber, n: Node)
    requires Stored(s, p, n)
    ensures MIN_PAGE_SIZE <= |s| <= 65536
    ensures n.rightmost < 0x1_0000_0000 && |n.cells| < 65535
    ensures Parse(s, p) == Found(Header(KindFor(n.leaf), |n.cells|, n.contentStart, n.rightmost))
    ensures PtrAt(p, n.leaf, |n.cells|) <= n.contentStart <= |s|
  {
  }

  /** A cell whose bytes are untouched. */
  lemma CellKept(s: seq<Byte>, t: seq<Byte>, start: nat, off: nat, c: Cell, leaf: bool)
    requires MIN_PAGE_SIZE <= |s| == |t| && CellAt(s, off, c, leaf) && start <= off
    requires t[start..] == s[start..]
    ensures CellAt(t, off, c, leaf)
  {
    hide CellOk, CellBytes;
    var m := CellSize(c);
    assert forall k :: start <= k < |s| ==> t[k] == t[start..][k - start] == s[k];
    assert t[off..off + m] == s[off..off + m];
  }

  /** Bytes between the pointer array and the cells do not matter. */
  lemma StoredGap(s: seq<Byte>, t: seq<Byte>, p: PageNumber, n: Node)
    requires Stored(s, p, n) && |t| == |s|
    requires forall k :: 0 <= k < PtrAt(p, n.leaf, |n.cells|) ==> t[k] == s[k]
    requires forall k :: n.contentStart <= k < |s| ==> t[k] == s[k]
    ensures Stored(t, p, n)
  {
    assert HeaderIs(t, p, n) by {
      hide CellAt, CellsApart;
    }
    assert t[n.contentStart..] == s[n.contentStart..];
    hide CellAt, HeaderIs;
    forall i | 0 <= i < |n.cells|
      ensures Ptr(t, p, n.leaf, i) == Ptr(s, p, n.leaf, i) && CellAt(t, Ptr(t, p, n.leaf, i), n.cells[i], n.leaf)
    {
      assert PtrAt(p, n.leaf, i) + 2 <= PtrAt(p, n.leaf, |n.cells|);
      CellKept(s, t, n.contentStart, Ptr(s, p, n.leaf, i), n.cells[i], n.leaf);
    }
  }

  /** The page once c, given pointer i, is added to n. */
  function NodePlus(n: Node, c: Cell, i: nat): Node
    requires CellSize(c) <= n.contentStart && i <= |n.cells|
  {
    n.(contentStart := n.contentStart - CellSize(c), cells := n.cells[..i] + [c] + n.cells[i..])
  }

  /** What the bytes t of a page are after `cell` is added to s in front of `start` with pointer i. */
  ghost predicate Zones(s: seq<Byte>, t: seq<Byte>, p: PageNumber, leaf: bool, count: nat, start: nat, cell: seq<Byte>, i: nat)
    requires PtrAt(p, leaf, count + 1) + |cell| <= start <= |s| == |t| && i <= count
  {
    && (forall k :: 0 <= k < HeaderOffset(p) + 3 || HeaderOffset(p) + 7 <= k < PtrAt(p, leaf, i) ==> t[k] == s[k])
    && HalfAt(t, HeaderOffset(p) + 3) == count + 1
    && HalfAt(t, HeaderOffset(p) + 5) == start - |cell|
    && HalfAt(t, PtrAt(p, leaf, i)) == start - |cell|
    && (forall k :: i < k <= count ==> HalfAt(t, PtrAt(p, leaf, k)) == HalfAt(s, PtrAt(p, leaf, k - 1)))
    && t[start - |cell|..start] == cell
    && (forall k :: start <= k < |s| ==> t[k] == s[k])
  }

  lemma PlacedZones(s: seq<Byte>, p: PageNumber, h: Header, cell: seq<Byte>, i: nat)
    requires PtrAt(p, h.kind.IsLeaf(), h.count + 1) + |cell| <= h.start <= |s| && i <= h.count
    requires h.count < 65535 && h.start - |cell| < 65536
    ensures Zones(s, Placed(s, p, h, cell, i), p, h.kind.IsLeaf(), h.count, h.start, cell, i)
  {
    hide Placed, HalfAt;
    var t, leaf := Placed(s, p, h, cell, i), h.kind.IsLeaf();
    PlacedKept(s, p, h, cell, i);
    PlacedHeader(s, p, h, cell, i);
    forall k | i < k <= h.count ensures HalfAt(t, PtrAt(p, leaf, k)) == HalfAt(s, PtrAt(p, leaf, k - 1)) {
      PlacedPtr(s, p, h, cell, i, k);
    }
  }

  /** The bytes in front of the header fields and the pointers, the new cell, and the bytes behind it. */
  lemma PlacedKept(s: seq<Byte>, p: PageNumber, h: Header, cell: seq<Byte>, i: nat)
    requires PtrAt(p, h.kind.IsLeaf(), h.count + 1) + |cell| <= h.start <= |s| && i <= h.count < 65535
    ensures
      var t, leaf := Placed(s, p, h, cell, i), h.kind.IsLeaf();
      && (forall k :: 0 <= k < HeaderOffset(p) + 3 || HeaderOffset(p) + 7 <= k < PtrAt(p, leaf, i) ==> t[k] == s[k])
      && (forall k :: h.start <= k < |s| ==> t[k] == s[k])
      && t[h.start - |cell|..h.start] == cell
  {
    hide Put16;
  }

  /** The header fields and the new pointer. */
  lemma PlacedHeader(s: seq<Byte>, p: PageNumber, h: Header, cell: seq<Byte>, i: nat)
    requires PtrAt(p, h.kind.IsLeaf(), h.count + 1) + |cell| <= h.start <= |s| && i <= h.count
    requires h.count < 65535 && h.start - |cell| < 65536
    ensures
      var t := Placed(s, p, h, cell, i);
      && HalfAt(t, HeaderOffset(p) + 3) == h.count + 1
      && HalfAt(t, HeaderOffset(p) + 5) == h.start - |cell|
      && HalfAt(t, PtrAt(p, h.kind.IsLeaf(), i)) == h.start - |cell|
  {
  }

  lemma PlacedPtr(s: seq<Byte>, p: PageNumber, h: Header, cell: seq<Byte>, i: nat, k: nat)
    requires PtrAt(p, h.kind.IsLeaf(), h.count + 1) + |cell| <= h.start <= |s| && i < k <= h.count < 65535
    ensures
      var leaf := h.kind.IsLeaf();
      HalfAt(Placed(s, p, h, cell, i), PtrAt(p, leaf, k)) == HalfAt(s, PtrAt(p, leaf, k - 1))
  {
    var leaf := h.kind.IsLeaf();
    hide Put16;
    assert PtrAt(p, leaf, i) + 2 <= PtrAt(p, leaf, k) < PtrAt(p, leaf, h.count) + 1;
  }

  lemma ZonesHeader(s: seq<Byte>, t: seq<Byte>, p: PageNumber, n: Node, c: Cell, i: nat)
    requires Stored(s, p, n) && |t| == |s| && Fits(n, p, CellSize(c)) && i <= |n.cells| && CellOk(c, n.leaf, |s|)
    requires |CellBytes(c)| == CellSize(c) >= 2
    requires Zones(s, t, p, n.leaf, |n.cells|, n.contentStart, CellBytes(c), i)
    ensures HeaderIs(t, p, NodePlus(n, c, i))
  {
    hide CellOk, CellBytes, CellsStored, CellsApart;
  }

  /** Pointers in front of number i stay, the others move up by one. */
  predicate PtrMoved(s: seq<Byte>, t: seq<Byte>, p: PageNumber, leaf: bool, at: nat, i: nat, k: nat)
    requires PtrAt(p, leaf, k) + 2 <= |s| == |t|
  {
    Ptr(t, p, leaf, k) == (if k < i then Ptr(s, p, leaf, k) else if k == i then at else Ptr(s, p, leaf, k - 1))
  }

  lemma ZonesPtr(s: seq<Byte>, t: seq<Byte>, p: PageNumber, leaf: bool, count: nat, start: nat, cell: seq<Byte>, i: nat, k: nat)
    requires PtrAt(p, leaf, count + 1) + |cell| <= start <= |s| == |t| && i <= count && k <= count
    requires Zones(s, t, p, leaf, count, start, cell, i)
    ensures PtrAt(p, leaf, k) + 2 <= |t|
    ensures PtrMoved(s, t, p, leaf, start - |cell|, i, k)
    ensures k < i ==> Ptr(t, p, leaf, k) == Ptr(s, p, leaf, k)
    ensures k == i ==> Ptr(t, p, leaf, k) == start - |cell|
    ensures k > i ==> Ptr(t, p, leaf, k) == Ptr(s, p, leaf, k - 1)
  {
    assert PtrAt(p, leaf, k) + 2 <= PtrAt(p, leaf, count + 1);
    if k < i {
      assert HeaderOffset(p) + 7 <= PtrAt(p, leaf, k) && PtrAt(p, leaf, k) + 2 <= PtrAt(p, leaf, i);
    }
  }

  /** The cell with number k. */
  lemma ZonesCell(s: seq<Byte>, t: seq<Byte>, p: PageNumber, n: Node, c: Cell, i: nat, k: nat)
    requires Stored(s, p, n) && |t| == |s| && Fits(n, p, CellSize(c)) && i <= |n.cells| && CellOk(c, n.leaf, |s|)
    requires Zones(s, t, p, n.leaf, |n.cells|, n.contentStart, CellBytes(c), i) && k <= |n.cells|
    ensures PtrAt(p, n.leaf, k) + 2 <= |t|
    ensures CellAt(t, Ptr(t, p, n.leaf, k), NodePlus(n, c, i).cells[k], n.leaf)
  {
    hide *;
    StoredHeader(s, p, n);
    CellOkSize(c, n.leaf, |s|);
    FitsSpace(n, p, CellSize(c));
    PlusCell(n, c, i, k);
    ghost var d := NodePlus(n, c, i).cells[k];
    ZonesPtr(s, t, p, n.leaf, |n.cells|, n.contentStart, CellBytes(c), i, k);
    var at := Ptr(t, p, n.leaf, k);
    if k < i {
      ZonesOld(s, t, p, n, CellBytes(c), i, k);
      assert CellAt(t, at, d, n.leaf);
    } else if k == i {
      ZonesNew(s, t, p, n.leaf, |n.cells|, n.contentStart, c, i);
      assert CellAt(t, at, d, n.leaf);
    } else {
      ZonesOld(s, t, p, n, CellBytes(c), i, k - 1);
      assert CellAt(t, at, d, n.leaf);
    }
  }

  /** An old cell is still where it was. */
  lemma ZonesOld(s: seq<Byte>, t: seq<Byte>, p: PageNumber, n: Node, cell: seq<Byte>, i: nat, j: nat)
    requires Stored(s, p, n) && |t| == |s| && PtrAt(p, n.leaf, |n.cells| + 1) + |cell| <= n.contentStart <= |s| && i <= |n.cells|
    requires Zones(s, t, p, n.leaf, |n.cells|, n.contentStart, cell, i) && j < |n.cells|
    ensures PtrAt(p, n.leaf, j) + 2 <= |s| && CellAt(t, Ptr(s, p, n.leaf, j), n.cells[j], n.leaf)
  {
    StoredHeader(s, p, n);
    hide *;
    ZonesKept(s, t, p, n.leaf, |n.cells|, n.contentStart, cell, i);
    StoredCell(s, p, n, j);
    CellKept(s, t, n.contentStart, Ptr(s, p, n.leaf, j), n.cells[j], n.leaf);
  }

  lemma FitsSpace(n: Node, p: PageNumber, size: nat)
    requires Fits(n, p, size)
    ensures PtrAt(p, n.leaf, |n.cells| + 1) + size <= n.contentStart
  {
  }

  lemma PlusCell(n: Node, c: Cell, i: nat, k: nat)
    requires CellSize(c) <= n.contentStart && i <= |n.cells| && k <= |n.cells|
    ensures |NodePlus(n, c, i).cells| == |n.cells| + 1 && NodePlus(n, c, i).contentStart == n.contentStart - CellSize(c)
    ensures NodePlus(n, c, i).cells[k] == if k < i then n.cells[k] else if k == i then c else n.cells[k - 1]
  {
    hide CellSize;
  }

  lemma StoredCell(s: seq<Byte>, p: PageNumber, n: Node, k: nat)
    requires Stored(s, p, n) && k < |n.cells|
    ensures PtrAt(p, n.leaf, k) + 2 <= PtrAt(p, n.leaf, |n.cells|) <= |s|
    ensures Ptr(s, p, n.leaf, k) >= n.contentStart && CellAt(s, Ptr(s, p, n.leaf, k), n.cells[k], n.leaf)
  {
    hide CellAt, HeaderIs, CellsApart;
  }

  lemma ZonesKept(s: seq<Byte>, t: seq<Byte>, p: PageNumber, leaf: bool, count: nat, start: nat, cell: seq<Byte>, i: nat)
    requires PtrAt(p, leaf, count + 1) + |cell| <= start <= |s| == |t| && i <= count
    requires Zones(s, t, p, leaf, count, start, cell, i)
    ensures t[start..] == s[start..]
  {
  }

  lemma ZonesNew(s: seq<Byte>, t: seq<Byte>, p: PageNumber, leaf: bool, count: nat, start: nat, c: Cell, i: nat)
    requires MIN_PAGE_SIZE <= |s| == |t| && CellOk(c, leaf, |s|) && PtrAt(p, leaf, count + 1) + CellSize(c) <= start <= |s| && i <= count
    requires Zones(s, t, p, leaf, count, start, CellBytes(c), i)
    ensures CellAt(t, start - CellSize(c), c, leaf)
  {
  }

  lemma CellOkSize(c: Cell, leaf: bool, ps: nat)
    requires ps >= MIN_PAGE_SIZE && CellOk(c, leaf, ps)
    ensures c.Divider? ==> c.child < 0x1_0000_0000
    ensures 2 <= CellSize(c) == |CellBytes(c)|
  {
    if c.Row? {
      LayoutSize(c.bytes, ps);
    }
  }

  ghost predicate PtrsMoved(s: seq<Byte>, t: seq<Byte>, p: PageNumber, n: Node, at: nat, i: nat)
    requires PtrAt(p, n.leaf, |n.cells| + 1) <= |s| == |t|
  {
    forall k :: 0 <= k <= |n.cells| ==> PtrMoved(s, t, p, n.leaf, at, i, k)
  }

  lemma ZonesPtrs(s: seq<Byte>, t: seq<Byte>, p: PageNumber, n: Node, cell: seq<Byte>, i: nat)
    requires PtrAt(p, n.leaf, |n.cells| + 1) + |cell| <= n.contentStart <= |s| == |t| && i <= |n.cells|
    requires Zones(s, t, p, n.leaf, |n.cells|, n.contentStart, cell, i)
    ensures PtrsMoved(s, t, p, n, n.contentStart - |cell|, i)
  {
    hide PtrMoved;
    var at := n.contentStart - |cell|;
    forall k | 0 <= k <= |n.cells| ensures PtrMoved(s, t, p, n.leaf, at, i, k) {
      ZonesPtr(s, t, p, n.leaf, |n.cells|, n.contentStart, cell, i, k);
    }
  }

  /** Cells that were apart still are, and the new one lies below all of them. */
  lemma PlacedApart(s: seq<Byte>, t: seq<Byte>, p: PageNumber, n: Node, c: Cell, i: nat)
    requires |t| == |s| >= MIN_PAGE_SIZE && i <= |n.cells|
    requires PtrAt(p, n.leaf, |n.cells| + 1) + CellSize(c) <= n.contentStart <= |s|
    requires CellsStored(s, p, n) && CellsApart(s, p, n) && PtrsMoved(s, t, p, n, n.contentStart - CellSize(c), i)
    ensures CellsApart(t, p, NodePlus(n, c, i))
  {
    hide CellAt, HalfAt, CellSize, PtrAt;
    var m, at := NodePlus(n, c, i), n.contentStart - CellSize(c);
    forall a, b | 0 <= a < b < |m.cells|
      ensures PtrAt(p, n.leaf, a) + 2 <= |t| && PtrAt(p, n.leaf, b) + 2 <= |t|
      ensures Apart(Ptr(t, p, n.leaf, a), CellSize(m.cells[a]), Ptr(t, p, n.leaf, b), CellSize(m.cells[b]))
    {
      PtrAtIn(p, n.leaf, |m.cells|, a);
      PtrAtIn(p, n.leaf, |m.cells|, b);
      assert PtrMoved(s, t, p, n.leaf, at, i, a) && PtrMoved(s, t, p, n.leaf, at, i, b);
      var j: nat, k: nat := if a <= i then a else a - 1, if b <= i then b else b - 1;
      PtrAtIn(p, n.leaf, |m.cells|, j);
      PtrAtIn(p, n.leaf, |m.cells|, k);
      assert a != i ==> m.cells[a] == n.cells[j] && Ptr(s, p, n.leaf, j) >= n.contentStart;
      assert b != i ==> m.cells[b] == n.cells[k] && Ptr(s, p, n.leaf, k) >= n.contentStart;
    }
  }

  lemma PtrAtIn(p: PageNumber, leaf: bool, count: nat, k: nat)
    requires k < count
    ensures PtrAt(p, leaf, k) + 2 <= PtrAt(p, leaf, count)
  {
  }

  /** Putting a valid cell on a well-formed page adds exactly that cell to what the page decodes to. */
  lemma PlacedStored(s: seq<Byte>, p: PageNumber, n: Node, h: Header, c: Cell, i: nat)
    requires Stored(s, p, n) && Parse(s, p) == Found(h) && CellOk(c, n.leaf, |s|)
    requires Fits(n, p, CellSize(c)) && i <= |n.cells|
    ensures h.count == |n.cells| && h.start == n.contentStart && h.kind.IsLeaf() == n.leaf && |n.cells| < 65535
    ensures c.Divider? ==> c.child < 0x1_0000_0000
    ensures Stored(Placed(s, p, h, CellBytes(c), i), p, NodePlus(n, c, i))
  {
    hide CellOk, Placed, CellBytes, Zones, HeaderIs, Parse, CellAt, PtrsMoved, CellsApart, Ptr;
    StoredHeader(s, p, n);
    CellOkSize(c, n.leaf, |s|);
    var t, m := Placed(s, p, h, CellBytes(c), i), NodePlus(n, c, i);
    PlacedZones(s, p, h, CellBytes(c), i);
    ZonesHeader(s, t, p, n, c, i);
    ZonesPtrs(s, t, p, n, CellBytes(c), i);
    PlacedApart(s, t, p, n, c, i);
    ZonesCells(s, t, p, n, c, i);
  }

  lemma ZonesCells(s: seq<Byte>, t: seq<Byte>, p: PageNumber, n: Node, c: Cell, i: nat)
    requires Stored(s, p, n) && |t| == |s| && Fits(n, p, CellSize(c)) && i <= |n.cells| && CellOk(c, n.leaf, |s|)
    requires Zones(s, t, p, n.leaf, |n.cells|, n.contentStart, CellBytes(c), i) && PtrsMoved(s, t, p, n, n.contentStart - CellSize(c), i)
    ensures PointersIn(t, p, NodePlus(n, c, i)) && CellsStored(t, p, NodePlus(n, c, i))
  {
    hide CellOk, CellBytes, Zones, HeaderIs, CellAt, CellsApart, HalfAt;
    var m := NodePlus(n, c, i);
    forall k | 0 <= k < |m.cells|
      ensures Ptr(t, p, n.leaf, k) >= m.contentStart && CellAt(t, Ptr(t, p, n.leaf, k), m.cells[k], n.leaf)
    {
      ZonesCell(s, t, p, n, c, i, k);
      assert PtrMoved(s, t, p, n.leaf, m.contentStart, i, k);
      assert k != i ==> Ptr(s, p, n.leaf, if k < i then k else k - 1) >= n.contentStart;
    }
  }

  // ---- Insertion ----

  /**
    On a well-formed page, insertion reports PageFull exactly when the pointer array would meet the cell;
    otherwise it yields a well-formed page with the new cell in sorted position and every old cell intact.
   */
  lemma InsertStored(s: seq<Byte>, p: PageNumber, n: Node, c: Cell)
    requires Stored(s, p, n) && CellOk(c, n.leaf, |s|)
    ensures c.Divider? ==> c.child < 0x1_0000_0000
    ensures !Fits(n, p, CellSize(c)) ==> InsertResult(s, p, CellBytes(c), c.key) == Failed(PageFull)
    ensures Fits(n, p, CellSize(c)) ==>
      match InsertResult(s, p, CellBytes(c), c.key)
      case Failed(_) => false
      case Found(t) => Stored(t, p, WithCell(n, c)) && |t| == |s| && t[n.contentStart..] == s[n.contentStart..]
  {
    hide CellOk, CellBytes, Placed, Parse, Stored, SortedIndex, Overwritten, Zones, Fits, PtrAt, InsertPos;
    StoredHeader(s, p, n);
    CellOkSize(c, n.leaf, |s|);
    FitsIff(n, p, CellSize(c));
    if Fits(n, p, CellSize(c)) {
      var h := Parse(s, p).value;
      var w := Overwritten(s, n.contentStart - CellSize(c), CellBytes(c));
      GapWritten(s, p, n, c);
      SortedIndexIs(w, p, n, h, c.key, 0);
      assert n.cells[0..] == n.cells;
      var i := InsertPos(n.cells, c.key);
      PlacedStored(s, p, n, h, c, i);
      assert NodePlus(n, c, i) == WithCell(n, c);
      PlacedKept(s, p, h, CellBytes(c), i);
    }
  }

  lemma FitsIff(n: Node, p: PageNumber, size: nat)
    ensures Fits(n, p, size) <==> PtrAt(p, n.leaf, |n.cells| + 1) + size <= n.contentStart
  {
  }

  lemma PtrAtNext(p: PageNumber, leaf: bool, i: nat)
    ensures PtrAt(p, leaf, i + 1) == PtrAt(p, leaf, i) + 2
  {
  }

  lemma OverwrittenKept(s: seq<Byte>, at: nat, b: seq<Byte>)
    requires at + |b| <= |s|
    ensures forall k :: 0 <= k < at || at + |b| <= k < |s| ==> Overwritten(s, at, b)[k] == s[k]
  {
  }

  /** Writing the new cell's bytes alone changes nothing that is decoded. */
  lemma GapWritten(s: seq<Byte>, p: PageNumber, n: Node, c: Cell)
    requires Stored(s, p, n) && CellOk(c, n.leaf, |s|) && Fits(n, p, CellSize(c))
    requires n.contentStart <= |s| && (c.Divider? ==> c.child < 0x1_0000_0000)
    ensures Stored(Overwritten(s, n.contentStart - CellSize(c), CellBytes(c)), p, n)
    ensures Parse(Overwritten(s, n.contentStart - CellSize(c), CellBytes(c)), p) == Parse(s, p)
  {
    CellOkSize(c, n.leaf, |s|);
    StoredHeader(s, p, n);
    FitsSpace(n, p, CellSize(c));
    PtrAtNext(p, n.leaf, |n.cells|);
    hide *;
    var at, b := n.contentStart - CellSize(c), CellBytes(c);
    var w := Overwritten(s, at, b);
    OverwrittenKept(s, at, b);
    StoredGap(s, w, p, n);
    StoredHeader(w, p, n);
  }

  // ---- Deleting a cell ----

  /** Byte k once the pointers in (at, end) have moved down over the one at `at`, and the count is updated. */
  function ByteDeleted(s: seq<Byte>, ho: nat, at: nat, end: nat, count: seq<Byte>, k: nat): Byte
    requires at + 2 <= end <= |s| && k < |s| && |count| == 2
  {
    if ho + 3 <= k < ho + 5 then count[k - (ho + 3)]
    else if at <= k < end - 2 then s[k + 2]
    else s[k]
  }

  function Removed(s: seq<Byte>, p: PageNumber, h: Header, i: nat): (t: seq<Byte>)
    requires i < h.count && PtrAt(p, h.kind.IsLeaf(), h.count) <= |s|
    ensures |t| == |s|
  {
    var at, end := PtrAt(p, h.kind.IsLeaf(), i), PtrAt(p, h.kind.IsLeaf(), h.count);
    seq(|s|, k requires 0 <= k < |s| => ByteDeleted(s, HeaderOffset(p), at, end, Put16(h.count - 1), k))
  }

  /** The page after dropping pointer i, or why it is not dropped; an array that runs off the page is left to the caller. */
  function DeleteResult(s: seq<Byte>, p: PageNumber, i: nat): CellResult<seq<Byte>> {
    match Parse(s, p)
    case Failed(e) => Failed(e)
    case Found(h) => if i >= h.count || PtrAt(p, h.kind.IsLeaf(), h.count) > |s| then Failed(Corrupt) else Found(Removed(s, p, h, i))
  }

  method DeleteCell(data: array<Byte>, p: PageNumber, i: nat) returns (r: CellResult<()>)
    modifies data
    ensures
      match DeleteResult(old(data[..]), p, i)
      case Failed(e) => r == Failed(e) && data[..] == old(data[..])
      case Found(s) => r == Found(()) && data[..] == s
  {
    hide Parse, Put16;
    var parsed := Parse(data[..], p);
    if parsed.Failed? {
      return Failed(parsed.error);
    }
    var h := parsed.value;
    var ho, leaf, count: nat := HeaderOffset(p), h.kind.IsLeaf(), h.count;
    if i >= count || PtrAt(p, leaf, count) > data.Length {
      return Failed(Corrupt);
    }
    var at, end, counter := PtrAt(p, leaf, i), PtrAt(p, leaf, count), Put16(count - 1);
    forall k | at <= k < end - 2 { data[k] := data[k + 2]; }
    data[ho + 3], data[ho + 4] := counter[0], counter[1];
    assert data[..] == Removed(old(data[..]), p, h, i);
    r := Found(());
  }

  lemma RemovedZones(s: seq<Byte>, p: PageNumber, h: Header, i: nat)
    requires i < h.count && PtrAt(p, h.kind.IsLeaf(), h.count) <= |s|
    ensures
      var t, leaf := Removed(s, p, h, i), h.kind.IsLeaf();
      && (forall k :: 0 <= k < HeaderOffset(p) + 3 || HeaderOffset(p) + 5 <= k < PtrAt(p, leaf, i) ==> t[k] == s[k])
      && HalfAt(t, HeaderOffset(p) + 3) == h.count - 1
      && (forall k: nat :: PtrAt(p, leaf, h.count) - 2 <= k < |s| ==> t[k] == s[k])
  {
  }

  /** Pointers in front of number i stay, the others move down by one. */
  lemma RemovedPtr(s: seq<Byte>, p: PageNumber, h: Header, i: nat, k: nat)
    requires i < h.count && PtrAt(p, h.kind.IsLeaf(), h.count) <= |s| && k < h.count - 1
    ensures PtrAt(p, h.kind.IsLeaf(), k) + 4 <= |s|
    ensures
      var leaf := h.kind.IsLeaf();
      Ptr(Removed(s, p, h, i), p, leaf, k) == if k < i then Ptr(s, p, leaf, k) else Ptr(s, p, leaf, k + 1)
  {
    hide Put16;
    var leaf := h.kind.IsLeaf();
    assert HeaderOffset(p) + 5 <= PtrAt(p, leaf, k) && PtrAt(p, leaf, k) + 4 <= PtrAt(p, leaf, h.count);
    if k < i {
      assert PtrAt(p, leaf, k) + 2 <= PtrAt(p, leaf, i);
    }
  }

  /**
    On a well-formed page, deletion drops exactly cell i from what the page decodes to: the other cells
    keep their bytes and places, and no cell space is given back.
   */
  lemma DeleteStored(s: seq<Byte>, p: PageNumber, n: Node, i: nat)
    requires Stored(s, p, n)
    ensures i >= |n.cells| ==> DeleteResult(s, p, i) == Failed(Corrupt)
    ensures i < |n.cells| ==>
      match DeleteResult(s, p, i)
      case Failed(_) => false
      case Found(t) => Stored(t, p, WithoutCell(n, i)) && |t| == |s| && t[n.contentStart..] == s[n.contentStart..]
  {
    StoredHeader(s, p, n);
    if i < |n.cells| {
      hide CellOk, CellBytes, Parse, Stored, Removed, HalfAt;
      RemovedStored(s, p, n, Parse(s, p).value, i);
    }
  }

  predicate PtrDropped(s: seq<Byte>, t: seq<Byte>, p: PageNumber, leaf: bool, i: nat, k: nat)
    requires PtrAt(p, leaf, k) + 4 <= |s| == |t|
  {
    Ptr(t, p, leaf, k) == if k < i then Ptr(s, p, leaf, k) else Ptr(s, p, leaf, k + 1)
  }

  lemma RemovedCell(s: seq<Byte>, t: seq<Byte>, p: PageNumber, n: Node, h: Header, i: nat, k: nat)
    requires Stored(s, p, n) && Parse(s, p) == Found(h) && i < |n.cells| && k + 1 < |n.cells|
    requires h.count == |n.cells| && h.kind == KindFor(n.leaf) && PtrAt(p, n.leaf, h.count) <= |s| && t == Removed(s, p, h, i)
    requires t[n.contentStart..] == s[n.contentStart..]
    ensures PtrAt(p, n.leaf, k) + 4 <= |s| && PtrDropped(s, t, p, n.leaf, i, k)
    ensures Ptr(t, p, n.leaf, k) >= n.contentStart && CellAt(t, Ptr(t, p, n.leaf, k), n.cells[if k < i then k else k + 1], n.leaf)
  {
    StoredHeader(s, p, n);
    hide Stored, Parse, CellAt, HalfAt, Removed;
    var j := if k < i then k else k + 1;
    RemovedPtr(s, p, h, i, k);
    StoredCell(s, p, n, j);
    CellKept(s, t, n.contentStart, Ptr(s, p, n.leaf, j), n.cells[j], n.leaf);
  }

  lemma DroppedApart(s: seq<Byte>, t: seq<Byte>, p: PageNumber, n: Node, i: nat)
    requires |t| == |s| && i < |n.cells| && PointersIn(s, p, n) && CellsApart(s, p, n) && PointersIn(t, p, WithoutCell(n, i))
    requires forall k: nat :: k + 1 < |n.cells| ==> PtrAt(p, n.leaf, k) + 4 <= |s| && PtrDropped(s, t, p, n.leaf, i, k)
    ensures CellsApart(t, p, WithoutCell(n, i))
  {
    hide HalfAt;
    var m := WithoutCell(n, i);
    forall a, b | 0 <= a < b < |m.cells|
      ensures Apart(Ptr(t, p, n.leaf, a), CellSize(m.cells[a]), Ptr(t, p, n.leaf, b), CellSize(m.cells[b]))
    {
      assert PtrDropped(s, t, p, n.leaf, i, a) && PtrDropped(s, t, p, n.leaf, i, b);
      var j, k := if a < i then a else a + 1, if b < i then b else b + 1;
      assert m.cells[a] == n.cells[j] && m.cells[b] == n.cells[k];
    }
  }

  lemma RemovedHeader(s: seq<Byte>, p: PageNumber, n: Node, h: Header, i: nat)
    requires Stored(s, p, n) && Parse(s, p) == Found(h) && i < |n.cells|
    requires h.count == |n.cells| && h.kind == KindFor(n.leaf) && PtrAt(p, n.leaf, h.count) <= |s|
    ensures HeaderIs(Removed(s, p, h, i), p, WithoutCell(n, i))
  {
    RemovedZones(s, p, h, i);
    hide CellsStored, CellsApart, Removed;
  }

  lemma RemovedKept(s: seq<Byte>, p: PageNumber, h: Header, i: nat, start: nat)
    requires i < h.count && PtrAt(p, h.kind.IsLeaf(), h.count) <= start <= |s|
    ensures Removed(s, p, h, i)[start..] == s[start..]
  {
    RemovedZones(s, p, h, i);
    hide Removed;
  }

  ghost predicate CellHeld(s: seq<Byte>, p: PageNumber, n: Node, k: nat)
    requires |s| >= MIN_PAGE_SIZE
  {
    && k < |n.cells| && PtrAt(p, n.leaf, k) + 2 <= |s|
    && Ptr(s, p, n.leaf, k) >= n.contentStart && CellAt(s, Ptr(s, p, n.leaf, k), n.cells[k], n.leaf)
  }

  lemma AllHeld(s: seq<Byte>, p: PageNumber, n: Node)
    requires |s| >= MIN_PAGE_SIZE && PointersIn(s, p, n) && forall k: nat :: k < |n.cells| ==> CellHeld(s, p, n, k)
    ensures CellsStored(s, p, n)
  {
    hide CellAt, Ptr;
    forall k | 0 <= k < |n.cells| ensures Ptr(s, p, n.leaf, k) >= n.contentStart && CellAt(s, Ptr(s, p, n.leaf, k), n.cells[k], n.leaf) {
      assert CellHeld(s, p, n, k);
    }
  }

  lemma RemovedCells(s: seq<Byte>, t: seq<Byte>, p: PageNumber, n: Node, h: Header, i: nat)
    requires Stored(s, p, n) && Parse(s, p) == Found(h) && i < |n.cells|
    requires h.count == |n.cells| && h.kind == KindFor(n.leaf) && PtrAt(p, n.leaf, h.count) <= n.contentStart <= |s| && t == Removed(s, p, h, i)
    ensures PointersIn(t, p, WithoutCell(n, i)) && CellsStored(t, p, WithoutCell(n, i))
    ensures forall k: nat :: k + 1 < |n.cells| ==> PtrAt(p, n.leaf, k) + 4 <= |s| && PtrDropped(s, t, p, n.leaf, i, k)
  {
    StoredHeader(s, p, n);
    RemovedKept(s, p, h, i, n.contentStart);
    WithoutFields(n, i);
    WithoutPointers(t, p, n, i);
    hide *;
    var m := WithoutCell(n, i);
    forall k: nat | k < |m.cells|
      ensures PtrAt(p, n.leaf, k) + 4 <= |s| && PtrDropped(s, t, p, n.leaf, i, k) && CellHeld(t, p, m, k)
    {
      RemovedCell(s, t, p, n, h, i, k);
      RemovedHeld(s, t, p, n, i, k);
    }
    AllHeld(t, p, m);
  }

  lemma RemovedHeld(s: seq<Byte>, t: seq<Byte>, p: PageNumber, n: Node, i: nat, k: nat)
    requires MIN_PAGE_SIZE <= |s| == |t| && i < |n.cells| && k + 1 < |n.cells| && PtrAt(p, n.leaf, k) + 4 <= |s|
    requires Ptr(t, p, n.leaf, k) >= n.contentStart && CellAt(t, Ptr(t, p, n.leaf, k), n.cells[if k < i then k else k + 1], n.leaf)
    ensures CellHeld(t, p, WithoutCell(n, i), k)
  {
    hide CellAt, HalfAt;
    WithoutAt(n, i, k);
  }

  lemma WithoutPointers(t: seq<Byte>, p: PageNumber, n: Node, i: nat)
    requires i < |n.cells| && PtrAt(p, n.leaf, |n.cells|) <= n.contentStart <= |t|
    ensures PointersIn(t, p, WithoutCell(n, i))
  {
  }

  lemma WithoutFields(n: Node, i: nat)
    requires i < |n.cells|
    ensures var m := WithoutCell(n, i); |m.cells| == |n.cells| - 1 && m.leaf == n.leaf && m.contentStart == n.contentStart
  {
  }

  lemma WithoutAt(n: Node, i: nat, k: nat)
    requires i < |n.cells| && k + 1 < |n.cells|
    ensures |WithoutCell(n, i).cells| == |n.cells| - 1 && WithoutCell(n, i).cells[k] == n.cells[if k < i then k else k + 1]
  {
  }

  lemma RemovedStored(s: seq<Byte>, p: PageNumber, n: Node, h: Header, i: nat)
    requires Stored(s, p, n) && Parse(s, p) == Found(h) && i < |n.cells|
    ensures h.count == |n.cells| && PtrAt(p, h.kind.IsLeaf(), h.count) <= |s|
    ensures Stored(Removed(s, p, h, i), p, WithoutCell(n, i))
    ensures n.contentStart <= |s| && Removed(s, p, h, i)[n.contentStart..] == s[n.contentStart..]
  {
    StoredHeader(s, p, n);
    var t := Removed(s, p, h, i);
    RemovedKept(s, p, h, i, n.contentStart);
    RemovedHeader(s, p, n, h, i);
    RemovedCells(s, t, p, n, h, i);
    hide Parse, HeaderIs, Removed, CellsStored, CellsApart, PtrDropped;
    DroppedApart(s, t, p, n, i);
  }

  // ---- Reading all cells ----

  datatype RawCell = RawCell(rowid: Key, bytes: seq<Byte>)

  /** The cell with number i, cut out of the page. */
  function RawAt(s: seq<Byte>, p: PageNumber, kind: Kind, i: nat): CellResult<RawCell>
    requires |s| >= MIN_PAGE_SIZE
  {
    var at := PtrAt(p, kind.IsLeaf(), i);
    if at + 2 > |s| || HalfAt(s, at) >= |s| then Failed(Corrupt)
    else
      var cell := s[HalfAt(s, at)..];
      match kind
      case TableLeaf => (
        match LayoutOf(cell, |s|)
        case Failed(e) => Failed(e)
        case Found(l) => if l.size > |cell| then Failed(Corrupt) else Found(RawCell(l.rowid, cell[..l.size])))
      case TableInterior => (
        if |cell| < 4 then Failed(Corrupt)
        else
          match DecodeFrom(cell[4..], 0, 0)
          case Err(_) => Failed(Corrupt)
          case Ok(b) => Found(RawCell(b.value, cell[..4 + b.size])))
      case _ => Failed(Corrupt)
  }

  /** The cells from number i on. */
  function RawFrom(s: seq<Byte>, p: PageNumber, h: Header, i: nat): CellResult<seq<RawCell>>
    requires |s| >= MIN_PAGE_SIZE && i <= h.count
    decreases h.count - i
  {
    if i == h.count then Found([])
    else
      match RawAt(s, p, h.kind, i)
      case Failed(e) => Failed(e)
      case Found(c) => Prepended(c, RawFrom(s, p, h, i + 1))
  }

  function RawCells(s: seq<Byte>, p: PageNumber): CellResult<seq<RawCell>>
    requires |s| >= MIN_PAGE_SIZE
  {
    match Parse(s, p) case Failed(e) => Failed(e) case Found(h) => RawFrom(s, p, h, 0)
  }

  function Prepended(c: RawCell, r: CellResult<seq<RawCell>>): CellResult<seq<RawCell>> {
    match r case Failed(e) => Failed(e) case Found(more) => Found([c] + more)
  }

  function Joined(done: seq<RawCell>, r: CellResult<seq<RawCell>>): CellResult<seq<RawCell>> {
    match r case Failed(e) => Failed(e) case Found(more) => Found(done + more)
  }

  lemma JoinedStep(done: seq<RawCell>, c: RawCell, r: CellResult<seq<RawCell>>)
    ensures Joined(done, Prepended(c, r)) == Joined(done + [c], r)
    ensures Joined([], r) == r
  {
    if r.Found? {
      assert done + ([c] + r.value) == done + [c] + r.value;
      assert [] + r.value == r.value;
    }
  }

  /** The loop with which a split reads its page. */
  method ReadCells(data: seq<Byte>, p: PageNumber) returns (r: CellResult<seq<RawCell>>)
    requires |data| >= MIN_PAGE_SIZE
    ensures r == RawCells(data, p)
  {
    hide RawAt, Parse;
    var parsed := Parse(data, p);
    if parsed.Failed? {
      return Failed(parsed.error);
    }
    var h, cells: seq<RawCell> := parsed.value, [];
    JoinedStep([], RawCell(0, []), RawFrom(data, p, h, 0));
    var i := 0;
    while i < h.count
      invariant i <= h.count
      invariant RawFrom(data, p, h, 0) == Joined(cells, RawFrom(data, p, h, i))
    {
      var c := RawAt(data, p, h.kind, i);
      if c.Failed? {
        return Failed(c.error);
      }
      JoinedStep(cells, c.value, RawFrom(data, p, h, i + 1));
      cells := cells + [c.value];
      i := i + 1;
    }
    assert cells + [] == cells;
    r := Found(cells);
  }

  function RawOf(c: Cell): RawCell
    requires c.Divider? ==> c.child < 0x1_0000_0000
  {
    RawCell(c.key, CellBytes(c))
  }

  lemma StoredRaw(s: seq<Byte>, p: PageNumber, n: Node, i: nat)
    requires Stored(s, p, n) && i < |n.cells|
    ensures n.cells[i].Divider? ==> n.cells[i].child < 0x1_0000_0000
    ensures RawAt(s, p, KindFor(n.leaf), i) == Found(RawOf(n.cells[i]))
  {
    hide DecodeFrom, LayoutOf, VarintLength, CellBytes;
    var off, c := Ptr(s, p, n.leaf, i), n.cells[i];
    RowidOfCell(s, off, c, n.leaf);
    assert s[off..][..CellSize(c)] == s[off..off + CellSize(c)];
  }

  /** A well-formed page is read as exactly the cells it stores, in order. */
  lemma {:induction false} StoredCells(s: seq<Byte>, p: PageNumber, n: Node, h: Header, i: nat)
    requires Stored(s, p, n) && Parse(s, p) == Found(h) && i <= |n.cells|
    ensures |n.cells| == h.count && |s| >= MIN_PAGE_SIZE
    ensures
      match RawFrom(s, p, h, i)
      case Failed(_) => false
      case Found(cells) => |cells| == |n.cells| - i && forall k :: i <= k < |n.cells| ==>
        (n.cells[k].Divider? ==> n.cells[k].child < 0x1_0000_0000) && cells[k - i] == RawOf(n.cells[k])
    decreases |n.cells| - i
  {
    hide Stored, RawAt, Parse, RawOf;
    StoredHeader(s, p, n);
    if i < |n.cells| {
      StoredRaw(s, p, n, i);
      StoredCells(s, p, n, h, i + 1);
    }
  }

  /** A page of bytes decodes in one way only. */
  lemma StoredUnique(s: seq<Byte>, p: PageNumber, n: Node, m: Node)
    requires Stored(s, p, n) && Stored(s, p, m)
    ensures n == m
  {
    hide RawAt, CellAt, RawOf, CellOk, CellBytes, Parse, Stored, RawFrom;
    StoredHeader(s, p, n);
    StoredHeader(s, p, m);
    StoredCells(s, p, n, Parse(s, p).value, 0);
    StoredCells(s, p, m, Parse(s, p).value, 0);
    forall k | 0 <= k < |n.cells| ensures n.cells[k] == m.cells[k] {
      StoredCell(s, p, n, k);
      StoredCell(s, p, m, k);
      RawUnique(n.cells[k], m.cells[k], s, Ptr(s, p, n.leaf, k), n.leaf);
    }
  }

  lemma RawUnique(c: Cell, d: Cell, s: seq<Byte>, off: nat, leaf: bool)
    requires |s| >= MIN_PAGE_SIZE && CellAt(s, off, c, leaf) && CellAt(s, off, d, leaf)
    requires RawOf(c) == RawOf(d)
    ensures c == d
  {
    if c.Divider? {
      PutGet32(c.child, Encoded(c.key));
      PutGet32(d.child, Encoded(d.key));
    }
  }

  // ---- Rewriting a page ----

  /** An empty page of the given kind; for an interior page, with its rightmost child. */
  method InitPage(data: array<Byte>, p: PageNumber, leaf: bool, rightmost: Word)
    requires MIN_PAGE_SIZE <= data.Length <= 65535
    modifies data
    ensures Stored(data[..], p, Node(leaf, data.Length, [], if leaf then 0 else rightmost))
  {
    var ho, start := HeaderOffset(p), Put16(data.Length);
    data[ho] := if leaf then TABLE_LEAF else TABLE_INTERIOR;
    data[ho + 3], data[ho + 4] := 0, 0;
    data[ho + 5], data[ho + 6] := start[0], start[1];
    data[ho + 7] := 0;
    if !leaf {
      var w := Put32(rightmost);
      data[ho + 8], data[ho + 9], data[ho + 10], data[ho + 11] := w[0], w[1], w[2], w[3];
      PutGet32(rightmost, []);
      assert data[..][ho + 8..ho + 12] == w + [];
    }
  }

  /** The page that holds the given cells and nothing else. */
  function Full(cells: seq<Cell>, leaf: bool, rightmost: Word, ps: nat): Node
    requires TotalSize(cells) <= ps
  {
    Node(leaf, ps - TotalSize(cells), cells, if leaf then 0 else rightmost)
  }

  /** The space the first cells take, pointers included. */
  function Space(cells: seq<Cell>, leaf: bool, p: PageNumber): nat {
    HeaderOffset(p) + HeaderSize(leaf) + 2 * |cells| + TotalSize(cells)
  }

  lemma FullNext(cells: seq<Cell>, i: nat, leaf: bool, rightmost: Word, p: PageNumber, ps: nat)
    requires SortedCells(cells) && i < |cells| && Space(cells[..i], leaf, p) <= ps
    ensures Space(cells[..i + 1], leaf, p) == Space(cells[..i], leaf, p) + 2 + CellSize(cells[i]) <= Space(cells, leaf, p)
    ensures TotalSize(cells[..i + 1]) <= Space(cells[..i + 1], leaf, p)
    ensures Fits(Full(cells[..i], leaf, rightmost, ps), p, CellSize(cells[i])) <==> Space(cells[..i + 1], leaf, p) <= ps
    ensures Space(cells[..i + 1], leaf, p) <= ps ==>
      WithCell(Full(cells[..i], leaf, rightmost, ps), cells[i]) == Full(cells[..i + 1], leaf, rightmost, ps)
  {
    hide CellSize, TotalSize, Inserted, SortedCells;
    TotalNext(cells, i);
    AppendedCell(cells, i);
  }

  /** Rewrite the whole page with sorted cells: it succeeds exactly when they fit. */
  method WriteCells(data: array<Byte>, p: PageNumber, cells: seq<Cell>, leaf: bool, rightmost: Word) returns (r: CellResult<()>)
    requires MIN_PAGE_SIZE <= data.Length <= 65535 && SortedCells(cells)
    requires forall i :: 0 <= i < |cells| ==> CellOk(cells[i], leaf, data.Length)
    modifies data
    ensures r == if Space(cells, leaf, p) <= data.Length then Found(()) else Failed(PageFull)
    ensures r.Found? ==> Stored(data[..], p, Full(cells, leaf, rightmost, data.Length))
  {
    hide CellOk, CellBytes, Stored, InsertResult, Space, Fits, SortedCells;
    InitPage(data, p, leaf, rightmost);
    NothingYet(cells, leaf, rightmost, p, data.Length);
    var i := 0;
    while i < |cells|
      invariant i <= |cells| && Space(cells[..i], leaf, p) <= data.Length && TotalSize(cells[..i]) <= data.Length
      invariant Stored(data[..], p, Full(cells[..i], leaf, rightmost, data.Length))
    {
      FullNext(cells, i, leaf, rightmost, p, data.Length);
      InsertStored(data[..], p, Full(cells[..i], leaf, rightmost, data.Length), cells[i]);
      r := InsertCell(data, p, CellBytes(cells[i]), cells[i].key);
      if r.Failed? {
        return;
      }
      i := i + 1;
    }
    assert cells[..i] == cells;
    r := Found(());
  }

  lemma NothingYet(cells: seq<Cell>, leaf: bool, rightmost: Word, p: PageNumber, ps: nat)
    requires ps >= MIN_PAGE_SIZE
    ensures Space(cells[..0], leaf, p) <= ps && TotalSize(cells[..0]) == 0
    ensures Full(cells[..0], leaf, rightmost, ps) == Node(leaf, ps, [], if leaf then 0 else rightmost)
  {
    assert cells[..0] == [];
  }
}
