/** Runs of inserts, from an empty table, that end in a store that is no tree. */
module BTreeFailures {
  import opened Bytes
  import opened BTreeLevels
  import opened BTreePage
  import opened BTreeShape
  import opened BTreeEntries
  import opened BTreePromote
  import opened BTreeTall
  import opened BTreeSearch
  import opened BTreeInsert
  import opened BTreeCursor

  const PAGE: nat := 512
  const SIZE: nat := 130

  /** Keys from here on take nine bytes. */
  const BASE: Key := 0x100_0000_0000_0000

  function Body(n: nat): (b: seq<Byte>)
    ensures |b| == n
  {
    seq(n, i => 0)
  }

  function RowAt(i: nat): Cell
    requires i < 1000
  {
    Row(BASE + 16 * i, Body(SIZE))
  }

  function Rows(n: nat): (rows: seq<Cell>)
    requires n <= 1000
    ensures |rows| == n && forall i :: 0 <= i < n ==> rows[i] == RowAt(i)
  {
    seq(n, i requires 0 <= i < n => RowAt(i))
  }

  /** A row of SIZE bytes whose key takes nine bytes. */
  predicate Sized(c: Cell) {
    c.Row? && |c.bytes| == SIZE && c.key >= BASE
  }

  predicate AllSized(cells: seq<Cell>) {
    forall i :: 0 <= i < |cells| ==> Sized(cells[i])
  }

  lemma {:induction false} SizedTotal(cells: seq<Cell>)
    requires AllSized(cells)
    ensures TotalSize(cells) == SIZE * |cells|
  {
    if cells != [] {
      assert Sized(cells[0]);
      SizedTotal(cells[1..]);
    }
  }

  /** A table on page 1 with rows of SIZE bytes. */
  ghost predicate Table(s: Store, dbSize: nat, h: nat, rows: seq<Cell>) {
    Holds(s, dbSize, PAGE, 1, h, rows) && AllSized(rows)
  }

  /** Three such rows fill a leaf, be it page 1 or another one. */
  lemma LeafCount(s: Store, dbSize: nat, h: nat, rows: seq<Cell>, i: nat)
    requires Table(s, dbSize, h, rows) && i < |Level(s, 1, h)|
    ensures
      var p := Level(s, 1, h)[i].page;
      && |At(s, p).cells| <= 3 && (Fits(At(s, p), p, SIZE) <==> |At(s, p).cells| < 3)
      && AllSized(At(s, p).cells) && At(s, p).leaf
  {
    hide Level, Upper, Entries;
    var l := Level(s, 1, h);
    var p := l[i].page;
    EntriesAt(s, l, i);
    forall j | 0 <= j < |At(s, p).cells| ensures Sized(At(s, p).cells[j]) {
      assert At(s, p).cells[j] == rows[|Entries(s, l[..i])| + j];
    }
    SizedTotal(At(s, p).cells);
    assert LeafOk(At(s, p), p, PAGE, l[i].lo, Hi(l, i));
  }

  lemma {:induction false} RowCount(s: Store, dbSize: nat, h: nat, rows: seq<Cell>, n: nat)
    requires Table(s, dbSize, h, rows) && n <= |Level(s, 1, h)|
    ensures |Entries(s, Level(s, 1, h)[..n])| <= 3 * n
    decreases n
  {
    hide Level, Table;
    var l := Level(s, 1, h);
    if n > 0 {
      RowCount(s, dbSize, h, rows, n - 1);
      LeafCount(s, dbSize, h, rows, n - 1);
      assert l[..n] == l[..n - 1] + [l[n - 1]];
      EntriesConcat(s, l[..n - 1], [l[n - 1]]);
      EntriesOne(s, l[n - 1]);
    }
  }

  /** The two levels of a table of height 1. */
  lemma RootKids(s: Store, dbSize: nat, rows: seq<Cell>)
    requires Table(s, dbSize, 1, rows)
    ensures 1 in s && InnerOk(s[1], 1, PAGE) && Level(s, 1, 1) == Kids(s[1], -1)
    ensures SortedCells(s[1].cells)
  {
    hide Entries;
    var l := Level(s, 1, 0);
    ExpandOne(s, l[0]);
    UpperFacts(s, PAGE, 1, 1);
    UpperFacts(s, PAGE, 1, 0);
    assert l[0].page in PagesOf(l);
    assert InnerOk(At(s, l[0].page), l[0].page, PAGE);
    KidsSortedCells(s, l, 0);
  }

  lemma RootLeaf(s: Store, dbSize: nat, rows: seq<Cell>)
    requires Table(s, dbSize, 0, rows)
    ensures 1 in s && s[1].leaf && |rows| <= 3
  {
    hide Entries;
    var l := Level(s, 1, 0);
    LeafCount(s, dbSize, 0, rows, 0);
    assert l[0].page in PagesOf(l);
    EntriesOne(s, l[0]);
  }

  /** Such a table of height 1 holds at most 216 rows. */
  lemma RowBound(s: Store, dbSize: nat, h: nat, rows: seq<Cell>)
    requires Table(s, dbSize, h, rows) && h <= 1
    ensures |rows| <= 216 && 1 in s && (s[1].leaf <==> h == 0)
  {
    hide Level, Table, Entries;
    if h == 0 {
      RootLeaf(s, dbSize, rows);
    } else {
      RootKids(s, dbSize, rows);
      var l := Level(s, 1, 1);
      RowCount(s, dbSize, 1, rows, |l|);
      assert l[..|l|] == l;
      TableRows(s, dbSize, 1, rows);
      TotalSizeBounds(s[1].cells);
    }
  }

  lemma TableRows(s: Store, dbSize: nat, h: nat, rows: seq<Cell>)
    requires Table(s, dbSize, h, rows)
    ensures Entries(s, Level(s, 1, h)) == rows && AllSized(rows) && Holds(s, dbSize, PAGE, 1, h, rows)
  {
  }

  /** A split of a full leaf always fits, and the promoted key takes nine bytes. */
  lemma FullLeaf(s: Store, dbSize: nat, h: nat, rows: seq<Cell>, c: Cell)
    requires Table(s, dbSize, h, rows) && Sized(c) && !HasKey(rows, c.key)
    ensures
      var q := PathPage(s, 1, c.key, h);
      && |At(s, q).cells| <= 3 && (Splits(s, 1, c, h) <==> |At(s, q).cells| == 3) && Taken(s, 1, c, h, PAGE)
      && PlanFor(At(s, q), c).divider >= BASE
  {
    hide Level, Upper, Entries, Table, PathPage, PathIndex, InsertPos, HasKey;
    PathGap(s, 1, c.key, h);
    LeafCount(s, dbSize, h, rows, PathIndex(s, 1, c.key, h));
    var n := At(s, PathPage(s, 1, c.key, h));
    var all := Inserted(n.cells, c);
    forall i | 0 <= i < |all| ensures Sized(all[i]) {
      InsertedElems(n.cells, c, i);
    }
    SizedTotal(all[..LeafMid(|all|) + 1]);
    SizedTotal(all[LeafMid(|all|) + 1..]);
  }

  /** As long as the root has room for a divider, the next insert is safe and does not grow a table of height 1. */
  lemma NextSafe(s: Store, dbSize: nat, h: nat, rows: seq<Cell>, c: Cell)
    requires Table(s, dbSize, h, rows) && Sized(c) && !HasKey(rows, c.key) && h <= 1
    requires h == 1 ==> Fits(At(s, 1), 1, 13)
    ensures Taken(s, 1, c, h, PAGE) && Safe(s, PathPages(s, 1, c.key, h), c)
    ensures h == 1 ==> RoomAbove(s, 1, c, h)
  {
    hide Level, Upper, Entries, Table, PathIndex, Plan, Inserted, Safe, HasKey, Fits;
    FullLeaf(s, dbSize, h, rows, c);
    TableRows(s, dbSize, h, rows);
    LeafSafe(s, dbSize, PAGE, 1, h, rows, c);
    var v := ViewOf(s, 1, c.key, h);
    if h == 1 {
      PathStart(s, 1, c.key);
      SafeStep(s, 1, v, PlanFor(At(s, PathPage(s, 1, c.key, 1)), c).divider);
    }
  }

  lemma NextRow(n: nat)
    requires n < 1000
    ensures AllSized(Rows(n)) && Sized(RowAt(n)) && !HasKey(Rows(n), RowAt(n).key)
    ensures Inserted(Rows(n), RowAt(n)) == Rows(n + 1)
  {
    InsertPosIs(Rows(n), RowAt(n).key, n);
  }

  /** Ascending inserts into an empty table, until its root is full. */
  method FillRoot() returns (cur: TableCursor, n: nat)
    ensures fresh(cur) && cur.pageSize == PAGE && cur.root == 1
    ensures n <= 216 && Table(cur.pages, cur.dbSize, 1, Rows(n))
    ensures 1 in cur.pages && !Fits(cur.pages[1], 1, 13)
  {
    hide Table, Holds, Safe, HasKey, Taken, RoomAbove, Sized, Inserted, TreeOk, Splits, RowAdded;
    cur := new TableCursor(PAGE, 1, map[1 := Node(true, PAGE, [], 0)], 1);
    ghost var h := 0;
    n := 0;
    StartTable(cur.pages);
    RowBound(cur.pages, cur.dbSize, h, Rows(n));
    while cur.pages[1].leaf || Fits(cur.pages[1], 1, 13)
      invariant n <= 216 && h <= 1 && Table(cur.pages, cur.dbSize, h, Rows(n))
      invariant 1 in cur.pages && (cur.pages[1].leaf <==> h == 0)
      decreases 216 - n
    {
      NextRow(n);
      NextSafe(cur.pages, cur.dbSize, h, Rows(n), RowAt(n));
      TableRows(cur.pages, cur.dbSize, h, Rows(n));
      var r;
      r, h := cur.Insert(RowAt(n), h, Rows(n));
      n := n + 1;
      NextRow(n);
      IsTable(cur.pages, cur.dbSize, h, Rows(n));
      RowBound(cur.pages, cur.dbSize, h, Rows(n));
    }
  }

  lemma IsTable(s: Store, dbSize: nat, h: nat, rows: seq<Cell>)
    requires Holds(s, dbSize, PAGE, 1, h, rows) && AllSized(rows)
    ensures Table(s, dbSize, h, rows)
  {
  }

  lemma StartTable(s: Store)
    requires s == map[1 := Node(true, PAGE, [], 0)]
    ensures Table(s, 1, 0, Rows(0))
  {
    EmptyTree(s, 1, PAGE, 1);
  }

  /** The middle slot of a full root: its bounds, and where keys between them go. */
  lemma MiddleSlot(s: Store, dbSize: nat, rows: seq<Cell>, mid: nat, key: Key)
    requires Table(s, dbSize, 1, rows) && 0 < mid < |At(s, 1).cells|
    requires At(s, 1).cells[mid - 1].key < key < At(s, 1).cells[mid].key
    ensures PathPage(s, 1, key, 1) == Child(At(s, 1), mid) && PathIndex(s, 1, key, 1) == mid && InGap(Level(s, 1, 1), mid, key)
    ensures Level(s, 1, 1)[mid].lo == At(s, 1).cells[mid - 1].key && Hi(Level(s, 1, 1), mid) == At(s, 1).cells[mid].key
  {
    hide Table;
    RootKids(s, dbSize, rows);
    InsertPosUnique(At(s, 1).cells, key, mid);
    PathGap(s, 1, key, 1);
    PathIndexStep(s, 1, key, 0);
    OffsetZero(s, Level(s, 1, 0));
  }

  /** Every divider of the root is the key of a row. */
  lemma DividerIsKey(s: Store, dbSize: nat, rows: seq<Cell>, i: nat)
    requires Table(s, dbSize, 1, rows) && i < |At(s, 1).cells|
    ensures HasKey(rows, At(s, 1).cells[i].key)
  {
    hide Entries, Upper;
    RootKids(s, dbSize, rows);
    var l := Level(s, 1, 1);
    assert l[i + 1].lo == At(s, 1).cells[i].key;
    assert LeafOk(At(s, l[i + 1].page), l[i + 1].page, PAGE, l[i + 1].lo, Hi(l, i + 1));
    EntriesAt(s, l, i + 1);
    assert rows[|Entries(s, l[..i + 1])|] == At(s, l[i + 1].page).cells[0];
  }

  /** The split of the leaf for c puts the divider m into the full root, and the root's own split promotes m again. */
  ghost predicate SelfPromotes(s: Store, c: Cell) {
    var q := PathPage(s, 1, c.key, 1);
    var m := PlanFor(At(s, q), c).divider;
    Splits(s, 1, c, 1) && !Fits(At(s, 1), 1, CellSize(Divider(m, q))) && PlanFor(At(s, 1), Divider(m, q)).divider == m
  }

  /** The root is full, its middle leaf is full, and c goes there: the divider of the leaf split is the one the root promotes. */
  lemma MiddleUnsafe(s: Store, dbSize: nat, rows: seq<Cell>, c: Cell, mid: nat)
    requires Table(s, dbSize, 1, rows) && Sized(c) && !HasKey(rows, c.key)
    requires !Fits(At(s, 1), 1, 13) && mid == (|At(s, 1).cells| + 1) / 2 && 0 < mid < |At(s, 1).cells|
    requires At(s, 1).cells[mid - 1].key < c.key < At(s, 1).cells[mid].key && Splits(s, 1, c, 1)
    ensures Taken(s, 1, c, 1, PAGE) && SelfPromotes(s, c) && !Safe(s, PathPages(s, 1, c.key, 1), c)
  {
    hide Level, Upper, Entries, Table, PathIndex, PathPage, Safe, HasKey, Fits, InsertPos;
    FullLeaf(s, dbSize, 1, rows, c);
    TableRows(s, dbSize, 1, rows);
    RootKids(s, dbSize, rows);
    MiddleSlot(s, dbSize, rows, mid, c.key);
    LeafSafe(s, dbSize, PAGE, 1, 1, rows, c);
    PathStart(s, 1, c.key);
    var q := PathPage(s, 1, c.key, 1);
    LeafOnPath(s, dbSize, PAGE, 1, c.key, 1);
    LeafDividerBetween(s, PAGE, Level(s, 1, 1), mid, c);
    var m := PlanFor(At(s, q), c).divider;
    InsertPosUnique(At(s, 1).cells, m, mid);
    SafeStep(s, 1, ViewOf(s, 1, c.key, 1), m);
    assert Inserted(At(s, 1).cells, Divider(m, q))[mid] == Divider(m, q);
  }

  /** No row lies between lo and lo + 16 but those from lo up to lo + i. */
  ghost predicate Spread(rows: seq<Cell>, lo: nat, i: nat) {
    forall j :: 0 <= j < |rows| ==> rows[j].key <= lo || rows[j].key < lo + i || rows[j].key >= lo + 16
  }

  lemma SpreadFresh(rows: seq<Cell>, lo: nat, i: nat, c: Cell)
    requires Spread(rows, lo, i) && 0 < i < 16 && c.key == lo + i
    ensures !HasKey(rows, c.key) && Spread(Inserted(rows, c), lo, i + 1)
  {
    var all := Inserted(rows, c);
    forall j | 0 <= j < |all| ensures all[j].key <= lo || all[j].key < lo + i + 1 || all[j].key >= lo + 16 {
      InsertedElems(rows, c, j);
    }
  }

  /** The dividers around the middle of the root are 16 apart at least. */
  lemma MiddleGap(s: Store, dbSize: nat, n: nat, mid: nat)
    requires n <= 216 && Table(s, dbSize, 1, Rows(n)) && 0 < mid < |At(s, 1).cells|
    ensures
      var lo, hi := At(s, 1).cells[mid - 1].key, At(s, 1).cells[mid].key;
      BASE <= lo && lo + 16 <= hi && Spread(Rows(n), lo, 1)
  {
    hide Table;
    RootKids(s, dbSize, Rows(n));
    DividerIsKey(s, dbSize, Rows(n), mid - 1);
    DividerIsKey(s, dbSize, Rows(n), mid);
  }

  lemma FullRoot(s: Store, dbSize: nat, rows: seq<Cell>)
    requires Table(s, dbSize, 1, rows) && !Fits(At(s, 1), 1, 13)
    ensures |At(s, 1).cells| >= 20
  {
    hide Table;
    RootKids(s, dbSize, rows);
    FullInnerIsLarge(s[1], 1, Divider(BASE, 0), PAGE);
  }

  lemma SizedInserted(rows: seq<Cell>, c: Cell)
    requires AllSized(rows) && Sized(c)
    ensures AllSized(Inserted(rows, c))
  {
    forall j | 0 <= j < |rows| + 1 ensures Sized(Inserted(rows, c)[j]) {
      InsertedElems(rows, c, j);
    }
  }

  /** A row that fits its leaf is added there and nowhere else. */
  lemma MiddleFits(s: Store, dbSize: nat, rows: seq<Cell>, c: Cell, leaf: PageNumber)
    requires Table(s, dbSize, 1, rows) && Sized(c) && !HasKey(rows, c.key) && leaf == PathPage(s, 1, c.key, 1) && Fits(At(s, leaf), leaf, SIZE)
    ensures !Splits(s, 1, c, 1) && Taken(s, 1, c, 1, PAGE) && Safe(s, PathPages(s, 1, c.key, 1), c)
    ensures
      var s' := RowAdded(s, leaf, c);
      leaf != 1 && leaf in s' && At(s', 1) == At(s, 1) && |At(s', leaf).cells| == |At(s, leaf).cells| + 1
  {
    hide Level, Upper, Entries, Table, PathIndex, Safe, HasKey, InsertPos, PathPage;
    FullLeaf(s, dbSize, 1, rows, c);
    TableRows(s, dbSize, 1, rows);
    LeafSafe(s, dbSize, PAGE, 1, 1, rows, c);
    PathDistinct(s, PAGE, 1, c.key, 0, 1);
    PathStart(s, 1, c.key);
  }

  lemma MiddleIs(s: Store, dbSize: nat, rows: seq<Cell>, c: Cell, leaf: PageNumber)
    requires Table(s, dbSize, 1, rows) && Sized(c) && !HasKey(rows, c.key) && leaf == PathPage(s, 1, c.key, 1)
    ensures leaf in s && |At(s, leaf).cells| <= 3 && (Fits(At(s, leaf), leaf, SIZE) <==> |At(s, leaf).cells| < 3)
    ensures Splits(s, 1, c, 1) <==> !Fits(At(s, leaf), leaf, SIZE)
  {
    hide Level, Upper, Entries, Table, PathIndex, HasKey, PathPage, Fits;
    FullLeaf(s, dbSize, 1, rows, c);
    TableRows(s, dbSize, 1, rows);
    LeafOnPath(s, dbSize, PAGE, 1, c.key, 1);
  }

  /**
    A run into the self-promotion, from an empty table: ascending rows until the root has no room for
    a divider, then rows for the middle leaf until it is full.  The next row for that leaf makes the
    root promote the very divider that the leaf split puts into it; what the insert leaves is no tree.
   */
  method SelfPromotion() returns (before: Store, size: nat, c: Cell, after: Store, sizeAfter: nat, ghost rows: seq<Cell>)
    ensures Holds(before, size, PAGE, 1, 1, rows) && c.Row? && !HasKey(rows, c.key)
    ensures Taken(before, 1, c, 1, PAGE) && SelfPromotes(before, c) && !Safe(before, PathPages(before, 1, c.key, 1), c)
    ensures forall t :: !TreeOk(after, sizeAfter, PAGE, 1, t)
  {
    hide Table, Holds, Safe, HasKey, Taken, RoomAbove, Sized, Inserted, TreeOk, Splits, RowAdded, Spread, AllSized, PathPage, PathPages, Fits, SelfPromotes;
    var cur, n := FillRoot();
    var root := cur.pages[1];
    var mid := (|root.cells| + 1) / 2;
    FullRoot(cur.pages, cur.dbSize, Rows(n));
    MiddleGap(cur.pages, cur.dbSize, n, mid);
    var lo := root.cells[mid - 1].key;
    var leaf := Child(root, mid);
    var i := 1;
    rows := Rows(n);
    c := NextTo(lo, i);
    SpreadFresh(rows, lo, i, c);
    MiddleSlot(cur.pages, cur.dbSize, rows, mid, c.key);
    MiddleIs(cur.pages, cur.dbSize, rows, c, leaf);
    while Fits(cur.pages[leaf], leaf, SIZE)
      invariant cur.pageSize == PAGE && cur.root == 1
      invariant Table(cur.pages, cur.dbSize, 1, rows) && At(cur.pages, 1) == root && Spread(rows, lo, i)
      invariant leaf in cur.pages && 0 < i <= 1 + |cur.pages[leaf].cells| <= 4
      invariant c.Row? && Sized(c) && c.key == lo + i && !HasKey(rows, c.key) && PathPage(cur.pages, 1, c.key, 1) == leaf
      invariant Splits(cur.pages, 1, c, 1) <==> !Fits(cur.pages[leaf], leaf, SIZE)
      decreases 3 - |cur.pages[leaf].cells|
    {
      MiddleFits(cur.pages, cur.dbSize, rows, c, leaf);
      TableRows(cur.pages, cur.dbSize, 1, rows);
      SpreadFresh(rows, lo, i, c);
      SizedInserted(rows, c);
      var r;
      ghost var h;
      r, h := cur.Insert(c, 1, rows);
      rows := Inserted(rows, c);
      IsTable(cur.pages, cur.dbSize, h, rows);
      i := i + 1;
      c := NextTo(lo, i);
      SpreadFresh(rows, lo, i, c);
      MiddleSlot(cur.pages, cur.dbSize, rows, mid, c.key);
      MiddleIs(cur.pages, cur.dbSize, rows, c, leaf);
    }
    MiddleUnsafe(cur.pages, cur.dbSize, rows, c, mid);
    TableRows(cur.pages, cur.dbSize, 1, rows);
    before, size := cur.pages, cur.dbSize;
    var r;
    ghost var h;
    r, h := cur.Insert(c, 1, rows);
    after, sizeAfter := cur.pages, cur.dbSize;
  }

  /** A row whose key is i above lo. */
  function NextTo(lo: Key, i: nat): (c: Cell)
    requires BASE <= lo && lo + 16 < KEY_LIMIT && i < 16
    ensures c.Row? && Sized(c) && c.key == lo + i
  {
    Row(lo + i, Body(SIZE))
  }

  /**
    A run into the other failure: one row that has no room on page 1 and fits any other page.  The
    split of the empty root leaves an empty leaf behind a divider.
   */
  method SmallRootSplit() returns (after: Store, sizeAfter: nat)
    ensures forall t :: !TreeOk(after, sizeAfter, PAGE, 1, t)
  {
    var c := Row(1, Body(450));
    var start := map[1 := Node(true, PAGE, [], 0)];
    EmptyTree(start, 1, PAGE, 1);
    OneRowUnsafe(start, c);
    var cur := new TableCursor(PAGE, 1, start, 1);
    var r;
    ghost var h;
    r, h := cur.Insert(c, 0, []);
    after, sizeAfter := cur.pages, cur.dbSize;
  }

  lemma OneRowUnsafe(s: Store, c: Cell)
    requires s == map[1 := Node(true, PAGE, [], 0)] && c.Row? && |c.bytes| == 450
    ensures !HasKey([], c.key) && Taken(s, 1, c, 0, PAGE) && !Safe(s, PathPages(s, 1, c.key, 0), c)
  {
    EmptyTree(s, 1, PAGE, 1);
    LeafSafe(s, 1, PAGE, 1, 0, [], c);
    PathStart(s, 1, c.key);
    var plan := PlanFor(s[1], c);
    assert plan.left == [c] && plan.right == [];
    assert [c][1..] == [];
  }

  /** A run of inserts after which the search for a row that is there does not find it: its key divides two leaves. */
  method DividerNotFound() returns (s: Store, size: nat, key: Key, ghost rows: seq<Cell>)
    ensures Holds(s, size, PAGE, 1, 1, rows) && HasKey(rows, key)
    ensures SeekOutcome(s, PathPages(s, 1, key, 1), key) == Less
  {
    hide Table, Holds, HasKey, TreeOk, PathPages, SeekOutcome, Level, Fits, Entries;
    var cur, n := FillRoot();
    s, size, rows := cur.pages, cur.dbSize, Rows(n);
    FullRoot(s, size, rows);
    key := s[1].cells[0].key;
    DividerIsKey(s, size, rows, 0);
    TableRows(s, size, 1, rows);
    HoldsTree(s, size, PAGE, 1, 1, rows);
    RootKids(s, size, rows);
    assert Level(s, 1, 1)[1].lo == key;
    SeekFindsPresent(s, size, PAGE, 1, 1, key);
  }
}
