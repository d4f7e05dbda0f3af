/**
  Decoded B-tree pages: space accounting, sorted cell insertion and the two
  split plans.  Module PageBytes gives the byte-level form of the same insertion.
 */
module BTreePage {
  import opened BTreeLevels

  const KEY_LIMIT: int := 0x1_0000_0000_0000_0000

  function VarintLength(v: Key): (n: nat)
    ensures 1 <= n <= 9
  {
    if v < 0x80 then 1
    else if v < 0x4000 then 2
    else if v < 0x20_0000 then 3
    else if v < 0x1000_0000 then 4
    else if v < 0x8_0000_0000 then 5
    else if v < 0x400_0000_0000 then 6
    else if v < 0x2_0000_0000_0000 then 7
    else if v < 0x100_0000_0000_0000 then 8
    else 9
  }

  function CellSize(c: Cell): nat {
    match c
    case Row(_, bytes) => |bytes|
    case Divider(key, _) => 4 + VarintLength(key)
  }

  function HeaderOffset(p: PageNumber): nat {
    if p == 1 then 100 else 0
  }

  function HeaderSize(leaf: bool): nat {
    if leaf then 8 else 12
  }

  /** The test that keeps `insert_cell_into_page` from reporting PageFull. */
  predicate Fits(n: Node, p: PageNumber, size: nat) {
    HeaderOffset(p) + HeaderSize(n.leaf) + 2 * (|n.cells| + 1) + size <= n.contentStart
  }

  /** First index whose key is not below `key`. */
  function InsertPos(cells: seq<Cell>, key: Key): (i: nat)
    ensures i <= |cells|
    ensures forall j :: 0 <= j < i ==> cells[j].key < key
    ensures i < |cells| ==> key <= cells[i].key
  {
    if cells == [] || key <= cells[0].key then 0 else 1 + InsertPos(cells[1..], key)
  }

  function Inserted(cells: seq<Cell>, c: Cell): (r: seq<Cell>)
    ensures |r| == |cells| + 1
  {
    var i := InsertPos(cells, c.key);
    cells[..i] + [c] + cells[i..]
  }

  function WithCell(n: Node, c: Cell): Node
    requires CellSize(c) <= n.contentStart
  {
    n.(contentStart := n.contentStart - CellSize(c), cells := Inserted(n.cells, c))
  }

  /** Deletion drops the pointer; the cell's bytes stay taken. */
  function WithoutCell(n: Node, i: nat): Node
    requires i < |n.cells|
  {
    n.(cells := n.cells[..i] + n.cells[i + 1..])
  }

  function TotalSize(cells: seq<Cell>): nat {
    if cells == [] then 0 else CellSize(cells[0]) + TotalSize(cells[1..])
  }

  predicate SortedCells(cells: seq<Cell>) {
    forall i, j :: 0 <= i < j < |cells| ==> cells[i].key < cells[j].key
  }

  predicate AllRows(cells: seq<Cell>) {
    forall i :: 0 <= i < |cells| ==> cells[i].Row?
  }

  predicate AllDividers(cells: seq<Cell>) {
    forall i :: 0 <= i < |cells| ==> cells[i].Divider?
  }

  /** No byte of the cell content area is wasted and the pointer array ends before it. */
  predicate SpaceOk(n: Node, p: PageNumber, pageSize: nat) {
    && n.contentStart + TotalSize(n.cells) == pageSize
    && HeaderOffset(p) + HeaderSize(n.leaf) + 2 * |n.cells| <= n.contentStart
  }

  ghost predicate InnerOk(n: Node, p: PageNumber, pageSize: nat) {
    && !n.leaf
    && n.cells != []
    && AllDividers(n.cells)
    && SpaceOk(n, p, pageSize)
  }

  /** A leaf whose keys lie in [lo, hi); the first key of every leaf but the leftmost is its divider. */
  ghost predicate LeafOk(n: Node, p: PageNumber, pageSize: nat, lo: int, hi: int) {
    && n.leaf
    && AllRows(n.cells)
    && SortedCells(n.cells)
    && SpaceOk(n, p, pageSize)
    && (lo >= 0 ==> n.cells != [] && n.cells[0].key == lo)
    && (hi < KEY_LIMIT ==> n.cells != [])
    && (forall i :: 0 <= i < |n.cells| ==> n.cells[i].key < hi)
  }

  /** How the cells of a full page are shared out. */
  datatype SplitPlan = SplitPlan(left: seq<Cell>, right: seq<Cell>, divider: Key,
                                 leftRightmost: PageNumber, rightRightmost: PageNumber)

  function LeafMid(count: nat): nat
    requires count > 0
  {
    if count == 1 then 0
    else if (count + 1) / 2 < count - 1 then (count + 1) / 2 else count - 1
  }

  /** `cells` already contains the new cell. */
  function Plan(leaf: bool, cells: seq<Cell>, rightmost: PageNumber): SplitPlan
    requires cells != []
  {
    if leaf then
      var mid := LeafMid(|cells|);
      var divider := if mid < |cells| - 1 then cells[mid + 1].key else cells[mid].key;
      SplitPlan(cells[..mid + 1], cells[mid + 1..], divider, 0, 0)
    else
      var mid := |cells| / 2;
      SplitPlan(cells[..mid], cells[mid + 1..], cells[mid].key, ChildOf(cells[mid]), rightmost)
  }

  // ---- Cell lists ----

  lemma {:induction false} TotalSizeConcat(a: seq<Cell>, b: seq<Cell>)
    ensures TotalSize(a + b) == TotalSize(a) + TotalSize(b)
  {
    if a == [] {
      assert a + b == b;
    } else {
      assert (a + b)[1..] == a[1..] + b;
      TotalSizeConcat(a[1..], b);
    }
  }

  lemma TotalNext(cells: seq<Cell>, i: nat)
    requires i < |cells|
    ensures TotalSize(cells[..i + 1]) == TotalSize(cells[..i]) + CellSize(cells[i]) <= TotalSize(cells)
  {
    hide CellSize;
    assert cells[..i + 1] == cells[..i] + [cells[i]];
    assert [cells[i]][1..] == [];
    TotalSizeConcat(cells[..i], [cells[i]]);
    assert cells == cells[..i + 1] + cells[i + 1..];
    TotalSizeConcat(cells[..i + 1], cells[i + 1..]);
  }

  lemma TotalSizeInserted(cells: seq<Cell>, c: Cell)
    ensures TotalSize(Inserted(cells, c)) == TotalSize(cells) + CellSize(c)
  {
    var i := InsertPos(cells, c.key);
    TotalSizeConcat(cells[..i], [c]);
    TotalSizeConcat(cells[..i] + [c], cells[i..]);
    TotalSizeConcat(cells[..i], cells[i..]);
    assert cells == cells[..i] + cells[i..];
    assert [c][1..] == [];
  }

  lemma {:induction false} TotalSizeBounds(cells: seq<Cell>)
    requires AllDividers(cells)
    ensures 5 * |cells| <= TotalSize(cells) <= 13 * |cells|
  {
    if cells != [] {
      TotalSizeBounds(cells[1..]);
    }
  }

  lemma WithCellSpace(n: Node, p: PageNumber, c: Cell, pageSize: nat)
    requires SpaceOk(n, p, pageSize) && Fits(n, p, CellSize(c))
    ensures SpaceOk(WithCell(n, c), p, pageSize)
  {
    TotalSizeInserted(n.cells, c);
  }

  lemma InsertedSorted(cells: seq<Cell>, c: Cell)
    requires SortedCells(cells)
    requires forall i :: 0 <= i < |cells| ==> cells[i].key != c.key
    ensures SortedCells(Inserted(cells, c))
  {
    var i := InsertPos(cells, c.key);
    var r := Inserted(cells, c);
    forall a, b | 0 <= a < b < |r| ensures r[a].key < r[b].key {
      assert a < i ==> r[a] == cells[a];
      assert a > i ==> r[a] == cells[a - 1];
      assert b < i ==> r[b] == cells[b];
      assert b > i ==> r[b] == cells[b - 1];
    }
  }

  /** The insertion position is determined by the neighbours. */
  lemma InsertPosUnique(cells: seq<Cell>, key: Key, i: nat)
    requires SortedCells(cells) && i <= |cells|
    requires i > 0 ==> cells[i - 1].key < key
    requires i < |cells| ==> key <= cells[i].key
    ensures InsertPos(cells, key) == i
  {
  }

  lemma AppendedCell(cells: seq<Cell>, i: nat)
    requires SortedCells(cells) && i < |cells|
    ensures Inserted(cells[..i], cells[i]) == cells[..i + 1]
  {
    InsertPosUnique(cells[..i], cells[i].key, i);
  }

  // ---- Leaf splits ----

  /** The right half of a leaf split has a row exactly when at least four cells are shared out. */
  lemma LeafSplitRightNonEmpty(cells: seq<Cell>, rightmost: PageNumber)
    requires cells != []
    ensures Plan(true, cells, rightmost).left + Plan(true, cells, rightmost).right == cells
    ensures Plan(true, cells, rightmost).right != [] <==> |cells| >= 4
    ensures |cells| >= 4 ==> Plan(true, cells, rightmost).divider == Plan(true, cells, rightmost).right[0].key
  {
  }

  /**
    Where a leaf splits: the left half has one cell more than half of them, rounded up, so with four
    cells or more two or three cells more than the right half; fewer cells all stay left.
   */
  lemma LeafSplitEven(cells: seq<Cell>, rightmost: PageNumber)
    requires cells != []
    ensures
      var n, plan := |cells|, Plan(true, cells, rightmost);
      && (n >= 4 ==> plan.left == cells[..(n + 1) / 2 + 1] && plan.right == cells[(n + 1) / 2 + 1..])
      && (n >= 4 ==> |plan.left| - |plan.right| == if n % 2 == 0 then 2 else 3)
      && (n < 4 ==> plan.left == cells && plan.right == [])
      && |plan.left| <= (n + 1) / 2 + 1
  {
  }

  // ---- Interior splits ----

  /** Where an interior page splits: the middle cell moves up, and the left half has at most one cell more than the right half. */
  lemma InnerSplitEven(cells: seq<Cell>, rightmost: PageNumber)
    requires cells != []
    ensures
      var n, plan := |cells|, Plan(false, cells, rightmost);
      && plan.left == cells[..n / 2] && plan.divider == cells[n / 2].key && plan.right == cells[n / 2 + 1..]
      && |plan.left| - |plan.right| == if n % 2 == 0 then 1 else 0
  {
  }

  /** An interior page that is full holds many cells. */
  lemma FullInnerIsLarge(n: Node, p: PageNumber, c: Cell, pageSize: nat)
    requires InnerOk(n, p, pageSize) && c.Divider? && pageSize >= 512
    requires !Fits(n, p, CellSize(c))
    ensures |n.cells| >= 20
  {
    TotalSizeBounds(n.cells);
  }

  /** Both halves of an interior split fit an empty page, so the split never reports PageFull. */
  lemma InnerHalvesFit(n: Node, p: PageNumber, c: Cell, pageSize: nat)
    requires InnerOk(n, p, pageSize) && c.Divider? && pageSize >= 512
    requires !Fits(n, p, CellSize(c))
    ensures
      var plan := Plan(false, Inserted(n.cells, c), n.rightmost);
      && |plan.left| >= 1 && |plan.right| >= 1
      && HeaderOffset(p) + 12 + 2 * |plan.left| + TotalSize(plan.left) <= pageSize
      && HeaderOffset(p) + 12 + 2 * |plan.right| + TotalSize(plan.right) <= pageSize
  {
    FullInnerIsLarge(n, p, c, pageSize);
    var all := Inserted(n.cells, c);
    var mid := |all| / 2;
    assert AllDividers(all);
    TotalSizeInserted(n.cells, c);
    HalfTotals(all, mid);
    hide TotalSize, Inserted, AllDividers;
  }

  lemma HalfTotals(all: seq<Cell>, mid: nat)
    requires AllDividers(all) && mid < |all|
    ensures TotalSize(all[..mid]) + 5 * (|all| - mid) <= TotalSize(all)
    ensures TotalSize(all[mid + 1..]) + 5 * (mid + 1) <= TotalSize(all)
  {
    hide TotalSize;
    TotalSizeConcat(all[..mid], all[mid..]);
    TotalSizeConcat(all[..mid + 1], all[mid + 1..]);
    assert all == all[..mid] + all[mid..] == all[..mid + 1] + all[mid + 1..];
    TotalSizeBounds(all[mid..]);
    TotalSizeBounds(all[..mid + 1]);
  }

  /** An interior split keeps the children in order around the promoted divider. */
  lemma KidsSplit(all: seq<Cell>, rightmost: PageNumber, lo: int, cs: nat, csl: nat, csr: nat)
    requires all != [] && AllDividers(all)
    ensures
      var plan := Plan(false, all, rightmost);
      Kids(Node(false, csl, plan.left, plan.leftRightmost), lo)
      + Kids(Node(false, csr, plan.right, plan.rightRightmost), plan.divider)
      == Kids(Node(false, cs, all, rightmost), lo)
  {
    var plan := Plan(false, all, rightmost);
    var mid := |all| / 2;
    var l := Kids(Node(false, csl, plan.left, plan.leftRightmost), lo);
    var r := Kids(Node(false, csr, plan.right, plan.rightRightmost), plan.divider);
    var k := Kids(Node(false, cs, all, rightmost), lo);
    forall i | 0 <= i < |k| ensures (l + r)[i] == k[i] {
      if i <= mid {
        assert (l + r)[i] == l[i];
      } else {
        assert (l + r)[i] == r[i - mid - 1];
      }
    }
  }

  /** Inserting the divider (m, c) before child j doubles slot j: c up to m, the old child from m on. */
  lemma KidsWithCell(n: Node, lo: int, c: Cell)
    requires AllDividers(n.cells) && c.Divider? && CellSize(c) <= n.contentStart
    ensures
      var j := InsertPos(n.cells, c.key);
      var k := Kids(n, lo);
      Kids(WithCell(n, c), lo) == Replace(k, j, 1, [Slot(k[j].lo, c.child), Slot(c.key, k[j].page)])
  {
    KidsInserted(n, lo, c, n.contentStart - CellSize(c));
  }

  lemma KidsInserted(n: Node, lo: int, c: Cell, cs: nat)
    requires AllDividers(n.cells) && c.Divider?
    ensures
      var j := InsertPos(n.cells, c.key);
      var k := Kids(n, lo);
      Kids(Node(false, cs, Inserted(n.cells, c), n.rightmost), lo)
      == Replace(k, j, 1, [Slot(k[j].lo, c.child), Slot(c.key, k[j].page)])
  {
    var j := InsertPos(n.cells, c.key);
    var k := Kids(n, lo);
    var all := Inserted(n.cells, c);
    var a := Kids(Node(false, cs, all, n.rightmost), lo);
    var b := Replace(k, j, 1, [Slot(k[j].lo, c.child), Slot(c.key, k[j].page)]);
    assert |a| == |b|;
    forall i | 0 <= i < |a| ensures a[i] == b[i] {
      if i <= j {
        assert i > 0 ==> all[i - 1] == n.cells[i - 1];
      } else {
        assert b[i] == if i == j + 1 then Slot(c.key, k[j].page) else k[i - 1];
        assert i < |all| ==> all[i] == n.cells[i - 1];
        assert i > j + 1 ==> all[i - 1] == n.cells[i - 2];
      }
    }
  }

  /** Overwriting child pointer `i` changes one slot. */
  function WithChild(n: Node, i: nat, p: PageNumber): Node
    requires i <= |n.cells|
  {
    if i < |n.cells| then n.(cells := n.cells[i := Divider(n.cells[i].key, p)]) else n.(rightmost := p)
  }

  lemma KidsWithChild(n: Node, lo: int, i: nat, p: PageNumber)
    requires i <= |n.cells| && AllDividers(n.cells)
    ensures Kids(WithChild(n, i, p), lo) == Replace(Kids(n, lo), i, 1, [Slot(Kids(n, lo)[i].lo, p)])
    ensures AllDividers(WithChild(n, i, p).cells)
  {
    var a := Kids(WithChild(n, i, p), lo);
    var b := Replace(Kids(n, lo), i, 1, [Slot(Kids(n, lo)[i].lo, p)]);
    forall x | 0 <= x < |a| ensures a[x] == b[x] {
    }
  }

  lemma WithChildSize(n: Node, i: nat, p: PageNumber, q: PageNumber, pageSize: nat)
    requires i <= |n.cells| && InnerOk(n, q, pageSize)
    ensures InnerOk(WithChild(n, i, p), q, pageSize)
  {
    if i < |n.cells| {
      var c := Divider(n.cells[i].key, p);
      var w := n.cells[i := c];
      assert w == n.cells[..i] + ([c] + n.cells[i + 1..]);
      assert n.cells == n.cells[..i] + ([n.cells[i]] + n.cells[i + 1..]);
      TotalSizeConcat(n.cells[..i], [c] + n.cells[i + 1..]);
      TotalSizeConcat(n.cells[..i], [n.cells[i]] + n.cells[i + 1..]);
      assert ([c] + n.cells[i + 1..])[1..] == ([n.cells[i]] + n.cells[i + 1..])[1..];
    }
  }
}
