/**
  The write side of a table cursor: routing, page insertion, leaf and interior
  splits, promotion of dividers and retargeting of child pointers.
 */
module BTreeInsert {
  import opened BTreeLevels
  import opened BTreePage
  import opened BTreeShape
  import opened BTreeEntries
  import opened BTreePromote
  import opened BTreeTall
  import opened BTreeSearch

  const MAX_DEPTH: nat := 20

  datatype Frame = Frame(page: PageNumber, cellIdx: nat)

  datatype Status = Done | PageFull | Corrupt

  /** Binary search over the cells of a page: among ascending keys, the first one not below the key. */
  method BinarySearch(n: Node, key: Key) returns (lo: nat)
    ensures lo <= |n.cells|
    ensures SortedCells(n.cells) ==> lo == InsertPos(n.cells, key)
  {
    lo := 0;
    var hi := |n.cells|;
    while lo < hi
      invariant lo <= hi <= |n.cells|
      invariant SortedCells(n.cells) ==> forall i :: 0 <= i < lo ==> n.cells[i].key < key
      invariant SortedCells(n.cells) && hi < |n.cells| ==> key <= n.cells[hi].key
    {
      var mid := lo + (hi - lo) / 2;
      if key <= n.cells[mid].key {
        hi := mid;
      } else {
        if SortedCells(n.cells) {
          forall i | 0 <= i <= mid ensures n.cells[i].key < key {
            assert i < mid ==> n.cells[i].key < n.cells[mid].key;
          }
        }
        lo := mid + 1;
      }
    }
    if SortedCells(n.cells) {
      InsertPosIs(n.cells, key, lo);
    }
  }

  class TableCursor {
    var pages: Store
    var dbSize: nat
    var stack: seq<Frame>
    const pageSize: nat
    const root: PageNumber

    constructor (pageSize: nat, root: PageNumber, pages: Store, dbSize: nat)
      ensures this.pageSize == pageSize && this.root == root && this.pages == pages && this.dbSize == dbSize && stack == []
    {
      this.pageSize, this.root, this.pages, this.dbSize, stack := pageSize, root, pages, dbSize, [];
    }

    /** Insert a cell, keeping cells sorted by key; PageFull when there is not enough room. */
    method InsertCellIntoPage(p: PageNumber, c: Cell) returns (r: Status)
      requires p in pages
      modifies `pages
      ensures r == if Fits(old(pages)[p], p, CellSize(c)) then Done else PageFull
      ensures r == PageFull ==> pages == old(pages)
      ensures r == Done ==> pages == old(pages)[p := WithCell(old(pages)[p], c)]
    {
      var n := pages[p];
      var cc := |n.cells|;
      var ptrEnd := HeaderOffset(p) + HeaderSize(n.leaf) + (cc + 1) * 2;
      if n.contentStart < ptrEnd + CellSize(c) {
        return PageFull;
      }
      var ins := cc;
      var i := 0;
      while i < cc
        invariant i <= cc && ins == cc
        invariant forall j :: 0 <= j < i ==> n.cells[j].key < c.key
      {
        if c.key <= n.cells[i].key {
          ins := i;
          break;
        }
        i := i + 1;
      }
      InsertPosIs(n.cells, c.key, ins);
      pages := pages[p := n.(contentStart := n.contentStart - CellSize(c), cells := n.cells[..ins] + [c] + n.cells[ins..])];
      r := Done;
    }

    /** Rewrite a page with a new list of cells. */
    method WriteCellsToPage(p: PageNumber, cells: seq<Cell>, leaf: bool, rightmost: PageNumber) returns (r: Status)
      requires p in pages && SortedCells(cells) && 512 <= pageSize
      modifies `pages
      ensures pages.Keys == old(pages).Keys && Untouched(old(pages), pages, {p})
      ensures r == Done ==> TotalSize(cells) <= pageSize && pages[p] == Node(leaf, pageSize - TotalSize(cells), cells, rightmost)
      ensures r == Done && cells != [] ==> SpaceOk(pages[p], p, pageSize)
      ensures r == if HeaderOffset(p) + HeaderSize(leaf) + 2 * |cells| + TotalSize(cells) <= pageSize then Done else PageFull
    {
      hide CellSize, Inserted, TotalSize, SortedCells;
      pages := pages[p := Node(leaf, pageSize, [], rightmost)];
      NoCells(cells);
      var i := 0;
      while i < |cells|
        invariant i <= |cells| && pages.Keys == old(pages).Keys && Untouched(old(pages), pages, {p})
        invariant TotalSize(cells[..i]) <= pageSize
        invariant pages[p] == Node(leaf, pageSize - TotalSize(cells[..i]), cells[..i], rightmost)
        invariant i > 0 ==> SpaceOk(pages[p], p, pageSize)
      {
        TotalNext(cells, i);
        AppendedCell(cells, i);
        var st := InsertCellIntoPage(p, cells[i]);
        if st != Done {
          return st;
        }
        i := i + 1;
      }
      assert cells[..i] == cells;
      r := Done;
    }

    /** Descend from path[d] to the leaf at the end of the path, pushing the path on the stack. */
    method FindLeafForInsert(p: PageNumber, key: Key, ghost path: seq<PageNumber>) returns (r: Status, leaf: PageNumber)
      requires Descent(pages, path, key) && |stack| < |path| && p == path[|stack|] && |stack| <= MAX_DEPTH
      requires forall t :: 0 <= t < |path| ==> (At(pages, path[t]).leaf <==> t == |path| - 1)
      requires StackPages(stack) == path[..|stack|]
      modifies `stack
      ensures r == if |path| <= MAX_DEPTH then Done else Corrupt
      ensures r == Done ==> leaf == path[|path| - 1] && StackPages(stack) == path
      decreases |path| - |stack|
    {
      var n := pages[p];
      if |stack| == MAX_DEPTH {
        return Corrupt, 0;  // the fixed-capacity stack overflows
      }
      ghost var d := |stack|;
      assert path[..d + 1] == path[..d] + [p];
      if n.leaf {
        stack := stack + [Frame(p, 0)];
        return Done, p;
      }
      var lo := BinarySearch(n, key);
      stack := stack + [Frame(p, lo)];
      r, leaf := FindLeafForInsert(Child(n, lo), key, path);
    }

    /** Find an interior page that holds `m` as one of its own cells, whatever the pages look like. */
    method FindInteriorPageWithDivider(m: Key, ghost path: seq<PageNumber>) returns (r: Status, p: PageNumber, idx: nat)
      ensures r != PageFull
      ensures r == Done ==> p in pages && !pages[p].leaf && idx < |pages[p].cells| && pages[p].cells[idx].key == m
      ensures Finds(pages, root, path, m) ==>
        && r == (if |path| <= MAX_DEPTH then Done else Corrupt)
        && (r == Done ==> p == path[|path| - 1] && idx == InsertPos(At(pages, p).cells, m))
    {
      p := root;
      var t := 0;
      while t < MAX_DEPTH
        invariant t <= MAX_DEPTH && (Finds(pages, root, path, m) ==> t < |path| && p == path[t])
      {
        if p !in pages || pages[p].leaf {
          return Corrupt, 0, 0;
        }
        var n := pages[p];
        var lo := BinarySearch(n, m);
        if lo < |n.cells| && n.cells[lo].key == m {
          return Done, p, lo;
        }
        p := Child(n, lo);
        t := t + 1;
      }
      return Corrupt, 0, 0;
    }

    /** Take the next free page number. */
    method AllocatePage(leaf: bool) returns (p: PageNumber)
      modifies `pages, `dbSize
      ensures p == old(dbSize) + 1 == dbSize
      ensures pages == old(pages)[p := Node(leaf, pageSize, [], 0)]
    {
      p := dbSize + 1;
      dbSize := p;
      pages := pages[p := Node(leaf, pageSize, [], 0)];
    }

    /** The frame above the topmost one for another page than `p`. */
    method ParentOf(p: PageNumber) returns (q: PageNumber)
      requires |stack| >= 2 && stack[|stack| - 1].page == p && stack[|stack| - 2].page != p
      ensures q == stack[|stack| - 2].page
    {
      var i := |stack| - 1;
      while stack[i].page == p
        invariant |stack| - 2 <= i < |stack|
        decreases i
      {
        i := i - 1;
      }
      q := stack[i].page;
    }

    /** Write the two halves of a split page. */
    method WriteHalves(lp: PageNumber, rp: PageNumber, n: Node, c: Cell) returns (r: Status)
      requires lp in pages && rp in pages && lp != rp && Splittable(n, c) && 512 <= pageSize
      modifies `pages
      ensures pages.Keys == old(pages).Keys && Untouched(old(pages), pages, {lp, rp})
      ensures r == Done ==> Halves(n, c, pages, lp, rp, pageSize)
      ensures r == if HalfFits(n, lp, pageSize, PlanFor(n, c).left) && HalfFits(n, rp, pageSize, PlanFor(n, c).right) then Done else PageFull
    {
      var plan := PlanFor(n, c);
      PlanSorted(Inserted(n.cells, c), n.leaf, n.rightmost);
      r := WriteCellsToPage(lp, plan.left, n.leaf, plan.leftRightmost);
      if r == Done {
        r := WriteCellsToPage(rp, plan.right, n.leaf, plan.rightRightmost);
      }
    }

    /** Split the root page: its halves go to two new pages and it becomes their parent. */
    method SplitRootPage(c: Cell) returns (r: Status, left: PageNumber, right: PageNumber)
      requires root in pages && StoreOk(pages, dbSize) && Splittable(pages[root], c) && 512 <= pageSize
      modifies `pages, `dbSize
      ensures old(pages).Keys <= pages.Keys
      ensures StoreOk(pages, dbSize) && dbSize == old(dbSize) + 2 && left == dbSize && right == old(dbSize) + 1
      ensures r == if HalvesFit(old(pages)[root], c, pageSize, 2) then Done else PageFull
      ensures r == Done ==>
        && pages.Keys == old(pages).Keys + {left, right} && Untouched(old(pages), pages, {root})
        && Halves(old(pages)[root], c, pages, left, right, pageSize)
        && InnerOk(pages[root], root, pageSize)
        && pages[root].cells == [Divider(PlanFor(old(pages)[root], c).divider, left)] && pages[root].rightmost == right
    {
      hide Inserted, SortedCells, InsertPos, InnerOk, CellSize, Plan, Halves, Splittable, TotalSize;
      var n := pages[root];
      right := AllocatePage(n.leaf);
      left := AllocatePage(n.leaf);
      r := WriteHalves(left, right, n, c);
      if r == Done {
        var d := Divider(PlanFor(n, c).divider, left);
        OneDivider(d, right, root, pageSize);
        ghost var s1 := pages;
        pages := pages[root := Node(false, pageSize - CellSize(d), [d], right)];
        HalvesKept(n, c, s1, pages, left, right, pageSize);
      }
    }

    /** Split another page: the left half stays, the right half goes to a new page. */
    method SplitInPlace(q: PageNumber, c: Cell) returns (r: Status, right: PageNumber)
      requires q in pages && StoreOk(pages, dbSize) && Splittable(pages[q], c) && 512 <= pageSize
      modifies `pages, `dbSize
      ensures old(pages).Keys <= pages.Keys
      ensures StoreOk(pages, dbSize) && right == dbSize == old(dbSize) + 1
      ensures r == if HalvesFit(old(pages)[q], c, pageSize, q) then Done else PageFull
      ensures r == Done ==>
        && pages.Keys == old(pages).Keys + {right} && Untouched(old(pages), pages, {q})
        && Halves(old(pages)[q], c, pages, q, right, pageSize)
    {
      var n := pages[q];
      right := AllocatePage(n.leaf);
      r := WriteHalves(q, right, n, c);
    }

    /**
      Split the full page `q`, on level v.depth of the path to the key, while adding the cell `c` to it.
      When the promotion is safe the slot of `q` becomes two slots, divided by the promoted key; when
      it is not, a child pointer skips a level.
     */
    method SplitAndInsertAt(q: PageNumber, c: Cell, ghost v: View, ghost k: nat)
      returns (r: Status, ghost lp: PageNumber, ghost rp: PageNumber, ghost e': nat)
      requires CanSplit(pages, dbSize, pageSize, root, StackPages(stack), v, q, c) && v.depth < MAX_DEPTH
      requires TallReady(pages, pageSize, v, q, c, k)
      modifies `pages, `dbSize, `stack
      ensures StoreOk(pages, dbSize) && old(dbSize) <= dbSize && old(pages).Keys <= pages.Keys
      ensures r == PageFull <==> !HalvesFit(old(pages)[q], c, pageSize, if q == root then 2 else q)
      ensures r == PageFull ==> !InnerOk(old(pages)[q], q, pageSize)
      ensures r != PageFull ==> FirstKept(old(pages), pages, v.above + {q})
      ensures r != PageFull && SafeUp(old(pages), root, v, PlanFor(old(pages)[q], c).divider) ==>
        && r == Done && Halves(old(pages)[q], c, pages, lp, rp, pageSize) && Tall(pages, lp, k) && Tall(pages, rp, k)
        && SlotSplit(old(pages), pages, old(dbSize), pageSize, root, v, PlanFor(old(pages)[q], c).divider, lp, rp, e')
        && (Roomy(old(pages), root, v, PlanFor(old(pages)[q], c).divider) ==> e' == v.depth)
      ensures r != PageFull && !SafeUp(old(pages), root, v, PlanFor(old(pages)[q], c).divider) ==> Broken(pages, root, k)
      decreases v.depth, 0
    {
      hide Level, Upper, Above, PathPage, PathIndex, Plan, Halves, SlotSplit, Inserted, Fits, SafeUp, Broken, TallReady, FirstKept, HalvesFit, InnerOk, Splittable, Promoted, PagesTall, TallOut;
      ghost var s0, size0 := pages, dbSize;
      var divider := PlanFor(pages[q], c).divider;
      HalvesFitWhenInner(pages[q], q, c, dbSize, pageSize);
      if q == root {
        RootIsDepthZero(s0, pageSize, root, v.key, v.depth);
        r, lp, rp := SplitRootPage(c);
        e' := 1;
        if r == Done {
          RootSplit(s0, pages, size0, pageSize, root, v, divider, lp, rp);
          RootTall(s0, pages, size0, pageSize, root, v, c, k, lp, rp);
        }
      } else {
        var right;
        r, right := SplitInPlace(q, c);
        lp, rp, e' := q, right, 0;
        if r == Done {
          ghost var s1, size1 := pages, dbSize;
          NotRoot(s0, root, v);
          HalvesInPlace(s0, s1, size0, pageSize, root, v, right, divider, c);
          UpperFacts(s0, pageSize, root, v.depth);
          SplitTall(s0, s1, pageSize, v, q, c, k, right);
          r, e' := Promote(q, right, divider, v, k);
          InPlaceKeeps(s0, s1, pages, pageSize, root, v, q, right, k);
          RoomyFrame(s0, s1, pageSize, root, v, divider);
          if SafeUp(s0, root, v, divider) {
            SplitPromoted(s0, s1, pages, size0, pageSize, root, v, right, divider, e');
            HalvesKept(s0[q], c, s1, pages, q, right, pageSize);
          }
        }
      }
    }

    /**
      Put the divider `m` between page `p`, on level v.depth of the path to the key, and its new right
      sibling `r`: a cell for `p` goes into the parent, which may have to be split in turn; then the
      pointer after the cell, wherever the search finds it, is set to `r`.
     */
    method Promote(p: PageNumber, r: PageNumber, m: Key, ghost v: View, ghost k: nat) returns (st: Status, ghost d': nat)
      requires CanPromote(pages, dbSize, pageSize, root, StackPages(stack), v, p, m) && v.depth < MAX_DEPTH
      requires r in pages && r !in v.above && r !in PagesOf(v.level)
      requires PagesTall(pages, v.level, k, v.above) && TallOut(pages, r, k, v.above)
      modifies `pages, `dbSize, `stack
      ensures StoreOk(pages, dbSize) && old(dbSize) <= dbSize && old(pages).Keys <= pages.Keys
      ensures st != PageFull && FirstKept(old(pages), pages, v.above)
      ensures SafeUp(old(pages), root, v, m) ==>
        && st == Done && Promoted(old(pages), pages, old(dbSize), pageSize, root, v, m, r, d')
        && (Roomy(old(pages), root, v, m) ==> d' == v.depth)
      ensures !SafeUp(old(pages), root, v, m) ==> Broken(pages, root, k)
      decreases v.depth - 1, 2
    {
      hide *;
      ghost var s0, size0, sp := pages, dbSize, StackPages(stack);
      ghost var e;
      st, e := PutDivider(p, m, v, k);
      d' := e + 1;
      if st == Done {
        ghost var s1 := pages;
        TallAfter(s0, s1, r, k, v.above);
        ghost var path := WhereFound(s0, s1, size0, pageSize, root, sp, v, m, p, e, k);
        st := Retarget(m, r, path, k);
        KeptChain(s0, s1, pages, v.above, {}, v.above);
        Retargeted(s0, s1, pages, size0, pageSize, root, sp, v, m, p, r, e, k, path);
      }
    }

    /** Insert the cell (p, m) into the parent of `p`, splitting it if it is full. */
    method PutDivider(p: PageNumber, m: Key, ghost v: View, ghost k: nat) returns (st: Status, ghost e: nat)
      requires CanPromote(pages, dbSize, pageSize, root, StackPages(stack), v, p, m) && v.depth < MAX_DEPTH
      requires PagesTall(pages, v.level, k, v.above)
      modifies `pages, `dbSize, `stack
      ensures StoreOk(pages, dbSize) && old(dbSize) <= dbSize && old(pages).Keys <= pages.Keys
      ensures st != PageFull && FirstKept(old(pages), pages, v.above)
      ensures SafeUp(old(pages), root, v, m) ==>
        && st == Done && e <= v.depth && DividerIn(old(pages), pages, old(dbSize), pageSize, root, v, m, p, e)
        && (Roomy(old(pages), root, v, m) ==> e == v.depth - 1)
      ensures !SafeUp(old(pages), root, v, m) ==> Broken(pages, root, k) || (st == Done && e <= v.depth && SelfIn(pages, pageSize, root, m, e, k + 1))
      decreases v.depth - 1, 1
    {
      hide Level, Upper, Above, PathIndex, PathPage, SafeUp, DividerIn, SlotSplit, Halves, Plan, Inserted, InnerOk, Between, TallReady, FirstKept, HalvesFit, PagesTall, TallOut, Broken, SelfIn, Fits;
      ghost var s0, size0, d := pages, dbSize, v.depth;
      ParentFacts(s0, pageSize, root, v.key, d);
      SafeStep(s0, root, v, m);
      assert stack[d].page == StackPages(stack)[d] && stack[d - 1].page == StackPages(stack)[d - 1];
      var parent := ParentOf(p);
      var cell := Divider(m, p);
      st := InsertCellIntoPage(parent, cell);
      e := d - 1;
      if st == Done {
        AfterFit(s0, size0, pageSize, root, v, m, p);
        FitKeeps(s0, pages, pageSize, root, v, parent, cell);
      } else {
        // the frame of `p` leaves the stack, so that the parent is now its last page
        stack := stack[..|stack| - 1];
        assert StackPages(stack) == PathPages(s0, root, v.key, d - 1);
        SplitReady(s0, dbSize, pageSize, root, v, m, p);
        ParentTall(s0, dbSize, pageSize, root, v, m, p, k);
        HalvesFitWhenInner(s0[parent], parent, cell, dbSize, pageSize);
        ghost var u, lp, rp := ViewOf(s0, root, v.key, d - 1), 0, 0;
        st, lp, rp, e := SplitAndInsertAt(parent, cell, u, k + 1);
        ParentEnds(s0, pages, size0, pageSize, root, v, m, p, lp, rp, e, k, st == Done);
      }
    }

    /**
      Insert the row `c` into the tree of height h with the rows `rows`.  When the leaf takes the row, the
      result is a tree with the old rows and the new one in its place if and only if the splits it sets off
      are safe; otherwise it is no tree of any height.
     */
    method Insert(c: Cell, ghost h: nat, ghost rows: seq<Cell>) returns (r: Status, ghost h': nat)
      requires Holds(pages, dbSize, pageSize, root, h, rows)
      requires c.Row? && !HasKey(rows, c.key)
      modifies `pages, `dbSize, `stack
      ensures h >= 20 ==> r == Corrupt
      ensures h < 20 ==> (r == PageFull <==> !Taken(old(pages), root, c, h, pageSize))
      ensures h < MAX_DEPTH && Taken(old(pages), root, c, h, pageSize) ==>
        ((exists t :: Holds(pages, dbSize, pageSize, root, t, Inserted(rows, c))) <==> Safe(old(pages), PathPages(old(pages), root, c.key, h), c))
      ensures h < MAX_DEPTH && Taken(old(pages), root, c, h, pageSize) && Safe(old(pages), PathPages(old(pages), root, c.key, h), c) ==>
        r == Done && Holds(pages, dbSize, pageSize, root, h', Inserted(rows, c)) && h' <= h + 1
      ensures h < MAX_DEPTH && Taken(old(pages), root, c, h, pageSize) && !Safe(old(pages), PathPages(old(pages), root, c.key, h), c) ==>
        forall t :: !TreeOk(pages, dbSize, pageSize, root, t)
      ensures h < MAX_DEPTH && !Splits(old(pages), root, c, h) ==> h' == h && pages == RowAdded(old(pages), PathPage(old(pages), root, c.key, h), c)
      ensures h < MAX_DEPTH && RoomAbove(old(pages), root, c, h) ==> h' == h
      ensures forall b: nat :: h < MAX_DEPTH && HalfIsSmall(old(pages), root, c, h, pageSize, b) ==> r != PageFull
    {
      hide Holds, HasKey, Safe, Inserted, Level, Entries, TreeOk, Splits, RoomAbove, RowAdded, Taken, HalfIsSmall;
      SmallIsTaken(pages, dbSize, pageSize, root, h, rows, c);
      h' := h;
      stack := [];
      HoldsTree(pages, dbSize, pageSize, root, h, rows);
      PathDescends(pages, dbSize, pageSize, root, c.key, h);
      var leaf;
      r, leaf := FindLeafForInsert(root, c.key, PathPages(pages, root, c.key, h));
      if r == Done {
        r, h' := AddToLeaf(leaf, c, h, rows);
        IffSafe(pages, dbSize, pageSize, root, h', Inserted(rows, c));
      }
    }

    /** Put the row into its leaf, or split the leaf. */
    method AddToLeaf(leaf: PageNumber, c: Cell, ghost h: nat, ghost rows: seq<Cell>) returns (r: Status, ghost h': nat)
      requires Holds(pages, dbSize, pageSize, root, h, rows)
      requires c.Row? && !HasKey(rows, c.key)
      requires leaf == PathPage(pages, root, c.key, h) && leaf in pages
      requires StackPages(stack) == PathPages(pages, root, c.key, h) && h < MAX_DEPTH
      modifies `pages, `dbSize, `stack
      ensures r == PageFull <==> !Taken(old(pages), root, c, h, pageSize)
      ensures r != PageFull && Safe(old(pages), PathPages(old(pages), root, c.key, h), c) ==>
        r == Done && Holds(pages, dbSize, pageSize, root, h', Inserted(rows, c)) && h' <= h + 1
      ensures r != PageFull && !Safe(old(pages), PathPages(old(pages), root, c.key, h), c) ==>
        forall t :: !TreeOk(pages, dbSize, pageSize, root, t)
      ensures !Splits(old(pages), root, c, h) ==> h' == h && pages == RowAdded(old(pages), leaf, c)
      ensures RoomAbove(old(pages), root, c, h) ==> h' == h
    {
      hide Level, Upper, Above, PathIndex, PathPage, Holds, HasKey, Safe, Inserted, SlotSplit, Halves, Broken, TallReady, SafeUp, Roomy, TreeOk, HalvesFit, PlanFor, FirstKept;
      ghost var s0, size0 := pages, dbSize;
      LeafSafe(s0, size0, pageSize, root, h, rows, c);
      h' := h;
      r := InsertCellIntoPage(leaf, c);
      if r == Done {
        RowFits(s0, size0, pageSize, root, h, rows, c);
      } else {
        LeafSplittable(s0, size0, pageSize, root, h, rows, c);
        ghost var lp, rp, e;
        r, lp, rp, e := SplitAndInsertAt(leaf, c, ViewOf(s0, root, c.key, h), 0);
        if r != PageFull {
          LeafEnds(s0, pages, size0, dbSize, pageSize, root, h, rows, c, lp, rp, e);
        }
        if r == Done && Safe(s0, PathPages(s0, root, c.key, h), c) && !RoomAbove(s0, root, c, h) {
          h' := e;
        }
      }
    }

    /**
      A run of inserts into an initially empty table, ended by the first row that is not fresh,
      not safe or not accepted: the tree is in shape and holds exactly the rows inserted, in key order.
     */
    method InsertRun(rows: seq<Cell>) returns (done: nat, r: Status, ghost h: nat, ghost held: seq<Cell>)
      requires StoreOk(pages, dbSize) && 512 <= pageSize <= 32768
      requires root in pages && pages[root] == Node(true, pageSize, [], 0)
      requires AllRows(rows)
      modifies `pages, `dbSize, `stack
      ensures done <= |rows|
      ensures r == Done ==> Holds(pages, dbSize, pageSize, root, h, held)
      ensures r == Done ==> SortedCells(held) && SameRows(held, rows[..done])
      ensures r != Done ==> done < |rows|
      ensures r == Done && done < |rows| ==>
        var c := rows[done]; HasKey(held, c.key) || !Safe(pages, PathPages(pages, root, c.key, h), c)
      ensures forall b: nat :: OfLength(rows, b) && 108 + 3 * (b + 2) <= pageSize ==> r != PageFull
    {
      hide OfLength;
      hide Holds, KeysAre, HasKey, Safe, PathPages, PathPage, RoutePath, Inserted, SortedCells, Accepts, StoreOk;
      EmptyTree(pages, dbSize, pageSize, root);
      NoKeys();
      h, held := 0, [];
      r := Done;
      done := 0;
      var keys: set<Key> := {};
      assert rows[..0] == [];
      while done < |rows|
        invariant done <= |rows| && r == Done && h <= MAX_DEPTH
        invariant Holds(pages, dbSize, pageSize, root, h, held)
        invariant KeysAre(held, keys)
        invariant SameRows(held, rows[..done])
      {
        var c := rows[done];
        OneLengthTaken(pages, dbSize, pageSize, root, h, held, rows, done);
        RouteFromRoot(pages, dbSize, pageSize, root, c.key, h, held, MAX_DEPTH);
        KnownKey(held, keys, c.key);
        if c.key in keys || !Safe(pages, RoutePath(pages, root, c.key, MAX_DEPTH), c) {
          break;
        }
        r, h := Insert(c, h, held);
        if r != Done { return; }
        OneMoreRow(held, rows, done);
        InsertedKeys(held, c, keys);
        held := Inserted(held, c);
        keys := keys + {c.key};
        done := done + 1;
      }
      HeldSorted(pages, dbSize, pageSize, root, h, held);
    }

    /** Find the divider `m` and set the pointer that follows it; a store that is broken above stays so. */
    method Retarget(m: Key, r: PageNumber, ghost path: seq<PageNumber>, ghost k: nat) returns (st: Status)
      requires StoreOk(pages, dbSize) && Tall(pages, r, k)
      modifies `pages
      ensures StoreOk(pages, dbSize) && old(pages).Keys == pages.Keys
      ensures st != PageFull && FirstKept(old(pages), pages, {})
      ensures Broken(old(pages), root, k) ==> Broken(pages, root, k)
      ensures Finds(old(pages), root, path, m) ==>
        && st == (if |path| <= MAX_DEPTH then Done else Corrupt)
        && (st == Done ==> PointedAt(old(pages), pages, path[|path| - 1], m, r))
    {
      hide Finds, Broken, FirstKept, TallOut;
      ghost var s0 := pages;
      var target, idx;
      NothingKept(s0);
      st, target, idx := FindInteriorPageWithDivider(m, path);
      if st == Done {
        var n := pages[target];
        if idx + 1 < |n.cells| {
          pages := pages[target := n.(cells := n.cells[idx + 1 := Divider(n.cells[idx + 1].key, r)])];
        } else {
          pages := pages[target := n.(rightmost := r)];
        }
        assert pages == s0[target := WithChild(At(s0, target), idx + 1, r)];
        RetargetKeeps(s0, target, idx + 1, r);
        if Broken(s0, root, k) {
          BrokenKept(s0, root, k, target, idx + 1, r, k);
        }
      }
    }
  }

  lemma NoCells(cells: seq<Cell>)
    ensures cells[..0] == [] && TotalSize([]) == 0
  {
  }

  /** The pointer that follows the page's cell m has been set to r. */
  ghost predicate PointedAt(s: Store, s': Store, q: PageNumber, m: Key, r: PageNumber) {
    && q in s && InsertPos(At(s, q).cells, m) < |At(s, q).cells|
    && s' == s[q := WithChild(At(s, q), InsertPos(At(s, q).cells, m) + 1, r)]
  }

  lemma NothingKept(s: Store)
    ensures FirstKept(s, s, {})
  {
  }

  /** The parent of the page of the view has room for the divider. */
  ghost predicate Roomy(s: Store, root: PageNumber, v: View, m: Key) {
    v.depth > 0
    && var q := PathPage(s, root, v.key, v.depth - 1);
       Fits(At(s, q), q, CellSize(Divider(m, PathPage(s, root, v.key, v.depth))))
  }

  // ---- Splitting and promoting ----

  lemma NotRoot(s: Store, root: PageNumber, v: View)
    requires PathPage(s, root, v.key, v.depth) != root
    ensures v.depth > 0
  {
  }

  lemma RootTall(s: Store, s': Store, dbSize: nat, pageSize: nat, root: PageNumber, v: View, c: Cell, k: nat, lp: PageNumber, rp: PageNumber)
    requires v.depth == 0 && ViewOk(s, root, v) && root in s && 512 <= pageSize && StoreOk(s, dbSize)
    requires TallReady(s, pageSize, v, root, c, k) && !Fits(At(s, root), root, CellSize(c))
    requires Halves(At(s, root), c, s', lp, rp, pageSize) && lp in s' && rp in s' && Untouched(s, s', {root})
    ensures FirstKept(s, s', v.above + {root})
    ensures Tall(s', lp, k) && Tall(s', rp, k)
    ensures forall m :: SafeUp(s, root, v, m) && !Roomy(s, root, v, m)
  {
    hide TallReady, Halves, TallOut;
    assert PagesOf(v.level) == {root} by {
      assert v.level[0].page == root;
    }
    HalvesTall(s, s', pageSize, v, root, c, k, lp, rp, {});
  }

  lemma InPlaceKeeps(s0: Store, s1: Store, s2: Store, pageSize: nat, root: PageNumber, v: View, q: PageNumber, right: PageNumber, k: nat)
    requires Untouched(s0, s1, {q}) && FirstKept(s1, s2, v.above)
    requires PagesTall(s1, v.level, k, v.above) && TallOut(s1, right, k, v.above) && v.index < |v.level| && v.level[v.index].page == q
    ensures FirstKept(s0, s2, v.above + {q}) && Tall(s2, q, k) && Tall(s2, right, k)
  {
    hide Untouched, FirstKept, TallOut;
    UntouchedKeeps(s0, s1, {q});
    KeptChain(s0, s1, s2, {q}, v.above, v.above + {q});
    TallAfter(s1, s2, q, k, v.above);
    TallAfter(s1, s2, right, k, v.above);
  }

  lemma TallAfter(s: Store, s': Store, p: PageNumber, k: nat, out: set<PageNumber>)
    requires TallOut(s, p, k, out) && FirstKept(s, s', out)
    ensures Tall(s', p, k)
  {
    TallKept(s, s', p, k, out);
    TallWider(s', p, k, out, {});
  }

  lemma RoomyFrame(s: Store, s': Store, pageSize: nat, root: PageNumber, v: View, m: Key)
    requires Upper(s, pageSize, root, v.depth) && v.depth > 0 && Untouched(s, s', {PathPage(s, root, v.key, v.depth)})
    ensures Roomy(s', root, v, m) <==> Roomy(s, root, v, m)
  {
    hide Level, Upper, Above, PathPage, PathIndex, Fits;
    var q := PathPage(s, root, v.key, v.depth);
    ParentFacts(s, pageSize, root, v.key, v.depth);
    InLevel(s, root, v.key, v.depth);
    UpperFacts(s, pageSize, root, v.depth);
    AboveStored(s, pageSize, root, v.depth);
    UpperMono(s, pageSize, root, v.depth - 1, v.depth);
    PathsFrame(s, s', pageSize, root, v.key, v.depth);
    PathsFrame(s, s', pageSize, root, v.key, v.depth - 1);
  }

  lemma HalvesKept(n: Node, c: Cell, s: Store, s': Store, lp: PageNumber, rp: PageNumber, pageSize: nat)
    requires Halves(n, c, s, lp, rp, pageSize) && At(s', lp) == At(s, lp) && At(s', rp) == At(s, rp)
    ensures Halves(n, c, s', lp, rp, pageSize)
  {
    hide Plan, Inserted, SpaceOk;
  }

  lemma FitKeeps(s: Store, s': Store, pageSize: nat, root: PageNumber, v: View, q: PageNumber, c: Cell)
    requires v.depth > 0 && ViewOk(s, root, v) && q == PathPage(s, root, v.key, v.depth - 1) && q in s
    requires CellSize(c) <= At(s, q).contentStart && s' == s[q := WithCell(At(s, q), c)]
    ensures FirstKept(s, s', v.above)
  {
    PathAbove(s, root, v.key, v.depth - 1, v.depth);
  }

  /** What the split of the parent needs to know about heights. */
  lemma ParentTall(s: Store, dbSize: nat, pageSize: nat, root: PageNumber, v: View, m: Key, p: PageNumber, k: nat)
    requires CanPromote(s, dbSize, pageSize, root, PathPages(s, root, v.key, v.depth), v, p, m)
    requires PagesTall(s, v.level, k, v.above)
    ensures TallReady(s, pageSize, ViewOf(s, root, v.key, v.depth - 1), PathPage(s, root, v.key, v.depth - 1), Divider(m, p), k + 1)
  {
    hide Level, Upper, Above, PathPage, PathIndex, TallOut, LevelTall, InnerOk;
    var d := v.depth;
    ParentFacts(s, pageSize, root, v.key, d);
    PathGap(s, root, v.key, d - 1);
    PathIndexStep(s, root, v.key, d - 1);
    LevelFromBelow(s, pageSize, root, d - 1, k);
    assert TallOut(s, v.level[v.index].page, k, v.above);
  }

  /** How the split of the parent ends. */
  lemma ParentEnds(s: Store, s': Store, dbSize: nat, pageSize: nat, root: PageNumber, v: View, m: Key, p: PageNumber,
                   lp: PageNumber, rp: PageNumber, e: nat, k: nat, done: bool)
    requires CanPromote(s, dbSize, pageSize, root, PathPages(s, root, v.key, v.depth), v, p, m)
    requires TallReady(s, pageSize, ViewOf(s, root, v.key, v.depth - 1), PathPage(s, root, v.key, v.depth - 1), Divider(m, p), k + 1)
    requires
      var q := PathPage(s, root, v.key, v.depth - 1);
      var u := ViewOf(s, root, v.key, v.depth - 1);
      var c := Divider(m, p);
      && q in s && InnerOk(At(s, q), q, pageSize) && !Fits(At(s, q), q, CellSize(c)) && FirstKept(s, s', u.above + {q})
      && (SafeUp(s, root, u, PlanFor(At(s, q), c).divider) ==>
            done && Halves(At(s, q), c, s', lp, rp, pageSize) && Tall(s', lp, k + 1) && Tall(s', rp, k + 1)
            && SlotSplit(s, s', dbSize, pageSize, root, u, PlanFor(At(s, q), c).divider, lp, rp, e))
      && (!SafeUp(s, root, u, PlanFor(At(s, q), c).divider) ==> Broken(s', root, k + 1))
    ensures FirstKept(s, s', v.above)
    ensures SafeUp(s, root, v, m) ==> done && e <= v.depth && DividerIn(s, s', dbSize, pageSize, root, v, m, p, e)
    ensures !SafeUp(s, root, v, m) ==> Broken(s', root, k) || (done && e <= v.depth && SelfIn(s', pageSize, root, m, e, k + 1))
  {
    assert v.depth > 0;
    hide *;
    var q := PathPage(s, root, v.key, v.depth - 1);
    var u := ViewOf(s, root, v.key, v.depth - 1);
    var divider := PlanFor(At(s, q), Divider(m, p)).divider;
    ParentStep(s, dbSize, pageSize, root, v, m, p);
    KeptMore(s, s', u.above + {q}, v.above);
    if !SafeUp(s, root, u, divider) {
      BrokenLower(s', root, k);
    } else {
      SplitDepth(s, s', dbSize, pageSize, root, u, divider, lp, rp, e);
      if divider == m {
        ParentSelf(s, s', dbSize, pageSize, root, v, m, p, lp, rp, e, k + 1);
      } else {
        ParentSplit(s, s', dbSize, pageSize, root, v, m, p, lp, rp, e);
      }
    }
  }

  lemma ParentStep(s: Store, dbSize: nat, pageSize: nat, root: PageNumber, v: View, m: Key, p: PageNumber)
    requires CanPromote(s, dbSize, pageSize, root, PathPages(s, root, v.key, v.depth), v, p, m)
    ensures v.depth > 0
    ensures
      var q := PathPage(s, root, v.key, v.depth - 1);
      var u := ViewOf(s, root, v.key, v.depth - 1);
      var divider := PlanFor(At(s, q), Divider(m, p)).divider;
      && u.depth + 1 == v.depth && u.above + {q} <= v.above
      && (InnerOk(At(s, q), q, pageSize) && !Fits(At(s, q), q, CellSize(Divider(m, p))) ==>
            (SafeUp(s, root, v, m) <==> divider != m && SafeUp(s, root, u, divider)))
  {
    hide Level, Above, PathPage, PathIndex, Upper, SafeUp, Fits, Plan, Inserted, CellSize;
    SafeStep(s, root, v, m);
    PathAbove(s, root, v.key, v.depth - 1, v.depth);
    PathIndexStep(s, root, v.key, v.depth - 1);
  }

  lemma SplitDepth(s: Store, s': Store, dbSize: nat, pageSize: nat, root: PageNumber, v: View, m: Key, lp: PageNumber, rp: PageNumber, e: nat)
    requires SlotSplit(s, s', dbSize, pageSize, root, v, m, lp, rp, e)
    ensures e <= v.depth + 1
  {
  }

  /** The split of the parent promotes the divider that it was given. */
  lemma ParentSelf(s: Store, s': Store, dbSize: nat, pageSize: nat, root: PageNumber, v: View, m: Key, p: PageNumber,
                   lp: PageNumber, rp: PageNumber, e: nat, k: nat)
    requires CanPromote(s, dbSize, pageSize, root, PathPages(s, root, v.key, v.depth), v, p, m)
    requires
      var q := PathPage(s, root, v.key, v.depth - 1);
      var u := ViewOf(s, root, v.key, v.depth - 1);
      && TallReady(s, pageSize, u, q, Divider(m, p), k) && FirstKept(s, s', u.above + {q})
      && SlotSplit(s, s', dbSize, pageSize, root, u, m, lp, rp, e) && Tall(s', lp, k) && Tall(s', rp, k)
    ensures SelfIn(s', pageSize, root, m, e, k)
  {
    hide Level, Above, PathPage, PathIndex, SlotSplit, FirstKept, TallOut, LevelTall, InnerOk, Upper, SelfIn;
    var u := ViewOf(s, root, v.key, v.depth - 1);
    ParentFacts(s, pageSize, root, v.key, v.depth);
    UpperFacts(s, pageSize, root, v.depth - 1);
    SelfSplit(s, s', dbSize, pageSize, root, u, PathPage(s, root, v.key, v.depth - 1), m, lp, rp, e, k);
  }

  /** Where the search for the divider m ends once m has been put above. */
  lemma WhereFound(s0: Store, s: Store, dbSize: nat, pageSize: nat, root: PageNumber, sp: seq<PageNumber>, v: View, m: Key, p: PageNumber, e: nat, k: nat)
      returns (path: seq<PageNumber>)
    requires CanPromote(s0, dbSize, pageSize, root, sp, v, p, m) && v.depth < MAX_DEPTH
    requires SafeUp(s0, root, v, m) ==> e <= v.depth && DividerIn(s0, s, dbSize, pageSize, root, v, m, p, e)
    requires !SafeUp(s0, root, v, m) ==> Broken(s, root, k) || (e <= v.depth && SelfIn(s, pageSize, root, m, e, k + 1))
    ensures SafeUp(s0, root, v, m) ==> path == PathPages(s, root, m, e)
    ensures !SafeUp(s0, root, v, m) ==> Broken(s, root, k) || (0 < |path| <= e && path == PathPages(s, root, m, |path| - 1))
    ensures SafeUp(s0, root, v, m) || !Broken(s, root, k) ==> path != [] && |path| <= MAX_DEPTH && Finds(s, root, path, m)
  {
    hide Level, Upper, Above, PathPage, PathIndex, SafeUp, Broken, SelfIn, Finds, DividerIn;
    if SafeUp(s0, root, v, m) {
      UpperFacts(s0, pageSize, root, v.depth);
      DividerFound(s0, s, dbSize, pageSize, root, v, m, p, e);
      path := PathPages(s, root, m, e);
    } else if !Broken(s, root, k) {
      var n := SelfDescent(s, pageSize, root, m, e, k + 1);
      path := PathPages(s, root, m, n);
    } else {
      path := [];
    }
  }

  /** What the retargeting makes of it. */
  lemma Retargeted(s0: Store, s: Store, s': Store, dbSize: nat, pageSize: nat, root: PageNumber, sp: seq<PageNumber>, v: View, m: Key, p: PageNumber, r: PageNumber,
                   e: nat, k: nat, path: seq<PageNumber>)
    requires CanPromote(s0, dbSize, pageSize, root, sp, v, p, m)
    requires r in s0 && r !in v.above && r !in PagesOf(v.level) && Tall(s, r, k)
    requires SafeUp(s0, root, v, m) ==> DividerIn(s0, s, dbSize, pageSize, root, v, m, p, e) && path == PathPages(s, root, m, e)
    requires !SafeUp(s0, root, v, m) ==>
      Broken(s, root, k) || (SelfIn(s, pageSize, root, m, e, k + 1) && 0 < |path| <= e && path == PathPages(s, root, m, |path| - 1) && Finds(s, root, path, m))
    requires Broken(s, root, k) ==> Broken(s', root, k)
    requires SafeUp(s0, root, v, m) || !Broken(s, root, k) ==> path != [] && PointedAt(s, s', path[|path| - 1], m, r)
    ensures SafeUp(s0, root, v, m) ==> Promoted(s0, s', dbSize, pageSize, root, v, m, r, e + 1)
    ensures !SafeUp(s0, root, v, m) ==> Broken(s', root, k)
  {
    hide Level, Upper, Above, PathPage, PathIndex, SafeUp, Broken, SelfIn, Finds, DividerIn, Promoted, TallOut;
    if SafeUp(s0, root, v, m) {
      AfterRetarget(s0, s, dbSize, pageSize, root, v, m, p, r, e);
      assert path[e] == PathPage(s, root, m, e);
    } else if !Broken(s, root, k) {
      var n: nat := |path| - 1;
      SelfRetarget(s, pageSize, root, m, e, k, n, r);
      assert path[n] == PathPage(s, root, m, n);
    }
  }

  // ---- Whole inserts ----

  /** The leaf on the path to `key` and its place among the leaves. */
  lemma LeafOnPath(s: Store, dbSize: nat, pageSize: nat, root: PageNumber, key: Key, h: nat)
    requires TreeOk(s, dbSize, pageSize, root, h)
    ensures
      var v := ViewOf(s, root, key, h);
      var q := PathPage(s, root, key, h);
      && v.index < |v.level| && InGap(v.level, v.index, key) && v.level[v.index].page == q
      && q in s && q !in v.above && s[q].leaf
      && Sorted(v.level) && NoDup(v.level) && AllLeaves(s, pageSize, v.level)
  {
    PathGap(s, root, key, h);
    PathPageKind(s, dbSize, pageSize, root, key, h, h);
    InLevel(s, root, key, h);
  }

  /** A tree of height h with the given rows. */
  ghost predicate Holds(s: Store, dbSize: nat, pageSize: nat, root: PageNumber, h: nat, rows: seq<Cell>) {
    TreeOk(s, dbSize, pageSize, root, h) && Entries(s, Level(s, root, h)) == rows
  }

  lemma HoldsTree(s: Store, dbSize: nat, pageSize: nat, root: PageNumber, h: nat, rows: seq<Cell>)
    requires Holds(s, dbSize, pageSize, root, h, rows)
    ensures TreeOk(s, dbSize, pageSize, root, h)
  {
  }

  ghost predicate KeysAre(rows: seq<Cell>, keys: set<Key>) {
    forall k: Key :: k in keys <==> HasKey(rows, k)
  }

  /** The leaf had room for the row. */
  lemma RowFits(s: Store, dbSize: nat, pageSize: nat, root: PageNumber, h: nat, rows: seq<Cell>, c: Cell)
    requires Holds(s, dbSize, pageSize, root, h, rows) && c.Row? && !HasKey(rows, c.key)
    requires
      var q := PathPage(s, root, c.key, h);
      Fits(At(s, q), q, CellSize(c))
    ensures
      var q := PathPage(s, root, c.key, h);
      Holds(s[q := WithCell(At(s, q), c)], dbSize, pageSize, root, h, Inserted(rows, c))
  {
    hide Level, Upper, Above, PathIndex, PathPage, Entries, InGap, HasKey, Inserted, WithCell, AllLeaves;
    LeafOnPath(s, dbSize, pageSize, root, c.key, h);
    var v := ViewOf(s, root, c.key, h);
    LeafInsertLeaves(s, pageSize, v.level, v.index, c);
    LeafInsertEntries(s, pageSize, v.level, v.index, c);
    var q := PathPage(s, root, c.key, h);
    var s' := s[q := WithCell(At(s, q), c)];
    LevelFrame(s, s', root, h);
    UpperFrame(s, s', pageSize, root, h);
  }

  // ---- What a caller can tell before the insert ----

  /** The leaf on the path takes the row: it has room, or both halves of a split fit a page. */
  ghost predicate Taken(s: Store, root: PageNumber, c: Cell, h: nat, pageSize: nat) {
    Accepts(At(s, PathPage(s, root, c.key, h)), PathPage(s, root, c.key, h), c, pageSize, root)
  }

  /** The leaf on the path has no room for the row. */
  ghost predicate Splits(s: Store, root: PageNumber, c: Cell, h: nat) {
    !Fits(At(s, PathPage(s, root, c.key, h)), PathPage(s, root, c.key, h), CellSize(c))
  }

  ghost predicate RoomAbove(s: Store, root: PageNumber, c: Cell, h: nat) {
    Roomy(s, root, ViewOf(s, root, c.key, h), PlanFor(At(s, PathPage(s, root, c.key, h)), c).divider)
  }

  function RowAdded(s: Store, p: PageNumber, c: Cell): Store {
    if CellSize(c) <= At(s, p).contentStart then s[p := WithCell(At(s, p), c)] else s
  }

  /** No row of the leaf on the path, nor the new one, is longer than b, and a page has room for one more than half of them. */
  ghost predicate HalfIsSmall(s: Store, root: PageNumber, c: Cell, h: nat, pageSize: nat, b: nat) {
    var leaf := PathPage(s, root, c.key, h);
    var cells := At(s, leaf).cells;
    var half := (|cells| + 2) / 2 + 1;
    && (forall i :: 0 <= i < |cells| ==> CellSize(cells[i]) <= b) && CellSize(c) <= b
    && (if leaf == 1 then 100 else 0) + 8 + half * (b + 2) <= pageSize
  }

  lemma SmallIsTaken(s: Store, dbSize: nat, pageSize: nat, root: PageNumber, h: nat, rows: seq<Cell>, c: Cell)
    requires Holds(s, dbSize, pageSize, root, h, rows)
    ensures forall b: nat :: HalfIsSmall(s, root, c, h, pageSize, b) ==> Taken(s, root, c, h, pageSize)
  {
    hide Level, Upper, Above, PathIndex, PathPage, Inserted, Entries, AllLeaves, Plan, TotalSize, CellSize;
    LeafOnPath(s, dbSize, pageSize, root, c.key, h);
    var n := At(s, PathPage(s, root, c.key, h));
    var all := Inserted(n.cells, c);
    LeafSplitEven(all, n.rightmost);
    forall b: nat | HalfIsSmall(s, root, c, h, pageSize, b) ensures Taken(s, root, c, h, pageSize) {
      forall i | 0 <= i < |all| ensures CellSize(all[i]) <= b {
        InsertedElems(n.cells, c, i);
      }
      var plan := PlanFor(n, c);
      TotalAtMost(plan.left, b);
      TotalAtMost(plan.right, b);
      Multiples(|plan.left|, (|n.cells| + 2) / 2 + 1, b + 2);
      Multiples(|plan.right|, (|n.cells| + 2) / 2 + 1, b + 2);
    }
  }

  lemma {:induction false} TotalAtMost(cells: seq<Cell>, b: nat)
    requires forall i :: 0 <= i < |cells| ==> CellSize(cells[i]) <= b
    ensures 2 * |cells| + TotalSize(cells) <= |cells| * (b + 2)
  {
    hide CellSize;
    if cells != [] {
      TotalAtMost(cells[1..], b);
      assert |cells| * (b + 2) == |cells[1..]| * (b + 2) + (b + 2);
    }
  }

  lemma Multiples(m: nat, n: nat, x: nat)
    requires m <= n
    ensures m * x <= n * x
  {
    assert n * x - m * x == (n - m) * x;
  }

  /** All rows have b bytes. */
  ghost predicate OfLength(rows: seq<Cell>, b: nat) {
    forall i :: 0 <= i < |rows| ==> CellSize(rows[i]) == b
  }

  /** With rows of one length, three of which fit any page, every next row is taken. */
  lemma OneLengthTaken(s: Store, dbSize: nat, pageSize: nat, root: PageNumber, h: nat, held: seq<Cell>, rows: seq<Cell>, done: nat)
    requires Holds(s, dbSize, pageSize, root, h, held) && done < |rows| && SameRows(held, rows[..done])
    ensures forall b: nat :: OfLength(rows, b) && 108 + 3 * (b + 2) <= pageSize ==> Taken(s, root, rows[done], h, pageSize)
  {
    hide Level, Upper, Above, PathIndex, PathPage, Entries, HalfIsSmall, TreeOk, Taken, CellSize;
    SmallIsTaken(s, dbSize, pageSize, root, h, held, rows[done]);
    forall b: nat | OfLength(rows, b) && 108 + 3 * (b + 2) <= pageSize ensures Taken(s, root, rows[done], h, pageSize) {
      forall i | 0 <= i < |held| ensures CellSize(held[i]) == b {
        assert held[i] in multiset(held);
        assert held[i] in rows[..done];
      }
      OneLengthCase(s, dbSize, pageSize, root, h, held, rows[done], b);
    }
  }

  lemma OneLengthCase(s: Store, dbSize: nat, pageSize: nat, root: PageNumber, h: nat, held: seq<Cell>, c: Cell, b: nat)
    requires Holds(s, dbSize, pageSize, root, h, held) && OfLength(held, b) && CellSize(c) == b && 108 + 3 * (b + 2) <= pageSize
    ensures Taken(s, root, c, h, pageSize) || HalfIsSmall(s, root, c, h, pageSize, b)
  {
    hide Level, Upper, Above, PathIndex, PathPage, Entries, CellSize, TotalSize, Plan, Inserted;
    LeafOnPath(s, dbSize, pageSize, root, c.key, h);
    var v := ViewOf(s, root, c.key, h);
    var leaf := PathPage(s, root, c.key, h);
    var cells := At(s, leaf).cells;
    assert LeafOk(At(s, leaf), leaf, pageSize, v.level[v.index].lo, Hi(v.level, v.index));
    EntriesAt(s, v.level, v.index);
    forall i | 0 <= i < |cells| ensures CellSize(cells[i]) == b {
      assert cells[i] == held[|Entries(s, v.level[..v.index])| + i];
    }
    TotalOf(cells, b);
    if |cells| >= 3 {
      Multiples((|cells| + 2) / 2 + 1, |cells|, b + 2);
    } else {
      Multiples(|cells| + 1, 3, b + 2);
    }
  }

  lemma {:induction false} TotalOf(cells: seq<Cell>, b: nat)
    requires forall i :: 0 <= i < |cells| ==> CellSize(cells[i]) == b
    ensures 2 * |cells| + TotalSize(cells) == |cells| * (b + 2)
  {
    hide CellSize;
    if cells != [] {
      TotalOf(cells[1..], b);
      assert |cells| * (b + 2) == |cells[1..]| * (b + 2) + (b + 2);
    }
  }

  /** What a leaf takes, in so many words: the row itself, or the first half of all rows, and the rest, on a page each. */
  lemma TakenIff(s: Store, dbSize: nat, pageSize: nat, root: PageNumber, h: nat, rows: seq<Cell>, c: Cell)
    requires Holds(s, dbSize, pageSize, root, h, rows)
    ensures
      var leaf := PathPage(s, root, c.key, h);
      var n := At(s, leaf);
      var all := Inserted(n.cells, c);
      var half := if |all| < 4 then |all| else (|all| + 1) / 2 + 1;
      var base := if leaf == 1 then 108 else 8;
      Taken(s, root, c, h, pageSize) <==>
        || base + 2 * (|n.cells| + 1) + CellSize(c) <= n.contentStart
        || (&& (if leaf == root then 8 else base) + 2 * half + TotalSize(all[..half]) <= pageSize
            && 8 + 2 * (|all| - half) + TotalSize(all[half..]) <= pageSize)
  {
    hide Level, Upper, Above, PathIndex, PathPage, Inserted, Entries, AllLeaves, Plan, TotalSize, CellSize;
    LeafOnPath(s, dbSize, pageSize, root, c.key, h);
    var n := At(s, PathPage(s, root, c.key, h));
    var all := Inserted(n.cells, c);
    LeafSplitEven(all, n.rightmost);
    assert all[..|all|] == all && all[|all|..] == [];
  }

  lemma IffSafe(s: Store, dbSize: nat, pageSize: nat, root: PageNumber, h: nat, rows: seq<Cell>)
    ensures Holds(s, dbSize, pageSize, root, h, rows) ==> exists t :: Holds(s, dbSize, pageSize, root, t, rows)
    ensures (forall t :: !TreeOk(s, dbSize, pageSize, root, t)) ==> !exists t :: Holds(s, dbSize, pageSize, root, t, rows)
  {
  }

  lemma LeafSafe(s: Store, dbSize: nat, pageSize: nat, root: PageNumber, h: nat, rows: seq<Cell>, c: Cell)
    requires Holds(s, dbSize, pageSize, root, h, rows)
    ensures
      var n := At(s, PathPage(s, root, c.key, h));
      Safe(s, PathPages(s, root, c.key, h), c) <==>
        !Splits(s, root, c, h) || (|n.cells| >= 3 && SafeUp(s, root, ViewOf(s, root, c.key, h), PlanFor(n, c).divider))
  {
    hide Level, Upper, Above, PathIndex, PathPage, Plan, Inserted, Fits, Entries, AllLeaves;
    LeafOnPath(s, dbSize, pageSize, root, c.key, h);
    var path := PathPages(s, root, c.key, h);
    if h > 0 {
      PathPrefix(s, root, c.key, h);
    } else {
      assert path[..0] == [] && path[0] == PathPage(s, root, c.key, 0);
    }
  }

  /** A full leaf may be split. */
  lemma LeafSplittable(s: Store, dbSize: nat, pageSize: nat, root: PageNumber, h: nat, rows: seq<Cell>, c: Cell)
    requires Holds(s, dbSize, pageSize, root, h, rows) && c.Row? && !HasKey(rows, c.key)
    requires Splits(s, root, c, h)
    ensures CanSplit(s, dbSize, pageSize, root, PathPages(s, root, c.key, h), ViewOf(s, root, c.key, h), PathPage(s, root, c.key, h), c)
    ensures TallReady(s, pageSize, ViewOf(s, root, c.key, h), PathPage(s, root, c.key, h), c, 0)
  {
    hide Level, Upper, Above, PathIndex, PathPage, Plan, Inserted, Fits, Entries, HasKey;
    LeafOnPath(s, dbSize, pageSize, root, c.key, h);
    UpperFacts(s, pageSize, root, h);
    var v := ViewOf(s, root, c.key, h);
    InsertedLeaf(s, pageSize, v.level, v.index, c);
    LeafDividerBetween(s, pageSize, v.level, v.index, c);
    forall i | 0 <= i < |v.level| ensures TallAt(s, v.level, i, 0, v.above) {
      assert v.level[i].page in PagesOf(v.level);
      assert LeafOk(At(s, v.level[i].page), v.level[i].page, pageSize, v.level[i].lo, Hi(v.level, i));
    }
  }

  /** The divider of a leaf split lies strictly between the bounds of the leaf. */
  lemma LeafDividerBetween(s: Store, pageSize: nat, l: seq<Slot>, g: nat, c: Cell)
    requires AllLeaves(s, pageSize, l) && InGap(l, g, c.key) && !HasKey(Entries(s, l), c.key) && c.Row?
    ensures Between(l, g, PlanFor(At(s, l[g].page), c).divider)
  {
    hide Entries, HasKey, InsertPos, Inserted;
    var n := At(s, l[g].page);
    var all := Inserted(n.cells, c);
    InsertedLeaf(s, pageSize, l, g, c);
    assert LeafOk(n, l[g].page, pageSize, l[g].lo, Hi(l, g));
    var mid := LeafMid(|all|);
    var x := if mid < |all| - 1 then mid + 1 else mid;
    if |all| > 1 {
      assert all[0].key < all[x].key;
    }
  }

  /** How the split of a leaf ends. */
  lemma LeafEnds(s: Store, s': Store, dbSize: nat, dbSize': nat, pageSize: nat, root: PageNumber, h: nat, rows: seq<Cell>, c: Cell,
                 lp: PageNumber, rp: PageNumber, e: nat)
    requires Holds(s, dbSize, pageSize, root, h, rows) && c.Row? && !HasKey(rows, c.key) && StoreOk(s', dbSize')
    requires
      var n := At(s, PathPage(s, root, c.key, h));
      var v := ViewOf(s, root, c.key, h);
      && (SafeUp(s, root, v, PlanFor(n, c).divider) ==>
            Halves(n, c, s', lp, rp, pageSize) && SlotSplit(s, s', dbSize, pageSize, root, v, PlanFor(n, c).divider, lp, rp, e))
      && (!SafeUp(s, root, v, PlanFor(n, c).divider) ==> Broken(s', root, 0))
    ensures
      var n := At(s, PathPage(s, root, c.key, h));
      var v := ViewOf(s, root, c.key, h);
      if |n.cells| >= 3 && SafeUp(s, root, v, PlanFor(n, c).divider) then Holds(s', dbSize', pageSize, root, e, Inserted(rows, c)) && e <= h + 1
      else forall t :: !TreeOk(s', dbSize', pageSize, root, t)
  {
    hide Level, Upper, Above, PathIndex, PathPage, Plan, Inserted, Fits, Entries, HasKey, Holds, Halves, TreeOk, SafeUp, Broken;
    var n := At(s, PathPage(s, root, c.key, h));
    var v := ViewOf(s, root, c.key, h);
    if !SafeUp(s, root, v, PlanFor(n, c).divider) {
      forall t ensures !TreeOk(s', dbSize', pageSize, root, t) {
        BrokenIsNoTree(s', dbSize', pageSize, root, 0, t);
      }
    } else if |n.cells| >= 3 {
      RowSplit(s, s', dbSize, dbSize', pageSize, root, h, rows, c, lp, rp, e);
    } else {
      forall t ensures !TreeOk(s', dbSize', pageSize, root, t) {
        SmallSplit(s, s', dbSize, dbSize', pageSize, root, h, rows, c, lp, rp, e, t);
      }
    }
  }

  lemma LeafHasRow(s: Store, pageSize: nat, l: seq<Slot>, i: nat)
    requires AllLeaves(s, pageSize, l) && i < |l| && l[i].lo >= 0
    ensures At(s, l[i].page).cells != []
  {
    assert LeafOk(At(s, l[i].page), l[i].page, pageSize, l[i].lo, Hi(l, i));
  }

  /** A split that shares out fewer than four rows leaves an empty leaf behind a divider. */
  lemma SmallSplit(s: Store, s': Store, dbSize: nat, dbSize': nat, pageSize: nat, root: PageNumber, h: nat, rows: seq<Cell>, c: Cell,
                   lp: PageNumber, rp: PageNumber, e: nat, t: nat)
    requires Holds(s, dbSize, pageSize, root, h, rows) && |At(s, PathPage(s, root, c.key, h)).cells| < 3
    requires
      var n := At(s, PathPage(s, root, c.key, h));
      && Halves(n, c, s', lp, rp, pageSize)
      && SlotSplit(s, s', dbSize, pageSize, root, ViewOf(s, root, c.key, h), PlanFor(n, c).divider, lp, rp, e)
    ensures !TreeOk(s', dbSize', pageSize, root, t)
  {
    hide Level, Above, PathIndex, PathPage, Inserted, Entries, Upper, TreeOk, LeafMid, CellSize, SpaceOk;
    LeafOnPath(s, dbSize, pageSize, root, c.key, h);
    var n := At(s, PathPage(s, root, c.key, h));
    var i := PathIndex(s, root, c.key, h);
    LeafSplitRightNonEmpty(Inserted(n.cells, c), n.rightmost);
    assert Level(s', root, e)[i + 1] == Slot(PlanFor(n, c).divider, rp);
    EmptyBehindDivider(s', dbSize', pageSize, root, e, i + 1, t);
  }

  lemma EmptyBehindDivider(s: Store, dbSize: nat, pageSize: nat, root: PageNumber, e: nat, x: nat, t: nat)
    requires Upper(s, pageSize, root, e) && x < |Level(s, root, e)| && Level(s, root, e)[x].lo >= 0
    requires At(s, Level(s, root, e)[x].page).leaf && At(s, Level(s, root, e)[x].page).cells == []
    ensures !TreeOk(s, dbSize, pageSize, root, t)
  {
    hide Level, Upper, AllLeaves, AllInner;
    if TreeOk(s, dbSize, pageSize, root, t) {
      if t < e {
        PathGap(s, root, 0, t);
        LevelKind(s, dbSize, pageSize, root, t, t, 0);
        UpperMono(s, pageSize, root, t + 1, e);
        UpperFacts(s, pageSize, root, t + 1);
        InnerPage(s, pageSize, Level(s, root, t), 0);
      } else if t == e {
        LeafHasRow(s, pageSize, Level(s, root, e), x);
      } else {
        LevelKind(s, dbSize, pageSize, root, t, e, x);
      }
    }
  }

  /** The split of a leaf, once promoted, is a tree with the row added. */
  lemma RowSplit(s: Store, s': Store, dbSize: nat, dbSize': nat, pageSize: nat, root: PageNumber, h: nat, rows: seq<Cell>, c: Cell,
                 lp: PageNumber, rp: PageNumber, h': nat)
    requires Holds(s, dbSize, pageSize, root, h, rows) && c.Row? && !HasKey(rows, c.key)
    requires StoreOk(s', dbSize') && |At(s, PathPage(s, root, c.key, h)).cells| >= 3
    requires
      var n := At(s, PathPage(s, root, c.key, h));
      && Halves(n, c, s', lp, rp, pageSize)
      && SlotSplit(s, s', dbSize, pageSize, root, ViewOf(s, root, c.key, h), PlanFor(n, c).divider, lp, rp, h')
    ensures Holds(s', dbSize', pageSize, root, h', Inserted(rows, c))
  {
    LeafOnPath(s, dbSize, pageSize, root, c.key, h);
    var v := ViewOf(s, root, c.key, h);
    var n := At(s, PathPage(s, root, c.key, h));
    SplitOthers(s, s', v.level, v.index, v.above);
    LeafSplitRightNonEmpty(Inserted(n.cells, c), n.rightmost);
    LeafSplit(s, s', pageSize, v.level, v.index, c, lp, rp,
              pageSize - TotalSize(PlanFor(n, c).left), pageSize - TotalSize(PlanFor(n, c).right));
  }

  /** The path of an insert, as the descent follows it. */
  function RoutePath(s: Store, p: PageNumber, key: Key, depth: nat): seq<PageNumber>
    decreases depth
  {
    var n := At(s, p);
    if depth == 0 || n.leaf then [p] else [p] + RoutePath(s, Child(n, InsertPos(n.cells, key)), key, depth - 1)
  }

  lemma {:induction false} RouteIsPath(s: Store, path: seq<PageNumber>, key: Key, d: nat, depth: nat)
    requires Descent(s, path, key) && d < |path| <= d + depth + 1
    requires forall t :: 0 <= t < |path| ==> (At(s, path[t]).leaf <==> t == |path| - 1)
    ensures RoutePath(s, path[d], key, depth) == path[d..]
    decreases |path| - d
  {
    assert path[d..] == [path[d]] + path[d + 1..];
    if d < |path| - 1 {
      RouteIsPath(s, path, key, d + 1, depth - 1);
    }
  }

  lemma HeldSorted(s: Store, dbSize: nat, pageSize: nat, root: PageNumber, h: nat, rows: seq<Cell>)
    requires Holds(s, dbSize, pageSize, root, h, rows)
    ensures SortedCells(rows)
  {
    EntriesSorted(s, dbSize, pageSize, root, h);
  }

  lemma RouteFromRoot(s: Store, dbSize: nat, pageSize: nat, root: PageNumber, key: Key, h: nat, rows: seq<Cell>, depth: nat)
    requires Holds(s, dbSize, pageSize, root, h, rows) && h <= depth
    ensures RoutePath(s, root, key, depth) == PathPages(s, root, key, h)
  {
    PathDescends(s, dbSize, pageSize, root, key, h);
    var path := PathPages(s, root, key, h);
    RouteIsPath(s, path, key, 0, depth);
    assert path[0..] == path;
  }

  /** The same rows, in any order. */
  ghost predicate SameRows(a: seq<Cell>, b: seq<Cell>) {
    multiset(a) == multiset(b)
  }

  lemma OneMoreRow(held: seq<Cell>, rows: seq<Cell>, done: nat)
    requires done < |rows| && SameRows(held, rows[..done])
    ensures SameRows(Inserted(held, rows[done]), rows[..done + 1])
  {
    var i := InsertPos(held, rows[done].key);
    assert held == held[..i] + held[i..];
    assert rows[..done + 1] == rows[..done] + [rows[done]];
  }

  lemma InsertedKeys(cells: seq<Cell>, c: Cell, keys: set<Key>)
    requires KeysAre(cells, keys)
    ensures KeysAre(Inserted(cells, c), keys + {c.key})
  {
    var all, j := Inserted(cells, c), InsertPos(cells, c.key);
    assert all[j] == c;
    forall k: Key ensures HasKey(all, k) <==> HasKey(cells, k) || k == c.key {
      if HasKey(cells, k) {
        var i :| 0 <= i < |cells| && cells[i].key == k;
        assert all[if i < j then i else i + 1] == cells[i];
      }
      if HasKey(all, k) {
        var i :| 0 <= i < |all| && all[i].key == k;
        assert i < j ==> all[i] == cells[i];
        assert i > j ==> all[i] == cells[i - 1];
      }
    }
  }

  lemma NoKeys()
    ensures KeysAre([], {})
  {
  }

  lemma KnownKey(rows: seq<Cell>, keys: set<Key>, k: Key)
    requires KeysAre(rows, keys)
    ensures k in keys <==> HasKey(rows, k)
  {
  }

  /** An initially empty leaf is a tree without rows. */
  lemma EmptyTree(s: Store, dbSize: nat, pageSize: nat, root: PageNumber)
    requires StoreOk(s, dbSize) && 512 <= pageSize <= 32768
    requires root in s && s[root] == Node(true, pageSize, [], 0)
    ensures Holds(s, dbSize, pageSize, root, 0, [])
  {
    EntriesOne(s, Level(s, root, 0)[0]);
  }

  function StackPages(stack: seq<Frame>): (r: seq<PageNumber>)
    ensures |r| == |stack|
  {
    seq(|stack|, i requires 0 <= i < |stack| => stack[i].page)
  }


}
