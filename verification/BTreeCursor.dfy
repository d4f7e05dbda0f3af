/**
  The read side of a table cursor: its path stack stands for an index into the
  rows in scan order.
 */
module BTreeCursor {
  import opened BTreeLevels
  import opened BTreePage
  import opened BTreeShape
  import opened BTreeEntries
  import opened BTreePromote
  import opened BTreeSearch
  import opened BTreeInsert

  datatype SeekResult = Equal | Less | Greater | Empty

  type Levels = seq<seq<Slot>>

  /** The levels of a tree that can be scanned: only the last one holds leaves, and only a lone leaf may be empty. */
  ghost predicate Scannable(s: Store, ls: Levels) {
    && ls != [] && |ls[0]| == 1
    && (forall e: nat :: e + 1 < |ls| ==> NextLevel(s, ls, e))
    && (forall e, i :: 0 <= e < |ls| && 0 <= i < |ls[e]| ==> KindOk(s, ls, e, At(s, ls[e][i].page)))
  }

  ghost predicate NextLevel(s: Store, ls: Levels, e: nat) {
    e + 1 < |ls| && ls[e + 1] == Expand(s, ls[e])
  }

  ghost predicate KindOk(s: Store, ls: Levels, e: nat, n: Node)
    requires ls != []
  {
    && (n.leaf <==> e == |ls| - 1)
    && (n.cells == [] ==> n.leaf && Rows(s, ls) == [])
    && (n.cells != [] && n.leaf ==> Rows(s, ls) != [])
  }

  ghost function Leaves(ls: Levels): seq<Slot>
    requires ls != []
  {
    ls[|ls| - 1]
  }

  ghost function Rows(s: Store, ls: Levels): seq<Cell>
    requires ls != []
  {
    Entries(s, Leaves(ls))
  }

  /** Leaf reached from slot x of level d by always taking the first child. */
  ghost function Down(s: Store, ls: Levels, d: nat, x: nat): nat
    decreases |ls| - d
  {
    if d + 1 >= |ls| then x else Down(s, ls, d + 1, Offset(s, ls[d], x))
  }

  ghost predicate InSlot(l: seq<Slot>, i: nat, p: PageNumber) {
    i < |l| && l[i].page == p
  }

  ghost predicate Leads(s: Store, l: seq<Slot>, i: nat, f: Frame, j: nat) {
    f.cellIdx <= |At(s, f.page).cells| && j == Offset(s, l, i) + f.cellIdx
  }

  /** Frame e stands at slot slots[e] of level e and points at the child that frame e + 1 stands at. */
  ghost predicate OnSlots(s: Store, ls: Levels, stack: seq<Frame>, slots: seq<nat>) {
    && |slots| == |stack| <= |ls|
    && (|slots| > 0 ==> slots[0] == 0)
    && (forall e: nat :: e < |stack| ==> FrameAt(ls, stack, slots, e))
    && (forall e: nat :: e + 1 < |stack| ==> LinkAt(s, ls, stack, slots, e))
  }

  ghost predicate FrameAt(ls: Levels, stack: seq<Frame>, slots: seq<nat>, e: nat) {
    e < |stack| && e < |slots| && e < |ls| && InSlot(ls[e], slots[e], stack[e].page)
  }

  ghost predicate LinkAt(s: Store, ls: Levels, stack: seq<Frame>, slots: seq<nat>, e: nat) {
    e + 1 < |slots| && e < |stack| && e < |ls| && Leads(s, ls[e], slots[e], stack[e], slots[e + 1])
  }

  /** Slot x is the one to which the top frame points. */
  ghost predicate Top(s: Store, ls: Levels, stack: seq<Frame>, slots: seq<nat>, x: nat) {
    && |slots| == |stack| <= |ls|
    && (|stack| == 0 ==> x == 0)
    && (|stack| > 0 ==> Leads(s, ls[|stack| - 1], slots[|stack| - 1], stack[|stack| - 1], x))
  }

  /** A full stack whose last frame is at row k of the scan order. */
  ghost predicate Stands(s: Store, ls: Levels, stack: seq<Frame>, slots: seq<nat>, current: Cell, k: int) {
    && ls != [] && |stack| == |ls| == |slots| && OnSlots(s, ls, stack, slots)
    && var f := stack[|stack| - 1];
    && f.cellIdx < |At(s, f.page).cells|
    && k == RowsBefore(s, Leaves(ls), slots[|slots| - 1]) + f.cellIdx
    && 0 <= k < |Rows(s, ls)| && current == Rows(s, ls)[k]
  }

  /** Number of rows on the leaves before leaf g. */
  ghost function RowsBefore(s: Store, l: seq<Slot>, g: nat): nat {
    |Entries(s, Before(l, g))|
  }

  ghost function Before(l: seq<Slot>, g: nat): seq<Slot> {
    if g <= |l| then l[..g] else l
  }

  lemma RowsBeforeNext(s: Store, l: seq<Slot>, g: nat)
    requires g < |l|
    ensures RowsBefore(s, l, g + 1) == RowsBefore(s, l, g) + |At(s, l[g].page).cells|
    ensures RowsBefore(s, l, g + 1) <= |Entries(s, l)|
    ensures g + 1 == |l| ==> RowsBefore(s, l, g + 1) == |Entries(s, l)|
  {
    assert l[..g + 1] == l[..g] + [l[g]];
    EntriesConcat(s, l[..g], [l[g]]);
    EntriesOne(s, l[g]);
    EntriesAt(s, l, g);
    if g + 1 == |l| {
      assert l[..g + 1] == l;
    }
  }

  lemma RowAt(s: Store, l: seq<Slot>, g: nat, i: nat)
    requires g < |l| && i < |At(s, l[g].page).cells|
    ensures RowsBefore(s, l, g) + i < |Entries(s, l)|
    ensures Entries(s, l)[RowsBefore(s, l, g) + i] == At(s, l[g].page).cells[i]
  {
    EntriesAt(s, l, g);
  }

  /** Past the last slot of a level lies past the last leaf. */
  lemma {:induction false} DownEnd(s: Store, ls: Levels, d: nat)
    requires Scannable(s, ls) && d < |ls|
    ensures Down(s, ls, d, |ls[d]|) == |Leaves(ls)|
    decreases |ls| - d
  {
    if d + 1 < |ls| {
      assert ls[d][..|ls[d]|] == ls[d];
      assert NextLevel(s, ls, d);
      DownEnd(s, ls, d + 1);
    }
  }

  lemma {:induction false} DownStart(s: Store, ls: Levels, d: nat)
    requires d < |ls|
    ensures Down(s, ls, d, 0) == 0
    decreases |ls| - d
  {
    if d + 1 < |ls| {
      assert ls[d][..0] == [];
      DownStart(s, ls, d + 1);
    }
  }

  // ---- Pushing a frame ----

  lemma Push(s: Store, ls: Levels, stack: seq<Frame>, slots: seq<nat>, x: nat, p: PageNumber, c: nat)
    requires OnSlots(s, ls, stack, slots) && Top(s, ls, stack, slots, x) && |stack| < |ls| && InSlot(ls[|stack|], x, p)
    ensures OnSlots(s, ls, stack + [Frame(p, c)], slots + [x])
    ensures c <= |At(s, p).cells| ==> Top(s, ls, stack + [Frame(p, c)], slots + [x], Offset(s, ls[|stack|], x) + c)
  {
    var stack', slots' := stack + [Frame(p, c)], slots + [x];
    forall e: nat | e < |stack'| ensures FrameAt(ls, stack', slots', e) {
      assert e < |stack| ==> FrameAt(ls, stack, slots, e);
    }
    forall e: nat | e + 1 < |stack'| ensures LinkAt(s, ls, stack', slots', e) {
      assert e + 1 < |stack| ==> LinkAt(s, ls, stack, slots, e);
    }
  }

  lemma ChildInSlot(s: Store, ls: Levels, d: nat, x: nat, p: PageNumber, c: nat)
    requires Scannable(s, ls) && d + 1 < |ls| && InSlot(ls[d], x, p) && c <= |At(s, p).cells|
    ensures InSlot(ls[d + 1], Offset(s, ls[d], x) + c, Child(At(s, p), c))
  {
    assert NextLevel(s, ls, d);
    ExpandIndex(s, ls[d], x, c);
  }

  lemma Arrive(s: Store, ls: Levels, stack: seq<Frame>, slots: seq<nat>, x: nat, p: PageNumber, c: nat)
    requires ls != [] && |stack| == |ls| - 1
    requires OnSlots(s, ls, stack, slots) && Top(s, ls, stack, slots, x) && InSlot(Leaves(ls), x, p)
    requires c < |At(s, p).cells|
    ensures Stands(s, ls, stack + [Frame(p, c)], slots + [x], At(s, p).cells[c], RowsBefore(s, Leaves(ls), x) + c)
  {
    Push(s, ls, stack, slots, x, p, c);
    RowAt(s, Leaves(ls), x, c);
  }

  // ---- Paths along the left or right edge of a subtree ----

  /** Interior pages with cells, each the first (or last) child of the one before, down to a leaf. */
  ghost predicate EdgePath(s: Store, path: seq<PageNumber>, first: bool) {
    && path != []
    && var n := At(s, path[0]);
    && (n.leaf <==> |path| == 1)
    && (|path| > 1 ==> n.cells != [] && path[1] == Child(n, if first then 0 else |n.cells|) && EdgePath(s, path[1..], first))
  }

  ghost function EdgeIndex(n: Node, first: bool): nat {
    if first || n.cells == [] then 0 else if n.leaf then |n.cells| - 1 else |n.cells|
  }

  ghost function Frames(s: Store, path: seq<PageNumber>, first: bool): seq<Frame> {
    if path == [] then [] else [Frame(path[0], EdgeIndex(At(s, path[0]), first))] + Frames(s, path[1..], first)
  }

  lemma OneFrame(s: Store, p: PageNumber, first: bool)
    ensures Frames(s, [p], first) == [Frame(p, EdgeIndex(At(s, p), first))]
  {
    assert [p][1..] == [];
  }

  /** The row at the left (or right) edge below slot x of level d. */
  ghost function EdgeRow(s: Store, ls: Levels, d: nat, x: nat, first: bool): int
    requires ls != []
  {
    if first then RowsBefore(s, Leaves(ls), Down(s, ls, d, x)) else RowsBefore(s, Leaves(ls), Down(s, ls, d, x + 1)) - 1
  }

  lemma EdgeRowStep(s: Store, ls: Levels, d: nat, x: nat, first: bool)
    requires d + 1 < |ls| && x < |ls[d]|
    requires var n := At(s, ls[d][x].page); n.cells != [] && !n.leaf
    ensures EdgeRow(s, ls, d, x, first) == EdgeRow(s, ls, d + 1, Offset(s, ls[d], x) + EdgeIndex(At(s, ls[d][x].page), first), first)
  {
    OffsetNext(s, ls[d], x);
  }

  /** Pushing the frames of the path makes the cursor stand at row k. */
  ghost predicate EdgeLeads(s: Store, ls: Levels, stack: seq<Frame>, slots: seq<nat>,
                            path: seq<PageNumber>, xs: seq<nat>, first: bool, k: int)
  {
    && ls != [] && EdgePath(s, path, first)
    && var cells := At(s, path[|path| - 1]).cells;
    && (cells == [] <==> Rows(s, ls) == [])
    && (cells != [] ==> Stands(s, ls, stack + Frames(s, path, first), slots + xs, if first then cells[0] else cells[|cells| - 1], k))
  }

  lemma EdgeCons(s: Store, ls: Levels, stack: seq<Frame>, slots: seq<nat>,
                 p: PageNumber, x: nat, path: seq<PageNumber>, xs: seq<nat>, first: bool, k: int)
    requires !At(s, p).leaf && At(s, p).cells != []
    requires
      var c := EdgeIndex(At(s, p), first);
      EdgeLeads(s, ls, stack + [Frame(p, c)], slots + [x], path, xs, first, k) && path[0] == Child(At(s, p), c)
    ensures EdgeLeads(s, ls, stack, slots, [p] + path, [x] + xs, first, k)
  {
    var c := EdgeIndex(At(s, p), first);
    assert ([p] + path)[1..] == path;
    assert stack + Frames(s, [p] + path, first) == stack + [Frame(p, c)] + Frames(s, path, first);
    assert slots + ([x] + xs) == slots + [x] + xs;
  }

  lemma EdgeLeaf(s: Store, ls: Levels, stack: seq<Frame>, slots: seq<nat>, x: nat, p: PageNumber, first: bool)
    requires Scannable(s, ls) && |stack| == |ls| - 1
    requires OnSlots(s, ls, stack, slots) && Top(s, ls, stack, slots, x) && InSlot(Leaves(ls), x, p)
    ensures EdgeLeads(s, ls, stack, slots, [p], [x], first, EdgeRow(s, ls, |ls| - 1, x, first))
  {
    var n := At(s, p);
    assert KindOk(s, ls, |ls| - 1, n);
    OneFrame(s, p, first);
    if n.cells != [] {
      RowsBeforeNext(s, Leaves(ls), x);
      Arrive(s, ls, stack, slots, x, p, EdgeIndex(n, first));
    }
  }

  /** From slot x of level |stack| the left edge leads to leaf Down(x), the right edge to the leaf before Down(x + 1). */
  lemma {:induction false} EdgeStands(s: Store, ls: Levels, stack: seq<Frame>, slots: seq<nat>, x: nat, p: PageNumber, first: bool)
    returns (path: seq<PageNumber>, xs: seq<nat>)
    requires Scannable(s, ls) && |stack| < |ls|
    requires OnSlots(s, ls, stack, slots) && Top(s, ls, stack, slots, x) && InSlot(ls[|stack|], x, p)
    ensures path != [] && path[0] == p
    ensures EdgeLeads(s, ls, stack, slots, path, xs, first, EdgeRow(s, ls, |stack|, x, first))
    decreases |ls| - |stack|
  {
    var n := At(s, p);
    var d := |stack|;
    assert KindOk(s, ls, d, n);
    if d == |ls| - 1 {
      path, xs := [p], [x];
      EdgeLeaf(s, ls, stack, slots, x, p, first);
    } else {
      var c := EdgeIndex(n, first);
      Push(s, ls, stack, slots, x, p, c);
      ChildInSlot(s, ls, d, x, p, c);
      EdgeRowStep(s, ls, d, x, first);
      var rest, ys := EdgeStands(s, ls, stack + [Frame(p, c)], slots + [x], Offset(s, ls[d], x) + c, Child(n, c), first);
      EdgeCons(s, ls, stack, slots, p, x, rest, ys, first, EdgeRow(s, ls, d, x, first));
      path, xs := [p] + rest, [x] + ys;
    }
  }

  // ---- Moving from one row to its neighbours ----

  /** The frame can step right inside its page. */
  predicate Advances(s: Store, f: Frame) {
    if At(s, f.page).leaf then f.cellIdx + 1 < |At(s, f.page).cells| else f.cellIdx + 1 <= |At(s, f.page).cells|
  }

  lemma FrameKind(s: Store, ls: Levels, stack: seq<Frame>, slots: seq<nat>, current: Cell, k: int, e: nat)
    requires Scannable(s, ls) && Stands(s, ls, stack, slots, current, k) && e < |ls|
    ensures At(s, stack[e].page).leaf <==> e == |ls| - 1
    ensures stack[e].cellIdx <= |At(s, stack[e].page).cells|
    ensures InSlot(ls[e], slots[e], stack[e].page)
    ensures e + 1 < |ls| ==> Leads(s, ls[e], slots[e], stack[e], slots[e + 1])
  {
    assert FrameAt(ls, stack, slots, e);
    assert KindOk(s, ls, e, At(s, stack[e].page));
    if e + 1 < |ls| {
      assert LinkAt(s, ls, stack, slots, e);
    }
  }

  /** When the interior frames from d on are exhausted, the slot after slots[d] leads to the next leaf. */
  lemma {:induction false} Carry(s: Store, ls: Levels, stack: seq<Frame>, slots: seq<nat>, current: Cell, k: int, d: nat)
    requires Scannable(s, ls) && Stands(s, ls, stack, slots, current, k) && d < |ls|
    requires forall e :: d <= e < |ls| - 1 ==> !Advances(s, stack[e])
    ensures Down(s, ls, d, slots[d] + 1) == slots[|ls| - 1] + 1
    decreases |ls| - d
  {
    if d + 1 < |ls| {
      Carry(s, ls, stack, slots, current, k, d + 1);
      FrameKind(s, ls, stack, slots, current, k, d);
      OffsetNext(s, ls[d], slots[d]);
    }
  }

  /** When the interior frames from d on are at their first child, slots[d] leads to this leaf. */
  lemma {:induction false} Borrow(s: Store, ls: Levels, stack: seq<Frame>, slots: seq<nat>, current: Cell, k: int, d: nat)
    requires Scannable(s, ls) && Stands(s, ls, stack, slots, current, k) && d < |ls|
    requires forall e :: d <= e < |ls| - 1 ==> stack[e].cellIdx == 0
    ensures Down(s, ls, d, slots[d]) == slots[|ls| - 1]
    decreases |ls| - d
  {
    if d + 1 < |ls| {
      Borrow(s, ls, stack, slots, current, k, d + 1);
      FrameKind(s, ls, stack, slots, current, k, d);
    }
  }

  /** On an exhausted leaf the rows before the next leaf are those up to row k. */
  lemma LeafExhausted(s: Store, ls: Levels, stack: seq<Frame>, slots: seq<nat>, current: Cell, k: int)
    requires Scannable(s, ls) && Stands(s, ls, stack, slots, current, k) && !Advances(s, stack[|ls| - 1])
    ensures RowsBefore(s, Leaves(ls), slots[|ls| - 1] + 1) == k + 1
    ensures slots[|ls| - 1] + 1 == |Leaves(ls)| ==> k + 1 == |Rows(s, ls)|
  {
    FrameKind(s, ls, stack, slots, current, k, |ls| - 1);
    RowsBeforeNext(s, Leaves(ls), slots[|ls| - 1]);
  }

  lemma NextEnd(s: Store, ls: Levels, stack: seq<Frame>, slots: seq<nat>, current: Cell, k: int)
    requires Scannable(s, ls) && Stands(s, ls, stack, slots, current, k)
    requires forall e :: 0 <= e < |ls| ==> !Advances(s, stack[e])
    ensures k + 1 == |Rows(s, ls)|
  {
    Carry(s, ls, stack, slots, current, k, 0);
    DownEnd(s, ls, 0);
    LeafExhausted(s, ls, stack, slots, current, k);
  }

  lemma PreviousEnd(s: Store, ls: Levels, stack: seq<Frame>, slots: seq<nat>, current: Cell, k: int)
    requires Scannable(s, ls) && Stands(s, ls, stack, slots, current, k)
    requires forall e :: 0 <= e < |ls| ==> stack[e].cellIdx == 0
    ensures k == 0
  {
    Borrow(s, ls, stack, slots, current, k, 0);
    DownStart(s, ls, 0);
    assert Leaves(ls)[..0] == [];
  }

  /** Another row of the same leaf. */
  lemma SameLeaf(s: Store, ls: Levels, stack: seq<Frame>, slots: seq<nat>, current: Cell, k: int, c: nat)
    requires Scannable(s, ls) && Stands(s, ls, stack, slots, current, k)
    requires c < |At(s, stack[|ls| - 1].page).cells|
    ensures
      var f := stack[|ls| - 1];
      Stands(s, ls, stack[..|ls| - 1] + [Frame(f.page, c)], slots, At(s, f.page).cells[c], k - f.cellIdx + c)
  {
    var h := |ls| - 1;
    Cut(s, ls, stack, slots, h);
    FrameKind(s, ls, stack, slots, current, k, h);
    Arrive(s, ls, stack[..h], slots[..h], slots[h], stack[h].page, c);
    assert slots[..h] + [slots[h]] == slots;
  }

  /** The frames below e of a stack. */
  lemma Cut(s: Store, ls: Levels, stack: seq<Frame>, slots: seq<nat>, e: nat)
    requires OnSlots(s, ls, stack, slots) && e < |stack|
    ensures OnSlots(s, ls, stack[..e], slots[..e]) && Top(s, ls, stack[..e], slots[..e], slots[e])
  {
    forall i: nat | i < e ensures FrameAt(ls, stack[..e], slots[..e], i) {
      assert FrameAt(ls, stack, slots, i);
    }
    forall i: nat | i + 1 < e ensures LinkAt(s, ls, stack[..e], slots[..e], i) {
      assert LinkAt(s, ls, stack, slots, i);
    }
    if e > 0 {
      assert LinkAt(s, ls, stack, slots, e - 1);
    }
  }

  /** Cutting the stack at the interior frame e and pointing that frame at child c. */
  lemma Turn(s: Store, ls: Levels, stack: seq<Frame>, slots: seq<nat>, current: Cell, k: int, e: nat, c: nat)
    requires Scannable(s, ls) && Stands(s, ls, stack, slots, current, k)
    requires e + 1 < |ls| && c <= |At(s, stack[e].page).cells|
    ensures
      var stack' := stack[..e] + [Frame(stack[e].page, c)];
      var x := Offset(s, ls[e], slots[e]) + c;
      && OnSlots(s, ls, stack', slots[..e + 1]) && Top(s, ls, stack', slots[..e + 1], x)
      && InSlot(ls[e + 1], x, Child(At(s, stack[e].page), c))
      && slots[e + 1] == Offset(s, ls[e], slots[e]) + stack[e].cellIdx
  {
    FrameKind(s, ls, stack, slots, current, k, e);
    Cut(s, ls, stack, slots, e);
    Push(s, ls, stack[..e], slots[..e], slots[e], stack[e].page, c);
    ChildInSlot(s, ls, e, slots[e], stack[e].page, c);
    assert slots[..e] + [slots[e]] == slots[..e + 1];
  }

  lemma NextBelow(s: Store, ls: Levels, stack: seq<Frame>, slots: seq<nat>, current: Cell, k: int, e: nat)
    returns (path: seq<PageNumber>, xs: seq<nat>)
    requires Scannable(s, ls) && Stands(s, ls, stack, slots, current, k) && e + 1 < |ls|
    requires stack[e].cellIdx + 1 <= |At(s, stack[e].page).cells|
    requires forall i :: e < i < |ls| ==> !Advances(s, stack[i])
    ensures path != [] && path[0] == Child(At(s, stack[e].page), stack[e].cellIdx + 1)
    ensures EdgeLeads(s, ls, stack[..e] + [Frame(stack[e].page, stack[e].cellIdx + 1)], slots[..e + 1], path, xs, true, k + 1)
  {
    var c := stack[e].cellIdx + 1;
    Turn(s, ls, stack, slots, current, k, e, c);
    Carry(s, ls, stack, slots, current, k, e + 1);
    LeafExhausted(s, ls, stack, slots, current, k);
    path, xs := EdgeStands(s, ls, stack[..e] + [Frame(stack[e].page, c)], slots[..e + 1],
                           Offset(s, ls[e], slots[e]) + c, Child(At(s, stack[e].page), c), true);
  }

  lemma PreviousBelow(s: Store, ls: Levels, stack: seq<Frame>, slots: seq<nat>, current: Cell, k: int, e: nat)
    returns (path: seq<PageNumber>, xs: seq<nat>)
    requires Scannable(s, ls) && Stands(s, ls, stack, slots, current, k) && e + 1 < |ls|
    requires 0 < stack[e].cellIdx <= |At(s, stack[e].page).cells|
    requires forall i :: e < i < |ls| ==> stack[i].cellIdx == 0
    ensures path != [] && path[0] == Child(At(s, stack[e].page), stack[e].cellIdx - 1)
    ensures EdgeLeads(s, ls, stack[..e] + [Frame(stack[e].page, stack[e].cellIdx - 1)], slots[..e + 1], path, xs, false, k - 1)
  {
    var c := stack[e].cellIdx - 1;
    Turn(s, ls, stack, slots, current, k, e, c);
    Borrow(s, ls, stack, slots, current, k, e + 1);
    path, xs := EdgeStands(s, ls, stack[..e] + [Frame(stack[e].page, c)], slots[..e + 1],
                           Offset(s, ls[e], slots[e]) + c, Child(At(s, stack[e].page), c), false);
  }

  class TableScan {
    const pages: Store
    const root: PageNumber
    ghost const ls: Levels
    var stack: seq<Frame>
    var valid: bool
    var current: Cell
    ghost var slots: seq<nat>

    constructor (pages: Store, root: PageNumber, ghost ls: Levels)
      requires Scannable(pages, ls) && |ls| <= MAX_DEPTH && ls[0][0].page == root
      ensures this.pages == pages && this.root == root && this.ls == ls && Shape() && !valid
    {
      this.pages, this.root, this.ls := pages, root, ls;
      stack, valid, current, slots := [], false, Row(0, []), [];
    }

    ghost predicate Shape() {
      Scannable(pages, ls) && |ls| <= MAX_DEPTH && ls[0][0].page == root
    }

    /** The cursor stands at row k. */
    ghost predicate AtRow(k: int)
      reads this
    {
      valid && Stands(pages, ls, stack, slots, current, k)
    }

    /** Descend along first children to the first row below page `p`. */
    method DescendFirst(p: PageNumber, ghost path: seq<PageNumber>) returns (found: bool)
      requires EdgePath(pages, path, true) && p == path[0]
      modifies `stack, `valid, `current
      ensures found == (At(pages, path[|path| - 1]).cells != [])
      ensures found ==> stack == old(stack) + Frames(pages, path, true) && valid && current == At(pages, path[|path| - 1]).cells[0]
      ensures !found ==> valid == old(valid)
      decreases |path|
    {
      var n := At(pages, p);
      if |n.cells| == 0 {
        return false;
      }
      stack := stack + [Frame(p, 0)];
      if n.leaf {
        current, valid := n.cells[0], true;
        return true;
      }
      found := DescendFirst(Child(n, 0), path[1..]);
    }

    /** Descend along last children to the last row below page `p`. */
    method DescendLast(p: PageNumber, ghost path: seq<PageNumber>) returns (found: bool)
      requires EdgePath(pages, path, false) && p == path[0]
      modifies `stack, `valid, `current
      ensures
        var cells := At(pages, path[|path| - 1]).cells;
        && found == (cells != [])
        && (found ==> stack == old(stack) + Frames(pages, path, false) && valid && current == cells[|cells| - 1])
      ensures !found ==> valid == old(valid)
      decreases |path|
    {
      var n := At(pages, p);
      if |n.cells| == 0 {
        return false;
      }
      if n.leaf {
        var last := |n.cells| - 1;
        stack := stack + [Frame(p, last)];
        current, valid := n.cells[last], true;
        return true;
      }
      stack := stack + [Frame(p, |n.cells|)];
      found := DescendLast(n.rightmost, path[1..]);
    }

    method MoveToFirst() returns (found: bool)
      requires Shape()
      modifies this
      ensures found == (Rows(pages, ls) != []) && valid == found
      ensures found ==> AtRow(0)
    {
      stack, valid := [], false;
      ghost var path, xs := FirstEdge(pages, ls, true);
      found := DescendFirst(root, path);
      slots := xs;
    }

    method MoveToLast() returns (found: bool)
      requires Shape()
      modifies this
      ensures found == (Rows(pages, ls) != []) && valid == found
      ensures found ==> AtRow(|Rows(pages, ls)| - 1)
    {
      stack, valid := [], false;
      ghost var path, xs := FirstEdge(pages, ls, false);
      found := DescendLast(root, path);
      slots := xs;
    }

    /** Drop the frames that cannot step right (or left) inside their page. */
    method PopExhausted(right: bool)
      modifies `stack
      ensures |stack| <= |old(stack)| && stack == old(stack)[..|stack|]
      ensures forall e :: |stack| <= e < |old(stack)| ==> if right then !Advances(pages, old(stack)[e]) else old(stack)[e].cellIdx == 0
      ensures |stack| > 0 ==> if right then Advances(pages, stack[|stack| - 1]) else stack[|stack| - 1].cellIdx > 0
    {
      ghost var st0 := stack;
      while |stack| > 0 && (if right then !Advances(pages, stack[|stack| - 1]) else stack[|stack| - 1].cellIdx == 0)
        invariant |stack| <= |st0| && stack == st0[..|stack|]
        invariant forall e :: |stack| <= e < |st0| ==> if right then !Advances(pages, st0[e]) else st0[e].cellIdx == 0
        decreases |stack|
      {
        stack := stack[..|stack| - 1];
      }
    }

    /** Advance to the row after row k. */
    method Next(ghost k: nat) returns (found: bool)
      requires Shape() && AtRow(k)
      modifies this
      ensures found == (k + 1 < |Rows(pages, ls)|) && valid == found
      ensures found ==> AtRow(k + 1)
    {
      hide OnSlots, Scannable, Rows, Entries, EdgePath, Frames, Leads;
      ghost var st0, sl0, cur := stack, slots, current;
      PopExhausted(true);
      if |stack| == 0 {
        NextEnd(pages, ls, st0, sl0, cur, k);
        valid := false;
        return false;
      }
      ghost var e := |stack| - 1;
      FrameKind(pages, ls, st0, sl0, cur, k, e);
      var f := stack[|stack| - 1];
      var n := At(pages, f.page);
      var next := f.cellIdx + 1;
      assert stack[..e] == st0[..e];
      if n.leaf {
        SameLeaf(pages, ls, st0, sl0, cur, k, next);
        stack := stack[..|stack| - 1] + [Frame(f.page, next)];
        current, valid := n.cells[next], true;
        found := true;
      } else {
        ghost var path, xs := NextBelow(pages, ls, st0, sl0, cur, k, e);
        stack := stack[..|stack| - 1] + [Frame(f.page, next)];
        found := DescendFirst(Child(n, next), path);
        slots := sl0[..e + 1] + xs;
      }
    }

    /** Go back to the row before row k. */
    method Previous(ghost k: nat) returns (found: bool)
      requires Shape() && AtRow(k)
      modifies this
      ensures found == (k > 0) && valid == found
      ensures found ==> AtRow(k - 1)
    {
      hide OnSlots, Scannable, Rows, Entries, EdgePath, Frames, Leads;
      ghost var st0, sl0, cur := stack, slots, current;
      PopExhausted(false);
      if |stack| == 0 {
        PreviousEnd(pages, ls, st0, sl0, cur, k);
        valid := false;
        return false;
      }
      ghost var e := |stack| - 1;
      FrameKind(pages, ls, st0, sl0, cur, k, e);
      var f := stack[|stack| - 1];
      var n := At(pages, f.page);
      var prev := f.cellIdx - 1;
      assert stack[..e] == st0[..e];
      if n.leaf {
        SameLeaf(pages, ls, st0, sl0, cur, k, prev);
        stack := stack[..|stack| - 1] + [Frame(f.page, prev)];
        current, valid := n.cells[prev], true;
        found := true;
      } else {
        ghost var path, xs := PreviousBelow(pages, ls, st0, sl0, cur, k, e);
        stack := stack[..|stack| - 1] + [Frame(f.page, prev)];
        found := DescendLast(Child(n, prev), path);
        slots := sl0[..e + 1] + xs;
      }
    }

    /** A full forward scan. */
    method Collect() returns (out: seq<Cell>)
      requires Shape()
      modifies this
      ensures out == Rows(pages, ls) && !valid
    {
      out := [];
      var more := MoveToFirst();
      while more
        invariant valid == more && out <= Rows(pages, ls)
        invariant more ==> AtRow(|out|)
        invariant !more ==> out == Rows(pages, ls)
        decreases |Rows(pages, ls)| - |out|, more
      {
        ghost var k := |out|;
        out := out + [current];
        more := Next(k);
      }
    }

    /** Seek `key`: Equal or Greater leaves the cursor on the first row not below the key. */
    method MoveTo(key: Key, ghost path: seq<PageNumber>, ghost xs: seq<nat>) returns (r: SeekResult)
      requires Shape() && SearchPath(pages, ls, path, xs, key)
      modifies this
      ensures r == SeekOutcome(pages, path, key)
      ensures valid == (r == Equal || r == Greater)
      ensures valid ==> AtRow(InsertPos(Rows(pages, ls), key))
      ensures r == Equal <==> valid && Rows(pages, ls)[InsertPos(Rows(pages, ls), key)].key == key
    {
      stack, valid := [], false;
      SearchKinds(pages, ls, path, xs, key);
      SearchStands(pages, ls, path, xs, key);
      r := Search(root, key, path);
      slots := xs;
      assert [] + SearchFrames(pages, path, key) == SearchFrames(pages, path, key);
    }

    /** Binary search from page `p` down to a leaf. */
    method Search(p: PageNumber, key: Key, ghost path: seq<PageNumber>) returns (r: SeekResult)
      requires Descent(pages, path, key) && p == path[0] && !valid
      requires forall t :: 0 <= t < |path| ==> (At(pages, path[t]).leaf <==> t == |path| - 1)
      requires forall t :: 0 <= t < |path| - 1 ==> At(pages, path[t]).cells != []
      modifies `stack, `valid, `current
      ensures r == SeekOutcome(pages, path, key)
      ensures valid == (r == Equal || r == Greater)
      ensures valid ==> stack == old(stack) + SearchFrames(pages, path, key)
      ensures
        var cells := At(pages, path[|path| - 1]).cells;
        valid ==> InsertPos(cells, key) < |cells| && current == cells[InsertPos(cells, key)]
      decreases |path|
    {
      var n := At(pages, p);
      if |n.cells| == 0 {
        valid := false;
        return Empty;
      }
      var lo := BinarySearch(n, key);
      if n.leaf {
        if lo < |n.cells| {
          stack := stack + [Frame(p, lo)];
          current, valid := n.cells[lo], true;
          return if n.cells[lo].key == key then Equal else Greater;
        }
        return Less;
      }
      stack := stack + [Frame(p, lo)];
      DescentTail(pages, path, key);
      r := Search(Child(n, lo), key, path[1..]);
    }
  }

  // ---- Seeking ----

  ghost function SearchFrames(s: Store, path: seq<PageNumber>, key: Key): seq<Frame> {
    if path == [] then []
    else [Frame(path[0], InsertPos(At(s, path[0]).cells, key))] + SearchFrames(s, path[1..], key)
  }

  /** What the leaf at the end of the path has to say. */
  ghost function SeekOutcome(s: Store, path: seq<PageNumber>, key: Key): SeekResult
    requires path != []
  {
    var cells := At(s, path[|path| - 1]).cells;
    var lo := InsertPos(cells, key);
    if cells == [] then Empty
    else if lo == |cells| then Less
    else if cells[lo].key == key then Equal else Greater
  }

  /** The path to `key`, through the slots xs of all levels, ends at the leaf where the key belongs. */
  ghost predicate SearchPath(s: Store, ls: Levels, path: seq<PageNumber>, xs: seq<nat>, key: Key) {
    && ls != [] && |path| == |xs| == |ls| && Descent(s, path, key)
    && OnSlots(s, ls, SearchFrames(s, path, key), xs)
    && AllBelow(Entries(s, Before(Leaves(ls), xs[|ls| - 1])), key)
  }

  lemma {:induction false} SearchFramesAt(s: Store, path: seq<PageNumber>, key: Key)
    ensures |SearchFrames(s, path, key)| == |path|
    ensures forall e :: 0 <= e < |path| ==>
              SearchFrames(s, path, key)[e] == Frame(path[e], InsertPos(At(s, path[e]).cells, key))
  {
    if path != [] {
      SearchFramesAt(s, path[1..], key);
    }
  }

  /** A found row is the first one that is not below the key. */
  lemma SearchKind(s: Store, ls: Levels, path: seq<PageNumber>, xs: seq<nat>, key: Key, t: nat)
    requires Scannable(s, ls) && SearchPath(s, ls, path, xs, key) && t < |path|
    ensures |ls[0]| == 1 && xs[t] < |ls[t]| && path[t] == ls[t][xs[t]].page && KindOk(s, ls, t, At(s, path[t]))
  {
    SearchFramesAt(s, path, key);
    hide SearchFrames, Descent, AllBelow, KindOk, NextLevel, LinkAt, Entries, Before;
    assert FrameAt(ls, SearchFrames(s, path, key), xs, t);
  }

  lemma SearchKinds(s: Store, ls: Levels, path: seq<PageNumber>, xs: seq<nat>, key: Key)
    requires Scannable(s, ls) && SearchPath(s, ls, path, xs, key)
    ensures path[0] == ls[0][0].page && forall t :: 0 <= t < |path| ==> KindOk(s, ls, t, At(s, path[t]))
  {
    hide KindOk, Scannable, OnSlots, AllBelow, Descent;
    SearchKind(s, ls, path, xs, key, 0);
    forall t | 0 <= t < |path| ensures KindOk(s, ls, t, At(s, path[t])) {
      SearchKind(s, ls, path, xs, key, t);
    }
  }

  lemma SearchStands(s: Store, ls: Levels, path: seq<PageNumber>, xs: seq<nat>, key: Key)
    requires Scannable(s, ls) && SearchPath(s, ls, path, xs, key)
    ensures
      var cells := At(s, path[|path| - 1]).cells;
      var lo := InsertPos(cells, key);
      lo < |cells| ==> Stands(s, ls, [] + SearchFrames(s, path, key), xs, cells[lo], InsertPos(Rows(s, ls), key))
  {
    hide KindOk, Entries, OnSlots, AllBelow, Descent, NextLevel, SearchFrames, InsertPos, RowsBefore, Scannable, Stands, Rows;
    var frames := SearchFrames(s, path, key);
    SearchFramesAt(s, path, key);
    SearchKind(s, ls, path, xs, key, |ls| - 1);
    assert [] + frames == frames;
    StandsAt(s, ls, frames, xs, key);
  }

  /** A full stack whose last frame points at the first row of its leaf that is not below the key. */
  lemma StandsAt(s: Store, ls: Levels, stack: seq<Frame>, xs: seq<nat>, key: Key)
    requires ls != [] && |stack| == |xs| == |ls| && OnSlots(s, ls, stack, xs)
    requires
      var g := xs[|ls| - 1];
      var p := stack[|ls| - 1].page;
      && g < |Leaves(ls)| && Leaves(ls)[g].page == p && AllBelow(Entries(s, Before(Leaves(ls), g)), key)
      && stack[|ls| - 1].cellIdx == InsertPos(At(s, p).cells, key)
    ensures
      var cells := At(s, stack[|ls| - 1].page).cells;
      var lo := InsertPos(cells, key);
      lo < |cells| ==> Stands(s, ls, stack, xs, cells[lo], InsertPos(Rows(s, ls), key))
  {
    hide Entries, OnSlots, AllBelow, InsertPos, RowsBefore;
    var g := xs[|ls| - 1];
    var cells := At(s, stack[|ls| - 1].page).cells;
    var lo := InsertPos(cells, key);
    if lo < |cells| {
      RowAt(s, Leaves(ls), g, lo);
      SeekIndex(s, Leaves(ls), g, key);
    }
  }

  lemma SeekIndex(s: Store, l: seq<Slot>, g: nat, key: Key)
    requires g < |l| && AllBelow(Entries(s, l[..g]), key)
    ensures
      var cells := At(s, l[g].page).cells;
      InsertPos(cells, key) < |cells| ==> InsertPos(Entries(s, l), key) == RowsBefore(s, l, g) + InsertPos(cells, key)
  {
    var cells := At(s, l[g].page).cells;
    var lo := InsertPos(cells, key);
    EntriesAt(s, l, g);
    if lo < |cells| {
      MiddleFound(Entries(s, l[..g]), cells, Entries(s, l[g + 1..]), key, lo);
    }
  }

  lemma MiddleFound(a: seq<Cell>, b: seq<Cell>, c: seq<Cell>, key: Key, i: nat)
    requires AllBelow(a, key) && i < |b| && key <= b[i].key
    requires forall j :: 0 <= j < i ==> b[j].key < key
    ensures InsertPos(a + b + c, key) == |a| + i
  {
    assert forall j :: 0 <= j < |a| + i ==> (a + b + c)[j].key < key;
    InsertPosIs(a + b + c, key, |a| + i);
  }

  // ---- Trees built by inserts ----

  ghost function LevelSeq(s: Store, root: PageNumber, h: nat): (ls: Levels)
    ensures |ls| == h + 1 && ls[0] == Level(s, root, 0) && ls[h] == Level(s, root, h)
  {
    seq(h + 1, e requires 0 <= e <= h => Level(s, root, e))
  }

  /** Every tree in shape can be scanned. */
  lemma TreeScannable(s: Store, dbSize: nat, pageSize: nat, root: PageNumber, h: nat)
    requires TreeOk(s, dbSize, pageSize, root, h)
    ensures Scannable(s, LevelSeq(s, root, h)) && LevelSeq(s, root, h)[0][0].page == root
  {
    var ls: Levels := LevelSeq(s, root, h);
    forall e: nat | e + 1 < |ls| ensures NextLevel(s, ls, e) {
      assert Level(s, root, e + 1) == Expand(s, Level(s, root, e));
    }
    forall e: nat, i: nat | 0 <= e < |ls| && 0 <= i < |ls[e]| ensures KindOk(s, ls, e, At(s, ls[e][i].page)) {
      if e < h {
        InnerBelow(s, pageSize, root, e, h, i);
      } else {
        LeafKind(s, pageSize, root, h, i);
      }
    }
  }

  lemma InnerBelow(s: Store, pageSize: nat, root: PageNumber, e: nat, h: nat, i: nat)
    requires Upper(s, pageSize, root, h) && e < h && i < |Level(s, root, e)|
    ensures var p := Level(s, root, e)[i].page; InnerOk(At(s, p), p, pageSize)
  {
    UpperMono(s, pageSize, root, e + 1, h);
  }

  /** Only the leftmost slot has no divider, and every divider is a key. */
  lemma LoIsKey(s: Store, pageSize: nat, root: PageNumber, h: nat, x: nat)
    requires Sorted(Level(s, root, h)) && AllLeaves(s, pageSize, Level(s, root, h)) && x < |Level(s, root, h)|
    ensures x > 0 ==> 0 <= Level(s, root, h)[x].lo < KEY_LIMIT
  {
    var l := Level(s, root, h);
    LevelStart(s, root, h);
    assert LeafOk(At(s, l[x].page), l[x].page, pageSize, l[x].lo, Hi(l, x));
  }

  lemma LeafKind(s: Store, pageSize: nat, root: PageNumber, h: nat, x: nat)
    requires Sorted(Level(s, root, h)) && AllLeaves(s, pageSize, Level(s, root, h)) && x < |Level(s, root, h)|
    ensures
      var l := Level(s, root, h);
      At(s, l[x].page).leaf && (At(s, l[x].page).cells == [] <==> Entries(s, l) == [])
  {
    var l := Level(s, root, h);
    var n := At(s, l[x].page);
    assert LeafOk(n, l[x].page, pageSize, l[x].lo, Hi(l, x));
    LoIsKey(s, pageSize, root, h, x);
    if x + 1 < |l| {
      LoIsKey(s, pageSize, root, h, x + 1);
    }
    EntriesAt(s, l, x);
    assert l[..0] == [] && l[|l|..] == [];
  }

  ghost function PathSlots(s: Store, root: PageNumber, key: Key, h: nat): (xs: seq<nat>)
    ensures |xs| == h + 1
  {
    seq(h + 1, e requires 0 <= e <= h => PathIndex(s, root, key, e))
  }

  /** ... and searched. */
  lemma TreeSearchable(s: Store, dbSize: nat, pageSize: nat, root: PageNumber, h: nat, key: Key)
    requires TreeOk(s, dbSize, pageSize, root, h)
    ensures SearchPath(s, LevelSeq(s, root, h), PathPages(s, root, key, h), PathSlots(s, root, key, h), key)
  {
    var ls: Levels, path, xs := LevelSeq(s, root, h), PathPages(s, root, key, h), PathSlots(s, root, key, h);
    PathDescends(s, dbSize, pageSize, root, key, h);
    SearchFramesAt(s, path, key);
    var frames := SearchFrames(s, path, key);
    forall e: nat | e <= h ensures FrameAt(ls, frames, xs, e) {
      PathGap(s, root, key, e);
    }
    forall e: nat | e < h ensures LinkAt(s, ls, frames, xs, e) {
      PathGap(s, root, key, e);
    }
    PathGap(s, root, key, h);
    OuterBounds(s, pageSize, Level(s, root, h), PathIndex(s, root, key, h), key);
  }

  /**
    A key that is present is found exactly when it is not a divider of the leaf level, that is,
    not the first key of a leaf other than the leftmost: routing sends a divider to the leaf on its left.
   */
  lemma SeekFindsPresent(s: Store, dbSize: nat, pageSize: nat, root: PageNumber, h: nat, key: Key)
    requires TreeOk(s, dbSize, pageSize, root, h) && HasKey(Entries(s, Level(s, root, h)), key)
    ensures
      var r := SeekOutcome(s, PathPages(s, root, key, h), key);
      && (r == Equal <==> NoLo(Level(s, root, h), key))
      && (r != Equal ==> r == Less)
  {
    var l, g := Level(s, root, h), PathIndex(s, root, key, h);
    PathGap(s, root, key, h);
    assert PathPages(s, root, key, h)[h] == l[g].page;
    SeekAtLeaf(s, pageSize, l, g, key);
  }

  lemma SeekAtLeaf(s: Store, pageSize: nat, l: seq<Slot>, g: nat, key: Key)
    requires AllLeaves(s, pageSize, l) && Sorted(l) && InGap(l, g, key) && HasKey(Entries(s, l), key)
    ensures
      var cells := At(s, l[g].page).cells;
      var lo := InsertPos(cells, key);
      && (NoLo(l, key) ==> lo < |cells| && cells[lo].key == key)
      && (!NoLo(l, key) ==> cells != [] && lo == |cells|)
  {
    hide Entries, InsertPos, SpaceOk;
    var cells := At(s, l[g].page).cells;
    assert LeafOk(At(s, l[g].page), l[g].page, pageSize, l[g].lo, Hi(l, g));
    if NoLo(l, key) {
      EntriesAt(s, l, g);
      OuterBounds(s, pageSize, l, g, key);
      EntriesWithin(s, pageSize, l, g + 1, |l|);
      assert l[g + 1..|l|] == l[g + 1..];
      PresentInMiddle(Entries(s, l[..g]), cells, Entries(s, l[g + 1..]), key);
    } else {
      var x :| 0 <= x < |l| && l[x].lo == key;
      DividerIsNext(l, g, x, key);
      InsertPosIs(cells, key, |cells|);
    }
  }

  /** A divider equal to the key is that of the slot after its gap. */
  lemma DividerIsNext(l: seq<Slot>, g: nat, x: nat, key: Key)
    requires Sorted(l) && InGap(l, g, key) && x < |l| && l[x].lo == key
    ensures x == g + 1
  {
  }

  lemma PresentInMiddle(a: seq<Cell>, b: seq<Cell>, c: seq<Cell>, key: Key)
    requires AllBelow(a, key) && SortedCells(b) && HasKey(a + b + c, key)
    requires forall i :: 0 <= i < |c| ==> c[i].key != key
    ensures InsertPos(b, key) < |b| && b[InsertPos(b, key)].key == key
  {
    var i :| 0 <= i < |a + b + c| && (a + b + c)[i].key == key;
    assert i >= |a|;
    assert i < |a| + |b|;
    InsertPosIs(b, key, i - |a|);
  }

  lemma DescentTail(s: Store, path: seq<PageNumber>, key: Key)
    requires Descent(s, path, key) && |path| > 1
    ensures Descent(s, path[1..], key)
  {
    var t := path[1..];
    forall i | 0 < i < |t| ensures t[i] == Child(At(s, t[i - 1]), InsertPos(At(s, t[i - 1]).cells, key)) {
      assert t[i] == path[i + 1] && t[i - 1] == path[i];
    }
  }

  /** The edges of the whole tree. */
  lemma FirstEdge(s: Store, ls: Levels, first: bool) returns (path: seq<PageNumber>, xs: seq<nat>)
    requires Scannable(s, ls)
    ensures path != [] && path[0] == ls[0][0].page
    ensures EdgePath(s, path, first)
    ensures
      var cells := At(s, path[|path| - 1]).cells;
      && (cells == [] <==> Rows(s, ls) == [])
      && (cells != [] ==> Stands(s, ls, [] + Frames(s, path, first), xs, if first then cells[0] else cells[|cells| - 1],
                                 if first then 0 else |Rows(s, ls)| - 1))
  {
    path, xs := EdgeStands(s, ls, [], [], 0, ls[0][0].page, first);
    hide Entries, Stands, EdgePath, Frames, KindOk, NextLevel, Expand, OnSlots, LinkAt, FrameAt;
    DownStart(s, ls, 0);
    DownEnd(s, ls, 0);
    assert Leaves(ls)[..0] == [] && Leaves(ls)[..|Leaves(ls)|] == Leaves(ls);
    assert [] + xs == xs;
  }

  lemma {:induction false} LevelStart(s: Store, root: PageNumber, d: nat)
    ensures Level(s, root, d) != [] && Level(s, root, d)[0].lo == -1
  {
    if d > 0 {
      LevelStart(s, root, d - 1);
      var l := Level(s, root, d - 1);
      ExpandFirst(s, l, 0);
      assert l[..0] == [];
    }
  }
}
