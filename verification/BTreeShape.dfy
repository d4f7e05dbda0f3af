/**
  The invariant of a table B-tree and the steps from which an insert is built:
  routing, a divider put into an interior page, an interior split, and the
  retargeting of the pointer after the divider.
 */
module BTreeShape {
  import opened BTreeLevels
  import opened BTreePage

  // ---- Invariants ----

  ghost predicate StoreOk(s: Store, dbSize: nat) {
    forall p :: p in s ==> 1 <= p <= dbSize
  }

  ghost predicate AllInner(s: Store, pageSize: nat, l: seq<Slot>) {
    forall i :: 0 <= i < |l| ==> InnerOk(At(s, l[i].page), l[i].page, pageSize)
  }

  /** Levels 0..d are those of a tree: no page twice, pages above level d are interior, dividers ascend. */
  ghost predicate Upper(s: Store, pageSize: nat, root: PageNumber, d: nat) {
    && NoDup(Level(s, root, d))
    && PagesOf(Level(s, root, d)) !! Above(s, root, d)
    && PagesOf(Level(s, root, d)) <= s.Keys
    && Sorted(Level(s, root, d))
    && (d > 0 ==> Upper(s, pageSize, root, d - 1) && AllInner(s, pageSize, Level(s, root, d - 1)))
  }

  ghost function Hi(l: seq<Slot>, i: nat): int {
    if i + 1 < |l| then l[i + 1].lo else KEY_LIMIT
  }

  ghost predicate AllLeaves(s: Store, pageSize: nat, l: seq<Slot>) {
    forall i :: 0 <= i < |l| ==> LeafOk(At(s, l[i].page), l[i].page, pageSize, l[i].lo, Hi(l, i))
  }

  /** A tree of height `h`: level h holds the leaves. */
  ghost predicate TreeOk(s: Store, dbSize: nat, pageSize: nat, root: PageNumber, h: nat) {
    && StoreOk(s, dbSize)
    && 512 <= pageSize <= 32768
    && Upper(s, pageSize, root, h)
    && AllLeaves(s, pageSize, Level(s, root, h))
  }

  /** The rows in scan order. */
  ghost function Entries(s: Store, l: seq<Slot>): seq<Cell> {
    if l == [] then [] else At(s, l[0].page).cells + Entries(s, l[1..])
  }

  // ---- Routing ----

  /** Where the descent from slot `i` of level `l` arrives in the level below. */
  ghost function Below(s: Store, l: seq<Slot>, i: nat, key: Key): nat {
    if i < |l| then Offset(s, l, i) + InsertPos(At(s, l[i].page).cells, key) else 0
  }

  /** Index, in level d, of the page at depth d on the way to `key`. */
  ghost function PathIndex(s: Store, root: PageNumber, key: Key, d: nat): nat {
    if d == 0 then 0 else Below(s, Level(s, root, d - 1), PathIndex(s, root, key, d - 1), key)
  }

  ghost function PageAt(l: seq<Slot>, i: nat): PageNumber {
    if i < |l| then l[i].page else 0
  }

  /** The page at depth d on the way to `key`. */
  ghost function PathPage(s: Store, root: PageNumber, key: Key, d: nat): PageNumber {
    PageAt(Level(s, root, d), PathIndex(s, root, key, d))
  }

  lemma KidsGap(n: Node, lo: int, key: Key)
    requires lo < key
    ensures InGap(Kids(n, lo), InsertPos(n.cells, key), key)
  {
  }

  lemma BelowGap(s: Store, l: seq<Slot>, i: nat, key: Key)
    requires InGap(l, i, key)
    ensures InGap(Expand(s, l), Below(s, l, i, key), key)
    ensures
      var n := At(s, l[i].page);
      Expand(s, l)[Below(s, l, i, key)].page == Child(n, InsertPos(n.cells, key))
  {
    var n := At(s, l[i].page);
    KidsGap(n, l[i].lo, key);
    GapDown(s, l, i, InsertPos(n.cells, key), key);
  }

  /** Binary search at every page finds the one gap of the key in every level. */
  lemma {:induction false} PathGap(s: Store, root: PageNumber, key: Key, d: nat)
    ensures InGap(Level(s, root, d), PathIndex(s, root, key, d), key)
    ensures Level(s, root, d)[PathIndex(s, root, key, d)].page == PathPage(s, root, key, d)
  {
    if d > 0 {
      PathGap(s, root, key, d - 1);
      BelowGap(s, Level(s, root, d - 1), PathIndex(s, root, key, d - 1), key);
    }
  }

  /** The path follows child pointers. */
  lemma PathChild(s: Store, root: PageNumber, key: Key, d: nat)
    ensures
      var n := At(s, PathPage(s, root, key, d));
      PathPage(s, root, key, d + 1) == Child(n, InsertPos(n.cells, key))
  {
    PathGap(s, root, key, d);
    BelowGap(s, Level(s, root, d), PathIndex(s, root, key, d), key);
  }

  lemma BelowFrame(s: Store, s': Store, l: seq<Slot>, i: nat, key: Key)
    requires forall p :: p in PagesOf(l) ==> At(s', p) == At(s, p)
    ensures Below(s', l, i, key) == Below(s, l, i, key)
  {
    if i < |l| {
      forall j | 0 <= j < |l[..i]| ensures At(s', l[..i][j].page) == At(s, l[..i][j].page) {
        assert l[j].page in PagesOf(l);
      }
      ExpandFrame(s, s', l[..i]);
      assert l[i].page in PagesOf(l);
    }
  }

  lemma {:induction false} PathFrame(s: Store, s': Store, root: PageNumber, key: Key, d: nat)
    requires forall p :: p in Above(s, root, d) ==> At(s', p) == At(s, p)
    ensures PathIndex(s', root, key, d) == PathIndex(s, root, key, d)
    ensures PathPage(s', root, key, d) == PathPage(s, root, key, d)
  {
    LevelFrame(s, s', root, d);
    if d > 0 {
      LevelFrame(s, s', root, d - 1);
      PathFrame(s, s', root, key, d - 1);
      BelowFrame(s, s', Level(s, root, d - 1), PathIndex(s, root, key, d - 1), key);
    }
  }

  /** The pages of the levels above an index are in the set Above. */
  lemma {:induction false} PathAbove(s: Store, root: PageNumber, key: Key, e: nat, d: nat)
    requires e < d
    ensures PathPage(s, root, key, e) in Above(s, root, d)
    decreases d
  {
    if e == d - 1 {
      PathGap(s, root, key, e);
      var l := Level(s, root, e);
      assert l[PathIndex(s, root, key, e)].page in PagesOf(l);
    } else {
      PathAbove(s, root, key, e, d - 1);
    }
  }

  lemma {:induction false} UpperMono(s: Store, pageSize: nat, root: PageNumber, e: nat, d: nat)
    requires e <= d && Upper(s, pageSize, root, d)
    ensures Upper(s, pageSize, root, e)
    ensures Above(s, root, e) <= Above(s, root, d)
    decreases d
  {
    if e < d {
      UpperMono(s, pageSize, root, e, d - 1);
    }
  }

  /** Pages of two different depths are different. */
  lemma PathDistinct(s: Store, pageSize: nat, root: PageNumber, key: Key, e: nat, d: nat)
    requires e < d && Upper(s, pageSize, root, d)
    ensures PathPage(s, root, key, e) != PathPage(s, root, key, d)
  {
    PathAbove(s, root, key, e, d);
    PathGap(s, root, key, d);
    var l := Level(s, root, d);
    assert l[PathIndex(s, root, key, d)].page in PagesOf(l);
  }

  /** A second key in the gap at depth d goes the same way and to the same place in each page. */
  lemma SamePath(s: Store, root: PageNumber, x: Key, y: Key, d: nat)
    requires Sorted(Level(s, root, d))
    requires InGap(Level(s, root, d), PathIndex(s, root, x, d), y)
    ensures PathIndex(s, root, y, d) == PathIndex(s, root, x, d)
    ensures PathPage(s, root, y, d) == PathPage(s, root, x, d)
  {
    PathGap(s, root, x, d);
    PathGap(s, root, y, d);
    GapUnique(Level(s, root, d), PathIndex(s, root, x, d), PathIndex(s, root, y, d), y);
  }

  /** Two keys in the same gap below slot `i` have the same position in the page of slot `i`. */
  lemma SamePosition(s: Store, l: seq<Slot>, i: nat, x: Key, y: Key)
    requires InGap(l, i, x) && Sorted(Expand(s, l))
    requires InGap(Expand(s, l), Offset(s, l, i) + InsertPos(At(s, l[i].page).cells, x), y)
    ensures InGap(l, i, y)
    ensures InsertPos(At(s, l[i].page).cells, y) == InsertPos(At(s, l[i].page).cells, x)
  {
    var n := At(s, l[i].page);
    var j := InsertPos(n.cells, x);
    GapUp(s, l, i, j, y);
    KidsSortedCells(s, l, i);
    var k := Kids(n, l[i].lo);
    assert j > 0 ==> k[j].lo == n.cells[j - 1].key;
    assert j < |n.cells| ==> k[j + 1].lo == n.cells[j].key;
    InsertPosUnique(n.cells, y, j);
  }

  lemma SamePathUp(s: Store, root: PageNumber, x: Key, y: Key, d: nat)
    requires d > 0 && Sorted(Level(s, root, d))
    requires InGap(Level(s, root, d), PathIndex(s, root, x, d), y)
    ensures InGap(Level(s, root, d - 1), PathIndex(s, root, x, d - 1), y)
    ensures
      var n := At(s, PathPage(s, root, x, d - 1));
      InsertPos(n.cells, y) == InsertPos(n.cells, x)
  {
    hide Sorted, Expand, InGap, InsertPos;
    PathGap(s, root, x, d - 1);
    SamePosition(s, Level(s, root, d - 1), PathIndex(s, root, x, d - 1), x, y);
  }

  /** The cells of every page of a level are sorted when the level below is. */
  lemma KidsSortedCells(s: Store, l: seq<Slot>, i: nat)
    requires i < |l| && Sorted(Expand(s, l))
    ensures SortedCells(At(s, l[i].page).cells)
  {
    var n := At(s, l[i].page);
    forall a, b | 0 <= a < b < |n.cells| ensures n.cells[a].key < n.cells[b].key {
      ExpandIndex(s, l, i, a + 1);
      ExpandIndex(s, l, i, b + 1);
    }
  }

  // ---- Step 1: a divider goes into an interior page ----

  /** The level below, after the divider (m, c) has been put into the page at index `i` of level `l`. */
  ghost function BelowWithDivider(s: Store, l: seq<Slot>, i: nat, m: Key, c: PageNumber): seq<Slot>
    requires i < |l|
  {
    var o := Offset(s, l, i) + InsertPos(At(s, l[i].page).cells, m);
    var e := Expand(s, l);
    if o < |e| then Replace(e, o, 1, [Slot(e[o].lo, c), Slot(m, e[o].page)]) else e
  }

  /** Rewriting the page at index `i` changes only its own block of the level below. */
  lemma PageRewritten(s: Store, l: seq<Slot>, i: nat, n': Node)
    requires i < |l| && NoDup(l)
    ensures Offset(s, l, i) + |At(s, l[i].page).cells| + 1 <= |Expand(s, l)|
    ensures Expand(s[l[i].page := n'], l)
         == Replace(Expand(s, l), Offset(s, l, i), |At(s, l[i].page).cells| + 1, Kids(n', l[i].lo))
  {
    var s' := s[l[i].page := n'];
    assert Replace(l, i, 1, [l[i]]) == l;
    ExpandReplace(s, s', l, i, [l[i]]);
    ExpandOne(s', l[i]);
  }

  lemma DividerIntoPage(s: Store, l: seq<Slot>, i: nat, m: Key, c: PageNumber)
    requires i < |l| && NoDup(l)
    requires AllDividers(At(s, l[i].page).cells) && !At(s, l[i].page).leaf
    requires CellSize(Divider(m, c)) <= At(s, l[i].page).contentStart
    ensures Expand(s[l[i].page := WithCell(At(s, l[i].page), Divider(m, c))], l) == BelowWithDivider(s, l, i, m, c)
  {
    var n := At(s, l[i].page);
    PageRewritten(s, l, i, WithCell(n, Divider(m, c)));
    KidsWithCell(n, l[i].lo, Divider(m, c));
    BlockReplaced(s, l, i, m, c, Kids(WithCell(n, Divider(m, c)), l[i].lo));
  }

  /** Replacing child `j` of slot `i`, seen in the level below. */
  lemma ChildReplaced(s: Store, l: seq<Slot>, i: nat, j: nat, x: seq<Slot>)
    requires i < |l| && j <= |At(s, l[i].page).cells|
    ensures Offset(s, l, i) + |At(s, l[i].page).cells| + 1 <= |Expand(s, l)|
    ensures Expand(s, l)[Offset(s, l, i) + j] == Kids(At(s, l[i].page), l[i].lo)[j]
    ensures
      var n := At(s, l[i].page);
      var o := Offset(s, l, i);
      Replace(Expand(s, l), o, |n.cells| + 1, Replace(Kids(n, l[i].lo), j, 1, x)) == Replace(Expand(s, l), o + j, 1, x)
  {
    ExpandAt(s, l, i);
    ExpandIndex(s, l, i, j);
    var k := Kids(At(s, l[i].page), l[i].lo);
    assert Expand(s, l)[Offset(s, l, i)..Offset(s, l, i) + |k|] == k;
    ReplaceNested(Expand(s, l), Offset(s, l, i), k, j, x);
  }

  lemma BlockReplaced(s: Store, l: seq<Slot>, i: nat, m: Key, c: PageNumber, k': seq<Slot>)
    requires i < |l|
    requires
      var n := At(s, l[i].page);
      var k := Kids(n, l[i].lo);
      var j := InsertPos(n.cells, m);
      k' == Replace(k, j, 1, [Slot(k[j].lo, c), Slot(m, k[j].page)])
    ensures Offset(s, l, i) + |At(s, l[i].page).cells| + 1 <= |Expand(s, l)|
    ensures Replace(Expand(s, l), Offset(s, l, i), |At(s, l[i].page).cells| + 1, k') == BelowWithDivider(s, l, i, m, c)
  {
    var n := At(s, l[i].page);
    var j := InsertPos(n.cells, m);
    var x := Kids(n, l[i].lo)[j];
    ChildReplaced(s, l, i, j, [Slot(x.lo, c), Slot(m, x.page)]);
  }

  // ---- Step 2: an interior split ----

  /** Both halves, written to pages q (in place) and r, with the median between them in the level. */
  lemma SplitBelow(s: Store, s': Store, l: seq<Slot>, i: nat, m: Key, c: PageNumber, r: PageNumber, q: PageNumber, csl: nat, csr: nat)
    requires i < |l| && AllDividers(At(s, l[i].page).cells) && !At(s, l[i].page).leaf
    requires forall j :: 0 <= j < |l| && j != i ==> At(s', l[j].page) == At(s, l[j].page)
    requires
      var n := At(s, l[i].page);
      var plan := Plan(false, Inserted(n.cells, Divider(m, c)), n.rightmost);
      && At(s', q) == Node(false, csl, plan.left, plan.leftRightmost)
      && At(s', r) == Node(false, csr, plan.right, plan.rightRightmost)
    ensures
      var n := At(s, l[i].page);
      var plan := Plan(false, Inserted(n.cells, Divider(m, c)), n.rightmost);
      Expand(s', Replace(l, i, 1, [Slot(l[i].lo, q), Slot(plan.divider, r)])) == BelowWithDivider(s, l, i, m, c)
  {
    var n := At(s, l[i].page);
    var all := Inserted(n.cells, Divider(m, c));
    var plan := Plan(false, all, n.rightmost);
    var a, b := Slot(l[i].lo, q), Slot(plan.divider, r);
    ExpandReplace(s, s', l, i, [a, b]);
    assert [a, b] == [a] + [b];
    ExpandConcat(s', [a], [b]);
    ExpandOne(s', a);
    ExpandOne(s', b);
    KidsSplit(all, n.rightmost, l[i].lo, 0, csl, csr);
    KidsInserted(n, l[i].lo, Divider(m, c), 0);
    BlockReplaced(s, l, i, m, c, Kids(Node(false, 0, all, n.rightmost), l[i].lo));
  }

  // ---- Step 3: the pointer after the divider is retargeted ----

  lemma Retarget(s: Store, l: seq<Slot>, i: nat, idx: nat, r: PageNumber)
    requires i < |l| && NoDup(l) && idx <= |At(s, l[i].page).cells|
    requires AllDividers(At(s, l[i].page).cells)
    ensures Offset(s, l, i) + idx < |Expand(s, l)|
    ensures
      var s' := s[l[i].page := WithChild(At(s, l[i].page), idx, r)];
      var o := Offset(s, l, i) + idx;
      Expand(s', l) == Replace(Expand(s, l), o, 1, [Slot(Expand(s, l)[o].lo, r)])
  {
    var n := At(s, l[i].page);
    PageRewritten(s, l, i, WithChild(n, idx, r));
    KidsWithChild(n, l[i].lo, idx, r);
    ChildReplaced(s, l, i, idx, [Slot(Kids(n, l[i].lo)[idx].lo, r)]);
  }

  // ---- A level with one slot split in two ----

  ghost function SplitSlot(l: seq<Slot>, g: nat, m: Key, r: PageNumber): seq<Slot>
    requires g < |l|
  {
    Replace(l, g, 1, [l[g], Slot(m, r)])
  }

  /** Strictly inside gap g. */
  ghost predicate Between(l: seq<Slot>, g: nat, m: Key) {
    g < |l| && l[g].lo < m && (g + 1 < |l| ==> m < l[g + 1].lo)
  }

  lemma SplitSlotIndex(l: seq<Slot>, g: nat, m: Key, r: PageNumber, i: nat)
    requires g < |l| && i < |l| + 1
    ensures |SplitSlot(l, g, m, r)| == |l| + 1
    ensures SplitSlot(l, g, m, r)[i] == if i <= g then l[i] else if i == g + 1 then Slot(m, r) else l[i - 1]
  {
  }

  lemma SplitSlotSorted(l: seq<Slot>, g: nat, m: Key, r: PageNumber)
    requires Sorted(l) && Between(l, g, m)
    ensures Sorted(SplitSlot(l, g, m, r))
  {
    var x := SplitSlot(l, g, m, r);
    forall i, j | 0 <= i < j < |x| ensures x[i].lo < x[j].lo {
      SplitSlotIndex(l, g, m, r, i);
      SplitSlotIndex(l, g, m, r, j);
    }
  }

  lemma SplitSlotPages(l: seq<Slot>, g: nat, m: Key, r: PageNumber)
    requires g < |l|
    ensures PagesOf(SplitSlot(l, g, m, r)) == PagesOf(l) + {r}
    ensures NoDup(l) && r !in PagesOf(l) ==> NoDup(SplitSlot(l, g, m, r))
  {
    var x := SplitSlot(l, g, m, r);
    forall i | 0 <= i < |l| ensures l[i].page in PagesOf(x) {
      if i <= g {
        SplitSlotIndex(l, g, m, r, i);
        assert x[i] == l[i];
      } else {
        SplitSlotIndex(l, g, m, r, i + 1);
        assert x[i + 1] == l[i];
      }
    }
    SplitSlotIndex(l, g, m, r, g + 1);
    assert x[g + 1].page == r;
    forall i | 0 <= i < |x| ensures x[i].page in PagesOf(l) + {r} {
      SplitSlotIndex(l, g, m, r, i);
    }
    if NoDup(l) && r !in PagesOf(l) {
      forall i, j | 0 <= i < j < |x| ensures x[i].page != x[j].page {
        SplitSlotIndex(l, g, m, r, i);
        SplitSlotIndex(l, g, m, r, j);
        if i == g + 1 {
          assert l[j - 1].page in PagesOf(l);
        } else if j == g + 1 {
          assert l[i].page in PagesOf(l);
        }
      }
    }
  }

  // ---- Assembling the new tree ----

  lemma {:induction false} UpperFrame(s: Store, s': Store, pageSize: nat, root: PageNumber, d: nat)
    requires Upper(s, pageSize, root, d)
    requires s.Keys <= s'.Keys
    requires forall p :: p in Above(s, root, d) ==> At(s', p) == At(s, p)
    ensures Upper(s', pageSize, root, d)
  {
    LevelFrame(s, s', root, d);
    if d > 0 {
      UpperFrame(s, s', pageSize, root, d - 1);
      LevelFrame(s, s', root, d - 1);
      InnerFrame(s, s', pageSize, Level(s, root, d - 1));
    }
  }

  /** The facts about level d itself. */
  lemma UpperFacts(s: Store, pageSize: nat, root: PageNumber, d: nat)
    requires Upper(s, pageSize, root, d)
    ensures NoDup(Level(s, root, d)) && Sorted(Level(s, root, d))
    ensures PagesOf(Level(s, root, d)) <= s.Keys && PagesOf(Level(s, root, d)) !! Above(s, root, d)
    ensures Level(s, root, d + 1) == Expand(s, Level(s, root, d))
    ensures Above(s, root, d + 1) == Above(s, root, d) + PagesOf(Level(s, root, d))
    ensures d > 0 ==> Upper(s, pageSize, root, d - 1) && AllInner(s, pageSize, Level(s, root, d - 1))
  {
  }

  lemma PathIndexStep(s: Store, root: PageNumber, key: Key, d: nat)
    ensures PathIndex(s, root, key, d + 1) == Below(s, Level(s, root, d), PathIndex(s, root, key, d), key)
    ensures Level(s, root, d + 1) == Expand(s, Level(s, root, d))
    ensures Above(s, root, d + 1) == Above(s, root, d) + PagesOf(Level(s, root, d))
  {
  }

  lemma InnerFrame(s: Store, s': Store, pageSize: nat, l: seq<Slot>)
    requires AllInner(s, pageSize, l)
    requires forall p :: p in PagesOf(l) ==> At(s', p) == At(s, p)
    ensures AllInner(s', pageSize, l)
  {
    forall i | 0 <= i < |l| ensures InnerOk(At(s', l[i].page), l[i].page, pageSize) {
      assert l[i].page in PagesOf(l);
    }
  }

  /** A level of interior pages extends the upper part of the tree by the level below it. */
  lemma UpperExtend(s: Store, pageSize: nat, root: PageNumber, e: nat)
    requires Upper(s, pageSize, root, e) && AllInner(s, pageSize, Level(s, root, e))
    requires NoDup(Level(s, root, e + 1)) && Sorted(Level(s, root, e + 1))
    requires PagesOf(Level(s, root, e + 1)) <= s.Keys
    requires PagesOf(Level(s, root, e + 1)) !! Above(s, root, e + 1)
    ensures Upper(s, pageSize, root, e + 1)
  {
  }

  /** Dividers survive downwards. */
  lemma {:induction false} LoDown(s: Store, root: PageNumber, t: nat, i: nat, e: nat) returns (j: nat)
    requires t <= e && i < |Level(s, root, t)|
    ensures j < |Level(s, root, e)| && Level(s, root, e)[j].lo == Level(s, root, t)[i].lo
    decreases e
  {
    if t == e {
      j := i;
    } else {
      var k := LoDown(s, root, t, i, e - 1);
      LoBelow(s, Level(s, root, e - 1), k);
      j :| 0 <= j < |Level(s, root, e)| && Level(s, root, e)[j].lo == Level(s, root, e - 1)[k].lo;
    }
  }

  /** Every key of a page that gets the divider c lies strictly inside the gap of the page. */
  lemma InsertedBetween(s: Store, l: seq<Slot>, i: nat, c: Cell, x: nat)
    requires i < |l| && Sorted(Expand(s, l))
    requires Between(Expand(s, l), Offset(s, l, i) + InsertPos(At(s, l[i].page).cells, c.key), c.key)
    requires x < |Inserted(At(s, l[i].page).cells, c)|
    ensures Between(l, i, Inserted(At(s, l[i].page).cells, c)[x].key)
  {
    var n := At(s, l[i].page);
    var j := InsertPos(n.cells, c.key);
    var all := Inserted(n.cells, c);
    if x == j {
      GapUp(s, l, i, j, c.key);
      assert all[x] == c;
      if i + 1 < |l| && j == |n.cells| {
        BlockEnd(s, l, i);
      } else if i + 1 < |l| {
        assert all[x + 1] == n.cells[j];
        KeyBetween(s, l, i, j);
        ExpandIndex(s, l, i, j + 1);
      }
    } else {
      var y := if x < j then x else x - 1;
      assert all[x] == n.cells[y];
      KeyBetween(s, l, i, y);
    }
  }

  lemma KeyBetween(s: Store, l: seq<Slot>, i: nat, y: nat)
    requires i < |l| && Sorted(Expand(s, l)) && y < |At(s, l[i].page).cells|
    ensures Between(l, i, At(s, l[i].page).cells[y].key)
  {
    ExpandFirst(s, l, i);
    ExpandIndex(s, l, i, y + 1);
    if i + 1 < |l| {
      BlockEnd(s, l, i);
    }
  }

  /** The keys of a page are dividers of the level below, so a key strictly inside a gap is none of them. */
  lemma BetweenFresh(s: Store, l: seq<Slot>, i: nat, g: nat, m: Key)
    requires i < |l| && Sorted(Expand(s, l)) && Between(Expand(s, l), g, m)
    ensures forall y :: 0 <= y < |At(s, l[i].page).cells| ==> At(s, l[i].page).cells[y].key != m
    ensures NoLo(l, m)
  {
    var e := Expand(s, l);
    forall y | 0 <= y < |At(s, l[i].page).cells| ensures At(s, l[i].page).cells[y].key != m {
      ExpandIndex(s, l, i, y + 1);
      BetweenNot(e, g, m, Offset(s, l, i) + y + 1);
    }
    forall y | 0 <= y < |l| ensures l[y].lo != m {
      ExpandFirst(s, l, y);
      BetweenNot(e, g, m, Offset(s, l, y));
    }
  }

  /** `m` divides nothing in the level. */
  ghost predicate NoLo(l: seq<Slot>, m: Key) {
    forall i :: 0 <= i < |l| ==> l[i].lo != m
  }

  lemma BetweenNot(l: seq<Slot>, g: nat, m: Key, i: nat)
    requires Sorted(l) && Between(l, g, m) && i < |l|
    ensures l[i].lo != m
  {
    assert i < g ==> l[i].lo < l[g].lo;
    assert i > g + 1 ==> l[g + 1].lo < l[i].lo;
  }
}
