/** The leaf level: rows in scan order, and what an insert or a leaf split does to them. */
module BTreeEntries {
  import opened BTreeLevels
  import opened BTreePage
  import opened BTreeShape

  ghost predicate AllBelow(cells: seq<Cell>, key: Key) {
    forall i :: 0 <= i < |cells| ==> cells[i].key < key
  }

  ghost predicate AllFrom(cells: seq<Cell>, key: Key) {
    forall i :: 0 <= i < |cells| ==> key <= cells[i].key
  }

  lemma {:induction false} EntriesConcat(s: Store, a: seq<Slot>, b: seq<Slot>)
    ensures Entries(s, a + b) == Entries(s, a) + Entries(s, b)
  {
    if a == [] {
      assert a + b == b;
    } else {
      assert (a + b)[1..] == a[1..] + b;
      EntriesConcat(s, a[1..], b);
    }
  }

  lemma {:induction false} EntriesFrame(s: Store, s': Store, l: seq<Slot>)
    requires forall i :: 0 <= i < |l| ==> At(s', l[i].page) == At(s, l[i].page)
    ensures Entries(s', l) == Entries(s, l)
  {
    if l != [] {
      assert At(s', l[0].page) == At(s, l[0].page);
      forall i | 0 <= i < |l[1..]| ensures At(s', l[1..][i].page) == At(s, l[1..][i].page) {
        assert l[1..][i] == l[i + 1];
      }
      EntriesFrame(s, s', l[1..]);
    }
  }

  lemma EntriesOne(s: Store, x: Slot)
    ensures Entries(s, [x]) == At(s, x.page).cells
  {
    assert [x][1..] == [];
  }

  lemma EntriesAt(s: Store, l: seq<Slot>, i: nat)
    requires i < |l|
    ensures Entries(s, l) == Entries(s, l[..i]) + At(s, l[i].page).cells + Entries(s, l[i + 1..])
  {
    assert l == l[..i] + ([l[i]] + l[i + 1..]);
    EntriesConcat(s, l[..i], [l[i]] + l[i + 1..]);
    EntriesConcat(s, [l[i]], l[i + 1..]);
    EntriesOne(s, l[i]);
  }

  /** All keys of the list lie in [lo, hi). */
  ghost predicate Within(cells: seq<Cell>, lo: int, hi: int) {
    forall i :: 0 <= i < |cells| ==> lo <= cells[i].key < hi
  }

  ghost predicate HasKey(cells: seq<Cell>, key: Key) {
    exists i :: 0 <= i < |cells| && cells[i].key == key
  }

  lemma LeafWithin(s: Store, pageSize: nat, l: seq<Slot>, i: nat)
    requires AllLeaves(s, pageSize, l) && i < |l|
    ensures Within(At(s, l[i].page).cells, l[i].lo, Hi(l, i))
  {
    var cells := At(s, l[i].page).cells;
    assert LeafOk(At(s, l[i].page), l[i].page, pageSize, l[i].lo, Hi(l, i));
    forall j | 0 <= j < |cells| ensures l[i].lo <= cells[j].key < Hi(l, i) {
      if l[i].lo >= 0 {
        assert j > 0 ==> cells[0].key < cells[j].key;
      }
    }
  }

  /** The rows of the slots a..b lie between the divider of slot a and that of slot b. */
  lemma {:induction false} EntriesWithin(s: Store, pageSize: nat, l: seq<Slot>, a: nat, b: nat)
    requires AllLeaves(s, pageSize, l) && Sorted(l) && a <= b <= |l| && l != []
    ensures a < b ==> Within(Entries(s, l[a..b]), l[a].lo, Hi(l, b - 1))
    ensures a == b ==> Entries(s, l[a..b]) == []
    ensures SortedCells(Entries(s, l[a..b]))
    decreases b - a
  {
    if a < b {
      EntriesWithin(s, pageSize, l, a + 1, b);
      LeafWithin(s, pageSize, l, a);
      var first := At(s, l[a].page).cells;
      var rest := Entries(s, l[a + 1..b]);
      assert l[a..b][1..] == l[a + 1..b];
      assert Entries(s, l[a..b]) == first + rest;
      assert LeafOk(At(s, l[a].page), l[a].page, pageSize, l[a].lo, Hi(l, a));
      if a + 1 < b {
        assert Hi(l, a) == l[a + 1].lo <= l[b - 1].lo;
        assert l[b - 1].lo < Hi(l, b - 1) by {
          if b == |l| {
            assert LeafOk(At(s, l[b - 1].page), l[b - 1].page, pageSize, l[b - 1].lo, Hi(l, b - 1));
          }
        }
      }
    }
  }

  /** The rows of a tree are in strictly ascending key order. */
  lemma EntriesSorted(s: Store, dbSize: nat, pageSize: nat, root: PageNumber, h: nat)
    requires TreeOk(s, dbSize, pageSize, root, h)
    ensures SortedCells(Entries(s, Level(s, root, h)))
  {
    var l := Level(s, root, h);
    PathGap(s, root, 0, h);
    EntriesWithin(s, pageSize, l, 0, |l|);
    assert l[0..|l|] == l;
  }

  /** The insertion position is the one index with smaller keys before it and none after it. */
  lemma InsertPosIs(cells: seq<Cell>, key: Key, i: nat)
    requires i <= |cells|
    requires forall j :: 0 <= j < i ==> cells[j].key < key
    requires i < |cells| ==> key <= cells[i].key
    ensures InsertPos(cells, key) == i
  {
  }

  lemma SpliceMiddle(a: seq<Cell>, b: seq<Cell>, c: seq<Cell>, x: Cell, i: nat)
    requires i <= |b|
    ensures
      var e := a + b + c;
      e[..|a| + i] + [x] + e[|a| + i..] == a + (b[..i] + [x] + b[i..]) + c
  {
    var e := a + b + c;
    assert e[..|a| + i] == a + b[..i];
    assert e[|a| + i..] == b[i..] + c;
  }

  lemma MiddleBounds(a: seq<Cell>, b: seq<Cell>, c: seq<Cell>, key: Key, i: nat)
    requires AllBelow(a, key) && AllFrom(c, key)
    requires i <= |b| && (i < |b| ==> key <= b[i].key)
    requires forall j :: 0 <= j < i ==> b[j].key < key
    ensures forall j :: 0 <= j < |a| + i ==> (a + b + c)[j].key < key
    ensures |a| + i < |a + b + c| ==> key <= (a + b + c)[|a| + i].key
  {
  }

  /** The inserted row lands in the middle part when the outer parts are on the right sides. */
  lemma InsertedMiddle(a: seq<Cell>, b: seq<Cell>, c: seq<Cell>, x: Cell)
    requires AllBelow(a, x.key) && AllFrom(c, x.key)
    ensures Inserted(a + b + c, x) == a + Inserted(b, x) + c
  {
    var i := InsertPos(b, x.key);
    MiddleBounds(a, b, c, x.key, i);
    InsertPosIs(a + b + c, x.key, |a| + i);
    SpliceMiddle(a, b, c, x, i);
  }

  // ---- One leaf gets a row ----

  lemma OuterBounds(s: Store, pageSize: nat, l: seq<Slot>, g: nat, key: Key)
    requires AllLeaves(s, pageSize, l) && Sorted(l) && InGap(l, g, key)
    ensures AllBelow(Entries(s, l[..g]), key)
    ensures AllFrom(Entries(s, l[g + 1..]), key)
  {
    hide AllLeaves, Entries;
    EntriesWithin(s, pageSize, l, 0, g);
    EntriesWithin(s, pageSize, l, g + 1, |l|);
    assert l[0..g] == l[..g] && l[g + 1..|l|] == l[g + 1..];
  }

  lemma EntriesReplace(s: Store, s': Store, l: seq<Slot>, g: nat, x: seq<Slot>)
    requires g < |l|
    requires forall j :: 0 <= j < |l| && j != g ==> At(s', l[j].page) == At(s, l[j].page)
    ensures Entries(s', Replace(l, g, 1, x)) == Entries(s, l[..g]) + Entries(s', x) + Entries(s, l[g + 1..])
  {
    var a, b := l[..g], l[g + 1..];
    EntriesFrame(s, s', a);
    forall j | 0 <= j < |b| ensures At(s', b[j].page) == At(s, b[j].page) {
      assert b[j] == l[g + 1 + j];
    }
    EntriesFrame(s, s', b);
    EntriesConcat(s', a + x, b);
    EntriesConcat(s', a, x);
  }

  /** What replacing slot g (by the slots x, whose leaves hold the old rows and the new one) does. */
  lemma EntriesAfter(s: Store, s': Store, pageSize: nat, l: seq<Slot>, g: nat, x: seq<Slot>, c: Cell)
    requires AllLeaves(s, pageSize, l) && Sorted(l) && InGap(l, g, c.key)
    requires forall j :: 0 <= j < |l| && j != g ==> At(s', l[j].page) == At(s, l[j].page)
    requires Entries(s', x) == Inserted(At(s, l[g].page).cells, c)
    ensures Entries(s', Replace(l, g, 1, x)) == Inserted(Entries(s, l), c)
  {
    EntriesReplace(s, s', l, g, x);
    EntriesAt(s, l, g);
    OuterBounds(s, pageSize, l, g, c.key);
    InsertedMiddle(Entries(s, l[..g]), At(s, l[g].page).cells, Entries(s, l[g + 1..]), c);
  }

  /** A fresh key in gap g stays strictly below the next divider and above the first key of its leaf. */
  lemma FreshBounds(s: Store, pageSize: nat, l: seq<Slot>, g: nat, key: Key)
    requires AllLeaves(s, pageSize, l) && InGap(l, g, key) && !HasKey(Entries(s, l), key)
    ensures key < Hi(l, g)
    ensures forall j :: 0 <= j < |At(s, l[g].page).cells| ==> At(s, l[g].page).cells[j].key != key
  {
    EntriesAt(s, l, g);
    var e := Entries(s, l);
    var o := |Entries(s, l[..g])|;
    var cells := At(s, l[g].page).cells;
    forall j | 0 <= j < |cells| ensures cells[j].key != key {
      assert e[o + j] == cells[j];
    }
    if g + 1 < |l| {
      EntriesAt(s, l, g + 1);
      var n := At(s, l[g + 1].page);
      assert LeafOk(n, l[g + 1].page, pageSize, l[g + 1].lo, Hi(l, g + 1));
      assert LeafOk(At(s, l[g].page), l[g].page, pageSize, l[g].lo, Hi(l, g));
      assert l[g + 1].lo >= 0;
      assert e[|Entries(s, l[..g + 1])|] == n.cells[0];
    }
  }

  lemma InsertedElems(cells: seq<Cell>, c: Cell, i: nat)
    requires i < |cells| + 1
    ensures
      var j := InsertPos(cells, c.key);
      Inserted(cells, c)[i] == if i < j then cells[i] else if i == j then c else cells[i - 1]
  {
  }

  /** The rows of the leaf with the new one: sorted, within the same bounds, first row kept. */
  lemma InsertedLeaf(s: Store, pageSize: nat, l: seq<Slot>, g: nat, c: Cell)
    requires AllLeaves(s, pageSize, l) && InGap(l, g, c.key) && !HasKey(Entries(s, l), c.key) && c.Row?
    ensures
      var all := Inserted(At(s, l[g].page).cells, c);
      && AllRows(all) && SortedCells(all) && Within(all, l[g].lo, Hi(l, g))
      && (l[g].lo >= 0 ==> all[0].key == l[g].lo)
  {
    var n := At(s, l[g].page);
    var all := Inserted(n.cells, c);
    assert LeafOk(n, l[g].page, pageSize, l[g].lo, Hi(l, g));
    FreshBounds(s, pageSize, l, g, c.key);
    InsertedSorted(n.cells, c);
    LeafWithin(s, pageSize, l, g);
    forall i | 0 <= i < |all| ensures all[i].Row? && l[g].lo <= all[i].key < Hi(l, g) {
      InsertedElems(n.cells, c, i);
    }
  }

  /** Case 1 of an insert: the leaf has room. */
  lemma LeafInsertLeaves(s: Store, pageSize: nat, l: seq<Slot>, g: nat, c: Cell)
    requires AllLeaves(s, pageSize, l) && NoDup(l)
    requires InGap(l, g, c.key) && !HasKey(Entries(s, l), c.key) && c.Row?
    requires Fits(At(s, l[g].page), l[g].page, CellSize(c))
    ensures AllLeaves(s[l[g].page := WithCell(At(s, l[g].page), c)], pageSize, l)
  {
    var p := l[g].page;
    var n := At(s, p);
    var s' := s[p := WithCell(n, c)];
    assert LeafOk(WithCell(n, c), p, pageSize, l[g].lo, Hi(l, g)) by {
      InsertedLeaf(s, pageSize, l, g, c);
      assert LeafOk(n, p, pageSize, l[g].lo, Hi(l, g));
      WithCellSpace(n, p, c, pageSize);
    }
    forall i | 0 <= i < |l| ensures LeafOk(At(s', l[i].page), l[i].page, pageSize, l[i].lo, Hi(l, i)) {
      assert LeafOk(At(s, l[i].page), l[i].page, pageSize, l[i].lo, Hi(l, i));
      assert i != g ==> At(s', l[i].page) == At(s, l[i].page);
    }
  }

  lemma LeafInsertEntries(s: Store, pageSize: nat, l: seq<Slot>, g: nat, c: Cell)
    requires AllLeaves(s, pageSize, l) && Sorted(l) && NoDup(l) && InGap(l, g, c.key)
    requires CellSize(c) <= At(s, l[g].page).contentStart
    ensures Entries(s[l[g].page := WithCell(At(s, l[g].page), c)], l) == Inserted(Entries(s, l), c)
  {
    hide Entries, Inserted, Sorted, AllLeaves;
    var s' := s[l[g].page := WithCell(At(s, l[g].page), c)];
    assert Replace(l, g, 1, [l[g]]) == l;
    EntriesOne(s', l[g]);
    EntriesAfter(s, s', pageSize, l, g, [l[g]], c);
  }

  /** Case 2: the leaf is split in the pages lp and rp. */
  lemma LeafSplit(s: Store, s': Store, pageSize: nat, l: seq<Slot>, g: nat, c: Cell, lp: PageNumber, rp: PageNumber, csl: nat, csr: nat)
    requires AllLeaves(s, pageSize, l) && Sorted(l)
    requires InGap(l, g, c.key) && !HasKey(Entries(s, l), c.key) && c.Row?
    requires |At(s, l[g].page).cells| >= 3
    requires forall j :: 0 <= j < |l| && j != g ==> At(s', l[j].page) == At(s, l[j].page)
    requires
      var plan := Plan(true, Inserted(At(s, l[g].page).cells, c), 0);
      && At(s', lp) == Node(true, csl, plan.left, 0) && SpaceOk(At(s', lp), lp, pageSize)
      && At(s', rp) == Node(true, csr, plan.right, 0) && SpaceOk(At(s', rp), rp, pageSize)
    ensures
      var plan := Plan(true, Inserted(At(s, l[g].page).cells, c), 0);
      var l' := Replace(l, g, 1, [Slot(l[g].lo, lp), Slot(plan.divider, rp)]);
      && AllLeaves(s', pageSize, l')
      && Entries(s', l') == Inserted(Entries(s, l), c)
  {
    hide HasKey, Entries, InsertPos, SpaceOk, Sorted;
    var all := Inserted(At(s, l[g].page).cells, c);
    var plan := Plan(true, all, 0);
    LeafSplitRightNonEmpty(all, 0);
    InsertedLeaf(s, pageSize, l, g, c);
    var a, b := Slot(l[g].lo, lp), Slot(plan.divider, rp);
    var l' := Replace(l, g, 1, [a, b]);
    assert [a, b] == [a] + [b];
    EntriesConcat(s', [a], [b]);
    EntriesOne(s', a);
    EntriesOne(s', b);
    EntriesAfter(s, s', pageSize, l, g, [a, b], c);
    SplitLeavesOk(s, pageSize, l, g, c);
    forall i | 0 <= i < |l'| ensures LeafOk(At(s', l'[i].page), l'[i].page, pageSize, l'[i].lo, Hi(l', i)) {
      if i < g {
        assert LeafOk(At(s, l[i].page), l[i].page, pageSize, l[i].lo, Hi(l, i));
      } else if i > g + 1 {
        assert LeafOk(At(s, l[i - 1].page), l[i - 1].page, pageSize, l[i - 1].lo, Hi(l, i - 1));
      }
    }
  }

  /** Both halves meet the leaf bounds around the promoted key. */
  lemma SplitLeavesOk(s: Store, pageSize: nat, l: seq<Slot>, g: nat, c: Cell)
    requires AllLeaves(s, pageSize, l) && InGap(l, g, c.key) && !HasKey(Entries(s, l), c.key) && c.Row?
    requires |At(s, l[g].page).cells| >= 3
    ensures
      var plan := Plan(true, Inserted(At(s, l[g].page).cells, c), 0);
      && plan.left != [] && plan.right != []
      && AllRows(plan.left) && AllRows(plan.right) && SortedCells(plan.left) && SortedCells(plan.right)
      && Within(plan.left, l[g].lo, plan.divider) && Within(plan.right, plan.divider, Hi(l, g))
      && plan.right[0].key == plan.divider
      && (l[g].lo >= 0 ==> plan.left[0].key == l[g].lo)
      && Between(l, g, plan.divider)
  {
    var all := Inserted(At(s, l[g].page).cells, c);
    InsertedLeaf(s, pageSize, l, g, c);
    var mid := LeafMid(|all|);
    assert all[0].key < all[mid + 1].key;
  }
}
