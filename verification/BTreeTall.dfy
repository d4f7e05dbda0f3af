/**
  How far the leaves are below a page, seen along first children: the pointer of a first child is
  never retargeted, so this height survives what a misdirected retargeting destroys.
 */
module BTreeTall {
  import opened BTreeLevels
  import opened BTreePage
  import opened BTreeShape
  import opened BTreePromote

  /** From p, k first children lead through interior pages to a leaf, outside the pages `out`. */
  ghost predicate TallOut(s: Store, p: PageNumber, k: nat, out: set<PageNumber>)
    decreases k
  {
    && p in s && p !in out
    && var n := At(s, p);
       if k == 0 then n.leaf else !n.leaf && n.cells != [] && TallOut(s, Child(n, 0), k - 1, out)
  }

  ghost predicate Tall(s: Store, p: PageNumber, k: nat) {
    TallOut(s, p, k, {})
  }

  /** Same kind, same first child. */
  predicate SameFirst(n: Node, n': Node) {
    n'.leaf == n.leaf && (n.cells != [] ==> n'.cells != [] && Child(n', 0) == Child(n, 0))
  }

  /** Outside `out`, pages keep their kind and their first child. */
  ghost predicate FirstKept(s: Store, s': Store, out: set<PageNumber>) {
    && s.Keys <= s'.Keys
    && forall p :: p in s && p !in out ==> SameFirst(At(s, p), At(s', p))
  }

  lemma {:induction false} TallKept(s: Store, s': Store, p: PageNumber, k: nat, out: set<PageNumber>)
    requires FirstKept(s, s', out) && TallOut(s, p, k, out)
    ensures TallOut(s', p, k, out)
    decreases k
  {
    assert SameFirst(At(s, p), At(s', p));
    if k > 0 {
      TallKept(s, s', Child(At(s, p), 0), k - 1, out);
    }
  }

  lemma {:induction false} TallWider(s: Store, p: PageNumber, k: nat, out: set<PageNumber>, less: set<PageNumber>)
    requires TallOut(s, p, k, out) && less <= out
    ensures TallOut(s, p, k, less)
    decreases k
  {
    if k > 0 {
      TallWider(s, Child(At(s, p), 0), k - 1, out, less);
    }
  }

  lemma UntouchedKeeps(s: Store, s': Store, out: set<PageNumber>)
    requires Untouched(s, s', out)
    ensures FirstKept(s, s', out)
  {
  }

  lemma KeptChain(s: Store, s': Store, s'': Store, a: set<PageNumber>, b: set<PageNumber>, out: set<PageNumber>)
    requires FirstKept(s, s', a) && FirstKept(s', s'', b) && a <= out && b <= out
    ensures FirstKept(s, s'', out)
  {
    forall p | p in s && p !in out ensures SameFirst(At(s, p), At(s'', p)) {
      assert SameFirst(At(s, p), At(s', p));
      assert SameFirst(At(s', p), At(s'', p));
    }
  }

  lemma RetargetKeeps(s: Store, q: PageNumber, idx: nat, r: PageNumber)
    requires q in s && 0 < idx <= |At(s, q).cells|
    ensures FirstKept(s, s[q := WithChild(At(s, q), idx, r)], {})
  {
  }

  // ---- Levels of pages of one height ----

  /** All children of page p are k - 1 high. */
  ghost predicate KidsTall(s: Store, p: PageNumber, k: nat, out: set<PageNumber>) {
    var n := At(s, p);
    if k == 0 then n.leaf
    else !n.leaf && n.cells != [] && forall j :: 0 <= j <= |n.cells| ==> TallOut(s, Child(n, j), k - 1, out)
  }

  ghost predicate LevelTall(s: Store, l: seq<Slot>, k: nat, above: set<PageNumber>) {
    forall i :: 0 <= i < |l| ==> TallAt(s, l, i, k, above)
  }

  ghost predicate TallAt(s: Store, l: seq<Slot>, i: nat, k: nat, above: set<PageNumber>)
    requires i < |l|
  {
    l[i].page in s && l[i].page !in above && KidsTall(s, l[i].page, k, above + PagesOf(l))
  }

  ghost predicate PagesTall(s: Store, l: seq<Slot>, k: nat, above: set<PageNumber>) {
    forall i :: 0 <= i < |l| ==> TallOut(s, l[i].page, k, above)
  }

  /** The children of a level of height k + 1 are the pages of the next level. */
  lemma LevelFromBelow(s: Store, pageSize: nat, root: PageNumber, d: nat, k: nat)
    requires Upper(s, pageSize, root, d + 1) && PagesTall(s, Level(s, root, d + 1), k, Above(s, root, d + 1))
    ensures LevelTall(s, Level(s, root, d), k + 1, Above(s, root, d))
  {
    hide Upper, TallOut, Expand;
    UpperFacts(s, pageSize, root, d + 1);
    UpperFacts(s, pageSize, root, d);
    var l, above, x := Level(s, root, d), Above(s, root, d), k + 1;
    forall i | 0 <= i < |l| ensures TallAt(s, l, i, x, above) {
      assert l[i].page in PagesOf(l);
      assert InnerOk(At(s, l[i].page), l[i].page, pageSize);
      var n := At(s, l[i].page);
      forall j | 0 <= j <= |n.cells| ensures TallOut(s, Child(n, j), k, above + PagesOf(l)) {
        ExpandIndex(s, l, i, j);
      }
    }
  }

  lemma LevelIsPages(s: Store, l: seq<Slot>, i: nat, k: nat, above: set<PageNumber>)
    requires i < |l| && TallAt(s, l, i, k, above)
    ensures TallOut(s, l[i].page, k, above)
  {
    if k > 0 {
      var c := Child(At(s, l[i].page), 0);
      TallWider(s, c, k - 1, above + PagesOf(l), above);
    }
  }

  /** The pages of level j are k + e - j high when those of level e are k high. */
  lemma {:induction false} TallUp(s: Store, pageSize: nat, root: PageNumber, j: nat, e: nat, k: nat, i: nat)
    requires Upper(s, pageSize, root, e) && j <= e && i < |Level(s, root, j)|
    requires forall x :: 0 <= x < |Level(s, root, e)| ==> Tall(s, Level(s, root, e)[x].page, k)
    ensures Tall(s, Level(s, root, j)[i].page, k + e - j)
    decreases e - j
  {
    hide Upper, Level, Expand, Offset;
    if j < e {
      UpperMono(s, pageSize, root, j + 1, e);
      UpperFacts(s, pageSize, root, j + 1);
      UpperFacts(s, pageSize, root, j);
      var l := Level(s, root, j);
      assert l[i].page in PagesOf(l);
      assert InnerOk(At(s, l[i].page), l[i].page, pageSize);
      ExpandIndex(s, l, i, 0);
      TallUp(s, pageSize, root, j + 1, e, k, Offset(s, l, i));
    }
  }

  // ---- Trees with a child of the wrong height ----

  ghost predicate Short(s: Store, c: PageNumber, x: nat) {
    exists k: nat :: k < x && Tall(s, c, k)
  }

  /** From p, which is x high, a way down whose last step, from a page at least k + 2 high, skips a level. */
  ghost predicate Bad(s: Store, p: PageNumber, x: nat, k: nat)
    decreases x, 0
  {
    && Tall(s, p, x) && k + 2 <= x
    && exists i :: 0 <= i <= |At(s, p).cells| && BadChild(s, Child(At(s, p), i), x - 1, k)
  }

  ghost predicate BadChild(s: Store, c: PageNumber, x: nat, k: nat)
    decreases x, 1
  {
    Short(s, c, x) || (x > 0 && Bad(s, c, x, k))
  }

  ghost predicate Broken(s: Store, root: PageNumber, k: nat) {
    exists x: nat :: Bad(s, root, x, k)
  }

  lemma {:induction false} BadLower(s: Store, p: PageNumber, x: nat, k: nat)
    requires Bad(s, p, x, k + 1)
    ensures Bad(s, p, x, k)
    decreases x
  {
    var i :| 0 <= i <= |At(s, p).cells| && BadChild(s, Child(At(s, p), i), x - 1, k + 1);
    if !Short(s, Child(At(s, p), i), x - 1) {
      BadLower(s, Child(At(s, p), i), x - 1, k);
    }
    assert BadChild(s, Child(At(s, p), i), x - 1, k);
  }

  lemma BrokenLower(s: Store, root: PageNumber, k: nat)
    requires Broken(s, root, k + 1)
    ensures Broken(s, root, k)
  {
    var x: nat :| Bad(s, root, x, k + 1);
    BadLower(s, root, x, k);
  }

  lemma ShortKept(s: Store, s': Store, c: PageNumber, x: nat)
    requires Short(s, c, x) && FirstKept(s, s', {})
    ensures Short(s', c, x)
  {
    var k: nat :| k < x && Tall(s, c, k);
    TallKept(s, s', c, k, {});
    assert Tall(s', c, k);
  }

  /** Pointing a later child at a page no higher than k leaves a bad way down: the old one, or one through the new child. */
  lemma {:induction false} BadKept(s: Store, p: PageNumber, x: nat, k: nat, q: PageNumber, idx: nat, r: PageNumber, y: nat)
    requires Bad(s, p, x, k) && q in s && 0 < idx <= |At(s, q).cells| && Tall(s, r, y) && y <= k
    ensures Bad(s[q := WithChild(At(s, q), idx, r)], p, x, k)
    decreases x
  {
    hide TallOut;
    var s' := s[q := WithChild(At(s, q), idx, r)];
    RetargetKeeps(s, q, idx, r);
    TallKept(s, s', p, x, {});
    var i :| 0 <= i <= |At(s, p).cells| && BadChild(s, Child(At(s, p), i), x - 1, k);
    var c := Child(At(s, p), i);
    if p == q && i == idx {
      TallKept(s, s', r, y, {});
      assert Tall(s', r, y);
      assert Short(s', r, x - 1);
      assert BadChild(s', Child(At(s', p), i), x - 1, k);
    } else {
      assert Child(At(s', p), i) == c;
      if Short(s, c, x - 1) {
        ShortKept(s, s', c, x - 1);
      } else {
        BadKept(s, c, x - 1, k, q, idx, r, y);
      }
      assert BadChild(s', Child(At(s', p), i), x - 1, k);
    }
  }

  lemma BrokenKept(s: Store, root: PageNumber, k: nat, q: PageNumber, idx: nat, r: PageNumber, y: nat)
    requires Broken(s, root, k) && q in s && 0 < idx <= |At(s, q).cells| && Tall(s, r, y) && y <= k
    ensures Broken(s[q := WithChild(At(s, q), idx, r)], root, k)
  {
    var x: nat :| Bad(s, root, x, k);
    BadKept(s, root, x, k, q, idx, r, y);
  }

  // ---- No tree has one ----

  lemma {:induction false} HeightInTree(s: Store, dbSize: nat, pageSize: nat, root: PageNumber, h: nat, j: nat, i: nat, x: nat)
    requires TreeOk(s, dbSize, pageSize, root, h) && j <= h && i < |Level(s, root, j)| && Tall(s, Level(s, root, j)[i].page, x)
    ensures x == h - j
    decreases h - j
  {
    hide TreeOk, Level, Offset, Expand;
    LevelKind(s, dbSize, pageSize, root, h, j, i);
    if j < h && x > 0 {
      PathIndexStep(s, root, 0, j);
      ExpandIndex(s, Level(s, root, j), i, 0);
      HeightInTree(s, dbSize, pageSize, root, h, j + 1, Offset(s, Level(s, root, j), i), x - 1);
    }
  }

  lemma LevelKind(s: Store, dbSize: nat, pageSize: nat, root: PageNumber, h: nat, d: nat, i: nat)
    requires TreeOk(s, dbSize, pageSize, root, h) && d <= h && i < |Level(s, root, d)|
    ensures At(s, Level(s, root, d)[i].page).leaf <==> d == h
  {
    hide Level;
    var l := Level(s, root, d);
    if d < h {
      UpperMono(s, pageSize, root, d + 1, h);
      UpperFacts(s, pageSize, root, d + 1);
      assert InnerOk(At(s, l[i].page), l[i].page, pageSize);
    } else {
      assert LeafOk(At(s, l[i].page), l[i].page, pageSize, l[i].lo, Hi(l, i));
    }
  }

  lemma {:induction false} NoBad(s: Store, dbSize: nat, pageSize: nat, root: PageNumber, h: nat, j: nat, i: nat, x: nat, k: nat)
    requires TreeOk(s, dbSize, pageSize, root, h) && j <= h && i < |Level(s, root, j)|
    ensures !Bad(s, Level(s, root, j)[i].page, x, k)
    decreases x
  {
    hide TreeOk, Level, Offset, Expand, TallOut;
    var p := Level(s, root, j)[i].page;
    if Bad(s, p, x, k) {
      HeightInTree(s, dbSize, pageSize, root, h, j, i, x);
      var y :| 0 <= y <= |At(s, p).cells| && BadChild(s, Child(At(s, p), y), x - 1, k);
      PathIndexStep(s, root, 0, j);
      ExpandIndex(s, Level(s, root, j), i, y);
      var z := Offset(s, Level(s, root, j), i) + y;
      NoBad(s, dbSize, pageSize, root, h, j + 1, z, x - 1, k);
      var c := Level(s, root, j + 1)[z].page;
      assert c == Child(At(s, p), y);
      var b: nat :| b < x - 1 && Tall(s, c, b);
      HeightInTree(s, dbSize, pageSize, root, h, j + 1, z, b);
    }
  }

  /** A broken store is no tree of any height. */
  lemma BrokenIsNoTree(s: Store, dbSize: nat, pageSize: nat, root: PageNumber, k: nat, h: nat)
    requires Broken(s, root, k)
    ensures !TreeOk(s, dbSize, pageSize, root, h)
  {
    hide TreeOk, Bad;
    if TreeOk(s, dbSize, pageSize, root, h) {
      var x: nat :| Bad(s, root, x, k);
      RootLevel(s, root);
      NoBad(s, dbSize, pageSize, root, h, 0, 0, x, k);
    }
  }

  lemma RootLevel(s: Store, root: PageNumber)
    ensures Level(s, root, 0) == [Slot(-1, root)]
  {
  }

  // ---- Splits ----

  /** The level of the view is k high, and so will be a page that gets the cell c. */
  ghost predicate TallReady(s: Store, pageSize: nat, v: View, q: PageNumber, c: Cell, k: nat) {
    && v.index < |v.level| && v.level[v.index].page == q
    && LevelTall(s, v.level, k, v.above)
    && (k > 0 ==> InnerOk(At(s, q), q, pageSize) && c.Divider? && TallOut(s, c.child, k - 1, v.above + PagesOf(v.level)))
  }

  /** The children of a page that got the divider c are its old ones and that of c. */
  lemma InsertedKid(n: Node, c: Cell, i: nat)
    requires AllDividers(n.cells) && c.Divider? && i <= |n.cells| + 1
    ensures
      var all := Inserted(n.cells, c);
      var kid := if i < |all| then ChildOf(all[i]) else n.rightmost;
      kid == c.child || exists j :: 0 <= j <= |n.cells| && kid == Child(n, j)
  {
    var all, j := Inserted(n.cells, c), InsertPos(n.cells, c.key);
    if i < |all| && i != j {
      assert all[i] == n.cells[if i < j then i else i - 1];
      assert ChildOf(all[i]) == Child(n, if i < j then i else i - 1);
    } else if i == |all| {
      assert n.rightmost == Child(n, |n.cells|);
    }
  }

  lemma InsertedKidTall(s: Store, pageSize: nat, v: View, q: PageNumber, c: Cell, k: nat, i: nat)
    requires TallReady(s, pageSize, v, q, c, k) && k > 0 && i <= |At(s, q).cells| + 1
    ensures
      var all := Inserted(At(s, q).cells, c);
      TallOut(s, if i < |all| then ChildOf(all[i]) else At(s, q).rightmost, k - 1, v.above + PagesOf(v.level))
  {
    hide TallOut, Inserted, SpaceOk;
    assert TallAt(s, v.level, v.index, k, v.above);
    InsertedKid(At(s, q), c, i);
  }

  /** Both halves of a split page are as high as the page was. */
  lemma HalvesTall(s: Store, s': Store, pageSize: nat, v: View, q: PageNumber, c: Cell, k: nat, lp: PageNumber, rp: PageNumber, out: set<PageNumber>)
    requires TallReady(s, pageSize, v, q, c, k) && 512 <= pageSize && !Fits(At(s, q), q, CellSize(c))
    requires Halves(At(s, q), c, s', lp, rp, pageSize) && lp in s' && rp in s'
    requires out <= v.above + PagesOf(v.level) && lp !in out && rp !in out && FirstKept(s, s', v.above + PagesOf(v.level))
    ensures TallOut(s', lp, k, out) && TallOut(s', rp, k, out)
  {
    hide Inserted, SpaceOk, InsertPos, CellSize, FirstKept;
    var n := At(s, q);
    assert TallAt(s, v.level, v.index, k, v.above);
    if k > 0 {
      InnerHalvesFit(n, q, c, pageSize);
      var all := Inserted(n.cells, c);
      var mid := |all| / 2;
      assert mid + 1 < |all|;
      KidStays(s, s', pageSize, v, q, c, k, 0, out);
      KidStays(s, s', pageSize, v, q, c, k, mid + 1, out);
      assert Child(At(s', lp), 0) == ChildOf(all[0]);
      assert Child(At(s', rp), 0) == ChildOf(all[mid + 1]);
    }
  }

  lemma KidStays(s: Store, s': Store, pageSize: nat, v: View, q: PageNumber, c: Cell, k: nat, i: nat, out: set<PageNumber>)
    requires TallReady(s, pageSize, v, q, c, k) && k > 0 && i <= |At(s, q).cells|
    requires out <= v.above + PagesOf(v.level) && FirstKept(s, s', v.above + PagesOf(v.level))
    ensures TallOut(s', ChildOf(Inserted(At(s, q).cells, c)[i]), k - 1, out)
  {
    hide TallReady, TallOut, FirstKept, Inserted;
    InsertedKidTall(s, pageSize, v, q, c, k, i);
    var kid := ChildOf(Inserted(At(s, q).cells, c)[i]);
    TallKept(s, s', kid, k - 1, v.above + PagesOf(v.level));
    TallWider(s', kid, k - 1, v.above + PagesOf(v.level), out);
  }

  /** A page split in place leaves all pages of its level, and the new one, as high as they were. */
  lemma SplitTall(s: Store, s': Store, pageSize: nat, v: View, q: PageNumber, c: Cell, k: nat, right: PageNumber)
    requires TallReady(s, pageSize, v, q, c, k) && 512 <= pageSize && !Fits(At(s, q), q, CellSize(c)) && NoDup(v.level)
    requires Halves(At(s, q), c, s', q, right, pageSize) && right in s' && right !in v.above && Untouched(s, s', {q})
    ensures PagesTall(s', v.level, k, v.above) && TallOut(s', right, k, v.above)
  {
    hide TallOut, Halves, Fits, InnerOk, KidsTall, FirstKept, Untouched, CellSize;
    var l := v.level;
    UntouchedKeeps(s, s', {q});
    assert q in PagesOf(l);
    assert TallAt(s, l, v.index, k, v.above);
    KeptMore(s, s', {q}, v.above + PagesOf(l));
    UntouchedKeys(s, s', {q});
    HalvesTall(s, s', pageSize, v, q, c, k, q, right, v.above);
    forall i | 0 <= i < |l| ensures TallOut(s', l[i].page, k, v.above) {
      if i != v.index {
        OtherTall(s, s', v, q, k, i);
      }
    }
  }

  lemma UntouchedKeys(s: Store, s': Store, out: set<PageNumber>)
    requires Untouched(s, s', out)
    ensures s.Keys <= s'.Keys
  {
  }

  lemma KeptMore(s: Store, s': Store, out: set<PageNumber>, more: set<PageNumber>)
    requires FirstKept(s, s', out) && out <= more
    ensures FirstKept(s, s', more)
  {
  }

  /** The other pages of the level are untouched, and so are the first children below them. */
  lemma OtherTall(s: Store, s': Store, v: View, q: PageNumber, k: nat, i: nat)
    requires LevelTall(s, v.level, k, v.above) && NoDup(v.level) && v.index < |v.level| && v.level[v.index].page == q
    requires i < |v.level| && i != v.index && FirstKept(s, s', v.above + {q})
    ensures TallOut(s', v.level[i].page, k, v.above)
    ensures TallOut(s', v.level[i].page, k, v.above + {q})
  {
    var l := v.level;
    var p := l[i].page;
    assert TallAt(s, l, i, k, v.above);
    assert q in PagesOf(l);
    assert p != q;
    if k > 0 {
      TallWider(s, Child(At(s, p), 0), k - 1, v.above + PagesOf(l), v.above + {q});
    }
    TallKept(s, s', p, k, v.above + {q});
    TallWider(s', p, k, v.above + {q}, v.above);
  }
}
