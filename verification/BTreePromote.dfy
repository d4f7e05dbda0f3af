/**
  The level-by-level effect of promoting a divider: what the parent gets, with or
  without a split of its own, and what the retargeted pointer makes of it.
 */
module BTreePromote {
  import opened BTreeLevels
  import opened BTreePage
  import opened BTreeShape

  /** Everything in `after` was in `before` or is newly allocated. */
  ghost predicate Fresh(before: set<PageNumber>, after: set<PageNumber>, dbSize: nat) {
    forall p :: p in after ==> p in before || p > dbSize
  }

  /** Only pages of `touched` and newly allocated ones differ. */
  ghost predicate Untouched(s: Store, s': Store, touched: set<PageNumber>) {
    && s.Keys <= s'.Keys
    && forall p :: p in s && p !in touched ==> At(s', p) == At(s, p)
  }

  /** The level at depth `depth`, where the path to `key` crosses it, and the pages above it. */
  datatype View = View(key: Key, depth: nat, level: seq<Slot>, index: nat, above: set<PageNumber>)

  ghost function ViewOf(s: Store, root: PageNumber, key: Key, d: nat): View {
    View(key, d, Level(s, root, d), PathIndex(s, root, key, d), Above(s, root, d))
  }

  ghost predicate ViewOk(s: Store, root: PageNumber, v: View) {
    v == ViewOf(s, root, v.key, v.depth)
  }

  /** The slot of the view has become two slots on pages lp and rp, divided by `m`. */
  ghost predicate SlotSplit(s: Store, s': Store, dbSize: nat, pageSize: nat, root: PageNumber, v: View,
                            m: Key, lp: PageNumber, rp: PageNumber, e': nat)
  {
    var l, i := v.level, v.index;
    && i < |l|
    && Upper(s', pageSize, root, e')
    && Level(s', root, e') == Replace(l, i, 1, [Slot(l[i].lo, lp), Slot(m, rp)])
    && Untouched(s, s', v.above + {l[i].page})
    && Fresh(v.above + {l[i].page}, Above(s', root, e'), dbSize)
    && (lp == l[i].page || lp > dbSize) && rp > dbSize
    && e' <= v.depth + 1
  }

  /** The state after the divider m for page p has been put above p, before the retargeting. */
  ghost predicate DividerIn(s: Store, s': Store, dbSize: nat, pageSize: nat, root: PageNumber, v: View,
                            m: Key, p: PageNumber, e': nat)
  {
    && v.index < |v.level|
    && Upper(s', pageSize, root, e') && AllInner(s', pageSize, Level(s', root, e'))
    && Level(s', root, e' + 1) == SplitSlot(v.level, v.index, m, p)
    && NoLo(Level(s', root, e'), m)
    && Untouched(s, s', v.above)
    && Fresh(v.above, Above(s', root, e' + 1), dbSize)
    && e' <= v.depth
  }

  /** The slot of the view is now followed by page r, with the divider m between them. */
  ghost predicate Promoted(s: Store, s': Store, dbSize: nat, pageSize: nat, root: PageNumber, v: View,
                           m: Key, r: PageNumber, d': nat)
  {
    && v.index < |v.level|
    && Upper(s', pageSize, root, d')
    && Level(s', root, d') == SplitSlot(v.level, v.index, m, r)
    && Untouched(s, s', v.above)
    && Fresh(v.above, Above(s', root, d'), dbSize)
    && d' <= v.depth + 1
  }

  // ---- The parent of the page at slot g of level d, in terms of lists only ----

  /** BelowWithDivider is a split of slot g when the divider lies in its gap. */
  lemma BelowIsSplit(s: Store, l: seq<Slot>, i: nat, key: Key, m: Key, p: PageNumber)
    requires InGap(l, i, key) && Sorted(Expand(s, l))
    requires Between(Expand(s, l), Below(s, l, i, key), m)
    requires Expand(s, l)[Below(s, l, i, key)].page == p
    ensures InsertPos(At(s, l[i].page).cells, m) == InsertPos(At(s, l[i].page).cells, key)
    ensures BelowWithDivider(s, l, i, m, p) == SplitSlot(Expand(s, l), Below(s, l, i, key), m, p)
  {
    hide Sorted, Expand, InsertPos, SplitSlot;
    SamePosition(s, l, i, key, m);
    var e, o := Expand(s, l), Below(s, l, i, key);
    assert e[o] == Slot(e[o].lo, p);
    SplitAsReplace(e, o, m, p);
  }

  lemma SplitAsReplace(e: seq<Slot>, o: nat, m: Key, p: PageNumber)
    requires o < |e| && e[o].page == p
    ensures Replace(e, o, 1, [Slot(e[o].lo, p), Slot(m, e[o].page)]) == SplitSlot(e, o, m, p)
  {
    assert [Slot(e[o].lo, p), Slot(m, e[o].page)] == [e[o], Slot(m, p)];
  }

  lemma InnerWithCell(n: Node, p: PageNumber, c: Cell, pageSize: nat)
    requires InnerOk(n, p, pageSize) && c.Divider? && Fits(n, p, CellSize(c))
    ensures InnerOk(WithCell(n, c), p, pageSize)
  {
    WithCellSpace(n, p, c, pageSize);
  }

  /** The parent had room. */
  lemma FitCore(s: Store, pageSize: nat, l: seq<Slot>, i: nat, key: Key, m: Key, p: PageNumber)
    requires NoDup(l) && AllInner(s, pageSize, l) && InGap(l, i, key) && Sorted(Expand(s, l))
    requires Between(Expand(s, l), Below(s, l, i, key), m) && Expand(s, l)[Below(s, l, i, key)].page == p
    requires Fits(At(s, l[i].page), l[i].page, CellSize(Divider(m, p)))
    ensures
      var s' := s[l[i].page := WithCell(At(s, l[i].page), Divider(m, p))];
      && Expand(s', l) == SplitSlot(Expand(s, l), Below(s, l, i, key), m, p)
      && AllInner(s', pageSize, l)
      && NoLo(l, m)
  {
    var q := l[i].page;
    assert InnerOk(At(s, q), q, pageSize);
    DividerIntoPage(s, l, i, m, p);
    BelowIsSplit(s, l, i, key, m, p);
    BetweenFresh(s, l, i, Below(s, l, i, key), m);
    InnerWithCell(At(s, q), q, Divider(m, p), pageSize);
    InnerUpdate(s, pageSize, l, i, WithCell(At(s, q), Divider(m, p)));
  }

  lemma AfterFit(s: Store, dbSize: nat, pageSize: nat, root: PageNumber, v: View, m: Key, p: PageNumber)
    requires v.depth > 0 && ViewOk(s, root, v) && Upper(s, pageSize, root, v.depth)
    requires Between(v.level, v.index, m) && v.level[v.index].page == p
    requires
      var q := PathPage(s, root, v.key, v.depth - 1);
      q in s && Fits(At(s, q), q, CellSize(Divider(m, p)))
    ensures
      var q := PathPage(s, root, v.key, v.depth - 1);
      DividerIn(s, s[q := WithCell(At(s, q), Divider(m, p))], dbSize, pageSize, root, v, m, p, v.depth - 1)
  {
    var e := v.depth - 1;
    var l := Level(s, root, e);
    PathGap(s, root, v.key, e);
    var i := PathIndex(s, root, v.key, e);
    FitCore(s, pageSize, l, i, v.key, m, p);
    var q := l[i].page;
    assert q in PagesOf(l);
    var s' := s[q := WithCell(At(s, q), Divider(m, p))];
    LevelFrame(s, s', root, e);
    UpperFrame(s, s', pageSize, root, e);
  }

  /** The parent was split. */
  lemma SplitCore(s: Store, s': Store, pageSize: nat, l: seq<Slot>, i: nat, key: Key, m: Key, p: PageNumber, lp: PageNumber, rp: PageNumber, csl: nat, csr: nat)
    requires NoDup(l) && AllInner(s, pageSize, l) && InGap(l, i, key) && Sorted(Expand(s, l))
    requires Between(Expand(s, l), Below(s, l, i, key), m) && Expand(s, l)[Below(s, l, i, key)].page == p
    requires forall j :: 0 <= j < |l| && j != i ==> At(s', l[j].page) == At(s, l[j].page)
    requires
      var n := At(s, l[i].page);
      var plan := Plan(false, Inserted(n.cells, Divider(m, p)), n.rightmost);
      && At(s', lp) == Node(false, csl, plan.left, plan.leftRightmost) && InnerOk(At(s', lp), lp, pageSize)
      && At(s', rp) == Node(false, csr, plan.right, plan.rightRightmost) && InnerOk(At(s', rp), rp, pageSize)
      && plan.divider != m
    ensures
      var n := At(s, l[i].page);
      var plan := Plan(false, Inserted(n.cells, Divider(m, p)), n.rightmost);
      var l' := Replace(l, i, 1, [Slot(l[i].lo, lp), Slot(plan.divider, rp)]);
      && Expand(s', l') == SplitSlot(Expand(s, l), Below(s, l, i, key), m, p)
      && AllInner(s', pageSize, l')
      && NoLo(l', m)
  {
    var n := At(s, l[i].page);
    var plan := Plan(false, Inserted(n.cells, Divider(m, p)), n.rightmost);
    assert InnerOk(n, l[i].page, pageSize);
    SplitBelow(s, s', l, i, m, p, rp, lp, csl, csr);
    BelowIsSplit(s, l, i, key, m, p);
    BetweenFresh(s, l, i, Below(s, l, i, key), m);
    var l' := Replace(l, i, 1, [Slot(l[i].lo, lp), Slot(plan.divider, rp)]);
    forall j | 0 <= j < |l'| ensures InnerOk(At(s', l'[j].page), l'[j].page, pageSize) && l'[j].lo != m {
      if j < i {
        assert l'[j] == l[j];
        assert InnerOk(At(s, l[j].page), l[j].page, pageSize);
      } else if j > i + 1 {
        assert l'[j] == l[j - 1];
        assert InnerOk(At(s, l[j - 1].page), l[j - 1].page, pageSize);
      }
    }
  }

  lemma AfterSplit(s: Store, s': Store, dbSize: nat, pageSize: nat, root: PageNumber, v: View, u: View, m: Key, p: PageNumber,
                   lp: PageNumber, rp: PageNumber, e': nat, csl: nat, csr: nat)
    requires v.depth > 0 && u == ViewOf(s, root, v.key, v.depth - 1)
    requires StoreOk(s, dbSize) && ViewOk(s, root, v) && Upper(s, pageSize, root, v.depth)
    requires Between(v.level, v.index, m) && v.level[v.index].page == p
    requires
      var n := At(s, PathPage(s, root, v.key, u.depth));
      var plan := Plan(false, Inserted(n.cells, Divider(m, p)), n.rightmost);
      && At(s', lp) == Node(false, csl, plan.left, plan.leftRightmost) && InnerOk(At(s', lp), lp, pageSize)
      && At(s', rp) == Node(false, csr, plan.right, plan.rightRightmost) && InnerOk(At(s', rp), rp, pageSize)
      && plan.divider != m
      && SlotSplit(s, s', dbSize, pageSize, root, u, plan.divider, lp, rp, e')
    ensures DividerIn(s, s', dbSize, pageSize, root, v, m, p, e')
  {
    hide Level, Upper, Above, PathIndex, Expand, NoDup, Sorted, AllInner, SplitSlot, NoLo, InnerOk, Inserted, Below;
    UpperFacts(s, pageSize, root, v.depth);
    UpperFacts(s, pageSize, root, u.depth);
    PathIndexStep(s, root, v.key, u.depth);
    PathIndexStep(s', root, v.key, e');
    PathGap(s, root, v.key, u.depth);
    var n := At(s, PathPage(s, root, v.key, u.depth));
    SplitOthers(s, s', u.level, u.index, u.above);
    SplitCore(s, s', pageSize, u.level, u.index, v.key, m, p, lp, rp, csl, csr);
    SplitFresh(u.level, Level(s', root, e'), dbSize, u.index, Plan(false, Inserted(n.cells, Divider(m, p)), n.rightmost).divider, lp, rp);
    assert u.level[u.index].page in PagesOf(u.level);
  }

  lemma SplitOthers(s: Store, s': Store, l: seq<Slot>, i: nat, above: set<PageNumber>)
    requires NoDup(l) && PagesOf(l) !! above && PagesOf(l) <= s.Keys && i < |l|
    requires Untouched(s, s', above + {l[i].page})
    ensures forall j :: 0 <= j < |l| && j != i ==> At(s', l[j].page) == At(s, l[j].page)
  {
    forall j | 0 <= j < |l| && j != i ensures At(s', l[j].page) == At(s, l[j].page) {
      assert l[j].page in PagesOf(l);
    }
  }

  lemma SplitFresh(l: seq<Slot>, l': seq<Slot>, dbSize: nat, i: nat, m: Key, lp: PageNumber, rp: PageNumber)
    requires i < |l| && l' == Replace(l, i, 1, [Slot(l[i].lo, lp), Slot(m, rp)])
    requires (lp == l[i].page || lp > dbSize) && rp > dbSize
    ensures Fresh(PagesOf(l), PagesOf(l'), dbSize)
  {
    forall p | p in PagesOf(l') ensures p in PagesOf(l) || p > dbSize {
      var j :| 0 <= j < |l'| && l'[j].page == p;
      if j <= i {
        assert l[j].page in PagesOf(l);
      } else if j > i + 1 {
        assert l'[j] == l[j - 1];
        assert l[j - 1].page in PagesOf(l);
      }
    }
  }

  // ---- Retargeting ----

  lemma InnerUpdate(s: Store, pageSize: nat, l: seq<Slot>, i: nat, n: Node)
    requires AllInner(s, pageSize, l) && i < |l| && InnerOk(n, l[i].page, pageSize)
    ensures AllInner(s[l[i].page := n], pageSize, l)
  {
    var s' := s[l[i].page := n];
    forall j | 0 <= j < |l| ensures InnerOk(At(s', l[j].page), l[j].page, pageSize) {
      assert InnerOk(At(s, l[j].page), l[j].page, pageSize);
    }
  }

  /** Pointing the child after the divider m at r turns the doubled slot (p, p) into (p, r). */
  lemma RetargetLevel(s: Store, l: seq<Slot>, i: nat, idx: nat, m: Key, l0: seq<Slot>, g: nat, p: PageNumber, r: PageNumber)
    requires i < |l| && NoDup(l) && AllDividers(At(s, l[i].page).cells) && idx <= |At(s, l[i].page).cells|
    requires g < |l0| && Expand(s, l) == SplitSlot(l0, g, m, p) && Offset(s, l, i) + idx == g + 1
    ensures Expand(s[l[i].page := WithChild(At(s, l[i].page), idx, r)], l) == SplitSlot(l0, g, m, r)
  {
    Retarget(s, l, i, idx, r);
    SplitSlotIndex(l0, g, m, p, g + 1);
    DoubledSlot(l0, g, m, p, r);
  }

  lemma RetargetCore(s: Store, pageSize: nat, l: seq<Slot>, i: nat, m: Key, l0: seq<Slot>, g: nat, p: PageNumber, r: PageNumber)
    requires NoDup(l) && AllInner(s, pageSize, l) && InGap(l, i, m) && Sorted(Expand(s, l)) && NoLo(l, m)
    requires g < |l0| && Expand(s, l) == SplitSlot(l0, g, m, p)
    ensures HasOwn(At(s, l[i].page), m)
    ensures
      var n := At(s, l[i].page);
      var s' := s[l[i].page := WithChild(n, InsertPos(n.cells, m) + 1, r)];
      AllInner(s', pageSize, l) && Expand(s', l) == SplitSlot(l0, g, m, r)
  {
    var q := l[i].page;
    var n := At(s, q);
    var idx := InsertPos(n.cells, m) + 1;
    SplitSlotIndex(l0, g, m, p, g + 1);
    FoundAtBottom(s, l, i, m, g + 1);
    assert InnerOk(n, q, pageSize);
    RetargetLevel(s, l, i, idx, m, l0, g, p, r);
    WithChildSize(n, idx, r, q, pageSize);
    InnerUpdate(s, pageSize, l, i, WithChild(n, idx, r));
  }

  lemma DoubledSlot(l0: seq<Slot>, g: nat, m: Key, p: PageNumber, r: PageNumber)
    requires g < |l0|
    ensures Replace(SplitSlot(l0, g, m, p), g + 1, 1, [Slot(m, r)]) == SplitSlot(l0, g, m, r)
  {
  }

  /** The key is one of the page's own. */
  ghost predicate HasOwn(n: Node, key: Key) {
    InsertPos(n.cells, key) < |n.cells| && n.cells[InsertPos(n.cells, key)].key == key
  }

  lemma FoundAtBottom(s: Store, l: seq<Slot>, i: nat, m: Key, g: nat)
    requires InGap(l, i, m) && Sorted(Expand(s, l))
    requires 0 < g < |Expand(s, l)| && Expand(s, l)[g].lo == m
    requires NoLo(l, m)
    ensures HasOwn(At(s, l[i].page), m)
    ensures Offset(s, l, i) + InsertPos(At(s, l[i].page).cells, m) + 1 == g
  {
    var n := At(s, l[i].page);
    var lo := InsertPos(n.cells, m);
    var e := Expand(s, l);
    BelowGap(s, l, i, m);
    assert InGap(e, g - 1, m) by {
      assert e[g - 1].lo < e[g].lo;
    }
    GapUnique(e, Below(s, l, i, m), g - 1, m);
    BlockEnd(s, l, i);
    if lo < |n.cells| {
      ExpandIndex(s, l, i, lo + 1);
    } else {
      assert false;
    }
  }

  lemma AfterRetarget(s0: Store, s: Store, dbSize: nat, pageSize: nat, root: PageNumber, v: View, m: Key, p: PageNumber, r: PageNumber, e: nat)
    requires StoreOk(s0, dbSize) && ViewOk(s0, root, v) && Upper(s0, pageSize, root, v.depth)
    requires DividerIn(s0, s, dbSize, pageSize, root, v, m, p, e)
    requires Between(v.level, v.index, m) && v.level[v.index].page == p
    requires r in s0 && r !in v.above && r !in PagesOf(v.level)
    ensures
      var q := PathPage(s, root, m, e);
      var n := At(s, q);
      && HasOwn(n, m)
      && Promoted(s0, s[q := WithChild(n, InsertPos(n.cells, m) + 1, r)], dbSize, pageSize, root, v, m, r, e + 1)
  {
    hide Level, Upper, Above, PathIndex, Expand, NoDup, Sorted, PagesOf, AllInner, SplitSlot, NoLo, HasOwn, InsertPos, WithChild;
    UpperFacts(s0, pageSize, root, v.depth);
    UpperFacts(s, pageSize, root, e);
    PathGap(s, root, m, e);
    SplitSlotSorted(v.level, v.index, m, p);
    RetargetCore(s, pageSize, Level(s, root, e), PathIndex(s, root, m, e), m, v.level, v.index, p, r);
    SplitSlotSorted(v.level, v.index, m, r);
    SplitSlotPages(v.level, v.index, m, r);
    var q := PathPage(s, root, m, e);
    InLevel(s, root, m, e);
    ReplacedPage(s, q, WithChild(At(s, q), InsertPos(At(s, q).cells, m) + 1, r), pageSize, root, e);
  }

  /** Rewriting an interior page of level e so that the level below stays a level extends the upper part. */
  lemma ReplacedPage(s: Store, q: PageNumber, n: Node, pageSize: nat, root: PageNumber, e: nat)
    requires Upper(s, pageSize, root, e) && q in PagesOf(Level(s, root, e))
    requires
      var s' := s[q := n];
      var below := Expand(s', Level(s, root, e));
      && AllInner(s', pageSize, Level(s, root, e))
      && NoDup(below) && Sorted(below) && PagesOf(below) <= s.Keys && PagesOf(below) !! Above(s, root, e + 1)
    ensures
      var s' := s[q := n];
      && Upper(s', pageSize, root, e + 1)
      && Level(s', root, e + 1) == Expand(s', Level(s, root, e))
      && Above(s', root, e + 1) == Above(s, root, e + 1)
  {
    var s' := s[q := n];
    LevelFrame(s, s', root, e);
    UpperFrame(s, s', pageSize, root, e);
    UpperExtend(s', pageSize, root, e);
  }

  // ---- Root split ----

  /** The root has become an interior page over lp and rp. */
  lemma RootSplit(s: Store, s': Store, dbSize: nat, pageSize: nat, root: PageNumber, v: View, m: Key, lp: PageNumber, rp: PageNumber)
    requires v.depth == 0 && ViewOk(s, root, v)
    requires StoreOk(s, dbSize) && root in s && lp > dbSize && rp > dbSize && lp != rp
    requires s'.Keys == s.Keys + {lp, rp} && forall p :: p in s && p != root ==> At(s', p) == At(s, p)
    requires At(s', root).cells == [Divider(m, lp)] && At(s', root).rightmost == rp && InnerOk(At(s', root), root, pageSize)
    ensures SlotSplit(s, s', dbSize, pageSize, root, v, m, lp, rp, 1)
  {
    var l := Level(s', root, 0);
    ExpandOne(s', l[0]);
    assert Level(s', root, 1) == [Slot(-1, lp), Slot(m, rp)];
    assert Above(s', root, 1) == {root} by {
      assert l[0].page in PagesOf(l);
    }
    assert PagesOf(Level(s', root, 1)) == {lp, rp} by {
      assert Level(s', root, 1)[0].page == lp && Level(s', root, 1)[1].page == rp;
    }
  }

  // ---- Glue between the methods ----

  /**
    The splits that inserting `c` into the last page of `path` sets off keep the
    tree in shape: a leaf split shares out at least four rows, and no interior
    split promotes the divider that is just being inserted.
   */
  predicate Safe(s: Store, path: seq<PageNumber>, c: Cell) {
    path == [] ||
    var p := path[|path| - 1];
    var n := At(s, p);
    Fits(n, p, CellSize(c)) ||
    var all := Inserted(n.cells, c);
    var divider := Plan(n.leaf, all, n.rightmost).divider;
    && (if n.leaf then |all| >= 4 else divider != c.key)
    && Safe(s, path[..|path| - 1], Divider(divider, p))
  }

  /** The pages from the root down to depth d on the way to `key`. */
  ghost function PathPages(s: Store, root: PageNumber, key: Key, d: nat): (r: seq<PageNumber>)
    ensures |r| == d + 1
  {
    seq(d + 1, e requires 0 <= e <= d => PathPage(s, root, key, e))
  }

  lemma {:induction false} SafeFrame(s: Store, s': Store, path: seq<PageNumber>, c: Cell)
    requires forall i :: 0 <= i < |path| ==> At(s', path[i]) == At(s, path[i])
    ensures Safe(s, path, c) <==> Safe(s', path, c)
    decreases |path|
  {
    hide Plan, Inserted, Fits;
    if path != [] {
      var p := path[|path| - 1];
      var n := At(s, p);
      assert At(s', p) == n;
      if !Fits(n, p, CellSize(c)) {
        SafeFrame(s, s', path[..|path| - 1], Divider(Plan(n.leaf, Inserted(n.cells, c), n.rightmost).divider, p));
      }
    }
  }

  /** Promoting the divider m out of the page of the view is safe. */
  ghost predicate SafeUp(s: Store, root: PageNumber, v: View, m: Key) {
    v.depth == 0 || Safe(s, PathPages(s, root, v.key, v.depth - 1), Divider(m, PathPage(s, root, v.key, v.depth)))
  }

  /** One step of the safety of a promotion. */
  lemma SafeStep(s: Store, root: PageNumber, v: View, m: Key)
    requires v.depth > 0
    ensures
      var q := PathPage(s, root, v.key, v.depth - 1);
      var c := Divider(m, PathPage(s, root, v.key, v.depth));
      var u := ViewOf(s, root, v.key, v.depth - 1);
      SafeUp(s, root, v, m) <==>
        (Fits(At(s, q), q, CellSize(c))
         || ((if At(s, q).leaf then |At(s, q).cells| >= 3 else PlanFor(At(s, q), c).divider != m)
             && SafeUp(s, root, u, PlanFor(At(s, q), c).divider)))
  {
    hide Plan, Inserted, Fits, Level, PathPage, PathIndex;
    var path := PathPages(s, root, v.key, v.depth - 1);
    if v.depth > 1 {
      PathPrefix(s, root, v.key, v.depth - 1);
    } else {
      assert path[..0] == [] && path[0] == PathPage(s, root, v.key, 0);
      assert Safe(s, path[..0], Divider(PlanFor(At(s, path[0]), Divider(m, PathPage(s, root, v.key, 1))).divider, path[0]));
    }
  }

  function PlanFor(n: Node, c: Cell): SplitPlan {
    Plan(n.leaf, Inserted(n.cells, c), n.rightmost)
  }

  ghost predicate Splittable(n: Node, c: Cell) {
    SortedCells(Inserted(n.cells, c))
  }

  /** What splitting the page q of the view for the cell `c` takes for granted. */
  ghost predicate CanSplit(s: Store, dbSize: nat, pageSize: nat, root: PageNumber, stackPages: seq<PageNumber>,
                           v: View, q: PageNumber, c: Cell)
  {
    && 512 <= pageSize && StoreOk(s, dbSize) && Upper(s, pageSize, root, v.depth) && ViewOk(s, root, v)
    && q == PathPage(s, root, v.key, v.depth) && q in s && stackPages == PathPages(s, root, v.key, v.depth)
    && Splittable(s[q], c) && (!s[q].leaf ==> c.Divider?)
    && !Fits(s[q], q, CellSize(c))
    && Between(v.level, v.index, PlanFor(s[q], c).divider)
  }

  /** What promoting `m` as the divider after the page p of the view takes for granted. */
  ghost predicate CanPromote(s: Store, dbSize: nat, pageSize: nat, root: PageNumber, stackPages: seq<PageNumber>,
                             v: View, p: PageNumber, m: Key)
  {
    && 512 <= pageSize && v.depth > 0 && StoreOk(s, dbSize) && Upper(s, pageSize, root, v.depth) && ViewOk(s, root, v)
    && Between(v.level, v.index, m) && v.level[v.index].page == p
    && p == PathPage(s, root, v.key, v.depth) && stackPages == PathPages(s, root, v.key, v.depth)
  }

  ghost predicate Halves(n: Node, c: Cell, s: Store, lp: PageNumber, rp: PageNumber, pageSize: nat) {
    && HalfWritten(n, s, lp, pageSize, PlanFor(n, c).left, PlanFor(n, c).leftRightmost)
    && HalfWritten(n, s, rp, pageSize, PlanFor(n, c).right, PlanFor(n, c).rightRightmost)
  }

  ghost predicate HalfFits(n: Node, p: PageNumber, pageSize: nat, cells: seq<Cell>) {
    HeaderOffset(p) + HeaderSize(n.leaf) + 2 * |cells| + TotalSize(cells) <= pageSize
  }

  /** Both halves of a split fit: the left one goes to page p, the right one to a page other than the first. */
  ghost predicate HalvesFit(n: Node, c: Cell, pageSize: nat, p: PageNumber) {
    HalfFits(n, p, pageSize, PlanFor(n, c).left) && HalfFits(n, 2, pageSize, PlanFor(n, c).right)
  }

  /** A leaf takes the row if it has room or can be split. */
  ghost predicate Accepts(n: Node, p: PageNumber, c: Cell, pageSize: nat, root: PageNumber) {
    Fits(n, p, CellSize(c)) || HalvesFit(n, c, pageSize, if p == root then 2 else p)
  }

  /** A page with a single divider. */
  lemma OneDivider(d: Cell, rightmost: PageNumber, p: PageNumber, pageSize: nat)
    requires d.Divider? && 512 <= pageSize
    ensures CellSize(d) <= pageSize && InnerOk(Node(false, pageSize - CellSize(d), [d], rightmost), p, pageSize)
  {
    assert [d][1..] == [];
  }

  lemma HalvesFitWhenInner(n: Node, q: PageNumber, c: Cell, dbSize: nat, pageSize: nat)
    requires 512 <= pageSize && 1 <= q <= dbSize && !Fits(n, q, CellSize(c)) && (!n.leaf ==> c.Divider?)
    ensures InnerOk(n, q, pageSize) ==> HalvesFit(n, c, pageSize, q) && HalvesFit(n, c, pageSize, 2)
  {
    if InnerOk(n, q, pageSize) {
      InnerHalvesFit(n, q, c, pageSize);
    }
  }

  /** Page p holds one half of what was split. */
  ghost predicate HalfWritten(n: Node, s: Store, p: PageNumber, pageSize: nat, cells: seq<Cell>, rightmost: PageNumber) {
    && TotalSize(cells) <= pageSize
    && At(s, p) == Node(n.leaf, pageSize - TotalSize(cells), cells, rightmost)
    && (cells != [] ==> SpaceOk(At(s, p), p, pageSize))
  }

  lemma InLevel(s: Store, root: PageNumber, key: Key, d: nat)
    ensures PathPage(s, root, key, d) in PagesOf(Level(s, root, d))
  {
    PathGap(s, root, key, d);
    assert Level(s, root, d)[PathIndex(s, root, key, d)].page in PagesOf(Level(s, root, d));
  }


  lemma PlanSorted(all: seq<Cell>, leaf: bool, rightmost: PageNumber)
    requires all != [] && SortedCells(all)
    ensures SortedCells(Plan(leaf, all, rightmost).left) && SortedCells(Plan(leaf, all, rightmost).right)
  {
  }

  lemma PathPrefix(s: Store, root: PageNumber, key: Key, d: nat)
    requires d > 0
    ensures PathPages(s, root, key, d)[..d] == PathPages(s, root, key, d - 1)
  {
  }

  /** Only the root is at depth 0 of a path. */
  lemma RootIsDepthZero(s: Store, pageSize: nat, root: PageNumber, key: Key, e: nat)
    requires Upper(s, pageSize, root, e) && PathPage(s, root, key, e) == root
    ensures e == 0
  {
    if e > 0 {
      PathDistinct(s, pageSize, root, key, 0, e);
    }
  }

  lemma ParentFacts(s: Store, pageSize: nat, root: PageNumber, key: Key, d: nat)
    requires d > 0 && Upper(s, pageSize, root, d)
    ensures
      var q := PathPage(s, root, key, d - 1);
      q in s && q != PathPage(s, root, key, d) && InnerOk(At(s, q), q, pageSize) && Upper(s, pageSize, root, d - 1)
    ensures PathPages(s, root, key, d)[..d] == PathPages(s, root, key, d - 1)
  {
    hide Level, PathIndex, Expand;
    PathPrefix(s, root, key, d);
    PathDistinct(s, pageSize, root, key, d - 1, d);
    PathGap(s, root, key, d - 1);
    var l := Level(s, root, d - 1);
    assert l[PathIndex(s, root, key, d - 1)].page in PagesOf(l);
  }

  /** A full parent may be split: its cells stay sorted and the promoted key lies in its gap. */
  lemma SplitReadyCore(s: Store, pageSize: nat, l: seq<Slot>, i: nat, key: Key, m: Key, p: PageNumber)
    requires AllInner(s, pageSize, l) && InGap(l, i, key) && Sorted(Expand(s, l))
    requires Between(Expand(s, l), Below(s, l, i, key), m)
    ensures
      var n := At(s, l[i].page);
      Splittable(n, Divider(m, p)) && Between(l, i, PlanFor(n, Divider(m, p)).divider)
  {
    hide Expand, SpaceOk, Inserted, InsertPos;
    var n := At(s, l[i].page);
    var c := Divider(m, p);
    assert InnerOk(n, l[i].page, pageSize);
    BetweenFresh(s, l, i, Below(s, l, i, key), m);
    KidsSortedCells(s, l, i);
    InsertedSorted(n.cells, c);
    SamePosition(s, l, i, key, m);
    InsertedBetween(s, l, i, c, |Inserted(n.cells, c)| / 2);
  }

  lemma SplitReady(s: Store, dbSize: nat, pageSize: nat, root: PageNumber, v: View, m: Key, p: PageNumber)
    requires CanPromote(s, dbSize, pageSize, root, PathPages(s, root, v.key, v.depth), v, p, m)
    requires
      var q := PathPage(s, root, v.key, v.depth - 1);
      !Fits(At(s, q), q, CellSize(Divider(m, p)))
    ensures
      var q := PathPage(s, root, v.key, v.depth - 1);
      CanSplit(s, dbSize, pageSize, root, PathPages(s, root, v.key, v.depth - 1), ViewOf(s, root, v.key, v.depth - 1), q, Divider(m, p))
  {
    var d := v.depth;
    ParentFacts(s, pageSize, root, v.key, d);
    PathGap(s, root, v.key, d - 1);
    SplitReadyCore(s, pageSize, Level(s, root, d - 1), PathIndex(s, root, v.key, d - 1), v.key, m, p);
  }

  lemma HalvesInner(n: Node, q: PageNumber, c: Cell, s: Store, lp: PageNumber, rp: PageNumber, pageSize: nat)
    requires InnerOk(n, q, pageSize) && c.Divider? && 512 <= pageSize && !Fits(n, q, CellSize(c))
    requires Halves(n, c, s, lp, rp, pageSize)
    ensures InnerOk(At(s, lp), lp, pageSize) && InnerOk(At(s, rp), rp, pageSize)
  {
    InnerHalvesFit(n, q, c, pageSize);
    var all := Inserted(n.cells, c);
    assert AllDividers(all);
    assert AllDividers(all[..|all| / 2]) && AllDividers(all[|all| / 2 + 1..]);
  }

  lemma ParentSplit(s: Store, s': Store, dbSize: nat, pageSize: nat, root: PageNumber, v: View, m: Key, p: PageNumber,
                    lp: PageNumber, rp: PageNumber, e': nat)
    requires CanPromote(s, dbSize, pageSize, root, PathPages(s, root, v.key, v.depth), v, p, m)
    requires
      var q := PathPage(s, root, v.key, v.depth - 1);
      var n := At(s, q);
      var plan := PlanFor(n, Divider(m, p));
      && !Fits(n, q, CellSize(Divider(m, p))) && plan.divider != m
      && Halves(n, Divider(m, p), s', lp, rp, pageSize)
      && SlotSplit(s, s', dbSize, pageSize, root, ViewOf(s, root, v.key, v.depth - 1), plan.divider, lp, rp, e')
    ensures DividerIn(s, s', dbSize, pageSize, root, v, m, p, e')
  {
    hide Level, Upper, Above, PathIndex, PathPage, Inserted, Between, InnerOk, Fits, PathPages, SlotSplit, DividerIn, StoreOk, Plan, Halves, PlanFor;
    ParentFacts(s, pageSize, root, v.key, v.depth);
    var q := PathPage(s, root, v.key, v.depth - 1);
    var n := At(s, q);
    var plan := PlanFor(n, Divider(m, p));
    HalvesAre(n, q, Divider(m, p), s', lp, rp, pageSize);
    AfterSplit(s, s', dbSize, pageSize, root, v, ViewOf(s, root, v.key, v.depth - 1), m, p, lp, rp, e',
               pageSize - TotalSize(plan.left), pageSize - TotalSize(plan.right));
  }

  lemma HalvesAre(n: Node, q: PageNumber, c: Cell, s: Store, lp: PageNumber, rp: PageNumber, pageSize: nat)
    requires InnerOk(n, q, pageSize) && c.Divider? && 512 <= pageSize && !Fits(n, q, CellSize(c))
    requires Halves(n, c, s, lp, rp, pageSize)
    ensures PlanFor(n, c) == Plan(false, Inserted(n.cells, c), n.rightmost)
    ensures
      var plan := PlanFor(n, c);
      && TotalSize(plan.left) <= pageSize && TotalSize(plan.right) <= pageSize
      && At(s, lp) == Node(false, pageSize - TotalSize(plan.left), plan.left, plan.leftRightmost) && InnerOk(At(s, lp), lp, pageSize)
      && At(s, rp) == Node(false, pageSize - TotalSize(plan.right), plan.right, plan.rightRightmost) && InnerOk(At(s, rp), rp, pageSize)
  {
    hide Inserted, Plan, SpaceOk, TotalSize;
    HalvesInner(n, q, c, s, lp, rp, pageSize);
  }

  /** Writing the halves of page q to q and a new page leaves the levels, the path and its safety alone. */
  lemma HalvesInPlace(s0: Store, s1: Store, dbSize: nat, pageSize: nat, root: PageNumber, v: View, right: PageNumber, m: Key, c: Cell)
    requires v.depth > 0 && right == dbSize + 1
    requires
      var q := PathPage(s0, root, v.key, v.depth);
      && CanSplit(s0, dbSize, pageSize, root, PathPages(s0, root, v.key, v.depth), v, q, c)
      && m == PlanFor(s0[q], c).divider
      && s1.Keys == s0.Keys + {right} && Untouched(s0, s1, {q})
    ensures CanPromote(s1, dbSize + 1, pageSize, root, PathPages(s0, root, v.key, v.depth), v, PathPage(s0, root, v.key, v.depth), m)
    ensures SafeUp(s1, root, v, m) <==> SafeUp(s0, root, v, m)
    ensures right !in v.above && right !in PagesOf(v.level)
  {
    hide Level, Upper, Above, PathIndex, PathPage, PagesOf, Inserted, Plan, Splittable, Fits;
    var key, e := v.key, v.depth;
    var q := PathPage(s0, root, key, e);
    UpperFacts(s0, pageSize, root, e);
    PathGap(s0, root, key, e);
    InLevel(s0, root, key, e);
    AboveStored(s0, pageSize, root, e);
    UpperFrame(s0, s1, pageSize, root, e);
    LevelFrame(s0, s1, root, e);
    PathsFrame(s0, s1, pageSize, root, key, e);
    PathPrefix(s0, root, key, e);
    PathPrefix(s1, root, key, e);
    var path := PathPages(s0, root, key, e - 1);
    forall t | 0 <= t < |path| ensures At(s1, path[t]) == At(s0, path[t]) {
      PathAbove(s0, root, key, t, e);
    }
    assert PathPages(s0, root, key, e)[e] == q;
    SafeFrame(s0, s1, path, Divider(m, q));
  }

  lemma {:induction false} AboveStored(s: Store, pageSize: nat, root: PageNumber, d: nat)
    requires Upper(s, pageSize, root, d)
    ensures Above(s, root, d) <= s.Keys
  {
    if d > 0 {
      AboveStored(s, pageSize, root, d - 1);
    }
  }

  lemma PathsFrame(s: Store, s': Store, pageSize: nat, root: PageNumber, key: Key, d: nat)
    requires Upper(s, pageSize, root, d)
    requires forall p :: p in Above(s, root, d) ==> At(s', p) == At(s, p)
    ensures PathPages(s', root, key, d) == PathPages(s, root, key, d)
    ensures PathIndex(s', root, key, d) == PathIndex(s, root, key, d) && PathPage(s', root, key, d) == PathPage(s, root, key, d)
  {
    forall t | 0 <= t <= d
      ensures PathPage(s', root, key, t) == PathPage(s, root, key, t) && PathIndex(s', root, key, t) == PathIndex(s, root, key, t)
    {
      UpperMono(s, pageSize, root, t, d);
      PathFrame(s, s', root, key, t);
    }
  }

  /** The promotion of the divider completes the split of a page other than the root. */
  lemma SplitPromoted(s0: Store, s1: Store, s2: Store, dbSize: nat, pageSize: nat, root: PageNumber, v: View, right: PageNumber, m: Key, e': nat)
    requires StoreOk(s0, dbSize) && Upper(s0, pageSize, root, v.depth) && ViewOk(s0, root, v) && right == dbSize + 1
    requires s1.Keys == s0.Keys + {right} && Untouched(s0, s1, {PathPage(s0, root, v.key, v.depth)})
    requires Promoted(s1, s2, dbSize + 1, pageSize, root, v, m, right, e')
    ensures SlotSplit(s0, s2, dbSize, pageSize, root, v, m, PathPage(s0, root, v.key, v.depth), right, e')
    ensures
      var q := PathPage(s0, root, v.key, v.depth);
      At(s2, q) == At(s1, q) && At(s2, right) == At(s1, right)
  {
    PathGap(s0, root, v.key, v.depth);
    InLevel(s0, root, v.key, v.depth);
    AboveStored(s0, pageSize, root, v.depth);
    assert v.level[v.index] == Slot(v.level[v.index].lo, PathPage(s0, root, v.key, v.depth));
  }
}
