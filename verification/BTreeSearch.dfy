/** The search for a divider from the root, and what follows when it stops too early. */
module BTreeSearch {
  import opened BTreeLevels
  import opened BTreePage
  import opened BTreeShape
  import opened BTreePromote
  import opened BTreeTall

  /** Each page of the path is the child of the one before it that binary search selects. */
  ghost predicate Descent(s: Store, path: seq<PageNumber>, key: Key) {
    && path != []
    && (forall t :: 0 <= t < |path| ==> path[t] in s && SortedCells(At(s, path[t]).cells))
    && (forall t :: 0 < t < |path| ==>
          path[t] == Child(At(s, path[t - 1]), InsertPos(At(s, path[t - 1]).cells, key)))
  }

  /** The search for m passes the interior pages of the path and stops at the last one, at its own cell. */
  ghost predicate Finds(s: Store, root: PageNumber, path: seq<PageNumber>, m: Key) {
    && Descent(s, path, m) && path[0] == root
    && forall t :: 0 <= t < |path| ==> !At(s, path[t]).leaf && (HasOwn(At(s, path[t]), m) <==> t == |path| - 1)
  }

  lemma PathStart(s: Store, root: PageNumber, key: Key)
    ensures PathPage(s, root, key, 0) == root
  {
  }

  /** In a tree of height h the path to a key descends through h interior pages to a leaf. */
  lemma PathDescends(s: Store, dbSize: nat, pageSize: nat, root: PageNumber, key: Key, h: nat)
    requires TreeOk(s, dbSize, pageSize, root, h)
    ensures
      var path := PathPages(s, root, key, h);
      && Descent(s, path, key) && path[0] == root && path[h] == PathPage(s, root, key, h)
      && forall t :: 0 <= t < |path| ==> (At(s, path[t]).leaf <==> t == h)
  {
    PathStart(s, root, key);
    hide Level, Upper, PathIndex, PathPage, TreeOk;
    var path := PathPages(s, root, key, h);
    forall t | 0 <= t <= h
      ensures path[t] in s && SortedCells(At(s, path[t]).cells) && (At(s, path[t]).leaf <==> t == h)
    {
      PathPageKind(s, dbSize, pageSize, root, key, t, h);
    }
    forall t | 0 < t <= h ensures path[t] == Child(At(s, path[t - 1]), InsertPos(At(s, path[t - 1]).cells, key)) {
      PathChild(s, root, key, t - 1);
    }
  }

  /** The path to a divider of level e + 1 that is none of level e ends in the page that holds it. */
  lemma DividerDescent(s: Store, pageSize: nat, root: PageNumber, m: Key, e: nat, g: nat)
    requires Upper(s, pageSize, root, e) && AllInner(s, pageSize, Level(s, root, e))
    requires Sorted(Level(s, root, e + 1)) && NoLo(Level(s, root, e), m)
    requires 0 < g < |Level(s, root, e + 1)| && Level(s, root, e + 1)[g].lo == m
    ensures Finds(s, root, PathPages(s, root, m, e), m)
  {
    PathStart(s, root, m);
    hide Level, Sorted, NoLo, Upper, PathPage, PathIndex, SortedCells, HasOwn, Expand, Offset, AllInner;
    var path := PathPages(s, root, m, e);
    forall t | 0 <= t <= e
      ensures path[t] in s && !At(s, path[t]).leaf && SortedCells(At(s, path[t]).cells) && (HasOwn(At(s, path[t]), m) <==> t == e)
    {
      DividerDescentAt(s, pageSize, root, m, t, e, g);
    }
    forall t | 0 < t <= e ensures path[t] == Child(At(s, path[t - 1]), InsertPos(At(s, path[t - 1]).cells, m)) {
      PathChild(s, root, m, t - 1);
    }
  }

  lemma DividerDescentAt(s: Store, pageSize: nat, root: PageNumber, m: Key, t: nat, e: nat, g: nat)
    requires t <= e && Upper(s, pageSize, root, e) && AllInner(s, pageSize, Level(s, root, e))
    requires Sorted(Level(s, root, e + 1)) && NoLo(Level(s, root, e), m)
    requires 0 < g < |Level(s, root, e + 1)| && Level(s, root, e + 1)[g].lo == m
    ensures
      var p := PathPage(s, root, m, t);
      p in s && !At(s, p).leaf && SortedCells(At(s, p).cells) && (HasOwn(At(s, p), m) <==> t == e)
  {
    hide Level, Sorted, NoLo, Upper, PathPage, PathIndex, SortedCells, Expand, Offset, AllInner;
    UpperMono(s, pageSize, root, t, e);
    InLevel(s, root, m, t);
    PathGap(s, root, m, t);
    if t < e {
      UpperMono(s, pageSize, root, t + 1, e);
      UpperFacts(s, pageSize, root, t + 1);
    }
    InnerPage(s, pageSize, Level(s, root, t), PathIndex(s, root, m, t));
    if t < e {
      NotFoundAbove(s, root, m, t, e);
    } else {
      FoundHere(s, root, m, e, g);
    }
  }

  lemma InnerPage(s: Store, pageSize: nat, l: seq<Slot>, i: nat)
    requires AllInner(s, pageSize, l) && i < |l|
    ensures !At(s, l[i].page).leaf
  {
    assert InnerOk(At(s, l[i].page), l[i].page, pageSize);
  }

  /** After the divider has been put above, the search for it succeeds. */
  lemma DividerFound(s0: Store, s: Store, dbSize: nat, pageSize: nat, root: PageNumber, v: View, m: Key, p: PageNumber, e: nat)
    requires Sorted(v.level) && Between(v.level, v.index, m)
    requires DividerIn(s0, s, dbSize, pageSize, root, v, m, p, e)
    ensures Finds(s, root, PathPages(s, root, m, e), m)
  {
    SplitSlotSorted(v.level, v.index, m, p);
    SplitSlotIndex(v.level, v.index, m, p, v.index + 1);
    DividerDescent(s, pageSize, root, m, e, v.index + 1);
  }

  /** On the path, exactly the page at depth h is a leaf, and its cells are sorted. */
  lemma PathPageKind(s: Store, dbSize: nat, pageSize: nat, root: PageNumber, key: Key, d: nat, h: nat)
    requires TreeOk(s, dbSize, pageSize, root, h) && d <= h
    ensures PathPage(s, root, key, d) in s
    ensures At(s, PathPage(s, root, key, d)).leaf <==> d == h
    ensures SortedCells(At(s, PathPage(s, root, key, d)).cells)
  {
    PathGap(s, root, key, d);
    UpperMono(s, pageSize, root, d, h);
    var l := Level(s, root, d);
    var i := PathIndex(s, root, key, d);
    assert l[i].page in PagesOf(l);
    if d < h {
      UpperMono(s, pageSize, root, d + 1, h);
      assert InnerOk(At(s, l[i].page), l[i].page, pageSize);
      KidsSortedCells(s, l, i);
    } else {
      assert LeafOk(At(s, l[i].page), l[i].page, pageSize, l[i].lo, Hi(l, i));
    }
  }

  /** A key that divides nothing in level e divides nothing in the levels above. */
  lemma NoLoAbove(s: Store, root: PageNumber, m: Key, t: nat, e: nat)
    requires t <= e && NoLo(Level(s, root, e), m)
    ensures NoLo(Level(s, root, t), m)
  {
    forall i | 0 <= i < |Level(s, root, t)| ensures Level(s, root, t)[i].lo != m {
      var j := LoDown(s, root, t, i, e);
    }
  }

  lemma KeysAreLos(s: Store, l: seq<Slot>, i: nat, m: Key)
    requires i < |l| && NoLo(Expand(s, l), m)
    ensures forall y :: 0 <= y < |At(s, l[i].page).cells| ==> At(s, l[i].page).cells[y].key != m
  {
    forall y | 0 <= y < |At(s, l[i].page).cells| ensures At(s, l[i].page).cells[y].key != m {
      ExpandIndex(s, l, i, y + 1);
    }
  }

  /** The search for the divider m does not stop above depth e ... */
  lemma NotFoundAbove(s: Store, root: PageNumber, m: Key, t: nat, e: nat)
    requires t < e && Sorted(Level(s, root, t + 1)) && NoLo(Level(s, root, e), m)
    ensures
      var n := At(s, PathPage(s, root, m, t));
      SortedCells(n.cells) && forall y :: 0 <= y < |n.cells| ==> n.cells[y].key != m
  {
    PathGap(s, root, m, t);
    NoLoAbove(s, root, m, t + 1, e);
    KidsSortedCells(s, Level(s, root, t), PathIndex(s, root, m, t));
    KeysAreLos(s, Level(s, root, t), PathIndex(s, root, m, t), m);
  }

  /** ... and stops there. */
  lemma FoundHere(s: Store, root: PageNumber, m: Key, e: nat, g: nat)
    requires Sorted(Level(s, root, e + 1))
    requires 0 < g < |Level(s, root, e + 1)| && Level(s, root, e + 1)[g].lo == m
    requires NoLo(Level(s, root, e), m)
    ensures
      var n := At(s, PathPage(s, root, m, e));
      var lo := InsertPos(n.cells, m);
      && SortedCells(n.cells) && lo < |n.cells| && n.cells[lo].key == m
      && Offset(s, Level(s, root, e), PathIndex(s, root, m, e)) + lo + 1 == g
  {
    PathGap(s, root, m, e);
    KidsSortedCells(s, Level(s, root, e), PathIndex(s, root, m, e));
    FoundAtBottom(s, Level(s, root, e), PathIndex(s, root, m, e), m, g);
  }

  // ---- A promoted divider that divides pages of a level above ----

  /** The key m divides pages of level e, all of which are k high. */
  ghost predicate SelfIn(s: Store, pageSize: nat, root: PageNumber, m: Key, e: nat, k: nat) {
    && Upper(s, pageSize, root, e)
    && (forall i :: 0 <= i < |Level(s, root, e)| ==> Tall(s, Level(s, root, e)[i].page, k))
    && !NoLo(Level(s, root, e), m)
  }

  /** A divider is new on some level. */
  lemma {:induction false} FirstLevelOf(s: Store, root: PageNumber, m: Key, e: nat) returns (n: nat, g: nat)
    requires !NoLo(Level(s, root, e), m)
    ensures n < e && NoLo(Level(s, root, n), m)
    ensures 0 < g < |Level(s, root, n + 1)| && Level(s, root, n + 1)[g].lo == m
    decreases e
  {
    hide Offset;
    if e == 0 || NoLo(Level(s, root, e - 1), m) {
      g :| 0 <= g < |Level(s, root, e)| && Level(s, root, e)[g].lo == m;
      n := e - 1;
      var l := Level(s, root, n);
      PathGap(s, root, m, n);
      OffsetZero(s, l);
      ExpandFirst(s, l, 0);
    } else {
      n, g := FirstLevelOf(s, root, m, e - 1);
    }
  }

  lemma OffsetZero(s: Store, l: seq<Slot>)
    ensures Offset(s, l, 0) == 0
  {
    assert l[..0] == [];
  }

  lemma SelfDescent(s: Store, pageSize: nat, root: PageNumber, m: Key, e: nat, k: nat) returns (n: nat)
    requires SelfIn(s, pageSize, root, m, e, k)
    ensures n < e && Finds(s, root, PathPages(s, root, m, n), m)
  {
    hide Upper, Level, Sorted, NoLo, AllInner, Finds, PathPages;
    var g;
    n, g := FirstLevelOf(s, root, m, e);
    UpperMono(s, pageSize, root, n + 1, e);
    UpperFacts(s, pageSize, root, n + 1);
    DividerDescent(s, pageSize, root, m, n, g);
  }

  /** The step up of SelfRetarget. */
  lemma {:induction false} BadUp(s: Store, s': Store, pageSize: nat, root: PageNumber, m: Key, e: nat, k: nat, n: nat, idx: nat, r: PageNumber, t: nat)
    requires SelfIn(s, pageSize, root, m, e, k + 1) && t <= n < e && Tall(s, r, k)
    requires
      var q := PathPage(s, root, m, n);
      q in s && 0 < idx <= |At(s, q).cells| && s' == s[q := WithChild(At(s, q), idx, r)]
    ensures Bad(s', PathPage(s, root, m, t), k + 1 + e - t, k)
    decreases n - t
  {
    hide Upper, Level, TallOut, PathPage, PathIndex, InsertPos;
    var p, q := PathPage(s, root, m, t), PathPage(s, root, m, n);
    PathGap(s, root, m, t);
    TallUp(s, pageSize, root, t, e, k + 1, PathIndex(s, root, m, t));
    RetargetKeeps(s, q, idx, r);
    TallKept(s, s', p, k + 1 + e - t, {});
    var x := k + e - t;
    if t == n {
      TallKept(s, s', r, k, {});
      assert Tall(s', r, k);
      assert Short(s', r, x);
      assert Child(At(s', p), idx) == r && BadChild(s', Child(At(s', p), idx), x, k);
    } else {
      UpperMono(s, pageSize, root, n, e);
      PathDistinct(s, pageSize, root, m, t, n);
      PathChild(s, root, m, t);
      BadUp(s, s', pageSize, root, m, e, k, n, idx, r, t + 1);
      var i := InsertPos(At(s, p).cells, m);
      assert BadChild(s', Child(At(s', p), i), x, k);
    }
  }

  /**
    When a split of interior pages k + 1 high promotes the divider m that was being inserted, the
    search for m stops there or above, and the pointer that is then set skips a level.
   */
  lemma SelfRetarget(s: Store, pageSize: nat, root: PageNumber, m: Key, e: nat, k: nat, n: nat, r: PageNumber)
    requires SelfIn(s, pageSize, root, m, e, k + 1) && n < e && Tall(s, r, k)
    requires Finds(s, root, PathPages(s, root, m, n), m)
    ensures
      var q := PathPage(s, root, m, n);
      q in s && HasOwn(At(s, q), m) && Broken(s[q := WithChild(At(s, q), InsertPos(At(s, q).cells, m) + 1, r)], root, k)
  {
    hide Upper, Level, TallOut, PathPage, PathIndex, InsertPos, SelfIn, Bad;
    var path := PathPages(s, root, m, n);
    var q := PathPage(s, root, m, n);
    assert path[n] == q && path[0] == PathPage(s, root, m, 0);
    var idx := InsertPos(At(s, q).cells, m) + 1;
    var s' := s[q := WithChild(At(s, q), idx, r)];
    BadUp(s, s', pageSize, root, m, e, k, n, idx, r, 0);
    assert Bad(s', root, k + 1 + e, k);
  }

  /** A split that promotes the key being inserted leaves it as a divider of its level. */
  lemma SelfSplit(s: Store, s': Store, dbSize: nat, pageSize: nat, root: PageNumber, v: View, q: PageNumber, m: Key, lp: PageNumber, rp: PageNumber, e: nat, k: nat)
    requires SlotSplit(s, s', dbSize, pageSize, root, v, m, lp, rp, e)
    requires LevelTall(s, v.level, k, v.above) && NoDup(v.level) && v.index < |v.level| && v.level[v.index].page == q
    requires FirstKept(s, s', v.above + {q}) && Tall(s', lp, k) && Tall(s', rp, k)
    ensures SelfIn(s', pageSize, root, m, e, k)
  {
    hide Upper, Level, TallOut, LevelTall, FirstKept, NoDup;
    var l, i := v.level, v.index;
    var l' := Level(s', root, e);
    assert l' == Replace(l, i, 1, [Slot(l[i].lo, lp), Slot(m, rp)]);
    assert l'[i + 1].lo == m;
    forall x | 0 <= x < |l'| ensures Tall(s', l'[x].page, k) {
      if x < i {
        assert l'[x] == l[x];
        OtherTall(s, s', v, q, k, x);
        TallWider(s', l[x].page, k, v.above, {});
      } else if x > i + 1 {
        assert l'[x] == l[x - 1];
        OtherTall(s, s', v, q, k, x - 1);
        TallWider(s', l[x - 1].page, k, v.above, {});
      }
    }
  }
}
