/**
  The shape of a table B-tree, described level by level.

  A level is the left-to-right list of the pages at one distance from the root,
  each with the divider to its left (-1 for the first page).  Splits, promotions
  and pointer retargeting are replacements of a block of one level.
 */
module BTreeLevels {
  import opened Bytes

  type PageNumber = nat
  type Key = k: nat | k < 0x1_0000_0000_0000_0000

  /** A cell: a row on a leaf page, or a (left child, divider) pair on an interior page. */
  datatype Cell = Row(key: Key, bytes: seq<Byte>) | Divider(key: Key, child: PageNumber)

  /** A decoded page: kind, start of the cell content area, cells in pointer-array order. */
  datatype Node = Node(leaf: bool, contentStart: nat, cells: seq<Cell>, rightmost: PageNumber)

  type Store = map<PageNumber, Node>

  /** A page and the divider to its left. */
  datatype Slot = Slot(lo: int, page: PageNumber)

  const EMPTY := Node(true, 0, [], 0)

  function At(s: Store, p: PageNumber): Node {
    if p in s then s[p] else EMPTY
  }

  function ChildOf(c: Cell): PageNumber {
    if c.Divider? then c.child else 0
  }

  /** Child pointer `i` of an interior page; the one after the last cell is `rightmost`. */
  function Child(n: Node, i: nat): PageNumber
    requires i <= |n.cells|
  {
    if i < |n.cells| then ChildOf(n.cells[i]) else n.rightmost
  }

  /** The children of an interior page whose own left divider is `lo`. */
  ghost function Kids(n: Node, lo: int): (l: seq<Slot>)
    ensures |l| == |n.cells| + 1
  {
    seq(|n.cells| + 1, i requires 0 <= i <= |n.cells| => Slot(if i == 0 then lo else n.cells[i - 1].key, Child(n, i)))
  }

  /** The level below `l`. */
  ghost function Expand(s: Store, l: seq<Slot>): seq<Slot> {
    if l == [] then [] else Kids(At(s, l[0].page), l[0].lo) + Expand(s, l[1..])
  }

  /** The pages at distance `d` from the root. */
  ghost function Level(s: Store, root: PageNumber, d: nat): seq<Slot> {
    if d == 0 then [Slot(-1, root)] else Expand(s, Level(s, root, d - 1))
  }

  /** Index in the level below of the first child of page `i`. */
  ghost function Offset(s: Store, l: seq<Slot>, i: nat): nat {
    |Expand(s, if i <= |l| then l[..i] else l)|
  }

  /** Replace the `c` slots from `o` on by `x`. */
  ghost function Replace(l: seq<Slot>, o: nat, c: nat, x: seq<Slot>): seq<Slot>
    requires o + c <= |l|
  {
    l[..o] + x + l[o + c..]
  }

  ghost predicate Sorted(l: seq<Slot>) {
    forall i, j :: 0 <= i < j < |l| ==> l[i].lo < l[j].lo
  }

  /** Routing sends `key` to slot `i`: keys equal to a divider go left. */
  ghost predicate InGap(l: seq<Slot>, i: nat, key: int) {
    && i < |l|
    && l[i].lo < key
    && (i + 1 < |l| ==> key <= l[i + 1].lo)
  }

  ghost predicate NoDup(l: seq<Slot>) {
    forall i, j :: 0 <= i < j < |l| ==> l[i].page != l[j].page
  }

  ghost function PagesOf(l: seq<Slot>): set<PageNumber> {
    set i | 0 <= i < |l| :: l[i].page
  }

  /** The pages strictly above level `d`. */
  ghost function Above(s: Store, root: PageNumber, d: nat): set<PageNumber> {
    if d == 0 then {} else Above(s, root, d - 1) + PagesOf(Level(s, root, d - 1))
  }

  // ---- Expand is a flat map ----

  lemma {:induction false} ExpandConcat(s: Store, a: seq<Slot>, b: seq<Slot>)
    ensures Expand(s, a + b) == Expand(s, a) + Expand(s, b)
  {
    if a == [] {
      assert a + b == b;
    } else {
      assert (a + b)[1..] == a[1..] + b;
      ExpandConcat(s, a[1..], b);
    }
  }

  lemma {:induction false} ExpandFrame(s: Store, s': Store, l: seq<Slot>)
    requires forall i :: 0 <= i < |l| ==> At(s', l[i].page) == At(s, l[i].page)
    ensures Expand(s', l) == Expand(s, l)
  {
    if l != [] {
      assert At(s', l[0].page) == At(s, l[0].page);
      forall i | 0 <= i < |l[1..]| ensures At(s', l[1..][i].page) == At(s, l[1..][i].page) {
        assert l[1..][i] == l[i + 1];
      }
      ExpandFrame(s, s', l[1..]);
    }
  }

  lemma {:induction false} LevelFrame(s: Store, s': Store, root: PageNumber, d: nat)
    requires forall p :: p in Above(s, root, d) ==> At(s', p) == At(s, p)
    ensures Level(s', root, d) == Level(s, root, d) && Above(s', root, d) == Above(s, root, d)
  {
    if d > 0 {
      LevelFrame(s, s', root, d - 1);
      var l := Level(s, root, d - 1);
      forall i | 0 <= i < |l| ensures At(s', l[i].page) == At(s, l[i].page) {
        assert l[i].page in PagesOf(l);
      }
      ExpandFrame(s, s', l);
    }
  }

  lemma ExpandOne(s: Store, x: Slot)
    ensures Expand(s, [x]) == Kids(At(s, x.page), x.lo)
  {
    assert [x][1..] == [];
  }

  /** The children of slot `i` stand between the children of the slots before and after it. */
  lemma ExpandAt(s: Store, l: seq<Slot>, i: nat)
    requires i < |l|
    ensures Expand(s, l) == Expand(s, l[..i]) + Kids(At(s, l[i].page), l[i].lo) + Expand(s, l[i + 1..])
  {
    assert l == l[..i] + ([l[i]] + l[i + 1..]);
    ExpandConcat(s, l[..i], [l[i]] + l[i + 1..]);
    ExpandConcat(s, [l[i]], l[i + 1..]);
    ExpandOne(s, l[i]);
  }

  lemma ExpandIndex(s: Store, l: seq<Slot>, i: nat, j: nat)
    requires i < |l| && j <= |At(s, l[i].page).cells|
    ensures Offset(s, l, i) + j < |Expand(s, l)|
    ensures Expand(s, l)[Offset(s, l, i) + j] == Kids(At(s, l[i].page), l[i].lo)[j]
  {
    ExpandAt(s, l, i);
  }

  /** The first child of a slot has the left divider of the slot itself. */
  lemma ExpandFirst(s: Store, l: seq<Slot>, i: nat)
    requires i < |l|
    ensures Offset(s, l, i) < |Expand(s, l)| && Expand(s, l)[Offset(s, l, i)].lo == l[i].lo
  {
    ExpandIndex(s, l, i, 0);
  }

  lemma OffsetNext(s: Store, l: seq<Slot>, i: nat)
    requires i < |l|
    ensures Offset(s, l, i + 1) == Offset(s, l, i) + |At(s, l[i].page).cells| + 1
    ensures Offset(s, l, i + 1) <= |Expand(s, l)|
  {
    assert l[..i + 1] == l[..i] + [l[i]];
    ExpandConcat(s, l[..i], [l[i]]);
    ExpandOne(s, l[i]);
    ExpandAt(s, l, i);
  }

  /** Replacing one slot by a list of slots replaces its block of children. */
  lemma ExpandReplace(s: Store, s': Store, l: seq<Slot>, i: nat, x: seq<Slot>)
    requires i < |l|
    requires forall j :: 0 <= j < |l| && j != i ==> At(s', l[j].page) == At(s, l[j].page)
    ensures Offset(s, l, i) + |At(s, l[i].page).cells| + 1 <= |Expand(s, l)|
    ensures Expand(s', Replace(l, i, 1, x))
         == Replace(Expand(s, l), Offset(s, l, i), |At(s, l[i].page).cells| + 1, Expand(s', x))
  {
    var a, b := l[..i], l[i + 1..];
    ExpandAt(s, l, i);
    ExpandFrame(s, s', a);
    forall j | 0 <= j < |b| ensures At(s', b[j].page) == At(s, b[j].page) {
      assert b[j] == l[i + 1 + j];
    }
    ExpandFrame(s, s', b);
    ExpandConcat(s', a + x, b);
    ExpandConcat(s', a, x);
    ReplaceMiddle(Expand(s, a), Kids(At(s, l[i].page), l[i].lo), Expand(s, b), Expand(s', x));
  }

  lemma ReplaceMiddle(a: seq<Slot>, k: seq<Slot>, b: seq<Slot>, x: seq<Slot>)
    ensures Replace(a + k + b, |a|, |k|, x) == a + x + b
  {
    assert (a + k + b)[|a| + |k|..] == b;
    assert (a + k + b)[..|a|] == a;
  }

  /** A replacement inside a block is a replacement in the whole list. */
  lemma ReplaceNested(e: seq<Slot>, o: nat, k: seq<Slot>, j: nat, x: seq<Slot>)
    requires o + |k| <= |e| && e[o..o + |k|] == k && j < |k|
    ensures Replace(e, o, |k|, Replace(k, j, 1, x)) == Replace(e, o + j, 1, x)
  {
    assert e[..o + j] == e[..o] + k[..j];
    assert e[o + j + 1..] == k[j + 1..] + e[o + |k|..];
  }

  // ---- Order and routing ----

  lemma {:induction false} ExpandLowerBounds(s: Store, l: seq<Slot>)
    requires Sorted(Expand(s, l))
    ensures Sorted(l)
  {
    forall i, j | 0 <= i < j < |l| ensures l[i].lo < l[j].lo {
      ExpandFirst(s, l, i);
      ExpandFirst(s, l, j);
      OffsetLess(s, l, i, j);
    }
  }

  lemma OffsetLess(s: Store, l: seq<Slot>, i: nat, j: nat)
    requires i < j <= |l|
    ensures Offset(s, l, i) < Offset(s, l, j)
    decreases j - i
  {
    OffsetNext(s, l, i);
    if i + 1 < j {
      OffsetLess(s, l, i + 1, j);
    }
  }

  /** Descending: the gap in a level and the gap inside its page give the gap in the next level. */
  lemma GapDown(s: Store, l: seq<Slot>, i: nat, j: nat, key: int)
    requires InGap(l, i, key)
    requires InGap(Kids(At(s, l[i].page), l[i].lo), j, key)
    ensures InGap(Expand(s, l), Offset(s, l, i) + j, key)
    ensures Expand(s, l)[Offset(s, l, i) + j].page == Child(At(s, l[i].page), j)
  {
    var n := At(s, l[i].page);
    ExpandIndex(s, l, i, j);
    if j < |n.cells| {
      ExpandIndex(s, l, i, j + 1);
    } else {
      OffsetNext(s, l, i);
      if i + 1 < |l| {
        ExpandFirst(s, l, i + 1);
      } else {
        assert l[..i + 1] == l;
      }
    }
  }

  /** In a sorted level a key has one gap. */
  lemma GapUnique(l: seq<Slot>, i: nat, j: nat, key: int)
    requires Sorted(l) && InGap(l, i, key) && InGap(l, j, key)
    ensures i == j
  {
    if i < j {
      assert false;
    } else if j < i {
      assert false;
    }
  }

  /** Going up: a gap among the children of slot `i` lies in the gap of slot `i`. */
  lemma GapUp(s: Store, l: seq<Slot>, i: nat, j: nat, key: int)
    requires i < |l| && j <= |At(s, l[i].page).cells|
    requires Sorted(Expand(s, l))
    requires InGap(Expand(s, l), Offset(s, l, i) + j, key)
    ensures InGap(l, i, key)
    ensures InGap(Kids(At(s, l[i].page), l[i].lo), j, key)
  {
    var e := Expand(s, l);
    var o := Offset(s, l, i);
    var n := At(s, l[i].page);
    ExpandIndex(s, l, i, j);
    ExpandFirst(s, l, i);
    assert e[o].lo <= e[o + j].lo;
    if j < |n.cells| {
      ExpandIndex(s, l, i, j + 1);
    }
    if i + 1 < |l| {
      ExpandFirst(s, l, i + 1);
      OffsetNext(s, l, i);
      assert o + j + 1 <= Offset(s, l, i + 1);
      assert e[o + j + 1].lo <= e[Offset(s, l, i + 1)].lo;
    }
  }

  /** Dividers of a level remain dividers of the level below. */
  lemma LoBelow(s: Store, l: seq<Slot>, i: nat)
    requires i < |l|
    ensures exists j :: 0 <= j < |Expand(s, l)| && Expand(s, l)[j].lo == l[i].lo
  {
    ExpandFirst(s, l, i);
  }

  /** What stands after the children of slot `i`. */
  lemma BlockEnd(s: Store, l: seq<Slot>, i: nat)
    requires i < |l|
    ensures
      var o := Offset(s, l, i) + |At(s, l[i].page).cells| + 1;
      && o == Offset(s, l, i + 1) <= |Expand(s, l)|
      && (i + 1 < |l| ==> o < |Expand(s, l)| && Expand(s, l)[o].lo == l[i + 1].lo)
      && (i + 1 == |l| ==> o == |Expand(s, l)|)
  {
    OffsetNext(s, l, i);
    if i + 1 < |l| {
      ExpandFirst(s, l, i + 1);
    } else {
      assert l[..i + 1] == l;
    }
  }
}
