/** A B-tree page by its bytes. */
module PageFormat {
  import opened Bytes
  import opened BTreeLevels
  import opened BTreePage
  import opened LeafCells
  import opened PageBytes
  import Varint

  /** The two bytes at o, most significant first. */
  function Pair(s: seq<Byte>, o: nat): nat
    requires o + 2 <= |s|
  {
    s[o] as int * 256 + s[o + 1]
  }

  /** The page number of the child, most significant byte first, and the divider's key behind it. */
  ghost predicate DividerBytes(s: seq<Byte>, o: nat, key: Key, child: nat) {
    && o + 4 <= |s| && Get32(s[o..]) == child
    && o + 4 + |Varint.Encoded(key)| <= |s| && s[o + 4..o + 4 + |Varint.Encoded(key)|] == Varint.Encoded(key)
  }

  /** The pointer at `at` leads to the cell, behind the start of the cells. */
  ghost predicate PointsAt(s: seq<Byte>, at: nat, start: nat, c: Cell) {
    && at + 2 <= |s| && Pair(s, at) >= start
    && match c
       case Row(_, bytes) => Pair(s, at) + |bytes| <= |s| && s[Pair(s, at)..Pair(s, at) + |bytes|] == bytes
       case Divider(key, child) => DividerBytes(s, Pair(s, at), key, child)
  }

  /** Kind, number of cells, start of the cells, and on an interior page the rightmost child. */
  ghost predicate HeaderAsBytes(s: seq<Byte>, ho: nat, n: Node) {
    && |s| >= ho + 12 && s[ho] == (if n.leaf then 13 else 5) && Pair(s, ho + 3) == |n.cells|
    && n.contentStart == (if Pair(s, ho + 5) == 0 then 65536 else Pair(s, ho + 5)) && (!n.leaf ==> Get32(s[ho + 8..]) == n.rightmost)
  }

  ghost predicate PointersAsBytes(s: seq<Byte>, pointers: nat, n: Node) {
    && pointers + 2 * |n.cells| <= n.contentStart <= |s|
    && forall i :: 0 <= i < |n.cells| ==> PointsAt(s, pointers + 2 * i, n.contentStart, n.cells[i])
  }

  /**
    A well-formed page. On page 1 a hundred bytes precede the header: the kind (13 for a leaf, 5 for an
    interior page), the number of cells at 3, the start of the cells at 5 (0 stands for 65536), and on an
    interior page the rightmost child at 8. Pointers of two bytes follow, in key order.
   */
  lemma PageAsBytes(s: seq<Byte>, p: PageNumber, n: Node)
    requires Stored(s, p, n)
    ensures HeaderAsBytes(s, if p == 1 then 100 else 0, n)
    ensures PointersAsBytes(s, (if p == 1 then 100 else 0) + (if n.leaf then 8 else 12), n)
  {
    hide HeaderIs, PointersIn, CellsStored, CellsApart, HeaderAsBytes, PointersAsBytes;
    HeaderBytesAre(s, p, n);
    PointersAre(s, p, n);
  }

  lemma PointersAre(s: seq<Byte>, p: PageNumber, n: Node)
    requires |s| >= MIN_PAGE_SIZE && PointersIn(s, p, n) && CellsStored(s, p, n)
    ensures PointersAsBytes(s, (if p == 1 then 100 else 0) + (if n.leaf then 8 else 12), n)
  {
    hide CellAt, PointsAt;
    var pointers := (if p == 1 then 100 else 0) + if n.leaf then 8 else 12;
    forall i | 0 <= i < |n.cells| ensures PointsAt(s, pointers + 2 * i, n.contentStart, n.cells[i]) {
      assert PtrAt(p, n.leaf, i) == pointers + 2 * i && Ptr(s, p, n.leaf, i) == Pair(s, pointers + 2 * i);
      CellAsBytes(s, pointers + 2 * i, n.contentStart, n.cells[i], n.leaf);
    }
  }

  lemma HeaderBytesAre(s: seq<Byte>, p: PageNumber, n: Node)
    requires HeaderIs(s, p, n)
    ensures HeaderAsBytes(s, if p == 1 then 100 else 0, n)
  {
    var ho := if p == 1 then 100 else 0;
    if !n.leaf {
      assert s[ho + 8..ho + 12] == s[ho + 8..][..4];
    }
  }

  lemma CellAsBytes(s: seq<Byte>, at: nat, start: nat, c: Cell, leaf: bool)
    requires |s| >= MIN_PAGE_SIZE && at + 2 <= |s| && Pair(s, at) >= start && CellAt(s, Pair(s, at), c, leaf)
    ensures PointsAt(s, at, start, c)
  {
    hide Get32, Put32, CellOk, Varint.Encoded;
    var o := Pair(s, at);
    if c.Divider? {
      DividerKept(s, c, leaf, o);
      var x := CellBytes(c);
      assert s[o..] == Put32(c.child) + s[o + 4..] by {
        assert s[o..o + |x|][..4] == s[o..][..4] == x[..4] == Put32(c.child);
        assert s[o..] == s[o..][..4] + s[o + 4..];
      }
      PutGet32(c.child, s[o + 4..]);
      assert s[o + 4..o + |x|] == x[4..] == Varint.Encoded(c.key);
    }
  }

  lemma DividerKept(s: seq<Byte>, c: Cell, leaf: bool, o: nat)
    requires |s| >= MIN_PAGE_SIZE && c.Divider? && CellAt(s, o, c, leaf)
    ensures c.child < 0x1_0000_0000 && |CellBytes(c)| == 4 + |Varint.Encoded(c.key)| && o + |CellBytes(c)| <= |s| && s[o..o + |CellBytes(c)|] == CellBytes(c)
  {
  }
}
