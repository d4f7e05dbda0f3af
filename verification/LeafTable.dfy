/** The machine's view of a written table - rows and free bytes - is that of its leaf page. */
module LeafTable {
  import opened BTreeLevels
  import opened BTreePage
  import opened Mem
  import V = Vdbe

  type TableRow = V.TableRow

  /** The leaf n on page p holds these rows, each in a cell of its length, and has `room` free bytes. */
  ghost predicate OnLeaf(env: Env, n: Node, p: PageNumber, rows: seq<TableRow>, room: nat) {
    && n.leaf && |n.cells| == |rows| && n.contentStart == HeaderOffset(p) + HeaderSize(true) + 2 * |n.cells| + room
    && forall i :: 0 <= i < |rows| ==> CellFor(env, n.cells[i], rows[i])
  }

  ghost predicate CellFor(env: Env, c: Cell, row: TableRow) {
    c.Row? && c.key == row.key && CellSize(c) == V.RowSize(env, row)
  }

  lemma {:induction false} SeekIsInsertPos(env: Env, cells: seq<Cell>, rows: seq<TableRow>, key: Key)
    requires |cells| == |rows| && forall i :: 0 <= i < |rows| ==> CellFor(env, cells[i], rows[i])
    ensures InsertPos(cells, key) == V.SeekPos(rows, key)
  {
    hide CellSize, V.RowSize;
    if cells != [] {
      assert CellFor(env, cells[0], rows[0]);
      forall i | 0 <= i < |rows[1..]| ensures CellFor(env, cells[1..][i], rows[1..][i]) {
        assert CellFor(env, cells[i + 1], rows[i + 1]);
      }
      SeekIsInsertPos(env, cells[1..], rows[1..], key);
    }
  }

  /** Deleting row i frees the two bytes of its pointer. */
  lemma LeafDelete(env: Env, n: Node, p: PageNumber, rows: seq<TableRow>, room: nat, i: nat)
    requires OnLeaf(env, n, p, rows, room) && i < |rows|
    ensures OnLeaf(env, WithoutCell(n, i), p, rows[..i] + rows[i + 1..], room + 2)
  {
    hide CellFor;
    var m, rest := WithoutCell(n, i), rows[..i] + rows[i + 1..];
    forall k | 0 <= k < |rest| ensures CellFor(env, m.cells[k], rest[k]) {
      assert CellFor(env, n.cells[if k < i then k else k + 1], rows[if k < i then k else k + 1]);
    }
  }

  /** A row can be inserted without a split exactly when its cell and its pointer find room. */
  lemma LeafInsert(env: Env, n: Node, p: PageNumber, rows: seq<TableRow>, room: nat, c: Cell, row: TableRow)
    requires OnLeaf(env, n, p, rows, room) && CellFor(env, c, row)
    ensures Fits(n, p, CellSize(c)) <==> 2 + V.RowSize(env, row) <= room
    ensures Fits(n, p, CellSize(c)) ==>
      var at := V.SeekPos(rows, row.key);
      OnLeaf(env, WithCell(n, c), p, rows[..at] + [row] + rows[at..], room - 2 - V.RowSize(env, row))
  {
    if Fits(n, p, CellSize(c)) {
      SeekIsInsertPos(env, n.cells, rows, row.key);
      hide CellFor, InsertPos;
      var at, m := V.SeekPos(rows, row.key), WithCell(n, c);
      var all := rows[..at] + [row] + rows[at..];
      forall k | 0 <= k < |all| ensures CellFor(env, m.cells[k], all[k]) {
        assert k < at ==> CellFor(env, n.cells[k], rows[k]);
        assert k > at ==> CellFor(env, n.cells[k - 1], rows[k - 1]);
      }
    }
  }

  lemma {:induction false} SeekIs(rows: seq<TableRow>, key: Key, i: nat)
    requires i <= |rows| && (forall k :: 0 <= k < i ==> rows[k].key < key) && (i < |rows| ==> key <= rows[i].key)
    ensures V.SeekPos(rows, key) == i
  {
    if i > 0 {
      SeekIs(rows[1..], key, i - 1);
    }
  }

  /** Replacing row i by a row with the same key takes the leaf without a split exactly when the new cell finds room. */
  lemma LeafReplace(env: Env, n: Node, p: PageNumber, rows: seq<TableRow>, room: nat, i: nat, c: Cell, row: TableRow)
    requires OnLeaf(env, n, p, rows, room) && i < |rows| && CellFor(env, c, row)
    requires forall k :: 0 <= k < i ==> rows[k].key < row.key
    requires i + 1 < |rows| ==> row.key < rows[i + 1].key
    ensures Fits(WithoutCell(n, i), p, CellSize(c)) <==> V.RowSize(env, row) <= room
    ensures Fits(WithoutCell(n, i), p, CellSize(c)) ==>
      OnLeaf(env, WithCell(WithoutCell(n, i), c), p, rows[i := row], room - V.RowSize(env, row))
  {
    assert i < |n.cells|;
    hide OnLeaf, CellFor, V.RowSize, CellSize, Fits;
    var rest := rows[..i] + rows[i + 1..];
    LeafDelete(env, n, p, rows, room, i);
    LeafInsert(env, WithoutCell(n, i), p, rest, room + 2, c, row);
    assert i < |rest| ==> rest[i] == rows[i + 1];
    SeekIs(rest, row.key, i);
    assert rest[..i] + [row] + rest[i..] == rows[i := row];
  }
}
