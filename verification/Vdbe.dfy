/**
  The virtual machine: instructions, one step of execution, and the loop that runs a program.
  A table is its entries in key order, and a table cursor is an index into them; module
  BTreeCursor shows that the path stack of the real cursor refines that index.
 */
module Vdbe {
  import opened Bytes
  import opened Mem
  import L = LeafCells
  import R = Record
  import V = Varint

  type U64 = V.U64

  datatype Opcode =
    | Halt
    | Goto
    | Calc(op: Arithmetic)
    | Integer
    | RealOp
    | String8
    | NullOp
    | Copy
    | Jump(c: Comparison)
    | OpenRead
    | OpenWrite
    | Close
    | SeekGt
    | NextOp
    | Rewind
    | Column
    | MakeRecord
    | Insert
    | Delete
    | RowId
    | ResultRow
    | If
    | IfNot
    | IsNull
    | NotNull
    | SorterOpen
    | SorterInsert
    | SorterSort
    | SorterNext
    | Function
    | AggStep
    | AggFinal
    | Noop

  datatype P4 = NoP4 | P4Real(f: Double) | P4Text(text: string, bytes: Data)

  datatype VdbeOp = VdbeOp(opcode: Opcode, p1: int, p2: int, p3: int, p4: P4, p5: nat)

  datatype TableRow = TableRow(key: U64, data: Data)

  datatype Cursor =
    | Closed
    | BTree(root: int, at: nat, valid: bool)
    | Sorter(records: seq<Data>, pos: nat)

  /**
    Everything that an instruction can change.  For a table that is written, `room` has the free bytes
    of its leaf, between the pointer array and the first cell.
   */
  datatype Machine = Machine(pc: nat, regs: seq<Mem>, cursors: seq<Cursor>, accs: seq<Accumulator>,
                             tables: map<int, seq<TableRow>>, room: map<int, nat>)

  datatype Step =
    | Next(m: Machine)
    | Row(m: Machine, row: seq<Mem>)
    | Done(m: Machine)
    | Fail

  // ---- Helpers ----

  /** An operand used as an index: a negative one wraps to a number no sequence is as long as. */
  function Index(p: int): nat {
    if p < 0 then (-p) * 0x1_0000_0000_0000_0000 else p
  }

  function Goes(m: Machine, target: int): Machine {
    m.(pc := Index(target))
  }

  function Put(m: Machine, r: int, v: Mem): Step {
    if 0 <= r < |m.regs| then Next(m.(regs := m.regs[r := v])) else Fail
  }

  function Reg(m: Machine, r: int): Option<Mem> {
    if 0 <= r < |m.regs| then Some(m.regs[r]) else None
  }

  function CursorAt(m: Machine, c: int): Cursor {
    if 0 <= c < |m.cursors| then m.cursors[c] else Closed
  }

  function SetCursor(m: Machine, c: int, k: Cursor): Machine
    requires 0 <= c < |m.cursors|
  {
    m.(cursors := m.cursors[c := k])
  }

  function RowsOf(m: Machine, root: int): seq<TableRow> {
    if root in m.tables then m.tables[root] else []
  }

  function RoomOf(m: Machine, root: int): nat {
    if root in m.room then m.room[root] else 0
  }

  /** The length of a row's cell on its leaf. */
  function RowSize(env: Env, row: TableRow): nat {
    L.CellLength(row.key, |row.data|, env.pageSize)
  }

  /** The record under a cursor. */
  function RecordAt(m: Machine, c: int): Option<Data> {
    match CursorAt(m, c)
    case Closed => None
    case BTree(root, at, valid) => if valid && at < |RowsOf(m, root)| then Some(RowsOf(m, root)[at].data) else None
    case Sorter(records, pos) => if pos < |records| then Some(records[pos]) else None
  }

  function ToValues(ms: seq<Mem>): Option<seq<R.Value>> {
    if ms == [] then Some([])
    else
      match (ToValues(ms[..|ms| - 1]), ToValue(ms[|ms| - 1]))
      case (Some(vs), Some(v)) => Some(vs + [v])
      case _ => None
  }

  /** The record made of register values; None for an accumulator, a zero blob, or a record too long to address. */
  function RecordOf(ms: seq<Mem>): Option<Data> {
    match ToValues(ms)
    case None => None
    case Some(vs) =>
      if |vs| < 0x400_0000_0000_0000 && R.Encodable(vs) && |R.EncodedRecord(vs)| < 0x7FFF_FFFF_FFFF_FFFA then
        Some(R.EncodedRecord(vs))
      else None
  }

  // ---- Sorting ----

  function Fields(data: Data): seq<R.Value> {
    match R.DecodedRecord(data)
    case Err(_) => []
    case Ok(vs) => vs
  }

  function CmpFields(env: Env, a: seq<R.Value>, b: seq<R.Value>): Order {
    if a == [] || b == [] then OrderInt(|a|, |b|)
    else
      var o := Cmp(env, FromValue(env, a[0]), FromValue(env, b[0]));
      if o != Equal then o else CmpFields(env, a[1..], b[1..])
  }

  function CmpRecords(env: Env, a: Data, b: Data): Order {
    CmpFields(env, Fields(a), Fields(b))
  }

  /** Insert after every record that is not greater. */
  function InsertRecord(env: Env, s: seq<Data>, x: Data): seq<Data> {
    if s == [] || CmpRecords(env, s[|s| - 1], x) != Greater then s + [x]
    else InsertRecord(env, s[..|s| - 1], x) + [s[|s| - 1]]
  }

  /** The stable sort. */
  function Sort(env: Env, rs: seq<Data>): seq<Data> {
    if rs == [] then [] else InsertRecord(env, Sort(env, rs[..|rs| - 1]), rs[|rs| - 1])
  }

  // ---- Tables ----

  /** The first entry whose key is at least `key`. */
  function SeekPos(rows: seq<TableRow>, key: U64): (i: nat)
    ensures i <= |rows|
    ensures forall j :: 0 <= j < i ==> rows[j].key < key
    ensures i < |rows| ==> rows[i].key >= key
  {
    if rows == [] || rows[0].key >= key then 0 else 1 + SeekPos(rows[1..], key)
  }

  function AsKey(i: I64): U64 {
    if i < 0 then i + 0x1_0000_0000_0000_0000 else i
  }

  function AsRowid(k: U64): I64 {
    if k >= 0x8000_0000_0000_0000 then k - 0x1_0000_0000_0000_0000 else k
  }

  /** A rowid is stored as the key that is congruent to it modulo 2^64, and read back as the signed number. */
  lemma RowidKeys(i: I64)
    ensures AsRowid(AsKey(i)) == i
    ensures (AsKey(i) as int - i) % 0x1_0000_0000_0000_0000 == 0
  {
    if i < 0 {
      assert AsKey(i) as int - i == 0x1_0000_0000_0000_0000;
    } else {
      assert AsKey(i) as int - i == 0;
    }
  }

  // ---- One instruction ----

  function ExecRegister(env: Env, op: VdbeOp, m: Machine): Step {
    match op.opcode
    case Integer => Put(m, op.p2, Int(Wrap(op.p1)))
    case RealOp => if op.p4.P4Real? then Put(m, op.p2, Real(op.p4.f)) else Fail
    case String8 => if op.p4.P4Text? then Put(m, op.p2, Text(op.p4.bytes)) else Fail
    case NullOp => Put(m, op.p2, Null)
    case Copy => (match Reg(m, op.p1) case None => Fail case Some(v) => Put(m, op.p2, v))
    case Calc(a) => (
      match (Reg(m, op.p1), Reg(m, op.p2))
      case (Some(r), Some(l)) => (match Compute(env, a, l, r) case None => Fail case Some(v) => Put(m, op.p3, v))
      case _ => Fail)
    case MakeRecord =>
      if 0 <= op.p1 && 0 <= op.p2 && op.p1 + op.p2 <= |m.regs| then
        match RecordOf(m.regs[op.p1..op.p1 + op.p2])
        case None => Fail
        case Some(data) => Put(m, op.p3, Blob(data))
      else Fail
    case Function =>
      if op.p4.P4Text? && 0 <= op.p1 && (op.p1 > 0 ==> 0 <= op.p2 && op.p2 + op.p1 <= |m.regs|) then
        match env.call(op.p4.text, if op.p1 > 0 then m.regs[op.p2..op.p2 + op.p1] else [])
        case None => Fail
        case Some(v) => Put(m, op.p3, v)
      else Fail
    case _ => Fail
  }

  function ExecJump(env: Env, op: VdbeOp, m: Machine): Step {
    match op.opcode
    case Goto => Next(Goes(m, op.p2))
    case Jump(c) => (
      match (Reg(m, op.p3), Reg(m, op.p1))
      case (Some(l), Some(r)) => Next(if Holds(env, c, l, r) then Goes(m, op.p2) else m)
      case _ => Fail)
    case If => (match Reg(m, op.p1) case None => Fail case Some(v) => Next(if IsTruthy(env, v) then Goes(m, op.p2) else m))
    case IfNot => (match Reg(m, op.p1) case None => Fail case Some(v) => Next(if !IsTruthy(env, v) then Goes(m, op.p2) else m))
    case IsNull => (match Reg(m, op.p1) case None => Fail case Some(v) => Next(if v == Null then Goes(m, op.p2) else m))
    case NotNull => (match Reg(m, op.p1) case None => Fail case Some(v) => Next(if v != Null then Goes(m, op.p2) else m))
    case _ => Fail
  }

  function ExecCursor(env: Env, op: VdbeOp, m: Machine): Step {
    var k := CursorAt(m, op.p1);
    match op.opcode
    case OpenRead => if 0 <= op.p1 < |m.cursors| then Next(SetCursor(m, op.p1, BTree(op.p2, 0, false))) else Fail
    case OpenWrite => if 0 <= op.p1 < |m.cursors| then Next(SetCursor(m, op.p1, BTree(op.p2, 0, false))) else Fail
    case Close => Next(if 0 <= op.p1 < |m.cursors| then SetCursor(m, op.p1, Closed) else m)
    case Rewind =>
      if !k.BTree? || k.root !in m.tables then Fail
      else if m.tables[k.root] == [] then Next(Goes(SetCursor(m, op.p1, BTree(k.root, 0, false)), op.p2))
      else Next(SetCursor(m, op.p1, BTree(k.root, 0, true)))
    case NextOp =>
      if !k.BTree? || k.root !in m.tables then Fail
      else if op.p5 != 0 && k.valid then Next(Goes(m, op.p2))
      else if k.valid && k.at + 1 < |m.tables[k.root]| then Next(Goes(SetCursor(m, op.p1, BTree(k.root, k.at + 1, true)), op.p2))
      else Next(SetCursor(m, op.p1, BTree(k.root, k.at, false)))
    case Column => (
      match RecordAt(m, op.p1)
      case None => Fail
      case Some(data) => (match FieldOf(env, data, Index(op.p2)) case None => Fail case Some(v) => Put(m, op.p3, v)))
    case RowId =>
      if k.BTree? && k.valid && k.at < |RowsOf(m, k.root)| then Put(m, op.p2, Int(AsRowid(RowsOf(m, k.root)[k.at].key))) else Fail
    case _ => ExecWrite(env, op, m)
  }

  /**
    Changes to a table on one leaf, where the cursor stays on the page.  A deletion gives back the cell's
    pointer but not its bytes.  An insertion without room would split the leaf; there the model ends.
   */
  function ExecWrite(env: Env, op: VdbeOp, m: Machine): Step {
    var k := CursorAt(m, op.p1);
    match op.opcode
    case Delete =>
      if k.BTree? && k.valid && k.at < |RowsOf(m, k.root)| then
        var rows := RowsOf(m, k.root);
        var left := rows[..k.at] + rows[k.at + 1..];
        Next(SetCursor(m, op.p1, BTree(k.root, k.at, k.at < |left|)).(tables := m.tables[k.root := left],
                                                                      room := m.room[k.root := RoomOf(m, k.root) + 2]))
      else Fail
    case Insert => (
      match (Reg(m, op.p3), Reg(m, op.p2))
      case (Some(Int(i)), Some(Blob(data))) =>
        var row := TableRow(AsKey(i), data);
        if k.BTree? && k.root in m.tables && 2 + RowSize(env, row) <= RoomOf(m, k.root) then
          var rows := m.tables[k.root];
          var at := SeekPos(rows, row.key);
          Next(SetCursor(m, op.p1, BTree(k.root, 0, false)).(tables := m.tables[k.root := rows[..at] + [row] + rows[at..]],
                                                              room := m.room[k.root := RoomOf(m, k.root) - 2 - RowSize(env, row)]))
        else Fail
      case _ => Fail)
    case SeekGt => (
      match Reg(m, op.p3)
      case None => Fail
      case Some(v) =>
        if k.BTree? && k.root in m.tables then
          var rows := m.tables[k.root];
          var key := AsKey(match ToInt(env, v) case None => 0 case Some(i) => i);
          var at := SeekPos(rows, key);
          var past := if at < |rows| && rows[at].key == key then at + 1 else at;
          if past < |rows| then Next(SetCursor(m, op.p1, BTree(k.root, past, true)))
          else Next(Goes(SetCursor(m, op.p1, BTree(k.root, at, false)), op.p2))
        else Fail)
    case _ => Fail
  }

  function ExecSorter(env: Env, op: VdbeOp, m: Machine): Step {
    var k := CursorAt(m, op.p1);
    match op.opcode
    case SorterOpen => if 0 <= op.p1 < |m.cursors| then Next(SetCursor(m, op.p1, Sorter([], 0))) else Fail
    case SorterInsert => (
      match Reg(m, op.p2)
      case Some(Blob(data)) => if k.Sorter? then Next(SetCursor(m, op.p1, Sorter(k.records + [data], k.pos))) else Fail
      case _ => Fail)
    case SorterSort =>
      if !k.Sorter? then Fail
      else
        var sorted := SetCursor(m, op.p1, Sorter(Sort(env, k.records), 0));
        Next(if k.records == [] then Goes(sorted, op.p2) else sorted)
    case SorterNext =>
      if !k.Sorter? then Fail
      else
        var moved := SetCursor(m, op.p1, Sorter(k.records, k.pos + 1));
        Next(if k.pos + 1 < |k.records| then Goes(moved, op.p2) else moved)
    case _ => Fail
  }

  function ExecAggregate(env: Env, op: VdbeOp, m: Machine): Step {
    match op.opcode
    case AggStep =>
      if !op.p4.P4Text? || op.p1 < 0 || (op.p1 > 0 && !(0 <= op.p2 && op.p2 + op.p1 <= |m.regs|)) then Fail
      else
        var args := if op.p1 > 0 then m.regs[op.p2..op.p2 + op.p1] else [];
        var name := op.p4.text;
        (match Reg(m, op.p3)
        case Some(Null) =>
          if env.known(name) && env.accepts(Accumulator(name, []), args) then
            Next(m.(regs := m.regs[op.p3 := Agg(|m.accs|)], accs := m.accs + [Accumulator(name, [args])]))
          else Fail
        case Some(Agg(i)) =>
          if i < |m.accs| && env.accepts(m.accs[i], args) then
            Next(m.(accs := m.accs[i := Accumulator(m.accs[i].name, m.accs[i].fed + [args])]))
          else Fail
        case _ => Fail)
    case AggFinal =>
      if !op.p4.P4Text? then Fail
      else
        (match Reg(m, op.p1)
        case Some(Null) =>
          if env.known(op.p4.text) && env.final(Accumulator(op.p4.text, [])).Some? then
            Put(m, op.p1, env.final(Accumulator(op.p4.text, [])).value)
          else Fail
        case Some(Agg(i)) =>
          if i < |m.accs| && env.final(m.accs[i]).Some? then Put(m, op.p1, env.final(m.accs[i]).value) else Fail
        case _ => Fail)
    case _ => Fail
  }

  /** Execute `op`; the program counter already points past it. */
  function Exec(env: Env, op: VdbeOp, m: Machine): Step {
    match op.opcode
    case Halt => Done(m)
    case Noop => Next(m)
    case ResultRow =>
      if 0 <= op.p1 && 0 <= op.p2 && op.p1 + op.p2 <= |m.regs| then Row(m, m.regs[op.p1..op.p1 + op.p2]) else Fail
    case Integer => ExecRegister(env, op, m)
    case RealOp => ExecRegister(env, op, m)
    case String8 => ExecRegister(env, op, m)
    case NullOp => ExecRegister(env, op, m)
    case Copy => ExecRegister(env, op, m)
    case Calc(_) => ExecRegister(env, op, m)
    case MakeRecord => ExecRegister(env, op, m)
    case Function => ExecRegister(env, op, m)
    case Goto => ExecJump(env, op, m)
    case Jump(_) => ExecJump(env, op, m)
    case If => ExecJump(env, op, m)
    case IfNot => ExecJump(env, op, m)
    case IsNull => ExecJump(env, op, m)
    case NotNull => ExecJump(env, op, m)
    case SorterOpen => ExecSorter(env, op, m)
    case SorterInsert => ExecSorter(env, op, m)
    case SorterSort => ExecSorter(env, op, m)
    case SorterNext => ExecSorter(env, op, m)
    case AggStep => ExecAggregate(env, op, m)
    case AggFinal => ExecAggregate(env, op, m)
    case _ => ExecCursor(env, op, m)
  }

  // ---- Running ----

  function Advance(env: Env, prog: seq<VdbeOp>, m: Machine): Step {
    if m.pc >= |prog| then Done(m) else Exec(env, prog[m.pc], m.(pc := m.pc + 1))
  }

  /** At most n instructions, stopping early at a result row, the end or a failure. */
  function Run(env: Env, prog: seq<VdbeOp>, m: Machine, n: nat): Step
    decreases n
  {
    if n == 0 then Next(m)
    else
      match Advance(env, prog, m)
      case Next(m1) => Run(env, prog, m1, n - 1)
      case Row(m1, row) => Row(m1, row)
      case Done(m1) => Done(m1)
      case Fail => Fail
  }

  lemma {:induction false} RunCompose(env: Env, prog: seq<VdbeOp>, m: Machine, a: nat, m1: Machine, b: nat)
    requires Run(env, prog, m, a) == Next(m1)
    ensures Run(env, prog, m, a + b) == Run(env, prog, m1, b)
    decreases a
  {
    hide Advance;
    if a > 0 {
      var s := Advance(env, prog, m);
      RunCompose(env, prog, s.m, a - 1, m1, b);
    }
  }

  /** A run that has stopped gives the same result with more fuel. */
  lemma {:induction false} RunStopped(env: Env, prog: seq<VdbeOp>, m: Machine, a: nat, b: nat)
    requires !Run(env, prog, m, a).Next? && a <= b
    ensures Run(env, prog, m, b) == Run(env, prog, m, a)
    decreases a
  {
    hide Advance;
    var s := Advance(env, prog, m);
    if s.Next? {
      RunStopped(env, prog, s.m, a - 1, b - 1);
    }
  }
}
