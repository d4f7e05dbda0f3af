/** The interpreter loop: it changes the registers, cursors and accumulators in place. */
module Interpreter {
  import opened Bytes
  import opened Mem
  import opened Vdbe

  datatype StepResult = RowReady | Complete | Failed | OutOfFuel

  class Interpreter {
    const env: Env
    const ops: seq<VdbeOp>
    var pc: nat
    var regs: seq<Mem>
    var cursors: seq<Cursor>
    var accs: seq<Accumulator>
    var tables: map<int, seq<TableRow>>
    var room: map<int, nat>
    var halted: bool
    /** The registers of the last result row: start and count. */
    var resultRow: Option<(nat, nat)>

    constructor (env: Env, ops: seq<VdbeOp>, nRegs: nat, nCursors: nat, tables: map<int, seq<TableRow>>, room: map<int, nat>)
      ensures this.env == env && this.ops == ops && !halted
      ensures M() == Machine(0, seq(nRegs, _ => Null), seq(nCursors, _ => Closed), [], tables, room)
    {
      this.env, this.ops, this.tables, this.room := env, ops, tables, room;
      pc, regs, cursors, accs := 0, seq(nRegs, _ => Null), seq(nCursors, _ => Closed), [];
      halted, resultRow := false, None;
    }

    function M(): Machine
      reads this
    {
      Machine(pc, regs, cursors, accs, tables, room)
    }

    /** What the last call left: the step function's result, read off the fields. */
    ghost function Outcome(r: StepResult): Step
      reads this
    {
      match r
      case RowReady => if resultRow.Some? && resultRow.value.0 + resultRow.value.1 <= |regs| then Row(M(), regs[resultRow.value.0..resultRow.value.0 + resultRow.value.1]) else Fail
      case Complete => Done(M())
      case Failed => Fail
      case OutOfFuel => Next(M())
    }

    method SetReg(r: int, v: Mem) returns (ok: bool)
      modifies this`regs
      ensures Put(old(M()), r, v) == if ok then Next(M()) else Fail
    {
      ok := 0 <= r < |regs|;
      if ok {
        regs := regs[r := v];
      }
    }

    /** Register instructions. */
    method ExecuteRegister(op: VdbeOp) returns (ok: bool)
      modifies this`regs
      ensures ExecRegister(env, op, old(M())) == if ok then Next(M()) else Fail
    {
      hide Compute, Wrap, RecordOf;
      ok := false;
      match op.opcode {
        case Integer =>
          ok := SetReg(op.p2, Int(Wrap(op.p1)));
        case RealOp =>
          if op.p4.P4Real? {
            ok := SetReg(op.p2, Real(op.p4.f));
          }
        case String8 =>
          if op.p4.P4Text? {
            ok := SetReg(op.p2, Text(op.p4.bytes));
          }
        case NullOp =>
          ok := SetReg(op.p2, Null);
        case Copy =>
          if 0 <= op.p1 < |regs| {
            ok := SetReg(op.p2, regs[op.p1]);
          }
        case Calc(a) =>
          if 0 <= op.p1 < |regs| && 0 <= op.p2 < |regs| {
            var v := Compute(env, a, regs[op.p2], regs[op.p1]);
            if v.Some? {
              ok := SetReg(op.p3, v.value);
            }
          }
        case MakeRecord =>
          if 0 <= op.p1 && 0 <= op.p2 && op.p1 + op.p2 <= |regs| {
            var data := RecordOf(regs[op.p1..op.p1 + op.p2]);
            if data.Some? {
              ok := SetReg(op.p3, Blob(data.value));
            }
          }
        case Function =>
          if op.p4.P4Text? && 0 <= op.p1 && (op.p1 > 0 ==> 0 <= op.p2 && op.p2 + op.p1 <= |regs|) {
            var v := env.call(op.p4.text, if op.p1 > 0 then regs[op.p2..op.p2 + op.p1] else []);
            if v.Some? {
              ok := SetReg(op.p3, v.value);
            }
          }
        case _ =>
      }
    }

    /** Jumps change only the program counter. */
    method ExecuteJump(op: VdbeOp) returns (ok: bool)
      modifies this`pc
      ensures ExecJump(env, op, old(M())) == if ok then Next(M()) else Fail
    {
      hide Holds, IsTruthy;
      ok := op.opcode.Goto? || (0 <= op.p1 < |regs| && (op.opcode.Jump? ==> 0 <= op.p3 < |regs|));
      if !ok {
        return;
      }
      match op.opcode {
        case Goto =>
          pc := Index(op.p2);
        case Jump(c) =>
          if Holds(env, c, regs[op.p3], regs[op.p1]) {
            pc := Index(op.p2);
          }
        case If =>
          if IsTruthy(env, regs[op.p1]) {
            pc := Index(op.p2);
          }
        case IfNot =>
          if !IsTruthy(env, regs[op.p1]) {
            pc := Index(op.p2);
          }
        case IsNull =>
          if regs[op.p1] == Null {
            pc := Index(op.p2);
          }
        case NotNull =>
          if regs[op.p1] != Null {
            pc := Index(op.p2);
          }
        case _ =>
          ok := false;
      }
    }

    /** Cursor instructions that read. */
    method ExecuteCursor(op: VdbeOp) returns (ok: bool)
      modifies this`pc, this`regs, this`cursors, this`tables, this`room
      ensures ExecCursor(env, op, old(M())) == if ok then Next(M()) else Fail
    {
      hide FieldOf, ExecWrite;
      var k := CursorAt(M(), op.p1);
      ok := false;
      match op.opcode {
        case OpenRead =>
          ok := OpenCursor(op);
        case OpenWrite =>
          ok := OpenCursor(op);
        case Close =>
          if 0 <= op.p1 < |cursors| {
            cursors := cursors[op.p1 := Closed];
          }
          ok := true;
        case Rewind =>
          if k.BTree? && k.root in tables {
            cursors := cursors[op.p1 := BTree(k.root, 0, tables[k.root] != [])];
            if tables[k.root] == [] {
              pc := Index(op.p2);
            }
            ok := true;
          }
        case NextOp =>
          if k.BTree? && k.root in tables {
            ok := true;
            if op.p5 != 0 && k.valid {
              pc := Index(op.p2);
            } else if k.valid && k.at + 1 < |tables[k.root]| {
              cursors := cursors[op.p1 := BTree(k.root, k.at + 1, true)];
              pc := Index(op.p2);
            } else {
              cursors := cursors[op.p1 := BTree(k.root, k.at, false)];
            }
          }
        case Column =>
          var data := RecordAt(M(), op.p1);
          if data.Some? {
            var v := FieldOf(env, data.value, Index(op.p2));
            if v.Some? {
              ok := SetReg(op.p3, v.value);
            }
          }
        case RowId =>
          if k.BTree? && k.valid && k.at < |RowsOf(M(), k.root)| {
            ok := SetReg(op.p2, Int(AsRowid(RowsOf(M(), k.root)[k.at].key)));
          }
        case _ =>
          ok := ExecuteWrite(op);
      }
    }

    method OpenCursor(op: VdbeOp) returns (ok: bool)
      modifies this`cursors
      ensures ok == (0 <= op.p1 < |old(cursors)|)
      ensures cursors == if ok then old(cursors)[op.p1 := BTree(op.p2, 0, false)] else old(cursors)
    {
      ok := 0 <= op.p1 < |cursors|;
      if ok {
        cursors := cursors[op.p1 := BTree(op.p2, 0, false)];
      }
    }

    /** Cursor instructions that write. */
    method ExecuteWrite(op: VdbeOp) returns (ok: bool)
      modifies this`pc, this`cursors, this`tables, this`room
      ensures ExecWrite(env, op, old(M())) == if ok then Next(M()) else Fail
    {
      hide SeekPos, RowSize, AsKey, ToInt, Index, RoomOf;
      var k := CursorAt(M(), op.p1);
      ok := false;
      match op.opcode {
        case Delete =>
          if k.BTree? && k.valid && k.at < |RowsOf(M(), k.root)| {
            var rows := RowsOf(M(), k.root);
            var left := rows[..k.at] + rows[k.at + 1..];
            room := room[k.root := RoomOf(M(), k.root) + 2];
            tables := tables[k.root := left];
            cursors := cursors[op.p1 := BTree(k.root, k.at, k.at < |left|)];
            ok := true;
          }
        case Insert =>
          if 0 <= op.p3 < |regs| && regs[op.p3].Int? && 0 <= op.p2 < |regs| && regs[op.p2].Blob? && k.BTree? && k.root in tables {
            var rows, row := tables[k.root], TableRow(AsKey(regs[op.p3].i), regs[op.p2].blob);
            var need, free := 2 + RowSize(env, row), RoomOf(M(), k.root);
            if need <= free {
              var at := SeekPos(rows, row.key);
              room := room[k.root := free - need];
              tables := tables[k.root := rows[..at] + [row] + rows[at..]];
              cursors := cursors[op.p1 := BTree(k.root, 0, false)];
              ok := true;
            }
          }
        case SeekGt =>
          if 0 <= op.p3 < |regs| && k.BTree? && k.root in tables {
            var rows := tables[k.root];
            var i := ToInt(env, regs[op.p3]);
            var key := AsKey(if i.Some? then i.value else 0);
            var at := SeekPos(rows, key);
            var past := if at < |rows| && rows[at].key == key then at + 1 else at;
            cursors := cursors[op.p1 := BTree(k.root, if past < |rows| then past else at, past < |rows|)];
            if past >= |rows| {
              pc := Index(op.p2);
            }
            ok := true;
          }
        case _ =>
      }
    }

    method ExecuteSorter(op: VdbeOp) returns (ok: bool)
      modifies this`pc, this`cursors
      ensures ExecSorter(env, op, old(M())) == if ok then Next(M()) else Fail
    {
      hide CmpRecords;
      var k := CursorAt(M(), op.p1);
      ok := false;
      match op.opcode {
        case SorterOpen =>
          ok := 0 <= op.p1 < |cursors|;
          if ok {
            cursors := cursors[op.p1 := Sorter([], 0)];
          }
        case SorterInsert =>
          if 0 <= op.p2 < |regs| && regs[op.p2].Blob? && k.Sorter? {
            cursors := cursors[op.p1 := Sorter(k.records + [regs[op.p2].blob], k.pos)];
            ok := true;
          }
        case SorterSort =>
          if k.Sorter? {
            var sorted := SortRecords(k.records);
            cursors := cursors[op.p1 := Sorter(sorted, 0)];
            if k.records == [] {
              pc := Index(op.p2);
            }
            ok := true;
          }
        case SorterNext =>
          if k.Sorter? {
            cursors := cursors[op.p1 := Sorter(k.records, k.pos + 1)];
            if k.pos + 1 < |k.records| {
              pc := Index(op.p2);
            }
            ok := true;
          }
        case _ =>
      }
    }

    method SortRecords(records: seq<Data>) returns (sorted: seq<Data>)
      ensures sorted == Sort(env, records)
    {
      hide CmpRecords;
      sorted := [];
      var i := 0;
      while i < |records|
        invariant i <= |records| && sorted == Sort(env, records[..i])
      {
        assert records[..i + 1][..i] == records[..i];
        sorted := InsertRecord(env, sorted, records[i]);
        i := i + 1;
      }
      assert records[..i] == records;
    }

    method ExecuteAggregate(op: VdbeOp) returns (ok: bool)
      modifies this`regs, this`accs
      ensures ExecAggregate(env, op, old(M())) == if ok then Next(M()) else Fail
    {
      ok := false;
      if !op.p4.P4Text? {
        return;
      }
      match op.opcode {
        case AggStep =>
          ok := ExecuteAggStep(op);
        case AggFinal =>
          if 0 <= op.p1 < |regs| && (regs[op.p1].Null? || regs[op.p1].Agg?) {
            var acc := Accumulator(op.p4.text, []);
            if regs[op.p1].Agg? {
              if regs[op.p1].index >= |accs| {
                return;
              }
              acc := accs[regs[op.p1].index];
            } else if !env.known(op.p4.text) {
              return;
            }
            var v := env.final(acc);
            if v.Some? {
              ok := SetReg(op.p1, v.value);
            }
          }
        case _ =>
      }
    }

    method ExecuteAggStep(op: VdbeOp) returns (ok: bool)
      requires op.opcode == AggStep && op.p4.P4Text?
      modifies this`regs, this`accs
      ensures ExecAggregate(env, op, old(M())) == if ok then Next(M()) else Fail
    {
      if op.p1 < 0 || (op.p1 > 0 && !(0 <= op.p2 && op.p2 + op.p1 <= |regs|)) || !(0 <= op.p3 < |regs|) {
        return false;
      }
      var args := if op.p1 > 0 then regs[op.p2..op.p2 + op.p1] else [];
      if regs[op.p3].Null? {
        if !env.known(op.p4.text) || !env.accepts(Accumulator(op.p4.text, []), args) {
          return false;
        }
        regs := regs[op.p3 := Agg(|accs|)];
        accs := accs + [Accumulator(op.p4.text, [args])];
        return true;
      }
      if !regs[op.p3].Agg? || regs[op.p3].index >= |accs| || !env.accepts(accs[regs[op.p3].index], args) {
        return false;
      }
      var i := regs[op.p3].index;
      accs := accs[i := Accumulator(accs[i].name, accs[i].fed + [args])];
      ok := true;
    }

    /** One instruction; pc has already moved past it. */
    method Execute(op: VdbeOp) returns (r: StepResult)
      modifies this
      ensures halted == old(halted)
      ensures Outcome(r) == Exec(env, op, old(M()))
      ensures r == RowReady ==> Outcome(r).Row?
    {
      hide ExecRegister, ExecJump, ExecCursor, ExecSorter, ExecAggregate;
      var ok := true;
      match op.opcode {
        case Halt =>
          return Complete;
        case Noop =>
        case ResultRow =>
          if 0 <= op.p1 && 0 <= op.p2 && op.p1 + op.p2 <= |regs| {
            resultRow := Some((op.p1, op.p2));
            return RowReady;
          }
          ok := false;
        case Integer => ok := ExecuteRegister(op);
        case RealOp => ok := ExecuteRegister(op);
        case String8 => ok := ExecuteRegister(op);
        case NullOp => ok := ExecuteRegister(op);
        case Copy => ok := ExecuteRegister(op);
        case Calc(_) => ok := ExecuteRegister(op);
        case MakeRecord => ok := ExecuteRegister(op);
        case Function => ok := ExecuteRegister(op);
        case Goto => ok := ExecuteJump(op);
        case Jump(_) => ok := ExecuteJump(op);
        case If => ok := ExecuteJump(op);
        case IfNot => ok := ExecuteJump(op);
        case IsNull => ok := ExecuteJump(op);
        case NotNull => ok := ExecuteJump(op);
        case SorterOpen => ok := ExecuteSorter(op);
        case SorterInsert => ok := ExecuteSorter(op);
        case SorterSort => ok := ExecuteSorter(op);
        case SorterNext => ok := ExecuteSorter(op);
        case AggStep => ok := ExecuteAggregate(op);
        case AggFinal => ok := ExecuteAggregate(op);
        case _ => ok := ExecuteCursor(op);
      }
      r := if ok then OutOfFuel else Failed;
    }

    /** Run until a row is ready, the program ends or fails, or the fuel is used up. */
    method Step(fuel: nat) returns (r: StepResult)
      modifies this
      ensures old(halted) ==> r == Complete && M() == old(M()) && halted
      ensures !old(halted) ==> Outcome(r) == Run(env, ops, old(M()), fuel) && halted == (r == Complete)
      ensures r == RowReady ==> Outcome(r).Row?
    {
      hide Exec;
      if halted {
        return Complete;
      }
      var left := fuel;
      while left > 0
        invariant !halted && Run(env, ops, M(), left) == Run(env, ops, old(M()), fuel)
      {
        if pc >= |ops| {
          halted := true;
          resultRow := None;
          return Complete;
        }
        pc := pc + 1;
        r := Execute(ops[pc - 1]);
        left := left - 1;
        if r != OutOfFuel {
          halted := r == Complete;
          return;
        }
      }
      r := OutOfFuel;
    }

    /** The registers of the last result row. */
    method CurrentRow() returns (row: seq<Mem>)
      requires Outcome(RowReady).Row?
      ensures row == Outcome(RowReady).row
    {
      row := regs[resultRow.value.0..resultRow.value.0 + resultRow.value.1];
    }

    /** Start again: registers that point to accumulators become NULL, the others stay. */
    method Reset()
      modifies this
      ensures pc == 0 && !halted && accs == [] && cursors == old(cursors) && tables == old(tables) && room == old(room)
      ensures |regs| == |old(regs)|
      ensures forall i :: 0 <= i < |regs| ==> regs[i] == if old(regs)[i].Agg? then Null else old(regs)[i]
    {
      pc, halted, resultRow, accs := 0, false, None, [];
      var i := 0;
      while i < |regs|
        invariant i <= |regs| == |old(regs)|
        invariant pc == 0 && !halted && accs == [] && cursors == old(cursors) && tables == old(tables) && room == old(room)
        invariant forall j :: 0 <= j < i ==> regs[j] == if old(regs)[j].Agg? then Null else old(regs)[j]
        invariant forall j :: i <= j < |regs| ==> regs[j] == old(regs)[j]
      {
        if regs[i].Agg? {
          regs := regs[i := Null];
        }
        i := i + 1;
      }
    }
  }
}
