/** Compiling a SELECT and stepping through the program. */
module Statement {
  import opened Bytes
  import opened Mem
  import opened Vdbe
  import opened Ast
  import opened ExprCode
  import opened ExprMeaning
  import opened Projection
  import opened SelectCode
  import opened SelectMeaning
  import opened GroupCode
  import opened GroupMeaning
  import opened GroupScan
  import opened Codegen
  import opened Interpreter

  /** Two runs of the same machine that have both stopped agree. */
  lemma SameStop(env: Env, prog: seq<VdbeOp>, m: Machine, a: nat, b: nat)
    requires !Run(env, prog, m, a).Next? && !Run(env, prog, m, b).Next?
    ensures Run(env, prog, m, a) == Run(env, prog, m, b)
  {
    hide Run;
    if a <= b {
      RunStopped(env, prog, m, a, b);
    } else {
      RunStopped(env, prog, m, b, a);
    }
  }

  lemma YieldsParts(env: Env, prog: seq<VdbeOp>, m: Machine, rows: seq<seq<Mem>>, ok: bool, ns: seq<nat>)
    requires Yields(env, prog, m, rows, ok, ns)
    ensures |ns| == |rows| + 1 && !Run(env, prog, m, ns[0]).Next?
    ensures
      var s := Run(env, prog, m, ns[0]);
      if rows == [] then s.Row? == false && s.Done? == ok
      else s.Row? && s.row == rows[0] && Yields(env, prog, s.m, rows[1..], ok, ns[1..])
  {
    hide Run;
  }

  function Largest(ns: seq<nat>): (n: nat)
    ensures forall i :: 0 <= i < |ns| ==> ns[i] <= n
  {
    if ns == [] then 0
    else
      var rest := Largest(ns[..|ns| - 1]);
      if ns[|ns| - 1] > rest then ns[|ns| - 1] else rest
  }

  /** Step until the program has ended or a step runs out of fuel. */
  method Drain(vm: Interpreter, fuel: nat, ghost answer: seq<seq<Mem>>, ghost ok: bool, ghost ns: seq<nat>) returns (rows: seq<seq<Mem>>, r: StepResult)
    requires !vm.halted && Yields(vm.env, vm.ops, vm.M(), answer, ok, ns)
    modifies vm
    ensures r == OutOfFuel ==> fuel < Largest(ns) && rows <= answer
    ensures r != OutOfFuel ==> rows == answer && r == (if ok then Complete else Failed)
  {
    hide Run, Yields;
    rows := [];
    ghost var left, ks := answer, ns;
    assert answer == [] + left;
    while true
      invariant !vm.halted && Yields(vm.env, vm.ops, vm.M(), left, ok, ks)
      invariant answer == rows + left && forall i :: 0 <= i < |ks| ==> ks[i] <= Largest(ns)
      decreases |left|
    {
      ghost var m := vm.M();
      YieldsParts(vm.env, vm.ops, m, left, ok, ks);
      r := vm.Step(fuel);
      if r == OutOfFuel {
        if fuel >= ks[0] {
          RunStopped(vm.env, vm.ops, m, ks[0], fuel);
        }
        return;
      }
      StoppedRun(vm, r, m, fuel);
      SameStop(vm.env, vm.ops, m, ks[0], fuel);
      if r != RowReady {
        return;
      }
      var row := vm.CurrentRow();
      rows := rows + [row];
      left, ks := left[1..], ks[1..];
    }
  }

  lemma StoppedRun(vm: Interpreter, r: StepResult, m: Machine, fuel: nat)
    requires r != OutOfFuel && vm.Outcome(r) == Run(vm.env, vm.ops, m, fuel)
    ensures !Run(vm.env, vm.ops, m, fuel).Next?
  {
    hide Run;
  }

  /**
    Compile a SELECT and run it. With enough fuel for every step, the rows returned are the answer
    and the last step completes exactly when every row could be evaluated.
   */
  method Execute(env: Env, q: Query, tables: map<int, seq<TableRow>>, fuel: nat) returns (compiled: bool, rows: seq<seq<Mem>>, r: StepResult, ghost enough: nat)
    requires q.root in tables
    ensures compiled == LayoutOf(q, 0, 0, 0).Some?
    ensures compiled && fuel >= enough ==> r != OutOfFuel
    ensures compiled && r != OutOfFuel ==>
      var a := Answers(env, q, LayoutOf(q, 0, 0, 0).value.items, tables[q.root], 0);
      rows == a.rows && r == if a.ok then Complete else Failed
  {
    hide LayoutOf, Yields, Answers, Run;
    var compiler := new Compiler();
    compiled := compiler.CompileSelect(q);
    rows, r, enough := [], Failed, 0;
    if !compiled {
      return;
    }
    var _ := compiler.Emit(Op(Halt, 0, 0, 0));
    ghost var l := LayoutOf(q, 0, 0, 0).value;
    LayoutPlace(q);
    assert [] + SelectOps(q, l) == SelectOps(q, l);
    var vm := new Interpreter(env, compiler.ops, compiler.nRegs, compiler.nCursors, tables, map[]);
    ghost var ns := SelectRuns(env, compiler.ops, q, l, tables[q.root], vm.M());
    ghost var a := Answers(env, q, l.items, tables[q.root], 0);
    enough := Largest(ns);
    rows, r := Drain(vm, fuel, a.rows, a.ok, ns);
  }

  lemma LayoutPlace(q: Query)
    requires LayoutOf(q, 0, 0, 0).Some?
    ensures var l := LayoutOf(q, 0, 0, 0).value; l.c == 0 && l.base == 0 && l.dst == 0
  {
  }

  /** Compile a GROUP BY and run it. */
  method ExecuteGroup(env: Env, q: GroupQuery, tables: map<int, seq<TableRow>>, fuel: nat) returns (compiled: bool, rows: seq<seq<Mem>>, r: StepResult, ghost enough: nat)
    requires q.root in tables && Floats(env)
    ensures compiled == GroupLayout(q, 0, 0, 0).Some?
    ensures compiled && fuel >= enough ==> r != OutOfFuel
    ensures compiled && r != OutOfFuel ==> var a := GroupAnswer(env, q, tables[q.root]); rows == a.rows && r == if a.ok then Complete else Failed
  {
    hide GroupLayout, Yields, GroupAnswer, Run, GroupOps, Floats;
    var compiler := new Compiler();
    compiled := compiler.CompileGroup(q);
    rows, r, enough := [], Failed, 0;
    if !compiled {
      return;
    }
    var _ := compiler.Emit(Op(Halt, 0, 0, 0));
    ghost var l := GroupLayout(q, 0, 0, 0).value;
    GroupPlace(q);
    assert [] + GroupOps(q, l) == GroupOps(q, l);
    var vm := new Interpreter(env, compiler.ops, compiler.nRegs, compiler.nCursors, tables, map[]);
    ghost var ns := GroupRuns(env, compiler.ops, q, l, tables[q.root], vm.M());
    ghost var a := GroupAnswer(env, q, tables[q.root]);
    enough := Largest(ns);
    rows, r := Drain(vm, fuel, a.rows, a.ok, ns);
  }

  lemma GroupPlace(q: GroupQuery)
    requires GroupLayout(q, 0, 0, 0).Some?
    ensures var l := GroupLayout(q, 0, 0, 0).value; l.c == 0 && l.base == 0 && l.reg == 0
  {
    hide ItemsOf, ListCodeOf, FilterOf;
  }
}
