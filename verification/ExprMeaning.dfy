/** Running the code of an expression computes its value. */
module ExprMeaning {
  import opened Bytes
  import opened Mem
  import opened Vdbe
  import opened Ast
  import opened ExprCode

  // ---- Straight-line execution ----

  /** `ops` is the part of the program at address `base`. */
  ghost predicate At(prog: seq<VdbeOp>, base: nat, ops: seq<VdbeOp>) {
    base + |ops| <= |prog| && forall i :: 0 <= i < |ops| ==> prog[base + i] == ops[i]
  }

  lemma AtSplit(prog: seq<VdbeOp>, base: nat, a: seq<VdbeOp>, b: seq<VdbeOp>)
    requires At(prog, base, a + b)
    ensures At(prog, base, a) && At(prog, base + |a|, b)
  {
    forall i | 0 <= i < |a| ensures prog[base + i] == a[i] {
      assert (a + b)[i] == a[i];
    }
    forall i | 0 <= i < |b| ensures prog[base + |a| + i] == b[i] {
      assert (a + b)[|a| + i] == b[i];
    }
  }

  /** One more instruction, `op`, after n. */
  lemma Then(env: Env, prog: seq<VdbeOp>, m0: Machine, n: nat, m: Machine, op: VdbeOp)
    requires Run(env, prog, m0, n) == Next(m) && m.pc < |prog| && prog[m.pc] == op
    ensures
      var s := Exec(env, op, m.(pc := m.pc + 1));
      Run(env, prog, m0, n + 1) == s
  {
    hide Exec;
    RunCompose(env, prog, m0, n, m, 1);
    assert Run(env, prog, m, 1) == Advance(env, prog, m) by {
      OneStep(env, prog, m);
    }
  }

  lemma OneStep(env: Env, prog: seq<VdbeOp>, m: Machine)
    ensures Run(env, prog, m, 1) == Advance(env, prog, m)
  {
    hide Advance;
    var s := Advance(env, prog, m);
    assert s.Next? ==> Run(env, prog, s.m, 0) == s;
  }

  /** Registers below `reg` are as they were. */
  ghost predicate Kept(a: seq<Mem>, b: seq<Mem>, reg: nat) {
    |a| == |b| && forall i :: 0 <= i < reg && i < |a| ==> a[i] == b[i]
  }

  /** Run stops at address `end` with nothing changed but registers from `reg` on. */
  ghost predicate Reaches(env: Env, prog: seq<VdbeOp>, m: Machine, n: nat, end: nat, out: seq<Mem>, reg: nat) {
    Run(env, prog, m, n) == Next(m.(pc := end, regs := out)) && Kept(m.regs, out, reg)
  }

  lemma ReachesThen(env: Env, prog: seq<VdbeOp>, m: Machine, n: nat, mid: nat, regs: seq<Mem>, reg: nat, k: nat, end: nat, out: seq<Mem>, next: nat)
    requires Reaches(env, prog, m, n, mid, regs, reg) && Reaches(env, prog, m.(pc := mid, regs := regs), k, end, out, next) && reg <= next
    ensures Reaches(env, prog, m, n + k, end, out, reg)
  {
    hide Run;
    RunCompose(env, prog, m, n, m.(pc := mid, regs := regs), k);
  }

  /** A register instruction that puts v into register r. */
  lemma PutStep(env: Env, prog: seq<VdbeOp>, m0: Machine, n: nat, pc: nat, regs: seq<Mem>, reg: nat, op: VdbeOp, r: nat, v: Mem)
    requires Reaches(env, prog, m0, n, pc, regs, reg) && pc < |prog| && prog[pc] == op && reg <= r < |regs|
    requires Exec(env, op, m0.(pc := pc + 1, regs := regs)) == Put(m0.(pc := pc + 1, regs := regs), r, v)
    ensures Reaches(env, prog, m0, n + 1, pc + 1, regs[r := v], reg)
  {
    hide Run, Exec;
    Then(env, prog, m0, n, m0.(pc := pc, regs := regs), op);
  }

  /** A jump instruction. */
  lemma JumpStep(env: Env, prog: seq<VdbeOp>, m0: Machine, n: nat, pc: nat, regs: seq<Mem>, reg: nat, op: VdbeOp, end: nat)
    requires Reaches(env, prog, m0, n, pc, regs, reg) && pc < |prog| && prog[pc] == op
    requires Exec(env, op, m0.(pc := pc + 1, regs := regs)) == Next(m0.(pc := end, regs := regs))
    ensures Reaches(env, prog, m0, n + 1, end, regs, reg)
  {
    hide Run, Exec;
    Then(env, prog, m0, n, m0.(pc := pc, regs := regs), op);
  }

  lemma FailStep(env: Env, prog: seq<VdbeOp>, m0: Machine, n: nat, pc: nat, regs: seq<Mem>, reg: nat, op: VdbeOp)
    requires Reaches(env, prog, m0, n, pc, regs, reg) && pc < |prog| && prog[pc] == op
    requires Exec(env, op, m0.(pc := pc + 1, regs := regs)) == Fail
    ensures Run(env, prog, m0, n + 1) == Fail
  {
    hide Run, Exec;
    Then(env, prog, m0, n, m0.(pc := pc, regs := regs), op);
  }

  lemma Stay(env: Env, prog: seq<VdbeOp>, m: Machine, reg: nat)
    ensures Reaches(env, prog, m, 0, m.pc, m.regs, reg)
  {
  }

  // ---- What each instruction does ----

  lemma IntegerOp(env: Env, m: Machine, i: int, r: nat)
    requires -0x8000_0000 <= i < 0x8000_0000
    ensures Exec(env, Op(Integer, i, r, 0), m) == Put(m, r, Int(i))
  {
  }

  lemma GotoOp(env: Env, m: Machine, t: nat)
    ensures Exec(env, Op(Goto, 0, t, 0), m) == Next(m.(pc := t))
  {
  }

  lemma CompareOp(env: Env, m: Machine, c: Comparison, l: nat, r: nat, t: nat)
    requires l < |m.regs| && r < |m.regs|
    ensures Exec(env, Op(Jump(c), r, t, l), m) == Next(if Holds(env, c, m.regs[l], m.regs[r]) then m.(pc := t) else m)
  {
    hide Holds;
  }

  /** The comparison block leaves 1 or 0. */
  lemma CompareRuns(env: Env, prog: seq<VdbeOp>, m: Machine, c: Comparison, l: nat, r: nat, res: nat) returns (n: nat, out: seq<Mem>)
    requires At(prog, m.pc, CompareOps(c, l, r, res, m.pc)) && l < res && r < res < |m.regs|
    ensures Reaches(env, prog, m, n, m.pc + 4, out, res) && out[res] == BoolMem(Holds(env, c, m.regs[l], m.regs[r]))
  {
    hide Exec, Run, Holds, Reaches;
    var a := m.pc;
    var ops := CompareOps(c, l, r, res, a);
    assert prog[a + 0] == ops[0] && prog[a + 1] == ops[1] && prog[a + 2] == ops[2] && prog[a + 3] == ops[3];
    Stay(env, prog, m, res);
    IntegerOp(env, m.(pc := a + 1), 0, res);
    PutStep(env, prog, m, 0, a, m.regs, res, ops[0], res, Int(0));
    out := m.regs[res := Int(0)];
    CompareOp(env, m.(pc := a + 2, regs := out), c, l, r, a + 3);
    if Holds(env, c, m.regs[l], m.regs[r]) {
      JumpStep(env, prog, m, 1, a + 1, out, res, ops[1], a + 3);
      IntegerOp(env, m.(pc := a + 4, regs := out), 1, res);
      PutStep(env, prog, m, 2, a + 3, out, res, ops[3], res, Int(1));
      n, out := 3, out[res := Int(1)];
    } else {
      JumpStep(env, prog, m, 1, a + 1, out, res, ops[1], a + 2);
      GotoOp(env, m.(pc := a + 3, regs := out), a + 4);
      JumpStep(env, prog, m, 2, a + 2, out, res, ops[2], a + 4);
      n := 3;
    }
  }

  lemma NullTestOp(env: Env, m: Machine, x: nat, t: nat)
    requires x < |m.regs|
    ensures Exec(env, Op(IsNull, x, t, 0), m) == Next(if m.regs[x] == Null then m.(pc := t) else m)
    ensures Exec(env, Op(NotNull, x, t, 0), m) == Next(if m.regs[x] != Null then m.(pc := t) else m)
  {
  }

  lemma NullOpOp(env: Env, m: Machine, r: nat)
    ensures Exec(env, Op(NullOp, 0, r, 0), m) == Put(m, r, Null)
  {
  }

  /** The block of NOT. */
  lemma NotRuns(env: Env, prog: seq<VdbeOp>, m: Machine, x: nat, res: nat) returns (n: nat, out: seq<Mem>)
    requires At(prog, m.pc, NotOps(x, res, m.pc)) && x < res && res + 1 < |m.regs|
    ensures Reaches(env, prog, m, n, m.pc + 8, out, res) && out[res] == Negated(env, m.regs[x])
  {
    hide Exec, Run, Holds, Reaches;
    var a := m.pc;
    var ops := NotOps(x, res, a);
    assert prog[a + 0] == ops[0] && prog[a + 1] == ops[1] && prog[a + 2] == ops[2] && prog[a + 3] == ops[3];
    assert prog[a + 4] == ops[4] && prog[a + 5] == ops[5] && prog[a + 6] == ops[6] && prog[a + 7] == ops[7];
    Stay(env, prog, m, res);
    NullTestOp(env, m.(pc := a + 1), x, a + 7);
    if m.regs[x] == Null {
      JumpStep(env, prog, m, 0, a, m.regs, res, ops[0], a + 7);
      NullOpOp(env, m.(pc := a + 8), res);
      PutStep(env, prog, m, 1, a + 7, m.regs, res, ops[7], res, Null);
      n, out := 2, m.regs[res := Null];
    } else {
      JumpStep(env, prog, m, 0, a, m.regs, res, ops[0], a + 1);
      IntegerOp(env, m.(pc := a + 2), 0, res);
      PutStep(env, prog, m, 1, a + 1, m.regs, res, ops[1], res, Int(0));
      out := m.regs[res := Int(0)];
      IntegerOp(env, m.(pc := a + 3, regs := out), 0, res + 1);
      PutStep(env, prog, m, 2, a + 2, out, res, ops[2], res + 1, Int(0));
      out := out[res + 1 := Int(0)];
      n, out := NotTail(env, prog, m, x, res, out);
    }
  }

  lemma NotTail(env: Env, prog: seq<VdbeOp>, m: Machine, x: nat, res: nat, regs: seq<Mem>) returns (n: nat, out: seq<Mem>)
    requires At(prog, m.pc, NotOps(x, res, m.pc)) && x < res && res + 1 < |m.regs| && m.regs[x] != Null
    requires Reaches(env, prog, m, 3, m.pc + 3, regs, res) && |regs| == |m.regs| && regs[res] == regs[res + 1] == Int(0) && regs[x] == m.regs[x]
    ensures Reaches(env, prog, m, n, m.pc + 8, out, res) && |out| == |m.regs| && out[res] == Negated(env, m.regs[x])
  {
    hide Exec, Run, Holds, Reaches;
    var a := m.pc;
    var ops := NotOps(x, res, a);
    assert prog[a + 3] == ops[3] && prog[a + 4] == ops[4] && prog[a + 5] == ops[5] && prog[a + 6] == ops[6];
    CompareOp(env, m.(pc := a + 4, regs := regs), Eq, x, res + 1, a + 5);
    if Holds(env, Eq, regs[x], Int(0)) {
      JumpStep(env, prog, m, 3, a + 3, regs, res, ops[3], a + 5);
      IntegerOp(env, m.(pc := a + 6, regs := regs), 1, res);
      PutStep(env, prog, m, 4, a + 5, regs, res, ops[5], res, Int(1));
      out := regs[res := Int(1)];
      GotoOp(env, m.(pc := a + 7, regs := out), a + 8);
      JumpStep(env, prog, m, 5, a + 6, out, res, ops[6], a + 8);
      n := 6;
    } else {
      JumpStep(env, prog, m, 3, a + 3, regs, res, ops[3], a + 4);
      GotoOp(env, m.(pc := a + 5, regs := regs), a + 8);
      JumpStep(env, prog, m, 4, a + 4, regs, res, ops[4], a + 8);
      n, out := 5, regs;
    }
  }

  // ---- Values ----

  /** Running from m evaluates to v: it ends at `end` with v in register `result`, or fails when v is None. */
  ghost predicate Evaluates(env: Env, prog: seq<VdbeOp>, m: Machine, n: nat, end: nat, out: seq<Mem>, reg: nat, result: nat, v: Option<Mem>) {
    match v
    case None => Run(env, prog, m, n) == Fail
    case Some(x) => Reaches(env, prog, m, n, end, out, reg) && |out| == |m.regs| && result < |out| && out[result] == x
  }

  /** The scope's registers and cursor hold what the context says. */
  ghost predicate Fits(sc: Scope, ctx: Context, m: Machine, reg: nat) {
    && |sc.bound| == |ctx.known|
    && (forall i :: 0 <= i < |sc.bound| ==>
         sc.bound[i].0 == ctx.known[i].0 && sc.bound[i].1 < reg && sc.bound[i].1 < |m.regs| && m.regs[sc.bound[i].1] == ctx.known[i].1)
    && (match sc.table
        case None => ctx.columns == None
        case Some(t) => ctx.columns == Some(t.columns) && ctx.data == RecordAt(m, t.cursor))
  }

  lemma {:induction false} FindKnown(bound: Bound, known: seq<(Expr, Mem)>, e: Expr)
    requires |bound| == |known| && forall i :: 0 <= i < |bound| ==> bound[i].0 == known[i].0
    ensures Find(bound, e).Some? == Known(known, e).Some?
    ensures Find(bound, e).Some? ==>
      exists i :: 0 <= i < |bound| && Find(bound, e).value == bound[i].1 && Known(known, e).value == known[i].1
    decreases |bound|
  {
    if bound != [] && bound[0].0 != e {
      FindKnown(bound[1..], known[1..], e);
      if Find(bound, e).Some? {
        var i :| 0 <= i < |bound[1..]| && Find(bound[1..], e).value == bound[1..][i].1 && Known(known[1..], e).value == known[1..][i].1;
        assert Find(bound, e).value == bound[i + 1].1 && Known(known, e).value == known[i + 1].1;
      }
    } else if bound != [] {
      assert Find(bound, e).value == bound[0].1;
    }
  }

  lemma FitsLater(sc: Scope, ctx: Context, m: Machine, reg: nat, pc: nat, regs: seq<Mem>, next: nat)
    requires Fits(sc, ctx, m, reg) && Kept(m.regs, regs, reg) && reg <= next
    ensures Fits(sc, ctx, m.(pc := pc, regs := regs), next)
  {
  }

  lemma ReachesKept(env: Env, prog: seq<VdbeOp>, m: Machine, n: nat, end: nat, out: seq<Mem>, reg: nat)
    requires Reaches(env, prog, m, n, end, out, reg)
    ensures Kept(m.regs, out, reg)
  {
  }

  /** A single instruction that computes v into register r. */
  lemma OneOp(env: Env, prog: seq<VdbeOp>, m: Machine, op: VdbeOp, r: nat, reg: nat, v: Option<Mem>) returns (n: nat, out: seq<Mem>)
    requires At(prog, m.pc, [op]) && reg <= r < |m.regs|
    requires Exec(env, op, m.(pc := m.pc + 1)) == match v case None => Fail case Some(x) => Put(m.(pc := m.pc + 1), r, x)
    ensures Evaluates(env, prog, m, n, m.pc + 1, out, reg, r, v)
  {
    hide Exec, Run, Reaches;
    n := 1;
    Stay(env, prog, m, reg);
    assert prog[m.pc + 0] == [op][0];
    match v
    case None =>
      out := m.regs;
      FailStep(env, prog, m, 0, m.pc, m.regs, reg, op);
    case Some(x) =>
      out := m.regs[r := x];
      PutStep(env, prog, m, 0, m.pc, m.regs, reg, op, r, x);
  }

  /** The same after some other code. */
  lemma EvaluatesThen(env: Env, prog: seq<VdbeOp>, m: Machine, n: nat, mid: nat, regs: seq<Mem>, reg: nat, k: nat, end: nat, out: seq<Mem>, next: nat, result: nat, v: Option<Mem>)
    requires Reaches(env, prog, m, n, mid, regs, reg) && reg <= next
    requires Evaluates(env, prog, m.(pc := mid, regs := regs), k, end, out, next, result, v)
    ensures Evaluates(env, prog, m, n + k, end, out, reg, result, v)
  {
    hide Run;
    RunCompose(env, prog, m, n, m.(pc := mid, regs := regs), k);
    if v.Some? {
      ReachesThen(env, prog, m, n, mid, regs, reg, k, end, out, next);
    }
  }

  lemma {:induction false} ListBounds(es: Exprs, sc: Scope, base: nat, reg: nat)
    requires ListCodeOf(es, sc, base, reg).Some?
    ensures |ListCodeOf(es, sc, base, reg).value.results| == Count(es)
    decreases es
  {
    hide CodeOf;
    if es.Cons? {
      var c := CodeOf(es.head, sc, base, reg).value;
      ListBounds(es.tail, sc, base + |c.ops|, c.next);
    }
  }

  lemma CalcOp(env: Env, m: Machine, a: Arithmetic, l: nat, r: nat, res: nat)
    requires l < |m.regs| && r < |m.regs|
    ensures Exec(env, Op(Calc(a), r, l, res), m) == match Compute(env, a, m.regs[l], m.regs[r]) case None => Fail case Some(x) => Put(m, res, x)
  {
    hide Compute;
  }

  lemma MinusRuns(env: Env, prog: seq<VdbeOp>, m: Machine, x: nat, r: nat) returns (n: nat, out: seq<Mem>)
    requires At(prog, m.pc, [Op(Integer, 0, r, 0), Op(Calc(Sub), x, r, r)]) && x < r < |m.regs|
    ensures Evaluates(env, prog, m, n, m.pc + 2, out, r, r, Compute(env, Sub, Int(0), m.regs[x]))
  {
    hide Exec, Run, Reaches, Evaluates, Compute;
    var a := m.pc;
    var ops := [Op(Integer, 0, r, 0), Op(Calc(Sub), x, r, r)];
    assert prog[a + 0] == ops[0] && prog[a + 1] == ops[1];
    Stay(env, prog, m, r);
    IntegerOp(env, m.(pc := a + 1), 0, r);
    PutStep(env, prog, m, 0, a, m.regs, r, ops[0], r, Int(0));
    out := m.regs[r := Int(0)];
    var m1 := m.(pc := a + 1, regs := out);
    CalcOp(env, m1.(pc := a + 2), Sub, r, x, r);
    var k, regs := OneOp(env, prog, m1, ops[1], r, r, Compute(env, Sub, Int(0), m.regs[x]));
    EvaluatesThen(env, prog, m, 1, a + 1, out, r, k, a + 2, regs, r, r, Compute(env, Sub, Int(0), m.regs[x]));
    n, out := 1 + k, regs;
  }

  lemma CopyOp(env: Env, m: Machine, x: nat, r: nat)
    requires x < |m.regs|
    ensures Exec(env, Op(Copy, x, r, 0), m) == Put(m, r, m.regs[x])
  {
  }

  /** The block that copies registers holds their values afterwards. */
  lemma {:induction false} CopiesRun(env: Env, prog: seq<VdbeOp>, m: Machine, results: seq<nat>, start: nat) returns (out: seq<Mem>)
    requires At(prog, m.pc, CopyOps(results, start)) && start + |results| <= |m.regs|
    requires forall i :: 0 <= i < |results| ==> results[i] < start
    ensures Reaches(env, prog, m, |results|, m.pc + |results|, out, start) && |out| == |m.regs|
    ensures forall i :: 0 <= i < |results| ==> out[start + i] == m.regs[results[i]]
    decreases |results|
  {
    hide Exec, Run, Reaches;
    Stay(env, prog, m, start);
    out := m.regs;
    if results != [] {
      var k := |results| - 1;
      var init := results[..k];
      var op := Op(Copy, results[k], start + k, 0);
      AtSplit(prog, m.pc, CopyOps(init, start), [op]);
      out := CopiesRun(env, prog, m, init, start);
      ReachesKept(env, prog, m, k, m.pc + k, out, start);
      CopyOp(env, m.(pc := m.pc + k + 1, regs := out), results[k], start + k);
      assert prog[m.pc + k + 0] == [op][0];
      PutStep(env, prog, m, k, m.pc + k, out, start, op, start + k, out[results[k]]);
      out := out[start + k := out[results[k]]];
    }
  }

  lemma FunctionOp(env: Env, m: Machine, name: string, n: nat, start: nat, dest: nat)
    requires n > 0 ==> start + n <= |m.regs|
    ensures
      var args := if n > 0 then m.regs[start..start + n] else [];
      Exec(env, VdbeOp(Function, n, if n > 0 then start else 0, dest, P4Text(name, []), 0), m)
      == match env.call(name, args) case None => Fail case Some(v) => Put(m, dest, v)
  {
  }

  /** The end of a call: copy the arguments into a block, then call. */
  lemma CallRuns(env: Env, prog: seq<VdbeOp>, m: Machine, name: string, results: seq<nat>, start: nat, args: seq<Mem>) returns (n: nat, out: seq<Mem>)
    requires
      var k := |results|;
      At(prog, m.pc, CopyOps(results, start) + [VdbeOp(Function, k, if k > 0 then start else 0, start + k, P4Text(name, []), 0)])
    requires start + |results| < |m.regs| && |args| == |results|
    requires forall i :: 0 <= i < |results| ==> results[i] < start && m.regs[results[i]] == args[i]
    ensures Evaluates(env, prog, m, n, m.pc + |results| + 1, out, start, start + |results|, env.call(name, args))
  {
    hide Exec, Run, Reaches, Evaluates;
    var k := |results|;
    var op := VdbeOp(Function, k, if k > 0 then start else 0, start + k, P4Text(name, []), 0);
    AtSplit(prog, m.pc, CopyOps(results, start), [op]);
    var regs := CopiesRun(env, prog, m, results, start);
    var m1 := m.(pc := m.pc + k, regs := regs);
    FunctionOp(env, m1.(pc := m1.pc + 1), name, k, start, start + k);
    assert (if k > 0 then regs[start..start + k] else []) == args;
    var j, regs' := OneOp(env, prog, m1, op, start + k, start, env.call(name, args));
    EvaluatesThen(env, prog, m, k, m.pc + k, regs, start, j, m.pc + k + 1, regs', start, start + k, env.call(name, args));
    n, out := k + j, regs';
  }

  lemma StringOp(env: Env, m: Machine, text: string, bytes: Data, r: nat)
    ensures Exec(env, VdbeOp(String8, 0, r, 0, P4Text(text, bytes), 0), m) == Put(m, r, Text(bytes))
  {
  }

  lemma NowRuns(env: Env, prog: seq<VdbeOp>, m: Machine, name: string, reg: nat) returns (n: nat, out: seq<Mem>)
    requires At(prog, m.pc, NowCode(name, reg)) && reg + 1 < |m.regs|
    ensures Evaluates(env, prog, m, n, m.pc + 2, out, reg, reg, env.call(name, [NOW]))
  {
    hide Exec, Run, Reaches, Evaluates;
    var ops := NowCode(name, reg);
    assert prog[m.pc + 0] == ops[0] && prog[m.pc + 1] == ops[1];
    Stay(env, prog, m, reg);
    StringOp(env, m.(pc := m.pc + 1), "now", [110, 111, 119], reg + 1);
    PutStep(env, prog, m, 0, m.pc, m.regs, reg, ops[0], reg + 1, NOW);
    var regs := m.regs[reg + 1 := NOW];
    var m1 := m.(pc := m.pc + 1, regs := regs);
    FunctionOp(env, m1.(pc := m.pc + 2), name, 1, reg + 1, reg);
    assert regs[reg + 1..reg + 1 + 1] == [NOW];
    var j, regs' := OneOp(env, prog, m1, ops[1], reg, reg, env.call(name, [NOW]));
    EvaluatesThen(env, prog, m, 1, m.pc + 1, regs, reg, j, m.pc + 2, regs', reg, reg, env.call(name, [NOW]));
    n, out := 1 + j, regs';
  }

  lemma LiteralOps(env: Env, m: Machine, r: nat)
    ensures forall i: I64 :: -0x8000_0000 <= i < 0x8000_0000 ==> Exec(env, Op(Integer, i, r, 0), m) == Put(m, r, Int(i))
    ensures forall f: Double :: Exec(env, VdbeOp(RealOp, 0, r, 0, P4Real(f), 0), m) == Put(m, r, Real(f))
    ensures Exec(env, Op(NullOp, 0, r, 0), m) == Put(m, r, Null)
  {
  }

  lemma LiteralRuns(env: Env, prog: seq<VdbeOp>, m: Machine, l: Literal, reg: nat) returns (n: nat, out: seq<Mem>)
    requires LiteralCode(l, reg).Some? && At(prog, m.pc, LiteralCode(l, reg).value.ops) && LiteralCode(l, reg).value.next <= |m.regs|
    ensures Evaluates(env, prog, m, n, m.pc + |LiteralCode(l, reg).value.ops|, out, reg, reg, LiteralValue(env, l))
  {
    hide Exec, Run, Reaches, Evaluates;
    var ops := LiteralCode(l, reg).value.ops;
    if l.CurrentDate? {
      n, out := NowRuns(env, prog, m, "date", reg);
    } else if l.CurrentTime? {
      n, out := NowRuns(env, prog, m, "time", reg);
    } else if l.CurrentTimestamp? {
      n, out := NowRuns(env, prog, m, "datetime", reg);
    } else {
      LiteralOps(env, m.(pc := m.pc + 1), reg);
      if l.Str? {
        StringOp(env, m.(pc := m.pc + 1), l.text, l.bytes, reg);
      }
      n, out := OneOp(env, prog, m, ops[0], reg, reg, LiteralValue(env, l));
    }
  }

  lemma ColumnOp(env: Env, m: Machine, c: nat, i: nat, r: nat)
    ensures
      var v := match RecordAt(m, c) case None => None case Some(data) => FieldOf(env, data, i);
      Exec(env, Op(Opcode.Column, c, i, r), m) == match v case None => Fail case Some(x) => Put(m, r, x)
  {
    hide FieldOf, RecordAt;
  }

  // ---- The theorem ----

  /** The values of a list sit in the listed registers. */
  ghost predicate EvaluatesAll(env: Env, prog: seq<VdbeOp>, m: Machine, n: nat, end: nat, out: seq<Mem>, reg: nat, c: ListCode, vs: Option<seq<Mem>>) {
    match vs
    case None => Run(env, prog, m, n) == Fail
    case Some(xs) =>
      && Reaches(env, prog, m, n, end, out, reg) && |out| == |m.regs| && |xs| == |c.results|
      && forall i :: 0 <= i < |xs| ==> c.results[i] < c.next && c.results[i] < |out| && out[c.results[i]] == xs[i]
  }

  /**
    Running the code of an accepted expression stops exactly at its end with the expression's value
    in the result register and every earlier register unchanged, and fails exactly when evaluating
    the expression fails.
   */
  lemma {:induction false} ExprRuns(env: Env, prog: seq<VdbeOp>, e: Expr, sc: Scope, reg: nat, m: Machine, ctx: Context) returns (n: nat, out: seq<Mem>)
    requires CodeOf(e, sc, m.pc, reg).Some?
    requires At(prog, m.pc, CodeOf(e, sc, m.pc, reg).value.ops) && CodeOf(e, sc, m.pc, reg).value.next <= |m.regs|
    requires Fits(sc, ctx, m, reg)
    ensures
      var c := CodeOf(e, sc, m.pc, reg).value;
      c.result < c.next && Evaluates(env, prog, m, n, m.pc + |c.ops|, out, reg, c.result, Eval(env, e, ctx))
    decreases e, 1
  {
    hide Run, Reaches, Evaluates, EvaluatesAll, Fits, At, RecordAt, FieldOf, Compute, LiteralCode, LiteralValue, BinaryCode, BinaryValue, CallCode, Position, NotOps;
    var c := CodeOf(e, sc, m.pc, reg).value;
    FitsFacts(sc, ctx, m, reg, e);
    if Find(sc.bound, e).Some? {
      n, out := 0, m.regs;
      Stay(env, prog, m, reg);
      EvaluatesSome(env, prog, m, 0, m.pc, out, reg, c.result, Eval(env, e, ctx).value);
    } else {
      match e
      case Literal(l) =>
        n, out := LiteralRuns(env, prog, m, l, reg);
        LiteralNext(l, reg);
      case Column(name) =>
        n, out := ColumnRuns(env, prog, m, name, sc, ctx, reg);
      case Unary(Plus, x) =>
        n, out := ExprRuns(env, prog, x, sc, reg, m, ctx);
      case Unary(Minus, x) =>
        n, out := MinusCase(env, prog, x, sc, reg, m, ctx);
      case Unary(Not, x) =>
        n, out := NotCase(env, prog, x, sc, reg, m, ctx);
      case Binary(op, x, y) =>
        n, out := BinaryCase(env, prog, op, x, y, sc, reg, m, ctx);
      case Call(name, kind, list) =>
        n, out := CallCase(env, prog, name, kind, list, sc, reg, m, ctx);
    }
  }

  lemma LiteralNext(l: Literal, reg: nat)
    requires LiteralCode(l, reg).Some?
    ensures LiteralCode(l, reg).value.result == reg < LiteralCode(l, reg).value.next
  {
  }

  /** What Fits says about the expression at hand. */
  lemma FitsFacts(sc: Scope, ctx: Context, m: Machine, reg: nat, e: Expr)
    requires Fits(sc, ctx, m, reg)
    ensures Find(sc.bound, e).Some? == Known(ctx.known, e).Some?
    ensures Find(sc.bound, e).Some? ==>
      var r := Find(sc.bound, e).value; r < reg && r < |m.regs| && m.regs[r] == Known(ctx.known, e).value
  {
    FindKnown(sc.bound, ctx.known, e);
  }

  lemma EvaluatesSome(env: Env, prog: seq<VdbeOp>, m: Machine, n: nat, end: nat, out: seq<Mem>, reg: nat, result: nat, v: Mem)
    requires Reaches(env, prog, m, n, end, out, reg) && |out| == |m.regs| && result < |out| && out[result] == v
    ensures Evaluates(env, prog, m, n, end, out, reg, result, Some(v))
  {
  }

  lemma ColumnRuns(env: Env, prog: seq<VdbeOp>, m: Machine, name: string, sc: Scope, ctx: Context, reg: nat) returns (n: nat, out: seq<Mem>)
    requires sc.table.Some? && Position(sc.table.value.columns, name).Some? && Fits(sc, ctx, m, reg) && reg < |m.regs|
    requires At(prog, m.pc, [Op(Opcode.Column, sc.table.value.cursor, Position(sc.table.value.columns, name).value, reg)])
    ensures Evaluates(env, prog, m, n, m.pc + 1, out, reg, reg, ColumnValue(env, name, ctx))
  {
    hide Run, Reaches, Evaluates, RecordAt, FieldOf, Exec;
    var t := sc.table.value;
    var i := Position(t.columns, name).value;
    ColumnOp(env, m.(pc := m.pc + 1), t.cursor, i, reg);
    RecordMoved(m, t.cursor);
    n, out := OneOp(env, prog, m, Op(Opcode.Column, t.cursor, i, reg), reg, reg, ColumnValue(env, name, ctx));
  }

  lemma RecordMoved(m: Machine, c: nat)
    ensures RecordAt(m.(pc := m.pc + 1), c) == RecordAt(m, c)
  {
  }

  /** What is known after the code of a sub-expression: either the whole run has failed, or the rest starts from there. */
  lemma AfterPart(env: Env, prog: seq<VdbeOp>, m: Machine, n: nat, end: nat, out: seq<Mem>, reg: nat, result: nat, v: Option<Mem>)
    requires Evaluates(env, prog, m, n, end, out, reg, result, v)
    ensures v == None ==> Run(env, prog, m, n) == Fail
    ensures v.Some? ==>
      Reaches(env, prog, m, n, end, out, reg) && |out| == |m.regs| && result < |out| && out[result] == v.value && Kept(m.regs, out, reg)
  {
  }

  lemma Failed(env: Env, prog: seq<VdbeOp>, m: Machine, n: nat, end: nat, out: seq<Mem>, reg: nat, result: nat)
    requires Run(env, prog, m, n) == Fail
    ensures Evaluates(env, prog, m, n, end, out, reg, result, None)
  {
  }

  lemma MinusCase(env: Env, prog: seq<VdbeOp>, x: Expr, sc: Scope, reg: nat, m: Machine, ctx: Context) returns (n: nat, out: seq<Mem>)
    requires CodeOf(x, sc, m.pc, reg).Some? && Fits(sc, ctx, m, reg)
    requires
      var c := CodeOf(x, sc, m.pc, reg).value;
      At(prog, m.pc, c.ops + [Op(Integer, 0, c.next, 0), Op(Calc(Sub), c.result, c.next, c.next)]) && c.next < |m.regs|
    ensures
      var c := CodeOf(x, sc, m.pc, reg).value;
      var v := match Eval(env, x, ctx) case None => None case Some(v) => Compute(env, Sub, Int(0), v);
      Evaluates(env, prog, m, n, m.pc + |c.ops| + 2, out, reg, c.next, v)
    decreases Unary(Minus, x), 0
  {
    hide Run, Reaches, Evaluates, Fits, At, Compute, CodeOf, Eval;
    var c := CodeOf(x, sc, m.pc, reg).value;
    AtSplit(prog, m.pc, c.ops, [Op(Integer, 0, c.next, 0), Op(Calc(Sub), c.result, c.next, c.next)]);
    n, out := ExprRuns(env, prog, x, sc, reg, m, ctx);
    var v := Eval(env, x, ctx);
    AfterPart(env, prog, m, n, m.pc + |c.ops|, out, reg, c.result, v);
    if v == None {
      Failed(env, prog, m, n, m.pc + |c.ops| + 2, out, reg, c.next);
    } else {
      var k, regs := MinusRuns(env, prog, m.(pc := m.pc + |c.ops|, regs := out), c.result, c.next);
      EvaluatesThen(env, prog, m, n, m.pc + |c.ops|, out, reg, k, m.pc + |c.ops| + 2, regs, c.next, c.next, Compute(env, Sub, Int(0), v.value));
      n, out := n + k, regs;
    }
  }

  lemma NotCase(env: Env, prog: seq<VdbeOp>, x: Expr, sc: Scope, reg: nat, m: Machine, ctx: Context) returns (n: nat, out: seq<Mem>)
    requires CodeOf(x, sc, m.pc, reg).Some? && Fits(sc, ctx, m, reg)
    requires
      var c := CodeOf(x, sc, m.pc, reg).value;
      At(prog, m.pc, c.ops + NotOps(c.result, c.next, m.pc + |c.ops|)) && c.next + 2 <= |m.regs|
    ensures
      var c := CodeOf(x, sc, m.pc, reg).value;
      var v := match Eval(env, x, ctx) case None => None case Some(v) => Some(Negated(env, v));
      Evaluates(env, prog, m, n, m.pc + |c.ops| + 8, out, reg, c.next, v)
    decreases Unary(Not, x), 0
  {
    hide Run, Reaches, Evaluates, Fits, At, CodeOf, Eval, NotOps;
    var c := CodeOf(x, sc, m.pc, reg).value;
    AtSplit(prog, m.pc, c.ops, NotOps(c.result, c.next, m.pc + |c.ops|));
    n, out := ExprRuns(env, prog, x, sc, reg, m, ctx);
    var v := Eval(env, x, ctx);
    AfterPart(env, prog, m, n, m.pc + |c.ops|, out, reg, c.result, v);
    if v == None {
      Failed(env, prog, m, n, m.pc + |c.ops| + 8, out, reg, c.next);
    } else {
      var m1 := m.(pc := m.pc + |c.ops|, regs := out);
      var k, regs := NotRuns(env, prog, m1, c.result, c.next);
      ReachesKept(env, prog, m1, k, m.pc + |c.ops| + 8, regs, c.next);
      EvaluatesSome(env, prog, m1, k, m.pc + |c.ops| + 8, regs, c.next, c.next, Negated(env, v.value));
      EvaluatesThen(env, prog, m, n, m.pc + |c.ops|, out, reg, k, m.pc + |c.ops| + 8, regs, c.next, c.next, Some(Negated(env, v.value)));
      n, out := n + k, regs;
    }
  }

  /** The instruction or block after both operands. */
  lemma BinaryRuns(env: Env, prog: seq<VdbeOp>, m: Machine, op: BinaryOp, l: Code, r: Code, base: nat) returns (n: nat, out: seq<Mem>)
    requires BinaryCode(op, l, r, base).Some? && m.pc == base + |l.ops| + |r.ops| && r.next < |m.regs|
    requires At(prog, base, BinaryCode(op, l, r, base).value.ops) && l.result < r.next && r.result < r.next
    ensures
      var c := BinaryCode(op, l, r, base).value;
      c.result == r.next && c.next == r.next + 1
      && Evaluates(env, prog, m, n, base + |c.ops|, out, r.next, r.next, BinaryValue(env, op, m.regs[l.result], m.regs[r.result]))
  {
    hide Run, Reaches, Evaluates, Exec, Compute, Holds;
    match op
    case Arith(a) =>
      var ins := Op(Calc(a), r.result, l.result, r.next);
      AtSplit(prog, base, l.ops + r.ops, [ins]);
      CalcOp(env, m.(pc := m.pc + 1), a, l.result, r.result, r.next);
      n, out := OneOp(env, prog, m, ins, r.next, r.next, Compute(env, a, m.regs[l.result], m.regs[r.result]));
    case Compare(c) =>
      AtSplit(prog, base, l.ops + r.ops, CompareOps(c, l.result, r.result, r.next, m.pc));
      n, out := CompareRuns(env, prog, m, c, l.result, r.result, r.next);
      ReachesKept(env, prog, m, n, m.pc + 4, out, r.next);
      EvaluatesSome(env, prog, m, n, m.pc + 4, out, r.next, r.next, BoolMem(Holds(env, c, m.regs[l.result], m.regs[r.result])));
  }

  lemma BinarySplit(prog: seq<VdbeOp>, op: BinaryOp, l: Code, r: Code, base: nat)
    requires BinaryCode(op, l, r, base).Some? && At(prog, base, BinaryCode(op, l, r, base).value.ops)
    ensures At(prog, base, l.ops) && At(prog, base + |l.ops|, r.ops)
    ensures BinaryCode(op, l, r, base).value.next == r.next + 1
  {
    var c := BinaryCode(op, l, r, base).value;
    var tail := c.ops[|l.ops| + |r.ops|..];
    assert c.ops == l.ops + r.ops + tail;
    AtSplit(prog, base, l.ops + r.ops, tail);
    AtSplit(prog, base, l.ops, r.ops);
  }

  lemma BinaryCase(env: Env, prog: seq<VdbeOp>, op: BinaryOp, x: Expr, y: Expr, sc: Scope, reg: nat, m: Machine, ctx: Context) returns (n: nat, out: seq<Mem>)
    requires CodeOf(x, sc, m.pc, reg).Some? && Fits(sc, ctx, m, reg)
    requires
      var l := CodeOf(x, sc, m.pc, reg).value;
      CodeOf(y, sc, m.pc + |l.ops|, l.next).Some?
    requires
      var l := CodeOf(x, sc, m.pc, reg).value;
      var r := CodeOf(y, sc, m.pc + |l.ops|, l.next).value;
      var c := BinaryCode(op, l, r, m.pc);
      c.Some? && At(prog, m.pc, c.value.ops) && c.value.next <= |m.regs|
    ensures
      var l := CodeOf(x, sc, m.pc, reg).value;
      var r := CodeOf(y, sc, m.pc + |l.ops|, l.next).value;
      var c := BinaryCode(op, l, r, m.pc).value;
      var v := match Eval(env, x, ctx) case None => None case Some(a) => (match Eval(env, y, ctx) case None => None case Some(b) => BinaryValue(env, op, a, b));
      c.result < c.next && Evaluates(env, prog, m, n, m.pc + |c.ops|, out, reg, c.result, v)
    decreases Binary(op, x, y), 0
  {
    hide Run, Reaches, Evaluates, Fits, At, CodeOf, Eval, BinaryCode, BinaryValue;
    var l := CodeOf(x, sc, m.pc, reg).value;
    var a := m.pc + |l.ops|;
    var r := CodeOf(y, sc, a, l.next).value;
    var c := BinaryCode(op, l, r, m.pc).value;
    BinarySplit(prog, op, l, r, m.pc);
    n, out := ExprRuns(env, prog, x, sc, reg, m, ctx);
    var v := Eval(env, x, ctx);
    AfterPart(env, prog, m, n, a, out, reg, l.result, v);
    if v == None {
      BinaryNext(op, l, r, m.pc);
      Failed(env, prog, m, n, m.pc + |c.ops|, out, reg, c.result);
      return;
    }
    var m1 := m.(pc := a, regs := out);
    FitsLater(sc, ctx, m, reg, a, out, l.next);
    var k, regs := ExprRuns(env, prog, y, sc, l.next, m1, ctx);
    var w := Eval(env, y, ctx);
    AfterPart(env, prog, m1, k, a + |r.ops|, regs, l.next, r.result, w);
    if w == None {
      ReachesRun(env, prog, m, n, a, out, reg);
      RunCompose(env, prog, m, n, m1, k);
      BinaryNext(op, l, r, m.pc);
      n := n + k;
      Failed(env, prog, m, n, m.pc + |c.ops|, out, reg, c.result);
      return;
    }
    var m2 := m1.(pc := a + |r.ops|, regs := regs);
    var j, last := BinaryRuns(env, prog, m2, op, l, r, m.pc);
    ReachesThen(env, prog, m, n, a, out, reg, k, a + |r.ops|, regs, l.next);
    EvaluatesThen(env, prog, m, n + k, a + |r.ops|, regs, reg, j, m.pc + |c.ops|, last, r.next, r.next, BinaryValue(env, op, v.value, w.value));
    n, out := n + k + j, last;
  }

  lemma BinaryNext(op: BinaryOp, l: Code, r: Code, base: nat)
    requires BinaryCode(op, l, r, base).Some?
    ensures BinaryCode(op, l, r, base).value.result == r.next && BinaryCode(op, l, r, base).value.next == r.next + 1
  {
  }

  lemma ReachesRun(env: Env, prog: seq<VdbeOp>, m: Machine, n: nat, end: nat, out: seq<Mem>, reg: nat)
    requires Reaches(env, prog, m, n, end, out, reg)
    ensures Run(env, prog, m, n) == Next(m.(pc := end, regs := out))
  {
  }

  lemma CallCase(env: Env, prog: seq<VdbeOp>, name: string, kind: ArgKind, list: Exprs, sc: Scope, reg: nat, m: Machine, ctx: Context) returns (n: nat, out: seq<Mem>)
    requires Fits(sc, ctx, m, reg) && (HasList(kind) ==> ListCodeOf(list, sc, m.pc, reg).Some?)
    requires
      var args := if HasList(kind) then ListCodeOf(list, sc, m.pc, reg).value else ListCode([], [], reg);
      At(prog, m.pc, CallCode(name, args).ops) && CallCode(name, args).next <= |m.regs|
    ensures
      var args := if HasList(kind) then ListCodeOf(list, sc, m.pc, reg).value else ListCode([], [], reg);
      var c := CallCode(name, args);
      var v := match (if HasList(kind) then EvalAll(env, list, ctx) else Some([])) case None => None case Some(vs) => env.call(name, vs);
      c.result < c.next && Evaluates(env, prog, m, n, m.pc + |c.ops|, out, reg, c.result, v)
    decreases Call(name, kind, list), 0
  {
    hide Run, Reaches, Evaluates, EvaluatesAll, Fits, At, ListCodeOf, EvalAll, CopyOps;
    var args := if HasList(kind) then ListCodeOf(list, sc, m.pc, reg).value else ListCode([], [], reg);
    var c := CallCode(name, args);
    var call := VdbeOp(Function, |args.results|, if |args.results| > 0 then args.next else 0, c.result, P4Text(name, []), 0);
    assert c.ops == args.ops + (CopyOps(args.results, args.next) + [call]);
    AtSplit(prog, m.pc, args.ops, CopyOps(args.results, args.next) + [call]);
    var vs: Option<seq<Mem>>;
    if HasList(kind) {
      vs := EvalAll(env, list, ctx);
      n, out := ListRuns(env, prog, list, sc, reg, m, ctx);
    } else {
      vs, n, out := Some([]), 0, m.regs;
      Stay(env, prog, m, reg);
      assert EvaluatesAll(env, prog, m, 0, m.pc, out, reg, args, vs) by {
        AllNone(env, prog, m, args, reg);
      }
    }
    AfterAll(env, prog, m, n, m.pc + |args.ops|, out, reg, args, vs);
    if vs == None {
      Failed(env, prog, m, n, m.pc + |c.ops|, out, reg, c.result);
    } else {
      var m1 := m.(pc := m.pc + |args.ops|, regs := out);
      var k, last := CallRuns(env, prog, m1, name, args.results, args.next, vs.value);
      EvaluatesThen(env, prog, m, n, m.pc + |args.ops|, out, reg, k, m.pc + |c.ops|, last, args.next, c.result, env.call(name, vs.value));
      n, out := n + k, last;
    }
  }

  lemma AllNone(env: Env, prog: seq<VdbeOp>, m: Machine, c: ListCode, reg: nat)
    requires c.results == [] && Reaches(env, prog, m, 0, m.pc, m.regs, reg)
    ensures EvaluatesAll(env, prog, m, 0, m.pc, m.regs, reg, c, Some([]))
  {
  }

  lemma AfterAll(env: Env, prog: seq<VdbeOp>, m: Machine, n: nat, end: nat, out: seq<Mem>, reg: nat, c: ListCode, vs: Option<seq<Mem>>)
    requires EvaluatesAll(env, prog, m, n, end, out, reg, c, vs)
    ensures vs == None ==> Run(env, prog, m, n) == Fail
    ensures vs.Some? ==>
      && Reaches(env, prog, m, n, end, out, reg) && |out| == |m.regs| && |vs.value| == |c.results|
      && forall i :: 0 <= i < |c.results| ==> c.results[i] < c.next && c.results[i] < |out| && out[c.results[i]] == vs.value[i]
  {
  }

  lemma {:induction false} ListRuns(env: Env, prog: seq<VdbeOp>, es: Exprs, sc: Scope, reg: nat, m: Machine, ctx: Context) returns (n: nat, out: seq<Mem>)
    requires ListCodeOf(es, sc, m.pc, reg).Some? && Fits(sc, ctx, m, reg)
    requires At(prog, m.pc, ListCodeOf(es, sc, m.pc, reg).value.ops) && ListCodeOf(es, sc, m.pc, reg).value.next <= |m.regs|
    ensures
      var c := ListCodeOf(es, sc, m.pc, reg).value;
      EvaluatesAll(env, prog, m, n, m.pc + |c.ops|, out, reg, c, EvalAll(env, es, ctx))
    decreases es, 1
  {
    hide Run, Reaches, Evaluates, EvaluatesAll, Fits, At, CodeOf, Eval;
    var c := ListCodeOf(es, sc, m.pc, reg).value;
    match es
    case Nil =>
      n, out := 0, m.regs;
      Stay(env, prog, m, reg);
      AllNone(env, prog, m, c, reg);
    case Cons(x, rest) =>
      var h := CodeOf(x, sc, m.pc, reg).value;
      var a := m.pc + |h.ops|;
      var t := ListCodeOf(rest, sc, a, h.next).value;
      AtSplit(prog, m.pc, h.ops, t.ops);
      n, out := ExprRuns(env, prog, x, sc, reg, m, ctx);
      var v := Eval(env, x, ctx);
      AfterPart(env, prog, m, n, a, out, reg, h.result, v);
      if v == None {
        AllFailed(env, prog, m, n, m.pc + |c.ops|, out, reg, c);
      } else {
        var m1 := m.(pc := a, regs := out);
        FitsLater(sc, ctx, m, reg, a, out, h.next);
        var k, regs := ListRuns(env, prog, rest, sc, h.next, m1, ctx);
        ConsRuns(env, prog, m, n, a, out, reg, h, t, k, regs, v.value, EvalAll(env, rest, ctx));
        n, out := n + k, regs;
      }
  }

  lemma AllFailed(env: Env, prog: seq<VdbeOp>, m: Machine, n: nat, end: nat, out: seq<Mem>, reg: nat, c: ListCode)
    requires Run(env, prog, m, n) == Fail
    ensures EvaluatesAll(env, prog, m, n, end, out, reg, c, None)
  {
  }

  lemma ConsRuns(env: Env, prog: seq<VdbeOp>, m: Machine, n: nat, a: nat, out: seq<Mem>, reg: nat, h: Code, t: ListCode, k: nat, regs: seq<Mem>, v: Mem, vs: Option<seq<Mem>>)
    requires Reaches(env, prog, m, n, a, out, reg) && |out| == |m.regs| && h.result < h.next && h.result < |out| && out[h.result] == v
    requires reg <= h.next <= t.next
    requires EvaluatesAll(env, prog, m.(pc := a, regs := out), k, a + |t.ops|, regs, h.next, t, vs)
    ensures
      var c := ListCode(h.ops + t.ops, [h.result] + t.results, t.next);
      EvaluatesAll(env, prog, m, n + k, a + |t.ops|, regs, reg, c, match vs case None => None case Some(xs) => Some([v] + xs))
  {
    hide Run;
    RunCompose(env, prog, m, n, m.(pc := a, regs := out), k);
    if vs.Some? {
      ReachesThen(env, prog, m, n, a, out, reg, k, a + |t.ops|, regs, h.next);
    }
  }
}
