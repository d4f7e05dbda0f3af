/** The code of a WHERE clause: it falls through when a row passes and jumps to the skip target otherwise. */
module WhereCode {
  import opened Bytes
  import opened Mem
  import opened Vdbe
  import opened Ast
  import opened ExprCode
  import opened ExprMeaning

  /** Instructions, and the first register still free. */
  datatype Cond = Cond(ops: seq<VdbeOp>, next: nat)

  /** The code with every skip jump going to `t`. */
  function WhereOf(e: Expr, sc: Scope, base: nat, reg: nat, t: nat): (c: Option<Cond>)
    ensures c.Some? ==> c.value.next >= reg
    decreases e
  {
    match e
    case Binary(And, x, y) => (
      match WhereOf(x, sc, base, reg, t)
      case None => None
      case Some(l) => (
        match WhereOf(y, sc, base + |l.ops|, l.next, t)
        case None => None
        case Some(r) => Some(Cond(l.ops + r.ops, r.next))))
    case Binary(Or, x, y) => (
      match CodeOf(x, sc, base, reg)
      case None => None
      case Some(l) => (
        match CodeOf(y, sc, base + |l.ops|, l.next)
        case None => None
        case Some(r) => Some(Cond(l.ops + r.ops + OrOps(l.result, r.result, r.next, base + |l.ops| + |r.ops|, t), r.next + 1))))
    case NullTest(not, x) => (
      match CodeOf(x, sc, base, reg)
      case None => None
      case Some(c) => Some(Cond(c.ops + [Op(if not then IsNull else NotNull, c.result, t, 0)], c.next)))
    case _ => (
      match CodeOf(e, sc, base, reg)
      case None => None
      case Some(c) => Some(Cond(c.ops + [Op(IfNot, c.result, t, 0)], c.next)))
  }

  function OrOps(l: nat, r: nat, res: nat, a: nat, t: nat): (ops: seq<VdbeOp>)
    ensures |ops| == 4
  {
    [Op(Copy, l, res, 0), Op(If, res, a + 3, 0), Op(Copy, r, res, 0), Op(IfNot, res, t, 0)]
  }

  /** The addresses of the skip jumps. */
  function Skips(e: Expr, sc: Scope, base: nat, reg: nat): seq<nat>
    requires WhereOf(e, sc, base, reg, 0).Some?
    decreases e
  {
    match e
    case Binary(And, x, y) =>
      var l := WhereOf(x, sc, base, reg, 0).value;
      Skips(x, sc, base, reg) + Skips(y, sc, base + |l.ops|, l.next)
    case _ => [base + |WhereOf(e, sc, base, reg, 0).value.ops| - 1]
  }

  lemma WhereAnd(x: Expr, y: Expr, sc: Scope, base: nat, reg: nat)
    ensures
      WhereOf(Binary(And, x, y), sc, base, reg, 0) == match WhereOf(x, sc, base, reg, 0) case None => None case Some(l) => (
        match WhereOf(y, sc, base + |l.ops|, l.next, 0) case None => None case Some(r) => Some(Cond(l.ops + r.ops, r.next)))
  {
    hide CodeOf, OrOps, Op;
  }

  lemma SkipsAnd(x: Expr, y: Expr, sc: Scope, base: nat, reg: nat, l: Cond)
    requires WhereOf(x, sc, base, reg, 0) == Some(l) && WhereOf(y, sc, base + |l.ops|, l.next, 0).Some?
    requires WhereOf(Binary(And, x, y), sc, base, reg, 0).Some?
    ensures Skips(Binary(And, x, y), sc, base, reg) == Skips(x, sc, base, reg) + Skips(y, sc, base + |l.ops|, l.next)
  {
    hide CodeOf, OrOps, Op;
  }

  // ---- Patching ----

  /** The program with the jump targets at the listed addresses set to t. */
  function Patch(prog: seq<VdbeOp>, at: seq<nat>, t: nat): (r: seq<VdbeOp>)
    ensures |r| == |prog|
  {
    if at == [] then prog
    else
      var p := Patch(prog, at[..|at| - 1], t);
      var a := at[|at| - 1];
      if a < |p| then p[a := p[a].(p2 := t)] else p
  }

  lemma {:induction false} PatchConcat(prog: seq<VdbeOp>, a: seq<nat>, b: seq<nat>, t: nat)
    ensures Patch(prog, a + b, t) == Patch(Patch(prog, a, t), b, t)
    decreases |b|
  {
    if b == [] {
      assert a + b == a;
    } else {
      assert (a + b)[..|a + b| - 1] == a + b[..|b| - 1];
      PatchConcat(prog, a, b[..|b| - 1], t);
    }
  }

  /** The jump target does not change the shape of the code. */
  lemma {:induction false} WhereShape(e: Expr, sc: Scope, base: nat, reg: nat, t: nat)
    requires WhereOf(e, sc, base, reg, 0).Some?
    ensures WhereOf(e, sc, base, reg, t).Some?
    ensures |WhereOf(e, sc, base, reg, t).value.ops| == |WhereOf(e, sc, base, reg, 0).value.ops|
    ensures WhereOf(e, sc, base, reg, t).value.next == WhereOf(e, sc, base, reg, 0).value.next
    decreases e
  {
    hide CodeOf, OrOps;
    if e.Binary? && e.bop == And {
      var l := WhereOf(e.left, sc, base, reg, 0).value;
      WhereShape(e.left, sc, base, reg, t);
      WhereShape(e.right, sc, base + |l.ops|, l.next, t);
    }
  }

  /** Patching the skip jumps, wherever the code lies in a program, gives the code for target t. */
  lemma {:induction false} PatchSkips(pre: seq<VdbeOp>, e: Expr, sc: Scope, reg: nat, t: nat, post: seq<VdbeOp>)
    requires WhereOf(e, sc, |pre|, reg, 0).Some?
    ensures WhereOf(e, sc, |pre|, reg, t).Some?
    ensures
      Patch(pre + WhereOf(e, sc, |pre|, reg, 0).value.ops + post, Skips(e, sc, |pre|, reg), t)
      == pre + WhereOf(e, sc, |pre|, reg, t).value.ops + post
    decreases e
  {
    hide CodeOf, Patch;
    WhereShape(e, sc, |pre|, reg, t);
    if e.Binary? && e.bop == And {
      var l, lt := WhereOf(e.left, sc, |pre|, reg, 0).value, WhereOf(e.left, sc, |pre|, reg, t).value;
      WhereShape(e.left, sc, |pre|, reg, t);
      var r, rt := WhereOf(e.right, sc, |pre| + |l.ops|, l.next, 0).value, WhereOf(e.right, sc, |pre| + |l.ops|, l.next, t).value;
      var a, b := Skips(e.left, sc, |pre|, reg), Skips(e.right, sc, |pre| + |l.ops|, l.next);
      PatchSkips(pre, e.left, sc, reg, t, r.ops + post);
      PatchSkips(pre + lt.ops, e.right, sc, l.next, t, post);
      PatchTwo(pre, l.ops, r.ops, lt.ops, rt.ops, post, a, b, t);
    } else {
      PatchLast(pre, WhereOf(e, sc, |pre|, reg, 0).value.ops, WhereOf(e, sc, |pre|, reg, t).value.ops, t, post);
    }
  }

  lemma PatchTwo(pre: seq<VdbeOp>, l: seq<VdbeOp>, r: seq<VdbeOp>, l': seq<VdbeOp>, r': seq<VdbeOp>, post: seq<VdbeOp>, a: seq<nat>, b: seq<nat>, t: nat)
    requires Patch(pre + l + (r + post), a, t) == pre + l' + (r + post)
    requires Patch((pre + l') + r + post, b, t) == (pre + l') + r' + post
    ensures Patch(pre + (l + r) + post, a + b, t) == pre + (l' + r') + post
  {
    hide Patch;
    assert pre + (l + r) + post == pre + l + (r + post);
    assert pre + l' + (r + post) == (pre + l') + r + post;
    assert pre + (l' + r') + post == (pre + l') + r' + post;
    PatchConcat(pre + (l + r) + post, a, b, t);
  }

  lemma PatchLast(pre: seq<VdbeOp>, a: seq<VdbeOp>, b: seq<VdbeOp>, t: nat, post: seq<VdbeOp>)
    requires |a| == |b| > 0 && a[..|a| - 1] == b[..|b| - 1] && b[|b| - 1] == a[|a| - 1].(p2 := t)
    ensures Patch(pre + a + post, [|pre| + |a| - 1], t) == pre + b + post
  {
    var k := |pre| + |a| - 1;
    assert [k][..0] == [];
    assert Patch(pre + a + post, [], t) == pre + a + post;
    assert b == a[..|a| - 1] + [b[|b| - 1]];
    assert a == a[..|a| - 1] + [a[|a| - 1]];
  }

  // ---- Running ----

  /** Running from m decides b: it ends at `pass` or at `skip`, or fails when b is None. */
  ghost predicate Decides(env: Env, prog: seq<VdbeOp>, m: Machine, n: nat, pass: nat, skip: nat, out: seq<Mem>, reg: nat, b: Option<bool>) {
    match b
    case None => Run(env, prog, m, n) == Fail
    case Some(v) => Reaches(env, prog, m, n, if v then pass else skip, out, reg) && |out| == |m.regs|
  }

  lemma DecidesThen(env: Env, prog: seq<VdbeOp>, m: Machine, n: nat, mid: nat, regs: seq<Mem>, reg: nat, k: nat, pass: nat, skip: nat, out: seq<Mem>, next: nat, b: Option<bool>)
    requires Reaches(env, prog, m, n, mid, regs, reg) && reg <= next
    requires Decides(env, prog, m.(pc := mid, regs := regs), k, pass, skip, out, next, b)
    ensures Decides(env, prog, m, n + k, pass, skip, out, reg, b)
  {
    hide Run;
    RunCompose(env, prog, m, n, m.(pc := mid, regs := regs), k);
    if b.Some? {
      ReachesThen(env, prog, m, n, mid, regs, reg, k, if b.value then pass else skip, out, next);
    }
  }

  /** A test instruction on register x. */
  lemma TestOp(env: Env, m: Machine, x: nat, t: nat)
    requires x < |m.regs|
    ensures Exec(env, Op(If, x, t, 0), m) == Next(if IsTruthy(env, m.regs[x]) then m.(pc := t) else m)
    ensures Exec(env, Op(IfNot, x, t, 0), m) == Next(if IsTruthy(env, m.regs[x]) then m else m.(pc := t))
  {
    hide IsTruthy;
  }

  lemma TestRuns(env: Env, prog: seq<VdbeOp>, m: Machine, op: VdbeOp, t: nat, b: bool, reg: nat)
    requires At(prog, m.pc, [op])
    requires Exec(env, op, m.(pc := m.pc + 1)) == Next(if b then m.(pc := m.pc + 1) else m.(pc := t))
    ensures Decides(env, prog, m, 1, m.pc + 1, t, m.regs, reg, Some(b))
  {
    hide Exec, Run, Reaches;
    Stay(env, prog, m, reg);
    assert prog[m.pc + 0] == [op][0];
    JumpStep(env, prog, m, 0, m.pc, m.regs, reg, op, if b then m.pc + 1 else t);
  }

  /** The code of an expression, then a test of its value. */
  lemma TestedRuns(env: Env, prog: seq<VdbeOp>, e: Expr, sc: Scope, reg: nat, m: Machine, ctx: Context, op: Opcode, t: nat, b: Option<bool>) returns (n: nat, out: seq<Mem>)
    requires CodeOf(e, sc, m.pc, reg).Some? && Fits(sc, ctx, m, reg)
    requires
      var c := CodeOf(e, sc, m.pc, reg).value;
      At(prog, m.pc, c.ops + [Op(op, c.result, t, 0)]) && c.next <= |m.regs|
    requires op == IfNot || op == IsNull || op == NotNull
    requires b == match Eval(env, e, ctx) case None => None case Some(v) => Some(if op == IfNot then IsTruthy(env, v) else (v == Null) == (op == NotNull))
    ensures Decides(env, prog, m, n, m.pc + |CodeOf(e, sc, m.pc, reg).value.ops| + 1, t, out, reg, b)
  {
    hide Run, Reaches, Evaluates, Decides, Fits, At, CodeOf, Eval, Exec, IsTruthy;
    var c := CodeOf(e, sc, m.pc, reg).value;
    AtSplit(prog, m.pc, c.ops, [Op(op, c.result, t, 0)]);
    n, out := ExprRuns(env, prog, e, sc, reg, m, ctx);
    var v := Eval(env, e, ctx);
    var a := m.pc + |c.ops|;
    AfterPart(env, prog, m, n, a, out, reg, c.result, v);
    if v == None {
      NotDecided(env, prog, m, n, a + 1, t, out, reg);
    } else {
      var m1 := m.(pc := a, regs := out);
      TestOp(env, m1.(pc := a + 1), c.result, t);
      NullTestOp(env, m1.(pc := a + 1), c.result, t);
      TestRuns(env, prog, m1, Op(op, c.result, t, 0), t, b.value, c.next);
      DecidesThen(env, prog, m, n, a, out, reg, 1, a + 1, t, out, c.next, b);
      n := n + 1;
    }
  }

  lemma NotDecided(env: Env, prog: seq<VdbeOp>, m: Machine, n: nat, pass: nat, skip: nat, out: seq<Mem>, reg: nat)
    requires Run(env, prog, m, n) == Fail
    ensures Decides(env, prog, m, n, pass, skip, out, reg, None)
  {
  }

  /** The block of OR. */
  lemma OrRuns(env: Env, prog: seq<VdbeOp>, m: Machine, l: nat, r: nat, res: nat, t: nat) returns (n: nat, out: seq<Mem>)
    requires At(prog, m.pc, OrOps(l, r, res, m.pc, t)) && l < res && r < res < |m.regs|
    ensures Decides(env, prog, m, n, m.pc + 4, t, out, res, Some(IsTruthy(env, m.regs[l]) || IsTruthy(env, m.regs[r])))
  {
    hide Exec, Run, Reaches, IsTruthy;
    var a := m.pc;
    var ops := OrOps(l, r, res, a, t);
    assert prog[a + 0] == ops[0] && prog[a + 1] == ops[1] && prog[a + 2] == ops[2] && prog[a + 3] == ops[3];
    Stay(env, prog, m, res);
    CopyOp(env, m.(pc := a + 1), l, res);
    PutStep(env, prog, m, 0, a, m.regs, res, ops[0], res, m.regs[l]);
    out := m.regs[res := m.regs[l]];
    TestOp(env, m.(pc := a + 2, regs := out), res, a + 3);
    if IsTruthy(env, m.regs[l]) {
      JumpStep(env, prog, m, 1, a + 1, out, res, ops[1], a + 3);
      n := 2;
    } else {
      JumpStep(env, prog, m, 1, a + 1, out, res, ops[1], a + 2);
      CopyOp(env, m.(pc := a + 3, regs := out), r, res);
      PutStep(env, prog, m, 2, a + 2, out, res, ops[2], res, m.regs[r]);
      out := out[res := m.regs[r]];
      n := 3;
    }
    TestOp(env, m.(pc := a + 4, regs := out), res, t);
    JumpStep(env, prog, m, n, a + 3, out, res, ops[3], if IsTruthy(env, out[res]) then a + 4 else t);
    n := n + 1;
  }

  /** WHERE code falls through exactly when the row passes, jumps to t when it does not, and fails when deciding fails. */
  lemma {:induction false} WhereRuns(env: Env, prog: seq<VdbeOp>, e: Expr, sc: Scope, reg: nat, t: nat, m: Machine, ctx: Context) returns (n: nat, out: seq<Mem>)
    requires WhereOf(e, sc, m.pc, reg, t).Some? && Fits(sc, ctx, m, reg)
    requires At(prog, m.pc, WhereOf(e, sc, m.pc, reg, t).value.ops) && WhereOf(e, sc, m.pc, reg, t).value.next <= |m.regs|
    ensures Decides(env, prog, m, n, m.pc + |WhereOf(e, sc, m.pc, reg, t).value.ops|, t, out, reg, Passes(env, e, ctx))
    decreases e
  {
    hide Run, Reaches, Decides, Fits, At, CodeOf, Eval, IsTruthy, OrOps;
    if e.Binary? && e.bop == And {
      var l := WhereOf(e.left, sc, m.pc, reg, t).value;
      var a := m.pc + |l.ops|;
      var r := WhereOf(e.right, sc, a, l.next, t).value;
      AtSplit(prog, m.pc, l.ops, r.ops);
      n, out := WhereRuns(env, prog, e.left, sc, reg, t, m, ctx);
      var b := Passes(env, e.left, ctx);
      if b == Some(true) {
        Decided(env, prog, m, n, a, t, out, reg);
        FitsLater(sc, ctx, m, reg, a, out, l.next);
        var k, regs := WhereRuns(env, prog, e.right, sc, l.next, t, m.(pc := a, regs := out), ctx);
        DecidesThen(env, prog, m, n, a, out, reg, k, a + |r.ops|, t, regs, l.next, Passes(env, e.right, ctx));
        n, out := n + k, regs;
      } else {
        Elsewhere(env, prog, m, n, a, a + |r.ops|, t, out, reg, b);
      }
    } else if e.Binary? && e.bop == Or {
      n, out := OrCase(env, prog, e.left, e.right, sc, reg, t, m, ctx);
    } else if e.NullTest? {
      n, out := TestedRuns(env, prog, e.tested, sc, reg, m, ctx, if e.not then IsNull else NotNull, t, Passes(env, e, ctx));
    } else {
      n, out := TestedRuns(env, prog, e, sc, reg, m, ctx, IfNot, t, Passes(env, e, ctx));
    }
  }

  lemma Decided(env: Env, prog: seq<VdbeOp>, m: Machine, n: nat, pass: nat, skip: nat, out: seq<Mem>, reg: nat)
    requires Decides(env, prog, m, n, pass, skip, out, reg, Some(true))
    ensures Reaches(env, prog, m, n, pass, out, reg) && |out| == |m.regs| && Kept(m.regs, out, reg)
  {
  }

  /** When the row does not pass, where the code would have fallen through does not matter. */
  lemma Elsewhere(env: Env, prog: seq<VdbeOp>, m: Machine, n: nat, pass: nat, pass': nat, skip: nat, out: seq<Mem>, reg: nat, b: Option<bool>)
    requires Decides(env, prog, m, n, pass, skip, out, reg, b) && b != Some(true)
    ensures Decides(env, prog, m, n, pass', skip, out, reg, b)
  {
  }

  lemma OrCase(env: Env, prog: seq<VdbeOp>, x: Expr, y: Expr, sc: Scope, reg: nat, t: nat, m: Machine, ctx: Context) returns (n: nat, out: seq<Mem>)
    requires CodeOf(x, sc, m.pc, reg).Some? && Fits(sc, ctx, m, reg)
    requires var l := CodeOf(x, sc, m.pc, reg).value; CodeOf(y, sc, m.pc + |l.ops|, l.next).Some?
    requires
      var l := CodeOf(x, sc, m.pc, reg).value;
      var r := CodeOf(y, sc, m.pc + |l.ops|, l.next).value;
      r.next < |m.regs| && At(prog, m.pc, l.ops + r.ops + OrOps(l.result, r.result, r.next, m.pc + |l.ops| + |r.ops|, t))
    ensures
      var l := CodeOf(x, sc, m.pc, reg).value;
      var r := CodeOf(y, sc, m.pc + |l.ops|, l.next).value;
      var b := match Eval(env, x, ctx) case None => None case Some(v) => (match Eval(env, y, ctx) case None => None case Some(w) => Some(IsTruthy(env, v) || IsTruthy(env, w)));
      Decides(env, prog, m, n, m.pc + |l.ops| + |r.ops| + 4, t, out, reg, b)
  {
    hide Run, Reaches, Evaluates, Decides, Fits, At, CodeOf, Eval, IsTruthy, OrOps;
    var l := CodeOf(x, sc, m.pc, reg).value;
    var a := m.pc + |l.ops|;
    var r := CodeOf(y, sc, a, l.next).value;
    var ops := OrOps(l.result, r.result, r.next, a + |r.ops|, t);
    AtSplit(prog, m.pc, l.ops + r.ops, ops);
    AtSplit(prog, m.pc, l.ops, r.ops);
    n, out := ExprRuns(env, prog, x, sc, reg, m, ctx);
    var v := Eval(env, x, ctx);
    AfterPart(env, prog, m, n, a, out, reg, l.result, v);
    if v == None {
      NotDecided(env, prog, m, n, a + |r.ops| + 4, t, out, reg);
      return;
    }
    var m1 := m.(pc := a, regs := out);
    FitsLater(sc, ctx, m, reg, a, out, l.next);
    var k, regs := ExprRuns(env, prog, y, sc, l.next, m1, ctx);
    var w := Eval(env, y, ctx);
    AfterPart(env, prog, m1, k, a + |r.ops|, regs, l.next, r.result, w);
    if w == None {
      ReachesRun(env, prog, m, n, a, out, reg);
      RunCompose(env, prog, m, n, m1, k);
      n := n + k;
      NotDecided(env, prog, m, n, a + |r.ops| + 4, t, out, reg);
      return;
    }
    KeptBelow(out, regs, l.next, l.result);
    var m2 := m1.(pc := a + |r.ops|, regs := regs);
    var j, last := OrRuns(env, prog, m2, l.result, r.result, r.next, t);
    ReachesThen(env, prog, m, n, a, out, reg, k, a + |r.ops|, regs, l.next);
    DecidesThen(env, prog, m, n + k, a + |r.ops|, regs, reg, j, a + |r.ops| + 4, t, last, r.next, Some(IsTruthy(env, v.value) || IsTruthy(env, w.value)));
    n, out := n + k + j, last;
  }

  lemma KeptBelow(a: seq<Mem>, b: seq<Mem>, reg: nat, i: nat)
    requires Kept(a, b, reg) && i < reg && i < |a|
    ensures b[i] == a[i]
  {
  }
}
