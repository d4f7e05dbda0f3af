/** Output columns: their code, what it leaves in the result registers, and the rows a run yields. */
module Projection {
  import opened Bytes
  import opened Mem
  import opened Vdbe
  import opened Ast
  import opened ExprCode
  import opened ExprMeaning
  import opened WhereCode

  /** One output column: a table column read directly, or a computed expression. */
  datatype Item = Direct(col: nat) | Computed(e: Expr)

  function ItemValue(env: Env, item: Item, ctx: Context): Option<Mem> {
    match item
    case Direct(i) => (match ctx.data case None => None case Some(data) => FieldOf(env, data, i))
    case Computed(e) => Eval(env, e, ctx)
  }

  /** The values of the first k columns, left to right; None as soon as one fails. */
  function ItemValues(env: Env, items: seq<Item>, k: nat, ctx: Context): (r: Option<seq<Mem>>)
    requires k <= |items|
    ensures r.Some? ==> |r.value| == k
  {
    if k == 0 then Some([])
    else
      match ItemValues(env, items, k - 1, ctx)
      case None => None
      case Some(vs) => (match ItemValue(env, items[k - 1], ctx) case None => None case Some(v) => Some(vs + [v]))
  }

  /** One column into register r. */
  function ItemOf(item: Item, sc: Scope, base: nat, reg: nat, r: nat): (c: Option<Cond>)
    ensures c.Some? ==> c.value.next >= reg
  {
    match item
    case Direct(i) => (match sc.table case None => None case Some(t) => Some(Cond([Op(Opcode.Column, t.cursor, i, r)], reg)))
    case Computed(e) => (
      match CodeOf(e, sc, base, reg)
      case None => None
      case Some(c) => Some(Cond(c.ops + [Op(Copy, c.result, r, 0)], c.next)))
  }

  /** The first k columns into the registers from dst on. */
  function ItemsOf(items: seq<Item>, k: nat, sc: Scope, base: nat, reg: nat, dst: nat): (c: Option<Cond>)
    requires k <= |items|
    ensures c.Some? ==> c.value.next >= reg
  {
    if k == 0 then Some(Cond([], reg))
    else
      match ItemsOf(items, k - 1, sc, base, reg, dst)
      case None => None
      case Some(p) => (
        match ItemOf(items[k - 1], sc, base + |p.ops|, p.next, dst + k - 1)
        case None => None
        case Some(c) => Some(Cond(p.ops + c.ops, c.next)))
  }

  /** Only registers of the block from dst on, or from reg on, have changed. */
  ghost predicate KeptBut(a: seq<Mem>, b: seq<Mem>, reg: nat, dst: nat, n: nat) {
    |a| == |b| && forall i :: 0 <= i < reg && i < |a| && !(dst <= i < dst + n) ==> b[i] == a[i]
  }

  /** The known expressions have registers outside the block. */
  ghost predicate Apart(bound: Bound, dst: nat, n: nat) {
    forall i :: 0 <= i < |bound| ==> !(dst <= bound[i].1 < dst + n)
  }

  /** Running from m fills the block with vs, or fails when vs is None. */
  ghost predicate Fills(env: Env, prog: seq<VdbeOp>, m: Machine, n: nat, end: nat, out: seq<Mem>, reg: nat, dst: nat, size: nat, vs: Option<seq<Mem>>) {
    match vs
    case None => Run(env, prog, m, n) == Fail
    case Some(xs) =>
      && Run(env, prog, m, n) == Next(m.(pc := end, regs := out))
      && KeptBut(m.regs, out, reg, dst, size) && dst + |xs| <= |out| && out[dst..dst + |xs|] == xs
  }

  lemma FitsBlock(sc: Scope, ctx: Context, m: Machine, reg: nat, dst: nat, n: nat, pc: nat, regs: seq<Mem>, next: nat)
    requires Fits(sc, ctx, m, reg) && Apart(sc.bound, dst, n) && KeptBut(m.regs, regs, reg, dst, n) && reg <= next
    ensures Fits(sc, ctx, m.(pc := pc, regs := regs), next)
  {
  }

  lemma ReachesPut(env: Env, prog: seq<VdbeOp>, m: Machine, n: nat, pc: nat, regs: seq<Mem>, reg: nat, op: VdbeOp, r: nat, v: Mem)
    requires Reaches(env, prog, m, n, pc, regs, reg) && pc < |prog| && prog[pc] == op && r < |regs|
    requires Exec(env, op, m.(pc := pc + 1, regs := regs)) == Put(m.(pc := pc + 1, regs := regs), r, v)
    ensures Run(env, prog, m, n + 1) == Next(m.(pc := pc + 1, regs := regs[r := v]))
  {
    hide Run, Exec;
    Then(env, prog, m, n, m.(pc := pc, regs := regs), op);
  }

  /** One column, run. */
  lemma ItemRuns(env: Env, prog: seq<VdbeOp>, item: Item, sc: Scope, reg: nat, r: nat, m: Machine, ctx: Context) returns (n: nat, out: seq<Mem>)
    requires ItemOf(item, sc, m.pc, reg, r).Some? && Fits(sc, ctx, m, reg) && r < reg
    requires At(prog, m.pc, ItemOf(item, sc, m.pc, reg, r).value.ops) && ItemOf(item, sc, m.pc, reg, r).value.next <= |m.regs|
    ensures
      var c := ItemOf(item, sc, m.pc, reg, r).value;
      Fills(env, prog, m, n, m.pc + |c.ops|, out, reg, r, 1, match ItemValue(env, item, ctx) case None => None case Some(v) => Some([v]))
  {
    hide Run, Reaches, Evaluates, At, CodeOf, Eval, Exec, FieldOf, RecordAt;
    match item
    case Direct(i) =>
      var t := sc.table.value;
      var op := Op(Opcode.Column, t.cursor, i, r);
      ColumnOp(env, m.(pc := m.pc + 1), t.cursor, i, r);
      RecordMoved(m, t.cursor);
      Stay(env, prog, m, reg);
      AtOne(prog, m.pc, op);
      n := 1;
      var v := ItemValue(env, item, ctx);
      if v.Some? {
        ReachesPut(env, prog, m, 0, m.pc, m.regs, reg, op, r, v.value);
        out := m.regs[r := v.value];
      } else {
        FailStep(env, prog, m, 0, m.pc, m.regs, reg, op);
        out := m.regs;
      }
    case Computed(e) =>
      var c := CodeOf(e, sc, m.pc, reg).value;
      AtSplit(prog, m.pc, c.ops, [Op(Copy, c.result, r, 0)]);
      n, out := ExprRuns(env, prog, e, sc, reg, m, ctx);
      var v := Eval(env, e, ctx);
      AfterPart(env, prog, m, n, m.pc + |c.ops|, out, reg, c.result, v);
      if v.Some? {
        AtOne(prog, m.pc + |c.ops|, Op(Copy, c.result, r, 0));
        CopyOp(env, m.(pc := m.pc + |c.ops| + 1, regs := out), c.result, r);
        ReachesPut(env, prog, m, n, m.pc + |c.ops|, out, reg, Op(Copy, c.result, r, 0), r, v.value);
        n, out := n + 1, out[r := v.value];
      }
  }

  lemma AtOne(prog: seq<VdbeOp>, base: nat, op: VdbeOp)
    requires At(prog, base, [op])
    ensures base < |prog| && prog[base] == op
  {
    assert prog[base + 0] == [op][0];
  }

  lemma FillsThen(env: Env, prog: seq<VdbeOp>, m: Machine, n: nat, mid: nat, regs: seq<Mem>, reg: nat, dst: nat, size: nat, vs: seq<Mem>, k: nat, end: nat, out: seq<Mem>, next: nat, v: Option<Mem>)
    requires Fills(env, prog, m, n, mid, regs, reg, dst, size, Some(vs)) && |vs| < size && dst + size <= reg <= next
    requires Fills(env, prog, m.(pc := mid, regs := regs), k, end, out, next, dst + |vs|, 1, match v case None => None case Some(x) => Some([x]))
    ensures Fills(env, prog, m, n + k, end, out, reg, dst, size, match v case None => None case Some(x) => Some(vs + [x]))
  {
    hide Run;
    RunCompose(env, prog, m, n, m.(pc := mid, regs := regs), k);
    if v.Some? {
      assert out[dst..dst + |vs|] == regs[dst..dst + |vs|];
      assert out[dst..dst + |vs| + 1] == out[dst..dst + |vs|] + out[dst + |vs|..dst + |vs| + 1];
    }
  }

  lemma FillsFail(env: Env, prog: seq<VdbeOp>, m: Machine, n: nat, end: nat, out: seq<Mem>, reg: nat, dst: nat, size: nat)
    requires Run(env, prog, m, n) == Fail
    ensures Fills(env, prog, m, n, end, out, reg, dst, size, None)
  {
  }

  lemma FillsFacts(env: Env, prog: seq<VdbeOp>, m: Machine, n: nat, end: nat, out: seq<Mem>, reg: nat, dst: nat, size: nat, vs: Option<seq<Mem>>)
    requires Fills(env, prog, m, n, end, out, reg, dst, size, vs)
    ensures vs == None ==> Run(env, prog, m, n) == Fail
    ensures vs.Some? ==> KeptBut(m.regs, out, reg, dst, size) && |out| == |m.regs|
  {
  }

  /** The result registers hold the column values; the first failing column fails the run. */
  lemma {:induction false} ItemsRun(env: Env, prog: seq<VdbeOp>, items: seq<Item>, k: nat, sc: Scope, reg: nat, dst: nat, m: Machine, ctx: Context) returns (n: nat, out: seq<Mem>)
    requires k <= |items| && ItemsOf(items, k, sc, m.pc, reg, dst).Some? && Fits(sc, ctx, m, reg) && Apart(sc.bound, dst, |items|)
    requires dst + |items| <= reg
    requires At(prog, m.pc, ItemsOf(items, k, sc, m.pc, reg, dst).value.ops) && ItemsOf(items, k, sc, m.pc, reg, dst).value.next <= |m.regs|
    ensures
      var c := ItemsOf(items, k, sc, m.pc, reg, dst).value;
      Fills(env, prog, m, n, m.pc + |c.ops|, out, reg, dst, |items|, ItemValues(env, items, k, ctx))
    decreases k
  {
    hide Run, Fits, At, ItemOf, ItemValue, Fills, Apart, KeptBut;
    if k == 0 {
      n, out := 0, m.regs;
      FillsNone(env, prog, m, reg, dst, |items|);
    } else {
      var p := ItemsOf(items, k - 1, sc, m.pc, reg, dst).value;
      var a := m.pc + |p.ops|;
      var c := ItemOf(items[k - 1], sc, a, p.next, dst + k - 1).value;
      AtSplit(prog, m.pc, p.ops, c.ops);
      n, out := ItemsRun(env, prog, items, k - 1, sc, reg, dst, m, ctx);
      var vs := ItemValues(env, items, k - 1, ctx);
      FillsFacts(env, prog, m, n, a, out, reg, dst, |items|, vs);
      if vs == None {
        FillsFail(env, prog, m, n, a + |c.ops|, out, reg, dst, |items|);
      } else {
        FitsBlock(sc, ctx, m, reg, dst, |items|, a, out, p.next);
        var j, regs := ItemRuns(env, prog, items[k - 1], sc, p.next, dst + k - 1, m.(pc := a, regs := out), ctx);
        FillsThen(env, prog, m, n, a, out, reg, dst, |items|, vs.value, j, a + |c.ops|, regs, p.next, ItemValue(env, items[k - 1], ctx));
        n, out := n + j, regs;
      }
    }
  }

  lemma FillsNone(env: Env, prog: seq<VdbeOp>, m: Machine, reg: nat, dst: nat, size: nat)
    requires dst <= |m.regs|
    ensures Fills(env, prog, m, 0, m.pc, m.regs, reg, dst, size, Some([]))
  {
    assert m.(pc := m.pc, regs := m.regs) == m;
  }

  // ---- Result rows ----

  /**
    Repeated calls of step from m return these rows and then report that execution is complete, or
    that it failed; ns holds the number of instructions of each call.
   */
  ghost predicate Yields(env: Env, prog: seq<VdbeOp>, m: Machine, rows: seq<seq<Mem>>, ok: bool, ns: seq<nat>)
    decreases |rows|
  {
    && |ns| == |rows| + 1
    && var s := Run(env, prog, m, ns[0]);
       if rows == [] then (if ok then s.Done? else s == Fail)
       else s.Row? && s.row == rows[0] && Yields(env, prog, s.m, rows[1..], ok, ns[1..])
  }

  lemma YieldsAfter(env: Env, prog: seq<VdbeOp>, m: Machine, n: nat, m1: Machine, rows: seq<seq<Mem>>, ok: bool, ns: seq<nat>)
    requires Run(env, prog, m, n) == Next(m1) && Yields(env, prog, m1, rows, ok, ns)
    ensures Yields(env, prog, m, rows, ok, [n + ns[0]] + ns[1..])
  {
    hide Run;
    RunCompose(env, prog, m, n, m1, ns[0]);
    assert ([n + ns[0]] + ns[1..])[1..] == ns[1..];
  }

  lemma YieldsRow(env: Env, prog: seq<VdbeOp>, m: Machine, n: nat, m1: Machine, row: seq<Mem>, rows: seq<seq<Mem>>, ok: bool, ns: seq<nat>)
    requires Run(env, prog, m, n) == Row(m1, row) && Yields(env, prog, m1, rows, ok, ns)
    ensures Yields(env, prog, m, [row] + rows, ok, [n] + ns)
  {
    hide Run;
    assert ([row] + rows)[1..] == rows && ([n] + ns)[1..] == ns;
  }

  lemma YieldsEnd(env: Env, prog: seq<VdbeOp>, m: Machine, n: nat)
    requires Run(env, prog, m, n).Done? || Run(env, prog, m, n) == Fail
    ensures Yields(env, prog, m, [], Run(env, prog, m, n).Done?, [n])
  {
  }
}
