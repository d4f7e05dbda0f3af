/** The program of a SELECT yields the projection of the matching rows, in scan order, and then halts. */
module SelectMeaning {
  import opened Bytes
  import opened Mem
  import opened Vdbe
  import opened Ast
  import opened ExprCode
  import opened ExprMeaning
  import opened WhereCode
  import opened Projection
  import opened SelectCode

  // ---- What the query means ----

  /** The output of one table row: None on failure, Some(None) when the row does not pass. */
  function RowOf(env: Env, q: Query, items: seq<Item>, data: Data): Option<Option<seq<Mem>>> {
    var ctx := Context(Some(q.names), Some(data), []);
    match ItemValues(env, items, |items|, ctx)
    case None => None
    case Some(vs) => (match Filtered(env, q.filter, ctx) case None => None case Some(b) => Some(if b then Some(vs) else None))
  }

  function Filtered(env: Env, filter: Option<Expr>, ctx: Context): Option<bool> {
    match filter case None => Some(true) case Some(e) => Passes(env, e, ctx)
  }

  /** The rows returned, and whether the scan got to the end. */
  datatype Answer = Answer(rows: seq<seq<Mem>>, ok: bool)

  /** The output of the table rows from the i-th on. */
  function Answers(env: Env, q: Query, items: seq<Item>, table: seq<TableRow>, i: nat): Answer
    decreases |table| - i
  {
    if i >= |table| then Answer([], true)
    else
      match RowOf(env, q, items, table[i].data)
      case None => Answer([], false)
      case Some(None) => Answers(env, q, items, table, i + 1)
      case Some(Some(row)) =>
        var rest := Answers(env, q, items, table, i + 1);
        Answer([row] + rest.rows, rest.ok)
  }

  /** idx lists, in order, the rows in [i, f) that match, and `rows` their projections. */
  ghost predicate Picks(env: Env, q: Query, items: seq<Item>, table: seq<TableRow>, i: nat, f: nat, idx: seq<nat>, rows: seq<seq<Mem>>) {
    && i <= f <= |table| && |idx| == |rows|
    && (forall j, k :: 0 <= j < k < |idx| ==> idx[j] < idx[k])
    && (forall j :: 0 <= j < |idx| ==> i <= idx[j] < f && RowOf(env, q, items, table[idx[j]].data) == Some(Some(rows[j])))
    && (forall k :: i <= k < f && k !in idx ==> RowOf(env, q, items, table[k].data) == Some(None))
  }

  /** The answers are the projections of the matching rows, in scan order, up to the first row that fails. */
  lemma {:induction false} AnswersAre(env: Env, q: Query, items: seq<Item>, table: seq<TableRow>, i: nat) returns (f: nat, idx: seq<nat>)
    requires i <= |table|
    ensures Picks(env, q, items, table, i, f, idx, Answers(env, q, items, table, i).rows)
    ensures Answers(env, q, items, table, i).ok <==> f == |table|
    ensures f < |table| ==> RowOf(env, q, items, table[f].data) == None
    decreases |table| - i
  {
    hide RowOf;
    f, idx := i, [];
    if i < |table| && RowOf(env, q, items, table[i].data).Some? {
      f, idx := AnswersAre(env, q, items, table, i + 1);
      if RowOf(env, q, items, table[i].data).value.Some? {
        var rest := idx;
        idx := [i] + rest;
        assert forall k :: k in rest ==> k in idx;
        assert i == idx[0];
      }
    }
  }

  // ---- The code ----

  /** The pieces of the program: cursor c, result block at dst, body at base + 2. */
  datatype Layout = Layout(items: seq<Item>, cols: Cond, cond: Cond, c: nat, dst: nat, base: nat)

  function SelectScope(q: Query, c: nat): Scope {
    Scope(Some(TableContext(c, q.names)), [])
  }

  function FilterOf(filter: Option<Expr>, sc: Scope, base: nat, reg: nat, t: nat): (c: Option<Cond>)
    ensures c.Some? ==> c.value.next >= reg
  {
    match filter case None => Some(Cond([], reg)) case Some(e) => WhereOf(e, sc, base, reg, t)
  }

  /** Registers of the result block: one at least. */
  function BlockEnd(dst: nat, n: nat): nat {
    dst + if n == 0 then 1 else n
  }

  function LayoutOf(q: Query, c: nat, base: nat, dst: nat): Option<Layout> {
    match Items(q)
    case None => None
    case Some(items) => (
      match ItemsOf(items, |items|, SelectScope(q, c), base + 2, BlockEnd(dst, |items|), dst)
      case None => None
      case Some(cols) => (
        match FilterOf(q.filter, SelectScope(q, c), base + 2 + |cols.ops|, cols.next, 0)
        case None => None
        case Some(cond) => Some(Layout(items, cols, cond, c, dst, base))))
  }

  function NextLabel(l: Layout): nat {
    l.base + 2 + |l.cols.ops| + |l.cond.ops| + 1
  }

  /** The filter with its skip jumps patched. */
  function Patched(q: Query, l: Layout): seq<VdbeOp> {
    match FilterOf(q.filter, SelectScope(q, l.c), l.base + 2 + |l.cols.ops|, l.cols.next, NextLabel(l))
    case None => []
    case Some(cond) => cond.ops
  }

  function SelectOps(q: Query, l: Layout): seq<VdbeOp> {
    [Op(OpenRead, l.c, q.root, 0), Op(Rewind, l.c, NextLabel(l) + 1, 0)]
    + l.cols.ops + Patched(q, l)
    + [Op(ResultRow, l.dst, |l.items|, 0), Op(NextOp, l.c, l.base + 2, 0), Op(Close, l.c, 0, 0)]
  }

  lemma PatchedLength(q: Query, c: nat, base: nat, dst: nat)
    requires LayoutOf(q, c, base, dst).Some?
    ensures
      var l := LayoutOf(q, c, base, dst).value;
      var cond := FilterOf(q.filter, SelectScope(q, c), base + 2 + |l.cols.ops|, l.cols.next, NextLabel(l));
      cond == Some(Cond(Patched(q, l), l.cond.next)) && |Patched(q, l)| == |l.cond.ops|
  {
    hide ItemsOf, WhereOf, Items;
    var l := LayoutOf(q, c, base, dst).value;
    if q.filter.Some? {
      WhereShape(q.filter.value, SelectScope(q, c), base + 2 + |l.cols.ops|, l.cols.next, NextLabel(l));
    }
  }

  // ---- Cursor instructions ----

  lemma OpenReadOp(env: Env, m: Machine, c: nat, root: int)
    requires c < |m.cursors|
    ensures Exec(env, Op(OpenRead, c, root, 0), m) == Next(SetCursor(m, c, BTree(root, 0, false)))
  {
  }

  lemma RewindOp(env: Env, m: Machine, c: nat, t: nat)
    requires c < |m.cursors| && m.cursors[c].BTree? && m.cursors[c].root in m.tables
    ensures
      var root := m.cursors[c].root;
      Exec(env, Op(Rewind, c, t, 0), m)
      == Next(if m.tables[root] == [] then SetCursor(m, c, BTree(root, 0, false)).(pc := t) else SetCursor(m, c, BTree(root, 0, true)))
  {
  }

  lemma NextOpOp(env: Env, m: Machine, c: nat, t: nat)
    requires c < |m.cursors| && m.cursors[c].BTree? && m.cursors[c].valid && m.cursors[c].root in m.tables
    ensures
      var k := m.cursors[c];
      Exec(env, Op(NextOp, c, t, 0), m)
      == Next(if k.at + 1 < |m.tables[k.root]| then SetCursor(m, c, BTree(k.root, k.at + 1, true)).(pc := t) else SetCursor(m, c, BTree(k.root, k.at, false)))
  {
  }

  lemma CloseOp(env: Env, m: Machine, c: nat)
    requires c < |m.cursors|
    ensures Exec(env, Op(Close, c, 0, 0), m) == Next(SetCursor(m, c, Closed))
  {
  }

  lemma ResultOp(env: Env, m: Machine, dst: nat, n: nat)
    requires dst + n <= |m.regs|
    ensures Exec(env, Op(ResultRow, dst, n, 0), m) == Row(m, m.regs[dst..dst + n])
  {
  }

  lemma HaltOp(env: Env, m: Machine)
    ensures Exec(env, Op(Halt, 0, 0, 0), m) == Done(m)
  {
  }

  /** Close and halt. */
  lemma EndRuns(env: Env, prog: seq<VdbeOp>, m: Machine, c: nat)
    requires At(prog, m.pc, [Op(Close, c, 0, 0), Op(Halt, 0, 0, 0)]) && c < |m.cursors|
    ensures Run(env, prog, m, 2).Done?
  {
    hide Run, Exec;
    var ops := [Op(Close, c, 0, 0), Op(Halt, 0, 0, 0)];
    assert prog[m.pc + 0] == ops[0] && prog[m.pc + 1] == ops[1];
    Zero(env, prog, m);
    CloseOp(env, m.(pc := m.pc + 1), c);
    Then(env, prog, m, 0, m, ops[0]);
    var m1 := SetCursor(m.(pc := m.pc + 1), c, Closed);
    HaltOp(env, m1.(pc := m.pc + 2));
    Then(env, prog, m, 1, m1, ops[1]);
  }

  lemma Zero(env: Env, prog: seq<VdbeOp>, m: Machine)
    ensures Run(env, prog, m, 0) == Next(m)
  {
  }

  // ---- The loop ----

  /** The cursor is on row i of the table, and the registers suffice. */
  ghost predicate OnRow(m: Machine, q: Query, l: Layout, table: seq<TableRow>, i: nat) {
    && l.c < |m.cursors| && m.cursors[l.c] == BTree(q.root, i, true) && i < |table|
    && q.root in m.tables && m.tables[q.root] == table
    && l.cond.next <= |m.regs|
  }

  ghost predicate Loaded(prog: seq<VdbeOp>, q: Query, l: Layout) {
    LayoutOf(q, l.c, l.base, l.dst) == Some(l) && At(prog, l.base, SelectOps(q, l) + [Op(Halt, 0, 0, 0)])
  }

  /** The parts of the program, where they are. */
  lemma LoadedParts(prog: seq<VdbeOp>, q: Query, l: Layout)
    requires Loaded(prog, q, l)
    ensures At(prog, l.base, [Op(OpenRead, l.c, q.root, 0), Op(Rewind, l.c, NextLabel(l) + 1, 0)])
    ensures At(prog, l.base + 2, l.cols.ops) && At(prog, l.base + 2 + |l.cols.ops|, Patched(q, l))
    ensures At(prog, NextLabel(l) - 1, [Op(ResultRow, l.dst, |l.items|, 0)])
    ensures At(prog, NextLabel(l), [Op(NextOp, l.c, l.base + 2, 0)])
    ensures At(prog, NextLabel(l) + 1, [Op(Close, l.c, 0, 0), Op(Halt, 0, 0, 0)])
  {
    hide LayoutOf, At, Patched;
    PatchedLength(q, l.c, l.base, l.dst);
    var head := [Op(OpenRead, l.c, q.root, 0), Op(Rewind, l.c, NextLabel(l) + 1, 0)];
    var result, next := [Op(ResultRow, l.dst, |l.items|, 0)], [Op(NextOp, l.c, l.base + 2, 0)];
    var end := [Op(Close, l.c, 0, 0), Op(Halt, 0, 0, 0)];
    assert SelectOps(q, l) + [Op(Halt, 0, 0, 0)] == head + (l.cols.ops + (Patched(q, l) + (result + (next + end))));
    AtSplit(prog, l.base, head, l.cols.ops + (Patched(q, l) + (result + (next + end))));
    AtSplit(prog, l.base + 2, l.cols.ops, Patched(q, l) + (result + (next + end)));
    AtSplit(prog, l.base + 2 + |l.cols.ops|, Patched(q, l), result + (next + end));
    AtSplit(prog, NextLabel(l) - 1, result, next + end);
    AtSplit(prog, NextLabel(l), next, end);
  }

  lemma RowFits(m: Machine, q: Query, l: Layout, table: seq<TableRow>, i: nat, reg: nat)
    requires OnRow(m, q, l, table, i)
    ensures Fits(SelectScope(q, l.c), Context(Some(q.names), Some(table[i].data), []), m, reg)
  {
  }

  lemma StillOnRow(m: Machine, q: Query, l: Layout, table: seq<TableRow>, i: nat, pc: nat, regs: seq<Mem>)
    requires OnRow(m, q, l, table, i) && |regs| == |m.regs|
    ensures OnRow(m.(pc := pc, regs := regs), q, l, table, i)
  {
  }

  lemma LayoutFacts(q: Query, l: Layout)
    requires LayoutOf(q, l.c, l.base, l.dst) == Some(l)
    ensures ItemsOf(l.items, |l.items|, SelectScope(q, l.c), l.base + 2, BlockEnd(l.dst, |l.items|), l.dst) == Some(l.cols)
    ensures BlockEnd(l.dst, |l.items|) <= l.cols.next <= l.cond.next
  {
    hide ItemsOf, WhereOf, Items;
  }

  /** Evaluate the columns and the filter of the current row. */
  lemma RowRuns(env: Env, prog: seq<VdbeOp>, q: Query, l: Layout, table: seq<TableRow>, i: nat, m: Machine) returns (n: nat, out: seq<Mem>)
    requires Loaded(prog, q, l) && OnRow(m, q, l, table, i) && m.pc == l.base + 2
    ensures
      match RowOf(env, q, l.items, table[i].data)
      case None => Run(env, prog, m, n) == Fail
      case Some(None) => Run(env, prog, m, n) == Next(m.(pc := NextLabel(l), regs := out)) && |out| == |m.regs|
      case Some(Some(row)) =>
        Run(env, prog, m, n) == Next(m.(pc := NextLabel(l) - 1, regs := out)) && |out| == |m.regs|
        && l.dst + |l.items| <= |out| && out[l.dst..l.dst + |l.items|] == row
  {
    hide Run, ItemsOf, ItemValues, WhereOf, Fits, At, Items, Passes, LayoutOf, OnRow;
    LoadedParts(prog, q, l);
    LayoutFacts(q, l);
    PatchedLength(q, l.c, l.base, l.dst);
    OnRowRegs(m, q, l, table, i);
    var sc, ctx := SelectScope(q, l.c), Context(Some(q.names), Some(table[i].data), []);
    RowFits(m, q, l, table, i, BlockEnd(l.dst, |l.items|));
    n, out := ItemsRun(env, prog, l.items, |l.items|, sc, BlockEnd(l.dst, |l.items|), l.dst, m, ctx);
    var vs := ItemValues(env, l.items, |l.items|, ctx);
    var a := l.base + 2 + |l.cols.ops|;
    if vs.Some? && q.filter.Some? {
      StillOnRow(m, q, l, table, i, a, out);
      var m1 := m.(pc := a, regs := out);
      RowFits(m1, q, l, table, i, l.cols.next);
      var k, regs := WhereRuns(env, prog, q.filter.value, sc, l.cols.next, NextLabel(l), m1, ctx);
      FilterDecided(env, prog, m, n, m1, k, NextLabel(l) - 1, NextLabel(l), regs, l.cols.next, Passes(env, q.filter.value, ctx), l.dst, |l.items|);
      n, out := n + k, regs;
    }
  }

  lemma OnRowRegs(m: Machine, q: Query, l: Layout, table: seq<TableRow>, i: nat)
    requires OnRow(m, q, l, table, i)
    ensures l.cond.next <= |m.regs| && i < |table|
  {
  }

  lemma FilterDecided(env: Env, prog: seq<VdbeOp>, m: Machine, n: nat, m1: Machine, k: nat, pass: nat, skip: nat, regs: seq<Mem>, reg: nat, b: Option<bool>, dst: nat, size: nat)
    requires Run(env, prog, m, n) == Next(m1) && Decides(env, prog, m1, k, pass, skip, regs, reg, b)
    requires dst + size <= reg && dst + size <= |m1.regs|
    ensures b == None ==> Run(env, prog, m, n + k) == Fail
    ensures b.Some? ==>
      && Run(env, prog, m, n + k) == Next(m1.(pc := if b.value then pass else skip, regs := regs)) && |regs| == |m1.regs|
      && regs[dst..dst + size] == m1.regs[dst..dst + size]
  {
    hide Run;
    RunCompose(env, prog, m, n, m1, k);
  }

  /** From the loop top on row i, the run yields the answers of the rows from i on. */
  lemma {:induction false} LoopRuns(env: Env, prog: seq<VdbeOp>, q: Query, l: Layout, table: seq<TableRow>, i: nat, m: Machine) returns (ns: seq<nat>)
    requires Loaded(prog, q, l) && OnRow(m, q, l, table, i) && m.pc == l.base + 2
    ensures var a := Answers(env, q, l.items, table, i); Yields(env, prog, m, a.rows, a.ok, ns)
    decreases |table| - i, 1
  {
    hide Run, Yields, OnRow, Loaded, RowOf, Exec, At;
    OnRowRegs(m, q, l, table, i);
    var n, out := RowRuns(env, prog, q, l, table, i, m);
    match RowOf(env, q, l.items, table[i].data)
    case None =>
      ns := [n];
      YieldsEnd(env, prog, m, n);
    case Some(None) =>
      StillOnRow(m, q, l, table, i, NextLabel(l), out);
      var m1 := m.(pc := NextLabel(l), regs := out);
      var ks := NextRuns(env, prog, q, l, table, i, m1);
      var a := Answers(env, q, l.items, table, i + 1);
      YieldsAfter(env, prog, m, n, m1, a.rows, a.ok, ks);
      ns := [n + ks[0]] + ks[1..];
    case Some(Some(row)) =>
      LoadedParts(prog, q, l);
      AtOne(prog, NextLabel(l) - 1, Op(ResultRow, l.dst, |l.items|, 0));
      ResultOp(env, m.(pc := NextLabel(l), regs := out), l.dst, |l.items|);
      Then(env, prog, m, n, m.(pc := NextLabel(l) - 1, regs := out), Op(ResultRow, l.dst, |l.items|, 0));
      StillOnRow(m, q, l, table, i, NextLabel(l), out);
      var m1 := m.(pc := NextLabel(l), regs := out);
      var ks := NextRuns(env, prog, q, l, table, i, m1);
      var a := Answers(env, q, l.items, table, i + 1);
      YieldsRow(env, prog, m, n + 1, m1, row, a.rows, a.ok, ks);
      ns := [n + 1] + ks;
  }

  lemma {:induction false} NextRuns(env: Env, prog: seq<VdbeOp>, q: Query, l: Layout, table: seq<TableRow>, i: nat, m: Machine) returns (ns: seq<nat>)
    requires Loaded(prog, q, l) && OnRow(m, q, l, table, i) && m.pc == NextLabel(l)
    ensures var a := Answers(env, q, l.items, table, i + 1); Yields(env, prog, m, a.rows, a.ok, ns) && |ns| > 0
    decreases |table| - i, 0
  {
    hide Run, Yields, Loaded, RowOf, Exec, At;
    LoadedParts(prog, q, l);
    AtOne(prog, NextLabel(l), Op(NextOp, l.c, l.base + 2, 0));
    Zero(env, prog, m);
    NextOpOp(env, m.(pc := m.pc + 1), l.c, l.base + 2);
    Then(env, prog, m, 0, m, Op(NextOp, l.c, l.base + 2, 0));
    var a := Answers(env, q, l.items, table, i + 1);
    if i + 1 < |table| {
      var m1 := SetCursor(m.(pc := m.pc + 1), l.c, BTree(q.root, i + 1, true)).(pc := l.base + 2);
      var ks := LoopRuns(env, prog, q, l, table, i + 1, m1);
      YieldsSome(env, prog, m1, a.rows, a.ok, ks);
      YieldsAfter(env, prog, m, 1, m1, a.rows, a.ok, ks);
      ns := [1 + ks[0]] + ks[1..];
    } else {
      var m1 := SetCursor(m.(pc := m.pc + 1), l.c, BTree(q.root, i, false));
      EndRuns(env, prog, m1, l.c);
      YieldsEnd(env, prog, m1, 2);
      YieldsAfter(env, prog, m, 1, m1, [], true, [2]);
      ns := [1 + [2][0]] + [2][1..];
    }
  }

  lemma YieldsSome(env: Env, prog: seq<VdbeOp>, m: Machine, rows: seq<seq<Mem>>, ok: bool, ns: seq<nat>)
    requires Yields(env, prog, m, rows, ok, ns)
    ensures |ns| > 0
  {
  }

  /**
    Running the compiled SELECT from its first instruction yields, one row per step, exactly the
    projection of the matching rows in scan order, and then reports completion; it fails at the
    first row whose columns or filter cannot be evaluated.
   */
  lemma SelectRuns(env: Env, prog: seq<VdbeOp>, q: Query, l: Layout, table: seq<TableRow>, m: Machine) returns (ns: seq<nat>)
    requires Loaded(prog, q, l) && m.pc == l.base && l.c < |m.cursors| && l.cond.next <= |m.regs|
    requires q.root in m.tables && m.tables[q.root] == table
    ensures var a := Answers(env, q, l.items, table, 0); Yields(env, prog, m, a.rows, a.ok, ns)
  {
    hide Run, Yields, Loaded, Answers, Exec, At;
    LoadedParts(prog, q, l);
    var head := [Op(OpenRead, l.c, q.root, 0), Op(Rewind, l.c, NextLabel(l) + 1, 0)];
    assert head == [head[0]] + [head[1]];
    AtSplit(prog, l.base, [head[0]], [head[1]]);
    AtOne(prog, l.base, head[0]);
    AtOne(prog, l.base + 1, head[1]);
    Zero(env, prog, m);
    OpenReadOp(env, m.(pc := m.pc + 1), l.c, q.root);
    Then(env, prog, m, 0, m, head[0]);
    var m1 := SetCursor(m.(pc := m.pc + 1), l.c, BTree(q.root, 0, false));
    RewindOp(env, m1.(pc := l.base + 2), l.c, NextLabel(l) + 1);
    Then(env, prog, m, 1, m1, head[1]);
    var a := Answers(env, q, l.items, table, 0);
    if table == [] {
      var m2 := SetCursor(m1.(pc := l.base + 2), l.c, BTree(q.root, 0, false)).(pc := NextLabel(l) + 1);
      EndRuns(env, prog, m2, l.c);
      YieldsEnd(env, prog, m2, 2);
      YieldsAfter(env, prog, m, 2, m2, [], true, [2]);
      NoAnswers(env, q, l.items, table);
      ns := [2 + [2][0]] + [2][1..];
    } else {
      var m2 := SetCursor(m1.(pc := l.base + 2), l.c, BTree(q.root, 0, true));
      var ks := LoopRuns(env, prog, q, l, table, 0, m2);
      YieldsSome(env, prog, m2, a.rows, a.ok, ks);
      YieldsAfter(env, prog, m, 2, m2, a.rows, a.ok, ks);
      ns := [2 + ks[0]] + ks[1..];
    }
  }

  lemma NoAnswers(env: Env, q: Query, items: seq<Item>, table: seq<TableRow>)
    requires table == []
    ensures Answers(env, q, items, table, 0) == Answer([], true)
  {
  }
}
