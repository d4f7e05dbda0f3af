/** Running compiled DELETE and UPDATE: exactly the matching rows change, and the programs halt. */
module DmlMeaning {
  import opened Bytes
  import opened Mem
  import opened Vdbe
  import opened Ast
  import opened ExprCode
  import opened ExprMeaning
  import opened WhereCode
  import opened Projection
  import opened SelectMeaning
  import opened GroupCode
  import opened GroupBlocks
  import opened DmlCode

  /** The cursor is on row |done| of the table, which is done + todo. */
  ghost predicate OnTodo(m: Machine, c: nat, root: int, done: seq<TableRow>, todo: seq<TableRow>) {
    && c < |m.cursors| && m.cursors[c] == BTree(root, |done|, true) && todo != []
    && root in m.tables && m.tables[root] == done + todo
  }

  lemma TodoFits(m: Machine, c: nat, root: int, names: seq<string>, done: seq<TableRow>, todo: seq<TableRow>, reg: nat)
    requires OnTodo(m, c, root, done, todo)
    ensures RecordAt(m, c) == Some(todo[0].data)
    ensures Fits(TableScope(c, names), RowContext(names, todo[0].data), m, reg)
  {
    assert (done + todo)[|done|] == todo[0];
  }

  lemma FilterRuns(env: Env, prog: seq<VdbeOp>, filter: Option<Expr>, sc: Scope, reg: nat, t: nat, m: Machine, ctx: Context) returns (n: nat, out: seq<Mem>)
    requires FilterOf(filter, sc, m.pc, reg, t).Some? && Fits(sc, ctx, m, reg)
    requires At(prog, m.pc, FilterOf(filter, sc, m.pc, reg, t).value.ops) && FilterOf(filter, sc, m.pc, reg, t).value.next <= |m.regs|
    ensures Decides(env, prog, m, n, m.pc + |FilterOf(filter, sc, m.pc, reg, t).value.ops|, t, out, reg, Filtered(env, filter, ctx))
  {
    hide Run, At, WhereOf, Fits, Passes;
    match filter
    case Some(e) =>
      n, out := WhereRuns(env, prog, e, sc, reg, t, m, ctx);
    case None =>
      n, out := 0, m.regs;
      Stay(env, prog, m, reg);
  }

  /** The run fails when `rows` is None, and otherwise ends with these rows in the table and nothing else stored. */
  ghost predicate Ends(env: Env, prog: seq<VdbeOp>, m: Machine, n: nat, root: int, rows: Option<seq<TableRow>>) {
    match rows
    case None => Run(env, prog, m, n) == Fail
    case Some(rs) => Run(env, prog, m, n).Done? && Run(env, prog, m, n).m.tables == m.tables[root := rs]
  }

  lemma EndsAfter(env: Env, prog: seq<VdbeOp>, m: Machine, n: nat, m1: Machine, k: nat, root: int, rows: Option<seq<TableRow>>)
    requires Run(env, prog, m, n) == Next(m1) && Ends(env, prog, m1, k, root, rows)
    requires m1.tables[root := []] == m.tables[root := []]
    ensures Ends(env, prog, m, n + k, root, rows)
  {
    hide Run;
    RunCompose(env, prog, m, n, m1, k);
    if rows.Some? {
      assert m1.tables[root := rows.value] == m1.tables[root := []][root := rows.value];
      assert m.tables[root := rows.value] == m.tables[root := []][root := rows.value];
    }
  }

  lemma CloseRuns(env: Env, prog: seq<VdbeOp>, m: Machine, c: nat, root: int)
    requires At(prog, m.pc, [Op(Close, c, 0, 0), Op(Halt, 0, 0, 0)]) && c < |m.cursors| && root in m.tables
    ensures Ends(env, prog, m, 2, root, Some(m.tables[root]))
  {
    hide Run, Exec;
    var ops := [Op(Close, c, 0, 0), Op(Halt, 0, 0, 0)];
    assert prog[m.pc + 0] == ops[0] && prog[m.pc + 1] == ops[1];
    SelectMeaning.Zero(env, prog, m);
    CloseOp(env, m.(pc := m.pc + 1), c);
    Then(env, prog, m, 0, m, ops[0]);
    var m1 := SetCursor(m.(pc := m.pc + 1), c, Closed);
    HaltOp(env, m1.(pc := m.pc + 2));
    Then(env, prog, m, 1, m1, ops[1]);
    assert m.tables[root := m.tables[root]] == m.tables;
  }

  // ---- DELETE ----

  ghost predicate DeleteLoaded(prog: seq<VdbeOp>, q: DeleteQuery, c: nat, base: nat, reg: nat, cond: Cond) {
    && DeleteFilter(q, c, base, reg, base + 2 + |cond.ops| + 3) == Some(cond)
    && At(prog, base, DeleteOps(q, c, base, cond.ops) + [Op(Halt, 0, 0, 0)])
  }

  lemma DeleteParts(prog: seq<VdbeOp>, q: DeleteQuery, c: nat, base: nat, filter: seq<VdbeOp>)
    requires At(prog, base, DeleteOps(q, c, base, filter) + [Op(Halt, 0, 0, 0)])
    ensures
      var n, top := |filter|, base + 2;
      && At(prog, base, [Op(OpenWrite, c, q.root, 0)]) && At(prog, base + 1, [Op(Rewind, c, top + n + 4, 0)]) && At(prog, top, filter)
      && At(prog, top + n, [Op(Delete, c, 0, 0)]) && At(prog, top + n + 1, [VdbeOp(NextOp, c, top, 0, NoP4, 1)])
      && At(prog, top + n + 2, [Op(Goto, 0, top + n + 4, 0)]) && At(prog, top + n + 3, [Op(NextOp, c, top, 0)])
      && At(prog, top + n + 4, [Op(Close, c, 0, 0), Op(Halt, 0, 0, 0)])
  {
    hide At;
    var n, top := |filter|, base + 2;
    var a, b, d := [Op(OpenWrite, c, q.root, 0)], [Op(Rewind, c, top + n + 4, 0)], [Op(Delete, c, 0, 0)];
    var e, f, g := [VdbeOp(NextOp, c, top, 0, NoP4, 1)], [Op(Goto, 0, top + n + 4, 0)], [Op(NextOp, c, top, 0)];
    var h := [Op(Close, c, 0, 0), Op(Halt, 0, 0, 0)];
    assert DeleteOps(q, c, base, filter) + [Op(Halt, 0, 0, 0)] == a + (b + (filter + (d + (e + (f + (g + h))))));
    AtSplit(prog, base, a, b + (filter + (d + (e + (f + (g + h))))));
    AtSplit(prog, base + 1, b, filter + (d + (e + (f + (g + h)))));
    AtSplit(prog, top, filter, d + (e + (f + (g + h))));
    AtSplit(prog, top + n, d, e + (f + (g + h)));
    AtSplit(prog, top + n + 1, e, f + (g + h));
    AtSplit(prog, top + n + 2, f, g + h);
    AtSplit(prog, top + n + 3, g, h);
  }

  lemma DeleteOp(env: Env, m: Machine, c: nat, root: int, done: seq<TableRow>, todo: seq<TableRow>)
    requires OnTodo(m, c, root, done, todo)
    ensures
      Exec(env, Op(Delete, c, 0, 0), m)
      == Next(SetCursor(m, c, BTree(root, |done|, todo[1..] != [])).(tables := m.tables[root := done + todo[1..]],
                                                                       room := m.room[root := RoomOf(m, root) + 2]))
  {
    var rows := done + todo;
    assert rows[..|done|] + rows[|done| + 1..] == done + todo[1..];
  }

  /** Next after a deletion: a cursor that is still valid is already on the next row. */
  lemma NextDeletedOp(env: Env, m: Machine, c: nat, t: nat)
    requires c < |m.cursors| && m.cursors[c].BTree? && m.cursors[c].root in m.tables
    ensures
      var k := m.cursors[c];
      Exec(env, VdbeOp(NextOp, c, t, 0, NoP4, 1), m) == Next(if k.valid then m.(pc := t) else SetCursor(m, c, BTree(k.root, k.at, false)))
  {
  }

  /** From the loop top: the rows still to come that match are deleted, the others stay, in order. */
  lemma {:induction false} DeleteLoop(env: Env, prog: seq<VdbeOp>, q: DeleteQuery, c: nat, base: nat, reg: nat, cond: Cond, done: seq<TableRow>, todo: seq<TableRow>, m: Machine) returns (n: nat)
    requires DeleteLoaded(prog, q, c, base, reg, cond) && OnTodo(m, c, q.root, done, todo) && m.pc == base + 2 && cond.next <= |m.regs|
    ensures Ends(env, prog, m, n, q.root, match Unmatched(env, q, todo) case None => None case Some(rest) => Some(done + rest))
    decreases |todo|, 0
  {
    hide Run, At, Exec, WhereOf, Fits, Filtered, DeleteOps, FilterOf, RecordAt, Ends;
    var top := base + 2;
    var skip := top + |cond.ops| + 3;
    DeleteParts(prog, q, c, base, cond.ops);
    TodoFits(m, c, q.root, q.names, done, todo, reg);
    var out;
    n, out := FilterRuns(env, prog, q.filter, TableScope(c, q.names), reg, skip, m, RowContext(q.names, todo[0].data));
    var b := Filtered(env, q.filter, RowContext(q.names, todo[0].data));
    DecidesRun(env, prog, m, n, top + |cond.ops|, skip, out, reg, b);
    if b == None {
      EndsFail(env, prog, m, n, q.root);
    } else if b.value {
      var m1 := m.(pc := top + |cond.ops|, regs := out);
      var k, m2 := DropRuns(env, prog, q, c, top, |cond.ops|, done, todo, m1);
      RunCompose(env, prog, m, n, m1, k);
      var j := DeleteRest(env, prog, q, c, base, reg, cond, done, todo[1..], m2);
      EndsAfter(env, prog, m, n + k, m2, j, q.root, match Unmatched(env, q, todo[1..]) case None => None case Some(rest) => Some(done + rest));
      n := n + k + j;
    } else {
      var m1 := m.(pc := skip, regs := out);
      AtOne(prog, skip, Op(NextOp, c, top, 0));
      NextOpOp(env, m1.(pc := skip + 1), c, top);
      Then(env, prog, m, n, m1, Op(NextOp, c, top, 0));
      assert done + todo == done + [todo[0]] + todo[1..];
      var m2 := if |todo| > 1 then SetCursor(m1.(pc := skip + 1), c, BTree(q.root, |done| + 1, true)).(pc := top)
                else SetCursor(m1.(pc := skip + 1), c, BTree(q.root, |done|, false));
      var j := DeleteRest(env, prog, q, c, base, reg, cond, done + [todo[0]], todo[1..], m2);
      EndsAfter(env, prog, m, n + 1, m2, j, q.root, match Unmatched(env, q, todo[1..]) case None => None case Some(rest) => Some(done + [todo[0]] + rest));
      if Unmatched(env, q, todo[1..]).Some? {
        var rest := Unmatched(env, q, todo[1..]).value;
        assert done + ([todo[0]] + rest) == done + [todo[0]] + rest;
      }
      n := n + 1 + j;
    }
  }

  /** Go on with the rows left, or close when there is none. */
  lemma {:induction false} DeleteRest(env: Env, prog: seq<VdbeOp>, q: DeleteQuery, c: nat, base: nat, reg: nat, cond: Cond, done: seq<TableRow>, todo: seq<TableRow>, m: Machine) returns (n: nat)
    requires DeleteLoaded(prog, q, c, base, reg, cond) && cond.next <= |m.regs| && q.root in m.tables && m.tables[q.root] == done + todo
    requires todo != [] ==> OnTodo(m, c, q.root, done, todo) && m.pc == base + 2
    requires todo == [] ==> c < |m.cursors| && m.pc == base + 2 + |cond.ops| + 4
    ensures Ends(env, prog, m, n, q.root, match Unmatched(env, q, todo) case None => None case Some(rest) => Some(done + rest))
    decreases |todo|, 1
  {
    hide Run, At, DeleteOps, FilterOf, Ends;
    if todo == [] {
      DeleteParts(prog, q, c, base, cond.ops);
      CloseRuns(env, prog, m, c, q.root);
      n := 2;
    } else {
      n := DeleteLoop(env, prog, q, c, base, reg, cond, done, todo, m);
    }
  }

  lemma EndsFail(env: Env, prog: seq<VdbeOp>, m: Machine, n: nat, root: int)
    requires Run(env, prog, m, n) == Fail
    ensures Ends(env, prog, m, n, root, None)
  {
  }

  lemma DecidesRun(env: Env, prog: seq<VdbeOp>, m: Machine, n: nat, pass: nat, skip: nat, out: seq<Mem>, reg: nat, b: Option<bool>)
    requires Decides(env, prog, m, n, pass, skip, out, reg, b)
    ensures b == None ==> Run(env, prog, m, n) == Fail
    ensures b.Some? ==> Run(env, prog, m, n) == Next(m.(pc := if b.value then pass else skip, regs := out)) && Kept(m.regs, out, reg) && |out| == |m.regs|
  {
    hide Run;
  }

  /** Delete the current row and go where its Next and Goto lead. */
  lemma DropRuns(env: Env, prog: seq<VdbeOp>, q: DeleteQuery, c: nat, top: nat, k: nat, done: seq<TableRow>, todo: seq<TableRow>, m: Machine) returns (n: nat, m1: Machine)
    requires At(prog, top + k, [Op(Delete, c, 0, 0)]) && At(prog, top + k + 1, [VdbeOp(NextOp, c, top, 0, NoP4, 1)])
    requires At(prog, top + k + 2, [Op(Goto, 0, top + k + 4, 0)]) && m.pc == top + k && OnTodo(m, c, q.root, done, todo)
    ensures Run(env, prog, m, n) == Next(m1) && |m1.regs| == |m.regs| && c < |m1.cursors| && m1.tables == m.tables[q.root := done + todo[1..]]
    ensures if todo[1..] != [] then OnTodo(m1, c, q.root, done, todo[1..]) && m1.pc == top else m1.pc == top + k + 4
  {
    hide Run, At, Exec;
    AtOne(prog, top + k, Op(Delete, c, 0, 0));
    AtOne(prog, top + k + 1, VdbeOp(NextOp, c, top, 0, NoP4, 1));
    AtOne(prog, top + k + 2, Op(Goto, 0, top + k + 4, 0));
    SelectMeaning.Zero(env, prog, m);
    DeleteOp(env, m.(pc := m.pc + 1), c, q.root, done, todo);
    Then(env, prog, m, 0, m, Op(Delete, c, 0, 0));
    var m2 := SetCursor(m.(pc := m.pc + 1), c, BTree(q.root, |done|, todo[1..] != [])).(tables := m.tables[q.root := done + todo[1..]],
                                                                                    room := m.room[q.root := RoomOf(m, q.root) + 2]);
    NextDeletedOp(env, m2.(pc := m.pc + 2), c, top);
    Then(env, prog, m, 1, m2, VdbeOp(NextOp, c, top, 0, NoP4, 1));
    if todo[1..] != [] {
      n, m1 := 2, m2.(pc := top);
    } else {
      var m3 := SetCursor(m2.(pc := m.pc + 2), c, BTree(q.root, |done|, false));
      GotoOp(env, m3.(pc := m.pc + 3), top + k + 4);
      Then(env, prog, m, 2, m3, Op(Goto, 0, top + k + 4, 0));
      n, m1 := 3, m3.(pc := top + k + 4);
    }
  }

  lemma OpenWriteOp(env: Env, m: Machine, c: nat, root: int)
    requires c < |m.cursors|
    ensures Exec(env, Op(OpenWrite, c, root, 0), m) == Next(SetCursor(m, c, BTree(root, 0, false)))
  {
  }

  /** Open the cursor and go to the first row, or to `end` when there is none. */
  lemma OpenRuns(env: Env, prog: seq<VdbeOp>, c: nat, root: int, end: nat, m: Machine) returns (m1: Machine)
    requires At(prog, m.pc, [Op(OpenWrite, c, root, 0)]) && At(prog, m.pc + 1, [Op(Rewind, c, end, 0)]) && c < |m.cursors| && root in m.tables
    ensures Run(env, prog, m, 2) == Next(m1) && m1 == m.(pc := m1.pc, cursors := m1.cursors) && |m1.cursors| == |m.cursors|
    ensures if m.tables[root] != [] then OnTodo(m1, c, root, [], m.tables[root]) && m1.pc == m.pc + 2 else m1.pc == end
  {
    hide Run, At, Exec;
    AtOne(prog, m.pc, Op(OpenWrite, c, root, 0));
    AtOne(prog, m.pc + 1, Op(Rewind, c, end, 0));
    SelectMeaning.Zero(env, prog, m);
    OpenWriteOp(env, m.(pc := m.pc + 1), c, root);
    Then(env, prog, m, 0, m, Op(OpenWrite, c, root, 0));
    var m2 := SetCursor(m.(pc := m.pc + 1), c, BTree(root, 0, false));
    RewindOp(env, m2.(pc := m.pc + 2), c, end);
    Then(env, prog, m, 1, m2, Op(Rewind, c, end, 0));
    m1 := SetCursor(m.(pc := m.pc + 2), c, BTree(root, 0, m.tables[root] != []));
    if m.tables[root] == [] {
      m1 := m1.(pc := end);
    }
    assert [] + m.tables[root] == m.tables[root];
  }

  /** DELETE removes exactly the matching rows and halts; it fails exactly when some row cannot be decided. */
  lemma DeleteRuns(env: Env, prog: seq<VdbeOp>, q: DeleteQuery, c: nat, base: nat, reg: nat, cond: Cond, m: Machine) returns (n: nat)
    requires DeleteLoaded(prog, q, c, base, reg, cond) && m.pc == base && c < |m.cursors| && cond.next <= |m.regs| && q.root in m.tables
    ensures Ends(env, prog, m, n, q.root, Unmatched(env, q, m.tables[q.root]))
  {
    hide Run, At, DeleteOps, FilterOf, Ends, Unmatched;
    DeleteParts(prog, q, c, base, cond.ops);
    var rows := m.tables[q.root];
    var m1 := OpenRuns(env, prog, c, q.root, base + 2 + |cond.ops| + 4, m);
    assert [] + rows == rows;
    var k := DeleteRest(env, prog, q, c, base, reg, cond, [], rows, m1);
    var rest := Unmatched(env, q, rows);
    if rest.Some? {
      assert [] + rest.value == rest.value;
    }
    EndsAfter(env, prog, m, 2, m1, k, q.root, rest);
    n := 2 + k;
  }

  // ---- UPDATE ----

  ghost predicate UpdateLoaded(prog: seq<VdbeOp>, q: UpdateQuery, u: UpdatePlan) {
    UpdateLayout(q, u.c, u.base, u.reg) == Some(u) && At(prog, u.base, UpdateOps(q, u) + [Op(Halt, 0, 0, 0)])
  }

  ghost predicate KeysAscend(rows: seq<TableRow>) {
    forall i, j :: 0 <= i < j < |rows| ==> rows[i].key < rows[j].key
  }

  lemma UpdateFacts(q: UpdateQuery, u: UpdatePlan)
    requires UpdateLayout(q, u.c, u.base, u.reg) == Some(u)
    ensures FilterOf(q.filter, TableScope(u.c, q.names), u.base + 2, u.reg, SkipAt(u, |q.names|)) == Some(Cond(UpdateFilter(q, u), u.cond.next))
    ensures |UpdateFilter(q, u)| == |u.cond.ops| && u.reg <= u.cond.next
    ensures AssignsOf(q, |q.assignments|, TableScope(u.c, q.names), ColumnsAt(u) + |q.names|, BlockEnd(BlockAt(u), |q.names|), BlockAt(u)) == Some(u.assigns)
  {
    hide WhereOf, AssignsOf;
    if q.filter.Some? {
      WhereShape(q.filter.value, TableScope(u.c, q.names), u.base + 2, u.reg, SkipAt(u, |q.names|));
    }
  }

  lemma UpdateParts(prog: seq<VdbeOp>, q: UpdateQuery, u: UpdatePlan)
    requires UpdateLoaded(prog, q, u)
    ensures
      var n := |q.names|;
      && At(prog, u.base, [Op(OpenWrite, u.c, q.root, 0)]) && At(prog, u.base + 1, [Op(Rewind, u.c, CloseAt(u, n), 0)])
      && At(prog, u.base + 2, UpdateFilter(q, u)) && At(prog, ColumnsAt(u), FieldOps(u.c, 0, BlockAt(u), n))
      && At(prog, ColumnsAt(u) + n, u.assigns.ops) && At(prog, TailAt(u, n), UpdateTail(q, u) + [Op(Halt, 0, 0, 0)])
  {
    hide At, UpdateLayout, UpdateFilter, FieldOps, UpdateTail;
    UpdateFacts(q, u);
    var n := |q.names|;
    var a, b := [Op(OpenWrite, u.c, q.root, 0)], [Op(Rewind, u.c, CloseAt(u, n), 0)];
    var d, e, f := UpdateFilter(q, u), FieldOps(u.c, 0, BlockAt(u), n), u.assigns.ops;
    var g := UpdateTail(q, u) + [Op(Halt, 0, 0, 0)];
    Rightwards(a, b, d, e, f, UpdateTail(q, u), [Op(Halt, 0, 0, 0)]);
    assert [Op(OpenWrite, u.c, q.root, 0), Op(Rewind, u.c, CloseAt(u, n), 0)] == a + b;
    AtSplit(prog, u.base, a, b + (d + (e + (f + g))));
    AtSplit(prog, u.base + 1, b, d + (e + (f + g)));
    AtSplit(prog, u.base + 2, d, e + (f + g));
    AtSplit(prog, ColumnsAt(u), e, f + g);
    AtSplit(prog, ColumnsAt(u) + n, f, g);
  }

  lemma Rightwards<T>(a: seq<T>, b: seq<T>, d: seq<T>, e: seq<T>, f: seq<T>, g: seq<T>, h: seq<T>)
    ensures a + b + d + e + f + g + h == a + (b + (d + (e + (f + (g + h)))))
  {
  }

  /** The block holds vals, and registers below it are kept. */
  ghost predicate Loads(env: Env, prog: seq<VdbeOp>, m: Machine, n: nat, end: nat, out: seq<Mem>, dst: nat, vals: Option<seq<Mem>>) {
    match vals
    case None => Run(env, prog, m, n) == Fail
    case Some(vs) => Run(env, prog, m, n) == Next(m.(pc := end, regs := out)) && |out| == |m.regs| && Block(m.(pc := end, regs := out), dst, vs)
  }

  ghost predicate Block(m: Machine, r: nat, ks: seq<Mem>) {
    r + |ks| <= |m.regs| && m.regs[r..r + |ks|] == ks
  }

  lemma AssignedOne(m: Machine, out: seq<Mem>, dst: nat, vs: seq<Mem>, i: nat, v: Mem, reg: nat)
    requires Block(m, dst, vs) && i < |vs| && dst + |vs| <= reg && KeptBut(m.regs, out, reg, dst + i, 1) && dst + i < |out| && out[dst + i] == v
    ensures dst + |vs| <= |out| && out[dst..dst + |vs|] == vs[i := v]
  {
    var old_, new_ := m.regs[dst..dst + |vs|], out[dst..dst + |vs|];
    forall k | 0 <= k < |vs| ensures new_[k] == vs[i := v][k] {
      assert old_[k] == vs[k];
    }
  }

  /** The assignments fill the block with the new values, each computed from the row under the cursor. */
  lemma {:induction false} AssignRuns(env: Env, prog: seq<VdbeOp>, q: UpdateQuery, k: nat, c: nat, reg: nat, dst: nat, m: Machine, data: Data, vals: seq<Mem>) returns (n: nat, out: seq<Mem>)
    requires k <= |q.assignments| && |vals| == |q.names| && dst + |q.names| <= reg && Block(m, dst, vals)
    requires AssignsOf(q, k, TableScope(c, q.names), m.pc, reg, dst).Some? && RecordAt(m, c) == Some(data)
    requires At(prog, m.pc, AssignsOf(q, k, TableScope(c, q.names), m.pc, reg, dst).value.ops) && AssignsOf(q, k, TableScope(c, q.names), m.pc, reg, dst).value.next <= |m.regs|
    ensures
      var code := AssignsOf(q, k, TableScope(c, q.names), m.pc, reg, dst).value;
      Loads(env, prog, m, n, m.pc + |code.ops|, out, dst, Assigned(env, q, RowContext(q.names, data), vals, k))
    decreases k
  {
    hide Run, At, ItemOf, Eval, RecordAt, Fits, Position, Fills;
    var sc, ctx := TableScope(c, q.names), RowContext(q.names, data);
    n, out := 0, m.regs;
    if k == 0 {
      SelectMeaning.Zero(env, prog, m);
      assert m.(pc := m.pc, regs := m.regs) == m;
    } else {
      var p := AssignsOf(q, k - 1, sc, m.pc, reg, dst).value;
      var i := Position(q.names, q.assignments[k - 1].column).value;
      PositionBound(q.names, q.assignments[k - 1].column);
      var item := Computed(q.assignments[k - 1].value);
      var code := ItemOf(item, sc, m.pc + |p.ops|, p.next, dst + i).value;
      AtSplit(prog, m.pc, p.ops, code.ops);
      n, out := AssignRuns(env, prog, q, k - 1, c, reg, dst, m, data, vals);
      var vs := Assigned(env, q, ctx, vals, k - 1);
      if vs.Some? {
        var m1 := m.(pc := m.pc + |p.ops|, regs := out);
        RecordStays(m, c, m1.pc, out);
        TableFits(m1, c, q.names, data, p.next);
        var j, regs := ItemRuns(env, prog, item, sc, p.next, dst + i, m1, ctx);
        var v := Eval(env, q.assignments[k - 1].value, ctx);
        FillsOne(env, prog, m1, j, m.pc + |p.ops| + |code.ops|, regs, p.next, dst + i, v);
        RunCompose(env, prog, m, n, m1, j);
        if v.Some? {
          AssignedOne(m1, regs, dst, vs.value, i, v.value, p.next);
        }
        n, out := n + j, regs;
      }
    }
  }

  lemma {:induction false} PositionBound(names: seq<string>, name: string)
    requires Position(names, name).Some?
    ensures Position(names, name).value < |names|
  {
    if !SameName(names[0], name) {
      PositionBound(names[1..], name);
    }
  }

  lemma TableFits(m: Machine, c: nat, names: seq<string>, data: Data, reg: nat)
    requires RecordAt(m, c) == Some(data)
    ensures Fits(TableScope(c, names), RowContext(names, data), m, reg)
  {
  }

  lemma FillsOne(env: Env, prog: seq<VdbeOp>, m: Machine, n: nat, end: nat, out: seq<Mem>, reg: nat, r: nat, v: Option<Mem>)
    requires Fills(env, prog, m, n, end, out, reg, r, 1, match v case None => None case Some(x) => Some([x]))
    ensures v == None ==> Run(env, prog, m, n) == Fail
    ensures v.Some? ==> Run(env, prog, m, n) == Next(m.(pc := end, regs := out)) && KeptBut(m.regs, out, reg, r, 1) && r < |out| && out[r] == v.value
  {
    hide Run;
    if v.Some? {
      assert out[r..r + 1][0] == v.value;
    }
  }

  /** Read the columns, apply the assignments, and make the new record. */
  lemma RewriteRuns(env: Env, prog: seq<VdbeOp>, q: UpdateQuery, u: UpdatePlan, data: Data, m: Machine) returns (n: nat, out: seq<Mem>)
    requires At(prog, ColumnsAt(u), FieldOps(u.c, 0, BlockAt(u), |q.names|)) && At(prog, ColumnsAt(u) + |q.names|, u.assigns.ops)
    requires AssignsOf(q, |q.assignments|, TableScope(u.c, q.names), ColumnsAt(u) + |q.names|, BlockEnd(BlockAt(u), |q.names|), BlockAt(u)) == Some(u.assigns)
    requires m.pc == ColumnsAt(u) && RecordAt(m, u.c) == Some(data) && u.assigns.next <= |m.regs|
    ensures
      var vals := match FieldsFrom(env, data, 0, |q.names|) case None => None case Some(vs) => Assigned(env, q, RowContext(q.names, data), vs, |q.assignments|);
      Loads(env, prog, m, n, TailAt(u, |q.names|), out, BlockAt(u), vals)
  {
    hide Run, At, FieldOps, AssignsOf, FieldsFrom, Assigned, RecordAt;
    n, out := FieldsRun(env, prog, m, u.c, 0, BlockAt(u), |q.names|, data);
    var vs := FieldsFrom(env, data, 0, |q.names|);
    PutsFacts(env, prog, m, n, ColumnsAt(u) + |q.names|, out, BlockAt(u), vs);
    if vs.Some? {
      var m1 := m.(pc := ColumnsAt(u) + |q.names|, regs := out);
      RecordStays(m, u.c, m1.pc, out);
      var k, regs := AssignRuns(env, prog, q, |q.assignments|, u.c, BlockEnd(BlockAt(u), |q.names|), BlockAt(u), m1, data, vs.value);
      RunCompose(env, prog, m, n, m1, k);
      n, out := n + k, regs;
    }
  }

  lemma RowIdOp(env: Env, m: Machine, c: nat, root: int, done: seq<TableRow>, todo: seq<TableRow>, r: nat)
    requires OnTodo(m, c, root, done, todo)
    ensures Exec(env, Op(RowId, c, r, 0), m) == Put(m, r, Int(AsRowid(todo[0].key)))
  {
    assert (done + todo)[|done|] == todo[0];
  }

  lemma SeekAt(done: seq<TableRow>, todo: seq<TableRow>, key: U64)
    requires KeysAscend(done + todo) && (forall i :: 0 <= i < |done| ==> done[i].key < key) && (todo != [] ==> todo[0].key >= key)
    ensures SeekPos(done + todo, key) == |done|
  {
    var rows := done + todo;
    forall i | 0 <= i < |done| ensures rows[i].key < key {
      assert rows[i] == done[i];
    }
    assert todo != [] ==> rows[|done|] == todo[0];
    SeekUnique(rows, key, |done|);
  }

  lemma SeekUnique(rows: seq<TableRow>, key: U64, k: nat)
    requires k <= |rows| && (forall i :: 0 <= i < k ==> rows[i].key < key) && (k < |rows| ==> rows[k].key >= key)
    ensures SeekPos(rows, key) == k
  {
    var i := SeekPos(rows, key);
    assert !(i < k) && !(k < i);
  }

  lemma InsertOp(env: Env, m: Machine, c: nat, rec: nat, rowid: nat, root: int, done: seq<TableRow>, todo: seq<TableRow>, key: U64, data: Data)
    requires c < |m.cursors| && m.cursors[c].BTree? && m.cursors[c].root == root && root in m.tables && m.tables[root] == done + todo
    requires rec < |m.regs| && rowid < |m.regs| && m.regs[rowid] == Int(AsRowid(key)) && m.regs[rec] == Blob(data)
    requires SeekPos(done + todo, key) == |done| && 2 + RowSize(env, TableRow(key, data)) <= RoomOf(m, root)
    ensures
      Exec(env, Op(Insert, c, rec, rowid), m)
      == Next(SetCursor(m, c, BTree(root, 0, false)).(tables := m.tables[root := done + [TableRow(key, data)] + todo],
                                                        room := m.room[root := RoomOf(m, root) - 2 - RowSize(env, TableRow(key, data))]))
  {
    assert AsKey(AsRowid(key)) == key;
    assert (done + todo)[..|done|] == done && (done + todo)[|done|..] == todo;
  }

  lemma SeekGtOp(env: Env, m: Machine, c: nat, t: nat, rowid: nat, root: int, done: seq<TableRow>, row: TableRow, todo: seq<TableRow>)
    requires c < |m.cursors| && m.cursors[c].BTree? && m.cursors[c].root == root && root in m.tables && m.tables[root] == done + [row] + todo
    requires rowid < |m.regs| && m.regs[rowid] == Int(AsRowid(row.key)) && SeekPos(done + [row] + todo, row.key) == |done|
    ensures
      Exec(env, Op(SeekGt, c, t, rowid), m)
      == Next(if todo != [] then SetCursor(m, c, BTree(root, |done| + 1, true)) else SetCursor(m, c, BTree(root, |done|, false)).(pc := t))
  {
    assert AsKey(AsRowid(row.key)) == row.key;
    assert (done + [row] + todo)[|done|] == row;
  }

  lemma TailParts(prog: seq<VdbeOp>, q: UpdateQuery, u: UpdatePlan)
    requires At(prog, TailAt(u, |q.names|), UpdateTail(q, u) + [Op(Halt, 0, 0, 0)])
    ensures
      var n, a, r := |q.names|, TailAt(u, |q.names|), RowidReg(u);
      && a + 8 < |prog|
      && prog[a] == Op(RowId, u.c, r, 0) && prog[a + 1] == Op(MakeRecord, BlockAt(u), n, r + 1) && prog[a + 2] == Op(Delete, u.c, 0, 0)
      && prog[a + 3] == Op(Insert, u.c, r + 1, r) && prog[a + 4] == Op(SeekGt, u.c, CloseAt(u, n), r) && prog[a + 5] == Op(Goto, 0, u.base + 2, 0)
      && prog[a + 6] == Op(NextOp, u.c, u.base + 2, 0) && At(prog, CloseAt(u, n), [Op(Close, u.c, 0, 0), Op(Halt, 0, 0, 0)])
  {
    var a, ops := TailAt(u, |q.names|), UpdateTail(q, u) + [Op(Halt, 0, 0, 0)];
    assert prog[a + 0] == ops[0] && prog[a + 1] == ops[1] && prog[a + 2] == ops[2] && prog[a + 3] == ops[3];
    assert prog[a + 4] == ops[4] && prog[a + 5] == ops[5] && prog[a + 6] == ops[6] && prog[a + 7] == ops[7] && prog[a + 8] == ops[8];
    forall i | 0 <= i < 2 ensures prog[CloseAt(u, |q.names|) + i] == [Op(Close, u.c, 0, 0), Op(Halt, 0, 0, 0)][i] {
      assert prog[a + 7 + i] == ops[7 + i];
    }
  }

  /** Read the rowid, make the record, and replace the row. */
  lemma ReplaceRuns(env: Env, prog: seq<VdbeOp>, q: UpdateQuery, u: UpdatePlan, done: seq<TableRow>, todo: seq<TableRow>, vs: seq<Mem>, m: Machine) returns (n: nat, m1: Machine)
    requires At(prog, TailAt(u, |q.names|), UpdateTail(q, u) + [Op(Halt, 0, 0, 0)]) && m.pc == TailAt(u, |q.names|)
    requires OnTodo(m, u.c, q.root, done, todo) && KeysAscend(done + todo) && Block(m, BlockAt(u), vs) && |vs| == |q.names|
    requires BlockAt(u) + |vs| <= RowidReg(u) && RowidReg(u) + 2 <= |m.regs|
    requires RecordOf(vs).Some? ==> RowSize(env, TableRow(todo[0].key, RecordOf(vs).value)) <= RoomOf(m, q.root)
    ensures
      match RecordOf(vs)
      case None => Run(env, prog, m, n) == Fail
      case Some(data) =>
        var row := TableRow(todo[0].key, data);
        && RoomOf(m1, q.root) == RoomOf(m, q.root) - RowSize(env, row)
        && Run(env, prog, m, n) == Next(m1) && |m1.regs| == |m.regs| && m1.pc == TailAt(u, |q.names|) + 4 && m1.accs == m.accs
        && m1.regs[RowidReg(u)] == Int(AsRowid(row.key)) && m1.tables == m.tables[q.root := done + [row] + todo[1..]]
        && u.c < |m1.cursors| && m1.cursors[u.c] == BTree(q.root, 0, false)
  {
    hide Run, At, Exec, RecordOf, UpdateTail, SeekPos, KeysAscend, RowSize;
    TailParts(prog, q, u);
    var a, r, k := TailAt(u, |q.names|), RowidReg(u), |q.names|;
    var key := todo[0].key;
    SelectMeaning.Zero(env, prog, m);
    RowIdOp(env, m.(pc := a + 1), u.c, q.root, done, todo, r);
    Then(env, prog, m, 0, m, prog[a]);
    var m2 := m.(pc := a + 1, regs := m.regs[r := Int(AsRowid(key))]);
    assert m2.regs[BlockAt(u)..BlockAt(u) + k] == vs;
    MakeRecordOp(env, m2.(pc := a + 2), BlockAt(u), k, r + 1);
    Then(env, prog, m, 1, m2, prog[a + 1]);
    n, m1 := 2, m;
    if RecordOf(vs).Some? {
      var data := RecordOf(vs).value;
      var m3 := m2.(pc := a + 2, regs := m2.regs[r + 1 := Blob(data)]);
      DeleteOp(env, m3.(pc := a + 3), u.c, q.root, done, todo);
      Then(env, prog, m, 2, m3, prog[a + 2]);
      var free, size := RoomOf(m, q.root), RowSize(env, TableRow(key, data));
      var m4 := SetCursor(m3.(pc := a + 3), u.c, BTree(q.root, |done|, todo[1..] != [])).(tables := m.tables[q.root := done + todo[1..]],
                                                                                        room := m.room[q.root := free + 2]);
      KeysAround(done, todo);
      SeekAt(done, todo[1..], key);
      InsertOp(env, m4.(pc := a + 4), u.c, r + 1, r, q.root, done, todo[1..], key, data);
      Then(env, prog, m, 3, m4, prog[a + 3]);
      n, m1 := 4, SetCursor(m4.(pc := a + 4), u.c, BTree(q.root, 0, false)).(tables := m4.tables[q.root := done + [TableRow(key, data)] + todo[1..]],
                                                                             room := m4.room[q.root := free - size]);
    }
  }

  lemma MakeRecordOp(env: Env, m: Machine, start: nat, n: nat, r: nat)
    requires start + n <= |m.regs|
    ensures Exec(env, Op(MakeRecord, start, n, r), m) == match RecordOf(m.regs[start..start + n]) case None => Fail case Some(data) => Put(m, r, Blob(data))
  {
    hide RecordOf;
  }

  /** What the key order says around the current row. */
  lemma KeysAround(done: seq<TableRow>, todo: seq<TableRow>)
    requires KeysAscend(done + todo) && todo != []
    ensures KeysAscend(done + todo[1..])
    ensures forall i :: 0 <= i < |done| ==> done[i].key < todo[0].key
    ensures todo[1..] != [] ==> todo[1].key > todo[0].key
    ensures forall row: TableRow :: row.key == todo[0].key ==> KeysAscend(done + [row] + todo[1..])
  {
    var rows := done + todo;
    assert rows[|done|] == todo[0];
    forall i | 0 <= i < |done| ensures done[i].key < todo[0].key {
      assert rows[i] == done[i];
    }
    if |todo| > 1 {
      assert rows[|done| + 1] == todo[1];
    }
    var rest := done + todo[1..];
    forall i, j | 0 <= i < j < |rest| ensures rest[i].key < rest[j].key {
      assert rest[i] == rows[if i < |done| then i else i + 1] && rest[j] == rows[if j < |done| then j else j + 1];
    }
    forall row: TableRow | row.key == todo[0].key ensures KeysAscend(done + [row] + todo[1..]) {
      var new_ := done + [row] + todo[1..];
      forall i, j | 0 <= i < j < |new_| ensures new_[i].key < new_[j].key {
        assert new_[i].key == rows[i].key && new_[j].key == rows[j].key;
      }
    }
  }

  /** After the replacement: seek past the row, and go on or close. */
  lemma SeekRuns(env: Env, prog: seq<VdbeOp>, q: UpdateQuery, u: UpdatePlan, done: seq<TableRow>, row: TableRow, todo: seq<TableRow>, m: Machine) returns (n: nat, m1: Machine)
    requires At(prog, TailAt(u, |q.names|), UpdateTail(q, u) + [Op(Halt, 0, 0, 0)]) && m.pc == TailAt(u, |q.names|) + 4
    requires u.c < |m.cursors| && m.cursors[u.c] == BTree(q.root, 0, false) && q.root in m.tables && m.tables[q.root] == done + [row] + todo
    requires KeysAscend(done + [row] + todo) && RowidReg(u) < |m.regs| && m.regs[RowidReg(u)] == Int(AsRowid(row.key))
    ensures Run(env, prog, m, n) == Next(m1) && m1 == m.(pc := m1.pc, cursors := m1.cursors) && u.c < |m1.cursors|
    ensures if todo != [] then OnTodo(m1, u.c, q.root, done + [row], todo) && m1.pc == u.base + 2 else m1.pc == CloseAt(u, |q.names|)
  {
    hide Run, At, Exec, UpdateTail, SeekPos, KeysAscend;
    TailParts(prog, q, u);
    var a := TailAt(u, |q.names|);
    SelectMeaning.Zero(env, prog, m);
    SeekSelf(done, row, todo);
    SeekGtOp(env, m.(pc := a + 5), u.c, CloseAt(u, |q.names|), RowidReg(u), q.root, done, row, todo);
    Then(env, prog, m, 0, m, prog[a + 4]);
    if todo != [] {
      var m2 := SetCursor(m.(pc := a + 5), u.c, BTree(q.root, |done| + 1, true));
      GotoOp(env, m2.(pc := a + 6), u.base + 2);
      Then(env, prog, m, 1, m2, prog[a + 5]);
      n, m1 := 2, m2.(pc := u.base + 2);
    } else {
      n, m1 := 1, SetCursor(m.(pc := a + 5), u.c, BTree(q.root, |done|, false)).(pc := CloseAt(u, |q.names|));
    }
  }

  lemma SeekSelf(done: seq<TableRow>, row: TableRow, todo: seq<TableRow>)
    requires KeysAscend(done + [row] + todo)
    ensures SeekPos(done + [row] + todo, row.key) == |done|
  {
    var rows := done + [row] + todo;
    assert rows == done + ([row] + todo);
    assert rows[|done|] == row;
    forall i | 0 <= i < |done| ensures done[i].key < row.key {
      assert rows[i] == done[i];
    }
    SeekAt(done, [row] + todo, row.key);
  }

  /** From the loop top: the rows still to come are updated in turn, each once, and the program ends. */
  lemma {:induction false} UpdateLoop(env: Env, prog: seq<VdbeOp>, q: UpdateQuery, u: UpdatePlan, done: seq<TableRow>, todo: seq<TableRow>, m: Machine) returns (n: nat)
    requires UpdateLoaded(prog, q, u) && OnTodo(m, u.c, q.root, done, todo) && m.pc == u.base + 2 && RowidReg(u) + 2 <= |m.regs|
    requires KeysAscend(done + todo) && Rewritten(env, q, todo) <= RoomOf(m, q.root)
    ensures Ends(env, prog, m, n, q.root, match UpdatedRows(env, q, todo) case None => None case Some(rest) => Some(done + rest))
    decreases |todo|, 0
  {
    hide Run, At, Exec, FilterOf, Fits, Filtered, RecordAt, Ends, UpdateLoaded, NewRecord, AssignsOf, KeysAscend, UpdateTail, UpdateFilter, UpdatedRows, OnTodo, Rewritten, RowSize;
    RewrittenFirst(env, q, todo);
    TodoLength(m, u.c, q.root, done, todo);
    UpdateParts(prog, q, u);
    Laid(prog, q, u);
    UpdateFacts(q, u);
    TodoFits(m, u.c, q.root, q.names, done, todo, u.reg);
    var row := todo[0];
    var ctx := RowContext(q.names, row.data);
    var skip := SkipAt(u, |q.names|);
    var out;
    n, out := FilterRuns(env, prog, q.filter, TableScope(u.c, q.names), u.reg, skip, m, ctx);
    var b := Filtered(env, q.filter, ctx);
    DecidesRun(env, prog, m, n, ColumnsAt(u), skip, out, u.reg, b);
    UpdatedFirst(env, q, todo);
    if b == None {
      EndsFail(env, prog, m, n, q.root);
    } else if b.value {
      var m1 := m.(pc := ColumnsAt(u), regs := out);
      TodoSame(m, m1, u.c, q.root, done, todo);
      var k, m2 := MatchRuns(env, prog, q, u, done, todo, m1);
      RunCompose(env, prog, m, n, m1, k);
      var data := NewRecord(env, q, row.data);
      if data == None {
        n := n + k;
        EndsFail(env, prog, m, n, q.root);
      } else {
        var new_ := TableRow(row.key, data.value);
        KeysAround(done, todo);
        var j := UpdateRest(env, prog, q, u, done + [new_], todo[1..], m2);
        EndsAfter(env, prog, m, n + k, m2, j, q.root, match UpdatedRows(env, q, todo[1..]) case None => None case Some(rest) => Some(done + [new_] + rest));
        Regroup(env, q, done, new_, todo[1..]);
        n := n + k + j;
      }
    } else {
      var m1 := m.(pc := skip, regs := out);
      TodoSame(m, m1, u.c, q.root, done, todo);
      var m2 := PassRuns(env, prog, q, u, done, todo, m1);
      RunCompose(env, prog, m, n, m1, 1);
      assert done + todo == done + [row] + todo[1..];
      var j := UpdateRest(env, prog, q, u, done + [row], todo[1..], m2);
      EndsAfter(env, prog, m, n + 1, m2, j, q.root, match UpdatedRows(env, q, todo[1..]) case None => None case Some(rest) => Some(done + [row] + rest));
      Regroup(env, q, done, row, todo[1..]);
      n := n + 1 + j;
    }
  }

  /** A row that does not match is passed over. */
  lemma PassRuns(env: Env, prog: seq<VdbeOp>, q: UpdateQuery, u: UpdatePlan, done: seq<TableRow>, todo: seq<TableRow>, m: Machine) returns (m1: Machine)
    requires UpdateLoaded(prog, q, u) && OnTodo(m, u.c, q.root, done, todo) && m.pc == SkipAt(u, |q.names|)
    ensures Run(env, prog, m, 1) == Next(m1) && m1 == m.(pc := m1.pc, cursors := m1.cursors) && u.c < |m1.cursors|
    ensures if todo[1..] != [] then OnTodo(m1, u.c, q.root, done + [todo[0]], todo[1..]) && m1.pc == u.base + 2 else m1.pc == CloseAt(u, |q.names|)
  {
    hide Run, At, Exec, UpdateTail, UpdateLoaded;
    UpdateParts(prog, q, u);
    TailParts(prog, q, u);
    SelectMeaning.Zero(env, prog, m);
    NextOpOp(env, m.(pc := m.pc + 1), u.c, u.base + 2);
    Then(env, prog, m, 0, m, prog[m.pc]);
    assert done + todo == done + [todo[0]] + todo[1..];
    m1 := if |todo| > 1 then SetCursor(m.(pc := m.pc + 1), u.c, BTree(q.root, |done| + 1, true)).(pc := u.base + 2)
          else SetCursor(m.(pc := m.pc + 1), u.c, BTree(q.root, |done|, false));
  }

  lemma Laid(prog: seq<VdbeOp>, q: UpdateQuery, u: UpdatePlan)
    requires UpdateLoaded(prog, q, u)
    ensures UpdateLayout(q, u.c, u.base, u.reg) == Some(u) && BlockAt(u) + |q.names| <= RowidReg(u) && u.cond.next <= RowidReg(u)
  {
    hide AssignsOf, FilterOf;
  }

  lemma RewrittenFirst(env: Env, q: UpdateQuery, todo: seq<TableRow>)
    ensures todo != [] ==> Rewritten(env, q, todo) == RewrittenSize(env, q, todo[0]) + Rewritten(env, q, todo[1..])
  {
    hide RewrittenSize;
  }

  lemma UpdatedFirst(env: Env, q: UpdateQuery, todo: seq<TableRow>)
    requires todo != []
    ensures
      UpdatedRows(env, q, todo) == match UpdatedRow(env, q, todo[0]) case None => None case Some(row) => (
        match UpdatedRows(env, q, todo[1..]) case None => None case Some(rest) => Some([row] + rest))
  {
    hide UpdatedRow;
  }

  lemma Regroup(env: Env, q: UpdateQuery, done: seq<TableRow>, row: TableRow, todo: seq<TableRow>)
    ensures UpdatedRows(env, q, todo).Some? ==>
      var rest := UpdatedRows(env, q, todo).value; done + ([row] + rest) == done + [row] + rest
  {
  }

  /** The body for a matching row. */
  lemma MatchRuns(env: Env, prog: seq<VdbeOp>, q: UpdateQuery, u: UpdatePlan, done: seq<TableRow>, todo: seq<TableRow>, m: Machine) returns (n: nat, m1: Machine)
    requires UpdateLoaded(prog, q, u) && OnTodo(m, u.c, q.root, done, todo) && m.pc == ColumnsAt(u) && RowidReg(u) + 2 <= |m.regs|
    requires KeysAscend(done + todo)
    requires NewRecord(env, q, todo[0].data).Some? ==> RowSize(env, TableRow(todo[0].key, NewRecord(env, q, todo[0].data).value)) <= RoomOf(m, q.root)
    ensures
      match NewRecord(env, q, todo[0].data)
      case None => Run(env, prog, m, n) == Fail
      case Some(data) =>
        var row := TableRow(todo[0].key, data);
        && RoomOf(m1, q.root) == RoomOf(m, q.root) - RowSize(env, row)
        && Run(env, prog, m, n) == Next(m1) && |m1.regs| == |m.regs| && u.c < |m1.cursors| && m1.tables == m.tables[q.root := done + [row] + todo[1..]]
        && if todo[1..] != [] then OnTodo(m1, u.c, q.root, done + [row], todo[1..]) && m1.pc == u.base + 2 else m1.pc == CloseAt(u, |q.names|)
  {
    hide Run, At, Exec, FilterOf, RecordAt, UpdateLoaded, AssignsOf, KeysAscend, UpdateTail, FieldsFrom, Assigned, RecordOf, FieldOps, OnTodo, RowSize;
    Laid(prog, q, u);
    UpdateParts(prog, q, u);
    UpdateFacts(q, u);
    TodoLength(m, u.c, q.root, done, todo);
    TodoFits(m, u.c, q.root, q.names, done, todo, u.reg);
    var data := todo[0].data;
    var out;
    n, out := RewriteRuns(env, prog, q, u, data, m);
    m1 := m;
    var vals := match FieldsFrom(env, data, 0, |q.names|) case None => None case Some(vs) => Assigned(env, q, RowContext(q.names, data), vs, |q.assignments|);
    if vals.Some? {
      var m2 := m.(pc := TailAt(u, |q.names|), regs := out);
      TodoSame(m, m2, u.c, q.root, done, todo);
      var k, m3 := ReplaceRuns(env, prog, q, u, done, todo, vals.value, m2);
      RunCompose(env, prog, m, n, m2, k);
      n := n + k;
      if RecordOf(vals.value).Some? {
        var row := TableRow(todo[0].key, RecordOf(vals.value).value);
        KeysAround(done, todo);
        var j, m4 := SeekRuns(env, prog, q, u, done, row, todo[1..], m3);
        RunCompose(env, prog, m, n, m3, j);
        n, m1 := n + j, m4;
      }
    }
  }

  lemma TodoLength(m: Machine, c: nat, root: int, done: seq<TableRow>, todo: seq<TableRow>)
    requires OnTodo(m, c, root, done, todo)
    ensures todo != [] && root in m.tables
  {
  }

  lemma TodoSame(m: Machine, m1: Machine, c: nat, root: int, done: seq<TableRow>, todo: seq<TableRow>)
    requires OnTodo(m, c, root, done, todo) && m1.cursors == m.cursors && m1.tables == m.tables
    ensures OnTodo(m1, c, root, done, todo)
  {
  }

  lemma {:induction false} UpdateRest(env: Env, prog: seq<VdbeOp>, q: UpdateQuery, u: UpdatePlan, done: seq<TableRow>, todo: seq<TableRow>, m: Machine) returns (n: nat)
    requires UpdateLoaded(prog, q, u) && RowidReg(u) + 2 <= |m.regs| && q.root in m.tables && m.tables[q.root] == done + todo && KeysAscend(done + todo)
    requires Rewritten(env, q, todo) <= RoomOf(m, q.root)
    requires todo != [] ==> OnTodo(m, u.c, q.root, done, todo) && m.pc == u.base + 2
    requires todo == [] ==> u.c < |m.cursors| && m.pc == CloseAt(u, |q.names|)
    ensures Ends(env, prog, m, n, q.root, match UpdatedRows(env, q, todo) case None => None case Some(rest) => Some(done + rest))
    decreases |todo|, 1
  {
    hide Run, At, Ends, UpdateTail, UpdateLoaded, OnTodo, KeysAscend;
    if todo == [] {
      UpdateParts(prog, q, u);
      TailParts(prog, q, u);
      CloseRuns(env, prog, m, u.c, q.root);
      n := 2;
    } else {
      n := UpdateLoop(env, prog, q, u, done, todo, m);
    }
  }

  /**
    UPDATE changes exactly the matching rows, visiting each row once and computing every assignment
    from the row as it was, and halts; it fails exactly when some row cannot be updated.  The leaf has
    to have room for all the rewritten cells, since the old ones are not given back.
   */
  lemma UpdateRuns(env: Env, prog: seq<VdbeOp>, q: UpdateQuery, u: UpdatePlan, m: Machine) returns (n: nat)
    requires UpdateLoaded(prog, q, u) && m.pc == u.base && u.c < |m.cursors| && RowidReg(u) + 2 <= |m.regs| && q.root in m.tables
    requires KeysAscend(m.tables[q.root]) && Rewritten(env, q, m.tables[q.root]) <= RoomOf(m, q.root)
    ensures Ends(env, prog, m, n, q.root, UpdatedRows(env, q, m.tables[q.root]))
  {
    hide Run, At, Ends, UpdateLoaded, UpdatedRows, OnTodo, UpdateTail, Rewritten;
    UpdateParts(prog, q, u);
    var rows := m.tables[q.root];
    var m1 := OpenRuns(env, prog, u.c, q.root, CloseAt(u, |q.names|), m);
    assert [] + rows == rows;
    var k := UpdateRest(env, prog, q, u, [], rows, m1);
    var rest := UpdatedRows(env, q, rows);
    if rest.Some? {
      assert [] + rest.value == rest.value;
    }
    EndsAfter(env, prog, m, 2, m1, k, q.root, rest);
    n := 2 + k;
  }
}
