/** The scan of a GROUP BY, which fills the sorter, and the whole program. */
module GroupScan {
  import opened Bytes
  import opened Mem
  import opened Vdbe
  import opened Ast
  import opened ExprCode
  import opened ExprMeaning
  import opened WhereCode
  import opened Projection
  import opened SelectCode
  import opened SelectMeaning
  import opened GroupCode
  import opened GroupBlocks
  import opened GroupMeaning

  // ---- More registers ----

  function Wide(m: Machine, extra: seq<Mem>): Machine {
    m.(regs := m.regs + extra)
  }

  lemma WidePut(m: Machine, r: int, v: Mem, extra: seq<Mem>)
    requires Put(m, r, v).Next?
    ensures Put(Wide(m, extra), r, v) == Next(Wide(Put(m, r, v).m, extra))
  {
    assert (m.regs + extra)[r := v] == m.regs[r := v] + extra;
  }

  lemma WideSlice(m: Machine, extra: seq<Mem>, a: int, n: int)
    requires 0 <= a && 0 <= n && a + n <= |m.regs|
    ensures Wide(m, extra).regs[a..a + n] == m.regs[a..a + n]
  {
  }

  lemma WideRegister(env: Env, op: VdbeOp, m: Machine, extra: seq<Mem>)
    requires ExecRegister(env, op, m).Next?
    ensures ExecRegister(env, op, Wide(m, extra)) == Next(Wide(ExecRegister(env, op, m).m, extra))
  {
    hide Compute, RecordOf, Wrap, Put;
    var w := Wide(m, extra);
    if op.opcode.MakeRecord? {
      WideSlice(m, extra, op.p1, op.p2);
      WidePut(m, op.p3, Blob(RecordOf(m.regs[op.p1..op.p1 + op.p2]).value), extra);
    } else if op.opcode.Function? {
      if op.p1 > 0 {
        WideSlice(m, extra, op.p2, op.p1);
      }
      var args := if op.p1 > 0 then m.regs[op.p2..op.p2 + op.p1] else [];
      WidePut(m, op.p3, env.call(op.p4.text, args).value, extra);
    } else {
      forall r, v | Put(m, r, v).Next? ensures Put(w, r, v) == Next(Wide(Put(m, r, v).m, extra)) {
        WidePut(m, r, v, extra);
      }
    }
  }

  lemma WideRoom(m: Machine, extra: seq<Mem>)
    ensures forall root :: RoomOf(Wide(m, extra), root) == RoomOf(m, root)
  {
  }

  lemma WideWrite(env: Env, op: VdbeOp, m: Machine, extra: seq<Mem>)
    requires ExecWrite(env, op, m).Next?
    ensures ExecWrite(env, op, Wide(m, extra)) == Next(Wide(ExecWrite(env, op, m).m, extra))
  {
    hide SeekPos, AsKey, ToInt, RowSize, RoomOf, Index;
    WideRoom(m, extra);
  }

  lemma WideField(env: Env, m: Machine, extra: seq<Mem>, c: int, col: int, r: int)
    requires RecordAt(m, c).Some? && FieldOf(env, RecordAt(m, c).value, Index(col)).Some?
    requires Put(m, r, FieldOf(env, RecordAt(m, c).value, Index(col)).value).Next?
    ensures RecordAt(Wide(m, extra), c) == RecordAt(m, c)
    ensures
      var v := FieldOf(env, RecordAt(m, c).value, Index(col)).value;
      Put(Wide(m, extra), r, v) == Next(Wide(Put(m, r, v).m, extra))
  {
    hide FieldOf;
    WidePut(m, r, FieldOf(env, RecordAt(m, c).value, Index(col)).value, extra);
  }

  lemma WideCursor(env: Env, op: VdbeOp, m: Machine, extra: seq<Mem>)
    requires ExecCursor(env, op, m).Next?
    ensures ExecCursor(env, op, Wide(m, extra)) == Next(Wide(ExecCursor(env, op, m).m, extra))
  {
    hide FieldOf, Put, ExecWrite, RecordAt, Index, AsRowid;
    if op.opcode.Column? {
      WideField(env, m, extra, op.p1, op.p2, op.p3);
    } else if op.opcode.RowId? {
      var k := CursorAt(m, op.p1);
      WidePut(m, op.p2, Int(AsRowid(RowsOf(m, k.root)[k.at].key)), extra);
    } else if ExecWrite(env, op, m).Next? {
      WideWrite(env, op, m, extra);
    }
  }

  lemma WideAggregate(env: Env, op: VdbeOp, m: Machine, extra: seq<Mem>)
    requires ExecAggregate(env, op, m).Next?
    ensures ExecAggregate(env, op, Wide(m, extra)) == Next(Wide(ExecAggregate(env, op, m).m, extra))
  {
    if op.opcode.AggStep? {
      if op.p1 > 0 {
        WideSlice(m, extra, op.p2, op.p1);
      }
      assert (m.regs + extra)[op.p3 := Agg(|m.accs|)] == m.regs[op.p3 := Agg(|m.accs|)] + extra;
    } else {
      forall r, v | Put(m, r, v).Next? ensures Put(Wide(m, extra), r, v) == Next(Wide(Put(m, r, v).m, extra)) {
        WidePut(m, r, v, extra);
      }
    }
  }

  lemma WideJump(env: Env, op: VdbeOp, m: Machine, extra: seq<Mem>)
    requires ExecJump(env, op, m).Next?
    ensures ExecJump(env, op, Wide(m, extra)) == Next(Wide(ExecJump(env, op, m).m, extra))
  {
    hide Holds, IsTruthy;
  }

  lemma WideSorter(env: Env, op: VdbeOp, m: Machine, extra: seq<Mem>)
    requires ExecSorter(env, op, m).Next?
    ensures ExecSorter(env, op, Wide(m, extra)) == Next(Wide(ExecSorter(env, op, m).m, extra))
  {
    hide Sort;
  }

  /** An instruction that works on a register file works the same on a longer one. */
  lemma WideExec(env: Env, op: VdbeOp, m: Machine, extra: seq<Mem>)
    requires Exec(env, op, m).Next?
    ensures Exec(env, op, Wide(m, extra)) == Next(Wide(Exec(env, op, m).m, extra))
  {
    hide ExecRegister, ExecCursor, ExecAggregate, ExecJump, ExecSorter;
    var s := Exec(env, op, m);
    if s == ExecRegister(env, op, m) && Exec(env, op, Wide(m, extra)) == ExecRegister(env, op, Wide(m, extra)) {
      WideRegister(env, op, m, extra);
    } else if s == ExecCursor(env, op, m) && Exec(env, op, Wide(m, extra)) == ExecCursor(env, op, Wide(m, extra)) {
      WideCursor(env, op, m, extra);
    } else if s == ExecAggregate(env, op, m) && Exec(env, op, Wide(m, extra)) == ExecAggregate(env, op, Wide(m, extra)) {
      WideAggregate(env, op, m, extra);
    } else if s == ExecJump(env, op, m) && Exec(env, op, Wide(m, extra)) == ExecJump(env, op, Wide(m, extra)) {
      WideJump(env, op, m, extra);
    } else if s == ExecSorter(env, op, m) && Exec(env, op, Wide(m, extra)) == ExecSorter(env, op, Wide(m, extra)) {
      WideSorter(env, op, m, extra);
    }
  }

  lemma {:induction false} WideRun(env: Env, prog: seq<VdbeOp>, m: Machine, n: nat, extra: seq<Mem>)
    requires Run(env, prog, m, n).Next?
    ensures Run(env, prog, Wide(m, extra), n) == Next(Wide(Run(env, prog, m, n).m, extra))
    decreases n
  {
    hide Exec;
    if n > 0 {
      var m0 := m.(pc := m.pc + 1);
      assert Wide(m, extra).(pc := m.pc + 1) == Wide(m0, extra);
      WideExec(env, prog[m.pc], m0, extra);
      WideRun(env, prog, Advance(env, prog, m).m, n - 1, extra);
    }
  }

  // ---- Scanning ----

  /** The cursor is on row i, the sorter holds recs, and no aggregate has started. */
  ghost predicate Scanning(m: Machine, q: GroupQuery, l: GroupPlan, table: seq<TableRow>, i: nat, recs: seq<Data>) {
    && l.c + 1 < |m.cursors| && m.cursors[l.c] == BTree(q.root, i, true) && m.cursors[l.c + 1] == Sorter(recs, 0)
    && i < |table| && q.root in m.tables && m.tables[q.root] == table
    && Block(m, l.reg, Nulls(|l.aggs|)) && Dst(l) <= |m.regs|
  }

  lemma ScanFits(q: GroupQuery, l: GroupPlan, m: Machine, table: seq<TableRow>, i: nat, recs: seq<Data>)
    requires Scanning(m, q, l, table, i, recs) && l.aggs == Aggregates(q.columns)
    ensures Fits(ScanScope(q, l), ScanContext(q, table[i].data), m, l.reg + |l.aggs|)
  {
    hide Aggregates;
    var sc, known := ScanScope(q, l), ScanContext(q, table[i].data).known;
    forall j | 0 <= j < |sc.bound|
      ensures sc.bound[j].0 == known[j].0 && sc.bound[j].1 < l.reg + |l.aggs| && sc.bound[j].1 < |m.regs| && m.regs[sc.bound[j].1] == known[j].1
    {
      assert m.regs[l.reg..l.reg + |l.aggs|][j] == Nulls(|l.aggs|)[j];
    }
  }

  lemma ScanParts(prog: seq<VdbeOp>, q: GroupQuery, l: GroupPlan)
    requires At(prog, l.base, ScanOps(q, l)) && |PatchedFilter(q, l)| == |l.cond.ops| && |l.list.results| == FieldCount(l)
    ensures At(prog, l.base, [Op(SorterOpen, l.c + 1, 0, 0), Op(OpenRead, l.c, q.root, 0), Op(Rewind, l.c, SortAt(l), 0)])
    ensures At(prog, Top(l), PatchedFilter(q, l)) && At(prog, ListAt(l), l.list.ops)
    ensures At(prog, ListAt(l) + |l.list.ops|, CopyOps(l.list.results, Start(l)))
    ensures At(prog, NextAt(l) - 2, [Op(MakeRecord, Start(l), FieldCount(l), RecordReg(l))])
    ensures At(prog, NextAt(l) - 1, [Op(SorterInsert, l.c + 1, RecordReg(l), 0)])
    ensures At(prog, NextAt(l), [Op(NextOp, l.c, Top(l), 0)])
  {
    hide At, PatchedFilter, CopyOps;
    var a := [Op(SorterOpen, l.c + 1, 0, 0), Op(OpenRead, l.c, q.root, 0), Op(Rewind, l.c, SortAt(l), 0)];
    var b, c, d := PatchedFilter(q, l), l.list.ops, CopyOps(l.list.results, Start(l));
    var e, f, g := [Op(MakeRecord, Start(l), FieldCount(l), RecordReg(l))], [Op(SorterInsert, l.c + 1, RecordReg(l), 0)], [Op(NextOp, l.c, Top(l), 0)];
    assert ScanOps(q, l) == a + (b + (c + (d + (e + (f + g)))));
    AtSplit(prog, l.base, a, b + (c + (d + (e + (f + g)))));
    AtSplit(prog, Top(l), b, c + (d + (e + (f + g))));
    AtSplit(prog, ListAt(l), c, d + (e + (f + g)));
    AtSplit(prog, ListAt(l) + |c|, d, e + (f + g));
    AtSplit(prog, NextAt(l) - 2, e, f + g);
    AtSplit(prog, NextAt(l) - 1, f, g);
  }

  lemma MakeRecordOp(env: Env, m: Machine, start: nat, n: nat, r: nat)
    requires start + n <= |m.regs|
    ensures Exec(env, Op(MakeRecord, start, n, r), m) == match RecordOf(m.regs[start..start + n]) case None => Fail case Some(data) => Put(m, r, Blob(data))
  {
    hide RecordOf;
  }

  lemma SorterInsertOp(env: Env, m: Machine, s: nat, r: nat, data: Data)
    requires r < |m.regs| && m.regs[r] == Blob(data) && s < |m.cursors| && m.cursors[s].Sorter?
    ensures Exec(env, Op(SorterInsert, s, r, 0), m) == Next(SetCursor(m, s, Sorter(m.cursors[s].records + [data], m.cursors[s].pos)))
  {
  }

  /** Evaluate the fields of the current row and hand the record to the sorter. */
  lemma InsertRuns(env: Env, prog: seq<VdbeOp>, q: GroupQuery, l: GroupPlan, table: seq<TableRow>, i: nat, recs: seq<Data>, m: Machine) returns (n: nat, m1: Machine)
    requires GroupLoaded(prog, q, l) && Scanning(m, q, l, table, i, recs) && m.pc == ListAt(l) && l.aggs == Aggregates(q.columns)
    ensures
      var vs := EvalAll(env, FieldExprs(q), ScanContext(q, table[i].data));
      match (match vs case None => None case Some(xs) => RecordOf(xs))
      case None => Run(env, prog, m, n) == Fail
      case Some(rec) =>
        && Run(env, prog, m, n) == Next(m1) && m1 == m.(pc := NextAt(l), regs := m1.regs, cursors := m.cursors[l.c + 1 := Sorter(recs + [rec], 0)])
        && Kept(m.regs, m1.regs, l.reg + |l.aggs|)
  {
    hide Run, At, Exec, EvalAll, ListCodeOf, CopyOps, Aggregates, FieldExprs, RecordOf, Fits, RecordAt, ScanOps, LoopOps, FlushOps, RestOps, LastOps, GroupOps, GroupLayout, FilterOf, ItemsOf, EvaluatesAll, GroupLoaded, ScanPlan, PatchedFilter;
    LoadedIs(prog, q, l);
    GroupParts(prog, q, l);
    PlanFacts(q, l);
    PatchedFacts(q, l);
    ScanParts(prog, q, l);
    ScanFits(q, l, m, table, i, recs);
    var low := l.reg + |l.aggs|;
    FitsLater(ScanScope(q, l), ScanContext(q, table[i].data), m, low, m.pc, m.regs, l.cond.next);
    assert m.(pc := m.pc, regs := m.regs) == m;
    var vs := EvalAll(env, FieldExprs(q), ScanContext(q, table[i].data));
    var out;
    n, out := ListRuns(env, prog, FieldExprs(q), ScanScope(q, l), l.cond.next, m, ScanContext(q, table[i].data));
    AfterAll(env, prog, m, n, ListAt(l) + |l.list.ops|, out, l.cond.next, l.list, vs);
    m1 := m;
    if vs.Some? {
      ReachesKept(env, prog, m, n, ListAt(l) + |l.list.ops|, out, l.cond.next);
      ReachesRun(env, prog, m, n, ListAt(l) + |l.list.ops|, out, l.cond.next);
      var m2 := m.(pc := ListAt(l) + |l.list.ops|, regs := out);
      var k, m3 := PackRuns(env, prog, q, l, recs, vs.value, m2);
      RunCompose(env, prog, m, n, m2, k);
      n, m1 := n + k, m3;
    }
  }

  /** Copy the fields together, make a record of them, and insert it. */
  lemma PackRuns(env: Env, prog: seq<VdbeOp>, q: GroupQuery, l: GroupPlan, recs: seq<Data>, vs: seq<Mem>, m: Machine) returns (n: nat, m1: Machine)
    requires At(prog, ListAt(l) + |l.list.ops|, CopyOps(l.list.results, Start(l))) && At(prog, NextAt(l) - 2, [Op(MakeRecord, Start(l), FieldCount(l), RecordReg(l))])
    requires At(prog, NextAt(l) - 1, [Op(SorterInsert, l.c + 1, RecordReg(l), 0)]) && m.pc == ListAt(l) + |l.list.ops|
    requires |vs| == |l.list.results| == FieldCount(l) && l.c + 1 < |m.cursors| && m.cursors[l.c + 1] == Sorter(recs, 0) && Dst(l) <= |m.regs|
    requires forall i :: 0 <= i < |vs| ==> l.list.results[i] < l.list.next && m.regs[l.list.results[i]] == vs[i]
    ensures
      match RecordOf(vs)
      case None => Run(env, prog, m, n) == Fail
      case Some(rec) =>
        && Run(env, prog, m, n) == Next(m1) && m1 == m.(pc := NextAt(l), regs := m1.regs, cursors := m.cursors[l.c + 1 := Sorter(recs + [rec], 0)])
        && Kept(m.regs, m1.regs, Start(l))
  {
    hide Run, At, Exec, CopyOps, RecordOf;
    var out := CopiesRun(env, prog, m, l.list.results, Start(l));
    var pc := NextAt(l) - 2;
    ReachesKept(env, prog, m, FieldCount(l), pc, out, Start(l));
    ReachesRun(env, prog, m, FieldCount(l), pc, out, Start(l));
    var m2 := m.(pc := pc, regs := out);
    assert out[Start(l)..Start(l) + FieldCount(l)] == vs;
    AtOne(prog, pc, Op(MakeRecord, Start(l), FieldCount(l), RecordReg(l)));
    MakeRecordOp(env, m2.(pc := pc + 1), Start(l), FieldCount(l), RecordReg(l));
    Then(env, prog, m, FieldCount(l), m2, Op(MakeRecord, Start(l), FieldCount(l), RecordReg(l)));
    n, m1 := FieldCount(l) + 1, m;
    var rec := RecordOf(vs);
    if rec.Some? {
      var m3 := m.(pc := pc + 1, regs := out[RecordReg(l) := Blob(rec.value)]);
      AtOne(prog, pc + 1, Op(SorterInsert, l.c + 1, RecordReg(l), 0));
      SorterInsertOp(env, m3.(pc := pc + 2), l.c + 1, RecordReg(l), rec.value);
      Then(env, prog, m, n, m3, Op(SorterInsert, l.c + 1, RecordReg(l), 0));
      n, m1 := n + 1, SetCursor(m3.(pc := pc + 2), l.c + 1, Sorter(recs + [rec.value], 0));
    }
  }

  lemma ScanningStays(m: Machine, m1: Machine, q: GroupQuery, l: GroupPlan, table: seq<TableRow>, i: nat, recs: seq<Data>, recs': seq<Data>)
    requires Scanning(m, q, l, table, i, recs) && |m1.regs| == |m.regs| && Kept(m.regs, m1.regs, l.reg + |l.aggs|)
    requires m1.tables == m.tables && m1.cursors == m.cursors[l.c + 1 := Sorter(recs', 0)]
    ensures Scanning(m1, q, l, table, i, recs')
  {
    assert m1.regs[l.reg..l.reg + |l.aggs|] == m.regs[l.reg..l.reg + |l.aggs|];
  }

  /** One table row: filter it, and insert its record if it passes. */
  lemma EntryRuns(env: Env, prog: seq<VdbeOp>, q: GroupQuery, l: GroupPlan, table: seq<TableRow>, i: nat, recs: seq<Data>, m: Machine) returns (n: nat, m1: Machine)
    requires GroupLoaded(prog, q, l) && Scanning(m, q, l, table, i, recs) && m.pc == Top(l) && l.aggs == Aggregates(q.columns)
    ensures
      match Entry(env, q, table[i].data)
      case None => Run(env, prog, m, n) == Fail
      case Some(rec) =>
        && Run(env, prog, m, n) == Next(m1) && m1 == m.(pc := NextAt(l), regs := m1.regs, cursors := m1.cursors)
        && Kept(m.regs, m1.regs, l.reg + |l.aggs|) && |m1.cursors| == |m.cursors|
        && Scanning(m1, q, l, table, i, if rec.Some? then recs + [rec.value] else recs)
  {
    hide Run, At, EvalAll, ListCodeOf, Aggregates, FieldExprs, RecordOf, Fits, WhereOf, GroupOps, GroupLayout, ItemsOf, Passes, Scanning, GroupLoaded, ScanContext;
    ScanningFacts(m, q, l, table, i, recs);
    var ctx := ScanContext(q, table[i].data);
    var low := l.reg + |l.aggs|;
    var out;
    n, out := FilterRuns(env, prog, q, l, table, i, recs, m);
    var b := Filtered(env, q.filter, ctx);
    DecidesFacts(env, prog, m, n, ListAt(l), NextAt(l), out, low, b);
    m1 := m;
    if b.Some? {
      var m2 := m.(pc := if b.value then ListAt(l) else NextAt(l), regs := out);
      SameSorter(m, q, l, table, i, recs);
      ScanningStays(m, m2, q, l, table, i, recs, recs);
      m1 := m2;
      if b.value {
        var k, m3 := InsertRuns(env, prog, q, l, table, i, recs, m2);
        RunCompose(env, prog, m, n, m2, k);
        n := n + k;
        var vs := EvalAll(env, FieldExprs(q), ctx);
        if vs.Some? && RecordOf(vs.value).Some? {
          m1 := m3;
          ScanningStays(m2, m3, q, l, table, i, recs, recs + [RecordOf(vs.value).value]);
        }
      }
    }
  }

  lemma ScanningFacts(m: Machine, q: GroupQuery, l: GroupPlan, table: seq<TableRow>, i: nat, recs: seq<Data>)
    requires Scanning(m, q, l, table, i, recs)
    ensures i < |table| && Dst(l) <= |m.regs| && l.c + 1 < |m.cursors|
  {
  }

  lemma SameSorter(m: Machine, q: GroupQuery, l: GroupPlan, table: seq<TableRow>, i: nat, recs: seq<Data>)
    requires Scanning(m, q, l, table, i, recs)
    ensures m.cursors == m.cursors[l.c + 1 := Sorter(recs, 0)]
  {
  }

  lemma DecidesFacts(env: Env, prog: seq<VdbeOp>, m: Machine, n: nat, pass: nat, skip: nat, out: seq<Mem>, reg: nat, b: Option<bool>)
    requires Decides(env, prog, m, n, pass, skip, out, reg, b)
    ensures b == None ==> Run(env, prog, m, n) == Fail
    ensures b.Some? ==> Run(env, prog, m, n) == Next(m.(pc := if b.value then pass else skip, regs := out)) && Kept(m.regs, out, reg) && |out| == |m.regs|
  {
    hide Run;
  }

  lemma FilterRuns(env: Env, prog: seq<VdbeOp>, q: GroupQuery, l: GroupPlan, table: seq<TableRow>, i: nat, recs: seq<Data>, m: Machine) returns (n: nat, out: seq<Mem>)
    requires GroupLoaded(prog, q, l) && Scanning(m, q, l, table, i, recs) && m.pc == Top(l) && l.aggs == Aggregates(q.columns)
    ensures Decides(env, prog, m, n, ListAt(l), NextAt(l), out, l.reg + |l.aggs|, Filtered(env, q.filter, ScanContext(q, table[i].data)))
  {
    hide Run, At, ListCodeOf, Aggregates, FieldExprs, Fits, WhereOf, GroupOps, ItemsOf, Passes, ScanOps, LoopOps, FlushOps, RestOps, LastOps, CopyOps, GroupLayout, ScanPlan, GroupLoaded, Exec;
    LoadedIs(prog, q, l);
    GroupParts(prog, q, l);
    PlanFacts(q, l);
    PatchedFacts(q, l);
    ScanParts(prog, q, l);
    ScanFits(q, l, m, table, i, recs);
    var low := l.reg + |l.aggs|;
    if q.filter.Some? {
      n, out := WhereRuns(env, prog, q.filter.value, ScanScope(q, l), low, NextAt(l), m, ScanContext(q, table[i].data));
    } else {
      n, out := 0, m.regs;
      Stay(env, prog, m, low);
    }
  }

  /** From the scan's loop top on row i: either the scan fails, or it ends with all the records in the sorter. */
  lemma {:induction false} ScanLoop(env: Env, prog: seq<VdbeOp>, q: GroupQuery, l: GroupPlan, table: seq<TableRow>, i: nat, recs: seq<Data>, m: Machine) returns (n: nat, m1: Machine)
    requires GroupLoaded(prog, q, l) && Scanning(m, q, l, table, i, recs) && m.pc == Top(l) && l.aggs == Aggregates(q.columns)
    ensures Scanned(env, prog, m, n, m1, l, Collect(env, q, table, i, recs))
    decreases |table| - i
  {
    hide Run, At, Aggregates, GroupLoaded, Scanning, Entry, ScanOps, LoopOps, FlushOps, RestOps, LastOps, Exec, FieldExprs, ListCodeOf, FilterOf, ItemsOf;
    ScanningFacts(m, q, l, table, i, recs);
    n, m1 := EntryRuns(env, prog, q, l, table, i, recs, m);
    var rec := Entry(env, q, table[i].data);
    if rec.Some? {
      var recs' := if rec.value.Some? then recs + [rec.value.value] else recs;
      LoadedIs(prog, q, l);
      GroupParts(prog, q, l);
      PlanFacts(q, l);
      PatchedFacts(q, l);
      ScanParts(prog, q, l);
      var op := Op(NextOp, l.c, Top(l), 0);
      AtOne(prog, NextAt(l), op);
      var m2 := NextScan(env, q, l, table, i, recs', m1);
      Then(env, prog, m, n, m1, op);
      n := n + 1;
      if i + 1 < |table| {
        var k, m3 := ScanLoop(env, prog, q, l, table, i + 1, recs', m2);
        ScannedThen(env, prog, m, n, m2, k, m3, l, Collect(env, q, table, i + 1, recs'));
        n, m1 := n + k, m3;
      } else {
        m1 := m2;
      }
    }
  }

  /** The scan fails, or ends with `recs` in the sorter and only scratch registers changed. */
  ghost predicate Scanned(env: Env, prog: seq<VdbeOp>, m: Machine, n: nat, m1: Machine, l: GroupPlan, recs: Option<seq<Data>>) {
    match recs
    case None => Run(env, prog, m, n) == Fail
    case Some(rs) =>
      && Run(env, prog, m, n) == Next(m1) && m1 == m.(pc := SortAt(l), regs := m1.regs, cursors := m1.cursors)
      && Kept(m.regs, m1.regs, l.reg + |l.aggs|) && |m1.cursors| == |m.cursors| && l.c + 1 < |m.cursors|
      && m1.cursors[l.c + 1] == Sorter(rs, 0) && RecordAt(m1, l.c) == None
  }

  lemma ScannedThen(env: Env, prog: seq<VdbeOp>, m: Machine, n: nat, m1: Machine, k: nat, m2: Machine, l: GroupPlan, recs: Option<seq<Data>>)
    requires Run(env, prog, m, n) == Next(m1) && Scanned(env, prog, m1, k, m2, l, recs)
    requires m1 == m.(pc := m1.pc, regs := m1.regs, cursors := m1.cursors) && Kept(m.regs, m1.regs, l.reg + |l.aggs|) && |m1.cursors| == |m.cursors|
    ensures Scanned(env, prog, m, n + k, m2, l, recs)
  {
    hide Run;
    RunCompose(env, prog, m, n, m1, k);
  }

  lemma NextScan(env: Env, q: GroupQuery, l: GroupPlan, table: seq<TableRow>, i: nat, recs: seq<Data>, m: Machine) returns (m1: Machine)
    requires Scanning(m, q, l, table, i, recs) && m.pc == NextAt(l)
    ensures Exec(env, Op(NextOp, l.c, Top(l), 0), m.(pc := m.pc + 1)) == Next(m1)
    ensures m1 == m.(pc := m1.pc, cursors := m1.cursors) && |m1.cursors| == |m.cursors| && l.c + 1 < |m.cursors| && m1.cursors[l.c + 1] == Sorter(recs, 0)
    ensures i + 1 < |table| ==> m1.pc == Top(l) && Scanning(m1, q, l, table, i + 1, recs)
    ensures i + 1 >= |table| ==> m1.pc == SortAt(l) && RecordAt(m1, l.c) == None
  {
    hide Exec;
    NextOpOp(env, m.(pc := m.pc + 1), l.c, Top(l));
    m1 := if i + 1 < |table| then SetCursor(m.(pc := m.pc + 1), l.c, BTree(q.root, i + 1, true)).(pc := Top(l))
          else SetCursor(m.(pc := m.pc + 1), l.c, BTree(q.root, i, false));
  }

  // ---- The whole program ----

  lemma SorterOpenOp(env: Env, m: Machine, s: nat)
    requires s < |m.cursors|
    ensures Exec(env, Op(SorterOpen, s, 0, 0), m) == Next(SetCursor(m, s, Sorter([], 0)))
  {
  }

  /** Open both cursors and scan the table. */
  lemma FillRuns(env: Env, prog: seq<VdbeOp>, q: GroupQuery, l: GroupPlan, table: seq<TableRow>, m: Machine) returns (n: nat, m1: Machine)
    requires GroupLoaded(prog, q, l) && m.pc == l.base && l.c + 1 < |m.cursors| && Dst(l) <= |m.regs|
    requires q.root in m.tables && m.tables[q.root] == table && Block(m, l.reg, Nulls(|l.aggs|))
    ensures l.aggs == Aggregates(q.columns)
    ensures Scanned(env, prog, m, n, m1, l, Collect(env, q, table, 0, []))
  {
    hide Run, At, Aggregates, GroupLoaded, Entry, ScanOps, LoopOps, FlushOps, RestOps, LastOps, Exec, FieldExprs, ListCodeOf, FilterOf, ItemsOf, Block, GroupLayout, ScanPlan;
    LoadedIs(prog, q, l);
    GroupParts(prog, q, l);
    PlanFacts(q, l);
    PatchedFacts(q, l);
    ScanParts(prog, q, l);
    var a, b, c := Op(SorterOpen, l.c + 1, 0, 0), Op(OpenRead, l.c, q.root, 0), Op(Rewind, l.c, SortAt(l), 0);
    assert [a, b, c] == [a] + ([b] + [c]);
    AtSplit(prog, l.base, [a], [b] + [c]);
    AtSplit(prog, l.base + 1, [b], [c]);
    AtOne(prog, l.base, a);
    AtOne(prog, l.base + 1, b);
    AtOne(prog, l.base + 2, c);
    GroupBlocks.Zero(env, prog, m);
    SorterOpenOp(env, m.(pc := l.base + 1), l.c + 1);
    Then(env, prog, m, 0, m, a);
    var m2 := SetCursor(m.(pc := l.base + 1), l.c + 1, Sorter([], 0));
    OpenReadOp(env, m2.(pc := l.base + 2), l.c, q.root);
    Then(env, prog, m, 1, m2, b);
    var m3 := SetCursor(m2.(pc := l.base + 2), l.c, BTree(q.root, 0, false));
    RewindOp(env, m3.(pc := l.base + 3), l.c, SortAt(l));
    Then(env, prog, m, 2, m3, c);
    n, m1 := 3, SetCursor(m3.(pc := l.base + 3), l.c, BTree(q.root, 0, table != []));
    if table == [] {
      m1 := m1.(pc := SortAt(l));
    } else {
      BlockKept(m, m1, l.reg, Nulls(|l.aggs|));
      var k, m4 := ScanLoop(env, prog, q, l, table, 0, [], m1);
      ScannedThen(env, prog, m, 3, m1, k, m4, l, Collect(env, q, table, 0, []));
      n, m1 := 3 + k, m4;
    }
  }

  lemma {:induction false} SortLength(env: Env, rs: seq<Data>)
    ensures |Sort(env, rs)| == |rs|
  {
    hide CmpRecords;
    if rs != [] {
      SortLength(env, rs[..|rs| - 1]);
      InsertLength(env, Sort(env, rs[..|rs| - 1]), rs[|rs| - 1]);
    }
  }

  lemma {:induction false} InsertLength(env: Env, s: seq<Data>, x: Data)
    ensures |InsertRecord(env, s, x)| == |s| + 1
  {
    hide CmpRecords;
    if s != [] && CmpRecords(env, s[|s| - 1], x) == Greater {
      InsertLength(env, s[..|s| - 1], x);
    }
  }

  lemma SorterSortOp(env: Env, m: Machine, s: nat, t: nat)
    requires s < |m.cursors| && m.cursors[s].Sorter?
    ensures
      var k := m.cursors[s];
      var sorted := SetCursor(m, s, Sorter(Sort(env, k.records), 0));
      Exec(env, Op(SorterSort, s, t, 0), m) == Next(if k.records == [] then sorted.(pc := t) else sorted)
  {
    hide Sort;
  }

  /** The two operations in front of the group loop. */
  lemma SortHead(env: Env, prog: seq<VdbeOp>, q: GroupQuery, l: GroupPlan, recs: seq<Data>, m: Machine) returns (n: nat, m1: Machine)
    requires GroupLoaded(prog, q, l) && m.pc == SortAt(l) && l.last.next <= |m.regs| && l.c + 1 < |m.cursors|
    requires m.cursors[l.c + 1] == Sorter(recs, 0)
    ensures Flag(l, |q.columns|) < |m.regs|
    ensures Run(env, prog, m, n) == Next(m1)
    ensures
      var out := if recs == [] then m.(pc := EndAt(l)) else m.(pc := LoopAt(l), regs := m.regs[Flag(l, |q.columns|) := Int(1)]);
      m1 == SetCursor(out, l.c + 1, Sorter(Sort(env, recs), 0))
  {
    hide Run, At, Aggregates, GroupLoaded, Exec, FilterOf, ListCodeOf, ItemsOf, FieldExprs, ScanOps, FlushOps, RestOps, LastOps, Sort;
    LoadedIs(prog, q, l);
    GroupParts(prog, q, l);
    PlanFacts(q, l);
    LoopParts(prog, q, l);
    var a, b := Op(SorterSort, l.c + 1, EndAt(l), 0), Op(Integer, 1, Flag(l, |q.columns|), 0);
    assert [a, b] == [a] + [b];
    AtSplit(prog, SortAt(l), [a], [b]);
    AtOne(prog, SortAt(l), a);
    AtOne(prog, SortAt(l) + 1, b);
    GroupBlocks.Zero(env, prog, m);
    SorterSortOp(env, m.(pc := SortAt(l) + 1), l.c + 1, EndAt(l));
    Then(env, prog, m, 0, m, a);
    n, m1 := 1, SetCursor(m.(pc := if recs == [] then EndAt(l) else SortAt(l) + 1), l.c + 1, Sorter(Sort(env, recs), 0));
    if recs != [] {
      IntegerOp(env, m1.(pc := LoopAt(l)), 1, Flag(l, |q.columns|));
      Then(env, prog, m, 1, m1, b);
      n, m1 := 2, m1.(pc := LoopAt(l), regs := m1.regs[Flag(l, |q.columns|) := Int(1)]);
    }
  }

  /** Sort the records and go through the groups. */
  lemma SortRuns(env: Env, prog: seq<VdbeOp>, q: GroupQuery, l: GroupPlan, recs: seq<Data>, m: Machine) returns (ns: seq<nat>)
    requires Floats(env) && GroupLoaded(prog, q, l) && m.pc == SortAt(l) && l.last.next <= |m.regs| && l.c + 1 < |m.cursors|
    requires m.cursors[l.c + 1] == Sorter(recs, 0) && RecordAt(m, l.c) == None
    requires Block(m, l.reg, Nulls(|l.aggs|)) && Block(m, Curr(l, |q.columns|), Nulls(l.keys))
    ensures var a := SortedAnswer(env, q, Sort(env, recs)); Yields(env, prog, m, a.rows, a.ok, ns)
  {
    hide Run, At, Aggregates, GroupLoaded, GroupLayout, Exec, Yields, Sort, GroupsFrom, Final, HoldsStates, Floats, FilterOf, ListCodeOf, ItemsOf, FieldExprs, Count, ItemsFor, RowScope, ScanScope;
    LoadedIs(prog, q, l);
    PlanFacts(q, l);
    var rs := Sort(env, recs);
    SortLength(env, recs);
    NullStates(m, l.reg, |l.aggs|);
    var n, m1 := SortHead(env, prog, q, l, recs, m);
    var answer := SortedAnswer(env, q, rs);
    var js;
    if recs == [] {
      HoldsSame(m, m1, l.reg, NoStates(|l.aggs|));
      js := LastRuns(env, prog, q, l, NoStates(|l.aggs|), Nulls(l.keys), m1);
      YieldsSome(env, prog, m1, answer.rows, answer.ok, js);
    } else {
      HoldsStay(m, l.reg, NoStates(|l.aggs|), m.pc, m1.regs, Flag(l, |q.columns|));
      HoldsSame(m.(pc := m.pc, regs := m1.regs), m1, l.reg, NoStates(|l.aggs|));
      js := GroupLoop(env, prog, q, l, rs, 0, NoStates(|l.aggs|), None, m1);
    }
    YieldsAfter(env, prog, m, n, m1, answer.rows, answer.ok, js);
    ns := [n + js[0]] + js[1..];
  }

  lemma NullBlock(m: Machine, r: nat, n: nat)
    requires r + n <= |m.regs| && forall i :: r <= i < r + n ==> m.regs[i] == Null
    ensures Block(m, r, Nulls(n))
  {
    var s := m.regs[r..r + n];
    assert forall i :: 0 <= i < n ==> s[i] == Null;
  }

  /**
    Running the compiled GROUP BY on a fresh machine yields exactly the output over the sorted
    records of the rows that pass the filter, and then reports completion.
   */
  lemma GroupRuns(env: Env, prog: seq<VdbeOp>, q: GroupQuery, l: GroupPlan, table: seq<TableRow>, m: Machine) returns (ns: seq<nat>)
    requires Floats(env) && GroupLoaded(prog, q, l) && m.pc == l.base && l.c + 1 < |m.cursors| && l.last.next <= |m.regs|
    requires q.root in m.tables && m.tables[q.root] == table && forall i :: 0 <= i < |m.regs| ==> m.regs[i] == Null
    ensures var a := GroupAnswer(env, q, table); Yields(env, prog, m, a.rows, a.ok, ns)
  {
    hide Run, At, Aggregates, GroupLoaded, Exec, FilterOf, ListCodeOf, ItemsOf, FieldExprs, Yields, Sort, SortedAnswer, Block, Floats, Collect, RecordAt, GroupLayout, ScanPlan;
    LoadedIs(prog, q, l);
    PlanFacts(q, l);
    var c := |q.columns|;
    var recs := Collect(env, q, table, 0, []);
    if recs == None {
      NullBlock(m, l.reg, |l.aggs|);
      var n, _ := FillRuns(env, prog, q, l, table, m);
      ns := [n];
      YieldsEnd(env, prog, m, n);
    } else {
      var n, m2 := ScanRuns(env, prog, q, l, table, m, recs.value);
      var js := SortRuns(env, prog, q, l, recs.value, m2);
      var a := GroupAnswer(env, q, table);
      YieldsSome(env, prog, m2, a.rows, a.ok, js);
      YieldsAfter(env, prog, m, n, m2, a.rows, a.ok, js);
      ns := [n + js[0]] + js[1..];
    }
  }

  /** The scan leaves the registers of the sorted loop as they were: NULL. */
  lemma ScanRuns(env: Env, prog: seq<VdbeOp>, q: GroupQuery, l: GroupPlan, table: seq<TableRow>, m: Machine, recs: seq<Data>) returns (n: nat, m2: Machine)
    requires GroupLoaded(prog, q, l) && m.pc == l.base && l.c + 1 < |m.cursors| && l.last.next <= |m.regs|
    requires q.root in m.tables && m.tables[q.root] == table && forall i :: 0 <= i < |m.regs| ==> m.regs[i] == Null
    requires Collect(env, q, table, 0, []) == Some(recs)
    ensures Run(env, prog, m, n) == Next(m2) && m2.pc == SortAt(l) && |m2.regs| == |m.regs| && |m2.cursors| == |m.cursors|
    ensures m2.cursors[l.c + 1] == Sorter(recs, 0) && RecordAt(m2, l.c) == None
    ensures Block(m2, l.reg, Nulls(|l.aggs|)) && Block(m2, Curr(l, |q.columns|), Nulls(l.keys))
  {
    hide Run, At, Aggregates, GroupLoaded, Exec, FilterOf, ListCodeOf, ItemsOf, FieldExprs, Block, Collect, RecordAt, GroupLayout, ScanPlan;
    LoadedIs(prog, q, l);
    PlanFacts(q, l);
    var low, extra := m.(regs := m.regs[..Dst(l)]), m.regs[Dst(l)..];
    assert Wide(low, extra) == m;
    NullBlock(low, l.reg, |l.aggs|);
    var m1;
    n, m1 := FillRuns(env, prog, q, l, table, low);
    WideRun(env, prog, low, n, extra);
    m2 := Wide(m1, extra);
    RecordWide(m1, extra, l.c);
    NullBlock(m2, l.reg, |l.aggs|);
    NullBlock(m2, Curr(l, |q.columns|), l.keys);
  }

  lemma RecordWide(m: Machine, extra: seq<Mem>, c: nat)
    ensures RecordAt(Wide(m, extra), c) == RecordAt(m, c)
  {
  }
}
