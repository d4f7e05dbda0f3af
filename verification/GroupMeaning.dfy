/** What a GROUP BY query returns, stated over the sorted records, and that its program returns it. */
module GroupMeaning {
  import opened Bytes
  import opened Mem
  import opened Vdbe
  import opened Ast
  import opened ExprCode
  import opened ExprMeaning
  import opened WhereCode
  import opened Projection
  import opened SelectCode
  import opened SelectMeaning
  import opened GroupCode
  import opened GroupBlocks

  // ---- Meaning ----

  function Zip(es: seq<Expr>, vs: seq<Mem>): (r: seq<(Expr, Mem)>)
    requires |es| == |vs|
    ensures |r| == |es| && forall i :: 0 <= i < |r| ==> r[i] == (es[i], vs[i])
  {
    seq(|es|, i requires 0 <= i < |es| => (es[i], vs[i]))
  }

  function NoStates(n: nat): (s: States)
    ensures |s| == n && forall i :: 0 <= i < n ==> s[i] == None
  {
    seq(n, _ => None)
  }

  /** During the scan an aggregate expression reads as NULL. */
  function ScanContext(q: GroupQuery, data: Data): Context {
    var aggs := Aggregates(q.columns);
    Context(Some(q.names), Some(data), Zip(aggs, Nulls(|aggs|)))
  }

  /** The sorter record of a table row: None on failure, Some(None) when the row does not pass. */
  function Entry(env: Env, q: GroupQuery, data: Data): Option<Option<Data>> {
    match Filtered(env, q.filter, ScanContext(q, data))
    case None => None
    case Some(b) =>
      if !b then Some(None)
      else
        match EvalAll(env, FieldExprs(q), ScanContext(q, data))
        case None => None
        case Some(vs) => (match RecordOf(vs) case None => None case Some(rec) => Some(Some(rec)))
  }

  /** The records of the table rows from the i-th on, after those in `recs`. */
  function Collect(env: Env, q: GroupQuery, table: seq<TableRow>, i: nat, recs: seq<Data>): Option<seq<Data>>
    decreases |table| - i
  {
    if i >= |table| then Some(recs)
    else
      match Entry(env, q, table[i].data)
      case None => None
      case Some(None) => Collect(env, q, table, i + 1, recs)
      case Some(Some(rec)) => Collect(env, q, table, i + 1, recs + [rec])
  }

  /** The output row of a group: its aggregates finished, its keys as given. */
  function RowFor(env: Env, q: GroupQuery, st: States, keys: seq<Mem>): Option<seq<Mem>>
    requires |st| == |Aggregates(q.columns)| && |keys| == |q.groupBy|
  {
    var aggs := Aggregates(q.columns);
    match FinalValues(env, aggs, st, |aggs|)
    case None => None
    case Some(fs) =>
      ItemValues(env, ItemsFor(q.columns), |q.columns|, Context(Some(q.names), None, Zip(aggs, fs) + Zip(q.groupBy, keys)))
  }

  function Final(env: Env, q: GroupQuery, st: States, keys: seq<Mem>): Answer
    requires |st| == |Aggregates(q.columns)| && |keys| == |q.groupBy|
  {
    match RowFor(env, q, st, keys) case None => Answer([], false) case Some(row) => Answer([row], true)
  }

  /** The output of the records from the i-th on, in a group with states st and keys prev (None before the first). */
  function GroupsFrom(env: Env, q: GroupQuery, rs: seq<Data>, i: nat, st: States, prev: Option<seq<Mem>>): Answer
    requires i < |rs| && |st| == |Aggregates(q.columns)| && (prev.Some? ==> |prev.value| == |q.groupBy|)
    decreases |rs| - i, 1
  {
    match FieldsFrom(env, rs[i], 0, |q.groupBy|)
    case None => Answer([], false)
    case Some(ks) =>
      if prev == None then Continue(env, q, rs, i, st, ks, ks)
      else if SameKeys(env, prev.value, ks) then Continue(env, q, rs, i, st, prev.value, ks)
      else
        match RowFor(env, q, st, prev.value)
        case None => Answer([], false)
        case Some(row) =>
          var rest := Continue(env, q, rs, i, NoStates(|st|), ks, ks);
          Answer([row] + rest.rows, rest.ok)
  }

  function Continue(env: Env, q: GroupQuery, rs: seq<Data>, i: nat, st: States, prev: seq<Mem>, curr: seq<Mem>): Answer
    requires i < |rs| && |st| == |Aggregates(q.columns)| && |prev| == |q.groupBy| == |curr|
    decreases |rs| - i, 0
  {
    var aggs := Aggregates(q.columns);
    match FedAll(env, |q.groupBy|, aggs, st, rs[i], |aggs|)
    case None => Answer([], false)
    case Some(st1) => if i + 1 < |rs| then GroupsFrom(env, q, rs, i + 1, st1, Some(prev)) else Final(env, q, st1, curr)
  }

  /** The output over sorted records; without records there is still one row, for no rows and NULL keys. */
  function SortedAnswer(env: Env, q: GroupQuery, rs: seq<Data>): Answer {
    var n := |Aggregates(q.columns)|;
    if rs == [] then Final(env, q, NoStates(n), Nulls(|q.groupBy|)) else GroupsFrom(env, q, rs, 0, NoStates(n), None)
  }

  function GroupAnswer(env: Env, q: GroupQuery, table: seq<TableRow>): Answer {
    match Collect(env, q, table, 0, [])
    case None => Answer([], false)
    case Some(recs) => SortedAnswer(env, q, Sort(env, recs))
  }

  // ---- The program in place ----

  ghost predicate GroupLoaded(prog: seq<VdbeOp>, q: GroupQuery, l: GroupPlan) {
    GroupLayout(q, l.c, l.base, l.reg) == Some(l) && At(prog, l.base, GroupOps(q, l) + [Op(Halt, 0, 0, 0)])
  }

  /** What the layout says about its pieces. */
  lemma PlanFacts(q: GroupQuery, l: GroupPlan)
    requires GroupLayout(q, l.c, l.base, l.reg) == Some(l)
    ensures l.aggs == Aggregates(q.columns) && l.keys == |q.groupBy| && l.args == ArgOffset(l.aggs, |l.aggs|)
    ensures FilterOf(q.filter, ScanScope(q, l), Top(l), l.reg + |l.aggs|, 0) == Some(l.cond)
    ensures ListCodeOf(FieldExprs(q), ScanScope(q, l), ListAt(l), l.cond.next) == Some(l.list)
    ensures ItemsOf(ItemsFor(q.columns), |q.columns|, RowScope(q, l, Prev(l, |q.columns|)), MidAt(l), ZeroReg(l, |q.columns|) + 1, Dst(l)) == Some(l.mid)
    ensures ItemsOf(ItemsFor(q.columns), |q.columns|, RowScope(q, l, Curr(l, |q.columns|)), LastAt(l), l.mid.next + l.args, Dst(l)) == Some(l.last)
    ensures |l.list.results| == FieldCount(l) == Count(FieldExprs(q))
    ensures l.reg + |l.aggs| <= l.cond.next <= l.list.next && ZeroReg(l, |q.columns|) + 1 <= l.mid.next && l.mid.next + l.args <= l.last.next
  {
    hide ListCodeOf, ItemsOf, WhereOf, FieldExprs, Aggregates;
    ListBounds(FieldExprs(q), ScanScope(q, l), ListAt(l), l.cond.next);
  }

  lemma PatchedFacts(q: GroupQuery, l: GroupPlan)
    requires FilterOf(q.filter, ScanScope(q, l), Top(l), l.reg + |l.aggs|, 0) == Some(l.cond)
    ensures FilterOf(q.filter, ScanScope(q, l), Top(l), l.reg + |l.aggs|, NextAt(l)) == Some(Cond(PatchedFilter(q, l), l.cond.next))
    ensures |PatchedFilter(q, l)| == |l.cond.ops|
  {
    hide WhereOf;
    if q.filter.Some? {
      WhereShape(q.filter.value, ScanScope(q, l), Top(l), l.reg + |l.aggs|, NextAt(l));
    }
  }

  lemma OpsLengths(q: GroupQuery, l: GroupPlan)
    requires GroupLayout(q, l.c, l.base, l.reg) == Some(l)
    ensures |ScanOps(q, l)| == SortAt(l) - l.base && |LoopOps(q, l)| == ChangedAt(l) - SortAt(l)
    ensures |FlushOps(q, l)| == FirstAt(l) - ChangedAt(l) && |RestOps(q, l)| == EndAt(l) - FirstAt(l)
  {
    hide PatchedFilter, FinalOps, NullOps, FieldOps, DifferOps, KeyOps, FeedOps, CopyOps, GroupLayout, ListCodeOf, ItemsOf, FilterOf;
    PlanFacts(q, l);
    PatchedFacts(q, l);
  }

  lemma GroupParts(prog: seq<VdbeOp>, q: GroupQuery, l: GroupPlan)
    requires GroupLoaded(prog, q, l)
    ensures At(prog, l.base, ScanOps(q, l)) && At(prog, SortAt(l), LoopOps(q, l)) && At(prog, ChangedAt(l), FlushOps(q, l))
    ensures At(prog, FirstAt(l), RestOps(q, l)) && At(prog, EndAt(l), LastOps(q, l) + [Op(Halt, 0, 0, 0)])
  {
    hide GroupLayout, At, ScanOps, LoopOps, FlushOps, RestOps, LastOps, SortAt, ChangedAt, FirstAt, EndAt;
    OpsLengths(q, l);
    var scan, loop, flush, rest, last := ScanOps(q, l), LoopOps(q, l), FlushOps(q, l), RestOps(q, l), LastOps(q, l) + [Op(Halt, 0, 0, 0)];
    assert GroupOps(q, l) + [Op(Halt, 0, 0, 0)] == scan + (loop + (flush + (rest + last)));
    AtSplit(prog, l.base, scan, loop + (flush + (rest + last)));
    AtSplit(prog, SortAt(l), loop, flush + (rest + last));
    AtSplit(prog, ChangedAt(l), flush, rest + last);
    AtSplit(prog, FirstAt(l), rest, last);
  }

  // ---- The end of a group ----

  /** The registers of keys hold ks. */
  ghost predicate Block(m: Machine, r: nat, ks: seq<Mem>) {
    r + |ks| <= |m.regs| && m.regs[r..r + |ks|] == ks
  }

  lemma RowScopeFits(q: GroupQuery, l: GroupPlan, m: Machine, keyReg: nat, fs: seq<Mem>, ks: seq<Mem>, next: nat)
    requires |fs| == |l.aggs| && |ks| == |q.groupBy| && Block(m, l.reg, fs) && Block(m, keyReg, ks) && RecordAt(m, l.c) == None
    requires l.reg + |fs| <= next && keyReg + |ks| <= next
    ensures Fits(RowScope(q, l, keyReg), Context(Some(q.names), None, Zip(l.aggs, fs) + Zip(q.groupBy, ks)), m, next)
  {
    hide RecordAt;
    var sc, known := RowScope(q, l, keyReg), Zip(l.aggs, fs) + Zip(q.groupBy, ks);
    forall i | 0 <= i < |sc.bound|
      ensures sc.bound[i].0 == known[i].0 && sc.bound[i].1 < next && sc.bound[i].1 < |m.regs| && m.regs[sc.bound[i].1] == known[i].1
    {
      if i < |fs| {
        assert m.regs[l.reg..l.reg + |fs|][i] == fs[i];
      } else {
        assert m.regs[keyReg..keyReg + |ks|][i - |fs|] == ks[i - |fs|];
      }
    }
  }

  lemma RowScopeApart(q: GroupQuery, l: GroupPlan, keyReg: nat, dst: nat, n: nat)
    requires l.reg + |l.aggs| <= dst && dst + n <= keyReg
    ensures Apart(RowScope(q, l, keyReg).bound, dst, n)
  {
  }

  /** Finish the aggregates, compute the output row and return it. */
  lemma EmitRuns(env: Env, prog: seq<VdbeOp>, q: GroupQuery, l: GroupPlan, m: Machine, code: Cond, keyReg: nat, next: nat, st: States, ks: seq<Mem>) returns (n: nat, m1: Machine)
    requires |st| == |l.aggs| && l.aggs == Aggregates(q.columns) && |ks| == |q.groupBy|
    requires At(prog, m.pc, FinalOps(l.aggs, l.reg, |l.aggs|) + code.ops + [Op(ResultRow, Dst(l), |q.columns|, 0)])
    requires ItemsOf(ItemsFor(q.columns), |q.columns|, RowScope(q, l, keyReg), m.pc + |l.aggs|, next, Dst(l)) == Some(code)
    requires HoldsStates(m, l.reg, st) && Block(m, keyReg, ks) && RecordAt(m, l.c) == None
    requires l.reg + |l.aggs| <= Dst(l) && Dst(l) + |q.columns| <= keyReg && keyReg + |ks| <= next && code.next <= |m.regs|
    ensures
      match RowFor(env, q, st, ks)
      case None => Run(env, prog, m, n) == Fail
      case Some(row) =>
        && Run(env, prog, m, n) == Row(m1, row) && m1 == m.(pc := m.pc + |l.aggs| + |code.ops| + 1, regs := m1.regs)
        && |m1.regs| == |m.regs| && (forall i :: 0 <= i < next && i < |m.regs| && !(l.reg <= i < l.reg + |l.aggs|) && !(Dst(l) <= i < Dst(l) + |q.columns|) ==> m1.regs[i] == m.regs[i])
  {
    hide Run, At, ItemsOf, FinalValues, FinalOps, HoldsStates, RecordAt, Fits, Apart, Exec, Aggregates, Fills, MaySet;
    var a := |l.aggs|;
    var result := Op(ResultRow, Dst(l), |q.columns|, 0);
    AtSplit(prog, m.pc, FinalOps(l.aggs, l.reg, a) + code.ops, [result]);
    AtSplit(prog, m.pc, FinalOps(l.aggs, l.reg, a), code.ops);
    var out;
    n, out := FinalsRun(env, prog, m, l.aggs, l.reg, st, a);
    m1 := m;
    var fs := FinalValues(env, l.aggs, st, a);
    MaySetFacts(env, prog, m, n, m.pc + a, out, l.reg, fs);
    if fs.Some? {
      var m2 := m.(pc := m.pc + a, regs := out);
      assert Block(m2, keyReg, ks) by {
        BlockStays(m, m2, keyReg, ks, l.reg, a);
      }
      RecordStays(m, l.c, m.pc + a, out);
      RowScopeFits(q, l, m2, keyReg, fs.value, ks, next);
      RowScopeApart(q, l, keyReg, Dst(l), |q.columns|);
      var ctx := Context(Some(q.names), None, Zip(l.aggs, fs.value) + Zip(q.groupBy, ks));
      var k, regs := ItemsRun(env, prog, ItemsFor(q.columns), |q.columns|, RowScope(q, l, keyReg), next, Dst(l), m2, ctx);
      var vs := ItemValues(env, ItemsFor(q.columns), |q.columns|, ctx);
      var pc := m.pc + a + |code.ops|;
      FillsRun(env, prog, m2, k, pc, regs, next, Dst(l), |q.columns|, vs);
      RunCompose(env, prog, m, n, m2, k);
      n := n + k;
      if vs.Some? {
        AtOne(prog, pc, result);
        m1 := m.(pc := pc + 1, regs := regs);
        ResultOp(env, m1, Dst(l), |q.columns|);
        Then(env, prog, m, n, m.(pc := pc, regs := regs), result);
        n := n + 1;
      }
    }
  }

  lemma MaySetFacts(env: Env, prog: seq<VdbeOp>, m: Machine, n: nat, end: nat, out: seq<Mem>, dst: nat, vs: Option<seq<Mem>>)
    requires MaySet(env, prog, m, n, end, out, dst, vs)
    ensures vs == None ==> Run(env, prog, m, n) == Fail
    ensures vs.Some? ==> Run(env, prog, m, n) == Next(m.(pc := end, regs := out)) && |out| == |m.regs| && Block(m.(pc := end, regs := out), dst, vs.value)
    ensures vs.Some? ==> forall i :: 0 <= i < |out| && !(dst <= i < dst + |vs.value|) ==> out[i] == m.regs[i]
  {
    hide Run;
  }

  lemma BlockStays(m: Machine, m1: Machine, r: nat, ks: seq<Mem>, reg: nat, n: nat)
    requires Block(m, r, ks) && |m1.regs| == |m.regs| && reg + n <= r
    requires forall i :: 0 <= i < |m.regs| && !(reg <= i < reg + n) ==> m1.regs[i] == m.regs[i]
    ensures Block(m1, r, ks)
  {
  }

  lemma FillsRun(env: Env, prog: seq<VdbeOp>, m: Machine, n: nat, end: nat, out: seq<Mem>, reg: nat, dst: nat, size: nat, vs: Option<seq<Mem>>)
    requires Fills(env, prog, m, n, end, out, reg, dst, size, vs)
    ensures vs == None ==> Run(env, prog, m, n) == Fail
    ensures vs.Some? ==>
      && Run(env, prog, m, n) == Next(m.(pc := end, regs := out)) && |out| == |m.regs| && dst + |vs.value| <= |out| && out[dst..dst + |vs.value|] == vs.value
      && forall i :: 0 <= i < reg && i < |out| && !(dst <= i < dst + size) ==> out[i] == m.regs[i]
  {
    hide Run;
  }

  // ---- One round of the loop ----

  /** 0 and 1 are different floating-point numbers. */
  predicate Floats(env: Env) {
    env.equal(env.asReal(0), env.asReal(0)) && !env.equal(env.asReal(0), env.asReal(1))
  }

  /** The sorter is on record i, the table cursor is past its end, and the registers suffice. */
  ghost predicate Sorting(m: Machine, q: GroupQuery, l: GroupPlan, rs: seq<Data>, i: nat) {
    && l.c + 1 < |m.cursors| && m.cursors[l.c + 1] == Sorter(rs, i) && i < |rs|
    && RecordAt(m, l.c) == None && l.last.next <= |m.regs|
  }

  /** The flag and the previous keys: none before the first record. */
  ghost predicate Previous(m: Machine, q: GroupQuery, l: GroupPlan, prev: Option<seq<Mem>>) {
    && Flag(l, |q.columns|) < |m.regs|
    && match prev
       case None => m.regs[Flag(l, |q.columns|)] == Int(1)
       case Some(ks) => m.regs[Flag(l, |q.columns|)] == Int(0) && |ks| == l.keys && Block(m, Prev(l, |q.columns|), ks)
  }

  function Target(env: Env, l: GroupPlan, prev: Option<seq<Mem>>, ks: seq<Mem>): nat
    requires prev.Some? ==> |prev.value| == |ks|
  {
    match prev
    case None => FirstAt(l)
    case Some(ps) => if SameKeys(env, ps, ks) then SameAt(l) else ChangedAt(l)
  }

  lemma LoopParts(prog: seq<VdbeOp>, q: GroupQuery, l: GroupPlan)
    requires At(prog, SortAt(l), LoopOps(q, l))
    ensures
      var n := |q.columns|;
      && At(prog, SortAt(l), [Op(SorterSort, l.c + 1, EndAt(l), 0), Op(Integer, 1, Flag(l, n), 0)])
      && At(prog, LoopAt(l), FieldOps(l.c + 1, 0, Curr(l, n), l.keys))
      && At(prog, LoopAt(l) + l.keys, [Op(Integer, 0, ZeroReg(l, n), 0)])
      && At(prog, LoopAt(l) + l.keys + 1, [Op(Jump(Ne), Flag(l, n), FirstAt(l), ZeroReg(l, n))])
      && At(prog, LoopAt(l) + l.keys + 2, DifferOps(Curr(l, n), Prev(l, n), l.keys, ChangedAt(l)))
      && At(prog, LoopAt(l) + 2 * l.keys + 2, [Op(Goto, 0, SameAt(l), 0)])
  {
    hide At, FieldOps, DifferOps;
    var n := |q.columns|;
    var a, b := [Op(SorterSort, l.c + 1, EndAt(l), 0), Op(Integer, 1, Flag(l, n), 0)], FieldOps(l.c + 1, 0, Curr(l, n), l.keys);
    var c, d := [Op(Integer, 0, ZeroReg(l, n), 0)], [Op(Jump(Ne), Flag(l, n), FirstAt(l), ZeroReg(l, n))];
    var e, f := DifferOps(Curr(l, n), Prev(l, n), l.keys, ChangedAt(l)), [Op(Goto, 0, SameAt(l), 0)];
    assert LoopOps(q, l) == a + (b + (c + (d + (e + f))));
    AtSplit(prog, SortAt(l), a, b + (c + (d + (e + f))));
    AtSplit(prog, LoopAt(l), b, c + (d + (e + f)));
    AtSplit(prog, LoopAt(l) + l.keys, c, d + (e + f));
    AtSplit(prog, LoopAt(l) + l.keys + 1, d, e + f);
    AtSplit(prog, LoopAt(l) + l.keys + 2, e, f);
  }

  /** Load the keys of the current record and decide where to go. */
  lemma HeadRuns(env: Env, prog: seq<VdbeOp>, q: GroupQuery, l: GroupPlan, rs: seq<Data>, i: nat, prev: Option<seq<Mem>>, m: Machine) returns (n: nat, m1: Machine)
    requires Floats(env) && At(prog, SortAt(l), LoopOps(q, l)) && m.pc == LoopAt(l)
    requires Sorting(m, q, l, rs, i) && Previous(m, q, l, prev) && ZeroReg(l, |q.columns|) < |m.regs|
    ensures
      match FieldsFrom(env, rs[i], 0, l.keys)
      case None => Run(env, prog, m, n) == Fail
      case Some(ks) =>
        && Run(env, prog, m, n) == Next(m1) && m1 == m.(pc := Target(env, l, prev, ks), regs := m1.regs)
        && Kept(m.regs, m1.regs, Curr(l, |q.columns|)) && Block(m1, Curr(l, |q.columns|), ks)
  {
    hide Run, At, FieldOps, DifferOps, FieldsFrom, Exec, Holds;
    var c := |q.columns|;
    var curr, zero := Curr(l, c), ZeroReg(l, c);
    LoopParts(prog, q, l);
    var out;
    n, out := FieldsRun(env, prog, m, l.c + 1, 0, curr, l.keys, rs[i]);
    var ks := FieldsFrom(env, rs[i], 0, l.keys);
    var pc := LoopAt(l) + l.keys;
    PutsFacts(env, prog, m, n, pc, out, curr, ks);
    m1 := m;
    if ks.Some? {
      AtOne(prog, pc, Op(Integer, 0, zero, 0));
      IntegerOp(env, m.(pc := pc + 1, regs := out), 0, zero);
      Then(env, prog, m, n, m.(pc := pc, regs := out), Op(Integer, 0, zero, 0));
      var regs := out[zero := Int(0)];
      assert regs[curr..curr + l.keys] == out[curr..curr + l.keys];
      var m2 := m.(pc := pc + 1, regs := regs);
      var k, target := BranchRuns(env, prog, q, l, prev, ks.value, m2);
      RunCompose(env, prog, m, n + 1, m2, k);
      n, m1 := n + 1 + k, m2.(pc := target);
    }
  }

  lemma BranchRuns(env: Env, prog: seq<VdbeOp>, q: GroupQuery, l: GroupPlan, prev: Option<seq<Mem>>, ks: seq<Mem>, m: Machine) returns (n: nat, target: nat)
    requires Floats(env) && At(prog, SortAt(l), LoopOps(q, l)) && m.pc == LoopAt(l) + l.keys + 1
    requires Previous(m, q, l, prev) && |ks| == l.keys && Block(m, Curr(l, |q.columns|), ks)
    requires ZeroReg(l, |q.columns|) < |m.regs| && m.regs[ZeroReg(l, |q.columns|)] == Int(0)
    ensures target == Target(env, l, prev, ks) && Run(env, prog, m, n) == Next(m.(pc := target))
  {
    hide Run, At, DifferOps, Exec, LoopOps, SameKeys, FieldOps, LoopAt, SameAt, ChangedAt, FirstAt;
    var c := |q.columns|;
    LoopParts(prog, q, l);
    var first := Op(Jump(Ne), Flag(l, c), FirstAt(l), ZeroReg(l, c));
    AtOne(prog, m.pc, first);
    GroupBlocks.Zero(env, prog, m);
    CompareOp(env, m.(pc := m.pc + 1), Ne, ZeroReg(l, c), Flag(l, c), FirstAt(l));
    Then(env, prog, m, 0, m, first);
    n, target := 1, FirstAt(l);
    if prev.Some? {
      var m2 := m.(pc := m.pc + 1);
      var k := DifferRun(env, prog, m2, Curr(l, c), Prev(l, c), l.keys, ChangedAt(l));
      RunCompose(env, prog, m, 1, m2, k);
      n, target := 1 + k, ChangedAt(l);
      if SameKeys(env, prev.value, ks) {
        var m3 := m.(pc := LoopAt(l) + 2 * l.keys + 2);
        AtOne(prog, m3.pc, Op(Goto, 0, SameAt(l), 0));
        GotoOp(env, m3.(pc := m3.pc + 1), SameAt(l));
        Then(env, prog, m, n, m3, Op(Goto, 0, SameAt(l), 0));
        n, target := n + 1, SameAt(l);
      }
    }
  }

  // ---- Closing a group, opening the next ----

  lemma NullStates(m: Machine, reg: nat, n: nat)
    requires Block(m, reg, Nulls(n))
    ensures HoldsStates(m, reg, NoStates(n))
  {
    var rs := m.regs[reg..reg + n];
    forall i | 0 <= i < n ensures StateAt(m, reg + i, NoStates(n)[i]) {
      assert rs[i] == Null;
    }
  }

  /** From the group change: return the row of the finished group, then clear its aggregates. */
  lemma FlushRuns(env: Env, prog: seq<VdbeOp>, q: GroupQuery, l: GroupPlan, st: States, ps: seq<Mem>, ks: seq<Mem>, m: Machine) returns (n: nat, mid: Machine, k: nat, m1: Machine)
    requires GroupLoaded(prog, q, l) && m.pc == ChangedAt(l) && |st| == |l.aggs| && |ps| == |ks| == l.keys
    requires HoldsStates(m, l.reg, st) && Block(m, Prev(l, |q.columns|), ps) && Block(m, Curr(l, |q.columns|), ks)
    requires RecordAt(m, l.c) == None && l.last.next <= |m.regs|
    ensures l.aggs == Aggregates(q.columns) && l.keys == |q.groupBy|
    ensures
      match RowFor(env, q, st, ps)
      case None => Run(env, prog, m, n) == Fail
      case Some(row) =>
        && Run(env, prog, m, n) == Row(mid, row) && Run(env, prog, mid, k) == Next(m1)
        && m1 == m.(pc := FirstAt(l), regs := m1.regs) && |m1.regs| == |m.regs|
        && HoldsStates(m1, l.reg, NoStates(|st|)) && Block(m1, Curr(l, |q.columns|), ks)
  {
    hide Run, At, ItemsOf, FinalOps, NullOps, HoldsStates, RecordAt, Exec, Aggregates, RowFor, GroupLayout, GroupOps, LoopOps, ScanOps, RestOps, LastOps, FilterOf, ListCodeOf;
    GroupParts(prog, q, l);
    PlanFacts(q, l);
    var c := |q.columns|;
    var head, tail := FinalOps(l.aggs, l.reg, |l.aggs|) + l.mid.ops + [Op(ResultRow, Dst(l), c, 0)], NullOps(l.reg, |l.aggs|);
    AtSplit(prog, ChangedAt(l), head, tail);
    n, mid := EmitRuns(env, prog, q, l, m, l.mid, Prev(l, c), ZeroReg(l, c) + 1, st, ps);
    k, m1 := 0, m;
    if RowFor(env, q, st, ps).Some? {
      BlockKept(m, mid, Curr(l, c), ks);
      m1 := ClearRuns(env, prog, q, l, ks, mid);
      k := |l.aggs|;
    }
  }

  /** Set the registers of the aggregates to NULL. */
  lemma ClearRuns(env: Env, prog: seq<VdbeOp>, q: GroupQuery, l: GroupPlan, ks: seq<Mem>, m: Machine) returns (m1: Machine)
    requires At(prog, m.pc, NullOps(l.reg, |l.aggs|)) && m.pc + |l.aggs| == FirstAt(l)
    requires l.reg + |l.aggs| <= Dst(l) && Block(m, Curr(l, |q.columns|), ks)
    ensures Run(env, prog, m, |l.aggs|) == Next(m1) && m1 == m.(pc := FirstAt(l), regs := m1.regs) && |m1.regs| == |m.regs|
    ensures HoldsStates(m1, l.reg, NoStates(|l.aggs|)) && Block(m1, Curr(l, |q.columns|), ks)
  {
    hide Run, At, NullOps, HoldsStates;
    var out := NullsRun(env, prog, m, l.reg, |l.aggs|);
    SetsRun(env, prog, m, |l.aggs|, FirstAt(l), out, l.reg, Nulls(|l.aggs|));
    m1 := m.(pc := FirstAt(l), regs := out);
    NullStates(m1, l.reg, |l.aggs|);
    BlockKept(m, m1, Curr(l, |q.columns|), ks);
  }

  lemma BlockKept(m: Machine, m1: Machine, r: nat, ks: seq<Mem>)
    requires Block(m, r, ks) && |m1.regs| == |m.regs| && forall i :: r <= i < r + |ks| ==> m1.regs[i] == m.regs[i]
    ensures Block(m1, r, ks)
  {
  }

  lemma RestParts(prog: seq<VdbeOp>, q: GroupQuery, l: GroupPlan)
    requires At(prog, FirstAt(l), RestOps(q, l)) && l.args == ArgOffset(l.aggs, |l.aggs|)
    ensures
      var n := |q.columns|;
      && At(prog, FirstAt(l), [Op(Integer, 0, Flag(l, n), 0)])
      && At(prog, FirstAt(l) + 1, KeyOps(Curr(l, n), Prev(l, n), l.keys))
      && At(prog, SameAt(l), FeedOps(l.c + 1, l.keys, l.aggs, l.reg, l.mid.next, |l.aggs|))
      && At(prog, EndAt(l) - 1, [Op(SorterNext, l.c + 1, LoopAt(l), 0)])
  {
    hide At, KeyOps, FeedOps;
    var n := |q.columns|;
    var a, b := [Op(Integer, 0, Flag(l, n), 0)], KeyOps(Curr(l, n), Prev(l, n), l.keys);
    var c, d := FeedOps(l.c + 1, l.keys, l.aggs, l.reg, l.mid.next, |l.aggs|), [Op(SorterNext, l.c + 1, LoopAt(l), 0)];
    assert RestOps(q, l) == a + (b + (c + d));
    AtSplit(prog, FirstAt(l), a, b + (c + d));
    AtSplit(prog, FirstAt(l) + 1, b, c + d);
    AtSplit(prog, SameAt(l), c, d);
  }

  /** Remember the current keys as the keys of the new group. */
  lemma FirstRuns(env: Env, prog: seq<VdbeOp>, q: GroupQuery, l: GroupPlan, st: States, ks: seq<Mem>, m: Machine) returns (n: nat, m1: Machine)
    requires At(prog, FirstAt(l), RestOps(q, l)) && l.args == ArgOffset(l.aggs, |l.aggs|) && m.pc == FirstAt(l)
    requires |ks| == l.keys && Block(m, Curr(l, |q.columns|), ks) && HoldsStates(m, l.reg, st) && |st| == |l.aggs| && l.reg + |l.aggs| <= Dst(l)
    ensures Run(env, prog, m, n) == Next(m1) && m1 == m.(pc := SameAt(l), regs := m1.regs) && |m1.regs| == |m.regs|
    ensures Previous(m1, q, l, Some(ks)) && Block(m1, Curr(l, |q.columns|), ks) && HoldsStates(m1, l.reg, st)
  {
    hide Run, At, KeyOps, HoldsStates, Exec, Aggregates, FieldCount, RestOps, FirstAt;
    RestParts(prog, q, l);
    var c := |q.columns|;
    var flag, op := Flag(l, c), Op(Integer, 0, Flag(l, c), 0);
    AtOne(prog, FirstAt(l), op);
    GroupBlocks.Zero(env, prog, m);
    IntegerOp(env, m.(pc := m.pc + 1), 0, flag);
    Then(env, prog, m, 0, m, op);
    var m2 := m.(pc := m.pc + 1, regs := m.regs[flag := Int(0)]);
    BlockKept(m, m2, Curr(l, c), ks);
    var out := KeysRun(env, prog, m2, Curr(l, c), Prev(l, c), l.keys);
    SetsRun(env, prog, m2, l.keys, SameAt(l), out, Prev(l, c), ks);
    RunCompose(env, prog, m, 1, m2, l.keys);
    n, m1 := 1 + l.keys, m2.(pc := SameAt(l), regs := out);
    BlockKept(m2, m1, Curr(l, c), ks);
    HoldsStay(m, l.reg, st, SameAt(l), out, flag);
  }

  // ---- The loop ----

  lemma SorterNextOp(env: Env, m: Machine, c: nat, t: nat)
    requires c < |m.cursors| && m.cursors[c].Sorter?
    ensures
      var k := m.cursors[c];
      var moved := SetCursor(m, c, Sorter(k.records, k.pos + 1));
      Exec(env, Op(SorterNext, c, t, 0), m) == Next(if k.pos + 1 < |k.records| then moved.(pc := t) else moved)
  {
  }

  /** Feed the current record, then go on with the next one or with the end. */
  lemma FeedNext(env: Env, prog: seq<VdbeOp>, q: GroupQuery, l: GroupPlan, rs: seq<Data>, i: nat, st: States, ps: seq<Mem>, ks: seq<Mem>, m: Machine) returns (n: nat, m1: Machine)
    requires GroupLoaded(prog, q, l) && m.pc == SameAt(l) && |st| == |l.aggs| && |ps| == |ks| == l.keys
    requires Sorting(m, q, l, rs, i) && Previous(m, q, l, Some(ps)) && Block(m, Curr(l, |q.columns|), ks) && HoldsStates(m, l.reg, st)
    ensures
      match FedAll(env, l.keys, l.aggs, st, rs[i], |l.aggs|)
      case None => Run(env, prog, m, n) == Fail
      case Some(st1) =>
        && Run(env, prog, m, n) == Next(m1) && |m1.regs| == |m.regs|
        && m1.pc == (if i + 1 < |rs| then LoopAt(l) else EndAt(l))
        && (i + 1 < |rs| ==> Sorting(m1, q, l, rs, i + 1)) && RecordAt(m1, l.c) == None
        && Previous(m1, q, l, Some(ps)) && Block(m1, Curr(l, |q.columns|), ks) && HoldsStates(m1, l.reg, st1)
  {
    hide Run, At, HoldsStates, FedAll, RecordAt, Previous, Block, GroupLoaded, Sorting, Exec, ItemsOf, FilterOf, ListCodeOf, FeedOps, RestOps, ScanOps, LoopOps, FlushOps, LastOps;
    SortingFacts(m, q, l, rs, i);
    LoadedIs(prog, q, l);
    GroupParts(prog, q, l);
    PlanFacts(q, l);
    RestParts(prog, q, l);
    n, m1 := FeedRuns(env, prog, q, l, rs, i, st, ps, ks, m);
    var st1 := FedAll(env, l.keys, l.aggs, st, rs[i], |l.aggs|);
    if st1.Some? {
      var m2 := AdvanceRuns(env, prog, q, l, rs, i, m, m1);
      Then(env, prog, m, n, m1, Op(SorterNext, l.c + 1, LoopAt(l), 0));
      n := n + 1;
      HoldsSame(m1, m2, l.reg, st1.value);
      PreviousSame(m1, m2, q, l, ps, ks);
      m1 := m2;
    }
  }

  lemma FeedRuns(env: Env, prog: seq<VdbeOp>, q: GroupQuery, l: GroupPlan, rs: seq<Data>, i: nat, st: States, ps: seq<Mem>, ks: seq<Mem>, m: Machine) returns (n: nat, m1: Machine)
    requires At(prog, SameAt(l), FeedOps(l.c + 1, l.keys, l.aggs, l.reg, l.mid.next, |l.aggs|)) && m.pc == SameAt(l) && |st| == |l.aggs| && |ks| == l.keys
    requires l.args == ArgOffset(l.aggs, |l.aggs|) && l.reg + |l.aggs| <= Dst(l) && ZeroReg(l, |q.columns|) < l.mid.next && l.mid.next + l.args <= l.last.next
    requires Sorting(m, q, l, rs, i) && Previous(m, q, l, Some(ps)) && Block(m, Curr(l, |q.columns|), ks) && HoldsStates(m, l.reg, st)
    ensures
      match FedAll(env, l.keys, l.aggs, st, rs[i], |l.aggs|)
      case None => Run(env, prog, m, n) == Fail
      case Some(st1) =>
        && Run(env, prog, m, n) == Next(m1) && m1 == m.(pc := EndAt(l) - 1, regs := m1.regs, accs := m1.accs) && |m1.regs| == |m.regs|
        && Previous(m1, q, l, Some(ps)) && Block(m1, Curr(l, |q.columns|), ks) && HoldsStates(m1, l.reg, st1)
  {
    hide Run, At, FeedOps, HoldsStates, FedAll, RecordAt, Previous, Block, Feeds;
    OnRecord(m, q, l, rs, i);
    n, m1 := FeedRun(env, prog, m, l.c + 1, l.keys, l.aggs, l.reg, l.mid.next, |l.aggs|, st, rs[i]);
    var st1 := FedAll(env, l.keys, l.aggs, st, rs[i], |l.aggs|);
    FeedsFacts(env, prog, m, n, EndAt(l) - 1, m1, l.reg, l.mid.next, st1);
    if st1.Some? {
      FeedsKept(env, prog, m, n, EndAt(l) - 1, m1, l.reg, l.mid.next, st1.value);
      PreviousKept(m, m1, q, l, ps, ks);
    }
  }

  lemma AdvanceRuns(env: Env, prog: seq<VdbeOp>, q: GroupQuery, l: GroupPlan, rs: seq<Data>, i: nat, m0: Machine, m: Machine) returns (m1: Machine)
    requires At(prog, EndAt(l) - 1, [Op(SorterNext, l.c + 1, LoopAt(l), 0)]) && m.pc == EndAt(l) - 1
    requires Sorting(m0, q, l, rs, i) && m == m0.(pc := m.pc, regs := m.regs, accs := m.accs) && |m.regs| == |m0.regs|
    ensures m.pc < |prog| && prog[m.pc] == Op(SorterNext, l.c + 1, LoopAt(l), 0)
    ensures Exec(env, prog[m.pc], m.(pc := m.pc + 1)) == Next(m1) && m1.regs == m.regs && m1.accs == m.accs
    ensures m1.pc == (if i + 1 < |rs| then LoopAt(l) else EndAt(l)) && RecordAt(m1, l.c) == None && (i + 1 < |rs| ==> Sorting(m1, q, l, rs, i + 1))
  {
    hide At, RecordAt, Exec;
    AtOne(prog, EndAt(l) - 1, Op(SorterNext, l.c + 1, LoopAt(l), 0));
    SorterNextOp(env, m.(pc := EndAt(l)), l.c + 1, LoopAt(l));
    m1 := SetCursor(m.(pc := if i + 1 < |rs| then LoopAt(l) else EndAt(l)), l.c + 1, Sorter(rs, i + 1));
    SortingNext(m0, m1, q, l, rs, i);
  }

  lemma SortingFacts(m: Machine, q: GroupQuery, l: GroupPlan, rs: seq<Data>, i: nat)
    requires Sorting(m, q, l, rs, i)
    ensures i < |rs| && l.last.next <= |m.regs|
  {
  }

  lemma OnRecord(m: Machine, q: GroupQuery, l: GroupPlan, rs: seq<Data>, i: nat)
    requires Sorting(m, q, l, rs, i)
    ensures RecordAt(m, l.c + 1) == Some(rs[i])
  {
  }

  lemma SortingNext(m: Machine, m1: Machine, q: GroupQuery, l: GroupPlan, rs: seq<Data>, i: nat)
    requires Sorting(m, q, l, rs, i) && |m1.regs| == |m.regs| && m1.cursors == m.cursors[l.c + 1 := Sorter(rs, i + 1)] && m1.tables == m.tables
    ensures RecordAt(m1, l.c) == None && (i + 1 < |rs| ==> Sorting(m1, q, l, rs, i + 1))
  {
  }

  lemma PreviousSame(m: Machine, m1: Machine, q: GroupQuery, l: GroupPlan, ps: seq<Mem>, ks: seq<Mem>)
    requires Previous(m, q, l, Some(ps)) && Block(m, Curr(l, |q.columns|), ks) && m1.regs == m.regs
    ensures Previous(m1, q, l, Some(ps)) && Block(m1, Curr(l, |q.columns|), ks)
  {
  }

  lemma HoldsSame(m: Machine, m1: Machine, reg: nat, st: States)
    requires HoldsStates(m, reg, st) && m1.regs == m.regs && m1.accs == m.accs
    ensures HoldsStates(m1, reg, st)
  {
    forall i | 0 <= i < |st| ensures StateAt(m1, reg + i, st[i]) {
      assert StateAt(m, reg + i, st[i]);
    }
  }

  lemma FeedsKept(env: Env, prog: seq<VdbeOp>, m: Machine, n: nat, end: nat, m1: Machine, reg: nat, from: nat, st: States)
    requires Feeds(env, prog, m, n, end, m1, reg, from, Some(st))
    ensures forall i :: reg + |st| <= i < from && i < |m.regs| ==> m1.regs[i] == m.regs[i]
  {
    hide Run, HoldsStates;
  }

  lemma PreviousKept(m: Machine, m1: Machine, q: GroupQuery, l: GroupPlan, ps: seq<Mem>, ks: seq<Mem>)
    requires Previous(m, q, l, Some(ps)) && |ks| == l.keys && Block(m, Curr(l, |q.columns|), ks) && |m1.regs| == |m.regs|
    requires forall i :: Flag(l, |q.columns|) <= i < ZeroReg(l, |q.columns|) && i < |m.regs| ==> m1.regs[i] == m.regs[i]
    ensures Previous(m1, q, l, Some(ps)) && Block(m1, Curr(l, |q.columns|), ks)
  {
    BlockKept(m, m1, Prev(l, |q.columns|), ps);
    BlockKept(m, m1, Curr(l, |q.columns|), ks);
  }

  /** The row of the last group, with the keys of the last record, then Halt. */
  lemma LastRuns(env: Env, prog: seq<VdbeOp>, q: GroupQuery, l: GroupPlan, st: States, ks: seq<Mem>, m: Machine) returns (ns: seq<nat>)
    requires GroupLoaded(prog, q, l) && m.pc == EndAt(l) && |st| == |l.aggs| && |ks| == l.keys && l.last.next <= |m.regs|
    requires HoldsStates(m, l.reg, st) && Block(m, Curr(l, |q.columns|), ks) && RecordAt(m, l.c) == None
    ensures l.aggs == Aggregates(q.columns) && l.keys == |q.groupBy|
    ensures var a := Final(env, q, st, ks); Yields(env, prog, m, a.rows, a.ok, ns)
  {
    hide Run, At, ItemsOf, FinalOps, HoldsStates, RecordAt, Exec, Aggregates, RowFor, GroupLayout, GroupOps, Yields, Block, LoopOps, ScanOps, FlushOps, RestOps, FilterOf, ListCodeOf;
    GroupParts(prog, q, l);
    PlanFacts(q, l);
    AtSplit(prog, EndAt(l), LastOps(q, l), [Op(Halt, 0, 0, 0)]);
    var n, m1 := EmitRuns(env, prog, q, l, m, l.last, Curr(l, |q.columns|), l.mid.next + l.args, st, ks);
    match RowFor(env, q, st, ks)
    case None =>
      ns := [n];
      YieldsEnd(env, prog, m, n);
    case Some(row) =>
      AtOne(prog, m1.pc, Op(Halt, 0, 0, 0));
      GroupBlocks.Zero(env, prog, m1);
      HaltOp(env, m1.(pc := m1.pc + 1));
      Then(env, prog, m1, 0, m1, Op(Halt, 0, 0, 0));
      YieldsEnd(env, prog, m1, 1);
      YieldsRow(env, prog, m, n, m1, row, [], true, [1]);
      assert [row] + [] == [row];
      ns := [n] + [1];
  }

  /** From the loop top on record i, the run yields the output of the records from i on. */
  lemma {:induction false} GroupLoop(env: Env, prog: seq<VdbeOp>, q: GroupQuery, l: GroupPlan, rs: seq<Data>, i: nat, st: States, prev: Option<seq<Mem>>, m: Machine) returns (ns: seq<nat>)
    requires Floats(env) && GroupLoaded(prog, q, l) && m.pc == LoopAt(l) && |st| == |l.aggs|
    requires Sorting(m, q, l, rs, i) && Previous(m, q, l, prev) && HoldsStates(m, l.reg, st)
    requires prev == None ==> st == NoStates(|st|)
    ensures l.aggs == Aggregates(q.columns) && l.keys == |q.groupBy|
    ensures var a := GroupsFrom(env, q, rs, i, st, prev); Yields(env, prog, m, a.rows, a.ok, ns) && |ns| > 0
    decreases |rs| - i, 1
  {
    hide Run, Yields, GroupLoaded, HoldsStates, Previous, RecordAt, Continue, SameKeys, FieldsFrom, RowFor, Aggregates, Block, At, GroupLayout, FilterOf, ListCodeOf, ItemsOf, RestOps, Floats;
    LoadedIs(prog, q, l);
    GroupParts(prog, q, l);
    PlanFacts(q, l);
    PreviousLength(m, q, l, prev);
    var c := |q.columns|;
    var n, m1 := HeadRuns(env, prog, q, l, rs, i, prev, m);
    match FieldsFrom(env, rs[i], 0, l.keys)
    case None =>
      ns := [n];
      YieldsEnd(env, prog, m, n);
    case Some(ks) =>
      HoldsStay(m, l.reg, st, m1.pc, m1.regs, Curr(l, c));
      RecordStays(m, l.c, m1.pc, m1.regs);
      HeadKept(m, m1, q, l, prev);
      if prev == None {
        var a := Continue(env, q, rs, i, st, ks, ks);
        var k, m2 := FirstRuns(env, prog, q, l, st, ks, m1);
        RecordStays(m1, l.c, m2.pc, m2.regs);
        RunCompose(env, prog, m, n, m1, k);
        var js := ContinueRuns(env, prog, q, l, rs, i, st, ks, ks, m2);
        YieldsAfter(env, prog, m, n + k, m2, a.rows, a.ok, js);
        ns := [n + k + js[0]] + js[1..];
      } else if SameKeys(env, prev.value, ks) {
        var a := Continue(env, q, rs, i, st, prev.value, ks);
        var js := ContinueRuns(env, prog, q, l, rs, i, st, prev.value, ks, m1);
        YieldsAfter(env, prog, m, n, m1, a.rows, a.ok, js);
        ns := [n + js[0]] + js[1..];
      } else {
        var js := ChangeRuns(env, prog, q, l, rs, i, st, prev.value, ks, m1);
        var a := GroupsFrom(env, q, rs, i, st, prev);
        YieldsAfter(env, prog, m, n, m1, a.rows, a.ok, js);
        ns := [n + js[0]] + js[1..];
      }
  }

  lemma LoadedIs(prog: seq<VdbeOp>, q: GroupQuery, l: GroupPlan)
    requires GroupLoaded(prog, q, l)
    ensures GroupLayout(q, l.c, l.base, l.reg) == Some(l)
  {
  }

  lemma PreviousLength(m: Machine, q: GroupQuery, l: GroupPlan, prev: Option<seq<Mem>>)
    requires Previous(m, q, l, prev)
    ensures prev.Some? ==> |prev.value| == l.keys
  {
  }

  lemma HeadKept(m: Machine, m1: Machine, q: GroupQuery, l: GroupPlan, prev: Option<seq<Mem>>)
    requires Previous(m, q, l, prev) && Kept(m.regs, m1.regs, Curr(l, |q.columns|))
    ensures Previous(m1, q, l, prev)
    ensures prev.Some? ==> Block(m1, Prev(l, |q.columns|), prev.value)
  {
    if prev.Some? {
      BlockKept(m, m1, Prev(l, |q.columns|), prev.value);
    }
  }

  /** A new group: the row of the old one, then the rest. */
  lemma ChangeRuns(env: Env, prog: seq<VdbeOp>, q: GroupQuery, l: GroupPlan, rs: seq<Data>, i: nat, st: States, ps: seq<Mem>, ks: seq<Mem>, m: Machine) returns (ns: seq<nat>)
    requires Floats(env) && GroupLoaded(prog, q, l) && m.pc == ChangedAt(l) && |st| == |l.aggs| && |ps| == |ks| == l.keys
    requires Sorting(m, q, l, rs, i) && Block(m, Prev(l, |q.columns|), ps) && Block(m, Curr(l, |q.columns|), ks) && HoldsStates(m, l.reg, st)
    requires l.aggs == Aggregates(q.columns) && l.keys == |q.groupBy|
    requires FieldsFrom(env, rs[i], 0, l.keys) == Some(ks) && !SameKeys(env, ps, ks)
    ensures var a := GroupsFrom(env, q, rs, i, st, Some(ps)); Yields(env, prog, m, a.rows, a.ok, ns) && |ns| > 0
    decreases |rs| - i, 0, 1
  {
    hide Run, Yields, GroupLoaded, HoldsStates, Previous, RecordAt, Continue, SameKeys, FieldsFrom, RowFor, Aggregates, Block, At, GroupLayout, FilterOf, ListCodeOf, ItemsOf, RestOps, Floats, ScanOps, LoopOps, FlushOps, LastOps, GroupOps, ScanPlan;
    LoadedIs(prog, q, l);
    GroupParts(prog, q, l);
    PlanFacts(q, l);
    var n, mid, k, m1 := FlushRuns(env, prog, q, l, st, ps, ks, m);
    match RowFor(env, q, st, ps)
    case None =>
      ns := [n];
      YieldsEnd(env, prog, m, n);
    case Some(row) =>
      RecordStays(m, l.c, m1.pc, m1.regs);
      var j, m2 := FirstRuns(env, prog, q, l, NoStates(|st|), ks, m1);
      RecordStays(m1, l.c, m2.pc, m2.regs);
      RunCompose(env, prog, mid, k, m1, j);
      var a := Continue(env, q, rs, i, NoStates(|st|), ks, ks);
      var js := ContinueRuns(env, prog, q, l, rs, i, NoStates(|st|), ks, ks, m2);
      YieldsAfter(env, prog, mid, k + j, m2, a.rows, a.ok, js);
      YieldsRow(env, prog, m, n, mid, row, a.rows, a.ok, [k + j + js[0]] + js[1..]);
      ns := [n] + ([k + j + js[0]] + js[1..]);
  }

  lemma {:induction false} ContinueRuns(env: Env, prog: seq<VdbeOp>, q: GroupQuery, l: GroupPlan, rs: seq<Data>, i: nat, st: States, ps: seq<Mem>, ks: seq<Mem>, m: Machine) returns (ns: seq<nat>)
    requires Floats(env) && GroupLoaded(prog, q, l) && m.pc == SameAt(l) && |st| == |l.aggs| && |ps| == |ks| == l.keys
    requires Sorting(m, q, l, rs, i) && Previous(m, q, l, Some(ps)) && Block(m, Curr(l, |q.columns|), ks) && HoldsStates(m, l.reg, st)
    requires l.aggs == Aggregates(q.columns) && l.keys == |q.groupBy|
    ensures var a := Continue(env, q, rs, i, st, ps, ks); Yields(env, prog, m, a.rows, a.ok, ns) && |ns| > 0
    decreases |rs| - i, 0, 0
  {
    hide Run, Yields, GroupLoaded, HoldsStates, Previous, RecordAt, FedAll, Aggregates, Block, GroupsFrom, Final;
    var n, m1 := FeedNext(env, prog, q, l, rs, i, st, ps, ks, m);
    match FedAll(env, l.keys, l.aggs, st, rs[i], |l.aggs|)
    case None =>
      ns := [n];
      YieldsEnd(env, prog, m, n);
    case Some(st1) =>
      var js: seq<nat>;
      var a: Answer;
      if i + 1 < |rs| {
        a := GroupsFrom(env, q, rs, i + 1, st1, Some(ps));
        js := GroupLoop(env, prog, q, l, rs, i + 1, st1, Some(ps), m1);
      } else {
        a := Final(env, q, st1, ks);
        js := LastRuns(env, prog, q, l, st1, ks, m1);
        YieldsSome(env, prog, m1, a.rows, a.ok, js);
      }
      YieldsAfter(env, prog, m, n, m1, a.rows, a.ok, js);
      ns := [n + js[0]] + js[1..];
  }
}
