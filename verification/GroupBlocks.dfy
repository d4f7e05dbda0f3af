/** What the blocks of a GROUP BY loop do to registers and accumulators. */
module GroupBlocks {
  import opened Bytes
  import opened Mem
  import opened Vdbe
  import opened Ast
  import opened ExprCode
  import opened ExprMeaning
  import opened WhereCode
  import opened Projection
  import opened GroupCode

  // ---- Sorter fields ----

  /** n fields of a record, from `col` on. */
  function FieldsFrom(env: Env, data: Data, col: nat, n: nat): (r: Option<seq<Mem>>)
    ensures r.Some? ==> |r.value| == n
  {
    if n == 0 then Some([])
    else
      match FieldsFrom(env, data, col, n - 1)
      case None => None
      case Some(vs) => (match FieldOf(env, data, col + n - 1) case None => None case Some(v) => Some(vs + [v]))
  }

  /** Running from m puts vs into the registers from dst on, or fails. */
  ghost predicate Puts(env: Env, prog: seq<VdbeOp>, m: Machine, n: nat, end: nat, out: seq<Mem>, dst: nat, vs: Option<seq<Mem>>) {
    match vs
    case None => Run(env, prog, m, n) == Fail
    case Some(xs) => Reaches(env, prog, m, n, end, out, dst) && |out| == |m.regs| && dst + |xs| <= |out| && out[dst..dst + |xs|] == xs
  }

  lemma {:induction false} FieldsRun(env: Env, prog: seq<VdbeOp>, m: Machine, s: nat, col: nat, dst: nat, n: nat, data: Data) returns (k: nat, out: seq<Mem>)
    requires At(prog, m.pc, FieldOps(s, col, dst, n)) && RecordAt(m, s) == Some(data) && dst + n <= |m.regs|
    ensures Puts(env, prog, m, k, m.pc + n, out, dst, FieldsFrom(env, data, col, n))
    decreases n
  {
    hide Exec, Run, Reaches, At, FieldOf, RecordAt;
    if n == 0 {
      k, out := 0, m.regs;
      Stay(env, prog, m, dst);
    } else {
      var op := Op(Opcode.Column, s, col + n - 1, dst + n - 1);
      AtSplit(prog, m.pc, FieldOps(s, col, dst, n - 1), [op]);
      k, out := FieldsRun(env, prog, m, s, col, dst, n - 1, data);
      var vs := FieldsFrom(env, data, col, n - 1);
      if vs.Some? {
        var pc := m.pc + n - 1;
        AtOne(prog, pc, op);
        RecordStays(m, s, pc + 1, out);
        ColumnOp(env, m.(pc := pc + 1, regs := out), s, col + n - 1, dst + n - 1);
        var v := FieldOf(env, data, col + n - 1);
        if v.Some? {
          PutStep(env, prog, m, k, pc, out, dst, op, dst + n - 1, v.value);
          var regs := out[dst + n - 1 := v.value];
          assert regs[dst..dst + n] == out[dst..dst + n - 1] + [v.value];
          out := regs;
        } else {
          FailStep(env, prog, m, k, pc, out, dst, op);
        }
        k := k + 1;
      }
    }
  }

  lemma RecordStays(m: Machine, s: nat, pc: nat, regs: seq<Mem>)
    ensures RecordAt(m.(pc := pc, regs := regs), s) == RecordAt(m, s)
  {
  }

  // ---- Comparing keys ----

  /** Key by key, no difference that Ne sees. */
  predicate SameKeys(env: Env, prev: seq<Mem>, curr: seq<Mem>)
    requires |prev| == |curr|
  {
    forall i :: 0 <= i < |prev| ==> !Holds(env, Ne, prev[i], curr[i])
  }

  lemma SameKeysOneMore(env: Env, regs: seq<Mem>, curr: nat, prev: nat, n: nat)
    requires curr + n < |regs| && prev + n < |regs|
    ensures
      SameKeys(env, regs[prev..prev + n + 1], regs[curr..curr + n + 1])
      <==> SameKeys(env, regs[prev..prev + n], regs[curr..curr + n]) && !Holds(env, Ne, regs[prev + n], regs[curr + n])
  {
    var p, c := regs[prev..prev + n + 1], regs[curr..curr + n + 1];
    assert p[n] == regs[prev + n] && c[n] == regs[curr + n];
    assert p[..n] == regs[prev..prev + n] && c[..n] == regs[curr..curr + n];
    forall i | 0 <= i < n ensures regs[prev..prev + n][i] == p[i] && regs[curr..curr + n][i] == c[i] {
    }
  }

  lemma NoKeys(env: Env)
    ensures SameKeys(env, [], [])
  {
  }

  lemma {:induction false} DifferRun(env: Env, prog: seq<VdbeOp>, m: Machine, curr: nat, prev: nat, n: nat, t: nat) returns (k: nat)
    requires At(prog, m.pc, DifferOps(curr, prev, n, t)) && curr + n <= |m.regs| && prev + n <= |m.regs|
    ensures Run(env, prog, m, k) == Next(m.(pc := if SameKeys(env, m.regs[prev..prev + n], m.regs[curr..curr + n]) then m.pc + n else t))
    decreases n
  {
    hide Exec, Run, At, Holds, SameKeys;
    if n == 0 {
      k := 0;
      Zero(env, prog, m);
      assert m.regs[prev..prev + n] == [] && m.regs[curr..curr + n] == [];
      NoKeys(env);
    } else {
      var op := Op(Jump(Ne), curr + n - 1, t, prev + n - 1);
      AtSplit(prog, m.pc, DifferOps(curr, prev, n - 1, t), [op]);
      k := DifferRun(env, prog, m, curr, prev, n - 1, t);
      SameKeysOneMore(env, m.regs, curr, prev, n - 1);
      if SameKeys(env, m.regs[prev..prev + n - 1], m.regs[curr..curr + n - 1]) {
        AtOne(prog, m.pc + n - 1, op);
        CompareOp(env, m.(pc := m.pc + n), Ne, prev + n - 1, curr + n - 1, t);
        Then(env, prog, m, k, m.(pc := m.pc + n - 1), op);
        k := k + 1;
      }
    }
  }

  lemma Zero(env: Env, prog: seq<VdbeOp>, m: Machine)
    ensures Run(env, prog, m, 0) == Next(m)
  {
  }

  // ---- Copies and NULLs ----

  /** Running from m sets the block at dst to vs and changes nothing else. */
  ghost predicate Sets(env: Env, prog: seq<VdbeOp>, m: Machine, n: nat, end: nat, out: seq<Mem>, dst: nat, vs: seq<Mem>) {
    && Run(env, prog, m, n) == Next(m.(pc := end, regs := out)) && |out| == |m.regs| && dst + |vs| <= |out|
    && out[dst..dst + |vs|] == vs
    && forall i :: 0 <= i < |out| && !(dst <= i < dst + |vs|) ==> out[i] == m.regs[i]
  }

  lemma SetsOne(env: Env, prog: seq<VdbeOp>, m: Machine, n: nat, pc: nat, out: seq<Mem>, dst: nat, vs: seq<Mem>, op: VdbeOp, v: Mem)
    requires Sets(env, prog, m, n, pc, out, dst, vs) && pc < |prog| && prog[pc] == op && dst + |vs| < |out|
    requires Exec(env, op, m.(pc := pc + 1, regs := out)) == Put(m.(pc := pc + 1, regs := out), dst + |vs|, v)
    ensures Sets(env, prog, m, n + 1, pc + 1, out[dst + |vs| := v], dst, vs + [v])
  {
    hide Run, Exec;
    Then(env, prog, m, n, m.(pc := pc, regs := out), op);
    var regs := out[dst + |vs| := v];
    assert regs[dst..dst + |vs| + 1] == out[dst..dst + |vs|] + [v];
  }

  lemma SetsNone(env: Env, prog: seq<VdbeOp>, m: Machine, dst: nat)
    requires dst <= |m.regs|
    ensures Sets(env, prog, m, 0, m.pc, m.regs, dst, [])
  {
    assert m.(pc := m.pc, regs := m.regs) == m;
  }

  lemma {:induction false} KeysRun(env: Env, prog: seq<VdbeOp>, m: Machine, curr: nat, prev: nat, n: nat) returns (out: seq<Mem>)
    requires At(prog, m.pc, KeyOps(curr, prev, n)) && prev + n <= curr && curr + n <= |m.regs|
    ensures Sets(env, prog, m, n, m.pc + n, out, prev, m.regs[curr..curr + n])
    decreases n
  {
    hide Exec, Run, At;
    if n == 0 {
      out := m.regs;
      SetsNone(env, prog, m, prev);
      assert m.regs[curr..curr] == [];
    } else {
      var op := Op(Copy, curr + n - 1, prev + n - 1, 0);
      AtSplit(prog, m.pc, KeyOps(curr, prev, n - 1), [op]);
      out := KeysRun(env, prog, m, curr, prev, n - 1);
      AtOne(prog, m.pc + n - 1, op);
      CopyOp(env, m.(pc := m.pc + n, regs := out), curr + n - 1, prev + n - 1);
      SetsOne(env, prog, m, n - 1, m.pc + n - 1, out, prev, m.regs[curr..curr + n - 1], op, m.regs[curr + n - 1]);
      assert m.regs[curr..curr + n] == m.regs[curr..curr + n - 1] + [m.regs[curr + n - 1]];
      out := out[prev + n - 1 := m.regs[curr + n - 1]];
    }
  }

  function Nulls(n: nat): (s: seq<Mem>)
    ensures |s| == n && forall i :: 0 <= i < n ==> s[i] == Null
  {
    if n == 0 then [] else Nulls(n - 1) + [Null]
  }

  lemma {:induction false} NullsRun(env: Env, prog: seq<VdbeOp>, m: Machine, reg: nat, n: nat) returns (out: seq<Mem>)
    requires At(prog, m.pc, NullOps(reg, n)) && reg + n <= |m.regs|
    ensures Sets(env, prog, m, n, m.pc + n, out, reg, Nulls(n))
    decreases n
  {
    hide Exec, Run, At;
    if n == 0 {
      out := m.regs;
      SetsNone(env, prog, m, reg);
    } else {
      var op := Op(NullOp, 0, reg + n - 1, 0);
      AtSplit(prog, m.pc, NullOps(reg, n - 1), [op]);
      out := NullsRun(env, prog, m, reg, n - 1);
      AtOne(prog, m.pc + n - 1, op);
      NullOpOp(env, m.(pc := m.pc + n, regs := out), reg + n - 1);
      SetsOne(env, prog, m, n - 1, m.pc + n - 1, out, reg, Nulls(n - 1), op, Null);
      out := out[reg + n - 1 := Null];
    }
  }

  // ---- Accumulators ----

  /** For each aggregate, None before its first step, else what it has been fed. */
  type States = seq<Option<Accumulator>>

  ghost predicate StateAt(m: Machine, r: nat, st: Option<Accumulator>) {
    && r < |m.regs|
    && match st
       case None => m.regs[r] == Null
       case Some(acc) => m.regs[r].Agg? && m.regs[r].index < |m.accs| && m.accs[m.regs[r].index] == acc
  }

  /** No two registers name the same accumulator. */
  ghost predicate Distinct(rs: seq<Mem>) {
    forall i, j :: 0 <= i < j < |rs| && rs[i].Agg? ==> rs[i] != rs[j]
  }

  /** The registers from reg on hold the states, no two the same accumulator. */
  ghost predicate HoldsStates(m: Machine, reg: nat, st: States) {
    && reg + |st| <= |m.regs| && Distinct(m.regs[reg..reg + |st|])
    && forall i :: 0 <= i < |st| ==> StateAt(m, reg + i, st[i])
  }

  function NameOf(e: Expr): string {
    if e.Call? then e.fname else ""
  }

  function FinalValue(env: Env, e: Expr, st: Option<Accumulator>): Option<Mem> {
    match st
    case None => if env.known(NameOf(e)) then env.final(Accumulator(NameOf(e), [])) else None
    case Some(acc) => env.final(acc)
  }

  function FinalValues(env: Env, aggs: seq<Expr>, st: States, k: nat): (r: Option<seq<Mem>>)
    requires k <= |aggs| == |st|
    ensures r.Some? ==> |r.value| == k
  {
    if k == 0 then Some([])
    else
      match FinalValues(env, aggs, st, k - 1)
      case None => None
      case Some(vs) => (match FinalValue(env, aggs[k - 1], st[k - 1]) case None => None case Some(v) => Some(vs + [v]))
  }

  lemma FinalOp(env: Env, m: Machine, e: Expr, r: nat, st: Option<Accumulator>)
    requires StateAt(m, r, st)
    ensures Exec(env, AggOp(AggFinal, e, r, 0, 0), m) == match FinalValue(env, e, st) case None => Fail case Some(v) => Put(m, r, v)
  {
  }

  /** Sets, or a failure when vs is None. */
  ghost predicate MaySet(env: Env, prog: seq<VdbeOp>, m: Machine, n: nat, end: nat, out: seq<Mem>, dst: nat, vs: Option<seq<Mem>>) {
    match vs case None => Run(env, prog, m, n) == Fail case Some(xs) => Sets(env, prog, m, n, end, out, dst, xs)
  }

  lemma {:induction false} FinalsRun(env: Env, prog: seq<VdbeOp>, m: Machine, aggs: seq<Expr>, reg: nat, st: States, k: nat) returns (n: nat, out: seq<Mem>)
    requires k <= |aggs| == |st| && At(prog, m.pc, FinalOps(aggs, reg, k)) && HoldsStates(m, reg, st)
    ensures MaySet(env, prog, m, n, m.pc + k, out, reg, FinalValues(env, aggs, st, k))
    decreases k
  {
    hide Exec, Run, At, FinalValue, Sets, StateAt;
    if k == 0 {
      n, out := 0, m.regs;
      SetsNone(env, prog, m, reg);
    } else {
      var op := AggOp(AggFinal, aggs[k - 1], reg + k - 1, 0, 0);
      AtSplit(prog, m.pc, FinalOps(aggs, reg, k - 1), [op]);
      n, out := FinalsRun(env, prog, m, aggs, reg, st, k - 1);
      var vs := FinalValues(env, aggs, st, k - 1);
      if vs.Some? {
        var pc := m.pc + k - 1;
        AtOne(prog, pc, op);
        SetsRun(env, prog, m, n, pc, out, reg, vs.value);
        var m1 := m.(pc := pc, regs := out);
        assert StateAt(m, reg + (k - 1), st[k - 1]);
        StateStays(m, m1.(pc := pc + 1), reg + k - 1, st[k - 1]);
        FinalOp(env, m1.(pc := pc + 1), aggs[k - 1], reg + k - 1, st[k - 1]);
        var v := FinalValue(env, aggs[k - 1], st[k - 1]);
        Then(env, prog, m, n, m1, op);
        if v.Some? {
          SetsOne(env, prog, m, n, pc, out, reg, vs.value, op, v.value);
          out := out[reg + k - 1 := v.value];
        }
        n := n + 1;
      }
    }
  }

  lemma SetsRun(env: Env, prog: seq<VdbeOp>, m: Machine, n: nat, end: nat, out: seq<Mem>, dst: nat, vs: seq<Mem>)
    requires Sets(env, prog, m, n, end, out, dst, vs)
    ensures Run(env, prog, m, n) == Next(m.(pc := end, regs := out)) && |out| == |m.regs| && dst + |vs| <= |out|
    ensures forall i :: 0 <= i < |out| && !(dst <= i < dst + |vs|) ==> out[i] == m.regs[i]
    ensures out[dst..dst + |vs|] == vs
  {
    hide Run;
  }

  lemma StateStays(m: Machine, m1: Machine, r: nat, st: Option<Accumulator>)
    requires StateAt(m, r, st) && m1.accs == m.accs && |m1.regs| == |m.regs| && m1.regs[r] == m.regs[r]
    ensures StateAt(m1, r, st)
  {
  }

  // ---- Feeding ----

  /** An aggregate after one more argument list; None when it is rejected. */
  function Fed(env: Env, e: Expr, st: Option<Accumulator>, args: seq<Mem>): Option<Accumulator> {
    match st
    case None =>
      if env.known(NameOf(e)) && env.accepts(Accumulator(NameOf(e), []), args) then Some(Accumulator(NameOf(e), [args])) else None
    case Some(acc) => if env.accepts(acc, args) then Some(Accumulator(acc.name, acc.fed + [args])) else None
  }

  /** The first k aggregates are fed their fields of the record. */
  function FedAll(env: Env, keys: nat, aggs: seq<Expr>, st: States, data: Data, k: nat): (r: Option<States>)
    requires k <= |aggs| == |st|
    ensures r.Some? ==> |r.value| == |st| && forall i :: k <= i < |st| ==> r.value[i] == st[i]
  {
    if k == 0 then Some(st)
    else
      match FedAll(env, keys, aggs, st, data, k - 1)
      case None => None
      case Some(st1) => (
        match FieldsFrom(env, data, keys + ArgOffset(aggs, k - 1), ArgCount(aggs[k - 1]))
        case None => None
        case Some(args) => (match Fed(env, aggs[k - 1], st[k - 1], args) case None => None case Some(acc) => Some(st1[k - 1 := Some(acc)])))
  }

  /** Stepping an aggregate moves its register to the state after Fed. */
  lemma StepOp(env: Env, m: Machine, e: Expr, n: nat, block: nat, r: nat, st: Option<Accumulator>, args: seq<Mem>) returns (m1: Machine)
    requires StateAt(m, r, st) && |args| == n && (n > 0 ==> block + n <= |m.regs| && m.regs[block..block + n] == args)
    ensures
      var s := Exec(env, AggOp(AggStep, e, n, if n > 0 then block else 0, r), m);
      match Fed(env, e, st, args)
      case None => s == Fail
      case Some(acc) => s == Next(m1) && StateAt(m1, r, Some(acc)) && Stepped(m, m1, r)
  {
    m1 := m;
    var s := Exec(env, AggOp(AggStep, e, n, if n > 0 then block else 0, r), m);
    if s.Next? {
      m1 := s.m;
    }
  }

  /** One register now names its own accumulator; other accumulators and registers are as before. */
  ghost predicate Stepped(m: Machine, m1: Machine, r: nat) {
    && r < |m.regs| && m1 == m.(regs := m1.regs, accs := m1.accs)
    && |m1.regs| == |m.regs| && m1.regs[r].Agg? && |m1.accs| >= |m.accs|
    && (m.regs[r] == Null ==> m1.regs == m.regs[r := Agg(|m.accs|)])
    && (m.regs[r] != Null ==> m1.regs == m.regs)
    && (forall i :: 0 <= i < |m.accs| && i != m1.regs[r].index ==> m1.accs[i] == m.accs[i])
  }

  lemma StepHolds(m: Machine, m1: Machine, reg: nat, st: States, k: nat, acc: Accumulator)
    requires HoldsStates(m, reg, st) && k < |st| && Stepped(m, m1, reg + k) && StateAt(m1, reg + k, Some(acc))
    ensures HoldsStates(m1, reg, st[k := Some(acc)])
  {
    var rs, rs1 := m.regs[reg..reg + |st|], m1.regs[reg..reg + |st|];
    assert StateAt(m, reg + k, st[k]) && rs[k] == m.regs[reg + k];
    forall i | 0 <= i < |st| && i != k ensures StateAt(m1, reg + i, st[i]) {
      assert StateAt(m, reg + i, st[i]) && rs[i] == m.regs[reg + i];
    }
    forall i, j | 0 <= i < j < |rs1| && rs1[i].Agg? ensures rs1[i] != rs1[j] {
      assert StateAt(m, reg + i, st[i]) && StateAt(m, reg + j, st[j]);
      assert rs[i] == m.regs[reg + i] && rs[j] == m.regs[reg + j];
    }
  }

  /** Registers of the aggregates and from `from` on may change, and so may the accumulators. */
  ghost predicate Feeds(env: Env, prog: seq<VdbeOp>, m: Machine, n: nat, end: nat, m1: Machine, reg: nat, from: nat, st: Option<States>) {
    match st
    case None => Run(env, prog, m, n) == Fail
    case Some(ss) =>
      && Run(env, prog, m, n) == Next(m1) && m1 == m.(pc := end, regs := m1.regs, accs := m1.accs)
      && KeptBut(m.regs, m1.regs, from, reg, |ss|) && HoldsStates(m1, reg, ss)
  }

  lemma HoldsStay(m: Machine, reg: nat, st: States, pc: nat, regs: seq<Mem>, from: nat)
    requires HoldsStates(m, reg, st) && Kept(m.regs, regs, from) && reg + |st| <= from
    ensures HoldsStates(m.(pc := pc, regs := regs), reg, st)
  {
    assert regs[reg..reg + |st|] == m.regs[reg..reg + |st|];
    forall i | 0 <= i < |st| ensures StateAt(m.(pc := pc, regs := regs), reg + i, st[i]) {
      assert StateAt(m, reg + i, st[i]);
    }
  }

  lemma FeedsFacts(env: Env, prog: seq<VdbeOp>, m: Machine, n: nat, end: nat, m1: Machine, reg: nat, from: nat, st: Option<States>)
    requires Feeds(env, prog, m, n, end, m1, reg, from, st)
    ensures st == None ==> Run(env, prog, m, n) == Fail
    ensures st.Some? ==>
      && Run(env, prog, m, n) == Next(m1) && m1 == m.(pc := end, regs := m1.regs, accs := m1.accs)
      && |m1.regs| == |m.regs| && HoldsStates(m1, reg, st.value)
  {
  }

  lemma PutsFacts(env: Env, prog: seq<VdbeOp>, m: Machine, n: nat, end: nat, out: seq<Mem>, dst: nat, vs: Option<seq<Mem>>)
    requires Puts(env, prog, m, n, end, out, dst, vs)
    ensures vs == None ==> Run(env, prog, m, n) == Fail
    ensures vs.Some? ==>
      && Run(env, prog, m, n) == Next(m.(pc := end, regs := out)) && |out| == |m.regs| && Kept(m.regs, out, dst)
      && dst + |vs.value| <= |out| && out[dst..dst + |vs.value|] == vs.value
  {
  }

  /** One aggregate: load its arguments, then step it. */
  lemma FeedOne(env: Env, prog: seq<VdbeOp>, m: Machine, s: nat, col: nat, e: Expr, reg: nat, k: nat, block: nat, st: States, data: Data) returns (n: nat, m1: Machine)
    requires k < |st| && HoldsStates(m, reg, st) && reg + |st| <= block && block + ArgCount(e) <= |m.regs| && RecordAt(m, s) == Some(data)
    requires At(prog, m.pc, FieldOps(s, col, block, ArgCount(e)) + [AggOp(AggStep, e, ArgCount(e), if ArgCount(e) > 0 then block else 0, reg + k)])
    ensures
      var st' := match FieldsFrom(env, data, col, ArgCount(e)) case None => None case Some(args) => (
                 match Fed(env, e, st[k], args) case None => None case Some(acc) => Some(st[k := Some(acc)]));
      Feeds(env, prog, m, n, m.pc + ArgCount(e) + 1, m1, reg, block, st')
  {
    hide Exec, Run, At, FieldOps, FieldsFrom, Fed, RecordAt, HoldsStates, Puts, Stepped;
    var c := ArgCount(e);
    var op := AggOp(AggStep, e, c, if c > 0 then block else 0, reg + k);
    AtSplit(prog, m.pc, FieldOps(s, col, block, c), [op]);
    var out;
    n, out := FieldsRun(env, prog, m, s, col, block, c, data);
    var args := FieldsFrom(env, data, col, c);
    PutsFacts(env, prog, m, n, m.pc + c, out, block, args);
    m1 := m;
    if args.Some? {
      var m2 := m.(pc := m.pc + c, regs := out);
      AtOne(prog, m.pc + c, op);
      HoldsStay(m, reg, st, m.pc + c + 1, out, block);
      var m3 := m2.(pc := m.pc + c + 1);
      assert StateAt(m3, reg + k, st[k]) by {
        HoldsOne(m3, reg, st, k);
      }
      m1 := StepOp(env, m3, e, c, block, reg + k, st[k], args.value);
      Then(env, prog, m, n, m2, op);
      n := n + 1;
      var acc := Fed(env, e, st[k], args.value);
      if acc.Some? {
        StepHolds(m3, m1, reg, st, k, acc.value);
        SteppedKept(m3, m1, reg + k, reg, |st|, block);
        KeptTrans(m.regs, out, m1.regs, block, reg, |st|);
      }
    }
  }

  lemma HoldsOne(m: Machine, reg: nat, st: States, k: nat)
    requires HoldsStates(m, reg, st) && k < |st|
    ensures StateAt(m, reg + k, st[k])
  {
  }

  lemma SteppedKept(m: Machine, m1: Machine, r: nat, reg: nat, n: nat, from: nat)
    requires Stepped(m, m1, r) && reg <= r < reg + n
    ensures KeptBut(m.regs, m1.regs, from, reg, n) && m1 == m.(pc := m.pc, regs := m1.regs, accs := m1.accs)
  {
  }

  lemma KeptTrans(a: seq<Mem>, b: seq<Mem>, c: seq<Mem>, from: nat, reg: nat, n: nat)
    requires Kept(a, b, from) && KeptBut(b, c, from, reg, n)
    ensures KeptBut(a, c, from, reg, n)
  {
  }

  lemma {:induction false} FeedRun(env: Env, prog: seq<VdbeOp>, m: Machine, s: nat, keys: nat, aggs: seq<Expr>, reg: nat, from: nat, k: nat, st: States, data: Data) returns (n: nat, m1: Machine)
    requires k <= |aggs| == |st| && At(prog, m.pc, FeedOps(s, keys, aggs, reg, from, k)) && HoldsStates(m, reg, st)
    requires reg + |aggs| <= from && from + ArgOffset(aggs, k) <= |m.regs| && RecordAt(m, s) == Some(data)
    ensures Feeds(env, prog, m, n, m.pc + ArgOffset(aggs, k) + k, m1, reg, from, FedAll(env, keys, aggs, st, data, k))
    decreases k
  {
    hide Exec, Run, At, FieldOps, FieldsFrom, Fed, RecordAt, HoldsStates, Feeds, ArgCount;
    if k == 0 {
      n, m1 := 0, m;
      FeedsNone(env, prog, m, reg, from, st);
    } else {
      var e := aggs[k - 1];
      var block := BlocksEnd(aggs, from, k - 1);
      var op := AggOp(AggStep, e, ArgCount(e), if ArgCount(e) > 0 then block else 0, reg + k - 1);
      var head, tail := FeedOps(s, keys, aggs, reg, from, k - 1), FieldOps(s, keys + ArgOffset(aggs, k - 1), block, ArgCount(e)) + [op];
      assert FeedOps(s, keys, aggs, reg, from, k) == head + tail;
      AtSplit(prog, m.pc, head, tail);
      var pc := m.pc + ArgOffset(aggs, k - 1) + k - 1;
      n, m1 := FeedRun(env, prog, m, s, keys, aggs, reg, from, k - 1, st, data);
      var st1 := FedAll(env, keys, aggs, st, data, k - 1);
      FeedsFacts(env, prog, m, n, pc, m1, reg, from, st1);
      if st1.Some? {
        RecordSame(m, m1, s);
        var j, m2 := FeedOne(env, prog, m1, s, keys + ArgOffset(aggs, k - 1), e, reg, k - 1, block, st1.value, data);
        FeedsThen(env, prog, m, n, pc, m1, reg, from, st1.value, j, pc + ArgCount(e) + 1, m2, block, FedAll(env, keys, aggs, st, data, k));
        n, m1 := n + j, m2;
      } else {
        FeedsFail(env, prog, m, n, pc + ArgCount(e) + 1, m1, reg, from);
      }
    }
  }

  lemma FeedsNone(env: Env, prog: seq<VdbeOp>, m: Machine, reg: nat, from: nat, st: States)
    requires HoldsStates(m, reg, st)
    ensures Feeds(env, prog, m, 0, m.pc, m, reg, from, Some(st))
  {
  }

  lemma FeedsFail(env: Env, prog: seq<VdbeOp>, m: Machine, n: nat, end: nat, m1: Machine, reg: nat, from: nat)
    requires Run(env, prog, m, n) == Fail
    ensures Feeds(env, prog, m, n, end, m1, reg, from, None)
  {
  }

  lemma RecordSame(m: Machine, m1: Machine, s: nat)
    requires m1.cursors == m.cursors && m1.tables == m.tables
    ensures RecordAt(m1, s) == RecordAt(m, s)
  {
  }

  lemma FeedsThen(env: Env, prog: seq<VdbeOp>, m: Machine, n: nat, mid: nat, m1: Machine, reg: nat, from: nat, st: States, k: nat, end: nat, m2: Machine, block: nat, st': Option<States>)
    requires Feeds(env, prog, m, n, mid, m1, reg, from, Some(st)) && Feeds(env, prog, m1, k, end, m2, reg, block, st')
    requires from <= block && (st'.Some? ==> |st'.value| == |st|)
    ensures Feeds(env, prog, m, n + k, end, m2, reg, from, st')
  {
    hide Run, HoldsStates;
    RunCompose(env, prog, m, n, m1, k);
  }
}
