/** SELECT, DELETE and UPDATE with a condition, in terms of the rows' values alone. */
module Queries {
  import opened Bytes
  import opened Mem
  import opened Vdbe
  import opened Ast
  import opened ExprCode
  import opened Projection
  import opened SelectCode
  import opened SelectMeaning
  import opened KeyOrder
  import opened Condition
  import opened Interpreter
  import D = DmlCode
  import DM = DmlMeaning
  import GB = GroupBlocks
  import R = Record
  import Statement

  /** A result column: all columns of the table, or one. */
  datatype Pick = All | Only(ref: Ref)

  function PickColumn(p: Pick): ResultColumn {
    match p case All => StarColumn case Only(ref) => ExprColumn(Expr.Column(ref.name))
  }

  function PickColumns(ps: seq<Pick>): (cs: seq<ResultColumn>)
    ensures |cs| == |ps|
  {
    seq(|ps|, i requires 0 <= i < |ps| => PickColumn(ps[i]))
  }

  ghost predicate PicksOver(ps: seq<Pick>, names: seq<string>) {
    forall i :: 0 <= i < |ps| && ps[i].Only? ==> Named(names, ps[i].ref.name, ps[i].ref.at)
  }

  /** The output row. */
  function Picked(ps: seq<Pick>, row: seq<Mem>): seq<Mem> {
    if ps == [] then []
    else
      Picked(ps[..|ps| - 1], row) + match ps[|ps| - 1] case All => row case Only(ref) => if ref.at < |row| then [row[ref.at]] else []
  }

  /** The records of a table hold these values, one for each column, and the condition has a meaning for each. */
  ghost predicate Contents(env: Env, names: seq<string>, table: seq<TableRow>, vals: seq<R.Row>, c: Condition) {
    && |table| == |vals|
    && forall i :: 0 <= i < |table| ==> Records(env, table[i].data, vals[i]) && |vals[i]| == |names| && Defined(c, LoadedRow(vals[i]))
  }

  /** idx lists, in order, exactly the rows for which the condition is true. */
  ghost predicate Where(c: Condition, vals: seq<R.Row>, idx: seq<nat>) {
    && (forall j, k :: 0 <= j < k < |idx| ==> idx[j] < idx[k])
    && (forall k :: 0 <= k < |idx| ==> idx[k] < |vals|)
    && (forall i :: 0 <= i < |vals| ==> (i in idx <==> Chosen(c, vals[i])))
  }

  ghost predicate Chosen(c: Condition, vs: R.Row) {
    Defined(c, LoadedRow(vs)) && Meets(c, LoadedRow(vs))
  }

  // ---- SELECT ----

  lemma {:induction false} ItemValuesJoin(env: Env, a: seq<Item>, b: seq<Item>, k: nat, ctx: Context)
    requires k <= |b| && ItemValues(env, a, |a|, ctx).Some?
    ensures
      var all := ItemValues(env, a + b, |a| + k, ctx);
      match ItemValues(env, b, k, ctx) case None => all == None case Some(vs) => all == Some(ItemValues(env, a, |a|, ctx).value + vs)
    decreases k
  {
    hide ItemValue;
    var start := ItemValues(env, a, |a|, ctx).value;
    if k == 0 {
      ItemValuesPrefix(env, a, b, |a|, ctx);
      assert start + [] == start;
    } else {
      ItemValuesJoin(env, a, b, k - 1, ctx);
      assert (a + b)[|a| + k - 1] == b[k - 1];
      if ItemValues(env, b, k, ctx).Some? {
        var vs := ItemValues(env, b, k, ctx).value;
        assert start + vs == start + vs[..k - 1] + [vs[k - 1]];
      }
    }
  }

  lemma {:induction false} ItemValuesPrefix(env: Env, a: seq<Item>, b: seq<Item>, k: nat, ctx: Context)
    requires k <= |a|
    ensures ItemValues(env, a + b, k, ctx) == ItemValues(env, a, k, ctx)
    decreases k
  {
    hide ItemValue;
    if k > 0 {
      ItemValuesPrefix(env, a, b, k - 1, ctx);
    }
  }

  lemma {:induction false} DirectsAre(n: nat, i: nat)
    requires i < n
    ensures Directs(n)[i] == Direct(i)
  {
    if i < n - 1 {
      DirectsAre(n - 1, i);
    }
  }

  lemma {:induction false} AllColumns(env: Env, names: seq<string>, data: Data, vs: R.Row, k: nat)
    requires Records(env, data, vs) && |vs| == |names| && k <= |names|
    ensures ItemValues(env, Directs(|names|), k, RowContext(names, data)) == Some(LoadedRow(vs)[..k])
    decreases k
  {
    hide FieldOf, Records;
    if k > 0 {
      AllColumns(env, names, data, vs, k - 1);
      DirectsAre(|names|, k - 1);
      FieldIs(env, data, vs, k - 1);
      assert LoadedRow(vs)[..k] == LoadedRow(vs)[..k - 1] + [LoadedRow(vs)[k - 1]];
    }
  }

  /** The output columns are those picked, and their values those of the row. */
  lemma {:induction false} PickedItems(ps: seq<Pick>, names: seq<string>)
    requires PicksOver(ps, names)
    ensures Wanted(PickColumns(ps), names).Some?
    decreases |ps|
  {
    hide Position;
    if ps != [] {
      var init, last := ps[..|ps| - 1], ps[|ps| - 1];
      assert PickColumns(ps)[..|ps| - 1] == PickColumns(init);
      PickedItems(init, names);
      if last.Only? {
        PositionIs(names, last.ref.name, last.ref.at);
      }
    }
  }

  lemma {:induction false} PickedValues(env: Env, ps: seq<Pick>, names: seq<string>, data: Data, vs: R.Row)
    requires PicksOver(ps, names) && Records(env, data, vs) && |vs| == |names| && Wanted(PickColumns(ps), names).Some?
    ensures
      var items := Wanted(PickColumns(ps), names).value;
      ItemValues(env, items, |items|, RowContext(names, data)) == Some(Picked(ps, LoadedRow(vs)))
    decreases |ps|
  {
    hide Position, Records, FieldOf;
    if ps != [] {
      var init, last := ps[..|ps| - 1], ps[|ps| - 1];
      assert PickColumns(ps)[..|ps| - 1] == PickColumns(init);
      PickedItems(init, names);
      PickedValues(env, init, names, data, vs);
      var items := Wanted(PickColumns(init), names).value;
      match last
      case All =>
        AllColumns(env, names, data, vs, |names|);
        assert LoadedRow(vs)[..|names|] == LoadedRow(vs);
        ItemValuesJoin(env, items, Directs(|names|), |names|, RowContext(names, data));
      case Only(ref) =>
        PositionIs(names, ref.name, ref.at);
        FieldIs(env, data, vs, ref.at);
        OneItem(env, ref.at, RowContext(names, data));
        ItemValuesJoin(env, items, [Direct(ref.at)], 1, RowContext(names, data));
    }
  }

  lemma OneItem(env: Env, i: nat, ctx: Context)
    requires ctx.data.Some? && FieldOf(env, ctx.data.value, i).Some?
    ensures ItemValues(env, [Direct(i)], 1, ctx) == Some([FieldOf(env, ctx.data.value, i).value])
  {
    hide FieldOf;
    assert ItemValues(env, [Direct(i)], 0, ctx) == Some([]);
    var v := FieldOf(env, ctx.data.value, i).value;
    assert [] + [v] == [v];
  }

  lemma PicksAligned(ps: seq<Pick>, names: seq<string>)
    ensures Aligned(PickColumns(ps), names)
  {
    forall j | 0 <= j < |ps| && PickColumns(ps)[j].ExprColumn? ensures PickColumns(ps)[j].e.Column? {
    }
  }

  lemma ConditionFilters(c: Condition, sc: Scope, base: nat, reg: nat, t: nat)
    requires sc.table.Some? && sc.bound == [] && Over(c, sc.table.value.columns)
    ensures FilterOf(Some(ConditionExpr(c)), sc, base, reg, t).Some?
  {
    ConditionCompiles(c, sc, base, reg, t);
  }

  /** The query compiles. */
  lemma PicksCompile(ps: seq<Pick>, c: Condition, names: seq<string>, root: int) returns (items: seq<Item>)
    requires PicksOver(ps, names) && Over(c, names)
    ensures
      var q := Query(PickColumns(ps), Some(ConditionExpr(c)), root, names);
      && Wanted(q.columns, names) == Some(items) && LayoutOf(q, 0, 0, 0).Some? && LayoutOf(q, 0, 0, 0).value.items == items
  {
    hide FilterOf, Wanted, ItemsOf, Position;
    var q := Query(PickColumns(ps), Some(ConditionExpr(c)), root, names);
    PicksAligned(ps, names);
    PickedItems(ps, names);
    ItemsWanted(q.columns, names);
    items := Wanted(q.columns, names).value;
    PickedDirect(ps, names);
    DirectsCompile(items, |items|, SelectScope(q, 0), 2, BlockEnd(0, |items|), 0);
    var cols := ItemsOf(items, |items|, SelectScope(q, 0), 2, BlockEnd(0, |items|), 0).value;
    ConditionFilters(c, SelectScope(q, 0), 2 + |cols.ops|, cols.next, 0);
  }

  lemma {:induction false} PickedDirect(ps: seq<Pick>, names: seq<string>)
    requires Wanted(PickColumns(ps), names).Some?
    ensures var items := Wanted(PickColumns(ps), names).value; forall i :: 0 <= i < |items| ==> items[i].Direct?
    decreases |ps|
  {
    if ps != [] {
      var init := ps[..|ps| - 1];
      assert PickColumns(ps)[..|ps| - 1] == PickColumns(init);
      PickedDirect(init, names);
      forall i | 0 <= i < |names| ensures Directs(|names|)[i].Direct? {
        DirectsAre(|names|, i);
      }
    }
  }

  lemma {:induction false} DirectsCompile(items: seq<Item>, k: nat, sc: Scope, base: nat, reg: nat, dst: nat)
    requires k <= |items| && sc.table.Some? && forall i :: 0 <= i < |items| ==> items[i].Direct?
    ensures ItemsOf(items, k, sc, base, reg, dst).Some?
    decreases k
  {
    if k > 0 {
      DirectsCompile(items, k - 1, sc, base, reg, dst);
    }
  }

  /** The output of one row of the table. */
  lemma RowIs(env: Env, ps: seq<Pick>, c: Condition, names: seq<string>, root: int, items: seq<Item>, data: Data, vs: R.Row)
    requires Ordered(env) && PicksOver(ps, names) && Over(c, names) && Wanted(PickColumns(ps), names) == Some(items)
    requires Records(env, data, vs) && |vs| == |names| && Defined(c, LoadedRow(vs))
    ensures
      var q := Query(PickColumns(ps), Some(ConditionExpr(c)), root, names);
      RowOf(env, q, items, data) == Some(if Chosen(c, vs) then Some(Picked(ps, LoadedRow(vs))) else None)
  {
    hide Passes, ItemValues, Records, Ordered, Wanted, Meets, Defined, ConditionExpr, Picked;
    PickedValues(env, ps, names, data, vs);
    PassesIs(env, c, names, data, vs);
  }

  /**
    SELECT columns FROM table WHERE condition, compiled and stepped to its end: the rows for which the
    condition is true, in the order of the table, each with the values of the columns asked for.
   */
  method SelectWhere(env: Env, ps: seq<Pick>, c: Condition, names: seq<string>, root: int, table: seq<TableRow>, ghost vals: seq<R.Row>, fuel: nat)
    returns (compiled: bool, rows: seq<seq<Mem>>, r: StepResult, ghost idx: seq<nat>, ghost enough: nat)
    requires Ordered(env) && PicksOver(ps, names) && Over(c, names) && Contents(env, names, table, vals, c)
    ensures compiled && (fuel >= enough ==> r == Complete)
    ensures r == Complete ==> Where(c, vals, idx) && |rows| == |idx|
    ensures r == Complete ==> forall k :: 0 <= k < |idx| ==> rows[k] == Picked(ps, LoadedRow(vals[idx[k]]))
  {
    hide LayoutOf, Wanted, RowOf, Ordered, Over, PicksOver, Where, Picked, Answers, ConditionExpr;
    var q := Query(PickColumns(ps), Some(ConditionExpr(c)), root, names);
    ghost var items := PicksCompile(ps, c, names, root);
    compiled, rows, r, enough := Statement.Execute(env, q, map[root := table], fuel);
    ghost var f;
    f, idx := AnswersAre(env, q, items, table, 0);
    PicksWhere(env, ps, c, names, root, items, table, vals, f, idx, Answers(env, q, items, table, 0).rows);
  }

  lemma PicksWhere(env: Env, ps: seq<Pick>, c: Condition, names: seq<string>, root: int, items: seq<Item>, table: seq<TableRow>, vals: seq<R.Row>,
                   f: nat, idx: seq<nat>, rows: seq<seq<Mem>>)
    requires Ordered(env) && PicksOver(ps, names) && Over(c, names) && Contents(env, names, table, vals, c)
    requires Wanted(PickColumns(ps), names) == Some(items)
    requires
      var q := Query(PickColumns(ps), Some(ConditionExpr(c)), root, names);
      f <= |table| && (f < |table| ==> RowOf(env, q, items, table[f].data) == None) && SelectMeaning.Picks(env, q, items, table, 0, f, idx, rows)
    ensures f == |table| && Where(c, vals, idx) && |rows| == |idx|
    ensures forall k :: 0 <= k < |idx| ==> rows[k] == Picked(ps, LoadedRow(vals[idx[k]]))
  {
    hide RowOf, Wanted, Ordered, Over, PicksOver, Picked, Chosen, ConditionExpr, Records, Defined;
    var q := Query(PickColumns(ps), Some(ConditionExpr(c)), root, names);
    forall i | 0 <= i < |table|
      ensures RowOf(env, q, items, table[i].data) == Some(if Chosen(c, vals[i]) then Some(Picked(ps, LoadedRow(vals[i]))) else None)
    {
      RowIs(env, ps, c, names, root, items, table[i].data, vals[i]);
    }
    forall i | 0 <= i < |vals| ensures i in idx <==> Chosen(c, vals[i]) {
      if i in idx {
        var k :| 0 <= k < |idx| && idx[k] == i;
      }
    }
  }

  // ---- DELETE ----

  /** What is left: exactly the rows for which the condition is not true, in order. */
  ghost predicate Left(c: Condition, table: seq<TableRow>, vals: seq<R.Row>, idx: seq<nat>, rest: seq<TableRow>)
    requires |table| == |vals|
  {
    && |idx| == |rest|
    && (forall j, k :: 0 <= j < k < |idx| ==> idx[j] < idx[k])
    && (forall k :: 0 <= k < |idx| ==> idx[k] < |table| && rest[k] == table[idx[k]])
    && (forall i :: 0 <= i < |vals| ==> (i in idx <==> !Chosen(c, vals[i])))
  }

  lemma {:induction false} UnmatchedAre(env: Env, c: Condition, names: seq<string>, root: int, table: seq<TableRow>, vals: seq<R.Row>)
      returns (rest: seq<TableRow>, idx: seq<nat>)
    requires Ordered(env) && Over(c, names) && Contents(env, names, table, vals, c)
    ensures D.Unmatched(env, D.DeleteQuery(Some(ConditionExpr(c)), root, names), table) == Some(rest) && Left(c, table, vals, idx, rest)
    decreases |table|
  {
    hide Records, Ordered, Over, Defined, Chosen, ConditionExpr, Passes;
    rest, idx := [], [];
    if table != [] {
      var t, v := table[1..], vals[1..];
      assert Contents(env, names, t, v, c) by {
        forall i | 0 <= i < |t| ensures Records(env, t[i].data, v[i]) && |v[i]| == |names| && Defined(c, LoadedRow(v[i])) {
          assert t[i] == table[i + 1] && v[i] == vals[i + 1];
        }
      }
      var more, js := UnmatchedAre(env, c, names, root, t, v);
      ChosenIs(env, c, names, table[0].data, vals[0]);
      var shifted := seq(|js|, k requires 0 <= k < |js| => js[k] + 1);
      rest, idx := more, shifted;
      if !Chosen(c, vals[0]) {
        rest, idx := [table[0]] + more, [0] + shifted;
      }
      LeftMore(c, table, vals, js, more, shifted, idx, rest);
    }
  }

  lemma ChosenIs(env: Env, c: Condition, names: seq<string>, data: Data, vs: R.Row)
    requires Ordered(env) && Over(c, names) && Records(env, data, vs) && |vs| == |names| && Defined(c, LoadedRow(vs))
    ensures Filtered(env, Some(ConditionExpr(c)), D.RowContext(names, data)) == Some(Chosen(c, vs))
  {
    hide Records, Ordered, Over, ConditionExpr, Passes, Meets;
    PassesIs(env, c, names, data, vs);
  }

  lemma LeftMore(c: Condition, table: seq<TableRow>, vals: seq<R.Row>, js: seq<nat>, more: seq<TableRow>, shifted: seq<nat>, idx: seq<nat>, rest: seq<TableRow>)
    requires table != [] && |table| == |vals| && Left(c, table[1..], vals[1..], js, more)
    requires |shifted| == |js| && forall k :: 0 <= k < |js| ==> shifted[k] == js[k] + 1
    requires if Chosen(c, vals[0]) then idx == shifted && rest == more else idx == [0] + shifted && rest == [table[0]] + more
    ensures Left(c, table, vals, idx, rest)
  {
    hide Chosen;
    ShiftedIs(js, shifted);
    forall i | 0 <= i < |vals| ensures i in idx <==> !Chosen(c, vals[i]) {
      assert i in idx <==> i in shifted || (i == 0 && !Chosen(c, vals[0]));
      if i > 0 {
        assert vals[1..][i - 1] == vals[i];
      }
    }
  }

  lemma ShiftedIs(js: seq<nat>, shifted: seq<nat>)
    requires |shifted| == |js| && forall k :: 0 <= k < |js| ==> shifted[k] == js[k] + 1
    ensures 0 !in shifted
    ensures forall i: nat :: i > 0 ==> (i in shifted <==> i - 1 in js)
  {
    forall i: nat | i > 0 ensures i in shifted <==> i - 1 in js {
      if i - 1 in js {
        var k :| 0 <= k < |js| && js[k] == i - 1;
        assert shifted[k] == i;
      }
    }
  }

  /** DELETE FROM table WHERE condition, compiled and run: exactly the rows for which the condition is true are gone. */
  lemma DeleteWhere(env: Env, prog: seq<VdbeOp>, c: Condition, names: seq<string>, root: int, base: nat, reg: nat, code: WhereCode.Cond, vals: seq<R.Row>, m: Machine)
      returns (n: nat, rest: seq<TableRow>, idx: seq<nat>)
    requires DM.DeleteLoaded(prog, D.DeleteQuery(Some(ConditionExpr(c)), root, names), 0, base, reg, code)
    requires m.pc == base && |m.cursors| > 0 && code.next <= |m.regs| && root in m.tables
    requires Ordered(env) && Over(c, names) && Contents(env, names, m.tables[root], vals, c)
    ensures Run(env, prog, m, n).Done? && Run(env, prog, m, n).m.tables == m.tables[root := rest]
    ensures Left(c, m.tables[root], vals, idx, rest)
  {
    hide Run, Ordered, Over, Contents, ConditionExpr, Left, DM.DeleteLoaded;
    rest, idx := UnmatchedAre(env, c, names, root, m.tables[root], vals);
    n := DM.DeleteRuns(env, prog, D.DeleteQuery(Some(ConditionExpr(c)), root, names), 0, base, reg, code, m);
  }

  // ---- UPDATE ----

  /** SET column = term. */
  datatype Setting = Setting(ref: Ref, value: Term)

  function Assignments(ss: seq<Setting>): (r: seq<D.Assignment>)
    ensures |r| == |ss|
  {
    seq(|ss|, i requires 0 <= i < |ss| => D.Assignment(ss[i].ref.name, TermExpr(ss[i].value)))
  }

  ghost predicate SettingsOver(ss: seq<Setting>, names: seq<string>) {
    forall i :: 0 <= i < |ss| ==> SettingOver(ss[i], names)
  }

  ghost predicate SettingOver(x: Setting, names: seq<string>) {
    Named(names, x.ref.name, x.ref.at) && TermOver(x.value, names)
  }

  ghost predicate SettingsDefined(ss: seq<Setting>, row: seq<Mem>) {
    forall i :: 0 <= i < |ss| ==> TermDefined(ss[i].value, row)
  }

  /** The row after the settings, each computed from the row as it was; of two for one column the later one counts. */
  ghost function SetRow(ss: seq<Setting>, row: seq<Mem>): (r: seq<Mem>)
    requires SettingsDefined(ss, row)
    ensures |r| == |row|
  {
    if ss == [] then row
    else
      var last := ss[|ss| - 1];
      assert TermDefined(last.value, row);
      var before := SetRow(ss[..|ss| - 1], row);
      if last.ref.at < |row| then before[last.ref.at := TermValue(last.value, row).value] else before
  }

  /** The value that a register is stored as. */
  function Stored(m: Mem): R.Value {
    match m
    case Null => R.Null
    case Int(i) => R.Int(i)
    case Real(f) => R.Real(f)
    case Text(t) => R.Text(t)
    case Blob(b) => R.Blob(b)
    case ZeroBlob(n) => R.ZeroBlob(n)
    case Agg(_) => R.Null
  }

  function StoredRow(ms: seq<Mem>): (vs: seq<R.Value>)
    ensures |vs| == |ms|
  {
    seq(|ms|, i requires 0 <= i < |ms| => Stored(ms[i]))
  }

  /** The values can be stored in a record. */
  predicate Storable(ms: seq<Mem>) {
    && |ms| < 0x400_0000_0000_0000 && (forall i :: 0 <= i < |ms| ==> !ms[i].Agg? && !ms[i].ZeroBlob?)
    && R.Encodable(StoredRow(ms)) && |R.EncodedRecord(StoredRow(ms))| < 0x7FFF_FFFF_FFFF_FFFA
  }

  lemma {:induction false} StoredValues(ms: seq<Mem>)
    requires forall i :: 0 <= i < |ms| ==> !ms[i].Agg?
    ensures ToValues(ms) == Some(StoredRow(ms))
    decreases |ms|
  {
    if ms != [] {
      var init := ms[..|ms| - 1];
      StoredValues(init);
      assert StoredRow(ms) == StoredRow(init) + [Stored(ms[|ms| - 1])];
    }
  }

  lemma {:induction false} AllFields(env: Env, data: Data, vs: R.Row, n: nat)
    requires Records(env, data, vs) && n <= |vs|
    ensures GB.FieldsFrom(env, data, 0, n) == Some(LoadedRow(vs)[..n])
    decreases n
  {
    hide FieldOf, Records;
    if n > 0 {
      AllFields(env, data, vs, n - 1);
      FieldIs(env, data, vs, n - 1);
      assert LoadedRow(vs)[..n] == LoadedRow(vs)[..n - 1] + [LoadedRow(vs)[n - 1]];
    }
  }

  lemma {:induction false} AssignedIs(env: Env, q: D.UpdateQuery, ss: seq<Setting>, data: Data, vs: R.Row, k: nat)
    requires q.assignments == Assignments(ss) && SettingsOver(ss, q.names) && k <= |ss|
    requires Records(env, data, vs) && |vs| == |q.names| && SettingsDefined(ss, LoadedRow(vs))
    ensures SettingsDefined(ss[..k], LoadedRow(vs))
    ensures D.Assigned(env, q, D.RowContext(q.names, data), LoadedRow(vs), k) == Some(SetRow(ss[..k], LoadedRow(vs)))
    decreases k
  {
    hide Position, Records, Eval, TermOver, TermExpr, TermValue;
    if k > 0 {
      AssignedIs(env, q, ss, data, vs, k - 1);
      var x := ss[k - 1];
      assert ss[..k][..k - 1] == ss[..k - 1] && ss[..k][k - 1] == x;
      assert SettingOver(x, q.names);
      PositionIs(q.names, x.ref.name, x.ref.at);
      assert TermDefined(x.value, LoadedRow(vs));
      TermEval(env, x.value, q.names, data, vs);
    }
  }

  ghost function UpdateOf(ss: seq<Setting>, c: Condition, names: seq<string>, root: int): D.UpdateQuery {
    D.UpdateQuery(Assignments(ss), Some(ConditionExpr(c)), root, names)
  }

  /** A row with the settings made, or as it was when the condition is not true of it. */
  ghost predicate Rewrites(ss: seq<Setting>, c: Condition, vs: R.Row, before: TableRow, after: TableRow) {
    if Chosen(c, vs) then
      && SettingsDefined(ss, LoadedRow(vs)) && Storable(SetRow(ss, LoadedRow(vs)))
      && after.key == before.key && after.data == R.EncodedRecord(StoredRow(SetRow(ss, LoadedRow(vs))))
    else after == before
  }

  ghost predicate Settable(ss: seq<Setting>, c: Condition, vs: R.Row) {
    Chosen(c, vs) ==> SettingsDefined(ss, LoadedRow(vs)) && Storable(SetRow(ss, LoadedRow(vs)))
  }

  lemma UpdatedIs(env: Env, ss: seq<Setting>, c: Condition, names: seq<string>, root: int, row: TableRow, vs: R.Row) returns (after: TableRow)
    requires Ordered(env) && Over(c, names) && SettingsOver(ss, names) && Settable(ss, c, vs)
    requires Records(env, row.data, vs) && |vs| == |names| && Defined(c, LoadedRow(vs))
    ensures D.UpdatedRow(env, UpdateOf(ss, c, names, root), row) == Some(after) && Rewrites(ss, c, vs, row, after)
  {
    hide Records, Ordered, Over, Meets, Defined, ConditionExpr, SettingsOver, SettingsDefined, SetRow, R.EncodedRecord, Passes;
    var q := UpdateOf(ss, c, names, root);
    ChosenIs(env, c, names, row.data, vs);
    after := row;
    if Chosen(c, vs) {
      AllFields(env, row.data, vs, |names|);
      assert LoadedRow(vs)[..|names|] == LoadedRow(vs);
      AssignedIs(env, q, ss, row.data, vs, |ss|);
      assert ss[..|ss|] == ss;
      var ms := SetRow(ss, LoadedRow(vs));
      StoredValues(ms);
      after := TableRow(row.key, R.EncodedRecord(StoredRow(ms)));
    }
  }

  lemma {:induction false} AllUpdated(env: Env, ss: seq<Setting>, c: Condition, names: seq<string>, root: int, table: seq<TableRow>, vals: seq<R.Row>)
      returns (rows: seq<TableRow>)
    requires Ordered(env) && Over(c, names) && SettingsOver(ss, names) && Contents(env, names, table, vals, c)
    requires forall i :: 0 <= i < |vals| ==> Settable(ss, c, vals[i])
    ensures D.UpdatedRows(env, UpdateOf(ss, c, names, root), table) == Some(rows) && |rows| == |table|
    ensures forall i :: 0 <= i < |table| ==> Rewrites(ss, c, vals[i], table[i], rows[i])
    decreases |table|
  {
    hide Records, Ordered, Over, Defined, SettingsOver, Settable, Rewrites, D.UpdatedRow;
    rows := [];
    if table != [] {
      var t, v := table[1..], vals[1..];
      forall i | 0 <= i < |t| ensures Records(env, t[i].data, v[i]) && |v[i]| == |names| && Defined(c, LoadedRow(v[i])) && Settable(ss, c, v[i]) {
        assert t[i] == table[i + 1] && v[i] == vals[i + 1];
      }
      var more := AllUpdated(env, ss, c, names, root, t, v);
      var first := UpdatedIs(env, ss, c, names, root, table[0], vals[0]);
      rows := [first] + more;
      forall i | 0 <= i < |table| ensures Rewrites(ss, c, vals[i], table[i], rows[i]) {
        if i > 0 {
          assert rows[i] == more[i - 1] && table[i] == t[i - 1] && vals[i] == v[i - 1];
        }
      }
    }
  }

  /**
    UPDATE table SET columns WHERE condition, compiled and run: each row for which the condition is true
    holds the old values with the new ones in their columns, each computed from the row as it was; every
    other row is unchanged, and all keep their place and key.
   */
  lemma UpdateWhere(env: Env, prog: seq<VdbeOp>, ss: seq<Setting>, c: Condition, names: seq<string>, root: int, u: D.UpdatePlan, vals: seq<R.Row>, m: Machine)
      returns (n: nat, rows: seq<TableRow>)
    requires DM.UpdateLoaded(prog, UpdateOf(ss, c, names, root), u)
    requires m.pc == u.base && u.c < |m.cursors| && D.RowidReg(u) + 2 <= |m.regs| && root in m.tables
    requires DM.KeysAscend(m.tables[root]) && D.Rewritten(env, UpdateOf(ss, c, names, root), m.tables[root]) <= RoomOf(m, root)
    requires Ordered(env) && Over(c, names) && SettingsOver(ss, names) && Contents(env, names, m.tables[root], vals, c)
    requires forall i :: 0 <= i < |vals| ==> Settable(ss, c, vals[i])
    ensures Run(env, prog, m, n).Done? && Run(env, prog, m, n).m.tables == m.tables[root := rows] && |rows| == |m.tables[root]|
    ensures forall i :: 0 <= i < |rows| ==> Rewrites(ss, c, vals[i], m.tables[root][i], rows[i])
  {
    hide Run, Ordered, Over, SettingsOver, Settable, Rewrites, DM.UpdateLoaded, DM.KeysAscend, D.Rewritten, D.UpdatedRows, Records, Defined;
    rows := AllUpdated(env, ss, c, names, root, m.tables[root], vals);
    n := DM.UpdateRuns(env, prog, UpdateOf(ss, c, names, root), u, m);
  }
}
