/** DELETE and UPDATE over a table that fits one leaf: their code and what they do to the rows. */
module DmlCode {
  import opened Bytes
  import opened Mem
  import opened Vdbe
  import opened Ast
  import opened ExprCode
  import opened WhereCode
  import opened Projection
  import opened SelectMeaning
  import opened GroupCode
  import opened GroupBlocks

  datatype DeleteQuery = DeleteQuery(filter: Option<Expr>, root: int, names: seq<string>)

  datatype Assignment = Assignment(column: string, value: Expr)

  datatype UpdateQuery = UpdateQuery(assignments: seq<Assignment>, filter: Option<Expr>, root: int, names: seq<string>)

  function TableScope(c: nat, names: seq<string>): Scope {
    Scope(Some(TableContext(c, names)), [])
  }

  function RowContext(names: seq<string>, data: Data): Context {
    Context(Some(names), Some(data), [])
  }

  // ---- Meaning ----

  /** The rows that do not match; None when some row cannot be decided. */
  function Unmatched(env: Env, q: DeleteQuery, rows: seq<TableRow>): Option<seq<TableRow>> {
    if rows == [] then Some([])
    else
      match Filtered(env, q.filter, RowContext(q.names, rows[0].data))
      case None => None
      case Some(b) => (
        match Unmatched(env, q, rows[1..])
        case None => None
        case Some(rest) => Some(if b then rest else [rows[0]] + rest))
  }

  /** The values of a row after the first k assignments; every right-hand side reads the row as it was. */
  function Assigned(env: Env, q: UpdateQuery, ctx: Context, vals: seq<Mem>, k: nat): (r: Option<seq<Mem>>)
    requires k <= |q.assignments| && |vals| == |q.names|
    ensures r.Some? ==> |r.value| == |vals|
  {
    if k == 0 then Some(vals)
    else
      match Assigned(env, q, ctx, vals, k - 1)
      case None => None
      case Some(vs) => (
        match (Position(q.names, q.assignments[k - 1].column), Eval(env, q.assignments[k - 1].value, ctx))
        case (Some(i), Some(v)) => if i < |vs| then Some(vs[i := v]) else None
        case _ => None)
  }

  /** The record of a matching row after the update. */
  function NewRecord(env: Env, q: UpdateQuery, data: Data): Option<Data> {
    match FieldsFrom(env, data, 0, |q.names|)
    case None => None
    case Some(vals) =>
      match Assigned(env, q, RowContext(q.names, data), vals, |q.assignments|)
      case None => None
      case Some(vs) => RecordOf(vs)
  }

  function UpdatedRow(env: Env, q: UpdateQuery, row: TableRow): Option<TableRow> {
    match Filtered(env, q.filter, RowContext(q.names, row.data))
    case None => None
    case Some(b) =>
      if !b then Some(row)
      else match NewRecord(env, q, row.data) case None => None case Some(data) => Some(TableRow(row.key, data))
  }

  /** Every row with its update; None when some row fails. */
  function UpdatedRows(env: Env, q: UpdateQuery, rows: seq<TableRow>): (r: Option<seq<TableRow>>)
    ensures r.Some? ==> |r.value| == |rows| && forall i :: 0 <= i < |rows| ==> UpdatedRow(env, q, rows[i]) == Some(r.value[i])
  {
    if rows == [] then Some([])
    else
      match UpdatedRow(env, q, rows[0])
      case None => None
      case Some(row) => (match UpdatedRows(env, q, rows[1..]) case None => None case Some(rest) => Some([row] + rest))
  }

  /** The bytes that the cells of the matching rows take once rewritten. */
  function Rewritten(env: Env, q: UpdateQuery, rows: seq<TableRow>): nat {
    if rows == [] then 0 else RewrittenSize(env, q, rows[0]) + Rewritten(env, q, rows[1..])
  }

  function RewrittenSize(env: Env, q: UpdateQuery, row: TableRow): nat {
    if Filtered(env, q.filter, RowContext(q.names, row.data)) != Some(true) then 0
    else match NewRecord(env, q, row.data) case None => 0 case Some(data) => RowSize(env, TableRow(row.key, data))
  }

  // ---- DELETE ----

  /** The filter of a DELETE at base + 2; its skips go past the deletion. */
  function DeleteFilter(q: DeleteQuery, c: nat, base: nat, reg: nat, t: nat): Option<Cond> {
    FilterOf(q.filter, TableScope(c, q.names), base + 2, reg, t)
  }

  /** The program around a filter of n instructions whose code is `filter`. */
  function DeleteOps(q: DeleteQuery, c: nat, base: nat, filter: seq<VdbeOp>): seq<VdbeOp> {
    var n, top := |filter|, base + 2;
    [Op(OpenWrite, c, q.root, 0), Op(Rewind, c, top + n + 4, 0)] + filter
    + [Op(Delete, c, 0, 0), VdbeOp(NextOp, c, top, 0, NoP4, 1), Op(Goto, 0, top + n + 4, 0), Op(NextOp, c, top, 0), Op(Close, c, 0, 0)]
  }

  // ---- UPDATE ----

  /** The first k assignments, into the block at dst. */
  function AssignsOf(q: UpdateQuery, k: nat, sc: Scope, base: nat, reg: nat, dst: nat): (c: Option<Cond>)
    requires k <= |q.assignments|
    ensures c.Some? ==> c.value.next >= reg
  {
    if k == 0 then Some(Cond([], reg))
    else
      match AssignsOf(q, k - 1, sc, base, reg, dst)
      case None => None
      case Some(p) => (
        match Position(q.names, q.assignments[k - 1].column)
        case None => None
        case Some(i) => (
          match ItemOf(Computed(q.assignments[k - 1].value), sc, base + |p.ops|, p.next, dst + i)
          case None => None
          case Some(c) => Some(Cond(p.ops + c.ops, c.next))))
  }

  datatype UpdatePlan = UpdatePlan(c: nat, base: nat, reg: nat, cond: Cond, assigns: Cond)

  function BlockAt(u: UpdatePlan): nat { u.cond.next }
  function ColumnsAt(u: UpdatePlan): nat { u.base + 2 + |u.cond.ops| }
  function TailAt(u: UpdatePlan, n: nat): nat { ColumnsAt(u) + n + |u.assigns.ops| }
  function SkipAt(u: UpdatePlan, n: nat): nat { TailAt(u, n) + 6 }
  function CloseAt(u: UpdatePlan, n: nat): nat { SkipAt(u, n) + 1 }
  function RowidReg(u: UpdatePlan): nat { u.assigns.next }

  function UpdateLayout(q: UpdateQuery, c: nat, base: nat, reg: nat): Option<UpdatePlan> {
    match FilterOf(q.filter, TableScope(c, q.names), base + 2, reg, 0)
    case None => None
    case Some(cond) => (
      match AssignsOf(q, |q.assignments|, TableScope(c, q.names), base + 2 + |cond.ops| + |q.names|, BlockEnd(cond.next, |q.names|), cond.next)
      case None => None
      case Some(assigns) => Some(UpdatePlan(c, base, reg, cond, assigns)))
  }

  function UpdateTail(q: UpdateQuery, u: UpdatePlan): seq<VdbeOp> {
    var n, rowid := |q.names|, RowidReg(u);
    [ Op(RowId, u.c, rowid, 0),
      Op(MakeRecord, BlockAt(u), n, rowid + 1),
      Op(Delete, u.c, 0, 0),
      Op(Insert, u.c, rowid + 1, rowid),
      Op(SeekGt, u.c, CloseAt(u, n), rowid),
      Op(Goto, 0, u.base + 2, 0),
      Op(NextOp, u.c, u.base + 2, 0),
      Op(Close, u.c, 0, 0)]
  }

  function UpdateFilter(q: UpdateQuery, u: UpdatePlan): seq<VdbeOp> {
    match FilterOf(q.filter, TableScope(u.c, q.names), u.base + 2, u.reg, SkipAt(u, |q.names|))
    case None => []
    case Some(cond) => cond.ops
  }

  function UpdateOps(q: UpdateQuery, u: UpdatePlan): seq<VdbeOp> {
    var n := |q.names|;
    [Op(OpenWrite, u.c, q.root, 0), Op(Rewind, u.c, CloseAt(u, n), 0)] + UpdateFilter(q, u)
    + FieldOps(u.c, 0, BlockAt(u), n) + u.assigns.ops + UpdateTail(q, u)
  }
}
