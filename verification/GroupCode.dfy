/** The program of a GROUP BY: a scan that fills a sorter, then a loop that compares neighbouring keys. */
module GroupCode {
  import opened Bytes
  import opened Mem
  import opened Vdbe
  import opened Ast
  import opened ExprCode
  import opened WhereCode
  import opened Projection
  import opened SelectCode
  import opened SelectMeaning

  datatype GroupQuery = GroupQuery(columns: seq<Expr>, groupBy: seq<Expr>, filter: Option<Expr>, root: int, names: seq<string>)

  // ---- Aggregates ----

  predicate IsAggregate(e: Expr) {
    e.Call? && (SameName(e.fname, "count") || SameName(e.fname, "sum") || SameName(e.fname, "avg") || SameName(e.fname, "min") || SameName(e.fname, "max"))
  }

  /** The aggregate calls in an expression, each once, after those already found. */
  function Extract(e: Expr, found: seq<Expr>): (r: seq<Expr>)
    ensures |r| >= |found| && (forall i :: 0 <= i < |found| ==> r[i] == found[i])
    ensures (forall i :: 0 <= i < |found| ==> IsAggregate(found[i])) ==> forall i :: 0 <= i < |r| ==> IsAggregate(r[i])
    decreases e
  {
    if IsAggregate(e) then if e in found then found else found + [e]
    else
      match e
      case Unary(_, x) => Extract(x, found)
      case Binary(_, x, y) => Extract(y, Extract(x, found))
      case NullTest(_, x) => Extract(x, found)
      case _ => found
  }

  function Aggregates(columns: seq<Expr>): (r: seq<Expr>)
    ensures forall i :: 0 <= i < |r| ==> IsAggregate(r[i])
  {
    if columns == [] then [] else Extract(columns[|columns| - 1], Aggregates(columns[..|columns| - 1]))
  }

  function ArgList(e: Expr): Exprs
    requires e.Call?
  {
    if HasList(e.kind) then e.list else Nil
  }

  function ArgCount(e: Expr): nat {
    if e.Call? then Count(ArgList(e)) else 0
  }

  function Append(a: Exprs, b: Exprs): (c: Exprs)
    ensures Count(c) == Count(a) + Count(b)
  {
    match a case Nil => b case Cons(x, rest) => Cons(x, Append(rest, b))
  }

  /** The arguments of the first k aggregates, in order. */
  function AllArgs(aggs: seq<Expr>, k: nat): (r: Exprs)
    requires k <= |aggs| && forall i :: 0 <= i < |aggs| ==> aggs[i].Call?
    ensures Count(r) == ArgOffset(aggs, k)
  {
    if k == 0 then Nil else Append(AllArgs(aggs, k - 1), ArgList(aggs[k - 1]))
  }

  function ArgOffset(aggs: seq<Expr>, k: nat): nat
    requires k <= |aggs|
  {
    if k == 0 then 0 else ArgOffset(aggs, k - 1) + ArgCount(aggs[k - 1])
  }

  function FromSeq(es: seq<Expr>): (r: Exprs)
    ensures Count(r) == |es|
  {
    if es == [] then Nil else Cons(es[0], FromSeq(es[1..]))
  }

  /** What one sorter record holds: the keys, then the arguments of every aggregate. */
  function FieldExprs(q: GroupQuery): (r: Exprs)
    ensures Count(r) == |q.groupBy| + ArgOffset(Aggregates(q.columns), |Aggregates(q.columns)|)
  {
    var aggs := Aggregates(q.columns);
    Append(FromSeq(q.groupBy), AllArgs(aggs, |aggs|))
  }

  // ---- Registers and addresses ----

  /** Expressions paired with consecutive registers. */
  function Pairs(es: seq<Expr>, reg: nat): (b: Bound)
    ensures |b| == |es| && forall i :: 0 <= i < |es| ==> b[i] == (es[i], reg + i)
  {
    seq(|es|, i requires 0 <= i < |es| => (es[i], reg + i))
  }

  function ItemsFor(columns: seq<Expr>): (r: seq<Item>)
    ensures |r| == |columns| && forall i :: 0 <= i < |r| ==> r[i] == Computed(columns[i])
  {
    seq(|columns|, i requires 0 <= i < |columns| => Computed(columns[i]))
  }

  /** Where everything is: cursor c, sorter c + 1, the pieces of code and the registers. */
  datatype GroupPlan = GroupPlan(
    c: nat, base: nat, reg: nat, aggs: seq<Expr>, keys: nat, args: nat,
    cond: Cond, list: ListCode,
    mid: Cond, last: Cond)

  function FieldCount(l: GroupPlan): nat { l.keys + l.args }
  function Start(l: GroupPlan): nat { l.list.next }
  function RecordReg(l: GroupPlan): nat { Start(l) + FieldCount(l) }
  function Dst(l: GroupPlan): nat { RecordReg(l) + 1 }
  function Flag(l: GroupPlan, n: nat): nat { BlockEnd(Dst(l), n) }
  function Prev(l: GroupPlan, n: nat): nat { Flag(l, n) + 1 }
  function Curr(l: GroupPlan, n: nat): nat { Prev(l, n) + l.keys }
  function ZeroReg(l: GroupPlan, n: nat): nat { Curr(l, n) + l.keys }

  function Top(l: GroupPlan): nat { l.base + 3 }
  function ListAt(l: GroupPlan): nat { Top(l) + |l.cond.ops| }
  function NextAt(l: GroupPlan): nat { ListAt(l) + |l.list.ops| + FieldCount(l) + 2 }
  function SortAt(l: GroupPlan): nat { NextAt(l) + 1 }
  function LoopAt(l: GroupPlan): nat { SortAt(l) + 2 }
  function ChangedAt(l: GroupPlan): nat { LoopAt(l) + 2 * l.keys + 3 }
  function MidAt(l: GroupPlan): nat { ChangedAt(l) + |l.aggs| }
  function NullsAt(l: GroupPlan): nat { MidAt(l) + |l.mid.ops| + 1 }
  function FirstAt(l: GroupPlan): nat { NullsAt(l) + |l.aggs| }
  function SameAt(l: GroupPlan): nat { FirstAt(l) + 1 + l.keys }
  function FeedLength(l: GroupPlan): nat { l.args + |l.aggs| }
  function EndAt(l: GroupPlan): nat { SameAt(l) + FeedLength(l) + 1 }
  function LastAt(l: GroupPlan): nat { EndAt(l) + |l.aggs| }

  function ScanScope(q: GroupQuery, l: GroupPlan): Scope {
    Scope(Some(TableContext(l.c, q.names)), Pairs(l.aggs, l.reg))
  }

  /** Result columns see the aggregates, and the group keys in the registers from `keyReg` on. */
  function RowScope(q: GroupQuery, l: GroupPlan, keyReg: nat): Scope {
    Scope(Some(TableContext(l.c, q.names)), Pairs(l.aggs, l.reg) + Pairs(q.groupBy, keyReg))
  }

  // ---- Pieces of code ----

  /** n fields of a sorter record, from `col` on, into the registers from dst on. */
  function FieldOps(s: nat, col: nat, dst: nat, n: nat): (ops: seq<VdbeOp>)
    ensures |ops| == n
  {
    if n == 0 then [] else FieldOps(s, col, dst, n - 1) + [Op(Opcode.Column, s, col + n - 1, dst + n - 1)]
  }

  /** Jump to t as soon as one current key differs from the previous one. */
  function DifferOps(curr: nat, prev: nat, n: nat, t: nat): (ops: seq<VdbeOp>)
    ensures |ops| == n
  {
    if n == 0 then [] else DifferOps(curr, prev, n - 1, t) + [Op(Jump(Ne), curr + n - 1, t, prev + n - 1)]
  }

  /** The current keys become the previous ones. */
  function KeyOps(curr: nat, prev: nat, n: nat): (ops: seq<VdbeOp>)
    ensures |ops| == n
  {
    if n == 0 then [] else KeyOps(curr, prev, n - 1) + [Op(Copy, curr + n - 1, prev + n - 1, 0)]
  }

  function AggOp(opcode: Opcode, e: Expr, p1: int, p2: int, p3: int): VdbeOp {
    VdbeOp(opcode, p1, p2, p3, P4Text(if e.Call? then e.fname else "", []), 0)
  }

  function FinalOps(aggs: seq<Expr>, reg: nat, k: nat): (ops: seq<VdbeOp>)
    requires k <= |aggs|
    ensures |ops| == k
  {
    if k == 0 then [] else FinalOps(aggs, reg, k - 1) + [AggOp(AggFinal, aggs[k - 1], reg + k - 1, 0, 0)]
  }

  function NullOps(reg: nat, k: nat): (ops: seq<VdbeOp>)
    ensures |ops| == k
  {
    if k == 0 then [] else NullOps(reg, k - 1) + [Op(NullOp, 0, reg + k - 1, 0)]
  }

  /** Registers after the argument blocks of the first k aggregates. */
  function BlocksEnd(aggs: seq<Expr>, from: nat, k: nat): (r: nat)
    requires k <= |aggs|
    ensures r == from + ArgOffset(aggs, k)
  {
    if k == 0 then from else BlocksEnd(aggs, from, k - 1) + ArgCount(aggs[k - 1])
  }

  /** Load the arguments of the first k aggregates from the sorter record, and step each. */
  function FeedOps(s: nat, keys: nat, aggs: seq<Expr>, reg: nat, from: nat, k: nat): (ops: seq<VdbeOp>)
    requires k <= |aggs|
    ensures |ops| == ArgOffset(aggs, k) + k
  {
    if k == 0 then []
    else
      var n := ArgCount(aggs[k - 1]);
      var block := BlocksEnd(aggs, from, k - 1);
      FeedOps(s, keys, aggs, reg, from, k - 1)
      + FieldOps(s, keys + ArgOffset(aggs, k - 1), block, n)
      + [AggOp(AggStep, aggs[k - 1], n, if n > 0 then block else 0, reg + k - 1)]
  }

  /** The filter with its skip jumps patched. */
  function PatchedFilter(q: GroupQuery, l: GroupPlan): seq<VdbeOp> {
    match FilterOf(q.filter, ScanScope(q, l), Top(l), l.reg + |l.aggs|, NextAt(l))
    case None => []
    case Some(cond) => cond.ops
  }

  function ScanOps(q: GroupQuery, l: GroupPlan): seq<VdbeOp> {
    [Op(SorterOpen, l.c + 1, 0, 0), Op(OpenRead, l.c, q.root, 0), Op(Rewind, l.c, SortAt(l), 0)]
    + PatchedFilter(q, l) + l.list.ops + CopyOps(l.list.results, Start(l))
    + [Op(MakeRecord, Start(l), FieldCount(l), RecordReg(l)), Op(SorterInsert, l.c + 1, RecordReg(l), 0), Op(NextOp, l.c, Top(l), 0)]
  }

  /** The head of the group loop, for given jump targets. */
  function HeadOps(s: nat, keys: nat, flag: nat, prev: nat, end: nat, first: nat, changed: nat, same: nat): (ops: seq<VdbeOp>)
    ensures |ops| == 2 * keys + 5
  {
    var curr, zero := prev + keys, prev + 2 * keys;
    [Op(SorterSort, s, end, 0), Op(Integer, 1, flag, 0)]
    + FieldOps(s, 0, curr, keys)
    + [Op(Integer, 0, zero, 0), Op(Jump(Ne), flag, first, zero)]
    + DifferOps(curr, prev, keys, changed) + [Op(Goto, 0, same, 0)]
  }

  function LoopOps(q: GroupQuery, l: GroupPlan): seq<VdbeOp> {
    var n := |q.columns|;
    HeadOps(l.c + 1, l.keys, Flag(l, n), Prev(l, n), EndAt(l), FirstAt(l), ChangedAt(l), SameAt(l))
  }

  function FlushOps(q: GroupQuery, l: GroupPlan): seq<VdbeOp> {
    FinalOps(l.aggs, l.reg, |l.aggs|) + l.mid.ops + [Op(ResultRow, Dst(l), |q.columns|, 0)] + NullOps(l.reg, |l.aggs|)
  }

  function RestOps(q: GroupQuery, l: GroupPlan): seq<VdbeOp> {
    var n := |q.columns|;
    [Op(Integer, 0, Flag(l, n), 0)] + KeyOps(Curr(l, n), Prev(l, n), l.keys)
    + FeedOps(l.c + 1, l.keys, l.aggs, l.reg, l.mid.next, |l.aggs|) + [Op(SorterNext, l.c + 1, LoopAt(l), 0)]
  }

  function LastOps(q: GroupQuery, l: GroupPlan): seq<VdbeOp> {
    FinalOps(l.aggs, l.reg, |l.aggs|) + l.last.ops + [Op(ResultRow, Dst(l), |q.columns|, 0)]
  }

  /** The whole program, without the final Halt. */
  function GroupOps(q: GroupQuery, l: GroupPlan): seq<VdbeOp> {
    ScanOps(q, l) + LoopOps(q, l) + FlushOps(q, l) + RestOps(q, l) + LastOps(q, l)
  }

  /** The layout up to the end of the scan. */
  function ScanPlan(q: GroupQuery, c: nat, base: nat, reg: nat): Option<GroupPlan> {
    var aggs := Aggregates(q.columns);
    var scan := Scope(Some(TableContext(c, q.names)), Pairs(aggs, reg));
    match FilterOf(q.filter, scan, base + 3, reg + |aggs|, 0)
    case None => None
    case Some(cond) => (
      match ListCodeOf(FieldExprs(q), scan, base + 3 + |cond.ops|, cond.next)
      case None => None
      case Some(list) => Some(GroupPlan(c, base, reg, aggs, |q.groupBy|, ArgOffset(aggs, |aggs|), cond, list, Cond([], 0), Cond([], 0))))
  }

  /** The layout that compiling arrives at; None when a piece is rejected. */
  function GroupLayout(q: GroupQuery, c: nat, base: nat, reg: nat): Option<GroupPlan> {
    match ScanPlan(q, c, base, reg)
    case None => None
    case Some(l) =>
      var n := |q.columns|;
      match ItemsOf(ItemsFor(q.columns), n, RowScope(q, l, Prev(l, n)), MidAt(l), ZeroReg(l, n) + 1, Dst(l))
      case None => None
      case Some(mid) =>
        var l1 := l.(mid := mid);
        match ItemsOf(ItemsFor(q.columns), n, RowScope(q, l1, Curr(l1, n)), LastAt(l1), mid.next + l.args, Dst(l1))
        case None => None
        case Some(last) => Some(l1.(last := last))
  }

  // ---- Patching the loop head ----

  lemma {:induction false} DifferAt(curr: nat, prev: nat, n: nat, t: nat, i: nat)
    requires i < n
    ensures DifferOps(curr, prev, n, t)[i] == Op(Jump(Ne), curr + i, t, prev + i)
  {
    if i < n - 1 {
      DifferAt(curr, prev, n - 1, t, i);
    }
  }

  /** The four kinds of targets sit at known places. */
  lemma HeadTargets(s: nat, keys: nat, flag: nat, prev: nat, end: nat, first: nat, changed: nat, same: nat, end': nat, first': nat, changed': nat, same': nat, i: nat)
    requires i < 2 * keys + 5
    ensures
      var a, b := HeadOps(s, keys, flag, prev, end, first, changed, same), HeadOps(s, keys, flag, prev, end', first', changed', same');
      && |a| == |b| == 2 * keys + 5
      && b[i] == (if i == 0 then a[i].(p2 := end') else if i == keys + 3 then a[i].(p2 := first')
                  else if keys + 4 <= i < 2 * keys + 4 then a[i].(p2 := changed') else if i == 2 * keys + 4 then a[i].(p2 := same') else a[i])
  {
    if keys + 4 <= i < 2 * keys + 4 {
      DifferAt(prev + keys, prev, keys, changed, i - keys - 4);
      DifferAt(prev + keys, prev, keys, changed', i - keys - 4);
    }
  }
}
