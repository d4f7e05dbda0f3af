/** The compiler: it emits instructions one by one, allocates registers, and patches jump targets afterwards. */
module Codegen {
  import opened Bytes
  import opened Mem
  import opened Vdbe
  import opened Ast
  import opened ExprCode
  import opened ExprMeaning
  import opened WhereCode
  import opened Projection
  import opened SelectCode
  import opened SelectMeaning
  import opened GroupCode
  import opened GroupMeaning
  import opened DmlCode

  class Compiler {
    var ops: seq<VdbeOp>
    var nRegs: nat
    var nCursors: nat
    var aggRegs: Bound

    constructor ()
      ensures ops == [] && nRegs == 0 && nCursors == 0 && aggRegs == []
    {
      ops, nRegs, nCursors, aggRegs := [], 0, 0, [];
    }

    method AllocReg() returns (r: nat)
      modifies this`nRegs
      ensures r == old(nRegs) && nRegs == r + 1
    {
      r := nRegs;
      nRegs := nRegs + 1;
    }

    /** n consecutive registers, but at least one. */
    method AllocBlock(n: nat) returns (start: nat)
      modifies this`nRegs
      ensures start == old(nRegs) && nRegs == BlockEnd(start, n)
    {
      start := AllocReg();
      var i := 1;
      while i < n
        invariant nRegs == if n <= 1 then start + 1 else start + i
        invariant n > 1 ==> i <= n
      {
        var _ := AllocReg();
        i := i + 1;
      }
    }

    method Emit(op: VdbeOp) returns (addr: nat)
      modifies this`ops
      ensures addr == |old(ops)| && ops == old(ops) + [op]
    {
      addr := |ops|;
      ops := ops + [op];
    }

    method SetTarget(addr: nat, t: nat)
      requires addr < |ops|
      modifies this`ops
      ensures ops == old(ops)[addr := old(ops)[addr].(p2 := t)]
    {
      ops := ops[addr := ops[addr].(p2 := t)];
    }

    // ---- Expressions ----

    method FindReg(e: Expr) returns (r: Option<nat>)
      ensures r == Find(aggRegs, e)
    {
      var i := 0;
      while i < |aggRegs|
        invariant i <= |aggRegs| && Find(aggRegs, e) == Find(aggRegs[i..], e)
      {
        if aggRegs[i].0 == e {
          return Some(aggRegs[i].1);
        }
        i := i + 1;
      }
      r := None;
    }

    /** What compiling did: nothing promised on failure, else exactly the code c is new. */
    static ghost predicate Emitted(before: seq<VdbeOp>, after: seq<VdbeOp>, next: nat, c: Option<Code>, r: Option<nat>) {
      && r.Some? == c.Some?
      && (c.Some? ==> after == before + c.value.ops && next == c.value.next && r.value == c.value.result)
    }

    method CompileLiteral(l: Literal) returns (r: Option<nat>)
      modifies this`ops, this`nRegs
      ensures Emitted(old(ops), ops, nRegs, LiteralCode(l, old(nRegs)), r)
    {
      var reg := AllocReg();
      r := Some(reg);
      match l {
        case Number(i) => var _ := Emit(Op(Integer, Cut(i), reg, 0));
        case Float(f) => var _ := Emit(VdbeOp(RealOp, 0, reg, 0, P4Real(f), 0));
        case Str(text, bytes) => var _ := Emit(VdbeOp(String8, 0, reg, 0, P4Text(text, bytes), 0));
        case True => var _ := Emit(Op(Integer, 1, reg, 0));
        case False => var _ := Emit(Op(Integer, 0, reg, 0));
        case NullLiteral => var _ := Emit(Op(NullOp, 0, reg, 0));
        case CurrentDate => EmitNow("date", reg);
        case CurrentTime => EmitNow("time", reg);
        case CurrentTimestamp => EmitNow("datetime", reg);
        case OtherLiteral => r := None;
      }
    }

    method EmitNow(name: string, reg: nat)
      modifies this`ops, this`nRegs
      ensures nRegs == old(nRegs) + 1
      ensures old(nRegs) == reg + 1 ==> ops == old(ops) + NowCode(name, reg)
    {
      var arg := AllocReg();
      var _ := Emit(VdbeOp(String8, 0, arg, 0, P4Text("now", [110, 111, 119]), 0));
      var _ := Emit(VdbeOp(Function, 1, arg, reg, P4Text(name, []), 0));
    }

    /** Emit the comparison with its jumps open, then patch them. */
    method EmitComparison(c: Comparison, l: nat, r: nat, res: nat)
      modifies this`ops
      ensures ops == old(ops) + CompareOps(c, l, r, res, |old(ops)|)
    {
      var _ := Emit(Op(Integer, 0, res, 0));
      var jump := Emit(Op(Jump(c), r, 0, l));
      var end := Emit(Op(Goto, 0, 0, 0));
      var yes := Emit(Op(Integer, 1, res, 0));
      var post := |ops|;
      SetTarget(jump, yes);
      SetTarget(end, post);
    }

    method EmitNot(x: nat) returns (res: nat)
      modifies this`ops, this`nRegs
      ensures res == old(nRegs) && nRegs == res + 2
      ensures ops == old(ops) + NotOps(x, res, |old(ops)|)
    {
      res := AllocReg();
      var nullJump := Emit(Op(IsNull, x, 0, 0));
      var _ := Emit(Op(Integer, 0, res, 0));
      var zero := AllocReg();
      var _ := Emit(Op(Integer, 0, zero, 0));
      var jump := Emit(Op(Jump(Eq), zero, 0, x));
      var end := Emit(Op(Goto, 0, 0, 0));
      var yes := Emit(Op(Integer, 1, res, 0));
      var end2 := Emit(Op(Goto, 0, 0, 0));
      var isNull := Emit(Op(NullOp, 0, res, 0));
      var post := |ops|;
      SetTarget(nullJump, isNull);
      SetTarget(jump, yes);
      SetTarget(end, post);
      SetTarget(end2, post);
    }

    method EmitCopies(results: seq<nat>, start: nat)
      modifies this`ops
      ensures ops == old(ops) + CopyOps(results, start)
    {
      var i := 0;
      while i < |results|
        invariant i <= |results| && ops == old(ops) + CopyOps(results[..i], start)
      {
        assert results[..i + 1][..i] == results[..i];
        var _ := Emit(Op(Copy, results[i], start + i, 0));
        i := i + 1;
      }
      assert results[..i] == results;
    }

    method CompileExpr(e: Expr, table: Option<TableContext>) returns (r: Option<nat>)
      modifies this`ops, this`nRegs
      ensures Emitted(old(ops), ops, nRegs, CodeOf(e, Scope(table, aggRegs), |old(ops)|, old(nRegs)), r)
      decreases e
    {
      hide CompareOps, NotOps, LiteralCode, Position;
      r := FindReg(e);
      if r.Some? {
        return;
      }
      match e {
        case Literal(l) =>
          r := CompileLiteral(l);
        case Column(name) =>
          if table == None {
            return None;
          }
          var i := Position(table.value.columns, name);
          if i == None {
            return None;
          }
          var reg := AllocReg();
          var _ := Emit(Op(Opcode.Column, table.value.cursor, i.value, reg));
          r := Some(reg);
        case Unary(Plus, x) =>
          r := CompileExpr(x, table);
        case Unary(Minus, x) =>
          r := CompileExpr(x, table);
          if r.Some? {
            var inner := r.value;
            var reg := AllocReg();
            var _ := Emit(Op(Integer, 0, reg, 0));
            var _ := Emit(Op(Calc(Sub), inner, reg, reg));
            r := Some(reg);
          }
        case Unary(Not, x) =>
          r := CompileExpr(x, table);
          if r.Some? {
            var res := EmitNot(r.value);
            r := Some(res);
          }
        case Binary(op, x, y) =>
          r := CompileBinary(op, x, y, table);
        case Call(name, kind, list) =>
          r := CompileCall(name, kind, list, table);
        case _ =>
          r := None;
      }
    }

    method CompileBinary(op: BinaryOp, x: Expr, y: Expr, table: Option<TableContext>) returns (r: Option<nat>)
      modifies this`ops, this`nRegs
      ensures
        var sc := Scope(table, aggRegs);
        Emitted(old(ops), ops, nRegs, match CodeOf(x, sc, |old(ops)|, old(nRegs)) case None => None case Some(l) => (
          match CodeOf(y, sc, |old(ops)| + |l.ops|, l.next) case None => None case Some(c) => BinaryCode(op, l, c, |old(ops)|)), r)
      decreases Binary(op, x, y), 0
    {
      hide CompareOps, CodeOf;
      var left := CompileExpr(x, table);
      if left == None {
        return None;
      }
      var right := CompileExpr(y, table);
      if right == None {
        return None;
      }
      var res := AllocReg();
      match op {
        case Arith(a) =>
          var _ := Emit(Op(Calc(a), right.value, left.value, res));
          r := Some(res);
        case Compare(c) =>
          EmitComparison(c, left.value, right.value, res);
          r := Some(res);
        case _ =>
          r := None;
      }
    }

    method CompileCall(name: string, kind: ArgKind, list: Exprs, table: Option<TableContext>) returns (r: Option<nat>)
      modifies this`ops, this`nRegs
      ensures
        var sc := Scope(table, aggRegs);
        Emitted(old(ops), ops, nRegs, if HasList(kind) then (match ListCodeOf(list, sc, |old(ops)|, old(nRegs)) case None => None case Some(args) => Some(CallCode(name, args)))
                else Some(CallCode(name, ListCode([], [], old(nRegs)))), r)
      decreases Call(name, kind, list), 0
    {
      hide CodeOf, ListCodeOf, CopyOps;
      var results: seq<nat> := [];
      if HasList(kind) {
        var regs := CompileList(list, table);
        if regs == None {
          return None;
        }
        results := regs.value;
      }
      ghost var args := ops;
      var start := 0;
      if |results| > 0 {
        start := AllocBlock(|results|);
        EmitCopies(results, start);
      } else {
        NoCopies(nRegs);
      }
      var dest := AllocReg();
      var _ := Emit(VdbeOp(Function, |results|, start, dest, P4Text(name, []), 0));
      r := Some(dest);
    }

    static lemma NoCopies(start: nat)
      ensures CopyOps([], start) == []
    {
    }

    method CompileList(es: Exprs, table: Option<TableContext>) returns (r: Option<seq<nat>>)
      modifies this`ops, this`nRegs
      ensures
        var c := ListCodeOf(es, Scope(table, aggRegs), |old(ops)|, old(nRegs));
        && r.Some? == c.Some?
        && (c.Some? ==> ops == old(ops) + c.value.ops && nRegs == c.value.next && r.value == c.value.results)
      decreases es, 1
    {
      hide CodeOf, ListCodeOf;
      ghost var sc := Scope(table, aggRegs);
      match es {
        case Nil =>
          ListEmpty(sc, |ops|, nRegs);
          r := Some([]);
        case Cons(x, rest) =>
          ListStep(x, rest, sc, |ops|, nRegs);
          var first := CompileExpr(x, table);
          if first == None {
            return None;
          }
          var others := CompileList(rest, table);
          if others == None {
            return None;
          }
          r := Some([first.value] + others.value);
      }
    }

    static lemma ListEmpty(sc: Scope, base: nat, reg: nat)
      ensures ListCodeOf(Nil, sc, base, reg) == Some(ListCode([], [], reg))
    {
    }

    static lemma ListStep(x: Expr, rest: Exprs, sc: Scope, base: nat, reg: nat)
      ensures
        ListCodeOf(Cons(x, rest), sc, base, reg) == match CodeOf(x, sc, base, reg) case None => None case Some(c) => (
          match ListCodeOf(rest, sc, base + |c.ops|, c.next) case None => None case Some(cs) => Some(ListCode(c.ops + cs.ops, [c.result] + cs.results, cs.next)))
    {
      hide CodeOf;
    }

    // ---- WHERE ----

    /** The clause c has been emitted with its skip jumps, at the addresses in `skips`, open. */
    static ghost predicate Guarded(before: seq<VdbeOp>, after: seq<VdbeOp>, next: nat, e: Expr, sc: Scope, reg: nat, skips: Option<seq<nat>>) {
      var c := WhereOf(e, sc, |before|, reg, 0);
      && skips.Some? == c.Some?
      && (c.Some? ==> after == before + c.value.ops && next == c.value.next && skips.value == Skips(e, sc, |before|, reg))
    }

    method CompileWhere(e: Expr, table: Option<TableContext>) returns (skips: Option<seq<nat>>)
      modifies this`ops, this`nRegs
      ensures Guarded(old(ops), ops, nRegs, e, Scope(table, aggRegs), old(nRegs), skips)
      decreases e, 1
    {
      hide CodeOf, OrOps;
      if e.Binary? && e.bop == And {
        skips := CompileAnd(e.left, e.right, table);
      } else if e.Binary? && e.bop == Or {
        skips := CompileOr(e.left, e.right, table);
      } else {
        var x := if e.NullTest? then e.tested else e;
        var r := CompileExpr(x, table);
        if r == None {
          return None;
        }
        var at := Emit(Op(if e.NullTest? then (if e.not then IsNull else NotNull) else IfNot, r.value, 0, 0));
        skips := Some([at]);
      }
    }

    /** Both sides in turn; every skip of either side stays open. */
    method CompileAnd(x: Expr, y: Expr, table: Option<TableContext>) returns (skips: Option<seq<nat>>)
      modifies this`ops, this`nRegs
      ensures Guarded(old(ops), ops, nRegs, Binary(And, x, y), Scope(table, aggRegs), old(nRegs), skips)
      decreases Binary(And, x, y), 0
    {
      hide WhereOf, Skips, Guarded;
      ghost var sc := Scope(table, aggRegs);
      ghost var before, reg := ops, nRegs;
      var left := CompileWhere(x, table);
      ghost var mid, midReg := ops, nRegs;
      if left == None {
        GuardedAnd(before, mid, ops, midReg, nRegs, x, y, sc, reg, None, None);
        return None;
      }
      var right := CompileWhere(y, table);
      GuardedAnd(before, mid, ops, midReg, nRegs, x, y, sc, reg, left, right);
      if right == None {
        return None;
      }
      skips := Some(left.value + right.value);
    }

    static lemma GuardedAnd(before: seq<VdbeOp>, mid: seq<VdbeOp>, after: seq<VdbeOp>, midReg: nat, next: nat, x: Expr, y: Expr, sc: Scope, reg: nat, left: Option<seq<nat>>, right: Option<seq<nat>>)
      requires Guarded(before, mid, midReg, x, sc, reg, left)
      requires left.Some? ==> Guarded(mid, after, next, y, sc, midReg, right)
      ensures Guarded(before, after, next, Binary(And, x, y), sc, reg, if left.Some? && right.Some? then Some(left.value + right.value) else None)
    {
      hide WhereOf, Skips;
      WhereAnd(x, y, sc, |before|, reg);
      var l := WhereOf(x, sc, |before|, reg, 0);
      if l.Some? && WhereOf(y, sc, |before| + |l.value.ops|, l.value.next, 0).Some? {
        SkipsAnd(x, y, sc, |before|, reg, l.value);
      }
    }

    method CompileOr(x: Expr, y: Expr, table: Option<TableContext>) returns (skips: Option<seq<nat>>)
      modifies this`ops, this`nRegs
      ensures Guarded(old(ops), ops, nRegs, Binary(Or, x, y), Scope(table, aggRegs), old(nRegs), skips)
      decreases Binary(Or, x, y), 0
    {
      hide CodeOf, OrOps;
      var left := CompileExpr(x, table);
      if left == None {
        return None;
      }
      var right := CompileExpr(y, table);
      if right == None {
        return None;
      }
      var last := EmitOr(left.value, right.value);
      skips := Some([last]);
    }

    method EmitOr(l: nat, r: nat) returns (last: nat)
      modifies this`ops, this`nRegs
      ensures nRegs == old(nRegs) + 1 && last == |old(ops)| + 3
      ensures ops == old(ops) + OrOps(l, r, old(nRegs), |old(ops)|, 0)
    {
      var res := AllocReg();
      var _ := Emit(Op(Copy, l, res, 0));
      var skipRight := Emit(Op(If, res, 0, 0));
      var _ := Emit(Op(Copy, r, res, 0));
      var after := |ops|;
      SetTarget(skipRight, after);
      last := Emit(Op(IfNot, res, 0, 0));
    }

    method PatchAll(at: seq<nat>, t: nat)
      modifies this`ops
      ensures ops == Patch(old(ops), at, t)
    {
      var i := 0;
      while i < |at|
        invariant i <= |at| && ops == Patch(old(ops), at[..i], t)
      {
        assert at[..i + 1][..i] == at[..i];
        if at[i] < |ops| {
          SetTarget(at[i], t);
        }
        i := i + 1;
      }
      assert at[..i] == at;
    }

    // ---- SELECT ----

    /** Emit the output columns into the block at dst. */
    method CompileItems(items: seq<Item>, table: TableContext, dst: nat) returns (ok: bool)
      modifies this`ops, this`nRegs
      ensures
        var c := ItemsOf(items, |items|, Scope(Some(table), aggRegs), |old(ops)|, old(nRegs), dst);
        && ok == c.Some?
        && (ok ==> ops == old(ops) + c.value.ops && nRegs == c.value.next)
    {
      hide CodeOf;
      ghost var sc := Scope(Some(table), aggRegs);
      var i := 0;
      while i < |items|
        invariant i <= |items| && ItemsOf(items, i, sc, |old(ops)|, old(nRegs), dst).Some?
        invariant
          var c := ItemsOf(items, i, sc, |old(ops)|, old(nRegs), dst).value;
          ops == old(ops) + c.ops && nRegs == c.next
      {
        match items[i] {
          case Direct(col) =>
            var _ := Emit(Op(Opcode.Column, table.cursor, col, dst + i));
          case Computed(e) =>
            var r := CompileExpr(e, Some(table));
            if r == None {
              RejectedItems(items, i + 1, |items|, sc, |old(ops)|, old(nRegs), dst);
              return false;
            }
            var _ := Emit(Op(Copy, r.value, dst + i, 0));
        }
        i := i + 1;
      }
      ok := true;
    }

    static lemma {:induction false} RejectedItems(items: seq<Item>, k: nat, n: nat, sc: Scope, base: nat, reg: nat, dst: nat)
      requires k <= n <= |items| && ItemsOf(items, k, sc, base, reg, dst) == None
      ensures ItemsOf(items, n, sc, base, reg, dst) == None
      decreases n
    {
      if k < n {
        RejectedItems(items, k, n - 1, sc, base, reg, dst);
      }
    }

    method CompileFilter(filter: Option<Expr>, table: TableContext) returns (skips: Option<seq<nat>>)
      modifies this`ops, this`nRegs
      ensures
        var c := FilterOf(filter, Scope(Some(table), aggRegs), |old(ops)|, old(nRegs), 0);
        && skips.Some? == c.Some?
        && (c.Some? ==> ops == old(ops) + c.value.ops && nRegs == c.value.next
                        && skips.value == FilterSkips(filter, Scope(Some(table), aggRegs), |old(ops)|, old(nRegs)))
    {
      match filter {
        case None => skips := Some([]);
        case Some(e) => skips := CompileWhere(e, Some(table));
      }
    }

    static ghost function FilterSkips(filter: Option<Expr>, sc: Scope, base: nat, reg: nat): seq<nat>
      requires FilterOf(filter, sc, base, reg, 0).Some?
    {
      match filter case None => [] case Some(e) => Skips(e, sc, base, reg)
    }

    static lemma PatchFilter(pre: seq<VdbeOp>, filter: Option<Expr>, sc: Scope, reg: nat, t: nat, post: seq<VdbeOp>)
      requires FilterOf(filter, sc, |pre|, reg, 0).Some?
      ensures FilterOf(filter, sc, |pre|, reg, t).Some?
      ensures
        Patch(pre + FilterOf(filter, sc, |pre|, reg, 0).value.ops + post, FilterSkips(filter, sc, |pre|, reg), t)
        == pre + FilterOf(filter, sc, |pre|, reg, t).value.ops + post
    {
      hide WhereOf, Skips;
      if filter.Some? {
        PatchSkips(pre, filter.value, sc, reg, t, post);
      }
    }

    /** A table scan: the jump of Rewind and the skip jumps of the filter are patched once their targets are known. */
    method CompileSelect(q: Query) returns (ok: bool)
      requires aggRegs == []
      modifies this`ops, this`nRegs, this`nCursors
      ensures
        var l := LayoutOf(q, old(nCursors), |old(ops)|, old(nRegs));
        && ok == l.Some?
        && (ok ==> ops == old(ops) + SelectOps(q, l.value) && nRegs == l.value.cond.next && nCursors == old(nCursors) + 1)
    {
      hide FilterOf, FilterSkips, ItemsOf, Items, SelectOps;
      var table := TableContext(nCursors, q.names);
      ghost var base, reg := |ops|, nRegs;
      nCursors := nCursors + 1;
      var items := Items(q);
      if items == None {
        return false;
      }
      var dst := AllocBlock(|items.value|);
      var _ := Emit(Op(OpenRead, table.cursor, q.root, 0));
      var rewind := Emit(Op(Rewind, table.cursor, 0, 0));
      var top := |ops|;
      ok := CompileItems(items.value, table, dst);
      if !ok {
        return;
      }
      var skips := CompileFilter(q.filter, table);
      if skips == None {
        return false;
      }
      ghost var l := LayoutOf(q, table.cursor, base, reg).value;
      assert ops == old(ops) + [Op(OpenRead, l.c, q.root, 0), Op(Rewind, l.c, 0, 0)] + l.cols.ops + l.cond.ops;
      CloseSelect(q, |items.value|, table.cursor, dst, rewind, top, skips.value, l, old(ops));
    }

    /** Emit the row and the end of the scan, and patch the open jumps. */
    method CloseSelect(q: Query, n: nat, cursor: nat, dst: nat, rewind: nat, top: nat, skips: seq<nat>, ghost l: Layout, ghost before: seq<VdbeOp>)
      requires LayoutOf(q, l.c, l.base, l.dst) == Some(l) && |before| == l.base
      requires ops == before + [Op(OpenRead, l.c, q.root, 0), Op(Rewind, l.c, 0, 0)] + l.cols.ops + l.cond.ops
      requires n == |l.items| && cursor == l.c && dst == l.dst && rewind == l.base + 1 && top == l.base + 2
      requires FilterOf(q.filter, SelectScope(q, l.c), l.base + 2 + |l.cols.ops|, l.cols.next, 0).Some?
      requires skips == FilterSkips(q.filter, SelectScope(q, l.c), l.base + 2 + |l.cols.ops|, l.cols.next)
      modifies this`ops
      ensures ops == before + SelectOps(q, l)
    {
      hide FilterOf, FilterSkips, ItemsOf, Items, SelectOps, Patch, LayoutOf, SelectMeaning.Patched;
      var _ := Emit(Op(ResultRow, dst, n, 0));
      var next := |ops|;
      PatchAll(skips, next);
      SelectPatched(q, l, before);
      var _ := Emit(Op(NextOp, cursor, top, 0));
      var end := |ops|;
      SelectLength(q, l);
      SetTarget(rewind, end);
      var _ := Emit(Op(Close, cursor, 0, 0));
      SelectJoin(q, l, before);
    }

    static lemma SelectLength(q: Query, l: Layout)
      requires LayoutOf(q, l.c, l.base, l.dst) == Some(l)
      ensures |SelectMeaning.Patched(q, l)| == |l.cond.ops|
    {
      PatchedLength(q, l.c, l.base, l.dst);
    }

    static lemma SelectPatched(q: Query, l: Layout, before: seq<VdbeOp>)
      requires LayoutOf(q, l.c, l.base, l.dst) == Some(l) && |before| == l.base
      ensures
        var open2, result := [Op(OpenRead, l.c, q.root, 0), Op(Rewind, l.c, 0, 0)], [Op(ResultRow, l.dst, |l.items|, 0)];
        Patch(before + open2 + l.cols.ops + l.cond.ops + result, FilterSkips(q.filter, SelectScope(q, l.c), l.base + 2 + |l.cols.ops|, l.cols.next), NextLabel(l))
        == before + open2 + l.cols.ops + SelectMeaning.Patched(q, l) + result
    {
      hide WhereOf, Skips, ItemsOf, Items, Patch;
      var open2, result := [Op(OpenRead, l.c, q.root, 0), Op(Rewind, l.c, 0, 0)], [Op(ResultRow, l.dst, |l.items|, 0)];
      PatchFilter(before + open2 + l.cols.ops, q.filter, SelectScope(q, l.c), l.cols.next, NextLabel(l), result);
      PatchedLength(q, l.c, l.base, l.dst);
    }

    static lemma SelectJoin(q: Query, l: Layout, before: seq<VdbeOp>)
      requires |before| == l.base
      ensures
        var open2, result := [Op(OpenRead, l.c, q.root, 0), Op(Rewind, l.c, 0, 0)], [Op(ResultRow, l.dst, |l.items|, 0)];
        var ops := before + open2 + l.cols.ops + SelectMeaning.Patched(q, l) + result + [Op(NextOp, l.c, l.base + 2, 0)];
        ops[l.base + 1 := ops[l.base + 1].(p2 := NextLabel(l) + 1)] + [Op(Close, l.c, 0, 0)] == before + SelectOps(q, l)
    {
      hide SelectMeaning.Patched;
    }

    // ---- GROUP BY ----

    method EmitFields(s: nat, col: nat, dst: nat, n: nat)
      modifies this`ops
      ensures ops == old(ops) + FieldOps(s, col, dst, n)
    {
      var i := 0;
      while i < n
        invariant i <= n && ops == old(ops) + FieldOps(s, col, dst, i)
      {
        var _ := Emit(Op(Opcode.Column, s, col + i, dst + i));
        i := i + 1;
      }
    }

    method EmitFinals(aggs: seq<Expr>, reg: nat)
      modifies this`ops
      ensures ops == old(ops) + FinalOps(aggs, reg, |aggs|)
    {
      var i := 0;
      while i < |aggs|
        invariant i <= |aggs| && ops == old(ops) + FinalOps(aggs, reg, i)
      {
        var _ := Emit(AggOp(AggFinal, aggs[i], reg + i, 0, 0));
        i := i + 1;
      }
    }

    method EmitNulls(reg: nat, n: nat)
      modifies this`ops
      ensures ops == old(ops) + NullOps(reg, n)
    {
      var i := 0;
      while i < n
        invariant i <= n && ops == old(ops) + NullOps(reg, i)
      {
        var _ := Emit(Op(NullOp, 0, reg + i, 0));
        i := i + 1;
      }
    }

    method EmitKeyCopies(curr: nat, prev: nat, n: nat)
      modifies this`ops
      ensures ops == old(ops) + KeyOps(curr, prev, n)
    {
      var i := 0;
      while i < n
        invariant i <= n && ops == old(ops) + KeyOps(curr, prev, i)
      {
        var _ := Emit(Op(Copy, curr + i, prev + i, 0));
        i := i + 1;
      }
    }

    /** Emit the key comparisons with their jumps open. */
    method EmitDiffers(curr: nat, prev: nat, n: nat)
      modifies this`ops
      ensures ops == old(ops) + DifferOps(curr, prev, n, 0)
    {
      var i := 0;
      while i < n
        invariant i <= n && ops == old(ops) + DifferOps(curr, prev, i, 0)
      {
        var _ := Emit(Op(Jump(Ne), curr + i, 0, prev + i));
        i := i + 1;
      }
    }

    /** Set the targets of n consecutive jumps. */
    method SetTargets(at: nat, n: nat, t: nat)
      requires at + n <= |ops|
      modifies this`ops
      ensures |ops| == |old(ops)|
      ensures forall i :: 0 <= i < |ops| ==> ops[i] == if at <= i < at + n then old(ops)[i].(p2 := t) else old(ops)[i]
    {
      var i := 0;
      while i < n
        invariant i <= n && |ops| == |old(ops)|
        invariant forall j :: 0 <= j < |ops| ==> ops[j] == if at <= j < at + i then old(ops)[j].(p2 := t) else old(ops)[j]
      {
        SetTarget(at + i, t);
        i := i + 1;
      }
    }

    /** Load and step every aggregate. */
    method EmitFeeds(s: nat, keys: nat, aggs: seq<Expr>, reg: nat)
      modifies this`ops, this`nRegs
      ensures ops == old(ops) + FeedOps(s, keys, aggs, reg, old(nRegs), |aggs|)
      ensures nRegs == old(nRegs) + ArgOffset(aggs, |aggs|)
    {
      hide FieldOps, FeedOps, BlocksEnd, ArgOffset;
      NoFeeds(s, keys, aggs, reg, nRegs);
      var i, col := 0, keys;
      while i < |aggs|
        invariant i <= |aggs| && ops == old(ops) + FeedOps(s, keys, aggs, reg, old(nRegs), i)
        invariant nRegs == BlocksEnd(aggs, old(nRegs), i) && col == keys + ArgOffset(aggs, i)
      {
        FeedStep(s, keys, aggs, reg, old(nRegs), i);
        var argc := ArgCount(aggs[i]);
        var start := 0;
        if argc > 0 {
          start := AllocBlock(argc);
          EmitFields(s, col, start, argc);
        } else {
          NoFields(s, col, BlocksEnd(aggs, old(nRegs), i));
        }
        col := col + argc;
        var _ := Emit(AggOp(AggStep, aggs[i], argc, start, reg + i));
        i := i + 1;
      }
    }

    static lemma NoFeeds(s: nat, keys: nat, aggs: seq<Expr>, reg: nat, from: nat)
      ensures FeedOps(s, keys, aggs, reg, from, 0) == [] && BlocksEnd(aggs, from, 0) == from && ArgOffset(aggs, 0) == 0
    {
    }

    static lemma FeedStep(s: nat, keys: nat, aggs: seq<Expr>, reg: nat, from: nat, i: nat)
      requires i < |aggs|
      ensures
        var n := ArgCount(aggs[i]);
        var block := BlocksEnd(aggs, from, i);
        && FeedOps(s, keys, aggs, reg, from, i + 1)
           == FeedOps(s, keys, aggs, reg, from, i) + FieldOps(s, keys + ArgOffset(aggs, i), block, n) + [AggOp(AggStep, aggs[i], n, if n > 0 then block else 0, reg + i)]
        && BlocksEnd(aggs, from, i + 1) == block + n && ArgOffset(aggs, i + 1) == ArgOffset(aggs, i) + n
    {
    }

    static lemma NoFields(s: nat, col: nat, dst: nat)
      ensures FieldOps(s, col, dst, 0) == []
    {
    }

    /** Sort, flag the first row, load the keys and compare them, with all jumps open. */
    method EmitHead(s: nat, keys: nat) returns (sort: nat, first: nat, differs: nat, same: nat, flag: nat, prev: nat)
      modifies this`ops, this`nRegs
      ensures flag == old(nRegs) && prev == flag + 1 && nRegs == prev + 2 * keys + 1
      ensures ops == old(ops) + HeadOps(s, keys, flag, prev, 0, 0, 0, 0)
      ensures sort == |old(ops)| && first == sort + keys + 3 && differs == sort + keys + 4 && same == sort + 2 * keys + 4
    {
      hide FieldOps, DifferOps;
      sort := Emit(Op(SorterSort, s, 0, 0));
      flag := AllocReg();
      var _ := Emit(Op(Integer, 1, flag, 0));
      prev := AllocMany(keys);
      var curr := AllocMany(keys);
      EmitFields(s, 0, curr, keys);
      var zero := AllocReg();
      var _ := Emit(Op(Integer, 0, zero, 0));
      first := Emit(Op(Jump(Ne), flag, 0, zero));
      differs := |ops|;
      EmitDiffers(curr, prev, keys);
      same := Emit(Op(Goto, 0, 0, 0));
      assert ops == old(ops) + HeadOps(s, keys, flag, prev, 0, 0, 0, 0);
    }

    method AllocMany(n: nat) returns (start: nat)
      modifies this`nRegs
      ensures start == old(nRegs) && nRegs == start + n
    {
      start := nRegs;
      var i := 0;
      while i < n
        invariant i <= n && nRegs == start + i
      {
        var _ := AllocReg();
        i := i + 1;
      }
    }

    /** Patch the four targets of the loop head. */
    method PatchHead(at: nat, s: nat, keys: nat, flag: nat, prev: nat, end: nat, first: nat, changed: nat, same: nat)
      requires at + 2 * keys + 5 <= |ops| && ops[at..at + 2 * keys + 5] == HeadOps(s, keys, flag, prev, 0, 0, 0, 0)
      modifies this`ops
      ensures ops == old(ops)[..at] + HeadOps(s, keys, flag, prev, end, first, changed, same) + old(ops)[at + 2 * keys + 5..]
    {
      hide HeadOps;
      SetTargets(at + keys + 4, keys, changed);
      SetTarget(at + keys + 3, first);
      SetTarget(at + 2 * keys + 4, same);
      SetTarget(at, end);
      ghost var a := HeadOps(s, keys, flag, prev, 0, 0, 0, 0);
      ghost var b := HeadOps(s, keys, flag, prev, end, first, changed, same);
      HeadTargets(s, keys, flag, prev, 0, 0, 0, 0, end, first, changed, same, 0);
      forall i | 0 <= i < 2 * keys + 5 ensures ops[at + i] == b[i] {
        HeadTargets(s, keys, flag, prev, 0, 0, 0, 0, end, first, changed, same, i);
        assert a[i] == old(ops)[at..at + 2 * keys + 5][i];
      }
    }

    /** The scan: filter each row, evaluate its keys and arguments, and insert the record into the sorter. */
    method CompileScan(q: GroupQuery) returns (ok: bool)
      modifies this`ops, this`nRegs, this`nCursors, this`aggRegs
      ensures ok == ScanPlan(q, old(nCursors), |old(ops)|, old(nRegs)).Some?
      ensures ok ==>
        var l := ScanPlan(q, old(nCursors), |old(ops)|, old(nRegs)).value;
        && ops == old(ops) + ScanOps(q, l) && nRegs == Dst(l) && nCursors == old(nCursors) + 2 && aggRegs == Pairs(l.aggs, l.reg)
    {
      hide ListCodeOf, FieldExprs, Aggregates, FilterOf, FilterSkips, ScanOps, CopyOps;
      ghost var base, reg := |ops|, nRegs;
      var table := TableContext(nCursors, q.names);
      nCursors := nCursors + 1;
      var aggs := Aggregates(q.columns);
      aggRegs := Pairs(aggs, nRegs);
      var _ := AllocMany(|aggs|);
      var sorter := nCursors;
      nCursors := nCursors + 1;
      var _ := Emit(Op(SorterOpen, sorter, 0, 0));
      var _ := Emit(Op(OpenRead, table.cursor, q.root, 0));
      var rewind := Emit(Op(Rewind, table.cursor, 0, 0));
      var top := |ops|;
      ghost var opened0 := ops;
      var skips := CompileFilter(q.filter, table);
      if skips == None {
        return false;
      }
      ghost var filtered := ops;
      var results := CompileList(FieldExprs(q), Some(table));
      if results == None {
        return false;
      }
      ghost var l := ScanPlan(q, table.cursor, base, reg).value;
      ScanShape(q, l);
      assert ops == old(ops) + [Op(SorterOpen, l.c + 1, 0, 0), Op(OpenRead, l.c, q.root, 0), Op(Rewind, l.c, 0, 0)] + l.cond.ops + l.list.ops;
      CloseScan(q, results.value, skips.value, sorter, table.cursor, rewind, top, l, old(ops));
      ok := true;
    }

    /** Emit the packing of the record and the end of the scan, and patch the open jumps. */
    method CloseScan(q: GroupQuery, results: seq<nat>, skips: seq<nat>, sorter: nat, cursor: nat, rewind: nat, top: nat, ghost l: GroupPlan, ghost before: seq<VdbeOp>)
      requires ScanPlan(q, l.c, l.base, l.reg) == Some(l) && |before| == l.base && |l.list.results| == FieldCount(l)
      requires ops == before + [Op(SorterOpen, l.c + 1, 0, 0), Op(OpenRead, l.c, q.root, 0), Op(Rewind, l.c, 0, 0)] + l.cond.ops + l.list.ops
      requires nRegs == Start(l) && results == l.list.results && sorter == l.c + 1 && cursor == l.c && rewind == l.base + 2 && top == Top(l)
      requires FilterOf(q.filter, ScanScope(q, l), Top(l), l.reg + |l.aggs|, 0).Some?
      requires skips == FilterSkips(q.filter, ScanScope(q, l), Top(l), l.reg + |l.aggs|)
      modifies this`ops, this`nRegs
      ensures ops == before + ScanOps(q, l) && nRegs == Dst(l)
    {
      hide ListCodeOf, FieldExprs, Aggregates, FilterOf, FilterSkips, ScanOps, CopyOps, ScanPlan, Patch, ScanScope;
      var next := EmitPack(results, sorter, cursor, top);
      var end := |ops|;
      SetTarget(rewind, end);
      ghost var open3 := [Op(SorterOpen, l.c + 1, 0, 0), Op(OpenRead, l.c, q.root, 0), Op(Rewind, l.c, end, 0)];
      assert ops == before + open3 + l.cond.ops + (l.list.ops + PackOps(l));
      PatchAll(skips, next);
      ScanPatched(q, l, before);
    }

    /** Copy the fields together, make the record, insert it, and close the loop. */
    method EmitPack(results: seq<nat>, sorter: nat, cursor: nat, top: nat) returns (next: nat)
      modifies this`ops, this`nRegs
      ensures
        var start, n := old(nRegs), |results|;
        && ops == old(ops) + CopyOps(results, start) + [Op(MakeRecord, start, n, start + n), Op(SorterInsert, sorter, start + n, 0), Op(NextOp, cursor, top, 0)]
        && nRegs == start + n + 1 && next == |ops| - 1
    {
      hide CopyOps;
      var start := AllocMany(|results|);
      EmitCopies(results, start);
      var record := AllocReg();
      var _ := Emit(Op(MakeRecord, start, |results|, record));
      var _ := Emit(Op(SorterInsert, sorter, record, 0));
      next := Emit(Op(NextOp, cursor, top, 0));
    }

    static ghost function PackOps(l: GroupPlan): seq<VdbeOp> {
      CopyOps(l.list.results, Start(l)) + [Op(MakeRecord, Start(l), FieldCount(l), RecordReg(l)), Op(SorterInsert, l.c + 1, RecordReg(l), 0), Op(NextOp, l.c, Top(l), 0)]
    }

    /** Patching the skips of the filter completes the scan. */
    static lemma ScanPatched(q: GroupQuery, l: GroupPlan, before: seq<VdbeOp>)
      requires ScanPlan(q, l.c, l.base, l.reg) == Some(l) && |before| == l.base
      ensures
        var open3 := [Op(SorterOpen, l.c + 1, 0, 0), Op(OpenRead, l.c, q.root, 0), Op(Rewind, l.c, SortAt(l), 0)];
        Patch(before + open3 + l.cond.ops + (l.list.ops + PackOps(l)), FilterSkips(q.filter, ScanScope(q, l), Top(l), l.reg + |l.aggs|), NextAt(l))
        == before + ScanOps(q, l)
    {
      hide *;
      var open3 := [Op(SorterOpen, l.c + 1, 0, 0), Op(OpenRead, l.c, q.root, 0), Op(Rewind, l.c, SortAt(l), 0)];
      ScanFilter(q, l);
      assert |before + open3| == Top(l);
      PatchFilter(before + open3, q.filter, ScanScope(q, l), l.reg + |l.aggs|, NextAt(l), l.list.ops + PackOps(l));
      ScanJoin(q, l, before);
    }

    static lemma ScanFilter(q: GroupQuery, l: GroupPlan)
      requires ScanPlan(q, l.c, l.base, l.reg) == Some(l)
      ensures Top(l) == l.base + 3 && FilterOf(q.filter, ScanScope(q, l), Top(l), l.reg + |l.aggs|, 0) == Some(l.cond)
      ensures FilterOf(q.filter, ScanScope(q, l), Top(l), l.reg + |l.aggs|, NextAt(l)) == Some(Cond(PatchedFilter(q, l), l.cond.next))
    {
      hide FilterOf, ListCodeOf, FieldExprs, Aggregates, ArgOffset, PatchedFilter;
      PatchedIs(q, l);
    }

    static lemma ScanJoin(q: GroupQuery, l: GroupPlan, before: seq<VdbeOp>)
      ensures
        var open3 := [Op(SorterOpen, l.c + 1, 0, 0), Op(OpenRead, l.c, q.root, 0), Op(Rewind, l.c, SortAt(l), 0)];
        before + open3 + PatchedFilter(q, l) + (l.list.ops + PackOps(l)) == before + ScanOps(q, l)
    {
      hide PatchedFilter, CopyOps, Op, SortAt, Start, RecordReg, FieldCount, Top;
      var open3 := [Op(SorterOpen, l.c + 1, 0, 0), Op(OpenRead, l.c, q.root, 0), Op(Rewind, l.c, SortAt(l), 0)];
      var a, b, c, d := PatchedFilter(q, l), l.list.ops, CopyOps(l.list.results, Start(l)), PackOps(l)[|l.list.results|..];
      assert PackOps(l) == c + d;
      Joined(before, open3, a, b, c, d);
    }

    static lemma Joined<T>(x: seq<T>, o: seq<T>, a: seq<T>, b: seq<T>, c: seq<T>, d: seq<T>)
      ensures x + o + a + (b + (c + d)) == x + (o + a + b + c + d)
    {
    }

    static lemma ScanShape(q: GroupQuery, l: GroupPlan)
      requires ScanPlan(q, l.c, l.base, l.reg) == Some(l)
      ensures |l.list.results| == FieldCount(l)
    {
      hide WhereOf, ListCodeOf, FieldExprs, Aggregates;
      ListBounds(FieldExprs(q), ScanScope(q, l), ListAt(l), l.cond.next);
    }

    static lemma PatchedIs(q: GroupQuery, l: GroupPlan)
      requires FilterOf(q.filter, ScanScope(q, l), Top(l), l.reg + |l.aggs|, 0) == Some(l.cond)
      ensures FilterOf(q.filter, ScanScope(q, l), Top(l), l.reg + |l.aggs|, NextAt(l)) == Some(Cond(PatchedFilter(q, l), l.cond.next))
    {
      PatchedFacts(q, l);
    }

    /** Finish the aggregates and emit the output row; key expressions read the registers from keyReg on. */
    method CompileRow(q: GroupQuery, table: TableContext, aggReg: nat, keyReg: nat, dst: nat) returns (ok: bool)
      requires aggRegs == Pairs(Aggregates(q.columns), aggReg)
      modifies this`ops, this`nRegs, this`aggRegs
      ensures
        var aggs, n := Aggregates(q.columns), |q.columns|;
        var code := ItemsOf(ItemsFor(q.columns), n, Scope(Some(table), Pairs(aggs, aggReg) + Pairs(q.groupBy, keyReg)), |old(ops)| + |aggs|, old(nRegs), dst);
        && ok == code.Some?
        && (ok ==> ops == old(ops) + FinalOps(aggs, aggReg, |aggs|) + code.value.ops + [Op(ResultRow, dst, n, 0)] && nRegs == code.value.next && aggRegs == old(aggRegs))
    {
      hide ItemsOf, FinalOps, Pairs, Aggregates, ItemsFor;
      var aggs, n := Aggregates(q.columns), |q.columns|;
      EmitFinals(aggs, aggReg);
      aggRegs := Pairs(aggs, aggReg) + Pairs(q.groupBy, keyReg);
      ok := CompileItems(ItemsFor(q.columns), table, dst);
      if !ok {
        return;
      }
      aggRegs := Pairs(aggs, aggReg);
      var _ := Emit(Op(ResultRow, dst, n, 0));
    }

    /** Start a group, feed the record to the aggregates, and go on to the next record. */
    method EmitRest(aggs: seq<Expr>, aggReg: nat, sorter: nat, keys: nat, flag: nat, prev: nat, loop: nat) returns (same: nat)
      modifies this`ops, this`nRegs
      ensures same == |old(ops)| + 1 + keys && nRegs == old(nRegs) + ArgOffset(aggs, |aggs|)
      ensures ops == old(ops) + ([Op(Integer, 0, flag, 0)] + KeyOps(prev + keys, prev, keys) + FeedOps(sorter, keys, aggs, aggReg, old(nRegs), |aggs|) + [Op(SorterNext, sorter, loop, 0)])
    {
      hide KeyOps, FeedOps;
      var _ := Emit(Op(Integer, 0, flag, 0));
      EmitKeyCopies(prev + keys, prev, keys);
      same := |ops|;
      EmitFeeds(sorter, keys, aggs, aggReg);
      var _ := Emit(Op(SorterNext, sorter, loop, 0));
    }

    static ghost predicate Planned(q: GroupQuery, l: GroupPlan) {
      l.aggs == Aggregates(q.columns) && l.keys == |q.groupBy| && l.args == ArgOffset(l.aggs, |l.aggs|)
    }

    static ghost function MidOf(q: GroupQuery, l: GroupPlan): Option<Cond> {
      var n := |q.columns|;
      ItemsOf(ItemsFor(q.columns), n, RowScope(q, l, Prev(l, n)), MidAt(l), ZeroReg(l, n) + 1, Dst(l))
    }

    static ghost function LastOf(q: GroupQuery, l: GroupPlan): Option<Cond> {
      var n := |q.columns|;
      ItemsOf(ItemsFor(q.columns), n, RowScope(q, l, Curr(l, n)), LastAt(l), l.mid.next + l.args, Dst(l))
    }

    /** From the sort to the code of a group change; l is the layout of the scan. */
    method CompileChange(q: GroupQuery, c: nat, aggReg: nat, ghost l: GroupPlan) returns (ok: bool, dst: nat, sort: nat, flag: nat, prev: nat, changed: nat)
      requires Planned(q, l) && l.c == c && l.reg == aggReg && |ops| == SortAt(l) && nRegs == Dst(l) && aggRegs == Pairs(l.aggs, aggReg)
      modifies this`ops, this`nRegs, this`aggRegs
      ensures ok == MidOf(q, l).Some?
      ensures dst == Dst(l) && sort == SortAt(l) && flag == Flag(l, |q.columns|) && prev == Prev(l, |q.columns|) && changed == ChangedAt(l)
      ensures ok ==>
        && ops == old(ops) + HeadOps(c + 1, l.keys, flag, prev, 0, 0, 0, 0) + FlushOps(q, l.(mid := MidOf(q, l).value))
        && nRegs == MidOf(q, l).value.next && aggRegs == old(aggRegs)
    {
      hide ItemsOf, HeadOps, FinalOps, NullOps, Pairs, Aggregates, ItemsFor, ArgOffset;
      var table, n, keys := TableContext(c, q.names), |q.columns|, |q.groupBy|;
      dst := AllocBlock(n);
      var first, differs, same;
      sort, first, differs, same, flag, prev := EmitHead(c + 1, keys);
      changed := |ops|;
      ghost var headed := ops;
      ok := CompileRow(q, table, aggReg, prev, dst);
      if !ok {
        return;
      }
      EmitNulls(aggReg, |Aggregates(q.columns)|);
      assert ops == headed + FlushOps(q, l.(mid := MidOf(q, l).value));
    }

    /** From the first record of a group to the row of the last group; l is the layout up to the group change. */
    method CompileTail(q: GroupQuery, c: nat, aggReg: nat, dst: nat, flag: nat, prev: nat, loop: nat, ghost l: GroupPlan) returns (ok: bool, same: nat, end: nat)
      requires Planned(q, l) && l.c == c && l.reg == aggReg && |ops| == FirstAt(l) && nRegs == l.mid.next && aggRegs == Pairs(l.aggs, aggReg)
      requires dst == Dst(l) && flag == Flag(l, |q.columns|) && prev == Prev(l, |q.columns|) && loop == LoopAt(l)
      modifies this`ops, this`nRegs, this`aggRegs
      ensures ok == LastOf(q, l).Some? && same == SameAt(l) && end == EndAt(l)
      ensures ok ==> ops == old(ops) + (RestOps(q, l) + LastOps(q, l.(last := LastOf(q, l).value))) && nRegs == LastOf(q, l).value.next
    {
      hide ItemsOf, FinalOps, FeedOps, KeyOps, Pairs, Aggregates, ItemsFor, ArgOffset;
      var aggs, keys := Aggregates(q.columns), |q.groupBy|;
      same := EmitRest(aggs, aggReg, c + 1, keys, flag, prev, loop);
      assert ops == old(ops) + RestOps(q, l);
      end := |ops|;
      ok := CompileRow(q, TableContext(c, q.names), aggReg, prev + keys, dst);
    }

    /** A GROUP BY: the scan, the loop over the sorted records, and the row of the last group. */
    method CompileGroup(q: GroupQuery) returns (ok: bool)
      modifies this`ops, this`nRegs, this`nCursors, this`aggRegs
      ensures ok == GroupLayout(q, old(nCursors), |old(ops)|, old(nRegs)).Some?
      ensures ok ==>
        var l := GroupLayout(q, old(nCursors), |old(ops)|, old(nRegs)).value;
        ops == old(ops) + GroupOps(q, l) && nRegs == l.last.next && nCursors == old(nCursors) + 2
    {
      hide ItemsOf, ScanPlan, HeadOps, FlushOps, RestOps, LastOps, ScanOps, Aggregates, ItemsFor, Pairs, RowScope;
      var c, aggReg := nCursors, nRegs;
      ghost var base := |ops|;
      ok := CompileScan(q);
      if !ok {
        return;
      }
      ghost var l := ScanPlan(q, c, base, aggReg).value;
      PlanStart(q, c, base, aggReg);
      ghost var scanned := ops;
      var dst, sort, flag, prev, changed;
      ok, dst, sort, flag, prev, changed := CompileChange(q, c, aggReg, l);
      if !ok {
        return;
      }
      ghost var l1 := l.(mid := MidOf(q, l).value);
      ghost var head, flush := HeadOps(c + 1, l.keys, flag, prev, 0, 0, 0, 0), FlushOps(q, l1);
      assert |flush| == FirstAt(l1) - ChangedAt(l1) by {
        FlushLength(q, l1);
      }
      var firstRow := |ops|;
      var same, end;
      ok, same, end := CompileTail(q, c, aggReg, dst, flag, prev, sort + 2, l1);
      if !ok {
        return;
      }
      ghost var l2 := l1.(last := LastOf(q, l1).value);
      SameScan(q, l, l1, l2);
      assert ops == old(ops) + ScanOps(q, l2) + head + (FlushOps(q, l2) + (RestOps(q, l2) + LastOps(q, l2)));
      CloseGroup(q, sort, c, flag, prev, end, firstRow, changed, same, l2, old(ops));
    }

    /** Patch the loop head, once the targets of its jumps are known. */
    method CloseGroup(q: GroupQuery, sort: nat, c: nat, flag: nat, prev: nat, end: nat, first: nat, changed: nat, same: nat, ghost l: GroupPlan, ghost before: seq<VdbeOp>)
      requires l.c == c && l.keys == |q.groupBy| && sort == SortAt(l) == |before + ScanOps(q, l)|
      requires flag == Flag(l, |q.columns|) && prev == Prev(l, |q.columns|) && end == EndAt(l) && first == FirstAt(l) && changed == ChangedAt(l) && same == SameAt(l)
      requires ops == before + ScanOps(q, l) + HeadOps(c + 1, l.keys, flag, prev, 0, 0, 0, 0) + (FlushOps(q, l) + (RestOps(q, l) + LastOps(q, l)))
      modifies this`ops
      ensures ops == before + GroupOps(q, l)
    {
      hide ScanOps, HeadOps, FlushOps, RestOps, LastOps, SortAt, Flag, Prev, EndAt, FirstAt, ChangedAt, SameAt;
      ghost var scanned := before + ScanOps(q, l);
      ghost var head := HeadOps(c + 1, l.keys, flag, prev, 0, 0, 0, 0);
      assert ops[sort..sort + 2 * l.keys + 5] == head;
      PatchHead(sort, c + 1, |q.groupBy|, flag, prev, end, first, changed, same);
      GroupJoin(before, ScanOps(q, l), LoopOps(q, l), FlushOps(q, l), RestOps(q, l), LastOps(q, l));
    }

    static lemma GroupJoin<T>(x: seq<T>, a: seq<T>, b: seq<T>, c: seq<T>, d: seq<T>, e: seq<T>)
      ensures x + a + b + (c + (d + e)) == x + (a + b + c + d + e)
    {
    }

    static lemma FlushLength(q: GroupQuery, l: GroupPlan)
      ensures |FlushOps(q, l)| == FirstAt(l) - ChangedAt(l)
    {
      hide FinalOps, NullOps;
    }

    static lemma PlanStart(q: GroupQuery, c: nat, base: nat, reg: nat)
      requires ScanPlan(q, c, base, reg).Some?
      ensures
        var l := ScanPlan(q, c, base, reg).value;
        && l.c == c && l.base == base && l.reg == reg && l.aggs == Aggregates(q.columns) && l.keys == |q.groupBy|
        && l.args == ArgOffset(l.aggs, |l.aggs|) && |ScanOps(q, l)| == SortAt(l) - base
    {
      hide WhereOf, ListCodeOf, FieldExprs, Aggregates, PatchedFilter, CopyOps;
      var l := ScanPlan(q, c, base, reg).value;
      ScanShape(q, l);
      PatchedFacts(q, l);
    }

    /** The code before a piece does not depend on it. */
    static lemma SameScan(q: GroupQuery, l: GroupPlan, l1: GroupPlan, l2: GroupPlan)
      requires l1 == l.(mid := l1.mid) && l2 == l1.(last := l2.last)
      ensures ScanOps(q, l2) == ScanOps(q, l) && FlushOps(q, l2) == FlushOps(q, l1) && RestOps(q, l2) == RestOps(q, l1)
    {
      hide WhereOf, CopyOps, FinalOps, NullOps, KeyOps, FeedOps;
    }

    // ---- DELETE and UPDATE ----

    method CompileDelete(q: DeleteQuery) returns (ok: bool)
      requires aggRegs == []
      modifies this`ops, this`nRegs, this`nCursors
      ensures
        var c, base := old(nCursors), |old(ops)|;
        var open0 := DeleteFilter(q, c, base, old(nRegs), 0);
        && ok == open0.Some?
        && (ok ==>
             var cond := DeleteFilter(q, c, base, old(nRegs), base + 2 + |open0.value.ops| + 3);
             && cond.Some? && |cond.value.ops| == |open0.value.ops|
             && ops == old(ops) + DeleteOps(q, c, base, cond.value.ops) && nRegs == cond.value.next && nCursors == c + 1)
    {
      hide FilterOf, FilterSkips, Patch;
      ghost var base, reg := |ops|, nRegs;
      var table := TableContext(nCursors, q.names);
      nCursors := nCursors + 1;
      var _ := Emit(Op(OpenWrite, table.cursor, q.root, 0));
      var rewind := Emit(Op(Rewind, table.cursor, 0, 0));
      var top := |ops|;
      ghost var sc := Scope(Some(table), aggRegs);
      var skips := CompileFilter(q.filter, table);
      if skips == None {
        return false;
      }
      CloseDelete(q, table, rewind, top, skips.value, reg, old(ops));
      ok := true;
    }

    /** Emit the deletion and the end of the scan, and patch the open jumps. */
    method CloseDelete(q: DeleteQuery, table: TableContext, rewind: nat, top: nat, skips: seq<nat>, ghost reg: nat, ghost before: seq<VdbeOp>)
      requires table.columns == q.names && rewind == |before| + 1 && top == |before| + 2
      requires DeleteFilter(q, table.cursor, |before|, reg, 0).Some?
      requires ops == before + [Op(OpenWrite, table.cursor, q.root, 0), Op(Rewind, table.cursor, 0, 0)] + DeleteFilter(q, table.cursor, |before|, reg, 0).value.ops
      requires skips == FilterSkips(q.filter, TableScope(table.cursor, q.names), top, reg)
      modifies this`ops
      ensures
        var open0 := DeleteFilter(q, table.cursor, |before|, reg, 0).value;
        var cond := DeleteFilter(q, table.cursor, |before|, reg, top + |open0.ops| + 3);
        && cond.Some? && |cond.value.ops| == |open0.ops| && cond.value.next == open0.next
        && ops == before + DeleteOps(q, table.cursor, |before|, cond.value.ops)
    {
      hide FilterOf, FilterSkips, Patch;
      ghost var c, sc := table.cursor, TableScope(table.cursor, q.names);
      ghost var open0 := FilterOf(q.filter, sc, top, reg, 0).value;
      var _ := Emit(Op(Delete, table.cursor, 0, 0));
      var _ := Emit(VdbeOp(NextOp, table.cursor, top, 0, NoP4, 1));
      var goto := Emit(Op(Goto, 0, 0, 0));
      var skip := |ops|;
      var _ := Emit(Op(NextOp, table.cursor, top, 0));
      var end := |ops|;
      SetTarget(rewind, end);
      SetTarget(goto, end);
      ghost var head := before + [Op(OpenWrite, c, q.root, 0), Op(Rewind, c, end, 0)];
      ghost var tail := [Op(Delete, c, 0, 0), VdbeOp(NextOp, c, top, 0, NoP4, 1), Op(Goto, 0, end, 0), Op(NextOp, c, top, 0)];
      assert ops == head + open0.ops + tail;
      PatchAll(skips, skip);
      PatchFilter(head, q.filter, sc, reg, skip, tail);
      FilterShape(q.filter, sc, top, reg, skip);
      var _ := Emit(Op(Close, table.cursor, 0, 0));
      DeleteJoin(q, c, before, FilterOf(q.filter, sc, top, reg, skip).value.ops);
    }

    static lemma DeleteJoin(q: DeleteQuery, c: nat, before: seq<VdbeOp>, filter: seq<VdbeOp>)
      ensures
        var top, end := |before| + 2, |before| + 2 + |filter| + 4;
        before + [Op(OpenWrite, c, q.root, 0), Op(Rewind, c, end, 0)] + filter
        + [Op(Delete, c, 0, 0), VdbeOp(NextOp, c, top, 0, NoP4, 1), Op(Goto, 0, end, 0), Op(NextOp, c, top, 0)] + [Op(Close, c, 0, 0)]
        == before + DeleteOps(q, c, |before|, filter)
    {
    }

    static lemma FilterShape(filter: Option<Expr>, sc: Scope, base: nat, reg: nat, t: nat)
      requires FilterOf(filter, sc, base, reg, 0).Some?
      ensures FilterOf(filter, sc, base, reg, t).Some?
      ensures |FilterOf(filter, sc, base, reg, t).value.ops| == |FilterOf(filter, sc, base, reg, 0).value.ops|
      ensures FilterOf(filter, sc, base, reg, t).value.next == FilterOf(filter, sc, base, reg, 0).value.next
    {
      hide WhereOf;
      if filter.Some? {
        WhereShape(filter.value, sc, base, reg, t);
      }
    }

    /** Emit the assignments, each into its column's register of the block. */
    method CompileAssignments(q: UpdateQuery, table: TableContext, dst: nat) returns (ok: bool)
      requires table.columns == q.names && aggRegs == []
      modifies this`ops, this`nRegs
      ensures
        var c := AssignsOf(q, |q.assignments|, TableScope(table.cursor, q.names), |old(ops)|, old(nRegs), dst);
        && ok == c.Some?
        && (ok ==> ops == old(ops) + c.value.ops && nRegs == c.value.next)
    {
      hide CodeOf, Position, AssignsOf;
      ghost var sc := TableScope(table.cursor, q.names);
      assert sc == Scope(Some(table), aggRegs);
      NoAssignments(q, sc, |ops|, nRegs, dst);
      var i := 0;
      while i < |q.assignments|
        invariant i <= |q.assignments| && AssignsOf(q, i, sc, |old(ops)|, old(nRegs), dst).Some?
        invariant
          var c := AssignsOf(q, i, sc, |old(ops)|, old(nRegs), dst).value;
          ops == old(ops) + c.ops && nRegs == c.next
      {
        AssignmentStep(q, i, sc, |old(ops)|, old(nRegs), dst);
        var col := Position(q.names, q.assignments[i].column);
        if col == None {
          RejectedAssignments(q, i + 1, |q.assignments|, sc, |old(ops)|, old(nRegs), dst);
          return false;
        }
        var r := CompileExpr(q.assignments[i].value, Some(table));
        if r == None {
          RejectedAssignments(q, i + 1, |q.assignments|, sc, |old(ops)|, old(nRegs), dst);
          return false;
        }
        var _ := Emit(Op(Copy, r.value, dst + col.value, 0));
        i := i + 1;
      }
      ok := true;
    }

    static lemma NoAssignments(q: UpdateQuery, sc: Scope, base: nat, reg: nat, dst: nat)
      ensures AssignsOf(q, 0, sc, base, reg, dst) == Some(Cond([], reg))
    {
    }

    static lemma AssignmentStep(q: UpdateQuery, i: nat, sc: Scope, base: nat, reg: nat, dst: nat)
      requires i < |q.assignments| && AssignsOf(q, i, sc, base, reg, dst).Some?
      ensures
        var p, col := AssignsOf(q, i, sc, base, reg, dst).value, Position(q.names, q.assignments[i].column);
        AssignsOf(q, i + 1, sc, base, reg, dst) ==
          if col == None then None
          else match CodeOf(q.assignments[i].value, sc, base + |p.ops|, p.next)
               case None => None
               case Some(c) => Some(Cond(p.ops + (c.ops + [Op(Copy, c.result, dst + col.value, 0)]), c.next))
    {
      hide CodeOf, Position;
    }

    static lemma {:induction false} RejectedAssignments(q: UpdateQuery, k: nat, n: nat, sc: Scope, base: nat, reg: nat, dst: nat)
      requires k <= n <= |q.assignments| && AssignsOf(q, k, sc, base, reg, dst) == None
      ensures AssignsOf(q, n, sc, base, reg, dst) == None
      decreases n
    {
      if k < n {
        RejectedAssignments(q, k, n - 1, sc, base, reg, dst);
      }
    }

    method CompileUpdate(q: UpdateQuery) returns (ok: bool)
      requires aggRegs == []
      modifies this`ops, this`nRegs, this`nCursors
      ensures
        var u := UpdateLayout(q, old(nCursors), |old(ops)|, old(nRegs));
        && ok == u.Some?
        && (ok ==> ops == old(ops) + UpdateOps(q, u.value) && nRegs == RowidReg(u.value) + 2 && nCursors == old(nCursors) + 1)
    {
      hide FilterOf, FilterSkips, Patch, AssignsOf, FieldOps;
      ghost var base, reg := |ops|, nRegs;
      var table, n := TableContext(nCursors, q.names), |q.names|;
      nCursors := nCursors + 1;
      var _ := Emit(Op(OpenWrite, table.cursor, q.root, 0));
      var rewind := Emit(Op(Rewind, table.cursor, 0, 0));
      var top := |ops|;
      ghost var sc := Scope(Some(table), aggRegs);
      assert sc == TableScope(table.cursor, q.names);
      var skips := CompileFilter(q.filter, table);
      if skips == None {
        return false;
      }
      var block := AllocBlock(n);
      EmitFields(table.cursor, 0, block, n);
      ok := CompileAssignments(q, table, block);
      if !ok {
        return;
      }
      ghost var u := UpdateLayout(q, table.cursor, base, reg).value;
      assert ops == old(ops) + [Op(OpenWrite, u.c, q.root, 0), Op(Rewind, u.c, 0, 0)] + u.cond.ops + (FieldOps(u.c, 0, block, n) + u.assigns.ops);
      CloseUpdate(q, table.cursor, block, n, rewind, top, skips.value, u, old(ops));
    }

    /** Emit the replacement and the end of the scan, and patch the open jumps. */
    method CloseUpdate(q: UpdateQuery, c: nat, block: nat, n: nat, rewind: nat, top: nat, skips: seq<nat>, ghost u: UpdatePlan, ghost before: seq<VdbeOp>)
      requires UpdateLayout(q, u.c, u.base, u.reg) == Some(u) && |before| == u.base
      requires c == u.c && block == BlockAt(u) && n == |q.names| && rewind == u.base + 1 && top == u.base + 2 && nRegs == RowidReg(u)
      requires ops == before + [Op(OpenWrite, u.c, q.root, 0), Op(Rewind, u.c, 0, 0)] + u.cond.ops + (FieldOps(u.c, 0, block, n) + u.assigns.ops)
      requires FilterOf(q.filter, TableScope(c, q.names), top, u.reg, 0).Some?
      requires skips == FilterSkips(q.filter, TableScope(c, q.names), top, u.reg)
      modifies this`ops, this`nRegs
      ensures ops == before + UpdateOps(q, u) && nRegs == RowidReg(u) + 2
    {
      hide FilterOf, FilterSkips, Patch, AssignsOf, FieldOps, UpdateLayout, UpdateOps;
      var next, end, seek := EmitReplace(c, block, n, top);
      SetTarget(rewind, end);
      SetTarget(seek, end);
      ghost var head := before + [Op(OpenWrite, u.c, q.root, 0), Op(Rewind, u.c, end, 0)];
      ghost var tail := FieldOps(u.c, 0, block, n) + u.assigns.ops + UpdateTail(q, u)[..7];
      assert ops == head + u.cond.ops + tail;
      PatchAll(skips, next);
      UpdatePatched(q, u, before);
      var _ := Emit(Op(Close, c, 0, 0));
    }

    /** Patching the skips of the filter and closing the cursor completes an UPDATE. */
    static lemma UpdatePatched(q: UpdateQuery, u: UpdatePlan, before: seq<VdbeOp>)
      requires UpdateLayout(q, u.c, u.base, u.reg) == Some(u) && |before| == u.base
      ensures
        var n, sc := |q.names|, TableScope(u.c, q.names);
        var head := before + [Op(OpenWrite, u.c, q.root, 0), Op(Rewind, u.c, CloseAt(u, n), 0)];
        var tail := FieldOps(u.c, 0, BlockAt(u), n) + u.assigns.ops + UpdateTail(q, u)[..7];
        && FilterOf(q.filter, sc, u.base + 2, u.reg, 0).Some?
        && Patch(head + u.cond.ops + tail, FilterSkips(q.filter, sc, u.base + 2, u.reg), SkipAt(u, n)) + [Op(Close, u.c, 0, 0)] == before + UpdateOps(q, u)
    {
      hide FilterOf, FilterSkips, Patch, AssignsOf, FieldOps;
      var n := |q.names|;
      var head := before + [Op(OpenWrite, u.c, q.root, 0), Op(Rewind, u.c, CloseAt(u, n), 0)];
      var tail := FieldOps(u.c, 0, BlockAt(u), n) + u.assigns.ops + UpdateTail(q, u)[..7];
      PatchFilter(head, q.filter, TableScope(u.c, q.names), u.reg, SkipAt(u, n), tail);
      assert head + UpdateFilter(q, u) + tail + [Op(Close, u.c, 0, 0)] == before + UpdateOps(q, u);
    }

    /** Replace the row, seek past it, and the Next for rows passed over; the seek's target is open. */
    method EmitReplace(c: nat, block: nat, n: nat, top: nat) returns (next: nat, end: nat, seek: nat)
      modifies this`ops, this`nRegs
      ensures nRegs == old(nRegs) + 2 && seek == |old(ops)| + 4 && next == |old(ops)| + 6 && end == |old(ops)| + 7
      ensures
        var r := old(nRegs);
        ops == old(ops) + [
          Op(RowId, c, r, 0), Op(MakeRecord, block, n, r + 1), Op(Delete, c, 0, 0), Op(Insert, c, r + 1, r), Op(SeekGt, c, 0, r), Op(Goto, 0, top, 0), Op(NextOp, c, top, 0)]
    {
      var rowid := AllocReg();
      var _ := Emit(Op(RowId, c, rowid, 0));
      var record := AllocReg();
      var _ := Emit(Op(MakeRecord, block, n, record));
      var _ := Emit(Op(Delete, c, 0, 0));
      var _ := Emit(Op(Insert, c, record, rowid));
      seek := Emit(Op(SeekGt, c, 0, rowid));
      var _ := Emit(Op(Goto, 0, top, 0));
      next := |ops|;
      var _ := Emit(Op(NextOp, c, top, 0));
      end := |ops|;
    }
  }
}
