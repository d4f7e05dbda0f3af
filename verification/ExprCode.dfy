/** The code of an expression: what the compiler emits for it, and that running it gives the expression's value. */
module ExprCode {
  import opened Bytes
  import opened Mem
  import opened Vdbe
  import opened Ast

  /** A table cursor and the columns of its table. */
  datatype TableContext = TableContext(cursor: nat, columns: seq<string>)

  /** Expressions that already have a register. */
  type Bound = seq<(Expr, nat)>

  datatype Scope = Scope(table: Option<TableContext>, bound: Bound)

  /** Instructions, the register of the result, and the first register still free. */
  datatype Code = Code(ops: seq<VdbeOp>, result: nat, next: nat)

  /** Instructions that evaluate a list, and the registers of the values. */
  datatype ListCode = ListCode(ops: seq<VdbeOp>, results: seq<nat>, next: nat)

  function Op(opcode: Opcode, p1: int, p2: int, p3: int): VdbeOp {
    VdbeOp(opcode, p1, p2, p3, NoP4, 0)
  }

  function Find(bound: Bound, e: Expr): Option<nat> {
    if bound == [] then None else if bound[0].0 == e then Some(bound[0].1) else Find(bound[1..], e)
  }

  function LiteralCode(l: Literal, reg: nat): Option<Code> {
    match l
    case Number(i) => Some(Code([Op(Integer, Cut(i), reg, 0)], reg, reg + 1))
    case Float(f) => Some(Code([VdbeOp(RealOp, 0, reg, 0, P4Real(f), 0)], reg, reg + 1))
    case Str(text, bytes) => Some(Code([VdbeOp(String8, 0, reg, 0, P4Text(text, bytes), 0)], reg, reg + 1))
    case True => Some(Code([Op(Integer, 1, reg, 0)], reg, reg + 1))
    case False => Some(Code([Op(Integer, 0, reg, 0)], reg, reg + 1))
    case NullLiteral => Some(Code([Op(NullOp, 0, reg, 0)], reg, reg + 1))
    case CurrentDate => Some(Code(NowCode("date", reg), reg, reg + 2))
    case CurrentTime => Some(Code(NowCode("time", reg), reg, reg + 2))
    case CurrentTimestamp => Some(Code(NowCode("datetime", reg), reg, reg + 2))
    case OtherLiteral => None
  }

  function NowCode(name: string, reg: nat): seq<VdbeOp> {
    [VdbeOp(String8, 0, reg + 1, 0, P4Text("now", [110, 111, 119]), 0), VdbeOp(Function, 1, reg + 1, reg, P4Text(name, []), 0)]
  }

  /** l and r are compared into `res`; `a` is the address of the first instruction. */
  function CompareOps(c: Comparison, l: nat, r: nat, res: nat, a: nat): seq<VdbeOp> {
    [Op(Integer, 0, res, 0), Op(Jump(c), r, a + 3, l), Op(Goto, 0, a + 4, 0), Op(Integer, 1, res, 0)]
  }

  function NotOps(x: nat, res: nat, a: nat): (ops: seq<VdbeOp>)
    ensures |ops| == 8
  {
    [ Op(IsNull, x, a + 7, 0),
      Op(Integer, 0, res, 0),
      Op(Integer, 0, res + 1, 0),
      Op(Jump(Eq), res + 1, a + 5, x),
      Op(Goto, 0, a + 8, 0),
      Op(Integer, 1, res, 0),
      Op(Goto, 0, a + 8, 0),
      Op(NullOp, 0, res, 0)]
  }

  /** Copy the registers into a block from `start` on. */
  function CopyOps(results: seq<nat>, start: nat): (ops: seq<VdbeOp>)
    ensures |ops| == |results|
  {
    if results == [] then [] else CopyOps(results[..|results| - 1], start) + [Op(Copy, results[|results| - 1], start + |results| - 1, 0)]
  }

  function BinaryCode(op: BinaryOp, l: Code, r: Code, base: nat): Option<Code> {
    var a := base + |l.ops| + |r.ops|;
    match op
    case Arith(c) => Some(Code(l.ops + r.ops + [Op(Calc(c), r.result, l.result, r.next)], r.next, r.next + 1))
    case Compare(c) => Some(Code(l.ops + r.ops + CompareOps(c, l.result, r.result, r.next, a), r.next, r.next + 1))
    case _ => None
  }

  function CallCode(name: string, list: ListCode): Code {
    var n := |list.results|;
    var dest := list.next + n;
    Code(list.ops + CopyOps(list.results, list.next) + [VdbeOp(Function, n, if n > 0 then list.next else 0, dest, P4Text(name, []), 0)], dest, dest + 1)
  }

  /** The code of `e` at address `base`, with registers from `reg` on free; None when it is rejected. */
  function CodeOf(e: Expr, sc: Scope, base: nat, reg: nat): (c: Option<Code>)
    ensures c.Some? ==> c.value.next >= reg
    decreases e
  {
    if Find(sc.bound, e).Some? then Some(Code([], Find(sc.bound, e).value, reg))
    else
      match e
      case Literal(l) => LiteralCode(l, reg)
      case Column(name) => (
        match sc.table
        case None => None
        case Some(t) => (
          match Position(t.columns, name)
          case None => None
          case Some(i) => Some(Code([Op(Opcode.Column, t.cursor, i, reg)], reg, reg + 1))))
      case Unary(Plus, x) => CodeOf(x, sc, base, reg)
      case Unary(Minus, x) => (
        match CodeOf(x, sc, base, reg)
        case None => None
        case Some(c) => Some(Code(c.ops + [Op(Integer, 0, c.next, 0), Op(Calc(Sub), c.result, c.next, c.next)], c.next, c.next + 1)))
      case Unary(Not, x) => (
        match CodeOf(x, sc, base, reg)
        case None => None
        case Some(c) => Some(Code(c.ops + NotOps(c.result, c.next, base + |c.ops|), c.next, c.next + 2)))
      case Binary(op, x, y) => (
        match CodeOf(x, sc, base, reg)
        case None => None
        case Some(l) => (
          match CodeOf(y, sc, base + |l.ops|, l.next)
          case None => None
          case Some(r) => BinaryCode(op, l, r, base)))
      case Call(name, kind, list) => (
        if HasList(kind) then
          match ListCodeOf(list, sc, base, reg)
          case None => None
          case Some(args) => Some(CallCode(name, args))
        else Some(CallCode(name, ListCode([], [], reg))))
      case _ => None
  }

  function ListCodeOf(es: Exprs, sc: Scope, base: nat, reg: nat): (c: Option<ListCode>)
    ensures c.Some? ==> c.value.next >= reg
    decreases es
  {
    match es
    case Nil => Some(ListCode([], [], reg))
    case Cons(x, rest) =>
      match CodeOf(x, sc, base, reg)
      case None => None
      case Some(c) => (
        match ListCodeOf(rest, sc, base + |c.ops|, c.next)
        case None => None
        case Some(cs) => Some(ListCode(c.ops + cs.ops, [c.result] + cs.results, cs.next)))
  }
}
