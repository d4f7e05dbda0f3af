/** Expressions and what they mean, without reference to registers or instructions. */
module Ast {
  import opened Mem

  datatype Literal =
    | Number(i: I64)
    | Float(f: Double)
    | Str(text: string, bytes: Data)
    | True
    | False
    | NullLiteral
    | CurrentDate
    | CurrentTime
    | CurrentTimestamp
    | OtherLiteral

  datatype UnaryOp = Plus | Minus | Not | OtherUnary
  datatype BinaryOp = Arith(a: Arithmetic) | Compare(c: Comparison) | And | Or | OtherBinary
  datatype ArgKind = Star | NoArgs | List | Distinct

  datatype Expr =
    | Literal(l: Literal)
    | Column(name: string)
    | Unary(op: UnaryOp, operand: Expr)
    | Binary(bop: BinaryOp, left: Expr, right: Expr)
    | Call(fname: string, kind: ArgKind, list: Exprs)
    | NullTest(not: bool, tested: Expr)
    | OtherExpr

  datatype Exprs = Nil | Cons(head: Expr, tail: Exprs)

  /** COUNT(*) and calls without a list have no arguments. */
  predicate HasList(kind: ArgKind) {
    kind == List || kind == Distinct
  }

  function Count(es: Exprs): nat {
    match es case Nil => 0 case Cons(_, rest) => 1 + Count(rest)
  }

  // ---- Names ----

  function Lower(c: char): char {
    if 'A' <= c <= 'Z' then c + 32 as char else c
  }

  predicate SameName(a: string, b: string) {
    |a| == |b| && forall i :: 0 <= i < |a| ==> Lower(a[i]) == Lower(b[i])
  }

  /** The first column of that name, ignoring ASCII case. */
  function Position(columns: seq<string>, name: string): Option<nat> {
    if columns == [] then None
    else if SameName(columns[0], name) then Some(0)
    else match Position(columns[1..], name) case None => None case Some(i) => Some(i + 1)
  }

  /** The same letter, one of them capital. */
  predicate CasePair(upper: char, lower: char) {
    'A' <= upper <= 'Z' && lower as int - upper as int == 32
  }

  /** The same characters up to ASCII case. */
  ghost predicate SameLetters(a: string, b: string) {
    |a| == |b| && forall i :: 0 <= i < |a| ==> a[i] == b[i] || CasePair(a[i], b[i]) || CasePair(b[i], a[i])
  }

  /** The column at i is the first whose name agrees. */
  ghost predicate Named(columns: seq<string>, name: string, i: nat) {
    i < |columns| && SameLetters(columns[i], name) && forall j :: 0 <= j < i ==> !SameLetters(columns[j], name)
  }

  lemma SameNameIs(a: string, b: string)
    ensures SameName(a, b) <==> SameLetters(a, b)
  {
    if |a| == |b| {
      forall i | 0 <= i < |a| ensures Lower(a[i]) == Lower(b[i]) <==> (a[i] == b[i] || CasePair(a[i], b[i]) || CasePair(b[i], a[i])) {
      }
    }
  }

  /** A name denotes the first column that agrees with it up to ASCII case, and nothing when none does. */
  lemma {:induction false} PositionIs(columns: seq<string>, name: string, i: nat)
    ensures Position(columns, name) == Some(i) <==> Named(columns, name, i)
    ensures Position(columns, name) == None <==> forall j :: 0 <= j < |columns| ==> !SameLetters(columns[j], name)
    decreases |columns|
  {
    hide SameName, SameLetters;
    if columns != [] {
      SameNameIs(columns[0], name);
      var rest := columns[1..];
      forall j | 0 <= j < |rest| ensures rest[j] == columns[j + 1] {
      }
      PositionIs(rest, name, if i > 0 then i - 1 else 0);
      if i > 0 && Named(rest, name, i - 1) && !SameLetters(columns[0], name) {
        forall j | 0 <= j < i ensures !SameLetters(columns[j], name) {
          if j > 0 {
            assert !SameLetters(rest[j - 1], name);
          }
        }
      }
      if i > 0 && Named(columns, name, i) {
        assert !SameLetters(columns[0], name);
        forall j | 0 <= j < i - 1 ensures !SameLetters(rest[j], name) {
          assert !SameLetters(columns[j + 1], name);
        }
      }
      if forall j :: 0 <= j < |columns| ==> !SameLetters(columns[j], name) {
        forall j | 0 <= j < |rest| ensures !SameLetters(rest[j], name) {
          assert !SameLetters(columns[j + 1], name);
        }
      }
      if !SameLetters(columns[0], name) && forall j :: 0 <= j < |rest| ==> !SameLetters(rest[j], name) {
        forall j | 0 <= j < |columns| ensures !SameLetters(columns[j], name) {
          assert j > 0 ==> columns[j] == rest[j - 1];
        }
      }
    }
  }

  // ---- Meaning ----

  /** The columns and record of the current row, and the expressions whose values are already known. */
  datatype Context = Context(columns: Option<seq<string>>, data: Option<Data>, known: seq<(Expr, Mem)>)

  function Known(known: seq<(Expr, Mem)>, e: Expr): Option<Mem> {
    if known == [] then None else if known[0].0 == e then Some(known[0].1) else Known(known[1..], e)
  }

  /** A literal cut to 32 bits. */
  function Cut(i: I64): (r: I64)
    ensures -0x8000_0000 <= r < 0x8000_0000
  {
    var u := i % 0x1_0000_0000;
    if u >= 0x8000_0000 then u - 0x1_0000_0000 else u
  }

  /** Cutting keeps what fits, and otherwise the low 32 bits. */
  lemma CutIs(i: I64)
    ensures -0x8000_0000 <= i < 0x8000_0000 ==> Cut(i) == i
    ensures exists k: int :: i == Cut(i) + k * 0x1_0000_0000
  {
    var u: int := i;
    var k := u / 0x1_0000_0000 + if u % 0x1_0000_0000 >= 0x8000_0000 then 1 else 0;
    assert i == Cut(i) + k * 0x1_0000_0000;
  }

  function BoolMem(b: bool): Mem {
    Int(if b then 1 else 0)
  }

  /** What "now" is called with. */
  const NOW: Mem := Text([110, 111, 119])

  function LiteralValue(env: Env, l: Literal): Option<Mem> {
    match l
    case Number(i) => Some(Int(Cut(i)))
    case Float(f) => Some(Real(f))
    case Str(_, bytes) => Some(Text(bytes))
    case True => Some(Int(1))
    case False => Some(Int(0))
    case NullLiteral => Some(Null)
    case CurrentDate => env.call("date", [NOW])
    case CurrentTime => env.call("time", [NOW])
    case CurrentTimestamp => env.call("datetime", [NOW])
    case OtherLiteral => None
  }

  /** NULL stays NULL; a value equal to zero becomes true, any other false. */
  function Negated(env: Env, v: Mem): Mem {
    if v == Null then Null else BoolMem(Holds(env, Eq, v, Int(0)))
  }

  /** The value of an expression; None when evaluating it fails. */
  function Eval(env: Env, e: Expr, ctx: Context): Option<Mem>
    decreases e
  {
    if Known(ctx.known, e).Some? then Known(ctx.known, e)
    else
      match e
      case Literal(l) => LiteralValue(env, l)
      case Column(name) => ColumnValue(env, name, ctx)
      case Unary(Plus, x) => Eval(env, x, ctx)
      case Unary(Minus, x) => (match Eval(env, x, ctx) case None => None case Some(v) => Compute(env, Sub, Int(0), v))
      case Unary(Not, x) => (match Eval(env, x, ctx) case None => None case Some(v) => Some(Negated(env, v)))
      case Binary(op, x, y) => (
        match Eval(env, x, ctx)
        case None => None
        case Some(l) => (
          match Eval(env, y, ctx)
          case None => None
          case Some(r) => BinaryValue(env, op, l, r)))
      case Call(name, kind, list) => (
        match (if HasList(kind) then EvalAll(env, list, ctx) else Some([]))
        case None => None
        case Some(vs) => env.call(name, vs))
      case _ => None
  }

  function ColumnValue(env: Env, name: string, ctx: Context): Option<Mem> {
    match (ctx.columns, ctx.data)
    case (Some(columns), Some(data)) => (match Position(columns, name) case None => None case Some(i) => FieldOf(env, data, i))
    case _ => None
  }

  function BinaryValue(env: Env, op: BinaryOp, l: Mem, r: Mem): Option<Mem> {
    match op
    case Arith(a) => Compute(env, a, l, r)
    case Compare(c) => Some(BoolMem(Holds(env, c, l, r)))
    case _ => None
  }

  /** All the values, left to right; None as soon as one fails. */
  function EvalAll(env: Env, es: Exprs, ctx: Context): Option<seq<Mem>>
    decreases es
  {
    match es
    case Nil => Some([])
    case Cons(x, rest) =>
      match Eval(env, x, ctx)
      case None => None
      case Some(v) => (match EvalAll(env, rest, ctx) case None => None case Some(vs) => Some([v] + vs))
  }

  /**
    Whether a row passes a WHERE clause. AND stops at the first side that does not hold, OR always
    evaluates both sides, and a row passes when the value is truthy.
   */
  function Passes(env: Env, e: Expr, ctx: Context): Option<bool>
    decreases e
  {
    match e
    case Binary(And, x, y) => (
      match Passes(env, x, ctx)
      case None => None
      case Some(b) => if b then Passes(env, y, ctx) else Some(false))
    case Binary(Or, x, y) => (
      match Eval(env, x, ctx)
      case None => None
      case Some(l) => (
        match Eval(env, y, ctx)
        case None => None
        case Some(r) => Some(IsTruthy(env, l) || IsTruthy(env, r))))
    case NullTest(not, x) => (match Eval(env, x, ctx) case None => None case Some(v) => Some((v == Null) != not))
    case _ => (match Eval(env, e, ctx) case None => None case Some(v) => Some(IsTruthy(env, v)))
  }
}
