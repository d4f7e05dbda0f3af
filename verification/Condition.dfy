/**
  What a condition asks of a row, in terms of the row's values alone: integers are compared and
  calculated with as integers, text byte by byte, and AND, OR, NOT and IS NULL are those of logic.
 */
module Condition {
  import opened Bytes
  import opened Integers
  import opened Mem
  import opened Ast
  import opened ExprCode
  import opened WhereCode
  import opened KeyOrder
  import R = Record

  /** A column, by the name it is called and its place in the table. */
  datatype Ref = Ref(name: string, at: nat)

  datatype Term =
    | ColumnTerm(ref: Ref)
    | ConstantTerm(l: Literal)
    | MinusTerm(a: Term)
    | Calculation(op: Arithmetic, a: Term, b: Term)

  datatype Atom = Comparing(c: Comparison, a: Term, b: Term) | Negation(atom: Atom)

  /** A value by itself holds when it is neither NULL nor zero nor empty; its negation when it is zero. */
  datatype Test = Plainly(atom: Atom) | NonZero(t: Term) | IsZero(t: Term)

  datatype Condition = Is(test: Test) | Missing(not: bool, t: Term) | Either(a: Test, b: Test) | Both(c: Condition, d: Condition)

  // ---- As expressions ----

  function TermExpr(t: Term): Expr {
    match t
    case ColumnTerm(ref) => Column(ref.name)
    case ConstantTerm(l) => Literal(l)
    case MinusTerm(a) => Unary(UnaryOp.Minus, TermExpr(a))
    case Calculation(op, a, b) => Binary(Arith(op), TermExpr(a), TermExpr(b))
  }

  function AtomExpr(a: Atom): Expr {
    match a
    case Comparing(c, x, y) => Binary(Compare(c), TermExpr(x), TermExpr(y))
    case Negation(x) => Unary(UnaryOp.Not, AtomExpr(x))
  }

  function TestExpr(t: Test): Expr {
    match t
    case Plainly(a) => AtomExpr(a)
    case NonZero(x) => TermExpr(x)
    case IsZero(x) => Unary(UnaryOp.Not, TermExpr(x))
  }

  function ConditionExpr(c: Condition): Expr {
    match c
    case Is(t) => TestExpr(t)
    case Missing(not, t) => NullTest(not, TermExpr(t))
    case Either(a, b) => Binary(Or, TestExpr(a), TestExpr(b))
    case Both(x, y) => Binary(And, ConditionExpr(x), ConditionExpr(y))
  }

  // ---- Over the columns of a table ----

  /** Columns are what their names denote; constants are NULL, text and integers of 32 bits. */
  ghost predicate TermOver(t: Term, names: seq<string>) {
    match t
    case ColumnTerm(ref) => Named(names, ref.name, ref.at)
    case ConstantTerm(l) => l.NullLiteral? || l.Str? || (l.Number? && -0x8000_0000 <= l.i < 0x8000_0000)
    case MinusTerm(a) => TermOver(a, names)
    case Calculation(_, a, b) => TermOver(a, names) && TermOver(b, names)
  }

  ghost predicate AtomOver(a: Atom, names: seq<string>) {
    match a
    case Comparing(_, x, y) => TermOver(x, names) && TermOver(y, names)
    case Negation(x) => AtomOver(x, names)
  }

  ghost predicate TestOver(t: Test, names: seq<string>) {
    match t
    case Plainly(a) => AtomOver(a, names)
    case NonZero(x) => TermOver(x, names)
    case IsZero(x) => TermOver(x, names)
  }

  ghost predicate Over(c: Condition, names: seq<string>) {
    match c
    case Is(t) => TestOver(t, names)
    case Missing(_, t) => TermOver(t, names)
    case Either(a, b) => TestOver(a, names) && TestOver(b, names)
    case Both(x, y) => Over(x, names) && Over(y, names)
  }

  // ---- Arithmetic ----

  ghost function Size(i: int): nat {
    if i < 0 then -i else i
  }

  /** Division rounds toward zero. */
  ghost function Ratio(x: int, y: int): int
    requires y != 0
  {
    if (x < 0) == (y < 0) then Size(x) / Size(y) else -(Size(x) / Size(y))
  }

  /** The result of an operation on integers, if there is one and it fits 64 bits. */
  ghost function Result(op: Arithmetic, x: I64, y: I64): Option<I64> {
    var z :=
      match op
      case Add => Some(x + y)
      case Sub => Some(x - y)
      case Mul => Some(x * y)
      case Div => if y == 0 then None else Some(Ratio(x, y))
      case Mod => if y == 0 || Ratio(x, y) == 0x8000_0000_0000_0000 then None else Some(x - y * Ratio(x, y));
    if z.Some? && -0x8000_0000_0000_0000 <= z.value < 0x8000_0000_0000_0000 then Some(z.value) else None
  }

  /** What is left over has the sign of the dividend and is smaller than the divisor. */
  lemma RatioIs(x: int, y: int)
    requires y != 0
    ensures
      var r := x - y * Ratio(x, y);
      Size(r) < Size(y) && (r == 0 || (r < 0) == (x < 0))
  {
    var a, b := Size(x), Size(y);
    var q: int, s := a / b, a % b;
    Remainder(a, b);
    if y > 0 {
      assert y * -q == -(b * q);
    } else {
      assert y * q == -(b * q) && y * -q == b * q by {
        Signs(b, q);
      }
    }
    assert y * Ratio(x, y) == if x < 0 then -(b * q) else b * q;
  }

  lemma Remainder(a: nat, b: nat)
    requires b > 0
    ensures a == b * (a / b) + a % b
  {
  }

  lemma Signs(b: int, q: int)
    ensures (-b) * q == -(b * q) && (-b) * -q == b * q && b * -q == -(b * q)
  {
  }

  lemma QuotientIs(x: int, y: int)
    requires y != 0
    ensures Quotient(x, y) == Ratio(x, y)
  {
    if y > 0 {
      DivideNegative(Size(x), y);
    } else {
      DivideNegative(Size(x), -y);
    }
  }

  /** Euclidean division of a natural number by -b. */
  lemma DivideNegative(a: int, b: int)
    requires a >= 0 && b > 0
    ensures a / (-b) == -(a / b)
  {
    var q, r := a / b, a % b;
    var p, t := a / (-b), a % (-b);
    assert a == b * q + r && a == (-b) * p + t && 0 <= t < b;
    Signs(b, p);
    assert b * (q + p) == t - r by {
      assert b * (q + p) == b * q + b * p;
    }
    SmallMultiple(b, q + p);
  }

  /** On integers whose result fits 64 bits, an operation gives that result. */
  lemma ComputeIs(env: Env, op: Arithmetic, x: I64, y: I64)
    requires Result(op, x, y).Some?
    ensures Compute(env, op, Int(x), Int(y)) == Some(Int(Result(op, x, y).value))
  {
    if y != 0 && (op.Div? || op.Mod?) {
      QuotientIs(x, y);
      RatioIs(x, y);
      if y == -1 {
        MinusOne(x);
      }
    }
    hide Quotient, Ratio;
    WrapFits(Result(op, x, y).value);
    if op.Mod? {
      assert x - Quotient(x, y) * y == x - y * Ratio(x, y);
    }
  }

  lemma MinusOne(x: int)
    ensures Ratio(x, -1) == -x
  {
  }

  lemma WrapFits(z: int)
    requires -0x8000_0000_0000_0000 <= z < 0x8000_0000_0000_0000
    ensures Wrap(z) == z
  {
  }

  /** Sums, differences and products that do not fit keep their low 64 bits. */
  lemma WrapIs(z: int)
    ensures exists k: int :: z == Wrap(z) + k * 0x1_0000_0000_0000_0000
  {
    var m := 0x1_0000_0000_0000_0000;
    var k := z / m + if z % m >= 0x8000_0000_0000_0000 then 1 else 0;
    assert z == Wrap(z) + k * m;
  }

  lemma ComputeWraps(env: Env, x: I64, y: I64)
    ensures Compute(env, Add, Int(x), Int(y)) == Some(Int(Wrap(x + y)))
    ensures Compute(env, Sub, Int(x), Int(y)) == Some(Int(Wrap(x - y)))
    ensures Compute(env, Mul, Int(x), Int(y)) == Some(Int(Wrap(x * y)))
    ensures Compute(env, Div, Int(x), Int(0)) == None && Compute(env, Mod, Int(x), Int(0)) == None
  {
  }

  // ---- Meaning ----

  /** The value of a term in a row; None where a calculation has no integer result of 64 bits. */
  ghost function TermValue(t: Term, row: seq<Mem>): Option<Mem> {
    match t
    case ColumnTerm(ref) => if ref.at < |row| then Some(row[ref.at]) else None
    case ConstantTerm(Number(i)) => Some(Int(i))
    case ConstantTerm(Str(_, bytes)) => Some(Text(bytes))
    case ConstantTerm(_) => Some(Null)
    case MinusTerm(a) => (
      match TermValue(a, row)
      case Some(Int(x)) => if x == -0x8000_0000_0000_0000 then None else Some(Int(-x))
      case _ => None)
    case Calculation(op, a, b) => (
      match (TermValue(a, row), TermValue(b, row))
      case (Some(Int(x)), Some(Int(y))) => (match Result(op, x, y) case None => None case Some(z) => Some(Int(z)))
      case _ => None)
  }

  /** Every term has a value among NULL, text, blobs and integers up to 2^53. */
  ghost predicate TermDefined(t: Term, row: seq<Mem>) {
    TermValue(t, row).Some? && Plain(TermValue(t, row).value)
  }

  ghost predicate AtomDefined(a: Atom, row: seq<Mem>) {
    match a
    case Comparing(_, x, y) => TermDefined(x, row) && TermDefined(y, row)
    case Negation(x) => AtomDefined(x, row)
  }

  ghost predicate TestDefined(t: Test, row: seq<Mem>) {
    match t
    case Plainly(a) => AtomDefined(a, row)
    case NonZero(x) => TermDefined(x, row)
    case IsZero(x) => TermDefined(x, row)
  }

  ghost predicate Defined(c: Condition, row: seq<Mem>) {
    match c
    case Is(t) => TestDefined(t, row)
    case Missing(_, t) => TermDefined(t, row)
    case Either(a, b) => TestDefined(a, row) && TestDefined(b, row)
    case Both(x, y) => Defined(x, row) && Defined(y, row)
  }

  ghost predicate AtomMeets(a: Atom, row: seq<Mem>)
    requires AtomDefined(a, row)
  {
    match a
    case Comparing(c, x, y) => Related(c, TermValue(x, row).value, TermValue(y, row).value)
    case Negation(x) => !AtomMeets(x, row)
  }

  ghost predicate TestMeets(t: Test, row: seq<Mem>)
    requires TestDefined(t, row)
  {
    match t
    case Plainly(a) => AtomMeets(a, row)
    case NonZero(x) =>
      var v := TermValue(x, row).value;
      !(v == Null || v == Int(0) || v == Text([]) || v == Blob([]))
    case IsZero(x) => TermValue(x, row).value == Int(0)
  }

  /** What the condition says of a row. */
  ghost predicate Meets(c: Condition, row: seq<Mem>)
    requires Defined(c, row)
  {
    match c
    case Is(t) => TestMeets(t, row)
    case Missing(not, t) => if not then TermValue(t, row) != Some(Null) else TermValue(t, row) == Some(Null)
    case Either(a, b) => TestMeets(a, row) || TestMeets(b, row)
    case Both(x, y) => Meets(x, row) && Meets(y, row)
  }

  // ---- Rows and their records ----

  /** A value as a register holds it. */
  function Loaded(v: R.Value): Mem {
    match v
    case Null => Null
    case Int(i) => Int(i)
    case Real(f) => Real(f)
    case Text(t) => Text(t)
    case Blob(b) => Blob(b)
    case ZeroBlob(n) => ZeroBlob(n)
  }

  function LoadedRow(vs: R.Row): (row: seq<Mem>)
    ensures |row| == |vs|
  {
    seq(|vs|, i requires 0 <= i < |vs| => Loaded(vs[i]))
  }

  /** The record holds the values, whose text is valid UTF-8. */
  ghost predicate Records(env: Env, data: Data, vs: R.Row) {
    && R.Encodable(vs) && data == R.EncodedRecord(vs)
    && forall i :: 0 <= i < |vs| ==> vs[i].Text? ==> env.lossy(vs[i].text) == vs[i].text
  }

  /** Each field of the record is the value at its place, and beyond the last one there is NULL. */
  lemma FieldIs(env: Env, data: Data, vs: R.Row, i: nat)
    requires Records(env, data, vs)
    ensures FieldOf(env, data, i) == Some(if i < |vs| then LoadedRow(vs)[i] else Null)
  {
    hide R.DecodedRecord, R.EncodedRecord;
    R.RecordRoundTrip(vs);
  }

  function RowContext(names: seq<string>, data: Data): Context {
    Context(Some(names), Some(data), [])
  }

  // ---- Evaluation ----

  lemma {:induction false} TermEval(env: Env, t: Term, names: seq<string>, data: Data, vs: R.Row)
    requires TermOver(t, names) && Records(env, data, vs) && |vs| == |names| && TermValue(t, LoadedRow(vs)).Some?
    ensures Eval(env, TermExpr(t), RowContext(names, data)) == TermValue(t, LoadedRow(vs))
    decreases t
  {
    hide FieldOf, Compute, Records, R.EncodedRecord, Position, Result;
    match t
    case ColumnTerm(ref) =>
      PositionIs(names, ref.name, ref.at);
      FieldIs(env, data, vs, ref.at);
    case ConstantTerm(l) =>
      if l.Number? {
        CutIs(l.i);
      }
    case MinusTerm(a) =>
      TermEval(env, a, names, data, vs);
      var x := TermValue(a, LoadedRow(vs)).value.i;
      MinusIs(env, x);
    case Calculation(op, a, b) =>
      TermEval(env, a, names, data, vs);
      TermEval(env, b, names, data, vs);
      ComputeIs(env, op, TermValue(a, LoadedRow(vs)).value.i, TermValue(b, LoadedRow(vs)).value.i);
  }

  lemma MinusIs(env: Env, x: I64)
    requires x != -0x8000_0000_0000_0000
    ensures Compute(env, Sub, Int(0), Int(x)) == Some(Int(-x))
  {
    ComputeIs(env, Sub, 0, x);
  }

  lemma {:induction false} AtomEval(env: Env, a: Atom, names: seq<string>, data: Data, vs: R.Row)
    requires Ordered(env) && AtomOver(a, names) && Records(env, data, vs) && |vs| == |names| && AtomDefined(a, LoadedRow(vs))
    ensures Eval(env, AtomExpr(a), RowContext(names, data)) == Some(Int(if AtomMeets(a, LoadedRow(vs)) then 1 else 0))
    decreases a
  {
    hide Records, Holds, Related, Ordered, TermValue;
    match a
    case Comparing(c, x, y) =>
      TermEval(env, x, names, data, vs);
      TermEval(env, y, names, data, vs);
      ComparisonIs(env, c, TermValue(x, LoadedRow(vs)).value, TermValue(y, LoadedRow(vs)).value);
    case Negation(x) =>
      AtomEval(env, x, names, data, vs);
      NegatedIs(env, Int(if AtomMeets(x, LoadedRow(vs)) then 1 else 0));
  }

  lemma NegatedIs(env: Env, v: Mem)
    requires Ordered(env) && Plain(v)
    ensures Negated(env, v) == if v == Null then Null else Int(if v == Int(0) then 1 else 0)
  {
    hide Holds;
    ComparisonIs(env, Eq, v, Int(0));
  }

  lemma TestEval(env: Env, t: Test, names: seq<string>, data: Data, vs: R.Row) returns (v: Mem)
    requires Ordered(env) && TestOver(t, names) && Records(env, data, vs) && |vs| == |names| && TestDefined(t, LoadedRow(vs))
    ensures Eval(env, TestExpr(t), RowContext(names, data)) == Some(v) && (IsTruthy(env, v) <==> TestMeets(t, LoadedRow(vs)))
  {
    hide Records, Ordered, AtomMeets, AtomExpr;
    match t
    case Plainly(a) =>
      AtomEval(env, a, names, data, vs);
      v := Int(if AtomMeets(a, LoadedRow(vs)) then 1 else 0);
    case NonZero(x) =>
      TermEval(env, x, names, data, vs);
      v := TermValue(x, LoadedRow(vs)).value;
    case IsZero(x) =>
      TermEval(env, x, names, data, vs);
      NegatedIs(env, TermValue(x, LoadedRow(vs)).value);
      v := Negated(env, TermValue(x, LoadedRow(vs)).value);
  }

  /** A row passes a condition exactly when the condition is true of its values. */
  lemma {:induction false} PassesIs(env: Env, c: Condition, names: seq<string>, data: Data, vs: R.Row)
    requires Ordered(env) && Over(c, names) && Records(env, data, vs) && |vs| == |names| && Defined(c, LoadedRow(vs))
    ensures Passes(env, ConditionExpr(c), RowContext(names, data)) == Some(Meets(c, LoadedRow(vs)))
    decreases c
  {
    hide Records, Ordered, TestMeets, Eval, IsTruthy, TermValue;
    match c
    case Is(t) =>
      var v := TestEval(env, t, names, data, vs);
      TestIsCase(t);
    case Missing(_, t) =>
      TermEval(env, t, names, data, vs);
    case Either(a, b) =>
      var v := TestEval(env, a, names, data, vs);
      var w := TestEval(env, b, names, data, vs);
    case Both(x, y) =>
      PassesIs(env, x, names, data, vs);
      PassesIs(env, y, names, data, vs);
  }

  /** A test is neither a conjunction nor a disjunction nor a NULL test. */
  lemma TestIsCase(t: Test)
    ensures
      var e := TestExpr(t);
      !e.NullTest? && !(e.Binary? && (e.bop.And? || e.bop.Or?))
  {
  }

  // ---- The compiler accepts them ----

  lemma {:induction false} TermCompiles(t: Term, sc: Scope, base: nat, reg: nat)
    requires sc.table.Some? && sc.bound == [] && TermOver(t, sc.table.value.columns)
    ensures CodeOf(TermExpr(t), sc, base, reg).Some?
    decreases t
  {
    hide Position;
    match t
    case ColumnTerm(ref) => PositionIs(sc.table.value.columns, ref.name, ref.at);
    case ConstantTerm(_) =>
    case MinusTerm(a) => TermCompiles(a, sc, base, reg);
    case Calculation(_, a, b) =>
      TermCompiles(a, sc, base, reg);
      var l := CodeOf(TermExpr(a), sc, base, reg).value;
      TermCompiles(b, sc, base + |l.ops|, l.next);
  }

  lemma {:induction false} AtomCompiles(a: Atom, sc: Scope, base: nat, reg: nat)
    requires sc.table.Some? && sc.bound == [] && AtomOver(a, sc.table.value.columns)
    ensures CodeOf(AtomExpr(a), sc, base, reg).Some?
    decreases a
  {
    match a
    case Comparing(_, x, y) =>
      TermCompiles(x, sc, base, reg);
      var l := CodeOf(TermExpr(x), sc, base, reg).value;
      TermCompiles(y, sc, base + |l.ops|, l.next);
    case Negation(x) => AtomCompiles(x, sc, base, reg);
  }

  lemma TestCompiles(t: Test, sc: Scope, base: nat, reg: nat)
    requires sc.table.Some? && sc.bound == [] && TestOver(t, sc.table.value.columns)
    ensures CodeOf(TestExpr(t), sc, base, reg).Some?
  {
    match t
    case Plainly(a) => AtomCompiles(a, sc, base, reg);
    case NonZero(x) => TermCompiles(x, sc, base, reg);
    case IsZero(x) => TermCompiles(x, sc, base, reg);
  }

  lemma {:induction false} ConditionCompiles(c: Condition, sc: Scope, base: nat, reg: nat, t: nat)
    requires sc.table.Some? && sc.bound == [] && Over(c, sc.table.value.columns)
    ensures WhereOf(ConditionExpr(c), sc, base, reg, t).Some?
    decreases c
  {
    hide CodeOf, TermOver, TestOver, TestExpr, TermExpr, OrOps;
    match c
    case Is(x) =>
      TestCompiles(x, sc, base, reg);
      TestIsCase(x);
    case Missing(_, x) => TermCompiles(x, sc, base, reg);
    case Either(a, b) =>
      TestCompiles(a, sc, base, reg);
      var l := CodeOf(TestExpr(a), sc, base, reg).value;
      TestCompiles(b, sc, base + |l.ops|, l.next);
    case Both(x, y) =>
      ConditionCompiles(x, sc, base, reg, t);
      var l := WhereOf(ConditionExpr(x), sc, base, reg, t).value;
      ConditionCompiles(y, sc, base + |l.ops|, l.next, t);
  }
}
