/** Register values of the virtual machine: truth, conversion, order and arithmetic. */
module Mem {
  import opened Bytes
  import L = LeafCells
  import R = Record

  type I64 = R.I64
  type Data = R.Data
  type Double = R.Double

  datatype Option<+T> = None | Some(value: T)
  datatype Order = Less | Equal | Greater

  /** Text is held as its UTF-8 bytes; Agg is the index of an accumulator. */
  datatype Mem =
    | Null
    | Int(i: I64)
    | Real(f: Double)
    | Text(text: Data)
    | Blob(blob: Data)
    | ZeroBlob(len: I64)
    | Agg(index: nat)

  /** An aggregate that has been fed these argument lists; its state is a function of them. */
  datatype Accumulator = Accumulator(name: string, fed: seq<seq<Mem>>)

  /** What the machine takes from outside: the page size, floating-point arithmetic, UTF-8 repair, functions and aggregates. */
  datatype Env = Env(
    pageSize: L.PageSize,
    asReal: I64 -> Double,
    asInt: Double -> I64,
    equal: (Double, Double) -> bool,
    less: (Double, Double) -> bool,
    lessEqual: (Double, Double) -> bool,
    total: (Double, Double) -> Order,
    zero: Double -> bool,
    lossy: Data -> Data,
    call: (string, seq<Mem>) -> Option<Mem>,
    known: string -> bool,
    accepts: (Accumulator, seq<Mem>) -> bool,
    final: Accumulator -> Option<Mem>)

  predicate IsTruthy(env: Env, m: Mem) {
    match m
    case Null => false
    case Int(i) => i != 0
    case Real(f) => !env.zero(f)
    case Text(s) => s != []
    case Blob(b) => b != []
    case ZeroBlob(_) => false
    case Agg(_) => false
  }

  function ToInt(env: Env, m: Mem): Option<I64> {
    match m
    case Int(i) => Some(i)
    case Real(f) => Some(env.asInt(f))
    case _ => None
  }

  function ToReal(env: Env, m: Mem): Option<Double> {
    match m
    case Real(f) => Some(f)
    case Int(i) => Some(env.asReal(i))
    case _ => None
  }

  // ---- Order ----

  function OrderInt(a: int, b: int): Order {
    if a < b then Less else if a == b then Equal else Greater
  }

  function OrderBytes(a: seq<Byte>, b: seq<Byte>): Order {
    if a == [] || b == [] then OrderInt(|a|, |b|)
    else if a[0] != b[0] then OrderInt(a[0], b[0])
    else OrderBytes(a[1..], b[1..])
  }

  function Opposite(o: Order): Order {
    match o case Less => Greater case Equal => Equal case Greater => Less
  }

  /** Null, then numbers, then text, then blobs. */
  function TypeClass(m: Mem): nat {
    match m
    case Null => 1
    case Int(_) => 2
    case Real(_) => 2
    case Text(_) => 3
    case Blob(_) => 4
    case ZeroBlob(_) => 4
    case Agg(_) => 5
  }

  /** A length cast to an unsigned 64-bit number. */
  function ZeroLength(n: I64): nat {
    if n < 0 then n + 0x1_0000_0000_0000_0000 else n
  }

  /** Compare bytes with a run of n zeros: the first non-zero byte of the common part decides, else the lengths. */
  function OrderZeros(b: seq<Byte>, n: nat): Order {
    if b == [] || n == 0 then OrderInt(|b|, n)
    else if b[0] != 0 then Greater
    else OrderZeros(b[1..], n - 1)
  }

  function Cmp(env: Env, a: Mem, b: Mem): Order {
    if TypeClass(a) != TypeClass(b) then OrderInt(TypeClass(a), TypeClass(b))
    else
      match (a, b)
      case (Int(i), Int(j)) => OrderInt(i, j)
      case (Real(f), Real(g)) => env.total(f, g)
      case (Int(i), Real(g)) => env.total(env.asReal(i), g)
      case (Real(f), Int(j)) => env.total(f, env.asReal(j))
      case (Text(s), Text(t)) => OrderBytes(s, t)
      case (Blob(s), Blob(t)) => OrderBytes(s, t)
      case (ZeroBlob(m), ZeroBlob(n)) => OrderInt(m, n)
      case (Blob(s), ZeroBlob(n)) => OrderZeros(s, ZeroLength(n))
      case (ZeroBlob(n), Blob(t)) => Opposite(OrderZeros(t, ZeroLength(n)))
      case _ => Equal
  }

  // ---- Comparison operators ----

  datatype Comparison = Eq | Ne | Lt | Le | Gt | Ge

  /** Two numbers are compared as floating-point numbers, anything else by equality or by Cmp. */
  predicate Holds(env: Env, c: Comparison, l: Mem, r: Mem) {
    match (ToReal(env, l), ToReal(env, r))
    case (Some(a), Some(b)) => (
      match c
      case Eq => env.equal(a, b)
      case Ne => !env.equal(a, b)
      case Lt => env.less(a, b)
      case Le => env.lessEqual(a, b)
      case Gt => env.less(b, a)
      case Ge => env.lessEqual(b, a))
    case _ => (
      match c
      case Eq => l == r
      case Ne => l != r
      case Lt => Cmp(env, l, r) == Less
      case Le => Cmp(env, l, r) != Greater
      case Gt => Cmp(env, l, r) == Greater
      case Ge => Cmp(env, l, r) != Less)
  }

  // ---- Arithmetic ----

  datatype Arithmetic = Add | Sub | Mul | Div | Mod

  /** Wrap-around to 64 bits. */
  function Wrap(i: int): I64 {
    var u := i % 0x1_0000_0000_0000_0000;
    if u >= 0x8000_0000_0000_0000 then u - 0x1_0000_0000_0000_0000 else u
  }

  /** Division that truncates toward zero. */
  function Quotient(a: int, b: int): int
    requires b != 0
  {
    if a >= 0 then a / b else -(-a / b)
  }

  /** None when an operand is not a number, on division by zero, and when the quotient does not fit. */
  function Compute(env: Env, op: Arithmetic, l: Mem, r: Mem): Option<Mem> {
    match (ToInt(env, l), ToInt(env, r))
    case (Some(a), Some(b)) => (
      match op
      case Add => Some(Int(Wrap(a + b)))
      case Sub => Some(Int(Wrap(a - b)))
      case Mul => Some(Int(Wrap(a * b)))
      case Div => if b == 0 || (b == -1 && a == -0x8000_0000_0000_0000) then None else Some(Int(Wrap(Quotient(a, b))))
      case Mod => if b == 0 || (b == -1 && a == -0x8000_0000_0000_0000) then None else Some(Int(Wrap(a - Quotient(a, b) * b))))
    case _ => None
  }

  // ---- Records ----

  function FromValue(env: Env, v: R.Value): Mem {
    match v
    case Null => Null
    case Int(i) => Int(i)
    case Real(f) => Real(f)
    case Text(t) => Text(env.lossy(t))
    case Blob(b) => Blob(b)
    case ZeroBlob(n) => ZeroBlob(n)
  }

  function ToValue(m: Mem): Option<R.Value> {
    match m
    case Null => Some(R.Null)
    case Int(i) => Some(R.Int(i))
    case Real(f) => Some(R.Real(f))
    case Text(t) => Some(R.Text(t))
    case Blob(b) => Some(R.Blob(b))
    case ZeroBlob(n) => Some(R.ZeroBlob(n))
    case Agg(_) => None
  }

  /** Field `col` of a record; None when the record does not decode. */
  function FieldOf(env: Env, data: seq<Byte>, col: nat): Option<Mem> {
    match R.DecodedRecord(data)
    case Err(_) => None
    case Ok(vs) => Some(if col < |vs| then FromValue(env, vs[col]) else Null)
  }
}
