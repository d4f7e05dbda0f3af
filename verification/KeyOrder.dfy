/**
  Values on which the sort order is a total order that agrees with the comparison operators: NULL,
  text, blobs, and integers that a floating-point number holds exactly.
 */
module KeyOrder {
  import opened Bytes
  import opened Mem
  import opened Vdbe
  import R = Record

  /** Up to 2^53 a 64-bit floating-point number holds every integer. */
  predicate Exact(i: int) {
    -0x20_0000_0000_0000 <= i <= 0x20_0000_0000_0000
  }

  /** Conversion to floating point keeps exact integers apart, as IEEE 754 conversion does. */
  ghost predicate Faithful(env: Env) {
    forall i: I64, j: I64 :: Exact(i) && Exact(j) ==> (env.equal(env.asReal(i), env.asReal(j)) <==> i == j)
  }

  predicate Plain(m: Mem) {
    m.Null? || m.Text? || m.Blob? || (m.Int? && Exact(m.i))
  }

  predicate AllPlain(ms: seq<Mem>) {
    forall i :: 0 <= i < |ms| ==> Plain(ms[i])
  }

  // ---- Bytes ----

  lemma {:induction false} BytesEqual(a: seq<Byte>, b: seq<Byte>)
    ensures OrderBytes(a, b) == Equal <==> a == b
    ensures OrderBytes(b, a) == Opposite(OrderBytes(a, b))
    decreases |a|
  {
    if a != [] && b != [] && a[0] == b[0] {
      BytesEqual(a[1..], b[1..]);
      assert a == [a[0]] + a[1..] && b == [b[0]] + b[1..];
    }
  }

  lemma {:induction false} BytesChain(a: seq<Byte>, b: seq<Byte>, c: seq<Byte>)
    requires OrderBytes(a, b) != Greater && OrderBytes(b, c) != Greater
    ensures OrderBytes(a, c) != Greater
    decreases |a|
  {
    if a != [] && b != [] && c != [] && a[0] == b[0] == c[0] {
      BytesChain(a[1..], b[1..], c[1..]);
    }
  }

  /** Byte order: a proper prefix is smaller, and else the first byte that differs decides. */
  ghost predicate SmallerBytes(a: seq<Byte>, b: seq<Byte>) {
    || (|a| < |b| && a == b[..|a|])
    || exists i :: 0 <= i < |a| && i < |b| && a[..i] == b[..i] && a[i] < b[i]
  }

  lemma {:induction false} BytesLess(a: seq<Byte>, b: seq<Byte>)
    ensures OrderBytes(a, b) == Less <==> SmallerBytes(a, b)
    decreases |a|
  {
    if a != [] && b != [] && a[0] == b[0] {
      var x, y := a[1..], b[1..];
      BytesLess(x, y);
      assert |a| < |b| ==> (a == b[..|a|] <==> x == y[..|x|]) by {
        if |a| < |b| {
          assert b[..|a|] == [b[0]] + y[..|x|] && a == [a[0]] + x;
        }
      }
      if i :| 0 <= i < |x| && i < |y| && x[..i] == y[..i] && x[i] < y[i] {
        assert a[..i + 1] == [a[0]] + x[..i] && b[..i + 1] == [b[0]] + y[..i];
        assert a[i + 1] < b[i + 1];
      }
      if i :| 0 <= i < |a| && i < |b| && a[..i] == b[..i] && a[i] < b[i] {
        assert i > 0;
        assert x[..i - 1] == a[..i][1..] && y[..i - 1] == b[..i][1..];
        assert x[i - 1] < y[i - 1];
      }
    } else if a != [] && b != [] && a[0] < b[0] {
      assert a[..0] == b[..0];
    } else if a != [] && b != [] {
      assert |a| < |b| ==> a[0] != b[..|a|][0];
      forall i | 0 <= i < |a| && i < |b| && a[i] < b[i] ensures a[..i] != b[..i] {
        if i > 0 {
          assert a[..i][0] != b[..i][0];
        }
      }
    }
  }

  /** A run of n zeros compares with bytes as those n bytes would. */
  lemma {:induction false} ZerosAsBytes(b: seq<Byte>, n: nat)
    ensures OrderZeros(b, n) == OrderBytes(b, Zeros(n))
    decreases n
  {
    if b != [] && n > 0 && b[0] == 0 {
      ZerosAsBytes(b[1..], n - 1);
      assert Zeros(n)[1..] == Zeros(n - 1);
    }
  }

  // ---- One value ----

  /** The order of values: NULL, then integers by value, then text, then blobs, both in byte order. */
  ghost predicate Smaller(a: Mem, b: Mem) {
    match a
    case Null => !b.Null?
    case Int(i) => b.Text? || b.Blob? || (b.Int? && i < b.i)
    case Text(s) => b.Blob? || (b.Text? && SmallerBytes(s, b.text))
    case Blob(s) => b.Blob? && SmallerBytes(s, b.blob)
    case _ => false
  }

  lemma CmpIs(env: Env, a: Mem, b: Mem)
    requires Plain(a) && Plain(b)
    ensures Cmp(env, a, b) == Less <==> Smaller(a, b)
    ensures Cmp(env, a, b) == Equal <==> a == b
    ensures Cmp(env, a, b) == Greater <==> Smaller(b, a)
  {
    hide SmallerBytes, OrderBytes;
    CmpTotal(env, a, b);
    match (a, b)
    case (Text(s), Text(t)) => BytesLess(s, t); BytesLess(t, s); BytesEqual(s, t);
    case (Blob(s), Blob(t)) => BytesLess(s, t); BytesLess(t, s); BytesEqual(s, t);
    case _ =>
  }

  /** Values outside that class: real numbers stand among the integers, and zero-blobs are blobs of zeros. */
  lemma CmpOthers(env: Env, f: Double, g: Double, i: I64, s: Data, n: I64)
    requires n >= 0
    ensures Cmp(env, Real(f), Real(g)) == env.total(f, g)
    ensures Cmp(env, Int(i), Real(f)) == env.total(env.asReal(i), f) && Cmp(env, Real(f), Int(i)) == env.total(f, env.asReal(i))
    ensures Cmp(env, Null, Real(f)) == Less && Cmp(env, Real(f), Text(s)) == Less && Cmp(env, Real(f), Blob(s)) == Less
    ensures Cmp(env, Blob(s), ZeroBlob(n)) == OrderBytes(s, Zeros(n)) && Cmp(env, ZeroBlob(n), Blob(s)) == Opposite(OrderBytes(s, Zeros(n)))
    ensures Cmp(env, Text(s), ZeroBlob(n)) == Less
  {
    ZerosAsBytes(s, n);
  }

  lemma CmpTotal(env: Env, a: Mem, b: Mem)
    requires Plain(a) && Plain(b)
    ensures Cmp(env, a, b) == Equal <==> a == b
    ensures Cmp(env, b, a) == Opposite(Cmp(env, a, b))
  {
    match (a, b)
    case (Text(s), Text(t)) => BytesEqual(s, t);
    case (Blob(s), Blob(t)) => BytesEqual(s, t);
    case _ =>
  }

  lemma CmpChain(env: Env, a: Mem, b: Mem, c: Mem)
    requires Plain(a) && Plain(b) && Plain(c) && Cmp(env, a, b) != Greater && Cmp(env, b, c) != Greater
    ensures Cmp(env, a, c) != Greater
  {
    match (a, b, c)
    case (Text(s), Text(t), Text(u)) => BytesChain(s, t, u);
    case (Blob(s), Blob(t), Blob(u)) => BytesChain(s, t, u);
    case _ =>
  }

  lemma NeMeansDifferent(env: Env, a: Mem, b: Mem)
    requires Faithful(env) && Plain(a) && Plain(b)
    ensures Holds(env, Ne, a, b) <==> a != b
  {
  }

  /** The floating-point comparisons of exact integers follow the order of the integers, as those of IEEE 754 do. */
  ghost predicate Ordered(env: Env) {
    && Faithful(env)
    && (forall i: I64, j: I64 :: Exact(i) && Exact(j) ==> (env.less(env.asReal(i), env.asReal(j)) <==> i < j))
    && (forall i: I64, j: I64 :: Exact(i) && Exact(j) ==> (env.lessEqual(env.asReal(i), env.asReal(j)) <==> i <= j))
  }

  /** What the six comparisons ask of two values. */
  ghost predicate Related(c: Comparison, a: Mem, b: Mem) {
    match c
    case Eq => a == b
    case Ne => a != b
    case Lt => Smaller(a, b)
    case Le => Smaller(a, b) || a == b
    case Gt => Smaller(b, a)
    case Ge => Smaller(b, a) || a == b
  }

  lemma ComparisonIs(env: Env, c: Comparison, a: Mem, b: Mem)
    requires Ordered(env) && Plain(a) && Plain(b)
    ensures Holds(env, c, a, b) <==> Related(c, a, b)
  {
    hide SmallerBytes, Cmp;
    CmpIs(env, a, b);
  }

  // ---- Lists of values ----

  /** The first value that differs decides. */
  ghost predicate SmallerList(a: seq<Mem>, b: seq<Mem>) {
    exists i :: 0 <= i < |a| && i < |b| && a[..i] == b[..i] && Smaller(a[i], b[i])
  }

  lemma {:induction false} ListsLess(env: Env, a: seq<Mem>, b: seq<Mem>)
    requires |a| == |b| && AllPlain(a) && AllPlain(b)
    ensures CmpLists(env, a, b) == Less <==> SmallerList(a, b)
    decreases |a|
  {
    hide Cmp, Plain, Smaller;
    if a != [] {
      CmpIs(env, a[0], b[0]);
      if a[0] == b[0] {
        var x, y := a[1..], b[1..];
        ListsLess(env, x, y);
        if i :| 0 <= i < |x| && i < |y| && x[..i] == y[..i] && Smaller(x[i], y[i]) {
          assert a[..i + 1] == [a[0]] + x[..i] && b[..i + 1] == [b[0]] + y[..i];
          assert Smaller(a[i + 1], b[i + 1]);
        }
        if i :| 0 <= i < |a| && i < |b| && a[..i] == b[..i] && Smaller(a[i], b[i]) {
          CmpIs(env, a[i], b[i]);
          assert i > 0;
          assert x[..i - 1] == a[..i][1..] && y[..i - 1] == b[..i][1..];
          assert Smaller(x[i - 1], y[i - 1]);
        }
      } else {
        if Smaller(a[0], b[0]) {
          assert a[..0] == b[..0];
        }
        forall i | 0 < i < |a| ensures a[..i] != b[..i] {
          assert a[..i][0] != b[..i][0];
        }
      }
    }
  }

  /** Field by field; of two lists where one continues the other, the shorter one is less. */
  function CmpLists(env: Env, a: seq<Mem>, b: seq<Mem>): Order {
    if a == [] || b == [] then OrderInt(|a|, |b|)
    else
      var o := Cmp(env, a[0], b[0]);
      if o != Equal then o else CmpLists(env, a[1..], b[1..])
  }

  lemma {:induction false} ListsTotal(env: Env, a: seq<Mem>, b: seq<Mem>)
    requires AllPlain(a) && AllPlain(b)
    ensures CmpLists(env, a, b) == Equal <==> a == b
    ensures CmpLists(env, b, a) == Opposite(CmpLists(env, a, b))
    decreases |a|
  {
    hide Cmp, Plain;
    if a != [] && b != [] {
      CmpTotal(env, a[0], b[0]);
      if a[0] == b[0] {
        ListsTotal(env, a[1..], b[1..]);
        assert a == [a[0]] + a[1..] && b == [b[0]] + b[1..];
      }
    }
  }

  lemma {:induction false} ListsChain(env: Env, a: seq<Mem>, b: seq<Mem>, c: seq<Mem>)
    requires AllPlain(a) && AllPlain(b) && AllPlain(c)
    requires CmpLists(env, a, b) != Greater && CmpLists(env, b, c) != Greater
    ensures CmpLists(env, a, c) != Greater
    decreases |a|
  {
    hide Cmp, Plain;
    if a != [] && b != [] && c != [] {
      CmpChain(env, a[0], b[0], c[0]);
      CmpTotal(env, a[0], b[0]);
      CmpTotal(env, b[0], c[0]);
      CmpTotal(env, a[0], c[0]);
      if a[0] == c[0] {
        if a[0] == b[0] {
          ListsChain(env, a[1..], b[1..], c[1..]);
        }
      }
    }
  }

  /** The values of a record's fields as the comparison sees them. */
  function Shown(env: Env, vs: seq<R.Value>): (ms: seq<Mem>)
    ensures |ms| == |vs| && forall i :: 0 <= i < |vs| ==> ms[i] == FromValue(env, vs[i])
  {
    seq(|vs|, i requires 0 <= i < |vs| => FromValue(env, vs[i]))
  }

  lemma {:induction false} FieldsAsLists(env: Env, a: seq<R.Value>, b: seq<R.Value>)
    ensures CmpFields(env, a, b) == CmpLists(env, Shown(env, a), Shown(env, b))
    decreases |a|
  {
    hide Cmp, FromValue;
    if a != [] && b != [] {
      FieldsAsLists(env, a[1..], b[1..]);
      assert Shown(env, a)[1..] == Shown(env, a[1..]);
      assert Shown(env, b)[1..] == Shown(env, b[1..]);
    }
  }

  // ---- Floating-point numbers ----

  /** What a number is as a floating-point number. */
  ghost predicate Reads(env: Env, m: Mem, f: Double) {
    match m case Int(i) => f == env.asReal(i) case Real(g) => f == g case _ => false
  }

  /** The six comparisons of two numbers are those of floating-point arithmetic, one of them turned around for > and >=. */
  lemma NumbersCompare(env: Env, a: Mem, b: Mem, x: Double, y: Double)
    requires Reads(env, a, x) && Reads(env, b, y)
    ensures (Holds(env, Eq, a, b) <==> env.equal(x, y)) && (Holds(env, Ne, a, b) <==> !env.equal(x, y))
    ensures (Holds(env, Lt, a, b) <==> env.less(x, y)) && (Holds(env, Gt, b, a) <==> env.less(x, y))
    ensures (Holds(env, Le, a, b) <==> env.lessEqual(x, y)) && (Holds(env, Ge, b, a) <==> env.lessEqual(x, y))
  {
  }

  /** Arithmetic takes a floating-point operand for the integer it is cut to, and fails on anything that is no number. */
  lemma RealOperands(env: Env, op: Arithmetic, f: Double, m: Mem)
    ensures Compute(env, op, Real(f), m) == Compute(env, op, Int(env.asInt(f)), m)
    ensures Compute(env, op, m, Real(f)) == Compute(env, op, m, Int(env.asInt(f)))
    ensures !(m.Int? || m.Real?) ==> forall n :: Compute(env, op, m, n) == None && Compute(env, op, n, m) == None
  {
  }

  /** A floating-point number is true unless it is zero; a zero blob is false, whatever its length. */
  lemma RealTruth(env: Env, f: Double, n: I64)
    ensures (IsTruthy(env, Real(f)) <==> !env.zero(f)) && !IsTruthy(env, ZeroBlob(n))
  {
  }
}
