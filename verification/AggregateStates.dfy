/** The built-in aggregates: how each takes the argument lists it is fed, and what it makes of them. */
module AggregateStates {
  import opened Mem
  import opened Ast
  import opened KeyOrder
  import opened Vdbe

  /** Floating-point arithmetic, and the reading of a value as a number. */
  datatype Doubles = Doubles(zero: Double, add: (Double, Double) -> Double, div: (Double, Double) -> Double, toReal: Mem -> Option<Double>)

  datatype State =
    | CountState(count: I64)
    | SumState(sum: Option<Mem>)
    | AvgState(total: Double, n: I64)
    | LeastState(least: Option<Mem>)
    | LargestState(largest: Option<Mem>)

  function NewState(d: Doubles, name: string): Option<State> {
    if SameName(name, "count") then Some(CountState(0))
    else if SameName(name, "sum") then Some(SumState(None))
    else if SameName(name, "avg") then Some(AvgState(d.zero, 0))
    else if SameName(name, "min") then Some(LeastState(None))
    else if SameName(name, "max") then Some(LargestState(None))
    else None
  }

  /** One more, wrapping around. */
  function Up(n: I64): I64 {
    if n == 0x7FFF_FFFF_FFFF_FFFF then -0x8000_0000_0000_0000 else n + 1
  }

  function AsReal(d: Doubles, v: Mem): Double {
    match d.toReal(v) case None => d.zero case Some(f) => f
  }

  /** Integers add up to an integer while it fits 64 bits. */
  function Added(env: Env, d: Doubles, sum: Option<Mem>, v: Mem): Option<Mem> {
    match sum
    case None => Some(if v.Int? || v.Real? then v else Real(AsReal(d, v)))
    case Some(Int(a)) => (
      match v
      case Int(i) =>
        var s := a as int + i;
        Some(if -0x8000_0000_0000_0000 <= s < 0x8000_0000_0000_0000 then Int(s) else Real(d.add(env.asReal(a), env.asReal(i))))
      case Real(f) => Some(Real(d.add(env.asReal(a), f)))
      case _ => Some(Real(d.add(env.asReal(a), AsReal(d, v)))))
    case Some(Real(a)) => Some(Real(d.add(a, AsReal(d, v))))
    case _ => sum
  }

  /** The first value, or the new one if it compares so. */
  function Better(env: Env, best: Option<Mem>, v: Mem, o: Order): Option<Mem> {
    if best == None || Cmp(env, v, best.value) == o then Some(v) else best
  }

  /** One argument list. Only COUNT looks at an empty one, and all but AVG pass over NULL. */
  function StepState(env: Env, d: Doubles, st: State, args: seq<Mem>): State {
    match st
    case CountState(n) => if args == [] || args[0] != Null then CountState(Up(n)) else st
    case SumState(sum) => if args == [] || args[0] == Null then st else SumState(Added(env, d, sum, args[0]))
    case AvgState(total, n) => (
      if args == [] then st else match d.toReal(args[0]) case None => st case Some(f) => AvgState(d.add(total, f), Up(n)))
    case LeastState(m) => if args == [] || args[0] == Null then st else LeastState(Better(env, m, args[0], Less))
    case LargestState(m) => if args == [] || args[0] == Null then st else LargestState(Better(env, m, args[0], Greater))
  }

  function FinalState(env: Env, d: Doubles, st: State): Mem {
    match st
    case CountState(n) => Int(n)
    case SumState(sum) => OrNull(sum)
    case AvgState(total, n) => if n == 0 then Null else Real(d.div(total, env.asReal(n)))
    case LeastState(m) => OrNull(m)
    case LargestState(m) => OrNull(m)
  }

  function OrNull(m: Option<Mem>): Mem {
    match m case None => Null case Some(v) => v
  }

  function AfterAll(env: Env, d: Doubles, st: State, fed: seq<seq<Mem>>): State {
    if fed == [] then st else StepState(env, d, AfterAll(env, d, st, fed[..|fed| - 1]), fed[|fed| - 1])
  }

  /** The environment's aggregates are the built-in ones. */
  ghost predicate Builtin(env: Env, d: Doubles) {
    && (forall name :: env.known(name) <==> NewState(d, name).Some?)
    && (forall acc, args :: env.accepts(acc, args))
    && (forall acc :: env.final(acc) == Finished(env, d, acc))
  }

  function Finished(env: Env, d: Doubles, acc: Accumulator): Option<Mem> {
    match NewState(d, acc.name) case None => None case Some(st) => Some(FinalState(env, d, AfterAll(env, d, st, acc.fed)))
  }

  // ---- What they compute ----

  /** The list counts: it is empty, or its first value is not NULL. */
  predicate Counts(args: seq<Mem>) {
    args == [] || args[0] != Null
  }

  ghost function Counted(fed: seq<seq<Mem>>): nat {
    if fed == [] then 0 else Counted(fed[..|fed| - 1]) + if Counts(fed[|fed| - 1]) then 1 else 0
  }

  /** It is the length of the ascending list of those that count. */
  lemma {:induction false} CountedIs(fed: seq<seq<Mem>>) returns (idx: seq<nat>)
    ensures |idx| == Counted(fed) && forall j, k :: 0 <= j < k < |idx| ==> idx[j] < idx[k]
    ensures forall i: nat :: i in idx <==> i < |fed| && Counts(fed[i])
    decreases |fed|
  {
    hide Counts;
    if fed == [] {
      idx := [];
    } else {
      var init, last: nat := fed[..|fed| - 1], |fed| - 1;
      var before := CountedIs(init);
      forall k | 0 <= k < |before| ensures before[k] < last {
        assert before[k] in before;
      }
      idx := if Counts(fed[last]) then before + [last] else before;
      forall i: nat ensures i in idx <==> i < |fed| && Counts(fed[i]) {
        assert i in before <==> i < |init| && Counts(init[i]);
        assert i in idx <==> i in before || (i == last && Counts(fed[last]));
      }
    }
  }

  lemma {:induction false} CountIs(env: Env, d: Doubles, fed: seq<seq<Mem>>)
    requires |fed| < 0x8000_0000_0000_0000
    ensures Counted(fed) <= |fed| && AfterAll(env, d, CountState(0), fed) == CountState(Counted(fed))
    decreases |fed|
  {
    if fed != [] {
      CountIs(env, d, fed[..|fed| - 1]);
    }
  }

  /** The value is one of those fed that are not NULL. */
  ghost predicate Occurs(fed: seq<seq<Mem>>, v: Mem) {
    v != Null && exists i :: 0 <= i < |fed| && fed[i] != [] && fed[i][0] == v
  }

  ghost predicate AllPlainFed(fed: seq<seq<Mem>>) {
    forall i :: 0 <= i < |fed| ==> AllPlain(fed[i])
  }

  /** The extreme of the values fed: it occurs, and nothing that occurs lies beyond; nothing when nothing occurs. */
  ghost predicate Extreme(fed: seq<seq<Mem>>, best: Option<Mem>, least: bool) {
    match best
    case None => forall w :: !Occurs(fed, w)
    case Some(v) => Occurs(fed, v) && forall w :: Occurs(fed, w) ==> !(if least then Smaller(w, v) else Smaller(v, w))
  }

  lemma OccursStep(fed: seq<seq<Mem>>, w: Mem)
    requires fed != []
    ensures
      var args := fed[|fed| - 1];
      Occurs(fed, w) <==> Occurs(fed[..|fed| - 1], w) || (w != Null && args != [] && args[0] == w)
  {
    var init := fed[..|fed| - 1];
    if Occurs(init, w) {
      var i :| 0 <= i < |init| && init[i] != [] && init[i][0] == w;
      assert fed[i] == init[i];
    }
    if Occurs(fed, w) {
      var i :| 0 <= i < |fed| && fed[i] != [] && fed[i][0] == w;
      assert i < |init| ==> init[i] == fed[i];
    }
  }

  lemma OccursPlain(fed: seq<seq<Mem>>, w: Mem)
    requires AllPlainFed(fed) && Occurs(fed, w)
    ensures Plain(w)
  {
  }

  lemma BetterIs(env: Env, fed: seq<seq<Mem>>, best: Option<Mem>, least: bool)
    requires fed != [] && AllPlainFed(fed) && Extreme(fed[..|fed| - 1], best, least)
    ensures
      var args := fed[|fed| - 1];
      Extreme(fed, if args == [] || args[0] == Null then best else Better(env, best, args[0], if least then Less else Greater), least)
  {
    hide Cmp, Plain, Smaller;
    var init, args := fed[..|fed| - 1], fed[|fed| - 1];
    forall w ensures Occurs(fed, w) <==> Occurs(init, w) || (w != Null && args != [] && args[0] == w) {
      OccursStep(fed, w);
    }
    assert AllPlain(args);
    hide Occurs;
    if args != [] && args[0] != Null {
      var v := args[0];
      assert Plain(v);
      OccursPlain(fed, v);
      CmpIs(env, v, v);
      forall w | Occurs(fed, w) ensures Plain(w) {
        OccursPlain(fed, w);
      }
      if best.Some? {
        assert AllPlainFed(init) by {
          forall i | 0 <= i < |init| ensures AllPlain(init[i]) {
            assert init[i] == fed[i];
          }
        }
        OccursPlain(init, best.value);
        CmpIs(env, v, best.value);
        forall w | Occurs(init, w) ensures Plain(w) && (Smaller(w, v) && Smaller(v, best.value) ==> Smaller(w, best.value))
          && (Smaller(v, w) && Smaller(best.value, v) ==> Smaller(best.value, w)) {
          OccursPlain(init, w);
          SmallerChain(env, w, v, best.value);
          SmallerChain(env, best.value, v, w);
        }
      }
    }
  }

  lemma SmallerChain(env: Env, a: Mem, b: Mem, c: Mem)
    requires Plain(a) && Plain(b) && Plain(c)
    ensures Smaller(a, b) && Smaller(b, c) ==> Smaller(a, c)
  {
    hide Cmp, Plain, Smaller;
    CmpIs(env, a, b);
    CmpIs(env, b, c);
    CmpIs(env, a, c);
    if Smaller(a, b) && Smaller(b, c) {
      CmpChain(env, a, b, c);
      if a == c {
        CmpIs(env, c, b);
      }
    }
  }

  lemma {:induction false} ExtremeIs(env: Env, d: Doubles, fed: seq<seq<Mem>>) returns (a: Option<Mem>, b: Option<Mem>)
    requires AllPlainFed(fed)
    ensures AfterAll(env, d, LeastState(None), fed) == LeastState(a) && Extreme(fed, a, true)
    ensures AfterAll(env, d, LargestState(None), fed) == LargestState(b) && Extreme(fed, b, false)
    decreases |fed|
  {
    hide Better, Extreme;
    if fed == [] {
      a, b := None, None;
      NoExtreme();
    } else {
      var init, args := fed[..|fed| - 1], fed[|fed| - 1];
      assert AllPlainFed(init);
      a, b := ExtremeIs(env, d, init);
      BetterIs(env, fed, a, true);
      BetterIs(env, fed, b, false);
      if args != [] && args[0] != Null {
        a, b := Better(env, a, args[0], Less), Better(env, b, args[0], Greater);
      }
    }
  }

  lemma NoExtreme()
    ensures Extreme([], None, true) && Extreme([], None, false)
  {
  }

  /** The sum of the integers among the first values. */
  ghost function Total(fed: seq<seq<Mem>>): int {
    if fed == [] then 0
    else
      var args := fed[|fed| - 1];
      Total(fed[..|fed| - 1]) + if args != [] && args[0].Int? then args[0].i as int else 0
  }

  /** The first n lists hold only integers and NULL, and their sum fits 64 bits. */
  ghost predicate SumFits(fed: seq<seq<Mem>>, n: nat)
    requires n <= |fed|
  {
    && -0x8000_0000_0000_0000 <= Total(fed[..n]) < 0x8000_0000_0000_0000
    && forall i :: 0 <= i < n ==> fed[i] == [] || fed[i][0].Int? || fed[i][0].Null?
  }

  /** No sum on the way leaves 64 bits. */
  ghost predicate Summable(fed: seq<seq<Mem>>) {
    forall n :: 0 <= n <= |fed| ==> SumFits(fed, n)
  }

  ghost predicate AnyOccurs(fed: seq<seq<Mem>>) {
    exists w :: Occurs(fed, w)
  }

  lemma AnyStep(fed: seq<seq<Mem>>)
    requires fed != []
    ensures
      var args := fed[|fed| - 1];
      AnyOccurs(fed) <==> AnyOccurs(fed[..|fed| - 1]) || (args != [] && args[0] != Null)
  {
    hide Occurs;
    var init, args := fed[..|fed| - 1], fed[|fed| - 1];
    forall w ensures Occurs(fed, w) <==> Occurs(init, w) || (w != Null && args != [] && args[0] == w) {
      OccursStep(fed, w);
    }
    assert args != [] && args[0] != Null ==> Occurs(fed, args[0]);
    assert AnyOccurs(init) ==> exists w :: Occurs(init, w) && Occurs(fed, w);
  }

  lemma {:induction false} SumIs(env: Env, d: Doubles, fed: seq<seq<Mem>>)
    requires Summable(fed)
    ensures -0x8000_0000_0000_0000 <= Total(fed) < 0x8000_0000_0000_0000
    ensures AfterAll(env, d, SumState(None), fed) == SumState(if AnyOccurs(fed) then Some(Int(Total(fed))) else None)
    ensures !AnyOccurs(fed) ==> Total(fed) == 0
    decreases |fed|
  {
    hide AnyOccurs;
    assert SumFits(fed, |fed|) && fed[..|fed|] == fed;
    if fed == [] {
      NoneOccur();
    } else {
      var init := fed[..|fed| - 1];
      forall n | 0 <= n <= |init| ensures SumFits(init, n) {
        assert SumFits(fed, n) && init[..n] == fed[..n];
      }
      SumIs(env, d, init);
      AnyStep(fed);
    }
  }

  lemma NoneOccur()
    ensures !AnyOccurs([])
  {
  }
}
