/** SELECT … WHERE … GROUP BY with aggregates, in terms of the rows' values alone. */
module GroupQueries {
  import opened Bytes
  import opened Mem
  import opened Vdbe
  import opened Ast
  import opened ExprCode
  import opened WhereCode
  import opened Projection
  import opened SelectMeaning
  import opened KeyOrder
  import opened Condition
  import opened GroupCode
  import opened GroupBlocks
  import opened GroupMeaning
  import opened GroupSort
  import opened GroupOrder
  import opened AggregateStates
  import opened Interpreter
  import R = Record
  import Q = Queries
  import Statement

  /** An output column: one of the keys, or an aggregate of a column, of its distinct values, or of the rows themselves. */
  datatype Output = ShowKey(k: nat) | ShowAggregate(fname: string, distinct: bool, arg: Option<Ref>)

  // ---- As a query ----

  function OutputExpr(o: Output, keys: seq<Ref>): Expr {
    match o
    case ShowKey(k) => if k < |keys| then Expr.Column(keys[k].name) else OtherExpr
    case ShowAggregate(f, _, None) => Call(f, ArgKind.Star, Nil)
    case ShowAggregate(f, distinct, Some(ref)) => Call(f, if distinct then ArgKind.Distinct else ArgKind.List, Cons(Expr.Column(ref.name), Nil))
  }

  function OutputExprs(outs: seq<Output>, keys: seq<Ref>): (es: seq<Expr>)
    ensures |es| == |outs| && forall i :: 0 <= i < |es| ==> es[i] == OutputExpr(outs[i], keys)
  {
    seq(|outs|, i requires 0 <= i < |outs| => OutputExpr(outs[i], keys))
  }

  function Columns(refs: seq<Ref>): (es: seq<Expr>)
    ensures |es| == |refs| && forall i :: 0 <= i < |es| ==> es[i] == Expr.Column(refs[i].name)
  {
    seq(|refs|, i requires 0 <= i < |refs| => Expr.Column(refs[i].name))
  }

  function QueryOf(outs: seq<Output>, keys: seq<Ref>, c: Condition, names: seq<string>, root: int): GroupQuery {
    GroupQuery(OutputExprs(outs, keys), Columns(keys), Some(ConditionExpr(c)), root, names)
  }

  ghost predicate RefsOver(refs: seq<Ref>, names: seq<string>) {
    forall i :: 0 <= i < |refs| ==> Named(names, refs[i].name, refs[i].at)
  }

  ghost predicate AggregateName(f: string) {
    SameLetters(f, "count") || SameLetters(f, "sum") || SameLetters(f, "avg") || SameLetters(f, "min") || SameLetters(f, "max")
  }

  ghost predicate OutputOver(o: Output, keys: seq<Ref>, names: seq<string>) {
    match o
    case ShowKey(k) => k < |keys|
    case ShowAggregate(f, distinct, arg) => AggregateName(f) && if arg.Some? then Named(names, arg.value.name, arg.value.at) else !distinct
  }

  ghost predicate OutputsOver(outs: seq<Output>, keys: seq<Ref>, names: seq<string>) {
    forall i :: 0 <= i < |outs| ==> OutputOver(outs[i], keys, names)
  }

  // ---- Values ----

  /** The columns of a row that the references name. */
  function Values(refs: seq<Ref>, row: seq<Mem>): (vs: seq<Mem>)
    ensures |vs| == |refs| && forall i :: 0 <= i < |vs| ==> vs[i] == if refs[i].at < |row| then row[refs[i].at] else Null
  {
    seq(|refs|, i requires 0 <= i < |refs| => if refs[i].at < |row| then row[refs[i].at] else Null)
  }

  function ArgRefs(o: Output): seq<Ref> {
    if o.ShowAggregate? && o.arg.Some? then [o.arg.value] else []
  }

  /** The arguments of the first k aggregates. */
  function CallRefs(calls: seq<Output>, k: nat): seq<Ref>
    requires k <= |calls|
  {
    if k == 0 then [] else CallRefs(calls, k - 1) + ArgRefs(calls[k - 1])
  }

  // ---- The result ----

  /** The argument lists that the rows of a group feed an aggregate. */
  function FedLists(o: Output, vals: seq<R.Row>, group: seq<nat>): (fed: seq<seq<Mem>>)
    requires InRange(group, |vals|)
    ensures |fed| == |group| && forall a :: 0 <= a < |fed| ==> fed[a] == Values(ArgRefs(o), LoadedRow(vals[group[a]]))
  {
    seq(|group|, a requires 0 <= a < |group| => Values(ArgRefs(o), LoadedRow(vals[group[a]])))
  }

  ghost predicate InRange(group: seq<nat>, n: nat) {
    forall a :: 0 <= a < |group| ==> group[a] < n
  }

  /** A group's key is the one its rows have; without rows it is all NULL. */
  function GroupKey(keys: seq<Ref>, vals: seq<R.Row>, group: seq<nat>): (ks: seq<Mem>)
    requires InRange(group, |vals|)
    ensures |ks| == |keys|
  {
    if group == [] then Nulls(|keys|) else Values(keys, LoadedRow(vals[group[0]]))
  }

  ghost predicate AllInRange(groups: seq<seq<nat>>, n: nat) {
    forall k :: 0 <= k < |groups| ==> InRange(groups[k], n)
  }

  /** Row i of the table is row a of group k. */
  ghost predicate Member(groups: seq<seq<nat>>, k: nat, a: nat, i: nat) {
    k < |groups| && a < |groups[k]| && groups[k][a] == i
  }

  ghost predicate Somewhere(groups: seq<seq<nat>>, i: nat) {
    exists k, a :: Member(groups, k, a, i)
  }

  /**
    The groups hold exactly the rows that meet the condition, each once; the rows of a group share its key, the
    keys ascend, and no group is empty, except that without any such row there is one group, of no rows.
   */
  ghost predicate Grouping(c: Condition, vals: seq<R.Row>, keys: seq<Ref>, groups: seq<seq<nat>>) {
    && AllInRange(groups, |vals|)
    && (forall i :: 0 <= i < |vals| ==> (Q.Chosen(c, vals[i]) <==> Somewhere(groups, i)))
    && (forall k, a, l, b, i :: Member(groups, k, a, i) && Member(groups, l, b, i) ==> k == l && a == b)
    && (forall k, a :: 0 <= k < |groups| && 0 <= a < |groups[k]| ==> HasKey(keys, vals, groups[k], a))
    && (forall k, l :: 0 <= k < l < |groups| ==> SmallerList(GroupKey(keys, vals, groups[k]), GroupKey(keys, vals, groups[l])))
    && ((forall k :: 0 <= k < |groups| ==> groups[k] != []) || ((forall i :: 0 <= i < |vals| ==> !Q.Chosen(c, vals[i])) && groups == [[]]))
    && groups != []
  }

  ghost predicate HasKey(keys: seq<Ref>, vals: seq<R.Row>, group: seq<nat>, a: nat)
    requires InRange(group, |vals|) && a < |group|
  {
    Values(keys, LoadedRow(vals[group[a]])) == GroupKey(keys, vals, group)
  }

  /** What an output column shows for a group. */
  ghost predicate Shows(env: Env, o: Output, keys: seq<Ref>, vals: seq<R.Row>, group: seq<nat>, v: Mem)
    requires InRange(group, |vals|)
  {
    match o
    case ShowKey(k) => k < |keys| && v == GroupKey(keys, vals, group)[k]
    case ShowAggregate(f, _, _) => env.final(Accumulator(f, FedLists(o, vals, group))) == Some(v)
  }

  ghost predicate RowShows(env: Env, outs: seq<Output>, keys: seq<Ref>, vals: seq<R.Row>, group: seq<nat>, row: seq<Mem>)
    requires InRange(group, |vals|)
  {
    |row| == |outs| && forall t :: 0 <= t < |outs| ==> Shows(env, outs[t], keys, vals, group, row[t])
  }

  /** In every row that meets the condition, keys and arguments are NULL, integers of 53 bits, text or blobs. */
  ghost predicate PlainRows(outs: seq<Output>, keys: seq<Ref>, c: Condition, vals: seq<R.Row>) {
    forall i :: 0 <= i < |vals| && Q.Chosen(c, vals[i]) ==> PlainRow(outs, keys, LoadedRow(vals[i]))
  }

  ghost predicate PlainRow(outs: seq<Output>, keys: seq<Ref>, row: seq<Mem>) {
    AllPlain(Values(keys, row)) && forall t :: 0 <= t < |outs| ==> AllPlain(Values(ArgRefs(outs[t]), row))
  }

  // ---- The aggregates of the query ----

  ghost predicate AggregateCall(e: Expr) {
    e.Call? && AggregateName(e.fname)
  }

  lemma AggregateCallIs(e: Expr)
    ensures IsAggregate(e) <==> AggregateCall(e)
  {
    hide SameName, SameLetters;
    if e.Call? {
      SameNameIs(e.fname, "count");
      SameNameIs(e.fname, "sum");
      SameNameIs(e.fname, "avg");
      SameNameIs(e.fname, "min");
      SameNameIs(e.fname, "max");
    }
  }

  /** e is an aggregate call somewhere in x, outside any call. */
  ghost predicate Within(e: Expr, x: Expr)
    decreases x
  {
    if AggregateCall(x) then e == x
    else
      match x
      case Unary(_, y) => Within(e, y)
      case Binary(_, y, z) => Within(e, y) || Within(e, z)
      case NullTest(_, y) => Within(e, y)
      case _ => false
  }

  ghost predicate Distinct(es: seq<Expr>) {
    forall i, j :: 0 <= i < j < |es| ==> es[i] != es[j]
  }

  lemma {:induction false} ExtractIs(x: Expr, found: seq<Expr>)
    requires Distinct(found)
    ensures Distinct(Extract(x, found)) && forall e :: e in Extract(x, found) <==> e in found || Within(e, x)
    decreases x
  {
    hide IsAggregate, AggregateCall;
    AggregateCallIs(x);
    if !IsAggregate(x) {
      match x
      case Unary(_, y) => ExtractIs(y, found);
      case Binary(_, y, z) =>
        ExtractIs(y, found);
        ExtractIs(z, Extract(y, found));
      case NullTest(_, y) => ExtractIs(y, found);
      case _ =>
    }
  }

  /** The aggregates of a query are the aggregate calls that occur in its columns outside other calls, each once. */
  lemma {:induction false} AggregatesIff(columns: seq<Expr>)
    ensures Distinct(Aggregates(columns))
    ensures forall e :: e in Aggregates(columns) <==> exists i :: 0 <= i < |columns| && Within(e, columns[i])
    decreases |columns|
  {
    hide Distinct, Within, Extract;
    if columns == [] {
      assert Distinct([]) by {
        NothingTwice();
      }
    } else {
      var init, last := columns[..|columns| - 1], columns[|columns| - 1];
      AggregatesIff(init);
      ExtractIs(last, Aggregates(init));
      forall e ensures (exists i :: 0 <= i < |columns| && Within(e, columns[i])) <==> (exists i :: 0 <= i < |init| && Within(e, init[i])) || Within(e, last) {
        if exists i :: 0 <= i < |init| && Within(e, init[i]) {
          var i :| 0 <= i < |init| && Within(e, init[i]);
          assert Within(e, columns[i]);
        }
        if exists i :: 0 <= i < |columns| && Within(e, columns[i]) {
          var i :| 0 <= i < |columns| && Within(e, columns[i]);
          assert i < |init| ==> Within(e, init[i]);
        }
      }
    }
  }

  lemma NothingTwice()
    ensures Distinct([])
  {
  }

  lemma AggregateNameIs(o: Output, keys: seq<Ref>)
    requires o.ShowAggregate?
    ensures IsAggregate(OutputExpr(o, keys)) <==> AggregateName(o.fname)
  {
    AggregateCallIs(OutputExpr(o, keys));
  }

  /** The expression is this aggregate of the outputs. */
  ghost predicate IsCall(outs: seq<Output>, keys: seq<Ref>, o: Output, e: Expr) {
    o.ShowAggregate? && o in outs && e == OutputExpr(o, keys)
  }

  /** The expressions are the aggregates of the outputs. */
  ghost predicate CallsAre(outs: seq<Output>, keys: seq<Ref>, calls: seq<Output>, aggs: seq<Expr>) {
    && |calls| == |aggs|
    && (forall j :: 0 <= j < |calls| ==> IsCall(outs, keys, calls[j], aggs[j]))
    && (forall o :: o in outs && o.ShowAggregate? ==> OutputExpr(o, keys) in aggs)
  }

  lemma {:induction false} AggregatesAre(outs: seq<Output>, keys: seq<Ref>, names: seq<string>) returns (calls: seq<Output>)
    requires OutputsOver(outs, keys, names)
    ensures CallsAre(outs, keys, calls, Aggregates(OutputExprs(outs, keys)))
    decreases |outs|
  {
    hide OutputExpr, OutputOver, Extract, CallsAre;
    if outs == [] {
      calls := [];
      assert CallsAre(outs, keys, calls, Aggregates(OutputExprs(outs, keys))) by {
        NoCalls(keys);
      }
    } else {
      var init, last := outs[..|outs| - 1], outs[|outs| - 1];
      assert OutputExprs(outs, keys)[..|outs| - 1] == OutputExprs(init, keys);
      var before := AggregatesAre(init, keys, names);
      var found := Aggregates(OutputExprs(init, keys));
      assert Aggregates(OutputExprs(outs, keys)) == Extract(OutputExpr(last, keys), found);
      assert OutputOver(last, keys, names);
      ExtractOutput(last, keys, names, found);
      calls := OneMoreCall(init, last, keys, before, found);
      assert outs == init + [last];
    }
  }

  lemma NoCalls(keys: seq<Ref>)
    ensures CallsAre([], keys, [], Aggregates(OutputExprs([], keys)))
  {
  }

  lemma OneMoreCall(init: seq<Output>, last: Output, keys: seq<Ref>, before: seq<Output>, found: seq<Expr>) returns (calls: seq<Output>)
    requires CallsAre(init, keys, before, found)
    ensures
      var e := OutputExpr(last, keys);
      CallsAre(init + [last], keys, calls, if last.ShowKey? || e in found then found else found + [e])
  {
    hide OutputExpr;
    var e, outs := OutputExpr(last, keys), init + [last];
    var more := !last.ShowKey? && e !in found;
    calls := if more then before + [last] else before;
    var aggs := if more then found + [e] else found;
    forall j | 0 <= j < |calls| ensures IsCall(outs, keys, calls[j], aggs[j]) {
      assert j < |before| ==> IsCall(init, keys, before[j], found[j]);
    }
    forall o | o in outs && o.ShowAggregate? ensures OutputExpr(o, keys) in aggs {
      assert o in init || o == last;
    }
  }

  lemma ExtractOutput(o: Output, keys: seq<Ref>, names: seq<string>, found: seq<Expr>)
    requires OutputOver(o, keys, names)
    ensures Extract(OutputExpr(o, keys), found) == if o.ShowKey? || OutputExpr(o, keys) in found then found else found + [OutputExpr(o, keys)]
  {
    if o.ShowAggregate? {
      AggregateNameIs(o, keys);
    }
  }

  // ---- The fields of a sorter record ----

  lemma {:induction false} AppendSeq(a: seq<Expr>, b: seq<Expr>)
    ensures Append(FromSeq(a), FromSeq(b)) == FromSeq(a + b)
    decreases |a|
  {
    if a == [] {
      assert a + b == b;
    } else {
      AppendSeq(a[1..], b);
      assert (a + b)[1..] == a[1..] + b;
    }
  }

  lemma ArgsOf(o: Output, keys: seq<Ref>)
    requires o.ShowAggregate?
    ensures ArgList(OutputExpr(o, keys)) == FromSeq(Columns(ArgRefs(o))) && ArgCount(OutputExpr(o, keys)) == |ArgRefs(o)|
  {
    if o.arg.Some? {
      var es := Columns(ArgRefs(o));
      assert es[1..] == [];
    }
  }

  lemma {:induction false} ArgsAre(outs: seq<Output>, keys: seq<Ref>, calls: seq<Output>, aggs: seq<Expr>, k: nat)
    requires CallsAre(outs, keys, calls, aggs) && k <= |calls|
    ensures forall i :: 0 <= i < |aggs| ==> aggs[i].Call?
    ensures AllArgs(aggs, k) == FromSeq(Columns(CallRefs(calls, k))) && ArgOffset(aggs, k) == |CallRefs(calls, k)|
    decreases k
  {
    forall i | 0 <= i < |aggs| ensures aggs[i].Call? {
      assert IsCall(outs, keys, calls[i], aggs[i]);
    }
    if k > 0 {
      ArgsAre(outs, keys, calls, aggs, k - 1);
      assert IsCall(outs, keys, calls[k - 1], aggs[k - 1]);
      hide ArgCount, ArgList, CallsAre, FromSeq, Columns, ArgRefs, Append;
      ArgsOf(calls[k - 1], keys);
      AppendSeq(Columns(CallRefs(calls, k - 1)), Columns(ArgRefs(calls[k - 1])));
      ColumnsJoin(CallRefs(calls, k - 1), ArgRefs(calls[k - 1]));
    }
  }

  lemma ColumnsJoin(a: seq<Ref>, b: seq<Ref>)
    ensures Columns(a) + Columns(b) == Columns(a + b)
  {
  }

  /** A sorter record holds the keys, then the argument of each aggregate. */
  lemma FieldsAre(outs: seq<Output>, keys: seq<Ref>, calls: seq<Output>, q: GroupQuery)
    requires q.columns == OutputExprs(outs, keys) && q.groupBy == Columns(keys) && CallsAre(outs, keys, calls, Aggregates(q.columns))
    ensures FieldExprs(q) == FromSeq(Columns(keys + CallRefs(calls, |calls|)))
  {
    hide Aggregates, AllArgs, Append, FromSeq;
    var refs := CallRefs(calls, |calls|);
    ArgsAre(outs, keys, calls, Aggregates(q.columns), |calls|);
    AppendSeq(Columns(keys), Columns(refs));
    ColumnsJoin(keys, refs);
  }

  /** All the references are to columns of the table. */
  lemma {:induction false} CallsOver(outs: seq<Output>, keys: seq<Ref>, names: seq<string>, calls: seq<Output>, aggs: seq<Expr>, k: nat)
    requires OutputsOver(outs, keys, names) && CallsAre(outs, keys, calls, aggs) && k <= |calls|
    ensures RefsOver(CallRefs(calls, k), names)
    decreases k
  {
    hide Named, AggregateName;
    if k > 0 {
      CallsOver(outs, keys, names, calls, aggs, k - 1);
      assert IsCall(outs, keys, calls[k - 1], aggs[k - 1]);
    }
  }

  /** The arguments of aggregate j lie behind those of the aggregates before it. */
  lemma {:induction false} RefsAt(calls: seq<Output>, k: nat, j: nat)
    requires j < k <= |calls|
    ensures
      var all, before := CallRefs(calls, k), CallRefs(calls, j);
      |before| + |ArgRefs(calls[j])| <= |all| && all[|before|..|before| + |ArgRefs(calls[j])|] == ArgRefs(calls[j])
    decreases k
  {
    hide ArgRefs;
    var all, before, mine := CallRefs(calls, k), CallRefs(calls, j), ArgRefs(calls[j]);
    if j < k - 1 {
      RefsAt(calls, k - 1, j);
      var a := CallRefs(calls, k - 1);
      assert all[|before|..|before| + |mine|] == a[|before|..|before| + |mine|];
    }
  }

  // ---- Evaluation beside aggregates ----

  predicate CallFree(e: Expr) {
    match e
    case Unary(_, x) => CallFree(x)
    case Binary(_, x, y) => CallFree(x) && CallFree(y)
    case NullTest(_, x) => CallFree(x)
    case Call(_, _, _) => false
    case _ => true
  }

  lemma {:induction false} TermFree(t: Term)
    ensures CallFree(TermExpr(t))
    decreases t
  {
    match t
    case MinusTerm(a) => TermFree(a);
    case Calculation(_, a, b) =>
      TermFree(a);
      TermFree(b);
    case _ =>
  }

  lemma {:induction false} AtomFree(a: Atom)
    ensures CallFree(AtomExpr(a))
    decreases a
  {
    match a
    case Comparing(_, x, y) =>
      TermFree(x);
      TermFree(y);
    case Negation(x) => AtomFree(x);
  }

  lemma {:induction false} ConditionFree(c: Condition)
    ensures CallFree(ConditionExpr(c))
    decreases c
  {
    match c
    case Is(t) => TestFree(t);
    case Missing(_, t) => TermFree(t);
    case Either(a, b) =>
      TestFree(a);
      TestFree(b);
    case Both(x, y) =>
      ConditionFree(x);
      ConditionFree(y);
  }

  lemma TestFree(t: Test)
    ensures CallFree(TestExpr(t))
  {
    match t
    case Plainly(a) => AtomFree(a);
    case NonZero(x) => TermFree(x);
    case IsZero(x) => TermFree(x);
  }

  ghost predicate AllCalls(es: seq<Expr>) {
    forall i :: 0 <= i < |es| ==> es[i].Call?
  }

  ghost predicate KnownCalls(known: seq<(Expr, Mem)>) {
    forall i :: 0 <= i < |known| ==> known[i].0.Call?
  }

  ghost predicate BoundCalls(bound: Bound) {
    forall i :: 0 <= i < |bound| ==> bound[i].0.Call?
  }

  lemma {:induction false} NotKnown(known: seq<(Expr, Mem)>, e: Expr)
    requires KnownCalls(known) && !e.Call?
    ensures Known(known, e) == None
    decreases |known|
  {
    if known != [] {
      NotKnown(known[1..], e);
    }
  }

  lemma {:induction false} NotBound(bound: Bound, e: Expr)
    requires BoundCalls(bound) && !e.Call?
    ensures Find(bound, e) == None
    decreases |bound|
  {
    if bound != [] {
      NotBound(bound[1..], e);
    }
  }

  /** What is known of calls does not matter to an expression without calls. */
  lemma {:induction false} EvalFree(env: Env, e: Expr, ctx: Context, known: seq<(Expr, Mem)>)
    requires CallFree(e) && ctx.known == [] && KnownCalls(known)
    ensures Eval(env, e, ctx.(known := known)) == Eval(env, e, ctx)
    decreases e
  {
    hide Compute, BinaryValue, Negated, ColumnValue, Known;
    NotKnown(known, e);
    NotKnown([], e);
    match e
    case Unary(_, x) => EvalFree(env, x, ctx, known);
    case Binary(_, x, y) =>
      EvalFree(env, x, ctx, known);
      EvalFree(env, y, ctx, known);
    case Column(name) => ColumnFree(env, name, ctx, known);
    case _ =>
  }

  lemma ColumnFree(env: Env, name: string, ctx: Context, known: seq<(Expr, Mem)>)
    ensures ColumnValue(env, name, ctx.(known := known)) == ColumnValue(env, name, ctx)
  {
  }

  lemma {:induction false} PassesFree(env: Env, e: Expr, ctx: Context, known: seq<(Expr, Mem)>)
    requires CallFree(e) && ctx.known == [] && KnownCalls(known)
    ensures Passes(env, e, ctx.(known := known)) == Passes(env, e, ctx)
    decreases e
  {
    hide Eval, IsTruthy;
    EvalFree(env, e, ctx, known);
    match e
    case Binary(And, x, y) =>
      PassesFree(env, x, ctx, known);
      PassesFree(env, y, ctx, known);
    case Binary(_, x, y) =>
      EvalFree(env, x, ctx, known);
      EvalFree(env, y, ctx, known);
    case NullTest(_, x) => EvalFree(env, x, ctx, known);
    case _ =>
  }

  lemma {:induction false} CodeFree(e: Expr, sc: Scope, bound: Bound, base: nat, reg: nat)
    requires CallFree(e) && sc.bound == [] && BoundCalls(bound)
    ensures CodeOf(e, sc.(bound := bound), base, reg) == CodeOf(e, sc, base, reg)
    decreases e
  {
    hide BinaryCode, LiteralCode, NotOps, Find;
    NotBound(bound, e);
    NotBound([], e);
    match e
    case Unary(_, x) => CodeFree(x, sc, bound, base, reg);
    case Binary(_, x, y) =>
      CodeFree(x, sc, bound, base, reg);
      var l := CodeOf(x, sc, base, reg);
      if l.Some? {
        CodeFree(y, sc, bound, base + |l.value.ops|, l.value.next);
      }
    case _ =>
  }

  lemma {:induction false} WhereFree(e: Expr, sc: Scope, bound: Bound, base: nat, reg: nat, t: nat)
    requires CallFree(e) && sc.bound == [] && BoundCalls(bound)
    ensures WhereOf(e, sc.(bound := bound), base, reg, t) == WhereOf(e, sc, base, reg, t)
    decreases e
  {
    hide CodeOf, OrOps;
    CodeFree(e, sc, bound, base, reg);
    match e
    case Binary(And, x, y) =>
      WhereFree(x, sc, bound, base, reg, t);
      var l := WhereOf(x, sc, base, reg, t);
      if l.Some? {
        WhereFree(y, sc, bound, base + |l.value.ops|, l.value.next, t);
      }
    case Binary(_, x, y) =>
      CodeFree(x, sc, bound, base, reg);
      var l := CodeOf(x, sc, base, reg);
      if l.Some? {
        CodeFree(y, sc, bound, base + |l.value.ops|, l.value.next);
      }
    case NullTest(_, x) => CodeFree(x, sc, bound, base, reg);
    case _ =>
  }

  // ---- The records of the scan ----

  /** The record stores these values. */
  ghost predicate RecordIs(env: Env, rec: Data, ms: seq<Mem>) {
    && Q.Storable(ms) && Records(env, rec, Q.StoredRow(ms))
  }

  lemma StoredLoads(ms: seq<Mem>)
    requires Q.Storable(ms)
    ensures LoadedRow(Q.StoredRow(ms)) == ms
  {
    hide R.EncodedRecord;
  }

  lemma RecordMade(env: Env, ms: seq<Mem>)
    requires forall i :: 0 <= i < |ms| ==> !ms[i].Agg? && !ms[i].ZeroBlob? && (ms[i].Text? ==> env.lossy(ms[i].text) == ms[i].text)
    ensures if RecordOf(ms).Some? then RecordIs(env, RecordOf(ms).value, ms) else !Q.Storable(ms)
  {
    hide R.EncodedRecord;
    Q.StoredValues(ms);
  }

  lemma RecordFieldsAre(env: Env, rec: Data, ms: seq<Mem>)
    requires RecordIs(env, rec, ms)
    ensures Shown(env, Fields(rec)) == ms
    ensures forall i :: 0 <= i < |ms| ==> FieldOf(env, rec, i) == Some(ms[i])
  {
    hide R.DecodedRecord, R.EncodedRecord;
    StoredLoads(ms);
    R.RecordRoundTrip(Q.StoredRow(ms));
    forall i | 0 <= i < |ms| ensures FieldOf(env, rec, i) == Some(ms[i]) {
      FieldIs(env, rec, Q.StoredRow(ms), i);
    }
  }

  lemma {:induction false} FieldsSlice(env: Env, rec: Data, ms: seq<Mem>, col: nat, n: nat)
    requires RecordIs(env, rec, ms) && col + n <= |ms|
    ensures FieldsFrom(env, rec, col, n) == Some(ms[col..col + n])
    decreases n
  {
    hide *;
    if n > 0 {
      FieldsSlice(env, rec, ms, col, n - 1);
      RecordFieldsAre(env, rec, ms);
    }
    FieldsStep(env, rec, ms, col, n);
  }

  lemma FieldsStep(env: Env, rec: Data, ms: seq<Mem>, col: nat, n: nat)
    requires col + n <= |ms|
    requires n > 0 ==> FieldsFrom(env, rec, col, n - 1) == Some(ms[col..col + n - 1]) && FieldOf(env, rec, col + n - 1) == Some(ms[col + n - 1])
    ensures FieldsFrom(env, rec, col, n) == Some(ms[col..col + n])
  {
    hide FieldOf;
    assert ms[col..col] == [];
    if n > 0 {
      assert ms[col..col + n] == ms[col..col + n - 1] + [ms[col + n - 1]];
    }
  }

  lemma {:induction false} ColumnsEval(env: Env, refs: seq<Ref>, names: seq<string>, data: Data, vs: R.Row, known: seq<(Expr, Mem)>)
    requires RefsOver(refs, names) && Records(env, data, vs) && |vs| == |names| && KnownCalls(known)
    ensures EvalAll(env, FromSeq(Columns(refs)), Context(Some(names), Some(data), known)) == Some(Values(refs, LoadedRow(vs)))
    decreases |refs|
  {
    hide Known, FieldOf, Records, Position, Named;
    if refs != [] {
      var rest := refs[1..];
      assert Columns(refs)[1..] == Columns(rest);
      ColumnsEval(env, rest, names, data, vs, known);
      ColumnEval(env, refs[0], names, data, vs, known);
      assert Values(refs, LoadedRow(vs)) == [LoadedRow(vs)[refs[0].at]] + Values(rest, LoadedRow(vs)) by {
        InTable(refs[0], names);
      }
    }
  }

  lemma InTable(ref: Ref, names: seq<string>)
    requires Named(names, ref.name, ref.at)
    ensures ref.at < |names|
  {
  }

  lemma ColumnEval(env: Env, ref: Ref, names: seq<string>, data: Data, vs: R.Row, known: seq<(Expr, Mem)>)
    requires Named(names, ref.name, ref.at) && Records(env, data, vs) && |vs| == |names| && KnownCalls(known)
    ensures ref.at < |vs| && Eval(env, Expr.Column(ref.name), Context(Some(names), Some(data), known)) == Some(LoadedRow(vs)[ref.at])
  {
    hide FieldOf, Records, Known;
    NotKnown(known, Expr.Column(ref.name));
    PositionIs(names, ref.name, ref.at);
    FieldIs(env, data, vs, ref.at);
  }

  /** A query over a table, with its aggregates and the columns of its sorter records. */
  ghost predicate Posed(outs: seq<Output>, keys: seq<Ref>, c: Condition, names: seq<string>, root: int, calls: seq<Output>, q: GroupQuery, refs: seq<Ref>) {
    && OutputsOver(outs, keys, names) && RefsOver(keys, names) && Over(c, names) && q == QueryOf(outs, keys, c, names, root)
    && CallsAre(outs, keys, calls, Aggregates(q.columns)) && refs == keys + CallRefs(calls, |calls|)
  }

  lemma PosedRefs(outs: seq<Output>, keys: seq<Ref>, c: Condition, names: seq<string>, root: int, calls: seq<Output>, q: GroupQuery, refs: seq<Ref>)
    requires Posed(outs, keys, c, names, root, calls, q, refs)
    ensures RefsOver(refs, names) && FieldExprs(q) == FromSeq(Columns(refs))
  {
    hide Aggregates, Named, Over, OutputOver;
    CallsOver(outs, keys, names, calls, Aggregates(q.columns), |calls|);
    FieldsAre(outs, keys, calls, q);
  }

  lemma CallsKnown(q: GroupQuery, vs: seq<Mem>)
    requires |vs| == |Aggregates(q.columns)|
    ensures KnownCalls(Zip(Aggregates(q.columns), vs))
  {
  }

  /** A row makes a sorter record of its keys and arguments exactly when it meets the condition. */
  lemma EntryIs(env: Env, outs: seq<Output>, keys: seq<Ref>, c: Condition, names: seq<string>, root: int, calls: seq<Output>, q: GroupQuery,
                refs: seq<Ref>, data: Data, vs: R.Row)
    requires Ordered(env) && Posed(outs, keys, c, names, root, calls, q, refs)
    requires Records(env, data, vs) && |vs| == |names| && Defined(c, LoadedRow(vs))
    ensures
      var e, ms := Entry(env, q, data), Values(refs, LoadedRow(vs));
      if !Q.Chosen(c, vs) then e == Some(None) else if e.Some? then e.value.Some? && RecordIs(env, e.value.value, ms) else !Q.Storable(ms)
  {
    hide Ordered, CallsAre, OutputsOver, RecordOf, Aggregates, ConditionExpr, Passes, FieldExprs, FromSeq, RecordIs, R.EncodedRecord, Meets, Defined, EvalAll, Q.Storable;
    var aggs := Aggregates(q.columns);
    var known := Zip(aggs, Nulls(|aggs|));
    CallsKnown(q, Nulls(|aggs|));
    ConditionFree(c);
    PassesFree(env, ConditionExpr(c), Context(Some(names), Some(data), []), known);
    PassesIs(env, c, names, data, vs);
    PosedRefs(outs, keys, c, names, root, calls, q, refs);
    ColumnsEval(env, refs, names, data, vs, known);
    RefsLoad(env, refs, names, data, vs);
    RecordMade(env, Values(refs, LoadedRow(vs)));
  }

  lemma RefsLoad(env: Env, refs: seq<Ref>, names: seq<string>, data: Data, vs: R.Row)
    requires Records(env, data, vs)
    ensures
      var ms := Values(refs, LoadedRow(vs));
      forall i :: 0 <= i < |ms| ==> !ms[i].Agg? && !ms[i].ZeroBlob? && (ms[i].Text? ==> env.lossy(ms[i].text) == ms[i].text)
  {
    hide R.EncodedRecord;
  }

  /** idx lists, in order, the rows before n that meet the condition. */
  ghost predicate Listed(c: Condition, vals: seq<R.Row>, idx: seq<nat>, n: nat)
    requires n <= |vals|
  {
    && (forall j, k :: 0 <= j < k < |idx| ==> idx[j] != idx[k])
    && (forall i: nat :: i in idx <==> i < n && Q.Chosen(c, vals[i]))
  }

  /** The records hold the values of the rows listed. */
  ghost predicate RecordsAre(env: Env, refs: seq<Ref>, vals: seq<R.Row>, idx: seq<nat>, recs: seq<Data>) {
    && |recs| == |idx|
    && forall k :: 0 <= k < |idx| ==> idx[k] < |vals| && RecordIs(env, recs[k], Values(refs, LoadedRow(vals[idx[k]])))
  }

  ghost predicate RowsStorable(refs: seq<Ref>, c: Condition, vals: seq<R.Row>) {
    forall i :: 0 <= i < |vals| && Q.Chosen(c, vals[i]) ==> Q.Storable(Values(refs, LoadedRow(vals[i])))
  }

  lemma {:induction false} CollectIs(env: Env, outs: seq<Output>, keys: seq<Ref>, c: Condition, names: seq<string>, root: int, calls: seq<Output>,
                                     q: GroupQuery, refs: seq<Ref>, table: seq<TableRow>, vals: seq<R.Row>, i: nat, recs: seq<Data>, idx: seq<nat>)
      returns (all: seq<nat>)
    requires Ordered(env) && Posed(outs, keys, c, names, root, calls, q, refs) && Q.Contents(env, names, table, vals, c)
    requires i <= |table| && Listed(c, vals, idx, i) && RecordsAre(env, refs, vals, idx, recs)
    ensures
      var r := Collect(env, q, table, i, recs);
      if r.Some? then Listed(c, vals, all, |vals|) && RecordsAre(env, refs, vals, all, r.value) else !RowsStorable(refs, c, vals)
    decreases |table| - i
  {
    hide Ordered, Posed, Entry, RecordIs, Records, Defined, Q.Chosen, Q.Storable, Values;
    all := idx;
    if i < |table| {
      EntryIs(env, outs, keys, c, names, root, calls, q, refs, table[i].data, vals[i]);
      var e := Entry(env, q, table[i].data);
      if e.Some? {
        if e.value.Some? {
          OneMoreListed(c, vals, idx, i);
          all := CollectIs(env, outs, keys, c, names, root, calls, q, refs, table, vals, i + 1, recs + [e.value.value], idx + [i]);
        } else {
          all := CollectIs(env, outs, keys, c, names, root, calls, q, refs, table, vals, i + 1, recs, idx);
        }
      }
    }
  }

  lemma OneMoreListed(c: Condition, vals: seq<R.Row>, idx: seq<nat>, i: nat)
    requires i < |vals| && Listed(c, vals, idx, i) && Q.Chosen(c, vals[i])
    ensures Listed(c, vals, idx + [i], i + 1)
  {
    hide Q.Chosen;
    var more := idx + [i];
    forall k | 0 <= k < |idx| ensures idx[k] < i {
      assert idx[k] in idx;
    }
    forall j: nat ensures j in more <==> j < i + 1 && Q.Chosen(c, vals[j]) {
      assert j in more <==> j in idx || j == i;
    }
  }

  // ---- The permutation of the sort ----

  /** p lists each index below n once. */
  ghost predicate Permutation(p: seq<nat>, n: nat) {
    && (forall i, j :: 0 <= i < j < |p| ==> p[i] != p[j])
    && (forall i: nat :: i in p <==> i < n)
  }

  ghost predicate Permutes(a: seq<Data>, b: seq<Data>, p: seq<nat>) {
    |p| == |a| && forall i :: 0 <= i < |a| ==> p[i] < |b| && a[i] == b[p[i]]
  }

  lemma {:induction false} SameElements(a: seq<Data>, b: seq<Data>) returns (p: seq<nat>)
    requires multiset(a) == multiset(b)
    ensures Permutes(a, b, p) && Permutation(p, |b|)
    decreases |a|
  {
    hide *;
    if |a| == 0 {
      p := [];
      NothingPermuted(a, b);
    } else {
      var j := LastFound(a, b);
      var init, rest := a[..|a| - 1], b[..j] + b[j + 1..];
      var before := SameElements(init, rest);
      p := Inserted(before, j);
      Reinserted(before, |rest|, j);
      PermutesMore(a, b, j, before);
    }
  }

  lemma NothingPermuted(a: seq<Data>, b: seq<Data>)
    requires multiset(a) == multiset(b) && |a| == 0
    ensures Permutes(a, b, []) && Permutation([], |b|)
  {
    assert |multiset(b)| == |multiset(a)| == 0;
  }

  lemma LastFound(a: seq<Data>, b: seq<Data>) returns (j: nat)
    requires multiset(a) == multiset(b) && a != []
    ensures j < |b| && b[j] == a[|a| - 1] && multiset(a[..|a| - 1]) == multiset(b[..j] + b[j + 1..])
  {
    var init, x := a[..|a| - 1], a[|a| - 1];
    assert x in multiset(b);
    j :| j < |b| && b[j] == x;
    TakenOut(b, j);
    TakenOut(a, |a| - 1);
    assert a[..|a| - 1] + a[|a| - 1 + 1..] == init;
    SameRest(multiset(init), multiset(b[..j] + b[j + 1..]), x);
  }

  lemma SameRest(a: multiset<Data>, b: multiset<Data>, x: Data)
    requires a + multiset{x} == b + multiset{x}
    ensures a == b
  {
    assert a == a + multiset{x} - multiset{x};
  }

  lemma PermutesMore(a: seq<Data>, b: seq<Data>, j: nat, before: seq<nat>)
    requires a != [] && j < |b| && b[j] == a[|a| - 1] && Permutes(a[..|a| - 1], b[..j] + b[j + 1..], before)
    ensures Permutes(a, b, Inserted(before, j))
  {
    var init, rest, p := a[..|a| - 1], b[..j] + b[j + 1..], Inserted(before, j);
    forall i | 0 <= i < |a| ensures p[i] < |b| && a[i] == b[p[i]] {
      assert i < |init| ==> a[i] == init[i] == rest[before[i]];
    }
  }

  lemma TakenOut(b: seq<Data>, j: nat)
    requires j < |b|
    ensures multiset(b) == multiset(b[..j] + b[j + 1..]) + multiset{b[j]}
  {
    assert b == b[..j] + [b[j]] + b[j + 1..];
  }

  /** Make room at j, then add j. */
  function Inserted(p: seq<nat>, j: nat): (r: seq<nat>)
    ensures |r| == |p| + 1 && r[|p|] == j && forall i :: 0 <= i < |p| ==> r[i] == if p[i] < j then p[i] else p[i] + 1
  {
    seq(|p|, i requires 0 <= i < |p| => if p[i] < j then p[i] else p[i] + 1) + [j]
  }

  lemma Reinserted(p: seq<nat>, n: nat, j: nat)
    requires Permutation(p, n) && j <= n
    ensures Permutation(Inserted(p, j), n + 1)
  {
    var r := Inserted(p, j);
    forall i | 0 <= i < |p| ensures p[i] < n {
      assert p[i] in p;
    }
    forall i: nat ensures i in r <==> i < n + 1 {
      if i < n + 1 && i != j {
        var was := if i < j then i else i - 1;
        assert was in p;
        var t :| 0 <= t < |p| && p[t] == was;
        assert r[t] == i;
      }
    }
  }

  // ---- One group ----

  /** The aggregates can do their work: they are known, take any arguments, and end in a value. */
  ghost predicate Works(env: Env) {
    && (forall acc, args :: env.accepts(acc, args))
    && (forall name :: AggregateName(name) ==> env.known(name))
    && (forall acc: Accumulator :: AggregateName(acc.name) ==> env.final(acc).Some?)
  }

  function StateOf(o: Output, vals: seq<R.Row>, group: seq<nat>): Option<Accumulator>
    requires o.ShowAggregate? && InRange(group, |vals|)
  {
    if group == [] then None else Some(Accumulator(o.fname, FedLists(o, vals, group)))
  }

  /** The states after the rows of the group. */
  ghost predicate StatesAre(calls: seq<Output>, vals: seq<R.Row>, group: seq<nat>, st: States)
    requires InRange(group, |vals|)
  {
    |st| == |calls| && forall j :: 0 <= j < |calls| ==> calls[j].ShowAggregate? && st[j] == StateOf(calls[j], vals, group)
  }

  lemma ArgsInRecord(env: Env, keys: seq<Ref>, calls: seq<Output>, rec: Data, row: seq<Mem>, j: nat)
    requires j < |calls| && RecordIs(env, rec, Values(keys + CallRefs(calls, |calls|), row))
    ensures FieldsFrom(env, rec, |keys| + |CallRefs(calls, j)|, |ArgRefs(calls[j])|) == Some(Values(ArgRefs(calls[j]), row))
  {
    hide RecordIs, FieldsFrom, ArgRefs;
    var all, before, mine := CallRefs(calls, |calls|), CallRefs(calls, j), ArgRefs(calls[j]);
    var ms, col, n := Values(keys + all, row), |keys| + |before|, |mine|;
    RefsAt(calls, |calls|, j);
    FieldsSlice(env, rec, ms, col, n);
    forall t | 0 <= t < n ensures (keys + all)[col + t] == mine[t] {
      assert all[|before| + t] == all[|before|..|before| + n][t];
    }
    assert ms[col..col + n] == Values(mine, row);
  }

  lemma FedOne(env: Env, o: Output, keys: seq<Ref>, vals: seq<R.Row>, group: seq<nat>, i: nat)
    requires o.ShowAggregate? && InRange(group, |vals|) && i < |vals|
    ensures InRange(group + [i], |vals|)
    ensures
      var r := Fed(env, OutputExpr(o, keys), StateOf(o, vals, group), Values(ArgRefs(o), LoadedRow(vals[i])));
      && (r.Some? ==> r == StateOf(o, vals, group + [i]))
      && (Works(env) && AggregateName(o.fname) ==> r.Some?)
  {
    hide AggregateName;
    var next := group + [i];
    forall a | 0 <= a < |next| ensures next[a] < |vals| {
      assert a < |group| ==> next[a] == group[a];
    }
    assert FedLists(o, vals, group + [i]) == FedLists(o, vals, group) + [Values(ArgRefs(o), LoadedRow(vals[i]))];
    var args := Values(ArgRefs(o), LoadedRow(vals[i]));
    assert |next| > 0 && StateOf(o, vals, next) == Some(Accumulator(o.fname, FedLists(o, vals, next)));
    assert group == [] ==> FedLists(o, vals, next) == [args];
    assert NameOf(OutputExpr(o, keys)) == o.fname;
  }

  /** Feeding one aggregate its argument from the record. */
  lemma FedNext(env: Env, outs: seq<Output>, keys: seq<Ref>, names: seq<string>, calls: seq<Output>, aggs: seq<Expr>, vals: seq<R.Row>,
                group: seq<nat>, rec: Data, i: nat, j: nat)
    requires OutputsOver(outs, keys, names) && CallsAre(outs, keys, calls, aggs) && j < |calls|
    requires InRange(group, |vals|) && i < |vals| && InRange(group + [i], |vals|) && calls[j].ShowAggregate?
    requires RecordIs(env, rec, Values(keys + CallRefs(calls, |calls|), LoadedRow(vals[i])))
    ensures
      var args := FieldsFrom(env, rec, |keys| + ArgOffset(aggs, j), ArgCount(aggs[j]));
      var r := if args == None then None else Fed(env, aggs[j], StateOf(calls[j], vals, group), args.value);
      args.Some? && (r.Some? ==> r == StateOf(calls[j], vals, group + [i])) && (Works(env) ==> r.Some?)
  {
    hide Fed, FieldsFrom, Works, StateOf, RecordIs, OutputExpr, AggregateName, Named, ArgOffset, ArgCount, ArgRefs, CallRefs;
    var o := calls[j];
    assert IsCall(outs, keys, o, aggs[j]);
    ArgsAre(outs, keys, calls, aggs, j);
    ArgsOf(o, keys);
    ArgsInRecord(env, keys, calls, rec, LoadedRow(vals[i]), j);
    FedOne(env, o, keys, vals, group, i);
    assert OutputOver(o, keys, names);
  }

  lemma {:induction false} FedAllIs(env: Env, outs: seq<Output>, keys: seq<Ref>, names: seq<string>, calls: seq<Output>, aggs: seq<Expr>, vals: seq<R.Row>,
                                    group: seq<nat>, st: States, rec: Data, i: nat, k: nat)
    requires OutputsOver(outs, keys, names) && CallsAre(outs, keys, calls, aggs) && k <= |calls|
    requires InRange(group, |vals|) && i < |vals| && InRange(group + [i], |vals|) && StatesAre(calls, vals, group, st)
    requires RecordIs(env, rec, Values(keys + CallRefs(calls, |calls|), LoadedRow(vals[i])))
    ensures
      var r := FedAll(env, |keys|, aggs, st, rec, k);
      && (r.Some? ==> forall j :: 0 <= j < k ==> r.value[j] == StateOf(calls[j], vals, group + [i]))
      && (Works(env) ==> r.Some?)
    decreases k
  {
    hide Fed, FieldsFrom, Works, StateOf, RecordIs, ArgOffset, ArgCount, CallRefs, Values, OutputsOver, IsCall;
    if k > 0 {
      FedAllIs(env, outs, keys, names, calls, aggs, vals, group, st, rec, i, k - 1);
      FedNext(env, outs, keys, names, calls, aggs, vals, group, rec, i, k - 1);
    }
  }

  lemma FedRecord(env: Env, outs: seq<Output>, keys: seq<Ref>, names: seq<string>, calls: seq<Output>, aggs: seq<Expr>, vals: seq<R.Row>,
                  group: seq<nat>, st: States, rec: Data, i: nat)
    requires OutputsOver(outs, keys, names) && CallsAre(outs, keys, calls, aggs)
    requires InRange(group, |vals|) && i < |vals| && InRange(group + [i], |vals|) && StatesAre(calls, vals, group, st)
    requires RecordIs(env, rec, Values(keys + CallRefs(calls, |calls|), LoadedRow(vals[i])))
    ensures
      var r := FedAll(env, |keys|, aggs, st, rec, |aggs|);
      (r.Some? ==> StatesAre(calls, vals, group + [i], r.value)) && (Works(env) ==> r.Some?)
  {
    hide RecordIs, FedAll, Works, StateOf, IsCall, Values, CallRefs;
    FedAllIs(env, outs, keys, names, calls, aggs, vals, group, st, rec, i, |calls|);
  }

  /** The aggregates after the records of a group have been fed exactly the arguments of its rows. */
  lemma {:induction false} FoldIs(env: Env, outs: seq<Output>, keys: seq<Ref>, c: Condition, names: seq<string>, root: int, calls: seq<Output>,
                                  q: GroupQuery, refs: seq<Ref>, vals: seq<R.Row>, group: seq<nat>, recs: seq<Data>)
    requires Posed(outs, keys, c, names, root, calls, q, refs) && InRange(group, |vals|) && RecordsAre(env, refs, vals, group, recs)
    ensures
      var r := Fold(env, q, recs);
      (r.Some? ==> StatesAre(calls, vals, group, r.value)) && (Works(env) ==> r.Some?)
    decreases |group|
  {
    hide FedAll, RecordIs, Works, OutputsOver, Over, RefsOver, Aggregates, StatesAre, Values, CallRefs;
    hide CallsAre;
    if group == [] {
      StatesStart(outs, keys, calls, Aggregates(q.columns), vals);
    } else {
      var init, i := group[..|group| - 1], group[|group| - 1];
      var before := recs[..|recs| - 1];
      FoldIs(env, outs, keys, c, names, root, calls, q, refs, vals, init, before);
      assert group == init + [i];
      var st := Fold(env, q, before);
      if st.Some? {
        FedRecord(env, outs, keys, names, calls, Aggregates(q.columns), vals, init, st.value, recs[|recs| - 1], i);
      }
    }
  }

  lemma StatesStart(outs: seq<Output>, keys: seq<Ref>, calls: seq<Output>, aggs: seq<Expr>, vals: seq<R.Row>)
    requires CallsAre(outs, keys, calls, aggs)
    ensures StatesAre(calls, vals, [], NoStates(|aggs|))
  {
    forall j | 0 <= j < |calls| ensures calls[j].ShowAggregate? {
      assert IsCall(outs, keys, calls[j], aggs[j]);
    }
  }

  /** What the aggregate ends in. */
  ghost predicate FinalIs(env: Env, o: Output, vals: seq<R.Row>, group: seq<nat>, v: Mem)
    requires InRange(group, |vals|)
  {
    o.ShowAggregate? && env.final(Accumulator(o.fname, FedLists(o, vals, group))) == Some(v)
  }

  lemma FinalOne(env: Env, o: Output, keys: seq<Ref>, vals: seq<R.Row>, group: seq<nat>)
    requires o.ShowAggregate? && InRange(group, |vals|)
    ensures
      var v := FinalValue(env, OutputExpr(o, keys), StateOf(o, vals, group));
      (v.Some? ==> FinalIs(env, o, vals, group, v.value)) && (Works(env) && AggregateName(o.fname) ==> v.Some?)
  {
    hide AggregateName;
    assert NameOf(OutputExpr(o, keys)) == o.fname;
    if group == [] {
      assert FedLists(o, vals, group) == [];
    }
    assert Accumulator(o.fname, FedLists(o, vals, group)).name == o.fname;
  }

  lemma {:induction false} FinalsAre(env: Env, outs: seq<Output>, keys: seq<Ref>, names: seq<string>, calls: seq<Output>, aggs: seq<Expr>,
                                     vals: seq<R.Row>, group: seq<nat>, st: States, k: nat)
    requires OutputsOver(outs, keys, names) && CallsAre(outs, keys, calls, aggs) && k <= |calls|
    requires InRange(group, |vals|) && StatesAre(calls, vals, group, st)
    ensures
      var r := FinalValues(env, aggs, st, k);
      (r.Some? ==> forall j :: 0 <= j < k ==> FinalIs(env, calls[j], vals, group, r.value[j])) && (Works(env) ==> r.Some?)
    decreases k
  {
    hide FinalValue, FinalIs, Works, StateOf, OutputExpr, AggregateName;
    if k > 0 {
      FinalsAre(env, outs, keys, names, calls, aggs, vals, group, st, k - 1);
      assert IsCall(outs, keys, calls[k - 1], aggs[k - 1]);
      FinalOne(env, calls[k - 1], keys, vals, group);
      assert OutputOver(calls[k - 1], keys, names);
    }
  }

  lemma {:induction false} KnownAt(known: seq<(Expr, Mem)>, e: Expr, at: nat) returns (i: nat)
    requires at < |known| && known[at].0 == e
    ensures i < |known| && known[i].0 == e && Known(known, e) == Some(known[i].1)
    decreases |known|
  {
    if known[0].0 == e {
      i := 0;
    } else {
      var j := KnownAt(known[1..], e, at - 1);
      i := j + 1;
    }
  }

  lemma LaterPart(a: seq<(Expr, Mem)>, b: seq<(Expr, Mem)>, i: nat)
    requires i < |a| + |b| && (a + b)[i].0.Column? && KnownCalls(a)
    ensures i >= |a| && b[i - |a|] == (a + b)[i]
  {
  }

  lemma EarlierPart(a: seq<(Expr, Mem)>, b: seq<(Expr, Mem)>, i: nat)
    requires i < |a| + |b| && (a + b)[i].0.Call? && forall j :: 0 <= j < |b| ==> b[j].0.Column?
    ensures i < |a| && a[i] == (a + b)[i]
  {
    assert forall j :: |a| <= j < |a| + |b| ==> (a + b)[j] == b[j - |a|];
  }

  lemma NamedOnce(names: seq<string>, name: string, i: nat, j: nat)
    requires Named(names, name, i) && Named(names, name, j)
    ensures i == j
  {
    hide SameLetters;
  }

  /** The output expression of a group is known: it is one of the keys or one of the aggregates. */
  lemma KeyKnown(env: Env, outs: seq<Output>, keys: seq<Ref>, names: seq<string>, calls: seq<Output>, aggs: seq<Expr>, fs: seq<Mem>,
                 vals: seq<R.Row>, group: seq<nat>, o: Output) returns (v: Mem)
    requires RefsOver(keys, names) && CallsAre(outs, keys, calls, aggs) && |fs| == |aggs| && InRange(group, |vals|)
    requires o.ShowKey? && o.k < |keys|
    ensures Known(Zip(aggs, fs) + Zip(Columns(keys), GroupKey(keys, vals, group)), OutputExpr(o, keys)) == Some(v) && Shows(env, o, keys, vals, group, v)
  {
    hide Known, Named;
    var ks := GroupKey(keys, vals, group);
    var known := Zip(aggs, fs) + Zip(Columns(keys), ks);
    var i := KnownAt(known, OutputExpr(o, keys), |aggs| + o.k);
    forall j | 0 <= j < |aggs| ensures aggs[j].Call? {
      assert IsCall(outs, keys, calls[j], aggs[j]);
    }
    LaterPart(Zip(aggs, fs), Zip(Columns(keys), ks), i);
    var j := i - |aggs|;
    NamedOnce(names, keys[o.k].name, keys[o.k].at, keys[j].at);
    v := ks[j];
  }

  lemma CallKnown(env: Env, outs: seq<Output>, keys: seq<Ref>, names: seq<string>, calls: seq<Output>, aggs: seq<Expr>, fs: seq<Mem>,
                  vals: seq<R.Row>, group: seq<nat>, o: Output) returns (v: Mem)
    requires OutputsOver(outs, keys, names) && CallsAre(outs, keys, calls, aggs) && |fs| == |aggs| && InRange(group, |vals|)
    requires o.ShowAggregate? && o in outs && forall j :: 0 <= j < |calls| ==> FinalIs(env, calls[j], vals, group, fs[j])
    ensures Known(Zip(aggs, fs) + Zip(Columns(keys), GroupKey(keys, vals, group)), OutputExpr(o, keys)) == Some(v) && Shows(env, o, keys, vals, group, v)
  {
    hide Known, Named, AggregateName;
    var known := Zip(aggs, fs) + Zip(Columns(keys), GroupKey(keys, vals, group));
    var at: nat :| at < |aggs| && aggs[at] == OutputExpr(o, keys);
    assert known[at].0 == aggs[at];
    var i := KnownAt(known, OutputExpr(o, keys), at);
    EarlierPart(Zip(aggs, fs), Zip(Columns(keys), GroupKey(keys, vals, group)), i);
    var p := calls[i];
    assert IsCall(outs, keys, p, aggs[i]) && OutputOver(p, keys, names) && OutputOver(o, keys, names);
    SameCall(o, p, keys, names);
    v := fs[i];
  }

  lemma SameCall(o: Output, p: Output, keys: seq<Ref>, names: seq<string>)
    requires o.ShowAggregate? && p.ShowAggregate? && OutputExpr(o, keys) == OutputExpr(p, keys)
    requires OutputOver(o, keys, names) && OutputOver(p, keys, names)
    ensures o == p
  {
    hide Named, AggregateName;
    if o.arg.Some? && p.arg.Some? {
      NamedOnce(names, o.arg.value.name, o.arg.value.at, p.arg.value.at);
    }
  }

  lemma {:induction false} ItemsAre(env: Env, es: seq<Expr>, k: nat, ctx: Context, row: seq<Mem>)
    requires k <= |es| == |row| && forall t :: 0 <= t < |es| ==> Known(ctx.known, es[t]) == Some(row[t])
    ensures ItemValues(env, ItemsFor(es), k, ctx) == Some(row[..k])
    decreases k
  {
    hide Known;
    if k > 0 {
      ItemsAre(env, es, k - 1, ctx, row);
      assert row[..k] == row[..k - 1] + [row[k - 1]];
    }
  }

  /** The expression of the output is known to have the value that the output shows. */
  ghost predicate KnownShown(env: Env, known: seq<(Expr, Mem)>, o: Output, keys: seq<Ref>, vals: seq<R.Row>, group: seq<nat>, v: Mem)
    requires InRange(group, |vals|)
  {
    Known(known, OutputExpr(o, keys)) == Some(v) && Shows(env, o, keys, vals, group, v)
  }

  lemma OutputKnown(env: Env, outs: seq<Output>, keys: seq<Ref>, names: seq<string>, calls: seq<Output>, aggs: seq<Expr>, fs: seq<Mem>,
                    vals: seq<R.Row>, group: seq<nat>, o: Output) returns (v: Mem)
    requires OutputsOver(outs, keys, names) && RefsOver(keys, names) && CallsAre(outs, keys, calls, aggs) && |fs| == |aggs| && InRange(group, |vals|)
    requires o in outs && forall j :: 0 <= j < |calls| ==> FinalIs(env, calls[j], vals, group, fs[j])
    ensures KnownShown(env, Zip(aggs, fs) + Zip(Columns(keys), GroupKey(keys, vals, group)), o, keys, vals, group, v)
  {
    hide Known, Named, AggregateName, Shows, OutputExpr, FinalIs, CallsAre, RefsOver;
    if o.ShowKey? {
      assert OutputOver(o, keys, names);
      v := KeyKnown(env, outs, keys, names, calls, aggs, fs, vals, group, o);
    } else {
      v := CallKnown(env, outs, keys, names, calls, aggs, fs, vals, group, o);
    }
  }

  lemma {:induction false} OutputsKnown(env: Env, outs: seq<Output>, keys: seq<Ref>, names: seq<string>, calls: seq<Output>, aggs: seq<Expr>, fs: seq<Mem>,
                                        vals: seq<R.Row>, group: seq<nat>, n: nat) returns (row: seq<Mem>)
    requires OutputsOver(outs, keys, names) && RefsOver(keys, names) && CallsAre(outs, keys, calls, aggs) && |fs| == |aggs| && InRange(group, |vals|)
    requires n <= |outs| && forall j :: 0 <= j < |calls| ==> FinalIs(env, calls[j], vals, group, fs[j])
    ensures |row| == n
    ensures
      var known := Zip(aggs, fs) + Zip(Columns(keys), GroupKey(keys, vals, group));
      forall t :: 0 <= t < n ==> KnownShown(env, known, outs[t], keys, vals, group, row[t])
    decreases n
  {
    hide *;
    row := [];
    if n > 0 {
      var before := OutputsKnown(env, outs, keys, names, calls, aggs, fs, vals, group, n - 1);
      var v := OutputKnown(env, outs, keys, names, calls, aggs, fs, vals, group, outs[n - 1]);
      row := before + [v];
    }
  }

  /** The output row of a group shows its key and what its aggregates end in. */
  lemma RowForIs(env: Env, outs: seq<Output>, keys: seq<Ref>, c: Condition, names: seq<string>, root: int, calls: seq<Output>, q: GroupQuery,
                 refs: seq<Ref>, vals: seq<R.Row>, group: seq<nat>, st: States)
    requires Posed(outs, keys, c, names, root, calls, q, refs) && InRange(group, |vals|) && StatesAre(calls, vals, group, st)
    ensures
      var r := RowFor(env, q, st, GroupKey(keys, vals, group));
      (r.Some? ==> RowShows(env, outs, keys, vals, group, r.value)) && (Works(env) ==> r.Some?)
  {
    hide FinalValues, ItemValues, Works, OutputsOver, RefsOver, Over, CallsAre, Aggregates, FinalIs, Shows, Known, OutputExpr, StatesAre;
    assert |calls| == |Aggregates(q.columns)| by {
      SameCount(outs, keys, calls, Aggregates(q.columns));
    }
    var aggs := Aggregates(q.columns);
    assert |st| == |aggs| by {
      StatesCount(calls, vals, group, st);
    }
    FinalsAre(env, outs, keys, names, calls, aggs, vals, group, st, |calls|);
    var fs := FinalValues(env, aggs, st, |aggs|);
    if fs.Some? {
      var ks := GroupKey(keys, vals, group);
      var row := OutputsKnown(env, outs, keys, names, calls, aggs, fs.value, vals, group, |outs|);
      var ctx := Context(Some(names), None, Zip(aggs, fs.value) + Zip(Columns(keys), ks));
      forall t | 0 <= t < |outs| ensures Known(ctx.known, q.columns[t]) == Some(row[t]) && Shows(env, outs[t], keys, vals, group, row[t]) {
        assert KnownShown(env, ctx.known, outs[t], keys, vals, group, row[t]);
      }
      ItemsAre(env, q.columns, |outs|, ctx, row);
      assert row[..|outs|] == row;
    }
  }

  lemma SameCount(outs: seq<Output>, keys: seq<Ref>, calls: seq<Output>, aggs: seq<Expr>)
    requires CallsAre(outs, keys, calls, aggs)
    ensures |calls| == |aggs|
  {
  }

  lemma StatesCount(calls: seq<Output>, vals: seq<R.Row>, group: seq<nat>, st: States)
    requires InRange(group, |vals|) && StatesAre(calls, vals, group, st)
    ensures |st| == |calls|
  {
  }

  // ---- The compiler accepts the query ----

  lemma {:induction false} FindAt(bound: Bound, e: Expr, at: nat)
    requires at < |bound| && bound[at].0 == e
    ensures Find(bound, e).Some?
    decreases |bound|
  {
    if bound[0].0 != e {
      FindAt(bound[1..], e, at - 1);
    }
  }

  lemma {:induction false} ColumnsCompile(refs: seq<Ref>, sc: Scope, base: nat, reg: nat)
    requires sc.table.Some? && RefsOver(refs, sc.table.value.columns)
    ensures ListCodeOf(FromSeq(Columns(refs)), sc, base, reg).Some?
    decreases |refs|
  {
    hide Position, Named, Find;
    if refs != [] {
      assert Columns(refs)[1..] == Columns(refs[1..]);
      PositionIs(sc.table.value.columns, refs[0].name, refs[0].at);
      var c := CodeOf(Expr.Column(refs[0].name), sc, base, reg).value;
      ColumnsCompile(refs[1..], sc, base + |c.ops|, c.next);
    }
  }

  lemma {:induction false} ItemsCompile(es: seq<Expr>, k: nat, sc: Scope, base: nat, reg: nat, dst: nat)
    requires k <= |es| && forall i :: 0 <= i < |es| ==> Find(sc.bound, es[i]).Some?
    ensures ItemsOf(ItemsFor(es), k, sc, base, reg, dst).Some?
    decreases k
  {
    hide Find;
    if k > 0 {
      ItemsCompile(es, k - 1, sc, base, reg, dst);
    }
  }

  lemma OutputBound(outs: seq<Output>, keys: seq<Ref>, names: seq<string>, calls: seq<Output>, aggs: seq<Expr>, reg: nat, keyReg: nat, o: Output)
    requires OutputOver(o, keys, names) && CallsAre(outs, keys, calls, aggs) && o in outs
    ensures Find(Pairs(aggs, reg) + Pairs(Columns(keys), keyReg), OutputExpr(o, keys)).Some?
  {
    hide Find, Named, AggregateName;
    var bound := Pairs(aggs, reg) + Pairs(Columns(keys), keyReg);
    if o.ShowKey? {
      assert bound[|aggs| + o.k] == Pairs(Columns(keys), keyReg)[o.k];
      FindAt(bound, OutputExpr(o, keys), |aggs| + o.k);
    } else {
      var at: nat :| at < |aggs| && aggs[at] == OutputExpr(o, keys);
      assert bound[at] == Pairs(aggs, reg)[at];
      FindAt(bound, OutputExpr(o, keys), at);
    }
  }

  lemma OutputsCompile(outs: seq<Output>, keys: seq<Ref>, c: Condition, names: seq<string>, root: int, calls: seq<Output>, q: GroupQuery,
                       refs: seq<Ref>, l: GroupPlan, keyReg: nat, base: nat, reg: nat, dst: nat)
    requires Posed(outs, keys, c, names, root, calls, q, refs) && l.aggs == Aggregates(q.columns)
    ensures ItemsOf(ItemsFor(q.columns), |q.columns|, RowScope(q, l, keyReg), base, reg, dst).Some?
  {
    hide Find, ItemsOf, Aggregates, OutputOver, RefsOver, Over, OutputExpr, CallsAre;
    var sc := RowScope(q, l, keyReg);
    forall i | 0 <= i < |q.columns| ensures Find(sc.bound, q.columns[i]).Some? {
      assert outs[i] in outs;
      OutputBound(outs, keys, names, calls, l.aggs, l.reg, keyReg, outs[i]);
    }
    ItemsCompile(q.columns, |q.columns|, sc, base, reg, dst);
  }

  lemma ScanCompiles(outs: seq<Output>, keys: seq<Ref>, c: Condition, names: seq<string>, root: int, calls: seq<Output>, q: GroupQuery, refs: seq<Ref>)
    requires Posed(outs, keys, c, names, root, calls, q, refs)
    ensures ScanPlan(q, 0, 0, 0).Some? && ScanPlan(q, 0, 0, 0).value.aggs == Aggregates(q.columns)
  {
    hide ListCodeOf, WhereOf, FromSeq, FieldExprs, OutputsOver, CallsAre, RefsOver, Over, ConditionExpr, Aggregates;
    var aggs := Aggregates(q.columns);
    var plain := Scope(Some(TableContext(0, names)), []);
    var scan := plain.(bound := Pairs(aggs, 0));
    assert BoundCalls(Pairs(aggs, 0));
    ConditionFree(c);
    ConditionCompiles(c, plain, 3, |aggs|, 0);
    WhereFree(ConditionExpr(c), plain, Pairs(aggs, 0), 3, |aggs|, 0);
    var cond := WhereOf(ConditionExpr(c), scan, 3, |aggs|, 0).value;
    PosedRefs(outs, keys, c, names, root, calls, q, refs);
    ColumnsCompile(refs, scan, 3 + |cond.ops|, cond.next);
  }

  lemma GroupCompiles(outs: seq<Output>, keys: seq<Ref>, c: Condition, names: seq<string>, root: int, calls: seq<Output>, q: GroupQuery, refs: seq<Ref>)
    requires Posed(outs, keys, c, names, root, calls, q, refs)
    ensures GroupLayout(q, 0, 0, 0).Some?
  {
    hide ScanPlan, ItemsOf, ItemsFor, Posed, Aggregates, RowScope;
    ScanCompiles(outs, keys, c, names, root, calls, q, refs);
    var l, n := ScanPlan(q, 0, 0, 0).value, |q.columns|;
    OutputsCompile(outs, keys, c, names, root, calls, q, refs, l, Prev(l, n), MidAt(l), ZeroReg(l, n) + 1, Dst(l));
    var mid := ItemsOf(ItemsFor(q.columns), n, RowScope(q, l, Prev(l, n)), MidAt(l), ZeroReg(l, n) + 1, Dst(l)).value;
    var l1 := l.(mid := mid);
    OutputsCompile(outs, keys, c, names, root, calls, q, refs, l1, Curr(l1, n), LastAt(l1), mid.next + l.args, Dst(l1));
  }

  // ---- The groups ----

  /** The rows in the order of the sorted records. */
  function Reordered(all: seq<nat>, p: seq<nat>): (rows: seq<nat>)
    requires InRange(p, |all|)
    ensures |rows| == |p| && forall i :: 0 <= i < |rows| ==> rows[i] == all[p[i]]
  {
    seq(|p|, i requires 0 <= i < |p| => all[p[i]])
  }

  lemma PermutationInRange(p: seq<nat>, n: nat)
    requires Permutation(p, n)
    ensures InRange(p, n)
  {
    forall i | 0 <= i < |p| ensures p[i] < n {
      assert p[i] in p;
    }
  }

  lemma ReorderedListed(c: Condition, vals: seq<R.Row>, all: seq<nat>, p: seq<nat>)
    requires Listed(c, vals, all, |vals|) && InRange(p, |all|) && Permutation(p, |all|)
    ensures Listed(c, vals, Reordered(all, p), |vals|)
  {
    hide Q.Chosen;
    var rows := Reordered(all, p);
    forall i: nat ensures i in rows <==> i in all {
      if i in all {
        var k: nat :| k < |all| && all[k] == i;
        assert k in p;
        var t :| 0 <= t < |p| && p[t] == k;
        assert rows[t] == i;
      }
    }
    forall j, k | 0 <= j < k < |rows| ensures rows[j] != rows[k] {
      assert p[j] != p[k];
      assert p[j] < p[k] || p[k] < p[j];
    }
  }

  lemma ReorderedRecords(env: Env, refs: seq<Ref>, vals: seq<R.Row>, all: seq<nat>, recs: seq<Data>, p: seq<nat>, rs: seq<Data>)
    requires RecordsAre(env, refs, vals, all, recs) && Permutes(rs, recs, p) && InRange(p, |all|)
    ensures RecordsAre(env, refs, vals, Reordered(all, p), rs)
  {
    hide RecordIs;
  }

  /** The groups of rows: a slice for each start. */
  function Slices(rows: seq<nat>, starts: seq<nat>): (groups: seq<seq<nat>>)
    requires forall k :: 0 <= k < |starts| ==> starts[k] < EndOf(starts, k, |rows|) <= |rows|
    ensures |groups| == |starts| && forall k :: 0 <= k < |groups| ==> groups[k] == rows[starts[k]..EndOf(starts, k, |rows|)]
  {
    seq(|starts|, k requires 0 <= k < |starts| => rows[starts[k]..EndOf(starts, k, |rows|)])
  }

  /** Every row of group k has its key, no other row has, and the keys ascend. */
  ghost predicate Keyed(keys: seq<Ref>, vals: seq<R.Row>, rows: seq<nat>, starts: seq<nat>, shown: seq<seq<Mem>>)
    requires InRange(rows, |vals|)
  {
    && |shown| == |starts|
    && (forall k, j :: 0 <= k < |starts| && 0 <= j < |rows| ==> KeyedAt(keys, vals, rows, starts, shown, k, j))
    && (forall k, l :: 0 <= k < l < |starts| ==> SmallerList(shown[k], shown[l]))
  }

  ghost predicate KeyedAt(keys: seq<Ref>, vals: seq<R.Row>, rows: seq<nat>, starts: seq<nat>, shown: seq<seq<Mem>>, k: nat, j: nat)
    requires InRange(rows, |vals|) && k < |starts| == |shown| && j < |rows|
  {
    starts[k] <= j < EndOf(starts, k, |rows|) <==> Values(keys, LoadedRow(vals[rows[j]])) == shown[k]
  }

  lemma SlicesInRange(vals: seq<R.Row>, rows: seq<nat>, starts: seq<nat>)
    requires InRange(rows, |vals|) && Cuts(starts, |rows|)
    ensures AllInRange(Slices(rows, starts), |vals|)
  {
    hide EndOf;
  }

  lemma SliceKey(keys: seq<Ref>, vals: seq<R.Row>, rows: seq<nat>, starts: seq<nat>, shown: seq<seq<Mem>>, k: nat)
    requires InRange(rows, |vals|) && Cuts(starts, |rows|) && Keyed(keys, vals, rows, starts, shown) && k < |starts|
    ensures
      var group := Slices(rows, starts)[k];
      && InRange(group, |vals|) && group != [] && GroupKey(keys, vals, group) == shown[k]
      && forall a :: 0 <= a < |group| ==> HasKey(keys, vals, group, a)
  {
    hide SmallerList, Values, EndOf;
    SlicesInRange(vals, rows, starts);
    var group := Slices(rows, starts)[k];
    var start := starts[k];
    forall a | 0 <= a < |group| ensures Values(keys, LoadedRow(vals[group[a]])) == shown[k] {
      var j := start + a;
      assert group[a] == rows[j];
      assert KeyedAt(keys, vals, rows, starts, shown, k, j);
    }
  }

  /** Where a member of a group lies among all rows. */
  lemma MemberAt(rows: seq<nat>, starts: seq<nat>, k: nat, a: nat, i: nat) returns (j: nat)
    requires Cuts(starts, |rows|) && Member(Slices(rows, starts), k, a, i)
    ensures j < |rows| && rows[j] == i && j == starts[k] + a && starts[k] <= j < EndOf(starts, k, |rows|)
  {
    hide EndOf;
    j := starts[k] + a;
  }

  lemma MembersOnce(rows: seq<nat>, starts: seq<nat>, k: nat, a: nat, l: nat, b: nat, i: nat)
    requires Cuts(starts, |rows|) && forall j, m :: 0 <= j < m < |rows| ==> rows[j] != rows[m]
    requires Member(Slices(rows, starts), k, a, i) && Member(Slices(rows, starts), l, b, i)
    ensures k == l && a == b
  {
    var x := MemberAt(rows, starts, k, a, i);
    var y := MemberAt(rows, starts, l, b, i);
    assert x == y;
    if k < l {
      EndBefore(starts, |rows|, k, l);
    } else if l < k {
      EndBefore(starts, |rows|, l, k);
    }
  }

  lemma EndBefore(starts: seq<nat>, len: nat, k: nat, l: nat)
    requires Cuts(starts, len) && k < l < |starts|
    ensures EndOf(starts, k, len) <= starts[l]
  {
    if k + 1 < l {
      StartsAscend(starts, len, k + 1, l);
    }
  }

  lemma MembersAre(c: Condition, vals: seq<R.Row>, rows: seq<nat>, starts: seq<nat>, i: nat)
    requires Listed(c, vals, rows, |vals|) && Cuts(starts, |rows|) && starts != [] && starts[0] == 0 && i < |vals|
    ensures Q.Chosen(c, vals[i]) <==> Somewhere(Slices(rows, starts), i)
  {
    hide Q.Chosen, EndOf;
    var groups := Slices(rows, starts);
    if Q.Chosen(c, vals[i]) {
      assert i in rows;
      var j :| 0 <= j < |rows| && rows[j] == i;
      var k := GroupOf(starts, |rows|, j);
      assert Member(groups, k, j - starts[k], i);
    }
    if Somewhere(groups, i) {
      var k, a :| Member(groups, k, a, i);
      var j := MemberAt(rows, starts, k, a, i);
      assert i in rows;
    }
  }

  lemma SlicesGroup(c: Condition, vals: seq<R.Row>, keys: seq<Ref>, rows: seq<nat>, starts: seq<nat>, shown: seq<seq<Mem>>)
    requires Listed(c, vals, rows, |vals|) && InRange(rows, |vals|) && Cuts(starts, |rows|) && starts != [] && starts[0] == 0
    requires Keyed(keys, vals, rows, starts, shown)
    ensures Grouping(c, vals, keys, Slices(rows, starts))
  {
    hide Q.Chosen, EndOf, SmallerList, Somewhere, Member, HasKey;
    var groups := Slices(rows, starts);
    SlicesInRange(vals, rows, starts);
    forall i | 0 <= i < |vals| ensures Q.Chosen(c, vals[i]) <==> Somewhere(groups, i) {
      MembersAre(c, vals, rows, starts, i);
    }
    forall k, a, l, b, i | Member(groups, k, a, i) && Member(groups, l, b, i) ensures k == l && a == b {
      MembersOnce(rows, starts, k, a, l, b, i);
    }
    forall k | 0 <= k < |groups| ensures groups[k] != [] && GroupKey(keys, vals, groups[k]) == shown[k]
      && forall a :: 0 <= a < |groups[k]| ==> HasKey(keys, vals, groups[k], a)
    {
      SliceKey(keys, vals, rows, starts, shown, k);
    }
  }

  lemma NoGroups(c: Condition, vals: seq<R.Row>, keys: seq<Ref>)
    requires Listed(c, vals, [], |vals|)
    ensures Grouping(c, vals, keys, [[]])
  {
    hide Q.Chosen;
    forall i | 0 <= i < |vals| ensures !Q.Chosen(c, vals[i]) {
      assert i !in [];
    }
  }

  // ---- The answer ----

  lemma {:induction false} CallsPlain(outs: seq<Output>, keys: seq<Ref>, calls: seq<Output>, aggs: seq<Expr>, row: seq<Mem>, k: nat)
    requires PlainRow(outs, keys, row) && CallsAre(outs, keys, calls, aggs) && k <= |calls|
    ensures AllPlain(Values(CallRefs(calls, k), row))
    decreases k
  {
    hide Plain, ArgRefs;
    if k > 0 {
      CallsPlain(outs, keys, calls, aggs, row, k - 1);
      assert IsCall(outs, keys, calls[k - 1], aggs[k - 1]);
      var t: nat :| t < |outs| && outs[t] == calls[k - 1];
      assert AllPlain(Values(ArgRefs(outs[t]), row));
      ValuesJoin(CallRefs(calls, k - 1), ArgRefs(calls[k - 1]), row);
    }
  }

  lemma ValuesJoin(a: seq<Ref>, b: seq<Ref>, row: seq<Mem>)
    ensures Values(a + b, row) == Values(a, row) + Values(b, row)
  {
  }

  lemma RecordsPlain(env: Env, outs: seq<Output>, keys: seq<Ref>, c: Condition, names: seq<string>, root: int, calls: seq<Output>, q: GroupQuery,
                     refs: seq<Ref>, vals: seq<R.Row>, idx: seq<nat>, recs: seq<Data>)
    requires Posed(outs, keys, c, names, root, calls, q, refs) && PlainRows(outs, keys, c, vals)
    requires Listed(c, vals, idx, |vals|) && RecordsAre(env, refs, vals, idx, recs)
    ensures forall i :: 0 <= i < |recs| ==> PlainRecord(env, recs[i])
  {
    hide Q.Chosen, RecordIs, CallsAre, OutputsOver, RefsOver, Over, Aggregates, Values, Plain, Fields;
    forall i | 0 <= i < |recs| ensures PlainRecord(env, recs[i]) {
      var row := LoadedRow(vals[idx[i]]);
      assert idx[i] in idx;
      CallsPlain(outs, keys, calls, Aggregates(q.columns), row, |calls|);
      ValuesJoin(keys, CallRefs(calls, |calls|), row);
      RecordFieldsAre(env, recs[i], Values(refs, row));
    }
  }

  lemma KeysAre(env: Env, keys: seq<Ref>, calls: seq<Output>, vals: seq<R.Row>, rows: seq<nat>, rs: seq<Data>)
    requires RecordsAre(env, keys + CallRefs(calls, |calls|), vals, rows, rs) && Decodes(env, rs, |keys|) && InRange(rows, |vals|)
    ensures forall j :: 0 <= j < |rs| ==> RecordKey(env, rs, |keys|, j) == Values(keys, LoadedRow(vals[rows[j]]))
  {
    hide RecordIs, FieldsFrom, Values;
    var more := CallRefs(calls, |calls|);
    forall j | 0 <= j < |rs| ensures RecordKey(env, rs, |keys|, j) == Values(keys, LoadedRow(vals[rows[j]])) {
      var row := LoadedRow(vals[rows[j]]);
      ValuesJoin(keys, more, row);
      FieldsSlice(env, rs[j], Values(keys + more, row), 0, |keys|);
      assert Values(keys + more, row)[0..|keys|] == Values(keys, row);
    }
  }

  /** The keys that the groups show. */
  ghost function ShownKeys(env: Env, rs: seq<Data>, n: nat, starts: seq<nat>): (shown: seq<seq<Mem>>)
    requires Decodes(env, rs, n) && Cuts(starts, |rs|)
    ensures |shown| == |starts| && forall k :: 0 <= k < |shown| ==> shown[k] == KeyShown(env, rs, n, starts, k)
  {
    seq(|starts|, k requires 0 <= k < |starts| => KeyShown(env, rs, n, starts, k))
  }

  /** The groups of records that PlainGroups finds, as groups of rows. */
  ghost predicate Grouped(env: Env, rs: seq<Data>, n: nat, starts: seq<nat>)
    requires Decodes(env, rs, n) && Cuts(starts, |rs|)
  {
    && starts != [] && starts[0] == 0
    && (forall k, l :: 0 <= k < l < |starts| ==> SmallerList(KeyShown(env, rs, n, starts, k), KeyShown(env, rs, n, starts, l)))
    && (forall k, j :: 0 <= k < |starts| && 0 <= j < |rs| ==>
          (starts[k] <= j < EndOf(starts, k, |rs|) <==> RecordKey(env, rs, n, j) == KeyShown(env, rs, n, starts, k)))
  }

  lemma MakeGrouped(env: Env, rs: seq<Data>, n: nat, starts: seq<nat>)
    requires Decodes(env, rs, n) && Cuts(starts, |rs|) && starts != [] && starts[0] == 0
    requires forall k, l :: 0 <= k < l < |starts| ==> SmallerList(KeyShown(env, rs, n, starts, k), KeyShown(env, rs, n, starts, l))
    requires forall k, j :: 0 <= k < |starts| && 0 <= j < |rs| ==>
               (starts[k] <= j < EndOf(starts, k, |rs|) <==> RecordKey(env, rs, n, j) == KeyShown(env, rs, n, starts, k))
    ensures Grouped(env, rs, n, starts)
  {
    hide Decodes, KeyShown, RecordKey, EndOf, SmallerList;
  }

  lemma GroupedKeyed(env: Env, keys: seq<Ref>, vals: seq<R.Row>, rows: seq<nat>, rs: seq<Data>, starts: seq<nat>)
    requires Decodes(env, rs, |keys|) && Cuts(starts, |rs|) && Grouped(env, rs, |keys|, starts) && |rows| == |rs| && InRange(rows, |vals|)
    requires forall j :: 0 <= j < |rs| ==> RecordKey(env, rs, |keys|, j) == Values(keys, LoadedRow(vals[rows[j]]))
    ensures Keyed(keys, vals, rows, starts, ShownKeys(env, rs, |keys|, starts))
  {
    hide RecordKey, KeyShown, SmallerList, Values, EndOf, Decodes;
  }

  /** The row put out for group k. */
  lemma GroupRowIs(env: Env, outs: seq<Output>, keys: seq<Ref>, c: Condition, names: seq<string>, root: int, calls: seq<Output>, q: GroupQuery,
                   refs: seq<Ref>, vals: seq<R.Row>, rows: seq<nat>, rs: seq<Data>, starts: seq<nat>, k: nat)
    requires Posed(outs, keys, c, names, root, calls, q, refs) && RecordsAre(env, refs, vals, rows, rs) && InRange(rows, |vals|)
    requires Decodes(env, rs, |keys|) && Cuts(starts, |rs|) && Grouped(env, rs, |keys|, starts) && k < |starts|
    ensures AllInRange(Slices(rows, starts), |vals|)
    ensures
      var r := GroupRow(env, q, rs, starts, k);
      (r.Some? ==> RowShows(env, outs, keys, vals, Slices(rows, starts)[k], r.value)) && (Works(env) ==> r.Some?)
  {
    hide OutputsOver, RefsOver, Over, CallsAre, Aggregates, RecordIs, Fold, RowFor, Works, RowShows, Grouped, Decodes, EndOf, StatesAre, KeyOf;
    SlicesInRange(vals, rows, starts);
    var group := Slices(rows, starts)[k];
    var recs := rs[starts[k]..EndOf(starts, k, |rs|)];
    assert RecordsAre(env, refs, vals, group, recs) by {
      forall a | 0 <= a < |group| ensures RecordIs(env, recs[a], Values(refs, LoadedRow(vals[group[a]]))) {
        var j := starts[k] + a;
        assert recs[a] == rs[j] && group[a] == rows[j];
      }
    }
    FoldIs(env, outs, keys, c, names, root, calls, q, refs, vals, group, recs);
    var st := Fold(env, q, recs);
    KeysAre(env, keys, calls, vals, rows, rs);
    GroupedKeyed(env, keys, vals, rows, rs, starts);
    SliceKey(keys, vals, rows, starts, ShownKeys(env, rs, |keys|, starts), k);
    if st.Some? {
      RowForIs(env, outs, keys, c, names, root, calls, q, refs, vals, group, st.value);
    }
  }

  /** The rows of the answer are those of the groups. */
  ghost predicate AnswerShows(env: Env, outs: seq<Output>, keys: seq<Ref>, vals: seq<R.Row>, groups: seq<seq<nat>>, rows: seq<seq<Mem>>) {
    && AllInRange(groups, |vals|) && |rows| == |groups|
    && forall k :: 0 <= k < |groups| ==> RowShows(env, outs, keys, vals, groups[k], rows[k])
  }

  /** Some row meets the condition. */
  lemma SomeGroups(env: Env, outs: seq<Output>, keys: seq<Ref>, c: Condition, names: seq<string>, root: int, calls: seq<Output>, q: GroupQuery,
                   refs: seq<Ref>, table: seq<TableRow>, vals: seq<R.Row>, all: seq<nat>, recs: seq<Data>) returns (groups: seq<seq<nat>>)
    requires Ordered(env) && Posed(outs, keys, c, names, root, calls, q, refs) && PlainRows(outs, keys, c, vals)
    requires Collect(env, q, table, 0, []) == Some(recs) && recs != [] && Listed(c, vals, all, |vals|) && RecordsAre(env, refs, vals, all, recs)
    ensures
      var a := GroupAnswer(env, q, table);
      (a.ok ==> Grouping(c, vals, keys, groups) && AnswerShows(env, outs, keys, vals, groups, a.rows)) && (Works(env) ==> a.ok)
  {
    hide *;
    KeyCount(outs, keys, c, names, root, calls, q, refs);
    RecordsPlain(env, outs, keys, c, names, root, calls, q, refs, vals, all, recs);
    OrderedFaithful(env);
    var rs, starts := PlainGroups(env, q, table, recs);
    MakeGrouped(env, rs, |keys|, starts);
    var p := SameElements(rs, recs);
    SameLength(env, refs, vals, all, recs);
    PermutationInRange(p, |all|);
    ReorderedListed(c, vals, all, p);
    ReorderedRecords(env, refs, vals, all, recs, p, rs);
    var rows := Reordered(all, p);
    groups := ListedGroups(env, outs, keys, c, names, root, calls, q, refs, vals, rows, rs, starts, GroupAnswer(env, q, table));
  }

  lemma KeyCount(outs: seq<Output>, keys: seq<Ref>, c: Condition, names: seq<string>, root: int, calls: seq<Output>, q: GroupQuery, refs: seq<Ref>)
    requires Posed(outs, keys, c, names, root, calls, q, refs)
    ensures |q.groupBy| == |keys| && refs == keys + CallRefs(calls, |calls|)
  {
  }

  lemma OrderedFaithful(env: Env)
    requires Ordered(env)
    ensures Faithful(env)
  {
  }

  lemma SameLength(env: Env, refs: seq<Ref>, vals: seq<R.Row>, all: seq<nat>, recs: seq<Data>)
    requires RecordsAre(env, refs, vals, all, recs)
    ensures |all| == |recs|
  {
  }

  lemma ListedInRange(c: Condition, vals: seq<R.Row>, rows: seq<nat>)
    requires Listed(c, vals, rows, |vals|)
    ensures InRange(rows, |vals|)
  {
    forall a | 0 <= a < |rows| ensures rows[a] < |vals| {
      assert rows[a] in rows;
    }
  }

  lemma ListedGroups(env: Env, outs: seq<Output>, keys: seq<Ref>, c: Condition, names: seq<string>, root: int, calls: seq<Output>, q: GroupQuery,
                     refs: seq<Ref>, vals: seq<R.Row>, rows: seq<nat>, rs: seq<Data>, starts: seq<nat>, a: Answer) returns (groups: seq<seq<nat>>)
    requires Posed(outs, keys, c, names, root, calls, q, refs) && |q.groupBy| == |keys| && refs == keys + CallRefs(calls, |calls|)
    requires Listed(c, vals, rows, |vals|) && RecordsAre(env, refs, vals, rows, rs) && Decodes(env, rs, |keys|) && Cuts(starts, |rs|)
    requires Grouped(env, rs, |keys|, starts) && GroupOrder.RowsOf(env, q, rs, starts, a)
    ensures (a.ok ==> Grouping(c, vals, keys, groups) && AnswerShows(env, outs, keys, vals, groups, a.rows)) && (Works(env) ==> a.ok)
  {
    hide Posed, Listed, RecordIs, Decodes, Grouped, Grouping, Works, GroupRow, RowShows, EndOf, CallRefs, RecordKey, Keyed, Values, ShownKeys;
    ListedInRange(c, vals, rows);
    KeysAre(env, keys, calls, vals, rows, rs);
    GroupedKeyed(env, keys, vals, rows, rs, starts);
    GroupedStarts(env, rs, |keys|, starts);
    SlicesGroup(c, vals, keys, rows, starts, ShownKeys(env, rs, |keys|, starts));
    groups := Slices(rows, starts);
    SlicesInRange(vals, rows, starts);
    forall k | 0 <= k < |starts|
      ensures var r := GroupRow(env, q, rs, starts, k); (r.Some? ==> RowShows(env, outs, keys, vals, groups[k], r.value)) && (Works(env) ==> r.Some?)
    {
      GroupRowIs(env, outs, keys, c, names, root, calls, q, refs, vals, rows, rs, starts, k);
    }
  }

  lemma GroupedStarts(env: Env, rs: seq<Data>, n: nat, starts: seq<nat>)
    requires Decodes(env, rs, n) && Cuts(starts, |rs|) && Grouped(env, rs, n, starts)
    ensures starts != [] && starts[0] == 0
  {
  }

  /** No row meets the condition: one row, for no rows. */
  lemma NothingGrouped(env: Env, outs: seq<Output>, keys: seq<Ref>, c: Condition, names: seq<string>, root: int, calls: seq<Output>, q: GroupQuery,
                       refs: seq<Ref>, table: seq<TableRow>, vals: seq<R.Row>)
    requires Posed(outs, keys, c, names, root, calls, q, refs) && Collect(env, q, table, 0, []) == Some([]) && Listed(c, vals, [], |vals|)
    ensures
      var a := GroupAnswer(env, q, table);
      (a.ok ==> Grouping(c, vals, keys, [[]]) && AnswerShows(env, outs, keys, vals, [[]], a.rows)) && (Works(env) ==> a.ok)
  {
    hide Aggregates, CallsAre, OutputsOver, RefsOver, Over, Collect, GroupAnswer, RowFor, Listed, Grouping, Works, RowShows;
    GroupByNothing(env, q, table);
    NoGroups(c, vals, keys);
    StatesStart(outs, keys, calls, Aggregates(q.columns), vals);
    RowForIs(env, outs, keys, c, names, root, calls, q, refs, vals, [], NoStates(|Aggregates(q.columns)|));
    assert GroupKey(keys, vals, []) == Nulls(|keys|);
  }

  lemma NothingListed(env: Env, c: Condition, refs: seq<Ref>, vals: seq<R.Row>)
    ensures Listed(c, vals, [], 0) && RecordsAre(env, refs, vals, [], [])
  {
  }

  lemma GroupedRows(env: Env, outs: seq<Output>, keys: seq<Ref>, c: Condition, names: seq<string>, root: int, calls: seq<Output>, q: GroupQuery,
                    refs: seq<Ref>, table: seq<TableRow>, vals: seq<R.Row>) returns (groups: seq<seq<nat>>)
    requires Ordered(env) && Posed(outs, keys, c, names, root, calls, q, refs) && Q.Contents(env, names, table, vals, c) && PlainRows(outs, keys, c, vals)
    ensures
      var a := GroupAnswer(env, q, table);
      && (a.ok ==> Grouping(c, vals, keys, groups) && AnswerShows(env, outs, keys, vals, groups, a.rows))
      && (Works(env) && RowsStorable(refs, c, vals) ==> a.ok)
  {
    hide *;
    NothingListed(env, c, refs, vals);
    var all := CollectIs(env, outs, keys, c, names, root, calls, q, refs, table, vals, 0, [], []);
    groups := [];
    var r := Collect(env, q, table, 0, []);
    if r == None {
      NotCollected(env, q, table);
    } else if r.value == [] {
      groups := [[]];
      SameLength(env, refs, vals, all, r.value);
      assert all == [];
      NothingGrouped(env, outs, keys, c, names, root, calls, q, refs, table, vals);
    } else {
      groups := SomeGroups(env, outs, keys, c, names, root, calls, q, refs, table, vals, all, r.value);
    }
  }

  lemma NotCollected(env: Env, q: GroupQuery, table: seq<TableRow>)
    requires Collect(env, q, table, 0, []) == None
    ensures !GroupAnswer(env, q, table).ok
  {
  }

  lemma OrderedFloats(env: Env)
    requires Ordered(env)
    ensures Floats(env)
  {
    assert Exact(0) && Exact(1);
  }

  /**
    SELECT keys and aggregates FROM table WHERE condition GROUP BY keys, compiled and stepped to its end: the rows
    that meet the condition fall into one group for each distinct key, the keys ascend, and each output row shows the
    key of its group and what its aggregates make of the arguments of exactly the group's rows.
   */
  method GroupWhere(env: Env, outs: seq<Output>, keys: seq<Ref>, c: Condition, names: seq<string>, root: int, table: seq<TableRow>,
                    ghost vals: seq<R.Row>, fuel: nat)
    returns (compiled: bool, rows: seq<seq<Mem>>, r: StepResult, ghost groups: seq<seq<nat>>, ghost refs: seq<Ref>, ghost enough: nat)
    requires Ordered(env) && OutputsOver(outs, keys, names) && RefsOver(keys, names) && Over(c, names)
    requires Q.Contents(env, names, table, vals, c) && PlainRows(outs, keys, c, vals)
    ensures compiled && (fuel >= enough ==> r != OutOfFuel)
    ensures r == Complete ==> Grouping(c, vals, keys, groups) && AnswerShows(env, outs, keys, vals, groups, rows)
    ensures Works(env) && RowsStorable(refs, c, vals) && fuel >= enough ==> r == Complete
  {
    hide *;
    OrderedFloats(env);
    var q := QueryOf(outs, keys, c, names, root);
    ghost var calls := Poses(outs, keys, c, names, root);
    refs := keys + CallRefs(calls, |calls|);
    groups := GroupedRows(env, outs, keys, c, names, root, calls, q, refs, table, vals);
    GroupCompiles(outs, keys, c, names, root, calls, q, refs);
    QueryRoot(outs, keys, c, names, root);
    compiled, rows, r, enough := Statement.ExecuteGroup(env, q, map[root := table], fuel);
  }

  lemma Poses(outs: seq<Output>, keys: seq<Ref>, c: Condition, names: seq<string>, root: int) returns (calls: seq<Output>)
    requires OutputsOver(outs, keys, names) && RefsOver(keys, names) && Over(c, names)
    ensures Posed(outs, keys, c, names, root, calls, QueryOf(outs, keys, c, names, root), keys + CallRefs(calls, |calls|))
  {
    calls := AggregatesAre(outs, keys, names);
  }

  lemma QueryRoot(outs: seq<Output>, keys: seq<Ref>, c: Condition, names: seq<string>, root: int)
    ensures QueryOf(outs, keys, c, names, root).root == root
  {
  }

  // ---- The built-in aggregates ----

  lemma BuiltinWorks(env: Env, d: Doubles)
    requires Builtin(env, d)
    ensures Works(env)
  {
    hide SameName, SameLetters, AfterAll, FinalState;
    forall name ensures AggregateName(name) ==> NewState(d, name).Some? {
      SameNameIs(name, "count");
      SameNameIs(name, "sum");
      SameNameIs(name, "avg");
      SameNameIs(name, "min");
      SameNameIs(name, "max");
    }
  }

  /** Row a of the group counts for the aggregate: it has no argument, or one that is not NULL. */
  ghost predicate Present(o: Output, vals: seq<R.Row>, group: seq<nat>, a: nat)
    requires InRange(group, |vals|) && a < |group|
  {
    ArgRefs(o) == [] || Values(ArgRefs(o), LoadedRow(vals[group[a]]))[0] != Null
  }

  /** COUNT shows the number of the group's rows whose argument is not NULL; without an argument, of all rows. */
  lemma CountShows(env: Env, d: Doubles, o: Output, keys: seq<Ref>, vals: seq<R.Row>, group: seq<nat>, v: Mem) returns (idx: seq<nat>)
    requires Builtin(env, d) && InRange(group, |vals|) && Shows(env, o, keys, vals, group, v)
    requires o.ShowAggregate? && SameLetters(o.fname, "count") && |group| < 0x8000_0000_0000_0000
    ensures v.Int? && v.i as int == |idx| && (forall j, k :: 0 <= j < k < |idx| ==> idx[j] < idx[k])
    ensures forall a: nat :: a in idx <==> a < |group| && Present(o, vals, group, a)
  {
    hide SameName, SameLetters, AfterAll, Values, ArgRefs;
    SameNameIs(o.fname, "count");
    var fed := FedLists(o, vals, group);
    CountIs(env, d, fed);
    idx := CountedIs(fed);
    forall a | 0 <= a < |group| ensures Counts(fed[a]) <==> Present(o, vals, group, a) {
      assert |fed[a]| == |ArgRefs(o)|;
    }
  }

  /** The arguments of the listed rows of the group. */
  function ArgumentsAt(o: Output, vals: seq<R.Row>, group: seq<nat>, idx: seq<nat>): (xs: seq<seq<Mem>>)
    requires InRange(group, |vals|) && InRange(idx, |group|)
    ensures |xs| == |idx| && forall k :: 0 <= k < |xs| ==> xs[k] == Values(ArgRefs(o), LoadedRow(vals[group[idx[k]]]))
  {
    seq(|idx|, k requires 0 <= k < |idx| => Values(ArgRefs(o), LoadedRow(vals[group[idx[k]]])))
  }

  lemma {:induction false} SetOf(xs: seq<seq<Mem>>)
    ensures |set x | x in xs| <= |xs|
    ensures |set x | x in xs| == |xs| <==> forall i, j :: 0 <= i < j < |xs| ==> xs[i] != xs[j]
    decreases |xs|
  {
    if xs != [] {
      var init, last := xs[..|xs| - 1], xs[|xs| - 1];
      SetOf(init);
      assert xs == init + [last];
      assert (set x | x in xs) == (set x | x in init) + {last};
      if last in init {
        var i :| 0 <= i < |init| && init[i] == last;
        assert xs[i] == xs[|xs| - 1];
      }
    }
  }

  /**
    COUNT of distinct values counts every row whose argument is not NULL, as without DISTINCT: it is the number of
    distinct arguments if and only if no two of them are the same.
   */
  lemma DistinctCount(env: Env, d: Doubles, o: Output, keys: seq<Ref>, vals: seq<R.Row>, group: seq<nat>, v: Mem) returns (idx: seq<nat>)
    requires Builtin(env, d) && InRange(group, |vals|) && Shows(env, o, keys, vals, group, v)
    requires o.ShowAggregate? && o.distinct && SameLetters(o.fname, "count") && |group| < 0x8000_0000_0000_0000
    ensures v.Int? && InRange(idx, |group|) && forall a: nat :: a in idx <==> a < |group| && Present(o, vals, group, a)
    ensures
      var xs := ArgumentsAt(o, vals, group, idx);
      v.i as int == |set x | x in xs| <==> forall i, j :: 0 <= i < j < |xs| ==> xs[i] != xs[j]
  {
    hide Builtin, Shows, Present, Values, SameLetters;
    idx := CountShows(env, d, o, keys, vals, group, v);
    forall k | 0 <= k < |idx| ensures idx[k] < |group| {
      assert idx[k] in idx;
    }
    SetOf(ArgumentsAt(o, vals, group, idx));
  }

  /** Two rows that hold 7: COUNT(DISTINCT a) shows 2. */
  lemma CountedTwice(env: Env, d: Doubles)
    requires Builtin(env, d)
    ensures
      var o, vals: seq<R.Row> := ShowAggregate("count", true, Some(Ref("a", 0))), [[R.Int(7)], [R.Int(7)]];
      Shows(env, o, [], vals, [0, 1], Int(2)) && FedLists(o, vals, [0, 1]) == [[Int(7)], [Int(7)]]
  {
    var o, vals: seq<R.Row> := ShowAggregate("count", true, Some(Ref("a", 0))), [[R.Int(7)], [R.Int(7)]];
    var fed := FedLists(o, vals, [0, 1]);
    assert ArgRefs(o) == [Ref("a", 0)];
    assert fed[0] == [Int(7)] && fed[1] == [Int(7)];
    assert fed == [[Int(7)], [Int(7)]];
    CountIs(env, d, fed);
    assert fed[..1] == [[Int(7)]] && fed[..1][..0] == [];
    assert Counted(fed[..1]) == 1 && Counted(fed) == 2;
  }

  /** The value is an argument, not NULL, of a row of the group. */
  ghost predicate Argument(o: Output, vals: seq<R.Row>, group: seq<nat>, v: Mem)
    requires InRange(group, |vals|)
  {
    v != Null && exists a :: 0 <= a < |group| && Values(ArgRefs(o), LoadedRow(vals[group[a]])) == [v]
  }

  lemma OneArgument(o: Output)
    ensures |ArgRefs(o)| <= 1
  {
  }

  lemma ArgumentOccurs(o: Output, vals: seq<R.Row>, group: seq<nat>, v: Mem)
    requires InRange(group, |vals|)
    ensures Occurs(FedLists(o, vals, group), v) <==> Argument(o, vals, group, v)
  {
    var fed := FedLists(o, vals, group);
    hide ArgRefs;
    assert |ArgRefs(o)| <= 1 by {
      OneArgument(o);
    }
    if Occurs(fed, v) {
      var a :| 0 <= a < |fed| && fed[a] != [] && fed[a][0] == v;
      assert fed[a] == [v];
    }
    if Argument(o, vals, group, v) {
      var a :| 0 <= a < |group| && Values(ArgRefs(o), LoadedRow(vals[group[a]])) == [v];
      assert fed[a] == [v];
    }
  }

  /** MIN and MAX show the least and the greatest argument of the group's rows that is not NULL, and NULL when there is none. */
  lemma ExtremeShows(env: Env, d: Doubles, o: Output, keys: seq<Ref>, vals: seq<R.Row>, group: seq<nat>, v: Mem, least: bool)
    requires Builtin(env, d) && InRange(group, |vals|) && Shows(env, o, keys, vals, group, v)
    requires o.ShowAggregate? && SameLetters(o.fname, if least then "min" else "max")
    requires forall a :: 0 <= a < |group| ==> AllPlain(Values(ArgRefs(o), LoadedRow(vals[group[a]])))
    ensures v == Null ==> forall w :: !Argument(o, vals, group, w)
    ensures v != Null ==> Argument(o, vals, group, v)
    ensures v != Null ==> forall w :: Argument(o, vals, group, w) ==> !(if least then Smaller(w, v) else Smaller(v, w))
  {
    hide SameName, SameLetters, AfterAll, Values, ArgRefs, AllPlain, Smaller, Argument, Occurs;
    var fed := FedLists(o, vals, group);
    NameIs(o.fname, least);
    assert AllPlainFed(fed);
    var a, b := ExtremeIs(env, d, fed);
    forall w ensures Occurs(fed, w) <==> Argument(o, vals, group, w) {
      ArgumentOccurs(o, vals, group, w);
    }
    NullNever(fed);
  }

  lemma NullNever(fed: seq<seq<Mem>>)
    ensures !Occurs(fed, Null)
  {
  }

  lemma NameIs(f: string, least: bool)
    requires SameLetters(f, if least then "min" else "max")
    ensures !SameName(f, "count") && !SameName(f, "sum") && !SameName(f, "avg") && (SameName(f, "min") <==> least) && (SameName(f, "max") <==> !least)
  {
    SameNameIs(f, if least then "min" else "max");
    assert Lower('m') == 'm' && Lower('c') == 'c' && Lower('s') == 's' && Lower('i') == 'i' && Lower('a') == 'a';
    assert SameName(f, if least then "min" else "max");
    assert Lower(f[0]) == 'm' && Lower(f[1]) == if least then 'i' else 'a';
  }

  /** SUM shows the sum of the arguments when they are integers whose sums stay within 64 bits, and NULL without any. */
  lemma SumShows(env: Env, d: Doubles, o: Output, keys: seq<Ref>, vals: seq<R.Row>, group: seq<nat>, v: Mem)
    requires Builtin(env, d) && InRange(group, |vals|) && Shows(env, o, keys, vals, group, v)
    requires o.ShowAggregate? && SameLetters(o.fname, "sum") && Summable(FedLists(o, vals, group))
    ensures v == Null ==> forall w :: !Argument(o, vals, group, w)
    ensures v != Null ==> v.Int? && v.i as int == Total(FedLists(o, vals, group))
  {
    hide SameName, SameLetters, AfterAll, Total, Argument, Occurs, Summable;
    var fed := FedLists(o, vals, group);
    SameNameIs(o.fname, "sum");
    NotCount(o.fname);
    SumIs(env, d, fed);
    forall w ensures Occurs(fed, w) <==> Argument(o, vals, group, w) {
      ArgumentOccurs(o, vals, group, w);
    }
  }

  lemma NotCount(f: string)
    requires SameName(f, "sum")
    ensures !SameName(f, "count")
  {
    assert |f| == 3;
  }
}
