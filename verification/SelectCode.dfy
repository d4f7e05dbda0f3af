/** The code of a single-table SELECT without ORDER BY or LIMIT, and the rows that running it yields. */
module SelectCode {
  import opened Bytes
  import opened Mem
  import opened Vdbe
  import opened Ast
  import opened ExprCode
  import opened ExprMeaning
  import opened WhereCode
  import opened Projection

  datatype ResultColumn = StarColumn | ExprColumn(e: Expr)

  /** `root` and `names` are the root page and the column names of the table. */
  datatype Query = Query(columns: seq<ResultColumn>, filter: Option<Expr>, root: int, names: seq<string>)

  // ---- Output columns ----

  function Stars(n: nat): (s: seq<Option<nat>>)
    ensures |s| == n && forall i :: 0 <= i < n ==> s[i] == Some(i)
  {
    if n == 0 then [] else Stars(n - 1) + [Some(n - 1)]
  }

  function Directs(n: nat): (s: seq<Item>)
    ensures |s| == n
  {
    if n == 0 then [] else Directs(n - 1) + [Direct(n - 1)]
  }

  /** A star becomes all table columns; a plain column its position; anything else is left for later (None). */
  function Resolved(columns: seq<ResultColumn>, names: seq<string>): Option<seq<Option<nat>>> {
    if columns == [] then Some([])
    else
      match Resolved(columns[..|columns| - 1], names)
      case None => None
      case Some(rs) => (
        match columns[|columns| - 1]
        case StarColumn => Some(rs + Stars(|names|))
        case ExprColumn(e) =>
          if !e.Column? then Some(rs + [None])
          else match Position(names, e.name) case None => None case Some(i) => Some(rs + [Some(i)]))
  }

  /** The first k output columns as compiled: one that was left for later is looked up by its own output position. */
  function ItemsUpTo(rs: seq<Option<nat>>, columns: seq<ResultColumn>, k: nat): Option<seq<Item>>
    requires k <= |rs|
  {
    if k == 0 then Some([])
    else
      match ItemsUpTo(rs, columns, k - 1)
      case None => None
      case Some(items) =>
        if rs[k - 1].Some? then Some(items + [Direct(rs[k - 1].value)])
        else if k - 1 < |columns| && columns[k - 1].ExprColumn? then Some(items + [Computed(columns[k - 1].e)])
        else None
  }

  function Items(q: Query): Option<seq<Item>> {
    match Resolved(q.columns, q.names)
    case None => None
    case Some(rs) => ItemsUpTo(rs, q.columns, |rs|)
  }

  /** The output columns that the query asks for. */
  function Wanted(columns: seq<ResultColumn>, names: seq<string>): Option<seq<Item>> {
    if columns == [] then Some([])
    else
      match Wanted(columns[..|columns| - 1], names)
      case None => None
      case Some(items) => (
        match columns[|columns| - 1]
        case StarColumn => Some(items + Directs(|names|))
        case ExprColumn(e) =>
          if !e.Column? then Some(items + [Computed(e)])
          else match Position(names, e.name) case None => None case Some(i) => Some(items + [Direct(i)]))
  }

  /** No computed column follows a star, unless every star before it stands for exactly one column. */
  predicate Aligned(columns: seq<ResultColumn>, names: seq<string>) {
    |names| == 1 || forall i, j :: 0 <= i < j < |columns| && columns[i].StarColumn? && columns[j].ExprColumn? ==> columns[j].e.Column?
  }

  /** The number of output columns. */
  function Width(columns: seq<ResultColumn>, names: seq<string>): nat {
    if columns == [] then 0
    else Width(columns[..|columns| - 1], names) + if columns[|columns| - 1].StarColumn? then |names| else 1
  }

  lemma {:induction false} WidthResolved(columns: seq<ResultColumn>, names: seq<string>)
    requires Resolved(columns, names).Some?
    ensures |Resolved(columns, names).value| == Width(columns, names)
  {
    if columns != [] {
      WidthResolved(columns[..|columns| - 1], names);
    }
  }

  lemma {:induction false} WidthWithoutStars(columns: seq<ResultColumn>, names: seq<string>)
    requires |names| == 1 || forall i :: 0 <= i < |columns| ==> columns[i].ExprColumn?
    ensures Width(columns, names) == |columns|
  {
    if columns != [] {
      WidthWithoutStars(columns[..|columns| - 1], names);
    }
  }

  lemma {:induction false} ItemsPrefix(a: seq<Option<nat>>, b: seq<Option<nat>>, c: seq<ResultColumn>, d: seq<ResultColumn>, k: nat)
    requires k <= |a| && k <= |b| && forall i :: 0 <= i < k ==> a[i] == b[i]
    requires forall i :: 0 <= i < k && a[i] == None ==> i < |c| && i < |d| && c[i] == d[i]
    ensures ItemsUpTo(a, c, k) == ItemsUpTo(b, d, k)
  {
    if k > 0 {
      ItemsPrefix(a, b, c, d, k - 1);
    }
  }

  lemma {:induction false} ItemsStar(rs: seq<Option<nat>>, columns: seq<ResultColumn>, n: nat, k: nat)
    requires k <= n && ItemsUpTo(rs, columns, |rs|).Some?
    ensures ItemsUpTo(rs + Stars(n), columns, |rs| + k) == Some(ItemsUpTo(rs, columns, |rs|).value + Directs(k))
    decreases k
  {
    var items := ItemsUpTo(rs, columns, |rs|).value;
    if k == 0 {
      ItemsSame(rs, rs + Stars(n), columns, |rs|);
      assert items + [] == items;
    } else {
      ItemsStar(rs, columns, n, k - 1);
      assert (rs + Stars(n))[|rs| + k - 1] == Some(k - 1);
      assert items + Directs(k) == items + Directs(k - 1) + [Direct(k - 1)];
    }
  }

  lemma {:induction false} ItemsSame(a: seq<Option<nat>>, b: seq<Option<nat>>, columns: seq<ResultColumn>, k: nat)
    requires k <= |a| && k <= |b| && forall i :: 0 <= i < k ==> a[i] == b[i]
    ensures ItemsUpTo(a, columns, k) == ItemsUpTo(b, columns, k)
  {
    if k > 0 {
      ItemsSame(a, b, columns, k - 1);
    }
  }

  /** Every output column left for later belongs to a computed result column at the same position. */
  lemma {:induction false} LaterAligned(columns: seq<ResultColumn>, names: seq<string>)
    requires Aligned(columns, names) && Resolved(columns, names).Some?
    ensures
      var rs := Resolved(columns, names).value;
      forall i :: 0 <= i < |rs| && rs[i] == None ==> i < |columns| && columns[i].ExprColumn?
  {
    if columns != [] {
      var init, last := columns[..|columns| - 1], columns[|columns| - 1];
      LaterAligned(init, names);
      WidthResolved(init, names);
      if last.ExprColumn? && !last.e.Column? {
        WidthWithoutStars(init, names);
      }
    }
  }

  /** The compiled output columns are the wanted ones when no computed column follows a star. */
  lemma {:induction false} ItemsWanted(columns: seq<ResultColumn>, names: seq<string>)
    requires Aligned(columns, names)
    ensures Resolved(columns, names).Some? == Wanted(columns, names).Some?
    ensures Resolved(columns, names).Some? ==>
      ItemsUpTo(Resolved(columns, names).value, columns, |Resolved(columns, names).value|) == Wanted(columns, names)
  {
    if columns != [] {
      var init, last := columns[..|columns| - 1], columns[|columns| - 1];
      ItemsWanted(init, names);
      if Resolved(columns, names).Some? {
        var rs, all := Resolved(init, names).value, Resolved(columns, names).value;
        LaterAligned(init, names);
        ItemsPrefix(rs, all, init, columns, |rs|);
        WidthResolved(init, names);
        if last.StarColumn? {
          ItemsPrefix(rs, rs, init, columns, |rs|);
          ItemsStar(rs, columns, |names|, |names|);
        } else if !last.e.Column? {
          WidthWithoutStars(init, names);
        }
      }
    }
  }

  // ---- The condition is exact ----

  predicate IsComputed(c: ResultColumn) {
    c.ExprColumn? && !c.e.Column?
  }

  lemma {:induction false} ComputedAt(columns: seq<ResultColumn>, names: seq<string>, j: nat)
    requires j < |columns| && IsComputed(columns[j]) && Resolved(columns, names).Some? && Wanted(columns, names).Some?
    ensures
      var p := Width(columns[..j], names);
      var rs, ws := Resolved(columns, names).value, Wanted(columns, names).value;
      p < |rs| && p < |ws| && rs[p] == None && ws[p] == Computed(columns[j].e)
    decreases |columns|
  {
    var init := columns[..|columns| - 1];
    if j == |columns| - 1 {
      WidthResolved(init, names);
      WidthWanted(init, names);
    } else {
      assert init[..j] == columns[..j];
      ComputedAt(init, names, j);
    }
  }

  lemma {:induction false} WidthWanted(columns: seq<ResultColumn>, names: seq<string>)
    requires Wanted(columns, names).Some?
    ensures |Wanted(columns, names).value| == Width(columns, names)
  {
    if columns != [] {
      WidthWanted(columns[..|columns| - 1], names);
    }
  }

  lemma {:induction false} ItemAt(rs: seq<Option<nat>>, columns: seq<ResultColumn>, k: nat, i: nat)
    requires i < k <= |rs| && rs[i] == None && ItemsUpTo(rs, columns, k).Some?
    ensures |ItemsUpTo(rs, columns, k).value| == k
    ensures i < |columns| && columns[i].ExprColumn? && ItemsUpTo(rs, columns, k).value[i] == Computed(columns[i].e)
    decreases k
  {
    ItemsLength(rs, columns, k - 1);
    if i < k - 1 {
      ItemAt(rs, columns, k - 1, i);
    }
  }

  lemma {:induction false} ItemsLength(rs: seq<Option<nat>>, columns: seq<ResultColumn>, k: nat)
    requires k <= |rs| && ItemsUpTo(rs, columns, k).Some?
    ensures |ItemsUpTo(rs, columns, k).value| == k
  {
    if k > 0 {
      ItemsLength(rs, columns, k - 1);
    }
  }

  lemma {:induction false} WidthAtLeast(columns: seq<ResultColumn>, names: seq<string>)
    requires |names| >= 2
    ensures Width(columns, names) >= |columns|
    ensures (exists i :: 0 <= i < |columns| && columns[i].StarColumn?) ==> Width(columns, names) > |columns|
  {
    if columns != [] {
      WidthAtLeast(columns[..|columns| - 1], names);
      if i :| 0 <= i < |columns| && columns[i].StarColumn? {
        assert i < |columns| - 1 ==> columns[..|columns| - 1][i].StarColumn?;
      }
    }
  }

  lemma {:induction false} LastComputed(columns: seq<ResultColumn>) returns (j: nat)
    requires exists i :: 0 <= i < |columns| && IsComputed(columns[i])
    ensures j < |columns| && IsComputed(columns[j]) && forall i :: j < i < |columns| ==> !IsComputed(columns[i])
  {
    if IsComputed(columns[|columns| - 1]) {
      j := |columns| - 1;
    } else {
      var i :| 0 <= i < |columns| && IsComputed(columns[i]);
      assert columns[..|columns| - 1][i] == columns[i];
      j := LastComputed(columns[..|columns| - 1]);
    }
  }

  /** For a table with columns: the compiled output columns are the wanted ones exactly when no computed column follows a wide star. */
  lemma ItemsWantedIff(q: Query)
    requires |q.names| >= 1 && Wanted(q.columns, q.names).Some?
    ensures Items(q) == Wanted(q.columns, q.names) <==> Aligned(q.columns, q.names)
  {
    var columns, names := q.columns, q.names;
    ResolvedWanted(columns, names);
    if Aligned(columns, names) {
      ItemsWanted(columns, names);
    } else if Items(q) == Wanted(columns, names) {
      var i, k :| 0 <= i < k < |columns| && columns[i].StarColumn? && columns[k].ExprColumn? && !columns[k].e.Column?;
      assert IsComputed(columns[k]);
      var j := LastComputed(columns);
      assert columns[..j][i].StarColumn?;
      WidthAtLeast(columns[..j], names);
      ComputedAt(columns, names, j);
      var rs := Resolved(columns, names).value;
      ItemAt(rs, columns, |rs|, Width(columns[..j], names));
      assert false;
    }
  }

  lemma {:induction false} ResolvedWanted(columns: seq<ResultColumn>, names: seq<string>)
    ensures Resolved(columns, names).Some? == Wanted(columns, names).Some?
  {
    if columns != [] {
      ResolvedWanted(columns[..|columns| - 1], names);
    }
  }

  /** With columns a and b, `SELECT *, 7, a` is compiled as `SELECT *, a, a`. */
  lemma StarThenComputed()
    ensures
      var a, seven := Expr.Column("a"), Literal(Number(7));
      var q := Query([StarColumn, ExprColumn(seven), ExprColumn(a)], None, 2, ["a", "b"]);
      && Items(q) == Some([Direct(0), Direct(1), Computed(a), Direct(0)])
      && Wanted(q.columns, q.names) == Some([Direct(0), Direct(1), Computed(seven), Direct(0)])
  {
    var a, seven := Expr.Column("a"), Literal(Number(7));
    var q := Query([StarColumn, ExprColumn(seven), ExprColumn(a)], None, 2, ["a", "b"]);
    assert q.columns[..2] == [StarColumn, ExprColumn(seven)] && [StarColumn, ExprColumn(seven)][..1] == [StarColumn] && [StarColumn][..0] == [];
    assert Position(q.names, "a") == Some(0);
    assert Stars(1) == [Some(0)] && Stars(2) == [Some(0), Some(1)];
    assert Directs(1) == [Direct(0)] && Directs(2) == [Direct(0), Direct(1)];
    assert Resolved([StarColumn], q.names) == Some([] + Stars(2));
    assert Resolved([StarColumn, ExprColumn(seven)], q.names) == Some([] + Stars(2) + [None]);
    assert [] + Stars(2) + [None] + [Some(0)] == [Some(0), Some(1), None, Some(0)];
    var rs: seq<Option<nat>> := [Some(0), Some(1), None, Some(0)];
    assert Resolved(q.columns, q.names) == Some(rs);
    assert ItemsUpTo(rs, q.columns, 0) == Some([]);
    assert [] + [Direct(0)] == [Direct(0)] && [Direct(0)] + [Direct(1)] == [Direct(0), Direct(1)];
    assert ItemsUpTo(rs, q.columns, 1) == Some([Direct(0)]);
    assert ItemsUpTo(rs, q.columns, 2) == Some([Direct(0), Direct(1)]);
    assert [Direct(0), Direct(1)] + [Computed(a)] == [Direct(0), Direct(1), Computed(a)];
    assert ItemsUpTo(rs, q.columns, 3) == Some([Direct(0), Direct(1), Computed(a)]);
    assert [Direct(0), Direct(1), Computed(a)] + [Direct(0)] == [Direct(0), Direct(1), Computed(a), Direct(0)];
    assert ItemsUpTo(rs, q.columns, 4) == Some([Direct(0), Direct(1), Computed(a), Direct(0)]);
    assert Wanted([StarColumn], q.names) == Some([] + Directs(2));
    assert Wanted([StarColumn, ExprColumn(seven)], q.names) == Some([] + Directs(2) + [Computed(seven)]);
    assert [] + Directs(2) + [Computed(seven)] + [Direct(0)] == [Direct(0), Direct(1), Computed(seven), Direct(0)];
  }
}
