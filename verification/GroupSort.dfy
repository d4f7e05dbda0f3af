/**
  Comparing only neighbours after a sort is enough: the groups are exactly the classes of equal
  keys, in ascending order.
 */
module GroupSort {
  import opened Bytes
  import opened Mem
  import opened Vdbe
  import opened Ast
  import opened ExprCode
  import opened Projection
  import opened SelectMeaning
  import opened GroupCode
  import opened GroupBlocks
  import opened GroupMeaning
  import opened GroupScan
  import R = Record

  // ---- Keys ----

  predicate Decodes(env: Env, rs: seq<Data>, n: nat) {
    forall i :: 0 <= i < |rs| ==> FieldsFrom(env, rs[i], 0, n).Some?
  }

  function KeyOf(env: Env, data: Data, n: nat): (ks: seq<Mem>)
    requires FieldsFrom(env, data, 0, n).Some?
    ensures |ks| == n
  {
    FieldsFrom(env, data, 0, n).value
  }

  function CmpKeys(env: Env, a: seq<Mem>, b: seq<Mem>): Order
    requires |a| == |b|
  {
    if a == [] then Equal
    else
      var o := Cmp(env, a[0], b[0]);
      if o != Equal then o else CmpKeys(env, a[1..], b[1..])
  }

  lemma {:induction false} FieldAt(env: Env, data: Data, n: nat, i: nat)
    requires i < n && FieldsFrom(env, data, 0, n).Some?
    ensures FieldOf(env, data, i) == Some(KeyOf(env, data, n)[i])
    decreases n
  {
    hide FieldOf;
    if i < n - 1 {
      FieldAt(env, data, n - 1, i);
    }
  }

  /** Records with at least n fields compare as their keys do, when the keys differ. */
  lemma {:induction false} CmpPrefix(env: Env, a: seq<R.Value>, b: seq<R.Value>, ka: seq<Mem>, kb: seq<Mem>)
    requires |ka| == |kb| && |ka| <= |a| && |ka| <= |b|
    requires forall i :: 0 <= i < |ka| ==> ka[i] == FromValue(env, a[i]) && kb[i] == FromValue(env, b[i])
    ensures CmpKeys(env, ka, kb) != Equal ==> CmpFields(env, a, b) == CmpKeys(env, ka, kb)
    decreases |ka|
  {
    hide Cmp, FromValue;
    if ka != [] {
      assert ka[0] == FromValue(env, a[0]) && kb[0] == FromValue(env, b[0]);
      if Cmp(env, ka[0], kb[0]) == Equal {
        CmpPrefix(env, a[1..], b[1..], ka[1..], kb[1..]);
      }
    }
  }

  /** At least n fields are stored. */
  predicate Holds(data: Data, n: nat) {
    |Fields(data)| >= n
  }

  lemma RecordKeys(env: Env, a: Data, b: Data, n: nat)
    requires FieldsFrom(env, a, 0, n).Some? && FieldsFrom(env, b, 0, n).Some? && Holds(a, n) && Holds(b, n)
    ensures
      var ka, kb := KeyOf(env, a, n), KeyOf(env, b, n);
      CmpKeys(env, ka, kb) != Equal ==> CmpRecords(env, a, b) == CmpKeys(env, ka, kb)
  {
    hide CmpFields, CmpKeys;
    var ka, kb := KeyOf(env, a, n), KeyOf(env, b, n);
    forall i | 0 <= i < n ensures ka[i] == FromValue(env, Fields(a)[i]) && kb[i] == FromValue(env, Fields(b)[i]) {
      FieldAt(env, a, n, i);
      FieldAt(env, b, n, i);
    }
    CmpPrefix(env, Fields(a), Fields(b), ka, kb);
  }

  // ---- The sort ----

  /** The comparison is a total preorder on these records. */
  ghost predicate Preorder(env: Env, rs: seq<Data>) {
    && (forall a, b :: a in rs && b in rs ==> CmpRecords(env, b, a) == Opposite(CmpRecords(env, a, b)))
    && (forall a, b, c :: a in rs && b in rs && c in rs && CmpRecords(env, a, b) != Greater && CmpRecords(env, b, c) != Greater ==>
          CmpRecords(env, a, c) != Greater)
  }

  ghost predicate Sorted(env: Env, rs: seq<Data>) {
    forall i, j :: 0 <= i < j < |rs| ==> CmpRecords(env, rs[i], rs[j]) != Greater
  }

  lemma {:induction false} InsertMultiset(env: Env, s: seq<Data>, x: Data)
    ensures multiset(InsertRecord(env, s, x)) == multiset(s) + multiset{x}
    decreases |s|
  {
    hide CmpRecords;
    if s != [] && CmpRecords(env, s[|s| - 1], x) == Greater {
      InsertMultiset(env, s[..|s| - 1], x);
      assert s == s[..|s| - 1] + [s[|s| - 1]];
    }
  }

  lemma {:induction false} InsertMember(env: Env, s: seq<Data>, x: Data, i: nat)
    requires i < |InsertRecord(env, s, x)|
    ensures InsertRecord(env, s, x)[i] == x || exists j :: 0 <= j < |s| && s[j] == InsertRecord(env, s, x)[i]
    decreases |s|
  {
    hide CmpRecords;
    if s != [] && CmpRecords(env, s[|s| - 1], x) == Greater {
      var init := s[..|s| - 1];
      var t := InsertRecord(env, init, x);
      if i < |t| {
        InsertMember(env, init, x, i);
        if t[i] != x {
          var j :| 0 <= j < |init| && init[j] == t[i];
          assert s[j] == t[i];
        }
      } else {
        assert s[|s| - 1] == InsertRecord(env, s, x)[i];
      }
    } else if i < |s| {
      assert s[i] == InsertRecord(env, s, x)[i];
    }
  }

  lemma {:induction false} InsertSorted(env: Env, s: seq<Data>, x: Data, all: seq<Data>)
    requires Preorder(env, all) && Sorted(env, s) && x in all && forall i :: 0 <= i < |s| ==> s[i] in all
    ensures Sorted(env, InsertRecord(env, s, x))
    decreases |s|
  {
    hide CmpRecords;
    if s == [] {
    } else if CmpRecords(env, s[|s| - 1], x) == Greater {
      var init, last := s[..|s| - 1], s[|s| - 1];
      InsertSorted(env, init, x, all);
      var t := InsertRecord(env, init, x);
      forall i | 0 <= i < |t| ensures CmpRecords(env, t[i], last) != Greater {
        InsertMember(env, init, x, i);
        if t[i] != x {
          var j :| 0 <= j < |init| && init[j] == t[i];
          assert s[j] == t[i];
        }
      }
      SortedOneMore(env, t, last);
    } else {
      var last := s[|s| - 1];
      forall i | 0 <= i < |s| ensures CmpRecords(env, s[i], x) != Greater {
        if i < |s| - 1 {
          assert CmpRecords(env, s[i], last) != Greater;
        }
      }
      SortedOneMore(env, s, x);
    }
  }

  lemma SortedOneMore(env: Env, s: seq<Data>, x: Data)
    requires Sorted(env, s) && forall i :: 0 <= i < |s| ==> CmpRecords(env, s[i], x) != Greater
    ensures Sorted(env, s + [x])
  {
    hide CmpRecords;
  }

  /** The sort permutes the records into ascending order. */
  lemma {:induction false} SortOk(env: Env, rs: seq<Data>, all: seq<Data>)
    requires Preorder(env, all) && forall i :: 0 <= i < |rs| ==> rs[i] in all
    ensures multiset(Sort(env, rs)) == multiset(rs) && Sorted(env, Sort(env, rs))
    decreases |rs|
  {
    hide CmpRecords, Sorted, Preorder;
    if rs == [] {
      NothingSorted(env);
    } else {
      var init, last := rs[..|rs| - 1], rs[|rs| - 1];
      SortOk(env, init, all);
      var t := Sort(env, init);
      forall i | 0 <= i < |t| ensures t[i] in all {
        assert t[i] in multiset(t);
        assert t[i] in init;
      }
      InsertMultiset(env, t, last);
      InsertSorted(env, t, last, all);
      assert rs == init + [last];
    }
  }

  lemma NothingSorted(env: Env)
    ensures Sorted(env, [])
  {
  }

  /** The records that compare as equal to x, in order. */
  function Alike(env: Env, s: seq<Data>, x: Data): seq<Data> {
    if s == [] then [] else Alike(env, s[..|s| - 1], x) + if CmpRecords(env, s[|s| - 1], x) == Equal then [s[|s| - 1]] else []
  }

  lemma AlikeLast(env: Env, s: seq<Data>, y: Data, x: Data)
    ensures Alike(env, s + [y], x) == Alike(env, s, x) + if CmpRecords(env, y, x) == Equal then [y] else []
  {
    assert (s + [y])[..|s|] == s;
  }

  /** Two records that both compare as equal to x do not compare as greater. */
  lemma AlikeEqual(env: Env, a: Data, b: Data, x: Data, all: seq<Data>)
    requires Preorder(env, all) && a in all && b in all && x in all
    requires CmpRecords(env, a, x) == Equal && CmpRecords(env, b, x) == Equal
    ensures CmpRecords(env, a, b) != Greater
  {
    hide CmpRecords;
    assert CmpRecords(env, x, b) == Opposite(CmpRecords(env, b, x));
  }

  lemma {:induction false} InsertStable(env: Env, s: seq<Data>, y: Data, x: Data, all: seq<Data>)
    requires Preorder(env, all) && y in all && x in all && forall i :: 0 <= i < |s| ==> s[i] in all
    ensures Alike(env, InsertRecord(env, s, y), x) == Alike(env, s + [y], x)
    decreases |s|
  {
    hide CmpRecords, Preorder;
    AlikeLast(env, s, y, x);
    if s != [] && CmpRecords(env, s[|s| - 1], y) == Greater {
      var init, last := s[..|s| - 1], s[|s| - 1];
      InsertStable(env, init, y, x, all);
      AlikeLast(env, InsertRecord(env, init, y), last, x);
      AlikeLast(env, init, y, x);
      if CmpRecords(env, last, x) == Equal && CmpRecords(env, y, x) == Equal {
        AlikeEqual(env, last, y, x, all);
      }
    }
  }

  lemma SortWithin(env: Env, rs: seq<Data>, all: seq<Data>)
    requires Preorder(env, all) && forall i :: 0 <= i < |rs| ==> rs[i] in all
    ensures var t := Sort(env, rs); forall i :: 0 <= i < |t| ==> t[i] in all
  {
    hide CmpRecords, Preorder, Sorted, Sort;
    SortOk(env, rs, all);
    var t := Sort(env, rs);
    forall i | 0 <= i < |t| ensures t[i] in all {
      assert t[i] in multiset(t);
      assert t[i] in rs;
    }
  }

  /** Records that compare as equal keep their order. */
  lemma {:induction false} SortStable(env: Env, rs: seq<Data>, x: Data, all: seq<Data>)
    requires Preorder(env, all) && x in all && forall i :: 0 <= i < |rs| ==> rs[i] in all
    ensures Alike(env, Sort(env, rs), x) == Alike(env, rs, x)
    decreases |rs|
  {
    hide CmpRecords, Preorder, Alike, InsertRecord;
    if rs != [] {
      var init, last := rs[..|rs| - 1], rs[|rs| - 1];
      SortStable(env, init, x, all);
      SortWithin(env, init, all);
      var t := Sort(env, init);
      InsertStable(env, t, last, x, all);
      AlikeLast(env, t, last, x);
      AlikeLast(env, init, last, x);
      assert rs == init + [last];
    }
  }

  // ---- Groups ----

  /** Record j has the key of record g, as Ne sees it. */
  predicate SameAs(env: Env, rs: seq<Data>, n: nat, g: nat, j: nat)
    requires g < |rs| && j < |rs| && Decodes(env, rs, n)
  {
    SameKeys(env, KeyOf(env, rs[g], n), KeyOf(env, rs[j], n))
  }

  /** The end of the group that starts at g: the first later record whose key differs from its key. */
  function GroupEnd(env: Env, rs: seq<Data>, n: nat, g: nat, i: nat): (e: nat)
    requires g < i <= |rs| && Decodes(env, rs, n)
    ensures i <= e <= |rs|
    ensures forall j :: i <= j < e ==> SameAs(env, rs, n, g, j)
    ensures e < |rs| ==> !SameAs(env, rs, n, g, e)
    decreases |rs| - i
  {
    if i == |rs| || !SameAs(env, rs, n, g, i) then i else GroupEnd(env, rs, n, g, i + 1)
  }

  /** The aggregates after the records of a group. */
  function Fold(env: Env, q: GroupQuery, group: seq<Data>): (r: Option<States>)
    ensures r.Some? ==> |r.value| == |Aggregates(q.columns)|
  {
    var aggs := Aggregates(q.columns);
    if group == [] then Some(NoStates(|aggs|))
    else
      match Fold(env, q, group[..|group| - 1])
      case None => None
      case Some(st) => FedAll(env, |q.groupBy|, aggs, st, group[|group| - 1], |aggs|)
  }

  /** One row a group: the fold over its records, and a key, its first record's or, in the last group, its last record's. */
  function GroupsAnswer(env: Env, q: GroupQuery, rs: seq<Data>, g: nat): Answer
    requires g < |rs| && Decodes(env, rs, |q.groupBy|)
    decreases |rs| - g
  {
    var n := |q.groupBy|;
    var e := GroupEnd(env, rs, n, g, g + 1);
    match Fold(env, q, rs[g..e])
    case None => Answer([], false)
    case Some(st) =>
      match RowFor(env, q, st, KeyOf(env, rs[if e < |rs| then g else e - 1], n))
      case None => Answer([], false)
      case Some(row) =>
        if e < |rs| then
          var rest := GroupsAnswer(env, q, rs, e);
          Answer([row] + rest.rows, rest.ok)
        else Answer([row], true)
  }

  lemma FoldStep(env: Env, q: GroupQuery, rs: seq<Data>, g: nat, i: nat)
    requires g <= i < |rs|
    ensures
      var aggs := Aggregates(q.columns);
      Fold(env, q, rs[g..i + 1]) == match Fold(env, q, rs[g..i]) case None => None case Some(st) => FedAll(env, |q.groupBy|, aggs, st, rs[i], |aggs|)
  {
    hide FedAll, Aggregates;
    assert rs[g..i + 1][..|rs[g..i + 1]| - 1] == rs[g..i];
  }

  lemma {:induction false} FoldFails(env: Env, q: GroupQuery, rs: seq<Data>, g: nat, i: nat, e: nat)
    requires g <= i <= e <= |rs| && Fold(env, q, rs[g..i]) == None
    ensures Fold(env, q, rs[g..e]) == None
    decreases e
  {
    hide FedAll, Aggregates;
    if i < e {
      FoldFails(env, q, rs, g, i, e - 1);
      FoldStep(env, q, rs, g, e - 1);
    }
  }

  lemma DecodesAll(env: Env, rs: seq<Data>, n: nat)
    requires Decodes(env, rs, n)
    ensures forall i :: 0 <= i < |rs| ==> FieldsFrom(env, rs[i], 0, n).Some?
  {
  }

  /** In the middle of a group, the record-by-record output is the output of the group and the later ones. */
  lemma {:induction false} InGroup(env: Env, q: GroupQuery, rs: seq<Data>, g: nat, i: nat, st: States)
    requires Decodes(env, rs, |q.groupBy|) && g <= i < |rs| && Fold(env, q, rs[g..i]) == Some(st)
    requires g == i || GroupEnd(env, rs, |q.groupBy|, g, g + 1) == GroupEnd(env, rs, |q.groupBy|, g, i)
    requires g == i || SameAs(env, rs, |q.groupBy|, g, i)
    ensures Continue(env, q, rs, i, st, KeyOf(env, rs[g], |q.groupBy|), KeyOf(env, rs[i], |q.groupBy|)) == GroupsAnswer(env, q, rs, g)
    decreases |rs| - i, 0
  {
    hide FedAll, Aggregates, RowFor, SameAs, Fold, KeyOf, Decodes, GroupsFrom, FieldsFrom;
    var n := |q.groupBy|;
    DecodesAll(env, rs, n);
    var e := GroupEnd(env, rs, n, g, g + 1);
    FoldStep(env, q, rs, g, i);
    assert e == GroupEnd(env, rs, n, g, i + 1);
    match Fold(env, q, rs[g..i + 1])
    case None =>
      FoldFails(env, q, rs, g, i + 1, e);
    case Some(st1) =>
      if i + 1 < |rs| {
        NextInGroup(env, q, rs, g, i + 1, st1);
      }
  }

  lemma {:induction false} NextInGroup(env: Env, q: GroupQuery, rs: seq<Data>, g: nat, i: nat, st: States)
    requires Decodes(env, rs, |q.groupBy|) && g < i < |rs| && Fold(env, q, rs[g..i]) == Some(st)
    requires GroupEnd(env, rs, |q.groupBy|, g, g + 1) == GroupEnd(env, rs, |q.groupBy|, g, i)
    ensures GroupsFrom(env, q, rs, i, st, Some(KeyOf(env, rs[g], |q.groupBy|))) == GroupsAnswer(env, q, rs, g)
    decreases |rs| - i, 1
  {
    hide FedAll, Aggregates, RowFor, SameKeys, Fold, Continue;
    var n := |q.groupBy|;
    if SameAs(env, rs, n, g, i) {
      InGroup(env, q, rs, g, i, st);
    } else {
      assert GroupEnd(env, rs, n, g, i) == i;
      NoneFed(env, q, rs, i);
      InGroup(env, q, rs, i, i, NoStates(|Aggregates(q.columns)|));
    }
  }

  lemma NoneFed(env: Env, q: GroupQuery, rs: seq<Data>, i: nat)
    requires i <= |rs|
    ensures Fold(env, q, rs[i..i]) == Some(NoStates(|Aggregates(q.columns)|))
  {
    assert rs[i..i] == [];
  }

  /** The record-by-record output over sorted records is one row a group. */
  lemma AnswerIsGroups(env: Env, q: GroupQuery, rs: seq<Data>)
    requires rs != [] && Decodes(env, rs, |q.groupBy|)
    ensures SortedAnswer(env, q, rs) == GroupsAnswer(env, q, rs, 0)
  {
    hide FedAll, Aggregates, RowFor, SameKeys, Fold, Continue;
    NoneFed(env, q, rs, 0);
    InGroup(env, q, rs, 0, 0, NoStates(|Aggregates(q.columns)|));
  }

  // ---- Groups are key classes ----

  /** On these records, Ne and Cmp agree about which keys are equal, and keys are totally preordered. */
  ghost predicate Agree(env: Env, rs: seq<Data>, n: nat) {
    && Decodes(env, rs, n) && (forall i :: 0 <= i < |rs| ==> Holds(rs[i], n))
    && forall i, j, k :: 0 <= i < |rs| && 0 <= j < |rs| && 0 <= k < |rs| ==> AgreeAt(env, rs, n, i, j, k)
  }

  ghost predicate AgreeAt(env: Env, rs: seq<Data>, n: nat, i: nat, j: nat, k: nat)
    requires i < |rs| && j < |rs| && k < |rs| && Decodes(env, rs, n)
  {
    && (SameAs(env, rs, n, i, j) <==> Between(env, rs, n, i, j) == Equal)
    && Between(env, rs, n, j, i) == Opposite(Between(env, rs, n, i, j))
    && (Between(env, rs, n, i, j) == Less && Between(env, rs, n, j, k) != Greater ==> Between(env, rs, n, i, k) == Less)
    && (Between(env, rs, n, i, j) == Equal && Between(env, rs, n, j, k) == Less ==> Between(env, rs, n, i, k) == Less)
    && (Between(env, rs, n, i, j) == Equal && Between(env, rs, n, j, k) == Equal ==> Between(env, rs, n, i, k) == Equal)
  }

  /** Record i's key compared with record j's. */
  function Between(env: Env, rs: seq<Data>, n: nat, i: nat, j: nat): Order
    requires i < |rs| && j < |rs| && Decodes(env, rs, n)
  {
    CmpKeys(env, KeyOf(env, rs[i], n), KeyOf(env, rs[j], n))
  }

  lemma KeysAscend(env: Env, rs: seq<Data>, n: nat, i: nat, j: nat)
    requires Sorted(env, rs) && Agree(env, rs, n) && i < j < |rs|
    ensures Between(env, rs, n, i, j) != Greater
  {
    hide CmpRecords, CmpKeys, FieldsFrom, Fields;
    assert Holds(rs[i], n) && Holds(rs[j], n);
    RecordKeys(env, rs[i], rs[j], n);
  }

  /** Every earlier record has a smaller key. */
  ghost predicate StartsGroup(env: Env, rs: seq<Data>, n: nat, g: nat)
    requires g < |rs| && Decodes(env, rs, n)
  {
    forall j :: 0 <= j < g ==> Between(env, rs, n, j, g) == Less
  }

  /**
    The group that starts at g holds exactly the records with the key of record g, and the next
    group starts with a larger key: one group for each distinct key, in ascending order.
   */
  lemma GroupIsKeyClass(env: Env, rs: seq<Data>, n: nat, g: nat)
    requires Sorted(env, rs) && Agree(env, rs, n) && g < |rs| && StartsGroup(env, rs, n, g)
    ensures var e := GroupEnd(env, rs, n, g, g + 1); forall j :: 0 <= j < |rs| ==> (g <= j < e <==> Between(env, rs, n, g, j) == Equal)
    ensures var e := GroupEnd(env, rs, n, g, g + 1); e < |rs| ==> StartsGroup(env, rs, n, e) && Between(env, rs, n, g, e) == Less
  {
    hide FieldsFrom, SameAs, KeyOf, Sorted, Between, CmpKeys, AgreeAt, Agree, Decodes, Holds;
    AgreeDecodes(env, rs, n);
    var e := GroupEnd(env, rs, n, g, g + 1);
    forall j | 0 <= j < |rs|
      ensures g <= j < e <==> Between(env, rs, n, g, j) == Equal
      ensures j >= e ==> Between(env, rs, n, g, j) == Less
    {
      InOrOut(env, rs, n, g, e, j);
    }
    if e < |rs| {
      forall j | 0 <= j < e ensures Between(env, rs, n, j, e) == Less {
        Chain(env, rs, n, j, g, e);
        assert j < g ==> Between(env, rs, n, j, g) == Less;
        Mirror(env, rs, n, g, j);
        assert j >= g ==> Between(env, rs, n, g, j) == Equal;
      }
    }
  }

  lemma AgreeDecodes(env: Env, rs: seq<Data>, n: nat)
    requires Agree(env, rs, n)
    ensures Decodes(env, rs, n)
  {
  }

  lemma Chain(env: Env, rs: seq<Data>, n: nat, i: nat, j: nat, k: nat)
    requires Agree(env, rs, n) && i < |rs| && j < |rs| && k < |rs|
    ensures Between(env, rs, n, i, j) != Greater && Between(env, rs, n, j, k) == Less ==> Between(env, rs, n, i, k) == Less
    ensures Between(env, rs, n, i, j) == Less && Between(env, rs, n, j, k) != Greater ==> Between(env, rs, n, i, k) == Less
  {
    hide Between, SameAs, Decodes, Holds;
    assert AgreeAt(env, rs, n, i, j, k);
  }

  lemma Mirror(env: Env, rs: seq<Data>, n: nat, i: nat, j: nat)
    requires Agree(env, rs, n) && i < |rs| && j < |rs|
    ensures Between(env, rs, n, j, i) == Opposite(Between(env, rs, n, i, j))
    ensures SameAs(env, rs, n, i, j) <==> Between(env, rs, n, i, j) == Equal
    ensures i == j ==> Between(env, rs, n, i, j) == Equal
  {
    hide Between, SameAs, Decodes, Holds;
    assert AgreeAt(env, rs, n, i, j, i);
  }

  /** Where record j lies, seen from the group [g, e). */
  lemma InOrOut(env: Env, rs: seq<Data>, n: nat, g: nat, e: nat, j: nat)
    requires Sorted(env, rs) && Agree(env, rs, n) && g < |rs| && StartsGroup(env, rs, n, g) && j < |rs|
    requires e == GroupEnd(env, rs, n, g, g + 1)
    ensures g <= j < e <==> Between(env, rs, n, g, j) == Equal
    ensures j >= e ==> Between(env, rs, n, g, j) == Less
  {
    hide FieldsFrom, SameAs, KeyOf, Sorted, Between, CmpKeys, AgreeAt, Agree, Decodes, Holds;
    AgreeDecodes(env, rs, n);
    Mirror(env, rs, n, g, j);
    if j < g {
      Mirror(env, rs, n, j, g);
    } else if j >= e {
      Mirror(env, rs, n, g, e);
      KeysAscend(env, rs, n, g, e);
      Chain(env, rs, n, g, e, j);
      if e < j {
        KeysAscend(env, rs, n, e, j);
      }
    }
  }

  // ---- The records of a scan ----

  /** A value after a round trip through a record. */
  function Stored(env: Env, v: Mem): Mem {
    match v case Text(t) => Text(env.lossy(t)) case _ => v
  }

  lemma {:induction false} ValuesOf(ms: seq<Mem>)
    requires ToValues(ms).Some?
    ensures |ToValues(ms).value| == |ms|
    ensures forall i :: 0 <= i < |ms| ==> ToValue(ms[i]) == Some(ToValues(ms).value[i])
  {
    if ms != [] {
      ValuesOf(ms[..|ms| - 1]);
    }
  }

  /** A record gives back the values it was made of. */
  lemma RecordFields(env: Env, vs: seq<Mem>, rec: Data, i: nat)
    requires RecordOf(vs) == Some(rec) && i < |vs|
    ensures FieldOf(env, rec, i) == Some(Stored(env, vs[i])) && |Fields(rec)| == |vs|
  {
    hide R.DecodedRecord, R.EncodedRecord;
    var values := ToValues(vs).value;
    ValuesOf(vs);
    R.RecordRoundTrip(values);
  }

  lemma {:induction false} FieldsStored(env: Env, vs: seq<Mem>, rec: Data, n: nat)
    requires RecordOf(vs) == Some(rec) && n <= |vs|
    ensures FieldsFrom(env, rec, 0, n).Some? && forall i :: 0 <= i < n ==> FieldsFrom(env, rec, 0, n).value[i] == Stored(env, vs[i])
  {
    hide FieldOf, RecordOf, Stored;
    if n > 0 {
      FieldsStored(env, vs, rec, n - 1);
      RecordFields(env, vs, rec, n - 1);
    }
  }

  lemma {:induction false} EvalAllLength(env: Env, es: Exprs, ctx: Context)
    requires EvalAll(env, es, ctx).Some?
    ensures |EvalAll(env, es, ctx).value| == Count(es)
    decreases es
  {
    hide Eval;
    if es.Cons? {
      EvalAllLength(env, es.tail, ctx);
    }
  }

  ghost predicate Recorded(env: Env, rec: Data, n: nat) {
    FieldsFrom(env, rec, 0, n).Some? && Holds(rec, n)
  }

  lemma EntryRecorded(env: Env, q: GroupQuery, data: Data)
    requires Entry(env, q, data).Some? && Entry(env, q, data).value.Some?
    ensures Recorded(env, Entry(env, q, data).value.value, |q.groupBy|)
  {
    hide RecordOf, EvalAll, FieldsFrom, Fields, Filtered;
    var vs := EvalAll(env, FieldExprs(q), ScanContext(q, data)).value;
    var rec := RecordOf(vs).value;
    EvalAllLength(env, FieldExprs(q), ScanContext(q, data));
    FieldsStored(env, vs, rec, |q.groupBy|);
    if |vs| > 0 {
      RecordFields(env, vs, rec, 0);
    }
  }

  lemma {:induction false} CollectRecorded(env: Env, q: GroupQuery, table: seq<TableRow>, i: nat, recs: seq<Data>)
    requires Collect(env, q, table, i, recs).Some?
    requires forall j :: 0 <= j < |recs| ==> Recorded(env, recs[j], |q.groupBy|)
    ensures var all := Collect(env, q, table, i, recs).value; forall j :: 0 <= j < |all| ==> Recorded(env, all[j], |q.groupBy|)
    decreases |table| - i
  {
    hide Entry, Recorded;
    if i < |table| {
      var rec := Entry(env, q, table[i].data).value;
      if rec.Some? {
        EntryRecorded(env, q, table[i].data);
        CollectRecorded(env, q, table, i + 1, recs + [rec.value]);
      } else {
        CollectRecorded(env, q, table, i + 1, recs);
      }
    }
  }

  /**
    GROUP BY on a filtered input that is not empty: the records are the scanned ones in ascending
    order, the output is one row for each group from the first one on, and by GroupIsKeyClass each
    group is one class of equal keys.
   */
  lemma GroupByAnswer(env: Env, q: GroupQuery, table: seq<TableRow>, recs: seq<Data>)
    requires Collect(env, q, table, 0, []) == Some(recs) && recs != [] && Preorder(env, recs)
    ensures
      var rs := Sort(env, recs);
      && multiset(rs) == multiset(recs) && Sorted(env, rs) && |rs| == |recs|
      && Decodes(env, rs, |q.groupBy|) && (forall i :: 0 <= i < |rs| ==> Holds(rs[i], |q.groupBy|))
      && StartsGroup(env, rs, |q.groupBy|, 0)
      && GroupAnswer(env, q, table) == GroupsAnswer(env, q, rs, 0)
  {
    hide CmpRecords, Sort, Sorted, Preorder, Entry, FieldsFrom, Fields, SortedAnswer, GroupsAnswer, FieldExprs, Aggregates;
    CollectRecorded(env, q, table, 0, []);
    SortOk(env, recs, recs);
    SortLength(env, recs);
    var rs := Sort(env, recs);
    forall i | 0 <= i < |rs| ensures Recorded(env, rs[i], |q.groupBy|) {
      assert rs[i] in multiset(rs);
      assert rs[i] in recs;
    }
    AnswerIsGroups(env, q, rs);
  }

  /** Without any row to group there is still one row, for no records and NULL keys. */
  lemma GroupByNothing(env: Env, q: GroupQuery, table: seq<TableRow>)
    requires Collect(env, q, table, 0, []) == Some([])
    ensures
      var row := RowFor(env, q, NoStates(|Aggregates(q.columns)|), Nulls(|q.groupBy|));
      GroupAnswer(env, q, table) == match row case None => Answer([], false) case Some(r) => Answer([r], true)
  {
  }
}
