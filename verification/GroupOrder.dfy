/**
  GROUP BY in one statement, and values for which its comparisons are sound: NULL, integers, text
  and blobs.
 */
module GroupOrder {
  import opened Bytes
  import opened Mem
  import opened Vdbe
  import opened Ast
  import opened SelectMeaning
  import opened GroupCode
  import opened GroupBlocks
  import opened GroupMeaning
  import opened GroupScan
  import opened GroupSort
  import opened KeyOrder
  import R = Record
  import M = Mem

  // ---- One row for each distinct key ----

  /** Where group k ends. */
  function EndOf(starts: seq<nat>, k: nat, len: nat): nat
    requires k < |starts|
  {
    if k + 1 < |starts| then starts[k + 1] else len
  }

  /** The record whose key is put out for group k: the first one of the group, in the last group the last one. */
  function Speaker(starts: seq<nat>, k: nat, len: nat): nat
    requires k < |starts| && len > 0
  {
    if k + 1 < |starts| then starts[k] else len - 1
  }

  /**
    The starts cut the sorted records into groups: a start is a record whose key no earlier record has;
    group k holds exactly the records with the key of its start; the keys of the groups ascend.
   */
  ghost predicate Partition(env: Env, rs: seq<Data>, n: nat, starts: seq<nat>)
    requires Decodes(env, rs, n)
  {
    && starts != [] && starts[0] == 0 && Cuts(starts, |rs|)
    && (forall k, j :: 0 <= k < |starts| && 0 <= j < |rs| ==> InClass(env, rs, n, starts, k, j))
    && (forall k, l :: 0 <= k < l < |starts| ==> Between(env, rs, n, starts[k], starts[l]) == Less)
    && (forall j :: 0 <= j < |rs| ==> (j in starts <==> NewKey(env, rs, n, j)))
  }

  ghost predicate Cuts(starts: seq<nat>, len: nat) {
    forall k :: 0 <= k < |starts| ==> starts[k] < EndOf(starts, k, len) <= len
  }

  /** Record j is in group k exactly when it has the key of the group's start. */
  predicate InClass(env: Env, rs: seq<Data>, n: nat, starts: seq<nat>, k: nat, j: nat)
    requires Decodes(env, rs, n) && k < |starts| && starts[k] < |rs| && j < |rs|
  {
    starts[k] <= j < EndOf(starts, k, |rs|) <==> Between(env, rs, n, starts[k], j) == Equal
  }

  /** No earlier record has the key of record j. */
  ghost predicate NewKey(env: Env, rs: seq<Data>, n: nat, j: nat)
    requires Decodes(env, rs, n) && j < |rs|
  {
    forall i :: 0 <= i < j ==> Between(env, rs, n, i, j) != Equal
  }

  /** The output row of group k: None when an aggregate or a column fails. */
  function GroupRow(env: Env, q: GroupQuery, rs: seq<Data>, starts: seq<nat>, k: nat): Option<seq<Mem>>
    requires k < |starts| && starts[k] < EndOf(starts, k, |rs|) <= |rs| && Decodes(env, rs, |q.groupBy|)
  {
    match Fold(env, q, rs[starts[k]..EndOf(starts, k, |rs|)])
    case None => None
    case Some(st) => RowFor(env, q, st, KeyOf(env, rs[Speaker(starts, k, |rs|)], |q.groupBy|))
  }

  /** The rows of the groups in order, up to the first group that fails. */
  ghost predicate RowsOf(env: Env, q: GroupQuery, rs: seq<Data>, starts: seq<nat>, a: Answer)
    requires Decodes(env, rs, |q.groupBy|) && Cuts(starts, |rs|)
  {
    && |a.rows| <= |starts| && (a.ok <==> |a.rows| == |starts|)
    && (forall k :: 0 <= k < |a.rows| ==> GroupRow(env, q, rs, starts, k) == Some(a.rows[k]))
    && (|a.rows| < |starts| ==> GroupRow(env, q, rs, starts, |a.rows|) == None)
  }

  ghost predicate GroupAt(env: Env, rs: seq<Data>, n: nat, g: nat, e: nat)
    requires Decodes(env, rs, n)
  {
    g < |rs| && StartsGroup(env, rs, n, g) && e == GroupEnd(env, rs, n, g, g + 1)
  }

  /** Each start is where the group before it ends. */
  ghost predicate Linked(env: Env, rs: seq<Data>, n: nat, starts: seq<nat>)
    requires Decodes(env, rs, n)
  {
    && Cuts(starts, |rs|)
    && (forall k :: 0 <= k < |starts| ==> GroupAt(env, rs, n, starts[k], EndOf(starts, k, |rs|)))
  }

  lemma {:induction false} GroupsListed(env: Env, q: GroupQuery, rs: seq<Data>, g: nat) returns (starts: seq<nat>)
    requires Sorted(env, rs) && Agree(env, rs, |q.groupBy|) && g < |rs| && StartsGroup(env, rs, |q.groupBy|, g)
    ensures starts != [] && starts[0] == g && Linked(env, rs, |q.groupBy|, starts)
    ensures RowsOf(env, q, rs, starts, GroupsAnswer(env, q, rs, g))
    decreases |rs| - g
  {
    AgreeDecodes(env, rs, |q.groupBy|);
    hide Sorted, Agree, StartsGroup, Fold, RowFor, KeyOf, SameAs, Decodes, GroupsAnswer, GroupEnd, Between;
    var n := |q.groupBy|;
    var e := GroupEnd(env, rs, n, g, g + 1);
    GroupIsKeyClass(env, rs, n, g);
    if e < |rs| {
      var more := GroupsListed(env, q, rs, e);
      starts := [g] + more;
      LinkedMore(env, rs, n, g, starts, more);
      RowsMore(env, q, rs, g, starts, more, GroupsAnswer(env, q, rs, e));
    } else {
      starts := [g];
      LastGroup(env, q, rs, g);
    }
  }

  lemma LastGroup(env: Env, q: GroupQuery, rs: seq<Data>, g: nat)
    requires Decodes(env, rs, |q.groupBy|) && g < |rs| && StartsGroup(env, rs, |q.groupBy|, g)
    requires GroupEnd(env, rs, |q.groupBy|, g, g + 1) == |rs|
    ensures Linked(env, rs, |q.groupBy|, [g]) && RowsOf(env, q, rs, [g], GroupsAnswer(env, q, rs, g))
  {
    hide Decodes, StartsGroup, GroupRow, GroupsAnswer, GroupEnd;
    assert GroupAt(env, rs, |q.groupBy|, g, EndOf([g], 0, |rs|));
    FirstRow(env, q, rs, [g]);
  }

  lemma LinkedMore(env: Env, rs: seq<Data>, n: nat, g: nat, starts: seq<nat>, more: seq<nat>)
    requires Decodes(env, rs, n) && more != [] && starts == [g] + more && Linked(env, rs, n, more)
    requires GroupAt(env, rs, n, g, more[0])
    ensures Linked(env, rs, n, starts)
  {
    hide Decodes, StartsGroup, SameAs;
    forall k | 0 <= k < |starts|
      ensures GroupAt(env, rs, n, starts[k], EndOf(starts, k, |rs|)) && starts[k] < EndOf(starts, k, |rs|) <= |rs|
    {
      if k > 0 {
        assert starts[k] == more[k - 1] && EndOf(starts, k, |rs|) == EndOf(more, k - 1, |rs|);
        assert GroupAt(env, rs, n, more[k - 1], EndOf(more, k - 1, |rs|));
      }
    }
  }

  lemma FirstRow(env: Env, q: GroupQuery, rs: seq<Data>, starts: seq<nat>)
    requires Decodes(env, rs, |q.groupBy|) && starts != [] && starts[0] < EndOf(starts, 0, |rs|) <= |rs|
    requires EndOf(starts, 0, |rs|) == GroupEnd(env, rs, |q.groupBy|, starts[0], starts[0] + 1)
    requires |starts| > 1 <==> EndOf(starts, 0, |rs|) < |rs|
    ensures
      var a, row := GroupsAnswer(env, q, rs, starts[0]), GroupRow(env, q, rs, starts, 0);
      a == if row.None? then Answer([], false)
           else if |starts| == 1 then Answer([row.value], true)
           else var rest := GroupsAnswer(env, q, rs, starts[1]); Answer([row.value] + rest.rows, rest.ok)
  {
    hide Fold, RowFor, KeyOf, SameAs, Decodes;
  }

  lemma LaterRow(env: Env, q: GroupQuery, rs: seq<Data>, g: nat, starts: seq<nat>, more: seq<nat>, k: nat)
    requires Decodes(env, rs, |q.groupBy|) && starts == [g] + more && k < |more| && more[k] < EndOf(more, k, |rs|) <= |rs|
    ensures starts[k + 1] < EndOf(starts, k + 1, |rs|) <= |rs|
    ensures GroupRow(env, q, rs, starts, k + 1) == GroupRow(env, q, rs, more, k)
  {
    hide Fold, RowFor, KeyOf, SameAs, Decodes;
    assert starts[k + 1] == more[k] && EndOf(starts, k + 1, |rs|) == EndOf(more, k, |rs|);
  }

  lemma RowsMore(env: Env, q: GroupQuery, rs: seq<Data>, g: nat, starts: seq<nat>, more: seq<nat>, b: Answer)
    requires Decodes(env, rs, |q.groupBy|) && Cuts(starts, |rs|) && Cuts(more, |rs|) && more != [] && starts == [g] + more
    requires g < |rs| && more[0] == GroupEnd(env, rs, |q.groupBy|, g, g + 1) < |rs|
    requires b == GroupsAnswer(env, q, rs, more[0]) && RowsOf(env, q, rs, more, b)
    ensures RowsOf(env, q, rs, starts, GroupsAnswer(env, q, rs, g))
  {
    hide Fold, RowFor, KeyOf, SameAs, Decodes, GroupsAnswer, GroupEnd, GroupRow;
    var a := GroupsAnswer(env, q, rs, g);
    FirstRow(env, q, rs, starts);
    forall k | 0 <= k < |more| ensures GroupRow(env, q, rs, starts, k + 1) == GroupRow(env, q, rs, more, k) {
      LaterRow(env, q, rs, g, starts, more, k);
    }
    if GroupRow(env, q, rs, starts, 0).Some? {
      forall k | 0 <= k < |a.rows| ensures GroupRow(env, q, rs, starts, k) == Some(a.rows[k]) {
        if k > 0 {
          assert GroupRow(env, q, rs, more, k - 1) == Some(b.rows[k - 1]);
        }
      }
      if |a.rows| < |starts| {
        assert GroupRow(env, q, rs, more, |b.rows|) == None;
      }
    }
  }

  lemma LinkedIsPartition(env: Env, rs: seq<Data>, n: nat, starts: seq<nat>)
    requires Sorted(env, rs) && Agree(env, rs, n) && Decodes(env, rs, n)
    requires starts != [] && starts[0] == 0 && Linked(env, rs, n, starts)
    ensures Partition(env, rs, n, starts)
  {
    hide Sorted, Agree, Decodes, Between, StartsGroup, InClass, NewKey, EndOf, GroupAt;
    LinkedAt(env, rs, n, starts);
    forall k, j | 0 <= k < |starts| && 0 <= j < |rs| ensures InClass(env, rs, n, starts, k, j) {
      LinkedClass(env, rs, n, starts, k, j);
    }
    forall k, l | 0 <= k < l < |starts| ensures Between(env, rs, n, starts[k], starts[l]) == Less {
      StartsAscend(starts, |rs|, k, l);
      EarlierLess(env, rs, n, starts[l], starts[k]);
    }
    forall j | 0 <= j < |rs| ensures j in starts <==> NewKey(env, rs, n, j) {
      LinkedNew(env, rs, n, starts, j);
    }
  }

  lemma LinkedAt(env: Env, rs: seq<Data>, n: nat, starts: seq<nat>)
    requires Decodes(env, rs, n) && Linked(env, rs, n, starts)
    ensures forall k :: 0 <= k < |starts| ==> starts[k] < |rs| && StartsGroup(env, rs, n, starts[k])
  {
    hide StartsGroup, Decodes;
    forall k | 0 <= k < |starts| ensures starts[k] < |rs| && StartsGroup(env, rs, n, starts[k]) {
      assert GroupAt(env, rs, n, starts[k], EndOf(starts, k, |rs|));
    }
  }

  lemma LinkedClass(env: Env, rs: seq<Data>, n: nat, starts: seq<nat>, k: nat, j: nat)
    requires Sorted(env, rs) && Agree(env, rs, n) && Decodes(env, rs, n)
    requires Linked(env, rs, n, starts) && k < |starts| && starts[k] < |rs| && j < |rs|
    ensures InClass(env, rs, n, starts, k, j)
  {
    hide Sorted, Agree, Decodes, Between, StartsGroup;
    assert GroupAt(env, rs, n, starts[k], EndOf(starts, k, |rs|));
    GroupIsKeyClass(env, rs, n, starts[k]);
  }

  lemma LinkedNew(env: Env, rs: seq<Data>, n: nat, starts: seq<nat>, j: nat)
    requires Sorted(env, rs) && Agree(env, rs, n) && Decodes(env, rs, n)
    requires starts != [] && starts[0] == 0 && Linked(env, rs, n, starts) && j < |rs|
    ensures j in starts <==> NewKey(env, rs, n, j)
  {
    hide Sorted, Agree, Decodes, Between, StartsGroup, GroupAt;
    LinkedAt(env, rs, n, starts);
    if j in starts {
      forall i | 0 <= i < j ensures Between(env, rs, n, i, j) != Equal {
        EarlierLess(env, rs, n, j, i);
      }
    } else {
      var k := GroupOf(starts, |rs|, j);
      LinkedClass(env, rs, n, starts, k, j);
    }
  }

  lemma EarlierLess(env: Env, rs: seq<Data>, n: nat, g: nat, j: nat)
    requires Decodes(env, rs, n) && g < |rs| && StartsGroup(env, rs, n, g) && j < g
    ensures Between(env, rs, n, j, g) == Less
  {
  }

  lemma {:induction false} StartsAscend(starts: seq<nat>, len: nat, k: nat, l: nat)
    requires Cuts(starts, len) && k < l < |starts|
    ensures starts[k] < starts[l]
    decreases l
  {
    assert EndOf(starts, l - 1, len) == starts[l];
    if k < l - 1 {
      StartsAscend(starts, len, k, l - 1);
    }
  }

  /** Every record is in some group. */
  lemma {:induction false} GroupOf(starts: seq<nat>, len: nat, j: nat) returns (k: nat)
    requires Cuts(starts, len) && starts != [] && starts[0] <= j < len
    ensures k < |starts| && starts[k] <= j < EndOf(starts, k, len)
    decreases |starts|
  {
    if EndOf(starts, 0, len) > j {
      k := 0;
    } else {
      var rest := starts[1..];
      forall i | 0 <= i < |rest| ensures EndOf(rest, i, len) == EndOf(starts, i + 1, len) && rest[i] == starts[i + 1] {
      }
      var i := GroupOf(rest, len, j);
      k := i + 1;
    }
  }

  /**
    GROUP BY.  The scanned records, sorted, fall into groups, one for each distinct key, with ascending
    keys; the answer has one row for each group, in that order: the fold of the aggregates over exactly
    the group's records, with the group's key - in the last group, as its last record has it.
   */
  lemma GroupedAnswer(env: Env, q: GroupQuery, table: seq<TableRow>, recs: seq<Data>) returns (rs: seq<Data>, starts: seq<nat>)
    requires Collect(env, q, table, 0, []) == Some(recs) && recs != [] && Preorder(env, recs) && Agree(env, Sort(env, recs), |q.groupBy|)
    ensures rs == Sort(env, recs) && multiset(rs) == multiset(recs) && Sorted(env, rs) && Decodes(env, rs, |q.groupBy|)
    ensures Partition(env, rs, |q.groupBy|, starts) && Cuts(starts, |rs|)
    ensures RowsOf(env, q, rs, starts, GroupAnswer(env, q, table))
    ensures forall k :: 0 <= k < |starts| ==> Between(env, rs, |q.groupBy|, starts[k], Speaker(starts, k, |rs|)) == Equal
  {
    hide Sorted, Agree, Decodes, Between, Preorder, RowsOf, Collect, GroupAnswer, GroupsAnswer, Sort, Partition;
    GroupByAnswer(env, q, table, recs);
    rs := Sort(env, recs);
    starts := GroupsListed(env, q, rs, 0);
    LinkedIsPartition(env, rs, |q.groupBy|, starts);
    SpeakersAgree(env, rs, |q.groupBy|, starts);
  }

  lemma SpeakersAgree(env: Env, rs: seq<Data>, n: nat, starts: seq<nat>)
    requires Decodes(env, rs, n) && Partition(env, rs, n, starts)
    ensures forall k :: 0 <= k < |starts| ==> Between(env, rs, n, starts[k], Speaker(starts, k, |rs|)) == Equal
  {
    hide Between, Decodes, NewKey;
    forall k | 0 <= k < |starts| ensures Between(env, rs, n, starts[k], Speaker(starts, k, |rs|)) == Equal {
      assert InClass(env, rs, n, starts, k, Speaker(starts, k, |rs|));
    }
  }

  // ---- Keys on which the comparisons are sound ----

  /** Every field of the record is NULL, text, a blob or an exact integer. */
  ghost predicate PlainRecord(env: Env, data: Data) {
    AllPlain(Shown(env, Fields(data)))
  }

  lemma {:induction false} KeysAsLists(env: Env, a: seq<Mem>, b: seq<Mem>)
    requires |a| == |b|
    ensures CmpKeys(env, a, b) == CmpLists(env, a, b)
    decreases |a|
  {
    hide Cmp;
    if a != [] {
      KeysAsLists(env, a[1..], b[1..]);
    }
  }

  lemma PlainPreorder(env: Env, rs: seq<Data>)
    requires forall i :: 0 <= i < |rs| ==> PlainRecord(env, rs[i])
    ensures Preorder(env, rs)
  {
    hide Fields, CmpFields, CmpLists, AllPlain;
    forall a, b | a in rs && b in rs ensures CmpRecords(env, b, a) == Opposite(CmpRecords(env, a, b)) {
      FieldsAsLists(env, Fields(a), Fields(b));
      FieldsAsLists(env, Fields(b), Fields(a));
      ListsTotal(env, Shown(env, Fields(a)), Shown(env, Fields(b)));
    }
    forall a, b, c | a in rs && b in rs && c in rs && CmpRecords(env, a, b) != Greater && CmpRecords(env, b, c) != Greater
      ensures CmpRecords(env, a, c) != Greater
    {
      FieldsAsLists(env, Fields(a), Fields(b));
      FieldsAsLists(env, Fields(b), Fields(c));
      FieldsAsLists(env, Fields(a), Fields(c));
      ListsChain(env, Shown(env, Fields(a)), Shown(env, Fields(b)), Shown(env, Fields(c)));
    }
  }

  lemma PlainKey(env: Env, data: Data, n: nat)
    requires PlainRecord(env, data) && Recorded(env, data, n)
    ensures AllPlain(KeyOf(env, data, n))
  {
    hide Plain, FromValue;
    forall i | 0 <= i < n ensures Plain(KeyOf(env, data, n)[i]) {
      FieldAt(env, data, n, i);
      assert KeyOf(env, data, n)[i] == Shown(env, Fields(data))[i];
    }
  }

  function RecordKey(env: Env, rs: seq<Data>, n: nat, i: nat): (ks: seq<Mem>)
    requires Decodes(env, rs, n) && i < |rs|
    ensures |ks| == n
  {
    KeyOf(env, rs[i], n)
  }

  /** Plain keys compare as equal exactly when they are the same, with Ne as with the sort. */
  lemma PlainBetween(env: Env, rs: seq<Data>, n: nat, i: nat, j: nat)
    requires Faithful(env) && Decodes(env, rs, n) && i < |rs| && j < |rs|
    requires AllPlain(RecordKey(env, rs, n, i)) && AllPlain(RecordKey(env, rs, n, j))
    ensures Between(env, rs, n, i, j) == Equal <==> RecordKey(env, rs, n, i) == RecordKey(env, rs, n, j)
    ensures SameAs(env, rs, n, i, j) <==> RecordKey(env, rs, n, i) == RecordKey(env, rs, n, j)
    ensures Between(env, rs, n, j, i) == Opposite(Between(env, rs, n, i, j))
  {
    hide Faithful, Plain, CmpKeys, CmpLists, FieldsFrom, M.Holds;
    var a, b := RecordKey(env, rs, n, i), RecordKey(env, rs, n, j);
    KeysAsLists(env, a, b);
    KeysAsLists(env, b, a);
    ListsTotal(env, a, b);
    forall t | 0 <= t < n ensures M.Holds(env, Ne, a[t], b[t]) <==> a[t] != b[t] {
      NeMeansDifferent(env, a[t], b[t]);
    }
  }

  lemma PlainChain(env: Env, rs: seq<Data>, n: nat, i: nat, j: nat, k: nat)
    requires Decodes(env, rs, n) && i < |rs| && j < |rs| && k < |rs|
    requires AllPlain(RecordKey(env, rs, n, i)) && AllPlain(RecordKey(env, rs, n, j)) && AllPlain(RecordKey(env, rs, n, k))
    requires Between(env, rs, n, i, j) != Greater && Between(env, rs, n, j, k) != Greater
    ensures Between(env, rs, n, i, k) != Greater
  {
    hide CmpKeys, CmpLists, FieldsFrom, AllPlain;
    var a, b, c := RecordKey(env, rs, n, i), RecordKey(env, rs, n, j), RecordKey(env, rs, n, k);
    KeysAsLists(env, a, b);
    KeysAsLists(env, b, c);
    KeysAsLists(env, a, c);
    ListsChain(env, a, b, c);
  }

  ghost predicate PlainRecords(env: Env, rs: seq<Data>, n: nat) {
    forall i :: 0 <= i < |rs| ==> PlainRecord(env, rs[i]) && Recorded(env, rs[i], n)
  }

  lemma PlainAgree(env: Env, rs: seq<Data>, n: nat)
    requires Faithful(env) && PlainRecords(env, rs, n)
    ensures Agree(env, rs, n)
  {
    hide Faithful, AllPlain, Between, SameAs, KeyOf, FieldsFrom, Fields, PlainRecord;
    forall i | 0 <= i < |rs| ensures AllPlain(RecordKey(env, rs, n, i)) {
      PlainKey(env, rs[i], n);
    }
    forall i, j, k | 0 <= i < |rs| && 0 <= j < |rs| && 0 <= k < |rs| ensures AgreeAt(env, rs, n, i, j, k) {
      PlainBetween(env, rs, n, i, j);
      PlainBetween(env, rs, n, j, k);
      PlainBetween(env, rs, n, i, k);
      PlainBetween(env, rs, n, k, i);
      if Between(env, rs, n, i, j) != Greater && Between(env, rs, n, j, k) != Greater {
        PlainChain(env, rs, n, i, j, k);
        if Between(env, rs, n, k, i) != Greater {
          PlainChain(env, rs, n, j, k, i);
          PlainChain(env, rs, n, k, i, j);
        }
      }
    }
  }

  /** The distinct keys of the records. */
  ghost function Keys(env: Env, rs: seq<Data>, n: nat): set<seq<Mem>>
    requires Decodes(env, rs, n)
  {
    set i | 0 <= i < |rs| :: RecordKey(env, rs, n, i)
  }

  lemma {:induction false} SetOfDistinct(ks: seq<seq<Mem>>)
    requires forall i, j :: 0 <= i < j < |ks| ==> ks[i] != ks[j]
    ensures |set k | k in ks| == |ks|
    decreases |ks|
  {
    if ks != [] {
      var init, last := ks[..|ks| - 1], ks[|ks| - 1];
      SetOfDistinct(init);
      assert ks == init + [last];
      assert (set k | k in ks) == (set k | k in init) + {last};
    }
  }

  /** The key shown for group k. */
  function KeyShown(env: Env, rs: seq<Data>, n: nat, starts: seq<nat>, k: nat): (ks: seq<Mem>)
    requires Decodes(env, rs, n) && k < |starts| && starts[k] < EndOf(starts, k, |rs|) <= |rs|
    ensures |ks| == n
  {
    RecordKey(env, rs, n, Speaker(starts, k, |rs|))
  }

  lemma ShownIsKey(env: Env, rs: seq<Data>, n: nat, starts: seq<nat>, k: nat)
    requires Faithful(env) && PlainRecords(env, rs, n) && Decodes(env, rs, n) && Partition(env, rs, n, starts) && k < |starts|
    ensures KeyShown(env, rs, n, starts, k) == RecordKey(env, rs, n, starts[k])
  {
    hide Faithful, Between, RecordKey, Decodes, PlainRecord, Recorded, InClass, NewKey, AllPlain, SameAs;
    PlainKeys(env, rs, n);
    SpeakersAgree(env, rs, n, starts);
    PlainBetween(env, rs, n, starts[k], Speaker(starts, k, |rs|));
  }

  lemma KeyClass(env: Env, rs: seq<Data>, n: nat, starts: seq<nat>, k: nat, j: nat)
    requires Faithful(env) && PlainRecords(env, rs, n) && Decodes(env, rs, n) && Partition(env, rs, n, starts)
    requires k < |starts| && j < |rs|
    ensures starts[k] <= j < EndOf(starts, k, |rs|) <==> RecordKey(env, rs, n, j) == KeyShown(env, rs, n, starts, k)
  {
    hide Faithful, Between, RecordKey, Decodes, PlainRecord, Recorded, NewKey, AllPlain, KeyShown, SameAs;
    PlainKeys(env, rs, n);
    ShownIsKey(env, rs, n, starts, k);
    PlainBetween(env, rs, n, starts[k], j);
    assert InClass(env, rs, n, starts, k, j);
  }

  /** The shown keys ascend. */
  lemma ShownAscend(env: Env, rs: seq<Data>, n: nat, starts: seq<nat>, k: nat, l: nat)
    requires Faithful(env) && PlainRecords(env, rs, n) && Decodes(env, rs, n) && Partition(env, rs, n, starts) && k < l < |starts|
    ensures SmallerList(KeyShown(env, rs, n, starts, k), KeyShown(env, rs, n, starts, l))
  {
    hide Faithful, KeyOf, Decodes, PlainRecords, NewKey, InClass, KeyShown, CmpKeys, EndOf, SmallerList, AllPlain;
    PlainKeys(env, rs, n);
    ShownIsKey(env, rs, n, starts, k);
    ShownIsKey(env, rs, n, starts, l);
    KeysAsLists(env, RecordKey(env, rs, n, starts[k]), RecordKey(env, rs, n, starts[l]));
    ListsLess(env, RecordKey(env, rs, n, starts[k]), RecordKey(env, rs, n, starts[l]));
    assert Between(env, rs, n, starts[k], starts[l]) == Less;
  }

  /** There are as many groups as distinct keys. */
  lemma KeysCounted(env: Env, rs: seq<Data>, n: nat, starts: seq<nat>)
    requires Faithful(env) && PlainRecords(env, rs, n) && Decodes(env, rs, n) && Partition(env, rs, n, starts)
    ensures |Keys(env, rs, n)| == |starts|
  {
    hide Faithful, Between, RecordKey, Decodes, PlainRecords, InClass, NewKey, KeyShown;
    var ks := seq(|starts|, k requires 0 <= k < |starts| => RecordKey(env, rs, n, starts[k]));
    forall k, l | 0 <= k < l < |ks| ensures ks[k] != ks[l] {
      StartsAscend(starts, |rs|, k, l);
      ShownIsKey(env, rs, n, starts, l);
      KeyClass(env, rs, n, starts, l, starts[k]);
    }
    SetOfDistinct(ks);
    forall j | 0 <= j < |rs| ensures RecordKey(env, rs, n, j) in ks {
      var k := GroupOf(starts, |rs|, j);
      KeyClass(env, rs, n, starts, k, j);
      ShownIsKey(env, rs, n, starts, k);
      assert ks[k] in ks;
    }
    assert Keys(env, rs, n) == set k | k in ks;
  }

  lemma PlainKeys(env: Env, rs: seq<Data>, n: nat)
    requires PlainRecords(env, rs, n) && Decodes(env, rs, n)
    ensures forall i :: 0 <= i < |rs| ==> AllPlain(RecordKey(env, rs, n, i))
  {
    hide AllPlain, KeyOf, FieldsFrom, PlainRecord;
    forall i | 0 <= i < |rs| ensures AllPlain(RecordKey(env, rs, n, i)) {
      PlainKey(env, rs[i], n);
    }
  }

  /**
    GROUP BY where every field is NULL, text, a blob or an exact integer: one row for each distinct
    key, in ascending order of the keys, computed over exactly the records with that key.
   */
  lemma PlainGroups(env: Env, q: GroupQuery, table: seq<TableRow>, recs: seq<Data>) returns (rs: seq<Data>, starts: seq<nat>)
    requires Collect(env, q, table, 0, []) == Some(recs) && recs != []
    requires Faithful(env) && forall i :: 0 <= i < |recs| ==> PlainRecord(env, recs[i])
    ensures multiset(rs) == multiset(recs) && Decodes(env, rs, |q.groupBy|) && Cuts(starts, |rs|)
    ensures starts != [] && starts[0] == 0 && |starts| == |Keys(env, rs, |q.groupBy|)|
    ensures forall k, l :: 0 <= k < l < |starts| ==>
              SmallerList(KeyShown(env, rs, |q.groupBy|, starts, k), KeyShown(env, rs, |q.groupBy|, starts, l))
    ensures forall k, j :: 0 <= k < |starts| && 0 <= j < |rs| ==>
              (starts[k] <= j < EndOf(starts, k, |rs|) <==> RecordKey(env, rs, |q.groupBy|, j) == KeyShown(env, rs, |q.groupBy|, starts, k))
    ensures RowsOf(env, q, rs, starts, GroupAnswer(env, q, table))
  {
    hide Faithful, Decodes, Preorder, RowsOf, GroupAnswer, Sort, PlainRecord, PlainRecords, Agree, Collect, RecordKey, CmpKeys, Sorted, KeyShown, InClass, NewKey, Between, Keys, EndOf, SmallerList;
    var n := |q.groupBy|;
    PlainPreorder(env, recs);
    PlainSorted(env, q, table, recs);
    PlainAgree(env, Sort(env, recs), n);
    rs, starts := GroupedAnswer(env, q, table, recs);
    KeysCounted(env, rs, n, starts);
    forall k, l | 0 <= k < l < |starts|
      ensures SmallerList(KeyShown(env, rs, n, starts, k), KeyShown(env, rs, n, starts, l))
    {
      ShownAscend(env, rs, n, starts, k, l);
    }
    forall k, j | 0 <= k < |starts| && 0 <= j < |rs|
      ensures starts[k] <= j < EndOf(starts, k, |rs|) <==> RecordKey(env, rs, n, j) == KeyShown(env, rs, n, starts, k)
    {
      KeyClass(env, rs, n, starts, k, j);
    }
  }

  lemma PlainSorted(env: Env, q: GroupQuery, table: seq<TableRow>, recs: seq<Data>)
    requires Collect(env, q, table, 0, []) == Some(recs) && recs != [] && Preorder(env, recs)
    requires forall i :: 0 <= i < |recs| ==> PlainRecord(env, recs[i])
    ensures PlainRecords(env, Sort(env, recs), |q.groupBy|)
  {
    hide PlainRecord, Collect, Sort, Sorted, Preorder, GroupAnswer, GroupsAnswer, FieldsFrom, StartsGroup;
    GroupByAnswer(env, q, table, recs);
    var rs := Sort(env, recs);
    forall i | 0 <= i < |rs| ensures PlainRecord(env, rs[i]) && Recorded(env, rs[i], |q.groupBy|) {
      assert rs[i] in multiset(rs);
      assert rs[i] in recs;
    }
  }
}
