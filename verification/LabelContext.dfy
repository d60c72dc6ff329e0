/** How one request's labels are made from the records and queries in its context. */
module LabelContext {
  import opened Wrappers
  import opened Basics
  import opened Labels

  /** `i` is the last record with its identifier, the one a dictionary by identifier keeps. */
  predicate IsLast<R(!new)>(key: R -> string, records: seq<R>, i: nat)
    requires i < |records|
  {
    forall j :: i < j < |records| ==> key(records[j]) != key(records[i])
  }

  /** The row is the last record with its identifier. */
  ghost predicate KeptAs<R(!new)>(key: R -> string, records: seq<R>, row: R) {
    exists i: nat :: i < |records| && IsLast(key, records, i) && records[i] == row
  }

  function KeysOf<R>(key: R -> string, records: seq<R>): (ids: seq<string>)
    ensures |ids| == |records| && forall i :: 0 <= i < |ids| ==> ids[i] == key(records[i])
  {
    seq(|records|, i requires 0 <= i < |records| => key(records[i]))
  }

  /** `order` holds the keys of the dictionary by first appearance. */
  ghost predicate InOrder<R(!new)>(key: R -> string, records: seq<R>, order: seq<string>, rows: map<string, R>) {
    && Distinct(order)
    && (forall id :: id in order <==> id in rows)
    && order == Deduplicated(KeysOf(key, records))
  }

  /** The dictionary holds exactly the kept records, each under its key. */
  ghost predicate Keeps<R(!new)>(key: R -> string, records: seq<R>, rows: map<string, R>) {
    && (forall id :: id in rows ==> key(rows[id]) == id && KeptAs(key, records, rows[id]))
    && (forall i: nat :: i < |records| ==> key(records[i]) in rows)
    && (forall i: nat :: i < |records| && IsLast(key, records, i) ==> rows[key(records[i])] == records[i])
  }

  /** `rows` is an insertion-ordered dictionary over the records, `order` its keys. */
  ghost predicate Indexes<R(!new)>(key: R -> string, records: seq<R>, order: seq<string>, rows: map<string, R>) {
    InOrder(key, records, order, rows) && Keeps(key, records, rows)
  }

  /** A new key goes last; a known one keeps its place. */
  function Ordered(order: seq<string>, known: set<string>, id: string): seq<string> {
    if id in known then order else order + [id]
  }

  lemma LastGrows<R(!new)>(key: R -> string, records: seq<R>, row: R, i: nat)
    requires i < |records|
    ensures IsLast(key, records + [row], i) <==> IsLast(key, records, i) && key(records[i]) != key(row)
  {
    var more := records + [row];
    assert forall j :: 0 <= j < |records| ==> more[j] == records[j];
    assert more[|records|] == row;
  }

  lemma OrderGrows<R(!new)>(key: R -> string, records: seq<R>, row: R, order: seq<string>, rows: map<string, R>)
    requires InOrder(key, records, order, rows)
    ensures InOrder(key, records + [row], Ordered(order, rows.Keys, key(row)), rows[key(row) := row])
  {
    var keys := KeysOf(key, records + [row]);
    assert keys == KeysOf(key, records) + [key(row)];
    assert keys[..|records|] == KeysOf(key, records) && keys[|records|] == key(row);
  }

  lemma KeepsGrows<R(!new)>(key: R -> string, records: seq<R>, row: R, rows: map<string, R>)
    requires Keeps(key, records, rows)
    ensures Keeps(key, records + [row], rows[key(row) := row])
  {
    var more, rows' := records + [row], rows[key(row) := row];
    assert IsLast(key, more, |records|) && more[|records|] == row;
    forall id | id in rows' ensures key(rows'[id]) == id && KeptAs(key, more, rows'[id]) {
      if id != key(row) {
        var i: nat :| i < |records| && IsLast(key, records, i) && records[i] == rows[id];
        LastGrows(key, records, row, i);
        assert more[i] == rows[id];
      }
    }
    forall i: nat | i < |more| && IsLast(key, more, i) ensures rows'[key(more[i])] == more[i] {
      if i < |records| {
        LastGrows(key, records, row, i);
      }
    }
  }

  method Index<R(!new)>(key: R -> string, records: seq<R>) returns (order: seq<string>, rows: map<string, R>)
    ensures Indexes(key, records, order, rows)
  {
    order, rows := [], map[];
    var n := 0;
    while n < |records|
      invariant 0 <= n <= |records|
      invariant Indexes(key, records[..n], order, rows)
    {
      var row := records[n];
      OrderGrows(key, records[..n], row, order, rows);
      KeepsGrows(key, records[..n], row, rows);
      order, rows := Ordered(order, rows.Keys, key(row)), rows[key(row) := row];
      n := n + 1;
      Prefixes(records, n);
    }
    Prefixes(records, n);
  }

  lemma Prefixes<R>(records: seq<R>, n: nat)
    requires n <= |records|
    ensures n > 0 ==> records[..n - 1] + [records[n - 1]] == records[..n]
    ensures n == |records| ==> records[..n] == records
  {
  }

  function Rows<R>(order: seq<string>, rows: map<string, R>): (s: seq<R>)
    requires forall id :: id in order ==> id in rows
    ensures |s| == |order| && forall i :: 0 <= i < |s| ==> s[i] == rows[order[i]]
  {
    seq(|order|, i requires 0 <= i < |order| => assert order[i] in order; rows[order[i]])
  }

  function EvidenceKey(e: Evidence): string { e.id }
  function QueryKey(q: Query): string { q.id }

  /** The labels follow the first appearance of each identifier, and each stands for the last record with it. */
  ghost predicate Covers(refs: References, records: seq<Evidence>, queries: seq<Query>) {
    && refs.EvidenceIds() == Deduplicated(KeysOf(EvidenceKey, records))
    && refs.QueryIds() == Deduplicated(KeysOf(QueryKey, queries))
    && (forall e :: e in refs.evidence <==> KeptAs(EvidenceKey, records, e))
    && (forall q :: q in refs.queries <==> KeptAs(QueryKey, queries, q))
  }

  /** Some record that a label would stand for belongs to no supplied query. */
  ghost predicate Unsupplied(records: seq<Evidence>, queries: seq<Query>) {
    exists e :: KeptAs(EvidenceKey, records, e) && e.queryId !in KeysOf(QueryKey, queries)
  }

  lemma KnownKeys<R(!new)>(key: R -> string, records: seq<R>, order: seq<string>, rows: map<string, R>)
    requires Indexes(key, records, order, rows)
    ensures forall id :: id in rows <==> id in KeysOf(key, records)
  {
    forall id | id in rows ensures id in KeysOf(key, records) {
      var i: nat :| i < |records| && IsLast(key, records, i) && records[i] == rows[id];
      assert KeysOf(key, records)[i] == id;
    }
  }

  function Made(order: seq<string>, rows: map<string, Evidence>, queryOrder: seq<string>, queryRows: map<string, Query>)
    : References
    requires forall id :: id in order ==> id in rows
    requires forall id :: id in queryOrder ==> id in queryRows
  {
    References(Rows(order, rows), Rows(queryOrder, queryRows))
  }

  lemma MadeCovers(
    records: seq<Evidence>, queries: seq<Query>,
    order: seq<string>, rows: map<string, Evidence>, queryOrder: seq<string>, queryRows: map<string, Query>)
    requires Indexes(EvidenceKey, records, order, rows) && Indexes(QueryKey, queries, queryOrder, queryRows)
    ensures Made(order, rows, queryOrder, queryRows).EvidenceIds() == order
    ensures Made(order, rows, queryOrder, queryRows).QueryIds() == queryOrder
    ensures Covers(Made(order, rows, queryOrder, queryRows), records, queries)
  {
    assert Made(order, rows, queryOrder, queryRows).EvidenceIds() == order;
    assert Made(order, rows, queryOrder, queryRows).QueryIds() == queryOrder;
  }

  /** The labels of one request; `None` exactly when some kept record belongs to no supplied query. */
  method FromContext(records: seq<Evidence>, queries: seq<Query>) returns (refs: Option<References>)
    ensures refs.Some? ==> refs.value.Valid() && Covers(refs.value, records, queries)
    ensures refs.None? <==> Unsupplied(records, queries)
  {
    var order, rows := Index(EvidenceKey, records);
    var queryOrder, queryRows := Index(QueryKey, queries);
    MadeCovers(records, queries, order, rows, queryOrder, queryRows);
    KnownKeys(QueryKey, queries, queryOrder, queryRows);
    var made := Made(order, rows, queryOrder, queryRows);
    refs := if exists e :: e in made.evidence && e.queryId !in queryRows then None else Some(made);
  }
}
