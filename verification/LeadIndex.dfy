/** Related activity of a lead: an index from identity scopes to retained records, and the periods before, at and
    after the lead.

    The index visits each record once per shape (a list of field names) instead of once per scope, and the periods
    are found by bisection; both must agree with a direct scan.
 */
module LeadIndex {
  import opened Wrappers
  import opened TimeOrder

  datatype FieldValue = Str(s: string) | NotText

  /** A retained raw event; `data` is `None` when its selected result is not a mapping. */
  datatype Evidence = Evidence(id: string, time: Stamp, data: Option<map<string, FieldValue>>)

  function TimeOf(): Evidence -> Stamp {
    (r: Evidence) => r.time
  }

  /** The identity fields of a scope in sorted order. */
  type Key = seq<(string, string)>

  function Shape(key: Key): seq<string> {
    seq(|key|, i requires 0 <= i < |key| => key[i].0)
  }

  predicate Equals(data: map<string, FieldValue>, field: string, value: string) {
    field in data && data[field] == Str(value)
  }

  /** The record is equal to the scope on every identity field. */
  predicate InScope(r: Evidence, key: Key) {
    r.data.Some? && forall i :: 0 <= i < |key| ==> Equals(r.data.value, key[i].0, key[i].1)
  }

  function ScopeFilter(key: Key): Evidence -> bool {
    r => InScope(r, key)
  }

  predicate AllText(data: map<string, FieldValue>, fields: seq<string>) {
    forall i :: 0 <= i < |fields| ==> fields[i] in data && data[fields[i]].Str?
  }

  /** The only key of that shape whose scope the record belongs to. */
  function KeyFor(data: map<string, FieldValue>, fields: seq<string>): Key
    requires AllText(data, fields)
  {
    seq(|fields|, i requires 0 <= i < |fields| => (fields[i], data[fields[i]].s))
  }

  // ----- Visiting one record -----

  function Visited(rows: seq<Evidence>, r: Evidence, here: bool): seq<Evidence> {
    if here then rows + [r] else rows
  }

  /** One record against every shape of the index. */
  method IndexRecord(index: map<Key, seq<Evidence>>, shapes: set<seq<string>>, r: Evidence)
    returns (next: map<Key, seq<Evidence>>)
    requires r.data.Some? && forall key :: key in index ==> Shape(key) in shapes
    ensures next.Keys == index.Keys
    ensures forall key :: key in index ==> next[key] == Visited(index[key], r, InScope(r, key))
  {
    next := index;
    var data := r.data.value;
    var todo := shapes;
    while todo != {}
      invariant todo <= shapes && next.Keys == index.Keys
      invariant forall key :: key in index ==>
        next[key] == Visited(index[key], r, Shape(key) !in todo && InScope(r, key))
      decreases |todo|
    {
      var fields :| fields in todo;
      ghost var before := next;
      forall key | key in index && Shape(key) == fields
        ensures InScope(r, key) <==> AllText(data, fields) && KeyFor(data, fields) == key
      {
      }
      if AllText(data, fields) {
        var key := KeyFor(data, fields);
        assert Shape(key) == fields;
        if key in next {
          next := next[key := next[key] + [r]];
        }
      }
      todo := todo - {fields};
    }
  }

  // ----- The whole index -----

  predicate DistinctIds(rows: seq<Evidence>) {
    forall i, j :: 0 <= i < j < |rows| ==> rows[i].id != rows[j].id
  }

  /** The ids of the retained raw events in time order, unknown times last. */
  function Timeline(rows: seq<Evidence>): seq<string> {
    var sorted := Sort(rows, TimeOf());
    seq(|sorted|, i requires 0 <= i < |sorted| => sorted[i].id)
  }

  /** Every usable record under its id; later records would replace earlier ones with the same id. */
  method ById(rows: seq<Evidence>) returns (byId: map<string, Evidence>)
    requires DistinctIds(rows)
    ensures forall r :: r in rows && r.data.Some? ==> r.id in byId && byId[r.id] == r
    ensures forall r :: r in rows && r.data.None? ==> r.id !in byId
  {
    byId := map[];
    for k := 0 to |rows|
      invariant forall id :: id in byId ==> exists j :: 0 <= j < k && rows[j].id == id && rows[j] == byId[id]
      invariant forall j :: 0 <= j < k && rows[j].data.Some? ==> rows[j].id in byId && byId[rows[j].id] == rows[j]
      invariant forall id :: id in byId ==> byId[id].data.Some?
    {
      if rows[k].data.Some? {
        byId := byId[rows[k].id := rows[k]];
      }
    }
  }

  ghost predicate Refers(timeline: seq<string>, byId: map<string, Evidence>, sorted: seq<Evidence>) {
    |timeline| == |sorted|
    && forall k :: 0 <= k < |sorted| ==>
         timeline[k] == sorted[k].id
         && if sorted[k].data.Some? then timeline[k] in byId && byId[timeline[k]] == sorted[k] else timeline[k] !in byId
  }

  method WalkTimeline(timeline: seq<string>, byId: map<string, Evidence>, scopes: set<Key>, ghost sorted: seq<Evidence>)
    returns (index: map<Key, seq<Evidence>>)
    requires Refers(timeline, byId, sorted)
    ensures index.Keys == scopes
    ensures forall key :: key in scopes ==> index[key] == Filter(sorted, ScopeFilter(key))
  {
    var shapes := set key | key in scopes :: Shape(key);
    index := map key | key in scopes :: [];
    for k := 0 to |timeline|
      invariant index.Keys == scopes
      invariant forall key :: key in scopes ==> index[key] == Select(sorted, k, ScopeFilter(key))
    {
      if timeline[k] in byId {
        index := IndexRecord(index, shapes, byId[timeline[k]]);
      }
    }
  }

  /** The records of a scope by a direct scan of the timeline. */
  function ScopeRows(rows: seq<Evidence>, key: Key): seq<Evidence> {
    Filter(Sort(rows, TimeOf()), ScopeFilter(key))
  }

  /** Build the index by walking the timeline.  Each scope receives exactly the records that a direct scan of the
      timeline would select for it, in timeline order. */
  method IndexTimeline(rows: seq<Evidence>, scopes: set<Key>) returns (index: map<Key, seq<Evidence>>)
    requires DistinctIds(rows)
    ensures index.Keys == scopes
    ensures forall key :: key in scopes ==> index[key] == ScopeRows(rows, key)
  {
    var byId := ById(rows);
    ghost var sorted := Sort(rows, TimeOf());
    forall k | 0 <= k < |sorted| ensures sorted[k] in rows {
      assert sorted[k] in multiset(sorted);
    }
    index := WalkTimeline(Timeline(rows), byId, scopes, sorted);
  }

  // ----- Periods around the lead -----

  datatype Kind = Earlier | Same | Later | Unknown

  function KindOf(t: Stamp, anchor: Stamp): Kind {
    if t.None? || anchor.None? then Unknown
    else if t.value < anchor.value then Earlier
    else if t.value == anchor.value then Same
    else Later
  }

  function KindFilter(kind: Kind, anchor: Stamp): Evidence -> bool {
    (r: Evidence) => KindOf(r.time, anchor) == kind
  }

  datatype Period = Period(kind: Kind, count: nat, first: Stamp, last: Stamp)

  function Earliest(group: seq<Evidence>): Stamp {
    if group == [] then None
    else
      var rest := Earliest(group[1..]);
      if group[0].time.None? then rest
      else if rest.None? || group[0].time.value <= rest.value then group[0].time else rest
  }

  function Latest(group: seq<Evidence>): Stamp {
    if group == [] then None
    else
      var rest := Latest(group[1..]);
      if group[0].time.None? then rest
      else if rest.None? || rest.value <= group[0].time.value then group[0].time else rest
  }

  /** The report on one group of records: nothing when it is empty. */
  function Report(kind: Kind, group: seq<Evidence>): seq<Period> {
    if group == [] then []
    else if kind == Unknown then [Period(kind, |group|, None, None)]
    else [Period(kind, |group|, Earliest(group), Latest(group))]
  }

  /** The periods by direct classification of every record. */
  function DirectPeriods(rows: seq<Evidence>, anchor: Stamp): seq<Period> {
    Report(Earlier, Filter(rows, KindFilter(Earlier, anchor)))
    + Report(Same, Filter(rows, KindFilter(Same, anchor)))
    + Report(Later, Filter(rows, KindFilter(Later, anchor)))
    + Report(Unknown, Filter(rows, KindFilter(Unknown, anchor)))
  }

  lemma {:induction false} BoundsOfSorted(group: seq<Evidence>)
    requires group != [] && Sorted(group, TimeOf()) && forall i :: 0 <= i < |group| ==> group[i].time.Some?
    ensures Earliest(group) == group[0].time && Latest(group) == group[|group| - 1].time
  {
    if |group| > 1 {
      BoundsOfSorted(group[1..]);
      assert Before(TimeOf()(group[0]), TimeOf()(group[1]));
      assert Before(TimeOf()(group[0]), TimeOf()(group[|group| - 1]));
    }
  }

  ghost predicate Ascending(times: seq<int>) {
    forall i, j :: 0 <= i < j < |times| ==> times[i] <= times[j]
  }

  method BisectLeft(times: seq<int>, x: int) returns (k: nat)
    requires Ascending(times)
    ensures k <= |times| && (forall i :: 0 <= i < k ==> times[i] < x) && forall i :: k <= i < |times| ==> times[i] >= x
  {
    var lo, hi := 0, |times|;
    while lo < hi
      invariant 0 <= lo <= hi <= |times|
      invariant (forall i :: 0 <= i < lo ==> times[i] < x) && forall i :: hi <= i < |times| ==> times[i] >= x
    {
      var mid := (lo + hi) / 2;
      if times[mid] < x {
        lo := mid + 1;
      } else {
        hi := mid;
      }
    }
    return lo;
  }

  method BisectRight(times: seq<int>, x: int) returns (k: nat)
    requires Ascending(times)
    ensures k <= |times| && (forall i :: 0 <= i < k ==> times[i] <= x) && forall i :: k <= i < |times| ==> times[i] > x
  {
    var lo, hi := 0, |times|;
    while lo < hi
      invariant 0 <= lo <= hi <= |times|
      invariant (forall i :: 0 <= i < lo ==> times[i] <= x) && forall i :: hi <= i < |times| ==> times[i] > x
    {
      var mid := (lo + hi) / 2;
      if x < times[mid] {
        hi := mid;
      } else {
        lo := mid + 1;
      }
    }
    return lo;
  }

  /** The known times of sorted records: ascending, and those of the leading records. */
  method KnownTimes(rows: seq<Evidence>) returns (times: seq<int>)
    requires Sorted(rows, TimeOf())
    ensures TimesOf(rows, times) && Ascending(times)
  {
    times := [];
    for k := 0 to |rows|
      invariant |times| <= k
      invariant forall i :: 0 <= i < |times| ==> rows[i].time == Some(times[i])
      invariant forall i :: |times| <= i < k ==> rows[i].time.None?
    {
      assert forall i :: 0 <= i < k ==> Before(TimeOf()(rows[i]), TimeOf()(rows[k]));
      assert |times| < k ==> rows[|times|].time.None?;
      assert rows[k].time.Some? ==> forall i :: 0 <= i < k ==> rows[i].time.Some?;
      if rows[k].time.Some? {
        times := times + [rows[k].time.value];
      }
    }
    assert forall i, j :: 0 <= i < j < |times| ==> Before(TimeOf()(rows[i]), TimeOf()(rows[j]));
  }

  /** `times` are the known times of the sorted rows. */
  ghost predicate TimesOf(rows: seq<Evidence>, times: seq<int>) {
    && |times| <= |rows| && Sorted(rows, TimeOf())
    && (forall i :: 0 <= i < |times| ==> rows[i].time == Some(times[i]))
    && (forall i :: |times| <= i < |rows| ==> rows[i].time.None?)
  }

  function Block(kind: Kind, times: seq<int>, lo: nat, hi: nat): seq<Period>
    requires lo <= hi <= |times|
  {
    if lo < hi then [Period(kind, hi - lo, Some(times[lo]), Some(times[hi - 1]))] else []
  }

  lemma BlockBounds(rows: seq<Evidence>, times: seq<int>, lo: nat, hi: nat)
    requires TimesOf(rows, times) && lo < hi <= |times|
    ensures Earliest(rows[lo..hi]) == Some(times[lo]) && Latest(rows[lo..hi]) == Some(times[hi - 1])
  {
    BoundsOfSorted(rows[lo..hi]);
  }

  lemma ReportBlock(rows: seq<Evidence>, times: seq<int>, kind: Kind, lo: nat, hi: nat)
    requires TimesOf(rows, times) && lo <= hi <= |times| && kind != Unknown
    ensures Report(kind, rows[lo..hi]) == Block(kind, times, lo, hi)
  {
    if lo < hi {
      BlockBounds(rows, times, lo, hi);
    }
  }

  /** The kind of a record follows from its position between the two bisection points. */
  function KindAt(i: nat, left: nat, right: nat, known: nat): Kind {
    if i < left then Earlier else if i < right then Same else if i < known then Later else Unknown
  }

  ghost predicate Split(rows: seq<Evidence>, times: seq<int>, anchor: Stamp, left: nat, right: nat) {
    left <= right <= |times| <= |rows|
    && forall i :: 0 <= i < |rows| ==> KindOf(rows[i].time, anchor) == KindAt(i, left, right, |times|)
  }

  /** The block of positions of one kind. */
  function From(kind: Kind, left: nat, right: nat, known: nat): nat {
    match kind case Earlier => 0 case Same => left case Later => right case Unknown => known
  }

  function Until(kind: Kind, left: nat, right: nat, known: nat, total: nat): nat {
    match kind case Earlier => left case Same => right case Later => known case Unknown => total
  }

  lemma SelectKind(rows: seq<Evidence>, times: seq<int>, anchor: Stamp, left: nat, right: nat, kind: Kind)
    requires Split(rows, times, anchor, left, right)
    ensures Filter(rows, KindFilter(kind, anchor))
         == rows[From(kind, left, right, |times|)..Until(kind, left, right, |times|, |rows|)]
  {
    SelectBlock(rows, |rows|, KindFilter(kind, anchor),
                From(kind, left, right, |times|), Until(kind, left, right, |times|, |rows|));
  }

  lemma KindReport(rows: seq<Evidence>, times: seq<int>, anchor: Stamp, left: nat, right: nat, kind: Kind)
    requires TimesOf(rows, times) && Split(rows, times, anchor, left, right)
    ensures var r := Report(kind, Filter(rows, KindFilter(kind, anchor)));
            if kind == Unknown
            then r == if |rows| > |times| then [Period(Unknown, |rows| - |times|, None, None)] else []
            else r == Block(kind, times, From(kind, left, right, |times|), Until(kind, left, right, |times|, |rows|))
  {
    SelectKind(rows, times, anchor, left, right, kind);
    if kind != Unknown {
      ReportBlock(rows, times, kind, From(kind, left, right, |times|), Until(kind, left, right, |times|, |rows|));
    }
  }

  lemma AnchoredPeriods(rows: seq<Evidence>, times: seq<int>, anchor: Stamp, left: nat, right: nat)
    requires TimesOf(rows, times) && Split(rows, times, anchor, left, right)
    ensures DirectPeriods(rows, anchor) ==
            Block(Earlier, times, 0, left) + Block(Same, times, left, right) + Block(Later, times, right, |times|)
            + if |rows| > |times| then [Period(Unknown, |rows| - |times|, None, None)] else []
  {
    KindReport(rows, times, anchor, left, right, Earlier);
    KindReport(rows, times, anchor, left, right, Same);
    KindReport(rows, times, anchor, left, right, Later);
    KindReport(rows, times, anchor, left, right, Unknown);
  }

  lemma UnanchoredPeriods(rows: seq<Evidence>)
    ensures DirectPeriods(rows, None) == if |rows| > 0 then [Period(Unknown, |rows|, None, None)] else []
  {
    SelectBlock(rows, |rows|, KindFilter(Earlier, None), 0, 0);
    SelectBlock(rows, |rows|, KindFilter(Same, None), 0, 0);
    SelectBlock(rows, |rows|, KindFilter(Later, None), 0, 0);
    SelectBlock(rows, |rows|, KindFilter(Unknown, None), 0, |rows|);
  }

  /** The periods by bisection agree with the direct classification of every record. */
  method Periods(rows: seq<Evidence>, anchor: Stamp) returns (periods: seq<Period>)
    requires Sorted(rows, TimeOf())
    ensures periods == DirectPeriods(rows, anchor)
  {
    if anchor.None? {
      UnanchoredPeriods(rows);
      return if |rows| > 0 then [Period(Unknown, |rows|, None, None)] else [];
    }
    var times := KnownTimes(rows);
    var left := BisectLeft(times, anchor.value);
    var right := BisectRight(times, anchor.value);
    assert right < |times| ==> times[right] > anchor.value;
    AnchoredPeriods(rows, times, anchor, left, right);
    periods := Block(Earlier, times, 0, left) + Block(Same, times, left, right) + Block(Later, times, right, |times|);
    if |rows| > |times| {
      periods := periods + [Period(Unknown, |rows| - |times|, None, None)];
    }
  }

  function Total(periods: seq<Period>): nat {
    if periods == [] then 0 else periods[0].count + Total(periods[1..])
  }

  lemma {:induction false} TotalConcat(a: seq<Period>, b: seq<Period>)
    ensures Total(a + b) == Total(a) + Total(b)
  {
    if a == [] {
      assert a + b == b;
    } else {
      TotalConcat(a[1..], b);
      assert (a + b)[1..] == a[1..] + b;
    }
  }

  lemma {:induction false} KindsPartition(rows: seq<Evidence>, n: nat, anchor: Stamp)
    requires n <= |rows|
    ensures |Select(rows, n, KindFilter(Earlier, anchor))| + |Select(rows, n, KindFilter(Same, anchor))|
          + |Select(rows, n, KindFilter(Later, anchor))| + |Select(rows, n, KindFilter(Unknown, anchor))| == n
  {
    if n > 0 {
      KindsPartition(rows, n - 1, anchor);
    }
  }

  lemma TotalReport(kind: Kind, group: seq<Evidence>)
    ensures Total(Report(kind, group)) == |group|
  {
    if group != [] {
      assert Report(kind, group)[1..] == [];
    }
  }

  /** The reported counts always add up to the number of records of the scope. */
  lemma PeriodsCountEverything(rows: seq<Evidence>, anchor: Stamp)
    ensures Total(DirectPeriods(rows, anchor)) == |rows|
  {
    var a, b := Filter(rows, KindFilter(Earlier, anchor)), Filter(rows, KindFilter(Same, anchor));
    var c, d := Filter(rows, KindFilter(Later, anchor)), Filter(rows, KindFilter(Unknown, anchor));
    TotalReport(Earlier, a);
    TotalReport(Same, b);
    TotalReport(Later, c);
    TotalReport(Unknown, d);
    TotalConcat(Report(Earlier, a), Report(Same, b));
    TotalConcat(Report(Earlier, a) + Report(Same, b), Report(Later, c));
    TotalConcat(Report(Earlier, a) + Report(Same, b) + Report(Later, c), Report(Unknown, d));
    KindsPartition(rows, |rows|, anchor);
  }

  // ----- What the report says, on the rows -----

  lemma {:induction false} SelectMembers(rows: seq<Evidence>, n: nat, keep: Evidence -> bool, r: Evidence)
    requires n <= |rows|
    ensures r in Select(rows, n, keep) <==> keep(r) && r in rows[..n]
  {
    if n > 0 {
      SelectMembers(rows, n - 1, keep, r);
      assert rows[..n] == rows[..n - 1] + [rows[n - 1]];
    }
  }

  /** The rows of a scope are those whose result is a mapping with the scope's text in every identity field. */
  lemma ScopeRowsExactly(rows: seq<Evidence>, key: Key, r: Evidence)
    ensures r in ScopeRows(rows, key) <==>
            && r in rows && r.data.Some?
            && forall i :: 0 <= i < |key| ==> key[i].0 in r.data.value && r.data.value[key[i].0] == Str(key[i].1)
  {
    var sorted := Sort(rows, TimeOf());
    SelectMembers(sorted, |sorted|, ScopeFilter(key), r);
    assert sorted[..|sorted|] == sorted;
    assert r in sorted <==> r in multiset(sorted);
  }

  /** Whether a row counts for a period of this kind. */
  predicate CountsFor(kind: Kind, t: Stamp, anchor: Stamp) {
    match kind
    case Earlier => t.Some? && anchor.Some? && t.value < anchor.value
    case Same => t.Some? && anchor.Some? && t.value == anchor.value
    case Later => t.Some? && anchor.Some? && anchor.value < t.value
    case Unknown => t.None? || anchor.None?
  }

  lemma KindExactly(kind: Kind, t: Stamp, anchor: Stamp)
    ensures KindOf(t, anchor) == kind <==> CountsFor(kind, t, anchor)
  {
  }

  function Positions(rows: seq<Evidence>, n: nat, kind: Kind, anchor: Stamp): set<nat>
    requires n <= |rows|
  {
    set i: nat | i < n && CountsFor(kind, rows[i].time, anchor)
  }

  lemma NextPosition(rows: seq<Evidence>, n: nat, kind: Kind, anchor: Stamp)
    requires n < |rows|
    ensures |Positions(rows, n + 1, kind, anchor)| ==
            |Positions(rows, n, kind, anchor)| + if CountsFor(kind, rows[n].time, anchor) then 1 else 0
  {
    var before, after := Positions(rows, n, kind, anchor), Positions(rows, n + 1, kind, anchor);
    assert n !in before;
    assert after == before + if CountsFor(kind, rows[n].time, anchor) then {n} else {};
  }

  lemma NextSelected(rows: seq<Evidence>, n: nat, kind: Kind, anchor: Stamp)
    requires n < |rows|
    ensures |Select(rows, n + 1, KindFilter(kind, anchor))| ==
            |Select(rows, n, KindFilter(kind, anchor))| + if CountsFor(kind, rows[n].time, anchor) then 1 else 0
  {
    KindExactly(kind, rows[n].time, anchor);
  }

  lemma {:induction false} SelectCounts(rows: seq<Evidence>, n: nat, kind: Kind, anchor: Stamp)
    requires n <= |rows|
    ensures |Select(rows, n, KindFilter(kind, anchor))| == |Positions(rows, n, kind, anchor)|
  {
    if n > 0 {
      SelectCounts(rows, n - 1, kind, anchor);
      NextSelected(rows, n - 1, kind, anchor);
      NextPosition(rows, n - 1, kind, anchor);
    }
  }

  lemma KindMembers(rows: seq<Evidence>, kind: Kind, anchor: Stamp, r: Evidence)
    ensures r in Filter(rows, KindFilter(kind, anchor)) <==> r in rows && CountsFor(kind, r.time, anchor)
  {
    SelectMembers(rows, |rows|, KindFilter(kind, anchor), r);
    KindExactly(kind, r.time, anchor);
    assert rows[..|rows|] == rows;
  }

  lemma {:induction false} BoundsAreTight(group: seq<Evidence>)
    requires group != [] && forall i :: 0 <= i < |group| ==> group[i].time.Some?
    ensures Earliest(group).Some? && Latest(group).Some?
    ensures exists i :: 0 <= i < |group| && group[i].time == Earliest(group)
    ensures exists i :: 0 <= i < |group| && group[i].time == Latest(group)
    ensures forall i :: 0 <= i < |group| ==>
                          Earliest(group).value <= group[i].time.value <= Latest(group).value
  {
    if |group| > 1 {
      BoundsAreTight(group[1..]);
    }
  }

  /** Every report of a kind is one of the periods, and they come from nowhere else. */
  lemma ReportsAre(rows: seq<Evidence>, anchor: Stamp, p: Period)
    ensures p in DirectPeriods(rows, anchor) <==> p in Report(p.kind, Filter(rows, KindFilter(p.kind, anchor)))
  {
  }

  /** A period's first and last time bound the rows of its kind, and are times of two of them. */
  ghost predicate Bounds(rows: seq<Evidence>, anchor: Stamp, p: Period) {
    && p.first.Some? && p.last.Some? && p.first.value <= p.last.value
    && (forall r :: r in rows && CountsFor(p.kind, r.time, anchor) ==>
          r.time.Some? && p.first.value <= r.time.value <= p.last.value)
    && (exists r :: r in rows && CountsFor(p.kind, r.time, anchor) && r.time == p.first)
    && (exists r :: r in rows && CountsFor(p.kind, r.time, anchor) && r.time == p.last)
  }

  lemma PeriodBounds(rows: seq<Evidence>, anchor: Stamp, p: Period, group: seq<Evidence>)
    requires p.kind != Unknown && group != [] && p.first == Earliest(group) && p.last == Latest(group)
    requires forall r :: r in group <==> r in rows && CountsFor(p.kind, r.time, anchor)
    ensures Bounds(rows, anchor, p)
  {
    assert forall i :: 0 <= i < |group| ==> group[i] in group;
    BoundsAreTight(group);
  }

  /** Every period counts the rows of its kind, of which there are some, and bounds their times where they are known. */
  lemma PeriodExactly(rows: seq<Evidence>, anchor: Stamp, p: Period)
    requires p in DirectPeriods(rows, anchor)
    ensures 0 < p.count == |Positions(rows, |rows|, p.kind, anchor)|
    ensures if p.kind == Unknown then p.first.None? && p.last.None? else Bounds(rows, anchor, p)
  {
    var group := Filter(rows, KindFilter(p.kind, anchor));
    ReportsAre(rows, anchor, p);
    SelectCounts(rows, |rows|, p.kind, anchor);
    if p.kind != Unknown {
      forall r ensures r in group <==> r in rows && CountsFor(p.kind, r.time, anchor) {
        KindMembers(rows, p.kind, anchor, r);
      }
      PeriodBounds(rows, anchor, p, group);
    }
  }

  /** Every row is counted by some period. */
  lemma RowIsCounted(rows: seq<Evidence>, anchor: Stamp, r: Evidence)
    requires r in rows
    ensures exists p :: p in DirectPeriods(rows, anchor) && CountsFor(p.kind, r.time, anchor)
  {
    var kind := KindOf(r.time, anchor);
    KindExactly(kind, r.time, anchor);
    KindMembers(rows, kind, anchor, r);
    var group := Filter(rows, KindFilter(kind, anchor));
    var p := Report(kind, group)[0];
    ReportsAre(rows, anchor, p);
  }

  ghost predicate RankedBelow(periods: seq<Period>, k: nat) {
    && (forall i :: 0 <= i < |periods| ==> Rank(periods[i].kind) < k)
    && (forall i, j :: 0 <= i < j < |periods| ==> Rank(periods[i].kind) < Rank(periods[j].kind))
  }

  lemma ReportRanked(periods: seq<Period>, kind: Kind, group: seq<Evidence>)
    requires RankedBelow(periods, Rank(kind))
    ensures RankedBelow(periods + Report(kind, group), Rank(kind) + 1)
  {
  }

  /** The periods come in the order before, at, after, unknown, at most one of each. */
  lemma PeriodsInOrder(rows: seq<Evidence>, anchor: Stamp)
    ensures RankedBelow(DirectPeriods(rows, anchor), 4)
  {
    var a, b := Filter(rows, KindFilter(Earlier, anchor)), Filter(rows, KindFilter(Same, anchor));
    var c, d := Filter(rows, KindFilter(Later, anchor)), Filter(rows, KindFilter(Unknown, anchor));
    var one := Report(Earlier, a);
    var two := one + Report(Same, b);
    ReportRanked([], Earlier, a);
    assert [] + Report(Earlier, a) == one;
    ReportRanked(one, Same, b);
    ReportRanked(two, Later, c);
    ReportRanked(two + Report(Later, c), Unknown, d);
  }

  function Rank(kind: Kind): nat {
    match kind case Earlier => 0 case Same => 1 case Later => 2 case Unknown => 3
  }

  /** The rows of a scope are sorted because the timeline is, which is what bisection needs. */
  lemma ScopeRowsSorted(rows: seq<Evidence>, key: Key)
    ensures Sorted(ScopeRows(rows, key), TimeOf())
  {
    SortSorted(rows, TimeOf());
    SelectSorted(Sort(rows, TimeOf()), |Sort(rows, TimeOf())|, ScopeFilter(key), TimeOf());
  }

  /** The whole computation for one lead: index the timeline and report each scope around the anchor. */
  method LeadActivity(rows: seq<Evidence>, scopes: set<Key>, anchor: Stamp)
    returns (activity: map<Key, seq<Period>>)
    requires DistinctIds(rows)
    ensures activity.Keys == scopes
    ensures forall key :: key in scopes ==>
      activity[key] == DirectPeriods(ScopeRows(rows, key), anchor)
  {
    var index := IndexTimeline(rows, scopes);
    activity := map[];
    var todo := scopes;
    while todo != {}
      invariant todo <= scopes && activity.Keys == scopes - todo
      invariant forall key :: key in activity ==>
        activity[key] == DirectPeriods(ScopeRows(rows, key), anchor)
      decreases |todo|
    {
      var key :| key in todo;
      ScopeRowsSorted(rows, key);
      var periods := Periods(index[key], anchor);
      activity := activity[key := periods];
      todo := todo - {key};
    }
  }
}
