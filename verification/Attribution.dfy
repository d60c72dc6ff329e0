/** The source of a result row: which (index, sourcetype) pair of the search it is attributed to, and what the commands
    of the pipeline do to that attribution.
 */
module Attribution {
  import opened Wrappers
  import opened SourceScope
  import opened SourcePairs
  import opened Wildcards
  import opened Provenance

  /** A projected field leaves the value possible: it is absent, equal, or a repetition of it. */
  predicate Consistent(row: Row, field: string, value: string) {
    field !in row
    || row[field] == Text(value)
    || (row[field].Many? && row[field].values != [] && forall v :: v in row[field].values ==> v == Text(value))
  }

  predicate Possible(row: Row, p: Pair) {
    Consistent(row, "index", p.0) && Consistent(row, "sourcetype", p.1)
  }

  /** By the shape of the projected value: a text must be the value, a list must repeat it at least once, and any other
      shape rules the value out. */
  lemma ConsistentExactly(row: Row, field: string, value: string)
    ensures field !in row ==> Consistent(row, field, value)
    ensures field in row && row[field].Text? ==> (Consistent(row, field, value) <==> row[field].text == value)
    ensures field in row && row[field].Many? ==>
              (Consistent(row, field, value) <==>
                 |row[field].values| > 0
                 && forall i :: 0 <= i < |row[field].values| ==> row[field].values[i] == Text(value))
    ensures field in row && row[field].Opaque? ==> !Consistent(row, field, value)
  {
    if field in row && row[field].Many? {
      var values := row[field].values;
      assert forall i :: 0 <= i < |values| ==> values[i] in values;
    }
  }

  ghost predicate OnlyPossible(row: Row, pairs: set<Pair>, p: Pair) {
    p in pairs && Possible(row, p) && forall q :: q in pairs && Possible(row, q) ==> q == p
  }

  ghost predicate SourceOf(row: Row, pairs: set<Pair>, r: Option<Pair>) {
    if r.Some? then OnlyPossible(row, pairs, r.value) else forall p :: p in pairs ==> !OnlyPossible(row, pairs, p)
  }

  lemma Singleton<T>(s: set<T>, x: T)
    requires |s| == 1 && x in s
    ensures s == {x}
  {
    assert |s - {x}| == 0;
    assert s == (s - {x}) + {x};
  }

  /** The source of a row: the only possible pair, or unknown. */
  method ResultSource(row: Row, pairs: set<Pair>) returns (r: Option<Pair>)
    ensures SourceOf(row, pairs, r)
  {
    var candidates := set p | p in pairs && Possible(row, p);
    assert forall p :: p in pairs && OnlyPossible(row, pairs, p) ==> candidates == {p};
    if |candidates| != 1 {
      return None;
    }
    var p :| p in candidates;
    Singleton(candidates, p);
    assert forall q :: q in pairs && Possible(row, q) ==> q in candidates;
    return Some(p);
  }

  /** A row whose projected source fields are absent from, equal to or repetitions of those of the matched
      event is attributed to that event's own pair or to nothing, never to another pair. */
  lemma AttributionSound(e: Expr, ev: Event, row: Row, r: Option<Pair>)
    requires IsConj(e) && Pairs(Yield(e)).Some? && Satisfiable(e, ev)
    requires Possible(row, (ev.index, ev.source)) && SourceOf(row, Pairs(Yield(e)).value, r)
    ensures r == None || r == Some((ev.index, ev.source))
  {
    PairsAreExact(e, ev);
  }

  // ----- Rows that keep their source -----

  /** A row starts with its event's own index and sourcetype. */
  predicate Native(row: Row, ev: Event) {
    && "index" in row && row["index"] == Text(ev.index)
    && "sourcetype" in row && row["sourcetype"] == Text(ev.source)
  }

  /** A raw search as it is given and as it is submitted. */
  ghost predicate RawSearch(segments: seq<Segment>, out: seq<Segment>, e: Expr) {
    && |segments| > 0 && segments[0] == Search(Yield(e)) && AllPreserved(segments, out)
    && IsConj(e) && Pairs(Yield(e)).Some?
  }

  /** If no command hides either field, a row that starts with its event's own index and sourcetype is attributed to
      exactly that pair. */
  lemma RawAttributionComplete(
    segments: seq<Segment>, out: seq<Segment>, rows: seq<Row>, e: Expr, ev: Event, r: Option<Pair>)
    requires RawSearch(segments, out, e) && Satisfiable(e, ev)
    requires !Hidden(segments, "index") && !Hidden(segments, "sourcetype")
    requires Flows(out, rows) && Native(rows[0], ev)
    requires SourceOf(rows[|segments|], Pairs(Yield(e)).value, r)
    ensures r == Some((ev.index, ev.source))
  {
    PairsAreExact(e, ev);
    ProvenanceSurvives(segments, out, rows, |segments|, "index");
    ProvenanceSurvives(segments, out, rows, |segments|, "sourcetype");
    assert Possible(rows[|segments|], (ev.index, ev.source));
  }

  // ----- Rows that lose a field -----

  /** The command takes the field from every row. */
  predicate Removes(s: Segment, f: string) {
    match s
    case Fields(true, args) => Selected(Names(args), f)
    case Fields(false, args) => !Selected(Names(args), f) && !IsInternal(f)
    case Table(args) => !Selected(Names(args), f)
    case Rename(args) =>
      && Pairing(args).Some? && Leaves(Pairing(args).value, f)
      && forall p :: p in Pairing(args).value ==> !Glob(f, p.1)
    case _ => false
  }

  /** The command can give the field to a row that lacks it. */
  predicate Brings(s: Segment, f: string) {
    match s
    case Evaluate(args) => IsTarget(args, f)
    case Rename(args) => Pairing(args).None? || exists p :: p in Pairing(args).value && Glob(f, p.1)
    case Aggregate => true
    case _ => false
  }

  lemma NothingArrives(pairs: seq<(string, string)>, before: Row, f: string)
    requires forall p :: p in pairs ==> Stars(p.0) == Stars(p.1) && !Glob(f, p.1)
    ensures !Reached(pairs, before, f)
  {
    forall n, p | p in pairs && Glob(n, p.0) ensures Destination(p, n) != f {
      RenamedMatchesTarget(n, p.0, p.1);
    }
  }

  lemma StaysAway(s: Segment, before: Row, after: Row, f: string)
    requires RowStep(s, before, after)
    requires Removes(s, f) || (f !in before && !Brings(s, f))
    ensures f !in after
  {
    match s
    case Search(_) =>
    case Keep =>
    case Fields(drop, args) =>
      assert !drop ==> ProjectStep(Names(args), true, before, after, f);
    case Table(args) =>
      assert ProjectStep(Names(args), false, before, after, f);
    case Evaluate(args) =>
    case Rename(args) =>
      NothingArrives(Pairing(args).value, before, f);
      assert MoveStep(Pairing(args).value, before, after, f);
  }

  /** Some command takes the field from every row, and none after it can bring it back. */
  ghost predicate TakenAway(out: seq<Segment>, f: string) {
    exists i :: 0 <= i < |out| && Removes(out[i], f) && forall j :: i < j < |out| ==> !Brings(out[j], f)
  }

  lemma {:induction false} AwayFrom(out: seq<Segment>, rows: seq<Row>, f: string, i: nat, n: nat)
    requires Flows(out, rows) && i < n <= |out| && Removes(out[i], f)
    requires forall j :: i < j < |out| ==> !Brings(out[j], f)
    ensures f !in rows[n]
    decreases n
  {
    if i + 1 < n {
      AwayFrom(out, rows, f, i, n - 1);
    }
    StaysAway(out[n - 1], rows[n - 1], rows[n], f);
  }

  /** The pair agrees with the event in the other of the two fields. */
  predicate AgreesBut(p: Pair, ev: Event, f: string) {
    if f == "index" then p.1 == ev.source else p.0 == ev.index
  }

  /** The event's pair is the only one of the search that agrees with it in the other field. */
  predicate OnlyAgreeing(pairs: set<Pair>, ev: Event, f: string) {
    forall p :: p in pairs && AgreesBut(p, ev, f) ==> p == (ev.index, ev.source)
  }

  lemma LostFieldDecides(row: Row, pairs: set<Pair>, ev: Event, f: string, r: Option<Pair>)
    requires f == "index" || f == "sourcetype"
    requires f !in row && forall g :: g in {"index", "sourcetype"} && g != f ==> g in row
    requires "index" in row ==> row["index"] == Text(ev.index)
    requires "sourcetype" in row ==> row["sourcetype"] == Text(ev.source)
    requires (ev.index, ev.source) in pairs && SourceOf(row, pairs, r)
    ensures r == if OnlyAgreeing(pairs, ev, f) then Some((ev.index, ev.source)) else None
  {
    assert forall p :: p in pairs ==> (Possible(row, p) <==> AgreesBut(p, ev, f));
    assert AgreesBut((ev.index, ev.source), ev, f);
  }

  /** When index or sourcetype is taken away and the other is not hidden, every native row is attributed right exactly
      if no other pair of the search agrees with it in the other field; otherwise its source is unknown, never wrong. */
  lemma LostFieldAttribution(
    segments: seq<Segment>, out: seq<Segment>, rows: seq<Row>, e: Expr, ev: Event, f: string, r: Option<Pair>)
    requires RawSearch(segments, out, e) && Satisfiable(e, ev)
    requires (f == "index" && !Hidden(segments, "sourcetype")) || (f == "sourcetype" && !Hidden(segments, "index"))
    requires TakenAway(out, f)
    requires Flows(out, rows) && Native(rows[0], ev) && SourceOf(rows[|segments|], Pairs(Yield(e)).value, r)
    ensures r == if OnlyAgreeing(Pairs(Yield(e)).value, ev, f) then Some((ev.index, ev.source)) else None
  {
    PairsAreExact(e, ev);
    var i :| 0 <= i < |out| && Removes(out[i], f) && forall j :: i < j < |out| ==> !Brings(out[j], f);
    AwayFrom(out, rows, f, i, |out|);
    ProvenanceSurvives(segments, out, rows, |segments|, if f == "index" then "sourcetype" else "index");
    LostFieldDecides(rows[|segments|], Pairs(Yield(e)).value, ev, f, r);
  }

  // ----- Rows that take another value -----

  /** A field at which one field of the row arrives, and none is missing that should, takes that field's value. */
  lemma TakesValue(pairs: seq<(string, string)>, before: Row, after: Row, n: string, f: string)
    requires MoveStep(pairs, before, after, f)
    requires Arrives(pairs, before, n, f) && forall m :: Arrives(pairs, before, m, f) ==> m == n
    requires !Lacking(pairs, before, f)
    ensures f in after && after[f] == before[n]
  {
    assert Reached(pairs, before, f);
  }

  /** The two fields by which rows are attributed. */
  predicate SourcePair(f: string, t: string) {
    (f == "index" && t == "sourcetype") || (f == "sourcetype" && t == "index")
  }

  /** The part of a pair that a field of the row is compared with. */
  function Part(p: Pair, f: string): string {
    if f == "index" then p.0 else p.1
  }

  /** A field value that stands for the name: the name itself, or a repetition of it. */
  predicate Shows(v: Value, name: string) {
    v == Text(name) || (v.Many? && v.values != [] && forall w :: w in v.values ==> w == Text(name))
  }

  /** The row is attributed to the pair that it shows, if there is one in the search, and to none otherwise. */
  ghost predicate AsShown(pairs: set<Pair>, ev: Event, f: string, v: Value, r: Option<Pair>) {
    && (r.Some? ==> r.value in pairs && AgreesBut(r.value, ev, f) && Shows(v, Part(r.value, f)))
    && (forall p :: p in pairs && AgreesBut(p, ev, f) && Shows(v, Part(p, f)) ==> r == Some(p))
  }

  lemma ShowsOne(v: Value, a: string, b: string)
    requires Shows(v, a) && Shows(v, b)
    ensures a == b
  {
    if v.Many? {
      assert v.values[0] in v.values;
    }
  }

  lemma ShownDecides(row: Row, pairs: set<Pair>, ev: Event, f: string, t: string, r: Option<Pair>)
    requires SourcePair(f, t) && f in row && t in row && row[t] == Text(Part((ev.index, ev.source), t))
    requires SourceOf(row, pairs, r)
    ensures AsShown(pairs, ev, f, row[f], r)
  {
    assert forall p :: p in pairs ==> (Possible(row, p) <==> AgreesBut(p, ev, f) && Shows(row[f], Part(p, f)));
    forall p, q | p in pairs && q in pairs && Possible(row, p) && Possible(row, q) ensures p == q {
      ShowsOne(row[f], Part(p, f), Part(q, f));
    }
  }

  /** A rename by which one field of the row, and no missing one, takes the place of `f`, and which leaves `t` alone. */
  ghost predicate Replaces(s: Segment, before: Row, u: string, f: string, t: string) {
    && s.Rename? && Pairing(s.args).Some? && !Moves(Pairing(s.args).value, t)
    && Arrives(Pairing(s.args).value, before, u, f)
    && (forall n :: Arrives(Pairing(s.args).value, before, n, f) ==> n == u)
    && !Lacking(Pairing(s.args).value, before, f)
  }

  lemma ReplacedField(s: Segment, before: Row, after: Row, u: string, f: string, t: string)
    requires Replaces(s, before, u, f, t) && RowStep(s, before, after)
    ensures f in after && after[f] == before[u] && SameField(before, after, t)
  {
    var pairs := Pairing(s.args).value;
    assert MoveStep(pairs, before, after, f) && MoveStep(pairs, before, after, t);
    TakesValue(pairs, before, after, u, f);
    UnmovedIsKept(pairs, before, after, t);
  }

  /** The commands of a part of the pipeline keep the field. */
  ghost predicate KeptBetween(out: seq<Segment>, low: nat, high: nat, f: string) {
    forall j :: low <= j < high && j < |out| ==> !Alters(out[j], f)
  }

  lemma {:induction false} KeptAlong(out: seq<Segment>, rows: seq<Row>, low: nat, high: nat, f: string)
    requires Flows(out, rows) && low <= high <= |out| && KeptBetween(out, low, high, f)
    ensures SameField(rows[low], rows[high], f)
    decreases high
  {
    if low < high {
      KeptAlong(out, rows, low, high - 1, f);
      UnalteredIsKept(out[high - 1], rows[high - 1], rows[high], f);
    }
  }

  /** Command `i` is the last to alter `f`, and gives it the row's value of `u`; no command alters `t`. */
  ghost predicate ReplacedAt(out: seq<Segment>, rows: seq<Row>, i: nat, u: string, f: string, t: string) {
    && i < |out| && |rows| == |out| + 1 && Replaces(out[i], rows[i], u, f, t)
    && KeptBetween(out, i + 1, |out|, f) && KeptBetween(out, 0, |out|, t)
  }

  lemma ReplacedRow(out: seq<Segment>, rows: seq<Row>, i: nat, u: string, f: string, t: string)
    requires Flows(out, rows) && ReplacedAt(out, rows, i, u, f, t)
    ensures u in rows[i] && f in rows[|out|] && rows[|out|][f] == rows[i][u]
    ensures SameField(rows[0], rows[|out|], t)
  {
    ReplacedField(out[i], rows[i], rows[i + 1], u, f, t);
    KeptAlong(out, rows, i + 1, |out|, f);
    KeptAlong(out, rows, 0, |out|, t);
  }

  /** When one command of a raw search overwrites index or sourcetype by the value of another field, every native row is
      attributed to the pair it then shows if the search has it, and its source is unknown otherwise.  So it is
      attributed right exactly when the value that arrives is its own. */
  lemma ReplacedFieldAttribution(
    segments: seq<Segment>, out: seq<Segment>, rows: seq<Row>, e: Expr, ev: Event,
    i: nat, u: string, f: string, t: string, r: Option<Pair>)
    requires RawSearch(segments, out, e) && Satisfiable(e, ev) && SourcePair(f, t)
    requires Flows(out, rows) && Native(rows[0], ev) && ReplacedAt(out, rows, i, u, f, t)
    requires SourceOf(rows[|out|], Pairs(Yield(e)).value, r)
    ensures u in rows[i] && AsShown(Pairs(Yield(e)).value, ev, f, rows[i][u], r)
    ensures r == Some((ev.index, ev.source)) <==> Shows(rows[i][u], Part((ev.index, ev.source), f))
  {
    PairsAreExact(e, ev);
    ReplacedRow(out, rows, i, u, f, t);
    ShownDecides(rows[|out|], Pairs(Yield(e)).value, ev, f, t, r);
    assert AgreesBut((ev.index, ev.source), ev, f);
  }

  /** A row with another index of the search in place of its own is attributed to that index. */
  lemma OverwrittenIndexMisleads(row: Row, pairs: set<Pair>, ev: Event, other: string)
    requires "index" in row && row["index"] == Text(other)
    requires "sourcetype" in row && row["sourcetype"] == Text(ev.source)
    requires (other, ev.source) in pairs
    ensures SourceOf(row, pairs, Some((other, ev.source)))
  {
    assert Possible(row, (other, ev.source));
  }
}
