/** Accepted searches over two indexes in which a hidden name changes the source of rows. */
module Misattribution {
  import opened Wrappers
  import opened SourceScope
  import opened SourcePairs
  import opened Wildcards
  import opened Arguments
  import opened Renames
  import opened Provenance
  import opened Attribution
  import opened HiddenNames

  function EitherIndex(a: Name, b: Name): Expr {
    Disjoin(Scoped(IndexField, a), Scoped(IndexField, b))
  }

  /** `index=a OR index=b sourcetype=s`. */
  function TwoIndexes(a: Name, b: Name, s: Name): Expr {
    Conjoin(EitherIndex(a, b), false, Scoped(SourceField, s))
  }

  lemma TwoIndexTokens(a: Name, b: Name, s: Name)
    ensures IsConj(TwoIndexes(a, b, s))
    ensures Yield(TwoIndexes(a, b, s)) == [Scope(IndexField, a), Or, Scope(IndexField, b), Scope(SourceField, s)]
  {
    assert IsAtom(Scoped(IndexField, a)) && IsAtom(Scoped(IndexField, b)) && IsAtom(Scoped(SourceField, s));
    assert IsDisj(Scoped(IndexField, a)) && IsDisj(Scoped(SourceField, s)) && IsDisj(EitherIndex(a, b));
    assert IsConj(EitherIndex(a, b));
    assert Yield(EitherIndex(a, b)) == [Scope(IndexField, a), Or, Scope(IndexField, b)];
    assert Yield(Scoped(SourceField, s)) == [Scope(SourceField, s)];
  }

  lemma TwoIndexBranches(a: Name, b: Name, s: Name)
    ensures SourceBranches(Yield(TwoIndexes(a, b, s))) == Some({Branch(Some(a), Some(s)), Branch(Some(b), Some(s))})
  {
    TwoIndexTokens(a, b, s);
    ParserAgrees(TwoIndexes(a, b, s));
    var first, second, right := Branch(Some(a), None), Branch(Some(b), None), Branch(None, Some(s));
    assert Analyze(Scoped(IndexField, a), 0) == Some({first}) && Analyze(Scoped(IndexField, b), 0) == Some({second});
    var left := {first} + {second};
    assert |left| <= 2;
    assert Analyze(EitherIndex(a, b), 0) == Some(left);
    assert Analyze(Scoped(SourceField, s), 0) == Some({right});
    assert Meet(first, right) == Branch(Some(a), Some(s)) && Meet(second, right) == Branch(Some(b), Some(s));
    var both := {Branch(Some(a), Some(s))} + {Branch(Some(b), Some(s))};
    assert MeetAll(left, {right}) == both;
    assert |both| <= 2;
    assert Analyze(TwoIndexes(a, b, s), 0) == Some(both);
    assert both == {Branch(Some(a), Some(s)), Branch(Some(b), Some(s))};
  }

  lemma TwoIndexPairs(a: Name, b: Name, s: Name)
    ensures IsConj(TwoIndexes(a, b, s)) && Satisfiable(TwoIndexes(a, b, s), Event(a, s))
    ensures Pairs(Yield(TwoIndexes(a, b, s))) == Some({(a, s), (b, s)})
  {
    var ts := Yield(TwoIndexes(a, b, s));
    TwoIndexTokens(a, b, s);
    TwoIndexBranches(a, b, s);
    assert !ScopeInvalid(ts, IndexField) && !ScopeInvalid(ts, SourceField);
    var branches := {Branch(Some(a), Some(s)), Branch(Some(b), Some(s))};
    assert PairOf(Branch(Some(a), Some(s))) == (a, s) && PairOf(Branch(Some(b), Some(s))) == (b, s);
    assert (set x | x in branches && Pinned(x) :: PairOf(x)) == {(a, s), (b, s)};
    PairsAreExact(TwoIndexes(a, b, s), Event(a, s));
  }

  // ----- A rename that overwrites the index -----

  /** `index=a OR index=b sourcetype=s | rename u AS index, c AS d`. */
  function CommaSearch(a: Name, b: Name, s: Name, u: string, c: string, d: string): seq<Segment> {
    [Search(Yield(TwoIndexes(a, b, s))), Rename(CommaRename(u, "index", c, d))]
  }

  lemma LiteralDestination(p: (string, string), n: string)
    requires Literal(p.0) && Literal(p.1) && Glob(n, p.0)
    ensures n == p.0 && Destination(p, n) == p.1
  {
    OnlyItself(n, p.0);
    NoStars(p.0);
    NoStars(p.1);
    RenamedMatchesTarget(n, p.0, p.1);
    OnlyItself(Destination(p, n), p.1);
  }

  /** Two literal pairs move exactly their two names. */
  lemma LiteralArrivals(u: string, f: string, c: string, d: string, before: Row, n: string, g: string)
    requires Literal(u) && Literal(f) && Literal(c) && Literal(d)
    ensures Arrives([(u, f), (c, d)], before, n, g) <==> n in before && ((n == u && g == f) || (n == c && g == d))
  {
    var pairs := [(u, f), (c, d)];
    assert pairs[0] in pairs && pairs[1] in pairs;
    OnlyItself(u, u);
    OnlyItself(c, c);
    LiteralDestination((u, f), u);
    LiteralDestination((c, d), c);
    if Arrives(pairs, before, n, g) {
      var p :| p in pairs && Glob(n, p.0) && Destination(p, n) == g;
      LiteralDestination(p, n);
    }
  }

  /** Whatever else a row holds, the value of `u` arrives at `f`. */
  lemma LiteralTakes(u: string, f: string, c: string, d: string, before: Row, after: Row)
    requires Literal(u) && Literal(f) && Literal(c) && Literal(d) && f != d
    requires u in before && MoveStep([(u, f), (c, d)], before, after, f)
    ensures f in after && after[f] == before[u]
  {
    var pairs := [(u, f), (c, d)];
    forall n ensures Arrives(pairs, before, n, f) <==> n == u {
      LiteralArrivals(u, f, c, d, before, n, f);
    }
    OnlyItself(u, u);
    OnlyItself(f, d);
    TakesValue(pairs, before, after, u, f);
  }

  lemma IndexAndSourcetype()
    ensures "index" in SOURCE_FIELDS && "sourcetype" in SOURCE_FIELDS && Plain("index") && Plain("sourcetype")
  {
    assert SOURCE_FIELDS[0] == "index" && SOURCE_FIELDS[1] == "sourcetype";
    SourceFieldsArePlain();
  }

  /** A search with one command behind it. */
  lemma TwoStages(first: Segment, s: Segment, t: Segment, f: string, g: string)
    requires first.Search? && Preserved(s) == Some(t)
    ensures AllPreserved([first, s], [first, t])
    ensures Removes(t, f) ==> TakenAway([first, t], f)
    ensures !Hides(s, g) ==> !Hidden([first, s], g)
  {
    assert [first, t][1] == t;
  }

  /** A search with an assignment and one command behind it. */
  lemma ThreeStages(first: Segment, second: Segment, s: Segment, t: Segment, f: string, g: string)
    requires first.Search? && Preserved(second) == Some(second) && Preserved(s) == Some(t)
    ensures AllPreserved([first, second, s], [first, second, t])
    ensures Removes(t, f) ==> TakenAway([first, second, t], f)
    ensures !Hides(second, g) && !Hides(s, g) ==> !Hidden([first, second, s], g)
  {
    assert [first, second, t][2] == t;
  }

  lemma CommaSearchAccepted(a: Name, b: Name, s: Name, u: string, c: string, d: string)
    requires Simple(u) && Simple(c) && Simple(d)
    ensures AllPreserved(CommaSearch(a, b, s, u, c, d), CommaSearch(a, b, s, u, c, d))
    ensures Pairing(CommaRename(u, "index", c, d)) == Some([(u, "index"), (c, d)])
  {
    IndexAndSourcetype();
    CommaHides(u, "index", c, d);
    var renaming := Rename(CommaRename(u, "index", c, d));
    TwoStages(Search(Yield(TwoIndexes(a, b, s))), renaming, renaming, "index", "sourcetype");
  }

  lemma CommaStep(u: string, c: string, d: string, before: Row, after: Row)
    requires Simple(u) && Simple(c) && Simple(d) && u in before
    requires forall g :: MoveStep([(u, "index"), (c, d)], before, after, g)
    ensures "index" in after && after["index"] == before[u] && SameField(before, after, "sourcetype")
  {
    var pairs := [(u, "index"), (c, d)];
    IndexAndSourcetype();
    assert MoveStep(pairs, before, after, "index") && MoveStep(pairs, before, after, "sourcetype");
    LiteralTakes(u, "index", c, d, before, after);
    NotMentioned(pairs, "sourcetype");
    UnmentionedIsUnmoved(pairs, "sourcetype");
    NoStars(u);
    NoStars("index");
    NoStars(c);
    NoStars(d);
    UnmovedIsKept(pairs, before, after, "sourcetype");
  }

  /** The search is accepted, and every row of an event in `a` whose field `u` is `b` is attributed to `b`. */
  lemma CommaSearchMisattributes(a: Name, b: Name, s: Name, u: string, c: string, d: string, rows: seq<Row>)
    requires Simple(u) && Simple(c) && Simple(d)
    requires Flows(CommaSearch(a, b, s, u, c, d), rows) && Native(rows[0], Event(a, s))
    requires u in rows[0] && rows[0][u] == Text(b)
    ensures AllPreserved(CommaSearch(a, b, s, u, c, d), CommaSearch(a, b, s, u, c, d))
    ensures Satisfiable(TwoIndexes(a, b, s), Event(a, s)) && Pairs(Yield(TwoIndexes(a, b, s))) == Some({(a, s), (b, s)})
    ensures SourceOf(rows[2], {(a, s), (b, s)}, Some((b, s)))
  {
    var out := CommaSearch(a, b, s, u, c, d);
    CommaSearchAccepted(a, b, s, u, c, d);
    TwoIndexPairs(a, b, s);
    assert RowStep(out[0], rows[0], rows[1]) && RowStep(out[1], rows[1], rows[2]);
    CommaStep(u, c, d, rows[1], rows[2]);
    OverwrittenIndexMisleads(rows[2], {(a, s), (b, s)}, Event(a, s), b);
  }

  lemma CommaMove(u: string, f: string, c: string, d: string, t: string, before: Row, after: Row, g: string)
    requires Literal(u) && Literal(f) && Literal(c) && Literal(d)
    requires u != f && u != t && c != f && c != t && d != f && d != t && u != c && f != t
    requires before.Keys == {f, t, u} && after.Keys == {f, t}
    requires after[f] == before[u] && after[t] == before[t]
    ensures MoveStep([(u, f), (c, d)], before, after, g)
  {
    var pairs := [(u, f), (c, d)];
    forall n ensures Arrives(pairs, before, n, g) <==> n == u && g == f {
      LiteralArrivals(u, f, c, d, before, n, g);
    }
    OnlyItself(g, u);
    OnlyItself(g, c);
    assert pairs[0] == (u, f) && pairs[1] == (c, d);
    assert Leaves(pairs, g) <==> g == u || g == c;
    assert Reached(pairs, before, g) <==> g == f by {
      assert g == f ==> Arrives(pairs, before, u, g);
    }
  }

  lemma CommaFlow(
    first: Segment, args: seq<Lexeme>, u: string, f: string, c: string, d: string, before: Row, after: Row)
    requires first.Search? && Pairing(args) == Some([(u, f), (c, d)])
    requires forall g :: MoveStep([(u, f), (c, d)], before, after, g)
    ensures Flows([first, Rename(args)], [before, before, after])
  {
  }

  /** There is such a row. */
  lemma CommaSearchFlow(a: Name, b: Name, s: Name, u: string, c: string, d: string) returns (rows: seq<Row>)
    requires Simple(u) && Simple(c) && Simple(d) && u != c
    ensures Flows(CommaSearch(a, b, s, u, c, d), rows) && Native(rows[0], Event(a, s))
    ensures u in rows[0] && rows[0][u] == Text(b)
  {
    IndexAndSourcetype();
    var before: Row := map["index" := Text(a), "sourcetype" := Text(s), u := Text(b)];
    var after: Row := map["index" := Text(b), "sourcetype" := Text(s)];
    rows := [before, before, after];
    CommaSearchAccepted(a, b, s, u, c, d);
    forall g ensures MoveStep([(u, "index"), (c, d)], before, after, g) {
      CommaMove(u, "index", c, d, "sourcetype", before, after, g);
    }
    CommaFlow(Search(Yield(TwoIndexes(a, b, s))), CommaRename(u, "index", c, d), u, "index", c, d, before, after);
  }

  // ----- A rename that takes the index away -----

  /** `index=a OR index=b sourcetype=s | rename x AS y,index AS z`. */
  function GluedSearch(a: Name, b: Name, s: Name, x: string, y: string, z: string): seq<Segment> {
    [Search(Yield(TwoIndexes(a, b, s))), Rename(GluedRename(x, y, "index", z))]
  }

  lemma OneIndexOnly(a: Name, b: Name, s: Name)
    ensures OnlyAgreeing({(a, s), (b, s)}, Event(a, s), "index") <==> a == b
  {
    assert (b, s) in {(a, s), (b, s)};
  }

  lemma GluedSearchAccepted(a: Name, b: Name, s: Name, x: string, y: string, z: string)
    requires Simple(x) && Simple(y) && Simple(z)
    ensures AllPreserved(GluedSearch(a, b, s, x, y, z), GluedSearch(a, b, s, x, y, z))
    ensures TakenAway(GluedSearch(a, b, s, x, y, z), "index") && !Hidden(GluedSearch(a, b, s, x, y, z), "sourcetype")
  {
    IndexAndSourcetype();
    GluedHides(x, y, "index", z);
    GluedHidesOnly(x, y, "index", z, "sourcetype");
    var renaming := Rename(GluedRename(x, y, "index", z));
    TwoStages(Search(Yield(TwoIndexes(a, b, s))), renaming, renaming, "index", "sourcetype");
  }

  /** The search is accepted, and the source of every row is unknown unless there is only one index. */
  lemma GluedSearchLosesSource(
    a: Name, b: Name, s: Name, x: string, y: string, z: string, rows: seq<Row>, r: Option<Pair>)
    requires Simple(x) && Simple(y) && Simple(z)
    requires Flows(GluedSearch(a, b, s, x, y, z), rows) && Native(rows[0], Event(a, s))
    requires SourceOf(rows[2], {(a, s), (b, s)}, r)
    ensures AllPreserved(GluedSearch(a, b, s, x, y, z), GluedSearch(a, b, s, x, y, z))
    ensures r == if a == b then Some((a, s)) else None
  {
    var out := GluedSearch(a, b, s, x, y, z);
    GluedSearchAccepted(a, b, s, x, y, z);
    TwoIndexPairs(a, b, s);
    LostFieldAttribution(out, out, rows, TwoIndexes(a, b, s), Event(a, s), "index", r);
    OneIndexOnly(a, b, s);
  }

  // ----- A projection that drops the index -----

  /** `index=a OR index=b sourcetype=s | eval 'w index'=v | table "w index"`. */
  function QuotedSearch(a: Name, b: Name, s: Name, w: string, v: string): seq<Segment> {
    [Search(Yield(TwoIndexes(a, b, s))), Evaluate(QuotedAssignment(w, "index", v)),
     Table([Lexeme(Quoted("\"", w, "index"), true)])]
  }

  /** A first word that is no source field and has no sign in it. */
  predicate Leading(w: string) {
    Simple(w) && '=' !in w
  }

  /** The search is accepted, and what is submitted drops the index. */
  lemma QuotedSearchAccepted(a: Name, b: Name, s: Name, w: string, v: string) returns (out: seq<Segment>)
    requires Leading(w) && ',' !in v
    ensures AllPreserved(QuotedSearch(a, b, s, w, v), out)
    ensures TakenAway(out, "index") && !Hidden(QuotedSearch(a, b, s, w, v), "sourcetype")
  {
    IndexAndSourcetype();
    var assignment, table := QuotedAssignment(w, "index", v), Table([Lexeme(Quoted("\"", w, "index"), true)]);
    QuotedTableHides(w, "index", "index");
    QuotedTableHides(w, "index", "sourcetype");
    QuotedAssignmentAccepted(w, "index", v);
    AssignmentsHideNothing(assignment, "sourcetype");
    NormalisedAlters(table, "index");
    var first, submitted := Search(Yield(TwoIndexes(a, b, s))), Preserved(table).value;
    ThreeStages(first, Evaluate(assignment), table, submitted, "index", "sourcetype");
    out := [first, Evaluate(assignment), submitted];
  }

  /** The source of every row is then unknown unless there is only one index. */
  lemma QuotedSearchLosesSource(
    a: Name, b: Name, s: Name, w: string, v: string, out: seq<Segment>, rows: seq<Row>, r: Option<Pair>)
    requires Leading(w) && ',' !in v && AllPreserved(QuotedSearch(a, b, s, w, v), out)
    requires Flows(out, rows) && Native(rows[0], Event(a, s)) && SourceOf(rows[3], {(a, s), (b, s)}, r)
    ensures r == if a == b then Some((a, s)) else None
  {
    var segments := QuotedSearch(a, b, s, w, v);
    var accepted := QuotedSearchAccepted(a, b, s, w, v);
    SameSubmission(segments, out, accepted);
    TwoIndexPairs(a, b, s);
    LostFieldAttribution(segments, out, rows, TwoIndexes(a, b, s), Event(a, s), "index", r);
    OneIndexOnly(a, b, s);
  }

  // ----- Such rows exist -----

  lemma MovedAway(x: string, y: string, f: string, z: string, t: string, before: Row, after: Row, g: string)
    requires Literal(x) && Literal(y) && Literal(f) && Literal(z)
    requires f != t && x != f && x != t && y != f && y != t && z != f && z != t && y != z
    requires before.Keys == {f, t} && after.Keys == {z, t}
    requires after[z] == before[f] && after[t] == before[t]
    ensures MoveStep([(x, y), (f, z)], before, after, g)
  {
    var pairs := [(x, y), (f, z)];
    forall n ensures Arrives(pairs, before, n, g) <==> n == f && g == z {
      LiteralArrivals(x, y, f, z, before, n, g);
    }
    OnlyItself(g, x);
    OnlyItself(g, f);
    assert pairs[0] == (x, y) && pairs[1] == (f, z);
    assert Leaves(pairs, g) <==> g == x || g == f;
    assert Reached(pairs, before, g) <==> g == z by {
      assert g == z ==> Arrives(pairs, before, f, g);
    }
  }

  lemma GluedSearchFlow(a: Name, b: Name, s: Name, x: string, y: string, z: string) returns (rows: seq<Row>)
    requires Simple(x) && Simple(y) && Simple(z) && y != z
    ensures Flows(GluedSearch(a, b, s, x, y, z), rows) && Native(rows[0], Event(a, s))
  {
    IndexAndSourcetype();
    var before: Row := map["index" := Text(a), "sourcetype" := Text(s)];
    var after: Row := map[z := Text(a), "sourcetype" := Text(s)];
    rows := [before, before, after];
    GluedHides(x, y, "index", z);
    forall g ensures MoveStep([(x, y), ("index", z)], before, after, g) {
      MovedAway(x, y, "index", z, "sourcetype", before, after, g);
    }
    CommaFlow(Search(Yield(TwoIndexes(a, b, s))), GluedRename(x, y, "index", z), x, y, "index", z, before, after);
  }

  lemma DroppedFlow(first: Segment, second: Segment, args: seq<Lexeme>, f: string, t: string, before: Row)
    requires first.Search? && second.Evaluate? && f != t && before.Keys == {f, t}
    requires !Selected(Names(args), f) && Selected(Names(args), t)
    ensures Flows([first, second, Table(args)], [before, before, before, map[t := before[t]]])
  {
  }

  lemma QuotedSearchFlow(a: Name, b: Name, s: Name, w: string, v: string) returns (out: seq<Segment>, rows: seq<Row>)
    requires Leading(w) && ',' !in v
    ensures AllPreserved(QuotedSearch(a, b, s, w, v), out)
    ensures Flows(out, rows) && Native(rows[0], Event(a, s))
  {
    IndexAndSourcetype();
    out := QuotedSearchAccepted(a, b, s, w, v);
    var table := Table([Lexeme(Quoted("\"", w, "index"), true)]);
    QuotedTableHides(w, "index", "index");
    QuotedTableHides(w, "index", "sourcetype");
    NormalisedAlters(table, "index");
    NormalisedAlters(table, "sourcetype");
    var before: Row := map["index" := Text(a), "sourcetype" := Text(s)];
    var first, second := Search(Yield(TwoIndexes(a, b, s))), Evaluate(QuotedAssignment(w, "index", v));
    QuotedAssignmentAccepted(w, "index", v);
    var submitted := Preserved(table).value;
    DroppedFlow(first, second, submitted.args, "index", "sourcetype", before);
    out := [first, second, submitted];
    ThreeStages(first, second, table, submitted, "index", "sourcetype");
    rows := [before, before, before, map["sourcetype" := before["sourcetype"]]];
  }

  lemma ByCharacters(name: string)
    requires name != "" && forall i :: 0 <= i < |name| ==> 'a' <= name[i] <= 'z'
    requires forall f :: f in SOURCE_FIELDS ==> |f| != |name|
    ensures Simple(name)
  {
    assert name[0] in name;
    assert forall c :: c in name ==> 'a' <= c <= 'z';
    assert name !in PUNCTUATION && Trimmed({'+', '-'}, name) == name;
  }

  /** The names of the examples `user`, `host` and `h`. */
  lemma ExampleNames()
    ensures Leading("user") && Simple("host") && Simple("h")
  {
    ByCharacters("user");
    ByCharacters("host");
    ByCharacters("h");
  }

  /** `index=a OR index=b sourcetype=s | rename user AS index, host AS h`, with a row that changes its index. */
  lemma CommaExample(a: Name, b: Name, s: Name) returns (rows: seq<Row>)
    ensures Flows(CommaSearch(a, b, s, "user", "host", "h"), rows) && Native(rows[0], Event(a, s))
    ensures AllPreserved(CommaSearch(a, b, s, "user", "host", "h"), CommaSearch(a, b, s, "user", "host", "h"))
    ensures SourceOf(rows[2], {(a, s), (b, s)}, Some((b, s)))
  {
    ExampleNames();
    rows := CommaSearchFlow(a, b, s, "user", "host", "h");
    CommaSearchMisattributes(a, b, s, "user", "host", "h", rows);
  }

  /** `index=a OR index=b sourcetype=s | eval 'user index'=host | table "user index"`, with a row that loses its
      index. */
  lemma QuotedExample(a: Name, b: Name, s: Name) returns (out: seq<Segment>, rows: seq<Row>)
    ensures AllPreserved(QuotedSearch(a, b, s, "user", "host"), out)
    ensures Flows(out, rows) && Native(rows[0], Event(a, s)) && "index" !in rows[3]
  {
    ExampleNames();
    out, rows := QuotedSearchFlow(a, b, s, "user", "host");
    var accepted := QuotedSearchAccepted(a, b, s, "user", "host");
    SameSubmission(QuotedSearch(a, b, s, "user", "host"), out, accepted);
    var i :| 0 <= i < |out| && Removes(out[i], "index") && forall j :: i < j < |out| ==> !Brings(out[j], "index");
    AwayFrom(out, rows, "index", i, 3);
  }

  lemma SameSubmission(segments: seq<Segment>, out: seq<Segment>, also: seq<Segment>)
    requires AllPreserved(segments, out) && AllPreserved(segments, also)
    ensures out == also
  {
    assert forall i :: 0 <= i < |segments| ==> Some(out[i]) == Preserved(segments[i]) == Some(also[i]);
  }
}
