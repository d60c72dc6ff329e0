/** How decoded findings get their queries from the evidence they cite. */
module Findings {
  import opened Wrappers
  import opened JsonTree
  import opened Labels

  // ---- Sorted sets of identifiers ----

  /** Strict lexicographic order by code point. */
  predicate Below(a: string, b: string) {
    if b == [] then false
    else if a == [] then true
    else a[0] < b[0] || (a[0] == b[0] && Below(a[1..], b[1..]))
  }

  lemma {:induction false} BelowTotal(a: string, b: string)
    ensures a == b || Below(a, b) || Below(b, a)
  {
    if a != [] && b != [] && a[0] == b[0] {
      BelowTotal(a[1..], b[1..]);
      assert a == [a[0]] + a[1..] && b == [b[0]] + b[1..];
    }
  }

  lemma {:induction false} BelowTransitive(a: string, b: string, c: string)
    requires Below(a, b) && Below(b, c)
    ensures Below(a, c)
  {
    if a != [] && a[0] == b[0] == c[0] {
      BelowTransitive(a[1..], b[1..], c[1..]);
    }
  }

  /** The texts agree up to a place where the first ends or has the lower character. */
  ghost predicate DifferAt(a: string, b: string, k: nat) {
    k <= |a| && k < |b| && (forall i :: 0 <= i < k ==> a[i] == b[i]) && (k < |a| ==> a[k] < b[k])
  }

  lemma {:induction false} BelowExactly(a: string, b: string)
    ensures Below(a, b) <==> exists k: nat :: DifferAt(a, b, k)
  {
    if b == [] || a == [] || a[0] != b[0] {
      if Below(a, b) {
        assert DifferAt(a, b, 0);
      }
    } else {
      var s, t := a[1..], b[1..];
      BelowExactly(s, t);
      if k: nat :| DifferAt(s, t, k) {
        assert DifferAt(a, b, k + 1);
      }
      if k: nat :| DifferAt(a, b, k) {
        assert DifferAt(s, t, k - 1);
      }
    }
  }

  ghost predicate Ascending(s: seq<string>) {
    forall i, j :: 0 <= i < j < |s| ==> Below(s[i], s[j])
  }

  /** Adds to a sorted set. */
  function Add(x: string, s: seq<string>): (r: seq<string>)
    ensures forall y :: y in r <==> y == x || y in s
  {
    if s == [] then [x]
    else if x == s[0] then s
    else if Below(x, s[0]) then [x] + s
    else
      assert forall y :: y in s <==> y == s[0] || y in s[1..];
      [s[0]] + Add(x, s[1..])
  }

  lemma {:induction false} AddAscending(x: string, s: seq<string>)
    requires Ascending(s)
    ensures Ascending(Add(x, s))
  {
    if s != [] && x != s[0] {
      BelowTotal(x, s[0]);
      if Below(x, s[0]) {
        forall j | 0 < j < |s| ensures Below(x, s[j]) {
          BelowTransitive(x, s[0], s[j]);
        }
      } else {
        AddAscending(x, s[1..]);
        forall y | y in Add(x, s[1..]) ensures Below(s[0], y) {
        }
      }
    }
  }

  /** The queries of the evidence whose identifier is in `cited`, sorted. */
  function QueriesOf(evidence: seq<Evidence>, cited: set<string>): (ids: seq<string>)
    ensures forall id :: id in ids <==> exists e :: e in evidence && e.id in cited && e.queryId == id
  {
    if evidence == [] then []
    else
      assert evidence == [evidence[0]] + evidence[1..];
      if evidence[0].id in cited then Add(evidence[0].queryId, QueriesOf(evidence[1..], cited))
      else QueriesOf(evidence[1..], cited)
  }

  lemma {:induction false} QueriesAscend(evidence: seq<Evidence>, cited: set<string>)
    ensures Ascending(QueriesOf(evidence, cited))
  {
    if evidence != [] {
      QueriesAscend(evidence[1..], cited);
      if evidence[0].id in cited {
        AddAscending(evidence[0].queryId, QueriesOf(evidence[1..], cited));
      }
    }
  }

  // ---- One finding ----

  predicate Truthy(v: Json) {
    match v
    case Null => false
    case Bool(b) => b
    case Number(n) => n != 0
    case Text(s) => s != ""
    case List(items) => items != []
    case Object(m) => m != map[]
  }

  lemma TruthyExactly(v: Json)
    ensures Truthy(v) <==>
            && v != Null && v != Bool(false) && v != Number(0) && v != Text("")
            && v != List([]) && v != Object(map[])
  {
  }

  predicate AllText(items: seq<Json>) {
    forall v :: v in items ==> v.Text?
  }

  function Strings(items: seq<Json>): set<string> {
    set v | v in items && v.Text? :: v.s
  }

  function Texts(ids: seq<string>): (items: seq<Json>)
    ensures |items| == |ids| && forall i :: 0 <= i < |ids| ==> items[i] == Text(ids[i])
  {
    seq(|ids|, i requires 0 <= i < |ids| => Text(ids[i]))
  }

  /** The identifiers that iterating over a decoded value gives; `None` where that or the lookup fails. */
  function Iterated(v: Json): Option<set<string>> {
    match v
    case List(items) => if AllText(items) then Some(Strings(items)) else None
    case Text(s) => Some(set c | c in s :: [c])
    case Object(m) => Some(m.Keys)
    case _ => None
  }

  /** Every query identifier in the list is supplied and its results are complete. */
  predicate Complete(refs: References, items: seq<Json>) {
    forall v :: v in items ==> v.Text? && v.s in refs.QueryIds() && QueryComplete(refs, v.s)
  }

  /** No supplied query of this identifier is incomplete. */
  predicate QueryComplete(refs: References, id: string) {
    forall q :: q in refs.queries && q.id == id ==> !q.incomplete
  }

  predicate Negative(m: map<string, Json>) {
    "classification" in m && m["classification"] == Text("not_supported_within_scope")
  }

  predicate NegativeAllowed(refs: References, m: map<string, Json>) {
    "query_ids" in m ==> m["query_ids"].List? && Complete(refs, m["query_ids"].items)
  }

  predicate CitesEvidence(m: map<string, Json>) {
    "evidence_ids" in m && Truthy(m["evidence_ids"])
  }

  /** All cited identifiers are supplied evidence. */
  predicate Known(refs: References, cited: set<string>) {
    forall id :: id in cited ==> id in refs.EvidenceIds()
  }

  predicate ExplicitAllowed(m: map<string, Json>, expected: seq<string>) {
    "query_ids" in m ==> m["query_ids"].List? && forall v :: v in m["query_ids"].items ==> v.Text? && v.s in expected
  }

  /** One finding, resolved; `None` is a rejection. */
  function Resolve(refs: References, finding: Json): Option<Json> {
    match finding
    case Object(m) =>
      if Negative(m) && !NegativeAllowed(refs, m) then None
      else if !CitesEvidence(m) then Some(finding)
      else
        (match Iterated(m["evidence_ids"])
         case None => None
         case Some(cited) =>
           var expected := QueriesOf(refs.evidence, cited);
           if !Known(refs, cited) || !ExplicitAllowed(m, expected) then None
           else Some(Object(m["query_ids" := List(Texts(expected))])))
    case _ => Some(finding)
  }

  /** The finding's queries are exactly those of the evidence it cites, once each, in order. */
  ghost predicate Grounded(refs: References, finding: Json) {
    finding.Object? && CitesEvidence(finding.members) ==>
      && Iterated(finding.members["evidence_ids"]).Some?
      && var cited := Iterated(finding.members["evidence_ids"]).value;
      && Known(refs, cited)
      && "query_ids" in finding.members
      && exists ids: seq<string> ::
           && finding.members["query_ids"] == List(Texts(ids))
           && Ascending(ids)
           && forall id :: id in ids <==> exists e :: e in refs.evidence && e.id in cited && e.queryId == id
  }

  lemma ResolvedIsGrounded(refs: References, finding: Json)
    requires Resolve(refs, finding).Some?
    ensures Grounded(refs, Resolve(refs, finding).value)
  {
    if finding.Object? && CitesEvidence(finding.members) {
      var m := finding.members;
      var cited := Iterated(m["evidence_ids"]).value;
      QueriesAscend(refs.evidence, cited);
      var ids := QueriesOf(refs.evidence, cited);
      var out := Resolve(refs, finding).value.members;
      assert out["evidence_ids"] == m["evidence_ids"];
      assert out["query_ids"] == List(Texts(ids));
    }
  }

  // ---- When a finding is accepted ----

  /** The value can be gone through for identifiers. */
  predicate Listable(v: Json) {
    match v
    case List(items) => forall i :: 0 <= i < |items| ==> items[i].Text?
    case Text(_) => true
    case Object(_) => true
    case _ => false
  }

  /** An identifier that going through the value gives: an item of a list, a character of a text, a member's name. */
  predicate Gives(v: Json, id: string) {
    match v
    case List(items) => Text(id) in items
    case Text(s) => |id| == 1 && id[0] in s
    case Object(m) => id in m
    case _ => false
  }

  lemma IteratedExactly(v: Json)
    ensures Iterated(v).Some? <==> Listable(v)
    ensures forall id :: Iterated(v).Some? ==> (id in Iterated(v).value <==> Gives(v, id))
  {
    if v.List? {
      assert AllText(v.items) <==> forall i :: 0 <= i < |v.items| ==> v.items[i].Text?;
      forall id ensures id in Strings(v.items) <==> Text(id) in v.items {
        assert Text(id).s == id;
      }
    } else if v.Text? {
      forall id ensures id in Iterated(v).value <==> Gives(v, id) {
        assert |id| == 1 ==> id == [id[0]];
      }
    }
  }

  /** The finding names no query, or a list of queries of which each is one of the cited records'. */
  predicate NamesCited(refs: References, m: map<string, Json>)
    requires "evidence_ids" in m
  {
    "query_ids" in m ==>
      && m["query_ids"].List?
      && forall v :: v in m["query_ids"].items ==>
           v.Text? && exists e :: e in refs.evidence && Gives(m["evidence_ids"], e.id) && e.queryId == v.s
  }

  /** A negative finding names no query, or a list of supplied queries none of which is incomplete. */
  predicate NamesComplete(refs: References, m: map<string, Json>) {
    "query_ids" in m ==>
      && m["query_ids"].List?
      && forall v :: v in m["query_ids"].items ==>
           v.Text? && v.s in refs.QueryIds() && forall q :: q in refs.queries && q.incomplete ==> q.id != v.s
  }

  lemma ExplicitExactly(refs: References, m: map<string, Json>)
    requires "evidence_ids" in m && Iterated(m["evidence_ids"]).Some?
    ensures ExplicitAllowed(m, QueriesOf(refs.evidence, Iterated(m["evidence_ids"]).value)) <==> NamesCited(refs, m)
  {
    IteratedExactly(m["evidence_ids"]);
  }

  /** A finding is accepted if and only if, when it is negative, it names complete queries only, and, when it cites
      evidence, every cited identifier is supplied and every query it names is that of a cited record. */
  lemma ResolveExactly(refs: References, m: map<string, Json>)
    ensures Resolve(refs, Object(m)).Some? <==>
            && ("classification" in m && m["classification"] == Text("not_supported_within_scope") ==>
                  NamesComplete(refs, m))
            && ("evidence_ids" in m && Truthy(m["evidence_ids"]) ==>
                  && Listable(m["evidence_ids"])
                  && (forall id :: Gives(m["evidence_ids"], id) ==> id in refs.EvidenceIds())
                  && NamesCited(refs, m))
  {
    assert NegativeAllowed(refs, m) <==> NamesComplete(refs, m);
    if "evidence_ids" in m {
      IteratedExactly(m["evidence_ids"]);
      if Iterated(m["evidence_ids"]).Some? {
        ExplicitExactly(refs, m);
      }
    }
  }

  // ---- A whole response ----

  predicate HasFindings(answer: Json) {
    answer.Object? && "findings" in answer.members && answer.members["findings"].List?
  }

  /** The group of findings, resolved in order; the first rejection rejects them all. */
  ghost predicate GroupResolved(refs: References, items: seq<Json>, out: seq<Json>) {
    |out| == |items| && forall i :: 0 <= i < |items| ==> Resolve(refs, items[i]) == Some(out[i])
  }

  method ResolveGroup(refs: References, items: seq<Json>) returns (r: Option<seq<Json>>)
    ensures r.Some? ==> GroupResolved(refs, items, r.value)
    ensures r.None? <==> exists i :: 0 <= i < |items| && Resolve(refs, items[i]).None?
  {
    var out := items;
    var n := 0;
    while n < |items|
      invariant 0 <= n <= |items| == |out|
      invariant forall i :: 0 <= i < n ==> Resolve(refs, items[i]) == Some(out[i])
      invariant forall i :: n <= i < |items| ==> out[i] == items[i]
    {
      var resolved := Resolve(refs, out[n]);
      if resolved.None? {
        return None;
      }
      out := out[n := resolved.value];
      n := n + 1;
    }
    r := Some(out);
  }

  /** The findings of a response: its items, or those of its answers. */
  ghost predicate FindingOf(response: Json, finding: Json) {
    match response
    case List(items) => finding in items
    case Object(m) => exists name :: name in m && HasFindings(m[name]) && finding in m[name].members["findings"].items
    case _ => false
  }

  /** One answer, with its group of findings resolved and nothing else changed. */
  ghost predicate AnswerResolved(refs: References, answer: Json, out: Json) {
    if HasFindings(answer)
    then
      && HasFindings(out)
      && out.members == answer.members["findings" := out.members["findings"]]
      && GroupResolved(refs, answer.members["findings"].items, out.members["findings"].items)
    else out == answer
  }

  ghost predicate ResponseResolved(refs: References, response: Json, out: Json) {
    match response
    case List(items) => out.List? && GroupResolved(refs, items, out.items)
    case Object(m) =>
      && out.Object? && out.members.Keys == m.Keys
      && forall name :: name in m ==> AnswerResolved(refs, m[name], out.members[name])
    case _ => out == response
  }

  method ResolveAnswer(refs: References, answer: Json) returns (r: Option<Json>)
    ensures r.Some? ==> AnswerResolved(refs, answer, r.value)
    ensures r.None? ==>
              HasFindings(answer) && exists f :: f in answer.members["findings"].items && Resolve(refs, f).None?
  {
    if !HasFindings(answer) {
      return Some(answer);
    }
    var items := answer.members["findings"].items;
    var group := ResolveGroup(refs, items);
    if group.None? {
      var i :| 0 <= i < |items| && Resolve(refs, items[i]).None?;
      assert items[i] in items;
      return None;
    }
    r := Some(Object(answer.members["findings" := List(group.value)]));
  }

  method ResolveAnswers(refs: References, m: map<string, Json>) returns (r: Option<map<string, Json>>)
    ensures r.Some? ==> r.value.Keys == m.Keys
    ensures r.Some? ==> forall name :: name in m ==> AnswerResolved(refs, m[name], r.value[name])
    ensures r.None? ==> exists f :: FindingOf(Object(m), f) && Resolve(refs, f).None?
  {
    var out := m;
    var left := m.Keys;
    while left != {}
      invariant left <= m.Keys == out.Keys
      invariant forall name :: name in left ==> out[name] == m[name]
      invariant forall name :: name in m && name !in left ==> AnswerResolved(refs, m[name], out[name])
      decreases |left|
    {
      var name :| name in left;
      var answer := ResolveAnswer(refs, out[name]);
      if answer.None? {
        ghost var f :| f in m[name].members["findings"].items && Resolve(refs, f).None?;
        assert FindingOf(Object(m), f);
        return None;
      }
      out := out[name := answer.value];
      left := left - {name};
    }
    r := Some(out);
  }

  /** Labels resolved, then every finding's queries derived; `None` is a rejection. */
  method DecodeFindings(refs: References, v: Json) returns (r: Option<Json>)
    ensures r.Some? ==> Decode(refs, v, "").Some? && ResponseResolved(refs, Decode(refs, v, "").value, r.value)
    ensures r.Some? ==> forall f :: FindingOf(r.value, f) ==> Grounded(refs, f)
    ensures r.None? && Decode(refs, v, "").Some? ==>
              exists f :: FindingOf(Decode(refs, v, "").value, f) && Resolve(refs, f).None?
  {
    var decoded := Decode(refs, v, "");
    match decoded {
      case None =>
        return None;
      case Some(List(items)) =>
        var group := ResolveGroup(refs, items);
        if group.None? {
          ghost var i :| 0 <= i < |items| && Resolve(refs, items[i]).None?;
          assert FindingOf(List(items), items[i]);
          return None;
        }
        r := Some(List(group.value));
      case Some(Object(m)) =>
        var answers := ResolveAnswers(refs, m);
        if answers.None? {
          return None;
        }
        r := Some(Object(answers.value));
      case Some(other) =>
        r := decoded;
    }
    ResponseIsGrounded(refs, decoded.value, r.value);
  }

  lemma GroupIsGrounded(refs: References, items: seq<Json>, out: seq<Json>)
    requires GroupResolved(refs, items, out)
    ensures forall f :: f in out ==> Grounded(refs, f)
  {
    forall f | f in out ensures Grounded(refs, f) {
      var i :| 0 <= i < |out| && out[i] == f;
      ResolvedIsGrounded(refs, items[i]);
    }
  }

  /** Every finding of a resolved response cites exactly the queries of its evidence. */
  lemma ResponseIsGrounded(refs: References, response: Json, out: Json)
    requires ResponseResolved(refs, response, out)
    ensures forall f :: FindingOf(out, f) ==> Grounded(refs, f)
  {
    forall f | FindingOf(out, f) ensures Grounded(refs, f) {
      match response
      case List(items) =>
        GroupIsGrounded(refs, items, out.items);
      case Object(m) =>
        var name :| name in out.members && HasFindings(out.members[name])
                    && f in out.members[name].members["findings"].items;
        assert AnswerResolved(refs, m[name], out.members[name]);
        GroupIsGrounded(refs, m[name].members["findings"].items, out.members[name].members["findings"].items);
      case _ =>
    }
  }

  // ---- Negative findings ----

  /** The queries a finding ends up citing all have complete results. */
  ghost predicate CitesComplete(refs: References, finding: Json)
    requires finding.Object?
  {
    var m := finding.members;
    "query_ids" in m && m["query_ids"].List? ==>
      forall v :: v in m["query_ids"].items && v.Text? ==> QueryComplete(refs, v.s)
  }

  /**
   * An accepted negative finding cites only complete queries exactly when it cites no evidence or
   * when the queries of the evidence are complete: the check looks at the labels as given, and the
   * derived queries replace them afterwards.
   */
  lemma NegativeIsCompleteExactly(refs: References, m: map<string, Json>)
    requires Negative(m) && Resolve(refs, Object(m)).Some?
    ensures CitesComplete(refs, Resolve(refs, Object(m)).value) <==>
            (CitesEvidence(m) ==>
               var cited := Iterated(m["evidence_ids"]).value;
               forall e :: e in refs.evidence && e.id in cited ==> QueryComplete(refs, e.queryId))
  {
    if CitesEvidence(m) {
      var cited := Iterated(m["evidence_ids"]).value;
      var expected := QueriesOf(refs.evidence, cited);
      var items := Texts(expected);
      assert Resolve(refs, Object(m)).value.members["query_ids"] == List(items);
      assert forall i :: 0 <= i < |expected| ==> items[i] in items;
      forall e | e in refs.evidence && e.id in cited ensures Text(e.queryId) in items {
        assert e.queryId in expected;
        var i :| 0 <= i < |expected| && expected[i] == e.queryId;
        assert items[i] == Text(e.queryId);
      }
      forall v | v in items ensures v.Text? && exists e :: e in refs.evidence && e.id in cited && e.queryId == v.s {
        var i :| 0 <= i < |items| && items[i] == v;
        assert expected[i] in expected;
      }
    }
  }

  /** A negative finding that cites evidence of an incomplete query and names no query is accepted. */
  lemma NegativeOverIncompleteResults()
    ensures var refs := References([Evidence("e", "q")], [Query("q", true)]);
            var m := map["classification" := Text("not_supported_within_scope"), "evidence_ids" := List([Text("e")])];
            refs.Valid() && Negative(m) && Resolve(refs, Object(m)).Some?
            && !CitesComplete(refs, Resolve(refs, Object(m)).value)
  {
    var refs := References([Evidence("e", "q")], [Query("q", true)]);
    var m := map["classification" := Text("not_supported_within_scope"), "evidence_ids" := List([Text("e")])];
    assert refs.evidence[0].queryId == refs.QueryIds()[0];
    var cited := Iterated(m["evidence_ids"]).value;
    assert Text("e") in [Text("e")];
    assert cited == {"e"};
    assert refs.EvidenceIds()[0] == "e";
    NegativeIsCompleteExactly(refs, m);
    assert refs.evidence[0] in refs.evidence && refs.queries[0] in refs.queries;
    assert !QueryComplete(refs, "q");
  }
}
