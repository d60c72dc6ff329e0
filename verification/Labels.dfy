/** Request-local labels: the encode and decode traversals over JSON trees. */
module Labels {
  import opened Wrappers
  import opened Basics
  import opened JsonTree
  import opened Decimals

  const EVIDENCE_FIELDS: set<string> := {
    "evidence_id", "evidence_ids", "lead_evidence_id", "allowed_evidence_ids", "result_row_refs",
    "evidence_candidate_row_refs", "returned_evidence_ids", "supplied_evidence_ids", "representative_evidence_id"}

  const QUERY_FIELDS: set<string> := {"query_id", "query_ids", "source_query_id"}

  const UNAVAILABLE: string := "UNAVAILABLE"

  predicate IsReference(key: string) { key in EVIDENCE_FIELDS || key in QUERY_FIELDS }

  datatype Evidence = Evidence(id: string, queryId: string)
  datatype Query = Query(id: string, incomplete: bool)

  /** The records supplied for one call, in label order. */
  datatype References = References(evidence: seq<Evidence>, queries: seq<Query>)
  {
    function EvidenceIds(): (ids: seq<string>)
      ensures |ids| == |evidence| && forall i :: 0 <= i < |ids| ==> ids[i] == evidence[i].id
    {
      seq(|evidence|, i requires 0 <= i < |evidence| => evidence[i].id)
    }

    function QueryIds(): (ids: seq<string>)
      ensures |ids| == |queries| && forall i :: 0 <= i < |ids| ==> ids[i] == queries[i].id
    {
      seq(|queries|, i requires 0 <= i < |queries| => queries[i].id)
    }

    /** Each identifier once, and every record's query supplied. */
    ghost predicate Valid() {
      && Distinct(EvidenceIds())
      && Distinct(QueryIds())
      && forall e :: e in evidence ==> e.queryId in QueryIds()
    }

    /** The identifiers that a reference field may name. */
    function Ids(key: string): (ids: seq<string>) {
      if key in EVIDENCE_FIELDS then EvidenceIds() else QueryIds()
    }
  }

  lemma ReferencesExactly(key: string)
    ensures IsReference(key) <==>
            || key == "evidence_id" || key == "evidence_ids" || key == "lead_evidence_id"
            || key == "allowed_evidence_ids" || key == "result_row_refs" || key == "evidence_candidate_row_refs"
            || key == "returned_evidence_ids" || key == "supplied_evidence_ids" || key == "representative_evidence_id"
            || key == "query_id" || key == "query_ids" || key == "source_query_id"
  {
  }

  /** The letter of a field's labels. */
  function Letter(key: string): char {
    if key in EVIDENCE_FIELDS then 'E' else 'Q'
  }

  function Label(letter: char, i: nat): string {
    [letter] + Decimal(i + 1)
  }

  lemma LabelInjective(letter: char, i: nat, j: nat)
    requires Label(letter, i) == Label(letter, j)
    ensures i == j
  {
    assert Decimal(i + 1) == Label(letter, i)[1..] == Label(letter, j)[1..] == Decimal(j + 1);
    DecimalInjective(i + 1, j + 1);
  }

  /** The identifier to label dictionary. */
  function ToLabel(letter: char, ids: seq<string>): map<string, string> {
    if ids == [] then map[]
    else ToLabel(letter, ids[..|ids| - 1])[ids[|ids| - 1] := Label(letter, |ids| - 1)]
  }

  /** The label to identifier dictionary. */
  function FromLabel(letter: char, ids: seq<string>): map<string, string> {
    if ids == [] then map[]
    else FromLabel(letter, ids[..|ids| - 1])[Label(letter, |ids| - 1) := ids[|ids| - 1]]
  }

  lemma {:induction false} ToLabelDomain(letter: char, ids: seq<string>)
    ensures forall id :: id in ToLabel(letter, ids) <==> id in ids
  {
    if ids != [] {
      ToLabelDomain(letter, ids[..|ids| - 1]);
      assert ids == ids[..|ids| - 1] + [ids[|ids| - 1]];
    }
  }

  lemma {:induction false} ToLabelAt(letter: char, ids: seq<string>, i: nat)
    requires Distinct(ids) && i < |ids|
    ensures ids[i] in ToLabel(letter, ids) && ToLabel(letter, ids)[ids[i]] == Label(letter, i)
  {
    if i < |ids| - 1 {
      ToLabelAt(letter, ids[..|ids| - 1], i);
    }
  }

  lemma {:induction false} FromLabelAt(letter: char, ids: seq<string>, i: nat)
    requires i < |ids|
    ensures Label(letter, i) in FromLabel(letter, ids) && FromLabel(letter, ids)[Label(letter, i)] == ids[i]
  {
    if i < |ids| - 1 {
      FromLabelAt(letter, ids[..|ids| - 1], i);
      if Label(letter, i) == Label(letter, |ids| - 1) {
        LabelInjective(letter, i, |ids| - 1);
      }
    }
  }

  lemma {:induction false} FromLabelDomain(letter: char, ids: seq<string>, name: string)
    requires name in FromLabel(letter, ids)
    ensures name != [] && name[0] == letter
  {
    if name != Label(letter, |ids| - 1) {
      FromLabelDomain(letter, ids[..|ids| - 1], name);
    }
  }

  lemma SuppliedRoundTrip(letter: char, ids: seq<string>, id: string)
    requires Distinct(ids) && id in ids
    ensures id in ToLabel(letter, ids)
    ensures ToLabel(letter, ids)[id] in FromLabel(letter, ids)
    ensures FromLabel(letter, ids)[ToLabel(letter, ids)[id]] == id
  {
    var i: nat :| i < |ids| && ids[i] == id;
    ToLabelAt(letter, ids, i);
    FromLabelAt(letter, ids, i);
  }

  lemma UnavailableIsNoLabel(letter: char, ids: seq<string>)
    requires letter != 'U'
    ensures UNAVAILABLE !in FromLabel(letter, ids)
  {
    if UNAVAILABLE in FromLabel(letter, ids) {
      FromLabelDomain(letter, ids, UNAVAILABLE);
    }
  }

  // ---- The traversals ----

  /** The text of a leaf, as `str` gives it. */
  function Str(v: Json): string {
    match v
    case Null => "None"
    case Bool(b) => if b then "True" else "False"
    case Number(n) => if n < 0 then "-" + Decimal(-n) else Decimal(n)
    case Text(s) => s
    case List(_) => "[]"
    case Object(_) => "{}"
  }

  function EncodeLeaf(refs: References, v: Json, key: string): Json
    requires refs.Valid()
  {
    if !IsReference(key) then v
    else
      var labels := ToLabel(Letter(key), refs.Ids(key));
      Text(if Str(v) in labels then labels[Str(v)] else UNAVAILABLE)
  }

  /** Identifiers become labels; raw telemetry is kept, validation errors are rewritten by `errors`. */
  function Encode(refs: References, errors: map<string, Json> -> Json, v: Json, key: string): Json
    requires refs.Valid()
    decreases v
  {
    if key == "selected_result" then v
    else
      match v
      case Object(m) =>
        if key == "validation_errors" then errors(m)
        else Object(map name | name in m :: Encode(refs, errors, m[name], name))
      case List(items) =>
        List(seq(|items|, i requires 0 <= i < |items| => Encode(refs, errors, items[i], key)))
      case _ => EncodeLeaf(refs, v, key)
  }

  function DecodeLeaf(refs: References, v: Json, key: string): Option<Json> {
    if !IsReference(key) then Some(v)
    else
      var ids := FromLabel(Letter(key), refs.Ids(key));
      if v.Text? && v.s in ids then Some(Text(ids[v.s])) else None
  }

  predicate Hashable(v: Json) { !v.List? && !v.Object? }

  /** First occurrences, in order. */
  function Deduplicated<T(==)>(items: seq<T>): seq<T> {
    if items == [] then []
    else
      var rest := Deduplicated(items[..|items| - 1]);
      var last := items[|items| - 1];
      if last in rest then rest else rest + [last]
  }

  /** A decoded list: reference lists are made unique, which a container in them cannot be. */
  function Collected(items: seq<Json>, key: string): Option<Json> {
    if !IsReference(key) then Some(List(items))
    else if forall v :: v in items ==> Hashable(v) then Some(List(Deduplicated(items)))
    else None
  }

  function Decode(refs: References, v: Json, key: string): Option<Json>
    decreases v
  {
    match v
    case Object(m) =>
      if forall name :: name in m ==> Decode(refs, m[name], name).Some?
      then Some(Object(map name | name in m :: Decode(refs, m[name], name).value))
      else None
    case List(items) =>
      if forall i :: 0 <= i < |items| ==> Decode(refs, items[i], key).Some?
      then Collected(seq(|items|, i requires 0 <= i < |items| => Decode(refs, items[i], key).value), key)
      else None
    case _ => DecodeLeaf(refs, v, key)
  }

  // ---- The round trip ----

  /** No member at any depth is named `selected_result` or `validation_errors`. */
  predicate Plain(v: Json)
    decreases v
  {
    match v
    case Object(m) =>
      "selected_result" !in m && "validation_errors" !in m && forall name :: name in m ==> Plain(m[name])
    case List(items) => forall i :: 0 <= i < |items| ==> Plain(items[i])
    case _ => true
  }

  predicate Supplied(refs: References, v: Json, key: string) {
    v.Text? && v.s in refs.Ids(key)
  }

  /** Reference leaves are supplied identifiers; reference lists are flat and free of repetition. */
  predicate Referable(refs: References, v: Json, key: string)
    decreases v
  {
    match v
    case Object(m) => forall name :: name in m ==> Referable(refs, m[name], name)
    case List(items) =>
      if IsReference(key)
      then
        && (forall i :: 0 <= i < |items| ==> Supplied(refs, items[i], key))
        && (forall i, j :: 0 <= i < j < |items| ==> items[i] != items[j])
      else forall i :: 0 <= i < |items| ==> Referable(refs, items[i], key)
    case _ => IsReference(key) ==> Supplied(refs, v, key)
  }

  lemma LeafRoundTrip(refs: References, v: Json, key: string)
    requires refs.Valid()
    requires Hashable(v)
    ensures DecodeLeaf(refs, EncodeLeaf(refs, v, key), key) == Some(v)
       <==> (IsReference(key) ==> Supplied(refs, v, key))
  {
    if IsReference(key) {
      var ids := refs.Ids(key);
      ToLabelDomain(Letter(key), ids);
      if Str(v) in ids {
        SuppliedRoundTrip(Letter(key), ids, Str(v));
      } else {
        UnavailableIsNoLabel(Letter(key), ids);
      }
    }
  }

  lemma {:induction false} DeduplicatedKeeps(items: seq<Json>)
    ensures |Deduplicated(items)| <= |items|
    ensures forall v :: v in Deduplicated(items) <==> v in items
    ensures |Deduplicated(items)| == |items| ==> Deduplicated(items) == items
  {
    if items != [] {
      var init := items[..|items| - 1];
      DeduplicatedKeeps(init);
      assert items == init + [items[|items| - 1]];
    }
  }

  lemma {:induction false} DeduplicatedIdentity(items: seq<Json>)
    ensures Deduplicated(items) == items <==> forall i, j :: 0 <= i < j < |items| ==> items[i] != items[j]
  {
    if items != [] {
      var init, last := items[..|items| - 1], items[|items| - 1];
      DeduplicatedIdentity(init);
      DeduplicatedKeeps(init);
      assert items == init + [last];
      if Deduplicated(items) == items {
        assert last !in Deduplicated(init);
        assert |Deduplicated(init)| == |init|;
      }
    }
  }

  /** Decoding undoes encoding on this tree. */
  predicate Undone(refs: References, errors: map<string, Json> -> Json, v: Json, key: string)
    requires refs.Valid()
  {
    Decode(refs, Encode(refs, errors, v, key), key) == Some(v)
  }

  predicate Traversed(key: string) { key != "selected_result" && key != "validation_errors" }

  /** The tree that an object's members become under the two traversals, one after the other. */
  lemma MembersUndone(refs: References, errors: map<string, Json> -> Json, m: map<string, Json>, key: string)
    requires refs.Valid() && Traversed(key)
    requires forall name :: name in m ==> Undone(refs, errors, m[name], name)
    ensures Undone(refs, errors, Object(m), key)
  {
    var encoded := map name | name in m :: Encode(refs, errors, m[name], name);
    assert Encode(refs, errors, Object(m), key) == Object(encoded);
    assert forall name :: name in encoded ==> Decode(refs, encoded[name], name) == Some(m[name]);
    var decoded := map name | name in encoded :: Decode(refs, encoded[name], name).value;
    assert Decode(refs, Object(encoded), key) == Some(Object(decoded));
    assert decoded == m;
  }

  lemma UndoneMembers(refs: References, errors: map<string, Json> -> Json, m: map<string, Json>, key: string)
    requires refs.Valid() && Traversed(key)
    requires Undone(refs, errors, Object(m), key)
    ensures forall name :: name in m ==> Undone(refs, errors, m[name], name)
  {
    var encoded := map name | name in m :: Encode(refs, errors, m[name], name);
    assert Encode(refs, errors, Object(m), key) == Object(encoded);
    assert forall name :: name in encoded ==> Decode(refs, encoded[name], name).Some?;
    var decoded := map name | name in encoded :: Decode(refs, encoded[name], name).value;
    assert Decode(refs, Object(encoded), key) == Some(Object(decoded));
    assert decoded == m;
    forall name | name in m ensures Undone(refs, errors, m[name], name) {
      assert decoded[name] == m[name];
    }
  }

  /** What the items of a list become, when every one of them resolves. */
  ghost predicate Items(
    refs: References, errors: map<string, Json> -> Json, items: seq<Json>, key: string, decoded: seq<Json>)
    requires refs.Valid()
  {
    && |decoded| == |items|
    && forall i :: 0 <= i < |items| ==> Decode(refs, Encode(refs, errors, items[i], key), key) == Some(decoded[i])
  }

  /** Lists resolve item by item and are then collected. */
  lemma ListDecodes(refs: References, errors: map<string, Json> -> Json, items: seq<Json>, key: string, d: Json)
    requires refs.Valid() && Traversed(key)
    ensures Decode(refs, Encode(refs, errors, List(items), key), key) == Some(d) <==>
            exists decoded :: Items(refs, errors, items, key, decoded) && Collected(decoded, key) == Some(d)
  {
    var encoded := seq(|items|, i requires 0 <= i < |items| => Encode(refs, errors, items[i], key));
    assert Encode(refs, errors, List(items), key) == List(encoded);
    if forall i :: 0 <= i < |encoded| ==> Decode(refs, encoded[i], key).Some? {
      var all := seq(|encoded|, i requires 0 <= i < |encoded| => Decode(refs, encoded[i], key).value);
      assert Items(refs, errors, items, key, all);
      assert forall decoded :: Items(refs, errors, items, key, decoded) ==> decoded == all;
    }
  }

  lemma PlainListRoundTrip(refs: References, errors: map<string, Json> -> Json, items: seq<Json>, key: string)
    requires refs.Valid() && Traversed(key) && !IsReference(key)
    ensures Undone(refs, errors, List(items), key)
       <==> forall i :: 0 <= i < |items| ==> Undone(refs, errors, items[i], key)
  {
    ListDecodes(refs, errors, items, key, List(items));
    if forall i :: 0 <= i < |items| ==> Undone(refs, errors, items[i], key) {
      assert Items(refs, errors, items, key, items);
    }
  }

  lemma SuppliedUndone(refs: References, errors: map<string, Json> -> Json, v: Json, key: string)
    requires refs.Valid() && Traversed(key) && IsReference(key) && Hashable(v)
    ensures Undone(refs, errors, v, key) <==> Supplied(refs, v, key)
  {
    LeafRoundTrip(refs, v, key);
  }

  lemma ReferencesUndone(refs: References, errors: map<string, Json> -> Json, items: seq<Json>, key: string)
    requires refs.Valid() && Traversed(key) && IsReference(key)
    requires Referable(refs, List(items), key)
    ensures Undone(refs, errors, List(items), key)
  {
    forall i | 0 <= i < |items| ensures Undone(refs, errors, items[i], key) {
      SuppliedUndone(refs, errors, items[i], key);
    }
    assert Items(refs, errors, items, key, items);
    DeduplicatedIdentity(items);
    assert Collected(items, key) == Some(List(items));
    ListDecodes(refs, errors, items, key, List(items));
  }

  lemma UndoneReferences(refs: References, errors: map<string, Json> -> Json, items: seq<Json>, key: string)
    requires refs.Valid() && Traversed(key) && IsReference(key)
    requires Undone(refs, errors, List(items), key)
    ensures Referable(refs, List(items), key)
  {
    ListDecodes(refs, errors, items, key, List(items));
    var decoded :| Items(refs, errors, items, key, decoded) && Collected(decoded, key) == Some(List(items));
    DeduplicatedKeeps(decoded);
    assert decoded == items;
    DeduplicatedIdentity(items);
    forall i | 0 <= i < |items| ensures Supplied(refs, items[i], key) {
      assert decoded[i] in decoded;
      SuppliedUndone(refs, errors, items[i], key);
    }
  }

  /** Decoding undoes encoding exactly on the trees that refer only to supplied records, each once per list. */
  lemma {:induction false} RoundTrip(refs: References, errors: map<string, Json> -> Json, v: Json, key: string)
    requires refs.Valid() && Traversed(key) && Plain(v)
    ensures Decode(refs, Encode(refs, errors, v, key), key) == Some(v) <==> Referable(refs, v, key)
    decreases v
  {
    match v
    case Object(m) =>
      forall name | name in m ensures Undone(refs, errors, m[name], name) <==> Referable(refs, m[name], name) {
        RoundTrip(refs, errors, m[name], name);
      }
      if Undone(refs, errors, v, key) {
        UndoneMembers(refs, errors, m, key);
      } else if Referable(refs, v, key) {
        MembersUndone(refs, errors, m, key);
      }
    case List(items) =>
      if IsReference(key) {
        if Undone(refs, errors, v, key) {
          UndoneReferences(refs, errors, items, key);
        } else if Referable(refs, v, key) {
          ReferencesUndone(refs, errors, items, key);
        }
      } else {
        forall i | 0 <= i < |items| ensures Undone(refs, errors, items[i], key) <==> Referable(refs, items[i], key) {
          RoundTrip(refs, errors, items[i], key);
        }
        PlainListRoundTrip(refs, errors, items, key);
      }
    case _ =>
      LeafRoundTrip(refs, v, key);
  }

  // ---- What an encoded tree shows ----

  /** The name of a label: `E1`, `E2`, ... for evidence, `Q1`, `Q2`, ... for queries. */
  predicate IsLabel(refs: References, name: string, key: string) {
    exists n: nat :: 1 <= n <= |refs.Ids(key)| && name == (if key in EVIDENCE_FIELDS then "E" else "Q") + Decimal(n)
  }

  /** Every value under a reference field is a label or says that there is none. */
  predicate Masked(refs: References, v: Json, key: string)
    decreases v
  {
    match v
    case Object(m) => forall name :: name in m ==> Masked(refs, m[name], name)
    case List(items) => forall i :: 0 <= i < |items| ==> Masked(refs, items[i], key)
    case _ => IsReference(key) ==> v.Text? && (v.s == "UNAVAILABLE" || IsLabel(refs, v.s, key))
  }

  lemma LeafIsMasked(refs: References, v: Json, key: string)
    requires refs.Valid() && Hashable(v)
    ensures Masked(refs, EncodeLeaf(refs, v, key), key)
  {
    var ids := refs.Ids(key);
    ToLabelDomain(Letter(key), ids);
    if IsReference(key) && Str(v) in ids {
      var i: nat :| i < |ids| && ids[i] == Str(v);
      ToLabelAt(Letter(key), ids, i);
    }
  }

  /** A supplied identifier is encoded as the label of its position. */
  lemma LeafLabel(refs: References, key: string, i: nat)
    requires refs.Valid() && IsReference(key) && i < |refs.Ids(key)|
    ensures EncodeLeaf(refs, Text(refs.Ids(key)[i]), key)
         == Text((if key in EVIDENCE_FIELDS then "E" else "Q") + Decimal(i + 1))
  {
    ToLabelAt(Letter(key), refs.Ids(key), i);
  }

  /** An encoded plain tree shows labels only: no record is referred to by anything else. */
  lemma {:induction false} EncodedIsMasked(refs: References, errors: map<string, Json> -> Json, v: Json, key: string)
    requires refs.Valid() && Traversed(key) && Plain(v)
    ensures Masked(refs, Encode(refs, errors, v, key), key)
    decreases v
  {
    match v
    case Object(m) =>
      forall name | name in m ensures Masked(refs, Encode(refs, errors, m[name], name), name) {
        EncodedIsMasked(refs, errors, m[name], name);
      }
    case List(items) =>
      forall i | 0 <= i < |items| ensures Masked(refs, Encode(refs, errors, items[i], key), key) {
        EncodedIsMasked(refs, errors, items[i], key);
      }
    case _ => LeafIsMasked(refs, v, key);
  }

  /** The tree shows a supplied identifier under a reference field. */
  predicate ShowsIdentifier(refs: References, v: Json, key: string)
    decreases v
  {
    match v
    case Object(m) => exists name :: name in m && ShowsIdentifier(refs, m[name], name)
    case List(items) => exists i :: 0 <= i < |items| && ShowsIdentifier(refs, items[i], key)
    case _ => IsReference(key) && v.Text? && v.s in refs.Ids(key)
  }

  lemma {:induction false} MaskedShowsNothing(refs: References, v: Json, key: string)
    requires Masked(refs, v, key)
    requires forall k, id :: IsReference(k) && id in refs.Ids(k) ==> id != "UNAVAILABLE" && !IsLabel(refs, id, k)
    ensures !ShowsIdentifier(refs, v, key)
    decreases v
  {
    match v
    case Object(m) =>
      forall name | name in m ensures !ShowsIdentifier(refs, m[name], name) {
        MaskedShowsNothing(refs, m[name], name);
      }
    case List(items) =>
      forall i | 0 <= i < |items| ensures !ShowsIdentifier(refs, items[i], key) {
        MaskedShowsNothing(refs, items[i], key);
      }
    case _ =>
  }

  lemma {:induction false} FromLabelValue(letter: char, ids: seq<string>, name: string)
    requires name in FromLabel(letter, ids)
    ensures FromLabel(letter, ids)[name] in ids
  {
    if name != Label(letter, |ids| - 1) {
      FromLabelValue(letter, ids[..|ids| - 1], name);
    }
  }

  lemma {:induction false} DeduplicatedDistinct(items: seq<Json>)
    ensures Deduplicated(Deduplicated(items)) == Deduplicated(items)
  {
    if items != [] {
      var rest, last := Deduplicated(items[..|items| - 1]), items[|items| - 1];
      DeduplicatedDistinct(items[..|items| - 1]);
      if last !in rest {
        assert (rest + [last])[..|rest|] == rest;
      }
    }
  }

  lemma LeafDecodesToSupplied(refs: References, v: Json, key: string)
    requires IsReference(key) && Decode(refs, v, key).Some? && Hashable(Decode(refs, v, key).value)
    ensures Supplied(refs, Decode(refs, v, key).value, key)
  {
    FromLabelValue(Letter(key), refs.Ids(key), v.s);
  }

  lemma CollectedIsReferable(refs: References, decoded: seq<Json>, key: string)
    requires IsReference(key) && Collected(decoded, key).Some?
    requires forall i :: 0 <= i < |decoded| ==> Supplied(refs, decoded[i], key)
    ensures Referable(refs, Collected(decoded, key).value, key)
  {
    var items := Deduplicated(decoded);
    DeduplicatedKeeps(decoded);
    DeduplicatedDistinct(decoded);
    DeduplicatedIdentity(items);
    forall i | 0 <= i < |items| ensures Supplied(refs, items[i], key) {
      assert items[i] in decoded;
    }
  }

  lemma ReferenceListDecodesToSupplied(refs: References, items: seq<Json>, key: string)
    requires IsReference(key) && Decode(refs, List(items), key).Some?
    ensures Referable(refs, Decode(refs, List(items), key).value, key)
  {
    assert forall i :: 0 <= i < |items| ==> Decode(refs, items[i], key).Some?;
    var decoded := seq(|items|, i requires 0 <= i < |items| => Decode(refs, items[i], key).value);
    assert Decode(refs, List(items), key) == Collected(decoded, key);
    forall i | 0 <= i < |items| ensures Supplied(refs, decoded[i], key) {
      assert decoded[i] in decoded;
      LeafDecodesToSupplied(refs, items[i], key);
    }
    CollectedIsReferable(refs, decoded, key);
  }

  /** Whatever a model answers, a decoded tree refers to supplied records only, each once per list. */
  lemma {:induction false} DecodedIsReferable(refs: References, v: Json, key: string)
    requires Decode(refs, v, key).Some?
    ensures Referable(refs, Decode(refs, v, key).value, key)
    decreases v
  {
    match v
    case Object(m) =>
      forall name | name in m ensures Referable(refs, Decode(refs, m[name], name).value, name) {
        DecodedIsReferable(refs, m[name], name);
      }
    case List(items) =>
      if IsReference(key) {
        ReferenceListDecodesToSupplied(refs, items, key);
      } else {
        forall i | 0 <= i < |items| ensures Referable(refs, Decode(refs, items[i], key).value, key) {
          DecodedIsReferable(refs, items[i], key);
        }
      }
    case _ =>
      if IsReference(key) {
        LeafDecodesToSupplied(refs, v, key);
      }
  }
}
