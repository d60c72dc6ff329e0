/** Compaction of retained records: identical raw representations are grouped, and every other origin is kept as a
    reference on the first of them.  Pages of the compacted list are then served by offset.
 */
module Compaction {
  import opened Wrappers
  import opened JsonTree

  /** A retained record: its envelope (ids, kind, time, ...) and the selected result. */
  datatype Record = Record(envelope: map<string, Json>, event: map<string, Json>)

  /** An output row with the envelopes of the later records that it stands for. */
  datatype Group = Group(row: Record, duplicates: seq<map<string, Json>>)

  /** The resolved source of a record, `None` when unknown. */
  type Resolver = Record -> Option<(string, string)>

  predicate IsName(event: map<string, Json>, field: string) {
    field in event && event[field].Text? && event[field].s != ""
  }

  function Identity(event: map<string, Json>): Option<string> {
    if IsName(event, "_cd") then Some(event["_cd"].s)
    else if IsName(event, "event_id") then Some(event["event_id"].s)
    else None
  }

  predicate IsRaw(r: Record) {
    "evidence_kind" !in r.envelope || r.envelope["evidence_kind"] == Text("raw_event")
  }

  predicate Groupable(r: Record) {
    IsRaw(r) && Identity(r.event).Some?
  }

  function Get(m: map<string, Json>, field: string): Json {
    if field in m then m[field] else Null
  }

  /** What two records must share to be grouped. */
  datatype Key = Key(namespace: (Json, Json), identity: string, time: Json, event: map<string, Json>)

  function KeyOf(source: Resolver, r: Record): Key
    requires Groupable(r)
  {
    var s := source(r);
    Key(if s.Some? then (Text(s.value.0), Text(s.value.1)) else (Text("query"), Get(r.envelope, "query_id")),
        Identity(r.event).value, Get(r.envelope, "event_time_utc"), r.event)
  }

  // ----- Where every record is kept -----

  /** A place in the output: origin 0 of a group is its row, the others are its duplicates. */
  datatype Place = Place(group: nat, origin: nat)

  predicate IsPlace(out: seq<Group>, p: Place) {
    p.group < |out| && p.origin <= |out[p.group].duplicates|
  }

  function At(out: seq<Group>, p: Place): Record
    requires IsPlace(out, p)
  {
    var g := out[p.group];
    if p.origin == 0 then g.row else Record(g.duplicates[p.origin - 1], g.row.event)
  }

  /** Every record is kept at its own place, and every place keeps a record: nothing is lost, invented or doubled. */
  ghost predicate Lossless(records: seq<Record>, out: seq<Group>, place: seq<Place>) {
    && |place| == |records|
    && (forall i :: 0 <= i < |place| ==> IsPlace(out, place[i]) && At(out, place[i]) == records[i])
    && (forall i, j :: 0 <= i < j < |place| ==> place[i] != place[j])
    && (forall p :: IsPlace(out, p) ==> p in place)
  }

  /** Records share a group only when namespace, identity, time and the full result agree. */
  ghost predicate MergesEqual(source: Resolver, out: seq<Group>) {
    forall p :: IsPlace(out, p) && p.origin > 0 ==>
      && Groupable(out[p.group].row) && Groupable(At(out, p))
      && KeyOf(source, At(out, p)) == KeyOf(source, out[p.group].row)
  }

  /** Records that agree are always grouped. */
  ghost predicate MergesAll(source: Resolver, out: seq<Group>) {
    forall i, j :: 0 <= i < j < |out| && Groupable(out[i].row) && Groupable(out[j].row)
      ==> KeyOf(source, out[i].row) != KeyOf(source, out[j].row)
  }

  /** The groups found so far, by key. */
  ghost predicate Indexed(source: Resolver, groups: map<Key, nat>, out: seq<Group>) {
    && (forall key :: key in groups ==>
          groups[key] < |out| && Groupable(out[groups[key]].row) && KeyOf(source, out[groups[key]].row) == key)
    && (forall i :: 0 <= i < |out| && Groupable(out[i].row) ==>
          KeyOf(source, out[i].row) in groups && groups[KeyOf(source, out[i].row)] == i)
  }

  lemma NewGroup(records: seq<Record>, out: seq<Group>, place: seq<Place>, r: Record)
    requires Lossless(records, out, place)
    ensures Lossless(records + [r], out + [Group(r, [])], place + [Place(|out|, 0)])
  {
    var out' := out + [Group(r, [])];
    var place' := place + [Place(|out|, 0)];
    forall i | 0 <= i < |place| ensures IsPlace(out', place[i]) && At(out', place[i]) == records[i] {
      assert out'[place[i].group] == out[place[i].group];
    }
    forall p | IsPlace(out', p) ensures p in place' {
      if p.group < |out| {
        assert IsPlace(out, p);
      } else {
        assert place'[|place|] == p;
      }
    }
  }

  function Joined(out: seq<Group>, g: nat, r: Record): seq<Group>
    requires g < |out|
  {
    out[g := Group(out[g].row, out[g].duplicates + [r.envelope])]
  }

  lemma JoinedPlaces(out: seq<Group>, g: nat, r: Record, p: Place)
    requires g < |out| && out[g].row.event == r.event && IsPlace(Joined(out, g, r), p)
    ensures IsPlace(out, p) ==> At(Joined(out, g, r), p) == At(out, p)
    ensures !IsPlace(out, p) ==> p == Place(g, |out[g].duplicates| + 1) && At(Joined(out, g, r), p) == r
    ensures Joined(out, g, r)[p.group].row == out[p.group].row
  {
  }

  lemma JoinGroup(records: seq<Record>, out: seq<Group>, place: seq<Place>, g: nat, r: Record)
    requires Lossless(records, out, place) && g < |out| && out[g].row.event == r.event
    ensures Lossless(records + [r], Joined(out, g, r), place + [Place(g, |out[g].duplicates| + 1)])
  {
    var out' := Joined(out, g, r);
    var added := Place(g, |out[g].duplicates| + 1);
    var place' := place + [added];
    forall i | 0 <= i < |place| ensures IsPlace(out', place[i]) && At(out', place[i]) == records[i] {
      JoinedPlaces(out, g, r, place[i]);
    }
    JoinedPlaces(out, g, r, added);
    assert !IsPlace(out, added);
    forall p | IsPlace(out', p) ensures p in place' {
      JoinedPlaces(out, g, r, p);
      assert place'[|place|] == added;
    }
  }

  /** Groups appear in the order of their first records and list their origins in record order. */
  ghost predicate InOrder(place: seq<Place>) {
    forall i, j :: 0 <= i < j < |place| ==>
      && (place[i].origin == 0 && place[j].origin == 0 ==> place[i].group < place[j].group)
      && (place[i].group == place[j].group ==> place[i].origin < place[j].origin)
  }

  ghost predicate Grouped(source: Resolver, out: seq<Group>, place: seq<Place>) {
    MergesEqual(source, out) && MergesAll(source, out) && InOrder(place)
  }

  lemma NewGroupInOrder(records: seq<Record>, out: seq<Group>, place: seq<Place>)
    requires Lossless(records, out, place) && InOrder(place)
    ensures InOrder(place + [Place(|out|, 0)])
  {
    assert forall i :: 0 <= i < |place| ==> place[i].group < |out|;
  }

  lemma NewGroupKeeps(
    source: Resolver, records: seq<Record>, out: seq<Group>, place: seq<Place>, groups: map<Key, nat>, r: Record)
    requires Lossless(records, out, place) && Grouped(source, out, place) && Indexed(source, groups, out)
    requires Groupable(r) ==> KeyOf(source, r) !in groups
    ensures Grouped(source, out + [Group(r, [])], place + [Place(|out|, 0)])
    ensures Indexed(source, if Groupable(r) then groups[KeyOf(source, r) := |out|] else groups, out + [Group(r, [])])
  {
    NewGroupInOrder(records, out, place);
  }

  lemma JoinGroupKeeps(
    source: Resolver, records: seq<Record>, out: seq<Group>, place: seq<Place>, groups: map<Key, nat>, g: nat,
    r: Record)
    requires Lossless(records, out, place) && Grouped(source, out, place) && Indexed(source, groups, out)
    requires Groupable(r) && KeyOf(source, r) in groups && groups[KeyOf(source, r)] == g
    ensures Grouped(source, Joined(out, g, r), place + [Place(g, |out[g].duplicates| + 1)])
    ensures Indexed(source, groups, Joined(out, g, r))
  {
    var out' := Joined(out, g, r);
    assert forall i :: 0 <= i < |out| ==> out'[i].row == out[i].row;
    forall p | IsPlace(out', p) && p.origin > 0
      ensures Groupable(out'[p.group].row) && Groupable(At(out', p))
      ensures KeyOf(source, At(out', p)) == KeyOf(source, out'[p.group].row)
    {
      JoinedPlaces(out, g, r, p);
    }
  }

  /** The compaction loop. */
  method Compact(records: seq<Record>, source: Resolver) returns (out: seq<Group>, ghost place: seq<Place>)
    ensures Lossless(records, out, place) && MergesEqual(source, out) && MergesAll(source, out) && InOrder(place)
  {
    var groups: map<Key, nat> := map[];
    out, place := [], [];
    for k := 0 to |records|
      invariant Lossless(records[..k], out, place) && Grouped(source, out, place) && Indexed(source, groups, out)
    {
      var r := records[k];
      assert records[..k + 1] == records[..k] + [r];
      if !Groupable(r) || KeyOf(source, r) !in groups {
        NewGroup(records[..k], out, place, r);
        NewGroupKeeps(source, records[..k], out, place, groups, r);
        if Groupable(r) {
          groups := groups[KeyOf(source, r) := |out|];
        }
        place := place + [Place(|out|, 0)];
        out := out + [Group(r, [])];
      } else {
        var g := groups[KeyOf(source, r)];
        JoinGroup(records[..k], out, place, g, r);
        JoinGroupKeeps(source, records[..k], out, place, groups, g, r);
        place := place + [Place(g, |out[g].duplicates| + 1)];
        out := Joined(out, g, r);
      }
    }
    assert records[..|records|] == records;
  }

  // ----- Who shares a group, on the fields of the records -----

  predicate MarkedRaw(r: Record) {
    "evidence_kind" in r.envelope ==> r.envelope["evidence_kind"] == Text("raw_event")
  }

  /** The record has a usable `_cd` or `event_id`. */
  predicate Identified(r: Record) {
    || ("_cd" in r.event && r.event["_cd"].Text? && r.event["_cd"].s != "")
    || ("event_id" in r.event && r.event["event_id"].Text? && r.event["event_id"].s != "")
  }

  /** Equal values of an envelope field, where an absent field counts as null. */
  predicate Agree(a: Record, b: Record, field: string) {
    || (field in a.envelope && field in b.envelope && a.envelope[field] == b.envelope[field])
    || ((field in a.envelope ==> a.envelope[field].Null?) && (field in b.envelope ==> b.envelope[field].Null?))
  }

  /** Equal known sources, or unknown ones in the same query.  An index called `query` whose sourcetype is written as
      the query's identifier is taken for that query's unknown source. */
  predicate SameSource(source: Resolver, a: Record, b: Record) {
    match (source(a), source(b))
    case (Some(s), Some(t)) => s == t
    case (None, None) => Agree(a, b, "query_id")
    case (Some(s), None) => s.0 == "query" && "query_id" in b.envelope && b.envelope["query_id"] == Text(s.1)
    case (None, Some(t)) => t.0 == "query" && "query_id" in a.envelope && a.envelope["query_id"] == Text(t.1)
  }

  ghost predicate Shared(source: Resolver, a: Record, b: Record) {
    && MarkedRaw(a) && MarkedRaw(b) && Identified(a) && a.event == b.event
    && Agree(a, b, "event_time_utc") && SameSource(source, a, b)
  }

  lemma KeysExactly(source: Resolver, a: Record, b: Record)
    ensures Shared(source, a, b) <==> Groupable(a) && Groupable(b) && KeyOf(source, a) == KeyOf(source, b)
  {
  }

  /** The key of a kept record is the key of its group. */
  lemma KeyOfGroup(source: Resolver, out: seq<Group>, p: Place)
    requires MergesEqual(source, out) && IsPlace(out, p)
    requires p.origin > 0 || Groupable(At(out, p))
    ensures Groupable(out[p.group].row) && Groupable(At(out, p))
    ensures KeyOf(source, At(out, p)) == KeyOf(source, out[p.group].row)
  {
  }

  /** Two records share a group if and only if both are raw events, identified, with equal results and times, and with
      equal known sources or unknown sources in one query. */
  lemma GroupsExactly(source: Resolver, records: seq<Record>, out: seq<Group>, place: seq<Place>, i: nat, j: nat)
    requires Lossless(records, out, place) && MergesEqual(source, out) && MergesAll(source, out)
    requires i < j < |records|
    ensures place[i].group == place[j].group <==> Shared(source, records[i], records[j])
  {
    var p, q := place[i], place[j];
    KeysExactly(source, records[i], records[j]);
    if p.group == q.group {
      assert p.origin > 0 || q.origin > 0;
      if p.origin > 0 {
        KeyOfGroup(source, out, p);
        KeyOfGroup(source, out, q);
      } else {
        KeyOfGroup(source, out, q);
        KeyOfGroup(source, out, p);
      }
    } else if Shared(source, records[i], records[j]) {
      KeyOfGroup(source, out, p);
      KeyOfGroup(source, out, q);
    }
  }

  /** Records of unknown source from different queries are never grouped. */
  lemma UnknownSourcesStayApart(
    source: Resolver, records: seq<Record>, out: seq<Group>, place: seq<Place>, i: nat, j: nat)
    requires Lossless(records, out, place) && MergesEqual(source, out) && MergesAll(source, out)
    requires i < j < |records| && source(records[i]).None? && source(records[j]).None?
    requires "query_id" in records[i].envelope && records[i].envelope["query_id"].Text?
    requires "query_id" in records[j].envelope && records[i].envelope["query_id"] != records[j].envelope["query_id"]
    ensures place[i].group != place[j].group
  {
    GroupsExactly(source, records, out, place, i, j);
  }

  /** Two equal results of different queries, one of known and one of unknown source, that share a group: the known
      source is the index `query` with a sourcetype written like the other query's identifier. */
  lemma QueryIndexIsShared(event: map<string, Json>, known: string, unknown: string)
    returns (source: Resolver, a: Record, b: Record)
    requires "_cd" in event && event["_cd"].Text? && event["_cd"].s != "" && known != unknown
    ensures a.envelope == map["query_id" := Text(known)] && b.envelope == map["query_id" := Text(unknown)]
    ensures source(a).Some? && source(b).None? && Shared(source, a, b)
  {
    a, b := Record(map["query_id" := Text(known)], event), Record(map["query_id" := Text(unknown)], event);
    source := (r: Record) => if Get(r.envelope, "query_id") == Text(known) then Some(("query", unknown)) else None;
  }

  // ----- Re-expansion -----

  const DUPLICATES: string := "duplicate_references"

  function Objects(envelopes: seq<map<string, Json>>): seq<Json> {
    seq(|envelopes|, i requires 0 <= i < |envelopes| => Object(envelopes[i]))
  }

  /** What the model context holds for an origin of a group.  The row itself lists its duplicates; for a duplicate the
      row is overlaid with the kept envelope and an empty list. */
  function Expanded(out: seq<Group>, p: Place): Record
    requires IsPlace(out, p)
  {
    var g := out[p.group];
    if p.origin > 0 then Record((g.row.envelope + g.duplicates[p.origin - 1])[DUPLICATES := List([])], g.row.event)
    else if g.duplicates == [] then g.row
    else Record(g.row.envelope[DUPLICATES := List(Objects(g.duplicates))], g.row.event)
  }

  /** The envelope apart from the list of duplicates. */
  function Proper(r: Record): map<string, Json> {
    r.envelope - {DUPLICATES}
  }

  /** Re-expansion recovers the result and every proper envelope field that the original record had, in particular its
      evidence id and query id.  The list of duplicates apart, it is the original record exactly when the group's first
      row has no envelope field that the record lacks. */
  lemma ExpansionRecovers(records: seq<Record>, out: seq<Group>, place: seq<Place>, i: nat)
    requires Lossless(records, out, place) && i < |records|
    ensures Expanded(out, place[i]).event == records[i].event
    ensures forall f :: f in Proper(records[i]) ==>
                          && f in Proper(Expanded(out, place[i]))
                          && Proper(Expanded(out, place[i]))[f] == Proper(records[i])[f]
    ensures Proper(Expanded(out, place[i])) == Proper(records[i])
       <==> Proper(out[place[i].group].row).Keys <= records[i].envelope.Keys
  {
    var row, original, expanded := out[place[i].group].row, records[i], Expanded(out, place[i]);
    if place[i].origin > 0 {
      assert Proper(expanded) == Proper(row) + Proper(original);
      assert Proper(expanded).Keys == Proper(row).Keys + Proper(original).Keys;
      if Proper(row).Keys <= original.envelope.Keys {
        assert Proper(row) + Proper(original) == Proper(original);
      }
    } else {
      assert Proper(expanded) == Proper(original);
    }
  }

  // ----- A record that comes back with a field it never had -----

  /** Two records of one raw event; only the first states its kind, which readers take for granted. */
  function Kinded(): Record {
    Record(
      map["evidence_id" := Text("e1"), "query_id" := Text("q"), "evidence_kind" := Text("raw_event")],
      map["_cd" := Text("1")])
  }

  function Unkinded(): Record {
    Record(map["evidence_id" := Text("e2"), "query_id" := Text("q")], map["_cd" := Text("1")])
  }

  /** What compaction makes of two records that agree. */
  function Merged(first: Record, second: Record): seq<Group> {
    [Group(first, [second.envelope])]
  }

  const PAIR: seq<Place> := [Place(0, 0), Place(0, 1)]

  lemma PairMerges(source: Resolver, first: Record, second: Record)
    requires Groupable(first) && Groupable(second) && KeyOf(source, first) == KeyOf(source, second)
    ensures Lossless([first, second], Merged(first, second), PAIR)
    ensures Grouped(source, Merged(first, second), PAIR)
  {
    var out := Merged(first, second);
    assert At(out, PAIR[0]) == first && At(out, PAIR[1]) == second;
    forall p | IsPlace(out, p) ensures p in PAIR {
      assert p == PAIR[0] || p == PAIR[1];
    }
  }

  /** They are merged, and the second re-expands with the first one's kind. */
  lemma ExpansionAddsKind(source: Resolver)
    requires source(Kinded()) == source(Unkinded())
    ensures Lossless([Kinded(), Unkinded()], Merged(Kinded(), Unkinded()), PAIR)
    ensures Grouped(source, Merged(Kinded(), Unkinded()), PAIR)
    ensures "evidence_kind" !in Unkinded().envelope
    ensures "evidence_kind" in Expanded(Merged(Kinded(), Unkinded()), PAIR[1]).envelope
  {
    assert IsName(Kinded().event, "_cd") && IsRaw(Kinded()) && IsRaw(Unkinded());
    PairMerges(source, Kinded(), Unkinded());
  }

  // ----- Paging -----

  /** The slice of a list that starts at an offset, which may lie beyond its end. */
  function Slice<T>(s: seq<T>, offset: nat, limit: nat): seq<T> {
    if offset >= |s| then [] else if offset + limit >= |s| then s[offset..] else s[offset..offset + limit]
  }

  function NextOffset<T>(s: seq<T>, offset: nat, limit: nat): Option<nat> {
    var next := offset + |Slice(s, offset, limit)|;
    if next < |s| then Some(next) else None
  }

  /** The pages a caller sees that starts at an offset and follows the returned one until there is none. */
  function Pages<T>(s: seq<T>, offset: nat, limit: nat): seq<seq<T>>
    requires limit > 0
    decreases |s| - offset
  {
    var next := NextOffset(s, offset, limit);
    [Slice(s, offset, limit)] + if next.None? then [] else Pages(s, next.value, limit)
  }

  function Flatten<T>(pages: seq<seq<T>>): seq<T> {
    if pages == [] then [] else pages[0] + Flatten(pages[1..])
  }

  /** Following the offsets yields the rest of the list once and in order; from 0, the whole list. */
  lemma {:induction false} PagesCover<T>(s: seq<T>, offset: nat, limit: nat)
    requires limit > 0 && offset <= |s|
    ensures Flatten(Pages(s, offset, limit)) == s[offset..]
    decreases |s| - offset
  {
    var next := NextOffset(s, offset, limit);
    var page := Slice(s, offset, limit);
    if next.Some? {
      PagesCover(s, next.value, limit);
      assert Pages(s, offset, limit)[1..] == Pages(s, next.value, limit);
      assert s[offset..] == page + s[next.value..];
    } else {
      assert Pages(s, offset, limit)[1..] == [];
      assert page == s[offset..];
    }
  }

  /** The pages of the compacted records, from the first offset on, contain every original record. */
  lemma PagedRecordsComplete(records: seq<Record>, out: seq<Group>, place: seq<Place>, limit: nat, i: nat)
    requires limit > 0 && Lossless(records, out, place) && i < |records|
    ensures var shown := Flatten(Pages(out, 0, limit));
            IsPlace(shown, place[i]) && At(shown, place[i]) == records[i]
  {
    PagesCover(out, 0, limit);
    assert out[0..] == out;
  }
}
