/** The round-robin sampler that shares a bounded model context between queries. */
module Sampling {
  import opened Wrappers
  import opened Basics

  /** Evidence identifiers, one list per query in query order. */
  type Groups = seq<seq<string>>

  /** No identifier occurs twice, in one group or in two. */
  ghost predicate AllDistinct(groups: Groups) {
    && (forall q :: 0 <= q < |groups| ==> Distinct(groups[q]))
    && forall a, b, x :: 0 <= a < b < |groups| && x in groups[a] ==> x !in groups[b]
  }

  /** Rounds `0 .. round` are complete and the current one has reached query `cut`. */
  ghost predicate Level(groups: Groups, positions: seq<nat>, round: nat, cut: nat) {
    && |positions| == |groups| && cut <= |groups|
    && (forall q :: 0 <= q < cut ==> positions[q] == Min(round + 1, |groups[q]|))
    && (forall q :: cut <= q < |groups| ==> positions[q] == Min(round, |groups[q]|))
  }

  /** The rows that round `round` takes from the first `cut` queries, in query order. */
  function RoundPart(groups: Groups, round: nat, cut: nat): seq<string>
    requires cut <= |groups|
  {
    if cut == 0 then []
    else
      RoundPart(groups, round, cut - 1)
      + if round < |groups[cut - 1]| then [groups[cut - 1][round]] else []
  }

  /** The first `count` rounds, one after the other. */
  function Rounds(groups: Groups, count: nat): seq<string> {
    if count == 0 then [] else Rounds(groups, count - 1) + RoundPart(groups, count - 1, |groups|)
  }

  /** The rows were drawn in turns: whole rounds in order, then the first queries of the next round. */
  ghost predicate InTurns(groups: Groups, positions: seq<nat>, drawn: seq<string>) {
    exists round: nat, cut: nat ::
      Level(groups, positions, round, cut) && drawn == Rounds(groups, round) + RoundPart(groups, round, cut)
  }

  /** Each query has had its turn: none is more than one row ahead of another that still has rows, and earlier queries
      go first. */
  ghost predicate Fair(groups: Groups, positions: seq<nat>) {
    && |positions| == |groups|
    && (forall a, b :: 0 <= a < |groups| && 0 <= b < |groups| && positions[a] < |groups[a]| ==>
                         positions[b] <= positions[a] + 1)
    && (forall a, b :: 0 <= a < b < |groups| && positions[a] < |groups[a]| ==> positions[b] <= positions[a])
  }

  lemma LevelIsFair(groups: Groups, positions: seq<nat>, round: nat, cut: nat)
    requires Level(groups, positions, round, cut)
    ensures Fair(groups, positions)
  {
  }

  /** `drawn` holds exactly the first `positions[q]` rows of each query. */
  ghost predicate Drawn(groups: Groups, positions: seq<nat>, drawn: seq<string>) {
    && |positions| == |groups|
    && (forall q :: 0 <= q < |groups| ==> positions[q] <= |groups[q]|)
    && (forall q, k :: 0 <= q < |groups| && 0 <= k < positions[q] ==> groups[q][k] in drawn)
    && (forall x :: x in drawn ==> exists q :: 0 <= q < |groups| && x in groups[q][..positions[q]])
    && Distinct(drawn)
  }

  lemma NotDrawnYet(groups: Groups, positions: seq<nat>, drawn: seq<string>, q: nat)
    requires AllDistinct(groups) && Drawn(groups, positions, drawn)
    requires q < |groups| && positions[q] < |groups[q]|
    ensures groups[q][positions[q]] !in drawn
  {
    var x := groups[q][positions[q]];
    assert x in groups[q];
    forall p | 0 <= p < |groups| ensures x !in groups[p][..positions[p]] {
      if p != q {
        assert x !in groups[p];
      }
    }
  }

  /** Drawing the next row of one query. */
  lemma DrawOne(groups: Groups, positions: seq<nat>, drawn: seq<string>, q: nat)
    requires AllDistinct(groups) && Drawn(groups, positions, drawn)
    requires q < |groups| && positions[q] < |groups[q]|
    ensures Drawn(groups, positions[q := positions[q] + 1], drawn + [groups[q][positions[q]]])
  {
    NotDrawnYet(groups, positions, drawn, q);
    var moved, more := positions[q := positions[q] + 1], drawn + [groups[q][positions[q]]];
    forall x | x in more ensures exists p :: 0 <= p < |groups| && x in groups[p][..moved[p]] {
      if x in drawn {
        var p :| 0 <= p < |groups| && x in groups[p][..positions[p]];
        assert groups[p][..positions[p]] <= groups[p][..moved[p]];
      } else {
        assert x == groups[q][..moved[q]][positions[q]];
      }
    }
  }

  /** A state of a phase: `round` whole rounds and the first `cut` queries of the next one are drawn. */
  ghost predicate Turned(groups: Groups, positions: seq<nat>, drawn: seq<string>, round: nat, cut: nat) {
    && Level(groups, positions, round, cut)
    && Drawn(groups, positions, drawn)
    && drawn == Rounds(groups, round) + RoundPart(groups, round, cut)
  }

  lemma PartGrows(groups: Groups, round: nat, cut: nat, drawn: seq<string>)
    requires cut < |groups| && drawn == Rounds(groups, round) + RoundPart(groups, round, cut)
    ensures round >= |groups[cut]| ==> drawn == Rounds(groups, round) + RoundPart(groups, round, cut + 1)
    ensures round < |groups[cut]| ==>
              drawn + [groups[cut][round]] == Rounds(groups, round) + RoundPart(groups, round, cut + 1)
  {
    var next := if round < |groups[cut]| then [groups[cut][round]] else [];
    assert RoundPart(groups, round, cut + 1) == RoundPart(groups, round, cut) + next;
    assert (Rounds(groups, round) + RoundPart(groups, round, cut)) + next ==
           Rounds(groups, round) + (RoundPart(groups, round, cut) + next);
  }

  lemma LevelGrows(groups: Groups, positions: seq<nat>, round: nat, cut: nat)
    requires cut < |groups| && Level(groups, positions, round, cut)
    ensures positions[cut] >= |groups[cut]| ==> Level(groups, positions, round, cut + 1) && round >= |groups[cut]|
    ensures positions[cut] < |groups[cut]| ==>
              Level(groups, positions[cut := positions[cut] + 1], round, cut + 1) && positions[cut] == round
  {
  }

  /** The turn of one query. */
  lemma OneTurn(groups: Groups, positions: seq<nat>, drawn: seq<string>, round: nat, cut: nat)
    requires AllDistinct(groups) && cut < |groups| && Turned(groups, positions, drawn, round, cut)
    ensures positions[cut] >= |groups[cut]| ==> Turned(groups, positions, drawn, round, cut + 1)
    ensures positions[cut] < |groups[cut]| ==>
              var taken := groups[cut][positions[cut]];
              Turned(groups, positions[cut := positions[cut] + 1], drawn + [taken], round, cut + 1)
  {
    PartGrows(groups, round, cut, drawn);
    LevelGrows(groups, positions, round, cut);
    if positions[cut] < |groups[cut]| {
      DrawOne(groups, positions, drawn, cut);
    }
  }

  lemma NextRound(groups: Groups, positions: seq<nat>, drawn: seq<string>, round: nat)
    requires Turned(groups, positions, drawn, round, |groups|)
    ensures Turned(groups, positions, drawn, round + 1, 0)
  {
    assert Rounds(groups, round + 1) + [] == Rounds(groups, round) + RoundPart(groups, round, |groups|);
  }

  /** What a phase draws: a prefix of each query's rows, fairly and in turns. */
  ghost predicate Share(groups: Groups, positions: seq<nat>, drawn: seq<string>) {
    Drawn(groups, positions, drawn) && Fair(groups, positions) && InTurns(groups, positions, drawn)
  }

  /** One round: the next row of each query that has one, until the room is used. */
  method Round(groups: Groups, before: seq<nat>, already: seq<string>, ghost round: nat, room: nat)
    returns (positions: seq<nat>, drawn: seq<string>, added: bool, cut: nat)
    requires AllDistinct(groups) && Turned(groups, before, already, round, 0)
    requires |already| < room
    ensures Turned(groups, positions, drawn, round, cut)
    ensures |already| <= |drawn| <= room
    ensures |drawn| == room || cut == |groups|
    ensures added <==> |already| < |drawn|
    ensures !added ==> positions == before && drawn == already
  {
    positions, drawn, added, cut := before, already, false, 0;
    while cut < |groups|
      invariant cut <= |groups|
      invariant Turned(groups, positions, drawn, round, cut)
      invariant |already| <= |drawn| < room
      invariant added <==> |already| < |drawn|
      invariant !added ==> positions == before && drawn == already
    {
      var q := cut;
      OneTurn(groups, positions, drawn, round, q);
      cut := cut + 1;
      if positions[q] >= |groups[q]| {
        continue;
      }
      drawn := drawn + [groups[q][positions[q]]];
      positions := positions[q := positions[q] + 1];
      added := true;
      if |drawn| >= room {
        break;
      }
    }
  }

  /** A round that takes nothing finds every query drained. */
  lemma Drained(groups: Groups, positions: seq<nat>, drawn: seq<string>, round: nat)
    requires Turned(groups, positions, drawn, round, 0) && Turned(groups, positions, drawn, round, |groups|)
    ensures forall q :: 0 <= q < |groups| ==> positions[q] == |groups[q]|
  {
  }

  lemma TurnedIsShare(groups: Groups, positions: seq<nat>, drawn: seq<string>, round: nat, cut: nat)
    requires Turned(groups, positions, drawn, round, cut)
    ensures Share(groups, positions, drawn)
  {
    LevelIsFair(groups, positions, round, cut);
  }

  lemma TurnedStart(groups: Groups)
    ensures Turned(groups, seq(|groups|, _ => 0), [], 0, 0)
  {
  }

  /** Rounds until the room is used or no query has a row left. */
  method Phase(groups: Groups, room: nat) returns (drawn: seq<string>, positions: seq<nat>)
    requires AllDistinct(groups)
    ensures Share(groups, positions, drawn)
    ensures |drawn| <= room
    ensures |drawn| == room || forall q :: 0 <= q < |groups| ==> positions[q] == |groups[q]|
  {
    positions := seq(|groups|, _ => 0);
    drawn := [];
    ghost var round: nat, cut: nat := 0, 0;
    TurnedStart(groups);
    while |drawn| < room
      invariant |drawn| <= room
      invariant Turned(groups, positions, drawn, round, cut)
      invariant |drawn| < room ==> cut == 0
      decreases room - |drawn|
    {
      var added;
      positions, drawn, added, cut := Round(groups, positions, drawn, round, room);
      if !added {
        Drained(groups, positions, drawn, round);
        break;
      }
      if |drawn| < room {
        NextRound(groups, positions, drawn, round);
        round, cut := round + 1, 0;
      }
    }
    TurnedIsShare(groups, positions, drawn, round, cut);
  }

  // ---- The whole sample ----

  /** The rows of one query that a phase may still draw. */
  function Eligible(rows: seq<string>, selected: set<string>, requested: Option<set<string>>): (r: seq<string>)
    ensures forall x :: x in r <==> x in rows && x !in selected && (requested.Some? ==> x in requested.value)
  {
    if rows == [] then []
    else
      var rest := Eligible(rows[..|rows| - 1], selected, requested);
      var last := rows[|rows| - 1];
      assert rows == rows[..|rows| - 1] + [last];
      if last !in selected && (requested.Some? ==> last in requested.value) then rest + [last] else rest
  }

  /** They keep the order of the query's rows. */
  lemma {:induction false} EligibleInOrder(
    rows: seq<string>, selected: set<string>, requested: Option<set<string>>, i: nat, j: nat)
    requires Distinct(rows) && i < j < |rows|
    requires rows[i] in Eligible(rows, selected, requested) && rows[j] in Eligible(rows, selected, requested)
    ensures exists a, b :: 0 <= a < b < |Eligible(rows, selected, requested)|
                           && Eligible(rows, selected, requested)[a] == rows[i]
                           && Eligible(rows, selected, requested)[b] == rows[j]
  {
    var init := rows[..|rows| - 1];
    var all, rest := Eligible(rows, selected, requested), Eligible(init, selected, requested);
    if j < |rows| - 1 {
      assert rows[i] == init[i] && rows[j] == init[j];
      EligibleInOrder(init, selected, requested, i, j);
      var a, b :| 0 <= a < b < |rest| && rest[a] == rows[i] && rest[b] == rows[j];
      assert all[a] == rows[i] && all[b] == rows[j];
    } else {
      assert rows[i] == init[i] && all == rest + [rows[j]];
      var a :| 0 <= a < |rest| && rest[a] == rows[i];
      assert all[a] == rows[i] && all[|rest|] == rows[j];
    }
  }

  lemma {:induction false} EligibleUnique(rows: seq<string>, selected: set<string>, requested: Option<set<string>>)
    requires Distinct(rows)
    ensures Distinct(Eligible(rows, selected, requested))
  {
    if rows != [] {
      EligibleUnique(rows[..|rows| - 1], selected, requested);
      assert rows[|rows| - 1] !in rows[..|rows| - 1];
    }
  }

  function EligibleGroups(groups: Groups, selected: set<string>, requested: Option<set<string>>): (r: Groups)
    ensures |r| == |groups| && forall q :: 0 <= q < |r| ==> r[q] == Eligible(groups[q], selected, requested)
  {
    seq(|groups|, q requires 0 <= q < |groups| => Eligible(groups[q], selected, requested))
  }

  lemma EligibleDistinct(groups: Groups, selected: set<string>, requested: Option<set<string>>)
    requires AllDistinct(groups)
    ensures AllDistinct(EligibleGroups(groups, selected, requested))
  {
    forall q | 0 <= q < |groups| ensures Distinct(Eligible(groups[q], selected, requested)) {
      EligibleUnique(groups[q], selected, requested);
    }
  }

  ghost predicate Retained(groups: Groups, x: string) {
    exists q :: 0 <= q < |groups| && x in groups[q]
  }

  /** A sample of retained rows, each once, within the limit, `selected` its members. */
  ghost predicate IsSample(groups: Groups, limit: nat, sampled: seq<string>, selected: set<string>) {
    && |sampled| <= limit
    && Distinct(sampled)
    && (forall x :: x in sampled <==> x in selected)
    && (forall x :: x in sampled ==> Retained(groups, x))
  }

  /** Every retained row that the request names is in the sample, or the sample is full. */
  ghost predicate Served(groups: Groups, limit: nat, sampled: seq<string>, requested: Option<set<string>>) {
    |sampled| == limit || forall x :: Retained(groups, x) && (requested.Some? ==> x in requested.value) ==> x in sampled
  }

  function Members(s: seq<string>): set<string> {
    set x | x in s
  }

  lemma UniqueConcat(a: seq<string>, b: seq<string>)
    requires Distinct(a) && Distinct(b)
    requires forall x :: x in b ==> x !in a
    ensures Distinct(a + b)
  {
    forall i, j | 0 <= i < j < |a + b| ensures (a + b)[i] != (a + b)[j] {
      if i < |a| <= j {
        assert (a + b)[j] in b;
      }
    }
  }

  lemma SampleGrows(groups: Groups, limit: nat, sampled: seq<string>, selected: set<string>, drawn: seq<string>)
    requires IsSample(groups, limit, sampled, selected)
    requires forall x :: x in drawn ==> Retained(groups, x) && x !in selected
    requires Distinct(drawn) && |drawn| <= limit - |sampled|
    ensures IsSample(groups, limit, sampled + drawn, selected + Members(drawn))
  {
    UniqueConcat(sampled, drawn);
  }

  lemma DrainedServes(
    groups: Groups, limit: nat, sampled: seq<string>, selected: set<string>, requested: Option<set<string>>,
    drawn: seq<string>, positions: seq<nat>)
    requires IsSample(groups, limit, sampled, selected)
    requires Drawn(EligibleGroups(groups, selected, requested), positions, drawn)
    requires forall q :: 0 <= q < |groups| ==> positions[q] == |EligibleGroups(groups, selected, requested)[q]|
    ensures Served(groups, limit, sampled + drawn, requested)
  {
    var eligible := EligibleGroups(groups, selected, requested);
    forall x | Retained(groups, x) && (requested.Some? ==> x in requested.value) ensures x in sampled + drawn {
      var q :| 0 <= q < |groups| && x in groups[q];
      if x !in selected {
        assert x in eligible[q];
      }
    }
  }

  /** One phase: the rows that the request names and that are not yet selected, shared between the queries. */
  method Draw(groups: Groups, limit: nat, sampled0: seq<string>, selected0: set<string>, requested: Option<set<string>>)
    returns (sampled: seq<string>, selected: set<string>, counts: seq<nat>)
    requires AllDistinct(groups) && IsSample(groups, limit, sampled0, selected0)
    ensures IsSample(groups, limit, sampled, selected) && sampled0 <= sampled
    ensures Served(groups, limit, sampled, requested)
    ensures Share(EligibleGroups(groups, selected0, requested), counts, sampled[|sampled0|..])
  {
    EligibleDistinct(groups, selected0, requested);
    var drawn;
    drawn, counts := Phase(EligibleGroups(groups, selected0, requested), limit - |sampled0|);
    sampled, selected := sampled0 + drawn, selected0 + Members(drawn);
    SampleGrows(groups, limit, sampled0, selected0, drawn);
    if |sampled| < limit {
      DrainedServes(groups, limit, sampled0, selected0, requested, drawn, counts);
    }
    assert sampled[|sampled0|..] == drawn;
  }

  // ---- Phases ----

  /** What phase `k` may draw: the rows of request `k`, and after the last request any row. */
  function RequestOf(requests: seq<set<string>>, k: nat): Option<set<string>> {
    if k < |requests| then Some(requests[k]) else None
  }

  /** One phase took the sample from its first `low` to its first `high` rows: a fair share of what was eligible. */
  ghost predicate IsPhase(
    groups: Groups, requested: Option<set<string>>, sampled: seq<string>, low: nat, high: nat, counts: seq<nat>)
  {
    && low <= high <= |sampled|
    && Share(EligibleGroups(groups, Members(sampled[..low]), requested), counts, sampled[low..high])
  }

  /** The sample was made by the phases that `cuts` delimits, each drawing `counts` rows per query. */
  ghost predicate ByPhases(
    groups: Groups, requests: seq<set<string>>, sampled: seq<string>, cuts: seq<nat>, counts: seq<seq<nat>>)
  {
    && |cuts| == |counts| + 1
    && cuts[0] == 0 && cuts[|counts|] == |sampled|
    && forall k :: 0 <= k < |counts| ==>
                     IsPhase(groups, RequestOf(requests, k), sampled, cuts[k], cuts[k + 1], counts[k])
  }

  /** Every row of the sample belongs to a request with index at most `k`. */
  ghost predicate OnlyFrom(requests: seq<set<string>>, k: nat, sampled: seq<string>) {
    forall y :: y in sampled ==> exists j :: 0 <= j <= k && j < |requests| && y in requests[j]
  }

  /** If a retained row of request `k` is left out, nothing of a later request or of no request was taken. */
  ghost predicate InPriority(groups: Groups, requests: seq<set<string>>, k: nat, sampled: seq<string>)
    requires k < |requests|
  {
    (exists x :: Retained(groups, x) && x in requests[k] && x !in sampled) ==> OnlyFrom(requests, k, sampled)
  }

  lemma PhaseStays(
    groups: Groups, requested: Option<set<string>>, sampled: seq<string>, more: seq<string>, low: nat, high: nat,
    counts: seq<nat>)
    requires IsPhase(groups, requested, sampled, low, high, counts) && sampled <= more
    ensures IsPhase(groups, requested, more, low, high, counts)
  {
    assert more[..low] == sampled[..low] && more[low..high] == sampled[low..high];
  }

  lemma PhasesGrow(
    groups: Groups, requests: seq<set<string>>, sampled: seq<string>, cuts: seq<nat>, counts: seq<seq<nat>>,
    more: seq<string>, drew: seq<nat>)
    requires ByPhases(groups, requests, sampled, cuts, counts) && sampled <= more
    requires IsPhase(groups, RequestOf(requests, |counts|), more, |sampled|, |more|, drew)
    ensures ByPhases(groups, requests, more, cuts + [|more|], counts + [drew])
  {
    var cuts', counts' := cuts + [|more|], counts + [drew];
    forall k | 0 <= k < |counts'|
      ensures IsPhase(groups, RequestOf(requests, k), more, cuts'[k], cuts'[k + 1], counts'[k])
    {
      if k < |counts| {
        PhaseStays(groups, RequestOf(requests, k), sampled, more, cuts[k], cuts[k + 1], counts[k]);
      }
    }
  }

  lemma PriorityStays(
    groups: Groups, requests: seq<set<string>>, k: nat, limit: nat, sampled: seq<string>, more: seq<string>)
    requires k < |requests| && Served(groups, limit, sampled, Some(requests[k]))
    requires InPriority(groups, requests, k, sampled)
    requires sampled <= more && |more| <= limit
    ensures InPriority(groups, requests, k, more)
  {
    if |sampled| == limit {
      assert more == sampled;
    } else {
      assert forall x :: Retained(groups, x) && x in requests[k] ==> x in more;
    }
  }

  lemma DrawnIsRequested(groups: Groups, requests: seq<set<string>>, k: nat, sampled: seq<string>, more: seq<string>,
                         selected: set<string>, counts: seq<nat>)
    requires k < |requests| && sampled <= more
    requires k == 0 ==> sampled == []
    requires k > 0 ==> OnlyFrom(requests, k - 1, sampled)
    requires Drawn(EligibleGroups(groups, selected, Some(requests[k])), counts, more[|sampled|..])
    ensures OnlyFrom(requests, k, more)
  {
    var eligible := EligibleGroups(groups, selected, Some(requests[k]));
    forall y | y in more ensures exists j :: 0 <= j <= k && j < |requests| && y in requests[j] {
      if y in sampled {
        var j :| 0 <= j <= k - 1 && j < |requests| && y in requests[j];
      } else {
        assert more == sampled + more[|sampled|..];
        var q :| 0 <= q < |eligible| && y in eligible[q][..counts[q]];
        assert y in eligible[q];
      }
    }
  }

  lemma PhaseMade(
    groups: Groups, requested: Option<set<string>>, sampled0: seq<string>, selected0: set<string>, sampled: seq<string>,
    drew: seq<nat>)
    requires sampled0 <= sampled && forall x :: x in sampled0 <==> x in selected0
    requires Share(EligibleGroups(groups, selected0, requested), drew, sampled[|sampled0|..])
    ensures IsPhase(groups, requested, sampled, |sampled0|, |sampled|, drew)
  {
    assert selected0 == Members(sampled0) && sampled[..|sampled0|] == sampled0;
    assert sampled[|sampled0|..|sampled|] == sampled[|sampled0|..];
  }

  /** One more phase of the loop. */
  method NextPhase(
    groups: Groups, requests: seq<set<string>>, limit: nat, sampled0: seq<string>, selected0: set<string>, k: nat,
    ghost cuts0: seq<nat>, ghost counts0: seq<seq<nat>>)
    returns (sampled: seq<string>, selected: set<string>, ghost cuts: seq<nat>, ghost counts: seq<seq<nat>>)
    requires AllDistinct(groups) && IsSample(groups, limit, sampled0, selected0)
    requires ByPhases(groups, requests, sampled0, cuts0, counts0) && |counts0| == k
    ensures IsSample(groups, limit, sampled, selected) && sampled0 <= sampled
    ensures Served(groups, limit, sampled, RequestOf(requests, k))
    ensures ByPhases(groups, requests, sampled, cuts, counts) && |counts| == k + 1
    ensures Drawn(EligibleGroups(groups, selected0, RequestOf(requests, k)), counts[k], sampled[|sampled0|..])
  {
    var drew;
    sampled, selected, drew := Draw(groups, limit, sampled0, selected0, RequestOf(requests, k));
    PhaseMade(groups, RequestOf(requests, k), sampled0, selected0, sampled, drew);
    PhasesGrow(groups, requests, sampled0, cuts0, counts0, sampled, drew);
    cuts, counts := cuts0 + [|sampled|], counts0 + [drew];
  }

  /** After the first `i` requests: only their rows are taken, each is served and none was overtaken. */
  ghost predicate Progress(groups: Groups, requests: seq<set<string>>, limit: nat, i: nat, sampled: seq<string>)
    requires i <= |requests|
  {
    && (if i == 0 then sampled == [] else OnlyFrom(requests, i - 1, sampled))
    && Settled(groups, requests, limit, i, sampled)
  }

  ghost predicate Settled(groups: Groups, requests: seq<set<string>>, limit: nat, i: nat, sampled: seq<string>)
    requires i <= |requests|
  {
    forall k :: 0 <= k < i ==>
                  Served(groups, limit, sampled, Some(requests[k])) && InPriority(groups, requests, k, sampled)
  }

  /** What was served and in priority stays so. */
  lemma SettledStays(
    groups: Groups, requests: seq<set<string>>, limit: nat, i: nat, sampled: seq<string>, more: seq<string>)
    requires i <= |requests| && sampled <= more && |more| <= limit
    requires Settled(groups, requests, limit, i, sampled)
    ensures Settled(groups, requests, limit, i, more)
  {
    forall k | 0 <= k < i
      ensures Served(groups, limit, more, Some(requests[k])) && InPriority(groups, requests, k, more)
    {
      PriorityStays(groups, requests, k, limit, sampled, more);
    }
  }

  lemma ProgressGrows(
    groups: Groups, requests: seq<set<string>>, limit: nat, i: nat, sampled: seq<string>, more: seq<string>,
    selected: set<string>, counts: seq<nat>)
    requires i < |requests| && sampled <= more && |more| <= limit
    requires Progress(groups, requests, limit, i, sampled)
    requires Served(groups, limit, more, Some(requests[i]))
    requires Drawn(EligibleGroups(groups, selected, Some(requests[i])), counts, more[|sampled|..])
    ensures Progress(groups, requests, limit, i + 1, more)
  {
    DrawnIsRequested(groups, requests, i, sampled, more, selected, counts);
    SettledStays(groups, requests, limit, i, sampled, more);
  }

  /** The requested pages first, newest first, then whatever every query has left. */
  method BalancedSample(groups: Groups, requests: seq<set<string>>, limit: nat)
    returns (sampled: seq<string>, ghost cuts: seq<nat>, ghost counts: seq<seq<nat>>)
    requires 0 < limit && AllDistinct(groups)
    ensures |sampled| <= limit && Distinct(sampled)
    ensures forall x :: x in sampled ==> Retained(groups, x)
    ensures |sampled| == limit || forall x :: Retained(groups, x) ==> x in sampled
    ensures forall k :: 0 <= k < |requests| ==> InPriority(groups, requests, k, sampled)
    ensures ByPhases(groups, requests, sampled, cuts, counts) && |counts| == |requests| + 1
  {
    sampled, cuts, counts := [], [0], [];
    var selected: set<string> := {};
    for i := 0 to |requests|
      invariant IsSample(groups, limit, sampled, selected)
      invariant ByPhases(groups, requests, sampled, cuts, counts) && |counts| == i
      invariant Progress(groups, requests, limit, i, sampled)
    {
      ghost var before, chosen := sampled, selected;
      sampled, selected, cuts, counts := NextPhase(groups, requests, limit, sampled, selected, i, cuts, counts);
      ProgressGrows(groups, requests, limit, i, before, sampled, chosen, counts[i]);
    }
    ghost var before := sampled;
    sampled, selected, cuts, counts := NextPhase(groups, requests, limit, sampled, selected, |requests|, cuts, counts);
    SettledStays(groups, requests, limit, |requests|, before, sampled);
  }
}
