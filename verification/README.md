# A verified model of the threat-hunting core

This project models the parts of the threat-hunting service whose correctness spans many steps, and proves in
Dafny what they keep. `dafny verify dfyconfig.toml` checks all of it.

The service lets a model propose SPL searches. A deterministic policy decides what each search may read, a durable
queue hands hunts to workers, searches are submitted through an idempotent ledger and fetched within byte and row
budgets, the retained evidence is indexed, compacted, sampled and labelled for the model, and old hunts are erased
by a restartable cleanup. The files follow that structure:

| files | what they model |
|---|---|
| `SourceScope`, `SourceAcceptance`, `SourceParser`, `SourcePairs` | the search-expression parser that computes (index, sourcetype) alternatives, against a syntax tree, its token yield and an evaluator in which every other filter is decided by an arbitrary oracle, and exactly which expressions it accepts |
| `QueryPolicy` | the allow/reject decision |
| `Arguments`, `Renames`, `Wildcards`, `Provenance`, `ProvenanceAcceptance` | command arguments as written, the normaliser's reading of them and the commands' own, wildcard renames, and what each command does to a row |
| `Attribution`, `HiddenNames`, `Misattribution` | the source of a result row, the names that escape the normaliser, and the searches in which that changes a row's source |
| `JobQueue`, `JobService` | the queue as a step relation over whole runs, and the service object whose methods are exactly those steps |
| `McpSubmit`, `McpConnector` | the submit protocol as interleaved invocations that may stop or fail between any two steps, and the connector object that takes those steps |
| `TimeOrder`, `TimeSpread`, `Sampling` | evidence spread over time by breadth-first bisection, and the round-robin sampler |
| `LeadIndex`, `Compaction`, `JsonTree` | the shape index and bisection against a naive scan, lossless compaction, paging |
| `Budgets`, `Retrieval`, `QueryExecutor` | the usage ledger, the paging loop with exact byte accounting, the query executor |
| `ContextFit`, `ModelRunner` | the search for the largest context that fits, the bounded call and repair |
| `Labels`, `LabelContext`, `Findings`, `Decimals` | request-local labels, their round trip, and the queries derived for findings |
| `CleanupState`, `Retention` | the cursor protocol under a failure or crash at any operation |
| `Wrappers`, `Basics` | optional values, and small facts that several modules use |

Objects that the program updates in place are classes here (`Parser`, `Service`, `Connector`, `Counters`,
`Executor`, `Runner`, `Cleaner`). Where a property is about whole runs, the object carries a ghost history that its
methods extend, so the theorems about runs apply to the object.

## Assumptions

- Each database transaction is atomic; in `McpSubmit` and `Retention` it may also fail after its effect is durable.
- SHA-256 and UUIDv5 are opaque: digests, request identifiers and derived job identifiers are plain values.
- Evidence identifiers are distinct.
- The result server is honest: page `p` of size `k` is rows `p*k` up to `(p+1)*k`. A reported total need not be
  true for the prefix and byte claims, and is named where it must be.
- The MCP provider names one job per request; only the agreement on job identifiers uses this.
- During the cleanup of a hunt nobody else writes that hunt's rows.

## What the code does that its own wording does not say

- The normaliser looks for source fields among the words of the text, while the commands read tokens, and the two
  readings differ. In `rename user AS index, host AS h` it reads the name `index,` and accepts the command, which
  overwrites `index`; in `rename x AS y,index AS z` it does not see `index`, which is moved away; in
  `table "user index"` it takes `index` for selected and does not add it, so that the projection drops it. Every command
  of an accepted raw pipeline keeps a source field on every row if and only if none hides it in one of these ways
  (`Provenance.ProvenanceExactly`). Assignments never do (`Provenance.AssignmentsHideNothing`), nor do renames whose
  tokens are all set apart and projections of unquoted names (`Provenance.SpacedRenameHidesNothing`,
  `Provenance.PlainListHidesNothing`).
- What becomes of the attribution depends on how the field is hidden. With an overwritten `index` a row is attributed to
  another index of the search (`Misattribution.CommaSearchMisattributes`), and in general to whatever pair of the search it
  then shows (`Attribution.ReplacedFieldAttribution`). With an `index` taken away it is attributed
  right exactly when no other pair of the search has its sourcetype, and is unknown otherwise
  (`Attribution.LostFieldAttribution`, `Misattribution.GluedSearchLosesSource`,
  `Misattribution.QuotedSearchLosesSource`).
- A fault-free retrieval with a true known total reports `incomplete_page`, although every page was complete, exactly
  when the row limit falls inside the final short page and the adapter lets the pages up to it through
  (`Retrieval.IncompleteExactly`, a clause of `Retrieval.Retrieve`; for a limit of 700 and 900 rows
  `Retrieval.CompletePageCalledIncomplete`).
- When a page does not fit the remaining bytes the adapter drops it whole, so the byte limit cuts between pages, or
  one row before the end of a page for want of one comma, and not at the longest prefix that fits
  (`Retrieval.WholePages`, `Retrieval.OnlyLastRowFails`).
- "Negative findings require complete query results" is checked on the query labels as given; when the finding also
  cites evidence, the derived queries replace them afterwards. `Findings.NegativeIsCompleteExactly` gives the exact
  condition and `Findings.NegativeOverIncompleteResults` an accepted finding that cites an incomplete query.
- `require_lease` without a generation does not fence a superseded lease of the worker that claimed the job again
  (`JobQueue.UnfencedRequirement`; a run in which this happens: `JobQueue.OldLeasePassesUnfenced`).
- Re-expanding a merged record overlays its envelope on that of the first record of its group. Every field it had
  comes back, but apart from `duplicate_references` it equals the original exactly when the first record has no
  envelope field that it lacks (`Compaction.ExpansionRecovers`; two such records: `Compaction.ExpansionAddsKind`).
- "Unknown sources can be grouped only within the same query" holds unless an index is called `query`: then a
  sourcetype spelled like a query's identifier is taken for that query's unknown source (`Compaction.GroupsExactly`
  has the exact condition, `Compaction.QueryIndexIsShared` two such records).

## Model

| member | source | states |
|---|---|---|
| `SourceScope.AnalysisSound` | src/threat_hunting/domain/spl_policy.py:154-207 | if an event satisfies an expression under some verdict on the other filters, some computed branch matches its index and sourcetype |
| `SourceScope.ScopeFreeIsFree` | src/threat_hunting/domain/spl_policy.py:160-165 | an expression without source predicates can be made true and made false for every event, which is what lets NOT return the unbounded branch |
| `SourceScope.AnalysisExact` | src/threat_hunting/domain/spl_policy.py:154-207 | every event that a computed branch matches satisfies the expression under some verdict on the other filters |
| `SourceScope.ParserAgrees` | src/threat_hunting/domain/spl_policy.py:135-212 | on the tokens of any well-levelled tree the parser returns exactly the analysis of that tree, rejections included |
| `SourceScope.AcceptedHasTree` | src/threat_hunting/domain/spl_policy.py:135-212 | every accepted token sequence is the yield of a tree in which OR binds tighter than AND |
| `SourceScope.BranchesAreExact` | src/threat_hunting/domain/spl_policy.py:135-212 | for an accepted expression, an event can match it if and only if some returned branch matches the event; no branch means no event |
| `SourceAcceptance.AcceptedExactly` | src/threat_hunting/domain/spl_policy.py:135-212 | an expression is accepted if and only if it has at most 2000 tokens, at most 32 negations and parentheses on a path, no source predicate under a negation and never more than 128 alternatives; its branches are then its alternatives |
| `SourceAcceptance.NarrowIsAccepted` | src/threat_hunting/domain/spl_policy.py:135-212 | by counts alone: a sum over OR and a product over AND of at most 128 is enough for the last condition |
| `SourceParser.MeetBranches` | src/threat_hunting/domain/spl_policy.py:196-206 | the nested loops compute exactly the compatible combinations, or reject beyond 128 |
| `SourceParser.Parser.Atom` | src/threat_hunting/domain/spl_policy.py:154-178 | the method that advances the shared position agrees with the reference parser in result and position |
| `SourceParser.Parser.Disjunction` | src/threat_hunting/domain/spl_policy.py:180-188 | the OR loop agrees with the reference parser |
| `SourceParser.Parser.Conjunction` | src/threat_hunting/domain/spl_policy.py:190-207 | the AND loop, with implicit AND, agrees with the reference parser |
| `SourceParser.ParseBranches` | src/threat_hunting/domain/spl_policy.py:209-212 | the imperative parser returns the branches of the reference one, and rejects leftovers |
| `SourcePairs.PairsAreExact` | src/threat_hunting/domain/spl_policy.py:215-223 | the returned pairs are exactly the (index, sourcetype) pairs of events that can match, never a cross-product |
| `SourcePairs.PairsAreScopeValues` | src/threat_hunting/domain/spl_policy.py:115-132 | every returned pair is made of values that the scope extractor finds in the text |
| `SourcePairs.PairsExactly` | src/threat_hunting/domain/spl_policy.py:215-223 | an expression has pairs if and only if it is accepted, its scope is valid and it has alternatives that all bound both components; the pairs are those alternatives |
| `SourcePairs.InvalidExactly` | src/threat_hunting/domain/spl_policy.py:115-132 | a field makes the scope invalid if and only if a token mentions it in another form than an exact predicate, or a NOT followed by opening parentheses only stands before a predicate on it |
| `SourcePairs.ValuesExactly` | src/threat_hunting/domain/spl_policy.py:115-132 | a value counts as written if and only if a predicate states it or another token mentions it exactly |
| `Wildcards.JoinSplit` | src/threat_hunting/domain/spl_policy.py:266-271 | joining the parts of a split pattern gives the pattern back |
| `Wildcards.Reconstructs` | src/threat_hunting/domain/spl_policy.py:267-278 | filling the pattern with the captures of a matched name gives the name back |
| `Wildcards.RenamedMatchesTarget` | src/threat_hunting/domain/spl_policy.py:278-279 | a renamed name matches the target pattern |
| `Wildcards.CaptureStep` | src/threat_hunting/domain/spl_policy.py:270-277 | for a matched name every step finds its split, at the literal part, and leaves a rest that can be split |
| `Wildcards.FindEnd` | src/threat_hunting/domain/spl_policy.py:274-275 | the backward scan finds the last end at which the rest of the pattern matches |
| `Wildcards.Aliases` | src/threat_hunting/domain/spl_policy.py:261-279 | the matched set is exactly the names the source pattern matches, the renamed set exactly their renamings; unequal or more than 32 stars are rejected |
| `Arguments.NameIsPlain` | src/threat_hunting/domain/spl_policy.py:235-240 | a name without marks is written as it is or between two equal quotation marks |
| `Renames.AsExactly` | src/threat_hunting/domain/spl_policy.py:107-108 | `as` is taken in any mixture of cases |
| `Renames.SpacedIsSeen` | src/threat_hunting/domain/spl_policy.py:107-108 | on arguments whose tokens are all set apart and unquoted the pattern finds exactly the pairs that the rename grammar reads |
| `Renames.CommaRenameSeen` | src/threat_hunting/domain/spl_policy.py:107-108 | in `a AS b, c AS d` the pattern finds the name `b,` |
| `Renames.GluedRenameSeen` | src/threat_hunting/domain/spl_policy.py:107-108 | in `a AS b,c AS d` the pattern finds one name `b,c` and not the second pair |
| `Renames.CommaRenameSpelled` | src/threat_hunting/domain/spl_policy.py:340-355 | the rename grammar reads the pairs (a, b) and (c, d) from both |
| `Provenance.PreserveRawSourceFields` | src/threat_hunting/domain/spl_policy.py:92-112 | either every raw segment is kept, with the source fields that are no words of a projection added to it, or the normaliser finds a segment that modifies one of them |
| `Provenance.KeepsExactly` | src/threat_hunting/domain/spl_policy.py:92-112 | a command keeps a field on every row if and only if its own reading of the arguments neither removes, nor overwrites, nor moves it |
| `Provenance.NormalisedAlters` | src/threat_hunting/domain/spl_policy.py:102-104 | what a normalised command alters, in terms of the words and tokens it was given |
| `Provenance.ProvenanceExactly` | src/threat_hunting/domain/spl_policy.py:92-112 | every command of an accepted raw pipeline keeps a source field on every row if and only if none hides it: a projection of which it is a word and no name, a removed name that is no word, or a rename that moves it unseen |
| `Provenance.ProvenanceSurvives` | src/threat_hunting/domain/spl_policy.py:92-112 | a source field that no command hides is the same in every form of a row along the pipeline |
| `Provenance.AssignmentsHideNothing` | src/threat_hunting/domain/spl_policy.py:105-106 | the pattern finds every assignment to a source field, quoted or not |
| `Provenance.SpacedRenameHidesNothing` | src/threat_hunting/domain/spl_policy.py:107-109 | an accepted rename whose tokens are all set apart and unquoted, with no field called `as`, hides nothing |
| `Provenance.PlainListHidesNothing` | src/threat_hunting/domain/spl_policy.py:102-104 | a projection of names written without marks, each set apart, hides nothing |
| `ProvenanceAcceptance.ProjectionIsAccepted` | src/threat_hunting/domain/spl_policy.py:92-104 | a projection is never rejected |
| `ProvenanceAcceptance.ProjectionGets` | src/threat_hunting/domain/spl_policy.py:98-104 | it gets each of `index`, `sourcetype`, `_time` and `_cd` that is none of its words, set apart, and nothing else |
| `ProvenanceAcceptance.SpacedRenameExactly` | src/threat_hunting/domain/spl_policy.py:107-111 | a spaced unquoted rename is rejected if and only if one of its pairs names a source field on either side |
| `ProvenanceAcceptance.PlainDropExactly` | src/threat_hunting/domain/spl_policy.py:98-111 | `fields -` of a plain list is rejected if and only if a listed pattern takes in a source field |
| `ProvenanceAcceptance.SingleAssignmentExactly` | src/threat_hunting/domain/spl_policy.py:105-111 | `eval name = ...` with one assignment is rejected if and only if `name` is a source field |
| `HiddenNames.CommaHides` | src/threat_hunting/domain/spl_policy.py:107-111 | `rename a AS f, c AS d` is accepted for every source field `f`, and hides it |
| `HiddenNames.GluedHides` | src/threat_hunting/domain/spl_policy.py:107-111 | `rename a AS b,f AS d` is accepted for every source field `f`, and takes it from every row |
| `HiddenNames.QuotedTableHides` | src/threat_hunting/domain/spl_policy.py:98-104 | `table "w f"` is accepted for every source field `f`, and hides it and no other |
| `HiddenNames.QuotedAssignmentAccepted` | src/threat_hunting/domain/spl_policy.py:105-109 | `eval 'w f'=v` is accepted for every word `w` that is no source field and has no `=`, and every `v` without a comma |
| `Attribution.ConsistentExactly` | src/threat_hunting/services/evidence.py:74-86 | a projected text must be the value, a list must repeat it at least once, any other shape rules it out, and an absent field rules out nothing |
| `Attribution.ResultSource` | src/threat_hunting/services/evidence.py:74-86 | a row's source is the only pair consistent with its fields, or unknown |
| `Attribution.AttributionSound` | src/threat_hunting/services/evidence.py:74-86 | a row with absent, equal or repeated source fields of its event is attributed to that event's pair or to nothing |
| `Attribution.RawAttributionComplete` | src/threat_hunting/services/evidence.py:74-86 | in an accepted raw search that hides neither field every native row is attributed to exactly its event's pair |
| `Attribution.LostFieldAttribution` | src/threat_hunting/services/evidence.py:74-86 | when index or sourcetype is taken away and the other is not hidden, every native row is attributed right if and only if no other pair of the search agrees with it in the other field, and is unknown otherwise |
| `Attribution.ReplacedFieldAttribution` | src/threat_hunting/services/evidence.py:74-86 | when a rename overwrites index or sourcetype by another field of the row, every native row of any search is attributed to the pair it then shows if the search has it, and is unknown otherwise; it is attributed right if and only if the arriving value is its own |
| `Misattribution.CommaSearchMisattributes` | src/threat_hunting/domain/spl_policy.py:92-112 | `index=a OR index=b sourcetype=s` with `rename user AS index, host AS h` behind it is accepted, and every row of an event in `a` whose `user` is `b` is attributed to `b` |
| `Misattribution.GluedSearchLosesSource` | src/threat_hunting/domain/spl_policy.py:92-112 | with `rename x AS y,index AS z` the source of every row is unknown unless there is only one index |
| `Misattribution.QuotedSearchLosesSource` | src/threat_hunting/domain/spl_policy.py:92-112 | with `eval 'user index'=host` and `table "user index"` the source of every row is unknown unless there is only one index |
| `Misattribution.CommaExample` | src/threat_hunting/domain/spl_policy.py:92-112 | for `rename user AS index, host AS h` there is such a row |
| `Misattribution.GluedSearchFlow` | src/threat_hunting/domain/spl_policy.py:92-112 | for `rename x AS y,index AS z` there is such a row |
| `Misattribution.QuotedExample` | src/threat_hunting/domain/spl_policy.py:92-112 | for `eval 'user index'=host` and `table "user index"` there is a row that loses its index |
| `QueryPolicy.Validate` | src/threat_hunting/domain/spl_policy.py:462-541 | the reasons are exactly those that apply; an allowed proposal has a normalised form; the enforced limit is the smaller of the two bounds |
| `QueryPolicy.AllowedIsInScope` | src/threat_hunting/domain/spl_policy.py:480-513 | every event that the submitted search of an allowed proposal can match lies in an approved and discovered index and sourcetype, and the window in the approved one |
| `QueryPolicy.PermittedExactly` | src/threat_hunting/domain/spl_policy.py:462-541 | on the fields of proposal and policy: no reason applies if and only if the pipeline parses and modifies no source, no field fault, inline time or closed question, the search has definite pairs, the declared names are those written in it, approved and discovered, and window, fields and row limit are within the policy |
| `JobQueue.ReachableInvariant` | src/threat_hunting/services/jobs.py:91-123 | in every reachable table a job is claimed exactly when it has a worker and an expiry, a cancel request implies cancelled, keys are unique, and distinct claimed hunts per scope stay within the limit |
| `JobQueue.RunAdvances` | src/threat_hunting/services/jobs.py:150-175 | jobs are never deleted, generations never decrease and a terminal row never changes |
| `JobQueue.GenerationsIncrease` | src/threat_hunting/services/jobs.py:102-123 | no two issued leases share job and generation; later leases have later generations |
| `JobQueue.FencedForever` | src/threat_hunting/services/jobs.py:125-157 | after a re-claim every older lease is rejected in every later state, whoever holds it |
| `JobQueue.OneLiveLease` | src/threat_hunting/services/jobs.py:125-157 | at most one issued lease of a job passes the guard in any state |
| `JobQueue.LeaseLivesExactly` | src/threat_hunting/services/jobs.py:102-175 | in every run a lease holds if and only if its last expiry has not come and since its claim there was no completion of its job, no cancellation of its hunt by its owner and no recovery at or after its expiry |
| `JobQueue.CompletedOnce` | src/threat_hunting/services/jobs.py:150-157 | a job is completed at most once and never claimed, renewed or completed after that |
| `JobQueue.UnfencedRequirement` | src/threat_hunting/services/jobs.py:125-139 | without a generation a superseded lease passes exactly when its worker holds the current claim |
| `JobQueue.OldLeasePassesUnfenced` | src/threat_hunting/services/jobs.py:125-139 | a run of enqueue, claim, recovery and re-claim by one worker after which its old lease passes without a generation and fails with it |
| `JobService.Service.EnqueueJob` | src/threat_hunting/services/jobs.py:91-100 | under a key that no row has, a new queued row with exactly the given fields; a used key returns the stored row and changes nothing |
| `JobService.Service.OldestQueued` | src/threat_hunting/services/jobs.py:102-118 | the oldest claimable row of the scope, or none |
| `JobService.Service.ClaimNext` | src/threat_hunting/services/jobs.py:102-123 | no lease if and only if as many hunts as allowed are claimed in the scope or it has no queued uncancelled row; otherwise the oldest such row is claimed, with its fields, the next generation and the lease spelled out |
| `JobService.Service.RequireLease` | src/threat_hunting/services/jobs.py:125-139 | accepts exactly the live claims of that worker, scope and generation |
| `JobService.Service.Beat` | src/threat_hunting/services/jobs.py:141-148 | a lease whose row is claimed by its worker, uncancelled, of its generation and scope and not yet expired is renewed by the lease time, and any other is refused unchanged |
| `JobService.Service.Finish` | src/threat_hunting/services/jobs.py:150-157 | under the same condition and with a terminal status the row ends and lets go of its worker, and any other call is refused unchanged |
| `JobService.Service.RequestCancel` | src/threat_hunting/services/jobs.py:165-169 | exactly the queued and claimed rows of that owner and hunt are cancelled, and they are counted; nothing else moves |
| `JobService.Service.RecoverExpired` | src/threat_hunting/services/jobs.py:171-175 | exactly the claimed uncancelled rows whose expiry is not after now are queued again, and they are counted; every lease that holds now still holds |
| `McpSubmit.ReachableSafe` | src/threat_hunting/integrations/mcp.py:754-799 | in every reachable state submitters own their ledger row, a slot has one reserving invocation, and its call is unsent until it sends |
| `McpSubmit.SubmittedAtMostOnce` | src/threat_hunting/integrations/mcp.py:754-799 | for any number of invocations and any crash or error point the provider gets at most one submit per subject and key |
| `McpSubmit.OneDigestPerKey` | src/threat_hunting/integrations/mcp.py:634-656 | whatever is submitted or answered under a key has the digest that reserved it |
| `McpSubmit.JobsAgree` | src/threat_hunting/integrations/mcp.py:687-703 | given one job per request, all invocations that return under a key return one job, and the ledger stores it |
| `McpSubmit.ReturnedStays` | src/threat_hunting/integrations/mcp.py:705-799 | an answer once returned is never revised |
| `McpSubmit.InsertExactly` | src/threat_hunting/integrations/mcp.py:754-775 | an invocation that found no row can insert its own if and only if no row has its subject and key and none its request id; the row is reserved, without a job, and nothing else changes |
| `McpSubmit.ReadExactly` | src/threat_hunting/integrations/mcp.py:634-656 | the first read goes on to insert, stops on another digest, returns the stored job or reconciles, according to the row |
| `McpConnector.Connector.Resume` | src/threat_hunting/integrations/mcp.py:687-703 | a found row is replayed or reconciled, and is never submitted again |
| `McpConnector.Connector.CallProvider` | src/threat_hunting/integrations/mcp.py:784-799 | the call and its write-back are steps of the protocol |
| `McpConnector.Connector.Submit` | src/threat_hunting/integrations/mcp.py:705-799 | a whole submit is a run of the protocol; with neither the subject and key nor the request id in the ledger the call is sent, its row written and the provider's job returned; a row with another digest is an error, a stored job is returned, a row without one is answered by status, all without a send |
| `TimeSpread.BisectionOrder` | src/threat_hunting/services/investigation.py:40-65 | the interval queue ends with a permutation of the positions that is dispersed at every depth |
| `TimeSpread.DispersionBound` | src/threat_hunting/services/investigation.py:40-65 | after the first `2^d + 1` picks no run of unpicked positions among `n` is longer than `(n-2) / 2^d` |
| `TimeSpread.InterleavePermutes` | src/threat_hunting/services/investigation.py:62-65 | taking turns between timed and untimed rows loses and repeats nothing |
| `TimeSpread.EarlyInTurns` | src/threat_hunting/services/investigation.py:62-65 | the `k`-th timed row is among the first `2k + 1` |
| `TimeSpread.SpreadEvidenceInTime` | src/threat_hunting/services/investigation.py:40-65 | the output holds exactly the input rows, the timed ones in dispersed order |
| `TimeOrder.SortSorted` | src/threat_hunting/services/evidence.py:624 | the timeline order is sorted, rows without a time last |
| `TimeOrder.SortStable` | src/threat_hunting/services/evidence.py:624 | rows of equal time keep their order |
| `Sampling.LevelIsFair` | src/threat_hunting/services/investigation.py:149-163 | within a phase no query is more than one row ahead of another that still has rows, and earlier queries go first |
| `Sampling.Phase` | src/threat_hunting/services/investigation.py:148-163 | a phase draws a prefix of each query's rows, fairly and round by round in query order, until the room is used or every query is drained |
| `Sampling.EligibleInOrder` | src/threat_hunting/services/investigation.py:141-148 | the rows a phase may draw keep the order of their query |
| `Sampling.Draw` | src/threat_hunting/services/investigation.py:141-163 | a phase extends the sample by eligible rows only, without repetition, and serves its request or fills the sample |
| `Sampling.BalancedSample` | src/threat_hunting/services/investigation.py:137-163 | the sample has no repetition and holds every retained row or is full; if a retained row of a request is left out, only rows of that request and of earlier ones were taken; it was made phase by phase, each a fair share, drawn in turns, of what was eligible |
| `LeadIndex.IndexTimeline` | src/threat_hunting/services/evidence.py:1016-1026 | each scope's rows are exactly the timeline rows equal on every identity field, in timeline order |
| `LeadIndex.ScopeRowsSorted` | src/threat_hunting/services/evidence.py:1030-1032 | the times handed to bisection are sorted |
| `LeadIndex.BisectLeft` | src/threat_hunting/services/evidence.py:1055 | the first position at or after the anchor |
| `LeadIndex.BisectRight` | src/threat_hunting/services/evidence.py:1056 | the first position after the anchor |
| `LeadIndex.Periods` | src/threat_hunting/services/evidence.py:1052-1066 | counts and bounds by bisection equal a direct classification of every row |
| `LeadIndex.PeriodsCountEverything` | src/threat_hunting/services/evidence.py:1052-1066 | before, at, after and unknown add up to the number of rows |
| `LeadIndex.PeriodExactly` | src/threat_hunting/services/evidence.py:1052-1066 | a period counts the rows before, at, after or without a known relation to the anchor, of which there are some; its first and last time are times of two of them and bound them all |
| `LeadIndex.RowIsCounted` | src/threat_hunting/services/evidence.py:1052-1066 | every row is counted by a period of its kind |
| `LeadIndex.PeriodsInOrder` | src/threat_hunting/services/evidence.py:1052-1066 | the periods come in the order before, at, after, unknown, at most one of each |
| `LeadIndex.ScopeRowsExactly` | src/threat_hunting/services/evidence.py:1016-1026 | the rows of a scope are those whose result is a mapping with the scope's text in every identity field |
| `LeadIndex.LeadActivity` | src/threat_hunting/services/evidence.py:1007-1066 | the indexed report equals the naive scan for every scope |
| `Compaction.Compact` | src/threat_hunting/services/evidence.py:675-712 | every record has one place in the output, records share a group exactly when namespace, identity, time and full result agree, and first places keep the order |
| `Compaction.GroupsExactly` | src/threat_hunting/services/evidence.py:689-712 | two records share a group if and only if both are raw events, identified, with equal results and times, and with equal known sources or unknown sources in one query, an index called `query` aside |
| `Compaction.UnknownSourcesStayApart` | src/threat_hunting/services/evidence.py:679-681 | records of unknown source from different queries are never grouped |
| `Compaction.QueryIndexIsShared` | src/threat_hunting/services/evidence.py:701-703 | two records of different queries, one of known and one of unknown source, that share a group |
| `Compaction.ExpansionRecovers` | src/threat_hunting/services/model_output.py:65-79 | re-expanding a compacted record gives back its result and every envelope field it had; apart from `duplicate_references` it is the original exactly when its group's first record has no envelope field that it lacks |
| `Compaction.ExpansionAddsKind` | src/threat_hunting/services/model_output.py:70-71 | two records of one event of which the second comes back with a kind it never stated |
| `Compaction.PagesCover` | src/threat_hunting/services/evidence.py:1156-1165 | following the next offset from 0 yields the list once, in order |
| `Compaction.PagedRecordsComplete` | src/threat_hunting/services/evidence.py:1156-1165 | the pages together cite every original record |
| `Budgets.RunsCompose` | src/threat_hunting/domain/budgets.py:87-168 | consecutive runs of permitted actions make one run |
| `Budgets.BudgetsHold` | src/threat_hunting/domain/budgets.py:112-122 | in every state of every run rows, bytes, searches and calls are within their limits, and failed counts never pass their totals |
| `Budgets.LedgerAccounts` | src/threat_hunting/domain/budgets.py:131-168 | every counter is the sum over the actions taken |
| `Budgets.ActionsStayWithinBudget` | src/threat_hunting/services/orchestration.py:514-537 | the rows, bytes, searches and calls of a whole hunt, added up, stay within the hunt's limits |
| `Budgets.NoCallAfterTokensRunOut` | src/threat_hunting/services/orchestration.py:171-202 | no call starts once the tokens used before it have reached their limits |
| `Budgets.HonouredTokensStayWithin` | src/threat_hunting/services/orchestration.py:171-180 | with a provider that honours estimate and allowance the token limits hold in every state |
| `Budgets.Counters.RecordModelCall` | src/threat_hunting/domain/budgets.py:131-151 | one more call, its tokens, failure and repair, and nothing else |
| `Budgets.Counters.RecordFailedQuery` | src/threat_hunting/services/orchestration.py:626-627 | a failure is counted only while fewer failures than searches are |
| `Budgets.Counters.RecordResult` | src/threat_hunting/domain/budgets.py:162-168 | the kept rows and bytes are added, and nothing else |
| `Retrieval.RenderedGrows` | src/threat_hunting/services/orchestration.py:606-612 | one more row adds its canonical bytes and a comma exactly when it is not the first |
| `Retrieval.KeepPage` | src/threat_hunting/services/orchestration.py:603-612 | a page is kept up to the row limit or the first row whose canonical array would pass the byte limit |
| `Retrieval.FetchPages` | src/threat_hunting/services/orchestration.py:572-618 | the loop keeps a prefix with its exact byte count, every page it counts was let through, and each way out has its cause |
| `Retrieval.NothingLongerFits` | src/threat_hunting/services/orchestration.py:608-610 | if the next row does not fit, no longer prefix does |
| `Retrieval.OnlyLastRowFails` | src/threat_hunting/integrations/splunk.py:458-461 | inside a page that the adapter let through only the last row can fail to fit |
| `Retrieval.CutMeansIncomplete` | src/threat_hunting/services/orchestration.py:615-618 | when the row limit cuts the final short page and nothing stops before it, the reason is `incomplete_page` |
| `Retrieval.CompletePageCalledIncomplete` | src/threat_hunting/services/orchestration.py:615-618 | with a row limit of 700 and 900 served rows every faithful execution reports `incomplete_page` |
| `Retrieval.Retrieve` | src/threat_hunting/services/orchestration.py:566-641 | the rows are a prefix, `result_bytes` is the length of their canonical array and within the limit, not truncated means all rows, with a known total truncated means exactly that rows are missing; without faults whole pages are kept up to the row limit or the first page the adapter drops, less at most one row, and the longest prefix if it drops none; the exact condition of `incomplete_page` |
| `QueryExecutor.BoundsOf` | src/threat_hunting/services/orchestration.py:514-523 | the bounds admit a row and an empty array, stay within the query's and the hunt's limits, and the named limit is the one they equal |
| `QueryExecutor.RunSearch` | src/threat_hunting/services/orchestration.py:538-565 | a search that does not return met a failure |
| `QueryExecutor.Executor.ExecuteQuery` | src/threat_hunting/services/orchestration.py:494-641 | whatever fails and wherever, the ledger takes exactly one permitted action or none; each refusal has its exact condition; a resumed search is not counted again; a returned execution is faithful |
| `ContextFit.BoundaryIsLargest` | src/threat_hunting/services/orchestration.py:296-329 | where smaller contexts keep fitting, the limit where the fit turns is the largest that fits, or none fits |
| `ContextFit.Search` | src/threat_hunting/services/orchestration.py:293-329 | for any test the search ends where the fit turns, after at most `2 + bits(max - 1)` tests |
| `ContextFit.FitContext` | src/threat_hunting/services/orchestration.py:293-329 | the row limit found is where the fit turns, the largest that fits if smaller contexts keep fitting, within the bound on builds |
| `ModelRunner.OutputAllowance` | src/threat_hunting/services/orchestration.py:176-180 | the allowance keeps within both output limits and reaches one of them, and is absent exactly when the budget is used |
| `ModelRunner.MostIsLargest` | src/threat_hunting/services/orchestration.py:176-180 | no larger allowance is within both limits |
| `ModelRunner.Runner.CallModel` | src/threat_hunting/services/orchestration.py:182-257 | a call is refused without a trace or recorded once, with its exact outcome |
| `ModelRunner.Runner.Attempt` | src/threat_hunting/services/orchestration.py:330-364 | at most two calls, the second only to repair a complete response that broke the contract; a call starts exactly when the number of calls, its characters and its bytes with 1024 of framing leave room, with the largest allowance that the ledger before it admits; every outcome has its cause |
| `ModelRunner.Runner.Run` | src/threat_hunting/services/orchestration.py:282-364 | the request sent is the largest fitting one; no call when the output budget is used or nothing fits |
| `Decimals.DecimalInjective` | src/threat_hunting/services/model_output.py:77-78 | different label numbers are written differently |
| `Decimals.DecimalDenotes` | src/threat_hunting/services/model_output.py:77-78 | a numeral is made of digits and denotes its number |
| `LabelContext.FromContext` | src/threat_hunting/services/model_output.py:65-79 | labels follow the first appearance of each identifier and stand for its last record; the context is rejected exactly when one of those records has no supplied query |
| `Labels.SuppliedRoundTrip` | src/threat_hunting/services/model_output.py:83-84 | a supplied identifier's label resolves to that identifier |
| `Labels.LeafLabel` | src/threat_hunting/services/model_output.py:77-104 | the identifier at position `i` is encoded as `E` or `Q` and `i + 1` |
| `Labels.EncodedIsMasked` | src/threat_hunting/services/model_output.py:86-106 | every value under a reference field of an encoded tree without `selected_result` or `validation_errors` is a label or `UNAVAILABLE` |
| `Labels.MaskedShowsNothing` | src/threat_hunting/services/model_output.py:86-106 | so no supplied identifier is left under a reference field, unless it is itself spelled like a label |
| `Labels.ReferencesExactly` | src/threat_hunting/services/model_output.py:16-18 | which fields are references |
| `Labels.RoundTrip` | src/threat_hunting/services/model_output.py:86-120 | for every tree without `selected_result` or `validation_errors`, decoding undoes encoding if and only if reference leaves are supplied identifiers and reference lists are flat and free of repetition |
| `Labels.DecodedIsReferable` | src/threat_hunting/services/model_output.py:109-120 | whatever a model answers, a decoded tree refers to supplied records only, each once per list |
| `Findings.BelowExactly` | src/threat_hunting/services/model_output.py:171 | the order of identifiers is that of the first differing character, a beginning coming first |
| `Findings.QueriesAscend` | src/threat_hunting/services/model_output.py:171 | the derived queries are sorted and distinct |
| `Findings.ResolvedIsGrounded` | src/threat_hunting/services/model_output.py:160-175 | an accepted finding with evidence cites exactly the queries of that evidence |
| `Findings.TruthyExactly` | src/threat_hunting/services/model_output.py:160-175 | null, false, zero and the empty text, list and object count as no evidence, and nothing else |
| `Findings.ResolveExactly` | src/threat_hunting/services/model_output.py:160-175 | a finding is accepted if and only if, when negative, it names complete queries only and, when it cites evidence, every cited identifier is supplied and every query it names is that of a cited record |
| `Findings.ResolveGroup` | src/threat_hunting/services/model_output.py:160-175 | a group is resolved finding by finding, and rejected exactly when one of them is |
| `Findings.DecodeFindings` | src/threat_hunting/services/model_output.py:107-175 | every finding of an accepted response is grounded and nothing but its queries has changed |
| `Findings.NegativeIsCompleteExactly` | src/threat_hunting/services/model_output.py:160-175 | an accepted negative finding cites only complete queries exactly when it cites no evidence or only evidence of complete queries |
| `Findings.NegativeOverIncompleteResults` | src/threat_hunting/services/model_output.py:160-175 | an accepted negative finding over an incomplete query |
| `CleanupState.RowsKeep` | src/threat_hunting/services/retention.py:180-187 | rows may be deleted once the files they name are gone, and the hunt's own row once every other table is empty |
| `CleanupState.OthersStaySafe` | src/threat_hunting/services/retention.py:241-254 | cleaning one hunt keeps the invariant of every other |
| `CleanupState.EmptyLeavesNoFile` | src/threat_hunting/services/retention.py:180-187 | once the tables are empty no file that the hunt ever named is left |
| `CleanupState.ErasedRows` | src/threat_hunting/services/retention.py:180-187 | on the rows: fourteen of the fifteen tables have no row of an erased hunt, and no file is left that its uploads or reports named |
| `CleanupState.ScopedRows` | src/threat_hunting/services/retention.py:241-254 | on the rows: cleaning a hunt touches no row and no task of another, adds audit rows only and removes no file but those its own rows name |
| `CleanupState.ErasedStays` | src/threat_hunting/services/retention.py:241-254 | an erased hunt stays erased |
| `Retention.Cleaner.constructor` | src/threat_hunting/services/retention.py:149-153 | with no cleanup begun, the invariant of every hunt holds |
| `Retention.Cleaner.ArtifactPaths` | src/threat_hunting/services/retention.py:233-239 | exactly the files that the hunt's report and uploads name |
| `Retention.Cleaner.RemoveFiles` | src/threat_hunting/services/retention.py:180-181 | when it goes through, every named file is gone and no row has changed |
| `Retention.Cleaner.DeleteTables` | src/threat_hunting/services/retention.py:182-187 | wherever it stops, every table below the reached cursor except audit is empty |
| `Retention.Cleaner.CleanupHunt` | src/threat_hunting/services/retention.py:162-195 | an attempt stopped anywhere keeps the invariant and touches no other hunt; the result lists what it emptied; `deleted` and `already_missing` mean that nothing but audit rows is left; an unfinished hunt with work under way or touched within the abandonment days, and an ended one within its retention days, loses no row and no file; a failed attempt leaves its task completed only if the hunt is erased; without failures the result is `already_missing`, `skipped_active` or `deleted` exactly as the row and its age say |
| `Retention.Cleaner.Cleanup` | src/threat_hunting/services/retention.py:155-160 | any sequence of attempts on any hunts keeps the invariant of every hunt, and what was deleted stays erased |

## Left out

- Lexing of SPL: the model starts from tokens, and for `fields`, `table`, `eval` and `rename` from the words and tokens of their arguments; other regular expressions, quoting, Unicode whitespace and the extra rejection of a lower-case `not` before a scope field are not modelled.
- Globs with `?` or `[`: patterns use `*` only.
- Field-reference validation beyond `aliases`: its verdict is an input of `QueryPolicy.Validate`; its known-field set over-approximates on purpose.
- QueryPolicy.Validate: the order and deduplication of reason codes, the cache key and the byte and time limits are not stated.
- McpConnector.Connector.Submit: argument preparation, a connector without a database and failed ledger writes inside the method are not modelled; failed writes are steps of `McpSubmit`.
- Polling of a submitted search, clocks and timeouts are outcomes supplied by the environment of `QueryExecutor` and `ModelRunner`.
- Retrieval.Retrieve: a row is known by its canonical bytes; JSON serialisation itself is not modelled, and the raw response of a page is its canonical array and an arbitrary overhead.
- Provenance.ProvenanceExactly: `search`, `where`, `sort`, `head`, `dedup` and `regex` pass a row as it is; what Splunk does with them beyond the repository, such as `dedup` with `keepevents`, is not modelled. For `_time` and `_cd` it inherits the treatment of internal fields under `fields`.
- Provenance.KeepsExactly: whether `fields` keeps an internal field that it does not select is left open and counts as losing it, so that `fields "w _time"` hides `_time`.
- Renames in `Provenance.RowStep`: which of two fields that a rename moves to one name remains, and whether a name survives when the row lacks the field that would take it, are left open, because the repository does not say.
- Compaction.ExpansionRecovers: input records carry no `duplicate_references` of their own.
- `repair_once` is one `ModelRunner.Runner.CallModel` with its own outcome mapping, and is not written out.
- Sampling.BalancedSample: starts from the grouped, spread and source-balanced rows; the coverage metadata is not modelled.
- LeadIndex.LeadActivity: scopes are given; how leads choose identity fields, the per-action summaries and the query coverage are not modelled.
- Labels.RoundTrip: the text replacement in `validation_errors` is an arbitrary function, and trees that use it or `selected_result` are outside the claim, because decode also visits them.
- Findings.DecodeFindings: the checks of lead coverage and of assessment entities that follow are not modelled; they only reject more or add other members.
- Retention.Cleaner.RemoveFiles: a directory is one path; path-escape refusals are failures of the operation.
- Retention.Cleaner.CleanupHunt: reads succeed; a read that fails would end the attempt with nothing further changed.
- Concurrent writers during a hunt's cleanup: the hunt's lock ends before the deletion starts.
- `widen_spl_for_lead_sessions`, the hunt state table, query scoring, MCP authorization, citations, login and sessions, HTTP routers, health checks and transports are not part of this model.
