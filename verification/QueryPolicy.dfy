/** The allow/reject decision of the policy, which composes the source-scope analysis with the normaliser. */
module QueryPolicy {
  import opened Wrappers
  import opened SourceScope
  import opened SourcePairs
  import SourceParser
  import opened Provenance

  const BUILTIN_FIELDS: set<string> := {"_time", "_raw", "host", "source", "sourcetype", "index"}

  datatype Reason =
    | SplNotAllowed | SourceMetadataModified | FieldSyntax | FunctionNotAllowed | FieldNotDiscovered
    | ScopeContradictory | ScopeUnbounded | ExpressionNotSupported
    | IndexNotExact | SourcetypeNotExact | IndexMissing | IndexMismatch | SourcetypeMissing | SourcetypeMismatch
    | InlineTime | QuestionNotOpen | IndexOutside | SourcetypeOutside | TimeOutside | ResultLimitExceeded

  /** The pinned policy; `cap` gives the result limit of a mode, 0 for an unknown one. */
  datatype Policy = Policy(
    discoveredIndexes: set<string>, discoveredSourcetypes: set<string>, discoveredFields: set<string>,
    approvedIndexes: set<string>, approvedSourcetypes: set<string>,
    approvedEarliest: int, approvedLatest: int, cap: map<string, nat>)

  /** What the field-reference check raises. */
  datatype FieldFault = SyntaxFault | FunctionFault | UndiscoveredFault

  /** A proposed search.  `parsed` is `None` when the pipeline parser raises, and the raw text's tokens are
      then `raw`; `fieldFault` is the outcome of the field-reference check. */
  datatype Proposal = Proposal(
    parsed: Option<seq<Segment>>, raw: seq<Token>, fieldFault: Option<FieldFault>, inlineTime: bool,
    indexes: set<string>, sourcetypes: set<string>, requestedFields: set<string>,
    earliest: int, latest: int, mode: string, maxResults: int, question: string)

  /** The pipeline parser only returns pipelines that begin with a search. */
  predicate WellFormed(p: Proposal) {
    p.parsed.Some? ==> |p.parsed.value| > 0 && p.parsed.value[0].Search?
  }

  function ScopeTokens(p: Proposal): seq<Token>
    requires WellFormed(p)
  {
    if p.parsed.Some? then p.parsed.value[0].tokens else p.raw
  }

  function Cap(policy: Policy, p: Proposal): nat {
    if p.mode in policy.cap then policy.cap[p.mode] else 0
  }

  ghost predicate ModifiesSource(p: Proposal) {
    p.parsed.Some? && !Aggregates(p.parsed.value) && SomeModified(p.parsed.value)
  }

  ghost predicate Faults(p: Proposal, fault: FieldFault) {
    p.parsed.Some? && !ModifiesSource(p) && p.fieldFault == Some(fault)
  }

  /** When each reason is reported: for the shape of the pipeline, its source scope, the declared metadata,
      the approved bounds and the request itself. */
  ghost predicate Applies(r: Reason, policy: Policy, p: Proposal, open: Option<set<string>>)
    requires WellFormed(p)
  {
    || ShapeApplies(r, p)
    || ScopeApplies(r, ScopeTokens(p))
    || DeclarationApplies(r, ScopeTokens(p), p)
    || BoundsApplies(r, policy, p)
    || RequestApplies(r, policy, p, open)
  }

  ghost predicate ShapeApplies(r: Reason, p: Proposal) {
    match r
    case SplNotAllowed => p.parsed.None?
    case SourceMetadataModified => ModifiesSource(p)
    case FieldSyntax => Faults(p, SyntaxFault)
    case FunctionNotAllowed => Faults(p, FunctionFault)
    case FieldNotDiscovered => Faults(p, UndiscoveredFault)
    case _ => false
  }

  predicate ScopeApplies(r: Reason, ts: seq<Token>) {
    var branches := SourceBranches(ts);
    match r
    case ExpressionNotSupported => branches.None?
    case ScopeContradictory => branches == Some({})
    case ScopeUnbounded => branches.Some? && exists b :: b in branches.value && !Pinned(b)
    case IndexNotExact => ScopeInvalid(ts, IndexField)
    case SourcetypeNotExact => ScopeInvalid(ts, SourceField)
    case _ => false
  }

  predicate DeclarationApplies(r: Reason, ts: seq<Token>, p: Proposal) {
    var indexes, sourcetypes := ScopeValues(ts, IndexField), ScopeValues(ts, SourceField);
    match r
    case IndexMissing => p.indexes == {} || indexes == {}
    case IndexMismatch => p.indexes != {} && indexes != {} && indexes != p.indexes
    case SourcetypeMissing => p.sourcetypes == {} || sourcetypes == {}
    case SourcetypeMismatch => p.sourcetypes != {} && sourcetypes != {} && sourcetypes != p.sourcetypes
    case _ => false
  }

  predicate BoundsApplies(r: Reason, policy: Policy, p: Proposal) {
    match r
    case IndexOutside => !(p.indexes <= policy.approvedIndexes * policy.discoveredIndexes)
    case SourcetypeOutside => !(p.sourcetypes <= policy.approvedSourcetypes * policy.discoveredSourcetypes)
    case TimeOutside => p.earliest < policy.approvedEarliest || p.latest > policy.approvedLatest
    case _ => false
  }

  predicate RequestApplies(r: Reason, policy: Policy, p: Proposal, open: Option<set<string>>) {
    match r
    case InlineTime => p.inlineTime
    case QuestionNotOpen => open.Some? && p.question !in open.value
    case FieldNotDiscovered => !(p.requestedFields <= policy.discoveredFields + BUILTIN_FIELDS)
    case ResultLimitExceeded => p.maxResults > Cap(policy, p)
    case _ => false
  }

  /** What a proposal must satisfy to be allowed, on its own fields and those of the policy. */
  ghost predicate Permitted(policy: Policy, p: Proposal, open: Option<set<string>>)
    requires WellFormed(p)
  {
    && ShapePermitted(p) && Pairs(ScopeTokens(p)).Some?
    && DeclarationPermitted(ScopeTokens(p), p) && RequestPermitted(policy, p, open)
  }

  ghost predicate ShapePermitted(p: Proposal) {
    && p.parsed.Some? && p.fieldFault.None? && !p.inlineTime
    && ((exists s :: s in p.parsed.value && s.Aggregate?) || !SomeModified(p.parsed.value))
  }

  /** The declared indexes and sourcetypes are those written in the search. */
  ghost predicate DeclarationPermitted(ts: seq<Token>, p: Proposal) {
    && p.indexes != {} && (forall v: Name :: v in ScopeValues(ts, IndexField) <==> v in p.indexes)
    && (forall v :: v in p.indexes ==> |v| > 0)
    && p.sourcetypes != {} && (forall v: Name :: v in ScopeValues(ts, SourceField) <==> v in p.sourcetypes)
    && (forall v :: v in p.sourcetypes ==> |v| > 0)
  }

  ghost predicate RequestPermitted(policy: Policy, p: Proposal, open: Option<set<string>>) {
    && (forall v :: v in p.indexes ==> v in policy.approvedIndexes && v in policy.discoveredIndexes)
    && (forall v :: v in p.sourcetypes ==> v in policy.approvedSourcetypes && v in policy.discoveredSourcetypes)
    && policy.approvedEarliest <= p.earliest && p.latest <= policy.approvedLatest
    && (forall f :: f in p.requestedFields ==>
          f in policy.discoveredFields || f in {"_time", "_raw", "host", "source", "sourcetype", "index"})
    && p.maxResults <= (if p.mode in policy.cap then policy.cap[p.mode] else 0)
    && (open.Some? ==> p.question in open.value)
  }

  lemma ShapeExactly(p: Proposal)
    ensures ShapePermitted(p) <==> !p.inlineTime && forall r :: !ShapeApplies(r, p)
  {
    assert p.parsed.Some? ==> (Aggregates(p.parsed.value) <==> exists s :: s in p.parsed.value && s.Aggregate?);
    if !p.inlineTime && forall r :: !ShapeApplies(r, p) {
      assert !ShapeApplies(SplNotAllowed, p) && !ShapeApplies(SourceMetadataModified, p);
      match p.fieldFault {
        case None =>
        case Some(SyntaxFault) => assert ShapeApplies(FieldSyntax, p);
        case Some(FunctionFault) => assert ShapeApplies(FunctionNotAllowed, p);
        case Some(UndiscoveredFault) => assert ShapeApplies(FieldNotDiscovered, p);
      }
    }
  }

  lemma SameNames(written: set<Name>, declared: set<string>)
    ensures written == declared <==>
            (forall v: Name :: v in written <==> v in declared) && forall v :: v in declared ==> |v| > 0
  {
    if (forall v: Name :: v in written <==> v in declared) && forall v :: v in declared ==> |v| > 0 {
      assert forall v :: v in declared ==> v in written;
    }
  }

  lemma ScopeExactly(ts: seq<Token>)
    ensures Pairs(ts).Some? <==> forall r :: !ScopeApplies(r, ts)
  {
    if forall r :: !ScopeApplies(r, ts) {
      assert !ScopeApplies(ExpressionNotSupported, ts) && !ScopeApplies(ScopeContradictory, ts);
      assert !ScopeApplies(ScopeUnbounded, ts);
      assert !ScopeApplies(IndexNotExact, ts) && !ScopeApplies(SourcetypeNotExact, ts);
    }
  }

  lemma DeclarationExactly(ts: seq<Token>, p: Proposal)
    ensures DeclarationPermitted(ts, p) <==> forall r :: !DeclarationApplies(r, ts, p)
  {
    SameNames(ScopeValues(ts, IndexField), p.indexes);
    SameNames(ScopeValues(ts, SourceField), p.sourcetypes);
    if forall r :: !DeclarationApplies(r, ts, p) {
      assert !DeclarationApplies(IndexMissing, ts, p) && !DeclarationApplies(IndexMismatch, ts, p);
      assert !DeclarationApplies(SourcetypeMissing, ts, p) && !DeclarationApplies(SourcetypeMismatch, ts, p);
    }
  }

  lemma RequestExactly(policy: Policy, p: Proposal, open: Option<set<string>>)
    ensures !p.inlineTime && RequestPermitted(policy, p, open) <==>
            forall r :: !BoundsApplies(r, policy, p) && !RequestApplies(r, policy, p, open)
  {
    if forall r :: !BoundsApplies(r, policy, p) && !RequestApplies(r, policy, p, open) {
      assert !BoundsApplies(IndexOutside, policy, p) && !BoundsApplies(SourcetypeOutside, policy, p);
      assert !BoundsApplies(TimeOutside, policy, p);
      assert !RequestApplies(InlineTime, policy, p, open) && !RequestApplies(QuestionNotOpen, policy, p, open);
      assert !RequestApplies(FieldNotDiscovered, policy, p, open);
      assert !RequestApplies(ResultLimitExceeded, policy, p, open);
    }
  }

  /** No reason applies if and only if the proposal is permitted. */
  lemma PermittedExactly(policy: Policy, p: Proposal, open: Option<set<string>>)
    requires WellFormed(p)
    ensures Permitted(policy, p, open) <==> forall r :: !Applies(r, policy, p, open)
  {
    var ts := ScopeTokens(p);
    ShapeExactly(p);
    ScopeExactly(ts);
    DeclarationExactly(ts, p);
    RequestExactly(policy, p, open);
    if forall r :: !Applies(r, policy, p, open) {
      forall r
        ensures !ShapeApplies(r, p) && !ScopeApplies(r, ts) && !DeclarationApplies(r, ts, p)
        ensures !BoundsApplies(r, policy, p) && !RequestApplies(r, policy, p, open)
      {
        assert !Applies(r, policy, p, open);
      }
    }
  }

  /** What is submitted for an allowed proposal. */
  ghost predicate Normalised(segments: seq<Segment>, out: seq<Segment>) {
    if Aggregates(segments) then out == segments else AllPreserved(segments, out)
  }

  function Add(reasons: seq<Reason>, condition: bool, reason: Reason): (out: seq<Reason>)
    ensures forall r :: r in out <==> r in reasons || (condition && r == reason)
  {
    if condition then reasons + [reason] else reasons
  }

  method ShapeReasons(p: Proposal) returns (reasons: seq<Reason>, normalized: Option<seq<Segment>>)
    ensures forall r :: r in reasons <==> ShapeApplies(r, p)
    ensures reasons == [] ==> p.parsed.Some? && normalized.Some? && Normalised(p.parsed.value, normalized.value)
  {
    if p.parsed.None? {
      return [SplNotAllowed], None;
    }
    normalized := PreserveRawSourceFields(p.parsed.value);
    if normalized.None? {
      return [SourceMetadataModified], None;
    }
    assert !ModifiesSource(p);
    match p.fieldFault
    case None => reasons := [];
    case Some(SyntaxFault) => reasons := [FieldSyntax];
    case Some(FunctionFault) => reasons := [FunctionNotAllowed];
    case Some(UndiscoveredFault) => reasons := [FieldNotDiscovered];
  }

  method ScopeReasons(ts: seq<Token>) returns (reasons: seq<Reason>)
    ensures forall r :: r in reasons <==> ScopeApplies(r, ts)
  {
    var branches := SourceParser.ParseBranches(ts);
    if branches.None? {
      reasons := [ExpressionNotSupported];
    } else if branches.value == {} {
      reasons := [ScopeContradictory];
    } else {
      reasons := Add([], exists b :: b in branches.value && !Pinned(b), ScopeUnbounded);
    }
    reasons := Add(reasons, ScopeInvalid(ts, IndexField), IndexNotExact);
    reasons := Add(reasons, ScopeInvalid(ts, SourceField), SourcetypeNotExact);
  }

  method DeclarationReasons(ts: seq<Token>, p: Proposal) returns (reasons: seq<Reason>)
    ensures forall r :: r in reasons <==> DeclarationApplies(r, ts, p)
  {
    var indexes, sourcetypes := ScopeValues(ts, IndexField), ScopeValues(ts, SourceField);
    if p.indexes == {} || indexes == {} {
      reasons := [IndexMissing];
    } else {
      reasons := Add([], indexes != p.indexes, IndexMismatch);
    }
    if p.sourcetypes == {} || sourcetypes == {} {
      reasons := reasons + [SourcetypeMissing];
    } else {
      reasons := Add(reasons, sourcetypes != p.sourcetypes, SourcetypeMismatch);
    }
  }

  method BoundsReasons(policy: Policy, p: Proposal) returns (reasons: seq<Reason>)
    ensures forall r :: r in reasons <==> BoundsApplies(r, policy, p)
  {
    reasons := Add([], !(p.indexes <= policy.approvedIndexes * policy.discoveredIndexes), IndexOutside);
    var sourcetypes := policy.approvedSourcetypes * policy.discoveredSourcetypes;
    reasons := Add(reasons, !(p.sourcetypes <= sourcetypes), SourcetypeOutside);
    reasons := Add(reasons, p.earliest < policy.approvedEarliest || p.latest > policy.approvedLatest, TimeOutside);
  }

  method RequestReasons(policy: Policy, p: Proposal, open: Option<set<string>>) returns (reasons: seq<Reason>)
    ensures forall r :: r in reasons <==> RequestApplies(r, policy, p, open)
  {
    reasons := Add([], p.inlineTime, InlineTime);
    reasons := Add(reasons, open.Some? && p.question !in open.value, QuestionNotOpen);
    reasons := Add(reasons, !(p.requestedFields <= policy.discoveredFields + BUILTIN_FIELDS), FieldNotDiscovered);
    reasons := Add(reasons, p.maxResults > Cap(policy, p), ResultLimitExceeded);
  }

  /** The decision: exactly the reasons that apply, and for an allowed proposal what will be submitted. */
  method Validate(policy: Policy, p: Proposal, open: Option<set<string>>)
    returns (reasons: seq<Reason>, normalized: Option<seq<Segment>>, enforced: int)
    requires WellFormed(p)
    ensures forall r :: r in reasons <==> Applies(r, policy, p, open)
    ensures reasons == [] ==> p.parsed.Some? && normalized.Some? && Normalised(p.parsed.value, normalized.value)
    ensures reasons == [] <==> Permitted(policy, p, open)
    ensures var cap := if p.mode in policy.cap && policy.cap[p.mode] > 1 then policy.cap[p.mode] else 1;
            enforced <= p.maxResults && enforced <= cap && (enforced == p.maxResults || enforced == cap)
    ensures reasons == [] ==> enforced == p.maxResults
  {
    var shape;
    shape, normalized := ShapeReasons(p);
    var scope := ScopeReasons(ScopeTokens(p));
    var declared := DeclarationReasons(ScopeTokens(p), p);
    var bounds := BoundsReasons(policy, p);
    var request := RequestReasons(policy, p, open);
    reasons := shape + scope + declared + bounds + request;
    var cap := if Cap(policy, p) > 1 then Cap(policy, p) else 1;
    enforced := if p.maxResults < cap then p.maxResults else cap;
    PermittedExactly(policy, p, open);
    assert reasons == [] ==> forall r :: r !in reasons;
    assert reasons != [] ==> reasons[0] in reasons;
  }

  /** If no reason applies, every event that the submitted search can match lies in an index and a sourcetype
      that are both approved and discovered, and the search window lies in the approved one. */
  lemma AllowedIsInScope(policy: Policy, p: Proposal, open: Option<set<string>>, out: seq<Segment>, e: Expr, ev: Event)
    requires WellFormed(p) && forall r :: !Applies(r, policy, p, open)
    requires p.parsed.Some? && Normalised(p.parsed.value, out)
    requires IsConj(e) && out[0] == Search(Yield(e)) && Satisfiable(e, ev)
    ensures ev.index in policy.approvedIndexes && ev.index in policy.discoveredIndexes
    ensures ev.source in policy.approvedSourcetypes && ev.source in policy.discoveredSourcetypes
    ensures policy.approvedEarliest <= p.earliest && p.latest <= policy.approvedLatest
  {
    var ts := ScopeTokens(p);
    assert Yield(e) == ts;
    InScopeHasPairs(policy, p, open);
    PairsAreExact(e, ev);
    PairsAreScopeValues(ts, (ev.index, ev.source));
    ScopeIsDeclared(policy, p, open);
    assert !Applies(TimeOutside, policy, p, open);
  }

  lemma InScopeHasPairs(policy: Policy, p: Proposal, open: Option<set<string>>)
    requires WellFormed(p) && forall r :: !Applies(r, policy, p, open)
    ensures Pairs(ScopeTokens(p)).Some?
  {
    assert !Applies(IndexNotExact, policy, p, open) && !Applies(SourcetypeNotExact, policy, p, open);
    assert !Applies(ExpressionNotSupported, policy, p, open) && !Applies(ScopeContradictory, policy, p, open);
    assert !Applies(ScopeUnbounded, policy, p, open);
  }

  lemma ScopeIsDeclared(policy: Policy, p: Proposal, open: Option<set<string>>)
    requires WellFormed(p) && forall r :: !Applies(r, policy, p, open)
    ensures ScopeValues(ScopeTokens(p), IndexField) <= policy.approvedIndexes * policy.discoveredIndexes
    ensures ScopeValues(ScopeTokens(p), SourceField) <= policy.approvedSourcetypes * policy.discoveredSourcetypes
  {
    var indexes, sourcetypes := ScopeValues(ScopeTokens(p), IndexField), ScopeValues(ScopeTokens(p), SourceField);
    assert indexes == p.indexes by {
      assert !Applies(IndexMissing, policy, p, open) && !Applies(IndexMismatch, policy, p, open);
    }
    assert sourcetypes == p.sourcetypes by {
      assert !Applies(SourcetypeMissing, policy, p, open) && !Applies(SourcetypeMismatch, policy, p, open);
    }
    assert !Applies(IndexOutside, policy, p, open) && !Applies(SourcetypeOutside, policy, p, open);
  }
}
