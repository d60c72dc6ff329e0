/** The exact source pairs of a search expression and the scope values written in it. */
module SourcePairs {
  import opened Wrappers
  import opened SourceScope
  import opened SourceAcceptance

  type Pair = (Name, Name)

  function TokenValues(t: Token, field: Field): set<Name> {
    match t
    case Scope(f, v) => if f == field then {v} else {}
    case Other(mentions) => set m | m in mentions && m.Exact? && m.field == field :: m.value
    case _ => {}
  }

  /** Every exact value written for a scope field anywhere in the expression. */
  function ScopeValues(ts: seq<Token>, field: Field): set<Name> {
    set t, v | t in ts && v in TokenValues(t, field) :: v
  }

  /** `NOT`, any number of opening parentheses, then a predicate on the field. */
  predicate NegatedAt(ts: seq<Token>, i: nat, field: Field)
    requires i < |ts|
    decreases |ts| - i
  {
    i + 1 < |ts|
    && if ts[i + 1] == Open then NegatedAt(ts, i + 1, field) else ts[i + 1].Scope? && ts[i + 1].field == field
  }

  /** The field is also mentioned in a form that is not an exact positive predicate. */
  predicate ScopeInvalid(ts: seq<Token>, field: Field) {
    || (exists t :: t in ts && t.Other? && Inexact(field) in t.mentions)
    || (exists i :: 0 <= i < |ts| && ts[i] == Not && NegatedAt(ts, i, field))
  }

  predicate Pinned(b: Branch) {
    b.index.Some? && b.source.Some?
  }

  function PairOf(b: Branch): Pair
    requires Pinned(b)
  {
    (b.index.value, b.source.value)
  }

  /** The pairs a search can reach, or `None` where its scope is inexact, contradictory or unbounded. */
  function Pairs(ts: seq<Token>): Option<set<Pair>> {
    if ScopeInvalid(ts, IndexField) || ScopeInvalid(ts, SourceField) then None else
      var branches := SourceBranches(ts);
      if branches.None? || branches.value == {} || (exists b :: b in branches.value && !Pinned(b)) then None
      else Some(set b | b in branches.value && Pinned(b) :: PairOf(b))
  }

  // ----- When there are pairs, on the tokens -----

  /** After position `i` come only opening parentheses and then, at `k`, a predicate on the field. */
  ghost predicate OpensThenScope(ts: seq<Token>, i: nat, k: nat, field: Field) {
    && i < k < |ts|
    && (forall m :: i < m < k ==> ts[m] == Open)
    && ts[k].Scope? && ts[k].field == field
  }

  lemma {:induction false} NegatedExactly(ts: seq<Token>, i: nat, field: Field)
    requires i < |ts|
    ensures NegatedAt(ts, i, field) <==> exists k: nat :: OpensThenScope(ts, i, k, field)
    decreases |ts| - i
  {
    var j := i + 1;
    if j < |ts| {
      if ts[j] == Open {
        NegatedExactly(ts, j, field);
        if k: nat :| OpensThenScope(ts, j, k, field) {
          assert OpensThenScope(ts, i, k, field);
        }
        if k: nat :| OpensThenScope(ts, i, k, field) {
          assert ts[k] != Open && OpensThenScope(ts, j, k, field);
        }
      } else if NegatedAt(ts, i, field) {
        assert OpensThenScope(ts, i, j, field);
      }
    }
  }

  /** A field makes the scope invalid if and only if some token mentions it in another form than an exact predicate,
      or a `NOT` followed by opening parentheses only stands before a predicate on it. */
  lemma InvalidExactly(ts: seq<Token>, field: Field)
    ensures ScopeInvalid(ts, field) <==>
            || (exists i :: 0 <= i < |ts| && ts[i].Other? && Inexact(field) in ts[i].mentions)
            || (exists i: nat, k: nat :: i < |ts| && ts[i] == Not && OpensThenScope(ts, i, k, field))
  {
    forall i: nat | i < |ts|
      ensures NegatedAt(ts, i, field) <==> exists k: nat :: OpensThenScope(ts, i, k, field)
    {
      NegatedExactly(ts, i, field);
    }
  }

  /** A value counts as written if and only if a predicate states it or another token mentions it exactly. */
  lemma ValuesExactly(ts: seq<Token>, field: Field, v: Name)
    ensures v in ScopeValues(ts, field) <==>
            Scope(field, v) in ts || exists t :: t in ts && t.Other? && Exact(field, v) in t.mentions
  {
    if v in ScopeValues(ts, field) {
      var t :| t in ts && v in TokenValues(t, field);
      assert t.Scope? || (t.Other? && Exact(field, v) in t.mentions);
    }
    if Scope(field, v) in ts {
      assert v in TokenValues(Scope(field, v), field);
    }
    if t :| t in ts && t.Other? && Exact(field, v) in t.mentions {
      assert v in TokenValues(t, field);
    }
  }

  /** An expression has pairs if and only if it is accepted, its scope is valid, and it has alternatives that all bound
      both components; the pairs are then its alternatives. */
  lemma PairsExactly(e: Expr)
    requires IsConj(e)
    ensures Pairs(Yield(e)).Some? <==>
            && |Yield(e)| <= 2000 && Nesting(e) <= 32 && Positive(e) && Slim(e)
            && !ScopeInvalid(Yield(e), IndexField) && !ScopeInvalid(Yield(e), SourceField)
            && Alternatives(e) != {}
            && forall b :: b in Alternatives(e) ==> b.index.Some? && b.source.Some?
    ensures Pairs(Yield(e)).Some? ==>
            forall i, s :: (i, s) in Pairs(Yield(e)).value <==> Branch(Some(i), Some(s)) in Alternatives(e)
  {
    AcceptedExactly(e);
    if Pairs(Yield(e)).Some? {
      forall i, s ensures (i, s) in Pairs(Yield(e)).value <==> Branch(Some(i), Some(s)) in Alternatives(e) {
        assert Pinned(Branch(Some(i), Some(s))) && PairOf(Branch(Some(i), Some(s))) == (i, s);
      }
    }
  }

  /** The returned pairs are exactly those of the events that the search can match: never one more,
      as a cross product of the indexes and sourcetypes would give, and never one fewer. */
  lemma PairsAreExact(e: Expr, ev: Event)
    requires IsConj(e) && Pairs(Yield(e)).Some?
    ensures (ev.index, ev.source) in Pairs(Yield(e)).value <==> Satisfiable(e, ev)
  {
    BranchesAreExact(e, ev);
    var bs := SourceBranches(Yield(e)).value;
    if (ev.index, ev.source) in Pairs(Yield(e)).value {
      var b :| b in bs && Pinned(b) && PairOf(b) == (ev.index, ev.source);
      assert Matches(b, ev);
    }
    if Covers(bs, ev) {
      var b :| b in bs && Matches(b, ev);
      assert Pinned(b) && PairOf(b) == (ev.index, ev.source);
    }
  }

  /** Every bound of every alternative is a value written in the expression. */
  ghost predicate Written(b: Branch, ts: seq<Token>) {
    && (b.index.Some? ==> Scope(IndexField, b.index.value) in ts)
    && (b.source.Some? ==> Scope(SourceField, b.source.value) in ts)
  }

  lemma {:induction false} BranchesAreWritten(e: Expr, depth: nat, b: Branch)
    requires Analyze(e, depth).Some? && b in Analyze(e, depth).value
    ensures Written(b, Yield(e))
  {
    match e
    case Filter(_) =>
    case Scoped(_, _) =>
    case Neg(_) =>
    case Group(c) => BranchesAreWritten(c, depth + 1, b);
    case Disjoin(l, r) =>
      if b in Analyze(l, depth).value {
        BranchesAreWritten(l, depth, b);
      } else {
        BranchesAreWritten(r, depth, b);
      }
    case Conjoin(l, _, r) =>
      var p, q :| p in Analyze(l, depth).value && q in Analyze(r, depth).value && Compatible(p, q) && b == Meet(p, q);
      BranchesAreWritten(l, depth, p);
      BranchesAreWritten(r, depth, q);
  }

  /** The values of every reachable pair are among the scope values of the expression. */
  lemma PairsAreScopeValues(ts: seq<Token>, p: Pair)
    requires Pairs(ts).Some? && p in Pairs(ts).value
    ensures p.0 in ScopeValues(ts, IndexField) && p.1 in ScopeValues(ts, SourceField)
  {
    var b :| b in SourceBranches(ts).value && Pinned(b) && PairOf(b) == p;
    var e := AcceptedHasTree(ts);
    ParserAgrees(e);
    BranchesAreWritten(e, 0, b);
    assert p.0 in TokenValues(Scope(IndexField, p.0), IndexField);
    assert p.1 in TokenValues(Scope(SourceField, p.1), SourceField);
  }
}
