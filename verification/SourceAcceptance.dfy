/** Which search expressions the source-scope parser accepts: measures of the tree, independent of the parser. */
module SourceAcceptance {
  import opened Wrappers
  import opened Basics
  import opened SourceScope

  /** The alternatives of a tree, without any limit. */
  function Alternatives(e: Expr): set<Branch> {
    match e
    case Filter(_) => {Branch(None, None)}
    case Scoped(IndexField, value) => {Branch(Some(value), None)}
    case Scoped(SourceField, value) => {Branch(None, Some(value))}
    case Neg(_) => {Branch(None, None)}
    case Group(c) => Alternatives(c)
    case Disjoin(l, r) => Alternatives(l) + Alternatives(r)
    case Conjoin(l, _, r) => MeetAll(Alternatives(l), Alternatives(r))
  }

  /** The negations and parentheses on the deepest path. */
  function Nesting(e: Expr): nat {
    match e
    case Filter(_) => 0
    case Scoped(_, _) => 0
    case Neg(a) => 1 + Nesting(a)
    case Group(c) => 1 + Nesting(c)
    case Disjoin(l, r) => Larger(Nesting(l), Nesting(r))
    case Conjoin(l, _, r) => Larger(Nesting(l), Nesting(r))
  }

  function Larger(a: nat, b: nat): nat {
    if a < b then b else a
  }

  /** No source predicate lies under a negation. */
  predicate Positive(e: Expr) {
    match e
    case Filter(_) => true
    case Scoped(_, _) => true
    case Neg(a) => Free(a)
    case Group(c) => Positive(c)
    case Disjoin(l, r) => Positive(l) && Positive(r)
    case Conjoin(l, _, r) => Positive(l) && Positive(r)
  }

  /** The tree has no source predicate. */
  predicate Free(e: Expr) {
    forall t :: t in Yield(e) ==> !t.Scope?
  }

  /** No disjunction or conjunction outside a negation has more than 128 alternatives. */
  predicate Slim(e: Expr) {
    match e
    case Filter(_) => true
    case Scoped(_, _) => true
    case Neg(_) => true
    case Group(c) => Slim(c)
    case Disjoin(l, r) => |Alternatives(e)| <= 128 && Slim(l) && Slim(r)
    case Conjoin(l, _, r) => |Alternatives(e)| <= 128 && Slim(l) && Slim(r)
  }

  lemma FreeParts(a: seq<Token>, b: seq<Token>, c: seq<Token>)
    ensures (forall t :: t in a + b + c ==> !t.Scope?) <==>
            && (forall t :: t in a ==> !t.Scope?)
            && (forall t :: t in b ==> !t.Scope?)
            && (forall t :: t in c ==> !t.Scope?)
  {
    var all := a + b + c;
    assert forall t :: t in all <==> t in a || t in b || t in c;
  }

  lemma {:induction false} FreeHasNoScope(e: Expr)
    ensures Free(e) <==> !HasScope(e)
  {
    match e
    case Filter(_) =>
    case Scoped(field, value) =>
      assert Scope(field, value) in Yield(e);
    case Neg(a) =>
      FreeHasNoScope(a);
      FreeParts([Not], Yield(a), []);
      assert Yield(e) == [Not] + Yield(a) + [];
    case Group(c) =>
      FreeHasNoScope(c);
      FreeParts([Open], Yield(c), [Close]);
    case Disjoin(l, r) =>
      FreeHasNoScope(l);
      FreeHasNoScope(r);
      FreeParts(Yield(l), [Or], Yield(r));
    case Conjoin(l, x, r) =>
      FreeHasNoScope(l);
      FreeHasNoScope(r);
      FreeParts(Yield(l), Joint(x), Yield(r));
  }

  /** A tree without source predicates has no bounded alternative: only its nesting can reject it. */
  ghost predicate FreeAt(e: Expr, depth: nat) {
    && (Analyze(e, depth).Some? <==> depth + Nesting(e) <= 32)
    && (Analyze(e, depth).Some? ==> Unbounded(Analyze(e, depth).value))
  }

  ghost predicate Unbounded(bs: set<Branch>) {
    forall b :: b in bs ==> b.index.None? && b.source.None?
  }

  lemma UnboundedSize(bs: set<Branch>)
    requires Unbounded(bs)
    ensures |bs| <= 1
  {
    if b :| b in bs {
      assert bs == {b};
    }
  }

  lemma UnboundedMeet(left: set<Branch>, right: set<Branch>)
    requires Unbounded(left) && Unbounded(right)
    ensures Unbounded(MeetAll(left, right))
  {
  }

  lemma FreeJoin(l: Expr, r: Expr, depth: nat)
    requires FreeAt(l, depth) && FreeAt(r, depth)
    ensures FreeAt(Disjoin(l, r), depth)
  {
    if depth + Nesting(l) <= 32 && depth + Nesting(r) <= 32 {
      UnboundedSize(Analyze(l, depth).value + Analyze(r, depth).value);
    }
  }

  lemma FreeMeet(l: Expr, x: bool, r: Expr, depth: nat)
    requires FreeAt(l, depth) && FreeAt(r, depth)
    ensures FreeAt(Conjoin(l, x, r), depth)
  {
    if depth + Nesting(l) <= 32 && depth + Nesting(r) <= 32 {
      var a, b := Analyze(l, depth).value, Analyze(r, depth).value;
      UnboundedMeet(a, b);
      UnboundedSize(MeetAll(a, b));
    }
  }

  lemma {:induction false} FreeAnalysis(e: Expr, depth: nat)
    requires !HasScope(e)
    ensures FreeAt(e, depth)
  {
    match e
    case Filter(_) =>
    case Neg(a) => FreeAnalysis(a, depth + 1);
    case Group(c) => FreeAnalysis(c, depth + 1);
    case Disjoin(l, r) =>
      FreeAnalysis(l, depth);
      FreeAnalysis(r, depth);
      FreeJoin(l, r, depth);
    case Conjoin(l, x, r) =>
      FreeAnalysis(l, depth);
      FreeAnalysis(r, depth);
      FreeMeet(l, x, r, depth);
  }

  predicate Acceptable(e: Expr, depth: nat) {
    depth + Nesting(e) <= 32 && Positive(e) && Slim(e)
  }

  /** The analysis accepts exactly the acceptable trees, and returns all their alternatives. */
  lemma {:induction false} AnalyzeExactly(e: Expr, depth: nat)
    ensures Analyze(e, depth) == if Acceptable(e, depth) then Some(Alternatives(e)) else None
  {
    match e
    case Filter(_) =>
    case Scoped(field, _) =>
      match field {
        case IndexField =>
        case SourceField =>
      }
    case Neg(a) =>
      FreeHasNoScope(a);
      if !HasScope(a) {
        FreeAnalysis(a, depth + 1);
      }
    case Group(c) => AnalyzeExactly(c, depth + 1);
    case Disjoin(l, r) =>
      AnalyzeExactly(l, depth);
      AnalyzeExactly(r, depth);
    case Conjoin(l, _, r) =>
      AnalyzeExactly(l, depth);
      AnalyzeExactly(r, depth);
  }

  /** An expression is accepted if and only if it has at most 2000 tokens, nests at most 32 deep, negates no source
      predicate and never has more than 128 alternatives; its branches are then its alternatives. */
  lemma AcceptedExactly(e: Expr)
    requires IsConj(e)
    ensures SourceBranches(Yield(e)) ==
            if |Yield(e)| <= 2000 && Nesting(e) <= 32 && Positive(e) && Slim(e) then Some(Alternatives(e)) else None
  {
    ParserAgrees(e);
    AnalyzeExactly(e, 0);
  }

  // ----- A count that needs no sets -----

  /** The alternatives as counted from the syntax: a sum over OR, a product over AND. */
  function Width(e: Expr): nat {
    match e
    case Filter(_) => 1
    case Scoped(_, _) => 1
    case Neg(_) => 1
    case Group(c) => Width(c)
    case Disjoin(l, r) => Width(l) + Width(r)
    case Conjoin(l, _, r) => Width(l) * Width(r)
  }

  lemma {:induction false} WidthPositive(e: Expr)
    ensures Width(e) >= 1
  {
    match e
    case Filter(_) =>
    case Scoped(_, _) =>
    case Neg(_) =>
    case Group(c) => WidthPositive(c);
    case Disjoin(l, r) => WidthPositive(l);
    case Conjoin(l, _, r) =>
      WidthPositive(l);
      WidthPositive(r);
  }

  lemma UnionSize<T>(a: set<T>, b: set<T>)
    ensures |a + b| <= |a| + |b|
  {
    assert a + b == a + (b - a);
    SubsetSize(b - a, b);
  }

  lemma MeetsOfOne(a: Branch, right: set<Branch>)
    ensures |MeetAll({a}, right)| <= |right|
    decreases |right|
  {
    if right == {} {
      assert MeetAll({a}, right) == {};
    } else {
      var b :| b in right;
      var rest := right - {b};
      MeetsOfOne(a, rest);
      var one := if Compatible(a, b) then {Meet(a, b)} else {};
      assert MeetAll({a}, right) == MeetAll({a}, rest) + one by {
        assert forall x :: x in right <==> x in rest || x == b;
      }
      UnionSize(MeetAll({a}, rest), one);
    }
  }

  lemma MeetSplit(left: set<Branch>, rest: set<Branch>, a: Branch, right: set<Branch>)
    requires forall x :: x in left <==> x in rest || x == a
    ensures MeetAll(left, right) == MeetAll(rest, right) + MeetAll({a}, right)
  {
  }

  lemma {:induction false} MeetSize(left: set<Branch>, right: set<Branch>)
    ensures |MeetAll(left, right)| <= |left| * |right|
    decreases |left|
  {
    if left == {} {
      assert MeetAll(left, right) == {};
    } else {
      var a :| a in left;
      var rest := left - {a};
      MeetSize(rest, right);
      MeetsOfOne(a, right);
      MeetSplit(left, rest, a, right);
      UnionSize(MeetAll(rest, right), MeetAll({a}, right));
      assert |left| * |right| == |rest| * |right| + |right|;
    }
  }

  lemma ProductMonotone(a: nat, b: nat, c: nat, d: nat)
    requires a <= c && b <= d
    ensures a * b <= c * d
  {
    assert a * b <= c * b <= c * d;
  }

  /** The count bounds the alternatives of the whole and of every part. */
  lemma {:induction false} WidthBounds(e: Expr)
    ensures |Alternatives(e)| <= Width(e)
    ensures Width(e) <= 128 ==> Slim(e)
  {
    match e
    case Filter(_) =>
    case Scoped(field, _) =>
      match field {
        case IndexField =>
        case SourceField =>
      }
    case Neg(_) =>
    case Group(c) => WidthBounds(c);
    case Disjoin(l, r) =>
      WidthBounds(l);
      WidthBounds(r);
      UnionSize(Alternatives(l), Alternatives(r));
    case Conjoin(l, _, r) =>
      WidthBounds(l);
      WidthBounds(r);
      WidthPositive(l);
      WidthPositive(r);
      MeetSize(Alternatives(l), Alternatives(r));
      ProductMonotone(|Alternatives(l)|, |Alternatives(r)|, Width(l), Width(r));
      ProductMonotone(1, Width(r), Width(l), Width(r));
      ProductMonotone(Width(l), 1, Width(l), Width(r));
  }

  /** Every expression within the plain counts is accepted. */
  lemma NarrowIsAccepted(e: Expr)
    requires IsConj(e) && |Yield(e)| <= 2000 && Nesting(e) <= 32 && Width(e) <= 128 && Positive(e)
    ensures SourceBranches(Yield(e)) == Some(Alternatives(e))
  {
    WidthBounds(e);
    AcceptedExactly(e);
  }
}
