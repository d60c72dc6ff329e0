/** Source-scope analysis of a search expression.

    A search expression is a sequence of tokens in which OR binds tighter than AND and adjacent
    terms are conjoined.  The analysis parses it and, while parsing, computes a set of
    (index, sourcetype) alternatives; a missing component means that it is unbounded.

    The reference meaning is given independently of the parser: `Expr` is a syntax tree, `Yield`
    its tokens, and `Eval` its truth on an event when an oracle decides every other filter.
 */
module SourceScope {
  import opened Wrappers

  const MAX_TOKENS := 2000
  const MAX_DEPTH := 32
  const MAX_BRANCHES := 128

  /** A scope value; the lexer only accepts non-empty ones. */
  type Name = s: string | |s| > 0 witness "a"

  datatype Field = IndexField | SourceField

  /** A mention of a scope field in the text of a token that is not itself an exact predicate. */
  datatype Mention = Exact(field: Field, value: Name) | Inexact(field: Field)

  datatype Token =
    | Open | Close | Not | And | Or | Xor
    | Scope(field: Field, value: Name)
    | Other(mentions: seq<Mention>)

  /** One alternative of the analysis: `None` leaves the component unbounded. */
  datatype Branch = Branch(index: Option<Name>, source: Option<Name>)

  const UNBOUNDED := Branch(None, None)

  datatype Event = Event(index: Name, source: Name)

  predicate Fits<T(==)>(bound: Option<T>, value: T) {
    bound.None? || bound.value == value
  }

  predicate Matches(b: Branch, ev: Event) {
    Fits(b.index, ev.index) && Fits(b.source, ev.source)
  }

  ghost predicate Covers(bs: set<Branch>, ev: Event) {
    exists b :: b in bs && Matches(b, ev)
  }

  function ScopeBranch(field: Field, value: Name): Branch {
    if field.IndexField? then Branch(Some(value), None) else Branch(None, Some(value))
  }

  predicate Clash<T(==)>(a: Option<T>, b: Option<T>) {
    a.Some? && b.Some? && a != b
  }

  predicate Compatible(a: Branch, b: Branch) {
    !Clash(a.index, b.index) && !Clash(a.source, b.source)
  }

  function Meet(a: Branch, b: Branch): Branch {
    Branch(if a.index.Some? then a.index else b.index, if a.source.Some? then a.source else b.source)
  }

  function MeetAll(left: set<Branch>, right: set<Branch>): set<Branch> {
    set a, b | a in left && b in right && Compatible(a, b) :: Meet(a, b)
  }

  // ----- Reference syntax and meaning -----

  datatype Expr =
    | Filter(mentions: seq<Mention>)
    | Scoped(field: Field, value: Name)
    | Neg(e: Expr)
    | Group(e: Expr)
    | Disjoin(left: Expr, right: Expr)
    | Conjoin(left: Expr, explicit: bool, right: Expr)

  /** The precedence levels: a disjunction joins atoms and a conjunction joins disjunctions. */
  predicate IsAtom(e: Expr)
    decreases e, 0
  {
    match e
    case Filter(_) => true
    case Scoped(_, _) => true
    case Neg(a) => IsAtom(a)
    case Group(c) => IsConj(c)
    case Disjoin(_, _) => false
    case Conjoin(_, _, _) => false
  }

  predicate IsDisj(e: Expr)
    decreases e, 1
  {
    if e.Disjoin? then IsDisj(e.left) && IsAtom(e.right) else IsAtom(e)
  }

  predicate IsConj(e: Expr)
    decreases e, 2
  {
    if e.Conjoin? then IsConj(e.left) && IsDisj(e.right) else IsDisj(e)
  }

  function Joint(explicit: bool): seq<Token> {
    if explicit then [And] else []
  }

  function Yield(e: Expr): (ts: seq<Token>)
    ensures |ts| > 0
  {
    match e
    case Filter(mentions) => [Other(mentions)]
    case Scoped(field, value) => [Scope(field, value)]
    case Neg(a) => [Not] + Yield(a)
    case Group(c) => [Open] + Yield(c) + [Close]
    case Disjoin(l, r) => Yield(l) + [Or] + Yield(r)
    case Conjoin(l, x, r) => Yield(l) + Joint(x) + Yield(r)
  }

  /** Truth of the expression on an event; `oracle[i]` decides the filter at token `i`. */
  predicate Eval(e: Expr, oracle: seq<bool>, ev: Event)
    requires |oracle| == |Yield(e)|
  {
    match e
    case Filter(_) => oracle[0]
    case Scoped(field, value) => value == if field.IndexField? then ev.index else ev.source
    case Neg(a) => !Eval(a, oracle[1..], ev)
    case Group(c) => Eval(c, oracle[1..|oracle| - 1], ev)
    case Disjoin(l, r) =>
      var n := |Yield(l)|;
      Eval(l, oracle[..n], ev) || Eval(r, oracle[n + 1..], ev)
    case Conjoin(l, x, r) =>
      var n := |Yield(l)|;
      Eval(l, oracle[..n], ev) && Eval(r, oracle[n + |Joint(x)|..], ev)
  }

  predicate HasScope(e: Expr) {
    match e
    case Filter(_) => false
    case Scoped(_, _) => true
    case Neg(a) => HasScope(a)
    case Group(c) => HasScope(c)
    case Disjoin(l, r) => HasScope(l) || HasScope(r)
    case Conjoin(l, _, r) => HasScope(l) || HasScope(r)
  }

  function Bounded(bs: set<Branch>): Option<set<Branch>> {
    if |bs| > MAX_BRANCHES then None else Some(bs)
  }

  function JoinBoth(a: Option<set<Branch>>, b: Option<set<Branch>>): Option<set<Branch>> {
    if a.None? || b.None? then None else Bounded(a.value + b.value)
  }

  function MeetBoth(a: Option<set<Branch>>, b: Option<set<Branch>>): Option<set<Branch>> {
    if a.None? || b.None? then None else Bounded(MeetAll(a.value, b.value))
  }

  /** The alternatives of a tree: its denotation, or `None` where a limit or a negated scope rejects it. */
  function Analyze(e: Expr, depth: nat): Option<set<Branch>> {
    match e
    case Filter(_) => if depth > MAX_DEPTH then None else Some({UNBOUNDED})
    case Scoped(field, value) => if depth > MAX_DEPTH then None else Some({ScopeBranch(field, value)})
    case Neg(a) =>
      if depth > MAX_DEPTH || Analyze(a, depth + 1).None? || HasScope(a) then None else Some({UNBOUNDED})
    case Group(c) => if depth > MAX_DEPTH then None else Analyze(c, depth + 1)
    case Disjoin(l, r) =>
      JoinBoth(Analyze(l, depth), Analyze(r, depth))
    case Conjoin(l, _, r) =>
      MeetBoth(Analyze(l, depth), Analyze(r, depth))
  }

  // ----- Soundness and exactness of the alternatives -----

  lemma MeetCovers(left: set<Branch>, right: set<Branch>, ev: Event)
    ensures Covers(MeetAll(left, right), ev) <==> Covers(left, ev) && Covers(right, ev)
  {
    if Covers(left, ev) && Covers(right, ev) {
      var a :| a in left && Matches(a, ev);
      var b :| b in right && Matches(b, ev);
      assert Meet(a, b) in MeetAll(left, right) && Matches(Meet(a, b), ev);
    }
    if Covers(MeetAll(left, right), ev) {
      var m :| m in MeetAll(left, right) && Matches(m, ev);
      var a, b :| a in left && b in right && Compatible(a, b) && m == Meet(a, b);
      assert Matches(a, ev) && Matches(b, ev);
    }
  }

  /** Whatever the other filters decide, a matched event lies in some alternative. */
  lemma {:induction false} AnalysisSound(e: Expr, depth: nat, oracle: seq<bool>, ev: Event)
    requires Analyze(e, depth).Some?
    requires |oracle| == |Yield(e)| && Eval(e, oracle, ev)
    ensures Covers(Analyze(e, depth).value, ev)
  {
    var bs := Analyze(e, depth).value;
    match e
    case Filter(_) => assert UNBOUNDED in bs && Matches(UNBOUNDED, ev);
    case Scoped(field, value) => assert ScopeBranch(field, value) in bs && Matches(ScopeBranch(field, value), ev);
    case Neg(_) => assert UNBOUNDED in bs && Matches(UNBOUNDED, ev);
    case Group(c) => AnalysisSound(c, depth + 1, oracle[1..|oracle| - 1], ev);
    case Disjoin(l, r) =>
      var n := |Yield(l)|;
      if Eval(l, oracle[..n], ev) {
        AnalysisSound(l, depth, oracle[..n], ev);
      } else {
        AnalysisSound(r, depth, oracle[n + 1..], ev);
      }
    case Conjoin(l, x, r) =>
      var n := |Yield(l)|;
      AnalysisSound(l, depth, oracle[..n], ev);
      AnalysisSound(r, depth, oracle[n + |Joint(x)|..], ev);
      MeetCovers(Analyze(l, depth).value, Analyze(r, depth).value, ev);
  }

  /** The oracle that decides every filter in favour of the wanted truth value. */
  function Favourable(e: Expr, want: bool): (oracle: seq<bool>)
    ensures |oracle| == |Yield(e)|
  {
    match e
    case Filter(_) => [want]
    case Scoped(_, _) => [want]
    case Neg(a) => [want] + Favourable(a, !want)
    case Group(c) => [want] + Favourable(c, want) + [want]
    case Disjoin(l, r) => Favourable(l, want) + [want] + Favourable(r, want)
    case Conjoin(l, x, r) => Favourable(l, want) + (if x then [want] else []) + Favourable(r, want)
  }

  lemma FavourableSplits(e: Expr, want: bool)
    ensures e.Neg? ==> Favourable(e, want)[1..] == Favourable(e.e, !want)
    ensures e.Group? ==> var o := Favourable(e, want); o[1..|o| - 1] == Favourable(e.e, want)
    ensures e.Disjoin? ==> var o, n := Favourable(e, want), |Yield(e.left)|;
                           o[..n] == Favourable(e.left, want) && o[n + 1..] == Favourable(e.right, want)
    ensures e.Conjoin? ==> var o, n := Favourable(e, want), |Yield(e.left)|;
                           o[..n] == Favourable(e.left, want)
                           && o[n + |Joint(e.explicit)|..] == Favourable(e.right, want)
  {
  }

  /** Every expression without scope predicates can be made true and can be made false. */
  lemma {:induction false} ScopeFreeIsFree(e: Expr, want: bool, ev: Event)
    requires !HasScope(e)
    ensures Eval(e, Favourable(e, want), ev) == want
  {
    FavourableSplits(e, want);
    match e
    case Filter(_) =>
    case Neg(a) => ScopeFreeIsFree(a, !want, ev);
    case Group(c) => ScopeFreeIsFree(c, want, ev);
    case Disjoin(l, r) => ScopeFreeIsFree(l, want, ev); ScopeFreeIsFree(r, want, ev);
    case Conjoin(l, _, r) => ScopeFreeIsFree(l, want, ev); ScopeFreeIsFree(r, want, ev);
  }

  /** Every event of every alternative is matched under the favourable oracle. */
  lemma {:induction false} AnalysisExact(e: Expr, depth: nat, ev: Event)
    requires Analyze(e, depth).Some? && Covers(Analyze(e, depth).value, ev)
    ensures Eval(e, Favourable(e, true), ev)
  {
    FavourableSplits(e, true);
    match e
    case Filter(_) =>
    case Scoped(field, value) =>
      var b :| b in Analyze(e, depth).value && Matches(b, ev);
      assert b == ScopeBranch(field, value);
    case Neg(a) => ScopeFreeIsFree(a, false, ev);
    case Group(c) => AnalysisExact(c, depth + 1, ev);
    case Disjoin(l, r) =>
      if Covers(Analyze(l, depth).value, ev) {
        AnalysisExact(l, depth, ev);
      } else {
        AnalysisExact(r, depth, ev);
      }
    case Conjoin(l, _, r) =>
      MeetCovers(Analyze(l, depth).value, Analyze(r, depth).value, ev);
      AnalysisExact(l, depth, ev);
      AnalysisExact(r, depth, ev);
  }

  // ----- The parser, as a function of the token position -----

  datatype Parsed = Fail | Ok(branches: set<Branch>, next: nat)

  predicate AnyScope(ts: seq<Token>) {
    exists t :: t in ts && t.Scope?
  }

  function ParseAtom(ts: seq<Token>, pos: nat, depth: nat): (r: Parsed)
    requires pos <= |ts|
    ensures r.Ok? ==> pos < r.next <= |ts|
    decreases |ts| - pos, 0
  {
    if pos == |ts| || depth > MAX_DEPTH then Fail else
      match ts[pos]
      case Not =>
        var inner := ParseAtom(ts, pos + 1, depth + 1);
        if inner.Fail? || AnyScope(ts[pos + 1..inner.next]) then Fail else Ok({UNBOUNDED}, inner.next)
      case Open =>
        var inner := ParseConj(ts, pos + 1, depth + 1);
        if inner.Fail? || inner.next == |ts| || ts[inner.next] != Close then Fail
        else Ok(inner.branches, inner.next + 1)
      case Close => Fail
      case And => Fail
      case Or => Fail
      case Xor => Fail
      case Scope(field, value) => Ok({ScopeBranch(field, value)}, pos + 1)
      case Other(_) => Ok({UNBOUNDED}, pos + 1)
  }

  function ParseDisj(ts: seq<Token>, pos: nat, depth: nat): (r: Parsed)
    requires pos <= |ts|
    ensures r.Ok? ==> pos < r.next <= |ts|
    decreases |ts| - pos, 2
  {
    var first := ParseAtom(ts, pos, depth);
    if first.Fail? then Fail else MoreAtoms(ts, first.next, depth, first.branches)
  }

  function MoreAtoms(ts: seq<Token>, pos: nat, depth: nat, branches: set<Branch>): (r: Parsed)
    requires pos <= |ts|
    ensures r.Ok? ==> pos <= r.next <= |ts|
    decreases |ts| - pos, 1
  {
    if pos == |ts| || ts[pos] != Or then Ok(branches, pos) else
      var right := ParseAtom(ts, pos + 1, depth);
      if right.Fail? || |branches + right.branches| > MAX_BRANCHES then Fail
      else MoreAtoms(ts, right.next, depth, branches + right.branches)
  }

  function ParseConj(ts: seq<Token>, pos: nat, depth: nat): (r: Parsed)
    requires pos <= |ts|
    ensures r.Ok? ==> pos < r.next <= |ts|
    decreases |ts| - pos, 4
  {
    var first := ParseDisj(ts, pos, depth);
    if first.Fail? then Fail else MoreDisjs(ts, first.next, depth, first.branches)
  }

  function AfterAnd(ts: seq<Token>, pos: nat): (next: nat)
    requires pos < |ts|
    ensures pos <= next <= |ts|
  {
    if ts[pos] == And then pos + 1 else pos
  }

  function MoreDisjs(ts: seq<Token>, pos: nat, depth: nat, branches: set<Branch>): (r: Parsed)
    requires pos <= |ts|
    ensures r.Ok? ==> pos <= r.next <= |ts|
    decreases |ts| - pos, 3
  {
    if pos == |ts| || ts[pos] == Close then Ok(branches, pos) else
      var right := ParseDisj(ts, AfterAnd(ts, pos), depth);
      if right.Fail? || |MeetAll(branches, right.branches)| > MAX_BRANCHES then Fail
      else MoreDisjs(ts, right.next, depth, MeetAll(branches, right.branches))
  }

  /** The alternatives of a whole token sequence, or `None` where the source raises. */
  function SourceBranches(ts: seq<Token>): Option<set<Branch>> {
    if |ts| > MAX_TOKENS then None else
      var r := ParseConj(ts, 0, 0);
      if r.Fail? || r.next != |ts| then None else Some(r.branches)
  }

  // ----- The parser agrees with the analysis of the tree -----

  predicate Span(ts: seq<Token>, pos: nat, end: nat, part: seq<Token>) {
    pos <= end <= |ts| && ts[pos..end] == part
  }

  lemma SpanConcat(ts: seq<Token>, pos: nat, end: nat, a: seq<Token>, b: seq<Token>)
    requires Span(ts, pos, end, a + b)
    ensures Span(ts, pos, pos + |a|, a) && Span(ts, pos + |a|, end, b)
  {
    var all := ts[pos..end];
    assert ts[pos..pos + |a|] == all[..|a|] == a;
    assert ts[pos + |a|..end] == all[|a|..] == b;
  }

  lemma SpanFirst(ts: seq<Token>, pos: nat, end: nat, part: seq<Token>)
    requires Span(ts, pos, end, part) && |part| > 0
    ensures pos < end && ts[pos] == part[0]
  {
    assert ts[pos..end][0] == ts[pos];
  }

  lemma {:induction false} YieldScopes(e: Expr)
    ensures HasScope(e) <==> AnyScope(Yield(e))
  {
    match e
    case Filter(_) =>
    case Scoped(_, _) => assert Yield(e)[0].Scope?;
    case Neg(a) => YieldScopes(a); ConcatScopes([Not], Yield(a), []);
    case Group(c) => YieldScopes(c); ConcatScopes([Open], Yield(c), [Close]);
    case Disjoin(l, r) => YieldScopes(l); YieldScopes(r); ConcatScopes(Yield(l), [Or], Yield(r));
    case Conjoin(l, x, r) => YieldScopes(l); YieldScopes(r); ConcatScopes(Yield(l), Joint(x), Yield(r));
  }

  lemma ConcatScopes(a: seq<Token>, b: seq<Token>, c: seq<Token>)
    ensures AnyScope(a + b + c) <==> AnyScope(a) || AnyScope(b) || AnyScope(c)
    ensures AnyScope(a + b) <==> AnyScope(a) || AnyScope(b)
  {
    assert forall t :: t in a + b + c <==> t in a || t in b || t in c;
    assert forall t :: t in a + b <==> t in a || t in b;
  }

  function Lift(a: Option<set<Branch>>, next: nat): Parsed {
    if a.None? then Fail else Ok(a.value, next)
  }

  lemma NegStep(ts: seq<Token>, pos: nat, end: nat, depth: nat, a: Option<set<Branch>>)
    requires pos < end <= |ts| && ts[pos] == Not
    requires ParseAtom(ts, pos + 1, depth + 1) == Lift(a, end)
    ensures ParseAtom(ts, pos, depth) ==
            if depth > MAX_DEPTH || a.None? || AnyScope(ts[pos + 1..end]) then Fail else Ok({UNBOUNDED}, end)
  {
  }

  lemma GroupStep(ts: seq<Token>, pos: nat, end: nat, depth: nat, a: Option<set<Branch>>)
    requires pos < end < |ts| && ts[pos] == Open && ts[end] == Close
    requires ParseConj(ts, pos + 1, depth + 1) == if a.None? then Fail else MoreDisjs(ts, end, depth + 1, a.value)
    ensures ParseAtom(ts, pos, depth) == if depth > MAX_DEPTH then Fail else Lift(a, end + 1)
  {
  }

  lemma DisjStep(ts: seq<Token>, pos: nat, mid: nat, end: nat, depth: nat,
                 a: Option<set<Branch>>, b: Option<set<Branch>>)
    requires pos <= mid < |ts| && ts[mid] == Or && end <= |ts|
    requires ParseDisj(ts, pos, depth) == if a.None? then Fail else MoreAtoms(ts, mid, depth, a.value)
    requires ParseAtom(ts, mid + 1, depth) == Lift(b, end)
    ensures var c := JoinBoth(a, b);
            ParseDisj(ts, pos, depth) == if c.None? then Fail else MoreAtoms(ts, end, depth, c.value)
  {
  }

  lemma ConjStep(ts: seq<Token>, pos: nat, mid: nat, end: nat, depth: nat,
                 a: Option<set<Branch>>, b: Option<set<Branch>>)
    requires pos <= mid < |ts| && ts[mid] != Close && end <= |ts| && (end < |ts| ==> ts[end] != Or)
    requires ParseConj(ts, pos, depth) == if a.None? then Fail else MoreDisjs(ts, mid, depth, a.value)
    requires ParseDisj(ts, AfterAnd(ts, mid), depth) == if b.None? then Fail else MoreAtoms(ts, end, depth, b.value)
    ensures var c := MeetBoth(a, b);
            ParseConj(ts, pos, depth) == if c.None? then Fail else MoreDisjs(ts, end, depth, c.value)
  {
  }

  lemma DisjStart(e: Expr)
    requires IsDisj(e)
    ensures Yield(e)[0] !in {And, Or, Close}
  {
    if e.Disjoin? {
      DisjStart(e.left);
    }
  }

  /** Where the operands of an infix expression lie. */
  lemma InfixSpan(ts: seq<Token>, pos: nat, end: nat, left: seq<Token>, op: seq<Token>, right: seq<Token>)
    requires Span(ts, pos, end, left + op + right) && |right| > 0
    ensures var mid, start := pos + |left|, pos + |left| + |op|;
            Span(ts, pos, mid, left) && Span(ts, mid, start, op) && Span(ts, start, end, right)
            && mid < |ts| && ts[mid] == if op == [] then right[0] else op[0]
  {
    SpanConcat(ts, pos, end, left + op, right);
    SpanConcat(ts, pos, pos + |left + op|, left, op);
    SpanFirst(ts, pos + |left + op|, end, right);
    if op != [] {
      SpanFirst(ts, pos + |left|, pos + |left + op|, op);
    }
  }

  lemma {:induction false} AtomAgrees(e: Expr, ts: seq<Token>, pos: nat, end: nat, depth: nat)
    requires IsAtom(e) && Span(ts, pos, end, Yield(e))
    ensures ParseAtom(ts, pos, depth) == Lift(Analyze(e, depth), end)
    decreases e, 0
  {
    SpanFirst(ts, pos, end, Yield(e));
    match e
    case Filter(_) =>
    case Scoped(_, _) =>
    case Neg(a) =>
      SpanConcat(ts, pos, end, [Not], Yield(a));
      AtomAgrees(a, ts, pos + 1, end, depth + 1);
      YieldScopes(a);
      NegStep(ts, pos, end, depth, Analyze(a, depth + 1));
    case Group(c) => GroupAgrees(c, ts, pos, end, depth);
  }

  lemma {:induction false} GroupAgrees(c: Expr, ts: seq<Token>, pos: nat, end: nat, depth: nat)
    requires IsConj(c) && Span(ts, pos, end, [Open] + Yield(c) + [Close])
    ensures ParseAtom(ts, pos, depth) == if depth > MAX_DEPTH then Fail else Lift(Analyze(c, depth + 1), end)
    decreases c, 3
  {
    InfixSpan(ts, pos, end, [Open], Yield(c), [Close]);
    SpanFirst(ts, pos, pos + 1, [Open]);
    SpanFirst(ts, end - 1, end, [Close]);
    ConjAgrees(c, ts, pos + 1, end - 1, depth + 1);
    GroupStep(ts, pos, end - 1, depth, Analyze(c, depth + 1));
  }

  lemma {:induction false} DisjAgrees(e: Expr, ts: seq<Token>, pos: nat, end: nat, depth: nat)
    requires IsDisj(e) && Span(ts, pos, end, Yield(e))
    ensures var a := Analyze(e, depth);
            ParseDisj(ts, pos, depth) == if a.None? then Fail else MoreAtoms(ts, end, depth, a.value)
    decreases e, 1
  {
    if e.Disjoin? {
      var l, r := e.left, e.right;
      InfixSpan(ts, pos, end, Yield(l), [Or], Yield(r));
      var mid := pos + |Yield(l)|;
      DisjAgrees(l, ts, pos, mid, depth);
      AtomAgrees(r, ts, mid + 1, end, depth);
      DisjStep(ts, pos, mid, end, depth, Analyze(l, depth), Analyze(r, depth));
    } else {
      AtomAgrees(e, ts, pos, end, depth);
    }
  }

  lemma {:induction false} ConjAgrees(e: Expr, ts: seq<Token>, pos: nat, end: nat, depth: nat)
    requires IsConj(e) && Span(ts, pos, end, Yield(e)) && (end < |ts| ==> ts[end] != Or)
    ensures var a := Analyze(e, depth);
            ParseConj(ts, pos, depth) == if a.None? then Fail else MoreDisjs(ts, end, depth, a.value)
    decreases e, 2
  {
    if e.Conjoin? {
      var l, r := e.left, e.right;
      InfixSpan(ts, pos, end, Yield(l), Joint(e.explicit), Yield(r));
      DisjStart(r);
      var mid := pos + |Yield(l)|;
      ConjAgrees(l, ts, pos, mid, depth);
      DisjAgrees(r, ts, AfterAnd(ts, mid), end, depth);
      ConjStep(ts, pos, mid, end, depth, Analyze(l, depth), Analyze(r, depth));
    } else {
      DisjAgrees(e, ts, pos, end, depth);
    }
  }

  // ----- Every accepted sequence is the yield of a tree -----

  lemma Pieces(ts: seq<Token>, a: nat, b: nat, c: nat, d: nat)
    requires a <= b <= c <= d <= |ts|
    ensures ts[a..d] == ts[a..b] + ts[b..c] + ts[c..d]
  {
  }

  lemma OrYield(ts: seq<Token>, start: nat, pos: nat, end: nat, left: Expr, right: Expr)
    requires start <= pos < end <= |ts| && ts[pos] == Or
    requires Yield(left) == ts[start..pos] && Yield(right) == ts[pos + 1..end]
    ensures Yield(Disjoin(left, right)) == ts[start..end]
  {
    Pieces(ts, start, pos, pos + 1, end);
  }

  lemma AndYield(ts: seq<Token>, start: nat, pos: nat, end: nat, left: Expr, right: Expr)
    requires start <= pos < |ts| && AfterAnd(ts, pos) <= end <= |ts|
    requires Yield(left) == ts[start..pos] && Yield(right) == ts[AfterAnd(ts, pos)..end]
    ensures Yield(Conjoin(left, ts[pos] == And, right)) == ts[start..end]
  {
    Pieces(ts, start, pos, AfterAnd(ts, pos), end);
  }

  lemma NegYield(ts: seq<Token>, pos: nat, end: nat, a: Expr)
    requires pos < end <= |ts| && ts[pos] == Not && Yield(a) == ts[pos + 1..end]
    ensures Yield(Neg(a)) == ts[pos..end]
  {
    assert ts[pos..end] == [ts[pos]] + ts[pos + 1..end];
  }

  lemma GroupYield(ts: seq<Token>, pos: nat, end: nat, c: Expr)
    requires pos < end < |ts| && ts[pos] == Open && ts[end] == Close && Yield(c) == ts[pos + 1..end]
    ensures Yield(Group(c)) == ts[pos..end + 1]
  {
    assert ts[pos..end + 1] == [ts[pos]] + ts[pos + 1..end] + [ts[end]];
  }

  lemma {:induction false} AtomTree(ts: seq<Token>, pos: nat, depth: nat) returns (e: Expr)
    requires pos <= |ts| && ParseAtom(ts, pos, depth).Ok?
    ensures IsAtom(e) && Yield(e) == ts[pos..ParseAtom(ts, pos, depth).next]
    decreases |ts| - pos, 0
  {
    match ts[pos]
    case Not =>
      var a := AtomTree(ts, pos + 1, depth + 1);
      NegYield(ts, pos, ParseAtom(ts, pos + 1, depth + 1).next, a);
      e := Neg(a);
    case Open =>
      var c := ConjTree(ts, pos + 1, depth + 1);
      GroupYield(ts, pos, ParseConj(ts, pos + 1, depth + 1).next, c);
      e := Group(c);
    case Scope(field, value) =>
      assert ts[pos..pos + 1] == [ts[pos]];
      e := Scoped(field, value);
    case Other(mentions) =>
      assert ts[pos..pos + 1] == [ts[pos]];
      e := Filter(mentions);
  }

  lemma {:induction false} DisjTree(ts: seq<Token>, pos: nat, depth: nat) returns (e: Expr)
    requires pos <= |ts| && ParseDisj(ts, pos, depth).Ok?
    ensures IsDisj(e) && Yield(e) == ts[pos..ParseDisj(ts, pos, depth).next]
    decreases |ts| - pos, 2
  {
    var first := ParseAtom(ts, pos, depth);
    var a := AtomTree(ts, pos, depth);
    e := AtomsTree(ts, pos, first.next, depth, first.branches, a);
  }

  lemma {:induction false} AtomsTree(ts: seq<Token>, start: nat, pos: nat, depth: nat, bs: set<Branch>, left: Expr)
    returns (e: Expr)
    requires start < pos <= |ts| && MoreAtoms(ts, pos, depth, bs).Ok?
    requires IsDisj(left) && Yield(left) == ts[start..pos]
    ensures IsDisj(e) && Yield(e) == ts[start..MoreAtoms(ts, pos, depth, bs).next]
    decreases |ts| - pos, 1
  {
    if pos == |ts| || ts[pos] != Or {
      e := left;
    } else {
      var right := ParseAtom(ts, pos + 1, depth);
      var a := AtomTree(ts, pos + 1, depth);
      OrYield(ts, start, pos, right.next, left, a);
      e := AtomsTree(ts, start, right.next, depth, bs + right.branches, Disjoin(left, a));
    }
  }

  lemma {:induction false} ConjTree(ts: seq<Token>, pos: nat, depth: nat) returns (e: Expr)
    requires pos <= |ts| && ParseConj(ts, pos, depth).Ok?
    ensures IsConj(e) && Yield(e) == ts[pos..ParseConj(ts, pos, depth).next]
    decreases |ts| - pos, 4
  {
    var first := ParseDisj(ts, pos, depth);
    var d := DisjTree(ts, pos, depth);
    e := DisjsTree(ts, pos, first.next, depth, first.branches, d);
  }

  lemma {:induction false} DisjsTree(ts: seq<Token>, start: nat, pos: nat, depth: nat, bs: set<Branch>, left: Expr)
    returns (e: Expr)
    requires start < pos <= |ts| && MoreDisjs(ts, pos, depth, bs).Ok?
    requires IsConj(left) && Yield(left) == ts[start..pos]
    ensures IsConj(e) && Yield(e) == ts[start..MoreDisjs(ts, pos, depth, bs).next]
    decreases |ts| - pos, 3
  {
    if pos == |ts| || ts[pos] == Close {
      e := left;
    } else {
      var mid := AfterAnd(ts, pos);
      var right := ParseDisj(ts, mid, depth);
      var d := DisjTree(ts, mid, depth);
      AndYield(ts, start, pos, right.next, left, d);
      e := DisjsTree(ts, start, right.next, depth, MeetAll(bs, right.branches), Conjoin(left, ts[pos] == And, d));
    }
  }

  // ----- Theorems about whole expressions -----

  /** On the yield of any tree the parser computes exactly the analysis of that tree. */
  lemma ParserAgrees(e: Expr)
    requires IsConj(e)
    ensures SourceBranches(Yield(e)) == if |Yield(e)| > MAX_TOKENS then None else Analyze(e, 0)
  {
    var ts := Yield(e);
    assert ts[0..|ts|] == ts;
    ConjAgrees(e, ts, 0, |ts|, 0);
  }

  /** Every accepted token sequence has a tree. */
  lemma AcceptedHasTree(ts: seq<Token>) returns (e: Expr)
    requires SourceBranches(ts).Some?
    ensures IsConj(e) && Yield(e) == ts
  {
    e := ConjTree(ts, 0, 0);
    assert ts[0..|ts|] == ts;
  }

  /** An event is matched by some reading of the other filters. */
  ghost predicate Satisfiable(e: Expr, ev: Event) {
    exists oracle: seq<bool> :: |oracle| == |Yield(e)| && Eval(e, oracle, ev)
  }

  /** The returned alternatives cover exactly the events that the expression can match;
      in particular an empty result means that nothing can match. */
  lemma BranchesAreExact(e: Expr, ev: Event)
    requires IsConj(e) && SourceBranches(Yield(e)).Some?
    ensures Covers(SourceBranches(Yield(e)).value, ev) <==> Satisfiable(e, ev)
  {
    ParserAgrees(e);
    if oracle: seq<bool> :| |oracle| == |Yield(e)| && Eval(e, oracle, ev) {
      AnalysisSound(e, 0, oracle, ev);
    }
    if Covers(SourceBranches(Yield(e)).value, ev) {
      AnalysisExact(e, 0, ev);
    }
  }
}
