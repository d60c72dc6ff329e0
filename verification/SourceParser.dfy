/** The recursive-descent parser in the form the source has: a shared position that the parsing
    methods advance, and branch sets that grow in loops.
 */
module SourceParser {
  import opened Wrappers
  import opened Basics
  import opened SourceScope

  lemma MeetRight(a: Branch, done: set<Branch>, b: Branch)
    ensures MeetAll({a}, done + {b}) == MeetAll({a}, done) + if Compatible(a, b) then {Meet(a, b)} else {}
  {
  }

  lemma MeetMonotone(a: Branch, done: set<Branch>, right: set<Branch>)
    requires done <= right
    ensures MeetAll({a}, done) <= MeetAll({a}, right)
  {
  }

  /** The inner loop: one left branch against every right branch. */
  method MeetOne(a: Branch, right: set<Branch>, before: set<Branch>) returns (combined: set<Branch>, full: bool)
    requires |before| <= MAX_BRANCHES
    ensures full ==> |combined| > MAX_BRANCHES && combined <= before + MeetAll({a}, right)
    ensures !full ==> |combined| <= MAX_BRANCHES && combined == before + MeetAll({a}, right)
  {
    combined := before;
    var rest := right;
    ghost var done: set<Branch> := {};
    ghost var met: set<Branch> := {};
    while rest != {}
      invariant done + rest == right && met == MeetAll({a}, done) && combined == before + met
      invariant |combined| <= MAX_BRANCHES
      decreases |rest|
    {
      var b :| b in rest;
      MeetRight(a, done, b);
      rest := rest - {b};
      done := done + {b};
      met := met + if Compatible(a, b) then {Meet(a, b)} else {};
      if Compatible(a, b) {
        combined := combined + {Meet(a, b)};
        if |combined| > MAX_BRANCHES {
          MeetMonotone(a, done, right);
          return combined, true;
        }
      }
    }
    return combined, false;
  }

  /** The double loop over both branch sets, which gives up as soon as too many alternatives appear. */
  method MeetBranches(left: set<Branch>, right: set<Branch>) returns (r: Option<set<Branch>>)
    ensures r == Bounded(MeetAll(left, right))
  {
    var combined: set<Branch> := {};
    var todo := left;
    while todo != {}
      invariant todo <= left && combined == MeetAll(left - todo, right)
      invariant |combined| <= MAX_BRANCHES
      decreases |todo|
    {
      var a :| a in todo;
      assert left - (todo - {a}) == (left - todo) + {a};
      var full;
      combined, full := MeetOne(a, right, combined);
      if full {
        SubsetSize(combined, MeetAll(left, right));
        return None;
      }
      todo := todo - {a};
    }
    assert left - todo == left;
    return Some(combined);
  }

  class Parser {
    const tokens: seq<Token>
    var position: nat

    constructor (tokens: seq<Token>)
      ensures this.tokens == tokens && position == 0
    {
      this.tokens := tokens;
      position := 0;
    }

    /** The outcome of a parsing method and the position it leaves agree with the parsing function. */
    ghost predicate Agrees(expected: Parsed, r: Option<set<Branch>>)
      reads this
    {
      if expected.Fail? then r.None? else r == Some(expected.branches) && position == expected.next
    }

    method Atom(depth: nat) returns (r: Option<set<Branch>>)
      requires position <= |tokens|
      modifies this
      ensures position <= |tokens| && Agrees(ParseAtom(tokens, old(position), depth), r)
      decreases |tokens| - position, 0
    {
      if position >= |tokens| || depth > MAX_DEPTH {
        return None;
      }
      var token := tokens[position];
      position := position + 1;
      match token
      case Not =>
        var start := position;
        var inner := Atom(depth + 1);
        if inner.None? || AnyScope(tokens[start..position]) {
          return None;
        }
        return Some({UNBOUNDED});
      case Open =>
        var branches := Conjunction(depth + 1);
        if branches.None? || position >= |tokens| || tokens[position] != Close {
          return None;
        }
        position := position + 1;
        return branches;
      case Close => return None;
      case And => return None;
      case Or => return None;
      case Xor => return None;
      case Scope(field, value) => return Some({ScopeBranch(field, value)});
      case Other(_) => return Some({UNBOUNDED});
    }

    method Disjunction(depth: nat) returns (r: Option<set<Branch>>)
      requires position <= |tokens|
      modifies this
      ensures position <= |tokens| && Agrees(ParseDisj(tokens, old(position), depth), r)
      decreases |tokens| - position, 1
    {
      ghost var start := position;
      r := Atom(depth);
      if r.None? {
        return;
      }
      var branches := r.value;
      while position < |tokens| && tokens[position] == Or
        invariant start < position <= |tokens|
        invariant ParseDisj(tokens, start, depth) == MoreAtoms(tokens, position, depth, branches)
        decreases |tokens| - position
      {
        position := position + 1;
        var right := Atom(depth);
        if right.None? {
          return None;
        }
        branches := branches + right.value;
        if |branches| > MAX_BRANCHES {
          return None;
        }
      }
      return Some(branches);
    }

    method Conjunction(depth: nat) returns (r: Option<set<Branch>>)
      requires position <= |tokens|
      modifies this
      ensures position <= |tokens| && Agrees(ParseConj(tokens, old(position), depth), r)
      decreases |tokens| - position, 2
    {
      ghost var start := position;
      r := Disjunction(depth);
      if r.None? {
        return;
      }
      var branches := r.value;
      while position < |tokens| && tokens[position] != Close
        invariant start < position <= |tokens|
        invariant ParseConj(tokens, start, depth) == MoreDisjs(tokens, position, depth, branches)
        decreases |tokens| - position
      {
        if tokens[position] == And {
          position := position + 1;
        }
        var right := Disjunction(depth);
        if right.None? {
          return None;
        }
        var combined := MeetBranches(branches, right.value);
        if combined.None? {
          return None;
        }
        branches := combined.value;
      }
      return Some(branches);
    }
  }

  /** The whole analysis of one search expression. */
  method ParseBranches(tokens: seq<Token>) returns (r: Option<set<Branch>>)
    ensures r == SourceBranches(tokens)
  {
    if |tokens| > MAX_TOKENS {
      return None;
    }
    var parser := new Parser(tokens);
    var branches := parser.Conjunction(0);
    if branches.None? || parser.position != |tokens| {
      return None;
    }
    return branches;
  }
}
