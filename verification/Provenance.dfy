/** The normaliser that keeps native provenance in raw searches, and what the commands of the normalised pipeline do to
    a row.  Both are given the arguments as written: the normaliser reads words, the commands read tokens.
 */
module Provenance {
  import opened Wrappers
  import opened SourceScope
  import opened Wildcards
  import opened Arguments
  import opened Renames

  const SOURCE_FIELDS: seq<string> := ["index", "sourcetype", "_time", "_cd"]

  /** One command of a pipeline. */
  datatype Segment =
    | Search(tokens: seq<Token>)
    | Fields(drop: bool, args: seq<Lexeme>)
    | Table(args: seq<Lexeme>)
    | Evaluate(args: seq<Lexeme>)
    | Rename(args: seq<Lexeme>)
    | Aggregate
    | Keep

  predicate Selected(names: seq<string>, f: string) {
    exists n :: n in names && Glob(f, n)
  }

  // ----- What the normaliser reads -----

  const BREAKS: set<char> := {' ', ','}

  function Words(args: seq<Lexeme>): seq<string> {
    WordsAfter(BREAKS, "", AsWritten(args))
  }

  /** The field is taken for selected by a projection. */
  predicate IsWord(args: seq<Lexeme>, f: string) {
    exists w :: w in Words(args) && Stripped(w) == f
  }

  function Trimmed(marks: set<char>, s: string): string {
    if s != "" && s[0] in marks then Trimmed(marks, s[1..]) else s
  }

  /** The field is taken for removed by `fields -`. */
  predicate IsRemovedWord(args: seq<Lexeme>, f: string) {
    exists w :: w in Words(args) && w != "-" && Glob(f, Stripped(Trimmed({'-'}, w)))
  }

  function Unquoted(s: string): string {
    if s != "" && IsQuote(s[0]) then s[1..] else s
  }

  /** The text begins with an assignment to the field, which may be quoted. */
  predicate Assigns(s: string, f: string) {
    var t := Unquoted(Trimmed({' '}, s));
    f <= t && "=" <= Trimmed({' '}, Unquoted(t[|f|..]))
  }

  /** The field is found as the target of an assignment, at the start or after a comma.  Such a match holds no other
      comma, so that matches do not hide one another. */
  predicate IsAssigned(args: seq<Lexeme>, f: string) {
    var text := AsWritten(args);
    exists i :: 0 <= i <= |text| && (i == 0 || text[i - 1] == ',') && Assigns(text[i..], f)
  }

  predicate Mentions(pairs: seq<(string, string)>, field: string) {
    exists p :: p in pairs && (Glob(field, p.0) || Glob(field, p.1))
  }

  /** Whether the normaliser finds that a command removes or overwrites the field. */
  predicate Modifies(s: Segment, field: string) {
    match s
    case Fields(drop, args) => drop && IsRemovedWord(args, field)
    case Evaluate(args) => IsAssigned(args, field)
    case Rename(args) => Mentions(Seen(args), field)
    case _ => false
  }

  /** The wanted fields that are not words of the arguments, each set apart. */
  function Missing(args: seq<Lexeme>, wanted: seq<string>): seq<Lexeme> {
    if wanted == [] then []
    else (if IsWord(args, wanted[0]) then [] else [Lexeme(wanted[0], true)]) + Missing(args, wanted[1..])
  }

  function Preserved(s: Segment): Option<Segment> {
    if exists f :: f in SOURCE_FIELDS && Modifies(s, f) then None
    else match s
      case Fields(false, args) => Some(Fields(false, args + Missing(args, SOURCE_FIELDS)))
      case Table(args) => Some(Table(args + Missing(args, SOURCE_FIELDS)))
      case _ => Some(s)
  }

  predicate Aggregates(segments: seq<Segment>) {
    Aggregate in segments
  }

  ghost predicate AllPreserved(segments: seq<Segment>, out: seq<Segment>) {
    |out| == |segments| && forall i :: 0 <= i < |segments| ==> Preserved(segments[i]) == Some(out[i])
  }

  ghost predicate SomeModified(segments: seq<Segment>) {
    exists s :: s in segments && Preserved(s).None?
  }

  method PreserveRawSourceFields(segments: seq<Segment>) returns (r: Option<seq<Segment>>)
    ensures (exists s :: s in segments && s.Aggregate?) ==> r == Some(segments)
    ensures (forall s :: s in segments ==> !s.Aggregate?) && r.Some? ==> AllPreserved(segments, r.value)
    ensures (forall s :: s in segments ==> !s.Aggregate?) && r.None? ==> SomeModified(segments)
  {
    if Aggregates(segments) {
      return Some(segments);
    }
    var out: seq<Segment> := [];
    for i := 0 to |segments|
      invariant |out| == i && forall k :: 0 <= k < i ==> Preserved(segments[k]) == Some(out[k])
    {
      var next := Preserved(segments[i]);
      if next.None? {
        return None;
      }
      out := out + [next.value];
    }
    return Some(out);
  }

  // ----- What the commands read -----

  const PUNCTUATION: set<string> := {",", "+", "-", "(", ")"}

  /** The name of one token of a field list, if it is one. */
  function ListedName(l: Lexeme): seq<string> {
    if l.text in PUNCTUATION then []
    else
      var name := NameOf(Trimmed({'+', '-'}, l.text));
      if name.Some? then [name.value] else []
  }

  /** The names of a field list, which may be patterns. */
  function Names(args: seq<Lexeme>): seq<string> {
    if args == [] then [] else ListedName(args[0]) + Names(args[1..])
  }

  function Opened(l: Lexeme): int {
    if l.text == "(" then 1 else if l.text == ")" then -1 else 0
  }

  /** The parentheses open before token `j`. */
  function Depth(args: seq<Lexeme>, j: nat): int
    requires j <= |args|
  {
    if j == 0 then 0 else Depth(args, j - 1) + Opened(args[j - 1])
  }

  /** Token `j` begins an assignment: it comes first or after a comma outside parentheses, and `=` follows. */
  predicate BeginsAssignment(args: seq<Lexeme>, j: nat) {
    && j + 1 < |args| && args[j + 1].text == "="
    && (j == 0 || (args[j - 1].text == "," && Depth(args, j - 1) == 0))
  }

  predicate IsTarget(args: seq<Lexeme>, f: string) {
    exists j :: 0 <= j < |args| && BeginsAssignment(args, j) && NameOf(args[j].text) == Some(f)
  }

  /** The pairs of a rename; `None` when the tokens spell none, or a pair's two sides differ in their stars. */
  function Pairing(args: seq<Lexeme>): Option<seq<(string, string)>> {
    var pairs := Spelled(args);
    if pairs.None? || exists p :: p in pairs.value && Stars(p.0) != Stars(p.1) then None else pairs
  }

  // ----- What the commands do to a row -----

  /** Field values of one result row. */
  datatype Value = Text(text: string) | Many(values: seq<Value>) | Opaque(id: int)

  type Row = map<string, Value>

  ghost predicate SameField(before: Row, after: Row, f: string) {
    (f in before <==> f in after) && (f in before ==> after[f] == before[f])
  }

  predicate IsInternal(f: string) {
    f != "" && f[0] == '_'
  }

  /** Where a pair takes a name that its first side matches. */
  function Destination(p: (string, string), n: string): string {
    if Stars(p.0) == Stars(p.1) then Renamed(n, p.0, p.1) else n
  }

  /** The row's field `n` arrives under the name `g`. */
  ghost predicate Arrives(pairs: seq<(string, string)>, before: Row, n: string, g: string) {
    n in before && exists p :: p in pairs && Glob(n, p.0) && Destination(p, n) == g
  }

  ghost predicate Reached(pairs: seq<(string, string)>, before: Row, g: string) {
    exists n :: Arrives(pairs, before, n, g)
  }

  /** A field of this name leaves it. */
  predicate Leaves(pairs: seq<(string, string)>, g: string) {
    exists p :: p in pairs && Glob(g, p.0)
  }

  /** The row has nothing to move for some pair that names `g`. */
  ghost predicate Lacking(pairs: seq<(string, string)>, before: Row, g: string) {
    exists p :: p in pairs && Glob(g, p.1) && forall n :: n in before ==> !Glob(n, p.0)
  }

  /** What a rename does to one field.  A field that is moved leaves its name and arrives under the new one, in place of
      what was there; which of two fields that arrive under one name remains is open, and so is whether a name survives
      when the row lacks the field that would take it. */
  ghost predicate MoveStep(pairs: seq<(string, string)>, before: Row, after: Row, g: string) {
    if g !in after && Lacking(pairs, before, g) then true
    else if Reached(pairs, before, g) then
      g in after && exists n :: Arrives(pairs, before, n, g) && after[g] == before[n]
    else if Leaves(pairs, g) then g !in after
    else SameField(before, after, g)
  }

  /** What a projection does to one field: a selected one is kept, any other is dropped unless it is internal. */
  ghost predicate ProjectStep(names: seq<string>, internal: bool, before: Row, after: Row, g: string) {
    if Selected(names, g) then SameField(before, after, g)
    else g !in after || (internal && IsInternal(g) && SameField(before, after, g))
  }

  /** What one command does to a row that it lets through. */
  ghost predicate RowStep(s: Segment, before: Row, after: Row) {
    match s
    case Search(_) => after == before
    case Keep => after == before
    case Fields(true, args) =>
      forall g :: if Selected(Names(args), g) then g !in after else SameField(before, after, g)
    case Fields(false, args) => forall g :: ProjectStep(Names(args), true, before, after, g)
    case Table(args) => forall g :: ProjectStep(Names(args), false, before, after, g)
    case Evaluate(args) => forall g :: !IsTarget(args, g) ==> SameField(before, after, g)
    case Rename(args) => Pairing(args).Some? ==> forall g :: MoveStep(Pairing(args).value, before, after, g)
    case Aggregate => true
  }

  /** The successive forms of one row through a pipeline. */
  ghost predicate Flows(segments: seq<Segment>, rows: seq<Row>) {
    |rows| == |segments| + 1 && forall i :: 0 <= i < |segments| ==> RowStep(segments[i], rows[i], rows[i + 1])
  }

  ghost predicate KeepsField(s: Segment, f: string) {
    forall before, after :: RowStep(s, before, after) ==> SameField(before, after, f)
  }

  // ----- When a command keeps a field -----

  /** Some pair would take another name to the field. */
  predicate Aims(pairs: seq<(string, string)>, f: string) {
    exists p :: p in pairs && Glob(f, p.1) && !Glob(f, p.0)
  }

  /** Some pair takes the field to itself. */
  predicate Stays(pairs: seq<(string, string)>, f: string) {
    exists p :: p in pairs && Glob(f, p.0) && Destination(p, f) == f
  }

  /** Some pair that matches the field takes another name to it. */
  ghost predicate Collides(pairs: seq<(string, string)>, f: string) {
    exists p, n :: p in pairs && n != f && Glob(f, p.0) && Glob(n, p.0) && Destination(p, n) == f
  }

  /** The pairs take another name to the field, or take the field away. */
  ghost predicate Moves(pairs: seq<(string, string)>, f: string) {
    Aims(pairs, f) || (Leaves(pairs, f) && !Stays(pairs, f)) || Collides(pairs, f)
  }

  /** The command, as it reads its own arguments, removes or overwrites the field. */
  ghost predicate Alters(s: Segment, f: string) {
    match s
    case Search(_) => false
    case Keep => false
    case Fields(true, args) => Selected(Names(args), f)
    case Fields(false, args) => !Selected(Names(args), f)
    case Table(args) => !Selected(Names(args), f)
    case Evaluate(args) => IsTarget(args, f)
    case Rename(args) => Pairing(args).None? || Moves(Pairing(args).value, f)
    case Aggregate => true
  }

  lemma OnlyItselfArrives(pairs: seq<(string, string)>, before: Row, n: string, f: string)
    requires !Moves(pairs, f) && Arrives(pairs, before, n, f)
    requires forall p :: p in pairs ==> Stars(p.0) == Stars(p.1)
    ensures n == f
  {
    var p :| p in pairs && Glob(n, p.0) && Destination(p, n) == f;
    RenamedMatchesTarget(n, p.0, p.1);
    assert Glob(f, p.1);
    assert Glob(f, p.0);
  }

  lemma UnmovedIsKept(pairs: seq<(string, string)>, before: Row, after: Row, f: string)
    requires !Moves(pairs, f) && MoveStep(pairs, before, after, f)
    requires forall p :: p in pairs ==> Stars(p.0) == Stars(p.1)
    ensures SameField(before, after, f)
  {
    if Lacking(pairs, before, f) {
      var p :| p in pairs && Glob(f, p.1) && forall n :: n in before ==> !Glob(n, p.0);
      assert Glob(f, p.0);
      assert f !in before;
    }
    forall n | Arrives(pairs, before, n, f) ensures n == f {
      OnlyItselfArrives(pairs, before, n, f);
    }
    if f in before && Leaves(pairs, f) {
      var p :| p in pairs && Glob(f, p.0) && Destination(p, f) == f;
      assert Arrives(pairs, before, f, f);
    }
  }

  /** Where the pairs take one field. */
  ghost function Places(pairs: seq<(string, string)>, n: string): set<string> {
    set p | p in pairs && Glob(n, p.0) :: Destination(p, n)
  }

  lemma PlacesArrive(pairs: seq<(string, string)>, before: Row, n: string, g: string)
    requires n in before
    ensures Arrives(pairs, before, n, g) <==> g in Places(pairs, n)
  {
  }

  /** A row of one field that the pairs aim at or take away can lose it. */
  lemma AloneIsLost(pairs: seq<(string, string)>, f: string, v: Value) returns (after: Row)
    requires Aims(pairs, f) || (Leaves(pairs, f) && !Stays(pairs, f))
    ensures forall g :: MoveStep(pairs, map[f := v], after, g)
    ensures f !in after
  {
    var before: Row := map[f := v];
    after := map g | g in Places(pairs, f) && g != f :: v;
    forall g ensures MoveStep(pairs, before, after, g) {
      PlacesArrive(pairs, before, f, g);
      assert forall n :: Arrives(pairs, before, n, g) ==> n == f;
      if g == f && Aims(pairs, f) {
        var p :| p in pairs && Glob(f, p.1) && !Glob(f, p.0);
        assert Lacking(pairs, before, f);
      }
    }
  }

  /** A row of two fields of which one can take the place of the other. */
  lemma OtherTakesPlace(pairs: seq<(string, string)>, f: string, n: string, v: Value, w: Value) returns (after: Row)
    requires n != f && f in Places(pairs, n)
    ensures forall g :: MoveStep(pairs, map[f := v, n := w], after, g)
    ensures f in after && after[f] == w
  {
    var before: Row := map[f := v, n := w];
    var places := Places(pairs, f) + Places(pairs, n);
    after := map g | g in places + (before.Keys - Leaving(pairs, before)) ::
      if g in Places(pairs, n) then w else if g in Places(pairs, f) then v else before[g];
    forall g ensures MoveStep(pairs, before, after, g) {
      PlacesArrive(pairs, before, f, g);
      PlacesArrive(pairs, before, n, g);
    }
  }

  ghost function Leaving(pairs: seq<(string, string)>, before: Row): set<string> {
    set g | g in before && Leaves(pairs, g)
  }

  lemma MovedIsLost(args: seq<Lexeme>, f: string)
    requires Pairing(args).Some? && Moves(Pairing(args).value, f)
    ensures !KeepsField(Rename(args), f)
  {
    var pairs := Pairing(args).value;
    if Aims(pairs, f) || (Leaves(pairs, f) && !Stays(pairs, f)) {
      var after := AloneIsLost(pairs, f, Opaque(0));
      assert RowStep(Rename(args), map[f := Opaque(0)], after);
    } else {
      var p, n :| p in pairs && n != f && Glob(f, p.0) && Glob(n, p.0) && Destination(p, n) == f;
      var after := OtherTakesPlace(pairs, f, n, Opaque(0), Opaque(1));
      assert RowStep(Rename(args), map[f := Opaque(0), n := Opaque(1)], after);
    }
  }

  lemma AlteredIsLost(s: Segment, f: string)
    requires Alters(s, f)
    ensures !KeepsField(s, f)
  {
    var before: Row := map[f := Opaque(0)];
    if s.Rename? {
      if Pairing(s.args).None? {
        assert RowStep(s, before, map[]);
      } else {
        MovedIsLost(s.args, f);
      }
    } else if s.Evaluate? {
      assert RowStep(s, before, map[f := Opaque(1)]);
    } else {
      assert RowStep(s, before, map[]);
    }
  }

  lemma UnalteredIsKept(s: Segment, before: Row, after: Row, f: string)
    requires !Alters(s, f) && RowStep(s, before, after)
    ensures SameField(before, after, f)
  {
    match s
    case Search(_) =>
    case Keep =>
    case Fields(drop, args) =>
      assert !drop ==> ProjectStep(Names(args), true, before, after, f);
    case Table(args) =>
      assert ProjectStep(Names(args), false, before, after, f);
    case Evaluate(args) =>
    case Rename(args) =>
      assert MoveStep(Pairing(args).value, before, after, f);
      UnmovedIsKept(Pairing(args).value, before, after, f);
  }

  /** A command keeps a field on every row exactly when it does not alter it. */
  lemma KeepsExactly(s: Segment, f: string)
    ensures KeepsField(s, f) <==> !Alters(s, f)
  {
    if Alters(s, f) {
      AlteredIsLost(s, f);
    } else {
      forall before, after | RowStep(s, before, after) ensures SameField(before, after, f) {
        UnalteredIsKept(s, before, after, f);
      }
    }
  }

  // ----- What escapes the normaliser -----

  /** An accepted command alters the field all the same: a token names it that is no word, or a word is it that no token
      names. */
  ghost predicate Hides(s: Segment, f: string) {
    match s
    case Fields(false, args) => IsWord(args, f) && !Selected(Names(args), f)
    case Table(args) => IsWord(args, f) && !Selected(Names(args), f)
    case _ => Alters(s, f)
  }

  ghost predicate Hidden(segments: seq<Segment>, f: string) {
    exists s :: s in segments && Hides(s, f)
  }

  lemma {:induction false} NamesConcat(a: seq<Lexeme>, b: seq<Lexeme>)
    ensures Names(a + b) == Names(a) + Names(b)
    decreases |a|
  {
    if a == [] {
      assert a + b == b;
    } else {
      assert (a + b)[1..] == a[1..] + b;
      NamesConcat(a[1..], b);
    }
  }

  /** A field name that is its own token and its own pattern. */
  predicate Plain(f: string) {
    Bare(f) && Literal(f) && Unmarked(f) && f !in PUNCTUATION && Trimmed({'+', '-'}, f) == f
  }

  lemma SourceFieldsArePlain()
    ensures forall f :: f in SOURCE_FIELDS ==> Plain(f)
  {
  }

  lemma OwnName(f: string)
    requires Plain(f)
    ensures Names([Lexeme(f, true)]) == [f]
  {
    StrippedBare(f);
  }

  /** Exactly the wanted fields that are no words are added. */
  lemma {:induction false} MissingNames(args: seq<Lexeme>, wanted: seq<string>, f: string)
    requires forall w :: w in wanted ==> Plain(w)
    ensures Selected(Names(Missing(args, wanted)), f) <==> f in wanted && !IsWord(args, f)
  {
    if wanted != [] {
      var w, rest := wanted[0], wanted[1..];
      assert w in wanted && wanted == [w] + rest;
      MissingNames(args, rest, f);
      if IsWord(args, w) {
        assert Missing(args, wanted) == Missing(args, rest);
      } else {
        OnlyItself(f, w);
        OwnName(w);
        assert Missing(args, wanted) == [Lexeme(w, true)] + Missing(args, rest);
        NamesConcat([Lexeme(w, true)], Missing(args, rest));
        SelectedConcat([w], Names(Missing(args, rest)), f);
        assert w in [w];
      }
    }
  }

  lemma SelectedConcat(a: seq<string>, b: seq<string>, f: string)
    ensures Selected(a + b, f) <==> Selected(a, f) || Selected(b, f)
  {
  }

  /** In terms of the arguments as given: what the normalised command alters. */
  lemma NormalisedAlters(s: Segment, f: string)
    requires f in SOURCE_FIELDS && Preserved(s).Some?
    ensures Alters(Preserved(s).value, f) <==> Hides(s, f)
  {
    if s.Table? || (s.Fields? && !s.drop) {
      SourceFieldsArePlain();
      MissingNames(s.args, SOURCE_FIELDS, f);
      NamesConcat(s.args, Missing(s.args, SOURCE_FIELDS));
      SelectedConcat(Names(s.args), Names(Missing(s.args, SOURCE_FIELDS)), f);
    }
  }

  /** Every command of an accepted raw pipeline keeps a source field on every row exactly when none hides it. */
  lemma ProvenanceExactly(segments: seq<Segment>, out: seq<Segment>, f: string)
    requires AllPreserved(segments, out) && f in SOURCE_FIELDS
    ensures (forall s :: s in out ==> KeepsField(s, f)) <==> !Hidden(segments, f)
  {
    forall i | 0 <= i < |segments| ensures KeepsField(out[i], f) <==> !Hides(segments[i], f) {
      NormalisedAlters(segments[i], f);
      KeepsExactly(out[i], f);
    }
    if Hidden(segments, f) {
      var i :| 0 <= i < |segments| && Hides(segments[i], f);
      assert out[i] in out;
    } else {
      forall s | s in out ensures KeepsField(s, f) {
        var i :| 0 <= i < |out| && out[i] == s;
        assert segments[i] in segments;
      }
    }
  }

  /** So a row keeps it through the whole pipeline. */
  lemma {:induction false} ProvenanceSurvives(
    segments: seq<Segment>, out: seq<Segment>, rows: seq<Row>, n: nat, f: string)
    requires AllPreserved(segments, out) && Flows(out, rows)
    requires n <= |segments| && f in SOURCE_FIELDS && !Hidden(segments, f)
    ensures SameField(rows[0], rows[n], f)
  {
    if n > 0 {
      ProvenanceSurvives(segments, out, rows, n - 1, f);
      ProvenanceExactly(segments, out, f);
      assert out[n - 1] in out;
      assert SameField(rows[n - 1], rows[n], f);
    }
  }

  /** A rename whose tokens are all set apart, unquoted, with no field called `as`, hides no source field. */
  lemma SpacedRenameHidesNothing(args: seq<Lexeme>, f: string)
    requires forall l :: l in args ==> l.spaced && Bare(l.text)
    requires Pairing(args).Some? && forall p :: p in Pairing(args).value ==> !IsAs(p.0)
    requires f in SOURCE_FIELDS && Preserved(Rename(args)).Some?
    ensures !Hides(Rename(args), f)
  {
    SpacedIsSeen(args);
    assert !Modifies(Rename(args), f);
  }

  // ----- Assignments never escape -----

  lemma TrimmedGap(gap: string, s: string)
    requires (gap == "" || gap == " ") && s != "" && s[0] != ' '
    ensures Trimmed({' '}, gap + s) == s
  {
    if gap == "" {
      assert gap + s == s;
    } else {
      assert (gap + s)[1..] == s;
    }
  }

  /** What follows the name: a closing mark or none, a gap and the sign. */
  lemma SignFollows(mark: string, gap: string, rest: string)
    requires mark == "" || mark == "\"" || mark == "'"
    requires gap == "" || gap == " "
    ensures "=" <= Trimmed({' '}, Unquoted(mark + (gap + ("=" + rest))))
  {
    var tail := gap + ("=" + rest);
    TrimmedGap(gap, "=" + rest);
    if mark == "" {
      assert mark + tail == tail;
    } else {
      assert (mark + tail)[1..] == tail;
    }
  }

  lemma NameAssigned(gap: string, mark: string, f: string, after: string, rest: string)
    requires Plain(f)
    requires mark == "" || mark == "\"" || mark == "'"
    requires (gap == "" || gap == " ") && (after == "" || after == " ")
    ensures Assigns(gap + (mark + (f + (mark + (after + ("=" + rest))))), f)
  {
    var tail := mark + (after + ("=" + rest));
    var named := mark + (f + tail);
    assert f[0] in f;
    assert named[0] == if mark == "" then f[0] else mark[0];
    TrimmedGap(gap, named);
    if mark == "" {
      assert named == f + tail;
    } else {
      assert named[1..] == f + tail;
    }
    assert Unquoted(named) == f + tail;
    assert (f + tail)[|f|..] == tail;
    SignFollows(mark, after, rest);
  }

  lemma WrittenFrom(args: seq<Lexeme>, j: nat)
    requires j < |args|
    ensures AsWritten(args[j..]) == Gap(args[j]) + args[j].text + AsWritten(args[j + 1..])
  {
    assert args[j..][1..] == args[j + 1..];
  }

  lemma TokenAssigned(gap: string, text: string, after: string, rest: string, f: string)
    requires NameOf(text) == Some(f) && Plain(f)
    requires (gap == "" || gap == " ") && (after == "" || after == " ")
    ensures Assigns(gap + text + (after + "=" + rest), f)
  {
    var mark := NameIsPlain(text, f);
    NameAssigned(gap, mark, f, after, rest);
    Nested(gap, mark, f, after, "=", rest);
  }

  lemma Nested(a: string, m: string, f: string, b: string, e: string, r: string)
    ensures a + (m + f + m) + (b + e + r) == a + (m + (f + (m + (b + (e + r)))))
  {
  }

  lemma SuffixAssigned(args: seq<Lexeme>, j: nat, f: string)
    requires j + 1 < |args| && args[j + 1].text == "=" && NameOf(args[j].text) == Some(f) && Plain(f)
    ensures Assigns(AsWritten(args[j..]), f)
  {
    WrittenFrom(args, j);
    WrittenFrom(args, j + 1);
    TokenAssigned(Gap(args[j]), args[j].text, Gap(args[j + 1]), AsWritten(args[j + 2..]), f);
  }

  lemma CommaBefore(args: seq<Lexeme>, j: nat)
    requires 0 < j <= |args| && args[j - 1].text == ","
    ensures var before := AsWritten(args[..j]); before != "" && before[|before| - 1] == ','
  {
    WrittenConcat(args[..j - 1], [args[j - 1]]);
    assert args[..j] == args[..j - 1] + [args[j - 1]];
    assert AsWritten([args[j - 1]]) == Gap(args[j - 1]) + ",";
  }

  lemma WrittenAt(args: seq<Lexeme>, j: nat)
    requires j <= |args|
    ensures |AsWritten(args[..j])| <= |AsWritten(args)|
    ensures AsWritten(args)[..|AsWritten(args[..j])|] == AsWritten(args[..j])
    ensures AsWritten(args)[|AsWritten(args[..j])|..] == AsWritten(args[j..])
  {
    WrittenConcat(args[..j], args[j..]);
    assert args[..j] + args[j..] == args;
  }

  /** Where token `j` begins in the text. */
  function Start(args: seq<Lexeme>, j: nat): nat
    requires j <= |args|
  {
    |AsWritten(args[..j])|
  }

  lemma StartsAfterComma(args: seq<Lexeme>, j: nat)
    requires j <= |args| && (j == 0 || args[j - 1].text == ",")
    ensures Start(args, j) <= |AsWritten(args)|
    ensures Start(args, j) == 0 || AsWritten(args)[Start(args, j) - 1] == ','
  {
    WrittenAt(args, j);
    if j > 0 {
      CommaBefore(args, j);
      var text, i := AsWritten(args), Start(args, j);
      assert text[..i][i - 1] == text[i - 1];
    }
  }

  /** The pattern finds every plain name that an assignment sets. */
  lemma TargetIsAssigned(args: seq<Lexeme>, f: string)
    requires IsTarget(args, f) && Plain(f)
    ensures IsAssigned(args, f)
  {
    var j :| 0 <= j < |args| && BeginsAssignment(args, j) && NameOf(args[j].text) == Some(f);
    StartsAfterComma(args, j);
    SuffixAssigned(args, j, f);
    WrittenAt(args, j);
    assert Assigns(AsWritten(args)[Start(args, j)..], f);
  }

  /** An assignment that the normaliser accepts sets no source field. */
  lemma AssignmentsHideNothing(args: seq<Lexeme>, f: string)
    requires f in SOURCE_FIELDS && Preserved(Evaluate(args)).Some?
    ensures !Hides(Evaluate(args), f)
  {
    SourceFieldsArePlain();
    assert !Modifies(Evaluate(args), f);
    if IsTarget(args, f) {
      TargetIsAssigned(args, f);
    }
  }

  // ----- Plain field lists never escape -----

  /** A comma, or a name set apart that is written without marks. */
  predicate PlainItem(l: Lexeme) {
    || l.text == ","
    || (&& l.spaced && l.text != "" && Whole(BREAKS, l.text)
        && ListedName(l) == [l.text] && Stripped(l.text) == l.text)
  }

  /** The word that an item begins. */
  function Begun(l: Lexeme): string {
    if l.text == "," then "" else l.text
  }

  lemma ItemNames(l: Lexeme, rest: seq<Lexeme>)
    requires PlainItem(l)
    ensures Names([l] + rest) == Flush(Begun(l)) + Names(rest)
  {
    assert ([l] + rest)[1..] == rest;
  }

  lemma NextItem(begun: string, l: Lexeme, rest: seq<Lexeme>)
    requires PlainItem(l)
    ensures WordsAfter(BREAKS, begun, AsWritten([l] + rest)) ==
            Flush(begun) + WordsAfter(BREAKS, Begun(l), AsWritten(rest))
  {
    var text := AsWritten([l] + rest);
    assert ([l] + rest)[1..] == rest;
    assert text == Gap(l) + l.text + AsWritten(rest);
    if l.spaced {
      assert text[1..] == l.text + AsWritten(rest);
    }
    if l.text == "," {
      assert ("," + AsWritten(rest))[1..] == AsWritten(rest);
    } else {
      WordGrows(BREAKS, "", l.text, AsWritten(rest));
      assert "" + l.text == l.text;
    }
  }

  lemma {:induction false} PlainListWords(begun: string, args: seq<Lexeme>)
    requires forall l :: l in args ==> PlainItem(l)
    ensures WordsAfter(BREAKS, begun, AsWritten(args)) == Flush(begun) + Names(args)
    decreases |args|
  {
    if args != [] {
      var l, rest := args[0], args[1..];
      assert l in args && args == [l] + rest;
      NextItem(begun, l, rest);
      ItemNames(l, rest);
      PlainListWords(Begun(l), rest);
    }
  }

  lemma {:induction false} PlainListNames(args: seq<Lexeme>, w: string)
    requires forall l :: l in args ==> PlainItem(l)
    requires w in Names(args)
    ensures Stripped(w) == w
    decreases |args|
  {
    if args != [] {
      assert args[0] in args;
      if w !in ListedName(args[0]) {
        PlainListNames(args[1..], w);
      }
    }
  }

  /** A projection whose names are written without marks, each set apart, hides no source field. */
  lemma PlainListHidesNothing(args: seq<Lexeme>, f: string)
    requires forall l :: l in args ==> PlainItem(l)
    requires f in SOURCE_FIELDS
    ensures !Hides(Table(args), f) && !Hides(Fields(false, args), f)
  {
    PlainListWords("", args);
    SourceFieldsArePlain();
    if IsWord(args, f) {
      var w :| w in Words(args) && Stripped(w) == f;
      PlainListNames(args, w);
      OnlyItself(f, f);
    }
  }
}
