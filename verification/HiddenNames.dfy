/** Commands that the normaliser accepts although they overwrite, move or drop a source field, and what they do to the
    attribution of rows.
 */
module HiddenNames {
  import opened Wrappers
  import opened SourceScope
  import opened Wildcards
  import opened Arguments
  import opened Renames
  import opened Provenance
  import opened Attribution

  /** A name that is no source field and cannot be mistaken for another token or pattern. */
  predicate Simple(name: string) {
    Plain(name) && ',' !in name && name !in SOURCE_FIELDS
  }

  lemma SourceFieldsHaveNoComma()
    ensures forall f :: f in SOURCE_FIELDS ==> ',' !in f
  {
  }

  lemma NotMentioned(pairs: seq<(string, string)>, f: string)
    requires forall p :: p in pairs ==> Literal(p.0) && Literal(p.1) && f != p.0 && f != p.1
    ensures !Mentions(pairs, f)
  {
    forall p | p in pairs ensures !Glob(f, p.0) && !Glob(f, p.1) {
      OnlyItself(f, p.0);
      OnlyItself(f, p.1);
    }
  }

  /** Literal pairs that do not mention a field do not move it. */
  lemma UnmentionedIsUnmoved(pairs: seq<(string, string)>, f: string)
    requires !Mentions(pairs, f)
    ensures !Moves(pairs, f)
  {
  }

  lemma CommaInside(a: string, b: string)
    ensures ',' in a + "," + b
  {
    assert (a + "," + b)[|a|] == ',';
  }

  // ----- A name between commas -----

  /** `rename a AS f, c AS d` is accepted for every source field `f`, and aims at it. */
  lemma CommaHides(a: string, f: string, c: string, d: string)
    requires f in SOURCE_FIELDS && Simple(a) && Simple(c) && Simple(d)
    ensures var s := Rename(CommaRename(a, f, c, d));
            && Preserved(s) == Some(s) && Hides(s, f)
            && Pairing(s.args) == Some([(a, f), (c, d)])
  {
    SourceFieldsArePlain();
    SourceFieldsHaveNoComma();
    CommaRenameSeen(a, f, c, d);
    CommaInside(f, "");
    assert f + "," + "" == f + ",";
    forall g | g in SOURCE_FIELDS ensures !Mentions([(a, f + ","), (c, d)], g) {
      NotMentioned([(a, f + ","), (c, d)], g);
    }
    CommaRenameSpelled(a, f, c, d);
    SpelledIsPairing(CommaRename(a, f, c, d), a, f, c, d);
    OnlyItself(f, f);
    OnlyItself(f, a);
    assert [(a, f), (c, d)][0] == (a, f);
    assert Aims([(a, f), (c, d)], f);
  }

  lemma NoStars(part: string)
    requires Literal(part)
    ensures Stars(part) == 0
  {
  }

  lemma SpelledIsPairing(args: seq<Lexeme>, a: string, b: string, c: string, d: string)
    requires Spelled(args) == Some([(a, b), (c, d)])
    requires Literal(a) && Literal(b) && Literal(c) && Literal(d)
    ensures Pairing(args) == Some([(a, b), (c, d)])
  {
    NoStars(a);
    NoStars(b);
    NoStars(c);
    NoStars(d);
  }

  /** `rename a AS b,f AS d` is accepted for every source field `f`, and takes it away. */
  lemma GluedHides(a: string, b: string, f: string, d: string)
    requires f in SOURCE_FIELDS && Simple(a) && Simple(b) && Simple(d)
    ensures var s := Rename(GluedRename(a, b, f, d));
            && Preserved(s) == Some(s) && Hides(s, f) && Removes(s, f)
            && Pairing(s.args) == Some([(a, b), (f, d)])
  {
    SourceFieldsArePlain();
    SourceFieldsHaveNoComma();
    GluedRenameSeen(a, b, f, d);
    CommaInside(b, f);
    forall g | g in SOURCE_FIELDS ensures !Mentions([(a, b + "," + f)], g) {
      NotMentioned([(a, b + "," + f)], g);
    }
    CommaRenameSpelled(a, b, f, d);
    SpelledIsPairing(GluedRename(a, b, f, d), a, b, f, d);
    GluedRemoves(a, b, f, d);
  }

  /** It hides no other field. */
  lemma GluedHidesOnly(a: string, b: string, f: string, d: string, g: string)
    requires f in SOURCE_FIELDS && g in SOURCE_FIELDS && g != f && Simple(a) && Simple(b) && Simple(d)
    ensures !Hides(Rename(GluedRename(a, b, f, d)), g)
  {
    SourceFieldsArePlain();
    GluedHides(a, b, f, d);
    NotMentioned([(a, b), (f, d)], g);
    UnmentionedIsUnmoved([(a, b), (f, d)], g);
  }

  lemma GluedRemoves(a: string, b: string, f: string, d: string)
    requires f in SOURCE_FIELDS && Simple(a) && Simple(b) && Simple(d) && Plain(f)
    ensures var pairs := [(a, b), (f, d)];
            Leaves(pairs, f) && Moves(pairs, f) && forall p :: p in pairs ==> !Glob(f, p.1)
  {
    var pairs := [(a, b), (f, d)];
    OnlyItself(f, a);
    OnlyItself(f, b);
    OnlyItself(f, d);
    OnlyItself(f, f);
    assert pairs[1] == (f, d);
    assert Leaves(pairs, f);
    NoStars(f);
    NoStars(d);
    RenamedMatchesTarget(f, f, d);
    assert !Stays(pairs, f);
  }

  // ----- A word of a quoted name -----

  /** `"w f"`, one quoted name of two words. */
  function Quoted(mark: string, w: string, f: string): string {
    mark + w + " " + f + mark
  }

  lemma {:induction false} UnescapedSelf(s: string)
    requires '\\' !in s
    ensures Unescaped(s) == s
  {
    if |s| >= 2 {
      assert s[0] in s && forall c :: c in s[1..] ==> c in s;
      UnescapedSelf(s[1..]);
    }
  }

  /** A text between two equal marks stands for itself. */
  lemma MarkedName(mark: char, inner: string)
    requires IsQuote(mark) && '\\' !in inner
    ensures NameOf([mark] + inner + [mark]) == Some(inner)
    ensures ListedName(Lexeme([mark] + inner + [mark], true)) == [inner]
  {
    var text := [mark] + inner + [mark];
    assert text[1..|text| - 1] == inner && text[0] == mark == text[|text| - 1];
    UnescapedSelf(inner);
    assert |text| > 1 && Trimmed({'+', '-'}, text) == text;
  }

  lemma QuotedName(w: string, f: string)
    requires Plain(w) && Plain(f)
    ensures ListedName(Lexeme(Quoted("\"", w, f), true)) == [w + " " + f]
  {
    MarkedName('"', w + " " + f);
    assert Quoted("\"", w, f) == ['"'] + (w + " " + f) + ['"'];
  }

  lemma StrippedWords(w: string, f: string)
    requires Bare(w) && Bare(f)
    ensures Stripped("\"" + w) == w && Stripped(f + "\"") == f
  {
    var first, second := "\"" + w, f + "\"";
    assert w[0] in w && f[0] in f && w[|w| - 1] in w && f[|f| - 1] in f;
    assert first[1..] == w && first[0] == '"';
    assert StripLeft(first) == StripLeft(w) == w && StripRight(w) == w;
    assert second[..|f|] == f && second[|f|] == '"' && second[0] == f[0];
    assert StripLeft(second) == second && StripRight(second) == StripRight(f) == f;
  }

  lemma WrittenOne(l: Lexeme)
    ensures AsWritten([l]) == Gap(l) + l.text
  {
    assert [l][1..] == [];
  }

  lemma TwoWords(first: string, second: string)
    requires first != "" && second != "" && Whole(BREAKS, first) && Whole(BREAKS, second)
    ensures WordsAfter(BREAKS, "", " " + (first + (" " + second))) == [first, second]
  {
    var text := " " + (first + (" " + second));
    assert text[1..] == first + (" " + second);
    WordGrows(BREAKS, "", first, " " + second);
    assert "" + first == first;
    assert (" " + second)[1..] == second;
    WordGrows(BREAKS, "", second, "");
    assert "" + second == second && second + "" == second;
  }

  lemma QuotedWords(w: string, f: string)
    requires Bare(w) && Bare(f) && ',' !in w && ',' !in f
    ensures Words([Lexeme(Quoted("\"", w, f), true)]) == ["\"" + w, f + "\""]
  {
    WrittenOne(Lexeme(Quoted("\"", w, f), true));
    assert " " + Quoted("\"", w, f) == " " + (("\"" + w) + (" " + (f + "\"")));
    TwoWords("\"" + w, f + "\"");
  }

  lemma QuotedIsWord(w: string, f: string, g: string)
    requires Bare(w) && Bare(f) && ',' !in w && ',' !in f
    ensures IsWord([Lexeme(Quoted("\"", w, f), true)], g) <==> g == w || g == f
  {
    QuotedWords(w, f);
    StrippedWords(w, f);
    var words := ["\"" + w, f + "\""];
    assert words[0] in words && words[1] in words;
  }

  lemma QuotedSelects(w: string, f: string, g: string)
    requires Plain(w) && Plain(f) && Plain(g)
    ensures !Selected(Names([Lexeme(Quoted("\"", w, f), true)]), g)
  {
    QuotedName(w, f);
    assert Names([Lexeme(Quoted("\"", w, f), true)]) == [w + " " + f];
    assert (w + " " + f)[|w|] in w + " " + f;
    assert ' ' in w + " " + f && ' ' !in g;
    OnlyItself(g, w + " " + f);
  }

  /** `table "w f"` is accepted for every source field `f`, and drops it; it hides no other. */
  lemma QuotedTableHides(w: string, f: string, g: string)
    requires f in SOURCE_FIELDS && g in SOURCE_FIELDS && Simple(w)
    ensures var s := Table([Lexeme(Quoted("\"", w, f), true)]); Preserved(s).Some? && (Hides(s, g) <==> g == f)
  {
    SourceFieldsArePlain();
    SourceFieldsHaveNoComma();
    QuotedIsWord(w, f, g);
    QuotedSelects(w, f, g);
  }

  /** `'w f'=v`, an assignment to a quoted name of two words. */
  function QuotedAssignment(w: string, f: string, v: string): seq<Lexeme> {
    [Lexeme(Quoted("'", w, f), true), Lexeme("=", false), Lexeme(v, false)]
  }

  lemma QuotedAssignmentText(w: string, f: string, v: string)
    ensures AsWritten(QuotedAssignment(w, f, v)) == " " + ("'" + (w + (" " + (f + "'=" + v))))
  {
    var args := QuotedAssignment(w, f, v);
    WrittenFrom(args, 0);
    WrittenFrom(args, 1);
    WrittenFrom(args, 2);
    assert args[0..] == args && args[3..] == [];
  }

  /** A name without white space that is not the first word does not end where it would have to. */
  lemma NotTheWord(w: string, rest: string, g: string)
    requires Bare(w) && Bare(g) && '=' !in w && g != w && g <= w + (" " + rest)
    ensures |g| < |w| && w[|g|] in w
  {
    var t := w + (" " + rest);
    assert t[|w|] == ' ' && forall i :: 0 <= i < |g| ==> t[i] == g[i] && g[i] in g;
    assert |g| <= |w|;
    assert |g| == |w| ==> g == w;
  }

  lemma OtherWord(w: string, rest: string, g: string)
    requires Bare(w) && Bare(g) && '=' !in w && g != w
    ensures !Assigns(" " + ("'" + (w + (" " + rest))), g)
  {
    var t := w + (" " + rest);
    assert w[0] in w;
    TrimmedGap(" ", "'" + t);
    assert ("'" + t)[1..] == t;
    if g <= t {
      NotTheWord(w, rest, g);
      assert t[|g|..][0] == w[|g|];
      assert Unquoted(t[|g|..]) == t[|g|..] && Trimmed({' '}, t[|g|..]) == t[|g|..];
    }
  }

  /** It is accepted when the first word is no source field and has no sign in it, and the value no comma. */
  lemma QuotedAssignmentAccepted(w: string, f: string, v: string)
    requires f in SOURCE_FIELDS && Simple(w) && '=' !in w && ',' !in v
    ensures var s := Evaluate(QuotedAssignment(w, f, v)); Preserved(s) == Some(s)
  {
    var s, text := Evaluate(QuotedAssignment(w, f, v)), AsWritten(QuotedAssignment(w, f, v));
    SourceFieldsArePlain();
    SourceFieldsHaveNoComma();
    QuotedAssignmentText(w, f, v);
    assert ',' !in text && forall i :: 0 <= i < |text| ==> text[i] in text;
    forall g | g in SOURCE_FIELDS ensures !IsAssigned(s.args, g) {
      OtherWord(w, f + "'=" + v, g);
      assert text[0..] == text;
    }
  }
}
