/** The two readings of a `rename` command's arguments: the pattern by which the normaliser looks for modified
    fields, and the grammar by which the command, and the field-reference check, pair old and new names.
 */
module Renames {
  import opened Wrappers
  import opened Arguments

  const SPACE: set<char> := {' '}

  predicate IsAs(word: string) {
    word in {"as", "AS", "As", "aS"}
  }

  /** In any mixture of cases. */
  lemma AsExactly(word: string)
    ensures IsAs(word) <==> |word| == 2 && (word[0] == 'a' || word[0] == 'A') && (word[1] == 's' || word[1] == 'S')
  {
    if |word| == 2 {
      assert word == [word[0], word[1]];
    }
  }

  // ----- The normaliser's reading -----

  /** The words around each `as`, scanned from the left without overlap. */
  function Captured(words: seq<string>): seq<(string, string)> {
    if |words| < 3 then []
    else if IsAs(words[1]) then [(Stripped(words[0]), Stripped(words[2]))] + Captured(words[3..])
    else Captured(words[1..])
  }

  /** The field names that the normaliser finds. */
  function Seen(args: seq<Lexeme>): seq<(string, string)> {
    Captured(WordsAfter(SPACE, "", AsWritten(args)))
  }

  // ----- The command's reading -----

  /** The pairs that the tokens spell, commas apart; `None` when they spell none. */
  function PairsOf(texts: seq<string>): Option<seq<(string, string)>> {
    if texts == [] then Some([])
    else if texts[0] == "," then PairsOf(texts[1..])
    else if |texts| < 3 || !IsAs(texts[1]) then None
    else
      var source, target, rest := NameOf(texts[0]), NameOf(texts[2]), PairsOf(texts[3..]);
      if source.None? || target.None? || rest.None? then None
      else Some([(source.value, target.value)] + rest.value)
  }

  function Spelled(args: seq<Lexeme>): Option<seq<(string, string)>> {
    PairsOf(Texts(args))
  }

  // ----- Where the readings agree -----

  /** One more token of the text: it ends the word that has begun, or goes on with it. */
  lemma NextToken(begun: string, first: Lexeme, rest: seq<Lexeme>)
    requires Whole(SPACE, first.text)
    ensures WordsAfter(SPACE, begun, AsWritten([first] + rest)) ==
            if first.spaced then Flush(begun) + WordsAfter(SPACE, first.text, AsWritten(rest))
            else WordsAfter(SPACE, begun + first.text, AsWritten(rest))
  {
    var args := [first] + rest;
    assert args[1..] == rest;
    if first.spaced {
      assert AsWritten(args) == " " + first.text + AsWritten(rest);
      assert AsWritten(args)[1..] == first.text + AsWritten(rest);
      WordGrows(SPACE, "", first.text, AsWritten(rest));
      assert "" + first.text == first.text;
    } else {
      assert AsWritten(args) == first.text + AsWritten(rest);
      WordGrows(SPACE, begun, first.text, AsWritten(rest));
    }
  }

  /** When every token is set apart, the words are the tokens. */
  lemma {:induction false} WordsAreTokens(begun: string, args: seq<Lexeme>)
    requires forall l :: l in args ==> l.spaced && Bare(l.text)
    ensures WordsAfter(SPACE, begun, AsWritten(args)) == Flush(begun) + Texts(args)
    decreases |args|
  {
    if args != [] {
      var first, rest := args[0], args[1..];
      assert first in args && args == [first] + rest;
      NextToken(begun, first, rest);
      WordsAreTokens(first.text, rest);
      TextsFirst(first, rest);
    }
  }

  lemma TextsFirst(first: Lexeme, rest: seq<Lexeme>)
    requires first.text != ""
    ensures Texts([first] + rest) == Flush(first.text) + Texts(rest)
  {
  }

  lemma {:induction false} CapturedAreSpelled(texts: seq<string>)
    requires forall t :: t in texts ==> Bare(t)
    requires PairsOf(texts).Some?
    requires forall p :: p in PairsOf(texts).value ==> !IsAs(p.0)
    ensures Captured(texts) == PairsOf(texts).value
    decreases |texts|
  {
    if texts != [] && texts[0] == "," {
      CapturedAreSpelled(texts[1..]);
      if |texts| > 1 && texts[1] != "," {
        StrippedBare(texts[1]);
        assert PairsOf(texts[1..]).value[0].0 == texts[1];
      }
    } else if texts != [] {
      assert texts[0] in texts && texts[2] in texts;
      StrippedBare(texts[0]);
      StrippedBare(texts[2]);
      var rest := PairsOf(texts[3..]).value;
      assert PairsOf(texts).value == [(texts[0], texts[2])] + rest;
      CapturedAreSpelled(texts[3..]);
    }
  }

  /** With every token set apart by white space, commas included, no quotation and no field called `as`, the
      normaliser sees exactly the names that the command uses. */
  lemma SpacedIsSeen(args: seq<Lexeme>)
    requires forall l :: l in args ==> l.spaced && Bare(l.text)
    requires Spelled(args).Some? && forall p :: p in Spelled(args).value ==> !IsAs(p.0)
    ensures Seen(args) == Spelled(args).value
  {
    WordsAreTokens("", args);
    assert Flush("") + Texts(args) == Texts(args);
    CapturedAreSpelled(Texts(args));
  }

  // ----- Where they do not -----

  /** `a AS b` and what follows. */
  function Clause(a: string, b: string, rest: seq<Lexeme>): seq<Lexeme> {
    [Lexeme(a, true)] + ([Lexeme("AS", true)] + ([Lexeme(b, true)] + rest))
  }

  lemma AfterSource(a: string, b: string, rest: seq<Lexeme>)
    requires Bare(a) && Bare(b)
    ensures WordsAfter(SPACE, a, AsWritten([Lexeme("AS", true)] + ([Lexeme(b, true)] + rest))) ==
            [a, "AS"] + WordsAfter(SPACE, b, AsWritten(rest))
  {
    NextToken(a, Lexeme("AS", true), [Lexeme(b, true)] + rest);
    NextToken("AS", Lexeme(b, true), rest);
  }

  lemma ClauseWords(begun: string, a: string, b: string, rest: seq<Lexeme>)
    requires Bare(a) && Bare(b)
    ensures WordsAfter(SPACE, begun, AsWritten(Clause(a, b, rest))) ==
            Flush(begun) + ([a, "AS"] + WordsAfter(SPACE, b, AsWritten(rest)))
  {
    NextToken(begun, Lexeme(a, true), [Lexeme("AS", true)] + ([Lexeme(b, true)] + rest));
    AfterSource(a, b, rest);
  }

  /** `a AS b, c AS d`, with the comma against the name before it. */
  function CommaRename(a: string, b: string, c: string, d: string): seq<Lexeme> {
    Clause(a, b, [Lexeme(",", false)] + Clause(c, d, []))
  }

  /** `a AS b,c AS d`, with the comma against the names on both sides. */
  function GluedRename(a: string, b: string, c: string, d: string): seq<Lexeme> {
    Clause(a, b, [Lexeme(",", false)] + ([Lexeme(c, false)] + ([Lexeme("AS", true)] + ([Lexeme(d, true)] + []))))
  }

  lemma CommaRenameWords(a: string, b: string, c: string, d: string)
    requires Bare(a) && Bare(b) && Bare(c) && Bare(d)
    ensures WordsAfter(SPACE, "", AsWritten(CommaRename(a, b, c, d))) == [a, "AS", b + ","] + [c, "AS", d]
  {
    ClauseWords("", a, b, [Lexeme(",", false)] + Clause(c, d, []));
    NextToken(b, Lexeme(",", false), Clause(c, d, []));
    ClauseWords(b + ",", c, d, []);
  }

  lemma GluedRenameWords(a: string, b: string, c: string, d: string)
    requires Bare(a) && Bare(b) && Bare(c) && Bare(d)
    ensures WordsAfter(SPACE, "", AsWritten(GluedRename(a, b, c, d))) == [a, "AS", b + "," + c] + ["AS", d]
  {
    var last := [Lexeme(d, true)] + [];
    var third := [Lexeme("AS", true)] + last;
    ClauseWords("", a, b, [Lexeme(",", false)] + ([Lexeme(c, false)] + third));
    NextToken(b, Lexeme(",", false), [Lexeme(c, false)] + third);
    NextToken(b + ",", Lexeme(c, false), third);
    NextToken(b + "," + c, Lexeme("AS", true), last);
    NextToken("AS", Lexeme(d, true), []);
  }

  lemma CapturedPair(a: string, b: string, rest: seq<string>)
    requires Bare(a) && Bare(b)
    ensures Captured([a, "AS", b] + rest) == [(a, b)] + Captured(rest)
  {
    StrippedBare(a);
    StrippedBare(b);
    assert ([a, "AS", b] + rest)[3..] == rest;
  }

  lemma SpelledPair(a: string, b: string, rest: seq<string>)
    requires Bare(a) && Bare(b) && a != "," && PairsOf(rest).Some?
    ensures PairsOf([a, "AS", b] + rest) == Some([(a, b)] + PairsOf(rest).value)
  {
    StrippedBare(a);
    StrippedBare(b);
    assert ([a, "AS", b] + rest)[3..] == rest;
  }

  /** The normaliser reads the comma as part of the first new name. */
  lemma CommaRenameSeen(a: string, b: string, c: string, d: string)
    requires Bare(a) && Bare(b) && Bare(c) && Bare(d)
    ensures Seen(CommaRename(a, b, c, d)) == [(a, b + ","), (c, d)]
  {
    CommaRenameWords(a, b, c, d);
    CapturedPair(a, b + ",", [c, "AS", d]);
    assert [c, "AS", d] == [c, "AS", d] + [];
    CapturedPair(c, d, []);
  }

  /** Without white space at all it reads both names as one, and does not see the second clause. */
  lemma GluedRenameSeen(a: string, b: string, c: string, d: string)
    requires Bare(a) && Bare(b) && Bare(c) && Bare(d)
    ensures Seen(GluedRename(a, b, c, d)) == [(a, b + "," + c)]
  {
    GluedRenameWords(a, b, c, d);
    CapturedPair(a, b + "," + c, ["AS", d]);
  }

  lemma CommaSkipped(texts: seq<string>)
    ensures PairsOf([","] + texts) == PairsOf(texts)
  {
    assert ([","] + texts)[1..] == texts;
  }

  lemma TwoClauses(a: string, b: string, c: string, d: string)
    requires Bare(a) && Bare(b) && Bare(c) && Bare(d) && a != "," && c != ","
    ensures PairsOf([a, "AS", b] + ([","] + ([c, "AS", d] + []))) == Some([(a, b), (c, d)])
  {
    SpelledPair(c, d, []);
    CommaSkipped([c, "AS", d] + []);
    SpelledPair(a, b, [","] + ([c, "AS", d] + []));
    assert [(a, b)] + ([(c, d)] + []) == [(a, b), (c, d)];
  }

  lemma ClauseTexts(a: string, b: string, rest: seq<Lexeme>)
    ensures Texts(Clause(a, b, rest)) == [a, "AS", b] + Texts(rest)
  {
  }

  lemma TwoClauseTexts(a: string, b: string, c: string, d: string)
    ensures Texts(CommaRename(a, b, c, d)) == [a, "AS", b] + ([","] + ([c, "AS", d] + []))
    ensures Texts(GluedRename(a, b, c, d)) == Texts(CommaRename(a, b, c, d))
  {
    ClauseTexts(a, b, [Lexeme(",", false)] + Clause(c, d, []));
    ClauseTexts(c, d, []);
    assert Texts([Lexeme(",", false)] + Clause(c, d, [])) == [","] + Texts(Clause(c, d, []));
  }

  /** The command reads the same two pairs from both. */
  lemma CommaRenameSpelled(a: string, b: string, c: string, d: string)
    requires Bare(a) && Bare(b) && Bare(c) && Bare(d) && a != "," && c != ","
    ensures Spelled(CommaRename(a, b, c, d)) == Some([(a, b), (c, d)])
    ensures Spelled(GluedRename(a, b, c, d)) == Some([(a, b), (c, d)])
  {
    TwoClauses(a, b, c, d);
    TwoClauseTexts(a, b, c, d);
  }
}
