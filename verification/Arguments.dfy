/** The arguments of a pipeline command as they are written: lexical tokens with the white space between them, the
    words that a pattern over the text sees, and the names that the tokens stand for.
 */
module Arguments {
  import opened Wrappers

  /** One lexical token as written, and whether white space precedes it. */
  datatype Lexeme = Lexeme(text: string, spaced: bool)

  function Gap(l: Lexeme): string {
    if l.spaced then " " else ""
  }

  /** The arguments as one text. */
  function AsWritten(args: seq<Lexeme>): string {
    if args == [] then "" else Gap(args[0]) + args[0].text + AsWritten(args[1..])
  }

  function Texts(args: seq<Lexeme>): (texts: seq<string>)
    ensures |texts| == |args| && forall i :: 0 <= i < |args| ==> texts[i] == args[i].text
  {
    seq(|args|, i requires 0 <= i < |args| => args[i].text)
  }

  lemma {:induction false} WrittenConcat(a: seq<Lexeme>, b: seq<Lexeme>)
    ensures AsWritten(a + b) == AsWritten(a) + AsWritten(b)
    decreases |a|
  {
    if a == [] {
      assert a + b == b;
    } else {
      assert (a + b)[1..] == a[1..] + b;
      WrittenConcat(a[1..], b);
    }
  }

  // ----- Words -----

  function Flush(word: string): seq<string> {
    if word == "" then [] else [word]
  }

  /** The maximal runs without a separator, after a run that has already begun. */
  function WordsAfter(separators: set<char>, begun: string, s: string): seq<string>
    decreases |s|
  {
    if s == "" then Flush(begun)
    else if s[0] in separators then Flush(begun) + WordsAfter(separators, "", s[1..])
    else WordsAfter(separators, begun + [s[0]], s[1..])
  }

  predicate Whole(separators: set<char>, word: string) {
    forall c :: c in word ==> c !in separators
  }

  lemma {:induction false} WordGrows(separators: set<char>, begun: string, word: string, rest: string)
    requires Whole(separators, word)
    ensures WordsAfter(separators, begun, word + rest) == WordsAfter(separators, begun + word, rest)
    decreases |word|
  {
    if word == "" {
      assert word + rest == rest && begun + word == begun;
    } else {
      assert word[0] in word && forall c :: c in word[1..] ==> c in word;
      assert (word + rest)[1..] == word[1..] + rest;
      WordGrows(separators, begun + [word[0]], word[1..], rest);
      assert begun + [word[0]] + word[1..] == begun + word;
    }
  }

  // ----- Quotation -----

  predicate IsQuote(c: char) { c == '"' || c == '\'' }

  function StripLeft(s: string): string {
    if s != "" && IsQuote(s[0]) then StripLeft(s[1..]) else s
  }

  function StripRight(s: string): string {
    if s != "" && IsQuote(s[|s| - 1]) then StripRight(s[..|s| - 1]) else s
  }

  /** The text without the quotation marks at its ends. */
  function Stripped(s: string): string {
    StripRight(StripLeft(s))
  }

  function Unescaped(s: string): string {
    if |s| < 2 then s
    else if s[0] == '\\' && (IsQuote(s[1]) || s[1] == '\\') then [s[1]] + Unescaped(s[2..])
    else [s[0]] + Unescaped(s[1..])
  }

  /** The name that a token stands for; `None` for an unclosed quotation. */
  function NameOf(text: string): Option<string> {
    if text == "" || !IsQuote(text[0]) then Some(text)
    else if |text| < 2 || text[|text| - 1] != text[0] then None
    else Some(Unescaped(text[1..|text| - 1]))
  }

  /** A token without white space or quotation marks. */
  predicate Bare(text: string) {
    text != "" && forall c :: c in text ==> c != ' ' && !IsQuote(c)
  }

  lemma StrippedBare(text: string)
    requires Bare(text)
    ensures Stripped(text) == text && NameOf(text) == Some(text)
  {
    assert text[0] in text && text[|text| - 1] in text;
  }

  predicate Unmarked(s: string) {
    forall c :: c in s ==> !IsQuote(c) && c != '\\'
  }

  /** Only the plain spelling stands for a name without marks. */
  lemma {:induction false} UnescapedPlain(s: string, name: string)
    requires Unescaped(s) == name && Unmarked(name)
    ensures s == name
  {
    if |s| >= 2 {
      assert name[0] in name;
      assert !(s[0] == '\\' && (IsQuote(s[1]) || s[1] == '\\'));
      assert name[1..] == Unescaped(s[1..]) && forall c :: c in name[1..] ==> c in name;
      UnescapedPlain(s[1..], name[1..]);
    }
  }

  /** A name without marks is written as it is or between two equal quotation marks. */
  lemma NameIsPlain(text: string, name: string) returns (mark: string)
    requires NameOf(text) == Some(name) && Unmarked(name)
    ensures text == mark + name + mark
    ensures mark == "" || mark == "\"" || mark == "'"
  {
    if text == "" || !IsQuote(text[0]) {
      mark := "";
    } else {
      mark := [text[0]];
      UnescapedPlain(text[1..|text| - 1], name);
      assert text == [text[0]] + text[1..|text| - 1] + [text[|text| - 1]];
    }
  }
}
