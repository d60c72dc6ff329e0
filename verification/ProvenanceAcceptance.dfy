/** Which commands of a raw pipeline the normaliser rejects, and what it adds to those it keeps. */
module ProvenanceAcceptance {
  import opened Wrappers
  import opened Wildcards
  import opened Arguments
  import opened Renames
  import opened Provenance

  /** The field is one that native provenance needs. */
  predicate IsSource(f: string) {
    f == "index" || f == "sourcetype" || f == "_time" || f == "_cd"
  }

  lemma SourceFieldsExactly(f: string)
    ensures f in SOURCE_FIELDS <==> IsSource(f)
  {
  }

  lemma RejectedExactly(s: Segment)
    ensures Preserved(s).None? <==> exists f :: IsSource(f) && Modifies(s, f)
  {
    if f :| IsSource(f) && Modifies(s, f) {
      SourceFieldsExactly(f);
    }
    if Preserved(s).None? {
      var f :| f in SOURCE_FIELDS && Modifies(s, f);
      SourceFieldsExactly(f);
    }
  }

  /** A projection is never rejected. */
  lemma ProjectionIsAccepted(args: seq<Lexeme>)
    ensures Preserved(Fields(false, args)) == Some(Fields(false, args + Missing(args, SOURCE_FIELDS)))
    ensures Preserved(Table(args)) == Some(Table(args + Missing(args, SOURCE_FIELDS)))
  {
  }

  lemma {:induction false} MissingMembers(args: seq<Lexeme>, wanted: seq<string>, l: Lexeme)
    ensures l in Missing(args, wanted) <==> l.spaced && l.text in wanted && !IsWord(args, l.text)
  {
    if wanted != [] {
      MissingMembers(args, wanted[1..], l);
      assert wanted == [wanted[0]] + wanted[1..];
    }
  }

  /** It gets each of the four source fields that is none of its words, set apart, and nothing else. */
  lemma ProjectionGets(args: seq<Lexeme>, l: Lexeme)
    ensures l in Missing(args, SOURCE_FIELDS) <==> l.spaced && IsSource(l.text) && !IsWord(args, l.text)
  {
    MissingMembers(args, SOURCE_FIELDS, l);
    SourceFieldsExactly(l.text);
  }

  /** Spaced unquoted renames are rejected if and only if one of their pairs names a source field on either side. */
  lemma SpacedRenameExactly(args: seq<Lexeme>)
    requires forall l :: l in args ==> l.spaced && Bare(l.text)
    requires Spelled(args).Some? && forall p :: p in Spelled(args).value ==> !IsAs(p.0)
    ensures Preserved(Rename(args)).None? <==>
            exists p, f :: p in Spelled(args).value && IsSource(f) && (Glob(f, p.0) || Glob(f, p.1))
  {
    SpacedIsSeen(args);
    if p, f :| p in Spelled(args).value && IsSource(f) && (Glob(f, p.0) || Glob(f, p.1)) {
      SourceFieldsExactly(f);
      assert Modifies(Rename(args), f);
    }
    if Preserved(Rename(args)).None? {
      var f :| f in SOURCE_FIELDS && Modifies(Rename(args), f);
      SourceFieldsExactly(f);
      var p :| p in Seen(args) && (Glob(f, p.0) || Glob(f, p.1));
    }
  }

  /** A name of a plain list is what the normaliser makes of its word. */
  lemma {:induction false} PlainNames(args: seq<Lexeme>, w: string)
    requires forall l :: l in args ==> PlainItem(l)
    requires w in Names(args)
    ensures w != "-" && Stripped(Trimmed({'-'}, w)) == w
    decreases |args|
  {
    var l, rest := args[0], args[1..];
    assert l in args && args == [l] + rest;
    ItemNames(l, rest);
    if w in Names(rest) {
      PlainNames(rest, w);
    } else {
      PlainWord(l);
    }
  }

  lemma {:induction false} TrimmedEnds(marks: set<char>, s: string)
    ensures |Trimmed(marks, s)| <= |s|
    ensures s != "" && s[0] in marks ==> |Trimmed(marks, s)| < |s|
  {
    if s != "" && s[0] in marks {
      TrimmedEnds(marks, s[1..]);
    }
  }

  lemma {:induction false} UnescapedShrinks(s: string)
    ensures |Unescaped(s)| <= |s|
  {
    if |s| >= 2 {
      UnescapedShrinks(s[1..]);
      UnescapedShrinks(s[2..]);
    }
  }

  lemma PlainWord(l: Lexeme)
    requires PlainItem(l) && l.text != ","
    ensures l.text != "-" && Stripped(Trimmed({'-'}, l.text)) == l.text
  {
    var t := Trimmed({'+', '-'}, l.text);
    TrimmedEnds({'+', '-'}, l.text);
    if t != "" && IsQuote(t[0]) && |t| >= 2 {
      UnescapedShrinks(t[1..|t| - 1]);
    }
    assert l.text[0] !in {'+', '-'};
  }

  /** The words of `fields - a, b` are the dash and the names. */
  lemma DropWords(args: seq<Lexeme>)
    requires forall l :: l in args ==> PlainItem(l)
    ensures Words([Lexeme("-", true)] + args) == ["-"] + Names(args)
  {
    var all, rest := [Lexeme("-", true)] + args, AsWritten(args);
    assert all[1..] == args;
    var text := AsWritten(all);
    assert text[0] == ' ' && text[1..] == "-" + rest;
    WordGrows(BREAKS, "", "-", rest);
    assert "" + "-" == "-";
    PlainListWords("-", args);
  }

  lemma DropModifies(args: seq<Lexeme>, f: string)
    requires forall l :: l in args ==> PlainItem(l)
    ensures IsRemovedWord([Lexeme("-", true)] + args, f) <==> Selected(Names(args), f)
  {
    DropWords(args);
    var words, names := Words([Lexeme("-", true)] + args), Names(args);
    forall n | n in names ensures n != "-" && Stripped(Trimmed({'-'}, n)) == n {
      PlainNames(args, n);
    }
    assert forall w :: w in words <==> w == "-" || w in names;
  }

  /** `fields -` of a plain list is rejected if and only if one of the listed patterns takes in a source field. */
  lemma PlainDropExactly(args: seq<Lexeme>, s: Segment)
    requires forall l :: l in args ==> PlainItem(l)
    requires s == Fields(true, [Lexeme("-", true)] + args)
    ensures Preserved(s).None? <==> exists f :: IsSource(f) && Selected(Names(args), f)
  {
    RejectedExactly(s);
    forall f ensures Modifies(s, f) <==> Selected(Names(args), f) {
      DropModifies(args, f);
    }
  }

  // ----- One assignment -----

  /** A field name without anything that the pattern could stop at. */
  predicate Simple(name: string) {
    name != "" && forall c :: c in name ==> c != ' ' && c != '=' && c != ',' && !IsQuote(c)
  }

  lemma AssignedName(name: string, tail: string, f: string)
    requires Simple(name) && Simple(f) && tail != "" && (tail[0] == ' ' || tail[0] == '=')
    requires Assigns(" " + (name + tail), f)
    ensures f == name
  {
    var named := name + tail;
    assert named[0] == name[0] && name[0] in name;
    TrimmedGap(" ", named);
    assert Unquoted(named) == named && f <= named;
    if |f| < |name| {
      StopsInside(name, tail, f);
    } else if |f| > |name| {
      RunsOver(name, tail, f);
    } else {
      assert f == named[..|f|] == name;
    }
  }

  /** A proper beginning of the name is not followed by the sign. */
  lemma StopsInside(name: string, tail: string, f: string)
    requires Simple(name) && |f| < |name|
    ensures !("=" <= Trimmed({' '}, Unquoted((name + tail)[|f|..])))
  {
    var after := (name + tail)[|f|..];
    assert after[0] == name[|f|] && name[|f|] in name;
  }

  lemma RunsOver(name: string, tail: string, f: string)
    requires Simple(f) && |f| > |name| && tail != "" && (tail[0] == ' ' || tail[0] == '=')
    ensures !(f <= name + tail)
  {
    assert f[|name|] in f && (name + tail)[|name|] == tail[0];
  }

  /** Without a comma the pattern looks at the start of the text only. */
  lemma AssignedAtStart(args: seq<Lexeme>, f: string)
    requires ',' !in AsWritten(args)
    ensures IsAssigned(args, f) <==> Assigns(AsWritten(args), f)
  {
    var text := AsWritten(args);
    assert text[0..] == text;
    forall i: nat | i < |text| ensures text[i] != ',' {
      assert text[i] in text;
    }
  }

  lemma AssignmentText(name: string, sign: Lexeme, rest: seq<Lexeme>)
    requires sign.text == "="
    ensures AsWritten([Lexeme(name, true)] + ([sign] + rest)) == " " + (name + (Gap(sign) + ("=" + AsWritten(rest))))
  {
    assert ([Lexeme(name, true)] + ([sign] + rest))[1..] == [sign] + rest;
    assert ([sign] + rest)[1..] == rest;
  }

  lemma NoComma(name: string, gap: string, rest: string)
    requires Simple(name) && (gap == "" || gap == " ") && ',' !in rest
    ensures ',' !in " " + (name + (gap + ("=" + rest)))
  {
  }

  lemma SourceIsPlain(f: string)
    requires IsSource(f)
    ensures Plain(f)
  {
    SourceFieldsExactly(f);
    SourceFieldsArePlain();
  }

  lemma WithoutMarks(name: string, tail: string)
    ensures "" + (name + ("" + tail)) == name + tail
  {
  }

  lemma PlainIsAssigned(name: string, gap: string, rest: string)
    requires Plain(name) && (gap == "" || gap == " ")
    ensures Assigns(" " + (name + (gap + ("=" + rest))), name)
  {
    NameAssigned(" ", "", name, gap, rest);
    WithoutMarks(name, gap + ("=" + rest));
  }

  lemma SourceIsSimple(f: string)
    requires IsSource(f)
    ensures Simple(f)
  {
  }

  lemma TailStarts(gap: string, rest: string) returns (tail: string)
    requires gap == "" || gap == " "
    ensures tail == gap + ("=" + rest) && tail != "" && (tail[0] == ' ' || tail[0] == '=')
  {
    tail := gap + ("=" + rest);
  }

  lemma OtherIsNotAssigned(name: string, gap: string, rest: string, f: string)
    requires Simple(name) && IsSource(f) && (gap == "" || gap == " ") && f != name
    ensures !Assigns(" " + (name + (gap + ("=" + rest))), f)
  {
    SourceIsSimple(f);
    var tail := TailStarts(gap, rest);
    if Assigns(" " + (name + tail), f) {
      AssignedName(name, tail, f);
    }
  }

  lemma AssignmentModifies(name: string, sign: Lexeme, rest: seq<Lexeme>, args: seq<Lexeme>, f: string)
    requires Simple(name) && sign.text == "=" && ',' !in AsWritten(rest) && IsSource(f)
    requires args == [Lexeme(name, true)] + ([sign] + rest)
    ensures IsAssigned(args, f) <==> f == name
  {
    AssignmentText(name, sign, rest);
    NoComma(name, Gap(sign), AsWritten(rest));
    AssignedAtStart(args, f);
    if f == name {
      SourceIsPlain(name);
      PlainIsAssigned(name, Gap(sign), AsWritten(rest));
    } else {
      OtherIsNotAssigned(name, Gap(sign), AsWritten(rest), f);
    }
  }

  /** `eval name = ...` with a single assignment is rejected if and only if it sets a source field. */
  lemma SingleAssignmentExactly(name: string, sign: Lexeme, rest: seq<Lexeme>, s: Segment)
    requires Simple(name) && sign.text == "=" && ',' !in AsWritten(rest)
    requires s == Evaluate([Lexeme(name, true)] + ([sign] + rest))
    ensures Preserved(s).None? <==> IsSource(name)
  {
    RejectedExactly(s);
    forall f | IsSource(f) ensures Modifies(s, f) <==> f == name {
      AssignmentModifies(name, sign, rest, s.args, f);
    }
  }
}
