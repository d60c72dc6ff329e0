/** Wildcard field patterns: matching, and the renaming of every matched field by `rename` and `stats`.

    A pattern is text in which `*` stands for any run of characters; matching is case sensitive.
 */
module Wildcards {
  import opened Wrappers

  const MAX_STARS := 32

  predicate Glob(name: string, pat: string)
    decreases |name| + |pat|
  {
    if pat == "" then name == ""
    else if pat[0] == '*' then Glob(name, pat[1..]) || (name != "" && Glob(name[1..], pat))
    else name != "" && name[0] == pat[0] && Glob(name[1..], pat[1..])
  }

  function Stars(pat: string): nat {
    if pat == "" then 0 else (if pat[0] == '*' then 1 else 0) + Stars(pat[1..])
  }

  predicate Literal(part: string) {
    '*' !in part
  }

  predicate Literals(parts: seq<string>) {
    forall i :: 0 <= i < |parts| ==> Literal(parts[i])
  }

  function Split(pat: string): (parts: seq<string>)
    ensures |parts| == Stars(pat) + 1 && Literals(parts)
  {
    if pat == "" then [""]
    else
      var rest := Split(pat[1..]);
      if pat[0] == '*' then [""] + rest else rest[0 := [pat[0]] + rest[0]]
  }

  /** The parts from `index` on, joined by stars. */
  function Join(parts: seq<string>, index: nat): string
    requires index < |parts|
    decreases |parts| - index
  {
    if index + 1 == |parts| then parts[index] else parts[index] + "*" + Join(parts, index + 1)
  }

  /** The captures, each followed by the part that closes it, from part `index` on. */
  function FillFrom(parts: seq<string>, index: nat, captures: seq<string>): string
    requires index + |captures| == |parts|
    decreases |captures|
  {
    if captures == [] then "" else captures[0] + parts[index] + FillFrom(parts, index + 1, captures[1..])
  }

  /** The literal parts with the captures between them. */
  function Fill(parts: seq<string>, captures: seq<string>): string
    requires |parts| == |captures| + 1
  {
    parts[0] + FillFrom(parts, 1, captures)
  }

  // ----- What matching means -----

  lemma {:induction false} JoinShift(a: seq<string>, b: seq<string>, i: nat, j: nat)
    requires i < |a| && j < |b| && a[i..] == b[j..]
    ensures Join(a, i) == Join(b, j)
    decreases |a| - i
  {
    assert a[i] == a[i..][0] == b[j];
    assert |a| - i == |a[i..]| == |b| - j;
    if i + 1 < |a| {
      assert a[i + 1..] == a[i..][1..] && b[j + 1..] == b[j..][1..];
      JoinShift(a, b, i + 1, j + 1);
    }
  }

  lemma {:induction false} JoinSplit(pat: string)
    ensures Join(Split(pat), 0) == pat
  {
    if pat != "" {
      var rest, parts := Split(pat[1..]), Split(pat);
      JoinSplit(pat[1..]);
      if pat[0] == '*' {
        assert parts[1..] == rest[0..];
        JoinShift(parts, rest, 1, 0);
      } else if |rest| > 1 {
        assert parts[1..] == rest[1..];
        JoinShift(parts, rest, 1, 1);
        assert parts[0] + "*" + Join(parts, 1) == [pat[0]] + (rest[0] + "*" + Join(rest, 1));
      }
    }
  }

  lemma {:induction false} GlobLiteral(name: string, part: string, rest: string)
    requires Literal(part)
    ensures Glob(name, part + rest) <==> part <= name && Glob(name[|part|..], rest)
  {
    if part == "" {
      assert part + rest == rest && name[0..] == name;
    } else {
      assert (part + rest)[1..] == part[1..] + rest;
      assert part[0] in part;
      if name != "" && name[0] == part[0] {
        GlobLiteral(name[1..], part[1..], rest);
        assert part[1..] <= name[1..] <==> part <= name;
        if part <= name {
          assert name[1..][|part[1..]|..] == name[|part|..];
        }
      }
    }
  }

  /** A pattern without stars matches only itself. */
  lemma OnlyItself(name: string, part: string)
    requires Literal(part)
    ensures Glob(name, part) <==> name == part
  {
    GlobLiteral(name, part, "");
    assert part + "" == part;
    assert part <= name && name[|part|..] == "" ==> name == part;
  }

  ghost predicate EndsAt(s: string, suffix: string, end: int) {
    0 <= end <= |s| && Glob(s[end..], suffix)
  }

  lemma {:induction false} GlobStar(name: string, rest: string)
    ensures Glob(name, "*" + rest) <==> exists end :: EndsAt(name, rest, end)
    decreases |name|
  {
    assert ("*" + rest)[1..] == rest && name[0..] == name;
    if name != "" {
      GlobStar(name[1..], rest);
      if end :| EndsAt(name[1..], rest, end) {
        assert name[1..][end..] == name[end + 1..];
        assert EndsAt(name, rest, end + 1);
      }
      if end :| EndsAt(name, rest, end) {
        if end > 0 {
          assert name[1..][end - 1..] == name[end..];
          assert EndsAt(name[1..], rest, end - 1);
        }
      }
    }
    assert Glob(name, rest) ==> EndsAt(name, rest, 0);
  }

  lemma StarMatches(head: string, tail: string, rest: string)
    requires Glob(tail, rest)
    ensures Glob(head + tail, "*" + rest)
  {
    assert (head + tail)[|head|..] == tail;
    assert EndsAt(head + tail, rest, |head|);
    GlobStar(head + tail, rest);
  }

  lemma LiteralMatches(part: string, tail: string, rest: string)
    requires Literal(part) && Glob(tail, rest)
    ensures Glob(part + tail, part + rest)
  {
    assert (part + tail)[|part|..] == tail;
    GlobLiteral(part + tail, part, rest);
  }

  /** Completing the literal parts with any captures gives a name that the pattern matches. */
  lemma {:induction false} FilledMatches(parts: seq<string>, index: nat, captures: seq<string>)
    requires Literals(parts) && index + 1 + |captures| == |parts|
    ensures Glob(parts[index] + FillFrom(parts, index + 1, captures), Join(parts, index))
    decreases |captures|
  {
    if captures == [] {
      LiteralMatches(parts[index], "", "");
      assert parts[index] + "" == parts[index];
    } else {
      FilledMatches(parts, index + 1, captures[1..]);
      var inner := parts[index + 1] + FillFrom(parts, index + 2, captures[1..]);
      StarMatches(captures[0], inner, Join(parts, index + 1));
      assert FillFrom(parts, index + 1, captures) == captures[0] + inner;
      LiteralMatches(parts[index], captures[0] + inner, "*" + Join(parts, index + 1));
      assert Join(parts, index) == parts[index] + ("*" + Join(parts, index + 1));
    }
  }

  // ----- The captures of a matched name -----

  /** Parts `index..` can be placed in the name from the cursor on. */
  ghost predicate Placeable(name: string, cursor: nat, parts: seq<string>, index: nat) {
    if index >= |parts| then cursor == |name|
    else exists end :: cursor <= end && EndsAt(name, Join(parts, index), end)
  }

  lemma PlaceableAfter(name: string, parts: seq<string>, index: nat, end: nat)
    requires index < |parts| && Literals(parts) && EndsAt(name, Join(parts, index), end)
    ensures end + |parts[index]| <= |name| && name[end..end + |parts[index]|] == parts[index]
    ensures Placeable(name, end + |parts[index]|, parts, index + 1)
  {
    var tail, part := name[end..], parts[index];
    var rest := if index + 1 == |parts| then "" else "*" + Join(parts, index + 1);
    assert Join(parts, index) == part + rest;
    GlobLiteral(tail, part, rest);
    assert tail[|part|..] == name[end + |part|..];
    if index + 1 < |parts| {
      GlobStar(tail[|part|..], Join(parts, index + 1));
      var e :| EndsAt(tail[|part|..], Join(parts, index + 1), e);
      assert tail[|part|..][e..] == name[end + |part| + e..];
      assert EndsAt(name, Join(parts, index + 1), end + |part| + e);
    }
  }

  /** The last position in `lo..hi` from which the rest of the name matches the suffix. */
  function LastEnd(name: string, suffix: string, lo: nat, hi: nat): (end: nat)
    requires lo <= hi <= |name|
    ensures lo <= end <= hi
  {
    if hi == lo || Glob(name[hi..], suffix) then hi else LastEnd(name, suffix, lo, hi - 1)
  }

  lemma {:induction false} LastEndIsLast(name: string, suffix: string, lo: nat, hi: nat, e: nat)
    requires lo <= e <= hi <= |name| && EndsAt(name, suffix, e)
    ensures e <= LastEnd(name, suffix, lo, hi) && EndsAt(name, suffix, LastEnd(name, suffix, lo, hi))
  {
    if hi > e && !Glob(name[hi..], suffix) {
      LastEndIsLast(name, suffix, lo, hi - 1, e);
    }
  }

  /** Each star takes as much of the name as the rest of the pattern allows. */
  function Captures(name: string, cursor: nat, parts: seq<string>, index: nat): (captures: seq<string>)
    ensures index <= |parts| ==> |captures| == |parts| - index
    decreases |parts| - index
  {
    if index >= |parts| then []
    else if cursor > |name| then seq(|parts| - index, _ => "")
    else
      var end := LastEnd(name, Join(parts, index), cursor, |name|);
      [name[cursor..end]] + Captures(name, end + |parts[index]|, parts, index + 1)
  }

  lemma CaptureStep(name: string, cursor: nat, parts: seq<string>, index: nat, end: nat)
    requires cursor <= |name| && index < |parts| && Literals(parts) && Placeable(name, cursor, parts, index)
    requires end == LastEnd(name, Join(parts, index), cursor, |name|)
    ensures end + |parts[index]| <= |name| && name[end..end + |parts[index]|] == parts[index]
    ensures Placeable(name, end + |parts[index]|, parts, index + 1)
  {
    var e :| cursor <= e && EndsAt(name, Join(parts, index), e);
    LastEndIsLast(name, Join(parts, index), cursor, |name|, e);
    PlaceableAfter(name, parts, index, end);
  }

  lemma FillStep(parts: seq<string>, index: nat, captures: seq<string>, head: string, rest: seq<string>)
    requires index + |captures| == |parts| && captures == [head] + rest
    ensures FillFrom(parts, index, captures) == head + parts[index] + FillFrom(parts, index + 1, rest)
  {
    assert captures[1..] == rest;
  }

  lemma Pieces(name: string, a: nat, b: nat, c: nat)
    requires a <= b <= c <= |name|
    ensures name[a..] == name[a..b] + name[b..c] + name[c..]
  {
  }

  lemma CapturesUnfold(name: string, cursor: nat, parts: seq<string>, index: nat, end: nat)
    requires cursor <= |name| && index < |parts| && end == LastEnd(name, Join(parts, index), cursor, |name|)
    ensures Captures(name, cursor, parts, index) ==
            [name[cursor..end]] + Captures(name, end + |parts[index]|, parts, index + 1)
  {
  }

  lemma FillOne(
    name: string, cursor: nat, end: nat, parts: seq<string>, index: nat, captures: seq<string>, rest: seq<string>)
    requires index < |parts| && index + |captures| == |parts|
    requires cursor <= end && end + |parts[index]| <= |name| && name[end..end + |parts[index]|] == parts[index]
    requires captures == [name[cursor..end]] + rest
    requires FillFrom(parts, index + 1, rest) == name[end + |parts[index]|..]
    ensures FillFrom(parts, index, captures) == name[cursor..]
  {
    FillStep(parts, index, captures, name[cursor..end], rest);
    Pieces(name, cursor, end, end + |parts[index]|);
  }

  lemma FillNext(name: string, cursor: nat, parts: seq<string>, index: nat, end: nat)
    requires cursor <= |name| && index < |parts| && end == LastEnd(name, Join(parts, index), cursor, |name|)
    requires end + |parts[index]| <= |name| && name[end..end + |parts[index]|] == parts[index]
    requires Filled(name, end + |parts[index]|, parts, index + 1)
    ensures Filled(name, cursor, parts, index)
  {
    var rest := Captures(name, end + |parts[index]|, parts, index + 1);
    CapturesUnfold(name, cursor, parts, index, end);
    FillOne(name, cursor, end, parts, index, Captures(name, cursor, parts, index), rest);
  }

  /** The captures from `cursor` on fill the parts to the rest of the name. */
  ghost predicate Filled(name: string, cursor: nat, parts: seq<string>, index: nat) {
    && cursor <= |name| && index <= |parts|
    && FillFrom(parts, index, Captures(name, cursor, parts, index)) == name[cursor..]
  }

  lemma FilledLast(name: string, parts: seq<string>)
    ensures Filled(name, |name|, parts, |parts|)
  {
  }

  lemma FilledStep(name: string, cursor: nat, parts: seq<string>, index: nat, end: nat)
    requires cursor <= |name| && index < |parts| && Literals(parts) && Placeable(name, cursor, parts, index)
    requires end == LastEnd(name, Join(parts, index), cursor, |name|)
    requires end + |parts[index]| <= |name| ==> Filled(name, end + |parts[index]|, parts, index + 1)
    ensures Filled(name, cursor, parts, index)
  {
    CaptureStep(name, cursor, parts, index, end);
    FillNext(name, cursor, parts, index, end);
  }

  lemma {:induction false} CapturesFill(name: string, cursor: nat, parts: seq<string>, index: nat)
    requires cursor <= |name| && index <= |parts| && Literals(parts) && Placeable(name, cursor, parts, index)
    ensures Filled(name, cursor, parts, index)
    decreases |parts| - index
  {
    if index < |parts| {
      var end := LastEnd(name, Join(parts, index), cursor, |name|);
      CaptureStep(name, cursor, parts, index, end);
      CapturesFill(name, end + |parts[index]|, parts, index + 1);
      FilledStep(name, cursor, parts, index, end);
    } else {
      FilledLast(name, parts);
    }
  }

  lemma MatchedPartsPlaceable(name: string, parts: seq<string>)
    requires |parts| > 0 && Literals(parts) && Glob(name, Join(parts, 0))
    ensures parts[0] <= name && Placeable(name, |parts[0]|, parts, 1)
  {
    assert name[0..] == name;
    PlaceableAfter(name, parts, 0, 0);
  }

  lemma MatchedIsPlaceable(name: string, pat: string)
    requires Glob(name, pat)
    ensures var parts := Split(pat); parts[0] <= name && Placeable(name, |parts[0]|, parts, 1)
  {
    JoinSplit(pat);
    MatchedPartsPlaceable(name, Split(pat));
  }

  function CapturesOf(name: string, pat: string): (captures: seq<string>)
    ensures |captures| == Stars(pat)
  {
    var parts := Split(pat);
    Captures(name, |parts[0]|, parts, 1)
  }

  function Renamed(name: string, source: string, target: string): string
    requires Stars(source) == Stars(target)
  {
    Fill(Split(target), CapturesOf(name, source))
  }

  /** The captures and the literal parts of the pattern reconstruct every matched name. */
  lemma Reconstructs(name: string, pat: string)
    requires Glob(name, pat)
    ensures Fill(Split(pat), CapturesOf(name, pat)) == name
  {
    MatchedIsPlaceable(name, pat);
    var parts := Split(pat);
    CapturesFill(name, |parts[0]|, parts, 1);
    assert parts[0] + name[|parts[0]|..] == name;
  }

  /** A renamed field always matches the target pattern, and renaming a pattern to itself changes nothing. */
  lemma RenamedMatchesTarget(name: string, source: string, target: string)
    requires Glob(name, source) && Stars(source) == Stars(target)
    ensures Glob(Renamed(name, source, target), target)
    ensures source == target ==> Renamed(name, source, target) == name
  {
    FilledMatches(Split(target), 0, CapturesOf(name, source));
    JoinSplit(target);
    Reconstructs(name, source);
  }

  // ----- The loops of the source -----

  /** The end of one star: the search down from the end of the name always succeeds. */
  method FindEnd(name: string, cursor: nat, suffix: string) returns (end: nat)
    requires cursor <= |name| && exists e :: cursor <= e && EndsAt(name, suffix, e)
    ensures cursor <= end <= |name| && Glob(name[end..], suffix)
    ensures end == LastEnd(name, suffix, cursor, |name|)
  {
    ghost var e :| cursor <= e && EndsAt(name, suffix, e);
    end := |name|;
    while !Glob(name[end..], suffix)
      invariant e <= end <= |name|
      invariant LastEnd(name, suffix, cursor, end) == LastEnd(name, suffix, cursor, |name|)
      decreases end
    {
      end := end - 1;
    }
  }

  lemma Regroup(done: seq<string>, next: string, rest: seq<string>)
    ensures done + ([next] + rest) == (done + [next]) + rest
  {
  }

  /** What is captured so far and what remains to be captured make up the captures of the name. */
  ghost predicate Gathered(name: string, parts: seq<string>, captures: seq<string>, cursor: nat, index: nat)
    requires |parts| > 0
  {
    captures + Captures(name, cursor, parts, index) == Captures(name, |parts[0]|, parts, 1)
  }

  lemma GatherOne(name: string, parts: seq<string>, captures: seq<string>, cursor: nat, index: nat, end: nat)
    requires cursor <= |name| && 1 <= index < |parts| && end == LastEnd(name, Join(parts, index), cursor, |name|)
    requires Gathered(name, parts, captures, cursor, index)
    ensures Gathered(name, parts, captures + [name[cursor..end]], end + |parts[index]|, index + 1)
  {
    CapturesUnfold(name, cursor, parts, index, end);
    Regroup(captures, name[cursor..end], Captures(name, end + |parts[index]|, parts, index + 1));
  }

  /** The capture loop: `cursor` walks the name and every star finds its end. */
  method CapturesIn(name: string, parts: seq<string>) returns (captures: seq<string>)
    requires |parts| > 0 && Literals(parts) && |parts[0]| <= |name|
    requires Placeable(name, |parts[0]|, parts, 1)
    ensures captures == Captures(name, |parts[0]|, parts, 1)
  {
    var cursor := |parts[0]|;
    captures := [];
    var index := 1;
    while index < |parts|
      invariant 1 <= index <= |parts| && 0 <= cursor <= |name|
      invariant Placeable(name, cursor, parts, index)
      invariant Gathered(name, parts, captures, cursor, index)
    {
      var end := FindEnd(name, cursor, Join(parts, index));
      CaptureStep(name, cursor, parts, index, end);
      GatherOne(name, parts, captures, cursor, index, end);
      captures := captures + [name[cursor..end]];
      cursor := end + |parts[index]|;
      index := index + 1;
    }
  }

  /** Every matched known field, and what each becomes. */
  method Aliases(known: set<string>, source: string, target: string)
    returns (r: Option<(set<string>, set<string>)>)
    ensures r.None? <==> Stars(source) != Stars(target) || Stars(source) > 32
    ensures r.Some? ==> r.value.0 == set n | n in known && Glob(n, source)
    ensures r.Some? ==> r.value.1 == set n | n in known && Glob(n, source) :: Renamed(n, source, target)
  {
    if Stars(source) != Stars(target) || Stars(source) > MAX_STARS {
      return None;
    }
    var matched := set n | n in known && Glob(n, source);
    var renamed: set<string> := {};
    var todo := matched;
    while todo != {}
      invariant todo <= matched
      invariant renamed == set n | n in matched && n !in todo :: Renamed(n, source, target)
      decreases |todo|
    {
      var name :| name in todo;
      MatchedIsPlaceable(name, source);
      var captures := CapturesIn(name, Split(source));
      todo := todo - {name};
      renamed := renamed + {Fill(Split(target), captures)};
    }
    return Some((matched, renamed));
  }
}
