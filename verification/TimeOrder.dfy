/** Stable ordering of records by event time, with unknown times last. */
module TimeOrder {
  import opened Wrappers
  import opened Basics

  type Stamp = Option<int>

  /** Whether a record with the first stamp may stand before one with the second. */
  predicate Before(a: Stamp, b: Stamp) {
    if a.None? then b.None? else b.None? || a.value <= b.value
  }

  ghost predicate Sorted<T>(s: seq<T>, at: T -> Stamp) {
    forall i, j :: 0 <= i < j < |s| ==> Before(at(s[i]), at(s[j]))
  }

  function Keep<T>(x: T, keep: T -> bool): seq<T> {
    if keep(x) then [x] else []
  }

  /** The kept records among the first `n`, in order. */
  function Select<T>(s: seq<T>, n: nat, keep: T -> bool): seq<T>
    requires n <= |s|
  {
    if n == 0 then [] else Select(s, n - 1, keep) + Keep(s[n - 1], keep)
  }

  function Filter<T>(s: seq<T>, keep: T -> bool): seq<T> {
    Select(s, |s|, keep)
  }

  function Insert<T>(x: T, s: seq<T>, at: T -> Stamp): (r: seq<T>)
    ensures multiset(r) == multiset(s) + multiset{x}
  {
    if s == [] || Before(at(x), at(s[0])) then [x] + s
    else
      assert s == [s[0]] + s[1..];
      [s[0]] + Insert(x, s[1..], at)
  }

  function Sort<T>(s: seq<T>, at: T -> Stamp): (r: seq<T>)
    ensures multiset(r) == multiset(s)
  {
    if s == [] then [] else
      assert s == [s[0]] + s[1..];
      Insert(s[0], Sort(s[1..], at), at)
  }

  lemma {:induction false} InsertSorted<T>(x: T, s: seq<T>, at: T -> Stamp)
    requires Sorted(s, at)
    ensures Sorted(Insert(x, s, at), at)
  {
    if s != [] && !Before(at(x), at(s[0])) {
      InsertSorted(x, s[1..], at);
      var r := Insert(x, s[1..], at);
      forall j | 0 <= j < |r| ensures Before(at(s[0]), at(r[j])) {
        assert r[j] in multiset(r);
        assert r[j] == x || r[j] in s[1..];
      }
    }
  }

  lemma {:induction false} SortSorted<T>(s: seq<T>, at: T -> Stamp)
    ensures Sorted(Sort(s, at), at)
  {
    if s != [] {
      SortSorted(s[1..], at);
      InsertSorted(s[0], Sort(s[1..], at), at);
    }
  }

  lemma Assoc<T>(a: seq<T>, b: seq<T>, c: seq<T>)
    ensures (a + b) + c == a + (b + c)
  {
  }

  lemma {:induction false} SelectCons<T>(x: T, s: seq<T>, n: nat, keep: T -> bool)
    requires n <= |s|
    ensures Select([x] + s, n + 1, keep) == Keep(x, keep) + Select(s, n, keep)
  {
    if n > 0 {
      SelectCons(x, s, n - 1, keep);
      assert ([x] + s)[n] == s[n - 1];
      Assoc(Keep(x, keep), Select(s, n - 1, keep), Keep(s[n - 1], keep));
    }
  }

  lemma FilterCons<T>(x: T, s: seq<T>, keep: T -> bool)
    ensures Filter([x] + s, keep) == Keep(x, keep) + Filter(s, keep)
  {
    SelectCons(x, s, |s|, keep);
  }

  function HasStamp<T>(at: T -> Stamp, t: Stamp): T -> bool {
    y => at(y) == t
  }

  lemma {:induction false} InsertFilter<T>(x: T, s: seq<T>, at: T -> Stamp, t: Stamp)
    ensures Filter(Insert(x, s, at), HasStamp(at, t)) == Filter([x] + s, HasStamp(at, t))
  {
    var keep := HasStamp(at, t);
    if s != [] && !Before(at(x), at(s[0])) {
      var tail := s[1..];
      calc {
        Filter(Insert(x, s, at), keep);
        { FilterCons(s[0], Insert(x, tail, at), keep); }
        Keep(s[0], keep) + Filter(Insert(x, tail, at), keep);
        { InsertFilter(x, tail, at, t); FilterCons(x, tail, keep); }
        Keep(s[0], keep) + (Keep(x, keep) + Filter(tail, keep));
        Keep(x, keep) + (Keep(s[0], keep) + Filter(tail, keep));
        { assert s == [s[0]] + tail; FilterCons(s[0], tail, keep); FilterCons(x, s, keep); }
        Filter([x] + s, keep);
      }
    }
  }

  /** Sorting is stable: records with equal stamps keep their order. */
  lemma {:induction false} SortStable<T>(s: seq<T>, at: T -> Stamp, t: Stamp)
    ensures Filter(Sort(s, at), HasStamp(at, t)) == Filter(s, HasStamp(at, t))
  {
    if s != [] {
      var keep := HasStamp(at, t);
      SortStable(s[1..], at, t);
      InsertFilter(s[0], Sort(s[1..], at), at, t);
      FilterCons(s[0], Sort(s[1..], at), keep);
      FilterCons(s[0], s[1..], keep);
      assert s == [s[0]] + s[1..];
    }
  }

  /** A filter and its complement hold every record once. */
  lemma {:induction false} FilterSplits<T>(s: seq<T>, keep: T -> bool, other: T -> bool)
    requires forall i :: 0 <= i < |s| ==> keep(s[i]) != other(s[i])
    ensures multiset(Filter(s, keep)) + multiset(Filter(s, other)) == multiset(s)
  {
    if s != [] {
      var h, t := s[0], s[1..];
      assert s == [h] + t;
      FilterSplits(t, keep, other);
      FilterCons(h, t, keep);
      FilterCons(h, t, other);
      assert multiset(Keep(h, keep) + Filter(t, keep)) == multiset(Keep(h, keep)) + multiset(Filter(t, keep));
      assert multiset(Keep(h, other) + Filter(t, other)) == multiset(Keep(h, other)) + multiset(Filter(t, other));
    }
  }

  /** Selecting by a property that holds on exactly one block of positions gives that block. */
  lemma {:induction false} SelectBlock<T>(s: seq<T>, n: nat, keep: T -> bool, lo: nat, hi: nat)
    requires lo <= hi <= |s| && n <= |s| && forall i :: 0 <= i < n ==> (keep(s[i]) <==> lo <= i < hi)
    ensures Select(s, n, keep) == s[Min(lo, n)..Min(hi, n)]
  {
    if n > 0 {
      SelectBlock(s, n - 1, keep, lo, hi);
      var before, after := s[Min(lo, n - 1)..Min(hi, n - 1)], s[Min(lo, n)..Min(hi, n)];
      assert after == if lo <= n - 1 < hi then before + [s[n - 1]] else before;
    }
  }

  /** Selected records of a sorted list are sorted, and bounded by the last record looked at. */
  lemma {:induction false} SelectSorted<T>(s: seq<T>, n: nat, keep: T -> bool, at: T -> Stamp)
    requires n <= |s| && Sorted(s, at)
    ensures Sorted(Select(s, n, keep), at)
    ensures forall i, j :: 0 <= i < |Select(s, n, keep)| && n <= j < |s| ==> Before(at(Select(s, n, keep)[i]), at(s[j]))
  {
    if n > 0 {
      SelectSorted(s, n - 1, keep, at);
    }
  }
}
