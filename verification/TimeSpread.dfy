/** Spreading a bounded evidence sample over time.

    The earliest and the latest timed records come first; then intervals of the sorted order are halved
    breadth first.  Records without a time are interleaved.
 */
module TimeSpread {
  import opened Wrappers
  import opened Basics
  import opened TimeOrder

  /** The positions `left..right` of the sorted order that are still to be visited. */
  datatype Interval = Interval(left: nat, right: nat)

  predicate Inside(iv: Interval, p: int) {
    iv.left <= p < iv.right
  }

  function Size(iv: Interval): nat {
    if iv.left < iv.right then iv.right - iv.left else 0
  }

  function Middle(iv: Interval): nat {
    (iv.left + iv.right) / 2
  }

  function Pow2(d: nat): nat {
    if d == 0 then 1 else 2 * Pow2(d - 1)
  }

  /** `n` halved `d` times, rounding down. */
  function Halved(n: nat, d: nat): nat {
    if d == 0 then n else Halved(n, d - 1) / 2
  }

  lemma {:induction false} PowPositive(d: nat)
    ensures Pow2(d) > 0
  {
    if d > 0 {
      PowPositive(d - 1);
    }
  }

  lemma {:induction false} PowMonotone(c: nat, d: nat)
    requires c <= d
    ensures Pow2(c) <= Pow2(d)
  {
    if c < d {
      PowMonotone(c, d - 1);
      PowPositive(d - 1);
    }
  }

  lemma {:induction false} HalvedMonotone(n: nat, c: nat, d: nat)
    requires c <= d
    ensures Halved(n, d) <= Halved(n, c)
  {
    if c < d {
      HalvedMonotone(n, c, d - 1);
    }
  }

  lemma MulMonotone(a: int, b: int, m: nat)
    requires a <= b
    ensures a * m <= b * m
  {
  }

  lemma DivUnique(n: nat, m: nat, q: nat, r: nat)
    requires m > 0 && r < m && n == q * m + r
    ensures n / m == q
  {
    assert n == (n / m) * m + n % m;
    if q < n / m {
      MulMonotone(q + 1, n / m, m);
    } else if n / m < q {
      MulMonotone(n / m + 1, q, m);
    }
  }

  lemma Regroup(x: nat, y: nat, b: nat, p: nat)
    requires x == 2 * y + b
    ensures x * p == y * (2 * p) + b * p
  {
  }

  lemma {:induction false} HalvedIsQuotient(n: nat, d: nat)
    ensures Pow2(d) > 0 && Halved(n, d) == n / Pow2(d)
  {
    PowPositive(d);
    if d > 0 {
      HalvedIsQuotient(n, d - 1);
      var p := Pow2(d - 1);
      var x := n / p;
      var y, b := x / 2, x % 2;
      assert n == x * p + n % p;
      Regroup(x, y, b, p);
      MulMonotone(b, 1, p);
      DivUnique(n, 2 * p, y, b * p + n % p);
    }
  }

  // ----- What the visiting order guarantees -----

  /** The positions `a..b` form a run that has not been picked yet. */
  ghost predicate Unpicked(picked: seq<nat>, a: int, b: int) {
    a < b && forall p :: a <= p < b ==> p !in picked
  }

  ghost predicate GapsAtMost(picked: seq<nat>, n: nat, gap: nat) {
    forall a, b :: 0 <= a && b <= n && Unpicked(picked, a, b) ==> b - a <= gap
  }

  ghost predicate IsPermutation(order: seq<nat>, n: nat) {
    Distinct(order) && (forall p :: p in order ==> p < n) && (forall p :: 0 <= p < n ==> p in order)
  }

  /** After `2^d + 1` picks no run of unpicked positions is longer than `(n - 2) / 2^d`. */
  ghost predicate Dispersed(order: seq<nat>, n: nat)
    requires n >= 2
  {
    forall d: nat, m: nat :: Pow2(d) + 1 <= m <= |order| ==> GapsAtMost(order[..m], n, Halved(n - 2, d))
  }

  // ----- The state of the interval queue -----

  /** Every queued interval is bounded by picked positions on both sides. */
  ghost predicate Framed(order: seq<nat>, ivs: seq<Interval>, n: nat) {
    forall i :: 0 <= i < |ivs| ==>
      1 <= ivs[i].left <= ivs[i].right < n && ivs[i].left - 1 in order && ivs[i].right in order
  }

  ghost predicate Queued(ivs: seq<Interval>, p: int) {
    exists i :: 0 <= i < |ivs| && Inside(ivs[i], p)
  }

  ghost predicate Covered(order: seq<nat>, ivs: seq<Interval>, n: nat) {
    forall p :: 0 <= p < n ==> p in order || Queued(ivs, p)
  }

  /** The queued positions are unpicked and the queued intervals do not overlap. */
  ghost predicate Disjoint(order: seq<nat>, ivs: seq<Interval>) {
    && (forall i, p :: 0 <= i < |ivs| && Inside(ivs[i], p) ==> p !in order)
    && (forall i, j, p :: 0 <= i < j < |ivs| && Inside(ivs[i], p) ==> !Inside(ivs[j], p))
  }

  /** The first `front` intervals belong to level `k` and the others to the next level. */
  ghost predicate Sized(ivs: seq<Interval>, front: nat, n: nat, k: nat) {
    front <= |ivs|
    && (forall i :: 0 <= i < front ==> Size(ivs[i]) <= Halved(n, k))
    && (forall i :: front <= i < |ivs| ==> Size(ivs[i]) <= Halved(n, k + 1))
  }

  /** How many intervals and picks each level can have; `before` and `now` count the picks below and at level `k`. */
  ghost predicate Counted(ivs: seq<Interval>, front: nat, k: nat, before: nat, now: nat) {
    front <= |ivs| && before + 1 <= Pow2(k) && front + now <= Pow2(k) && |ivs| - front <= 2 * now
  }

  function Weight(ivs: seq<Interval>): nat {
    if ivs == [] then 0 else 2 * Size(ivs[0]) + 1 + Weight(ivs[1..])
  }

  lemma {:induction false} WeightConcat(a: seq<Interval>, b: seq<Interval>)
    ensures Weight(a + b) == Weight(a) + Weight(b)
  {
    if a == [] {
      assert a + b == b;
    } else {
      WeightConcat(a[1..], b);
      assert (a + b)[1..] == a[1..] + b;
    }
  }

  /** Unpicked runs lie inside queued intervals, so they are no longer than the longest of them. */
  lemma GapsFromIntervals(order: seq<nat>, ivs: seq<Interval>, n: nat, gap: nat)
    requires Framed(order, ivs, n) && Covered(order, ivs, n)
    requires forall i :: 0 <= i < |ivs| ==> Size(ivs[i]) <= gap
    ensures GapsAtMost(order, n, gap)
  {
    forall a, b | 0 <= a && b <= n && Unpicked(order, a, b) ensures b - a <= gap {
      assert Queued(ivs, a);
      var i :| 0 <= i < |ivs| && Inside(ivs[i], a);
      assert ivs[i].right in order;
    }
  }

  /** With enough picks every queued interval is small. */
  lemma SmallIntervals(ivs: seq<Interval>, front: nat, n: nat, k: nat, before: nat, now: nat, d: nat)
    requires Sized(ivs, front, n, k) && Counted(ivs, front, k, before, now)
    requires Pow2(d) <= before + now + 1
    ensures forall i :: 0 <= i < |ivs| ==> Size(ivs[i]) <= Halved(n, d)
  {
    HalvedMonotone(n, k, k + 1);
    if d <= k {
      HalvedMonotone(n, d, k);
    } else {
      PowMonotone(k + 1, d);
      if d > k + 1 {
        PowMonotone(k + 2, d);
        PowPositive(k);
      }
    }
  }

  // ----- One turn of the loop -----

  function Halves(iv: Interval): seq<Interval> {
    [Interval(iv.left, Middle(iv)), Interval(Middle(iv) + 1, iv.right)]
  }

  lemma PickFramed(order: seq<nat>, ivs: seq<Interval>, n: nat)
    requires |ivs| > 0 && ivs[0].left < ivs[0].right && Framed(order, ivs, n)
    ensures Framed(order + [Middle(ivs[0])], ivs[1..] + Halves(ivs[0]), n)
  {
  }

  lemma PickCovered(order: seq<nat>, ivs: seq<Interval>, n: nat)
    requires |ivs| > 0 && ivs[0].left < ivs[0].right && Covered(order, ivs, n)
    ensures Covered(order + [Middle(ivs[0])], ivs[1..] + Halves(ivs[0]), n)
  {
    var next := ivs[1..] + Halves(ivs[0]);
    forall p | 0 <= p < n && p !in order && p != Middle(ivs[0]) ensures Queued(next, p) {
      assert Queued(ivs, p);
      var i :| 0 <= i < |ivs| && Inside(ivs[i], p);
      if i > 0 {
        assert next[i - 1] == ivs[i];
      } else if p < Middle(ivs[0]) {
        assert Inside(next[|ivs| - 1], p);
      } else {
        assert Inside(next[|ivs|], p);
      }
    }
  }

  lemma PickDisjoint(order: seq<nat>, ivs: seq<Interval>)
    requires |ivs| > 0 && ivs[0].left < ivs[0].right && Disjoint(order, ivs) && Distinct(order)
    ensures Disjoint(order + [Middle(ivs[0])], ivs[1..] + Halves(ivs[0]))
    ensures Distinct(order + [Middle(ivs[0])])
  {
    var m := Middle(ivs[0]);
    assert Inside(ivs[0], m);
    forall i | 0 <= i < |order| ensures order[i] != m {
      assert order[i] in order;
    }
    var next := ivs[1..] + Halves(ivs[0]);
    assert forall p :: Inside(Halves(ivs[0])[0], p) || Inside(Halves(ivs[0])[1], p) ==> Inside(ivs[0], p);
    forall i, p | 0 <= i < |next| && Inside(next[i], p) ensures p !in order && p != m {
      assert i < |ivs| - 1 ==> next[i] == ivs[i + 1];
    }
  }

  lemma SkipCounts(ivs: seq<Interval>, front: nat, n: nat, k: nat, before: nat, now: nat)
    requires front > 0 && Sized(ivs, front, n, k) && Counted(ivs, front, k, before, now)
    ensures Sized(ivs[1..], front - 1, n, k) && Counted(ivs[1..], front - 1, k, before, now)
  {
  }

  lemma NextLevel(ivs: seq<Interval>, n: nat, k: nat, before: nat, now: nat)
    requires Sized(ivs, 0, n, k) && Counted(ivs, 0, k, before, now)
    ensures Sized(ivs, |ivs|, n, k + 1) && Counted(ivs, |ivs|, k + 1, before + now, 0)
  {
  }

  lemma PickDispersed(order: seq<nat>, pick: nat, ivs: seq<Interval>, n: nat, front: nat, k: nat, before: nat, now: nat)
    requires n >= 2 && Dispersed(order, n) && |order| + 1 == before + now + 2
    requires Framed(order + [pick], ivs, n) && Covered(order + [pick], ivs, n)
    requires Sized(ivs, front, n - 2, k) && Counted(ivs, front, k, before, now)
    ensures Dispersed(order + [pick], n)
  {
    var longer := order + [pick];
    forall d: nat, m: nat | Pow2(d) + 1 <= m <= |longer| ensures GapsAtMost(longer[..m], n, Halved(n - 2, d)) {
      if m <= |order| {
        assert longer[..m] == order[..m];
      } else {
        assert longer[..m] == longer;
        SmallIntervals(ivs, front, n - 2, k, before, now, d);
        GapsFromIntervals(longer, ivs, n, Halved(n - 2, d));
      }
    }
  }

  /** The loop invariant of the visit. */
  ghost predicate Exploring(order: seq<nat>, ivs: seq<Interval>, n: nat, front: nat, k: nat, before: nat, now: nat)
    requires n >= 2
  {
    && |order| == before + now + 2 && order[0] == 0 && order[1] == n - 1
    && Framed(order, ivs, n) && Covered(order, ivs, n) && Disjoint(order, ivs) && Distinct(order)
    && Sized(ivs, front, n - 2, k) && Counted(ivs, front, k, before, now)
    && Dispersed(order, n) && forall p :: p in order ==> p < n
  }

  lemma ExploreSkip(order: seq<nat>, ivs: seq<Interval>, n: nat, front: nat, k: nat, before: nat, now: nat)
    requires n >= 2 && Exploring(order, ivs, n, front, k, before, now)
    requires |ivs| > 0 && front > 0 && ivs[0].left >= ivs[0].right
    ensures Exploring(order, ivs[1..], n, front - 1, k, before, now)
  {
    SkipCounts(ivs, front, n - 2, k, before, now);
  }

  lemma ExplorePick(order: seq<nat>, ivs: seq<Interval>, n: nat, front: nat, k: nat, before: nat, now: nat)
    requires n >= 2 && Exploring(order, ivs, n, front, k, before, now)
    requires |ivs| > 0 && front > 0 && ivs[0].left < ivs[0].right
    ensures Exploring(order + [Middle(ivs[0])], ivs[1..] + Halves(ivs[0]), n, front - 1, k, before, now + 1)
  {
    PickFramed(order, ivs, n);
    PickCovered(order, ivs, n);
    PickDisjoint(order, ivs);
    PickDispersed(order, Middle(ivs[0]), ivs[1..] + Halves(ivs[0]), n, front - 1, k, before, now + 1);
  }

  lemma ExploreLevel(order: seq<nat>, ivs: seq<Interval>, n: nat, k: nat, before: nat, now: nat)
    requires n >= 2 && Exploring(order, ivs, n, 0, k, before, now)
    ensures Exploring(order, ivs, n, |ivs|, k + 1, before + now, 0)
  {
    NextLevel(ivs, n - 2, k, before, now);
  }

  lemma ExploreStart(n: nat)
    requires n >= 2
    ensures Exploring([0, n - 1], [Interval(1, n - 1)], n, 1, 0, 0, 0)
  {
    FirstDispersed(n);
  }

  /** The visiting order of `n` sorted positions. */
  method BisectionOrder(n: nat) returns (order: seq<nat>)
    requires n >= 2
    ensures |order| >= 2 && order[0] == 0 && order[1] == n - 1
    ensures IsPermutation(order, n) && Dispersed(order, n)
  {
    order := [0, n - 1];
    var intervals := [Interval(1, n - 1)];
    ghost var k: nat, front: nat, before: nat, now: nat := 0, 1, 0, 0;
    ExploreStart(n);
    while intervals != []
      invariant Exploring(order, intervals, n, front, k, before, now)
      decreases Weight(intervals)
    {
      if front == 0 {
        ExploreLevel(order, intervals, n, k, before, now);
        k, front, before, now := k + 1, |intervals|, before + now, 0;
      }
      var iv := intervals[0];
      if iv.left >= iv.right {
        ExploreSkip(order, intervals, n, front, k, before, now);
        intervals := intervals[1..];
        front := front - 1;
      } else {
        ExplorePick(order, intervals, n, front, k, before, now);
        PickWeight(intervals);
        order := order + [Middle(iv)];
        intervals := intervals[1..] + Halves(iv);
        front, now := front - 1, now + 1;
      }
    }
  }

  lemma PickWeight(ivs: seq<Interval>)
    requires |ivs| > 0 && ivs[0].left < ivs[0].right
    ensures Weight(ivs[1..] + Halves(ivs[0])) < Weight(ivs)
  {
    var halves := Halves(ivs[0]);
    WeightConcat(ivs[1..], halves);
    assert Weight(halves) == 2 * Size(halves[0]) + 1 + (2 * Size(halves[1]) + 1) by {
      assert halves[1..] == [halves[1]] && halves[1..][1..] == [];
      assert Weight(halves[1..]) == 2 * Size(halves[1]) + 1;
    }
  }

  lemma FirstDispersed(n: nat)
    requires n >= 2
    ensures Dispersed([0, n - 1], n)
    ensures Framed([0, n - 1], [Interval(1, n - 1)], n) && Covered([0, n - 1], [Interval(1, n - 1)], n)
  {
    var order, ivs := [0, n - 1], [Interval(1, n - 1)];
    forall p | 0 <= p < n && p !in order ensures Queued(ivs, p) {
      assert order[0] == 0 && order[1] == n - 1;
      assert Inside(ivs[0], p);
    }
    forall d: nat, m: nat | Pow2(d) + 1 <= m <= |order| ensures GapsAtMost(order[..m], n, Halved(n - 2, d)) {
      PowPositive(d);
      if d > 0 {
        PowMonotone(1, d);
      }
      assert order[..m] == order;
      GapsFromIntervals(order, ivs, n, n - 2);
    }
  }

  // ----- Spreading the records -----

  function Pick<T>(s: seq<T>, order: seq<nat>): (r: seq<T>)
    requires forall p :: p in order ==> p < |s|
    ensures |r| == |order|
  {
    seq(|order|, i requires 0 <= i < |order| => assert order[i] in order; s[order[i]])
  }

  /** How often a record occurs at the picked positions below `k`. */
  ghost function Count<T>(s: seq<T>, k: nat, picked: set<nat>, e: T): nat
    requires k <= |s|
  {
    if k == 0 then 0 else Count(s, k - 1, picked, e) + if k - 1 in picked && s[k - 1] == e then 1 else 0
  }

  lemma {:induction false} CountAdd<T>(s: seq<T>, k: nat, picked: set<nat>, x: nat, e: T)
    requires k <= |s| && x < |s| && x !in picked
    ensures Count(s, k, picked + {x}, e) == Count(s, k, picked, e) + if x < k && s[x] == e then 1 else 0
  {
    if k > 0 {
      CountAdd(s, k - 1, picked, x, e);
    }
  }

  lemma {:induction false} CountAll<T>(s: seq<T>, k: nat, picked: set<nat>, e: T)
    requires k <= |s| && forall p :: 0 <= p < k ==> p in picked
    ensures Count(s, k, picked, e) == multiset(s[..k])[e]
  {
    if k > 0 {
      CountAll(s, k - 1, picked, e);
      assert s[..k] == s[..k - 1] + [s[k - 1]];
    }
  }

  lemma {:induction false} CountNone<T>(s: seq<T>, k: nat, e: T)
    requires k <= |s|
    ensures Count(s, k, {}, e) == 0
  {
    if k > 0 {
      CountNone(s, k - 1, e);
    }
  }

  lemma PickLast<T>(s: seq<T>, rest: seq<nat>, x: nat)
    requires x < |s| && forall p :: p in rest ==> p < |s|
    ensures forall p :: p in rest + [x] ==> p < |s|
    ensures Pick(s, rest + [x]) == Pick(s, rest) + [s[x]]
  {
  }

  lemma {:induction false} PickOccurrences<T>(s: seq<T>, order: seq<nat>, picked: set<nat>, e: T)
    requires Distinct(order) && (forall p :: p in order ==> p < |s|) && picked == set p | p in order
    ensures multiset(Pick(s, order))[e] == Count(s, |s|, picked, e)
    decreases |order|
  {
    if order == [] {
      assert picked == {} && Pick(s, order) == [];
      CountNone(s, |s|, e);
    } else {
      var rest, x := order[..|order| - 1], order[|order| - 1];
      assert order == rest + [x];
      assert x in order && x !in rest && forall p :: p in rest ==> p in order;
      PickOccurrences(s, rest, picked - {x}, e);
      PickLast(s, rest, x);
      assert picked == (picked - {x}) + {x};
      CountAdd(s, |s|, picked - {x}, x, e);
    }
  }

  lemma PickPermutes<T>(s: seq<T>, order: seq<nat>)
    requires IsPermutation(order, |s|)
    ensures multiset(Pick(s, order)) == multiset(s) && |order| == |s|
  {
    var picked := set p | p in order;
    var r := Pick(s, order);
    assert s[..|s|] == s;
    forall e | e in multiset(r) + multiset(s) ensures multiset(r)[e] == multiset(s)[e] {
      PickOccurrences(s, order, picked, e);
      CountAll(s, |s|, picked, e);
    }
    assert multiset(r) == multiset(s);
    assert |multiset(r)| == |multiset(s)|;
  }

  /** One record from each group in turn, then the rest of the longer group. */
  function Interleave<T>(a: seq<T>, b: seq<T>): (r: seq<T>)
    ensures |r| == |a| + |b|
  {
    if a == [] then b else if b == [] then a else [a[0], b[0]] + Interleave(a[1..], b[1..])
  }

  lemma {:induction false} InterleavePermutes<T>(a: seq<T>, b: seq<T>)
    ensures multiset(Interleave(a, b)) == multiset(a) + multiset(b)
  {
    if a == [] {
      Empty(a);
    } else if b == [] {
      Empty(b);
    } else {
      InterleavePermutes(a[1..], b[1..]);
      HeadTail(a);
      HeadTail(b);
      var rest := Interleave(a[1..], b[1..]);
      assert multiset([a[0], b[0]] + rest) == multiset{a[0], b[0]} + multiset(rest);
    }
  }

  lemma Empty<T>(s: seq<T>)
    requires s == []
    ensures multiset(s) == multiset{}
  {
  }

  lemma HeadTail<T>(s: seq<T>)
    requires s != []
    ensures multiset(s) == multiset{s[0]} + multiset(s[1..])
  {
    assert s == [s[0]] + s[1..];
  }

  /** The spread order survives interleaving: the `k`-th record of the first group is among the first `2k + 1`. */
  lemma {:induction false} EarlyInTurns<T>(a: seq<T>, b: seq<T>, k: nat)
    requires k < |a|
    ensures Interleave(a, b)[Min(2 * k, k + |b|)] == a[k]
  {
    if b != [] && k > 0 {
      EarlyInTurns(a[1..], b[1..], k - 1);
    }
  }

  function Max(a: nat, b: nat): nat {
    if a < b then b else a
  }

  function Drop<T>(s: seq<T>, n: nat): seq<T> {
    if n <= |s| then s[n..] else []
  }

  function Turn<T>(group: seq<T>, position: nat): seq<T> {
    if position < |group| then [group[position]] else []
  }

  lemma InterleaveCons<T>(x: T, a: seq<T>, y: T, b: seq<T>)
    ensures Interleave([x] + a, [y] + b) == [x] + [y] + Interleave(a, b)
  {
    assert ([x] + a)[1..] == a && ([y] + b)[1..] == b;
  }

  lemma TurnStep<T>(a: seq<T>, b: seq<T>, p: nat)
    ensures Interleave(Drop(a, p), Drop(b, p)) == Turn(a, p) + Turn(b, p) + Interleave(Drop(a, p + 1), Drop(b, p + 1))
  {
    if p < |a| && p < |b| {
      InterleaveCons(a[p], Drop(a, p + 1), b[p], Drop(b, p + 1));
    }
  }

  function IsTimed<T>(at: T -> Stamp): T -> bool {
    r => at(r).Some?
  }

  function IsUntimed<T>(at: T -> Stamp): T -> bool {
    r => at(r).None?
  }

  /** The records of a list in spread order.  The result holds exactly the given records; with at least two timed
      ones, it takes turns between the dispersed order of the timed records and the untimed ones. */
  method SpreadEvidenceInTime<T>(rows: seq<T>, at: T -> Stamp) returns (out: seq<T>, ghost order: seq<nat>)
    ensures multiset(out) == multiset(rows)
    ensures var timed := Sort(Filter(rows, IsTimed(at)), at);
            if |timed| < 2 then out == rows
            else IsPermutation(order, |timed|) && Dispersed(order, |timed|)
                 && var unknown := Filter(rows, IsUntimed(at));
                    out == Interleave(Pick(timed, order), unknown)
  {
    var timed, unknown := Partition(rows, at);
    order := [];
    if |timed| < 2 {
      assert |Sort(timed, at)| == |timed| by {
        assert |multiset(Sort(timed, at))| == |multiset(timed)|;
      }
      return rows, order;
    }
    var sorted := Sort(timed, at);
    assert |sorted| == |timed| by {
      assert |multiset(sorted)| == |multiset(timed)|;
    }
    var positions := BisectionOrder(|sorted|);
    order := positions;
    PickPermutes(sorted, positions);
    var ordered := Pick(sorted, positions);
    out := TakeTurns(ordered, unknown);
    InterleavePermutes(ordered, unknown);
  }

  method Partition<T>(rows: seq<T>, at: T -> Stamp) returns (timed: seq<T>, unknown: seq<T>)
    ensures timed == Filter(rows, IsTimed(at)) && unknown == Filter(rows, IsUntimed(at))
    ensures multiset(timed) + multiset(unknown) == multiset(rows)
  {
    timed, unknown := [], [];
    for i := 0 to |rows|
      invariant timed == Select(rows, i, IsTimed(at)) && unknown == Select(rows, i, IsUntimed(at))
    {
      if at(rows[i]).None? {
        unknown := unknown + [rows[i]];
      } else {
        timed := timed + [rows[i]];
      }
    }
    FilterSplits(rows, IsTimed(at), IsUntimed(at));
  }

  method TakeTurns<T>(a: seq<T>, b: seq<T>) returns (out: seq<T>)
    ensures out == Interleave(a, b)
  {
    out := [];
    assert Drop(a, 0) == a && Drop(b, 0) == b;
    for position := 0 to Max(|a|, |b|)
      invariant out + Interleave(Drop(a, position), Drop(b, position)) == Interleave(a, b)
    {
      TurnStep(a, b, position);
      ghost var rest := Interleave(Drop(a, position + 1), Drop(b, position + 1));
      Regroup4(out, Turn(a, position), Turn(b, position), rest);
      out := out + Turn(a, position);
      out := out + Turn(b, position);
    }
  }

  lemma Regroup4<T>(a: seq<T>, b: seq<T>, c: seq<T>, d: seq<T>)
    ensures a + (b + c + d) == (a + b + c) + d
  {
  }

  /** The dispersion bound in the terms of the input: once the first `2^d + 1` picks are shown, no run of unseen
      positions among `n` timed records is longer than `(n - 2) / 2^d`. */
  lemma DispersionBound(order: seq<nat>, n: nat, d: nat, m: nat)
    requires n >= 2 && Dispersed(order, n) && Pow2(d) + 1 <= m <= |order|
    ensures Pow2(d) > 0 && GapsAtMost(order[..m], n, (n - 2) / Pow2(d))
  {
    HalvedIsQuotient(n - 2, d);
  }
}
