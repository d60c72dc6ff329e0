/** The search for the largest row limit whose complete model request fits. */
module ContextFit {
  import opened Wrappers
  import opened Budgets

  /** A request by its two measures: decoded characters and UTF-8 bytes. */
  datatype Size = Size(characters: nat, utf8: nat)
  {
    /** The conservative token estimate, framing included. */
    function Estimate(): nat { utf8 + FRAMING }
  }

  predicate Fits(limits: Limits, u: Usage, size: Size) {
    && size.characters <= limits.maxContextCharacters
    && size.Estimate() <= limits.maxModelInputTokens - u.modelInputTokens
  }

  /** A smaller row limit never makes a fitting request stop fitting. */
  ghost predicate DownwardClosed(limits: Limits, u: Usage, build: nat -> Size) {
    forall r, s: nat ::
      1 <= r <= s <= limits.maxTargetedEvents && Fits(limits, u, build(s)) ==> Fits(limits, u, build(r))
  }

  function Bits(n: nat): nat { if n == 0 then 0 else 1 + Bits(n / 2) }

  lemma {:induction false} BitsMonotone(a: nat, b: nat)
    requires a <= b
    ensures Bits(a) <= Bits(b)
  {
    if a > 0 {
      BitsMonotone(a / 2, b / 2);
    }
  }

  /** What the bounds of the search know about the tested limits. */
  ghost predicate Bracketed(max: nat, fits: nat -> bool, low: nat, high: nat, best: Option<nat>) {
    && 1 <= low <= high + 1 && high <= max
    && (best.None? ==> low == 1)
    && (best.Some? ==> best.value == low - 1 && 1 < low && fits(best.value))
    && (high < max ==> !fits(high + 1))
  }

  /** The next limit to test is inside the bounds, or the bounds have met at the best one. */
  ghost predicate Aimed(low: nat, high: nat, best: Option<nat>, row: nat) {
    low <= row <= high || (low == high + 1 && best == Some(row))
  }

  /** `row` is where the fit turns: it fits and its successor does not, or nothing down to 1 was found to fit. */
  predicate Boundary(limits: Limits, u: Usage, build: nat -> Size, row: nat) {
    && 1 <= row <= limits.maxTargetedEvents
    && (Fits(limits, u, build(row)) ==> row == limits.maxTargetedEvents || !Fits(limits, u, build(row + 1)))
    && (!Fits(limits, u, build(row)) ==> row == 1)
  }

  /** `row` fits and no larger limit does, or no limit fits at all. */
  ghost predicate Largest(limits: Limits, u: Usage, build: nat -> Size, row: nat) {
    forall r: nat :: 1 <= r <= limits.maxTargetedEvents && Fits(limits, u, build(r)) ==>
                       Fits(limits, u, build(row)) && r <= row
  }

  lemma BoundaryIsLargest(limits: Limits, u: Usage, build: nat -> Size, row: nat)
    requires Boundary(limits, u, build, row)
    requires DownwardClosed(limits, u, build)
    ensures Largest(limits, u, build, row)
  {
    forall r: nat | 1 <= r <= limits.maxTargetedEvents && Fits(limits, u, build(r))
      ensures Fits(limits, u, build(row)) && r <= row
    {
    }
  }

  /** The bound on builds: one at the maximum, then one per halving of what is left below it. */
  ghost predicate Paced(max: nat, low: nat, high: nat, row: nat, builds: nat)
    requires 0 < max && low <= high + 1
  {
    if builds == 0 then low == 1 && high == row == max
    else
      && builds + Bits(high + 1 - low) <= 1 + Bits(max - 1)
      && (low <= high ==> row == (low + high) / 2)
  }

  /** Testing one limit at least halves the span. */
  lemma Halves(max: nat, low: nat, high: nat, row: nat, builds: nat, span: nat)
    requires 0 < max && low <= row <= high && Paced(max, low, high, row, builds)
    requires span == high - row || span == row - low
    ensures builds + 1 + Bits(span) <= 1 + Bits(max - 1)
  {
    if builds == 0 {
      BitsMonotone(span, max - 1);
    } else {
      BitsMonotone(span, (high + 1 - low) / 2);
    }
  }

  lemma Narrows(max: nat, fits: nat -> bool, low: nat, high: nat, best: Option<nat>, row: nat)
    requires Bracketed(max, fits, low, high, best) && low <= row <= high
    ensures fits(row) ==> Bracketed(max, fits, row + 1, high, Some(row))
    ensures !fits(row) ==> Bracketed(max, fits, low, row - 1, best)
  {
  }

  /** The search itself, for any test. */
  method Search(max: nat, fits: nat -> bool) returns (row: nat, builds: nat)
    requires 0 < max
    ensures 1 <= row <= max
    ensures fits(row) ==> row == max || !fits(row + 1)
    ensures !fits(row) ==> row == 1
    ensures builds <= 2 + Bits(max - 1)
  {
    var low: nat, high: nat, best: Option<nat> := 1, max, None;
    row, builds := max, 0;
    while true
      invariant Bracketed(max, fits, low, high, best)
      invariant Aimed(low, high, best, row)
      invariant Paced(max, low, high, row, builds)
      decreases high + 1 - low
    {
      if low <= row <= high {
        Narrows(max, fits, low, high, best, row);
        Halves(max, low, high, row, builds, high - row);
        Halves(max, low, high, row, builds, row - low);
      }
      var fit := fits(row);
      builds := builds + 1;
      if fit {
        best := Some(row);
        low := row + 1;
      } else {
        high := row - 1;
      }
      if low > high {
        if fit || best.None? {
          break;
        }
        row := best.value;
      } else {
        row := (low + high) / 2;
      }
    }
  }

  method FitContext(limits: Limits, u: Usage, build: nat -> Size) returns (row: nat, builds: nat)
    requires limits.Valid()
    ensures Boundary(limits, u, build, row)
    ensures DownwardClosed(limits, u, build) ==> Largest(limits, u, build, row)
    ensures builds <= 2 + Bits(limits.maxTargetedEvents - 1)
  {
    row, builds := Search(limits.maxTargetedEvents, (r: nat) => Fits(limits, u, build(r)));
    if DownwardClosed(limits, u, build) {
      BoundaryIsLargest(limits, u, build, row);
    }
  }
}
