/** Bounded, paged retrieval of one search's results, with exact byte accounting. */
module Retrieval {
  import opened Wrappers
  import opened Basics

  type Byte = b: int | 0 <= b < 256

  /** A result row, known by its canonical JSON. */
  datatype Row = Row(canonical: seq<Byte>)

  const OPEN: Byte := 91
  const CLOSE: Byte := 93
  const COMMA: Byte := 44

  /** The largest page the executor asks for. */
  const MAX_PAGE: nat := 500

  function Joined(rows: seq<Row>): seq<Byte> {
    if |rows| == 0 then []
    else if |rows| == 1 then rows[0].canonical
    else Joined(rows[..|rows| - 1]) + [COMMA] + rows[|rows| - 1].canonical
  }

  /** The canonical JSON array of the rows. */
  function Rendered(rows: seq<Row>): seq<Byte> {
    [OPEN] + Joined(rows) + [CLOSE]
  }

  function RowBytes(kept: seq<Row>, row: Row): nat {
    |row.canonical| + if kept == [] then 0 else 1
  }

  lemma RenderedGrows(kept: seq<Row>, row: Row)
    ensures |Rendered(kept + [row])| == |Rendered(kept)| + RowBytes(kept, row)
  {
    var all := kept + [row];
    assert all[..|all| - 1] == kept;
  }

  datatype Fault = BudgetExhausted | HardTimeout | OtherFault

  /** The state of a finished search on the server, and what each fetch of a page meets: `overhead` is what the raw
      response of a page has beyond its rows, `faults` what else goes wrong. */
  datatype Server = Server(rows: seq<Row>, reported: Option<nat>, overhead: nat -> nat, faults: nat -> Option<Fault>)

  datatype Stop = HuntRowLimit | QueryRowLimit | HuntByteLimit | QueryByteLimit | QueryTimeout | IncompletePage

  datatype Bounds = Bounds(rowLimit: nat, byteLimit: nat, rowStop: Stop, byteStop: Stop)
  {
    predicate Valid() {
      && 0 < rowLimit && 2 <= byteLimit
      && rowStop in {HuntRowLimit, QueryRowLimit}
      && byteStop in {HuntByteLimit, QueryByteLimit}
    }
  }

  datatype Execution = Execution(
    rows: seq<Row>, resultBytes: nat, reported: Option<nat>, stop: Option<Stop>, pages: nat)
  {
    predicate Truncated() { stop.Some? }
  }

  /** An honest server's page `p` of size `k`: the rows from `p * k` up to `(p + 1) * k`. */
  function Page(rows: seq<Row>, p: nat, k: nat): (page: seq<Row>)
    ensures p * k <= |rows| ==> |page| <= k && p * k + |page| <= |rows|
    ensures p * k <= |rows| ==> page == rows[p * k..p * k + |page|]
    ensures p * k <= |rows| ==> (|page| < k ==> p * k + |page| == |rows|)
  {
    assert (p + 1) * k == p * k + k;
    rows[Min(p * k, |rows|)..Min((p + 1) * k, |rows|)]
  }

  /** The size of the raw response with page `p`. */
  function Demand(server: Server, k: nat, p: nat): nat {
    |Rendered(Page(server.rows, p, k))| + server.overhead(p)
  }

  /** The bytes that the executor grants page `p` when every page before it was kept whole. */
  function Room(server: Server, b: Bounds, k: nat, p: nat): int {
    b.byteLimit - |Rendered(server.rows[..Min(p * k, |server.rows|)])| + 2
  }

  /** The adapter lets the page through; otherwise it drops the whole page. */
  predicate Admitted(server: Server, b: Bounds, k: nat, p: nat) {
    Demand(server, k, p) <= Room(server, b, k, p)
  }

  /** What fetching page `p` meets when it is granted `maxBytes`. */
  function FetchFault(server: Server, k: nat, p: nat, maxBytes: int): Option<Fault> {
    if server.faults(p).Some? then server.faults(p)
    else if Demand(server, k, p) > maxBytes then Some(BudgetExhausted)
    else None
  }

  /** The kept rows are a prefix of the server's, and the byte count is that of their canonical array. */
  ghost predicate Exact(rows: seq<Row>, b: Bounds, kept: seq<Row>, bytes: nat) {
    && |kept| <= |rows| && kept == rows[..|kept|]
    && |kept| <= b.rowLimit
    && bytes == |Rendered(kept)| <= b.byteLimit
  }

  /** One more row would pass the byte limit. */
  ghost predicate NextDoesNotFit(rows: seq<Row>, b: Bounds, m: nat) {
    m < |rows| && b.byteLimit < |Rendered(rows[..m + 1])|
  }

  lemma KeepOne(rows: seq<Row>, b: Bounds, kept: seq<Row>, bytes: nat)
    requires Exact(rows, b, kept, bytes)
    requires |kept| < |rows|
    ensures bytes + RowBytes(kept, rows[|kept|]) == |Rendered(rows[..|kept| + 1])|
    ensures kept + [rows[|kept|]] == rows[..|kept| + 1]
  {
    RenderedGrows(kept, rows[|kept|]);
    assert kept + [rows[|kept|]] == rows[..|kept| + 1];
  }

  /** The rows of one page, kept in order until a limit stops it. */
  method KeepPage(ghost rows: seq<Row>, b: Bounds, kept0: seq<Row>, bytes0: nat, page: seq<Row>)
    returns (kept: seq<Row>, bytes: nat, full: bool)
    requires Exact(rows, b, kept0, bytes0)
    requires |kept0| + |page| <= |rows| && page == rows[|kept0|..|kept0| + |page|]
    ensures Exact(rows, b, kept, bytes)
    ensures |kept0| <= |kept| <= |kept0| + |page|
    ensures full ==> |kept| < b.rowLimit && |kept| < |kept0| + |page| && NextDoesNotFit(rows, b, |kept|)
    ensures !full ==> |kept| == Min(|kept0| + |page|, b.rowLimit)
  {
    kept, bytes, full := kept0, bytes0, false;
    var i := 0;
    while i < |page| && |kept| < b.rowLimit
      invariant 0 <= i <= |page|
      invariant |kept| == |kept0| + i
      invariant Exact(rows, b, kept, bytes)
    {
      var row := page[i];
      assert row == rows[|kept|];
      KeepOne(rows, b, kept, bytes);
      if bytes + RowBytes(kept, row) > b.byteLimit {
        full := true;
        return;
      }
      kept, bytes := kept + [row], bytes + RowBytes(kept, row);
      i := i + 1;
    }
  }

  /** The loop would ask for another page. */
  ghost predicate MoreExpected(server: Server, b: Bounds, m: nat) {
    m < b.rowLimit && (server.reported.Some? ==> m < server.reported.value)
  }

  /** Page `pages` comes next, whole pages are kept, and its fetch runs into the byte limit. */
  ghost predicate Refused(server: Server, b: Bounds, k: nat, m: nat, pages: nat) {
    && m == pages * k
    && (server.faults(pages) == Some(BudgetExhausted) || !Admitted(server, b, k, pages))
  }

  /** Why a retrieval of `m` rows in `pages` pages of size `k` ended, before the row limit is looked at. */
  ghost predicate Ended(server: Server, b: Bounds, k: nat, m: nat, pages: nat, stop: Option<Stop>) {
    var n := |server.rows|;
    match stop
    case None =>
      || (m == b.rowLimit && pages * k <= n)
      || (server.reported.None? && n < pages * k && m == Min(n, b.rowLimit))
      || (server.reported.Some? && server.reported.value <= m)
    case Some(QueryTimeout) =>
      server.faults(pages) == Some(HardTimeout) && 0 < m == pages * k && MoreExpected(server, b, m)
    case Some(IncompletePage) =>
      server.reported.Some? && m < server.reported.value && n < pages * k && m == Min(n, b.rowLimit)
    case Some(s) =>
      && s == b.byteStop && m < b.rowLimit
      && (|| (NextDoesNotFit(server.rows, b, m) && m < pages * k)
          || (Refused(server, b, k, m, pages) && MoreExpected(server, b, m)))
  }

  /** The page count is the number of whole or part pages behind the kept rows, and each of them was let through. */
  ghost predicate PageCount(server: Server, b: Bounds, k: nat, m: nat, pages: nat) {
    && m <= pages * k
    && (0 < pages ==> (pages - 1) * k <= m && (m == b.rowLimit ==> (pages - 1) * k < m))
    && forall p :: 0 <= p < pages ==> Admitted(server, b, k, p)
  }

  /** One fetched page, and whether it is the last one to ask for. */
  method TakePage(server: Server, b: Bounds, k: nat, kept0: seq<Row>, bytes0: nat, pages: nat)
    returns (kept: seq<Row>, bytes: nat, stop: Option<Stop>, last: bool)
    requires b.Valid() && 0 < k
    requires Exact(server.rows, b, kept0, bytes0)
    requires |kept0| == pages * k < b.rowLimit
    requires PageCount(server, b, k, |kept0|, pages) && Admitted(server, b, k, pages)
    ensures Exact(server.rows, b, kept, bytes)
    ensures PageCount(server, b, k, |kept|, pages + 1)
    ensures last ==> Ended(server, b, k, |kept|, pages + 1, stop)
    ensures !last ==> stop.None? && |kept0| < |kept|
    ensures !last ==> (pages + 1) * k <= |server.rows| && |kept| == Min((pages + 1) * k, b.rowLimit)
  {
    var page := Page(server.rows, pages, k);
    assert (pages + 1) * k == pages * k + k;
    var full;
    kept, bytes, full := KeepPage(server.rows, b, kept0, bytes0, page);
    stop, last := None, full || |page| < k;
    if full {
      stop := Some(b.byteStop);
    } else if |page| < k && server.reported.Some? && |kept| < server.reported.value {
      stop := Some(IncompletePage);
    }
  }

  /** Between two pages: every page so far was full, and kept whole unless the row limit cut it. */
  ghost predicate AtPage(server: Server, b: Bounds, k: nat, m: nat, pages: nat) {
    && pages * k <= |server.rows|
    && (m == pages * k || m == b.rowLimit)
    && PageCount(server, b, k, m, pages)
  }

  lemma RoomIs(server: Server, b: Bounds, k: nat, kept: seq<Row>, bytes: nat, pages: nat)
    requires Exact(server.rows, b, kept, bytes) && |kept| == pages * k
    ensures b.byteLimit - bytes + 2 == Room(server, b, k, pages)
  {
  }

  /** The paging loop, until a limit, a fault, the reported total or a short page ends it. */
  method FetchPages(server: Server, b: Bounds, k: nat)
    returns (kept: seq<Row>, bytes: nat, pages: nat, stop: Option<Stop>, raised: Option<Fault>)
    requires b.Valid() && k == Min(MAX_PAGE, b.rowLimit)
    ensures raised.Some? ==> server.faults(pages) == raised && raised.value != BudgetExhausted
    ensures raised == Some(HardTimeout) ==> kept == []
    ensures raised.None? ==> Exact(server.rows, b, kept, bytes)
    ensures raised.None? ==> Ended(server, b, k, |kept|, pages, stop)
    ensures raised.None? ==> PageCount(server, b, k, |kept|, pages)
  {
    kept, bytes, pages, stop, raised := [], 2, 0, None, None;
    while |kept| < b.rowLimit
      invariant stop.None? && raised.None?
      invariant Exact(server.rows, b, kept, bytes)
      invariant AtPage(server, b, k, |kept|, pages)
      decreases b.rowLimit - |kept|
    {
      if server.reported.Some? && |kept| >= server.reported.value {
        break;
      }
      RoomIs(server, b, k, kept, bytes, pages);
      match FetchFault(server, k, pages, b.byteLimit - bytes + 2) {
        case Some(BudgetExhausted) =>
          stop := Some(b.byteStop);
          break;
        case Some(HardTimeout) =>
          if kept != [] {
            stop := Some(QueryTimeout);
            break;
          }
          raised := Some(HardTimeout);
          return;
        case Some(OtherFault) =>
          raised := Some(OtherFault);
          return;
        case None =>
      }
      var last;
      kept, bytes, stop, last := TakePage(server, b, k, kept, bytes, pages);
      pages := pages + 1;
      if last {
        break;
      }
    }
  }

  /** Nothing but the byte limit stands between the executor and a page. */
  ghost predicate FaultFree(server: Server) {
    forall p: nat :: server.faults(p).None?
  }

  // ----- Sizes of prefixes and pages -----

  lemma {:induction false} RenderedConcat(a: seq<Row>, c: seq<Row>)
    ensures |Rendered(a + c)| == |Rendered(a)| + |Rendered(c)| - 2 + if a != [] && c != [] then 1 else 0
    decreases |c|
  {
    if c == [] {
      assert a + c == a;
    } else {
      var init, last := c[..|c| - 1], c[|c| - 1];
      RenderedConcat(a, init);
      RenderedGrows(a + init, last);
      RenderedGrows(init, last);
      assert a + c == (a + init) + [last] && c == init + [last];
    }
  }

  /** A longer prefix of the rows renders to a longer array. */
  lemma RenderedMonotone(rows: seq<Row>, i: nat, j: nat)
    requires i <= j <= |rows|
    ensures |Rendered(rows[..i])| <= |Rendered(rows[..j])|
  {
    RenderedConcat(rows[..i], rows[i..j]);
    assert rows[..j] == rows[..i] + rows[i..j];
  }

  /** A part of a page that leaves a row out fits wherever the page does. */
  lemma PartFits(before: seq<Row>, part: seq<Row>, rest: seq<Row>)
    requires part != [] && rest != []
    ensures |Rendered(before + part)| <= |Rendered(before)| + |Rendered(part + rest)| - 2
  {
    RenderedConcat(before, part);
    RenderedConcat(part, rest);
  }

  lemma PageSplit(rows: seq<Row>, p: nat, k: nat, m: nat)
    requires p * k <= m && m + 1 < Min((p + 1) * k, |rows|)
    ensures Page(rows, p, k) == rows[p * k..m + 1] + rows[m + 1..Min((p + 1) * k, |rows|)]
    ensures rows[..m + 1] == rows[..p * k] + rows[p * k..m + 1]
  {
  }

  /** Inside a page that was let through only its last row can fail to fit, for want of the comma before the page. */
  lemma OnlyLastRowFails(server: Server, b: Bounds, k: nat, p: nat, m: nat)
    requires p * k <= m < |server.rows| && m < (p + 1) * k
    requires Admitted(server, b, k, p) && NextDoesNotFit(server.rows, b, m)
    ensures m + 1 == Min((p + 1) * k, |server.rows|)
  {
    var rows, s, end := server.rows, p * k, Min((p + 1) * k, |server.rows|);
    if m + 1 < end {
      PageSplit(rows, p, k, m);
      PartFits(rows[..s], rows[s..m + 1], rows[m + 1..end]);
    }
  }

  // ----- What a finished retrieval means -----

  /** No longer prefix is within both limits. */
  ghost predicate Longest(rows: seq<Row>, b: Bounds, m: nat) {
    forall j :: m < j <= |rows| && j <= b.rowLimit ==> b.byteLimit < |Rendered(rows[..j])|
  }

  lemma NothingLongerFits(rows: seq<Row>, b: Bounds, m: nat)
    requires NextDoesNotFit(rows, b, m)
    ensures Longest(rows, b, m)
  {
    forall j | m < j <= |rows| && j <= b.rowLimit
      ensures b.byteLimit < |Rendered(rows[..j])|
    {
      RenderedMonotone(rows, m + 1, j);
    }
  }

  /** The byte limit cut between two pages, because the next response, with what it has beyond its rows, passes what
      the kept rows leave of the limit, or one row before the end of a page. */
  ghost predicate ByteCut(server: Server, b: Bounds, k: nat, m: nat, pages: nat) {
    || (m == pages * k && m <= |server.rows| &&
        b.byteLimit + 2 < |Rendered(server.rows[..m])|
                          + |Rendered(Page(server.rows, pages, k))| + server.overhead(pages))
    || (m + 1 == Min(pages * k, |server.rows|) && NextDoesNotFit(server.rows, b, m))
  }

  /** What the stop reason of a finished retrieval means. */
  ghost predicate Explained(server: Server, b: Bounds, k: nat, x: Execution) {
    var m, n := |x.rows|, |server.rows|;
    && (!x.Truncated() ==> m == n || (server.reported.Some? && server.reported.value <= m))
    && (server.reported == Some(n) ==> (x.Truncated() <==> m < n))
    && (FaultFree(server) && server.reported.None? ==>
          (x.Truncated() <==> m < n || m == b.rowLimit || Refused(server, b, k, m, x.pages)))
    && (x.stop == Some(b.rowStop) ==> m == b.rowLimit)
    && (x.stop == Some(b.byteStop) ==> Refused(server, b, k, m, x.pages) || ByteCut(server, b, k, m, x.pages))
    && (x.stop == Some(QueryTimeout) ==> 0 < m == x.pages * k && server.faults(x.pages) == Some(HardTimeout))
  }

  /** With no fault and a true or missing total: all rows, the row limit, or as many whole pages as the adapter lets
      through, less at most one row. */
  ghost predicate WholePages(server: Server, b: Bounds, k: nat, x: Execution) {
    FaultFree(server) && server.reported in {None, Some(|server.rows|)} ==>
      |x.rows| == |server.rows| || |x.rows| == b.rowLimit || ByteCut(server, b, k, |x.rows|, x.pages)
  }

  /** If moreover the adapter drops no page that the row limit needs, the longest prefix within both limits is kept. */
  ghost predicate KeepsLongest(server: Server, b: Bounds, k: nat, m: nat) {
    && FaultFree(server) && server.reported in {None, Some(|server.rows|)}
    && (forall p: nat :: p * k < b.rowLimit ==> Admitted(server, b, k, p))
    ==> Longest(server.rows, b, m)
  }

  /** The number of pages that the row limit needs. */
  function PagesFor(rowLimit: nat, k: nat): nat
    requires 0 < k
  {
    (rowLimit + k - 1) / k
  }

  /** The row limit falls inside the final short page, and neither the adapter nor the byte limit stops before it. */
  ghost predicate CutsFinalPage(server: Server, b: Bounds, k: nat)
    requires 0 < k
  {
    var pages := PagesFor(b.rowLimit, k);
    && b.rowLimit < |server.rows| < pages * k
    && |Rendered(server.rows[..b.rowLimit])| <= b.byteLimit
    && forall p :: 0 <= p < pages ==> Admitted(server, b, k, p)
  }

  /** When a true total is known, `incomplete_page` is reported exactly when the row limit cuts the final short page. */
  ghost predicate IncompleteExactly(server: Server, b: Bounds, k: nat, x: Execution)
    requires 0 < k
  {
    server.reported == Some(|server.rows|) ==>
      && (x.stop == Some(IncompletePage) ==> CutsFinalPage(server, b, k))
      && (FaultFree(server) && CutsFinalPage(server, b, k) ==> x.stop == Some(IncompletePage))
  }

  /** Every fetched response, with what it has beyond its rows, was within what the rows before it left of the limit. */
  ghost predicate WithinRoom(server: Server, b: Bounds, k: nat, pages: nat) {
    forall p :: 0 <= p < pages ==>
      |Rendered(Page(server.rows, p, k))| + server.overhead(p) <=
      b.byteLimit + 2 - |Rendered(server.rows[..Min(p * k, |server.rows|)])|
  }

  lemma CountedWithinRoom(server: Server, b: Bounds, k: nat, m: nat, pages: nat)
    requires PageCount(server, b, k, m, pages)
    ensures WithinRoom(server, b, k, pages)
  {
    forall p | 0 <= p < pages
      ensures |Rendered(Page(server.rows, p, k))| + server.overhead(p) <=
              b.byteLimit + 2 - |Rendered(server.rows[..Min(p * k, |server.rows|)])|
    {
      assert Admitted(server, b, k, p);
    }
  }

  lemma EndedIsExplained(server: Server, b: Bounds, k: nat, x: Execution, stop: Option<Stop>)
    requires b.Valid()
    requires |x.rows| <= |server.rows| && |x.rows| <= b.rowLimit && x.reported == server.reported
    requires Ended(server, b, k, |x.rows|, x.pages, stop) && PageCount(server, b, k, |x.rows|, x.pages)
    requires x.stop == Final(b, |x.rows|, server.reported, stop)
    ensures Explained(server, b, k, x) && WholePages(server, b, k, x)
  {
    var m := |x.rows|;
    if NextDoesNotFit(server.rows, b, m) && m < x.pages * k {
      OnlyLastRowFails(server, b, k, x.pages - 1, m);
    }
  }

  lemma EndedIsLongest(server: Server, b: Bounds, k: nat, m: nat, pages: nat, stop: Option<Stop>)
    requires m <= |server.rows| && m <= b.rowLimit
    requires Ended(server, b, k, m, pages, stop)
    ensures KeepsLongest(server, b, k, m)
  {
    if NextDoesNotFit(server.rows, b, m) {
      NothingLongerFits(server.rows, b, m);
    }
  }

  /** The row limit is the reason when no other one was found and more rows may exist. */
  function Final(b: Bounds, m: nat, reported: Option<nat>, stop: Option<Stop>): Option<Stop> {
    if stop.None? && m >= b.rowLimit && (reported.None? || m < reported.value) then Some(b.rowStop) else stop
  }

  lemma {:induction false} StepsApart(a: nat, b: nat, k: nat)
    ensures a < b ==> a * k + k <= b * k
    decreases b
  {
    if b > 0 {
      StepsApart(a, b - 1, k);
      assert b * k == (b - 1) * k + k;
    }
  }

  lemma PagesForIs(rowLimit: nat, k: nat, pages: nat)
    requires 0 < k && 0 < pages && (pages - 1) * k < rowLimit <= pages * k
    ensures PagesFor(rowLimit, k) == pages
  {
    var q := PagesFor(rowLimit, k);
    assert q * k <= rowLimit + k - 1 < q * k + k;
    StepsApart(q, pages - 1, k);
    StepsApart(pages, q, k);
  }

  lemma PagesForBound(rowLimit: nat, k: nat, p: nat)
    requires 0 < k && p * k < rowLimit
    ensures p < PagesFor(rowLimit, k)
  {
    var q := PagesFor(rowLimit, k);
    assert rowLimit + k - 1 < q * k + k;
    StepsApart(q, p, k);
  }

  lemma IncompleteMeansCut(server: Server, b: Bounds, k: nat, m: nat, pages: nat)
    requires 0 < k && server.reported == Some(|server.rows|)
    requires m <= |server.rows| && |Rendered(server.rows[..m])| <= b.byteLimit
    requires Ended(server, b, k, m, pages, Some(IncompletePage)) && PageCount(server, b, k, m, pages)
    ensures CutsFinalPage(server, b, k)
  {
    PagesForIs(b.rowLimit, k, pages);
  }

  lemma CutMeansIncomplete(server: Server, b: Bounds, k: nat, m: nat, pages: nat, stop: Option<Stop>)
    requires b.Valid() && 0 < k && server.reported == Some(|server.rows|) && FaultFree(server)
    requires m <= |server.rows| && m <= b.rowLimit
    requires Ended(server, b, k, m, pages, stop) && PageCount(server, b, k, m, pages)
    requires CutsFinalPage(server, b, k)
    ensures stop == Some(IncompletePage)
  {
    if 0 < pages && m == b.rowLimit {
      PagesForIs(b.rowLimit, k, pages);
    }
    if m < b.rowLimit {
      RenderedMonotone(server.rows, m + 1, b.rowLimit);
    }
    if m == pages * k < b.rowLimit {
      PagesForBound(b.rowLimit, k, pages);
    }
  }

  /** What a returned execution promises about the server's rows. */
  ghost predicate Faithful(server: Server, b: Bounds, x: Execution)
    requires b.Valid()
  {
    var k := if b.rowLimit < 500 then b.rowLimit else 500;
    && x.reported == server.reported
    && Exact(server.rows, b, x.rows, x.resultBytes)
    && PageCount(server, b, k, |x.rows|, x.pages)
    && Explained(server, b, k, x)
    && WholePages(server, b, k, x)
    && WithinRoom(server, b, k, x.pages)
    && KeepsLongest(server, b, k, |x.rows|)
    && IncompleteExactly(server, b, k, x)
  }

  /** Pages through a finished search's results within the bounds. */
  method Retrieve(server: Server, b: Bounds) returns (x: Execution, raised: Option<Fault>)
    requires b.Valid()
    ensures raised.Some? ==> raised.value != BudgetExhausted && exists p: nat :: server.faults(p) == raised
    ensures raised == Some(HardTimeout) ==> x.rows == []
    ensures raised.None? ==> Faithful(server, b, x)
  {
    var k := Min(MAX_PAGE, b.rowLimit);
    var kept, bytes, pages, stop;
    kept, bytes, pages, stop, raised := FetchPages(server, b, k);
    x := Execution(kept, bytes, server.reported, Final(b, |kept|, server.reported, stop), pages);
    if raised.None? {
      EndedIsExplained(server, b, k, x, stop);
      EndedIsLongest(server, b, k, |kept|, pages, stop);
      EndedIncomplete(server, b, k, x, stop);
      CountedWithinRoom(server, b, k, |kept|, pages);
    }
  }

  lemma EndedIncomplete(server: Server, b: Bounds, k: nat, x: Execution, stop: Option<Stop>)
    requires b.Valid() && 0 < k
    requires Exact(server.rows, b, x.rows, x.resultBytes)
    requires Ended(server, b, k, |x.rows|, x.pages, stop) && PageCount(server, b, k, |x.rows|, x.pages)
    requires x.stop == Final(b, |x.rows|, server.reported, stop)
    ensures IncompleteExactly(server, b, k, x)
  {
    if server.reported == Some(|server.rows|) {
      if x.stop == Some(IncompletePage) {
        IncompleteMeansCut(server, b, k, |x.rows|, x.pages);
      }
      if FaultFree(server) && CutsFinalPage(server, b, k) {
        CutMeansIncomplete(server, b, k, |x.rows|, x.pages, stop);
      }
    }
  }

  // ----- A complete final page reported as incomplete -----

  lemma {:induction false} RenderedUniform(rows: seq<Row>, size: nat)
    requires forall r :: r in rows ==> |r.canonical| == size
    ensures |Rendered(rows)| == 2 + |rows| * size + if rows == [] then 0 else |rows| - 1
  {
    if rows != [] {
      var init, last := rows[..|rows| - 1], rows[|rows| - 1];
      RenderedUniform(init, size);
      RenderedGrows(init, last);
      assert rows == init + [last] && |rows| * size == |init| * size + size;
    }
  }

  /** Nine hundred empty objects, all of them reported and served without fault. */
  function Objects(): Server {
    Server(seq(900, _ => Row([123, 125])), Some(900), _ => 0, _ => None)
  }

  const WIDE: Bounds := Bounds(700, 10_000, QueryRowLimit, QueryByteLimit)

  lemma ObjectsAdmitted(p: nat)
    requires p < 2
    ensures Admitted(Objects(), WIDE, 500, p)
  {
    var server := Objects();
    RenderedUniform(Page(server.rows, p, 500), 2);
    RenderedUniform(server.rows[..Min(p * 500, 900)], 2);
  }

  lemma ObjectsCut()
    ensures CutsFinalPage(Objects(), WIDE, 500)
  {
    var server := Objects();
    PagesForIs(700, 500, 2);
    RenderedUniform(server.rows[..700], 2);
    ObjectsAdmitted(0);
    ObjectsAdmitted(1);
  }

  /** With a row limit of 700 every faithful execution calls the second page incomplete. */
  lemma CompletePageCalledIncomplete(x: Execution)
    requires Faithful(Objects(), WIDE, x)
    ensures x.stop == Some(IncompletePage)
  {
    ObjectsCut();
    assert IncompleteExactly(Objects(), WIDE, 500, x);
  }
}
