/** The durable state that retention cleanup works on, and what every operation on it keeps. */
module CleanupState {

  /** The hunt's tables in the order in which they are emptied. */
  const ARTIFACTS: seq<string> := [
    "workspace", "uploads", "upload_quotas", "intelligence_inputs", "evidence", "entities", "entity_evidence",
    "pivots", "findings", "notes", "query_ledger", "reports", "snapshots", "audit", "hunt"]

  const TABLES: nat := 15
  const UPLOADS: nat := 1
  const REPORTS: nat := 11
  const AUDIT: nat := 13
  const HUNT: nat := 14

  /** A row of any table; `path` is empty when it names no file. */
  datatype Row = Row(id: string, hunt: string, owner: string, path: string)

  /** The durable cleanup task of a hunt. */
  datatype Task = Task(owner: string, cursor: nat, completed: bool)

  datatype Store = Store(tables: seq<set<Row>>, files: set<string>, tasks: map<string, Task>)

  predicate Mine(r: Row, hunt: string, owner: string) {
    r.hunt == hunt && r.owner == owner
  }

  function CursorOf(s: Store, hunt: string, owner: string): nat {
    if hunt in s.tasks && s.tasks[hunt].owner == owner then s.tasks[hunt].cursor else 0
  }

  /** No row of the hunt is left in the table. */
  predicate Empty(t: set<Row>, hunt: string, owner: string) {
    forall r :: r in t ==> !Mine(r, hunt, owner)
  }

  /** The first `n` tables are empty of the hunt, the audit table aside. */
  predicate EmptyBelow(tables: seq<set<Row>>, n: nat, hunt: string, owner: string)
    requires n <= |tables|
  {
    forall i :: 0 <= i < n && i != AUDIT ==> Empty(tables[i], hunt, owner)
  }

  /** Fifteen tables, one report per hunt. */
  predicate WellFormed(tables: seq<set<Row>>) {
    && |tables| == TABLES
    && forall r, q :: r in tables[REPORTS] && q in tables[REPORTS] && r.hunt == q.hunt ==> r == q
  }

  /** The table has a row of the hunt that names file `p`. */
  predicate Names(t: set<Row>, hunt: string, owner: string, p: string) {
    p != "" && exists r :: r in t && Mine(r, hunt, owner) && r.path == p
  }

  predicate Named(tables: seq<set<Row>>, hunt: string, owner: string, p: string)
    requires |tables| == TABLES
  {
    Names(tables[UPLOADS], hunt, owner, p) || Names(tables[REPORTS], hunt, owner, p)
  }

  // ---- The invariant of one hunt's cleanup ----

  /** Every file that the hunt's rows named at the start is gone or still named. */
  ghost predicate NoOrphan(init: seq<set<Row>>, tables: seq<set<Row>>, files: set<string>, hunt: string, owner: string)
    requires |init| == TABLES && |tables| == TABLES
  {
    forall p :: Named(init, hunt, owner, p) && p in files ==> Named(tables, hunt, owner, p)
  }

  /** The hunt's own row goes last. */
  ghost predicate HuntLast(init: seq<set<Row>>, tables: seq<set<Row>>, hunt: string, owner: string)
    requires |init| == TABLES && |tables| == TABLES
  {
    Empty(tables[HUNT], hunt, owner) && !Empty(init[HUNT], hunt, owner) ==> EmptyBelow(tables, TABLES, hunt, owner)
  }

  /** What holds of a hunt in every state of every sequence of attempts that started with the tables `init`. */
  ghost predicate Safe(init: seq<set<Row>>, s: Store, hunt: string, owner: string) {
    && WellFormed(init) && WellFormed(s.tables)
    && CursorOf(s, hunt, owner) <= TABLES
    && EmptyBelow(s.tables, CursorOf(s, hunt, owner), hunt, owner)
    && NoOrphan(init, s.tables, s.files, hunt, owner)
    && HuntLast(init, s.tables, hunt, owner)
  }

  /** Other hunts' rows are the same, and no row is new outside the audit table. */
  ghost predicate RowsScoped(a: seq<set<Row>>, b: seq<set<Row>>, hunt: string, owner: string) {
    && |a| == |b| == TABLES
    && forall i :: 0 <= i < TABLES ==> TableScoped(a[i], b[i], i == AUDIT, hunt, owner)
  }

  ghost predicate TableScoped(a: set<Row>, b: set<Row>, grows: bool, hunt: string, owner: string) {
    && (forall r :: !Mine(r, hunt, owner) ==> (r in a <==> r in b))
    && (!grows ==> b <= a)
  }

  /** Only files that the hunt's rows named are gone. */
  ghost predicate FilesScoped(
    tables: seq<set<Row>>, before: set<string>, after: set<string>, hunt: string, owner: string)
    requires |tables| == TABLES
  {
    && after <= before
    && forall p :: p in before && p !in after ==> Named(tables, hunt, owner, p)
  }

  predicate SameTask(a: map<string, Task>, b: map<string, Task>, h: string) {
    (h in a <==> h in b) && (h in a ==> a[h] == b[h])
  }

  /** Only the hunt's own task moved, and only if it is the owner's. */
  ghost predicate TasksScoped(a: map<string, Task>, b: map<string, Task>, hunt: string, owner: string) {
    && (forall h :: h != hunt ==> SameTask(a, b, h))
    && (hunt in a && a[hunt].owner != owner ==> SameTask(a, b, hunt))
    && (hunt in b && b[hunt].owner != owner ==> SameTask(a, b, hunt))
  }

  /** What cleaning one hunt leaves alone. */
  ghost predicate Scoped(a: Store, b: Store, hunt: string, owner: string) {
    && RowsScoped(a.tables, b.tables, hunt, owner)
    && FilesScoped(a.tables, a.files, b.files, hunt, owner)
    && TasksScoped(a.tasks, b.tasks, hunt, owner)
  }

  // ---- The durable operations ----

  /** Creates the hunt's task, or takes it up again where it was left. */
  function Claimed(s: Store, hunt: string, owner: string): Store {
    if hunt in s.tasks then s.(tasks := s.tasks[hunt := s.tasks[hunt].(completed := false)])
    else s.(tasks := s.tasks[hunt := Task(owner, 0, false)])
  }

  function WithCursor(s: Store, hunt: string, cursor: nat): Store {
    if hunt in s.tasks then s.(tasks := s.tasks[hunt := s.tasks[hunt].(cursor := cursor)]) else s
  }

  function Completed(s: Store, hunt: string): Store {
    if hunt in s.tasks then s.(tasks := s.tasks[hunt := s.tasks[hunt].(completed := true)]) else s
  }

  function WithoutFile(s: Store, p: string): Store {
    s.(files := s.files - {p})
  }

  function WithoutRows(s: Store, i: nat, hunt: string, owner: string): Store
    requires i < |s.tables|
  {
    s.(tables := s.tables[i := set r | r in s.tables[i] && !Mine(r, hunt, owner)])
  }

  function Audited(s: Store, r: Row): Store
    requires AUDIT < |s.tables|
  {
    s.(tables := s.tables[AUDIT := s.tables[AUDIT] + {r}])
  }

  // ---- Each operation keeps the invariant ----

  /** A state of an attempt that began in `pre`, for a hunt whose cleanup began with the tables `init`. */
  ghost predicate Keeps(init: seq<set<Row>>, pre: Store, s: Store, hunt: string, owner: string) {
    Safe(init, s, hunt, owner) && Scoped(pre, s, hunt, owner)
  }

  lemma TaskMoves(a: map<string, Task>, b: map<string, Task>, hunt: string, owner: string, task: Task)
    requires TasksScoped(a, b, hunt, owner)
    requires task.owner == owner && (hunt in b ==> b[hunt].owner == owner)
    ensures TasksScoped(a, b[hunt := task], hunt, owner)
  {
    var moved := b[hunt := task];
    forall h | h != hunt ensures SameTask(a, moved, h) {
      assert SameTask(a, b, h);
    }
  }

  lemma ClaimKeeps(init: seq<set<Row>>, pre: Store, s: Store, hunt: string, owner: string)
    requires Keeps(init, pre, s, hunt, owner)
    requires hunt in s.tasks ==> s.tasks[hunt].owner == owner
    ensures Keeps(init, pre, Claimed(s, hunt, owner), hunt, owner)
    ensures CursorOf(Claimed(s, hunt, owner), hunt, owner) == CursorOf(s, hunt, owner)
  {
    TaskMoves(pre.tasks, s.tasks, hunt, owner, Claimed(s, hunt, owner).tasks[hunt]);
  }

  lemma CursorKeeps(init: seq<set<Row>>, pre: Store, s: Store, hunt: string, owner: string, cursor: nat)
    requires Keeps(init, pre, s, hunt, owner)
    requires hunt in s.tasks && s.tasks[hunt].owner == owner
    requires cursor <= TABLES && EmptyBelow(s.tables, cursor, hunt, owner)
    ensures Keeps(init, pre, WithCursor(s, hunt, cursor), hunt, owner)
  {
    TaskMoves(pre.tasks, s.tasks, hunt, owner, s.tasks[hunt].(cursor := cursor));
  }

  lemma CompleteKeeps(init: seq<set<Row>>, pre: Store, s: Store, hunt: string, owner: string)
    requires Keeps(init, pre, s, hunt, owner)
    requires hunt in s.tasks && s.tasks[hunt].owner == owner
    ensures Keeps(init, pre, Completed(s, hunt), hunt, owner)
  {
    TaskMoves(pre.tasks, s.tasks, hunt, owner, s.tasks[hunt].(completed := true));
  }

  /** Rows may go once every file they name is gone, and the hunt's own row once all other tables are empty. */
  lemma RowsKeep(init: seq<set<Row>>, pre: Store, s: Store, hunt: string, owner: string, i: nat)
    requires Keeps(init, pre, s, hunt, owner)
    requires i < TABLES
    requires forall p :: Named(s.tables, hunt, owner, p) ==> p !in s.files
    requires i == HUNT ==> EmptyBelow(s.tables, HUNT, hunt, owner)
    ensures Keeps(init, pre, WithoutRows(s, i, hunt, owner), hunt, owner)
    ensures Empty(WithoutRows(s, i, hunt, owner).tables[i], hunt, owner)
  {
  }

  // ---- Other hunts ----

  lemma EmptyElsewhere(a: set<Row>, b: set<Row>, grows: bool, hunt: string, owner: string, h: string, o: string)
    requires TableScoped(a, b, grows, hunt, owner)
    requires h != hunt || o != owner
    ensures Empty(b, h, o) <==> Empty(a, h, o)
    ensures forall p :: Names(b, h, o, p) <==> Names(a, h, o, p)
  {
    forall p ensures Names(b, h, o, p) <==> Names(a, h, o, p) {
      if Names(a, h, o, p) {
        var r :| r in a && Mine(r, h, o) && r.path == p;
        assert r in b;
      }
      if Names(b, h, o, p) {
        var r :| r in b && Mine(r, h, o) && r.path == p;
        assert r in a;
      }
    }
  }

  /** Cleaning one hunt keeps what holds of every other. */
  lemma OthersStaySafe(init: seq<set<Row>>, a: Store, b: Store, hunt: string, owner: string, h: string, o: string)
    requires Scoped(a, b, hunt, owner) && WellFormed(b.tables)
    requires h != hunt || o != owner
    requires Safe(init, a, h, o)
    ensures Safe(init, b, h, o)
  {
    assert SameTask(a.tasks, b.tasks, h) || (h == hunt && o != owner);
    assert CursorOf(b, h, o) == CursorOf(a, h, o);
    EmptyElsewhere(a.tables[UPLOADS], b.tables[UPLOADS], false, hunt, owner, h, o);
    EmptyElsewhere(a.tables[REPORTS], b.tables[REPORTS], false, hunt, owner, h, o);
  }

  /** At the start of a hunt's first cleanup nothing is owed. */
  lemma InitiallySafe(s: Store, hunt: string, owner: string)
    requires WellFormed(s.tables) && CursorOf(s, hunt, owner) == 0
    ensures Safe(s.tables, s, hunt, owner)
  {
  }

  /** A state of the hunt in which nothing but its audit trail is left. */
  ghost predicate Erased(init: seq<set<Row>>, s: Store, hunt: string, owner: string) {
    && WellFormed(init) && WellFormed(s.tables)
    && EmptyBelow(s.tables, TABLES, hunt, owner)
    && forall p :: Named(init, hunt, owner, p) ==> p !in s.files
  }

  /** On the rows: fourteen of the fifteen tables have no row of an erased hunt, the audit table being the other, and
      no file is left that a row of its uploads or reports named at the start. */
  lemma ErasedRows(init: seq<set<Row>>, s: Store, hunt: string, owner: string)
    requires Erased(init, s, hunt, owner)
    ensures |s.tables| == 15
    ensures forall i, r :: 0 <= i < 15 && i != 13 && r in s.tables[i] ==> r.hunt != hunt || r.owner != owner
    ensures forall r :: (r in init[1] || r in init[11]) && r.hunt == hunt && r.owner == owner && r.path != "" ==>
                          r.path !in s.files
  {
    forall r | (r in init[1] || r in init[11]) && r.hunt == hunt && r.owner == owner && r.path != ""
      ensures r.path !in s.files
    {
      assert Mine(r, hunt, owner) && Named(init, hunt, owner, r.path);
    }
  }

  /** On the rows: cleaning a hunt adds and removes no row of any other, adds a row to the audit table only, and
      removes no file that a row of another hunt names and no row of its own does. */
  lemma ScopedRows(a: Store, b: Store, hunt: string, owner: string)
    requires Scoped(a, b, hunt, owner)
    ensures forall i, r: Row :: 0 <= i < 15 && (r.hunt != hunt || r.owner != owner) ==>
                                  (r in a.tables[i] <==> r in b.tables[i])
    ensures forall i, r :: 0 <= i < 15 && i != 13 && r in b.tables[i] ==> r in a.tables[i]
    ensures forall p :: p in a.files && p !in b.files ==>
                          exists r :: (r in a.tables[1] || r in a.tables[11])
                                      && r.hunt == hunt && r.owner == owner && r.path == p != ""
    ensures forall h :: h in a.tasks && (h != hunt || a.tasks[h].owner != owner) ==>
                          h in b.tasks && b.tasks[h] == a.tasks[h]
  {
    forall i, r: Row | 0 <= i < 15 && (r.hunt != hunt || r.owner != owner)
      ensures r in a.tables[i] <==> r in b.tables[i]
    {
      assert TableScoped(a.tables[i], b.tables[i], i == AUDIT, hunt, owner) && !Mine(r, hunt, owner);
    }
    forall i, r | 0 <= i < 15 && i != 13 && r in b.tables[i] ensures r in a.tables[i] {
      assert TableScoped(a.tables[i], b.tables[i], false, hunt, owner);
    }
    forall p | p in a.files && p !in b.files
      ensures exists r :: (r in a.tables[1] || r in a.tables[11])
                          && r.hunt == hunt && r.owner == owner && r.path == p != ""
    {
      assert Named(a.tables, hunt, owner, p);
    }
    forall h | h in a.tasks && (h != hunt || a.tasks[h].owner != owner)
      ensures h in b.tasks && b.tasks[h] == a.tasks[h]
    {
      assert h != hunt ==> SameTask(a.tasks, b.tasks, h);
    }
  }

  /** Once the tables are empty, no file that the hunt ever named is left. */
  lemma EmptyLeavesNoFile(init: seq<set<Row>>, s: Store, hunt: string, owner: string)
    requires Safe(init, s, hunt, owner)
    requires EmptyBelow(s.tables, TABLES, hunt, owner)
    ensures Erased(init, s, hunt, owner)
  {
    forall p | Named(init, hunt, owner, p) ensures p !in s.files {
      assert Empty(s.tables[UPLOADS], hunt, owner) && Empty(s.tables[REPORTS], hunt, owner);
    }
  }

  /** An erased hunt stays erased, whichever hunt is cleaned next. */
  lemma ErasedStays(init: seq<set<Row>>, a: Store, b: Store, hunt: string, owner: string, h: string, o: string)
    requires Scoped(a, b, hunt, owner) && WellFormed(b.tables)
    requires Erased(init, a, h, o)
    ensures Erased(init, b, h, o)
  {
    forall i | 0 <= i < TABLES && i != AUDIT ensures Empty(b.tables[i], h, o) {
      assert TableScoped(a.tables[i], b.tables[i], false, hunt, owner);
      assert Empty(a.tables[i], h, o);
    }
  }
}
