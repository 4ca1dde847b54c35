/**
 What a flush writes (internal/analytics/sink.go): raw events, inserted once per id, and the
 job_summary and node_summary rows, upserted event by event. A row is a map from column to
 value; a missing column is NULL. Columns are either set by the latest writer, filled by the
 first one, or counted up.
 */
module Summaries {
  import opened Wrappers

  // ---- Events ---------------------------------------------------------------

  datatype Value = Str(s: string) | Num(n: int) | Real(r: real) | OtherValue

  type Data = map<string, Value>

  datatype Event = Event(id: string, kind: string, timestamp: int, data: Data)

  function ExtractString(data: Data, key: string): string {
    if key in data && data[key].Str? then data[key].s else ""
  }

  /** Integers as they are, floats cut towards zero, anything else is 0. */
  function ExtractInt(data: Data, key: string): int {
    if key !in data then 0
    else match data[key]
      case Num(n) => n
      case Real(r) => if r >= 0.0 then r.Floor else -((-r).Floor)
      case _ => 0
  }

  // ---- Upserts --------------------------------------------------------------

  datatype Column =
    | Command | Priority | NodeId | FinalStatus | SubmittedAt | StartedAt
    | CompletedAt | DurationMs | Attempts | LastError | LastExitCode

  datatype Cell = Text(s: string) | Number(n: int) | Time(t: int)

  type Row = map<Column, Cell>

  /** Set overwrites; Fill is COALESCE(existing, new). */
  datatype Write = Set(c: Cell) | Fill(c: Cell)

  /**
   An INSERT with its ON CONFLICT clause. The inserted row holds all three parts; on conflict
   the columns in `latest` are overwritten, those in `first` only filled, those in `initial` left alone.
   */
  datatype Upsert = Upsert(latest: Row, first: Row, initial: Row)

  function InsertedRow(u: Upsert): Row {
    DEFAULTS + u.initial + u.first + u.latest
  }

  /** What the ON CONFLICT clause does to a column. */
  function WriteAt(u: Upsert, c: Column): Option<Write> {
    if c in u.latest then Some(Set(u.latest[c]))
    else if c in u.first then Some(Fill(u.first[c]))
    else None
  }

  function Lookup(row: Row, c: Column): Option<Cell> {
    if c in row then Some(row[c]) else None
  }

  function Written(x: Option<Cell>, w: Option<Write>): Option<Cell> {
    match w
    case None => x
    case Some(Set(c)) => Some(c)
    case Some(Fill(c)) => if x.Some? then x else Some(c)
  }

  /** The row after a conflict: filled columns give way to existing ones, latest ones do not. */
  function Update(row: Row, u: Upsert): Row {
    u.first + row + u.latest
  }

  /** attempts INT DEFAULT 1 */
  const DEFAULTS: Row := map[Attempts := Number(1)]

  function NodeCell(nodeId: string): Row {
    if nodeId == "" then map[] else map[NodeId := Text(nodeId)]
  }

  function JobIdOf(e: Event): string {
    ExtractString(e.data, "job_id")
  }

  function SubmittedUpsert(e: Event): Upsert {
    Upsert(map[Command := Text(ExtractString(e.data, "command")), Priority := Number(ExtractInt(e.data, "priority")),
               SubmittedAt := Time(e.timestamp)], map[], map[FinalStatus := Text("pending")])
  }

  function TransitionUpsert(e: Event): Upsert {
    var to := ExtractString(e.data, "to_status");
    Upsert(map[FinalStatus := Text(to)] + NodeCell(ExtractString(e.data, "node_id")),
           if to == "running" then map[StartedAt := Time(e.timestamp)] else map[], map[])
  }

  function CompletedUpsert(e: Event): Upsert {
    Upsert(map[FinalStatus := Text("completed"), CompletedAt := Time(e.timestamp),
               DurationMs := Number(ExtractInt(e.data, "duration_ms"))] +
           NodeCell(ExtractString(e.data, "node_id")), map[], map[])
  }

  function FailedUpsert(e: Event): Upsert {
    Upsert(map[FinalStatus := Text("failed"), CompletedAt := Time(e.timestamp),
               LastError := Text(ExtractString(e.data, "error")),
               LastExitCode := Number(ExtractInt(e.data, "exit_code")),
               Attempts := Number(ExtractInt(e.data, "attempt"))],
           map[], map[])
  }

  function RetryingUpsert(e: Event): Upsert {
    Upsert(map[FinalStatus := Text("retrying"), Attempts := Number(ExtractInt(e.data, "attempt"))], map[], map[])
  }

  /** The job_summary statement an event issues, if any. */
  function JobUpsert(e: Event): Option<Upsert> {
    if JobIdOf(e) == "" then None
    else if e.kind == "job.submitted" then Some(SubmittedUpsert(e))
    else if e.kind == "job.transition" then Some(TransitionUpsert(e))
    else if e.kind == "job.completed" then Some(CompletedUpsert(e))
    else if e.kind == "job.failed" then Some(FailedUpsert(e))
    else if e.kind == "job.retrying" then Some(RetryingUpsert(e))
    else None
  }

  /** The row an upsert leaves where `before` was. */
  function Upserted(u: Upsert, before: Option<Row>): Row {
    if before.Some? then Update(before.value, u) else InsertedRow(u)
  }

  type JobTable = map<string, Row>

  function RowOf(t: JobTable, job: string): Option<Row> {
    if job in t then Some(t[job]) else None
  }

  /** The row an event's statement leaves, if it issues one. */
  function RowAfter(before: Option<Row>, e: Event): Option<Row> {
    if JobUpsert(e).Some? then Some(Upserted(JobUpsert(e).value, before)) else None
  }

  function ApplyJob(t: JobTable, e: Event): JobTable {
    var row := RowAfter(RowOf(t, JobIdOf(e)), e);
    if row.Some? then t[JobIdOf(e) := row.value] else t
  }

  // ---- node_summary -----------------------------------------------------------

  datatype NodeRow = NodeRow(address: Option<string>, firstSeen: int, lastSeen: int,
                             timesStale: nat, timesRevoked: nat, jobsCompleted: nat, jobsFailed: nat)

  datatype Counter = Stale | Revoked | JobCompleted | JobFailed

  type NodeTable = map<string, NodeRow>

  /** The counter an event bumps, and on which node; job events count only with a job id. */
  function Counts(e: Event): Option<(string, Counter)> {
    var job, node := ExtractString(e.data, "job_id"), ExtractString(e.data, "node_id");
    if node == "" then None
    else if e.kind == "job.completed" && job != "" then Some((node, JobCompleted))
    else if e.kind == "job.failed" && job != "" then Some((node, JobFailed))
    else if e.kind == "node.stale" then Some((node, Stale))
    else if e.kind == "node.revoked" then Some((node, Revoked))
    else None
  }

  /** A node that was heard of at this time. */
  function Seen(before: Option<NodeRow>, timestamp: int): NodeRow {
    if before.Some? then before.value.(lastSeen := timestamp) else NodeRow(None, timestamp, timestamp, 0, 0, 0, 0)
  }

  function Bump(r: NodeRow, c: Counter): NodeRow {
    match c
    case Stale => r.(timesStale := r.timesStale + 1)
    case Revoked => r.(timesRevoked := r.timesRevoked + 1)
    case JobCompleted => r.(jobsCompleted := r.jobsCompleted + 1)
    case JobFailed => r.(jobsFailed := r.jobsFailed + 1)
  }

  /** The row an event leaves where `before` was, if it touches the node table. */
  function NodeAfter(before: Option<NodeRow>, e: Event): Option<NodeRow> {
    match Counts(e)
    case Some((_, c)) => Some(Bump(Seen(before, e.timestamp), c))
    case None =>
      if e.kind == "node.registered"
      then Some(Seen(before, e.timestamp).(address := Some(ExtractString(e.data, "address"))))
      else None
  }

  function NodeOf(t: NodeTable, node: string): Option<NodeRow> {
    if node in t then Some(t[node]) else None
  }

  function ApplyNode(t: NodeTable, e: Event): NodeTable {
    var node := ExtractString(e.data, "node_id");
    var row := NodeAfter(NodeOf(t, node), e);
    if node != "" && row.Some? then t[node := row.value] else t
  }

  // ---- The database -----------------------------------------------------------

  datatype Database = Database(events: map<string, Event>, jobs: JobTable, nodes: NodeTable)

  /** ON CONFLICT (id) DO NOTHING */
  function InsertEvent(t: map<string, Event>, e: Event): map<string, Event> {
    if e.id in t then t else t[e.id := e]
  }

  function InsertAll(t: map<string, Event>, evs: seq<Event>): map<string, Event>
    decreases |evs|
  {
    if evs == [] then t else InsertAll(InsertEvent(t, evs[0]), evs[1..])
  }

  function JobAll(t: JobTable, evs: seq<Event>): JobTable
    decreases |evs|
  {
    if evs == [] then t else JobAll(ApplyJob(t, evs[0]), evs[1..])
  }

  function NodeAll(t: NodeTable, evs: seq<Event>): NodeTable
    decreases |evs|
  {
    if evs == [] then t else NodeAll(ApplyNode(t, evs[0]), evs[1..])
  }

  /** One flush, or any number of them: all inserts, then all upserts. */
  function Project(db: Database, evs: seq<Event>): Database {
    Database(InsertAll(db.events, evs), JobAll(db.jobs, evs), NodeAll(db.nodes, evs))
  }

  // ---- Batching does not matter -----------------------------------------------

  lemma {:induction false} InsertAllSplit(t: map<string, Event>, a: seq<Event>, b: seq<Event>)
    ensures InsertAll(t, a + b) == InsertAll(InsertAll(t, a), b)
    decreases |a|
  {
    if a == [] {
      assert a + b == b;
    } else {
      assert (a + b)[1..] == a[1..] + b;
      InsertAllSplit(InsertEvent(t, a[0]), a[1..], b);
    }
  }

  lemma {:induction false} JobAllSplit(t: JobTable, a: seq<Event>, b: seq<Event>)
    ensures JobAll(t, a + b) == JobAll(JobAll(t, a), b)
    decreases |a|
  {
    if a == [] {
      assert a + b == b;
    } else {
      assert (a + b)[1..] == a[1..] + b;
      JobAllSplit(ApplyJob(t, a[0]), a[1..], b);
    }
  }

  lemma {:induction false} NodeAllSplit(t: NodeTable, a: seq<Event>, b: seq<Event>)
    ensures NodeAll(t, a + b) == NodeAll(NodeAll(t, a), b)
    decreases |a|
  {
    if a == [] {
      assert a + b == b;
    } else {
      assert (a + b)[1..] == a[1..] + b;
      NodeAllSplit(ApplyNode(t, a[0]), a[1..], b);
    }
  }

  lemma ProjectSplit(db: Database, a: seq<Event>, b: seq<Event>)
    ensures Project(db, a + b) == Project(Project(db, a), b)
  {
    InsertAllSplit(db.events, a, b);
    JobAllSplit(db.jobs, a, b);
    NodeAllSplit(db.nodes, a, b);
  }

  function Flatten(batches: seq<seq<Event>>): seq<Event> {
    if batches == [] then [] else batches[0] + Flatten(batches[1..])
  }

  function FlushEach(db: Database, batches: seq<seq<Event>>): Database
    decreases |batches|
  {
    if batches == [] then db else FlushEach(Project(db, batches[0]), batches[1..])
  }

  /** However the events are cut into batches, the database ends up the same. */
  lemma {:induction false} BatchingIsIrrelevant(db: Database, batches: seq<seq<Event>>)
    ensures FlushEach(db, batches) == Project(db, Flatten(batches))
    decreases |batches|
  {
    if batches == [] {
    } else {
      BatchingIsIrrelevant(Project(db, batches[0]), batches[1..]);
      ProjectSplit(db, batches[0], Flatten(batches[1..]));
    }
  }

  // ---- A job's row depends on that job's events only ----------------------------

  predicate Concerns(e: Event, job: string) {
    JobUpsert(e).Some? && JobIdOf(e) == job
  }

  function EventsOf(evs: seq<Event>, job: string): (r: seq<Event>)
    ensures forall e :: e in r ==> Concerns(e, job)
  {
    if evs == [] then []
    else (if Concerns(evs[0], job) then [evs[0]] else []) + EventsOf(evs[1..], job)
  }

  function RowAll(r: Option<Row>, evs: seq<Event>): Option<Row>
    requires forall e :: e in evs ==> JobUpsert(e).Some?
    decreases |evs|
  {
    if evs == [] then r else RowAll(RowAfter(r, evs[0]), evs[1..])
  }

  lemma {:induction false} JobRowIsLocal(t: JobTable, evs: seq<Event>, job: string)
    ensures RowOf(JobAll(t, evs), job) == RowAll(RowOf(t, job), EventsOf(evs, job))
    decreases |evs|
  {
    if evs == [] {
    } else {
      JobRowIsLocal(ApplyJob(t, evs[0]), evs[1..], job);
      var rest := EventsOf(evs[1..], job);
      if Concerns(evs[0], job) {
        assert EventsOf(evs, job)[1..] == rest;
      } else {
        assert EventsOf(evs, job) == rest;
      }
    }
  }

  // ---- Replaying a history changes no job row -----------------------------------

  function WriteOf(e: Event, c: Column): Option<Write> {
    if JobUpsert(e).Some? then WriteAt(JobUpsert(e).value, c) else None
  }

  /** What a sequence of events does to one column. */
  function ColumnAll(x: Option<Cell>, evs: seq<Event>, c: Column): Option<Cell>
    decreases |evs|
  {
    if evs == [] then x else ColumnAll(Written(x, WriteOf(evs[0], c)), evs[1..], c)
  }

  predicate Sets(e: Event, c: Column) {
    WriteOf(e, c).Some? && WriteOf(e, c).value.Set?
  }

  predicate SetsColumn(evs: seq<Event>, c: Column) {
    exists e :: e in evs && Sets(e, c)
  }

  /** If the column is ever overwritten, where it started does not matter. */
  lemma {:induction false} LastWriterWins(x: Option<Cell>, y: Option<Cell>, evs: seq<Event>, c: Column)
    requires SetsColumn(evs, c)
    ensures ColumnAll(x, evs, c) == ColumnAll(y, evs, c)
    decreases |evs|
  {
    if !Sets(evs[0], c) {
      var e :| e in evs && Sets(e, c);
      assert e in evs[1..];
      LastWriterWins(Written(x, WriteOf(evs[0], c)), Written(y, WriteOf(evs[0], c)), evs[1..], c);
    }
  }

  /** If it is only ever filled, the first value stays. */
  lemma {:induction false} FirstWriterStays(x: Option<Cell>, evs: seq<Event>, c: Column)
    requires !SetsColumn(evs, c)
    ensures x.Some? ==> ColumnAll(x, evs, c) == x
    ensures x.None? && ColumnAll(x, evs, c).None? ==> forall e :: e in evs ==> WriteOf(e, c).None?
    decreases |evs|
  {
    if evs == [] {
    } else {
      assert evs[0] in evs && !Sets(evs[0], c);
      assert forall e :: e in evs[1..] ==> e in evs;
      FirstWriterStays(Written(x, WriteOf(evs[0], c)), evs[1..], c);
      assert evs == [evs[0]] + evs[1..];
    }
  }

  lemma {:induction false} Untouched(x: Option<Cell>, evs: seq<Event>, c: Column)
    requires forall e :: e in evs ==> WriteOf(e, c).None?
    ensures ColumnAll(x, evs, c) == x
    decreases |evs|
  {
    if evs == [] {
    } else {
      assert evs[0] in evs;
      Untouched(x, evs[1..], c);
    }
  }

  lemma ColumnReplay(x: Option<Cell>, evs: seq<Event>, c: Column)
    ensures ColumnAll(ColumnAll(x, evs, c), evs, c) == ColumnAll(x, evs, c)
  {
    var y := ColumnAll(x, evs, c);
    if SetsColumn(evs, c) {
      LastWriterWins(x, y, evs, c);
    } else {
      FirstWriterStays(x, evs, c);
      FirstWriterStays(y, evs, c);
      if y.None? && x.None? {
        Untouched(y, evs, c);
      }
    }
  }

  /** Inserting a row is updating a blank one that holds only the initial columns. */
  function Blank(e: Event): Row {
    if JobUpsert(e).Some? then DEFAULTS + JobUpsert(e).value.initial else DEFAULTS
  }

  /** Columns that are filled are written nowhere else, and columns set on insert only are not overwritten. */
  predicate Separate(u: Upsert) {
    && (forall c :: c in u.first ==> c !in DEFAULTS && c !in u.initial && c !in u.latest)
    && (forall c :: c in u.initial ==> c !in u.latest)
  }

  lemma JobUpsertIsSeparate(e: Event)
    requires JobUpsert(e).Some?
    ensures Separate(JobUpsert(e).value)
  {
  }

  lemma LookupMerged(a: Row, b: Row, c: Column)
    ensures Lookup(a + b, c) == if c in b then Some(b[c]) else Lookup(a, c)
  {
  }

  lemma LookupUpdated(row: Row, u: Upsert, c: Column)
    ensures Lookup(Update(row, u), c) == Written(Lookup(row, c), WriteAt(u, c))
  {
    LookupMerged(u.first + row, u.latest, c);
    LookupMerged(u.first, row, c);
  }

  lemma InsertedColumn(u: Upsert, c: Column)
    requires Separate(u)
    ensures Lookup(InsertedRow(u), c) == Lookup(Update(DEFAULTS + u.initial, u), c)
  {
    var blank := DEFAULTS + u.initial;
    LookupMerged(blank + u.first, u.latest, c);
    LookupMerged(blank, u.first, c);
    LookupMerged(DEFAULTS, u.initial, c);
    LookupUpdated(blank, u, c);
  }

  lemma InsertIsUpdateOfBlank(e: Event)
    requires JobUpsert(e).Some?
    ensures InsertedRow(JobUpsert(e).value) == Update(Blank(e), JobUpsert(e).value)
  {
    var u := JobUpsert(e).value;
    JobUpsertIsSeparate(e);
    var blank := DEFAULTS + u.initial;
    forall c ensures Lookup(InsertedRow(u), c) == Lookup(Update(blank, u), c) {
      InsertedColumn(u, c);
    }
    SameRow(InsertedRow(u), Update(blank, u));
  }

  lemma {:induction false} RowColumns(row: Row, evs: seq<Event>, c: Column)
    requires forall e :: e in evs ==> JobUpsert(e).Some?
    ensures RowAll(Some(row), evs).Some? && Lookup(RowAll(Some(row), evs).value, c) == ColumnAll(Lookup(row, c), evs, c)
    decreases |evs|
  {
    if evs == [] {
    } else {
      var u := JobUpsert(evs[0]).value;
      LookupUpdated(row, u, c);
      RowColumns(Update(row, u), evs[1..], c);
    }
  }

  lemma SameRow(a: Row, b: Row)
    requires forall c :: Lookup(a, c) == Lookup(b, c)
    ensures a == b
  {
    forall c ensures c in a <==> c in b {
      assert Lookup(a, c) == Lookup(b, c);
    }
    forall c | c in a ensures a[c] == b[c] {
      assert Lookup(a, c) == Lookup(b, c);
    }
  }

  lemma ExistingRowReplay(row: Row, evs: seq<Event>)
    requires forall e :: e in evs ==> JobUpsert(e).Some?
    ensures RowAll(RowAll(Some(row), evs), evs) == RowAll(Some(row), evs)
  {
    RowColumns(row, evs, Command);
    var once := RowAll(Some(row), evs).value;
    RowColumns(once, evs, Command);
    var twice := RowAll(Some(once), evs).value;
    forall c ensures Lookup(twice, c) == Lookup(once, c) {
      RowColumns(row, evs, c);
      RowColumns(once, evs, c);
      ColumnReplay(Lookup(row, c), evs, c);
    }
    SameRow(twice, once);
  }

  lemma RowReplay(r: Option<Row>, evs: seq<Event>)
    requires forall e :: e in evs ==> JobUpsert(e).Some?
    ensures RowAll(RowAll(r, evs), evs) == RowAll(r, evs)
  {
    if evs != [] {
      if r.Some? {
        ExistingRowReplay(r.value, evs);
      } else {
        InsertIsUpdateOfBlank(evs[0]);
        assert RowAll(r, evs) == RowAll(Some(Blank(evs[0])), evs);
        ExistingRowReplay(Blank(evs[0]), evs);
      }
    }
  }

  /** Applying a whole event history a second time leaves job_summary as it was, from any starting table. */
  lemma JobSummaryReplay(t: JobTable, evs: seq<Event>)
    ensures JobAll(JobAll(t, evs), evs) == JobAll(t, evs)
  {
    var once := JobAll(t, evs);
    var twice := JobAll(once, evs);
    forall job ensures RowOf(twice, job) == RowOf(once, job) {
      JobRowIsLocal(t, evs, job);
      JobRowIsLocal(once, evs, job);
      RowReplay(RowOf(t, job), EventsOf(evs, job));
    }
    forall job ensures job in twice <==> job in once {
      assert RowOf(twice, job) == RowOf(once, job);
    }
    forall job | job in once ensures twice[job] == once[job] {
      assert RowOf(twice, job) == RowOf(once, job);
    }
  }

  // ---- Events are stored once per id ----------------------------------------------

  /** e is the first event with this id. */
  ghost predicate IsFirst(evs: seq<Event>, id: string, e: Event) {
    exists i :: 0 <= i < |evs| && evs[i] == e && e.id == id && forall k :: 0 <= k < i ==> evs[k].id != id
  }

  /** The first event of each id is kept, and nothing stored is ever replaced. */
  lemma {:induction false} EventsAreStoredOnce(t: map<string, Event>, evs: seq<Event>)
    ensures forall id :: id in t ==> id in InsertAll(t, evs) && InsertAll(t, evs)[id] == t[id]
    ensures forall e :: e in evs ==> e.id in InsertAll(t, evs)
    ensures forall id :: id in InsertAll(t, evs) && id !in t ==> IsFirst(evs, id, InsertAll(t, evs)[id])
    decreases |evs|
  {
    if evs == [] {
    } else {
      var first, rest := evs[0], evs[1..];
      EventsAreStoredOnce(InsertEvent(t, first), rest);
      assert evs == [first] + rest;
      forall id | id in InsertAll(t, evs) && id !in t ensures IsFirst(evs, id, InsertAll(t, evs)[id]) {
        if id == first.id {
          assert evs[0] == InsertAll(t, evs)[id];
        } else {
          FirstOfRest(evs, id, InsertAll(t, evs)[id]);
        }
      }
    }
  }

  lemma FirstOfRest(evs: seq<Event>, id: string, e: Event)
    requires evs != [] && evs[0].id != id && IsFirst(evs[1..], id, e)
    ensures IsFirst(evs, id, e)
  {
    var rest := evs[1..];
    var i :| 0 <= i < |rest| && rest[i] == e && e.id == id && forall k :: 0 <= k < i ==> rest[k].id != id;
    assert evs[i + 1] == e;
    forall k | 0 <= k < i + 1 ensures evs[k].id != id {
      assert k > 0 ==> evs[k] == rest[k - 1];
    }
  }

  lemma {:induction false} NothingNewToInsert(t: map<string, Event>, evs: seq<Event>)
    requires forall e :: e in evs ==> e.id in t
    ensures InsertAll(t, evs) == t
    decreases |evs|
  {
    if evs == [] {
    } else {
      assert evs[0] in evs;
      NothingNewToInsert(t, evs[1..]);
    }
  }

  // ---- Counters -------------------------------------------------------------------

  function Reading(t: NodeTable, node: string, c: Counter): nat {
    if node !in t then 0
    else match c
      case Stale => t[node].timesStale
      case Revoked => t[node].timesRevoked
      case JobCompleted => t[node].jobsCompleted
      case JobFailed => t[node].jobsFailed
  }

  function Tally(evs: seq<Event>, node: string, c: Counter): nat {
    if evs == [] then 0
    else (if Counts(evs[0]) == Some((node, c)) then 1 else 0) + Tally(evs[1..], node, c)
  }

  lemma OneEventCounts(t: NodeTable, e: Event, node: string, c: Counter)
    ensures Reading(ApplyNode(t, e), node, c) == Reading(t, node, c) + if Counts(e) == Some((node, c)) then 1 else 0
  {
  }

  /** Every counter grows by exactly the number of matching events processed. */
  lemma {:induction false} CountersAreExact(t: NodeTable, evs: seq<Event>, node: string, c: Counter)
    ensures Reading(NodeAll(t, evs), node, c) == Reading(t, node, c) + Tally(evs, node, c)
    decreases |evs|
  {
    if evs == [] {
    } else {
      OneEventCounts(t, evs[0], node, c);
      CountersAreExact(ApplyNode(t, evs[0]), evs[1..], node, c);
    }
  }

  /** Replaying a history keeps the events and the job rows but counts everything again. */
  lemma ReplayDoublesCounters(db: Database, evs: seq<Event>, node: string, c: Counter)
    ensures var once := Project(db, evs);
            var twice := Project(once, evs);
            && twice.events == once.events
            && twice.jobs == once.jobs
            && Reading(twice.nodes, node, c) == Reading(once.nodes, node, c) + Tally(evs, node, c)
  {
    EventsAreStoredOnce(db.events, evs);
    NothingNewToInsert(InsertAll(db.events, evs), evs);
    JobSummaryReplay(db.jobs, evs);
    CountersAreExact(NodeAll(db.nodes, evs), evs, node, c);
  }

  // ---- The statements as the program issues them -----------------------------------

  /** COALESCE of two values that may be NULL. */
  function Coalesce(a: Option<Cell>, b: Option<Cell>): Option<Cell> {
    if a.Some? then a else b
  }

  /** One assignment of an INSERT or UPDATE; storing NULL leaves the column out of the map. */
  function Assign(row: Row, c: Column, v: Option<Cell>): Row {
    if v.Some? then row[c := v.value] else row - {c}
  }

  function NilIfEmpty(s: string): Option<Cell> {
    if s == "" then None else Some(Text(s))
  }

  function ColumnAfter(u: Upsert, before: Option<Row>, c: Column): Option<Cell> {
    Written(Lookup(if before.Some? then before.value else DEFAULTS + u.initial, c), WriteAt(u, c))
  }

  // ---- What the statements mean, column by column ------------------------------------

  /** What a column holds before the statement; a new row has attempts 1 and NULL everywhere else. */
  ghost function Prior(before: Option<Row>, c: Column): Option<Cell> {
    if before.Some? then Lookup(before.value, c) else if c == Attempts then Some(Number(1)) else None
  }

  ghost predicate OthersKept(before: Option<Row>, row: Row, written: set<Column>) {
    forall c :: c !in written ==> Lookup(row, c) == Prior(before, c)
  }

  /** A node id in the event replaces the one in the row; without one the row keeps what it has. */
  ghost predicate NodeKeptOr(before: Option<Row>, e: Event, row: Row) {
    var node := ExtractString(e.data, "node_id");
    Lookup(row, NodeId) == if node != "" then Some(Text(node)) else Prior(before, NodeId)
  }

  ghost predicate IsSubmittedRow(before: Option<Row>, e: Event, row: Row) {
    && Lookup(row, Command) == Some(Text(ExtractString(e.data, "command")))
    && Lookup(row, Priority) == Some(Number(ExtractInt(e.data, "priority")))
    && Lookup(row, SubmittedAt) == Some(Time(e.timestamp))
    && Lookup(row, FinalStatus) == (if before.Some? then Lookup(before.value, FinalStatus) else Some(Text("pending")))
    && OthersKept(before, row, {Command, Priority, SubmittedAt, FinalStatus})
  }

  /** The first time a job is seen running is when it started. */
  ghost predicate IsTransitionRow(before: Option<Row>, e: Event, row: Row) {
    var to := ExtractString(e.data, "to_status");
    && Lookup(row, FinalStatus) == Some(Text(to)) && NodeKeptOr(before, e, row)
    && Lookup(row, StartedAt) ==
         (if to == "running" && Prior(before, StartedAt).None? then Some(Time(e.timestamp))
          else Prior(before, StartedAt))
    && OthersKept(before, row, {FinalStatus, NodeId, StartedAt})
  }

  ghost predicate IsCompletedRow(before: Option<Row>, e: Event, row: Row) {
    && Lookup(row, FinalStatus) == Some(Text("completed")) && NodeKeptOr(before, e, row)
    && Lookup(row, CompletedAt) == Some(Time(e.timestamp))
    && Lookup(row, DurationMs) == Some(Number(ExtractInt(e.data, "duration_ms")))
    && OthersKept(before, row, {FinalStatus, NodeId, CompletedAt, DurationMs})
  }

  ghost predicate IsFailedRow(before: Option<Row>, e: Event, row: Row) {
    && Lookup(row, FinalStatus) == Some(Text("failed")) && Lookup(row, CompletedAt) == Some(Time(e.timestamp))
    && Lookup(row, LastError) == Some(Text(ExtractString(e.data, "error")))
    && Lookup(row, LastExitCode) == Some(Number(ExtractInt(e.data, "exit_code")))
    && Lookup(row, Attempts) == Some(Number(ExtractInt(e.data, "attempt")))
    && OthersKept(before, row, {FinalStatus, CompletedAt, LastError, LastExitCode, Attempts})
  }

  ghost predicate IsRetryingRow(before: Option<Row>, e: Event, row: Row) {
    && Lookup(row, FinalStatus) == Some(Text("retrying"))
    && Lookup(row, Attempts) == Some(Number(ExtractInt(e.data, "attempt")))
    && OthersKept(before, row, {FinalStatus, Attempts})
  }

  predicate IsJobTopic(kind: string) {
    kind in {"job.submitted", "job.transition", "job.completed", "job.failed", "job.retrying"}
  }

  /** What each topic does to the row of its job; no other topic issues a statement. */
  ghost predicate IsRowAfter(before: Option<Row>, e: Event, after: Option<Row>) {
    if e.kind == "job.submitted" then after.Some? && IsSubmittedRow(before, e, after.value)
    else if e.kind == "job.transition" then after.Some? && IsTransitionRow(before, e, after.value)
    else if e.kind == "job.completed" then after.Some? && IsCompletedRow(before, e, after.value)
    else if e.kind == "job.failed" then after.Some? && IsFailedRow(before, e, after.value)
    else if e.kind == "job.retrying" then after.Some? && IsRetryingRow(before, e, after.value)
    else after.None?
  }

  lemma UpsertedColumn(u: Upsert, before: Option<Row>, c: Column)
    requires Separate(u)
    ensures Lookup(Upserted(u, before), c) == ColumnAfter(u, before, c)
  {
    if before.Some? {
      LookupUpdated(before.value, u, c);
    } else {
      InsertedColumn(u, c);
      LookupUpdated(DEFAULTS + u.initial, u, c);
    }
  }

  /** A column the statement does not mention stays as it was. */
  lemma UnwrittenColumns(u: Upsert, before: Option<Row>, written: set<Column>)
    requires Separate(u) && u.latest.Keys <= written && u.first.Keys <= written && u.initial.Keys <= written
    ensures OthersKept(before, Upserted(u, before), written)
  {
    forall c | c !in written ensures Lookup(Upserted(u, before), c) == Prior(before, c) {
      UpsertedColumn(u, before, c);
      LookupMerged(DEFAULTS, u.initial, c);
    }
  }

  lemma SubmittedColumns(before: Option<Row>, e: Event)
    ensures IsSubmittedRow(before, e, Upserted(SubmittedUpsert(e), before))
  {
    var u := SubmittedUpsert(e);
    UpsertedColumn(u, before, Command);
    UpsertedColumn(u, before, Priority);
    UpsertedColumn(u, before, SubmittedAt);
    UpsertedColumn(u, before, FinalStatus);
    UnwrittenColumns(u, before, {Command, Priority, SubmittedAt, FinalStatus});
  }

  lemma TransitionColumns(before: Option<Row>, e: Event)
    ensures IsTransitionRow(before, e, Upserted(TransitionUpsert(e), before))
  {
    var u := TransitionUpsert(e);
    UpsertedColumn(u, before, FinalStatus);
    UpsertedColumn(u, before, NodeId);
    UpsertedColumn(u, before, StartedAt);
    UnwrittenColumns(u, before, {FinalStatus, NodeId, StartedAt});
  }

  lemma CompletedColumns(before: Option<Row>, e: Event)
    ensures IsCompletedRow(before, e, Upserted(CompletedUpsert(e), before))
  {
    var u := CompletedUpsert(e);
    UpsertedColumn(u, before, FinalStatus);
    UpsertedColumn(u, before, NodeId);
    UpsertedColumn(u, before, CompletedAt);
    UpsertedColumn(u, before, DurationMs);
    UnwrittenColumns(u, before, {FinalStatus, NodeId, CompletedAt, DurationMs});
  }

  lemma FailedColumns(before: Option<Row>, e: Event)
    ensures IsFailedRow(before, e, Upserted(FailedUpsert(e), before))
  {
    var u := FailedUpsert(e);
    UpsertedColumn(u, before, FinalStatus);
    UpsertedColumn(u, before, CompletedAt);
    UpsertedColumn(u, before, LastError);
    UpsertedColumn(u, before, LastExitCode);
    UpsertedColumn(u, before, Attempts);
    UnwrittenColumns(u, before, {FinalStatus, CompletedAt, LastError, LastExitCode, Attempts});
  }

  lemma RetryingColumns(before: Option<Row>, e: Event)
    ensures IsRetryingRow(before, e, Upserted(RetryingUpsert(e), before))
  {
    var u := RetryingUpsert(e);
    UpsertedColumn(u, before, FinalStatus);
    UpsertedColumn(u, before, Attempts);
    UnwrittenColumns(u, before, {FinalStatus, Attempts});
  }

  /** The one upsert of an event does, column by column, what its topic says. */
  lemma RowAfterColumns(before: Option<Row>, e: Event)
    requires ExtractString(e.data, "job_id") != ""
    ensures IsRowAfter(before, e, RowAfter(before, e))
  {
    SubmittedColumns(before, e);
    TransitionColumns(before, e);
    CompletedColumns(before, e);
    FailedColumns(before, e);
    RetryingColumns(before, e);
  }

  /** Two rows with the same columns in this sense are the same row. */
  lemma SameColumns(before: Option<Row>, row: Row, row': Row, written: set<Column>)
    requires OthersKept(before, row, written) && OthersKept(before, row', written)
    requires forall c :: c in written ==> Lookup(row, c) == Lookup(row', c)
    ensures row == row'
  {
    forall c ensures Lookup(row, c) == Lookup(row', c) {
      if c !in written {
        assert Lookup(row, c) == Prior(before, c) == Lookup(row', c);
      }
    }
    SameRow(row, row');
  }

  lemma SubmittedIsUpsert(before: Option<Row>, e: Event, row: Row)
    requires IsSubmittedRow(before, e, row)
    ensures row == Upserted(SubmittedUpsert(e), before)
  {
    SubmittedColumns(before, e);
    SameColumns(before, row, Upserted(SubmittedUpsert(e), before),
                {Command, Priority, SubmittedAt, FinalStatus});
  }

  lemma CompletedIsUpsert(before: Option<Row>, e: Event, row: Row)
    requires IsCompletedRow(before, e, row)
    ensures row == Upserted(CompletedUpsert(e), before)
  {
    CompletedColumns(before, e);
    SameColumns(before, row, Upserted(CompletedUpsert(e), before),
                {FinalStatus, NodeId, CompletedAt, DurationMs});
  }

  lemma FailedIsUpsert(before: Option<Row>, e: Event, row: Row)
    requires IsFailedRow(before, e, row)
    ensures row == Upserted(FailedUpsert(e), before)
  {
    FailedColumns(before, e);
    SameColumns(before, row, Upserted(FailedUpsert(e), before),
                {FinalStatus, CompletedAt, LastError, LastExitCode, Attempts});
  }

  lemma RetryingIsUpsert(before: Option<Row>, e: Event, row: Row)
    requires IsRetryingRow(before, e, row)
    ensures row == Upserted(RetryingUpsert(e), before)
  {
    RetryingColumns(before, e);
    SameColumns(before, row, Upserted(RetryingUpsert(e), before),
                {FinalStatus, Attempts});
  }

  lemma TransitionIsUpsert(before: Option<Row>, e: Event, row: Row)
    requires IsTransitionRow(before, e, row)
    ensures row == Upserted(TransitionUpsert(e), before)
  {
    TransitionColumns(before, e);
    SameColumns(before, row, Upserted(TransitionUpsert(e), before),
                {FinalStatus, NodeId, StartedAt});
  }

  /** The row of a submitted job: the excluded values come first in every COALESCE, and are never NULL. */
  method SubmittedRow(before: Option<Row>, e: Event) returns (row: Row)
    ensures IsSubmittedRow(before, e, row)
    ensures row == Upserted(SubmittedUpsert(e), before)
  {
    var command, priority := Some(Text(ExtractString(e.data, "command"))), Some(Number(ExtractInt(e.data, "priority")));
    var submitted := Some(Time(e.timestamp));
    if before.Some? {
      row := before.value;
      row := Assign(row, Command, Coalesce(command, Lookup(row, Command)));
      row := Assign(row, Priority, Coalesce(priority, Lookup(row, Priority)));
      row := Assign(row, SubmittedAt, Coalesce(submitted, Lookup(row, SubmittedAt)));
    } else {
      row := Assign(Assign(Assign(DEFAULTS, Command, command), Priority, priority), SubmittedAt, submitted);
      row := Assign(row, FinalStatus, Some(Text("pending")));
    }
    SubmittedIsUpsert(before, e, row);
  }

  /** Without a row, the transition is inserted; a missing node is NULL. */
  method TransitionInsert(e: Event) returns (row: Row)
    ensures IsTransitionRow(None, e, row)
  {
    var to, node := ExtractString(e.data, "to_status"), NilIfEmpty(ExtractString(e.data, "node_id"));
    row := Assign(Assign(DEFAULTS, FinalStatus, Some(Text(to))), NodeId, node);
    if to == "running" {
      row := Assign(row, StartedAt, Some(Time(e.timestamp)));
    }
  }

  /** On an existing row a missing node keeps the old one, and only the first start is recorded. */
  method TransitionUpdate(before: Row, e: Event) returns (row: Row)
    ensures IsTransitionRow(Some(before), e, row)
  {
    var to, node := ExtractString(e.data, "to_status"), NilIfEmpty(ExtractString(e.data, "node_id"));
    row := Assign(before, FinalStatus, Some(Text(to)));
    row := Assign(row, NodeId, Coalesce(node, Lookup(row, NodeId)));
    if to == "running" {
      row := Assign(row, StartedAt, Coalesce(Lookup(row, StartedAt), Some(Time(e.timestamp))));
    }
  }

  method TransitionRow(before: Option<Row>, e: Event) returns (row: Row)
    ensures IsTransitionRow(before, e, row)
    ensures row == Upserted(TransitionUpsert(e), before)
  {
    if before.Some? {
      row := TransitionUpdate(before.value, e);
    } else {
      row := TransitionInsert(e);
    }
    TransitionIsUpsert(before, e, row);
  }

  method CompletedRow(before: Option<Row>, e: Event) returns (row: Row)
    ensures IsCompletedRow(before, e, row)
    ensures row == Upserted(CompletedUpsert(e), before)
  {
    var node, duration := NilIfEmpty(ExtractString(e.data, "node_id")), Some(Number(ExtractInt(e.data, "duration_ms")));
    row := if before.Some? then before.value else DEFAULTS;
    row := Assign(row, FinalStatus, Some(Text("completed")));
    row := Assign(row, NodeId, Coalesce(node, Lookup(row, NodeId)));
    row := Assign(row, CompletedAt, Some(Time(e.timestamp)));
    row := Assign(row, DurationMs, duration);
    CompletedIsUpsert(before, e, row);
  }

  method FailedRow(before: Option<Row>, e: Event) returns (row: Row)
    ensures IsFailedRow(before, e, row)
    ensures row == Upserted(FailedUpsert(e), before)
  {
    row := if before.Some? then before.value else DEFAULTS;
    row := Assign(row, FinalStatus, Some(Text("failed")));
    row := Assign(row, CompletedAt, Some(Time(e.timestamp)));
    row := Assign(row, LastError, Some(Text(ExtractString(e.data, "error"))));
    row := Assign(row, LastExitCode, Some(Number(ExtractInt(e.data, "exit_code"))));
    row := Assign(row, Attempts, Some(Number(ExtractInt(e.data, "attempt"))));
    FailedIsUpsert(before, e, row);
  }

  method RetryingRow(before: Option<Row>, e: Event) returns (row: Row)
    ensures IsRetryingRow(before, e, row)
    ensures row == Upserted(RetryingUpsert(e), before)
  {
    row := if before.Some? then before.value else DEFAULTS;
    row := Assign(row, FinalStatus, Some(Text("retrying")));
    row := Assign(row, Attempts, Some(Number(ExtractInt(e.data, "attempt"))));
    RetryingIsUpsert(before, e, row);
  }

  /** The row the statement of the event's topic leaves; None for a topic without one. */
  method StatementRow(before: Option<Row>, e: Event) returns (row: Option<Row>)
    requires JobIdOf(e) != ""
    ensures row == RowAfter(before, e) && IsRowAfter(before, e, row)
  {
    if e.kind == "job.submitted" {
      var r := SubmittedRow(before, e);
      row := Some(r);
    } else if e.kind == "job.transition" {
      var r := TransitionRow(before, e);
      row := Some(r);
    } else if e.kind == "job.completed" {
      var r := CompletedRow(before, e);
      row := Some(r);
    } else if e.kind == "job.failed" {
      var r := FailedRow(before, e);
      row := Some(r);
    } else if e.kind == "job.retrying" {
      var r := RetryingRow(before, e);
      row := Some(r);
    } else {
      row := None;
    }
  }

  /** times_stale, times_revoked, jobs_completed and jobs_failed. */
  datatype Totals = Totals(stale: nat, revoked: nat, completed: nat, failed: nat)

  /** A row that is not there counts nothing. */
  ghost function Counters(row: Option<NodeRow>): Totals {
    if row.None? then Totals(0, 0, 0, 0)
    else Totals(row.value.timesStale, row.value.timesRevoked, row.value.jobsCompleted, row.value.jobsFailed)
  }

  /** A node was first seen when its row was made, and last seen now. */
  ghost predicate SeenAt(before: Option<NodeRow>, timestamp: int, row: NodeRow) {
    row.lastSeen == timestamp && row.firstSeen == if before.Some? then before.value.firstSeen else timestamp
  }

  ghost function AddressOf(row: Option<NodeRow>): Option<string> {
    if row.Some? then row.value.address else None
  }

  /** What each topic does to the row of its node; job topics count only with a job id. */
  ghost predicate IsNodeAfter(before: Option<NodeRow>, e: Event, after: Option<NodeRow>) {
    var Totals(stale, revoked, completed, failed) := Counters(before);
    var job := ExtractString(e.data, "job_id");
    if e.kind == "node.registered" then
      && after.Some? && SeenAt(before, e.timestamp, after.value) && Counters(after) == Counters(before)
      && after.value.address == Some(ExtractString(e.data, "address"))
    else
      var counted :=
        if e.kind == "node.stale" then Totals(stale + 1, revoked, completed, failed)
        else if e.kind == "node.revoked" then Totals(stale, revoked + 1, completed, failed)
        else if e.kind == "job.completed" && job != "" then Totals(stale, revoked, completed + 1, failed)
        else if e.kind == "job.failed" && job != "" then Totals(stale, revoked, completed, failed + 1)
        else Counters(before);
      if counted == Counters(before) then after.None?
      else
        && after.Some? && SeenAt(before, e.timestamp, after.value) && Counters(after) == counted
        && after.value.address == AddressOf(before)
  }

  lemma NodeAfterColumns(before: Option<NodeRow>, e: Event)
    requires ExtractString(e.data, "node_id") != ""
    ensures IsNodeAfter(before, e, NodeAfter(before, e))
  {
  }

  /** The second statement of a completed job. */
  method CompletedNode(before: Option<NodeRow>, timestamp: int) returns (row: NodeRow)
    ensures SeenAt(before, timestamp, row) && row.address == AddressOf(before)
    ensures var Totals(stale, revoked, completed, failed) := Counters(before);
            Counters(Some(row)) == Totals(stale, revoked, completed + 1, failed)
    ensures row == Bump(Seen(before, timestamp), JobCompleted)
  {
    if before.Some? {
      row := before.value.(lastSeen := timestamp, jobsCompleted := before.value.jobsCompleted + 1);
    } else {
      row := NodeRow(None, timestamp, timestamp, 0, 0, 1, 0);
    }
  }

  /** The second statement of a failed job. */
  method FailedNode(before: Option<NodeRow>, timestamp: int) returns (row: NodeRow)
    ensures SeenAt(before, timestamp, row) && row.address == AddressOf(before)
    ensures var Totals(stale, revoked, completed, failed) := Counters(before);
            Counters(Some(row)) == Totals(stale, revoked, completed, failed + 1)
    ensures row == Bump(Seen(before, timestamp), JobFailed)
  {
    if before.Some? {
      row := before.value.(lastSeen := timestamp, jobsFailed := before.value.jobsFailed + 1);
    } else {
      row := NodeRow(None, timestamp, timestamp, 0, 0, 0, 1);
    }
  }

  /** The excluded address comes first in the COALESCE and is never NULL. */
  method RegisteredNode(before: Option<NodeRow>, address: string, timestamp: int) returns (row: NodeRow)
    ensures SeenAt(before, timestamp, row) && row.address == Some(address) && Counters(Some(row)) == Counters(before)
    ensures row == Seen(before, timestamp).(address := Some(address))
  {
    if before.Some? {
      row := before.value.(address := Some(address), lastSeen := timestamp);
    } else {
      row := NodeRow(Some(address), timestamp, timestamp, 0, 0, 0, 0);
    }
  }

  method StaleNode(before: Option<NodeRow>, timestamp: int) returns (row: NodeRow)
    ensures SeenAt(before, timestamp, row) && row.address == AddressOf(before)
    ensures var Totals(stale, revoked, completed, failed) := Counters(before);
            Counters(Some(row)) == Totals(stale + 1, revoked, completed, failed)
    ensures row == Bump(Seen(before, timestamp), Stale)
  {
    if before.Some? {
      row := before.value.(lastSeen := timestamp, timesStale := before.value.timesStale + 1);
    } else {
      row := NodeRow(None, timestamp, timestamp, 1, 0, 0, 0);
    }
  }

  method RevokedNode(before: Option<NodeRow>, timestamp: int) returns (row: NodeRow)
    ensures SeenAt(before, timestamp, row) && row.address == AddressOf(before)
    ensures var Totals(stale, revoked, completed, failed) := Counters(before);
            Counters(Some(row)) == Totals(stale, revoked + 1, completed, failed)
    ensures row == Bump(Seen(before, timestamp), Revoked)
  {
    if before.Some? {
      row := before.value.(lastSeen := timestamp, timesRevoked := before.value.timesRevoked + 1);
    } else {
      row := NodeRow(None, timestamp, timestamp, 0, 1, 0, 0);
    }
  }

  /** The row the node statement of the event's topic leaves; None for a topic without one. */
  method NodeStatementRow(before: Option<NodeRow>, e: Event) returns (row: Option<NodeRow>)
    requires ExtractString(e.data, "node_id") != ""
    ensures row == NodeAfter(before, e) && IsNodeAfter(before, e, row)
  {
    row := None;
    if e.kind == "job.completed" {
      if JobIdOf(e) != "" {
        var r := CompletedNode(before, e.timestamp);
        row := Some(r);
      }
    } else if e.kind == "job.failed" {
      if JobIdOf(e) != "" {
        var r := FailedNode(before, e.timestamp);
        row := Some(r);
      }
    } else if e.kind == "node.registered" {
      var r := RegisteredNode(before, ExtractString(e.data, "address"), e.timestamp);
      row := Some(r);
    } else if e.kind == "node.stale" {
      var r := StaleNode(before, e.timestamp);
      row := Some(r);
    } else if e.kind == "node.revoked" {
      var r := RevokedNode(before, e.timestamp);
      row := Some(r);
    }
  }

  class Tables {
    var events: map<string, Event>
    var jobs: JobTable
    var nodes: NodeTable

    function Contents(): Database
      reads this
    {
      Database(events, jobs, nodes)
    }

    constructor (db: Database)
      ensures Contents() == db
    {
      events, jobs, nodes := db.events, db.jobs, db.nodes;
    }

    method InsertEvents(batch: seq<Event>)
      modifies this`events
      ensures events == InsertAll(old(events), batch)
    {
      for i := 0 to |batch|
        invariant InsertAll(events, batch[i..]) == InsertAll(old(events), batch)
      {
        if batch[i].id !in events {
          events := events[batch[i].id := batch[i]];
        }
        assert batch[i..][1..] == batch[i + 1..];
      }
    }

    /**
     * The statement of each job topic, with its COALESCE direction column by column, is the one upsert of its event.
     */
    method UpsertJob(e: Event)
      modifies this`jobs
      ensures jobs == ApplyJob(old(jobs), e)
      ensures forall other :: other != ExtractString(e.data, "job_id") ==> RowOf(jobs, other) == RowOf(old(jobs), other)
      ensures var job := ExtractString(e.data, "job_id");
              if job != "" && IsJobTopic(e.kind) then IsRowAfter(RowOf(old(jobs), job), e, RowOf(jobs, job))
              else jobs == old(jobs)
    {
      var job := ExtractString(e.data, "job_id");
      if job != "" {
        var row := StatementRow(RowOf(jobs, job), e);
        if row.Some? {
          jobs := jobs[job := row.value];
        }
      }
    }

    /** The node statement of each topic, if it has one, is the change its counter or registration stands for. */
    method UpsertNode(e: Event)
      modifies this`nodes
      ensures nodes == ApplyNode(old(nodes), e)
      ensures forall other :: other != ExtractString(e.data, "node_id") ==>
        NodeOf(nodes, other) == NodeOf(old(nodes), other)
      ensures var node := ExtractString(e.data, "node_id");
              if node != "" && !IsNodeAfter(NodeOf(old(nodes), node), e, None)
              then IsNodeAfter(NodeOf(old(nodes), node), e, NodeOf(nodes, node))
              else nodes == old(nodes)
    {
      var node := ExtractString(e.data, "node_id");
      if node != "" {
        var row := NodeStatementRow(NodeOf(nodes, node), e);
        if row.Some? {
          nodes := nodes[node := row.value];
        }
      }
    }

    method UpsertSummaries(batch: seq<Event>)
      modifies this`jobs, this`nodes
      ensures jobs == JobAll(old(jobs), batch) && nodes == NodeAll(old(nodes), batch)
    {
      for i := 0 to |batch|
        invariant JobAll(jobs, batch[i..]) == JobAll(old(jobs), batch)
        invariant NodeAll(nodes, batch[i..]) == NodeAll(old(nodes), batch)
      {
        UpsertJob(batch[i]);
        UpsertNode(batch[i]);
        assert batch[i..][1..] == batch[i + 1..];
      }
    }

    /** flush: one transaction; a failed one is rolled back. */
    method Flush(batch: seq<Event>, commits: bool) returns (ok: bool)
      modifies this
      ensures ok == commits
      ensures Contents() == if ok then Project(old(Contents()), batch) else old(Contents())
    {
      var saved := Contents();
      InsertEvents(batch);
      UpsertSummaries(batch);
      if !commits {
        events, jobs, nodes := saved.events, saved.jobs, saved.nodes;
      }
      ok := commits;
    }
  }
}
