/**
 The one-time backfill (internal/analytics/backfill.go): audit entries are converted to
 analytics events and flushed in batches of 500, through the same tables as the live sink.
 */
module Backfill {
  import opened Wrappers
  import opened Summaries
  import opened SummaryHistories

  datatype AuditEvent = AuditEvent(id: string, timestamp: int, kind: string, actor: string, details: Data)

  const BATCH_SIZE := 500

  function TopicOf(kind: string): string {
    if kind == "node_register" then "node.registered"
    else if kind == "node_revoke" then "node.revoked"
    else if kind == "job_submit" then "job.submitted"
    else if kind == "job_state_transition" then "job.transition"
    else "audit." + kind
  }

  /** Move a value to a new key, if there is one. */
  function Rename(data: Data, from: string, to: string): Data {
    if from in data then data[to := data[from]] - {from} else data
  }

  function DataOf(ae: AuditEvent): Data {
    var data := if ae.actor == "" then ae.details else ae.details["actor" := Str(ae.actor)];
    if TopicOf(ae.kind) == "job.transition"
    then Rename(Rename(data, "from_state", "from_status"), "to_state", "to_status")
    else data
  }

  /** newId stands for the generated id of an entry that has none. */
  function ToEvent(ae: AuditEvent, newId: string): Event {
    Event(if ae.id == "" then newId else ae.id, TopicOf(ae.kind), ae.timestamp, DataOf(ae))
  }

  function Convert(entries: seq<AuditEvent>, newId: nat -> string): (evs: seq<Event>)
    ensures |evs| == |entries| && forall i :: 0 <= i < |evs| ==> evs[i] == ToEvent(entries[i], newId(i))
  {
    seq(|entries|, i requires 0 <= i < |entries| => ToEvent(entries[i], newId(i)))
  }

  function Find(data: Data, k: string): Option<Value> {
    if k in data then Some(data[k]) else None
  }

  /**
   * What an analytics reader finds under a key: audit states under their bus names, the actor, and every other detail
   * as it was.
   */
  function Expected(ae: AuditEvent, k: string): Option<Value> {
    var moved := ae.kind == "job_state_transition";
    if moved && (k == "from_state" || k == "to_state") then None
    else if moved && k == "from_status" && "from_state" in ae.details then Some(ae.details["from_state"])
    else if moved && k == "to_status" && "to_state" in ae.details then Some(ae.details["to_state"])
    else if k == "actor" && ae.actor != "" then Some(Str(ae.actor))
    else Find(ae.details, k)
  }

  lemma DataIsAsExpected(ae: AuditEvent, k: string)
    ensures Find(DataOf(ae), k) == Expected(ae, k)
  {
    TopicsOfCounters(ae);
  }

  /** auditToAnalyticsEvent: a new map is filled and edited step by step. */
  method AuditToAnalyticsEvent(ae: AuditEvent, newId: string) returns (e: Event)
    ensures e == ToEvent(ae, newId)
    ensures e.kind == TopicOf(ae.kind) && e.timestamp == ae.timestamp && e.id == (if ae.id == "" then newId else ae.id)
    ensures ae.kind == "node_register" ==> e.kind == "node.registered"
    ensures ae.kind == "node_revoke" ==> e.kind == "node.revoked"
    ensures ae.kind == "job_submit" ==> e.kind == "job.submitted"
    ensures ae.kind == "job_state_transition" ==> e.kind == "job.transition"
    ensures ae.kind !in {"node_register", "node_revoke", "job_submit", "job_state_transition"} ==>
              e.kind == "audit." + ae.kind
    ensures forall k :: Find(e.data, k) == Expected(ae, k)
  {
    forall k ensures Find(DataOf(ae), k) == Expected(ae, k) {
      DataIsAsExpected(ae, k);
    }
    var topic := TopicOf(ae.kind);
    var data := ae.details;
    if ae.actor != "" {
      data := data["actor" := Str(ae.actor)];
    }
    if topic == "job.transition" {
      if "from_state" in data {
        data := data["from_status" := data["from_state"]];
        data := data - {"from_state"};
      }
      if "to_state" in data {
        data := data["to_status" := data["to_state"]];
        data := data - {"to_state"};
      }
    }
    e := Event(if ae.id == "" then newId else ae.id, topic, ae.timestamp, data);
  }

  /**
   Backfill. commits(i) says whether the flush that starts at offset i goes through. It reports
   how many entries were flushed, and the tables hold exactly those, as if flushed at once.
   */
  method Backfill(entries: seq<AuditEvent>, newId: nat -> string, commits: nat -> bool, tables: Tables)
    returns (inserted: nat, ok: bool)
    modifies tables
    ensures inserted <= |entries|
    ensures tables.Contents() == Project(old(tables.Contents()), Convert(entries, newId)[..inserted])
    ensures ok ==> inserted == |entries|
    ensures !ok ==> inserted % 500 == 0 && inserted < |entries| && !commits(inserted)
  {
    inserted, ok := 0, true;
    ghost var start := tables.Contents();
    assert Convert(entries, newId)[..0] == [];
    while inserted < |entries|
      invariant inserted <= |entries| && (inserted % BATCH_SIZE == 0 || inserted == |entries|)
      invariant ok && Holds(tables, start, entries, newId, inserted)
    {
      var end := if inserted + BATCH_SIZE > |entries| then |entries| else inserted + BATCH_SIZE;
      ok := FlushNext(entries, newId, inserted, end, commits(inserted), tables, start);
      if !ok {
        return;
      }
      inserted := end;
    }
  }

  /** The tables hold what they started with plus the first n converted entries. */
  ghost predicate Holds(tables: Tables, start: Database, entries: seq<AuditEvent>, newId: nat -> string, n: nat)
    requires n <= |entries|
    reads tables
  {
    tables.Contents() == Project(start, Convert(entries, newId)[..n])
  }

  method FlushNext(entries: seq<AuditEvent>, newId: nat -> string, lo: nat, hi: nat, commit: bool, tables: Tables,
                   ghost start: Database)
    returns (ok: bool)
    requires lo <= hi <= |entries| && Holds(tables, start, entries, newId, lo)
    modifies tables
    ensures ok == commit && Holds(tables, start, entries, newId, if ok then hi else lo)
  {
    var batch := ConvertBatch(entries, newId, lo, hi);
    ok := tables.Flush(batch, commit);
    ghost var evs := Convert(entries, newId);
    ProjectSplit(start, evs[..lo], evs[lo..hi]);
    assert evs[..lo] + evs[lo..hi] == evs[..hi];
  }

  method ConvertBatch(entries: seq<AuditEvent>, newId: nat -> string, lo: nat, hi: nat) returns (batch: seq<Event>)
    requires lo <= hi <= |entries|
    ensures batch == Convert(entries, newId)[lo..hi]
  {
    batch := [];
    for k := lo to hi
      invariant batch == Convert(entries, newId)[lo..k]
    {
      var e := AuditToAnalyticsEvent(entries[k], newId(k));
      assert Convert(entries, newId)[lo..k + 1] == Convert(entries, newId)[lo..k] + [e];
      batch := batch + [e];
    }
  }

  // ---- What the tables say about the audited past ---------------------------------

  /** The state an audit entry reports for the job, if it does. */
  ghost function Audited(ae: AuditEvent, job: string): Option<string> {
    if ae.kind != "job_state_transition" || job == "" || ExtractString(ae.details, "job_id") != job then None
    else Some(ExtractString(ae.details, if "to_state" in ae.details then "to_state" else "to_status"))
  }

  ghost function LastAudited(entries: seq<AuditEvent>, job: string): Option<string> {
    if entries == [] then None
    else
      var last := Audited(entries[|entries| - 1], job);
      if last.Some? then last else LastAudited(entries[..|entries| - 1], job)
  }

  lemma AuditedIsReported(ae: AuditEvent, newId: string, job: string)
    ensures Reported(ToEvent(ae, newId), job) == Audited(ae, job)
    ensures Submits(ToEvent(ae, newId), job) <==>
              ae.kind == "job_submit" && ExtractString(ae.details, "job_id") == job != ""
  {
    TopicsOfCounters(ae);
    TopicsOfJobs(ae);
    DataIsAsExpected(ae, "job_id");
    DataIsAsExpected(ae, "to_status");
    SameString(DataOf(ae), "job_id", ae.details, "job_id");
    if ae.kind == "job_state_transition" {
      SameString(DataOf(ae), "to_status", ae.details, if "to_state" in ae.details then "to_state" else "to_status");
    }
  }

  lemma SameString(a: Data, k: string, b: Data, k': string)
    requires Find(a, k) == Find(b, k')
    ensures ExtractString(a, k) == ExtractString(b, k')
  {
  }

  lemma TopicsOfJobs(ae: AuditEvent)
    ensures TopicOf(ae.kind) != "job.retrying" && (TopicOf(ae.kind) == "job.submitted" <==> ae.kind == "job_submit")
  {
    var prefixed := "audit." + ae.kind;
    assert prefixed[0] == 'a' && "job.retrying"[0] == 'j' && "job.submitted"[0] == 'j';
  }

  lemma {:induction false} LastAuditedIsReported(entries: seq<AuditEvent>, newId: nat -> string, job: string)
    ensures LastReport(Convert(entries, newId), job) == LastAudited(entries, job)
    decreases |entries|
  {
    if entries != [] {
      var n := |entries| - 1;
      LastAuditedIsReported(entries[..n], newId, job);
      assert Convert(entries, newId)[..n] == Convert(entries[..n], newId);
      AuditedIsReported(entries[n], newId(n), job);
    }
  }

  /** After a backfill into empty tables, a job's status is the state its last audited transition led to. */
  lemma BackfilledStatus(entries: seq<AuditEvent>, newId: nat -> string, job: string)
    ensures var after := JobAll(map[], Convert(entries, newId));
            && (LastAudited(entries, job).Some? ==>
                  StatusIn(after, job) == Some(Text(LastAudited(entries, job).value)))
            && (LastAudited(entries, job).None? && job in after ==> StatusIn(after, job) == Some(Text("pending")))
            && (job in after <==>
                  || LastAudited(entries, job).Some?
                  || exists ae :: ae in entries && ae.kind == "job_submit"
                                  && ExtractString(ae.details, "job_id") == job != "")
  {
    var evs := Convert(entries, newId);
    LastAuditedIsReported(entries, newId, job);
    StatusIsTheLastReported(map[], evs, job);
    SubmissionsConvert(entries, newId, job);
  }

  lemma SubmissionsConvert(entries: seq<AuditEvent>, newId: nat -> string, job: string)
    ensures (exists e :: e in Convert(entries, newId) && Submits(e, job)) <==>
              exists ae :: ae in entries && ae.kind == "job_submit" && ExtractString(ae.details, "job_id") == job != ""
  {
    var evs := Convert(entries, newId);
    forall i | 0 <= i < |entries|
      ensures Submits(evs[i], job) <==>
                entries[i].kind == "job_submit" && ExtractString(entries[i].details, "job_id") == job != ""
    {
      AuditedIsReported(entries[i], newId(i), job);
    }
    if e :| e in evs && Submits(e, job) {
      var i :| 0 <= i < |evs| && evs[i] == e;
      assert entries[i] in entries;
    }
    if ae :| ae in entries && ae.kind == "job_submit" && ExtractString(ae.details, "job_id") == job != "" {
      var i :| 0 <= i < |entries| && entries[i] == ae;
      assert evs[i] in evs;
    }
  }

  // ---- Running it again -------------------------------------------------------

  predicate Revokes(ae: AuditEvent, node: string) {
    ae.kind == "node_revoke" && node != "" && ExtractString(DataOf(ae), "node_id") == node
  }

  function RevokeCount(entries: seq<AuditEvent>, node: string): nat {
    if entries == [] then 0
    else RevokeCount(entries[..|entries| - 1], node) + (if Revokes(entries[|entries| - 1], node) then 1 else 0)
  }

  lemma {:induction false} TallyAppend(evs: seq<Event>, e: Event, node: string, c: Counter)
    ensures Tally(evs + [e], node, c) == Tally(evs, node, c) + (if Counts(e) == Some((node, c)) then 1 else 0)
    decreases |evs|
  {
    if evs == [] {
      assert evs + [e] == [e];
    } else {
      assert (evs + [e])[1..] == evs[1..] + [e];
      TallyAppend(evs[1..], e, node, c);
    }
  }

  lemma TopicsOfCounters(ae: AuditEvent)
    ensures TopicOf(ae.kind) != "job.completed" && TopicOf(ae.kind) != "job.failed" && TopicOf(ae.kind) != "node.stale"
    ensures TopicOf(ae.kind) == "node.revoked" <==> ae.kind == "node_revoke"
    ensures TopicOf(ae.kind) == "job.transition" <==> ae.kind == "job_state_transition"
  {
    var prefixed := "audit." + ae.kind;
    assert prefixed[0] == 'a';
    assert "job.completed"[0] == 'j' && "job.failed"[0] == 'j' && "node.stale"[0] == 'n' && "node.revoked"[0] == 'n';
    assert "node.registered"[7] == 'g' && "node.revoked"[7] == 'v';
  }

  /** Audit entries bump no counter but times_revoked, once per revocation that names a node. */
  lemma {:induction false} BackfillCounts(entries: seq<AuditEvent>, newId: nat -> string, node: string, c: Counter)
    ensures Tally(Convert(entries, newId), node, c) == if c.Revoked? then RevokeCount(entries, node) else 0
    decreases |entries|
  {
    var evs := Convert(entries, newId);
    if entries == [] {
    } else {
      var n := |entries| - 1;
      var front := Convert(entries[..n], newId);
      assert evs == front + [ToEvent(entries[n], newId(n))];
      BackfillCounts(entries[..n], newId, node, c);
      TallyAppend(front, evs[n], node, c);
      TopicsOfCounters(entries[n]);
    }
  }

  /**
   A second complete backfill over entries that carry ids leaves the events and job_summary
   alone, and every node counter except times_revoked, which grows by the revocations again.
   */
  lemma SecondBackfill(db: Database, entries: seq<AuditEvent>, newId1: nat -> string, newId2: nat -> string,
                       node: string, c: Counter)
    requires forall i :: 0 <= i < |entries| ==> entries[i].id != ""
    ensures var first := Project(db, Convert(entries, newId1));
            var second := Project(first, Convert(entries, newId2));
            && second.events == first.events
            && second.jobs == first.jobs
            && Reading(second.nodes, node, c) ==
              Reading(first.nodes, node, c) + (if c.Revoked? then RevokeCount(entries, node) else 0)
  {
    var evs := Convert(entries, newId1);
    assert evs == Convert(entries, newId2);
    ReplayDoublesCounters(db, evs, node, c);
    BackfillCounts(entries, newId2, node, c);
  }
}
