/**
 What the summary tables say after a whole history of events (internal/analytics/sink.go), in
 terms of the events' own topics and fields.
 */
module SummaryHistories {
  import opened Wrappers
  import opened Summaries

  // ---- Reading event data --------------------------------------------------------

  /** A string field is found as it is; a missing field or one of another type reads as the empty string. */
  lemma StringFields(data: Data, key: string, s: string)
    ensures key in data && data[key] == Str(s) ==> ExtractString(data, key) == s
    ensures key !in data || !data[key].Str? ==> ExtractString(data, key) == ""
  {
  }

  /** A whole number is found as it is, a real one loses its fraction towards zero, anything else reads as zero. */
  lemma NumberFields(data: Data, key: string)
    ensures key in data && data[key].Num? ==> ExtractInt(data, key) == data[key].n
    ensures key in data && data[key].Real? ==>
              var r, i := data[key].r, ExtractInt(data, key);
              -1.0 < r - i as real < 1.0 && (r >= 0.0 ==> 0.0 <= i as real <= r) && (r <= 0.0 ==> r <= i as real <= 0.0)
    ensures key !in data || !(data[key].Num? || data[key].Real?) ==> ExtractInt(data, key) == 0
  {
  }

  // ---- The status of a job ----------------------------------------------------------

  /** The status an event reports for the job, if it does. */
  ghost function Reported(e: Event, job: string): Option<string> {
    if ExtractString(e.data, "job_id") != job || job == "" then None
    else if e.kind == "job.transition" then Some(ExtractString(e.data, "to_status"))
    else if e.kind == "job.completed" then Some("completed")
    else if e.kind == "job.failed" then Some("failed")
    else if e.kind == "job.retrying" then Some("retrying")
    else None
  }

  ghost predicate Submits(e: Event, job: string) {
    ExtractString(e.data, "job_id") == job != "" && e.kind == "job.submitted"
  }

  ghost function LastReport(evs: seq<Event>, job: string): Option<string> {
    if evs == [] then None
    else
      var last := Reported(evs[|evs| - 1], job);
      if last.Some? then last else LastReport(evs[..|evs| - 1], job)
  }

  ghost function StatusIn(t: JobTable, job: string): Option<Cell> {
    if job in t then Lookup(t[job], FinalStatus) else None
  }

  lemma OneEventReports(t: JobTable, e: Event, job: string)
    ensures Reported(e, job).Some? ==> StatusIn(ApplyJob(t, e), job) == Some(Text(Reported(e, job).value))
    ensures Reported(e, job).None? && (job in t || !Submits(e, job)) ==>
      StatusIn(ApplyJob(t, e), job) == StatusIn(t, job)
    ensures job !in t && Submits(e, job) ==> StatusIn(ApplyJob(t, e), job) == Some(Text("pending"))
    ensures job in ApplyJob(t, e) <==> job in t || Reported(e, job).Some? || Submits(e, job)
  {
    if ExtractString(e.data, "job_id") != "" {
      RowAfterColumns(RowOf(t, ExtractString(e.data, "job_id")), e);
    }
  }

  /**
   After any history the status of a job is the one reported last; if none was reported, it is
   what it was before, or pending for a job that only a submission made known.
   */
  lemma {:induction false} StatusIsTheLastReported(t: JobTable, evs: seq<Event>, job: string)
    ensures var after, last := JobAll(t, evs), LastReport(evs, job);
            && (last.Some? ==> StatusIn(after, job) == Some(Text(last.value)))
            && (last.None? && job in t ==> StatusIn(after, job) == StatusIn(t, job))
            && (last.None? && job !in t && job in after ==> StatusIn(after, job) == Some(Text("pending")))
            && (job in after <==> job in t || last.Some? || exists e :: e in evs && Submits(e, job))
    decreases |evs|
  {
    if evs != [] {
      var n := |evs| - 1;
      assert evs == evs[..n] + [evs[n]];
      StatusIsTheLastReported(t, evs[..n], job);
      JobAllSplit(t, evs[..n], [evs[n]]);
      assert JobAll(t, evs) == ApplyJob(JobAll(t, evs[..n]), evs[n]);
      OneEventReports(JobAll(t, evs[..n]), evs[n], job);
    }
  }

  // ---- The counters of a node ---------------------------------------------------------

  /** The event is of the topic and names the node; job topics need a job id as well. */
  ghost predicate Hits(e: Event, node: string, topic: string) {
    && e.kind == topic && ExtractString(e.data, "node_id") == node
    && (topic in {"job.completed", "job.failed"} ==> ExtractString(e.data, "job_id") != "")
  }

  /** The row after an event: that of the topic if the event names the node, and otherwise as before. */
  lemma NodeAfterEvent(t: NodeTable, e: Event, node: string)
    requires node != ""
    ensures var before, after := NodeOf(t, node), NodeOf(ApplyNode(t, e), node);
            if ExtractString(e.data, "node_id") == node && !IsNodeAfter(before, e, None)
            then IsNodeAfter(before, e, after) else after == before
  {
    if ExtractString(e.data, "node_id") == node {
      NodeAfterColumns(NodeOf(t, node), e);
    }
  }

  lemma NodeAllLast(t: NodeTable, evs: seq<Event>, e: Event)
    ensures NodeAll(t, evs + [e]) == ApplyNode(NodeAll(t, evs), e)
  {
    NodeAllSplit(t, evs, [e]);
    assert [e][1..] == [];
  }

  ghost function TopicFor(c: Counter): string {
    match c
    case Stale => "node.stale"
    case Revoked => "node.revoked"
    case JobCompleted => "job.completed"
    case JobFailed => "job.failed"
  }

  ghost function TopicCount(evs: seq<Event>, node: string, topic: string): nat {
    if evs == [] then 0
    else (if Hits(evs[0], node, topic) then 1 else 0) + TopicCount(evs[1..], node, topic)
  }

  lemma CountsIff(e: Event, node: string, c: Counter)
    requires node != ""
    ensures Counts(e) == Some((node, c)) <==> Hits(e, node, TopicFor(c))
  {
  }

  lemma {:induction false} TallyByTopic(evs: seq<Event>, node: string, c: Counter)
    requires node != ""
    ensures Tally(evs, node, c) == TopicCount(evs, node, TopicFor(c))
    decreases |evs|
  {
    if evs != [] {
      CountsIff(evs[0], node, c);
      TallyByTopic(evs[1..], node, c);
    }
  }

  /** The four counters of a node grow by the numbers of events of the four topics that name it. */
  lemma CountersByTopic(t: NodeTable, evs: seq<Event>, node: string)
    requires node != ""
    ensures var before, after := Counters(NodeOf(t, node)), Counters(NodeOf(NodeAll(t, evs), node));
            && after.stale == before.stale + TopicCount(evs, node, "node.stale")
            && after.revoked == before.revoked + TopicCount(evs, node, "node.revoked")
            && after.completed == before.completed + TopicCount(evs, node, "job.completed")
            && after.failed == before.failed + TopicCount(evs, node, "job.failed")
  {
    forall c ensures Reading(NodeAll(t, evs), node, c) == Reading(t, node, c) + TopicCount(evs, node, TopicFor(c)) {
      CountersAreExact(t, evs, node, c);
      TallyByTopic(evs, node, c);
    }
    ReadingColumns(t, node);
    ReadingColumns(NodeAll(t, evs), node);
  }

  lemma ReadingColumns(t: NodeTable, node: string)
    ensures Counters(NodeOf(t, node)) ==
              Totals(Reading(t, node, Stale), Reading(t, node, Revoked),
                     Reading(t, node, JobCompleted), Reading(t, node, JobFailed))
  {
  }

  // ---- When a node was seen -------------------------------------------------------------

  ghost predicate Mentions(e: Event, node: string) {
    exists topic :: topic in ["node.registered", "node.stale", "node.revoked", "job.completed", "job.failed"]
                    && Hits(e, node, topic)
  }

  ghost function FirstMention(evs: seq<Event>, node: string): Option<int> {
    if evs == [] then None
    else
      var earlier := FirstMention(evs[..|evs| - 1], node);
      if earlier.Some? then earlier
      else if Mentions(evs[|evs| - 1], node) then Some(evs[|evs| - 1].timestamp)
      else None
  }

  ghost function LastMention(evs: seq<Event>, node: string): Option<int> {
    if evs == [] then None
    else if Mentions(evs[|evs| - 1], node) then Some(evs[|evs| - 1].timestamp)
    else LastMention(evs[..|evs| - 1], node)
  }

  lemma OneEventSees(t: NodeTable, e: Event, node: string)
    requires node != ""
    ensures var before, after := NodeOf(t, node), NodeOf(ApplyNode(t, e), node);
            if Mentions(e, node) then after.Some? && SeenAt(before, e.timestamp, after.value) else after == before
  {
    NodeAfterEvent(t, e, node);
    var topics := ["node.registered", "node.stale", "node.revoked", "job.completed", "job.failed"];
    assert topics[0] in topics && topics[1] in topics && topics[2] in topics && topics[3] in topics &&
      topics[4] in topics;
    assert Mentions(e, node) <==> exists topic :: topic in topics && Hits(e, node, topic);
    assert e.kind in topics && Hits(e, node, e.kind) <==> Mentions(e, node);
  }

  /** A node was first seen at the first event about it and last seen at the last one, in order of processing. */
  lemma {:induction false} SeenFromFirstToLast(t: NodeTable, evs: seq<Event>, node: string)
    requires node != ""
    ensures var before, after := NodeOf(t, node), NodeOf(NodeAll(t, evs), node);
            var first, last := FirstMention(evs, node), LastMention(evs, node);
            && first.Some? == last.Some? && (last.None? ==> after == before)
            && (last.Some? ==>
                  && after.Some? && after.value.lastSeen == last.value
                  && after.value.firstSeen == if before.Some? then before.value.firstSeen else first.value)
    decreases |evs|
  {
    if evs != [] {
      var n := |evs| - 1;
      assert evs == evs[..n] + [evs[n]];
      SeenFromFirstToLast(t, evs[..n], node);
      NodeAllLast(t, evs[..n], evs[n]);
      OneEventSees(NodeAll(t, evs[..n]), evs[n], node);
    }
  }
}
