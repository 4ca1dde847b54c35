/**
 The store operations behind the lifecycle steps, as the coordinator performs them on its
 in-memory records: Transition, MarkLost, CancelJob (internal/cluster/job_transition.go,
 job_cancel.go) and EligibleJobs, OnJobCompleted, Cancel (internal/cluster/workflow_lifecycle.go).
 Every save to the persistence layer may fail; a `saved` or `unsaved` argument says which.
 */
module WorkflowStore {
  import opened Workflows
  import opened Kahn
  import opened Dag
  import opened Lifecycle
  import opened Plans
  import opened Wrappers

  datatype TransitionResult = Moved | JobNotFound | AlreadyTerminal | InvalidTransition | NotSaved

  datatype CancelResult = CancelDone | WorkflowAlreadyTerminal | WorkflowNotSaved

  /** What the workflow.completed and workflow.failed events carry. */
  datatype Summary = Summary(jobCount: nat, successCount: nat, failedCount: nat, failedJob: string)

  predicate OnSuccessJob(jobs: seq<WorkflowJob>, m: string) {
    exists j :: j in jobs && j.name == m && j.condition.OnSuccess?
  }

  /** The cascade restricted to the descendants handled so far. */
  ghost function CascadeOver(jobs: seq<WorkflowJob>, st: Statuses, hit: seq<string>,
                             unsaved: set<string>): (st': Statuses)
    ensures st'.Keys == st.Keys
  {
    map m | m in st ::
      if m in st && m in hit && OnSuccessJob(jobs, m) && st[m].Pending? && m !in unsaved then Skipped else st[m]
  }

  function FailedSet(st: Statuses): set<string> {
    set n | n in st && (st[n] == Failed || st[n] == Timeout || st[n] == Lost || st[n] == Skipped)
  }

  function CancelledSet(st: Statuses): set<string> {
    set n | n in st && st[n].Cancelled?
  }

  /** The first job that failed itself. */
  function FirstBlamed(jobs: seq<WorkflowJob>, st: Statuses): string {
    if jobs == [] then ""
    else if jobs[0].name in st && TriggersCascade(st[jobs[0].name]) then jobs[0].name
    else FirstBlamed(jobs[1..], st)
  }

  /** Pending, with every dependency ended as the job's condition asks for. */
  ghost predicate IsReady(st: Statuses, j: WorkflowJob) {
    && j.name in st && st[j.name] == Pending
    && forall d :: d in j.dependsOn ==> d in st && st[d] in Accepts(j.condition)
  }

  lemma ReadyIff(jobs: seq<WorkflowJob>, st: Statuses)
    ensures forall n :: Eligible(jobs, st, n) <==> exists j :: j in jobs && IsReady(st, j) && j.name == n
  {
    forall j | j in jobs && j.name in st ensures st[j.name].Pending? && DepsSatisfied(st, j) <==> IsReady(st, j) {
      forall d | d in j.dependsOn && d in st ensures Satisfied(st[d], j.condition) <==> st[d] in Accepts(j.condition) {
        SatisfiedIff(st[d], j.condition);
      }
    }
    forall n ensures Eligible(jobs, st, n) <==> exists j :: j in jobs && IsReady(st, j) && j.name == n {
      if Eligible(jobs, st, n) {
        var j :| j in jobs && j.name == n && DepsSatisfied(st, j);
        assert IsReady(st, j);
      }
    }
  }

  /** The job at i failed by itself, and none before it did. */
  ghost predicate FailedFirst(jobs: seq<WorkflowJob>, st: Statuses, i: nat) {
    && i < |jobs| && SelfFailed(st, jobs[i].name) && forall k :: 0 <= k < i ==> !SelfFailed(st, jobs[k].name)
  }

  ghost predicate SelfFailed(st: Statuses, n: string) {
    n in st && st[n] in {Failed, Timeout, Lost}
  }

  class Store {
    const jobs: seq<WorkflowJob>
    var st: Statuses
    var wf: WorkflowStatus

    ghost predicate Valid()
      reads this
    {
      UniqueNames(jobs) && st.Keys == NameSet(jobs)
    }

    /** Start: every job is created pending and the workflow runs. */
    constructor (template: seq<WorkflowJob>)
      requires UniqueNames(template)
      ensures Valid() && jobs == template && Started(template, State(st, wf, {}, {}))
    {
      jobs, wf := template, WorkflowRunning;
      st := AllPending(template);
    }

    method Transition(n: string, to: Status, saved: bool) returns (r: TransitionResult)
      modifies this`st
      ensures st == Move(old(st), n, to, saved)
      ensures r.JobNotFound? <==> n !in old(st)
      ensures r.AlreadyTerminal? <==> n in old(st) && IsTerminal(old(st)[n])
      ensures r.InvalidTransition? <==> n in old(st) && !IsTerminal(old(st)[n]) && !Allowed(old(st)[n], to)
      ensures r.NotSaved? <==> CanMove(old(st), n, to) && !saved
      ensures r.Moved? <==> n in old(st) && (old(st)[n], to) in MOVES && saved
      ensures st == if r.Moved? then old(st)[n := to] else old(st)
    {
      if n in st {
        MoveTable(st[n], to);
      }
      if n !in st {
        return JobNotFound;
      }
      var from := st[n];
      if IsTerminal(from) {
        return AlreadyTerminal;
      }
      if !Allowed(from, to) {
        return InvalidTransition;
      }
      st := st[n := to];
      if !saved {
        st := st[n := from];
        return NotSaved;
      }
      r := Moved;
    }

    method MarkLost(n: string, saved: bool) returns (r: TransitionResult)
      modifies this`st
      ensures st == Lose(old(st), n, saved)
      ensures r.JobNotFound? <==> n !in old(st)
      ensures r.NotSaved? <==> n in old(st) && !IsTerminal(old(st)[n]) && !saved
      ensures r.JobNotFound? || r.NotSaved? || r.Moved?
      ensures st == if n in old(st) && old(st)[n] !in ENDED && saved then old(st)[n := Lost] else old(st)
    {
      if n in st {
        MoveTable(st[n], Lost);
      }
      if n !in st {
        return JobNotFound;
      }
      if IsTerminal(st[n]) {
        return Moved;
      }
      var prev := st[n];
      st := st[n := Lost];
      if !saved {
        st := st[n := prev];
        return NotSaved;
      }
      r := Moved;
    }

    method CancelJob(n: string, saved: bool) returns (r: TransitionResult)
      modifies this`st
      ensures st == CancelOne(old(st), n, saved)
      ensures r.JobNotFound? <==> n !in old(st)
      ensures r.AlreadyTerminal? <==> n in old(st) && IsTerminal(old(st)[n])
      ensures r.NotSaved? <==> n in old(st) && !IsTerminal(old(st)[n]) && !saved
      ensures r.Moved? <==> n in old(st) && !IsTerminal(old(st)[n]) && saved
      ensures st == if n !in old(st) || old(st)[n] in ENDED || !saved then old(st)
                    else if old(st)[n] == Dispatching || old(st)[n] == Retrying then old(st)[n := Lost]
                    else old(st)[n := Cancelled]
    {
      if n in st {
        CancelIff(st, n);
        MoveTable(st[n], Cancelled);
      }
      if n !in st {
        return JobNotFound;
      }
      if IsTerminal(st[n]) {
        return AlreadyTerminal;
      }
      if !Allowed(st[n], Cancelled) {
        r := MarkLost(n, saved);
      } else {
        r := Transition(n, Cancelled, saved);
      }
    }

    /** EligibleJobs: exactly the pending jobs of a running workflow whose dependencies meet their condition. */
    method EligibleJobs() returns (eligible: set<string>)
      requires Valid()
      ensures forall n :: n in eligible <==> wf.WorkflowRunning? && Eligible(jobs, st, n)
      ensures forall n :: n in eligible <==>
        wf.WorkflowRunning? && exists j :: j in jobs && IsReady(st, j) && j.name == n
    {
      ReadyIff(jobs, st);
      eligible := {};
      if !wf.WorkflowRunning? {
        return;
      }
      for i := 0 to |jobs|
        invariant forall n :: n in eligible <==>
          exists k :: 0 <= k < i && jobs[k].name == n && st[n].Pending? && DepsSatisfied(st, jobs[k])
      {
        var j := jobs[i];
        if st[j.name].Pending? {
          var allSatisfied := true;
          for k := 0 to |j.dependsOn|
            invariant allSatisfied ==> forall d :: d in j.dependsOn[..k] ==> d in st && Satisfied(st[d], j.condition)
            invariant !allSatisfied ==> !DepsSatisfied(st, j)
          {
            var d := j.dependsOn[k];
            assert d in j.dependsOn;
            if d !in st || !Satisfied(st[d], j.condition) {
              allSatisfied := false;
              break;
            }
          }
          assert j.dependsOn[..|j.dependsOn|] == j.dependsOn;
          if allSatisfied {
            eligible := eligible + {j.name};
          }
        }
      }
    }

    /** Skip the pending on_success descendants of a failed job. */
    method SkipDescendants(n: string, unsaved: set<string>)
      requires Valid()
      modifies this`st
      ensures st == Cascade(jobs, old(st), n, unsaved)
    {
      var descendants := Descendants(jobs, n);
      CascadeOverNone(jobs, st, unsaved);
      assert descendants[..0] == [];
      for k := 0 to |descendants|
        invariant st == CascadeOver(jobs, old(st), descendants[..k], unsaved)
      {
        SkipOne(descendants[k], unsaved);
        CascadeOneMore(jobs, old(st), descendants[..k], descendants[k], unsaved);
        assert descendants[..k + 1] == descendants[..k] + [descendants[k]];
      }
      assert descendants[..|descendants|] == descendants;
      CascadeOverAll(jobs, old(st), descendants, n, unsaved);
    }

    method SkipOne(name: string, unsaved: set<string>)
      modifies this`st
      ensures st == if OnSuccessJob(jobs, name) then Move(old(st), name, Skipped, name !in unsaved) else old(st)
    {
      ghost var skipped := false;
      for i := 0 to |jobs|
        invariant st == if skipped then Move(old(st), name, Skipped, name !in unsaved) else old(st)
        invariant skipped <==> exists k :: 0 <= k < i && jobs[k].name == name && jobs[k].condition.OnSuccess?
      {
        if jobs[i].name == name && jobs[i].condition.OnSuccess? {
          var _ := Transition(name, Skipped, name !in unsaved);
          skipped := true;
        }
      }
    }

    /** Walk the jobs once: are all terminal, did any fail, and how many did which. */
    method Tally() returns (allTerminal: bool, anyFailed: bool, summary: Summary)
      requires Valid()
      ensures allTerminal <==> AllTerminal(st)
      ensures allTerminal ==> (anyFailed <==> AnyFailed(st))
      ensures allTerminal ==>
                && summary.jobCount == |jobs|
                && summary.successCount == |CompletedSet(st)|
                && summary.failedCount == |FailedSet(st)|
    {
      allTerminal, anyFailed, summary := CountJobs(jobs, st);
    }

    /** OnJobCompleted: cascade a failure, then settle the workflow if every job has ended. */
    method OnJobCompleted(n: string, status: Status, unsaved: set<string>) returns (event: Option<Summary>)
      requires Valid()
      modifies this
      ensures Valid()
      ensures !old(wf).WorkflowRunning? || n !in old(st) ==> st == old(st) && wf == old(wf) && event.None?
      ensures old(wf).WorkflowRunning? && n in old(st) ==>
                && st == (if status in {Failed, Timeout, Lost} then Cascade(jobs, old(st), n, unsaved) else old(st))
                && wf == Verdict(st)
                && (event.Some? <==> AllTerminal(st))
      ensures event.Some? ==>
                && event.value.jobCount == |jobs|
                && event.value.successCount == |CompletedSet(st)|
                && event.value.failedCount == |FailedSet(st)|
                && event.value.failedJob == (if !wf.WorkflowFailed? then ""
                                             else if status in {Failed, Timeout, Lost} then n
                                             else FirstBlamed(jobs, st))
    {
      event := None;
      if !wf.WorkflowRunning? || n !in st {
        return;
      }
      if TriggersCascade(status) {
        SkipDescendants(n, unsaved);
      }
      var allTerminal, anyFailed, summary := Tally();
      if allTerminal {
        if anyFailed {
          wf := WorkflowFailed;
          var failedJob := "";
          if TriggersCascade(status) {
            failedJob := n;
          } else {
            failedJob := FindBlamed();
          }
          event := Some(summary.(failedJob := failedJob));
        } else {
          wf := WorkflowCompleted;
          event := Some(summary.(failedJob := ""));
        }
      }
    }

    method FindBlamed() returns (name: string)
      requires Valid()
      ensures name == FirstBlamed(jobs, st)
      ensures (exists i: nat :: FailedFirst(jobs, st, i) && jobs[i].name == name)
              || (name == "" && forall i :: 0 <= i < |jobs| ==> !SelfFailed(st, jobs[i].name))
    {
      for i := 0 to |jobs|
        invariant FirstBlamed(jobs, st) == FirstBlamed(jobs[i..], st)
        invariant forall k :: 0 <= k < i ==> !SelfFailed(st, jobs[k].name)
      {
        assert SelfFailed(st, jobs[i].name) ==> FailedFirst(jobs, st, i);
        if TriggersCascade(st[jobs[i].name]) {
          return jobs[i].name;
        }
      }
      name := "";
    }

    /**
     * Cancel: every live job whose save succeeds is lost and the workflow is cancelled, even when saving that fails.
     */
    method Cancel(unsaved: set<string>, saved: bool) returns (r: CancelResult)
      requires Valid()
      modifies this
      ensures Valid()
      ensures r.WorkflowAlreadyTerminal? <==> !old(wf).WorkflowRunning?
      ensures r.WorkflowNotSaved? <==> old(wf).WorkflowRunning? && !saved
      ensures old(wf).WorkflowRunning? ==> wf.WorkflowCancelled? && st == LoseAll(old(st), unsaved)
      ensures !old(wf).WorkflowRunning? ==> wf == old(wf) && st == old(st)
    {
      if !wf.WorkflowRunning? {
        return WorkflowAlreadyTerminal;
      }
      for i := 0 to |jobs|
        invariant Valid() && wf == old(wf)
        invariant forall m :: m in st ==>
          st[m] == if m in NameSet(jobs[..i]) then LoseAll(old(st), unsaved)[m] else old(st)[m]
      {
        NextName(jobs, i);
        var _ := MarkLost(jobs[i].name, jobs[i].name !in unsaved);
      }
      assert jobs[..|jobs|] == jobs;
      wf := WorkflowCancelled;
      r := if saved then CancelDone else WorkflowNotSaved;
    }
  }

  lemma NextName(jobs: seq<WorkflowJob>, i: nat)
    requires UniqueNames(jobs) && i < |jobs|
    ensures jobs[i].name !in NameSet(jobs[..i]) && NameSet(jobs[..i + 1]) == NameSet(jobs[..i]) + {jobs[i].name}
  {
    assert jobs[..i + 1] == jobs[..i] + [jobs[i]];
    NameSetAppend(jobs[..i], jobs[i]);
  }

  /** The walk over the jobs. */
  method CountJobs(jobs: seq<WorkflowJob>, st: Statuses) returns (allTerminal: bool, anyFailed: bool, summary: Summary)
    requires UniqueNames(jobs) && st.Keys == NameSet(jobs)
    ensures allTerminal <==> AllTerminal(st)
    ensures allTerminal ==> (anyFailed <==> AnyFailed(st))
    ensures allTerminal ==> summary == Summary(|jobs|, |CompletedSet(st)|, |FailedSet(st)|, "")
  {
    allTerminal, anyFailed := true, false;
    var jobCount, successCount, failedCount := 0, 0, 0;
    ghost var done, bad, seen: set<string> := CompletedSet(st), FailedSet(st), {};
    for i := 0 to |jobs|
      invariant allTerminal && jobCount == i && seen == NameSet(jobs[..i])
      invariant Tallied(seen, st, done, bad, successCount, failedCount, anyFailed)
    {
      var name := jobs[i].name;
      jobCount := jobCount + 1;
      if !IsTerminal(st[name]) {
        allTerminal := false;
        break;
      }
      NextName(jobs, i);
      TallyStep(seen, st, done, bad, name, successCount, failedCount, anyFailed);
      seen := seen + {name};
      successCount := if st[name].Completed? then successCount + 1 else successCount;
      failedCount := if CountsAsFailed(st[name]) then failedCount + 1 else failedCount;
      anyFailed := anyFailed || CountsAsFailed(st[name]);
    }
    summary := Summary(jobCount, successCount, failedCount, "");
    if allTerminal {
      assert jobs[..|jobs|] == jobs;
      TallyDone(st, done, bad, successCount, failedCount, anyFailed);
    }
  }

  /** The jobs seen have all ended, with these counts among the completed and the failed ones. */
  ghost predicate Tallied(seen: set<string>, st: Statuses, done: set<string>, bad: set<string>,
                          successCount: nat, failedCount: nat, anyFailed: bool)
  {
    && (forall n :: n in seen ==> n in st && IsTerminal(st[n]))
    && successCount == |seen * done|
    && failedCount == |seen * bad|
    && (anyFailed <==> seen * bad != {})
  }

  lemma TallyStep(seen: set<string>, st: Statuses, done: set<string>, bad: set<string>, name: string,
                  successCount: nat, failedCount: nat, anyFailed: bool)
    requires done == CompletedSet(st) && bad == FailedSet(st) && name !in seen && name in st && IsTerminal(st[name])
    requires Tallied(seen, st, done, bad, successCount, failedCount, anyFailed)
    ensures var s := st[name];
            Tallied(seen + {name}, st, done, bad, if s.Completed? then successCount + 1 else successCount,
                    if CountsAsFailed(s) then failedCount + 1 else failedCount, anyFailed || CountsAsFailed(s))
  {
    CountOneMore(seen, name, done);
    CountOneMore(seen, name, bad);
  }

  lemma TallyDone(st: Statuses, done: set<string>, bad: set<string>, successCount: nat, failedCount: nat,
                  anyFailed: bool)
    requires done == CompletedSet(st) && bad == FailedSet(st)
    requires Tallied(st.Keys, st, done, bad, successCount, failedCount, anyFailed)
    ensures AllTerminal(st) && successCount == |done| && failedCount == |bad|
    ensures anyFailed <==> AnyFailed(st)
  {
    assert st.Keys * done == done && st.Keys * bad == bad;
    if AnyFailed(st) {
      var n :| n in st && CountsAsFailed(st[n]);
      assert n in bad;
    }
    if bad != {} {
      var n :| n in bad;
    }
  }

  lemma CountOneMore(seen: set<string>, n: string, s: set<string>)
    requires n !in seen
    ensures |(seen + {n}) * s| == |seen * s| + (if n in s then 1 else 0)
    ensures (seen + {n}) * s == {} <==> seen * s == {} && n !in s
  {
    if n in s {
      assert (seen + {n}) * s == seen * s + {n};
    } else {
      assert (seen + {n}) * s == seen * s;
    }
  }

  lemma CascadeOneMore(jobs: seq<WorkflowJob>, st: Statuses, hit: seq<string>, name: string, unsaved: set<string>)
    ensures CascadeOver(jobs, st, hit + [name], unsaved) ==
              var st' := CascadeOver(jobs, st, hit, unsaved);
              if OnSuccessJob(jobs, name) then Move(st', name, Skipped, name !in unsaved) else st'
  {
    var before, after := CascadeOver(jobs, st, hit, unsaved), CascadeOver(jobs, st, hit + [name], unsaved);
    var moved := if OnSuccessJob(jobs, name) then Move(before, name, Skipped, name !in unsaved) else before;
    assert moved.Keys == st.Keys;
    forall m | m in st ensures after[m] == moved[m] {
      if m != name {
        OthersStay(jobs, st, hit, name, unsaved, m);
        assert moved[m] == before[m];
      } else {
        NextIsHit(jobs, st, hit, name, unsaved);
      }
    }
  }

  lemma CascadeOverNone(jobs: seq<WorkflowJob>, st: Statuses, unsaved: set<string>)
    ensures CascadeOver(jobs, st, [], unsaved) == st
  {
  }

  lemma CascadeOverAll(jobs: seq<WorkflowJob>, st: Statuses, hit: seq<string>, n: string, unsaved: set<string>)
    requires forall m :: m in hit <==> Reaches(jobs, m, n)
    ensures CascadeOver(jobs, st, hit, unsaved) == Cascade(jobs, st, n, unsaved)
  {
    var over, cascade := CascadeOver(jobs, st, hit, unsaved), Cascade(jobs, st, n, unsaved);
    forall m | m in st ensures over[m] == cascade[m] {
      assert m in hit <==> Reaches(jobs, m, n);
    }
  }

  lemma OthersStay(jobs: seq<WorkflowJob>, st: Statuses, hit: seq<string>, name: string, unsaved: set<string>,
                   m: string)
    requires m in st && m != name
    ensures CascadeOver(jobs, st, hit + [name], unsaved)[m] == CascadeOver(jobs, st, hit, unsaved)[m]
  {
    assert m in hit + [name] <==> m in hit;
  }

  lemma NextIsHit(jobs: seq<WorkflowJob>, st: Statuses, hit: seq<string>, name: string, unsaved: set<string>)
    requires name in st
    ensures var st' := CascadeOver(jobs, st, hit, unsaved);
            CascadeOver(jobs, st, hit + [name], unsaved)[name]
            == if OnSuccessJob(jobs, name) && CanMove(st', name, Skipped) && name !in unsaved then Skipped
               else st'[name]
  {
    var st' := CascadeOver(jobs, st, hit, unsaved);
    assert name in hit + [name];
    assert CanMove(st', name, Skipped) <==> st'[name].Pending?;
  }

  /** A finished workflow accounts for every job: completed, failed or cancelled. */
  lemma TallyAddsUp(jobs: seq<WorkflowJob>, st: Statuses)
    requires UniqueNames(jobs) && st.Keys == NameSet(jobs) && AllTerminal(st)
    ensures |jobs| == |CompletedSet(st)| + |FailedSet(st)| + |CancelledSet(st)|
  {
    UniqueNamesCount(jobs);
    var a, b, c := CompletedSet(st), FailedSet(st), CancelledSet(st);
    forall n | n in st ensures n in a + b + c {
      assert IsTerminal(st[n]);
    }
    assert st.Keys == a + b + c;
  }
}
