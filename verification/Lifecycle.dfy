/**
 How one started workflow runs: the job transition table (internal/cluster/job.go),
 dependency gating, the failure cascade and the workflow verdict
 (internal/cluster/workflow_lifecycle.go), driven by the dispatch loop
 (internal/cluster/dispatch.go) and by node reports (internal/grpcserver/handlers.go).

 Jobs of the workflow are keyed by name. They carry no retry policy
 (internal/cluster/workflow_submit.go), so a terminal status is final.
 */
module Lifecycle {
  import opened Workflows
  import opened Dag

  datatype Status =
    | Pending | Scheduled | Dispatching | Running
    | Completed | Failed | Timeout | Lost | Retrying | Cancelled | Skipped

  datatype WorkflowStatus = WorkflowRunning | WorkflowCompleted | WorkflowFailed | WorkflowCancelled

  type Statuses = map<string, Status>

  predicate IsTerminal(s: Status) {
    s.Completed? || s.Failed? || s.Timeout? || s.Lost? || s.Cancelled? || s.Skipped?
  }

  /** The statuses that make a workflow fail. */
  predicate CountsAsFailed(s: Status) {
    s.Failed? || s.Timeout? || s.Lost? || s.Skipped?
  }

  /** A job in one of these was handed out by the dispatch loop. */
  predicate WasStarted(s: Status) {
    s.Scheduled? || s.Dispatching? || s.Running? || s.Completed?
  }

  predicate Allowed(from: Status, to: Status) {
    match from
    case Pending => to.Scheduled? || to.Dispatching? || to.Cancelled? || to.Skipped? || to.Failed?
    case Scheduled => to.Dispatching? || to.Cancelled? || to.Pending?
    case Dispatching => to.Running? || to.Failed?
    case Running => to.Completed? || to.Failed? || to.Timeout? || to.Cancelled?
    case Failed => to.Retrying?
    case Timeout => to.Retrying?
    case Retrying => to.Pending?
    case _ => false
  }

  // ---- Operations on the job statuses ---------------------------------------

  predicate CanMove(st: Statuses, n: string, to: Status) {
    n in st && !IsTerminal(st[n]) && Allowed(st[n], to)
  }

  /** Transition: a rejected or unsaved move leaves the status alone. */
  function Move(st: Statuses, n: string, to: Status, saved: bool): Statuses {
    if CanMove(st, n, to) && saved then st[n := to] else st
  }

  /** MarkLost bypasses the table but not terminal states. */
  function Lose(st: Statuses, n: string, saved: bool): Statuses {
    if n in st && !IsTerminal(st[n]) && saved then st[n := Lost] else st
  }

  /** CancelJob: cancelled where the table has it, lost elsewhere. */
  function CancelOne(st: Statuses, n: string, saved: bool): Statuses {
    if CanMove(st, n, Cancelled) then Move(st, n, Cancelled, saved) else Lose(st, n, saved)
  }

  predicate Satisfied(dep: Status, condition: Condition) {
    match condition
    case OnSuccess => dep.Completed?
    case OnFailure => dep.Failed? || dep.Timeout?
    case OnComplete => IsTerminal(dep)
    case OtherCondition(_) => dep.Completed?
  }

  predicate DepsSatisfied(st: Statuses, j: WorkflowJob) {
    forall d :: d in j.dependsOn ==> d in st && Satisfied(st[d], j.condition)
  }

  predicate Unblocked(jobs: seq<WorkflowJob>, st: Statuses, n: string) {
    exists j :: j in jobs && j.name == n && DepsSatisfied(st, j)
  }

  /** What EligibleJobs offers for dispatch. */
  predicate Eligible(jobs: seq<WorkflowJob>, st: Statuses, n: string) {
    n in st && st[n].Pending? && Unblocked(jobs, st, n)
  }

  ghost predicate NeedsSuccessOf(jobs: seq<WorkflowJob>, m: string, n: string) {
    Reaches(jobs, m, n) && exists j :: j in jobs && j.name == m && j.condition.OnSuccess?
  }

  /** The cascade: on_success jobs downstream of a failed one, if still pending, are skipped. */
  ghost function Cascade(jobs: seq<WorkflowJob>, st: Statuses, n: string, unsaved: set<string>): (st': Statuses)
    ensures st'.Keys == st.Keys
  {
    map m | m in st ::
      if m in st && st[m].Pending? && m !in unsaved && NeedsSuccessOf(jobs, m, n) then Skipped else st[m]
  }

  predicate AllTerminal(st: Statuses) {
    forall n :: n in st ==> IsTerminal(st[n])
  }

  predicate AnyFailed(st: Statuses) {
    exists n :: n in st && CountsAsFailed(st[n])
  }

  function Verdict(st: Statuses): WorkflowStatus {
    if !AllTerminal(st) then WorkflowRunning
    else if AnyFailed(st) then WorkflowFailed
    else WorkflowCompleted
  }

  predicate TriggersCascade(s: Status) {
    s.Failed? || s.Timeout? || s.Lost?
  }

  // ---- Runs -----------------------------------------------------------------

  /**
   offered: the eligible set the current dispatch tick computed and is still working through.
   reported: jobs whose final report was stored but whose OnJobCompleted has not run yet.
   */
  datatype State = State(st: Statuses, wf: WorkflowStatus, offered: set<string>, reported: set<string>)

  datatype Action =
    | Tick
    | Schedule(n: string) | Dispatch(n: string)
    | ResolveFailure(n: string) | SendFailure(n: string)
    | ReportRunning(n: string) | ReportFinal(n: string, success: bool)
    | Notify(n: string, unsaved: set<string>)
    | CancelJob(n: string) | CancelWorkflow(unsaved: set<string>)
    | Restart

  /** Every job pending. */
  function AllPending(jobs: seq<WorkflowJob>): (st: Statuses)
    ensures st.Keys == NameSet(jobs) && forall n :: n in st ==> st[n].Pending?
  {
    if jobs == [] then map[]
    else
      assert forall j :: j in jobs <==> j == jobs[0] || j in jobs[1..];
      AllPending(jobs[1..])[jobs[0].name := Pending]
  }

  ghost predicate Started(jobs: seq<WorkflowJob>, s: State) {
    && s.st.Keys == NameSet(jobs) && (forall n :: n in s.st ==> s.st[n].Pending?)
    && s.wf.WorkflowRunning? && s.offered == {} && s.reported == {}
  }

  /** Each action is one critical section of the coordinator; any of its writes may fail to save. */
  ghost predicate Step(jobs: seq<WorkflowJob>, s: State, a: Action, s': State) {
    match a
    case Tick =>
      && s' == s.(offered := s'.offered)
      && forall n :: n in s'.offered ==> s.wf.WorkflowRunning? && Unblocked(jobs, s.st, n)
    case Schedule(n) => n in s.offered && Resolvable(jobs, s.st, n) && Moves(s, n, Scheduled, s')
    case Dispatch(n) => n in s.st && s.st[n].Scheduled? && Moves(s, n, Dispatching, s')
    case ResolveFailure(n) => n in s.offered && ReadsSomething(jobs, n) && Moves(s, n, Failed, s')
    case SendFailure(n) => n in s.st && WasStarted(s.st[n]) && Moves(s, n, Failed, s')
    case ReportRunning(n) => Moves(s, n, Running, s')
    case ReportFinal(n, success) =>
      var to := if success then Completed else Failed;
      s' == s || (CanMove(s.st, n, to) && s' == s.(st := s.st[n := to], reported := s.reported + {n}))
    case Notify(n, unsaved) =>
      && n in s.reported && n in s.st
      && s' == AfterNotify(jobs, s, n, unsaved)
    case CancelJob(n) => exists saved :: s' == s.(st := CancelOne(s.st, n, saved))
    case CancelWorkflow(unsaved) =>
      if s.wf.WorkflowRunning?
      then s' == s.(st := LoseAll(s.st, unsaved), wf := WorkflowCancelled)
      else s' == s
    case Restart =>
      s' == s.(offered := {}, reported := {}, wf := s'.wf) && (s'.wf == s.wf || s'.wf.WorkflowRunning?)
  }

  /** What ResolveJobInputs demands of the upstream jobs before a job may be scheduled. */
  ghost predicate Resolvable(jobs: seq<WorkflowJob>, st: Statuses, n: string) {
    forall u :: ReadsFrom(jobs, n, u) ==> u in st && st[u].Completed?
  }

  /** Some input of job n takes an output of u. */
  ghost predicate ReadsFrom(jobs: seq<WorkflowJob>, n: string, u: string) {
    exists j, b :: j in jobs && j.name == n && b in j.inputs && b.from != "" && SplitDotRef(b.from).0 == u
  }

  /** Only jobs with a `from` input are resolved, so only they can fail at it. */
  ghost predicate ReadsSomething(jobs: seq<WorkflowJob>, n: string) {
    exists u :: ReadsFrom(jobs, n, u)
  }

  ghost predicate Moves(s: State, n: string, to: Status, s': State) {
    exists saved :: s' == s.(st := Move(s.st, n, to, saved))
  }

  ghost function LoseAll(st: Statuses, unsaved: set<string>): (st': Statuses)
    ensures st'.Keys == st.Keys
  {
    map n | n in st :: if n in st && !IsTerminal(st[n]) && n !in unsaved then Lost else st[n]
  }

  /** OnJobCompleted: nothing unless the workflow is running; else cascade on failure, then pass the verdict. */
  ghost function AfterNotify(jobs: seq<WorkflowJob>, s: State, n: string, unsaved: set<string>): State
    requires n in s.st
  {
    if !s.wf.WorkflowRunning? then s.(reported := s.reported - {n})
    else
      var st := if TriggersCascade(s.st[n]) then Cascade(jobs, s.st, n, unsaved) else s.st;
      s.(st := st, wf := Verdict(st), reported := s.reported - {n})
  }

  ghost predicate Run(jobs: seq<WorkflowJob>, states: seq<State>, actions: seq<Action>) {
    && |states| == |actions| + 1
    && Started(jobs, states[0])
    && forall i :: 0 <= i < |actions| ==> StepAt(jobs, states, actions, i)
  }

  ghost predicate StepAt(jobs: seq<WorkflowJob>, states: seq<State>, actions: seq<Action>, i: int) {
    0 <= i < |actions| && |states| == |actions| + 1 && Step(jobs, states[i], actions[i], states[i + 1])
  }

  // ---- The tables, spelled out ---------------------------------------------------

  ghost const ENDED: set<Status> := {Completed, Failed, Timeout, Lost, Cancelled, Skipped}

  /** The moves a job can make before it has ended; being lost needs no entry. */
  ghost const MOVES: set<(Status, Status)> := {
    (Pending, Scheduled), (Pending, Dispatching), (Pending, Cancelled), (Pending, Skipped), (Pending, Failed),
    (Scheduled, Dispatching), (Scheduled, Cancelled), (Scheduled, Pending),
    (Dispatching, Running), (Dispatching, Failed),
    (Running, Completed), (Running, Failed), (Running, Timeout), (Running, Cancelled),
    (Retrying, Pending)}

  lemma MoveTable(from: Status, to: Status)
    ensures IsTerminal(from) <==> from in ENDED
    ensures !IsTerminal(from) && Allowed(from, to) <==> (from, to) in MOVES
  {
  }

  /** How a dependency may have ended for a job with this condition to go ahead. */
  ghost function Accepts(condition: Condition): set<Status> {
    match condition
    case OnSuccess => {Completed}
    case OnFailure => {Failed, Timeout}
    case OnComplete => ENDED
    case OtherCondition(_) => {Completed}
  }

  lemma SatisfiedIff(dep: Status, condition: Condition)
    ensures Satisfied(dep, condition) <==> dep in Accepts(condition)
  {
  }

  /** A workflow fails by a job that failed, timed out, was lost or skipped; cancelled jobs alone do not fail it. */
  lemma VerdictIff(st: Statuses)
    ensures Verdict(st).WorkflowRunning? <==> exists n :: n in st && st[n] !in ENDED
    ensures Verdict(st).WorkflowCompleted? <==> forall n :: n in st ==> st[n] in {Completed, Cancelled}
    ensures Verdict(st).WorkflowFailed? <==>
              && (forall n :: n in st ==> st[n] in ENDED)
              && exists n :: n in st && st[n] in {Failed, Timeout, Lost, Skipped}
  {
    forall n | n in st ensures IsTerminal(st[n]) <==> st[n] in ENDED {
      MoveTable(st[n], st[n]);
    }
  }

  /** A cancelled job that is being dispatched or retried ends as lost. */
  lemma CancelIff(st: Statuses, n: string)
    requires n in st
    ensures CancelOne(st, n, true) ==
              if st[n] in ENDED then st
              else st[n := if st[n] == Dispatching || st[n] == Retrying then Lost else Cancelled]
  {
    MoveTable(st[n], Cancelled);
  }

  // ---- What every step keeps --------------------------------------------------

  /** A started job has every dependency in the state its condition asks for, and every job it reads from completed. */
  ghost predicate Gated(jobs: seq<WorkflowJob>, s: State) {
    && (forall j :: j in jobs && j.name in s.st && WasStarted(s.st[j.name]) ==> DepsSatisfied(s.st, j))
    && (forall n :: n in s.st && WasStarted(s.st[n]) ==> Resolvable(jobs, s.st, n))
  }

  /** A finished workflow has no live job, and the verdict matches them. */
  ghost predicate Settled(s: State) {
    && (s.wf.WorkflowCompleted? ==> AllTerminal(s.st) && !AnyFailed(s.st))
    && (s.wf.WorkflowFailed? ==> AllTerminal(s.st) && AnyFailed(s.st))
  }

  ghost predicate Inv(jobs: seq<WorkflowJob>, s: State) {
    && s.st.Keys == NameSet(jobs)
    && (forall n :: n in s.offered ==> Unblocked(jobs, s.st, n))
    && Gated(jobs, s)
    && Settled(s)
  }

  /** Terminal statuses never change: whatever a condition was satisfied by stays. */
  ghost predicate Advances(st: Statuses, st': Statuses) {
    st'.Keys == st.Keys && forall n :: n in st && IsTerminal(st[n]) ==> st'[n] == st[n]
  }

  lemma StepAdvances(jobs: seq<WorkflowJob>, s: State, a: Action, s': State)
    requires Step(jobs, s, a, s')
    ensures Advances(s.st, s'.st)
  {
  }

  lemma SatisfiedIsStable(st: Statuses, st': Statuses, j: WorkflowJob)
    requires Advances(st, st') && DepsSatisfied(st, j)
    ensures DepsSatisfied(st', j)
  {
    forall d | d in j.dependsOn ensures d in st' && Satisfied(st'[d], j.condition) {
      assert d in st && Satisfied(st[d], j.condition);
    }
  }

  lemma UnblockedIsStable(jobs: seq<WorkflowJob>, st: Statuses, st': Statuses, n: string)
    requires Advances(st, st') && Unblocked(jobs, st, n)
    ensures Unblocked(jobs, st', n)
  {
    var j :| j in jobs && j.name == n && DepsSatisfied(st, j);
    SatisfiedIsStable(st, st', j);
  }

  /** Only its schedule step makes a job count as started. */
  lemma StartsOnlyBySchedule(jobs: seq<WorkflowJob>, s: State, a: Action, s': State, n: string)
    requires Step(jobs, s, a, s') && n in s.st && n in s'.st
    requires WasStarted(s'.st[n]) && !WasStarted(s.st[n])
    ensures a == Schedule(n)
  {
  }

  lemma StepKeepsGated(jobs: seq<WorkflowJob>, s: State, a: Action, s': State)
    requires UniqueNames(jobs) && Inv(jobs, s) && Step(jobs, s, a, s') && Advances(s.st, s'.st)
    ensures Gated(jobs, s')
  {
    forall j | j in jobs && j.name in s'.st && WasStarted(s'.st[j.name]) ensures DepsSatisfied(s'.st, j) {
      if !WasStarted(s.st[j.name]) {
        StartsOnlyBySchedule(jobs, s, a, s', j.name);
        var k :| k in jobs && k.name == j.name && DepsSatisfied(s.st, k);
        assert k == j;
      }
      SatisfiedIsStable(s.st, s'.st, j);
    }
    forall n | n in s'.st && WasStarted(s'.st[n]) ensures Resolvable(jobs, s'.st, n) {
      if !WasStarted(s.st[n]) {
        StartsOnlyBySchedule(jobs, s, a, s', n);
      }
      assert Resolvable(jobs, s.st, n);
    }
  }

  lemma StepKeepsInv(jobs: seq<WorkflowJob>, s: State, a: Action, s': State)
    requires UniqueNames(jobs) && Inv(jobs, s) && Step(jobs, s, a, s')
    ensures Inv(jobs, s')
  {
    StepAdvances(jobs, s, a, s');
    forall n | n in s'.offered ensures Unblocked(jobs, s'.st, n) {
      if !a.Tick? {
        UnblockedIsStable(jobs, s.st, s'.st, n);
      }
    }
    StepKeepsGated(jobs, s, a, s');
    SettledIsStable(jobs, s, a, s');
  }

  lemma SettledIsStable(jobs: seq<WorkflowJob>, s: State, a: Action, s': State)
    requires Settled(s) && Step(jobs, s, a, s')
    ensures Settled(s')
  {
    StepAdvances(jobs, s, a, s');
    if s'.wf == s.wf && !s.wf.WorkflowRunning? && !s.wf.WorkflowCancelled? {
      forall n | n in s.st ensures s'.st[n] == s.st[n] {
      }
      assert s'.st == s.st;
    }
  }

  ghost predicate HasVerdict(s: State) {
    s.wf.WorkflowCompleted? || s.wf.WorkflowFailed?
  }

  lemma EndedJobsStay(jobs: seq<WorkflowJob>, s: State, a: Action, s': State)
    requires Step(jobs, s, a, s') && AllTerminal(s.st)
    ensures s'.st == s.st
  {
    StepAdvances(jobs, s, a, s');
    forall n | n in s.st ensures s'.st[n] == s.st[n] {
    }
  }

  /**
   * Only a restart, which may find an older record of the workflow, can take a verdict back; until then nothing changes
   * any more.
   */
  lemma VerdictIsFinal(jobs: seq<WorkflowJob>, s: State, a: Action, s': State)
    requires Settled(s) && Step(jobs, s, a, s') && HasVerdict(s)
    ensures s'.st == s.st && (a.Restart? || s'.wf == s.wf)
  {
    EndedJobsStay(jobs, s, a, s');
  }

  lemma {:induction false} RunKeepsInv(jobs: seq<WorkflowJob>, states: seq<State>, actions: seq<Action>, i: nat)
    requires UniqueNames(jobs) && Run(jobs, states, actions) && i < |states|
    ensures Inv(jobs, states[i])
  {
    if i == 0 {
    } else {
      RunKeepsInv(jobs, states, actions, i - 1);
      assert StepAt(jobs, states, actions, i - 1);
      StepKeepsInv(jobs, states[i - 1], actions[i - 1], states[i]);
    }
  }

  /**
   Once a workflow has a verdict, its jobs never change again in the rest of the run; the verdict
   stays until a restart, and whatever verdict is found later is the same one.
   */
  lemma {:induction false} VerdictLasts(jobs: seq<WorkflowJob>, states: seq<State>, actions: seq<Action>, i: nat,
                                        k: nat)
    requires UniqueNames(jobs) && Run(jobs, states, actions) && i <= k < |states| && HasVerdict(states[i])
    ensures states[k].st == states[i].st
    ensures (forall m :: i <= m < k ==> !actions[m].Restart?) ==> states[k].wf == states[i].wf
    ensures HasVerdict(states[k]) ==> states[k].wf == states[i].wf
    decreases k
  {
    RunKeepsInv(jobs, states, actions, i);
    RunKeepsInv(jobs, states, actions, k);
    if i < k {
      VerdictLasts(jobs, states, actions, i, k - 1);
      assert StepAt(jobs, states, actions, k - 1);
      EndedJobsStay(jobs, states[k - 1], actions[k - 1], states[k]);
      if HasVerdict(states[k - 1]) {
        RunKeepsInv(jobs, states, actions, k - 1);
        VerdictIsFinal(jobs, states[k - 1], actions[k - 1], states[k]);
      }
    }
  }

  /** The steps of an undisturbed run: jobs end only by node reports, and every report is processed and saved. */
  predicate Fair(a: Action) {
    a.Tick? || a.Schedule? || a.Dispatch? || a.ReportRunning? || a.ReportFinal? || (a.Notify? && a.unsaved == {})
  }

  /** A final report is honest when the job was dispatched. The report handler also takes one for a pending job. */
  ghost predicate HonestReport(s: State, a: Action) {
    a.ReportFinal? && a.n in s.st ==> !s.st[a.n].Pending?
  }

  /** Which runs are meant: all, those whose reports are honest, or those that are undisturbed as well. */
  datatype Mode = AnyReports | HonestReports | Undisturbed

  ghost predicate Permitted(mode: Mode, s: State, a: Action) {
    && (!mode.AnyReports? ==> HonestReport(s, a))
    && (mode.Undisturbed? ==> Fair(a))
  }

  /** s occurs in some run of this kind. */
  ghost predicate Reachable(jobs: seq<WorkflowJob>, mode: Mode, s: State) {
    exists states, actions :: RunTo(jobs, mode, states, actions, s)
  }

  ghost predicate RunTo(jobs: seq<WorkflowJob>, mode: Mode, states: seq<State>, actions: seq<Action>, s: State) {
    && Run(jobs, states, actions) && states[|actions|] == s
    && forall i :: 0 <= i < |actions| ==> Permitted(mode, states[i], actions[i])
  }

  lemma ReachableInv(jobs: seq<WorkflowJob>, mode: Mode, s: State)
    requires UniqueNames(jobs) && Reachable(jobs, mode, s)
    ensures Inv(jobs, s)
  {
    var states, actions :| RunTo(jobs, mode, states, actions, s);
    RunKeepsInv(jobs, states, actions, |actions|);
  }

  lemma ReachableStep(jobs: seq<WorkflowJob>, mode: Mode, s: State, a: Action, s': State)
    requires Reachable(jobs, mode, s) && Step(jobs, s, a, s') && Permitted(mode, s, a)
    ensures Reachable(jobs, mode, s')
  {
    var states, actions :| RunTo(jobs, mode, states, actions, s);
    var states', actions' := states + [s'], actions + [a];
    forall i | 0 <= i < |actions'|
      ensures StepAt(jobs, states', actions', i) && Permitted(mode, states'[i], actions'[i])
    {
      if i < |actions| {
        assert StepAt(jobs, states, actions, i);
      }
    }
    assert RunTo(jobs, mode, states', actions', s');
  }

  // ---- How jobs fail ----------------------------------------------------------

  ghost predicate FailedGated(jobs: seq<WorkflowJob>, s: State) {
    forall j :: j in jobs && j.name in s.st && s.st[j.name].Failed? ==> DepsSatisfied(s.st, j)
  }

  /**
   * Nothing in the coordinator sets a timeout, and with honest reports a job fails only after its dependencies let it
   * start.
   */
  ghost predicate FailuresInv(jobs: seq<WorkflowJob>, mode: Mode, s: State) {
    && (forall n :: n in s.st ==> !s.st[n].Timeout?)
    && (!mode.AnyReports? ==> FailedGated(jobs, s))
  }

  /** A job that just failed had been offered or started, unless its report came for a pending job. */
  lemma FailsOnlyWhenOffered(jobs: seq<WorkflowJob>, s: State, a: Action, s': State, n: string)
    requires Step(jobs, s, a, s') && HonestReport(s, a) && n in s.st && n in s'.st
    requires s'.st[n].Failed? && !s.st[n].Failed?
    ensures n in s.offered || WasStarted(s.st[n])
  {
  }

  lemma NoTimeouts(jobs: seq<WorkflowJob>, s: State, a: Action, s': State)
    requires Step(jobs, s, a, s') && forall n :: n in s.st ==> !s.st[n].Timeout?
    ensures forall n :: n in s'.st ==> !s'.st[n].Timeout?
  {
  }

  lemma FailedIsGated(jobs: seq<WorkflowJob>, s: State, a: Action, s': State, j: WorkflowJob)
    requires UniqueNames(jobs) && Inv(jobs, s) && FailedGated(jobs, s) && Step(jobs, s, a, s') && HonestReport(s, a)
    requires j in jobs && j.name in s.st && j.name in s'.st && s'.st[j.name].Failed?
    ensures DepsSatisfied(s.st, j)
  {
    if !s.st[j.name].Failed? {
      FailsOnlyWhenOffered(jobs, s, a, s', j.name);
      if j.name in s.offered {
        var k :| k in jobs && k.name == j.name && DepsSatisfied(s.st, k);
        assert k == j;
      }
    }
  }

  lemma StepKeepsFailures(jobs: seq<WorkflowJob>, mode: Mode, s: State, a: Action, s': State)
    requires UniqueNames(jobs) && Inv(jobs, s) && Step(jobs, s, a, s') && Permitted(mode, s, a)
    requires FailuresInv(jobs, mode, s)
    ensures FailuresInv(jobs, mode, s')
  {
    NoTimeouts(jobs, s, a, s');
    if !mode.AnyReports? {
      forall j | j in jobs && j.name in s'.st && s'.st[j.name].Failed? ensures DepsSatisfied(s'.st, j) {
        StepAdvances(jobs, s, a, s');
        FailedIsGated(jobs, s, a, s', j);
        SatisfiedIsStable(s.st, s'.st, j);
      }
    }
  }

  lemma {:induction false} RunKeepsFailures(jobs: seq<WorkflowJob>, mode: Mode, states: seq<State>,
                                            actions: seq<Action>, i: nat)
    requires UniqueNames(jobs) && Run(jobs, states, actions) && i < |states|
    requires forall k :: 0 <= k < |actions| ==> Permitted(mode, states[k], actions[k])
    ensures FailuresInv(jobs, mode, states[i])
  {
    if i == 0 {
    } else {
      RunKeepsFailures(jobs, mode, states, actions, i - 1);
      RunKeepsInv(jobs, states, actions, i - 1);
      assert StepAt(jobs, states, actions, i - 1);
      StepKeepsFailures(jobs, mode, states[i - 1], actions[i - 1], states[i]);
    }
  }

  lemma ReachableFailures(jobs: seq<WorkflowJob>, mode: Mode, s: State)
    requires UniqueNames(jobs) && Reachable(jobs, mode, s)
    ensures FailuresInv(jobs, mode, s)
  {
    var states, actions :| RunTo(jobs, mode, states, actions, s);
    RunKeepsFailures(jobs, mode, states, actions, |actions|);
  }
}
