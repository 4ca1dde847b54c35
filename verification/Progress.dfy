/**
 Whether a started workflow finishes. The verdict is only passed when a node report is
 processed, and the failure cascade only follows reports, so progress depends on how
 jobs end; this module states exactly what is guaranteed and shows what is not.
 */
module Progress {
  import opened Workflows
  import opened Dag
  import opened Lifecycle
  import opened Plans

  predicate InFlight(s: Status) {
    s.Scheduled? || s.Dispatching? || s.Running? || s.Retrying?
  }

  // ---- Running out of steps ------------------------------------------------------

  /** An undisturbed step other than a tick that changes something. */
  ghost predicate Effective(jobs: seq<WorkflowJob>, s: State, a: Action, s': State) {
    Permitted(Undisturbed, s, a) && !a.Tick? && Step(jobs, s, a, s') && s' != s
  }

  /** However often the dispatch loop ticks, nothing more happens by itself. */
  ghost predicate Stuck(jobs: seq<WorkflowJob>, s: State) {
    forall t, a, t' :: Step(jobs, s, Tick, t) ==> !Effective(jobs, t, a, t')
  }

  /** Nothing is running, nothing waits to be processed and nothing can be dispatched. */
  ghost predicate Quiescent(jobs: seq<WorkflowJob>, s: State) {
    && s.reported == {}
    && (forall n :: n in s.st ==> !InFlight(s.st[n]))
    && (forall n :: n in s.st ==> !Eligible(jobs, s.st, n))
  }

  ghost predicate SkippedFor(jobs: seq<WorkflowJob>, s: State, m: string) {
    exists f :: f in s.st && s.st[f].Failed? && f !in s.reported && Reaches(jobs, m, f)
  }

  /** A processed failure has left no on_success dependent pending. */
  ghost predicate Cascaded(jobs: seq<WorkflowJob>, s: State) {
    forall f, m :: f in s.st && s.st[f].Failed? && f !in s.reported && m in s.st && NeedsSuccessOf(jobs, m, f)
                   ==> !s.st[m].Pending?
  }

  ghost predicate FairInv(jobs: seq<WorkflowJob>, s: State) {
    && Settled(s) && !s.wf.WorkflowCancelled?
    && (forall n :: n in s.st ==> !(s.st[n].Timeout? || s.st[n].Lost? || s.st[n].Cancelled? || s.st[n].Retrying?))
    && (forall n :: n in s.reported ==> n in s.st && IsTerminal(s.st[n]))
    && Cascaded(jobs, s)
    && (forall m :: m in s.st && s.st[m].Skipped? ==> SkippedFor(jobs, s, m))
    && (s.wf.WorkflowRunning? && s.reported == {} ==> !AllTerminal(s.st))
  }

  lemma SkippedForStays(jobs: seq<WorkflowJob>, s: State, s': State, m: string)
    requires SkippedFor(jobs, s, m) && Advances(s.st, s'.st)
    requires s'.reported <= s.reported + (set n | n in s.st && !IsTerminal(s.st[n]))
    ensures SkippedFor(jobs, s', m)
  {
    var f :| f in s.st && s.st[f].Failed? && f !in s.reported && Reaches(jobs, m, f);
    assert f in s'.st && f !in s'.reported;
  }

  /** Statuses only move on, and whatever ends is completed or failed and waits to be processed. */
  ghost predicate Forward(s: State, s': State) {
    && Advances(s.st, s'.st) && s'.wf == s.wf && s.reported <= s'.reported
    && (forall n :: n in s.st && n !in s.reported && n in s'.reported ==> !IsTerminal(s.st[n]))
    && (forall n :: n in s'.reported && n !in s.reported ==> n in s'.st && IsTerminal(s'.st[n]))
    && (forall n :: n in s.st && s'.st[n] != s.st[n] ==> Progressed(s', n))
  }

  ghost predicate Progressed(s: State, n: string)
    requires n in s.st
  {
    s.st[n].Scheduled? || s.st[n].Dispatching? || s.st[n].Running?
    || ((s.st[n].Completed? || s.st[n].Failed?) && n in s.reported)
  }

  /** Steps other than Notify move forward. */
  lemma StepIsForward(jobs: seq<WorkflowJob>, s: State, a: Action, s': State)
    requires Step(jobs, s, a, s') && Fair(a) && !a.Notify?
    ensures Forward(s, s')
  {
  }

  lemma ForwardKeepsCascaded(jobs: seq<WorkflowJob>, s: State, s': State)
    requires Cascaded(jobs, s) && Forward(s, s')
    ensures Cascaded(jobs, s')
  {
    forall f, m | f in s'.st && s'.st[f].Failed? && f !in s'.reported && m in s'.st && NeedsSuccessOf(jobs, m, f)
      ensures !s'.st[m].Pending?
    {
      assert s'.st[f] != s.st[f] ==> Progressed(s', f);
      assert s'.st[m] != s.st[m] ==> Progressed(s', m);
    }
  }

  lemma ForwardKeepsSkipped(jobs: seq<WorkflowJob>, s: State, s': State, m: string)
    requires Forward(s, s') && m in s'.st && s'.st[m].Skipped? && (s.st[m].Skipped? ==> SkippedFor(jobs, s, m))
    ensures SkippedFor(jobs, s', m)
  {
    assert s'.st[m] != s.st[m] ==> Progressed(s', m);
    SkippedForStays(jobs, s, s', m);
  }

  lemma ForwardStaysLive(s: State, s': State)
    requires Forward(s, s') && s'.reported == {} && !AllTerminal(s.st)
    ensures !AllTerminal(s'.st)
  {
    var n :| n in s.st && !IsTerminal(s.st[n]);
    assert s'.st[n] != s.st[n] ==> Progressed(s', n);
  }

  lemma ForwardKeepsFairInv(jobs: seq<WorkflowJob>, s: State, s': State)
    requires FairInv(jobs, s) && Forward(s, s') && Settled(s')
    ensures FairInv(jobs, s')
  {
    ForwardKeepsCascaded(jobs, s, s');
    forall m | m in s'.st && s'.st[m].Skipped? ensures SkippedFor(jobs, s', m) {
      ForwardKeepsSkipped(jobs, s, s', m);
    }
    forall n | n in s'.st ensures !(s'.st[n].Timeout? || s'.st[n].Lost? || s'.st[n].Cancelled? || s'.st[n].Retrying?) {
      assert s'.st[n] != s.st[n] ==> Progressed(s', n);
    }
    if s'.wf.WorkflowRunning? && s'.reported == {} {
      ForwardStaysLive(s, s');
    }
  }

  lemma CascadeEffect(jobs: seq<WorkflowJob>, s: State, n: string, s': State)
    requires FairInv(jobs, s) && n in s.reported && n in s.st && s.wf.WorkflowRunning?
    requires s' == AfterNotify(jobs, s, n, {})
    ensures Cascaded(jobs, s')
    ensures forall m :: m in s'.st && s'.st[m].Skipped? ==> SkippedFor(jobs, s', m)
  {
    assert Advances(s.st, s'.st);
    forall f, m | f in s'.st && s'.st[f].Failed? && f !in s'.reported && m in s'.st && NeedsSuccessOf(jobs, m, f)
      ensures !s'.st[m].Pending?
    {
      assert s.st[f].Failed?;
      if f == n {
        assert s'.st == Cascade(jobs, s.st, n, {});
      }
    }
    forall m | m in s'.st && s'.st[m].Skipped? ensures SkippedFor(jobs, s', m) {
      if s.st[m].Skipped? {
        SkippedForStays(jobs, s, s', m);
      } else {
        assert NeedsSuccessOf(jobs, m, n) && s.st[n].Failed?;
        assert s'.st[n].Failed? && n !in s'.reported;
      }
    }
  }

  lemma NotifyKeepsFairInv(jobs: seq<WorkflowJob>, s: State, n: string, s': State)
    requires FairInv(jobs, s) && Step(jobs, s, Notify(n, {}), s')
    ensures FairInv(jobs, s')
  {
    StepAdvances(jobs, s, Notify(n, {}), s');
    SettledIsStable(jobs, s, Notify(n, {}), s');
    if s.wf.WorkflowRunning? {
      CascadeEffect(jobs, s, n, s');
    } else {
      forall m | m in s'.st && s'.st[m].Skipped? ensures SkippedFor(jobs, s', m) {
        SkippedForStays(jobs, s, s', m);
      }
    }
  }

  lemma {:induction false} FairRunKeeps(jobs: seq<WorkflowJob>, states: seq<State>, actions: seq<Action>, i: nat)
    requires jobs != [] && Run(jobs, states, actions) && i < |states|
    requires forall k :: 0 <= k < |actions| ==> Permitted(Undisturbed, states[k], actions[k])
    ensures FairInv(jobs, states[i])
  {
    if i == 0 {
      assert jobs[0].name in states[0].st;
    } else {
      FairRunKeeps(jobs, states, actions, i - 1);
      assert StepAt(jobs, states, actions, i - 1);
      var a := actions[i - 1];
      if a.Notify? {
        NotifyKeepsFairInv(jobs, states[i - 1], a.n, states[i]);
      } else {
        StepIsForward(jobs, states[i - 1], a, states[i]);
        SettledIsStable(jobs, states[i - 1], a, states[i]);
        ForwardKeepsFairInv(jobs, states[i - 1], states[i]);
      }
    }
  }

  /** Jobs without dependencies, and those that wait for success or for any end. */
  predicate Benign(j: WorkflowJob) {
    j.dependsOn == [] || j.condition.OnSuccess? || j.condition.OnComplete?
  }

  /** A pending job that cannot be dispatched waits for another pending job. */
  lemma BlockedWaitsForPending(jobs: seq<WorkflowJob>, s: State, j: WorkflowJob) returns (d: string)
    requires FairInv(jobs, s) && Quiescent(jobs, s) && KnownDependencies(jobs) && s.st.Keys == NameSet(jobs)
    requires j in jobs && s.st[j.name].Pending? && Benign(j)
    ensures d in j.dependsOn && s.st[d].Pending?
  {
    assert !Eligible(jobs, s.st, j.name);
    assert !DepsSatisfied(s.st, j);
    d :| d in j.dependsOn && !Satisfied(s.st[d], j.condition);
    assert DependsOn(jobs, j.name, d);
    EdgeReaches(jobs, j.name, d);
    if s.st[d].Failed? {
      assert NeedsSuccessOf(jobs, j.name, d);
      assert false;
    }
    if s.st[d].Skipped? {
      assert SkippedFor(jobs, s, d);
      var f :| f in s.st && s.st[f].Failed? && f !in s.reported && Reaches(jobs, d, f);
      ReachesTransitive(jobs, j.name, d, f);
      assert NeedsSuccessOf(jobs, j.name, f);
      assert false;
    }
  }

  // ---- Every state that is stuck is quiet, and the other way round ----------------

  /** In a state with no report left to process, a pending on_success job has no failed or skipped job upstream. */
  lemma NothingFailedUpstream(jobs: seq<WorkflowJob>, s: State, j: WorkflowJob, m: string)
    requires FairInv(jobs, s) && s.reported == {} && j in jobs && j.condition.OnSuccess? && j.name in s.st
    requires s.st[j.name].Pending?
    requires m in s.st && Reaches(jobs, j.name, m)
    ensures !s.st[m].Failed? && !s.st[m].Skipped?
  {
    if s.st[m].Failed? {
      assert NeedsSuccessOf(jobs, j.name, m);
      assert false;
    }
    if s.st[m].Skipped? {
      assert SkippedFor(jobs, s, m);
      var f :| f in s.st && s.st[f].Failed? && f !in s.reported && Reaches(jobs, m, f);
      ReachesTransitive(jobs, j.name, m, f);
      assert NeedsSuccessOf(jobs, j.name, f);
      assert false;
    }
  }

  /** What a completed job upstream of such a job depends on has completed. */
  lemma UpstreamCompleted(jobs: seq<WorkflowJob>, s: State, j: WorkflowJob, m: string, d: string)
    requires FairInv(jobs, s) && Gated(jobs, s) && s.reported == {}
    requires j in jobs && j.condition.OnSuccess? && j.name in s.st && s.st[j.name].Pending?
    requires Reaches(jobs, j.name, m) && m in s.st && s.st[m].Completed? && DependsOn(jobs, m, d)
    ensures d in s.st && s.st[d].Completed?
  {
    var k :| k in jobs && k.name == m && d in k.dependsOn;
    assert DepsSatisfied(s.st, k);
    EdgeReaches(jobs, m, d);
    ReachesTransitive(jobs, j.name, m, d);
    NothingFailedUpstream(jobs, s, j, d);
  }

  /** If such a job is eligible, everything upstream of it has completed. */
  lemma {:induction false} AncestorsCompleted(jobs: seq<WorkflowJob>, s: State, j: WorkflowJob, p: seq<string>)
    requires FairInv(jobs, s) && Gated(jobs, s) && s.reported == {}
    requires j in jobs && j.condition.OnSuccess? && j.name in s.st && s.st[j.name].Pending? && DepsSatisfied(s.st, j)
    requires UniqueNames(jobs)
    requires Path(jobs, p) && p[0] == j.name
    ensures p[|p| - 1] in s.st && s.st[p[|p| - 1]].Completed?
    decreases |p|
  {
    var n := |p| - 1;
    assert EdgeAt(jobs, p, n - 1);
    if n == 1 {
      var k :| k in jobs && k.name == j.name && p[1] in k.dependsOn;
      assert k == j;
    } else {
      var q := p[..n];
      WalkSlice(jobs, p, 0, n);
      assert q == p[0..n];
      AncestorsCompleted(jobs, s, j, q);
      assert Reaches(jobs, j.name, q[n - 1]);
      UpstreamCompleted(jobs, s, j, p[n - 1], p[n]);
    }
  }

  /** With no report left to process, every eligible job can have its inputs resolved. */
  lemma EligibleIsResolvable(jobs: seq<WorkflowJob>, s: State, n: string)
    requires ValidWorkflow(jobs) && FairInv(jobs, s) && Gated(jobs, s) && s.reported == {} && Eligible(jobs, s.st, n)
    ensures Resolvable(jobs, s.st, n)
  {
    var j :| j in jobs && j.name == n && DepsSatisfied(s.st, j);
    forall u | ReadsFrom(jobs, n, u) ensures u in s.st && s.st[u].Completed? {
      var k, b :| k in jobs && k.name == n && b in k.inputs && b.from != "" && SplitDotRef(b.from).0 == u;
      assert k == j && FromHolds(jobs, j, b);
      var p :| Path(jobs, p) && p[0] == n && p[|p| - 1] == u;
      AncestorsCompleted(jobs, s, j, p);
    }
  }

  lemma UndisturbedInv(jobs: seq<WorkflowJob>, s: State)
    requires UniqueNames(jobs) && jobs != [] && Reachable(jobs, Undisturbed, s)
    ensures FairInv(jobs, s) && Inv(jobs, s)
  {
    var states, actions :| RunTo(jobs, Undisturbed, states, actions, s);
    FairRunKeeps(jobs, states, actions, |actions|);
    RunKeepsInv(jobs, states, actions, |actions|);
  }

  lemma ReportMoves(jobs: seq<WorkflowJob>, s: State, n: string) returns (s': State)
    requires n in s.reported && n in s.st
    ensures Effective(jobs, s, Notify(n, {}), s')
  {
    s' := AfterNotify(jobs, s, n, {});
    assert n in s.reported && n !in s'.reported;
  }

  lemma OfferMoves(jobs: seq<WorkflowJob>, s: State, n: string) returns (s': State)
    requires n in s.offered && n in s.st && s.st[n].Pending? && Resolvable(jobs, s.st, n)
    ensures Effective(jobs, s, Schedule(n), s')
  {
    s' := s.(st := Move(s.st, n, Scheduled, true));
    assert Moves(s, n, Scheduled, s') && s'.st[n] != s.st[n];
  }

  /** A state that is not quiet has an undisturbed step, after a tick at most. */
  lemma NotQuietMoves(jobs: seq<WorkflowJob>, s: State) returns (t: State, a: Action, t': State)
    requires ValidWorkflow(jobs) && FairInv(jobs, s) && Inv(jobs, s) && s.wf.WorkflowRunning? && !Quiescent(jobs, s)
    ensures Step(jobs, s, Tick, t) && Effective(jobs, t, a, t')
  {
    t := s.(offered := {});
    if n :| n in s.reported {
      a := Notify(n, {});
      t' := ReportMoves(jobs, t, n);
    } else if n :| n in s.st && InFlight(s.st[n]) {
      a, t' := MoveOn(jobs, t, n);
    } else {
      var n :| n in s.st && Eligible(jobs, s.st, n);
      EligibleIsResolvable(jobs, s, n);
      t := s.(offered := {n});
      a := Schedule(n);
      t' := OfferMoves(jobs, t, n);
    }
  }

  lemma MoveOn(jobs: seq<WorkflowJob>, s: State, n: string) returns (a: Action, s': State)
    requires n in s.st && (s.st[n].Scheduled? || s.st[n].Dispatching? || s.st[n].Running?)
    ensures Effective(jobs, s, a, s')
  {
    if s.st[n].Scheduled? {
      a, s' := Dispatch(n), s.(st := Move(s.st, n, Dispatching, true));
      assert Moves(s, n, Dispatching, s');
    } else if s.st[n].Dispatching? {
      a, s' := ReportRunning(n), s.(st := Move(s.st, n, Running, true));
      assert Moves(s, n, Running, s');
    } else {
      a, s' := ReportFinal(n, true), s.(st := s.st[n := Completed], reported := s.reported + {n});
    }
    assert s'.st[n] != s.st[n];
  }

  lemma QuietDoesNotMove(jobs: seq<WorkflowJob>, s: State, t: State, a: Action, t': State)
    requires Quiescent(jobs, s) && Step(jobs, s, Tick, t)
    ensures !Effective(jobs, t, a, t')
  {
    assert a.Schedule? && a.n in t.offered ==> Unblocked(jobs, s.st, a.n);
    assert a.Schedule? && a.n in s.st ==> !Eligible(jobs, s.st, a.n);
  }

  /**
   * Until the workflow has its verdict, being stuck is being quiet: nothing eligible is ever left waiting for its
   * inputs.
   */
  lemma StuckIffQuiescent(jobs: seq<WorkflowJob>, s: State)
    requires ValidWorkflow(jobs) && jobs != [] && Reachable(jobs, Undisturbed, s) && s.wf.WorkflowRunning?
    ensures Stuck(jobs, s) <==> Quiescent(jobs, s)
  {
    UndisturbedInv(jobs, s);
    if Quiescent(jobs, s) {
      forall t, a, t' | Step(jobs, s, Tick, t) ensures !Effective(jobs, t, a, t') {
        QuietDoesNotMove(jobs, s, t, a, t');
      }
    } else {
      var t, a, t' := NotQuietMoves(jobs, s);
    }
  }

  /** Every undisturbed run that has nothing left to do has finished. */
  ghost predicate AlwaysFinishes(jobs: seq<WorkflowJob>) {
    forall s :: Reachable(jobs, Undisturbed, s) && Stuck(jobs, s) ==> !s.wf.WorkflowRunning?
  }

  lemma NoDeadlock(jobs: seq<WorkflowJob>, s: State)
    requires ValidWorkflow(jobs) && jobs != [] && forall j :: j in jobs ==> Benign(j)
    requires Reachable(jobs, Undisturbed, s) && Stuck(jobs, s)
    ensures (s.wf.WorkflowCompleted? || s.wf.WorkflowFailed?) && AllTerminal(s.st)
  {
    UndisturbedInv(jobs, s);
    if s.wf.WorkflowRunning? {
      StuckIffQuiescent(jobs, s);
      QuietMeansFinished(jobs, s);
    }
  }

  lemma QuietMeansFinished(jobs: seq<WorkflowJob>, s: State)
    requires ValidWorkflow(jobs) && s.st.Keys == NameSet(jobs)
    requires forall j :: j in jobs ==> Benign(j)
    requires FairInv(jobs, s) && Quiescent(jobs, s)
    ensures !s.wf.WorkflowRunning?
  {
    if s.wf.WorkflowRunning? {
      var waiting := set n | n in s.st && s.st[n].Pending?;
      forall n | n in waiting ensures NeedsWithin(jobs, waiting, n) {
        var j :| j in jobs && j.name == n;
        var d := BlockedWaitsForPending(jobs, s, j);
        assert DependsOn(jobs, n, d);
      }
      var n :| n in s.st && !IsTerminal(s.st[n]);
      assert n in waiting;
      var cycle := TrappedReachesCycle(jobs, waiting, n);
      assert Reaches(jobs, cycle[0], cycle[0]);
    }
  }

  // ---- What stalls a workflow ---------------------------------------------------

  /** Once a dependency has ended in a way the condition does not accept, the job never starts, whatever happens. */
  lemma {:induction false} NeverStarts(jobs: seq<WorkflowJob>, states: seq<State>, actions: seq<Action>, j: WorkflowJob,
                                       d: string, i: nat, k: nat)
    requires UniqueNames(jobs) && Run(jobs, states, actions) && i <= k < |states|
    requires j in jobs && d in j.dependsOn && d in states[i].st
    requires IsTerminal(states[i].st[d]) && !Satisfied(states[i].st[d], j.condition)
    ensures j.name in states[k].st && d in states[k].st && states[k].st[d] == states[i].st[d]
    ensures !WasStarted(states[k].st[j.name])
  {
    RunKeepsInv(jobs, states, actions, k);
    if k > i {
      NeverStarts(jobs, states, actions, j, d, i, k - 1);
      assert StepAt(jobs, states, actions, k - 1);
      StepAdvances(jobs, states[k - 1], actions[k - 1], states[k]);
    }
    assert WasStarted(states[k].st[j.name]) ==> DepsSatisfied(states[k].st, j);
  }

  /** A resting point of an undisturbed run: nothing in flight, every report processed. */
  ghost predicate Calm(jobs: seq<WorkflowJob>, s: State) {
    && Reachable(jobs, Undisturbed, s) && s.wf.WorkflowRunning? && s.reported == {} && s.st.Keys == NameSet(jobs)
    && forall n :: n in s.st ==> s.st[n].Pending? || s.st[n].Completed? || s.st[n].Failed? || s.st[n].Skipped?
  }

  /** j sits pending and the cascade never touches it. */
  ghost predicate Waits(jobs: seq<WorkflowJob>, j: WorkflowJob, s: State) {
    Calm(jobs, s) && j in jobs && !Benign(j) && j.name in s.st && s.st[j.name].Pending?
  }

  lemma CascadeSpares(jobs: seq<WorkflowJob>, j: WorkflowJob, n: string)
    requires UniqueNames(jobs) && j in jobs && !j.condition.OnSuccess?
    ensures !NeedsSuccessOf(jobs, j.name, n)
  {
  }

  lemma Process(jobs: seq<WorkflowJob>, j: WorkflowJob, s: State, n: string) returns (s': State)
    requires UniqueNames(jobs) && Reachable(jobs, Undisturbed, s) && s.wf.WorkflowRunning? && s.reported == {n}
    requires n in s.st
    requires j in jobs && !Benign(j) && j.name in s.st && s.st[j.name].Pending?
    ensures Reachable(jobs, Undisturbed, s') && s'.wf.WorkflowRunning? && s'.reported == {}
    ensures s.st[n].Failed? ==> s'.st == Cascade(jobs, s.st, n, {})
    ensures s.st[n].Completed? ==> s'.st == s.st
    ensures s'.st.Keys == s.st.Keys && s'.st[j.name].Pending?
  {
    s' := AfterNotify(jobs, s, n, {});
    CascadeSpares(jobs, j, n);
    assert !IsTerminal(s'.st[j.name]);
    ReachableStep(jobs, Undisturbed, s, Notify(n, {}), s');
  }

  /** Any other job that is ready may run and fail, with its cascade. */
  lemma FailNow(jobs: seq<WorkflowJob>, j: WorkflowJob, s: State, n: string) returns (s': State)
    requires UniqueNames(jobs) && Waits(jobs, j, s) && n in s.st && s.st[n].Pending? && n != j.name
    requires Unblocked(jobs, s.st, n) && Resolvable(jobs, s.st, n)
    ensures Waits(jobs, j, s') && s'.st == Cascade(jobs, s.st[n := Failed], n, {})
  {
    var s1 := RunOne(jobs, Undisturbed, s, n, false);
    s' := Process(jobs, j, s1, n);
  }

  /** Any other job that is ready may complete. */
  lemma CompleteNow(jobs: seq<WorkflowJob>, j: WorkflowJob, s: State, n: string) returns (s': State)
    requires UniqueNames(jobs) && Waits(jobs, j, s) && n in s.st && s.st[n].Pending? && n != j.name
    requires Unblocked(jobs, s.st, n) && Resolvable(jobs, s.st, n)
    ensures Waits(jobs, j, s') && s'.st == s.st[n := Completed]
  {
    var s1 := RunOne(jobs, Undisturbed, s, n, true);
    s' := Process(jobs, j, s1, n);
  }

  ghost predicate DeadEnd(j: WorkflowJob, s: State) {
    exists d :: d in j.dependsOn && d in s.st && IsTerminal(s.st[d]) && !Satisfied(s.st[d], j.condition)
  }

  /** Closed upstream: whatever a member depends on is a member, and every member is a benign job other than j. */
  ghost predicate BenignUpstream(jobs: seq<WorkflowJob>, j: WorkflowJob, up: set<string>) {
    && up <= NameSet(jobs) && j.name !in up
    && (forall n, d :: n in up && Reaches(jobs, n, d) ==> d in up)
    && (forall k :: k in jobs && k.name in up ==> Benign(k))
  }

  /** Of the upstream, `rest` is still pending and the others have completed. */
  ghost predicate Climbing(up: set<string>, rest: set<string>, s: State) {
    rest <= up <= s.st.Keys && forall n :: n in up ==> s.st[n] == if n in rest then Pending else Completed
  }

  /** A benign job with everything upstream completed is ready. */
  lemma ReadyAtTheTop(jobs: seq<WorkflowJob>, k: WorkflowJob, st: Statuses)
    requires ValidWorkflow(jobs) && k in jobs && Benign(k)
    requires forall d :: Reaches(jobs, k.name, d) ==> d in st && st[d].Completed?
    ensures Unblocked(jobs, st, k.name) && Resolvable(jobs, st, k.name)
  {
    forall d | d in k.dependsOn ensures d in st && Satisfied(st[d], k.condition) {
      assert DependsOn(jobs, k.name, d);
      EdgeReaches(jobs, k.name, d);
    }
    assert DepsSatisfied(st, k);
    forall u | ReadsFrom(jobs, k.name, u) ensures u in st && st[u].Completed? {
      var k', b :| k' in jobs && k'.name == k.name && b in k'.inputs && b.from != "" && SplitDotRef(b.from).0 == u;
      assert FromHolds(jobs, k', b);
    }
  }

  ghost predicate OthersPending(up: set<string>, s: State) {
    forall n :: n in s.st && n !in up ==> s.st[n].Pending?
  }

  /** One more job of the upstream can complete. */
  lemma ClimbOne(jobs: seq<WorkflowJob>, j: WorkflowJob, up: set<string>, rest: set<string>, s: State)
    returns (n: string, s': State)
    requires ValidWorkflow(jobs) && Waits(jobs, j, s) && BenignUpstream(jobs, j, up) && Climbing(up, rest, s)
    requires rest != {}
    ensures n in rest && Waits(jobs, j, s') && s'.st == s.st[n := Completed]
  {
    n := NextInPlan(jobs, rest);
    var k :| k in jobs && k.name == n;
    forall d | Reaches(jobs, n, d) ensures d in s.st && s.st[d].Completed? {
      assert d in up && d !in rest;
    }
    ReadyAtTheTop(jobs, k, s.st);
    s' := CompleteNow(jobs, j, s, n);
  }

  /** Run the upstream to completion, dependencies first. */
  lemma {:induction false} CompleteUpstream(jobs: seq<WorkflowJob>, j: WorkflowJob, up: set<string>, rest: set<string>,
                                            s: State)
    returns (s': State)
    requires ValidWorkflow(jobs) && Waits(jobs, j, s) && BenignUpstream(jobs, j, up) && Climbing(up, rest, s)
    requires OthersPending(up, s)
    ensures Waits(jobs, j, s') && Climbing(up, {}, s') && OthersPending(up, s')
    decreases |rest|
  {
    if rest == {} {
      s' := s;
    } else {
      var n, next := ClimbOne(jobs, j, up, rest, s);
      ClimbedOne(up, rest, s, n, next);
      s' := CompleteUpstream(jobs, j, up, rest - {n}, next);
    }
  }

  lemma ClimbedOne(up: set<string>, rest: set<string>, s: State, n: string, s': State)
    requires Climbing(up, rest, s) && OthersPending(up, s) && n in rest && s'.st == s.st[n := Completed]
    ensures Climbing(up, rest - {n}, s') && OthersPending(up, s')
  {
  }

  lemma DeadEndIsNotEligible(jobs: seq<WorkflowJob>, j: WorkflowJob, s: State)
    requires UniqueNames(jobs) && j in jobs && DeadEnd(j, s)
    ensures !Eligible(jobs, s.st, j.name)
  {
    forall k | k in jobs && k.name == j.name ensures !DepsSatisfied(s.st, k) {
      assert k == j;
    }
  }

  function PendingSet(st: Statuses): set<string> {
    set n | n in st && st[n].Pending?
  }

  lemma FailNowAtDeadEnd(jobs: seq<WorkflowJob>, j: WorkflowJob, s: State, n: string) returns (s': State)
    requires ValidWorkflow(jobs) && Waits(jobs, j, s) && DeadEnd(j, s) && Eligible(jobs, s.st, n)
    ensures Waits(jobs, j, s') && DeadEnd(j, s') && PendingSet(s'.st) < PendingSet(s.st)
  {
    DeadEndIsNotEligible(jobs, j, s);
    UndisturbedInv(jobs, s);
    EligibleIsResolvable(jobs, s, n);
    s' := FailNow(jobs, j, s, n);
    StaysDead(jobs, j, s, s', n);
  }

  lemma StaysDead(jobs: seq<WorkflowJob>, j: WorkflowJob, s: State, s': State, n: string)
    requires DeadEnd(j, s) && n in s.st && s.st[n].Pending? && s'.st == Cascade(jobs, s.st[n := Failed], n, {})
    ensures DeadEnd(j, s') && PendingSet(s'.st) < PendingSet(s.st)
  {
    var d :| d in j.dependsOn && d in s.st && IsTerminal(s.st[d]) && !Satisfied(s.st[d], j.condition);
    assert s'.st[d] == s.st[d];
    assert n in PendingSet(s.st) && n !in PendingSet(s'.st);
  }

  /** From a dead end everything that is ever ready can end, leaving a stalled workflow. */
  lemma {:induction false} DrainToStall(jobs: seq<WorkflowJob>, j: WorkflowJob, s: State) returns (s': State)
    requires ValidWorkflow(jobs) && Waits(jobs, j, s) && DeadEnd(j, s)
    ensures Reachable(jobs, Undisturbed, s') && Quiescent(jobs, s') && s'.wf.WorkflowRunning?
    decreases PendingSet(s.st)
  {
    if n :| n in s.st && Eligible(jobs, s.st, n) {
      var next := FailNowAtDeadEnd(jobs, j, s, n);
      s' := DrainToStall(jobs, j, next);
    } else {
      s' := s;
    }
  }

  /** Some job that waits for a failure (or for an unrecognised condition) has only benign jobs upstream. */
  lemma FirstBad(jobs: seq<WorkflowJob>) returns (j: WorkflowJob)
    requires ValidWorkflow(jobs) && exists j :: j in jobs && !Benign(j)
    ensures j in jobs && !Benign(j)
    ensures forall k :: k in jobs && Reaches(jobs, j.name, k.name) ==> Benign(k)
  {
    var bad := set k | k in jobs && !Benign(k) :: k.name;
    var j0 :| j0 in jobs && !Benign(j0);
    assert j0.name in bad;
    var n := NextInPlan(jobs, bad);
    j :| j in jobs && !Benign(j) && j.name == n;
    forall k | k in jobs && Reaches(jobs, j.name, k.name) ensures Benign(k) {
      assert k.name !in bad;
    }
  }

  ghost function UpstreamOf(jobs: seq<WorkflowJob>, n: string): set<string> {
    set m | m in NameSet(jobs) && Reaches(jobs, n, m)
  }

  lemma UpstreamIsBenign(jobs: seq<WorkflowJob>, j: WorkflowJob, d: string, withD: bool)
    requires ValidWorkflow(jobs) && j in jobs && d in j.dependsOn
    requires forall k :: k in jobs && Reaches(jobs, j.name, k.name) ==> Benign(k)
    ensures BenignUpstream(jobs, j, UpstreamOf(jobs, d) + if withD then {d} else {})
  {
    var up := UpstreamOf(jobs, d) + if withD then {d} else {};
    assert DependsOn(jobs, j.name, d);
    EdgeReaches(jobs, j.name, d);
    forall n | n in up ensures Reaches(jobs, j.name, n) && n != j.name {
      if n != d {
        ReachesTransitive(jobs, j.name, d, n);
      }
    }
    forall n, m | n in up && Reaches(jobs, n, m) ensures m in up {
      if n != d {
        ReachesTransitive(jobs, d, n, m);
      }
      var e := LastStep(jobs, d, m);
    }
  }

  /** Complete the upstream of a dependency of the waiting job, with the dependency itself if asked. */
  lemma Climb(jobs: seq<WorkflowJob>, j: WorkflowJob, d: string, withD: bool, s0: State) returns (s: State)
    requires ValidWorkflow(jobs) && Waits(jobs, j, s0) && d in j.dependsOn
    requires forall n :: n in s0.st ==> s0.st[n].Pending?
    requires forall k :: k in jobs && Reaches(jobs, j.name, k.name) ==> Benign(k)
    ensures var up := UpstreamOf(jobs, d) + if withD then {d} else {};
            Waits(jobs, j, s) && BenignUpstream(jobs, j, up) && Climbing(up, {}, s) && OthersPending(up, s)
  {
    var up := UpstreamOf(jobs, d) + if withD then {d} else {};
    assert d in NameSet(jobs);
    UpstreamIsBenign(jobs, j, d, withD);
    assert Climbing(up, up, s0) && OthersPending(up, s0);
    s := CompleteUpstream(jobs, j, up, up, s0);
  }

  lemma SpoilByCompleting(jobs: seq<WorkflowJob>, j: WorkflowJob, d: string, s0: State) returns (s: State)
    requires ValidWorkflow(jobs) && Waits(jobs, j, s0) && d in j.dependsOn
    requires forall n :: n in s0.st ==> s0.st[n].Pending?
    requires j.condition.OnFailure? && forall k :: k in jobs && Reaches(jobs, j.name, k.name) ==> Benign(k)
    ensures Waits(jobs, j, s) && DeadEnd(j, s)
  {
    s := Climb(jobs, j, d, true, s0);
    assert s.st[d].Completed?;
  }

  lemma SpoilByFailing(jobs: seq<WorkflowJob>, j: WorkflowJob, d: string, s0: State) returns (s: State)
    requires ValidWorkflow(jobs) && Waits(jobs, j, s0) && d in j.dependsOn
    requires forall n :: n in s0.st ==> s0.st[n].Pending?
    requires !j.condition.OnFailure? && forall k :: k in jobs && Reaches(jobs, j.name, k.name) ==> Benign(k)
    ensures Waits(jobs, j, s) && DeadEnd(j, s)
  {
    var ready := Climb(jobs, j, d, false, s0);
    assert UpstreamOf(jobs, d) + {} == UpstreamOf(jobs, d);
    s := FailTop(jobs, j, d, ready);
  }

  /** Bring the waiting job to a dead end: complete its dependency if it waits for a failure, else fail it. */
  lemma SpoilDependency(jobs: seq<WorkflowJob>, j: WorkflowJob, s0: State) returns (s: State)
    requires ValidWorkflow(jobs) && Waits(jobs, j, s0) && forall n :: n in s0.st ==> s0.st[n].Pending?
    requires forall k :: k in jobs && Reaches(jobs, j.name, k.name) ==> Benign(k)
    ensures Waits(jobs, j, s) && DeadEnd(j, s)
  {
    if j.condition.OnFailure? {
      s := SpoilByCompleting(jobs, j, j.dependsOn[0], s0);
    } else {
      s := SpoilByFailing(jobs, j, j.dependsOn[0], s0);
    }
  }

  lemma FailTop(jobs: seq<WorkflowJob>, j: WorkflowJob, d: string, s: State) returns (s': State)
    requires ValidWorkflow(jobs) && Waits(jobs, j, s) && d in j.dependsOn
    requires forall k :: k in jobs && Reaches(jobs, j.name, k.name) ==> Benign(k)
    requires BenignUpstream(jobs, j, UpstreamOf(jobs, d)) && Climbing(UpstreamOf(jobs, d), {}, s)
    requires OthersPending(UpstreamOf(jobs, d), s)
    ensures Waits(jobs, j, s') && d in s'.st && s'.st[d].Failed?
  {
    assert d in NameSet(jobs) && DependsOn(jobs, j.name, d);
    EdgeReaches(jobs, j.name, d);
    var k :| k in jobs && k.name == d;
    forall m | Reaches(jobs, d, m) ensures m in s.st && s.st[m].Completed? {
      var e := LastStep(jobs, d, m);
      assert m in UpstreamOf(jobs, d);
    }
    ReadyAtTheTop(jobs, k, s.st);
    s' := FailNow(jobs, j, s, d);
  }

  lemma CanStall(jobs: seq<WorkflowJob>) returns (s: State)
    requires ValidWorkflow(jobs) && exists j :: j in jobs && !Benign(j)
    ensures Reachable(jobs, Undisturbed, s) && Stuck(jobs, s) && s.wf.WorkflowRunning?
  {
    var j := FirstBad(jobs);
    var s0 := InitiallyReachable(jobs, Undisturbed);
    var s1 := SpoilDependency(jobs, j, s0);
    s := DrainToStall(jobs, j, s1);
    StuckIffQuiescent(jobs, s);
  }

  /**
   Undisturbed runs of an accepted workflow, with honest reports, end with a verdict exactly
   when no job with dependencies carries an on_failure (or unrecognised) condition.
   */
  lemma FinishesIff(jobs: seq<WorkflowJob>)
    requires ValidWorkflow(jobs) && jobs != []
    ensures AlwaysFinishes(jobs) <==> forall j :: j in jobs ==> Benign(j)
  {
    if forall j :: j in jobs ==> Benign(j) {
      forall s | Reachable(jobs, Undisturbed, s) && Stuck(jobs, s) ensures !s.wf.WorkflowRunning? {
        NoDeadlock(jobs, s);
      }
    } else {
      var s := CanStall(jobs);
    }
  }

  // ---- Only so many steps ---------------------------------------------------------

  /** How many steps a job has ahead of it at most. */
  function Ahead(s: Status): nat {
    match s
    case Pending => 5
    case Scheduled => 4
    case Dispatching => 3
    case Running => 2
    case _ => 0
  }

  ghost function Work(jobs: seq<WorkflowJob>, st: Statuses): nat {
    if jobs == [] then 0
    else Work(jobs[1..], st) + if jobs[0].name in st then Ahead(st[jobs[0].name]) else 0
  }

  ghost function Remaining(jobs: seq<WorkflowJob>, s: State): nat {
    Work(jobs, s.st) + |s.reported|
  }

  lemma {:induction false} WorkShrinks(jobs: seq<WorkflowJob>, st: Statuses, st': Statuses)
    requires st'.Keys == st.Keys && forall n :: n in st ==> Ahead(st'[n]) <= Ahead(st[n])
    ensures Work(jobs, st') <= Work(jobs, st)
    decreases |jobs|
  {
    if jobs == [] {
    } else {
      WorkShrinks(jobs[1..], st, st');
    }
  }

  lemma {:induction false} WorkDrops(jobs: seq<WorkflowJob>, st: Statuses, st': Statuses, n: string, drop: nat)
    requires st'.Keys == st.Keys && forall m :: m in st ==> Ahead(st'[m]) <= Ahead(st[m])
    requires n in NameSet(jobs) && n in st && Ahead(st'[n]) + drop <= Ahead(st[n])
    ensures Work(jobs, st') + drop <= Work(jobs, st)
    decreases |jobs|
  {
    if jobs[0].name == n {
      WorkShrinks(jobs[1..], st, st');
    } else {
      var j :| j in jobs && j.name == n;
      assert j in jobs[1..];
      WorkDrops(jobs[1..], st, st', n, drop);
    }
  }

  lemma NotifyLowers(jobs: seq<WorkflowJob>, s: State, n: string, s': State)
    requires n in s.reported && n in s.st && s' == AfterNotify(jobs, s, n, {})
    ensures Remaining(jobs, s') < Remaining(jobs, s)
  {
    WorkShrinks(jobs, s.st, s'.st);
    assert s.reported == s'.reported + {n};
  }

  lemma MoveLowers(jobs: seq<WorkflowJob>, s: State, n: string, to: Status, s': State)
    requires n in NameSet(jobs) && CanMove(s.st, n, to) && s'.st == s.st[n := to]
    requires (s'.reported == s.reported && Ahead(to) < Ahead(s.st[n]))
          || (s'.reported == s.reported + {n} && Ahead(to) + 2 <= Ahead(s.st[n]))
    ensures Remaining(jobs, s') < Remaining(jobs, s)
  {
    var drop := if s'.reported == s.reported then 1 else 2;
    WorkDrops(jobs, s.st, s'.st, n, drop);
    assert |s'.reported| <= |s.reported| + 1;
  }

  /** What an effective step other than a notification does to its job. */
  lemma EffectiveMove(jobs: seq<WorkflowJob>, s: State, a: Action, s': State)
    requires Effective(jobs, s, a, s') && !a.Notify?
    ensures a.n in s.st && a.n in s'.st && CanMove(s.st, a.n, s'.st[a.n]) && s'.st == s.st[a.n := s'.st[a.n]]
    ensures (s'.reported == s.reported && Ahead(s'.st[a.n]) < Ahead(s.st[a.n]))
         || (s'.reported == s.reported + {a.n} && Ahead(s'.st[a.n]) + 2 <= Ahead(s.st[a.n]))
  {
  }

  /** Every effective step leaves less to do. */
  lemma EffectiveLowers(jobs: seq<WorkflowJob>, s: State, a: Action, s': State)
    requires s.st.Keys == NameSet(jobs) && Effective(jobs, s, a, s')
    ensures Remaining(jobs, s') < Remaining(jobs, s)
  {
    if a.Notify? {
      NotifyLowers(jobs, s, a.n, s');
    } else {
      EffectiveMove(jobs, s, a, s');
      MoveLowers(jobs, s, a.n, s'.st[a.n], s');
    }
  }

  lemma {:induction false} WorkAtStart(jobs: seq<WorkflowJob>, st: Statuses)
    ensures Work(jobs, st) <= 5 * |jobs|
    decreases |jobs|
  {
    if jobs == [] {
    } else {
      WorkAtStart(jobs[1..], st);
    }
  }

  /** How many of the first i steps of a run were effective. */
  ghost function EffectiveCount(jobs: seq<WorkflowJob>, states: seq<State>, actions: seq<Action>, i: nat): nat
    requires |states| == |actions| + 1 && i <= |actions|
  {
    if i == 0 then 0
    else
      EffectiveCount(jobs, states, actions, i - 1) +
      if Effective(jobs, states[i - 1], actions[i - 1], states[i]) then 1 else 0
  }

  /** An undisturbed run takes at most five effective steps per job, so with FinishesIff it does reach its end. */
  lemma {:induction false} FewEffectiveSteps(jobs: seq<WorkflowJob>, states: seq<State>, actions: seq<Action>, i: nat)
    requires UniqueNames(jobs) && Run(jobs, states, actions) && i <= |actions|
    requires forall k :: 0 <= k < |actions| ==> Permitted(Undisturbed, states[k], actions[k])
    ensures EffectiveCount(jobs, states, actions, i) + Remaining(jobs, states[i]) <= 5 * |jobs|
  {
    if i == 0 {
      WorkAtStart(jobs, states[0].st);
    } else {
      FewEffectiveSteps(jobs, states, actions, i - 1);
      RunKeepsInv(jobs, states, actions, i - 1);
      assert StepAt(jobs, states, actions, i - 1);
      var s, a, s' := states[i - 1], actions[i - 1], states[i];
      if Effective(jobs, s, a, s') {
        EffectiveLowers(jobs, s, a, s');
      } else {
        assert s'.st == s.st && s'.reported == s.reported;
      }
    }
  }
}
