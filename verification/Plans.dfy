/**
 Which jobs of an accepted workflow can complete together, and when a job may rely on the
 outputs it reads: exact answers over all runs of the lifecycle.
 */
module Plans {
  import opened Workflows
  import opened Kahn
  import opened Dag
  import opened Lifecycle

  // ---- Which jobs can complete and fail together --------------------------------

  predicate RequiresSuccess(condition: Condition) {
    condition.OnSuccess? || condition.OtherCondition?
  }

  function CompletedSet(st: Statuses): set<string> {
    set n | n in st && st[n].Completed?
  }

  function FailedOnly(st: Statuses): set<string> {
    set n | n in st && st[n].Failed?
  }

  /** The dependencies of j allow it to run when these jobs complete and those fail. */
  ghost predicate MayRun(j: WorkflowJob, done: set<string>, failed: set<string>) {
    && (RequiresSuccess(j.condition) ==> forall d :: d in j.dependsOn ==> d in done)
    && (j.condition.OnFailure? ==> forall d :: d in j.dependsOn ==> d in failed)
  }

  /**
   A plan asks nothing impossible: the jobs it completes may run and have all they read from
   completed. With honest reports the jobs it fails must have been able to run as well.
   */
  ghost predicate Plan(jobs: seq<WorkflowJob>, mode: Mode, done: set<string>, failed: set<string>) {
    && done <= NameSet(jobs) && failed <= NameSet(jobs) && done !! failed
    && (forall j :: j in jobs && j.name in done ==> MayRun(j, done, failed))
    && (!mode.AnyReports? ==> forall j :: j in jobs && j.name in failed ==> MayRun(j, done, failed))
    && (forall n, u :: n in done && ReadsFrom(jobs, n, u) ==> u in done)
  }

  /** In every reachable state the completed and the failed jobs form a plan. */
  lemma OutcomeIsPlan(jobs: seq<WorkflowJob>, mode: Mode, s: State)
    requires UniqueNames(jobs) && Reachable(jobs, mode, s)
    ensures Plan(jobs, mode, CompletedSet(s.st), FailedOnly(s.st))
  {
    ReachableInv(jobs, mode, s);
    ReachableFailures(jobs, mode, s);
    var done, failed := CompletedSet(s.st), FailedOnly(s.st);
    forall j | j in jobs && j.name in s.st && DepsSatisfied(s.st, j) ensures MayRun(j, done, failed) {
    }
    forall n, u | n in done && ReadsFrom(jobs, n, u) ensures u in done {
      assert Resolvable(jobs, s.st, n);
    }
  }

  // ---- Every plan can be carried out ----------------------------------------------

  /**
   * Where a job stands when the jobs in `over` have ended as planned and those in `left`, outside the plan, are
   * untouched.
   */
  function Target(done: set<string>, failed: set<string>, over: set<string>, left: set<string>, n: string): Status {
    if n in done then (if n in over then Completed else Pending)
    else if n in failed then (if n in over then Failed else Pending)
    else if n in left then Pending
    else Cancelled
  }

  ghost predicate OnTheWay(jobs: seq<WorkflowJob>, mode: Mode, done: set<string>, failed: set<string>,
                           over: set<string>, left: set<string>, s: State) {
    && Reachable(jobs, mode, s) && s.wf.WorkflowRunning? && s.st.Keys == NameSet(jobs)
    && forall n :: n in s.st ==> s.st[n] == Target(done, failed, over, left, n)
  }

  /** First every job outside the plan is cancelled. */
  lemma {:induction false} ClearOutsiders(jobs: seq<WorkflowJob>, mode: Mode, done: set<string>, failed: set<string>,
                                          left: set<string>, s: State)
    returns (s': State)
    requires !mode.Undisturbed? && OnTheWay(jobs, mode, done, failed, {}, left, s)
    requires left !! done && left !! failed && left <= NameSet(jobs)
    ensures OnTheWay(jobs, mode, done, failed, {}, {}, s')
    decreases |left|
  {
    if left == {} {
      s' := s;
    } else {
      var n :| n in left;
      var next := CancelPending(jobs, mode, s, n);
      OneOutsiderLess(jobs, mode, done, failed, left, s, n, next);
      s' := ClearOutsiders(jobs, mode, done, failed, left - {n}, next);
    }
  }

  lemma OneOutsiderLess(jobs: seq<WorkflowJob>, mode: Mode, done: set<string>, failed: set<string>,
                        left: set<string>, s: State, n: string, s': State)
    requires OnTheWay(jobs, mode, done, failed, {}, left, s) && n in s.st && n in left && n !in done && n !in failed
    requires Reachable(jobs, mode, s') && s' == s.(st := s.st[n := Cancelled])
    ensures OnTheWay(jobs, mode, done, failed, {}, left - {n}, s')
  {
    assert s'.st.Keys == s.st.Keys;
    forall m | m in s'.st ensures s'.st[m] == Target(done, failed, {}, left - {n}, m) {
      assert m != n ==> s'.st[m] == s.st[m] == Target(done, failed, {}, left, m);
    }
  }

  lemma CancelPending(jobs: seq<WorkflowJob>, mode: Mode, s: State, n: string) returns (s': State)
    requires !mode.Undisturbed? && Reachable(jobs, mode, s) && n in s.st && s.st[n].Pending?
    ensures Reachable(jobs, mode, s') && s' == s.(st := s.st[n := Cancelled])
  {
    s' := s.(st := s.st[n := Cancelled]);
    assert s' == s.(st := CancelOne(s.st, n, true));
    ReachableStep(jobs, mode, s, CancelJob(n), s');
  }

  /** Some unfinished member of the plan needs no other unfinished member. */
  lemma NextInPlan(jobs: seq<WorkflowJob>, rest: set<string>) returns (n: string)
    requires Acyclic(jobs) && rest != {} && rest <= NameSet(jobs)
    ensures n in rest && !ReachesInto(jobs, rest, n)
  {
    if exists x :: x in rest && !ReachesInto(jobs, rest, x) {
      n :| n in rest && !ReachesInto(jobs, rest, n);
    } else {
      n :| n in rest;
      AllReachEachOther(jobs, rest, n);
    }
  }

  lemma AllReachEachOther(jobs: seq<WorkflowJob>, rest: set<string>, n: string)
    requires n in rest && rest <= NameSet(jobs)
    requires forall x {:trigger ReachesInto(jobs, rest, x)} :: x in rest ==> ReachesInto(jobs, rest, x)
    ensures !Acyclic(jobs)
  {
    var s := set x | x in NameSet(jobs) && ReachesInto(jobs, rest, x);
    forall x | x in s ensures NeedsWithin(jobs, s, x) {
      var m :| m in rest && Reaches(jobs, x, m);
      var d := FirstStep(jobs, x, m);
      assert ReachesInto(jobs, rest, d);
      ReachesFromAName(jobs, rest, d);
    }
    assert ReachesInto(jobs, rest, n);
    var cycle := TrappedReachesCycle(jobs, s, n);
    assert Reaches(jobs, cycle[0], cycle[0]);
  }

  lemma ReachesFromAName(jobs: seq<WorkflowJob>, rest: set<string>, x: string)
    requires ReachesInto(jobs, rest, x)
    ensures x in NameSet(jobs)
  {
    var m :| m in rest && Reaches(jobs, x, m);
    var d := FirstStep(jobs, x, m);
  }

  ghost predicate ReachesInto(jobs: seq<WorkflowJob>, rest: set<string>, x: string) {
    exists m :: m in rest && Reaches(jobs, x, m)
  }

  /** A member of the plan that may run, and needs no unfinished member, can be offered. */
  lemma MemberIsReady(jobs: seq<WorkflowJob>, mode: Mode, done: set<string>, failed: set<string>, over: set<string>,
                      s: State, j: WorkflowJob)
    requires KnownDependencies(jobs) && OnTheWay(jobs, mode, done, failed, over, {}, s)
    requires j in jobs && MayRun(j, done, failed) && !ReachesInto(jobs, done + failed - over, j.name) && done !! failed
    ensures Unblocked(jobs, s.st, j.name)
  {
    forall d | d in j.dependsOn ensures d in s.st && Satisfied(s.st[d], j.condition) {
      assert DependsOn(jobs, j.name, d);
      EdgeReaches(jobs, j.name, d);
      assert d !in done + failed - over;
      assert s.st[d] == Target(done, failed, over, {}, d);
    }
    assert DepsSatisfied(s.st, j);
  }

  lemma MemberIsResolvable(jobs: seq<WorkflowJob>, mode: Mode, done: set<string>, failed: set<string>,
                           over: set<string>, s: State, n: string)
    requires FromsHold(jobs) && Plan(jobs, mode, done, failed) && OnTheWay(jobs, mode, done, failed, over, {}, s)
    requires n in done && !ReachesInto(jobs, done + failed - over, n)
    ensures Resolvable(jobs, s.st, n)
  {
    forall u | ReadsFrom(jobs, n, u) ensures u in s.st && s.st[u].Completed? {
      var k, b :| k in jobs && k.name == n && b in k.inputs && b.from != "" && SplitDotRef(b.from).0 == u;
      assert FromHolds(jobs, k, b);
      assert u !in done + failed - over;
      assert s.st[u] == Target(done, failed, over, {}, u);
    }
  }

  lemma ReachableMove(jobs: seq<WorkflowJob>, mode: Mode, s: State, a: Action, n: string, to: Status)
    returns (s': State)
    requires Reachable(jobs, mode, s) && CanMove(s.st, n, to)
    requires (a == Schedule(n) && to == Scheduled && n in s.offered && Resolvable(jobs, s.st, n))
          || (a == Dispatch(n) && to == Dispatching && s.st[n].Scheduled?)
          || (a == ReportRunning(n) && to == Running)
    ensures s' == s.(st := s.st[n := to]) && Reachable(jobs, mode, s')
  {
    s' := s.(st := Move(s.st, n, to, true));
    assert Moves(s, n, to, s');
    ReachableStep(jobs, mode, s, a, s');
  }

  /** Offer, schedule and dispatch one job. */
  lemma StartOne(jobs: seq<WorkflowJob>, mode: Mode, s: State, n: string) returns (s': State)
    requires Reachable(jobs, mode, s) && s.wf.WorkflowRunning? && n in s.st && s.st[n].Pending?
    requires Unblocked(jobs, s.st, n) && Resolvable(jobs, s.st, n)
    ensures Reachable(jobs, mode, s') && s' == s.(st := s.st[n := Running], offered := {n})
  {
    var s1 := s.(offered := {n});
    ReachableStep(jobs, mode, s, Tick, s1);
    var s2 := ReachableMove(jobs, mode, s1, Schedule(n), n, Scheduled);
    s' := DispatchOne(jobs, mode, s2, n);
    assert s'.st == s.st[n := Running];
  }

  lemma DispatchOne(jobs: seq<WorkflowJob>, mode: Mode, s: State, n: string) returns (s': State)
    requires Reachable(jobs, mode, s) && n in s.st && s.st[n].Scheduled?
    ensures Reachable(jobs, mode, s') && s' == s.(st := s.st[n := Running])
  {
    var next := ReachableMove(jobs, mode, s, Dispatch(n), n, Dispatching);
    s' := ReachableMove(jobs, mode, next, ReportRunning(n), n, Running);
    assert s'.st == s.st[n := Running];
  }

  lemma ReportOne(jobs: seq<WorkflowJob>, mode: Mode, s: State, n: string, success: bool) returns (s': State)
    requires Reachable(jobs, mode, s) && n in s.st && s.st[n].Running?
    ensures Reachable(jobs, mode, s')
    ensures s' == s.(st := s.st[n := if success then Completed else Failed], reported := s.reported + {n})
  {
    s' := s.(st := s.st[n := if success then Completed else Failed], reported := s.reported + {n});
    ReachableStep(jobs, mode, s, ReportFinal(n, success), s');
  }

  /** Start one job and report its end. */
  lemma RunOne(jobs: seq<WorkflowJob>, mode: Mode, s: State, n: string, success: bool) returns (s': State)
    requires Reachable(jobs, mode, s) && s.wf.WorkflowRunning? && n in s.st && s.st[n].Pending?
    requires Unblocked(jobs, s.st, n) && Resolvable(jobs, s.st, n)
    ensures Reachable(jobs, mode, s')
    ensures s' == s.(st := s.st[n := if success then Completed else Failed], offered := {n},
                     reported := s.reported + {n})
  {
    var running := StartOne(jobs, mode, s, n);
    s' := ReportOne(jobs, mode, running, n, success);
    assert s'.st == s.st[n := if success then Completed else Failed];
  }

  /** A job whose inputs cannot be resolved fails when it is offered. */
  lemma FailUnresolved(jobs: seq<WorkflowJob>, mode: Mode, s: State, n: string) returns (s': State)
    requires !mode.Undisturbed? && Reachable(jobs, mode, s) && s.wf.WorkflowRunning? && n in s.st && s.st[n].Pending?
    requires Unblocked(jobs, s.st, n) && !Resolvable(jobs, s.st, n)
    ensures Reachable(jobs, mode, s') && s'.wf == s.wf && s'.st == s.st[n := Failed]
  {
    var s1 := s.(offered := {n});
    ReachableStep(jobs, mode, s, Tick, s1);
    var u :| ReadsFrom(jobs, n, u) && !(u in s.st && s.st[u].Completed?);
    assert ReadsSomething(jobs, n);
    s' := s1.(st := Move(s1.st, n, Failed, true));
    assert Moves(s1, n, Failed, s');
    ReachableStep(jobs, mode, s1, ResolveFailure(n), s');
  }

  /**
   * A member of the plan that is to fail, fails: by a report for the pending job where that is allowed, else when it
   * runs or is resolved.
   */
  lemma FailMember(jobs: seq<WorkflowJob>, mode: Mode, s: State, n: string) returns (s': State)
    requires !mode.Undisturbed? && Reachable(jobs, mode, s) && s.wf.WorkflowRunning? && n in s.st && s.st[n].Pending?
    requires mode.AnyReports? || Unblocked(jobs, s.st, n)
    ensures Reachable(jobs, mode, s') && s'.wf == s.wf && s'.st == s.st[n := Failed]
  {
    if mode.AnyReports? {
      s' := s.(st := s.st[n := Failed], reported := s.reported + {n});
      ReachableStep(jobs, mode, s, ReportFinal(n, false), s');
    } else if Resolvable(jobs, s.st, n) {
      s' := RunOne(jobs, mode, s, n, false);
    } else {
      s' := FailUnresolved(jobs, mode, s, n);
    }
  }

  /** One more member of the plan can be brought to its end. */
  lemma AdvancePlan(jobs: seq<WorkflowJob>, mode: Mode, done: set<string>, failed: set<string>, over: set<string>,
                    s: State)
    returns (n: string, s': State)
    requires ValidWorkflow(jobs) && !mode.Undisturbed? && Plan(jobs, mode, done, failed) && done + failed - over != {}
    requires OnTheWay(jobs, mode, done, failed, over, {}, s)
    ensures n in done + failed - over && OnTheWay(jobs, mode, done, failed, over + {n}, {}, s')
  {
    n := NextInPlan(jobs, done + failed - over);
    s' := EndMember(jobs, mode, done, failed, over, s, n);
    EndsOneMore(jobs, mode, done, failed, over, s, n, s');
  }

  lemma EndMember(jobs: seq<WorkflowJob>, mode: Mode, done: set<string>, failed: set<string>, over: set<string>,
                  s: State, n: string)
    returns (s': State)
    requires ValidWorkflow(jobs) && !mode.Undisturbed? && Plan(jobs, mode, done, failed)
    requires OnTheWay(jobs, mode, done, failed, over, {}, s)
    requires n in done + failed - over && !ReachesInto(jobs, done + failed - over, n)
    ensures Reachable(jobs, mode, s') && s'.wf == s.wf && s'.st == s.st[n := if n in done then Completed else Failed]
  {
    var j :| j in jobs && j.name == n;
    assert s.st[n] == Target(done, failed, over, {}, n);
    if n in done {
      MemberIsReady(jobs, mode, done, failed, over, s, j);
      MemberIsResolvable(jobs, mode, done, failed, over, s, n);
      s' := RunOne(jobs, mode, s, n, true);
    } else {
      if !mode.AnyReports? {
        MemberIsReady(jobs, mode, done, failed, over, s, j);
      }
      s' := FailMember(jobs, mode, s, n);
    }
  }

  lemma EndsOneMore(jobs: seq<WorkflowJob>, mode: Mode, done: set<string>, failed: set<string>, over: set<string>,
                    s: State, n: string, s': State)
    requires OnTheWay(jobs, mode, done, failed, over, {}, s) && n in done + failed && n in s.st
    requires Reachable(jobs, mode, s') && s'.st == s.st[n := if n in done then Completed else Failed] && s'.wf == s.wf
    ensures OnTheWay(jobs, mode, done, failed, over + {n}, {}, s')
  {
    forall m | m in s'.st ensures s'.st[m] == Target(done, failed, over + {n}, {}, m) {
      TargetMoves(done, failed, over, n, m);
      assert m in s.st && s.st[m] == Target(done, failed, over, {}, m);
    }
  }

  lemma TargetMoves(done: set<string>, failed: set<string>, over: set<string>, n: string, m: string)
    requires n in done + failed
    ensures Target(done, failed, over + {n}, {}, m) ==
              if m != n then Target(done, failed, over, {}, m) else if n in done then Completed else Failed
  {
  }

  lemma {:induction false} CompletePlan(jobs: seq<WorkflowJob>, mode: Mode, done: set<string>, failed: set<string>,
                                        over: set<string>, s: State)
    returns (s': State)
    requires ValidWorkflow(jobs) && !mode.Undisturbed? && Plan(jobs, mode, done, failed)
    requires OnTheWay(jobs, mode, done, failed, over, {}, s)
    ensures Reachable(jobs, mode, s') && s'.wf.WorkflowRunning? && s'.st.Keys == NameSet(jobs)
    ensures CompletedSet(s'.st) == done && FailedOnly(s'.st) == failed
    decreases done + failed - over
  {
    if done + failed - over == {} {
      s' := s;
      AllOver(jobs, mode, done, failed, over, s);
    } else {
      var n, next := AdvancePlan(jobs, mode, done, failed, over, s);
      s' := CompletePlan(jobs, mode, done, failed, over + {n}, next);
    }
  }

  lemma AllOver(jobs: seq<WorkflowJob>, mode: Mode, done: set<string>, failed: set<string>, over: set<string>, s: State)
    requires OnTheWay(jobs, mode, done, failed, over, {}, s) && done + failed - over == {} && done !! failed
    requires done <= NameSet(jobs) && failed <= NameSet(jobs)
    ensures CompletedSet(s.st) == done && FailedOnly(s.st) == failed
  {
    forall n | n in s.st ensures s.st[n].Completed? <==> n in done ensures s.st[n].Failed? <==> n in failed {
      assert s.st[n] == Target(done, failed, over, {}, n);
      assert n !in done + failed - over;
    }
  }

  lemma InitiallyReachable(jobs: seq<WorkflowJob>, mode: Mode) returns (s: State)
    ensures Started(jobs, s) && Reachable(jobs, mode, s)
  {
    s := State(AllPending(jobs), WorkflowRunning, {}, {});
    assert RunTo(jobs, mode, [s], [], s);
  }

  lemma RealizePlan(jobs: seq<WorkflowJob>, mode: Mode, done: set<string>, failed: set<string>) returns (s: State)
    requires ValidWorkflow(jobs) && !mode.Undisturbed? && Plan(jobs, mode, done, failed)
    ensures Reachable(jobs, mode, s) && s.wf.WorkflowRunning? && s.st.Keys == NameSet(jobs)
    ensures CompletedSet(s.st) == done && FailedOnly(s.st) == failed
  {
    var s0 := InitiallyReachable(jobs, mode);
    var s1 := ClearOutsiders(jobs, mode, done, failed, NameSet(jobs) - done - failed, s0);
    s := CompletePlan(jobs, mode, done, failed, {}, s1);
  }

  /**
   The jobs of an accepted workflow that can have completed, with those that failed, are
   exactly its plans, both for honest reports and for any reports the handler takes.
   */
  lemma OutcomeIffPlan(jobs: seq<WorkflowJob>, mode: Mode, done: set<string>, failed: set<string>)
    requires ValidWorkflow(jobs) && !mode.Undisturbed?
    ensures (exists s :: Reachable(jobs, mode, s) && CompletedSet(s.st) == done && FailedOnly(s.st) == failed)
       <==> Plan(jobs, mode, done, failed)
  {
    if s :| Reachable(jobs, mode, s) && CompletedSet(s.st) == done && FailedOnly(s.st) == failed {
      OutcomeIsPlan(jobs, mode, s);
    }
    if Plan(jobs, mode, done, failed) {
      var s := RealizePlan(jobs, mode, done, failed);
    }
  }

  // ---- When artifact resolution is safe ----------------------------------------

  /** Whenever the dispatch loop offers j, its upstream u has completed. */
  ghost predicate AlwaysResolved(jobs: seq<WorkflowJob>, mode: Mode, j: WorkflowJob, u: string) {
    forall s :: Reachable(jobs, mode, s) && j.name in s.offered ==> u in s.st && s.st[u].Completed?
  }

  /** Every plan that completes all dependencies of j also completes u. */
  ghost predicate Implied(jobs: seq<WorkflowJob>, mode: Mode, j: WorkflowJob, u: string) {
    forall done, failed :: Plan(jobs, mode, done, failed) && (forall d :: d in j.dependsOn ==> d in done) ==> u in done
  }

  /**
   Acceptance alone does not guarantee that a `from` upstream has completed when its reader is
   offered; it does exactly when every plan for the reader's dependencies includes the upstream.
   */
  lemma ResolutionIsSafeIff(jobs: seq<WorkflowJob>, mode: Mode, j: WorkflowJob, u: string)
    requires ValidWorkflow(jobs) && !mode.Undisturbed? && j in jobs && j.condition.OnSuccess?
    ensures AlwaysResolved(jobs, mode, j, u) <==> Implied(jobs, mode, j, u)
  {
    if Implied(jobs, mode, j, u) {
      forall s | Reachable(jobs, mode, s) && j.name in s.offered ensures u in s.st && s.st[u].Completed? {
        OfferedIsResolved(jobs, mode, j, u, s);
      }
    }
    if AlwaysResolved(jobs, mode, j, u) {
      forall done, failed | Plan(jobs, mode, done, failed) && (forall d :: d in j.dependsOn ==> d in done)
        ensures u in done
      {
        var s := RealizePlan(jobs, mode, done, failed);
        assert DepsSatisfied(s.st, j);
        var s' := s.(offered := {j.name});
        ReachableStep(jobs, mode, s, Tick, s');
      }
    }
  }

  lemma OfferedIsResolved(jobs: seq<WorkflowJob>, mode: Mode, j: WorkflowJob, u: string, s: State)
    requires UniqueNames(jobs) && j in jobs && j.condition.OnSuccess? && Implied(jobs, mode, j, u)
    requires Reachable(jobs, mode, s) && j.name in s.offered
    ensures u in s.st && s.st[u].Completed?
  {
    ReachableInv(jobs, mode, s);
    OutcomeIsPlan(jobs, mode, s);
    var k :| k in jobs && k.name == j.name && DepsSatisfied(s.st, k);
    assert k == j;
    assert u in CompletedSet(s.st);
  }

  // ---- The condition in a form that can be computed ------------------------------------

  /** Jobs whose completion, and jobs whose failure, is forced. */
  datatype Forced = Forced(done: set<string>, failed: set<string>)

  predicate MustRun(mode: Mode, f: Forced, n: string) {
    n in f.done || (!mode.AnyReports? && n in f.failed)
  }

  /**
   * What the forced jobs force in turn: their success dependencies and reads complete, their on_failure dependencies
   * fail.
   */
  function Consequences(jobs: seq<WorkflowJob>, mode: Mode, f: Forced): Forced {
    Forced(
      f.done
      + (set k, d | k in jobs && MustRun(mode, f, k.name) && RequiresSuccess(k.condition) && d in k.dependsOn :: d)
      + (set k, b | k in jobs && k.name in f.done && b in k.inputs && b.from != "" :: SplitDotRef(b.from).0),
      f.failed
      + (set k, d | k in jobs && MustRun(mode, f, k.name) && k.condition.OnFailure? && d in k.dependsOn :: d))
  }

  ghost predicate Within(f: Forced, g: Forced) {
    f.done <= g.done && f.failed <= g.failed
  }

  lemma ConsequencesAreJobs(jobs: seq<WorkflowJob>, mode: Mode, f: Forced)
    requires ValidWorkflow(jobs) && Within(f, Forced(NameSet(jobs), NameSet(jobs)))
    ensures Within(Consequences(jobs, mode, f), Forced(NameSet(jobs), NameSet(jobs)))
  {
    forall k, b | k in jobs && b in k.inputs && b.from != "" ensures SplitDotRef(b.from).0 in NameSet(jobs) {
      assert FromHolds(jobs, k, b);
    }
  }

  /** Everything forced by f: the least fixed point above it. */
  function Closure(jobs: seq<WorkflowJob>, mode: Mode, f: Forced): (g: Forced)
    requires ValidWorkflow(jobs) && Within(f, Forced(NameSet(jobs), NameSet(jobs)))
    ensures Within(f, g) && Within(g, Forced(NameSet(jobs), NameSet(jobs))) && Consequences(jobs, mode, g) == g
    decreases |NameSet(jobs) - f.done| + |NameSet(jobs) - f.failed|
  {
    var next := Consequences(jobs, mode, f);
    if next == f then f
    else
      ConsequencesAreJobs(jobs, mode, f);
      ClosureShrinks(NameSet(jobs), f, next);
      Closure(jobs, mode, next)
  }

  lemma ClosureShrinks(names: set<string>, f: Forced, g: Forced)
    requires Within(f, g) && f != g && Within(g, Forced(names, names))
    ensures |names - g.done| + |names - g.failed| < |names - f.done| + |names - f.failed|
  {
    SmallerRest(names, f.done, g.done);
    SmallerRest(names, f.failed, g.failed);
  }

  lemma SmallerRest(names: set<string>, a: set<string>, b: set<string>)
    requires a <= b <= names
    ensures |names - b| <= |names - a| && (a != b ==> |names - b| < |names - a|)
  {
    assert names - a == (names - b) + (b - a);
    assert |names - a| == |names - b| + |b - a|;
    if a != b {
      assert b - a != {};
    }
  }

  /** A plan forces nothing it does not contain. */
  lemma PlanIsClosed(jobs: seq<WorkflowJob>, mode: Mode, done: set<string>, failed: set<string>, f: Forced)
    requires Plan(jobs, mode, done, failed) && Within(f, Forced(done, failed))
    ensures Within(Consequences(jobs, mode, f), Forced(done, failed))
  {
    forall k, d | k in jobs && MustRun(mode, f, k.name) && d in k.dependsOn
      ensures (RequiresSuccess(k.condition) ==> d in done) && (k.condition.OnFailure? ==> d in failed)
    {
      assert MayRun(k, done, failed);
    }
    forall k, b | k in jobs && k.name in f.done && b in k.inputs && b.from != "" ensures SplitDotRef(b.from).0 in done {
      assert ReadsFrom(jobs, k.name, SplitDotRef(b.from).0);
    }
  }

  lemma {:induction false} ClosureIsLeast(jobs: seq<WorkflowJob>, mode: Mode, f: Forced, done: set<string>,
                                          failed: set<string>)
    requires ValidWorkflow(jobs) && Within(f, Forced(NameSet(jobs), NameSet(jobs)))
    requires Plan(jobs, mode, done, failed) && Within(f, Forced(done, failed))
    ensures Within(Closure(jobs, mode, f), Forced(done, failed))
    decreases |NameSet(jobs) - f.done| + |NameSet(jobs) - f.failed|
  {
    var next := Consequences(jobs, mode, f);
    if next == f {
    } else {
      PlanIsClosed(jobs, mode, done, failed, f);
      ConsequencesAreJobs(jobs, mode, f);
      ClosureShrinks(NameSet(jobs), f, next);
      ClosureIsLeast(jobs, mode, next, done, failed);
    }
  }

  /** A closed pair that does not contradict itself is a plan. */
  lemma ClosedIsPlan(jobs: seq<WorkflowJob>, mode: Mode, g: Forced)
    requires Within(g, Forced(NameSet(jobs), NameSet(jobs))) && Consequences(jobs, mode, g) == g && g.done !! g.failed
    ensures Plan(jobs, mode, g.done, g.failed)
  {
    var next := Consequences(jobs, mode, g);
    forall j | j in jobs && MustRun(mode, g, j.name) ensures MayRun(j, g.done, g.failed) {
      forall d | d in j.dependsOn
        ensures (RequiresSuccess(j.condition) ==> d in g.done) && (j.condition.OnFailure? ==> d in g.failed)
      {
        assert RequiresSuccess(j.condition) ==> d in next.done;
        assert j.condition.OnFailure? ==> d in next.failed;
      }
    }
    forall n, u | n in g.done && ReadsFrom(jobs, n, u) ensures u in g.done {
      var j, b :| j in jobs && j.name == n && b in j.inputs && b.from != "" && SplitDotRef(b.from).0 == u;
      assert u in next.done;
    }
  }

  /** What running j forces: its dependencies complete, and everything that follows. */
  function ForcedBy(jobs: seq<WorkflowJob>, mode: Mode, j: WorkflowJob): Forced
    requires ValidWorkflow(jobs) && j in jobs
  {
    Closure(jobs, mode, Forced(set d | d in j.dependsOn, {}))
  }

  /** Every plan in which j can be offered contains what j forces. */
  lemma PlansContainForced(jobs: seq<WorkflowJob>, mode: Mode, j: WorkflowJob, done: set<string>, failed: set<string>)
    requires ValidWorkflow(jobs) && j in jobs && Plan(jobs, mode, done, failed)
    requires forall d :: d in j.dependsOn ==> d in done
    ensures Within(ForcedBy(jobs, mode, j), Forced(done, failed))
  {
    ClosureIsLeast(jobs, mode, Forced(set d | d in j.dependsOn, {}), done, failed);
  }

  /** No job is forced both to complete and to fail. */
  predicate Consistent(g: Forced) {
    g.done !! g.failed
  }

  lemma ForcedIsImplied(jobs: seq<WorkflowJob>, mode: Mode, j: WorkflowJob, u: string)
    requires ValidWorkflow(jobs) && j in jobs
    requires u in ForcedBy(jobs, mode, j).done || !Consistent(ForcedBy(jobs, mode, j))
    ensures Implied(jobs, mode, j, u)
  {
    forall done, failed | Plan(jobs, mode, done, failed) && (forall d :: d in j.dependsOn ==> d in done)
      ensures u in done
    {
      PlansContainForced(jobs, mode, j, done, failed);
    }
  }

  lemma ForcedHasDependencies(jobs: seq<WorkflowJob>, mode: Mode, j: WorkflowJob, d: string)
    requires ValidWorkflow(jobs) && j in jobs && d in j.dependsOn
    ensures d in ForcedBy(jobs, mode, j).done
  {
    var f := Forced(set x | x in j.dependsOn, {});
    assert d in f.done && Within(f, Closure(jobs, mode, f));
  }

  lemma ForcedIsAPlan(jobs: seq<WorkflowJob>, mode: Mode, j: WorkflowJob, g: Forced)
    requires ValidWorkflow(jobs) && j in jobs && g == ForcedBy(jobs, mode, j) && Consistent(g)
    ensures Plan(jobs, mode, g.done, g.failed)
  {
    ClosedIsPlan(jobs, mode, g);
  }

  lemma ImpliedIffForced(jobs: seq<WorkflowJob>, mode: Mode, j: WorkflowJob, u: string)
    requires ValidWorkflow(jobs) && j in jobs
    ensures Implied(jobs, mode, j, u) <==> u in ForcedBy(jobs, mode, j).done || !Consistent(ForcedBy(jobs, mode, j))
  {
    var g := ForcedBy(jobs, mode, j);
    if u in g.done || !Consistent(g) {
      ForcedIsImplied(jobs, mode, j, u);
    } else {
      ForcedIsAPlan(jobs, mode, j, g);
      forall d | d in j.dependsOn ensures d in g.done {
        ForcedHasDependencies(jobs, mode, j, d);
      }
    }
  }

  /**
   The exact condition as a validator could compute it: an upstream is always completed when j is
   offered exactly when running j forces its completion, or forces a contradiction, so that j is
   never offered.
   */
  lemma ResolutionIsSafeIffForced(jobs: seq<WorkflowJob>, mode: Mode, j: WorkflowJob, u: string)
    requires ValidWorkflow(jobs) && !mode.Undisturbed? && j in jobs && j.condition.OnSuccess?
    ensures AlwaysResolved(jobs, mode, j, u) <==>
      u in ForcedBy(jobs, mode, j).done || !Consistent(ForcedBy(jobs, mode, j))
  {
    ResolutionIsSafeIff(jobs, mode, j, u);
    ImpliedIffForced(jobs, mode, j, u);
  }

  /** In particular a direct dependency is always safe to read from. */
  lemma DirectDependencyIsSafe(jobs: seq<WorkflowJob>, mode: Mode, j: WorkflowJob, u: string)
    requires ValidWorkflow(jobs) && j in jobs && j.condition.OnSuccess? && u in j.dependsOn
    ensures AlwaysResolved(jobs, mode, j, u)
  {
    forall s | Reachable(jobs, mode, s) && j.name in s.offered ensures u in s.st && s.st[u].Completed? {
      OfferedIsResolved(jobs, mode, j, u, s);
    }
  }

  const READER := [
    WorkflowJob("a", [], OnSuccess, [], [Binding("out", "")]),
    WorkflowJob("d", ["a"], OnComplete, [], []),
    WorkflowJob("j", ["d"], OnSuccess, [Binding("in", "a.out")], [])]

  lemma ReaderEdges(n: string, d: string)
    ensures DependsOn(READER, n, d) <==> (n == "d" && d == "a") || (n == "j" && d == "d")
    ensures NameSet(READER) == {"a", "d", "j"}
  {
    var jobs := READER;
    assert jobs[0] in jobs && jobs[1] in jobs && jobs[2] in jobs;
    assert jobs[1].name == "d" && "a" in jobs[1].dependsOn;
    assert jobs[2].name == "j" && "d" in jobs[2].dependsOn;
  }

  lemma ReaderIsDag()
    ensures Acyclic(READER) && KnownDependencies(READER)
  {
    var order := ["a", "d", "j"];
    forall k, d | 0 <= k < |order| && DependsOn(READER, order[k], d) ensures d in order[..k] {
      ReaderEdges(order[k], d);
      assert order[..1] == ["a"] && order[..2] == ["a", "d"];
    }
    ReaderEdges("a", "a");
    assert forall n :: n in NameSet(READER) <==> n in order;
    forall n | n in NameSet(READER) ensures !Blocked(READER, n) {
      PlacedNotBlocked(READER, order, n);
    }
    UnblockedIffDag(READER);
  }

  lemma ReaderInputHolds()
    ensures FromHolds(READER, READER[2], Binding("in", "a.out"))
  {
    SplitDotRefInvertsJoin("a.out", "a", "out");
    ReaderEdges("j", "d");
    ReaderEdges("d", "a");
    EdgeReaches(READER, "j", "d");
    EdgeReaches(READER, "d", "a");
    ReachesTransitive(READER, "j", "d", "a");
    var upstream := READER[0];
    assert upstream.outputs[0].name == "out" && upstream.outputs[0] in upstream.outputs;
    assert upstream in READER && Declares(upstream, "out");
  }

  lemma ReaderIsAccepted()
    ensures ValidWorkflow(READER)
  {
    ReaderIsDag();
    forall j, b | j in READER && b in j.inputs ensures FromHolds(READER, j, b) {
      assert j == READER[2] && b == Binding("in", "a.out");
      ReaderInputHolds();
    }
  }

  lemma ReaderReads(u: string)
    ensures !ReadsFrom(READER, "d", u)
  {
  }

  lemma ReaderJobs(j: WorkflowJob)
    requires j in READER && (j.name == "a" || j.name == "d")
    ensures MayRun(j, {"d"}, {"a"})
  {
  }

  /** The upstream can fail and the job between complete all the same. */
  lemma ReaderPlan()
    ensures Plan(READER, HonestReports, {"d"}, {"a"})
  {
    ReaderEdges("a", "a");
    forall j | j in READER && (j.name in {"d"} || j.name in {"a"}) ensures MayRun(j, {"d"}, {"a"}) {
      ReaderJobs(j);
    }
    forall u ensures !ReadsFrom(READER, "d", u) {
      ReaderReads(u);
    }
  }

  /**
   * The validator accepts a reader whose upstream may not have completed when the reader is offered, even with honest
   * reports.
   */
  lemma AcceptedYetUnresolved()
    ensures ValidWorkflow(READER) && !AlwaysResolved(READER, HonestReports, READER[2], "a")
  {
    ReaderIsAccepted();
    var j := READER[2];
    assert j in READER;
    ReaderPlan();
    assert !Implied(READER, HonestReports, j, "a") by {
      assert forall d :: d in j.dependsOn ==> d in {"d"};
    }
    ResolutionIsSafeIff(READER, HonestReports, j, "a");
  }
}
