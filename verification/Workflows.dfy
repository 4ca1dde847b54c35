/**
 Workflow templates and the dependency relation they induce.

 A workflow is a list of named jobs; each job lists the names it depends on.
 Nothing here assumes the list is well formed: names may repeat, be empty, or
 point at jobs that do not exist, exactly as a caller may submit them.
 */
module Workflows {

  /** The wire type is an integer, so values outside the three named ones exist. */
  datatype Condition = OnSuccess | OnFailure | OnComplete | OtherCondition(code: int)

  datatype Binding = Binding(name: string, from: string)

  datatype WorkflowJob = WorkflowJob(
    name: string,
    dependsOn: seq<string>,
    condition: Condition,
    inputs: seq<Binding>,
    outputs: seq<Binding>)

  function NameSet(jobs: seq<WorkflowJob>): set<string> {
    set j | j in jobs :: j.name
  }

  predicate UniqueNames(jobs: seq<WorkflowJob>) {
    forall i, k :: 0 <= i < k < |jobs| ==> jobs[i].name != jobs[k].name
  }

  predicate KnownDependencies(jobs: seq<WorkflowJob>) {
    forall j, d :: j in jobs && d in j.dependsOn ==> d in NameSet(jobs)
  }

  /** n lists d among its direct dependencies. */
  predicate DependsOn(jobs: seq<WorkflowJob>, n: string, d: string) {
    exists j :: j in jobs && j.name == n && d in j.dependsOn
  }

  ghost predicate EdgeAt(jobs: seq<WorkflowJob>, p: seq<string>, k: int) {
    0 <= k < |p| - 1 && DependsOn(jobs, p[k], p[k + 1])
  }

  ghost predicate Walk(jobs: seq<WorkflowJob>, p: seq<string>) {
    forall k :: 0 <= k < |p| - 1 ==> EdgeAt(jobs, p, k)
  }

  /** A walk of at least one dependency edge, from the dependent job to what it needs. */
  ghost predicate Path(jobs: seq<WorkflowJob>, p: seq<string>) {
    |p| >= 2 && Walk(jobs, p)
  }

  /** n needs m, directly or through other jobs. */
  ghost predicate Reaches(jobs: seq<WorkflowJob>, n: string, m: string) {
    exists p :: Path(jobs, p) && p[0] == n && p[|p| - 1] == m
  }

  ghost predicate ReachesOrIs(jobs: seq<WorkflowJob>, n: string, m: string) {
    n == m || Reaches(jobs, n, m)
  }

  ghost predicate Acyclic(jobs: seq<WorkflowJob>) {
    forall n :: !Reaches(jobs, n, n)
  }

  // ---- Facts about reachability -------------------------------------------

  lemma EdgeReaches(jobs: seq<WorkflowJob>, n: string, m: string)
    requires DependsOn(jobs, n, m)
    ensures Reaches(jobs, n, m)
  {
    assert EdgeAt(jobs, [n, m], 0);
    assert Path(jobs, [n, m]);
  }

  lemma ReachesTransitive(jobs: seq<WorkflowJob>, a: string, b: string, c: string)
    requires Reaches(jobs, a, b) && Reaches(jobs, b, c)
    ensures Reaches(jobs, a, c)
  {
    var p :| Path(jobs, p) && p[0] == a && p[|p| - 1] == b;
    var q :| Path(jobs, q) && q[0] == b && q[|q| - 1] == c;
    var r := p + q[1..];
    forall k | 0 <= k < |r| - 1 ensures EdgeAt(jobs, r, k) {
      if k >= |p| - 1 {
        assert EdgeAt(jobs, q, k - |p| + 1);
      } else {
        assert EdgeAt(jobs, p, k);
      }
    }
    assert Path(jobs, r);
  }

  /** Any stretch of a walk is a walk. */
  lemma WalkSlice(jobs: seq<WorkflowJob>, p: seq<string>, lo: nat, hi: nat)
    requires Walk(jobs, p) && lo <= hi <= |p|
    ensures Walk(jobs, p[lo..hi])
  {
    var q := p[lo..hi];
    forall k | 0 <= k < |q| - 1 ensures EdgeAt(jobs, q, k) {
      assert EdgeAt(jobs, p, lo + k);
    }
  }

  /** Every walk starts with an edge. */
  lemma FirstStep(jobs: seq<WorkflowJob>, n: string, m: string) returns (d: string)
    requires Reaches(jobs, n, m)
    ensures DependsOn(jobs, n, d) && ReachesOrIs(jobs, d, m)
  {
    var p :| Path(jobs, p) && p[0] == n && p[|p| - 1] == m;
    d := p[1];
    assert EdgeAt(jobs, p, 0);
    if |p| > 2 {
      WalkSlice(jobs, p, 1, |p|);
      assert Path(jobs, p[1..|p|]);
    }
  }

  /** Every walk ends with an edge. */
  lemma LastStep(jobs: seq<WorkflowJob>, n: string, m: string) returns (d: string)
    requires Reaches(jobs, n, m)
    ensures DependsOn(jobs, d, m) && ReachesOrIs(jobs, n, d)
  {
    var p :| Path(jobs, p) && p[0] == n && p[|p| - 1] == m;
    d := p[|p| - 2];
    assert EdgeAt(jobs, p, |p| - 2);
    if |p| > 2 {
      WalkSlice(jobs, p, 0, |p| - 1);
      assert Path(jobs, p[0..|p| - 1]);
    }
  }

  /** A set closed under dependencies traps every walk that enters it. */
  lemma {:induction false} ClosedUnderDependencies(jobs: seq<WorkflowJob>, s: set<string>, p: seq<string>)
    requires Path(jobs, p)
    requires p[0] in s || p[1] in s
    requires forall n, d :: n in s && DependsOn(jobs, n, d) ==> d in s
    ensures p[|p| - 1] in s
    decreases |p|
  {
    assert EdgeAt(jobs, p, 0);
    if |p| > 2 {
      WalkSlice(jobs, p, 1, |p|);
      ClosedUnderDependencies(jobs, s, p[1..|p|]);
    }
  }

  /** Dually for a set closed under dependents. */
  lemma {:induction false} ClosedUnderDependents(jobs: seq<WorkflowJob>, s: set<string>, p: seq<string>)
    requires Path(jobs, p)
    requires p[|p| - 1] in s || p[|p| - 2] in s
    requires forall n, d :: d in s && DependsOn(jobs, n, d) ==> n in s
    ensures p[0] in s
    decreases |p|
  {
    assert EdgeAt(jobs, p, |p| - 2);
    if |p| > 2 {
      WalkSlice(jobs, p, 0, |p| - 1);
      ClosedUnderDependents(jobs, s, p[0..|p| - 1]);
    }
  }

  // ---- Pigeonhole: a set in which every job needs another member holds a cycle

  ghost predicate NoDuplicates(s: seq<string>) {
    forall i, k :: 0 <= i < k < |s| ==> s[i] != s[k]
  }

  lemma {:induction false} NoDuplicatesFits(s: seq<string>, universe: set<string>)
    requires NoDuplicates(s)
    requires forall x :: x in s ==> x in universe
    ensures |s| <= |universe|
    ensures |s| == |universe| ==> universe == set x | x in s
  {
    if s == [] {
      if |universe| == 0 {
        assert universe == {};
      }
    } else {
      var last := s[|s| - 1];
      var rest := s[..|s| - 1];
      NoDuplicatesFits(rest, universe - {last});
      assert s == rest + [last];
      if |s| == |universe| {
        assert universe == (universe - {last}) + {last};
      }
    }
  }

  ghost predicate NeedsWithin(jobs: seq<WorkflowJob>, s: set<string>, n: string) {
    exists d :: d in s && DependsOn(jobs, n, d)
  }

  /** Every member of s depends on a member of s. */
  ghost predicate NoWayOut(jobs: seq<WorkflowJob>, s: set<string>) {
    forall n {:trigger NeedsWithin(jobs, s, n)} :: n in s ==> NeedsWithin(jobs, s, n)
  }

  lemma WalkAppend(jobs: seq<WorkflowJob>, w: seq<string>, d: string)
    requires |w| > 0 && Walk(jobs, w) && DependsOn(jobs, w[|w| - 1], d)
    ensures Walk(jobs, w + [d])
  {
    forall k | 0 <= k < |w| ensures EdgeAt(jobs, w + [d], k) {
      if k < |w| - 1 {
        assert EdgeAt(jobs, w, k);
      }
    }
  }

  lemma {:induction false} WalkWithin(jobs: seq<WorkflowJob>, s: set<string>, n: string, steps: nat)
    returns (w: seq<string>)
    requires n in s && NoWayOut(jobs, s)
    ensures |w| == steps + 1 && w[0] == n && Walk(jobs, w)
    ensures forall x :: x in w ==> x in s
  {
    if steps == 0 {
      w := [n];
    } else {
      var v := WalkWithin(jobs, s, n, steps - 1);
      var end := v[|v| - 1];
      assert NeedsWithin(jobs, s, end);
      var d :| d in s && DependsOn(jobs, end, d);
      WalkAppend(jobs, v, d);
      w := v + [d];
    }
  }

  lemma Repetition(w: seq<string>, s: set<string>) returns (i: nat, k: nat)
    requires |w| > |s| && forall x :: x in w ==> x in s
    ensures i < k < |w| && w[i] == w[k]
  {
    if NoDuplicates(w) {
      NoDuplicatesFits(w, s);
      assert false;
    }
    i, k :| 0 <= i < k < |w| && w[i] == w[k];
  }

  /** From any member of a set without a way out, a cycle inside the set is reachable. */
  lemma TrappedReachesCycle(jobs: seq<WorkflowJob>, s: set<string>, n: string) returns (cycle: seq<string>)
    requires n in s && NoWayOut(jobs, s)
    ensures Path(jobs, cycle) && cycle[0] == cycle[|cycle| - 1]
    ensures forall x :: x in cycle ==> x in s
    ensures ReachesOrIs(jobs, n, cycle[0])
  {
    var w := WalkWithin(jobs, s, n, |s|);
    var i, k := Repetition(w, s);
    cycle := w[i..k + 1];
    WalkSlice(jobs, w, i, k + 1);
    if i > 0 {
      WalkSlice(jobs, w, 0, i + 1);
      assert Path(jobs, w[0..i + 1]);
    }
  }
}
