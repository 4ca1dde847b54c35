/**
 The workflow validator and the graph queries of internal/cluster/dag.go.
 */
module Dag {
  import opened Workflows
  import opened Kahn
  import opened Wrappers

  datatype DagError =
    | EmptyName
    | DuplicateName(job: string)
    | SelfDependency(job: string)
    | UnknownDependency(job: string, dep: string)
    | Cycle(involves: set<string>)
    | FromConditionUnreachable(job: string, input: string)
    | FromMalformed(job: string, input: string)
    | UnknownFrom(job: string, input: string, upstream: string)
    | FromNotAncestor(job: string, input: string, upstream: string)
    | FromUnknownOutput(job: string, input: string, upstream: string, output: string)

  // ---- splitDotRef ----------------------------------------------------------

  /** strings.LastIndexByte: the last position of c, or -1. */
  function LastIndexOf(s: string, c: char): (i: int)
    ensures -1 <= i < |s|
    ensures i >= 0 ==> s[i] == c && c !in s[i + 1..]
    ensures i == -1 ==> c !in s
  {
    if s == "" then -1
    else if s[|s| - 1] == c then |s| - 1
    else
      var i := LastIndexOf(s[..|s| - 1], c);
      assert s == s[..|s| - 1] + [s[|s| - 1]];
      assert i >= 0 ==> s[i + 1..] == s[..|s| - 1][i + 1..] + [s[|s| - 1]];
      i
  }

  /** splitDotRef: "upstream.output" at the last dot; two empty strings when malformed. */
  function SplitDotRef(ref: string): (string, string) {
    var dot := LastIndexOf(ref, '.');
    if dot <= 0 || dot == |ref| - 1 then ("", "") else (ref[..dot], ref[dot + 1..])
  }

  /** The split inverts joining: a pair comes out exactly when the reference is that pair joined by a dot. */
  lemma SplitDotRefInvertsJoin(ref: string, upstream: string, output: string)
    requires upstream != ""
    ensures SplitDotRef(ref) == (upstream, output) <==> output != "" && '.' !in output && ref == upstream + "." + output
  {
    var dot := LastIndexOf(ref, '.');
    if SplitDotRef(ref) == (upstream, output) {
      assert ref == ref[..dot] + [ref[dot]] + ref[dot + 1..];
    }
    if output != "" && '.' !in output && ref == upstream + "." + output {
      assert ref[|upstream|] == '.';
      assert ref[|upstream| + 1..] == output;
      assert '.' in ref;
      assert dot == |upstream|;
      assert ref[..dot] == upstream;
    }
  }

  // ---- ancestorsOf ----------------------------------------------------------

  ghost predicate Indexes(jobs: seq<WorkflowJob>, byName: map<string, WorkflowJob>) {
    && byName.Keys == NameSet(jobs)
    && (forall j :: j in jobs ==> byName[j.name] == j)
    && (forall n :: n in byName ==> byName[n] in jobs && byName[n].name == n)
  }

  /** Everything seen or stacked is needed by target, and nothing needed is forgotten. */
  ghost predicate Exploring(jobs: seq<WorkflowJob>, target: string, seen: set<string>, stack: seq<string>) {
    && (forall m :: m in seen ==> Reaches(jobs, target, m))
    && (forall m :: m in stack ==> Reaches(jobs, target, m))
    && (forall d :: DependsOn(jobs, target, d) ==> d in seen || d in stack)
    && (forall m, d :: m in seen && DependsOn(jobs, m, d) ==> d in seen || d in stack)
  }

  lemma ExploreDependencies(jobs: seq<WorkflowJob>, target: string, m: string)
    requires Reaches(jobs, target, m)
    ensures forall d :: DependsOn(jobs, m, d) ==> Reaches(jobs, target, d)
  {
    forall d | DependsOn(jobs, m, d) ensures Reaches(jobs, target, d) {
      EdgeReaches(jobs, m, d);
      ReachesTransitive(jobs, target, m, d);
    }
  }

  lemma Explored(jobs: seq<WorkflowJob>, target: string, seen: set<string>)
    requires Exploring(jobs, target, seen, [])
    ensures forall m :: m in seen <==> Reaches(jobs, target, m)
  {
    forall m | Reaches(jobs, target, m) ensures m in seen {
      var p :| Path(jobs, p) && p[0] == target && p[|p| - 1] == m;
      assert EdgeAt(jobs, p, 0);
      ClosedUnderDependencies(jobs, seen, p);
    }
  }

  /** All names that occur as a dependency of some job. */
  ghost function Mentioned(jobs: seq<WorkflowJob>): set<string> {
    set j, d | j in jobs && d in j.dependsOn :: d
  }

  /** ancestorsOf: depth-first with an explicit stack; the result is the transitive closure of depends_on. */
  method AncestorsOf(ghost jobs: seq<WorkflowJob>, byName: map<string, WorkflowJob>, target: string)
    returns (seen: set<string>)
    requires Indexes(jobs, byName) && target in byName
    ensures forall m :: m in seen <==> Reaches(jobs, target, m)
  {
    seen := {};
    var stack := byName[target].dependsOn;
    forall d | DependsOn(jobs, target, d) ensures Reaches(jobs, target, d) {
      EdgeReaches(jobs, target, d);
    }
    StackOfDependencies(jobs, byName, target);
    while |stack| > 0
      invariant Exploring(jobs, target, seen, stack)
      decreases Mentioned(jobs) - seen, |stack|
    {
      var n := stack[|stack| - 1];
      ghost var before := stack;
      stack := stack[..|stack| - 1];
      assert before == stack + [n];
      if n !in seen {
        ExploreDependencies(jobs, target, n);
        ReachedIsMentioned(jobs, target, n);
        seen := seen + {n};
        if n in byName {
          StackOfDependencies(jobs, byName, n);
          stack := stack + byName[n].dependsOn;
        }
      }
    }
    Explored(jobs, target, seen);
  }

  lemma StackOfDependencies(jobs: seq<WorkflowJob>, byName: map<string, WorkflowJob>, n: string)
    requires Indexes(jobs, byName) && n in byName
    ensures forall d :: d in byName[n].dependsOn <==> DependsOn(jobs, n, d)
  {
  }

  lemma ReachedIsMentioned(jobs: seq<WorkflowJob>, n: string, m: string)
    requires Reaches(jobs, n, m)
    ensures m in Mentioned(jobs)
  {
    var d := LastStep(jobs, n, m);
  }

  // ---- Descendants ----------------------------------------------------------

  /** Everything visited needs name; the children of all visited but unqueued jobs, and of name, are visited. */
  ghost predicate Flooding(jobs: seq<WorkflowJob>, name: string, visited: set<string>, queue: seq<string>) {
    && (forall m :: m in visited ==> Reaches(jobs, m, name))
    && (forall m :: m in queue ==> m == name || m in visited)
    && (forall m, d :: (d == name || d in visited) && d !in queue && DependsOn(jobs, m, d) ==> m in visited)
  }

  lemma Flooded(jobs: seq<WorkflowJob>, name: string, visited: set<string>)
    requires Flooding(jobs, name, visited, [])
    ensures forall m :: m in visited <==> Reaches(jobs, m, name)
  {
    forall m | Reaches(jobs, m, name) ensures m in visited {
      var p :| Path(jobs, p) && p[0] == m && p[|p| - 1] == name;
      assert EdgeAt(jobs, p, |p| - 2);
      ClosedUnderDependents(jobs, visited, p);
    }
  }

  lemma ChildrenAreDependents(jobs: seq<WorkflowJob>, inDegree: map<string, int>, downstream: map<string, seq<string>>,
                              entries: Entries, d: string)
    requires Describes(jobs, inDegree, downstream, entries)
    ensures forall m :: m in Children(downstream, d) <==> DependsOn(jobs, m, d)
  {
    forall m ensures m in Children(downstream, d) <==> DependsOn(jobs, m, d) {
      assert Mirrored(downstream, entries, d, m);
      assert m in Children(downstream, d) <==> m in multiset(Children(downstream, d));
    }
  }

  method VisitChildren(children: seq<string>, visited0: set<string>, queue0: seq<string>, result0: seq<string>)
    returns (visited: set<string>, queue: seq<string>, result: seq<string>)
    requires NoDuplicates(result0) && forall m :: m in result0 <==> m in visited0
    ensures NoDuplicates(result) && forall m :: m in result <==> m in visited
    ensures forall m :: m in visited <==> m in visited0 || m in children
    ensures visited == visited0 ==> queue == queue0
    ensures forall m :: m in queue <==> m in queue0 || (m in children && m !in visited0)
  {
    visited, queue, result := visited0, queue0, result0;
    for k := 0 to |children|
      invariant NoDuplicates(result) && forall m :: m in result <==> m in visited
      invariant forall m :: m in visited <==> m in visited0 || m in children[..k]
      invariant visited == visited0 ==> queue == queue0
      invariant forall m :: m in queue <==> m in queue0 || (m in children[..k] && m !in visited0)
    {
      var child := children[k];
      assert children[..k + 1] == children[..k] + [child];
      if child !in visited {
        visited := visited + {child};
        result := result + [child];
        queue := queue + [child];
      }
    }
    assert children[..|children|] == children;
  }

  /** d's children in the downstream map are the jobs that list it. */
  ghost predicate ChildrenOf(jobs: seq<WorkflowJob>, downstream: map<string, seq<string>>, d: string) {
    forall m :: m in Children(downstream, d) <==> DependsOn(jobs, m, d)
  }

  method BuildDownstream(jobs: seq<WorkflowJob>) returns (downstream: map<string, seq<string>>)
    ensures forall d :: ChildrenOf(jobs, downstream, d)
  {
    ghost var entries;
    var inDegree;
    inDegree, downstream, entries := BuildAdjacency(jobs);
    forall d ensures ChildrenOf(jobs, downstream, d) {
      ChildrenAreDependents(jobs, inDegree, downstream, entries, d);
    }
  }

  /** Visited jobs and result agree, and the search is sound and complete so far. */
  ghost predicate Searching(jobs: seq<WorkflowJob>, name: string, visited: set<string>, queue: seq<string>,
                            result: seq<string>) {
    && Flooding(jobs, name, visited, queue) && visited <= NameSet(jobs)
    && NoDuplicates(result) && forall m :: m in result <==> m in visited
  }

  /** One turn of the search. */
  method SearchNext(ghost jobs: seq<WorkflowJob>, ghost name: string, downstream: map<string, seq<string>>,
                    visited: set<string>, queue: seq<string>, result: seq<string>)
    returns (visited': set<string>, queue': seq<string>, result': seq<string>)
    requires queue != [] && Searching(jobs, name, visited, queue, result) && ChildrenOf(jobs, downstream, queue[0])
    ensures Searching(jobs, name, visited', queue', result')
    ensures visited <= visited' && (visited' == visited ==> |queue'| < |queue|)
  {
    visited', queue', result' := VisitChildren(Children(downstream, queue[0]), visited, queue[1..], result);
    FloodStep(jobs, name, visited, queue, visited', queue');
  }

  /** Descendants: exactly the jobs that need name, each once. */
  method Descendants(jobs: seq<WorkflowJob>, name: string) returns (result: seq<string>)
    ensures NoDuplicates(result)
    ensures forall m :: m in result <==> Reaches(jobs, m, name)
    ensures name !in result <==> !Reaches(jobs, name, name)
  {
    var downstream := BuildDownstream(jobs);
    var visited: set<string> := {};
    var queue := [name];
    result := [];
    while |queue| > 0
      invariant Searching(jobs, name, visited, queue, result)
      decreases NameSet(jobs) - visited, |queue|
    {
      ghost var before := visited;
      visited, queue, result := SearchNext(jobs, name, downstream, visited, queue, result);
      assert visited != before ==> NameSet(jobs) - visited < NameSet(jobs) - before;
    }
    Flooded(jobs, name, visited);
  }

  lemma FloodStep(jobs: seq<WorkflowJob>, name: string, visited0: set<string>, queue0: seq<string>,
                  visited: set<string>, queue: seq<string>)
    requires queue0 != [] && Flooding(jobs, name, visited0, queue0)
    requires forall m :: m in visited <==> m in visited0 || DependsOn(jobs, m, queue0[0])
    requires forall m :: m in queue <==> m in queue0[1..] || (DependsOn(jobs, m, queue0[0]) && m !in visited0)
    ensures Flooding(jobs, name, visited, queue)
    ensures visited - visited0 <= NameSet(jobs)
  {
    var curr := queue0[0];
    assert curr in queue0 && queue0 == [curr] + queue0[1..];
    forall m | m in visited ensures Reaches(jobs, m, name) {
      if m !in visited0 {
        EdgeReaches(jobs, m, curr);
        if curr != name {
          ReachesTransitive(jobs, m, curr, name);
        }
      }
    }
  }

  // ---- RootJobs -------------------------------------------------------------

  method RootJobs(jobs: seq<WorkflowJob>) returns (roots: seq<string>)
    ensures forall n :: n in roots <==> exists j :: j in jobs && j.name == n && j.dependsOn == []
    ensures UniqueNames(jobs) ==> NoDuplicates(roots) && forall n :: n in roots <==> IsRoot(jobs, n)
  {
    roots := [];
    for i := 0 to |jobs|
      invariant forall n :: n in roots <==> exists k :: 0 <= k < i && jobs[k].name == n && jobs[k].dependsOn == []
      invariant UniqueNames(jobs) ==> NoDuplicates(roots)
    {
      if jobs[i].dependsOn == [] {
        assert UniqueNames(jobs) ==> jobs[i].name !in roots;
        roots := roots + [jobs[i].name];
      }
    }
    if UniqueNames(jobs) {
      forall n ensures n in roots <==> IsRoot(jobs, n) {
        RootHasNoEntries(jobs, n);
      }
    }
  }

  lemma RootHasNoEntries(jobs: seq<WorkflowJob>, n: string)
    requires UniqueNames(jobs)
    ensures IsRoot(jobs, n) <==> exists j :: j in jobs && j.name == n && j.dependsOn == []
  {
    if n in NameSet(jobs) {
      var j :| j in jobs && j.name == n;
      forall k | k in jobs && k.name == n ensures k == j {
      }
      if j.dependsOn != [] {
        assert DependsOn(jobs, n, j.dependsOn[0]);
      }
    }
  }

  ghost predicate IsRoot(jobs: seq<WorkflowJob>, n: string) {
    n in NameSet(jobs) && forall d :: !DependsOn(jobs, n, d)
  }

  /** In a closed acyclic workflow every job is a root or needs one. */
  lemma EveryJobRestsOnARoot(jobs: seq<WorkflowJob>, n: string) returns (root: string)
    requires Acyclic(jobs) && KnownDependencies(jobs) && n in NameSet(jobs)
    ensures IsRoot(jobs, root) && ReachesOrIs(jobs, n, root)
  {
    if Rests(jobs, n) {
      root :| IsRoot(jobs, root) && ReachesOrIs(jobs, n, root);
    } else {
      var s := set x | x in NameSet(jobs) && !Rests(jobs, x);
      forall x | x in s ensures NeedsWithin(jobs, s, x) {
        assert ReachesOrIs(jobs, x, x);
        var d :| DependsOn(jobs, x, d);
        EdgeReaches(jobs, x, d);
        if Rests(jobs, d) {
          var r :| IsRoot(jobs, r) && ReachesOrIs(jobs, d, r);
          if d != r {
            ReachesTransitive(jobs, x, d, r);
          }
          assert false;
        }
      }
      var cycle := TrappedReachesCycle(jobs, s, n);
      assert Reaches(jobs, cycle[0], cycle[0]);
      assert false;
    }
  }

  ghost predicate Rests(jobs: seq<WorkflowJob>, n: string) {
    exists root :: IsRoot(jobs, root) && ReachesOrIs(jobs, n, root)
  }

  // ---- ValidateDAG ----------------------------------------------------------

  predicate Declares(u: WorkflowJob, output: string) {
    exists o :: o in u.outputs && o.name == output
  }

  /**
   * An input without `from` is fine; otherwise the job runs on success, and the reference names an output of a job it
   * needs.
   */
  ghost predicate FromHolds(jobs: seq<WorkflowJob>, j: WorkflowJob, b: Binding) {
    b.from == "" || (
      var (upstream, output) := SplitDotRef(b.from);
      && j.condition.OnSuccess?
      && upstream != ""
      && Reaches(jobs, j.name, upstream)
      && exists u :: u in jobs && u.name == upstream && Declares(u, output))
  }

  ghost predicate NamesHold(jobs: seq<WorkflowJob>) {
    UniqueNames(jobs) && forall j :: j in jobs ==> j.name != ""
  }

  ghost predicate ValidWorkflow(jobs: seq<WorkflowJob>) {
    && NamesHold(jobs)
    && KnownDependencies(jobs)
    && Acyclic(jobs)
    && FromsHold(jobs)
  }

  ghost predicate FromsHold(jobs: seq<WorkflowJob>) {
    forall j, b :: j in jobs && b in j.inputs ==> FromHolds(jobs, j, b)
  }

  /** Which rule an input breaks first. */
  ghost function FromFault(jobs: seq<WorkflowJob>, j: WorkflowJob, b: Binding): Option<DagError> {
    var (upstream, output) := SplitDotRef(b.from);
    if FromHolds(jobs, j, b) then None
    else if !j.condition.OnSuccess? then Some(FromConditionUnreachable(j.name, b.name))
    else if upstream == "" then Some(FromMalformed(j.name, b.name))
    else if upstream !in NameSet(jobs) then Some(UnknownFrom(j.name, b.name, upstream))
    else if !Reaches(jobs, j.name, upstream) then Some(FromNotAncestor(j.name, b.name, upstream))
    else Some(FromUnknownOutput(j.name, b.name, upstream, output))
  }

  /** The inputs of all jobs in the order they are checked. */
  ghost function Checks(jobs: seq<WorkflowJob>): seq<(WorkflowJob, Binding)> {
    if jobs == [] then []
    else
      var last := jobs[|jobs| - 1];
      Checks(jobs[..|jobs| - 1]) + InputsOf(last, |last.inputs|)
  }

  ghost function InputsOf(j: WorkflowJob, k: nat): (checks: seq<(WorkflowJob, Binding)>)
    requires k <= |j.inputs|
    ensures |checks| == k && forall i :: 0 <= i < k ==> checks[i] == (j, j.inputs[i])
  {
    seq(k, i requires 0 <= i < k => (j, j.inputs[i]))
  }

  lemma {:induction false} ChecksCover(jobs: seq<WorkflowJob>)
    ensures forall j, b :: (j, b) in Checks(jobs) <==> j in jobs && b in j.inputs
  {
    if jobs == [] {
    } else {
      var last := jobs[|jobs| - 1];
      ChecksCover(jobs[..|jobs| - 1]);
      assert forall j :: j in jobs <==> j in jobs[..|jobs| - 1] || j == last;
      var tail := InputsOf(last, |last.inputs|);
      forall j, b ensures (j, b) in tail <==> j == last && b in last.inputs {
        if j == last && b in last.inputs {
          var i :| 0 <= i < |last.inputs| && last.inputs[i] == b;
          assert tail[i] == (j, b);
        }
      }
    }
  }

  ghost predicate NoFault(all: seq<WorkflowJob>, checks: seq<(WorkflowJob, Binding)>) {
    forall c :: c in checks ==> FromFault(all, c.0, c.1).None?
  }

  /** e is what the first failing input, in checking order, breaks. */
  ghost predicate FirstFault(all: seq<WorkflowJob>, checks: seq<(WorkflowJob, Binding)>, e: DagError) {
    exists i :: 0 <= i < |checks| && FromFault(all, checks[i].0, checks[i].1) == Some(e) && NoFault(all, checks[..i])
  }

  ghost predicate GraphHolds(jobs: seq<WorkflowJob>) {
    NamesHold(jobs) && KnownDependencies(jobs) && Acyclic(jobs)
  }

  /** The reported error is a real violation, and every earlier stage passed. */
  ghost predicate Justified(jobs: seq<WorkflowJob>, e: DagError) {
    match e
    case EmptyName => exists i :: 0 <= i < |jobs| && jobs[i].name == "" && NamesHold(jobs[..i])
    case DuplicateName(n) =>
      exists i :: 0 <= i < |jobs| && jobs[i].name == n && n in NameSet(jobs[..i]) && NamesHold(jobs[..i])
    case SelfDependency(n) => NamesHold(jobs) && DependsOn(jobs, n, n)
    case UnknownDependency(n, d) => NamesHold(jobs) && DependsOn(jobs, n, d) && d !in NameSet(jobs)
    case Cycle(involves) =>
      && NamesHold(jobs) && KnownDependencies(jobs) && !Acyclic(jobs)
      && (forall n :: n in involves <==> n in NameSet(jobs) && Blocked(jobs, n))
      && CycleWithin(jobs, involves)
    case _ => GraphHolds(jobs) && FirstFault(jobs, Checks(jobs), e)
  }

  method CheckNames(jobs: seq<WorkflowJob>) returns (names: set<string>, r: Option<DagError>)
    ensures r.None? ==> NamesHold(jobs) && names == NameSet(jobs)
    ensures r.Some? ==> !NamesHold(jobs) && Justified(jobs, r.value) && (r.value.EmptyName? || r.value.DuplicateName?)
  {
    names := {};
    for i := 0 to |jobs|
      invariant NamesHold(jobs[..i]) && names == NameSet(jobs[..i])
    {
      var j := jobs[i];
      assert j in jobs;
      if j.name == "" {
        return names, Some(EmptyName);
      }
      if j.name in names {
        var k :| k in jobs[..i] && k.name == j.name;
        return names, Some(DuplicateName(j.name));
      }
      assert jobs[..i + 1] == jobs[..i] + [j];
      NameSetAppend(jobs[..i], j);
      names := names + {j.name};
    }
    assert jobs[..|jobs|] == jobs;
    r := None;
  }

  predicate NotItself(j: WorkflowJob) {
    j.name !in j.dependsOn
  }

  method CheckDependencies(jobs: seq<WorkflowJob>, names: set<string>) returns (r: Option<DagError>)
    requires NamesHold(jobs) && names == NameSet(jobs)
    ensures r.None? ==> KnownDependencies(jobs) && forall j :: j in jobs ==> NotItself(j)
    ensures r.Some? ==> !(KnownDependencies(jobs) && Acyclic(jobs)) && Justified(jobs, r.value)
  {
    for i := 0 to |jobs|
      invariant forall k, d :: 0 <= k < i && d in jobs[k].dependsOn ==> d in names
      invariant forall k :: 0 <= k < i ==> NotItself(jobs[k])
    {
      var j := jobs[i];
      for m := 0 to |j.dependsOn|
        invariant forall d :: d in j.dependsOn[..m] ==> d in names
        invariant j.name !in j.dependsOn[..m]
      {
        var dep := j.dependsOn[m];
        assert DependsOn(jobs, j.name, dep);
        if dep == j.name {
          EdgeReaches(jobs, dep, dep);
          return Some(SelfDependency(j.name));
        }
        if dep !in names {
          return Some(UnknownDependency(j.name, dep));
        }
      }
      assert j.dependsOn[..|j.dependsOn|] == j.dependsOn;
    }
    r := None;
  }

  method IndexByName(jobs: seq<WorkflowJob>) returns (byName: map<string, WorkflowJob>)
    requires UniqueNames(jobs)
    ensures Indexes(jobs, byName)
  {
    byName := map[];
    for i := 0 to |jobs|
      invariant forall n :: n in byName <==> exists k :: 0 <= k < i && jobs[k].name == n
      invariant forall k :: 0 <= k < i ==> byName[jobs[k].name] == jobs[k]
    {
      byName := byName[jobs[i].name := jobs[i]];
    }
  }

  method CheckFrom(jobs: seq<WorkflowJob>, byName: map<string, WorkflowJob>, j: WorkflowJob, b: Binding,
                   ancestors: set<string>)
    returns (r: Option<DagError>)
    requires Indexes(jobs, byName) && j in jobs
    requires forall m :: m in ancestors <==> Reaches(jobs, j.name, m)
    ensures r == FromFault(jobs, j, b)
  {
    if b.from == "" {
      return None;
    }
    if !j.condition.OnSuccess? {
      return Some(FromConditionUnreachable(j.name, b.name));
    }
    var (upstream, output) := SplitDotRef(b.from);
    if upstream == "" {
      return Some(FromMalformed(j.name, b.name));
    }
    if upstream !in byName {
      return Some(UnknownFrom(j.name, b.name, upstream));
    }
    if upstream !in ancestors {
      return Some(FromNotAncestor(j.name, b.name, upstream));
    }
    var found := false;
    var outputs := byName[upstream].outputs;
    for i := 0 to |outputs|
      invariant !found && forall k :: 0 <= k < i ==> outputs[k].name != output
    {
      if outputs[i].name == output {
        found := true;
        break;
      }
    }
    assert found <==> Declares(byName[upstream], output);
    if !found {
      return Some(FromUnknownOutput(j.name, b.name, upstream, output));
    }
    r := None;
  }

  /** validateFromReferences: the first input, in list order, whose reference is not satisfiable. */
  method ValidateFromReferences(jobs: seq<WorkflowJob>) returns (r: Option<DagError>)
    requires UniqueNames(jobs)
    ensures r.None? ==> NoFault(jobs, Checks(jobs))
    ensures r.Some? ==> FirstFault(jobs, Checks(jobs), r.value)
  {
    var byName := IndexByName(jobs);
    for i := 0 to |jobs|
      invariant NoFault(jobs, Checks(jobs[..i]))
    {
      var j := jobs[i];
      var ancestors := AncestorsOf(jobs, byName, j.name);
      for k := 0 to |j.inputs|
        invariant NoFault(jobs, Checks(jobs[..i]) + InputsOf(j, k))
      {
        var b := j.inputs[k];
        r := CheckFrom(jobs, byName, j, b, ancestors);
        assert InputsOf(j, k + 1) == InputsOf(j, k) + [(j, b)];
        if r.Some? {
          FaultFound(jobs, i, k, r.value);
          return;
        }
      }
      assert jobs[..i + 1][..i] == jobs[..i];
    }
    assert jobs[..|jobs|] == jobs;
    r := None;
  }

  lemma {:induction false} ChecksPrefix(jobs: seq<WorkflowJob>, i: nat)
    requires i <= |jobs|
    ensures Checks(jobs[..i]) <= Checks(jobs)
    decreases |jobs|
  {
    if i == |jobs| {
      assert jobs[..i] == jobs;
    } else {
      var front := jobs[..|jobs| - 1];
      ChecksPrefix(front, i);
      assert front[..i] == jobs[..i];
    }
  }

  lemma FaultFound(jobs: seq<WorkflowJob>, i: nat, k: nat, e: DagError)
    requires i < |jobs| && k < |jobs[i].inputs|
    requires NoFault(jobs, Checks(jobs[..i]) + InputsOf(jobs[i], k))
    requires FromFault(jobs, jobs[i], jobs[i].inputs[k]) == Some(e)
    ensures FirstFault(jobs, Checks(jobs), e)
  {
    var at := CheckPosition(jobs, i, k);
  }

  lemma CheckPosition(jobs: seq<WorkflowJob>, i: nat, k: nat) returns (at: nat)
    requires i < |jobs| && k < |jobs[i].inputs|
    ensures at < |Checks(jobs)| && Checks(jobs)[at] == (jobs[i], jobs[i].inputs[k])
    ensures Checks(jobs)[..at] == Checks(jobs[..i]) + InputsOf(jobs[i], k)
  {
    ChecksPrefix(jobs, i + 1);
    var j, done, here := jobs[i], Checks(jobs[..i]), Checks(jobs[..i + 1]);
    assert jobs[..i + 1][..i] == jobs[..i];
    assert here == done + InputsOf(j, |j.inputs|);
    at := |done| + k;
    assert InputsOf(j, |j.inputs|)[..k] == InputsOf(j, k);
    assert here[..at] == done + InputsOf(j, |j.inputs|)[..k];
    assert Checks(jobs)[..at] == here[..at];
  }

  lemma FaultlessIff(jobs: seq<WorkflowJob>)
    ensures NoFault(jobs, Checks(jobs)) <==> FromsHold(jobs)
  {
    ChecksCover(jobs);
    if NoFault(jobs, Checks(jobs)) {
      forall j, b | j in jobs && b in j.inputs ensures FromHolds(jobs, j, b) {
        assert FromFault(jobs, (j, b).0, (j, b).1).None?;
      }
    }
    if FromsHold(jobs) {
      forall c | c in Checks(jobs) ensures FromFault(jobs, c.0, c.1).None? {
        assert (c.0, c.1) in Checks(jobs);
      }
    }
  }

  method ValidateDAG(jobs: seq<WorkflowJob>) returns (r: Option<DagError>)
    ensures r.None? <==> ValidWorkflow(jobs)
    ensures r.Some? ==> Justified(jobs, r.value)
  {
    if |jobs| == 0 {
      assert Acyclic(jobs) by {
        forall n ensures !Reaches(jobs, n, n) {
          if Reaches(jobs, n, n) {
            var d := FirstStep(jobs, n, n);
          }
        }
      }
      return None;
    }
    var names;
    names, r := CheckNames(jobs);
    if r.Some? {
      return;
    }
    r := CheckDependencies(jobs, names);
    if r.Some? {
      return;
    }
    var sort := TopologicalSort(jobs);
    if sort.CycleError? {
      return Some(Cycle(sort.involves));
    }
    FaultlessIff(jobs);
    r := ValidateFromReferences(jobs);
    if r.Some? {
      FaultIsNotGraph(jobs, r.value);
    }
  }

  lemma FirstFaultIsOne(all: seq<WorkflowJob>, checks: seq<(WorkflowJob, Binding)>, e: DagError)
    requires FirstFault(all, checks, e)
    ensures !NoFault(all, checks)
    ensures e.FromConditionUnreachable? || e.FromMalformed? || e.UnknownFrom? || e.FromNotAncestor? ||
      e.FromUnknownOutput?
  {
    var i :| 0 <= i < |checks| && FromFault(all, checks[i].0, checks[i].1) == Some(e);
    assert checks[i] in checks;
  }

  lemma FaultIsNotGraph(jobs: seq<WorkflowJob>, e: DagError)
    requires FirstFault(jobs, Checks(jobs), e)
    ensures !NoFault(jobs, Checks(jobs)) && (GraphHolds(jobs) ==> Justified(jobs, e))
  {
    FirstFaultIsOne(jobs, Checks(jobs), e);
  }

  // ---- What acceptance buys -------------------------------------------------

  /** In every topological order of an accepted workflow, the job an input reads from stands strictly earlier. */
  lemma FromUpstreamComesEarlier(jobs: seq<WorkflowJob>, order: seq<string>, j: WorkflowJob, b: Binding, k: nat)
    requires ValidWorkflow(jobs) && IsTopologicalOrder(jobs, order)
    requires j in jobs && b in j.inputs && b.from != "" && k < |order| && order[k] == j.name
    ensures SplitDotRef(b.from).0 in order[..k]
  {
    assert FromHolds(jobs, j, b);
    NeededComesEarlier(jobs, order, k, SplitDotRef(b.from).0);
  }

  /** The jobs left when name and everything that needs it are taken away, in their original order. */
  ghost function Survivors(jobs: seq<WorkflowJob>, name: string): (left: seq<WorkflowJob>)
    ensures forall j :: j in left <==> j in jobs && !ReachesOrIs(jobs, j.name, name)
    ensures UniqueNames(jobs) ==> UniqueNames(left)
  {
    Keep(jobs, jobs, name)
  }

  ghost function Keep(jobs: seq<WorkflowJob>, all: seq<WorkflowJob>, name: string): (left: seq<WorkflowJob>)
    ensures forall j :: j in left <==> j in jobs && !ReachesOrIs(all, j.name, name)
    ensures UniqueNames(jobs) ==> UniqueNames(left)
  {
    if jobs == [] then []
    else
      var last, front := jobs[|jobs| - 1], jobs[..|jobs| - 1];
      assert forall j :: j in jobs <==> j in front || j == last;
      Keep(front, all, name) + (if ReachesOrIs(all, last.name, name) then [] else [last])
  }

  /** A walk that starts at a surviving job survives whole, and no other walk does. */
  lemma SurvivingReach(jobs: seq<WorkflowJob>, name: string, n: string, m: string)
    requires KnownDependencies(jobs)
    ensures Reaches(Survivors(jobs, name), n, m) ==> Reaches(jobs, n, m)
    ensures n in NameSet(Survivors(jobs, name)) && Reaches(jobs, n, m) ==>
              m in NameSet(Survivors(jobs, name)) && Reaches(Survivors(jobs, name), n, m)
  {
    var left := Survivors(jobs, name);
    if Reaches(left, n, m) {
      var p :| Path(left, p) && p[0] == n && p[|p| - 1] == m;
      forall k | 0 <= k < |p| - 1 ensures EdgeAt(jobs, p, k) {
        assert EdgeAt(left, p, k);
      }
      assert Path(jobs, p);
    }
    if n in NameSet(left) && Reaches(jobs, n, m) {
      var p :| Path(jobs, p) && p[0] == n && p[|p| - 1] == m;
      SurvivingPath(jobs, name, p);
    }
  }

  lemma SurvivingName(jobs: seq<WorkflowJob>, name: string, n: string)
    ensures n in NameSet(Survivors(jobs, name)) <==> n in NameSet(jobs) && !ReachesOrIs(jobs, n, name)
  {
    var left := Survivors(jobs, name);
    if n in NameSet(jobs) && !ReachesOrIs(jobs, n, name) {
      var j :| j in jobs && j.name == n;
      assert j in left;
    }
  }

  lemma SurvivingEdge(jobs: seq<WorkflowJob>, name: string, n: string, d: string)
    requires KnownDependencies(jobs) && n in NameSet(Survivors(jobs, name)) && DependsOn(jobs, n, d)
    ensures DependsOn(Survivors(jobs, name), n, d) && d in NameSet(Survivors(jobs, name))
  {
    SurvivingName(jobs, name, n);
    SurvivingName(jobs, name, d);
    EdgeReaches(jobs, n, d);
    if Reaches(jobs, d, name) {
      ReachesTransitive(jobs, n, d, name);
    }
    var j :| j in jobs && j.name == n && d in j.dependsOn;
    assert j in Survivors(jobs, name);
  }

  /** The edges of jobs that start in this part stay in it. */
  ghost predicate ClosedPart(jobs: seq<WorkflowJob>, part: seq<WorkflowJob>) {
    forall n, d :: n in NameSet(part) && DependsOn(jobs, n, d) ==> DependsOn(part, n, d) && d in NameSet(part)
  }

  lemma {:induction false} PathStays(jobs: seq<WorkflowJob>, part: seq<WorkflowJob>, p: seq<string>)
    requires ClosedPart(jobs, part) && Path(jobs, p) && p[0] in NameSet(part)
    ensures Path(part, p) && p[|p| - 1] in NameSet(part)
    decreases |p|
  {
    assert EdgeAt(jobs, p, 0);
    if |p| == 2 {
      assert EdgeAt(part, p, 0);
    } else {
      TailIsPath(jobs, p);
      PathStays(jobs, part, p[1..]);
      PathFromTail(part, p);
    }
  }

  lemma SurvivingPath(jobs: seq<WorkflowJob>, name: string, p: seq<string>)
    requires KnownDependencies(jobs) && Path(jobs, p) && p[0] in NameSet(Survivors(jobs, name))
    ensures Path(Survivors(jobs, name), p) && p[|p| - 1] in NameSet(Survivors(jobs, name))
  {
    var left := Survivors(jobs, name);
    forall n, d | n in NameSet(left) && DependsOn(jobs, n, d) ensures DependsOn(left, n, d) && d in NameSet(left) {
      SurvivingEdge(jobs, name, n, d);
    }
    PathStays(jobs, left, p);
  }

  lemma TailIsPath(jobs: seq<WorkflowJob>, p: seq<string>)
    requires |p| > 2 && Path(jobs, p)
    ensures Path(jobs, p[1..])
  {
    WalkSlice(jobs, p, 1, |p|);
    assert p[1..|p|] == p[1..];
  }

  /** An edge in front of a path makes a path. */
  lemma PathFromTail(jobs: seq<WorkflowJob>, p: seq<string>)
    requires |p| > 2 && DependsOn(jobs, p[0], p[1]) && Path(jobs, p[1..])
    ensures Path(jobs, p)
  {
    forall k | 0 <= k < |p| - 1 ensures EdgeAt(jobs, p, k) {
      if k > 0 {
        assert EdgeAt(jobs, p[1..], k - 1);
      }
    }
  }

  /** Taking a job and all its descendants out of an accepted workflow leaves an accepted workflow. */
  lemma SurvivorsAreValid(jobs: seq<WorkflowJob>, name: string)
    requires ValidWorkflow(jobs)
    ensures ValidWorkflow(Survivors(jobs, name))
  {
    var left := Survivors(jobs, name);
    forall j, d | j in left && d in j.dependsOn ensures d in NameSet(left) {
      assert DependsOn(jobs, j.name, d);
      SurvivingEdge(jobs, name, j.name, d);
    }
    forall n ensures !Reaches(left, n, n) {
      SurvivingReach(jobs, name, n, n);
    }
    forall j, b | j in left && b in j.inputs ensures FromHolds(left, j, b) {
      assert FromHolds(jobs, j, b);
      if b.from != "" {
        var (upstream, output) := SplitDotRef(b.from);
        SurvivingReach(jobs, name, j.name, upstream);
        var u :| u in jobs && u.name == upstream && Declares(u, output);
        assert u in left;
      }
    }
  }
}
