/**
 TopologicalSort (internal/cluster/dag.go): Kahn's algorithm over the dependency
 multigraph. A dependency listed twice counts twice in the in-degree and twice in
 the downstream list, so the bookkeeping below is in multisets.
 */
module Kahn {
  import opened Workflows

  datatype SortResult = Sorted(order: seq<string>) | CycleError(involves: set<string>)

  // ---- What the adjacency maps hold ---------------------------------------

  /** Per job name, the dependency entries listed under it, with multiplicity. */
  type Entries = map<string, multiset<string>>

  ghost predicate EntriesOf(jobs: seq<WorkflowJob>, entries: Entries) {
    && entries.Keys == NameSet(jobs)
    && forall n, d :: n in entries ==> (d in entries[n] <==> DependsOn(jobs, n, d))
  }

  /** How often d is listed under the name n. */
  function EntryCount(jobs: seq<WorkflowJob>, n: string, d: string): nat {
    if jobs == [] then 0
    else
      var last := jobs[|jobs| - 1];
      EntryCount(jobs[..|jobs| - 1], n, d) + if last.name == n then multiset(last.dependsOn)[d] else 0
  }

  /** How many entries are listed under the name n. */
  function EntryTotal(jobs: seq<WorkflowJob>, n: string): nat {
    if jobs == [] then 0
    else
      var last := jobs[|jobs| - 1];
      EntryTotal(jobs[..|jobs| - 1], n) + if last.name == n then |last.dependsOn| else 0
  }

  ghost predicate CountedAt(jobs: seq<WorkflowJob>, entries: Entries, n: string) {
    n in entries ==> |entries[n]| == EntryTotal(jobs, n) && forall d :: entries[n][d] == EntryCount(jobs, n, d)
  }

  lemma CountsAppend(jobs: seq<WorkflowJob>, j: WorkflowJob, n: string)
    ensures EntryTotal(jobs + [j], n) == EntryTotal(jobs, n) + if j.name == n then |j.dependsOn| else 0
    ensures forall d ::
      EntryCount(jobs + [j], n, d) == EntryCount(jobs, n, d) + if j.name == n then multiset(j.dependsOn)[d] else 0
  {
    assert (jobs + [j])[..|jobs|] == jobs;
  }

  lemma {:induction false} UnknownHasNoEntries(jobs: seq<WorkflowJob>, n: string)
    requires n !in NameSet(jobs)
    ensures EntryTotal(jobs, n) == 0 && forall d :: EntryCount(jobs, n, d) == 0
    decreases |jobs|
  {
    if jobs == [] {
    } else {
      var init, last := jobs[..|jobs| - 1], jobs[|jobs| - 1];
      assert jobs == init + [last];
      NameSetAppend(init, last);
      UnknownHasNoEntries(init, n);
      CountsAppend(init, last, n);
    }
  }

  lemma CountedAddJob(jobs: seq<WorkflowJob>, j: WorkflowJob, entries: Entries, n: string)
    requires entries.Keys == NameSet(jobs) && CountedAt(jobs, entries, n) && j.dependsOn == []
    ensures CountedAt(jobs + [j], if j.name in entries then entries else entries[j.name := multiset{}], n)
  {
    CountsAppend(jobs, j, n);
    if n !in entries {
      UnknownHasNoEntries(jobs, n);
    }
  }

  lemma CountedAddEntry(jobs: seq<WorkflowJob>, j: WorkflowJob, d: string, entries: Entries, n: string)
    requires CountedAt(jobs + [j], entries, n) && j.name in entries
    ensures CountedAt(jobs + [j.(dependsOn := j.dependsOn + [d])], entries[j.name := entries[j.name] + multiset{d}], n)
  {
    CountsAppend(jobs, j, n);
    CountsAppend(jobs, j.(dependsOn := j.dependsOn + [d]), n);
  }

  function Children(downstream: map<string, seq<string>>, d: string): seq<string> {
    if d in downstream then downstream[d] else []
  }

  /** d occurs in the entries of n as often as n occurs among the children of d. */
  ghost predicate Mirrored(downstream: map<string, seq<string>>, entries: Entries, d: string, n: string) {
    multiset(Children(downstream, d))[n] == if n in entries then entries[n][d] else 0
  }

  ghost predicate Adjacency(inDegree: map<string, int>, downstream: map<string, seq<string>>, entries: Entries) {
    && inDegree.Keys == entries.Keys
    && (forall n :: n in entries ==> inDegree[n] == |entries[n]|)
    && (forall d, n :: Mirrored(downstream, entries, d, n))
  }

  lemma NameSetAppend(jobs: seq<WorkflowJob>, j: WorkflowJob)
    ensures NameSet(jobs + [j]) == NameSet(jobs) + {j.name}
  {
    assert j in jobs + [j];
    forall x | x in NameSet(jobs) ensures x in NameSet(jobs + [j]) {
      var k :| k in jobs && k.name == x;
      assert k in jobs + [j];
    }
  }

  lemma DependsOnAppend(jobs: seq<WorkflowJob>, j: WorkflowJob, n: string, d: string)
    ensures DependsOn(jobs + [j], n, d) <==> DependsOn(jobs, n, d) || (j.name == n && d in j.dependsOn)
  {
    assert j in jobs + [j];
    if DependsOn(jobs, n, d) {
      var k :| k in jobs && k.name == n && d in k.dependsOn;
      assert k in jobs + [j];
    }
  }

  lemma EntriesAddJob(jobs: seq<WorkflowJob>, j: WorkflowJob, entries: Entries)
    requires EntriesOf(jobs, entries) && j.dependsOn == []
    ensures EntriesOf(jobs + [j], if j.name in entries then entries else entries[j.name := multiset{}])
  {
    NameSetAppend(jobs, j);
    forall n, d ensures DependsOn(jobs + [j], n, d) <==> DependsOn(jobs, n, d) {
      DependsOnAppend(jobs, j, n, d);
    }
  }

  lemma DependsOnAddEntry(jobs: seq<WorkflowJob>, j: WorkflowJob, d: string, n: string, e: string)
    ensures DependsOn(jobs + [j.(dependsOn := j.dependsOn + [d])], n, e) <==>
              DependsOn(jobs + [j], n, e) || (n == j.name && e == d)
  {
    DependsOnAppend(jobs, j, n, e);
    DependsOnAppend(jobs, j.(dependsOn := j.dependsOn + [d]), n, e);
  }

  lemma EntriesAddEntry(jobs: seq<WorkflowJob>, j: WorkflowJob, d: string, entries: Entries)
    requires EntriesOf(jobs + [j], entries)
    ensures j.name in entries
    ensures EntriesOf(jobs + [j.(dependsOn := j.dependsOn + [d])], entries[j.name := entries[j.name] + multiset{d}])
  {
    var j' := j.(dependsOn := j.dependsOn + [d]);
    NameSetAppend(jobs, j);
    NameSetAppend(jobs, j');
    assert entries.Keys == NameSet(jobs + [j']);
    var entries' := entries[j.name := entries[j.name] + multiset{d}];
    forall n, e | n in entries' ensures e in entries'[n] <==> DependsOn(jobs + [j'], n, e) {
      DependsOnAddEntry(jobs, j, d, n, e);
    }
  }

  lemma CountWithOneMore(names: seq<string>, n: string, n': string)
    ensures multiset(names + [n])[n'] == multiset(names)[n'] + if n == n' then 1 else 0
  {
  }

  lemma MirroredAddEntry(downstream: map<string, seq<string>>, entries: Entries, n: string, d: string, d': string,
                         n': string)
    requires n in entries && Mirrored(downstream, entries, d', n')
    ensures Mirrored(downstream[d := Children(downstream, d) + [n]], entries[n := entries[n] + multiset{d}], d', n')
  {
    var downstream' := downstream[d := Children(downstream, d) + [n]];
    if d' == d {
      assert Children(downstream', d') == Children(downstream, d) + [n];
      CountWithOneMore(Children(downstream, d), n, n');
    } else {
      assert Children(downstream', d') == Children(downstream, d');
    }
  }

  lemma AdjacencyAddEntry(inDegree: map<string, int>, downstream: map<string, seq<string>>, entries: Entries, n: string,
                          d: string)
    requires Adjacency(inDegree, downstream, entries) && n in entries
    ensures Adjacency(inDegree[n := inDegree[n] + 1],
                      downstream[d := Children(downstream, d) + [n]],
                      entries[n := entries[n] + multiset{d}])
  {
    var downstream', entries' := downstream[d := Children(downstream, d) + [n]], entries[n := entries[n] + multiset{d}];
    forall d', n' ensures Mirrored(downstream', entries', d', n') {
      MirroredAddEntry(downstream, entries, n, d, d', n');
    }
  }

  lemma AdjacencyAddJob(inDegree: map<string, int>, downstream: map<string, seq<string>>, entries: Entries, n: string)
    requires Adjacency(inDegree, downstream, entries) && n !in entries
    ensures Adjacency(inDegree[n := 0], downstream, entries[n := multiset{}])
  {
    var entries' := entries[n := multiset{}];
    forall d', n' ensures Mirrored(downstream, entries', d', n') {
      assert Mirrored(downstream, entries, d', n');
    }
  }

  /** The maps describe the dependency entries of exactly these jobs. */
  ghost predicate Describes(jobs: seq<WorkflowJob>, inDegree: map<string, int>, downstream: map<string, seq<string>>,
                            entries: Entries) {
    EntriesOf(jobs, entries) && Adjacency(inDegree, downstream, entries) && forall n :: CountedAt(jobs, entries, n)
  }

  lemma DescribesAddJob(jobs: seq<WorkflowJob>, j: WorkflowJob, inDegree: map<string, int>,
                        downstream: map<string, seq<string>>, entries: Entries)
    returns (entries': Entries)
    requires Describes(jobs, inDegree, downstream, entries)
    ensures Describes(jobs + [j.(dependsOn := j.dependsOn[..0])],
                      if j.name in inDegree then inDegree else inDegree[j.name := 0], downstream, entries')
  {
    assert j.dependsOn[..0] == [];
    EntriesAddJob(jobs, j.(dependsOn := []), entries);
    var jobs' := jobs + [j.(dependsOn := [])];
    var grown := if j.name in entries then entries else entries[j.name := multiset{}];
    forall n ensures CountedAt(jobs', grown, n) {
      CountedAddJob(jobs, j.(dependsOn := []), entries, n);
    }
    if j.name in inDegree {
      entries' := entries;
    } else {
      AdjacencyAddJob(inDegree, downstream, entries, j.name);
      entries' := entries[j.name := multiset{}];
    }
  }

  lemma DescribesAddEntry(jobs: seq<WorkflowJob>, j: WorkflowJob, k: nat, inDegree: map<string, int>,
                          downstream: map<string, seq<string>>, entries: Entries)
    returns (entries': Entries)
    requires k < |j.dependsOn|
    requires Describes(jobs + [j.(dependsOn := j.dependsOn[..k])], inDegree, downstream, entries)
    ensures j.name in inDegree
    ensures var d := j.dependsOn[k];
            Describes(jobs + [j.(dependsOn := j.dependsOn[..k + 1])], inDegree[j.name := inDegree[j.name] + 1],
                      downstream[d := Children(downstream, d) + [j.name]], entries')
  {
    var d := j.dependsOn[k];
    assert j.dependsOn[..k + 1] == j.dependsOn[..k] + [d];
    EntriesAddEntry(jobs, j.(dependsOn := j.dependsOn[..k]), d, entries);
    AdjacencyAddEntry(inDegree, downstream, entries, j.name, d);
    entries' := entries[j.name := entries[j.name] + multiset{d}];
    var jobs' := jobs + [j.(dependsOn := j.dependsOn[..k + 1])];
    forall n ensures CountedAt(jobs', entries', n) {
      CountedAddEntry(jobs, j.(dependsOn := j.dependsOn[..k]), d, entries, n);
    }
  }

  method AddJob(j: WorkflowJob, inDegree0: map<string, int>, downstream0: map<string, seq<string>>,
                ghost jobs: seq<WorkflowJob>, ghost entries0: Entries)
    returns (inDegree: map<string, int>, downstream: map<string, seq<string>>, ghost entries: Entries)
    requires Describes(jobs, inDegree0, downstream0, entries0)
    ensures Describes(jobs + [j], inDegree, downstream, entries)
  {
    inDegree, downstream := inDegree0, downstream0;
    entries := DescribesAddJob(jobs, j, inDegree, downstream, entries0);
    if j.name !in inDegree {
      inDegree := inDegree[j.name := 0];
    }
    for k := 0 to |j.dependsOn|
      invariant Describes(jobs + [j.(dependsOn := j.dependsOn[..k])], inDegree, downstream, entries)
    {
      var d := j.dependsOn[k];
      entries := DescribesAddEntry(jobs, j, k, inDegree, downstream, entries);
      downstream := downstream[d := Children(downstream, d) + [j.name]];
      inDegree := inDegree[j.name := inDegree[j.name] + 1];
    }
    assert j.dependsOn[..|j.dependsOn|] == j.dependsOn;
  }

  method BuildAdjacency(jobs: seq<WorkflowJob>)
    returns (inDegree: map<string, int>, downstream: map<string, seq<string>>, ghost entries: Entries)
    ensures Describes(jobs, inDegree, downstream, entries)
    ensures inDegree.Keys == NameSet(jobs) && forall n :: n in inDegree ==> inDegree[n] == EntryTotal(jobs, n)
    ensures forall d, n :: n in inDegree ==> multiset(Children(downstream, d))[n] == EntryCount(jobs, n, d)
  {
    inDegree, downstream, entries := map[], map[], map[];
    for i := 0 to |jobs|
      invariant Describes(jobs[..i], inDegree, downstream, entries)
    {
      inDegree, downstream, entries := AddJob(jobs[i], inDegree, downstream, jobs[..i], entries);
      assert jobs[..i + 1] == jobs[..i] + [jobs[i]];
    }
    assert jobs[..|jobs|] == jobs;
    forall n | n in inDegree ensures inDegree[n] == EntryTotal(jobs, n) {
      assert CountedAt(jobs, entries, n);
    }
    forall d, n | n in inDegree ensures multiset(Children(downstream, d))[n] == EntryCount(jobs, n, d) {
      assert CountedAt(jobs, entries, n) && Mirrored(downstream, entries, d, n);
    }
  }

  // ---- Releasing the children of a removed job ------------------------------

  ghost predicate Lowered(before: map<string, int>, after: map<string, int>, drop: multiset<string>) {
    && after.Keys == before.Keys
    && forall n :: n in before ==> after[n] == before[n] - drop[n]
  }

  /** The names whose in-degree dropped from positive to zero or below, each once. */
  ghost predicate Crossed(before: map<string, int>, after: map<string, int>, freed: seq<string>) {
    && NoDuplicates(freed)
    && forall n :: n in freed <==> n in before && n in after && before[n] > 0 && after[n] <= 0
  }

  method ReleaseChildren(children: seq<string>, inDegree0: map<string, int>, queue0: seq<string>)
    returns (inDegree: map<string, int>, queue: seq<string>, ghost freed: seq<string>)
    requires forall c :: c in children ==> c in inDegree0
    ensures Lowered(inDegree0, inDegree, multiset(children))
    ensures queue == queue0 + freed && Crossed(inDegree0, inDegree, freed)
  {
    inDegree, queue, freed := inDegree0, queue0, [];
    for k := 0 to |children|
      invariant Lowered(inDegree0, inDegree, multiset(children[..k]))
      invariant queue == queue0 + freed && Crossed(inDegree0, inDegree, freed)
    {
      var child := children[k];
      assert children[..k + 1] == children[..k] + [child];
      inDegree := inDegree[child := inDegree[child] - 1];
      if inDegree[child] == 0 {
        queue := queue + [child];
        freed := freed + [child];
      }
    }
    assert children[..|children|] == children;
  }

  // ---- The state of the main loop ------------------------------------------

  ghost predicate PlacedAt(inDegree: map<string, int>, placed: seq<string>, n: string)
  {
    n in placed <==> n in inDegree && inDegree[n] <= 0
  }

  /** Exactly the jobs whose in-degree has run out have been placed (removed or queued). */
  ghost predicate Placed(jobs: seq<WorkflowJob>, inDegree: map<string, int>, placed: seq<string>) {
    && inDegree.Keys == NameSet(jobs)
    && forall n :: PlacedAt(inDegree, placed, n)
  }

  ghost predicate PendingAt(entries: Entries, removed: seq<string>, pending: Entries, n: string, d: string)
    requires n in entries && n in pending
  {
    pending[n][d] == if d in removed then 0 else entries[n][d]
  }

  /** pending[n] holds the entries of n whose job has not been removed yet; the in-degree counts them. */
  ghost predicate Counts(entries: Entries, inDegree: map<string, int>, removed: seq<string>, pending: Entries) {
    && pending.Keys == inDegree.Keys == entries.Keys
    && (forall n :: n in pending ==> inDegree[n] == |pending[n]|)
    && (forall n, d :: n in pending ==> PendingAt(entries, removed, pending, n, d))
  }

  ghost predicate DependenciesFirst(jobs: seq<WorkflowJob>, order: seq<string>) {
    forall k, d :: 0 <= k < |order| && DependsOn(jobs, order[k], d) ==> d in order[..k]
  }

  function Positive(inDegree: map<string, int>): set<string> {
    set n | n in inDegree && inDegree[n] > 0
  }

  lemma RemoveCounts(downstream: map<string, seq<string>>, entries: Entries,
                     before: map<string, int>, after: map<string, int>,
                     removed: seq<string>, pending: Entries, name: string)
    returns (pending': Entries)
    requires forall d, n :: Mirrored(downstream, entries, d, n)
    requires Counts(entries, before, removed, pending) && name !in removed
    requires Lowered(before, after, multiset(Children(downstream, name)))
    ensures Counts(entries, after, removed + [name], pending')
  {
    pending' := map n | n in pending :: if name in pending[n] then pending[n][name := 0] else pending[n];
    forall n, d | n in pending' ensures PendingAt(entries, removed + [name], pending', n, d) {
      assert PendingAt(entries, removed, pending, n, d);
    }
    forall n | n in pending ensures after[n] == |pending'[n]| {
      assert Mirrored(downstream, entries, name, n);
      assert PendingAt(entries, removed, pending, n, name);
      assert pending[n] == pending'[n][name := pending[n][name]];
      assert |pending'[n][name := pending[n][name]]| == |pending'[n]| + pending[n][name];
    }
  }

  /** A job whose in-degree ran out has all its dependencies among the removed. */
  lemma PlacedIsFree(jobs: seq<WorkflowJob>, entries: Entries, inDegree: map<string, int>, removed: seq<string>,
                     pending: Entries, n: string, d: string)
    requires EntriesOf(jobs, entries) && Counts(entries, inDegree, removed, pending)
    requires n in inDegree && inDegree[n] <= 0 && DependsOn(jobs, n, d)
    ensures d in removed
  {
    assert pending[n] == multiset{};
    assert PendingAt(entries, removed, pending, n, d);
    assert d in entries[n] && entries[n][d] > 0;
  }

  /** A job that was never placed still waits for one that was never removed. */
  lemma UnplacedWaits(jobs: seq<WorkflowJob>, entries: Entries, inDegree: map<string, int>, removed: seq<string>,
                      pending: Entries, n: string)
    requires EntriesOf(jobs, entries) && Counts(entries, inDegree, removed, pending)
    requires n in inDegree && inDegree[n] > 0
    ensures WaitsOutside(jobs, removed, n)
  {
    var d :| d in pending[n];
    assert PendingAt(entries, removed, pending, n, d);
    assert d in entries[n];
    assert DependsOn(jobs, n, d);
  }

  ghost predicate WaitsOutside(jobs: seq<WorkflowJob>, removed: seq<string>, n: string) {
    exists d :: DependsOn(jobs, n, d) && d !in removed
  }

  // ---- What the removed prefix means ----------------------------------------

  /** n needs, or is, a job on a cycle or a name no job carries. */
  ghost predicate Blocked(jobs: seq<WorkflowJob>, n: string) {
    exists m :: ReachesOrIs(jobs, n, m) && (Reaches(jobs, m, m) || m !in NameSet(jobs))
  }

  lemma {:induction false} OrderDescends(jobs: seq<WorkflowJob>, order: seq<string>, p: seq<string>, k: nat)
    requires DependenciesFirst(jobs, order)
    requires Path(jobs, p) && k < |order| && order[k] == p[0]
    ensures p[|p| - 1] in order[..k]
    decreases |p|
  {
    assert EdgeAt(jobs, p, 0);
    assert p[1] in order[..k];
    if |p| > 2 {
      var i :| 0 <= i < k && order[i] == p[1];
      WalkSlice(jobs, p, 1, |p|);
      OrderDescends(jobs, order, p[1..|p|], i);
    }
  }

  /** In an order with dependencies first, whatever a job needs stands strictly before it. */
  lemma NeededComesEarlier(jobs: seq<WorkflowJob>, order: seq<string>, k: nat, m: string)
    requires DependenciesFirst(jobs, order) && k < |order| && Reaches(jobs, order[k], m)
    ensures m in order[..k]
  {
    var p :| Path(jobs, p) && p[0] == order[k] && p[|p| - 1] == m;
    OrderDescends(jobs, order, p, k);
  }

  lemma PlacedNotBlocked(jobs: seq<WorkflowJob>, order: seq<string>, n: string)
    requires DependenciesFirst(jobs, order) && NoDuplicates(order)
    requires forall x :: x in order ==> x in NameSet(jobs)
    requires n in order
    ensures !Blocked(jobs, n)
  {
    if Blocked(jobs, n) {
      var m :| ReachesOrIs(jobs, n, m) && (Reaches(jobs, m, m) || m !in NameSet(jobs));
      var k :| 0 <= k < |order| && order[k] == n;
      if n != m {
        NeededComesEarlier(jobs, order, k, m);
      }
      assert m in order;
      var i :| 0 <= i < |order| && order[i] == m;
      NeededComesEarlier(jobs, order, i, m);
      assert false;
    }
  }

  lemma UnplacedBlocked(jobs: seq<WorkflowJob>, order: seq<string>, n: string)
    requires n in NameSet(jobs) && n !in order
    requires forall x {:trigger WaitsOutside(jobs, order, x)} :: x in NameSet(jobs) && x !in order ==>
      WaitsOutside(jobs, order, x)
    ensures Blocked(jobs, n)
  {
    if !Blocked(jobs, n) {
      var s := set x | x in NameSet(jobs) && x !in order && !Blocked(jobs, x);
      forall x | x in s ensures NeedsWithin(jobs, s, x) {
        assert WaitsOutside(jobs, order, x);
        var d :| DependsOn(jobs, x, d) && d !in order;
        EdgeReaches(jobs, x, d);
        if d !in s {
          assert d !in NameSet(jobs) || Blocked(jobs, d);
          BlockedPropagates(jobs, x, d);
        }
      }
      var cycle := TrappedReachesCycle(jobs, s, n);
      assert Reaches(jobs, cycle[0], cycle[0]);
    }
  }

  lemma BlockedPropagates(jobs: seq<WorkflowJob>, x: string, d: string)
    requires Reaches(jobs, x, d) && (d !in NameSet(jobs) || Blocked(jobs, d))
    ensures Blocked(jobs, x)
  {
    if d !in NameSet(jobs) {
      assert ReachesOrIs(jobs, x, d);
    } else {
      var m :| ReachesOrIs(jobs, d, m) && (Reaches(jobs, m, m) || m !in NameSet(jobs));
      if d != m {
        ReachesTransitive(jobs, x, d, m);
      }
      assert ReachesOrIs(jobs, x, m);
    }
  }

  /** No job is blocked exactly when the graph is a closed DAG. */
  lemma UnblockedIffDag(jobs: seq<WorkflowJob>)
    ensures (forall n :: n in NameSet(jobs) ==> !Blocked(jobs, n)) <==> Acyclic(jobs) && KnownDependencies(jobs)
  {
    if forall n :: n in NameSet(jobs) ==> !Blocked(jobs, n) {
      forall n ensures !Reaches(jobs, n, n) {
        if Reaches(jobs, n, n) {
          var d := FirstStep(jobs, n, n);
          assert n in NameSet(jobs);
          assert ReachesOrIs(jobs, n, n);
          assert Blocked(jobs, n);
        }
      }
      forall j, d | j in jobs && d in j.dependsOn ensures d in NameSet(jobs) {
        assert DependsOn(jobs, j.name, d);
        EdgeReaches(jobs, j.name, d);
        assert ReachesOrIs(jobs, j.name, d);
        assert j.name in NameSet(jobs);
        assert d !in NameSet(jobs) ==> Blocked(jobs, j.name);
      }
    }
    if Acyclic(jobs) && KnownDependencies(jobs) {
      forall n | n in NameSet(jobs) ensures !Blocked(jobs, n) {
        if Blocked(jobs, n) {
          var m :| ReachesOrIs(jobs, n, m) && (Reaches(jobs, m, m) || m !in NameSet(jobs));
          if n != m {
            var d := LastStep(jobs, n, m);
          }
          assert false;
        }
      }
    }
  }

  /** order lists every job exactly once, each after everything it depends on. */
  ghost predicate IsTopologicalOrder(jobs: seq<WorkflowJob>, order: seq<string>) {
    && NoDuplicates(order)
    && (forall n :: n in order <==> n in NameSet(jobs))
    && DependenciesFirst(jobs, order)
  }

  lemma {:induction false} UniqueNamesCount(jobs: seq<WorkflowJob>)
    requires UniqueNames(jobs)
    ensures |NameSet(jobs)| == |jobs|
  {
    if jobs == [] {
    } else {
      var last := jobs[|jobs| - 1];
      var front := jobs[..|jobs| - 1];
      UniqueNamesCount(front);
      assert jobs == front + [last];
      NameSetAppend(front, last);
    }
  }

  ghost predicate CycleWithin(jobs: seq<WorkflowJob>, s: set<string>) {
    exists cycle :: Path(jobs, cycle) && cycle[0] == cycle[|cycle| - 1] && forall x :: x in cycle ==> x in s
  }

  /** The jobs a failed sort reports hold an actual cycle when every dependency is a known job. */
  lemma ReportHoldsCycle(jobs: seq<WorkflowJob>, order: seq<string>, left: set<string>)
    requires KnownDependencies(jobs)
    requires forall x :: x in left <==> x in NameSet(jobs) && x !in order
    requires forall x {:trigger WaitsOutside(jobs, order, x)} :: x in left ==> WaitsOutside(jobs, order, x)
    requires left != {}
    ensures CycleWithin(jobs, left)
  {
    forall x | x in left ensures NeedsWithin(jobs, left, x) {
      assert WaitsOutside(jobs, order, x);
      var d :| DependsOn(jobs, x, d) && d !in order;
      assert d in left;
    }
    assert NoWayOut(jobs, left);
    var n :| n in left;
    var cycle := TrappedReachesCycle(jobs, left, n);
  }

  method SeedQueue(jobs: seq<WorkflowJob>, inDegree: map<string, int>) returns (queue: seq<string>)
    requires inDegree.Keys == NameSet(jobs)
    requires forall n :: n in inDegree ==> inDegree[n] >= 0
    ensures Placed(jobs, inDegree, queue)
    ensures UniqueNames(jobs) ==> NoDuplicates(queue)
  {
    queue := [];
    for i := 0 to |jobs|
      invariant forall n :: n in queue <==> exists k :: 0 <= k < i && jobs[k].name == n && inDegree[n] == 0
      invariant UniqueNames(jobs) ==> NoDuplicates(queue)
    {
      if inDegree[jobs[i].name] == 0 {
        queue := queue + [jobs[i].name];
      }
    }
  }

  method TopologicalSort(jobs: seq<WorkflowJob>) returns (r: SortResult)
    ensures r.Sorted? ==> |r.order| == |jobs|
    // it succeeds exactly on closed acyclic graphs, and then returns a topological order of all jobs
    ensures UniqueNames(jobs) ==> (r.Sorted? <==> Acyclic(jobs) && KnownDependencies(jobs))
    ensures UniqueNames(jobs) && r.Sorted? ==> IsTopologicalOrder(jobs, r.order)
    // on failure it names exactly the jobs that cannot be ordered, and they hold a cycle
    ensures UniqueNames(jobs) && r.CycleError? ==> forall n :: n in r.involves <==>
      n in NameSet(jobs) && Blocked(jobs, n)
    ensures UniqueNames(jobs) && r.CycleError? && KnownDependencies(jobs) ==> CycleWithin(jobs, r.involves)
  {
    ghost var entries;
    var inDegree, downstream;
    inDegree, downstream, entries := BuildAdjacency(jobs);
    var queue := SeedQueue(jobs, inDegree);
    ghost var pending;
    var sorted;
    sorted, inDegree, pending := Drain(jobs, inDegree, downstream, queue, entries);
    assert sorted + [] == sorted;
    if UniqueNames(jobs) {
      SortOutcome(jobs, entries, inDegree, sorted, pending);
    }
    if |sorted| != |jobs| {
      r := CycleError(Positive(inDegree));
    } else {
      r := Sorted(sorted);
    }
  }

  /** What the main loop keeps when names are unique. */
  ghost predicate Progress(jobs: seq<WorkflowJob>, entries: Entries, inDegree: map<string, int>,
                           sorted: seq<string>, queue: seq<string>, pending: Entries)
  {
    && NoDuplicates(sorted + queue)
    && Counts(entries, inDegree, sorted, pending)
    && DependenciesFirst(jobs, sorted)
  }

  /** The main loop: remove a queued job, release its children, until the queue runs dry. */
  method Drain(jobs: seq<WorkflowJob>, inDegree0: map<string, int>, downstream: map<string, seq<string>>,
               queue0: seq<string>, ghost entries: Entries)
    returns (sorted: seq<string>, inDegree: map<string, int>, ghost pending: Entries)
    requires EntriesOf(jobs, entries) && Adjacency(inDegree0, downstream, entries)
    requires Placed(jobs, inDegree0, queue0) && (UniqueNames(jobs) ==> NoDuplicates(queue0))
    ensures Placed(jobs, inDegree, sorted)
    ensures UniqueNames(jobs) ==> Progress(jobs, entries, inDegree, sorted, [], pending)
  {
    var queue := queue0;
    sorted, inDegree, pending := [], inDegree0, entries;
    LoopStart(jobs, downstream, entries, inDegree, queue);
    while |queue| > 0
      invariant LoopInv(jobs, entries, inDegree, sorted, queue, pending)
      decreases Positive(inDegree), |queue|
    {
      var name := queue[0];
      inDegree, queue, pending := RemoveNext(jobs, inDegree, downstream, sorted, queue, entries, pending);
      sorted := sorted + [name];
    }
    assert queue == [];
    assert sorted + queue == sorted;
  }

  ghost predicate LoopInv(jobs: seq<WorkflowJob>, entries: Entries, inDegree: map<string, int>,
                          sorted: seq<string>, queue: seq<string>, pending: Entries)
  {
    Placed(jobs, inDegree, sorted + queue) &&
      (UniqueNames(jobs) ==> Progress(jobs, entries, inDegree, sorted, queue, pending))
  }

  /** One turn of the loop: the head of the queue is removed and its children released. */
  method RemoveNext(ghost jobs: seq<WorkflowJob>, inDegree: map<string, int>, downstream: map<string, seq<string>>,
                    ghost sorted: seq<string>, queue: seq<string>, ghost entries: Entries, ghost pending: Entries)
    returns (inDegree': map<string, int>, queue': seq<string>, ghost pending': Entries)
    requires EntriesOf(jobs, entries) && forall d, n :: Mirrored(downstream, entries, d, n)
    requires queue != [] && LoopInv(jobs, entries, inDegree, sorted, queue, pending)
    ensures LoopInv(jobs, entries, inDegree', sorted + [queue[0]], queue', pending')
    ensures Positive(inDegree') < Positive(inDegree) ||
      (Positive(inDegree') == Positive(inDegree) && |queue'| < |queue|)
  {
    ghost var freed;
    assert forall c :: c in Children(downstream, queue[0]) ==> c in inDegree by {
      ChildrenAreJobs(downstream, entries, queue[0]);
    }
    inDegree', queue', freed := ReleaseChildren(Children(downstream, queue[0]), inDegree, queue[1..]);
    pending' := LoopStep(jobs, downstream, entries, inDegree, inDegree', sorted, queue, freed, pending);
  }

  lemma LoopStart(jobs: seq<WorkflowJob>, downstream: map<string, seq<string>>, entries: Entries,
                  inDegree: map<string, int>, queue: seq<string>)
    requires Adjacency(inDegree, downstream, entries) && Placed(jobs, inDegree, queue)
    requires UniqueNames(jobs) ==> NoDuplicates(queue)
    ensures Placed(jobs, inDegree, [] + queue)
    ensures UniqueNames(jobs) ==> Progress(jobs, entries, inDegree, [], queue, entries)
  {
    assert [] + queue == queue;
    forall n, d | n in entries ensures PendingAt(entries, [], entries, n, d) {
    }
  }

  lemma LoopStep(jobs: seq<WorkflowJob>, downstream: map<string, seq<string>>, entries: Entries,
                 before: map<string, int>, after: map<string, int>,
                 sorted: seq<string>, queue: seq<string>, freed: seq<string>, pending: Entries)
    returns (pending': Entries)
    requires EntriesOf(jobs, entries) && forall d, n :: Mirrored(downstream, entries, d, n)
    requires queue != [] && Placed(jobs, before, sorted + queue)
    requires UniqueNames(jobs) ==> Progress(jobs, entries, before, sorted, queue, pending)
    requires Lowered(before, after, multiset(Children(downstream, queue[0]))) && Crossed(before, after, freed)
    ensures Placed(jobs, after, sorted + [queue[0]] + (queue[1..] + freed))
    ensures UniqueNames(jobs) ==> Progress(jobs, entries, after, sorted + [queue[0]], queue[1..] + freed, pending')
    ensures Positive(after) <= Positive(before)
    ensures freed != [] ==> Positive(after) < Positive(before)
  {
    pending' := pending;
    if UniqueNames(jobs) {
      pending' := ProgressStep(jobs, downstream, entries, before, after, sorted, queue, freed, pending);
    }
    assert sorted + [queue[0]] + (queue[1..] + freed) == sorted + queue + freed;
    PlacedStep(jobs, before, after, sorted + queue, freed);
  }

  lemma ProgressStep(jobs: seq<WorkflowJob>, downstream: map<string, seq<string>>, entries: Entries,
                     before: map<string, int>, after: map<string, int>,
                     sorted: seq<string>, queue: seq<string>, freed: seq<string>, pending: Entries)
    returns (pending': Entries)
    requires EntriesOf(jobs, entries) && forall d, n :: Mirrored(downstream, entries, d, n)
    requires queue != [] && Placed(jobs, before, sorted + queue)
    requires Progress(jobs, entries, before, sorted, queue, pending)
    requires Lowered(before, after, multiset(Children(downstream, queue[0]))) && Crossed(before, after, freed)
    ensures Progress(jobs, entries, after, sorted + [queue[0]], queue[1..] + freed, pending')
  {
    OrderStep(jobs, entries, before, sorted, queue, pending);
    DistinctStep(jobs, before, after, sorted, queue, freed);
    pending' := RemoveCounts(downstream, entries, before, after, sorted, pending, queue[0]);
  }

  lemma OrderStep(jobs: seq<WorkflowJob>, entries: Entries, inDegree: map<string, int>,
                  sorted: seq<string>, queue: seq<string>, pending: Entries)
    requires EntriesOf(jobs, entries) && queue != [] && Placed(jobs, inDegree, sorted + queue)
    requires Progress(jobs, entries, inDegree, sorted, queue, pending)
    ensures DependenciesFirst(jobs, sorted + [queue[0]]) && queue[0] !in sorted
  {
    NextIsFree(jobs, entries, inDegree, sorted, queue, pending);
    DependenciesFirstAppend(jobs, sorted, queue[0]);
  }

  lemma DistinctStep(jobs: seq<WorkflowJob>, before: map<string, int>, after: map<string, int>,
                     sorted: seq<string>, queue: seq<string>, freed: seq<string>)
    requires queue != [] && Placed(jobs, before, sorted + queue) && NoDuplicates(sorted + queue)
    requires Crossed(before, after, freed)
    requires after.Keys == before.Keys && forall n :: n in before ==> after[n] <= before[n]
    ensures NoDuplicates(sorted + [queue[0]] + (queue[1..] + freed))
  {
    PlacedStep(jobs, before, after, sorted + queue, freed);
    assert sorted + [queue[0]] + (queue[1..] + freed) == sorted + queue + freed;
  }

  /** The head of the queue is not removed yet, and all it depends on is. */
  lemma NextIsFree(jobs: seq<WorkflowJob>, entries: Entries, inDegree: map<string, int>,
                   sorted: seq<string>, queue: seq<string>, pending: Entries)
    requires EntriesOf(jobs, entries) && queue != [] && Placed(jobs, inDegree, sorted + queue)
    requires Progress(jobs, entries, inDegree, sorted, queue, pending)
    ensures queue[0] !in sorted
    ensures forall d :: DependsOn(jobs, queue[0], d) ==> d in sorted
  {
    var name, placed := queue[0], sorted + queue;
    assert placed[|sorted|] == name;
    assert PlacedAt(inDegree, placed, name);
    forall i | 0 <= i < |sorted| ensures sorted[i] != name {
      assert placed[i] == sorted[i];
    }
    forall d | DependsOn(jobs, name, d) ensures d in sorted {
      PlacedIsFree(jobs, entries, inDegree, sorted, pending, name, d);
    }
  }

  lemma DependenciesFirstAppend(jobs: seq<WorkflowJob>, order: seq<string>, n: string)
    requires DependenciesFirst(jobs, order)
    requires forall d :: DependsOn(jobs, n, d) ==> d in order
    ensures DependenciesFirst(jobs, order + [n])
  {
    forall k, d | 0 <= k < |order| + 1 && DependsOn(jobs, (order + [n])[k], d) ensures d in (order + [n])[..k] {
      if k < |order| {
        assert (order + [n])[..k] == order[..k];
      } else {
        assert (order + [n])[..k] == order;
      }
    }
  }

  lemma ChildrenAreJobs(downstream: map<string, seq<string>>, entries: Entries, d: string)
    requires forall d, n :: Mirrored(downstream, entries, d, n)
    ensures forall c :: c in Children(downstream, d) ==> c in entries
  {
    forall c | c in Children(downstream, d) ensures c in entries {
      assert c in multiset(Children(downstream, d));
      assert Mirrored(downstream, entries, d, c);
    }
  }

  lemma PlacedStep(jobs: seq<WorkflowJob>, before: map<string, int>, after: map<string, int>, placed: seq<string>,
                   freed: seq<string>)
    requires Placed(jobs, before, placed) && Crossed(before, after, freed)
    requires after.Keys == before.Keys && forall n :: n in before ==> after[n] <= before[n]
    ensures Placed(jobs, after, placed + freed)
    ensures NoDuplicates(placed) ==> NoDuplicates(placed + freed)
    ensures Positive(after) <= Positive(before)
    ensures freed != [] ==> Positive(after) < Positive(before)
  {
    if freed != [] {
      assert freed[0] in Positive(before) && freed[0] !in Positive(after);
    }
    forall n ensures PlacedAt(after, placed + freed, n) {
      assert PlacedAt(before, placed, n);
    }
    forall i, k | NoDuplicates(placed) && 0 <= i < k < |placed + freed|
      ensures (placed + freed)[i] != (placed + freed)[k]
    {
      if i < |placed| <= k {
        assert PlacedAt(before, placed, placed[i]);
        assert freed[k - |placed|] in freed;
      }
    }
  }

  lemma SortOutcome(jobs: seq<WorkflowJob>, entries: Entries, inDegree: map<string, int>, sorted: seq<string>,
                    pending: Entries)
    requires UniqueNames(jobs) && EntriesOf(jobs, entries)
    requires Placed(jobs, inDegree, sorted) && NoDuplicates(sorted)
    requires Counts(entries, inDegree, sorted, pending) && DependenciesFirst(jobs, sorted)
    ensures |sorted| == |jobs| <==> Acyclic(jobs) && KnownDependencies(jobs)
    ensures |sorted| == |jobs| ==> IsTopologicalOrder(jobs, sorted)
    ensures forall n :: n in Positive(inDegree) <==> n in NameSet(jobs) && Blocked(jobs, n)
    ensures |sorted| != |jobs| && KnownDependencies(jobs) ==> CycleWithin(jobs, Positive(inDegree))
  {
    var names, left := NameSet(jobs), Positive(inDegree);
    forall n | n in sorted ensures n in names {
      assert PlacedAt(inDegree, sorted, n);
    }
    forall x | x in left ensures WaitsOutside(jobs, sorted, x) {
      UnplacedWaits(jobs, entries, inDegree, sorted, pending, x);
    }
    forall n | n in names ensures (n in sorted <==> n !in left) && (n in left <==> Blocked(jobs, n)) {
      assert PlacedAt(inDegree, sorted, n);
      if n in left {
        assert forall x :: x in names && x !in sorted ==> x in left by {
          forall x | x in names && x !in sorted ensures x in left {
            assert PlacedAt(inDegree, sorted, x);
          }
        }
        UnplacedBlocked(jobs, sorted, n);
      } else {
        PlacedNotBlocked(jobs, sorted, n);
      }
    }
    UniqueNamesCount(jobs);
    NoDuplicatesFits(sorted, names);
    UnblockedIffDag(jobs);
    if left == {} {
      NoDuplicatesCovers(sorted, names);
    } else {
      var x :| x in left;
      assert x !in sorted && x in names;
      if KnownDependencies(jobs) {
        ReportHoldsCycle(jobs, sorted, left);
      }
    }
  }

  lemma {:induction false} NoDuplicatesCovers(s: seq<string>, universe: set<string>)
    requires NoDuplicates(s) && forall x :: x in s <==> x in universe
    ensures |s| == |universe|
  {
    if s != [] {
      var last, rest := s[|s| - 1], s[..|s| - 1];
      assert s == rest + [last];
      NoDuplicatesCovers(rest, universe - {last});
    } else {
      assert universe == {};
    }
  }
}
