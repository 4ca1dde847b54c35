/**
 Puts together with Deletes of any name. A Delete may name a live tempfile, since any path under
 the root is taken (internal/artifacts/local.go); another Put may then create a tempfile of the
 same name, and the first one would move that file to its key.
 */
module Deletions {
  import opened Wrappers
  import opened Streams
  import opened LocalStore

  /** In every run, with any deletes, the keys look as if each landed operation had taken effect at once. */
  ghost predicate AtomicWithAnyDeletes(writers: seq<Writer>) {
    forall start, steps, s, i ::
      IsStart(writers, start) && Run(writers, start, steps) == Some(s) && 0 <= i < |writers| ==>
        View(s, writers[i].target) == Atomic(writers, start, s.landings, writers[i].target)
  }

  /** a can succeed, and b can leave a file under a's tempfile name that differs from a's data. */
  ghost predicate Clash(writers: seq<Writer>, a: nat, b: nat) {
    && a < |writers| && b < |writers| && a != b && writers[a].target.dir == writers[b].target.dir
    && (writers[a].size < 0 || writers[a].size == |writers[a].data|) && (writers[a].data != [] || writers[b].data != [])
  }

  ghost predicate NoClash(writers: seq<Writer>) {
    forall a, b :: !Clash(writers, a, b)
  }

  // ---- Without a clash, any deletes are harmless -------------------------------------------

  /** Whatever happened to its name, the inode of a running Put holds what that Put copied. */
  ghost predicate Fills(w: Writer, s: State, phase: Phase) {
    Active(phase) ==>
      && HasTempName(phase.tmp) && phase.tmp.dir == w.target.dir && phase.inode in s.contents
      && (phase.Copying? ==> phase.done <= |w.data| && s.contents[phase.inode] == w.data[..phase.done])
      && (phase.Sealed? ==> s.contents[phase.inode] == w.data && SizeFits(w))
  }

  ghost predicate OwnInodes(s: State) {
    forall i, k :: 0 <= i < k < |s.phases| && Active(s.phases[i]) && Active(s.phases[k]) ==>
      s.phases[i].inode != s.phases[k].inode
  }

  /** The file under p was created by writer k, in the same directory. */
  ghost predicate MadeBy(writers: seq<Writer>, s: State, p: Path, k: nat)
    requires |s.phases| == |writers|
  {
    && k < |writers| && !s.phases[k].Idle? && writers[k].target.dir == p.dir
    && p in s.names && s.names[p] in s.contents && s.contents[s.names[p]] <= writers[k].data
    && (Active(s.phases[k]) ==> s.names[p] == s.phases[k].inode)
  }

  /** If the tempfile name of a running Put is in use, some writer of that directory made the file. */
  ghost predicate Sourced(writers: seq<Writer>, s: State, i: nat)
    requires |s.phases| == |writers| && i < |writers|
  {
    Active(s.phases[i]) && s.phases[i].tmp in s.names ==> exists k :: MadeBy(writers, s, s.phases[i].tmp, k)
  }

  /** The inode of a running Put has at most its tempfile name, or a key where nothing can change it any more. */
  ghost predicate Placed(w: Writer, s: State, phase: Phase) {
    Active(phase) ==>
      forall p :: p in s.names && s.names[p] == phase.inode ==> if HasTempName(p) then p == phase.tmp else w.data == []
  }

  ghost predicate AnyInv(writers: seq<Writer>, start: State, s: State) {
    && |s.phases| == |writers| && NoLinks(s) && OwnInodes(s)
    && (forall i :: 0 <= i < |writers| ==> Fills(writers[i], s, s.phases[i]))
    && (forall i :: 0 <= i < |writers| ==> Placed(writers[i], s, s.phases[i]))
    && (forall i :: 0 <= i < |writers| ==> Sourced(writers, s, i))
    && Refines(writers, start, s)
  }

  lemma SourceStays(writers: seq<Writer>, s: State, s': State, j: nat, i: nat)
    requires |s.phases| == |writers| == |s'.phases| && i < |writers| && j < |writers| && Sourced(writers, s, j)
    requires (forall k :: 0 <= k < |writers| && k != i ==> s'.phases[k] == s.phases[k]) && !s'.phases[i].Idle?
    requires Active(s'.phases[j]) ==> Active(s.phases[j]) && s'.phases[j].tmp == s.phases[j].tmp
    requires Active(s'.phases[i]) ==> Active(s.phases[i]) && s'.phases[i].inode == s.phases[i].inode
    requires s'.contents == s.contents
    requires Active(s'.phases[j]) && s'.phases[j].tmp in s'.names ==>
      s'.phases[j].tmp in s.names && s'.names[s'.phases[j].tmp] == s.names[s'.phases[j].tmp]
    ensures Sourced(writers, s', j)
  {
    if Active(s'.phases[j]) && s'.phases[j].tmp in s'.names {
      var p := s'.phases[j].tmp;
      var k :| MadeBy(writers, s, p, k);
      assert MadeBy(writers, s', p, k);
    }
  }

  lemma BeginKeepsAny(writers: seq<Writer>, start: State, s: State, step: Step, s': State)
    requires AnyInv(writers, start, s) && step.Begin? && Next(writers, s, step) == Some(s')
    ensures AnyInv(writers, start, s')
  {
    var i := step.i;
    forall j | 0 <= j < |writers| ensures Fills(writers[j], s', s'.phases[j]) && Placed(writers[j], s', s'.phases[j]) {
      assert Fills(writers[j], s, s.phases[j]) && Placed(writers[j], s, s.phases[j]);
    }
    assert MadeBy(writers, s', step.tmp, i);
    forall j | 0 <= j < |writers| ensures Sourced(writers, s', j) {
      BeginKeepsSource(writers, s, step, s', j);
    }
    OwnInodesGrow(writers, s, s', i);
    ViewsAgree(writers, start, s, s');
  }

  lemma OwnInodesGrow(writers: seq<Writer>, s: State, s': State, i: nat)
    requires |s.phases| == |writers| == |s'.phases| && i < |writers| && OwnInodes(s)
    requires forall j :: 0 <= j < |writers| ==> Fills(writers[j], s, s.phases[j])
    requires (forall k :: 0 <= k < |writers| && k != i ==> s'.phases[k] == s.phases[k])
    requires Active(s'.phases[i]) && s'.phases[i].inode !in s.contents
    ensures OwnInodes(s')
  {
    forall j | 0 <= j < |writers| && j != i && Active(s'.phases[j]) ensures s'.phases[j].inode != s'.phases[i].inode {
      assert Fills(writers[j], s, s.phases[j]);
    }
  }

  lemma BeginKeepsSource(writers: seq<Writer>, s: State, step: Step, s': State, j: nat)
    requires |s.phases| == |writers| && step.Begin? && Next(writers, s, step) == Some(s') && j < |writers|
    requires Sourced(writers, s, j)
    requires NoLinks(s) && MadeBy(writers, s', step.tmp, step.i)
    ensures Sourced(writers, s', j)
  {
    if Active(s'.phases[j]) && s'.phases[j].tmp in s'.names && s'.phases[j].tmp != step.tmp {
      var p := s'.phases[j].tmp;
      var k :| MadeBy(writers, s, p, k);
      assert MadeBy(writers, s', p, k);
    }
  }

  /** Names may go and writer i may move on, as long as no file changes. */
  lemma QuietKeepsAny(writers: seq<Writer>, start: State, s: State, s': State, i: nat)
    requires AnyInv(writers, start, s) && |s'.phases| == |writers| && i < |writers|
    requires s'.contents == s.contents && s'.landings == s.landings
    requires forall p :: p in s'.names ==> p in s.names && s'.names[p] == s.names[p]
    requires forall p :: !HasTempName(p) && p in s.names ==> p in s'.names
    requires forall k :: 0 <= k < |writers| && k != i ==> s'.phases[k] == s.phases[k]
    requires !s'.phases[i].Idle? && Fills(writers[i], s', s'.phases[i])
    requires Active(s'.phases[i]) ==>
               Active(s.phases[i]) && s'.phases[i].tmp == s.phases[i].tmp && s'.phases[i].inode == s.phases[i].inode
    ensures AnyInv(writers, start, s')
  {
    forall j | 0 <= j < |writers| ensures Fills(writers[j], s', s'.phases[j]) && Placed(writers[j], s', s'.phases[j]) {
      assert Fills(writers[j], s, s.phases[j]) && Placed(writers[j], s, s.phases[j]);
    }
    forall j | 0 <= j < |writers| ensures Sourced(writers, s', j) {
      SourceStays(writers, s, s', j, i);
    }
    ViewsAgree(writers, start, s, s');
  }

  lemma SealKeepsAny(writers: seq<Writer>, start: State, s: State, step: Step, s': State)
    requires AnyInv(writers, start, s) && step.Seal? && Next(writers, s, step) == Some(s')
    ensures AnyInv(writers, start, s')
  {
    var data := writers[step.i].data;
    assert Fills(writers[step.i], s, s.phases[step.i]) && data[..|data|] == data;
    QuietKeepsAny(writers, start, s, s', step.i);
  }

  lemma EndKeepsAny(writers: seq<Writer>, start: State, s: State, step: Step, s': State)
    requires AnyInv(writers, start, s) && (step.BeginFails? || step.Abort?) && Next(writers, s, step) == Some(s')
    ensures AnyInv(writers, start, s')
  {
    assert Fills(writers[step.i], s, s.phases[step.i]);
    QuietKeepsAny(writers, start, s, s', step.i);
  }

  lemma ChunkKeepsSource(writers: seq<Writer>, s: State, step: Step, s': State, j: nat)
    requires |s.phases| == |writers| && step.Chunk? && Next(writers, s, step) == Some(s') && j < |writers|
    requires Sourced(writers, s, j)
    requires Fills(writers[step.i], s, s.phases[step.i]) && Placed(writers[step.i], s, s.phases[step.i])
    requires Fills(writers[j], s, s.phases[j]) && Fills(writers[step.i], s', s'.phases[step.i])
    ensures Sourced(writers, s', j)
  {
    var i := step.i;
    if Active(s'.phases[j]) && s'.phases[j].tmp in s'.names {
      var p := s'.phases[j].tmp;
      var k :| MadeBy(writers, s, p, k);
      if s.names[p] == s.phases[i].inode {
        assert p == s.phases[i].tmp;
        assert MadeBy(writers, s', p, i);
      } else {
        assert MadeBy(writers, s', p, k);
      }
    }
  }

  lemma ChunkKeepsAny(writers: seq<Writer>, start: State, s: State, step: Step, s': State)
    requires AnyInv(writers, start, s) && step.Chunk? && Next(writers, s, step) == Some(s')
    ensures AnyInv(writers, start, s')
  {
    var i := step.i;
    assert Fills(writers[i], s, s.phases[i]) && Placed(writers[i], s, s.phases[i]);
    NextChunk(writers[i].data, s.phases[i].done, step.n);
    forall j | 0 <= j < |writers| ensures Fills(writers[j], s', s'.phases[j]) && Placed(writers[j], s', s'.phases[j]) {
      assert Fills(writers[j], s, s.phases[j]) && Placed(writers[j], s, s.phases[j]);
    }
    forall j | 0 <= j < |writers| ensures Sourced(writers, s', j) {
      ChunkKeepsSource(writers, s, step, s', j);
    }
    forall p | !HasTempName(p) ensures View(s', p) == View(s, p) {
      if p in s.names && s.names[p] == s.phases[i].inode {
        assert writers[i].data == [];
      }
    }
    ViewsAgree(writers, start, s, s');
  }

  lemma DeleteKeepsAny(writers: seq<Writer>, start: State, s: State, step: Step, s': State)
    requires AnyInv(writers, start, s) && step.Delete? && Next(writers, s, step) == Some(s')
    ensures AnyInv(writers, start, s')
  {
    forall j | 0 <= j < |writers|
      ensures Fills(writers[j], s', s'.phases[j]) && Placed(writers[j], s', s'.phases[j]) && Sourced(writers, s', j)
    {
      assert Fills(writers[j], s, s.phases[j]) && Placed(writers[j], s, s.phases[j]) && Sourced(writers, s, j);
      if Active(s'.phases[j]) && s'.phases[j].tmp in s'.names {
        var k :| MadeBy(writers, s, s.phases[j].tmp, k);
        assert MadeBy(writers, s', s.phases[j].tmp, k);
      }
    }
    assert s'.landings[..|s.landings|] == s.landings;
    forall p | !HasTempName(p) ensures View(s', p) == Atomic(writers, start, s'.landings, p) {
      assert p != step.path ==> View(s', p) == View(s, p);
    }
  }

  /** The file a Put moves to its key holds its data, and no running Put can change it there. */
  lemma RenameMovesOwnData(writers: seq<Writer>, start: State, s: State, i: nat)
    requires NoClash(writers) && AnyInv(writers, start, s) && i < |writers| && s.phases[i].Sealed?
    requires s.phases[i].tmp in s.names
    ensures s.contents[s.names[s.phases[i].tmp]] == writers[i].data
    ensures forall k :: 0 <= k < |writers| && k != i && Active(s.phases[k])
                        && s.phases[k].inode == s.names[s.phases[i].tmp] ==>
                          writers[k].data == []
  {
    var tmp := s.phases[i].tmp;
    assert Fills(writers[i], s, s.phases[i]) && Sourced(writers, s, i);
    var m :| MadeBy(writers, s, tmp, m);
    assert !Clash(writers, i, m);
    forall k | 0 <= k < |writers| && k != i && Active(s.phases[k]) && s.phases[k].inode == s.names[tmp]
      ensures writers[k].data == []
    {
      assert Fills(writers[k], s, s.phases[k]) && Placed(writers[k], s, s.phases[k]);
      assert tmp == s.phases[k].tmp;
      assert !Clash(writers, i, k);
    }
  }

  lemma RenameLands(writers: seq<Writer>, start: State, s: State, step: Step, s': State)
    requires |s.phases| == |writers| && Refines(writers, start, s) && step.Rename? && Next(writers, s, step) == Some(s')
    requires HasTempName(s.phases[step.i].tmp) && s.names[s.phases[step.i].tmp] in s.contents
    requires s.contents[s.names[s.phases[step.i].tmp]] == writers[step.i].data
    ensures Refines(writers, start, s')
  {
    assert s'.landings[..|s.landings|] == s.landings;
    forall p | !HasTempName(p) ensures View(s', p) == Atomic(writers, start, s'.landings, p) {
      assert p != writers[step.i].target ==> View(s', p) == View(s, p);
    }
  }

  lemma RenameKeepsAny(writers: seq<Writer>, start: State, s: State, step: Step, s': State)
    requires NoClash(writers) && PlainTargets(writers) && AnyInv(writers, start, s)
    requires step.Rename? && Next(writers, s, step) == Some(s')
    ensures AnyInv(writers, start, s')
  {
    var i := step.i;
    RenameMovesOwnData(writers, start, s, i);
    assert Fills(writers[i], s, s.phases[i]);
    RenameLands(writers, start, s, step, s');
    forall j | 0 <= j < |writers| ensures Fills(writers[j], s', s'.phases[j]) && Placed(writers[j], s', s'.phases[j]) {
      assert Fills(writers[j], s, s.phases[j]) && Placed(writers[j], s, s.phases[j]);
    }
    forall j | 0 <= j < |writers| ensures Sourced(writers, s', j) {
      assert Fills(writers[j], s, s.phases[j]);
      SourceStays(writers, s, s', j, i);
    }
  }

  lemma {:induction false} RunKeepsAnyInv(writers: seq<Writer>, start: State, steps: seq<Step>, s: State)
    requires NoClash(writers) && PlainTargets(writers) && IsStart(writers, start)
    requires Run(writers, start, steps) == Some(s)
    ensures AnyInv(writers, start, s)
    decreases |steps|
  {
    if steps == [] {
    } else {
      var n := |steps| - 1;
      var before := Run(writers, start, steps[..n]).value;
      RunKeepsAnyInv(writers, start, steps[..n], before);
      match steps[n]
      case Begin(_, _, _) => BeginKeepsAny(writers, start, before, steps[n], s);
      case Chunk(_, _) => ChunkKeepsAny(writers, start, before, steps[n], s);
      case Rename(_) => RenameKeepsAny(writers, start, before, steps[n], s);
      case Delete(_) => DeleteKeepsAny(writers, start, before, steps[n], s);
      case Seal(_) => SealKeepsAny(writers, start, before, steps[n], s);
      case _ => EndKeepsAny(writers, start, before, steps[n], s);
    }
  }

  // ---- A clash breaks -------------------------------------------------------------------

  /** a has copied everything, its tempfile has been deleted, and b has created one of that name. */
  lemma Replaced(writers: seq<Writer>, a: nat, b: nat, tmp: Path) returns (steps: seq<Step>, s: State)
    requires Clash(writers, a, b) && HasTempName(tmp) && tmp.dir == writers[a].target.dir
    ensures Run(writers, EmptyDisk(writers), steps) == Some(s) && |s.phases| == |writers|
    ensures s.phases[a] == Sealed(tmp, 0) && s.phases[b] == Copying(tmp, 1, 0)
    ensures s.names == map[tmp := 1] && 1 in s.contents && s.contents[1] == [] && s.landings == [Deleted(tmp)]
  {
    var start, data := EmptyDisk(writers), writers[a].data;
    steps, s := BeginOne(writers, start, [], start, a, tmp, 0);
    steps, s := Then(writers, start, steps, Chunk(a, |data|));
    steps, s := Then(writers, start, steps, Seal(a));
    steps, s := Then(writers, start, steps, Delete(tmp));
    steps, s := BeginOne(writers, start, steps, s, b, tmp, 1);
  }

  /** Then a's Put succeeds and puts b's file, with as much of it as b has copied, under a's key. */
  lemma DeletedTempfileBreaks(writers: seq<Writer>, a: nat, b: nat) returns (steps: seq<Step>, s: State)
    requires Clash(writers, a, b) && PlainTargets(writers)
    ensures IsStart(writers, EmptyDisk(writers)) && Run(writers, EmptyDisk(writers), steps) == Some(s)
    ensures s.phases[a] == Finished(true)
    ensures View(s, writers[a].target) == Some(if writers[a].data != [] then [] else writers[b].data)
    ensures Atomic(writers, EmptyDisk(writers), s.landings, writers[a].target) == Some(writers[a].data)
  {
    var start := EmptyDisk(writers);
    var tmp := SomeTempName(writers[a].target.dir);
    steps, s := Replaced(writers, a, b, tmp);
    if writers[a].data == [] {
      var data := writers[b].data;
      steps, s := Then(writers, start, steps, Chunk(b, |data|));
      assert [] + data[0..|data|] == data;
    }
    steps, s := Then(writers, start, steps, Rename(a));
  }

  /**
   With deletes of any name, Puts are atomic on all their keys exactly when no key has the name
   of a tempfile and no two writers of one directory clash.
   */
  lemma AtomicWithAnyDeletesIff(writers: seq<Writer>)
    ensures AtomicWithAnyDeletes(writers) <==> PlainTargets(writers) && NoClash(writers)
  {
    if !PlainTargets(writers) {
      var i :| 0 <= i < |writers| && HasTempName(writers[i].target);
      var start, steps, s := ShowsPartialFile(writers, i);
    } else if NoClash(writers) {
      forall start, steps, s, i | IsStart(writers, start) && Run(writers, start, steps) == Some(s) && 0 <= i < |writers|
        ensures View(s, writers[i].target) == Atomic(writers, start, s.landings, writers[i].target)
      {
        RunKeepsAnyInv(writers, start, steps, s);
      }
    } else {
      var a, b :| Clash(writers, a, b);
      var steps, s := DeletedTempfileBreaks(writers, a, b);
    }
  }
}
