/**
 The filesystem artifact store's Put (internal/artifacts/local.go): the copy loop with
 cancellation, one Put with a failure possible at every step, and any number of Puts and
 Deletes interleaved at the level of names and inodes.
 */
module LocalStore {
  import opened Wrappers
  import opened Streams
  import opened Text

  const CHUNK := 64 * 1024

  // ---- The copy loop ------------------------------------------------------------

  datatype CopyError = Cancelled | WriteFailed | ReadFailed

  /**
   * The context is checked before each read and passes only as often as patience says; r and w count the calls made.
   */
  method CopyWithCtx(content: seq<Byte>, readScript: seq<ReadMove>, writeScript: seq<WriteMove>, patience: Option<nat>)
    returns (dst: seq<Byte>, total: nat, err: Option<CopyError>, r: nat, w: nat)
    ensures total == |dst| <= |content| && dst == content[..total]
    ensures err.None? ==> dst == content && (patience.Some? ==> r <= patience.value)
    ensures err == Some(Cancelled) ==> patience == Some(r)
    ensures ReadsWork(readScript, r) && WritesWork(writeScript, w) <==> err.None? || err == Some(Cancelled)
    ensures err == Some(WriteFailed) ==> !WritesWork(writeScript, w)
    ensures err == Some(ReadFailed) ==> !ReadsWork(readScript, r)
  {
    dst, total, err, r, w := [], 0, None, 0, 0;
    while true
      invariant err.None? && total == |dst| <= |content| && dst == content[..total]
      invariant ReadsWork(readScript, r) && WritesWork(writeScript, w) && (patience.Some? ==> r <= patience.value)
      decreases Left(|readScript|, r), |content| - total
    {
      if patience.Some? && r >= patience.value {
        err := Some(Cancelled);
        return;
      }
      var (n, status) := Read(ReadMoveAt(readScript, r, |content|), |content| - total, CHUNK);
      r := r + 1;
      if n > 0 {
        var (m, failed) := Write(WriteMoveAt(writeScript, w), n);
        w := w + 1;
        NextChunk(content, total, m);
        dst := dst + content[total..total + m];
        total := total + m;
        if failed || m != n {
          err := Some(WriteFailed);
          return;
        }
      }
      if status.End? {
        return;
      }
      if status.Broken? {
        err := Some(ReadFailed);
        return;
      }
    }
  }

  // ---- One Put ----------------------------------------------------------------------

  /** A file is named by its directory and base name. */
  datatype Path = Path(dir: string, base: string)

  /** Which of the system calls around the copy fail. */
  datatype Faults = Faults(mkdir: bool, create: bool, sync: bool, close: bool, rename: bool, remove: bool)

  class Disk {
    var files: map<Path, seq<Byte>>

    constructor ()
      ensures files == map[]
    {
      files := map[];
    }

    /**
     * All or nothing: the complete new bytes, or the disk as it was, give or take a tempfile that would not go away.
     */
    method Put(target: Path, tmp: Path, content: seq<Byte>, size: int, readScript: seq<ReadMove>,
               writeScript: seq<WriteMove>, patience: Option<nat>, faults: Faults)
      returns (ok: bool, r: nat, w: nat)
      requires tmp !in files && tmp != target
      modifies this
      ensures ok ==> files == old(files)[target := content]
      ensures !ok ==> files - {tmp} == old(files) && (!faults.remove ==> files == old(files))
      ensures ok ==> !faults.mkdir && !faults.create && !faults.sync && !faults.close && !faults.rename
      ensures ok ==> ReadsWork(readScript, r) && WritesWork(writeScript, w) && (size >= 0 ==> size == |content|)
      ensures !ok ==> || faults.mkdir || faults.create || faults.sync || faults.close || faults.rename
                      || !ReadsWork(readScript, r) || !WritesWork(writeScript, w) || patience == Some(r)
                      || (size >= 0 && size != |content|)
    {
      r, w := 0, 0;
      if faults.mkdir || faults.create {
        return false, r, w;
      }
      var written, n, err;
      written, n, err, r, w := CopyWithCtx(content, readScript, writeScript, patience);
      files := files[tmp := written];
      if err.Some? || (size >= 0 && n != size) || faults.sync || faults.close || faults.rename {
        if !faults.remove {
          files := files - {tmp};
        }
        return false, r, w;
      }
      files := (files - {tmp})[target := files[tmp]];
      ok := true;
    }
  }

  // ---- Interleaved Puts and Deletes ----------------------------------------------------

  /** What one caller of Put wants stored; size is negative when unknown. */
  datatype Writer = Writer(target: Path, data: seq<Byte>, size: int)

  datatype Phase =
    | Idle
    | Copying(tmp: Path, inode: nat, done: nat)
    | Sealed(tmp: Path, inode: nat) // copied to the end, size checked, synced and closed
    | Finished(ok: bool)

  /** The operations that took effect on a target, in order. */
  datatype Landing = Landed(writer: nat) | Deleted(path: Path)

  datatype State = State(
    names: map<Path, nat>,
    contents: map<nat, seq<Byte>>,
    phases: seq<Phase>,
    landings: seq<Landing>,
    orphans: set<Path>)

  datatype Step =
    | Begin(i: nat, tmp: Path, inode: nat)
    | BeginFails(i: nat)
    | Chunk(i: nat, n: nat)
    | Seal(i: nat)
    | Rename(i: nat)
    | Abort(i: nat, removed: bool) // any failure after the tempfile exists
    | Delete(path: Path)

  /** os.CreateTemp puts a random 32-bit number, in decimal, where the pattern has its star. */
  function TempBase(random: nat): string {
    ".helion-artifact-" + Decimal(random) + ".tmp"
  }

  ghost predicate HasTempName(p: Path) {
    exists random :: 0 <= random < 0x1_0000_0000 && p.base == TempBase(random)
  }

  /** Exactly the names with a decimal 32-bit number between prefix and suffix. */
  lemma TempNameIff(p: Path)
    ensures HasTempName(p) <==>
              exists digits :: Canonical(digits) && ValueOf(digits) < 0x1_0000_0000
                               && p.base == ".helion-artifact-" + digits + ".tmp"
  {
    if HasTempName(p) {
      var random :| 0 <= random < 0x1_0000_0000 && p.base == TempBase(random);
      DecimalReadsBack(random);
      assert Canonical(Decimal(random));
    }
    if digits :| Canonical(digits) && ValueOf(digits) < 0x1_0000_0000
                 && p.base == ".helion-artifact-" + digits + ".tmp" {
      CanonicalIsDecimal(digits);
      assert p.base == TempBase(ValueOf(digits));
    }
  }

  lemma SomeTempName(dir: string) returns (p: Path)
    ensures HasTempName(p) && p.dir == dir
  {
    p := Path(dir, TempBase(0));
  }

  predicate SizeFits(w: Writer) {
    w.size >= 0 ==> w.size == |w.data|
  }

  ghost function Next(writers: seq<Writer>, s: State, step: Step): Option<State>
    requires |s.phases| == |writers|
  {
    match step
    case Begin(i, tmp, inode) =>
      if i < |writers| && s.phases[i].Idle? && tmp !in s.names && HasTempName(tmp) &&
        tmp.dir == writers[i].target.dir && inode !in s.contents
      then Some(s.(names := s.names[tmp := inode], contents := s.contents[inode := []],
                   phases := s.phases[i := Copying(tmp, inode, 0)]))
      else None
    case BeginFails(i) =>
      if i < |writers| && s.phases[i].Idle? then Some(s.(phases := s.phases[i := Finished(false)])) else None
    case Chunk(i, n) =>
      if i < |writers| && s.phases[i].Copying? && s.phases[i].inode in s.contents &&
        s.phases[i].done + n <= |writers[i].data|
      then
        var Copying(tmp, inode, done) := s.phases[i];
        Some(s.(contents := s.contents[inode := s.contents[inode] + writers[i].data[done..done + n]],
                phases := s.phases[i := Copying(tmp, inode, done + n)]))
      else None
    case Seal(i) =>
      if i < |writers| && s.phases[i].Copying? && s.phases[i].done == |writers[i].data| && SizeFits(writers[i])
      then Some(s.(phases := s.phases[i := Sealed(s.phases[i].tmp, s.phases[i].inode)]))
      else None
    case Rename(i) =>
      if i < |writers| && s.phases[i].Sealed? && s.phases[i].tmp in s.names
      then
        var tmp := s.phases[i].tmp;
        Some(s.(names := (s.names - {tmp})[writers[i].target := s.names[tmp]],
                phases := s.phases[i := Finished(true)], landings := s.landings + [Landed(i)]))
      else None
    case Abort(i, removed) =>
      if i < |writers| && (s.phases[i].Copying? || s.phases[i].Sealed?)
      then
        var tmp, s' := s.phases[i].tmp, s.(phases := s.phases[i := Finished(false)]);
        Some(if removed then s'.(names := s.names - {tmp}) else s'.(orphans := s.orphans + {tmp}))
      else None
    case Delete(path) =>
      Some(s.(names := s.names - {path}, landings := s.landings + [Deleted(path)]))
  }

  /** Where the steps lead, if every one of them can be taken. */
  ghost function Run(writers: seq<Writer>, s: State, steps: seq<Step>): (r: Option<State>)
    requires |s.phases| == |writers|
    ensures r.Some? ==> |r.value.phases| == |writers|
  {
    if steps == [] then Some(s)
    else
      var before := Run(writers, s, steps[..|steps| - 1]);
      if before.None? then None else Next(writers, before.value, steps[|steps| - 1])
  }

  function View(s: State, p: Path): Option<seq<Byte>> {
    if p in s.names && s.names[p] in s.contents then Some(s.contents[s.names[p]]) else None
  }

  /** The same operations on a store where each takes effect at once. */
  function Atomic(writers: seq<Writer>, start: State, landings: seq<Landing>, p: Path): Option<seq<Byte>> {
    if landings == [] then View(start, p)
    else
      match landings[|landings| - 1]
      case Landed(i) =>
        if i < |writers| && writers[i].target == p then Some(writers[i].data)
        else Atomic(writers, start, landings[..|landings| - 1], p)
      case Deleted(q) =>
        if q == p then None else Atomic(writers, start, landings[..|landings| - 1], p)
  }

  ghost predicate NoLinks(s: State) {
    && (forall p :: p in s.names ==> s.names[p] in s.contents)
    && forall p, q :: p in s.names && q in s.names && s.names[p] == s.names[q] ==> p == q
  }

  ghost predicate IsStart(writers: seq<Writer>, s: State) {
    && |s.phases| == |writers| && (forall i :: 0 <= i < |s.phases| ==> s.phases[i].Idle?)
    && s.landings == [] && NoLinks(s)
    && forall p :: p in s.names && HasTempName(p) ==> p in s.orphans
  }

  ghost predicate PlainTargets(writers: seq<Writer>) {
    forall i :: 0 <= i < |writers| ==> !HasTempName(writers[i].target)
  }

  ghost predicate PlainDeletes(steps: seq<Step>) {
    forall k :: 0 <= k < |steps| && steps[k].Delete? ==> !HasTempName(steps[k].path)
  }

  ghost predicate NoDeletes(steps: seq<Step>) {
    forall k :: 0 <= k < |steps| ==> !steps[k].Delete?
  }

  ghost predicate Active(phase: Phase) {
    phase.Copying? || phase.Sealed?
  }

  /** The tempfile of a running Put is its own and holds what was copied so far. */
  ghost predicate Owns(w: Writer, s: State, phase: Phase) {
    Active(phase) ==>
      && phase.tmp in s.names && s.names[phase.tmp] == phase.inode && HasTempName(phase.tmp)
      && phase.inode in s.contents
      && (phase.Copying? ==> phase.done <= |w.data| && s.contents[phase.inode] == w.data[..phase.done])
      && (phase.Sealed? ==> s.contents[phase.inode] == w.data && SizeFits(w))
  }

  ghost predicate Apart(s: State) {
    forall i, k :: 0 <= i < k < |s.phases| && Active(s.phases[i]) && Active(s.phases[k]) ==>
      s.phases[i].tmp != s.phases[k].tmp
  }

  ghost predicate HeldTemp(s: State, p: Path) {
    exists i :: 0 <= i < |s.phases| && Active(s.phases[i]) && s.phases[i].tmp == p
  }

  /** Exactly the successful Puts have landed, each a complete one. */
  ghost predicate LandedIffOk(writers: seq<Writer>, s: State)
    requires |s.phases| == |writers|
  {
    forall i :: 0 <= i < |writers| ==>
      (Landed(i) in s.landings <==> s.phases[i] == Finished(true)) && (Landed(i) in s.landings ==> SizeFits(writers[i]))
  }

  ghost predicate Refines(writers: seq<Writer>, start: State, s: State) {
    forall p :: !HasTempName(p) ==> View(s, p) == Atomic(writers, start, s.landings, p)
  }

  ghost predicate Inv(writers: seq<Writer>, start: State, s: State) {
    && |s.phases| == |writers| && NoLinks(s) && Apart(s)
    && (forall i :: 0 <= i < |writers| ==> Owns(writers[i], s, s.phases[i]))
    && (forall p :: p in s.names && HasTempName(p) ==> p in s.orphans || HeldTemp(s, p))
    && LandedIffOk(writers, s)
    && Refines(writers, start, s)
  }

  lemma BeginKeeps(writers: seq<Writer>, start: State, s: State, step: Step, s': State)
    requires Inv(writers, start, s) && step.Begin? && Next(writers, s, step) == Some(s')
    ensures Inv(writers, start, s')
  {
    var i := step.i;
    assert s'.phases[i].tmp == step.tmp;
    forall k | 0 <= k < |writers| ensures Owns(writers[k], s', s'.phases[k]) {
      assert Owns(writers[k], s, s.phases[k]);
    }
    forall p | p in s'.names && HasTempName(p) ensures p in s'.orphans || HeldTemp(s', p) {
      if p == step.tmp {
        assert Active(s'.phases[i]);
      } else if HeldTemp(s, p) {
        HeldElsewhere(s, s', p, i);
      }
    }
    forall k | 0 <= k < |writers| && k != i && Active(s.phases[k]) ensures s.phases[k].tmp != step.tmp {
      assert Owns(writers[k], s, s.phases[k]);
    }
    ViewsAgree(writers, start, s, s');
  }

  lemma HeldElsewhere(s: State, s': State, p: Path, i: nat)
    requires HeldTemp(s, p) && |s'.phases| == |s.phases| && i < |s.phases|
    requires forall k :: 0 <= k < |s.phases| && k != i ==> s'.phases[k] == s.phases[k]
    requires Active(s.phases[i]) ==> s.phases[i].tmp != p || (Active(s'.phases[i]) && s'.phases[i].tmp == p)
    ensures HeldTemp(s', p)
  {
    var k :| 0 <= k < |s.phases| && Active(s.phases[k]) && s.phases[k].tmp == p;
    assert Active(s'.phases[k]) && s'.phases[k].tmp == p;
  }

  lemma ViewsAgree(writers: seq<Writer>, start: State, s: State, s': State)
    requires Refines(writers, start, s) && s'.landings == s.landings
    requires forall p :: !HasTempName(p) ==> View(s', p) == View(s, p)
    ensures Refines(writers, start, s')
  {
  }

  lemma BeginFailsKeeps(writers: seq<Writer>, start: State, s: State, step: Step, s': State)
    requires Inv(writers, start, s) && step.BeginFails? && Next(writers, s, step) == Some(s')
    ensures Inv(writers, start, s')
  {
    forall k | 0 <= k < |writers| ensures Owns(writers[k], s', s'.phases[k]) {
      assert Owns(writers[k], s, s.phases[k]);
    }
    forall p | p in s'.names && HasTempName(p) && HeldTemp(s, p) ensures HeldTemp(s', p) {
      HeldElsewhere(s, s', p, step.i);
    }
    ViewsAgree(writers, start, s, s');
  }

  lemma ChunkKeeps(writers: seq<Writer>, start: State, s: State, step: Step, s': State)
    requires Inv(writers, start, s) && step.Chunk? && Next(writers, s, step) == Some(s')
    ensures Inv(writers, start, s')
  {
    var i := step.i;
    var Copying(tmp, inode, done) := s.phases[i];
    assert Owns(writers[i], s, s.phases[i]);
    NextChunk(writers[i].data, done, step.n);
    forall k | 0 <= k < |writers| ensures Owns(writers[k], s', s'.phases[k]) {
      assert Owns(writers[k], s, s.phases[k]);
      assert k != i && Active(s.phases[k]) ==> s.phases[k].tmp != tmp;
    }
    forall p | p in s'.names && HasTempName(p) && HeldTemp(s, p) ensures HeldTemp(s', p) {
      HeldElsewhere(s, s', p, i);
    }
    ViewsAgree(writers, start, s, s');
  }

  lemma SealKeeps(writers: seq<Writer>, start: State, s: State, step: Step, s': State)
    requires Inv(writers, start, s) && step.Seal? && Next(writers, s, step) == Some(s')
    ensures Inv(writers, start, s')
  {
    var i := step.i;
    forall k | 0 <= k < |writers| ensures Owns(writers[k], s', s'.phases[k]) {
      assert Owns(writers[k], s, s.phases[k]);
      var data := writers[i].data;
      assert data[..|data|] == data;
    }
    forall p | p in s'.names && HasTempName(p) && HeldTemp(s, p) ensures HeldTemp(s', p) {
      HeldElsewhere(s, s', p, i);
    }
    ViewsAgree(writers, start, s, s');
  }

  lemma AbortKeeps(writers: seq<Writer>, start: State, s: State, step: Step, s': State)
    requires Inv(writers, start, s) && step.Abort? && Next(writers, s, step) == Some(s')
    ensures Inv(writers, start, s')
  {
    var i := step.i;
    var tmp := s.phases[i].tmp;
    assert Owns(writers[i], s, s.phases[i]);
    forall k | 0 <= k < |writers| ensures Owns(writers[k], s', s'.phases[k]) {
      assert Owns(writers[k], s, s.phases[k]);
      assert k != i && Active(s.phases[k]) ==> s.phases[k].tmp != tmp;
    }
    forall p | p in s'.names && HasTempName(p) ensures p in s'.orphans || HeldTemp(s', p) {
      if p != tmp && HeldTemp(s, p) {
        HeldElsewhere(s, s', p, i);
      }
    }
    ViewsAgree(writers, start, s, s');
  }

  lemma RenameKeepsOwner(writers: seq<Writer>, start: State, s: State, step: Step, s': State, k: nat)
    requires Inv(writers, start, s) && PlainTargets(writers) && step.Rename? && Next(writers, s, step) == Some(s')
    requires k < |writers|
    ensures Owns(writers[k], s', s'.phases[k])
  {
    var i := step.i;
    assert Owns(writers[i], s, s.phases[i]) && Owns(writers[k], s, s.phases[k]);
    assert k != i && Active(s.phases[k]) ==> s.phases[k].tmp != s.phases[i].tmp;
  }

  lemma RenameLands(writers: seq<Writer>, start: State, s: State, step: Step, s': State, p: Path)
    requires Inv(writers, start, s) && PlainTargets(writers) && step.Rename? && Next(writers, s, step) == Some(s')
    requires !HasTempName(p)
    ensures View(s', p) == Atomic(writers, start, s'.landings, p)
  {
    assert Owns(writers[step.i], s, s.phases[step.i]);
    assert s'.landings[..|s.landings|] == s.landings;
    assert p != writers[step.i].target ==> View(s', p) == View(s, p);
  }

  lemma RenameKeeps(writers: seq<Writer>, start: State, s: State, step: Step, s': State)
    requires Inv(writers, start, s) && PlainTargets(writers) && step.Rename? && Next(writers, s, step) == Some(s')
    ensures Inv(writers, start, s')
  {
    assert Owns(writers[step.i], s, s.phases[step.i]);
    forall k | 0 <= k < |writers| ensures Owns(writers[k], s', s'.phases[k]) {
      RenameKeepsOwner(writers, start, s, step, s', k);
    }
    forall p | p in s'.names && HasTempName(p) ensures p in s'.orphans || HeldTemp(s', p) {
      if HeldTemp(s, p) {
        HeldElsewhere(s, s', p, step.i);
      }
    }
    forall p | !HasTempName(p) ensures View(s', p) == Atomic(writers, start, s'.landings, p) {
      RenameLands(writers, start, s, step, s', p);
    }
  }

  lemma DeleteKeeps(writers: seq<Writer>, start: State, s: State, step: Step, s': State)
    requires Inv(writers, start, s) && step.Delete? && !HasTempName(step.path) && Next(writers, s, step) == Some(s')
    ensures Inv(writers, start, s')
  {
    forall k | 0 <= k < |writers| ensures Owns(writers[k], s', s'.phases[k]) {
      assert Owns(writers[k], s, s.phases[k]);
    }
    forall p | p in s'.names && HasTempName(p) && HeldTemp(s, p) ensures HeldTemp(s', p) {
      var k :| 0 <= k < |s.phases| && Active(s.phases[k]) && s.phases[k].tmp == p;
      assert Active(s'.phases[k]) && s'.phases[k].tmp == p;
    }
    assert s'.landings[..|s.landings|] == s.landings;
    forall p | !HasTempName(p) ensures View(s', p) == Atomic(writers, start, s'.landings, p) {
      assert p != step.path ==> View(s', p) == View(s, p);
    }
  }

  /**
   Puts and Deletes in any interleaving, failing anywhere, look at every moment like the
   landed ones executed at once, in order: a target never shows a partial file, a failed Put
   leaves no trace, and the last writer wins.
   */
  lemma {:induction false} RunKeepsInv(writers: seq<Writer>, start: State, steps: seq<Step>, s: State)
    requires PlainTargets(writers) && PlainDeletes(steps) && IsStart(writers, start)
    requires Run(writers, start, steps) == Some(s)
    ensures Inv(writers, start, s)
    decreases |steps|
  {
    if steps == [] {
    } else {
      var n := |steps| - 1;
      var before := Run(writers, start, steps[..n]).value;
      RunKeepsInv(writers, start, steps[..n], before);
      match steps[n]
      case Begin(_, _, _) => BeginKeeps(writers, start, before, steps[n], s);
      case BeginFails(_) => BeginFailsKeeps(writers, start, before, steps[n], s);
      case Chunk(_, _) => ChunkKeeps(writers, start, before, steps[n], s);
      case Seal(_) => SealKeeps(writers, start, before, steps[n], s);
      case Rename(_) => RenameKeeps(writers, start, before, steps[n], s);
      case Abort(_, _) => AbortKeeps(writers, start, before, steps[n], s);
      case Delete(_) => DeleteKeeps(writers, start, before, steps[n], s);
    }
  }

  lemma OneWriterWins(writers: seq<Writer>, start: State, steps: seq<Step>, s: State, p: Path)
    requires PlainTargets(writers) && IsStart(writers, start) && Run(writers, start, steps) == Some(s)
    requires !HasTempName(p)
    requires NoDeletes(steps)
    ensures OldOrWinner(writers, start, s, p)
  {
    RunKeepsInv(writers, start, steps, s);
    OnlyLandings(writers, start, steps, s);
    AtomicIsSomeLanding(writers, start, s.landings, p);
    assert LandedIffOk(writers, s);
  }

  lemma {:induction false} OnlyLandings(writers: seq<Writer>, start: State, steps: seq<Step>, s: State)
    requires IsStart(writers, start) && Run(writers, start, steps) == Some(s)
    requires NoDeletes(steps)
    ensures forall x :: x in s.landings ==> x.Landed? && x.writer < |writers|
    decreases |steps|
  {
    if steps == [] {
    } else {
      var n := |steps| - 1;
      OnlyLandings(writers, start, steps[..n], Run(writers, start, steps[..n]).value);
    }
  }

  lemma {:induction false} AtomicIsSomeLanding(writers: seq<Writer>, start: State, landings: seq<Landing>, p: Path)
    requires forall x :: x in landings ==> x.Landed? && x.writer < |writers|
    ensures if exists i :: 0 <= i < |writers| && writers[i].target == p && Landed(i) in landings
            then exists i :: 0 <= i < |writers| && writers[i].target == p && Landed(i) in landings
                             && Atomic(writers, start, landings, p) == Some(writers[i].data)
            else Atomic(writers, start, landings, p) == View(start, p)
    decreases |landings|
  {
    if landings == [] {
    } else {
      var n := |landings| - 1;
      var last := landings[n];
      assert last in landings && landings == landings[..n] + [last];
      AtomicIsSomeLanding(writers, start, landings[..n], p);
      if writers[last.writer].target == p {
        assert Landed(last.writer) in landings;
      }
    }
  }

  ghost predicate LandedTarget(writers: seq<Writer>, s: State, p: Path)
    requires |s.phases| == |writers|
  {
    exists i :: 0 <= i < |writers| && s.phases[i] == Finished(true) && writers[i].target == p
  }

  /** A name like a tempfile's belongs to a running Put, is left over, or was asked for as a key. */
  ghost predicate TempsExplained(writers: seq<Writer>, s: State)
    requires |s.phases| == |writers|
  {
    forall p :: p in s.names && HasTempName(p) ==> p in s.orphans || HeldTemp(s, p) || LandedTarget(writers, s, p)
  }

  lemma LandedStays(writers: seq<Writer>, s: State, s': State, p: Path, i: nat)
    requires |s.phases| == |writers| == |s'.phases| && i < |writers| && LandedTarget(writers, s, p)
    requires (forall k :: 0 <= k < |writers| && k != i ==> s'.phases[k] == s.phases[k]) && !s.phases[i].Finished?
    ensures LandedTarget(writers, s', p)
  {
    var k :| 0 <= k < |writers| && s.phases[k] == Finished(true) && writers[k].target == p;
    assert s'.phases[k] == Finished(true);
  }

  lemma DeleteExplains(writers: seq<Writer>, s: State, step: Step, s': State)
    requires |s.phases| == |writers| && TempsExplained(writers, s) && step.Delete? && Next(writers, s, step) == Some(s')
    ensures TempsExplained(writers, s')
  {
    forall p | p in s'.names && HasTempName(p)
      ensures p in s'.orphans || HeldTemp(s', p) || LandedTarget(writers, s', p)
    {
      assert p in s.names;
      assert HeldTemp(s, p) ==> HeldTemp(s', p);
      assert LandedTarget(writers, s, p) ==> LandedTarget(writers, s', p);
    }
  }

  lemma PutExplains(writers: seq<Writer>, s: State, step: Step, s': State)
    requires |s.phases| == |writers| && TempsExplained(writers, s) && !step.Delete?
    requires Next(writers, s, step) == Some(s')
    ensures TempsExplained(writers, s')
  {
    var i := step.i;
    forall p | p in s'.names && HasTempName(p)
      ensures p in s'.orphans || HeldTemp(s', p) || LandedTarget(writers, s', p)
    {
      if step.Begin? && p == step.tmp {
        assert Active(s'.phases[i]) && s'.phases[i].tmp == p;
      } else if step.Rename? && p == writers[i].target {
        assert s'.phases[i] == Finished(true);
      } else if HeldTemp(s, p) {
        if !(Active(s.phases[i]) && s.phases[i].tmp == p && !Active(s'.phases[i])) {
          HeldElsewhere(s, s', p, i);
        }
      } else if LandedTarget(writers, s, p) {
        LandedStays(writers, s, s', p, i);
      }
    }
  }

  lemma {:induction false} RunExplainsTemps(writers: seq<Writer>, start: State, steps: seq<Step>, s: State)
    requires IsStart(writers, start) && Run(writers, start, steps) == Some(s)
    ensures TempsExplained(writers, s)
    decreases |steps|
  {
    if steps == [] {
    } else {
      var n := |steps| - 1;
      var before := Run(writers, start, steps[..n]).value;
      RunExplainsTemps(writers, start, steps[..n], before);
      if steps[n].Delete? {
        DeleteExplains(writers, before, steps[n], s);
      } else {
        PutExplains(writers, before, steps[n], s);
      }
    }
  }

  /**
   * No tempfile outlives the Puts unless its removal failed, it was there before, or a key asked for that very name.
   */
  lemma NoTempfileLeft(writers: seq<Writer>, start: State, steps: seq<Step>, s: State, p: Path)
    requires IsStart(writers, start) && Run(writers, start, steps) == Some(s)
    requires forall k :: 0 <= k < |steps| && steps[k].Abort? ==> steps[k].removed
    requires forall i :: 0 <= i < |writers| ==> !Active(s.phases[i])
    ensures p in s.names && HasTempName(p) ==> p in start.orphans || LandedTarget(writers, s, p)
  {
    RunExplainsTemps(writers, start, steps, s);
    OrphansStay(writers, start, steps, s);
  }

  lemma {:induction false} OrphansStay(writers: seq<Writer>, start: State, steps: seq<Step>, s: State)
    requires |start.phases| == |writers| && Run(writers, start, steps) == Some(s)
    requires forall k :: 0 <= k < |steps| && steps[k].Abort? ==> steps[k].removed
    ensures s.orphans == start.orphans
    decreases |steps|
  {
    if steps == [] {
    } else {
      var n := |steps| - 1;
      OrphansStay(writers, start, steps[..n], Run(writers, start, steps[..n]).value);
    }
  }

  // ---- A key that looks like a tempfile --------------------------------------------------

  function EmptyDisk(writers: seq<Writer>): State {
    State(map[], map[], seq(|writers|, _ => Idle), [], {})
  }

  lemma Then(writers: seq<Writer>, start: State, steps: seq<Step>, step: Step) returns (steps': seq<Step>, s': State)
    requires |start.phases| == |writers| && Run(writers, start, steps).Some?
    requires Next(writers, Run(writers, start, steps).value, step).Some?
    ensures steps' == steps + [step]
    ensures Run(writers, start, steps') == Some(s') == Next(writers, Run(writers, start, steps).value, step)
  {
    steps' := steps + [step];
    assert steps'[..|steps|] == steps;
    s' := Run(writers, start, steps').value;
  }

  /** One more Put begins. */
  lemma BeginOne(writers: seq<Writer>, start: State, steps: seq<Step>, s: State, i: nat, tmp: Path, inode: nat)
    returns (steps': seq<Step>, s': State)
    requires |start.phases| == |writers| && Run(writers, start, steps) == Some(s) && i < |writers| && s.phases[i].Idle?
    requires HasTempName(tmp) && tmp.dir == writers[i].target.dir && tmp !in s.names && inode !in s.contents
    ensures Run(writers, start, steps') == Some(s')
    ensures s' == s.(names := s.names[tmp := inode], contents := s.contents[inode := []],
      phases := s.phases[i := Copying(tmp, inode, 0)])
  {
    steps', s' := Then(writers, start, steps, Begin(i, tmp, inode));
  }

  /** Both Puts begin, a's with b's key as its tempfile. */
  lemma BothBegin(writers: seq<Writer>, start: State, a: nat, b: nat, tmp: Path) returns (steps: seq<Step>, s: State)
    requires a < |writers| && b < |writers| && a != b && start == EmptyDisk(writers)
    requires HasTempName(writers[b].target) && writers[b].target.dir == writers[a].target.dir
    requires HasTempName(tmp) && tmp.dir == writers[b].target.dir && tmp != writers[b].target
    ensures Run(writers, start, steps) == Some(s) && |s.phases| == |writers|
    ensures s.phases[a] == Copying(writers[b].target, 0, 0) && s.phases[b] == Copying(tmp, 1, 0)
    ensures s.names == map[writers[b].target := 0, tmp := 1] && s.contents == map[0 := [], 1 := []]
  {
    steps, s := BeginOne(writers, start, [], start, a, writers[b].target, 0);
    steps, s := BeginOne(writers, start, steps, s, b, tmp, 1);
  }

  /** b's Put begins after a's, and replaces a's tempfile by landing on its name. */
  lemma LandOnTempfile(writers: seq<Writer>, start: State, a: nat, b: nat, tmp: Path)
    returns (steps: seq<Step>, s: State)
    requires a < |writers| && b < |writers| && a != b && SizeFits(writers[b]) && start == EmptyDisk(writers)
    requires HasTempName(writers[b].target) && writers[b].target.dir == writers[a].target.dir
    requires HasTempName(tmp) && tmp.dir == writers[b].target.dir && tmp != writers[b].target
    ensures Run(writers, start, steps) == Some(s) && |s.phases| == |writers|
    ensures s.phases[a] == Copying(writers[b].target, 0, 0) && 0 in s.contents
    ensures s.names == map[writers[b].target := 1] && 1 in s.contents && s.contents[1] == writers[b].data
  {
    var data := writers[b].data;
    steps, s := BothBegin(writers, start, a, b, tmp);
    steps, s := Then(writers, start, steps, Chunk(b, |data|));
    assert [] + data[0..|data|] == data;
    steps, s := Then(writers, start, steps, Seal(b));
    steps, s := Then(writers, start, steps, Rename(b));
  }

  /**
   * The name condition is needed: if b's key is a tempfile name in a's directory, a Put of a can succeed and store b's
   * bytes.
   */
  lemma TempNamedKeyBreaks(writers: seq<Writer>, start: State, a: nat, b: nat, tmp: Path)
    returns (steps: seq<Step>, s: State)
    requires a < |writers| && b < |writers| && a != b && SizeFits(writers[a]) && SizeFits(writers[b])
    requires HasTempName(writers[b].target) && writers[b].target.dir == writers[a].target.dir
    requires HasTempName(tmp) && tmp.dir == writers[b].target.dir && tmp != writers[b].target
    requires start == EmptyDisk(writers)
    ensures IsStart(writers, start) && Run(writers, start, steps) == Some(s)
    ensures s.phases[a] == Finished(true) && View(s, writers[a].target) == Some(writers[b].data)
  {
    steps, s := LandOnTempfile(writers, start, a, b, tmp);
    steps, s := Then(writers, start, steps, Chunk(a, |writers[a].data|));
    steps, s := Then(writers, start, steps, Seal(a));
    steps, s := Then(writers, start, steps, Rename(a));
  }

  // ---- Exactly when Put is atomic ----------------------------------------------------------

  /** In every run the keys of these writers look as if each landed operation had taken effect at once. */
  ghost predicate AlwaysAtomic(writers: seq<Writer>) {
    forall start, steps, s, i ::
      IsStart(writers, start) && PlainDeletes(steps) && Run(writers, start, steps) == Some(s) && 0 <= i < |writers| ==>
        View(s, writers[i].target) == Atomic(writers, start, s.landings, writers[i].target)
  }

  /**
   * A Put whose key has a tempfile's name may pick that name for its tempfile, and then shows an unfinished file under
   * the key.
   */
  lemma ShowsPartialFile(writers: seq<Writer>, i: nat) returns (start: State, steps: seq<Step>, s: State)
    requires i < |writers| && HasTempName(writers[i].target)
    ensures IsStart(writers, start) && PlainDeletes(steps) && Run(writers, start, steps) == Some(s)
    ensures View(s, writers[i].target) == Some([]) && Atomic(writers, start, s.landings, writers[i].target) == None
    ensures View(start, writers[i].target) == None && forall k :: 0 <= k < |writers| ==> s.phases[k] != Finished(true)
    ensures NoDeletes(steps)
  {
    start := EmptyDisk(writers);
    steps, s := Then(writers, start, [], Begin(i, writers[i].target, 0));
  }

  /** Puts are atomic on all their keys exactly when no key has the name of a tempfile. */
  lemma AtomicIff(writers: seq<Writer>)
    ensures AlwaysAtomic(writers) <==> PlainTargets(writers)
  {
    if PlainTargets(writers) {
      forall start, steps, s, i | IsStart(writers, start) && PlainDeletes(steps) &&
        Run(writers, start, steps) == Some(s) && 0 <= i < |writers|
        ensures View(s, writers[i].target) == Atomic(writers, start, s.landings, writers[i].target)
      {
        RunKeepsInv(writers, start, steps, s);
      }
    } else {
      var i :| 0 <= i < |writers| && HasTempName(writers[i].target);
      var start, steps, s := ShowsPartialFile(writers, i);
    }
  }

  /** Some Put to p has succeeded, and p holds its whole content. */
  ghost predicate HoldsAWinner(writers: seq<Writer>, s: State, p: Path)
    requires |s.phases| == |writers|
  {
    exists i :: 0 <= i < |writers| && writers[i].target == p && s.phases[i] == Finished(true)
                && View(s, p) == Some(writers[i].data) && (writers[i].size < 0 || writers[i].size == |writers[i].data|)
  }

  ghost predicate OldOrWinner(writers: seq<Writer>, start: State, s: State, p: Path)
    requires |s.phases| == |writers|
  {
    if LandedTarget(writers, s, p) then HoldsAWinner(writers, s, p) else View(s, p) == View(start, p)
  }

  /**
   * In every run without deletes, at every moment, each key holds its old bytes or the whole content of one successful
   * Put.
   */
  ghost predicate AlwaysOldOrWinner(writers: seq<Writer>) {
    forall start, steps, s, i ::
      IsStart(writers, start) && NoDeletes(steps) && Run(writers, start, steps) == Some(s) && 0 <= i < |writers| ==>
        OldOrWinner(writers, start, s, writers[i].target)
  }

  /** That is so exactly when no key has the name of a tempfile. */
  lemma ExactlyOneWriterWinsIff(writers: seq<Writer>)
    ensures AlwaysOldOrWinner(writers) <==> PlainTargets(writers)
  {
    if PlainTargets(writers) {
      forall start, steps, s, i | IsStart(writers, start) && NoDeletes(steps)
                                  && Run(writers, start, steps) == Some(s) && 0 <= i < |writers|
        ensures OldOrWinner(writers, start, s, writers[i].target)
      {
        OneWriterWins(writers, start, steps, s, writers[i].target);
      }
    } else {
      var i :| 0 <= i < |writers| && HasTempName(writers[i].target);
      var start, steps, s := ShowsPartialFile(writers, i);
      assert !OldOrWinner(writers, start, s, writers[i].target);
    }
  }
}
