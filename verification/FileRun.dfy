// File operations as what the processes of the logging system do: runs in which
// each stretch of changes comes to writes, truncations, links and unlinks.
module FileRun {
  import opened Blocks
  import opened LogSpec
  import opened LogRun
  import opened LogTheorems
  import opened FsLayout
  import opened EndToEnd
  import F = FsState
  import FsFile
  import FsDir

  // ----- a run with its steps, and what they do to the contents readers see

  ghost predicate IsRunBy(g: Geometry, budget: nat, r: seq<Sys>, acts: seq<Step>) {
    && |r| == |acts| + 1 && Recoverable(g, r[0].disk) && r[0] == Boot(g, r[0].disk, |r[0].ops|)
    && forall i :: 0 <= i < |acts| ==> Shape(g, r[i]) && Enabled(g, budget, r[i], acts[i]) && r[i + 1] == Next(g, budget, r[i], acts[i])
  }

  lemma RunByIsRun(g: Geometry, budget: nat, r: seq<Sys>, acts: seq<Step>)
    requires IsRunBy(g, budget, r, acts)
    ensures IsRun(g, budget, r)
  {
    hide Enabled, Next, Boot;
    forall i | 0 <= i < |r| - 1 ensures StepTo(g, budget, r[i], r[i + 1]) {
      assert Enabled(g, budget, r[i], acts[i]) && r[i + 1] == Next(g, budget, r[i], acts[i]);
    }
  }

  /** Contents change when a process changes a buffer it holds, and at no other step of an operation. */
  function Changed(d: Disk, a: Step): (e: Disk)
    ensures |e| == |d|
  {
    if a.Buffer? && a.use.Modify? && a.b < |d| then d[a.b := a.use.data] else d
  }

  function Effect(d: Disk, acts: seq<Step>): (e: Disk)
    ensures |e| == |d|
  {
    if acts == [] then d else Changed(Effect(d, acts[..|acts| - 1]), acts[|acts| - 1])
  }

  lemma BufferEffect(g: Geometry, s: Sys, b: nat, use: Use)
    requires CacheOk(g, s) && Usable(g, s, b, use)
    ensures var t := s.(cache := Used(g, s, b, use)); Snapshot(t) == Changed(Snapshot(s), Buffer(b, use))
  {
    var t := s.(cache := Used(g, s, b, use));
    forall x | 0 <= x < |s.disk| ensures View(t, x) == Changed(Snapshot(s), Buffer(b, use))[x] {
    }
  }

  lemma SameView(s: Sys, t: Sys)
    requires |t.disk| == |s.disk| && forall b :: 0 <= b < |s.disk| ==> View(t, b) == View(s, b)
    ensures Snapshot(t) == Snapshot(s)
  {
  }

  /** While an operation runs, or begins, or ends, a step changes the contents by what `Changed` says. */
  lemma StepEffect(g: Geometry, budget: nat, s: Sys, a: Step)
    requires Inv(g, budget, s) && Enabled(g, budget, s, a)
    requires var t := Next(g, budget, s, a);
      (Outstanding(s.ops) > 0 && !t.phase.Recovering?) || Outstanding(t.ops) > 0
    ensures Snapshot(Next(g, budget, s, a)) == Changed(Snapshot(s), a)
  {
    hide NextCommitWrite, LoggedBlocks, Recoverable, Durable, PhaseOk, Loggable, CacheOk, Used, Usable, LogFull, Snapshot, Changed;
    var t := Next(g, budget, s, a);
    NoneOutstanding(s.ops);
    NoneOutstanding(t.ops);
    if a.Buffer? {
      BufferEffect(g, s, a.b, a.use);
    } else {
      NotAChange(Snapshot(s), a);
      SameView(s, t);
    }
  }

  lemma NotAChange(d: Disk, a: Step)
    requires !a.Buffer?
    ensures Changed(d, a) == d
  {
  }

  lemma {:induction false} BusyEffect(g: Geometry, budget: nat, r: seq<Sys>, acts: seq<Step>, h: nat, i: nat)
    requires IsRunBy(g, budget, r, acts) && i < |r| && Since(r, h, i)
    ensures Snapshot(r[i]) == Effect(Snapshot(r[h]), acts[h..i])
  {
    hide Inv, Enabled, Next, Changed;
    RunByIsRun(g, budget, r, acts);
    RunInv(g, budget, r, i - 1);
    assert r[i - 1 + 1] == Next(g, budget, r[i - 1], acts[i - 1]);
    StepEffect(g, budget, r[i - 1], acts[i - 1]);
    EffectNext(Snapshot(r[h]), acts, h, i - 1);
    if h < i - 1 { BusyEffect(g, budget, r, acts, h, i - 1); }
  }

  lemma EffectNext(d: Disk, acts: seq<Step>, h: nat, i: nat)
    requires h <= i < |acts|
    ensures Effect(d, acts[h..i + 1]) == Changed(Effect(d, acts[h..i]), acts[i]) && Effect(d, acts[h..h]) == d
  {
    assert acts[h..i + 1][..i - h] == acts[h..i];
  }

  /** What a stretch of operations does to the contents is what its steps say. */
  lemma StretchEffect(g: Geometry, budget: nat, r: seq<Sys>, acts: seq<Step>, h: nat, j: nat)
    requires IsRunBy(g, budget, r, acts) && j + 1 < |r| && Since(r, h, j) && Still(r[j + 1])
    ensures Snapshot(r[j + 1]) == Effect(Snapshot(r[h]), acts[h..j + 1])
  {
    hide Inv, Enabled, Next, Changed;
    RunByIsRun(g, budget, r, acts);
    RunInv(g, budget, r, j);
    BusyEffect(g, budget, r, acts, h, j);
    StepEffect(g, budget, r[j], acts[j]);
    EffectNext(Snapshot(r[h]), acts, h, j);
  }

  // ----- file operations

  datatype FileOp =
    | Write(n: nat, off: nat, src: seq<byte>)
    | Truncate(n: nat)
    | Link(dp: nat, name: FsDir.Name, inum: nat)
    | Unlink(dp: nat, name: FsDir.Name)

  /** The operation took f to h: what FsFile and FsDir promise of writei, itrunc, dirlink and unlink. */
  ghost predicate Did(sb: F.Super, op: FileOp, f: F.Fs, h: F.Fs) {
    F.Good(sb, h) && h.ip.Keys == f.ip.Keys && match op
      case Write(n, off, src) =>
        && n in f.ip && off <= f.ip[n].size && off + |src| <= MAXFILE * BSIZE
        && F.FileBytes(h, n) == FsFile.Splice(F.FileBytes(f, n), off, src)
        && h.ip[n].(addrs := []) == f.ip[n].(addrs := [], size := h.ip[n].size) && Others(f, h, {n})
      case Truncate(n) =>
        n in f.ip && F.FileBytes(h, n) == [] && h.ip[n].(addrs := []) == f.ip[n].(addrs := [], size := 0) && Others(f, h, {n})
      case Link(dp, name, inum) =>
        && dp in f.ip && FsDir.Lookup(F.FileBytes(f, dp), FsDir.Key(name)) == FsFile.None
        && FsDir.Rebound(F.FileBytes(f, dp), F.FileBytes(h, dp), FsDir.Key(name), FsFile.Some(inum)) && Others(f, h, {dp})
      case Unlink(dp, name) =>
        && dp in f.ip && FsDir.Rebound(F.FileBytes(f, dp), F.FileBytes(h, dp), FsDir.Key(name), FsFile.None)
        && exists n :: FsDir.Lookup(F.FileBytes(f, dp), FsDir.Key(name)) == FsFile.Some(n) && FsDir.Unlinked(f, h, dp, n)
  }

  ghost predicate Others(f: F.Fs, h: F.Fs, touched: set<nat>)
    requires h.ip.Keys == f.ip.Keys
  {
    forall m :: m in f.ip && m !in touched ==> h.ip[m] == f.ip[m] && F.FileBytes(h, m) == F.FileBytes(f, m)
  }

  /** What the kernel's callers see to. */
  ghost predicate Allowed(fs: FsFile.FileSys, op: FileOp)
    reads fs
  {
    match op
    case Write(n, off, src) =>
      F.Good(fs.sb, fs.F()) && n in fs.ip && fs.ip[n].kind != FsFile.T_DEV && off < TWO32 && |src| < TWO32
    case Truncate(n) => F.Good(fs.sb, fs.F()) && n in fs.ip
    case Link(dp, name, inum) => FsDir.IsDir(fs, dp) && 0 < inum < 0x1_0000
    case Unlink(dp, name) => FsDir.IsDir(fs, dp) && FsDir.Linked(fs, dp)
  }

  lemma DidWrite(sb: F.Super, n: nat, off: nat, src: seq<byte>, f: F.Fs, h: F.Fs)
    requires F.Good(sb, h) && h.ip.Keys == f.ip.Keys && n in f.ip && off <= f.ip[n].size && off + |src| <= MAXFILE * BSIZE
    requires F.FileBytes(h, n) == FsFile.Splice(F.FileBytes(f, n), off, src)
    requires forall m :: m in h.ip && m != n ==> h.ip[m] == f.ip[m] && F.FileBytes(h, m) == F.FileBytes(f, m)
    requires h.ip[n].(addrs := []) == f.ip[n].(addrs := [], size := h.ip[n].size)
    ensures Did(sb, FileOp.Write(n, off, src), f, h)
  {
  }

  lemma DidTruncate(sb: F.Super, n: nat, f: F.Fs, h: F.Fs)
    requires F.Good(sb, h) && h.ip.Keys == f.ip.Keys && n in f.ip && F.FileBytes(h, n) == []
    requires forall m :: m in h.ip && m != n ==> h.ip[m] == f.ip[m] && F.FileBytes(h, m) == F.FileBytes(f, m)
    requires h.ip[n].(addrs := []) == f.ip[n].(addrs := [], size := 0)
    ensures Did(sb, FileOp.Truncate(n), f, h)
  {
  }

  lemma DidLink(sb: F.Super, dp: nat, name: FsDir.Name, inum: nat, f: F.Fs, h: F.Fs)
    requires F.Good(sb, h) && dp in f.ip && dp in h.ip && FsDir.SameOthers(f, h, dp)
    requires FsDir.Lookup(F.FileBytes(f, dp), FsDir.Key(name)) == FsFile.None
    requires FsDir.Rebound(F.FileBytes(f, dp), F.FileBytes(h, dp), FsDir.Key(name), FsFile.Some(inum))
    ensures Did(sb, FileOp.Link(dp, name, inum), f, h)
  {
  }

  lemma DidUnlink(sb: F.Super, dp: nat, name: FsDir.Name, n: nat, f: F.Fs, h: F.Fs)
    requires F.Good(sb, h) && dp in f.ip && dp in h.ip && FsDir.Unlinked(f, h, dp, n)
    requires FsDir.Lookup(F.FileBytes(f, dp), FsDir.Key(name)) == FsFile.Some(n)
    requires FsDir.Rebound(F.FileBytes(f, dp), F.FileBytes(h, dp), FsDir.Key(name), FsFile.None)
    ensures Did(sb, FileOp.Unlink(dp, name), f, h)
  {
  }

  /** The four operations, done by the code of FsFile and FsDir: refused without a trace, or done. None is a panic. */
  method Do(fs: FsFile.FileSys, op: FileOp) returns (done: FsFile.Option<bool>)
    requires Allowed(fs, op)
    modifies fs`blk, fs`ip, fs`owner, fs`logged
    ensures done == FsFile.Some(false) ==> fs.F() == old(fs.F())
    ensures done == FsFile.Some(true) ==> Did(fs.sb, op, old(fs.F()), fs.F())
    ensures FsFile.Noted(old(fs.blk), old(fs.logged), fs.blk, fs.logged)
  {
    hide F.FileBytes, FsFile.Noted, FsFile.Filled, FsFile.Journaled, FsFile.Hole, FsFile.Splice, FsFile.LogCost, Did, F.Own, F.FilesOk;
    hide FsDir.Lookup, FsDir.Rebound, FsDir.DirOk, FsDir.PutAt, FsDir.Unlinked, FsDir.Bare, FsDir.SameOthers;
    ghost var f := fs.F();
    match op
    case Write(n, off, src) =>
      FsFile.MappedSize(fs.sb, f, n);
      var r := fs.WriteI(n, src, off);
      if r.Some? && r != FsFile.Some(-1) { DidWrite(fs.sb, n, off, src, f, fs.F()); }
      done := if r.None? then FsFile.None else FsFile.Some(r != FsFile.Some(-1));
    case Truncate(n) =>
      var ok := fs.Itrunc(n);
      DidTruncate(fs.sb, n, f, fs.F());
      done := FsFile.Some(true);
    case Link(dp, name, inum) =>
      var r := FsDir.DirLink(fs, dp, name, inum);
      if r == FsFile.Some(0) { DidLink(fs.sb, dp, name, inum, f, fs.F()); }
      done := if r.None? then FsFile.None else FsFile.Some(r != FsFile.Some(-1));
    case Unlink(dp, name) =>
      var r := FsDir.Unlink(fs, dp, name);
      if r == FsFile.Some(0) {
        ghost var n :| old(FsDir.LeadsTo(fs, dp, name, n)) && FsDir.Unlinked(f, fs.F(), dp, n);
        DidUnlink(fs.sb, dp, name, n, f, fs.F());
      }
      done := if r.None? then FsFile.None else FsFile.Some(r != FsFile.Some(-1));
  }

  // ----- runs of file operations

  /** States of the file system from f on, one operation after the other. */
  ghost predicate Sequence(sb: F.Super, ops: seq<FileOp>, fs: seq<F.Fs>) {
    |fs| == |ops| + 1 && Volume(sb, fs[0]) && forall k :: 0 <= k < |ops| ==> Did(sb, ops[k], fs[k], fs[k + 1])
  }

  /** From contents d the steps come to file operations, in some order, one after the other. */
  ghost predicate Amounts(sb: F.Super, d: Disk, acts: seq<Step>) {
    exists ops: seq<FileOp>, fs: seq<F.Fs> {:trigger Sequence(sb, ops, fs)} ::
      Sequence(sb, ops, fs) && fs[0].blk == d && Agree(sb, fs[|ops|].blk, Effect(d, acts))
  }

  /**
   * What the processes do between two moments at which no operation is running comes to file operations: to one, if they
   * take turns; to several, if operations that overlap keep out of each other's way.
   */
  ghost predicate DoesFileOps(sb: F.Super, r: seq<Sys>, acts: seq<Step>) {
    |r| == |acts| + 1 && forall h: nat, j: nat {:trigger Since(r, h, j)} ::
      j + 1 < |r| && Since(r, h, j) && Still(r[j + 1]) && GoodDisk(sb, Snapshot(r[h])) ==> Amounts(sb, Snapshot(r[h]), acts[h..j + 1])
  }

  /** Operations keep a volume a volume. */
  lemma {:induction false} SequenceGood(sb: F.Super, ops: seq<FileOp>, fs: seq<F.Fs>, k: nat)
    requires Sequence(sb, ops, fs) && k <= |ops|
    ensures Volume(sb, fs[k])
  {
    if k > 0 {
      SequenceGood(sb, ops, fs, k - 1);
      assert Did(sb, ops[k - 1], fs[k - 1], fs[k - 1 + 1]);
      hide F.Good;
    }
  }

  lemma FileOpsKeep(g: Geometry, budget: nat, sb: F.Super, r: seq<Sys>, acts: seq<Step>)
    requires IsRunBy(g, budget, r, acts) && DoesFileOps(sb, r, acts)
    ensures OpsKeep(sb, r)
  {
    hide GoodDisk, Agree, IsRunBy;
    forall h: nat, j: nat | j + 1 < |r| && Since(r, h, j) && Still(r[j + 1]) && GoodDisk(sb, Snapshot(r[h]))
      ensures GoodDisk(sb, Snapshot(r[j + 1]))
    {
      StretchEffect(g, budget, r, acts, h, j);
      AmountsToGood(sb, Snapshot(r[h]), acts[h..j + 1]);
    }
  }

  lemma AmountsToGood(sb: F.Super, d: Disk, acts: seq<Step>)
    requires Amounts(sb, d, acts)
    ensures GoodDisk(sb, Effect(d, acts))
  {
    var ops: seq<FileOp>, fs: seq<F.Fs> :| Sequence(sb, ops, fs) && fs[0].blk == d && Agree(sb, fs[|ops|].blk, Effect(d, acts));
    SequenceGood(sb, ops, fs, |ops|);
    assert GoodDisk(sb, fs[|ops|].blk);
    GoodAgrees(sb, fs[|ops|].blk, Effect(d, acts));
  }

  /**
   * Writes, truncations, links and unlinks under the log: cut the run at any moment, and recovery leaves a volume in order
   * that is the one some number of whole operations had made.
   */
  lemma FileRunsAreSafe(g: Geometry, budget: nat, sb: F.Super, r: seq<Sys>, acts: seq<Step>, i: nat)
    requires IsRunBy(g, budget, r, acts) && i < |r| && Layout(g, sb) && DoesFileOps(sb, r, acts)
    requires r[0].hist != [] && GoodDisk(sb, r[0].hist[0])
    ensures Recoverable(g, r[i].disk) && GoodDisk(sb, Recovered(g, r[i].disk))
    ensures Agree(sb, r[0].hist[0], Recovered(g, r[i].disk)) ||
      exists j: nat :: j < i && Still(r[j]) && Agree(sb, Snapshot(r[j]), Recovered(g, r[i].disk))
  {
    hide Boot, Next, Enabled, Recoverable, Recovered, GoodDisk, Agree, DoesFileOps, OpsKeep;
    RunByIsRun(g, budget, r, acts);
    FileOpsKeep(g, budget, sb, r, acts);
    EveryCrashIsSafe(g, budget, sb, r, i);
  }
}
