// The log and the file system together: whatever moment the power fails, what
// recovery leaves is a file system in order, and no operation is half there.
module EndToEnd {
  import opened Blocks
  import opened LogSpec
  import opened LogRun
  import opened LogTheorems
  import opened FsLayout
  import F = FsState

  /** One volume: the log lies below the inode blocks. */
  predicate Layout(g: Geometry, sb: F.Super) {
    g.Ok() && sb.Ok() && g.disksize == sb.size && g.start + g.size <= sb.inodestart
  }

  /** A file system in order, with all its inodes at hand. */
  ghost predicate Volume(sb: F.Super, f: F.Fs) {
    F.Good(sb, f) && forall n: nat :: n in f.ip <==> n < sb.ninodes
  }

  /** The block contents of a file system that is in order. */
  ghost predicate GoodDisk(sb: F.Super, d: Disk) {
    exists f: F.Fs :: f.blk == d && Volume(sb, f)
  }

  /** The same inodes, free map and data. */
  ghost predicate Agree(sb: F.Super, d: Disk, e: Disk) {
    |d| == |e| == sb.size && forall b: nat :: sb.inodestart <= b < sb.size ==> d[b] == e[b]
  }

  /** The contents determine the volume: inodes are as on disk, and who owns a block is whose address it is. */
  lemma VolumeUnique(sb: F.Super, f: F.Fs, h: F.Fs)
    requires Volume(sb, f) && Volume(sb, h) && f.blk == h.blk
    ensures f == h
  {
    hide GetInode, F.Used, F.Addr, F.Mapped;
    forall n | n in f.ip ensures n in h.ip && f.ip[n] == h.ip[n] {
      assert F.OnDisk(sb, f, n) && F.OnDisk(sb, h, n);
    }
    assert f.ip.Keys == h.ip.Keys;
    assert f.ip == h.ip;
    SameOwners(sb, f, h);
    SameOwners(sb, h, f);
    assert f.owner.Keys == h.owner.Keys;
  }

  lemma SameOwners(sb: F.Super, f: F.Fs, h: F.Fs)
    requires F.Own(sb, f, {}) && F.Own(sb, h, {}) && f.blk == h.blk && f.ip == h.ip
    ensures forall b :: b in f.owner ==> b in h.owner && h.owner[b] == f.owner[b]
  {
    hide F.Used;
    forall b | b in f.owner ensures b in h.owner && h.owner[b] == f.owner[b] {
      assert F.Addr(h, f.owner[b]) == F.Addr(f, f.owner[b]) == b;
    }
  }

  // ----- being in order does not depend on the log area

  lemma AddrAgrees(sb: F.Super, f: F.Fs, h: F.Fs, s: F.Slot)
    requires F.Own(sb, f, {}) && h == f.(blk := h.blk) && Agree(sb, f.blk, h.blk)
    ensures F.Addr(h, s) == F.Addr(f, s)
  {
    if s.Entry? {
      assert F.Addr(f, F.Indirect(s.n)) == F.InodeAddr(f, s.n, NDIRECT) == F.InodeAddr(h, s.n, NDIRECT);
    }
  }

  lemma OwnAgrees(sb: F.Super, f: F.Fs, h: F.Fs)
    requires F.Own(sb, f, {}) && h == f.(blk := h.blk) && Agree(sb, f.blk, h.blk)
    ensures F.Own(sb, h, {})
    ensures forall s {:trigger F.Addr(h, s)} :: F.Addr(h, s) == F.Addr(f, s)
  {
    hide F.Addr, Bit;
    forall s ensures F.Addr(h, s) == F.Addr(f, s) { AddrAgrees(sb, f, h, s); }
    forall b: nat | b < sb.size ensures F.Used(sb, h, b) == F.Used(sb, f, b) { F.MapBlockRange(sb, b); }
  }

  lemma FileAgrees(sb: F.Super, f: F.Fs, h: F.Fs, n: nat)
    requires F.Good(sb, f) && h == f.(blk := h.blk) && Agree(sb, f.blk, h.blk) && n in f.ip
    ensures n < sb.ninodes && F.Mapped(h, n, h.ip[n].size) && F.OnDisk(sb, h, n)
  {
    hide F.Addr, Bit, GetInode, F.Used;
    OwnAgrees(sb, f, h);
    F.InodeBlockRange(sb, n);
    assert F.OnDisk(sb, f, n) && F.Mapped(f, n, f.ip[n].size);
    forall bn: nat | bn * BSIZE < h.ip[n].size ensures F.BlockOf(h, n, bn) != 0 {
      assert F.BlockOf(f, n, bn) != 0;
    }
  }

  lemma GoodAgrees(sb: F.Super, d: Disk, e: Disk)
    requires GoodDisk(sb, d) && Agree(sb, d, e)
    ensures GoodDisk(sb, e)
  {
    hide Agree, F.Own, F.Mapped, F.OnDisk;
    var f: F.Fs :| f.blk == d && Volume(sb, f);
    var h := f.(blk := e);
    OwnAgrees(sb, f, h);
    AgreeSize(sb, d, e);
    forall n | n in h.ip ensures n < sb.ninodes && F.Mapped(h, n, h.ip[n].size) && F.OnDisk(sb, h, n) { FileAgrees(sb, f, h, n); }
  }

  lemma AgreeSize(sb: F.Super, d: Disk, e: Disk)
    requires Agree(sb, d, e)
    ensures |d| == |e| == sb.size
  {
  }

  // ----- the states between operations

  /** No operation is running, and the log is not being replayed. */
  ghost predicate Still(s: Sys) { Outstanding(s.ops) == 0 && !s.phase.Recovering? }

  /** Since state h, in which nothing ran, something has been running up to state i. */
  ghost predicate Since(r: seq<Sys>, h: nat, i: nat)
    requires i < |r|
  {
    h < i && Still(r[h]) && forall k :: h < k <= i ==> Outstanding(r[k].ops) > 0
  }

  /**
   * What the file system promises the log: operations that ran, alone or overlapping, between two moments at which none
   * does have taken a file system in order to one in order.
   */
  ghost predicate OpsKeep(sb: F.Super, r: seq<Sys>) {
    forall h: nat, j: nat {:trigger Since(r, h, j)} :: j + 1 < |r| && Since(r, h, j) && Still(r[j + 1]) && GoodDisk(sb, Snapshot(r[h])) ==>
      GoodDisk(sb, Snapshot(r[j + 1]))
  }

  /** With the log empty, readers see the last durable state. */
  lemma StillIsDurable(g: Geometry, budget: nat, sb: F.Super, r: seq<Sys>, i: nat)
    requires IsRun(g, budget, r) && i < |r| && Layout(g, sb) && Still(r[i]) && r[i].lh == []
    ensures |r[i].hist| > 0 && Agree(sb, r[i].hist[|r[i].hist| - 1], Snapshot(r[i]))
  {
    hide Inv, Next, Enabled, Boot;
    RunInv(g, budget, r, i);
    StillIsQuiet(g, budget, r[i]);
    forall b: nat | sb.inodestart <= b < sb.size
      ensures |r[i].hist| > 0 && |r[i].hist[|r[i].hist| - 1]| == sb.size == |r[i].disk| && r[i].hist[|r[i].hist| - 1][b] == View(r[i], b)
    {
      WholeRunDurability(g, budget, r, i, b);
    }
    assert g.Home(sb.inodestart);
    WholeRunDurability(g, budget, r, i, sb.inodestart);
  }

  lemma StillIsQuiet(g: Geometry, budget: nat, s: Sys)
    requires Inv(g, budget, s) && Still(s)
    ensures Quiet(s) && (s.phase.Committing? || s.lh == [])
  {
    NoneOutstanding(s.ops);
  }

  /** Outside the log, commit's writes change logged blocks only. */
  lemma CommitDiskOther(g: Geometry, d: Disk, bs: seq<nat>, data: seq<Block>, k: nat, b: nat)
    requires g.Ok() && |d| == g.disksize && Loggable(g, bs) && |data| == |bs| && k <= 2 * |bs| + 2 && g.Home(b) && b !in bs
    ensures CommitDisk(g, d, bs, data, k)[b] == d[b]
  {
    hide SetHeader;
    if k > |bs| {
      var p := CommitPoint(g, d, bs, data);
      InstalledAt(g, p, bs, if k <= 2 * |bs| + 1 then k - |bs| - 1 else |bs|);
      assert Find(bs, b) == |bs|;
    }
  }

  /** During a commit readers see what the commit began with. */
  lemma CommitView(g: Geometry, budget: nat, s: Sys, b: nat)
    requires Inv(g, budget, s) && s.phase.Committing? && Outstanding(s.ops) == 0 && g.Home(b)
    ensures |s.phase.base| == |s.disk| && |s.phase.data| == |s.lh| && View(s, b) == Updated(s.phase.base, s.lh, s.phase.data, b)
  {
    hide CommitDisk;
    if b in s.lh {
      assert s.lh[Find(s.lh, b)] == b;
    } else {
      assert Find(s.lh, b) == |s.lh|;
      CommitDiskOther(g, s.phase.base, s.lh, s.phase.data, s.phase.k, b);
    }
  }

  /** A commit that is under way with nothing running was under way before. */
  lemma CommitGoesOn(g: Geometry, budget: nat, s: Sys, t: Sys)
    requires StepTo(g, budget, s, t) && Outstanding(s.ops) == 0 && t.phase.Committing?
    ensures s.phase.Committing? && t.phase.base == s.phase.base && t.phase.data == s.phase.data && t.lh == s.lh && t.ops == s.ops
    ensures |t.disk| == |s.disk|
  {
    hide NextCommitWrite, LoggedBlocks, Recoverable, Used, LogFull, Loggable;
    var a :| Enabled(g, budget, s, a) && t == Next(g, budget, s, a);
    NoneOutstanding(s.ops);
  }

  lemma CommitAgrees(g: Geometry, budget: nat, sb: F.Super, s: Sys, t: Sys)
    requires Inv(g, budget, s) && Inv(g, budget, t) && Layout(g, sb) && StepTo(g, budget, s, t)
    requires Outstanding(s.ops) == 0 && t.phase.Committing?
    ensures s.phase.Committing? && Agree(sb, Snapshot(s), Snapshot(t))
  {
    hide Durable, CacheOk, PhaseOk, OpsOk, Next, Enabled;
    CommitGoesOn(g, budget, s, t);
    forall b: nat | sb.inodestart <= b < sb.size ensures View(s, b) == View(t, b) {
      CommitView(g, budget, s, b);
      CommitView(g, budget, t, b);
    }
  }

  // ----- every state of every run

  ghost predicate AllGood(sb: F.Super, hist: seq<Disk>) { forall e :: 0 <= e < |hist| ==> GoodDisk(sb, hist[e]) }

  /** So far every durable state, and the view at every moment with nothing running, is a file system in order. */
  ghost predicate GoodSoFar(sb: F.Super, r: seq<Sys>, i: nat)
    requires i < |r|
  {
    && AllGood(sb, r[i].hist)
    && (Still(r[i]) ==> GoodDisk(sb, Snapshot(r[i])))
    && (Outstanding(r[i].ops) > 0 ==> exists h: nat :: Since(r, h, i) && GoodDisk(sb, Snapshot(r[h])))
  }

  lemma StillView(g: Geometry, budget: nat, sb: F.Super, r: seq<Sys>, i: nat)
    requires IsRun(g, budget, r) && i + 1 < |r| && Layout(g, sb) && OpsKeep(sb, r) && GoodSoFar(sb, r, i) && Still(r[i + 1])
    requires AllGood(sb, r[i + 1].hist)
    ensures GoodDisk(sb, Snapshot(r[i + 1]))
  {
    hide Inv, GoodDisk, StepTo, OpsKeep, Agree, Quiet;
    var s, t := r[i], r[i + 1];
    RunInv(g, budget, r, i);
    RunInv(g, budget, r, i + 1);
    StillIsQuiet(g, budget, t);
    if t.lh == [] {
      StillIsDurable(g, budget, sb, r, i + 1);
      GoodAgrees(sb, t.hist[|t.hist| - 1], Snapshot(t));
    } else if Outstanding(s.ops) > 0 {
      var h: nat :| Since(r, h, i) && GoodDisk(sb, Snapshot(r[h]));
      Promised(sb, r, h, i);
    } else {
      assert StepTo(g, budget, s, t);
      CommitAgrees(g, budget, sb, s, t);
      GoodAgrees(sb, Snapshot(s), Snapshot(t));
    }
  }

  lemma Promised(sb: F.Super, r: seq<Sys>, h: nat, j: nat)
    requires OpsKeep(sb, r) && j + 1 < |r| && Since(r, h, j) && Still(r[j + 1]) && GoodDisk(sb, Snapshot(r[h]))
    ensures GoodDisk(sb, Snapshot(r[j + 1]))
  {
  }

  /** Operations begin when the log is not being replayed. */
  lemma BeginsStill(g: Geometry, budget: nat, s: Sys, t: Sys)
    requires StepTo(g, budget, s, t) && Outstanding(s.ops) == 0 && Outstanding(t.ops) > 0
    ensures Still(s)
  {
    hide NextCommitWrite, LoggedBlocks, Recoverable, Used, LogFull, Loggable;
    var a :| Enabled(g, budget, s, a) && t == Next(g, budget, s, a);
    NoneOutstanding(s.ops);
    NoneOutstanding(t.ops);
  }

  lemma {:induction false} AlwaysGood(g: Geometry, budget: nat, sb: F.Super, r: seq<Sys>, i: nat)
    requires IsRun(g, budget, r) && i < |r| && Layout(g, sb) && OpsKeep(sb, r) && GoodDisk(sb, r[0].hist[0])
    ensures GoodSoFar(sb, r, i)
  {
    hide Inv, GoodDisk, StepTo, OpsKeep, Quiet;
    if i == 0 {
      NoneOutstanding(r[0].ops);
    } else {
      var s, t := r[i - 1], r[i];
      AlwaysGood(g, budget, sb, r, i - 1);
      RunInv(g, budget, r, i - 1);
      assert StepTo(g, budget, r[i - 1], r[i - 1 + 1]);
      HistoryStep(g, budget, s, t);
      if t.hist != s.hist { CommitsStill(g, budget, s, t); }
      if Still(t) { StillView(g, budget, sb, r, i - 1); }
      if Outstanding(t.ops) > 0 {
        if Outstanding(s.ops) > 0 {
          var h: nat :| Since(r, h, i - 1) && GoodDisk(sb, Snapshot(r[h]));
          assert Since(r, h, i);
        } else {
          BeginsStill(g, budget, s, t);
          assert Since(r, i - 1, i);
        }
      }
    }
  }

  /** What becomes durable is the view of a moment with nothing running. */
  lemma CommitsStill(g: Geometry, budget: nat, s: Sys, t: Sys)
    requires Inv(g, budget, s) && StepTo(g, budget, s, t) && t.hist != s.hist
    ensures Still(s)
  {
    hide NextCommitWrite, LoggedBlocks, Recoverable, Used, LogFull, Loggable, CacheOk, Durable;
    var a :| Enabled(g, budget, s, a) && t == Next(g, budget, s, a);
    NoneOutstanding(s.ops);
  }

  /**
   * End to end: cut a run of file operations at any moment. The disk recovers, the file system that recovery leaves is in
   * order, and it is the volume as it was when no operation was running, or as the run found it: of every operation
   * either all the writes are there or none.
   */
  lemma EveryCrashIsSafe(g: Geometry, budget: nat, sb: F.Super, r: seq<Sys>, i: nat)
    requires IsRun(g, budget, r) && i < |r| && Layout(g, sb) && OpsKeep(sb, r) && GoodDisk(sb, r[0].hist[0])
    ensures Recoverable(g, r[i].disk) && GoodDisk(sb, Recovered(g, r[i].disk))
    ensures Agree(sb, r[0].hist[0], Recovered(g, r[i].disk)) ||
      exists j: nat :: j < i && Still(r[j]) && Agree(sb, Snapshot(r[j]), Recovered(g, r[i].disk))
  {
    hide Inv, GoodDisk, StepTo, OpsKeep, Quiet, Boot;
    AlwaysGood(g, budget, sb, r, i);
    RecoversLast(g, budget, sb, r, i);
    var last := r[i].hist[|r[i].hist| - 1];
    GoodAgrees(sb, last, Recovered(g, r[i].disk));
    WasStill(g, budget, r, i, |r[i].hist| - 1);
  }

  lemma RecoversLast(g: Geometry, budget: nat, sb: F.Super, r: seq<Sys>, i: nat)
    requires IsRun(g, budget, r) && i < |r| && Layout(g, sb)
    ensures Recoverable(g, r[i].disk) && |r[i].hist| > 0 && Agree(sb, r[i].hist[|r[i].hist| - 1], Recovered(g, r[i].disk))
  {
    hide Quiet, HomesSettled;
    assert g.Home(sb.inodestart);
    WholeRunDurability(g, budget, r, i, sb.inodestart);
    forall b: nat | sb.inodestart <= b < sb.size ensures r[i].hist[|r[i].hist| - 1][b] == Recovered(g, r[i].disk)[b] {
      WholeRunDurability(g, budget, r, i, b);
    }
  }

  /** Each durable state but the first was the view of an earlier moment with nothing running. */
  lemma {:induction false} WasStill(g: Geometry, budget: nat, r: seq<Sys>, i: nat, e: nat)
    requires IsRun(g, budget, r) && i < |r| && e < |r[i].hist|
    ensures r[i].hist[e] == r[0].hist[0] || exists j: nat :: j < i && Still(r[j]) && r[i].hist[e] == Snapshot(r[j])
  {
    hide Inv, StepTo, Quiet;
    if i > 0 {
      RunInv(g, budget, r, i - 1);
      assert StepTo(g, budget, r[i - 1], r[i - 1 + 1]);
      HistoryStep(g, budget, r[i - 1], r[i]);
      if e < |r[i - 1].hist| {
        WasStill(g, budget, r, i - 1, e);
      } else {
        CommitsStill(g, budget, r[i - 1], r[i]);
        assert r[i].hist[e] == Snapshot(r[i - 1]);
      }
    }
  }
}
