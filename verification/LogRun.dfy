// Whole runs of the logging system: file-system operations that interleave at
// lock granularity, buffer reads and evictions, group commit one block write at
// a time, crashes at any point and recovery at boot.
module LogRun {
  import opened Blocks
  import opened LogSpec

  /** The sleep-lock of a buffer. `touched`: the holder changed the data and has not called log_write yet. */
  datatype Lock = Unlocked | Reading | Writing(proc: nat, touched: bool)

  /** A buffer that holds a block of the log device. */
  datatype Line = Line(data: Block, dirty: bool, lock: Lock) {
    predicate Touched() { lock.Writing? && lock.touched }
  }

  /** A process is inside at most one operation; `logged` are the blocks it has passed to log_write. */
  datatype Op = Idle | Active(logged: set<nat>)

  /** `base` and `data` record the disk and the logged contents when the phase began. */
  datatype Phase =
    | Running
    | Committing(k: nat, base: Disk, data: seq<Block>)
    | Committed
    | Recovering(k: nat, base: Disk)

  datatype Sys = Sys(disk: Disk, cache: map<nat, Line>, lh: seq<nat>, ops: seq<Op>, phase: Phase, hist: seq<Disk>)

  /** What can happen to one buffer without the log noticing. */
  datatype Use = Fill | Evict | ReadLock | ReadUnlock | WriteLock(p: nat) | Modify(data: Block) | WriteUnlock

  datatype Step =
    | Begin(p: nat)
    | Buffer(b: nat, use: Use)
    | LogWrite(b: nat)
    | End(p: nat)
    | CommitStep
    | CommitDone
    | Crash
    | RecoverStep

  function Outstanding(ops: seq<Op>): nat {
    if ops == [] then 0 else Outstanding(ops[..|ops| - 1]) + (if ops[|ops| - 1].Active? then 1 else 0)
  }

  /** Blocks the outstanding operations may still add when each may log `budget` distinct ones. */
  function Unused(ops: seq<Op>, budget: nat): int {
    if ops == [] then 0
    else Unused(ops[..|ops| - 1], budget) + (if ops[|ops| - 1].Active? then budget - |ops[|ops| - 1].logged| else 0)
  }

  function View(s: Sys, b: nat): Block
    requires b < |s.disk|
  {
    if b in s.cache then s.cache[b].data else s.disk[b]
  }

  function Snapshot(s: Sys): (r: Disk)
    ensures |r| == |s.disk| && forall b :: 0 <= b < |r| ==> r[b] == View(s, b)
  {
    seq(|s.disk|, b requires 0 <= b < |s.disk| => View(s, b))
  }

  /** bwrite of a buffer obtained by bread. */
  function WriteThrough(s: Sys, w: Write): Sys
    requires w.blockno < |s.disk|
  {
    s.(disk := Put(s.disk, w), cache := s.cache[w.blockno := Line(w.data, false, Unlocked)])
  }

  predicate Free(s: Sys, b: nat) {
    b in s.cache ==> s.cache[b].lock == Unlocked
  }

  /** log_write's panic test, made before it looks for an absorbing entry. */
  predicate LogFull(g: Geometry, s: Sys) {
    |s.lh| >= LOGSIZE || |s.lh| >= g.size - 1
  }

  /** The block write that commit makes as its k-th one, from the buffers as they are now. */
  function NextCommitWrite(g: Geometry, s: Sys, k: nat): (w: Write)
    requires g.Ok() && |s.disk| == g.disksize && Loggable(g, s.lh) && k < 2 * |s.lh| + 2
    ensures w.blockno < |s.disk|
  {
    var n := |s.lh|;
    if k < n then Write(g.start + 1 + k, View(s, s.lh[k]))
    else if k == n then Write(g.start, SetHeader(View(s, g.start), s.lh))
    else if k <= 2 * n then Write(s.lh[k - n - 1], View(s, g.start + k - n))
    else Write(g.start, SetHeader(View(s, g.start), []))
  }

  predicate Shape(g: Geometry, s: Sys) {
    g.Ok() && |s.disk| == g.disksize && Loggable(g, s.lh)
  }

  predicate Usable(g: Geometry, s: Sys, b: nat, use: Use)
  {
    match use
    case Fill => b < |s.disk| && b !in s.cache && !s.phase.Recovering?
    case Evict => b in s.cache && s.cache[b].lock == Unlocked && !s.cache[b].dirty
    case ReadLock => b in s.cache && s.cache[b].lock == Unlocked
    case ReadUnlock => b in s.cache && s.cache[b].lock == Reading
    case WriteLock(p) =>
      p < |s.ops| && s.ops[p].Active? && g.Home(b) && b in s.cache && s.cache[b].lock == Unlocked
    case Modify(data) => b in s.cache && s.cache[b].lock.Writing?
    case WriteUnlock => b in s.cache && s.cache[b].lock.Writing? && !s.cache[b].lock.touched
  }

  function Used(g: Geometry, s: Sys, b: nat, use: Use): map<nat, Line>
    requires Usable(g, s, b, use)
  {
    match use
    case Fill => s.cache[b := Line(s.disk[b], false, Unlocked)]
    case Evict => s.cache - {b}
    case ReadLock => s.cache[b := s.cache[b].(lock := Reading)]
    case ReadUnlock => s.cache[b := s.cache[b].(lock := Unlocked)]
    case WriteLock(p) => s.cache[b := s.cache[b].(lock := Writing(p, false))]
    case Modify(data) => s.cache[b := Line(data, s.cache[b].dirty, Writing(s.cache[b].lock.proc, true))]
    case WriteUnlock => s.cache[b := s.cache[b].(lock := Unlocked)]
  }

  ghost predicate Enabled(g: Geometry, budget: nat, s: Sys, a: Step)
    requires Shape(g, s)
  {
    match a
    case Begin(p) =>
      && p < |s.ops| && s.ops[p].Idle? && s.phase.Running?
      && |s.lh| + (Outstanding(s.ops) + 1) * MAXOPBLOCKS <= LOGSIZE
    case Buffer(b, use) => Usable(g, s, b, use)
    case LogWrite(b) =>
      && b in s.cache && s.cache[b].lock.Writing? && s.cache[b].lock.proc < |s.ops|
      && s.ops[s.cache[b].lock.proc].Active? && |s.ops[s.cache[b].lock.proc].logged + {b}| <= budget
      && !LogFull(g, s)
    case End(p) =>
      && p < |s.ops| && s.ops[p].Active? && s.phase.Running?
      && forall b :: b in s.cache && s.cache[b].lock.Writing? ==> s.cache[b].lock.proc != p
    case CommitStep =>
      && s.phase.Committing? && s.phase.k < 2 * |s.lh| + 2
      && Free(s, NextCommitWrite(g, s, s.phase.k).blockno)
      && (s.phase.k < |s.lh| ==> Free(s, s.lh[s.phase.k]))
    case CommitDone => s.phase.Committed?
    case Crash => true
    case RecoverStep => s.phase.Recovering? && Recoverable(g, s.disk) && s.phase.k <= |LoggedBlocks(g, s.disk)|
  }

  function EndOp(g: Geometry, s: Sys, p: nat): Sys
    requires Shape(g, s) && p < |s.ops|
  {
    var t := s.(ops := s.ops[p := Idle]);
    if Outstanding(t.ops) > 0 then t
    else if s.lh == [] then t.(phase := Committed)
    else t.(phase := Committing(0, s.disk, seq(|s.lh|, i requires 0 <= i < |s.lh| => View(s, s.lh[i]))))
  }

  ghost function Next(g: Geometry, budget: nat, s: Sys, a: Step): Sys
    requires Shape(g, s) && Enabled(g, budget, s, a)
  {
    match a
    case Begin(p) => s.(ops := s.ops[p := Active({})])
    case Buffer(b, use) => s.(cache := Used(g, s, b, use))
    case LogWrite(b) =>
      var p := s.cache[b].lock.proc;
      s.(lh := if Find(s.lh, b) == |s.lh| then s.lh + [b] else s.lh,
         cache := s.cache[b := Line(s.cache[b].data, true, Writing(p, false))],
         ops := s.ops[p := Active(s.ops[p].logged + {b})])
    case End(p) => EndOp(g, s, p)
    case CommitStep =>
      var k, n := s.phase.k, |s.lh|;
      var t := WriteThrough(s, NextCommitWrite(g, s, k));
      if k == 2 * n + 1 then t.(lh := [], phase := Committed)
      else t.(phase := Committing(k + 1, s.phase.base, s.phase.data), hist := if k == n then s.hist + [Snapshot(s)] else s.hist)
    case CommitDone => s.(phase := Running)
    case Crash =>
      s.(cache := map[], lh := [], ops := seq(|s.ops|, _ => Idle), phase := Recovering(0, s.disk))
    case RecoverStep =>
      var bs := LoggedBlocks(g, s.disk);
      var k := s.phase.k;
      if k < |bs| then s.(disk := Put(s.disk, Write(bs[k], s.disk[g.start + 1 + k])), phase := Recovering(k + 1, s.phase.base))
      else s.(disk := Put(s.disk, Write(g.start, SetHeader(s.disk[g.start], []))), phase := Running)
  }

  // ----- the invariant

  /** The disk, replayed, is the last committed state. */
  ghost predicate Durable(g: Geometry, s: Sys) {
    && |s.hist| > 0 && |s.hist[|s.hist| - 1]| == |s.disk|
    && Recoverable(g, s.disk)
    && forall b: nat :: g.Home(b) ==> HomeValue(g, s.disk, b) == s.hist[|s.hist| - 1][b]
  }

  /** A buffer differs from its disk block only while it is pinned or being changed. */
  ghost predicate CacheOk(g: Geometry, s: Sys) {
    forall b :: b in s.cache ==>
      && b < |s.disk|
      && (s.cache[b].data == s.disk[b] || s.cache[b].dirty || s.cache[b].Touched())
      && (s.cache[b].dirty ==> b in s.lh)
      && (s.cache[b].lock.Writing? ==>
            && s.phase.Running? && g.Home(b)
            && s.cache[b].lock.proc < |s.ops| && s.ops[s.cache[b].lock.proc].Active?)
  }

  ghost predicate OpsOk(budget: nat, s: Sys) {
    forall p :: 0 <= p < |s.ops| && s.ops[p].Active? ==>
      s.phase.Running? && |s.ops[p].logged| <= budget && forall b :: b in s.ops[p].logged ==> b in s.lh
  }

  ghost predicate PhaseOk(g: Geometry, s: Sys)
    requires Shape(g, s)
  {
    match s.phase
    case Running =>
      && HeaderCount(s.disk[g.start]) == 0
      && (forall i :: 0 <= i < |s.lh| ==> s.lh[i] in s.cache && s.cache[s.lh[i]].dirty)
      && (Outstanding(s.ops) == 0 ==> s.lh == [])
    case Committing(k, base, data) =>
      && 0 < |s.lh| && k <= 2 * |s.lh| + 1 && |data| == |s.lh|
      && |base| == |s.disk| && HeaderCount(base[g.start]) == 0
      && s.disk == CommitDisk(g, base, s.lh, data, k)
      && (forall i :: 0 <= i < |s.lh| ==>
            && View(s, s.lh[i]) == data[i]
            && (|s.lh| + 1 + i < k <==> (s.lh[i] in s.cache ==> !s.cache[s.lh[i]].dirty)))
    case Committed => s.lh == [] && HeaderCount(s.disk[g.start]) == 0
    case Recovering(k, base) =>
      && s.cache == map[] && s.lh == [] && Recoverable(g, base) && k <= |LoggedBlocks(g, base)|
      && s.disk == RecoverDisk(g, base, k)
  }

  ghost predicate Inv(g: Geometry, budget: nat, s: Sys) {
    Shape(g, s) && Durable(g, s) && CacheOk(g, s) && OpsOk(budget, s) && PhaseOk(g, s)
  }

  // ----- every step keeps it

  lemma {:induction false} OutstandingUpdate(ops: seq<Op>, p: nat, o: Op)
    requires p < |ops|
    ensures Outstanding(ops[p := o]) == Outstanding(ops) - (if ops[p].Active? then 1 else 0) + (if o.Active? then 1 else 0)
  {
    var n := |ops| - 1;
    if p < n {
      OutstandingUpdate(ops[..n], p, o);
      assert ops[p := o][..n] == ops[..n][p := o];
    } else {
      assert ops[p := o][..n] == ops[..n];
    }
  }

  lemma {:induction false} NoneOutstanding(ops: seq<Op>)
    ensures Outstanding(ops) == 0 <==> forall p :: 0 <= p < |ops| ==> ops[p].Idle?
  {
    if ops != [] {
      NoneOutstanding(ops[..|ops| - 1]);
    }
  }

  /** A change confined to the cache that respects CacheOk and leaves the logged buffers' contents and pins alone. */
  lemma CacheFrame(g: Geometry, budget: nat, s: Sys, t: Sys)
    requires Inv(g, budget, s) && t == s.(cache := t.cache) && CacheOk(g, t)
    requires !s.phase.Recovering?
    requires forall i :: 0 <= i < |s.lh| ==> (s.lh[i] in t.cache && t.cache[s.lh[i]].dirty <==> s.lh[i] in s.cache && s.cache[s.lh[i]].dirty)
    requires s.phase.Committing? ==> forall i :: 0 <= i < |s.lh| ==> View(t, s.lh[i]) == View(s, s.lh[i])
    ensures Inv(g, budget, t)
  {
  }

  lemma UseKeepsCache(g: Geometry, budget: nat, s: Sys, b: nat, use: Use)
    requires CacheOk(g, s) && OpsOk(budget, s) && Usable(g, s, b, use)
    ensures var t := s.(cache := Used(g, s, b, use));
      && CacheOk(g, t)
      && (forall x :: x in s.lh ==> (x in t.cache && t.cache[x].dirty <==> x in s.cache && s.cache[x].dirty))
      && (!s.phase.Running? ==> forall x: nat :: x < |s.disk| ==> View(t, x) == View(s, x))
  {
  }

  lemma KeepBuffer(g: Geometry, budget: nat, s: Sys, b: nat, use: Use)
    requires Inv(g, budget, s) && Enabled(g, budget, s, Buffer(b, use))
    ensures Inv(g, budget, Next(g, budget, s, Buffer(b, use)))
  {
    var t := s.(cache := Used(g, s, b, use));
    UseKeepsCache(g, budget, s, b, use);
    if !s.phase.Recovering? {
      CacheFrame(g, budget, s, t);
    }
  }

  lemma KeepBegin(g: Geometry, budget: nat, s: Sys, p: nat)
    requires Inv(g, budget, s) && Enabled(g, budget, s, Begin(p))
    ensures Inv(g, budget, Next(g, budget, s, Begin(p)))
  {
    OutstandingUpdate(s.ops, p, Active({}));
  }

  lemma Absorb(g: Geometry, bs: seq<nat>, b: nat)
    requires Loggable(g, bs) && g.Home(b) && |bs| < LOGSIZE && |bs| < g.size - 1
    ensures var r := if Find(bs, b) == |bs| then bs + [b] else bs;
      && Loggable(g, r) && b in r && bs <= r
      && forall x :: x in r ==> x == b || x in bs
  {
    if Find(bs, b) < |bs| {
      assert bs[Find(bs, b)] == b;
    }
  }

  lemma LogWriteKeepsCache(g: Geometry, budget: nat, s: Sys, b: nat, t: Sys)
    requires CacheOk(g, s) && OpsOk(budget, s) && Loggable(g, s.lh) && !LogFull(g, s) && g.disksize == |s.disk|
    requires b in s.cache && s.cache[b].lock.Writing?
    requires |s.ops[s.cache[b].lock.proc].logged + {b}| <= budget
    requires var p := s.cache[b].lock.proc;
      t == s.(lh := if Find(s.lh, b) == |s.lh| then s.lh + [b] else s.lh,
              cache := s.cache[b := Line(s.cache[b].data, true, Writing(p, false))],
              ops := s.ops[p := Active(s.ops[p].logged + {b})])
    ensures CacheOk(g, t) && OpsOk(budget, t) && Loggable(g, t.lh)
    ensures forall x :: x in t.lh ==> x == b || x in s.lh
    ensures Outstanding(t.ops) > 0
  {
    Absorb(g, s.lh, b);
    NoneOutstanding(t.ops);
    assert t.ops[s.cache[b].lock.proc].Active?;
  }

  lemma KeepLogWrite(g: Geometry, budget: nat, s: Sys, b: nat)
    requires Inv(g, budget, s) && Enabled(g, budget, s, LogWrite(b))
    ensures Inv(g, budget, Next(g, budget, s, LogWrite(b)))
  {
    hide Recoverable; hide HomeValue; hide HeaderCount; hide Find; hide CommitDisk; hide Loggable;
    var t := Next(g, budget, s, LogWrite(b));
    LogWriteKeepsCache(g, budget, s, b, t);
    forall i | 0 <= i < |t.lh| ensures t.lh[i] in t.cache && t.cache[t.lh[i]].dirty {
      assert t.lh[i] in t.lh;
    }
  }

  lemma KeepEnd(g: Geometry, budget: nat, s: Sys, p: nat)
    requires Inv(g, budget, s) && Enabled(g, budget, s, End(p))
    ensures Inv(g, budget, Next(g, budget, s, End(p)))
  {
    OutstandingUpdate(s.ops, p, Idle);
    var t := Next(g, budget, s, End(p));
    NoneOutstanding(t.ops);
    forall b | b in s.cache && s.cache[b].lock.Writing? ensures t.ops[s.cache[b].lock.proc].Active? {
      assert s.cache[b].lock.proc != p;
    }
    assert CacheOk(g, t);
  }

  lemma KeepCrash(g: Geometry, budget: nat, s: Sys)
    requires Inv(g, budget, s)
    ensures Inv(g, budget, Next(g, budget, s, Crash))
  {
    var t := Next(g, budget, s, Crash);
    NoneOutstanding(t.ops);
  }

  lemma RecoverNext(g: Geometry, base: Disk, k: nat)
    requires Recoverable(g, base) && k <= |LoggedBlocks(g, base)|
    ensures Recoverable(g, RecoverDisk(g, base, k))
    ensures var d := RecoverDisk(g, base, k); var bs := LoggedBlocks(g, base);
      && LoggedBlocks(g, d) == bs
      && RecoverDisk(g, base, k + 1) ==
           if k < |bs| then d[bs[k] := d[g.start + 1 + k]] else d[g.start := SetHeader(d[g.start], [])]
    ensures Recoverable(g, RecoverDisk(g, base, k + 1))
    ensures SameHome(g, RecoverDisk(g, base, k), RecoverDisk(g, base, k + 1))
    ensures k == |LoggedBlocks(g, base)| ==> HeaderCount(RecoverDisk(g, base, k + 1)[g.start]) == 0
  {
    hide HomeValue;
    var bs := LoggedBlocks(g, base);
    InstalledAt(g, base, bs, k);
    RecoverCut(g, base, k);
    RecoverCut(g, base, k + 1);
    SameLog(g, base, RecoverDisk(g, base, k));
    assert forall b: nat :: g.Home(b) ==> HomeValue(g, base, b) == HomeValue(g, RecoverDisk(g, base, k), b);
  }

  lemma KeepRecover(g: Geometry, budget: nat, s: Sys)
    requires Inv(g, budget, s) && Enabled(g, budget, s, RecoverStep)
    ensures Inv(g, budget, Next(g, budget, s, RecoverStep))
  {
    hide HomeValue; hide Recoverable; hide HeaderCount; hide LoggedBlocks; hide RecoverDisk;
    RecoverNext(g, s.phase.base, s.phase.k);
    var t := Next(g, budget, s, RecoverStep);
    assert forall b: nat :: g.Home(b) ==> HomeValue(g, s.disk, b) == HomeValue(g, t.disk, b);
    NoneOutstanding(s.ops);
  }

  // ----- commit

  /** While no operation is outstanding every buffer that is not pinned equals its disk block. */
  lemma QuietCache(g: Geometry, s: Sys, b: nat)
    requires CacheOk(g, s) && !s.phase.Running? && b < |s.disk| && b !in s.lh
    ensures View(s, b) == s.disk[b]
  {
  }

  lemma LogPhaseWrite(g: Geometry, s: Sys, base: Disk, data: seq<Block>, k: nat)
    requires Shape(g, s) && CacheOk(g, s) && !s.phase.Running?
    requires |base| == |s.disk| && |data| == |s.lh| && k <= |s.lh| && s.disk == CommitDisk(g, base, s.lh, data, k)
    requires forall i :: 0 <= i < |s.lh| ==> View(s, s.lh[i]) == data[i]
    ensures Put(s.disk, NextCommitWrite(g, s, k)) == CommitDisk(g, base, s.lh, data, k + 1)
    ensures !g.Home(NextCommitWrite(g, s, k).blockno)
  {
    hide HeaderCount; hide HeaderBlocks; hide SetHeader; hide CommitDisk;
    LogPhaseNext(g, base, s.lh, data, k);
    QuietCache(g, s, g.start);
  }

  lemma InstallPhaseWrite(g: Geometry, s: Sys, base: Disk, data: seq<Block>, k: nat)
    requires Shape(g, s) && CacheOk(g, s) && !s.phase.Running?
    requires |base| == |s.disk| && |data| == |s.lh| < k < 2 * |s.lh| + 2 && s.disk == CommitDisk(g, base, s.lh, data, k)
    ensures var w := NextCommitWrite(g, s, k); var n := |s.lh|;
      && Put(s.disk, w) == CommitDisk(g, base, s.lh, data, k + 1)
      && if k <= 2 * n then w == Write(s.lh[k - n - 1], data[k - n - 1]) else !g.Home(w.blockno)
  {
    hide HeaderCount; hide HeaderBlocks; hide SetHeader; hide CommitDisk;
    InstallPhaseNext(g, base, s.lh, data, k);
    var n := |s.lh|;
    if k <= 2 * n {
      assert !g.Home(g.start + k - n);
      QuietCache(g, s, g.start + k - n);
      assert s.disk[g.start + 1 + (k - n - 1)] == data[k - n - 1];
    } else {
      QuietCache(g, s, g.start);
    }
  }

  lemma CommitWriteIsNext(g: Geometry, s: Sys)
    requires Shape(g, s) && CacheOk(g, s) && s.phase.Committing? && PhaseOk(g, s)
    ensures var w := NextCommitWrite(g, s, s.phase.k); var k := s.phase.k; var n := |s.lh|;
      && Put(s.disk, w) == CommitDisk(g, s.phase.base, s.lh, s.phase.data, k + 1)
      && if n < k <= 2 * n then w == Write(s.lh[k - n - 1], s.phase.data[k - n - 1]) else w.blockno !in s.lh
  {
    hide HeaderCount; hide HeaderBlocks; hide SetHeader; hide CommitDisk;
    if s.phase.k <= |s.lh| {
      LogPhaseWrite(g, s, s.phase.base, s.phase.data, s.phase.k);
    } else {
      InstallPhaseWrite(g, s, s.phase.base, s.phase.data, s.phase.k);
    }
  }

  lemma WriteThroughKeepsCache(g: Geometry, s: Sys, w: Write)
    requires CacheOk(g, s) && !s.phase.Running? && w.blockno < |s.disk|
    ensures var t := WriteThrough(s, w);
      && CacheOk(g, t)
      && (forall x: nat :: x < |s.disk| && x != w.blockno ==> View(t, x) == View(s, x))
      && View(t, w.blockno) == w.data
  {
  }

  /** The commit point turns exactly the current view into the durable state. */
  lemma CommitPointIsView(g: Geometry, s: Sys, base: Disk, data: seq<Block>)
    requires Shape(g, s) && CacheOk(g, s) && !s.phase.Running?
    requires |base| == |s.disk| && |data| == |s.lh| && s.disk == CommitDisk(g, base, s.lh, data, |s.lh|)
    requires forall i :: 0 <= i < |s.lh| ==> View(s, s.lh[i]) == data[i]
    ensures forall b: nat :: g.Home(b) ==> Updated(base, s.lh, data, b) == View(s, b)
  {
    hide HeaderCount; hide HeaderBlocks; hide SetHeader; hide CommitDisk;
    LogPhaseNext(g, base, s.lh, data, |s.lh|);
    forall b: nat | g.Home(b) ensures Updated(base, s.lh, data, b) == View(s, b) {
      if Find(s.lh, b) == |s.lh| {
        QuietCache(g, s, b);
      }
    }
  }

  lemma KeepCommitDurable(g: Geometry, budget: nat, s: Sys)
    requires Inv(g, budget, s) && Enabled(g, budget, s, CommitStep)
    ensures Durable(g, Next(g, budget, s, CommitStep))
  {
    hide HeaderCount; hide HeaderBlocks; hide HomeValue; hide CommitDisk; hide Recoverable; hide NextCommitWrite; hide Updated;
    var k, n, base, data := s.phase.k, |s.lh|, s.phase.base, s.phase.data;
    var t := Next(g, budget, s, CommitStep);
    CommitWriteIsNext(g, s);
    assert t.disk == CommitDisk(g, base, s.lh, data, k + 1);
    CommitCut(g, base, s.lh, data, k);
    CommitCut(g, base, s.lh, data, k + 1);
    if k == n {
      CommitPointIsView(g, s, base, data);
    }
    forall b: nat | g.Home(b) ensures HomeValue(g, t.disk, b) == t.hist[|t.hist| - 1][b] {
      assert HomeValue(g, s.disk, b) == s.hist[|s.hist| - 1][b];
    }
  }

  lemma LastCommitWrite(g: Geometry, s: Sys)
    requires Shape(g, s)
    ensures var w := NextCommitWrite(g, s, 2 * |s.lh| + 1); w.blockno == g.start && HeaderCount(w.data) == 0
  {
  }

  lemma KeepCommit(g: Geometry, budget: nat, s: Sys)
    requires Inv(g, budget, s) && Enabled(g, budget, s, CommitStep)
    ensures Inv(g, budget, Next(g, budget, s, CommitStep))
  {
    hide HeaderCount; hide HeaderBlocks; hide HomeValue; hide CommitDisk; hide Recoverable; hide NextCommitWrite;
    var k, n := s.phase.k, |s.lh|;
    var w := NextCommitWrite(g, s, k);
    var t := Next(g, budget, s, CommitStep);
    KeepCommitDurable(g, budget, s);
    CommitWriteIsNext(g, s);
    WriteThroughKeepsCache(g, s, w);
    NoneOutstanding(s.ops);
    if k < 2 * n + 1 {
      forall i | 0 <= i < n
        ensures View(t, s.lh[i]) == s.phase.data[i]
        ensures n + 1 + i < k + 1 <==> (s.lh[i] in t.cache ==> !t.cache[s.lh[i]].dirty)
      {
        if n < k <= 2 * n && i != k - n - 1 {
          assert s.lh[i] != s.lh[k - n - 1];
        }
      }
    } else {
      LastCommitWrite(g, s);
      forall b | b in t.cache ensures !t.cache[b].dirty {
        if b in s.lh {
          assert s.lh[Find(s.lh, b)] == b;
        }
      }
    }
  }

  lemma KeepInv(g: Geometry, budget: nat, s: Sys, a: Step)
    requires Inv(g, budget, s) && Enabled(g, budget, s, a)
    ensures Inv(g, budget, Next(g, budget, s, a))
  {
    match a
    case Begin(p) => KeepBegin(g, budget, s, p);
    case Buffer(b, use) => KeepBuffer(g, budget, s, b, use);
    case LogWrite(b) => KeepLogWrite(g, budget, s, b);
    case End(p) => KeepEnd(g, budget, s, p);
    case CommitStep => KeepCommit(g, budget, s);
    case CommitDone =>
    case Crash => KeepCrash(g, budget, s);
    case RecoverStep => KeepRecover(g, budget, s);
  }
}
