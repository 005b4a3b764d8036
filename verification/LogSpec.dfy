// The on-disk redo log: header format, the block writes made by commit and by
// recovery, and what a crash between any two of those writes leaves behind.
module LogSpec {
  import opened Blocks

  const MAXOPBLOCKS: nat := 10
  const LOGSIZE: nat := 30

  type Disk = seq<Block>

  /** One atomic block transfer to the disk. */
  datatype Write = Write(blockno: nat, data: Block)

  function Put(d: Disk, w: Write): Disk
    requires w.blockno < |d|
  {
    d[w.blockno := w.data]
  }

  /** Where the log lives: header in block `start`, data slots start+1 .. start+size-1. */
  datatype Geometry = Geometry(start: nat, size: nat, disksize: nat) {
    predicate Ok() {
      0 < size && start + size <= disksize <= TWO32
    }
    predicate Home(b: nat) {
      b < disksize && !(start <= b < start + size)
    }
  }

  predicate Distinct(bs: seq<nat>) {
    forall i, j :: 0 <= i < j < |bs| ==> bs[i] != bs[j]
  }

  /** A list of block numbers a transaction may carry. */
  predicate Loggable(g: Geometry, bs: seq<nat>) {
    |bs| <= LOGSIZE && |bs| < g.size && Distinct(bs) && forall i :: 0 <= i < |bs| ==> g.Home(bs[i])
  }

  /** Index of the first b in bs at or after i, or |bs| when there is none. */
  function FindFrom(bs: seq<nat>, b: nat, i: nat): (r: nat)
    requires i <= |bs|
    ensures i <= r <= |bs|
    ensures r < |bs| ==> bs[r] == b
    ensures forall j :: i <= j < r ==> bs[j] != b
    decreases |bs| - i
  {
    if i == |bs| || bs[i] == b then i else FindFrom(bs, b, i + 1)
  }

  function Find(bs: seq<nat>, b: nat): (r: nat)
    ensures r <= |bs|
    ensures r < |bs| ==> bs[r] == b
    ensures forall j :: 0 <= j < r ==> bs[j] != b
  {
    FindFrom(bs, b, 0)
  }

  // ----- header block

  function HeaderCount(hb: Block): nat { Word(hb, 0) }

  /** The first k block numbers stored in a header. */
  function HeaderEntries(hb: Block, k: nat): (bs: seq<nat>)
    requires k < WORDS
    ensures |bs| == k && forall i :: 0 <= i < k ==> bs[i] == Word(hb, 1 + i)
  {
    if k == 0 then [] else HeaderEntries(hb, k - 1) + [Word(hb, k)]
  }

  function HeaderBlocks(hb: Block): (bs: seq<nat>)
    requires HeaderCount(hb) <= LOGSIZE
  {
    HeaderEntries(hb, HeaderCount(hb))
  }

  /** The header buffer after write_head has stored n and the first k entries. */
  function PutHeader(hb: Block, bs: seq<nat>, k: nat): (r: Block)
    requires |bs| <= LOGSIZE && k <= |bs| && forall i :: 0 <= i < |bs| ==> bs[i] < TWO32
    ensures Word(r, 0) == |bs|
    ensures forall i :: 0 <= i < k ==> Word(r, 1 + i) == bs[i]
    ensures forall j :: k < j < WORDS ==> Word(r, j) == Word(hb, j)
  {
    if k == 0 then SetWord(hb, 0, |bs|) else SetWord(PutHeader(hb, bs, k - 1), k, bs[k - 1])
  }

  function SetHeader(hb: Block, bs: seq<nat>): (r: Block)
    requires |bs| <= LOGSIZE && forall i :: 0 <= i < |bs| ==> bs[i] < TWO32
    ensures HeaderCount(r) == |bs| && HeaderBlocks(r) == bs
    ensures forall j :: |bs| < j < WORDS ==> Word(r, j) == Word(hb, j)
  {
    PutHeader(hb, bs, |bs|)
  }

  // ----- the meaning of a disk that may hold a committed transaction

  predicate Recoverable(g: Geometry, d: Disk) {
    g.Ok() && |d| == g.disksize && HeaderCount(d[g.start]) <= LOGSIZE && Loggable(g, HeaderBlocks(d[g.start]))
  }

  function LoggedBlocks(g: Geometry, d: Disk): (bs: seq<nat>)
    requires Recoverable(g, d)
    ensures Loggable(g, bs)
  {
    HeaderBlocks(d[g.start])
  }

  /** What home block b holds once the log has been replayed. */
  function HomeValue(g: Geometry, d: Disk, b: nat): Block
    requires Recoverable(g, d) && g.Home(b)
  {
    var bs := LoggedBlocks(g, d);
    var i := Find(bs, b);
    if i < |bs| then d[g.start + 1 + i] else d[b]
  }

  ghost predicate SameHome(g: Geometry, d: Disk, e: Disk)
    requires Recoverable(g, d) && Recoverable(g, e)
  {
    forall b: nat :: g.Home(b) ==> HomeValue(g, d, b) == HomeValue(g, e, b)
  }

  // ----- installing: copying log slots home

  /** The disk when install_trans has copied the first k log slots home. */
  function Installed(g: Geometry, d: Disk, bs: seq<nat>, k: nat): (e: Disk)
    requires g.Ok() && |d| == g.disksize && Loggable(g, bs) && k <= |bs|
    ensures |e| == |d|
  {
    if k == 0 then d else Put(Installed(g, d, bs, k - 1), Write(bs[k - 1], d[g.start + k]))
  }

  lemma {:induction false} InstalledAt(g: Geometry, d: Disk, bs: seq<nat>, k: nat)
    requires g.Ok() && |d| == g.disksize && Loggable(g, bs) && k <= |bs|
    ensures forall b: nat {:trigger Installed(g, d, bs, k)[b]} :: b < |d| ==>
      Installed(g, d, bs, k)[b] == if Find(bs, b) < k then d[g.start + 1 + Find(bs, b)] else d[b]
    ensures forall b: nat {:trigger Installed(g, d, bs, k)[b]} :: g.start <= b < g.start + g.size ==>
      Installed(g, d, bs, k)[b] == d[b]
  {
    if k > 0 {
      InstalledAt(g, d, bs, k - 1);
      assert Find(bs, bs[k - 1]) == k - 1;
    }
  }

  // ----- recovery

  /** The disk when recover_from_log has made k of its writes: the installs, then the cleared header. */
  function RecoverDisk(g: Geometry, d: Disk, k: nat): (e: Disk)
    requires Recoverable(g, d) && k <= |LoggedBlocks(g, d)| + 1
    ensures |e| == |d|
  {
    var bs := LoggedBlocks(g, d);
    if k <= |bs| then Installed(g, d, bs, k)
    else Put(Installed(g, d, bs, |bs|), Write(g.start, SetHeader(d[g.start], [])))
  }

  function Recovered(g: Geometry, d: Disk): Disk
    requires Recoverable(g, d)
  {
    RecoverDisk(g, d, |LoggedBlocks(g, d)| + 1)
  }

  lemma HomeValueOf(g: Geometry, d: Disk, bs: seq<nat>, b: nat)
    requires Recoverable(g, d) && bs == LoggedBlocks(g, d) && g.Home(b)
    ensures HomeValue(g, d, b) == if Find(bs, b) < |bs| then d[g.start + 1 + Find(bs, b)] else d[b]
  {
  }

  lemma EmptyLog(g: Geometry, d: Disk)
    requires g.Ok() && |d| == g.disksize && HeaderCount(d[g.start]) == 0
    ensures Recoverable(g, d) && LoggedBlocks(g, d) == []
    ensures forall b: nat :: g.Home(b) ==> HomeValue(g, d, b) == d[b]
  {
  }

  /** Two disks with the same header whose slots agree and whose home blocks agree outside the logged ones. */
  lemma SameLog(g: Geometry, d: Disk, e: Disk)
    requires Recoverable(g, d) && |e| == |d| && e[g.start] == d[g.start]
    ensures Recoverable(g, e) && LoggedBlocks(g, e) == LoggedBlocks(g, d)
  {
  }

  /** Recovery run to its end shows the home contents in place, with an empty log. */
  lemma RecoveredShowsHome(g: Geometry, d: Disk)
    requires Recoverable(g, d)
    ensures HeaderCount(Recovered(g, d)[g.start]) == 0
    ensures forall b: nat :: g.Home(b) ==> Recovered(g, d)[b] == HomeValue(g, d, b)
  {
    var bs := LoggedBlocks(g, d);
    InstalledAt(g, d, bs, |bs|);
    assert Recovered(g, d) == Installed(g, d, bs, |bs|)[g.start := SetHeader(d[g.start], [])];
    forall b: nat | g.Home(b) ensures Recovered(g, d)[b] == HomeValue(g, d, b) {
      HomeValueOf(g, d, bs, b);
    }
  }

  /** Recovery cut after any of its writes leaves the same home contents. */
  lemma RecoverCut(g: Geometry, d: Disk, k: nat)
    requires Recoverable(g, d) && k <= |LoggedBlocks(g, d)| + 1
    ensures Recoverable(g, RecoverDisk(g, d, k))
    ensures SameHome(g, d, RecoverDisk(g, d, k))
  {
    var bs := LoggedBlocks(g, d);
    var e := RecoverDisk(g, d, k);
    if k <= |bs| {
      InstalledAt(g, d, bs, k);
      SameLog(g, d, e);
      forall b: nat | g.Home(b) ensures HomeValue(g, d, b) == HomeValue(g, e, b) {
        HomeValueOf(g, d, bs, b);
        HomeValueOf(g, e, bs, b);
      }
    } else {
      RecoveredShowsHome(g, d);
      EmptyLog(g, e);
    }
  }

  /** Crash and restart during recovery as often as ks says, the i-th time after ks[i] writes. */
  ghost function CrashedRecoveries(g: Geometry, d: Disk, ks: seq<nat>): (e: Disk)
    requires Recoverable(g, d)
    ensures Recoverable(g, e)
    decreases |ks|
  {
    if ks == [] then d
    else
      var n := |LoggedBlocks(g, d)| + 1;
      var k := if ks[0] <= n then ks[0] else n;
      RecoverCut(g, d, k);
      CrashedRecoveries(g, RecoverDisk(g, d, k), ks[1..])
  }

  lemma {:induction false} CrashedRecoveriesKeepHome(g: Geometry, d: Disk, ks: seq<nat>)
    requires Recoverable(g, d)
    ensures SameHome(g, d, CrashedRecoveries(g, d, ks))
    decreases |ks|
  {
    if ks != [] {
      var n := |LoggedBlocks(g, d)| + 1;
      var k := if ks[0] <= n then ks[0] else n;
      RecoverCut(g, d, k);
      CrashedRecoveriesKeepHome(g, RecoverDisk(g, d, k), ks[1..]);
    }
  }

  // ----- commit

  /** The disk when write_log has copied the first k cached blocks to the log. */
  function LogWritten(g: Geometry, d: Disk, data: seq<Block>, k: nat): (e: Disk)
    requires g.Ok() && |d| == g.disksize && k <= |data| < g.size
    ensures |e| == |d|
    ensures forall b: nat {:trigger e[b]} :: b < |d| ==>
      e[b] == if g.start < b <= g.start + k then data[b - g.start - 1] else d[b]
  {
    if k == 0 then d else Put(LogWritten(g, d, data, k - 1), Write(g.start + k, data[k - 1]))
  }

  /** The disk just after the header write, the commit point. */
  function CommitPoint(g: Geometry, d: Disk, bs: seq<nat>, data: seq<Block>): (e: Disk)
    requires g.Ok() && |d| == g.disksize && Loggable(g, bs) && |data| == |bs|
    ensures |e| == |d|
  {
    Put(LogWritten(g, d, data, |bs|), Write(g.start, SetHeader(d[g.start], bs)))
  }

  /** The disk when commit has made k of its writes: write_log, write_head, install_trans, write_head with n = 0. */
  function CommitDisk(g: Geometry, d: Disk, bs: seq<nat>, data: seq<Block>, k: nat): (e: Disk)
    requires g.Ok() && |d| == g.disksize && Loggable(g, bs) && |data| == |bs| && k <= 2 * |bs| + 2
    ensures |e| == |d|
  {
    var n := |bs|;
    if k <= n then LogWritten(g, d, data, k)
    else
      var p := CommitPoint(g, d, bs, data);
      if k <= 2 * n + 1 then Installed(g, p, bs, k - n - 1)
      else Put(Installed(g, p, bs, n), Write(g.start, SetHeader(p[g.start], [])))
  }

  /** Block b after a transaction that writes data[i] to bs[i]. */
  function Updated(d: Disk, bs: seq<nat>, data: seq<Block>, b: nat): Block
    requires |bs| == |data| && b < |d|
  {
    if Find(bs, b) < |bs| then data[Find(bs, b)] else d[b]
  }

  /** Crash after k commit writes: all-old before the header write, all-new from it on. */
  lemma CommitCut(g: Geometry, d: Disk, bs: seq<nat>, data: seq<Block>, k: nat)
    requires g.Ok() && |d| == g.disksize && Loggable(g, bs) && |data| == |bs| && k <= 2 * |bs| + 2
    requires HeaderCount(d[g.start]) == 0
    ensures Recoverable(g, CommitDisk(g, d, bs, data, k))
    ensures forall b: nat :: g.Home(b) ==>
      HomeValue(g, CommitDisk(g, d, bs, data, k), b) == if k > |bs| then Updated(d, bs, data, b) else d[b]
  {
    var n := |bs|;
    var e := CommitDisk(g, d, bs, data, k);
    if k <= n {
      EmptyLog(g, e);
    } else {
      var logged := CommitPoint(g, d, bs, data);
      SameHeader(g, logged, logged[g.start], bs);
      forall b: nat | g.Home(b) ensures HomeValue(g, logged, b) == Updated(d, bs, data, b) {
        HomeValueOf(g, logged, bs, b);
      }
      RecoverCut(g, logged, k - n - 1);
      assert e == RecoverDisk(g, logged, k - n - 1);
    }
  }

  lemma SameHeader(g: Geometry, d: Disk, h: Block, bs: seq<nat>)
    requires g.Ok() && |d| == g.disksize && d[g.start] == h && Loggable(g, bs)
    requires HeaderCount(h) == |bs| && HeaderBlocks(h) == bs
    ensures Recoverable(g, d) && LoggedBlocks(g, d) == bs
  {
  }

  /** Each write of write_log and the first write_head, told from the disk as it is when the write is made. */
  lemma LogPhaseNext(g: Geometry, d: Disk, bs: seq<nat>, data: seq<Block>, k: nat)
    requires g.Ok() && |d| == g.disksize && Loggable(g, bs) && |data| == |bs| && k <= |bs|
    ensures var e := CommitDisk(g, d, bs, data, k);
      CommitDisk(g, d, bs, data, k + 1) ==
        if k < |bs| then e[g.start + 1 + k := data[k]] else e[g.start := SetHeader(e[g.start], bs)]
    ensures forall b: nat :: g.Home(b) ==> CommitDisk(g, d, bs, data, k)[b] == d[b]
  {
    hide HeaderCount; hide HeaderBlocks; hide SetHeader;
  }

  /** Each write of install_trans and the second write_head, likewise. */
  lemma InstallPhaseNext(g: Geometry, d: Disk, bs: seq<nat>, data: seq<Block>, k: nat)
    requires g.Ok() && |d| == g.disksize && Loggable(g, bs) && |data| == |bs| && |bs| < k < 2 * |bs| + 2
    ensures var n := |bs|; var e := CommitDisk(g, d, bs, data, k);
      CommitDisk(g, d, bs, data, k + 1) ==
        if k <= 2 * n then e[bs[k - n - 1] := e[g.start + k - n]] else e[g.start := SetHeader(e[g.start], [])]
    ensures forall i :: 0 <= i < |bs| ==> CommitDisk(g, d, bs, data, k)[g.start + 1 + i] == data[i]
  {
    hide HeaderCount; hide HeaderBlocks; hide SetHeader; hide LogWritten;
    var p := CommitPoint(g, d, bs, data);
    InstalledAt(g, p, bs, k - |bs| - 1);
    assert CommitDisk(g, d, bs, data, k) == Installed(g, p, bs, k - |bs| - 1);
    forall i | 0 <= i < |bs| ensures CommitDisk(g, d, bs, data, k)[g.start + 1 + i] == data[i] {
      assert p[g.start + 1 + i] == data[i];
    }
  }

  /** Atomicity of a group commit under any crash in commit, any crashed recoveries and a final full one. */
  lemma CrashAtomicity(g: Geometry, d: Disk, bs: seq<nat>, data: seq<Block>, k: nat, ks: seq<nat>)
    requires g.Ok() && |d| == g.disksize && Loggable(g, bs) && |data| == |bs| && k <= 2 * |bs| + 2
    requires HeaderCount(d[g.start]) == 0
    ensures
      var e := CommitDisk(g, d, bs, data, k);
      Recoverable(g, e) &&
      var final := Recovered(g, CrashedRecoveries(g, e, ks));
      && HeaderCount(final[g.start]) == 0
      && forall b: nat :: g.Home(b) ==> final[b] == if k > |bs| then Updated(d, bs, data, b) else d[b]
  {
    CommitCut(g, d, bs, data, k);
    var e := CommitDisk(g, d, bs, data, k);
    CrashedRecoveriesKeepHome(g, e, ks);
    RecoveredShowsHome(g, CrashedRecoveries(g, e, ks));
  }
}
