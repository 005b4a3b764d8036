// A run of bio.c and log.c in which every operation stays within its budget and
// one reader is enough to leave commit without a buffer.
module LogRoom {
  import opened Blocks
  import opened LogSpec
  import opened Bio
  import opened Log

  /** Block numbers from `first` on. */
  function From(first: nat, count: nat): (bs: seq<nat>)
    ensures |bs| == count && forall i :: 0 <= i < count ==> bs[i] == first + i
  {
    seq(count, i => first + i)
  }

  /** An operation is open, nobody holds a buffer, and the log holds the blocks from `first` on. */
  ghost predicate Filling(lg: Log, first: nat, count: nat)
    reads lg, lg.bc, lg.bc.bufs, lg.bc.prev, lg.bc.next
  {
    && lg.Valid() && lg.bc.Calm() && lg.bc.held == {} && lg.bc.touched == {} && !lg.committing
    && lg.size == LOGSIZE && lg.start + lg.size == first && first + NBUF <= |lg.bc.disk| && count < lg.size
    && lg.Lh() == From(first, count)
  }

  /** bread of one more block, a change, log_write and brelse. */
  method LogOne(lg: Log, first: nat, count: nat, data: Block)
    requires Filling(lg, first, count) && count + 1 < lg.size && lg.outstanding >= 1
    modifies lg`n, lg`block, lg.bc, lg.bc.bufs, lg.bc.prev, lg.bc.next
    ensures Filling(lg, first, count + 1)
  {
    hide Bcache.Valid, Loose, Elems, Loggable;
    var b := first + count;
    RoomLeft(lg.Geo(), lg.Lh(), lg.bc.pinned, b);
    var i := Change(lg.bc, b, data);
    ghost var b2 := lg.bc.bufs[..];
    var ok := lg.LogWrite(i);
    LooseSame(b2, lg.bc.bufs[..]);
    lg.bc.Brelse(i);
    assert From(first, count + 1) == From(first, count) + [b];
  }

  /** bread and a change of the block. */
  method Change(bc: Bcache, b: nat, data: Block) returns (i: nat)
    requires bc.Valid() && bc.Calm() && bc.held == {} && bc.touched == {} && b < |bc.disk| && Room(bc.pinned, {}, b)
    modifies bc`where, bc`held, bc`disk, bc`crashes, bc`touched, bc`pinned, bc`view, bc.bufs
    ensures bc.Valid() && bc.Calm() && bc.held == {b} && bc.touched == {i} && bc.pinned == old(bc.pinned)
    ensures bc.bufs.Length == NBUF && |bc.view| == |bc.disk| == |old(bc.disk)|
    ensures i < NBUF && Holds(bc.bufs[i], b) && bc.bufs[i].locked && bc.bufs[i].valid
  {
    hide Bcache.Valid, Loose, Crowded, InChange, NoNewChange, OthersLocked, Waiting, Room, RefsOf;
    bc.CalmRefs();
    var r, waits := bc.Bread(b);
    i := r.value;
    ghost var b1 := bc.bufs[..];
    bc.SetData(i, data);
    LooseSame(b1, bc.bufs[..]);
    bc.Ranges();
  }

  lemma RoomLeft(g: Geometry, bs: seq<nat>, pinned: set<nat>, b: nat)
    requires Loggable(g, bs) && |bs| < NBUF && pinned == Elems(bs)
    ensures Room(pinned, {}, b)
  {
    DistinctSize(bs, pinned);
    assert pinned + {} == pinned;
  }

  method Fill(lg: Log, first: nat, count: nat, more: nat, data: Block)
    requires Filling(lg, first, count) && count + more < lg.size && lg.outstanding >= 1
    modifies lg`n, lg`block, lg.bc, lg.bc.bufs, lg.bc.prev, lg.bc.next
    ensures Filling(lg, first, count + more)
  {
    for k := 0 to more
      invariant Filling(lg, first, count + k)
    {
      LogOne(lg, first, count + k, data);
    }
  }

  /** An operation that is not the last one out ends. */
  method EndOne(lg: Log, first: nat, count: nat) returns (ok: bool)
    requires Filling(lg, first, count) && lg.outstanding > 1
    modifies lg`n, lg`outstanding, lg`committing, lg.bc, lg.bc.bufs, lg.bc.prev, lg.bc.next
    ensures ok && Filling(lg, first, count) && lg.outstanding == old(lg.outstanding) - 1
  {
    hide Bcache.Valid, Loose, Elems, Loggable, Crowded, Readers, CommitTrace;
    ok := lg.EndOp(seq(lg.n, _ => Zeroes(BSIZE)));
  }

  /** A disk as mkfs lays it out, with an empty log: three operations are let in. */
  method Begin(d: Disk, g: Geometry) returns (lg: Log, begun: bool)
    requires Recoverable(g, d) && g.size == LOGSIZE && g.start + g.size + NBUF <= g.disksize
    ensures fresh(lg) && fresh(lg.bc) && fresh(lg.bc.bufs) && fresh(lg.bc.prev) && fresh(lg.bc.next)
    ensures begun && Filling(lg, g.start + g.size, 0) && lg.outstanding == 3
  {
    hide Bcache.Valid, Elems, Loggable, HeaderCount, HeaderBlocks;
    var cache := new Bcache(d);
    lg := new Log(cache, g.start, g.size);
    var ok := lg.RecoverFromLog();
    var a := lg.TryBegin();
    var b := lg.TryBegin();
    var c := lg.TryBegin();
    begun := ok && a && b && c;
  }

  /**
   * Three operations log ten, ten and nine blocks, all within what begin_op reserved for them, and the log is not full.
   * The last end_op finds its buffers, unless somebody is reading a thirtieth block at that moment.
   */
  method NoBufferLeft(d: Disk, g: Geometry, data: Block, reading: bool) returns (begun: bool, logged: nat, ended: seq<bool>)
    requires Recoverable(g, d) && g.size == LOGSIZE && g.start + g.size + NBUF <= g.disksize
    ensures begun && logged == LOGSIZE - 1 && ended == [true, true, !reading]
  {
    var lg;
    lg, begun := Begin(d, g);
    var first := g.start + g.size;
    Fill(lg, first, 0, MAXOPBLOCKS, data);
    var e1 := EndOne(lg, first, 10);
    Fill(lg, first, 10, MAXOPBLOCKS, data);
    var e2 := EndOne(lg, first, 20);
    Fill(lg, first, 20, MAXOPBLOCKS - 1, data);
    logged := lg.n;
    var e3 := EndLast(lg, first, reading);
    ended := [e1, e2, e3];
  }

  function Seen(view: Disk, bs: seq<nat>): (data: seq<Block>)
    requires forall i :: 0 <= i < |bs| ==> bs[i] < |view|
    ensures |data| == |bs| && forall i :: 0 <= i < |bs| ==> data[i] == view[bs[i]]
  {
    seq(|bs|, i requires 0 <= i < |bs| => view[bs[i]])
  }

  method EndLast(lg: Log, first: nat, reading: bool) returns (ok: bool)
    requires Filling(lg, first, LOGSIZE - 1) && lg.outstanding == 1
    modifies lg`n, lg`outstanding, lg`committing, lg.bc, lg.bc.bufs, lg.bc.prev, lg.bc.next
    ensures ok == !reading
  {
    hide Bcache.Valid, Loose, Elems, Loggable, Crowded, InChange, NoNewChange, OthersLocked, Waiting, CommitTrace, RefsOf;
    lg.bc.CalmRefs();
    if reading {
      RoomLeft(lg.Geo(), lg.Lh(), lg.bc.pinned, first + LOGSIZE - 1);
      var r, waits := lg.bc.Bread(first + LOGSIZE - 1);
    }
    ghost var data := Seen(lg.bc.view, lg.Lh());
    assert lg.bc.held - Elems(lg.Lh()) == if reading then {first + LOGSIZE - 1} else {};
    ok := lg.EndOp(data);
  }
}
