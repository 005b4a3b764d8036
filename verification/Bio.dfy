// The buffer cache: NBUF buffers on a doubly linked ring in most-recently-used
// order, over a disk that transfers one block at a time.
module Bio {
  import opened Blocks
  import opened LogSpec
  import opened Ring

  const NBUF: nat := 30
  /** bcache.head, the ring's sentinel. */
  const HEAD: nat := NBUF
  const ROOTDEV: nat := 1

  datatype Option<+T> = None | Some(value: T)

  /** struct buf without its ring links; `locked` is its sleep-lock. */
  datatype Buf = Buf(dev: nat, blockno: nat, valid: bool, dirty: bool, locked: bool, refcnt: nat, data: Block)

  /** A buffer as the kernel's zeroed bss leaves it: device 0, block 0. */
  predicate Unused(x: Buf) { x.dev == 0 && !x.valid && !x.dirty && !x.locked && x.refcnt == 0 }

  ghost predicate RingOk(prev: seq<nat>, next: seq<nat>, ring: seq<nat>) {
    Linked(prev, next, ring, HEAD) && |ring| == NBUF && forall i :: 0 <= i < NBUF ==> i in ring
  }

  predicate Holds(x: Buf, blockno: nat) { x.dev == ROOTDEV && x.blockno == blockno }

  /** `where` locates each cached block; so no two buffers hold the same block of the root device. */
  ghost predicate Indexed(b: seq<Buf>, where: map<nat, nat>) {
    && |b| == NBUF
    && (forall i :: 0 <= i < NBUF && b[i].dev == ROOTDEV ==> b[i].blockno in where && where[b[i].blockno] == i)
    && (forall n :: n in where ==> where[n] < NBUF && Holds(b[where[n]], n))
  }

  predicate Recyclable(x: Buf) { x.refcnt == 0 && !x.dirty }

  /** Position k of the ring is the least recently released buffer that may be recycled. */
  ghost predicate IsVictim(b: seq<Buf>, ring: seq<nat>, k: nat) {
    && |b| == NBUF && k < |ring| && (forall j :: 0 <= j < |ring| ==> ring[j] < NBUF)
    && Recyclable(b[ring[k]]) && forall j :: k < j < |ring| ==> !Recyclable(b[ring[j]])
  }

  /** A valid buffer may differ from its disk block only if it is pinned or was changed under its lock. */
  ghost predicate BufOk(x: Buf, touched: bool, disk: Disk) {
    && (x.dirty ==> x.valid)
    && (touched ==> x.valid && x.locked)
    && (x.locked ==> x.refcnt > 0)
    && (!Unused(x) ==> x.dev == ROOTDEV && x.blockno < |disk|)
    && (x.valid && !x.dirty && !touched ==> x.data == disk[x.blockno])
  }

  ghost predicate BufsOk(b: seq<Buf>, touched: set<nat>, disk: Disk) {
    |b| == NBUF && forall i :: 0 <= i < NBUF ==> BufOk(b[i], i in touched, disk)
  }

  /** What a reader of block n gets. */
  ghost function ViewOf(b: seq<Buf>, where: map<nat, nat>, disk: Disk, n: nat): Block
    requires Indexed(b, where) && n < |disk|
  {
    if n in where && b[where[n]].valid then b[where[n]].data else disk[n]
  }

  /** Re-indexing when buffer i is given to block n. */
  ghost function Moved(where: map<nat, nat>, i: nat, n: nat): map<nat, nat> {
    (map x | x in where && where[x] != i :: where[x])[n := i]
  }

  /**
   * What a client observes of the cache: `view` is what a reader of each block gets, `pinned` the blocks whose buffer
   * has B_DIRTY set, `held` the blocks whose buffer is locked.
   */
  ghost predicate Shows(b: seq<Buf>, where: map<nat, nat>, disk: Disk, view: Disk, pinned: set<nat>, held: set<nat>) {
    && Indexed(b, where) && |view| == |disk|
    && (forall n :: n in pinned || n in held ==> n < |disk|)
    && forall n: nat :: n < |disk| ==>
      && view[n] == ViewOf(b, where, disk, n)
      && (n in pinned <==> n in where && b[where[n]].dirty)
      && (n in held <==> n in where && b[where[n]].locked)
  }

  /** Somebody has changed the buffer of block n and neither logged nor written it yet. */
  ghost predicate InChange(b: seq<Buf>, touched: set<nat>, n: nat) { exists i :: i in touched && i < |b| && Holds(b[i], n) }

  ghost predicate NoNewChange(b: seq<Buf>, touched: set<nat>, c: seq<Buf>, touched': set<nat>) {
    forall n: nat :: InChange(c, touched', n) ==> InChange(b, touched, n)
  }

  lemma ChangesStay(b: seq<Buf>, touched: set<nat>, disk: Disk, c: seq<Buf>)
    requires BufsOk(b, touched, disk) && OthersLocked(b, c)
    ensures NoNewChange(b, touched, c, touched)
  {
    forall n: nat | InChange(c, touched, n) ensures InChange(b, touched, n) {
      var i :| i in touched && i < |c| && Holds(c[i], n);
      assert BufOk(b[i], true, disk);
    }
  }

  /** Buffers keep their blocks, and fewer are being changed. */
  lemma ChangesEnd(b: seq<Buf>, touched: set<nat>, c: seq<Buf>, touched': set<nat>)
    requires |c| == |b| && touched' <= touched && forall i :: 0 <= i < |b| ==> c[i].dev == b[i].dev && c[i].blockno == b[i].blockno
    ensures NoNewChange(b, touched, c, touched')
  {
    forall n: nat | InChange(c, touched', n) ensures InChange(b, touched, n) {
      var i :| i in touched' && i < |c| && Holds(c[i], n);
      assert Holds(b[i], n);
    }
  }

  lemma NoNewChanges(b: seq<Buf>, t: set<nat>, c: seq<Buf>, t': set<nat>, d: seq<Buf>, t'': set<nat>)
    requires NoNewChange(b, t, c, t') && NoNewChange(c, t', d, t'')
    ensures NoNewChange(b, t, d, t'')
  {
  }

  lemma NoChange(b: seq<Buf>, t: set<nat>, c: seq<Buf>, t': set<nat>, n: nat)
    requires NoNewChange(b, t, c, t') && !InChange(b, t, n)
    ensures !InChange(c, t', n)
  {
  }

  /** Locked buffers are left as they are. */
  ghost predicate OthersLocked(b: seq<Buf>, c: seq<Buf>) {
    |b| == |c| && forall i :: 0 <= i < |b| && b[i].locked ==> c[i] == b[i]
  }

  /** Nobody waits for a buffer that somebody else has: references are the holders'. */
  ghost predicate Loose(b: seq<Buf>) {
    forall i :: 0 <= i < |b| ==> b[i].refcnt == if b[i].locked then 1 else 0
  }

  /** The blocks somebody has a reference to, whether he has the lock or waits for it. */
  ghost function RefsOf(b: seq<Buf>): set<nat> { set i | 0 <= i < |b| && b[i].refcnt > 0 :: b[i].blockno }

  /** A buffer for block n can be had: the block is pinned or referenced, so cached, or not all buffers are taken by such. */
  predicate Room(pinned: set<nat>, refs: set<nat>, n: nat) { n in pinned || n in refs || !Crowded(pinned, refs) }

  /** Every buffer is pinned or referenced. */
  predicate Crowded(pinned: set<nat>, refs: set<nat>) { |pinned + refs| >= NBUF }

  /** Likewise for m and then n. */
  predicate RoomForTwo(pinned: set<nat>, refs: set<nat>, m: nat, n: nat) {
    Room(pinned, refs, m) && Room(pinned, refs + {m}, n)
  }

  ghost predicate HasSpare(b: seq<Buf>) { exists i :: 0 <= i < |b| && Recyclable(b[i]) }

  /** The buffers before i hold different blocks of `of`. */
  lemma {:induction false} CachedSize(b: seq<Buf>, where: map<nat, nat>, of: set<nat>, i: nat)
    requires Indexed(b, where) && i <= NBUF
    requires forall j :: 0 <= j < i ==> b[j].dev == ROOTDEV && b[j].blockno in of
    ensures i <= |of|
    decreases i
  {
    if i > 0 {
      var n := b[i - 1].blockno;
      forall j | 0 <= j < i - 1 ensures b[j].blockno in of - {n} {
        assert where[b[j].blockno] == j && where[n] == i - 1;
      }
      CachedSize(b, where, of - {n}, i - 1);
    }
  }

  /** With fewer blocks pinned or referenced than there are buffers, one can be recycled. */
  lemma Spare(b: seq<Buf>, where: map<nat, nat>, touched: set<nat>, disk: Disk, view: Disk, pinned: set<nat>, held: set<nat>)
    requires Shows(b, where, disk, view, pinned, held) && BufsOk(b, touched, disk) && !Crowded(pinned, RefsOf(b))
    ensures HasSpare(b)
  {
    if !HasSpare(b) {
      forall j | 0 <= j < NBUF ensures b[j].dev == ROOTDEV && b[j].blockno in pinned + RefsOf(b) {
        assert BufOk(b[j], j in touched, disk) && !Recyclable(b[j]);
        assert b[j].blockno in where && where[b[j].blockno] == j;
      }
      CachedSize(b, where, pinned + RefsOf(b), NBUF);
    }
  }

  /** Pinned by the log, or somebody refers to it. */
  predicate Busy(x: Buf) { x.dev == ROOTDEV && (x.dirty || x.refcnt > 0) }

  /** With as many blocks pinned or referenced as there are buffers, there is room for nothing else. */
  lemma AllTaken(b: seq<Buf>, where: map<nat, nat>, touched: set<nat>, disk: Disk, view: Disk, pinned: set<nat>, held: set<nat>)
    requires Shows(b, where, disk, view, pinned, held) && BufsOk(b, touched, disk) && Crowded(pinned, RefsOf(b))
    ensures !HasSpare(b) && forall n :: n in where ==> n in pinned || n in RefsOf(b)
  {
    forall n | n in pinned + RefsOf(b) ensures n in where && Busy(b[where[n]]) {
      if n in RefsOf(b) { Referenced(b, where, touched, disk, n); }
    }
    if j: nat :| j < NBUF && !Busy(b[j]) {
      BusySize(b, where, pinned + RefsOf(b), {}, NBUF, j);
    }
    forall j | 0 <= j < NBUF ensures !Recyclable(b[j]) {
      assert Busy(b[j]);
    }
    forall n | n in where ensures n in pinned || n in RefsOf(b) {
      assert Busy(b[where[n]]) && b[where[n]].blockno == n;
    }
  }

  /** A block is referenced iff its buffer is. */
  lemma Referenced(b: seq<Buf>, where: map<nat, nat>, touched: set<nat>, disk: Disk, n: nat)
    requires Indexed(b, where) && BufsOk(b, touched, disk)
    ensures n in RefsOf(b) <==> n in where && b[where[n]].refcnt > 0
  {
    if n in RefsOf(b) {
      var i: nat :| i < |b| && b[i].refcnt > 0 && b[i].blockno == n;
      assert BufOk(b[i], i in touched, disk);
    }
    if n in where && b[where[n]].refcnt > 0 { assert b[where[n]].blockno == n; }
  }

  lemma RefsHit(b: seq<Buf>, i: nat, y: Buf)
    requires i < |b| && y.refcnt > 0 && (b[i].refcnt == 0 || y.blockno == b[i].blockno)
    ensures RefsOf(b[i := y]) == RefsOf(b) + {y.blockno}
  {
    var c := b[i := y];
    forall n | n in RefsOf(b) ensures n in RefsOf(c) {
      var j: nat :| j < |b| && b[j].refcnt > 0 && b[j].blockno == n;
      assert c[j].refcnt > 0 && c[j].blockno == n;
    }
    assert c[i] == y;
  }

  lemma RefsSame(b: seq<Buf>, c: seq<Buf>)
    requires |c| == |b| && forall i :: 0 <= i < |b| ==> (c[i].refcnt > 0 <==> b[i].refcnt > 0) && c[i].blockno == b[i].blockno
    ensures RefsOf(c) == RefsOf(b)
  {
    forall n | n in RefsOf(b) ensures n in RefsOf(c) {
      var j: nat :| j < |b| && b[j].refcnt > 0 && b[j].blockno == n;
      assert c[j].refcnt > 0 && c[j].blockno == n;
    }
  }

  /** One reference less, to a block no other buffer holds. */
  lemma RefsLess(b: seq<Buf>, where: map<nat, nat>, touched: set<nat>, disk: Disk, i: nat, y: Buf)
    requires Indexed(b, where) && BufsOk(b, touched, disk) && i < |b| && b[i].refcnt > 0 && y == b[i].(locked := y.locked, refcnt := b[i].refcnt - 1)
    ensures RefsOf(b[i := y]) == if y.refcnt > 0 then RefsOf(b) else RefsOf(b) - {y.blockno}
  {
    var c := b[i := y];
    if y.refcnt > 0 {
      RefsSame(b, c);
    } else {
      forall n | n in RefsOf(b) && n != y.blockno ensures n in RefsOf(c) {
        var j: nat :| j < |b| && b[j].refcnt > 0 && b[j].blockno == n;
        assert c[j].refcnt > 0 && c[j].blockno == n;
      }
      if y.blockno in RefsOf(c) {
        var j: nat :| j < |c| && c[j].refcnt > 0 && c[j].blockno == y.blockno;
        assert BufOk(b[j], j in touched, disk) && BufOk(b[i], i in touched, disk);
      }
    }
  }

  /** bget adds a reference to the block's buffer, new or not. */
  lemma GotRefs(b: seq<Buf>, c: seq<Buf>, i: nat, n: nat, cached: bool, waits: bool)
    requires i < |b| == |c| && Holds(c[i], n)
    requires if waits then c == Waiting(b, i) && b[i].refcnt > 0 else if cached then c == Hit(b, i) else c == Recycled(b, i, n) && b[i].refcnt == 0
    ensures RefsOf(c) == RefsOf(b) + {n} && (!waits ==> (c[i].refcnt > 1 <==> cached && b[i].refcnt > 0))
  {
    assert c == b[i := c[i]];
    RefsHit(b, i, c[i]);
  }

  /** When nobody waits, the references are the holders'. */
  lemma LooseRefs(b: seq<Buf>, where: map<nat, nat>, touched: set<nat>, disk: Disk, view: Disk, pinned: set<nat>, held: set<nat>)
    requires Shows(b, where, disk, view, pinned, held) && BufsOk(b, touched, disk) && Loose(b)
    ensures RefsOf(b) == held
  {
    forall n ensures n in RefsOf(b) <==> n in held {
      Referenced(b, where, touched, disk, n);
      if n in where { assert BufOk(b[where[n]], where[n] in touched, disk); }
    }
  }

  /** Busy blocks sit in different buffers, and not in buffer k. */
  lemma {:induction false} BusySize(b: seq<Buf>, where: map<nat, nat>, busy: set<nat>, used: set<nat>, room: nat, k: nat)
    requires Indexed(b, where) && k < NBUF && !Busy(b[k]) && k !in used
    requires forall n :: n in busy ==> n in where && Busy(b[where[n]]) && where[n] !in used
    requires forall i :: i in used ==> i < NBUF
    requires |used| + room == NBUF
    ensures |busy| < room
    decreases room
  {
    if busy == {} {
      Numbers(used, k, NBUF);
    } else {
      var n :| n in busy;
      var i := where[n];
      Numbers(used + {i}, k, NBUF);
      forall m | m in busy - {n} ensures where[m] !in used + {i} { assert b[where[m]].blockno == m; }
      BusySize(b, where, busy - {n}, used + {i}, room - 1, k);
    }
  }

  function Below(n: nat): (s: set<nat>)
    ensures (forall i: nat :: i in s <==> i < n) && |s| == n
  {
    if n == 0 then {} else Below(n - 1) + {n - 1}
  }

  lemma Within(x: set<nat>, y: set<nat>)
    requires x <= y
    ensures |x| <= |y|
  {
    assert y == x + (y - x);
  }

  lemma Numbers(used: set<nat>, k: nat, n: nat)
    requires (forall i :: i in used ==> i < n) && k < n && k !in used
    ensures |used| < n
  {
    Within(used + {k}, Below(n));
  }

  /** A free buffer taken by the one who holds it now. */
  lemma LooseHit(b: seq<Buf>, c: seq<Buf>, i: nat)
    requires |c| == |b| && i < |b| && c == b[i := c[i]] && c[i].locked && (c[i].refcnt == 1 || (!b[i].locked && c[i].refcnt == b[i].refcnt + 1))
    ensures Loose(b) ==> Loose(c)
  {
  }

  lemma OthersStill(b: seq<Buf>, c: seq<Buf>, d: seq<Buf>, i: nat)
    requires OthersLocked(b, c) && |d| == |c| && i < |c| && d == c[i := d[i]] && !b[i].locked
    ensures OthersLocked(b, d)
  {
  }

  lemma LooseNew(b: seq<Buf>, d: Disk)
    requires |b| == NBUF && forall i :: 0 <= i < NBUF ==> Unused(b[i])
    ensures Loose(b) && BufsOk(b, {}, d) && Shows(b, map[], d, d, {}, {})
  {
  }

  lemma LooseSame(b: seq<Buf>, c: seq<Buf>)
    requires |c| == |b| && forall i :: 0 <= i < |b| ==> c[i].refcnt == b[i].refcnt && c[i].locked == b[i].locked
    ensures Loose(b) ==> Loose(c)
  {
  }

  lemma LooseFreed(b: seq<Buf>, c: seq<Buf>, i: nat)
    requires |c| == |b| && i < |b| && b[i].locked && c == b[i := c[i]] && !c[i].locked && c[i].refcnt == b[i].refcnt - 1
    ensures Loose(b) ==> Loose(c)
  {
  }

  function Hit(b: seq<Buf>, i: nat): seq<Buf>
    requires i < |b|
  {
    b[i := b[i].(refcnt := b[i].refcnt + 1, locked := true)]
  }

  lemma HitOk(b: seq<Buf>, where: map<nat, nat>, touched: set<nat>, disk: Disk, view: Disk, pinned: set<nat>, held: set<nat>, n: nat)
    requires Shows(b, where, disk, view, pinned, held) && BufsOk(b, touched, disk)
    requires n in where && n < |disk| && n !in held
    ensures |b| == NBUF && where[n] < NBUF && Holds(b[where[n]], n)
    ensures BufsOk(Hit(b, where[n]), touched, disk) && OthersLocked(b, Hit(b, where[n]))
    ensures Shows(Hit(b, where[n]), where, disk, view, pinned, held + {n})
  {
    assert Indexed(Hit(b, where[n]), where);
  }

  lemma UnlockedUntouched(b: seq<Buf>, touched: set<nat>, disk: Disk, i: nat)
    requires BufsOk(b, touched, disk) && i < NBUF && (!b[i].locked || b[i].refcnt == 0)
    ensures i !in touched && !b[i].locked
  {
    assert BufOk(b[i], i in touched, disk);
  }

  /** One more process has a reference to buffer i and waits for its lock. */
  function Waiting(b: seq<Buf>, i: nat): seq<Buf>
    requires i < |b|
  {
    b[i := b[i].(refcnt := b[i].refcnt + 1)]
  }

  lemma NoneMoved(b: seq<Buf>)
    ensures OthersLocked(b, b) && forall t: set<nat> :: NoNewChange(b, t, b, t)
  {
  }

  lemma WaitingIs(b: seq<Buf>, i: nat)
    requires i < |b|
    ensures |Waiting(b, i)| == |b| && Waiting(b, i)[i] == b[i].(refcnt := b[i].refcnt + 1) && Waiting(b, i)[i := b[i]] == b
  {
  }

  lemma WaitOk(b: seq<Buf>, where: map<nat, nat>, touched: set<nat>, disk: Disk, view: Disk, pinned: set<nat>, held: set<nat>, n: nat)
    requires Shows(b, where, disk, view, pinned, held) && BufsOk(b, touched, disk) && n in held
    ensures n in where && |b| == NBUF && where[n] < NBUF && Holds(b[where[n]], n) && b[where[n]].locked
    ensures BufsOk(Waiting(b, where[n]), touched, disk) && Shows(Waiting(b, where[n]), where, disk, view, pinned, held)
  {
    assert Indexed(Waiting(b, where[n]), where);
  }

  lemma LockOk(b: seq<Buf>, where: map<nat, nat>, touched: set<nat>, disk: Disk, view: Disk, pinned: set<nat>, held: set<nat>, i: nat)
    requires Shows(b, where, disk, view, pinned, held) && BufsOk(b, touched, disk) && i < NBUF
    requires b[i].dev == ROOTDEV && !b[i].locked && b[i].refcnt > 0
    ensures b[i].blockno !in held && b[i].blockno < |disk|
    ensures var c := b[i := b[i].(locked := true)];
      BufsOk(c, touched, disk) && Shows(c, where, disk, view, pinned, held + {b[i].blockno})
  {
    var c := b[i := b[i].(locked := true)];
    assert Indexed(c, where) && b[i].blockno in where && where[b[i].blockno] == i;
  }

  function Recycled(b: seq<Buf>, i: nat, n: nat): seq<Buf>
    requires i < |b|
  {
    b[i := Buf(ROOTDEV, n, false, false, true, 1, b[i].data)]
  }

  lemma RecycleOk(b: seq<Buf>, where: map<nat, nat>, touched: set<nat>, disk: Disk, view: Disk, pinned: set<nat>, held: set<nat>,
                  i: nat, n: nat)
    requires Shows(b, where, disk, view, pinned, held) && BufsOk(b, touched, disk) && i < NBUF && Recyclable(b[i])
    requires n !in where && n < |disk|
    ensures BufsOk(Recycled(b, i, n), touched, disk) && OthersLocked(b, Recycled(b, i, n))
    ensures Shows(Recycled(b, i, n), Moved(where, i, n), disk, view, pinned, held + {n})
  {
    var c, w := Recycled(b, i, n), Moved(where, i, n);
    RecycledIndex(b, where, i, n);
    hide Indexed;
    RecycledView(b, where, touched, disk, view, pinned, held, i, n);
  }

  lemma RecycledIndex(b: seq<Buf>, where: map<nat, nat>, i: nat, n: nat)
    requires Indexed(b, where) && i < NBUF && n !in where
    ensures Indexed(Recycled(b, i, n), Moved(where, i, n))
  {
  }

  lemma RecycledView(b: seq<Buf>, where: map<nat, nat>, touched: set<nat>, disk: Disk, view: Disk, pinned: set<nat>, held: set<nat>,
                     i: nat, n: nat)
    requires Shows(b, where, disk, view, pinned, held) && BufsOk(b, touched, disk) && i < NBUF && Recyclable(b[i])
    requires n !in where && n < |disk| && Indexed(Recycled(b, i, n), Moved(where, i, n))
    ensures forall x: nat :: x < |disk| ==>
      && view[x] == ViewOf(Recycled(b, i, n), Moved(where, i, n), disk, x)
      && (x in pinned <==> x in Moved(where, i, n) && Recycled(b, i, n)[Moved(where, i, n)[x]].dirty)
      && (x in held + {n} <==> x in Moved(where, i, n) && Recycled(b, i, n)[Moved(where, i, n)[x]].locked)
  {
    var c, w := Recycled(b, i, n), Moved(where, i, n);
    forall x: nat | x < |disk|
      ensures view[x] == ViewOf(c, w, disk, x)
      ensures x in pinned <==> x in w && c[w[x]].dirty
      ensures x in held + {n} <==> x in w && c[w[x]].locked
    {
      if x in where && where[x] == i {
        assert BufOk(b[i], i in touched, disk);
      }
    }
  }

  /** iderw of a buffer that has no data yet. */
  lemma ReadOk(b: seq<Buf>, where: map<nat, nat>, touched: set<nat>, disk: Disk, view: Disk, pinned: set<nat>, held: set<nat>, i: nat)
    requires Shows(b, where, disk, view, pinned, held) && BufsOk(b, touched, disk)
    requires i < NBUF && b[i].dev == ROOTDEV && !b[i].valid
    ensures b[i].blockno < |disk|
    ensures var c := b[i := b[i].(data := disk[b[i].blockno], valid := true)];
      Shows(c, where, disk, view, pinned, held) && BufsOk(c, touched, disk)
  {
  }

  /** bwrite: the buffer's block reaches the disk and the buffer is clean. */
  lemma WriteOk(b: seq<Buf>, where: map<nat, nat>, touched: set<nat>, disk: Disk, view: Disk, pinned: set<nat>, held: set<nat>, i: nat)
    requires Shows(b, where, disk, view, pinned, held) && BufsOk(b, touched, disk)
    requires i < NBUF && b[i].dev == ROOTDEV && b[i].valid
    ensures b[i].blockno < |disk|
    ensures var c := b[i := b[i].(dirty := false)]; var n := b[i].blockno; var d := disk[n := b[i].data];
      Shows(c, where, d, view, pinned - {n}, held) && BufsOk(c, touched - {i}, d)
  {
  }

  /** A buffer that is valid shows its data, its pin and its lock as those of its block. */
  lemma Shown(b: seq<Buf>, where: map<nat, nat>, touched: set<nat>, disk: Disk, view: Disk, pinned: set<nat>, held: set<nat>, i: nat)
    requires Shows(b, where, disk, view, pinned, held) && BufsOk(b, touched, disk) && i < NBUF && b[i].dev == ROOTDEV && b[i].valid
    ensures b[i].blockno < |disk| && view[b[i].blockno] == b[i].data
    ensures (b[i].blockno in pinned <==> b[i].dirty) && (b[i].blockno in held <==> b[i].locked)
  {
  }

  /** Changes under the lock of buffer i that leave its identity alone. */
  lemma UpdateOk(b: seq<Buf>, where: map<nat, nat>, touched: set<nat>, disk: Disk, view: Disk, pinned: set<nat>, held: set<nat>,
                 i: nat, y: Buf, touched': set<nat>, view': Disk, pinned': set<nat>, held': set<nat>)
    requires Shows(b, where, disk, view, pinned, held) && BufsOk(b, touched, disk) && i < NBUF && b[i].dev == ROOTDEV
    requires b[i].valid && y.valid && y.dev == ROOTDEV && y.blockno == b[i].blockno < |disk|
    requires BufOk(y, i in touched', disk)
    requires forall j :: j != i ==> (j in touched <==> j in touched')
    requires view' == view[y.blockno := y.data]
    requires forall n :: n != y.blockno ==> (n in pinned <==> n in pinned') && (n in held <==> n in held')
    requires (y.blockno in pinned' <==> y.dirty) && (y.blockno in held' <==> y.locked)
    ensures BufsOk(b[i := y], touched', disk)
    ensures Shows(b[i := y], where, disk, view', pinned', held')
  {
    assert Indexed(b[i := y], where);
  }

  /** Unlinking the buffer at position k and linking it in behind the head. */
  lemma MovedOk(p0: seq<nat>, n0: seq<nat>, ring: seq<nat>, k: nat)
    requires RingOk(p0, n0, ring) && k < |ring|
    ensures var i := ring[k]; i < NBUF && n0[i] <= HEAD && p0[i] <= HEAD
    ensures var i := ring[k];
      var p1: seq<nat>, n1: seq<nat> := p0[n0[i] := p0[i]], n0[p0[i] := n0[i]];
      n1[HEAD] <= HEAD && RingOk(p1[i := HEAD][n1[HEAD] := i], n1[i := n1[HEAD]][HEAD := i], [i] + Without(ring, k))
  {
    var i, r := ring[k], Without(ring, k);
    Remove(p0, n0, ring, HEAD, k);
    var p1: seq<nat>, n1: seq<nat> := p0[n0[i] := p0[i]], n0[p0[i] := n0[i]];
    InsertFront(p1, n1, r, HEAD, i);
    FrontMembers(ring, k);
    hide Linked;
  }

  class Bcache {
    const bufs: array<Buf>
    const prev: array<nat>
    const next: array<nat>
    var disk: Disk
    ghost var ring: seq<nat>
    ghost var where: map<nat, nat>
    /** Buffers changed under their lock and neither logged nor written yet. */
    ghost var touched: set<nat>
    ghost var view: Disk
    ghost var pinned: set<nat>
    ghost var held: set<nat>
    /** Every disk state so far, the present one last: what a crash may leave. */
    ghost var crashes: seq<Disk>

    ghost predicate Valid()
      reads this, bufs, prev, next
    {
      && prev != next && bufs.Length == NBUF && prev.Length == next.Length == NBUF + 1
      && RingOk(prev[..], next[..], ring)
      && Shows(bufs[..], where, disk, view, pinned, held)
      && BufsOk(bufs[..], touched, disk)
      && crashes != [] && crashes[|crashes| - 1] == disk
    }

    /** Nobody waits for a buffer that somebody else has. */
    ghost predicate Calm()
      reads bufs
    {
      Loose(bufs[..])
    }

    /** Blocks to whose buffers somebody has a reference. */
    ghost function Refs(): set<nat>
      reads bufs
    {
      RefsOf(bufs[..])
    }

    /** Without waiting processes these are the blocks held. */
    lemma CalmRefs()
      requires Valid() && Calm()
      ensures Refs() == held
    {
      LooseRefs(bufs[..], where, touched, disk, view, pinned, held);
    }

    lemma ReferencedIs(n: nat)
      requires Valid()
      ensures n in Refs() <==> n in where && where[n] < NBUF && bufs[where[n]].refcnt > 0
      ensures forall i :: 0 <= i < NBUF && bufs[i].refcnt > 0 ==> bufs[i].blockno in Refs()
    {
      Referenced(bufs[..], where, touched, disk, n);
      forall i | 0 <= i < NBUF && bufs[i].refcnt > 0 ensures bufs[i].blockno in Refs() { assert bufs[..][i].refcnt > 0; }
    }

    lemma HeldRefs()
      requires Valid()
      ensures held <= Refs()
    {
      forall n | n in held ensures n in Refs() {
        assert BufOk(bufs[where[n]], where[n] in touched, disk);
        assert bufs[..][where[n]].blockno == n;
      }
    }

    /** Block n's buffer has been changed and neither logged nor written yet. */
    ghost predicate Changing(n: nat)
      reads this, bufs
    {
      InChange(bufs[..], touched, n)
    }

    /** A block that is not pinned, and whose buffer nobody is changing, reads as on disk. */
    lemma CleanView(n: nat)
      requires Valid() && n < |disk| && n !in pinned && (n in where ==> where[n] !in touched)
      ensures |view| == |disk| && view[n] == disk[n]
    {
      if n in where { assert BufOk(bufs[where[n]], false, disk); }
    }

    /** Only a holder changes a buffer. */
    lemma Untouched(n: nat)
      requires Valid() && n !in held
      ensures n in where ==> where[n] !in touched
    {
      if n in where { assert BufOk(bufs[where[n]], where[n] in touched, disk); }
    }

    /** No block is cached twice. */
    lemma CachedOnce(i: nat, j: nat, n: nat)
      requires Valid() && i < NBUF && j < NBUF && Holds(bufs[i], n) && Holds(bufs[j], n)
      ensures i == j
    {
    }

    /** What a reader of block n gets: its buffer's data once that has been read, else the disk's. */
    lemma Observed(n: nat)
      requires Valid() && n < |disk|
      ensures |view| == |disk| && (n in where ==> where[n] < NBUF == bufs.Length && Holds(bufs[where[n]], n))
      ensures view[n] == if n in where && bufs[where[n]].valid then bufs[where[n]].data else disk[n]
    {
    }

    lemma Ranges()
      requires Valid()
      ensures bufs.Length == NBUF && |view| == |disk|
      ensures forall n :: n in pinned || n in held ==> n < |disk|
    {
    }

    constructor (d: Disk)
      ensures Valid() && fresh(bufs) && fresh(prev) && fresh(next)
      ensures disk == view == d && crashes == [d] && touched == {} && pinned == {} && held == {} && Calm()
      ensures forall k :: 0 <= k < NBUF ==> ring[k] == NBUF - 1 - k
    {
      bufs := new Buf[NBUF](_ => Buf(0, 0, false, false, false, 0, Zeroes(BSIZE)));
      prev := new nat[NBUF + 1](_ => HEAD);
      next := new nat[NBUF + 1](_ => HEAD);
      disk := d;
      ring, where, touched, crashes, view, pinned, held := [], map[], {}, [d], d, {}, {};
      new;
      hide Loose, BufsOk, Shows;
      LooseNew(bufs[..], d);
      var b := 0;
      while b < NBUF
        invariant b <= NBUF && prev.Length == next.Length == NBUF + 1 && prev != next && fresh(prev) && fresh(next)
        invariant |ring| == b && Linked(prev[..], next[..], ring, HEAD)
        invariant forall k :: 0 <= k < b ==> ring[k] == b - 1 - k
        modifies this`ring, prev, next
      {
        InsertFront(prev[..], next[..], ring, HEAD, b);
        next[b] := next[HEAD];
        prev[b] := HEAD;
        prev[next[HEAD]] := b;
        next[HEAD] := b;
        ring := [b] + ring;
        b := b + 1;
      }
      forall i | 0 <= i < NBUF ensures i in ring {
        assert ring[NBUF - 1 - i] == i;
      }
    }

    /** bget's first loop: is the block already cached? */
    method FindCached(blockno: nat) returns (r: Option<nat>)
      requires Valid()
      ensures r.Some? <==> blockno in where
      ensures r.Some? ==> r.value == where[blockno]
    {
      assert blockno in where ==> where[blockno] in ring;
      var b := next[HEAD];
      ghost var k := 0;
      while b != HEAD
        invariant 0 <= k <= NBUF && b == At(ring, k, HEAD)
        invariant forall j :: 0 <= j < k ==> !Holds(bufs[ring[j]], blockno)
        decreases NBUF - k
      {
        if bufs[b].dev == ROOTDEV && bufs[b].blockno == blockno {
          return Some(b);
        }
        b := next[b];
        k := k + 1;
      }
      return None;
    }

    /** bget's second loop: the unused buffer released longest ago. */
    method FindVictim() returns (r: Option<nat>)
      requires Valid()
      ensures r.None? <==> forall i :: 0 <= i < NBUF ==> !Recyclable(bufs[i])
      ensures r.Some? ==> exists k :: 0 <= k < NBUF && ring[k] == r.value && IsVictim(bufs[..], ring, k)
    {
      var b := prev[HEAD];
      ghost var k := NBUF - 1;
      while b != HEAD
        invariant -1 <= k < NBUF && b == At(ring, k, HEAD)
        invariant forall j :: k < j < NBUF ==> !Recyclable(bufs[ring[j]])
        decreases k
      {
        if bufs[b].refcnt == 0 && !bufs[b].dirty {
          assert IsVictim(bufs[..], ring, k);
          return Some(b);
        }
        b := prev[b];
        k := k - 1;
      }
      forall i | 0 <= i < NBUF ensures !Recyclable(bufs[i]) {
        assert i in ring;
      }
      return None;
    }

    /**
     * Look for the block in ring order, else recycle from the other end; None is the "no buffers" panic. When somebody
     * has the buffer the caller holds a reference and waits for the lock.
     */
    method Bget(blockno: nat) returns (r: Option<nat>, waits: bool)
      requires Valid() && blockno < |disk|
      modifies this`where, this`held, bufs
      ensures Valid() && (waits <==> blockno in old(held))
      ensures r.None? <==> blockno !in old(where) && forall i :: 0 <= i < NBUF ==> !Recyclable(old(bufs[..])[i])
      ensures r.None? ==> bufs[..] == old(bufs[..]) && where == old(where) && held == old(held)
      ensures r.Some? ==> r.value < NBUF && Holds(bufs[r.value], blockno) && held == old(held) + {blockno}
      ensures blockno in old(where) ==> where == old(where) && r == Some(where[blockno])
      ensures waits ==> r.Some? && bufs[..] == Waiting(old(bufs[..]), r.value)
      ensures r.Some? && !waits && blockno in old(where) ==> bufs[..] == Hit(old(bufs[..]), r.value)
      ensures r.Some? && blockno !in old(where) ==>
        && bufs[..] == Recycled(old(bufs[..]), r.value, blockno) && Recyclable(old(bufs[..])[r.value])
        && exists k :: 0 <= k < NBUF && ring[k] == r.value && IsVictim(old(bufs[..]), ring, k)
      ensures r.Some? && !waits ==> OthersLocked(old(bufs[..]), bufs[..]) && bufs[r.value].locked
      ensures r.Some? && !waits ==> r.value !in touched && !old(bufs[..])[r.value].locked
      ensures old(Calm()) && !waits ==> Calm()
    {
      hide RingOk; hide Shows; hide BufsOk; hide BufOk; hide Indexed; hide Moved; hide Loose;
      ghost var was := bufs[..];
      HeldCached(blockno);
      waits := false;
      r := FindCached(blockno);
      if r.Some? {
        var b := r.value;
        if bufs[b].locked {
          WaitOk(was, where, touched, disk, view, pinned, held, blockno);
          bufs[b] := bufs[b].(refcnt := bufs[b].refcnt + 1);
          assert bufs[..] == Waiting(was, b);
          return r, true;
        }
        HitOk(was, where, touched, disk, view, pinned, held, blockno);
        UnlockedUntouched(was, touched, disk, b);
        bufs[b] := bufs[b].(refcnt := bufs[b].refcnt + 1, locked := true);
        held := held + {blockno};
        assert bufs[..] == Hit(was, b);
        LooseHit(was, bufs[..], b);
      } else {
        r := FindVictim();
        if r.Some? {
          var b := r.value;
          RecycleOk(was, where, touched, disk, view, pinned, held, b, blockno);
          UnlockedUntouched(was, touched, disk, b);
          where := Moved(where, b, blockno);
          held := held + {blockno};
          bufs[b] := bufs[b].(dev := ROOTDEV, blockno := blockno, valid := false, dirty := false, refcnt := 1, locked := true);
          assert bufs[..] == Recycled(was, b, blockno);
          LooseHit(was, bufs[..], b);
        }
      }
    }

    /** A block is held iff its buffer is locked. */
    lemma HeldCached(n: nat)
      requires Valid() && n < |disk|
      ensures n in held <==> n in where && where[n] < NBUF && bufs[where[n]].locked
      ensures n in where ==> where[n] < NBUF && Holds(bufs[where[n]], n)
    {
    }

    /** The end of the wait: acquiresleep returns once the buffer has been released. */
    method Locked(i: nat)
      requires Valid() && i < NBUF && bufs[i].dev == ROOTDEV && bufs[i].refcnt > 0 && !bufs[i].locked
      modifies this`held, bufs
      ensures Valid() && held == old(held) + {bufs[i].blockno} && bufs[i].blockno !in old(held)
      ensures bufs[..] == old(bufs[..])[i := old(bufs[i]).(locked := true)]
    {
      hide RingOk; hide Shows; hide BufsOk;
      ghost var was := bufs[..];
      LockOk(was, where, touched, disk, view, pinned, held, i);
      bufs[i] := bufs[i].(locked := true);
      held := held + {bufs[i].blockno};
      assert bufs[..] == was[i := was[i].(locked := true)];
    }

    /** One atomic block transfer: write if the buffer is dirty, else read. */
    method Iderw(i: nat)
      requires Valid() && i < NBUF && bufs[i].locked && bufs[i].dev == ROOTDEV
      requires bufs[i].valid <==> bufs[i].dirty
      modifies this`disk, this`crashes, this`touched, this`pinned, bufs
      ensures Valid()
      ensures old(bufs[i].dirty) ==>
        && disk == old(disk)[bufs[i].blockno := bufs[i].data] && crashes == old(crashes) + [disk]
        && touched == old(touched) - {i} && pinned == old(pinned) - {bufs[i].blockno}
        && bufs[..] == old(bufs[..])[i := old(bufs[i]).(dirty := false)]
      ensures !old(bufs[i].dirty) ==>
        && disk == old(disk) && crashes == old(crashes) && touched == old(touched) && pinned == old(pinned)
        && bufs[i].blockno < |disk|
        && bufs[..] == old(bufs[..])[i := old(bufs[i]).(data := disk[bufs[i].blockno], valid := true)]
      ensures old(Calm()) ==> Calm()
    {
      hide Loose;
      ghost var was := bufs[..];
      var n := bufs[i].blockno;
      if bufs[i].dirty {
        WriteOk(was, where, touched, disk, view, pinned, held, i);
        bufs[i] := bufs[i].(dirty := false);
        disk := disk[n := bufs[i].data];
        touched, pinned, crashes := touched - {i}, pinned - {n}, crashes + [disk];
        assert bufs[..] == was[i := was[i].(dirty := false)];
      } else {
        ReadOk(was, where, touched, disk, view, pinned, held, i);
        bufs[i] := bufs[i].(data := disk[n], valid := true);
        assert bufs[..] == was[i := was[i].(data := disk[n], valid := true)];
      }
      LooseSame(was, bufs[..]);
    }

    /** A locked buffer with the contents of the block; or a reference to it, while somebody else has the lock. */
    method Bread(blockno: nat) returns (r: Option<nat>, waits: bool)
      requires Valid() && blockno < |disk|
      modifies this`where, this`held, this`disk, this`crashes, this`touched, this`pinned, bufs
      ensures Valid() && disk == old(disk) && crashes == old(crashes) && touched == old(touched) && pinned == old(pinned)
      ensures waits <==> blockno in old(held)
      ensures waits ==> held == old(held) && r.Some? && r.value < NBUF && bufs[..] == Waiting(old(bufs[..]), r.value) && Holds(bufs[r.value], blockno)
      ensures r.None? ==> bufs[..] == old(bufs[..]) && where == old(where) && held == old(held)
      ensures r.None? <==> !Room(pinned, old(Refs()), blockno)
      ensures r.Some? ==> Refs() == old(Refs()) + {blockno}
      ensures r.Some? && !waits ==>
        && r.value < NBUF && held == old(held) + {blockno}
        && Holds(bufs[r.value], blockno) && bufs[r.value].locked && bufs[r.value].valid && bufs[r.value].data == view[blockno]
        && r.value !in touched
        && OthersLocked(old(bufs[..]), bufs[..]) && NoNewChange(old(bufs[..]), touched, bufs[..], touched)
        && (bufs[r.value].refcnt > 1 <==> blockno in old(Refs()))
      ensures old(Calm()) && !waits ==> Calm()
    {
      hide RingOk, Loose, Calm, Room, Crowded, RefsOf, Shows, BufsOk, Hit, Recycled, Waiting, OthersLocked, NoNewChange;
      BreadRoom(blockno);
      HeldRefs();
      ReferencedIs(blockno);
      ghost var was := bufs[..];
      ghost var cached := blockno in where;
      r, waits := Bget(blockno);
      if r.Some? { GotRefs(was, bufs[..], r.value, blockno, cached, waits); }
      if r.Some? && !waits {
        ghost var got := bufs[..];
        ReadIn(r.value);
        RefsSame(got, bufs[..]);
        OthersStill(was, got, bufs[..], r.value);
        ChangesStay(was, touched, disk, bufs[..]);
      }
    }

    /** iderw of a locked buffer if it has not been read. */
    method ReadIn(i: nat)
      requires Valid() && i < NBUF && bufs[i].locked && bufs[i].dev == ROOTDEV && i !in touched
      modifies this`disk, this`crashes, this`touched, this`pinned, bufs
      ensures Valid() && disk == old(disk) && crashes == old(crashes) && touched == old(touched) && pinned == old(pinned)
      ensures bufs[..] == old(bufs[..])[i := old(bufs[i]).(data := bufs[i].data, valid := true)] && bufs[i].blockno < |view|
      ensures bufs[i].data == view[bufs[i].blockno] && (old(Calm()) ==> Calm())
      ensures old(bufs[i]).valid ==> bufs[..] == old(bufs[..])
    {
      hide RingOk; hide Loose; hide Calm;
      DirtyValid(i);
      if !bufs[i].valid {
        Iderw(i);
      }
      Shown(bufs[..], where, touched, disk, view, pinned, held, i);
    }

    lemma DirtyValid(i: nat)
      requires Valid() && i < NBUF
      ensures bufs[i].dirty ==> bufs[i].valid
    {
      assert BufOk(bufs[i], i in touched, disk);
    }

    /** bread, resumed after its wait for the lock. */
    method BreadLocked(i: nat)
      requires Valid() && i < NBUF && bufs[i].dev == ROOTDEV && bufs[i].refcnt > 0 && !bufs[i].locked
      modifies this`held, this`disk, this`crashes, this`touched, this`pinned, bufs
      ensures Valid() && disk == old(disk) && crashes == old(crashes) && touched == old(touched) && pinned == old(pinned)
      ensures Holds(bufs[i], old(bufs[i]).blockno) && held == old(held) + {bufs[i].blockno} && bufs[i].blockno < |view|
      ensures bufs[i].locked && bufs[i].valid && bufs[i].data == view[bufs[i].blockno]
      ensures old(bufs[i]).valid ==> bufs[..] == old(bufs[..])[i := old(bufs[i]).(locked := true)]
    {
      hide RingOk; hide Shows; hide BufsOk;
      UnlockedUntouched(bufs[..], touched, disk, i);
      Locked(i);
      ReadIn(i);
    }

    /** When bread can have a buffer. */
    lemma BreadRoom(n: nat)
      requires Valid()
      ensures Room(pinned, Refs(), n) <==> n in where || exists i :: 0 <= i < NBUF && Recyclable(bufs[..][i])
    {
      hide RingOk;
      var b := bufs[..];
      hide Crowded;
      if Crowded(pinned, RefsOf(b)) {
        AllTaken(b, where, touched, disk, view, pinned, held);
        Referenced(b, where, touched, disk, n);
        hide Shows, BufsOk, RefsOf;
      } else {
        Spare(b, where, touched, disk, view, pinned, held);
      }
    }

    /** Write a held buffer to disk. */
    method Bwrite(i: nat)
      requires Valid() && i < NBUF && bufs[i].locked && bufs[i].valid
      modifies this`disk, this`crashes, this`touched, this`pinned, bufs
      ensures Valid() && crashes == old(crashes) + [disk] && touched == old(touched) - {i}
      ensures disk == old(disk)[old(bufs[i]).blockno := old(bufs[i]).data]
      ensures bufs[..] == old(bufs[..])[i := old(bufs[i]).(dirty := false)]
      ensures pinned == old(pinned) - {old(bufs[i]).blockno}
    {
      hide RingOk;
      ghost var was := bufs[..];
      Shown(was, where, touched, disk, view, pinned, held, i);
      UpdateOk(was, where, touched, disk, view, pinned, held, i, was[i].(dirty := true), touched, view, pinned + {was[i].blockno}, held);
      bufs[i] := bufs[i].(dirty := true);
      pinned := pinned + {bufs[i].blockno};
      assert bufs[..] == was[i := was[i].(dirty := true)];
      Iderw(i);
      assert bufs[..] == was[i := was[i].(dirty := false)];
    }

    /** The holder changes the data in place (memmove into b->data). */
    method SetData(i: nat, data: Block)
      requires Valid() && i < NBUF && bufs[i].locked && bufs[i].valid
      modifies this`touched, this`view, bufs
      ensures Valid() && touched == old(touched) + {i}
      ensures bufs[..] == old(bufs[..])[i := old(bufs[i]).(data := data)]
      ensures bufs[i].blockno < |disk| && view == old(view)[bufs[i].blockno := data]
    {
      hide RingOk;
      ghost var was := bufs[..];
      Shown(was, where, touched, disk, view, pinned, held, i);
      UpdateOk(was, where, touched, disk, view, pinned, held, i, was[i].(data := data), touched + {i},
               view[was[i].blockno := data], pinned, held);
      bufs[i] := bufs[i].(data := data);
      touched, view := touched + {i}, view[bufs[i].blockno := data];
      assert bufs[..] == was[i := was[i].(data := data)];
    }

    /** B_DIRTY, set by log_write to keep the buffer until its block is committed. */
    method Pin(i: nat)
      requires Valid() && i < NBUF && bufs[i].locked && bufs[i].valid
      modifies this`touched, this`pinned, bufs
      ensures Valid() && touched == old(touched) - {i} && pinned == old(pinned) + {bufs[i].blockno}
      ensures bufs[..] == old(bufs[..])[i := old(bufs[i]).(dirty := true)]
    {
      hide RingOk;
      ghost var was := bufs[..];
      Shown(was, where, touched, disk, view, pinned, held, i);
      UpdateOk(was, where, touched, disk, view, pinned, held, i, was[i].(dirty := true), touched - {i},
               view, pinned + {was[i].blockno}, held);
      bufs[i] := bufs[i].(dirty := true);
      touched, pinned := touched - {i}, pinned + {bufs[i].blockno};
      assert bufs[..] == was[i := was[i].(dirty := true)];
    }

    /** Drop the lock and the reference; an unreferenced buffer becomes the most recently used. */
    method Brelse(i: nat)
      requires Valid() && i < NBUF && bufs[i].locked && bufs[i].valid && i !in touched
      modifies this`ring, this`held, bufs, prev, next
      ensures Valid() && held == old(held) - {bufs[i].blockno}
      ensures var x := old(bufs[i]); bufs[..] == old(bufs[..])[i := x.(locked := false, refcnt := x.refcnt - 1)]
      ensures Refs() == if bufs[i].refcnt > 0 then old(Refs()) else old(Refs()) - {bufs[i].blockno}
      ensures bufs[i].refcnt > 0 ==> ring == old(ring)
      ensures bufs[i].refcnt == 0 ==> exists k :: 0 <= k < NBUF && old(ring)[k] == i && ring == [i] + Without(old(ring), k)
      ensures old(Calm()) ==> Calm()
    {
      hide Loose; hide RefsOf;
      ghost var was := bufs[..];
      Shown(was, where, touched, disk, view, pinned, held, i);
      assert BufOk(was[i], i in touched, disk);
      RefsLess(was, where, touched, disk, i, was[i].(locked := false, refcnt := was[i].refcnt - 1));
      UpdateOk(was, where, touched, disk, view, pinned, held, i, was[i].(locked := false, refcnt := was[i].refcnt - 1), touched,
               view, pinned, held - {was[i].blockno});
      bufs[i] := bufs[i].(locked := false);
      held := held - {bufs[i].blockno};
      bufs[i] := bufs[i].(refcnt := bufs[i].refcnt - 1);
      assert bufs[..] == was[i := was[i].(locked := false, refcnt := was[i].refcnt - 1)];
      LooseFreed(was, bufs[..], i);
      if bufs[i].refcnt == 0 {
        MoveToFront(i);
      }
    }

    method MoveToFront(i: nat)
      requires prev != next && prev.Length == next.Length == NBUF + 1 && RingOk(prev[..], next[..], ring) && i < NBUF
      modifies this`ring, prev, next
      ensures RingOk(prev[..], next[..], ring)
      ensures exists k :: 0 <= k < NBUF && old(ring)[k] == i && ring == [i] + Without(old(ring), k)
    {
      assert i in ring;
      ghost var k :| 0 <= k < |ring| && ring[k] == i;
      ghost var p0: seq<nat>, n0: seq<nat> := prev[..], next[..];
      MovedOk(p0, n0, ring, k);
      hide RingOk;
      Unlink(i);
      ghost var p1: seq<nat>, n1: seq<nat> := prev[..], next[..];
      next[i] := next[HEAD];
      prev[i] := HEAD;
      prev[next[HEAD]] := i;
      next[HEAD] := i;
      assert prev[..] == p1[i := HEAD][n1[HEAD] := i] && next[..] == n1[i := n1[HEAD]][HEAD := i];
      ring := [i] + Without(ring, k);
    }

    /** The neighbours of i link to each other. */
    method Unlink(i: nat)
      requires prev != next && prev.Length == next.Length == NBUF + 1 && i < NBUF && next[i] <= HEAD && prev[i] <= HEAD
      modifies prev, next
      ensures prev[..] == old(prev[..][next[i] := prev[i]]) && next[..] == old(next[..][prev[i] := next[i]])
    {
      prev[next[i]] := prev[i];
      next[prev[i]] := next[i];
    }

    lemma PinnedHeld(n: nat)
      requires Valid() && n in pinned && n in held
      ensures n < |disk| && forall i :: 0 <= i < NBUF && Holds(bufs[i], n) ==> bufs[i].dirty && bufs[i].valid && bufs[i].locked && bufs[i].refcnt > 0
    {
      forall i | 0 <= i < NBUF && Holds(bufs[i], n) ensures bufs[i].dirty && bufs[i].valid && bufs[i].locked && bufs[i].refcnt > 0 {
        assert BufOk(bufs[i], i in touched, disk);
      }
    }

    /**
     * bread with its wait. Somebody who is reading a pinned block lets go of it in the end, and that brelse is what ends
     * the wait; the buffers are then as they were, in other hands.
     */
    method BreadThrough(n: nat) returns (r: Option<nat>)
      requires Valid() && n < |disk| && (n in held ==> n in pinned && !Changing(n))
      modifies this`ring, this`where, this`held, this`disk, this`crashes, this`touched, this`pinned, bufs, prev, next
      ensures Valid() && disk == old(disk) && crashes == old(crashes) && touched == old(touched) && pinned == old(pinned)
      ensures r.None? ==> bufs[..] == old(bufs[..]) && held == old(held)
      ensures r.Some? ==>
        && r.value < NBUF && held == old(held) + {n} && r.value !in touched
        && Holds(bufs[r.value], n) && bufs[r.value].locked && bufs[r.value].valid && bufs[r.value].data == view[n]
        && OthersLocked(old(bufs[..]), bufs[..]) && NoNewChange(old(bufs[..]), touched, bufs[..], touched)
        && Refs() == old(Refs()) + {n} && (n !in old(Refs()) ==> bufs[r.value].refcnt <= 1)
        && (n in old(Refs()) && n !in old(held) ==> bufs[r.value].refcnt > 1)
      ensures r.None? <==> !Room(pinned, old(Refs()), n)
      ensures old(Calm()) ==> Calm()
    {
      hide RingOk, BufsOk, Shows, Loose, Waiting, OthersLocked, Room, Crowded, RefsOf;
      if n in held { PinnedHeld(n); }
      HeldRefs();
      ghost var b0 := bufs[..];
      var waits;
      r, waits := Bread(n);
      if waits {
        WaitingIs(b0, r.value);
        assert r.value !in touched;
        Brelse(r.value);
        BreadLocked(r.value);
        assert bufs[..] == b0;
        NoneMoved(b0);
      }
    }

    /** bread of two different blocks, in this order. */
    method ReadTwo(m: nat, n: nat) returns (a: Option<nat>, b: Option<nat>)
      requires Valid() && m < |disk| && n < |disk| && m != n && m !in held && (n in held ==> n in pinned && !Changing(n))
      modifies this`ring, this`where, this`held, this`disk, this`crashes, this`touched, this`pinned, bufs, prev, next
      ensures Valid() && disk == old(disk) && crashes == old(crashes) && touched == old(touched) && pinned == old(pinned)
      ensures a.Some? && b.Some? ==>
        && a.value < NBUF && b.value < NBUF && a.value != b.value && held == old(held) + {m, n}
        && Holds(bufs[a.value], m) && Holds(bufs[b.value], n)
        && a.value !in touched && b.value !in touched
        && bufs[a.value].locked && bufs[a.value].valid && bufs[a.value].data == view[m]
        && bufs[b.value].locked && bufs[b.value].valid && bufs[b.value].data == view[n]
        && NoNewChange(old(bufs[..]), touched, bufs[..], touched) && Refs() == old(Refs()) + {m, n}
        && (bufs[a.value].refcnt > 1 <==> m in old(Refs())) && (n !in old(Refs()) ==> bufs[b.value].refcnt <= 1)
        && (n in old(Refs()) && n !in old(held) ==> bufs[b.value].refcnt > 1)
      ensures a.Some? && b.Some? <==> RoomForTwo(pinned, old(Refs()), m, n)
      ensures old(Calm()) ==> Calm()
    {
      hide RingOk, BufsOk, Shows, Loose, Calm, Room, Crowded, NoNewChange, InChange, RefsOf;
      b := None;
      ghost var b0, t := bufs[..], touched;
      var waits;
      a, waits := Bread(m);
      if a.Some? {
        ghost var b1 := bufs[..];
        if n in held { NoChange(b0, t, b1, t, n); }
        b := BreadThrough(n);
        if b.Some? { NoNewChanges(b0, t, b1, t, bufs[..], t); }
      }
    }

    /** Change a held buffer's data, bwrite it and release it. */
    method WriteOut(i: nat, data: Block)
      requires Valid() && i < NBUF && bufs[i].locked && bufs[i].valid
      modifies this, bufs, prev, next
      ensures Valid() && touched == old(touched) - {i} && old(bufs[i]).blockno < |disk|
      ensures disk == old(disk)[old(bufs[i]).blockno := data] && crashes == old(crashes) + [disk]
      ensures view == old(view)[old(bufs[i]).blockno := data]
      ensures pinned == old(pinned) - {old(bufs[i]).blockno} && held == old(held) - {old(bufs[i]).blockno}
      ensures old(Calm()) ==> Calm()
      ensures NoNewChange(old(bufs[..]), old(touched), bufs[..], touched)
      ensures Refs() == if old(bufs[i]).refcnt > 1 then old(Refs()) else old(Refs()) - {old(bufs[i]).blockno}
    {
      hide RingOk; hide BufsOk; hide Shows; hide Loose; hide NoNewChange; hide RefsOf;
      ghost var b0, t0 := bufs[..], touched;
      SetData(i, data);
      Bwrite(i);
      LooseSame(b0, bufs[..]);
      RefsSame(b0, bufs[..]);
      Brelse(i);
      ChangesEnd(b0, t0, bufs[..], touched);
    }

    /** memmove(to->data, from->data), bwrite(to), brelse(from), brelse(to). */
    method CopyOut(from: nat, to: nat)
      requires Valid() && from < NBUF && to < NBUF && from != to && from !in touched
      requires bufs[from].locked && bufs[from].valid && bufs[to].locked && bufs[to].valid
      modifies this, bufs, prev, next
      ensures Valid() && touched == old(touched) - {to} && old(bufs[to]).blockno < |disk|
      ensures disk == old(disk)[old(bufs[to]).blockno := old(bufs[from]).data] && crashes == old(crashes) + [disk]
      ensures view == old(view)[old(bufs[to]).blockno := old(bufs[from]).data]
      ensures pinned == old(pinned) - {old(bufs[to]).blockno}
      ensures held == old(held) - {old(bufs[from]).blockno} - {old(bufs[to]).blockno}
      ensures old(Calm()) ==> Calm()
      ensures NoNewChange(old(bufs[..]), old(touched), bufs[..], touched)
      ensures Refs() == old(Refs()) - (if old(bufs[from]).refcnt > 1 then {} else {old(bufs[from]).blockno})
        - (if old(bufs[to]).refcnt > 1 then {} else {old(bufs[to]).blockno})
    {
      hide RingOk; hide BufsOk; hide Shows; hide Loose; hide NoNewChange; hide RefsOf;
      ghost var b0, t0 := bufs[..], touched;
      SetData(to, bufs[from].data);
      Bwrite(to);
      LooseSame(b0, bufs[..]);
      RefsSame(b0, bufs[..]);
      Brelse(from);
      assert Refs() == RefsOf(b0) - (if b0[from].refcnt > 1 then {} else {b0[from].blockno});
      Brelse(to);
      ChangesEnd(b0, t0, bufs[..], touched);
    }
  }
}
