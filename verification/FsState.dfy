// The file system as a value: block contents, current inodes, and who owns
// which block. What each elementary change does to ownership and contents.
module FsState {
  import opened Blocks
  import opened FsLayout

  /** Layout from the superblock; `datastart` is the first block after the free map. */
  datatype Super = Super(size: nat, ninodes: nat, inodestart: nat, bmapstart: nat, datastart: nat) {
    predicate Ok() {
      && 0 < inodestart && inodestart + ninodes / IPB < bmapstart
      && bmapstart + (size + BPB - 1) / BPB <= datastart <= size < TWO32
    }
    predicate Data(b: nat) { datastart <= b < size }
    /** Block of the free map with the bit of block b. */
    function MapBlock(b: nat): nat { b / BPB + bmapstart }
    /** Block that holds inode n. */
    function InodeBlock(n: nat): nat { n / IPB + inodestart }
  }

  lemma MapBlockRange(sb: Super, b: nat)
    requires sb.Ok() && b < sb.size
    ensures sb.bmapstart <= sb.MapBlock(b) < sb.datastart
  {
  }

  lemma InodeBlockRange(sb: Super, n: nat)
    requires sb.Ok() && n < sb.ninodes
    ensures sb.inodestart <= sb.InodeBlock(n) < sb.bmapstart
  {
  }

  /** A place that can hold a block number. */
  datatype Slot = Direct(n: nat, i: nat) | Indirect(n: nat) | Entry(n: nat, j: nat)

  datatype Fs = Fs(blk: seq<Block>, ip: map<nat, Inode>, owner: map<nat, Slot>)

  /** The block number in an inode's address array, 0 when there is none. */
  function InodeAddr(f: Fs, n: nat, i: nat): nat {
    if n in f.ip && i <= NDIRECT && |f.ip[n].addrs| == NDIRECT + 1 then f.ip[n].addrs[i] else 0
  }

  function Addr(f: Fs, s: Slot): nat {
    match s
    case Direct(n, i) => if i < NDIRECT then InodeAddr(f, n, i) else 0
    case Indirect(n) => InodeAddr(f, n, NDIRECT)
    case Entry(n, j) =>
      var a := InodeAddr(f, n, NDIRECT);
      if 0 < a < |f.blk| && j < NINDIRECT then Word(f.blk[a], j) else 0
  }

  predicate Used(sb: Super, f: Fs, b: nat)
    requires sb.Ok() && |f.blk| == sb.size && b < sb.size
  {
    MapBlockRange(sb, b);
    Bit(f.blk[sb.MapBlock(b)], b % BPB)
  }

  /**
   * Ownership: every non-zero block number in a slot is a data block owned by just that slot, and the free map marks
   * exactly the metadata blocks, the owned blocks and those in `pend`, which are being allocated or freed.
   */
  ghost predicate Own(sb: Super, f: Fs, pend: set<nat>) {
    && sb.Ok() && |f.blk| == sb.size
    && (forall n :: n in f.ip ==> n < sb.ninodes && f.ip[n].Ok())
    && (forall s {:trigger Addr(f, s)} :: Addr(f, s) != 0 ==>
          sb.Data(Addr(f, s)) && Addr(f, s) in f.owner && f.owner[Addr(f, s)] == s)
    && (forall b :: b in f.owner ==> sb.Data(b) && Addr(f, f.owner[b]) == b)
    && (forall b :: b in pend ==> sb.Data(b) && b !in f.owner)
    && (forall b: nat :: b < sb.size ==> (Used(sb, f, b) <==> !sb.Data(b) || b in f.owner || b in pend))
  }

  /** The free map says that b is in use iff it is metadata or exactly one slot of one inode holds it. */
  lemma UsedIffOwnedOnce(sb: Super, f: Fs, b: nat)
    requires Own(sb, f, {}) && b < sb.size
    ensures Used(sb, f, b) <==> !sb.Data(b) || exists s :: Addr(f, s) == b
    ensures sb.Data(b) ==> forall s, t :: Addr(f, s) == b && Addr(f, t) == b ==> s == t
  {
    if sb.Data(b) && b in f.owner {
      assert Addr(f, f.owner[b]) == b;
    }
  }

  function Interval(lo: nat, hi: nat): (s: set<nat>)
    requires lo <= hi
    ensures |s| == hi - lo && forall b :: b in s <==> lo <= b < hi
  {
    if lo == hi then {} else Interval(lo, hi - 1) + {hi - 1}
  }

  /** Free blocks, owned blocks and metadata blocks add up to the volume. */
  lemma Conservation(sb: Super, f: Fs)
    requires Own(sb, f, {})
    ensures |set b: nat | b < sb.size && !Used(sb, f, b)| + |f.owner.Keys| + sb.datastart == sb.size
  {
    hide Used;
    var free := set b: nat | b < sb.size && !Used(sb, f, b);
    assert Interval(sb.datastart, sb.size) == free + f.owner.Keys;
    assert free !! f.owner.Keys;
  }

  ghost predicate SameAddrs(f: Fs, g: Fs) {
    forall s {:trigger Addr(g, s)} {:trigger Addr(f, s)} :: Addr(g, s) == Addr(f, s)
  }

  /** Block changes that spare the free map and all indirect blocks change no ownership. */
  lemma BlkFrame(sb: Super, f: Fs, g: Fs, pend: set<nat>)
    requires Own(sb, f, pend) && g == f.(blk := g.blk) && |g.blk| == |f.blk|
    requires forall b: nat :: sb.bmapstart <= b < sb.datastart ==> g.blk[b] == f.blk[b]
    requires forall b :: b in f.owner && f.owner[b].Indirect? ==> g.blk[b] == f.blk[b]
    ensures Own(sb, g, pend) && SameAddrs(f, g)
    ensures forall b: nat :: b < sb.size ==> Used(sb, g, b) == Used(sb, f, b)
  {
    forall s ensures Addr(g, s) == Addr(f, s) {
      if s.Entry? {
        assert Addr(f, Indirect(s.n)) == InodeAddr(f, s.n, NDIRECT) == InodeAddr(g, s.n, NDIRECT);
      }
    }
    forall b: nat | b < sb.size ensures Used(sb, g, b) == Used(sb, f, b) {
      MapBlockRange(sb, b);
    }
  }

  // ----- allocation

  function Mark(sb: Super, f: Fs, b: nat, v: bool): (g: Fs)
    requires sb.Ok() && |f.blk| == sb.size && b < sb.size
    ensures |g.blk| == |f.blk| && g.ip == f.ip && g.owner == f.owner
  {
    MapBlockRange(sb, b);
    f.(blk := f.blk[sb.MapBlock(b) := SetBit(f.blk[sb.MapBlock(b)], b % BPB, v)])
  }

  lemma MarkBits(sb: Super, f: Fs, b: nat, v: bool)
    requires sb.Ok() && |f.blk| == sb.size && b < sb.size
    ensures forall x: nat :: x < sb.size ==> Used(sb, Mark(sb, f, b, v), x) == if x == b then v else Used(sb, f, x)
  {
    MapBlockRange(sb, b);
    forall x: nat | x < sb.size ensures Used(sb, Mark(sb, f, b, v), x) == if x == b then v else Used(sb, f, x) {
      MapBlockRange(sb, x);
      assert x == x / BPB * BPB + x % BPB && b == b / BPB * BPB + b % BPB;
    }
  }

  lemma MarkAddrs(sb: Super, f: Fs, pend: set<nat>, b: nat, v: bool)
    requires Own(sb, f, pend) && b < sb.size
    ensures SameAddrs(f, Mark(sb, f, b, v))
  {
    MapBlockRange(sb, b);
    var g := Mark(sb, f, b, v);
    forall s ensures Addr(g, s) == Addr(f, s) {
      if s.Entry? {
        assert Addr(f, Indirect(s.n)) == InodeAddr(f, s.n, NDIRECT);
      }
    }
  }

  /** Setting or clearing the bit of an unowned data block. */
  lemma MarkOk(sb: Super, f: Fs, pend: set<nat>, b: nat, v: bool)
    requires Own(sb, f, pend) && sb.Data(b) && b !in f.owner
    ensures Own(sb, Mark(sb, f, b, v), if v then pend + {b} else pend - {b}) && SameAddrs(f, Mark(sb, f, b, v))
  {
    MarkBits(sb, f, b, v);
    MarkAddrs(sb, f, pend, b, v);
  }

  predicate SlotOk(f: Fs, s: Slot) {
    && s.n in f.ip
    && match s
       case Direct(_, i) => i < NDIRECT
       case Indirect(_) => true
       case Entry(n, j) => j < NINDIRECT && 0 < InodeAddr(f, n, NDIRECT) < |f.blk|
  }

  /** Storing block number b in slot s. */
  function Store(f: Fs, s: Slot, b: nat): (g: Fs)
    requires SlotOk(f, s) && |f.ip[s.n].addrs| == NDIRECT + 1 && b < TWO32
    ensures |g.blk| == |f.blk| && g.ip.Keys == f.ip.Keys && g.owner == f.owner
  {
    match s
    case Direct(n, i) => f.(ip := f.ip[n := f.ip[n].(addrs := f.ip[n].addrs[i := b])])
    case Indirect(n) => f.(ip := f.ip[n := f.ip[n].(addrs := f.ip[n].addrs[NDIRECT := b])])
    case Entry(n, j) =>
      var a := InodeAddr(f, n, NDIRECT);
      f.(blk := f.blk[a := SetWord(f.blk[a], j, b)])
  }

  lemma ZeroWord(j: nat)
    requires j < WORDS
    ensures Word(Zeroes(BSIZE), j) == 0
  {
  }

  lemma StoreAddr(sb: Super, f: Fs, s: Slot, b: nat, t: Slot)
    requires Own(sb, f, {b}) && SlotOk(f, s) && Addr(f, s) == 0 && f.blk[b] == Zeroes(BSIZE)
    ensures Addr(Store(f, s, b), t) == if t == s then b else Addr(f, t)
  {
    if t.Entry? {
      StoreEntryAddr(sb, f, s, b, t);
    }
  }

  lemma StoreEntryAddr(sb: Super, f: Fs, s: Slot, b: nat, t: Slot)
    requires Own(sb, f, {b}) && SlotOk(f, s) && Addr(f, s) == 0 && f.blk[b] == Zeroes(BSIZE) && t.Entry?
    ensures Addr(Store(f, s, b), t) == if t == s then b else Addr(f, t)
  {
    hide Word;
    assert Addr(f, Indirect(t.n)) == InodeAddr(f, t.n, NDIRECT);
    if s == Indirect(t.n) {
      if t.j < NINDIRECT { ZeroWord(t.j); }
    } else if s.Entry? {
      assert Addr(f, Indirect(s.n)) == InodeAddr(f, s.n, NDIRECT);
    }
  }

  lemma StoreAddrs(sb: Super, f: Fs, s: Slot, b: nat)
    requires Own(sb, f, {b}) && SlotOk(f, s) && Addr(f, s) == 0 && f.blk[b] == Zeroes(BSIZE)
    ensures forall t {:trigger Addr(Store(f, s, b), t)} :: Addr(Store(f, s, b), t) == if t == s then b else Addr(f, t)
  {
    hide Word, Addr, Store;
    forall t ensures Addr(Store(f, s, b), t) == if t == s then b else Addr(f, t) {
      StoreAddr(sb, f, s, b, t);
    }
  }

  ghost predicate SameMap(sb: Super, f: Fs, g: Fs)
    requires sb.Ok() && |f.blk| == |g.blk| == sb.size
  {
    forall b: nat :: sb.bmapstart <= b < sb.datastart ==> g.blk[b] == f.blk[b]
  }

  lemma SameMapUsed(sb: Super, f: Fs, g: Fs)
    requires sb.Ok() && |f.blk| == |g.blk| == sb.size && SameMap(sb, f, g)
    ensures forall b: nat :: b < sb.size ==> Used(sb, g, b) == Used(sb, f, b)
  {
    forall b: nat | b < sb.size ensures Used(sb, g, b) == Used(sb, f, b) {
      MapBlockRange(sb, b);
    }
  }

  /** A pending zeroed block becomes owned by the empty slot it is stored in. */
  lemma LinkOk(sb: Super, f: Fs, s: Slot, b: nat)
    requires Own(sb, f, {b}) && SlotOk(f, s) && Addr(f, s) == 0 && f.blk[b] == Zeroes(BSIZE)
    ensures Own(sb, Store(f, s, b).(owner := f.owner[b := s]), {})
    ensures forall t {:trigger Addr(Store(f, s, b).(owner := f.owner[b := s]), t)} ::
      Addr(Store(f, s, b).(owner := f.owner[b := s]), t) == if t == s then b else Addr(f, t)
  {
    hide Word; hide Bit; hide Used; hide Addr; hide Store;
    StoreAddrs(sb, f, s, b);
    StoreShape(sb, f, s, b);
    var h := Store(f, s, b);
    var g := h.(owner := f.owner[b := s]);
    OwnerOnly(h, g);
    SameMapUsed(sb, f, g);
  }

  lemma OwnerOnly(h: Fs, g: Fs)
    requires g == h.(owner := g.owner)
    ensures SameAddrs(h, g)
  {
    forall t ensures Addr(g, t) == Addr(h, t) {}
  }

  lemma StoreShape(sb: Super, f: Fs, s: Slot, b: nat)
    requires Own(sb, f, {b}) && SlotOk(f, s)
    ensures var h := Store(f, s, b); SameMap(sb, f, h) && forall n :: n in h.ip ==> n < sb.ninodes && h.ip[n].Ok()
  {
    if s.Entry? {
      assert Addr(f, Indirect(s.n)) == InodeAddr(f, s.n, NDIRECT);
    }
  }

  // ----- freeing

  /** Slot s, a direct or indirect pointer, is emptied; its block, and all entries below an indirect one, become pending. */
  function Emptied(f: Fs, s: Slot): Fs
    requires SlotOk(f, s) && !s.Entry? && |f.ip[s.n].addrs| == NDIRECT + 1
  {
    Store(f, s, 0).(owner := map b | b in f.owner && !Under(f.owner[b], s) :: f.owner[b])
  }

  /** Slots that go away with slot s. */
  predicate Under(t: Slot, s: Slot) {
    t == s || (s.Indirect? && t.Entry? && t.n == s.n)
  }

  function Released(f: Fs, s: Slot): set<nat> {
    set b | b in f.owner && Under(f.owner[b], s)
  }

  lemma EmptyAddrs(sb: Super, f: Fs, s: Slot)
    requires Own(sb, f, {}) && SlotOk(f, s) && !s.Entry?
    ensures forall t {:trigger Addr(Emptied(f, s), t)} :: Addr(Emptied(f, s), t) == if Under(t, s) then 0 else Addr(f, t)
  {
    hide Word; hide Bit; hide Used;
    var g := Emptied(f, s);
    forall t ensures Addr(g, t) == if Under(t, s) then 0 else Addr(f, t) {}
  }

  lemma EmptyOk(sb: Super, f: Fs, s: Slot)
    requires Own(sb, f, {}) && SlotOk(f, s) && !s.Entry?
    ensures Own(sb, Emptied(f, s), Released(f, s))
    ensures forall t {:trigger Addr(Emptied(f, s), t)} :: Addr(Emptied(f, s), t) == if Under(t, s) then 0 else Addr(f, t)
  {
    hide Word; hide Bit; hide Used; hide Addr;
    var g := Emptied(f, s);
    EmptyAddrs(sb, f, s);
    assert g.blk == f.blk && g.ip[s.n].Ok();
    SameMapUsed(sb, f, g);
  }

  // ----- inodes on disk and file contents

  ghost predicate OnDisk(sb: Super, f: Fs, n: nat)
    requires sb.Ok() && |f.blk| == sb.size && n < sb.ninodes && n in f.ip
  {
    InodeBlockRange(sb, n);
    GetInode(f.blk[sb.InodeBlock(n)], n % IPB) == f.ip[n]
  }

  /** The slot of the bn-th block of inode n's file. */
  function SlotOf(n: nat, bn: nat): Slot {
    if bn < NDIRECT then Direct(n, bn) else Entry(n, bn - NDIRECT)
  }

  function BlockOf(f: Fs, n: nat, bn: nat): nat { Addr(f, SlotOf(n, bn)) }

  function ByteAt(f: Fs, n: nat, i: nat): byte {
    var a := BlockOf(f, n, i / BSIZE);
    if 0 < a < |f.blk| then f.blk[a][i % BSIZE] else 0
  }

  /** The file as a flat byte sequence. */
  function FileBytes(f: Fs, n: nat): (s: seq<byte>)
    requires n in f.ip
    ensures |s| == f.ip[n].size && forall i :: 0 <= i < |s| ==> s[i] == ByteAt(f, n, i)
  {
    seq(f.ip[n].size, (i: nat) => ByteAt(f, n, i))
  }

  /** Every block below byte `size` of the file is allocated. */
  ghost predicate Mapped(f: Fs, n: nat, size: nat) {
    size <= MAXFILE * BSIZE && forall bn: nat :: bn * BSIZE < size ==> BlockOf(f, n, bn) != 0
  }

  /** All files have their blocks, and inodes other than `busy` are on disk as they are in memory. */
  ghost predicate FilesOk(sb: Super, f: Fs, busy: set<nat>) {
    && sb.Ok() && |f.blk| == sb.size && (forall n :: n in f.ip ==> n < sb.ninodes)
    && forall n :: n in f.ip ==> Mapped(f, n, f.ip[n].size) && (n !in busy ==> OnDisk(sb, f, n))
  }

  ghost predicate Good(sb: Super, f: Fs) {
    Own(sb, f, {}) && FilesOk(sb, f, {})
  }

  /** Writing x into the data block in slot s changes the bytes of that one block of that one file. */
  lemma WriteBlockOk(sb: Super, f: Fs, s: Slot, x: Block, busy: set<nat>)
    requires Own(sb, f, {}) && !s.Indirect? && Addr(f, s) != 0 && FilesOk(sb, f, busy)
    ensures Addr(f, s) < |f.blk|
    ensures var g := f.(blk := f.blk[Addr(f, s) := x]);
      && Own(sb, g, {}) && SameAddrs(f, g) && FilesOk(sb, g, busy)
      && forall m: nat, i: nat :: ByteAt(g, m, i) == if SlotOf(m, i / BSIZE) == s then x[i % BSIZE] else ByteAt(f, m, i)
  {
    hide Word; hide Bit; hide Used; hide GetInode;
    var g := f.(blk := f.blk[Addr(f, s) := x]);
    BlkFrame(sb, f, g, {});
    forall m: nat, i: nat ensures ByteAt(g, m, i) == if SlotOf(m, i / BSIZE) == s then x[i % BSIZE] else ByteAt(f, m, i) {
      assert Addr(g, SlotOf(m, i / BSIZE)) == Addr(f, SlotOf(m, i / BSIZE));
    }
    forall n | n in f.ip ensures Mapped(g, n, f.ip[n].size) && (n !in busy ==> OnDisk(sb, g, n)) {
      InodeBlockRange(sb, n);
      forall bn: nat | bn * BSIZE < f.ip[n].size ensures BlockOf(g, n, bn) != 0 {
        assert BlockOf(f, n, bn) != 0;
      }
    }
  }

  /** balloc's effect: b marked in the free map and zeroed. */
  function Balloced(sb: Super, f: Fs, b: nat): (g: Fs)
    requires sb.Ok() && |f.blk| == sb.size && b < sb.size
    ensures |g.blk| == |f.blk| && g.ip == f.ip && g.owner == f.owner
  {
    var h := Mark(sb, f, b, true);
    h.(blk := h.blk[b := Zeroes(BSIZE)])
  }

  lemma BallocedOk(sb: Super, f: Fs, b: nat)
    requires Own(sb, f, {}) && b < sb.size && !Used(sb, f, b)
    ensures sb.Data(b) && b !in f.owner
    ensures Own(sb, Balloced(sb, f, b), {b}) && SameAddrs(f, Balloced(sb, f, b))
    ensures forall x: nat :: sb.datastart <= x < sb.size && x != b ==> Balloced(sb, f, b).blk[x] == f.blk[x]
    ensures forall x: nat :: x < sb.bmapstart ==> Balloced(sb, f, b).blk[x] == f.blk[x]
  {
    hide Word; hide Bit; hide Used;
    var h := Mark(sb, f, b, true);
    MarkOk(sb, f, {}, b, true);
    MapBlockRange(sb, b);
    BlkFrame(sb, h, Balloced(sb, f, b), {b});
    assert {} + {b} == {b};
    var g := Balloced(sb, f, b);
    forall s ensures Addr(g, s) == Addr(f, s) {
      assert Addr(g, s) == Addr(h, s);
    }
  }

  /** A free block b allocated for the empty slot s. */
  function Allocated(sb: Super, f: Fs, s: Slot, b: nat): (g: Fs)
    requires sb.Ok() && |f.blk| == sb.size && b < sb.size && SlotOk(f, s) && |f.ip[s.n].addrs| == NDIRECT + 1
    ensures |g.blk| == |f.blk| && g.ip.Keys == f.ip.Keys
  {
    Store(Balloced(sb, f, b), s, b).(owner := f.owner[b := s])
  }

  lemma AllocatedOwn(sb: Super, f: Fs, s: Slot, b: nat)
    requires Own(sb, f, {}) && b < sb.size && !Used(sb, f, b) && SlotOk(f, s) && Addr(f, s) == 0
    ensures Own(sb, Allocated(sb, f, s, b), {})
    ensures forall t {:trigger Addr(Allocated(sb, f, s, b), t)} ::
      Addr(Allocated(sb, f, s, b), t) == if t == s then b else Addr(f, t)
  {
    hide Word; hide Bit; hide Used; hide Mark;
    BallocedOk(sb, f, b);
    var h := Balloced(sb, f, b);
    assert Addr(h, s) == Addr(f, s);
    LinkOk(sb, h, s, b);
  }

  /** Allocation spares every block that files already use, except the entry word it fills in. */
  lemma AllocatedBlocks(sb: Super, f: Fs, s: Slot, b: nat, a: nat)
    requires Own(sb, f, {}) && b < sb.size && !Used(sb, f, b) && SlotOk(f, s) && Addr(f, s) == 0
    requires a < sb.size && (a < sb.bmapstart || (a in f.owner && !f.owner[a].Indirect?))
    ensures Allocated(sb, f, s, b).blk[a] == f.blk[a]
    ensures Allocated(sb, f, s, b).blk[b] == Zeroes(BSIZE)
  {
    hide Word; hide Bit; hide Used; hide Mark;
    BallocedOk(sb, f, b);
    if s.Entry? {
      assert Addr(f, Indirect(s.n)) == InodeAddr(f, s.n, NDIRECT);
    }
  }

  lemma AllocatedInodes(sb: Super, f: Fs, s: Slot, b: nat)
    requires sb.Ok() && |f.blk| == sb.size && b < sb.size && SlotOk(f, s) && |f.ip[s.n].addrs| == NDIRECT + 1
    ensures var g := Allocated(sb, f, s, b);
      && (forall m :: m in f.ip && m != s.n ==> g.ip[m] == f.ip[m])
      && s.n in f.ip && g.ip[s.n] == f.ip[s.n].(addrs := g.ip[s.n].addrs)
  {
    hide Balloced; hide Addr;
  }

  /** Blocks that files had keep their bytes. */
  lemma AllocatedBytes(sb: Super, f: Fs, s: Slot, b: nat, m: nat, i: nat)
    requires Own(sb, f, {}) && b < sb.size && !Used(sb, f, b) && SlotOk(f, s) && Addr(f, s) == 0 && BlockOf(f, m, i / BSIZE) != 0
    ensures ByteAt(Allocated(sb, f, s, b), m, i) == ByteAt(f, m, i)
  {
    hide Word, Bit, Used, GetInode, Balloced, Addr, Store, Allocated;
    var t, g := SlotOf(m, i / BSIZE), Allocated(sb, f, s, b);
    AllocatedOwn(sb, f, s, b);
    assert Addr(g, t) == Addr(f, t);
    AllocatedBlocks(sb, f, s, b, Addr(f, t));
  }

  lemma AllocatedFile(sb: Super, f: Fs, s: Slot, b: nat, n: nat)
    requires Own(sb, f, {}) && b < sb.size && !Used(sb, f, b) && SlotOk(f, s) && Addr(f, s) == 0 && FilesOk(sb, f, {s.n})
    requires n in Allocated(sb, f, s, b).ip
    ensures var g := Allocated(sb, f, s, b);
      n < sb.ninodes && |g.blk| == sb.size && Mapped(g, n, g.ip[n].size) && (n != s.n ==> OnDisk(sb, g, n))
  {
    hide Word, Bit, Used, GetInode, Balloced, Addr, Store, Allocated;
    AllocatedInodes(sb, f, s, b);
    AllocatedOwn(sb, f, s, b);
    InodeBlockRange(sb, n);
    AllocatedBlocks(sb, f, s, b, sb.InodeBlock(n));
    var g := Allocated(sb, f, s, b);
    forall bn: nat | bn * BSIZE < g.ip[n].size ensures BlockOf(g, n, bn) != 0 {
      assert BlockOf(f, n, bn) != 0;
    }
  }

  lemma AllocatedOk(sb: Super, f: Fs, s: Slot, b: nat)
    requires Own(sb, f, {}) && b < sb.size && !Used(sb, f, b) && SlotOk(f, s) && Addr(f, s) == 0 && FilesOk(sb, f, {s.n})
    ensures sb.Data(b)
    ensures var g := Allocated(sb, f, s, b);
      && Own(sb, g, {}) && FilesOk(sb, g, {s.n})
      && (forall t {:trigger Addr(g, t)} :: Addr(g, t) == if t == s then b else Addr(f, t))
      && (forall m: nat, i: nat :: BlockOf(f, m, i / BSIZE) != 0 ==> ByteAt(g, m, i) == ByteAt(f, m, i))
      && (forall m :: m in f.ip && m != s.n ==> g.ip[m] == f.ip[m])
      && g.ip[s.n] == f.ip[s.n].(addrs := g.ip[s.n].addrs)
  {
    hide Word, Bit, Used, GetInode, Balloced, Addr, Store, Allocated, Mapped, OnDisk, ByteAt, BlockOf;
    AllocatedInodes(sb, f, s, b);
    AllocatedOwn(sb, f, s, b);
    BallocedOk(sb, f, b);
    var g := Allocated(sb, f, s, b);
    forall m: nat, i: nat | BlockOf(f, m, i / BSIZE) != 0 ensures ByteAt(g, m, i) == ByteAt(f, m, i) {
      AllocatedBytes(sb, f, s, b, m, i);
    }
    forall n | n in g.ip ensures n < sb.ninodes && Mapped(g, n, g.ip[n].size) && (n != s.n ==> OnDisk(sb, g, n)) {
      AllocatedFile(sb, f, s, b, n);
    }
  }

  /** iupdate. */
  function Iupdated(sb: Super, f: Fs, n: nat): (g: Fs)
    requires sb.Ok() && |f.blk| == sb.size && n < sb.ninodes && n in f.ip && f.ip[n].Ok()
    ensures |g.blk| == |f.blk| && g.ip == f.ip && g.owner == f.owner
  {
    InodeBlockRange(sb, n);
    f.(blk := f.blk[sb.InodeBlock(n) := PutInode(f.blk[sb.InodeBlock(n)], n % IPB, f.ip[n])])
  }

  lemma IupdatedOk(sb: Super, f: Fs, n: nat)
    requires Own(sb, f, {}) && n in f.ip && FilesOk(sb, f, {n})
    ensures Good(sb, Iupdated(sb, f, n)) && SameAddrs(f, Iupdated(sb, f, n))
    ensures forall m: nat, i: nat :: ByteAt(Iupdated(sb, f, n), m, i) == ByteAt(f, m, i)
  {
    hide Word; hide Bit; hide Used; hide GetInode; hide PutInode;
    var g := Iupdated(sb, f, n);
    InodeBlockRange(sb, n);
    BlkFrame(sb, f, g, {});
    forall m: nat, i: nat ensures ByteAt(g, m, i) == ByteAt(f, m, i) {
      var t := SlotOf(m, i / BSIZE);
      assert Addr(g, t) == Addr(f, t);
    }
    forall m | m in f.ip ensures Mapped(g, m, g.ip[m].size) && OnDisk(sb, g, m) {
      InodeBlockRange(sb, m);
      assert m == m / IPB * IPB + m % IPB && n == n / IPB * IPB + n % IPB;
      PutInodeOther(f.blk[sb.InodeBlock(n)], n % IPB, f.ip[n], m % IPB);
      forall bn: nat | bn * BSIZE < f.ip[m].size ensures BlockOf(g, m, bn) != 0 {
        assert BlockOf(f, m, bn) != 0;
      }
    }
  }

  lemma PutInodeOther(b: Block, k: nat, x: Inode, j: nat)
    requires k < IPB && j < IPB && x.Ok()
    ensures GetInode(PutInode(b, k, x), j) == if j == k then x else GetInode(b, j)
  {
  }
}
