// fs.c and file.c: block allocation, block mapping, reading, writing and
// truncating files. `blk` is the buffer cache's view of every block: a read is
// bread, a change is a modification under the buffer lock followed by log_write.
module FsFile {
  import opened Blocks
  import opened FsLayout
  import opened FsState
  import opened LogSpec

  datatype Option<+T> = None | Some(value: T)

  const T_DEV: nat := 3

  /** From f to g only inode n's address array, and blocks no file used, have changed. */
  ghost predicate Grows(f: Fs, g: Fs, n: nat) {
    && n in f.ip && g.ip.Keys == f.ip.Keys
    && (forall m :: m in f.ip && m != n ==> g.ip[m] == f.ip[m])
    && g.ip[n] == f.ip[n].(addrs := g.ip[n].addrs)
    && (forall t {:trigger Addr(g, t)} :: Addr(f, t) != 0 ==> Addr(g, t) == Addr(f, t))
    && (forall m: nat, i: nat {:trigger ByteAt(g, m, i)} :: BlockOf(f, m, i / BSIZE) != 0 ==> ByteAt(g, m, i) == ByteAt(f, m, i))
  }

  /** Every block that changed has been passed to log_write. */
  ghost predicate Noted(b0: seq<Block>, l0: set<nat>, b: seq<Block>, l: set<nat>) {
    |b| == |b0| && l0 <= l && forall x: nat :: x < |b| && b[x] != b0[x] ==> x in l
  }

  lemma NotedNone(b: seq<Block>, l: set<nat>)
    ensures Noted(b, l, b, l)
  {
  }

  lemma NotedMore(b0: seq<Block>, l0: set<nat>, b: seq<Block>, l: set<nat>)
    requires Noted(b0, l0, b, l)
    ensures l0 <= l
  {
  }

  lemma NotedTwice(b0: seq<Block>, l0: set<nat>, b1: seq<Block>, l1: set<nat>, b2: seq<Block>, l2: set<nat>)
    requires Noted(b0, l0, b1, l1) && Noted(b1, l1, b2, l2)
    ensures Noted(b0, l0, b2, l2)
  {
  }

  /** The slots through which blocks [lo, hi) of inode n's file are found. */
  predicate Needs(t: Slot, n: nat, lo: nat, hi: nat) {
    t.n == n && match t
      case Direct(_, i) => lo <= i < hi
      case Indirect(_) => lo < hi && hi > NDIRECT
      case Entry(_, j) => lo <= NDIRECT + j < hi
  }

  /** No block was taken away, and none added but where these blocks of the file need it. */
  ghost predicate Filled(f: Fs, g: Fs, n: nat, lo: nat, hi: nat) {
    forall t {:trigger Addr(g, t)} {:trigger Addr(f, t)} :: Addr(f, t) != 0 || !Needs(t, n, lo, hi) ==> Addr(g, t) == Addr(f, t)
  }

  lemma FilledNone(f: Fs, n: nat, lo: nat, hi: nat)
    ensures Filled(f, f, n, lo, hi)
  {
  }

  lemma FilledTwice(f: Fs, g: Fs, h: Fs, n: nat, lo: nat, hi: nat, k: nat, m: nat)
    requires Filled(f, g, n, lo, hi) && Filled(g, h, n, k, m) && lo <= k && m <= hi
    ensures Filled(f, h, n, lo, hi)
  {
    hide Addr;
    forall t | Addr(f, t) != 0 || !Needs(t, n, lo, hi) ensures Addr(h, t) == Addr(f, t) {
      assert Addr(g, t) == Addr(f, t);
    }
  }

  lemma FilledSame(f: Fs, g: Fs, h: Fs, n: nat, lo: nat, hi: nat)
    requires Filled(f, g, n, lo, hi) && SameAddrs(g, h)
    ensures Filled(f, h, n, lo, hi)
  {
    hide Addr;
    forall t | Addr(f, t) != 0 || !Needs(t, n, lo, hi) ensures Addr(h, t) == Addr(f, t) {
      assert Addr(h, t) == Addr(g, t) == Addr(f, t);
    }
  }

  lemma FilledSlot(f: Fs, g: Fs, s: Slot, lo: nat, hi: nat)
    requires forall t {:trigger Addr(g, t)} :: t != s ==> Addr(g, t) == Addr(f, t)
    requires Addr(f, s) == 0 && Needs(s, s.n, lo, hi)
    ensures Filled(f, g, s.n, lo, hi)
  {
    hide Addr;
    forall t | Addr(f, t) != 0 || !Needs(t, s.n, lo, hi) ensures Addr(g, t) == Addr(f, t) {
      assert t != s;
    }
  }

  /** Blocks up to the one that holds byte to - 1. */
  function BlockEnd(to: nat): nat { (to + BSIZE - 1) / BSIZE }

  /** Some block that len bytes at off lie in has no address. */
  ghost predicate Hole(f: Fs, n: nat, off: nat, len: nat) {
    exists bn: nat {:trigger BlockOf(f, n, bn)} :: off / BSIZE <= bn && bn * BSIZE < off + len && BlockOf(f, n, bn) == 0
  }

  /** The bytes of a file that lie below its size are all there. */
  lemma NoHole(sb: Super, f: Fs, n: nat, off: nat, len: nat)
    requires Good(sb, f) && n in f.ip && off + len <= f.ip[n].size
    ensures !Hole(f, n, off, len)
  {
    hide Own, BlockOf;
    forall bn: nat | off / BSIZE <= bn && bn * BSIZE < off + len ensures BlockOf(f, n, bn) != 0 {
      MappedBlock(sb, f, n, bn);
    }
  }

  /** What is missing for a part of the range, after some of it was filled, was missing before for all of it. */
  lemma HoleBefore(f: Fs, g: Fs, n: nat, lo: nat, hi: nat, off: nat, len: nat, at: nat, m: nat)
    requires Filled(f, g, n, lo, hi) && Hole(g, n, at, m) && off <= at && at + m <= off + len
    ensures Hole(f, n, off, len)
  {
    hide Addr;
    var bn: nat :| at / BSIZE <= bn && bn * BSIZE < at + m && BlockOf(g, n, bn) == 0;
    assert off / BSIZE <= at / BSIZE;
    assert BlockOf(f, n, bn) == 0 by {
      assert Addr(f, SlotOf(n, bn)) == 0 || Addr(g, SlotOf(n, bn)) == Addr(f, SlotOf(n, bn));
    }
  }

  lemma InRange(off: nat, len: nat, at: nat)
    requires off <= at < off + len
    ensures off / BSIZE <= at / BSIZE && at / BSIZE + 1 <= BlockEnd(off + len)
  {
  }

  lemma HoleHere(f: Fs, n: nat, at: nat, m: nat)
    requires BlockOf(f, n, at / BSIZE) == 0 && m > 0
    ensures Hole(f, n, at, m)
  {
    assert at / BSIZE * BSIZE <= at;
  }

  /** Of tot bytes at off, the data block of each is in l. */
  ghost predicate Journaled(f: Fs, n: nat, off: nat, tot: nat, l: set<nat>) {
    forall i: nat {:trigger BlockOf(f, n, i / BSIZE)} :: off <= i < off + tot ==> BlockOf(f, n, i / BSIZE) in l
  }

  lemma JournaledNone(f: Fs, n: nat, off: nat, l: set<nat>)
    ensures Journaled(f, n, off, 0, l)
  {
  }

  lemma JournaledStep(f: Fs, g: Fs, w: Fs, n: nat, lo: nat, hi: nat, off: nat, src: seq<byte>, tot: nat, m: nat, l: set<nat>, l': set<nat>)
    requires tot <= |src| && Written(f, g, n, off, src, tot) && Journaled(g, n, off, tot, l)
    requires Filled(g, w, n, lo, hi) && l <= l' && (off + tot) % BSIZE + m <= BSIZE
    requires BlockOf(w, n, (off + tot) / BSIZE) in l'
    ensures Journaled(w, n, off, tot + m, l')
  {
    hide Addr, ByteAt;
    forall i: nat | off <= i < off + tot + m ensures BlockOf(w, n, i / BSIZE) in l' {
      if i < off + tot {
        assert BlockOf(g, n, i / BSIZE) != 0 by { assert ByteAt(g, n, i) == src[i - off]; }
        assert Addr(w, SlotOf(n, i / BSIZE)) == Addr(g, SlotOf(n, i / BSIZE));
      } else {
        SameBlock(off + tot, i - off - tot);
      }
    }
  }

  lemma JournaledSame(g: Fs, h: Fs, n: nat, off: nat, tot: nat, l: set<nat>, l': set<nat>)
    requires Journaled(g, n, off, tot, l) && SameAddrs(g, h) && l <= l'
    ensures Journaled(h, n, off, tot, l')
  {
    hide Addr;
    forall i: nat | off <= i < off + tot ensures BlockOf(h, n, i / BSIZE) in l' {
      assert Addr(h, SlotOf(n, i / BSIZE)) == Addr(g, SlotOf(n, i / BSIZE));
      assert BlockOf(g, n, i / BSIZE) in l;
    }
  }

  /** After mapping and patching one block. */
  lemma FilledStep(sb: Super, f: Fs, g: Fs, h: Fs, n: nat, lo: nat, hi: nat, at: nat, x: Block, busy: set<nat>)
    requires Filled(f, g, n, lo, hi) && Filled(g, h, n, at / BSIZE, at / BSIZE + 1) && lo <= at / BSIZE && at / BSIZE + 1 <= hi
    requires Own(sb, h, {}) && FilesOk(sb, h, busy) && BlockOf(h, n, at / BSIZE) != 0
    ensures BlockOf(h, n, at / BSIZE) < |h.blk|
    ensures var w := h.(blk := h.blk[BlockOf(h, n, at / BSIZE) := x]);
      Filled(f, w, n, lo, hi) && Filled(g, w, n, at / BSIZE, at / BSIZE + 1) && BlockOf(w, n, at / BSIZE) == BlockOf(h, n, at / BSIZE)
  {
    hide Own, FilesOk, Addr, ByteAt;
    WriteBlockOk(sb, h, SlotOf(n, at / BSIZE), x, busy);
    var w := h.(blk := h.blk[BlockOf(h, n, at / BSIZE) := x]);
    FilledSame(g, h, w, n, at / BSIZE, at / BSIZE + 1);
    FilledTwice(f, g, w, n, lo, hi, at / BSIZE, at / BSIZE + 1);
    assert Addr(w, SlotOf(n, at / BSIZE)) == Addr(h, SlotOf(n, at / BSIZE));
  }

  lemma GrowsTwice(f: Fs, g: Fs, h: Fs, n: nat)
    requires Grows(f, g, n) && Grows(g, h, n)
    ensures Grows(f, h, n)
  {
    forall m: nat, i: nat | BlockOf(f, m, i / BSIZE) != 0 ensures ByteAt(h, m, i) == ByteAt(f, m, i) {
      assert BlockOf(g, m, i / BSIZE) == BlockOf(f, m, i / BSIZE);
      assert ByteAt(g, m, i) == ByteAt(f, m, i);
    }
    forall t | Addr(f, t) != 0 ensures Addr(h, t) == Addr(f, t) {
      assert Addr(g, t) == Addr(f, t);
    }
  }

  /** The slot in position i of an inode's address array. */
  function AddrSlot(n: nat, i: nat): Slot {
    if i < NDIRECT then Direct(n, i) else Indirect(n)
  }

  lemma GrowsNot(f: Fs, n: nat)
    requires n in f.ip
    ensures Grows(f, f, n)
  {
  }

  /** m bytes at offset off inside one block of the file. */
  lemma BlockSlice(f: Fs, n: nat, off: nat, m: nat)
    requires n in f.ip && off % BSIZE + m <= BSIZE && off + m <= f.ip[n].size && 0 < BlockOf(f, n, off / BSIZE) < |f.blk|
    ensures f.blk[BlockOf(f, n, off / BSIZE)][off % BSIZE..off % BSIZE + m] == FileBytes(f, n)[off..off + m]
  {
    var x, y := f.blk[BlockOf(f, n, off / BSIZE)][off % BSIZE..off % BSIZE + m], FileBytes(f, n)[off..off + m];
    forall k | 0 <= k < m ensures x[k] == y[k] {
      SameBlock(off, k);
    }
  }

  lemma JoinSlices(s: seq<byte>, a: nat, b: nat, c: nat)
    requires a <= b <= c <= |s|
    ensures s[a..b] + s[b..c] == s[a..c]
  {
  }

  lemma SameBlock(off: nat, k: nat)
    requires off % BSIZE + k < BSIZE
    ensures (off + k) / BSIZE == off / BSIZE && (off + k) % BSIZE == off % BSIZE + k
  {
  }

  function Min(a: nat, b: nat): nat { if a < b then a else b }

  /** s with src written over it at offset off. */
  function Splice(s: seq<byte>, off: nat, src: seq<byte>): seq<byte>
    requires off <= |s|
  {
    s[..off] + src + (if off + |src| < |s| then s[off + |src|..] else [])
  }

  /** Between f and g the first `tot` bytes of src have gone into inode n's file at off, and no other file byte changed. */
  ghost predicate Written(f: Fs, g: Fs, n: nat, off: nat, src: seq<byte>, tot: nat)
    requires tot <= |src|
  {
    && n in f.ip && g.ip.Keys == f.ip.Keys
    && (forall m :: m in f.ip && m != n ==> g.ip[m] == f.ip[m])
    && g.ip[n] == f.ip[n].(addrs := g.ip[n].addrs)
    && (forall t {:trigger Addr(g, t)} :: Addr(f, t) != 0 ==> Addr(g, t) == Addr(f, t))
    && (forall i: nat {:trigger ByteAt(g, n, i)} :: off <= i < off + tot ==>
          BlockOf(g, n, i / BSIZE) != 0 && ByteAt(g, n, i) == src[i - off])
    && (forall m: nat, i: nat {:trigger ByteAt(g, m, i)} ::
          BlockOf(f, m, i / BSIZE) != 0 && !(m == n && off <= i < off + tot) ==> ByteAt(g, m, i) == ByteAt(f, m, i))
  }

  /** Block bn of the file with m bytes of src in it. */
  function Patched(b: Block, at: nat, s: seq<byte>): (r: Block)
    requires at + |s| <= BSIZE
    ensures forall k :: 0 <= k < BSIZE ==> r[k] == if at <= k < at + |s| then s[k - at] else b[k]
  {
    b[..at] + s + b[at + |s|..]
  }

  lemma WrittenStep(sb: Super, f: Fs, g: Fs, h: Fs, n: nat, off: nat, src: seq<byte>, tot: nat, m: nat, busy: set<nat>)
    requires tot + m <= |src| && m > 0 && (off + tot) % BSIZE + m <= BSIZE
    requires Written(f, g, n, off, src, tot) && Grows(g, h, n) && Own(sb, h, {}) && FilesOk(sb, h, busy)
    requires 0 < BlockOf(h, n, (off + tot) / BSIZE) < |h.blk|
    ensures var a := BlockOf(h, n, (off + tot) / BSIZE);
      var w := h.(blk := h.blk[a := Patched(h.blk[a], (off + tot) % BSIZE, src[tot..tot + m])]);
      Own(sb, w, {}) && FilesOk(sb, w, busy) && Written(f, w, n, off, src, tot + m)
  {
    hide Own; hide FilesOk; hide Word; hide Addr;
    var at := off + tot;
    var s := SlotOf(n, at / BSIZE);
    var a := Addr(h, s);
    var x := Patched(h.blk[a], at % BSIZE, src[tot..tot + m]);
    WriteBlockOk(sb, h, s, x, busy);
    var w := h.(blk := h.blk[a := x]);
    forall t | Addr(f, t) != 0 ensures Addr(w, t) == Addr(f, t) {
      assert Addr(g, t) == Addr(f, t) && Addr(h, t) == Addr(g, t);
    }
    forall i: nat | off <= i < off + tot + m ensures BlockOf(w, n, i / BSIZE) != 0 && ByteAt(w, n, i) == src[i - off] {
      if i < at {
        assert ByteAt(g, n, i) == src[i - off] && BlockOf(g, n, i / BSIZE) != 0;
        assert ByteAt(h, n, i) == ByteAt(g, n, i);
        OtherByte(at, m, i);
      } else {
        SameBlock(at, i - at);
      }
    }
    forall k: nat, i: nat | BlockOf(f, k, i / BSIZE) != 0 && !(k == n && off <= i < off + tot + m)
      ensures ByteAt(w, k, i) == ByteAt(f, k, i)
    {
      assert Addr(g, SlotOf(k, i / BSIZE)) == Addr(f, SlotOf(k, i / BSIZE));
      assert ByteAt(g, k, i) == ByteAt(f, k, i);
      assert ByteAt(h, k, i) == ByteAt(g, k, i);
      if k == n { OtherByte(at, m, i); }
    }
  }

  /** A byte of the same block outside [at, at+m) is outside the patched part of the block. */
  lemma OtherByte(at: nat, m: nat, i: nat)
    requires at % BSIZE + m <= BSIZE && !(at <= i < at + m)
    ensures i / BSIZE == at / BSIZE ==> !(at % BSIZE <= i % BSIZE < at % BSIZE + m)
  {
  }

  /** Inode n changed, but for its block addresses. */
  function Restated(f: Fs, n: nat, d: Inode): Fs
    requires n in f.ip
  {
    f.(ip := f.ip[n := d])
  }

  function Resized(f: Fs, n: nat, size: nat): Fs
    requires n in f.ip
  {
    Restated(f, n, f.ip[n].(size := size))
  }

  lemma RestatedOwn(sb: Super, f: Fs, n: nat, d: Inode)
    requires Own(sb, f, {}) && n in f.ip && d.Ok() && d.addrs == f.ip[n].addrs
    ensures Own(sb, Restated(f, n, d), {}) && SameAddrs(f, Restated(f, n, d))
    ensures forall m: nat, i: nat :: ByteAt(Restated(f, n, d), m, i) == ByteAt(f, m, i)
  {
    hide Word; hide Bit; hide Used;
    var g := Restated(f, n, d);
    forall s ensures Addr(g, s) == Addr(f, s) {}
    SameMapUsed(sb, f, g);
    forall m: nat, i: nat ensures ByteAt(g, m, i) == ByteAt(f, m, i) {
      assert Addr(g, SlotOf(m, i / BSIZE)) == Addr(f, SlotOf(m, i / BSIZE));
    }
  }

  /** A changed inode whose blocks reach as far as its size. */
  lemma RestatedOk(sb: Super, f: Fs, n: nat, d: Inode)
    requires Own(sb, f, {}) && n in f.ip && FilesOk(sb, f, {n}) && d.Ok() && d.addrs == f.ip[n].addrs && Mapped(f, n, d.size)
    ensures Own(sb, Restated(f, n, d), {}) && FilesOk(sb, Restated(f, n, d), {n})
    ensures forall m: nat, i: nat :: ByteAt(Restated(f, n, d), m, i) == ByteAt(f, m, i)
    ensures SameAddrs(f, Restated(f, n, d))
  {
    hide Word; hide GetInode; hide Own; hide Addr;
    RestatedOwn(sb, f, n, d);
    var g := Restated(f, n, d);
    forall m | m in g.ip ensures Mapped(g, m, g.ip[m].size) && (m !in {n} ==> OnDisk(sb, g, m)) {
      forall bn: nat | bn * BSIZE < g.ip[m].size ensures BlockOf(g, m, bn) != 0 {
        assert Addr(g, SlotOf(m, bn)) == Addr(f, SlotOf(m, bn));
        assert BlockOf(f, m, bn) != 0;
      }
    }
  }

  /** What has been written is mapped, and so is what was there before. */
  lemma WrittenMapped(sb: Super, f: Fs, g: Fs, n: nat, off: nat, src: seq<byte>)
    requires Good(sb, f)
    requires Written(f, g, n, off, src, |src|) && off <= f.ip[n].size && off + |src| <= MAXFILE * BSIZE
    ensures Mapped(g, n, off + |src|)
  {
    forall bn: nat | bn * BSIZE < off + |src| ensures BlockOf(g, n, bn) != 0 {
      if bn * BSIZE < f.ip[n].size {
        assert BlockOf(f, n, bn) != 0;
      } else {
        assert bn * BSIZE / BSIZE == bn;
        assert ByteAt(g, n, bn * BSIZE) == src[bn * BSIZE - off];
      }
    }
  }

  lemma FilesWeaken(sb: Super, f: Fs, n: nat)
    requires Good(sb, f)
    ensures FilesOk(sb, f, {n})
  {
  }

  /** A 16-bit count, one less. */
  function OneLess(links: nat): nat { (links + 0xFFFF) % 0x1_0000 }

  lemma InodeOk(sb: Super, f: Fs, n: nat)
    requires Good(sb, f) && n in f.ip
    ensures f.ip[n].Ok() && Mapped(f, n, f.ip[n].size)
  {
  }

  lemma MappedSize(sb: Super, f: Fs, n: nat)
    requires Good(sb, f) && n in f.ip
    ensures f.ip[n].size <= MAXFILE * BSIZE
  {
  }

  lemma MappedByte(sb: Super, f: Fs, n: nat, i: nat, busy: set<nat>)
    requires Own(sb, f, {}) && FilesOk(sb, f, busy) && n in f.ip && i < f.ip[n].size
    ensures 0 < BlockOf(f, n, i / BSIZE) < |f.blk|
  {
    assert i / BSIZE * BSIZE <= i;
  }

  lemma WrittenByte(sb: Super, f: Fs, g: Fs, n: nat, off: nat, src: seq<byte>, m: nat, i: nat)
    requires Good(sb, f) && Written(f, g, n, off, src, |src|) && m in f.ip
    requires i < f.ip[m].size || (m == n && off <= i < off + |src|)
    ensures ByteAt(g, m, i) == if m == n && off <= i < off + |src| then src[i - off] else ByteAt(f, m, i)
  {
    hide Own; hide FilesOk; hide ByteAt;
    if !(m == n && off <= i < off + |src|) {
      MappedByte(sb, f, m, i, {});
    }
  }

  /** The finished write, as flat bytes: inode n's file is spliced, every other file is as it was. */
  lemma WrittenBytes(sb: Super, f: Fs, g: Fs, h: Fs, n: nat, off: nat, src: seq<byte>, m: nat)
    requires Good(sb, f) && Written(f, g, n, off, src, |src|) && m in f.ip && off <= f.ip[n].size
    requires h.ip.Keys == f.ip.Keys && h.ip[m].size == (if m == n && off + |src| > f.ip[n].size then off + |src| else f.ip[m].size)
    requires forall i: nat :: ByteAt(h, m, i) == ByteAt(g, m, i)
    ensures FileBytes(h, m) == if m == n then Splice(FileBytes(f, n), off, src) else FileBytes(f, m)
  {
    hide Own; hide FilesOk; hide ByteAt; hide BlockOf; hide Written; hide Good;
    var x := FileBytes(h, m);
    var y := if m == n then Splice(FileBytes(f, n), off, src) else FileBytes(f, m);
    forall i | 0 <= i < |x| ensures x[i] == y[i] {
      WrittenByte(sb, f, g, n, off, src, m, i);
    }
  }

  /** Blocks of the file that bytes [off, off+n) lie in. */
  function Span(off: nat, n: nat): nat {
    if n == 0 then 0 else (off + n - 1) / BSIZE - off / BSIZE + 1
  }

  lemma NextBlock(off: nat, tot: nat, m: nat)
    requires m > 0 && (off + tot) % BSIZE + m <= BSIZE && (tot == 0 || (off + tot) % BSIZE == 0)
    ensures Span(off, tot + m) == Span(off, tot) + 1
  {
  }

  /** The log blocks a write of n bytes at off may need: data, free-map, indirect and inode blocks. */
  function LogCost(off: nat, n: nat): nat {
    if n == 0 then 0 else 2 * Span(off, n) - (if off % BSIZE != 0 then 1 else 0) + 3
  }

  function IndirectSet(f: Fs, n: nat): set<nat> {
    if InodeAddr(f, n, NDIRECT) == 0 then {} else {InodeAddr(f, n, NDIRECT)}
  }

  lemma EntryNeedsIndirect(f: Fs, n: nat, bn: nat)
    requires BlockOf(f, n, bn) != 0 && bn >= NDIRECT
    ensures InodeAddr(f, n, NDIRECT) != 0
  {
  }

  lemma WrittenNothing(f: Fs, n: nat, off: nat, src: seq<byte>)
    requires n in f.ip
    ensures Written(f, f, n, off, src, 0)
  {
  }

  lemma MappedBlock(sb: Super, f: Fs, n: nat, bn: nat)
    requires Good(sb, f) && n in f.ip && bn * BSIZE < f.ip[n].size
    ensures BlockOf(f, n, bn) != 0
  {
    hide Own;
  }

  lemma KeptBlock(f: Fs, g: Fs, n: nat, off: nat, src: seq<byte>, tot: nat, bn: nat)
    requires tot <= |src| && Written(f, g, n, off, src, tot) && BlockOf(f, n, bn) != 0
    ensures BlockOf(g, n, bn) == BlockOf(f, n, bn)
  {
    assert Addr(g, SlotOf(n, bn)) == Addr(f, SlotOf(n, bn));
  }

  /** Bytes below the old size, and the block that holds an unaligned start, need no allocation. */
  lemma MappedPart(sb: Super, f: Fs, g: Fs, n: nat, off: nat, src: seq<byte>, tot: nat, at: nat)
    requires Good(sb, f) && n in f.ip && off <= f.ip[n].size && tot < |src| && at == off + tot && Written(f, g, n, off, src, tot)
    requires off + |src| <= MAXFILE * BSIZE
    ensures at / BSIZE < MAXFILE
    ensures at < f.ip[n].size || (tot == 0 && off % BSIZE != 0) ==> BlockOf(g, n, at / BSIZE) != 0
  {
    hide Own, FilesOk, Written, Good, BlockOf, Addr, ByteAt;
    if at < f.ip[n].size || (tot == 0 && off % BSIZE != 0) {
      assert at / BSIZE * BSIZE < f.ip[n].size;
      MappedBlock(sb, f, n, at / BSIZE);
      KeptBlock(f, g, n, off, src, tot, at / BSIZE);
    }
  }

  lemma GrownIndirect(f: Fs, g: Fs, h: Fs, w: Fs, n: nat, off: nat, src: seq<byte>, tot: nat)
    requires tot <= |src| && Written(f, g, n, off, src, tot) && Grows(g, h, n) && w.ip == h.ip
    ensures NewIndirect(f, w, n) == NewIndirect(f, g, n) + NewIndirect(g, h, n)
    ensures w.ip.Keys == f.ip.Keys
    ensures IndirectSet(g, n) <= IndirectSet(w, n) && IndirectSet(h, n) == IndirectSet(w, n)
  {
    assert Addr(g, Indirect(n)) == InodeAddr(g, n, NDIRECT) && Addr(f, Indirect(n)) == InodeAddr(f, n, NDIRECT);
    assert Addr(h, Indirect(n)) == InodeAddr(h, n, NDIRECT) == InodeAddr(w, n, NDIRECT);
  }

  lemma FirstBlock(off: nat, tot: nat, m: nat)
    requires m > 0 && (off + tot) % BSIZE + m <= BSIZE
    ensures tot == 0 ==> Span(off, tot) == 0
    ensures tot > 0 ==> Span(off, tot) >= 1
  {
  }

  lemma WrittenInode(f: Fs, g: Fs, n: nat, off: nat, src: seq<byte>)
    requires Written(f, g, n, off, src, |src|)
    ensures g.ip.Keys == f.ip.Keys && g.ip[n] == f.ip[n].(addrs := g.ip[n].addrs)
    ensures forall m :: m in f.ip && m != n ==> g.ip[m] == f.ip[m]
  {
  }

  /** From the written blocks g to the end state h only the size of inode n may have changed. */
  lemma WrittenEnd(sb: Super, f: Fs, g: Fs, h: Fs, n: nat, off: nat, src: seq<byte>)
    requires Good(sb, f) && n in f.ip && Written(f, g, n, off, src, |src|) && off <= f.ip[n].size
    requires h.ip.Keys == f.ip.Keys && h.ip[n].size == if off + |src| > f.ip[n].size then off + |src| else f.ip[n].size
    requires forall m :: m in f.ip && m != n ==> h.ip[m] == f.ip[m]
    requires forall m: nat, i: nat :: ByteAt(h, m, i) == ByteAt(g, m, i)
    ensures FileBytes(h, n) == Splice(FileBytes(f, n), off, src)
    ensures forall m :: m in f.ip && m != n ==> FileBytes(h, m) == FileBytes(f, m)
  {
    hide Own; hide FilesOk; hide ByteAt; hide Written;
    forall m | m in f.ip ensures FileBytes(h, m) == if m == n then Splice(FileBytes(f, n), off, src) else FileBytes(f, m) {
      WrittenBytes(sb, f, g, h, n, off, src, m);
    }
  }

  /** The log blocks used by `tot` bytes written at off, by kind. */
  ghost predicate Tally(f: Fs, g: Fs, n: nat, off: nat, tot: nat, l0: set<nat>, l: set<nat>, data: set<nat>, maps: set<nat>) {
    && l <= l0 + data + maps + IndirectSet(g, n)
    && |data| <= Span(off, tot)
    && |maps| <= Span(off, tot) - (if off % BSIZE != 0 && tot > 0 then 1 else 0) + NewIndirect(f, g, n)
  }

  lemma TallyNothing(f: Fs, n: nat, off: nat, l: set<nat>)
    ensures Tally(f, f, n, off, 0, l, l, {}, {})
  {
  }

  lemma TallyStep(f: Fs, g: Fs, h: Fs, w: Fs, n: nat, off: nat, tot: nat, m: nat, l0: set<nat>, l: set<nat>, l': set<nat>,
                  data: set<nat>, maps: set<nat>, a: nat, bm: set<nat>)
    requires m > 0 && (off + tot) % BSIZE + m <= BSIZE && (tot == 0 || (off + tot) % BSIZE == 0)
    requires Tally(f, g, n, off, tot, l0, l, data, maps)
    requires NewIndirect(f, w, n) == NewIndirect(f, g, n) + NewIndirect(g, h, n)
    requires IndirectSet(g, n) <= IndirectSet(w, n) && IndirectSet(h, n) == IndirectSet(w, n)
    requires l' <= l + bm + IndirectSet(h, n) + {a}
    requires |bm| <= (if tot == 0 && off % BSIZE != 0 then 0 else 1) + NewIndirect(g, h, n)
    ensures Tally(f, w, n, off, tot + m, l0, l', data + {a}, maps + bm)
  {
    hide IndirectSet; hide NewIndirect;
    NextBlock(off, tot, m);
    FirstBlock(off, tot, m);
    UnionSize(maps, bm);
    UnionSize(data, {a});
  }

  lemma UnionSize(x: set<nat>, y: set<nat>)
    ensures |x + y| <= |x| + |y|
  {
  }

  lemma CostBound(f: Fs, g: Fs, n: nat, off: nat, len: nat, data: nat, maps: nat)
    requires data <= Span(off, len)
    requires maps <= Span(off, len) - (if off % BSIZE != 0 && len > 0 then 1 else 0) + NewIndirect(f, g, n)
    ensures len > 0 ==> data + maps + |IndirectSet(g, n)| + 1 <= LogCost(off, len)
    ensures len == 0 ==> data + maps <= NewIndirect(f, g, n)
  {
  }

  lemma Subadditive(x: set<nat>, a: set<nat>, b: set<nat>, c: set<nat>, d: set<nat>)
    requires x <= a + b + c + d
    ensures |x| <= |a| + |b| + |c| + |d|
  {
    Cover(x, a + b + c + d);
  }

  lemma {:induction false} Cover(x: set<nat>, y: set<nat>)
    requires x <= y
    ensures |x| <= |y|
  {
    if x != {} {
      var e :| e in x;
      Cover(x - {e}, y - {e});
    }
  }

  // ----- truncation

  /** From f to g only inode n's address array and the free map have changed. */
  ghost predicate MapOnly(sb: Super, f: Fs, g: Fs, n: nat) {
    && sb.Ok() && |f.blk| == |g.blk| == sb.size && n in f.ip && g.ip.Keys == f.ip.Keys
    && (forall b: nat :: b < sb.size && !(sb.bmapstart <= b < sb.datastart) ==> g.blk[b] == f.blk[b])
    && (forall m :: m in f.ip && m != n ==> g.ip[m] == f.ip[m])
    && g.ip[n] == f.ip[n].(addrs := g.ip[n].addrs)
  }

  /** Slots gone after the first i direct blocks are freed (all of inode n's slots for i > NDIRECT). */
  predicate Gone(t: Slot, n: nat, i: nat) {
    t.n == n && (i > NDIRECT || (t.Direct? && t.i < i))
  }

  /** Inode n's file with the slots up to i freed: those slots are empty, all others unchanged, and all blocks accounted for. */
  ghost predicate Truncating(sb: Super, f: Fs, g: Fs, n: nat, i: nat) {
    && MapOnly(sb, f, g, n) && Own(sb, g, {})
    && (forall t {:trigger Addr(g, t)} :: Addr(g, t) == if Gone(t, n, i) then 0 else Addr(f, t))
    && (forall b {:trigger b in g.owner} :: b in g.owner <==> b in f.owner && !Gone(f.owner[b], n, i))
    && (forall b {:trigger b in g.owner} :: b in g.owner ==> g.owner[b] == f.owner[b])
  }

  /** The pending blocks of the indirect block while entries from j on are still to be freed. */
  function Remaining(f: Fs, n: nat, j: nat): set<nat> {
    set b | b in f.owner && f.owner[b].n == n && (f.owner[b].Indirect? || (f.owner[b].Entry? && f.owner[b].j >= j))
  }

  /** Freeing the block in a direct slot. */
  lemma FreeSlot(sb: Super, g: Fs, n: nat, i: nat)
    requires Own(sb, g, {}) && i < NDIRECT && Addr(g, Direct(n, i)) != 0
    ensures var s := Direct(n, i); var a := Addr(g, s);
      && a < sb.size && Used(sb, g, a) && SlotOk(g, s) && |g.ip[n].addrs| == NDIRECT + 1
      && var h := Mark(sb, Emptied(g, s), a, false);
      && Own(sb, h, {})
      && (forall t {:trigger Addr(h, t)} :: Addr(h, t) == if t == s then 0 else Addr(g, t))
      && (forall b {:trigger b in h.owner} :: b in h.owner <==> b in g.owner && g.owner[b] != s)
      && (forall b {:trigger b in h.owner} :: b in h.owner ==> h.owner[b] == g.owner[b])
      && MapOnly(sb, g, h, n)
  {
    hide Word; hide Bit;
    var s := Direct(n, i);
    var a := Addr(g, s);
    EmptyOk(sb, g, s);
    var e := Emptied(g, s);
    assert Released(g, s) == {a};
    MarkOk(sb, e, {a}, a, false);
    assert {a} - {a} == {};
    MapBlockRange(sb, a);
    var h := Mark(sb, e, a, false);
    forall t ensures Addr(h, t) == if t == s then 0 else Addr(g, t) {
      assert Addr(h, t) == Addr(e, t);
    }
  }

  lemma FreeDirect(sb: Super, f: Fs, g: Fs, n: nat, i: nat)
    requires Truncating(sb, f, g, n, i) && i < NDIRECT
    ensures Addr(g, Direct(n, i)) == 0 ==> Truncating(sb, f, g, n, i + 1)
    ensures var a := Addr(g, Direct(n, i)); a != 0 ==>
      && a < sb.size && Used(sb, g, a) && SlotOk(g, Direct(n, i))
      && Truncating(sb, f, Mark(sb, Emptied(g, Direct(n, i)), a, false), n, i + 1)
  {
    hide Own; hide Addr; hide Mark; hide Emptied; hide Used;
    var s := Direct(n, i);
    OwnerAddr(sb, g);
    if Addr(g, s) != 0 {
      FreeSlot(sb, g, n, i);
      var h := Mark(sb, Emptied(g, s), Addr(g, s), false);
      forall t ensures Addr(h, t) == if Gone(t, n, i + 1) then 0 else Addr(f, t) {
        assert Addr(h, t) == if t == s then 0 else Addr(g, t);
        assert Addr(g, t) == if Gone(t, n, i) then 0 else Addr(f, t);
      }
      forall b ensures b in h.owner <==> b in f.owner && !Gone(f.owner[b], n, i + 1) {
        assert b in h.owner <==> b in g.owner && g.owner[b] != s;
        assert b in g.owner <==> b in f.owner && !Gone(f.owner[b], n, i);
      }
      forall b | b in h.owner ensures h.owner[b] == f.owner[b] {
        assert b in g.owner && h.owner[b] == g.owner[b];
      }
      assert MapOnly(sb, f, h, n);
    } else {
      forall t ensures Addr(g, t) == if Gone(t, n, i + 1) then 0 else Addr(f, t) {
        assert Addr(g, t) == if Gone(t, n, i) then 0 else Addr(f, t);
      }
      forall b ensures b in g.owner <==> b in f.owner && !Gone(f.owner[b], n, i + 1) {
        assert b in g.owner <==> b in f.owner && !Gone(f.owner[b], n, i);
      }
    }
  }

  lemma OwnerAddr(sb: Super, g: Fs)
    requires Own(sb, g, {})
    ensures forall b :: b in g.owner ==> b != 0 && Addr(g, g.owner[b]) == b
  {
  }

  /** While the indirect block's entries are freed: the emptied inode, with the free map as it now is. */
  ghost predicate FreeingIndirect(sb: Super, g: Fs, n: nat, blk: seq<Block>, j: nat) {
    && Own(sb, g, {}) && SlotOk(g, Indirect(n)) && Addr(g, Indirect(n)) != 0
    && |blk| == sb.size
    && (forall b: nat :: b < sb.size && !(sb.bmapstart <= b < sb.datastart) ==> blk[b] == g.blk[b])
    && var e := Emptied(g, Indirect(n)).(blk := blk);
       && Own(sb, e, Remaining(g, n, j))
       && (forall t {:trigger Addr(e, t)} :: Addr(e, t) == if Under(t, Indirect(n)) then 0 else Addr(g, t))
  }

  lemma StartIndirect(sb: Super, g: Fs, n: nat)
    requires Own(sb, g, {}) && (forall i :: 0 <= i < NDIRECT ==> Addr(g, Direct(n, i)) == 0) && Addr(g, Indirect(n)) != 0
    ensures FreeingIndirect(sb, g, n, g.blk, 0)
  {
    hide Word; hide Bit; hide Used;
    var s := Indirect(n);
    EmptyOk(sb, g, s);
    assert Emptied(g, s).(blk := g.blk) == Emptied(g, s);
    forall b ensures b in Released(g, s) <==> b in Remaining(g, n, 0) {
      if b in g.owner { assert Addr(g, g.owner[b]) == b; }
    }
  }

  /** One entry of the indirect block. */
  lemma FreeEntry(sb: Super, g: Fs, n: nat, blk: seq<Block>, j: nat)
    requires FreeingIndirect(sb, g, n, blk, j) && j < NINDIRECT
    ensures var a := Addr(g, Entry(n, j));
      && (a == 0 ==> FreeingIndirect(sb, g, n, blk, j + 1))
      && (a != 0 ==>
            && a < sb.size && Used(sb, g.(blk := blk), a)
            && FreeingIndirect(sb, g, n, Mark(sb, g.(blk := blk), a, false).blk, j + 1))
  {
    hide Word; hide Bit; hide Used; hide Addr; hide Emptied;
    var a := Addr(g, Entry(n, j));
    var e := Emptied(g, Indirect(n)).(blk := blk);
    RemainingStep(sb, g, n, j);
    if a != 0 {
      PendingUsed(sb, e, Remaining(g, n, j), a, g.(blk := blk));
      MarkOk(sb, e, Remaining(g, n, j), a, false);
      MapBlockRange(sb, a);
      var h := Mark(sb, e, a, false);
      var blk' := Mark(sb, g.(blk := blk), a, false).blk;
      assert h.blk == blk';
      assert h == Emptied(g, Indirect(n)).(blk := blk');
      forall t ensures Addr(h, t) == if Under(t, Indirect(n)) then 0 else Addr(g, t) {
        assert Addr(h, t) == Addr(e, t);
      }
    }
  }

  lemma PendingUsed(sb: Super, e: Fs, pend: set<nat>, a: nat, g: Fs)
    requires Own(sb, e, pend) && a in pend && g.blk == e.blk
    ensures sb.Data(a) && a !in e.owner && Used(sb, e, a) && Used(sb, g, a)
  {
  }

  lemma RemainingStep(sb: Super, g: Fs, n: nat, j: nat)
    requires Own(sb, g, {}) && j < NINDIRECT
    ensures var a := Addr(g, Entry(n, j));
      if a == 0 then Remaining(g, n, j + 1) == Remaining(g, n, j)
      else a in Remaining(g, n, j) && Remaining(g, n, j + 1) == Remaining(g, n, j) - {a}
  {
    hide Word; hide Bit; hide Used;
    var a := Addr(g, Entry(n, j));
    forall b | b in g.owner && g.owner[b] == Entry(n, j) ensures b == a && a != 0 {
      assert Addr(g, g.owner[b]) == b;
    }
  }

  lemma NoIndirect(sb: Super, f: Fs, g: Fs, n: nat)
    requires Truncating(sb, f, g, n, NDIRECT) && Addr(g, Indirect(n)) == 0
    ensures Truncating(sb, f, g, n, NDIRECT + 1)
  {
    hide Own; hide Word;
    OwnerAddr(sb, g);
    forall t ensures Addr(g, t) == if Gone(t, n, NDIRECT + 1) then 0 else Addr(f, t) {
      assert Addr(g, t) == if Gone(t, n, NDIRECT) then 0 else Addr(f, t);
      if t.n == n && t.Direct? && t.i >= NDIRECT { assert Addr(g, t) == 0; }
    }
  }

  /** Freeing the indirect block itself, its entries all freed. */
  lemma FinishIndirect(sb: Super, f: Fs, g: Fs, n: nat, blk: seq<Block>)
    requires Truncating(sb, f, g, n, NDIRECT) && FreeingIndirect(sb, g, n, blk, NINDIRECT)
    ensures var a := Addr(g, Indirect(n));
      && a < sb.size && Used(sb, g.(blk := blk), a)
      && Truncating(sb, f, Mark(sb, Emptied(g, Indirect(n)).(blk := blk), a, false), n, NDIRECT + 1)
  {
    hide Word; hide Bit; hide Used;
    var s := Indirect(n);
    var a := Addr(g, s);
    var e := Emptied(g, s).(blk := blk);
    LastRemaining(sb, g, n);
    PendingUsed(sb, e, {a}, a, g.(blk := blk));
    MarkOk(sb, e, {a}, a, false);
    assert {a} - {a} == {};
    MapBlockRange(sb, a);
    FinishedTruncating(sb, f, g, n, blk, Mark(sb, e, a, false));
  }

  lemma FinishedTruncating(sb: Super, f: Fs, g: Fs, n: nat, blk: seq<Block>, h: Fs)
    requires Truncating(sb, f, g, n, NDIRECT) && FreeingIndirect(sb, g, n, blk, NINDIRECT) && Own(sb, h, {})
    requires SameAddrs(Emptied(g, Indirect(n)).(blk := blk), h) && h == Emptied(g, Indirect(n)).(blk := h.blk) && |h.blk| == sb.size
    requires forall b: nat :: b < sb.size && !(sb.bmapstart <= b < sb.datastart) ==> h.blk[b] == blk[b]
    ensures Truncating(sb, f, h, n, NDIRECT + 1)
  {
    hide Own; hide Addr; hide Word;
    OwnFacts(sb, g, {}, n);
    OwnerAddr(sb, g);
    DirectRange(g, n);
    var e := Emptied(g, Indirect(n)).(blk := blk);
    var s := Indirect(n);
    forall t ensures Addr(h, t) == if Gone(t, n, NDIRECT + 1) then 0 else Addr(f, t) {
      assert Addr(h, t) == Addr(e, t) == if Under(t, s) then 0 else Addr(g, t);
      assert Addr(g, t) == if Gone(t, n, NDIRECT) then 0 else Addr(f, t);
    }
    forall b ensures b in h.owner <==> b in f.owner && !Gone(f.owner[b], n, NDIRECT + 1) {
      assert b in g.owner <==> b in f.owner && !Gone(f.owner[b], n, NDIRECT);
      assert b in h.owner <==> b in g.owner && !Under(g.owner[b], s);
      if b in g.owner {
        assert g.owner[b] == f.owner[b] && Addr(g, g.owner[b]) == b != 0;
      }
    }
    forall b | b in h.owner ensures h.owner[b] == f.owner[b] {
      assert b in g.owner && h.owner[b] == g.owner[b];
    }
    assert MapOnly(sb, f, h, n);
  }

  lemma DirectRange(g: Fs, n: nat)
    ensures forall t: Slot {:trigger Addr(g, t)} :: t.Direct? && t.i >= NDIRECT ==> Addr(g, t) == 0
  {
  }

  lemma LastRemaining(sb: Super, g: Fs, n: nat)
    requires Own(sb, g, {}) && Addr(g, Indirect(n)) != 0
    ensures Remaining(g, n, NINDIRECT) == {Addr(g, Indirect(n))}
  {
    hide Word; hide Bit; hide Used;
    forall b | b in g.owner && g.owner[b].n == n && (g.owner[b].Indirect? || (g.owner[b].Entry? && g.owner[b].j >= NINDIRECT))
      ensures b == Addr(g, Indirect(n))
    {
      assert Addr(g, g.owner[b]) == b;
    }
  }

  lemma TruncatingShape(sb: Super, f: Fs, g: Fs, n: nat, i: nat)
    requires Truncating(sb, f, g, n, i)
    ensures n in g.ip && sb.Ok() && |g.blk| == sb.size && n < sb.ninodes && g.ip[n].Ok() && Own(sb, g, {})
    ensures g.ip.Keys == f.ip.Keys && g.ip[n] == f.ip[n].(addrs := g.ip[n].addrs)
    ensures forall m :: m in f.ip && m != n ==> g.ip[m] == f.ip[m]
    ensures forall k :: 0 <= k < NDIRECT && k < i ==> Addr(g, Direct(n, k)) == 0
  {
  }

  /** The truncated inode, its size set to 0: everybody else's files are as before. */
  lemma TruncatedFiles(sb: Super, f: Fs, g: Fs, n: nat)
    requires Good(sb, f) && Truncating(sb, f, g, n, NDIRECT + 1)
    ensures Own(sb, Resized(g, n, 0), {}) && FilesOk(sb, Resized(g, n, 0), {n})
    ensures forall m: nat, i: nat :: m != n ==> ByteAt(Resized(g, n, 0), m, i) == ByteAt(f, m, i)
    ensures forall t {:trigger Addr(Resized(g, n, 0), t)} :: Addr(Resized(g, n, 0), t) == if t.n == n then 0 else Addr(f, t)
  {
    hide Word; hide Bit; hide Used; hide GetInode; hide Own; hide Addr;
    TruncatingShape(sb, f, g, n, NDIRECT + 1);
    RestatedOwn(sb, g, n, g.ip[n].(size := 0));
    OwnFacts(sb, f, {}, n);
    var h := Resized(g, n, 0);
    forall t ensures Addr(h, t) == if t.n == n then 0 else Addr(f, t) {
      assert Addr(h, t) == Addr(g, t);
      assert Addr(g, t) == if Gone(t, n, NDIRECT + 1) then 0 else Addr(f, t);
    }
    forall m: nat, i: nat | m != n ensures ByteAt(h, m, i) == ByteAt(f, m, i) {
      assert Addr(h, SlotOf(m, i / BSIZE)) == Addr(f, SlotOf(m, i / BSIZE));
      OwnFacts(sb, f, {}, n);
    }
    forall m | m in h.ip ensures Mapped(h, m, h.ip[m].size) && (m !in {n} ==> OnDisk(sb, h, m)) {
      InodeBlockRange(sb, m);
      forall bn: nat | bn * BSIZE < h.ip[m].size ensures BlockOf(h, m, bn) != 0 {
        assert Addr(h, SlotOf(m, bn)) == Addr(f, SlotOf(m, bn));
        assert BlockOf(f, m, bn) != 0;
      }
    }
  }

  lemma StartTruncating(sb: Super, f: Fs, n: nat)
    requires Own(sb, f, {}) && n in f.ip
    ensures Truncating(sb, f, f, n, 0)
  {
  }

  lemma EmptiedDirect(g: Fs, n: nat, i: nat)
    requires SlotOk(g, Direct(n, i)) && |g.ip[n].addrs| == NDIRECT + 1
    ensures Emptied(g, Direct(n, i)).blk == g.blk
    ensures Emptied(g, Direct(n, i)).ip == g.ip[n := g.ip[n].(addrs := g.ip[n].addrs[i := 0])]
  {
  }

  /** Marking a block of an emptied state is marking it, then emptying. */
  lemma MarkEmptied(sb: Super, g: Fs, e: Fs, a: nat, v: bool)
    requires sb.Ok() && |g.blk| == sb.size && a < sb.size && e.blk == g.blk
    ensures Mark(sb, e, a, v) == Fs(Mark(sb, g, a, v).blk, e.ip, e.owner)
  {
  }

  lemma TruncatedBytes(f: Fs, w: Fs, g: Fs, n: nat)
    requires n in f.ip && w.ip.Keys == f.ip.Keys && g.ip == w.ip && w.ip[n].size == 0
    requires forall m :: m in f.ip && m != n ==> w.ip[m] == f.ip[m]
    requires forall m: nat, i: nat :: m != n ==> ByteAt(w, m, i) == ByteAt(f, m, i)
    requires forall m: nat, i: nat :: ByteAt(g, m, i) == ByteAt(w, m, i)
    ensures FileBytes(g, n) == []
    ensures forall m :: m in f.ip && m != n ==> FileBytes(g, m) == FileBytes(f, m)
  {
    hide ByteAt;
  }

  function NewIndirect(f: Fs, g: Fs, n: nat): nat {
    if InodeAddr(f, n, NDIRECT) == 0 && InodeAddr(g, n, NDIRECT) != 0 then 1 else 0
  }

  lemma OwnFacts(sb: Super, f: Fs, pend: set<nat>, n: nat)
    requires Own(sb, f, pend) && n in f.ip
    ensures sb.Ok() && |f.blk| == sb.size && n < sb.ninodes && f.ip[n].Ok()
    ensures forall s {:trigger Addr(f, s)} :: Addr(f, s) != 0 ==> sb.Data(Addr(f, s))
  {
  }

  class FileSys {
    const sb: Super
    var blk: seq<Block>
    var ip: map<nat, Inode>
    ghost var owner: map<nat, Slot>
    /** The distinct blocks passed to log_write since the current operation began. */
    ghost var logged: set<nat>

    constructor (s: Super, b: seq<Block>, inodes: map<nat, Inode>, ghost own: map<nat, Slot>)
      ensures sb == s && F() == Fs(b, inodes, own) && logged == {}
    {
      sb, blk, ip, owner, logged := s, b, inodes, own, {};
    }

    ghost function F(): Fs
      reads this
    {
      Fs(blk, ip, owner)
    }

    ghost predicate AllUsed()
      reads this
    {
      sb.Ok() && |blk| == sb.size && forall b: nat :: b < sb.size ==> Used(sb, F(), b)
    }

    method LogWrite(b: nat, data: Block)
      requires b < |blk|
      modifies this`blk, this`logged
      ensures blk == old(blk)[b := data] && logged == old(logged) + {b} && Noted(old(blk), old(logged), blk, logged)
    {
      blk, logged := blk[b := data], logged + {b};
    }

    /** balloc's inner loop: the first clear bit of the map block for b on, as far as the volume goes. */
    method ClearBit(bp: Block, b: nat) returns (bi: nat)
      requires sb.Ok() && |blk| == sb.size && b < sb.size && b % BPB == 0 && bp == blk[sb.MapBlock(b)]
      ensures bi <= BPB && (bi < BPB && b + bi < sb.size ==> !Used(sb, F(), b + bi))
      ensures forall x: nat :: b <= x < b + bi && x < sb.size ==> Used(sb, F(), x)
    {
      bi := 0;
      while bi < BPB && b + bi < sb.size
        invariant bi <= BPB
        invariant forall x: nat :: b <= x < b + bi && x < sb.size ==> Used(sb, F(), x)
      {
        assert sb.MapBlock(b + bi) == sb.MapBlock(b) && (b + bi) % BPB == bi;
        if !Bit(bp, bi) {
          break;
        }
        bi := bi + 1;
      }
    }

    /** The first free block, marked used and zeroed; None is the "out of blocks" panic. */
    method Balloc() returns (r: Option<nat>)
      requires sb.Ok() && |blk| == sb.size
      modifies this`blk, this`logged
      ensures r.None? ==> AllUsed() && blk == old(blk) && logged == old(logged)
      ensures r.Some? ==>
        && r.value < sb.size && !Used(sb, old(F()), r.value)
        && (forall x: nat :: x < r.value ==> Used(sb, old(F()), x))
        && F() == Balloced(sb, old(F()), r.value)
        && logged == old(logged) + {sb.MapBlock(r.value), r.value}
      ensures Noted(old(blk), old(logged), blk, logged)
    {
      hide Used, Bit, SetBit;
      var b := 0;
      while b < sb.size
        invariant b % BPB == 0 && blk == old(blk) && logged == old(logged)
        invariant forall x: nat :: x < b && x < sb.size ==> Used(sb, F(), x)
      {
        MapBlockRange(sb, b);
        var bp := blk[sb.MapBlock(b)];
        var bi := ClearBit(bp, b);
        if bi < BPB && b + bi < sb.size {
          assert sb.MapBlock(b + bi) == sb.MapBlock(b) && (b + bi) % BPB == bi;
          LogWrite(sb.MapBlock(b), SetBit(bp, bi, true));
          LogWrite(b + bi, Zeroes(BSIZE));
          return Some(b + bi);
        }
        b := b + BPB;
      }
      return None;
    }

    /** Clear b's bit; false is the "freeing free block" panic. */
    method Bfree(b: nat) returns (ok: bool)
      requires sb.Ok() && |blk| == sb.size && b < sb.size
      modifies this`blk, this`logged
      ensures ok <==> Used(sb, old(F()), b)
      ensures ok ==> F() == Mark(sb, old(F()), b, false)
      ensures !ok ==> blk == old(blk)
      ensures sb.MapBlock(b) < |blk| && logged == old(logged) + if ok then {sb.MapBlock(b)} else {}
      ensures Noted(old(blk), old(logged), blk, logged)
    {
      MapBlockRange(sb, b);
      var bp := blk[sb.MapBlock(b)];
      var bi := b % BPB;
      if !Bit(bp, bi) {
        return false;
      }
      LogWrite(sb.MapBlock(b), SetBit(bp, bi, false));
      return true;
    }

    /** Copy the in-memory inode to its place on disk. */
    method Iupdate(n: nat)
      requires sb.Ok() && |blk| == sb.size && n < sb.ninodes && n in ip && ip[n].Ok()
      modifies this`blk, this`logged
      ensures F() == Iupdated(sb, old(F()), n) && logged == old(logged) + {sb.InodeBlock(n)}
      ensures Noted(old(blk), old(logged), blk, logged)
    {
      InodeBlockRange(sb, n);
      LogWrite(sb.InodeBlock(n), PutInode(blk[sb.InodeBlock(n)], n % IPB, ip[n]));
    }

    /** ip->addrs[i] = addr = balloc(dev), where it was 0. */
    method AllocAddr(n: nat, i: nat) returns (r: Option<nat>)
      requires Own(sb, F(), {}) && n in ip && FilesOk(sb, F(), {n}) && i <= NDIRECT && InodeAddr(F(), n, i) == 0
      modifies this`blk, this`ip, this`owner, this`logged
      ensures r.None? ==> AllUsed()
      ensures r.Some? ==>
        && Own(sb, F(), {}) && FilesOk(sb, F(), {n}) && Grows(old(F()), F(), n)
        && r.value != 0 && sb.Data(r.value) && InodeAddr(F(), n, i) == r.value
        && (forall t {:trigger Addr(F(), t)} :: t != AddrSlot(n, i) ==> Addr(F(), t) == Addr(old(F()), t))
        && logged == old(logged) + {sb.MapBlock(r.value), r.value}
      ensures Noted(old(blk), old(logged), blk, logged)
    {
      hide Own, FilesOk, Balloced, Mapped, Noted;
      OwnFacts(sb, F(), {}, n);
      ghost var f, s := F(), AddrSlot(n, i);
      r := Balloc();
      if r.Some? {
        var addr := r.value;
        ip := ip[n := ip[n].(addrs := ip[n].addrs[i := addr])];
        owner := owner[addr := s];
        AllocatedOk(sb, f, s, addr);
        assert F() == Allocated(sb, f, s, addr);
      }
    }

    /** a[j] = addr = balloc(dev) in the indirect block, where it was 0; then log_write of that block. */
    method AllocEntry(n: nat, j: nat) returns (r: Option<nat>)
      requires Own(sb, F(), {}) && n in ip && FilesOk(sb, F(), {n}) && j < NINDIRECT
      requires InodeAddr(F(), n, NDIRECT) != 0 && Addr(F(), Entry(n, j)) == 0
      modifies this`blk, this`ip, this`owner, this`logged
      ensures r.None? ==> AllUsed()
      ensures r.Some? ==>
        && Own(sb, F(), {}) && FilesOk(sb, F(), {n}) && Grows(old(F()), F(), n)
        && r.value != 0 && Addr(F(), Entry(n, j)) == r.value
        && InodeAddr(F(), n, NDIRECT) == InodeAddr(old(F()), n, NDIRECT)
        && (forall t {:trigger Addr(F(), t)} :: t != Entry(n, j) ==> Addr(F(), t) == Addr(old(F()), t))
        && logged == old(logged) + {sb.MapBlock(r.value), r.value, InodeAddr(F(), n, NDIRECT)}
      ensures Noted(old(blk), old(logged), blk, logged)
    {
      hide Own, FilesOk, Mapped, Noted;
      OwnFacts(sb, F(), {}, n);
      ghost var f, s := F(), Entry(n, j);
      var ind := ip[n].addrs[NDIRECT];
      assert Addr(f, Indirect(n)) == ind;
      r := Balloc();
      if r.Some? {
        var addr := r.value;
        ghost var b1, l1 := blk, logged;
        LogWrite(ind, SetWord(blk[ind], j, addr));
        NotedTwice(f.blk, old(logged), b1, l1, blk, logged);
        owner := owner[addr := s];
        AllocatedOk(sb, f, s, addr);
        assert F() == Allocated(sb, f, s, addr);
      }
    }

    /** The disk address of block bn of inode n, allocated if absent; `maps` are the free-map blocks it logged. */
    method Bmap(n: nat, bn: nat) returns (r: Option<nat>, ghost maps: set<nat>)
      requires Own(sb, F(), {}) && n in ip && FilesOk(sb, F(), {n}) && bn < MAXFILE
      modifies this`blk, this`ip, this`owner, this`logged
      ensures r.None? ==> AllUsed() && BlockOf(old(F()), n, bn) == 0
      ensures r.Some? ==>
        && Own(sb, F(), {}) && n in ip && FilesOk(sb, F(), {n}) && Grows(old(F()), F(), n)
        && r.value == BlockOf(F(), n, bn) && r.value != 0
        && (BlockOf(old(F()), n, bn) != 0 ==> F() == old(F()) && logged == old(logged) && maps == {})
        && logged <= old(logged) + maps + {if bn < NDIRECT then r.value else InodeAddr(F(), n, NDIRECT)} + {r.value}
        && |maps| <= (if BlockOf(old(F()), n, bn) == 0 then 1 else 0) + NewIndirect(old(F()), F(), n)
        && Filled(old(F()), F(), n, bn, bn + 1)
      ensures Noted(old(blk), old(logged), blk, logged)
    {
      hide Own, FilesOk, Mapped, Word, Grows, ByteAt, Noted, Filled;
      OwnFacts(sb, F(), {}, n);
      GrowsNot(F(), n);
      FilledNone(F(), n, bn, bn + 1);
      NotedNone(blk, logged);
      maps := {};
      ghost var f := F();
      if bn < NDIRECT {
        var addr := ip[n].addrs[bn];
        if addr == 0 {
          r := AllocAddr(n, bn);
          if r.None? { return; }
          addr := r.value;
          maps := {sb.MapBlock(addr)};
          FilledSlot(f, F(), Direct(n, bn), bn, bn + 1);
        }
        return Some(addr), maps;
      }
      r, maps := BmapEntry(n, bn - NDIRECT);
    }

    /** bmap's indirect half: the indirect block, then its entry j, each allocated if it is not there. */
    method BmapEntry(n: nat, j: nat) returns (r: Option<nat>, ghost maps: set<nat>)
      requires Own(sb, F(), {}) && n in ip && FilesOk(sb, F(), {n}) && j < NINDIRECT
      modifies this`blk, this`ip, this`owner, this`logged
      ensures r.None? ==> AllUsed() && Addr(old(F()), Entry(n, j)) == 0
      ensures r.Some? ==>
        && Own(sb, F(), {}) && n in ip && FilesOk(sb, F(), {n}) && Grows(old(F()), F(), n)
        && r.value == Addr(F(), Entry(n, j)) && r.value != 0
        && (Addr(old(F()), Entry(n, j)) != 0 ==> F() == old(F()) && logged == old(logged) && maps == {})
        && logged <= old(logged) + maps + {InodeAddr(F(), n, NDIRECT)} + {r.value}
        && |maps| <= (if Addr(old(F()), Entry(n, j)) == 0 then 1 else 0) + NewIndirect(old(F()), F(), n)
        && Filled(old(F()), F(), n, NDIRECT + j, NDIRECT + j + 1)
      ensures Noted(old(blk), old(logged), blk, logged)
    {
      hide Own, FilesOk, Mapped, Word, Grows, ByteAt, Noted, Filled;
      OwnFacts(sb, F(), {}, n);
      GrowsNot(F(), n);
      FilledNone(F(), n, NDIRECT + j, NDIRECT + j + 1);
      NotedNone(blk, logged);
      maps := {};
      ghost var f := F();
      var ind := ip[n].addrs[NDIRECT];
      if ind == 0 {
        r := AllocAddr(n, NDIRECT);
        if r.None? { return; }
        ind := r.value;
        maps := {sb.MapBlock(ind)};
        FilledSlot(f, F(), Indirect(n), NDIRECT + j, NDIRECT + j + 1);
        OwnFacts(sb, F(), {}, n);
      }
      ghost var f1, l1 := F(), logged;
      assert Addr(f1, Indirect(n)) == ind;
      var addr := Word(blk[ind], j);
      assert addr == Addr(f1, Entry(n, j));
      if addr == 0 {
        r := AllocEntry(n, j);
        NotedTwice(f.blk, old(logged), f1.blk, l1, blk, logged);
        if r.None? { return; }
        addr := r.value;
        maps := maps + {sb.MapBlock(addr)};
        FilledSlot(f1, F(), Entry(n, j), NDIRECT + j, NDIRECT + j + 1);
        FilledTwice(f, f1, F(), n, NDIRECT + j, NDIRECT + j + 1, NDIRECT + j, NDIRECT + j + 1);
        GrowsTwice(f, f1, F(), n);
      }
      return Some(addr), maps;
    }

    /** One round of readi's loop: m bytes of the block that holds offset at. */
    method ReadPart(n: nat, at: nat, m: nat) returns (part: seq<byte>)
      requires Own(sb, F(), {}) && n in ip && FilesOk(sb, F(), {n}) && at % BSIZE + m <= BSIZE && 0 < m && at + m <= ip[n].size
      requires ip[n].size <= MAXFILE * BSIZE
      modifies this`blk, this`ip, this`owner, this`logged
      ensures F() == old(F()) && logged == old(logged) && part == FileBytes(F(), n)[at..at + m]
    {
      hide Own, FilesOk, ByteAt, BlockOf, Addr, Grows, Mapped, InodeAddr, NewIndirect, FileBytes, Used;
      MappedByte(sb, F(), n, at, {n});
      ghost var maps;
      var addr;
      addr, maps := Bmap(n, at / BSIZE);
      BlockSlice(F(), n, at, m);
      part := blk[addr.value][at % BSIZE..at % BSIZE + m];
    }

    /** readi on a regular file or directory; -1 when off is past the end or off + count wraps. */
    method ReadI(n: nat, off: nat, count: nat) returns (r: int, dst: seq<byte>)
      requires Good(sb, F()) && n in ip && ip[n].kind != T_DEV && off < TWO32 && count < TWO32
      modifies this`blk, this`ip, this`owner, this`logged
      ensures F() == old(F()) && logged == old(logged)
      ensures r == -1 <==> off > ip[n].size || (off + count) % TWO32 < off
      ensures r == -1 ==> dst == []
      ensures r != -1 ==> dst == FileBytes(F(), n)[off..Min(off + count, ip[n].size)] && r == |dst|
    {
      hide Own; hide FilesOk; hide ByteAt; hide BlockOf; hide Addr; hide Grows; hide Mapped;
      hide InodeAddr; hide NewIndirect; hide FileBytes; hide Used;
      OwnFacts(sb, F(), {}, n);
      if off > ip[n].size || (off + count) % TWO32 < off {
        return -1, [];
      }
      var cnt := count;
      if off + count > ip[n].size {
        cnt := ip[n].size - off;
      }
      dst := [];
      var tot := 0;
      ghost var f := F();
      FilesWeaken(sb, f, n);
      MappedSize(sb, f, n);
      while tot < cnt
        invariant tot <= cnt && F() == f && logged == old(logged)
        invariant dst == FileBytes(f, n)[off..off + tot]
      {
        var at := off + tot;
        var m := Min(cnt - tot, BSIZE - at % BSIZE);
        var part := ReadPart(n, at, m);
        dst := dst + part;
        JoinSlices(FileBytes(f, n), off, at, at + m);
        tot := tot + m;
      }
      return cnt, dst;
    }

    /** One round of writei's loop: map the block, change part of it, log it. `h` is the state after mapping. */
    method WriteBlock(n: nat, at: nat, s: seq<byte>) returns (r: Option<nat>, ghost h: Fs, ghost maps: set<nat>)
      requires Own(sb, F(), {}) && n in ip && FilesOk(sb, F(), {n}) && at / BSIZE < MAXFILE && at % BSIZE + |s| <= BSIZE
      modifies this`blk, this`ip, this`owner, this`logged
      ensures r.None? ==> AllUsed() && BlockOf(old(F()), n, at / BSIZE) == 0
      ensures Noted(old(blk), old(logged), blk, logged)
      ensures r.Some? ==>
        && Own(sb, h, {}) && FilesOk(sb, h, {n}) && Grows(old(F()), h, n) && Filled(old(F()), h, n, at / BSIZE, at / BSIZE + 1)
        && r.value in logged
        && (BlockOf(old(F()), n, at / BSIZE) != 0 ==> h == old(F()) && maps == {})
        && r.value == BlockOf(h, n, at / BSIZE) && 0 < r.value < |h.blk|
        && F() == h.(blk := h.blk[r.value := Patched(h.blk[r.value], at % BSIZE, s)])
        && logged <= old(logged) + maps + IndirectSet(h, n) + {r.value}
        && |maps| <= (if BlockOf(old(F()), n, at / BSIZE) == 0 then 1 else 0) + NewIndirect(old(F()), h, n)
    {
      hide Own, FilesOk, Grows, Noted, Filled;
      r, maps := Bmap(n, at / BSIZE);
      h := F();
      ghost var l := logged;
      if r.Some? {
        var a := r.value;
        OwnFacts(sb, h, {}, n);
        assert Addr(h, SlotOf(n, at / BSIZE)) == a;
        if at / BSIZE >= NDIRECT { EntryNeedsIndirect(h, n, at / BSIZE); }
        LogWrite(a, Patched(blk[a], at % BSIZE, s));
        NotedTwice(old(blk), old(logged), h.blk, l, blk, logged);
      }
    }

    /** The inode in memory changes, but for its addresses; then iupdate. */
    method Restate(n: nat, d: Inode)
      requires Own(sb, F(), {}) && n in ip && FilesOk(sb, F(), {n}) && d.Ok() && d.addrs == ip[n].addrs && Mapped(F(), n, d.size)
      modifies this`blk, this`ip, this`logged
      ensures Good(sb, F()) && ip == old(ip)[n := d]
      ensures forall m: nat, i: nat :: ByteAt(F(), m, i) == ByteAt(old(F()), m, i)
      ensures sb.InodeBlock(n) < sb.size && logged == old(logged) + {sb.InodeBlock(n)}
      ensures SameAddrs(old(F()), F()) && Noted(old(blk), old(logged), blk, logged)
    {
      hide Own, FilesOk, Mapped, ByteAt, Addr, Noted;
      ghost var g := F();
      RestatedOk(sb, g, n, d);
      ip := ip[n := d];
      ghost var h := F();
      assert h == Restated(g, n, d);
      OwnFacts(sb, h, {}, n);
      InodeBlockRange(sb, n);
      IupdatedOk(sb, h, n);
      Iupdate(n);
      assert SameAddrs(g, F()) by {
        forall t ensures Addr(F(), t) == Addr(g, t) { assert Addr(F(), t) == Addr(h, t); }
      }
      forall m: nat, i: nat ensures ByteAt(F(), m, i) == ByteAt(g, m, i) {
        assert ByteAt(F(), m, i) == ByteAt(h, m, i);
      }
    }

    /** ip->size = size, then iupdate. */
    method Resize(n: nat, size: nat)
      requires Own(sb, F(), {}) && n in ip && FilesOk(sb, F(), {n}) && Mapped(F(), n, size)
      modifies this`blk, this`ip, this`logged
      ensures Good(sb, F()) && ip == old(ip)[n := old(ip)[n].(size := size)]
      ensures forall m: nat, i: nat :: ByteAt(F(), m, i) == ByteAt(old(F()), m, i)
      ensures sb.InodeBlock(n) < sb.size && logged == old(logged) + {sb.InodeBlock(n)}
      ensures SameAddrs(old(F()), F()) && Noted(old(blk), old(logged), blk, logged)
    {
      hide SameAddrs, Noted;
      Restate(n, ip[n].(size := size));
    }

    /** ip->nlink--, a short, then iupdate. */
    method DropLink(n: nat)
      requires Good(sb, F()) && n in ip
      modifies this`blk, this`ip, this`logged
      ensures Good(sb, F()) && ip == old(ip)[n := old(ip)[n].(nlink := OneLess(old(ip)[n].nlink))]
      ensures forall m :: m in ip ==> FileBytes(F(), m) == FileBytes(old(F()), m)
      ensures SameAddrs(old(F()), F()) && logged == old(logged) + {sb.InodeBlock(n)} && Noted(old(blk), old(logged), blk, logged)
    {
      hide Own, FilesOk, Mapped, ByteAt, SameAddrs, Noted;
      ghost var f := F();
      FilesWeaken(sb, f, n);
      InodeOk(sb, f, n);
      Restate(n, ip[n].(nlink := OneLess(ip[n].nlink)));
      forall m | m in ip ensures FileBytes(F(), m) == FileBytes(f, m) {
      }
    }

    /** writei's loop. `data` and `maps` are the data and free-map blocks it logged. */
    method WriteData(n: nat, src: seq<byte>, off: nat) returns (ok: bool, ghost data: set<nat>, ghost maps: set<nat>)
      requires Good(sb, F()) && n in ip && off <= ip[n].size && off + |src| <= MAXFILE * BSIZE
      modifies this`blk, this`ip, this`owner, this`logged
      ensures !ok ==> AllUsed() && Hole(old(F()), n, off, |src|)
      ensures Noted(old(blk), old(logged), blk, logged)
      ensures ok ==> Filled(old(F()), F(), n, off / BSIZE, BlockEnd(off + |src|)) && Journaled(F(), n, off, |src|, logged)
      ensures ok ==>
        && n in ip && Own(sb, F(), {}) && FilesOk(sb, F(), {n}) && Written(old(F()), F(), n, off, src, |src|)
        && (off + |src| <= old(ip)[n].size ==> FilesOk(sb, F(), {}))
        && Tally(old(F()), F(), n, off, |src|, old(logged), logged, data, maps)
        && (src == [] ==> F() == old(F()) && logged == old(logged))
    {
      hide Own, FilesOk, Grows, Written, ByteAt, BlockOf, Addr, Span, IndirectSet, NewIndirect, Patched, Tally, Noted, Filled, Journaled, Hole;
      TallyNothing(F(), n, off, logged);
      ghost var f, lo, hi := F(), off / BSIZE, BlockEnd(off + |src|);
      NotedNone(blk, logged);
      FilledNone(f, n, lo, hi);
      JournaledNone(f, n, off, logged);
      data, maps := {}, {};
      var tot := 0;
      FilesWeaken(sb, f, n);
      WrittenNothing(f, n, off, src);
      while tot < |src|
        invariant tot <= |src| && n in ip && Own(sb, F(), {}) && FilesOk(sb, F(), {n}) && Written(f, F(), n, off, src, tot)
        invariant off + tot <= f.ip[n].size ==> FilesOk(sb, F(), {})
        invariant tot == 0 || tot == |src| || (off + tot) % BSIZE == 0
        invariant tot == 0 ==> F() == f && logged == old(logged)
        invariant Tally(f, F(), n, off, tot, old(logged), logged, data, maps)
        invariant Noted(f.blk, old(logged), blk, logged)
        invariant Filled(f, F(), n, lo, hi) && Journaled(F(), n, off, tot, logged)
      {
        var at := off + tot;
        var m := Min(|src| - tot, BSIZE - at % BSIZE);
        ghost var g, l := F(), logged;
        MappedPart(sb, f, g, n, off, src, tot, at);
        ghost var h: Fs, bm: set<nat>;
        var a;
        a, h, bm := WriteBlock(n, at, src[tot..tot + m]);
        NotedTwice(f.blk, old(logged), g.blk, l, blk, logged);
        NotedMore(g.blk, l, blk, logged);
        if a.None? {
          HoleHere(g, n, at, m);
          HoleBefore(f, g, n, lo, hi, off, |src|, at, m);
          return false, data, maps;
        }
        InRange(off, |src|, at);
        FilledStep(sb, f, g, h, n, lo, hi, at, Patched(h.blk[a.value], at % BSIZE, src[tot..tot + m]), {n});
        JournaledStep(f, g, F(), n, at / BSIZE, at / BSIZE + 1, off, src, tot, m, l, logged);
        WrittenStep(sb, f, g, h, n, off, src, tot, m, {n});
        if off + tot + m <= f.ip[n].size {
          WrittenStep(sb, f, g, h, n, off, src, tot, m, {});
        }
        GrownIndirect(f, g, h, F(), n, off, src, tot);
        TallyStep(f, g, h, F(), n, off, tot, m, old(logged), l, logged, data, maps, a.value, bm);
        data, maps := data + {a.value}, maps + bm;
        tot := tot + m;
      }
      return true, data, maps;
    }

    /** writei on a regular file or directory. None is the "out of blocks" panic. */
    method WriteI(n: nat, src: seq<byte>, off: nat) returns (r: Option<int>)
      requires Good(sb, F()) && n in ip && ip[n].kind != T_DEV && off < TWO32 && |src| < TWO32
      modifies this`blk, this`ip, this`owner, this`logged
      ensures r.None? ==> AllUsed() && Hole(old(F()), n, off, |src|)
      ensures Noted(old(blk), old(logged), blk, logged)
      ensures r.Some? && r != Some(-1) ==>
        Filled(old(F()), F(), n, off / BSIZE, BlockEnd(off + |src|)) && Journaled(F(), n, off, |src|, logged)
      ensures r == Some(-1) <==>
        off > old(ip)[n].size || (off + |src|) % TWO32 < off || (off + |src|) % TWO32 > MAXFILE * BSIZE
      ensures r == Some(-1) ==> F() == old(F()) && logged == old(logged)
      ensures r.Some? && r != Some(-1) ==>
        && r == Some(|src|) && Good(sb, F()) && ip.Keys == old(ip).Keys
        && FileBytes(F(), n) == Splice(FileBytes(old(F()), n), off, src)
        && (forall m :: m in ip && m != n ==> ip[m] == old(ip)[m] && FileBytes(F(), m) == FileBytes(old(F()), m))
        && ip[n].(addrs := []) == old(ip)[n].(addrs := [], size := ip[n].size)
        && |logged - old(logged)| <= LogCost(off, |src|)
    {
      hide Own, FilesOk, Grows, Written, ByteAt, BlockOf, Addr, LogCost, Span, IndirectSet, NewIndirect, Mapped, Noted, Filled, Journaled, Hole, SameAddrs;
      NotedNone(blk, logged);
      OwnFacts(sb, F(), {}, n);
      MappedSize(sb, F(), n);
      if off > ip[n].size || (off + |src|) % TWO32 < off {
        return Some(-1);
      }
      if (off + |src|) % TWO32 > MAXFILE * BSIZE {
        return Some(-1);
      }
      ghost var f := F();
      ghost var data: set<nat>, maps: set<nat>;
      var ok;
      ok, data, maps := WriteData(n, src, off);
      if !ok { return None; }
      ghost var g, l := F(), logged;
      WrittenInode(f, g, n, off, src);
      if |src| > 0 && off + |src| > ip[n].size {
        WrittenMapped(sb, f, g, n, off, src);
        Resize(n, off + |src|);
        NotedTwice(f.blk, old(logged), g.blk, l, blk, logged);
        FilledSame(f, g, F(), n, off / BSIZE, BlockEnd(off + |src|));
        JournaledSame(g, F(), n, off, |src|, l, logged);
      }
      WrittenEnd(sb, f, g, F(), n, off, src);
      Subadditive(logged - old(logged), data, maps, IndirectSet(g, n), {sb.InodeBlock(n)});
      CostBound(f, g, n, off, |src|, |data|, |maps|);
      return Some(|src|);
    }

    /**
     * itrunc: every block of inode n, and only those, becomes free, bfree never panics, the file is empty and on disk,
     * and no other file changes.
     */
    method Itrunc(n: nat) returns (ok: bool)
      requires Good(sb, F()) && n in ip
      modifies this`blk, this`ip, this`owner, this`logged
      ensures ok && Good(sb, F()) && ip.Keys == old(ip).Keys && FileBytes(F(), n) == []
      ensures forall t {:trigger Addr(F(), t)} :: Addr(F(), t) == if t.n == n then 0 else Addr(old(F()), t)
      ensures forall m :: m in ip && m != n ==> ip[m] == old(ip)[m] && FileBytes(F(), m) == FileBytes(old(F()), m)
      ensures ip[n].(addrs := []) == old(ip)[n].(addrs := [], size := 0)
      ensures Noted(old(blk), old(logged), blk, logged)
    {
      hide Own, FilesOk, Truncating, Mark, Used, Word, ByteAt, Mapped, BlockOf, Noted;
      ghost var f := F();
      StartTruncating(sb, f, n);
      ok := FreeDirects(n);
      ghost var g, l1 := F(), logged;
      TruncatingShape(sb, f, g, n, NDIRECT);
      if ip[n].addrs[NDIRECT] != 0 {
        ok := FreeIndirect(n, f);
        NotedTwice(f.blk, old(logged), g.blk, l1, blk, logged);
      } else {
        NoIndirect(sb, f, g, n);
      }
      ghost var b2, l2 := blk, logged;
      Empty(n, f);
      NotedTwice(f.blk, old(logged), b2, l2, blk, logged);
      return true;
    }

    /** itrunc's end: with no block left, the size goes to 0 and the inode to disk. */
    method Empty(n: nat, ghost f: Fs)
      requires Good(sb, f) && Truncating(sb, f, F(), n, NDIRECT + 1)
      modifies this`blk, this`ip, this`logged
      ensures Good(sb, F()) && ip.Keys == f.ip.Keys && n in ip && FileBytes(F(), n) == []
      ensures forall t {:trigger Addr(F(), t)} :: Addr(F(), t) == if t.n == n then 0 else Addr(f, t)
      ensures forall m :: m in ip && m != n ==> ip[m] == f.ip[m] && FileBytes(F(), m) == FileBytes(f, m)
      ensures ip[n].(addrs := []) == f.ip[n].(addrs := [], size := 0)
      ensures logged == old(logged) + {sb.InodeBlock(n)} && Noted(old(blk), old(logged), blk, logged)
    {
      hide Noted, Own, FilesOk, Truncating, Mark, Used, Word, ByteAt, Mapped, BlockOf, Addr;
      ghost var h := F();
      TruncatingShape(sb, f, h, n, NDIRECT + 1);
      TruncatedFiles(sb, f, h, n);
      ip := ip[n := ip[n].(size := 0)];
      ghost var w := F();
      assert w == Resized(h, n, 0);
      IupdatedOk(sb, w, n);
      OwnFacts(sb, w, {}, n);
      Iupdate(n);
      TruncatedBytes(f, w, F(), n);
    }

    /** itrunc's first loop: free the direct blocks. */
    method FreeDirects(n: nat) returns (ok: bool)
      requires Own(sb, F(), {}) && n in ip
      modifies this`blk, this`ip, this`owner, this`logged
      ensures ok && Truncating(sb, old(F()), F(), n, NDIRECT)
      ensures Noted(old(blk), old(logged), blk, logged)
    {
      hide Own, Truncating, Mark, Used, Word, Emptied, Noted;
      ghost var f := F();
      NotedNone(blk, logged);
      StartTruncating(sb, f, n);
      var i := 0;
      while i < NDIRECT
        invariant i <= NDIRECT && Truncating(sb, f, F(), n, i)
        invariant Noted(f.blk, old(logged), blk, logged)
      {
        ghost var g, l := F(), logged;
        TruncatingShape(sb, f, g, n, i);
        FreeDirect(sb, f, g, n, i);
        var a := ip[n].addrs[i];
        if a != 0 {
          ok := Bfree(a);
          NotedTwice(f.blk, old(logged), g.blk, l, blk, logged);
          ip := ip[n := ip[n].(addrs := ip[n].addrs[i := 0])];
          owner := Emptied(g, Direct(n, i)).owner;
          EmptiedDirect(g, n, i);
          MarkEmptied(sb, g, Emptied(g, Direct(n, i)), a, false);
        }
        i := i + 1;
      }
      return true;
    }

    /** itrunc's handling of the indirect block: free its entries, then the block, then clear the pointer. */
    method FreeIndirect(n: nat, ghost f: Fs) returns (ok: bool)
      requires Truncating(sb, f, F(), n, NDIRECT) && Addr(F(), Indirect(n)) != 0
      modifies this`blk, this`ip, this`owner, this`logged
      ensures ok && Truncating(sb, f, F(), n, NDIRECT + 1)
      ensures Noted(old(blk), old(logged), blk, logged)
    {
      hide Own, Truncating, FreeingIndirect, Mark, Used, Word, Noted;
      ghost var g := F();
      NotedNone(blk, logged);
      TruncatingShape(sb, f, g, n, NDIRECT);
      OwnFacts(sb, g, {}, n);
      var ind := ip[n].addrs[NDIRECT];
      assert ind == Addr(g, Indirect(n));
      var bp := blk[ind];
      StartIndirect(sb, g, n);
      var j := 0;
      while j < NINDIRECT
        invariant j <= NINDIRECT && FreeingIndirect(sb, g, n, blk, j) && ip == g.ip && owner == g.owner && |blk| == sb.size
        invariant Noted(g.blk, old(logged), blk, logged)
      {
        ghost var b1, l1 := blk, logged;
        FreeEntry(sb, g, n, blk, j);
        var a := Word(bp, j);
        assert a == Addr(g, Entry(n, j));
        if a != 0 {
          ok := Bfree(a);
          NotedTwice(g.blk, old(logged), b1, l1, blk, logged);
        }
        j := j + 1;
      }
      ghost var b, l := blk, logged;
      FinishIndirect(sb, f, g, n, b);
      ok := Bfree(ind);
      NotedTwice(g.blk, old(logged), b, l, blk, logged);
      ip := ip[n := ip[n].(addrs := ip[n].addrs[NDIRECT := 0])];
      owner := Emptied(g, Indirect(n)).owner;
      MarkEmptied(sb, g.(blk := b), Emptied(g, Indirect(n)).(blk := b), ind, false);
      return true;
    }

    /** begin_op, as far as the block count is concerned. */
    method BeginOp()
      modifies this`logged
      ensures logged == {}
    {
      logged := {};
    }

    /** end_op: the operation must have kept to the log's per-operation budget. */
    method EndOp()
      requires |logged| <= MAXOPBLOCKS
    {
    }
  }
}
