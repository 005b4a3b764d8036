// file.c: writing to an open file, a few blocks per transaction.
module FileWrite {
  import opened Blocks
  import opened FsLayout
  import opened FsState
  import opened FsFile
  import LogSpec

  const MAXBYTES: nat := 71680

  /** ((MAXOPBLOCKS-1-1-2) / 2) * 512 */
  const CHUNK: nat := 1536

  /** A write of one chunk, at any offset, stays within the log's budget for one operation. */
  lemma ChunkCost(off: nat, n: nat)
    requires n <= CHUNK
    ensures LogCost(off, n) <= LogSpec.MAXOPBLOCKS
  {
    var q, r := off / BSIZE, off % BSIZE;
    assert off == q * BSIZE + r;
    if n > 0 {
      assert (off + n - 1) / BSIZE <= q + 3;
      if r == 0 { assert (off + n - 1) / BSIZE <= q + 2; }
    }
  }

  /** How many of n bytes a write at off to a file of `size` bytes stores: all, or the whole chunks that fit. */
  function Accepted(off: nat, size: nat, n: nat): (k: nat)
    requires size <= MAXBYTES
    ensures k <= n && (off <= size ==> off + k <= MAXBYTES)
  {
    if off > size then 0 else if off + n <= MAXBYTES then n else (MAXBYTES - off) / CHUNK * CHUNK
  }

  lemma SpliceNext(s: seq<byte>, off: nat, src: seq<byte>, i: nat, n: nat)
    requires off <= |s| && i + n <= |src|
    ensures off + i <= |Splice(s, off, src[..i])| && off + i + n <= |Splice(s, off, src[..i + n])|
    ensures Splice(Splice(s, off, src[..i]), off + i, src[i..i + n]) == Splice(s, off, src[..i + n])
  {
  }

  lemma SpliceNone(s: seq<byte>, off: nat)
    requires off <= |s|
    ensures Splice(s, off, []) == s
  {
  }

  /** From f to g the first i bytes of src have been written at off. */
  ghost predicate Partly(f: Fs, g: Fs, n: nat, off: nat, src: seq<byte>, i: nat) {
    && n in f.ip && g.ip.Keys == f.ip.Keys && i <= |src| && (i == 0 ==> g == f)
    && (off <= f.ip[n].size ==> off + i <= g.ip[n].size && FileBytes(g, n) == Splice(FileBytes(f, n), off, src[..i]))
    && (forall m :: m in f.ip && m != n ==> FileBytes(g, m) == FileBytes(f, m))
    && Filled(f, g, n, off / BSIZE, BlockEnd(off + |src|))
  }

  lemma PartlyNone(f: Fs, n: nat, off: nat, src: seq<byte>)
    requires n in f.ip
    ensures Partly(f, f, n, off, src, 0)
  {
    FilledNone(f, n, off / BSIZE, BlockEnd(off + |src|));
    if off <= f.ip[n].size { SpliceNone(FileBytes(f, n), off); }
  }

  lemma PartlyNext(f: Fs, g: Fs, h: Fs, n: nat, off: nat, src: seq<byte>, i: nat, m: nat)
    requires Partly(f, g, n, off, src, i) && off <= f.ip[n].size && i + m <= |src| && m > 0
    requires h.ip.Keys == g.ip.Keys && FileBytes(h, n) == Splice(FileBytes(g, n), off + i, src[i..i + m])
    requires forall k :: k in g.ip && k != n ==> FileBytes(h, k) == FileBytes(g, k)
    requires Filled(g, h, n, (off + i) / BSIZE, BlockEnd(off + i + m))
    ensures Partly(f, h, n, off, src, i + m)
  {
    hide Filled, ByteAt;
    SpliceNext(FileBytes(f, n), off, src, i, m);
    ChunkWithin(off, |src|, i, m);
    FilledTwice(f, g, h, n, off / BSIZE, BlockEnd(off + |src|), (off + i) / BSIZE, BlockEnd(off + i + m));
  }

  lemma ChunkAt(f: Fs, g: Fs, n: nat, off: nat, src: seq<byte>, i: nat)
    requires Partly(f, g, n, off, src, i)
    ensures n in g.ip && (i == 0 ==> g == f)
    ensures off <= f.ip[n].size ==> off + i <= g.ip[n].size
  {
  }

  lemma PartlyHole(f: Fs, g: Fs, n: nat, off: nat, src: seq<byte>, i: nat, m: nat)
    requires Partly(f, g, n, off, src, i) && i + m <= |src| && Hole(g, n, off + i, m)
    ensures Hole(f, n, off, |src|)
  {
    HoleBefore(f, g, n, off / BSIZE, BlockEnd(off + |src|), off, |src|, off + i, m);
  }

  lemma PartlyAll(f: Fs, g: Fs, n: nat, off: nat, src: seq<byte>, i: nat, size: nat)
    requires Partly(f, g, n, off, src, i) && size == f.ip[n].size <= MAXBYTES && i == Accepted(off, size, |src|)
    ensures Filled(f, g, n, off / BSIZE, BlockEnd(off + |src|)) && g.ip.Keys == f.ip.Keys
    ensures i == 0 ==> FileBytes(g, n) == FileBytes(f, n)
    ensures i > 0 ==> off <= size && FileBytes(g, n) == Splice(FileBytes(f, n), off, src[..i])
    ensures forall m :: m in f.ip && m != n ==> FileBytes(g, m) == FileBytes(f, m)
  {
    hide Filled, ByteAt;
  }

  lemma ChunkWithin(off: nat, n: nat, i: nat, n1: nat)
    requires i + n1 <= n
    ensures off / BSIZE <= (off + i) / BSIZE && BlockEnd(off + i + n1) <= BlockEnd(off + n)
  {
  }

  /** How many of n bytes can have been written when the loop comes round. */
  ghost predicate Between(off: nat, size: nat, n: nat, i: nat) {
    i <= n && (i > 0 ==> off <= size && off + i <= MAXBYTES && (i == n || i % CHUNK == 0))
  }

  lemma BetweenStart(off: nat, size: nat, n: nat, i: nat)
    ensures Between(off, size, n, 0) && (Between(off, size, n, i) ==> i == 0 || off <= size)
  {
  }

  lemma BetweenNext(off: nat, size: nat, n: nat, i: nat, n1: nat)
    requires Between(off, size, n, i) && i < n && n1 == (if n - i > CHUNK then CHUNK else n - i)
    requires (i == 0 ==> off <= size) && off + i + n1 <= MAXBYTES
    ensures off <= size && Between(off, size, n, i + n1)
  {
  }

  /** A chunk is refused exactly when the accepted bytes have all been written. */
  lemma Refused(off: nat, size: nat, n: nat, i: nat, n1: nat)
    requires size <= MAXBYTES && Between(off, size, n, i) && i < n && n1 == (if n - i > CHUNK then CHUNK else n - i)
    requires (i == 0 && off > size) || off + i + n1 > MAXBYTES
    ensures Accepted(off, size, n) == i
  {
  }

  lemma AllAccepted(off: nat, size: nat, n: nat)
    requires size <= MAXBYTES && Between(off, size, n, n)
    ensures Accepted(off, size, n) == n
  {
  }

  class File {
    const fs: FileSys
    const n: nat
    const writable: bool
    var off: nat

    constructor (s: FileSys, inum: nat, w: bool, at: nat)
      ensures fs == s && n == inum && writable == w && off == at
    {
      fs, n, writable, off := s, inum, w, at;
    }

    /** One round of filewrite's loop: one transaction, which keeps to the budget that end_op assumes. */
    method WriteChunk(c: seq<byte>) returns (r: Option<int>)
      requires Good(fs.sb, fs.F()) && n in fs.ip && fs.ip[n].kind != T_DEV && off < TWO32
      requires 0 < |c| <= CHUNK
      modifies this`off, fs`blk, fs`ip, fs`owner, fs`logged
      ensures r.None? ==> fs.AllUsed() && Hole(old(fs.F()), n, old(off), |c|)
      ensures Noted(old(fs.blk), {}, fs.blk, fs.logged)
      ensures r.Some? && r != Some(-1) ==> Filled(old(fs.F()), fs.F(), n, old(off) / BSIZE, BlockEnd(old(off) + |c|))
      ensures r == Some(-1) <==> old(off) > old(fs.ip)[n].size || old(off) + |c| > MAXBYTES
      ensures r == Some(-1) ==> fs.F() == old(fs.F()) && off == old(off)
      ensures r.Some? && r != Some(-1) ==>
        && r == Some(|c|) && off == old(off) + |c|
        && Good(fs.sb, fs.F()) && fs.ip.Keys == old(fs.ip).Keys && fs.ip[n].kind == old(fs.ip)[n].kind
        && FileBytes(fs.F(), n) == Splice(FileBytes(old(fs.F()), n), old(off), c)
        && forall m :: m in fs.ip && m != n ==> FileBytes(fs.F(), m) == FileBytes(old(fs.F()), m)
    {
      hide Good, FileBytes, LogCost, Splice, Noted, Hole, Filled, Journaled;
      MappedSize(fs.sb, fs.F(), n);
      fs.BeginOp();
      r := fs.WriteI(n, c, off);
      if r.None? { return; }
      ChunkCost(off, |c|);
      if r.value > 0 {
        off := off + r.value;
      }
      fs.EndOp();
    }

    /**
     * filewrite on an inode file. Each chunk is its own transaction and keeps to MAXOPBLOCKS; the file ends up as one
     * writei of the accepted bytes would leave it, and the call succeeds iff it accepted all of them.
     */
    method Write(src: seq<byte>) returns (r: Option<int>)
      requires Good(fs.sb, fs.F()) && n in fs.ip && fs.ip[n].kind != T_DEV && off < TWO32 && |src| < TWO32 / 2
      modifies this`off, fs`blk, fs`ip, fs`owner, fs`logged
      ensures !writable ==> r == Some(-1) && off == old(off) && fs.F() == old(fs.F())
      ensures r.None? ==> fs.AllUsed() && Hole(old(fs.F()), n, old(off), |src|)
      ensures old(off) + |src| <= old(fs.ip)[n].size ==> r.Some?
      ensures old(fs.ip)[n].size <= MAXBYTES
      ensures writable && r.Some? ==> Filled(old(fs.F()), fs.F(), n, old(off) / BSIZE, BlockEnd(old(off) + |src|))
      ensures writable && r.Some? ==>
        var k := Accepted(old(off), old(fs.ip)[n].size, |src|);
        && r == Some(if k == |src| then |src| else -1)
        && off == old(off) + k
        && Good(fs.sb, fs.F()) && fs.ip.Keys == old(fs.ip).Keys
        && (k == 0 ==> FileBytes(fs.F(), n) == FileBytes(old(fs.F()), n))
        && (k > 0 ==> FileBytes(fs.F(), n) == Splice(FileBytes(old(fs.F()), n), old(off), src[..k]))
        && forall m :: m in fs.ip && m != n ==> FileBytes(fs.F(), m) == FileBytes(old(fs.F()), m)
    {
      hide Good, FileBytes, LogCost, Splice, Hole, Filled, Noted, Partly, Between, Accepted, BlockEnd;
      MappedSize(fs.sb, fs.F(), n);
      if off + |src| <= fs.ip[n].size { NoHole(fs.sb, fs.F(), n, off, |src|); }
      if !writable {
        return Some(-1);
      }
      ghost var f, off0, size0 := fs.F(), off, fs.ip[n].size;
      PartlyNone(f, n, off, src);
      BetweenStart(off, size0, |src|, 0);
      var i := 0;
      while i < |src|
        invariant i <= |src| && n in fs.ip && fs.ip[n].kind != T_DEV && Good(fs.sb, fs.F())
        invariant off == off0 + i && off < TWO32 && Between(off0, size0, |src|, i)
        invariant Partly(f, fs.F(), n, off0, src, i)
      {
        var n1 := |src| - i;
        if n1 > CHUNK {
          n1 := CHUNK;
        }
        ghost var g := fs.F();
        BetweenStart(off0, size0, |src|, i);
        ChunkAt(f, g, n, off0, src, i);
        var w := this.WriteChunk(src[i..i + n1]);
        if w.None? {
          PartlyHole(f, g, n, off0, src, i, n1);
          return None;
        }
        if w.value < 0 {
          Refused(off0, size0, |src|, i, n1);
          break;
        }
        BetweenNext(off0, size0, |src|, i, n1);
        PartlyNext(f, g, fs.F(), n, off0, src, i, n1);
        i := i + w.value;
      }
      if i == |src| { AllAccepted(off0, size0, i); }
      PartlyAll(f, fs.F(), n, off0, src, i, size0);
      return Some(if i == |src| then |src| else -1);
    }
  }
}
