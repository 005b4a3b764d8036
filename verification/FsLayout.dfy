// On-disk encodings of the file system: free-map bits and inodes.
module FsLayout {
  import opened Blocks

  const NDIRECT: nat := 12
  const NINDIRECT: nat := 128
  const MAXFILE: nat := 140
  const IPB: nat := 8
  const BPB: nat := 4096
  const INODE_BYTES: nat := 64

  // ----- the free map: bit bi of a block is bit bi%8 of byte bi/8

  /** (x & (1 << k)) != 0 */
  predicate BitOf(x: nat, k: nat) {
    if k == 0 then x % 2 == 1 else BitOf(x / 2, k - 1)
  }

  /** x | (1 << k) or x & ~(1 << k) */
  function WithBit(x: nat, k: nat, v: bool): nat {
    if k == 0 then x / 2 * 2 + (if v then 1 else 0) else 2 * WithBit(x / 2, k - 1, v) + x % 2
  }

  lemma {:induction false} WithBitAt(x: nat, k: nat, v: bool, j: nat)
    ensures BitOf(WithBit(x, k, v), j) == if j == k then v else BitOf(x, j)
  {
    if k > 0 && j > 0 {
      WithBitAt(x / 2, k - 1, v, j - 1);
    }
  }

  function Pow2(n: nat): nat { if n == 0 then 1 else 2 * Pow2(n - 1) }

  lemma {:induction false} WithBitRange(x: nat, k: nat, v: bool, n: nat)
    requires x < Pow2(n) && k < n
    ensures WithBit(x, k, v) < Pow2(n)
  {
    if k > 0 {
      WithBitRange(x / 2, k - 1, v, n - 1);
    }
  }

  predicate Bit(b: Block, bi: nat)
    requires bi < BPB
  {
    BitOf(b[bi / 8] as nat, bi % 8)
  }

  function SetBit(b: Block, bi: nat, v: bool): (r: Block)
    requires bi < BPB
    ensures forall j :: 0 <= j < BPB ==> Bit(r, j) == if j == bi then v else Bit(b, j)
  {
    var x := b[bi / 8] as nat;
    assert Pow2(8) == 256 by { assert Pow2(4) == 16; }
    WithBitRange(x, bi % 8, v, 8);
    var r := b[bi / 8 := WithBit(x, bi % 8, v) as byte];
    assert forall j :: 0 <= j < BPB ==> Bit(r, j) == if j == bi then v else Bit(b, j) by {
      forall j | 0 <= j < BPB ensures Bit(r, j) == if j == bi then v else Bit(b, j) {
        if j / 8 == bi / 8 {
          WithBitAt(x, bi % 8, v, j % 8);
        }
      }
    }
    r
  }

  // ----- inodes: struct dinode is four shorts, the size and thirteen addresses

  /** `addrs` holds the NDIRECT direct blocks and then the indirect block. */
  datatype Inode = Inode(kind: nat, major: nat, minor: nat, nlink: nat, size: nat, addrs: seq<nat>) {
    predicate Ok() {
      && kind < 0x1_0000 && major < 0x1_0000 && minor < 0x1_0000 && nlink < 0x1_0000 && size < TWO32
      && |addrs| == NDIRECT + 1 && forall i :: 0 <= i <= NDIRECT ==> addrs[i] < TWO32
    }
  }

  function ShortAt(b: seq<byte>, off: nat): nat
    requires off + 2 <= |b|
  {
    b[off] as nat + 0x100 * b[off + 1] as nat
  }

  function ShortBytes(w: nat): (s: seq<byte>)
    requires w < 0x1_0000
    ensures |s| == 2 && ShortAt(s, 0) == w
  {
    [(w % 0x100) as byte, (w / 0x100) as byte]
  }

  function WordsBytes(ws: seq<nat>): (s: seq<byte>)
    requires forall i :: 0 <= i < |ws| ==> ws[i] < TWO32
    ensures |s| == 4 * |ws|
  {
    if ws == [] then [] else WordsBytes(ws[..|ws| - 1]) + WordBytes(ws[|ws| - 1])
  }

  lemma {:induction false} WordsBytesAt(ws: seq<nat>, i: nat)
    requires (forall i :: 0 <= i < |ws| ==> ws[i] < TWO32) && i < |ws|
    ensures WordAt(WordsBytes(ws), 4 * i) == ws[i]
  {
    hide WordAt;
    var n := |ws| - 1;
    var s := WordsBytes(ws);
    if i == n {
      assert s[4 * n..4 * n + 4] == WordBytes(ws[n])[0..4];
      SameWord(s, 4 * n, WordBytes(ws[n]), 0);
    } else {
      WordsBytesAt(ws[..n], i);
      assert s[4 * i..4 * i + 4] == WordsBytes(ws[..n])[4 * i..4 * i + 4];
      SameWord(s, 4 * i, WordsBytes(ws[..n]), 4 * i);
    }
  }

  function WordsAt(b: seq<byte>, off: nat, n: nat): (ws: seq<nat>)
    requires off + 4 * n <= |b|
    ensures |ws| == n && forall i :: 0 <= i < n ==> ws[i] == WordAt(b, off + 4 * i) < TWO32
  {
    if n == 0 then [] else WordsAt(b, off, n - 1) + [WordAt(b, off + 4 * (n - 1))]
  }

  function EncodeInode(x: Inode): (s: seq<byte>)
    requires x.Ok()
    ensures |s| == INODE_BYTES
  {
    ShortBytes(x.kind) + ShortBytes(x.major) + ShortBytes(x.minor) + ShortBytes(x.nlink) + WordBytes(x.size) + WordsBytes(x.addrs)
  }

  function DecodeInode(s: seq<byte>): (x: Inode)
    requires |s| == INODE_BYTES
  {
    Inode(ShortAt(s, 0), ShortAt(s, 2), ShortAt(s, 4), ShortAt(s, 6), WordAt(s, 8), WordsAt(s, 12, NDIRECT + 1))
  }

  lemma InodeWords(x: Inode)
    requires x.Ok()
    ensures WordAt(EncodeInode(x), 8) == x.size && WordsAt(EncodeInode(x), 12, NDIRECT + 1) == x.addrs
  {
    hide WordAt; hide ShortAt;
    var s := EncodeInode(x);
    assert s[8..12] == WordBytes(x.size)[0..4];
    SameWord(s, 8, WordBytes(x.size), 0);
    forall i | 0 <= i <= NDIRECT ensures WordsAt(s, 12, NDIRECT + 1)[i] == x.addrs[i] {
      var w := WordsBytes(x.addrs);
      assert s[12 + 4 * i..12 + 4 * i + 4] == w[4 * i..4 * i + 4];
      SameWord(s, 12 + 4 * i, w, 4 * i);
      WordsBytesAt(x.addrs, i);
    }
  }

  lemma InodeRoundTrip(x: Inode)
    requires x.Ok()
    ensures DecodeInode(EncodeInode(x)) == x
  {
    hide WordAt; hide WordsBytes;
    var s := EncodeInode(x);
    InodeWords(x);
    assert s[..8] == ShortBytes(x.kind) + ShortBytes(x.major) + ShortBytes(x.minor) + ShortBytes(x.nlink);
    assert s[0] == ShortBytes(x.kind)[0] && s[1] == ShortBytes(x.kind)[1];
    assert s[2] == ShortBytes(x.major)[0] && s[3] == ShortBytes(x.major)[1];
    assert s[4] == ShortBytes(x.minor)[0] && s[5] == ShortBytes(x.minor)[1];
    assert s[6] == ShortBytes(x.nlink)[0] && s[7] == ShortBytes(x.nlink)[1];
  }

  /** Slot k of an inode block. */
  function GetInode(b: Block, k: nat): Inode
    requires k < IPB
  {
    DecodeInode(b[INODE_BYTES * k..INODE_BYTES * k + INODE_BYTES])
  }

  function PutInode(b: Block, k: nat, x: Inode): (r: Block)
    requires k < IPB && x.Ok()
    ensures GetInode(r, k) == x
    ensures forall j :: 0 <= j < IPB && j != k ==> GetInode(r, j) == GetInode(b, j)
  {
    var r := b[..INODE_BYTES * k] + EncodeInode(x) + b[INODE_BYTES * k + INODE_BYTES..];
    assert r[INODE_BYTES * k..INODE_BYTES * k + INODE_BYTES] == EncodeInode(x);
    InodeRoundTrip(x);
    assert forall j :: 0 <= j < IPB && j != k ==>
      r[INODE_BYTES * j..INODE_BYTES * j + INODE_BYTES] == b[INODE_BYTES * j..INODE_BYTES * j + INODE_BYTES];
    r
  }
}
