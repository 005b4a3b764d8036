// Disk blocks as the file system sees them: BSIZE bytes, read either byte by
// byte or as little-endian 32-bit words (the x86 layout of `uint` fields).
module Blocks {

  const BSIZE: nat := 512
  const WORDS: nat := 128
  const TWO32: nat := 0x1_0000_0000

  newtype byte = x: int | 0 <= x < 256

  type Block = b: seq<byte> | |b| == BSIZE witness Zeroes(BSIZE)

  function Zeroes(n: nat): (s: seq<byte>)
    ensures |s| == n && forall i :: 0 <= i < n ==> s[i] == 0
  {
    seq(n, _ => 0 as byte)
  }

  function WordAt(b: seq<byte>, off: nat): (w: nat)
    requires off + 4 <= |b|
    ensures w < TWO32
  {
    b[off] as nat + 0x100 * b[off + 1] as nat + 0x1_0000 * b[off + 2] as nat + 0x100_0000 * b[off + 3] as nat
  }

  function WordBytes(w: nat): (s: seq<byte>)
    requires w < TWO32
    ensures |s| == 4 && WordAt(s, 0) == w
  {
    var w1 := w / 0x100;
    var w2 := w1 / 0x100;
    var w3 := w2 / 0x100;
    [(w % 0x100) as byte, (w1 % 0x100) as byte, (w2 % 0x100) as byte, w3 as byte]
  }

  /** A word depends on its four bytes only. */
  lemma SameWord(b: seq<byte>, i: nat, c: seq<byte>, j: nat)
    requires i + 4 <= |b| && j + 4 <= |c| && b[i..i + 4] == c[j..j + 4]
    ensures WordAt(b, i) == WordAt(c, j)
  {
    var s, t := b[i..i + 4], c[j..j + 4];
    assert b[i] == s[0] && b[i + 1] == s[1] && b[i + 2] == s[2] && b[i + 3] == s[3];
    assert c[j] == t[0] && c[j + 1] == t[1] && c[j + 2] == t[2] && c[j + 3] == t[3];
  }

  function Word(b: Block, i: nat): (w: nat)
    requires i < WORDS
    ensures w < TWO32
  {
    WordAt(b, 4 * i)
  }

  function SetWord(b: Block, i: nat, w: nat): (r: Block)
    requires i < WORDS && w < TWO32
    ensures Word(r, i) == w
    ensures forall j :: 0 <= j < WORDS && j != i ==> Word(r, j) == Word(b, j)
  {
    var r := b[..4 * i] + WordBytes(w) + b[4 * i + 4..];
    assert r[4 * i..4 * i + 4] == WordBytes(w)[0..4];
    SameWord(r, 4 * i, WordBytes(w), 0);
    assert forall j :: 0 <= j < WORDS && j != i ==> Word(r, j) == Word(b, j) by {
      forall j | 0 <= j < WORDS && j != i ensures Word(r, j) == Word(b, j) {
        assert r[4 * j..4 * j + 4] == b[4 * j..4 * j + 4];
        SameWord(r, 4 * j, b, 4 * j);
      }
    }
    r
  }
}
