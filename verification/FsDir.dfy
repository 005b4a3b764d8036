// Directories: files of 16-byte records, each an inode number and a name of up
// to DIRSIZ bytes; a record with inode number 0 is free.
module FsDir {
  import opened Blocks
  import opened FsLayout
  import opened FsState
  import opened FsFile

  const DIRSIZ: nat := 14
  const RECORD: nat := 16
  const T_DIR: nat := 1

  type Name = seq<byte>

  // ----- names

  /** Character i of a C string whose terminator is left out of s. */
  function CharAt(s: Name, i: nat): byte { if i < |s| then s[i] else 0 }

  /** The bytes of s from i on, before the first NUL and below position n. */
  function Cut(s: Name, i: nat, n: nat): (r: Name)
    requires i <= n
    ensures |r| <= n - i
    decreases n - i
  {
    if i == n || CharAt(s, i) == 0 then [] else [CharAt(s, i)] + Cut(s, i + 1, n)
  }

  /** What of a name counts: the bytes before the first NUL, DIRSIZ at most. */
  function Key(s: Name): Name { Cut(s, 0, DIRSIZ) }

  /** strncmp's verdict from position i on. */
  predicate Agree(s: Name, t: Name, i: nat, n: nat)
    requires i <= n
    decreases n - i
  {
    i == n || (CharAt(s, i) == CharAt(t, i) && (CharAt(s, i) == 0 || Agree(s, t, i + 1, n)))
  }

  lemma {:induction false} AgreeIsSameCut(s: Name, t: Name, i: nat, n: nat)
    requires i <= n
    ensures Agree(s, t, i, n) <==> Cut(s, i, n) == Cut(t, i, n)
    decreases n - i
  {
    if i < n {
      AgreeIsSameCut(s, t, i + 1, n);
      var a, b := Cut(s, i, n), Cut(t, i, n);
      if CharAt(s, i) != 0 && CharAt(t, i) != 0 {
        assert a[0] == CharAt(s, i) && a[1..] == Cut(s, i + 1, n);
        assert b[0] == CharAt(t, i) && b[1..] == Cut(t, i + 1, n);
      }
    }
  }

  /** namecmp: strncmp over DIRSIZ bytes. */
  method NameCmp(s: Name, t: Name) returns (r: int)
    ensures r == 0 <==> Key(s) == Key(t)
  {
    AgreeIsSameCut(s, t, 0, DIRSIZ);
    var i := 0;
    while i < DIRSIZ && CharAt(s, i) != 0 && CharAt(s, i) == CharAt(t, i)
      invariant i <= DIRSIZ && Agree(s, t, i, DIRSIZ) == Agree(s, t, 0, DIRSIZ)
    {
      i := i + 1;
    }
    if i == DIRSIZ {
      return 0;
    }
    return CharAt(s, i) as int - CharAt(t, i) as int;
  }

  /** r holds the bytes of s up to k, all non-NUL, then NULs. */
  lemma {:induction false} PaddedCut(s: Name, r: Name, i: nat, k: nat, n: nat)
    requires i <= k <= n && |r| == n && (k == n || CharAt(s, k) == 0)
    requires forall j :: i <= j < k ==> r[j] == CharAt(s, j) != 0
    requires forall j :: k <= j < n ==> r[j] == 0
    ensures Cut(r, i, n) == Cut(s, i, n) && |Cut(s, i, n)| == k - i
    ensures forall j :: i <= j < k ==> r[j] == Cut(s, i, n)[j - i]
    decreases k - i
  {
    if i < k {
      PaddedCut(s, r, i + 1, k, n);
      forall j | i <= j < k ensures r[j] == Cut(s, i, n)[j - i] {
        if i < j { assert r[j] == Cut(s, i + 1, n)[j - (i + 1)]; }
      }
    }
  }

  lemma PaddedKey(s: Name, r: Name, k: nat)
    requires k <= DIRSIZ && |r| == DIRSIZ && (k == DIRSIZ || CharAt(s, k) == 0)
    requires forall j :: 0 <= j < k ==> r[j] == CharAt(s, j) != 0
    requires forall j :: k <= j < DIRSIZ ==> r[j] == 0
    ensures Key(r) == Key(s) && forall j :: 0 <= j < DIRSIZ ==> r[j] == if j < |Key(s)| then Key(s)[j] else 0
  {
    PaddedCut(s, r, 0, k, DIRSIZ);
  }

  /** strncpy into a name field: the string, then NULs up to DIRSIZ bytes. */
  method NameCopy(s: Name) returns (r: Name)
    ensures |r| == DIRSIZ && Key(r) == Key(s)
    ensures forall j :: 0 <= j < DIRSIZ ==> r[j] == if j < |Key(s)| then Key(s)[j] else 0
  {
    hide Cut;
    r := [];
    var i := 0;
    while i < DIRSIZ && CharAt(s, i) != 0
      invariant i <= DIRSIZ && |r| == i
      invariant forall j :: 0 <= j < i ==> r[j] == CharAt(s, j) != 0
    {
      r := r + [CharAt(s, i)];
      i := i + 1;
    }
    ghost var k := i;
    while i < DIRSIZ
      invariant k <= i <= DIRSIZ && |r| == i
      invariant forall j :: 0 <= j < k ==> r[j] == CharAt(s, j) != 0
      invariant forall j :: k <= j < i ==> r[j] == 0
    {
      r := r + [0];
      i := i + 1;
    }
    PaddedKey(s, r, k);
  }

  // ----- a directory's bytes as records

  function Count(d: seq<byte>): nat { |d| / RECORD }

  function Inum(d: seq<byte>, k: nat): nat
    requires k < Count(d)
  {
    ShortAt(d, RECORD * k)
  }

  function NameAt(d: seq<byte>, k: nat): Name
    requires k < Count(d)
  {
    d[RECORD * k + 2..RECORD * k + RECORD]
  }

  /** Record k is in use and carries this name. */
  predicate Binds(d: seq<byte>, k: nat, key: Name)
    requires k < Count(d)
  {
    Inum(d, k) != 0 && Key(NameAt(d, k)) == key
  }

  /** Whole records, and no name in use twice. */
  ghost predicate DirOk(d: seq<byte>) {
    |d| % RECORD == 0 &&
    forall j, k :: 0 <= j < k < Count(d) && Inum(d, j) != 0 && Inum(d, k) != 0 ==> Key(NameAt(d, j)) != Key(NameAt(d, k))
  }

  /** First record from k on that binds the name, or Count(d). */
  function FindName(d: seq<byte>, key: Name, k: nat): (r: nat)
    requires k <= Count(d)
    ensures k <= r <= Count(d)
    ensures forall j :: k <= j < r ==> !Binds(d, j, key)
    ensures r < Count(d) ==> Binds(d, r, key)
    decreases Count(d) - k
  {
    hide Binds;
    if k == Count(d) || Binds(d, k, key) then k else FindName(d, key, k + 1)
  }

  /** The directory as a map from names to inode numbers. */
  function Lookup(d: seq<byte>, key: Name): Option<nat> {
    var k := FindName(d, key, 0);
    if k < Count(d) then Some(Inum(d, k)) else None
  }

  lemma LookupIs(d: seq<byte>, key: Name, k: nat)
    requires DirOk(d) && k < Count(d) && Binds(d, k, key)
    ensures FindName(d, key, 0) == k && Lookup(d, key) == Some(Inum(d, k))
  {
  }

  lemma LookupNone(d: seq<byte>, key: Name)
    requires forall k :: 0 <= k < Count(d) ==> !Binds(d, k, key)
    ensures Lookup(d, key) == None
  {
  }

  function Record(inum: nat, name: Name): (r: seq<byte>)
    requires inum < 0x1_0000 && |name| == DIRSIZ
    ensures |r| == RECORD
  {
    ShortBytes(inum) + name
  }

  /** Writing record k (or appending it) leaves the other records alone. */
  lemma PutRecord(d: seq<byte>, k: nat, inum: nat, name: Name)
    requires |d| % RECORD == 0 && k <= Count(d) && inum < 0x1_0000 && |name| == DIRSIZ
    ensures RECORD * k <= |d|
    ensures var e := Splice(d, RECORD * k, Record(inum, name));
      && |e| % RECORD == 0 && Count(e) == (if k < Count(d) then Count(d) else Count(d) + 1)
      && Inum(e, k) == inum && NameAt(e, k) == name
      && forall j :: 0 <= j < Count(d) && j != k ==> Inum(e, j) == Inum(d, j) && NameAt(e, j) == NameAt(d, j)
  {
    var at := RECORD * k;
    var e := Splice(d, at, Record(inum, name));
    assert |d| == RECORD * Count(d);
    assert |e| == RECORD * (if k < Count(d) then Count(d) else Count(d) + 1);
    assert e[at..at + RECORD] == Record(inum, name);
    assert e[at] == ShortBytes(inum)[0] && e[at + 1] == ShortBytes(inum)[1];
    assert NameAt(e, k) == name;
    forall j | 0 <= j < Count(d) && j != k ensures Inum(e, j) == Inum(d, j) && NameAt(e, j) == NameAt(d, j) {
      assert RECORD * j + RECORD <= at || RECORD * j >= at + RECORD;
    }
  }

  /** First free record from k on, or Count(d). */
  function FirstFree(d: seq<byte>, k: nat): (r: nat)
    requires k <= Count(d)
    ensures k <= r <= Count(d) && (r < Count(d) ==> Inum(d, r) == 0)
    ensures forall j :: k <= j < r ==> Inum(d, j) != 0
    decreases Count(d) - k
  {
    if k == Count(d) || Inum(d, k) == 0 then k else FirstFree(d, k + 1)
  }

  lemma FirstFreeIs(d: seq<byte>, r: nat)
    requires r <= Count(d) && (r < Count(d) ==> Inum(d, r) == 0) && forall j :: 0 <= j < r ==> Inum(d, j) != 0
    ensures FirstFree(d, 0) == r
  {
  }

  /** Record k, old or appended, now has this name and number; the other records are as they were. */
  ghost predicate PutAt(d: seq<byte>, e: seq<byte>, k: nat, inum: nat, key: Name) {
    && k < Count(e) == (if k < Count(d) then Count(d) else k + 1) && Inum(e, k) == inum && Key(NameAt(e, k)) == key
    && forall j :: 0 <= j < Count(d) && j != k ==> Inum(e, j) == Inum(d, j) && NameAt(e, j) == NameAt(d, j)
  }

  /** Binding a fresh name in a free record or at the end. */
  lemma LinkName(d: seq<byte>, k: nat, inum: nat, name: Name)
    requires DirOk(d) && k <= Count(d) && (k < Count(d) ==> Inum(d, k) == 0)
    requires 0 < inum < 0x1_0000 && |name| == DIRSIZ && Lookup(d, Key(name)) == None
    ensures RECORD * k <= |d|
    ensures Rebound(d, Splice(d, RECORD * k, Record(inum, name)), Key(name), Some(inum))
    ensures PutAt(d, Splice(d, RECORD * k, Record(inum, name)), k, inum, Key(name))
  {
    PutRecord(d, k, inum, name);
    var e := Splice(d, RECORD * k, Record(inum, name));
    SameRecords(d, e, k, Key(name));
    forall key ensures Lookup(e, key) == if key == Key(name) then Some(inum) else Lookup(d, key) {
      SameLookup(d, e, k, key);
    }
  }

  /** e differs from d in record k only, which binds newkey (or nothing) in e and nothing live in d that newkey clashes with. */
  lemma SameRecords(d: seq<byte>, e: seq<byte>, k: nat, key: Name)
    requires DirOk(d) && |e| % RECORD == 0 && k < Count(e) && Count(d) <= Count(e) <= Count(d) + 1
    requires Count(e) == Count(d) + 1 ==> k == Count(d)
    requires forall j :: 0 <= j < Count(d) && j != k ==> Inum(e, j) == Inum(d, j) && NameAt(e, j) == NameAt(d, j)
    requires Inum(e, k) != 0 ==> Key(NameAt(e, k)) == key && Lookup(d, key) == None
    ensures DirOk(e)
  {
    var r := FindName(d, key, 0);
    forall i, j | 0 <= i < j < Count(e) && Inum(e, i) != 0 && Inum(e, j) != 0 ensures Key(NameAt(e, i)) != Key(NameAt(e, j)) {
      if i == k { assert !Binds(d, j, key); }
      else if j == k { assert !Binds(d, i, key); }
    }
  }

  lemma SameLookup(d: seq<byte>, e: seq<byte>, k: nat, key: Name)
    requires DirOk(d) && DirOk(e) && k < Count(e) && Count(d) <= Count(e) <= Count(d) + 1
    requires Count(e) == Count(d) + 1 ==> k == Count(d)
    requires forall j :: 0 <= j < Count(d) && j != k ==> Inum(e, j) == Inum(d, j) && NameAt(e, j) == NameAt(d, j)
    requires k < Count(d) && Binds(d, k, key) ==> !Binds(e, k, key)
    ensures Binds(e, k, key) ==> Lookup(e, key) == Some(Inum(e, k))
    ensures !Binds(e, k, key) && !(k < Count(d) && Binds(d, k, key)) ==> Lookup(e, key) == Lookup(d, key)
    ensures k < Count(d) && Binds(d, k, key) ==> Lookup(e, key) == None
  {
    var r, q := FindName(d, key, 0), FindName(e, key, 0);
    if Binds(e, k, key) {
      LookupIs(e, key, k);
    } else if q < Count(e) {
      assert Binds(d, q, key);
      LookupIs(d, key, q);
    } else if r < Count(d) && r != k {
      assert Binds(e, r, key);
    }
  }

  /** Zeroing a record removes exactly its binding. */
  lemma ClearName(d: seq<byte>, k: nat, name: Name)
    requires DirOk(d) && k < Count(d) && |name| == DIRSIZ && Inum(d, k) != 0
    ensures RECORD * k + RECORD <= |d|
    ensures Rebound(d, Splice(d, RECORD * k, Record(0, name)), Key(NameAt(d, k)), None)
  {
    PutRecord(d, k, 0, name);
    var e := Splice(d, RECORD * k, Record(0, name));
    SameRecords(d, e, k, []);
    forall key ensures Lookup(e, key) == if Binds(d, k, key) then None else Lookup(d, key) {
      SameLookup(d, e, k, key);
    }
  }

  /** e is the directory d with `key` bound to v, or unbound, and no other change. */
  ghost predicate Rebound(d: seq<byte>, e: seq<byte>, key: Name, v: Option<nat>) {
    DirOk(e) && forall k :: Lookup(e, k) == if k == key then v else Lookup(d, k)
  }

  /** Every record is in use. */
  ghost predicate NoFreeRecord(d: seq<byte>) {
    forall j :: 0 <= j < Count(d) ==> Inum(d, j) != 0
  }

  /** Inodes and files other than dp's are the same, and of dp's inode only size and addresses may differ. */
  ghost predicate SameOthers(f: Fs, g: Fs, dp: nat) {
    && g.ip.Keys == f.ip.Keys && dp in f.ip && g.ip[dp].(size := 0, addrs := []) == f.ip[dp].(size := 0, addrs := [])
    && forall m :: m in f.ip && m != dp ==> g.ip[m] == f.ip[m] && FileBytes(g, m) == FileBytes(f, m)
  }

  // ----- the operations

  ghost predicate IsDir(fs: FileSys, dp: nat)
    reads fs
  {
    Good(fs.sb, fs.F()) && dp in fs.ip && fs.ip[dp].kind == T_DIR && fs.ip[dp].size < TWO32 - RECORD && DirOk(FileBytes(fs.F(), dp))
  }

  /** One directory record, through readi. */
  method ReadRecord(fs: FileSys, dp: nat, off: nat) returns (inum: nat, name: Name)
    requires IsDir(fs, dp) && off % RECORD == 0 && off < fs.ip[dp].size
    modifies fs`blk, fs`ip, fs`owner, fs`logged
    ensures fs.F() == old(fs.F()) && fs.logged == old(fs.logged) && off / RECORD < Count(FileBytes(fs.F(), dp))
    ensures inum == Inum(FileBytes(fs.F(), dp), off / RECORD) && name == NameAt(FileBytes(fs.F(), dp), off / RECORD)
    ensures inum < 0x1_0000 && |name| == DIRSIZ
  {
    hide Good; hide FileBytes;
    ghost var d := FileBytes(fs.F(), dp);
    assert |d| % RECORD == 0 && off + RECORD <= |d|;
    var r, de := fs.ReadI(dp, off, RECORD);
    assert de == d[off..off + RECORD] && off == RECORD * (off / RECORD);
    return ShortAt(de, 0), de[2..];
  }

  /** The inode number and byte offset of the record with this name. */
  method DirLookup(fs: FileSys, dp: nat, name: Name) returns (r: Option<nat>, off: nat)
    requires IsDir(fs, dp)
    modifies fs`blk, fs`ip, fs`owner, fs`logged
    ensures fs.F() == old(fs.F()) && fs.logged == old(fs.logged)
    ensures r == Lookup(FileBytes(fs.F(), dp), Key(name))
    ensures r.Some? ==>
      && off % RECORD == 0 && off / RECORD == FindName(FileBytes(fs.F(), dp), Key(name), 0) < Count(FileBytes(fs.F(), dp))
      && Binds(FileBytes(fs.F(), dp), off / RECORD, Key(name))
  {
    hide Good; hide FileBytes; hide Lookup; hide Cut; hide NameAt; hide Inum;
    ghost var f, d := fs.F(), FileBytes(fs.F(), dp);
    off := 0;
    while off < fs.ip[dp].size
      invariant fs.F() == f && fs.logged == old(fs.logged) && off % RECORD == 0 && off <= |d|
      invariant forall j :: 0 <= j < off / RECORD ==> !Binds(d, j, Key(name))
      decreases |d| - off
    {
      var inum, n := ReadRecord(fs, dp, off);
      if inum != 0 {
        var c := NameCmp(name, n);
        if c == 0 {
          LookupIs(d, Key(name), off / RECORD);
          return Some(inum), off;
        }
      }
      off := off + RECORD;
    }
    LookupNone(d, Key(name));
    return None, off;
  }

  /** Byte offset of the first free record, or of the end. */
  method FindFree(fs: FileSys, dp: nat) returns (off: nat)
    requires IsDir(fs, dp)
    modifies fs`blk, fs`ip, fs`owner, fs`logged
    ensures fs.F() == old(fs.F()) && fs.logged == old(fs.logged)
    ensures off % RECORD == 0 && off / RECORD == FirstFree(FileBytes(fs.F(), dp), 0)
  {
    hide Good; hide FileBytes;
    ghost var f, d := fs.F(), FileBytes(fs.F(), dp);
    off := 0;
    while off < fs.ip[dp].size
      invariant fs.F() == f && fs.logged == old(fs.logged) && off % RECORD == 0 && off <= |d|
      invariant forall j :: 0 <= j < off / RECORD ==> Inum(d, j) != 0
      decreases |d| - off
    {
      var inum, n := ReadRecord(fs, dp, off);
      if inum == 0 {
        break;
      }
      off := off + RECORD;
    }
    FirstFreeIs(d, off / RECORD);
  }

  /** The record-sized write both dirlink and unlink make. */
  method WriteRecord(fs: FileSys, dp: nat, rec: seq<byte>, off: nat, ghost key: Name, ghost v: Option<nat>) returns (r: Option<int>)
    requires IsDir(fs, dp) && |rec| == RECORD && off <= fs.ip[dp].size
    requires Rebound(FileBytes(fs.F(), dp), Splice(FileBytes(fs.F(), dp), off, rec), key, v)
    modifies fs`blk, fs`ip, fs`owner, fs`logged
    ensures r.None? ==> fs.AllUsed() && Hole(old(fs.F()), dp, off, RECORD)
    ensures r == Some(-1) <==> off + RECORD > MAXFILE * BSIZE
    ensures r == Some(-1) ==> fs.F() == old(fs.F())
    ensures Noted(old(fs.blk), old(fs.logged), fs.blk, fs.logged)
    ensures r.Some? && r != Some(-1) ==>
      && r == Some(RECORD) && IsDir(fs, dp)
      && Rebound(FileBytes(old(fs.F()), dp), FileBytes(fs.F(), dp), key, v) && SameOthers(old(fs.F()), fs.F(), dp)
      && FileBytes(fs.F(), dp) == Splice(FileBytes(old(fs.F()), dp), off, rec)
  {
    hide Good, FileBytes, Splice, DirOk, Lookup, LogCost, Noted, Hole, Filled, Journaled;
    MappedSize(fs.sb, fs.F(), dp);
    r := fs.WriteI(dp, rec, off);
    if r.Some? && r != Some(-1) {
      MappedSize(fs.sb, fs.F(), dp);
    }
  }

  /**
   * dirlink: -1 iff the name is already bound, changing nothing; otherwise exactly the binding (name, inum) is added,
   * in the first free record or at the end. None is a panic: out of blocks, or a full directory at its maximal size.
   */
  method DirLink(fs: FileSys, dp: nat, name: Name, inum: nat) returns (r: Option<int>)
    requires IsDir(fs, dp) && 0 < inum < 0x1_0000
    modifies fs`blk, fs`ip, fs`owner, fs`logged
    ensures r == Some(-1) <==> Lookup(FileBytes(old(fs.F()), dp), Key(name)) != None
    ensures r == Some(-1) ==> fs.F() == old(fs.F()) && fs.logged == old(fs.logged)
    ensures r.None? ==> NoFreeRecord(FileBytes(old(fs.F()), dp))
    ensures var size := old(fs.ip)[dp].size;
      && (r.None? ==> size + RECORD > MAXFILE * BSIZE || (fs.AllUsed() && BlockOf(old(fs.F()), dp, size / BSIZE) == 0))
      && (r != Some(-1) && NoFreeRecord(FileBytes(old(fs.F()), dp)) && size + RECORD > MAXFILE * BSIZE ==> r.None?)
    ensures Noted(old(fs.blk), old(fs.logged), fs.blk, fs.logged)
    ensures r.Some? && r != Some(-1) ==>
      && r == Some(0) && IsDir(fs, dp)
      && Rebound(FileBytes(old(fs.F()), dp), FileBytes(fs.F(), dp), Key(name), Some(inum)) && SameOthers(old(fs.F()), fs.F(), dp)
      && PutAt(FileBytes(old(fs.F()), dp), FileBytes(fs.F(), dp), FirstFree(FileBytes(old(fs.F()), dp), 0), inum, Key(name))
  {
    hide Good, FileBytes, Splice, Lookup, Rebound, SameOthers, PutAt, Noted, Hole, BlockOf;
    NotedNone(fs.blk, fs.logged);
    ghost var d, f := FileBytes(fs.F(), dp), fs.F();
    var found, at := DirLookup(fs, dp, name);
    if found.Some? {
      return Some(-1);
    }
    var off := FindFree(fs, dp);
    var field := NameCopy(name);
    LinkName(d, off / RECORD, inum, field);
    assert off == RECORD * (off / RECORD);
    MappedSize(fs.sb, fs.F(), dp);
    var w := WriteRecord(fs, dp, Record(inum, field), off, Key(name), Some(inum));
    if w != Some(RECORD) {
      LinkPanic(fs.sb, f, dp, off);
      return None;
    }
    return Some(0);
  }

  /** A record that has no room lies behind all others, and the block it would be in is not there. */
  lemma LinkPanic(sb: Super, f: Fs, dp: nat, off: nat)
    requires Good(sb, f) && dp in f.ip && |FileBytes(f, dp)| % RECORD == 0 && off % RECORD == 0 && off <= f.ip[dp].size
    requires Hole(f, dp, off, RECORD) || off + RECORD > MAXFILE * BSIZE
    ensures off == f.ip[dp].size
    ensures Hole(f, dp, off, RECORD) ==> BlockOf(f, dp, off / BSIZE) == 0
  {
    hide Good, BlockOf;
    MappedSize(sb, f, dp);
    if off + RECORD <= f.ip[dp].size { NoHole(sb, f, dp, off, RECORD); }
    if Hole(f, dp, off, RECORD) {
      var bn: nat :| off / BSIZE <= bn && bn * BSIZE < off + RECORD && BlockOf(f, dp, bn) == 0;
      assert bn == off / BSIZE;
    }
  }

  const DOT: Name := [46]
  const DOTDOT: Name := [46, 46]

  /** No record after the first two, for "." and "..", is in use. */
  ghost predicate Bare(d: seq<byte>) { forall k :: 2 <= k < Count(d) ==> Inum(d, k) == 0 }

  /** isdirempty. */
  method IsDirEmpty(fs: FileSys, n: nat) returns (empty: bool)
    requires IsDir(fs, n)
    modifies fs`blk, fs`ip, fs`owner, fs`logged
    ensures fs.F() == old(fs.F()) && fs.logged == old(fs.logged) && (empty <==> Bare(FileBytes(fs.F(), n)))
  {
    hide Good; hide FileBytes;
    ghost var f, d := fs.F(), FileBytes(fs.F(), n);
    var off := 2 * RECORD;
    while off < fs.ip[n].size
      invariant fs.F() == f && fs.logged == old(fs.logged) && off % RECORD == 0
      invariant forall j :: 2 <= j < off / RECORD && j < Count(d) ==> Inum(d, j) == 0
      decreases |d| - off
    {
      var inum, name := ReadRecord(fs, n, off);
      if inum != 0 { return false; }
      off := off + RECORD;
    }
    return true;
  }

  /** The directory's names belong to inodes the file system knows, and only "." and ".." may lead back to it. */
  ghost predicate Linked(fs: FileSys, dp: nat)
    requires IsDir(fs, dp)
    reads fs
  {
    forall k :: 0 <= k < Count(FileBytes(fs.F(), dp)) && Inum(FileBytes(fs.F(), dp), k) != 0 ==>
      var n := Inum(FileBytes(fs.F(), dp), k);
      && n in fs.ip && (fs.ip[n].kind == T_DIR ==> IsDir(fs, n))
      && (n == dp ==> Dots(NameAt(FileBytes(fs.F(), dp), k)))
  }

  predicate Dots(name: Name) { Key(name) == Key(DOT) || Key(name) == Key(DOTDOT) }

  /** A link count below 1, as the short it is. */
  predicate NoLinks(links: nat) { links == 0 || links >= 0x8000 }

  /** unlink refuses "." and "..", a name that is not bound, and a directory with something in it. */
  ghost predicate Refuses(fs: FileSys, dp: nat, name: Name)
    requires IsDir(fs, dp) && Linked(fs, dp)
    reads fs
  {
    Dots(name) || match Lookup(FileBytes(fs.F(), dp), Key(name))
      case None => true
      case Some(n) => n in fs.ip && !NoLinks(fs.ip[n].nlink) && fs.ip[n].kind == T_DIR && !Bare(FileBytes(fs.F(), n))
  }

  /** The inode a name leads to. */
  ghost predicate LeadsTo(fs: FileSys, dp: nat, name: Name, n: nat)
    requires dp in fs.ip
    reads fs
  {
    Lookup(FileBytes(fs.F(), dp), Key(name)) == Some(n) && n in fs.ip && n != dp
  }

  lemma LookupLinked(fs: FileSys, dp: nat, name: Name)
    requires IsDir(fs, dp) && Linked(fs, dp) && !Dots(name) && Lookup(FileBytes(fs.F(), dp), Key(name)).Some?
    ensures var n := Lookup(FileBytes(fs.F(), dp), Key(name)).value;
      n in fs.ip && n != dp && (fs.ip[n].kind == T_DIR ==> IsDir(fs, n))
  {
    var k := FindName(FileBytes(fs.F(), dp), Key(name), 0);
    assert Binds(FileBytes(fs.F(), dp), k, Key(name));
  }

  /**
   * sys_unlink once the parent is found: exactly the refusals leave everything alone; otherwise the name is gone, the
   * inode it led to has one link less, and so has the parent when that was a directory.
   */
  method Unlink(fs: FileSys, dp: nat, name: Name) returns (r: Option<int>)
    requires IsDir(fs, dp) && Linked(fs, dp)
    modifies fs`blk, fs`ip, fs`owner, fs`logged
    ensures r == Some(-1) <==> old(Refuses(fs, dp, name))
    ensures r == Some(-1) ==> fs.F() == old(fs.F()) && fs.logged == old(fs.logged)
    ensures r.None? <==> !Dots(name) && exists n :: old(LeadsTo(fs, dp, name, n)) && NoLinks(old(fs.ip)[n].nlink)
    ensures Noted(old(fs.blk), old(fs.logged), fs.blk, fs.logged)
    ensures r.Some? && r != Some(-1) ==>
      && r == Some(0) && IsDir(fs, dp) && Rebound(FileBytes(old(fs.F()), dp), FileBytes(fs.F(), dp), Key(name), None)
      && exists n :: old(LeadsTo(fs, dp, name, n)) && !NoLinks(old(fs.ip)[n].nlink) && Unlinked(old(fs.F()), fs.F(), dp, n)
  {
    hide Good, FileBytes, Lookup, Rebound, DirOk, Bare, Noted;
    NotedNone(fs.blk, fs.logged);
    var dot := NameCmp(name, DOT);
    var dotdot := NameCmp(name, DOTDOT);
    if dot == 0 || dotdot == 0 {
      return Some(-1);
    }
    var found, off := DirLookup(fs, dp, name);
    if found.None? {
      return Some(-1);
    }
    LookupLinked(fs, dp, name);
    var n := found.value;
    if NoLinks(fs.ip[n].nlink) {
      return None;
    }
    var isdir := fs.ip[n].kind == T_DIR;
    if isdir {
      var empty := IsDirEmpty(fs, n);
      if !empty {
        return Some(-1);
      }
    }
    r := DropEntry(fs, dp, name, off, n, isdir);
  }

  /** The two link counts, and every other inode and file as before. */
  ghost predicate Unlinked(f: Fs, g: Fs, dp: nat, n: nat) {
    && dp in f.ip && n in f.ip && g.ip.Keys == f.ip.Keys
    && g.ip[n] == f.ip[n].(nlink := OneLess(f.ip[n].nlink)) && FileBytes(g, n) == FileBytes(f, n)
    && g.ip[dp].nlink == (if f.ip[n].kind == T_DIR then OneLess(f.ip[dp].nlink) else f.ip[dp].nlink)
    && forall m :: m in f.ip && m != dp && m != n ==> g.ip[m] == f.ip[m] && FileBytes(g, m) == FileBytes(f, m)
  }

  method DropLinks(fs: FileSys, dp: nat, n: nat, isdir: bool)
    requires IsDir(fs, dp) && n in fs.ip && n != dp && isdir == (fs.ip[n].kind == T_DIR)
    modifies fs`blk, fs`ip, fs`logged
    ensures IsDir(fs, dp) && FileBytes(fs.F(), dp) == FileBytes(old(fs.F()), dp) && Unlinked(old(fs.F()), fs.F(), dp, n)
    ensures fs.ip[dp].(nlink := 0) == old(fs.ip)[dp].(nlink := 0)
    ensures Noted(old(fs.blk), old(fs.logged), fs.blk, fs.logged)
  {
    hide Good, FileBytes, DirOk, Noted, SameAddrs;
    NotedNone(fs.blk, fs.logged);
    if isdir {
      fs.DropLink(dp);
    }
    ghost var b, l := fs.blk, fs.logged;
    fs.DropLink(n);
    NotedTwice(old(fs.blk), old(fs.logged), b, l, fs.blk, fs.logged);
  }

  lemma UnlinkedOf(f: Fs, g: Fs, dp: nat, n: nat)
    requires SameOthers(f, g, dp) && n in f.ip && n != dp
    ensures n in g.ip && g.ip[n].kind == f.ip[n].kind
  {
  }

  lemma UnlinkedAfter(f: Fs, g: Fs, h: Fs, dp: nat, n: nat)
    requires SameOthers(f, g, dp) && n in f.ip && n != dp && Unlinked(g, h, dp, n)
    ensures Unlinked(f, h, dp, n)
  {
    hide FileBytes;
  }

  /** unlink's second half: the record is zeroed and the link counts go down. */
  method DropEntry(fs: FileSys, dp: nat, name: Name, off: nat, n: nat, isdir: bool) returns (r: Option<int>)
    requires IsDir(fs, dp) && LeadsTo(fs, dp, name, n) && isdir == (fs.ip[n].kind == T_DIR)
    requires off % RECORD == 0 && off / RECORD == FindName(FileBytes(fs.F(), dp), Key(name), 0) < Count(FileBytes(fs.F(), dp))
    requires Binds(FileBytes(fs.F(), dp), off / RECORD, Key(name))
    modifies fs`blk, fs`ip, fs`owner, fs`logged
    ensures Noted(old(fs.blk), old(fs.logged), fs.blk, fs.logged)
    ensures r == Some(0) && IsDir(fs, dp) && Unlinked(old(fs.F()), fs.F(), dp, n)
    ensures Rebound(FileBytes(old(fs.F()), dp), FileBytes(fs.F(), dp), Key(name), None)
  {
    hide Good, FileBytes, Splice, Lookup, Rebound, DirOk, Unlinked, SameOthers, Noted, Hole;
    ghost var d := FileBytes(fs.F(), dp);
    ClearName(d, off / RECORD, Zeroes(DIRSIZ));
    MappedSize(fs.sb, fs.F(), dp);
    ghost var f := fs.F();
    NoHole(fs.sb, f, dp, off, RECORD);
    var w := WriteRecord(fs, dp, Record(0, Zeroes(DIRSIZ)), off, Key(name), None);
    if w != Some(RECORD) {
      return None;
    }
    ghost var g, l := fs.F(), fs.logged;
    UnlinkedOf(f, g, dp, n);
    DropLinks(fs, dp, n, isdir);
    UnlinkedAfter(f, g, fs.F(), dp, n);
    NotedTwice(f.blk, old(fs.logged), g.blk, l, fs.blk, fs.logged);
    return Some(0);
  }
}
