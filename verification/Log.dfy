// log.c: the in-memory log header and the procedures that run operations,
// commit a group through the buffer cache and recover at boot. A method that
// returns ok == false has hit a kernel panic; the disk stays as it then is.
module Log {
  import opened Blocks
  import opened LogSpec
  import opened Bio

  /** The crash states recorded from position `since` on are those of commit after k+1, k+2, ... writes. */
  ghost predicate CommitTrace(g: Geometry, d: Disk, bs: seq<nat>, data: seq<Block>, k: nat, cs: seq<Disk>, since: nat)
    requires g.Ok() && |d| == g.disksize && Loggable(g, bs) && |data| == |bs|
  {
    && since <= |cs| <= since + 2 * |bs| + 2 - k
    && forall j :: since <= j < |cs| ==> cs[j] == CommitDisk(g, d, bs, data, k + j - since + 1)
  }

  /** Those recorded from `since` on are the disks after one, two, ... blocks of write_log. */
  ghost predicate LogTrace(g: Geometry, d: Disk, data: seq<Block>, cs: seq<Disk>, since: nat)
  {
    && g.Ok() && |d| == g.disksize && since <= |cs| <= since + |data| && |data| < g.size
    && forall j :: since <= j < |cs| ==> cs[j] == LogWritten(g, d, data, j - since + 1)
  }

  lemma NoneWritten(g: Geometry, d: Disk, data: seq<Block>)
    requires g.Ok() && |d| == g.disksize && |data| < g.size
    ensures LogWritten(g, d, data, 0) == d
  {
  }

  lemma NextWritten(g: Geometry, d: Disk, data: seq<Block>, k: nat)
    requires g.Ok() && |d| == g.disksize && k < |data| < g.size
    ensures LogWritten(g, d, data, k)[g.start + 1 + k := data[k]] == LogWritten(g, d, data, k + 1)
  {
  }

  lemma LogTraceNone(g: Geometry, d: Disk, data: seq<Block>, cs: seq<Disk>)
    requires g.Ok() && |d| == g.disksize && |data| < g.size
    ensures LogTrace(g, d, data, cs, |cs|)
  {
  }

  lemma LogTraceNext(g: Geometry, d: Disk, data: seq<Block>, cs: seq<Disk>, since: nat, cs': seq<Disk>)
    requires LogTrace(g, d, data, cs, since) && |cs| < since + |data|
    requires cs' == cs + [LogWritten(g, d, data, |cs| - since + 1)]
    ensures LogTrace(g, d, data, cs', since)
  {
  }

  /** The disks of write_log are the first ones of commit. */
  lemma LogTraceCommits(g: Geometry, d: Disk, bs: seq<nat>, data: seq<Block>, cs: seq<Disk>, since: nat)
    requires Loggable(g, bs) && |data| == |bs| && LogTrace(g, d, data, cs, since)
    ensures CommitTrace(g, d, bs, data, 0, cs, since)
  {
  }

  lemma CommitTraceNext(g: Geometry, d: Disk, bs: seq<nat>, data: seq<Block>, cs: seq<Disk>, since: nat, cs': seq<Disk>)
    requires g.Ok() && |d| == g.disksize && Loggable(g, bs) && |data| == |bs|
    requires CommitTrace(g, d, bs, data, 0, cs, since) && |cs| == since + |bs|
    requires cs' == cs + [CommitPoint(g, d, bs, data)]
    ensures CommitTrace(g, d, bs, data, 0, cs', since)
  {
  }

  lemma CommitPointIs(g: Geometry, d: Disk, bs: seq<nat>, data: seq<Block>)
    requires g.Ok() && |d| == g.disksize && Loggable(g, bs) && |data| == |bs|
    ensures var e := LogWritten(g, d, data, |bs|); |e| == |d| && e[g.start := SetHeader(e[g.start], bs)] == CommitPoint(g, d, bs, data)
  {
  }

  /** Those recorded from `since` on are the disks after one, two, ... blocks of install_trans. */
  ghost predicate InstallTrace(g: Geometry, d: Disk, bs: seq<nat>, cs: seq<Disk>, since: nat) {
    && g.Ok() && |d| == g.disksize && Loggable(g, bs) && since <= |cs| <= since + |bs|
    && forall j :: since <= j < |cs| ==> cs[j] == Installed(g, d, bs, j - since + 1)
  }

  lemma InstallTraceNone(g: Geometry, d: Disk, bs: seq<nat>, cs: seq<Disk>)
    requires g.Ok() && |d| == g.disksize && Loggable(g, bs)
    ensures InstallTrace(g, d, bs, cs, |cs|) && Installed(g, d, bs, 0) == d
  {
  }

  lemma InstallTraceNext(g: Geometry, d: Disk, bs: seq<nat>, cs: seq<Disk>, since: nat, cs': seq<Disk>)
    requires InstallTrace(g, d, bs, cs, since) && |cs| < since + |bs|
    requires cs' == cs + [Installed(g, d, bs, |cs| - since + 1)]
    ensures InstallTrace(g, d, bs, cs', since)
  {
  }

  lemma TraceAppend(g: Geometry, d: Disk, bs: seq<nat>, data: seq<Block>, cs: seq<Disk>, c0: nat, cs': seq<Disk>)
    requires g.Ok() && |d| == g.disksize && Loggable(g, bs) && |data| == |bs|
    requires CommitTrace(g, d, bs, data, 0, cs, c0) && cs <= cs'
    requires CommitTrace(g, d, bs, data, |cs| - c0, cs', |cs|)
    ensures CommitTrace(g, d, bs, data, 0, cs', c0)
  {
    forall j | c0 <= j < |cs'| ensures cs'[j] == CommitDisk(g, d, bs, data, j - c0 + 1) {
      if j < |cs| { assert cs'[j] == cs[j]; }
    }
  }

  /** Those recorded from `since` on are the disks of an installation that ends with clearing the header. */
  ghost predicate ClearTrace(g: Geometry, d: Disk, bs: seq<nat>, cs: seq<Disk>, since: nat) {
    && g.Ok() && |d| == g.disksize && Loggable(g, bs) && since <= |cs| <= since + |bs| + 1
    && forall j :: since <= j < |cs| ==>
      cs[j] == if j < since + |bs| then Installed(g, d, bs, j - since + 1)
               else Installed(g, d, bs, |bs|)[g.start := SetHeader(d[g.start], [])]
  }

  /** After tail rounds: nothing but the listed blocks reads otherwise, and those installed read as on disk. */
  ghost predicate InstallViews(bs: seq<nat>, tail: nat, view: Disk, view': Disk, disk: Disk) {
    && |view| == |view'| == |disk| && tail <= |bs|
    && (forall b: nat :: b < |disk| ==> b in bs || view'[b] == view[b])
    && forall i :: 0 <= i < tail ==> bs[i] < |disk| && view'[bs[i]] == disk[bs[i]]
  }

  lemma NoneShown(bs: seq<nat>, view: Disk, disk: Disk)
    requires |view| == |disk|
    ensures InstallViews(bs, 0, view, view, disk)
  {
  }

  lemma NextShown(bs: seq<nat>, tail: nat, view0: Disk, view: Disk, disk: Disk, view': Disk, disk': Disk)
    requires InstallViews(bs, tail, view0, view, disk) && tail < |bs| && bs[tail] < |disk|
    requires |disk'| == |disk| && disk' == disk[bs[tail] := disk'[bs[tail]]] && view' == view[bs[tail] := disk'[bs[tail]]]
    ensures InstallViews(bs, tail + 1, view0, view', disk')
  {
  }

  lemma AllShown(bs: seq<nat>, view0: Disk, view: Disk, disk: Disk)
    requires InstallViews(bs, |bs|, view0, view, disk)
    ensures forall b: nat :: b < |disk| ==> b in bs || view[b] == view0[b]
    ensures forall b :: b in bs ==> b < |disk| && view[b] == disk[b]
  {
  }

  lemma ClearedAfter(g: Geometry, d: Disk, bs: seq<nat>, cs: seq<Disk>, since: nat, cs': seq<Disk>)
    requires InstallTrace(g, d, bs, cs, since)
    requires cs' == cs || (|cs| == since + |bs| && cs' == cs + [Installed(g, d, bs, |bs|)[g.start := SetHeader(d[g.start], [])]])
    ensures ClearTrace(g, d, bs, cs', since)
  {
  }

  lemma CommitTraceNone(g: Geometry, d: Disk, bs: seq<nat>, data: seq<Block>, cs: seq<Disk>)
    requires g.Ok() && |d| == g.disksize && Loggable(g, bs) && |data| == |bs|
    ensures CommitTrace(g, d, bs, data, 0, cs, |cs|)
  {
  }

  /** What the readers of home blocks got before the commit they get after it. */
  lemma SameViews(g: Geometry, d: Disk, bs: seq<nat>, data: seq<Block>, view: Disk, view': Disk)
    requires g.Ok() && |d| == g.disksize && Loggable(g, bs) && |data| == |bs| && |view| == |view'| == g.disksize
    requires forall i :: 0 <= i < |bs| ==> view[bs[i]] == data[i]
    requires forall b :: b in bs ==> b < |d| && view'[b] == CommitDisk(g, d, bs, data, 2 * |bs| + 2)[b]
    requires forall b: nat :: g.Home(b) && b !in bs ==> view'[b] == view[b]
    ensures forall b: nat :: g.Home(b) ==> view'[b] == view[b]
  {
    CommittedData(g, d, bs, data);
    hide CommitDisk;
    forall b: nat | g.Home(b) ensures view'[b] == view[b] {
      if b in bs { assert bs[Find(bs, b)] == b; }
    }
  }

  lemma ClearIsCommit(g: Geometry, d: Disk, bs: seq<nat>, data: seq<Block>, cs: seq<Disk>, c0: nat, cs': seq<Disk>)
    requires g.Ok() && |d| == g.disksize && Loggable(g, bs) && |data| == |bs|
    requires CommitTrace(g, d, bs, data, 0, cs, c0) && |cs| == c0 + |bs| + 1 && cs <= cs'
    requires ClearTrace(g, CommitPoint(g, d, bs, data), bs, cs', |cs|)
    ensures CommitTrace(g, d, bs, data, 0, cs', c0)
  {
    hide CommitPoint, Installed, CommitDisk;
    assert CommitTrace(g, d, bs, data, |bs| + 1, cs', |cs|) by { CommitTail(g, d, bs, data); }
    TraceAppend(g, d, bs, data, cs, c0, cs');
  }

  lemma InstalledKeepsHeader(g: Geometry, d: Disk, bs: seq<nat>)
    requires g.Ok() && |d| == g.disksize && Loggable(g, bs)
    ensures Installed(g, d, bs, |bs|)[g.start] == d[g.start]
  {
    InstalledAt(g, d, bs, |bs|);
  }

  /** From the commit point on, commit is an installation followed by clearing the header. */
  lemma CommitTail(g: Geometry, d: Disk, bs: seq<nat>, data: seq<Block>)
    requires g.Ok() && |d| == g.disksize && Loggable(g, bs) && |data| == |bs|
    ensures var p := CommitPoint(g, d, bs, data); var n := |bs|;
      && (forall j :: 0 <= j <= n ==> CommitDisk(g, d, bs, data, n + 1 + j) == Installed(g, p, bs, j))
      && CommitDisk(g, d, bs, data, 2 * n + 2) == Installed(g, p, bs, n)[g.start := SetHeader(p[g.start], [])]
  {
  }

  /** Commit leaves the logged data in the home blocks. */
  lemma CommittedData(g: Geometry, d: Disk, bs: seq<nat>, data: seq<Block>)
    requires g.Ok() && |d| == g.disksize && Loggable(g, bs) && |data| == |bs|
    ensures forall i :: 0 <= i < |bs| ==> bs[i] < |d| && CommitDisk(g, d, bs, data, 2 * |bs| + 2)[bs[i]] == data[i]
  {
    hide SetHeader;
    var p := CommitPoint(g, d, bs, data);
    InstalledAt(g, p, bs, |bs|);
    forall i | 0 <= i < |bs| ensures bs[i] < |d| && CommitDisk(g, d, bs, data, 2 * |bs| + 2)[bs[i]] == data[i] {
      SlotNotLogged(g, bs, i);
      HeaderNotLogged(g, bs);
      assert p[g.start + 1 + i] == data[i];
    }
  }

  /** Whoever holds buffers holds home blocks, and of those in bs pinned ones that he is not changing. */
  ghost predicate Readers(g: Geometry, bs: seq<nat>, held: set<nat>, pinned: set<nat>, b: seq<Buf>, touched: set<nat>) {
    forall n :: n in held ==> g.Home(n) && (n in bs ==> n in pinned && !InChange(b, touched, n))
  }

  lemma Reader(g: Geometry, bs: seq<nat>, held: set<nat>, pinned: set<nat>, b: seq<Buf>, touched: set<nat>, n: nat)
    requires Readers(g, bs, held, pinned, b, touched)
    ensures n in held ==> g.Home(n) && (n in bs ==> n in pinned && !InChange(b, touched, n))
  {
  }

  /** All but x are as before. */
  lemma FewerReaders(g: Geometry, bs: seq<nat>, held: set<nat>, pinned: set<nat>, b: seq<Buf>, t: set<nat>,
                     held': set<nat>, pinned': set<nat>, c: seq<Buf>, t': set<nat>, x: nat)
    requires Readers(g, bs, held, pinned, b, t) && held' <= held - {x} && pinned - {x} <= pinned' && NoNewChange(b, t, c, t')
    ensures Readers(g, bs, held', pinned', c, t')
  {
  }

  lemma ReadersOfNone(g: Geometry, bs: seq<nat>, held: set<nat>, pinned: set<nat>, b: seq<Buf>, touched: set<nat>)
    requires Readers(g, bs, held, pinned, b, touched)
    ensures Readers(g, [], held, pinned, b, touched)
  {
  }

  lemma InstallSource(g: Geometry, d: Disk, bs: seq<nat>, k: nat)
    requires g.Ok() && |d| == g.disksize && Loggable(g, bs) && k < |bs|
    ensures Installed(g, d, bs, k + 1) == Installed(g, d, bs, k)[bs[k] := Installed(g, d, bs, k)[g.start + 1 + k]]
  {
    InstalledAt(g, d, bs, k);
  }

  lemma LogFits(g: Geometry, bs: seq<nat>)
    requires Loggable(g, bs)
    ensures |bs| <= LOGSIZE && |bs| < g.size
  {
  }

  lemma HomeOf(g: Geometry, bs: seq<nat>, i: nat)
    requires Loggable(g, bs) && i < |bs|
    ensures g.Home(bs[i])
  {
  }

  lemma RecoverableParts(g: Geometry, d: Disk)
    requires Recoverable(g, d)
    ensures g.Ok() && |d| == g.disksize && HeaderCount(d[g.start]) <= LOGSIZE
    ensures LoggedBlocks(g, d) == HeaderBlocks(d[g.start])
    ensures Loggable(g, HeaderBlocks(d[g.start]))
  {
  }

  lemma HeaderNotLogged(g: Geometry, bs: seq<nat>)
    requires g.Ok() && Loggable(g, bs)
    ensures g.start !in bs
    ensures Loggable(g, [])
  {
    assert !g.Home(g.start);
  }

  lemma SlotNotLogged(g: Geometry, bs: seq<nat>, i: nat)
    requires g.Ok() && Loggable(g, bs) && i < |bs|
    ensures g.start + 1 + i !in bs && Find(bs, bs[i]) == i && bs[i] in bs && bs[i] < g.disksize
    ensures g.start + 1 + i < g.disksize && !g.Home(g.start + 1 + i)
  {
    assert !g.Home(g.start + 1 + i);
  }

  function Elems(bs: seq<nat>): (s: set<nat>)
    ensures forall b :: b in s <==> b in bs
  {
    set b | b in bs
  }

  /** No new references, and the ones lost are of blocks that were held. */
  ghost predicate Fewer(refs: set<nat>, held: set<nat>, refs': set<nat>) { refs' <= refs && refs - held <= refs' }

  lemma FewerStill(refs: set<nat>, held: set<nat>, refs': set<nat>, held': set<nat>, refs'': set<nat>)
    requires Fewer(refs, held, refs') && Fewer(refs', held', refs'') && held' <= held
    ensures Fewer(refs, held, refs'')
  {
  }

  lemma FewerSame(refs: set<nat>, held: set<nat>)
    ensures Fewer(refs, held, refs)
  {
  }

  lemma FewerIn(refs: set<nat>, held: set<nat>, refs': set<nat>)
    requires Fewer(refs, held, refs')
    ensures refs' <= refs
  {
  }

  /** Two blocks read, and released unless somebody else has them too. */
  lemma FewerByTwo(refs: set<nat>, held: set<nat>, m: nat, n: nat, keepM: bool, keepN: bool, refs': set<nat>)
    requires keepM <==> m in refs
    requires (n !in refs ==> !keepN) && (n in refs && n !in held ==> keepN)
    requires refs' == refs + {m, n} - (if keepM then {} else {m}) - (if keepN then {} else {n})
    ensures Fewer(refs, held, refs')
  {
  }

  lemma FewerByOne(refs: set<nat>, held: set<nat>, n: nat, keep: bool, refs': set<nat>)
    requires keep <==> n in refs
    requires refs' == if keep then refs + {n} else refs + {n} - {n}
    ensures Fewer(refs, held, refs')
  {
  }

  /** For installing: there are two buffers over, or one and the blocks listed are pinned. */
  ghost predicate Fits(pinned: set<nat>, refs: set<nat>, bs: seq<nat>) {
    |pinned + refs| + 1 < NBUF || (Elems(bs) <= pinned && !Crowded(pinned, refs))
  }

  lemma {:induction false} DistinctSize(bs: seq<nat>, s: set<nat>)
    requires Distinct(bs) && forall b :: b in s <==> b in bs
    ensures |s| == |bs|
  {
    if bs == [] {
      assert s == {};
    } else {
      var last, rest := bs[|bs| - 1], bs[..|bs| - 1];
      assert bs == rest + [last];
      DistinctSize(rest, s - {last});
    }
  }

  /** There are fewer logged blocks and other referenced ones than buffers. */
  ghost predicate Enough(bs: seq<nat>, refs: set<nat>) { |bs| + |refs - Elems(bs)| < 30 }

  lemma CrowdedIff(g: Geometry, bs: seq<nat>, pinned: set<nat>, refs: set<nat>)
    requires Loggable(g, bs) && pinned == Elems(bs)
    ensures Crowded(pinned, refs) <==> !Enough(bs, refs)
  {
    DistinctSize(bs, pinned);
    assert pinned + refs == pinned + (refs - pinned) && pinned * (refs - pinned) == {};
  }

  lemma CrowdedLess(pinned: set<nat>, refs: set<nat>, pinned': set<nat>, refs': set<nat>)
    requires pinned' <= pinned && refs' <= refs && !Crowded(pinned, refs)
    ensures !Crowded(pinned', refs')
  {
    Within(pinned' + refs', pinned + refs);
  }

  /** A buffer for a pinned block is always there. */
  lemma PinnedRoom(pinned: set<nat>, refs: set<nat>, m: nat, n: nat)
    requires n in pinned
    ensures RoomForTwo(pinned, refs, m, n) <==> Room(pinned, refs, m)
  {
  }

  /** A block of the log is neither pinned nor referenced by readers of home blocks. */
  lemma SlotRoom(pinned: set<nat>, refs: set<nat>, m: nat)
    ensures !Crowded(pinned, refs) ==> Room(pinned, refs, m)
    ensures m !in pinned && m !in refs ==> (Room(pinned, refs, m) <==> !Crowded(pinned, refs))
  {
  }

  lemma NoneTaken()
    ensures !Crowded({}, {})
  {
  }

  lemma FewRefs(refs: set<nat>, m: nat)
    ensures |refs| + 1 < NBUF ==> Room({}, refs, m) && forall bs: seq<nat> :: Fits({}, refs, bs)
  {
    assert {} + refs == refs;
  }

  /** install_trans and recovery find their buffers. */
  lemma InstallRoom(pinned: set<nat>, refs: set<nat>, bs: seq<nat>, tail: nat, m: nat)
    requires tail < |bs| && Fits(pinned, refs, bs[tail..])
    ensures RoomForTwo(pinned, refs, m, bs[tail])
  {
    assert bs[tail..][0] == bs[tail];
    if |pinned + refs| + 1 < NBUF {
      assert pinned + (refs + {m}) == pinned + refs + {m};
    } else {
      assert bs[tail] in Elems(bs[tail..]);
    }
  }

  lemma ElemsRest(bs: seq<nat>, tail: nat, pinned: set<nat>, slot: nat)
    requires tail < |bs| && pinned <= Elems(bs[tail..]) && slot !in bs
    ensures pinned - {bs[tail]} <= Elems(bs[tail + 1..]) && slot !in pinned
  {
    assert forall x :: x in bs[tail..] ==> x in bs;
    assert forall x :: x in bs[tail..] && x != bs[tail] ==> x in bs[tail + 1..];
  }

  lemma AllThere(bs: seq<nat>, refs: set<nat>, refs': set<nat>)
    requires !Crowded(Elems(bs), refs) && refs' <= refs
    ensures Fits(Elems(bs), refs', bs)
  {
    CrowdedLess(Elems(bs), refs, Elems(bs), refs');
  }

  lemma ElemsNext(bs: seq<nat>, tail: nat)
    requires tail < |bs|
    ensures Elems(bs[..tail + 1]) == Elems(bs[..tail]) + {bs[tail]} && bs[..|bs|] == bs && Elems(bs[..tail + 1]) <= Elems(bs)
  {
  }

  lemma ElemsNone(bs: seq<nat>)
    ensures Elems(bs[..0]) == {} && bs[..|bs|] == bs
  {
  }

  lemma NotPinned(bs: seq<nat>, pinned: set<nat>, b: nat)
    requires pinned == Elems(bs) && b !in bs
    ensures b !in pinned
  {
  }

  /** With all installed there is room for the header. */
  lemma Unpinned(pinned: set<nat>, refs: set<nat>, bs: seq<nat>, refs': set<nat>)
    requires Fits(pinned, refs, bs) && refs' <= refs
    ensures !Crowded({}, refs')
  {
    Within({} + refs', pinned + refs);
  }

  /** Whoever has or waits for buffers, has or waits for home blocks. */
  ghost predicate AtHome(g: Geometry, refs: set<nat>) { forall b :: b in refs ==> g.Home(b) }

  lemma ClearHome(g: Geometry, bs: seq<nat>, held: set<nat>, pinned: set<nat>, b: seq<Buf>, touched: set<nat>)
    requires Readers(g, bs, held, pinned, b, touched)
    ensures AtHome(g, held)
  {
  }

  /** After k rounds of write_log: no home block reads otherwise, and blocks are released but not unpinned. */
  ghost predicate Copied(g: Geometry, bs: seq<nat>, k: nat, p: set<nat>, v0: Disk, r0: set<nat>, h0: set<nat>, v: Disk, r: set<nat>, h: set<nat>) {
    && k <= |bs| && |v| == |v0| == g.disksize && (forall b: nat :: g.Home(b) ==> v[b] == v0[b])
    && h == h0 - Elems(bs[..k]) && Fewer(r0, h0, r) && p == Elems(bs)
    && (k == 0 ==> r == r0) && (k > 0 && AtHome(g, r0) ==> !Crowded(p, r0))
  }

  lemma CopiedNone(g: Geometry, bs: seq<nat>, p: set<nat>, v: Disk, r: set<nat>, h: set<nat>)
    requires |v| == g.disksize && p == Elems(bs)
    ensures Copied(g, bs, 0, p, v, r, h, v, r, h)
  {
    ElemsNone(bs);
  }

  lemma CopyRoom(g: Geometry, bs: seq<nat>, k: nat, p: set<nat>, v0: Disk, r0: set<nat>, h0: set<nat>, v: Disk, r: set<nat>, h: set<nat>)
    requires g.Ok() && Loggable(g, bs) && Copied(g, bs, k, p, v0, r0, h0, v, r, h) && k < |bs|
    ensures v[bs[k]] == v0[bs[k]]
    ensures !Crowded(p, r0) ==> Room(p, r, g.start + 1 + k)
  {
    if !Crowded(p, r0) { CrowdedLess(p, r0, p, r); }
    HomeOf(g, bs, k);
  }

  lemma CopiedNext(g: Geometry, bs: seq<nat>, k: nat, p: set<nat>, v0: Disk, r0: set<nat>, h0: set<nat>, v: Disk, r: set<nat>, h: set<nat>,
                   v': Disk, r': set<nat>, h': set<nat>)
    requires g.Ok() && Loggable(g, bs) && Copied(g, bs, k, p, v0, r0, h0, v, r, h) && k < |bs|
    requires Room(p, r, g.start + 1 + k) && Fewer(r, h, r') && h' == h - {bs[k]}
    requires |v'| == |v| && g.start + 1 + k < |v| && v' == v[g.start + 1 + k := v'[g.start + 1 + k]]
    ensures Copied(g, bs, k + 1, p, v0, r0, h0, v', r', h')
  {
    SlotNotLogged(g, bs, k);
    ElemsNext(bs, k);
  }

  lemma CopiedAll(g: Geometry, bs: seq<nat>, p: set<nat>, v0: Disk, r0: set<nat>, h0: set<nat>, v: Disk, r: set<nat>, h: set<nat>)
    requires Copied(g, bs, |bs|, p, v0, r0, h0, v, r, h)
    ensures |v| == |v0| == g.disksize && (forall b: nat :: g.Home(b) ==> v[b] == v0[b]) && h == h0 - Elems(bs) && Fewer(r0, h0, r)
    ensures AtHome(g, r0) ==> |bs| == 0 || !Crowded(p, r0)
  {
    assert bs[..|bs|] == bs;
  }

  /** After k rounds of install_trans: its blocks are unpinned and released, and what fitted still fits. */
  ghost predicate Freed(bs: seq<nat>, k: nat, p0: set<nat>, r0: set<nat>, h0: set<nat>, p: set<nat>, r: set<nat>, h: set<nat>) {
    && k <= |bs| && p <= Elems(bs[k..]) && h == h0 - Elems(bs[..k]) && Fewer(r0, h0, r)
    && (Fits(p0, r0, bs) ==> Fits(p, r, bs[k..]))
  }

  lemma FreedNone(bs: seq<nat>, p: set<nat>, r: set<nat>, h: set<nat>)
    requires p <= Elems(bs)
    ensures Freed(bs, 0, p, r, h, p, r, h)
  {
    assert bs[0..] == bs;
    ElemsNone(bs);
  }

  /** There is room for round k, if all fits, and its slot is not pinned. */
  lemma FreedRoom(bs: seq<nat>, k: nat, p0: set<nat>, r0: set<nat>, h0: set<nat>, p: set<nat>, r: set<nat>, h: set<nat>, m: nat)
    requires Freed(bs, k, p0, r0, h0, p, r, h) && k < |bs| && m !in bs
    ensures Fits(p0, r0, bs) ==> RoomForTwo(p, r, m, bs[k])
    ensures m !in p
  {
    ElemsRest(bs, k, p, m);
    if Fits(p0, r0, bs) { InstallRoom(p, r, bs, k, m); }
  }

  lemma FreedNext(g: Geometry, bs: seq<nat>, k: nat, p0: set<nat>, r0: set<nat>, h0: set<nat>, p: set<nat>, r: set<nat>, h: set<nat>,
                  p': set<nat>, r': set<nat>, h': set<nat>)
    requires Loggable(g, bs) && Freed(bs, k, p0, r0, h0, p, r, h) && k < |bs|
    requires p' == p - {bs[k]} && h' == h - {bs[k]} && Fewer(r, h, r')
    ensures Freed(bs, k + 1, p0, r0, h0, p', r', h')
  {
    if Fits(p0, r0, bs) { StillFits(g, bs, k, p, r, r'); }
    ElemsNext(bs, k);
    assert p' <= Elems(bs[k + 1..]) by {
      forall b | b in p' ensures b in bs[k + 1..] {
        var i :| 0 <= i < |bs[k..]| && bs[k..][i] == b;
        assert bs[k + 1..][i - 1] == b;
      }
    }
  }

  lemma FreedAll(bs: seq<nat>, p0: set<nat>, r0: set<nat>, h0: set<nat>, p: set<nat>, r: set<nat>, h: set<nat>)
    requires Freed(bs, |bs|, p0, r0, h0, p, r, h)
    ensures p == {} && h == h0 - Elems(bs) && Fewer(r0, h0, r)
  {
    assert bs[..|bs|] == bs;
  }

  lemma StillFits(g: Geometry, bs: seq<nat>, tail: nat, pinned: set<nat>, refs: set<nat>, refs': set<nat>)
    requires Loggable(g, bs) && tail < |bs| && Fits(pinned, refs, bs[tail..]) && refs' <= refs
    ensures Fits(pinned - {bs[tail]}, refs', bs[tail + 1..])
  {
    Within(pinned - {bs[tail]} + refs', pinned + refs);
    if |pinned + refs| + 1 >= NBUF {
      forall b | b in Elems(bs[tail + 1..]) ensures b in pinned - {bs[tail]} {
        var k :| 0 <= k < |bs[tail + 1..]| && bs[tail + 1..][k] == b;
        assert bs[tail + 1 + k] == b && bs[tail..][k + 1] == b;
      }
    }
  }

  class Log {
    const bc: Bcache
    var start: nat
    var size: nat
    var n: nat
    var block: seq<nat>
    var outstanding: nat
    var committing: bool

    ghost function Geo(): Geometry
      reads this, bc
    {
      Geometry(start, size, |bc.disk|)
    }

    /** lh.block[0..n) */
    function Lh(): seq<nat>
      requires n <= |block|
      reads this
    {
      block[..n]
    }

    ghost predicate Shape()
      reads this, bc, bc.bufs, bc.prev, bc.next
    {
      && bc.Valid() && |bc.view| == |bc.disk| && |block| == LOGSIZE && n <= LOGSIZE
      && Geo().Ok() && Loggable(Geo(), Lh())
    }

    /** Exactly the logged blocks are pinned in the cache. */
    ghost predicate Valid()
      reads this, bc, bc.bufs, bc.prev, bc.next
    {
      Shape() && bc.pinned == Elems(Lh())
    }

    /** No buffer is locked. */
    ghost predicate Idle()
      reads this, bc
    {
      bc.touched == {} && bc.held == {}
    }

    /** Whoever holds buffers meanwhile holds home blocks, and logged ones just to read them. */
    ghost predicate Clear()
      requires n <= |block|
      reads this, bc, bc.bufs
    {
      Readers(Geo(), Lh(), bc.held, bc.pinned, bc.bufs[..], bc.touched)
    }

    /** initlog, up to the call of recover_from_log: nothing logged, nothing pinned. */
    constructor (cache: Bcache, logstart: nat, nlog: nat)
      requires cache.Valid() && Geometry(logstart, nlog, |cache.disk|).Ok() && cache.pinned == {}
      ensures Valid() && bc == cache && start == logstart && size == nlog
      ensures n == 0 && outstanding == 0 && !committing
    {
      bc, start, size := cache, logstart, nlog;
      n, block, outstanding, committing := 0, seq(LOGSIZE, _ => 0), 0, false;
      new;
      bc.Ranges();
      assert Lh() == [];
    }

    /** One pass of begin_op's loop under log.lock; false means the caller sleeps on &log. */
    method TryBegin() returns (admitted: bool)
      modifies this`outstanding
      ensures admitted <==> !committing && n + (old(outstanding) + 1) * MAXOPBLOCKS <= LOGSIZE
      ensures outstanding == old(outstanding) + if admitted then 1 else 0
    {
      if committing {
        return false;
      } else if n + (outstanding + 1) * MAXOPBLOCKS > LOGSIZE {
        return false;
      }
      outstanding := outstanding + 1;
      return true;
    }

    /**
     * log_write of held buffer i. It panics exactly when the log is full or no operation is outstanding, before it
     * looks for an entry to absorb the block; otherwise the block is in the log once and pinned.
     */
    method LogWrite(i: nat) returns (ok: bool)
      requires Valid() && i < NBUF == bc.bufs.Length && bc.bufs[i].locked && bc.bufs[i].valid && Geo().Home(bc.bufs[i].blockno)
      modifies this`n, this`block, bc`touched, bc`pinned, bc.bufs
      ensures ok <==> !(old(n) >= LOGSIZE || old(n) >= size - 1) && outstanding >= 1
      ensures n <= |block|
      ensures !ok ==> Lh() == old(Lh()) && bc.bufs[..] == old(bc.bufs[..]) && bc.pinned == old(bc.pinned)
      ensures ok ==> Valid() && bc.touched == old(bc.touched) - {i}
      ensures ok ==> bc.bufs[..] == old(bc.bufs[..])[i := old(bc.bufs[i]).(dirty := true)]
      ensures ok ==> var b := old(bc.bufs[i]).blockno; Lh() == if b in old(Lh()) then old(Lh()) else old(Lh()) + [b]
    {
      hide Bcache.Valid;
      if n >= LOGSIZE || n >= size - 1 {
        return false;
      }
      if outstanding < 1 {
        return false;
      }
      var b := bc.bufs[i].blockno;
      var k := 0;
      while k < n
        invariant k <= n
        invariant forall j :: 0 <= j < k ==> block[j] != b
      {
        if block[k] == b {
          break;
        }
        k := k + 1;
      }
      ghost var was := Lh();
      block := block[k := b];
      if k == n {
        n := n + 1;
        assert Lh() == was + [b];
      } else {
        assert Lh() == was && was[k] == b;
      }
      bc.Pin(i);
      return true;
    }

    /** One round of write_log's loop. */
    method WriteLogBlock(tail: nat) returns (ok: bool)
      requires Valid() && Clear() && tail < n
      modifies bc, bc.bufs, bc.prev, bc.next
      ensures |bc.disk| == old(|bc.disk|)
      ensures !ok ==> bc.crashes == old(bc.crashes)
      ensures ok ==> Valid() && Clear() && block[tail] < |bc.disk| && start + 1 + tail < |bc.disk|
      ensures ok ==> bc.disk == old(bc.disk)[start + 1 + tail := old(bc.view)[block[tail]]]
      ensures ok ==> bc.crashes == old(bc.crashes) + [bc.disk]
      ensures ok ==> bc.view == old(bc.view)[start + 1 + tail := old(bc.view)[block[tail]]]
      ensures ok ==> bc.held == old(bc.held) - {block[tail]} && bc.pinned == old(bc.pinned)
      ensures ok ==> Fewer(old(bc.Refs()), old(bc.held), bc.Refs())
      ensures ok <==> Room(old(bc.pinned), old(bc.Refs()), start + 1 + tail)
      ensures old(bc.Calm()) ==> bc.Calm()
    {
      hide Bcache.Valid; hide Bcache.Calm; hide Loggable; hide RoomForTwo; hide Crowded; hide Room; hide NoNewChange; hide InChange; hide Readers; hide RefsOf; hide Fewer;
      ghost var b0, t0, h0, p0, r0 := bc.bufs[..], bc.touched, bc.held, bc.pinned, bc.Refs();
      ghost var g, bs := Geo(), Lh();
      SlotNotLogged(g, bs, tail);
      Reader(g, bs, h0, p0, b0, t0, bs[tail]);
      Reader(g, bs, h0, p0, b0, t0, start + 1 + tail);
      PinnedRoom(p0, bc.Refs(), start + tail + 1, block[tail]);
      var to, from := bc.ReadTwo(start + tail + 1, block[tail]);
      if to.None? || from.None? { return false; }
      ghost var b1 := bc.bufs[..];
      bc.Ranges();
      ghost var k1, k2 := b1[to.value].refcnt > 1, b1[from.value].refcnt > 1;
      bc.CopyOut(from.value, to.value);
      FewerByTwo(r0, h0, start + tail + 1, block[tail], k1, k2, bc.Refs());
      NoNewChanges(b0, t0, b1, t0, bc.bufs[..], bc.touched);
      assert start + 1 + tail !in p0;
      FewerReaders(g, bs, h0, p0, b0, t0, bc.held, bc.pinned, bc.bufs[..], bc.touched, block[tail]);
      return true;
    }

    /** Copy modified blocks from the cache to the log. */
    method WriteLog(ghost data: seq<Block>) returns (ok: bool)
      requires Valid() && Clear() && |data| == n
      requires forall i :: 0 <= i < n ==> bc.view[Lh()[i]] == data[i]
      modifies bc, bc.bufs, bc.prev, bc.next
      ensures |bc.disk| == old(|bc.disk|) && old(bc.crashes) <= bc.crashes && |bc.crashes| <= |old(bc.crashes)| + n
      ensures LogTrace(Geo(), old(bc.disk), data, bc.crashes, |old(bc.crashes)|)
      ensures ok ==> Valid() && Clear() && bc.disk == LogWritten(Geo(), old(bc.disk), data, n)
      ensures ok ==> |bc.crashes| == |old(bc.crashes)| + n
      ensures ok ==> forall b: nat :: Geo().Home(b) ==> bc.view[b] == old(bc.view)[b]
      ensures ok ==> bc.held == old(bc.held) - Elems(Lh()) && bc.pinned == old(bc.pinned)
      ensures ok ==> Fewer(old(bc.Refs()), old(bc.held), bc.Refs())
      ensures n == 0 || !Crowded(old(bc.pinned), old(bc.Refs())) ==> ok
      ensures ok && AtHome(old(Geo()), old(bc.Refs())) ==> n == 0 || !Crowded(old(bc.pinned), old(bc.Refs()))
      ensures old(bc.Calm()) ==> bc.Calm()
    {
      hide Bcache.Valid, Bcache.Calm, Loggable, Elems, LogTrace, LogWritten, Crowded, Room, InChange, RefsOf, Readers, Fewer, Copied, NoNewChange, AtHome;
      var tail := 0;
      ghost var g, d, bs, p0, r0, h0, calm, v0 := Geo(), bc.disk, Lh(), bc.pinned, bc.Refs(), bc.held, bc.Calm(), bc.view;
      LogFits(g, bs);
      LogTraceNone(g, d, data, bc.crashes);
      NoneWritten(g, d, data);
      CopiedNone(g, bs, p0, v0, r0, h0);
      while tail < n
        invariant tail <= n && Valid() && Clear() && Geo() == g
        invariant bc.disk == LogWritten(g, d, data, tail)
        invariant |bc.crashes| == |old(bc.crashes)| + tail && old(bc.crashes) <= bc.crashes
        invariant LogTrace(g, d, data, bc.crashes, |old(bc.crashes)|)
        invariant Copied(g, bs, tail, p0, v0, r0, h0, bc.view, bc.Refs(), bc.held) && bc.pinned == p0
        invariant calm ==> bc.Calm()
      {
        SlotNotLogged(g, bs, tail);
        HomeOf(g, bs, tail);
        assert Lh()[tail] == block[tail];
        NextWritten(g, d, data, tail);
        ghost var cs, v, refs, held := bc.crashes, bc.view, bc.Refs(), bc.held;
        CopyRoom(g, bs, tail, p0, v0, r0, h0, v, refs, held);
        ok := WriteLogBlock(tail);
        if !ok { return; }
        LogTraceNext(g, d, data, cs, |old(bc.crashes)|, bc.crashes);
        CopiedNext(g, bs, tail, p0, v0, r0, h0, v, refs, held, bc.view, bc.Refs(), bc.held);
        tail := tail + 1;
      }
      CopiedAll(g, bs, p0, v0, r0, h0, bc.view, bc.Refs(), bc.held);
      return true;
    }

    /** The header block with the in-memory header written over it. */
    method HeaderIn(hb: Block) returns (h: Block)
      requires n <= |block| && n <= LOGSIZE && Geo().Ok() && Loggable(Geo(), Lh())
      ensures h == SetHeader(hb, Lh())
    {
      h := SetWord(hb, 0, n);
      for i := 0 to n
        invariant h == PutHeader(hb, Lh(), i)
      {
        HomeOf(Geo(), Lh(), i);
        h := SetWord(h, 1 + i, block[i]);
      }
    }

    /** Write the in-memory header to disk. */
    method WriteHead() returns (ok: bool)
      requires Shape() && Clear() && start !in bc.pinned
      modifies bc, bc.bufs, bc.prev, bc.next
      ensures |bc.disk| == old(|bc.disk|)
      ensures !ok ==> bc.crashes == old(bc.crashes)
      ensures ok ==> Shape() && Clear() && bc.disk == old(bc.disk)[start := SetHeader(old(bc.disk)[start], Lh())]
      ensures ok ==> bc.crashes == old(bc.crashes) + [bc.disk]
      ensures ok ==> bc.view == old(bc.view)[start := bc.disk[start]] && bc.pinned == old(bc.pinned)
      ensures ok ==> bc.held == old(bc.held) && bc.touched <= old(bc.touched)
      ensures ok ==> Fewer(old(bc.Refs()), old(bc.held), bc.Refs())
      ensures ok <==> Room(old(bc.pinned), old(bc.Refs()), start)
      ensures old(bc.Calm()) ==> bc.Calm()
    {
      hide Bcache.Valid; hide Bcache.Calm;
      hide Room; hide Crowded; hide NoNewChange; hide InChange; hide OthersLocked; hide Readers; hide SetHeader; hide Loggable; hide RefsOf; hide Fewer;
      ghost var b0, t0, h0, r0 := bc.bufs[..], bc.touched, bc.held, bc.Refs();
      ghost var g, bs, p0 := Geo(), Lh(), bc.pinned;
      Reader(g, bs, h0, p0, b0, t0, start);
      bc.Ranges();
      assert !Geo().Home(start);
      bc.Untouched(start);
      bc.CleanView(start);
      var buf, waits := bc.Bread(start);
      if buf.None? { return false; }
      ghost var b1 := bc.bufs[..];
      ghost var keep := b1[buf.value].refcnt > 1;
      var hb := bc.bufs[buf.value].data;
      var h := HeaderIn(hb);
      bc.WriteOut(buf.value, h);
      FewerByOne(r0, h0, start, keep, bc.Refs());
      NoNewChanges(b0, t0, b1, t0, bc.bufs[..], bc.touched);
      FewerReaders(g, bs, h0, p0, b0, t0, bc.held, bc.pinned, bc.bufs[..], bc.touched, start);
      return true;
    }

    /** One round of install_trans's loop. */
    method InstallBlock(tail: nat) returns (ok: bool)
      requires Shape() && Clear() && tail < n && start + 1 + tail !in bc.pinned
      modifies bc, bc.bufs, bc.prev, bc.next
      ensures |bc.disk| == old(|bc.disk|)
      ensures !ok ==> bc.crashes == old(bc.crashes)
      ensures ok ==> Shape() && Clear() && block[tail] < |bc.disk| && start + 1 + tail < |bc.disk|
      ensures ok ==> bc.disk == old(bc.disk)[block[tail] := old(bc.disk)[start + 1 + tail]]
      ensures ok ==> bc.crashes == old(bc.crashes) + [bc.disk]
      ensures ok ==> bc.view == old(bc.view)[block[tail] := bc.disk[block[tail]]] && bc.pinned == old(bc.pinned) - {block[tail]}
      ensures ok ==> bc.held == old(bc.held) - {block[tail]} && bc.touched <= old(bc.touched)
      ensures ok ==> Fewer(old(bc.Refs()), old(bc.held), bc.Refs())
      ensures ok <==> RoomForTwo(old(bc.pinned), old(bc.Refs()), start + 1 + tail, block[tail])
      ensures old(bc.Calm()) ==> bc.Calm()
    {
      hide Bcache.Valid, Bcache.Calm, Loggable, NoNewChange, InChange, Readers, RoomForTwo, Crowded, Room, RefsOf, Fewer;
      ghost var b0, t0, h0, p0, r0 := bc.bufs[..], bc.touched, bc.held, bc.pinned, bc.Refs();
      ghost var g, bs := Geo(), Lh();
      SlotNotLogged(g, bs, tail);
      Reader(g, bs, h0, p0, b0, t0, bs[tail]);
      Reader(g, bs, h0, p0, b0, t0, start + 1 + tail);
      bc.Untouched(start + 1 + tail);
      bc.CleanView(start + 1 + tail);
      var lbuf, dbuf := bc.ReadTwo(start + tail + 1, block[tail]);
      if lbuf.None? || dbuf.None? { return false; }
      ghost var b1 := bc.bufs[..];
      bc.Ranges();
      ghost var k1, k2 := b1[lbuf.value].refcnt > 1, b1[dbuf.value].refcnt > 1;
      bc.CopyOut(lbuf.value, dbuf.value);
      FewerByTwo(r0, h0, start + tail + 1, block[tail], k1, k2, bc.Refs());
      NoNewChanges(b0, t0, b1, t0, bc.bufs[..], bc.touched);
      FewerReaders(g, bs, h0, p0, b0, t0, bc.held, bc.pinned, bc.bufs[..], bc.touched, block[tail]);
      return true;
    }

    /** Copy the log slots to their home blocks, and so unpin them. */
    method InstallTrans() returns (ok: bool)
      requires Shape() && Clear() && bc.pinned <= Elems(Lh())
      modifies bc, bc.bufs, bc.prev, bc.next
      ensures |bc.disk| == old(|bc.disk|) && old(bc.crashes) <= bc.crashes && |bc.crashes| <= |old(bc.crashes)| + n
      ensures InstallTrace(Geo(), old(bc.disk), Lh(), bc.crashes, |old(bc.crashes)|)
      ensures ok ==> Shape() && Clear() && bc.disk == Installed(Geo(), old(bc.disk), Lh(), n) && bc.pinned == {}
      ensures ok ==> |bc.crashes| == |old(bc.crashes)| + n
      ensures ok ==> forall b: nat :: b < |bc.disk| ==> b in Lh() || bc.view[b] == old(bc.view)[b]
      ensures ok ==> bc.held == old(bc.held) - Elems(Lh()) && bc.touched <= old(bc.touched)
      ensures ok ==> forall b :: b in Lh() ==> b < |bc.disk| && bc.view[b] == bc.disk[b]
      ensures ok ==> Fewer(old(bc.Refs()), old(bc.held), bc.Refs())
      ensures Fits(old(bc.pinned), old(bc.Refs()), Lh()) ==> ok
      ensures old(bc.Calm()) ==> bc.Calm()
    {
      hide Bcache.Valid, Bcache.Calm, Loggable, InstallTrace, Installed, Fits, Elems, Crowded, RefsOf, RoomForTwo, Readers, Fewer, Freed, InstallViews, HeaderCount, HeaderBlocks, InChange;
      var tail := 0;
      ghost var g, d, bs, c0, r0, h0, p0, v0, calm := Geo(), bc.disk, Lh(), |bc.crashes|, bc.Refs(), bc.held, bc.pinned, bc.view, bc.Calm();
      NoneShown(bs, v0, d);
      InstallTraceNone(g, d, bs, bc.crashes);
      FreedNone(bs, p0, r0, h0);
      while tail < n
        invariant tail <= n && Shape() && Clear() && Geo() == g
        invariant bc.disk == Installed(g, d, bs, tail)
        invariant |bc.crashes| == c0 + tail && old(bc.crashes) <= bc.crashes && InstallTrace(g, d, bs, bc.crashes, c0)
        invariant InstallViews(bs, tail, v0, bc.view, bc.disk)
        invariant calm ==> bc.Calm()
        invariant bc.touched <= old(bc.touched) && Freed(bs, tail, p0, r0, h0, bc.pinned, bc.Refs(), bc.held)
      {
        ghost var pinned, refs, held := bc.pinned, bc.Refs(), bc.held;
        InstallSource(g, d, bs, tail);
        SlotNotLogged(g, bs, tail);
        FreedRoom(bs, tail, p0, r0, h0, pinned, refs, held, start + 1 + tail);
        ghost var cs, v, e := bc.crashes, bc.view, bc.disk;
        ok := InstallBlock(tail);
        if !ok { return; }
        assert bc.disk == Installed(g, d, bs, tail + 1);
        NextShown(bs, tail, v0, v, e, bc.view, bc.disk);
        InstallTraceNext(g, d, bs, cs, c0, bc.crashes);
        FreedNext(g, bs, tail, p0, r0, h0, pinned, refs, held, bc.pinned, bc.Refs(), bc.held);
        tail := tail + 1;
      }
      FreedAll(bs, p0, r0, h0, bc.pinned, bc.Refs(), bc.held);
      AllShown(bs, v0, bc.view, bc.disk);
      return true;
    }

    /** The first half of commit: write_log and write_head, up to the commit point. */
    method CommitToLog(ghost data: seq<Block>) returns (ok: bool)
      requires Valid() && Clear() && |data| == n
      requires forall i :: 0 <= i < n ==> bc.view[Lh()[i]] == data[i]
      modifies bc, bc.bufs, bc.prev, bc.next
      ensures old(bc.crashes) <= bc.crashes && |bc.disk| == |old(bc.disk)|
      ensures CommitTrace(Geo(), old(bc.disk), Lh(), data, 0, bc.crashes, |old(bc.crashes)|)
      ensures ok ==> Valid() && Clear() && bc.disk == CommitPoint(Geo(), old(bc.disk), Lh(), data)
      ensures ok ==> |bc.crashes| == |old(bc.crashes)| + n + 1
      ensures ok ==> forall b: nat :: Geo().Home(b) ==> bc.view[b] == old(bc.view)[b]
      ensures ok ==> bc.held == old(bc.held) - Elems(Lh()) && bc.pinned == old(bc.pinned)
      ensures ok ==> Fewer(old(bc.Refs()), old(bc.held), bc.Refs())
      ensures n > 0 && !Crowded(old(bc.pinned), old(bc.Refs())) ==> ok
      ensures n > 0 && ok && AtHome(old(Geo()), old(bc.Refs())) ==> !Crowded(old(bc.pinned), old(bc.Refs()))
      ensures old(bc.Calm()) ==> bc.Calm()
    {
      hide Bcache.Valid, Bcache.Calm, Loggable, HeaderCount, Crowded, Room, InChange, RefsOf, Readers, Fewer, Elems, LogTrace, CommitTrace, LogWritten, CommitPoint, SetHeader;
      ghost var g, d, bs, c0 := Geo(), bc.disk, Lh(), |bc.crashes|;
      HeaderNotLogged(g, bs);
      ghost var p0, r0, h0 := bc.pinned, bc.Refs(), bc.held;
      NotPinned(bs, p0, start);
      ok := WriteLog(data);
      LogTraceCommits(g, d, bs, data, bc.crashes, c0);
      if ok {
        ghost var cs := bc.crashes;
        CommitPointIs(g, d, bs, data);
        ghost var r1, h1 := bc.Refs(), bc.held;
        FewerIn(r0, h0, r1);
        if !Crowded(p0, r0) { CrowdedLess(p0, r0, bc.pinned, r1); }
        SlotRoom(bc.pinned, r1, start);
        ok := WriteHead();
        if ok {
          FewerStill(r0, h0, r1, h1, bc.Refs());
          CommitTraceNext(g, d, bs, data, cs, c0, bc.crashes);
        }
      }
    }

    /** The second half of commit, and the end of recovery: install_trans, n = 0, write_head. */
    method InstallAndClear() returns (ok: bool)
      requires Shape() && Clear() && bc.pinned <= Elems(Lh())
      modifies this`n, bc, bc.bufs, bc.prev, bc.next
      ensures |bc.disk| == old(|bc.disk|) && old(bc.crashes) <= bc.crashes
      ensures ClearTrace(old(Geo()), old(bc.disk), old(Lh()), bc.crashes, |old(bc.crashes)|)
      ensures ok ==> |bc.crashes| == |old(bc.crashes)| + old(n) + 1 && bc.disk == bc.crashes[|bc.crashes| - 1]
      ensures ok ==> bc.disk == Installed(old(Geo()), old(bc.disk), old(Lh()), old(n))[start := SetHeader(old(bc.disk)[start], [])]
      ensures ok ==> Valid() && Clear() && n == 0
      ensures ok ==> forall b: nat :: Geo().Home(b) && b !in old(Lh()) ==> bc.view[b] == old(bc.view)[b]
      ensures ok ==> bc.held == old(bc.held) - Elems(old(Lh())) && bc.touched <= old(bc.touched)
      ensures ok ==> forall b :: b in old(Lh()) ==> b < |bc.disk| && bc.view[b] == bc.disk[b]
      ensures ok ==> Fewer(old(bc.Refs()), old(bc.held), bc.Refs())
      ensures Fits(old(bc.pinned), old(bc.Refs()), old(Lh())) ==> ok
      ensures old(bc.Calm()) ==> bc.Calm()
    {
      hide Bcache.Valid; hide Bcache.Calm; hide Loggable; hide HeaderCount; hide Fits; hide Crowded; hide Room; hide RefsOf; hide Readers; hide Fewer; hide InstallTrace; hide ClearTrace;
      HeaderNotLogged(Geo(), Lh());
      InstalledKeepsHeader(Geo(), bc.disk, Lh());
      ghost var p0, r0, h0, g, d, bs, c0 := bc.pinned, bc.Refs(), bc.held, Geo(), bc.disk, Lh(), |bc.crashes|;
      ok := InstallTrans();
      ghost var cs := bc.crashes;
      if ok {
        ghost var r1, h1 := bc.Refs(), bc.held;
        FewerIn(r0, h0, r1);
        if Fits(p0, r0, Lh()) { Unpinned(p0, r0, Lh(), r1); }
        SlotRoom(bc.pinned, r1, start);
        n := 0;
        assert Lh() == [];
        ReadersOfNone(g, bs, bc.held, bc.pinned, bc.bufs[..], bc.touched);
        ok := WriteHead();
        if ok { FewerStill(r0, h0, r1, h1, bc.Refs()); }
      }
      ClearedAfter(g, d, bs, cs, c0, bc.crashes);
    }

    /**
     * commit(). Whatever happens, the disk states it passes through are those of CommitDisk in order, so a crash or a
     * panic in it falls under LogSpec.CrashAtomicity; when it succeeds the log is empty and nothing is pinned.
     */
    method Commit(ghost data: seq<Block>) returns (ok: bool)
      requires Valid() && Clear() && |data| == n
      requires forall i :: 0 <= i < n ==> bc.view[Lh()[i]] == data[i]
      modifies this`n, bc, bc.bufs, bc.prev, bc.next
      ensures old(bc.crashes) <= bc.crashes && |bc.disk| == |old(bc.disk)|
      ensures CommitTrace(old(Geo()), old(bc.disk), old(Lh()), data, 0, bc.crashes, |old(bc.crashes)|)
      ensures ok ==> Valid() && Clear() && n == 0 && Geo() == old(Geo())
      ensures old(n) == 0 ==> bc.disk == old(bc.disk) && bc.crashes == old(bc.crashes)
      ensures ok && old(n) > 0 ==> bc.disk == CommitDisk(Geo(), old(bc.disk), old(Lh()), data, 2 * old(n) + 2)
      ensures ok && old(n) > 0 ==> |bc.crashes| == |old(bc.crashes)| + 2 * old(n) + 2
      ensures ok ==> forall b: nat :: Geo().Home(b) ==> bc.view[b] == old(bc.view)[b]
      ensures ok ==> bc.held == old(bc.held) - Elems(old(Lh()))
      ensures ok ==> Fewer(old(bc.Refs()), old(bc.held), bc.Refs())
      ensures old(n) == 0 || Enough(old(Lh()), old(bc.Refs())) ==> ok
      ensures ok && AtHome(old(Geo()), old(bc.Refs())) ==> old(n) == 0 || Enough(old(Lh()), old(bc.Refs()))
      ensures old(bc.Calm()) ==> bc.Calm() && (ok <==> old(n) == 0 || Enough(old(Lh()), old(bc.held)))
    {
      hide Bcache.Valid, Bcache.Calm, Loggable, HeaderCount, CommitPoint, Installed, CommitDisk, Crowded, Readers, Fits, RefsOf, HeaderBlocks, Updated, CommitTrace, ClearTrace, Fewer, Elems, Enough, AtHome;
      if n == 0 {
        CommitTraceNone(Geo(), bc.disk, Lh(), data, bc.crashes);
        FewerSame(bc.Refs(), bc.held);
        return true;
      }
      CrowdedIff(Geo(), Lh(), bc.pinned, bc.Refs());
      ghost var r0, h0 := bc.Refs(), bc.held;
      if bc.Calm() {
        bc.CalmRefs();
        ClearHome(Geo(), Lh(), bc.held, bc.pinned, bc.bufs[..], bc.touched);
      }
      ghost var g, d, bs, c0 := Geo(), bc.disk, Lh(), |bc.crashes|;
      ok := CommitToLog(data);
      if !ok { return; }
      ghost var cs, r1, h1 := bc.crashes, bc.Refs(), bc.held;
      FewerIn(r0, h0, r1);
      if !Crowded(Elems(bs), r0) { AllThere(bs, r0, bc.Refs()); }
      ok := InstallAndClear();
      ClearIsCommit(g, d, bs, data, cs, c0, bc.crashes);
      if ok {
        FewerStill(r0, h0, r1, h1, bc.Refs());
        CommitTail(g, d, bs, data);
        SameViews(g, d, bs, data, old(bc.view), bc.view);
      }
    }

    /** end_op. Panics if a commit is in progress; the last operation out commits the group. */
    method EndOp(ghost data: seq<Block>) returns (ok: bool)
      requires Valid() && outstanding >= 1 && |data| == n
      requires outstanding == 1 ==> Clear() && forall i :: 0 <= i < n ==> bc.view[Lh()[i]] == data[i]
      modifies this`n, this`outstanding, this`committing, bc, bc.bufs, bc.prev, bc.next
      ensures outstanding == old(outstanding) - 1 && |bc.disk| == |old(bc.disk)| && old(bc.crashes) <= bc.crashes
      ensures old(committing) ==> !ok
      ensures CommitTrace(old(Geo()), old(bc.disk), old(Lh()), data, 0, bc.crashes, |old(bc.crashes)|)
      ensures ok ==> Valid() && forall b: nat :: Geo().Home(b) ==> bc.view[b] == old(bc.view)[b]
      ensures outstanding > 0 || old(committing) ==>
        && bc.disk == old(bc.disk) && bc.crashes == old(bc.crashes) && bc.view == old(bc.view) && bc.bufs[..] == old(bc.bufs[..])
        && bc.held == old(bc.held) && bc.touched == old(bc.touched) && bc.pinned == old(bc.pinned) && n == old(n)
      ensures !old(committing) && outstanding > 0 ==> ok && Lh() == old(Lh()) && !committing
      ensures ok && outstanding == 0 ==> n == 0 && !committing && bc.held == old(bc.held) - Elems(old(Lh()))
      ensures ok && outstanding == 0 && old(n) > 0 ==>
        && bc.disk == CommitDisk(old(Geo()), old(bc.disk), old(Lh()), data, 2 * old(n) + 2)
        && |bc.crashes| == |old(bc.crashes)| + 2 * old(n) + 2
      ensures old(n) == 0 ==> bc.disk == old(bc.disk) && bc.crashes == old(bc.crashes)
      ensures ok ==> Fewer(old(bc.Refs()), old(bc.held), bc.Refs())
      ensures !old(committing) && (outstanding > 0 || old(n) == 0 || Enough(old(Lh()), old(bc.Refs()))) ==> ok
      ensures ok && AtHome(old(Geo()), old(bc.Refs())) ==> outstanding > 0 || old(n) == 0 || Enough(old(Lh()), old(bc.Refs()))
      ensures old(bc.Calm()) ==> bc.Calm() && (ok <==> !old(committing) && (outstanding > 0 || old(n) == 0 || Enough(old(Lh()), old(bc.held))))
    {
      hide Bcache.Valid; hide Bcache.Calm; hide Loggable; hide CommitDisk; hide InChange; hide Elems; hide RefsOf; hide Fewer; hide Enough;
      FewerSame(bc.Refs(), bc.held);
      outstanding := outstanding - 1;
      if committing {
        return false;
      }
      if outstanding == 0 {
        committing := true;
        ok := Commit(data);
        if ok {
          committing := false;
        }
      } else {
        return true;
      }
    }

    /** The in-memory header from the header block. */
    method HeaderOut(hb: Block)
      requires |block| == LOGSIZE && HeaderCount(hb) <= LOGSIZE
      modifies this`n, this`block
      ensures |block| == LOGSIZE && n <= LOGSIZE && Lh() == HeaderBlocks(hb)
    {
      n := Word(hb, 0);
      for i := 0 to n
        invariant |block| == LOGSIZE && n == HeaderCount(hb)
        invariant block[..i] == HeaderEntries(hb, i)
        modifies this`block
      {
        block := block[i := Word(hb, 1 + i)];
        assert block[..i + 1] == block[..i] + [Word(hb, 1 + i)];
      }
    }

    /** Read the log header from disk into memory. */
    method ReadHead() returns (ok: bool)
      requires bc.Valid() && Idle() && bc.pinned == {} && start < |bc.disk| && |block| == LOGSIZE
      requires HeaderCount(bc.disk[start]) <= LOGSIZE
      modifies this`n, this`block, bc, bc.bufs, bc.prev, bc.next
      ensures bc.disk == old(bc.disk) && bc.crashes == old(bc.crashes)
      ensures ok ==> bc.Valid() && Idle() && bc.pinned == {} && bc.view == old(bc.view)
      ensures ok ==> |block| == LOGSIZE && n <= LOGSIZE && Lh() == HeaderBlocks(bc.disk[start])
      ensures ok ==> bc.Refs() == old(bc.Refs())
      ensures ok <==> Room({}, old(bc.Refs()), start)
      ensures old(bc.Calm()) ==> ok && bc.Calm()
    {
      hide Bcache.Valid, Bcache.Calm, Room, Crowded, RefsOf, Loggable, NoNewChange, InChange, OthersLocked;
      if bc.Calm() { bc.CalmRefs(); }
      NoneTaken();
      SlotRoom({}, bc.Refs(), start);
      bc.Ranges();
      bc.CleanView(start);
      var buf, waits := bc.Bread(start);
      if buf.None? { return false; }
      var hb := bc.bufs[buf.value].data;
      HeaderOut(hb);
      bc.Brelse(buf.value);
      return true;
    }

    /** recover_from_log, on a cold cache: the disk passes through the states of RecoverDisk and ends recovered. */
    method RecoverFromLog() returns (ok: bool)
      requires bc.Valid() && Idle() && bc.pinned == {} && |block| == LOGSIZE
      requires Recoverable(Geo(), bc.disk)
      modifies this`n, this`block, bc, bc.bufs, bc.prev, bc.next
      ensures old(bc.crashes) <= bc.crashes && |bc.crashes| <= |old(bc.crashes)| + |LoggedBlocks(old(Geo()), old(bc.disk))| + 1
      ensures forall j :: |old(bc.crashes)| <= j < |bc.crashes| ==>
        bc.crashes[j] == RecoverDisk(old(Geo()), old(bc.disk), j - |old(bc.crashes)| + 1)
      ensures ok ==> Valid() && Idle() && n == 0 && bc.disk == Recovered(old(Geo()), old(bc.disk))
      ensures |old(bc.Refs())| + 1 < NBUF ==> ok
      ensures old(bc.Calm()) ==> ok && bc.Calm()
    {
      hide Bcache.Valid; hide Bcache.Calm; hide Loggable; hide HeaderCount; hide HeaderBlocks; hide Installed;
      ghost var g, d := Geo(), bc.disk;
      bc.Ranges();
      RecoverableParts(g, d);
      if bc.Calm() { bc.CalmRefs(); }
      FewRefs(bc.Refs(), start);
      ok := ReadHead();
      if ok {
        ok := InstallAndClear();
      }
    }
  }
}
