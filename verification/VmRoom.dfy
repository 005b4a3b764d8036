// How many free frames an address space's growth needs: page tables are made
// only where there is none yet.
module VmRoom {
  import opened VmSpec

  /** Tables missing for directory entries lo up to hi. */
  function Needs(tab: map<(nat, nat), nat>, d: nat, lo: nat, hi: nat): (n: nat)
    requires lo <= hi
    ensures n <= hi - lo
    decreases hi - lo
  {
    if lo == hi then 0 else Needs(tab, d, lo, hi - 1) + (if (d, hi - 1) in tab then 0 else 1)
  }

  lemma {:induction false} NeedsMore(tab: map<(nat, nat), nat>, d: nat, lo: nat, mid: nat, hi: nat)
    requires lo <= mid <= hi
    ensures Needs(tab, d, lo, mid) <= Needs(tab, d, lo, hi)
    decreases hi - mid
  {
    if mid < hi { NeedsMore(tab, d, lo, mid, hi - 1); }
  }

  /** With the entries below m there and no others: those from m on are missing. */
  lemma {:induction false} NeedsFrom(tab: map<(nat, nat), nat>, d: nat, lo: nat, hi: nat, m: nat)
    requires lo <= hi && forall x: nat {:trigger (d, x) in tab} :: lo <= x < hi ==> ((d, x) in tab <==> x < m)
    ensures Needs(tab, d, lo, hi) == if hi <= m then 0 else if m <= lo then hi - lo else hi - m
    decreases hi - lo
  {
    if lo < hi { NeedsFrom(tab, d, lo, hi - 1, m); }
  }

  /** Directory entry behind the last one that pages lo up to u use. */
  function TabEnd(lo: nat, u: nat): (x: nat)
    requires lo <= u
    ensures X(lo) <= x && (u > lo ==> x == X(u - 1) + 1)
  {
    if u == lo then X(lo) else X(u - 1) + 1
  }

  lemma TabEndNext(lo: nat, u: nat)
    requires lo <= u
    ensures X(u) == TabEnd(lo, u) || X(u) + 1 == TabEnd(lo, u)
    ensures TabEnd(lo, u + 1) == X(u) + 1
  {
  }

  lemma TabEndMore(lo: nat, u: nat, w: nat)
    requires lo <= u <= w
    ensures TabEnd(lo, u) <= TabEnd(lo, w)
  {
  }

  /** From a to b directory d has got its missing tables for lo up to hi, and `extra` more frames have left the free list. */
  ghost predicate Took(a: Vm, b: Vm, d: nat, lo: nat, hi: nat, extra: nat) {
    && lo <= hi && |b.free| + extra + Needs(a.tab, d, lo, hi) == |a.free|
    && forall x: nat {:trigger (d, x) in b.tab} :: (d, x) in b.tab <==> (d, x) in a.tab || lo <= x < hi
  }

  lemma TookNothing(a: Vm, d: nat, lo: nat)
    ensures Took(a, a, d, lo, lo, 0)
  {
  }

  /** No frame and no table more. */
  lemma TookSame(a: Vm, b: Vm, c: Vm, d: nat, lo: nat, hi: nat, extra: nat)
    requires Took(a, b, d, lo, hi, extra) && c.tab == b.tab && c.free == b.free
    ensures Took(a, c, d, lo, hi, extra)
  {
  }

  /** The table for page u, the next one: there already, or made. */
  lemma TookTable(a: Vm, b: Vm, c: Vm, d: nat, lo: nat, u: nat, extra: nat, e: nat)
    requires lo <= u && Took(a, b, d, X(lo), TabEnd(lo, u), extra) && Took(b, c, d, X(u), X(u) + 1, e)
    ensures Took(a, c, d, X(lo), TabEnd(lo, u + 1), extra + e)
  {
    TabEndNext(lo, u);
    hide X, TabEnd;
    assert Needs(b.tab, d, X(u), X(u) + 1) == if (d, X(u)) in b.tab then 0 else 1;
    if X(u) + 1 == TabEnd(lo, u) {
      forall x: nat {:trigger (d, x) in c.tab} | true ensures (d, x) in c.tab <==> (d, x) in a.tab || X(lo) <= x < X(u) + 1 {
        assert (d, x) in b.tab <==> (d, x) in a.tab || X(lo) <= x < TabEnd(lo, u);
      }
      assert (d, X(u)) in b.tab || X(u) < X(lo);
    } else {
      assert (d, X(u)) in b.tab <==> (d, X(u)) in a.tab;
      forall x: nat {:trigger (d, x) in c.tab} | true ensures (d, x) in c.tab <==> (d, x) in a.tab || X(lo) <= x < X(u) + 1 {
        assert (d, x) in b.tab <==> (d, x) in a.tab || X(lo) <= x < TabEnd(lo, u);
      }
    }
  }

  /** Spelled out for the caller. */
  lemma TookAll(a: Vm, b: Vm, d: nat, lo: nat, hi: nat, extra: nat)
    requires Took(a, b, d, lo, hi, extra)
    ensures lo <= hi && |b.free| + extra + Needs(a.tab, d, lo, hi) == |a.free|
  {
  }

  lemma TabEndIs(first: nat, last: nat)
    requires first <= last
    ensures TabEnd(first, first) == X(first) && TabEnd(first, last + 1) == X(last) + 1 && X(first) <= X(last) + 1
  {
  }

  /** At page u the frames run out: not enough for all up to w. */
  lemma TooFew(a: Vm, b: Vm, d: nat, lo: nat, u: nat, w: nat, extra: nat, more: nat)
    requires lo <= u < w && Took(a, b, d, X(lo), TabEnd(lo, u), extra)
    requires more + Needs(b.tab, d, X(u), X(u) + 1) > |b.free|
    ensures extra + more + Needs(a.tab, d, X(lo), TabEnd(lo, w)) > |a.free|
  {
    TabEndNext(lo, u);
    TabEndMore(lo, u + 1, w);
    NeedsMore(a.tab, d, X(lo), TabEnd(lo, u + 1), TabEnd(lo, w));
    NeedsMore(a.tab, d, X(lo), TabEnd(lo, u), TabEnd(lo, u + 1));
    hide X, TabEnd;
    assert Needs(b.tab, d, X(u), X(u) + 1) == if (d, X(u)) in b.tab then 0 else 1;
    if (d, X(u)) !in b.tab {
      assert X(u) == TabEnd(lo, u);
    }
  }

  /** A frame taken first, tables after. */
  lemma TookAlso(a: Vm, g: Vm, b: Vm, d: nat, lo: nat, hi: nat)
    requires g.tab == a.tab && |g.free| + 1 == |a.free| && Took(g, b, d, lo, hi, 0)
    ensures Took(a, b, d, lo, hi, 1)
  {
  }

  lemma NeedsOne(tab: map<(nat, nat), nat>, d: nat, x: nat)
    ensures Needs(tab, d, x, x + 1) == if (d, x) in tab then 0 else 1
  {
  }

  /** One page, a frame and perhaps a table: if that is too much, so are the pages up to w. */
  lemma PageTook(a: Vm, b: Vm, d: nat, lo: nat, u: nat, w: nat)
    requires lo <= u < w && Took(a, b, d, X(lo), TabEnd(lo, u), u - lo)
    ensures 1 + Needs(b.tab, d, X(u), X(u) + 1) > |b.free| ==> Growth(a.tab, d, lo, w) > |a.free|
  {
    if 1 + Needs(b.tab, d, X(u), X(u) + 1) > |b.free| { TooFew(a, b, d, lo, u, w, u - lo, 1); }
  }

  lemma GrowthEnough(a: Vm, b: Vm, d: nat, lo: nat, u: nat)
    requires lo <= u && Took(a, b, d, X(lo), TabEnd(lo, u), u - lo)
    ensures Growth(a.tab, d, lo, u) <= |a.free|
  {
  }

  /** Frames that growing by pages lo up to hi takes: the pages, and the tables they lack. */
  function Growth(tab: map<(nat, nat), nat>, d: nat, lo: nat, hi: nat): nat
    requires lo <= hi
  {
    hi - lo + Needs(tab, d, X(lo), TabEnd(lo, hi))
  }

  // ----- the kernel's part

  /** Frames of a new address space: the directory, and a table for each directory entry that kmap uses. */
  const KERNFRAMES: nat := 65

  /** Whether the first k regions of kmap use directory entry x. */
  predicate KernTable(data: nat, k: nat, x: nat)
    requires k <= 4 && 0x100 < data < NFRAMES
  {
    if k == 0 then false
    else if k == 1 then x == 512
    else if k == 2 then 512 <= x <= X(USER + data - 1)
    else if k == 3 then 512 <= x < 568
    else 512 <= x < 568 || 1016 <= x < 1024
  }

  /** How many they use. */
  function KernCount(data: nat, k: nat): (n: nat)
    requires k <= 4 && 0x100 < data < NFRAMES
    ensures n <= 64 && (k == 4 ==> n == 64)
  {
    if k == 0 then 0
    else if k == 1 then 1
    else if k == 2 then X(USER + data - 1) - 511
    else if k == 3 then 56
    else 64
  }

  /** First directory entry of region k, and the one behind its last. */
  function KernLo(data: nat, k: nat): nat {
    if k < 2 then 512 else if k == 2 then X(USER + data) else 1016
  }

  function KernHi(data: nat, k: nat): nat
    requires data > 0
  {
    if k == 0 then 513 else if k == 1 then X(USER + data - 1) + 1 else if k == 2 then 568 else 1024
  }

  lemma KernSpan(data: nat, k: nat)
    requires k < 4 && 0x100 < data < NFRAMES
    ensures var r := Kmap(data, k); X(r.virt) == KernLo(data, k) && X(r.virt + r.n - 1) + 1 == KernHi(data, k)
  {
    XIs(512, 0);
    XIs(512, 0xff);
    XIs(512, 0x100);
    XIs(567, 0x3ff);
    XIs(1016, 0);
    XIs(1023, 0x3ff);
    hide X;
    KmapIs(data);
    if k == 0 { } else if k == 1 { } else if k == 2 { } else { assert k == 3; }
  }

  lemma XIs(x: nat, y: nat)
    requires y < NENTRIES
    ensures X(x * NENTRIES + y) == x
  {
  }

  /** The text ends, and the data begins, between entries 512 and 567. */
  lemma KernEnds(data: nat)
    requires 0x100 < data < NFRAMES
    ensures 512 <= X(USER + data - 1) < 568 && X(USER + data - 1) <= X(USER + data) <= X(USER + data - 1) + 1 && X(USER + data) < 568
  {
    Ends(USER + data - 1);
    Ends(USER + data);
  }

  lemma Ends(v: nat)
    ensures X(v) * NENTRIES <= v < (X(v) + 1) * NENTRIES
  {
  }

  lemma KernTableNext(data: nat, k: nat)
    requires k < 4 && 0x100 < data < NFRAMES
    ensures KernLo(data, k) <= KernHi(data, k)
    ensures forall x: nat {:trigger KernTable(data, k, x)} {:trigger KernTable(data, k + 1, x)} ::
      KernTable(data, k + 1, x) <==> KernTable(data, k, x) || KernLo(data, k) <= x < KernHi(data, k)
  {
    KernEnds(data);
    hide X;
    forall x: nat ensures KernTable(data, k + 1, x) <==> KernTable(data, k, x) || KernLo(data, k) <= x < KernHi(data, k) {
    }
  }

  lemma KernNeeds(tab: map<(nat, nat), nat>, d: nat, data: nat, k: nat)
    requires k < 4 && 0x100 < data < NFRAMES
    requires forall x: nat {:trigger (d, x) in tab} :: (d, x) in tab <==> KernTable(data, k, x)
    ensures KernLo(data, k) <= KernHi(data, k)
    ensures Needs(tab, d, KernLo(data, k), KernHi(data, k)) == KernCount(data, k + 1) - KernCount(data, k)
  {
    KernEnds(data);
    hide X, Needs;
    var m := if k == 0 then 0 else if k == 1 then 513 else if k == 2 then X(USER + data - 1) + 1 else 568;
    forall x: nat {:trigger (d, x) in tab} | KernLo(data, k) <= x < KernHi(data, k) ensures (d, x) in tab <==> x < m {
      assert (d, x) in tab <==> KernTable(data, k, x);
    }
    NeedsFrom(tab, d, KernLo(data, k), KernHi(data, k), m);
  }

  lemma NoneCounted(data: nat)
    requires 0x100 < data < NFRAMES
    ensures KernCount(data, 0) == 0
  {
  }

  lemma CountLeft(data: nat, k: nat)
    requires k <= 4 && 0x100 < data < NFRAMES
    ensures KernCount(data, k) <= KERNFRAMES - 1 && (k == 4 ==> KernCount(data, k) == KERNFRAMES - 1)
  {
  }
}
