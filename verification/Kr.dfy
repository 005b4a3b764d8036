// umalloc.c: the Kernighan and Ritchie storage allocator of section 8.7 of
// "The C Programming Language", over a break that sbrk raises.
module Kr {
  import opened KrSpec

  /** sizeof(Header), in bytes. */
  const UNIT := 8
  const MOD32 := 0x1_0000_0000
  /** morecore asks for at least this many units. */
  const MORECORE := 4096

  /** Units malloc looks for: nbytes rounded up in 32-bit unsigned arithmetic, plus one for the header. */
  function NUnits(nbytes: nat): (n: nat)
    ensures n >= 1
  {
    (nbytes + UNIT - 1) % MOD32 / UNIT + 1
  }

  function AskFor(nunits: nat): nat { if nunits < MORECORE then MORECORE else nunits }

  /** sbrk takes a signed int: more bytes than this would read as a negative request. */
  predicate SbrkTakes(nunits: nat) { AskFor(nunits) * UNIT < 0x8000_0000 }

  lemma AskForIs(nunits: nat)
    ensures AskFor(nunits) == if nunits < 4096 then 4096 else nunits
  {
  }

  /** Units beyond the header hold the request exactly when rounding up did not wrap round, and then there are no more than it takes. */
  lemma RoomIffNoWrap(nbytes: nat)
    requires nbytes < MOD32
    ensures (NUnits(nbytes) - 1) * 8 >= nbytes <==> nbytes <= 0xFFFF_FFF8
    ensures nbytes <= 0xFFFF_FFF8 ==> (NUnits(nbytes) - 2) * 8 < nbytes
  {
    if nbytes <= MOD32 - UNIT {
      assert (nbytes + UNIT - 1) % MOD32 == nbytes + UNIT - 1;
    } else {
      assert (nbytes + UNIT - 1) % MOD32 == nbytes + UNIT - 1 - MOD32;
    }
  }

  /** The largest request that wraps gets a header and no room at all. */
  lemma WrapWitness()
    ensures NUnits(0xFFFF_FFFF) == 1 && SbrkTakes(NUnits(0xFFFF_FFFF))
  {
  }

  /** Steps from ring position i on to position f. */
  function Dist(n: nat, f: nat, i: nat): nat
    requires f < n && i < n
  {
    if i <= f then f - i else f + n - i
  }

  function Next(n: nat, i: nat): nat
    requires i < n
  {
    if i + 1 < n then i + 1 else 0
  }

  /** Every block on the free list more than d steps before position f is smaller than n. */
  ghost predicate Passed(k: Kr, f: nat, d: nat, n: nat)
    requires f < |k.ring|
  {
    forall j {:trigger SizeAt(k, j)} :: 0 <= j < |k.ring| && Dist(|k.ring|, f, j) > d ==> SizeAt(k, j) < n
  }

  lemma PassedAll(k: Kr, f: nat, n: nat)
    requires f < |k.ring| && Passed(k, f, 0, n) && SizeAt(k, f) < n
    ensures !HasRoom(k, n)
  {
  }

  /** One more step along the list. */
  lemma PassedStep(k: Kr, f: nat, i: nat, n: nat)
    requires f < |k.ring| && i < |k.ring| && Passed(k, f, Dist(|k.ring|, f, i), n) && SizeAt(k, i) < n && i != f
    ensures Dist(|k.ring|, f, Next(|k.ring|, i)) == Dist(|k.ring|, f, i) - 1
    ensures Passed(k, f, Dist(|k.ring|, f, i) - 1, n)
    ensures FitFrom(k, i, Dist(|k.ring|, f, i), n) == FitFrom(k, Next(|k.ring|, i), Dist(|k.ring|, f, i) - 1, n)
  {
  }

  lemma FitHere(k: Kr, i: nat, d: nat, n: nat)
    requires i < |k.ring| && SizeAt(k, i) >= n
    ensures FitFrom(k, i, d, n) == i
  {
  }

  /** Just after f nothing has been passed. */
  lemma PassedNone(k: Kr, f: nat, n: nat)
    requires f < |k.ring|
    ensures Dist(|k.ring|, f, Next(|k.ring|, f)) == |k.ring| - 1 && Passed(k, f, |k.ring| - 1, n)
  {
  }

  /** First list position within d steps of i whose block has at least n units, or -1. */
  function FitFrom(k: Kr, i: nat, d: nat, n: nat): (r: int)
    requires i < |k.ring|
    ensures -1 <= r < |k.ring| && (r >= 0 ==> SizeAt(k, r) >= n)
    decreases d
  {
    if SizeAt(k, i) >= n then i else if d == 0 then -1 else FitFrom(k, Next(|k.ring|, i), d - 1, n)
  }

  /** Where malloc's search from position f ends: once round, starting behind f. */
  function NextFit(k: Kr, f: nat, n: nat): (r: int)
    requires f < |k.ring|
    ensures -1 <= r < |k.ring| && (r >= 0 ==> SizeAt(k, r) >= n)
  {
    FitFrom(k, Next(|k.ring|, f), |k.ring| - 1, n)
  }

  /** The position c steps on round the list. */
  function Ahead(n: nat, i: nat, c: nat): (r: nat)
    requires i < n && c <= n
    ensures r < n
  {
    if i + c < n then i + c else i + c - n
  }

  /** The search passes over blocks that are too small, and over no other, in the order of the list. */
  lemma {:induction false} FitFromFirst(k: Kr, i: nat, d: nat, n: nat) returns (e: nat)
    requires i < |k.ring| && d < |k.ring|
    ensures e <= d + 1 && forall c: nat {:trigger Ahead(|k.ring|, i, c)} :: c < e ==> SizeAt(k, Ahead(|k.ring|, i, c)) < n
    ensures if e <= d then FitFrom(k, i, d, n) == Ahead(|k.ring|, i, e) && SizeAt(k, Ahead(|k.ring|, i, e)) >= n else FitFrom(k, i, d, n) == -1
    decreases d
  {
    var len := |k.ring|;
    if SizeAt(k, i) >= n {
      e := 0;
    } else if d == 0 {
      e := 1;
    } else {
      e := FitFromFirst(k, Next(len, i), d - 1, n);
      forall c: nat {:trigger Ahead(len, i, c)} | c < e + 1 ensures SizeAt(k, Ahead(len, i, c)) < n {
        if c > 0 { assert Ahead(len, Next(len, i), c - 1) == Ahead(len, i, c); }
      }
      e := e + 1;
    }
  }

  /** Next fit: the first block behind position f, going once round, that is big enough; or none is. */
  lemma NextFitFirst(k: Kr, f: nat, n: nat) returns (e: nat)
    requires f < |k.ring|
    ensures 1 <= e <= |k.ring| + 1
    ensures forall c: nat {:trigger Ahead(|k.ring|, f, c)} :: 1 <= c < e ==> SizeAt(k, Ahead(|k.ring|, f, c)) < n
    ensures if e <= |k.ring| then NextFit(k, f, n) == Ahead(|k.ring|, f, e) && SizeAt(k, Ahead(|k.ring|, f, e)) >= n
            else NextFit(k, f, n) == -1
  {
    var len := |k.ring|;
    e := FitFromFirst(k, Next(len, f), len - 1, n);
    forall c: nat {:trigger Ahead(len, f, c)} | 1 <= c < e + 1 ensures SizeAt(k, Ahead(len, f, c)) < n {
      assert Ahead(len, Next(len, f), c - 1) == Ahead(len, f, c);
    }
    e := e + 1;
  }

  /** The block at position i handed out, whole or its last n units; and its address. */
  function Given(k: Kr, i: nat, n: nat): (r: (Kr, nat))
    requires 0 < i < |k.ring| && 0 < n <= SizeAt(k, i) && k.ring[i] in k.mem && k.ring[i - 1] in k.mem
  {
    if SizeAt(k, i) == n then (Taken(k, i), k.ring[i]) else (Carved(k, i, n), CarvedAt(k, i, n))
  }

  /** From k, g results by giving out block a from the first big enough free block behind `from`; the search next starts at `to`. */
  ghost predicate NextFitGives(k: Kr, from: nat, n: nat, g: Kr, to: nat, a: nat) {
    exists f: nat {:trigger NextFit(k, f, n)} :: f < |k.ring| && k.ring[f] == from && GivesAt(k, NextFit(k, f, n), n, g, to, a)
  }

  /** All units are below the break. */
  ghost predicate Within(units: set<nat>, brk: nat) { forall u :: u in units ==> u < brk }

  ghost predicate GivesAt(k: Kr, i: int, n: nat, g: Kr, to: nat, a: nat) {
    && 0 < i < |k.ring| && 0 < n <= SizeAt(k, i) && k.ring[i] in k.mem && k.ring[i - 1] in k.mem
    && Given(k, i, n) == (g, a) && to == k.ring[i - 1]
  }

  /** Where a grant that had to be made ends up. */
  lemma GrownAtEnd(k0: Kr, k1: Kr, m: map<nat, Header>, a: nat, nu: nat, n: nat)
    requires Ok(k1) && k1 == Extended(k0, a, nu) && !HasRoom(k0, n) && n > 0 && a > BASE && (forall u :: u in k1.own ==> u < a)
    requires var k2 := Granted(k1, m, a, nu); Ok(k2) && Coalesced(k2)
    ensures var k2 := Granted(k1, m, a, nu);
      && |k2.ring| > 0 && k2.ring[0] < a && a in k2.mem && k2.ring[Below(k2.ring, a, 0)] in k2.mem
      && OnlyLast(Freed(k2, a), n, a + nu)
  {
    hide Ok, Coalesced, Freed, Below;
    var k2 := Granted(k1, m, a, nu);
    BelowGrant(k1, a);
    ExtendedRoom(k0, a, nu, n);
    GrantedRoom(k1, m, a, nu, n);
    FreedAtEnd(k2, a, n);
  }

  /** What malloc hands out after such a grant. */
  lemma GivenAtEnd(k: Kr, i: nat, n: nat, g: Kr, to: nat, a: nat, end: nat)
    requires OnlyLast(k, n, end) && i < |k.ring| && SizeAt(k, i) >= n && GivesAt(k, i, n, g, to, a)
    ensures i == |k.ring| - 1 && a + n == end
  {
  }

  /** Free-list position of address p. */
  lemma Position(ring: seq<nat>, p: nat) returns (i: nat)
    requires p in ring
    ensures i < |ring| && ring[i] == p
  {
    i :| 0 <= i < |ring| && ring[i] == p;
  }

  class Heap {
    var mem: map<nat, Header>
    var freep: nat
    var brk: nat
    const limit: nat
    ghost var k: Kr

    /** Before the first malloc freep is null and the list does not exist. */
    ghost predicate Unborn()
      reads this
    {
      freep == 0 && k.ring == [] && k.live == {} && k.blocks == map[] && k.own == map[] && BASE in mem
    }

    ghost predicate Valid()
      reads this
    {
      && k.mem == mem && brk > BASE && Within(mem.Keys, brk) && Within(k.own.Keys, brk)
      && (Unborn() || (freep != 0 && freep in k.ring && Ok(k) && Coalesced(k)))
    }

    constructor (start: nat, limit: nat)
      requires start > BASE
      ensures Valid() && Unborn() && brk == start && this.limit == limit
    {
      mem := map[BASE := Header(0, 0)];
      freep := 0;
      brk := start;
      this.limit := limit;
      k := Kr(map[BASE := Header(0, 0)], [], {}, map[], map[]);
    }

    /** The kernel's sbrk: the allocator shares the break with the rest of the program. */
    method Sbrk(n: nat) returns (ok: bool, a: nat)
      requires Valid() && n * UNIT < 0x8000_0000
      modifies this
      ensures Valid() && ok == (old(brk) + n <= limit) && freep == old(freep) && (Unborn() <==> old(Unborn()))
      ensures if ok then a == old(brk) && brk == a + n && k == Extended(old(k), a, n) else brk == old(brk) && k == old(k)
    {
      if brk + n > limit { return false, 0; }
      ok, a := true, brk;
      ghost var g := Extended(k, a, n);
      if !Unborn() { ExtendedOk(k, a, n); }
      mem := ExtendedMem(mem, a, n);
      brk := brk + n;
      k := g;
    }

    /** The owner of a live block writes one of the units behind its header. */
    method Store(ap: nat, u: nat, h: Header)
      requires Valid() && ap > 0 && ap - 1 in k.live && ap <= u && ap - 1 in k.blocks && u < ap - 1 + k.blocks[ap - 1]
      modifies this
      ensures Valid() && k == old(k).(mem := old(k.mem)[u := h]) && freep == old(freep) && brk == old(brk)
    {
      StoreOk(k, ap - 1, u, h);
      mem := mem[u := h];
      k := k.(mem := mem);
    }

    /** Whether p is the block behind which b belongs: between p and its successor, or past the end of the list. */
    predicate Between(p: nat, b: nat)
      requires p in mem
      reads this
    {
      (b > p && b < mem[p].ptr) || (p >= mem[p].ptr && (b > p || b < mem[p].ptr))
    }

    method FindPlace(b: nat) returns (p: nat)
      requires Valid() && b in k.live
      ensures |k.ring| > 0 && k.ring[0] < b && p == k.ring[Below(k.ring, b, 0)]
      ensures b in mem && p in mem && mem[p].ptr in mem
    {
      hide Inserted, Freed, Coalesced, Links, Tiling, Headers;
      InsertOk(k, b);
      FreeWritesFreed(k, b);
      ghost var t: nat := Below(k.ring, b, 0);
      ghost var i: nat := Position(k.ring, freep);
      p := freep;
      RingMember(k, i);
      PlaceIff(k, i, b);
      while !Between(p, b)
        invariant i < |k.ring| && p == k.ring[i] && p in mem && (Between(p, b) <==> i == t)
        decreases Dist(|k.ring|, t, i)
        modifies {}
      {
        RingMember(k, i);
        p := mem[p].ptr;
        i := Next(|k.ring|, i);
        RingMember(k, i);
        PlaceIff(k, i, b);
      }
    }

    /** free(ap): the whole new heap. */
    method Free(ap: nat)
      requires Valid() && ap > 0 && ap - 1 in k.live
      modifies this
      ensures |old(k).ring| > 0 && old(k).ring[0] < ap - 1 && ap - 1 in old(k).mem
      ensures old(k).ring[Below(old(k).ring, ap - 1, 0)] in old(k).mem
      ensures Valid() && !Unborn() && k == Freed(old(k), ap - 1) && brk == old(brk)
      ensures k.live == old(k.live) - {ap - 1} && k.own.Keys == old(k.own.Keys) && KeepsLive(old(k), k)
      ensures freep == old(k).ring[Below(old(k).ring, ap - 1, 0)]
    {
      hide Ok, Freed, Below, Coalesced, KeepsLive;
      var bp := ap - 1;
      var p := FindPlace(bp);
      FreedOk(k, bp);
      FreedKeeps(k, bp);
      FreedRing(k, bp);
      FreeWritesFreed(k, bp);
      FreedMem(k, bp);
      var next := mem[p].ptr;
      if bp + mem[bp].size == next {
        mem := mem[bp := Header(mem[next].ptr, mem[bp].size + mem[next].size)];
      } else {
        mem := mem[bp := Header(next, mem[bp].size)];
      }
      if p + mem[p].size == bp {
        mem := mem[p := Header(mem[bp].ptr, mem[p].size + mem[bp].size)];
      } else {
        mem := mem[p := Header(bp, mem[p].size)];
      }
      freep := p;
      k := Freed(k, bp);
    }

    /** morecore: at least 4096 units from sbrk, put on the free list by free. */
    method Morecore(nunits: nat) returns (p: nat)
      requires Valid() && !Unborn() && nunits > 0 && SbrkTakes(nunits)
      modifies this
      ensures Valid() && !Unborn()
      ensures p == 0 <==> old(brk) + AskFor(nunits) > limit
      ensures p == 0 ==> k == old(k) && freep == old(freep) && brk == old(brk)
      ensures p != 0 ==> p == freep && brk == old(brk) + AskFor(nunits) && HasRoom(k, nunits)
      ensures p != 0 ==> brk - old(brk) == if nunits < 4096 then 4096 else nunits
      ensures p != 0 ==> k.own.Keys == old(k.own.Keys) + Units(old(brk), AskFor(nunits))
      ensures p != 0 && !HasRoom(old(k), nunits) ==> OnlyLast(k, nunits, brk)
      ensures k.live == old(k.live) && KeepsLive(old(k), k)
    {
      hide Ok, Coalesced, KeepsLive, Freed, Below, AskFor, Units, OnlyLast, HasRoom;
      AskForIs(nunits);
      var nu := AskFor(nunits);
      ghost var k0 := k;
      var ok, a := Sbrk(nu);
      KeepsItself(k0);
      if !ok { return 0; }
      ghost var k1 := k;
      mem := mem[a := mem[a].(size := nu)];
      GrantedOk(k1, mem, a, nu);
      GrantedKeeps(k1, mem, a, nu);
      k := Granted(k1, mem, a, nu);
      ghost var k2 := k;
      assert k2.blocks[a] == nu;
      FreedRoom(k2, a);
      if !HasRoom(k0, nunits) { GrownAtEnd(k0, k1, mem, a, nu, nunits); }
      ExtendedKeeps(k0, a, nu);
      Free(a + 1);
      KeepsLiveTwice(k0, k1, k2);
      KeepsLiveTwice(k0, k2, k);
      RoomForLess(k, nu, nunits);
      p := freep;
    }

    /**
     * malloc: a block nobody holds, of exactly the units looked for, or 0 when no free block is big enough and sbrk
     * gives no more. Blocks in use keep their size and contents, and the heap grows by one sbrk at most, and only if
     * it must; the block is then the last units of the new memory.
     */
    method Malloc(nbytes: nat) returns (ap: nat)
      requires Valid() && nbytes < MOD32 && SbrkTakes(NUnits(nbytes))
      modifies this
      ensures Valid() && !Unborn()
      ensures ap == 0 <==> !HasRoom(old(k), NUnits(nbytes)) && old(brk) + AskFor(NUnits(nbytes)) > limit
      ensures ap == 0 ==> k.live == old(k.live)
      ensures ap != 0 ==> ap - 1 !in old(k.live) && k.live == old(k.live) + {ap - 1}
      ensures ap != 0 ==> ap - 1 in k.blocks && k.blocks[ap - 1] == NUnits(nbytes) && mem[ap - 1].size == NUnits(nbytes)
      ensures KeepsLive(old(k), k)
      ensures HasRoom(old(k), NUnits(nbytes)) ==> ap != 0 && NextFitGives(old(k), old(freep), NUnits(nbytes), k, freep, ap - 1)
      ensures ap != 0 && !HasRoom(old(k), NUnits(nbytes)) ==> ap - 1 + NUnits(nbytes) == brk
      ensures brk == old(brk) + if ap == 0 || HasRoom(old(k), NUnits(nbytes)) then 0 else if NUnits(nbytes) < 4096 then 4096 else NUnits(nbytes)
      ensures k.own.Keys == old(k.own.Keys) + Units(old(brk), brk - old(brk))
    {
      hide Ok, Coalesced, KeepsLive, HasRoom, Passed, Units, AskFor, NUnits, SizeAt, SbrkTakes, FitFrom, GivesAt, Within, OnlyLast;
      ghost var k0 := k;
      var n := NUnits(nbytes);
      AskForIs(n);
      var prevp := Start(n);
      ghost var f: nat := Position(k.ring, freep);
      ghost var i: nat := Next(|k.ring|, f);
      RingMember(k, f);
      var p := mem[prevp].ptr;
      PassedNone(k, f, n);
      ghost var grown := false;
      while true
        invariant Valid() && !Unborn() && f < |k.ring| && i < |k.ring| && k.ring[f] == freep && k.ring[i] == p
        invariant prevp == k.ring[Prev(|k.ring|, i)]
        invariant Passed(k, f, Dist(|k.ring|, f, i), n) && k.live == k0.live && KeepsLive(k0, k)
        invariant if grown then HasRoom(k, n) && !HasRoom(k0, n) && old(brk) + AskFor(n) <= limit && brk == old(brk) + AskFor(n)
                  else brk == old(brk) && (HasRoom(k, n) <==> HasRoom(k0, n))
        invariant grown ==> OnlyLast(k, n, brk)
        invariant k.own.Keys == k0.own.Keys + Units(old(brk), brk - old(brk))
        invariant !grown && HasRoom(k0, n) ==> k == k0 && freep == old(freep)
        invariant NextFit(k, f, n) == FitFrom(k, i, Dist(|k.ring|, f, i), n)
        decreases if grown then 0 else 1, Dist(|k.ring|, f, i)
      {
        RingMember(k, i);
        if mem[p].size >= n {
          ghost var k1 := k;
          RoomAt(k, i, n);
          FitHere(k, i, Dist(|k.ring|, f, i), n);
          ap := Grant(n, prevp, p, i);
          KeepsLiveTwice(k0, k1, k);
          if grown { GivenAtEnd(k1, i, n, k, freep, ap - 1, brk); }
          return ap;
        }
        if p == freep {
          SamePlace(k, i, f);
          PassedAll(k, f, n);
          ghost var k1 := k;
          p := Morecore(n);
          if p == 0 { return 0; }
          KeepsLiveTwice(k0, k1, k);
          grown := true;
          f := Position(k.ring, p);
          i := f;
          RingMember(k, i);
          PassedNone(k, f, n);
        } else {
          PassedStep(k, f, i, n);
        }
        prevp := p;
        p := mem[p].ptr;
        i := Next(|k.ring|, i);
      }
    }

    /** malloc's first lines: where the search starts; the first call makes the list. */
    method Start(ghost n: nat) returns (prevp: nat)
      requires Valid() && n > 0
      modifies this
      ensures Valid() && !Unborn() && prevp == freep && brk == old(brk)
      ensures k.live == old(k.live) && k.own == old(k.own) && KeepsLive(old(k), k) && (HasRoom(k, n) <==> HasRoom(old(k), n))
      ensures HasRoom(old(k), n) ==> k == old(k) && freep == old(freep)
    {
      hide Ok, Coalesced, KeepsLive, HasRoom;
      ghost var k0 := k;
      prevp := freep;
      if prevp == 0 {
        mem := mem[BASE := Header(BASE, 0)];
        freep, prevp := BASE, BASE;
        k := k.(mem := mem, ring := [BASE]);
        FirstOk(k);
        NoRing(k0, n);
        NoneToKeep(k0, k);
      } else {
        KeepsItself(k0);
      }
    }

    /** malloc's hit: the whole block p goes, or its last n units do. */
    method Grant(n: nat, prevp: nat, p: nat, ghost i: nat) returns (ap: nat)
      requires Valid() && !Unborn() && n > 0 && i < |k.ring| && k.ring[i] == p && prevp == k.ring[Prev(|k.ring|, i)]
      requires p in mem && mem[p].size >= n
      modifies this
      ensures Valid() && !Unborn() && freep == prevp && brk == old(brk)
      ensures ap > 0 && ap - 1 !in old(k.live) && k.live == old(k.live) + {ap - 1} && ap - 1 in k.blocks && ap - 1 in mem
      ensures k.blocks[ap - 1] == n && mem[ap - 1].size == n && KeepsLive(old(k), k) && k.own.Keys == old(k.own.Keys)
      ensures GivesAt(old(k), i, n, k, freep, ap - 1)
    {
      hide Ok, Coalesced, KeepsLive;
      BigNotBase(k, i);
      if mem[p].size == n {
        TakenOk(k, i);
        TakenKeeps(k, i);
        TakenRing(k, i);
        TakenMem(k, i);
        mem := mem[prevp := mem[prevp].(ptr := mem[p].ptr)];
        k := Taken(k, i);
        ap := p + 1;
      } else {
        CarvedOk(k, i, n);
        CarvedKeeps(k, i, n);
        BlockUnits(k, p, CarvedAt(k, i, n));
        CarvedMem(k, i, n);
        var rest := mem[p].size - n;
        mem := mem[p := mem[p].(size := rest)];
        var q := p + rest;
        mem := mem[q := mem[q].(size := n)];
        k := Carved(k, i, n);
        ap := q + 1;
      }
      freep := prevp;
    }
  }

  function Prev(n: nat, i: nat): (r: nat)
    requires i < n
    ensures r < n
  {
    if i == 0 then n - 1 else i - 1
  }

  /** What the code writes when it takes block i whole, and when it carves. */
  lemma TakenMem(k: Kr, i: nat)
    requires 0 < i < |k.ring| && k.ring[i - 1] in k.mem && k.ring[i] in k.mem
    ensures Taken(k, i).mem == k.mem[k.ring[i - 1] := k.mem[k.ring[i - 1]].(ptr := k.mem[k.ring[i]].ptr)]
  {
  }

  lemma CarvedMem(k: Kr, i: nat, n: nat)
    requires 0 < i < |k.ring| && k.ring[i] in k.blocks && 0 < n < k.blocks[k.ring[i]] && k.ring[i] in k.mem
    requires CarvedAt(k, i, n) in k.mem
    ensures var m := k.mem[k.ring[i] := k.mem[k.ring[i]].(size := k.blocks[k.ring[i]] - n)]; var q := CarvedAt(k, i, n);
      && q in m && Carved(k, i, n).mem == m[q := m[q].(size := n)] && Carved(k, i, n).ring == k.ring
      && q in Carved(k, i, n).blocks && Carved(k, i, n).blocks[q] == n
  {
  }
}
