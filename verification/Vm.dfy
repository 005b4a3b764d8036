// kalloc.c and vm.c: the page allocator and the page tables built from it.
// Physical addresses are frame numbers where the code keeps them page-aligned.
module Vm {
  import opened VmSpec
  import opened VmRoom

  const KERNBASE: nat := 0x8000_0000
  const MOD32: nat := 0x1_0000_0000

  /** PGROUNDUP and PGROUNDDOWN, as page numbers. */
  function PageUp(a: nat): (p: nat)
    ensures a <= p * PGSIZE < a + PGSIZE
  {
    (a + PGSIZE - 1) / PGSIZE
  }

  function PageDown(a: nat): (p: nat)
    ensures p * PGSIZE <= a < (p + 1) * PGSIZE
  {
    a / PGSIZE
  }

  /** What walkpgdir leaves when it may allocate: nothing new, or a fresh table behind entry x. */
  function Walked(a: Vm, d: nat, x: nat): Vm {
    if (d, x) in a.tab || a.free == [] then a
    else a.(tab := a.tab[(d, x) := a.free[0]], own := a.own[a.free[0] := Table(d, x)], free := a.free[1..])
  }

  /** A frame taken, zeroed and hung into a directory: the same as Walked. */
  lemma WalkedIs(a: Vm, d: nat, x: nat)
    requires (d, x) !in a.tab && a.free != [] && a.free[0] !in a.held
    ensures var t := a.free[0];
      NewTable(a.(own := a.own[t := Held], held := a.held[t := Zeroed()], free := a.free[1..]), d, x, t) == Walked(a, d, x)
  {
    var t := a.free[0];
    assert a.held[t := Zeroed()] - {t} == a.held;
    assert a.own[t := Held][t := Table(d, x)] == a.own[t := Table(d, x)];
  }

  /** A new table comes from the free list, so releasing d gives it back. */
  lemma WalkedReleased(mem: Mem, list: nat, a: Vm, d: nat, x: nat)
    requires Ok(mem, list, a)
    ensures Released(Walked(a, d, x).own, d) == Released(a.own, d)
    ensures Walked(a, d, x).space == a.space && Walked(a, d, x).held == a.held
    ensures forall f :: f in a.own && a.own[f] == Held ==> f in Walked(a, d, x).own && Walked(a, d, x).own[f] == Held
  {
    hide Frames, Dirs, Tables, Pages, Owners, Hands, FreeList;
    if a.free != [] {
      FreeNotHeld(mem, list, a);
      ReleasedTaken(a.own, d, a.free[0], Table(d, x));
      assert Released(a.own, d)[a.free[0] := Free] == Released(a.own, d);
    }
  }

  /** Walking to page u makes the next table if it is missing; without a frame for it, not all pages up to w can be had. */
  lemma WalkedTook(a: Vm, b: Vm, d: nat, lo: nat, u: nat, w: nat)
    requires lo <= u < w && Took(a, b, d, X(lo), TabEnd(lo, u), 0)
    ensures if (d, X(u)) in b.tab || b.free != [] then Took(a, Walked(b, d, X(u)), d, X(lo), TabEnd(lo, u + 1), 0)
            else Needs(a.tab, d, X(lo), TabEnd(lo, w)) > |a.free|
  {
    hide X;
    if (d, X(u)) in b.tab || b.free != [] {
      TookTable(a, b, Walked(b, d, X(u)), d, lo, u, 0, 0);
    } else {
      TooFew(a, b, d, lo, u, w, 0, 0);
    }
  }

  class Memory {
    var mem: Mem
    var list: nat
    /** Frame of the first page of kernel data. */
    const data: nat
    ghost var v: Vm

    ghost predicate Valid()
      reads this
    {
      Ok(mem, list, v) && 0x100 < data < NFRAMES
    }

    /** Before kinit every frame is in the kernel's hands. */
    constructor (mem: Mem, data: nat)
      requires 0x100 < data < NFRAMES && forall f :: f in mem ==> 0 < f < NFRAMES && |mem[f]| == NENTRIES
      ensures Valid() && this.mem == mem && this.data == data
      ensures v == Vm(map[], map[], map f | f in mem :: Held, mem, [])
    {
      this.mem := mem;
      list := 0;
      this.data := data;
      v := Vm(map[], map[], map f | f in mem :: Held, mem, []);
    }

    // ----- kalloc.c

    /** kalloc: the first frame of the free list, or 0 when the list is empty. */
    method Kalloc() returns (r: nat)
      requires Valid()
      modifies this
      ensures Valid() && (r == 0 <==> old(v).free == [])
      ensures r == 0 ==> v == old(v)
      ensures r != 0 ==> r == old(v).free[0] && r in old(mem) && mem == old(mem) && v == Allocated(mem, old(v))
    {
      hide Frames, Dirs, Tables, Pages, Owners, Hands, FreeList;
      r := 0;
      ListHead(mem, list, v);
      if v.free != [] { AllocatedOk(mem, list, v); }
      if list != 0 {
        r := V2P(list);
        list := mem[r][0];
        v := Allocated(mem, v);
      }
    }

    /** kfree: fill with junk and push. */
    method Kfree(f: nat)
      requires f in mem
      modifies this`mem, this`list
      ensures mem == old(mem)[f := Junk(old(list))] && list == P2V(f)
    {
      mem := mem[f := Junk(list)];
      list := P2V(f);
    }

    /** A frame from kalloc goes back to kfree. */
    method Release(f: nat)
      requires Valid() && f in v.own && v.own[f] == Held
      modifies this
      ensures Valid() && v == Returned(old(v), f) && mem == old(mem)[f := Junk(old(list))]
    {
      ReturnedOk(mem, list, v, f);
      Kfree(f);
      v := Returned(v, f);
    }

    /** freerange: every whole page between the two addresses joins the free list. */
    method Freerange(start: nat, end: nat)
      requires Valid() && forall f :: PageUp(start) <= f < end / PGSIZE ==> f in v.own && v.own[f] == Held
      modifies this
      ensures Valid() && v.space == old(v).space && v.tab == old(v).tab
      ensures forall f :: f in v.own <==> f in old(v).own
      ensures forall f :: f in v.own ==> v.own[f] == if PageUp(start) <= f < end / PGSIZE then Free else old(v).own[f]
      ensures forall f :: f in v.held <==> f in old(v).held && !(PageUp(start) <= f < end / PGSIZE)
      ensures forall f :: f in v.held ==> v.held[f] == old(v).held[f]
    {
      var p := PageUp(start) * PGSIZE;
      ghost var f := PageUp(start);
      hide Ok;
      while p + PGSIZE <= end
        invariant Valid() && p == f * PGSIZE && f >= PageUp(start)
        invariant v.space == old(v).space && v.tab == old(v).tab
        invariant forall g :: g in v.own <==> g in old(v).own
        invariant forall g :: g in v.own ==> v.own[g] == if PageUp(start) <= g < f then Free else old(v).own[g]
        invariant forall g :: g in v.held <==> g in old(v).held && !(PageUp(start) <= g < f)
        invariant forall g :: g in v.held ==> v.held[g] == old(v).held[g]
        invariant PageUp(start) < f ==> f <= end / PGSIZE
        decreases end - p
      {
        Release(p / PGSIZE);
        p := p + PGSIZE;
        f := f + 1;
      }
    }

    /** A frame from kalloc, cleared: what every caller in vm.c but copyuvm wants. */
    method Zalloc() returns (f: nat)
      requires Valid()
      modifies this
      ensures Valid() && (f == 0 <==> old(v).free == [])
      ensures f == 0 ==> v == old(v)
      ensures f != 0 ==>
        && old(v).free != [] && f == old(v).free[0] && f in old(v).own && old(v).own[f] == Free && f !in old(v).held
        && v == old(v).(own := old(v).own[f := Held], held := old(v).held[f := Zeroed()], free := old(v).free[1..])
    {
      hide Frames, Dirs, Tables, Pages, Owners, Hands, FreeList, Zeroed;
      if v.free != [] { FreeNotHeld(mem, list, v); }
      ghost var a := v;
      f := Kalloc();
      if f == 0 { return 0; }
      FilledOk(mem, list, v, f, Zeroed());
      mem := mem[f := Zeroed()];
      v := Filled(v, f, Zeroed());
      assert a.held[f := mem[f]][f := Zeroed()] == a.held[f := Zeroed()];
    }

    // ----- vm.c

    /** walkpgdir: the table holding page u's entry, made if it is missing and alloc is set. */
    method Walkpgdir(d: nat, u: nat, alloc: bool) returns (ok: bool, t: nat)
      requires Valid() && d in v.space && u < NPAGES
      modifies this
      ensures Valid() && (ok ==> (d, X(u)) in v.tab && t == v.tab[(d, X(u))] && TableAt(mem, v, d, u))
      ensures v == if alloc then Walked(old(v), d, X(u)) else old(v)
      ensures ok <==> (d, X(u)) in old(v).tab || (alloc && old(v).free != [])
    {
      hide Frames, Dirs, Tables, Pages, Owners, Hands, FreeList, Zeroed;
      EntryThere(mem, list, v, d, u);
      var pde := mem[d][X(u)];
      if Present(pde) {
        return true, FrameOf(pde);
      }
      if !alloc { return false, 0; }
      ghost var a := v;
      t := Zalloc();
      if t == 0 { return false, 0; }
      EntryThere(mem, list, v, d, u);
      WalkedIs(a, d, X(u));
      NewTableOk(mem, list, v, d, X(u), t);
      var words: seq<nat> := mem[d][X(u) := Entry(t, PTE_W + PTE_U)];
      mem := mem[d := words];
      v := NewTable(v, d, X(u), t);
      EntryThere(mem, list, v, d, u);
      ok := true;
    }

    /**
     * mappages: entries for the pages of [va, va + size), on frames from f on. All get mapped, exactly when there are
     * free frames for the tables they lack; else only the first `done` are.
     */
    method Mappages(d: nat, va: nat, size: nat, f: nat, perm: nat) returns (ok: bool, ghost done: nat)
      requires Valid() && d in v.space && size > 0 && va + size <= MOD32 && perm < PGSIZE
      requires forall u :: PageDown(va) <= u <= PageDown(va + size - 1) ==> u !in v.space[d]
      requires PageDown(va) >= USER || (PageDown(va) == PageDown(va + size - 1) && f in v.held && f in v.own && v.own[f] == Held)
      modifies this
      ensures Valid() && d in v.space && done <= PageDown(va + size - 1) + 1 - PageDown(va)
      ensures ok <==> done == PageDown(va + size - 1) + 1 - PageDown(va)
      ensures var x := X(PageDown(va)); var y := X(PageDown(va + size - 1)) + 1;
        && x <= y && (ok <==> Needs(old(v).tab, d, x, y) <= |old(v).free|) && (ok ==> Took(old(v), v, d, x, y, 0))
      ensures var data := if PageDown(va) < USER then old(v).held[f] else [];
        v.space == old(v).space[d := old(v).space[d] + Run(PageDown(va), done, f, perm, data)]
      ensures if PageDown(va) < USER && ok
              then v.held == old(v).held - {f} && Released(v.own, d) == Released(old(v).own, d)[f := Free]
              else v.held == old(v).held && Released(v.own, d) == Released(old(v).own, d)
    {
      hide Ok, Released, Run, Took, Needs, TabEnd, X;
      ghost var first := PageDown(va);
      ghost var a := v;
      ghost var data := if first < USER then a.held[f] else [];
      var u, last := PageDown(va), PageDown(va + size - 1);
      var g := f;
      done := 0;
      RunNext(a.space[d], first, 0, f, perm, data);
      assert a.space[d := a.space[d]] == a.space;
      TookNothing(a, d, X(first));
      TabEndIs(first, last);
      while true
        invariant Took(a, v, d, X(first), TabEnd(first, u), 0)
        invariant Valid() && d in v.space && first <= u <= last && last < NPAGES && done == u - first && g == f + done
        invariant v.space == a.space[d := a.space[d] + Run(first, done, f, perm, data)] && v.held == a.held
        invariant first < USER ==> f in v.own && v.own[f] == Held
        invariant Released(v.own, d) == Released(a.own, d)
        decreases last - u
      {
        WalkedTook(a, v, d, first, u, last + 1);
        NotYet(a.space[d], first, done, f, perm, data, u);
        ghost var b := v;
        ok := MapOne(d, u, g, perm);
        if !ok { return; }
        TookSame(a, Walked(b, d, X(u)), v, d, X(first), TabEnd(first, u + 1), 0);
        RunNext(a.space[d], first, done, f, perm, data);
        done := done + 1;
        if u == last {
          TookAll(a, v, d, X(first), TabEnd(first, u + 1), 0);
          return;
        }
        u := u + 1;
        g := g + 1;
      }
    }

    /** One round of mappages's loop. */
    method MapOne(d: nat, u: nat, f: nat, perm: nat) returns (ok: bool)
      requires Valid() && d in v.space && u < NPAGES && perm < PGSIZE && u !in v.space[d]
      requires u < USER ==> f in v.held && f in v.own && v.own[f] == Held
      modifies this
      ensures Valid() && (ok <==> (d, X(u)) in old(v).tab || old(v).free != [])
      ensures !ok ==> v == old(v)
      ensures ok ==> v.tab == Walked(old(v), d, X(u)).tab && v.free == Walked(old(v), d, X(u)).free && d in old(v).space
      ensures ok ==> v.space == old(v).space[d := WithPage(old(v).space[d], u, Page(Entry(f, perm), if u < USER then old(v).held[f] else []))]
      ensures if u < USER && ok
              then v.held == old(v).held - {f} && Released(v.own, d) == Released(old(v).own, d)[f := Free]
              else v.held == old(v).held && Released(v.own, d) == Released(old(v).own, d) && (u < USER ==> v.own[f] == Held)
    {
      hide Ok, Released, X, Y;
      WalkedReleased(mem, list, v, d, X(u));
      var t;
      ok, t := Walkpgdir(d, u, true);
      if !ok { return; }
      ghost var c := v;
      MappedOk(mem, list, v, d, u, Entry(f, perm));
      var words: seq<nat> := mem[t][Y(u) := Entry(f, perm)];
      mem := mem[t := words];
      v := Mapped(v, d, u, Entry(f, perm));
      MappedReleased(c, d, u, Entry(f, perm));
    }

    /** deallocuvm: exactly the pages there are from PGROUNDUP(newsz) up to oldsz go, and their frames are free. */
    method Deallocuvm(d: nat, oldsz: nat, newsz: nat) returns (r: nat)
      requires Valid() && d in v.space && oldsz <= KERNBASE
      modifies this
      ensures Valid() && d in v.space && r == if newsz >= oldsz then oldsz else newsz
      ensures if newsz >= oldsz then v == old(v) else DeallocTo(old(v), v, d, PageUp(newsz), PageUp(oldsz))
    {
      hide Frames, Dirs, Tables, Pages, Hands, FreeList, DeallocTo, Owners;
      if newsz >= oldsz { return oldsz; }
      ghost var a := v;
      ghost var mem0, list0 := mem, list;
      ghost var lo := PageUp(newsz);
      var u := PageUp(newsz);
      DeallocNothing(a, d, lo);
      while u * PGSIZE < oldsz
        invariant Valid() && d in v.space && Owners(a) && Ok(mem0, list0, a)
        invariant lo <= u && u * PGSIZE < oldsz + PGSIZE * NENTRIES
        invariant if u <= PageUp(oldsz) then DeallocTo(a, v, d, lo, u) else DeallocTo(a, v, d, lo, PageUp(oldsz))
        decreases PageUp(oldsz) - u
      {
        ghost var b := v;
        DeallocSpace(a, v, d, lo, u);
        var ok, t := Walkpgdir(d, u, false);
        if !ok {
          AbsentTable(mem0, list0, a, v, d, lo, u, PageUp(oldsz));
          u := (X(u) + 1) * NENTRIES - 1;
        } else {
          var pte := mem[t][Y(u)];
          PteThere(mem, list, v, d, u);
          if Present(pte) {
            var f := FrameOf(pte);
            DeallocPage(mem0, list0, a, mem, list, v, d, lo, u);
            UnmapAndRelease(mem, list, v, d, u);
            Kfree(f);
            var words: seq<nat> := mem[t][Y(u) := 0];
            mem := mem[t := words];
            v := Returned(Unmapped(v, d, u), f);
          } else {
            DeallocSkip(a, v, d, lo, u, u + 1);
          }
        }
        u := u + 1;
      }
      return newsz;
    }

    /** freevm: every frame of the address space, and no other, goes back to the free list. */
    method Freevm(d: nat)
      requires Valid() && d in v.space
      modifies this
      ensures Valid() && v.space == old(v).space - {d} && v.own == Released(old(v).own, d) && v.held == old(v).held
    {
      hide Frames, Dirs, Tables, Pages, Hands, FreeList, DeallocTo, Owners, Swept, Released, PdeWord, Entry;
      ghost var a := v;
      var r := Deallocuvm(d, KERNBASE, 0);
      ghost var b, memb := v, mem;
      DeallocAll(a, b, d);
      SweptOk(mem, list, v, d);
      v := Swept(memb, b, d, 0, b.free);
      var i := 0;
      while i < NENTRIES
        invariant i <= NENTRIES && Ok(mem, list, v) && v == Swept(memb, b, d, i, v.free)
        invariant d in mem && d in memb && mem[d] == memb[d]
      {
        SweptStep(memb, b, d, i, v.free);
        PdeIs(b.tab, d, i);
        if Present(mem[d][i]) {
          Release(FrameOf(mem[d][i]));
        }
        i := i + 1;
      }
      SweptLast(memb, b, d, v.free);
      Release(d);
    }

    /** Directory d has a table for just the directory entries of kmap's first k regions. */
    ghost predicate HasTables(a: Vm, d: nat, k: nat)
      requires k <= 4 && 0x100 < data < NFRAMES
    {
      forall x: nat {:trigger (d, x) in a.tab} :: (d, x) in a.tab <==> KernTable(data, k, x)
    }

    /** Region k adds its tables and takes a frame for each. */
    lemma RegionTook(a: Vm, b: Vm, d: nat, k: nat)
      requires k < 4 && 0x100 < data < NFRAMES && HasTables(a, d, k)
      ensures var r := Kmap(data, k); var lo, hi := X(r.virt), X(r.virt + r.n - 1) + 1;
        && lo <= hi && Needs(a.tab, d, lo, hi) == KernCount(data, k + 1) - KernCount(data, k)
        && (Took(a, b, d, lo, hi, 0) ==> HasTables(b, d, k + 1) && |b.free| + KernCount(data, k + 1) == |a.free| + KernCount(data, k))
    {
      KernNeeds(a.tab, d, data, k);
      KernTableNext(data, k);
      KernSpan(data, k);
      hide KernTable, KernCount, Kmap, X, KernLo, KernHi;
    }

    /** An empty page directory. */
    method NewPgdir() returns (d: nat)
      requires Valid()
      modifies this
      ensures Valid() && v.held == old(v).held && (d != 0 <==> |old(v).free| >= 1)
      ensures d == 0 ==> v.space == old(v).space && v.own == old(v).own
      ensures d != 0 ==> d !in old(v).space && v.space == old(v).space[d := map[]] && Released(v.own, d) == old(v).own
      ensures d != 0 ==> |v.free| + 1 == |old(v).free| && HasTables(v, d, 0)
    {
      hide Frames, Dirs, Tables, Pages, Hands, FreeList, Owners, Released, Zeroed;
      ghost var a := v;
      d := Zalloc();
      if d == 0 { return 0; }
      NewDirReleased(a, d);
      NewDirOk(mem, list, v, d);
      v := NewDir(v, d);
    }

    /** setupkvm: a new address space with the kernel's map, exactly when there are frames for it; else 0 and all frames as they were. */
    method Setupkvm() returns (d: nat)
      requires Valid()
      modifies this
      ensures Valid() && v.held == old(v).held
      ensures d != 0 <==> |old(v).free| >= KERNFRAMES
      ensures d == 0 ==> v.space == old(v).space && v.own == old(v).own
      ensures d != 0 ==> d !in old(v).space && v.space == old(v).space[d := KernPages(data, 4)] && Released(v.own, d) == old(v).own
      ensures d != 0 ==> |v.free| + KERNFRAMES == |old(v).free| && HasTables(v, d, 4)
    {
      hide Ok, Released, KernPages, Kmap, Run, PageUp, PageDown, HasTables, KernCount, Needs, Took, X;
      ghost var a := v;
      d := NewPgdir();
      if d == 0 { return 0; }
      var k := 0;
      KernNone(data);
      NoneCounted(data);
      while k < 4
        invariant k <= 4 && HasTables(v, d, k) && |v.free| + 1 + KernCount(data, k) == |a.free|
        invariant Valid() && d in v.space && d !in a.space && v.held == a.held
        invariant v.space == a.space[d := KernPages(data, k)] && Released(v.own, d) == a.own
      {
        var r := Kmap(data, k);
        KernFresh(data, k);
        RunBytes(r.virt, r.n);
        ghost var b := v;
        RegionTook(b, b, d, k);
        var ok, done := Mappages(d, r.virt * PGSIZE, r.n * PGSIZE, r.start, r.perm);
        RegionTook(b, v, d, k);
        CountLeft(data, k + 1);
        if !ok {
          Freevm(d);
          assert v.space == a.space;
          return 0;
        }
        KernNext(data, k);
        k := k + 1;
      }
    }

    /**
     * allocuvm: zeroed pages up to newsz, exactly when there are free frames for them and the tables they lack; else
     * none at all, and only empty page tables are kept.
     */
    method Allocuvm(d: nat, oldsz: nat, newsz: nat) returns (r: nat)
      requires Valid() && d in v.space
      requires oldsz <= newsz < KERNBASE ==> forall u :: PageUp(oldsz) <= u < PageUp(newsz) ==> u !in v.space[d]
      modifies this
      ensures Valid() && d in v.space && r in {0, oldsz, newsz}
      ensures newsz >= KERNBASE ==> r == 0 && v == old(v)
      ensures newsz < oldsz && newsz < KERNBASE ==> r == oldsz && v == old(v)
      ensures v.held == old(v).held && Released(v.own, d) == Released(old(v).own, d)
      ensures oldsz <= newsz < KERNBASE ==>
        && PageUp(oldsz) <= PageUp(newsz)
        && (r == newsz <==> Growth(old(v).tab, d, PageUp(oldsz), PageUp(newsz)) <= |old(v).free|)
      ensures oldsz <= newsz < KERNBASE && r != newsz ==> r == 0 && v.space == old(v).space
      ensures oldsz <= newsz < KERNBASE && r == newsz ==> v.space == old(v).space[d := v.space[d]]
      ensures oldsz <= newsz < KERNBASE && r == newsz ==> Grown(old(v).space[d], v.space[d], PageUp(oldsz), PageUp(newsz))
    {
      hide Ok, Released, Grown, Zeroed, DeallocTo, Run, Entry, Junk, PageDown, Took, Needs, TabEnd, X, Growth;
      if newsz >= KERNBASE { return 0; }
      if newsz < oldsz { return oldsz; }
      ghost var a := v;
      ghost var lo, hi := PageUp(oldsz), PageUp(newsz);
      var u := PageUp(oldsz);
      GrownNone(a.space[d], lo);
      TookNothing(a, d, X(lo));
      TabEndIs(lo, lo);
      assert a.space[d := a.space[d]] == a.space;
      while u * PGSIZE < newsz
        invariant Valid() && d in v.space && lo <= u && (u <= hi || u == lo) && v.held == a.held && Released(v.own, d) == Released(a.own, d)
        invariant v.space == a.space[d := v.space[d]] && Grown(a.space[d], v.space[d], lo, u)
        invariant Took(a, v, d, X(lo), TabEnd(lo, u), u - lo)
        decreases hi - u
      {
        ghost var b := v;
        PageTook(a, b, d, lo, u, hi);
        GrownFresh(a.space[d], v.space[d], lo, u);
        var ok, f := GrowPage(d, u);
        if !ok {
          assert b.space[d := b.space[d]] == b.space;
          Shrink(d, newsz, oldsz, a, u);
          if f != 0 {
            StillHeld(mem, list, v, f);
            HandBack(v.own, d, f);
            Release(f);
            assert b.held[f := Zeroed()] - {f} == b.held;
          }
          return 0;
        }
        TookTable(a, b, v, d, lo, u, u - lo, 1);
        GrownNext(a.space[d], b.space[d], lo, u, Page(Entry(f, PTE_W + PTE_U), Zeroed()));
        u := u + 1;
      }
      GrowthEnough(a, v, d, lo, u);
      return newsz;
    }

    /** One page more; f is its frame, which without a page table is left in the caller's hands. */
    method GrowPage(d: nat, u: nat) returns (ok: bool, f: nat)
      requires Valid() && d in v.space && u < USER && u !in v.space[d]
      modifies this
      ensures Valid() && (ok <==> 1 + Needs(old(v).tab, d, X(u), X(u) + 1) <= |old(v).free|)
      ensures ok ==> Took(old(v), v, d, X(u), X(u) + 1, 1)
      ensures ok ==> v.held == old(v).held && Released(v.own, d) == Released(old(v).own, d)
      ensures ok ==> v.space == old(v).space[d := WithPage(old(v).space[d], u, Page(Entry(f, PTE_W + PTE_U), Zeroed()))]
      ensures !ok ==> v.space == old(v).space && d in v.space
      ensures !ok && f == 0 ==> v == old(v)
      ensures !ok && f != 0 ==>
        && f !in old(v).held && v.held == old(v).held[f := Zeroed()] && Released(v.own, d)[f := Free] == Released(old(v).own, d)
    {
      hide Ok, Released, Zeroed, Run, Entry, Junk, PageDown, Took, Needs, X;
      ghost var a := v;
      f := Zalloc();
      NeedsOne(a.tab, d, X(u));
      if f == 0 { return false, 0; }
      HandReleased(a.own, d, f);
      ghost var g := v;
      RunBytes(u, 1);
      ghost var done;
      ok, done := Mappages(d, u * PGSIZE, PGSIZE, f, PTE_W + PTE_U);
      RunOne(a.space[d], u, f, PTE_W + PTE_U, Zeroed());
      assert a.held[f := Zeroed()] - {f} == a.held;
      assert a.space[d := a.space[d]] == a.space;
      if ok { TookAlso(a, g, v, d, X(u), X(u) + 1); }
    }

    /** allocuvm's failure: the pages grown so far go again. */
    method Shrink(d: nat, newsz: nat, oldsz: nat, ghost a: Vm, ghost u: nat)
      requires Valid() && d in v.space && oldsz < newsz < KERNBASE && d in a.space && u <= PageUp(newsz)
      requires v.space == a.space[d := v.space[d]] && Grown(a.space[d], v.space[d], PageUp(oldsz), u)
      requires forall w :: PageUp(oldsz) <= w < PageUp(newsz) ==> w !in a.space[d]
      modifies this
      ensures Valid() && v.space == a.space && v.held == old(v).held && Released(v.own, d) == Released(old(v).own, d)
    {
      hide Ok, Released, Grown, DeallocTo;
      ghost var b := v;
      var q := Deallocuvm(d, newsz, oldsz);
      GrownUndone(a, b, v, d, PageUp(oldsz), u, PageUp(newsz));
    }

    /**
     * copyuvm: a child with the parent's first sz bytes, on frames that were free, exactly when there are enough for
     * the kernel's part, the pages and their tables; everything else is as it was. Otherwise 0, and nothing has
     * changed: not one frame has gone astray.
     */
    method Copyuvm(d: nat, sz: nat) returns (c: nat)
      requires Valid() && d in v.space && sz <= KERNBASE && forall u :: 0 <= u < PageUp(sz) ==> u in v.space[d]
      modifies this
      ensures Valid() && v.held == old(v).held
      ensures c != 0 <==> KERNFRAMES + PageUp(sz) + TabEnd(0, PageUp(sz)) <= |old(v).free|
      ensures c == 0 ==> v.space == old(v).space && v.own == old(v).own
      ensures c != 0 ==> c !in old(v).space && c in v.space && v.space == old(v).space[c := v.space[c]]
      ensures c != 0 ==> Copied(old(v).space[d], v.space[c], KernPages(data, 4), PageUp(sz))
      ensures c != 0 ==> Released(v.own, c) == old(v).own
    {
      hide Ok, Released, Copied, KernPages, Run, Entry, Junk, PageDown, X, Y, FrameOf, FlagsOf, Present, TableAt;
      hide Took, Needs, TabEnd, HasTables;
      ghost var a := v;
      ghost var n := PageUp(sz);
      c := Setupkvm();
      if c == 0 { return 0; }
      CopiedNone(a.space[d], data);
      ghost var k := v;
      NoUserTables(k, c);
      TookNothing(k, c, X(0));
      TabEndIs(0, 0);
      var i := 0;
      while i < sz
        invariant Took(k, v, c, X(0), TabEnd(0, i / PGSIZE), i / PGSIZE)
        invariant i % PGSIZE == 0 && i / PGSIZE <= n && Valid() && c in v.space && v.held == a.held && Released(v.own, c) == a.own
        invariant v.space == a.space[c := v.space[c]] && Copied(a.space[d], v.space[c], KernPages(data, 4), i / PGSIZE)
      {
        ghost var b := v;
        var u := i / PGSIZE;
        CopiedFresh(a.space[d], v.space[c], data, u);
        PageTook(k, b, c, 0, u, n);
        var ok := CopyPage(d, c, u);
        UserNeeds(k, c, n);
        if !ok {
          Freevm(c);
          assert v.space == a.space;
          return 0;
        }
        KernBelow(data, 3, u);
        CopiedNext(a.space[d], b.space[c], KernPages(data, 4), u, v.space[c][u]);
        TookTable(k, b, v, c, 0, u, u, 1);
        i := i + PGSIZE;
      }
      UserNeeds(k, c, n);
      GrowthEnough(k, v, c, 0, n);
    }

    /** A new address space has no tables for user pages, so it lacks them all. */
    ghost predicate NoneBelow(a: Vm, d: nat) {
      forall x: nat {:trigger (d, x) in a.tab} :: x < 512 ==> (d, x) !in a.tab
    }

    lemma NoUserTables(a: Vm, d: nat)
      requires 0x100 < data < NFRAMES && HasTables(a, d, 4)
      ensures NoneBelow(a, d)
    {
    }

    lemma UserNeeds(a: Vm, d: nat, n: nat)
      requires NoneBelow(a, d) && n <= USER
      ensures Needs(a.tab, d, X(0), TabEnd(0, n)) == TabEnd(0, n)
    {
      NeedsFrom(a.tab, d, X(0), TabEnd(0, n), 0);
    }

    /** One page for the child, or nothing and false. */
    method CopyPage(d: nat, c: nat, u: nat) returns (ok: bool)
      requires Valid() && d in v.space && c in v.space && d != c && u < USER && u in v.space[d] && u !in v.space[c]
      modifies this
      ensures ok <==> 1 + Needs(old(v).tab, c, X(u), X(u) + 1) <= |old(v).free|
      ensures ok ==> Took(old(v), v, c, X(u), X(u) + 1, 1)
      ensures Valid() && c in v.space && v.held == old(v).held && Released(v.own, c) == Released(old(v).own, c)
      ensures !ok ==> v.space == old(v).space
      ensures ok ==> u in v.space[c] && v.space == old(v).space[c := WithPage(old(v).space[c], u, v.space[c][u])]
      ensures ok ==> v.space[c][u].data == old(v).space[d][u].data && FlagsOf(v.space[c][u].pte) == FlagsOf(old(v).space[d][u].pte)
    {
      hide Ok, Released, Run, Entry, Junk, PageDown, X, Y, FrameOf, FlagsOf, Present, TableAt, OrPresent, Took, Needs;
      ghost var a := v;
      PageThere(mem, list, v, d, u);
      var found, t := Walkpgdir(d, u, false);
      PteThere(mem, list, v, d, u);
      var pte := mem[t][Y(u)];
      var pa, flags := FrameOf(pte), FlagsOf(pte);
      FlagsPresent(pte);
      var f := CopyFrame(d, u, pa);
      if f == 0 { return false; }
      HandReleased(a.own, c, f);
      RunBytes(u, 1);
      ghost var g := v;
      ghost var done;
      ok, done := Mappages(c, u * PGSIZE, PGSIZE, f, flags);
      RunOne(a.space[c], u, f, flags, a.space[d][u].data);
      assert a.held[f := a.space[d][u].data] - {f} == a.held;
      if ok { TookAlso(a, g, v, c, X(u), X(u) + 1); }
      if !ok {
        assert a.space[c := a.space[c]] == a.space;
        StillHeld(mem, list, v, f);
        HandBack(v.own, c, f);
        Release(f);
      }
    }

    /** A frame with a copy of page u's contents. */
    method CopyFrame(d: nat, u: nat, pa: nat) returns (f: nat)
      requires Valid() && d in v.space && u in v.space[d] && u < USER && pa == FrameOf(v.space[d][u].pte)
      modifies this
      ensures Valid() && (f == 0 <==> old(v).free == [])
      ensures f == 0 ==> v == old(v)
      ensures f != 0 ==>
        && old(v).free != [] && f == old(v).free[0] && f in old(v).own && old(v).own[f] == Free && f !in old(v).held
        && v == old(v).(own := old(v).own[f := Held], held := old(v).held[f := old(v).space[d][u].data], free := old(v).free[1..])
    {
      hide Frames, Dirs, Tables, Pages, Owners, Hands, FreeList, FrameOf;
      if v.free != [] { FreeNotHeld(mem, list, v); }
      PageThere(mem, list, v, d, u);
      ghost var a := v;
      f := Kalloc();
      if f == 0 { return 0; }
      FilledOk(mem, list, v, f, mem[pa]);
      mem := mem[f := mem[pa]];
      v := Filled(v, f, a.space[d][u].data);
      assert a.held[f := mem[f]][f := a.space[d][u].data] == a.held[f := a.space[d][u].data];
    }

    /** A process writes word i of its page u: no other address space sees it. */
    method Store(d: nat, u: nat, i: nat, w: nat)
      requires Valid() && d in v.space && u in v.space[d] && u < USER && i < NENTRIES
      modifies this
      ensures Valid() && |old(v).space[d][u].data| == NENTRIES
      ensures v == old(v).(space := old(v).space[d := WithPage(old(v).space[d], u, Stored(old(v).space[d][u], i, w))])
    {
      hide Frames, Dirs, Tables, Pages, Owners, Hands, FreeList, FrameOf;
      PageThere(mem, list, v, d, u);
      PteThere(mem, list, v, d, u);
      EntryThere(mem, list, v, d, u);
      var t := FrameOf(mem[d][X(u)]);
      PdeIs(v.tab, d, X(u));
      StoredOk(mem, list, v, d, u, i, w);
      var f := FrameOf(mem[t][Y(u)]);
      var words: seq<nat> := mem[f][i := w];
      mem := mem[f := words];
      v := StoredVm(v, d, u, i, w);
    }
  }

  lemma RunBytes(v: nat, n: nat)
    requires n > 0 && v + n <= NPAGES
    ensures PageDown(v * PGSIZE) == v && PageDown(v * PGSIZE + n * PGSIZE - 1) == v + n - 1 && v * PGSIZE + n * PGSIZE <= MOD32
  {
  }
}
