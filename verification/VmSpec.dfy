// Physical frames, page directories and tables, and what they mean: which
// virtual pages each address space maps, and who owns every frame.
module VmSpec {

  /** Frame contents, 1024 words each, by frame number. */
  type Mem = map<nat, seq<nat>>

  const NENTRIES: nat := 1024
  const PGSIZE: nat := 4096
  /** First kernel page (KERNBASE), one past the last page, and PHYSTOP, all in pages. */
  const USER: nat := 0x80000
  const NPAGES: nat := 0x100000
  const NFRAMES: nat := 0xE000
  const PTE_P: nat := 1
  const PTE_W: nat := 2
  const PTE_U: nat := 4

  /** A mapped page: its table entry and, below KERNBASE, the contents of its frame. */
  datatype Page = Page(pte: nat, data: seq<nat>)

  /** Who has a frame: the free list, someone who called kalloc, or an address space as directory, table or user page. */
  datatype Use = Free | Held | Dir | Table(d: nat, x: nat) | User(d: nat, v: nat)

  /**
   * `space` maps each page directory to the pages it maps, `tab` each used directory entry to its table, `own` each
   * frame to its use; `held` has the contents of the frames in callers' hands, and `free` the free list in order.
   */
  datatype Vm = Vm(space: map<nat, map<nat, Page>>, tab: map<(nat, nat), nat>, own: map<nat, Use>,
                   held: map<nat, seq<nat>>, free: seq<nat>)

  /** Directory index and table index of page v. */
  function X(v: nat): nat { v / NENTRIES }

  function Y(v: nat): (y: nat)
    ensures y < NENTRIES
  {
    v % NENTRIES
  }

  lemma SameXY(v: nat, w: nat)
    requires X(v) == X(w) && Y(v) == Y(w)
    ensures v == w
  {
  }

  predicate Present(w: nat) { w % 2 == 1 }

  function FrameOf(w: nat): nat { w / PGSIZE }

  function FlagsOf(w: nat): (r: nat)
    ensures r < PGSIZE
  {
    w % PGSIZE
  }

  /** perm | PTE_P */
  function OrPresent(perm: nat): nat { if perm % 2 == 1 then perm else perm + 1 }

  /** pa | perm | PTE_P for the frame's address. */
  function Entry(f: nat, perm: nat): (w: nat)
    requires perm < PGSIZE
    ensures Present(w) && FrameOf(w) == f && FlagsOf(w) == OrPresent(perm)
  {
    f * PGSIZE + OrPresent(perm)
  }

  function PdeWord(tab: map<(nat, nat), nat>, d: nat, x: nat): nat {
    if (d, x) in tab then Entry(tab[(d, x)], PTE_W + PTE_U) else 0
  }

  function PteWord(space: map<nat, map<nat, Page>>, d: nat, v: nat): nat {
    if d in space && v in space[d] then space[d][v].pte else 0
  }

  ghost predicate Frames(mem: Mem, own: map<nat, Use>) {
    mem.Keys == own.Keys && forall f :: f in mem ==> 0 < f < NFRAMES && |mem[f]| == NENTRIES
  }

  /** Entry x of directory d says what tab says. */
  ghost predicate DirAt(mem: Mem, a: Vm, d: nat, x: nat)
    requires x < NENTRIES
  {
    d in mem && |mem[d]| == NENTRIES && mem[d][x] == PdeWord(a.tab, d, x)
  }

  ghost predicate Dirs(mem: Mem, a: Vm) {
    forall d: nat, x: nat {:trigger DirAt(mem, a, d, x)} :: d in a.space && x < NENTRIES ==> DirAt(mem, a, d, x)
  }

  /** The table entry for page v of directory d says what space says. */
  ghost predicate TableAt(mem: Mem, a: Vm, d: nat, v: nat)
    requires (d, X(v)) in a.tab
  {
    var t := a.tab[(d, X(v))];
    t in mem && |mem[t]| == NENTRIES && mem[t][Y(v)] == PteWord(a.space, d, v)
  }

  ghost predicate Tables(mem: Mem, a: Vm) {
    forall d: nat, v: nat {:trigger TableAt(mem, a, d, v)} :: d in a.space && v < NPAGES && (d, X(v)) in a.tab ==> TableAt(mem, a, d, v)
  }

  ghost predicate PageOk(mem: Mem, a: Vm, d: nat, v: nat)
    requires d in a.space && v in a.space[d]
  {
    var page := a.space[d][v];
    var f := FrameOf(page.pte);
    && v < NPAGES && (d, X(v)) in a.tab && Present(page.pte)
    && if v < USER then f in a.own && a.own[f] == User(d, v) && f in mem && mem[f] == page.data else page.data == []
  }

  ghost predicate Pages(mem: Mem, a: Vm) {
    forall d: nat, v: nat {:trigger PageOk(mem, a, d, v)} {:trigger v in a.space[d]} :: d in a.space && v in a.space[d] ==> PageOk(mem, a, d, v)
  }

  /** What own says of directories, tables and user pages is what space and tab say. */
  ghost predicate Owners(a: Vm) {
    && (forall d :: d in a.space ==> d in a.own && a.own[d] == Dir)
    && (forall f :: f in a.own && a.own[f] == Dir ==> f in a.space)
    && (forall k :: k in a.tab ==> k.0 in a.space && k.1 < NENTRIES && a.tab[k] in a.own && a.own[a.tab[k]] == Table(k.0, k.1))
    && (forall f :: f in a.own && a.own[f].Table? ==> (a.own[f].d, a.own[f].x) in a.tab && a.tab[(a.own[f].d, a.own[f].x)] == f)
    && (forall f :: f in a.own && a.own[f].User? ==> UserOk(a, f, a.own[f].d, a.own[f].v))
  }

  predicate UserOk(a: Vm, f: nat, d: nat, v: nat) {
    v < USER && d in a.space && v in a.space[d] && FrameOf(a.space[d][v].pte) == f
  }

  ghost predicate Hands(mem: Mem, a: Vm) {
    && (forall f :: f in a.held <==> f in a.own && a.own[f] == Held)
    && (forall f :: f in a.held ==> f in mem && mem[f] == a.held[f])
  }

  /** Kernel address of a frame. */
  function P2V(f: nat): nat { 0x8000_0000 + f * PGSIZE }

  function V2P(p: nat): nat
    requires p >= 0x8000_0000
  {
    (p - 0x8000_0000) / PGSIZE
  }

  function Link(free: seq<nat>, i: nat): nat { if i < |free| then P2V(free[i]) else 0 }

  /** The free list is linked through the first word of its frames and holds exactly the free frames, once each. */
  ghost predicate FreeList(mem: Mem, list: nat, a: Vm) {
    && list == Link(a.free, 0)
    && (forall i, j :: 0 <= i < j < |a.free| ==> a.free[i] != a.free[j])
    && (forall i :: 0 <= i < |a.free| ==> a.free[i] in a.own && a.own[a.free[i]] == Free)
    && (forall f :: f in a.own && a.own[f] == Free ==> f in a.free)
    && (forall i {:trigger Linked(mem, a.free, i)} :: 0 <= i < |a.free| ==> Linked(mem, a.free, i))
  }

  /** The i-th free frame points to the next. */
  predicate Linked(mem: Mem, free: seq<nat>, i: nat)
    requires i < |free|
  {
    free[i] in mem && |mem[free[i]]| == NENTRIES && mem[free[i]][0] == Link(free, i + 1)
  }

  ghost predicate Ok(mem: Mem, list: nat, a: Vm) {
    Frames(mem, a.own) && Dirs(mem, a) && Tables(mem, a) && Pages(mem, a) && Owners(a) && Hands(mem, a) && FreeList(mem, list, a)
  }

  /** Two user pages never share a frame. */
  lemma NoSharing(mem: Mem, list: nat, a: Vm, d: nat, v: nat, e: nat, w: nat)
    requires Ok(mem, list, a) && d in a.space && v in a.space[d] && e in a.space && w in a.space[e]
    requires v < USER && w < USER && (d != e || v != w)
    ensures FrameOf(a.space[d][v].pte) != FrameOf(a.space[e][w].pte)
    ensures FrameOf(a.space[d][v].pte) !in a.free && FrameOf(a.space[d][v].pte) !in a.space
  {
    assert PageOk(mem, a, d, v) && PageOk(mem, a, e, w);
  }

  // ----- frames in hand

  function Zeroed(): (z: seq<nat>)
    ensures |z| == NENTRIES && forall i :: 0 <= i < NENTRIES ==> z[i] == 0
  {
    seq(NENTRIES, i => 0)
  }

  /** kfree's fill pattern, with the link to the rest of the free list in the first word. */
  function Junk(next: nat): (z: seq<nat>)
    ensures |z| == NENTRIES && z[0] == next && forall i :: 1 <= i < NENTRIES ==> z[i] == 0x0101_0101
  {
    [next] + seq(NENTRIES - 1, i => 0x0101_0101)
  }

  /** The first free frame goes to a caller. */
  function Allocated(mem: Mem, a: Vm): Vm
    requires |a.free| > 0 && a.free[0] in mem
  {
    var r := a.free[0];
    a.(own := a.own[r := Held], held := a.held[r := mem[r]], free := a.free[1..])
  }

  /** A caller's frame goes back. */
  function Returned(a: Vm, f: nat): Vm {
    a.(own := a.own[f := Free], held := a.held - {f}, free := [f] + a.free)
  }

  // What a change elsewhere leaves alone.

  /** The same frame, unchanged. */
  predicate Same(mem: Mem, m: Mem, f: nat) { f in mem && f in m && m[f] == mem[f] }

  lemma DirsKeep(mem: Mem, a: Vm, m: Mem, b: Vm)
    requires Dirs(mem, a) && b.tab == a.tab && b.space.Keys <= a.space.Keys
    requires forall d :: d in b.space ==> Same(mem, m, d)
    ensures Dirs(m, b)
  {
    forall d: nat, x: nat {:trigger DirAt(m, b, d, x)} | d in b.space && x < NENTRIES ensures DirAt(m, b, d, x) {
      assert DirAt(mem, a, d, x) && Same(mem, m, d);
    }
  }

  lemma TablesKeep(mem: Mem, a: Vm, m: Mem, b: Vm)
    requires Tables(mem, a) && b.tab == a.tab && b.space == a.space
    requires forall k :: k in a.tab ==> Same(mem, m, a.tab[k])
    ensures Tables(m, b)
  {
    forall d: nat, v: nat {:trigger TableAt(m, b, d, v)} | d in b.space && v < NPAGES && (d, X(v)) in b.tab ensures TableAt(m, b, d, v) {
      assert TableAt(mem, a, d, v) && Same(mem, m, a.tab[(d, X(v))]);
    }
  }

  lemma PagesKeep(mem: Mem, a: Vm, m: Mem, b: Vm)
    requires Pages(mem, a) && b.tab == a.tab && b.space == a.space
    requires forall f :: f in a.own && a.own[f].User? ==> f in b.own && b.own[f] == a.own[f] && (f in mem ==> Same(mem, m, f))
    ensures Pages(m, b)
  {
    forall d: nat, v: nat | d in b.space && v in b.space[d] ensures PageOk(m, b, d, v) {
      assert PageOk(mem, a, d, v);
    }
  }

  lemma OwnersKeep(a: Vm, b: Vm, f: nat)
    requires Owners(a) && b.space == a.space && b.tab == a.tab && f in a.own && a.own[f] in {Free, Held}
    requires f in b.own && b.own[f] in {Free, Held} && b.own == a.own[f := b.own[f]]
    ensures Owners(b)
  {
  }

  /** A frame whose use only changes between Free and Held does not touch the address spaces. */
  lemma SpacesKeep(mem: Mem, a: Vm, m: Mem, b: Vm, f: nat)
    requires Frames(mem, a.own) && Dirs(mem, a) && Tables(mem, a) && Pages(mem, a) && Owners(a)
    requires f in a.own && a.own[f] in {Free, Held} && b.space == a.space && b.tab == a.tab
    requires f in b.own && b.own == a.own[f := b.own[f]] && b.own[f] in {Free, Held} && f in m && m == mem[f := m[f]] && |m[f]| == NENTRIES
    ensures Frames(m, b.own) && Dirs(m, b) && Tables(m, b) && Pages(m, b) && Owners(b)
  {
    hide Dirs, Tables, Pages, Owners;
    OwnersKeep(a, b, f);
    DirsSame(mem, a, m, f);
    DirsKeep(mem, a, m, b);
    TablesSame(mem, a, m, f);
    TablesKeep(mem, a, m, b);
    PagesKeep(mem, a, m, b);
  }

  lemma DirsSame(mem: Mem, a: Vm, m: Mem, f: nat)
    requires Dirs(mem, a) && Owners(a) && f in a.own && a.own[f] in {Free, Held} && f in m && m == mem[f := m[f]]
    ensures forall d :: d in a.space ==> Same(mem, m, d)
  {
    forall d | d in a.space ensures Same(mem, m, d) { assert DirAt(mem, a, d, 0); }
  }

  lemma TablesSame(mem: Mem, a: Vm, m: Mem, f: nat)
    requires Frames(mem, a.own) && Owners(a) && f in a.own && a.own[f] in {Free, Held} && f in m && m == mem[f := m[f]]
    ensures forall k :: k in a.tab ==> Same(mem, m, a.tab[k])
  {
  }

  lemma AllocatedList(mem: Mem, list: nat, a: Vm)
    requires FreeList(mem, list, a) && |a.free| > 0
    ensures a.free[0] in mem && list == P2V(a.free[0]) && |mem[a.free[0]]| == NENTRIES
    ensures a.free[0] in a.own && a.own[a.free[0]] == Free
    ensures FreeList(mem, mem[a.free[0]][0], Allocated(mem, a))
  {
    assert Linked(mem, a.free, 0);
    var b := Allocated(mem, a);
    assert Link(a.free, 1) == Link(b.free, 0);
    forall i {:trigger Linked(mem, b.free, i)} | 0 <= i < |b.free| ensures Linked(mem, b.free, i) {
      assert Linked(mem, a.free, i + 1);
      assert b.free[i] == a.free[i + 1] && Link(a.free, i + 2) == Link(b.free, i + 1);
    }
    forall i | 0 <= i < |b.free| ensures b.free[i] in b.own && b.own[b.free[i]] == Free {
      assert b.free[i] == a.free[i + 1] != a.free[0];
    }
    forall f | f in b.own && b.own[f] == Free ensures f in b.free {
      var i :| 0 <= i < |a.free| && a.free[i] == f;
      assert b.free[i - 1] == f;
    }
  }

  lemma AllocatedOk(mem: Mem, list: nat, a: Vm)
    requires Ok(mem, list, a) && |a.free| > 0
    ensures a.free[0] in mem && list == P2V(a.free[0]) && |mem[a.free[0]]| == NENTRIES
    ensures a.free[0] in a.own && a.own[a.free[0]] == Free
    ensures Ok(mem, mem[a.free[0]][0], Allocated(mem, a))
  {
    hide Dirs, Tables, Pages, Owners, FreeList, Frames;
    AllocatedList(mem, list, a);
    SpacesKeep(mem, a, mem, Allocated(mem, a), a.free[0]);
  }

  lemma ReturnedList(mem: Mem, list: nat, a: Vm, f: nat)
    requires FreeList(mem, list, a) && f in a.own && a.own[f] == Held && f in mem
    ensures FreeList(mem[f := Junk(list)], P2V(f), Returned(a, f))
  {
    var m, b := mem[f := Junk(list)], Returned(a, f);
    hide Junk, P2V;
    assert Link(a.free, 0) == Link(b.free, 1);
    forall i {:trigger Linked(m, b.free, i)} | 0 <= i < |b.free| ensures Linked(m, b.free, i) {
      if i > 0 {
        assert Linked(mem, a.free, i - 1);
        assert b.free[i] == a.free[i - 1] && Link(a.free, i) == Link(b.free, i + 1);
      }
    }
    forall g | g in b.own && b.own[g] == Free ensures g in b.free {
      if g != f {
        var i :| 0 <= i < |a.free| && a.free[i] == g;
        assert b.free[i + 1] == g;
      }
    }
  }

  lemma ReturnedOk(mem: Mem, list: nat, a: Vm, f: nat)
    requires Ok(mem, list, a) && f in a.own && a.own[f] == Held
    ensures f in mem && Ok(mem[f := Junk(list)], P2V(f), Returned(a, f))
  {
    hide Dirs, Tables, Pages, Owners, FreeList;
    ReturnedList(mem, list, a, f);
    SpacesKeep(mem, a, mem[f := Junk(list)], Returned(a, f), f);
  }

  lemma FreeListKeep(mem: Mem, list: nat, a: Vm, m: Mem, b: Vm)
    requires FreeList(mem, list, a) && b.free == a.free
    requires forall f :: f in a.own && a.own[f] == Free ==> Same(mem, m, f)
    requires forall f :: (f in a.own && a.own[f] == Free) <==> (f in b.own && b.own[f] == Free)
    ensures FreeList(m, list, b)
  {
    forall i {:trigger Linked(m, b.free, i)} | 0 <= i < |b.free| ensures Linked(m, b.free, i) {
      assert Linked(mem, a.free, i) && Same(mem, m, a.free[i]);
    }
  }

  /** A caller overwrites its frame. */
  function Filled(a: Vm, f: nat, z: seq<nat>): Vm { a.(held := a.held[f := z]) }

  lemma FilledOk(mem: Mem, list: nat, a: Vm, f: nat, z: seq<nat>)
    requires Ok(mem, list, a) && f in a.own && a.own[f] == Held && |z| == NENTRIES
    ensures f in mem && Ok(mem[f := z], list, Filled(a, f, z))
  {
    hide Dirs, Tables, Pages, Owners;
    assert forall g :: g in a.own && a.own[g] == Free ==> Same(mem, mem[f := z], g) by {
      hide FreeList;
    }
    FreeListKeep(mem, list, a, mem[f := z], Filled(a, f, z));
    hide FreeList;
    SpacesKeep(mem, a, mem[f := z], Filled(a, f, z), f);
  }

  // ----- a zeroed frame becomes the table behind an empty directory entry

  function NewTable(a: Vm, d: nat, x: nat, t: nat): Vm {
    a.(tab := a.tab[(d, x) := t], own := a.own[t := Table(d, x)], held := a.held - {t})
  }

  function NewTableMem(mem: Mem, d: nat, x: nat, t: nat): Mem
    requires d in mem && x < |mem[d]|
  {
    var words: seq<nat> := mem[d][x := Entry(t, PTE_W + PTE_U)];
    mem[d := words]
  }

  ghost predicate CanTable(mem: Mem, a: Vm, d: nat, x: nat, t: nat) {
    && d in a.space && x < NENTRIES && (d, x) !in a.tab && t in a.held && a.held[t] == Zeroed()
    && d in mem && |mem[d]| == NENTRIES && t in mem && d in a.own && a.own[d] == Dir && t in a.own && a.own[t] == Held
  }

  lemma NewTableDirs(mem: Mem, a: Vm, d: nat, x: nat, t: nat)
    requires Dirs(mem, a) && CanTable(mem, a, d, x, t)
    ensures Dirs(NewTableMem(mem, d, x, t), NewTable(a, d, x, t))
  {
    var m, b := NewTableMem(mem, d, x, t), NewTable(a, d, x, t);
    forall e: nat, y: nat {:trigger DirAt(m, b, e, y)} | e in b.space && y < NENTRIES ensures DirAt(m, b, e, y) {
      assert DirAt(mem, a, e, y);
    }
  }

  lemma NewTableTables(mem: Mem, a: Vm, d: nat, x: nat, t: nat)
    requires Tables(mem, a) && Pages(mem, a) && Owners(a) && Hands(mem, a) && CanTable(mem, a, d, x, t)
    ensures Tables(NewTableMem(mem, d, x, t), NewTable(a, d, x, t))
  {
    hide Entry;
    var m, b := NewTableMem(mem, d, x, t), NewTable(a, d, x, t);
    forall e: nat, v: nat {:trigger TableAt(m, b, e, v)} | e in b.space && v < NPAGES && (e, X(v)) in b.tab ensures TableAt(m, b, e, v) {
      if e == d && X(v) == x {
        assert v in a.space[d] ==> PageOk(mem, a, d, v);
      } else {
        assert TableAt(mem, a, e, v) && a.own[a.tab[(e, X(v))]] == Table(e, X(v));
      }
    }
  }

  lemma NewTablePages(mem: Mem, a: Vm, d: nat, x: nat, t: nat)
    requires Pages(mem, a) && CanTable(mem, a, d, x, t)
    ensures Pages(NewTableMem(mem, d, x, t), NewTable(a, d, x, t))
  {
    hide Entry;
    var m, b := NewTableMem(mem, d, x, t), NewTable(a, d, x, t);
    forall e: nat, v: nat {:trigger PageOk(m, b, e, v)} | e in b.space && v in b.space[e] ensures PageOk(m, b, e, v) {
      assert PageOk(mem, a, e, v);
    }
  }

  lemma NewTableFree(mem: Mem, list: nat, a: Vm, d: nat, x: nat, t: nat)
    requires FreeList(mem, list, a) && CanTable(mem, a, d, x, t) && Frames(mem, a.own)
    ensures FreeList(NewTableMem(mem, d, x, t), list, NewTable(a, d, x, t))
  {
    FreeListKeep(mem, list, a, NewTableMem(mem, d, x, t), NewTable(a, d, x, t));
  }

  lemma NewTableOwners(mem: Mem, a: Vm, d: nat, x: nat, t: nat)
    requires Owners(a) && CanTable(mem, a, d, x, t)
    ensures Owners(NewTable(a, d, x, t))
  {
    hide FrameOf;
    var b := NewTable(a, d, x, t);
    NewTableTabs(mem, a, d, x, t);
    forall f | f in b.own && b.own[f].User? ensures UserOk(b, f, b.own[f].d, b.own[f].v) {
      assert UserOk(a, f, a.own[f].d, a.own[f].v);
    }
    forall e | e in b.space ensures e in b.own && b.own[e] == Dir { assert e != t; }
    forall f | f in b.own && b.own[f] == Dir ensures f in b.space { assert f != t; }
  }

  lemma NewTableTabs(mem: Mem, a: Vm, d: nat, x: nat, t: nat)
    requires Owners(a) && CanTable(mem, a, d, x, t)
    ensures var b := NewTable(a, d, x, t);
      && (forall k :: k in b.tab ==> k.0 in b.space && k.1 < NENTRIES && b.tab[k] in b.own && b.own[b.tab[k]] == Table(k.0, k.1))
      && (forall f :: f in b.own && b.own[f].Table? ==> (b.own[f].d, b.own[f].x) in b.tab && b.tab[(b.own[f].d, b.own[f].x)] == f)
  {
    hide FrameOf, UserOk;
    var b := NewTable(a, d, x, t);
    forall k | k in b.tab ensures k.0 in b.space && k.1 < NENTRIES && b.tab[k] in b.own && b.own[b.tab[k]] == Table(k.0, k.1) {
      if k != (d, x) { assert a.tab[k] != t; }
    }
    forall f | f in b.own && b.own[f].Table? ensures (b.own[f].d, b.own[f].x) in b.tab && b.tab[(b.own[f].d, b.own[f].x)] == f {
      if f != t { assert a.own[f].Table? && (a.own[f].d, a.own[f].x) != (d, x); }
    }
  }

  lemma NewTableHands(mem: Mem, a: Vm, d: nat, x: nat, t: nat)
    requires Frames(mem, a.own) && Hands(mem, a) && CanTable(mem, a, d, x, t)
    ensures Frames(NewTableMem(mem, d, x, t), NewTable(a, d, x, t).own) && Hands(NewTableMem(mem, d, x, t), NewTable(a, d, x, t))
  {
  }

  lemma NewTableOk(mem: Mem, list: nat, a: Vm, d: nat, x: nat, t: nat)
    requires Ok(mem, list, a) && d in a.space && x < NENTRIES && (d, x) !in a.tab && t in a.held && a.held[t] == Zeroed()
    ensures CanTable(mem, a, d, x, t) && Ok(NewTableMem(mem, d, x, t), list, NewTable(a, d, x, t))
  {
    assert DirAt(mem, a, d, x);
    assert CanTable(mem, a, d, x, t);
    NewTableDirs(mem, a, d, x, t);
    NewTableTables(mem, a, d, x, t);
    NewTablePages(mem, a, d, x, t);
    NewTableFree(mem, list, a, d, x, t);
    NewTableOwners(mem, a, d, x, t);
    NewTableHands(mem, a, d, x, t);
    hide Frames, Dirs, Tables, Pages, Owners, Hands, FreeList;
  }

  // ----- a page gets mapped

  function Mapped(a: Vm, d: nat, v: nat, w: nat): Vm
    requires d in a.space && (v < USER ==> FrameOf(w) in a.held)
  {
    var f := FrameOf(w);
    var pages: map<nat, Page> := a.space[d][v := Page(w, if v < USER then a.held[f] else [])];
    if v < USER then a.(space := a.space[d := pages], own := a.own[f := User(d, v)], held := a.held - {f})
    else a.(space := a.space[d := pages])
  }

  function PteMem(mem: Mem, t: nat, v: nat, w: nat): Mem
    requires t in mem && |mem[t]| == NENTRIES
  {
    var words: seq<nat> := mem[t][Y(v) := w];
    mem[t := words]
  }

  ghost predicate CanMap(mem: Mem, a: Vm, d: nat, v: nat, w: nat) {
    && d in a.space && v < NPAGES && (d, X(v)) in a.tab && v !in a.space[d] && Present(w)
    && (v < USER ==> FrameOf(w) in a.held && FrameOf(w) in a.own && a.own[FrameOf(w)] == Held && Same(mem, mem, FrameOf(w)))
    && TableThere(mem, a, d, v)
  }

  ghost predicate TableThere(mem: Mem, a: Vm, d: nat, v: nat) {
    && (d, X(v)) in a.tab
    && var t := a.tab[(d, X(v))]; t in mem && |mem[t]| == NENTRIES && t in a.own && a.own[t] == Table(d, X(v))
  }

  lemma PteTables(mem: Mem, a: Vm, d: nat, v: nat, w: nat, b: Vm)
    requires Tables(mem, a) && Owners(a) && TableThere(mem, a, d, v) && b.tab == a.tab && d in a.space && v < NPAGES
    requires b.space.Keys == a.space.Keys && PteWord(b.space, d, v) == w
    requires forall e: nat, u: nat {:trigger PteWord(b.space, e, u)} :: (e, u) != (d, v) ==> PteWord(b.space, e, u) == PteWord(a.space, e, u)
    ensures Tables(PteMem(mem, a.tab[(d, X(v))], v, w), b)
  {
    var m := PteMem(mem, a.tab[(d, X(v))], v, w);
    hide PteWord, X, Y;
    forall e: nat, u: nat {:trigger TableAt(m, b, e, u)} | e in b.space && u < NPAGES && (e, X(u)) in b.tab ensures TableAt(m, b, e, u) {
      assert TableAt(mem, a, e, u) && a.own[a.tab[(e, X(u))]] == Table(e, X(u));
      if e == d && X(u) == X(v) && u != v { if Y(u) == Y(v) { SameXY(u, v); } }
      assert PteWord(b.space, e, u) == if (e, u) == (d, v) then w else PteWord(a.space, e, u);
    }
  }

  lemma MappedPages(mem: Mem, a: Vm, d: nat, v: nat, w: nat)
    requires Pages(mem, a) && Hands(mem, a) && CanMap(mem, a, d, v, w)
    ensures Pages(PteMem(mem, a.tab[(d, X(v))], v, w), Mapped(a, d, v, w))
  {
    hide X, Y;
    var m, b := PteMem(mem, a.tab[(d, X(v))], v, w), Mapped(a, d, v, w);
    forall e: nat, u: nat {:trigger PageOk(m, b, e, u)} | e in b.space && u in b.space[e] ensures PageOk(m, b, e, u) {
      if (e, u) != (d, v) { assert PageOk(mem, a, e, u); }
    }
  }

  lemma MappedOwners(mem: Mem, a: Vm, d: nat, v: nat, w: nat)
    requires Owners(a) && CanMap(mem, a, d, v, w)
    ensures Owners(Mapped(a, d, v, w))
  {
    hide X, Y, FrameOf, Present;
    var b := Mapped(a, d, v, w);
    forall f | f in b.own && b.own[f].User? ensures UserOk(b, f, b.own[f].d, b.own[f].v) {
      if f in a.own && a.own[f] == b.own[f] { assert UserOk(a, f, a.own[f].d, a.own[f].v); }
    }
  }

  /** Only a table changes, and some frame goes to or from a caller's hands. */
  lemma PteFree(mem: Mem, list: nat, a: Vm, d: nat, v: nat, w: nat, b: Vm)
    requires FreeList(mem, list, a) && Frames(mem, a.own) && TableThere(mem, a, d, v) && b.free == a.free
    requires forall f :: (f in a.own && a.own[f] == Free) <==> (f in b.own && b.own[f] == Free)
    ensures FreeList(PteMem(mem, a.tab[(d, X(v))], v, w), list, b)
  {
    hide X, Y;
    FreeListKeep(mem, list, a, PteMem(mem, a.tab[(d, X(v))], v, w), b);
  }

  lemma PteDirs(mem: Mem, a: Vm, d: nat, v: nat, w: nat, b: Vm)
    requires Dirs(mem, a) && Owners(a) && TableThere(mem, a, d, v) && b.tab == a.tab && b.space.Keys == a.space.Keys
    ensures Dirs(PteMem(mem, a.tab[(d, X(v))], v, w), b)
  {
    hide X, Y, PdeWord;
    var m := PteMem(mem, a.tab[(d, X(v))], v, w);
    forall e: nat, x: nat {:trigger DirAt(m, b, e, x)} | e in b.space && x < NENTRIES ensures DirAt(m, b, e, x) {
      assert DirAt(mem, a, e, x) && a.own[e] == Dir;
      assert PdeWord(b.tab, e, x) == PdeWord(a.tab, e, x);
    }
  }

  lemma MappedHands(mem: Mem, a: Vm, d: nat, v: nat, w: nat)
    requires Frames(mem, a.own) && Hands(mem, a) && CanMap(mem, a, d, v, w)
    ensures var m, b := PteMem(mem, a.tab[(d, X(v))], v, w), Mapped(a, d, v, w);
      Frames(m, b.own) && Hands(m, b)
  {
    hide X, Y, FrameOf, Present;
  }

  lemma CanMapIf(mem: Mem, list: nat, a: Vm, d: nat, v: nat, w: nat)
    requires Ok(mem, list, a) && d in a.space && v < NPAGES && (d, X(v)) in a.tab && v !in a.space[d] && Present(w)
    requires v < USER ==> FrameOf(w) in a.held
    ensures CanMap(mem, a, d, v, w)
  {
    hide X, Y, FrameOf, Present;
    assert TableAt(mem, a, d, v);
  }

  lemma MappedWords(mem: Mem, a: Vm, d: nat, v: nat, w: nat)
    requires CanMap(mem, a, d, v, w)
    ensures var b := Mapped(a, d, v, w);
      && b.tab == a.tab && b.free == a.free && b.space.Keys == a.space.Keys && PteWord(b.space, d, v) == w
      && (forall e: nat, u: nat {:trigger PteWord(b.space, e, u)} :: (e, u) != (d, v) ==> PteWord(b.space, e, u) == PteWord(a.space, e, u))
      && (forall f :: (f in a.own && a.own[f] == Free) <==> (f in b.own && b.own[f] == Free))
  {
  }

  lemma MappedOk(mem: Mem, list: nat, a: Vm, d: nat, v: nat, w: nat)
    requires Ok(mem, list, a) && d in a.space && v < NPAGES && (d, X(v)) in a.tab && v !in a.space[d] && Present(w)
    requires v < USER ==> FrameOf(w) in a.held
    ensures CanMap(mem, a, d, v, w) && TableThere(mem, a, d, v)
    ensures Ok(PteMem(mem, a.tab[(d, X(v))], v, w), list, Mapped(a, d, v, w))
  {
    CanMapIf(mem, list, a, d, v, w);
    hide X, Y, FrameOf, Present, Frames, Dirs, Tables, Pages, Owners, Hands, FreeList, PteWord, Mapped, PteMem, TableThere;
    var b := Mapped(a, d, v, w);
    MappedWords(mem, a, d, v, w);
    MappedPages(mem, a, d, v, w);
    MappedOwners(mem, a, d, v, w);
    MappedHands(mem, a, d, v, w);
    PteDirs(mem, a, d, v, w, b);
    PteFree(mem, list, a, d, v, w, b);
    PteTables(mem, a, d, v, w, b);
  }

  // ----- a user page gets unmapped; its frame is in the caller's hands

  function Unmapped(a: Vm, d: nat, v: nat): Vm
    requires d in a.space && v in a.space[d]
  {
    var page := a.space[d][v];
    var f := FrameOf(page.pte);
    a.(space := a.space[d := a.space[d] - {v}], own := a.own[f := Held], held := a.held[f := page.data])
  }

  lemma UnmappedPages(mem: Mem, a: Vm, d: nat, v: nat)
    requires Pages(mem, a) && Owners(a) && d in a.space && v in a.space[d] && v < USER && TableThere(mem, a, d, v)
    ensures Pages(PteMem(mem, a.tab[(d, X(v))], v, 0), Unmapped(a, d, v))
  {
    hide X, Y, FrameOf, Present;
    var m, b := PteMem(mem, a.tab[(d, X(v))], v, 0), Unmapped(a, d, v);
    assert PageOk(mem, a, d, v);
    forall e: nat, u: nat {:trigger PageOk(m, b, e, u)} | e in b.space && u in b.space[e] ensures PageOk(m, b, e, u) {
      assert PageOk(mem, a, e, u);
    }
  }

  lemma UnmappedOwners(mem: Mem, a: Vm, d: nat, v: nat)
    requires Owners(a) && d in a.space && v in a.space[d] && v < USER && PageOk(mem, a, d, v)
    ensures Owners(Unmapped(a, d, v))
  {
    hide X, Y, FrameOf, Present;
    var b := Unmapped(a, d, v);
    forall f | f in b.own && b.own[f].User? ensures UserOk(b, f, b.own[f].d, b.own[f].v) {
      assert UserOk(a, f, a.own[f].d, a.own[f].v);
    }
  }

  lemma UnmappedHands(mem: Mem, a: Vm, d: nat, v: nat)
    requires Frames(mem, a.own) && Hands(mem, a)
    requires d in a.space && v in a.space[d] && v < USER && TableThere(mem, a, d, v) && PageOk(mem, a, d, v)
    ensures var m, b := PteMem(mem, a.tab[(d, X(v))], v, 0), Unmapped(a, d, v);
      Frames(m, b.own) && Hands(m, b)
  {
    hide X, Y, FrameOf, Present;
  }

  lemma CanUnmap(mem: Mem, list: nat, a: Vm, d: nat, v: nat)
    requires Ok(mem, list, a) && d in a.space && v in a.space[d] && v < USER
    ensures TableThere(mem, a, d, v) && PageOk(mem, a, d, v) && v < NPAGES
    ensures var f := FrameOf(a.space[d][v].pte);
      f in a.own && a.own[f] == User(d, v) && f in mem && mem[f] == a.space[d][v].data && f != a.tab[(d, X(v))]
  {
    hide X, Y, FrameOf, Present;
    assert PageOk(mem, a, d, v);
    assert TableAt(mem, a, d, v);
  }

  lemma UnmappedWords(mem: Mem, a: Vm, d: nat, v: nat)
    requires d in a.space && v in a.space[d] && v < USER && PageOk(mem, a, d, v)
    ensures var b := Unmapped(a, d, v);
      && b.tab == a.tab && b.free == a.free && b.space.Keys == a.space.Keys && PteWord(b.space, d, v) == 0
      && (forall e: nat, u: nat {:trigger PteWord(b.space, e, u)} :: (e, u) != (d, v) ==> PteWord(b.space, e, u) == PteWord(a.space, e, u))
      && (forall f :: (f in a.own && a.own[f] == Free) <==> (f in b.own && b.own[f] == Free))
  {
  }

  lemma UnmappedOk(mem: Mem, list: nat, a: Vm, d: nat, v: nat)
    requires Ok(mem, list, a) && d in a.space && v in a.space[d] && v < USER
    ensures TableThere(mem, a, d, v) && Ok(PteMem(mem, a.tab[(d, X(v))], v, 0), list, Unmapped(a, d, v))
    ensures var f := FrameOf(a.space[d][v].pte);
      f in a.own && a.own[f] == User(d, v) && f in mem && mem[f] == a.space[d][v].data && f != a.tab[(d, X(v))]
  {
    CanUnmap(mem, list, a, d, v);
    hide X, Y, FrameOf, Present, Frames, Dirs, Tables, Pages, Owners, Hands, FreeList, PteWord, Unmapped, PteMem, TableThere, PageOk;
    var b := Unmapped(a, d, v);
    UnmappedWords(mem, a, d, v);
    UnmappedPages(mem, a, d, v);
    UnmappedOwners(mem, a, d, v);
    UnmappedHands(mem, a, d, v);
    PteDirs(mem, a, d, v, 0, b);
    PteFree(mem, list, a, d, v, 0, b);
    PteTables(mem, a, d, v, 0, b);
  }

  // ----- a zeroed frame becomes an empty page directory

  function NewDir(a: Vm, d: nat): Vm {
    a.(space := a.space[d := map[]], own := a.own[d := Dir], held := a.held - {d})
  }

  lemma NewDirOk(mem: Mem, list: nat, a: Vm, d: nat)
    requires Ok(mem, list, a) && d in a.held && a.held[d] == Zeroed()
    ensures Ok(mem, list, NewDir(a, d)) && d !in a.space && forall x :: (d, x) !in a.tab
  {
    NewDirOwners(a, d);
    NewDirSpaces(mem, a, d);
    hide Dirs, Tables, Pages, Owners, Zeroed;
    NewDirHands(mem, list, a, d);
    hide Hands, FreeList, Frames;
  }

  lemma NewDirHands(mem: Mem, list: nat, a: Vm, d: nat)
    requires Frames(mem, a.own) && Hands(mem, a) && FreeList(mem, list, a) && d in a.held
    ensures Frames(mem, NewDir(a, d).own) && Hands(mem, NewDir(a, d)) && FreeList(mem, list, NewDir(a, d))
  {
    FreeListKeep(mem, list, a, mem, NewDir(a, d));
    hide FreeList;
  }

  lemma NewDirOwners(a: Vm, d: nat)
    requires Owners(a) && d in a.own && a.own[d] == Held
    ensures Owners(NewDir(a, d)) && d !in a.space && forall x :: (d, x) !in a.tab
  {
    hide FrameOf;
    var b := NewDir(a, d);
    assert forall k :: k in a.tab ==> a.tab[k] != d && k.0 != d;
    forall f | f in b.own && b.own[f].User? ensures UserOk(b, f, b.own[f].d, b.own[f].v) {
      assert UserOk(a, f, a.own[f].d, a.own[f].v);
    }
  }

  lemma NewDirSpaces(mem: Mem, a: Vm, d: nat)
    requires Dirs(mem, a) && Tables(mem, a) && Pages(mem, a) && Hands(mem, a) && d in a.held && a.held[d] == Zeroed()
    requires d !in a.space && forall x :: (d, x) !in a.tab
    ensures Dirs(mem, NewDir(a, d)) && Tables(mem, NewDir(a, d)) && Pages(mem, NewDir(a, d))
  {
    var b := NewDir(a, d);
    hide X, Y, FrameOf, Present;
    forall e: nat, x: nat {:trigger DirAt(mem, b, e, x)} | e in b.space && x < NENTRIES ensures DirAt(mem, b, e, x) {
      if e != d { assert DirAt(mem, a, e, x); }
    }
    forall e: nat, v: nat {:trigger TableAt(mem, b, e, v)} | e in b.space && v < NPAGES && (e, X(v)) in b.tab ensures TableAt(mem, b, e, v) {
      assert TableAt(mem, a, e, v);
    }
    forall e: nat, v: nat {:trigger PageOk(mem, b, e, v)} | e in b.space && v in b.space[e] ensures PageOk(mem, b, e, v) {
      assert PageOk(mem, a, e, v);
    }
  }

  // ----- an address space goes

  /** Frame f, used as u, is directory d or one of its tables or pages. */
  predicate Owns(u: Use, f: nat, d: nat) {
    match u
    case Dir => f == d
    case Table(e, _) => e == d
    case User(e, _) => e == d
    case _ => false
  }

  /** All of directory d's frames are free, and no other frame has changed its use. */
  function Released(own: map<nat, Use>, d: nat): map<nat, Use> {
    map f | f in own :: if Owns(own[f], f, d) then Free else own[f]
  }

  /** Directory d without its pages below KERNBASE is dismantled: the first i tables are free, the rest in hand. */
  function Swept(mem: Mem, a: Vm, d: nat, i: nat, free: seq<nat>): Vm {
    var own := SweptOwn(a.own, d, i);
    Vm(a.space - {d}, map k | k in a.tab && k.0 != d :: a.tab[k], own, HeldOf(mem, own), free)
  }

  function SweptUse(u: Use, f: nat, d: nat, i: nat): Use {
    if u.Table? && u.d == d && u.x < i then Free else if Owns(u, f, d) then Held else u
  }

  lemma SweptOk(mem: Mem, list: nat, a: Vm, d: nat)
    requires Ok(mem, list, a) && d in a.space && forall v :: v in a.space[d] ==> v >= USER
    ensures Ok(mem, list, Swept(mem, a, d, 0, a.free)) && Swept(mem, a, d, 0, a.free).free == a.free
    ensures d in mem && |mem[d]| == NENTRIES && forall x: nat {:trigger PdeWord(a.tab, d, x)} :: x < NENTRIES ==> mem[d][x] == PdeWord(a.tab, d, x)
  {
    SweptSpaces(mem, a, d);
    SweptOwners(a, d, mem);
    forall x: nat {:trigger PdeWord(a.tab, d, x)} | x < NENTRIES ensures d in mem && |mem[d]| == NENTRIES && mem[d][x] == PdeWord(a.tab, d, x) {
      assert DirAt(mem, a, d, x);
    }
    assert DirAt(mem, a, d, 0);
    SweptHands(mem, list, a, d);
    hide Dirs, Tables, Pages, Owners, FreeList, Hands;
  }

  lemma SweptHands(mem: Mem, list: nat, a: Vm, d: nat)
    requires Frames(mem, a.own) && FreeList(mem, list, a)
    ensures var b := Swept(mem, a, d, 0, a.free); Frames(mem, b.own) && Hands(mem, b) && FreeList(mem, list, b)
  {
    var b := Swept(mem, a, d, 0, a.free);
    FreeListKeep(mem, list, a, mem, b);
    hide FreeList;
  }

  lemma SweptOwners(a: Vm, d: nat, mem: Mem)
    requires Owners(a) && d in a.space && forall v :: v in a.space[d] ==> v >= USER
    ensures Owners(Swept(mem, a, d, 0, a.free))
  {
    hide FrameOf;
    var b := Swept(mem, a, d, 0, a.free);
    forall f | f in b.own && b.own[f].User? ensures UserOk(b, f, b.own[f].d, b.own[f].v) {
      assert UserOk(a, f, a.own[f].d, a.own[f].v);
    }
    forall f | f in b.own && b.own[f].Table? ensures (b.own[f].d, b.own[f].x) in b.tab && b.tab[(b.own[f].d, b.own[f].x)] == f {
      assert a.own[f] == b.own[f];
    }
    forall k | k in b.tab ensures k.0 in b.space && k.1 < NENTRIES && b.tab[k] in b.own && b.own[b.tab[k]] == Table(k.0, k.1) {
      assert k in a.tab && a.own[a.tab[k]] == Table(k.0, k.1);
    }
  }

  lemma SweptSpaces(mem: Mem, a: Vm, d: nat)
    requires Dirs(mem, a) && Tables(mem, a) && Pages(mem, a) && d in a.space
    ensures var b := Swept(mem, a, d, 0, a.free); Dirs(mem, b) && Tables(mem, b) && Pages(mem, b)
  {
    var b := Swept(mem, a, d, 0, a.free);
    hide X, Y, FrameOf, Present;
    forall e: nat, x: nat {:trigger DirAt(mem, b, e, x)} | e in b.space && x < NENTRIES ensures DirAt(mem, b, e, x) {
      assert DirAt(mem, a, e, x);
    }
    forall e: nat, v: nat {:trigger TableAt(mem, b, e, v)} | e in b.space && v < NPAGES && (e, X(v)) in b.tab ensures TableAt(mem, b, e, v) {
      assert TableAt(mem, a, e, v);
    }
    forall e: nat, v: nat {:trigger PageOk(mem, b, e, v)} | e in b.space && v in b.space[e] ensures PageOk(mem, b, e, v) {
      assert PageOk(mem, a, e, v);
    }
  }

  function SweptOwn(own: map<nat, Use>, d: nat, i: nat): map<nat, Use> {
    map f | f in own :: SweptUse(own[f], f, d, i)
  }

  function HeldOf(mem: Mem, own: map<nat, Use>): map<nat, seq<nat>> {
    map f | f in own && own[f] == Held && f in mem :: mem[f]
  }

  lemma SweptOwnStep(a: Vm, d: nat, i: nat)
    requires Owners(a) && i < NENTRIES
    ensures (d, i) !in a.tab ==> SweptOwn(a.own, d, i) == SweptOwn(a.own, d, i + 1)
    ensures (d, i) in a.tab ==> var t := a.tab[(d, i)]; var own := SweptOwn(a.own, d, i);
      t in own && own[t] == Held && (d in a.space ==> t != d) && own[t := Free] == SweptOwn(a.own, d, i + 1)
  {
    forall f | f in a.own && a.own[f] == Table(d, i) ensures (d, i) in a.tab && f == a.tab[(d, i)] {
    }
    if (d, i) in a.tab {
      var t := a.tab[(d, i)];
      assert a.own[t] == Table(d, i);
      assert SweptOwn(a.own, d, i)[t := Free] == SweptOwn(a.own, d, i + 1);
    } else {
      assert SweptOwn(a.own, d, i) == SweptOwn(a.own, d, i + 1);
    }
  }

  lemma HeldOfLess(mem: Mem, own: map<nat, Use>, f: nat)
    requires f in own
    ensures HeldOf(mem, own) - {f} == HeldOf(mem, own[f := Free])
  {
  }

  /** One directory entry further: its table, if any, is given back. */
  lemma SweptStep(mem: Mem, a: Vm, d: nat, i: nat, free: seq<nat>)
    requires Owners(a) && i < NENTRIES && d in a.space
    ensures (d, i) !in a.tab ==> Swept(mem, a, d, i, free) == Swept(mem, a, d, i + 1, free)
    ensures (d, i) in a.tab ==> var t := a.tab[(d, i)]; var b := Swept(mem, a, d, i, free);
      t in b.own && b.own[t] == Held && t != d && Returned(b, t) == Swept(mem, a, d, i + 1, [t] + free)
  {
    SweptOwnStep(a, d, i);
    hide Owners, SweptOwn;
    if (d, i) in a.tab { HeldOfLess(mem, SweptOwn(a.own, d, i), a.tab[(d, i)]); }
  }

  lemma SweptOwnLast(a: Vm, d: nat)
    requires Owners(a) && d in a.space && forall v :: v in a.space[d] ==> v >= USER
    ensures var own := SweptOwn(a.own, d, NENTRIES); d in own && own[d] == Held && own[d := Free] == Released(a.own, d)
  {
    hide FrameOf;
    forall f | f in a.own && a.own[f].User? ensures a.own[f].d != d {
      assert UserOk(a, f, a.own[f].d, a.own[f].v);
    }
    forall f | f in a.own && a.own[f].Table? ensures a.own[f].x < NENTRIES {
      assert (a.own[f].d, a.own[f].x) in a.tab;
    }
    assert SweptOwn(a.own, d, NENTRIES)[d := Free] == Released(a.own, d);
  }

  lemma ReleasedHeld(mem: Mem, a: Vm, d: nat)
    requires Frames(mem, a.own) && Hands(mem, a)
    ensures HeldOf(mem, Released(a.own, d)) == a.held
  {
  }

  /** The last step: the directory itself is given back. */
  lemma SweptLast(mem: Mem, a: Vm, d: nat, free: seq<nat>)
    requires Owners(a) && Frames(mem, a.own) && Hands(mem, a) && d in a.space && forall v :: v in a.space[d] ==> v >= USER
    ensures var b := Swept(mem, a, d, NENTRIES, free); d in b.own && b.own[d] == Held
    ensures var c := Returned(Swept(mem, a, d, NENTRIES, free), d);
      c.space == a.space - {d} && c.own == Released(a.own, d) && c.held == a.held
  {
    SweptOwnLast(a, d);
    ReleasedHeld(mem, a, d);
    hide Owners, Frames, Hands, Released, SweptOwn;
    HeldOfLess(mem, SweptOwn(a.own, d, NENTRIES), d);
  }

  // ----- user pages lo up to hi go

  function Without(m: map<nat, Page>, lo: nat, hi: nat): map<nat, Page> {
    map v | v in m && !(lo <= v < hi) :: m[v]
  }

  function FreedPages(own: map<nat, Use>, d: nat, lo: nat, hi: nat): map<nat, Use> {
    map f | f in own :: if own[f].User? && own[f].d == d && lo <= own[f].v < hi then Free else own[f]
  }

  /** What deallocuvm leaves after the pages from lo up to hi. */
  ghost predicate DeallocTo(a: Vm, b: Vm, d: nat, lo: nat, hi: nat) {
    && d in a.space && b.space == a.space[d := Without(a.space[d], lo, hi)] && b.tab == a.tab
    && b.own == FreedPages(a.own, d, lo, hi) && b.held == a.held
  }

  lemma DeallocNothing(a: Vm, d: nat, lo: nat)
    requires d in a.space
    ensures DeallocTo(a, a, d, lo, lo)
  {
    assert Without(a.space[d], lo, lo) == a.space[d];
    assert FreedPages(a.own, d, lo, lo) == a.own;
  }

  /** Pages that are not there: skipping them, one or a whole table's worth, is the same as passing over each. */
  lemma DeallocSkip(a: Vm, b: Vm, d: nat, lo: nat, v: nat, w: nat)
    requires Owners(a) && DeallocTo(a, b, d, lo, v) && lo <= v <= w
    requires forall u :: v <= u < w ==> u !in a.space[d]
    ensures DeallocTo(a, b, d, lo, w)
  {
    assert Without(a.space[d], lo, v) == Without(a.space[d], lo, w);
    forall f | f in a.own && a.own[f].User? && a.own[f].d == d ensures !(v <= a.own[f].v < w) {
      assert UserOk(a, f, a.own[f].d, a.own[f].v);
    }
    assert FreedPages(a.own, d, lo, v) == FreedPages(a.own, d, lo, w);
  }

  /** Absent table: none of its pages is mapped. */
  lemma NoTableNoPages(mem: Mem, a: Vm, d: nat, v: nat, u: nat)
    requires Pages(mem, a) && d in a.space && (d, X(v)) !in a.tab && v <= u < (X(v) + 1) * NENTRIES
    ensures u !in a.space[d]
  {
    assert X(u) == X(v);
    assert u in a.space[d] ==> PageOk(mem, a, d, u);
  }

  lemma FreedOne(a: Vm, d: nat, lo: nat, v: nat, f: nat)
    requires Owners(a) && f in a.own && a.own[f] == User(d, v) && lo <= v
    ensures FreedPages(a.own, d, lo, v)[f := Free] == FreedPages(a.own, d, lo, v + 1)
  {
    forall g | g in a.own && a.own[g] == User(d, v) ensures g == f {
      assert UserOk(a, g, d, v) && UserOk(a, f, d, v);
    }
  }

  lemma WithoutStep(space: map<nat, map<nat, Page>>, d: nat, lo: nat, v: nat)
    requires d in space && lo <= v
    ensures Without(space[d], lo, v) - {v} == Without(space[d], lo, v + 1)
    ensures var w := space[d := Without(space[d], lo, v)];
      w[d := w[d] - {v}] == space[d := Without(space[d], lo, v + 1)]
  {
    assert Without(space[d], lo, v) - {v} == Without(space[d], lo, v + 1);
  }

  lemma DeallocStep(a: Vm, b: Vm, d: nat, lo: nat, v: nat)
    requires Owners(a) && DeallocTo(a, b, d, lo, v) && lo <= v < USER && v in a.space[d]
    requires var f := FrameOf(a.space[d][v].pte); f in a.own && a.own[f] == User(d, v) && f !in a.held
    ensures d in b.space && v in b.space[d] && b.space[d][v] == a.space[d][v]
    ensures DeallocTo(a, Returned(Unmapped(b, d, v), FrameOf(a.space[d][v].pte)), d, lo, v + 1)
  {
    var f := FrameOf(a.space[d][v].pte);
    FreedOne(a, d, lo, v, f);
    WithoutStep(a.space, d, lo, v);
    assert v in Without(a.space[d], lo, v);
    hide Owners, FrameOf, FreedPages, Without;
    assert b.held[f := a.space[d][v].data] - {f} == a.held;
    assert b.own[f := Held][f := Free] == b.own[f := Free];
  }

  // ----- what the operations on one address space leave of all frames

  /** A frame going between the free list and a caller. */
  lemma ReleasedSet(own: map<nat, Use>, d: nat, f: nat, u: Use)
    requires f in own && own[f] in {Free, Held} && u in {Free, Held}
    ensures Released(own[f := u], d) == Released(own, d)[f := u]
  {
  }

  /** A frame that d takes for itself counts as free once d is released. */
  lemma ReleasedTaken(own: map<nat, Use>, d: nat, f: nat, u: Use)
    requires f in own && !Owns(own[f], f, d) && Owns(u, f, d)
    ensures Released(own[f := u], d) == Released(own, d)[f := Free]
  {
  }

  lemma ReleasedFreed(own: map<nat, Use>, d: nat, lo: nat, hi: nat)
    ensures Released(FreedPages(own, d, lo, hi), d) == Released(own, d)
  {
  }

  /** An address space that does not exist has nothing to release. */
  lemma ReleasedNone(a: Vm, d: nat)
    requires Owners(a) && d !in a.space
    ensures Released(a.own, d) == a.own
  {
    forall f | f in a.own ensures !Owns(a.own[f], f, d) {
      if a.own[f].User? { assert UserOk(a, f, a.own[f].d, a.own[f].v); }
      if a.own[f].Table? { assert (a.own[f].d, a.own[f].x) in a.tab; }
    }
  }

  /**
   * All frames d has now, its directory, its tables and its user pages, were free in the state `before` that releasing
   * it leads back to; and no frame serves it twice.
   */
  lemma TakenWereFree(mem: Mem, list: nat, a: Vm, d: nat, before: map<nat, Use>)
    requires Ok(mem, list, a) && d in a.space && Released(a.own, d) == before
    ensures d in before && before[d] == Free
    ensures forall x :: (d, x) in a.tab ==> a.tab[(d, x)] in before && before[a.tab[(d, x)]] == Free && a.tab[(d, x)] != d
    ensures forall v: nat :: v in a.space[d] && v < USER ==>
      var f := FrameOf(a.space[d][v].pte); f in before && before[f] == Free && f != d && forall x :: (d, x) in a.tab ==> a.tab[(d, x)] != f
  {
    hide FrameOf;
    forall v: nat | v in a.space[d] && v < USER
      ensures var f := FrameOf(a.space[d][v].pte); f in before && before[f] == Free && f != d && forall x :: (d, x) in a.tab ==> a.tab[(d, x)] != f
    {
      assert PageOk(mem, a, d, v);
    }
  }

  // ----- runs of pages

  /** n consecutive pages from v on consecutive frames from f. */
  function Run(v: nat, n: nat, f: nat, perm: nat, data: seq<nat>): map<nat, Page>
    requires perm < PGSIZE
  {
    map u: nat | u in Span(v, n) :: Page(Entry(f + (u - v), perm), data)
  }

  function Span(v: nat, n: nat): (s: set<nat>)
    ensures forall u :: u in s <==> v <= u < v + n
  {
    if n == 0 then {} else Span(v, n - 1) + {v + n - 1}
  }

  lemma RunNext(m: map<nat, Page>, v: nat, n: nat, f: nat, perm: nat, data: seq<nat>)
    requires perm < PGSIZE
    ensures (m + Run(v, n, f, perm, data))[v + n := Page(Entry(f + n, perm), data)] == m + Run(v, n + 1, f, perm, data)
    ensures m + Run(v, 0, f, perm, data) == m
  {
  }

  datatype Region = Region(virt: nat, start: nat, n: nat, perm: nat)

  /** kmap: I/O space, kernel text, kernel data and free memory, devices, in pages; `data` is the frame of the first data page. */
  function Kmap(data: nat, i: nat): (r: Region)
    requires i < 4 && 0x100 < data < NFRAMES
    ensures r.virt >= USER && r.n > 0 && r.virt + r.n <= NPAGES && r.perm < PGSIZE
  {
    if i == 0 then Region(USER, 0, 0x100, PTE_W)
    else if i == 1 then Region(USER + 0x100, 0x100, data - 0x100, 0)
    else if i == 2 then Region(USER + data, data, NFRAMES - data, PTE_W)
    else Region(0xFE000, 0xFE000, 0x2000, PTE_W)
  }

  function KernPages(data: nat, k: nat): map<nat, Page>
    requires k <= 4 && 0x100 < data < NFRAMES
  {
    if k == 0 then map[]
    else var r := Kmap(data, k - 1); KernPages(data, k - 1) + Run(r.virt, r.n, r.start, r.perm, [])
  }

  /** setupkvm's map, page by page: no page below KERNBASE, none that user code may touch, kernel text read-only. */
  lemma KernMapIs(data: nat, v: nat)
    requires 0x100 < data < NFRAMES
    ensures v in KernPages(data, 4) <==> USER <= v < USER + NFRAMES || 0xFE000 <= v < NPAGES
    ensures v in KernPages(data, 4) ==>
      && FrameOf(KernPages(data, 4)[v].pte) == (if v < USER + NFRAMES then v - USER else v)
      && FlagsOf(KernPages(data, 4)[v].pte) == (if USER + 0x100 <= v < USER + data then PTE_P else PTE_P + PTE_W)
      && KernPages(data, 4)[v].data == []
  {
    hide KernPages, Kmap, FrameOf, FlagsOf;
    KernStep(data, 0, v);
    KernStep(data, 1, v);
    KernStep(data, 2, v);
    KernStep(data, 3, v);
    KernEmpty(data, v);
    KmapIs(data);
  }

  lemma KmapIs(data: nat)
    requires 0x100 < data < NFRAMES
    ensures Kmap(data, 0) == Region(USER, 0, 0x100, PTE_W) && Kmap(data, 1) == Region(USER + 0x100, 0x100, data - 0x100, 0)
    ensures Kmap(data, 2) == Region(USER + data, data, NFRAMES - data, PTE_W) && Kmap(data, 3) == Region(0xFE000, 0xFE000, 0x2000, PTE_W)
  {
  }

  lemma KernEmpty(data: nat, v: nat)
    requires 0x100 < data < NFRAMES
    ensures v !in KernPages(data, 0)
  {
  }

  lemma KernStep(data: nat, k: nat, v: nat)
    requires k < 4 && 0x100 < data < NFRAMES
    ensures var r := Kmap(data, k); var m, g := KernPages(data, k), KernPages(data, k + 1);
      && (v in g <==> v in m || r.virt <= v < r.virt + r.n)
      && (r.virt <= v < r.virt + r.n ==>
            g[v].data == [] && FrameOf(g[v].pte) == r.start + (v - r.virt) && FlagsOf(g[v].pte) == OrPresent(r.perm))
      && (v in m && !(r.virt <= v < r.virt + r.n) ==> g[v] == m[v])
  {
    hide FrameOf, FlagsOf, OrPresent;
  }

  lemma KernBelow(data: nat, k: nat, v: nat)
    requires k < 4 && 0x100 < data < NFRAMES
    ensures v in KernPages(data, k) ==> USER <= v < Kmap(data, k).virt
    ensures v in KernPages(data, k + 1) ==> USER <= v < NPAGES
  {
    if k > 0 { KernBelow(data, k - 1, v); }
  }

  // ----- growing and copying

  /** Pages lo up to hi are new, zeroed, writable and the user's; the others are as before. */
  ghost predicate Grown(m: map<nat, Page>, g: map<nat, Page>, lo: nat, hi: nat) {
    && (forall u: nat :: u in g <==> u in m || lo <= u < hi)
    && (forall u: nat :: u in g && !(lo <= u < hi) ==> g[u] == m[u])
    && (forall u: nat :: u in g && lo <= u < hi ==> g[u].data == Zeroed() && FlagsOf(g[u].pte) == PTE_P + PTE_W + PTE_U)
  }

  lemma GrownBack(m: map<nat, Page>, g: map<nat, Page>, lo: nat, mid: nat, hi: nat)
    requires Grown(m, g, lo, mid) && mid <= hi && forall u :: lo <= u < hi ==> u !in m
    ensures Without(g, lo, hi) == m
  {
  }

  /** The child c has the parent's pages below n, byte for byte and flag for flag, and otherwise only the kernel's. */
  ghost predicate Copied(m: map<nat, Page>, c: map<nat, Page>, kern: map<nat, Page>, n: nat) {
    && (forall u: nat :: u in c <==> u in kern || u < n)
    && (forall u: nat :: u in c && u >= n ==> c[u] == kern[u])
    && (forall u: nat :: u in c && u < n ==> u in m && c[u].data == m[u].data && FlagsOf(c[u].pte) == FlagsOf(m[u].pte))
  }

  /** Reading a directory entry, and the table entry behind it. */
  lemma EntryThere(mem: Mem, list: nat, a: Vm, d: nat, u: nat)
    requires Ok(mem, list, a) && d in a.space && u < NPAGES
    ensures d in mem && X(u) < NENTRIES && |mem[d]| == NENTRIES && mem[d][X(u)] == PdeWord(a.tab, d, X(u)) && d in a.own && a.own[d] == Dir
    ensures (d, X(u)) in a.tab ==> TableAt(mem, a, d, u)
  {
    assert DirAt(mem, a, d, X(u));
  }

  lemma FreeNotHeld(mem: Mem, list: nat, a: Vm)
    requires Ok(mem, list, a) && a.free != []
    ensures a.free[0] in mem && a.free[0] in a.own && a.own[a.free[0]] == Free && a.free[0] !in a.held && a.free[0] != 0
  {
    hide Dirs, Tables, Pages, Owners;
    assert Linked(mem, a.free, 0);
  }

  lemma ListHead(mem: Mem, list: nat, a: Vm)
    requires Ok(mem, list, a)
    ensures list == 0 <==> a.free == []
    ensures list != 0 ==> list == P2V(a.free[0])
    ensures forall i :: 0 <= i < |a.free| ==> a.free[i] != 0
  {
    hide Dirs, Tables, Pages, Owners;
    forall i | 0 <= i < |a.free| ensures a.free[i] != 0 { assert Linked(mem, a.free, i); }
  }

  /** Mapping a page takes a frame from a caller for d; mapping a kernel page takes none. */
  lemma MappedReleased(a: Vm, d: nat, v: nat, w: nat)
    requires d in a.space && (v < USER ==> FrameOf(w) in a.held && FrameOf(w) in a.own && a.own[FrameOf(w)] == Held)
    ensures var b := Mapped(a, d, v, w);
      && (v < USER ==> Released(b.own, d) == Released(a.own, d)[FrameOf(w) := Free] && b.held == a.held - {FrameOf(w)})
      && (v >= USER ==> b.own == a.own && b.held == a.held)
  {
    hide FrameOf;
    if v < USER { ReleasedTaken(a.own, d, FrameOf(w), User(d, v)); }
  }

  lemma NotYet(m: map<nat, Page>, v: nat, n: nat, f: nat, perm: nat, data: seq<nat>, u: nat)
    requires perm < PGSIZE && u !in m && u >= v + n
    ensures u !in m + Run(v, n, f, perm, data)
  {
  }

  lemma DeallocSpace(a: Vm, b: Vm, d: nat, lo: nat, v: nat)
    requires DeallocTo(a, b, d, lo, v)
    ensures d in a.space && d in b.space && b.tab == a.tab
    ensures v in b.space[d] <==> v in a.space[d]
    ensures v in a.space[d] ==> b.space[d][v] == a.space[d][v]
  {
  }

  lemma PteThere(mem: Mem, list: nat, a: Vm, d: nat, v: nat)
    requires Ok(mem, list, a) && d in a.space && v < NPAGES && (d, X(v)) in a.tab
    ensures var t := a.tab[(d, X(v))]; t in mem && |mem[t]| == NENTRIES && mem[t][Y(v)] == PteWord(a.space, d, v)
    ensures v in a.space[d] <==> Present(PteWord(a.space, d, v))
  {
    assert TableAt(mem, a, d, v);
    if v in a.space[d] { assert PageOk(mem, a, d, v); }
  }

  /** A missing table: on to the next table's first page, or to the end. */
  lemma AbsentTable(mem: Mem, list: nat, a: Vm, b: Vm, d: nat, lo: nat, v: nat, hi: nat)
    requires Ok(mem, list, a) && DeallocTo(a, b, d, lo, v) && lo <= v < hi && (d, X(v)) !in a.tab
    ensures var next := (X(v) + 1) * NENTRIES; v < next <= v + NENTRIES && DeallocTo(a, b, d, lo, if next <= hi then next else hi)
  {
    hide DeallocTo;
    var w := (X(v) + 1) * NENTRIES;
    DeallocSpace(a, b, d, lo, v);
    forall u | v <= u < w ensures u !in a.space[d] { NoTableNoPages(mem, a, d, v, u); }
    DeallocSkip(a, b, d, lo, v, if w <= hi then w else hi);
  }

  lemma DeallocPage(mem: Mem, list: nat, a: Vm, m: Mem, l: nat, b: Vm, d: nat, lo: nat, v: nat)
    requires Ok(mem, list, a) && Ok(m, l, b) && DeallocTo(a, b, d, lo, v) && lo <= v < USER && d in b.space && v in b.space[d]
    ensures DeallocTo(a, Returned(Unmapped(b, d, v), FrameOf(b.space[d][v].pte)), d, lo, v + 1)
  {
    DeallocSpace(a, b, d, lo, v);
    assert PageOk(mem, a, d, v);
    DeallocStep(a, b, d, lo, v);
  }

  /** kfree first, the table entry second: the same as unmapping the page and giving its frame back. */
  lemma UnmapAndRelease(mem: Mem, list: nat, a: Vm, d: nat, v: nat)
    requires Ok(mem, list, a) && d in a.space && v in a.space[d] && v < USER
    ensures (d, X(v)) in a.tab && a.tab[(d, X(v))] in mem && FrameOf(a.space[d][v].pte) in mem
    ensures var t, f := a.tab[(d, X(v))], FrameOf(a.space[d][v].pte);
      && t != f && |mem[t]| == NENTRIES
      && Ok(mem[f := Junk(list)][t := mem[t][Y(v) := 0]], P2V(f), Returned(Unmapped(a, d, v), f))
  {
    hide Frames, Dirs, Tables, Pages, Owners, Hands, FreeList;
    UnmappedOk(mem, list, a, d, v);
    var t, f := a.tab[(d, X(v))], FrameOf(a.space[d][v].pte);
    SwapWrites(mem, t, f, v, Junk(list));
    assert Unmapped(a, d, v).own[f] == Held;
    hide Ok, X, Y, FrameOf, Junk, P2V, Unmapped, Returned, PteMem;
    ReturnedOk(PteMem(mem, t, v, 0), list, Unmapped(a, d, v), f);
  }

  lemma SwapWrites(mem: Mem, t: nat, f: nat, v: nat, junk: seq<nat>)
    requires t in mem && |mem[t]| == NENTRIES && t != f
    ensures mem[f := junk][t := mem[t][Y(v) := 0]] == PteMem(mem, t, v, 0)[f := junk]
  {
  }

  lemma DeallocAll(a: Vm, b: Vm, d: nat)
    requires DeallocTo(a, b, d, 0, USER)
    ensures d in b.space && b.space - {d} == a.space - {d} && b.held == a.held && Released(b.own, d) == Released(a.own, d)
    ensures forall v :: v in b.space[d] ==> v >= USER
  {
    ReleasedFreed(a.own, d, 0, USER);
  }

  lemma PdeIs(tab: map<(nat, nat), nat>, d: nat, x: nat)
    ensures Present(PdeWord(tab, d, x)) <==> (d, x) in tab
    ensures (d, x) in tab ==> FrameOf(PdeWord(tab, d, x)) == tab[(d, x)]
  {
  }

  /** A free frame taken, zeroed and made a directory. */
  lemma NewDirReleased(a: Vm, d: nat)
    requires Owners(a) && a.free != [] && d == a.free[0] && d in a.own && a.own[d] == Free && d !in a.held
    ensures d !in a.space
    ensures var b := NewDir(a.(own := a.own[d := Held], held := a.held[d := Zeroed()], free := a.free[1..]), d);
      b.space == a.space[d := map[]] && Released(b.own, d) == a.own && b.held == a.held
  {
    hide Zeroed;
    ReleasedNone(a, d);
    ReleasedTaken(a.own, d, d, Dir);
    assert a.own[d := Held][d := Dir] == a.own[d := Dir] && a.own[d := Free] == a.own;
    assert a.held[d := Zeroed()] - {d} == a.held;
  }

  lemma KernNone(data: nat)
    requires 0x100 < data < NFRAMES
    ensures KernPages(data, 0) == map[]
  {
  }

  lemma KernFresh(data: nat, k: nat)
    requires k < 4 && 0x100 < data < NFRAMES
    ensures forall v: nat :: v >= Kmap(data, k).virt ==> v !in KernPages(data, k)
  {
    forall v: nat | v >= Kmap(data, k).virt ensures v !in KernPages(data, k) { KernBelow(data, k, v); }
  }

  lemma KernNext(data: nat, k: nat)
    requires k < 4 && 0x100 < data < NFRAMES
    ensures var r := Kmap(data, k); KernPages(data, k + 1) == KernPages(data, k) + Run(r.virt, r.n, r.start, r.perm, [])
  {
  }

  lemma RunOne(m: map<nat, Page>, v: nat, f: nat, perm: nat, data: seq<nat>)
    requires perm < PGSIZE
    ensures m + Run(v, 0, f, perm, data) == m
    ensures m + Run(v, 1, f, perm, data) == m[v := Page(Entry(f, perm), data)]
  {
    RunNext(m, v, 0, f, perm, data);
  }

  lemma HandReleased(own: map<nat, Use>, d: nat, f: nat)
    requires f in own && own[f] == Free
    ensures Released(own[f := Held], d)[f := Free] == Released(own, d)
  {
    ReleasedSet(own, d, f, Held);
  }

  lemma HandBack(own: map<nat, Use>, d: nat, f: nat)
    requires f in own && own[f] == Held
    ensures Released(own[f := Free], d) == Released(own, d)[f := Free]
  {
    ReleasedSet(own, d, f, Free);
  }

  lemma StillHeld(mem: Mem, list: nat, a: Vm, f: nat)
    requires Ok(mem, list, a) && f in a.held
    ensures f in a.own && a.own[f] == Held
  {
  }

  lemma GrownNone(m: map<nat, Page>, lo: nat)
    ensures Grown(m, m, lo, lo)
  {
  }

  lemma GrownFresh(m: map<nat, Page>, g: map<nat, Page>, lo: nat, u: nat)
    requires Grown(m, g, lo, u) && u !in m
    ensures u !in g
  {
  }

  lemma GrownNext(m: map<nat, Page>, g: map<nat, Page>, lo: nat, u: nat, page: Page)
    requires Grown(m, g, lo, u) && lo <= u && page.data == Zeroed() && FlagsOf(page.pte) == PTE_P + PTE_W + PTE_U
    ensures Grown(m, g[u := page], lo, u + 1)
  {
  }

  /** A failed growth taken back: the map is as it was before, page for page. */
  lemma GrownUndone(a: Vm, b: Vm, c: Vm, d: nat, lo: nat, u: nat, hi: nat)
    requires d in a.space && d in b.space && b.space == a.space[d := b.space[d]] && Grown(a.space[d], b.space[d], lo, u)
    requires DeallocTo(b, c, d, lo, hi) && u <= hi && forall w :: lo <= w < hi ==> w !in a.space[d]
    ensures c.space == a.space && c.held == b.held && Released(c.own, d) == Released(b.own, d)
  {
    GrownBack(a.space[d], b.space[d], lo, u, hi);
    ReleasedFreed(b.own, d, lo, hi);
  }

  lemma PageThere(mem: Mem, list: nat, a: Vm, d: nat, v: nat)
    requires Ok(mem, list, a) && d in a.space && v in a.space[d]
    ensures v < NPAGES && (d, X(v)) in a.tab && Present(a.space[d][v].pte) && PteWord(a.space, d, v) == a.space[d][v].pte
    ensures v < USER ==> var f := FrameOf(a.space[d][v].pte);
      f in a.own && a.own[f] == User(d, v) && f in mem && mem[f] == a.space[d][v].data && |mem[f]| == NENTRIES
  {
    assert PageOk(mem, a, d, v);
  }

  lemma CopiedNone(m: map<nat, Page>, data: nat)
    requires 0x100 < data < NFRAMES
    ensures Copied(m, KernPages(data, 4), KernPages(data, 4), 0)
  {
  }

  lemma CopiedFresh(m: map<nat, Page>, c: map<nat, Page>, data: nat, n: nat)
    requires 0x100 < data < NFRAMES && Copied(m, c, KernPages(data, 4), n) && n < USER
    ensures n !in c
  {
    KernBelow(data, 3, n);
  }

  lemma CopiedNext(m: map<nat, Page>, c: map<nat, Page>, kern: map<nat, Page>, n: nat, page: Page)
    requires Copied(m, c, kern, n) && n !in kern && n in m && page.data == m[n].data && FlagsOf(page.pte) == FlagsOf(m[n].pte)
    ensures Copied(m, c[n := page], kern, n + 1)
  {
    hide FlagsOf;
  }

  lemma FlagsPresent(pte: nat)
    requires Present(pte)
    ensures OrPresent(FlagsOf(pte)) == FlagsOf(pte)
  {
    Even(2048 * (pte / PGSIZE), pte % PGSIZE);
    assert pte == 2 * (2048 * (pte / PGSIZE)) + pte % PGSIZE;
  }

  lemma Even(q: nat, r: nat)
    ensures (2 * q + r) % 2 == r % 2
  {
  }

  // ----- a process writes to its memory

  function Stored(page: Page, i: nat, w: nat): Page
    requires i < |page.data|
  {
    Page(page.pte, page.data[i := w])
  }

  function WithPage(m: map<nat, Page>, v: nat, page: Page): map<nat, Page> { m[v := page] }

  /** Frame f with word i set. */
  function WordMem(mem: Mem, f: nat, i: nat, w: nat): Mem
    requires f in mem && i < |mem[f]|
  {
    var words: seq<nat> := mem[f][i := w];
    mem[f := words]
  }

  function StoredVm(a: Vm, d: nat, v: nat, i: nat, w: nat): Vm
    requires d in a.space && v in a.space[d] && i < |a.space[d][v].data|
  {
    a.(space := a.space[d := WithPage(a.space[d], v, Stored(a.space[d][v], i, w))])
  }

  lemma StoredOk(mem: Mem, list: nat, a: Vm, d: nat, v: nat, i: nat, w: nat)
    requires Ok(mem, list, a) && d in a.space && v in a.space[d] && v < USER && i < NENTRIES
    ensures var f := FrameOf(a.space[d][v].pte);
      && f in mem && mem[f] == a.space[d][v].data && |mem[f]| == NENTRIES
      && Ok(WordMem(mem, f, i, w), list, StoredVm(a, d, v, i, w))
  {
    hide Frames, Dirs, Tables, Pages, Owners, Hands, FreeList, FrameOf, WordMem, StoredVm;
    PageThere(mem, list, a, d, v);
    var f := FrameOf(a.space[d][v].pte);
    StoredTables(mem, a, d, v, f, i, w);
    StoredPages(mem, a, d, v, f, i, w);
    StoredOwners(a, d, v, i, w);
    StoredDirs(mem, a, d, v, f, i, w);
    StoredRest(mem, list, a, d, v, f, i, w);
  }

  lemma StoredDirs(mem: Mem, a: Vm, d: nat, v: nat, f: nat, i: nat, w: nat)
    requires Dirs(mem, a) && Owners(a) && d in a.space && v in a.space[d] && i < |a.space[d][v].data|
    requires f in a.own && a.own[f].User? && f in mem && i < |mem[f]|
    ensures Dirs(WordMem(mem, f, i, w), StoredVm(a, d, v, i, w))
  {
    var m, b := WordMem(mem, f, i, w), StoredVm(a, d, v, i, w);
    DirsKeep(mem, a, m, b) by {
      forall e | e in b.space ensures Same(mem, m, e) { assert DirAt(mem, a, e, 0); }
    }
  }

  lemma StoredRest(mem: Mem, list: nat, a: Vm, d: nat, v: nat, f: nat, i: nat, w: nat)
    requires Frames(mem, a.own) && Hands(mem, a) && FreeList(mem, list, a) && d in a.space && v in a.space[d] && i < |a.space[d][v].data|
    requires f in a.own && a.own[f].User? && f in mem && i < |mem[f]|
    ensures var m, b := WordMem(mem, f, i, w), StoredVm(a, d, v, i, w);
      Frames(m, b.own) && Hands(m, b) && FreeList(m, list, b)
  {
    FreeListKeep(mem, list, a, WordMem(mem, f, i, w), StoredVm(a, d, v, i, w));
    hide FreeList;
  }

  lemma StoredOwners(a: Vm, d: nat, v: nat, i: nat, w: nat)
    requires Owners(a) && d in a.space && v in a.space[d] && i < |a.space[d][v].data|
    ensures Owners(StoredVm(a, d, v, i, w))
  {
    hide FrameOf;
    var b := StoredVm(a, d, v, i, w);
    forall f | f in b.own && b.own[f].User? ensures UserOk(b, f, b.own[f].d, b.own[f].v) {
      assert UserOk(a, f, a.own[f].d, a.own[f].v);
    }
  }

  lemma StoredTables(mem: Mem, a: Vm, d: nat, v: nat, f: nat, i: nat, w: nat)
    requires Tables(mem, a) && Owners(a) && d in a.space && v in a.space[d] && i < |a.space[d][v].data|
    requires f in a.own && a.own[f].User? && f in mem && i < |mem[f]|
    ensures Tables(WordMem(mem, f, i, w), StoredVm(a, d, v, i, w))
  {
    hide X, Y;
    var m, b := WordMem(mem, f, i, w), StoredVm(a, d, v, i, w);
    forall e: nat, u: nat {:trigger TableAt(m, b, e, u)} | e in b.space && u < NPAGES && (e, X(u)) in b.tab ensures TableAt(m, b, e, u) {
      assert TableAt(mem, a, e, u);
    }
  }

  lemma StoredPages(mem: Mem, a: Vm, d: nat, v: nat, f: nat, i: nat, w: nat)
    requires Pages(mem, a) && d in a.space && v in a.space[d] && v < USER && f == FrameOf(a.space[d][v].pte)
    requires i < |a.space[d][v].data| && f in mem && mem[f] == a.space[d][v].data
    ensures Pages(WordMem(mem, f, i, w), StoredVm(a, d, v, i, w))
  {
    hide X, Y, FrameOf, Present;
    var m, b := WordMem(mem, f, i, w), StoredVm(a, d, v, i, w);
    assert PageOk(mem, a, d, v);
    forall e: nat, u: nat {:trigger PageOk(m, b, e, u)} | e in b.space && u in b.space[e] ensures PageOk(m, b, e, u) {
      assert PageOk(mem, a, e, u);
    }
  }
}
