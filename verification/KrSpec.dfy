// The K&R allocator's heap as a value: memory in header-sized units, the free
// list, the blocks handed out, and which block every unit belongs to.
module KrSpec {

  /** One unit of memory read as a header: the next free block and this block's size in units. */
  datatype Header = Header(ptr: nat, size: nat)

  /** Address of the static `base` header; 0 is the null pointer and the heap lies above. */
  const BASE: nat := 1

  /**
   * `ring` lists the free list from base on, `live` the blocks handed out, `blocks` all blocks with their sizes, and
   * `own` gives for each unit obtained from sbrk the block it lies in.
   */
  datatype Kr = Kr(mem: map<nat, Header>, ring: seq<nat>, live: set<nat>, blocks: map<nat, nat>, own: map<nat, nat>)

  function Ptr(k: Kr, a: nat): nat { if a in k.mem then k.mem[a].ptr else 0 }

  /** Successor of position i on the circular list. */
  function After(ring: seq<nat>, i: nat): nat
    requires i < |ring|
  {
    if i + 1 < |ring| then ring[i + 1] else ring[0]
  }

  ghost predicate Ascending(ring: seq<nat>) {
    forall i, j :: 0 <= i < j < |ring| ==> ring[i] < ring[j]
  }

  /** The free list is circular, in address order, and starts at base. */
  ghost predicate Links(k: Kr) {
    && |k.ring| > 0 && k.ring[0] == BASE && BASE in k.mem && k.mem[BASE].size == 0
    && Ascending(k.ring)
    && forall i {:trigger Ptr(k, k.ring[i])} :: 0 <= i < |k.ring| ==> Ptr(k, k.ring[i]) == After(k.ring, i)
  }

  /** Unit u lies in block a. */
  predicate Covers(blocks: map<nat, nat>, a: nat, u: nat) { a in blocks && a <= u < a + blocks[a] }

  /** Blocks do not overlap and together are exactly the units in own. */
  ghost predicate Tiling(blocks: map<nat, nat>, own: map<nat, nat>) {
    && (forall a :: a in blocks ==> a > BASE && blocks[a] > 0)
    && (forall u :: u in own ==> Covers(blocks, own[u], u))
    && (forall a: nat, u: nat {:trigger Covers(blocks, a, u)} :: Covers(blocks, a, u) ==> u in own && own[u] == a)
  }

  /** The headers in memory say what the blocks are, and each block is either on the free list or live. */
  ghost predicate Headers(k: Kr) {
    && (forall i :: 0 <= i < |k.ring| ==> k.ring[i] in k.mem)
    && (forall a :: a in k.blocks ==> a in k.mem && k.mem[a].size == k.blocks[a])
    && (forall a: nat :: a in k.blocks <==> a in k.live || (a in k.ring && a != BASE))
    && (forall a: nat :: a in k.live ==> a !in k.ring)
    && (forall u :: u in k.own ==> u in k.mem)
  }

  ghost predicate Ok(k: Kr) {
    Links(k) && Tiling(k.blocks, k.own) && Headers(k)
  }

  /** Size of the block at ring position i; base has none. */
  function SizeAt(k: Kr, i: nat): nat
    requires i < |k.ring|
  {
    if k.ring[i] in k.blocks then k.blocks[k.ring[i]] else 0
  }

  predicate GapAt(k: Kr, i: nat)
    requires i + 1 < |k.ring|
  {
    k.ring[i] + SizeAt(k, i) < k.ring[i + 1]
  }

  /** No two neighbours on the free list touch. */
  ghost predicate Coalesced(k: Kr) {
    forall i {:trigger GapAt(k, i)} :: 0 <= i < |k.ring| - 1 ==> GapAt(k, i)
  }

  lemma RingMember(k: Kr, i: nat)
    requires Ok(k) && i < |k.ring|
    ensures k.ring[i] in k.ring && (i == 0 <==> k.ring[i] == BASE) && (i > 0 ==> k.ring[i] in k.blocks)
    ensures k.ring[i] in k.mem && k.mem[k.ring[i]].size == SizeAt(k, i) && Ptr(k, k.ring[i]) == After(k.ring, i)
  {
    if i > 0 { assert k.ring[0] < k.ring[i]; }
    if i == 0 && BASE in k.blocks { assert false; }
  }

  /** A block that starts later starts after the end. */
  lemma Disjoint(blocks: map<nat, nat>, own: map<nat, nat>, a: nat, b: nat)
    requires Tiling(blocks, own) && a in blocks && b in blocks && a < b
    ensures a + blocks[a] <= b
  {
    assert Covers(blocks, b, b);
    assert a + blocks[a] > b ==> Covers(blocks, a, b);
  }

  /** Position of the free-list block just below address b. */
  function Below(ring: seq<nat>, b: nat, i: nat): (r: nat)
    requires i < |ring| && ring[i] < b
    ensures i <= r < |ring| && ring[r] < b && (r + 1 < |ring| ==> b <= ring[r + 1])
    decreases |ring| - i
  {
    if i + 1 < |ring| && ring[i + 1] < b then Below(ring, b, i + 1) else i
  }

  // ----- putting a live block on the free list

  function Inserted(k: Kr, t: nat, b: nat): (g: Kr)
    requires t < |k.ring| && b in k.mem && k.ring[t] in k.mem
    ensures g.blocks == k.blocks && g.own == k.own
  {
    var p := k.ring[t];
    var m := k.mem[b := k.mem[b].(ptr := Ptr(k, p))];
    Kr(m[p := m[p].(ptr := b)], k.ring[..t + 1] + [b] + k.ring[t + 1..], k.live - {b}, k.blocks, k.own)
  }

  lemma InsertPtr(k: Kr, t: nat, b: nat, i: nat)
    requires t < |k.ring| && i < |k.ring| && b in k.mem && k.ring[t] in k.mem && k.ring[t] != b && k.ring[i] != b
    requires Ptr(k, k.ring[i]) == After(k.ring, i) && (i != t ==> k.ring[i] != k.ring[t])
    ensures Ptr(Inserted(k, t, b), k.ring[i]) == if i == t then b else After(k.ring, i)
    ensures i == t ==> Ptr(Inserted(k, t, b), b) == After(k.ring, t)
  {
  }

  lemma InsertLinks(k: Kr, t: nat, b: nat)
    requires Links(k) && t < |k.ring| && b in k.mem && k.ring[t] in k.mem
    requires k.ring[t] < b && (t + 1 < |k.ring| ==> b < k.ring[t + 1])
    ensures Links(Inserted(k, t, b))
  {
    hide Ptr;
    var g := Inserted(k, t, b);
    InsertAscending(k.ring, t, b);
    assert BASE in g.mem && g.mem[BASE].size == 0;
    forall i | 0 <= i < |g.ring| ensures Ptr(g, g.ring[i]) == After(g.ring, i) {
      var i' := if i <= t then i else i - 1;
      assert i != t + 1 ==> g.ring[i] == k.ring[i'];
      assert Ptr(k, k.ring[i']) == After(k.ring, i');
      assert k.ring[i'] != b && (i' != t ==> k.ring[i'] != k.ring[t]);
      InsertPtr(k, t, b, i');
    }
  }

  lemma InsertAscending(ring: seq<nat>, t: nat, b: nat)
    requires Ascending(ring) && t < |ring| && ring[t] < b && (t + 1 < |ring| ==> b < ring[t + 1])
    ensures Ascending(ring[..t + 1] + [b] + ring[t + 1..])
  {
  }

  lemma InsertedMember(ring: seq<nat>, t: nat, b: nat)
    requires t < |ring|
    ensures forall a :: a in ring[..t + 1] + [b] + ring[t + 1..] <==> a == b || a in ring
  {
    assert ring == ring[..t + 1] + ring[t + 1..];
  }

  lemma NotOnRing(k: Kr, b: nat, t: nat)
    requires Ok(k) && b in k.live && t < |k.ring|
    ensures k.ring[t] != b && (t + 1 < |k.ring| ==> k.ring[t + 1] != b) && BASE < b && b in k.blocks && b in k.mem
  {
    assert k.ring[t] in k.ring;
    if t + 1 < |k.ring| { assert k.ring[t + 1] in k.ring; }
  }

  lemma InsertOk(k: Kr, b: nat)
    requires Ok(k) && b in k.live
    ensures k.ring[0] < b && b in k.mem && b in k.blocks
    ensures var t := Below(k.ring, b, 0);
      && k.ring[t] in k.mem && Ok(Inserted(k, t, b))
      && k.ring[t] + SizeAt(k, t) <= b
      && (t + 1 < |k.ring| ==> b + k.blocks[b] <= k.ring[t + 1])
  {
    hide Ascending; hide Inserted;
    var t := Below(k.ring, b, 0);
    RingMember(k, t);
    NotOnRing(k, b, t);
    if t > 0 { Disjoint(k.blocks, k.own, k.ring[t], b); }
    if t + 1 < |k.ring| { RingMember(k, t + 1); Disjoint(k.blocks, k.own, b, k.ring[t + 1]); }
    InsertLinks(k, t, b);
    InsertHeaders(k, t, b);
  }

  lemma InsertHeaders(k: Kr, t: nat, b: nat)
    requires Headers(k) && t < |k.ring| && b in k.live && b in k.mem && b > BASE
    ensures Headers(Inserted(k, t, b))
  {
    InsertedMember(k.ring, t, b);
    var g := Inserted(k, t, b);
    forall i | 0 <= i < |g.ring| ensures g.ring[i] in g.mem {
      assert g.ring[i] in g.ring;
      assert g.ring[i] == b || g.ring[i] in k.ring;
    }
  }

  // ----- joining a free block with the next one it touches

  function Without(ring: seq<nat>, i: nat): seq<nat>
    requires i < |ring|
  {
    ring[..i] + ring[i + 1..]
  }

  /** Block i + 1 of the free list becomes part of block i. */
  function Joined(k: Kr, i: nat): (g: Kr)
    requires i + 1 < |k.ring| && k.ring[i] in k.mem && k.ring[i + 1] in k.mem
  {
    var a, b := k.ring[i], k.ring[i + 1];
    var size := k.mem[a].size + k.mem[b].size;
    Kr(k.mem[a := Header(k.mem[b].ptr, size)], Without(k.ring, i + 1), k.live,
       JoinedBlocks(k.blocks, a, b, size), JoinedOwn(k.own, a, b))
  }

  function JoinedBlocks(blocks: map<nat, nat>, a: nat, b: nat, size: nat): map<nat, nat> {
    (blocks - {b})[a := size]
  }

  function JoinedOwn(own: map<nat, nat>, a: nat, b: nat): map<nat, nat> {
    map u | u in own :: if own[u] == b then a else own[u]
  }

  lemma JoinLinks(k: Kr, i: nat)
    requires Links(k) && 0 < i && i + 1 < |k.ring| && k.ring[i] in k.mem && k.ring[i + 1] in k.mem
    ensures Links(Joined(k, i))
  {
    var g := Joined(k, i);
    forall j | 0 <= j < |g.ring| ensures Ptr(g, g.ring[j]) == After(g.ring, j) {
      var j' := if j <= i then j else j + 1;
      assert g.ring[j] == k.ring[j'];
      assert Ptr(k, k.ring[j']) == After(k.ring, j');
      assert Ptr(k, k.ring[i + 1]) == After(k.ring, i + 1);
      if j != i { assert k.ring[j'] != k.ring[i]; }
    }
  }

  lemma JoinTiling(blocks: map<nat, nat>, own: map<nat, nat>, a: nat, b: nat)
    requires Tiling(blocks, own) && a in blocks && b in blocks && a + blocks[a] == b
    ensures Tiling(JoinedBlocks(blocks, a, b, blocks[a] + blocks[b]), JoinedOwn(own, a, b)) && JoinedOwn(own, a, b).Keys == own.Keys
  {
    var bs, o := JoinedBlocks(blocks, a, b, blocks[a] + blocks[b]), JoinedOwn(own, a, b);
    forall u | u in o ensures Covers(bs, o[u], u) {
      assert Covers(blocks, own[u], u);
    }
    forall c: nat, u: nat | Covers(bs, c, u) ensures u in o && o[u] == c {
      assert Covers(blocks, if c == a && u >= b then b else c, u);
    }
  }

  lemma WithoutMember(ring: seq<nat>, i: nat)
    requires i < |ring| && Ascending(ring)
    ensures forall x :: x in Without(ring, i) <==> x in ring && x != ring[i]
  {
    var r := Without(ring, i);
    forall x | x in ring && x != ring[i] ensures x in r {
      var j :| 0 <= j < |ring| && ring[j] == x;
      assert r[if j < i then j else j - 1] == x;
    }
  }

  lemma JoinOk(k: Kr, i: nat)
    requires Ok(k) && 0 < i && i + 1 < |k.ring| && k.ring[i] + SizeAt(k, i) == k.ring[i + 1]
    ensures k.ring[i] in k.mem && k.ring[i + 1] in k.mem && Ok(Joined(k, i)) && Joined(k, i).own.Keys == k.own.Keys
  {
    hide Ascending; hide Without; hide JoinedBlocks; hide JoinedOwn; hide Tiling;
    RingMember(k, i);
    RingMember(k, i + 1);
    JoinLinks(k, i);
    JoinTiling(k.blocks, k.own, k.ring[i], k.ring[i + 1]);
    JoinHeaders(k, i);
  }

  lemma JoinHeaders(k: Kr, i: nat)
    requires Headers(k) && 0 < i && i + 1 < |k.ring| && Ascending(k.ring) && k.ring[0] == BASE
    requires k.ring[i] in k.blocks && k.ring[i + 1] in k.blocks
    ensures Headers(Joined(k, i))
  {
    WithoutMember(k.ring, i + 1);
    var g := Joined(k, i);
    var a, b := k.ring[i], k.ring[i + 1];
    assert a in k.ring && b in k.ring && a != BASE && b != BASE;
    forall j | 0 <= j < |g.ring| ensures g.ring[j] in g.mem {
      assert g.ring[j] in g.ring;
    }
  }

  // ----- free

  /** The heap after free: block b inserted, then joined with the block above and the block below if it touches them. */
  function Freed(k: Kr, b: nat): Kr
    requires |k.ring| > 0 && k.ring[0] < b && b in k.mem && k.ring[Below(k.ring, b, 0)] in k.mem
  {
    var t := Below(k.ring, b, 0);
    JoinedIfTouching(JoinedIfTouching(Inserted(k, t, b), t + 1), t)
  }

  function JoinedIfTouching(k: Kr, i: nat): Kr {
    if 0 < i && i + 1 < |k.ring| && k.ring[i] in k.mem && k.ring[i + 1] in k.mem && !GapAt(k, i) then Joined(k, i) else k
  }

  lemma JoinIfTouchingOk(k: Kr, i: nat)
    requires Ok(k) && i < |k.ring| && (0 < i && i + 1 < |k.ring| ==> k.ring[i] + SizeAt(k, i) <= k.ring[i + 1])
    ensures var g := JoinedIfTouching(k, i);
      && Ok(g) && g.own.Keys == k.own.Keys && g.live == k.live
      && if g == k then i == 0 || i + 1 == |k.ring| || GapAt(k, i)
         else 0 < i && i + 1 < |k.ring| && |g.ring| == |k.ring| - 1 && JoinedAt(k, g, i)
  {
    hide Tiling; hide JoinedBlocks; hide JoinedOwn; hide Links; hide Headers; hide Without;
    if 0 < i && i + 1 < |k.ring| && !GapAt(k, i) {
      JoinOk(k, i);
      JoinSizes(k, i);
    } else if 0 < i && i + 1 < |k.ring| {
      RingMember(k, i);
      RingMember(k, i + 1);
    }
  }

  /** Addresses and sizes along the free list after block i + 1 has been joined to block i. */
  ghost predicate JoinedAt(k: Kr, g: Kr, i: nat)
    requires i + 1 < |k.ring|
  {
    |g.ring| == |k.ring| - 1 && forall j {:trigger g.ring[j]} :: 0 <= j < |g.ring| ==>
      && g.ring[j] == k.ring[if j <= i then j else j + 1]
      && SizeAt(g, j) == if j == i then SizeAt(k, i) + SizeAt(k, i + 1) else SizeAt(k, if j < i then j else j + 1)
  }

  lemma JoinSizes(k: Kr, i: nat)
    requires Ok(k) && 0 < i && i + 1 < |k.ring| && k.ring[i] + SizeAt(k, i) == k.ring[i + 1]
    ensures k.ring[i] in k.mem && k.ring[i + 1] in k.mem
    ensures JoinedAt(k, Joined(k, i), i) && Joined(k, i).live == k.live
  {
    RingMember(k, i);
    RingMember(k, i + 1);
    var g := Joined(k, i);
    forall j | 0 <= j < |g.ring|
      ensures SizeAt(g, j) == if j == i then SizeAt(k, i) + SizeAt(k, i + 1) else SizeAt(k, if j < i then j else j + 1)
    {
      var j' := if j <= i then j else j + 1;
      assert g.ring[j] == k.ring[j'];
      if j != i { assert k.ring[j'] != k.ring[i] && k.ring[j'] != k.ring[i + 1]; }
    }
  }

  /** Addresses and sizes along the free list after b has been inserted behind position t. */
  lemma InsertSizes(k: Kr, t: nat, b: nat)
    requires t < |k.ring| && b in k.mem && k.ring[t] in k.mem && b in k.blocks
    ensures var g := Inserted(k, t, b);
      && |g.ring| == |k.ring| + 1 && g.ring[t + 1] == b && SizeAt(g, t + 1) == k.blocks[b]
      && (forall j {:trigger g.ring[j]} :: 0 <= j <= t ==> g.ring[j] == k.ring[j] && SizeAt(g, j) == SizeAt(k, j))
      && (forall j {:trigger g.ring[j]} :: t + 1 < j < |g.ring| ==> g.ring[j] == k.ring[j - 1] && SizeAt(g, j) == SizeAt(k, j - 1))
  {
    var g := Inserted(k, t, b);
    assert g.ring == k.ring[..t + 1] + [b] + k.ring[t + 1..];
    forall j | 0 <= j <= t ensures g.ring[j] == k.ring[j] && SizeAt(g, j) == SizeAt(k, j) {
    }
    forall j | t + 1 < j < |g.ring| ensures g.ring[j] == k.ring[j - 1] && SizeAt(g, j) == SizeAt(k, j - 1) {
    }
  }

  /** free keeps everything: the list, the partition, the coalescing; and b is no longer live. */
  lemma FreedOk(k: Kr, b: nat)
    requires Ok(k) && Coalesced(k) && b in k.live
    ensures |k.ring| > 0 && k.ring[0] < b && b in k.mem && k.ring[Below(k.ring, b, 0)] in k.mem
    ensures Ok(Freed(k, b)) && Coalesced(Freed(k, b))
    ensures Freed(k, b).own.Keys == k.own.Keys && Freed(k, b).live == k.live - {b}
  {
    hide Ok; hide Inserted; hide Joined;
    InsertOk(k, b);
    var t := Below(k.ring, b, 0);
    var g := Inserted(k, t, b);
    InsertSizes(k, t, b);
    InsertGaps(k, t, b);
    InsertLive(k, t, b);
    JoinIfTouchingOk(g, t + 1);
    var h := JoinedIfTouching(g, t + 1);
    assert h.ring[t] == g.ring[t] && h.ring[t + 1] == b && SizeAt(h, t) == SizeAt(g, t);
    JoinIfTouchingOk(h, t);
    var w := JoinedIfTouching(h, t);
    BaseGap(k, t, b);
    forall j | 0 <= j < |h.ring| - 1 && j != t ensures GapAt(h, j) {
      if h != g { JoinedGap(g, h, t + 1, j); }
    }
    forall j | 0 <= j < |w.ring| - 1 ensures GapAt(w, j) {
      if w != h { JoinedGap(h, w, t, j); }
    }
  }

  lemma JoinedGap(k: Kr, g: Kr, i: nat, j: nat)
    requires i + 1 < |k.ring| && JoinedAt(k, g, i) && j + 1 < |g.ring| && k.ring[i] + SizeAt(k, i) == k.ring[i + 1]
    ensures GapAt(g, j) == GapAt(k, if j < i then j else j + 1)
  {
    assert g.ring[j] == k.ring[if j <= i then j else j + 1];
    assert g.ring[j + 1] == k.ring[if j + 1 <= i then j + 1 else j + 2];
  }

  lemma InsertLive(k: Kr, t: nat, b: nat)
    requires t < |k.ring| && b in k.mem && k.ring[t] in k.mem
    ensures Inserted(k, t, b).live == k.live - {b} && Inserted(k, t, b).own == k.own
  {
  }

  /** Around the inserted block there is room; elsewhere there still are gaps. */
  lemma InsertGaps(k: Kr, t: nat, b: nat)
    requires Ok(k) && Coalesced(k) && b in k.live && b in k.mem && b in k.blocks && t < |k.ring| && k.ring[t] in k.mem
    requires k.ring[t] + SizeAt(k, t) <= b && (t + 1 < |k.ring| ==> b + k.blocks[b] <= k.ring[t + 1])
    ensures var g := Inserted(k, t, b);
      forall j :: 0 <= j < |g.ring| - 1 ==>
        g.ring[j] + SizeAt(g, j) <= g.ring[j + 1] && (j != t && j != t + 1 ==> GapAt(g, j))
  {
    InsertSizes(k, t, b);
    var g := Inserted(k, t, b);
    forall j | 0 <= j < |g.ring| - 1
      ensures g.ring[j] + SizeAt(g, j) <= g.ring[j + 1] && (j != t && j != t + 1 ==> GapAt(g, j))
    {
      if j < t { assert GapAt(k, j); } else if j > t + 1 { assert GapAt(k, j - 1); }
    }
  }

  /** base never touches a block: it has no units, and the heap starts above it. */
  lemma BaseGap(k: Kr, t: nat, b: nat)
    requires Ok(k) && b in k.live && b in k.mem && b in k.blocks && t < |k.ring| && k.ring[t] in k.mem
    ensures t == 0 ==> GapAt(Inserted(k, t, b), t)
  {
    InsertSizes(k, t, b);
    RingMember(k, 0);
  }

  // ----- malloc

  /** The whole free block i is handed out. */
  function Taken(k: Kr, i: nat): (g: Kr)
    requires 0 < i < |k.ring| && k.ring[i - 1] in k.mem
    ensures g.blocks == k.blocks && g.own == k.own
  {
    Kr(k.mem[k.ring[i - 1] := k.mem[k.ring[i - 1]].(ptr := Ptr(k, k.ring[i]))], Without(k.ring, i), k.live + {k.ring[i]}, k.blocks, k.own)
  }

  lemma TakenPtr(k: Kr, i: nat, j: nat)
    requires 0 < i < |k.ring| && j < |k.ring| && k.ring[i - 1] in k.mem && (j != i - 1 ==> k.ring[j] != k.ring[i - 1])
    requires Ptr(k, k.ring[j]) == After(k.ring, j) && Ptr(k, k.ring[i]) == After(k.ring, i)
    ensures Ptr(Taken(k, i), k.ring[j]) == if j == i - 1 then After(k.ring, i) else After(k.ring, j)
  {
  }

  lemma WithoutAt(ring: seq<nat>, i: nat, j: nat)
    requires i < |ring| && j < |ring| - 1
    ensures Without(ring, i)[j] == ring[if j < i then j else j + 1]
  {
  }

  lemma WithoutAscending(ring: seq<nat>, i: nat)
    requires Ascending(ring) && i < |ring|
    ensures Ascending(Without(ring, i))
  {
  }

  lemma TakenLinks(k: Kr, i: nat)
    requires Links(k) && 0 < i < |k.ring| && k.ring[i - 1] in k.mem
    ensures Links(Taken(k, i))
  {
    WithoutAscending(k.ring, i);
    hide Ptr; hide Without;
    var g := Taken(k, i);
    assert |g.ring| == |k.ring| - 1 by { WithoutSize(k.ring, i); }
    assert BASE in g.mem && g.mem[BASE].size == 0;
    WithoutAt(k.ring, i, 0);
    forall j | 0 <= j < |g.ring| ensures Ptr(g, g.ring[j]) == After(g.ring, j) {
      var j' := if j < i then j else j + 1;
      WithoutAt(k.ring, i, j);
      if j + 1 < |g.ring| { WithoutAt(k.ring, i, j + 1); }
      assert Ptr(k, k.ring[j']) == After(k.ring, j') && Ptr(k, k.ring[i]) == After(k.ring, i);
      assert j' != i - 1 ==> k.ring[j'] != k.ring[i - 1];
      TakenPtr(k, i, j');
    }
  }

  lemma WithoutSize(ring: seq<nat>, i: nat)
    requires i < |ring|
    ensures |Without(ring, i)| == |ring| - 1
  {
  }

  lemma TakenHeaders(k: Kr, i: nat)
    requires Headers(k) && Ascending(k.ring) && 0 < i < |k.ring| && k.ring[i] in k.blocks && k.ring[i] > BASE
    ensures Headers(Taken(k, i)) && k.ring[i] !in k.live
  {
    WithoutMember(k.ring, i);
    hide Without; hide Ascending;
    var g := Taken(k, i);
    assert k.ring[i] in k.ring;
    forall j | 0 <= j < |g.ring| ensures g.ring[j] in g.mem {
      assert g.ring[j] in g.ring && g.ring[j] in k.ring;
    }
  }

  lemma TakenGaps(k: Kr, i: nat)
    requires Coalesced(k) && 0 < i < |k.ring| && k.ring[i - 1] in k.mem
    ensures Coalesced(Taken(k, i))
  {
    hide Without;
    WithoutSize(k.ring, i);
    var g := Taken(k, i);
    forall j {:trigger GapAt(g, j)} | 0 <= j < |g.ring| - 1 ensures GapAt(g, j) {
      WithoutAt(k.ring, i, j);
      WithoutAt(k.ring, i, j + 1);
      assert GapAt(k, if j < i then j else j + 1);
      if j == i - 1 { assert GapAt(k, i); }
    }
  }

  lemma TakenOk(k: Kr, i: nat)
    requires Ok(k) && Coalesced(k) && 0 < i < |k.ring|
    ensures k.ring[i] in k.blocks && k.ring[i - 1] in k.mem
    ensures Ok(Taken(k, i)) && Coalesced(Taken(k, i))
    ensures k.ring[i] !in k.live && Taken(k, i).live == k.live + {k.ring[i]}
  {
    RingMember(k, i);
    RingMember(k, i - 1);
    TakenLinks(k, i);
    TakenHeaders(k, i);
    TakenGaps(k, i);
    hide Links; hide Headers; hide Tiling; hide Coalesced;
  }

  /** The last n units of free block i are handed out. */
  function Carved(k: Kr, i: nat, n: nat): (g: Kr)
    requires 0 < i < |k.ring| && k.ring[i] in k.blocks && 0 < n < k.blocks[k.ring[i]] && k.ring[i] in k.mem
  {
    var p := k.ring[i];
    var rest := k.blocks[p] - n;
    var q := p + rest;
    var m := k.mem[p := k.mem[p].(size := rest)];
    Kr(m[q := Header(Ptr(k, q), n)], k.ring, k.live + {q}, k.blocks[p := rest][q := n], CarvedOwn(k.own, q, n))
  }

  /** Address of the n units carved from the end of free block i. */
  function CarvedAt(k: Kr, i: nat, n: nat): nat
    requires i < |k.ring| && k.ring[i] in k.blocks && 0 < n < k.blocks[k.ring[i]]
  {
    k.ring[i] + k.blocks[k.ring[i]] - n
  }

  lemma CarvedFresh(k: Kr, i: nat, n: nat)
    requires Ok(k) && 0 < i < |k.ring| && k.ring[i] in k.blocks && 0 < n < k.blocks[k.ring[i]]
    ensures var q := CarvedAt(k, i, n); q > k.ring[i] > BASE && q !in k.blocks && q !in k.ring && q !in k.live
    ensures k.ring[i] in k.mem && k.ring[i] in k.ring && k.mem[k.ring[i]].size == k.blocks[k.ring[i]]
    ensures k.ring[i] !in k.live
  {
    RingMember(k, i);
    var p, q := k.ring[i], CarvedAt(k, i, n);
    assert Covers(k.blocks, p, q);
    assert q in k.blocks ==> Covers(k.blocks, q, q);
  }

  lemma CarvedPtr(k: Kr, i: nat, n: nat, a: nat)
    requires 0 < i < |k.ring| && k.ring[i] in k.blocks && 0 < n < k.blocks[k.ring[i]] && k.ring[i] in k.mem
    requires a != CarvedAt(k, i, n)
    ensures Ptr(Carved(k, i, n), a) == Ptr(k, a)
  {
  }

  lemma CarvedLinks(k: Kr, i: nat, n: nat)
    requires Links(k) && 0 < i < |k.ring| && k.ring[i] in k.blocks && 0 < n < k.blocks[k.ring[i]] && k.ring[i] in k.mem
    requires CarvedAt(k, i, n) !in k.ring && k.ring[i] > BASE
    ensures Links(Carved(k, i, n))
  {
    hide Ptr; hide Ascending;
    var g := Carved(k, i, n);
    forall j {:trigger Ptr(g, g.ring[j])} | 0 <= j < |g.ring| ensures Ptr(g, g.ring[j]) == After(g.ring, j) {
      assert k.ring[j] in k.ring && Ptr(k, k.ring[j]) == After(k.ring, j);
      CarvedPtr(k, i, n, k.ring[j]);
    }
    assert k.ring[0] in k.ring;
  }

  lemma CarvedHeaders(k: Kr, i: nat, n: nat)
    requires Headers(k) && 0 < i < |k.ring| && k.ring[i] in k.blocks && 0 < n < k.blocks[k.ring[i]] && k.ring[i] in k.mem
    requires var q := CarvedAt(k, i, n); q > BASE && q !in k.blocks && q !in k.ring
    ensures Headers(Carved(k, i, n))
  {
  }

  lemma CarvedGaps(k: Kr, i: nat, n: nat)
    requires Coalesced(k) && 0 < i < |k.ring| && k.ring[i] in k.blocks && 0 < n < k.blocks[k.ring[i]] && k.ring[i] in k.mem
    requires CarvedAt(k, i, n) !in k.ring
    ensures Coalesced(Carved(k, i, n))
  {
    var g := Carved(k, i, n);
    forall j {:trigger GapAt(g, j)} | 0 <= j < |g.ring| - 1 ensures GapAt(g, j) {
      assert GapAt(k, j) && k.ring[j] in k.ring;
    }
  }

  lemma CarvedOk(k: Kr, i: nat, n: nat)
    requires Ok(k) && Coalesced(k) && 0 < i < |k.ring| && k.ring[i] in k.blocks && 0 < n < k.blocks[k.ring[i]]
    ensures k.ring[i] in k.mem && Ok(Carved(k, i, n)) && Coalesced(Carved(k, i, n))
    ensures var q := CarvedAt(k, i, n); q !in k.live && Carved(k, i, n).live == k.live + {q}
    ensures Carved(k, i, n).own.Keys == k.own.Keys
  {
    hide Links, Headers, Tiling, Coalesced;
    CarvedFresh(k, i, n);
    assert Tiling(Carved(k, i, n).blocks, Carved(k, i, n).own) by { CarvedTiling(k.blocks, k.own, k.ring[i], n); }
    assert Links(Carved(k, i, n)) by { CarvedLinks(k, i, n); }
    assert Headers(Carved(k, i, n)) by { CarvedHeaders(k, i, n); }
    assert Coalesced(Carved(k, i, n)) by { CarvedGaps(k, i, n); }
  }

  function CarvedOwn(own: map<nat, nat>, q: nat, n: nat): map<nat, nat> {
    map u | u in own :: if q <= u < q + n then q else own[u]
  }

  lemma CarvedTiling(blocks: map<nat, nat>, own: map<nat, nat>, p: nat, n: nat)
    requires Tiling(blocks, own) && p in blocks && 0 < n < blocks[p]
    ensures var rest := blocks[p] - n; var q := p + rest;
      Tiling(blocks[p := rest][q := n], CarvedOwn(own, q, n))
  {
    var rest := blocks[p] - n;
    var q := p + rest;
    var bs, o := blocks[p := rest][q := n], CarvedOwn(own, q, n);
    assert Covers(blocks, p, q);
    assert q in blocks ==> Covers(blocks, q, q);
    forall u | u in o ensures Covers(bs, o[u], u) {
      assert Covers(blocks, own[u], u);
      if q <= u < q + n { assert Covers(blocks, p, u); }
    }
    forall c: nat, u: nat | Covers(bs, c, u) ensures u in o && o[u] == c {
      CarvedCovers(blocks, own, p, n, c, u);
    }
  }

  lemma CarvedCovers(blocks: map<nat, nat>, own: map<nat, nat>, p: nat, n: nat, c: nat, u: nat)
    requires Tiling(blocks, own) && p in blocks && 0 < n < blocks[p]
    requires Covers(blocks[p := blocks[p] - n][p + blocks[p] - n := n], c, u)
    ensures u in own && CarvedOwn(own, p + blocks[p] - n, n)[u] == c
  {
    var q := p + blocks[p] - n;
    if c == q {
      assert Covers(blocks, p, u);
    } else {
      assert Covers(blocks, c, u);
      if q <= u < q + n { assert Covers(blocks, p, u); }
    }
  }

  /** sbrk's n new units at address a, as one block in the caller's hands. */
  function Granted(k: Kr, m: map<nat, Header>, a: nat, n: nat): Kr {
    Kr(m, k.ring, k.live + {a}, k.blocks[a := n], GrantedOwn(k.own, a, n))
  }

  function GrantedOwn(own: map<nat, nat>, a: nat, n: nat): map<nat, nat> {
    map u: nat | u in own.Keys + Units(a, n) :: if a <= u < a + n then a else own[u]
  }

  function Units(a: nat, n: nat): (s: set<nat>)
    ensures forall u :: u in s <==> a <= u < a + n
  {
    if n == 0 then {} else Units(a, n - 1) + {a + n - 1}
  }

  lemma GrantedOk(k: Kr, m: map<nat, Header>, a: nat, n: nat)
    requires Ok(k) && Coalesced(k) && a > BASE && n > 0 && (forall u :: u in k.own ==> u < a)
    requires (forall x :: x in k.mem ==> x in m) && (forall u: nat :: a <= u < a + n ==> u in m) && m[a].size == n
    requires forall x :: x in k.mem && x < a ==> m[x] == k.mem[x]
    ensures Ok(Granted(k, m, a, n)) && Coalesced(Granted(k, m, a, n)) && a !in k.live
    ensures Granted(k, m, a, n).own.Keys == k.own.Keys + Units(a, n)
  {
    BelowGrant(k, a);
    GrantedTiling(k.blocks, k.own, a, n);
    GrantedLinks(k, m, a, n);
    GrantedHeaders(k, m, a, n);
    GrantedGaps(k, m, a, n);
    hide Links; hide Headers; hide Tiling; hide Coalesced;
  }

  lemma BelowGrant(k: Kr, a: nat)
    requires Ok(k) && a > BASE && forall u :: u in k.own ==> u < a
    ensures forall x :: x in k.blocks ==> x + k.blocks[x] <= a
    ensures (forall x :: x in k.ring ==> x < a) && a !in k.live
  {
    forall x | x in k.blocks ensures x + k.blocks[x] <= a {
      assert k.blocks[x] > 0 ==> Covers(k.blocks, x, x + k.blocks[x] - 1);
    }
  }

  lemma GrantedLinks(k: Kr, m: map<nat, Header>, a: nat, n: nat)
    requires Links(k) && (forall x :: x in k.ring ==> x < a) && forall x :: x in k.mem ==> x in m
    requires forall x :: x in k.mem && x < a ==> m[x] == k.mem[x]
    requires forall j :: 0 <= j < |k.ring| ==> k.ring[j] in k.mem
    ensures Links(Granted(k, m, a, n))
  {
    hide Ascending;
    var g := Granted(k, m, a, n);
    forall j {:trigger Ptr(g, g.ring[j])} | 0 <= j < |g.ring| ensures Ptr(g, g.ring[j]) == After(g.ring, j) {
      assert k.ring[j] in k.ring && Ptr(k, k.ring[j]) == After(k.ring, j);
    }
    assert k.ring[0] in k.ring;
  }

  lemma GrantedHeaders(k: Kr, m: map<nat, Header>, a: nat, n: nat)
    requires Headers(k) && a > BASE && n > 0 && (forall x :: x in k.ring ==> x < a)
    requires forall x :: x in k.blocks ==> x + k.blocks[x] <= a && k.blocks[x] > 0
    requires (forall x :: x in k.mem ==> x in m) && (forall u: nat :: a <= u < a + n ==> u in m) && m[a].size == n
    requires forall x :: x in k.mem && x < a ==> m[x] == k.mem[x]
    ensures Headers(Granted(k, m, a, n))
  {
  }

  lemma GrantedGaps(k: Kr, m: map<nat, Header>, a: nat, n: nat)
    requires Coalesced(k) && forall x :: x in k.ring ==> x < a
    ensures Coalesced(Granted(k, m, a, n))
  {
    var g := Granted(k, m, a, n);
    forall j {:trigger GapAt(g, j)} | 0 <= j < |g.ring| - 1 ensures GapAt(g, j) {
      assert GapAt(k, j) && k.ring[j] in k.ring;
    }
  }

  lemma GrantedTiling(blocks: map<nat, nat>, own: map<nat, nat>, a: nat, n: nat)
    requires Tiling(blocks, own) && a > BASE && n > 0 && (forall u :: u in own ==> u < a)
    requires forall x :: x in blocks ==> x + blocks[x] <= a
    ensures Tiling(blocks[a := n], GrantedOwn(own, a, n))
  {
    var bs, o := blocks[a := n], GrantedOwn(own, a, n);
    forall u | u in o ensures Covers(bs, o[u], u) {
      if u in own { assert Covers(blocks, own[u], u); }
    }
    forall c: nat, u: nat | Covers(bs, c, u) ensures u in o && o[u] == c {
      if c != a { assert Covers(blocks, c, u); }
    }
  }

  // ----- sbrk, and what a caller's own bytes see

  /** n new units at a, not part of the allocator's heap. */
  function Extended(k: Kr, a: nat, n: nat): Kr {
    k.(mem := ExtendedMem(k.mem, a, n))
  }

  function ExtendedMem(m: map<nat, Header>, a: nat, n: nat): map<nat, Header> {
    map u: nat | u in m.Keys + Units(a, n) :: if u in m then m[u] else Header(0, 0)
  }

  lemma ExtendedOk(k: Kr, a: nat, n: nat)
    requires Ok(k) && Coalesced(k)
    ensures Ok(Extended(k, a, n)) && Coalesced(Extended(k, a, n))
  {
    var g := Extended(k, a, n);
    hide Ascending;
    forall i {:trigger Ptr(g, g.ring[i])} | 0 <= i < |g.ring| ensures Ptr(g, g.ring[i]) == After(g.ring, i) {
      assert Ptr(k, k.ring[i]) == After(k.ring, i);
    }
    forall i {:trigger GapAt(g, i)} | 0 <= i < |g.ring| - 1 ensures GapAt(g, i) {
      assert GapAt(k, i);
    }
  }

  /** A block that is live in both heaps has the same size and the same contents in both. */
  ghost predicate KeepsLive(k: Kr, g: Kr) {
    forall a: nat, u: nat {:trigger Covers(k.blocks, a, u)} :: a in k.live && a in g.live && Covers(k.blocks, a, u) ==>
      && a in g.blocks && g.blocks[a] == k.blocks[a]
      && u in k.mem && u in g.mem && g.mem[u] == k.mem[u]
  }

  lemma KeepsLiveTwice(k: Kr, g: Kr, h: Kr)
    requires KeepsLive(k, g) && KeepsLive(g, h) && forall a :: a in k.live && a in h.live ==> a in g.live
    ensures KeepsLive(k, h)
  {
    forall a: nat, u: nat {:trigger Covers(k.blocks, a, u)} | a in k.live && a in h.live && Covers(k.blocks, a, u)
      ensures a in h.blocks && h.blocks[a] == k.blocks[a] && u in k.mem && u in h.mem && h.mem[u] == k.mem[u]
    {
      assert Covers(g.blocks, a, u);
    }
  }

  /** The start of a block, or base, lies inside no other block. */
  lemma StartNotInside(k: Kr, a: nat, u: nat)
    requires Ok(k) && a in k.blocks && (u == BASE || u in k.blocks) && u != a
    ensures !Covers(k.blocks, a, u)
  {
    if u != BASE { assert Covers(k.blocks, u, u); }
  }

  lemma LiveUnit(k: Kr, a: nat, u: nat)
    requires Ok(k) && a in k.live && Covers(k.blocks, a, u)
    ensures u in k.mem && (forall i :: 0 <= i < |k.ring| ==> k.ring[i] != u) && a in k.blocks
    ensures forall b :: b in k.blocks && b != a ==> !Covers(k.blocks, b, u) && b != u
  {
    forall i | 0 <= i < |k.ring| ensures k.ring[i] != u {
      assert k.ring[i] in k.ring;
      StartNotInside(k, a, k.ring[i]);
    }
    forall b | b in k.blocks && b != a ensures b != u { StartNotInside(k, a, b); }
  }

  lemma InsertKeeps(k: Kr, t: nat, b: nat)
    requires Ok(k) && t < |k.ring| && b in k.live && b in k.mem && k.ring[t] in k.mem
    ensures KeepsLive(k, Inserted(k, t, b))
  {
    var g := Inserted(k, t, b);
    forall a: nat, u: nat {:trigger Covers(k.blocks, a, u)} | a in k.live && a in g.live && Covers(k.blocks, a, u)
      ensures u in k.mem && u in g.mem && g.mem[u] == k.mem[u]
    {
      LiveUnit(k, a, u);
    }
  }

  lemma JoinKeeps(k: Kr, i: nat)
    requires Ok(k)
    ensures KeepsLive(k, JoinedIfTouching(k, i))
  {
    var g := JoinedIfTouching(k, i);
    forall a: nat, u: nat {:trigger Covers(k.blocks, a, u)} | a in k.live && a in g.live && Covers(k.blocks, a, u)
      ensures a in g.blocks && g.blocks[a] == k.blocks[a] && u in k.mem && u in g.mem && g.mem[u] == k.mem[u]
    {
      LiveUnit(k, a, u);
      assert forall j :: 0 <= j < |k.ring| ==> k.ring[j] in k.ring && k.ring[j] != a;
    }
  }

  lemma JoinLive(k: Kr, i: nat)
    ensures JoinedIfTouching(k, i).live == k.live
  {
  }

  /** free writes into no other live block. */
  lemma FreedKeeps(k: Kr, b: nat)
    requires Ok(k) && Coalesced(k) && b in k.live
    ensures |k.ring| > 0 && k.ring[0] < b && b in k.mem && k.ring[Below(k.ring, b, 0)] in k.mem
    ensures KeepsLive(k, Freed(k, b))
  {
    hide Ok; hide Inserted; hide Joined; hide KeepsLive;
    InsertOk(k, b);
    var t := Below(k.ring, b, 0);
    var g := Inserted(k, t, b);
    InsertSizes(k, t, b);
    InsertGaps(k, t, b);
    InsertLive(k, t, b);
    InsertKeeps(k, t, b);
    JoinIfTouchingOk(g, t + 1);
    JoinKeeps(g, t + 1);
    var h := JoinedIfTouching(g, t + 1);
    JoinKeeps(h, t);
    JoinLive(h, t);
    KeepsLiveTwice(k, g, h);
    KeepsLiveTwice(k, h, JoinedIfTouching(h, t));
  }

  lemma TakenKeeps(k: Kr, i: nat)
    requires Ok(k) && 0 < i < |k.ring| && k.ring[i - 1] in k.mem
    ensures KeepsLive(k, Taken(k, i))
  {
    var g := Taken(k, i);
    forall a: nat, u: nat {:trigger Covers(k.blocks, a, u)} | a in k.live && a in g.live && Covers(k.blocks, a, u)
      ensures u in k.mem && u in g.mem && g.mem[u] == k.mem[u]
    {
      LiveUnit(k, a, u);
    }
  }

  lemma CarvedKeeps(k: Kr, i: nat, n: nat)
    requires Ok(k) && 0 < i < |k.ring| && k.ring[i] in k.blocks && 0 < n < k.blocks[k.ring[i]] && k.ring[i] in k.mem
    ensures KeepsLive(k, Carved(k, i, n))
  {
    CarvedFresh(k, i, n);
    var g := Carved(k, i, n);
    forall a: nat, u: nat {:trigger Covers(k.blocks, a, u)} | a in k.live && a in g.live && Covers(k.blocks, a, u)
      ensures a in g.blocks && g.blocks[a] == k.blocks[a] && u in k.mem && u in g.mem && g.mem[u] == k.mem[u]
    {
      LiveUnit(k, a, u);
      assert Covers(k.blocks, k.ring[i], CarvedAt(k, i, n));
    }
  }

  lemma GrantedKeeps(k: Kr, m: map<nat, Header>, a: nat, n: nat)
    requires Ok(k) && (forall u :: u in k.own ==> u < a)
    requires forall x :: x in k.mem ==> x in m && (x < a ==> m[x] == k.mem[x])
    ensures KeepsLive(k, Granted(k, m, a, n))
  {
    forall c: nat, u: nat {:trigger Covers(k.blocks, c, u)} | c in k.live && Covers(k.blocks, c, u)
      ensures u in k.mem && u < a && c < a
    {
      LiveUnit(k, c, u);
      assert Covers(k.blocks, c, c);
    }
  }

  /** free's last writes, in the order the code makes them: b takes over a touching successor, then p takes over b or links to it. */
  function FreeWrites(m: map<nat, Header>, p: nat, b: nat): (r: map<nat, Header>)
    requires p in m && b in m && m[p].ptr in m
  {
    var next := m[p].ptr;
    var hb := if b + m[b].size == next then Header(m[next].ptr, m[b].size + m[next].size) else Header(next, m[b].size);
    if p + m[p].size == b then m[b := hb][p := Header(hb.ptr, m[p].size + hb.size)]
    else m[b := hb][p := Header(b, m[p].size)]
  }

  /** Those writes are insertion followed by joining. */
  lemma FreeWritesFreed(k: Kr, b: nat)
    requires Ok(k) && Coalesced(k) && b in k.live
    ensures |k.ring| > 0 && k.ring[0] < b && b in k.mem && k.ring[Below(k.ring, b, 0)] in k.mem
    ensures var p := k.ring[Below(k.ring, b, 0)]; k.mem[p].ptr in k.mem && Freed(k, b).mem == FreeWrites(k.mem, p, b)
  {
    InsertOk(k, b);
    var t := Below(k.ring, b, 0);
    var p := k.ring[t];
    RingMember(k, t);
    RingMember(k, 0);
    if t + 1 < |k.ring| { RingMember(k, t + 1); }
    NotOnRing(k, b, t);
    hide Tiling; hide Headers; hide Links; hide Ascending;
    FreeWritesInsert(k, t, b);
  }

  lemma FreeWritesInsert(k: Kr, t: nat, b: nat)
    requires t < |k.ring| && b in k.mem && b in k.blocks && k.mem[b].size == k.blocks[b] > 0 && k.ring[t] in k.mem
    requires k.ring[t] < b && k.mem[k.ring[t]].size == SizeAt(k, t) && Ptr(k, k.ring[t]) == After(k.ring, t)
    requires After(k.ring, t) in k.mem
    requires if t + 1 < |k.ring| then k.mem[k.ring[t + 1]].size == SizeAt(k, t + 1) && b + k.blocks[b] <= k.ring[t + 1] else k.ring[0] < b
    requires k.ring[t] + SizeAt(k, t) <= b && (t == 0 ==> k.ring[0] + SizeAt(k, 0) < b)
    ensures JoinedIfTouching(JoinedIfTouching(Inserted(k, t, b), t + 1), t).mem == FreeWrites(k.mem, k.ring[t], b)
  {
    var p, g := k.ring[t], Inserted(k, t, b);
    InsertSizes(k, t, b);
    assert g.ring[t] == p && g.ring[t + 1] == b;
    if t + 1 < |k.ring| { assert g.ring[t + 2] == k.ring[t + 1]; }
    var h := JoinedIfTouching(g, t + 1);
    assert h.ring[t] == p && h.ring[t + 1] == b && SizeAt(h, t) == SizeAt(g, t);
  }

  /** Writing behind the header of a live block leaves the heap as it is. */
  lemma StoreOk(k: Kr, b: nat, u: nat, h: Header)
    requires Ok(k) && Coalesced(k) && b in k.live && b in k.blocks && b < u < b + k.blocks[b]
    ensures Ok(k.(mem := k.mem[u := h])) && Coalesced(k.(mem := k.mem[u := h])) && u in k.mem && u in k.own
  {
    assert Covers(k.blocks, b, u);
    LiveUnit(k, b, u);
    var g := k.(mem := k.mem[u := h]);
    assert k.ring[0] != u;
    forall i {:trigger Ptr(g, g.ring[i])} | 0 <= i < |g.ring| ensures Ptr(g, g.ring[i]) == After(g.ring, i) {
      assert Ptr(k, k.ring[i]) == After(k.ring, i);
    }
    forall i {:trigger GapAt(g, i)} | 0 <= i < |g.ring| - 1 ensures GapAt(g, i) {
      assert GapAt(k, i);
    }
  }

  /** In an ascending list that b is not on, the search's test holds at one place only. */
  lemma TestIff(ring: seq<nat>, i: nat, b: nat)
    requires Ascending(ring) && i < |ring| && ring[0] < b && b !in ring
    ensures var p, next := ring[i], After(ring, i);
      (b > p && b < next) || (p >= next && (b > p || b < next)) <==> i == Below(ring, b, 0)
  {
    var t := Below(ring, b, 0);
    assert ring[t] < b && (t + 1 < |ring| ==> ring[t + 1] in ring);
    assert t < i ==> ring[t + 1] <= ring[i];
    assert i < t ==> ring[i + 1] <= ring[t];
  }

  /** The place of b is found where its search stops: only between its neighbours, or at the end of the list. */
  lemma PlaceIff(k: Kr, i: nat, b: nat)
    requires Ok(k) && b in k.live && i < |k.ring|
    ensures k.ring[0] < b
    ensures var p, next := k.ring[i], After(k.ring, i);
      (b > p && b < next) || (p >= next && (b > p || b < next)) <==> i == Below(k.ring, b, 0)
  {
    hide Below, Ascending, Inserted, Tiling, Headers, Ptr, SizeAt, After;
    InsertOk(k, b);
    forall j: nat | j < |k.ring| ensures k.ring[j] != b { NotOnRing(k, b, j); }
    TestIff(k.ring, i, b);
  }

  /** The block that b was put behind is on the list afterwards. */
  lemma FreedRing(k: Kr, b: nat)
    requires Ok(k) && Coalesced(k) && b in k.live
    ensures |k.ring| > 0 && k.ring[0] < b && b in k.mem && k.ring[Below(k.ring, b, 0)] in k.mem
    ensures k.ring[Below(k.ring, b, 0)] in Freed(k, b).ring && k.ring[Below(k.ring, b, 0)] != 0
  {
    RingMember(k, Below(k.ring, b, 0));
    RingAbove(k, Below(k.ring, b, 0));
    hide Ok; hide Coalesced; hide JoinedIfTouching;
    InsertOk(k, b);
    var t := Below(k.ring, b, 0);
    var g := Inserted(k, t, b);
    InsertSizes(k, t, b);
    assert g.ring[t] == k.ring[t];
    JoinKeepsStart(g, t + 1, t);
    JoinKeepsStart(JoinedIfTouching(g, t + 1), t, t);
  }

  lemma JoinKeepsStart(k: Kr, i: nat, j: nat)
    requires j <= i && j < |k.ring|
    ensures j < |JoinedIfTouching(k, i).ring| && JoinedIfTouching(k, i).ring[j] == k.ring[j]
  {
  }

  /** free takes no memory and gives none back. */
  lemma FreedMem(k: Kr, b: nat)
    requires Ok(k) && Coalesced(k) && b in k.live
    ensures |k.ring| > 0 && k.ring[0] < b && b in k.mem && k.ring[Below(k.ring, b, 0)] in k.mem
    ensures Freed(k, b).mem.Keys == k.mem.Keys
  {
    FreeWritesFreed(k, b);
  }

  /** Some free block has at least n units. */
  ghost predicate HasRoom(k: Kr, n: nat) {
    exists j {:trigger SizeAt(k, j)} :: 0 <= j < |k.ring| && SizeAt(k, j) >= n
  }

  /** After free there is a block at least as big as the one freed. */
  lemma FreedRoom(k: Kr, b: nat)
    requires Ok(k) && Coalesced(k) && b in k.live
    ensures |k.ring| > 0 && k.ring[0] < b && b in k.mem && k.ring[Below(k.ring, b, 0)] in k.mem && b in k.blocks
    ensures HasRoom(Freed(k, b), k.blocks[b])
  {
    hide Ok; hide Inserted; hide Joined; hide Coalesced;
    InsertOk(k, b);
    var t := Below(k.ring, b, 0);
    var g := Inserted(k, t, b);
    InsertSizes(k, t, b);
    InsertGaps(k, t, b);
    JoinIfTouchingOk(g, t + 1);
    var h := JoinedIfTouching(g, t + 1);
    assert h.ring[t] == g.ring[t] && h.ring[t + 1] == b && SizeAt(h, t) == SizeAt(g, t) && SizeAt(h, t + 1) >= k.blocks[b];
    JoinIfTouchingOk(h, t);
    var w := JoinedIfTouching(h, t);
    if w != h {
      assert w.ring[t] == h.ring[t] && SizeAt(w, t) == SizeAt(h, t) + SizeAt(h, t + 1);
    }
  }

  /** The last block on the list ends at `end`, and all others are smaller than n. */
  ghost predicate OnlyLast(k: Kr, n: nat, end: nat) {
    |k.ring| > 0 && k.ring[|k.ring| - 1] + SizeAt(k, |k.ring| - 1) == end && forall j {:trigger SizeAt(k, j)} :: 0 <= j < |k.ring| - 1 ==> SizeAt(k, j) < n
  }

  /** A block above the whole list goes to its end, or into the last block if it touches that. */
  lemma FreedAtEnd(k: Kr, b: nat, n: nat)
    requires Ok(k) && Coalesced(k) && b in k.live && n > 0 && (forall x :: x in k.ring ==> x < b) && !HasRoom(k, n)
    ensures |k.ring| > 0 && k.ring[0] < b && b in k.mem && k.ring[Below(k.ring, b, 0)] in k.mem && b in k.blocks
    ensures OnlyLast(Freed(k, b), n, b + k.blocks[b])
  {
    hide Ok, Inserted, Joined, Coalesced;
    InsertOk(k, b);
    var t := Below(k.ring, b, 0);
    forall i | 0 <= i < |k.ring| ensures k.ring[i] < b { assert k.ring[i] in k.ring; }
    var g := Inserted(k, t, b);
    InsertSizes(k, t, b);
    InsertGaps(k, t, b);
    JoinIfTouchingOk(g, t + 1);
    assert JoinedIfTouching(g, t + 1) == g;
    forall j | 0 <= j <= t ensures SizeAt(g, j) < n { assert g.ring[j] == k.ring[j] && SizeAt(k, j) < n; }
    JoinIfTouchingOk(g, t);
    var w := JoinedIfTouching(g, t);
    if w != g {
      assert w.ring[t] == g.ring[t];
      forall j | 0 <= j < t ensures SizeAt(w, j) < n { assert w.ring[j] == g.ring[j]; }
    }
  }

  /** Memory granted above the list changes no size along it. */
  lemma GrantedRoom(k: Kr, m: map<nat, Header>, a: nat, nu: nat, n: nat)
    requires forall x :: x in k.ring ==> x < a
    ensures HasRoom(Granted(k, m, a, nu), n) ==> HasRoom(k, n)
  {
    var g := Granted(k, m, a, nu);
    if j: nat :| j < |g.ring| && SizeAt(g, j) >= n {
      assert k.ring[j] in k.ring && SizeAt(k, j) == SizeAt(g, j);
    }
  }

  lemma ExtendedRoom(k: Kr, a: nat, nu: nat, n: nat)
    ensures HasRoom(Extended(k, a, nu), n) ==> HasRoom(k, n)
  {
    var g := Extended(k, a, nu);
    if j: nat :| j < |g.ring| && SizeAt(g, j) >= n { assert SizeAt(k, j) == SizeAt(g, j); }
  }

  lemma RoomForLess(k: Kr, m: nat, n: nat)
    requires HasRoom(k, m) && n <= m
    ensures HasRoom(k, n)
  {
  }

  lemma RoomAt(k: Kr, i: nat, n: nat)
    requires i < |k.ring| && SizeAt(k, i) >= n
    ensures HasRoom(k, n)
  {
  }

  lemma KeepsItself(k: Kr)
    requires Ok(k) || k.live == {}
    ensures KeepsLive(k, k)
  {
    forall a: nat, u: nat {:trigger Covers(k.blocks, a, u)} | a in k.live && Covers(k.blocks, a, u) ensures u in k.mem {
      LiveUnit(k, a, u);
    }
  }

  lemma ExtendedKeeps(k: Kr, a: nat, n: nat)
    requires Ok(k)
    ensures KeepsLive(k, Extended(k, a, n))
  {
    KeepsItself(k);
  }

  /** The list of base alone, as the first malloc sets it up. */
  lemma FirstOk(k: Kr)
    requires k.ring == [BASE] && k.live == {} && k.blocks == map[] && k.own == map[]
    requires BASE in k.mem && k.mem[BASE] == Header(BASE, 0)
    ensures Ok(k) && Coalesced(k)
    ensures forall n: nat :: n > 0 ==> !HasRoom(k, n)
  {
  }

  lemma NoRing(k: Kr, n: nat)
    requires k.ring == []
    ensures !HasRoom(k, n)
  {
  }

  lemma NoneToKeep(k: Kr, g: Kr)
    requires k.live == {}
    ensures KeepsLive(k, g)
  {
  }

  /** An address stands at one place of the list only. */
  lemma SamePlace(k: Kr, i: nat, j: nat)
    requires Ok(k) && i < |k.ring| && j < |k.ring| && k.ring[i] == k.ring[j]
    ensures i == j
  {
  }

  /** The block before the one taken stays on the list. */
  lemma TakenRing(k: Kr, i: nat)
    requires 0 < i < |k.ring| && k.ring[i - 1] in k.mem
    ensures k.ring[i - 1] in Taken(k, i).ring
  {
    assert Taken(k, i).ring[i - 1] == k.ring[i - 1];
  }

  lemma RingAbove(k: Kr, i: nat)
    requires Ok(k) && i < |k.ring|
    ensures BASE <= k.ring[i]
  {
    assert k.ring[0] <= k.ring[i];
  }

  /** A list position with units to give is not base. */
  lemma BigNotBase(k: Kr, i: nat)
    requires Ok(k) && i < |k.ring| && k.ring[i] in k.mem && k.mem[k.ring[i]].size > 0
    ensures i > 0 && k.ring[i] in k.ring && k.ring[i] in k.blocks && k.blocks[k.ring[i]] == k.mem[k.ring[i]].size
    ensures k.ring[i - 1] in k.ring && k.ring[i - 1] in k.mem && k.ring[i - 1] != 0
    ensures k.mem[k.ring[i]].ptr == After(k.ring, i)
  {
    RingMember(k, i);
    RingAbove(k, i - 1);
  }

  lemma BlockUnits(k: Kr, a: nat, u: nat)
    requires Ok(k) && a in k.blocks && a <= u < a + k.blocks[a]
    ensures u in k.mem && u in k.own
  {
    assert Covers(k.blocks, a, u);
  }
}
