// What the dispatcher and the timer interrupt do to the process table, the two
// queues and the shares, as functions on values. A process is its slot, 1 to
// NPROC; slot 0 stands for what a null pointer points at.
module SchedSpec {
  import opened Heap
  import opened Fair
  import Share

  const TOTALTICKETS := 10000
  const MAXSHARE := 80
  const PRIORITYBOOST := 100
  const MOD32 := 0x1_0000_0000

  datatype PState = Runnable | Running | Sleeping | Other

  datatype Proc = Proc(state: PState, qlev: nat, qticks: nat, tickets: int, stride: int, pass: int)

  /** What a call of set_cpu_share comes to. */
  datatype Outcome = Granted | Refused | DividesByZero

  function LevKey(procs: seq<Proc>): Key { (x: nat) => if x < |procs| then procs[x].qlev as int else 0 }

  function PassKey(procs: seq<Proc>): Key { (x: nat) => if x < |procs| then procs[x].pass else 0 }

  lemma KeysAre(procs: seq<Proc>)
    ensures forall x: nat :: x < |procs| ==> LevKey(procs)(x) == procs[x].qlev
    ensures forall x: nat :: x < |procs| ==> PassKey(procs)(x) == procs[x].pass
  {
  }

  lemma PassOf(procs: seq<Proc>, x: nat)
    requires x < |procs|
    ensures PassKey(procs)(x) == procs[x].pass
  {
  }

  /** Process numbers, each at most once. */
  ghost predicate Members(bag: multiset<nat>) {
    forall x :: x in bag ==> 1 <= x <= NPROC && bag[x] == 1
  }

  ghost predicate Levels(procs: seq<Proc>) {
    forall x :: 0 <= x < |procs| ==> procs[x].qlev <= 2 && procs[x].tickets >= 0
  }

  lemma LevelOf(procs: seq<Proc>, p: nat)
    requires Levels(procs) && p < |procs|
    ensures procs[p].qlev <= 2 && procs[p].tickets >= 0
  {
  }

  /** Nobody stands lower. */
  ghost predicate Lowest(procs: seq<Proc>, p: nat) {
    p < |procs| && forall x :: 0 <= x < |procs| ==> procs[x].qlev <= procs[p].qlev
  }

  lemma LowestIs(procs: seq<Proc>, p: nat)
    requires Levels(procs) && p < |procs| && procs[p].qlev == 2
    ensures Lowest(procs, p)
  {
  }

  /** The processes of the stride queue have bought a share. */
  ghost predicate Charged(bag: multiset<nat>, procs: seq<Proc>) {
    forall x :: x in bag ==> x < |procs| && procs[x].tickets > 0
  }

  function Slots(n: nat): (s: set<nat>)
    ensures (forall x :: x in s <==> 1 <= x <= n) && |s| == n
  {
    if n == 0 then {} else Slots(n - 1) + {n}
  }

  /** A list without repeats is no longer than what it draws from. */
  lemma {:induction false} Pigeons(s: seq<nat>, from: set<nat>)
    requires forall x :: x in multiset(s) ==> x in from && multiset(s)[x] == 1
    ensures |s| <= |from|
  {
    if s != [] {
      var x, rest := s[|s| - 1], s[..|s| - 1];
      assert s == rest + [x];
      assert multiset(s)[x] == 1 && x in multiset(s);
      forall y | y in multiset(rest) ensures y in from - {x} && multiset(rest)[y] == 1 {
        assert y in multiset(s);
      }
      Pigeons(rest, from - {x});
    }
  }

  /** A queue that some process is not in has room for it. */
  lemma RoomFor(s: seq<nat>, n: nat, p: nat)
    requires n < |s| && Members(Bag(s, n)) && 1 <= p <= NPROC && p !in Bag(s, n)
    ensures n < NPROC
  {
    Pigeons(s[1..n + 1], Slots(NPROC) - {p});
  }

  lemma MembersLess(a: multiset<nat>, p: nat)
    requires Members(a) && p in a
    ensures Members(a - multiset{p}) && p !in a - multiset{p} && 1 <= p <= NPROC && a - multiset{p} + multiset{p} == a
  {
  }

  lemma MembersMore(a: multiset<nat>, p: nat)
    requires Members(a) && p !in a && 1 <= p <= NPROC
    ensures Members(a + multiset{p}) && p in a + multiset{p}
  {
  }

  lemma DistinctMembers(s: seq<nat>, n: nat)
    requires n < |s| && Members(Bag(s, n))
    ensures Distinct(s, n)
  {
    forall i, j | 1 <= i < j <= n ensures s[i] != s[j] {
      assert s[1..n + 1] == s[1..j] + s[j..n + 1];
      assert s[1..j][i - 1] == s[i] && s[j..n + 1][0] == s[j];
      assert s[i] in multiset(s[1..j]) && s[j] in multiset(s[j..n + 1]);
      assert Bag(s, n) == multiset(s[1..j]) + multiset(s[j..n + 1]);
      assert Bag(s, n)[s[j]] == 1;
    }
  }

  lemma OneLevelIs(s: seq<nat>, n: nat, procs: seq<Proc>, level: nat)
    requires n < |s| && forall p :: p in Bag(s, n) ==> p < |procs| && procs[p].qlev == level
    ensures Level(s, n, LevKey(procs), level)
  {
    forall i | 1 <= i <= n ensures LevKey(procs)(s[i]) == level {
      BagSet(s, n, i, 0);
    }
  }

  /** A change to one process keeps the MLFQ in order unless it changes the level of a queued one. */
  lemma LevelsStay(q: Queue, procs: seq<Proc>, procs': seq<Proc>, p: nat)
    requires q.Valid() && p < |procs| == |procs'| && procs' == procs[p := procs'[p]]
    requires q.InOrder(LevKey(procs)) && (p in q.Items() ==> procs'[p].qlev == procs[p].qlev)
    ensures q.InOrder(LevKey(procs'))
  {
    OrderedSameKeys(q.heap[..], q.count, LevKey(procs), LevKey(procs'));
  }

  lemma PassesStay(q: Queue, procs: seq<Proc>, procs': seq<Proc>, p: nat)
    requires q.Valid() && p < |procs| == |procs'| && procs' == procs[p := procs'[p]]
    requires p in q.Items() ==> procs'[p].pass == procs[p].pass
    ensures q.InOrder(PassKey(procs)) ==> q.InOrder(PassKey(procs'))
  {
    if q.InOrder(PassKey(procs)) { OrderedSameKeys(q.heap[..], q.count, PassKey(procs), PassKey(procs')); }
  }

  lemma RecordsStay(bag: multiset<nat>, procs: seq<Proc>, procs': seq<Proc>, p: nat)
    requires p < |procs| == |procs'| && procs' == procs[p := procs'[p]] && Levels(procs) && Charged(bag, procs)
    requires procs'[p].qlev <= 2 && procs'[p].tickets >= 0 && (p in bag ==> procs'[p].tickets > 0)
    ensures Levels(procs') && Charged(bag, procs')
  {
  }

  lemma ChargedLess(bag: multiset<nat>, procs: seq<Proc>, p: nat)
    requires Charged(bag, procs) && p in bag
    ensures Charged(bag - multiset{p}, procs) && p < |procs| && procs[p].tickets > 0
  {
  }

  lemma ChargedMore(bag: multiset<nat>, procs: seq<Proc>, p: nat)
    requires Charged(bag, procs) && p < |procs| && procs[p].tickets > 0
    ensures Charged(bag + multiset{p}, procs)
  {
  }

  lemma ChargedOf(bag: multiset<nat>, procs: seq<Proc>, p: nat)
    requires Charged(bag, procs) && p in bag
    ensures p < |procs| && procs[p].tickets > 0
  {
  }

  /** The processes of a queue, and the one it has handed out unless that is 0. */
  ghost function Among(bag: multiset<nat>, runner: nat): set<nat> {
    set x: nat | x <= NPROC && 1 <= x && (x in bag || x == runner)
  }

  lemma AmongMore(bag: multiset<nat>, p: nat)
    requires 1 <= p <= NPROC
    ensures Among(bag + multiset{p}, 0) == Among(bag, p) == Among(bag, 0) + {p}
    ensures p in bag ==> Among(bag, 0) == Among(bag, 0) + {p}
  {
  }

  lemma AmongLess(bag: multiset<nat>, p: nat)
    requires Members(bag) && p in bag
    ensures Among(bag - multiset{p}, 0) == Among(bag, 0) - {p} && Among(bag - multiset{p}, p) == Among(bag, 0)
    ensures p in Among(bag, 0)
  {
  }

  lemma AmongIs(bag: multiset<nat>, p: nat)
    ensures p in Among(bag, 0) <==> p in bag && 1 <= p <= NPROC
  {
  }

  /** The pool of the stride queue: what its processes' passes, strides and ticks are. */
  ghost function PoolOf(bag: multiset<nat>, runner: nat, procs: seq<Proc>, got: seq<nat>): (r: Share.Pool)
    requires |procs| == |got| == NPROC + 1
    ensures r.Keys == Among(bag, runner)
  {
    map x: nat | x in Among(bag, runner) :: Share.Account(procs[x].pass, procs[x].stride, got[x])
  }

  /** One account changes, or is new. */
  lemma PoolSet(bag: multiset<nat>, runner: nat, procs: seq<Proc>, got: seq<nat>,
                bag': multiset<nat>, runner': nat, procs': seq<Proc>, got': seq<nat>, x: nat)
    requires |procs| == |got| == |procs'| == |got'| == NPROC + 1 && 1 <= x <= NPROC
    requires procs' == procs[x := procs'[x]] && got' == got[x := got'[x]]
    requires Among(bag', runner') == Among(bag, runner) + {x}
    ensures PoolOf(bag', runner', procs', got') ==
            PoolOf(bag, runner, procs, got)[x := Share.Account(procs'[x].pass, procs'[x].stride, got'[x])]
  {
  }

  /** Neither the pool nor anybody's pass and stride change. */
  lemma PoolSame(bag: multiset<nat>, runner: nat, procs: seq<Proc>, got: seq<nat>,
                 bag': multiset<nat>, runner': nat, procs': seq<Proc>)
    requires |procs| == |got| == |procs'| == NPROC + 1 && Among(bag', runner') == Among(bag, runner)
    requires forall z: nat :: z < |procs| ==> procs'[z].pass == procs[z].pass && procs'[z].stride == procs[z].stride
    ensures PoolOf(bag', runner', procs', got) == PoolOf(bag, runner, procs, got)
  {
  }

  lemma PoolLess(bag: multiset<nat>, procs: seq<Proc>, got: seq<nat>, x: nat)
    requires |procs| == |got| == NPROC + 1 && Members(bag) && x in bag
    ensures PoolOf(bag - multiset{x}, 0, procs, got) == PoolOf(bag, 0, procs, got) - {x}
  {
    AmongLess(bag, x);
  }

  lemma PoolLeast(bag: multiset<nat>, procs: seq<Proc>, got: seq<nat>, x: nat)
    requires |procs| == |got| == NPROC + 1 && Members(bag) && x in bag && NoLess(bag, x, PassKey(procs))
    ensures Share.Least(PoolOf(bag, 0, procs, got), x)
  {
    KeysAre(procs);
  }

  /** Another member of the queue stands where p does. */
  ghost predicate Beside(bag: multiset<nat>, procs: seq<Proc>, p: nat) {
    exists y :: y in bag && y != p && y < |procs| && p < |procs| && procs[y].pass == procs[p].pass
  }

  /** A sleeper at the head of the queue is put back beside another process. */
  lemma PoolPark(bag: multiset<nat>, procs: seq<Proc>, procs': seq<Proc>, got: seq<nat>, p: nat)
    requires |procs| == |got| == |procs'| == NPROC + 1 && Members(bag) && p in bag && NoLess(bag, p, PassKey(procs))
    requires p < |procs| && procs' == procs[p := procs[p].(pass := procs'[p].pass)] && Beside(bag, procs', p)
    ensures Share.Step(PoolOf(bag, 0, procs, got), Share.Parks(p, procs'[p].pass), PoolOf(bag, 0, procs', got))
  {
    PoolLeast(bag, procs, got, p);
    AmongMore(bag, p);
    MembersLess(bag, p);
    PoolSet(bag, 0, procs, got, bag, 0, procs', got, p);
    var y :| y in bag && y != p && y < |procs'| && procs'[y].pass == procs'[p].pass;
    assert y in PoolOf(bag, 0, procs, got) && PoolOf(bag, 0, procs, got)[y].pass == procs'[p].pass;
  }

  /** Processes on both sides at once: queued on one, and queued or taken from the queue on the other. */
  ghost function Twice(mbag: multiset<nat>, sbag: multiset<nat>, cur: nat, fromStride: bool): set<nat> {
    Among(mbag, if fromStride then 0 else cur) * Among(sbag, if fromStride then cur else 0)
  }

  /** What the MLFQ side of scheduler does to the process it takes: run it, park a sleeper at the bottom, or drop it. */
  function PickedMlfq(p: Proc): Proc {
    if p.state.Runnable? && p.tickets <= 0 then p.(state := PState.Running)
    else if p.state.Sleeping? then p.(qlev := 2, qticks := 0)
    else p
  }

  function PickedStride(p: Proc, last: int): Proc {
    if p.state.Runnable? then p.(state := PState.Running)
    else if p.state.Sleeping? then p.(pass := last)
    else p
  }

  /** The timer branch's effect on the running process. */
  function TickedProc(p: Proc): Proc {
    if p.tickets == 0 then
      var (l, t, done) := Ticked(p.qlev, p.qticks);
      p.(qlev := l, qticks := t, state := if done then Runnable else p.state)
    else p.(pass := p.pass + p.stride, state := Runnable)
  }

  /** The process after k ticks on the processor, if no boost comes. */
  function TickedTimes(p: Proc, k: nat): Proc {
    if k == 0 then p else TickedProc(TickedTimes(p, k - 1))
  }

  /** Without tickets of its own a process goes down the levels and its pass stays; with tickets it is the other way round. */
  lemma {:induction false} TicksCount(p: Proc, k: nat)
    ensures var q := TickedTimes(p, k);
      if p.tickets == 0
      then (q.qlev, q.qticks) == Climbed(p.qlev, p.qticks, k) && q == p.(qlev := q.qlev, qticks := q.qticks, state := q.state)
      else q.pass == p.pass + k * p.stride && q == p.(pass := q.pass, state := q.state)
  {
    if k > 0 {
      TicksCount(p, k - 1);
      OneMore(k - 1, p.stride);
    }
  }

  /** A process just forked: level 0 for five ticks, level 1 for ten more, then level 2. */
  lemma LevelAfter(p: Proc, k: nat)
    requires p.tickets == 0 && p.qlev == 0 && p.qticks == 0
    ensures TickedTimes(p, k).qlev == if k < 5 then 0 else if k < 15 then 1 else 2
  {
    TicksCount(p, k);
    Ladder(k);
  }

  /** Whoever stands in the last slot once the head has been taken. */
  function LastLeft(s: seq<nat>, n: nat, key: Key): nat
    requires 1 < n < |s|
  {
    Without(s, n, key)[n - 1]
  }

  /** The low 32 bits as a signed int. */
  function Int32(x: int): int { (x + MOD32 / 2) % MOD32 - MOD32 / 2 }

  /** C's division, towards zero. */
  function Trunc(a: int, b: int): int
    requires b != 0
  {
    if a >= 0 then a / b else -(-a / b)
  }

  /** The tickets of a share, the product wrapping as an int does. */
  function TicketsOf(share: int): int { Trunc(Int32(TOTALTICKETS * share), 100) }

  /** Within the ints a share is a hundred tickets for each percent. */
  lemma TicketsOfShare(share: int)
    requires -0x8000_0000 <= TOTALTICKETS * share < 0x8000_0000
    ensures TicketsOf(share) == 100 * share
  {
  }

  lemma Floor(a: int, b: int)
    requires a >= b > 0
    ensures 1 <= a / b && a / b * b <= a < (a / b + 1) * b
  {
    assert a == a / b * b + a % b;
  }

  /** The stride of t tickets: TOTALTICKETS / t, cut to an integer. */
  predicate IsStride(q: int, t: int) { 1 <= q && q * t <= TOTALTICKETS < (q + 1) * t }

  lemma TruncShare(mt: int, st: int, t: int)
    requires 2000 <= mt <= TOTALTICKETS && st == TOTALTICKETS - mt && 0 < t <= st
    ensures IsStride(Trunc(TOTALTICKETS, mt), mt) && Trunc(TOTALTICKETS, mt) <= 5 && IsStride(Trunc(TOTALTICKETS, st), st)
    ensures Trunc(st, t) >= 1
  {
    Floor(TOTALTICKETS, mt);
    Floor(TOTALTICKETS, st);
    Floor(st, t);
  }

  /** The record of a process that has bought tickets. */
  function Sharing(p: Proc, tickets: int, stickets: int, pass: int): Proc {
    p.(tickets := tickets, stride := if tickets == 0 then p.stride else Trunc(stickets, tickets), pass := pass)
  }

  lemma LastBeside(s: seq<nat>, n: nat, procs: seq<Proc>, left: multiset<nat>, p: nat)
    requires 0 < n < |s| && Bag(s, n) == left - multiset{p} && Members(left) && Charged(left, procs)
    ensures s[n] in left && s[n] != p && s[n] < |procs|
  {
    BagSet(s, n, n, s[n]);
  }

  lemma LastLater(procs: seq<Proc>, left: multiset<nat>, p: nat, y: nat)
    requires NoLess(left, p, PassKey(procs)) && y in left && y < |procs| && p < |procs|
    ensures procs[p].pass <= procs[y].pass
  {
    KeysAre(procs);
  }

  lemma BesideIs(bag: multiset<nat>, procs: seq<Proc>, p: nat, y: nat)
    requires y in bag && y != p && y < |procs| && p < |procs| && procs[y].pass == procs[p].pass
    ensures Beside(bag, procs, p)
  {
  }

  /** The running process's pass changes where it stands in the queue. */
  lemma Rekeyed(q: Queue, procs: seq<Proc>, procs': seq<Proc>, p: nat)
    requires q.Valid() && Members(q.Items()) && p < |procs| == |procs'| && procs' == procs[p := procs'[p]]
    ensures q.InOrder(PassKey(procs)) ==>
      (q.InOrder(PassKey(procs')) <==> KeyFits(q.heap[..], q.count, PassKey(procs), p, procs'[p].pass))
  {
    DistinctMembers(q.heap[..], q.count);
    KeysAre(procs');
    if q.InOrder(PassKey(procs)) { RekeyIff(q.heap[..], q.count, PassKey(procs), PassKey(procs'), p); }
  }

  lemma HeadIs(s: seq<nat>, n: nat, procs: seq<Proc>)
    requires 0 < n < |s| && Charged(Bag(s, n), procs)
    ensures s[1] in Bag(s, n) && s[1] < |procs|
  {
    BagSet(s, n, 1, s[1]);
  }

  /** A process that has been handed out counts as if it were still in its queue. */
  lemma Back(mbag: multiset<nat>, sbag: multiset<nat>, p: nat)
    requires 1 <= p <= NPROC
    ensures Twice(mbag + multiset{p}, sbag, 0, false) == Twice(mbag, sbag, p, false)
    ensures Twice(mbag, sbag + multiset{p}, 0, true) == Twice(mbag, sbag, p, true)
    ensures Among(sbag + multiset{p}, 0) == Among(sbag, p) == Among(sbag, 0) + {p} == Among(sbag, p) + {p}
    ensures p in sbag ==> Among(sbag, 0) == Among(sbag, 0) + {p}
  {
    AmongMore(mbag, p);
    AmongMore(sbag, p);
  }

  lemma InPool(bag: multiset<nat>, runner: nat, procs: seq<Proc>, got: seq<nat>, p: nat)
    requires |procs| == |got| == NPROC + 1 && 1 <= p <= NPROC && (p in bag || p == runner)
    ensures var q := PoolOf(bag, runner, procs, got); p in q && q[p] == Share.Account(procs[p].pass, procs[p].stride, got[p])
  {
  }

  lemma StepStays(p: Share.Pool)
    ensures Share.Step(p, Share.Stay, p)
  {
  }

  lemma AmongRunner(bag: multiset<nat>, p: nat, cur: nat)
    requires 1 <= p <= NPROC && p != cur
    ensures Among(bag + multiset{p}, cur) == Among(bag, cur) + {p} && (p in Among(bag, cur) <==> p in bag)
  {
  }

  lemma PoolOther(bag: multiset<nat>, runner: nat, procs: seq<Proc>, procs': seq<Proc>, got: seq<nat>, p: nat)
    requires |procs| == |got| == |procs'| == NPROC + 1 && p < |procs| && procs' == procs[p := procs'[p]] && p !in bag && p != runner
    ensures PoolOf(bag, runner, procs', got) == PoolOf(bag, runner, procs, got)
  {
  }

  lemma TwiceJoins(mbag: multiset<nat>, sbag: multiset<nat>, p: nat)
    requires 1 <= p <= NPROC
    ensures Twice(mbag, sbag + multiset{p}, p, false) == Twice(mbag, sbag, p, false) + {p}
  {
    AmongMore(mbag, p);
    AmongMore(sbag, p);
  }

  /** What the turn to the MLFQ means for both sides: the process runs, is parked, or is dropped. */
  lemma MlfqSide(procs: seq<Proc>, procs': seq<Proc>, got: seq<nat>, mbag: multiset<nat>, sbag: multiset<nat>, p: nat, f: bool)
    requires |procs| == |got| == NPROC + 1 && Members(mbag) && p in mbag && p < |procs| && Charged(sbag, procs)
    requires procs' == procs[p := PickedMlfq(procs[p])]
    ensures Twice(mbag - multiset{p}, sbag, 0, f) == Twice(mbag, sbag, 0, f) - {p}
    ensures Twice(mbag - multiset{p}, sbag, p, false) == Twice(mbag, sbag, 0, f) == Twice(mbag, sbag, 0, false)
    ensures PoolOf(sbag, 0, procs', got) == PoolOf(sbag, 0, procs, got)
    ensures procs[p].tickets <= 0 ==> p !in PoolOf(sbag, 0, procs', got)
  {
    AmongLess(mbag, p);
    if p in sbag { ChargedOf(sbag, procs, p); }
    PoolSame(sbag, 0, procs, got, sbag, 0, procs');
  }

  /** What the turn to the stride queue means for both sides. */
  lemma StrideSide(procs: seq<Proc>, procs': seq<Proc>, got: seq<nat>, mbag: multiset<nat>, sbag: multiset<nat>, p: nat, line: bool, f: bool)
    requires |procs| == |procs'| == |got| == NPROC + 1 && Members(sbag) && p in sbag && p < |procs|
    requires procs' == procs[p := PickedStride(procs[p], procs'[p].pass)] && (line ==> NoLess(sbag, p, PassKey(procs)))
    requires procs[p].state.Sleeping? ==> Beside(sbag, procs', p)
    ensures Twice(mbag, sbag - multiset{p}, 0, f) == Twice(mbag, sbag, 0, f) - {p}
    ensures Twice(mbag, sbag - multiset{p}, p, true) == Twice(mbag, sbag, 0, f) == Twice(mbag, sbag, 0, true)
    ensures procs[p].state.Runnable? ==> var q := PoolOf(sbag - multiset{p}, p, procs', got);
      Share.Step(PoolOf(sbag, 0, procs, got), Share.Stay, q) && (line ==> Share.Least(q, p))
    ensures procs[p].state.Sleeping? && line ==>
      Share.Step(PoolOf(sbag, 0, procs, got), Share.Parks(p, procs'[p].pass), PoolOf(sbag, 0, procs', got))
    ensures !procs[p].state.Runnable? && !procs[p].state.Sleeping? ==>
      Share.Step(PoolOf(sbag, 0, procs, got), Share.Leaves(p), PoolOf(sbag - multiset{p}, 0, procs', got))
  {
    AmongLess(sbag, p);
    if procs[p].state.Runnable? {
      PoolSame(sbag, 0, procs, got, sbag - multiset{p}, p, procs');
      if line { PoolLeast(sbag, procs, got, p); }
    } else if procs[p].state.Sleeping? {
      if line { PoolPark(sbag, procs, procs', got, p); }
    } else {
      PoolLess(sbag, procs', got, p);
    }
  }

  /** A newcomer stands level with the head, so it is one of those that stand last. */
  lemma PoolJoins(s: seq<nat>, n: nat, procs: seq<Proc>, procs': seq<Proc>, got: seq<nat>, p: nat)
    requires n < |s| && |procs| == |procs'| == |got| == NPROC + 1 && 1 <= p <= NPROC && Members(Bag(s, n)) && p !in Bag(s, n)
    requires Ordered(s, n, PassKey(procs)) && procs' == procs[p := procs'[p]]
    requires n > 0 ==> s[1] < |procs| && procs'[p].pass == procs[s[1]].pass
    ensures var a := Share.Account(procs'[p].pass, procs'[p].stride, got[p]);
      var q := PoolOf(Bag(s, n) + multiset{p}, 0, procs', got);
      Share.Step(PoolOf(Bag(s, n), 0, procs, got), Share.Joins(p, a), q) && Share.Least(q, p)
  {
    AmongMore(Bag(s, n), p);
    PoolSet(Bag(s, n), 0, procs, got, Bag(s, n) + multiset{p}, 0, procs', got, p);
    if n > 0 {
      RootLeastOfAll(s, n, PassKey(procs));
      BagSet(s, n, 1, s[1]);
      PoolLeast(Bag(s, n), procs, got, s[1]);
    } else {
      NoneLeft(s);
      assert PoolOf(Bag(s, n), 0, procs, got) == map[];
    }
  }

  /** The slots before i have been boosted. */
  ghost predicate Boosted(procs: seq<Proc>, procs': seq<Proc>, s: seq<nat>, i: nat)
    requires 1 <= i <= |s| && |procs'| == |procs|
  {
    forall x :: 0 <= x < |procs| ==> procs'[x] == if x in s[1..i] then procs[x].(qlev := 0, qticks := 0) else procs[x]
  }

  lemma BoostedNone(procs: seq<Proc>, s: seq<nat>)
    requires |s| > 0
    ensures Boosted(procs, procs, s, 1)
  {
  }

  lemma BoostedNext(procs: seq<Proc>, procs': seq<Proc>, s: seq<nat>, i: nat)
    requires 1 <= i < |s| && |procs'| == |procs| && s[i] < |procs| && Boosted(procs, procs', s, i)
    ensures Boosted(procs, procs'[s[i] := procs'[s[i]].(qlev := 0, qticks := 0)], s, i + 1)
  {
    assert s[1..i + 1] == s[1..i] + [s[i]];
  }

  lemma BoostedAll(procs: seq<Proc>, procs': seq<Proc>, s: seq<nat>)
    requires 1 <= |s| && |procs'| == |procs| && Boosted(procs, procs', s, |s|)
    ensures forall x :: 0 <= x < |procs| ==> procs'[x] == if x in s[1..] then procs[x].(qlev := 0, qticks := 0) else procs[x]
  {
  }

  /** With all levels equal any order is heap order. */
  lemma BoostedLevels(q: Queue, procs: seq<Proc>, procs': seq<Proc>)
    requires q.Valid() && Levels(procs) && |procs'| == |procs| && Members(q.Items()) && |procs| == NPROC + 1
    requires forall x :: 0 <= x < |procs| ==> procs'[x] == if x in q.heap[1..] then procs[x].(qlev := 0, qticks := 0) else procs[x]
    ensures q.InOrder(LevKey(procs')) && Levels(procs')
  {
    var s, n := q.heap[..], q.count;
    forall i: nat {:trigger Above(s, LevKey(procs'), i)} | 1 < i <= n ensures Above(s, LevKey(procs'), i) {
      assert s[i] == q.heap[1..][i - 1] && s[Parent(i)] == q.heap[1..][Parent(i) - 1];
      BagSet(s, n, i, 0);
      BagSet(s, n, Parent(i), 0);
    }
  }

  lemma BoostedPasses(q: Queue, procs: seq<Proc>, procs': seq<Proc>)
    requires q.Valid() && |procs'| == |procs| && Charged(q.Items(), procs)
    requires forall x :: 0 <= x < |procs| ==> procs'[x] == procs[x].(qlev := procs'[x].qlev, qticks := procs'[x].qticks)
    ensures Charged(q.Items(), procs') && (q.InOrder(PassKey(procs)) ==> q.InOrder(PassKey(procs')))
  {
    if q.InOrder(PassKey(procs)) { OrderedSameKeys(q.heap[..], q.count, PassKey(procs), PassKey(procs')); }
  }
}
