// A run from the start of the kernel in which set_cpu_share leads to a stride
// queue that is out of order.
module ShareRun {
  import opened Heap
  import opened Fair
  import opened Share
  import opened SchedSpec
  import opened Sched

  /** The first n slots, each once. */
  ghost function FirstSlots(n: nat): (bag: multiset<nat>)
    ensures |bag| == n && forall x: nat :: x in bag <==> 1 <= x <= n
  {
    if n == 0 then multiset{} else FirstSlots(n - 1) + multiset{n}
  }

  /** Slots 1 to n have tickets and stand at the given passes, none before the first. */
  ghost predicate Standings(procs: seq<Proc>, passes: seq<int>)
    requires |procs| == NPROC + 1 && |passes| < NPROC
  {
    && (forall x: nat :: 1 <= x <= |passes| ==> procs[x].pass == passes[x - 1] && procs[x].tickets > 0)
    && forall i :: 0 <= i < |passes| ==> passes[0] <= passes[i]
  }

  lemma StandingsStay(procs: seq<Proc>, procs': seq<Proc>, passes: seq<int>, y: nat)
    requires |procs| == |procs'| == NPROC + 1 && |passes| < NPROC && |passes| < y <= NPROC && procs' == procs[y := procs'[y]]
    ensures Standings(procs, passes) ==> Standings(procs', passes)
  {
  }

  lemma StandingsMore(procs: seq<Proc>, passes: seq<int>, pass: int)
    requires |procs| == NPROC + 1 && |passes| + 1 < NPROC && Standings(procs, passes)
    requires var x := |passes| + 1; procs[x].pass == pass && procs[x].tickets > 0
    requires passes != [] ==> passes[0] <= pass
    ensures Standings(procs, passes + [pass])
  {
  }

  /** Slots 1 to n stand at the given passes in the stride queue, and the next process is running. */
  ghost predicate Line(c: Cpu, passes: seq<int>)
    reads c, c.mlfq, c.str, c.mlfq.heap, c.str.heap
  {
    var n: nat := |passes|;
    && n < NPROC && c.Sound() && c.InLine() && c.Funds() && c.mpass == 0 <= c.spass && 0 <= c.stickets
    && c.cur == n + 1 && !c.fromStride && c.procs[c.cur].tickets == 0 && c.str.Items() == FirstSlots(n)
    && Standings(c.procs, passes)
  }

  lemma LineIs(c: Cpu, passes: seq<int>)
    requires Line(c, passes)
    ensures c.Sound() && c.InLine() && c.cur == |passes| + 1 && c.procs[c.cur].tickets == 0 && c.Funds() && 0 <= c.stickets
  {
  }

  /** In the MLFQ there are only processes below x that have bought a share, and perhaps x. */
  ghost predicate Leavers(bag: multiset<nat>, procs: seq<Proc>, x: nat) {
    forall y :: y in bag && y != x ==> y < x && y < |procs| && procs[y].tickets > 0 && procs[y].state.Runnable?
  }

  lemma LeaversFork(bag: multiset<nat>, procs: seq<Proc>, procs': seq<Proc>, x: nat)
    requires Leavers(bag, procs, x) && x !in bag && x + 1 < |procs| == |procs'| && procs' == procs[x + 1 := procs'[x + 1]]
    ensures Leavers(bag + multiset{x + 1}, procs', x + 1) && x + 1 !in bag
  {
  }

  lemma LeaversMore(bag: multiset<nat>, procs: seq<Proc>, procs': seq<Proc>, x: nat)
    requires Leavers(bag, procs, x + 1) && x < |procs| == |procs'| && procs' == procs[x := procs'[x]]
    requires procs'[x].tickets > 0 && procs'[x].state.Runnable?
    ensures Leavers(bag + multiset{x}, procs', x + 1)
  {
  }

  lemma LeaversLess(bag: multiset<nat>, bag': multiset<nat>, procs: seq<Proc>, procs': seq<Proc>, x: nat)
    requires Leavers(bag, procs, x) && x < |procs| == |procs'| && procs' == procs[x := procs'[x]]
    requires forall y :: y in bag' ==> y in bag && y != x
    ensures Leavers(bag', procs', x) && x !in bag'
  {
  }

  /** Dispatching until x runs: everybody else in the MLFQ has a share and is dropped. */
  method Next(c: Cpu, x: nat)
    requires c.Sound() && c.InLine() && c.cur == 0 && c.mpass <= c.spass && x in c.mlfq.Items() && x < |c.procs|
    requires c.procs[x].state.Runnable? && c.procs[x].tickets == 0
    requires Leavers(c.mlfq.Items(), c.procs, x)
    modifies c`procs, c`cur, c`fromStride, c`used, c.mlfq, c.mlfq.heap, c.str, c.str.heap
    ensures c.Sound() && c.InLine() && c.cur == x && !c.fromStride && c.str.Items() == old(c.str.Items())
    ensures c.procs == old(c.procs)[x := old(c.procs)[x].(state := PState.Running)]
    ensures forall y :: y in c.mlfq.Items() ==> y in old(c.mlfq.Items()) && y != x
  {
    hide Ordered, Bag, Levels, AtMost, Charged, LevKey, PassKey, NoLess, Members;
    while c.cur == 0
      invariant c.Sound() && c.InLine() && c.str.Items() == old(c.str.Items())
      invariant if c.cur == 0 then c.procs == old(c.procs) && x in c.mlfq.Items()
                else c.cur == x && !c.fromStride && c.procs == old(c.procs)[x := old(c.procs)[x].(state := PState.Running)]
      invariant forall y :: y in c.mlfq.Items() ==> y in old(c.mlfq.Items()) && (c.cur != 0 ==> y != x)
      decreases |c.mlfq.Items()|
    {
      ghost var before, p := c.mlfq.Items(), c.mlfq.heap[1];
      if c.mlfq.count == 0 { NoneLeft(c.mlfq.heap[..]); }
      var ok := c.Dispatch();
      MembersLess(before, p);
    }
  }

  /** The newcomer stays below the root, whose pass it starts with; among the first three it is a leaf. */
  lemma LeafFits(s: seq<nat>, n: nat, key: Key, p: nat, x: int)
    requires n <= 2 && n + 1 < |s| && (n > 0 ==> key(p) == key(s[1])) && key(p) <= x
    requires forall i :: 1 <= i <= n ==> s[i] != p
    ensures KeyFits(SiftedUp(s, n + 1, p, key), n + 1, key, p, x)
  {
    assert SiftedUp(s, n + 1, p, key) == s[n + 1 := p];
  }

  /** The fourth lands above whoever was in slot 2, and one stride takes it past that process. */
  lemma FourthOvertakes(s: seq<nat>, key: Key, p: nat, x: int)
    requires 5 <= |s| && key(p) == key(s[1]) < key(s[2]) < x && s[2] != p
    ensures !KeyFits(SiftedUp(s, 4, p, key), 4, key, p, x)
  {
    var t := s[4 := s[2]];
    assert SiftedUp(s, 4, p, key) == SiftedUp(t, 2, p, key) == t[2 := p];
    assert Parent(4) == 2;
  }

  /** The head of the queue stands where slot 1 does. */
  lemma HeadIsFirst(c: Cpu, passes: seq<int>)
    requires Line(c, passes) && passes != []
    ensures c.str.count == |passes| && 1 <= c.str.heap[1] <= |passes| && c.HeadPass() == passes[0]
  {
    var s, n := c.str.heap[..], c.str.count;
    assert |Bag(s, n)| == n == |passes|;
    RootLeastOfAll(s, n, PassKey(c.procs));
    BagSet(s, n, 1, s[1]);
    assert 1 in Bag(s, n);
    KeysAre(c.procs);
  }

  lemma FitsNow(c: Cpu, passes: seq<int>, share: int)
    requires Line(c, passes) && |passes| <= 2 && TicketsOf(share) > 0
    ensures c.TickFits(share) && c.HeadPass() == if passes == [] then 0 else passes[0]
  {
    hide TicketsOf, Trunc, KeyFits, SiftedUp, Ordered, Charged, Members, Levels, AtMost, Bag;
    var s, n, key := c.str.heap[..], c.str.count, PassKey(c.Joined(share));
    BagSize(s, n);
    KeysAre(c.Joined(share));
    if n > 0 { HeadIsFirst(c, passes); }
    forall i | 1 <= i <= n ensures s[i] != c.cur { BagSet(s, n, i, s[i]); }
    StridePositive(c.stickets, TicketsOf(share));
    LeafFits(s, n, key, c.cur, c.HeadPass() + c.Joined(share)[c.cur].stride);
  }

  lemma StridePositive(stickets: int, tickets: int)
    requires tickets > 0 && stickets >= 0
    ensures Trunc(stickets + tickets, tickets) >= 1
  {
    Floor(stickets + tickets, tickets);
  }

  lemma BagSize(s: seq<nat>, n: nat)
    requires n < |s|
    ensures |Bag(s, n)| == n
  {
  }

  /** The running process buys its share and takes a tick: it stands one stride behind the head. */
  method Sells(c: Cpu, passes: seq<int>, share: int)
    requires Line(c, passes) && |passes| <= 2
    requires TicketsOf(share) > 0 && c.stickets + TicketsOf(share) <= TOTALTICKETS * MAXSHARE / 100
    modifies c, c.mlfq, c.mlfq.heap, c.str, c.str.heap
    ensures c.Sound() && c.InLine() && c.cur == 0 && c.Funds() && c.mpass == 0 <= c.spass
    ensures c.stickets == old(c.stickets) + TicketsOf(share) && c.str.Items() == FirstSlots(|passes| + 1)
    ensures c.mlfq.Items() == old(c.mlfq.Items()) + multiset{|passes| + 1}
    ensures var x := |passes| + 1;
      && c.procs == old(c.procs)[x := c.procs[x]] && c.procs[x].tickets > 0 && c.procs[x].state.Runnable?
      && c.procs[x].pass == (if passes == [] then 0 else passes[0]) + Trunc(c.stickets, TicketsOf(share))
  {
    hide Ordered, Bag, Members, Charged, LevKey, PassKey, Levels, AtMost, Trunc, TicketsOf, KeyFits, SiftedUp, Twice,
      Among, PoolOf, LagOk, Fair.Step, Share.Step, Least, Ticked;
    FitsNow(c, passes, share);
    var r := c.ShareThenTick(share);
  }

  /** The running process forks the next one. */
  method Forks(c: Cpu, passes: seq<int>)
    requires Line(c, passes) && Leavers(c.mlfq.Items(), c.procs, |passes| + 1) && |passes| <= 2
    modifies c, c.mlfq, c.mlfq.heap, c.str, c.str.heap
    ensures Line(c, passes) && Leavers(c.mlfq.Items(), c.procs, |passes| + 2) && c.stickets == old(c.stickets)
    ensures var y := |passes| + 2; y in c.mlfq.Items() && c.procs[y].state.Runnable? && c.procs[y].tickets == 0
  {
    hide Ordered, Bag, Members, Charged, LevKey, PassKey, Levels, AtMost, Standings, Leavers, Twice, Among, PoolOf, Least;
    ghost var y, procs0 := c.cur + 1, c.procs;
    LeaversFork(c.mlfq.Items(), procs0, procs0[y := Proc(Runnable, 0, 0, 0, procs0[y].stride, 0)], c.cur);
    c.Fork(c.cur + 1);
    StandingsStay(procs0, c.procs, passes, y);
  }

  /** The next process runs. */
  method Follows(c: Cpu, passes: seq<int>)
    requires |passes| <= 3 && c.Sound() && c.InLine() && c.cur == 0 && c.Funds() && c.mpass == 0 <= c.spass && 0 <= c.stickets
    requires c.str.Items() == FirstSlots(|passes|) && Standings(c.procs, passes) && Leavers(c.mlfq.Items(), c.procs, |passes| + 1)
    requires var y := |passes| + 1; y in c.mlfq.Items() && c.procs[y].state.Runnable? && c.procs[y].tickets == 0
    modifies c`procs, c`cur, c`fromStride, c`used, c.mlfq, c.mlfq.heap, c.str, c.str.heap
    ensures Line(c, passes) && Leavers(c.mlfq.Items(), c.procs, |passes| + 1)
  {
    hide Ordered, Bag, Members, Charged, LevKey, PassKey, Levels, AtMost, Standings, Leavers, Twice, Among, PoolOf, Least;
    ghost var procs0, bag := c.procs, c.mlfq.Items();
    Next(c, |passes| + 1);
    LeaversLess(bag, c.mlfq.Items(), procs0, c.procs, |passes| + 1);
    StandingsStay(procs0, c.procs, passes, |passes| + 1);
  }

  /** The running process forks the next one, buys its share and takes a tick; the next one runs. */
  method Buys(c: Cpu, passes: seq<int>, share: int) returns (more: seq<int>)
    requires Line(c, passes) && Leavers(c.mlfq.Items(), c.procs, |passes| + 1) && |passes| <= 2
    requires TicketsOf(share) > 0 && c.stickets + TicketsOf(share) <= TOTALTICKETS * MAXSHARE / 100
    modifies c, c.mlfq, c.mlfq.heap, c.str, c.str.heap
    ensures Line(c, more) && Leavers(c.mlfq.Items(), c.procs, |more| + 1) && c.stickets == old(c.stickets) + TicketsOf(share)
    ensures more == passes + [(if passes == [] then 0 else passes[0]) + Trunc(c.stickets, TicketsOf(share))]
  {
    hide Ordered, Bag, Members, Charged, LevKey, PassKey, Levels, AtMost, Trunc, TicketsOf, KeyFits, SiftedUp, Twice,
      Among, PoolOf, LagOk, Fair.Step, Share.Step, Least, Ticked, Standings, Leavers, FirstSlots;
    var x := c.cur;
    Forks(c, passes);
    ghost var procs1, bag1 := c.procs, c.mlfq.Items();
    Sells(c, passes, share);
    LeaversMore(bag1, procs1, c.procs, x);
    StandingsStay(procs1, c.procs, passes, x);
    StridePositive(old(c.stickets), TicketsOf(share));
    StandingsMore(c.procs, passes, c.procs[x].pass);
    more := passes + [c.procs[x].pass];
    Follows(c, more);
  }

  /** With shares of 50, 10 and 10 percent sold, a fourth of one percent has stride 71. */
  lemma Numbers()
    ensures TicketsOf(50) == 5000 && TicketsOf(10) == 1000 && TicketsOf(1) == 100
    ensures Trunc(5000, 5000) == 1 && Trunc(6000, 1000) == 6 && Trunc(7000, 1000) == 7 && Trunc(7100, 100) == 71
  {
  }

  lemma FourthBreaks(c: Cpu)
    requires Line(c, [1, 7, 8]) && c.stickets == 7000
    ensures !c.TickFits(1)
  {
    hide TicketsOf, Trunc, KeyFits, SiftedUp, Charged, Members, Levels, AtMost;
    var s, key := c.str.heap[..], PassKey(c.Joined(1));
    Numbers();
    HeadIsFirst(c, [1, 7, 8]);
    DistinctMembers(s, 3);
    BagSet(s, 3, 1, s[1]);
    BagSet(s, 3, 2, s[2]);
    KeysAre(c.Joined(1));
    FourthOvertakes(s, key, 4, 72);
  }

  /** userinit's process is running. */
  method Start() returns (c: Cpu)
    ensures fresh(c) && fresh({c.mlfq, c.str}) && fresh({c.mlfq.heap, c.str.heap})
    ensures Line(c, []) && c.stickets == 0 && Leavers(c.mlfq.Items(), c.procs, 1)
  {
    hide Ordered, Bag, Members, Charged, LevKey, PassKey, Levels, AtMost;
    c := new Cpu();
    c.Fork(1);
    Next(c, 1);
  }

  /** A queue out of order, reached from the start: shares of 50, 10, 10 and 1 percent are bought one after the other. */
  method OutOfOrder() returns (c: Cpu)
    ensures c.Sound() && !c.InLine()
  {
    hide Line, TicketsOf, Trunc, Leavers;
    c := Start();
    Numbers();
    var passes := Buys(c, [], 50);
    passes := Buys(c, passes, 10);
    passes := Buys(c, passes, 10);
    assert passes == [1, 7, 8];
    FourthBreaks(c);
    LineIs(c, passes);
    var r := c.ShareThenTick(1);
  }
}
