// The dispatcher and the timer interrupt of the MLFQ + stride kernel, on one
// processor, over the two queues.
module Sched {
  import opened Heap
  import opened Fair
  import Share
  import opened SchedSpec

  class Cpu {
    const mlfq: Queue
    const str: Queue
    var mtickets: int
    var mstride: int
    var mpass: int
    var stickets: int
    var sstride: int
    var spass: int
    var mlfqticks: nat
    var procs: seq<Proc>
    /** The process on the processor, or 0, and whether the stride half of the loop dispatched it. */
    var cur: nat
    var fromStride: bool
    /** Ticks used in this MLFQ turn, ticks of each side, and stride ticks of each process. */
    ghost var used: nat
    ghost var m: nat
    ghost var s: nat
    ghost var got: seq<nat>

    ghost predicate Shape()
      reads this`procs, this`cur, this`got, mlfq, str
    {
      && mlfq.Valid() && str.Valid() && mlfq != str && mlfq.heap != str.heap
      && |procs| == |got| == NPROC + 1 && cur <= NPROC
    }

    ghost predicate InLine()
      requires Shape()
      reads this`procs, this`cur, this`got, mlfq, str, str.heap
    {
      str.InOrder(PassKey(procs))
    }

    /**
     * The queues hold processes without repeats, the MLFQ in order and only charged ones in the other. The process on
     * the processor is not in the queue it came from; with tickets, it came from the stride queue or is already in it.
     */
    ghost predicate Standing()
      reads this`procs, this`cur, this`got, this`fromStride, mlfq, str, mlfq.heap, str.heap
    {
      && Shape() && mlfq.InOrder(LevKey(procs)) && AtMost(mlfq.heap[..], NPROC)
      && Members(mlfq.Items()) && Members(str.Items()) && Levels(procs) && Charged(str.Items(), procs)
      && (cur != 0 ==> if fromStride then procs[cur].tickets > 0 && cur !in str.Items()
                       else cur !in mlfq.Items() && (procs[cur].tickets > 0 ==> cur in str.Items()))
    }

    /** What every operation keeps. */
    ghost predicate Sound()
      reads this`procs, this`cur, this`got, this`fromStride, mlfq, str, mlfq.heap, str.heap
    {
      Standing() && (cur != 0 ==> procs[cur].state.Running?)
    }

    /** The process running takes its ticks on the side it was taken from. */
    ghost predicate Settled()
      requires Shape()
      reads this`procs, this`cur, this`got, this`fromStride, mlfq, str
    {
      cur != 0 ==> (fromStride <==> procs[cur].tickets > 0)
    }

    ghost function Doubles(): set<nat>
      requires Shape()
      reads this`procs, this`cur, this`got, this`fromStride, mlfq, str, mlfq.heap, str.heap
    {
      Twice(mlfq.Items(), str.Items(), cur, fromStride)
    }

    /** Both queues in order, and every process on one side only. */
    ghost predicate Valid()
      reads this`procs, this`cur, this`got, this`fromStride, mlfq, str, mlfq.heap, str.heap
    {
      Sound() && InLine() && Doubles() == {}
    }

    ghost function Shares(): Share.Pool
      requires Shape()
      reads this`procs, this`cur, this`got, this`fromStride, mlfq, str, str.heap
    {
      PoolOf(str.Items(), if fromStride then cur else 0, procs, got)
    }

    /** The stride queue is in order, and if one of its processes is running it is one that stands last. */
    ghost predicate Fairly()
      reads this`procs, this`cur, this`got, this`fromStride, mlfq, str, mlfq.heap, str.heap
    {
      Sound() && InLine() && (cur != 0 && cur in Shares() ==> Share.Least(Shares(), cur))
    }

    ghost function Turn(): Run
      requires Shape()
      reads this, mlfq, str
    {
      if cur == 0 then Idle else if fromStride then InStride else InMlfq(procs[cur].qlev, procs[cur].qticks, used)
    }

    ghost function State(): View
      requires Shape()
      reads this, mlfq, str
    {
      View(mpass, spass, m, s, Turn())
    }

    /** A step taken while somebody is in the stride queue keeps the lag bounded. */
    lemma KeepLag(v: View, empty: bool)
      requires Shape() && Step(v, State(), mstride, sstride, empty)
      ensures !empty && mstride > 0 && sstride > 0 && LagOk(v, mstride, sstride) ==> LagOk(State(), mstride, sstride)
    {
      if !empty && mstride > 0 && sstride > 0 && LagOk(v, mstride, sstride) { FairStep(v, State(), mstride, sstride); }
    }

    /** A dispatch by the two passes is a step of Fair's machine. */
    lemma Dispatched(v: View, empty: bool)
      requires Shape() && Levels(procs) && v == View(mpass, spass, m, s, Idle)
      requires cur != 0 ==> (fromStride <==> !(v.mp <= v.sp || empty)) && (!fromStride ==> used == 0)
      ensures Step(v, State(), mstride, sstride, empty)
    {
    }

    /** Whether scheduler turns to the MLFQ. */
    predicate MlfqTurn()
      reads this`mpass, this`spass, str`count
    {
      mpass <= spass || str.count == 0
    }

    /** The stride queue's only process is asleep. */
    predicate SleeperAlone()
      requires Shape()
      reads this`procs, this`cur, this`got, mlfq, str, str.heap
    {
      str.count == 1 && str.heap[1] < |procs| && procs[str.heap[1]].state.Sleeping?
    }

    constructor ()
      ensures Valid() && Fairly() && cur == 0 && mlfq.count == 0 && str.count == 0 && fresh({mlfq, str}) && fresh({mlfq.heap, str.heap})
      ensures mtickets == TOTALTICKETS && stickets == 0 && mstride == 1 && sstride == 0 && mpass == 0 && spass == 0
      ensures mlfq.Items() == str.Items() == multiset{} && Shares() == map[] && Funds()
    {
      mlfq := new Queue();
      str := new Queue();
      mtickets, mstride, mpass := TOTALTICKETS, 1, 0;
      stickets, sstride, spass := 0, 0, 0;
      mlfqticks := 0;
      procs := seq(NPROC + 1, i => Proc(Other, 0, 0, 0, 0, 0));
      cur, fromStride := 0, false;
      used, m, s, got := 0, 0, 0, seq(NPROC + 1, i => 0);
    }

    /** The round took the MLFQ's head, a process of least level: it runs, is parked at the bottom, or is dropped. */
    twostate predicate TookMlfq()
      requires old(Shape()) && Shape()
      reads this`procs, this`cur, this`got, this`fromStride, mlfq, mlfq.heap, str, str.heap
    {
      var p := old(mlfq.heap[1]);
      && p in old(mlfq.Items()) && p < |old(procs)| && NoLess(old(mlfq.Items()), p, LevKey(old(procs)))
      && procs == old(procs)[p := PickedMlfq(old(procs)[p])]
      && str.Items() == old(str.Items()) && str.heap[..] == old(str.heap[..]) && str.count == old(str.count)
      && mlfq.Items() == (if old(procs)[p].state.Sleeping? then old(mlfq.Items()) else old(mlfq.Items()) - multiset{p})
      && cur == (if old(procs)[p].state.Runnable? && old(procs)[p].tickets == 0 then p else 0)
      && fromStride == (cur == 0 && old(fromStride))
      && (old(procs)[p].state.Sleeping? ==> Lowest(procs, p))
      && old(mlfq.count) > 0 && var rest := Without(old(mlfq.heap[..]), old(mlfq.count), LevKey(old(procs)));
         && mlfq.heap[..] == (if old(procs)[p].state.Sleeping? then SiftedUp(rest, old(mlfq.count), p, LevKey(procs)) else rest)
         && mlfq.count == if old(procs)[p].state.Sleeping? then old(mlfq.count) else old(mlfq.count) - 1
    }

    /**
     * The round took the stride queue's head, a process of least pass if the queue was in order: it runs, goes back in
     * beside another process, or is dropped.
     */
    twostate predicate TookStride()
      requires old(Shape()) && Shape()
      reads this`procs, this`cur, this`got, this`fromStride, mlfq, mlfq.heap, str, str.heap
    {
      var p := old(str.heap[1]);
      && p in old(str.Items()) && p < |old(procs)| && (old(InLine()) ==> NoLess(old(str.Items()), p, PassKey(old(procs))))
      && procs == old(procs)[p := PickedStride(old(procs)[p], procs[p].pass)]
      && mlfq.Items() == old(mlfq.Items()) && mlfq.heap[..] == old(mlfq.heap[..]) && mlfq.count == old(mlfq.count)
      && str.Items() == (if old(procs)[p].state.Sleeping? then old(str.Items()) else old(str.Items()) - multiset{p})
      && cur == (if old(procs)[p].state.Runnable? then p else 0) && fromStride == (cur != 0 || old(fromStride))
      && (old(procs)[p].state.Sleeping? ==> Beside(str.Items(), procs, p) && (old(InLine()) ==> procs[p].pass >= old(procs)[p].pass))
      && (old(procs)[p].state.Sleeping? ==> procs[p].pass == PassKey(old(procs))(LastLeft(old(str.heap[..]), old(str.count), PassKey(old(procs)))))
      && old(str.count) > 0 && var rest := Without(old(str.heap[..]), old(str.count), PassKey(old(procs)));
         && str.heap[..] == (if old(procs)[p].state.Sleeping? then SiftedUp(rest, old(str.count), p, PassKey(procs)) else rest)
         && str.count == if old(procs)[p].state.Sleeping? then old(str.count) else old(str.count) - 1
    }

    /** p is back in the queue it came from, brought in at the end of it, and the other queue is as it was. */
    twostate predicate Rejoined(p: nat)
      requires old(Shape()) && Shape()
      reads this`procs, this`cur, this`got, this`fromStride, mlfq, mlfq.heap, str, str.heap
    {
      var (q, q', key) := if fromStride then (str, mlfq, PassKey(procs)) else (mlfq, str, LevKey(procs));
      && q.count == old(q.count) + 1 && q.heap[..] == SiftedUp(old(q.heap[..]), q.count, p, key)
      && q'.count == old(q'.count) && q'.heap[..] == old(q'.heap[..])
    }

    /** What the round does to the processes that are on both sides: one that is dropped is not any more. */
    twostate predicate Dropped(p: nat)
      requires old(Shape()) && Shape() && p < |procs|
      reads this`procs, this`cur, this`got, this`fromStride, mlfq, mlfq.heap, str, str.heap
    {
      Doubles() == if cur == 0 && !procs[p].state.Sleeping? then old(Doubles()) - {p} else old(Doubles())
    }

    /** scheduler's turn to the MLFQ; from an empty queue it reads through the null pointer. */
    method PickMlfq() returns (ok: bool)
      requires Sound() && cur == 0 && MlfqTurn()
      modifies this`procs, this`cur, this`fromStride, this`used, mlfq, mlfq.heap
      ensures Sound() && (old(InLine()) ==> InLine()) && ok == (old(mlfq.count) > 0)
      ensures !ok ==> cur == 0 && procs == old(procs)
      ensures ok ==> TookMlfq()
      ensures cur != 0 ==> used == 0
    {
      hide Ordered, Bag, Members, Charged, LevKey, PassKey, NoLess, AtMost, Levels, Without, SiftedUp, Lowest;
      ghost var left := mlfq.Items();
      if mlfq.count == 0 { return false; }
      var p := TakeMlfq();
      ok := true;
      if procs[p].state != Runnable || procs[p].tickets > 0 {
        if procs[p].state == Sleeping { Sink(p, left); } else { assert procs == procs[p := procs[p]]; }
        return;
      }
      used := 0;
      Run(p, false);
    }

    /** The MLFQ's head, taken out. */
    method TakeMlfq() returns (p: nat)
      requires Sound() && cur == 0 && mlfq.count > 0
      modifies mlfq, mlfq.heap
      ensures Standing() && (old(InLine()) ==> InLine()) && p == old(mlfq.heap[1]) && 1 <= p <= NPROC
      ensures p in old(mlfq.Items()) && NoLess(old(mlfq.Items()), p, LevKey(procs)) && Members(old(mlfq.Items()))
      ensures mlfq.Items() == old(mlfq.Items()) - multiset{p} && p !in mlfq.Items()
      ensures procs[p].tickets >= 0 && (p in str.Items() ==> procs[p].tickets > 0)
      ensures mlfq.heap[..] == Without(old(mlfq.heap[..]), old(mlfq.count), LevKey(procs)) && mlfq.count == old(mlfq.count) - 1
    {
      hide Ordered, Bag, Members, Charged, LevKey, PassKey, NoLess, AtMost, Levels, Without;
      ghost var left := mlfq.Items();
      var r := mlfq.Dequeue(LevKey(procs));
      p := r.p;
      MembersLess(left, p);
      LevelOf(procs, p);
      if p in str.Items() { ChargedOf(str.Items(), procs, p); }
    }

    /** The switch to the process taken. */
    method Run(p: nat, stride: bool)
      requires Standing() && cur == 0 && 1 <= p <= NPROC
      requires if stride then procs[p].tickets > 0 && p !in str.Items() else procs[p].tickets == 0 && p !in mlfq.Items() && p !in str.Items()
      modifies this`procs, this`cur, this`fromStride
      ensures Sound() && (old(InLine()) ==> InLine()) && cur == p && fromStride == stride
      ensures procs == old(procs)[p := old(procs)[p].(state := PState.Running)]
    {
      hide Ordered, Bag, Members, Charged, LevKey, PassKey, AtMost, Levels;
      ghost var procs0 := procs;
      LevelOf(procs, p);
      cur, fromStride := p, stride;
      procs := procs[p := procs[p].(state := PState.Running)];
      LevelsStay(mlfq, procs0, procs, p);
      PassesStay(str, procs0, procs, p);
      RecordsStay(str.Items(), procs0, procs, p);
    }

    /** A sleeper from the head of the MLFQ goes back in at the lowest level. */
    method Sink(p: nat, ghost left: multiset<nat>)
      requires Standing() && cur == 0 && Members(left) && p in left && mlfq.Items() == left - multiset{p}
      modifies this`procs, mlfq, mlfq.heap
      ensures Standing() && (old(InLine()) ==> InLine()) && mlfq.Items() == left
      ensures p < |old(procs)| && procs == old(procs)[p := old(procs)[p].(qlev := 2, qticks := 0)] && Lowest(procs, p)
      ensures mlfq.count == old(mlfq.count) + 1 && mlfq.heap[..] == SiftedUp(old(mlfq.heap[..]), mlfq.count, p, LevKey(procs))
    {
      hide Ordered, Bag, Members, Charged, LevKey, PassKey, NoLess, AtMost, Levels, Without, SiftedUp, Lowest;
      ghost var procs0 := procs;
      MembersLess(left, p);
      LevelOf(procs, p);
      procs := procs[p := procs[p].(qlev := 2, qticks := 0)];
      LevelsStay(mlfq, procs0, procs, p);
      PassesStay(str, procs0, procs, p);
      if p in str.Items() { ChargedOf(str.Items(), procs0, p); }
      RecordsStay(str.Items(), procs0, procs, p);
      LowestIs(procs, p);
      RoomFor(mlfq.heap[..], mlfq.count, p);
      var _ := mlfq.Enqueue(p, LevKey(procs));
    }

    /**
     * scheduler's turn to the stride queue. A sleeper goes back behind the queue's last process; if it was alone in the
     * queue, the read goes through the null pointer.
     */
    method PickStride() returns (ok: bool)
      requires Sound() && cur == 0 && !MlfqTurn()
      modifies this`procs, this`cur, this`fromStride, str, str.heap
      ensures Sound() && (old(InLine()) ==> InLine()) && ok == !old(SleeperAlone())
      ensures !ok ==> cur == 0 && procs == old(procs)
      ensures ok ==> TookStride()
    {
      hide Ordered, Bag, Members, Charged, PassKey, LevKey, Levels, NoLess, Beside, AtMost, Without, SiftedUp;
      ghost var procs0, left, line := procs, str.Items(), InLine();
      var r := str.Dequeue(PassKey(procs));
      var p := r.p;
      MembersLess(left, p);
      ChargedLess(left, procs, p);
      LevelOf(procs, p);
      ok := true;
      if procs[p].state != Runnable {
        if procs[p].state == Sleeping {
          if str.count == 0 { return false; }
          Park(p, left, line);
        }
        return;
      }
      Run(p, true);
    }

    /** A sleeper from the head of the stride queue goes back in with the last process's pass. */
    method Park(p: nat, ghost left: multiset<nat>, ghost line: bool)
      requires Standing() && cur == 0 && (line ==> InLine()) && str.count > 0
      requires Charged(left, procs) && str.Items() == left - multiset{p} && p in left && Members(left)
      requires line ==> NoLess(left, p, PassKey(procs))
      modifies this`procs, str, str.heap
      ensures Standing() && (line ==> InLine()) && str.Items() == left && Beside(left, procs, p)
      ensures p < |old(procs)| && procs == old(procs)[p := old(procs)[p].(pass := procs[p].pass)]
      ensures line ==> procs[p].pass >= old(procs)[p].pass
      ensures procs[p].pass == PassKey(old(procs))(old(str.heap[..])[old(str.count)])
      ensures str.count == old(str.count) + 1 && str.heap[..] == SiftedUp(old(str.heap[..]), str.count, p, PassKey(procs))
    {
      hide Ordered, Bag, Members, Charged, LevKey, PassKey, Levels, NoLess, AtMost, Beside, SiftedUp;
      ghost var procs0, y := procs, str.heap[str.count];
      MembersLess(left, p);
      ChargedOf(left, procs, p);
      LastBeside(str.heap[..], str.count, procs, left, p);
      PassOf(procs, y);
      if line { LastLater(procs, left, p, y); }
      LevelOf(procs, p);
      procs := procs[p := procs[p].(pass := procs[str.heap[str.count]].pass)];
      LevelsStay(mlfq, procs0, procs, p);
      PassesStay(str, procs0, procs, p);
      RecordsStay(left, procs0, procs, p);
      BesideIs(left, procs, p, y);
      RoomFor(str.heap[..], str.count, p);
      var ok := str.Enqueue(p, PassKey(procs));
    }

    method MlfqRound() returns (ok: bool)
      requires Sound() && cur == 0 && MlfqTurn()
      modifies this`procs, this`cur, this`fromStride, this`used, mlfq, mlfq.heap
      ensures Sound() && (old(InLine()) ==> InLine()) && ok == (old(mlfq.count) > 0) && (cur != 0 ==> ok && used == 0)
      ensures ok ==> TookMlfq() && Dropped(old(mlfq.heap[1])) && Shares() == old(Shares()) && (old(Fairly()) ==> Fairly())
    {
      hide Ordered, Bag, Members, Charged, Levels, LevKey, PassKey, NoLess, Beside, AtMost, Without, SiftedUp, LastLeft, Lowest, Share.Least, PoolOf, Twice, Among;
      ghost var procs0, mbag, sbag := procs, mlfq.Items(), str.Items();
      ok := PickMlfq();
      if ok { MlfqSide(procs0, procs, got, mbag, sbag, old(mlfq.heap[1]), old(fromStride)); }
    }

    method StrideRound() returns (ok: bool)
      requires Sound() && cur == 0 && !MlfqTurn()
      modifies this`procs, this`cur, this`fromStride, str, str.heap
      ensures Sound() && (old(InLine()) ==> InLine()) && ok == !old(SleeperAlone()) && (cur != 0 ==> ok)
      ensures ok ==> TookStride() && Dropped(old(str.heap[1]))
      ensures ok && old(Fairly()) ==> Fairly() && Share.Step(old(Shares()), StrideMove(old(str.heap[1])), Shares())
    {
      hide Ordered, Bag, Members, Charged, Levels, LevKey, PassKey, NoLess, Beside, AtMost, Without, SiftedUp, LastLeft, Lowest, Share.Least, PoolOf, Twice, Among, Share.Step;
      ghost var procs0, mbag, sbag, line := procs, mlfq.Items(), str.Items(), InLine();
      MembersLess(sbag, str.heap[1]) by { HeadIs(str.heap[..], str.count, procs); }
      ok := PickStride();
      if ok { StrideSide(procs0, procs, got, mbag, sbag, old(str.heap[1]), line, old(fromStride)); }
    }

    /** The turn to the stride queue as a step of the pool. */
    ghost function StrideMove(p: nat): Share.Move
      requires p < |procs|
      reads this`procs, this`cur
    {
      if cur != 0 then Share.Stay else if procs[p].state.Sleeping? then Share.Parks(p, procs[p].pass) else Share.Leaves(p)
    }

    /**
     * One round of scheduler's loop, as far as the switch to the process; false is a read through the null pointer, with
     * the MLFQ empty or a sleeper alone in the stride queue.
     */
    method Dispatch() returns (ok: bool)
      requires Sound() && cur == 0
      modifies this`procs, this`cur, this`fromStride, this`used, mlfq, mlfq.heap, str, str.heap
      ensures Sound() && (old(InLine()) ==> InLine())
      ensures ok == if old(MlfqTurn()) then old(mlfq.count) > 0 else !old(SleeperAlone())
      ensures ok ==> if old(MlfqTurn()) then TookMlfq() && Dropped(old(mlfq.heap[1])) else TookStride() && Dropped(old(str.heap[1]))
      ensures cur != 0 ==> ok && (fromStride <==> !old(MlfqTurn())) && procs[cur].state.Running? && Settled()
      ensures ok ==> Step(old(State()), State(), mstride, sstride, old(str.count == 0))
      ensures ok && mstride > 0 && sstride > 0 && old(str.count) > 0 && LagOk(old(State()), mstride, sstride) ==>
        LagOk(State(), mstride, sstride)
      ensures ok && old(Fairly()) ==>
        Fairly() && Share.Step(old(Shares()), if old(MlfqTurn()) then Share.Stay else StrideMove(old(str.heap[1])), Shares())
    {
      hide Ordered, Bag, Members, Charged, Levels, LagOk, LevKey, PassKey, Step, Share.Step, NoLess, Beside, AtMost, Without, SiftedUp, LastLeft, Lowest, Share.Least, PoolOf, Twice;
      ghost var v, empty := State(), str.count == 0;
      if mpass <= spass || str.count == 0 {
        ok := MlfqRound();
      } else {
        ok := StrideRound();
      }
      Dispatched(v, empty);
      KeepLag(v, empty);
      StepStays(Shares());
    }

    /** Back in scheduler: the process joins the queue it was taken from, which has room for it. */
    method Requeue()
      requires Standing() && cur != 0
      modifies this`cur, mlfq, mlfq.heap, str, str.heap
      ensures Sound() && cur == 0 && (old(InLine()) ==> InLine())
      ensures mlfq.Items() == if fromStride then old(mlfq.Items()) else old(mlfq.Items()) + multiset{old(cur)}
      ensures str.Items() == if fromStride then old(str.Items()) + multiset{old(cur)} else old(str.Items())
      ensures Rejoined(old(cur))
    {
      hide Ordered, Bag, Members, Charged, Levels, AtMost, LevKey, PassKey, SiftedUp;
      if fromStride {
        RoomFor(str.heap[..], str.count, cur);
        MembersMore(str.Items(), cur);
        ChargedMore(str.Items(), procs, cur);
        var _ := str.Enqueue(cur, PassKey(procs));
      } else {
        RoomFor(mlfq.heap[..], mlfq.count, cur);
        MembersMore(mlfq.Items(), cur);
        var _ := mlfq.Enqueue(cur, LevKey(procs));
      }
      cur := 0;
    }

    /**
     * trap's timer branch: quantum, allotment and pass accounting; a process at its limit yields and is queued again.
     * One that is in the stride queue already, having bought a share in this turn, moves its key there: the queue stays
     * in order exactly if the new pass fits where it stands.
     */
    method Tick()
      requires Sound() && cur != 0
      modifies this`procs, this`cur, this`mpass, this`spass, this`mlfqticks, this`used, this`m, this`s, this`got
      modifies mlfq, mlfq.heap, str, str.heap
      ensures Sound() && Doubles() == old(Doubles())
      ensures procs == old(procs)[old(cur) := TickedProc(old(procs)[old(cur)])]
      ensures if old(procs)[old(cur)].tickets == 0
              then mpass == old(mpass) + mstride && spass == old(spass) && mlfqticks == (old(mlfqticks) + 1) % MOD32
              else spass == old(spass) + sstride && mpass == old(mpass) && mlfqticks == old(mlfqticks)
      ensures m + s == old(m + s) + 1 && cur == (if procs[old(cur)].state.Running? then old(cur) else 0)
      ensures mlfq.Items() == if cur == 0 && !fromStride then old(mlfq.Items()) + multiset{old(cur)} else old(mlfq.Items())
      ensures str.Items() == if cur == 0 && fromStride then old(str.Items()) + multiset{old(cur)} else old(str.Items())
      ensures if cur == 0 then Rejoined(old(cur)) else mlfq.heap[..] == old(mlfq.heap[..]) && str.heap[..] == old(str.heap[..])
      ensures old(InLine()) ==> (InLine() <==> (old(cur) in old(str.Items()) ==>
        KeyFits(old(str.heap[..]), old(str.count), PassKey(old(procs)), old(cur), procs[old(cur)].pass)))
      ensures old(Settled()) ==> Step(old(State()), State(), mstride, sstride, old(str.count == 0))
      ensures old(Settled()) && mstride > 0 && sstride > 0 && old(str.count) > 0 && LagOk(old(State()), mstride, sstride) ==>
        LagOk(State(), mstride, sstride)
      ensures old(Fairly()) ==>
        && (InLine() ==> Fairly())
        && Share.Step(old(Shares()), if old(procs)[old(cur)].tickets == 0 then Share.Stay else Share.Ticks(old(cur)), Shares())
    {
      hide Ordered, Bag, Members, Charged, Levels, LagOk, LevKey, PassKey, AtMost, Twice, Step, Share.Step, Share.Least, PoolOf, KeyFits, SiftedUp;
      LevelOf(procs, cur);
      ghost var v, empty := State(), str.count == 0;
      if procs[cur].tickets == 0 {
        TickMlfq();
      } else {
        TickStride();
      }
      if old(Settled()) { KeepLag(v, empty); }
      StepStays(Shares());
    }

    method TickStride()
      requires Sound() && cur != 0 && procs[cur].tickets > 0
      modifies this`procs, this`cur, this`spass, this`s, this`got, mlfq, mlfq.heap, str, str.heap
      ensures Sound() && cur == 0 && spass == old(spass) + sstride && s == old(s) + 1 && Doubles() == old(Doubles())
      ensures Rejoined(old(cur)) && fromStride == old(fromStride)
      ensures procs == old(procs)[old(cur) := TickedProc(old(procs)[old(cur)])]
      ensures mlfq.Items() == if fromStride then old(mlfq.Items()) else old(mlfq.Items()) + multiset{old(cur)}
      ensures str.Items() == if fromStride then old(str.Items()) + multiset{old(cur)} else old(str.Items())
      ensures old(InLine()) ==> (InLine() <==> (old(cur) in old(str.Items()) ==>
        KeyFits(old(str.heap[..]), old(str.count), PassKey(old(procs)), old(cur), procs[old(cur)].pass)))
      ensures old(Fairly()) ==> (InLine() ==> Fairly()) && Share.Step(old(Shares()), Share.Ticks(old(cur)), Shares())
      ensures old(fromStride) ==> Step(old(State()), State(), mstride, sstride, old(str.count == 0))
    {
      hide Ordered, Bag, Members, Charged, Levels, LevKey, PassKey, AtMost, Twice, Share.Least, PoolOf, KeyFits, Among, SiftedUp;
      ghost var procs0, got0, p, mbag, sbag := procs, got, cur, mlfq.Items(), str.Items();
      Charge();
      Requeue();
      Back(mbag, sbag, p);
      PoolSet(sbag, if fromStride then p else 0, procs0, got0, str.Items(), 0, procs, got, p);
      InPool(sbag, if fromStride then p else 0, procs0, got0, p);
    }

    /** The passes of the process and of its side go up, and it yields. */
    method Charge()
      requires Sound() && cur != 0 && procs[cur].tickets > 0
      modifies this`procs, this`spass, this`s, this`got
      ensures Standing() && spass == old(spass) + sstride && s == old(s) + 1 && got == old(got)[cur := old(got)[cur] + 1]
      ensures procs == old(procs)[cur := TickedProc(old(procs)[cur])] && !procs[cur].state.Running?
      ensures old(InLine()) ==> (InLine() <==> (cur in str.Items() ==>
        KeyFits(str.heap[..], str.count, PassKey(old(procs)), cur, procs[cur].pass)))
    {
      hide Ordered, Bag, Members, Charged, Levels, LevKey, PassKey, AtMost, KeyFits;
      ghost var procs0 := procs;
      LevelOf(procs, cur);
      procs := procs[cur := procs[cur].(pass := procs[cur].pass + procs[cur].stride, state := Runnable)];
      spass := spass + sstride;
      s := s + 1;
      got := got[cur := got[cur] + 1];
      LevelsStay(mlfq, procs0, procs, cur);
      RecordsStay(str.Items(), procs0, procs, cur);
      if cur in str.Items() { Rekeyed(str, procs0, procs, cur); } else { PassesStay(str, procs0, procs, cur); }
    }

    method TickMlfq()
      requires Sound() && cur != 0 && procs[cur].tickets == 0
      modifies this`procs, this`cur, this`mpass, this`mlfqticks, this`used, this`m, mlfq, mlfq.heap, str, str.heap
      ensures Sound() && mpass == old(mpass) + mstride && mlfqticks == (old(mlfqticks) + 1) % MOD32 && m == old(m) + 1
      ensures if cur == 0 then Rejoined(old(cur)) else mlfq.heap[..] == old(mlfq.heap[..]) && str.heap[..] == old(str.heap[..])
      ensures procs == old(procs)[old(cur) := TickedProc(old(procs)[old(cur)])] && !fromStride && Doubles() == old(Doubles())
      ensures cur == (if procs[old(cur)].state.Running? then old(cur) else 0) && (cur != 0 ==> used == old(used) + 1)
      ensures mlfq.Items() == if cur == 0 then old(mlfq.Items()) + multiset{old(cur)} else old(mlfq.Items())
      ensures str.Items() == old(str.Items()) && old(cur) !in str.Items() && (old(InLine()) ==> InLine())
      ensures Shares() == old(Shares()) && (old(Fairly()) ==> Fairly())
      ensures Step(old(State()), State(), mstride, sstride, old(str.count == 0))
    {
      hide Ordered, Bag, Members, Charged, LevKey, PassKey, Levels, AtMost, Twice, Share.Least, PoolOf, Among, SiftedUp;
      ghost var procs0, p, mbag, sbag := procs, cur, mlfq.Items(), str.Items();
      if p in sbag { ChargedOf(sbag, procs0, p); }
      var done := Account();
      if done {
        Requeue();
        Back(mbag, sbag, p);
      } else {
        used := used + 1;
      }
      AmongIs(sbag, p);
      PoolSame(sbag, 0, procs0, got, sbag, 0, procs);
    }

    /** The counters of an MLFQ process on a tick, and whether it must yield. */
    method Account() returns (done: bool)
      requires Sound() && cur != 0 && procs[cur].tickets == 0
      modifies this`procs, this`mpass, this`mlfqticks, this`m
      ensures Standing() && mpass == old(mpass) + mstride && mlfqticks == (old(mlfqticks) + 1) % MOD32 && m == old(m) + 1
      ensures procs == old(procs)[cur := TickedProc(old(procs)[cur])] && (done <==> procs[cur].state.Runnable?)
      ensures (!done ==> procs[cur].state.Running?) && (old(InLine()) ==> InLine())
    {
      hide Ordered, Bag, Members, Charged, LevKey, PassKey, Levels, AtMost;
      LevelOf(procs, cur);
      ghost var procs0 := procs;
      var p := cur;
      if p in str.Items() { ChargedOf(str.Items(), procs, p); }
      var qticks := procs[p].qticks + 1;
      mlfqticks := (mlfqticks + 1) % MOD32;
      mpass := mpass + mstride;
      m := m + 1;
      var tq, ta := TQHIGH, TAHIGH;
      if procs[p].qlev == 1 {
        tq, ta := TQMIDDLE, TAMIDDLE;
      } else if procs[p].qlev == 2 {
        tq := TQLOW;
      }
      done := true;
      if procs[p].qlev < 2 && qticks % ta == 0 {
        procs := procs[p := procs[p].(qlev := procs[p].qlev + 1, qticks := 0, state := Runnable)];
      } else if qticks > 0 && qticks % tq == 0 {
        procs := procs[p := procs[p].(qticks := qticks, state := Runnable)];
      } else {
        procs := procs[p := procs[p].(qticks := qticks)];
        done := false;
      }
      LevelsStay(mlfq, procs0, procs, p);
      PassesStay(str, procs0, procs, p);
      RecordsStay(str.Items(), procs0, procs, p);
    }

    /** The process gives up the processor by itself: it yields, sleeps or exits. */
    method GiveUp(to: PState)
      requires Sound() && cur != 0 && !to.Running?
      modifies this`procs, this`cur, mlfq, mlfq.heap, str, str.heap
      ensures Sound() && cur == 0 && (old(InLine()) ==> InLine()) && Doubles() == old(Doubles()) && Rejoined(old(cur))
      ensures Step(old(State()), State(), mstride, sstride, old(str.count == 0))
      ensures mstride > 0 && sstride > 0 && old(str.count) > 0 && LagOk(old(State()), mstride, sstride) ==> LagOk(State(), mstride, sstride)
      ensures procs == old(procs)[old(cur) := old(procs)[old(cur)].(state := to)]
      ensures mlfq.Items() == if fromStride then old(mlfq.Items()) else old(mlfq.Items()) + multiset{old(cur)}
      ensures str.Items() == if fromStride then old(str.Items()) + multiset{old(cur)} else old(str.Items())
      ensures Shares() == old(Shares()) && (old(Fairly()) ==> Fairly())
    {
      hide Ordered, Bag, Members, Charged, LagOk, LevKey, PassKey, Levels, AtMost, Twice, Share.Least, PoolOf, Among, SiftedUp;
      ghost var procs0, p, mbag, sbag := procs, cur, mlfq.Items(), str.Items();
      ghost var v, empty := State(), str.count == 0;
      LevelOf(procs, p);
      procs := procs[cur := procs[cur].(state := to)];
      LevelsStay(mlfq, procs0, procs, p);
      PassesStay(str, procs0, procs, p);
      if p in sbag { ChargedOf(sbag, procs0, p); }
      RecordsStay(sbag, procs0, procs, p);
      Requeue();
      Back(mbag, sbag, p);
      PoolSame(sbag, if fromStride then p else 0, procs0, got, str.Items(), 0, procs);
      KeepLag(v, empty);
    }

    /** All who wait in the MLFQ can run, have no tickets, and are on one level. */
    ghost predicate OneLevel(level: nat)
      requires Shape()
      reads this`procs, this`cur, this`got, mlfq, mlfq.heap, str
    {
      forall p :: p in mlfq.Items() ==> p < |procs| && procs[p].state.Runnable? && procs[p].tickets == 0 && procs[p].qlev == level
    }

    /** The MLFQ's head gets the processor. */
    method RunHead(ghost level: nat)
      requires Sound() && cur == 0 && MlfqTurn() && mlfq.count > 0 && OneLevel(level)
      modifies this`procs, this`cur, this`fromStride, this`used, mlfq, mlfq.heap, str, str.heap
      ensures Sound() && cur == old(mlfq.heap[1]) != 0 && cur < |old(procs)| && !fromStride && cur in old(mlfq.Items())
      ensures procs == old(procs)[cur := old(procs)[cur].(state := PState.Running)]
      ensures mlfq.count == old(mlfq.count) - 1 && mlfq.Items() == old(mlfq.Items()) - multiset{cur} && str.count == old(str.count)
      ensures mlfq.heap[..] == Without(old(mlfq.heap[..]), old(mlfq.count), LevKey(old(procs)))
    {
      hide Ordered, Bag, Members, Charged, Levels, LagOk, LevKey, PassKey, AtMost, NoLess, Beside, Without, SiftedUp, Twice, PoolOf, Step,
        Share.Step, Share.Least, Among, Lowest;
      ghost var items := mlfq.Items();
      var ok := Dispatch();
      MembersLess(items, old(mlfq.heap[1]));
    }

    /** The MLFQ's head runs and yields at once. */
    method YieldOne(ghost level: nat) returns (p: nat)
      requires Sound() && cur == 0 && MlfqTurn() && mlfq.count > 0 && OneLevel(level)
      modifies this`procs, this`cur, this`fromStride, this`used, mlfq, mlfq.heap, str, str.heap
      ensures Sound() && cur == 0 && procs == old(procs) && MlfqTurn() && OneLevel(level)
      ensures p == old(mlfq.heap[1]) && mlfq.count == old(mlfq.count)
      ensures mlfq.heap[..] == Heap.Turn(old(mlfq.heap[..]), mlfq.count, LevKey(procs))
    {
      hide Ordered, Bag, Members, Charged, Levels, LagOk, LevKey, PassKey, AtMost, Without, SiftedUp, Heap.Turn, Twice, PoolOf, Step, Share.Least, Among;
      ghost var t, procs0 := mlfq.heap[..], procs;
      RunHead(level);
      p := cur;
      GiveUp(Runnable);
      assert procs == procs0;
      TurnIs(t, mlfq.count, LevKey(procs));
    }

    /**
     * Processes of one level that yield as soon as they run: up to three of them get the processor in turn. Of four or
     * more the one in the queue's second slot never gets it.
     */
    method YieldInTurn(k: nat, ghost level: nat) returns (ran: seq<nat>)
      requires Sound() && cur == 0 && MlfqTurn() && mlfq.count > 0 && OneLevel(level)
      modifies this`procs, this`cur, this`fromStride, this`used, mlfq, mlfq.heap, str, str.heap
      ensures Sound() && cur == 0 && procs == old(procs) && |ran| == k
      ensures old(mlfq.count) <= 3 ==> forall i :: 0 <= i < k ==> ran[i] == old(mlfq.heap[..])[1 + i % old(mlfq.count)]
      ensures old(mlfq.count) >= 4 ==> old(mlfq.heap[2]) !in ran
    {
      hide Ordered, Bag, Members, Charged, Levels, LagOk, LevKey, PassKey, AtMost, NoLess, Beside, Without, SiftedUp, Heap.Turn, Turns, Twice, PoolOf, Step, Share.Step, Level, Share.Least, Among, RanInTurn;
      ghost var h, n, key, procs0 := mlfq.heap[..], mlfq.count, LevKey(procs), procs;
      OneLevelIs(h, n, procs, level);
      DistinctMembers(h, n);
      TurnsNext(h, n, key, 0);
      RanNone(h, n);
      ran := [];
      while |ran| < k
        invariant Sound() && cur == 0 && procs == procs0 && |ran| <= k && mlfq.count == n && MlfqTurn() && OneLevel(level)
        invariant mlfq.heap[..] == Turns(h, n, key, |ran|)
        invariant RanInTurn(h, n, ran)
        decreases k - |ran|
      {
        RanNext(h, n, key, level, ran);
        var p := YieldOne(level);
        TurnsNext(h, n, key, |ran|);
        ran := ran + [p];
      }
      RanAll(h, n, ran);
    }

    /** fork, userinit: a process in a slot that neither queue knows joins the MLFQ at the top level. */
    method Fork(p: nat)
      requires Sound() && 1 <= p <= NPROC && p != cur && p !in mlfq.Items() && p !in str.Items()
      modifies this`procs, mlfq, mlfq.heap
      ensures Sound() && (old(InLine()) ==> InLine()) && State() == old(State()) && Doubles() == old(Doubles())
      ensures procs == old(procs)[p := Proc(Runnable, 0, 0, 0, old(procs)[p].stride, 0)]
      ensures mlfq.Items() == old(mlfq.Items()) + multiset{p} && str.Items() == old(str.Items())
      ensures mlfq.count == old(mlfq.count) + 1 && mlfq.heap[..] == SiftedUp(old(mlfq.heap[..]), mlfq.count, p, LevKey(procs))
      ensures Shares() == old(Shares()) && (old(Fairly()) ==> Fairly())
    {
      hide SiftedUp, Ordered, Bag, Members, Charged, LevKey, PassKey, Levels, AtMost, Among, PoolOf, Share.Least;
      ghost var procs0, mbag, sbag := procs, mlfq.Items(), str.Items();
      procs := procs[p := Proc(Runnable, 0, 0, 0, procs[p].stride, 0)];
      LevelsStay(mlfq, procs0, procs, p);
      PassesStay(str, procs0, procs, p);
      RecordsStay(sbag, procs0, procs, p);
      RoomFor(mlfq.heap[..], mlfq.count, p);
      MembersMore(mbag, p);
      var _ := mlfq.Enqueue(p, LevKey(procs));
      AmongMore(mbag, p);
      AmongIs(sbag, p);
      AmongRunner(mbag, p, cur);
      AmongRunner(sbag, p, cur);
      PoolOther(sbag, if fromStride then cur else 0, procs0, procs, got, p);
    }

    /** wakeup, kill: a sleeper becomes runnable where it is queued. */
    method Wake(p: nat)
      requires Sound() && p < |procs| && procs[p].state.Sleeping?
      modifies this`procs
      ensures Sound() && (old(InLine()) ==> InLine()) && State() == old(State()) && procs == old(procs)[p := old(procs)[p].(state := Runnable)]
      ensures Shares() == old(Shares()) && (old(Fairly()) ==> Fairly())
    {
      hide Ordered, Bag, Members, Charged, LevKey, PassKey, Levels, AtMost, Share.Least, PoolOf;
      ghost var procs0, runner := procs, if fromStride then cur else 0;
      LevelOf(procs, p);
      procs := procs[p := procs[p].(state := Runnable)];
      LevelsStay(mlfq, procs0, procs, p);
      PassesStay(str, procs0, procs, p);
      if p in str.Items() { ChargedOf(str.Items(), procs0, p); }
      RecordsStay(str.Items(), procs0, procs, p);
      PoolSame(str.Items(), runner, procs0, got, str.Items(), runner, procs);
    }

    /** After its MLFQ tick, once the process goes on: at a multiple of a hundred MLFQ ticks all levels are lifted. */
    method BoostIfDue()
      requires Sound()
      modifies this`procs
      ensures Sound() && (old(InLine()) ==> InLine()) && Step(old(State()), State(), mstride, sstride, str.count == 0)
      ensures Shares() == old(Shares()) && (old(Fairly()) ==> Fairly())
      ensures |procs| == |old(procs)| && forall x :: 0 <= x < |procs| ==>
        procs[x] == if mlfqticks > 0 && mlfqticks % 100 == 0 && x in mlfq.heap[1..]
                    then old(procs)[x].(qlev := 0, qticks := 0) else old(procs)[x]
    {
      if mlfqticks > 0 && mlfqticks % PRIORITYBOOST == 0 {
        PriorityBoost();
      }
    }

    /** priority_boost: it follows every slot of the queue's array, the stale ones and the null ones too. */
    method PriorityBoost()
      requires Sound()
      modifies this`procs
      ensures Sound() && (old(InLine()) ==> InLine()) && Step(old(State()), State(), mstride, sstride, str.count == 0)
      ensures Shares() == old(Shares()) && (old(Fairly()) ==> Fairly())
      ensures |procs| == |old(procs)| && forall x :: 0 <= x < |procs| ==>
        procs[x] == if x in mlfq.heap[1..] then old(procs)[x].(qlev := 0, qticks := 0) else old(procs)[x]
    {
      hide Ordered, Bag, Members, Charged, LevKey, PassKey, Levels, AtMost, Share.Least, PoolOf, Boosted;
      ghost var procs0 := procs;
      BoostedNone(procs, mlfq.heap[..]);
      var i := 1;
      while i <= NPROC
        invariant 1 <= i <= NPROC + 1 && |procs| == |procs0| && Boosted(procs0, procs, mlfq.heap[..], i)
      {
        AtMostAt(mlfq.heap[..], i);
        BoostedNext(procs0, procs, mlfq.heap[..], i);
        var x := mlfq.heap[i];
        procs := procs[x := procs[x].(qlev := 0, qticks := 0)];
        i := i + 1;
      }
      BoostedAll(procs0, procs, mlfq.heap[..]);
      BoostedLevels(mlfq, procs0, procs);
      BoostedPasses(str, procs0, procs);
      PoolSame(str.Items(), if fromStride then cur else 0, procs0, got, str.Items(), if fromStride then cur else 0, procs);
    }

    /** The two sides' tickets add up, and the stride side has not sold too many. */
    predicate Funds()
      reads this`mtickets, this`stickets
    {
      mtickets + stickets == TOTALTICKETS && stickets <= TOTALTICKETS * MAXSHARE / 100
    }

    /** set_cpu_share by the process running, which joins the stride queue at once. */
    method SetCpuShare(share: int) returns (r: Outcome)
      requires Sound() && cur != 0 && Funds()
      modifies this`mtickets, this`mstride, this`stickets, this`sstride, this`spass, this`procs, str, str.heap
      ensures Shape() && Funds()
      ensures r == if old(stickets) + TicketsOf(share) > 8000 then Refused
                   else if TicketsOf(share) == 0 || old(stickets) + TicketsOf(share) == 0 then DividesByZero else Granted
      ensures r != Granted ==> procs == old(procs) && str.heap[..] == old(str.heap[..]) && str.count == old(str.count)
      ensures r == Refused ==> stickets == old(stickets)
      ensures r != Refused ==> stickets == old(stickets) + TicketsOf(share) && spass == if old(sstride) == 0 then mpass else old(spass)
      ensures r == Granted ==>
        && procs == old(procs)[cur := Sharing(old(procs)[cur], TicketsOf(share), stickets, old(HeadPass()))]
        && mstride == Trunc(TOTALTICKETS, mtickets) && sstride == Trunc(TOTALTICKETS, stickets)
        && (old(str.count) < NPROC ==>
              && str.Items() == old(str.Items()) + multiset{cur} && str.count == old(str.count) + 1
              && str.heap[..] == SiftedUp(old(str.heap[..]), str.count, cur, PassKey(procs)))
      ensures r == Granted && -0x8000_0000 <= TOTALTICKETS * share < 0x8000_0000 ==>
        procs[cur].tickets == 100 * share && stickets == old(stickets) + 100 * share
      ensures r == Granted && cur !in old(str.Items()) && old(InLine()) ==> InLine()
      ensures r == Granted && TicketsOf(share) > 0 && old(procs[cur].tickets) == 0 ==>
        && Sound() && old(str.count) < NPROC && Doubles() == old(Doubles()) + {cur}
        && (old(Fairly()) ==> Fairly() && Share.Step(old(Shares()),
              Share.Joins(cur, Share.Account(procs[cur].pass, procs[cur].stride, got[cur])), Shares()))
      ensures r == Granted && TicketsOf(share) > 0 && old(stickets) >= 0 ==>
        IsStride(mstride, mtickets) && mstride <= 5 && IsStride(sstride, stickets) && procs[cur].stride >= 1
    {
      hide Ordered, Bag, Members, Charged, LevKey, PassKey, Levels, Trunc, IsStride, AtMost, Share.Least, PoolOf, Twice, TicketsOf, Share.Step;
      var tickets := TicketsOf(share);
      if -0x8000_0000 <= TOTALTICKETS * share < 0x8000_0000 { TicketsOfShare(share); }
      r := Fund(tickets);
      if r == Granted { JoinStride(tickets); }
    }

    /** The two sides' tickets and strides after a sale, if there are tickets left to sell. */
    method Fund(tickets: int) returns (r: Outcome)
      requires Funds()
      modifies this`mtickets, this`mstride, this`stickets, this`sstride, this`spass
      ensures Funds()
      ensures r == if old(stickets) + tickets > TOTALTICKETS * MAXSHARE / 100 then Refused
                   else if tickets == 0 || old(stickets) + tickets == 0 then DividesByZero else Granted
      ensures r == Refused ==> stickets == old(stickets)
      ensures r != Refused ==> stickets == old(stickets) + tickets && spass == if old(sstride) == 0 then mpass else old(spass)
      ensures r == Granted ==> mstride == Trunc(TOTALTICKETS, mtickets) && sstride == Trunc(TOTALTICKETS, stickets)
      ensures r == Granted && tickets > 0 && old(stickets) >= 0 ==>
        && IsStride(mstride, mtickets) && mstride <= 5 && IsStride(sstride, stickets)
        && Trunc(stickets, tickets) >= 1
    {
      hide Trunc, IsStride;
      if stickets + tickets > TOTALTICKETS * MAXSHARE / 100 { return Refused; }
      mtickets := mtickets - tickets;
      stickets := stickets + tickets;
      if sstride == 0 { spass := mpass; }
      mstride := Trunc(TOTALTICKETS, mtickets);
      if stickets == 0 { return DividesByZero; }
      sstride := Trunc(TOTALTICKETS, stickets);
      if tickets == 0 { return DividesByZero; }
      if tickets > 0 && stickets >= tickets { TruncShare(mtickets, stickets, tickets); }
      return Granted;
    }

    /** Where a new process of the stride queue starts: level with the queue's head. */
    function HeadPass(): int
      requires Shape()
      reads this`procs, this`cur, this`got, mlfq, str, str.heap
    {
      if str.count > 0 && str.heap[1] < |procs| then procs[str.heap[1]].pass else 0
    }

    /** The caller of set_cpu_share gets its tickets and starts level with the head of the stride queue. */
    method JoinStride(tickets: int)
      requires Sound() && cur != 0 && tickets != 0
      modifies this`procs, str, str.heap
      ensures Shape() && procs == old(procs)[cur := Sharing(old(procs)[cur], tickets, stickets, old(HeadPass()))]
      ensures old(str.count) < NPROC ==>
        && str.Items() == old(str.Items()) + multiset{cur} && str.count == old(str.count) + 1
        && str.heap[..] == SiftedUp(old(str.heap[..]), str.count, cur, PassKey(procs))
      ensures cur !in old(str.Items()) && old(InLine()) ==> InLine()
      ensures tickets > 0 && old(procs[cur].tickets) == 0 ==>
        && Sound() && old(str.count) < NPROC && Doubles() == old(Doubles()) + {cur}
        && (old(Fairly()) ==> Fairly() && Share.Step(old(Shares()),
              Share.Joins(cur, Share.Account(procs[cur].pass, procs[cur].stride, got[cur])), Shares()))
    {
      hide Ordered, Bag, Members, Charged, LevKey, PassKey, Levels, AtMost, Twice, Share.Least, PoolOf, Among, Trunc, Share.Step;
      ghost var procs0, mbag, sbag, line := procs, mlfq.Items(), str.Items(), InLine();
      ghost var first := procs[cur].tickets == 0;
      if cur in sbag { ChargedOf(sbag, procs, cur); }
      var pass := 0;
      if str.count > 0 {
        HeadIs(str.heap[..], str.count, procs);
        pass := procs[str.heap[1]].pass;
      }
      ghost var head := str.heap[1];
      procs := procs[cur := Sharing(procs[cur], tickets, stickets, pass)];
      if cur !in sbag { PassesStay(str, procs0, procs, cur); }
      if first {
        RoomFor(str.heap[..], str.count, cur);
        MembersMore(sbag, cur);
        LevelsStay(mlfq, procs0, procs, cur);
      }
      if first && tickets > 0 {
        LevelOf(procs0, cur);
        RecordsStay(sbag, procs0, procs, cur);
        ChargedMore(sbag, procs, cur);
      }
      var _ := str.Enqueue(cur, PassKey(procs));
      if first && tickets > 0 {
        TwiceJoins(mbag, sbag, cur);
        if line { PoolJoins(old(str.heap[..]), old(str.count), procs0, procs, got, cur); }
      }
    }

    /** The processes after the one running has bought a share. */
    ghost function Joined(share: int): (after: seq<Proc>)
      requires Shape() && cur < |procs|
      reads this`procs, this`cur, this`got, this`stickets, mlfq, str, str.heap
      ensures |after| == |procs|
    {
      procs[cur := Sharing(procs[cur], TicketsOf(share), stickets + TicketsOf(share), HeadPass())]
    }

    /** A process that buys a share now will still fit where it lands in the queue after being charged for one tick. */
    ghost predicate TickFits(share: int)
      requires Shape()
      reads this`procs, this`cur, this`got, this`stickets, mlfq, str, str.heap
    {
      str.count < NPROC &&
      KeyFits(SiftedUp(str.heap[..], str.count + 1, cur, PassKey(Joined(share))), str.count + 1, PassKey(Joined(share)), cur,
              HeadPass() + Joined(share)[cur].stride)
    }

    /**
     * What happens to every process that buys a share: it is charged for its next tick while it stands in the queue.
     * The queue comes out of order exactly if, where the process has landed, one more stride does not fit. The process is
     * on both sides now; the next time the MLFQ hands it out, `Dispatch` drops it there.
     */
    method ShareThenTick(share: int) returns (r: Outcome)
      requires Sound() && InLine() && cur != 0 && procs[cur].tickets == 0 && Funds()
      modifies this`mtickets, this`mstride, this`stickets, this`sstride, this`mpass, this`spass, this`mlfqticks
      modifies this`procs, this`cur, this`used, this`m, this`s, this`got, mlfq, mlfq.heap, str, str.heap
      ensures r == Granted && TicketsOf(share) > 0 ==>
        && Sound() && cur == 0 && Doubles() == old(Doubles()) + {old(cur)}
        && (InLine() <==> old(TickFits(share)))
        && procs == old(Joined(share))[old(cur) := TickedProc(old(Joined(share))[old(cur)])]
        && mlfq.Items() == old(mlfq.Items()) + multiset{old(cur)} && str.Items() == old(str.Items()) + multiset{old(cur)}
        && Funds() && stickets == old(stickets) + TicketsOf(share) && (old(stickets) >= 0 ==> IsStride(sstride, stickets))
        && mpass == old(mpass) && spass == (if old(sstride) == 0 then old(mpass) else old(spass)) + sstride
      ensures TicketsOf(share) > 0 && 0 <= old(stickets) && old(stickets) + TicketsOf(share) <= TOTALTICKETS * MAXSHARE / 100 ==>
        r == Granted
    {
      hide Ordered, Bag, Members, Charged, LevKey, PassKey, Levels, Trunc, IsStride, AtMost, Share.Least, PoolOf, Twice, TicketsOf, KeyFits, SiftedUp,
        LagOk, Step, Share.Step, Ticked;
      if cur in str.Items() { ChargedOf(str.Items(), procs, cur); }
      r := SetCpuShare(share);
      if r == Granted && TicketsOf(share) > 0 {
        Tick();
      }
    }
  }
}
