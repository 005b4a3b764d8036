// sleep, wakeup and the sleeplock built on them, one lock operation at a time:
// any number of processes, interleaved anyhow, with kills.
module SleepLock {

  /** Where a process is in acquiresleep, sleep, releasesleep or wakeup. */
  datatype Pc =
    | Out              // not using the lock
    | WantInner        // acquiresleep: acquire(&lk->lk)
    | Test             // holds lk->lk: while (lk->locked)
    | WantTable        // sleep: acquire(&ptable.lock), still holding lk->lk
    | GotTable         // sleep: release(lk)
    | Falling          // sleep: p->chan = chan; p->state = SLEEPING; sched()
    | Asleep           // SLEEPING on the lock
    | Woken            // RUNNABLE again, not yet running
    | Returning        // back from sched, holds ptable.lock: release it
    | WantAgain        // sleep: acquire(lk)
    | Own              // lk->locked = 1 done: release(&lk->lk)
    | Critical         // holds the sleeplock
    | WantBack         // releasesleep: acquire(&lk->lk)
    | Clear            // releasesleep: lk->locked = 0
    | WantWake         // wakeup: acquire(&ptable.lock)
    | Waking(i: nat)   // wakeup1 is at slot i
    | Leaving          // wakeup done: release(&lk->lk)

  const NOBODY := -1

  /** Holders of the sleeplock's spinlock and of ptable.lock, the sleeplock's fields, and every process's place. */
  datatype Sys = Sys(inner: int, table: int, locked: bool, pid: int, pc: seq<Pc>)

  predicate HoldsInner(c: Pc) {
    c.Test? || c.WantTable? || c.GotTable? || c.Own? || c.Clear? || c.WantWake? || c.Waking? || c.Leaving?
  }

  predicate HoldsTable(c: Pc) { c.GotTable? || c.Falling? || c.Returning? || c.Waking? }

  /** Between being granted the sleeplock and giving it up. */
  predicate HoldsSleeplock(c: Pc) { c.Own? || c.Critical? || c.WantBack? || c.Clear? }

  function At(s: Sys, p: nat, c: Pc): Sys
    requires p < |s.pc|
  {
    s.(pc := s.pc[p := c])
  }

  /** Process p does its next operation. */
  ghost predicate Move(s: Sys, t: Sys, p: nat)
    requires p < |s.pc|
  {
    match s.pc[p]
    case Out => t == At(s, p, WantInner)
    case WantInner => s.inner == NOBODY && t == At(s, p, Test).(inner := p)
    case Test => if s.locked then t == At(s, p, WantTable) else t == At(s, p, Own).(locked := true, pid := p)
    case WantTable => s.table == NOBODY && t == At(s, p, GotTable).(table := p)
    case GotTable => t == At(s, p, Falling).(inner := NOBODY)
    case Falling => t == At(s, p, Asleep).(table := NOBODY)
    case Asleep => false
    case Woken => s.table == NOBODY && t == At(s, p, Returning).(table := p)
    case Returning => t == At(s, p, WantAgain).(table := NOBODY)
    case WantAgain => s.inner == NOBODY && t == At(s, p, Test).(inner := p)
    case Own => t == At(s, p, Critical).(inner := NOBODY)
    case Critical => t == At(s, p, WantBack)
    case WantBack => s.inner == NOBODY && t == At(s, p, Clear).(inner := p)
    case Clear => t == At(s, p, WantWake).(locked := false, pid := NOBODY)
    case WantWake => s.table == NOBODY && t == At(s, p, Waking(0)).(table := p)
    case Waking(i) =>
      if i < |s.pc| then t == (if s.pc[i].Asleep? then At(At(s, i, Woken), p, Waking(i + 1)) else At(s, p, Waking(i + 1)))
      else t == At(s, p, Leaving).(table := NOBODY)
    case Leaving => t == At(s, p, Out).(inner := NOBODY)
  }

  /** kill makes a sleeper runnable, under ptable.lock. */
  ghost predicate Kill(s: Sys, t: Sys, p: nat)
    requires p < |s.pc|
  {
    s.table == NOBODY && s.pc[p].Asleep? && t == At(s, p, Woken)
  }

  ghost predicate Step(s: Sys, t: Sys) {
    s == t || exists p: nat {:trigger Acts(s, t, p)} :: p < |s.pc| && Acts(s, t, p)
  }

  ghost predicate Acts(s: Sys, t: Sys, p: nat)
    requires p < |s.pc|
  {
    Move(s, t, p) || Kill(s, t, p)
  }

  ghost predicate Init(s: Sys) {
    s.inner == NOBODY && s.table == NOBODY && !s.locked && s.pid == NOBODY && forall p :: 0 <= p < |s.pc| ==> s.pc[p].Out?
  }

  /** Whoever holds lk->lk is still going to wake process p. */
  predicate WillWake(s: Sys, p: nat) {
    0 <= s.inner < |s.pc| && (s.pc[s.inner].WantWake? || (s.pc[s.inner].Waking? && s.pc[s.inner].i <= p))
  }

  ghost predicate ProcOk(s: Sys, p: nat)
    requires p < |s.pc|
  {
    LocksOk(s, p) && SleepOk(s, p)
  }

  /** The three locks agree with where process p is. */
  ghost predicate LocksOk(s: Sys, p: nat)
    requires p < |s.pc|
  {
    && (HoldsInner(s.pc[p]) <==> s.inner == p)
    && (HoldsTable(s.pc[p]) <==> s.table == p)
    && (HoldsSleeplock(s.pc[p]) <==> s.locked && s.pid == p)
  }

  /** A process that goes to sleep does so with the sleeplock taken, and one asleep will be woken. */
  ghost predicate SleepOk(s: Sys, p: nat)
    requires p < |s.pc|
  {
    && (s.pc[p].WantTable? || s.pc[p].GotTable? ==> s.locked)
    && (s.pc[p].Falling? || s.pc[p].Asleep? ==> s.locked || WillWake(s, p))
  }

  ghost predicate Inv(s: Sys) {
    && (forall p: nat {:trigger ProcOk(s, p)} :: p < |s.pc| ==> ProcOk(s, p))
    && NOBODY <= s.inner < |s.pc| && NOBODY <= s.table < |s.pc|
    && (s.locked ==> 0 <= s.pid < |s.pc|)
  }

  lemma KeepMove(s: Sys, t: Sys, p: nat)
    requires Inv(s) && p < |s.pc| && Acts(s, t, p)
    ensures Inv(t) && |t.pc| == |s.pc|
  {
    assert ProcOk(s, p);
    forall q: nat {:trigger ProcOk(t, q)} | q < |t.pc| ensures ProcOk(t, q) {
      assert ProcOk(s, q);
      if Kill(s, t, p) { KeepKill(s, t, p, q); } else { KeepOther(s, t, p, q); }
    }
    hide ProcOk;
  }

  lemma KeepKill(s: Sys, t: Sys, p: nat, q: nat)
    requires p < |s.pc| && q < |s.pc| && ProcOk(s, p) && ProcOk(s, q) && Kill(s, t, p)
    ensures |t.pc| == |s.pc| && ProcOk(t, q)
  {
  }

  lemma KeepOther(s: Sys, t: Sys, p: nat, q: nat)
    requires p < |s.pc| && q < |s.pc| && ProcOk(s, p) && ProcOk(s, q) && Move(s, t, p)
    ensures ProcOk(t, q)
  {
    hide Move, LocksOk, SleepOk;
    KeepLocks(s, t, p, q);
    KeepSleep(s, t, p, q);
  }

  lemma KeepLocks(s: Sys, t: Sys, p: nat, q: nat)
    requires p < |s.pc| && q < |s.pc| && LocksOk(s, p) && LocksOk(s, q) && Move(s, t, p)
    ensures |t.pc| == |s.pc| && LocksOk(t, q)
  {
  }

  lemma KeepSleep(s: Sys, t: Sys, p: nat, q: nat)
    requires p < |s.pc| && q < |s.pc| && LocksOk(s, p) && SleepOk(s, p) && LocksOk(s, q) && SleepOk(s, q) && Move(s, t, p)
    ensures |t.pc| == |s.pc| && SleepOk(t, q)
  {
  }

  lemma KeepStep(s: Sys, t: Sys)
    requires Inv(s) && Step(s, t)
    ensures Inv(t) && |t.pc| == |s.pc|
  {
    hide Move, Kill, Inv;
    if s != t {
      var p: nat :| p < |s.pc| && Acts(s, t, p);
      KeepMove(s, t, p);
    }
  }

  ghost predicate IsRun(run: seq<Sys>) {
    |run| > 0 && Init(run[0]) && forall i :: 0 <= i < |run| - 1 ==> Step(run[i], run[i + 1])
  }

  lemma {:induction false} RunInv(run: seq<Sys>, i: nat)
    requires IsRun(run) && i < |run|
    ensures Inv(run[i])
  {
    if i > 0 {
      RunInv(run, i - 1);
      KeepStep(run[i - 1], run[i]);
    } else {
      forall p: nat {:trigger ProcOk(run[0], p)} | p < |run[0].pc| ensures ProcOk(run[0], p) {
      }
    }
  }

  /** In every state of every run at most one process holds the sleeplock. */
  lemma MutualExclusion(run: seq<Sys>, i: nat, p: nat, q: nat)
    requires IsRun(run) && i < |run| && p < |run[i].pc| && q < |run[i].pc|
    requires HoldsSleeplock(run[i].pc[p]) && HoldsSleeplock(run[i].pc[q])
    ensures p == q && run[i].locked && run[i].pid == p
  {
    RunInv(run, i);
    assert ProcOk(run[i], p) && ProcOk(run[i], q);
  }

  /** No wakeup is lost: once the spinlock is free and the sleeplock not taken, nobody sleeps on it. */
  lemma NoLostWakeup(run: seq<Sys>, i: nat, p: nat)
    requires IsRun(run) && i < |run| && p < |run[i].pc|
    requires run[i].inner == NOBODY && !run[i].locked
    ensures !run[i].pc[p].Asleep? && !run[i].pc[p].Falling?
  {
    RunInv(run, i);
    assert ProcOk(run[i], p);
  }

  /** A sleeper always has someone who will wake it: the owner, or a wakeup that has not yet come past it. */
  lemma SleeperIsOwed(run: seq<Sys>, i: nat, p: nat)
    requires IsRun(run) && i < |run| && p < |run[i].pc| && run[i].pc[p].Asleep?
    ensures run[i].locked ==> 0 <= run[i].pid < |run[i].pc| && run[i].pid != p && HoldsSleeplock(run[i].pc[run[i].pid])
    ensures !run[i].locked ==> WillWake(run[i], p) && run[i].inner != p
  {
    RunInv(run, i);
    assert ProcOk(run[i], p);
    if run[i].locked { assert ProcOk(run[i], run[i].pid); }
  }

  /** How far a process has come round: out, trying for the sleeplock, granted it, and giving it back. */
  function Stage(c: Pc): (n: nat)
    ensures n < 9
  {
    match c
    case Out => 0
    case Own => 2
    case Critical => 3
    case WantBack => 4
    case Clear => 5
    case WantWake => 6
    case Waking(_) => 7
    case Leaving => 8
    case _ => 1
  }

  /** A process goes on to the next stage or stays where it is. */
  lemma StageStep(s: Sys, t: Sys, p: nat)
    requires Step(s, t) && p < |s.pc|
    ensures |t.pc| == |s.pc|
    ensures Stage(t.pc[p]) == Stage(s.pc[p]) || Stage(t.pc[p]) == (Stage(s.pc[p]) + 1) % 9
  {
    if s != t {
      var q: nat :| q < |s.pc| && Acts(s, t, q);
      if !Kill(s, t, q) { MoveStage(s, t, q, p); }
    }
  }

  lemma MoveStage(s: Sys, t: Sys, q: nat, p: nat)
    requires q < |s.pc| && p < |s.pc| && Move(s, t, q)
    ensures |t.pc| == |s.pc| && (Stage(t.pc[p]) == Stage(s.pc[p]) || Stage(t.pc[p]) == (Stage(s.pc[p]) + 1) % 9)
  {
  }

  lemma {:induction false} SameSize(run: seq<Sys>, i: nat)
    requires IsRun(run) && i < |run|
    ensures |run[i].pc| == |run[0].pc|
  {
    if i > 0 {
      SameSize(run, i - 1);
      RunInv(run, i - 1);
      KeepStep(run[i - 1], run[i]);
    }
  }

  /**
   * Nobody comes out of acquiresleep without the sleeplock, and nobody ends releasesleep without having given it up and
   * gone past every sleeper: a process that wanted the lock and is out again has been through each stage.
   */
  lemma {:induction false} EveryStage(run: seq<Sys>, i: nat, j: nat, p: nat, c: nat) returns (k: nat)
    requires IsRun(run) && i <= j < |run| && p < |run[0].pc| && |run[i].pc| == |run[j].pc| == |run[0].pc|
    requires 1 <= Stage(run[i].pc[p]) < c < 9 && (Stage(run[j].pc[p]) == 0 || Stage(run[j].pc[p]) >= c)
    ensures i < k <= j && |run[k].pc| == |run[0].pc| && Stage(run[k].pc[p]) == c
    decreases j
  {
    hide Stage, Step, Init;
    if Stage(run[j].pc[p]) == c {
      k := j;
    } else {
      SameSize(run, j - 1);
      StageStep(run[j - 1], run[j], p);
      k := EveryStage(run, i, j - 1, p, c);
    }
  }

  /** Between wanting the sleeplock and being out again a process has owned it, alone. */
  lemma OwnedBetween(run: seq<Sys>, i: nat, j: nat, p: nat) returns (k: nat)
    requires IsRun(run) && i < j < |run| && p < |run[i].pc| && p < |run[j].pc| && run[i].pc[p].WantInner? && run[j].pc[p].Out?
    ensures i < k < j && p < |run[k].pc| && run[k].pc[p].Own? && run[k].locked && run[k].pid == p
  {
    SameSize(run, i);
    SameSize(run, j);
    k := EveryStage(run, i, j, p, 2);
    assert run[k].pc[p].Own?;
    MutualExclusion(run, k, p, p);
  }

  /** What process p is about to do can be done now. */
  predicate Ready(s: Sys, p: nat)
    requires p < |s.pc|
  {
    match s.pc[p]
    case Asleep => false
    case WantInner | WantAgain | WantBack => s.inner == NOBODY
    case WantTable | Woken | WantWake => s.table == NOBODY
    case _ => true
  }

  lemma ReadyIff(s: Sys, p: nat)
    requires p < |s.pc|
    ensures Ready(s, p) <==> exists t {:trigger Move(s, t, p)} :: Move(s, t, p)
  {
    if Ready(s, p) {
      var t: Sys;
      match s.pc[p] {
        case Out => t := At(s, p, WantInner);
        case WantInner => t := At(s, p, Test).(inner := p);
        case Test => t := if s.locked then At(s, p, WantTable) else At(s, p, Own).(locked := true, pid := p);
        case WantTable => t := At(s, p, GotTable).(table := p);
        case GotTable => t := At(s, p, Falling).(inner := NOBODY);
        case Falling => t := At(s, p, Asleep).(table := NOBODY);
        case Asleep => t := s;
        case Woken => t := At(s, p, Returning).(table := p);
        case Returning => t := At(s, p, WantAgain).(table := NOBODY);
        case WantAgain => t := At(s, p, Test).(inner := p);
        case Own => t := At(s, p, Critical).(inner := NOBODY);
        case Critical => t := At(s, p, WantBack);
        case WantBack => t := At(s, p, Clear).(inner := p);
        case Clear => t := At(s, p, WantWake).(locked := false, pid := NOBODY);
        case WantWake => t := At(s, p, Waking(0)).(table := p);
        case Waking(i) =>
          if i < |s.pc| {
            t := if s.pc[i].Asleep? then At(At(s, i, Woken), p, Waking(i + 1)) else At(s, p, Waking(i + 1));
          } else {
            t := At(s, p, Leaving).(table := NOBODY);
          }
        case Leaving => t := At(s, p, Out).(inner := NOBODY);
      }
      assert Move(s, t, p);
    }
  }

  /** No deadlock: as long as somebody is not out, somebody who is not out can go on. */
  lemma NoDeadlock(run: seq<Sys>, i: nat, p: nat) returns (q: nat)
    requires IsRun(run) && i < |run| && p < |run[i].pc| && !run[i].pc[p].Out?
    ensures q < |run[i].pc| && !run[i].pc[q].Out? && exists t {:trigger Move(run[i], t, q)} :: Move(run[i], t, q)
  {
    var s := run[i];
    RunInv(run, i);
    assert ProcOk(s, p);
    q := p;
    if s.table != NOBODY {
      q := s.table;
      assert ProcOk(s, q);
    } else if s.inner != NOBODY {
      q := s.inner;
      assert ProcOk(s, q);
    } else if s.pc[p].Asleep? {
      q := s.pid;
      assert ProcOk(s, q);
    }
    assert Ready(s, q) && !s.pc[q].Out?;
    ReadyIff(s, q);
  }

  /** The step of a sleep that released lk before it took ptable.lock. */
  ghost predicate HastyMove(s: Sys, t: Sys, p: nat)
    requires p < |s.pc|
  {
    if s.pc[p].WantTable? then t == At(s, p, WantAgain).(inner := NOBODY)           // release(lk)
    else if s.pc[p].WantAgain? then s.table == NOBODY && t == At(s, p, Falling).(table := p)  // then acquire(&ptable.lock)
    else Move(s, t, p)
  }

  ghost predicate HastyRun(run: seq<Sys>, who: seq<nat>) {
    |run| == |who| + 1 && forall i :: 0 <= i < |who| ==> who[i] < |run[i].pc| && HastyMove(run[i], run[i + 1], who[i])
  }

  lemma HastyJoin(run: seq<Sys>, who: seq<nat>, run': seq<Sys>, who': seq<nat>)
    requires HastyRun(run, who) && HastyRun(run', who') && run[|who|] == run'[0]
    ensures HastyRun(run + run'[1..], who + who') && (run + run'[1..])[|who + who'|] == run'[|who'|]
  {
    hide HastyMove;
    var r, w := run + run'[1..], who + who';
    forall i | 0 <= i < |w| ensures w[i] < |r[i].pc| && HastyMove(r[i], r[i + 1], w[i]) {
      if i < |who| {
        assert r[i + 1] == run[i + 1];
      } else {
        assert r[i] == run'[i - |who|] && r[i + 1] == run'[i - |who| + 1] && w[i] == who'[i - |who|];
      }
    }
  }

  /** Process 0 takes the sleeplock; process 1 finds it taken and lets go of the spinlock. */
  lemma HastyTest(s0: Sys, s8: Sys) returns (run: seq<Sys>, who: seq<nat>)
    requires s0 == Sys(NOBODY, NOBODY, false, NOBODY, [Out, Out]) && s8 == Sys(NOBODY, NOBODY, true, 0, [Critical, WantAgain])
    ensures HastyRun(run, who) && run[0] == s0 && run[|who|] == s8
  {
    var s1 := s0.(pc := [WantInner, Out]);
    var s2 := s1.(inner := 0, pc := [Test, Out]);
    var s3 := s2.(locked := true, pid := 0, pc := [Own, Out]);
    var s4 := s3.(inner := NOBODY, pc := [Critical, Out]);
    var s5 := s4.(pc := [Critical, WantInner]);
    var s6 := s5.(inner := 1, pc := [Critical, Test]);
    var s7 := s6.(pc := [Critical, WantTable]);
    run, who := [s0, s1, s2, s3, s4, s5, s6, s7, s8], [0, 0, 0, 0, 1, 1, 1, 1];
  }

  /** Process 0 releases the sleeplock and finds nobody to wake. */
  lemma HastyRelease(s8: Sys, s16: Sys) returns (run: seq<Sys>, who: seq<nat>)
    requires s8 == Sys(NOBODY, NOBODY, true, 0, [Critical, WantAgain]) && s16 == Sys(NOBODY, NOBODY, false, NOBODY, [Out, WantAgain])
    ensures HastyRun(run, who) && run[0] == s8 && run[|who|] == s16
  {
    var s9 := s8.(pc := [WantBack, WantAgain]);
    var s10 := s9.(inner := 0, pc := [Clear, WantAgain]);
    var s11 := s10.(locked := false, pid := NOBODY, pc := [WantWake, WantAgain]);
    var s12 := s11.(table := 0, pc := [Waking(0), WantAgain]);
    var s13 := s12.(pc := [Waking(1), WantAgain]);
    var s14 := s13.(pc := [Waking(2), WantAgain]);
    var s15 := s14.(table := NOBODY, pc := [Leaving, WantAgain]);
    run, who := [s8, s9, s10, s11, s12, s13, s14, s15, s16], [0, 0, 0, 0, 0, 0, 0, 0];
  }

  /** The order of the two locks in sleep is what does it: the other way round a wakeup gets lost. */
  lemma HastySleepLosesWakeup() returns (run: seq<Sys>, who: seq<nat>)
    ensures HastyRun(run, who) && Init(run[0]) && run[|who|] == Sys(NOBODY, NOBODY, false, NOBODY, [Out, Asleep])
  {
    var s0 := Sys(NOBODY, NOBODY, false, NOBODY, [Out, Out]);
    var s8 := Sys(NOBODY, NOBODY, true, 0, [Critical, WantAgain]);
    var s16 := Sys(NOBODY, NOBODY, false, NOBODY, [Out, WantAgain]);
    var s17 := s16.(table := 1, pc := [Out, Falling]);
    var s18 := s17.(table := NOBODY, pc := [Out, Asleep]);
    var run1, who1 := HastyTest(s0, s8);
    var run2, who2 := HastyRelease(s8, s16);
    assert HastyRun([s16, s17, s18], [1, 1]);
    hide HastyRun;
    HastyJoin(run1, who1, run2, who2);
    HastyJoin(run1 + run2[1..], who1 + who2, [s16, s17, s18], [1, 1]);
    run, who := run1 + run2[1..] + [s16, s17, s18][1..], who1 + who2 + [1, 1];
  }
}
