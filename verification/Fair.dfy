// The lag between the two schedulers: how far the pass of one may run ahead of
// the other's, whatever the processes do.
module Fair {

  const TQHIGH := 1
  const TQMIDDLE := 2
  const TQLOW := 4
  const TAHIGH := 5
  const TAMIDDLE := 10

  function Quantum(qlev: nat): (q: nat)
    ensures q > 0
  {
    if qlev == 1 then TQMIDDLE else if qlev == 2 then TQLOW else TQHIGH
  }

  /** Ticks used of the current quantum. */
  function Used(qlev: nat, qticks: nat): (n: nat)
    ensures n < Quantum(qlev)
  {
    if qlev == 1 then qticks % TQMIDDLE else if qlev == 2 then qticks % TQLOW else qticks % TQHIGH
  }

  /** The allotment of a level is used up; at the lowest one it is never looked at. */
  predicate Spent(qlev: nat, qticks: nat) {
    qlev < 2 && (if qlev == 1 then qticks % TAMIDDLE == 0 else qticks % TAHIGH == 0)
  }

  /** A tick of a process at level qlev that had used qticks: its new level and ticks, and whether it yields. */
  function Ticked(qlev: nat, qticks: nat): (nat, nat, bool) {
    if Spent(qlev, qticks + 1) then (qlev + 1, 0, true)
    else (qlev, qticks + 1, Used(qlev, qticks + 1) == 0)
  }

  /** Ticks such a process can still take before it yields. */
  function Left(qlev: nat, qticks: nat): (n: nat)
    ensures 1 <= n <= 4
  {
    Quantum(qlev) - Used(qlev, qticks)
  }

  /** A tick that does not end the turn uses up one of the ticks left. */
  lemma LeftFalls(qlev: nat, qticks: nat)
    requires qlev <= 2
    ensures var (l, t, done) := Ticked(qlev, qticks); l <= 2 && (!done ==> Left(l, t) == Left(qlev, qticks) - 1)
  {
    UsedNext(qlev, qticks);
  }

  lemma UsedNext(qlev: nat, qticks: nat)
    ensures Used(qlev, qticks + 1) == 0 || Used(qlev, qticks + 1) == Used(qlev, qticks) + 1
  {
  }

  /** Level and ticks after k ticks of one process, if no boost comes. */
  function Climbed(qlev: nat, qticks: nat, k: nat): (nat, nat) {
    if k == 0 then (qlev, qticks)
    else
      var (l, t) := Climbed(qlev, qticks, k - 1);
      (Ticked(l, t).0, Ticked(l, t).1)
  }

  /** A process starts on level 0, goes down to level 1 with its fifth tick, with its fifteenth to level 2, and stays there. */
  lemma {:induction false} Ladder(k: nat)
    ensures Climbed(0, 0, k) == if k < 5 then (0, k) else if k < 15 then (1, k - 5) else (2, k - 15)
  {
    if k > 0 { Ladder(k - 1); }
  }

  /** The ticks from now until the process yields. */
  function TurnLength(qlev: nat, qticks: nat): (n: nat)
    requires qlev <= 2
    decreases Left(qlev, qticks)
  {
    var (l, t, done) := Ticked(qlev, qticks);
    LeftFalls(qlev, qticks);
    if done then 1 else 1 + TurnLength(l, t)
  }

  /** From the start of a quantum a turn lasts one, two or four ticks, by the level. */
  lemma QuantumLasts(qticks: nat)
    ensures TurnLength(0, qticks) == 1
    ensures qticks % 2 == 0 ==> TurnLength(1, qticks) == 2
    ensures qticks % 4 == 0 ==> TurnLength(2, qticks) == 4
  {
    if qticks % 2 == 0 { assert !Ticked(1, qticks).2 && Ticked(1, qticks + 1).2; }
    if qticks % 4 == 0 {
      assert !Ticked(2, qticks).2 && !Ticked(2, qticks + 1).2 && !Ticked(2, qticks + 2).2 && Ticked(2, qticks + 3).2;
      assert TurnLength(2, qticks + 2) == 2;
    }
  }

  /** Who has the processor: nobody, a process of the MLFQ with its level and ticks, or a stride process. */
  datatype Run = Idle | InMlfq(qlev: nat, qticks: nat, used: nat) | InStride

  /** Both passes, and the ticks each side has had. */
  datatype View = View(mp: int, sp: int, m: nat, s: nat, run: Run)

  /**
   * What can happen: a dispatch, a tick, the process leaving early, a priority boost of the process running. `empty`
   * says whether the stride queue is empty.
   */
  ghost predicate Step(v: View, w: View, ms: int, ss: int, empty: bool) {
    || v == w
    || (v.run.Idle? && (v.mp <= v.sp || empty) && w.run.InMlfq? && w.run.used == 0 && w.run.qlev <= 2 && w == v.(run := w.run))
    || (v.run.Idle? && !(v.mp <= v.sp || empty) && w == v.(run := InStride))
    || (v.run.InMlfq? && var (l, t, done) := Ticked(v.run.qlev, v.run.qticks);
          w == v.(mp := v.mp + ms, m := v.m + 1, run := if done then Idle else InMlfq(l, t, v.run.used + 1)))
    || (v.run.InStride? && w == v.(sp := v.sp + ss, s := v.s + 1, run := Idle))
    || w == v.(run := Idle)
    || (v.run.InMlfq? && w == v.(run := InMlfq(0, 0, v.run.used)))
  }

  /** The lag is bounded at every dispatch, and in a turn it has grown by the ticks used. */
  ghost predicate LagOk(v: View, ms: int, ss: int) {
    match v.run
    case Idle => v.mp - v.sp <= 4 * ms && v.sp - v.mp <= ss
    case InMlfq(qlev, qticks, used) =>
      qlev <= 2 && used + Left(qlev, qticks) <= 4 && v.mp - v.sp <= used * ms && v.sp - v.mp <= ss
    case InStride => 0 < v.mp - v.sp <= 4 * ms
  }

  lemma FairStep(v: View, w: View, ms: int, ss: int)
    requires LagOk(v, ms, ss) && Step(v, w, ms, ss, false) && ms > 0 && ss > 0
    ensures LagOk(w, ms, ss)
  {
    if v.run.InMlfq? {
      LeftFalls(v.run.qlev, v.run.qticks);
      Within(v.run.used, 4, ms);
      Within(v.run.used + 1, 4, ms);
    }
  }

  lemma Within(n: nat, k: nat, x: int)
    requires x > 0
    ensures n <= k ==> n * x <= k * x
    ensures n * x + x == (n + 1) * x
  {
  }

  ghost predicate IsRun(run: seq<View>, ms: int, ss: int) {
    forall i :: 0 <= i < |run| - 1 ==> Step(run[i], run[i + 1], ms, ss, false)
  }

  lemma {:induction false} FairRun(run: seq<View>, ms: int, ss: int, i: nat)
    requires IsRun(run, ms, ss) && i < |run| && LagOk(run[0], ms, ss) && ms > 0 && ss > 0
    ensures LagOk(run[i], ms, ss)
  {
    if i > 0 {
      FairRun(run, ms, ss, i - 1);
      FairStep(run[i - 1], run[i], ms, ss);
    }
  }

  lemma OneMore(n: int, x: int)
    ensures (n + 1) * x == n * x + x
  {
  }

  lemma StepTicks(v: View, w: View, ms: int, ss: int)
    requires Step(v, w, ms, ss, false)
    ensures (w.m == v.m && w.mp == v.mp) || (w.m == v.m + 1 && w.mp == v.mp + ms)
    ensures (w.s == v.s && w.sp == v.sp) || (w.s == v.s + 1 && w.sp == v.sp + ss)
  {
  }

  /** Passes move with the ticks, and with nothing else. */
  lemma {:induction false} PassesCount(run: seq<View>, ms: int, ss: int, i: nat, j: nat)
    requires IsRun(run, ms, ss) && i <= j < |run|
    ensures run[j].m >= run[i].m && run[j].s >= run[i].s
    ensures run[j].mp - run[i].mp == (run[j].m - run[i].m) * ms && run[j].sp - run[i].sp == (run[j].s - run[i].s) * ss
    decreases j - i
  {
    if i < j {
      PassesCount(run, ms, ss, i, j - 1);
      var v, w := run[j - 1], run[j];
      assert Step(v, w, ms, ss, false);
      StepTicks(v, w, ms, ss);
      hide Step;
      OneMore(v.m - run[i].m, ms);
      OneMore(v.s - run[i].s, ss);
    }
  }

  /**
   * Bounded lag: between any two dispatches of a run, the ticks each side got, weighted by its stride, differ by no
   * more than four MLFQ strides and one stride of the stride scheduler.
   */
  lemma BoundedLag(run: seq<View>, ms: int, ss: int, i: nat, j: nat)
    requires IsRun(run, ms, ss) && i <= j < |run| && LagOk(run[0], ms, ss) && ms > 0 && ss > 0
    requires run[i].run.Idle? && run[j].run.Idle?
    ensures var m, s := run[j].m - run[i].m, run[j].s - run[i].s;
      -(4 * ms + ss) <= m * ms - s * ss <= 4 * ms + ss
  {
    FairRun(run, ms, ss, i);
    FairRun(run, ms, ss, j);
    PassesCount(run, ms, ss, i, j);
  }

  /** The four is reached: a process at the lowest level takes four ticks in one turn. */
  lemma FourIsNeeded(ms: int, ss: int) returns (run: seq<View>)
    requires ms > 0 && ss > 0
    ensures IsRun(run, ms, ss) && |run| > 0 && LagOk(run[0], ms, ss)
    ensures run[|run| - 1].run.Idle? && run[|run| - 1].mp - run[|run| - 1].sp == 4 * ms
  {
    run := [View(0, 0, 0, 0, Idle), View(0, 0, 0, 0, InMlfq(2, 0, 0)), View(ms, 0, 1, 0, InMlfq(2, 1, 1)),
            View(2 * ms, 0, 2, 0, InMlfq(2, 2, 2)), View(3 * ms, 0, 3, 0, InMlfq(2, 3, 3)), View(4 * ms, 0, 4, 0, Idle)];
    assert Step(run[0], run[1], ms, ss, false);
    assert Step(run[1], run[2], ms, ss, false);
    assert Step(run[2], run[3], ms, ss, false);
    assert Step(run[3], run[4], ms, ss, false);
    assert Step(run[4], run[5], ms, ss, false);
  }

  /** With the stride queue empty the MLFQ runs on, and the lag has no bound. */
  lemma {:induction false} NoBoundWhenEmpty(ms: int, ss: int, n: nat) returns (run: seq<View>)
    requires ms > 0
    ensures |run| > 0 && run[0] == View(0, 0, 0, 0, Idle) && run[|run| - 1] == View(n * ms, 0, n, 0, Idle)
    ensures forall i :: 0 <= i < |run| - 1 ==> Step(run[i], run[i + 1], ms, ss, true)
  {
    run := [View(0, 0, 0, 0, Idle)];
    if n > 0 {
      run := NoBoundWhenEmpty(ms, ss, n - 1);
      var v := run[|run| - 1];
      var u, w := v.(run := InMlfq(0, 0, 0)), View(n * ms, 0, n, 0, Idle);
      assert Step(v, u, ms, ss, true);
      assert Ticked(0, 0).2 && (n - 1) * ms + ms == n * ms;
      assert Step(u, w, ms, ss, true);
      run := run + [u, w];
    }
  }
}
