// Main results about whole runs of the logging system.
module LogTheorems {
  import opened Blocks
  import opened LogSpec
  import opened LogRun

  ghost predicate StepTo(g: Geometry, budget: nat, s: Sys, t: Sys) {
    Shape(g, s) && exists a :: Enabled(g, budget, s, a) && t == Next(g, budget, s, a)
  }

  /** The machine at power-on: nothing cached, recovery about to read the log. */
  ghost function Boot(g: Geometry, d: Disk, nproc: nat): Sys
    requires Recoverable(g, d)
  {
    var home := seq(|d|, b requires 0 <= b < |d| => if g.Home(b) then HomeValue(g, d, b) else d[b]);
    Sys(d, map[], [], seq(nproc, _ => Idle), Recovering(0, d), [home])
  }

  ghost predicate IsRun(g: Geometry, budget: nat, r: seq<Sys>) {
    && |r| > 0
    && Recoverable(g, r[0].disk) && r[0] == Boot(g, r[0].disk, |r[0].ops|)
    && forall i :: 0 <= i < |r| - 1 ==> StepTo(g, budget, r[i], r[i + 1])
  }

  lemma BootInv(g: Geometry, budget: nat, d: Disk, nproc: nat)
    requires Recoverable(g, d)
    ensures Inv(g, budget, Boot(g, d, nproc))
  {
    hide HomeValue; hide HeaderCount; hide HeaderBlocks;
    NoneOutstanding(Boot(g, d, nproc).ops);
  }

  lemma {:induction false} RunInv(g: Geometry, budget: nat, r: seq<Sys>, i: nat)
    requires IsRun(g, budget, r) && i < |r|
    ensures Inv(g, budget, r[i])
  {
    hide Inv; hide Enabled; hide Next; hide Boot;
    if i == 0 {
      BootInv(g, budget, r[0].disk, |r[0].ops|);
    } else {
      RunInv(g, budget, r, i - 1);
      assert StepTo(g, budget, r[i - 1], r[i - 1 + 1]);
      var a :| Enabled(g, budget, r[i - 1], a) && r[i] == Next(g, budget, r[i - 1], a);
      KeepInv(g, budget, r[i - 1], a);
    }
  }

  // ----- durability

  /** A state in which no operation is half done. */
  ghost predicate Quiet(s: Sys) {
    Outstanding(s.ops) == 0 && forall b :: b in s.cache ==> !s.cache[b].Touched()
  }

  /** Only the commit point adds to the durable history, and what it adds is the view of a quiet state. */
  lemma HistoryStep(g: Geometry, budget: nat, s: Sys, t: Sys)
    requires Inv(g, budget, s) && StepTo(g, budget, s, t)
    ensures t.hist == s.hist || (t.hist == s.hist + [Snapshot(s)] && Quiet(s))
  {
    var a :| Enabled(g, budget, s, a) && t == Next(g, budget, s, a);
    if a.CommitStep? {
      NoneOutstanding(s.ops);
    }
  }

  /** Every durable state after the first is the whole file-system view at some earlier quiet moment of the run. */
  lemma {:induction false} HistoryIsQuietViews(g: Geometry, budget: nat, r: seq<Sys>, i: nat)
    requires IsRun(g, budget, r) && i < |r|
    ensures r[0].hist <= r[i].hist && |r[0].hist| == 1
    ensures forall e :: 1 <= e < |r[i].hist| ==>
      exists j :: 0 <= j < i && Quiet(r[j]) && r[i].hist[e] == Snapshot(r[j])
  {
    hide Inv; hide Quiet;
    if i > 0 {
      HistoryIsQuietViews(g, budget, r, i - 1);
      RunInv(g, budget, r, i - 1);
      assert StepTo(g, budget, r[i - 1], r[i - 1 + 1]);
      HistoryStep(g, budget, r[i - 1], r[i]);
      forall e | 1 <= e < |r[i].hist|
        ensures exists j :: 0 <= j < i && Quiet(r[j]) && r[i].hist[e] == Snapshot(r[j])
      {
        if e < |r[i - 1].hist| {
          assert r[i].hist[e] == r[i - 1].hist[e];
        } else {
          assert r[i].hist[e] == Snapshot(r[i - 1]);
        }
      }
    }
  }

  lemma {:induction false} HistoryGrows(g: Geometry, budget: nat, r: seq<Sys>, i: nat, j: nat)
    requires IsRun(g, budget, r) && i <= j < |r|
    ensures r[i].hist <= r[j].hist
    decreases j
  {
    hide Inv, Next, Boot, Enabled;
    if i < j {
      HistoryGrows(g, budget, r, i, j - 1);
      RunInv(g, budget, r, j - 1);
      assert StepTo(g, budget, r[j - 1], r[j - 1 + 1]);
      HistoryStep(g, budget, r[j - 1], r[j]);
    }
  }

  /** Outside installation and recovery the home blocks on disk are the last durable state. */
  ghost predicate HomesSettled(s: Sys) {
    s.phase.Running? || s.phase.Committed? || (s.phase.Committing? && s.phase.k <= |s.lh|)
  }

  /**
   * Durability over every run with crashes: at each state the disk is recoverable to the last durable state; outside
   * the install phase the home blocks already are that state; and when no operation is in flight and nothing waits to
   * be committed, readers see exactly it, in particular right after any recovery and once end_op has committed.
   */
  lemma WholeRunDurability(g: Geometry, budget: nat, r: seq<Sys>, i: nat, b: nat)
    requires IsRun(g, budget, r) && i < |r| && g.Home(b)
    ensures |r[i].hist| > 0
    ensures var s := r[i]; var last := s.hist[|s.hist| - 1];
      && |last| == |s.disk| == g.disksize
      && Recoverable(g, s.disk)
      && Recovered(g, s.disk)[b] == last[b]
      && (HomesSettled(s) ==> s.disk[b] == last[b])
      && (!s.phase.Recovering? && Quiet(s) && s.lh == [] ==> View(s, b) == last[b])
  {
    RunInv(g, budget, r, i);
    var s := r[i];
    RecoveredShowsHome(g, s.disk);
    if s.phase.Running? || s.phase.Committed? {
      EmptyLog(g, s.disk);
    } else if s.phase.Committing? && s.phase.k <= |s.lh| {
      CommitStartsEmpty(g, s);
    }
  }

  lemma CommitStartsEmpty(g: Geometry, s: Sys)
    requires Shape(g, s) && s.phase.Committing? && PhaseOk(g, s) && s.phase.k <= |s.lh|
    ensures HeaderCount(s.disk[g.start]) == 0 && Recoverable(g, s.disk)
    ensures forall b: nat :: g.Home(b) ==> HomeValue(g, s.disk, b) == s.disk[b]
  {
    CommitCut(g, s.phase.base, s.lh, s.phase.data, s.phase.k);
    LogPhaseNext(g, s.phase.base, s.lh, s.phase.data, s.phase.k);
    EmptyLog(g, s.disk);
  }
}
