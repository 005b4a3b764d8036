// The logging system can always go on: what is being committed or recovered can
// be brought to its end, and whatever an operation writes can be made durable.
module LogProgress {
  import opened Blocks
  import opened LogSpec
  import opened LogRun
  import opened LogTheorems
  import opened LogReservation
  import opened EndToEnd

  /** No buffer is locked and no operation is open. */
  ghost predicate Unheld(s: Sys) {
    Outstanding(s.ops) == 0 && forall b :: b in s.cache ==> s.cache[b].lock == Unlocked
  }

  /** Readers of home blocks see the same. */
  ghost predicate SameHomes(g: Geometry, s: Sys, t: Sys) {
    |s.disk| == |t.disk| == g.disksize && t.ops == s.ops && forall b: nat :: g.Home(b) ==> View(t, b) == View(s, b)
  }

  lemma SameHomesTwice(g: Geometry, s: Sys, t: Sys, u: Sys)
    requires SameHomes(g, s, t) && SameHomes(g, t, u)
    ensures SameHomes(g, s, u)
  {
  }

  /** With nothing locked the next write of commit can be made, and readers do not notice. */
  lemma CommitCan(g: Geometry, budget: nat, s: Sys)
    requires Inv(g, budget, s) && s.phase.Committing? && Unheld(s)
    ensures Enabled(g, budget, s, CommitStep)
    ensures Unheld(Next(g, budget, s, CommitStep))
    ensures var t := Next(g, budget, s, CommitStep);
      if s.phase.k == 2 * |s.lh| + 1 then t.phase.Committed? && t.lh == []
      else t.phase == Committing(s.phase.k + 1, s.phase.base, s.phase.data) && t.lh == s.lh
  {
    hide Durable, CacheOk, OpsOk, SetHeader, CommitDisk;
  }

  lemma CommitUnseen(g: Geometry, budget: nat, s: Sys)
    requires Inv(g, budget, s) && s.phase.Committing? && Unheld(s) && Enabled(g, budget, s, CommitStep)
    ensures SameHomes(g, s, Next(g, budget, s, CommitStep))
  {
    CommitCan(g, budget, s);
    KeepInv(g, budget, s, CommitStep);
    var t := Next(g, budget, s, CommitStep);
    hide Durable, CacheOk, OpsOk, SetHeader, CommitDisk, Updated;
    forall b: nat | g.Home(b) ensures View(t, b) == View(s, b) {
      if s.phase.k < 2 * |s.lh| + 1 {
        CommitView(g, budget, s, b);
        CommitView(g, budget, t, b);
      }
    }
  }

  /** A commit under way can be brought to its end. */
  lemma {:induction false} CommitOn(g: Geometry, budget: nat, r: seq<Sys>) returns (q: seq<Sys>)
    requires IsRun(g, budget, r) && Last(r).phase.Committing? && Unheld(Last(r))
    ensures IsRun(g, budget, q) && r <= q && Last(q).phase.Running? && Last(q).lh == [] && Unheld(Last(q)) && SameHomes(g, Last(r), Last(q))
    decreases 2 * |Last(r).lh| + 2 - Last(r).phase.k
  {
    hide Inv, Enabled, Next, Boot, Unheld, SameHomes, View;
    var s := Last(r);
    RunInv(g, budget, r, |r| - 1);
    CommitCan(g, budget, s);
    CommitUnseen(g, budget, s);
    InvShape(g, budget, s);
    q := Extend(g, budget, r, CommitStep);
    var t := Last(q);
    if t.phase.Committed? {
      DoneCan(g, budget, t);
      q := Extend(g, budget, q, CommitDone);
      SameHomesTwice(g, s, t, Last(q));
    } else {
      var q' := CommitOn(g, budget, q);
      SameHomesTwice(g, s, t, Last(q'));
      q := q';
    }
  }

  lemma InvShape(g: Geometry, budget: nat, s: Sys)
    requires Inv(g, budget, s)
    ensures Shape(g, s) && (s.phase.Committing? ==> s.phase.k <= 2 * |s.lh| + 1)
  {
  }

  lemma DoneCan(g: Geometry, budget: nat, s: Sys)
    requires Shape(g, s) && s.phase.Committed? && Unheld(s)
    ensures Enabled(g, budget, s, CommitDone)
    ensures var t := Next(g, budget, s, CommitDone); t.phase.Running? && t.lh == s.lh && Unheld(t) && SameHomes(g, s, t)
  {
  }

  function ToReplay(g: Geometry, s: Sys): nat {
    if s.phase.Recovering? && Recoverable(g, s.phase.base) then |LoggedBlocks(g, s.phase.base)| else 0
  }

  /** Recovery can be brought to its end. */
  lemma {:induction false} RecoverOn(g: Geometry, budget: nat, r: seq<Sys>) returns (q: seq<Sys>)
    requires IsRun(g, budget, r) && Last(r).phase.Recovering? && Unheld(Last(r))
    ensures IsRun(g, budget, q) && r <= q && Last(q).phase.Running? && Last(q).lh == [] && Unheld(Last(q)) && Last(q).ops == Last(r).ops
    decreases ToReplay(g, Last(r)) - Last(r).phase.k
  {
    hide Inv, Enabled, Next, Boot, Unheld;
    RunInv(g, budget, r, |r| - 1);
    InvShape(g, budget, Last(r));
    RecoverCan(g, budget, Last(r));
    q := Extend(g, budget, r, RecoverStep);
    if Last(q).phase.Recovering? { q := RecoverOn(g, budget, q); }
  }

  lemma RecoverCan(g: Geometry, budget: nat, s: Sys)
    requires Inv(g, budget, s) && s.phase.Recovering? && Unheld(s)
    ensures Enabled(g, budget, s, RecoverStep) && s.phase.k <= ToReplay(g, s)
    ensures var t := Next(g, budget, s, RecoverStep); Unheld(t) && t.lh == [] && t.ops == s.ops
    ensures var t := Next(g, budget, s, RecoverStep);
      if s.phase.k < ToReplay(g, s) then t.phase == Recovering(s.phase.k + 1, s.phase.base) else t.phase.Running?
  {
    RecoverNext(g, s.phase.base, s.phase.k);
  }

  /** Nothing but block x's buffer is locked, by process p in an operation that has logged nothing. */
  ghost predicate Holding(g: Geometry, s: Sys, p: nat, x: nat) {
    && Shape(g, s) && s.phase.Running? && s.lh == [] && p < |s.ops| && s.ops[p] == Active({})
    && (forall q :: 0 <= q < |s.ops| && q != p ==> s.ops[q].Idle?)
    && x in s.cache && s.cache[x].lock == Writing(p, false)
    && forall b :: b in s.cache && b != x ==> s.cache[b].lock == Unlocked
  }

  /** begin_op, bread. */
  lemma OpenAndRead(g: Geometry, budget: nat, r: seq<Sys>, p: nat, x: nat) returns (q: seq<Sys>)
    requires IsRun(g, budget, r) && Last(r).phase.Running? && Unheld(Last(r)) && p < |Last(r).ops| && g.Home(x)
    ensures IsRun(g, budget, q) && r <= q && Holding(g, Last(q), p, x) && Last(q).ops == Last(r).ops[p := Active({})]
    ensures |Last(q).disk| == |Last(r).disk| == g.disksize && forall b: nat :: g.Home(b) ==> View(Last(q), b) == View(Last(r), b)
  {
    hide Boot, Durable, CacheOk, OpsOk;
    RunInv(g, budget, r, |r| - 1);
    NoneOutstanding(Last(r).ops);
    q := Extend(g, budget, r, Begin(p));
    if x !in Last(q).cache { q := Extend(g, budget, q, Buffer(x, Fill)); }
    q := Extend(g, budget, q, Buffer(x, WriteLock(p)));
  }

  /** The change, log_write, brelse and end_op. */
  lemma WriteAndEnd(g: Geometry, budget: nat, r: seq<Sys>, p: nat, x: nat, data: Block) returns (q: seq<Sys>)
    requires IsRun(g, budget, r) && Holding(g, Last(r), p, x) && g.Home(x) && budget >= 1 && g.size >= 2
    ensures IsRun(g, budget, q) && r <= q && Last(q).phase.Committing? && Unheld(Last(q)) && Last(q).ops == Last(r).ops[p := Idle]
    ensures |Last(q).disk| == |Last(r).disk| == g.disksize
    ensures forall b: nat :: g.Home(b) ==> View(Last(q), b) == if b == x then data else View(Last(r), b)
  {
    hide Boot;
    q := Extend(g, budget, r, Buffer(x, Modify(data)));
    assert {} + {x} == {x};
    q := Extend(g, budget, q, LogWrite(x));
    assert Last(q).lh == [x];
    q := Extend(g, budget, q, Buffer(x, WriteUnlock));
    NoneOutstanding(Last(q).ops[p := Idle]);
    q := Extend(g, budget, q, End(p));
  }

  /**
   * From any state of any run in which no buffer is locked and no operation is open, crash states included, the system
   * comes to rest: what was being committed or replayed is, and nothing is left in the log.
   */
  lemma ComesToRest(g: Geometry, budget: nat, r: seq<Sys>) returns (q: seq<Sys>)
    requires IsRun(g, budget, r) && Unheld(Last(r))
    ensures IsRun(g, budget, q) && r <= q && Last(q).phase.Running? && Last(q).lh == [] && Unheld(Last(q)) && Last(q).ops == Last(r).ops
  {
    RunInv(g, budget, r, |r| - 1);
    q := r;
    match Last(r).phase
    case Running =>
    case Committing(_, _, _) => q := CommitOn(g, budget, r);
    case Committed =>
      DoneCan(g, budget, Last(r));
      q := Extend(g, budget, r, CommitDone);
    case Recovering(_, _) => q := RecoverOn(g, budget, r);
  }

  /**
   * From there any process can give any home block any contents: the operation can be carried through, its commit can be
   * finished, and then that block, and no other home block, has changed, in what readers see and durably.
   */
  lemma AnyWriteCommits(g: Geometry, budget: nat, r: seq<Sys>, p: nat, x: nat, data: Block) returns (q: seq<Sys>)
    requires IsRun(g, budget, r) && Last(r).phase.Running? && Unheld(Last(r)) && p < |Last(r).ops|
    requires g.Home(x) && budget >= 1 && g.size >= 2
    ensures IsRun(g, budget, q) && r <= q && Last(q).phase.Running? && Last(q).lh == [] && Unheld(Last(q))
    ensures |Last(q).disk| == |Last(r).disk| == g.disksize && Recoverable(g, Last(q).disk)
    ensures forall b: nat :: g.Home(b) ==> var was := View(Last(r), b);
      View(Last(q), b) == Recovered(g, Last(q).disk)[b] == if b == x then data else was
  {
    hide Boot, Unheld, Holding, Inv, View, Recoverable, Recovered;
    RunInv(g, budget, r, |r| - 1);
    InvShape(g, budget, Last(r));
    var q1 := OpenAndRead(g, budget, r, p, x);
    var q2 := WriteAndEnd(g, budget, q1, p, x, data);
    q := CommitOn(g, budget, q2);
    AtRest(g, budget, q, x);
    forall b: nat | g.Home(b)
      ensures View(Last(q), b) == Recovered(g, Last(q).disk)[b] == if b == x then data else View(Last(r), b)
    {
      AtRest(g, budget, q, b);
    }
  }

  /** At rest readers see what a crash would restore. */
  lemma AtRest(g: Geometry, budget: nat, r: seq<Sys>, b: nat)
    requires IsRun(g, budget, r) && Last(r).phase.Running? && Last(r).lh == [] && Unheld(Last(r)) && g.Home(b)
    ensures Recoverable(g, Last(r).disk) && |Recovered(g, Last(r).disk)| == |Last(r).disk| == g.disksize && View(Last(r), b) == Recovered(g, Last(r).disk)[b]
  {
    hide Boot, Recoverable;
    WholeRunDurability(g, budget, r, |r| - 1, b);
  }
}
