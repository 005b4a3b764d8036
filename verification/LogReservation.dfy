// Log space: what begin_op's reservation guarantees, and exactly when log_write
// can still panic.
module LogReservation {
  import opened Blocks
  import opened LogSpec
  import opened LogRun
  import opened LogTheorems

  lemma {:induction false} UnusedUpdate(ops: seq<Op>, p: nat, o: Op, budget: nat)
    requires p < |ops|
    ensures Unused(ops[p := o], budget) == Unused(ops, budget)
      - (if ops[p].Active? then budget - |ops[p].logged| else 0) + (if o.Active? then budget - |o.logged| else 0)
  {
    var n := |ops| - 1;
    if p < n {
      UnusedUpdate(ops[..n], p, o, budget);
      assert ops[p := o][..n] == ops[..n][p := o];
    } else {
      assert ops[p := o][..n] == ops[..n];
    }
  }

  lemma {:induction false} UnusedBound(ops: seq<Op>, budget: nat)
    requires forall p :: 0 <= p < |ops| && ops[p].Active? ==> |ops[p].logged| <= budget
    ensures 0 <= Unused(ops, budget) <= budget * Outstanding(ops)
  {
    if ops != [] {
      var n := |ops| - 1;
      UnusedBound(ops[..n], budget);
      assert budget * (Outstanding(ops[..n]) + 1) == budget * Outstanding(ops[..n]) + budget;
    }
  }

  /** begin_op's guarantee, and the tighter bound that holds while somebody can still log. */
  ghost predicate Room(budget: nat, s: Sys) {
    s.phase.Running? ==>
      && |s.lh| + Unused(s.ops, MAXOPBLOCKS) <= LOGSIZE
      && (Outstanding(s.ops) > 0 ==> |s.lh| + Unused(s.ops, budget) <= MAXOPBLOCKS + 2 * budget)
  }

  lemma LoggedSize(logged: set<nat>, b: nat)
    ensures |logged + {b}| == |logged| + if b in logged then 0 else 1
  {
    if b in logged { assert logged + {b} == logged; }
  }

  lemma RoomBegin(g: Geometry, budget: nat, s: Sys, p: nat)
    requires Inv(g, budget, s) && Room(budget, s) && budget <= MAXOPBLOCKS && Enabled(g, budget, s, Begin(p))
    ensures Room(budget, Next(g, budget, s, Begin(p)))
  {
    hide Durable; hide CacheOk;
    var t := Next(g, budget, s, Begin(p));
    var n := Outstanding(s.ops);
    OutstandingUpdate(s.ops, p, Active({}));
    UnusedUpdate(s.ops, p, Active({}), budget);
    UnusedUpdate(s.ops, p, Active({}), MAXOPBLOCKS);
    UnusedBound(s.ops, budget);
    UnusedBound(s.ops, MAXOPBLOCKS);
    assert n <= 2;
  }

  lemma RoomLogWrite(g: Geometry, budget: nat, s: Sys, b: nat)
    requires Inv(g, budget, s) && Room(budget, s) && Enabled(g, budget, s, LogWrite(b))
    ensures Room(budget, Next(g, budget, s, LogWrite(b)))
  {
    hide Durable;
    var p := s.cache[b].lock.proc;
    var o := Active(s.ops[p].logged + {b});
    OutstandingUpdate(s.ops, p, o);
    UnusedUpdate(s.ops, p, o, budget);
    UnusedUpdate(s.ops, p, o, MAXOPBLOCKS);
    LoggedSize(s.ops[p].logged, b);
    NoneOutstanding(s.ops);
  }

  lemma RoomOther(g: Geometry, budget: nat, s: Sys, a: Step)
    requires Inv(g, budget, s) && Room(budget, s) && budget <= MAXOPBLOCKS && Enabled(g, budget, s, a)
    requires !a.Begin? && !a.LogWrite?
    ensures Room(budget, Next(g, budget, s, a))
  {
    hide Durable; hide CacheOk;
    var t := Next(g, budget, s, a);
    if a.End? {
      OutstandingUpdate(s.ops, a.p, Idle);
      UnusedUpdate(s.ops, a.p, Idle, budget);
      UnusedUpdate(s.ops, a.p, Idle, MAXOPBLOCKS);
    } else if a.CommitDone? || a.RecoverStep? {
      NoneOutstanding(s.ops);
      UnusedBound(s.ops, MAXOPBLOCKS);
    }
  }

  lemma {:induction false} RunRoom(g: Geometry, budget: nat, r: seq<Sys>, i: nat)
    requires IsRun(g, budget, r) && i < |r| && budget <= MAXOPBLOCKS
    ensures Inv(g, budget, r[i]) && Room(budget, r[i])
  {
    hide Inv; hide Enabled; hide Next;
    RunInv(g, budget, r, i);
    if i > 0 {
      RunRoom(g, budget, r, i - 1);
      assert StepTo(g, budget, r[i - 1], r[i - 1 + 1]);
      var a :| Enabled(g, budget, r[i - 1], a) && r[i] == Next(g, budget, r[i - 1], a);
      match a
      case Begin(p) => RoomBegin(g, budget, r[i - 1], p);
      case LogWrite(b) => RoomLogWrite(g, budget, r[i - 1], b);
      case _ => RoomOther(g, budget, r[i - 1], a);
    }
  }

  /**
   * Reservation: if each operation logs at most MAXOPBLOCKS distinct blocks, then in every reachable state the log
   * entries plus the unused budgets of the outstanding operations fit in LOGSIZE, the entries are distinct, nobody is
   * outstanding during a commit (end_op's panic is unreachable), and an operation stays in a single group.
   */
  lemma Reservation(g: Geometry, r: seq<Sys>, i: nat)
    requires IsRun(g, MAXOPBLOCKS, r) && i < |r|
    ensures var s := r[i];
      && |s.lh| + Unused(s.ops, MAXOPBLOCKS) <= LOGSIZE && 0 <= Unused(s.ops, MAXOPBLOCKS)
      && Distinct(s.lh)
      && (s.phase.Committing? || s.phase.Committed? ==> Outstanding(s.ops) == 0)
      && forall p :: 0 <= p < |s.ops| && s.ops[p].Active? ==> forall b :: b in s.ops[p].logged ==> b in s.lh
  {
    RunRoom(g, MAXOPBLOCKS, r, i);
    var s := r[i];
    NoneOutstanding(s.ops);
    UnusedBound(s.ops, MAXOPBLOCKS);
  }

  // ----- when log_write panics

  /** Some operation, within its budget, may call log_write now and hit "too big a transaction". */
  ghost predicate Panics(g: Geometry, budget: nat, s: Sys) {
    LogFull(g, s) && exists b :: b in s.cache && MayLog(budget, s, b)
  }

  predicate MayLog(budget: nat, s: Sys, b: nat)
    requires b in s.cache
  {
    var l := s.cache[b].lock;
    l.Writing? && l.proc < |s.ops| && s.ops[l.proc].Active? && |s.ops[l.proc].logged + {b}| <= budget
  }

  lemma NoPanic(g: Geometry, budget: nat, r: seq<Sys>, i: nat)
    requires IsRun(g, budget, r) && i < |r| && budget <= MAXOPBLOCKS
    requires MAXOPBLOCKS + 2 * budget < LOGSIZE && MAXOPBLOCKS + 2 * budget < g.size - 1
    ensures !Panics(g, budget, r[i])
  {
    RunRoom(g, budget, r, i);
    var s := r[i];
    UnusedBound(s.ops, budget);
    NoneOutstanding(s.ops);
  }

  ghost function Last(r: seq<Sys>): Sys
    requires |r| > 0
  {
    r[|r| - 1]
  }

  lemma Extend(g: Geometry, budget: nat, r: seq<Sys>, a: Step) returns (q: seq<Sys>)
    requires IsRun(g, budget, r) && Shape(g, Last(r)) && Enabled(g, budget, Last(r), a)
    ensures IsRun(g, budget, q) && Last(q) == Next(g, budget, Last(r), a)
    ensures Shape(g, Last(q)) && q[0] == r[0] && r <= q
  {
    hide Enabled; hide Next; hide Boot;
    q := r + [Next(g, budget, Last(r), a)];
    assert StepTo(g, budget, Last(r), Last(q));
    forall i | 0 <= i < |q| - 1 ensures StepTo(g, budget, q[i], q[i + 1]) {
      if i < |r| - 1 { assert StepTo(g, budget, r[i], r[i + 1]); }
    }
    RunInv(g, budget, q, |q| - 1);
  }

  /** Two processes, nothing locked, only the k blocks from `fresh` on used so far, all of them logged. */
  ghost predicate Stage(g: Geometry, s: Sys, k: nat, o0: Op, o1: Op) {
    && Shape(g, s) && s.phase.Running? && s.ops == [o0, o1] && |s.lh| == k
    && (forall x :: x in s.cache ==> x < g.start + g.size + k && s.cache[x].lock == Unlocked)
    && (forall x :: x in s.lh ==> x in s.cache)
  }

  /** Process p logs the next fresh block, or panics trying. */
  lemma LogOne(g: Geometry, budget: nat, r: seq<Sys>, k: nat, p: nat, o0: Op, o1: Op) returns (q: seq<Sys>)
    requires IsRun(g, budget, r) && Stage(g, Last(r), k, o0, o1)
    requires p < 2 && [o0, o1][p].Active? && |[o0, o1][p].logged| < budget
    requires g.start + g.size + k < g.disksize
    ensures IsRun(g, budget, q) && q[0] == r[0]
    ensures var b := g.start + g.size + k; var o := Active([o0, o1][p].logged + {b});
      Panics(g, budget, Last(q)) || Stage(g, Last(q), k + 1, if p == 0 then o else o0, if p == 1 then o else o1)
  {
    var b := g.start + g.size + k;
    LoggedSize([o0, o1][p].logged, b);
    q := Extend(g, budget, r, Buffer(b, Fill));
    q := Extend(g, budget, q, Buffer(b, WriteLock(p)));
    var s := Last(q);
    if LogFull(g, s) {
      assert MayLog(budget, s, b);
    } else {
      assert b !in s.lh;
      q := Extend(g, budget, q, LogWrite(b));
      assert Last(q).lh == s.lh + [b];
      q := Extend(g, budget, q, Buffer(b, WriteUnlock));
    }
  }

  lemma {:induction false} LogMany(g: Geometry, budget: nat, r: seq<Sys>, k: nat, m: nat, p: nat, o0: Op, o1: Op)
    returns (q: seq<Sys>, o: Op)
    requires IsRun(g, budget, r) && Stage(g, Last(r), k, o0, o1)
    requires p < 2 && [o0, o1][p].Active? && |[o0, o1][p].logged| + m <= budget
    requires g.start + g.size + k + m <= g.disksize
    ensures IsRun(g, budget, q) && q[0] == r[0]
    ensures Panics(g, budget, Last(q)) ||
      (o.Active? && |o.logged| <= |[o0, o1][p].logged| + m && Stage(g, Last(q), k + m, if p == 0 then o else o0, if p == 1 then o else o1))
    decreases m
  {
    hide Panics; hide Stage;
    q, o := r, [o0, o1][p];
    if m > 0 {
      q := LogOne(g, budget, r, k, p, o0, o1);
      if !Panics(g, budget, Last(q)) {
        var b := g.start + g.size + k;
        var o' := Active([o0, o1][p].logged + {b});
        LoggedSize([o0, o1][p].logged, b);
        q, o := LogMany(g, budget, q, k + 1, m - 1, p, if p == 0 then o' else o0, if p == 1 then o' else o1);
      }
    }
  }

  /** While process 0 stays in its operation, process 1 runs j operations that log one block each. */
  lemma {:induction false} SmallOps(g: Geometry, budget: nat, r: seq<Sys>, j: nat) returns (q: seq<Sys>)
    requires IsRun(g, budget, r) && Stage(g, Last(r), 0, Active({}), Idle)
    requires 1 <= budget && j <= MAXOPBLOCKS && g.start + g.size + j <= g.disksize
    ensures IsRun(g, budget, q) && q[0] == r[0]
    ensures Panics(g, budget, Last(q)) || Stage(g, Last(q), j, Active({}), Idle)
  {
    q := r;
    if j > 0 {
      q := SmallOps(g, budget, r, j - 1);
      if !Panics(g, budget, Last(q)) {
        TwoOps(Active({}), Idle);
        q := Extend(g, budget, q, Begin(1));
        q := LogOne(g, budget, q, j - 1, 1, Active({}), Active({}));
        if !Panics(g, budget, Last(q)) {
          q := Extend(g, budget, q, End(1));
          assert Last(q).ops == [Active({}), Idle];
        }
      }
    }
  }

  lemma TwoOps(o0: Op, o1: Op)
    ensures Outstanding([o0, o1]) == (if o0.Active? then 1 else 0) + (if o1.Active? then 1 else 0)
  {
    assert [o0, o1][..1] == [o0];
    assert [o0][..0] == [];
    assert Outstanding([o0]) == if o0.Active? then 1 else 0;
  }

  /** A logged block that the operation may pass to log_write within its budget: one of its own if it has used that up. */
  lemma Logged(g: Geometry, budget: nat, r: seq<Sys>, k: nat, o0: Op, o1: Op) returns (b: nat)
    requires IsRun(g, budget, r) && Stage(g, Last(r), k, o0, o1) && o0.Active? && 1 <= budget && k > 0
    ensures b in Last(r).lh && |o0.logged + {b}| <= budget && Usable(g, Last(r), b, WriteLock(0))
  {
    hide Durable, CacheOk, PhaseOk;
    var s := Last(r);
    RunInv(g, budget, r, |r| - 1);
    assert s.ops[0].Active?;
    b := s.lh[0];
    if |o0.logged| == budget {
      b :| b in o0.logged;
      assert o0.logged + {b} == o0.logged;
    } else {
      LoggedSize(o0.logged, b);
    }
  }

  lemma LockedMayLog(g: Geometry, budget: nat, s: Sys, b: nat, o: Op)
    requires Shape(g, s) && Usable(g, s, b, WriteLock(0)) && s.ops[0] == o && o.Active? && |o.logged + {b}| <= budget && LogFull(g, s)
    ensures Panics(g, budget, Next(g, budget, s, Buffer(b, WriteLock(0))))
  {
    assert MayLog(budget, Next(g, budget, s, Buffer(b, WriteLock(0))), b);
  }

  /** With the log full, an operation may pass a block it already logged to log_write again. */
  lemma Relog(g: Geometry, budget: nat, r: seq<Sys>, k: nat, o0: Op, o1: Op) returns (q: seq<Sys>)
    requires IsRun(g, budget, r) && Stage(g, Last(r), k, o0, o1)
    requires o0.Active? && 1 <= budget && LogFull(g, Last(r)) && k > 0
    ensures IsRun(g, budget, q) && q[0] == r[0] && Panics(g, budget, Last(q))
  {
    hide Next, Usable, Panics, LogFull;
    var b := Logged(g, budget, r, k, o0, o1);
    LockedMayLog(g, budget, Last(r), b, o0);
    q := Extend(g, budget, r, Buffer(b, WriteLock(0)));
  }

  /** A run of two processes that fills the log with an operation still outstanding. */
  lemma PanicRun(g: Geometry, budget: nat, d: Disk) returns (q: seq<Sys>)
    requires Recoverable(g, d) && HeaderCount(d[g.start]) == 0
    requires 1 <= budget <= MAXOPBLOCKS && g.start + g.size + LOGSIZE <= g.disksize
    requires MAXOPBLOCKS + 2 * budget >= LOGSIZE || MAXOPBLOCKS + 2 * budget >= g.size - 1
    ensures IsRun(g, budget, q) && q[0].disk == d && Panics(g, budget, Last(q))
  {
    q := StartTwo(g, budget, d);
    q := SmallOps(g, budget, q, MAXOPBLOCKS);
    if !Panics(g, budget, Last(q)) {
      TwoOps(Active({}), Idle);
      q := Extend(g, budget, q, Begin(1));
      var o0, o1;
      assert Last(q).ops == [Active({}), Active({})];
      q, o1 := LogMany(g, budget, q, MAXOPBLOCKS, budget, 1, Active({}), Active({}));
      if !Panics(g, budget, Last(q)) {
        q, o0 := LogMany(g, budget, q, MAXOPBLOCKS + budget, budget, 0, Active({}), o1);
        if !Panics(g, budget, Last(q)) {
          q := Relog(g, budget, q, MAXOPBLOCKS + 2 * budget, o0, o1);
        }
      }
    }
  }

  lemma StartTwo(g: Geometry, budget: nat, d: Disk) returns (q: seq<Sys>)
    requires Recoverable(g, d) && HeaderCount(d[g.start]) == 0 && budget <= MAXOPBLOCKS
    ensures IsRun(g, budget, q) && q[0].disk == d && Stage(g, Last(q), 0, Active({}), Idle)
  {
    q := [Boot(g, d, 2)];
    BootInv(g, budget, d, 2);
    EmptyLog(g, d);
    q := Extend(g, budget, q, RecoverStep);
    TwoOps(Idle, Idle);
    assert Last(q).ops == [Idle, Idle];
    q := Extend(g, budget, q, Begin(0));
  }

  /**
   * Exactly when "too big a transaction" is out of reach. With operations that log at most `budget` distinct blocks,
   * no run panics iff MAXOPBLOCKS + 2 * budget stays below both limits that log_write tests; so the reservation of
   * MAXOPBLOCKS per operation does not rule the panic out for operations that use it up, whatever the log size.
   */
  lemma PanicFreeIff(g: Geometry, budget: nat, d: Disk)
    requires Recoverable(g, d) && HeaderCount(d[g.start]) == 0
    requires 1 <= budget <= MAXOPBLOCKS && g.start + g.size + LOGSIZE <= g.disksize
    ensures (forall r: seq<Sys>, i: nat :: IsRun(g, budget, r) && r[0].disk == d && i < |r| ==> !Panics(g, budget, r[i]))
      <==> MAXOPBLOCKS + 2 * budget < LOGSIZE && MAXOPBLOCKS + 2 * budget < g.size - 1
  {
    if MAXOPBLOCKS + 2 * budget < LOGSIZE && MAXOPBLOCKS + 2 * budget < g.size - 1 {
      forall r: seq<Sys>, i: nat | IsRun(g, budget, r) && r[0].disk == d && i < |r| ensures !Panics(g, budget, r[i]) {
        NoPanic(g, budget, r, i);
      }
    } else {
      var q := PanicRun(g, budget, d);
      assert Panics(g, budget, q[|q| - 1]);
    }
  }
}
