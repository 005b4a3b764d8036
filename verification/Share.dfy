// Fairness inside the stride queue: how far the passes of two processes, and the
// ticks they got weighted by their strides, may lie apart.
module Share {

  /** A process of the queue, or one it handed out: where it stands, what a tick costs it, and the ticks it got. */
  datatype Account = Account(pass: int, stride: int, ticks: nat)

  type Pool = map<nat, Account>

  /** What can happen to the pool; `pass` is where a sleeper is put behind another process. */
  datatype Move = Stay | Ticks(x: nat) | Joins(x: nat, a: Account) | Leaves(x: nat) | Parks(x: nat, pass: int)

  ghost predicate Least(p: Pool, x: nat) { x in p && forall y :: y in p ==> p[x].pass <= p[y].pass }

  /** Somebody in the pool other than x stands at pass. */
  ghost predicate Taken(p: Pool, x: nat, pass: int) { exists y :: y in p && y != x && p[y].pass == pass }

  ghost predicate Step(p: Pool, move: Move, q: Pool) {
    match move
    case Stay => q == p
    case Ticks(x) => Least(p, x) && q == p[x := Account(p[x].pass + p[x].stride, p[x].stride, p[x].ticks + 1)]
    case Joins(x, a) => x !in p && (p == map[] || exists y :: Least(p, y) && a.pass == p[y].pass) && q == p[x := a]
    case Leaves(x) => q == p - {x}
    case Parks(x, pass) => Least(p, x) && Taken(p, x, pass) && q == p[x := p[x].(pass := pass)]
  }

  /** No two passes are more than d apart, and no stride is above d. */
  ghost predicate Spread(p: Pool, d: int) {
    && (forall x, y :: x in p && y in p ==> p[x].pass - p[y].pass <= d)
    && (forall x :: x in p ==> 0 <= p[x].stride <= d)
  }

  ghost predicate Affordable(move: Move, d: int) { move.Joins? ==> 0 <= move.a.stride <= d }

  /** Only the process that stands last moves ahead, so a stride is as far as it gets from the others. */
  lemma SpreadStep(p: Pool, move: Move, q: Pool, d: int)
    requires Spread(p, d) && Step(p, move, q) && Affordable(move, d) && d >= 0
    ensures Spread(q, d)
  {
    forall x, y | x in q && y in q ensures q[x].pass - q[y].pass <= d {
    }
  }

  ghost predicate IsRun(run: seq<Pool>, moves: seq<Move>, d: int) {
    |run| == |moves| + 1 && forall i :: 0 <= i < |moves| ==> Step(run[i], moves[i], run[i + 1]) && Affordable(moves[i], d)
  }

  /** At every moment of a run any two passes are at most the largest stride apart. */
  lemma {:induction false} SpreadRun(run: seq<Pool>, moves: seq<Move>, d: int, i: nat)
    requires IsRun(run, moves, d) && d >= 0 && Spread(run[0], d) && i < |run|
    ensures Spread(run[i], d)
  {
    if i > 0 {
      SpreadRun(run, moves, d, i - 1);
      SpreadStep(run[i - 1], moves[i - 1], run[i], d);
    }
  }

  /** x stays in the pool and awake: it does nothing from i to j but take ticks. */
  ghost predicate Awake(moves: seq<Move>, x: nat, i: nat, j: nat)
    requires i <= j <= |moves|
  {
    forall k :: i <= k < j ==> match moves[k] case Stay => true case Ticks(_) => true case _ => moves[k].x != x
  }

  lemma OneMore(n: int, x: int)
    ensures (n + 1) * x == n * x + x
  {
  }

  /** The pass of a process that stays awake moves by its stride a tick. */
  lemma {:induction false} PassCounts(run: seq<Pool>, moves: seq<Move>, d: int, x: nat, i: nat, j: nat)
    requires IsRun(run, moves, d) && i <= j < |run| && Awake(moves, x, i, j) && x in run[i]
    ensures x in run[j] && run[j][x].stride == run[i][x].stride && run[j][x].ticks >= run[i][x].ticks
    ensures run[j][x].pass - run[i][x].pass == (run[j][x].ticks - run[i][x].ticks) * run[i][x].stride
    decreases j - i
  {
    if i < j {
      PassCounts(run, moves, d, x, i, j - 1);
      assert Step(run[j - 1], moves[j - 1], run[j]);
      OneMore(run[j - 1][x].ticks - run[i][x].ticks, run[i][x].stride);
    }
  }

  /**
   * Bounded unfairness: of two processes that stay awake in the stride queue, the ticks each got in between, weighted
   * by its stride, differ by no more than two of the largest strides.
   */
  lemma FairShares(run: seq<Pool>, moves: seq<Move>, d: int, x: nat, y: nat, i: nat, j: nat)
    requires IsRun(run, moves, d) && d >= 0 && Spread(run[0], d) && i <= j < |run|
    requires Awake(moves, x, i, j) && Awake(moves, y, i, j) && x in run[i] && y in run[i]
    ensures x in run[j] && y in run[j] && -d <= run[j][x].pass - run[j][y].pass <= d
    ensures var n, m := run[j][x].ticks - run[i][x].ticks, run[j][y].ticks - run[i][y].ticks;
      -2 * d <= n * run[i][x].stride - m * run[i][y].stride <= 2 * d
  {
    SpreadRun(run, moves, d, i);
    SpreadRun(run, moves, d, j);
    PassCounts(run, moves, d, x, i, j);
    PassCounts(run, moves, d, y, i, j);
  }

  /** The bound on the passes is reached: two processes at the same pass, one of which takes a tick. */
  lemma SpreadIsNeeded(d: int) returns (run: seq<Pool>, moves: seq<Move>)
    requires d >= 0
    ensures IsRun(run, moves, d) && Spread(run[0], d)
    ensures var p := run[|run| - 1]; 1 in p && 2 in p && p[1].pass - p[2].pass == d
  {
    var a := Account(0, d, 0);
    run, moves := [map[1 := a, 2 := a], map[1 := Account(d, d, 1), 2 := a]], [Ticks(1)];
  }
}
