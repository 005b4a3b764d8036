// scheduler.c's two priority queues: the same array heap, ordered by qlev in
// one and by pass in the other. A process is its slot in the process table.
module Heap {

  const NPROC: nat := 64

  /** The field a queue is ordered by. */
  type Key = nat -> int

  function Parent(i: nat): (p: nat)
    ensures i > 1 ==> 1 <= p < i
  {
    i / 2
  }

  /** The slot above i has no larger key. */
  predicate Above(s: seq<nat>, key: Key, i: nat)
    requires 1 < i < |s|
  {
    key(s[Parent(i)]) <= key(s[i])
  }

  /** Heap order on positions 1 to n. */
  ghost predicate Ordered(s: seq<nat>, n: nat, key: Key)
    requires n < |s|
  {
    forall i: nat {:trigger Above(s, key, i)} :: 1 < i <= n ==> Above(s, key, i)
  }

  /** Heap order except around the hole; what is below the hole fits under what is above it. */
  ghost predicate OrderedBut(s: seq<nat>, n: nat, key: Key, hole: nat)
    requires n < |s| && 1 <= hole <= n
  {
    && (forall i: nat {:trigger Above(s, key, i)} :: 1 < i <= n && i != hole && Parent(i) != hole ==> Above(s, key, i))
    && (forall i: nat {:trigger Parent(i)} :: 1 < i <= n && Parent(i) == hole && hole > 1 ==> key(s[Parent(hole)]) <= key(s[i]))
  }

  /** x fits into the hole as far as the slots below it go. */
  ghost predicate FitsBelow(s: seq<nat>, n: nat, key: Key, hole: nat, x: nat)
    requires n < |s|
  {
    forall i: nat {:trigger Parent(i)} :: 1 < i <= n && Parent(i) == hole ==> key(x) <= key(s[i])
  }

  function Bag(s: seq<nat>, n: nat): multiset<nat>
    requires n < |s|
  {
    multiset(s[1..n + 1])
  }

  lemma BagSet(s: seq<nat>, n: nat, i: nat, x: nat)
    requires n < |s| && 1 <= i <= n
    ensures Bag(s[i := x], n) == Bag(s, n) - multiset{s[i]} + multiset{x}
    ensures s[i] in Bag(s, n)
  {
    assert s[i := x][1..n + 1] == s[1..n + 1][i - 1 := x];
    assert s[1..n + 1][i - 1] == s[i];
  }

  lemma BagLast(s: seq<nat>, n: nat)
    requires 0 < n < |s|
    ensures Bag(s, n) == Bag(s, n - 1) + multiset{s[n]}
  {
    assert s[1..n + 1] == s[1..n] + [s[n]];
  }

  /** The last process in the place of the first: the first is gone. */
  lemma BagRoot(s: seq<nat>, n: nat)
    requires 0 < n < |s|
    ensures s[1] in Bag(s, n) && Bag(if n == 1 then s else s[1 := s[n]], n - 1) == Bag(s, n) - multiset{s[1]}
  {
    BagSet(s, n, 1, s[n]);
    BagLast(s, n);
    if n > 1 { BagSet(s, n - 1, 1, s[n]); }
  }

  /** The hole moves from i to j: filled with x, the same processes are there. */
  lemma BagMove(s: seq<nat>, n: nat, i: nat, j: nat, x: nat)
    requires n < |s| && 1 <= i <= n && 1 <= j <= n && i != j
    ensures Bag(s[i := s[j]][j := x], n) == Bag(s[i := x], n)
  {
    BagSet(s, n, i, s[j]);
    BagSet(s[i := s[j]], n, j, x);
    BagSet(s, n, i, x);
    BagSet(s, n, j, x);
  }

  /** The root has a smallest key. */
  lemma {:induction false} RootLeast(s: seq<nat>, n: nat, key: Key, i: nat)
    requires n < |s| && Ordered(s, n, key) && 1 <= i <= n
    ensures key(s[1]) <= key(s[i])
    decreases i
  {
    if i > 1 {
      assert Above(s, key, i);
      RootLeast(s, n, key, Parent(i));
    }
  }

  /** p's key is no larger than any in the bag. */
  ghost predicate NoLess(bag: multiset<nat>, p: nat, key: Key) { forall x :: x in bag ==> key(p) <= key(x) }

  lemma RootLeastOfAll(s: seq<nat>, n: nat, key: Key)
    requires 0 < n < |s| && Ordered(s, n, key)
    ensures NoLess(Bag(s, n), s[1], key)
  {
    forall x | x in Bag(s, n) ensures key(s[1]) <= key(x) {
      var i :| 0 <= i < n && s[1..n + 1][i] == x;
      RootLeast(s, n, key, i + 1);
    }
  }

  /** Percolating up: a larger parent moves down into the hole. */
  lemma UpStep(s: seq<nat>, n: nat, key: Key, hole: nat, x: nat)
    requires n < |s| && 1 < hole <= n && OrderedBut(s, n, key, hole) && FitsBelow(s, n, key, hole, x)
    requires key(x) < key(s[Parent(hole)])
    ensures var t := s[hole := s[Parent(hole)]]; OrderedBut(t, n, key, Parent(hole)) && FitsBelow(t, n, key, Parent(hole), x)
  {
    var up := Parent(hole);
    var t := s[hole := s[up]];
    forall i: nat {:trigger Above(t, key, i)} | 1 < i <= n && i != up && Parent(i) != up ensures Above(t, key, i) {
      if Parent(i) != hole { assert Above(s, key, i); }
    }
    forall i: nat {:trigger Parent(i)} | 1 < i <= n && Parent(i) == up
      ensures key(x) <= key(t[i]) && (up > 1 ==> key(t[Parent(up)]) <= key(t[i]))
    {
      if i != hole { assert Above(s, key, i); }
      if up > 1 { assert Above(s, key, up); }
    }
  }

  lemma Fill(s: seq<nat>, n: nat, key: Key, hole: nat, x: nat)
    requires n < |s| && 1 <= hole <= n && OrderedBut(s, n, key, hole) && FitsBelow(s, n, key, hole, x)
    requires hole > 1 ==> key(s[Parent(hole)]) <= key(x)
    ensures Ordered(s[hole := x], n, key)
  {
    var t := s[hole := x];
    forall i: nat {:trigger Above(t, key, i)} | 1 < i <= n ensures Above(t, key, i) {
      if i != hole && Parent(i) != hole { assert Above(s, key, i); }
    }
  }

  /** Percolating down: the smaller child moves up into the hole. */
  lemma DownStep(s: seq<nat>, n: nat, key: Key, hole: nat, c: nat, x: nat)
    requires n < |s| && 1 <= hole && hole < c <= n && Parent(c) == hole && OrderedBut(s, n, key, hole)
    requires forall i: nat {:trigger Parent(i)} :: 1 < i <= n && Parent(i) == hole ==> key(s[c]) <= key(s[i])
    ensures OrderedBut(s[hole := s[c]], n, key, c)
  {
    var t := s[hole := s[c]];
    forall i: nat {:trigger Above(t, key, i)} | 1 < i <= n && i != c && Parent(i) != c ensures Above(t, key, i) {
      if i != hole && Parent(i) != hole { assert Above(s, key, i); }
    }
    forall i: nat {:trigger Parent(i)} | 1 < i <= n && Parent(i) == c ensures key(t[Parent(c)]) <= key(t[i]) {
      assert Above(s, key, i);
    }
  }

  /** Both children, or the only one, are at least the chosen one. */
  lemma SmallerChild(s: seq<nat>, n: nat, key: Key, hole: nat, c: nat)
    requires n < |s| && 1 <= hole && 2 * hole <= n && (c == 2 * hole || (c == 2 * hole + 1 && c <= n))
    requires 2 * hole + 1 <= n ==> key(s[c]) <= key(s[2 * hole]) && key(s[c]) <= key(s[2 * hole + 1])
    ensures hole < c <= n && Parent(c) == hole
    ensures forall i: nat {:trigger Parent(i)} :: 1 < i <= n && Parent(i) == hole ==> key(s[c]) <= key(s[i])
  {
    forall i: nat {:trigger Parent(i)} | 1 < i <= n && Parent(i) == hole ensures key(s[c]) <= key(s[i]) {
      assert i == 2 * hole || i == 2 * hole + 1;
    }
  }

  lemma FitsAbove(s: seq<nat>, n: nat, key: Key, hole: nat, c: nat, x: nat)
    requires n < |s| && c <= n && key(x) < key(s[c])
    requires forall i: nat {:trigger Parent(i)} :: 1 < i <= n && Parent(i) == hole ==> key(s[c]) <= key(s[i])
    ensures FitsBelow(s, n, key, hole, x)
  {
  }

  lemma NoChildren(s: seq<nat>, n: nat, key: Key, hole: nat, x: nat)
    requires n < |s| && 2 * hole > n
    ensures FitsBelow(s, n, key, hole, x)
  {
  }

  /** Taking the last slot away, or adding an empty one. */
  lemma HoleAtRoot(s: seq<nat>, n: nat, key: Key)
    requires 1 < n < |s| && Ordered(s, n, key)
    ensures OrderedBut(s, n - 1, key, 1)
  {
  }

  /** The hole where x stops: at the root, or below a parent that is no larger. */
  lemma UpEnd(s: seq<nat>, n: nat, key: Key, hole: nat, x: nat)
    requires n < |s| && 1 <= hole <= n && OrderedBut(s, n, key, hole) && FitsBelow(s, n, key, hole, x)
    requires hole > 1 ==> key(s[Parent(hole)]) <= key(x)
    ensures Ordered(s[hole := x], n, key)
  {
    Fill(s, n, key, hole, x);
  }

  lemma SameBag(s: seq<nat>, n: nat, x: nat)
    requires n + 1 < |s|
    ensures Bag(s[n + 1 := x], n) == Bag(s, n)
  {
    assert s[n + 1 := x][1..n + 1] == s[1..n + 1];
  }

  lemma NoneOrdered(s: seq<nat>, key: Key)
    requires |s| > 0
    ensures Ordered(s, 0, key)
  {
  }

  lemma AtMostAt(s: seq<nat>, i: nat)
    requires i < |s|
    ensures AtMost(s, NPROC) ==> s[i] <= NPROC
  {
  }

  lemma AtMostSet(s: seq<nat>, i: nat, x: nat)
    requires i < |s|
    ensures forall b: nat {:trigger AtMost(s[i := x], b)} :: AtMost(s, b) && x <= b ==> AtMost(s[i := x], b)
    ensures forall b: nat {:trigger AtMost(s, b)} :: AtMost(s, b) ==> forall j :: 0 <= j < |s| ==> s[j] <= b
  {
  }

  lemma HoleAtEnd(s: seq<nat>, n: nat, key: Key, x: nat)
    requires n + 1 < |s| && Ordered(s, n, key)
    ensures OrderedBut(s, n + 1, key, n + 1) && FitsBelow(s, n + 1, key, n + 1, x)
  {
  }

  /** A queue nobody in which changed the key stays ordered. */
  lemma OrderedSameKeys(s: seq<nat>, n: nat, key: Key, key': Key)
    requires n < |s| && Ordered(s, n, key) && forall x :: x in Bag(s, n) ==> key'(x) == key(x)
    ensures Ordered(s, n, key')
  {
    forall i: nat {:trigger Above(s, key', i)} | 1 < i <= n ensures Above(s, key', i) {
      assert Above(s, key, i);
      assert s[1..n + 1][i - 1] == s[i] && s[1..n + 1][Parent(i) - 1] == s[Parent(i)];
      assert s[i] in s[1..n + 1] && s[Parent(i)] in s[1..n + 1];
    }
  }

  /** The heap with p brought in at the hole: larger parents move down until p fits. */
  function SiftedUp(s: seq<nat>, hole: nat, p: nat, key: Key): (t: seq<nat>)
    requires 1 <= hole < |s|
    ensures |t| == |s|
    decreases hole
  {
    if hole > 1 && key(p) < key(s[Parent(hole)]) then SiftedUp(s[hole := s[Parent(hole)]], Parent(hole), p, key)
    else s[hole := p]
  }

  /** The child that may move up into the hole: the one with the smaller key, of equal ones the right one. */
  function SmallChild(s: seq<nat>, n: nat, hole: nat, key: Key): (c: nat)
    requires 1 <= hole && 2 * hole <= n < |s|
  {
    if 2 * hole < n && key(s[2 * hole]) >= key(s[2 * hole + 1]) then 2 * hole + 1 else 2 * hole
  }

  /** The heap with x brought in at the hole: children no larger move up until x fits. */
  function SiftedDown(s: seq<nat>, n: nat, hole: nat, x: nat, key: Key): (t: seq<nat>)
    requires 1 <= hole <= n < |s|
    ensures |t| == |s| && forall i :: 0 <= i < hole || n < i < |s| ==> t[i] == s[i]
    decreases n - hole
  {
    if 2 * hole <= n && key(s[SmallChild(s, n, hole, key)]) <= key(x)
    then SiftedDown(s[hole := s[SmallChild(s, n, hole, key)]], n, SmallChild(s, n, hole, key), x, key)
    else s[hole := x]
  }

  /** x stands in slot k, and all right below it have strictly larger keys. */
  ghost predicate Settled(s: seq<nat>, n: nat, k: nat, x: nat, key: Key)
    requires n < |s|
  {
    1 <= k <= n && s[k] == x && forall c :: 2 * k <= c <= 2 * k + 1 && c <= n ==> key(s[c]) > key(x)
  }

  /** The process brought in goes behind its equals, as far as it meets them. */
  lemma {:induction false} DownEnd(s: seq<nat>, n: nat, hole: nat, x: nat, key: Key)
    requires 1 <= hole <= n < |s|
    ensures exists k :: Settled(SiftedDown(s, n, hole, x, key), n, k, x, key)
    decreases n - hole
  {
    if 2 * hole <= n && key(s[SmallChild(s, n, hole, key)]) <= key(x) {
      DownEnd(s[hole := s[SmallChild(s, n, hole, key)]], n, SmallChild(s, n, hole, key), x, key);
    } else {
      assert Settled(SiftedDown(s, n, hole, x, key), n, hole, x, key);
    }
  }

  /** Whoever is in the slots from lo on was there before, or is x. */
  lemma {:induction false} DownAll(s: seq<nat>, n: nat, hole: nat, x: nat, key: Key, lo: nat, p: nat -> bool)
    requires lo <= hole && 1 <= hole <= n < |s| && p(x) && forall i :: lo <= i <= n ==> p(s[i])
    ensures forall i :: lo <= i <= n ==> p(SiftedDown(s, n, hole, x, key)[i])
    decreases n - hole
  {
    if 2 * hole <= n && key(s[SmallChild(s, n, hole, key)]) <= key(x) {
      DownAll(s[hole := s[SmallChild(s, n, hole, key)]], n, SmallChild(s, n, hole, key), x, key, lo, p);
    }
  }

  /** All of the queue's processes have the key c. */
  ghost predicate Level(s: seq<nat>, n: nat, key: Key, c: int)
    requires n < |s|
  {
    forall i :: 1 <= i <= n ==> key(s[i]) == c
  }

  /** The queue once its head has been taken. */
  function Without(s: seq<nat>, n: nat, key: Key): (t: seq<nat>)
    requires 1 <= n < |s|
    ensures |t| == |s|
  {
    if n == 1 then s else SiftedDown(s, n - 1, 1, s[n], key)
  }

  lemma WithoutIs(s: seq<nat>, n: nat, key: Key)
    requires 1 <= n < |s|
    ensures Without(s, n, key) == if n == 1 then s else SiftedDown(s, n - 1, 1, s[n], key)
  {
  }

  /** The next process is taken and then put back. */
  function Turn(s: seq<nat>, n: nat, key: Key): (t: seq<nat>)
    requires 1 <= n < |s|
    ensures |t| == |s|
  {
    SiftedUp(Without(s, n, key), n, s[1], key)
  }

  function Turns(s: seq<nat>, n: nat, key: Key, k: nat): (t: seq<nat>)
    requires 1 <= n < |s|
    ensures |t| == |s|
  {
    if k == 0 then s else Turn(Turns(s, n, key, k - 1), n, key)
  }

  lemma TurnIs(s: seq<nat>, n: nat, key: Key)
    requires 1 <= n < |s|
    ensures Turn(s, n, key) == SiftedUp(Without(s, n, key), n, s[1], key)
  {
  }

  lemma TurnsNext(s: seq<nat>, n: nat, key: Key, k: nat)
    requires 1 <= n < |s|
    ensures Turns(s, n, key, k + 1) == Turn(Turns(s, n, key, k), n, key) && Turns(s, n, key, 0) == s
  {
  }

  lemma OneTurn(s: seq<nat>, n: nat, key: Key, c: int)
    requires 1 <= n <= 3 && n < |s| && Level(s, n, key, c)
    ensures Turn(s, n, key)[n] == s[1] && forall i :: 1 <= i < n ==> Turn(s, n, key)[i] == s[i + 1]
  {
  }

  lemma NextOf(k: nat, n: nat)
    requires k > 0 && 1 <= n <= 3
    ensures k % n == ((k - 1) % n + 1) % n && (k - 1 + n) % n == (k - 1) % n
    ensures n >= 2 ==> (k + 1) % n == ((k - 1) % n + 2) % n
  {
  }

  /** Up to three processes of one key come out in turn. */
  lemma {:induction false} InTurn(s: seq<nat>, n: nat, key: Key, c: int, k: nat)
    requires 1 <= n <= 3 && n < |s| && Level(s, n, key, c)
    ensures Turns(s, n, key, k)[1] == s[1 + k % n]
    ensures n >= 2 ==> Turns(s, n, key, k)[2] == s[1 + (k + 1) % n]
    ensures n == 3 ==> Turns(s, n, key, k)[3] == s[1 + (k + 2) % n]
  {
    hide Turn;
    if k > 0 {
      NextOf(k, n);
      InTurn(s, n, key, c, k - 1);
      OneTurn(Turns(s, n, key, k - 1), n, key, c);
    }
  }

  lemma TurnPastSecond(s: seq<nat>, n: nat, key: Key, c: int)
    requires 4 <= n < |s| && Level(s, n, key, c) && forall i :: 1 <= i <= n && i != 2 ==> s[i] != s[2]
    ensures var t := Turn(s, n, key);
      t[2] == s[2] && Level(t, n, key, c) && forall i :: 1 <= i <= n && i != 2 ==> t[i] != t[2]
  {
    var u := s[1 := s[3]];
    var d := SiftedDown(s, n - 1, 1, s[n], key);
    assert d == SiftedDown(u, n - 1, 3, s[n], key);
    var y := s[2];
    DownAll(u, n - 1, 3, s[n], key, 1, (z: nat) => key(z) == c);
    DownAll(u, n - 1, 3, s[n], key, 3, (z: nat) => z != y);
    assert Turn(s, n, key) == d[n := s[1]];
  }

  /** Of four or more processes of one key, the one in slot 2 is never taken. */
  lemma {:induction false} SecondWaits(s: seq<nat>, n: nat, key: Key, c: int, k: nat)
    requires 4 <= n < |s| && Level(s, n, key, c) && Distinct(s, n)
    ensures var t := Turns(s, n, key, k);
      t[2] == s[2] && Level(t, n, key, c) && forall i :: 1 <= i <= n && i != 2 ==> t[i] != t[2]
  {
    if k > 0 {
      SecondWaits(s, n, key, c, k - 1);
      TurnPastSecond(Turns(s, n, key, k - 1), n, key, c);
    }
  }

  /** Those taken so far came out in turn, or, from a longer queue, without the one in slot 2. */
  ghost predicate RanInTurn(s: seq<nat>, n: nat, ran: seq<nat>)
    requires 1 <= n < |s|
  {
    (n <= 3 ==> forall i :: 0 <= i < |ran| ==> ran[i] == s[1 + i % n]) && (n >= 4 ==> s[2] !in ran)
  }

  lemma RanNone(s: seq<nat>, n: nat)
    requires 1 <= n < |s|
    ensures RanInTurn(s, n, [])
  {
  }

  lemma RanNext(s: seq<nat>, n: nat, key: Key, c: int, ran: seq<nat>)
    requires 1 <= n < |s| && Level(s, n, key, c) && Distinct(s, n) && RanInTurn(s, n, ran)
    ensures RanInTurn(s, n, ran + [Turns(s, n, key, |ran|)[1]])
  {
    hide Turns, Level, Distinct;
    if n <= 3 {
      var x := Turns(s, n, key, |ran|)[1];
      assert x == s[1 + |ran| % n] by { InTurn(s, n, key, c, |ran|); }
      RanOne(s, n, ran, x);
    } else {
      SecondWaits(s, n, key, c, |ran|);
    }
  }

  lemma RanOne(s: seq<nat>, n: nat, ran: seq<nat>, x: nat)
    requires 1 <= n <= 3 && n < |s| && RanInTurn(s, n, ran) && x == s[1 + |ran| % n]
    ensures RanInTurn(s, n, ran + [x])
  {
  }

  lemma RanAll(s: seq<nat>, n: nat, ran: seq<nat>)
    requires 1 <= n < |s| && RanInTurn(s, n, ran)
    ensures n <= 3 ==> forall i :: 0 <= i < |ran| ==> ran[i] == s[1 + i % n]
    ensures n >= 4 ==> s[2] !in ran
  {
  }

  /** No slot holds more than b. */
  ghost predicate AtMost(s: seq<nat>, b: nat) { forall i :: 0 <= i < |s| ==> s[i] <= b }

  ghost predicate Distinct(s: seq<nat>, n: nat)
    requires n < |s|
  {
    forall i, j :: 1 <= i < j <= n ==> s[i] != s[j]
  }

  /** x as the key of p agrees with the keys of p's neighbours in the heap. */
  ghost predicate KeyFits(s: seq<nat>, n: nat, key: Key, p: nat, x: int)
    requires n < |s|
  {
    && (forall c: nat {:trigger Parent(c)} :: 1 < c <= n && s[Parent(c)] == p ==> x <= key(s[c]))
    && (forall c: nat {:trigger Parent(c)} :: 1 < c <= n && s[c] == p ==> key(s[Parent(c)]) <= x)
  }

  /** A queued process that changes its key leaves the queue in order exactly if the new key fits where it stands. */
  lemma RekeyIff(s: seq<nat>, n: nat, key: Key, key': Key, p: nat)
    requires n < |s| && Distinct(s, n) && Ordered(s, n, key) && forall x :: x != p ==> key'(x) == key(x)
    ensures Ordered(s, n, key') <==> KeyFits(s, n, key, p, key'(p))
  {
    if KeyFits(s, n, key, p, key'(p)) {
      forall i: nat {:trigger Above(s, key', i)} | 1 < i <= n ensures Above(s, key', i) {
        assert Above(s, key, i) && s[Parent(i)] != s[i];
      }
    }
    if Ordered(s, n, key') {
      forall c: nat {:trigger Parent(c)} | 1 < c <= n
        ensures (s[Parent(c)] == p ==> key'(p) <= key(s[c])) && (s[c] == p ==> key(s[Parent(c)]) <= key'(p))
      {
        assert Above(s, key', c) && s[Parent(c)] != s[c];
      }
    }
  }

  class Queue {
    const heap: array<nat>
    var count: nat

    ghost predicate Valid()
      reads this
    {
      heap.Length == NPROC + 1 && count <= NPROC
    }

    ghost predicate InOrder(key: Key)
      requires Valid()
      reads this, heap
    {
      Ordered(heap[..], count, key)
    }

    ghost function Items(): multiset<nat>
      requires Valid()
      reads this, heap
    {
      Bag(heap[..], count)
    }

    constructor ()
      ensures Valid() && fresh(heap) && count == 0 && Items() == multiset{} && forall key: Key :: InOrder(key)
      ensures AtMost(heap[..], 0)
    {
      heap := new nat[NPROC + 1](i => 0);
      count := 0;
    }

    /** mlfq_enqueue, stride_enqueue: exactly p is added and order kept, or the queue is full and nothing changes. */
    method Enqueue(p: nat, key: Key) returns (ok: bool)
      requires Valid()
      modifies this, heap
      ensures Valid() && ok == (old(count) < NPROC) && (old(InOrder(key)) ==> InOrder(key))
      ensures if ok then count == old(count) + 1 && Items() == old(Items()) + multiset{p}
              else count == old(count) && heap[..] == old(heap[..])
      ensures ok ==> heap[..] == SiftedUp(old(heap[..]), count, p, key)
      ensures p <= NPROC && AtMost(old(heap[..]), NPROC) ==> AtMost(heap[..], NPROC)
    {
      hide Ordered, OrderedBut, FitsBelow, Above, Bag, AtMost;
      if count >= NPROC { return false; }
      ghost var s0, n0 := heap[..], count;
      if InOrder(key) { HoleAtEnd(s0, count, key, p); }
      count := count + 1;
      BagLast(s0[count := p], count);
      assert Bag(s0[count := p], n0) == Bag(s0, n0) by { SameBag(s0, n0, p); }
      var child := count;
      var parent := child / 2;
      while child > 1
        invariant Valid() && count == n0 + 1 && 1 <= child <= count && parent == Parent(child)
        invariant old(InOrder(key)) ==> OrderedBut(heap[..], count, key, child) && FitsBelow(heap[..], count, key, child, p)
        invariant Bag(heap[..][child := p], count) == Bag(s0, n0) + multiset{p}
        invariant SiftedUp(heap[..], child, p, key) == SiftedUp(s0, count, p, key)
        invariant AtMost(s0, NPROC) ==> AtMost(heap[..], NPROC)
        modifies heap
      {
        ghost var s := heap[..];
        if key(p) < key(heap[parent]) {
          if old(InOrder(key)) { UpStep(s, count, key, child, p); }
          BagMove(s, count, child, parent, p);
          AtMostSet(s, child, s[parent]);
          heap[child] := heap[parent];
          assert heap[..] == s[child := s[parent]];
          child := parent;
          parent := child / 2;
        } else {
          break;
        }
      }
      ghost var s := heap[..];
      if old(InOrder(key)) { UpEnd(s, count, key, child, p); }
      AtMostSet(s, child, p);
      heap[child] := p;
      assert heap[..] == s[child := p];
      return true;
    }

    /** mlfq_dequeue, stride_dequeue: the root leaves, in an ordered queue a process of least key; None from an empty queue. */
    method Dequeue(key: Key) returns (r: Option)
      requires Valid()
      modifies this, heap
      ensures Valid() && (r == None <==> old(count) == 0) && (old(InOrder(key)) ==> InOrder(key))
      ensures r == None ==> count == 0 && heap[..] == old(heap[..])
      ensures r.Some? ==> r.p == old(heap[1]) && r.p in old(Items())
      ensures r.Some? && old(InOrder(key)) ==> NoLess(old(Items()), r.p, key)
      ensures r.Some? ==> count == old(count) - 1 && Items() == old(Items()) - multiset{r.p}
      ensures r.Some? ==> heap[..] == Without(old(heap[..]), old(count), key)
      ensures AtMost(old(heap[..]), NPROC) ==> AtMost(heap[..], NPROC)
    {
      hide AtMost, NoLess, Ordered, OrderedBut, Bag, SiftedDown, SmallChild, FitsBelow, Above, Without;
      if count == 0 { return None; }
      ghost var s0, n0, ordered := heap[..], count, InOrder(key);
      if ordered { RootLeastOfAll(s0, n0, key); }
      BagRoot(s0, n0);
      WithoutIs(s0, n0, key);
      var p := heap[1];
      var end := heap[count];
      AtMostAt(s0, n0);
      count := count - 1;
      if count > 0 {
        if ordered { HoleAtRoot(s0, n0, key); }
        SiftDown(end, key, ordered);
      } else {
        NoneOrdered(s0, key);
        assert heap[..] == s0;
      }
      return Some(p);
    }

    /** Dequeue's loop: the process that was last finds its place from the empty root down. */
    method SiftDown(end: nat, key: Key, ghost ordered: bool)
      requires Valid() && count > 0 && (ordered ==> OrderedBut(heap[..], count, key, 1))
      modifies heap
      ensures Valid() && (ordered ==> InOrder(key)) && Items() == old(Bag(heap[..][1 := end], count))
      ensures heap[..] == SiftedDown(old(heap[..]), count, 1, end, key)
      ensures end <= NPROC && AtMost(old(heap[..]), NPROC) ==> AtMost(heap[..], NPROC)
    {
      hide Ordered, OrderedBut, FitsBelow, Above, Bag, Parent, AtMost;
      ghost var bag := Bag(heap[..][1 := end], count);
      ghost var fits := false;
      var parent, child := 1, 2;
      while child <= count
        invariant Valid() && 1 <= parent <= count && child == 2 * parent && !fits
        invariant Bag(heap[..][parent := end], count) == bag
        invariant SiftedDown(heap[..], count, parent, end, key) == SiftedDown(old(heap[..]), count, 1, end, key)
        invariant ordered ==> OrderedBut(heap[..], count, key, parent) && (parent > 1 ==> key(heap[Parent(parent)]) <= key(end))
        invariant AtMost(old(heap[..]), NPROC) ==> AtMost(heap[..], NPROC)
        decreases count - parent
      {
        ghost var s := heap[..];
        if child < count {
          child := if key(heap[child]) < key(heap[child + 1]) then child else child + 1;
        }
        SmallerChild(s, count, key, parent, child);
        if key(end) >= key(heap[child]) {
          if ordered { DownStep(s, count, key, parent, child, end); }
          BagMove(s, count, parent, child, end);
          AtMostSet(s, parent, s[child]);
          heap[parent] := heap[child];
          assert heap[..] == s[parent := s[child]];
          parent := child;
          child := parent * 2;
        } else {
          FitsAbove(s, count, key, parent, child, end);
          fits := true;
          break;
        }
      }
      if !fits { NoChildren(heap[..], count, key, parent, end); }
      ghost var s := heap[..];
      if ordered { UpEnd(s, count, key, parent, end); }
      AtMostSet(s, parent, end);
      heap[parent] := end;
      assert heap[..] == s[parent := end];
    }

    /** The next process is taken and, its key still the same, put back. */
    method TakeTurn(key: Key) returns (p: nat)
      requires Valid() && count > 0
      modifies this, heap
      ensures Valid() && count == old(count) && p == old(heap[1]) && heap[..] == Turn(old(heap[..]), count, key)
    {
      hide SiftedUp, SiftedDown, Ordered, Bag, NoLess, AtMost, Without;
      var r := Dequeue(key);
      p := r.p;
      var ok := Enqueue(p, key);
    }

    /** Dequeuing until the queue is empty hands out every process, keys never falling. */
    method Drain(key: Key) returns (out: seq<nat>)
      requires Valid() && InOrder(key)
      modifies this, heap
      ensures Valid() && count == 0 && multiset(out) == old(Items())
      ensures forall i, j :: 0 <= i < j < |out| ==> key(out[i]) <= key(out[j])
    {
      hide Ordered, Bag, Rising, NoLess;
      out := [];
      RisingNone(Items(), key);
      while count > 0
        invariant Valid() && InOrder(key) && multiset(out) + Items() == old(Items()) && Rising(out, Items(), key)
        decreases count
      {
        ghost var before := Items();
        var r := Dequeue(key);
        RisingNext(out, before, r.p, key);
        out := out + [r.p];
      }
      NoneLeft(heap[..]);
      RisingIs(out, Items(), key);
    }
  }

  /** Keys never fall along out, and the rest have none smaller. */
  ghost predicate Rising(out: seq<nat>, rest: multiset<nat>, key: Key) {
    (forall i, j :: 0 <= i < j < |out| ==> key(out[i]) <= key(out[j])) && (out != [] ==> NoLess(rest, out[|out| - 1], key))
  }

  lemma RisingNone(rest: multiset<nat>, key: Key)
    ensures Rising([], rest, key)
  {
  }

  lemma RisingIs(out: seq<nat>, rest: multiset<nat>, key: Key)
    requires Rising(out, rest, key)
    ensures forall i, j :: 0 <= i < j < |out| ==> key(out[i]) <= key(out[j])
  {
  }

  lemma RisingNext(out: seq<nat>, rest: multiset<nat>, p: nat, key: Key)
    requires Rising(out, rest, key) && p in rest && NoLess(rest, p, key)
    ensures Rising(out + [p], rest - multiset{p}, key) && multiset(out + [p]) + (rest - multiset{p}) == multiset(out) + rest
  {
    var t := out + [p];
    if out != [] {
      forall i | 0 <= i < |out| ensures key(out[i]) <= key(p) {
        assert key(out[i]) <= key(out[|out| - 1]) <= key(p);
      }
    }
    assert t[|t| - 1] == p;
  }

  lemma NoneLeft(s: seq<nat>)
    requires |s| > 0
    ensures Bag(s, 0) == multiset{}
  {
    assert s[1..1] == [];
  }

  datatype Option = None | Some(p: nat)
}
