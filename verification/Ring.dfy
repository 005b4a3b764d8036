// A circular doubly linked list of numbered cells with a sentinel, as two link
// tables; the list it spells out is a sequence of cell numbers.
module Ring {

  /** The neighbour at position k of the list; both ends are the sentinel. */
  function At(ring: seq<nat>, k: int, head: nat): nat {
    if 0 <= k < |ring| then ring[k] else head
  }

  ghost predicate Cells(ring: seq<nat>, head: nat) {
    && (forall k :: 0 <= k < |ring| ==> ring[k] < head)
    && (forall j, k :: 0 <= j < k < |ring| ==> ring[j] != ring[k])
  }

  /** The links of the sentinel and of every listed cell spell out `ring` in both directions. */
  ghost predicate Linked(prev: seq<nat>, next: seq<nat>, ring: seq<nat>, head: nat) {
    && |prev| == |next| == head + 1
    && Cells(ring, head)
    && next[head] == At(ring, 0, head) && prev[head] == At(ring, |ring| - 1, head)
    && (forall k {:trigger next[ring[k]]} :: 0 <= k < |ring| ==> next[ring[k]] == At(ring, k + 1, head))
    && (forall k {:trigger prev[ring[k]]} :: 0 <= k < |ring| ==> prev[ring[k]] == At(ring, k - 1, head))
  }

  lemma FrontCells(ring: seq<nat>, head: nat, x: nat)
    requires Cells(ring, head) && x < head && x !in ring
    ensures Cells([x] + ring, head)
  {
  }

  lemma InsertAt(prev: seq<nat>, next: seq<nat>, ring: seq<nat>, head: nat, x: nat, k: nat)
    requires Linked(prev, next, ring, head) && x < head && x !in ring && k < |ring|
    ensures next[head] <= head
    ensures next[x := next[head]][head := x][ring[k]] == At(ring, k + 1, head)
    ensures prev[x := head][next[head] := x][ring[k]] == if k == 0 then x else At(ring, k - 1, head)
  {
    if k > 0 { assert ring[0] != ring[k]; }
  }

  lemma InsertFront(prev: seq<nat>, next: seq<nat>, ring: seq<nat>, head: nat, x: nat)
    requires Linked(prev, next, ring, head) && x < head && x !in ring
    ensures next[head] <= head
    ensures Linked(prev[x := head][next[head] := x], next[x := next[head]][head := x], [x] + ring, head)
  {
    var r := [x] + ring;
    FrontCells(ring, head, x);
    var p, n := prev[x := head][next[head] := x], next[x := next[head]][head := x];
    forall k | 0 <= k < |r| ensures n[r[k]] == At(r, k + 1, head) && p[r[k]] == At(r, k - 1, head) {
      if k > 0 {
        InsertAt(prev, next, ring, head, x, k - 1);
      }
    }
  }

  function Without(ring: seq<nat>, k: nat): (r: seq<nat>)
    requires k < |ring|
    ensures |r| == |ring| - 1
    ensures forall j :: 0 <= j < |r| ==> r[j] == ring[if j < k then j else j + 1]
  {
    ring[..k] + ring[k + 1..]
  }

  lemma WithoutCells(ring: seq<nat>, head: nat, k: nat)
    requires Cells(ring, head) && k < |ring|
    ensures Cells(Without(ring, k), head) && ring[k] !in Without(ring, k)
  {
  }

  lemma RemoveAt(prev: seq<nat>, next: seq<nat>, ring: seq<nat>, head: nat, k: nat, i: nat)
    requires Linked(prev, next, ring, head) && k < |ring| && i < |ring| && i != k
    ensures var x := ring[k];
      && next[x] <= head && prev[x] <= head
      && next[prev[x] := next[x]][ring[i]] == (if i == k - 1 then At(ring, k + 1, head) else At(ring, i + 1, head))
      && prev[next[x] := prev[x]][ring[i]] == (if i == k + 1 then At(ring, k - 1, head) else At(ring, i - 1, head))
  {
    if k > 0 && i != k - 1 { assert ring[i] != ring[k - 1]; }
    if k + 1 < |ring| && i != k + 1 { assert ring[i] != ring[k + 1]; }
  }

  lemma Remove(prev: seq<nat>, next: seq<nat>, ring: seq<nat>, head: nat, k: nat)
    requires Linked(prev, next, ring, head) && k < |ring|
    ensures next[ring[k]] <= head && prev[ring[k]] <= head
    ensures Linked(prev[next[ring[k]] := prev[ring[k]]], next[prev[ring[k]] := next[ring[k]]], Without(ring, k), head)
    ensures ring[k] !in Without(ring, k)
  {
    WithoutCells(ring, head, k);
    var x, r := ring[k], Without(ring, k);
    var p, n := prev[next[x] := prev[x]], next[prev[x] := next[x]];
    assert n[head] == At(r, 0, head) && p[head] == At(r, |r| - 1, head);
    forall j | 0 <= j < |r| ensures n[r[j]] == At(r, j + 1, head) && p[r[j]] == At(r, j - 1, head) {
      RemoveAt(prev, next, ring, head, k, if j < k then j else j + 1);
    }
  }

  lemma FrontMembers(ring: seq<nat>, k: nat)
    requires k < |ring|
    ensures forall x :: x in ring ==> x in [ring[k]] + Without(ring, k)
  {
    var r := [ring[k]] + Without(ring, k);
    forall x | x in ring ensures x in r {
      var j :| 0 <= j < |ring| && ring[j] == x;
      if j != k {
        assert r[if j < k then j + 1 else j] == x;
      }
    }
  }
}
