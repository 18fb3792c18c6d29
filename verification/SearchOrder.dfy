/**
 The order in which a search enters nodes. Depth-first enters the first
 successor not yet entered of the latest node that has one; breadth-first that
 of the earliest. Either rule fixes the whole list.
 */
module SearchOrder {
  import opened Wrappers
  import opened Listing
  import opened Dfs

  ghost predicate InLog(log: seq<nat>, x: nat) {
    x in log
  }

  /** `log` lists exactly the marked nodes. */
  ghost predicate Listed(seen: seq<bool>, log: seq<nat>) {
    forall x: nat {:trigger InLog(log, x)} :: InLog(log, x) <==> x < |seen| && seen[x]
  }

  lemma {:induction false} ListedMore(seen: seq<bool>, log: seq<nat>, v: nat)
    requires Listed(seen, log) && Distinct(log) && v < |seen| && !seen[v]
    ensures Listed(seen[v := true], log + [v]) && Distinct(log + [v])
  {
    var seen', log' := seen[v := true], log + [v];
    forall x: nat
      ensures InLog(log', x) <==> x < |seen'| && seen'[x]
    {
      assert InLog(log, x) <==> x < |seen| && seen[x];
    }
    assert !InLog(log, v);
  }

  // ----- The two rules -----

  /** Every successor of `u` is among the first `n` nodes. */
  ghost predicate SuccsBefore(a: Adj, log: seq<nat>, n: nat, u: nat) {
    forall v: nat :: Edge(a, u, v) ==> Before(log, n, v)
  }

  /** So are the nodes that the first `s` slots of `u` name. */
  ghost predicate SlotsBefore(a: Adj, log: seq<nat>, n: nat, u: nat, s: nat) {
    u < |a| && s <= |a[u]| && forall t: nat :: t < s && a[u][t].Some? ==> Before(log, n, a[u][t].value)
  }

  /** The nodes at positions `lo` to `hi` have no new successor. */
  ghost predicate Exhausted(a: Adj, log: seq<nat>, n: nat, lo: nat, hi: nat) {
    hi <= n <= |log| && forall q: nat :: lo <= q < hi ==> ExhaustedAt(a, log, n, q)
  }

  ghost predicate ExhaustedAt(a: Adj, log: seq<nat>, n: nat, q: nat)
    requires q < |log|
  {
    SuccsBefore(a, log, n, log[q])
  }

  /** `v` is what slot `s` of the node at position `i` names, and no earlier slot
      of that node names a new one. */
  ghost predicate FirstNew(a: Adj, log: seq<nat>, n: nat, v: nat, i: nat, s: nat) {
    && i < n <= |log| && SlotsBefore(a, log, n, log[i], s) && s < |a[log[i]]| && a[log[i]][s] == Some(v)
  }

  ghost predicate NextDown(a: Adj, log: seq<nat>, n: nat, v: nat, i: nat, s: nat) {
    FirstNew(a, log, n, v, i, s) && Exhausted(a, log, n, i + 1, n)
  }

  ghost predicate NextAcross(a: Adj, log: seq<nat>, n: nat, v: nat, i: nat, s: nat) {
    FirstNew(a, log, n, v, i, s) && Exhausted(a, log, n, 0, i)
  }

  ghost predicate PreorderAt(a: Adj, log: seq<nat>, j: nat)
    requires j < |log|
  {
    exists i: nat, s: nat :: NextDown(a, log, j, log[j], i, s)
  }

  ghost predicate Preorder(a: Adj, log: seq<nat>) {
    forall j: nat :: 0 < j < |log| ==> PreorderAt(a, log, j)
  }

  ghost predicate BreadthAt(a: Adj, log: seq<nat>, j: nat)
    requires j < |log|
  {
    exists i: nat, s: nat :: NextAcross(a, log, j, log[j], i, s)
  }

  ghost predicate BreadthOrder(a: Adj, log: seq<nat>) {
    forall j: nat :: 0 < j < |log| ==> BreadthAt(a, log, j)
  }

  // ----- Longer lists -----

  lemma {:induction false} BeforeKept(log: seq<nat>, log': seq<nat>, n: nat, x: nat)
    requires Prefix(log, log') && n <= |log|
    ensures Before(log, n, x) <==> Before(log', n, x)
  {
  }

  lemma {:induction false} BeforeLater(log: seq<nat>, log': seq<nat>, x: nat)
    requires Prefix(log, log') && Before(log, |log|, x)
    ensures Before(log', |log'|, x)
  {
    var i :| 0 <= i < |log| && log[i] == x;
    assert log'[i] == x;
  }

  lemma {:induction false} SlotsKept(a: Adj, log: seq<nat>, log': seq<nat>, n: nat, u: nat, s: nat)
    requires Prefix(log, log') && n <= |log| && SlotsBefore(a, log, n, u, s)
    ensures SlotsBefore(a, log', n, u, s)
  {
    forall t: nat | t < s && a[u][t].Some?
      ensures Before(log', n, a[u][t].value)
    {
      BeforeKept(log, log', n, a[u][t].value);
    }
  }

  lemma {:induction false} ExhaustedKept(a: Adj, log: seq<nat>, log': seq<nat>, n: nat, lo: nat, hi: nat)
    requires Prefix(log, log') && n <= |log| && Exhausted(a, log, n, lo, hi)
    ensures Exhausted(a, log', n, lo, hi)
  {
    forall q: nat, v: nat | lo <= q < hi && Edge(a, log[q], v)
      ensures Before(log', n, v)
    {
      assert ExhaustedAt(a, log, n, q);
      BeforeKept(log, log', n, v);
    }
  }

  lemma {:induction false} ExhaustedLater(a: Adj, log: seq<nat>, log': seq<nat>, lo: nat, hi: nat)
    requires Prefix(log, log') && Exhausted(a, log, |log|, lo, hi)
    ensures Exhausted(a, log', |log'|, lo, hi)
  {
    forall q: nat, v: nat | lo <= q < hi && Edge(a, log[q], v)
      ensures Before(log', |log'|, v)
    {
      assert ExhaustedAt(a, log, |log|, q);
      BeforeLater(log, log', v);
    }
  }

  /** `v` may come next in depth-first order. */
  ghost predicate MayEnter(a: Adj, log: seq<nat>, v: nat) {
    log == [] || exists i: nat, s: nat :: NextDown(a, log, |log|, v, i, s)
  }

  lemma {:induction false} AcrossKept(a: Adj, log: seq<nat>, log': seq<nat>, n: nat, v: nat, i: nat, s: nat)
    requires Prefix(log, log') && n <= |log| && NextAcross(a, log, n, v, i, s)
    ensures NextAcross(a, log', n, v, i, s)
  {
    SlotsKept(a, log, log', n, log[i], s);
    ExhaustedKept(a, log, log', n, 0, i);
  }

  lemma {:induction false} BreadthMore(a: Adj, log: seq<nat>, v: nat, i: nat, s: nat)
    requires BreadthOrder(a, log) && NextAcross(a, log, |log|, v, i, s)
    ensures BreadthOrder(a, log + [v])
  {
    var log' := log + [v];
    forall j: nat | 0 < j < |log'|
      ensures BreadthAt(a, log', j)
    {
      var i', s' := i, s;
      if j < |log| {
        assert BreadthAt(a, log, j);
        i', s' :| NextAcross(a, log, j, log[j], i', s');
      }
      AcrossKept(a, log, log', j, log'[j], i', s');
    }
  }

  // ----- From flags to lists -----

  lemma {:induction false} SeenBefore(seen: seq<bool>, log: seq<nat>, v: nat)
    requires Listed(seen, log) && v < |seen| && seen[v]
    ensures Before(log, |log|, v)
  {
    assert InLog(log, v);
  }

  lemma {:induction false} ExploredBefore(a: Adj, seen: seq<bool>, log: seq<nat>, u: nat)
    requires Listed(seen, log) && Explored(a, seen, u)
    ensures SuccsBefore(a, log, |log|, u)
  {
    forall v: nat | Edge(a, u, v)
      ensures Before(log, |log|, v)
    {
      SeenBefore(seen, log, v);
    }
  }

  lemma {:induction false} SeenSlotsBefore(a: Adj, seen: seq<bool>, log: seq<nat>, u: nat, s: nat)
    requires Listed(seen, log) && u < |a| && s <= |a[u]|
    requires forall t :: 0 <= t < s && a[u][t].Some? ==> a[u][t].value < |seen| && seen[a[u][t].value]
    ensures SlotsBefore(a, log, |log|, u, s)
  {
    forall t: nat | t < s && a[u][t].Some?
      ensures Before(log, |log|, a[u][t].value)
    {
      SeenBefore(seen, log, a[u][t].value);
    }
  }

  // ----- Each rule fixes the list -----

  /** The list has no repetition and is closed under successors. */
  ghost predicate Complete(a: Adj, log: seq<nat>) {
    Distinct(log) && Exhausted(a, log, |log|, 0, |log|)
  }

  ghost predicate Agree(log: seq<nat>, log': seq<nat>, n: nat) {
    n <= |log| && n <= |log'| && forall q :: 0 <= q < n ==> log[q] == log'[q]
  }

  lemma {:induction false} LaterNotBefore(log: seq<nat>, n: nat, j: nat)
    requires Distinct(log) && n <= j < |log|
    ensures !Before(log, n, log[j])
  {
  }

  lemma {:induction false} NotBefore(log: seq<nat>, log': seq<nat>, n: nat, v: nat)
    requires Agree(log, log', n) && Before(log, n, v)
    ensures Before(log', n, v)
    ensures Distinct(log') && n < |log'| ==> log'[n] != v
  {
    var i :| 0 <= i < n && log[i] == v;
    assert log'[i] == v;
  }

  /** A list that has another's beginning and is closed goes on if the other does. */
  lemma {:induction false} GoesOn(a: Adj, log: seq<nat>, log': seq<nat>, n: nat, i: nat, s: nat)
    requires Distinct(log) && Complete(a, log') && Agree(log, log', n) && n < |log| && FirstNew(a, log, n, log[n], i, s)
    ensures n < |log'|
  {
    assert Edge(a, log'[i], log[n]);
    assert ExhaustedAt(a, log', |log'|, i);
    LaterNotBefore(log, n, n);
    var j :| 0 <= j < |log'| && log'[j] == log[n];
  }

  /** With the same parent the first new slot is the same. */
  lemma {:induction false} SameSlot(a: Adj, log: seq<nat>, log': seq<nat>, n: nat, i: nat, s: nat, s': nat)
    requires Distinct(log) && Distinct(log') && Agree(log, log', n) && n < |log| && n < |log'|
    requires FirstNew(a, log, n, log[n], i, s) && FirstNew(a, log', n, log'[n], i, s')
    ensures log[n] == log'[n]
  {
    if s < s' {
      assert Before(log', n, a[log'[i]][s].value);
      NotBefore(log', log, n, log[n]);
    } else if s' < s {
      assert Before(log, n, a[log[i]][s'].value);
      NotBefore(log, log', n, log'[n]);
    }
  }

  /** A parent that the other list has exhausted is not the parent there. */
  lemma {:induction false} NotParent(a: Adj, log: seq<nat>, log': seq<nat>, n: nat, i: nat, s: nat, lo: nat, hi: nat)
    requires Distinct(log) && Agree(log, log', n) && n < |log| && FirstNew(a, log, n, log[n], i, s)
    requires Exhausted(a, log', n, lo, hi)
    ensures !(lo <= i < hi)
  {
    if lo <= i < hi {
      assert ExhaustedAt(a, log', n, i);
      assert Edge(a, log'[i], log[n]);
      NotBefore(log', log, n, log[n]);
    }
  }

  lemma {:induction false} PreorderStep(a: Adj, log: seq<nat>, log': seq<nat>, n: nat)
    requires Preorder(a, log) && Preorder(a, log') && Distinct(log) && Complete(a, log')
    requires Agree(log, log', n) && 0 < n < |log|
    ensures Agree(log, log', n + 1)
  {
    assert PreorderAt(a, log, n);
    var i: nat, s: nat :| NextDown(a, log, n, log[n], i, s);
    GoesOn(a, log, log', n, i, s);
    assert PreorderAt(a, log', n);
    var i': nat, s': nat :| NextDown(a, log', n, log'[n], i', s');
    NotParent(a, log, log', n, i, s, i' + 1, n);
    NotParent(a, log', log, n, i', s', i + 1, n);
    SameSlot(a, log, log', n, i, s, s');
  }

  lemma {:induction false} BreadthStep(a: Adj, log: seq<nat>, log': seq<nat>, n: nat)
    requires BreadthOrder(a, log) && BreadthOrder(a, log') && Distinct(log) && Complete(a, log')
    requires Agree(log, log', n) && 0 < n < |log|
    ensures Agree(log, log', n + 1)
  {
    assert BreadthAt(a, log, n);
    var i: nat, s: nat :| NextAcross(a, log, n, log[n], i, s);
    GoesOn(a, log, log', n, i, s);
    assert BreadthAt(a, log', n);
    var i': nat, s': nat :| NextAcross(a, log', n, log'[n], i', s');
    NotParent(a, log, log', n, i, s, 0, i');
    NotParent(a, log', log, n, i', s', 0, i);
    SameSlot(a, log, log', n, i, s, s');
  }

  lemma {:induction false} PreorderAgrees(a: Adj, log: seq<nat>, log': seq<nat>, n: nat)
    requires Preorder(a, log) && Preorder(a, log') && Distinct(log) && Complete(a, log')
    requires 0 < n <= |log| && |log'| > 0 && log[0] == log'[0]
    ensures Agree(log, log', n)
  {
    if n > 1 {
      PreorderAgrees(a, log, log', n - 1);
      PreorderStep(a, log, log', n - 1);
    }
  }

  lemma {:induction false} BreadthAgrees(a: Adj, log: seq<nat>, log': seq<nat>, n: nat)
    requires BreadthOrder(a, log) && BreadthOrder(a, log') && Distinct(log) && Complete(a, log')
    requires 0 < n <= |log| && |log'| > 0 && log[0] == log'[0]
    ensures Agree(log, log', n)
  {
    if n > 1 {
      BreadthAgrees(a, log, log', n - 1);
      BreadthStep(a, log, log', n - 1);
    }
  }

  /** There is one complete list in preorder from a given start. */
  lemma {:induction false} PreorderUnique(a: Adj, log: seq<nat>, log': seq<nat>)
    requires Preorder(a, log) && Preorder(a, log') && Complete(a, log) && Complete(a, log')
    requires |log| > 0 && |log'| > 0 && log[0] == log'[0]
    ensures log == log'
  {
    PreorderAgrees(a, log, log', |log|);
    PreorderAgrees(a, log', log, |log'|);
  }

  /** There is one complete list in breadth-first order from a given start. */
  lemma {:induction false} BreadthUnique(a: Adj, log: seq<nat>, log': seq<nat>)
    requires BreadthOrder(a, log) && BreadthOrder(a, log') && Complete(a, log) && Complete(a, log')
    requires |log| > 0 && |log'| > 0 && log[0] == log'[0]
    ensures log == log'
  {
    BreadthAgrees(a, log, log', |log|);
    BreadthAgrees(a, log', log, |log'|);
  }

  // ----- Breadth-first order is order of distance -----

  /** The position of the node from which the node at `j` was entered. */
  ghost function Parent(a: Adj, log: seq<nat>, j: nat): (i: nat)
    requires BreadthOrder(a, log) && 0 < j < |log|
    ensures i < j && Edge(a, log[i], log[j]) && Exhausted(a, log, j, 0, i)
  {
    assert BreadthAt(a, log, j);
    var i: nat, s: nat :| NextAcross(a, log, j, log[j], i, s);
    i
  }

  ghost function Depth(a: Adj, log: seq<nat>, j: nat): nat
    requires BreadthOrder(a, log) && j < |log|
  {
    if j == 0 then 0 else Depth(a, log, Parent(a, log, j)) + 1
  }

  /** A node's parent is the first node it is a successor of. */
  lemma {:induction false} ParentFirst(a: Adj, log: seq<nat>, j: nat, k: nat)
    requires BreadthOrder(a, log) && Distinct(log) && 0 < j < |log| && k < |log| && Edge(a, log[k], log[j])
    ensures Parent(a, log, j) <= k
  {
    LaterNotBefore(log, j, j);
    assert !ExhaustedAt(a, log, j, k);
  }

  lemma {:induction false} ParentMonotone(a: Adj, log: seq<nat>, i: nat, j: nat)
    requires BreadthOrder(a, log) && Distinct(log) && 0 < i < j < |log|
    ensures Parent(a, log, i) <= Parent(a, log, j)
  {
    LaterNotBefore(log, i, j);
    assert !ExhaustedAt(a, log, i, Parent(a, log, j));
  }

  lemma {:induction false} DepthMonotone(a: Adj, log: seq<nat>, i: nat, j: nat)
    requires BreadthOrder(a, log) && Distinct(log) && i <= j < |log|
    ensures Depth(a, log, i) <= Depth(a, log, j)
    decreases j
  {
    if 0 < i < j {
      ParentMonotone(a, log, i, j);
      DepthMonotone(a, log, Parent(a, log, i), Parent(a, log, j));
    }
  }

  /** A path of that many edges leads to the node. */
  lemma {:induction false} DepthReached(a: Adj, log: seq<nat>, j: nat) returns (p: seq<nat>)
    requires BreadthOrder(a, log) && j < |log|
    ensures Leads(a, p, log[0], log[j]) && |p| == Depth(a, log, j) + 1
  {
    if j == 0 {
      p := [log[0]];
    } else {
      var i := Parent(a, log, j);
      var q := DepthReached(a, log, i);
      p := q + [log[j]];
      assert forall k :: 0 <= k < |q| ==> p[k] == q[k];
    }
  }

  /** No path is shorter. */
  lemma {:induction false} DepthLeast(a: Adj, log: seq<nat>, p: seq<nat>, n: nat) returns (j: nat)
    requires BreadthOrder(a, log) && Complete(a, log) && Path(a, p) && n < |p| && |log| > 0 && p[0] == log[0]
    ensures j < |log| && log[j] == p[n] && Depth(a, log, j) <= n
  {
    if n == 0 {
      j := 0;
    } else {
      var k := DepthLeast(a, log, p, n - 1);
      assert Edge(a, p[n - 1], p[n]) && ExhaustedAt(a, log, |log|, k);
      j :| 0 <= j < |log| && log[j] == p[n];
      if j > 0 {
        ParentFirst(a, log, j, k);
        DepthMonotone(a, log, Parent(a, log, j), k);
      }
    }
  }

  /** `d` is the length of a shortest path from `u` to `v`. */
  ghost predicate IsDistance(a: Adj, u: nat, v: nat, d: nat) {
    && (exists p :: Leads(a, p, u, v) && |p| == d + 1)
    && forall p :: Leads(a, p, u, v) ==> |p| >= d + 1
  }

  /** Depths are distances from the start, and they do not fall along the list. */
  lemma {:induction false} BreadthDistances(a: Adj, log: seq<nat>, j: nat)
    requires BreadthOrder(a, log) && Complete(a, log) && j < |log|
    ensures IsDistance(a, log[0], log[j], Depth(a, log, j))
    ensures forall i: nat :: i <= j ==> Depth(a, log, i) <= Depth(a, log, j)
  {
    var q := DepthReached(a, log, j);
    forall p | Leads(a, p, log[0], log[j])
      ensures |p| >= Depth(a, log, j) + 1
    {
      var k := DepthLeast(a, log, p, |p| - 1);
      assert k == j;
    }
    forall i: nat | i <= j
      ensures Depth(a, log, i) <= Depth(a, log, j)
    {
      DepthMonotone(a, log, i, j);
    }
  }

  /** Nodes are listed by nondecreasing distance from the first. */
  ghost predicate ByDistance(a: Adj, log: seq<nat>) {
    forall i: nat, j: nat, d: nat, e: nat :: i <= j < |log| && IsDistance(a, log[0], log[i], d) && IsDistance(a, log[0], log[j], e) ==> d <= e
  }

  lemma {:induction false} DistanceUnique(a: Adj, u: nat, v: nat, d: nat, e: nat)
    requires IsDistance(a, u, v, d) && IsDistance(a, u, v, e)
    ensures d == e
  {
  }

  lemma {:induction false} BreadthByDistance(a: Adj, log: seq<nat>)
    requires BreadthOrder(a, log) && Complete(a, log)
    ensures ByDistance(a, log)
  {
    forall i: nat, j: nat, d: nat, e: nat | i <= j < |log| && IsDistance(a, log[0], log[i], d) && IsDistance(a, log[0], log[j], e)
      ensures d <= e
    {
      BreadthDistances(a, log, i);
      BreadthDistances(a, log, j);
      DistanceUnique(a, log[0], log[i], d, Depth(a, log, i));
      DistanceUnique(a, log[0], log[j], e, Depth(a, log, j));
    }
  }
}
