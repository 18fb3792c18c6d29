/**
 Traversals of the WIL graph through input slots: depth-first in preorder and
 postorder, reverse postorder, and breadth-first. The calls to the visitor are
 modelled by the list of nodes it is given.
 */
module Traversal {
  import opened Wrappers
  import opened Listing
  import opened Terms
  import opened WilGraph
  import opened Unfolding
  import opened Dfs
  import opened SearchOrder
  import opened FinishOrder
  import opened DepthFirst

  /** The input slots as a graph; null inputs lead nowhere. */
  function Inputs(g: Nodes): (a: Adj)
    requires InRange(g)
    ensures |a| == |g| && InAdj(a) && forall u :: 0 <= u < |g| ==> a[u] == g[u].inputs
  {
    seq(|g|, u requires 0 <= u < |g| => g[u].inputs)
  }

  /** The recursive visit. `pre` lists the nodes in the order they are entered,
      `post` in the order they are left; the visitor sees one or the other. */
  method VisitDepthFirst(a: Adj, u: nat, visited: array<bool>, log: seq<nat>, postorder: bool, ghost pre: seq<nat>, ghost post: seq<nat>)
    returns (log': seq<nat>, ghost pre': seq<nat>, ghost post': seq<nat>)
    requires InAdj(a) && u < |a| && visited.Length == |a|
    requires DfsInv(a, visited[..], post) && GraysReach(a, visited[..], post, u)
    requires Entered(a, visited[..], pre, post) && MayCome(a, pre, u)
    requires log == if postorder then post else pre
    modifies visited
    ensures DfsInv(a, visited[..], post') && Grown(a, u, old(visited[..]), post, visited[..], post')
    ensures Entered(a, visited[..], pre', post') && Visited(a, u, old(visited[u]), pre, pre')
    ensures log' == (if postorder then post' else pre') && visited[u]
    decreases Unseen(visited[..]), 1
  {
    ghost var s0 := visited[..];
    log', pre', post' := log, pre, post;
    if visited[u] {
      GrownSelf(a, u, s0, post);
      return;
    }
    FollowStart(a, u, s0, pre, post);
    visited[u] := true;
    assert visited[..] == s0[u := true];
    if !postorder {
      log' := log' + [u];
    }
    pre' := pre + [u];
    var k := 0;
    while k < |a[u]|
      invariant 0 <= k <= |a[u]|
      invariant Followed(a, u, s0, pre, post, visited[..], pre', post', k)
      invariant log' == if postorder then post' else pre'
    {
      log', pre', post' := FollowSlot(a, u, k, visited, log', postorder, s0, pre, post, pre', post');
      k := k + 1;
    }
    FollowDone(a, u, s0, pre, post, visited[..], pre', post');
    post' := post' + [u];
    if postorder {
      log' := log' + [u];
    }
  }

  /** One turn of the loop: visits the node that slot `k` of `u` names, if any. */
  method FollowSlot(a: Adj, u: nat, k: nat, visited: array<bool>, log: seq<nat>, postorder: bool,
                    ghost s0: seq<bool>, ghost pre: seq<nat>, ghost post: seq<nat>, ghost e: seq<nat>, ghost p: seq<nat>)
    returns (log': seq<nat>, ghost e': seq<nat>, ghost p': seq<nat>)
    requires InAdj(a) && u < |a| == |s0| && !s0[u] && visited.Length == |a| && k < |a[u]|
    requires Followed(a, u, s0, pre, post, visited[..], e, p, k)
    requires log == if postorder then p else e
    modifies visited
    ensures Followed(a, u, s0, pre, post, visited[..], e', p', k + 1)
    ensures log' == if postorder then p' else e'
    decreases Unseen(s0), 0
  {
    log', e', p' := log, e, p;
    ghost var s := visited[..];
    if a[u][k].Some? {
      FollowMay(a, u, k, a[u][k].value, s0, pre, post, s, e, p);
      log', e', p' := VisitDepthFirst(a, a[u][k].value, visited, log, postorder, e, p);
      FollowNext(a, u, k, a[u][k].value, s[a[u][k].value], s0, pre, post, s, e, p, visited[..], e', p');
    } else {
      FollowSkip(a, u, k, s0, pre, post, s, e, p);
    }
  }

  // ----- What a whole traversal visits -----

  /** Exactly the nodes `start` reaches, each once. */
  ghost predicate VisitsReachable(g: Nodes, start: nat, log: seq<nat>)
    requires InRange(g)
  {
    Distinct(log) && forall x: nat :: x in log <==> x < |g| && Reaches(Inputs(g), start, x)
  }

  lemma {:induction false} ReachableSeen(g: Nodes, start: nat, seen: seq<bool>, post: seq<nat>)
    requires InRange(g) && start < |g| == |seen| && DfsInv(Inputs(g), seen, post) && seen[start]
    requires Grown(Inputs(g), start, seq(|g|, _ => false), [], seen, post)
    ensures forall x: nat :: (x < |g| && seen[x]) <==> (x < |g| && Reaches(Inputs(g), start, x))
    ensures VisitsReachable(g, start, post)
  {
    var a := Inputs(g);
    assert NoGrays(seen, post);
    forall x: nat | x < |g|
      ensures seen[x] <==> Reaches(a, start, x)
    {
      if Reaches(a, start, x) {
        SeenReaches(a, seen, post, start, x);
      }
    }
    assert forall x: nat :: x in post ==> x < |g| && seen[x];
  }

  lemma {:induction false} LogVisits(g: Nodes, start: nat, seen: seq<bool>, log: seq<nat>)
    requires InRange(g) && |seen| == |g| && Distinct(log) && Listed(seen, log)
    requires forall x: nat :: (x < |g| && seen[x]) <==> (x < |g| && Reaches(Inputs(g), start, x))
    ensures VisitsReachable(g, start, log)
  {
    forall x: nat
      ensures x in log <==> x < |g| && Reaches(Inputs(g), start, x)
    {
      assert InLog(log, x) <==> x < |seen| && seen[x];
    }
  }

  /** The nodes entered, in the order that `PreorderUnique` says there is one of. */
  lemma {:induction false} EnteredFrom(g: Nodes, start: nat, seen: seq<bool>, pre: seq<nat>, post: seq<nat>)
    requires InRange(g) && start < |g| == |seen| && DfsInv(Inputs(g), seen, post) && NoGrays(seen, post)
    requires Entered(Inputs(g), seen, pre, post) && |pre| > 0 && pre[0] == start && VisitsReachable(g, start, pre)
    ensures SearchFrom(Inputs(g), start, pre, post)
  {
    var a := Inputs(g);
    forall j: nat | j < |pre|
      ensures Reaches(a, pre[0], pre[j])
    {
      assert pre[j] in pre;
    }
    RootedForest(a, pre);
    AllExhausted(a, seen, pre, post);
    EnteredFinishes(a, seen, pre, post);
  }

  method Search(g: Nodes, start: nat, postorder: bool) returns (log: seq<nat>)
    requires InRange(g) && start < |g|
    ensures VisitsReachable(g, start, log) && |log| <= |g|
    ensures postorder ==> Ordered(Inputs(g), log) && Postorder(Inputs(g), start, log)
    ensures !postorder ==> |log| > 0 && log[0] == start && Preorder(Inputs(g), log) && Complete(Inputs(g), log)
  {
    var visited := new bool[|g|](_ => false);
    assert visited[..] == seq(|g|, _ => false);
    NothingEntered(Inputs(g), visited[..], start);
    ghost var pre, post;
    log, pre, post := VisitDepthFirst(Inputs(g), start, visited, [], postorder, [], []);
    SearchEnds(g, start, visited[..], pre, post);
    assert forall i :: 0 <= i < |log| ==> log[i] in log;
    DistinctFits(log, |g|);
  }

  lemma {:induction false} SearchEnds(g: Nodes, start: nat, seen: seq<bool>, pre: seq<nat>, post: seq<nat>)
    requires InRange(g) && start < |g| == |seen| && DfsInv(Inputs(g), seen, post) && seen[start]
    requires Grown(Inputs(g), start, seq(|g|, _ => false), [], seen, post)
    requires Entered(Inputs(g), seen, pre, post) && Visited(Inputs(g), start, false, [], pre)
    ensures VisitsReachable(g, start, pre) && VisitsReachable(g, start, post)
    ensures SearchFrom(Inputs(g), start, pre, post) && Postorder(Inputs(g), start, post)
  {
    ReachableSeen(g, start, seen, post);
    LogVisits(g, start, seen, pre);
    assert ([] + [start])[0] == start;
    EnteredFrom(g, start, seen, pre, post);
  }

  /** A null start visits nothing. Otherwise the visitor sees the reachable nodes
      in preorder, which `PreorderUnique` says there is one of. */
  method TraverseDfs(g: Nodes, start: Option<nat>) returns (log: seq<nat>)
    requires InRange(g) && (start.Some? ==> start.value < |g|)
    ensures start.None? ==> log == []
    ensures start.Some? ==> VisitsReachable(g, start.value, log)
    ensures start.Some? ==> |log| > 0 && log[0] == start.value && Preorder(Inputs(g), log) && Complete(Inputs(g), log)
  {
    if start.None? {
      return [];
    }
    log := Search(g, start.value, false);
  }

  /** Acyclic graphs: what reaches a node is at least as heavy. */
  lemma {:induction false} PathLighter(g: Nodes, terms: seq<Term>, p: seq<nat>, i: nat)
    requires InRange(g) && Labelled(g, terms) && Path(Inputs(g), p) && i < |p| && p[0] < |g|
    ensures p[i] < |g| && Weight(terms[p[i]]) <= Weight(terms[p[0]])
  {
    if i > 0 {
      PathLighter(g, terms, p, i - 1);
      assert Edge(Inputs(g), p[i - 1], p[i]);
      EdgeLighter(g, terms, p[i - 1], p[i]);
    }
  }

  lemma {:induction false} EdgeLighter(g: Nodes, terms: seq<Term>, u: nat, v: nat)
    requires InRange(g) && Labelled(g, terms) && u < |g| && Edge(Inputs(g), u, v)
    ensures v < |g| && Weight(terms[v]) < Weight(terms[u])
  {
    var k :| 0 <= k < |g[u].inputs| && g[u].inputs[k] == Some(v);
    assert LabelAt(g, terms, u);
    ArgLighter(terms[u], k);
  }

  lemma {:induction false} NoWayBack(g: Nodes, terms: seq<Term>, u: nat, v: nat)
    requires InRange(g) && Labelled(g, terms) && u < |g| && Edge(Inputs(g), u, v)
    ensures !Reaches(Inputs(g), v, u)
  {
    EdgeLighter(g, terms, u, v);
    forall p | Leads(Inputs(g), p, v, u)
      ensures false
    {
      PathLighter(g, terms, p, |p| - 1);
    }
  }

  /** Every input comes before its user. */
  ghost predicate InputsFirst(g: Nodes, log: seq<nat>) {
    forall i: nat, v: nat :: i < |log| && log[i] < |g| && Some(v) in g[log[i]].inputs ==> Before(log, i, v)
  }

  lemma {:induction false} OrderedInputsFirst(g: Nodes, terms: seq<Term>, log: seq<nat>)
    requires InRange(g) && Labelled(g, terms) && Ordered(Inputs(g), log)
    ensures InputsFirst(g, log)
  {
    var a := Inputs(g);
    forall i: nat, v: nat | i < |log| && log[i] < |g| && Some(v) in g[log[i]].inputs
      ensures Before(log, i, v)
    {
      assert OrderedAt(a, log, i) && Edge(a, log[i], v);
      NoWayBack(g, terms, log[i], v);
    }
  }

  /** The visitor sees the nodes in postorder, which `PostorderUnique` says there
      is one of; on acyclic graphs that has every input before its user. */
  method TraversePostorder(g: Nodes, start: Option<nat>, ghost terms: seq<Term>) returns (log: seq<nat>)
    requires InRange(g) && (start.Some? ==> start.value < |g|)
    ensures start.None? ==> log == []
    ensures start.Some? ==> VisitsReachable(g, start.value, log) && Ordered(Inputs(g), log) && Postorder(Inputs(g), start.value, log)
    ensures Labelled(g, terms) ==> InputsFirst(g, log)
  {
    if start.None? {
      return [];
    }
    log := Search(g, start.value, true);
    if Labelled(g, terms) {
      OrderedInputsFirst(g, terms, log);
    }
  }

  /** Every user comes before its inputs. */
  ghost predicate UsersFirst(g: Nodes, log: seq<nat>) {
    forall i: nat, j: nat :: i < |log| && j < |log| && log[i] < |g| && Some(log[j]) in g[log[i]].inputs ==> i < j
  }

  /** Reverse postorder replays the collected nodes backwards. */
  method TraverseRpo(g: Nodes, start: Option<nat>, ghost terms: seq<Term>) returns (log: seq<nat>)
    requires InRange(g) && (start.Some? ==> start.value < |g|)
    ensures start.None? ==> log == []
    ensures start.Some? ==> VisitsReachable(g, start.value, log) && Postorder(Inputs(g), start.value, Reversed(log))
    ensures Labelled(g, terms) ==> UsersFirst(g, log)
  {
    log := [];
    if start.None? {
      return;
    }
    var nodes := TraversePostorder(g, start, terms);
    var index := |nodes|;
    while index > 0
      invariant 0 <= index <= |nodes| && |log| == |nodes| - index
      invariant forall i :: 0 <= i < |log| ==> log[i] == nodes[|nodes| - 1 - i]
    {
      index := index - 1;
      log := log + [nodes[index]];
    }
    ReverseVisits(g, start.value, nodes, log);
    assert Reversed(log) == nodes;
    if Labelled(g, terms) {
      ReverseUsers(g, nodes, log);
    }
  }

  lemma {:induction false} ReverseVisits(g: Nodes, start: nat, nodes: seq<nat>, log: seq<nat>)
    requires InRange(g) && VisitsReachable(g, start, nodes) && |log| == |nodes|
    requires forall i :: 0 <= i < |log| ==> log[i] == nodes[|nodes| - 1 - i]
    ensures VisitsReachable(g, start, log)
  {
    forall x: nat
      ensures x in log <==> x in nodes
    {
      if x in nodes {
        var i :| 0 <= i < |nodes| && nodes[i] == x;
        assert log[|nodes| - 1 - i] == x;
      }
    }
    forall i, j | 0 <= i < j < |log|
      ensures log[i] != log[j]
    {
      assert nodes[|nodes| - 1 - j] != nodes[|nodes| - 1 - i];
    }
  }

  lemma {:induction false} ReverseUsers(g: Nodes, nodes: seq<nat>, log: seq<nat>)
    requires Distinct(nodes) && InputsFirst(g, nodes) && |log| == |nodes|
    requires forall i :: 0 <= i < |log| ==> log[i] == nodes[|nodes| - 1 - i]
    ensures UsersFirst(g, log)
  {
    forall i: nat, j: nat | i < |log| && j < |log| && log[i] < |g| && Some(log[j]) in g[log[i]].inputs
      ensures i < j
    {
      assert Before(nodes, |nodes| - 1 - i, log[j]);
      var k :| 0 <= k < |nodes| - 1 - i && nodes[k] == log[j];
      assert k == |nodes| - 1 - j;
    }
  }

  // ----- Breadth first -----

  /** The queue holds each marked node once, all of them reachable, in
      breadth-first order; the inputs of the nodes before `head` are marked. */
  ghost predicate BfsInv(a: Adj, start: nat, seen: seq<bool>, queue: seq<nat>, head: nat) {
    && |seen| == |a| && head <= |queue| && Distinct(queue) && Listed(seen, queue)
    && |queue| > 0 && queue[0] == start && BreadthOrder(a, queue)
    && (forall i :: 0 <= i < |queue| ==> queue[i] < |a| && Reaches(a, start, queue[i]))
    && forall i :: 0 <= i < head ==> Explored(a, seen, queue[i])
  }

  lemma {:induction false} NextInQueue(a: Adj, start: nat, seen: seq<bool>, queue: seq<nat>, head: nat, k: nat)
    requires BfsInv(a, start, seen, queue, head) && head < |queue| && SlotsSeen(a, seen, queue[head], k)
    requires k < |a[queue[head]]| && a[queue[head]][k].Some?
    ensures NextAcross(a, queue, |queue|, a[queue[head]][k].value, head, k)
  {
    SeenSlotsBefore(a, seen, queue, queue[head], k);
    forall q: nat | q < head
      ensures ExhaustedAt(a, queue, |queue|, q)
    {
      ExploredBefore(a, seen, queue, queue[q]);
    }
  }

  lemma {:induction false} Enqueue(a: Adj, start: nat, seen: seq<bool>, queue: seq<nat>, head: nat, k: nat, v: nat)
    requires BfsInv(a, start, seen, queue, head) && head < |queue| && SlotsSeen(a, seen, queue[head], k)
    requires k < |a[queue[head]]| && a[queue[head]][k] == Some(v) && v < |a| && !seen[v]
    ensures BfsInv(a, start, seen[v := true], queue + [v], head)
  {
    var seen', queue' := seen[v := true], queue + [v];
    ListedMore(seen, queue, v);
    NextInQueue(a, start, seen, queue, head, k);
    BreadthMore(a, queue, v, head, k);
    assert Edge(a, queue[head], v);
    ReachesStep(a, start, queue[head], v);
    forall j | 0 <= j < head
      ensures Explored(a, seen', queue'[j])
    {
      assert Explored(a, seen, queue[j]);
    }
  }

  /** Marks and queues the unmarked inputs of the node at the head. */
  method EnqueueInputs(a: Adj, ghost start: nat, u: nat, visited: array<bool>, queue: array<nat>, tail: nat, ghost head: nat)
    returns (tail': nat)
    requires InAdj(a) && u < |a| && visited.Length == |a| && queue.Length == |a| + 1 && head < tail <= |a|
    requires BfsInv(a, start, visited[..], queue[..tail], head) && queue[head] == u
    modifies visited, queue
    ensures tail <= tail' <= |a| && BfsInv(a, start, visited[..], queue[..tail'], head) && SlotsSeen(a, visited[..], u, |a[u]|)
    ensures forall i :: 0 <= i < tail ==> queue[i] == old(queue[i])
  {
    tail' := tail;
    var k := 0;
    while k < |a[u]|
      invariant 0 <= k <= |a[u]| && tail <= tail' <= |a|
      invariant BfsInv(a, start, visited[..], queue[..tail'], head)
      invariant SlotsSeen(a, visited[..], u, k)
      invariant forall i :: 0 <= i < tail ==> queue[i] == old(queue[i])
    {
      var input := a[u][k];
      if input.Some? && !visited[input.value] {
        ghost var s, q := visited[..], queue[..tail'];
        assert q[head] == u;
        Enqueue(a, start, s, q, head, k, input.value);
        visited[input.value] := true;
        queue[tail'] := input.value;
        tail' := tail' + 1;
        assert visited[..] == s[input.value := true] && queue[..tail'] == q + [input.value];
        DistinctFits(queue[..tail'], |a|);
      }
      k := k + 1;
    }
  }

  lemma {:induction false} Dequeue(a: Adj, start: nat, seen: seq<bool>, queue: seq<nat>, head: nat)
    requires BfsInv(a, start, seen, queue, head) && head < |queue| && SlotsSeen(a, seen, queue[head], |a[queue[head]]|)
    ensures BfsInv(a, start, seen, queue, head + 1)
  {
    AllSlotsSeen(a, seen, queue[head]);
  }

  lemma {:induction false} BfsClosed(a: Adj, start: nat, seen: seq<bool>, queue: seq<nat>, p: seq<nat>, i: nat)
    requires BfsInv(a, start, seen, queue, |queue|) && Path(a, p) && p[0] == start && i < |p|
    ensures InLog(queue, p[i])
  {
    if i > 0 {
      BfsClosed(a, start, seen, queue, p, i - 1);
      var j :| 0 <= j < |queue| && queue[j] == p[i - 1];
      assert Explored(a, seen, queue[j]) && Edge(a, p[i - 1], p[i]);
      assert InLog(queue, p[i]) <==> p[i] < |seen| && seen[p[i]];
    }
  }

  lemma {:induction false} BfsDone(g: Nodes, start: nat, seen: seq<bool>, queue: seq<nat>)
    requires InRange(g) && BfsInv(Inputs(g), start, seen, queue, |queue|)
    ensures VisitsReachable(g, start, queue) && Complete(Inputs(g), queue)
  {
    var a := Inputs(g);
    forall x: nat
      ensures x in queue <==> x < |g| && Reaches(a, start, x)
    {
      if x < |g| && Reaches(a, start, x) {
        var p :| Leads(a, p, start, x);
        BfsClosed(a, start, seen, queue, p, |p| - 1);
      }
    }
    forall q: nat | q < |queue|
      ensures ExhaustedAt(a, queue, |queue|, q)
    {
      ExploredBefore(a, seen, queue, queue[q]);
    }
  }

  lemma {:induction false} BfsStart(a: Adj, start: nat, seen: seq<bool>)
    requires start < |a| == |seen| && forall x :: 0 <= x < |seen| ==> (seen[x] <==> x == start)
    ensures BfsInv(a, start, seen, [start], 0)
  {
    ReachesSelf(a, start);
    forall x: nat
      ensures InLog([start], x) <==> x < |seen| && seen[x]
    {
    }
  }

  /** Breadth-first visits the same nodes, each once, by nondecreasing distance
      from the start; its queue never outgrows its buffer. */
  method TraverseBfs(g: Nodes, start: Option<nat>) returns (log: seq<nat>)
    requires InRange(g) && (start.Some? ==> start.value < |g|)
    ensures start.None? ==> log == []
    ensures start.Some? ==> VisitsReachable(g, start.value, log)
    ensures start.Some? ==> |log| > 0 && log[0] == start.value && BreadthOrder(Inputs(g), log) && Complete(Inputs(g), log)
    ensures start.Some? ==> ByDistance(Inputs(g), log)
  {
    log := [];
    if start.None? {
      return;
    }
    var a, first := Inputs(g), start.value;
    var queue := new nat[|g| + 1](_ => 0);
    var visited := new bool[|g|](_ => false);
    var head, tail := 0, 1;
    queue[0] := first;
    visited[first] := true;
    assert queue[..1] == [first];
    BfsStart(a, first, visited[..]);
    while head < tail
      invariant 0 <= head <= tail <= |g| && log == queue[..head]
      invariant BfsInv(a, first, visited[..], queue[..tail], head)
      decreases |g| - head
    {
      var node := queue[head];
      assert queue[..tail][head] == node;
      log := log + [node];
      tail := EnqueueInputs(a, first, node, visited, queue, tail, head);
      assert queue[..tail][head] == node;
      Dequeue(a, first, visited[..], queue[..tail], head);
      head := head + 1;
    }
    BfsDone(g, first, visited[..], queue[..tail]);
    BreadthByDistance(a, log);
  }
}
