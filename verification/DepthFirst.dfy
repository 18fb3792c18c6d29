/**
 A depth-first search in progress: the lists of nodes entered and finished, what
 following the slots of a node keeps, and that both lists are determined by the
 graph and the first node.
 */
module DepthFirst {
  import opened Wrappers
  import opened Listing
  import opened Dfs
  import opened SearchOrder
  import opened FinishOrder

  // ----- The order of entering -----

  /** Nothing entered so far has a new successor, and `v` is the least node that
      has not been entered. */
  ghost predicate NextRoot(a: Adj, log: seq<nat>, n: nat, v: nat) {
    Exhausted(a, log, n, 0, n) && forall x: nat :: x < v ==> Before(log, n, x)
  }

  ghost predicate ForestAt(a: Adj, log: seq<nat>, j: nat)
    requires j < |log|
  {
    PreorderAt(a, log, j) || NextRoot(a, log, j, log[j])
  }

  /** A search that starts again from the least node left. */
  ghost predicate Forest(a: Adj, log: seq<nat>) {
    forall j: nat :: 0 < j < |log| ==> ForestAt(a, log, j)
  }

  ghost predicate MayCome(a: Adj, log: seq<nat>, v: nat) {
    MayEnter(a, log, v) || NextRoot(a, log, |log|, v)
  }

  lemma {:induction false} DownKept(a: Adj, log: seq<nat>, log': seq<nat>, n: nat, v: nat, i: nat, s: nat)
    requires Prefix(log, log') && n <= |log| && NextDown(a, log, n, v, i, s)
    ensures NextDown(a, log', n, v, i, s)
  {
    SlotsKept(a, log, log', n, log[i], s);
    ExhaustedKept(a, log, log', n, i + 1, n);
  }

  lemma {:induction false} RootKept(a: Adj, log: seq<nat>, log': seq<nat>, n: nat, v: nat)
    requires Prefix(log, log') && n <= |log| && NextRoot(a, log, n, v)
    ensures NextRoot(a, log', n, v)
  {
    ExhaustedKept(a, log, log', n, 0, n);
    forall x: nat | x < v
      ensures Before(log', n, x)
    {
      BeforeKept(log, log', n, x);
    }
  }

  lemma {:induction false} ForestMore(a: Adj, log: seq<nat>, v: nat)
    requires Forest(a, log) && MayCome(a, log, v)
    ensures Forest(a, log + [v])
  {
    var log' := log + [v];
    forall j: nat | 0 < j < |log'|
      ensures ForestAt(a, log', j)
    {
      if j < |log| {
        assert ForestAt(a, log, j);
      }
      if i: nat, s: nat :| NextDown(a, log, j, log'[j], i, s) {
        DownKept(a, log, log', j, log'[j], i, s);
        assert PreorderAt(a, log', j);
      } else {
        RootKept(a, log, log', j, log'[j]);
      }
    }
  }

  /** Nodes that the first one reaches are not entered from a new root. */
  lemma {:induction false} RootedForest(a: Adj, log: seq<nat>)
    requires Forest(a, log) && Distinct(log) && forall j: nat :: j < |log| ==> Reaches(a, log[0], log[j])
    ensures Preorder(a, log)
  {
    forall j: nat | 0 < j < |log|
      ensures PreorderAt(a, log, j)
    {
      assert ForestAt(a, log, j) && Reaches(a, log[0], log[j]);
      var q :| Leads(a, q, log[0], log[j]);
      assert WhitePath(a, log, 0, q, log[j]);
      if NextRoot(a, log, j, log[j]) {
        NotWhite(a, log, 0, j, log[j]);
      }
    }
  }

  // ----- Each list fixes the next node -----

  lemma {:induction false} ForestStep(a: Adj, log: seq<nat>, log': seq<nat>, n: nat)
    requires Forest(a, log) && Forest(a, log') && Distinct(log) && Distinct(log')
    requires Agree(log, log', n) && 0 < n < |log| && n < |log'|
    ensures Agree(log, log', n + 1)
  {
    assert ForestAt(a, log, n) && ForestAt(a, log', n);
    if PreorderAt(a, log, n) {
      var i: nat, s: nat :| NextDown(a, log, n, log[n], i, s);
      if PreorderAt(a, log', n) {
        var i': nat, s': nat :| NextDown(a, log', n, log'[n], i', s');
        NotParent(a, log, log', n, i, s, i' + 1, n);
        NotParent(a, log', log, n, i', s', i + 1, n);
        SameSlot(a, log, log', n, i, s, s');
      } else {
        NotParent(a, log, log', n, i, s, 0, n);
      }
    } else if PreorderAt(a, log', n) {
      var i: nat, s: nat :| NextDown(a, log', n, log'[n], i, s);
      NotParent(a, log', log, n, i, s, 0, n);
    } else {
      SameRoot(a, log, log', n);
    }
  }

  lemma {:induction false} SameRoot(a: Adj, log: seq<nat>, log': seq<nat>, n: nat)
    requires Distinct(log) && Distinct(log') && Agree(log, log', n) && n < |log| && n < |log'|
    requires NextRoot(a, log, n, log[n]) && NextRoot(a, log', n, log'[n])
    ensures log[n] == log'[n]
  {
    if log[n] < log'[n] {
      NotBefore(log', log, n, log[n]);
    } else if log'[n] < log[n] {
      NotBefore(log, log', n, log'[n]);
    }
  }

  lemma {:induction false} ForestAgrees(a: Adj, log: seq<nat>, log': seq<nat>, n: nat)
    requires Forest(a, log) && Forest(a, log') && Distinct(log) && Distinct(log')
    requires 0 < n <= |log| == |log'| && log[0] == log'[0]
    ensures Agree(log, log', n)
  {
    if n > 1 {
      ForestAgrees(a, log, log', n - 1);
      ForestStep(a, log, log', n - 1);
    }
  }

  /** There is one entering order of all nodes from a given first node. */
  lemma {:induction false} ForestUnique(a: Adj, log: seq<nat>, log': seq<nat>)
    requires Forest(a, log) && Forest(a, log') && Distinct(log) && Distinct(log') && |log| == |log'|
    requires |log| > 0 ==> log[0] == log'[0]
    ensures log == log'
  {
    if |log| > 0 {
      ForestAgrees(a, log, log', |log|);
    }
  }

  // ----- A search in progress -----

  /** The nodes entered and finished so far, in depth-first order. */
  ghost predicate Entered(a: Adj, seen: seq<bool>, pre: seq<nat>, post: seq<nat>) {
    Distinct(pre) && Listed(seen, pre) && Forest(a, pre) && FinishInv(a, pre, post)
  }

  lemma {:induction false} EnterNext(a: Adj, seen: seq<bool>, pre: seq<nat>, post: seq<nat>, u: nat)
    requires Entered(a, seen, pre, post) && MayCome(a, pre, u) && u < |seen| && !seen[u]
    ensures Entered(a, seen[u := true], pre + [u], post)
  {
    assert !InLog(pre, u);
    ListedMore(seen, pre, u);
    ForestMore(a, pre, u);
    FinishEnter(a, pre, post, u);
  }

  /** While the slots of the node at position `at` are followed, everything entered
      after that node is exhausted and was within white reach. */
  ghost predicate Following(a: Adj, pre: seq<nat>, at: nat, u: nat) {
    at < |pre| && pre[at] == u && Exhausted(a, pre, |pre|, at + 1, |pre|) && AllWhite(a, pre, at)
  }

  lemma {:induction false} MayFollow(a: Adj, seen: seq<bool>, pre: seq<nat>, at: nat, u: nat, k: nat)
    requires Listed(seen, pre) && Following(a, pre, at, u) && SlotsSeen(a, seen, u, k)
    requires k < |a[u]| && a[u][k].Some?
    ensures MayCome(a, pre, a[u][k].value)
  {
    SeenSlotsBefore(a, seen, pre, u, k);
    assert NextDown(a, pre, |pre|, a[u][k].value, at, k);
  }

  /** What a visit of `u` does to the list of entered nodes. */
  ghost predicate Visited(a: Adj, u: nat, known: bool, pre: seq<nat>, pre': seq<nat>) {
    if known then pre' == pre
    else Prefix(pre + [u], pre') && Exhausted(a, pre', |pre'|, |pre|, |pre'|) && AllWhite(a, pre', |pre|)
  }

  lemma {:induction false} FollowingStill(a: Adj, pre: seq<nat>, at: nat, u: nat, v: nat, known: bool, pre': seq<nat>)
    requires Following(a, pre, at, u) && Edge(a, u, v) && Visited(a, v, known, pre, pre') && Distinct(pre')
    ensures Following(a, pre', at, u)
  {
    if !known {
      var longer := pre + [v];
      assert forall i :: 0 <= i < |pre| ==> pre'[i] == longer[i] == pre[i];
      assert pre'[|pre|] == longer[|pre|] == v;
      ExhaustedLater(a, pre, pre', at + 1, |pre|);
      WhiteNested(a, pre, pre', at);
    }
  }

  /** What has been done when the first `k` slots of `u`, entered after `pre`, have been followed. */
  ghost predicate Followed(a: Adj, u: nat, s0: seq<bool>, pre: seq<nat>, post: seq<nat>, s: seq<bool>, pre': seq<nat>, post': seq<nat>, k: nat) {
    && u < |s0| && Listed(s0, pre) && Visiting(a, u, s0[u := true], post, s, post', k)
    && Entered(a, s, pre', post') && Following(a, pre', |pre|, u) && Prefix(pre + [u], pre')
  }

  lemma {:induction false} FollowStart(a: Adj, u: nat, s0: seq<bool>, pre: seq<nat>, post: seq<nat>)
    requires u < |a| == |s0| && !s0[u] && DfsInv(a, s0, post) && GraysReach(a, s0, post, u)
    requires Entered(a, s0, pre, post) && MayCome(a, pre, u)
    ensures Followed(a, u, s0, pre, post, s0[u := true], pre + [u], post, 0)
  {
    VisitStart(a, u, s0, post);
    EnterNext(a, s0, pre, post, u);
  }

  lemma {:induction false} FollowMay(a: Adj, u: nat, k: nat, v: nat, s0: seq<bool>, pre: seq<nat>, post: seq<nat>, s: seq<bool>, e: seq<nat>, p: seq<nat>)
    requires u < |a| == |s0| && !s0[u] && Followed(a, u, s0, pre, post, s, e, p, k) && k < |a[u]| && a[u][k] == Some(v)
    ensures DfsInv(a, s, p) && GraysReach(a, s, p, v) && Entered(a, s, e, p) && MayCome(a, e, v)
    ensures Unseen(s) < Unseen(s0)
  {
    MayVisit(a, u, k, v, s0, post, s, p);
    MayFollow(a, s, e, |pre|, u, k);
  }

  lemma {:induction false} FollowSkip(a: Adj, u: nat, k: nat, s0: seq<bool>, pre: seq<nat>, post: seq<nat>, s: seq<bool>, e: seq<nat>, p: seq<nat>)
    requires Followed(a, u, s0, pre, post, s, e, p, k) && k < |a[u]| && a[u][k].None?
    ensures Followed(a, u, s0, pre, post, s, e, p, k + 1)
  {
  }

  lemma {:induction false} FollowNext(a: Adj, u: nat, k: nat, v: nat, known: bool, s0: seq<bool>, pre: seq<nat>, post: seq<nat>, s: seq<bool>, e: seq<nat>, p: seq<nat>, s': seq<bool>, e': seq<nat>, p': seq<nat>)
    requires Followed(a, u, s0, pre, post, s, e, p, k) && k < |a[u]| && a[u][k] == Some(v)
    requires DfsInv(a, s', p') && Grown(a, v, s, p, s', p') && v < |s'| && s'[v]
    requires Entered(a, s', e', p') && Visited(a, v, known, e, e')
    ensures Followed(a, u, s0, pre, post, s', e', p', k + 1)
  {
    VisitNext(a, u, k, v, s0[u := true], post, s, p, s', p');
    assert Edge(a, u, v);
    FollowingStill(a, e, |pre|, u, v, known, e');
    PrefixOver(pre + [u], e, v, known, a, e');
  }

  lemma {:induction false} PrefixOver(first: seq<nat>, e: seq<nat>, v: nat, known: bool, a: Adj, e': seq<nat>)
    requires Prefix(first, e) && Visited(a, v, known, e, e')
    ensures Prefix(first, e')
  {
    if !known {
      var longer := e + [v];
      assert forall i :: 0 <= i < |e| ==> e'[i] == longer[i] == e[i];
    }
  }

  /** What was entered after `u` has been finished. */
  lemma {:induction false} LaterFinished(a: Adj, u: nat, s0: seq<bool>, pre: seq<nat>, post: seq<nat>, s: seq<bool>, e: seq<nat>, p: seq<nat>, k: nat, j: nat)
    requires Followed(a, u, s0, pre, post, s, e, p, k) && |pre| < j < |e| && |s0| == |s|
    ensures InLog(p, e[j])
  {
    var x := e[j];
    var first := pre + [u];
    assert InLog(e, x);
    assert !InLog(pre, x) && x != u by {
      assert forall i :: 0 <= i < |first| ==> e[i] == first[i] && e[i] != x;
      assert forall i :: 0 <= i < |pre| ==> first[i] == pre[i];
      assert first[|pre|] == u;
    }
    assert !s0[u := true][x];
  }

  lemma {:induction false} FollowDone(a: Adj, u: nat, s0: seq<bool>, pre: seq<nat>, post: seq<nat>, s: seq<bool>, e: seq<nat>, p: seq<nat>)
    requires u < |a| == |s0| && !s0[u] && DfsInv(a, s0, post) && Followed(a, u, s0, pre, post, s, e, p, |a[u]|)
    ensures DfsInv(a, s, p + [u]) && Grown(a, u, s0, post, s, p + [u]) && s[u]
    ensures Entered(a, s, e, p + [u]) && Visited(a, u, false, pre, e)
  {
    Finish(a, u, s0, post, s, p);
    ExploredBefore(a, s, e, u);
    assert Exhausted(a, e, |e|, |pre|, |e|) by {
      assert ExhaustedAt(a, e, |e|, |pre|);
    }
    assert !InLog(p, u) by {
      assert Distinct(p + [u]) && forall i :: 0 <= i < |p| ==> (p + [u])[i] == p[i];
    }
    forall j: nat | |pre| < j < |e|
      ensures InLog(p, e[j])
    {
      LaterFinished(a, u, s0, pre, post, s, e, p, |a[u]|, j);
    }
    FinishLeave(a, e, p, |pre|);
  }

  lemma {:induction false} NothingEntered(a: Adj, seen: seq<bool>, start: nat)
    requires |seen| == |a| && forall x :: 0 <= x < |seen| ==> !seen[x]
    ensures DfsInv(a, seen, []) && GraysReach(a, seen, [], start) && Entered(a, seen, [], []) && MayCome(a, [], start)
  {
    forall x: nat
      ensures InLog([], x) <==> x < |seen| && seen[x]
    {
    }
  }

  /** With nothing left unfinished, the finished nodes are listed in their one order. */
  lemma {:induction false} EnteredFinishes(a: Adj, seen: seq<bool>, pre: seq<nat>, post: seq<nat>)
    requires Entered(a, seen, pre, post) && DfsInv(a, seen, post) && NoGrays(seen, post)
    ensures Finishes(a, pre, post)
  {
    forall x: nat | InLog(pre, x)
      ensures InLog(post, x)
    {
    }
    AllFinished(a, pre, post);
  }

  lemma {:induction false} AllExhausted(a: Adj, seen: seq<bool>, pre: seq<nat>, post: seq<nat>)
    requires Listed(seen, pre) && DfsInv(a, seen, post) && NoGrays(seen, post)
    ensures Exhausted(a, pre, |pre|, 0, |pre|)
  {
    forall q: nat | q < |pre|
      ensures ExhaustedAt(a, pre, |pre|, q)
    {
      assert InLog(pre, pre[q]);
      ExploredBefore(a, seen, pre, pre[q]);
    }
  }

  // ----- Whole searches -----

  ghost predicate SearchFrom(a: Adj, start: nat, pre: seq<nat>, post: seq<nat>) {
    |pre| > 0 && pre[0] == start && Preorder(a, pre) && Complete(a, pre) && Finishes(a, pre, post)
  }

  /** The order in which a search from `start` finishes what it reaches. */
  ghost predicate Postorder(a: Adj, start: nat, post: seq<nat>) {
    exists pre :: SearchFrom(a, start, pre, post)
  }

  /** There is one postorder from a given start. */
  lemma {:induction false} PostorderUnique(a: Adj, start: nat, post: seq<nat>, post': seq<nat>)
    requires Postorder(a, start, post) && Postorder(a, start, post')
    ensures post == post'
  {
    var pre :| SearchFrom(a, start, pre, post);
    var pre' :| SearchFrom(a, start, pre', post');
    PreorderUnique(a, pre, pre');
    FinishUnique(a, pre, post, post');
  }

  ghost predicate SearchAll(a: Adj, start: nat, pre: seq<nat>, post: seq<nat>) {
    |pre| == |a| && Distinct(pre) && Forest(a, pre) && (|pre| > 0 ==> pre[0] == start) && Finishes(a, pre, post)
  }

  /** The order in which a search of the whole graph, from `start` and then from
      the least node left, finishes the nodes. */
  ghost predicate ForestPostorder(a: Adj, start: nat, post: seq<nat>) {
    exists pre :: SearchAll(a, start, pre, post)
  }

  /** There is one such order. */
  lemma {:induction false} ForestPostorderUnique(a: Adj, start: nat, post: seq<nat>, post': seq<nat>)
    requires ForestPostorder(a, start, post) && ForestPostorder(a, start, post')
    ensures post == post'
  {
    var pre :| SearchAll(a, start, pre, post);
    var pre' :| SearchAll(a, start, pre', post');
    ForestUnique(a, pre, pre');
    FinishUnique(a, pre, post, post');
  }
}
