/**
 Depth-first search over a graph of optional successor slots: what the seen
 flags and the postorder list satisfy between visits, cyclic graphs included.
 */
module Dfs {
  import opened Wrappers
  import opened Listing

  /** `g[u]` lists the successor slots of `u`; an empty slot leads nowhere. */
  type Adj = seq<seq<Option<nat>>>

  ghost predicate InAdj(g: Adj) {
    forall u, k :: 0 <= u < |g| && 0 <= k < |g[u]| && g[u][k].Some? ==> g[u][k].value < |g|
  }

  ghost predicate Edge(g: Adj, u: nat, v: nat) {
    u < |g| && Some(v) in g[u]
  }

  // ----- Reachability -----

  ghost predicate Path(g: Adj, p: seq<nat>) {
    |p| > 0 && forall i :: 0 <= i < |p| - 1 ==> Edge(g, p[i], p[i + 1])
  }

  ghost predicate Leads(g: Adj, p: seq<nat>, u: nat, v: nat) {
    Path(g, p) && p[0] == u && p[|p| - 1] == v
  }

  /** There is a path, possibly empty, from `u` to `v`. */
  ghost predicate Reaches(g: Adj, u: nat, v: nat) {
    exists p :: Leads(g, p, u, v)
  }

  lemma {:induction false} ReachesSelf(g: Adj, u: nat)
    ensures Reaches(g, u, u)
  {
    assert Leads(g, [u], u, u);
  }

  lemma {:induction false} ReachesStep(g: Adj, u: nat, v: nat, w: nat)
    requires Reaches(g, u, v) && Edge(g, v, w)
    ensures Reaches(g, u, w)
  {
    var p :| Leads(g, p, u, v);
    var q := p + [w];
    assert forall i :: 0 <= i < |q| - 1 ==> Edge(g, q[i], q[i + 1]);
    assert Leads(g, q, u, w);
  }

  lemma {:induction false} ReachesTransitive(g: Adj, u: nat, v: nat, w: nat)
    requires Reaches(g, u, v) && Reaches(g, v, w)
    ensures Reaches(g, u, w)
  {
    var q :| Leads(g, q, v, w);
    ReachesAlong(g, u, q, |q| - 1);
  }

  lemma {:induction false} ReachesAlong(g: Adj, u: nat, q: seq<nat>, i: nat)
    requires Path(g, q) && i < |q| && Reaches(g, u, q[0])
    ensures Reaches(g, u, q[i])
  {
    if i > 0 {
      ReachesAlong(g, u, q, i - 1);
      ReachesStep(g, u, q[i - 1], q[i]);
    }
  }

  // ----- Flags and lists -----

  ghost predicate Prefix(a: seq<nat>, b: seq<nat>) {
    |a| <= |b| && forall i :: 0 <= i < |a| ==> a[i] == b[i]
  }

  /** `x` occurs in `s` before position `n`. */
  ghost predicate Before(s: seq<nat>, n: nat, x: nat) {
    n <= |s| && exists i :: 0 <= i < n && s[i] == x
  }

  /** Entered but not finished. */
  ghost predicate Gray(seen: seq<bool>, post: seq<nat>, x: nat) {
    x < |seen| && seen[x] && x !in post
  }

  /** Every successor of a finished node was finished before it, or reaches it. */
  ghost predicate Ordered(g: Adj, post: seq<nat>) {
    forall i :: 0 <= i < |post| ==> OrderedAt(g, post, i)
  }

  ghost predicate OrderedAt(g: Adj, post: seq<nat>, i: nat)
    requires i < |post|
  {
    forall v: nat :: Edge(g, post[i], v) ==> Before(post, i, v) || Reaches(g, v, post[i])
  }

  ghost predicate Explored(g: Adj, seen: seq<bool>, u: nat) {
    forall v: nat :: Edge(g, u, v) ==> v < |seen| && seen[v]
  }

  /** What holds of the flags and the postorder list between visits. */
  ghost predicate DfsInv(g: Adj, seen: seq<bool>, post: seq<nat>) {
    && |seen| == |g| && Distinct(post) && Ordered(g, post)
    && (forall i :: 0 <= i < |post| ==> post[i] < |g| && seen[post[i]] && Explored(g, seen, post[i]))
  }

  /** What a visit of `u` may do: enter nodes that `u` reaches, and finish all of them. */
  ghost predicate Grown(g: Adj, u: nat, seen: seq<bool>, post: seq<nat>, seen': seq<bool>, post': seq<nat>) {
    && |seen'| == |seen| && Prefix(post, post')
    && (forall x :: 0 <= x < |seen| && seen[x] ==> seen'[x])
    && (forall x :: 0 <= x < |seen| && seen'[x] && !seen[x] ==> x in post' && Reaches(g, u, x))
    && (forall i :: |post| <= i < |post'| ==> post'[i] < |seen| && !seen[post'[i]] && Reaches(g, u, post'[i]))
  }

  lemma {:induction false} GrownSelf(g: Adj, u: nat, seen: seq<bool>, post: seq<nat>)
    ensures Grown(g, u, seen, post, seen, post)
  {
  }

  /** A visit of `u` may go on with a visit of a node that `u` reaches. */
  lemma {:induction false} GrownTransitive(g: Adj, u: nat, v: nat, s0: seq<bool>, p0: seq<nat>, s1: seq<bool>, p1: seq<nat>, s2: seq<bool>, p2: seq<nat>)
    requires Grown(g, u, s0, p0, s1, p1) && Grown(g, v, s1, p1, s2, p2) && Reaches(g, u, v)
    ensures Grown(g, u, s0, p0, s2, p2)
  {
    forall x | 0 <= x < |s0| && s2[x] && !s0[x]
      ensures x in p2 && Reaches(g, u, x)
    {
      if s1[x] {
        InPrefix(p1, p2, x);
      } else {
        ReachesTransitive(g, u, v, x);
      }
    }
    forall i | |p0| <= i < |p2|
      ensures p2[i] < |s0| && !s0[p2[i]] && Reaches(g, u, p2[i])
    {
      if i >= |p1| {
        ReachesTransitive(g, u, v, p2[i]);
      }
    }
  }

  lemma {:induction false} InPrefix(a: seq<nat>, b: seq<nat>, x: nat)
    requires Prefix(a, b) && x in a
    ensures x in b
  {
    var i :| 0 <= i < |a| && a[i] == x;
    assert b[i] == x;
  }

  /** A visit leaves the unfinished nodes as they were. */
  lemma {:induction false} GraysStay(g: Adj, u: nat, seen: seq<bool>, post: seq<nat>, seen': seq<bool>, post': seq<nat>, x: nat)
    requires Grown(g, u, seen, post, seen', post')
    ensures Gray(seen', post', x) <==> Gray(seen, post, x)
  {
    assert Gray(seen, post, x) ==> forall i :: 0 <= i < |post'| ==> post'[i] != x;
  }

  /** Every unfinished node reaches `u`. */
  ghost predicate GraysReach(g: Adj, seen: seq<bool>, post: seq<nat>, u: nat) {
    forall x: nat :: Gray(seen, post, x) ==> Reaches(g, x, u)
  }

  /** Entering `u` marks it and makes it unfinished. */
  lemma {:induction false} Enter(g: Adj, seen: seq<bool>, post: seq<nat>, u: nat)
    requires DfsInv(g, seen, post) && u < |g| && !seen[u] && GraysReach(g, seen, post, u)
    ensures var seen' := seen[u := true];
            DfsInv(g, seen', post) && GraysReach(g, seen', post, u) && Gray(seen', post, u)
  {
    var seen' := seen[u := true];
    assert u !in post;
    forall i | 0 <= i < |post|
      ensures Explored(g, seen', post[i])
    {
      assert Explored(g, seen, post[i]);
    }
    forall x: nat | Gray(seen', post, x)
      ensures Reaches(g, x, u)
    {
      if x == u {
        ReachesSelf(g, u);
      } else {
        assert Gray(seen, post, x);
      }
    }
  }

  /** Visiting a successor of the node being visited meets its precondition. */
  lemma {:induction false} Descend(g: Adj, seen: seq<bool>, post: seq<nat>, u: nat, v: nat)
    requires GraysReach(g, seen, post, u) && Edge(g, u, v)
    ensures GraysReach(g, seen, post, v)
  {
    forall x: nat | Gray(seen, post, x)
      ensures Reaches(g, x, v)
    {
      ReachesStep(g, x, u, v);
    }
  }

  lemma {:induction false} GraysStillReach(g: Adj, v: nat, seen: seq<bool>, post: seq<nat>, seen': seq<bool>, post': seq<nat>, u: nat)
    requires Grown(g, v, seen, post, seen', post') && GraysReach(g, seen, post, u)
    ensures GraysReach(g, seen', post', u)
  {
    forall x: nat | Gray(seen', post', x)
      ensures Reaches(g, x, u)
    {
      GraysStay(g, v, seen, post, seen', post', x);
    }
  }

  /** Once every successor has been seen, `u` can be finished. */
  lemma {:induction false} Leave(g: Adj, seen: seq<bool>, post: seq<nat>, u: nat)
    requires DfsInv(g, seen, post) && Gray(seen, post, u) && GraysReach(g, seen, post, u)
    requires Explored(g, seen, u)
    ensures DfsInv(g, seen, post + [u])
  {
    var post' := post + [u];
    forall i: nat | i < |post'|
      ensures OrderedAt(g, post', i)
    {
      forall v: nat | Edge(g, post'[i], v)
        ensures Before(post', i, v) || Reaches(g, v, post'[i])
      {
        if i < |post| {
          assert OrderedAt(g, post, i);
          if Before(post, i, v) {
            var j :| 0 <= j < i && post[j] == v;
            assert post'[j] == v;
          }
        } else if v in post {
          var j :| 0 <= j < |post| && post[j] == v;
          assert post'[j] == v;
        } else {
          assert Gray(seen, post, v);
        }
      }
    }
  }

  /** The whole visit, from before entering to after leaving. */
  lemma {:induction false} VisitDone(g: Adj, u: nat, seen: seq<bool>, post: seq<nat>, seen': seq<bool>, post': seq<nat>)
    requires u < |g| == |seen| && !seen[u] && u !in post && Grown(g, u, seen[u := true], post, seen', post')
    ensures Grown(g, u, seen, post, seen', post' + [u])
  {
    ReachesSelf(g, u);
    var s, p := seen[u := true], post' + [u];
    forall x | 0 <= x < |seen| && seen'[x] && !seen[x]
      ensures x in p && Reaches(g, u, x)
    {
      assert x != u ==> !s[x];
    }
  }

  // ----- Following the slots of a node -----

  ghost predicate SlotsSeen(g: Adj, seen: seq<bool>, u: nat, n: nat) {
    u < |g| && n <= |g[u]| && forall k :: 0 <= k < n && g[u][k].Some? ==> g[u][k].value < |seen| && seen[g[u][k].value]
  }

  lemma {:induction false} AllSlotsSeen(g: Adj, seen: seq<bool>, u: nat)
    requires u < |g| && SlotsSeen(g, seen, u, |g[u]|)
    ensures Explored(g, seen, u)
  {
    forall v: nat | Edge(g, u, v)
      ensures v < |seen| && seen[v]
    {
      var k :| 0 <= k < |g[u]| && g[u][k] == Some(v);
    }
  }

  /** The visit of `u`, entered from the state `s1`, `p0`, has followed its first `k` slots. */
  ghost predicate Visiting(g: Adj, u: nat, s1: seq<bool>, p0: seq<nat>, s: seq<bool>, p: seq<nat>, k: nat) {
    DfsInv(g, s, p) && GraysReach(g, s, p, u) && Grown(g, u, s1, p0, s, p) && SlotsSeen(g, s, u, k)
  }

  lemma {:induction false} VisitStart(g: Adj, u: nat, s0: seq<bool>, p0: seq<nat>)
    requires u < |g| == |s0| && !s0[u] && DfsInv(g, s0, p0) && GraysReach(g, s0, p0, u)
    ensures var s1 := s0[u := true];
            Visiting(g, u, s1, p0, s1, p0, 0) && Unseen(s1) < Unseen(s0)
  {
    Enter(g, s0, p0, u);
    GrownSelf(g, u, s0[u := true], p0);
    UnseenShrinks(s0, s0[u := true], u);
  }

  /** The next slot may be followed: the visit of its node is a smaller one. */
  lemma {:induction false} MayVisit(g: Adj, u: nat, k: nat, v: nat, s0: seq<bool>, p0: seq<nat>, s: seq<bool>, p: seq<nat>)
    requires u < |g| == |s0| && !s0[u] && Visiting(g, u, s0[u := true], p0, s, p, k) && k < |g[u]| && g[u][k] == Some(v)
    ensures GraysReach(g, s, p, v) && Unseen(s) < Unseen(s0)
  {
    assert Edge(g, u, v);
    Descend(g, s, p, u, v);
    UnseenShrinks(s0, s, u);
  }

  lemma {:induction false} VisitNext(g: Adj, u: nat, k: nat, v: nat, s1: seq<bool>, p0: seq<nat>, s: seq<bool>, p: seq<nat>, s': seq<bool>, p': seq<nat>)
    requires Visiting(g, u, s1, p0, s, p, k) && k < |g[u]| && g[u][k] == Some(v)
    requires DfsInv(g, s', p') && Grown(g, v, s, p, s', p') && v < |s'| && s'[v]
    ensures Visiting(g, u, s1, p0, s', p', k + 1)
  {
    assert Edge(g, u, v);
    ReachesSelf(g, u);
    ReachesStep(g, u, u, v);
    GrownTransitive(g, u, v, s1, p0, s, p, s', p');
    GraysStillReach(g, v, s, p, s', p', u);
  }

  /** All slots have been followed, so the node can be left. */
  lemma {:induction false} Finish(g: Adj, u: nat, s0: seq<bool>, p0: seq<nat>, s2: seq<bool>, p2: seq<nat>)
    requires u < |g| == |s0| && !s0[u] && DfsInv(g, s0, p0) && Visiting(g, u, s0[u := true], p0, s2, p2, |g[u]|)
    ensures DfsInv(g, s2, p2 + [u]) && Grown(g, u, s0, p0, s2, p2 + [u]) && s2[u] && Explored(g, s2, u)
  {
    var s1 := s0[u := true];
    assert u !in p0 && Gray(s1, p0, u);
    GraysStay(g, u, s1, p0, s2, p2, u);
    AllSlotsSeen(g, s2, u);
    Leave(g, s2, p2, u);
    VisitDone(g, u, s0, p0, s2, p2);
  }

  // ----- Whole searches -----

  /** With nothing left unfinished, the finished nodes are the seen ones. */
  ghost predicate NoGrays(seen: seq<bool>, post: seq<nat>) {
    forall x :: 0 <= x < |seen| && seen[x] ==> x in post
  }

  /** Seen nodes then include everything they reach. */
  lemma {:induction false} SeenClosed(g: Adj, seen: seq<bool>, post: seq<nat>, p: seq<nat>, i: nat)
    requires DfsInv(g, seen, post) && NoGrays(seen, post) && Path(g, p) && i < |p|
    requires p[0] < |g| && seen[p[0]]
    ensures p[i] < |g| && seen[p[i]]
  {
    if i > 0 {
      SeenClosed(g, seen, post, p, i - 1);
      assert Edge(g, p[i - 1], p[i]);
      var j :| 0 <= j < |post| && post[j] == p[i - 1];
      assert Explored(g, seen, post[j]);
    }
  }

  lemma {:induction false} SeenReaches(g: Adj, seen: seq<bool>, post: seq<nat>, u: nat, v: nat)
    requires DfsInv(g, seen, post) && NoGrays(seen, post) && u < |g| && seen[u] && Reaches(g, u, v)
    ensures v < |g| && seen[v]
  {
    var p :| Leads(g, p, u, v);
    SeenClosed(g, seen, post, p, |p| - 1);
  }

  // ----- Counting -----

  ghost function Below(n: nat): (s: set<nat>)
    ensures forall x: nat :: x in s <==> x < n
    ensures |s| == n
  {
    if n == 0 then {} else Below(n - 1) + {n - 1}
  }

  /** At most `n` different numbers lie below `n`. */
  lemma {:induction false} DistinctFits(s: seq<nat>, n: nat)
    requires Distinct(s) && forall i :: 0 <= i < |s| ==> s[i] < n
    ensures |s| <= n
    ensures |s| == n <==> forall x: nat :: x < n ==> x in s
  {
    DistinctSize(s);
    assert Elements(s) <= Below(n);
    SubsetSize(Elements(s), Below(n));
    if forall x: nat :: x < n ==> x in s {
      assert Elements(s) == Below(n);
    }
    if |s| == n {
      forall x: nat | x < n
        ensures x in s
      {
        assert x in Below(n);
        assert x in Elements(s);
      }
    }
  }

  ghost function UnseenNodes(seen: seq<bool>): set<int> {
    set x | 0 <= x < |seen| && !seen[x]
  }

  /** How many nodes are not seen yet; shrinks with every visit. */
  ghost function Unseen(seen: seq<bool>): nat {
    |UnseenNodes(seen)|
  }

  lemma {:induction false} UnseenShrinks(seen: seq<bool>, seen': seq<bool>, u: nat)
    requires |seen| == |seen'| && u < |seen| && !seen[u] && seen'[u]
    requires forall x :: 0 <= x < |seen| && seen[x] ==> seen'[x]
    ensures Unseen(seen') < Unseen(seen)
  {
    SubsetSize(UnseenNodes(seen'), UnseenNodes(seen));
    assert u in UnseenNodes(seen) && u !in UnseenNodes(seen');
  }
}
