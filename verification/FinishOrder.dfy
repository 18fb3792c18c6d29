/**
 The order in which a depth-first search finishes nodes, from the order in which
 it enters them: a node entered later is finished earlier exactly when a path
 leads to it that avoids everything entered before the earlier one.
 */
module FinishOrder {
  import opened Wrappers
  import opened Listing
  import opened Dfs
  import opened SearchOrder

  // ----- White paths -----

  /** A path that avoids the first `n` nodes of the list. */
  ghost predicate Avoids(pre: seq<nat>, n: nat, q: seq<nat>) {
    forall k: nat :: k < |q| ==> !Before(pre, n, q[k])
  }

  ghost predicate WhitePath(a: Adj, pre: seq<nat>, i: nat, q: seq<nat>, v: nat) {
    i < |pre| && Leads(a, q, pre[i], v) && Avoids(pre, i, q)
  }

  /** `v` was within reach when the node at `i` was entered. */
  ghost predicate White(a: Adj, pre: seq<nat>, i: nat, v: nat) {
    exists q :: WhitePath(a, pre, i, q, v)
  }

  lemma {:induction false} WhiteSelf(a: Adj, pre: seq<nat>, i: nat)
    requires Distinct(pre) && i < |pre|
    ensures White(a, pre, i, pre[i])
  {
    LaterNotBefore(pre, i, i);
    assert WhitePath(a, pre, i, [pre[i]], pre[i]);
  }

  lemma {:induction false} BeforeFewer(pre: seq<nat>, i: nat, m: nat, x: nat)
    requires i <= m <= |pre| && !Before(pre, m, x)
    ensures !Before(pre, i, x)
  {
  }

  /** A white path from a successor entered later, with the edge to it, is a
      white path. */
  lemma {:induction false} WhiteVia(a: Adj, pre: seq<nat>, i: nat, m: nat, v: nat)
    requires Distinct(pre) && i < m < |pre| && Edge(a, pre[i], pre[m]) && White(a, pre, m, v)
    ensures White(a, pre, i, v)
  {
    var q :| WhitePath(a, pre, m, q, v);
    var r := [pre[i]] + q;
    LaterNotBefore(pre, i, i);
    forall k: nat | k < |r|
      ensures !Before(pre, i, r[k])
    {
      if k > 0 {
        assert !Before(pre, m, q[k - 1]);
        BeforeFewer(pre, i, m, q[k - 1]);
      }
    }
    forall k | 0 <= k < |r| - 1
      ensures Edge(a, r[k], r[k + 1])
    {
      if k > 0 {
        assert Edge(a, q[k - 1], q[k]);
      }
    }
    assert WhitePath(a, pre, i, r, v);
  }

  lemma {:induction false} WhitePathKept(a: Adj, pre: seq<nat>, pre': seq<nat>, i: nat, q: seq<nat>, v: nat)
    requires Prefix(pre, pre') && i < |pre|
    ensures WhitePath(a, pre, i, q, v) <==> WhitePath(a, pre', i, q, v)
  {
    forall k: nat | k < |q|
      ensures Before(pre, i, q[k]) <==> Before(pre', i, q[k])
    {
      BeforeKept(pre, pre', i, q[k]);
    }
  }

  lemma {:induction false} WhiteKept(a: Adj, pre: seq<nat>, pre': seq<nat>, i: nat, v: nat)
    requires Prefix(pre, pre') && i < |pre|
    ensures White(a, pre, i, v) <==> White(a, pre', i, v)
  {
    if q :| WhitePath(a, pre, i, q, v) {
      WhitePathKept(a, pre, pre', i, q, v);
    }
    if q :| WhitePath(a, pre', i, q, v) {
      WhitePathKept(a, pre, pre', i, q, v);
    }
  }

  /** From an interval of entered nodes without new successors, white paths do not
      lead out. */
  lemma {:induction false} StaysInside(a: Adj, pre: seq<nat>, i: nat, e: nat, q: seq<nat>, v: nat, k: nat) returns (p: nat)
    requires i < e <= |pre| && Exhausted(a, pre, e, i, e) && WhitePath(a, pre, i, q, v) && k < |q|
    ensures i <= p < e && pre[p] == q[k]
  {
    if k == 0 {
      p := i;
    } else {
      var o := StaysInside(a, pre, i, e, q, v, k - 1);
      assert ExhaustedAt(a, pre, e, o) && Edge(a, q[k - 1], q[k]);
      assert Before(pre, e, q[k]) && !Before(pre, i, q[k]);
      p :| 0 <= p < e && pre[p] == q[k];
    }
  }

  lemma {:induction false} NotWhite(a: Adj, pre: seq<nat>, i: nat, e: nat, v: nat)
    requires i < e <= |pre| && Exhausted(a, pre, e, i, e) && forall p :: i <= p < e ==> pre[p] != v
    ensures !White(a, pre, i, v)
  {
    forall q | WhitePath(a, pre, i, q, v)
      ensures false
    {
      var p := StaysInside(a, pre, i, e, q, v, |q| - 1);
    }
  }

  // ----- What the finished nodes satisfy -----

  ghost predicate Precedes(post: seq<nat>, x: nat, y: nat) {
    exists p, q :: 0 <= p < q < |post| && post[p] == x && post[q] == y
  }

  /** The nodes from position `i` to `e` have no new successors and are finished. */
  ghost predicate Closed(a: Adj, pre: seq<nat>, post: seq<nat>, i: nat, e: nat) {
    i < e <= |pre| && Exhausted(a, pre, e, i, e) && forall p: nat :: i <= p < e ==> InLog(post, pre[p])
  }

  ghost predicate PairAt(a: Adj, pre: seq<nat>, post: seq<nat>, i: nat, j: nat)
    requires i < |pre| && j < |pre|
  {
    Precedes(post, pre[j], pre[i]) <==> White(a, pre, i, pre[j])
  }

  ghost predicate FinishedAt(a: Adj, pre: seq<nat>, post: seq<nat>, i: nat)
    requires i < |pre|
  {
    InLog(post, pre[i]) ==>
      && (exists e: nat :: Closed(a, pre, post, i, e))
      && forall j: nat :: i < j < |pre| ==> PairAt(a, pre, post, i, j)
  }

  /** Between visits: only entered nodes are finished, and they are finished in
      the order that white paths give. */
  ghost predicate FinishInv(a: Adj, pre: seq<nat>, post: seq<nat>) {
    (forall x: nat :: InLog(post, x) ==> InLog(pre, x)) && forall i: nat :: i < |pre| ==> FinishedAt(a, pre, post, i)
  }

  /** Everything entered after position `i` was within white reach from there. */
  ghost predicate AllWhite(a: Adj, pre: seq<nat>, i: nat) {
    forall j: nat :: i < j < |pre| ==> White(a, pre, i, pre[j])
  }

  lemma {:induction false} ClosedKept(a: Adj, pre: seq<nat>, pre': seq<nat>, post: seq<nat>, post': seq<nat>, i: nat, e: nat)
    requires Closed(a, pre, post, i, e) && Prefix(pre, pre') && Prefix(post, post')
    ensures Closed(a, pre', post', i, e)
  {
    ExhaustedKept(a, pre, pre', e, i, e);
    forall p: nat | i <= p < e
      ensures InLog(post', pre'[p])
    {
      assert InLog(post, pre[p]);
      InPrefix(post, post', pre[p]);
    }
  }

  /** Entering a node. */
  lemma {:induction false} FinishEnter(a: Adj, pre: seq<nat>, post: seq<nat>, u: nat)
    requires FinishInv(a, pre, post) && !InLog(pre, u)
    ensures FinishInv(a, pre + [u], post)
  {
    var pre' := pre + [u];
    forall x: nat | InLog(post, x)
      ensures InLog(pre', x)
    {
      assert InLog(pre, x);
    }
    assert !InLog(post, u);
    forall i: nat | i < |pre'|
      ensures FinishedAt(a, pre', post, i)
    {
      if i < |pre| && InLog(post, pre[i]) {
        assert FinishedAt(a, pre, post, i);
        var e: nat :| Closed(a, pre, post, i, e);
        ClosedKept(a, pre, pre', post, post, i, e);
        forall j: nat | i < j < |pre'|
          ensures PairAt(a, pre', post, i, j)
        {
          EnterPair(a, pre, post, u, i, e, j);
        }
      }
    }
  }

  lemma {:induction false} EnterPair(a: Adj, pre: seq<nat>, post: seq<nat>, u: nat, i: nat, e: nat, j: nat)
    requires !InLog(pre, u) && !InLog(post, u) && i < j <= |pre| && Closed(a, pre + [u], post, i, e) && e <= |pre|
    requires j < |pre| ==> PairAt(a, pre, post, i, j)
    ensures PairAt(a, pre + [u], post, i, j)
  {
    var pre' := pre + [u];
    if j < |pre| {
      WhiteKept(a, pre, pre', i, pre[j]);
    } else {
      assert forall p :: i <= p < e ==> pre'[p] in pre;
      NotWhite(a, pre', i, e, u);
    }
  }

  lemma {:induction false} PrecedesKept(post: seq<nat>, u: nat, x: nat, y: nat)
    requires u != y && u != x
    ensures Precedes(post + [u], x, y) <==> Precedes(post, x, y)
  {
    var post' := post + [u];
    if Precedes(post, x, y) {
      var p, q :| 0 <= p < q < |post| && post[p] == x && post[q] == y;
      assert post'[p] == x && post'[q] == y;
    }
    if Precedes(post', x, y) {
      var p, q :| 0 <= p < q < |post'| && post'[p] == x && post'[q] == y;
      assert post[p] == x && post[q] == y;
    }
  }

  lemma {:induction false} LastPrecedesNone(post: seq<nat>, u: nat, y: nat)
    requires !InLog(post, u)
    ensures !Precedes(post + [u], u, y)
    ensures InLog(post, y) ==> Precedes(post + [u], y, u)
  {
    var post' := post + [u];
    assert forall p :: 0 <= p < |post| ==> post'[p] == post[p] && post[p] in post;
    if InLog(post, y) {
      var p :| 0 <= p < |post| && post[p] == y;
      assert post'[p] == y && post'[|post|] == u;
    }
  }

  /** Finishing the node at position `at`, when all entered after it are finished. */
  lemma {:induction false} FinishLeave(a: Adj, pre: seq<nat>, post: seq<nat>, at: nat)
    requires FinishInv(a, pre, post) && Distinct(pre) && at < |pre| && !InLog(post, pre[at])
    requires (forall p: nat :: at < p < |pre| ==> InLog(post, pre[p])) && Exhausted(a, pre, |pre|, at, |pre|) && AllWhite(a, pre, at)
    ensures FinishInv(a, pre, post + [pre[at]])
  {
    var u := pre[at];
    var post' := post + [u];
    forall x: nat | InLog(post', x)
      ensures InLog(pre, x)
    {
      assert x == u || InLog(post, x);
    }
    forall i: nat | i < |pre| && InLog(post', pre[i])
      ensures FinishedAt(a, pre, post', i)
    {
      if i == at {
        LeaveSelf(a, pre, post, at);
      } else {
        assert InLog(post, pre[i]) && FinishedAt(a, pre, post, i);
        LeaveOther(a, pre, post, at, i);
      }
    }
  }

  lemma {:induction false} LeaveSelf(a: Adj, pre: seq<nat>, post: seq<nat>, at: nat)
    requires at < |pre| && !InLog(post, pre[at])
    requires (forall p: nat :: at < p < |pre| ==> InLog(post, pre[p])) && Exhausted(a, pre, |pre|, at, |pre|) && AllWhite(a, pre, at)
    ensures FinishedAt(a, pre, post + [pre[at]], at)
  {
    var post' := post + [pre[at]];
    forall p: nat | at <= p < |pre|
      ensures InLog(post', pre[p])
    {
      assert p > at ==> InLog(post, pre[p]);
    }
    assert Closed(a, pre, post', at, |pre|);
    forall j: nat | at < j < |pre|
      ensures PairAt(a, pre, post', at, j)
    {
      assert InLog(post, pre[j]);
      LastPrecedesNone(post, pre[at], pre[j]);
    }
  }

  lemma {:induction false} LeaveOther(a: Adj, pre: seq<nat>, post: seq<nat>, at: nat, i: nat)
    requires Distinct(pre) && at < |pre| && i < |pre| && i != at && !InLog(post, pre[at])
    requires InLog(post, pre[i]) && FinishedAt(a, pre, post, i)
    ensures FinishedAt(a, pre, post + [pre[at]], i)
  {
    var u := pre[at];
    var post' := post + [u];
    var e: nat :| Closed(a, pre, post, i, e);
    ClosedKept(a, pre, pre, post, post', i, e);
    forall j: nat | i < j < |pre|
      ensures PairAt(a, pre, post', i, j)
    {
      assert PairAt(a, pre, post, i, j);
      if j == at {
        assert at >= e;
        NotWhite(a, pre, i, e, u);
        LastPrecedesNone(post, u, pre[i]);
      } else {
        PrecedesKept(post, u, pre[j], pre[i]);
      }
    }
  }

  /** White reach through a successor: what a nested visit entered is within
      white reach of the visit around it. */
  lemma {:induction false} WhiteNested(a: Adj, pre: seq<nat>, pre': seq<nat>, at: nat)
    requires Prefix(pre, pre') && Distinct(pre') && at < |pre| < |pre'| && AllWhite(a, pre, at)
    requires Edge(a, pre'[at], pre'[|pre|]) && AllWhite(a, pre', |pre|)
    ensures AllWhite(a, pre', at)
  {
    forall j: nat | at < j < |pre'|
      ensures White(a, pre', at, pre'[j])
    {
      if j < |pre| {
        assert White(a, pre, at, pre[j]);
        WhiteKept(a, pre, pre', at, pre[j]);
      } else {
        if j == |pre| {
          WhiteSelf(a, pre', j);
        }
        WhiteVia(a, pre', at, |pre|, pre'[j]);
      }
    }
  }

  // ----- One finishing order -----

  /** `post` lists the nodes of `pre` in the order they are finished. */
  ghost predicate Finishes(a: Adj, pre: seq<nat>, post: seq<nat>) {
    && Distinct(post) && (forall x: nat :: InLog(post, x) <==> InLog(pre, x))
    && forall i: nat, j: nat :: i < j < |pre| ==> PairAt(a, pre, post, i, j)
  }

  lemma {:induction false} AllFinished(a: Adj, pre: seq<nat>, post: seq<nat>)
    requires FinishInv(a, pre, post) && Distinct(post) && forall x: nat :: InLog(pre, x) ==> InLog(post, x)
    ensures Finishes(a, pre, post)
  {
    forall i: nat, j: nat | i < j < |pre|
      ensures PairAt(a, pre, post, i, j)
    {
      assert InLog(pre, pre[i]) && FinishedAt(a, pre, post, i);
    }
  }

  lemma {:induction false} NotBoth(post: seq<nat>, x: nat, y: nat)
    requires Distinct(post) && Precedes(post, x, y)
    ensures !Precedes(post, y, x)
  {
  }

  /** Two nodes are in the same order in both lists. */
  lemma {:induction false} SameOrder(a: Adj, pre: seq<nat>, post: seq<nat>, post': seq<nat>, x: nat, y: nat)
    requires Finishes(a, pre, post) && Finishes(a, pre, post') && InLog(pre, x) && InLog(pre, y) && x != y && Precedes(post, x, y)
    ensures !Precedes(post', y, x)
  {
    var i :| 0 <= i < |pre| && pre[i] == x;
    var j :| 0 <= j < |pre| && pre[j] == y;
    NotBoth(post, x, y);
    if i < j {
      assert PairAt(a, pre, post, i, j) && PairAt(a, pre, post', i, j);
    } else {
      assert PairAt(a, pre, post, j, i) && PairAt(a, pre, post', j, i);
      if Precedes(post', y, x) {
        NotBoth(post', y, x);
      }
    }
  }

  lemma {:induction false} LaterIn(post: seq<nat>, post': seq<nat>, k: nat, y: nat)
    requires k < |post| && k <= |post'| && InLog(post, y) && post[k] != y
    requires (forall q :: 0 <= q < k ==> post[q] == post'[q]) && !Before(post', k, y)
    ensures Precedes(post, post[k], y)
  {
    var q :| 0 <= q < |post| && post[q] == y;
  }

  lemma {:induction false} SameAt(a: Adj, pre: seq<nat>, post: seq<nat>, post': seq<nat>, k: nat)
    requires Finishes(a, pre, post) && Finishes(a, pre, post') && k < |post| && k < |post'|
    requires forall q :: 0 <= q < k ==> post[q] == post'[q]
    ensures post[k] == post'[k]
  {
    var x, y := post[k], post'[k];
    if x != y {
      assert InLog(post, x) && InLog(post', y);
      LaterNotBefore(post, k, k);
      LaterNotBefore(post', k, k);
      LaterIn(post, post', k, y);
      LaterIn(post', post, k, x);
      SameOrder(a, pre, post, post', x, y);
    }
  }

  lemma {:induction false} SameTo(a: Adj, pre: seq<nat>, post: seq<nat>, post': seq<nat>, k: nat)
    requires Finishes(a, pre, post) && Finishes(a, pre, post') && k <= |post| && k <= |post'|
    ensures forall q :: 0 <= q < k ==> post[q] == post'[q]
  {
    if k > 0 {
      SameTo(a, pre, post, post', k - 1);
      SameAt(a, pre, post, post', k - 1);
    }
  }

  lemma {:induction false} SameLength(a: Adj, pre: seq<nat>, post: seq<nat>, post': seq<nat>)
    requires Finishes(a, pre, post) && Finishes(a, pre, post')
    ensures |post| == |post'|
  {
    DistinctSize(post);
    DistinctSize(post');
    forall x
      ensures x in Elements(post) <==> x in Elements(post')
    {
      assert InLog(post, x) <==> InLog(post', x);
    }
    assert Elements(post) == Elements(post');
  }

  /** There is one finishing order for an entering order. */
  lemma {:induction false} FinishUnique(a: Adj, pre: seq<nat>, post: seq<nat>, post': seq<nat>)
    requires Finishes(a, pre, post) && Finishes(a, pre, post')
    ensures post == post'
  {
    SameLength(a, pre, post, post');
    SameTo(a, pre, post, post', |post|);
  }
}
