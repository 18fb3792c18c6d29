/**
 TOS: the instruction stream built from selected blocks, its layout in reverse
 postorder, the rebuilt stream and the validator.
 */
module Tos {
  import opened Wrappers
  import opened Listing
  import opened Mds
  import opened Dfs
  import opened SearchOrder
  import opened FinishOrder
  import opened DepthFirst

  /** A block of selected instructions. */
  datatype MdsBlock = MdsBlock(id: nat, code: seq<Selected>, successors: seq<nat>)

  datatype TosInst = TosInst(id: nat, blockId: nat, order: nat, inst: Selected)

  datatype TosBlock = TosBlock(id: nat, layoutIndex: nat, firstInstr: nat, instrCount: nat, successors: seq<nat>)

  /** The first-instruction mark of empty blocks. */
  const INVALID_INSTR: nat := 0xFFFF_FFFF

  // ----- Successors -----

  /** The first block with this identifier, at or after `from`. */
  function IndexFrom(blocks: seq<TosBlock>, id: nat, from: nat): (r: Option<nat>)
    requires from <= |blocks|
    ensures r.Some? ==> from <= r.value < |blocks| && blocks[r.value].id == id
                        && forall j :: from <= j < r.value ==> blocks[j].id != id
    ensures r.None? ==> forall j :: from <= j < |blocks| ==> blocks[j].id != id
    decreases |blocks| - from
  {
    if from == |blocks| then None
    else if blocks[from].id == id then Some(from)
    else IndexFrom(blocks, id, from + 1)
  }

  method FindBlockIndex(blocks: seq<TosBlock>, id: nat) returns (r: Option<nat>)
    ensures r == IndexFrom(blocks, id, 0)
  {
    var index := 0;
    while index < |blocks|
      invariant 0 <= index <= |blocks|
      invariant IndexFrom(blocks, id, 0) == IndexFrom(blocks, id, index)
    {
      if blocks[index].id == id {
        return Some(index);
      }
      index := index + 1;
    }
    r := None;
  }

  /** The block graph; successors that name no block lead nowhere. */
  ghost function Graph(blocks: seq<TosBlock>): (g: Adj)
    ensures |g| == |blocks| && InAdj(g)
    ensures forall u :: 0 <= u < |g| ==> |g[u]| == |blocks[u].successors|
    ensures forall u, k :: 0 <= u < |g| && 0 <= k < |g[u]| ==> g[u][k] == IndexFrom(blocks, blocks[u].successors[k], 0)
  {
    seq(|blocks|, u requires 0 <= u < |blocks| =>
      seq(|blocks[u].successors|, k requires 0 <= k < |blocks[u].successors| =>
        IndexFrom(blocks, blocks[u].successors[k], 0)))
  }

  // ----- Depth-first search over the blocks -----

  /** Visits `u` and everything it reaches that has not been seen, appending
      each block to the postorder list when it is finished. `pre` lists the
      blocks in the order they are entered. */
  method VisitBlock(blocks: seq<TosBlock>, u: nat, seen: array<bool>, post: array<nat>, count: nat, ghost pre: seq<nat>)
    returns (count': nat, ghost pre': seq<nat>)
    requires u < |blocks| && seen.Length == post.Length == |blocks| && count <= |blocks|
    requires DfsInv(Graph(blocks), seen[..], post[..count]) && GraysReach(Graph(blocks), seen[..], post[..count], u)
    requires Entered(Graph(blocks), seen[..], pre, post[..count]) && MayCome(Graph(blocks), pre, u)
    modifies seen, post
    ensures count <= count' <= |blocks| && DfsInv(Graph(blocks), seen[..], post[..count'])
    ensures Grown(Graph(blocks), u, old(seen[..]), old(post[..count]), seen[..], post[..count'])
    ensures Entered(Graph(blocks), seen[..], pre', post[..count']) && Visited(Graph(blocks), u, old(seen[u]), pre, pre')
    ensures seen[u] && (!old(seen[u]) ==> count' > count && post[count' - 1] == u)
    decreases Unseen(seen[..]), 1
  {
    ghost var g := Graph(blocks);
    ghost var s0, p0 := seen[..], post[..count];
    count', pre' := count, pre;
    if seen[u] {
      GrownSelf(g, u, s0, p0);
      return;
    }
    FollowStart(g, u, s0, pre, p0);
    seen[u] := true;
    pre' := pre + [u];
    assert seen[..] == s0[u := true] && post[..count] == p0;
    var k := 0;
    while k < |blocks[u].successors|
      invariant 0 <= k <= |blocks[u].successors| && count <= count' <= |blocks|
      invariant Followed(g, u, s0, pre, p0, seen[..], pre', post[..count'], k)
    {
      count', pre' := FollowSuccessor(blocks, u, k, seen, post, count', s0, pre, p0, pre');
      k := k + 1;
    }
    ghost var s2, p2 := seen[..], post[..count'];
    FollowDone(g, u, s0, pre, p0, s2, pre', p2);
    DistinctFits(p2 + [u], |blocks|);
    post[count'] := u;
    count' := count' + 1;
    assert post[..count'] == p2 + [u] && seen[..] == s2;
  }

  /** One turn of the loop: visits the block that successor `k` of `u` names, if any. */
  method FollowSuccessor(blocks: seq<TosBlock>, u: nat, k: nat, seen: array<bool>, post: array<nat>, count: nat,
                         ghost s0: seq<bool>, ghost pre: seq<nat>, ghost p0: seq<nat>, ghost e: seq<nat>)
    returns (count': nat, ghost e': seq<nat>)
    requires u < |blocks| && k < |blocks[u].successors| && seen.Length == post.Length == |blocks| == |s0| && count <= |blocks|
    requires !s0[u] && Followed(Graph(blocks), u, s0, pre, p0, seen[..], e, post[..count], k)
    modifies seen, post
    ensures count <= count' <= |blocks| && Followed(Graph(blocks), u, s0, pre, p0, seen[..], e', post[..count'], k + 1)
    decreases Unseen(s0), 0
  {
    ghost var g, s, p := Graph(blocks), seen[..], post[..count];
    var next := FindBlockIndex(blocks, blocks[u].successors[k]);
    assert g[u][k] == next;
    count', e' := count, e;
    if next.Some? {
      FollowMay(g, u, k, next.value, s0, pre, p0, s, e, p);
      count', e' := VisitBlock(blocks, next.value, seen, post, count, e);
      FollowNext(g, u, k, next.value, s[next.value], s0, pre, p0, s, e, p, seen[..], e', post[..count']);
    } else {
      FollowSkip(g, u, k, s0, pre, p0, s, e, p);
    }
  }

  // ----- The layout order -----

  /** A permutation of the blocks. */
  ghost predicate Permutation(n: nat, order: seq<nat>) {
    |order| == n && Distinct(order) && forall i :: 0 <= i < n ==> order[i] < n
  }

  /** Every edge goes forward, except where the target can get back to the source. */
  ghost predicate Forward(g: Adj, order: seq<nat>) {
    forall i, j :: 0 <= i < |order| && 0 <= j < |order| && Edge(g, order[i], order[j]) ==>
      i < j || Reaches(g, order[j], order[i])
  }

  ghost predicate AllReachable(g: Adj) {
    forall x: nat :: x < |g| ==> Reaches(g, 0, x)
  }

  /** What the layout promises; the entry block comes first exactly when every
      block can be reached from it. */
  ghost predicate Layout(g: Adj, order: seq<nat>) {
    && Permutation(|g|, order) && Forward(g, order)
    && (|g| > 0 ==> (order[0] == 0 <==> AllReachable(g)))
  }

  /** A finished search: everything seen and finished; the search from block 0
      came first and ended at position `c0`. */
  ghost predicate Searched(g: Adj, seen: seq<bool>, post: seq<nat>, c0: nat) {
    && DfsInv(g, seen, post) && NoGrays(seen, post)
    && 0 < c0 <= |post| && post[c0 - 1] == 0
    && (forall i :: 0 <= i < c0 ==> Reaches(g, 0, post[i]))
    && (AllReachable(g) ==> c0 == |post|)
  }

  lemma {:induction false} ReverseForward(g: Adj, post: seq<nat>)
    requires Distinct(post) && Ordered(g, post)
    ensures Forward(g, Reversed(post))
  {
    var n, order := |post|, Reversed(post);
    forall i: nat, j: nat | i < n && j < n && Edge(g, order[i], order[j])
      ensures i < j || Reaches(g, order[j], order[i])
    {
      assert OrderedAt(g, post, n - 1 - i);
      if Before(post, n - 1 - i, order[j]) {
        var k :| 0 <= k < n - 1 - i && post[k] == order[j];
        assert k == n - 1 - j;
      }
    }
  }

  lemma {:induction false} EntryFirst(g: Adj, seen: seq<bool>, post: seq<nat>, c0: nat)
    requires Searched(g, seen, post, c0) && forall x :: 0 <= x < |g| ==> seen[x]
    ensures post[|post| - 1] == 0 <==> AllReachable(g)
  {
    if post[|post| - 1] == 0 {
      assert c0 == |post|;
      forall x: nat | x < |g|
        ensures Reaches(g, 0, x)
      {
        assert seen[x];
        var i :| 0 <= i < |post| && post[i] == x;
      }
    }
  }

  lemma {:induction false} ReverseIsLayout(g: Adj, seen: seq<bool>, post: seq<nat>, c0: nat)
    requires Searched(g, seen, post, c0) && forall x :: 0 <= x < |g| ==> seen[x]
    ensures |post| == |g| && Layout(g, Reversed(post))
  {
    forall x: nat | x < |g|
      ensures x in post
    {
      assert seen[x];
    }
    DistinctFits(post, |g|);
    ReverseForward(g, post);
    EntryFirst(g, seen, post, c0);
    var order := Reversed(post);
    forall i, j | 0 <= i < j < |order|
      ensures order[i] != order[j]
    {
      assert post[|post| - 1 - j] != post[|post| - 1 - i];
    }
  }

  /** The first visit, from the entry block. */
  lemma {:induction false} FirstVisit(g: Adj, seen: seq<bool>, post: seq<nat>)
    requires DfsInv(g, seen, post) && |g| > 0 && |post| > 0 && post[|post| - 1] == 0 && seen[0]
    requires Grown(g, 0, seq(|g|, _ => false), [], seen, post)
    ensures Searched(g, seen, post, |post|)
  {
  }

  /** A later visit, from a block not reached before. */
  lemma {:induction false} LaterVisit(g: Adj, u: nat, seen: seq<bool>, post: seq<nat>, seen': seq<bool>, post': seq<nat>, c0: nat)
    requires Searched(g, seen, post, c0) && u < |g| && !seen[u]
    requires DfsInv(g, seen', post') && Grown(g, u, seen, post, seen', post')
    ensures Searched(g, seen', post', c0)
  {
    forall x | 0 <= x < |seen'| && seen'[x]
      ensures x in post'
    {
      if seen[x] {
        InPrefix(post, post', x);
      }
    }
    assert post'[c0 - 1] == post[c0 - 1];
    forall i | 0 <= i < c0
      ensures Reaches(g, 0, post'[i])
    {
      assert post'[i] == post[i];
    }
    if AllReachable(g) {
      assert seen[0];
      SeenReaches(g, seen, post, 0, u);
      assert false;
    }
  }

  /** Between visits from new roots: the entry block was entered first. */
  ghost predicate Underway(g: Adj, seen: seq<bool>, pre: seq<nat>, post: seq<nat>, c0: nat) {
    Searched(g, seen, post, c0) && Entered(g, seen, pre, post) && |pre| > 0 && pre[0] == 0
  }

  lemma {:induction false} FirstRoot(g: Adj, seen: seq<bool>, pre: seq<nat>, post: seq<nat>)
    requires DfsInv(g, seen, post) && |g| > 0 && |post| > 0 && post[|post| - 1] == 0 && seen[0]
    requires Grown(g, 0, seq(|g|, _ => false), [], seen, post)
    requires Entered(g, seen, pre, post) && Visited(g, 0, false, [], pre)
    ensures Underway(g, seen, pre, post, |post|)
  {
    FirstVisit(g, seen, post);
    assert ([] + [0])[0] == 0;
  }

  /** The first block that has not been seen is the next root. */
  lemma {:induction false} RootComes(g: Adj, seen: seq<bool>, pre: seq<nat>, post: seq<nat>, c0: nat, u: nat)
    requires Underway(g, seen, pre, post, c0) && u < |g| && forall x :: 0 <= x < u ==> seen[x]
    ensures GraysReach(g, seen, post, u) && MayCome(g, pre, u)
  {
    AllExhausted(g, seen, pre, post);
    forall x: nat | x < u
      ensures Before(pre, |pre|, x)
    {
      SeenBefore(seen, pre, x);
    }
  }

  lemma {:induction false} RootDone(g: Adj, u: nat, seen: seq<bool>, pre: seq<nat>, post: seq<nat>, seen': seq<bool>, pre': seq<nat>, post': seq<nat>, c0: nat)
    requires Underway(g, seen, pre, post, c0) && u < |g| && !seen[u]
    requires DfsInv(g, seen', post') && Grown(g, u, seen, post, seen', post')
    requires Entered(g, seen', pre', post') && Visited(g, u, false, pre, pre')
    ensures Underway(g, seen', pre', post', c0)
  {
    LaterVisit(g, u, seen, post, seen', post', c0);
    assert (pre + [u])[0] == pre[0];
  }

  /** One turn of the loop over all blocks: visits the block if it has not been seen. */
  method VisitRoot(blocks: seq<TosBlock>, index: nat, seen: array<bool>, post: array<nat>, count: nat, ghost pre: seq<nat>, ghost c0: nat)
    returns (count': nat, ghost pre': seq<nat>)
    requires index < |blocks| && seen.Length == post.Length == |blocks| && count <= |blocks|
    requires Underway(Graph(blocks), seen[..], pre, post[..count], c0) && forall x :: 0 <= x < index ==> seen[x]
    modifies seen, post
    ensures count' <= |blocks| && Underway(Graph(blocks), seen[..], pre', post[..count'], c0)
    ensures forall x :: 0 <= x <= index ==> seen[x]
  {
    count', pre' := count, pre;
    if !seen[index] {
      ghost var g, s, p := Graph(blocks), seen[..], post[..count];
      RootComes(g, s, pre, p, c0, index);
      count', pre' := VisitBlock(blocks, index, seen, post, count, pre);
      RootDone(g, index, s, pre, p, seen[..], pre', post[..count'], c0);
      assert forall x :: 0 <= x < index ==> s[x];
    }
  }

  /** The search: from the entry block, then from every block not seen yet. */
  method Search(blocks: seq<TosBlock>, seen: array<bool>, post: array<nat>) returns (count: nat, ghost pre: seq<nat>, ghost c0: nat)
    requires |blocks| > 0 && seen.Length == post.Length == |blocks| && forall x :: 0 <= x < |blocks| ==> !seen[x]
    modifies seen, post
    ensures count <= |blocks| && Underway(Graph(blocks), seen[..], pre, post[..count], c0)
    ensures forall x :: 0 <= x < |blocks| ==> seen[x]
  {
    ghost var g := Graph(blocks);
    assert post[..0] == [] && seen[..] == seq(|g|, _ => false);
    NothingEntered(g, seen[..], 0);
    count, pre := VisitBlock(blocks, 0, seen, post, 0, []);
    c0 := count;
    FirstRoot(g, seen[..], pre, post[..count]);
    var index := 0;
    while index < |blocks|
      invariant 0 <= index <= |blocks| && count <= |blocks|
      invariant Underway(g, seen[..], pre, post[..count], c0)
      invariant forall x :: 0 <= x < index ==> seen[x]
    {
      count, pre := VisitRoot(blocks, index, seen, post, count, pre, c0);
      index := index + 1;
    }
  }

  /** The one order that the search gives, backwards. */
  ghost predicate SearchLayout(g: Adj, order: seq<nat>) {
    ForestPostorder(g, 0, Reversed(order))
  }

  /** There is one such layout. */
  lemma {:induction false} LayoutUnique(g: Adj, order: seq<nat>, order': seq<nat>)
    requires SearchLayout(g, order) && SearchLayout(g, order')
    ensures order == order'
  {
    var post, post' := Reversed(order), Reversed(order');
    ForestPostorderUnique(g, 0, post, post');
    assert forall i :: 0 <= i < |order| ==> order[i] == post[|order| - 1 - i] == order'[i];
  }

  lemma {:induction false} SearchGives(g: Adj, seen: seq<bool>, pre: seq<nat>, post: seq<nat>, c0: nat)
    requires Underway(g, seen, pre, post, c0) && forall x :: 0 <= x < |g| ==> seen[x]
    ensures |post| == |g| && Layout(g, Reversed(post)) && SearchLayout(g, Reversed(post))
  {
    ReverseIsLayout(g, seen, post, c0);
    EnteredFinishes(g, seen, pre, post);
    AllEntered(g, seen, pre);
    assert SearchAll(g, 0, pre, post);
    assert Reversed(Reversed(post)) == post;
  }

  lemma {:induction false} AllEntered(g: Adj, seen: seq<bool>, pre: seq<nat>)
    requires |seen| == |g| && Listed(seen, pre) && Distinct(pre) && forall x :: 0 <= x < |g| ==> seen[x]
    ensures |pre| == |g|
  {
    forall x: nat
      ensures x in pre <==> x < |g|
    {
      assert InLog(pre, x) <==> x < |seen| && seen[x];
    }
    assert forall i :: 0 <= i < |pre| ==> pre[i] in pre;
    DistinctFits(pre, |g|);
  }

  lemma {:induction false} NoBlocks(g: Adj)
    requires |g| == 0
    ensures Layout(g, []) && SearchLayout(g, [])
  {
    assert Reversed<nat>([]) == [];
    assert SearchAll(g, 0, [], []);
  }

  method ComputeLayoutOrder(blocks: seq<TosBlock>, order: array<nat>)
    requires order.Length == |blocks|
    modifies order
    ensures Layout(Graph(blocks), order[..]) && SearchLayout(Graph(blocks), order[..])
  {
    if |blocks| == 0 {
      NoBlocks(Graph(blocks));
      assert order[..] == [];
      return;
    }
    var seen := new bool[|blocks|](_ => false);
    var post := new nat[|blocks|](_ => 0);
    var count, pre, c0 := Search(blocks, seen, post);
    ghost var p := post[..count];
    SearchGives(Graph(blocks), seen[..], pre, p, c0);
    var cursor := 0;
    while count != 0
      invariant 0 <= count <= |blocks| && cursor + count == |blocks|
      invariant forall i :: 0 <= i < |blocks| ==> post[i] == p[i]
      invariant forall i :: 0 <= i < cursor ==> order[i] == p[|blocks| - 1 - i]
    {
      count := count - 1;
      order[cursor] := post[count];
      cursor := cursor + 1;
    }
    assert order[..] == Reversed(p);
  }
}
