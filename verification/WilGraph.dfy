/**
 The mutable WIL graph: nodes with input slots and reverse use lists, edited in
 place. Node pointers are indices into the graph's node array (a node's id is
 its index plus one), and a null pointer is `None`.
 */
module WilGraph {
  import opened Wrappers
  import opened Terms

  datatype Type = Void | I1 | I8 | I16 | I32 | I64 | F32 | F64 | Ptr | Control

  datatype EdgeKind = DataEdge | ControlEdge | EffectEdge

  /** `inputs[k]` and `edges[k]` are the two fields of input slot `k`. */
  datatype Node = Node(
    kind: Kind, ty: Type, payload: Payload,
    inputs: seq<Option<nat>>, edges: seq<EdgeKind>, uses: seq<nat>, removed: bool)

  type Nodes = seq<Node>

  // ----- Invariants -----

  /** Slots and uses stay inside the graph. */
  ghost predicate InRange(g: Nodes) {
    && (forall n: nat, k: nat :: 0 <= n < |g| && 0 <= k < |g[n].inputs| && g[n].inputs[k].Some? ==> g[n].inputs[k].value < |g|)
    && (forall n: nat, u: nat :: 0 <= n < |g| && u in g[n].uses ==> u < |g|)
    && (forall n :: 0 <= n < |g| ==> |g[n].edges| == |g[n].inputs|)
  }

  /** How often `x` occurs in `s`. */
  function Count<T(==)>(s: seq<T>, x: T): nat {
    if s == [] then 0 else Count(s[..|s| - 1], x) + (if s[|s| - 1] == x then 1 else 0)
  }

  /** The exact def-use invariant: `u` occurs in the use list of `d` once for
      every slot of `u` that names `d`. */
  ghost predicate DefUse(g: Nodes) {
    && InRange(g)
    && forall d: nat, u: nat :: 0 <= d < |g| && 0 <= u < |g| ==> UsesMatch(g, d, u)
  }

  ghost predicate UsesMatch(g: Nodes, d: nat, u: nat)
    requires d < |g| && u < |g|
  {
    Count(g[d].uses, u) == Count(g[u].inputs, Some(d))
  }

  ghost predicate NoNulls(g: Nodes) {
    forall n: nat, k: nat :: 0 <= n < |g| && 0 <= k < |g[n].inputs| ==> g[n].inputs[k].Some?
  }

  /** Two graphs that agree on everything but the use lists. */
  ghost predicate SameShape(g: Nodes, h: Nodes) {
    |g| == |h| && forall n :: 0 <= n < |g| ==> g[n].(uses := []) == h[n].(uses := [])
  }

  /** `g` with every slot that names `o` made to name `w`. */
  function RedirectSlot(s: Option<nat>, o: nat, w: nat): Option<nat> {
    if s == Some(o) then Some(w) else s
  }

  function RedirectNode(n: Node, o: nat, w: nat): Node {
    n.(inputs := seq(|n.inputs|, k requires 0 <= k < |n.inputs| => RedirectSlot(n.inputs[k], o, w)))
  }

  function Redirect(g: Nodes, o: nat, w: nat): (h: Nodes)
    ensures |h| == |g|
    ensures forall n :: 0 <= n < |g| ==> h[n] == RedirectNode(g[n], o, w)
  {
    seq(|g|, n requires 0 <= n < |g| => RedirectNode(g[n], o, w))
  }

  ghost function RedirectedIf(n: Node, done: bool, o: nat, w: nat): Node {
    (if done then RedirectNode(n, o, w) else n).(uses := [])
  }

  lemma {:induction false} RedirectTwice(n: Node, m: Node, done: bool, o: nat, w: nat)
    requires m.(uses := []) == RedirectedIf(n, done, o, w) && o != w
    ensures RedirectNode(m, o, w).(uses := []) == RedirectedIf(n, true, o, w)
  {
    assert m.inputs == m.(uses := []).inputs;
    assert RedirectNode(m, o, w).inputs == RedirectNode(n, o, w).inputs;
  }

  /** What the graph verifier checks. */
  ghost predicate Verified(g: Nodes) {
    && (forall n: nat, k: nat :: 0 <= n < |g| && 0 <= k < |g[n].inputs| ==> InputVerified(g, n, g[n].inputs[k]))
    && (forall n: nat, j: nat :: 0 <= n < |g| && 0 <= j < |g[n].uses| ==> UseVerified(g, n, g[n].uses[j]))
  }

  predicate InputVerified(g: Nodes, n: nat, input: Option<nat>) {
    input.Some? && input.value < |g| && n in g[input.value].uses
  }

  predicate UseVerified(g: Nodes, n: nat, user: nat) {
    user < |g| && Some(n) in g[user].inputs
  }

  /** The verifier accepts a graph in the def-use invariant exactly when no
      slot is null. */
  lemma {:induction false} VerifiedIffNoNulls(g: Nodes)
    requires DefUse(g)
    ensures Verified(g) <==> NoNulls(g)
  {
    if Verified(g) {
      forall n: nat, k: nat | 0 <= n < |g| && 0 <= k < |g[n].inputs|
        ensures g[n].inputs[k].Some?
      {
        assert InputVerified(g, n, g[n].inputs[k]);
      }
    }
    if NoNulls(g) {
      forall n: nat, k: nat | 0 <= n < |g| && 0 <= k < |g[n].inputs|
        ensures InputVerified(g, n, g[n].inputs[k])
      {
        var d := g[n].inputs[k].value;
        assert g[n].inputs[k] in g[n].inputs;
        assert UsesMatch(g, d, n);
        CountZero(g[n].inputs, Some(d));
        CountZero(g[d].uses, n);
      }
      forall n: nat, j: nat | 0 <= n < |g| && 0 <= j < |g[n].uses|
        ensures UseVerified(g, n, g[n].uses[j])
      {
        var u := g[n].uses[j];
        assert u in g[n].uses;
        assert UsesMatch(g, n, u);
        CountZero(g[u].inputs, Some(n));
        CountZero(g[n].uses, u);
      }
    }
  }

  lemma CountZero<T>(s: seq<T>, x: T)
    ensures Count(s, x) == 0 <==> x !in s
  {
  }

  lemma {:induction false} CountAppend<T>(s: seq<T>, y: T, x: T)
    ensures Count(s + [y], x) == Count(s, x) + (if y == x then 1 else 0)
  {
    assert (s + [y])[..|s|] == s;
  }

  lemma {:induction false} CountRemove<T>(s: seq<T>, k: nat, x: T)
    requires k < |s|
    ensures Count(s, x) == Count(s[..k] + s[k + 1..], x) + (if s[k] == x then 1 else 0)
  {
    var t := s[..k] + s[k + 1..];
    if k == |s| - 1 {
      assert t == s[..|s| - 1];
    } else {
      var front := s[..|s| - 1];
      CountRemove(front, k, x);
      assert t[..|t| - 1] == front[..k] + front[k + 1..];
    }
  }

  lemma {:induction false} CountUpdate<T>(s: seq<T>, k: nat, y: T, x: T)
    requires k < |s|
    ensures Count(s[k := y], x) + (if s[k] == x then 1 else 0) == Count(s, x) + (if y == x then 1 else 0)
  {
    CountRemove(s, k, x);
    CountRemove(s[k := y], k, x);
    assert s[k := y][..k] == s[..k] && s[k := y][k + 1..] == s[k + 1..];
  }

  lemma {:induction false} HeadIn<T>(s: seq<T>)
    ensures s != [] ==> s[0] in s
  {
  }

  /** A node that no slot names has no uses. */
  lemma {:induction false} NoUses(g: Nodes, d: nat)
    requires DefUse(g) && d < |g|
    requires forall u :: 0 <= u < |g| ==> Some(d) !in g[u].inputs
    ensures g[d].uses == []
  {
    forall u: nat
      ensures u !in g[d].uses
    {
      if u < |g| {
        assert UsesMatch(g, d, u);
        CountZero(g[u].inputs, Some(d));
        CountZero(g[d].uses, u);
      }
    }
    HeadIn(g[d].uses);
  }

  /** `g` after appending `user` to the use list of `input`. */
  function UseAdded(g: Nodes, input: Option<nat>, user: nat): Nodes
    requires input.Some? ==> input.value < |g|
  {
    if input.None? then g else g[input.value := g[input.value].(uses := g[input.value].uses + [user])]
  }

  /** `h` is `g` with one occurrence of `user`, if any, gone from the use list of `input`. */
  ghost predicate UseRemoved(g: Nodes, h: Nodes, input: Option<nat>, user: nat) {
    && |h| == |g|
    && (forall d :: 0 <= d < |g| && Some(d) != input ==> h[d] == g[d])
    && (input.Some? && input.value < |g| ==>
          && h[input.value] == g[input.value].(uses := h[input.value].uses)
          && OneLess(g[input.value].uses, h[input.value].uses, user))
  }

  ghost predicate OneLess(before: seq<nat>, after: seq<nat>, user: nat) {
    if user !in before then after == before
    else exists k :: 0 <= k < |before| && before[k] == user && after == before[..k] + before[k + 1..]
  }

  lemma {:induction false} OneLessCount(before: seq<nat>, after: seq<nat>, user: nat, u: nat)
    requires OneLess(before, after, user) && user in before
    ensures Count(before, u) == Count(after, u) + (if u == user then 1 else 0)
    ensures u in after ==> u in before
  {
    var k :| 0 <= k < |before| && before[k] == user && after == before[..k] + before[k + 1..];
    CountRemove(before, k, u);
  }

  lemma {:induction false} InputAdded(g: Nodes, n: nat, input: Option<nat>, edge: EdgeKind, h: Nodes)
    requires DefUse(g) && n < |g|
    requires input.Some? ==> input.value < |g|
    requires h == UseAdded(g[n := g[n].(inputs := g[n].inputs + [input], edges := g[n].edges + [edge])], input, n)
    ensures DefUse(h)
  {
    forall d: nat, u: nat | 0 <= d < |h| && 0 <= u < |h|
      ensures UsesMatch(h, d, u)
    {
      assert UsesMatch(g, d, u);
      CountAppend(g[n].inputs, input, Some(d));
      CountAppend(g[d].uses, n, u);
    }
  }

  /** Moving slot `k` of `n` away from its target and dropping one use there. */
  lemma {:induction false} UseDropped(g: Nodes, n: nat, k: nat, mid: Nodes, d: nat, u: nat)
    requires DefUse(g) && n < |g| && k < |g[n].inputs| && d < |g|
    requires UseRemoved(g, mid, g[n].inputs[k], n)
    ensures u < |g| ==> Count(mid[d].uses, u) + (if u == n && g[n].inputs[k] == Some(d) then 1 else 0) == Count(g[u].inputs, Some(d))
    ensures u in mid[d].uses ==> u < |g|
  {
    var slot := g[n].inputs[k];
    if u < |g| {
      assert UsesMatch(g, d, u);
    }
    if slot == Some(d) {
      assert UsesMatch(g, d, n);
      CountZero(g[n].inputs, slot);
      CountZero(g[d].uses, n);
      OneLessCount(g[d].uses, mid[d].uses, n, u);
    }
  }

  lemma {:induction false} InputReplacedAt(g: Nodes, n: nat, k: nat, input: Option<nat>, mid: Nodes, h: Nodes, d: nat, u: nat)
    requires DefUse(g) && n < |g| && k < |g[n].inputs|
    requires input.Some? ==> input.value < |g|
    requires UseRemoved(g, mid, g[n].inputs[k], n)
    requires h == UseAdded(mid[n := mid[n].(inputs := g[n].inputs[k := input])], input, n)
    requires d < |h| && u < |h|
    ensures UsesMatch(h, d, u)
  {
    UseDropped(g, n, k, mid, d, u);
    CountUpdate(g[n].inputs, k, input, Some(d));
    CountAppend(mid[d].uses, n, u);
    assert h[u].inputs == if u == n then g[n].inputs[k := input] else g[u].inputs;
    assert h[d].uses == if input == Some(d) then mid[d].uses + [n] else mid[d].uses;
  }

  lemma {:induction false} InputReplaced(g: Nodes, n: nat, k: nat, input: Option<nat>, mid: Nodes, h: Nodes)
    requires DefUse(g) && n < |g| && k < |g[n].inputs|
    requires input.Some? ==> input.value < |g|
    requires UseRemoved(g, mid, g[n].inputs[k], n)
    requires h == UseAdded(mid[n := mid[n].(inputs := g[n].inputs[k := input])], input, n)
    ensures DefUse(h)
  {
    forall d: nat, u: nat | 0 <= d < |h| && 0 <= u < |h|
      ensures UsesMatch(h, d, u)
    {
      InputReplacedAt(g, n, k, input, mid, h, d, u);
    }
    forall m: nat, u: nat | 0 <= m < |h| && u in h[m].uses
      ensures u < |h|
    {
      UseDropped(g, n, k, mid, m, u);
    }
  }

  lemma {:induction false} InputRemoved(g: Nodes, n: nat, k: nat, mid: Nodes, h: Nodes)
    requires DefUse(g) && n < |g| && k < |g[n].inputs|
    requires UseRemoved(g, mid, g[n].inputs[k], n)
    requires h == mid[n := mid[n].(inputs := g[n].inputs[..k] + g[n].inputs[k + 1..],
                                   edges := g[n].edges[..k] + g[n].edges[k + 1..])]
    ensures DefUse(h)
  {
    forall d: nat, u: nat | 0 <= d < |h| && 0 <= u < |h|
      ensures UsesMatch(h, d, u)
    {
      UseDropped(g, n, k, mid, d, u);
      CountRemove(g[n].inputs, k, Some(d));
    }
    forall m: nat, u: nat | 0 <= m < |h| && u in h[m].uses
      ensures u < |h|
    {
      UseDropped(g, n, k, mid, m, u);
    }
  }

  // ----- Default types of built nodes -----

  function DefaultType(k: Kind, hint: Type, lhs: Option<Type>): Type {
    if hint != Void then hint
    else if k in {ConstBool, Eq, Ne, Lt, Le, Gt, Ge} then I1
    else if k in {Start, Region, If, Loop, Return, Jump, Proj} then Control
    else if k in {Store, Call, CallIndirect} then Void
    else if k in {Alloca, Load, Extract, Insert, Cast, Bitcast, Select, Phi} then
      if lhs.None? then Ptr else lhs.value
    else if lhs.None? then I32 else lhs.value
  }

  /** The type of the first input, if there is one. */
  function FirstType(g: Nodes, inputs: seq<Option<nat>>): Option<Type>
    requires forall k :: 0 <= k < |inputs| && inputs[k].Some? ==> inputs[k].value < |g|
  {
    if inputs != [] && inputs[0].Some? then Some(g[inputs[0].value].ty) else None
  }

  /** A hint decides; comparisons are booleans and control nodes control;
      arithmetic and data-moving nodes take the type of their first input. */
  lemma {:induction false} DefaultTypes(k: Kind, hint: Type, lhs: Type)
    ensures hint != Void ==> DefaultType(k, hint, Some(lhs)) == hint && DefaultType(k, hint, None) == hint
    ensures k.Eq? || k.Ne? || k.Lt? || k.Le? || k.Gt? || k.Ge? ==> DefaultType(k, Void, Some(lhs)) == I1
    ensures k.Add? || k.Sub? || k.Mul? || k.Div? || k.Mod? || k.And? || k.Or? || k.Xor? || k.Shl? || k.Shr? || k.Neg? || k.Not? || k.Abs? ==>
              DefaultType(k, Void, Some(lhs)) == lhs && DefaultType(k, Void, None) == I32
    ensures k.Load? || k.Alloca? || k.Cast? || k.Bitcast? || k.Select? || k.Phi? || k.Extract? || k.Insert? ==>
              DefaultType(k, Void, Some(lhs)) == lhs && DefaultType(k, Void, None) == Ptr
    ensures k.Start? || k.Region? || k.If? || k.Loop? || k.Return? || k.Jump? || k.Proj? ==> DefaultType(k, Void, Some(lhs)) == Control
    ensures k.Store? || k.Call? || k.CallIndirect? ==> DefaultType(k, Void, Some(lhs)) == Void
  {
  }

  class Graph {
    var nodes: Nodes

    ghost predicate Valid()
      reads this
    {
      DefUse(nodes)
    }

    constructor ()
      ensures Valid() && nodes == []
    {
      nodes := [];
    }

    method CreateNode(kind: Kind, ty: Type, payload: Payload) returns (id: nat)
      requires Valid()
      modifies this
      ensures Valid()
      ensures id == |old(nodes)|
      ensures nodes == old(nodes) + [Node(kind, ty, payload, [], [], [], false)]
    {
      id := |nodes|;
      nodes := nodes + [Node(kind, ty, payload, [], [], [], false)];
      forall d: nat, u: nat | 0 <= d < |nodes| && 0 <= u < |nodes|
        ensures UsesMatch(nodes, d, u)
      {
        if d < id && u < id {
          assert UsesMatch(old(nodes), d, u);
        } else if d < id {
          CountZero(old(nodes)[d].uses, u);
        } else if u < id {
          assert Some(d) !in old(nodes)[u].inputs;
          CountZero(old(nodes)[u].inputs, Some(d));
        }
      }
    }

    method RegisterUse(input: Option<nat>, user: nat)
      requires input.Some? ==> input.value < |nodes|
      modifies this
      ensures nodes == UseAdded(old(nodes), input, user)
    {
      if input.None? {
        return;
      }
      var d := nodes[input.value];
      nodes := nodes[input.value := d.(uses := d.uses + [user])];
    }

    /** Removes the first occurrence of `user`, if any. */
    method UnregisterUse(input: Option<nat>, user: nat)
      requires input.Some? ==> input.value < |nodes|
      modifies this
      ensures UseRemoved(old(nodes), nodes, input, user)
    {
      if input.None? {
        return;
      }
      var d := nodes[input.value];
      var index := 0;
      while index < |d.uses|
        invariant 0 <= index <= |d.uses|
        invariant user !in d.uses[..index]
        invariant nodes == old(nodes)
      {
        if d.uses[index] == user {
          nodes := nodes[input.value := d.(uses := d.uses[..index] + d.uses[index + 1..])];
          return;
        }
        index := index + 1;
      }
      assert d.uses[..|d.uses|] == d.uses;
    }

    method AddInput(n: nat, input: Option<nat>, edge: EdgeKind)
      requires Valid() && n < |nodes|
      requires input.Some? ==> input.value < |nodes|
      modifies this
      ensures Valid()
      ensures SameShape(nodes, old(nodes)[n := old(nodes)[n].(inputs := old(nodes)[n].inputs + [input],
                                                             edges := old(nodes)[n].edges + [edge])])
    {
      var node := nodes[n];
      nodes := nodes[n := node.(inputs := node.inputs + [input], edges := node.edges + [edge])];
      RegisterUse(input, n);
      InputAdded(old(nodes), n, input, edge, nodes);
    }

    /** Ignored when slot `k` does not exist, as in the source. */
    method ReplaceInput(n: nat, k: nat, input: Option<nat>)
      requires Valid() && n < |nodes|
      requires input.Some? ==> input.value < |nodes|
      modifies this
      ensures Valid()
      ensures k >= |old(nodes)[n].inputs| ==> nodes == old(nodes)
      ensures k < |old(nodes)[n].inputs| ==>
                SameShape(nodes, old(nodes)[n := old(nodes)[n].(inputs := old(nodes)[n].inputs[k := input])])
    {
      if k >= |nodes[n].inputs| {
        return;
      }
      UnregisterUse(nodes[n].inputs[k], n);
      ghost var mid := nodes;
      nodes := nodes[n := nodes[n].(inputs := nodes[n].inputs[k := input])];
      RegisterUse(input, n);
      InputReplaced(old(nodes), n, k, input, mid, nodes);
    }

    method RemoveInput(n: nat, k: nat)
      requires Valid() && n < |nodes|
      modifies this
      ensures Valid()
      ensures k >= |old(nodes)[n].inputs| ==> nodes == old(nodes)
      ensures k < |old(nodes)[n].inputs| ==>
                SameShape(nodes, old(nodes)[n := old(nodes)[n].(
                                   inputs := old(nodes)[n].inputs[..k] + old(nodes)[n].inputs[k + 1..],
                                   edges := old(nodes)[n].edges[..k] + old(nodes)[n].edges[k + 1..])])
    {
      if k >= |nodes[n].inputs| {
        return;
      }
      UnregisterUse(nodes[n].inputs[k], n);
      ghost var mid := nodes;
      var node := nodes[n];
      nodes := nodes[n := node.(inputs := node.inputs[..k] + node.inputs[k + 1..],
                                edges := node.edges[..k] + node.edges[k + 1..])];
      InputRemoved(old(nodes), n, k, mid, nodes);
    }

    /** The inner loop of replace-all-uses: redirects the slots of one user. */
    method RedirectUser(user: nat, o: nat, w: nat)
      requires Valid() && user < |nodes| && o < |nodes| && w < |nodes| && o != w
      modifies this
      ensures Valid()
      ensures SameShape(nodes, old(nodes)[user := RedirectNode(old(nodes)[user], o, w)])
    {
      var k := 0;
      while k < |nodes[user].inputs|
        invariant Valid()
        invariant |nodes| == |old(nodes)|
        invariant 0 <= k <= |nodes[user].inputs| == |old(nodes)[user].inputs|
        invariant SameShape(nodes, old(nodes)[user := old(nodes)[user].(inputs := nodes[user].inputs)])
        invariant forall j :: 0 <= j < k ==> nodes[user].inputs[j] == RedirectSlot(old(nodes)[user].inputs[j], o, w)
        invariant forall j :: k <= j < |nodes[user].inputs| ==> nodes[user].inputs[j] == old(nodes)[user].inputs[j]
      {
        if nodes[user].inputs[k] == Some(o) {
          ghost var before := nodes;
          ReplaceInput(user, k, Some(w));
          assert nodes[user].(uses := []).inputs == before[user].inputs[k := Some(w)];
        }
        k := k + 1;
      }
      assert nodes[user].inputs == RedirectNode(old(nodes)[user], o, w).inputs;
    }

    /** Every slot that named `o` names `w` afterwards, nothing else changes,
        and `o` is left without uses. */
    method ReplaceAllUses(o: nat, w: nat)
      requires Valid() && o < |nodes| && w < |nodes|
      modifies this
      ensures Valid()
      ensures o == w ==> nodes == old(nodes)
      ensures o != w ==> SameShape(nodes, Redirect(old(nodes), o, w)) && nodes[o].uses == []
    {
      if o == w {
        return;
      }
      var users := nodes[o].uses;
      var index := 0;
      while index < |users|
        invariant 0 <= index <= |users|
        invariant Valid() && |nodes| == |old(nodes)|
        invariant forall n :: 0 <= n < |nodes| ==>
                    nodes[n].(uses := []) == RedirectedIf(old(nodes)[n], n in users[..index], o, w)
      {
        var user := users[index];
        assert user in old(nodes)[o].uses;
        ghost var before := nodes;
        RedirectUser(user, o, w);
        assert users[..index + 1] == users[..index] + [user];
        RedirectTwice(old(nodes)[user], before[user], user in users[..index], o, w);
        index := index + 1;
      }
      assert users[..|users|] == users;
      forall n: nat | 0 <= n < |nodes|
        ensures nodes[n].(uses := []) == RedirectNode(old(nodes)[n], o, w).(uses := [])
      {
        if n !in users {
          assert UsesMatch(old(nodes), o, n);
          CountZero(old(nodes)[o].uses, n);
          CountZero(old(nodes)[n].inputs, Some(o));
          assert RedirectNode(old(nodes)[n], o, w).inputs == old(nodes)[n].inputs;
        }
      }
      forall u: nat | 0 <= u < |nodes|
        ensures Some(o) !in nodes[u].inputs
      {
        assert nodes[u].(uses := []).inputs == RedirectNode(old(nodes)[u], o, w).inputs;
      }
      NoUses(nodes, o);
    }

    /** Drops the inputs of a node nobody uses and marks it removed; a node
        that still has uses is left alone. */
    method RemoveNode(n: nat)
      requires Valid() && n < |nodes|
      modifies this
      ensures Valid()
      ensures old(nodes)[n].uses != [] ==> nodes == old(nodes)
      ensures old(nodes)[n].uses == [] ==>
                SameShape(nodes, old(nodes)[n := old(nodes)[n].(inputs := [], edges := [], removed := true)])
    {
      if nodes[n].uses != [] {
        return;
      }
      var index := |nodes[n].inputs|;
      while index > 0
        invariant Valid() && |nodes| == |old(nodes)|
        invariant index == |nodes[n].inputs|
        invariant SameShape(nodes, old(nodes)[n := old(nodes)[n].(inputs := nodes[n].inputs, edges := nodes[n].edges)])
      {
        RemoveInput(n, index - 1);
        index := index - 1;
      }
      ghost var before := nodes;
      nodes := nodes[n := nodes[n].(removed := true)];
      forall d: nat, u: nat | 0 <= d < |nodes| && 0 <= u < |nodes|
        ensures UsesMatch(nodes, d, u)
      {
        assert UsesMatch(before, d, u);
      }
    }

    /** Creates a node and adds its inputs in order. */
    method BuildNode(kind: Kind, hint: Type, inputs: seq<Option<nat>>, edges: seq<EdgeKind>) returns (id: nat)
      requires Valid() && |edges| == |inputs|
      requires forall k :: 0 <= k < |inputs| && inputs[k].Some? ==> inputs[k].value < |nodes|
      modifies this
      ensures Valid()
      ensures id == |old(nodes)| && |nodes| == id + 1
      ensures SameShape(nodes[..id], old(nodes))
      ensures nodes[id].kind == kind && nodes[id].payload == NoPayload
      ensures nodes[id].inputs == inputs && nodes[id].edges == edges && !nodes[id].removed
      ensures nodes[id].ty == DefaultType(kind, hint, FirstType(old(nodes), inputs))
    {
      var ty := DefaultType(kind, hint, FirstType(nodes, inputs));
      id := CreateNode(kind, ty, NoPayload);
      var k := 0;
      while k < |inputs|
        invariant 0 <= k <= |inputs|
        invariant Valid() && |nodes| == id + 1
        invariant SameShape(nodes[..id], old(nodes))
        invariant nodes[id].kind == kind && nodes[id].payload == NoPayload
        invariant nodes[id].inputs == inputs[..k] && nodes[id].edges == edges[..k] && nodes[id].ty == ty && !nodes[id].removed
      {
        ghost var before := nodes;
        AddInput(id, inputs[k], edges[k]);
        assert nodes[id].(uses := []).inputs == before[id].inputs + [inputs[k]];
        assert nodes[id].(uses := []).edges == before[id].edges + [edges[k]];
        k := k + 1;
      }
    }

    /** The graph verifier. */
    method Verify() returns (ok: bool)
      requires InRange(nodes)
      ensures ok <==> Verified(nodes)
    {
      var n := 0;
      while n < |nodes|
        invariant 0 <= n <= |nodes|
        invariant forall m, k :: 0 <= m < n && 0 <= k < |nodes[m].inputs| ==> InputVerified(nodes, m, nodes[m].inputs[k])
        invariant forall m, j :: 0 <= m < n && 0 <= j < |nodes[m].uses| ==> UseVerified(nodes, m, nodes[m].uses[j])
      {
        var k := 0;
        while k < |nodes[n].inputs|
          invariant 0 <= k <= |nodes[n].inputs|
          invariant forall j :: 0 <= j < k ==> InputVerified(nodes, n, nodes[n].inputs[j])
        {
          var input := nodes[n].inputs[k];
          if input.None? {
            return false;
          }
          var found := Contains(nodes[input.value].uses, n);
          if !found {
            assert !InputVerified(nodes, n, nodes[n].inputs[k]);
            return false;
          }
          k := k + 1;
        }
        var j := 0;
        while j < |nodes[n].uses|
          invariant 0 <= j <= |nodes[n].uses|
          invariant forall i :: 0 <= i < j ==> UseVerified(nodes, n, nodes[n].uses[i])
        {
          var user := nodes[n].uses[j];
          assert user in nodes[n].uses;
          var found := Contains(nodes[user].inputs, Some(n));
          if !found {
            assert !UseVerified(nodes, n, nodes[n].uses[j]);
            return false;
          }
          j := j + 1;
        }
        n := n + 1;
      }
      ok := true;
    }
  }

  /** The verifier's inner search loop. */
  method Contains<T(==)>(items: seq<T>, item: T) returns (found: bool)
    ensures found <==> item in items
  {
    found := false;
    var index := 0;
    while index < |items|
      invariant 0 <= index <= |items|
      invariant item !in items[..index]
    {
      if items[index] == item {
        return true;
      }
      index := index + 1;
    }
    assert items[..|items|] == items;
  }
}
