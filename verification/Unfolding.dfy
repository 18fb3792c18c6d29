/**
 Acyclic WIL graphs and replace-all-uses. A labelling gives every node the
 finite term it unfolds to; a graph has one exactly when it is acyclic, so
 labelling the graph after an edit proves that the edit made no cycle.
 */
module Unfolding {
  import opened Wrappers
  import opened Values
  import opened Terms
  import opened WilGraph

  /** `T[n]` is node `n` applied to the labels of its inputs. */
  ghost predicate LabelAt(g: Nodes, T: seq<Term>, n: nat)
    requires n < |g| && |T| == |g|
  {
    && T[n].kind == g[n].kind && T[n].payload == g[n].payload
    && |T[n].args| == |g[n].inputs|
    && forall k :: 0 <= k < |g[n].inputs| ==>
         g[n].inputs[k].Some? && g[n].inputs[k].value < |g| && T[n].args[k] == T[g[n].inputs[k].value]
  }

  ghost predicate Labelled(g: Nodes, T: seq<Term>) {
    |T| == |g| && forall n :: 0 <= n < |g| ==> LabelAt(g, T, n)
  }

  ghost predicate Acyclic(g: Nodes) {
    exists T :: Labelled(g, T)
  }

  /** The target of slot `k`, in a graph whose slots are all set. */
  function Input(g: Nodes, n: nat, k: nat): nat
    requires n < |g| && k < |g[n].inputs| && g[n].inputs[k].Some?
  {
    g[n].inputs[k].value
  }

  lemma {:induction false} ShapeLabelled(g: Nodes, h: Nodes, T: seq<Term>)
    requires Labelled(g, T) && SameShape(g, h)
    ensures Labelled(h, T)
  {
    forall n: nat | n < |h|
      ensures LabelAt(h, T, n)
    {
      assert LabelAt(g, T, n);
      assert g[n].(uses := []) == h[n].(uses := []);
      assert g[n].(uses := []).inputs == h[n].(uses := []).inputs;
    }
  }

  /** A graph has at most one labelling. */
  lemma {:induction false} LabelUnique(g: Nodes, T: seq<Term>, U: seq<Term>, n: nat)
    requires Labelled(g, T) && Labelled(g, U) && n < |g|
    ensures T[n] == U[n]
    decreases T[n]
  {
    assert LabelAt(g, T, n) && LabelAt(g, U, n);
    forall k | 0 <= k < |g[n].inputs|
      ensures T[n].args[k] == U[n].args[k]
    {
      LabelUnique(g, T, U, Input(g, n, k));
    }
    assert T[n].args == U[n].args;
  }

  /** `m` is `o` or has `o` below it. */
  ghost predicate Reach(g: Nodes, T: seq<Term>, m: nat, o: nat)
    requires Labelled(g, T) && m < |g|
    decreases T[m]
  {
    m == o || (assert LabelAt(g, T, m);
               exists k: nat :: k < |g[m].inputs| && Reach(g, T, Input(g, m, k), o))
  }

  /** A node no heavier than `o` has no `o` below it. */
  lemma {:induction false} LighterNoReach(g: Nodes, T: seq<Term>, m: nat, o: nat)
    requires Labelled(g, T) && m < |g| && o < |g| && m != o
    requires Weight(T[m]) <= Weight(T[o])
    ensures !Reach(g, T, m, o)
    decreases T[m]
  {
    assert LabelAt(g, T, m);
    forall k: nat | k < |g[m].inputs|
      ensures !Reach(g, T, Input(g, m, k), o)
    {
      ArgLighter(T[m], k);
      LighterNoReach(g, T, Input(g, m, k), o);
    }
  }

  /** Appending nodes does not change what old nodes reach. */
  lemma {:induction false} ReachExtended(g: Nodes, T: seq<Term>, h: Nodes, U: seq<Term>, m: nat, o: nat)
    requires Labelled(g, T) && Labelled(h, U) && m < |g| <= |h|
    requires forall n :: 0 <= n < |g| ==> h[n].inputs == g[n].inputs
    ensures Reach(g, T, m, o) <==> Reach(h, U, m, o)
    decreases T[m]
  {
    assert LabelAt(g, T, m) && LabelAt(h, U, m);
    forall k: nat | k < |g[m].inputs|
      ensures Reach(g, T, Input(g, m, k), o) <==> Reach(h, U, Input(h, m, k), o)
    {
      ReachExtended(g, T, h, U, Input(g, m, k), o);
    }
  }

  // ----- Replace-all-uses -----

  /** The term of `m` once every use of `o` has become a use of a node with term `r`. */
  ghost function NewTerm(g: Nodes, T: seq<Term>, o: nat, r: Term, m: nat): (t: Term)
    requires Labelled(g, T) && m < |g|
    ensures t.kind == T[m].kind && t.payload == T[m].payload && |t.args| == |T[m].args|
    decreases T[m], 1
  {
    assert LabelAt(g, T, m);
    Term(T[m].kind, T[m].payload, seq(|g[m].inputs|, k requires 0 <= k < |g[m].inputs| => NewArg(g, T, o, r, m, k)))
  }

  ghost function NewArg(g: Nodes, T: seq<Term>, o: nat, r: Term, m: nat, k: nat): Term
    requires Labelled(g, T) && m < |g| && k < |g[m].inputs|
    decreases T[m], 0
  {
    assert LabelAt(g, T, m);
    var d := Input(g, m, k);
    if d == o then r else NewTerm(g, T, o, r, d)
  }

  ghost function NewTerms(g: Nodes, T: seq<Term>, o: nat, w: nat): (U: seq<Term>)
    requires Labelled(g, T) && w < |g|
    ensures |U| == |g|
    ensures forall m :: 0 <= m < |g| ==> U[m] == NewTerm(g, T, o, T[w], m)
  {
    seq(|g|, m requires 0 <= m < |g| => NewTerm(g, T, o, T[w], m))
  }

  lemma {:induction false} UnreachedTerm(g: Nodes, T: seq<Term>, o: nat, r: Term, m: nat)
    requires Labelled(g, T) && m < |g| && !Reach(g, T, m, o)
    ensures NewTerm(g, T, o, r, m) == T[m]
    decreases T[m]
  {
    assert LabelAt(g, T, m);
    forall k: nat | k < |g[m].inputs|
      ensures NewArg(g, T, o, r, m, k) == T[m].args[k]
    {
      assert !Reach(g, T, Input(g, m, k), o);
      UnreachedTerm(g, T, o, r, Input(g, m, k));
    }
    assert NewTerm(g, T, o, r, m).args == T[m].args;
  }

  /** Replacing the uses of `o` by `w` keeps an acyclic graph acyclic when `w`
      does not reach `o`. */
  lemma {:induction false} RedirectLabelled(g: Nodes, T: seq<Term>, o: nat, w: nat)
    requires Labelled(g, T) && o < |g| && w < |g| && !Reach(g, T, w, o)
    ensures Labelled(Redirect(g, o, w), NewTerms(g, T, o, w))
  {
    var h, U := Redirect(g, o, w), NewTerms(g, T, o, w);
    UnreachedTerm(g, T, o, T[w], w);
    forall n: nat | n < |g|
      ensures LabelAt(h, U, n)
    {
      assert LabelAt(g, T, n);
      forall k: nat | k < |g[n].inputs|
        ensures h[n].inputs[k].Some? && h[n].inputs[k].value < |h| && U[n].args[k] == U[h[n].inputs[k].value]
      {
        assert U[n].args[k] == NewArg(g, T, o, T[w], n, k);
      }
    }
  }

  /** If `w` reaches `o`, every labelling of the edited graph would put `w`
      strictly below itself. */
  lemma {:induction false} RedirectHeavier(g: Nodes, T: seq<Term>, o: nat, w: nat, U: seq<Term>, m: nat)
    requires Labelled(g, T) && o < |g| && w < |g| && m < |g|
    requires Labelled(Redirect(g, o, w), U)
    requires Reach(g, T, m, o) && m != o
    ensures Weight(U[m]) > Weight(U[w])
    decreases T[m]
  {
    var h := Redirect(g, o, w);
    assert LabelAt(g, T, m) && LabelAt(h, U, m);
    var k: nat :| k < |g[m].inputs| && Reach(g, T, Input(g, m, k), o);
    var d := Input(g, m, k);
    ArgLighter(U[m], k);
    assert h[m].inputs[k] == RedirectSlot(g[m].inputs[k], o, w);
    if d != o {
      RedirectHeavier(g, T, o, w, U, d);
    }
  }

  /** Replace-all-uses keeps an acyclic graph acyclic exactly when the new node
      cannot reach the old one. */
  lemma {:induction false} RedirectAcyclicIff(g: Nodes, T: seq<Term>, o: nat, w: nat)
    requires Labelled(g, T) && o < |g| && w < |g| && o != w
    ensures Acyclic(Redirect(g, o, w)) <==> !Reach(g, T, w, o)
  {
    if Reach(g, T, w, o) {
      forall U | Labelled(Redirect(g, o, w), U)
        ensures false
      {
        RedirectHeavier(g, T, o, w, U, w);
      }
    } else {
      RedirectLabelled(g, T, o, w);
    }
  }

  // ----- What a redirection does to values and weights -----

  /** `t` with lighter arguments, each refining the old one's value. */
  ghost predicate Improves(t: Term, u: Term, sem: Sem) {
    && t.kind == u.kind && t.payload == u.payload && |t.args| == |u.args|
    && forall k :: 0 <= k < |t.args| ==> Better(t.args[k], u.args[k], sem)
  }

  /** `u` weighs no more than `t` and keeps its value wherever that is defined. */
  ghost predicate Better(t: Term, u: Term, sem: Sem) {
    Weight(u) <= Weight(t) && Preserves(t, u, sem)
  }

  ghost predicate Preserves(t: Term, u: Term, sem: Sem) {
    forall env :: Refines(Eval(t, env, sem), Eval(u, env, sem))
  }

  lemma {:induction false} ImprovesBetter(t: Term, u: Term, sem: Sem)
    requires Improves(t, u, sem)
    ensures Better(t, u, sem)
  {
    WeightMonotone(u.args, t.args);
    forall env
      ensures Refines(Eval(t, env, sem), Eval(u, env, sem))
    {
      forall k | 0 <= k < |t.args|
        ensures Refines(EvalArgs(t, env, sem)[k], EvalArgs(u, env, sem)[k])
      {
        assert Better(t.args[k], u.args[k], sem);
      }
      ApplyMonotone(t.kind, t.payload, EvalArgs(t, env, sem), EvalArgs(u, env, sem), env, sem);
    }
  }

  lemma {:induction false} BetterTransitive(t: Term, u: Term, v: Term, sem: Sem)
    requires Better(t, u, sem) && Better(u, v, sem)
    ensures Better(t, v, sem)
  {
    forall env
      ensures Refines(Eval(t, env, sem), Eval(v, env, sem))
    {
      assert Refines(Eval(t, env, sem), Eval(u, env, sem));
      assert Refines(Eval(u, env, sem), Eval(v, env, sem));
    }
  }

  lemma {:induction false} ImprovesTransitive(t: Term, u: Term, v: Term, sem: Sem)
    requires Improves(t, u, sem) && Improves(u, v, sem)
    ensures Improves(t, v, sem)
  {
    forall k | 0 <= k < |t.args|
      ensures Better(t.args[k], v.args[k], sem)
    {
      BetterTransitive(t.args[k], u.args[k], v.args[k], sem);
    }
  }

  lemma {:induction false} BetterReflexive(t: Term, sem: Sem)
    ensures Better(t, t, sem)
  {
  }

  /** Redirecting the uses of `o` to a better term improves every node. */
  lemma {:induction false} RedirectImproves(g: Nodes, T: seq<Term>, o: nat, r: Term, m: nat, sem: Sem)
    requires Labelled(g, T) && o < |g| && m < |g|
    requires Better(T[o], r, sem)
    ensures Improves(T[m], NewTerm(g, T, o, r, m), sem)
    decreases T[m]
  {
    assert LabelAt(g, T, m);
    var t := NewTerm(g, T, o, r, m);
    forall k: nat | k < |g[m].inputs|
      ensures Better(T[m].args[k], t.args[k], sem)
    {
      var d := Input(g, m, k);
      assert t.args[k] == NewArg(g, T, o, r, m, k);
      if d != o {
        RedirectImproves(g, T, o, r, d, sem);
        ImprovesBetter(T[d], t.args[k], sem);
      }
    }
  }

  /** Replacing all uses of `o` by an equal-valued node that cannot reach it
      preserves the value of every node, for every parameter assignment. */
  lemma {:induction false} RedirectPreservesValues(g: Nodes, T: seq<Term>, o: nat, w: nat, sem: Sem, m: nat, env: Env)
    requires Labelled(g, T) && o < |g| && w < |g| && m < |g| && !Reach(g, T, w, o)
    requires Preserves(T[o], T[w], sem)
    ensures Labelled(Redirect(g, o, w), NewTerms(g, T, o, w))
    ensures Refines(Eval(T[m], env, sem), Eval(NewTerms(g, T, o, w)[m], env, sem))
    decreases T[m]
  {
    RedirectLabelled(g, T, o, w);
    assert LabelAt(g, T, m);
    var t := NewTerms(g, T, o, w)[m];
    forall k: nat | k < |g[m].inputs|
      ensures Refines(EvalArgs(T[m], env, sem)[k], EvalArgs(t, env, sem)[k])
    {
      var d := Input(g, m, k);
      assert t.args[k] == NewArg(g, T, o, T[w], m, k);
      if d != o {
        RedirectPreservesValues(g, T, o, w, sem, d, env);
      }
    }
    ApplyMonotone(t.kind, t.payload, EvalArgs(T[m], env, sem), EvalArgs(t, env, sem), env, sem);
  }
}
