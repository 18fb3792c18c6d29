/**
 The rewriting engine: instantiating right-hand sides in the graph, applying
 rules at a node, rewriting a whole subgraph and normalizing it.
 */
module Rewriter {
  import opened Wrappers
  import opened Values
  import opened Terms
  import opened WilGraph
  import opened Unfolding
  import opened Patterns
  import opened Rules

  datatype Strategy = Innermost | Outermost

  /** What the engine needs of a rule: a buildable, bound right-hand side, a
      left-hand side that does not bind the root, a weight drop, and soundness. */
  ghost predicate RuleOk(r: Rule, sem: Sem) {
    && Instantiable(r) && RootFree(r.lhs)
    && Shrinks(r)
    && RuleSound(r, sem)
  }

  /** A right-hand side that can be built from what the left-hand side binds. */
  ghost predicate Instantiable(r: Rule) {
    Buildable(r.rhs) && Vars(r.rhs) <= Vars(r.lhs)
  }

  // ----- How graphs evolve -----

  /** `h` is `g` after edits that only redirected slots and appended nodes,
      and every old node is improved: same value, no more weight. */
  ghost predicate Evolved(g: Nodes, T: seq<Term>, h: Nodes, U: seq<Term>, sem: Sem) {
    |g| == |T| && |h| == |U| && |g| <= |h| && forall m: nat :: m < |g| ==> EvolvedAt(g, T, h, U, m, sem)
  }

  ghost predicate EvolvedAt(g: Nodes, T: seq<Term>, h: Nodes, U: seq<Term>, m: nat, sem: Sem)
    requires m < |g| == |T| && |g| <= |h| == |U|
  {
    |h[m].inputs| == |g[m].inputs| && Improves(T[m], U[m], sem)
  }

  /** Every slot that named `t` still does. */
  ghost predicate KeepsSlots(g: Nodes, h: Nodes, t: nat) {
    MovesSlots(g, h, t, t)
  }

  /** Every slot that named `t` names `w`. */
  ghost predicate MovesSlots(g: Nodes, h: Nodes, t: nat, w: nat) {
    && |g| <= |h|
    && forall m, k :: 0 <= m < |g| && 0 <= k < |g[m].inputs| && g[m].inputs[k] == Some(t) ==>
         k < |h[m].inputs| && h[m].inputs[k] == Some(w)
  }

  lemma {:induction false} EvolvedReflexive(g: Nodes, T: seq<Term>, sem: Sem)
    requires |g| == |T|
    ensures Evolved(g, T, g, T, sem)
  {
    forall m: nat | m < |g|
      ensures EvolvedAt(g, T, g, T, m, sem)
    {
      forall k | 0 <= k < |T[m].args| ensures Better(T[m].args[k], T[m].args[k], sem) {
        BetterReflexive(T[m].args[k], sem);
      }
    }
  }

  lemma {:induction false} EvolvedTransitive(g: Nodes, T: seq<Term>, h: Nodes, U: seq<Term>, i: Nodes, V: seq<Term>, sem: Sem)
    requires Evolved(g, T, h, U, sem) && Evolved(h, U, i, V, sem)
    ensures Evolved(g, T, i, V, sem)
  {
    forall m: nat | m < |g|
      ensures EvolvedAt(g, T, i, V, m, sem)
    {
      assert EvolvedAt(g, T, h, U, m, sem) && EvolvedAt(h, U, i, V, m, sem);
      ImprovesTransitive(T[m], U[m], V[m], sem);
    }
  }

  lemma {:induction false} EvolvedBetter(g: Nodes, T: seq<Term>, h: Nodes, U: seq<Term>, sem: Sem)
    requires Evolved(g, T, h, U, sem)
    ensures forall m :: 0 <= m < |g| ==> Better(T[m], U[m], sem)
  {
    forall m: nat | m < |g|
      ensures Better(T[m], U[m], sem)
    {
      assert EvolvedAt(g, T, h, U, m, sem);
      ImprovesBetter(T[m], U[m], sem);
    }
  }

  // ----- Paths -----

  /** Consecutive nodes of `p` are joined by input slots. */
  ghost predicate Chain(g: Nodes, p: seq<nat>) {
    && (forall i :: 0 <= i < |p| ==> p[i] < |g|)
    && (forall i: nat :: i + 1 < |p| ==> Link(g, p, i))
  }

  ghost predicate Link(g: Nodes, p: seq<nat>, i: nat)
    requires i + 1 < |p| && p[i] < |g|
  {
    Some(p[i + 1]) in g[p[i]].inputs
  }

  /** Weights fall along a chain, so a chain does not repeat its last node. */
  lemma {:induction false} ChainFalls(g: Nodes, T: seq<Term>, p: seq<nat>, i: nat)
    requires Labelled(g, T) && Chain(g, p) && i < |p| - 1
    ensures Weight(T[p[i]]) > Weight(T[p[|p| - 1]])
    decreases |p| - i
  {
    assert LabelAt(g, T, p[i]) && Link(g, p, i);
    var k :| 0 <= k < |g[p[i]].inputs| && g[p[i]].inputs[k] == Some(p[i + 1]);
    ArgLighter(T[p[i]], k);
    if i + 1 < |p| - 1 {
      ChainFalls(g, T, p, i + 1);
    }
  }

  lemma {:induction false} ChainKept(g: Nodes, h: Nodes, p: seq<nat>)
    requires Chain(g, p) && |g| <= |h|
    requires forall i :: 0 <= i < |p| ==> KeepsSlots(g, h, p[i])
    ensures Chain(h, p)
  {
    forall i: nat | i + 1 < |p|
      ensures Link(h, p, i)
    {
      assert Link(g, p, i);
      var k :| 0 <= k < |g[p[i]].inputs| && g[p[i]].inputs[k] == Some(p[i + 1]);
      assert KeepsSlots(g, h, p[i + 1]);
      assert h[p[i]].inputs[k] == Some(p[i + 1]);
    }
  }

  lemma {:induction false} ChainExtended(g: Nodes, p: seq<nat>, n: nat)
    requires Chain(g, p) && p != [] && n < |g| && Some(n) in g[p[|p| - 1]].inputs
    ensures Chain(g, p + [n])
  {
    var q := p + [n];
    forall i: nat | i + 1 < |q|
      ensures Link(g, q, i)
    {
      if i + 1 < |p| {
        assert Link(g, p, i);
      }
    }
  }

  // ----- Fresh nodes -----

  /** Nodes from `base` on only have inputs that are themselves new or in `bound`. */
  ghost predicate FreshOver(g: Nodes, base: nat, bound: set<nat>) {
    forall n, k :: base <= n < |g| && 0 <= k < |g[n].inputs| ==>
      g[n].inputs[k].Some? && (g[n].inputs[k].value >= base || g[n].inputs[k].value in bound)
  }

  /** The nodes that `s` binds to the names in `vars`. */
  ghost function BoundNodes(s: Subst, vars: set<string>): (bound: set<nat>)
    requires forall x :: x in vars ==> NodeOf(s, x).Some?
    ensures forall x :: x in vars ==> NodeOf(s, x).value in bound
  {
    set x | x in vars :: NodeOf(s, x).value
  }

  lemma {:induction false} FreshNoReach(g: Nodes, T: seq<Term>, base: nat, bound: set<nat>, o: nat, m: nat)
    requires Labelled(g, T) && FreshOver(g, base, bound) && o < base && m < |g|
    requires m >= base || m in bound
    requires forall b :: b in bound ==> b < |g| && !Reach(g, T, b, o)
    ensures !Reach(g, T, m, o)
    decreases T[m]
  {
    if m >= base {
      assert LabelAt(g, T, m);
      forall k: nat | k < |g[m].inputs|
        ensures !Reach(g, T, Input(g, m, k), o)
      {
        FreshNoReach(g, T, base, bound, o, Input(g, m, k));
      }
    }
  }

  /** Appending a node with labelled inputs extends the labelling. */
  lemma {:induction false} LabelAppend(g: Nodes, T: seq<Term>, h: Nodes, t: Term)
    requires Labelled(g, T) && |h| == |g| + 1 && SameShape(h[..|g|], g)
    requires t.kind == h[|g|].kind && t.payload == h[|g|].payload && |t.args| == |h[|g|].inputs|
    requires forall k :: 0 <= k < |t.args| ==>
               h[|g|].inputs[k].Some? && h[|g|].inputs[k].value < |g| && t.args[k] == T[h[|g|].inputs[k].value]
    ensures Labelled(h, T + [t])
  {
    forall n: nat | n < |h|
      ensures LabelAt(h, T + [t], n)
    {
      if n < |g| {
        assert LabelAt(g, T, n);
        assert h[..|g|][n].(uses := []) == g[n].(uses := []);
        assert h[n].(uses := []).inputs == g[n].(uses := []).inputs;
      }
    }
  }

  // ----- One rewrite -----

  /** The effect of rewriting node `n` to node `w`. */
  ghost predicate Step(g: Nodes, T: seq<Term>, h: Nodes, U: seq<Term>, n: nat, w: nat, sem: Sem) {
    && Evolved(g, T, h, U, sem)
    && n < |g| && w < |h| && w != n
    && MovesSlots(g, h, n, w)
    && (forall t :: t != n ==> KeepsSlots(g, h, t))
    && Weight(U[w]) < Weight(T[n])
    && Preserves(T[n], U[w], sem)
  }

  /** Building a better node beside `n` and redirecting its uses is a step. */
  lemma {:induction false} StepTaken(g: Nodes, T: seq<Term>, m: Nodes, V: seq<Term>, h: Nodes, n: nat, w: nat, sem: Sem)
    requires Labelled(g, T) && Labelled(m, V) && n < |g| <= |m| && w < |m| && w != n
    requires SameShape(m[..|g|], g) && V[..|g|] == T
    requires SameShape(h, Redirect(m, n, w))
    requires !Reach(m, V, w, n)
    requires Weight(V[w]) < Weight(T[n]) && Preserves(T[n], V[w], sem)
    ensures Labelled(h, NewTerms(m, V, n, w))
    ensures Step(g, T, h, NewTerms(m, V, n, w), n, w, sem)
  {
    var U := NewTerms(m, V, n, w);
    RedirectLabelled(m, V, n, w);
    assert SameShape(Redirect(m, n, w), h);
    ShapeLabelled(Redirect(m, n, w), h, U);
    UnreachedTerm(m, V, n, V[w], w);
    assert V[n] == T[n] by { assert V[..|g|][n] == V[n]; }
    forall i: nat | i < |g|
      ensures |h[i].inputs| == |g[i].inputs| && Improves(T[i], U[i], sem)
      ensures forall k :: 0 <= k < |g[i].inputs| ==> h[i].inputs[k] == RedirectSlot(g[i].inputs[k], n, w)
    {
      assert V[..|g|][i] == V[i];
      RedirectImproves(m, V, n, V[w], i, sem);
      assert m[..|g|][i].(uses := []) == g[i].(uses := []);
      assert m[i].(uses := []).inputs == g[i].(uses := []).inputs;
      assert h[i].(uses := []) == Redirect(m, n, w)[i].(uses := []);
      assert h[i].(uses := []).inputs == RedirectNode(m[i], n, w).inputs;
    }
  }

  class RewriteSystem {
    const graph: Graph
    const rules: seq<Rule>
    const same: Equivalence
    var strategy: Strategy
    var totalRewrites: nat
    var iterations: nat
    var normalForms: nat
    ghost const sem: Sem
    ghost var terms: seq<Term>

    ghost predicate Valid()
      reads this, graph
    {
      && graph.Valid()
      && Labelled(graph.nodes, terms)
      && SoundEquivalence(same, sem)
      && forall i :: 0 <= i < |rules| ==> RuleOk(rules[i], sem)
    }

    constructor (graph: Graph, rules: seq<Rule>, same: Equivalence, ghost terms: seq<Term>, ghost sem: Sem)
      requires graph.Valid() && Labelled(graph.nodes, terms) && SoundEquivalence(same, sem)
      requires forall i :: 0 <= i < |rules| ==> RuleOk(rules[i], sem)
      ensures Valid() && this.graph == graph && this.rules == rules && this.same == same
      ensures this.terms == terms && this.sem == sem && strategy == Innermost && totalRewrites == 0
    {
      this.graph, this.rules, this.same := graph, rules, same;
      this.terms, this.sem := terms, sem;
      strategy, totalRewrites, iterations, normalForms := Innermost, 0, 0, 0;
    }

    /** The graph is well formed and `terms` are its unfoldings. */
    ghost predicate Unfolded()
      reads this, graph
    {
      graph.Valid() && Labelled(graph.nodes, terms)
    }

    /** Creates a constant node. */
    method MakeConst(kind: Kind, ty: Type, payload: Payload) returns (id: nat)
      requires Unfolded() && ((kind == ConstInt && ty == I32) || (kind == ConstBool && ty == I1))
      modifies this`terms, graph
      ensures Unfolded()
      ensures forall bound :: Grew(old(graph.nodes), old(terms), graph.nodes, terms, bound)
      ensures id == |old(graph.nodes)| < |graph.nodes| && terms[id] == Term(kind, payload, [])
    {
      id := graph.CreateNode(kind, ty, payload);
      LabelAppend(old(graph.nodes), old(terms), graph.nodes, Term(kind, payload, []));
      terms := terms + [Term(kind, payload, [])];
    }

    /** Creates an operation node over nodes that are new or bound. */
    method MakeNode(kind: Kind, inputs: seq<Option<nat>>, ghost base: Nodes, ghost first: seq<Term>, ghost bound: set<nat>)
      returns (id: nat)
      requires Unfolded() && Arity(kind).Some?
      requires Grew(base, first, graph.nodes, terms, bound)
      requires forall k :: 0 <= k < |inputs| ==>
                 inputs[k].Some? && inputs[k].value < |graph.nodes| && (inputs[k].value >= |base| || inputs[k].value in bound)
      modifies this`terms, graph
      ensures Unfolded()
      ensures Grew(base, first, graph.nodes, terms, bound)
      ensures SameInputs(old(graph.nodes), graph.nodes)
      ensures id == |old(graph.nodes)| < |graph.nodes| && graph.nodes[id].inputs == inputs
      ensures terms[id] == Term(kind, NoPayload, InputTerms(old(terms), inputs))
    {
      id := graph.BuildNode(kind, HintFor(graph.nodes, kind, inputs), inputs, seq(|inputs|, _ => DataEdge));
      ghost var t := Term(kind, NoPayload, InputTerms(old(terms), inputs));
      NodeMade(base, first, old(graph.nodes), old(terms), graph.nodes, kind, inputs, bound, t);
      terms := terms + [t];
    }

    /** Builds the nodes of a right-hand side. A variable is its bound node, and
        the result is built over the bound nodes of all the pattern's variables
        and over no others. */
    method Instantiate(p: Pattern, s: Subst, ghost bound: set<nat>) returns (id: nat)
      requires Unfolded()
      requires Buildable(p) && Covers(s, Vars(p), terms)
      requires forall x :: x in Vars(p) ==> NodeOf(s, x).value in bound
      modifies this`terms, graph
      ensures Unfolded()
      ensures Grew(old(graph.nodes), old(terms), graph.nodes, terms, bound)
      ensures id < |graph.nodes| && terms[id] == Inst(p, old(terms), s)
      ensures if RootFree(p) then id >= |old(graph.nodes)| else id < |old(graph.nodes)| && id in bound
      ensures forall x :: x in Vars(p) ==> Reach(graph.nodes, terms, id, NodeOf(s, x).value)
      decreases p, 1
    {
      match p
      case Var(x) =>
        id := BoundNode(s, x);
      case Sequence(x) =>
        id := BoundNode(s, x);
      case IntConst(n) =>
        id := MakeConst(ConstInt, I32, IntPayload(n));
      case BoolConst(b) =>
        id := MakeConst(ConstBool, I1, BoolPayload(b));
      case Refinement(base) =>
        id := Instantiate(base, s, bound);
      case NodePat(kind, subs) =>
        var inputs := InstantiateInputs(subs, s, bound);
        ghost var args := InputTerms(terms, inputs);
        ghost var g, T := graph.nodes, terms;
        id := MakeNode(kind, inputs, old(graph.nodes), old(terms), bound);
        assert args == InstAll(subs, old(terms), s);
        forall x | x in Vars(p)
          ensures Reach(graph.nodes, terms, id, NodeOf(s, x).value)
        {
          ReachesAbove(g, T, graph.nodes, terms, subs, s, id, inputs, x);
        }
    }

    method InstantiateInputs(subs: seq<Pattern>, s: Subst, ghost bound: set<nat>) returns (inputs: seq<Option<nat>>)
      requires Unfolded()
      requires BuildableAll(subs) && Covers(s, VarsAll(subs), terms)
      requires forall x :: x in VarsAll(subs) ==> NodeOf(s, x).value in bound
      modifies this`terms, graph
      ensures Unfolded()
      ensures Grew(old(graph.nodes), old(terms), graph.nodes, terms, bound)
      ensures |inputs| == |subs|
      ensures Built(subs, s, old(graph.nodes), old(terms), graph.nodes, terms, inputs, bound)
      decreases subs, 0
    {
      inputs := [];
      var index := 0;
      while index < |subs|
        invariant 0 <= index <= |subs| && |inputs| == index
        invariant Unfolded()
        invariant Grew(old(graph.nodes), old(terms), graph.nodes, terms, bound)
        invariant Built(subs, s, old(graph.nodes), old(terms), graph.nodes, terms, inputs, bound)
      {
        ghost var g, T := graph.nodes, terms;
        InstAllAt(subs, old(terms), s, index);
        InstExtended(subs[index], old(terms), terms, s);
        VarsAt(subs, index);
        var input := Instantiate(subs[index], s, bound);
        GrewMore(old(graph.nodes), old(terms), g, T, graph.nodes, terms, bound);
        BuiltMore(subs, s, old(graph.nodes), old(terms), g, T, graph.nodes, terms, inputs, bound, input);
        inputs := inputs + [Some(input)];
        index := index + 1;
      }
    }

    /** Applies one rule at a node: matches, instantiates the right-hand side,
        and redirects all uses of the node to it. The graph stays acyclic
        exactly when the rule's text allows; a sound rule that makes terms
        lighter takes a value-preserving step. */
    method ApplyRule(r: Rule, n: nat) returns (res: Option<nat>)
      requires Unfolded() && n < |graph.nodes| && Instantiable(r)
      modifies this`terms, this`totalRewrites, graph
      ensures graph.Valid()
      ensures res.None? <==> !old(Applicable(graph.nodes, same, r, n))
      ensures res.None? ==> graph.nodes == old(graph.nodes) && terms == old(terms) && totalRewrites == old(totalRewrites)
      ensures res.Some? ==> totalRewrites == old(totalRewrites) + 1
      ensures res.Some? ==> Replaced(old(graph.nodes), old(terms), graph.nodes, same, r, n, res.value)
      ensures res.Some? ==> (Acyclic(graph.nodes) <==> KeepsAcyclic(r))
      ensures res.Some? && KeepsAcyclic(r) ==> Unfolded()
      ensures res.Some? && RuleOk(r, sem) && SoundOn(same, old(graph.nodes), old(terms), sem) ==>
                Step(old(graph.nodes), old(terms), graph.nodes, terms, n, res.value, sem)
    {
      LabelledSlotsSet(graph.nodes, terms);
      if !r.enabled {
        return None;
      }
      var m := Match(graph.nodes, same, [], r.lhs, Some(n));
      if m.None? {
        return None;
      }
      var w := Rewrite(r, n, m.value);
      totalRewrites := totalRewrites + 1;
      res := Some(w);
    }

    /** Builds the instance for a match and redirects the matched node's uses to it. */
    method Rewrite(r: Rule, n: nat, s: Subst) returns (w: nat)
      requires Unfolded() && n < |graph.nodes| && Instantiable(r) && r.enabled
      requires SlotsSet(graph.nodes) && Match(graph.nodes, same, [], r.lhs, Some(n)) == Some(s)
      modifies this`terms, graph
      ensures graph.Valid()
      ensures Replaced(old(graph.nodes), old(terms), graph.nodes, same, r, n, w)
      ensures Acyclic(graph.nodes) <==> KeepsAcyclic(r)
      ensures KeepsAcyclic(r) ==> Unfolded()
      ensures RuleOk(r, sem) && SoundOn(same, old(graph.nodes), old(terms), sem) ==>
                Step(old(graph.nodes), old(terms), graph.nodes, terms, n, w, sem)
    {
      ghost var g, T := graph.nodes, terms;
      MatchCovers(g, T, same, r, n);
      w := Instantiate(r.rhs, s, BoundNodes(s, Vars(r.rhs)));
      ghost var m, V := graph.nodes, terms;
      graph.ReplaceAllUses(n, w);
      RuleEffect(g, T, m, V, graph.nodes, same, r, n, w, sem);
      terms := TermsAfter(m, V, r, n, w);
    }

    /** Applies the first rule that matches; `which` is its position. */
    method ApplyAt(n: nat) returns (res: Option<nat>, ghost which: nat)
      requires Unfolded() && n < |graph.nodes|
      requires forall i :: 0 <= i < |rules| ==> Instantiable(rules[i])
      modifies this`terms, this`totalRewrites, graph
      ensures graph.Valid()
      ensures res.None? <==> old(NormalAt(graph.nodes, same, rules, n))
      ensures res.None? ==> graph.nodes == old(graph.nodes) && terms == old(terms) && totalRewrites == old(totalRewrites)
      ensures res.Some? ==> totalRewrites == old(totalRewrites) + 1
      ensures res.Some? ==>
                && which < |rules| && old(NormalAt(graph.nodes, same, rules[..which], n))
                && Replaced(old(graph.nodes), old(terms), graph.nodes, same, rules[which], n, res.value)
                && (Acyclic(graph.nodes) <==> KeepsAcyclic(rules[which]))
                && (KeepsAcyclic(rules[which]) ==> Unfolded())
      ensures old(Valid()) ==> Valid()
      ensures old(Valid()) && res.Some? ==> Step(old(graph.nodes), old(terms), graph.nodes, terms, n, res.value, sem)
    {
      var index := 0;
      which := 0;
      while index < |rules|
        invariant 0 <= index <= |rules|
        invariant Unfolded() && graph.nodes == old(graph.nodes) && terms == old(terms) && totalRewrites == old(totalRewrites)
        invariant forall i :: 0 <= i < index ==> !Applicable(old(graph.nodes), same, rules[i], n)
      {
        res := ApplyRule(rules[index], n);
        if res.Some? {
          which := index;
          return;
        }
        index := index + 1;
      }
      res := None;
    }

    /** Rewrites below each input of `n` in turn. `path` leads down to `n`; no
        slot that names a node of the path or `n` itself is disturbed. */
    method RewriteInputs(n: nat, ghost path: seq<nat>) returns (ghost passes: seq<Pass>)
      requires Valid() && n < |graph.nodes| && Chain(graph.nodes, path + [n])
      modifies this`terms, this`totalRewrites, graph
      ensures Valid()
      ensures InputsKept(old(graph.nodes), old(terms), graph.nodes, terms, path + [n], n, totalRewrites - old(totalRewrites), sem)
      ensures InputsPassed(passes, same, rules, strategy, old(graph.nodes), graph.nodes, n)
      ensures totalRewrites == old(totalRewrites) + RewritesOf(passes)
      ensures totalRewrites == old(totalRewrites) ==>
                graph.nodes == old(graph.nodes) && InputsNormal(graph.nodes, same, rules, n, |graph.nodes[n].inputs|)
      decreases Weight(terms[n]), 2
    {
      ghost var g, T, first := graph.nodes, terms, totalRewrites;
      InputsStart(g, T, path, n, same, rules, strategy, sem);
      passes := InputLoop(n, path);
      InputsEnd(passes, same, rules, strategy, g, T, graph.nodes, n, totalRewrites - first);
    }

    /** The loop over the inputs. */
    method InputLoop(n: nat, ghost path: seq<nat>) returns (ghost passes: seq<Pass>)
      requires Valid() && n < |graph.nodes| && Chain(graph.nodes, path + [n])
      requires InputsKept(graph.nodes, terms, graph.nodes, terms, path + [n], n, 0, sem)
      requires InputsDone([], same, rules, strategy, graph.nodes, graph.nodes, n, 0, 0)
      modifies this`terms, this`totalRewrites, graph
      ensures Valid()
      ensures InputsKept(old(graph.nodes), old(terms), graph.nodes, terms, path + [n], n, totalRewrites - old(totalRewrites), sem)
      ensures InputsDone(passes, same, rules, strategy, old(graph.nodes), graph.nodes, n, |old(graph.nodes)[n].inputs|, totalRewrites - old(totalRewrites))
      decreases Weight(terms[n]), 1
    {
      ghost var g, T, first := graph.nodes, terms, totalRewrites;
      passes := [];
      var index := 0;
      while index < |graph.nodes[n].inputs|
        invariant Valid() && n < |graph.nodes| && index <= |g[n].inputs| == |graph.nodes[n].inputs|
        invariant InputsKept(g, T, graph.nodes, terms, path + [n], n, totalRewrites - first, sem)
        invariant InputsDone(passes, same, rules, strategy, g, graph.nodes, n, index, totalRewrites - first)
      {
        passes := RewriteInput(n, path, index, g, T, totalRewrites - first, passes);
        index := index + 1;
      }
    }

    /** One turn of the loop: rewrites below input `index` and stores what replaces it. */
    method RewriteInput(n: nat, ghost path: seq<nat>, index: nat, ghost g: Nodes, ghost T: seq<Term>, ghost count: int, ghost passes: seq<Pass>)
      returns (ghost passes': seq<Pass>)
      requires Valid() && Labelled(g, T) && Chain(g, path + [n]) && n < |graph.nodes| && index < |graph.nodes[n].inputs|
      requires InputsKept(g, T, graph.nodes, terms, path + [n], n, count, sem)
      requires InputsDone(passes, same, rules, strategy, g, graph.nodes, n, index, count)
      modifies this`terms, this`totalRewrites, graph
      ensures Valid()
      ensures |graph.nodes| >= |g| && |graph.nodes[n].inputs| == |g[n].inputs|
      ensures InputsKept(g, T, graph.nodes, terms, path + [n], n, count + (totalRewrites - old(totalRewrites)), sem)
      ensures InputsDone(passes', same, rules, strategy, g, graph.nodes, n, index + 1, count + (totalRewrites - old(totalRewrites)))
      decreases Weight(T[n]), 0
    {
      ghost var m, V, line, before := graph.nodes, terms, path + [n], totalRewrites;
      assert LabelAt(m, V, n);
      assert EvolvedAt(g, T, m, V, n, sem);
      var child := graph.nodes[n].inputs[index].value;
      DescendInto(g, m, V, path, n, index);
      var replacement;
      ghost var pass;
      replacement, pass := ApplyRecursive(child, line);
      ghost var h, U := graph.nodes, terms;
      ChildDrop(m, V, h, U, n, index, child, replacement, totalRewrites - before, sem);
      WriteBack(n, index, replacement);
      KeptMore(g, T, m, V, h, graph.nodes, U, line, n, count, totalRewrites - before, sem);
      InputDone(passes, same, rules, strategy, g, m, graph.nodes, n, index, count, pass);
      passes' := passes + [pass];
    }

    /** Stores a replacement in a slot, where redirecting its uses has already put it. */
    method WriteBack(n: nat, index: nat, replacement: Option<nat>)
      requires Valid() && n < |graph.nodes| && index < |graph.nodes[n].inputs|
      requires replacement.Some? ==> graph.nodes[n].inputs[index] == replacement
      modifies graph
      ensures Valid() && SameShape(old(graph.nodes), graph.nodes) && Follows(old(graph.nodes), graph.nodes, replacement)
    {
      ghost var h := graph.nodes;
      if replacement.Some? {
        assert LabelAt(h, terms, n);
        graph.ReplaceInput(n, index, replacement);
        SlotUnchanged(h, graph.nodes, n, index, replacement);
        ShapeLabelled(h, graph.nodes, terms);
      }
    }

    /** Rewrites `n` itself, after `count` rewrites below it have led here from
        the graph `g`. */
    method ApplyHere(n: nat, ghost path: seq<nat>, ghost g: Nodes, ghost T: seq<Term>, ghost count: nat) returns (res: Option<nat>)
      requires Valid() && n < |g| && Evolved(g, T, graph.nodes, terms, sem) && Chain(graph.nodes, path + [n])
      requires forall t :: t in path + [n] ==> KeepsSlots(g, graph.nodes, t)
      requires Weight(terms[n]) + count <= Weight(T[n])
      modifies this`terms, this`totalRewrites, graph
      ensures Valid() && Evolved(g, T, graph.nodes, terms, sem)
      ensures forall t :: t in path ==> KeepsSlots(g, graph.nodes, t)
      ensures Outcome(g, T, graph.nodes, terms, n, res, count + (totalRewrites - old(totalRewrites)), sem)
      ensures AppliedFirst(old(graph.nodes), graph.nodes, same, rules, n, res)
      ensures res.None? ==> terms == old(terms) && totalRewrites == old(totalRewrites)
      ensures res.Some? ==> totalRewrites == old(totalRewrites) + 1
    {
      ghost var m, V, line := graph.nodes, terms, path + [n];
      assert line[|path|] == n && forall t :: t in path ==> t in line;
      ghost var which;
      res, which := ApplyAt(n);
      if res.Some? {
        StepOutcome(g, T, m, V, graph.nodes, terms, n, res.value, path, count, sem);
        FirstApplied(m, V, graph.nodes, same, rules, n, res.value, which);
      }
    }

    /** Rewrites the subgraph below `n` once over, and `n` itself; returns the
        node that replaces `n`, if it was rewritten. The pass visits every input
        of every node in order; one that rewrites nothing finds no rule that
        matches anywhere below. */
    method ApplyRecursive(n: nat, ghost path: seq<nat>) returns (res: Option<nat>, ghost pass: Pass)
      requires Valid() && n < |graph.nodes| && Chain(graph.nodes, path + [n])
      modifies this`terms, this`totalRewrites, graph
      ensures Valid() && Evolved(old(graph.nodes), old(terms), graph.nodes, terms, sem)
      ensures forall t :: t in path ==> KeepsSlots(old(graph.nodes), graph.nodes, t)
      ensures Outcome(old(graph.nodes), old(terms), graph.nodes, terms, n, res, totalRewrites - old(totalRewrites), sem)
      ensures res.None? && strategy == Innermost ==> NormalAt(graph.nodes, same, rules, n)
      ensures Passed(pass, same, rules, strategy) && pass.node == n && pass.res == res
      ensures pass.start == old(graph.nodes) && pass.end == graph.nodes
      ensures totalRewrites == old(totalRewrites) + Rewrites(pass)
      ensures totalRewrites == old(totalRewrites) ==>
                graph.nodes == old(graph.nodes) && NormalBelow(graph.nodes, same, rules, n)
      decreases Weight(terms[n]), 3
    {
      ghost var g, T, count := graph.nodes, terms, totalRewrites;
      ghost var passes := [];
      NothingYet(g, T, path + [n], sem);
      if strategy == Innermost {
        passes := RewriteInputs(n, path);
        ChainKept(g, graph.nodes, path + [n]);
      }
      ghost var mid := graph.nodes;
      res := ApplyHere(n, path, g, T, totalRewrites - count);
      if strategy != Innermost {
        mid := graph.nodes;
        if res.None? {
          passes := RewriteInputs(n, path);
          InputsOutcome(g, T, graph.nodes, terms, n, path, totalRewrites - count, sem);
        }
      }
      pass := Pass(n, g, passes, mid, graph.nodes, res);
      QuietPass(pass, same, rules, strategy, T);
    }

    /** One pass from the current root, after passes that each replaced theirs. */
    method OnePass(current: nat, ghost limit: nat, ghost g: Nodes, ghost T: seq<Term>, ghost root: nat, ghost passes: seq<Pass>, ghost count: int)
      returns (replacement: Option<nat>, ghost passes': seq<Pass>)
      requires Valid() && Progress(g, T, root, graph.nodes, terms, current, passes, same, rules, strategy, count, sem)
      requires AllReplaced(passes, |passes|) && |passes| < limit
      modifies this`terms, this`totalRewrites, graph
      ensures Valid() && |passes'| == |passes| + 1 && passes'[|passes|].res == replacement
      ensures Progress(g, T, root, graph.nodes, terms, if replacement.Some? then replacement.value else current, passes',
                       same, rules, strategy, count + (totalRewrites - old(totalRewrites)), sem)
      ensures if replacement.Some? then AllReplaced(passes', |passes'|) else Stopped(passes', limit)
      ensures replacement.None? && strategy == Innermost ==> NormalAt(graph.nodes, same, rules, current)
      ensures replacement.None? && Rewrites(passes'[|passes|]) == 0 ==> NormalBelow(graph.nodes, same, rules, current)
    {
      ghost var h, U := graph.nodes, terms;
      assert [] + [current] == [current];
      ghost var pass;
      replacement, pass := ApplyRecursive(current, []);
      ProgressMore(g, T, root, h, U, current, passes, same, rules, strategy, pass, graph.nodes, terms, sem);
      StoppedMore(passes, pass, limit);
      passes' := passes + [pass];
    }

    /** Rewrites from the root until the root stays, at most `maxIterations`
        times; returns the final root. `passes` are the passes made. */
    method Normalize(root: nat, maxIterations: nat) returns (current: nat, ghost passes: seq<Pass>)
      requires Valid() && root < |graph.nodes|
      modifies this`terms, this`totalRewrites, graph
      ensures Valid() && Evolved(old(graph.nodes), old(terms), graph.nodes, terms, sem)
      ensures forall m :: 0 <= m < |old(graph.nodes)| ==> Better(old(terms)[m], terms[m], sem)
      ensures current < |graph.nodes|
      ensures Preserves(old(terms[root]), terms[current], sem)
      ensures totalRewrites >= old(totalRewrites)
      ensures Weight(terms[current]) + (totalRewrites - old(totalRewrites)) <= old(Weight(terms[root]))
      ensures maxIterations >= old(Weight(terms[root])) && strategy == Innermost ==>
                NormalAt(graph.nodes, same, rules, current)
      ensures PassesFrom(passes, same, rules, strategy, old(graph.nodes), root, graph.nodes, current)
      ensures Stopped(passes, maxIterations)
      ensures totalRewrites == old(totalRewrites) + RewritesOf(passes)
      ensures passes != [] && Rewrites(passes[|passes| - 1]) == 0 ==> NormalBelow(graph.nodes, same, rules, current)
    {
      ghost var g, T := graph.nodes, terms;
      current, passes := NormalizeLoop(root, maxIterations);
      EvolvedBetter(g, T, graph.nodes, terms, sem);
      LoopEnded(passes, maxIterations, Weight(T[root]), Weight(terms[current]));
    }

    method NormalizeLoop(root: nat, maxIterations: nat) returns (current: nat, ghost passes: seq<Pass>)
      requires Valid() && root < |graph.nodes|
      modifies this`terms, this`totalRewrites, graph
      ensures Valid() && Stopped(passes, maxIterations)
      ensures Progress(old(graph.nodes), old(terms), root, graph.nodes, terms, current, passes, same, rules, strategy,
                       totalRewrites - old(totalRewrites), sem)
      ensures LastStayed(passes) && strategy == Innermost ==> NormalAt(graph.nodes, same, rules, current)
      ensures LastStayed(passes) && Rewrites(passes[|passes| - 1]) == 0 ==> NormalBelow(graph.nodes, same, rules, current)
    {
      current := root;
      passes := [];
      ghost var g, T, first := graph.nodes, terms, totalRewrites;
      ProgressStart(g, T, root, same, rules, strategy, sem);
      var iteration := 0;
      while iteration < maxIterations
        invariant Valid() && iteration <= maxIterations && |passes| == iteration && AllReplaced(passes, iteration)
        invariant Progress(g, T, root, graph.nodes, terms, current, passes, same, rules, strategy, totalRewrites - first, sem)
      {
        var replacement;
        replacement, passes := OnePass(current, maxIterations, g, T, root, passes, totalRewrites - first);
        if replacement.None? {
          return;
        }
        current := replacement.value;
        iteration := iteration + 1;
      }
    }

    /** The same loop with its statistics, leaving the root to the caller. */
    method ApplyToFixpoint(root: nat, maxIterations: nat) returns (ghost passes: seq<Pass>, ghost current: nat)
      requires Valid() && root < |graph.nodes|
      modifies this`terms, this`totalRewrites, this`iterations, this`normalForms, graph
      ensures Valid() && Evolved(old(graph.nodes), old(terms), graph.nodes, terms, sem)
      ensures PassesFrom(passes, same, rules, strategy, old(graph.nodes), root, graph.nodes, current)
      ensures Stopped(passes, maxIterations) && iterations == old(iterations) + |passes|
      ensures totalRewrites == old(totalRewrites) + RewritesOf(passes)
      ensures normalForms == old(normalForms) + (if passes != [] && passes[|passes| - 1].res.None? then 1 else 0)
      ensures passes != [] && Rewrites(passes[|passes| - 1]) == 0 ==> NormalBelow(graph.nodes, same, rules, current)
      ensures maxIterations >= old(Weight(terms[root])) ==> normalForms == old(normalForms) + 1
    {
      var node: nat := root;
      current, passes := root, [];
      ghost var g, T, first := graph.nodes, terms, totalRewrites;
      ProgressStart(g, T, root, same, rules, strategy, sem);
      var iteration := 0;
      while iteration < maxIterations
        invariant Valid() && iteration <= maxIterations && |passes| == iteration && AllReplaced(passes, iteration)
        invariant iterations == old(iterations) + iteration && normalForms == old(normalForms) && node == current
        invariant Progress(g, T, root, graph.nodes, terms, current, passes, same, rules, strategy, totalRewrites - first, sem)
      {
        iterations := iterations + 1;
        var replacement;
        replacement, passes := OnePass(node, maxIterations, g, T, root, passes, totalRewrites - first);
        if replacement.None? {
          normalForms := normalForms + 1;
          return;
        }
        node := replacement.value;
        current := node;
        iteration := iteration + 1;
      }
      LoopEnded(passes, maxIterations, Weight(T[root]), Weight(terms[current]));
    }
  }

  /** A rule fires at `n`. */
  ghost predicate Applicable(g: Nodes, same: Equivalence, r: Rule, n: nat)
    requires n < |g|
  {
    r.enabled && SlotsIn(g) && Match(g, same, [], r.lhs, Some(n)).Some?
  }

  /** No enabled rule matches at `n`. */
  ghost predicate NormalAt(g: Nodes, same: Equivalence, rules: seq<Rule>, n: nat)
    requires n < |g|
  {
    forall i :: 0 <= i < |rules| ==> !Applicable(g, same, rules[i], n)
  }

  // ----- What a pass does -----

  /** One pass over `node` and what is below it, from the graph `start` to `end`:
      a pass over each input, and the first rule that matches at `node`, whichever
      the strategy puts first; `mid` is the graph between the two. */
  datatype Pass = Pass(node: nat, start: Nodes, inputs: seq<Pass>, mid: Nodes, end: Nodes, res: Option<nat>)

  /** No rule matches at `n` or anything below it. */
  ghost predicate NormalBelow(g: Nodes, same: Equivalence, rules: seq<Rule>, n: nat) {
    forall T, m: nat :: Labelled(g, T) && n < |g| && m < |g| && Reach(g, T, n, m) ==> NormalAt(g, same, rules, m)
  }

  /** The first rule that matches at `n` has been applied, or none matches. */
  ghost predicate AppliedFirst(g: Nodes, h: Nodes, same: Equivalence, rules: seq<Rule>, n: nat, res: Option<nat>) {
    && n < |g|
    && if res.None? then NormalAt(g, same, rules, n) && h == g
       else exists which: nat, T :: AppliedAt(g, T, h, same, rules, n, res.value, which)
  }

  ghost predicate AppliedAt(g: Nodes, T: seq<Term>, h: Nodes, same: Equivalence, rules: seq<Rule>, n: nat, w: nat, which: nat) {
    && n < |g| && which < |rules| && NormalAt(g, same, rules[..which], n)
    && Labelled(g, T) && Replaced(g, T, h, same, rules[which], n, w)
  }

  lemma {:induction false} FirstApplied(g: Nodes, T: seq<Term>, h: Nodes, same: Equivalence, rules: seq<Rule>, n: nat, w: nat, which: nat)
    requires AppliedAt(g, T, h, same, rules, n, w, which)
    ensures AppliedFirst(g, h, same, rules, n, Some(w))
  {
  }

  /** The next graph: writing the replacement back into its slot may reorder uses. */
  ghost predicate Follows(g: Nodes, h: Nodes, res: Option<nat>) {
    if res.None? then h == g else SameShape(h, g)
  }

  ghost predicate Passed(d: Pass, same: Equivalence, rules: seq<Rule>, strategy: Strategy)
    decreases d, 3
  {
    && d.node < |d.start|
    && if strategy == Innermost then
         InputsPassed(d.inputs, same, rules, strategy, d.start, d.mid, d.node)
         && AppliedFirst(d.mid, d.end, same, rules, d.node, d.res)
       else
         AppliedFirst(d.start, d.mid, same, rules, d.node, d.res)
         && if d.res.Some? then d.inputs == [] && d.end == d.mid
            else InputsPassed(d.inputs, same, rules, strategy, d.mid, d.end, d.node)
  }

  /** A pass over every input of `n`, in order. */
  ghost predicate InputsPassed(ps: seq<Pass>, same: Equivalence, rules: seq<Rule>, strategy: Strategy, g: Nodes, h: Nodes, n: nat)
    decreases ps, 2
  {
    n < |g| && |ps| == |g[n].inputs| && AllPassed(ps, same, rules, strategy) && LinkedTo(ps, g, h, n, |ps|)
  }

  ghost predicate AllPassed(ps: seq<Pass>, same: Equivalence, rules: seq<Rule>, strategy: Strategy)
    decreases ps, 1
  {
    forall i: nat {:trigger PassedAt(ps, i, same, rules, strategy)} :: i < |ps| ==> PassedAt(ps, i, same, rules, strategy)
  }

  ghost predicate PassedAt(ps: seq<Pass>, i: nat, same: Equivalence, rules: seq<Rule>, strategy: Strategy)
    requires i < |ps|
    decreases ps, 0
  {
    Passed(ps[i], same, rules, strategy)
  }

  /** The first `k` passes are over the first `k` inputs of `n`, each from the
      graph that the last one left. */
  ghost predicate LinkedTo(ps: seq<Pass>, g: Nodes, h: Nodes, n: nat, k: nat)
    requires k <= |ps|
    decreases k
  {
    if k == 0 then h == g
    else
      var last := ps[k - 1];
      && Follows(last.end, h, last.res)
      && n < |last.start| && k <= |last.start[n].inputs| && last.start[n].inputs[k - 1] == Some(last.node)
      && LinkedTo(ps, g, last.start, n, k - 1)
  }

  /** How many rewrites a pass makes. */
  ghost function Rewrites(d: Pass): nat
    decreases d, 1
  {
    RewritesAll(d.inputs, |d.inputs|) + (if d.res.Some? then 1 else 0)
  }

  ghost function RewritesAll(ps: seq<Pass>, n: nat): nat
    requires n <= |ps|
    decreases ps, 0, n
  {
    if n == 0 then 0 else RewritesAll(ps, n - 1) + Rewrites(ps[n - 1])
  }

  lemma {:induction false} RewritesPrefix(ps: seq<Pass>, d: Pass, k: nat)
    requires k <= |ps|
    ensures RewritesAll(ps + [d], k) == RewritesAll(ps, k)
  {
    if k > 0 {
      RewritesPrefix(ps, d, k - 1);
    }
  }

  lemma {:induction false} AllPassedMore(ps: seq<Pass>, d: Pass, same: Equivalence, rules: seq<Rule>, strategy: Strategy)
    requires AllPassed(ps, same, rules, strategy) && Passed(d, same, rules, strategy)
    ensures AllPassed(ps + [d], same, rules, strategy)
  {
    forall i: nat | i < |ps + [d]|
      ensures PassedAt(ps + [d], i, same, rules, strategy)
    {
      if i < |ps| {
        assert PassedAt(ps, i, same, rules, strategy);
      }
    }
  }

  lemma {:induction false} LinkedPrefix(ps: seq<Pass>, d: Pass, g: Nodes, h: Nodes, n: nat, k: nat)
    requires k <= |ps| && LinkedTo(ps, g, h, n, k)
    ensures LinkedTo(ps + [d], g, h, n, k)
    decreases k
  {
    if k > 0 {
      LinkedPrefix(ps, d, g, ps[k - 1].start, n, k - 1);
    }
  }

  /** What rewriting below the inputs of `n`, the last node of `line`, has kept. */
  ghost predicate InputsKept(g: Nodes, T: seq<Term>, h: Nodes, U: seq<Term>, line: seq<nat>, n: nat, count: int, sem: Sem) {
    && Evolved(g, T, h, U, sem) && (forall t :: t in line ==> KeepsSlots(g, h, t))
    && n < |g| && n in line && Weight(U[n]) + count <= Weight(T[n])
  }

  /** The passes made over the first `k` inputs, with `count` rewrites. */
  ghost predicate InputsDone(ps: seq<Pass>, same: Equivalence, rules: seq<Rule>, strategy: Strategy, g: Nodes, h: Nodes, n: nat, k: nat, count: int) {
    |ps| == k && count == RewritesAll(ps, k) && AllPassed(ps, same, rules, strategy) && LinkedTo(ps, g, h, n, k)
  }

  ghost function RewritesOf(ps: seq<Pass>): nat {
    RewritesAll(ps, |ps|)
  }

  lemma {:induction false} DescendInto(g: Nodes, m: Nodes, V: seq<Term>, path: seq<nat>, n: nat, k: nat)
    requires Chain(g, path + [n]) && Labelled(m, V) && (forall t :: t in path + [n] ==> KeepsSlots(g, m, t))
    requires |g| <= |m| && n < |m| && k < |m[n].inputs| && m[n].inputs[k].Some? && m[n].inputs[k].value < |m|
    ensures Chain(m, path + [n] + [m[n].inputs[k].value]) && Weight(V[m[n].inputs[k].value]) < Weight(V[n])
  {
    var line := path + [n];
    assert line[|path|] == n;
    ChainKept(g, m, line);
    assert m[n].inputs[k] in m[n].inputs;
    ChainExtended(m, line, m[n].inputs[k].value);
    assert LabelAt(m, V, n);
    ArgLighter(V[n], k);
  }

  lemma {:induction false} InputsStart(g: Nodes, T: seq<Term>, path: seq<nat>, n: nat, same: Equivalence, rules: seq<Rule>, strategy: Strategy, sem: Sem)
    requires |g| == |T| && n < |g|
    ensures InputsKept(g, T, g, T, path + [n], n, 0, sem) && InputsDone([], same, rules, strategy, g, g, n, 0, 0)
  {
    assert (path + [n])[|path|] == n;
    NothingYet(g, T, path + [n], sem);
  }

  lemma {:induction false} InputsEnd(ps: seq<Pass>, same: Equivalence, rules: seq<Rule>, strategy: Strategy, g: Nodes, T: seq<Term>, h: Nodes, n: nat, count: int)
    requires n < |g| && Labelled(g, T) && InputsDone(ps, same, rules, strategy, g, h, n, |g[n].inputs|, count)
    ensures InputsPassed(ps, same, rules, strategy, g, h, n) && count == RewritesOf(ps)
    ensures count == 0 ==> h == g && InputsNormal(g, same, rules, n, |g[n].inputs|)
  {
    QuietInputs(ps, same, rules, strategy, g, T, h, n);
  }

  lemma {:induction false} InputDone(ps: seq<Pass>, same: Equivalence, rules: seq<Rule>, strategy: Strategy, g: Nodes, m: Nodes, h: Nodes, n: nat, k: nat, count: int, d: Pass)
    requires InputsDone(ps, same, rules, strategy, g, m, n, k, count)
    requires Passed(d, same, rules, strategy) && d.start == m && Follows(d.end, h, d.res)
    requires n < |m| && k < |m[n].inputs| && m[n].inputs[k] == Some(d.node)
    ensures InputsDone(ps + [d], same, rules, strategy, g, h, n, k + 1, count + Rewrites(d))
  {
    AllPassedMore(ps, d, same, rules, strategy);
    LinkedPrefix(ps, d, g, m, n, k);
    RewritesPrefix(ps, d, k);
  }

  lemma {:induction false} KeptMore(g: Nodes, T: seq<Term>, m: Nodes, V: seq<Term>, h: Nodes, i: Nodes, U: seq<Term>, line: seq<nat>, n: nat, count: int, more: int, sem: Sem)
    requires InputsKept(g, T, m, V, line, n, count, sem) && Evolved(m, V, h, U, sem) && Weight(U[n]) + more <= Weight(V[n])
    requires (forall t :: t in line ==> KeepsSlots(m, h, t)) && SameShape(h, i)
    ensures InputsKept(g, T, i, U, line, n, count + more, sem) && |i[n].inputs| == |g[n].inputs|
  {
    StillKept(g, T, m, V, h, i, U, line, sem);
    assert EvolvedAt(g, T, i, U, n, sem);
  }

  lemma {:induction false} StillKept(g: Nodes, T: seq<Term>, m: Nodes, V: seq<Term>, h: Nodes, i: Nodes, U: seq<Term>, line: seq<nat>, sem: Sem)
    requires Evolved(g, T, m, V, sem) && (forall t :: t in line ==> KeepsSlots(g, m, t))
    requires Evolved(m, V, h, U, sem) && (forall t :: t in line ==> KeepsSlots(m, h, t)) && SameShape(h, i)
    ensures Evolved(g, T, i, U, sem) && forall t :: t in line ==> KeepsSlots(g, i, t)
  {
    ShapeEvolved(m, V, h, i, U, line, sem);
    EvolvedTransitive(g, T, m, V, i, U, sem);
    forall t | t in line
      ensures KeepsSlots(g, i, t)
    {
      MovesTransitive(g, m, i, t, t, t);
    }
  }

  // ----- A pass that rewrites nothing -----

  /** A pass that rewrites nothing leaves the graph alone and has found no rule
      that matches at its node or anything below it. */
  lemma {:induction false} QuietPass(d: Pass, same: Equivalence, rules: seq<Rule>, strategy: Strategy, T: seq<Term>)
    requires Passed(d, same, rules, strategy) && Labelled(d.start, T)
    ensures Rewrites(d) == 0 ==> d.end == d.start && NormalBelow(d.start, same, rules, d.node)
    decreases d, 1
  {
    if Rewrites(d) == 0 {
      QuietInputs(d.inputs, same, rules, strategy, d.start, T, if strategy == Innermost then d.mid else d.end, d.node);
      NormalAbove(d.start, same, rules, d.node);
    }
  }

  ghost predicate InputsNormal(g: Nodes, same: Equivalence, rules: seq<Rule>, n: nat, k: nat)
    requires n < |g| && k <= |g[n].inputs|
  {
    forall j :: 0 <= j < k ==> g[n].inputs[j].Some? && NormalBelow(g, same, rules, g[n].inputs[j].value)
  }

  lemma {:induction false} QuietInputs(ps: seq<Pass>, same: Equivalence, rules: seq<Rule>, strategy: Strategy, g: Nodes, T: seq<Term>, h: Nodes, n: nat)
    requires InputsPassed(ps, same, rules, strategy, g, h, n) && Labelled(g, T)
    ensures RewritesAll(ps, |ps|) == 0 ==> h == g && InputsNormal(g, same, rules, n, |g[n].inputs|)
    decreases ps, 1
  {
    QuietTo(ps, same, rules, strategy, g, T, h, n, |ps|);
  }

  lemma {:induction false} QuietTo(ps: seq<Pass>, same: Equivalence, rules: seq<Rule>, strategy: Strategy, g: Nodes, T: seq<Term>, h: Nodes, n: nat, k: nat)
    requires n < |g| && k <= |ps| && k <= |g[n].inputs| && AllPassed(ps, same, rules, strategy) && LinkedTo(ps, g, h, n, k) && Labelled(g, T)
    ensures RewritesAll(ps, k) == 0 ==> h == g && InputsNormal(g, same, rules, n, k)
    decreases ps, 0, k
  {
    if k > 0 && RewritesAll(ps, k) == 0 {
      var last := ps[k - 1];
      assert RewritesAll(ps, k) == RewritesAll(ps, k - 1) + Rewrites(last);
      QuietTo(ps, same, rules, strategy, g, T, last.start, n, k - 1);
      assert PassedAt(ps, k - 1, same, rules, strategy);
      QuietPass(last, same, rules, strategy, T);
      assert last.res.None? && last.end == h && g[n].inputs[k - 1] == Some(last.node);
    }
  }

  /** Normal at a node and below its inputs is normal below the node. */
  lemma {:induction false} NormalAbove(g: Nodes, same: Equivalence, rules: seq<Rule>, n: nat)
    requires n < |g| && NormalAt(g, same, rules, n) && InputsNormal(g, same, rules, n, |g[n].inputs|)
    ensures NormalBelow(g, same, rules, n)
  {
    forall T, m: nat | Labelled(g, T) && m < |g| && Reach(g, T, n, m)
      ensures NormalAt(g, same, rules, m)
    {
      assert LabelAt(g, T, n);
      if m != n {
        var k: nat :| k < |g[n].inputs| && Reach(g, T, Input(g, n, k), m);
        assert NormalBelow(g, same, rules, g[n].inputs[k].value);
      }
    }
  }

  // ----- Passes from a root -----

  /** Passes that start at `root` and each go on from where the last one ended,
      at the replacement of its node if it made one. */
  ghost predicate PassesTo(ps: seq<Pass>, g: Nodes, root: nat, h: Nodes, current: nat, k: nat)
    requires k <= |ps|
    decreases k
  {
    if k == 0 then h == g && current == root
    else
      var last := ps[k - 1];
      && last.end == h && current == (if last.res.Some? then last.res.value else last.node)
      && PassesTo(ps, g, root, last.start, last.node, k - 1)
  }

  ghost predicate PassesFrom(ps: seq<Pass>, same: Equivalence, rules: seq<Rule>, strategy: Strategy, g: Nodes, root: nat, h: Nodes, current: nat) {
    AllPassed(ps, same, rules, strategy) && PassesTo(ps, g, root, h, current, |ps|)
  }

  ghost predicate AllReplaced(ps: seq<Pass>, k: nat)
    requires k <= |ps|
  {
    forall i :: 0 <= i < k ==> ps[i].res.Some?
  }

  /** The first pass that does not replace its node is the last one made. */
  ghost predicate Stopped(ps: seq<Pass>, limit: nat) {
    && |ps| <= limit && (ps != [] ==> AllReplaced(ps, |ps| - 1))
    && (|ps| < limit ==> ps != [] && ps[|ps| - 1].res.None?)
  }

  /** The state of the normalizing loop: what rewriting kept from the root on,
      and the passes made. */
  ghost predicate Progress(g: Nodes, T: seq<Term>, root: nat, h: Nodes, U: seq<Term>, current: nat, ps: seq<Pass>,
                           same: Equivalence, rules: seq<Rule>, strategy: Strategy, count: int, sem: Sem) {
    && Evolved(g, T, h, U, sem) && root < |g| && current < |h| && Preserves(T[root], U[current], sem)
    && count == RewritesOf(ps) && Weight(U[current]) + count <= Weight(T[root])
    && PassesFrom(ps, same, rules, strategy, g, root, h, current)
  }

  lemma {:induction false} ProgressStart(g: Nodes, T: seq<Term>, root: nat, same: Equivalence, rules: seq<Rule>, strategy: Strategy, sem: Sem)
    requires |g| == |T| && root < |g|
    ensures Progress(g, T, root, g, T, root, [], same, rules, strategy, 0, sem) && AllReplaced([], 0)
  {
    EvolvedReflexive(g, T, sem);
  }

  lemma {:induction false} ProgressMore(g: Nodes, T: seq<Term>, root: nat, h: Nodes, U: seq<Term>, current: nat, ps: seq<Pass>,
                                        same: Equivalence, rules: seq<Rule>, strategy: Strategy, d: Pass, i: Nodes, V: seq<Term>, sem: Sem)
    requires Progress(g, T, root, h, U, current, ps, same, rules, strategy, RewritesOf(ps), sem)
    requires Passed(d, same, rules, strategy) && d.start == h && d.node == current && d.end == i
    requires Evolved(h, U, i, V, sem) && Outcome(h, U, i, V, current, d.res, Rewrites(d), sem)
    ensures Progress(g, T, root, i, V, if d.res.Some? then d.res.value else current, ps + [d], same, rules, strategy,
                     RewritesOf(ps) + Rewrites(d), sem)
  {
    EvolvedTransitive(g, T, h, U, i, V, sem);
    PassesMore(ps, same, rules, strategy, g, root, h, current, d);
    if d.res.None? {
      assert EvolvedAt(h, U, i, V, current, sem);
      ImprovesBetter(U[current], V[current], sem);
    }
    PreservesTransitive(T[root], U[current], V[if d.res.Some? then d.res.value else current], sem);
  }

  lemma {:induction false} StoppedMore(ps: seq<Pass>, d: Pass, limit: nat)
    requires AllReplaced(ps, |ps|) && |ps| < limit
    ensures if d.res.Some? then AllReplaced(ps + [d], |ps| + 1) else Stopped(ps + [d], limit)
    ensures (ps + [d])[|ps|] == d && |ps + [d]| == |ps| + 1
  {
  }

  /** Each pass that replaces its node makes at least one rewrite. */
  lemma {:induction false} ReplacedCount(ps: seq<Pass>, k: nat)
    requires k <= |ps| && AllReplaced(ps, k)
    ensures RewritesAll(ps, k) >= k
  {
    if k > 0 {
      ReplacedCount(ps, k - 1);
    }
  }

  /** The last pass left its node in place. */
  ghost predicate LastStayed(ps: seq<Pass>) {
    ps != [] && ps[|ps| - 1].res.None?
  }

  /** With more turns than the root weighs, the loop ends because the root stays;
      and a last pass without a rewrite is one that leaves it in place. */
  lemma {:induction false} LoopEnded(ps: seq<Pass>, limit: nat, weight: nat, left: nat)
    requires Stopped(ps, limit) && left >= 1 && left + RewritesOf(ps) <= weight
    ensures limit >= weight ==> LastStayed(ps)
    ensures ps != [] && Rewrites(ps[|ps| - 1]) == 0 ==> LastStayed(ps)
  {
    if !LastStayed(ps) {
      ReplacedCount(ps, |ps|);
    }
  }

  lemma {:induction false} PassesPrefix(ps: seq<Pass>, d: Pass, g: Nodes, root: nat, h: Nodes, current: nat, k: nat)
    requires k <= |ps| && PassesTo(ps, g, root, h, current, k)
    ensures PassesTo(ps + [d], g, root, h, current, k)
    decreases k
  {
    if k > 0 {
      PassesPrefix(ps, d, g, root, ps[k - 1].start, ps[k - 1].node, k - 1);
    }
  }

  lemma {:induction false} PassesMore(ps: seq<Pass>, same: Equivalence, rules: seq<Rule>, strategy: Strategy, g: Nodes, root: nat, h: Nodes, current: nat, d: Pass)
    requires PassesFrom(ps, same, rules, strategy, g, root, h, current)
    requires Passed(d, same, rules, strategy) && d.start == h && d.node == current
    ensures PassesFrom(ps + [d], same, rules, strategy, g, root, d.end, if d.res.Some? then d.res.value else current)
    ensures RewritesAll(ps + [d], |ps| + 1) == RewritesAll(ps, |ps|) + Rewrites(d)
  {
    AllPassedMore(ps, d, same, rules, strategy);
    PassesPrefix(ps, d, g, root, h, current, |ps|);
    RewritesPrefix(ps, d, |ps|);
  }

  /** What rewriting below and at `n` did: if `n` was replaced, its slots moved
      to the replacement, which keeps its value; `count` rewrites took at least
      that much weight off. */
  ghost predicate Outcome(g: Nodes, T: seq<Term>, h: Nodes, U: seq<Term>, n: nat, res: Option<nat>, count: int, sem: Sem) {
    && |g| == |T| && |h| == |U| && n < |g| && n < |h|
    && count >= 0
    && (res.None? ==> KeepsSlots(g, h, n) && Weight(U[n]) + count <= Weight(T[n]))
    && (res.Some? ==>
          && res.value < |h| && MovesSlots(g, h, n, res.value)
          && count >= 1 && Weight(U[res.value]) + count <= Weight(T[n])
          && Preserves(T[n], U[res.value], sem))
  }

  lemma {:induction false} MovesTransitive(g: Nodes, m: Nodes, h: Nodes, t: nat, u: nat, w: nat)
    requires MovesSlots(g, m, t, u) && MovesSlots(m, h, u, w)
    ensures MovesSlots(g, h, t, w)
  {
  }

  lemma {:induction false} PreservesTransitive(t: Term, u: Term, v: Term, sem: Sem)
    requires Preserves(t, u, sem) && Preserves(u, v, sem)
    ensures Preserves(t, v, sem)
  {
    forall env
      ensures Refines(Eval(t, env, sem), Eval(v, env, sem))
    {
      assert Refines(Eval(t, env, sem), Eval(u, env, sem));
      assert Refines(Eval(u, env, sem), Eval(v, env, sem));
    }
  }

  lemma {:induction false} ChainApart(g: Nodes, T: seq<Term>, path: seq<nat>, n: nat)
    requires Labelled(g, T) && Chain(g, path + [n])
    ensures n !in path
  {
    forall i | 0 <= i < |path|
      ensures path[i] != n
    {
      ChainFalls(g, T, path + [n], i);
    }
  }

  /** A step at the end of a path, after edits that kept the path's slots. */
  lemma {:induction false} StepBelowPath(g: Nodes, T: seq<Term>, m: Nodes, V: seq<Term>, h: Nodes, U: seq<Term>, n: nat, w: nat, path: seq<nat>, sem: Sem)
    requires n < |g| && Evolved(g, T, m, V, sem) && Labelled(m, V) && Chain(m, path + [n])
    requires forall t :: t in path + [n] ==> KeepsSlots(g, m, t)
    requires Step(m, V, h, U, n, w, sem)
    ensures Evolved(g, T, h, U, sem)
    ensures forall t :: t in path ==> KeepsSlots(g, h, t)
    ensures MovesSlots(g, h, n, w) && Preserves(T[n], U[w], sem)
  {
    EvolvedTransitive(g, T, m, V, h, U, sem);
    ChainApart(m, V, path, n);
    forall t | t in path
      ensures KeepsSlots(g, h, t)
    {
      assert t in path + [n] && KeepsSlots(m, h, t);
      MovesTransitive(g, m, h, t, t, t);
    }
    assert n in path + [n];
    MovesTransitive(g, m, h, n, n, w);
    assert EvolvedAt(g, T, m, V, n, sem);
    ImprovesBetter(T[n], V[n], sem);
    PreservesTransitive(T[n], V[n], U[w], sem);
  }

  lemma {:induction false} NothingYet(g: Nodes, T: seq<Term>, line: seq<nat>, sem: Sem)
    requires |g| == |T|
    ensures Evolved(g, T, g, T, sem) && forall t :: t in line ==> KeepsSlots(g, g, t)
  {
    EvolvedReflexive(g, T, sem);
  }

  lemma {:induction false} InputsOutcome(g: Nodes, T: seq<Term>, h: Nodes, U: seq<Term>, n: nat, path: seq<nat>, count: int, sem: Sem)
    requires n < |g| && Evolved(g, T, h, U, sem) && (forall t :: t in path + [n] ==> KeepsSlots(g, h, t))
    requires count >= 0 && Weight(U[n]) + count <= Weight(T[n])
    ensures forall t :: t in path ==> KeepsSlots(g, h, t)
    ensures Outcome(g, T, h, U, n, None, count, sem)
  {
    var line := path + [n];
    assert line[|path|] == n && forall t :: t in path ==> t in line;
  }

  lemma {:induction false} StepOutcome(g: Nodes, T: seq<Term>, m: Nodes, V: seq<Term>, h: Nodes, U: seq<Term>, n: nat, w: nat, path: seq<nat>, count: int, sem: Sem)
    requires n < |g| && Evolved(g, T, m, V, sem) && Labelled(m, V) && Chain(m, path + [n])
    requires forall t :: t in path + [n] ==> KeepsSlots(g, m, t)
    requires Step(m, V, h, U, n, w, sem) && count >= 0 && Weight(V[n]) + count <= Weight(T[n])
    ensures Evolved(g, T, h, U, sem)
    ensures forall t :: t in path ==> KeepsSlots(g, h, t)
    ensures Outcome(g, T, h, U, n, Some(w), count + 1, sem)
  {
    StepBelowPath(g, T, m, V, h, U, n, w, path, sem);
  }

  // ----- One rewrite by an arbitrary rule -----

  /** `m` is `g` with the instance of `rhs` under `s` built on top; the instance
      is `w`, over all the nodes its variables are bound to. */
  ghost predicate Instance(g: Nodes, T: seq<Term>, m: Nodes, V: seq<Term>, rhs: Pattern, s: Subst, w: nat) {
    && Labelled(m, V) && Buildable(rhs) && Covers(s, Vars(rhs), T)
    && Grew(g, T, m, V, BoundNodes(s, Vars(rhs)))
    && w < |m| && V[w] == Inst(rhs, T, s)
    && (if RootFree(rhs) then w >= |g| else w < |g| && w in BoundNodes(s, Vars(rhs)))
    && forall x :: x in Vars(rhs) ==> Reach(m, V, w, NodeOf(s, x).value)
  }

  /** `h` is `m` with the uses of `n` moved to `w`. */
  ghost predicate Redirected(m: Nodes, h: Nodes, n: nat, w: nat) {
    if n == w then h == m else SameShape(h, Redirect(m, n, w))
  }

  /** `h` is `g` after rewriting node `n` by rule `r` to node `w`. */
  ghost predicate Replaced(g: Nodes, T: seq<Term>, h: Nodes, same: Equivalence, r: Rule, n: nat, w: nat) {
    && n < |g| && Applicable(g, same, r, n)
    && exists m, V :: Instance(g, T, m, V, r.rhs, Match(g, same, [], r.lhs, Some(n)).value, w) && Redirected(m, h, n, w)
  }

  /** The instance cannot reach the matched node if the left-hand side does not
      bind that node, or the right-hand side has no variables. */
  lemma {:induction false} ReplacementApart(g: Nodes, T: seq<Term>, m: Nodes, V: seq<Term>, same: Equivalence, r: Rule, n: nat, w: nat)
    requires Labelled(g, T) && SlotsSet(g) && n < |g| && Match(g, same, [], r.lhs, Some(n)).Some?
    requires Instance(g, T, m, V, r.rhs, Match(g, same, [], r.lhs, Some(n)).value, w)
    requires RootFree(r.lhs) || Vars(r.rhs) == {}
    ensures w != n && !Reach(m, V, w, n)
  {
    var s := Match(g, same, [], r.lhs, Some(n)).value;
    var bound := BoundNodes(s, Vars(r.rhs));
    assert forall i :: 0 <= i < |T| ==> V[i] == V[..|T|][i];
    forall b | b in bound
      ensures b < |m| && !Reach(m, V, b, n)
    {
      var x :| x in Vars(r.rhs) && NodeOf(s, x).value == b;
      var i :| 0 <= i < |s| && s[i] == Binding(x, Some(b));
      MatchBelow(g, T, same, [], r.lhs, n, i);
      LighterNoReach(m, V, b, n);
    }
    FreshNoReach(m, V, |g|, bound, n, w);
  }

  /** Otherwise the instance reaches the matched node, or is it. */
  lemma {:induction false} ReplacementOver(g: Nodes, T: seq<Term>, m: Nodes, V: seq<Term>, same: Equivalence, r: Rule, n: nat, w: nat)
    requires Labelled(g, T) && SlotsSet(g) && n < |g| && Match(g, same, [], r.lhs, Some(n)).Some?
    requires Instance(g, T, m, V, r.rhs, Match(g, same, [], r.lhs, Some(n)).value, w)
    requires !RootFree(r.lhs) && Vars(r.rhs) != {} && Vars(r.rhs) <= Vars(r.lhs)
    ensures Reach(m, V, w, n) && (w == n <==> !RootFree(r.rhs))
  {
    var x := RootName(g, same, r.lhs, n);
    var s := Match(g, same, [], r.lhs, Some(n)).value;
    assert s == [Binding(x, Some(n))] && x in Vars(r.rhs);
    assert NodeOf(s, x) == Some(n);
  }

  /** Rewriting with a validated rule keeps an acyclic graph acyclic exactly
      when the rule's text says so, whatever the graph and the node. */
  lemma {:induction false} ReplacedAcyclicIff(g: Nodes, T: seq<Term>, m: Nodes, V: seq<Term>, h: Nodes, same: Equivalence, r: Rule, n: nat, w: nat)
    requires Labelled(g, T) && SlotsSet(g) && n < |g| && Match(g, same, [], r.lhs, Some(n)).Some? && Vars(r.rhs) <= Vars(r.lhs)
    requires Instance(g, T, m, V, r.rhs, Match(g, same, [], r.lhs, Some(n)).value, w) && Redirected(m, h, n, w)
    ensures Acyclic(h) <==> KeepsAcyclic(r)
    ensures KeepsAcyclic(r) ==> Labelled(h, TermsAfter(m, V, r, n, w))
  {
    if RootFree(r.lhs) || Vars(r.rhs) == {} {
      ReplacementApart(g, T, m, V, same, r, n, w);
      RedirectLabelled(m, V, n, w);
      ShapeLabelled(Redirect(m, n, w), h, NewTerms(m, V, n, w));
    } else {
      ReplacementOver(g, T, m, V, same, r, n, w);
      if w != n {
        RedirectAcyclicIff(m, V, n, w);
        if Acyclic(h) {
          var U :| Labelled(h, U);
          ShapeLabelled(h, Redirect(m, n, w), U);
        }
      }
    }
  }

  /** The unfoldings after the rewrite, if it keeps the graph acyclic. */
  ghost function TermsAfter(m: Nodes, V: seq<Term>, r: Rule, n: nat, w: nat): seq<Term>
    requires Labelled(m, V) && w < |m|
  {
    if KeepsAcyclic(r) && w != n then NewTerms(m, V, n, w) else V
  }

  /** What one rewrite does, for every validated rule. */
  lemma {:induction false} RuleEffect(g: Nodes, T: seq<Term>, m: Nodes, V: seq<Term>, h: Nodes, same: Equivalence, r: Rule, n: nat, w: nat, sem: Sem)
    requires Labelled(g, T) && SlotsSet(g) && n < |g| && r.enabled && Match(g, same, [], r.lhs, Some(n)).Some? && Vars(r.rhs) <= Vars(r.lhs)
    requires Instance(g, T, m, V, r.rhs, Match(g, same, [], r.lhs, Some(n)).value, w) && Redirected(m, h, n, w)
    ensures Replaced(g, T, h, same, r, n, w)
    ensures Acyclic(h) <==> KeepsAcyclic(r)
    ensures KeepsAcyclic(r) ==> Labelled(h, TermsAfter(m, V, r, n, w))
    ensures RuleOk(r, sem) && SoundOn(same, g, T, sem) ==> Step(g, T, h, TermsAfter(m, V, r, n, w), n, w, sem)
  {
    ReplacedAcyclicIff(g, T, m, V, h, same, r, n, w);
    if RuleOk(r, sem) && SoundOn(same, g, T, sem) {
      Replacement(g, T, m, V, same, r, n, w, sem);
      StepTaken(g, T, m, V, h, n, w, sem);
    }
  }

  /** The instance of a matching rule's right-hand side is lighter, of the same
      value, and without a way back to the matched node. */
  lemma {:induction false} Replacement(g: Nodes, T: seq<Term>, m: Nodes, V: seq<Term>, same: Equivalence, r: Rule, n: nat, w: nat, sem: Sem)
    requires Labelled(g, T) && SlotsSet(g) && n < |g| && SoundOn(same, g, T, sem) && RuleOk(r, sem)
    requires Match(g, same, [], r.lhs, Some(n)).Some?
    requires Instance(g, T, m, V, r.rhs, Match(g, same, [], r.lhs, Some(n)).value, w)
    ensures w != n && !Reach(m, V, w, n)
    ensures Weight(V[w]) < Weight(T[n]) && Preserves(T[n], V[w], sem)
  {
    MatchShrinks(g, T, same, r, n);
    MatchPreserves(g, T, same, r, n, sem);
    ReplacementApart(g, T, m, V, same, r, n, w);
  }

  /** Rewriting below one input takes the same weight off the node above it. */
  lemma {:induction false} ChildDrop(g: Nodes, T: seq<Term>, h: Nodes, U: seq<Term>, n: nat, k: nat, child: nat, res: Option<nat>, count: int, sem: Sem)
    requires Labelled(g, T) && Labelled(h, U) && n < |g| && k < |g[n].inputs| && g[n].inputs[k] == Some(child)
    requires Evolved(g, T, h, U, sem)
    requires Outcome(g, T, h, U, child, res, count, sem)
    ensures k < |h[n].inputs| && h[n].inputs[k] == (if res.Some? then res else Some(child))
    ensures Weight(U[n]) + count <= Weight(T[n])
  {
    assert LabelAt(g, T, n) && LabelAt(h, U, n);
    assert EvolvedAt(g, T, h, U, n, sem);
    forall j | 0 <= j < |T[n].args|
      ensures Weight(U[n].args[j]) <= Weight(T[n].args[j])
    {
      assert Better(T[n].args[j], U[n].args[j], sem);
    }
    WeightDrop(U[n].args, T[n].args, k, count);
  }

  /** Writing a slot's own value back leaves the shape alone. */
  lemma {:induction false} SlotUnchanged(h: Nodes, i: Nodes, n: nat, k: nat, d: Option<nat>)
    requires n < |h| && k < |h[n].inputs| && h[n].inputs[k] == d
    requires SameShape(i, h[n := h[n].(inputs := h[n].inputs[k := d])])
    ensures SameShape(h, i)
  {
    assert h[n].inputs[k := d] == h[n].inputs;
    assert h[n := h[n].(inputs := h[n].inputs[k := d])] == h;
  }

  lemma {:induction false} ShapeEvolved(g: Nodes, T: seq<Term>, h: Nodes, i: Nodes, U: seq<Term>, line: seq<nat>, sem: Sem)
    requires Evolved(g, T, h, U, sem) && SameShape(h, i)
    requires forall t :: t in line ==> KeepsSlots(g, h, t)
    ensures Evolved(g, T, i, U, sem)
    ensures forall t :: t in line ==> KeepsSlots(g, i, t)
  {
    forall m: nat | m < |h|
      ensures i[m].inputs == h[m].inputs
    {
      assert h[m].(uses := []) == i[m].(uses := []);
      assert h[m].(uses := []).inputs == i[m].(uses := []).inputs;
    }
    forall m: nat | m < |g|
      ensures EvolvedAt(g, T, i, U, m, sem)
    {
      assert EvolvedAt(g, T, h, U, m, sem);
    }
  }

  function BoundNode(s: Subst, x: string): (n: nat)
    requires NodeOf(s, x).Some?
    ensures n == NodeOf(s, x).value
  {
    NodeOf(s, x).value
  }

  /** `h` is `g` with nodes appended whose inputs are new or in `bound`. */
  ghost predicate Grew(g: Nodes, T: seq<Term>, h: Nodes, U: seq<Term>, bound: set<nat>) {
    && |g| == |T| <= |h| == |U|
    && SameShape(h[..|g|], g) && U[..|T|] == T
    && FreshOver(h, |g|, bound) && forall n: nat :: |g| <= n < |h| ==> MadeAt(h, n)
  }

  /** The type of a node made for a right-hand side: constants are 32-bit integers
      and booleans, a selection has the type of its second input, and other
      operations have their default type. */
  ghost predicate MadeAt(h: Nodes, n: nat)
    requires n < |h|
  {
    var node := h[n];
    && !node.removed && |node.edges| == |node.inputs|
    && (forall k :: 0 <= k < |node.inputs| ==> node.edges[k] == DataEdge && node.inputs[k].Some? && node.inputs[k].value < |h|)
    && node.ty == (if node.kind == ConstInt then I32
                   else if node.kind == ConstBool then I1
                   else DefaultType(node.kind, HintFor(h, node.kind, node.inputs), FirstType(h, node.inputs)))
  }

  /** The type hint the builders pass. */
  function HintFor(h: Nodes, kind: Kind, inputs: seq<Option<nat>>): Type {
    if kind == Select && |inputs| == 3 && inputs[1].Some? && inputs[1].value < |h| then h[inputs[1].value].ty else Void
  }

  lemma {:induction false} NodeMade(g: Nodes, T: seq<Term>, m: Nodes, V: seq<Term>, h: Nodes, kind: Kind, inputs: seq<Option<nat>>, bound: set<nat>, t: Term)
    requires Labelled(m, V) && Grew(g, T, m, V, bound) && |h| == |m| + 1 && SameShape(h[..|m|], m) && Arity(kind).Some?
    requires forall k :: 0 <= k < |inputs| ==>
               inputs[k].Some? && inputs[k].value < |m| && (inputs[k].value >= |g| || inputs[k].value in bound)
    requires var node := h[|m|];
             && node.kind == kind && node.payload == NoPayload && node.inputs == inputs && node.edges == seq(|inputs|, _ => DataEdge) && !node.removed
             && node.ty == DefaultType(kind, HintFor(m, kind, inputs), FirstType(m, inputs))
    requires t == Term(kind, NoPayload, InputTerms(V, inputs))
    ensures Labelled(h, V + [t]) && Grew(g, T, h, V + [t], bound) && SameInputs(m, h)
  {
    LabelAppend(m, V, h, t);
    SameInputsAs(m, h);
    MadeNow(m, h, kind, inputs);
    GrewMore(g, T, m, V, h, V + [t], bound);
  }

  lemma {:induction false} MadeNow(m: Nodes, h: Nodes, kind: Kind, inputs: seq<Option<nat>>)
    requires |h| == |m| + 1 && SameShape(h[..|m|], m) && kind != ConstInt && kind != ConstBool
    requires forall k :: 0 <= k < |inputs| ==> inputs[k].Some? && inputs[k].value < |m|
    requires var node := h[|m|];
             && node.kind == kind && node.inputs == inputs && node.edges == seq(|inputs|, _ => DataEdge) && !node.removed
             && node.ty == DefaultType(kind, HintFor(m, kind, inputs), FirstType(m, inputs))
    ensures MadeAt(h, |m|)
  {
    forall i: nat | i < |m|
      ensures h[i].ty == m[i].ty
    {
      assert h[..|m|][i].(uses := []) == m[i].(uses := []);
      assert h[i].(uses := []).ty == m[i].(uses := []).ty;
    }
  }

  /** Growing leaves what was made as it is. */
  lemma {:induction false} MadeKept(m: Nodes, h: Nodes, n: nat)
    requires n < |m| <= |h| && SameShape(h[..|m|], m) && MadeAt(m, n)
    ensures MadeAt(h, n)
  {
    forall i: nat | i < |m|
      ensures h[i].ty == m[i].ty && h[i].inputs == m[i].inputs && h[i].edges == m[i].edges && h[i].kind == m[i].kind && h[i].removed == m[i].removed
    {
      assert h[..|m|][i].(uses := []) == m[i].(uses := []);
      assert h[i].(uses := []).ty == m[i].(uses := []).ty;
      assert h[i].(uses := []).inputs == m[i].(uses := []).inputs;
      assert h[i].(uses := []).edges == m[i].(uses := []).edges;
      assert h[i].(uses := []).kind == m[i].(uses := []).kind;
      assert h[i].(uses := []).removed == m[i].(uses := []).removed;
    }
  }

  /** Growing twice is growing; only the second batch of inputs is to be checked. */
  lemma {:induction false} GrewMore(g: Nodes, T: seq<Term>, m: Nodes, V: seq<Term>, h: Nodes, U: seq<Term>, bound: set<nat>)
    requires Grew(g, T, m, V, bound)
    requires |m| == |V| <= |h| == |U| && SameShape(h[..|m|], m) && U[..|V|] == V
    requires forall n, k :: |m| <= n < |h| && 0 <= k < |h[n].inputs| ==>
               h[n].inputs[k].Some? && (h[n].inputs[k].value >= |g| || h[n].inputs[k].value in bound)
    requires forall n: nat :: |m| <= n < |h| ==> MadeAt(h, n)
    ensures Grew(g, T, h, U, bound)
  {
    forall n: nat | |g| <= n < |h|
      ensures MadeAt(h, n)
    {
      if n < |m| {
        MadeKept(m, h, n);
      }
    }
    assert U[..|T|] == U[..|V|][..|T|];
    forall n: nat | n < |g|
      ensures h[..|g|][n].(uses := []) == g[n].(uses := [])
    {
      assert h[..|m|][n].(uses := []) == m[n].(uses := []);
      assert m[..|g|][n].(uses := []) == g[n].(uses := []);
    }
    forall n: nat, k: nat | |g| <= n < |m| && k < |h[n].inputs|
      ensures h[n].inputs[k].Some? && (h[n].inputs[k].value >= |g| || h[n].inputs[k].value in bound)
    {
      assert h[..|m|][n].(uses := []) == m[n].(uses := []);
      assert h[n].(uses := []).inputs == m[n].(uses := []).inputs;
    }
  }

  /** The old nodes have their old slots. */
  ghost predicate SameInputs(g: Nodes, h: Nodes) {
    |g| <= |h| && forall n :: 0 <= n < |g| ==> h[n].inputs == g[n].inputs
  }

  lemma {:induction false} SameInputsAs(g: Nodes, h: Nodes)
    requires |g| <= |h| && SameShape(h[..|g|], g)
    ensures SameInputs(g, h)
  {
    forall n | 0 <= n < |g|
      ensures h[n].inputs == g[n].inputs
    {
      assert h[..|g|][n].(uses := []) == g[n].(uses := []);
      assert h[n].(uses := []).inputs == g[n].(uses := []).inputs;
    }
  }

  /** A node over the instances reaches what any of their variables is bound to. */
  lemma {:induction false} ReachesAbove(m: Nodes, V: seq<Term>, h: Nodes, U: seq<Term>, subs: seq<Pattern>, s: Subst, id: nat, inputs: seq<Option<nat>>, x: string)
    requires Labelled(m, V) && Labelled(h, U) && SameInputs(m, h) && |inputs| == |subs|
    requires id < |h| && h[id].inputs == inputs && x in VarsAll(subs)
    requires forall k :: 0 <= k < |inputs| ==>
               inputs[k].Some? && inputs[k].value < |m|
               && forall y :: y in Vars(subs[k]) ==> NodeOf(s, y).Some? && Reach(m, V, inputs[k].value, NodeOf(s, y).value)
    ensures NodeOf(s, x).Some? && Reach(h, U, id, NodeOf(s, x).value)
  {
    var k := VarsOf(subs, x);
    ReachExtended(m, V, h, U, inputs[k].value, NodeOf(s, x).value);
    assert LabelAt(h, U, id);
    assert Reach(h, U, Input(h, id, k), NodeOf(s, x).value);
  }

  lemma {:induction false} VarsOf(ps: seq<Pattern>, x: string) returns (k: nat)
    requires x in VarsAll(ps)
    ensures k < |ps| && x in Vars(ps[k])
  {
    if x in Vars(ps[0]) {
      k := 0;
    } else {
      k := VarsOf(ps[1..], x);
      k := k + 1;
    }
  }

  /** `inputs` are the instances of the first few patterns of `subs`. */
  ghost predicate Built(subs: seq<Pattern>, s: Subst, g: Nodes, T: seq<Term>, h: Nodes, U: seq<Term>, inputs: seq<Option<nat>>, bound: set<nat>)
    requires Labelled(h, U) && BuildableAll(subs) && Covers(s, VarsAll(subs), T) && |inputs| <= |subs|
  {
    forall k :: 0 <= k < |inputs| ==>
      && inputs[k].Some? && inputs[k].value < |h| && (inputs[k].value >= |g| || inputs[k].value in bound)
      && U[inputs[k].value] == InstAll(subs, T, s)[k]
      && forall x :: x in Vars(subs[k]) ==> NodeOf(s, x).Some? && Reach(h, U, inputs[k].value, NodeOf(s, x).value)
  }

  lemma {:induction false} BuiltMore(subs: seq<Pattern>, s: Subst, g: Nodes, T: seq<Term>, m: Nodes, V: seq<Term>, h: Nodes, U: seq<Term>,
                                     inputs: seq<Option<nat>>, bound: set<nat>, input: nat)
    requires Labelled(m, V) && Labelled(h, U) && BuildableAll(subs) && Covers(s, VarsAll(subs), T) && |inputs| < |subs|
    requires Built(subs, s, g, T, m, V, inputs, bound) && Grew(m, V, h, U, bound)
    requires input < |h| && (input >= |g| || input in bound) && U[input] == InstAll(subs, T, s)[|inputs|]
    requires forall x :: x in Vars(subs[|inputs|]) ==> NodeOf(s, x).Some? && Reach(h, U, input, NodeOf(s, x).value)
    ensures Built(subs, s, g, T, h, U, inputs + [Some(input)], bound)
  {
    assert forall k :: 0 <= k < |V| ==> U[k] == U[..|V|][k];
    SameInputsAs(m, h);
    forall k, x | 0 <= k < |inputs| && x in Vars(subs[k])
      ensures NodeOf(s, x).Some? && Reach(h, U, inputs[k].value, NodeOf(s, x).value)
    {
      ReachExtended(m, V, h, U, inputs[k].value, NodeOf(s, x).value);
    }
  }

  lemma {:induction false} VarsAt(ps: seq<Pattern>, k: nat)
    requires k < |ps|
    ensures Vars(ps[k]) <= VarsAll(ps)
  {
    if k > 0 {
      VarsAt(ps[1..], k - 1);
    }
  }

  // ----- A limit of the validator -----

  /** A rule the validator accepts whose left-hand side binds the matched node. */
  function WrappingRule(): Rule {
    Rule("wrap", Sequence("x"), NodePat(Neg, [Var("x")]), true)
  }

  /** Validation alone does not keep graphs acyclic: the accepted rule above
      matches every node of every graph, and rewriting with it closes a cycle. */
  lemma {:induction false} ValidatedRuleMakesCycle(g: Nodes, T: seq<Term>, h: Nodes, same: Equivalence, n: nat, w: nat)
    requires Labelled(g, T) && n < |g|
    ensures Validate(WrappingRule()) && Buildable(WrappingRule().rhs) && !KeepsAcyclic(WrappingRule())
    ensures Applicable(g, same, WrappingRule(), n)
    ensures Replaced(g, T, h, same, WrappingRule(), n, w) ==> w != n && !Acyclic(h)
  {
    var r := WrappingRule();
    ValidateExact(r);
    LabelledSlotsSet(g, T);
    assert VarsAll([Var("x")]) == Vars(Var("x")) + VarsAll([]);
    assert Vars(r.rhs) == {"x"} == Vars(r.lhs);
    if Replaced(g, T, h, same, r, n, w) {
      var m, V :| Instance(g, T, m, V, r.rhs, Match(g, same, [], r.lhs, Some(n)).value, w) && Redirected(m, h, n, w);
      ReplacedAcyclicIff(g, T, m, V, h, same, r, n, w);
    }
  }
}
