/** Normalizing a graph with the built-in rules, as the compiler driver does. */
module Optimizer {
  import opened Values
  import opened Terms
  import opened WilGraph
  import opened Unfolding
  import opened Patterns
  import opened Rules
  import opened Rewriter
  import StdRules

  /** Normalizing with built-in rules keeps the value of the root, and of every
      node, wherever it is defined without dividing by zero. Given as many
      iterations as the root weighs, it ends with no rule matching at the root, and
      after a last pass without a rewrite no rule matches anywhere below it. */
  method NormalizeWithBuiltins(graph: Graph, rules: seq<Rule>, ghost terms: seq<Term>, root: nat, maxIterations: nat)
    returns (result: nat, ghost newTerms: seq<Term>, ghost passes: seq<Pass>)
    requires graph.Valid() && Labelled(graph.nodes, terms) && root < |graph.nodes|
    requires StdRules.Builtin(rules)
    modifies graph
    ensures graph.Valid() && Labelled(graph.nodes, newTerms)
    ensures |old(graph.nodes)| <= |graph.nodes| && result < |graph.nodes|
    ensures Preserves(terms[root], newTerms[result], Source(true))
    ensures forall m :: 0 <= m < |old(graph.nodes)| ==> Preserves(terms[m], newTerms[m], Source(true))
    ensures maxIterations >= Weight(terms[root]) ==> NormalAt(graph.nodes, NodeIdentity(), rules, result)
    ensures PassesFrom(passes, NodeIdentity(), rules, Innermost, old(graph.nodes), root, graph.nodes, result)
    ensures Stopped(passes, maxIterations)
    ensures passes != [] && Rewrites(passes[|passes| - 1]) == 0 ==> NormalBelow(graph.nodes, NodeIdentity(), rules, result)
  {
    StdRules.BuiltinOk(rules);
    IdentityEquivalenceSound(Source(true));
    var sys := new RewriteSystem(graph, rules, NodeIdentity(), terms, Source(true));
    result, passes := sys.Normalize(root, maxIterations);
    newTerms := sys.terms;
    forall m | 0 <= m < |old(graph.nodes)|
      ensures Preserves(terms[m], newTerms[m], Source(true))
    {
      assert Better(terms[m], newTerms[m], Source(true));
    }
  }
}
