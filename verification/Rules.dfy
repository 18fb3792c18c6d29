/**
 Rewrite rules: instantiating right-hand sides, what it means for a rule to be
 an identity, how a match bounds the weight of the matched node, and the rule
 validator.
 */
module Rules {
  import opened Wrappers
  import opened Listing
  import opened Values
  import opened Terms
  import opened WilGraph
  import opened Unfolding
  import opened Patterns

  datatype Rule = Rule(name: string, lhs: Pattern, rhs: Pattern, enabled: bool)

  /** The input count of the kinds a right-hand side may build. */
  function Arity(k: Kind): Option<nat> {
    if IsBinary(k) then Some(2) else if IsUnary(k) then Some(1) else if k == Select then Some(3) else None
  }

  /** A right-hand side of supported kinds and arities, without wildcards. */
  predicate Buildable(p: Pattern) {
    match p
    case Wildcard => false
    case Refinement(base) => Buildable(base)
    case NodePat(kind, subs) => Arity(kind) == Some(|subs|) && BuildableAll(subs)
    case _ => true
  }

  predicate BuildableAll(ps: seq<Pattern>) {
    ps == [] || (Buildable(ps[0]) && BuildableAll(ps[1..]))
  }

  /** A left-hand side that does not bind the matched node itself. */
  predicate RootFree(p: Pattern) {
    match p
    case Var(_) => false
    case Sequence(_) => false
    case Refinement(base) => RootFree(base)
    case _ => true
  }

  /** What a rule's text must satisfy for rewriting with it to make no cycle:
      the left-hand side does not bind the matched node, or the right-hand side
      does not build on it. */
  predicate KeepsAcyclic(r: Rule) {
    RootFree(r.lhs) || Vars(r.rhs) == {} || !RootFree(r.rhs)
  }

  /** A pattern that binds the root is a name for it and nothing else. */
  lemma {:induction false} RootName(g: Nodes, same: Equivalence, p: Pattern, n: nat) returns (x: string)
    requires n < |g| && SlotsSet(g) && !RootFree(p)
    ensures Vars(p) == {x} && Match(g, same, [], p, Some(n)) == Some([Binding(x, Some(n))])
  {
    if p.Refinement? {
      x := RootName(g, same, p.base, n);
    } else {
      x := p.name;
      assert [] + [Binding(x, Some(n))] == [Binding(x, Some(n))];
    }
  }

  // ----- Instantiation -----

  ghost predicate Covers(s: Subst, vars: set<string>, T: seq<Term>) {
    forall x :: x in vars ==> NodeOf(s, x).Some? && NodeOf(s, x).value < |T|
  }

  /** The term a right-hand side denotes under `s`. */
  ghost function Inst(p: Pattern, T: seq<Term>, s: Subst): Term
    requires Buildable(p) && Covers(s, Vars(p), T)
    decreases p, 1
  {
    match p
    case Var(x) => T[NodeOf(s, x).value]
    case Sequence(x) => T[NodeOf(s, x).value]
    case IntConst(n) => Term(ConstInt, IntPayload(n), [])
    case BoolConst(b) => Term(ConstBool, BoolPayload(b), [])
    case Refinement(base) => Inst(base, T, s)
    case NodePat(kind, subs) => Term(kind, NoPayload, InstAll(subs, T, s))
  }

  ghost function InstAll(ps: seq<Pattern>, T: seq<Term>, s: Subst): (ts: seq<Term>)
    requires BuildableAll(ps) && Covers(s, VarsAll(ps), T)
    ensures |ts| == |ps|
    decreases ps, 0
  {
    if ps == [] then [] else [Inst(ps[0], T, s)] + InstAll(ps[1..], T, s)
  }

  lemma {:induction false} InstAllAt(ps: seq<Pattern>, T: seq<Term>, s: Subst, k: nat)
    requires BuildableAll(ps) && Covers(s, VarsAll(ps), T) && k < |ps|
    ensures Buildable(ps[k]) && Covers(s, Vars(ps[k]), T)
    ensures InstAll(ps, T, s)[k] == Inst(ps[k], T, s)
  {
    if k > 0 {
      InstAllAt(ps[1..], T, s, k - 1);
    }
  }

  /** Labels added later do not change an instance. */
  lemma {:induction false} InstExtended(p: Pattern, T: seq<Term>, U: seq<Term>, s: Subst)
    requires Buildable(p) && Covers(s, Vars(p), T) && |T| <= |U| && U[..|T|] == T
    ensures Covers(s, Vars(p), U) && Inst(p, U, s) == Inst(p, T, s)
    decreases p, 1
  {
    assert forall i :: 0 <= i < |T| ==> U[i] == U[..|T|][i];
    match p
    case Refinement(base) => InstExtended(base, T, U, s);
    case NodePat(_, subs) => InstAllExtended(subs, T, U, s);
    case _ =>
  }

  lemma {:induction false} InstAllExtended(ps: seq<Pattern>, T: seq<Term>, U: seq<Term>, s: Subst)
    requires BuildableAll(ps) && Covers(s, VarsAll(ps), T) && |T| <= |U| && U[..|T|] == T
    ensures Covers(s, VarsAll(ps), U) && InstAll(ps, U, s) == InstAll(ps, T, s)
    decreases ps, 0
  {
    if ps != [] {
      InstExtended(ps[0], T, U, s);
      InstAllExtended(ps[1..], T, U, s);
    }
  }

  // ----- Rules as identities -----

  type Valuation = string -> Value

  /** The value of a pattern from the values of its variables. */
  ghost function PatEval(p: Pattern, rho: Valuation, env: Env, sem: Sem): Value
    decreases p, 1
  {
    match p
    case Wildcard => Undef
    case Var(x) => rho(x)
    case Sequence(x) => rho(x)
    case IntConst(n) => Apply(ConstInt, IntPayload(n), [], env, sem)
    case BoolConst(b) => Apply(ConstBool, BoolPayload(b), [], env, sem)
    case Refinement(base) => PatEval(base, rho, env, sem)
    case NodePat(kind, subs) => Apply(kind, NoPayload, PatEvalAll(subs, rho, env, sem), env, sem)
  }

  ghost function PatEvalAll(ps: seq<Pattern>, rho: Valuation, env: Env, sem: Sem): (vs: seq<Value>)
    ensures |vs| == |ps|
    decreases ps, 0
  {
    if ps == [] then [] else [PatEval(ps[0], rho, env, sem)] + PatEvalAll(ps[1..], rho, env, sem)
  }

  /** Term `t` has the shape of `p`, with variables taking the values `rho` gives. */
  ghost predicate FitsValues(p: Pattern, t: Term, rho: Valuation, env: Env, sem: Sem)
    decreases p, 1
  {
    match p
    case Wildcard => true
    case Var(x) => rho(x) == Eval(t, env, sem)
    case Sequence(x) => rho(x) == Eval(t, env, sem)
    case IntConst(n) => t.kind == ConstInt && PayloadInt(t.payload) == n
    case BoolConst(b) => t.kind == ConstBool && PayloadBool(t.payload) == b
    case Refinement(base) => FitsValues(base, t, rho, env, sem)
    case NodePat(kind, subs) => t.kind == kind && |t.args| == |subs| && FitsValuesAll(subs, t.args, rho, env, sem)
  }

  ghost predicate FitsValuesAll(ps: seq<Pattern>, ts: seq<Term>, rho: Valuation, env: Env, sem: Sem)
    requires |ps| == |ts|
    decreases ps, 0
  {
    ps == [] || (FitsValues(ps[0], ts[0], rho, env, sem) && FitsValuesAll(ps[1..], ts[1..], rho, env, sem))
  }

  /** Whatever the left-hand side matches, the right-hand side keeps its value. */
  ghost predicate RuleSound(r: Rule, sem: Sem) {
    forall t: Term, rho: Valuation, env: Env :: FitsValues(r.lhs, t, rho, env, sem) ==>
      Refines(Eval(t, env, sem), PatEval(r.rhs, rho, env, sem))
  }

  /** The equation between the two sides, over all values of the variables. */
  ghost predicate Identity(r: Rule, sem: Sem) {
    forall rho: Valuation, env: Env :: Refines(PatEval(r.lhs, rho, env, sem), PatEval(r.rhs, rho, env, sem))
  }

  /** Operations ignore the payload. */
  lemma {:induction false} PayloadIrrelevant(k: Kind, p: Payload, q: Payload, vs: seq<Value>, env: Env, sem: Sem)
    requires Arity(k).Some?
    ensures Apply(k, p, vs, env, sem) == Apply(k, q, vs, env, sem)
  {
  }

  lemma {:induction false} FittingValue(p: Pattern, t: Term, rho: Valuation, env: Env, sem: Sem)
    requires Buildable(p) && FitsValues(p, t, rho, env, sem)
    ensures Eval(t, env, sem) == PatEval(p, rho, env, sem)
    decreases p, 1
  {
    match p
    case Refinement(base) => FittingValue(base, t, rho, env, sem);
    case NodePat(kind, subs) =>
      FittingValues(subs, t.args, rho, env, sem);
      PayloadIrrelevant(kind, t.payload, NoPayload, EvalArgs(t, env, sem), env, sem);
      assert EvalArgs(t, env, sem) == PatEvalAll(subs, rho, env, sem);
    case _ =>
  }

  lemma {:induction false} FittingValues(ps: seq<Pattern>, ts: seq<Term>, rho: Valuation, env: Env, sem: Sem)
    requires |ps| == |ts| && BuildableAll(ps) && FitsValuesAll(ps, ts, rho, env, sem)
    ensures forall k :: 0 <= k < |ps| ==> Eval(ts[k], env, sem) == PatEvalAll(ps, rho, env, sem)[k]
    decreases ps, 0
  {
    if ps != [] {
      FittingValue(ps[0], ts[0], rho, env, sem);
      FittingValues(ps[1..], ts[1..], rho, env, sem);
    }
  }

  /** For wildcard-free left-hand sides it is enough to check the equation. */
  lemma {:induction false} IdentityIsSound(r: Rule, sem: Sem)
    requires Buildable(r.lhs) && Identity(r, sem)
    ensures RuleSound(r, sem)
  {
    forall t: Term, rho: Valuation, env: Env | FitsValues(r.lhs, t, rho, env, sem)
      ensures Refines(Eval(t, env, sem), PatEval(r.rhs, rho, env, sem))
    {
      FittingValue(r.lhs, t, rho, env, sem);
    }
  }

  // ----- From a match to the values of both sides -----

  /** Nodes of the graph that the matcher treats as equal have equal values. */
  ghost predicate SoundOn(same: Equivalence, g: Nodes, T: seq<Term>, sem: Sem)
    requires Labelled(g, T)
  {
    forall a: nat, b: nat :: a < |g| && b < |g| ==> SoundPair(same, g, T, a, b, sem)
  }

  ghost predicate SoundPair(same: Equivalence, g: Nodes, T: seq<Term>, a: nat, b: nat, sem: Sem)
    requires a < |g| == |T| && b < |g|
  {
    same(g, a, b) ==> SameValues(T[a], T[b], sem)
  }

  ghost predicate SameValues(t: Term, u: Term, sem: Sem) {
    forall env :: Eval(t, env, sem) == Eval(u, env, sem)
  }

  ghost predicate SoundEquivalence(same: Equivalence, sem: Sem) {
    forall g, T :: Labelled(g, T) ==> SoundOn(same, g, T, sem)
  }

  lemma {:induction false} IdentityEquivalenceSound(sem: Sem)
    ensures SoundEquivalence(NodeIdentity(), sem)
  {
  }

  lemma {:induction false} LabelledSlotsSet(g: Nodes, T: seq<Term>)
    requires Labelled(g, T)
    ensures SlotsSet(g)
  {
    forall n: nat | n < |g|
      ensures InputsSet(g, g[n].inputs)
    {
      assert LabelAt(g, T, n);
    }
  }

  ghost function BoundValues(T: seq<Term>, s: Subst, env: Env, sem: Sem): Valuation {
    (x: string) =>
      var r := NodeOf(s, x);
      if r.Some? && r.value < |T| then Eval(T[r.value], env, sem) else Undef
  }

  /** The terms of the nodes that input slots name. */
  ghost function InputTerms(T: seq<Term>, inputs: seq<Option<nat>>): (ts: seq<Term>)
    requires forall k :: 0 <= k < |inputs| ==> inputs[k].Some? && inputs[k].value < |T|
    ensures |ts| == |inputs|
  {
    seq(|inputs|, k requires 0 <= k < |inputs| => T[inputs[k].value])
  }

  lemma {:induction false} BindFits(g: Nodes, T: seq<Term>, same: Equivalence, s: Subst, x: string, n: nat, u: Subst, env: Env, sem: Sem)
    requires Labelled(g, T) && n < |g| && NamesDistinct(s) && Solid(s, |g|) && SoundOn(same, g, T, sem)
    requires Bind(g, same, s, x, Some(n)).Some? && Extends(Bind(g, same, s, x, Some(n)).value, u)
    ensures BoundValues(T, u, env, sem)(x) == Eval(T[n], env, sem)
  {
    var t := Bind(g, same, s, x, Some(n)).value;
    if Bound(s, x) {
      LookupExtended(s, u, x);
      assert Binding(x, Lookup(s, x).value) in s;
      var b := Lookup(s, x).value.value;
      assert SameSlot(g, same, Some(b), Some(n)) && SoundPair(same, g, T, b, n, sem);
    } else {
      assert t[|s|].name == x;
      LookupAppend(s, Binding(x, Some(n)), x);
      LookupExtended(t, u, x);
    }
  }

  lemma {:induction false} MatchFits(g: Nodes, T: seq<Term>, same: Equivalence, s: Subst, p: Pattern, n: nat, u: Subst, env: Env, sem: Sem)
    requires Labelled(g, T) && SlotsSet(g) && n < |g| && NamesDistinct(s) && Solid(s, |g|) && SoundOn(same, g, T, sem)
    requires Match(g, same, s, p, Some(n)).Some? && Extends(Match(g, same, s, p, Some(n)).value, u)
    ensures FitsValues(p, T[n], BoundValues(T, u, env, sem), env, sem)
    decreases p, 1
  {
    assert LabelAt(g, T, n);
    match p
    case Var(x) => BindFits(g, T, same, s, x, n, u, env, sem);
    case Sequence(x) => BindFits(g, T, same, s, x, n, u, env, sem);
    case Refinement(base) => MatchFits(g, T, same, s, base, n, u, env, sem);
    case NodePat(kind, subs) =>
      MatchAllFits(g, T, same, s, subs, g[n].inputs, u, env, sem);
      assert T[n].args == InputTerms(T, g[n].inputs);
    case _ =>
  }

  lemma {:induction false} MatchAllFits(g: Nodes, T: seq<Term>, same: Equivalence, s: Subst, ps: seq<Pattern>, inputs: seq<Option<nat>>, u: Subst, env: Env, sem: Sem)
    requires Labelled(g, T) && SlotsSet(g) && |ps| == |inputs| && InputsSet(g, inputs)
    requires NamesDistinct(s) && Solid(s, |g|) && SoundOn(same, g, T, sem)
    requires MatchAll(g, same, s, ps, inputs).Some? && Extends(MatchAll(g, same, s, ps, inputs).value, u)
    ensures FitsValuesAll(ps, InputTerms(T, inputs), BoundValues(T, u, env, sem), env, sem)
    decreases ps, 0
  {
    if ps != [] {
      var first := Match(g, same, s, ps[0], inputs[0]).value;
      MatchGrows(g, same, s, ps[0], inputs[0]);
      MatchSolid(g, same, s, ps[0], inputs[0].value);
      MatchAllMonotone(g, same, first, ps[1..], inputs[1..]);
      var last := MatchAll(g, same, s, ps, inputs).value;
      assert u[..|first|] == u[..|last|][..|first|];
      MatchFits(g, T, same, s, ps[0], inputs[0].value, u, env, sem);
      MatchAllFits(g, T, same, first, ps[1..], inputs[1..], u, env, sem);
      assert InputTerms(T, inputs)[1..] == InputTerms(T, inputs[1..]);
    }
  }

  lemma {:induction false} InstValue(p: Pattern, T: seq<Term>, s: Subst, env: Env, sem: Sem)
    requires Buildable(p) && Covers(s, Vars(p), T)
    ensures Eval(Inst(p, T, s), env, sem) == PatEval(p, BoundValues(T, s, env, sem), env, sem)
    decreases p, 1
  {
    match p
    case Refinement(base) => InstValue(base, T, s, env, sem);
    case NodePat(kind, subs) =>
      InstValues(subs, T, s, env, sem);
      assert EvalArgs(Inst(p, T, s), env, sem) == PatEvalAll(subs, BoundValues(T, s, env, sem), env, sem);
    case _ =>
  }

  lemma {:induction false} InstValues(ps: seq<Pattern>, T: seq<Term>, s: Subst, env: Env, sem: Sem)
    requires BuildableAll(ps) && Covers(s, VarsAll(ps), T)
    ensures forall k :: 0 <= k < |ps| ==>
              Eval(InstAll(ps, T, s)[k], env, sem) == PatEvalAll(ps, BoundValues(T, s, env, sem), env, sem)[k]
    decreases ps, 0
  {
    if ps != [] {
      var rho := BoundValues(T, s, env, sem);
      InstValue(ps[0], T, s, env, sem);
      InstValues(ps[1..], T, s, env, sem);
      EvalCons(Inst(ps[0], T, s), InstAll(ps[1..], T, s), PatEval(ps[0], rho, env, sem), PatEvalAll(ps[1..], rho, env, sem), env, sem);
    }
  }

  lemma {:induction false} EvalCons(t: Term, ts: seq<Term>, v: Value, vs: seq<Value>, env: Env, sem: Sem)
    requires |ts| == |vs| && Eval(t, env, sem) == v && forall k :: 0 <= k < |ts| ==> Eval(ts[k], env, sem) == vs[k]
    ensures forall k :: 0 <= k < |[t] + ts| ==> Eval(([t] + ts)[k], env, sem) == ([v] + vs)[k]
  {
  }

  /** The instantiated right-hand side of a sound rule keeps the value of the
      node the left-hand side matched. */
  lemma {:induction false} MatchPreserves(g: Nodes, T: seq<Term>, same: Equivalence, r: Rule, n: nat, sem: Sem)
    requires Labelled(g, T) && SlotsSet(g) && n < |g| && SoundOn(same, g, T, sem)
    requires Buildable(r.rhs) && RuleSound(r, sem)
    requires Match(g, same, [], r.lhs, Some(n)).Some?
    requires Covers(Match(g, same, [], r.lhs, Some(n)).value, Vars(r.rhs), T)
    ensures Preserves(T[n], Inst(r.rhs, T, Match(g, same, [], r.lhs, Some(n)).value), sem)
  {
    var s := Match(g, same, [], r.lhs, Some(n)).value;
    forall env
      ensures Refines(Eval(T[n], env, sem), Eval(Inst(r.rhs, T, s), env, sem))
    {
      MatchFits(g, T, same, [], r.lhs, n, s, env, sem);
      InstValue(r.rhs, T, s, env, sem);
    }
  }

  /** A validated rule never meets an unbound variable. */
  lemma {:induction false} MatchCovers(g: Nodes, T: seq<Term>, same: Equivalence, r: Rule, n: nat)
    requires Labelled(g, T) && SlotsSet(g) && n < |g|
    requires Vars(r.rhs) <= Vars(r.lhs)
    requires Match(g, same, [], r.lhs, Some(n)).Some?
    ensures Covers(Match(g, same, [], r.lhs, Some(n)).value, Vars(r.rhs), T)
  {
    var s := Match(g, same, [], r.lhs, Some(n)).value;
    MatchGrows(g, same, [], r.lhs, Some(n));
    MatchSolid(g, same, [], r.lhs, n);
    forall x | x in Vars(r.rhs)
      ensures NodeOf(s, x).Some? && NodeOf(s, x).value < |T|
    {
      assert Bound(s, x);
      assert Binding(x, Lookup(s, x).value) in s;
    }
  }

  // ----- Weights -----

  /** The weight of a pattern whose variables weigh 1. */
  function PatWeight(p: Pattern): nat {
    match p
    case Refinement(base) => PatWeight(base)
    case NodePat(kind, subs) => KindWeight(kind) + PatWeightAll(subs)
    case _ => 1
  }

  function PatWeightAll(ps: seq<Pattern>): nat {
    if ps == [] then 0 else PatWeight(ps[0]) + PatWeightAll(ps[1..])
  }

  /** A pattern weighs at least as much as it has variables. */
  lemma {:induction false} VarsFew(p: Pattern)
    ensures |Vars(p)| <= PatWeight(p)
    decreases p, 1
  {
    match p
    case Refinement(base) => VarsFew(base);
    case NodePat(_, subs) => VarsAllFew(subs);
    case _ =>
  }

  lemma {:induction false} VarsAllFew(ps: seq<Pattern>)
    ensures |VarsAll(ps)| <= PatWeightAll(ps)
    decreases ps, 0
  {
    if ps != [] {
      VarsFew(ps[0]);
      VarsAllFew(ps[1..]);
      var rest := VarsAll(ps[1..]) - Vars(ps[0]);
      SubsetSize(rest, VarsAll(ps[1..]));
      assert VarsAll(ps) == Vars(ps[0]) + rest;
    }
  }

  /** No variable occurs twice. */
  predicate Linear(p: Pattern) {
    match p
    case Refinement(base) => Linear(base)
    case NodePat(_, subs) => LinearAll(subs)
    case _ => true
  }

  predicate LinearAll(ps: seq<Pattern>) {
    ps == [] || (Linear(ps[0]) && Vars(ps[0]) !! VarsAll(ps[1..]) && LinearAll(ps[1..]))
  }

  /** A rule that strictly lowers the weight of whatever it rewrites. */
  predicate Shrinks(r: Rule) {
    Linear(r.rhs) && PatWeight(r.rhs) < PatWeight(r.lhs)
  }

  /** By how much the bindings named in `vars` outweigh plain variables. */
  ghost function Excess(T: seq<Term>, s: Subst, vars: set<string>): nat
    requires Solid(s, |T|)
  {
    if s == [] then 0
    else
      var b := s[|s| - 1];
      Excess(T, s[..|s| - 1], vars) + (if b.name in vars then Weight(T[b.node.value]) - 1 else 0)
  }

  /** By how much all bindings outweigh plain variables. */
  ghost function TotalExcess(T: seq<Term>, s: Subst): nat
    requires Solid(s, |T|)
  {
    if s == [] then 0 else TotalExcess(T, s[..|s| - 1]) + Weight(T[s[|s| - 1].node.value]) - 1
  }

  /** A match cannot bind more weight than the node has: what the bindings add
      and the rigid part of the pattern fit into the node's weight. */
  lemma {:induction false} MatchWeight(g: Nodes, T: seq<Term>, same: Equivalence, s: Subst, p: Pattern, n: nat)
    requires Labelled(g, T) && SlotsSet(g) && n < |g| && NamesDistinct(s) && Solid(s, |g|)
    requires Match(g, same, s, p, Some(n)).Some?
    ensures Solid(Match(g, same, s, p, Some(n)).value, |g|)
    ensures PatWeight(p) + TotalExcess(T, Match(g, same, s, p, Some(n)).value) <= Weight(T[n]) + TotalExcess(T, s)
    decreases p, 1
  {
    MatchGrows(g, same, s, p, Some(n));
    MatchSolid(g, same, s, p, n);
    match p
    case Var(x) => BindWeight(g, T, same, s, x, n);
    case Sequence(x) => BindWeight(g, T, same, s, x, n);
    case Refinement(base) => MatchWeight(g, T, same, s, base, n);
    case NodePat(kind, subs) =>
      MatchAllWeight(g, T, same, s, subs, g[n].inputs);
      NodeWeight(g, T, n);
    case _ =>
  }

  lemma {:induction false} NodeWeight(g: Nodes, T: seq<Term>, n: nat)
    requires Labelled(g, T) && n < |g| && InputsSet(g, g[n].inputs)
    ensures Weight(T[n]) == KindWeight(g[n].kind) + WeightAll(InputTerms(T, g[n].inputs))
  {
    assert LabelAt(g, T, n);
    assert T[n].args == InputTerms(T, g[n].inputs);
  }

  lemma {:induction false} BindWeight(g: Nodes, T: seq<Term>, same: Equivalence, s: Subst, x: string, n: nat)
    requires Labelled(g, T) && n < |g| && Solid(s, |g|)
    requires Bind(g, same, s, x, Some(n)).Some?
    ensures Solid(Bind(g, same, s, x, Some(n)).value, |g|)
    ensures 1 + TotalExcess(T, Bind(g, same, s, x, Some(n)).value) <= Weight(T[n]) + TotalExcess(T, s)
  {
    var t := Bind(g, same, s, x, Some(n)).value;
    if !Bound(s, x) {
      assert t[..|t| - 1] == s;
    }
  }

  lemma {:induction false} MatchAllWeight(g: Nodes, T: seq<Term>, same: Equivalence, s: Subst, ps: seq<Pattern>, inputs: seq<Option<nat>>)
    requires Labelled(g, T) && SlotsSet(g) && |ps| == |inputs| && InputsSet(g, inputs)
    requires NamesDistinct(s) && Solid(s, |g|)
    requires MatchAll(g, same, s, ps, inputs).Some?
    ensures Solid(MatchAll(g, same, s, ps, inputs).value, |g|)
    ensures PatWeightAll(ps) + TotalExcess(T, MatchAll(g, same, s, ps, inputs).value)
         <= WeightAll(InputTerms(T, inputs)) + TotalExcess(T, s)
    decreases ps, 0
  {
    MatchAllGrows(g, same, s, ps, inputs);
    MatchAllSolid(g, same, s, ps, inputs);
    if ps != [] {
      var first := Match(g, same, s, ps[0], inputs[0]).value;
      MatchGrows(g, same, s, ps[0], inputs[0]);
      MatchSolid(g, same, s, ps[0], inputs[0].value);
      MatchWeight(g, T, same, s, ps[0], inputs[0].value);
      MatchAllWeight(g, T, same, first, ps[1..], inputs[1..]);
      assert InputTerms(T, inputs)[1..] == InputTerms(T, inputs[1..]);
    }
  }

  lemma {:induction false} ExcessSplit(T: seq<Term>, s: Subst, a: set<string>, b: set<string>)
    requires Solid(s, |T|) && a !! b
    ensures Excess(T, s, a + b) == Excess(T, s, a) + Excess(T, s, b)
  {
    if s != [] {
      ExcessSplit(T, s[..|s| - 1], a, b);
    }
  }

  lemma {:induction false} ExcessAbsent(T: seq<Term>, s: Subst, x: string)
    requires Solid(s, |T|) && !Bound(s, x)
    ensures Excess(T, s, {x}) == 0
  {
    if s != [] {
      assert s[|s| - 1].name != x;
      assert !Bound(s[..|s| - 1], x) by {
        assert forall i :: 0 <= i < |s| - 1 ==> s[..|s| - 1][i] == s[i];
      }
      ExcessAbsent(T, s[..|s| - 1], x);
    }
  }

  lemma {:induction false} ExcessAt(T: seq<Term>, s: Subst, i: nat)
    requires Solid(s, |T|) && NamesDistinct(s) && i < |s|
    ensures Excess(T, s, {s[i].name}) == Weight(T[s[i].node.value]) - 1
  {
    var front := s[..|s| - 1];
    if i == |s| - 1 {
      ExcessAbsent(T, front, s[i].name);
    } else {
      ExcessAt(T, front, i);
      assert front[i] == s[i] && s[|s| - 1].name != s[i].name;
    }
  }

  lemma {:induction false} ExcessOne(T: seq<Term>, s: Subst, x: string)
    requires Solid(s, |T|) && NamesDistinct(s) && Bound(s, x)
    ensures Excess(T, s, {x}) == Weight(T[NodeOf(s, x).value]) - 1
  {
    var i :| 0 <= i < |s| && s[i].name == x;
    LookupDistinct(s, i);
    ExcessAt(T, s, i);
  }

  lemma {:induction false} ExcessBound(T: seq<Term>, s: Subst, vars: set<string>)
    requires Solid(s, |T|)
    ensures Excess(T, s, vars) <= TotalExcess(T, s)
  {
    if s != [] {
      ExcessBound(T, s[..|s| - 1], vars);
    }
  }

  lemma {:induction false} InstWeight(p: Pattern, T: seq<Term>, s: Subst)
    requires Buildable(p) && Linear(p) && Covers(s, Vars(p), T) && NamesDistinct(s)
    requires Solid(s, |T|)
    ensures Weight(Inst(p, T, s)) == PatWeight(p) + Excess(T, s, Vars(p))
    decreases p, 1
  {
    match p
    case Var(x) => ExcessOne(T, s, x);
    case Sequence(x) => ExcessOne(T, s, x);
    case IntConst(_) => ExcessNone(T, s);
    case BoolConst(_) => ExcessNone(T, s);
    case Refinement(base) => InstWeight(base, T, s);
    case NodePat(kind, subs) =>
      InstAllWeight(subs, T, s);
  }

  lemma {:induction false} ExcessNone(T: seq<Term>, s: Subst)
    requires Solid(s, |T|)
    ensures Excess(T, s, {}) == 0
  {
    if s != [] {
      ExcessNone(T, s[..|s| - 1]);
    }
  }

  lemma {:induction false} InstAllWeight(ps: seq<Pattern>, T: seq<Term>, s: Subst)
    requires BuildableAll(ps) && LinearAll(ps) && Covers(s, VarsAll(ps), T) && NamesDistinct(s)
    requires Solid(s, |T|)
    ensures WeightAll(InstAll(ps, T, s)) == PatWeightAll(ps) + Excess(T, s, VarsAll(ps))
    decreases ps, 0
  {
    if ps == [] {
      ExcessNone(T, s);
    } else {
      InstWeight(ps[0], T, s);
      InstAllWeight(ps[1..], T, s);
      ExcessSplit(T, s, Vars(ps[0]), VarsAll(ps[1..]));
      assert InstAll(ps, T, s)[1..] == InstAll(ps[1..], T, s);
    }
  }

  /** A shrinking rule builds something strictly lighter than what it matched. */
  lemma {:induction false} MatchShrinks(g: Nodes, T: seq<Term>, same: Equivalence, r: Rule, n: nat)
    requires Labelled(g, T) && SlotsSet(g) && n < |g|
    requires Buildable(r.rhs) && Shrinks(r)
    requires Match(g, same, [], r.lhs, Some(n)).Some?
    requires Covers(Match(g, same, [], r.lhs, Some(n)).value, Vars(r.rhs), T)
    ensures Weight(Inst(r.rhs, T, Match(g, same, [], r.lhs, Some(n)).value)) < Weight(T[n])
  {
    var s := Match(g, same, [], r.lhs, Some(n)).value;
    MatchGrows(g, same, [], r.lhs, Some(n));
    MatchSolid(g, same, [], r.lhs, n);
    MatchWeight(g, T, same, [], r.lhs, n);
    InstWeight(r.rhs, T, s);
    ExcessBound(T, s, Vars(r.rhs));
  }

  // ----- Bound nodes lie strictly below the match -----

  lemma {:induction false} MatchBelow(g: Nodes, T: seq<Term>, same: Equivalence, s: Subst, p: Pattern, n: nat, i: nat)
    requires Labelled(g, T) && SlotsSet(g) && n < |g| && NamesDistinct(s) && Solid(s, |g|)
    requires Match(g, same, s, p, Some(n)).Some?
    requires |s| <= i < |Match(g, same, s, p, Some(n)).value|
    ensures Solid(Match(g, same, s, p, Some(n)).value, |g|)
    ensures Weight(T[Match(g, same, s, p, Some(n)).value[i].node.value]) <= Weight(T[n])
    ensures RootFree(p) ==> Weight(T[Match(g, same, s, p, Some(n)).value[i].node.value]) < Weight(T[n])
    decreases p, 1
  {
    MatchGrows(g, same, s, p, Some(n));
    MatchSolid(g, same, s, p, n);
    assert LabelAt(g, T, n);
    match p
    case Refinement(base) => MatchBelow(g, T, same, s, base, n, i);
    case NodePat(kind, subs) => 
      var k := MatchAllBelow(g, T, same, s, subs, g[n].inputs, i);
      ArgLighter(T[n], k);
    case _ =>
  }

  lemma {:induction false} MatchAllBelow(g: Nodes, T: seq<Term>, same: Equivalence, s: Subst, ps: seq<Pattern>, inputs: seq<Option<nat>>, i: nat) returns (k: nat)
    requires Labelled(g, T) && SlotsSet(g) && |ps| == |inputs| && InputsSet(g, inputs)
    requires NamesDistinct(s) && Solid(s, |g|)
    requires MatchAll(g, same, s, ps, inputs).Some?
    requires |s| <= i < |MatchAll(g, same, s, ps, inputs).value|
    ensures Solid(MatchAll(g, same, s, ps, inputs).value, |g|) && k < |inputs|
    ensures Weight(T[MatchAll(g, same, s, ps, inputs).value[i].node.value]) <= Weight(T[inputs[k].value])
    decreases ps, 0
  {
    MatchAllGrows(g, same, s, ps, inputs);
    MatchAllSolid(g, same, s, ps, inputs);
    var last := MatchAll(g, same, s, ps, inputs).value;
    var first := Match(g, same, s, ps[0], inputs[0]).value;
    MatchGrows(g, same, s, ps[0], inputs[0]);
    MatchSolid(g, same, s, ps[0], inputs[0].value);
    if i < |first| {
      k := 0;
      MatchBelow(g, T, same, s, ps[0], inputs[0].value, i);
      MatchAllMonotone(g, same, first, ps[1..], inputs[1..]);
      assert last[i] == last[..|first|][i];
    } else {
      k := MatchAllBelow(g, T, same, first, ps[1..], inputs[1..], i);
      k := k + 1;
    }
  }

  // ----- Validation -----

  const MAX_VARS := 128

  /** Adds the variables of `p` to `acc` in order of occurrence; fails past the capacity. */
  function CollectVars(p: Pattern, acc: seq<string>): Option<seq<string>>
    decreases p, 1
  {
    match p
    case Var(x) => CollectName(x, acc)
    case Sequence(x) => CollectName(x, acc)
    case Refinement(base) => CollectVars(base, acc)
    case NodePat(_, subs) => CollectAll(subs, acc)
    case _ => Some(acc)
  }

  function CollectName(x: string, acc: seq<string>): Option<seq<string>> {
    if x in acc then Some(acc) else if |acc| >= MAX_VARS then None else Some(acc + [x])
  }

  function CollectAll(ps: seq<Pattern>, acc: seq<string>): Option<seq<string>>
    decreases ps, 0
  {
    if ps == [] then Some(acc)
    else
      var first := CollectVars(ps[0], acc);
      if first.None? then None else CollectAll(ps[1..], first.value)
  }

  /** The rule validator, for rules given by two patterns. */
  predicate Validate(r: Rule) {
    && !r.lhs.Var?
    && var left, right := CollectVars(r.lhs, []), CollectVars(r.rhs, []);
       left.Some? && right.Some? && forall x :: x in right.value ==> x in left.value
  }

  /** The collector's result: all names, each once, unless there are too many. */
  ghost predicate Collected(acc: seq<string>, vars: set<string>, r: Option<seq<string>>) {
    if |Elements(acc) + vars| <= MAX_VARS
    then r.Some? && Distinct(r.value) && Elements(r.value) == Elements(acc) + vars
    else r.None?
  }

  lemma {:induction false} CollectNameExact(x: string, acc: seq<string>)
    requires Distinct(acc) && |acc| <= MAX_VARS
    ensures Collected(acc, {x}, CollectName(x, acc))
  {
    DistinctSize(acc);
    if x in acc {
      assert Elements(acc) + {x} == Elements(acc);
    } else {
      assert |Elements(acc) + {x}| == |acc| + 1;
      assert Elements(acc + [x]) == Elements(acc) + {x};
    }
  }

  lemma {:induction false} CollectExact(p: Pattern, acc: seq<string>)
    requires Distinct(acc) && |acc| <= MAX_VARS
    ensures Collected(acc, Vars(p), CollectVars(p, acc))
    decreases p, 1
  {
    if p.NodePat? {
      CollectAllExact(p.subs, acc);
    } else if p.Refinement? {
      CollectExact(p.base, acc);
    } else {
      CollectLeaf(p, acc);
    }
  }

  lemma {:induction false} CollectLeaf(p: Pattern, acc: seq<string>)
    requires Distinct(acc) && |acc| <= MAX_VARS && !p.NodePat? && !p.Refinement?
    ensures Collected(acc, Vars(p), CollectVars(p, acc))
  {
    match p
    case Var(x) => CollectNameExact(x, acc);
    case Sequence(x) => CollectNameExact(x, acc);
    case _ => CollectNothing(acc);
  }

  lemma {:induction false} CollectNothing(acc: seq<string>)
    requires Distinct(acc) && |acc| <= MAX_VARS
    ensures Collected(acc, {}, Some(acc))
  {
    DistinctSize(acc);
    assert Elements(acc) + {} == Elements(acc);
  }

  lemma {:induction false} CollectAllExact(ps: seq<Pattern>, acc: seq<string>)
    requires Distinct(acc) && |acc| <= MAX_VARS
    ensures Collected(acc, VarsAll(ps), CollectAll(ps, acc))
    decreases ps, 0
  {
    if ps == [] {
      CollectNothing(acc);
    } else {
      CollectExact(ps[0], acc);
      var first := CollectVars(ps[0], acc);
      var all := Elements(acc) + VarsAll(ps);
      assert all == Elements(acc) + Vars(ps[0]) + VarsAll(ps[1..]);
      if first.None? {
        SubsetSize(Elements(acc) + Vars(ps[0]), all);
      } else {
        DistinctSize(first.value);
        CollectAllExact(ps[1..], first.value);
        assert Elements(first.value) + VarsAll(ps[1..]) == all;
      }
    }
  }

  /** The validator accepts exactly the rules whose left-hand side is not a bare
      variable, whose sides have at most 128 variables each, and whose right-hand
      side uses only variables of the left. */
  lemma {:induction false} ValidateExact(r: Rule)
    ensures Validate(r) <==>
              !r.lhs.Var? && |Vars(r.lhs)| <= MAX_VARS && |Vars(r.rhs)| <= MAX_VARS && Vars(r.rhs) <= Vars(r.lhs)
  {
    CollectExact(r.lhs, []);
    CollectExact(r.rhs, []);
    assert Elements([]) + Vars(r.lhs) == Vars(r.lhs);
    assert Elements([]) + Vars(r.rhs) == Vars(r.rhs);
    var left, right := CollectVars(r.lhs, []), CollectVars(r.rhs, []);
    if left.Some? && right.Some? {
      assert forall x :: x in left.value <==> x in Elements(left.value);
      assert forall x :: x in right.value <==> x in Elements(right.value);
    }
  }
}
