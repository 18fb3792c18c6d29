/**
 The matcher's own node equivalence. Nodes are entered in a term table under
 their kind and the entries of their inputs; constants and parameters are
 entered under their kind alone.
 */
module KindKey {
  import opened Wrappers
  import opened Values
  import opened Terms
  import opened WilGraph
  import opened Unfolding
  import opened Patterns
  import opened Rules
  import opened Rewriter
  import StdRules

  /** What the table sees of a node. */
  datatype KindTree = KindTree(kind: Kind, subs: seq<KindTree>)

  ghost function TreeOf(t: Term): (tree: KindTree)
    ensures tree.kind == t.kind && |tree.subs| == |t.args|
    ensures forall k :: 0 <= k < |t.args| ==> tree.subs[k] == TreeOf(t.args[k])
  {
    KindTree(t.kind, seq(|t.args|, k requires 0 <= k < |t.args| => TreeOf(t.args[k])))
  }

  /** Only nodes of at most four inputs, all the way down, can be entered. */
  ghost predicate Narrow(t: Term) {
    |t.args| <= 4 && forall k :: 0 <= k < |t.args| ==> Narrow(t.args[k])
  }

  ghost predicate SameKey(t: Term, u: Term) {
    Narrow(t) && Narrow(u) && TreeOf(t) == TreeOf(u)
  }

  /** The equivalence the matcher is run with: the same node, or the same key. */
  ghost function ByKey(): Equivalence {
    (g: Nodes, a: nat, b: nat) =>
      a == b || (a < |g| && b < |g| && exists T :: Labelled(g, T) && SameKey(T[a], T[b]))
  }

  lemma {:induction false} ByKeyOn(g: Nodes, T: seq<Term>, a: nat, b: nat)
    requires Labelled(g, T) && a < |g| && b < |g|
    ensures ByKey()(g, a, b) <==> a == b || SameKey(T[a], T[b])
  {
    forall U | Labelled(g, U)
      ensures U[a] == T[a] && U[b] == T[b]
    {
      LabelUnique(g, U, T, a);
      LabelUnique(g, U, T, b);
    }
  }

  // ----- When it is sound -----

  /** What distinguishes two nodes of one kind beside their inputs. */
  predicate SamePayload(k: Kind, p: Payload, q: Payload) {
    match k
    case ConstInt => Wrap(PayloadInt(p)) == Wrap(PayloadInt(q))
    case ConstFloat => PayloadBits(p) == PayloadBits(q)
    case ConstBool => PayloadBool(p) == PayloadBool(q)
    case Param => PayloadIndex(p) == PayloadIndex(q)
    case _ => true
  }

  /** Nodes of the same key carry the same payload. */
  ghost predicate PayloadsAgree(g: Nodes) {
    forall a: nat, b: nat :: a < |g| && b < |g| && ByKey()(g, a, b) ==> SamePayload(g[a].kind, g[a].payload, g[b].payload)
  }

  lemma {:induction false} PayloadMatters(k: Kind, p: Payload, q: Payload, vs: seq<Value>, env: Env, trap: bool)
    requires SamePayload(k, p, q)
    ensures Apply(k, p, vs, env, Source(trap)) == Apply(k, q, vs, env, Source(trap))
  {
  }

  /** Identifying two nodes of one kind by their key is wrong as soon as their
      payloads differ. */
  lemma {:induction false} PayloadShows(t: Term, u: Term, trap: bool)
    requires t.kind == u.kind && SameValues(t, u, Source(trap))
    ensures SamePayload(t.kind, t.payload, u.payload)
  {
    var probe: Env := (i: nat) => if i == PayloadIndex(t.payload) then Bool(true) else Bool(false);
    assert Eval(t, probe, Source(trap)) == Eval(u, probe, Source(trap));
  }

  lemma {:induction false} KeyedValues(g: Nodes, T: seq<Term>, a: nat, b: nat, env: Env, trap: bool)
    requires Labelled(g, T) && a < |g| && b < |g| && PayloadsAgree(g) && SameKey(T[a], T[b])
    ensures Eval(T[a], env, Source(trap)) == Eval(T[b], env, Source(trap))
    decreases T[a]
  {
    assert LabelAt(g, T, a) && LabelAt(g, T, b);
    var sem := Source(trap);
    assert TreeOf(T[a]).kind == TreeOf(T[b]).kind && TreeOf(T[a]).subs == TreeOf(T[b]).subs;
    forall k | 0 <= k < |T[a].args|
      ensures EvalArgs(T[a], env, sem)[k] == EvalArgs(T[b], env, sem)[k]
    {
      assert TreeOf(T[a].args[k]) == TreeOf(T[b].args[k]);
      KeyedValues(g, T, Input(g, a, k), Input(g, b, k), env, trap);
    }
    assert EvalArgs(T[a], env, sem) == EvalArgs(T[b], env, sem);
    ByKeyOn(g, T, a, b);
    PayloadMatters(T[a].kind, T[a].payload, T[b].payload, EvalArgs(T[a], env, sem), env, trap);
  }

  /** The matcher's equivalence is sound on a graph exactly when nodes of the
      same key carry the same payload. */
  lemma {:induction false} ByKeySoundIff(g: Nodes, T: seq<Term>, trap: bool)
    requires Labelled(g, T)
    ensures SoundOn(ByKey(), g, T, Source(trap)) <==> PayloadsAgree(g)
  {
    forall a: nat, b: nat | a < |g| && b < |g| && ByKey()(g, a, b)
      ensures SoundPair(ByKey(), g, T, a, b, Source(trap)) ==> SamePayload(g[a].kind, g[a].payload, g[b].payload)
      ensures PayloadsAgree(g) ==> SoundPair(ByKey(), g, T, a, b, Source(trap))
    {
      KeyedPair(g, T, a, b, trap);
    }
    forall a: nat, b: nat | a < |g| && b < |g|
      ensures PayloadsAgree(g) ==> SoundPair(ByKey(), g, T, a, b, Source(trap))
    {
    }
  }

  lemma {:induction false} KeyedPair(g: Nodes, T: seq<Term>, a: nat, b: nat, trap: bool)
    requires Labelled(g, T) && a < |g| && b < |g| && ByKey()(g, a, b)
    ensures SameValues(T[a], T[b], Source(trap)) ==> SamePayload(g[a].kind, g[a].payload, g[b].payload)
    ensures PayloadsAgree(g) ==> SameValues(T[a], T[b], Source(trap))
  {
    ByKeyOn(g, T, a, b);
    assert LabelAt(g, T, a) && LabelAt(g, T, b);
    assert TreeOf(T[a]).kind == TreeOf(T[b]).kind;
    if SameValues(T[a], T[b], Source(trap)) {
      PayloadShows(T[a], T[b], trap);
    }
    if PayloadsAgree(g) && a != b {
      forall env ensures Eval(T[a], env, Source(trap)) == Eval(T[b], env, Source(trap)) {
        KeyedValues(g, T, a, b, env, trap);
      }
    }
  }

  /** On such a graph a sound rule matched by key keeps the matched node's value. */
  lemma {:induction false} KeyedMatchPreserves(g: Nodes, T: seq<Term>, r: Rule, n: nat, trap: bool)
    requires Labelled(g, T) && SlotsSet(g) && n < |g| && PayloadsAgree(g)
    requires Instantiable(r) && RuleSound(r, Source(trap)) && Match(g, ByKey(), [], r.lhs, Some(n)).Some?
    ensures Covers(Match(g, ByKey(), [], r.lhs, Some(n)).value, Vars(r.rhs), T)
    ensures Preserves(T[n], Inst(r.rhs, T, Match(g, ByKey(), [], r.lhs, Some(n)).value), Source(trap))
  {
    ByKeySoundIff(g, T, trap);
    MatchCovers(g, T, ByKey(), r, n);
    MatchPreserves(g, T, ByKey(), r, n, Source(trap));
  }

  // ----- A rewrite that goes wrong -----

  function SubSelf(): Rule {
    Rule("sub-self", NodePat(Sub, [Var("x"), Var("x")]), IntConst(0), true)
  }

  /** Binding a name twice compares the nodes. */
  lemma {:induction false} BindTwice(g: Nodes, same: Equivalence, x: string, a: nat, b: nat)
    ensures Bind(g, same, [], x, Some(a)) == Some([Binding(x, Some(a))])
    ensures Bind(g, same, [Binding(x, Some(a))], x, Some(b)).Some? <==> a == b || same(g, a, b)
  {
    var s := [Binding(x, Some(a))];
    assert [] + [Binding(x, Some(a))] == s;
    assert Bound(s, x) by { assert s[0].name == x; }
    assert Lookup(s, x) == Some(Some(a));
  }

  /** The shipped rule `sub-self` fires at a subtraction exactly when its
      operands have the same key. */
  lemma {:induction false} SubSelfFires(g: Nodes, T: seq<Term>, n: nat)
    requires Labelled(g, T) && n < |g| && g[n].kind == Sub && |g[n].inputs| == 2
    ensures SubSelf() in StdRules.SubRules() && SlotsSet(g)
    ensures Applicable(g, ByKey(), SubSelf(), n) <==> ByKey()(g, g[n].inputs[0].value, g[n].inputs[1].value)
  {
    assert StdRules.SubRules()[2] == SubSelf();
    LabelledSlotsSet(g, T);
    assert InputsSet(g, g[n].inputs);
    PairMatches(g, ByKey(), g[n].inputs);
  }

  lemma {:induction false} PairMatches(g: Nodes, same: Equivalence, ins: seq<Option<nat>>)
    requires SlotsSet(g) && InputsSet(g, ins) && |ins| == 2
    ensures MatchAll(g, same, [], [Var("x"), Var("x")], ins).Some? <==> ins[0] == ins[1] || same(g, ins[0].value, ins[1].value)
  {
    var ps := [Var("x"), Var("x")];
    var a, b := ins[0].value, ins[1].value;
    BindTwice(g, same, "x", a, b);
    var s := [Binding("x", Some(a))];
    assert Match(g, same, [], ps[0], ins[0]) == Some(s);
    assert MatchAll(g, same, s, ps[1..], ins[1..]).Some? <==> Match(g, same, s, ps[1..][0], ins[1..][0]).Some?;
  }

  /** Where both operands are integers they are equal. */
  ghost predicate OperandsAgree(t: Term, env: Env, sem: Sem)
    requires |t.args| == 2
  {
    var v, w := Eval(t.args[0], env, sem), Eval(t.args[1], env, sem);
    v.Int? && w.Int? ==> v == w
  }

  lemma {:induction false} DifferenceZero(v: Value, w: Value, trap: bool)
    ensures Refines(Binary(Sub, v, w, Source(trap)), Int(0)) <==> (v.Int? && w.Int? ==> v == w)
  {
  }

  lemma {:induction false} ZeroValue(env: Env, sem: Sem)
    ensures Eval(Term(ConstInt, IntPayload(0), []), env, sem) == Int(0)
  {
  }

  lemma {:induction false} SubSelfAt(t: Term, env: Env, trap: bool)
    requires t.kind == Sub && |t.args| == 2
    ensures Refines(Eval(t, env, Source(trap)), Eval(Term(ConstInt, IntPayload(0), []), env, Source(trap)))
            <==> OperandsAgree(t, env, Source(trap))
  {
    var vs := EvalArgs(t, env, Source(trap));
    ZeroValue(env, Source(trap));
    DifferenceZero(vs[0], vs[1], trap);
    assert Eval(t, env, Source(trap)) == Binary(Sub, vs[0], vs[1], Source(trap));
  }

  /** What it builds keeps the value of the subtraction exactly when the operands
      are equal wherever both are integers. */
  lemma {:induction false} SubSelfExact(t: Term, trap: bool)
    requires t.kind == Sub && |t.args| == 2
    ensures Preserves(t, Term(ConstInt, IntPayload(0), []), Source(trap)) <==> forall env :: OperandsAgree(t, env, Source(trap))
  {
    forall env
      ensures Refines(Eval(t, env, Source(trap)), Eval(Term(ConstInt, IntPayload(0), []), env, Source(trap)))
              <==> OperandsAgree(t, env, Source(trap))
    {
      SubSelfAt(t, env, trap);
    }
  }

  function TwoParams(): Nodes {
    [Node(Param, I32, IndexPayload(0), [], [], [2], false),
     Node(Param, I32, IndexPayload(1), [], [], [2], false),
     Node(Sub, I32, NoPayload, [Some(0), Some(1)], [DataEdge, DataEdge], [], false)]
  }

  ghost function TwoParamTerms(): seq<Term> {
    var a, b := Term(Param, IndexPayload(0), []), Term(Param, IndexPayload(1), []);
    [a, b, Term(Sub, NoPayload, [a, b])]
  }

  lemma {:induction false} ParamValue(i: nat, env: Env, sem: Sem)
    ensures Eval(Term(Param, IndexPayload(i), []), env, sem) == env(i)
  {
  }

  lemma {:induction false} ParamKey(i: nat)
    ensures TreeOf(Term(Param, IndexPayload(i), [])) == KindTree(Param, []) && Narrow(Term(Param, IndexPayload(i), []))
  {
  }

  lemma {:induction false} ParamsDiffer(sem: Sem) returns (env: Env)
    ensures !OperandsAgree(TwoParamTerms()[2], env, sem)
  {
    env := (i: nat) => Int(if i == 0 then 1 else 0);
    ParamValue(0, env, sem);
    ParamValue(1, env, sem);
  }

  lemma {:induction false} TwoParamsLabelled()
    ensures Labelled(TwoParams(), TwoParamTerms())
  {
    var g, T := TwoParams(), TwoParamTerms();
    assert T[2].args[0] == T[0] && T[2].args[1] == T[1];
    forall n: nat | n < |g|
      ensures LabelAt(g, T, n)
    {
    }
  }

  lemma {:induction false} TwoParamsKeyed()
    ensures ByKey()(TwoParams(), 0, 1) && !PayloadsAgree(TwoParams())
  {
    TwoParamsLabelled();
    ParamKey(0);
    ParamKey(1);
    ByKeyOn(TwoParams(), TwoParamTerms(), 0, 1);
  }

  lemma {:induction false} TwoParamsWrong(trap: bool)
    ensures !Preserves(TwoParamTerms()[2], Term(ConstInt, IntPayload(0), []), Source(trap))
  {
    var env := ParamsDiffer(Source(trap));
    SubSelfExact(TwoParamTerms()[2], trap);
  }

  /** `sub-self` fires at the difference of two parameters and what it builds is
      wrong. */
  lemma {:induction false} SubSelfWrong(trap: bool)
    ensures Labelled(TwoParams(), TwoParamTerms()) && Applicable(TwoParams(), ByKey(), SubSelf(), 2)
    ensures !Preserves(TwoParamTerms()[2], Inst(SubSelf().rhs, TwoParamTerms(), []), Source(trap))
    ensures !PayloadsAgree(TwoParams())
  {
    TwoParamsLabelled();
    TwoParamsKeyed();
    SubSelfFires(TwoParams(), TwoParamTerms(), 2);
    TwoParamsWrong(trap);
  }
}
