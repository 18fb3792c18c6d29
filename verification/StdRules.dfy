/**
 The rewrite rules shipped with the compiler, and the proof that they are
 identities over wrap-around integers and booleans and always make a term
 lighter.
 */
module StdRules {
  import opened Wrappers
  import opened Listing
  import opened Values
  import opened Terms
  import opened WilGraph
  import opened Unfolding
  import opened Patterns
  import opened Rules
  import opened Rewriter

  ghost predicate Keeps(r: Rule, rho: Valuation, env: Env, sem: Sem) {
    Refines(PatEval(r.lhs, rho, env, sem), PatEval(r.rhs, rho, env, sem))
  }

  /** Supported kinds on both sides, no unbound variable, and a lighter right side. */
  ghost predicate Structured(r: Rule) {
    && Buildable(r.lhs) && Buildable(r.rhs) && RootFree(r.lhs)
    && Vars(r.rhs) <= Vars(r.lhs)
    && Shrinks(r) && PatWeight(r.lhs) <= MAX_VARS
  }

  /** A structured rule whose two sides are equal for all values of its variables. */
  ghost predicate Good(r: Rule, sem: Sem) {
    Structured(r) && forall rho: Valuation, env: Env :: Keeps(r, rho, env, sem)
  }

  /** The validator accepts structured rules. */
  lemma {:induction false} StructuredValid(r: Rule)
    requires Structured(r)
    ensures Validate(r)
  {
    VarsFew(r.lhs);
    SubsetSize(Vars(r.rhs), Vars(r.lhs));
    ValidateExact(r);
  }

  // ----- Unfolding small patterns -----

  lemma {:induction false} VarsCons(p: Pattern, ps: seq<Pattern>)
    ensures VarsAll([p] + ps) == Vars(p) + VarsAll(ps)
  {
    assert ([p] + ps)[1..] == ps;
  }

  lemma {:induction false} WeightCons(p: Pattern, ps: seq<Pattern>)
    ensures PatWeightAll([p] + ps) == PatWeight(p) + PatWeightAll(ps)
  {
    assert ([p] + ps)[1..] == ps;
  }

  lemma {:induction false} LinearCons(p: Pattern, ps: seq<Pattern>)
    ensures LinearAll([p] + ps) <==> Linear(p) && Vars(p) !! VarsAll(ps) && LinearAll(ps)
  {
    assert ([p] + ps)[1..] == ps;
  }

  lemma {:induction false} BuildableCons(p: Pattern, ps: seq<Pattern>)
    ensures BuildableAll([p] + ps) <==> Buildable(p) && BuildableAll(ps)
  {
    assert ([p] + ps)[1..] == ps;
  }

  lemma {:induction false} Cons(p: Pattern, ps: seq<Pattern>)
    ensures VarsAll([p] + ps) == Vars(p) + VarsAll(ps)
    ensures PatWeightAll([p] + ps) == PatWeight(p) + PatWeightAll(ps)
    ensures LinearAll([p] + ps) <==> Linear(p) && Vars(p) !! VarsAll(ps) && LinearAll(ps)
    ensures BuildableAll([p] + ps) <==> Buildable(p) && BuildableAll(ps)
  {
    VarsCons(p, ps);
    WeightCons(p, ps);
    LinearCons(p, ps);
    BuildableCons(p, ps);
  }

  lemma {:induction false} Shape1(k: Kind, p: Pattern)
    requires IsUnary(k)
    ensures Vars(NodePat(k, [p])) == Vars(p)
    ensures PatWeight(NodePat(k, [p])) == KindWeight(k) + PatWeight(p)
    ensures Linear(NodePat(k, [p])) <==> Linear(p)
    ensures Buildable(NodePat(k, [p])) <==> Buildable(p)
  {
    Cons(p, []);
    assert [p] + [] == [p];
  }

  lemma {:induction false} Two(p: Pattern, q: Pattern)
    ensures VarsAll([p, q]) == Vars(p) + Vars(q)
    ensures PatWeightAll([p, q]) == PatWeight(p) + PatWeight(q)
    ensures LinearAll([p, q]) <==> Linear(p) && Linear(q) && Vars(p) !! Vars(q)
    ensures BuildableAll([p, q]) <==> Buildable(p) && Buildable(q)
  {
    Cons(q, []);
    assert [q] + [] == [q];
    Cons(p, [q]);
    assert [p] + [q] == [p, q];
  }

  lemma {:induction false} Shape2(k: Kind, p: Pattern, q: Pattern)
    requires IsBinary(k)
    ensures Vars(NodePat(k, [p, q])) == Vars(p) + Vars(q)
    ensures PatWeight(NodePat(k, [p, q])) == KindWeight(k) + PatWeight(p) + PatWeight(q)
    ensures Linear(NodePat(k, [p, q])) <==> Linear(p) && Linear(q) && Vars(p) !! Vars(q)
    ensures Buildable(NodePat(k, [p, q])) <==> Buildable(p) && Buildable(q)
  {
    Two(p, q);
  }

  lemma {:induction false} Three(p: Pattern, q: Pattern, r: Pattern)
    ensures VarsAll([p, q, r]) == Vars(p) + (Vars(q) + Vars(r))
    ensures PatWeightAll([p, q, r]) == PatWeight(p) + PatWeight(q) + PatWeight(r)
    ensures LinearAll([p, q, r])
         <==> (Linear(p) && Linear(q) && Linear(r) && Vars(p) !! (Vars(q) + Vars(r)) && Vars(q) !! Vars(r))
    ensures BuildableAll([p, q, r]) <==> Buildable(p) && Buildable(q) && Buildable(r)
  {
    Two(q, r);
    Cons(p, [q, r]);
    assert [p] + [q, r] == [p, q, r];
  }

  lemma {:induction false} NodeShape(k: Kind, ps: seq<Pattern>)
    ensures Vars(NodePat(k, ps)) == VarsAll(ps) && PatWeight(NodePat(k, ps)) == KindWeight(k) + PatWeightAll(ps)
    ensures Buildable(NodePat(k, ps)) <==> Arity(k) == Some(|ps|) && BuildableAll(ps)
  {
  }

  lemma {:induction false} Shape3(p: Pattern, q: Pattern, r: Pattern)
    ensures Vars(NodePat(Select, [p, q, r])) == Vars(p) + (Vars(q) + Vars(r))
    ensures PatWeight(NodePat(Select, [p, q, r])) == 1 + PatWeight(p) + PatWeight(q) + PatWeight(r)
    ensures Buildable(p) && Buildable(q) && Buildable(r) ==> Buildable(NodePat(Select, [p, q, r]))
  {
    Three(p, q, r);
    NodeShape(Select, [p, q, r]);
  }

  lemma {:induction false} Eval1(k: Kind, p: Pattern, rho: Valuation, env: Env, sem: Sem)
    requires IsUnary(k)
    ensures PatEval(NodePat(k, [p]), rho, env, sem) == Unary(k, PatEval(p, rho, env, sem), sem)
  {
    assert PatEvalAll([p], rho, env, sem) == [PatEval(p, rho, env, sem)] + PatEvalAll([], rho, env, sem);
  }

  lemma {:induction false} Args2(p: Pattern, q: Pattern, rho: Valuation, env: Env, sem: Sem)
    ensures PatEvalAll([p, q], rho, env, sem) == [PatEval(p, rho, env, sem), PatEval(q, rho, env, sem)]
  {
    assert [p, q][1..] == [q];
    assert PatEvalAll([q], rho, env, sem) == [PatEval(q, rho, env, sem)];
  }

  lemma {:induction false} ApplyBinary(k: Kind, v: Value, w: Value, env: Env, sem: Sem)
    requires IsBinary(k)
    ensures Apply(k, NoPayload, [v, w], env, sem) == Binary(k, v, w, sem)
  {
  }

  lemma {:induction false} EvalNode(k: Kind, ps: seq<Pattern>, vs: seq<Value>, rho: Valuation, env: Env, sem: Sem)
    requires vs == PatEvalAll(ps, rho, env, sem)
    ensures PatEval(NodePat(k, ps), rho, env, sem) == Apply(k, NoPayload, vs, env, sem)
  {
  }

  lemma {:induction false} Eval2(k: Kind, p: Pattern, q: Pattern, rho: Valuation, env: Env, sem: Sem)
    requires IsBinary(k)
    ensures PatEval(NodePat(k, [p, q]), rho, env, sem) == Binary(k, PatEval(p, rho, env, sem), PatEval(q, rho, env, sem), sem)
  {
    var v, w := PatEval(p, rho, env, sem), PatEval(q, rho, env, sem);
    Args2(p, q, rho, env, sem);
    EvalNode(k, [p, q], [v, w], rho, env, sem);
    ApplyBinary(k, v, w, env, sem);
  }

  lemma {:induction false} ApplySelect(c: Value, v: Value, w: Value, env: Env, sem: Sem)
    requires sem.Source?
    ensures Apply(Select, NoPayload, [c, v, w], env, sem) == if !c.Bool? then Undef else if c.b then v else w
  {
  }

  lemma {:induction false} Args3(p: Pattern, q: Pattern, r: Pattern, rho: Valuation, env: Env, sem: Sem)
    ensures PatEvalAll([p, q, r], rho, env, sem) == [PatEval(p, rho, env, sem), PatEval(q, rho, env, sem), PatEval(r, rho, env, sem)]
  {
    Args2(q, r, rho, env, sem);
    assert [p, q, r][1..] == [q, r];
  }

  lemma {:induction false} Eval3(p: Pattern, q: Pattern, r: Pattern, rho: Valuation, env: Env, sem: Sem)
    requires sem.Source?
    ensures PatEval(NodePat(Select, [p, q, r]), rho, env, sem)
         == var c := PatEval(p, rho, env, sem);
            if !c.Bool? then Undef else if c.b then PatEval(q, rho, env, sem) else PatEval(r, rho, env, sem)
  {
    var u, v, w := PatEval(p, rho, env, sem), PatEval(q, rho, env, sem), PatEval(r, rho, env, sem);
    Args3(p, q, r, rho, env, sem);
    EvalNode(Select, [p, q, r], [u, v, w], rho, env, sem);
    ApplySelect(u, v, w, env, sem);
  }

  // ----- Identities over values -----

  predicate Leaf(p: Pattern) {
    p.Var? || p.IntConst? || p.BoolConst?
  }

  function LeafValue(p: Pattern, rho: Valuation): Value
    requires Leaf(p)
  {
    match p
    case Var(x) => rho(x)
    case IntConst(n) => Int(Wrap(n))
    case BoolConst(b) => Bool(b)
  }

  /** The law `k(a, b) = r` over all values of the variables. */
  ghost predicate BinaryLaw(k: Kind, a: Pattern, b: Pattern, r: Pattern, sem: Sem)
    requires IsBinary(k) && Leaf(a) && Leaf(b) && Leaf(r)
  {
    forall rho: Valuation :: Refines(Binary(k, LeafValue(a, rho), LeafValue(b, rho), sem), LeafValue(r, rho))
  }

  /** The law `k(a, b) = u(r)`. */
  ghost predicate BinaryUnaryLaw(k: Kind, a: Pattern, b: Pattern, u: Kind, r: Pattern, sem: Sem)
    requires IsBinary(k) && IsUnary(u) && Leaf(a) && Leaf(b) && Leaf(r)
  {
    forall rho: Valuation :: Refines(Binary(k, LeafValue(a, rho), LeafValue(b, rho), sem), Unary(u, LeafValue(r, rho), sem))
  }

  /** The law `k(a) = r`. */
  ghost predicate UnaryLaw(k: Kind, a: Pattern, r: Pattern, sem: Sem)
    requires IsUnary(k) && Leaf(a) && Leaf(r)
  {
    forall rho: Valuation :: Refines(Unary(k, LeafValue(a, rho), sem), LeafValue(r, rho))
  }

  lemma {:induction false} AddLaws(x: Pattern, sem: Sem)
    requires x.Var?
    ensures BinaryLaw(Add, x, IntConst(0), x, sem) && BinaryLaw(Add, IntConst(0), x, x, sem)
  {
  }

  lemma {:induction false} SubLaws(x: Pattern, sem: Sem)
    requires x.Var?
    ensures BinaryLaw(Sub, x, IntConst(0), x, sem) && BinaryLaw(Sub, x, x, IntConst(0), sem)
    ensures BinaryUnaryLaw(Sub, IntConst(0), x, Neg, x, sem)
  {
  }

  lemma {:induction false} MulLaws(x: Pattern, sem: Sem)
    requires x.Var?
    ensures BinaryLaw(Mul, x, IntConst(1), x, sem) && BinaryLaw(Mul, IntConst(1), x, x, sem)
    ensures BinaryLaw(Mul, x, IntConst(0), IntConst(0), sem) && BinaryLaw(Mul, IntConst(0), x, IntConst(0), sem)
  {
  }

  lemma {:induction false} MinusOneLaws(x: Pattern, sem: Sem)
    requires x.Var?
    ensures BinaryUnaryLaw(Mul, x, IntConst(-1), Neg, x, sem) && BinaryUnaryLaw(Mul, IntConst(-1), x, Neg, x, sem)
  {
  }

  lemma {:induction false} DivLaws(x: Pattern, sem: Sem)
    requires x.Var?
    ensures BinaryLaw(Div, x, IntConst(1), x, sem) && BinaryLaw(Mod, x, IntConst(1), IntConst(0), sem)
  {
  }

  lemma {:induction false} DivSelfLaw(x: Pattern)
    requires x.Var?
    ensures BinaryLaw(Div, x, x, IntConst(1), Source(true))
  {
  }

  lemma {:induction false} ZeroLaws(sem: Sem)
    requires sem.Source?
    ensures UnaryLaw(Neg, IntConst(0), IntConst(0), sem) && UnaryLaw(Abs, IntConst(0), IntConst(0), sem)
  {
  }

  lemma {:induction false} ShiftLaws(x: Pattern, sem: Sem)
    requires x.Var?
    ensures BinaryLaw(Shl, x, IntConst(0), x, sem) && BinaryLaw(Shr, x, IntConst(0), x, sem)
  {
  }

  lemma {:induction false} AndLaws(x: Pattern, sem: Sem)
    requires x.Var? && sem.Source?
    ensures BinaryLaw(And, x, BoolConst(true), x, sem) && BinaryLaw(And, BoolConst(true), x, x, sem)
    ensures BinaryLaw(And, x, BoolConst(false), BoolConst(false), sem) && BinaryLaw(And, BoolConst(false), x, BoolConst(false), sem)
  {
  }

  lemma {:induction false} OrLaws(x: Pattern, sem: Sem)
    requires x.Var? && sem.Source?
    ensures BinaryLaw(Or, x, BoolConst(false), x, sem) && BinaryLaw(Or, BoolConst(false), x, x, sem)
    ensures BinaryLaw(Or, x, BoolConst(true), BoolConst(true), sem) && BinaryLaw(Or, BoolConst(true), x, BoolConst(true), sem)
  {
  }

  lemma {:induction false} XorLaws(x: Pattern, sem: Sem)
    requires x.Var? && sem.Source?
    ensures BinaryLaw(Xor, x, BoolConst(false), x, sem) && BinaryLaw(Xor, BoolConst(false), x, x, sem)
  {
  }

  lemma {:induction false} IdempotentLaws(x: Pattern, sem: Sem)
    requires x.Var? && sem.Source?
    ensures BinaryLaw(And, x, x, x, sem) && BinaryLaw(Or, x, x, x, sem)
  {
    forall rho: Valuation
      ensures Refines(Binary(And, LeafValue(x, rho), LeafValue(x, rho), sem), LeafValue(x, rho))
      ensures Refines(Binary(Or, LeafValue(x, rho), LeafValue(x, rho), sem), LeafValue(x, rho))
    {
      var v := LeafValue(x, rho);
      if v.Int? {
        BitsSelf(AndBits, v.i);
        BitsSelf(OrBits, v.i);
      }
    }
  }

  lemma {:induction false} NotLaws(sem: Sem)
    requires sem.Source?
    ensures UnaryLaw(Not, BoolConst(true), BoolConst(false), sem) && UnaryLaw(Not, BoolConst(false), BoolConst(true), sem)
  {
  }

  lemma {:induction false} EqualLaws(x: Pattern, sem: Sem)
    requires x.Var? && sem.Source?
    ensures BinaryLaw(Eq, x, x, BoolConst(true), sem) && BinaryLaw(Ne, x, x, BoolConst(false), sem)
  {
  }

  lemma {:induction false} NotNotValue(sem: Sem)
    requires sem.Source?
    ensures forall v :: Refines(Unary(Not, Unary(Not, v, sem), sem), v)
  {
  }

  lemma {:induction false} NegNegValue(sem: Sem)
    ensures forall v :: Refines(Unary(Neg, Unary(Neg, v, sem), sem), v)
  {
  }

  lemma {:induction false} AbsNegValue(v: Value, sem: Sem)
    ensures Refines(Unary(Abs, Unary(Neg, v, sem), sem), Unary(Abs, v, sem))
  {
  }

  lemma {:induction false} DoubleValue(v: Value, sem: Sem)
    ensures Refines(Binary(Add, v, v, sem), Binary(Mul, v, Int(2), sem))
  {
  }

  lemma {:induction false} AddNegValue(v: Value, w: Value, sem: Sem)
    ensures Refines(Binary(Add, v, Unary(Neg, w, sem), sem), Binary(Sub, v, w, sem))
    ensures Refines(Binary(Add, Unary(Neg, w, sem), v, sem), Binary(Sub, v, w, sem))
  {
    if v.Int? && w.Int? {
      WrapAdd(v.i, 0 - w.i);
    }
  }

  lemma {:induction false} SubNegValue(v: Value, w: Value, sem: Sem)
    ensures Refines(Binary(Sub, v, Unary(Neg, w, sem), sem), Binary(Add, v, w, sem))
  {
  }

  lemma {:induction false} CompareValues(sem: Sem)
    requires sem.Source?
    ensures forall v, w :: Refines(Unary(Not, Binary(Eq, v, w, sem), sem), Binary(Ne, v, w, sem))
    ensures forall v, w :: Refines(Unary(Not, Binary(Ne, v, w, sem), sem), Binary(Eq, v, w, sem))
    ensures forall v, w :: Refines(Unary(Not, Binary(Lt, v, w, sem), sem), Binary(Ge, v, w, sem))
    ensures forall v, w :: Refines(Unary(Not, Binary(Le, v, w, sem), sem), Binary(Gt, v, w, sem))
    ensures forall v, w :: Refines(Unary(Not, Binary(Gt, v, w, sem), sem), Binary(Le, v, w, sem))
    ensures forall v, w :: Refines(Unary(Not, Binary(Ge, v, w, sem), sem), Binary(Lt, v, w, sem))
  {
  }

  // ----- Rule families -----

  lemma {:induction false} LeafEval(p: Pattern, rho: Valuation, env: Env, sem: Sem)
    requires Leaf(p) && sem.Source?
    ensures PatEval(p, rho, env, sem) == LeafValue(p, rho)
  {
  }

  lemma {:induction false} Binary2Leaf(name: string, k: Kind, a: Pattern, b: Pattern, r: Pattern, sem: Sem)
    requires IsBinary(k) && Leaf(a) && Leaf(b) && Leaf(r) && Vars(r) <= Vars(a) + Vars(b) && sem.Source?
    requires BinaryLaw(k, a, b, r, sem)
    ensures Good(Rule(name, NodePat(k, [a, b]), r, true), sem)
  {
    Shape2(k, a, b);
    forall rho: Valuation, env: Env
      ensures Keeps(Rule(name, NodePat(k, [a, b]), r, true), rho, env, sem)
    {
      Eval2(k, a, b, rho, env, sem);
      LeafEval(a, rho, env, sem);
      LeafEval(b, rho, env, sem);
      LeafEval(r, rho, env, sem);
      assert Refines(Binary(k, LeafValue(a, rho), LeafValue(b, rho), sem), LeafValue(r, rho));
    }
  }

  lemma {:induction false} Unary2Leaf(name: string, k: Kind, a: Pattern, r: Pattern, sem: Sem)
    requires IsUnary(k) && Leaf(a) && Leaf(r) && Vars(r) <= Vars(a) && sem.Source?
    requires UnaryLaw(k, a, r, sem)
    ensures Good(Rule(name, NodePat(k, [a]), r, true), sem)
  {
    Shape1(k, a);
    forall rho: Valuation, env: Env
      ensures Keeps(Rule(name, NodePat(k, [a]), r, true), rho, env, sem)
    {
      Eval1(k, a, rho, env, sem);
      LeafEval(a, rho, env, sem);
      LeafEval(r, rho, env, sem);
      assert Refines(Unary(k, LeafValue(a, rho), sem), LeafValue(r, rho));
    }
  }

  lemma {:induction false} Binary2Unary(name: string, k: Kind, a: Pattern, b: Pattern, u: Kind, r: Pattern, sem: Sem)
    requires IsBinary(k) && IsUnary(u) && Leaf(a) && Leaf(b) && Leaf(r) && Vars(r) <= Vars(a) + Vars(b) && sem.Source?
    requires BinaryUnaryLaw(k, a, b, u, r, sem)
    ensures Good(Rule(name, NodePat(k, [a, b]), NodePat(u, [r]), true), sem)
  {
    assert Structured(Rule(name, NodePat(k, [a, b]), NodePat(u, [r]), true)) by {
      Shape2(k, a, b);
      Shape1(u, r);
    }
    forall rho: Valuation, env: Env
      ensures Keeps(Rule(name, NodePat(k, [a, b]), NodePat(u, [r]), true), rho, env, sem)
    {
      BinaryUnaryEval(k, a, b, u, r, rho, env, sem);
      assert Refines(Binary(k, LeafValue(a, rho), LeafValue(b, rho), sem), Unary(u, LeafValue(r, rho), sem));
    }
  }

  lemma {:induction false} BinaryUnaryEval(k: Kind, a: Pattern, b: Pattern, u: Kind, r: Pattern, rho: Valuation, env: Env, sem: Sem)
    requires IsBinary(k) && IsUnary(u) && Leaf(a) && Leaf(b) && Leaf(r) && sem.Source?
    ensures PatEval(NodePat(k, [a, b]), rho, env, sem) == Binary(k, LeafValue(a, rho), LeafValue(b, rho), sem)
    ensures PatEval(NodePat(u, [r]), rho, env, sem) == Unary(u, LeafValue(r, rho), sem)
  {
    Eval2(k, a, b, rho, env, sem);
    Eval1(u, r, rho, env, sem);
    LeafEval(a, rho, env, sem);
    LeafEval(b, rho, env, sem);
    LeafEval(r, rho, env, sem);
  }

  lemma {:induction false} UnaryUnary2Leaf(name: string, k: Kind, u: Kind, x: Pattern, sem: Sem)
    requires IsUnary(k) && IsUnary(u) && x.Var? && sem.Source?
    requires forall v :: Refines(Unary(k, Unary(u, v, sem), sem), v)
    ensures Good(Rule(name, NodePat(k, [NodePat(u, [x])]), x, true), sem)
  {
    Shape1(u, x);
    Shape1(k, NodePat(u, [x]));
    forall rho: Valuation, env: Env
      ensures Keeps(Rule(name, NodePat(k, [NodePat(u, [x])]), x, true), rho, env, sem)
    {
      Eval1(u, x, rho, env, sem);
      Eval1(k, NodePat(u, [x]), rho, env, sem);
    }
  }

  lemma {:induction false} AbsNeg(sem: Sem)
    requires sem.Source?
    ensures Good(Rule("abs-neg", NodePat(Abs, [NodePat(Neg, [Var("x")])]), NodePat(Abs, [Var("x")]), true), sem)
  {
    var x := Var("x");
    Shape1(Neg, x);
    Shape1(Abs, NodePat(Neg, [x]));
    Shape1(Abs, x);
    forall rho: Valuation, env: Env
      ensures Keeps(Rule("abs-neg", NodePat(Abs, [NodePat(Neg, [x])]), NodePat(Abs, [x]), true), rho, env, sem)
    {
      Eval1(Neg, x, rho, env, sem);
      Eval1(Abs, NodePat(Neg, [x]), rho, env, sem);
      Eval1(Abs, x, rho, env, sem);
      AbsNegValue(rho("x"), sem);
    }
  }

  lemma {:induction false} AddSelf(sem: Sem)
    requires sem.Source?
    ensures Good(Rule("add-self", NodePat(Add, [Var("x"), Var("x")]), NodePat(Mul, [Var("x"), IntConst(2)]), true), sem)
  {
    var x := Var("x");
    Shape2(Add, x, x);
    Shape2(Mul, x, IntConst(2));
    forall rho: Valuation, env: Env
      ensures Keeps(Rule("add-self", NodePat(Add, [x, x]), NodePat(Mul, [x, IntConst(2)]), true), rho, env, sem)
    {
      Eval2(Add, x, x, rho, env, sem);
      Eval2(Mul, x, IntConst(2), rho, env, sem);
      LeafEval(IntConst(2), rho, env, sem);
      DoubleValue(rho("x"), sem);
    }
  }

  lemma {:induction false} NegRight(name: string, k: Kind, k': Kind, sem: Sem)
    requires (k == Add && k' == Sub) || (k == Sub && k' == Add)
    requires sem.Source?
    ensures Good(Rule(name, NodePat(k, [Var("x"), NodePat(Neg, [Var("y")])]), NodePat(k', [Var("x"), Var("y")]), true), sem)
  {
    var x, y := Var("x"), Var("y");
    Shape1(Neg, y);
    Shape2(k, x, NodePat(Neg, [y]));
    Shape2(k', x, y);
    forall rho: Valuation, env: Env
      ensures Keeps(Rule(name, NodePat(k, [x, NodePat(Neg, [y])]), NodePat(k', [x, y]), true), rho, env, sem)
    {
      Eval1(Neg, y, rho, env, sem);
      Eval2(k, x, NodePat(Neg, [y]), rho, env, sem);
      Eval2(k', x, y, rho, env, sem);
      AddNegValue(rho("x"), rho("y"), sem);
      SubNegValue(rho("x"), rho("y"), sem);
    }
  }

  lemma {:induction false} AddNegLeft(sem: Sem)
    requires sem.Source?
    ensures Good(Rule("add-neg-left", NodePat(Add, [NodePat(Neg, [Var("y")]), Var("x")]), NodePat(Sub, [Var("x"), Var("y")]), true), sem)
  {
    var x, y := Var("x"), Var("y");
    Shape1(Neg, y);
    Shape2(Add, NodePat(Neg, [y]), x);
    Shape2(Sub, x, y);
    forall rho: Valuation, env: Env
      ensures Keeps(Rule("add-neg-left", NodePat(Add, [NodePat(Neg, [y]), x]), NodePat(Sub, [x, y]), true), rho, env, sem)
    {
      AddNegLeftKeeps(x, y, rho, env, sem);
    }
  }

  lemma {:induction false} AddNegLeftKeeps(x: Pattern, y: Pattern, rho: Valuation, env: Env, sem: Sem)
    requires x == Var("x") && y == Var("y")
    ensures Keeps(Rule("add-neg-left", NodePat(Add, [NodePat(Neg, [y]), x]), NodePat(Sub, [x, y]), true), rho, env, sem)
  {
    Eval1(Neg, y, rho, env, sem);
    Eval2(Add, NodePat(Neg, [y]), x, rho, env, sem);
    Eval2(Sub, x, y, rho, env, sem);
    AddNegValue(rho("x"), rho("y"), sem);
  }

  lemma {:induction false} NotCompare(name: string, k: Kind, k': Kind, sem: Sem)
    requires IsBinary(k) && IsBinary(k') && KindWeight(k) == KindWeight(k') == 1 && sem.Source?
    requires forall v, w :: Refines(Unary(Not, Binary(k, v, w, sem), sem), Binary(k', v, w, sem))
    ensures Good(Rule(name, NodePat(Not, [NodePat(k, [Var("x"), Var("y")])]), NodePat(k', [Var("x"), Var("y")]), true), sem)
  {
    var x, y := Var("x"), Var("y");
    Shape2(k, x, y);
    Shape1(Not, NodePat(k, [x, y]));
    Shape2(k', x, y);
    forall rho: Valuation, env: Env
      ensures Keeps(Rule(name, NodePat(Not, [NodePat(k, [x, y])]), NodePat(k', [x, y]), true), rho, env, sem)
    {
      Eval2(k, x, y, rho, env, sem);
      Eval1(Not, NodePat(k, [x, y]), rho, env, sem);
      Eval2(k', x, y, rho, env, sem);
    }
  }

  lemma {:induction false} Select2Leaf(name: string, c: Pattern, a: Pattern, b: Pattern, r: Pattern, sem: Sem)
    requires Leaf(c) && Leaf(a) && Leaf(b) && Leaf(r) && sem.Source?
    requires (c == BoolConst(true) && r == a) || (c == BoolConst(false) && r == b) || (a == b == r)
    ensures Good(Rule(name, NodePat(Select, [c, a, b]), r, true), sem)
  {
    assert Structured(Rule(name, NodePat(Select, [c, a, b]), r, true)) by {
      Shape3(c, a, b);
    }
    forall rho: Valuation, env: Env
      ensures Keeps(Rule(name, NodePat(Select, [c, a, b]), r, true), rho, env, sem)
    {
      Eval3(c, a, b, rho, env, sem);
      LeafEval(c, rho, env, sem);
    }
  }

  lemma {:induction false} SelectNot(sem: Sem)
    requires sem.Source?
    ensures Good(Rule("select-not-cond", NodePat(Select, [NodePat(Not, [Var("cond")]), Var("x"), Var("y")]),
                      NodePat(Select, [Var("cond"), Var("y"), Var("x")]), true), sem)
  {
    SelectNotGood("select-not-cond", Var("cond"), Var("x"), Var("y"), sem);
  }

  lemma {:induction false} SelectNotShape(name: string, c: Pattern, x: Pattern, y: Pattern)
    requires c.Var? && x.Var? && y.Var? && c != x && c != y && x != y
    ensures Structured(Rule(name, NodePat(Select, [NodePat(Not, [c]), x, y]), NodePat(Select, [c, y, x]), true))
  {
    Shape1(Not, c);
    Shape3(NodePat(Not, [c]), x, y);
    Shape3(c, y, x);
    Three(c, y, x);
  }

  lemma {:induction false} SelectNotGood(name: string, c: Pattern, x: Pattern, y: Pattern, sem: Sem)
    requires c.Var? && x.Var? && y.Var? && c != x && c != y && x != y && sem.Source?
    ensures Good(Rule(name, NodePat(Select, [NodePat(Not, [c]), x, y]), NodePat(Select, [c, y, x]), true), sem)
  {
    SelectNotShape(name, c, x, y);
    forall rho: Valuation, env: Env
      ensures Keeps(Rule(name, NodePat(Select, [NodePat(Not, [c]), x, y]), NodePat(Select, [c, y, x]), true), rho, env, sem)
    {
      Eval1(Not, c, rho, env, sem);
      Eval3(NodePat(Not, [c]), x, y, rho, env, sem);
      Eval3(c, y, x, rho, env, sem);
    }
  }

  // ----- stdrewrite/arithmetic.wrs -----

  function AddRules(): seq<Rule> {
    [
      Rule("add-zero-right", NodePat(Add, [Var("x"), IntConst(0)]), Var("x"), true),
      Rule("add-zero-left", NodePat(Add, [IntConst(0), Var("x")]), Var("x"), true)
    ]
  }

  lemma {:induction false} AddRulesGood(sem: Sem)
    requires sem.Source?
    ensures forall r :: r in AddRules() ==> Good(r, sem)
  {
    AddLaws(Var("x"), sem);
    Binary2Leaf("add-zero-right", Add, Var("x"), IntConst(0), Var("x"), sem);
    Binary2Leaf("add-zero-left", Add, IntConst(0), Var("x"), Var("x"), sem);
  }

  function SubRules(): seq<Rule> {
    [
      Rule("sub-zero", NodePat(Sub, [Var("x"), IntConst(0)]), Var("x"), true),
      Rule("sub-zero-left", NodePat(Sub, [IntConst(0), Var("x")]), NodePat(Neg, [Var("x")]), true),
      Rule("sub-self", NodePat(Sub, [Var("x"), Var("x")]), IntConst(0), true)
    ]
  }

  lemma {:induction false} SubRulesGood(sem: Sem)
    requires sem.Source?
    ensures forall r :: r in SubRules() ==> Good(r, sem)
  {
    SubLaws(Var("x"), sem);
    Binary2Leaf("sub-zero", Sub, Var("x"), IntConst(0), Var("x"), sem);
    Binary2Unary("sub-zero-left", Sub, IntConst(0), Var("x"), Neg, Var("x"), sem);
    Binary2Leaf("sub-self", Sub, Var("x"), Var("x"), IntConst(0), sem);
  }

  function MulRules(): seq<Rule> {
    [
      Rule("mul-one-right", NodePat(Mul, [Var("x"), IntConst(1)]), Var("x"), true),
      Rule("mul-one-left", NodePat(Mul, [IntConst(1), Var("x")]), Var("x"), true),
      Rule("mul-zero-right", NodePat(Mul, [Var("x"), IntConst(0)]), IntConst(0), true),
      Rule("mul-zero-left", NodePat(Mul, [IntConst(0), Var("x")]), IntConst(0), true)
    ]
  }

  lemma {:induction false} MulRulesGood(sem: Sem)
    requires sem.Source?
    ensures forall r :: r in MulRules() ==> Good(r, sem)
  {
    MulLaws(Var("x"), sem);
    Binary2Leaf("mul-one-right", Mul, Var("x"), IntConst(1), Var("x"), sem);
    Binary2Leaf("mul-one-left", Mul, IntConst(1), Var("x"), Var("x"), sem);
    Binary2Leaf("mul-zero-right", Mul, Var("x"), IntConst(0), IntConst(0), sem);
    Binary2Leaf("mul-zero-left", Mul, IntConst(0), Var("x"), IntConst(0), sem);
  }

  function DivOneRules(): seq<Rule> {
    [
      Rule("div-one", NodePat(Div, [Var("x"), IntConst(1)]), Var("x"), true)
    ]
  }

  lemma {:induction false} DivOneRulesGood(sem: Sem)
    requires sem.Source?
    ensures forall r :: r in DivOneRules() ==> Good(r, sem)
  {
    DivLaws(Var("x"), sem);
    Binary2Leaf("div-one", Div, Var("x"), IntConst(1), Var("x"), sem);
  }

  function DivSelfRules(): seq<Rule> {
    [
      Rule("div-self", NodePat(Div, [Var("x"), Var("x")]), IntConst(1), true)
    ]
  }

  lemma {:induction false} DivSelfRulesGood(sem: Sem)
    requires sem == Source(true)
    ensures forall r :: r in DivSelfRules() ==> Good(r, sem)
  {
    DivSelfLaw(Var("x"));
    Binary2Leaf("div-self", Div, Var("x"), Var("x"), IntConst(1), sem);
  }

  function ModRules(): seq<Rule> {
    [
      Rule("mod-one", NodePat(Mod, [Var("x"), IntConst(1)]), IntConst(0), true)
    ]
  }

  lemma {:induction false} ModRulesGood(sem: Sem)
    requires sem.Source?
    ensures forall r :: r in ModRules() ==> Good(r, sem)
  {
    DivLaws(Var("x"), sem);
    Binary2Leaf("mod-one", Mod, Var("x"), IntConst(1), IntConst(0), sem);
  }

  function ZeroRules(): seq<Rule> {
    [
      Rule("neg-zero", NodePat(Neg, [IntConst(0)]), IntConst(0), true),
      Rule("abs-zero", NodePat(Abs, [IntConst(0)]), IntConst(0), true)
    ]
  }

  lemma {:induction false} ZeroRulesGood(sem: Sem)
    requires sem.Source?
    ensures forall r :: r in ZeroRules() ==> Good(r, sem)
  {
    ZeroLaws(sem);
    Unary2Leaf("neg-zero", Neg, IntConst(0), IntConst(0), sem);
    Unary2Leaf("abs-zero", Abs, IntConst(0), IntConst(0), sem);
  }

  function ShiftRules(): seq<Rule> {
    [
      Rule("shl-zero", NodePat(Shl, [Var("x"), IntConst(0)]), Var("x"), true),
      Rule("shr-zero", NodePat(Shr, [Var("x"), IntConst(0)]), Var("x"), true)
    ]
  }

  lemma {:induction false} ShiftRulesGood(sem: Sem)
    requires sem.Source?
    ensures forall r :: r in ShiftRules() ==> Good(r, sem)
  {
    ShiftLaws(Var("x"), sem);
    Binary2Leaf("shl-zero", Shl, Var("x"), IntConst(0), Var("x"), sem);
    Binary2Leaf("shr-zero", Shr, Var("x"), IntConst(0), Var("x"), sem);
  }

  function DoubleRules(): seq<Rule> {
    [
      Rule("add-self", NodePat(Add, [Var("x"), Var("x")]), NodePat(Mul, [Var("x"), IntConst(2)]), true)
    ]
  }

  lemma {:induction false} DoubleRulesGood(sem: Sem)
    requires sem.Source?
    ensures forall r :: r in DoubleRules() ==> Good(r, sem)
  {
    AddSelf(sem);
  }

  // ----- stdrewrite/logic.wrs -----

  function AndRules(): seq<Rule> {
    [
      Rule("and-true-right", NodePat(And, [Var("x"), BoolConst(true)]), Var("x"), true),
      Rule("and-true-left", NodePat(And, [BoolConst(true), Var("x")]), Var("x"), true),
      Rule("and-false-right", NodePat(And, [Var("x"), BoolConst(false)]), BoolConst(false), true),
      Rule("and-false-left", NodePat(And, [BoolConst(false), Var("x")]), BoolConst(false), true),
      Rule("and-idempotent", NodePat(And, [Var("x"), Var("x")]), Var("x"), true)
    ]
  }

  lemma {:induction false} AndRulesGood(sem: Sem)
    requires sem.Source?
    ensures forall r :: r in AndRules() ==> Good(r, sem)
  {
    AndLaws(Var("x"), sem); IdempotentLaws(Var("x"), sem);
    Binary2Leaf("and-true-right", And, Var("x"), BoolConst(true), Var("x"), sem);
    Binary2Leaf("and-true-left", And, BoolConst(true), Var("x"), Var("x"), sem);
    Binary2Leaf("and-false-right", And, Var("x"), BoolConst(false), BoolConst(false), sem);
    Binary2Leaf("and-false-left", And, BoolConst(false), Var("x"), BoolConst(false), sem);
    Binary2Leaf("and-idempotent", And, Var("x"), Var("x"), Var("x"), sem);
  }

  function OrRules(): seq<Rule> {
    [
      Rule("or-false-right", NodePat(Or, [Var("x"), BoolConst(false)]), Var("x"), true),
      Rule("or-false-left", NodePat(Or, [BoolConst(false), Var("x")]), Var("x"), true),
      Rule("or-true-right", NodePat(Or, [Var("x"), BoolConst(true)]), BoolConst(true), true),
      Rule("or-true-left", NodePat(Or, [BoolConst(true), Var("x")]), BoolConst(true), true),
      Rule("or-idempotent", NodePat(Or, [Var("x"), Var("x")]), Var("x"), true)
    ]
  }

  lemma {:induction false} OrRulesGood(sem: Sem)
    requires sem.Source?
    ensures forall r :: r in OrRules() ==> Good(r, sem)
  {
    OrLaws(Var("x"), sem); IdempotentLaws(Var("x"), sem);
    Binary2Leaf("or-false-right", Or, Var("x"), BoolConst(false), Var("x"), sem);
    Binary2Leaf("or-false-left", Or, BoolConst(false), Var("x"), Var("x"), sem);
    Binary2Leaf("or-true-right", Or, Var("x"), BoolConst(true), BoolConst(true), sem);
    Binary2Leaf("or-true-left", Or, BoolConst(true), Var("x"), BoolConst(true), sem);
    Binary2Leaf("or-idempotent", Or, Var("x"), Var("x"), Var("x"), sem);
  }

  function XorRules(): seq<Rule> {
    [
      Rule("xor-false-right", NodePat(Xor, [Var("x"), BoolConst(false)]), Var("x"), true),
      Rule("xor-false-left", NodePat(Xor, [BoolConst(false), Var("x")]), Var("x"), true)
    ]
  }

  lemma {:induction false} XorRulesGood(sem: Sem)
    requires sem.Source?
    ensures forall r :: r in XorRules() ==> Good(r, sem)
  {
    XorLaws(Var("x"), sem);
    Binary2Leaf("xor-false-right", Xor, Var("x"), BoolConst(false), Var("x"), sem);
    Binary2Leaf("xor-false-left", Xor, BoolConst(false), Var("x"), Var("x"), sem);
  }

  function NotRules(): seq<Rule> {
    [
      Rule("not-not", NodePat(Not, [NodePat(Not, [Var("x")])]), Var("x"), true),
      Rule("not-true", NodePat(Not, [BoolConst(true)]), BoolConst(false), true),
      Rule("not-false", NodePat(Not, [BoolConst(false)]), BoolConst(true), true)
    ]
  }

  lemma {:induction false} NotRulesGood(sem: Sem)
    requires sem.Source?
    ensures forall r :: r in NotRules() ==> Good(r, sem)
  {
    NotLaws(sem); NotNotValue(sem);
    UnaryUnary2Leaf("not-not", Not, Not, Var("x"), sem);
    Unary2Leaf("not-true", Not, BoolConst(true), BoolConst(false), sem);
    Unary2Leaf("not-false", Not, BoolConst(false), BoolConst(true), sem);
  }

  function EqualRules(): seq<Rule> {
    [
      Rule("eq-self", NodePat(Eq, [Var("x"), Var("x")]), BoolConst(true), true),
      Rule("ne-self", NodePat(Ne, [Var("x"), Var("x")]), BoolConst(false), true)
    ]
  }

  lemma {:induction false} EqualRulesGood(sem: Sem)
    requires sem.Source?
    ensures forall r :: r in EqualRules() ==> Good(r, sem)
  {
    EqualLaws(Var("x"), sem);
    Binary2Leaf("eq-self", Eq, Var("x"), Var("x"), BoolConst(true), sem);
    Binary2Leaf("ne-self", Ne, Var("x"), Var("x"), BoolConst(false), sem);
  }

  function SelectRules(): seq<Rule> {
    [
      Rule("select-true", NodePat(Select, [BoolConst(true), Var("x"), Var("y")]), Var("x"), true),
      Rule("select-false", NodePat(Select, [BoolConst(false), Var("x"), Var("y")]), Var("y"), true),
      Rule("select-same-branches", NodePat(Select, [Var("cond"), Var("x"), Var("x")]), Var("x"), true)
    ]
  }

  lemma {:induction false} SelectRulesGood(sem: Sem)
    requires sem.Source?
    ensures forall r :: r in SelectRules() ==> Good(r, sem)
  {
    Select2Leaf("select-true", BoolConst(true), Var("x"), Var("y"), Var("x"), sem);
    Select2Leaf("select-false", BoolConst(false), Var("x"), Var("y"), Var("y"), sem);
    Select2Leaf("select-same-branches", Var("cond"), Var("x"), Var("x"), Var("x"), sem);
  }

  // ----- stdrewrite/canonical.wrs -----

  function NegRules(): seq<Rule> {
    [
      Rule("neg-neg", NodePat(Neg, [NodePat(Neg, [Var("x")])]), Var("x"), true),
      Rule("abs-neg", NodePat(Abs, [NodePat(Neg, [Var("x")])]), NodePat(Abs, [Var("x")]), true)
    ]
  }

  lemma {:induction false} NegRulesGood(sem: Sem)
    requires sem.Source?
    ensures forall r :: r in NegRules() ==> Good(r, sem)
  {
    NegNegValue(sem);
    UnaryUnary2Leaf("neg-neg", Neg, Neg, Var("x"), sem);
    AbsNeg(sem);
  }

  function NegatedOperandRules(): seq<Rule> {
    [
      Rule("add-neg-right", NodePat(Add, [Var("x"), NodePat(Neg, [Var("y")])]), NodePat(Sub, [Var("x"), Var("y")]), true),
      Rule("add-neg-left", NodePat(Add, [NodePat(Neg, [Var("y")]), Var("x")]), NodePat(Sub, [Var("x"), Var("y")]), true),
      Rule("sub-neg-right", NodePat(Sub, [Var("x"), NodePat(Neg, [Var("y")])]), NodePat(Add, [Var("x"), Var("y")]), true)
    ]
  }

  lemma {:induction false} NegatedOperandRulesGood(sem: Sem)
    requires sem.Source?
    ensures forall r :: r in NegatedOperandRules() ==> Good(r, sem)
  {
    NegRight("add-neg-right", Add, Sub, sem);
    AddNegLeft(sem);
    NegRight("sub-neg-right", Sub, Add, sem);
  }

  function MinusOneRules(): seq<Rule> {
    [
      Rule("mul-neg-one-right", NodePat(Mul, [Var("x"), IntConst(-1)]), NodePat(Neg, [Var("x")]), true),
      Rule("mul-neg-one-left", NodePat(Mul, [IntConst(-1), Var("x")]), NodePat(Neg, [Var("x")]), true)
    ]
  }

  lemma {:induction false} MinusOneRulesGood(sem: Sem)
    requires sem.Source?
    ensures forall r :: r in MinusOneRules() ==> Good(r, sem)
  {
    MinusOneLaws(Var("x"), sem);
    Binary2Unary("mul-neg-one-right", Mul, Var("x"), IntConst(-1), Neg, Var("x"), sem);
    Binary2Unary("mul-neg-one-left", Mul, IntConst(-1), Var("x"), Neg, Var("x"), sem);
  }

  function NotEqualityRules(): seq<Rule> {
    [
      Rule("not-eq", NodePat(Not, [NodePat(Eq, [Var("x"), Var("y")])]), NodePat(Ne, [Var("x"), Var("y")]), true),
      Rule("not-ne", NodePat(Not, [NodePat(Ne, [Var("x"), Var("y")])]), NodePat(Eq, [Var("x"), Var("y")]), true)
    ]
  }

  lemma {:induction false} NotEqualityRulesGood(sem: Sem)
    requires sem.Source?
    ensures forall r :: r in NotEqualityRules() ==> Good(r, sem)
  {
    CompareValues(sem);
    NotCompare("not-eq", Eq, Ne, sem);
    NotCompare("not-ne", Ne, Eq, sem);
  }

  function NotOrderRules(): seq<Rule> {
    [
      Rule("not-lt", NodePat(Not, [NodePat(Lt, [Var("x"), Var("y")])]), NodePat(Ge, [Var("x"), Var("y")]), true),
      Rule("not-le", NodePat(Not, [NodePat(Le, [Var("x"), Var("y")])]), NodePat(Gt, [Var("x"), Var("y")]), true),
      Rule("not-gt", NodePat(Not, [NodePat(Gt, [Var("x"), Var("y")])]), NodePat(Le, [Var("x"), Var("y")]), true),
      Rule("not-ge", NodePat(Not, [NodePat(Ge, [Var("x"), Var("y")])]), NodePat(Lt, [Var("x"), Var("y")]), true)
    ]
  }

  lemma {:induction false} NotOrderRulesGood(sem: Sem)
    requires sem.Source?
    ensures forall r :: r in NotOrderRules() ==> Good(r, sem)
  {
    CompareValues(sem);
    NotCompare("not-lt", Lt, Ge, sem);
    NotCompare("not-le", Le, Gt, sem);
    NotCompare("not-gt", Gt, Le, sem);
    NotCompare("not-ge", Ge, Lt, sem);
  }

  function NotConditionRules(): seq<Rule> {
    [
      Rule("select-not-cond", NodePat(Select, [NodePat(Not, [Var("cond")]), Var("x"), Var("y")]), NodePat(Select, [Var("cond"), Var("y"), Var("x")]), true)
    ]
  }

  lemma {:induction false} NotConditionRulesGood(sem: Sem)
    requires sem.Source?
    ensures forall r :: r in NotConditionRules() ==> Good(r, sem)
  {
    SelectNot(sem);
  }

  /** The rules of stdrewrite/arithmetic.wrs, in file order. */
  function Arithmetic(): seq<Rule> {
    AddRules() + SubRules() + MulRules() + DivOneRules() + DivSelfRules() + ModRules() + ZeroRules() + ShiftRules() + DoubleRules()
  }

  /** The rules of stdrewrite/logic.wrs, in file order. */
  function Logic(): seq<Rule> {
    AndRules() + OrRules() + XorRules() + NotRules() + EqualRules() + SelectRules()
  }

  /** The rules of stdrewrite/canonical.wrs, in file order. */
  function Canonical(): seq<Rule> {
    NegRules() + NegatedOperandRules() + MinusOneRules() + NotEqualityRules() + NotOrderRules() + NotConditionRules()
  }

  /** The built-in rule set: all 51 rules. */
  function Shipped(): seq<Rule> {
    Arithmetic() + Logic() + Canonical()
  }

  /** Every shipped rule is accepted by the validator and is an identity that
      lowers the weight, when division by zero is left undefined. */
  lemma {:induction false} ShippedGood(r: Rule)
    requires r in Shipped()
    ensures Good(r, Source(true)) && Validate(r)
  {
    if r in DivSelfRules() {
      DivSelfRulesGood(Source(true));
    } else {
      ShippedGoodExceptDivSelf(r, Source(true));
    }
    StructuredValid(r);
  }

  /** With the interpreter's answer 0 for division by zero, every shipped rule
      but `div-self` is an identity. */
  lemma {:induction false} ShippedGoodExceptDivSelf(r: Rule, sem: Sem)
    requires r in Shipped() && r !in DivSelfRules() && sem.Source?
    ensures Good(r, sem)
  {
    AddRulesGood(sem); SubRulesGood(sem); MulRulesGood(sem);
    DivOneRulesGood(sem); ModRulesGood(sem);
    ZeroRulesGood(sem); ShiftRulesGood(sem); DoubleRulesGood(sem);
    AndRulesGood(sem); OrRulesGood(sem); XorRulesGood(sem);
    NotRulesGood(sem); EqualRulesGood(sem); SelectRulesGood(sem);
    NegRulesGood(sem); NegatedOperandRulesGood(sem); MinusOneRulesGood(sem);
    NotEqualityRulesGood(sem); NotOrderRulesGood(sem); NotConditionRulesGood(sem);
  }

  lemma {:induction false} GoodIsOk(r: Rule, sem: Sem)
    requires Good(r, sem)
    ensures RuleOk(r, sem)
  {
    forall rho: Valuation, env: Env
      ensures Refines(PatEval(r.lhs, rho, env, sem), PatEval(r.rhs, rho, env, sem))
    {
      assert Keeps(r, rho, env, sem);
    }
    IdentityIsSound(r, sem);
  }

  /** Rules picked from the built-in set, in any order. */
  ghost predicate Builtin(rules: seq<Rule>) {
    forall i :: 0 <= i < |rules| ==> rules[i] in Shipped()
  }

  lemma {:induction false} BuiltinOk(rules: seq<Rule>)
    requires Builtin(rules)
    ensures forall i :: 0 <= i < |rules| ==> RuleOk(rules[i], Source(true))
  {
    forall i | 0 <= i < |rules|
      ensures RuleOk(rules[i], Source(true))
    {
      ShippedGood(rules[i]);
      GoodIsOk(rules[i], Source(true));
    }
  }

  /** `div-self` replaces x/x by 1: right exactly on the nonzero integers. */
  lemma {:induction false} DivSelfExact(x: I32)
    ensures Binary(Div, Int(x), Int(x), Source(false)) == Int(1) <==> x != 0
  {
  }
}
