/**
 Why lowering needs index order: a graph in which a node reads a later one, as
 replacing uses by a newly made node leaves it, lowers to code that passes the
 SSA check and returns the wrong value for every argument.
 */
module OutOfOrder {
  import opened Wrappers
  import opened Values
  import opened Terms
  import opened WilGraph
  import opened Unfolding
  import opened Mal
  import opened Lowering

  /** A negation placed before the complement it reads. */
  function Graph(): Nodes {
    [
      Node(Param, I32, IndexPayload(0), [], [], [2], false),
      Node(Neg, I32, NoPayload, [Some(2)], [DataEdge], [4], false),
      Node(Not, I32, NoPayload, [Some(0)], [DataEdge], [1], false),
      Node(Start, Control, NoPayload, [], [], [4], false),
      Node(Return, Void, NoPayload, [Some(3), Some(1)], [ControlEdge, DataEdge], [], false)
    ]
  }

  function NegTerm(): Term {
    Term(Neg, NoPayload, [Term(Not, NoPayload, [Term(Param, IndexPayload(0), [])])])
  }

  function GraphTerms(): seq<Term> {
    var start := Term(Start, NoPayload, []);
    [NegTerm().args[0].args[0], NegTerm(), NegTerm().args[0], start, Term(Return, NoPayload, [start, NegTerm()])]
  }

  /** The negation reads register 0, the parameter, instead of the complement. */
  function Code(): seq<Inst> {
    [
      Inst(0, NegOp, I32T, Some(1), [Reg(0, I32T)]),
      Inst(1, NotOp, I32T, Some(2), [Reg(0, I32T)]),
      Inst(2, Ret, VoidT, None, [Reg(1, I32T)])
    ]
  }

  lemma {:induction false} Params(g: Nodes)
    requires g == Graph()
    ensures ParamsBefore(g, 5) == 1
  {
    ParamsNext(g, 0, 0);
    ParamsNext(g, 1, 1);
    ParamsNext(g, 2, 1);
    ParamsNext(g, 3, 1);
    ParamsNext(g, 4, 1);
  }

  lemma {:induction false} ParamsNext(g: Nodes, n: nat, count: nat)
    requires n < |g| && ParamsBefore(g, n) == count
    ensures ParamsBefore(g, n + 1) == if g[n].kind == Param then count + 1 else count
  {
  }

  lemma {:induction false} OneOperand(g: Nodes, nodeRegs: seq<nat>, n: nat)
    requires g == Graph() && |nodeRegs| == 5 && nodeRegs[0] == 0 && nodeRegs[2] == 0 && (n == 1 || n == 2)
    ensures InputsIn(g, g[n]) && OperandsFrom(g, nodeRegs, g[n], 1) == [Reg(0, I32T)]
  {
    assert OperandsFrom(g, nodeRegs, g[n], 0) == [];
  }

  lemma {:induction false} State1(g: Nodes, sts: seq<State>)
    requires g == Graph() && InRange(g) && Trace(g, sts)
    ensures sts[1] == State(1, 1, [0, 0, 0, 0, 0], VoidT, [])
  {
    Params(g);
    assert StepAt(g, sts, 0);
  }

  lemma {:induction false} State2(g: Nodes, sts: seq<State>)
    requires g == Graph() && InRange(g) && Trace(g, sts) && sts[1] == State(1, 1, [0, 0, 0, 0, 0], VoidT, [])
    ensures sts[2] == State(2, 1, [0, 1, 0, 0, 0], VoidT, [Code()[0]])
  {
    OneOperand(g, [0, 0, 0, 0, 0], 1);
    assert StepAt(g, sts, 1);
  }

  lemma {:induction false} State3(g: Nodes, sts: seq<State>)
    requires g == Graph() && InRange(g) && Trace(g, sts) && sts[2] == State(2, 1, [0, 1, 0, 0, 0], VoidT, [Code()[0]])
    ensures sts[3] == State(3, 1, [0, 1, 2, 0, 0], VoidT, [Code()[0], Code()[1]])
  {
    OneOperand(g, [0, 1, 0, 0, 0], 2);
    assert StepAt(g, sts, 2);
  }

  lemma {:induction false} State5(g: Nodes, sts: seq<State>)
    requires g == Graph() && InRange(g) && Trace(g, sts) && sts[3] == State(3, 1, [0, 1, 2, 0, 0], VoidT, [Code()[0], Code()[1]])
    ensures sts[5].code == Code() && sts[5].nextReg == 3
  {
    assert StepAt(g, sts, 3);
    assert StepAt(g, sts, 4);
  }

  lemma {:induction false} Lowers()
    ensures InRange(Graph()) && Lowered(Graph()).blocks == [Code()] && Lowered(Graph()).paramCount == 1
            && Lowered(Graph()).nextReg == 3
  {
    var g := Graph();
    var sts := TraceExists(g);
    State1(g, sts);
    State2(g, sts);
    State3(g, sts);
    State5(g, sts);
    Params(g);
  }

  lemma {:induction false} PassesSsa()
    ensures SsaCode(1, 3, Code())
  {
    var code := Code();
    assert forall n: nat :: n <= 3 ==> DefinedBefore(1, code, n, 0);
    assert code[0].dst == Some(1);
    assert DefinedBefore(1, code, 2, 1);
    forall n: nat | n < 3
      ensures UsesDefined(1, 3, code, n) && DefinesFresh(1, 3, code, n)
    {
    }
  }

  lemma {:induction false} Returns(x: I32, regs: Regs)
    requires regs(0) == Int(x)
    ensures Run(Code(), regs, MachineOps(true)) == Returned(Int(Wrap(0 - x)))
  {
    var code, ops := Code(), MachineOps(true);
    MachineUnary(Neg, Int(x), true);
    assert OperandValues(code[0].operands, regs) == [Int(x)];
    assert InstValue(code[0], regs, ops) == Int(Wrap(0 - x));
    assert RunTo(code, 0, regs, ops) == FellThrough(regs);
    var r1 := StepInst(code[0], regs, ops);
    assert RunTo(code, 1, regs, ops) == FellThrough(r1);
    var r2 := StepInst(code[1], r1, ops);
    assert RunTo(code, 2, regs, ops) == FellThrough(r2);
    assert r2(1) == r1(1) == Int(Wrap(0 - x));
  }

  lemma {:induction false} MeansOther(x: I32, env: Env)
    requires env(0) == Int(x)
    ensures Eval(NegTerm(), env, Machine(true)) == Int(Wrap(x + 1))
  {
    var not := NegTerm().args[0];
    assert Eval(not.args[0], env, Machine(true)) == Int(x);
    assert EvalArgs(not, env, Machine(true)) == [Int(x)];
    assert Eval(not, env, Machine(true)) == Int(-1 - x);
    assert EvalArgs(NegTerm(), env, Machine(true)) == [Int(-1 - x)];
  }

  /** For every argument the lowered code, accepted by the SSA check, returns
      something else than the graph's value. */
  lemma {:induction false} OrderMatters(x: I32)
    ensures Labelled(Graph(), GraphTerms()) && InRange(Graph()) && !IndexOrdered(Graph())
    ensures Ssa(Lowered(Graph()))
    ensures var v := Eval(GraphTerms()[1], (i: nat) => Int(x), Machine(true));
            v.Int? && Run(Lowered(Graph()).blocks[0], (i: nat) => Int(x), MachineOps(true)) != Returned(v)
  {
    var g, terms := Graph(), GraphTerms();
    forall n: nat | n < 5
      ensures LabelAt(g, terms, n)
    {
    }
    assert !Ready(g, 1, g[1].inputs[0]);
    assert Reads(g[1], 0);
    assert !NodeOrdered(g, 1);
    Lowers();
    PassesSsa();
    assert AllInsts([Code()]) == Flat([Code()], 0) + Code() == Code();
    Returns(x, (i: nat) => Int(x));
    MeansOther(x, (i: nat) => Int(x));
    Parity(x);
  }

  lemma {:induction false} Parity(x: I32)
    ensures Wrap(0 - x) != Wrap(x + 1)
  {
    WrapMod(0 - x);
    WrapMod(x + 1);
  }
}
