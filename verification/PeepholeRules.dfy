/**
 The twelve shipped peephole rules, and their soundness for the machine's
 arithmetic.
 */
module PeepholeRules {
  import opened Wrappers
  import opened Values
  import opened Terms
  import opened Mal
  import opened Lowering
  import opened Peephole

  /** Immediates in rule files are 32-bit integers. */
  function Imm(n: int): OperandPattern {
    Literal(ImmInt(n, I32T))
  }

  function X(): OperandPattern {
    Variable("x")
  }

  function KeepLeft(op: Opcode, n: int): PeepRule {
    PeepRule(op, [X(), Imm(n)], Copy, [X()])
  }

  function KeepRight(op: Opcode, n: int): PeepRule {
    PeepRule(op, [Imm(n), X()], Copy, [X()])
  }

  function ZeroLeft(op: Opcode): PeepRule {
    PeepRule(op, [Imm(0), X()], Copy, [Imm(0)])
  }

  function ZeroRight(op: Opcode): PeepRule {
    PeepRule(op, [X(), Imm(0)], Copy, [Imm(0)])
  }

  function ShippedPeephole(): seq<PeepRule> {
    [
      KeepLeft(AddOp, 0), KeepRight(AddOp, 0), KeepLeft(SubOp, 0),
      ZeroRight(MulOp), ZeroLeft(MulOp), KeepLeft(MulOp, 1), KeepRight(MulOp, 1),
      ZeroRight(AndOp), KeepLeft(OrOp, 0), KeepLeft(XorOp, 0),
      KeepLeft(ShlOp, 0), KeepLeft(AShrOp, 0)
    ]
  }

  lemma {:induction false} MakesCopies(r: nat)
    requires r < |ShippedPeephole()|
    ensures ShippedPeephole()[r].replaceOp == Copy && ShippedPeephole()[r].matchOp != Copy
  {
  }

  /** They only ever produce copies, which none of them matches. */
  lemma {:induction false} ShippedCooling()
    ensures Cooling(ShippedPeephole())
  {
    var rules := ShippedPeephole();
    forall r, q | 0 <= r < |rules| && 0 <= q < |rules|
      ensures rules[r].replaceOp != rules[q].matchOp
    {
      MakesCopies(r);
      MakesCopies(q);
    }
  }

  // ----- Shapes of rules -----

  /** What a two-operand instruction with an immediate computes. */
  lemma {:induction false} BinaryValue(inst: Inst, k: Kind, regs: Regs, ops: Ops)
    requires |inst.operands| == 2 && inst.opcode != Copy && KindOf(inst.opcode) == Some(k)
    ensures InstValue(inst, regs, ops) == ops(k, [OperandValue(inst.operands[0], regs), OperandValue(inst.operands[1], regs)])
  {
    assert OperandValues(inst.operands, regs)
        == [OperandValue(inst.operands[0], regs), OperandValue(inst.operands[1], regs)];
  }

  lemma {:induction false} CopyOf(rule: PeepRule, inst: Inst, o: Operand)
    requires Matches(rule, inst) && |rule.replaced| == 1
    requires rule.replaced[0].Literal? ==> o == rule.replaced[0].operand
    requires rule.replaced[0].Variable? ==>
               (var f := FirstUse(rule.matched, rule.replaced[0].name, |rule.matched|);
                f < |rule.matched| && o == inst.operands[f])
    requires !rule.replaced[0].AnyOperand?
    ensures Replacement(rule, inst).operands == [o]
  {
    assert ReplaceTo(rule, inst.operands, 0) == ([], true);
    assert [] + [o] == [o];
  }

  lemma {:induction false} FirstOfTwo(p: OperandPattern, q: OperandPattern, name: string)
    ensures FirstUse([p, q], name, 2) == if p == Variable(name) then 0 else if q == Variable(name) then 1 else 2
  {
    assert FirstUse([p, q], name, 0) == 0;
    assert FirstUse([p, q], name, 1) == if p == Variable(name) then 0 else 1;
  }

  lemma {:induction false} LeftRefines(rule: PeepRule, k: Kind, n: I32, ops: Ops)
    requires rule.matched == [X(), Imm(n)] && |rule.replaced| == 1 && rule.replaceOp == Copy
    requires rule.matchOp != Copy && rule.matchOp != Ret && KindOf(rule.matchOp) == Some(k)
    requires rule.replaced == [X()] ==> forall v :: Refines(ops(k, [v, Int(n)]), v)
    requires rule.replaced == [Imm(0)] ==> forall v :: Refines(ops(k, [v, Int(n)]), Int(0))
    requires rule.replaced == [X()] || rule.replaced == [Imm(0)]
    ensures RuleRefines(rule, ops)
  {
    forall inst | Matches(rule, inst)
      ensures InstRefines(inst, Replacement(rule, inst), ops)
    {
      assert PatternHolds(rule.matched, inst.operands, 1);
      FirstOfTwo(X(), Imm(n), "x");
      CopyOf(rule, inst, if rule.replaced == [X()] then inst.operands[0] else ImmInt(0, I32T));
      forall regs: Regs
        ensures Refines(ComputedBy(inst, regs, ops), ComputedBy(Replacement(rule, inst), regs, ops))
      {
        BinaryValue(inst, k, regs, ops);
      }
    }
  }

  lemma {:induction false} RightRefines(rule: PeepRule, k: Kind, n: I32, ops: Ops)
    requires rule.matched == [Imm(n), X()] && |rule.replaced| == 1 && rule.replaceOp == Copy
    requires rule.matchOp != Copy && rule.matchOp != Ret && KindOf(rule.matchOp) == Some(k)
    requires rule.replaced == [X()] ==> forall v :: Refines(ops(k, [Int(n), v]), v)
    requires rule.replaced == [Imm(0)] ==> forall v :: Refines(ops(k, [Int(n), v]), Int(0))
    requires rule.replaced == [X()] || rule.replaced == [Imm(0)]
    ensures RuleRefines(rule, ops)
  {
    forall inst | Matches(rule, inst)
      ensures InstRefines(inst, Replacement(rule, inst), ops)
    {
      assert PatternHolds(rule.matched, inst.operands, 0);
      FirstOfTwo(Imm(n), X(), "x");
      CopyOf(rule, inst, if rule.replaced == [X()] then inst.operands[1] else ImmInt(0, I32T));
      forall regs: Regs
        ensures Refines(ComputedBy(inst, regs, ops), ComputedBy(Replacement(rule, inst), regs, ops))
      {
        BinaryValue(inst, k, regs, ops);
      }
    }
  }

  // ----- The arithmetic behind each rule -----

  lemma {:induction false} NeutralRight(k: Kind, v: Value, xor: bool)
    requires k.Add? || k.Sub? || k.Or? || k.Xor? || k.Shl? || k.Shr?
    ensures Refines(Binary(k, v, Int(0), Machine(xor)), v)
  {
    if v.Int? {
      BitsZero(OrBits, v.i);
      BitsZero(XorBits, v.i);
      assert Pow2(0) == 1;
    }
  }

  lemma {:induction false} NeutralLeft(v: Value, xor: bool)
    ensures Refines(Binary(Add, Int(0), v, Machine(xor)), v)
    ensures Refines(Binary(Mul, Int(1), v, Machine(xor)), v)
    ensures Refines(Binary(Mul, v, Int(1), Machine(xor)), v)
  {
  }

  lemma {:induction false} Absorbing(v: Value, xor: bool)
    ensures Refines(Binary(Mul, Int(0), v, Machine(xor)), Int(0))
    ensures Refines(Binary(Mul, v, Int(0), Machine(xor)), Int(0))
    ensures Refines(Binary(And, v, Int(0), Machine(xor)), Int(0))
  {
    if v.Int? {
      BitsZero(AndBits, v.i);
    }
  }

  lemma {:induction false} KeepLeftRefines(op: Opcode, k: Kind, xor: bool)
    requires KindOf(op) == Some(k) && (k.Add? || k.Sub? || k.Or? || k.Xor? || k.Shl? || k.Shr?)
    ensures RuleRefines(KeepLeft(op, 0), MachineOps(xor))
  {
    forall v
      ensures Refines(MachineOps(xor)(k, [v, Int(0)]), v)
    {
      MachineBinary(k, v, Int(0), xor);
      NeutralRight(k, v, xor);
    }
    LeftRefines(KeepLeft(op, 0), k, 0, MachineOps(xor));
  }

  lemma {:induction false} OneRefines(xor: bool)
    ensures RuleRefines(KeepRight(AddOp, 0), MachineOps(xor))
    ensures RuleRefines(KeepLeft(MulOp, 1), MachineOps(xor)) && RuleRefines(KeepRight(MulOp, 1), MachineOps(xor))
  {
    forall v
      ensures Refines(MachineOps(xor)(Add, [Int(0), v]), v)
      ensures Refines(MachineOps(xor)(Mul, [Int(1), v]), v)
      ensures Refines(MachineOps(xor)(Mul, [v, Int(1)]), v)
    {
      MachineBinary(Add, Int(0), v, xor);
      MachineBinary(Mul, Int(1), v, xor);
      MachineBinary(Mul, v, Int(1), xor);
      NeutralLeft(v, xor);
    }
    RightRefines(KeepRight(AddOp, 0), Add, 0, MachineOps(xor));
    RightRefines(KeepRight(MulOp, 1), Mul, 1, MachineOps(xor));
    LeftRefines(KeepLeft(MulOp, 1), Mul, 1, MachineOps(xor));
  }

  lemma {:induction false} ZeroRefines(xor: bool)
    ensures RuleRefines(ZeroRight(MulOp), MachineOps(xor)) && RuleRefines(ZeroLeft(MulOp), MachineOps(xor))
    ensures RuleRefines(ZeroRight(AndOp), MachineOps(xor))
  {
    forall v
      ensures Refines(MachineOps(xor)(Mul, [Int(0), v]), Int(0))
      ensures Refines(MachineOps(xor)(Mul, [v, Int(0)]), Int(0))
      ensures Refines(MachineOps(xor)(And, [v, Int(0)]), Int(0))
    {
      MachineBinary(Mul, Int(0), v, xor);
      MachineBinary(Mul, v, Int(0), xor);
      MachineBinary(And, v, Int(0), xor);
      Absorbing(v, xor);
    }
    RightRefines(ZeroLeft(MulOp), Mul, 0, MachineOps(xor));
    LeftRefines(ZeroRight(MulOp), Mul, 0, MachineOps(xor));
    LeftRefines(ZeroRight(AndOp), And, 0, MachineOps(xor));
  }

  /** Every shipped rule is sound for the machine's operations. */
  lemma {:induction false} ShippedRefine(xor: bool)
    ensures forall r :: 0 <= r < |ShippedPeephole()| ==> RuleRefines(ShippedPeephole()[r], MachineOps(xor))
  {
    KeepLeftRefines(AddOp, Add, xor);
    KeepLeftRefines(SubOp, Sub, xor);
    KeepLeftRefines(OrOp, Or, xor);
    KeepLeftRefines(XorOp, Xor, xor);
    KeepLeftRefines(ShlOp, Shl, xor);
    KeepLeftRefines(AShrOp, Shr, xor);
    OneRefines(xor);
    ZeroRefines(xor);
  }
}
