/**
 Which graphs compile: the condition on node kinds, types and the places of
 constants under which every instruction left by the peephole pass is accepted
 by some machine descriptor.
 */
module Compilable {
  import opened Wrappers
  import opened Values
  import opened Terms
  import opened WilGraph
  import opened Mal
  import opened Lowering
  import opened Peephole
  import opened PeepholeRules
  import opened PeepholePass
  import opened Mds

  // ----- The condition on the graph -----

  /** The input is lowered to a register rather than an immediate. */
  predicate InRegister(g: Nodes, input: Option<nat>)
    requires input.Some? ==> input.value < |g|
  {
    input.Some? && !IsConst(g[input.value].kind)
  }

  /** The input is lowered to the 32-bit immediate `n`: a constant of that type,
      an undefined value for 0, or a null input for 0. */
  predicate IsLiteral(g: Nodes, input: Option<nat>, n: int)
    requires input.Some? ==> input.value < |g|
  {
    if input.None? then n == 0
    else
      var node := g[input.value];
      node.ty == I32 && ((node.kind == ConstInt && PayloadInt(node.payload) == n) || (node.kind == UndefNode && n == 0))
  }

  /** The first `n` inputs, less those that come over control edges. */
  function DataInputs(node: Node, n: nat): seq<Option<nat>>
    requires |node.edges| == |node.inputs| && n <= |node.inputs|
  {
    if n == 0 then []
    else DataInputs(node, n - 1) + (if node.edges[n - 1] == ControlEdge then [] else [node.inputs[n - 1]])
  }

  ghost predicate AllIn(g: Nodes, inputs: seq<Option<nat>>) {
    forall k :: 0 <= k < |inputs| && inputs[k].Some? ==> inputs[k].value < |g|
  }

  /** What matters of an operand: whether it is a register, a 32-bit 0 or a 32-bit 1. */
  datatype Sort = Sort(reg: bool, zero: bool, one: bool)

  /** Two operands for which the kind has a descriptor, or a peephole rule that
      turns it into a copy. */
  predicate PairOk(k: Kind, a: Sort, b: Sort) {
    match k
    case Add => a.reg || a.zero || b.zero
    case Sub => a.reg || b.zero
    case Mul => (a.reg && b.reg) || a.zero || b.zero || a.one || b.one
    case And => (a.reg && b.reg) || b.zero
    case Or => (a.reg && b.reg) || b.zero
    case Xor => (a.reg && b.reg) || b.zero
    case Shl => (a.reg && !b.reg) || b.zero
    case Shr => (a.reg && !b.reg) || b.zero
    case Eq => a.reg && b.reg
    case Ne => a.reg && b.reg
    case Lt => a.reg && b.reg
    case Le => a.reg && b.reg
    case Gt => a.reg && b.reg
    case Ge => a.reg && b.reg
    case _ => false
  }

  function SortOf(g: Nodes, input: Option<nat>): Sort
    requires input.Some? ==> input.value < |g|
  {
    Sort(InRegister(g, input), IsLiteral(g, input, 0), IsLiteral(g, input, 1))
  }

  /** A node lowers to instructions that can be selected, or to none. */
  ghost predicate NodeCompiles(g: Nodes, n: nat)
    requires InRange(g) && n < |g|
  {
    var node := g[n];
    if IsSkipped(node.kind) || node.kind == Param then true
    else if node.kind == Return then |node.inputs| > 1
    else
      var ins := DataInputs(node, |node.inputs|);
      && AllIn(g, ins)
      && (node.kind.Add? || node.kind.Sub? || node.kind.Mul? || node.kind.Neg? ==> !IsFloat(node.ty))
      && (if IsUnary(node.kind) then node.kind != Abs && |ins| == 1 && InRegister(g, ins[0])
          else IsBinary(node.kind) && |ins| == 2 && PairOk(node.kind, SortOf(g, ins[0]), SortOf(g, ins[1])))
  }

  /** The first `n` nodes compile. */
  ghost predicate CompilesTo(g: Nodes, n: nat)
    requires InRange(g) && n <= |g|
  {
    forall m: nat :: m < n ==> NodeCompiles(g, m)
  }

  ghost predicate Compiles(g: Nodes)
    requires InRange(g)
  {
    CompilesTo(g, |g|)
  }

  lemma {:induction false} CompilesNext(g: Nodes, n: nat)
    requires InRange(g) && n < |g|
    ensures CompilesTo(g, n + 1) <==> CompilesTo(g, n) && NodeCompiles(g, n)
  {
  }

  /** Lowering keeps the width of a type. */
  lemma {:induction false} WidthKept(t: Type)
    ensures BitWidth(TypeFrom(t)) ==
              match t
              case I1 => 1
              case I8 => 8
              case I16 => 16
              case I32 => 32
              case I64 => 64
              case F32 => 32
              case F64 => 64
              case Ptr => 64
              case Void => 0
              case Control => 0
    ensures TypeFrom(t) == F32T <==> t == F32
    ensures TypeFrom(t) == F64T <==> t == F64
    ensures TypeFrom(t) == PtrT <==> t == Ptr
  {
  }

  // ----- Which instructions survive -----

  /** Operands as lowering makes them: registers and immediates, no vectors. */
  predicate Plain(o: Operand) {
    (o.Reg? || IsImm(o)) && OperandType(o) != VecT
  }

  ghost predicate AllPlain(inst: Inst) {
    forall k :: 0 <= k < |inst.operands| ==> Plain(inst.operands[k])
  }

  /** Some descriptor accepts what the peephole pass leaves of the instruction. */
  ghost predicate Survives(inst: Inst) {
    HasDesc(Tune(ShippedPeephole(), inst))
  }

  predicate IsImm32(o: Operand, n: int) {
    o == ImmInt(n, I32T)
  }

  lemma {:induction false} OneVariable(rule: PeepRule, n: int)
    requires rule.matched == [X(), Imm(n)] || rule.matched == [Imm(n), X()]
    ensures VarCount(rule.matched, 2) == 1
  {
    var ps := rule.matched;
    assert VarCount(ps, 0) == 0;
    assert FirstUse(ps, "x", 0) == 0;
    assert VarCount(ps, 1) == if ps[0] == X() then 1 else 0;
    assert FirstUse(ps, "x", 1) == if ps[0] == X() then 0 else 1;
  }

  lemma {:induction false} LeftMatches(rule: PeepRule, n: int, inst: Inst)
    requires rule.matched == [X(), Imm(n)]
    ensures Matches(rule, inst) <==> rule.matchOp == inst.opcode && |inst.operands| == 2 && IsImm32(inst.operands[1], n)
  {
    OneVariable(rule, n);
    if |inst.operands| == 2 {
      assert PatternHolds(rule.matched, inst.operands, 0);
      assert PatternHolds(rule.matched, inst.operands, 1) <==> IsImm32(inst.operands[1], n);
    }
  }

  lemma {:induction false} RightMatches(rule: PeepRule, n: int, inst: Inst)
    requires rule.matched == [Imm(n), X()]
    ensures Matches(rule, inst) <==> rule.matchOp == inst.opcode && |inst.operands| == 2 && IsImm32(inst.operands[0], n)
  {
    OneVariable(rule, n);
    if |inst.operands| == 2 {
      assert FirstUse(rule.matched, "x", 1) == 1;
      assert PatternHolds(rule.matched, inst.operands, 1);
      assert PatternHolds(rule.matched, inst.operands, 0) <==> IsImm32(inst.operands[0], n);
    }
  }

  /** The four shapes of shipped rules: which operand is the literal, and which. */
  predicate RuleShape(rule: PeepRule, op: Opcode, left: bool, n: int) {
    && rule.matchOp == op && rule.replaceOp == Copy
    && rule.matched == (if left then [Imm(n), X()] else [X(), Imm(n)])
    && (rule.replaced == [X()] || rule.replaced == [Imm(0)])
  }

  lemma {:induction false} ShapeMatches(rule: PeepRule, op: Opcode, left: bool, n: int, inst: Inst)
    requires RuleShape(rule, op, left, n)
    ensures Matches(rule, inst) <==>
              op == inst.opcode && |inst.operands| == 2 && IsImm32(inst.operands[if left then 0 else 1], n)
  {
    if left {
      RightMatches(rule, n, inst);
    } else {
      LeftMatches(rule, n, inst);
    }
  }

  lemma {:induction false} CopyAccepted(inst: Inst)
    requires inst.opcode == Copy && |inst.operands| == 1 && Plain(inst.operands[0])
    ensures HasDesc(inst)
  {
    var d := if inst.operands[0].Reg? then MovRR else MovRI;
    assert SlotHolds(Slots(d)[1], inst.operands[0]);
    assert Accepts(d, inst);
  }

  /** What a shipped rule leaves is a copy, and copies are accepted. */
  lemma {:induction false} ReplacedAccepted(rule: PeepRule, op: Opcode, left: bool, n: int, inst: Inst)
    requires RuleShape(rule, op, left, n) && Matches(rule, inst) && AllPlain(inst)
    ensures HasDesc(Replacement(rule, inst))
  {
    FirstOfTwo(rule.matched[0], rule.matched[1], "x");
    assert rule.matched == [rule.matched[0], rule.matched[1]];
    var o := if rule.replaced == [X()] then inst.operands[if left then 1 else 0] else ImmInt(0, I32T);
    CopyOf(rule, inst, o);
    CopyAccepted(Replacement(rule, inst));
  }

  // ----- The shipped rules as a table -----

  datatype Row = Row(op: Opcode, left: bool, n: int)

  function RowOf(r: nat): Row
    requires r < 12
  {
    match r
    case 0 => Row(AddOp, false, 0)
    case 1 => Row(AddOp, true, 0)
    case 2 => Row(SubOp, false, 0)
    case 3 => Row(MulOp, false, 0)
    case 4 => Row(MulOp, true, 0)
    case 5 => Row(MulOp, false, 1)
    case 6 => Row(MulOp, true, 1)
    case 7 => Row(AndOp, false, 0)
    case 8 => Row(OrOp, false, 0)
    case 9 => Row(XorOp, false, 0)
    case 10 => Row(ShlOp, false, 0)
    case _ => Row(AShrOp, false, 0)
  }

  lemma {:induction false} RowHolds(r: nat)
    requires r < 12
    ensures |ShippedPeephole()| == 12 && RuleShape(ShippedPeephole()[r], RowOf(r).op, RowOf(r).left, RowOf(r).n)
  {
  }

  ghost predicate RowFires(inst: Inst, r: nat)
    requires r < 12
  {
    RowOf(r).op == inst.opcode && |inst.operands| == 2 && IsImm32(inst.operands[if RowOf(r).left then 0 else 1], RowOf(r).n)
  }

  /** Some shipped rule matches. */
  predicate Fires(inst: Inst) {
    |inst.operands| == 2
    && (var a, b := inst.operands[0], inst.operands[1];
        match inst.opcode
        case AddOp => IsImm32(a, 0) || IsImm32(b, 0)
        case SubOp => IsImm32(b, 0)
        case MulOp => IsImm32(a, 0) || IsImm32(b, 0) || IsImm32(a, 1) || IsImm32(b, 1)
        case AndOp => IsImm32(b, 0)
        case OrOp => IsImm32(b, 0)
        case XorOp => IsImm32(b, 0)
        case ShlOp => IsImm32(b, 0)
        case AShrOp => IsImm32(b, 0)
        case _ => false)
  }

  lemma {:induction false} RowFiring(inst: Inst, r: nat)
    requires r < 12
    ensures RowFires(inst, r) ==> Fires(inst)
  {
  }

  lemma {:induction false} FiringRow(inst: Inst) returns (r: nat)
    requires Fires(inst)
    ensures r < 12 && RowFires(inst, r)
  {
    var a, b := inst.operands[0], inst.operands[1];
    var op := inst.opcode;
    r := if op == AddOp then (if IsImm32(b, 0) then 0 else 1)
         else if op == SubOp then 2
         else if op == MulOp then (if IsImm32(b, 0) then 3 else if IsImm32(a, 0) then 4 else if IsImm32(b, 1) then 5 else 6)
         else if op == AndOp then 7
         else if op == OrOp then 8
         else if op == XorOp then 9
         else if op == ShlOp then 10
         else 11;
  }

  lemma {:induction false} RowMatches(inst: Inst, r: nat)
    requires r < 12
    ensures |ShippedPeephole()| == 12 && (Matches(ShippedPeephole()[r], inst) <==> RowFires(inst, r))
  {
    RowHolds(r);
    ShapeMatches(ShippedPeephole()[r], RowOf(r).op, RowOf(r).left, RowOf(r).n, inst);
  }

  /** An instruction survives if a shipped rule matches it, or it is accepted as it is. */
  lemma {:induction false} SurvivesIff(inst: Inst)
    requires AllPlain(inst)
    ensures Survives(inst) <==> Fires(inst) || HasDesc(inst)
  {
    var rules := ShippedPeephole();
    var r := TuneCases(rules, inst, 0);
    if r < |rules| {
      RowHolds(r);
      RowMatches(inst, r);
      RowFiring(inst, r);
      ReplacedAccepted(rules[r], RowOf(r).op, RowOf(r).left, RowOf(r).n, inst);
    } else if Fires(inst) {
      var q := FiringRow(inst);
      RowMatches(inst, q);
    }
  }

  // ----- What descriptors accept, by opcode -----

  /** The accepting descriptor is decided by the opcode and the last operand. */
  lemma {:induction false} HasDescIff(inst: Inst)
    requires AllPlain(inst)
    ensures HasDesc(inst) <==>
              |inst.operands| > 0
              && (var d := DescFor(inst.opcode, IsImm(inst.operands[|inst.operands| - 1]));
                  d.Some? && Accepts(d.value, inst))
  {
    forall d | Accepts(d, inst)
      ensures |inst.operands| > 0 && DescFor(inst.opcode, IsImm(inst.operands[|inst.operands| - 1])) == Some(d)
    {
      LastSlot(d);
      DescForExact(d);
      var skip := if HasOutput(d) then 1 else 0;
      assert |Slots(d)| > skip by { SlotsCount(d); }
      var k := |inst.operands| - 1;
      assert SlotHolds(Slots(d)[k + skip], inst.operands[k]);
    }
  }

  lemma {:induction false} SlotsCount(d: Desc)
    ensures |Slots(d)| == if d == RetR then 1 else if OneInput(d) then 2 else 3
  {
  }

  /** Acceptance of plain operands is a matter of count and kinds. */
  lemma {:induction false} AcceptsOneInput(d: Desc, inst: Inst)
    requires AllPlain(inst) && OpcodeOf(d) == inst.opcode && (d == RetR || OneInput(d))
    ensures Accepts(d, inst) <==> |inst.operands| == 1 && (TakesImm(d) <==> IsImm(inst.operands[0]))
  {
    SlotsCount(d);
    LastSlot(d);
    if |inst.operands| == 1 {
      assert Plain(inst.operands[0]);
    }
  }

  lemma {:induction false} AcceptsTwoInputs(d: Desc, inst: Inst)
    requires AllPlain(inst) && OpcodeOf(d) == inst.opcode && d != RetR && !OneInput(d)
    ensures Accepts(d, inst) <==>
              |inst.operands| == 2 && inst.operands[0].Reg? && (TakesImm(d) <==> IsImm(inst.operands[1]))
  {
    SlotsCount(d);
    LastSlot(d);
    assert Slots(d)[1] == InReg;
    if |inst.operands| == 2 {
      assert Plain(inst.operands[0]) && Plain(inst.operands[1]);
    }
  }

  predicate IsCompare(op: Opcode) {
    op == ICmpEq || op == ICmpNe || op == ICmpSlt || op == ICmpSle || op == ICmpSgt || op == ICmpSge
  }

  /** Opcodes with a descriptor of two inputs, the second immediate or not. */
  predicate PairDesc(op: Opcode, imm: bool) {
    || op == AddOp || op == SubOp
    || (!imm && (op == MulOp || op == AndOp || op == OrOp || op == XorOp || IsCompare(op)))
    || (imm && (op == ShlOp || op == AShrOp))
  }

  /** Opcodes with a descriptor of one input, immediate or not. */
  predicate SoleDesc(op: Opcode, imm: bool) {
    op == Copy || (!imm && (op == NegOp || op == NotOp || op == Ret))
  }

  lemma {:induction false} DescOpcode(op: Opcode, imm: bool)
    ensures DescFor(op, imm).Some? ==> OpcodeOf(DescFor(op, imm).value) == op
  {
  }

  lemma {:induction false} DescPairRegister(op: Opcode)
    ensures var d := DescFor(op, false);
            d.Some? && !TakesImm(d.value) && d.value != RetR && !OneInput(d.value) <==> PairDesc(op, false)
  {
  }

  lemma {:induction false} DescPairImmediate(op: Opcode)
    ensures var d := DescFor(op, true);
            d.Some? && TakesImm(d.value) && d.value != RetR && !OneInput(d.value) <==> PairDesc(op, true)
  {
  }

  lemma {:induction false} DescPair(op: Opcode, imm: bool)
    ensures var d := DescFor(op, imm);
            d.Some? && (TakesImm(d.value) <==> imm) && d.value != RetR && !OneInput(d.value) <==> PairDesc(op, imm)
  {
    if imm {
      DescPairImmediate(op);
    } else {
      DescPairRegister(op);
    }
  }

  lemma {:induction false} DescSole(op: Opcode, imm: bool)
    ensures var d := DescFor(op, imm);
            d.Some? && (TakesImm(d.value) <==> imm) && (d.value == RetR || OneInput(d.value)) <==> SoleDesc(op, imm)
  {
  }

  lemma {:induction false} PairAccepted(inst: Inst)
    requires AllPlain(inst) && |inst.operands| == 2
    ensures HasDesc(inst) <==> PairDesc(inst.opcode, IsImm(inst.operands[1])) && inst.operands[0].Reg?
  {
    var imm := IsImm(inst.operands[1]);
    HasDescIff(inst);
    DescOpcode(inst.opcode, imm);
    DescPair(inst.opcode, imm);
    var d := DescFor(inst.opcode, imm);
    if d.Some? {
      if d.value == RetR || OneInput(d.value) {
        AcceptsOneInput(d.value, inst);
      } else {
        AcceptsTwoInputs(d.value, inst);
      }
    }
  }

  lemma {:induction false} SoleAccepted(inst: Inst)
    requires AllPlain(inst) && |inst.operands| == 1
    ensures HasDesc(inst) <==> SoleDesc(inst.opcode, IsImm(inst.operands[0]))
  {
    var imm := IsImm(inst.operands[0]);
    HasDescIff(inst);
    DescOpcode(inst.opcode, imm);
    DescSole(inst.opcode, imm);
    var d := DescFor(inst.opcode, imm);
    if d.Some? {
      if d.value == RetR || OneInput(d.value) {
        AcceptsOneInput(d.value, inst);
      } else {
        AcceptsTwoInputs(d.value, inst);
      }
    }
  }

  lemma {:induction false} OtherRefused(inst: Inst)
    requires AllPlain(inst) && |inst.operands| != 1 && |inst.operands| != 2
    ensures !HasDesc(inst)
  {
    HasDescIff(inst);
    if |inst.operands| > 0 {
      var d := DescFor(inst.opcode, IsImm(inst.operands[|inst.operands| - 1]));
      if d.Some? {
        SlotsCount(d.value);
      }
    }
  }

  // ----- Which instructions survive, by opcode -----

  function OperandSort(o: Operand): Sort {
    Sort(o.Reg?, IsImm32(o, 0), IsImm32(o, 1))
  }

  /** The same condition as for nodes, on opcodes. */
  predicate PairSurvives(op: Opcode, a: Sort, b: Sort) {
    match op
    case AddOp => a.reg || a.zero || b.zero
    case SubOp => a.reg || b.zero
    case MulOp => (a.reg && b.reg) || a.zero || b.zero || a.one || b.one
    case AndOp => (a.reg && b.reg) || b.zero
    case OrOp => (a.reg && b.reg) || b.zero
    case XorOp => (a.reg && b.reg) || b.zero
    case ShlOp => (a.reg && !b.reg) || b.zero
    case AShrOp => (a.reg && !b.reg) || b.zero
    case _ => IsCompare(op) && a.reg && b.reg
  }

  lemma {:induction false} PairSurvivesIff(op: Opcode, inst: Inst)
    requires |inst.operands| == 2 && inst.opcode == op && Plain(inst.operands[0]) && Plain(inst.operands[1])
    ensures PairSurvives(op, OperandSort(inst.operands[0]), OperandSort(inst.operands[1]))
       <==> (Fires(inst) || (PairDesc(op, IsImm(inst.operands[1])) && inst.operands[0].Reg?))
  {
  }

  predicate ByCount(inst: Inst) {
    if |inst.operands| == 2 then PairSurvives(inst.opcode, OperandSort(inst.operands[0]), OperandSort(inst.operands[1]))
    else |inst.operands| == 1 && SoleDesc(inst.opcode, IsImm(inst.operands[0]))
  }

  lemma {:induction false} SurvivesByCount(inst: Inst)
    requires AllPlain(inst)
    ensures Survives(inst) <==> ByCount(inst)
  {
    SurvivesIff(inst);
    if |inst.operands| == 2 {
      PairSurvivesIff(inst.opcode, inst);
      PairAccepted(inst);
    } else if |inst.operands| == 1 {
      SoleAccepted(inst);
    } else {
      OtherRefused(inst);
    }
  }

  predicate IsArithmetic(k: Kind) {
    k.Add? || k.Sub? || k.Mul?
  }

  predicate IsLogic(k: Kind) {
    k.And? || k.Or? || k.Xor? || k.Shl? || k.Shr?
  }

  predicate IsOrder(k: Kind) {
    k.Eq? || k.Ne? || k.Lt? || k.Le? || k.Gt? || k.Ge?
  }

  lemma {:induction false} ArithmeticPair(k: Kind, t: Type, a: Sort, b: Sort)
    requires IsArithmetic(k)
    ensures PairSurvives(OpcodeFrom(k, t), a, b) <==> PairOk(k, a, b) && !IsFloat(t)
  {
  }

  lemma {:induction false} LogicPair(k: Kind, t: Type, a: Sort, b: Sort)
    requires IsLogic(k)
    ensures PairSurvives(OpcodeFrom(k, t), a, b) <==> PairOk(k, a, b)
  {
  }

  lemma {:induction false} OrderPair(k: Kind, t: Type, a: Sort, b: Sort)
    requires IsOrder(k)
    ensures PairSurvives(OpcodeFrom(k, t), a, b) <==> PairOk(k, a, b)
  {
  }

  lemma {:induction false} NoPair(k: Kind, t: Type, a: Sort, b: Sort)
    requires IsOperation(k) && !IsArithmetic(k) && !IsLogic(k) && !IsOrder(k)
    ensures !PairSurvives(OpcodeFrom(k, t), a, b) && !PairOk(k, a, b)
  {
  }

  /** Kinds and opcodes agree on pairs; float arithmetic and the kinds without
      a descriptor are out. */
  lemma {:induction false} PairOfKind(k: Kind, t: Type, a: Sort, b: Sort)
    requires IsOperation(k)
    ensures PairSurvives(OpcodeFrom(k, t), a, b) <==>
              IsBinary(k) && PairOk(k, a, b) && ((k.Add? || k.Sub? || k.Mul? || k.Neg?) ==> !IsFloat(t))
  {
    if IsArithmetic(k) {
      ArithmeticPair(k, t, a, b);
    } else if IsLogic(k) {
      LogicPair(k, t, a, b);
    } else if IsOrder(k) {
      OrderPair(k, t, a, b);
    } else {
      NoPair(k, t, a, b);
    }
  }

  lemma {:induction false} SoleOfKind(k: Kind, t: Type, imm: bool)
    requires IsOperation(k)
    ensures SoleDesc(OpcodeFrom(k, t), imm) <==>
              !imm && IsUnary(k) && k != Abs && ((k.Add? || k.Sub? || k.Mul? || k.Neg?) ==> !IsFloat(t))
  {
  }

  // ----- From nodes to instructions -----

  lemma {:induction false} OperandSorts(g: Nodes, nodeRegs: seq<nat>, input: Option<nat>)
    requires |nodeRegs| == |g| && (input.Some? ==> input.value < |g|)
    ensures var o := OperandFrom(g, nodeRegs, input);
            Plain(o) && OperandSort(o) == SortOf(g, input) && (IsImm(o) <==> !InRegister(g, input))
  {
  }

  lemma {:induction false} OperandsSorts(g: Nodes, nodeRegs: seq<nat>, node: Node, n: nat)
    requires |nodeRegs| == |g| && InputsIn(g, node) && n <= |node.inputs|
    ensures AllIn(g, DataInputs(node, n)) && |OperandsFrom(g, nodeRegs, node, n)| == |DataInputs(node, n)|
    ensures forall k :: 0 <= k < |DataInputs(node, n)| ==>
              OperandsFrom(g, nodeRegs, node, n)[k] == OperandFrom(g, nodeRegs, DataInputs(node, n)[k])
  {
    if n > 0 {
      OperandsSorts(g, nodeRegs, node, n - 1);
    }
  }

  /** Casts have no descriptor, and no rule matches them. */
  lemma {:induction false} CastRefused(inst: Inst)
    requires inst.opcode == SExtOp || inst.opcode == BitcastOp
    ensures !Survives(inst)
  {
    var rules := ShippedPeephole();
    var r := TuneCases(rules, inst, 0);
    if r < |rules| {
      RowHolds(r);
      RowMatches(inst, r);
      RowFiring(inst, r);
    }
    forall d
      ensures !Accepts(d, inst)
    {
      DescForExact(d);
    }
  }

  /** A test of instructions that decides survival. */
  type Test = Inst -> bool

  ghost predicate Decides(test: Test) {
    && (forall inst: Inst :: AllPlain(inst) ==> (test(inst) <==> ByCount(inst)))
    && (forall inst: Inst :: inst.opcode == SExtOp || inst.opcode == BitcastOp ==> !test(inst))
  }

  ghost function SurvivalTest(): Test {
    (inst: Inst) => Survives(inst)
  }

  lemma {:induction false} SurvivalDecides()
    ensures Decides(SurvivalTest())
  {
    forall inst: Inst | AllPlain(inst)
      ensures SurvivalTest()(inst) <==> ByCount(inst)
    {
      SurvivesByCount(inst);
    }
    forall inst: Inst | inst.opcode == SExtOp || inst.opcode == BitcastOp
      ensures !SurvivalTest()(inst)
    {
      CastRefused(inst);
    }
  }

  /** The operands of a lowered operation are of the sorts of its data inputs. */
  lemma {:induction false} OperationSorts(g: Nodes, nodeRegs: seq<nat>, node: Node, inst: Inst)
    requires |nodeRegs| == |g| && InputsIn(g, node)
    requires inst.operands == OperandsFrom(g, nodeRegs, node, |node.inputs|)
    ensures var ins := DataInputs(node, |node.inputs|);
            && AllIn(g, ins) && |inst.operands| == |ins| && AllPlain(inst)
            && forall k :: 0 <= k < |ins| ==>
                 OperandSort(inst.operands[k]) == SortOf(g, ins[k]) && (IsImm(inst.operands[k]) <==> !InRegister(g, ins[k]))
  {
    var ins := DataInputs(node, |node.inputs|);
    OperandsSorts(g, nodeRegs, node, |node.inputs|);
    forall k | 0 <= k < |ins|
      ensures Plain(inst.operands[k]) && OperandSort(inst.operands[k]) == SortOf(g, ins[k])
              && (IsImm(inst.operands[k]) <==> !InRegister(g, ins[k]))
    {
      OperandSorts(g, nodeRegs, ins[k]);
    }
  }

  /** An operation survives exactly when its node compiles. */
  lemma {:induction false} OperationSurvives(g: Nodes, nodeRegs: seq<nat>, n: nat, inst: Inst, test: Test)
    requires InRange(g) && n < |g| && |nodeRegs| == |g| && IsOperation(g[n].kind) && Decides(test)
    requires g[n].kind != Cast && g[n].kind != Bitcast && InputsIn(g, g[n])
    requires inst.opcode == OpcodeFrom(g[n].kind, g[n].ty)
    requires inst.operands == OperandsFrom(g, nodeRegs, g[n], |g[n].inputs|)
    ensures test(inst) <==> NodeCompiles(g, n)
  {
    var node := g[n];
    var ins := DataInputs(node, |node.inputs|);
    OperationSorts(g, nodeRegs, node, inst);
    if |ins| == 2 {
      PairOfKind(node.kind, node.ty, SortOf(g, ins[0]), SortOf(g, ins[1]));
    } else if |ins| == 1 {
      SoleOfKind(node.kind, node.ty, IsImm(inst.operands[0]));
    }
  }

  ghost predicate AllPass(code: seq<Inst>, test: Test) {
    forall k :: 0 <= k < |code| ==> test(code[k])
  }

  lemma {:induction false} AppendPasses(code: seq<Inst>, inst: Inst, test: Test)
    ensures AllPass(code + [inst], test) <==> AllPass(code, test) && test(inst)
  {
    var longer := code + [inst];
    assert longer[|code|] == inst;
    assert forall k :: 0 <= k < |code| ==> longer[k] == code[k];
  }

  lemma {:induction false} ReturnPasses(st: State, operand: Operand, ty: MalType, test: Test)
    requires Plain(operand) && ty != VecT && Decides(test)
    ensures AllPass(st.code + ReturnCode(st, operand, ty), test) <==> AllPass(st.code, test)
  {
    var o := if operand.Reg? then operand else Reg(st.nextReg, ty);
    var at := if operand.Reg? then |st.code| else |st.code| + 1;
    var ret := Inst(at, Ret, VoidT, None, [o]);
    assert AllPlain(ret);
    if operand.Reg? {
      AppendPasses(st.code, ret, test);
    } else {
      var copy := Inst(|st.code|, Copy, ty, Some(st.nextReg), [operand]);
      assert AllPlain(copy);
      AppendPasses(st.code, copy, test);
      AppendPasses(st.code + [copy], ret, test);
      assert (st.code + [copy]) + [ret] == st.code + [copy, ret];
    }
  }

  lemma {:induction false} NoVectors(t: Type)
    ensures TypeFrom(t) != VecT
  {
  }

  lemma {:induction false} ReturnNode(g: Nodes, st: State, n: nat, test: Test)
    requires InRange(g) && n < |g| && |st.nodeRegs| == |g| && g[n].kind == Return && Decides(test)
    ensures AllPass(LowerReturn(g, st, n).code, test) <==> AllPass(st.code, test) && |g[n].inputs| > 1
  {
    var node := g[n];
    if |node.inputs| > 1 {
      OperandSorts(g, st.nodeRegs, node.inputs[1]);
      if node.inputs[1].Some? {
        NoVectors(g[node.inputs[1].value].ty);
      }
      ReturnPasses(st, OperandFrom(g, st.nodeRegs, node.inputs[1]), InputType(g, node.inputs[1]), test);
    } else {
      var ret := Inst(|st.code|, Ret, VoidT, None, []);
      assert AllPlain(ret);
      AppendPasses(st.code, ret, test);
    }
  }

  lemma {:induction false} OperationNode(g: Nodes, st: State, n: nat, test: Test)
    requires InRange(g) && n < |g| && |st.nodeRegs| == |g| && IsOperation(g[n].kind) && Decides(test)
    ensures AllPass(LowerOperation(g, st, n).code, test) <==> AllPass(st.code, test) && NodeCompiles(g, n)
  {
    var inst := LowerOperation(g, st, n).code[|st.code|];
    AppendPasses(st.code, inst, test);
    if g[n].kind == Cast || g[n].kind == Bitcast {
      assert !NodeCompiles(g, n);
    } else {
      OperationSurvives(g, st.nodeRegs, n, inst, test);
    }
  }

  lemma {:induction false} NodePasses(g: Nodes, st: State, n: nat, r: State, test: Test)
    requires InRange(g) && n < |g| && |st.nodeRegs| == |g| && r == LowerNode(g, st, n) && Decides(test)
    ensures AllPass(r.code, test) <==> AllPass(st.code, test) && NodeCompiles(g, n)
  {
    if g[n].kind == Return {
      ReturnNode(g, st, n, test);
    } else if IsOperation(g[n].kind) {
      OperationNode(g, st, n, test);
    }
  }

  lemma {:induction false} TracePasses(g: Nodes, sts: seq<State>, n: nat, test: Test)
    requires InRange(g) && Trace(g, sts) && n <= |g| && Decides(test)
    ensures AllPass(sts[n].code, test) <==> CompilesTo(g, n)
  {
    if n > 0 {
      CompilesNext(g, n - 1);
      TracePasses(g, sts, n - 1, test);
      StepPasses(g, sts, n - 1, test);
    }
  }

  lemma {:induction false} StepPasses(g: Nodes, sts: seq<State>, n: nat, test: Test)
    requires InRange(g) && Trace(g, sts) && n < |g| && Decides(test)
    ensures AllPass(sts[n + 1].code, test) <==> AllPass(sts[n].code, test) && NodeCompiles(g, n)
  {
    assert StepAt(g, sts, n);
    NodePasses(g, sts[n], n, sts[n + 1], test);
  }

  /** Selection succeeds on what the peephole pass leaves of a lowered graph
      exactly when every node of the graph compiles. */
  lemma {:induction false} SelectableIff(g: Nodes)
    requires InRange(g)
    ensures Selectable(TunedCode(ShippedPeephole(), Lowered(g).blocks[0])) <==> Compiles(g)
  {
    var sts := TraceExists(g);
    SurvivalDecides();
    TracePasses(g, sts, |g|, SurvivalTest());
    TunedSelectable(Lowered(g).blocks[0]);
  }

  lemma {:induction false} TunedSelectable(code: seq<Inst>)
    ensures Selectable(TunedCode(ShippedPeephole(), code)) <==> AllPass(code, SurvivalTest())
  {
    var rules, test := ShippedPeephole(), SurvivalTest();
    var tuned := TunedCode(rules, code);
    forall k | 0 <= k < |code|
      ensures HasDesc(tuned[k]) <==> test(code[k])
    {
      assert tuned[k] == Tune(rules, code[k]);
    }
  }
}
