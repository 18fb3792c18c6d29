/**
 MDS instruction selection: the built-in machine's 21 instruction descriptors
 and patterns, the choice of the cheapest matching pattern, and the shape of
 the instructions it emits.
 */
module Mds {
  import opened Wrappers
  import opened Mal

  /** The built-in instructions, in table order. */
  datatype Desc =
    | MovRR | MovRI | AddRR | AddRI | SubRR | SubRI | MulRR | NegR | AndRR | OrRR | XorRR | NotR
    | ShlRI | AshrRI | CmpEq | CmpNe | CmpSlt | CmpSle | CmpSgt | CmpSge | RetR

  datatype Slot = OutReg | InReg | InImm

  predicate TakesImm(d: Desc) {
    d.MovRI? || d.AddRI? || d.SubRI? || d.ShlRI? || d.AshrRI?
  }

  predicate OneInput(d: Desc) {
    d.MovRR? || d.MovRI? || d.NegR? || d.NotR?
  }

  /** The operand kinds of each descriptor. */
  function Slots(d: Desc): seq<Slot> {
    if d == RetR then [InReg]
    else
      var last := if TakesImm(d) then InImm else InReg;
      if OneInput(d) then [OutReg, last] else [OutReg, InReg, last]
  }

  predicate HasOutput(d: Desc) {
    d != RetR
  }

  // ----- Patterns -----

  datatype Constraint = Constraint(mustBeReg: bool, mustBeImm: bool)

  datatype Pattern = Pattern(desc: Desc, opcode: Opcode, constraints: seq<Constraint>, cost: int)

  /** How a pattern's operand constraints are filled in from two flags. */
  function BuiltinPattern(opcode: Opcode, desc: Desc, firstInputReg: bool, lastInputImm: bool): Pattern {
    var count := |Slots(desc)| - (if Slots(desc)[0] == OutReg then 1 else 0);
    var constraints :=
      if count == 1 then [Constraint(firstInputReg, lastInputImm)]
      else [Constraint(firstInputReg, false), Constraint(!lastInputImm, lastInputImm)];
    Pattern(desc, opcode, constraints, 1)
  }

  /** The pattern table has one row per descriptor: its operation, whether the
      first input must be a register, and whether the last must be immediate. */
  function PatternFor(d: Desc): Pattern {
    BuiltinPattern(OpcodeOf(d), d, d != MovRI, TakesImm(d))
  }

  /** The operation a descriptor stands for. */
  function OpcodeOf(d: Desc): Opcode {
    match d
    case MovRR => Copy
    case MovRI => Copy
    case AddRR => AddOp
    case AddRI => AddOp
    case SubRR => SubOp
    case SubRI => SubOp
    case MulRR => MulOp
    case NegR => NegOp
    case AndRR => AndOp
    case OrRR => OrOp
    case XorRR => XorOp
    case NotR => NotOp
    case ShlRI => ShlOp
    case AshrRI => AShrOp
    case CmpEq => ICmpEq
    case CmpNe => ICmpNe
    case CmpSlt => ICmpSlt
    case CmpSle => ICmpSle
    case CmpSgt => ICmpSgt
    case CmpSge => ICmpSge
    case RetR => Ret
  }

  const DESC_COUNT := 21

  /** Table order. */
  function IndexOf(d: Desc): (i: nat)
    ensures i < DESC_COUNT
  {
    match d
    case MovRR => 0
    case MovRI => 1
    case AddRR => 2
    case AddRI => 3
    case SubRR => 4
    case SubRI => 5
    case MulRR => 6
    case NegR => 7
    case AndRR => 8
    case OrRR => 9
    case XorRR => 10
    case NotR => 11
    case ShlRI => 12
    case AshrRI => 13
    case CmpEq => 14
    case CmpNe => 15
    case CmpSlt => 16
    case CmpSle => 17
    case CmpSgt => 18
    case CmpSge => 19
    case RetR => 20
  }

  function DescAt(i: nat): (d: Desc)
    requires i < DESC_COUNT
    ensures IndexOf(d) == i
  {
    match i
    case 0 => MovRR
    case 1 => MovRI
    case 2 => AddRR
    case 3 => AddRI
    case 4 => SubRR
    case 5 => SubRI
    case 6 => MulRR
    case 7 => NegR
    case 8 => AndRR
    case 9 => OrRR
    case 10 => XorRR
    case 11 => NotR
    case 12 => ShlRI
    case 13 => AshrRI
    case 14 => CmpEq
    case 15 => CmpNe
    case 16 => CmpSlt
    case 17 => CmpSle
    case 18 => CmpSgt
    case 19 => CmpSge
    case _ => RetR
  }

  function Patterns(): (ps: seq<Pattern>)
    ensures |ps| == DESC_COUNT && forall i :: 0 <= i < DESC_COUNT ==> ps[i] == PatternFor(DescAt(i))
  {
    seq(DESC_COUNT, i requires 0 <= i < DESC_COUNT => PatternFor(DescAt(i)))
  }

  function BitWidth(t: MalType): nat {
    match t
    case I1T => 1
    case I8T => 8
    case I16T => 16
    case I32T => 32
    case I64T => 64
    case PtrT => 64
    case F32T => 32
    case F64T => 64
    case VecT => 128
    case VoidT => 0
  }

  predicate IsImm(o: Operand) {
    o.ImmInt? || o.ImmFloat?
  }

  function OperandType(o: Operand): MalType {
    if o.Reg? || o.ImmInt? || o.ImmFloat? then o.ty else VoidT
  }

  predicate ConstraintHolds(c: Constraint, o: Operand) {
    (c.mustBeImm ==> IsImm(o)) && (c.mustBeReg ==> o.Reg?) && BitWidth(OperandType(o)) <= 64
  }

  predicate PatternMatches(p: Pattern, inst: Inst) {
    && p.opcode == inst.opcode && |p.constraints| == |inst.operands|
    && forall k :: 0 <= k < |inst.operands| ==> ConstraintHolds(p.constraints[k], inst.operands[k])
  }

  /** The first of the cheapest matching patterns. */
  method SelectBest(patterns: seq<Pattern>, inst: Inst) returns (best: Option<nat>)
    ensures best.None? <==> forall i :: 0 <= i < |patterns| ==> !PatternMatches(patterns[i], inst)
    ensures best.Some? ==> best.value < |patterns| && PatternMatches(patterns[best.value], inst)
    ensures best.Some? ==> forall i :: 0 <= i < |patterns| && PatternMatches(patterns[i], inst) ==>
              patterns[best.value].cost <= patterns[i].cost
              && (patterns[best.value].cost == patterns[i].cost ==> best.value <= i)
  {
    best := None;
    var index := 0;
    while index < |patterns|
      invariant 0 <= index <= |patterns|
      invariant best.None? <==> forall i :: 0 <= i < index ==> !PatternMatches(patterns[i], inst)
      invariant best.Some? ==> best.value < index && PatternMatches(patterns[best.value], inst)
      invariant best.Some? ==> forall i :: 0 <= i < index && PatternMatches(patterns[i], inst) ==>
                  patterns[best.value].cost <= patterns[i].cost
                  && (patterns[best.value].cost == patterns[i].cost ==> best.value <= i)
    {
      if PatternMatches(patterns[index], inst) && (best.None? || patterns[index].cost < patterns[best.value].cost) {
        best := Some(index);
      }
      index := index + 1;
    }
  }

  // ----- What the built-in patterns match -----

  predicate SlotHolds(s: Slot, o: Operand) {
    match s
    case OutReg => o.Reg?
    case InReg => o.Reg?
    case InImm => IsImm(o)
  }

  /** The input operands have the kinds the descriptor asks for, none a vector. */
  predicate Accepts(d: Desc, inst: Inst) {
    var skip := if HasOutput(d) then 1 else 0;
    && OpcodeOf(d) == inst.opcode && |inst.operands| + skip == |Slots(d)|
    && forall k :: 0 <= k < |inst.operands| ==>
         SlotHolds(Slots(d)[k + skip], inst.operands[k]) && OperandType(inst.operands[k]) != VecT
  }

  /** Each pattern's constraints say exactly what its descriptor's slots do. */
  lemma {:induction false} PatternAccepts(d: Desc, inst: Inst)
    ensures PatternMatches(PatternFor(d), inst) <==> Accepts(d, inst)
  {
    forall k | 0 <= k < |inst.operands|
      ensures BitWidth(OperandType(inst.operands[k])) <= 64 <==> OperandType(inst.operands[k]) != VecT
    {
    }
  }

  /** The descriptor an operation selects, given whether an immediate is involved. */
  function DescFor(op: Opcode, imm: bool): Option<Desc> {
    match op
    case Copy => Some(if imm then MovRI else MovRR)
    case AddOp => Some(if imm then AddRI else AddRR)
    case SubOp => Some(if imm then SubRI else SubRR)
    case MulOp => Some(MulRR)
    case NegOp => Some(NegR)
    case AndOp => Some(AndRR)
    case OrOp => Some(OrRR)
    case XorOp => Some(XorRR)
    case NotOp => Some(NotR)
    case ShlOp => Some(ShlRI)
    case AShrOp => Some(AshrRI)
    case ICmpEq => Some(CmpEq)
    case ICmpNe => Some(CmpNe)
    case ICmpSlt => Some(CmpSlt)
    case ICmpSle => Some(CmpSle)
    case ICmpSgt => Some(CmpSgt)
    case ICmpSge => Some(CmpSge)
    case Ret => Some(RetR)
    case _ => None
  }

  lemma {:induction false} DescForExact(d: Desc)
    ensures DescFor(OpcodeOf(d), TakesImm(d)) == Some(d)
  {
  }

  /** Two descriptors never accept the same instruction. */
  lemma {:induction false} AcceptsOne(d: Desc, e: Desc, inst: Inst)
    requires Accepts(d, inst) && Accepts(e, inst)
    ensures d == e
  {
    DescForExact(d);
    DescForExact(e);
    LastSlot(d);
    LastSlot(e);
    assert IsImm(inst.operands[|inst.operands| - 1]) <==> TakesImm(d);
    assert IsImm(inst.operands[|inst.operands| - 1]) <==> TakesImm(e);
  }

  lemma {:induction false} LastSlot(d: Desc)
    ensures |Slots(d)| >= 1 && Slots(d)[|Slots(d)| - 1] == if TakesImm(d) then InImm else InReg
  {
  }

  // ----- Emitted instructions -----

  datatype Selected = Selected(desc: Desc, operands: seq<Operand>)

  /** The destination, where there is one to write, then the operands. */
  function Emit(d: Desc, inst: Inst): Selected {
    Selected(d, (if inst.dst.Some? && Slots(d)[0] == OutReg then [Reg(inst.dst.value, inst.ty)] else []) + inst.operands)
  }

  /** Exactly the descriptor's operand count and kinds. */
  predicate Shaped(s: Selected) {
    |s.operands| == |Slots(s.desc)| && forall k :: 0 <= k < |s.operands| ==> SlotHolds(Slots(s.desc)[k], s.operands[k])
  }

  /** An emitted instruction has its descriptor's shape exactly when the
      instruction has the destination that the descriptor writes. */
  lemma {:induction false} EmitShaped(d: Desc, inst: Inst)
    requires Accepts(d, inst)
    ensures Shaped(Emit(d, inst)) <==> (HasOutput(d) ==> inst.dst.Some?)
  {
  }

  /** At most one immediate, and only as the last operand. */
  lemma {:induction false} OneImmediate(s: Selected, k: nat)
    requires Shaped(s) && k < |s.operands| && IsImm(s.operands[k])
    ensures k == |s.operands| - 1 && TakesImm(s.desc)
  {
  }

  method Select(inst: Inst) returns (out: Option<Selected>)
    ensures out.Some? <==> HasDesc(inst)
    ensures out.Some? ==> Accepts(out.value.desc, inst) && out.value == Emit(out.value.desc, inst)
  {
    var best := SelectBest(Patterns(), inst);
    if best.None? {
      forall d
        ensures !Accepts(d, inst)
      {
        assert Patterns()[IndexOf(d)] == PatternFor(d) by { SameIndex(DescAt(IndexOf(d)), d); }
        PatternAccepts(d, inst);
      }
      return None;
    }
    PatternAccepts(DescAt(best.value), inst);
    out := Some(Emit(DescAt(best.value), inst));
  }

  lemma {:induction false} SameIndex(d: Desc, e: Desc)
    requires IndexOf(d) == IndexOf(e)
    ensures d == e
  {
  }

  // ----- Whole programs -----

  ghost predicate HasDesc(inst: Inst) {
    exists d :: Accepts(d, inst)
  }

  ghost predicate Selectable(code: seq<Inst>) {
    forall n :: 0 <= n < |code| ==> HasDesc(code[n])
  }

  /** `out` is the selection of `code`, instruction by instruction. */
  ghost predicate Selects(code: seq<Inst>, out: seq<Selected>) {
    |out| == |code|
    && forall n :: 0 <= n < |code| ==> Accepts(out[n].desc, code[n]) && out[n] == Emit(out[n].desc, code[n])
  }

  method SelectBlock(code: seq<Inst>) returns (out: Option<seq<Selected>>)
    ensures out.Some? <==> Selectable(code)
    ensures out.Some? ==> Selects(code, out.value)
  {
    var done: seq<Selected> := [];
    while |done| < |code|
      invariant |done| <= |code|
      invariant forall n :: 0 <= n < |done| ==> Accepts(done[n].desc, code[n]) && done[n] == Emit(done[n].desc, code[n])
    {
      var selected := Select(code[|done|]);
      if selected.None? {
        return None;
      }
      done := done + [selected.value];
    }
    out := Some(done);
  }

  ghost predicate SelectsAll(blocks: seq<seq<Inst>>, out: seq<seq<Selected>>) {
    |out| == |blocks| && forall b :: 0 <= b < |blocks| ==> Selects(blocks[b], out[b])
  }

  /** Selection succeeds exactly when every instruction is accepted by some descriptor. */
  method SelectProgram(blocks: seq<seq<Inst>>) returns (out: Option<seq<seq<Selected>>>)
    ensures out.Some? <==> forall b :: 0 <= b < |blocks| ==> Selectable(blocks[b])
    ensures out.Some? ==> SelectsAll(blocks, out.value)
  {
    var done: seq<seq<Selected>> := [];
    while |done| < |blocks|
      invariant |done| <= |blocks|
      invariant forall b :: 0 <= b < |done| ==> Selectable(blocks[b]) && Selects(blocks[b], done[b])
    {
      var block := SelectBlock(blocks[|done|]);
      if block.None? {
        return None;
      }
      done := done + [block.value];
    }
    out := Some(done);
  }
}
