/**
 The interpreter running the encoding of selected code computes what the MAL
 code computes: registers hold the boxed values, and register 0 ends up with
 the returned value.
 */
module Simulation {
  import opened Wrappers
  import opened Values
  import opened Terms
  import opened Mal
  import opened Lowering
  import opened Mds
  import opened Bytecode
  import opened Encoder
  import opened EncoderProofs

  // ----- Runs, one word at a time -----

  /** `ss[n]` is the interpreter's state after `n` steps. */
  ghost predicate Runs(p: Prototype, ss: seq<Status>, shifts: Shifts) {
    |ss| == |p.instrs| + 1 && forall n :: 0 <= n < |p.instrs| ==> Follows(p, ss, n, shifts)
  }

  ghost predicate Follows(p: Prototype, ss: seq<Status>, n: nat, shifts: Shifts)
    requires n + 1 < |ss|
  {
    ss[n + 1] == Step(p, ss[n], shifts)
  }

  lemma {:induction false} RunExists(p: Prototype, s0: Status, shifts: Shifts) returns (ss: seq<Status>)
    ensures Runs(p, ss, shifts) && ss[0] == s0 && forall n :: 0 <= n <= |p.instrs| ==> ss[n] == RunFor(p, s0, n, shifts)
  {
    ss := seq(|p.instrs| + 1, n requires 0 <= n <= |p.instrs| => RunFor(p, s0, n, shifts));
    forall n | 0 <= n < |p.instrs|
      ensures Follows(p, ss, n, shifts)
    {
      assert ss[n + 1] == RunFor(p, s0, n + 1, shifts);
    }
  }

  /** After `pc` steps the run is at word `pc`, with these registers. */
  ghost predicate At(ss: seq<Status>, pc: nat, regs: seq<Word>) {
    pc < |ss| && ss[pc] == Running(regs, pc)
  }

  lemma {:induction false} MoveStep(p: Prototype, ss: seq<Status>, shifts: Shifts, pc: nat, regs: seq<Word>, a: U16, b: U16, c: U16)
    requires Runs(p, ss, shifts) && pc < |p.instrs| && At(ss, pc, regs)
    requires HasFields(p.instrs[pc], MOVE, a, b, c) && a < |regs| && b < |regs|
    ensures At(ss, pc + 1, regs[a := regs[b]])
  {
    assert Follows(p, ss, pc, shifts);
  }

  lemma {:induction false} ReturnStep(p: Prototype, ss: seq<Status>, shifts: Shifts, pc: nat, regs: seq<Word>, a: U16, b: U16, c: U16)
    requires Runs(p, ss, shifts) && pc < |p.instrs| && At(ss, pc, regs)
    requires HasFields(p.instrs[pc], RETURN, a, b, c) && a < |regs|
    ensures ss[pc + 1] == Finished(regs[0 := regs[a]])
  {
    assert Follows(p, ss, pc, shifts);
  }

  lemma {:induction false} UnaryStep(p: Prototype, ss: seq<Status>, shifts: Shifts, pc: nat, regs: seq<Word>, op: Byte, a: U16, b: U16, c: U16)
    requires Runs(p, ss, shifts) && pc < |p.instrs| && At(ss, pc, regs)
    requires HasFields(p.instrs[pc], op, a, b, c) && (op == NEG || op == NOT) && a < |regs| && b < |regs|
    ensures At(ss, pc + 1, regs[a := BoxInt(if op == NEG then 0 - AsInt(regs[b]) else -1 - AsInt(regs[b]))])
  {
    assert Follows(p, ss, pc, shifts);
  }

  lemma {:induction false} BinaryStep(p: Prototype, ss: seq<Status>, shifts: Shifts, pc: nat, regs: seq<Word>, op: Byte, a: U16, b: U16, c: U16)
    requires Runs(p, ss, shifts) && pc < |p.instrs| && At(ss, pc, regs)
    requires HasFields(p.instrs[pc], op, a, b, c) && IsArithmetic(op) && a < |regs| && b < |regs| && c < |regs|
    requires IsInt(regs[b]) && IsInt(regs[c])
    ensures At(ss, pc + 1, regs[a := ArithmeticWord(op, AsInt(regs[b]), AsInt(regs[c]), shifts)])
  {
    assert Follows(p, ss, pc, shifts);
  }

  lemma {:induction false} LoadStep(p: Prototype, ss: seq<Status>, shifts: Shifts, pc: nat, regs: seq<Word>, op: Byte, a: U16, wide: U32)
    requires Runs(p, ss, shifts) && pc < |p.instrs| && At(ss, pc, regs)
    requires HasWide(p.instrs[pc], op, a, wide) && a < |regs|
    requires op == LOAD_IMM || (op == LOAD_CONST && wide < |p.consts|)
    ensures At(ss, pc + 1, regs[a := if op == LOAD_IMM then BoxInt(Wrap(wide)) else p.consts[wide]])
  {
    assert Follows(p, ss, pc, shifts);
  }

  // ----- Arithmetic -----

  /** The word an opcode computes is the boxed value of the operation that was
      encoded as it. */
  lemma {:induction false} ArithmeticAgrees(k: Kind, op: Byte, x: I32, y: I32, shifts: Shifts)
    requires IsBinary(k) && IsArithmetic(op) && KindOfOp(op) == (if k == Xor then Or else k)
    requires BinaryInt(k, x, y, Machine(true)) != Undef
    ensures ArithmeticWord(op, x, y, shifts) == Box(BinaryInt(k, x, y, Machine(true)))
  {
    if k == Xor {
      XorIsOr(x, y, 32);
    }
  }

  /** Encoded as or, exclusive or is right exactly when the operands share no bit. */
  lemma {:induction false} XorEncodedAsOr(x: I32, y: I32, shifts: Shifts)
    ensures ArithmeticWord(FoundOp(XorRR), x, y, shifts) == BoxInt(Bits32(XorBits, x, y)) <==> Bits32(AndBits, x, y) == 0
  {
    XorIsOr(x, y, 32);
    BoxIntPayload(Bits32(OrBits, x, y));
    BoxIntPayload(Bits32(XorBits, x, y));
  }

  lemma {:induction false} FoundKind(d: Desc)
    requires IsBinaryDesc(d)
    ensures KindOf(OpcodeOf(d)).Some?
    ensures var k := KindOf(OpcodeOf(d)).value;
            IsBinary(k) && KindOfOp(FoundOp(d)) == (if k == Xor then Or else k)
  {
  }

  // ----- The relation between registers -----

  /** Every register below the scratch register holds its boxed value, where
      that value is defined. */
  ghost predicate Rel(mregs: Regs, regs: seq<Word>, scratch: nat) {
    |regs| == scratch + 1 && forall r: nat :: r < scratch ==> HoldsAt(mregs, regs, r)
  }

  ghost predicate HoldsAt(mregs: Regs, regs: seq<Word>, r: nat) {
    r < |regs| && (mregs(r) != Undef ==> regs[r] == Box(mregs(r)))
  }

  /** Writing the scratch register does not disturb the others. */
  lemma {:induction false} ScratchFree(mregs: Regs, regs: seq<Word>, scratch: nat, word: Word)
    requires Rel(mregs, regs, scratch)
    ensures Rel(mregs, regs[scratch := word], scratch)
  {
    var regs' := regs[scratch := word];
    assert forall r: nat :: r < scratch && HoldsAt(mregs, regs, r) ==> HoldsAt(mregs, regs', r);
  }

  lemma {:induction false} WriteRel(mregs: Regs, regs: seq<Word>, scratch: nat, dst: nat, v: Value)
    requires Rel(mregs, regs, scratch) && dst < scratch && v != Undef
    ensures Rel(Write(mregs, dst, v), regs[dst := Box(v)], scratch)
  {
    var mregs', regs' := Write(mregs, dst, v), regs[dst := Box(v)];
    assert forall r: nat :: r < scratch && HoldsAt(mregs, regs, r) ==> HoldsAt(mregs', regs', r);
  }

  ghost predicate Placed(p: Prototype, bd: Builder) {
    Begins(bd.instrs, p.instrs) && Begins(bd.consts, p.consts)
  }

  lemma {:induction false} BoxWrapped(n: int)
    ensures BoxInt(Wrap(n)) == BoxInt(n) && Wrap(Low32(n)) == Wrap(n)
  {
    WrapLow(n);
  }

  /** The word of an immediate. */
  function ImmWord(o: Operand): Word
    requires IsImm(o)
  {
    if o.ImmInt? then BoxInt(o.imm) else o.bits
  }

  predicate Small(o: Operand) {
    o.ImmInt? && FitsI32(o.imm)
  }

  /** The first word after `bd` in `bd'` loads the immediate. */
  ghost predicate LoadsImm(bd: Builder, bd': Builder, o: Operand)
    requires IsImm(o)
  {
    && |bd'.instrs| > |bd.instrs|
    && (if Small(o) then HasWide(bd'.instrs[|bd.instrs|], LOAD_IMM, bd.scratch, Low32(o.imm))
        else |bd.consts| < 0xFFFF_FFFF && HasWide(bd'.instrs[|bd.instrs|], LOAD_CONST, bd.scratch, |bd.consts|)
             && |bd'.consts| > |bd.consts| && bd'.consts[|bd.consts|] == ImmWord(o))
  }

  lemma {:induction false} SmallShape(bd: Builder, o: Operand, w: Word, last: Word)
    requires Small(o) && HasWide(w, LOAD_IMM, bd.scratch, Low32(o.imm))
    ensures LoadsImm(bd, Append(Append(bd, w), last), o)
  {
    assert (bd.instrs + [w] + [last])[|bd.instrs|] == w;
  }

  lemma {:induction false} LargeShape(bd: Builder, o: Operand, w: Word, last: Word)
    requires IsImm(o) && !Small(o) && |bd.consts| < 0xFFFF_FFFF && HasWide(w, LOAD_CONST, bd.scratch, |bd.consts|)
    ensures LoadsImm(bd, Append(bd.(instrs := bd.instrs + [w], consts := bd.consts + [ImmWord(o)]), last), o)
  {
    assert (bd.instrs + [w] + [last])[|bd.instrs|] == w;
  }

  lemma {:induction false} ImmediateShape(bd: Builder, o: Operand, last: Word)
    requires IsImm(o) && |bd.consts| < 0xFFFF_FFFF
    ensures var (bd', r) := ToReg(bd, o).value;
            r == bd.scratch && |bd'.instrs| == |bd.instrs| + 1 && LoadsImm(bd, Append(bd', last), o)
  {
    if Small(o) {
      EncodeWideRoundTrip(LOAD_IMM, bd.scratch, Low32(o.imm));
      SmallShape(bd, o, EncodeWide(LOAD_IMM, bd.scratch, Low32(o.imm)), last);
    } else {
      EncodeWideRoundTrip(LOAD_CONST, bd.scratch, Low32(|bd.consts|));
      LargeShape(bd, o, EncodeWide(LOAD_CONST, bd.scratch, Low32(|bd.consts|)), last);
    }
  }

  lemma {:induction false} ImmediateStep(p: Prototype, ss: seq<Status>, shifts: Shifts, bd: Builder, bd': Builder, o: Operand, regs: seq<Word>)
    requires Runs(p, ss, shifts) && Placed(p, bd') && At(ss, |bd.instrs|, regs) && bd.scratch < |regs|
    requires IsImm(o) && LoadsImm(bd, bd', o)
    ensures At(ss, |bd.instrs| + 1, regs[bd.scratch := ImmWord(o)])
  {
    var pc := |bd.instrs|;
    assert p.instrs[pc] == bd'.instrs[pc];
    if Small(o) {
      BoxWrapped(o.imm);
      LoadStep(p, ss, shifts, pc, regs, LOAD_IMM, bd.scratch, Low32(o.imm));
    } else {
      LoadStep(p, ss, shifts, pc, regs, LOAD_CONST, bd.scratch, |bd.consts|);
    }
  }

  /** The register an operand is read from, and how many words load it. */
  function ReadFrom(bd: Builder, o: Operand): U16 {
    if o.Reg? then Cut16(o.reg) else bd.scratch
  }

  function LoadLength(o: Operand): nat {
    if o.Reg? then 0 else 1
  }

  lemma {:induction false} ImmediateBoxed(o: Operand, mregs: Regs)
    requires IsImm(o)
    ensures OperandValue(o, mregs) != Undef && Box(OperandValue(o, mregs)) == ImmWord(o)
  {
    if o.ImmInt? {
      BoxWrapped(o.imm);
    }
  }

  /** Loading an operand leaves its boxed value in the register it is read from,
      and no other register below the scratch register changes. */
  lemma {:induction false} LoadSim(p: Prototype, ss: seq<Status>, shifts: Shifts, bd: Builder, o: Operand, bd': Builder, mregs: Regs, regs: seq<Word>)
    returns (regs': seq<Word>)
    requires OperandValue(o, mregs) != Undef && (o.Reg? ==> o.reg < bd.scratch)
    requires (IsImm(o) ==> LoadsImm(bd, bd', o)) && Placed(p, bd') && Runs(p, ss, shifts)
    requires At(ss, |bd.instrs|, regs) && Rel(mregs, regs, bd.scratch)
    ensures At(ss, |bd.instrs| + LoadLength(o), regs') && Rel(mregs, regs', bd.scratch)
    ensures ReadFrom(bd, o) < |regs'| && regs'[ReadFrom(bd, o)] == Box(OperandValue(o, mregs))
  {
    if o.Reg? {
      regs' := regs;
      assert HoldsAt(mregs, regs, o.reg);
    } else {
      regs' := regs[bd.scratch := ImmWord(o)];
      ImmediateBoxed(o, mregs);
      ImmediateStep(p, ss, shifts, bd, bd', o, regs);
      ScratchFree(mregs, regs, bd.scratch, ImmWord(o));
    }
  }

  // ----- The last word of an instruction -----

  /** What negation or complement of `v` leaves. */
  predicate UnaryLeaves(d: Desc, v: Value, u: Value) {
    && v != Undef && u != Undef
    && Box(u) == BoxInt(if d == NegR then 0 - AsInt(Box(v)) else -1 - AsInt(Box(v)))
  }

  function UnaryKind(d: Desc): (k: Kind)
    ensures IsUnary(k)
  {
    if d == NegR then Neg else Not
  }

  lemma {:induction false} UnaryAgrees(d: Desc, v: Value)
    requires (d == NegR || d == NotR) && Unary(UnaryKind(d), v, Machine(true)) != Undef
    ensures UnaryLeaves(d, v, Unary(UnaryKind(d), v, Machine(true)))
  {
    BoxIntPayload(v.i);
    BoxWrapped(0 - v.i);
  }

  /** The machine only computes on integers. */
  lemma {:induction false} BothInts(k: Kind, v: Value, w: Value)
    requires IsBinary(k) && Binary(k, v, w, Machine(true)) != Undef
    ensures v.Int? && w.Int? && Binary(k, v, w, Machine(true)) == BinaryInt(k, v.i, w.i, Machine(true))
  {
  }

  lemma {:induction false} UnaryWord(d: Desc, inst: Inst, mregs: Regs)
    requires (d == NegR || d == NotR) && OpcodeOf(d) == inst.opcode && |inst.operands| == 1
    requires InstValue(inst, mregs, MachineOps(true)) != Undef
    ensures UnaryLeaves(d, OperandValue(inst.operands[0], mregs), InstValue(inst, mregs, MachineOps(true)))
  {
    UnaryValue(d, inst, mregs);
    UnaryAgrees(d, OperandValue(inst.operands[0], mregs));
  }

  lemma {:induction false} UnaryValue(d: Desc, inst: Inst, mregs: Regs)
    requires (d == NegR || d == NotR) && OpcodeOf(d) == inst.opcode && |inst.operands| == 1
    ensures InstValue(inst, mregs, MachineOps(true))
         == Unary(UnaryKind(d), OperandValue(inst.operands[0], mregs), Machine(true))
  {
    var v := OperandValue(inst.operands[0], mregs);
    assert OperandValues(inst.operands, mregs) == [v];
    MachineUnary(UnaryKind(d), v, true);
  }

  lemma {:induction false} BinaryWord(d: Desc, inst: Inst, mregs: Regs, shifts: Shifts)
    requires IsBinaryDesc(d) && OpcodeOf(d) == inst.opcode && |inst.operands| == 2
    requires InstValue(inst, mregs, MachineOps(true)) != Undef
    ensures var v, w := OperandValue(inst.operands[0], mregs), OperandValue(inst.operands[1], mregs);
            v.Int? && w.Int?
            && Box(InstValue(inst, mregs, MachineOps(true))) == ArithmeticWord(FoundOp(d), v.i, w.i, shifts)
  {
    var v, w := OperandValue(inst.operands[0], mregs), OperandValue(inst.operands[1], mregs);
    FoundKind(d);
    var k := KindOf(OpcodeOf(d)).value;
    assert OperandValues(inst.operands, mregs) == [v, w];
    MachineBinary(k, v, w, true);
    BothInts(k, v, w);
    ArithmeticAgrees(k, FoundOp(d), v.i, w.i, shifts);
  }

  /** The registers an emitted instruction names lie below the scratch register. */
  ghost predicate Below(s: Selected, scratch: nat) {
    forall k :: 0 <= k < |s.operands| && s.operands[k].Reg? ==> s.operands[k].reg < scratch
  }

  /** Shapes: the destination first, then the instruction's own operands. */
  lemma {:induction false} EmitLayout(d: Desc, inst: Inst)
    requires Accepts(d, inst) && HasOutput(d) && inst.dst.Some?
    ensures Shaped(Emit(d, inst)) && |inst.operands| == (if OneInput(d) then 1 else 2)
    ensures Emit(d, inst).operands[0] == Reg(inst.dst.value, inst.ty)
    ensures LastOperand(Emit(d, inst)) == inst.operands[|inst.operands| - 1]
    ensures IsBinaryDesc(d) ==> Emit(d, inst).operands[1] == inst.operands[0] && inst.operands[0].Reg?
  {
    EmitShaped(d, inst);
    if IsBinaryDesc(d) {
      assert SlotHolds(Slots(d)[1], inst.operands[0]);
    }
  }

  // ----- What an instruction's last word computes -----

  /** `word` is what descriptor `d` computes from the words of its first and
      last operands. */
  ghost predicate Yields(d: Desc, first: Word, last: Word, word: Word, shifts: Shifts) {
    if d == MovRR || d == MovRI then word == last
    else if d == NegR then word == BoxInt(0 - AsInt(last))
    else if d == NotR then word == BoxInt(-1 - AsInt(last))
    else IsBinaryDesc(d) && IsInt(first) && IsInt(last)
         && word == ArithmeticWord(FoundOp(d), AsInt(first), AsInt(last), shifts)
  }

  /** MAL's value of the instruction, boxed, is what its descriptor yields. */
  lemma {:induction false} InstYields(d: Desc, inst: Inst, mregs: Regs, first: Word, last: Word, shifts: Shifts)
    requires Accepts(d, inst) && HasOutput(d) && |inst.operands| == (if OneInput(d) then 1 else 2)
    requires InstValue(inst, mregs, MachineOps(true)) != Undef
    requires forall k :: 0 <= k < |inst.operands| ==> OperandValue(inst.operands[k], mregs) != Undef
    requires first == Box(OperandValue(inst.operands[0], mregs))
    requires last == Box(OperandValue(inst.operands[|inst.operands| - 1], mregs))
    ensures Yields(d, first, last, Box(InstValue(inst, mregs, MachineOps(true))), shifts)
  {
    if d == NegR || d == NotR {
      UnaryWord(d, inst, mregs);
    } else if IsBinaryDesc(d) {
      BinaryYields(d, inst, mregs, shifts);
    }
  }

  lemma {:induction false} BinaryYields(d: Desc, inst: Inst, mregs: Regs, shifts: Shifts)
    requires IsBinaryDesc(d) && OpcodeOf(d) == inst.opcode && |inst.operands| == 2
    requires InstValue(inst, mregs, MachineOps(true)) != Undef
    ensures var v, w := OperandValue(inst.operands[0], mregs), OperandValue(inst.operands[1], mregs);
            v != Undef && w != Undef && Yields(d, Box(v), Box(w), Box(InstValue(inst, mregs, MachineOps(true))), shifts)
  {
    BinaryWord(d, inst, mregs, shifts);
    IntBoxed(OperandValue(inst.operands[0], mregs));
    IntBoxed(OperandValue(inst.operands[1], mregs));
  }

  lemma {:induction false} IntBoxed(v: Value)
    requires v.Int?
    ensures IsInt(Box(v)) && AsInt(Box(v)) == v.i
  {
    BoxIntTag(v.i);
    BoxIntPayload(v.i);
  }

  lemma {:induction false} AllDefinedOperands(d: Desc, inst: Inst, mregs: Regs, shifts: Shifts)
    requires Accepts(d, inst) && HasOutput(d) && |inst.operands| == (if OneInput(d) then 1 else 2)
    requires InstValue(inst, mregs, MachineOps(true)) != Undef
    ensures forall k :: 0 <= k < |inst.operands| ==> OperandValue(inst.operands[k], mregs) != Undef
  {
    if d == NegR || d == NotR {
      UnaryWord(d, inst, mregs);
    } else if IsBinaryDesc(d) {
      BinaryWord(d, inst, mregs, shifts);
    }
  }

  /** The run has reached an instruction's last word; `r` holds the last operand. */
  ghost predicate Poised(p: Prototype, ss: seq<Status>, pc: nat, s: Selected, r: U16, regs: seq<Word>) {
    && At(ss, pc, regs) && pc < |p.instrs|
    && Shaped(s) && HasOutput(s.desc) && Below(s, |regs|) && |regs| <= 0xFFFF && r < |regs|
    && IsFinal(s, r, p.instrs[pc]) && s.operands[0].Reg?
  }

  lemma {:induction false} FinalMove(p: Prototype, ss: seq<Status>, shifts: Shifts, pc: nat, s: Selected, r: U16, regs: seq<Word>)
    requires Runs(p, ss, shifts) && Poised(p, ss, pc, s, r, regs) && (s.desc == MovRR || s.desc == MovRI)
    ensures At(ss, pc + 1, regs[s.operands[0].reg := regs[r]])
  {
    MoveStep(p, ss, shifts, pc, regs, s.operands[0].reg, r, 0);
  }

  lemma {:induction false} FinalUnary(p: Prototype, ss: seq<Status>, shifts: Shifts, pc: nat, s: Selected, r: U16, regs: seq<Word>)
    requires Runs(p, ss, shifts) && Poised(p, ss, pc, s, r, regs) && (s.desc == NegR || s.desc == NotR)
    ensures At(ss, pc + 1, regs[s.operands[0].reg := BoxInt(if s.desc == NegR then 0 - AsInt(regs[r]) else -1 - AsInt(regs[r]))])
  {
    UnaryStep(p, ss, shifts, pc, regs, if s.desc == NegR then NEG else NOT, s.operands[0].reg, r, 0);
  }

  lemma {:induction false} FinalBinary(p: Prototype, ss: seq<Status>, shifts: Shifts, pc: nat, s: Selected, r: U16, regs: seq<Word>)
    requires Runs(p, ss, shifts) && Poised(p, ss, pc, s, r, regs) && IsBinaryDesc(s.desc)
    requires |s.operands| == 3 && s.operands[1].Reg? && IsInt(regs[s.operands[1].reg]) && IsInt(regs[r])
    ensures At(ss, pc + 1, regs[s.operands[0].reg :=
                 ArithmeticWord(FoundOp(s.desc), AsInt(regs[s.operands[1].reg]), AsInt(regs[r]), shifts)])
  {
    BinaryStep(p, ss, shifts, pc, regs, FoundOp(s.desc), s.operands[0].reg, s.operands[1].reg, r);
  }

  /** One step of the interpreter on that last word. */
  lemma {:induction false} FinalStep(p: Prototype, ss: seq<Status>, shifts: Shifts, pc: nat, s: Selected, r: U16, regs: seq<Word>, first: Word, word: Word)
    requires Runs(p, ss, shifts) && Poised(p, ss, pc, s, r, regs)
    requires Yields(s.desc, first, regs[r], word, shifts)
    requires IsBinaryDesc(s.desc) ==> |s.operands| == 3 && s.operands[1].Reg? && regs[s.operands[1].reg] == first
    ensures At(ss, pc + 1, regs[s.operands[0].reg := word])
  {
    if s.desc == MovRR || s.desc == MovRI {
      FinalMove(p, ss, shifts, pc, s, r, regs);
    } else if s.desc == NegR || s.desc == NotR {
      FinalUnary(p, ss, shifts, pc, s, r, regs);
    } else {
      FinalBinary(p, ss, shifts, pc, s, r, regs);
    }
  }

  // ----- One instruction -----

  /** The words of an instruction, decoded: a load of an immediate last operand,
      then the word that reads it. */
  ghost predicate EmitsAs(bd: Builder, s: Selected, bd': Builder)
    requires Shaped(s)
  {
    var o := LastOperand(s);
    o.Reg? || IsImm(o) ==>
      && |bd'.instrs| == |bd.instrs| + LoadLength(o) + 1
      && (IsImm(o) ==> LoadsImm(bd, bd', o))
      && IsFinal(s, ReadFrom(bd, o), bd'.instrs[|bd'.instrs| - 1])
  }

  lemma {:induction false} NotElided(bd: Builder, s: Selected)
    requires Shaped(s) && Below(s, bd.scratch) && bd.scratch < 0xFFFF
    ensures !MoveElided(bd, s)
  {
    if s.desc == MovRI {
      assert SlotHolds(Slots(s.desc)[0], s.operands[0]);
    }
  }

  lemma {:induction false} EmitDecoded(bd: Builder, s: Selected, bd': Builder)
    requires Shaped(s) && EmitInst(bd, s) == Some(bd') && Below(s, bd.scratch) && bd.scratch < 0xFFFF && |bd.consts| < 0xFFFF_FFFF
    ensures EmitsAs(bd, s, bd') && bd'.instrs != []
  {
    ShapedEmits(bd, s);
    NotElided(bd, s);
    var o := LastOperand(s);
    var r := ToReg(bd, o).value.1;
    var w := FinalWord(s, r);
    FinalFields(s, r);
    if IsImm(o) {
      ImmediateShape(bd, o, w);
    }
  }

  /** Running the words of one instruction writes its boxed value to its
      destination, and keeps the relation. */
  lemma {:induction false} InstSim(p: Prototype, ss: seq<Status>, shifts: Shifts, bd: Builder, bd': Builder, d: Desc, inst: Inst, mregs: Regs, regs: seq<Word>)
    returns (regs': seq<Word>)
    requires Accepts(d, inst) && HasOutput(d) && inst.dst.Some? && Shaped(Emit(d, inst)) && EmitsAs(bd, Emit(d, inst), bd')
    requires Placed(p, bd') && Below(Emit(d, inst), bd.scratch) && bd.scratch < 0xFFFF
    requires Runs(p, ss, shifts) && At(ss, |bd.instrs|, regs) && Rel(mregs, regs, bd.scratch)
    requires InstValue(inst, mregs, MachineOps(true)) != Undef
    ensures At(ss, |bd'.instrs|, regs') && Rel(StepInst(inst, mregs, MachineOps(true)), regs', bd.scratch)
  {
    var s, v := Emit(d, inst), InstValue(inst, mregs, MachineOps(true));
    EmitLayout(d, inst);
    AllDefinedOperands(d, inst, mregs, shifts);
    var o := LastOperand(s);
    var r := ReadFrom(bd, o);
    var loaded := LoadSim(p, ss, shifts, bd, o, bd', mregs, regs);
    var first := Box(OperandValue(inst.operands[0], mregs));
    InstYields(d, inst, mregs, first, loaded[r], shifts);
    if IsBinaryDesc(d) {
      assert HoldsAt(mregs, loaded, inst.operands[0].reg) by { assert s.operands[1].reg < bd.scratch; }
    }
    assert p.instrs[|bd'.instrs| - 1] == bd'.instrs[|bd'.instrs| - 1];
    FinalStep(p, ss, shifts, |bd'.instrs| - 1, s, r, loaded, first, Box(v));
    assert s.operands[0].reg < bd.scratch;
    WriteRel(mregs, loaded, bd.scratch, inst.dst.value, v);
    regs' := loaded[inst.dst.value := Box(v)];
  }

  /** Running a return finishes with the boxed value in register 0. */
  lemma {:induction false} ReturnSim(p: Prototype, ss: seq<Status>, shifts: Shifts, bd: Builder, bd': Builder, s: Selected, mregs: Regs, regs: seq<Word>)
    requires s.desc == RetR && Shaped(s) && EmitsAs(bd, s, bd')
    requires Placed(p, bd') && Below(s, bd.scratch) && bd.scratch < 0xFFFF
    requires Runs(p, ss, shifts) && At(ss, |bd.instrs|, regs) && Rel(mregs, regs, bd.scratch)
    requires OperandValue(LastOperand(s), mregs) != Undef
    ensures |bd'.instrs| <= |p.instrs| && ss[|bd'.instrs|].Finished?
    ensures |ss[|bd'.instrs|].regs| > 0 && ss[|bd'.instrs|].regs[0] == Box(OperandValue(LastOperand(s), mregs))
  {
    var o := LastOperand(s);
    var loaded := LoadSim(p, ss, shifts, bd, o, bd', mregs, regs);
    assert p.instrs[|bd'.instrs| - 1] == bd'.instrs[|bd'.instrs| - 1];
    ReturnFields(s, ReadFrom(bd, o), p.instrs[|bd'.instrs| - 1]);
    ReturnStep(p, ss, shifts, |bd'.instrs| - 1, loaded, ReadFrom(bd, o), 0, 0);
  }

  lemma {:induction false} ReturnFields(s: Selected, r: U16, w: Word)
    requires s.desc == RetR && Shaped(s) && IsFinal(s, r, w)
    ensures HasFields(w, RETURN, r, 0, 0)
  {
  }

  // ----- Whole programs -----

  /** What the theorem is about: `sel` selected from `code`, encoded as `p`. */
  ghost predicate Compiled(code: seq<Inst>, sel: seq<Selected>, bds: seq<Builder>, p: Prototype) {
    && Selects(code, sel) && AllShaped(sel) && Encodes(sel, bds, p)
    && MaxReg(sel, |sel|) < 0xFFFE && |sel| < 0xFFFF_FFFF
  }

  /** Registers stay below the scratch register. */
  lemma {:induction false} RegistersBelow(sel: seq<Selected>, bds: seq<Builder>, p: Prototype, n: nat)
    requires Encodes(sel, bds, p) && MaxReg(sel, |sel|) < 0xFFFE && n < |sel|
    ensures Below(sel[n], p.regCount - 1)
  {
    forall k | 0 <= k < |sel[n].operands| && sel[n].operands[k].Reg?
      ensures sel[n].operands[k].reg < p.regCount - 1
    {
      MaxRegBounds(sel, |sel|, n, k);
    }
  }

  /** Words and constants stay where they were put. */
  lemma {:induction false} WordsPlaced(sel: seq<Selected>, bds: seq<Builder>, p: Prototype, n: nat)
    requires Encodes(sel, bds, p) && AllShaped(sel) && n <= |sel| < 0xFFFF_FFFF
    ensures bds[n].scratch == p.regCount - 1 && |bds[n].consts| <= n
    ensures bds[n].instrs != [] ==> Placed(p, bds[n])
  {
    BuilderGrows(sel, bds, 0, n);
    BuilderGrows(sel, bds, n, |sel|);
  }

  lemma {:induction false} WasEmitted(sel: seq<Selected>, bds: seq<Builder>, n: nat)
    requires Emitted(sel, bds) && n < |sel| && Shaped(sel[n])
    requires Below(sel[n], bds[n].scratch) && bds[n].scratch < 0xFFFF && |bds[n].consts| < 0xFFFF_FFFF
    ensures EmitsAs(bds[n], sel[n], bds[n + 1]) && bds[n + 1].instrs != []
  {
    assert EmittedAt(sel, bds, n);
    EmitDecoded(bds[n], sel[n], bds[n + 1]);
  }

  /** The place of instruction `n`: registers in range, words where they belong. */
  lemma {:induction false} PlaceOf(sel: seq<Selected>, bds: seq<Builder>, p: Prototype, n: nat)
    requires AllShaped(sel) && Encodes(sel, bds, p) && MaxReg(sel, |sel|) < 0xFFFE && n < |sel| < 0xFFFF_FFFF
    ensures Shaped(sel[n]) && EmitsAs(bds[n], sel[n], bds[n + 1])
    ensures bds[n].scratch == p.regCount - 1 < 0xFFFF && Below(sel[n], bds[n].scratch) && Placed(p, bds[n + 1])
  {
    assert Shaped(sel[n]);
    WordsPlaced(sel, bds, p, n);
    WordsPlaced(sel, bds, p, n + 1);
    RegistersBelow(sel, bds, p, n);
    WasEmitted(sel, bds, n);
  }

  /** `ms[j]` are the MAL registers before instruction `j`; every instruction
      before `n` has a value. */
  ghost predicate Straight(code: seq<Inst>, ms: seq<Regs>, n: nat) {
    n <= |code| && |ms| == n + 1 && forall j :: 0 <= j < n ==> StraightAt(code, ms, j)
  }

  ghost predicate StraightAt(code: seq<Inst>, ms: seq<Regs>, j: nat)
    requires j < |code| && j + 1 < |ms|
  {
    code[j].opcode != Ret && InstValue(code[j], ms[j], MachineOps(true)) != Undef
    && ms[j + 1] == StepInst(code[j], ms[j], MachineOps(true))
  }

  lemma {:induction false} StraightExists(code: seq<Inst>, mregs: Regs, n: nat) returns (ms: seq<Regs>)
    requires AllDefined(code, mregs, MachineOps(true)) && n <= |code| && RunTo(code, n, mregs, MachineOps(true)).FellThrough?
    ensures Straight(code, ms, n) && ms[0] == mregs && ms[n] == RunTo(code, n, mregs, MachineOps(true)).regs
  {
    if n == 0 {
      ms := [mregs];
    } else {
      var before := StraightExists(code, mregs, n - 1);
      assert DefinedAt(code, n - 1, mregs, MachineOps(true));
      ms := before + [RunTo(code, n, mregs, MachineOps(true)).regs];
      forall j | 0 <= j < n
        ensures StraightAt(code, ms, j)
      {
        assert j < n - 1 ==> StraightAt(code, before, j);
      }
    }
  }

  lemma {:induction false} CodeSim(code: seq<Inst>, sel: seq<Selected>, bds: seq<Builder>, p: Prototype,
                                   ss: seq<Status>, shifts: Shifts, ms: seq<Regs>, regs: seq<Word>, n: nat, m: nat)
    returns (regs': seq<Word>)
    requires Compiled(code, sel, bds, p) && Runs(p, ss, shifts) && Straight(code, ms, m) && n <= m
    requires At(ss, 0, regs) && Rel(ms[0], regs, p.regCount - 1)
    ensures At(ss, |bds[n].instrs|, regs') && Rel(ms[n], regs', p.regCount - 1)
  {
    if n == 0 {
      regs' := regs;
    } else {
      var before := CodeSim(code, sel, bds, p, ss, shifts, ms, regs, n - 1, m);
      regs' := NextSim(code, sel, bds, p, ss, shifts, ms, before, n - 1, m);
    }
  }

  lemma {:induction false} NextSim(code: seq<Inst>, sel: seq<Selected>, bds: seq<Builder>, p: Prototype,
                ss: seq<Status>, shifts: Shifts, ms: seq<Regs>, regs: seq<Word>, n: nat, m: nat)
    returns (regs': seq<Word>)
    requires Compiled(code, sel, bds, p) && Runs(p, ss, shifts) && Straight(code, ms, m) && n < m
    requires At(ss, |bds[n].instrs|, regs) && Rel(ms[n], regs, p.regCount - 1)
    ensures At(ss, |bds[n + 1].instrs|, regs') && Rel(ms[n + 1], regs', p.regCount - 1)
  {
    assert StraightAt(code, ms, n);
    PlaceOf(sel, bds, p, n);
    EmitShaped(sel[n].desc, code[n]);
    regs' := InstSim(p, ss, shifts, bds[n], bds[n + 1], sel[n].desc, code[n], ms[n], regs);
  }

  lemma {:induction false} LastSim(code: seq<Inst>, sel: seq<Selected>, bds: seq<Builder>, p: Prototype,
                ss: seq<Status>, shifts: Shifts, mregs: Regs, regs: seq<Word>, n: nat)
    requires Compiled(code, sel, bds, p) && Runs(p, ss, shifts) && n < |code| && code[n].opcode == Ret
    requires At(ss, |bds[n].instrs|, regs) && Rel(mregs, regs, p.regCount - 1) && RetValue(code[n], mregs) != Undef
    ensures |bds[n + 1].instrs| <= |p.instrs|
    ensures var last := ss[|bds[n + 1].instrs|];
            last.Finished? && |last.regs| > 0 && last.regs[0] == Box(RetValue(code[n], mregs))
  {
    PlaceOf(sel, bds, p, n);
    OnlyRet(sel[n].desc);
    ReturnOperand(code[n]);
    ReturnSim(p, ss, shifts, bds[n], bds[n + 1], sel[n], mregs, regs);
  }

  lemma {:induction false} OnlyRet(d: Desc)
    ensures OpcodeOf(d) == Ret <==> d == RetR
  {
  }

  lemma {:induction false} ReturnOperand(inst: Inst)
    requires Accepts(RetR, inst) && Shaped(Emit(RetR, inst))
    ensures |inst.operands| == 1 && LastOperand(Emit(RetR, inst)) == inst.operands[0]
  {
    assert Emit(RetR, inst).operands == inst.operands;
  }

  /** The first return of a run, if there is one. */
  lemma {:induction false} ReturnIndex(code: seq<Inst>, n: nat, mregs: Regs, ops: Ops) returns (k: nat)
    requires n <= |code| && RunTo(code, n, mregs, ops).Returned?
    ensures k < n && code[k].opcode == Ret && RunTo(code, k, mregs, ops).FellThrough?
    ensures RunTo(code, n, mregs, ops).value == RetValue(code[k], RunTo(code, k, mregs, ops).regs)
  {
    if RunTo(code, n - 1, mregs, ops).Returned? {
      k := ReturnIndex(code, n - 1, mregs, ops);
    } else {
      k := n - 1;
    }
  }

  /** The simulation: started with the parameters' boxed values in its low
      registers, the encoded program finishes within as many steps as it has
      words, with the boxed result of the MAL code in register 0. */
  lemma {:induction false} Simulates(code: seq<Inst>, sel: seq<Selected>, bds: seq<Builder>, p: Prototype,
                                     shifts: Shifts, mregs: Regs, regs: seq<Word>)
    requires Compiled(code, sel, bds, p) && Rel(mregs, regs, p.regCount - 1)
    requires AllDefined(code, mregs, MachineOps(true))
    requires Run(code, mregs, MachineOps(true)).Returned? && Run(code, mregs, MachineOps(true)).value != Undef
    ensures var last := RunFor(p, Running(regs, 0), |p.instrs|, shifts);
            last.Finished? && |last.regs| > 0 && last.regs[0] == Box(Run(code, mregs, MachineOps(true)).value)
  {
    var ops := MachineOps(true);
    var ss := RunExists(p, Running(regs, 0), shifts);
    var n := ReturnIndex(code, |code|, mregs, ops);
    var ms := StraightExists(code, mregs, n);
    var before := CodeSim(code, sel, bds, p, ss, shifts, ms, regs, n, n);
    LastSim(code, sel, bds, p, ss, shifts, RunTo(code, n, mregs, ops).regs, before, n);
    HaltedStays(p, Running(regs, 0), |bds[n + 1].instrs|, |p.instrs|, shifts);
  }
}
