/**
 What the encoder emits for instructions of the selector's shapes, and when
 the verifier accepts it.
 */
module EncoderProofs {
  import opened Wrappers
  import opened Values
  import opened Mal
  import opened Mds
  import opened Bytecode
  import opened Encoder

  /** The last operand, the only one that can be immediate. */
  function LastOperand(s: Selected): Operand
    requires Shaped(s)
  {
    s.operands[|s.operands| - 1]
  }

  /** Opcode and register fields of the word after the load, where `r` holds
      the last operand. */
  function FinalOp(s: Selected): Byte {
    match s.desc
    case RetR => RETURN
    case MovRR => MOVE
    case MovRI => MOVE
    case NegR => NEG
    case NotR => NOT
    case _ => FoundOp(s.desc)
  }

  function FinalA(s: Selected, r: U16): U16
    requires Shaped(s)
  {
    if s.desc == RetR then r else Cut16(s.operands[0].reg)
  }

  function FinalB(s: Selected, r: U16): U16
    requires Shaped(s)
  {
    if s.desc == RetR then 0 else if OneInput(s.desc) then r else Cut16(s.operands[1].reg)
  }

  function FinalC(s: Selected, r: U16): U16 {
    if IsBinaryDesc(s.desc) then r else 0
  }

  function FinalWord(s: Selected, r: U16): Word
    requires Shaped(s)
  {
    Encode(FinalOp(s), FinalA(s, r), FinalB(s, r), FinalC(s, r))
  }

  ghost predicate IsFinal(s: Selected, r: U16, w: Word)
    requires Shaped(s)
  {
    HasFields(w, FinalOp(s), FinalA(s, r), FinalB(s, r), FinalC(s, r))
  }

  lemma {:induction false} FinalFields(s: Selected, r: U16)
    requires Shaped(s)
    ensures IsFinal(s, r, FinalWord(s, r))
  {
    EncodeRoundTrip(FinalOp(s), FinalA(s, r), FinalB(s, r), FinalC(s, r));
  }

  /** A move of an immediate to the scratch register needs no move. */
  predicate MoveElided(bd: Builder, s: Selected)
    requires Shaped(s)
  {
    s.desc == MovRI && Cut16(s.operands[0].reg) == bd.scratch
  }

  lemma {:induction false} LastIsPlain(s: Selected)
    requires Shaped(s)
    ensures LastOperand(s).Reg? || IsImm(LastOperand(s))
    ensures TakesImm(s.desc) <==> IsImm(LastOperand(s))
  {
    LastSlot(s.desc);
    assert SlotHolds(Slots(s.desc)[|s.operands| - 1], LastOperand(s));
  }

  /** A shaped instruction is a load of its last operand, if that is an
      immediate, and one more word. */
  lemma {:induction false} ShapedEmits(bd: Builder, s: Selected)
    requires Shaped(s)
    ensures ToReg(bd, LastOperand(s)).Some?
    ensures var (bd', r) := ToReg(bd, LastOperand(s)).value;
            EmitInst(bd, s) == Some(if MoveElided(bd, s) then bd' else Append(bd', FinalWord(s, r)))
  {
    LastIsPlain(s);
    if IsBinaryDesc(s.desc) {
      SearchFinds(s.desc);
      assert SlotHolds(Slots(s.desc)[1], s.operands[1]);
    }
  }

  // ----- Builders only grow -----

  ghost predicate Begins(a: seq<Word>, b: seq<Word>) {
    |a| <= |b| && forall i :: 0 <= i < |a| ==> a[i] == b[i]
  }

  ghost predicate Grows(a: Builder, b: Builder) {
    a.scratch == b.scratch && Begins(a.instrs, b.instrs) && Begins(a.consts, b.consts)
  }

  lemma {:induction false} LoadGrows(bd: Builder, o: Operand)
    requires ToReg(bd, o).Some?
    ensures Grows(bd, ToReg(bd, o).value.0) && |ToReg(bd, o).value.0.consts| <= |bd.consts| + 1
  {
  }

  lemma {:induction false} EmitGrows(bd: Builder, s: Selected)
    requires Shaped(s)
    ensures EmitInst(bd, s).Some? && Grows(bd, EmitInst(bd, s).value)
    ensures |EmitInst(bd, s).value.consts| <= |bd.consts| + 1
  {
    ShapedEmits(bd, s);
    LoadGrows(bd, LastOperand(s));
  }

  ghost predicate AllShaped(code: seq<Selected>) {
    forall n :: 0 <= n < |code| ==> Shaped(code[n])
  }

  lemma {:induction false} BuilderGrows(code: seq<Selected>, bds: seq<Builder>, n: nat, m: nat)
    requires AllShaped(code) && Emitted(code, bds) && n <= m <= |code|
    ensures Grows(bds[n], bds[m]) && |bds[m].consts| <= |bds[n].consts| + m - n
    decreases m
  {
    if n < m {
      BuilderGrows(code, bds, n, m - 1);
      GrowStep(code, bds, m - 1);
    }
  }

  lemma {:induction false} GrowStep(code: seq<Selected>, bds: seq<Builder>, n: nat)
    requires AllShaped(code) && Emitted(code, bds) && n < |code|
    ensures Grows(bds[n], bds[n + 1]) && |bds[n + 1].consts| <= |bds[n].consts| + 1
  {
    assert EmittedAt(code, bds, n) && Shaped(code[n]);
    EmitGrows(bds[n], code[n]);
  }

  // ----- The verifier's view -----

  predicate RegOk(p: Prototype, o: Operand) {
    o.Reg? ==> Cut16(o.reg) < p.regCount
  }

  predicate RegsOk(p: Prototype, s: Selected) {
    forall k :: 0 <= k < |s.operands| ==> RegOk(p, s.operands[k])
  }

  lemma {:induction false} FinalWordOk(p: Prototype, s: Selected, r: U16, w: Word)
    requires Shaped(s) && IsFinal(s, r, w)
    ensures WordOk(p, w) <==>
            (r < p.regCount && forall k :: 0 <= k < |s.operands| - 1 ==> RegOk(p, s.operands[k]))
    ensures !IsJump(w)
  {
    FinalEncoding(s);
    if s.desc != RetR {
      assert SlotHolds(Slots(s.desc)[0], s.operands[0]);
      if IsBinaryDesc(s.desc) {
        assert SlotHolds(Slots(s.desc)[1], s.operands[1]);
      }
    }
  }

  lemma {:induction false} FinalEncoding(s: Selected)
    ensures EncodingOf(FinalOp(s)) == if s.desc == RetR then R else if OneInput(s.desc) then RR else RRR
    ensures FinalOp(s) < OP_COUNT && FinalOp(s) != JUMP && FinalOp(s) != JUMP_IF_TRUE && FinalOp(s) != JUMP_IF_FALSE
  {
  }

  ghost predicate WordsOk(p: Prototype, ws: seq<Word>) {
    forall i :: 0 <= i < |ws| ==> WordOk(p, ws[i])
  }

  /** A load writes only the scratch register and reads only its own constant. */
  lemma {:induction false} LoadWordOk(p: Prototype, w: Word, op: Byte, scratch: U16, wide: U32)
    requires HasWide(w, op, scratch, wide) && scratch < p.regCount
    requires op == LOAD_IMM || (op == LOAD_CONST && wide < |p.consts|)
    ensures WordOk(p, w) && !IsJump(w)
  {
  }

  /** `bd'` is `bd` with the load `w` appended. */
  ghost predicate Loads(bd: Builder, bd': Builder, w: Word, op: Byte, wide: U32) {
    && bd'.instrs == bd.instrs + [w] && HasWide(w, op, bd.scratch, wide)
    && (op == LOAD_IMM || (op == LOAD_CONST && wide == Low32(|bd.consts|) && |bd'.consts| == |bd.consts| + 1))
  }

  /** What a load appends: nothing, or one word with one of the load opcodes. */
  lemma {:induction false} LoadShape(bd: Builder, o: Operand)
    requires o.Reg? || IsImm(o)
    ensures ToReg(bd, o).Some?
    ensures var bd' := ToReg(bd, o).value.0;
            if o.Reg? then bd' == bd else exists w, op, wide :: Loads(bd, bd', w, op, wide)
  {
    var bd' := ToReg(bd, o).value.0;
    if o.ImmInt? && FitsI32(o.imm) {
      EncodeWideRoundTrip(LOAD_IMM, bd.scratch, Low32(o.imm));
      assert Loads(bd, bd', EncodeWide(LOAD_IMM, bd.scratch, Low32(o.imm)), LOAD_IMM, Low32(o.imm));
    } else if !o.Reg? {
      var wide := Low32(|bd.consts|);
      EncodeWideRoundTrip(LOAD_CONST, bd.scratch, wide);
      assert Loads(bd, bd', EncodeWide(LOAD_CONST, bd.scratch, wide), LOAD_CONST, wide);
    }
  }

  lemma {:induction false} LoadedOk(p: Prototype, bd: Builder, bd': Builder, w: Word, op: Byte, wide: U32)
    requires Loads(bd, bd', w, op, wide) && WordsOk(p, bd.instrs)
    requires bd.scratch < p.regCount && |bd.consts| < 0xFFFF_FFFF && |bd'.consts| <= |p.consts|
    ensures WordsOk(p, bd'.instrs)
  {
    LoadWordOk(p, w, op, bd.scratch, wide);
  }

  lemma {:induction false} LoadOk(p: Prototype, bd: Builder, o: Operand)
    requires o.Reg? || IsImm(o)
    requires bd.scratch < p.regCount && WordsOk(p, bd.instrs) && |bd.consts| < 0xFFFF_FFFF
    requires ToReg(bd, o).Some? && |ToReg(bd, o).value.0.consts| <= |p.consts|
    ensures WordsOk(p, ToReg(bd, o).value.0.instrs)
  {
    LoadShape(bd, o);
    var bd' := ToReg(bd, o).value.0;
    if !o.Reg? {
      var w, op, wide :| Loads(bd, bd', w, op, wide);
      LoadedOk(p, bd, bd', w, op, wide);
    }
  }

  lemma {:induction false} EmitOk(p: Prototype, bd: Builder, s: Selected)
    requires Shaped(s) && bd.scratch < p.regCount && WordsOk(p, bd.instrs) && |bd.consts| < 0xFFFF_FFFF
    requires EmitInst(bd, s).Some? && |EmitInst(bd, s).value.consts| <= |p.consts|
    ensures WordsOk(p, EmitInst(bd, s).value.instrs) <==> RegsOk(p, s)
  {
    ShapedEmits(bd, s);
    LastIsPlain(s);
    var (bd', r) := ToReg(bd, LastOperand(s)).value;
    LoadOk(p, bd, LastOperand(s));
    FinalFields(s, r);
    var w := FinalWord(s, r);
    FinalWordOk(p, s, r, w);
    var last := |s.operands| - 1;
    assert r < p.regCount <==> RegOk(p, s.operands[last]);
    if !MoveElided(bd, s) {
      assert (bd'.instrs + [w])[|bd'.instrs|] == w;
    }
  }

  lemma {:induction false} BadWordStays(p: Prototype, a: seq<Word>, b: seq<Word>)
    requires Begins(a, b) && !WordsOk(p, a)
    ensures !WordsOk(p, b)
  {
    var i :| 0 <= i < |a| && !WordOk(p, a[i]);
    assert b[i] == a[i];
  }

  lemma {:induction false} StepOk(p: Prototype, code: seq<Selected>, bds: seq<Builder>, n: nat)
    requires AllShaped(code) && Emitted(code, bds) && n < |code|
    requires bds[n].scratch < p.regCount && |bds[n].consts| < 0xFFFF_FFFF && |bds[n + 1].consts| <= |p.consts|
    requires WordsOk(p, bds[n].instrs)
    ensures WordsOk(p, bds[n + 1].instrs) <==> RegsOk(p, code[n])
  {
    assert EmittedAt(code, bds, n) && Shaped(code[n]);
    EmitOk(p, bds[n], code[n]);
  }

  lemma {:induction false} EmittedOk(p: Prototype, code: seq<Selected>, bds: seq<Builder>, n: nat)
    requires AllShaped(code) && Encodes(code, bds, p) && |code| < 0xFFFF_FFFF && n <= |code|
    ensures WordsOk(p, bds[n].instrs) <==> forall i :: 0 <= i < n ==> RegsOk(p, code[i])
  {
    if n > 0 {
      EmittedOk(p, code, bds, n - 1);
      BuilderGrows(code, bds, 0, n - 1);
      GrowStep(code, bds, n - 1);
      BuilderGrows(code, bds, n, |code|);
      if WordsOk(p, bds[n - 1].instrs) {
        StepOk(p, code, bds, n - 1);
      } else {
        BadWordStays(p, bds[n - 1].instrs, bds[n].instrs);
      }
    }
  }

  // ----- Registers -----

  lemma {:induction false} MaxOperandBounds(os: seq<Operand>, n: nat, k: nat)
    requires k < n <= |os| && os[k].Reg?
    ensures os[k].reg <= MaxOperand(os, n)
    decreases n
  {
    if k < n - 1 {
      MaxOperandBounds(os, n - 1, k);
    }
  }

  lemma {:induction false} MaxRegBounds(code: seq<Selected>, n: nat, i: nat, k: nat)
    requires i < n <= |code| && k < |code[i].operands| && code[i].operands[k].Reg?
    ensures code[i].operands[k].reg <= MaxReg(code, n)
    decreases n
  {
    if i < n - 1 {
      MaxRegBounds(code, n - 1, i, k);
    } else {
      MaxOperandBounds(code[i].operands, |code[i].operands|, k);
    }
  }

  /** No register is 65535 modulo 65536. */
  ghost predicate NoTopRegister(code: seq<Selected>) {
    forall i, k :: 0 <= i < |code| && 0 <= k < |code[i].operands| && code[i].operands[k].Reg? ==>
      Cut16(code[i].operands[k].reg) != 0xFFFF
  }

  lemma {:induction false} RegsOkIff(p: Prototype, code: seq<Selected>, bds: seq<Builder>)
    requires Encodes(code, bds, p)
    ensures NoTopRegister(code) <==> forall i :: 0 <= i < |code| ==> RegsOk(p, code[i])
  {
    forall i, k: nat | 0 <= i < |code| && 0 <= k < |code[i].operands| && code[i].operands[k].Reg?
      ensures RegOk(p, code[i].operands[k]) <==> Cut16(code[i].operands[k].reg) != 0xFFFF
    {
      MaxRegBounds(code, |code|, i, k);
    }
    if forall i :: 0 <= i < |code| ==> RegsOk(p, code[i]) {
      forall i, k | 0 <= i < |code| && 0 <= k < |code[i].operands| && code[i].operands[k].Reg?
        ensures Cut16(code[i].operands[k].reg) != 0xFFFF
      {
        assert RegsOk(p, code[i]);
        assert RegOk(p, code[i].operands[k]);
      }
    }
  }

  /** The verifier accepts the encoding of any shaped code unless a register
      number is 65535 modulo 65536; below 65535 registers it always does. */
  lemma {:induction false} EncodingVerifies(code: seq<Selected>, bds: seq<Builder>, p: Prototype)
    requires AllShaped(code) && Encodes(code, bds, p) && |code| < 0xFFFF_FFFF
    ensures Verified(p) <==> NoTopRegister(code)
  {
    EmittedOk(p, code, bds, |code|);
    RegsOkIff(p, code, bds);
    if bds[|code|].instrs == [] {
      assert p.instrs[0] == EncodeBare(HALT);
    }
  }

  /** Shaped code always encodes, and the result never jumps. */
  lemma {:induction false} ShapedJumpFree(code: seq<Selected>, bds: seq<Builder>, p: Prototype)
    requires AllShaped(code) && Encodes(code, bds, p)
    ensures JumpFree(p)
  {
    EmittedJumpFree(code, bds, |code|);
  }

  ghost predicate NoJumps(ws: seq<Word>) {
    forall i :: 0 <= i < |ws| ==> !IsJump(ws[i])
  }

  lemma {:induction false} EmittedJumpFree(code: seq<Selected>, bds: seq<Builder>, n: nat)
    requires AllShaped(code) && Emitted(code, bds) && n <= |code|
    ensures NoJumps(bds[n].instrs)
  {
    if n > 0 {
      EmittedJumpFree(code, bds, n - 1);
      StepJumpFree(code, bds, n - 1);
    }
  }

  lemma {:induction false} StepJumpFree(code: seq<Selected>, bds: seq<Builder>, n: nat)
    requires AllShaped(code) && Emitted(code, bds) && n < |code| && NoJumps(bds[n].instrs)
    ensures NoJumps(bds[n + 1].instrs)
  {
    assert EmittedAt(code, bds, n) && Shaped(code[n]);
    EmitJumpFree(bds[n], code[n]);
  }

  lemma {:induction false} EmitJumpFree(bd: Builder, s: Selected)
    requires Shaped(s) && NoJumps(bd.instrs)
    ensures EmitInst(bd, s).Some? && NoJumps(EmitInst(bd, s).value.instrs)
  {
    ShapedEmits(bd, s);
    LastIsPlain(s);
    var o := LastOperand(s);
    var (bd', r) := ToReg(bd, o).value;
    LoadShape(bd, o);
    assert NoJumps(bd'.instrs);
    FinalFields(s, r);
    FinalEncoding(s);
  }

  // ----- Register counts -----

  lemma {:induction false} MaxOperandMeans(os: seq<Operand>, n: nat)
    requires n <= |os|
    ensures forall k :: 0 <= k < n && os[k].Reg? ==> os[k].reg <= MaxOperand(os, n)
    ensures MaxOperand(os, n) == 0 || exists k :: 0 <= k < n && os[k].Reg? && os[k].reg == MaxOperand(os, n)
  {
    if n > 0 {
      MaxOperandMeans(os, n - 1);
    }
  }

  /** A register that some instruction of the first `n` names. */
  ghost predicate Names(code: seq<Selected>, n: nat, r: nat) {
    exists i, k :: 0 <= i < n <= |code| && 0 <= k < |code[i].operands| && code[i].operands[k].Reg? && code[i].operands[k].reg == r
  }

  /** The register count leaves room for every register named and one more. */
  lemma {:induction false} MaxRegMeans(code: seq<Selected>, n: nat)
    requires n <= |code|
    ensures forall i, k :: 0 <= i < n && 0 <= k < |code[i].operands| && code[i].operands[k].Reg? ==> code[i].operands[k].reg <= MaxReg(code, n)
    ensures MaxReg(code, n) == 0 || Names(code, n, MaxReg(code, n))
  {
    if n > 0 {
      MaxRegMeans(code, n - 1);
      MaxOperandMeans(code[n - 1].operands, |code[n - 1].operands|);
    }
  }
}
