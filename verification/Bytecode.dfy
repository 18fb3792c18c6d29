/**
 WVM bytecode: the 64-bit instruction words, the prototype verifier and the
 interpreter, with the registers and constants every run may touch.
 */
module Bytecode {
  import opened Wrappers
  import opened Values
  import opened Terms

  type Byte = b: int | 0 <= b < 0x100
  type U16 = n: int | 0 <= n < 0x1_0000
  type U32 = n: int | 0 <= n < 0x1_0000_0000

  // ----- Instruction words -----

  /** Opcode in bits 0-7, registers in bits 8-23, 24-39 and 40-55. */
  function Encode(op: Byte, a: U16, b: U16, c: U16): Word {
    op + a * 0x100 + b * 0x100_0000 + c * 0x100_0000_0000
  }

  /** Opcode, register and a 32-bit field in bits 24-55. */
  function EncodeWide(op: Byte, a: U16, wide: U32): Word {
    op + a * 0x100 + wide * 0x100_0000
  }

  /** An opcode without operands. */
  function EncodeBare(op: Byte): Word {
    op
  }

  function OpOf(w: Word): Byte {
    w % 0x100
  }

  function RegA(w: Word): U16 {
    w / 0x100 % 0x1_0000
  }

  function RegB(w: Word): U16 {
    w / 0x100_0000 % 0x1_0000
  }

  function RegC(w: Word): U16 {
    w / 0x100_0000_0000 % 0x1_0000
  }

  /** Immediates, constant indices and the offsets of conditional jumps. */
  function Wide(w: Word): U32 {
    w / 0x100_0000 % 0x1_0000_0000
  }

  function JumpOffset(w: Word): I32 {
    Wrap(w / 0x100 % 0x1_0000_0000)
  }

  predicate HasFields(w: Word, op: Byte, a: U16, b: U16, c: U16) {
    OpOf(w) == op && RegA(w) == a && RegB(w) == b && RegC(w) == c
  }

  predicate HasWide(w: Word, op: Byte, a: U16, wide: U32) {
    OpOf(w) == op && RegA(w) == a && Wide(w) == wide
  }

  /** Every field decodes back from its bits. */
  lemma {:induction false} EncodeRoundTrip(op: Byte, a: U16, b: U16, c: U16)
    ensures HasFields(Encode(op, a, b, c), op, a, b, c)
  {
    var w := Encode(op, a, b, c);
    assert w / 0x100 == a + b * 0x1_0000 + c * 0x1_0000_0000;
    assert w / 0x100_0000 == b + c * 0x1_0000;
    assert w / 0x100_0000_0000 == c;
  }

  lemma {:induction false} EncodeWideRoundTrip(op: Byte, a: U16, wide: U32)
    ensures HasWide(EncodeWide(op, a, wide), op, a, wide)
  {
    var w := EncodeWide(op, a, wide);
    assert w / 0x100 == a + wide * 0x1_0000;
    assert w / 0x100_0000 == wide;
  }

  // ----- Opcodes -----

  const NOP: Byte := 0
  const HALT: Byte := 1
  const RETURN: Byte := 2
  const JUMP: Byte := 5
  const JUMP_IF_TRUE: Byte := 6
  const JUMP_IF_FALSE: Byte := 7
  const MOVE: Byte := 8
  const LOAD_CONST: Byte := 9
  const LOAD_IMM: Byte := 10
  const LOAD_NIL: Byte := 11
  const LOAD_TRUE: Byte := 12
  const LOAD_FALSE: Byte := 13
  const ADD: Byte := 14
  const SUB: Byte := 15
  const MUL: Byte := 16
  const DIV: Byte := 17
  const MOD: Byte := 18
  const NEG: Byte := 19
  const AND: Byte := 22
  const OR: Byte := 23
  const XOR: Byte := 24
  const NOT: Byte := 25
  const SHL: Byte := 26
  const SHR: Byte := 27
  const EQ: Byte := 28
  const NE: Byte := 29
  const LT: Byte := 30
  const LE: Byte := 31
  const GT: Byte := 32
  const GE: Byte := 33
  const OP_COUNT: nat := 58

  datatype Encoding = Bare | R | RR | RRR | RImm16 | RImm32 | RConst | RRConst | Jumps | RJump | Guard

  /** The encoding table. */
  function EncodingOf(op: Byte): Encoding {
    if op == NOP || op == HALT then Bare
    else if op == RETURN || 11 <= op <= 13 || 20 <= op <= 21 || op == 40 || 52 <= op <= 53 then R
    else if op == JUMP then Jumps
    else if op == JUMP_IF_TRUE || op == JUMP_IF_FALSE then RJump
    else if op == MOVE || op == NEG || op == NOT || op == 43 || 54 <= op <= 57 then RR
    else if op == LOAD_CONST || 34 <= op <= 35 || op == 44 then RConst
    else if op == LOAD_IMM then RImm32
    else if 36 <= op <= 37 then RImm16
    else if 38 <= op <= 39 then RRConst
    else if 45 <= op <= 51 then Guard
    else if 3 <= op <= 4 || 14 <= op <= 18 || 22 <= op <= 24 || 26 <= op <= 33 || 41 <= op <= 42 then RRR
    else Bare
  }

  predicate IsArithmetic(op: Byte) {
    14 <= op <= 18 || 22 <= op <= 24 || 26 <= op <= 33
  }

  /** The operation of a two-operand opcode. */
  function KindOfOp(op: Byte): (k: Kind)
    requires IsArithmetic(op)
    ensures IsBinary(k)
  {
    if op == ADD then Add
    else if op == SUB then Sub
    else if op == MUL then Mul
    else if op == DIV then Div
    else if op == MOD then Mod
    else if op == AND then And
    else if op == OR then Or
    else if op == XOR then Xor
    else if op == SHL then Shl
    else if op == SHR then Shr
    else if op == EQ then Eq
    else if op == NE then Ne
    else if op == LT then Lt
    else if op == LE then Le
    else if op == GT then Gt
    else Ge
  }

  // ----- Prototypes and their verifier -----

  /** `hasCode` says that the instruction pointer is not null; absent names and
      line maps are null pointers. Strings and nested prototypes are counts only. */
  datatype Prototype = Prototype(
    name: Option<seq<Byte>>, source: Option<seq<Byte>>,
    hasCode: bool, instrs: seq<Word>, consts: seq<Word>,
    regCount: U16, paramCount: U16, isVararg: Byte, strCount: U32, protoCount: U32,
    lineMap: Option<seq<U32>>)

  /** What the verifier asks of one instruction word. */
  predicate WordOk(p: Prototype, w: Word) {
    && OpOf(w) < OP_COUNT
    && (match EncodingOf(OpOf(w))
        case R => RegA(w) < p.regCount
        case RR => RegA(w) < p.regCount && RegB(w) < p.regCount
        case RRR => RegA(w) < p.regCount && RegB(w) < p.regCount && RegC(w) < p.regCount
        case RConst => RegA(w) < p.regCount && Wide(w) < |p.consts|
        case RImm32 => RegA(w) < p.regCount
        case _ => true)
  }

  ghost predicate Verified(p: Prototype) {
    p.hasCode && forall i :: 0 <= i < |p.instrs| ==> WordOk(p, p.instrs[i])
  }

  method VerifyPrototype(p: Prototype) returns (ok: bool)
    ensures ok <==> Verified(p)
  {
    if !p.hasCode {
      return false;
    }
    var index := 0;
    while index < |p.instrs|
      invariant 0 <= index <= |p.instrs|
      invariant forall i :: 0 <= i < index ==> WordOk(p, p.instrs[i])
    {
      if !WordOk(p, p.instrs[index]) {
        return false;
      }
      index := index + 1;
    }
    ok := true;
  }

  // ----- The interpreter -----

  /** What the compiled interpreter yields for shifts by amounts outside 0..31,
      which C leaves undefined. */
  type Shifts = (Byte, I32, I32) -> I32

  /** `Fault` is an access outside the frame's registers or the constants. */
  datatype Status =
    | Running(regs: seq<Word>, pc: nat)
    | Finished(regs: seq<Word>)
    | Rejected(regs: seq<Word>)
    | Fault

  function ArithmeticWord(op: Byte, x: I32, y: I32, shifts: Shifts): Word
    requires IsArithmetic(op)
  {
    var v := BinaryInt(KindOfOp(op), x, y, Source(false));
    if v == Undef then BoxInt(shifts(op, x, y)) else Box(v)
  }

  /** Executes the instruction word `w` found at `pc`. */
  function Exec(p: Prototype, w: Word, regs: seq<Word>, pc: nat, shifts: Shifts): Status {
    var op, a, b, c := OpOf(w), RegA(w), RegB(w), RegC(w);
    if op == NOP then Running(regs, pc + 1)
    else if op == HALT then Running(regs, |p.instrs|)
    else if op == RETURN then
      if a < |regs| then Finished(regs[0 := regs[a]]) else Fault
    else if op == MOVE then
      if a < |regs| && b < |regs| then Running(regs[a := regs[b]], pc + 1) else Fault
    else if op == LOAD_IMM then
      if a < |regs| then Running(regs[a := BoxInt(Wrap(Wide(w)))], pc + 1) else Fault
    else if op == LOAD_CONST then
      if a < |regs| && Wide(w) < |p.consts| then Running(regs[a := p.consts[Wide(w)]], pc + 1) else Fault
    else if op == LOAD_NIL || op == LOAD_TRUE || op == LOAD_FALSE then
      var word := if op == LOAD_NIL then WORD_NIL else if op == LOAD_TRUE then WORD_TRUE else WORD_FALSE;
      if a < |regs| then Running(regs[a := word], pc + 1) else Fault
    else if op == NEG || op == NOT then
      if a < |regs| && b < |regs| then
        var i := AsInt(regs[b]);
        Running(regs[a := BoxInt(if op == NEG then 0 - i else -1 - i)], pc + 1)
      else Fault
    else if IsArithmetic(op) then
      if a < |regs| && b < |regs| && c < |regs| then
        if IsInt(regs[b]) && IsInt(regs[c]) then
          Running(regs[a := ArithmeticWord(op, AsInt(regs[b]), AsInt(regs[c]), shifts)], pc + 1)
        else Rejected(regs)
      else Fault
    else if op == JUMP then Running(regs, Low32(pc + JumpOffset(w)))
    else if op == JUMP_IF_TRUE || op == JUMP_IF_FALSE then
      if a < |regs| then
        Running(regs, if IsTruthy(regs[a]) == (op == JUMP_IF_TRUE) then Low32(pc + Wrap(Wide(w))) else pc + 1)
      else Fault
    else Rejected(regs)
  }

  /** The loop runs while the program counter is inside the code. */
  predicate Active(p: Prototype, s: Status) {
    s.Running? && s.pc < |p.instrs|
  }

  function Step(p: Prototype, s: Status, shifts: Shifts): Status {
    if Active(p, s) then Exec(p, p.instrs[s.pc], s.regs, s.pc, shifts) else s
  }

  function RunFor(p: Prototype, s: Status, n: nat, shifts: Shifts): Status {
    if n == 0 then s else Step(p, RunFor(p, s, n - 1, shifts), shifts)
  }

  /** The loop has ended. */
  predicate Halted(p: Prototype, s: Status) {
    !Active(p, s)
  }

  // ----- Safety of verified prototypes -----

  predicate IsConditional(w: Word) {
    OpOf(w) == JUMP_IF_TRUE || OpOf(w) == JUMP_IF_FALSE
  }

  /** A conditional jump whose register the verifier does not look at. */
  predicate BadJump(p: Prototype, w: Word) {
    IsConditional(w) && RegA(w) >= p.regCount
  }

  /** One step of a verified prototype keeps the frame, and faults exactly on a
      conditional jump that names a register outside it. */
  lemma {:induction false} ExecSafe(p: Prototype, w: Word, regs: seq<Word>, pc: nat, shifts: Shifts)
    requires WordOk(p, w) && |regs| == p.regCount
    ensures Exec(p, w, regs, pc, shifts).Fault? <==> BadJump(p, w)
    ensures !Exec(p, w, regs, pc, shifts).Fault? ==> |Exec(p, w, regs, pc, shifts).regs| == p.regCount
  {
  }

  ghost predicate NoBadJump(p: Prototype) {
    forall i :: 0 <= i < |p.instrs| ==> !BadJump(p, p.instrs[i])
  }

  ghost predicate InFrame(p: Prototype, s: Status) {
    !s.Fault? && |s.regs| == p.regCount
  }

  /** However long a verified prototype runs, it stays inside its registers and
      constants, if its conditional jumps name registers of the frame. */
  lemma {:induction false} RunSafe(p: Prototype, s: Status, n: nat, shifts: Shifts)
    requires Verified(p) && NoBadJump(p) && InFrame(p, s)
    ensures InFrame(p, RunFor(p, s, n, shifts))
  {
    if n > 0 {
      RunSafe(p, s, n - 1, shifts);
      var t := RunFor(p, s, n - 1, shifts);
      if Active(p, t) {
        ExecSafe(p, p.instrs[t.pc], t.regs, t.pc, shifts);
      }
    }
  }

  ghost predicate SafeFor(p: Prototype, s: Status, n: nat, shifts: Shifts) {
    InFrame(p, s) ==> InFrame(p, RunFor(p, s, n, shifts))
  }

  /** The condition is exact: a verified prototype is safe from every program
      point if and only if no conditional jump names a register outside the frame. */
  lemma {:induction false} SafeIff(p: Prototype, shifts: Shifts)
    requires Verified(p)
    ensures (forall s, n: nat :: SafeFor(p, s, n, shifts)) <==> NoBadJump(p)
  {
    if NoBadJump(p) {
      forall s, n: nat
        ensures SafeFor(p, s, n, shifts)
      {
        if InFrame(p, s) {
          RunSafe(p, s, n, shifts);
        }
      }
    } else {
      var i :| 0 <= i < |p.instrs| && BadJump(p, p.instrs[i]);
      FaultsThere(p, i, shifts);
    }
  }

  lemma {:induction false} FaultsThere(p: Prototype, i: nat, shifts: Shifts)
    requires Verified(p) && i < |p.instrs| && BadJump(p, p.instrs[i])
    ensures !SafeFor(p, Running(seq(p.regCount, _ => 0), i), 1, shifts)
  {
    var regs: seq<Word> := seq(p.regCount, _ => 0);
    var s := Running(regs, i);
    ExecSafe(p, p.instrs[i], regs, i, shifts);
    assert RunFor(p, s, 0, shifts) == s;
    assert RunFor(p, s, 1, shifts) == Fault;
  }

  /** The verifier does accept such a prototype, and its first step faults. */
  lemma {:induction false} UncheckedJump(shifts: Shifts)
    ensures var p := Prototype(None, None, true, [EncodeWide(JUMP_IF_TRUE, 1, 0)], [], 1, 0, 0, 0, 0, None);
            Verified(p) && RunFor(p, Running([0], 0), 1, shifts) == Fault
  {
    var p := Prototype(None, None, true, [EncodeWide(JUMP_IF_TRUE, 1, 0)], [], 1, 0, 0, 0, 0, None);
    EncodeWideRoundTrip(JUMP_IF_TRUE, 1, 0);
    assert RunFor(p, Running([0], 0), 0, shifts) == Running([0], 0);
  }

  // ----- Jump-free prototypes halt -----

  predicate IsJump(w: Word) {
    OpOf(w) == JUMP || IsConditional(w)
  }

  ghost predicate JumpFree(p: Prototype) {
    forall i :: 0 <= i < |p.instrs| ==> !IsJump(p.instrs[i])
  }

  lemma {:induction false} ExecAdvances(p: Prototype, w: Word, regs: seq<Word>, pc: nat, shifts: Shifts)
    requires !IsJump(w) && pc < |p.instrs|
    ensures var s := Exec(p, w, regs, pc, shifts); s.Running? ==> s.pc == pc + 1 || s.pc == |p.instrs|
  {
  }

  /** Without jumps the program counter only grows. */
  lemma {:induction false} JumpFreeAdvances(p: Prototype, regs: seq<Word>, n: nat, shifts: Shifts)
    requires JumpFree(p)
    ensures var s := RunFor(p, Running(regs, 0), n, shifts); Active(p, s) ==> s.pc == n
  {
    if n > 0 {
      JumpFreeAdvances(p, regs, n - 1, shifts);
      var s := RunFor(p, Running(regs, 0), n - 1, shifts);
      if Active(p, s) {
        ExecAdvances(p, p.instrs[s.pc], s.regs, s.pc, shifts);
      }
    }
  }

  /** A jump-free prototype halts within as many steps as it has instructions. */
  lemma {:induction false} JumpFreeHalts(p: Prototype, regs: seq<Word>, shifts: Shifts)
    requires JumpFree(p)
    ensures Halted(p, RunFor(p, Running(regs, 0), |p.instrs|, shifts))
  {
    JumpFreeAdvances(p, regs, |p.instrs|, shifts);
  }

  /** Once halted, further steps change nothing. */
  lemma {:induction false} HaltedStays(p: Prototype, s: Status, n: nat, m: nat, shifts: Shifts)
    requires n <= m && Halted(p, RunFor(p, s, n, shifts))
    ensures RunFor(p, s, m, shifts) == RunFor(p, s, n, shifts)
    decreases m
  {
    if n < m {
      HaltedStays(p, s, n, m - 1, shifts);
    }
  }

  /** Every completed arithmetic or comparison leaves a well-tagged word. */
  lemma {:induction false} WellTagged(p: Prototype, w: Word, regs: seq<Word>, pc: nat, shifts: Shifts)
    requires IsArithmetic(OpOf(w)) || OpOf(w) == NEG || OpOf(w) == NOT
    requires Exec(p, w, regs, pc, shifts).Running?
    ensures RegA(w) < |regs|
            && (var r := Exec(p, w, regs, pc, shifts).regs[RegA(w)];
                if OpOf(w) >= EQ then IsBool(r) else IsInt(r))
  {
    if IsArithmetic(OpOf(w)) {
      var x, y := AsInt(regs[RegB(w)]), AsInt(regs[RegC(w)]);
      ArithmeticTagged(OpOf(w), x, y, shifts);
    } else {
      BoxIntTag(0 - AsInt(regs[RegB(w)]));
      BoxIntTag(-1 - AsInt(regs[RegB(w)]));
    }
  }

  lemma {:induction false} ArithmeticTagged(op: Byte, x: I32, y: I32, shifts: Shifts)
    requires IsArithmetic(op)
    ensures var r := ArithmeticWord(op, x, y, shifts); if op >= EQ then IsBool(r) else IsInt(r)
  {
    var v := BinaryInt(KindOfOp(op), x, y, Source(false));
    assert if op >= EQ then v.Bool? else !v.Bool?;
    if v.Int? {
      BoxIntTag(v.i);
    } else if v == Undef {
      BoxIntTag(shifts(op, x, y));
    }
  }
}
