/**
 What each instruction does, opcode by opcode, said without the interpreter's
 own definition, and two whole programs: the larger of two numbers, and a loop.
 */
module Execution {
  import opened Wrappers
  import opened Values
  import opened Terms
  import opened Bytecode
  import opened Arithmetic

  // ----- Fields of a word -----

  /** Opcode and registers by the bytes of the word, lowest first. */
  lemma {:induction false} FieldsOfBytes(w: Word, b0: Byte, b1: Byte, b2: Byte, b3: Byte, b4: Byte, b5: Byte, b6: Byte, b7: Byte)
    requires w == b0 + b1 * 0x100 + b2 * 0x1_0000 + b3 * 0x100_0000 + b4 * 0x1_0000_0000 + b5 * 0x100_0000_0000
                  + b6 * 0x1_0000_0000_0000 + b7 * 0x100_0000_0000_0000
    ensures OpOf(w) == b0 && RegA(w) == b1 + b2 * 0x100 && RegB(w) == b3 + b4 * 0x100 && RegC(w) == b5 + b6 * 0x100
    ensures Wide(w) == b3 + b4 * 0x100 + b5 * 0x1_0000 + b6 * 0x100_0000
    ensures JumpField(w) == b1 + b2 * 0x100 + b3 * 0x1_0000 + b4 * 0x100_0000
  {
    var high: nat := b5 + b6 * 0x100 + b7 * 0x1_0000;
    LowFields(w, b0, b1 + b2 * 0x100, b3 + b4 * 0x100, high);
    HighFields(w, b0 + b1 * 0x100 + b2 * 0x1_0000, b3 + b4 * 0x100, b5 + b6 * 0x100, b7);
  }

  lemma {:induction false} LowFields(w: Word, op: Byte, a: U16, b: U16, high: nat)
    requires w == op + a * 0x100 + b * 0x100_0000 + high * 0x100_0000_0000
    ensures OpOf(w) == op && RegA(w) == a && JumpField(w) == a + b * 0x1_0000
  {
    CutByte(op, a + b * 0x1_0000 + high * 0x1_0000_0000);
    CutField(a, b, high);
  }

  lemma {:induction false} CutByte(op: Byte, rest: nat)
    ensures (op + rest * 0x100) / 0x100 == rest && (op + rest * 0x100) % 0x100 == op
  {
  }

  lemma {:induction false} CutField(a: U16, b: U16, high: nat)
    ensures (a + b * 0x1_0000 + high * 0x1_0000_0000) % 0x1_0000 == a
    ensures (a + b * 0x1_0000 + high * 0x1_0000_0000) % 0x1_0000_0000 == a + b * 0x1_0000
  {
    assert a + b * 0x1_0000 + high * 0x1_0000_0000 == a + (b + high * 0x1_0000) * 0x1_0000;
  }

  lemma {:induction false} HighFields(w: Word, low: nat, b: U16, c: U16, top: nat)
    requires low < 0x100_0000 && w == low + b * 0x100_0000 + c * 0x100_0000_0000 + top * 0x100_0000_0000_0000
    ensures RegB(w) == b && RegC(w) == c && Wide(w) == b + c * 0x1_0000
  {
    assert w / 0x100_0000 == b + c * 0x1_0000 + top * 0x1_0000_0000;
    assert w / 0x100_0000_0000 == c + top * 0x1_0000;
  }

  /** The unsigned offset field of an unconditional jump. */
  function JumpField(w: Word): U32 {
    w / 0x100 % 0x1_0000_0000
  }

  // ----- Instruction by instruction -----

  /** `regs'` is `regs` with `v` in register `a` and nothing else changed. */
  ghost predicate Stored(regs: seq<Word>, regs': seq<Word>, a: nat, v: Word) {
    |regs'| == |regs| && a < |regs| && regs'[a] == v && forall i :: 0 <= i < |regs| && i != a ==> regs'[i] == regs[i]
  }

  ghost predicate StoresNext(s: Status, regs: seq<Word>, pc: nat, a: nat, v: Word) {
    s.Running? && s.pc == pc + 1 && Stored(regs, s.regs, a, v)
  }

  /** The target is `pc` plus the 32-bit offset, modulo 2^32. */
  predicate Lands(pc: nat, field: U32, target: nat) {
    target < 0x1_0000_0000 && (target - (pc + field)) % 0x1_0000_0000 == 0
  }

  /** Nil and false do not count as true; everything else does. */
  predicate Falsy(w: Word) {
    w == 0x7FFD_0000_0000_0000 || w == 0x7FFE_0000_0000_0000
  }

  /** The registers and constants that the instruction names are there. */
  predicate Reaches(p: Prototype, w: Word, count: nat) {
    var op := OpOf(w);
    && (op == RETURN || op == LOAD_IMM || (LOAD_NIL <= op <= LOAD_FALSE) || IsConditional(w) ==> RegA(w) < count)
    && (op == LOAD_CONST ==> RegA(w) < count && Wide(w) < |p.consts|)
    && (op == MOVE || op == NEG || op == NOT ==> RegA(w) < count && RegB(w) < count)
    && (IsArithmetic(op) ==> RegA(w) < count && RegB(w) < count && RegC(w) < count)
  }

  /** What the instruction makes of the frame and the program counter. */
  ghost predicate Does(p: Prototype, w: Word, regs: seq<Word>, pc: nat, s: Status)
    requires Reaches(p, w, |regs|)
  {
    var op, a, b, c := OpOf(w), RegA(w), RegB(w), RegC(w);
    if op == NOP then s == Running(regs, pc + 1)
    else if op == HALT then s.Running? && s.regs == regs && s.pc == |p.instrs|
    else if op == RETURN then s.Finished? && Stored(regs, s.regs, 0, regs[a])
    else if op == MOVE then StoresNext(s, regs, pc, a, regs[b])
    else if op == LOAD_IMM then StoresNext(s, regs, pc, a, 0x7FFC_0000_0000_0000 + Wide(w))
    else if op == LOAD_CONST then StoresNext(s, regs, pc, a, p.consts[Wide(w)])
    else if op == LOAD_NIL then StoresNext(s, regs, pc, a, 0x7FFD_0000_0000_0000)
    else if op == LOAD_FALSE then StoresNext(s, regs, pc, a, 0x7FFE_0000_0000_0000)
    else if op == LOAD_TRUE then StoresNext(s, regs, pc, a, 0x7FFF_0000_0000_0000)
    else if op == NEG then
      !s.Fault? && |s.regs| == |regs| && StoresNext(s, regs, pc, a, s.regs[a])
      && IsInt(s.regs[a]) && (AsInt(s.regs[a]) + AsInt(regs[b])) % 0x1_0000_0000 == 0
    else if op == NOT then
      !s.Fault? && |s.regs| == |regs| && StoresNext(s, regs, pc, a, s.regs[a])
      && IsInt(s.regs[a]) && AsInt(s.regs[a]) + AsInt(regs[b]) == -1
    else if IsArithmetic(op) then
      if IsInt(regs[b]) && IsInt(regs[c]) then
        !s.Fault? && |s.regs| == |regs| && StoresNext(s, regs, pc, a, s.regs[a])
        && Yields(op, AsInt(regs[b]), AsInt(regs[c]), s.regs[a])
      else s == Rejected(regs)
    else if op == JUMP then s.Running? && s.regs == regs && Lands(pc, JumpField(w), s.pc)
    else if op == JUMP_IF_TRUE then
      s.Running? && s.regs == regs && if Falsy(regs[a]) then s.pc == pc + 1 else Lands(pc, Wide(w), s.pc)
    else if op == JUMP_IF_FALSE then
      s.Running? && s.regs == regs && if Falsy(regs[a]) then Lands(pc, Wide(w), s.pc) else s.pc == pc + 1
    else s == Rejected(regs)
  }

  /** Executing a word faults exactly when something it names is not there, and
      otherwise does what its opcode says. */
  lemma {:induction false} ExecDoes(p: Prototype, w: Word, regs: seq<Word>, pc: nat, shifts: Shifts)
    ensures Exec(p, w, regs, pc, shifts).Fault? <==> !Reaches(p, w, |regs|)
    ensures Reaches(p, w, |regs|) ==> Does(p, w, regs, pc, Exec(p, w, regs, pc, shifts))
  {
    var op := OpOf(w);
    if Reaches(p, w, |regs|) {
      if IsArithmetic(op) {
        ArithmeticDoes(p, w, regs, pc, shifts);
      } else if op == NEG || op == NOT {
        UnaryDoes(p, w, regs, pc, shifts);
      } else if op == JUMP || IsConditional(w) {
        JumpDoes(p, w, regs, pc, shifts);
      } else {
        LoadDoes(p, w, regs, pc, shifts);
      }
    }
  }

  lemma {:induction false} ArithmeticDoes(p: Prototype, w: Word, regs: seq<Word>, pc: nat, shifts: Shifts)
    requires IsArithmetic(OpOf(w)) && Reaches(p, w, |regs|)
    ensures Does(p, w, regs, pc, Exec(p, w, regs, pc, shifts))
  {
    WordYields(OpOf(w), AsInt(regs[RegB(w)]), AsInt(regs[RegC(w)]), shifts);
  }

  lemma {:induction false} UnaryDoes(p: Prototype, w: Word, regs: seq<Word>, pc: nat, shifts: Shifts)
    requires (OpOf(w) == NEG || OpOf(w) == NOT) && Reaches(p, w, |regs|)
    ensures Does(p, w, regs, pc, Exec(p, w, regs, pc, shifts))
  {
    var i := AsInt(regs[RegB(w)]);
    var r := (if OpOf(w) == NEG then 0 else -1) - (i as int);
    BoxIntTag(r);
    BoxIntPayload(r);
    WrapCongruent(r);
  }

  lemma {:induction false} JumpDoes(p: Prototype, w: Word, regs: seq<Word>, pc: nat, shifts: Shifts)
    requires (OpOf(w) == JUMP || IsConditional(w)) && Reaches(p, w, |regs|)
    ensures Does(p, w, regs, pc, Exec(p, w, regs, pc, shifts))
  {
    OffsetLands(pc, JumpField(w));
    OffsetLands(pc, Wide(w));
  }

  lemma {:induction false} OffsetLands(pc: nat, field: U32)
    ensures Lands(pc, field, Low32(pc + Wrap(field)))
  {
    WrapCongruent(field);
  }

  lemma {:induction false} LoadDoes(p: Prototype, w: Word, regs: seq<Word>, pc: nat, shifts: Shifts)
    requires !IsArithmetic(OpOf(w)) && OpOf(w) != NEG && OpOf(w) != NOT && OpOf(w) != JUMP && !IsConditional(w) && Reaches(p, w, |regs|)
    ensures Does(p, w, regs, pc, Exec(p, w, regs, pc, shifts))
  {
    if OpOf(w) == LOAD_IMM {
      WrapLow(Wide(w));
    }
  }

  // ----- The verifier is exact -----

  /** The opcodes the interpreter has. */
  predicate Implemented(op: Byte) {
    op <= RETURN || JUMP <= op <= NEG || 22 <= op <= GE
  }

  /** Of a word whose opcode the interpreter has, the verifier asks exactly what
      executing it needs, except for the register of a conditional jump. */
  lemma {:induction false} VerifierExact(p: Prototype, w: Word)
    requires Implemented(OpOf(w))
    ensures WordOk(p, w) <==> IsConditional(w) || Reaches(p, w, p.regCount)
  {
  }

  // ----- The larger of two numbers -----

  lemma {:induction false} NextStep(p: Prototype, s: Status, n: nat, shifts: Shifts, regs: seq<Word>, pc: nat)
    requires RunFor(p, s, n, shifts) == Running(regs, pc) && pc < |p.instrs|
    ensures RunFor(p, s, n + 1, shifts) == Exec(p, p.instrs[pc], regs, pc, shifts)
  {
  }

  lemma {:induction false} ExecMove(p: Prototype, w: Word, a: U16, b: U16, regs: seq<Word>, pc: nat, shifts: Shifts)
    requires HasFields(w, MOVE, a, b, 0) && a < |regs| && b < |regs|
    ensures Exec(p, w, regs, pc, shifts) == Running(regs[a := regs[b]], pc + 1)
  {
  }

  lemma {:induction false} ExecReturn(p: Prototype, w: Word, a: U16, regs: seq<Word>, pc: nat, shifts: Shifts)
    requires HasFields(w, RETURN, a, 0, 0) && a < |regs|
    ensures Exec(p, w, regs, pc, shifts) == Finished(regs[0 := regs[a]])
  {
  }

  predicate HasJump(w: Word, off: I32) {
    OpOf(w) == JUMP && JumpOffset(w) == off
  }

  lemma {:induction false} ExecJump(p: Prototype, w: Word, off: I32, regs: seq<Word>, pc: nat, shifts: Shifts)
    requires HasJump(w, off) && 0 <= pc + off < 0x1_0000_0000
    ensures Exec(p, w, regs, pc, shifts) == Running(regs, pc + off)
  {
  }

  predicate HasBranch(w: Word, a: U16, off: I32) {
    OpOf(w) == JUMP_IF_TRUE && RegA(w) == a && Wrap(Wide(w)) == off
  }

  lemma {:induction false} ExecBranch(p: Prototype, w: Word, a: U16, off: I32, regs: seq<Word>, pc: nat, shifts: Shifts)
    requires HasBranch(w, a, off) && a < |regs| && IsBool(regs[a]) && 0 <= pc + off < 0x1_0000_0000
    ensures Exec(p, w, regs, pc, shifts) == Running(regs, if regs[a] == WORD_TRUE then pc + off else pc + 1)
  {
  }

  lemma {:induction false} ExecCompute(p: Prototype, w: Word, op: Byte, a: U16, b: U16, c: U16, x: I32, y: I32, regs: seq<Word>, pc: nat, shifts: Shifts)
    requires HasFields(w, op, a, b, c) && IsArithmetic(op)
    requires a < |regs| && b < |regs| && c < |regs| && regs[b] == BoxInt(x) && regs[c] == BoxInt(y)
    ensures Exec(p, w, regs, pc, shifts) == Running(regs[a := ArithmeticWord(op, x, y, shifts)], pc + 1)
  {
    BoxIntTag(x);
    BoxIntPayload(x);
    BoxIntTag(y);
    BoxIntPayload(y);
  }

  predicate HasImm(w: Word, a: U16, n: I32) {
    OpOf(w) == LOAD_IMM && RegA(w) == a && Wrap(Wide(w)) == n
  }

  lemma {:induction false} ExecLoadImm(p: Prototype, w: Word, a: U16, n: I32, regs: seq<Word>, pc: nat, shifts: Shifts)
    requires HasImm(w, a, n) && a < |regs|
    ensures Exec(p, w, regs, pc, shifts) == Running(regs[a := BoxInt(n)], pc + 1)
  {
  }

  /** The words of the program
      `gt r2, r0, r1; jump_if_true r2, +3; move r3, r1; jump +2; move r3, r0; return r3`. */
  predicate MaxWord(p: Prototype, k: nat) {
    && k < |p.instrs|
    && (k == 0 ==> HasFields(p.instrs[0], GT, 2, 0, 1))
    && (k == 1 ==> HasBranch(p.instrs[1], 2, 3))
    && (k == 2 ==> HasFields(p.instrs[2], MOVE, 3, 1, 0))
    && (k == 3 ==> HasJump(p.instrs[3], 2))
    && (k == 4 ==> HasFields(p.instrs[4], MOVE, 3, 0, 0))
    && (k == 5 ==> HasFields(p.instrs[5], RETURN, 3, 0, 0))
  }

  ghost predicate IsMax(p: Prototype) {
    |p.instrs| == 6 && forall k: nat {:trigger MaxWord(p, k)} :: k < 6 ==> MaxWord(p, k)
  }

  lemma {:induction false} MaxCompares(p: Prototype, x: I32, y: I32, regs: seq<Word>, shifts: Shifts)
    requires IsMax(p) && |regs| == 4 && regs[0] == BoxInt(x) && regs[1] == BoxInt(y)
    ensures Exec(p, p.instrs[0], regs, 0, shifts) == Running(regs[2 := if y < x then WORD_TRUE else WORD_FALSE], 1)
  {
    assert MaxWord(p, 0);
    ExecCompute(p, p.instrs[0], GT, 2, 0, 1, x, y, regs, 0, shifts);
    WordYields(GT, x, y, shifts);
  }

  lemma {:induction false} MaxBranches(p: Prototype, regs: seq<Word>, shifts: Shifts)
    requires IsMax(p) && |regs| == 4 && IsBool(regs[2])
    ensures Exec(p, p.instrs[1], regs, 1, shifts) == Running(regs, if regs[2] == WORD_TRUE then 4 else 2)
  {
    assert MaxWord(p, 1);
    ExecBranch(p, p.instrs[1], 2, 3, regs, 1, shifts);
  }

  lemma {:induction false} MaxMoves(p: Prototype, regs: seq<Word>, shifts: Shifts)
    requires IsMax(p) && |regs| == 4
    ensures Exec(p, p.instrs[2], regs, 2, shifts) == Running(regs[3 := regs[1]], 3)
    ensures Exec(p, p.instrs[3], regs, 3, shifts) == Running(regs, 5)
    ensures Exec(p, p.instrs[4], regs, 4, shifts) == Running(regs[3 := regs[0]], 5)
    ensures Exec(p, p.instrs[5], regs, 5, shifts) == Finished(regs[0 := regs[3]])
  {
    assert MaxWord(p, 2) && MaxWord(p, 3) && MaxWord(p, 4) && MaxWord(p, 5);
    ExecMove(p, p.instrs[2], 3, 1, regs, 2, shifts);
    ExecJump(p, p.instrs[3], 2, regs, 3, shifts);
    ExecMove(p, p.instrs[4], 3, 0, regs, 4, shifts);
    ExecReturn(p, p.instrs[5], 3, regs, 5, shifts);
  }

  /** The program answers the larger of its two arguments, for all of them. */
  lemma {:induction false} MaxAnswers(p: Prototype, x: I32, y: I32, r0: seq<Word>, shifts: Shifts)
    requires IsMax(p) && |r0| == 4 && r0[0] == BoxInt(x) && r0[1] == BoxInt(y)
    ensures var last := RunFor(p, Running(r0, 0), 6, shifts);
            last.Finished? && |last.regs| == 4 && last.regs[0] == BoxInt(if x < y then y else x)
  {
    var s := Running(r0, 0);
    assert RunFor(p, s, 0, shifts) == s;
    NextStep(p, s, 0, shifts, r0, 0);
    MaxCompares(p, x, y, r0, shifts);
    var r1 := r0[2 := if y < x then WORD_TRUE else WORD_FALSE];
    NextStep(p, s, 1, shifts, r1, 1);
    MaxBranches(p, r1, shifts);
    if y < x {
      MaxFirst(p, s, r1, shifts);
    } else {
      MaxSecond(p, s, r1, shifts);
    }
  }

  lemma {:induction false} MaxFirst(p: Prototype, s: Status, regs: seq<Word>, shifts: Shifts)
    requires IsMax(p) && |regs| == 4 && RunFor(p, s, 2, shifts) == Running(regs, 4)
    ensures var last := RunFor(p, s, 6, shifts); last.Finished? && |last.regs| == 4 && last.regs[0] == regs[0]
  {
    var r := regs[3 := regs[0]];
    MaxMoves(p, regs, shifts);
    NextStep(p, s, 2, shifts, regs, 4);
    MaxMoves(p, r, shifts);
    NextStep(p, s, 3, shifts, r, 5);
    HaltedStays(p, s, 4, 6, shifts);
  }

  lemma {:induction false} MaxSecond(p: Prototype, s: Status, regs: seq<Word>, shifts: Shifts)
    requires IsMax(p) && |regs| == 4 && RunFor(p, s, 2, shifts) == Running(regs, 2)
    ensures var last := RunFor(p, s, 6, shifts); last.Finished? && |last.regs| == 4 && last.regs[0] == regs[1]
  {
    var r := regs[3 := regs[1]];
    MaxMoves(p, regs, shifts);
    NextStep(p, s, 2, shifts, regs, 2);
    MaxMoves(p, r, shifts);
    NextStep(p, s, 3, shifts, r, 3);
    NextStep(p, s, 4, shifts, r, 5);
    HaltedStays(p, s, 5, 6, shifts);
  }

  // ----- A loop -----

  /** The words of the program
      `load_imm r1, 0; load_imm r2, 1; add r1, r1, r2; lt r3, r1, r0; jump_if_true r3, -2; return r1`. */
  predicate CountWord(p: Prototype, k: nat) {
    && k < |p.instrs|
    && (k == 0 ==> HasImm(p.instrs[0], 1, 0))
    && (k == 1 ==> HasImm(p.instrs[1], 2, 1))
    && (k == 2 ==> HasFields(p.instrs[2], ADD, 1, 1, 2))
    && (k == 3 ==> HasFields(p.instrs[3], LT, 3, 1, 0))
    && (k == 4 ==> HasBranch(p.instrs[4], 3, -2))
    && (k == 5 ==> HasFields(p.instrs[5], RETURN, 1, 0, 0))
  }

  ghost predicate IsCount(p: Prototype) {
    |p.instrs| == 6 && forall k: nat {:trigger CountWord(p, k)} :: k < 6 ==> CountWord(p, k)
  }

  /** The frame at the top of the loop: the limit, the count so far, and 1. */
  ghost predicate Counted(regs: seq<Word>, limit: I32, i: I32) {
    |regs| == 4 && regs[0] == BoxInt(limit) && regs[1] == BoxInt(i) && regs[2] == BoxInt(1)
  }

  lemma {:induction false} CountStarts(p: Prototype, regs: seq<Word>, shifts: Shifts)
    requires IsCount(p) && |regs| == 4
    ensures Exec(p, p.instrs[0], regs, 0, shifts) == Running(regs[1 := BoxInt(0)], 1)
    ensures Exec(p, p.instrs[1], regs, 1, shifts) == Running(regs[2 := BoxInt(1)], 2)
    ensures Exec(p, p.instrs[5], regs, 5, shifts) == Finished(regs[0 := regs[1]])
  {
    assert CountWord(p, 0) && CountWord(p, 1) && CountWord(p, 5);
    ExecLoadImm(p, p.instrs[0], 1, 0, regs, 0, shifts);
    ExecLoadImm(p, p.instrs[1], 2, 1, regs, 1, shifts);
    ExecReturn(p, p.instrs[5], 1, regs, 5, shifts);
  }

  lemma {:induction false} CountAdds(p: Prototype, regs: seq<Word>, limit: I32, i: I32, shifts: Shifts)
    requires IsCount(p) && Counted(regs, limit, i) && i < 0x7FFF_FFFF
    ensures Exec(p, p.instrs[2], regs, 2, shifts) == Running(regs[1 := BoxInt(i + 1)], 3)
  {
    assert CountWord(p, 2);
    ExecCompute(p, p.instrs[2], ADD, 1, 1, 2, i, 1, regs, 2, shifts);
    WordYields(ADD, i, 1, shifts);
  }

  lemma {:induction false} CountCompares(p: Prototype, regs: seq<Word>, limit: I32, i: I32, shifts: Shifts)
    requires IsCount(p) && Counted(regs, limit, i)
    ensures Exec(p, p.instrs[3], regs, 3, shifts) == Running(regs[3 := if i < limit then WORD_TRUE else WORD_FALSE], 4)
  {
    assert CountWord(p, 3);
    ExecCompute(p, p.instrs[3], LT, 3, 1, 0, i, limit, regs, 3, shifts);
    WordYields(LT, i, limit, shifts);
  }

  lemma {:induction false} CountBranches(p: Prototype, regs: seq<Word>, shifts: Shifts)
    requires IsCount(p) && |regs| == 4 && IsBool(regs[3])
    ensures Exec(p, p.instrs[4], regs, 4, shifts) == Running(regs, if regs[3] == WORD_TRUE then 2 else 5)
  {
    assert CountWord(p, 4);
    ExecBranch(p, p.instrs[4], 3, -2, regs, 4, shifts);
  }

  /** One turn counts one further and goes round exactly while the count is below the limit. */
  lemma {:induction false} Turn(p: Prototype, s: Status, n: nat, regs: seq<Word>, limit: I32, i: I32, shifts: Shifts) returns (regs': seq<Word>)
    requires IsCount(p) && RunFor(p, s, n, shifts) == Running(regs, 2) && Counted(regs, limit, i) && i < 0x7FFF_FFFF
    ensures Counted(regs', limit, i + 1)
    ensures RunFor(p, s, n + 3, shifts) == Running(regs', if i + 1 < limit then 2 else 5)
  {
    NextStep(p, s, n, shifts, regs, 2);
    CountAdds(p, regs, limit, i, shifts);
    var r1 := regs[1 := BoxInt(i + 1)];
    NextStep(p, s, n + 1, shifts, r1, 3);
    CountCompares(p, r1, limit, i + 1, shifts);
    regs' := r1[3 := if i + 1 < limit then WORD_TRUE else WORD_FALSE];
    NextStep(p, s, n + 2, shifts, regs', 4);
    CountBranches(p, regs', shifts);
  }

  /** The turns of the loop, each from the state the last one left. */
  lemma {:induction false} Turns(p: Prototype, s: Status, n: nat, regs: seq<Word>, limit: I32, i: I32, end: I32, shifts: Shifts) returns (m: nat, regs': seq<Word>)
    requires IsCount(p) && At(p, s, n, shifts, regs, 2) && Counted(regs, limit, i)
    requires 0 <= i < end && end == if limit < 1 then 1 else limit
    ensures Counted(regs', limit, end) && At(p, s, m, shifts, regs', 5)
    decreases end - i
  {
    regs' := OneTurn(p, s, n, regs, limit, i, end, shifts);
    m := n + 3;
    if i + 1 < end {
      m, regs' := Turns(p, s, n + 3, regs', limit, i + 1, end, shifts);
    }
  }

  ghost predicate At(p: Prototype, s: Status, n: nat, shifts: Shifts, regs: seq<Word>, pc: nat) {
    RunFor(p, s, n, shifts) == Running(regs, pc)
  }

  lemma {:induction false} OneTurn(p: Prototype, s: Status, n: nat, regs: seq<Word>, limit: I32, i: I32, end: I32, shifts: Shifts) returns (regs': seq<Word>)
    requires IsCount(p) && At(p, s, n, shifts, regs, 2) && Counted(regs, limit, i)
    requires 0 <= i < end && end == if limit < 1 then 1 else limit
    ensures Counted(regs', limit, i + 1) && At(p, s, n + 3, shifts, regs', if i + 1 < end then 2 else 5)
  {
    regs' := Turn(p, s, n, regs, limit, i, shifts);
  }

  /** The loop ends for every argument, and has counted up to it, at least to 1. */
  lemma {:induction false} CountAnswers(p: Prototype, limit: I32, r0: seq<Word>, shifts: Shifts) returns (n: nat)
    requires IsCount(p) && |r0| == 4 && r0[0] == BoxInt(limit)
    ensures var last := RunFor(p, Running(r0, 0), n, shifts);
            last.Finished? && |last.regs| == 4 && last.regs[0] == BoxInt(if limit < 1 then 1 else limit)
  {
    var r2 := CountBegins(p, limit, r0, shifts);
    var m, r3 := Turns(p, Running(r0, 0), 2, r2, limit, 0, if limit < 1 then 1 else limit, shifts);
    CountEnds(p, Running(r0, 0), m, r3, shifts);
    n := m + 1;
  }

  lemma {:induction false} CountBegins(p: Prototype, limit: I32, r0: seq<Word>, shifts: Shifts) returns (r2: seq<Word>)
    requires IsCount(p) && |r0| == 4 && r0[0] == BoxInt(limit)
    ensures At(p, Running(r0, 0), 2, shifts, r2, 2) && Counted(r2, limit, 0)
  {
    var s := Running(r0, 0);
    assert RunFor(p, s, 0, shifts) == s;
    NextStep(p, s, 0, shifts, r0, 0);
    CountStarts(p, r0, shifts);
    var r1 := r0[1 := BoxInt(0)];
    NextStep(p, s, 1, shifts, r1, 1);
    CountStarts(p, r1, shifts);
    r2 := r1[2 := BoxInt(1)];
  }

  lemma {:induction false} CountEnds(p: Prototype, s: Status, m: nat, regs: seq<Word>, shifts: Shifts)
    requires IsCount(p) && |regs| == 4 && At(p, s, m, shifts, regs, 5)
    ensures RunFor(p, s, m + 1, shifts) == Finished(regs[0 := regs[1]])
  {
    NextStep(p, s, m, shifts, regs, 5);
    CountStarts(p, regs, shifts);
  }
}
