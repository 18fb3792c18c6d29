/**
 The virtual machine: its growing stack, register access, and the interpreter
 loop working on the stack in place.
 */
module Vm {
  import opened Wrappers
  import opened Values
  import opened Bytecode

  /** The registers a run starts with: what the stack held, then zeros. */
  function Frame(contents: seq<Word>, regCount: nat): (regs: seq<Word>)
    ensures |regs| == regCount
  {
    seq(regCount, i requires 0 <= i < regCount => if i < |contents| then contents[i] else 0)
  }

  /** How one instruction ended. `Faulted` is where it would have left the frame. */
  datatype Signal = Continue(pc: nat) | Returned | Refused | Faulted

  function SignalOf(s: Status): Signal {
    match s
    case Running(_, pc) => Continue(pc)
    case Finished(_) => Returned
    case Rejected(_) => Refused
    case Fault => Faulted
  }

  /** The machine, with this frame, stands where the abstract run does. */
  ghost predicate At(s: Status, signal: Signal, frame: seq<Word>) {
    signal == SignalOf(s) && (!s.Fault? ==> s.regs == frame)
  }

  lemma {:induction false} RunNext(p: Prototype, start: Status, n: nat, shifts: Shifts, signal: Signal, frame: seq<Word>)
    requires At(RunFor(p, start, n, shifts), signal, frame) && signal.Continue? && signal.pc < |p.instrs|
    ensures RunFor(p, start, n + 1, shifts) == Exec(p, p.instrs[signal.pc], frame, signal.pc, shifts)
  {
  }

  lemma {:induction false} RunEnded(p: Prototype, start: Status, n: nat, m: nat, shifts: Shifts, signal: Signal, frame: seq<Word>)
    requires n <= m && At(RunFor(p, start, n, shifts), signal, frame) && !(signal.Continue? && signal.pc < |p.instrs|)
    ensures At(RunFor(p, start, m, shifts), signal, frame) && Halted(p, RunFor(p, start, m, shifts))
  {
    HaltedStays(p, start, n, m, shifts);
  }

  class Machine {
    var stack: array<Word>
    var stackSize: nat

    ghost predicate Valid()
      reads this
    {
      stackSize <= stack.Length
    }

    ghost function Contents(): seq<Word>
      requires Valid()
      reads this, stack
    {
      stack[..stackSize]
    }

    constructor ()
      ensures Valid() && Contents() == [] && fresh(stack)
    {
      stack := new Word[0];
      stackSize := 0;
    }

    /** Makes room for `extra` more slots: capacity doubles from 32, what was
        there stays, and new slots are zero. */
    method EnsureStack(extra: nat)
      requires Valid()
      modifies this`stack
      ensures Valid() && stackSize == old(stackSize) && stack.Length >= stackSize + extra
      ensures stack.Length >= old(stack.Length) && (stack == old(stack) || fresh(stack))
      ensures forall i :: 0 <= i < stack.Length ==> stack[i] == if i < old(stack.Length) then old(stack[i]) else 0
    {
      var needed := stackSize + extra;
      if needed <= stack.Length {
        return;
      }
      var capacity := if stack.Length == 0 then 32 else stack.Length;
      while capacity < needed
        invariant capacity >= stack.Length && capacity >= 1
      {
        capacity := capacity * 2;
      }
      var was := stack;
      stack := new Word[capacity](i requires 0 <= i < capacity reads was => if i < was.Length then was[i] else 0);
    }

    /** Writes a register, growing the stack to reach it. */
    method SetReg(reg: U16, val: Word)
      requires Valid()
      modifies this, stack
      ensures Valid() && stackSize == (if reg < old(stackSize) then old(stackSize) else reg + 1)
      ensures stack == old(stack) || fresh(stack)
      ensures Contents()[reg] == val
      ensures forall i :: 0 <= i < old(stackSize) && i != reg ==> Contents()[i] == old(Contents())[i]
    {
      if reg >= stack.Length {
        EnsureStack(reg - stackSize + 1);
      }
      if reg >= stackSize {
        stackSize := reg + 1;
      }
      stack[reg] := val;
    }

    /** Reads a register; those above the stack read as nil. */
    method GetReg(reg: U16) returns (val: Word)
      requires Valid()
      ensures val == if reg < stackSize then Contents()[reg] else WORD_NIL
    {
      val := if reg >= stackSize then WORD_NIL else stack[reg];
    }

    method Store(ghost n: nat, a: nat, w: Word)
      requires a < n <= stack.Length
      modifies stack
      ensures stack[..n] == old(stack[..n])[a := w]
    {
      stack[a] := w;
    }

    /** One turn of the interpreter loop does to the stack what `Exec` does to
        the frame. */
    method ExecWord(p: Prototype, w: Word, pc: nat, shifts: Shifts) returns (signal: Signal)
      requires p.regCount <= stack.Length && WordOk(p, w)
      modifies stack
      ensures At(Exec(p, w, old(stack[..p.regCount]), pc, shifts), signal, stack[..p.regCount])
      ensures signal.Faulted? <==> BadJump(p, w)
    {
      ghost var regs := stack[..p.regCount];
      ExecSafe(p, w, regs, pc, shifts);
      var op, a, b, c := OpOf(w), RegA(w), RegB(w), RegC(w);
      if BadJump(p, w) {
        return Faulted;
      } else if op == HALT {
        return Continue(|p.instrs|);
      } else if op == RETURN {
        Store(p.regCount, 0, stack[a]);
        return Returned;
      } else if op == JUMP {
        return Continue(Low32(pc + JumpOffset(w)));
      } else if op == JUMP_IF_TRUE || op == JUMP_IF_FALSE {
        return Continue(if IsTruthy(stack[a]) == (op == JUMP_IF_TRUE) then Low32(pc + Wrap(Wide(w))) else pc + 1);
      } else if op == MOVE {
        Store(p.regCount, a, stack[b]);
      } else if op == LOAD_IMM {
        Store(p.regCount, a, BoxInt(Wrap(Wide(w))));
      } else if op == LOAD_CONST {
        Store(p.regCount, a, p.consts[Wide(w)]);
      } else if op == LOAD_NIL {
        Store(p.regCount, a, WORD_NIL);
      } else if op == LOAD_TRUE {
        Store(p.regCount, a, WORD_TRUE);
      } else if op == LOAD_FALSE {
        Store(p.regCount, a, WORD_FALSE);
      } else if op == NEG {
        Store(p.regCount, a, BoxInt(0 - AsInt(stack[b])));
      } else if op == NOT {
        Store(p.regCount, a, BoxInt(-1 - AsInt(stack[b])));
      } else if IsArithmetic(op) {
        if !IsInt(stack[b]) || !IsInt(stack[c]) {
          return Refused;
        }
        Store(p.regCount, a, ArithmeticWord(op, AsInt(stack[b]), AsInt(stack[c]), shifts));
      } else if op != NOP {
        return Refused;
      }
      signal := Continue(pc + 1);
    }

    /** Sets up the frame: registers that held values keep them, new ones are zero. */
    method SetUpFrame(p: Prototype)
      requires Valid()
      modifies this, stack
      ensures Valid() && stackSize == p.regCount && (stack == old(stack) || fresh(stack))
      ensures Contents() == Frame(old(Contents()), p.regCount)
    {
      var previous := stackSize;
      EnsureStack(p.regCount);
      var frame := stack;
      var i := previous;
      while i < p.regCount
        invariant stack == frame && stackSize == previous && previous <= i && (i <= p.regCount || i == previous)
        invariant forall k :: 0 <= k < previous ==> frame[k] == old(Contents())[k]
        invariant forall k :: previous <= k < i ==> frame[k] == 0
      {
        frame[i] := 0;
        i := i + 1;
      }
      stackSize := p.regCount;
    }

    /** The interpreter loop, for at most `limit` turns. */
    method RunLoop(p: Prototype, limit: nat, shifts: Shifts) returns (signal: Signal)
      requires Verified(p) && p.regCount <= stack.Length
      modifies stack
      ensures At(RunFor(p, Running(old(stack[..p.regCount]), 0), limit, shifts), signal, stack[..p.regCount])
    {
      ghost var start := Running(stack[..p.regCount], 0);
      signal := Continue(0);
      var n := 0;
      while n < limit && signal.Continue? && signal.pc < |p.instrs|
        invariant 0 <= n <= limit
        invariant At(RunFor(p, start, n, shifts), signal, stack[..p.regCount])
      {
        RunNext(p, start, n, shifts, signal, stack[..p.regCount]);
        assert WordOk(p, p.instrs[signal.pc]);
        signal := ExecWord(p, p.instrs[signal.pc], signal.pc, shifts);
        n := n + 1;
      }
      if n < limit {
        RunEnded(p, start, n, limit, shifts, signal, stack[..p.regCount]);
      }
    }

    /** Checks the prototype, sets up the frame and runs it for at most `limit`
        turns. The stack ends up as the frame does after that many steps; the
        run succeeds unless it is refused or leaves its frame. */
    method Execute(p: Prototype, limit: nat, shifts: Shifts) returns (ok: bool, halted: bool, faulted: bool)
      requires Valid()
      modifies this, stack
      ensures Valid()
      ensures !Verified(p) ==> !ok && !faulted && Contents() == old(Contents())
      ensures Verified(p) ==>
                (var last := RunFor(p, Running(Frame(old(Contents()), p.regCount), 0), limit, shifts);
                 && stackSize == p.regCount && (!last.Fault? ==> Contents() == last.regs)
                 && ok == (last.Running? || last.Finished?) && halted == Halted(p, last) && faulted == last.Fault?)
    {
      ok := VerifyPrototype(p);
      if !ok {
        return false, true, false;
      }
      SetUpFrame(p);
      var signal := RunLoop(p, limit, shifts);
      ok := signal.Continue? || signal.Returned?;
      halted := !signal.Continue? || signal.pc >= |p.instrs|;
      faulted := signal.Faulted?;
    }
  }
}
