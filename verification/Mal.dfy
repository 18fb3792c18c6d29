/**
 MAL, the linear intermediate code: operands, instructions and functions, the
 meaning of straight-line code, and the SSA checker.
 */
module Mal {
  import opened Wrappers
  import opened Values
  import opened Terms

  datatype MalType = VoidT | I1T | I8T | I16T | I32T | I64T | F32T | F64T | PtrT | VecT

  /** The opcodes that lowering, the peephole rules and selection mention. */
  datatype Opcode =
    | Copy
    | AddOp | SubOp | MulOp | SDivOp | SRemOp | NegOp
    | AndOp | OrOp | XorOp | NotOp | ShlOp | AShrOp
    | FAddOp | FSubOp | FMulOp | FDivOp | FNegOp | FAbsOp
    | ICmpEq | ICmpNe | ICmpSlt | ICmpSle | ICmpSgt | ICmpSge
    | SelectOp | SExtOp | BitcastOp
    | Ret | Target

  /** Floats are kept as their bit pattern; lowering only copies them. */
  datatype Operand =
    | Reg(reg: nat, ty: MalType)
    | ImmInt(imm: int, ty: MalType)
    | ImmFloat(bits: Word, ty: MalType)
    | BlockRef(block: nat)
    | TypeRef(asType: MalType)

  datatype Inst = Inst(id: nat, opcode: Opcode, ty: MalType, dst: Option<nat>, operands: seq<Operand>)

  datatype Function = Function(paramCount: nat, nextReg: nat, retType: MalType, blocks: seq<seq<Inst>>)

  // ----- Meaning of straight-line code -----

  /** A register file; registers that were never written are undefined. */
  type Regs = nat -> Value

  function OperandValue(o: Operand, regs: Regs): Value {
    match o
    case Reg(r, _) => regs(r)
    case ImmInt(n, _) => Int(Wrap(n))
    case ImmFloat(bits, _) => Float(bits)
    case _ => Undef
  }

  function OperandValues(os: seq<Operand>, regs: Regs): (vs: seq<Value>)
    ensures |vs| == |os|
    ensures forall k :: 0 <= k < |os| ==> vs[k] == OperandValue(os[k], regs)
  {
    seq(|os|, k requires 0 <= k < |os| => OperandValue(os[k], regs))
  }

  /** The WIL operation an opcode carries out, if it has one. */
  function KindOf(op: Opcode): Option<Kind> {
    match op
    case AddOp => Some(Add)
    case SubOp => Some(Sub)
    case MulOp => Some(Mul)
    case SDivOp => Some(Div)
    case SRemOp => Some(Mod)
    case NegOp => Some(Neg)
    case AndOp => Some(And)
    case OrOp => Some(Or)
    case XorOp => Some(Xor)
    case NotOp => Some(Not)
    case ShlOp => Some(Shl)
    case AShrOp => Some(Shr)
    case ICmpEq => Some(Eq)
    case ICmpNe => Some(Ne)
    case ICmpSlt => Some(Lt)
    case ICmpSle => Some(Le)
    case ICmpSgt => Some(Gt)
    case ICmpSge => Some(Ge)
    case _ => None
  }

  /** An interpretation of the operations. */
  type Ops = (Kind, seq<Value>) -> Value

  /** The value an instruction computes. */
  function InstValue(i: Inst, regs: Regs, ops: Ops): Value {
    if i.opcode == Copy then
      if |i.operands| == 1 then OperandValue(i.operands[0], regs) else Undef
    else if KindOf(i.opcode).None? then Undef
    else ops(KindOf(i.opcode).value, OperandValues(i.operands, regs))
  }

  function Write(regs: Regs, r: nat, v: Value): Regs {
    (q: nat) => if q == r then v else regs(q)
  }

  function StepInst(i: Inst, regs: Regs, ops: Ops): Regs {
    if i.dst.None? then regs else Write(regs, i.dst.value, InstValue(i, regs, ops))
  }

  /** Running a block: the value of its first `Ret`, or nothing if it has none. */
  datatype Outcome = Returned(value: Value) | FellThrough(regs: Regs)

  function RetValue(i: Inst, regs: Regs): Value {
    if |i.operands| >= 1 then OperandValue(i.operands[0], regs) else Undef
  }

  function Advance(i: Inst, regs: Regs, ops: Ops): Outcome {
    if i.opcode == Ret then Returned(RetValue(i, regs)) else FellThrough(StepInst(i, regs, ops))
  }

  /** Running the first `n` instructions of a block. */
  function RunTo(code: seq<Inst>, n: nat, regs: Regs, ops: Ops): Outcome
    requires n <= |code|
  {
    if n == 0 then FellThrough(regs)
    else
      var before := RunTo(code, n - 1, regs, ops);
      if before.Returned? then before else Advance(code[n - 1], before.regs, ops)
  }

  function Run(code: seq<Inst>, regs: Regs, ops: Ops): Outcome {
    RunTo(code, |code|, regs, ops)
  }

  /** Instruction `n` is not reached, or is a `Ret`, or computes a defined value. */
  ghost predicate DefinedAt(code: seq<Inst>, n: nat, regs: Regs, ops: Ops)
    requires n < |code|
  {
    var before := RunTo(code, n, regs, ops);
    before.FellThrough? && code[n].opcode != Ret ==> InstValue(code[n], before.regs, ops) != Undef
  }

  ghost predicate DefinedTo(code: seq<Inst>, n: nat, regs: Regs, ops: Ops)
    requires n <= |code|
  {
    forall j: nat :: j < n ==> DefinedAt(code, j, regs, ops)
  }

  ghost predicate AllDefined(code: seq<Inst>, regs: Regs, ops: Ops) {
    DefinedTo(code, |code|, regs, ops)
  }

  /** Running a prefix does not depend on what follows. */
  lemma {:induction false} RunPrefix(code: seq<Inst>, longer: seq<Inst>, n: nat, regs: Regs, ops: Ops)
    requires n <= |code| <= |longer| && forall j :: 0 <= j < n ==> code[j] == longer[j]
    ensures RunTo(code, n, regs, ops) == RunTo(longer, n, regs, ops)
  {
    if n > 0 {
      RunPrefix(code, longer, n - 1, regs, ops);
    }
  }

  lemma {:induction false} DefinedPrefixes(code: seq<Inst>, longer: seq<Inst>, n: nat, regs: Regs, ops: Ops)
    requires n <= |code| <= |longer| && forall j :: 0 <= j < n ==> code[j] == longer[j]
    ensures DefinedTo(code, n, regs, ops) <==> DefinedTo(longer, n, regs, ops)
  {
    forall j: nat | j < n
      ensures DefinedAt(code, j, regs, ops) <==> DefinedAt(longer, j, regs, ops)
    {
      RunPrefix(code, longer, j, regs, ops);
    }
  }

  /** Once a `Ret` has been executed, the rest does not matter. */
  lemma {:induction false} RunStopped(code: seq<Inst>, n: nat, m: nat, regs: Regs, ops: Ops)
    requires n <= m <= |code| && RunTo(code, n, regs, ops).Returned?
    ensures RunTo(code, m, regs, ops) == RunTo(code, n, regs, ops)
    ensures DefinedTo(code, n, regs, ops) ==> DefinedTo(code, m, regs, ops)
    decreases m
  {
    if n < m {
      RunStopped(code, n, m - 1, regs, ops);
      assert DefinedAt(code, m - 1, regs, ops);
    }
  }

  // ----- SSA -----

  /** The instructions of the first `b` blocks, in order. */
  function Flat(blocks: seq<seq<Inst>>, b: nat): seq<Inst>
    requires b <= |blocks|
  {
    if b == 0 then [] else Flat(blocks, b - 1) + blocks[b - 1]
  }

  function AllInsts(blocks: seq<seq<Inst>>): seq<Inst> {
    Flat(blocks, |blocks|)
  }

  lemma {:induction false} FlatPrefix(blocks: seq<seq<Inst>>, b: nat, c: nat)
    requires b <= c <= |blocks|
    ensures |Flat(blocks, b)| <= |Flat(blocks, c)|
    ensures forall j :: 0 <= j < |Flat(blocks, b)| ==> Flat(blocks, c)[j] == Flat(blocks, b)[j]
    decreases c
  {
    if b < c {
      FlatPrefix(blocks, b, c - 1);
    }
  }

  /** Parameters, and registers written by the first `n` instructions. */
  ghost predicate DefinedBefore(params: nat, code: seq<Inst>, n: nat, r: nat)
    requires n <= |code|
  {
    r < params || exists j :: 0 <= j < n && code[j].dst == Some(r)
  }

  ghost predicate OperandDefined(params: nat, limit: nat, code: seq<Inst>, n: nat, o: Operand)
    requires n <= |code|
  {
    o.Reg? ==> o.reg < limit && DefinedBefore(params, code, n, o.reg)
  }

  ghost predicate UsesDefined(params: nat, limit: nat, code: seq<Inst>, n: nat)
    requires n < |code|
  {
    forall k :: 0 <= k < |code[n].operands| ==> OperandDefined(params, limit, code, n, code[n].operands[k])
  }

  ghost predicate DefinesFresh(params: nat, limit: nat, code: seq<Inst>, n: nat)
    requires n < |code|
  {
    code[n].dst.Some? ==> code[n].dst.value < limit && !DefinedBefore(params, code, n, code[n].dst.value)
  }

  /** Every register is below the limit, written once, and read only after that. */
  ghost predicate SsaCode(params: nat, limit: nat, code: seq<Inst>) {
    forall n :: 0 <= n < |code| ==> UsesDefined(params, limit, code, n) && DefinesFresh(params, limit, code, n)
  }

  ghost predicate Ssa(f: Function) {
    SsaCode(f.paramCount, f.nextReg, AllInsts(f.blocks))
  }

  lemma {:induction false} DefinedPrefix(params: nat, code: seq<Inst>, more: seq<Inst>, n: nat, r: nat)
    requires n <= |code|
    ensures DefinedBefore(params, code, n, r) <==> DefinedBefore(params, code + more, n, r)
  {
    assert forall j :: 0 <= j < n ==> (code + more)[j] == code[j];
  }

  lemma {:induction false} SsaAppend(params: nat, limit: nat, code: seq<Inst>, inst: Inst, limit': nat)
    requires SsaCode(params, limit, code) && limit <= limit'
    requires forall k :: 0 <= k < |inst.operands| ==> OperandDefined(params, limit', code, |code|, inst.operands[k])
    requires inst.dst.Some? ==> inst.dst.value < limit' && !DefinedBefore(params, code, |code|, inst.dst.value)
    ensures SsaCode(params, limit', code + [inst])
  {
    var longer := code + [inst];
    forall n: nat | n < |longer|
      ensures UsesDefined(params, limit', longer, n) && DefinesFresh(params, limit', longer, n)
    {
      var which := if n < |code| then code[n] else inst;
      assert longer[n] == which;
      if n < |code| {
        assert UsesDefined(params, limit, code, n) && DefinesFresh(params, limit, code, n);
      }
      forall k: nat | k < |which.operands|
        ensures OperandDefined(params, limit', longer, n, which.operands[k])
      {
        var o := which.operands[k];
        if n < |code| {
          assert OperandDefined(params, limit, code, n, code[n].operands[k]);
        }
        if o.Reg? {
          DefinedPrefix(params, code, [inst], n, o.reg);
        }
      }
      if which.dst.Some? {
        DefinedPrefix(params, code, [inst], n, which.dst.value);
      }
    }
  }

  // ----- The SSA checker -----

  /** Checks one instruction against the flags of the registers defined so far. */
  method CheckInst(f: Function, inst: Inst, defined: array<bool>, ghost code: seq<Inst>, ghost n: nat) returns (ok: bool)
    requires n < |code| && code[n] == inst && defined.Length >= f.nextReg
    requires forall r :: 0 <= r < f.nextReg ==> (defined[r] <==> DefinedBefore(f.paramCount, code, n, r))
    modifies defined
    ensures ok <==> UsesDefined(f.paramCount, f.nextReg, code, n) && DefinesFresh(f.paramCount, f.nextReg, code, n)
    ensures ok ==> forall r :: 0 <= r < f.nextReg ==> (defined[r] <==> DefinedBefore(f.paramCount, code, n + 1, r))
  {
    var k := 0;
    while k < |inst.operands|
      invariant 0 <= k <= |inst.operands|
      invariant forall j :: 0 <= j < k ==> OperandDefined(f.paramCount, f.nextReg, code, n, inst.operands[j])
      invariant forall r :: 0 <= r < f.nextReg ==> (defined[r] <==> DefinedBefore(f.paramCount, code, n, r))
    {
      var o := inst.operands[k];
      if o.Reg? && (o.reg >= f.nextReg || !defined[o.reg]) {
        assert !OperandDefined(f.paramCount, f.nextReg, code, n, code[n].operands[k]);
        return false;
      }
      k := k + 1;
    }
    if inst.dst.Some? {
      if inst.dst.value >= f.nextReg || defined[inst.dst.value] {
        return false;
      }
      defined[inst.dst.value] := true;
    }
    forall r: nat | r < f.nextReg
      ensures defined[r] <==> DefinedBefore(f.paramCount, code, n + 1, r)
    {
      if inst.dst == Some(r) {
        assert code[n].dst == Some(r);
      }
    }
    ok := true;
  }

  /** The checker accepts exactly the functions in SSA form. */
  method VerifySsa(f: Function) returns (ok: bool)
    ensures ok <==> Ssa(f)
  {
    ghost var code := AllInsts(f.blocks);
    var defined := new bool[f.nextReg](r => r < f.paramCount);
    var b := 0;
    while b < |f.blocks|
      invariant 0 <= b <= |f.blocks| && |Flat(f.blocks, b)| <= |code|
      invariant forall r :: 0 <= r < f.nextReg ==>
                  (defined[r] <==> DefinedBefore(f.paramCount, code, |Flat(f.blocks, b)|, r))
      invariant forall n :: 0 <= n < |Flat(f.blocks, b)| ==>
                  UsesDefined(f.paramCount, f.nextReg, code, n) && DefinesFresh(f.paramCount, f.nextReg, code, n)
    {
      FlatPrefix(f.blocks, b + 1, |f.blocks|);
      ghost var base := |Flat(f.blocks, b)|;
      var k := 0;
      while k < |f.blocks[b]|
        invariant 0 <= k <= |f.blocks[b]|
        invariant forall r :: 0 <= r < f.nextReg ==> (defined[r] <==> DefinedBefore(f.paramCount, code, base + k, r))
        invariant forall n :: 0 <= n < base + k ==>
                    UsesDefined(f.paramCount, f.nextReg, code, n) && DefinesFresh(f.paramCount, f.nextReg, code, n)
      {
        assert code[base + k] == Flat(f.blocks, b + 1)[base + k] == f.blocks[b][k];
        var good := CheckInst(f, f.blocks[b][k], defined, code, base + k);
        if !good {
          return false;
        }
        k := k + 1;
      }
      b := b + 1;
    }
    ok := true;
  }
}
