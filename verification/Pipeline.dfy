/**
 From a WIL graph to a finished run: lowering, the peephole pass, selection,
 layout, encoding and execution, and what the whole chain computes.
 */
module Pipeline {
  import opened Wrappers
  import opened Values
  import opened Terms
  import opened WilGraph
  import opened Unfolding
  import opened Mal
  import opened Lowering
  import opened Peephole
  import opened PeepholeRules
  import opened PeepholePass
  import opened Mds
  import opened Compilable
  import opened Bytecode
  import opened Encoder
  import opened EncoderProofs
  import opened Simulation
  import T = Tos
  import S = TosStream
  import V = Vm

  // ----- Sizes and destinations of lowered code -----

  /** Each node takes at most one register and two instructions. */
  lemma {:induction false} LoweredSmall(g: Nodes, sts: seq<State>, n: nat)
    requires InRange(g) && Trace(g, sts) && n <= |g|
    ensures sts[n].nextReg + ParamsBefore(g, n) <= ParamsBefore(g, |g|) + n
    ensures |sts[n].code| <= 2 * n
    ensures DstWritten(sts[n].code)
  {
    if n > 0 {
      LoweredSmall(g, sts, n - 1);
      StepSmall(g, sts, n - 1);
    }
  }

  /** Everything but a return has a destination. */
  ghost predicate DstWritten(code: seq<Inst>) {
    forall k :: 0 <= k < |code| ==> (code[k].opcode != Ret ==> code[k].dst.Some?)
  }

  lemma {:induction false} StepSmall(g: Nodes, sts: seq<State>, n: nat)
    requires InRange(g) && Trace(g, sts) && n < |g| && DstWritten(sts[n].code)
    ensures DstWritten(sts[n + 1].code) && |sts[n + 1].code| <= |sts[n].code| + 2
    ensures sts[n + 1].nextReg <= sts[n].nextReg + (if g[n].kind == Param then 0 else 1)
  {
    assert StepAt(g, sts, n);
    NodeSmall(g, sts[n], n, sts[n + 1]);
  }

  lemma {:induction false} NodeSmall(g: Nodes, st: State, n: nat, r: State)
    requires InRange(g) && n < |g| && |st.nodeRegs| == |g| && r == LowerNode(g, st, n) && DstWritten(st.code)
    ensures DstWritten(r.code) && |r.code| <= |st.code| + 2
    ensures r.nextReg <= st.nextReg + (if g[n].kind == Param then 0 else 1)
  {
  }

  // ----- What the chain produces -----

  /** What the peephole pass leaves of the lowered graph. */
  ghost function Optimized(g: Nodes): seq<Inst>
    requires InRange(g)
  {
    TunedCode(ShippedPeephole(), Lowered(g).blocks[0])
  }

  /** `code` is the lowered graph after the peephole pass, `sel` its selection,
      `p` the encoding of that. */
  ghost predicate Produced(g: Nodes, code: seq<Inst>, sel: seq<Selected>, bds: seq<Builder>, p: Prototype)
    requires InRange(g)
  {
    code == Optimized(g) && Selects(code, sel) && Encodes(sel, bds, p)
  }

  lemma {:induction false} TunedBlockKept(code: seq<Inst>)
    ensures Kept(ShippedPeephole(), [code], [TunedCode(ShippedPeephole(), code)])
  {
    TunedKept(ShippedPeephole(), [code]);
    assert Tuned(ShippedPeephole(), [code]) == [TunedCode(ShippedPeephole(), code)];
  }

  /** The pass keeps destinations and returns where they were. */
  lemma {:induction false} PassKeepsShape(code: seq<Inst>, code': seq<Inst>)
    requires code' == TunedCode(ShippedPeephole(), code)
    ensures |code'| == |code|
    ensures forall k :: 0 <= k < |code| ==> code'[k].dst == code[k].dst && (code'[k].opcode == Ret <==> code[k].opcode == Ret)
  {
    SoundShipped();
    TunedBlockKept(code);
    assert BlocksRefine([code], [code'], MachineOps(true));
    assert CodeRefines([code][0], [code'][0], MachineOps(true));
    forall k | 0 <= k < |code|
      ensures code'[k].dst == code[k].dst && (code'[k].opcode == Ret <==> code[k].opcode == Ret)
    {
      assert InstRefines(code[k], code'[k], MachineOps(true));
    }
  }

  lemma {:induction false} SoundShipped()
    ensures Sound(ShippedPeephole(), MachineOps(true))
  {
    MachineInterprets(true);
    ShippedRefine(true);
  }

  /** Selected code has its descriptors' shapes. */
  lemma {:induction false} SelectedShaped(code: seq<Inst>, sel: seq<Selected>)
    requires Selects(code, sel) && DstWritten(code)
    ensures AllShaped(sel)
  {
    forall n | 0 <= n < |sel|
      ensures Shaped(sel[n])
    {
      assert Accepts(sel[n].desc, code[n]);
      OnlyRet(sel[n].desc);
      EmitShaped(sel[n].desc, code[n]);
    }
  }

  /** Registers of selected code stay below the limit of the SSA form. */
  ghost predicate AllBelow(sel: seq<Selected>, limit: nat) {
    forall n :: 0 <= n < |sel| ==> Below(sel[n], limit)
  }

  lemma {:induction false} SelectedBelow(code: seq<Inst>, sel: seq<Selected>, params: nat, limit: nat)
    requires Selects(code, sel) && SsaCode(params, limit, code)
    ensures AllBelow(sel, limit)
  {
    forall n: nat | n < |sel|
      ensures Below(sel[n], limit)
    {
      assert UsesDefined(params, limit, code, n) && DefinesFresh(params, limit, code, n);
      InstBelow(params, limit, code, n, sel[n]);
    }
  }

  lemma {:induction false} InstBelow(params: nat, limit: nat, code: seq<Inst>, n: nat, s: Selected)
    requires n < |code| && UsesDefined(params, limit, code, n) && DefinesFresh(params, limit, code, n)
    requires s == Emit(s.desc, code[n])
    ensures Below(s, limit)
  {
    forall k | 0 <= k < |s.operands| && s.operands[k].Reg?
      ensures s.operands[k].reg < limit
    {
      var skip := |s.operands| - |code[n].operands|;
      if k >= skip {
        assert OperandDefined(params, limit, code, n, code[n].operands[k - skip]);
      }
    }
  }

  lemma {:induction false} MaxOperandBelow(os: seq<Operand>, n: nat, limit: nat)
    requires n <= |os| && limit > 0 && forall k :: 0 <= k < |os| && os[k].Reg? ==> os[k].reg < limit
    ensures MaxOperand(os, n) < limit
  {
    if n > 0 {
      MaxOperandBelow(os, n - 1, limit);
    }
  }

  lemma {:induction false} MaxRegBelow(sel: seq<Selected>, n: nat, limit: nat)
    requires n <= |sel| && limit > 0 && AllBelow(sel, limit)
    ensures MaxReg(sel, n) < limit
  {
    if n > 0 {
      MaxRegBelow(sel, n - 1, limit);
      assert Below(sel[n - 1], limit);
      MaxOperandBelow(sel[n - 1].operands, |sel[n - 1].operands|, limit);
    }
  }

  /** Facts about the lowered code that later stages rely on. */
  lemma {:induction false} LoweredFacts(g: Nodes)
    requires InRange(g)
    ensures var f := Lowered(g);
            f.blocks == [f.blocks[0]] && f.nextReg <= |g| && |f.blocks[0]| <= 2 * |g| && DstWritten(f.blocks[0])
  {
    var sts := TraceExists(g);
    LoweredSmall(g, sts, |g|);
  }

  /** The chain delivers exactly what the simulation theorem needs. */
  lemma {:induction false} ProducedCompiles(g: Nodes, code: seq<Inst>, sel: seq<Selected>, bds: seq<Builder>, p: Prototype)
    requires InRange(g) && Ssa(Lowered(g)) && |g| <= 0xFFFE && Produced(g, code, sel, bds, p)
    ensures Compiled(code, sel, bds, p) && Bytecode.Verified(p) && JumpFree(p)
  {
    LoweredFacts(g);
    var f := Lowered(g);
    PassKeepsShape(f.blocks[0], code);
    SelectedShaped(code, sel);
    TunedBlockKept(f.blocks[0]);
    assert AllInsts([code]) == Flat([code], 0) + code == code;
    SelectedBelow(code, sel, f.paramCount, f.nextReg);
    var limit := if |g| == 0 then 1 else |g|;
    assert forall n :: 0 <= n < |sel| && Below(sel[n], f.nextReg) ==> Below(sel[n], limit);
    assert AllBelow(sel, limit);
    MaxRegBelow(sel, |sel|, limit);
    NoTop(sel, limit);
    EncodingVerifies(sel, bds, p);
    ShapedJumpFree(sel, bds, p);
  }

  lemma {:induction false} NoTop(sel: seq<Selected>, limit: nat)
    requires AllBelow(sel, limit) && limit <= 0xFFFE
    ensures NoTopRegister(sel)
  {
    forall i, k | 0 <= i < |sel| && 0 <= k < |sel[i].operands| && sel[i].operands[k].Reg?
      ensures Cut16(sel[i].operands[k].reg) != 0xFFFF
    {
      assert Below(sel[i], limit);
    }
  }

  // ----- What the program computes -----

  /** `n` is the graph's first return, and the slot it reads stands for `d`. */
  ghost predicate ReturnsNode(g: Nodes, n: nat, d: nat)
    requires InRange(g)
  {
    && n < |g| && NoReturn(g, n) && g[n].kind == Return && |g[n].inputs| > 1
    && Resolve(g, n, g[n].inputs[1]) == Some(d) && d < |Patched(g)|
  }

  /** End to end: the program made from a graph, run with the boxed parameters
      in its low registers, finishes with the boxed value of the returned node
      in register 0, whenever the machine can compute that value and those of
      the operations before the return. Values are those of the graph that
      lowering translates, which is `g` itself if it is in index order and has no
      null slots and no boolean or undefined constants. */
  lemma {:induction false} ProgramCorrect(g: Nodes, code: seq<Inst>, sel: seq<Selected>, bds: seq<Builder>, p: Prototype,
                                          terms: seq<Term>, env: Env, mregs: Regs, regs: seq<Word>, shifts: Shifts, n: nat, d: nat)
    requires InRange(g) && Ssa(Lowered(g)) && Integral(g) && Labelled(Patched(g), terms) && |g| <= 0xFFFE
    requires Produced(g, code, sel, bds, p) && ReturnsNode(g, n, d)
    requires Preset(g, env, mregs) && Rel(mregs, regs, p.regCount - 1)
    requires OperationsDefined(g, Vals(terms, env, Machine(true)), n) && Eval(terms[d], env, Machine(true)) != Undef
    ensures Eval(terms[d], env, Source(false)) != Undef
    ensures var last := RunFor(p, Running(regs, 0), |p.instrs|, shifts);
            last.Finished? && |last.regs| > 0 && last.regs[0] == Box(Eval(terms[d], env, Source(false)))
  {
    ProducedCompiles(g, code, sel, bds, p);
    PatchedReturns(g, terms, env, true, mregs, n);
    var start := Lowered(g).blocks[0];
    SoundShipped();
    LoweredFacts(g);
    TunedBlockKept(start);
    KeptResult(ShippedPeephole(), [start], [code], 0, mregs, MachineOps(true));
    Simulates(code, sel, bds, p, shifts, mregs, regs);
    MachineAgrees(terms[d], env, true);
  }

  /** What a constant or null input is compiled to. */
  function ConstantOf(g: Nodes, input: Option<nat>): (v: Value)
    ensures !v.Bool?
  {
    if input.None? then Int(0)
    else if input.value >= |g| then Undef
    else
      var node := g[input.value];
      match node.kind
      case ConstInt => Int(Wrap(PayloadInt(node.payload)))
      case ConstBool => Int(if PayloadBool(node.payload) then 1 else 0)
      case ConstFloat => Float(PayloadBits(node.payload))
      case UndefNode => Int(0)
      case _ => Undef
  }

  lemma {:induction false} ConstantValue(g: Nodes, terms: seq<Term>, env: Env, sem: Sem, n: nat, d: nat)
    requires InRange(g) && Labelled(Patched(g), terms) && ReturnsNode(g, n, d) && ConstantOf(g, g[n].inputs[1]) != Undef
    ensures Eval(terms[d], env, sem) == ConstantOf(g, g[n].inputs[1])
  {
    assert LabelAt(Patched(g), terms, d);
    if d < |g| {
      assert Patched(g)[d] == PatchedNode(g, d);
    }
  }

  /** A program whose first return reads a constant or nothing ends with that
      constant: booleans are 1 and 0, undefined and null inputs are 0, and none
      of these words is the one a comparison leaves. */
  lemma {:induction false} ConstantReturned(g: Nodes, code: seq<Inst>, sel: seq<Selected>, bds: seq<Builder>, p: Prototype,
                                            terms: seq<Term>, env: Env, mregs: Regs, regs: seq<Word>, shifts: Shifts, n: nat, d: nat)
    requires InRange(g) && Ssa(Lowered(g)) && Integral(g) && Labelled(Patched(g), terms) && |g| <= 0xFFFE
    requires Produced(g, code, sel, bds, p) && ReturnsNode(g, n, d) && ConstantOf(g, g[n].inputs[1]) != Undef
    requires Preset(g, env, mregs) && Rel(mregs, regs, p.regCount - 1)
    requires OperationsDefined(g, Vals(terms, env, Machine(true)), n)
    ensures var last, v := RunFor(p, Running(regs, 0), |p.instrs|, shifts), ConstantOf(g, g[n].inputs[1]);
            && last.Finished? && |last.regs| > 0 && last.regs[0] == (if v.Float? then v.bits else BoxInt(v.i))
            && (v.Int? ==> !IsBool(last.regs[0]))
  {
    ConstantValue(g, terms, env, Machine(true), n, d);
    ConstantValue(g, terms, env, Source(false), n, d);
    ConstantBoxed(ConstantOf(g, g[n].inputs[1]));
    ProgramCorrect(g, code, sel, bds, p, terms, env, mregs, regs, shifts, n, d);
  }

  lemma {:induction false} ConstantBoxed(v: Value)
    requires v != Undef && !v.Bool?
    ensures Box(v) == (if v.Float? then v.bits else BoxInt(v.i)) && (v.Int? ==> !IsBool(Box(v)))
  {
    if v.Int? {
      BoxIntTag(v.i);
    }
  }

  // ----- The chain as a method -----

  /** The stream the encoder walks. */
  function Stream(instrs: seq<T.TosInst>): (code: seq<Selected>)
    ensures |code| == |instrs| && forall k :: 0 <= k < |instrs| ==> code[k] == instrs[k].inst
  {
    seq(|instrs|, k requires 0 <= k < |instrs| => instrs[k].inst)
  }

  lemma {:induction false} OneBlockStream(blocks: seq<T.TosBlock>, instrs: seq<T.TosInst>, m: T.MdsBlock)
    requires |blocks| == 1 && S.Contiguous(blocks, instrs) && S.Carries(blocks, instrs, 0, m)
    ensures Stream(instrs) == m.code
  {
    assert S.Offset(blocks, 0) == 0 && S.Offset(blocks, 1) == |instrs|;
    forall k | 0 <= k < |instrs|
      ensures Stream(instrs)[k] == m.code[k]
    {
      assert instrs[S.Offset(blocks, 0) + k].inst == m.code[k];
    }
  }

  /** A program of one block keeps its code through layout. */
  method LayOut(sel: seq<Selected>) returns (stream: seq<Selected>)
    ensures stream == sel
  {
    var m := T.MdsBlock(0, sel, []);
    var program := new S.Program([m]);
    ghost var blocks, instrs := program.blocks, program.instrs;
    assert S.Carries(blocks, instrs, 0, [m][0]);
    OneBlockStream(blocks, instrs, m);
    var ok, order := program.Finalize();
    assert order[0] == 0;
    ghost var v := S.View(blocks, instrs, 0);
    assert S.Carries(program.blocks, program.instrs, 0, S.Views(blocks, instrs, order)[0]);
    OneBlockStream(program.blocks, program.instrs, v);
    OneBlockStream(blocks, instrs, v);
    stream := Stream(program.instrs);
  }

  lemma {:induction false} EmitsAlways(sel: seq<Selected>)
    requires AllShaped(sel)
    ensures !exists n, bd :: 0 <= n < |sel| && EmitInst(bd, sel[n]).None?
  {
    forall n, bd | 0 <= n < |sel|
      ensures EmitInst(bd, sel[n]).Some?
    {
      assert Shaped(sel[n]);
      ShapedEmits(bd, sel[n]);
    }
  }

  ghost predicate IsProgramOf(g: Nodes, p: Prototype)
    requires InRange(g)
  {
    exists code, sel, bds :: Produced(g, code, sel, bds, p)
  }

  /** Compiles a graph, checking the code after each stage as the driver does.
      There is a result exactly when every read slot is accepted and every node
      compiles; it is what `ProgramCorrect` is about. */
  method Compile(g: Nodes, name: seq<Byte>, source: seq<Byte>)
    returns (out: Option<Prototype>, ghost code: seq<Inst>, ghost sel: seq<Selected>, ghost bds: seq<Builder>)
    requires InRange(g)
    ensures out.Some? ==> Accepted(g) && Compiles(g)
    ensures Accepted(g) && Compiles(g) && |g| <= 0xFFFE ==> out.Some?
    ensures out.Some? ==> Produced(g, code, sel, bds, out.value) && IsProgramOf(g, out.value) && Bytecode.Verified(out.value)
    ensures out.Some? ==> out.value.name == Some(name) && out.value.source == Some(source) && Encoder.Plain(out.value)
  {
    LoweredFacts(g);
    LoweredSsaIff(g);
    SelectableIff(g);
    ShippedCooling();
    bds, sel, code := [], [], [];
    var f := Lower(g);
    var ssa := VerifySsa(f);
    if !ssa {
      return None, code, sel, bds;
    }
    var optimized := OptimizeBlock(ShippedPeephole(), f.blocks[0]);
    code := optimized;
    ssa := VerifySsa(f.(blocks := [optimized]));
    assert ssa;
    var selected := SelectProgram([optimized]);
    if selected.None? {
      assert exists b :: 0 <= b < |[optimized]| && !Selectable([optimized][b]);
      return None, code, sel, bds;
    }
    assert Selectable([optimized][0]);
    sel := selected.value[0];
    assert Selects([optimized][0], sel);
    var stream := LayOut(selected.value[0]);
    out, bds := PrototypeFromTos(stream, name, source);
    PassKeepsShape(f.blocks[0], code);
    SelectedShaped(code, sel);
    EmitsAlways(sel);
    assert Produced(g, code, sel, bds, out.value);
    var verified := VerifyPrototype(out.value);
    if |g| <= 0xFFFE {
      ProducedCompiles(g, code, sel, bds, out.value);
    }
    if !verified {
      out := None;
    }
  }

  /** Runs a jump-free program on a fresh machine whose low registers hold the
      arguments, and reads register 0. */
  method RunProgram(p: Prototype, args: seq<Word>, shifts: Shifts) returns (ok: bool, result: Word)
    requires |args| <= 0xFFFF && JumpFree(p) && Bytecode.Verified(p) && p.regCount > 0
    ensures var last := RunFor(p, Running(V.Frame(args, p.regCount), 0), |p.instrs|, shifts);
            InFrame(p, last) && ok == !last.Rejected? && result == last.regs[0]
  {
    var vm := new V.Machine();
    var i := 0;
    while i < |args|
      invariant 0 <= i <= |args| && vm.Valid() && fresh(vm) && fresh(vm.stack) && vm.Contents() == args[..i]
    {
      vm.SetReg(i, args[i]);
      i := i + 1;
    }
    assert args[..i] == args;
    var halted, faulted;
    ok, halted, faulted := vm.Execute(p, |p.instrs|, shifts);
    RunSafe(p, Running(V.Frame(args, p.regCount), 0), |p.instrs|, shifts);
    JumpFreeHalts(p, V.Frame(args, p.regCount), shifts);
    result := vm.GetReg(0);
  }

  // ----- Parameters -----

  /** The value of the parameter that lowering put in register `r`. */
  ghost function ParamAt(g: Nodes, env: Env, r: nat, n: nat): Value
    requires n <= |g|
  {
    if n == 0 then Undef
    else if g[n - 1].kind == Param && ParamsBefore(g, n - 1) == r then env(PayloadIndex(g[n - 1].payload))
    else ParamAt(g, env, r, n - 1)
  }

  ghost function ParamRegs(g: Nodes, env: Env): Regs {
    (r: nat) => ParamAt(g, env, r, |g|)
  }

  lemma {:induction false} ParamFound(g: Nodes, env: Env, d: nat, n: nat)
    requires d < n <= |g| && g[d].kind == Param
    ensures ParamAt(g, env, ParamsBefore(g, d), n) == env(PayloadIndex(g[d].payload))
    decreases n
  {
    if d < n - 1 {
      ParamFound(g, env, d, n - 1);
      ParamsMonotone(g, d + 1, n - 1);
    }
  }

  /** The arguments are the boxed parameter values, in node order. */
  ghost predicate Arguments(g: Nodes, env: Env, args: seq<Word>) {
    forall d: nat :: d < |g| && g[d].kind == Param ==> ArgumentFor(g, env, args, d)
  }

  ghost predicate ArgumentFor(g: Nodes, env: Env, args: seq<Word>, d: nat)
    requires d < |g|
  {
    var v := env(PayloadIndex(g[d].payload));
    v != Undef ==> ParamsBefore(g, d) < |args| && args[ParamsBefore(g, d)] == Box(v)
  }

  lemma {:induction false} ParamHeld(g: Nodes, env: Env, args: seq<Word>, r: nat, n: nat)
    requires n <= |g| && Arguments(g, env, args) && ParamAt(g, env, r, n) != Undef
    ensures r < |args| && args[r] == Box(ParamAt(g, env, r, n))
  {
    if g[n - 1].kind == Param && ParamsBefore(g, n - 1) == r {
      assert ArgumentFor(g, env, args, n - 1);
    } else {
      ParamHeld(g, env, args, r, n - 1);
    }
  }

  /** Preset parameter registers survive the frame set-up. */
  lemma {:induction false} ParamsSurvive(g: Nodes, env: Env, args: seq<Word>, regCount: nat)
    requires Arguments(g, env, args) && regCount > 0
    ensures Preset(g, env, ParamRegs(g, env)) && Rel(ParamRegs(g, env), V.Frame(args, regCount), regCount - 1)
  {
    var mregs := ParamRegs(g, env);
    forall d: nat | d < |g| && g[d].kind == Param
      ensures mregs(ParamsBefore(g, d)) == env(PayloadIndex(g[d].payload))
    {
      ParamFound(g, env, d, |g|);
    }
    forall r: nat | r < regCount - 1
      ensures HoldsAt(mregs, V.Frame(args, regCount), r)
    {
      if mregs(r) != Undef {
        ParamHeld(g, env, args, r, |g|);
      }
    }
  }

  /** Compiles and runs a graph. There is an answer exactly when every read slot
      is accepted and every node compiles, and it is the value of the returned
      node, in the graph that lowering translates. */
  method Evaluate(g: Nodes, args: seq<Word>, shifts: Shifts, ghost terms: seq<Term>, ghost env: Env, ghost n: nat, ghost d: nat)
    returns (result: Option<Word>)
    requires InRange(g) && Integral(g) && Labelled(Patched(g), terms) && |g| <= 0xFFFE && |args| <= 0xFFFF
    requires ReturnsNode(g, n, d) && Arguments(g, env, args)
    requires OperationsDefined(g, Vals(terms, env, Machine(true)), n) && Eval(terms[d], env, Machine(true)) != Undef
    ensures Eval(terms[d], env, Source(false)) != Undef
    ensures result.Some? <==> Accepted(g) && Compiles(g)
    ensures result.Some? ==> result.value == Box(Eval(terms[d], env, Source(false)))
  {
    MachineAgrees(terms[d], env, true);
    var out, code, sel, bds := Compile(g, [], []);
    if out.None? {
      return None;
    }
    var p := out.value;
    LoweredSsaIff(g);
    ProducedCompiles(g, code, sel, bds, p);
    ParamsSurvive(g, env, args, p.regCount);
    ProgramCorrect(g, code, sel, bds, p, terms, env, ParamRegs(g, env), V.Frame(args, p.regCount), shifts, n, d);
    var ok, word := RunProgram(p, args, shifts);
    result := Some(word);
  }
}
