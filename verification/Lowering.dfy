/**
 Lowering a WIL graph to one block of MAL: one pass over the nodes in index
 order, with a table from nodes to registers.
 */
module Lowering {
  import opened Wrappers
  import opened Values
  import opened Terms
  import opened WilGraph
  import opened Unfolding
  import opened Mal

  function TypeFrom(t: Type): MalType {
    match t
    case I1 => I1T
    case I8 => I8T
    case I16 => I16T
    case I32 => I32T
    case I64 => I64T
    case F32 => F32T
    case F64 => F64T
    case Ptr => PtrT
    case Void => VoidT
    case Control => VoidT
  }

  predicate IsFloat(t: Type) {
    t == F32 || t == F64
  }

  function OpcodeFrom(k: Kind, t: Type): Opcode {
    match k
    case Add => if IsFloat(t) then FAddOp else AddOp
    case Sub => if IsFloat(t) then FSubOp else SubOp
    case Mul => if IsFloat(t) then FMulOp else MulOp
    case Div => if IsFloat(t) then FDivOp else SDivOp
    case Mod => SRemOp
    case Neg => if IsFloat(t) then FNegOp else NegOp
    case Abs => if IsFloat(t) then FAbsOp else Target
    case And => AndOp
    case Or => OrOp
    case Xor => XorOp
    case Not => NotOp
    case Shl => ShlOp
    case Shr => AShrOp
    case Eq => ICmpEq
    case Ne => ICmpNe
    case Lt => ICmpSlt
    case Le => ICmpSle
    case Gt => ICmpSgt
    case Ge => ICmpSge
    case Select => SelectOp
    case Cast => SExtOp
    case Bitcast => BitcastOp
    case Return => Ret
    case _ => Target
  }

  predicate IsConst(k: Kind) {
    k.ConstInt? || k.ConstFloat? || k.ConstBool? || k.UndefNode?
  }

  /** Kinds that lower to nothing. */
  predicate IsSkipped(k: Kind) {
    IsConst(k) || k.Start? || k.Region? || k.If? || k.Loop? || k.Jump? || k.Proj?
  }

  /** Kinds that lower to one instruction with a fresh register. */
  predicate IsOperation(k: Kind) {
    !IsSkipped(k) && !k.Param? && !k.Return?
  }

  function ParamsBefore(g: Nodes, n: nat): nat
    requires n <= |g|
  {
    if n == 0 then 0 else ParamsBefore(g, n - 1) + (if g[n - 1].kind == Param then 1 else 0)
  }

  lemma {:induction false} ParamsMonotone(g: Nodes, n: nat, m: nat)
    requires n <= m <= |g|
    ensures ParamsBefore(g, n) <= ParamsBefore(g, m)
    decreases m
  {
    if n < m {
      ParamsMonotone(g, n, m - 1);
    }
  }

  // ----- The translation -----

  datatype State = State(nextReg: nat, nextParam: nat, nodeRegs: seq<nat>, retType: MalType, code: seq<Inst>)

  function OperandFrom(g: Nodes, nodeRegs: seq<nat>, input: Option<nat>): Operand
    requires |nodeRegs| == |g| && (input.Some? ==> input.value < |g|)
  {
    if input.None? then ImmInt(0, I32T)
    else
      var node := g[input.value];
      match node.kind
      case ConstFloat => ImmFloat(PayloadBits(node.payload), TypeFrom(node.ty))
      case ConstBool => ImmInt(if PayloadBool(node.payload) then 1 else 0, I1T)
      case ConstInt => ImmInt(PayloadInt(node.payload), TypeFrom(node.ty))
      case UndefNode => ImmInt(0, TypeFrom(node.ty))
      case _ => Reg(nodeRegs[input.value], TypeFrom(node.ty))
  }

  function InputType(g: Nodes, input: Option<nat>): MalType
    requires input.Some? ==> input.value < |g|
  {
    if input.None? then VoidT else TypeFrom(g[input.value].ty)
  }

  predicate InputsIn(g: Nodes, node: Node) {
    |node.edges| == |node.inputs| && forall k :: 0 <= k < |node.inputs| && node.inputs[k].Some? ==> node.inputs[k].value < |g|
  }

  /** Operands from the first `n` inputs, less those that come over control edges. */
  function OperandsFrom(g: Nodes, nodeRegs: seq<nat>, node: Node, n: nat): seq<Operand>
    requires |nodeRegs| == |g| && InputsIn(g, node) && n <= |node.inputs|
  {
    if n == 0 then []
    else
      OperandsFrom(g, nodeRegs, node, n - 1)
      + (if node.edges[n - 1] == ControlEdge then [] else [OperandFrom(g, nodeRegs, node.inputs[n - 1])])
  }

  /** A value that is not in a register is copied to one first. */
  function ReturnCode(st: State, operand: Operand, ty: MalType): seq<Inst> {
    if operand.Reg? then [Inst(|st.code|, Ret, VoidT, None, [operand])]
    else [Inst(|st.code|, Copy, ty, Some(st.nextReg), [operand]),
          Inst(|st.code| + 1, Ret, VoidT, None, [Reg(st.nextReg, ty)])]
  }

  function LowerReturn(g: Nodes, st: State, n: nat): State
    requires n < |g| && InRange(g) && |st.nodeRegs| == |g|
  {
    var node := g[n];
    if |node.inputs| > 1 then
      var ty := InputType(g, node.inputs[1]);
      var operand := OperandFrom(g, st.nodeRegs, node.inputs[1]);
      st.(nextReg := if operand.Reg? then st.nextReg else st.nextReg + 1, retType := ty,
          code := st.code + ReturnCode(st, operand, ty))
    else
      st.(code := st.code + [Inst(|st.code|, Ret, VoidT, None, [])])
  }

  function LowerOperation(g: Nodes, st: State, n: nat): State
    requires n < |g| && InRange(g) && |st.nodeRegs| == |g|
  {
    var node := g[n];
    var operands :=
      if node.kind == Cast || node.kind == Bitcast then
        [OperandFrom(g, st.nodeRegs, if node.inputs == [] then None else node.inputs[0]), TypeRef(TypeFrom(node.ty))]
      else OperandsFrom(g, st.nodeRegs, node, |node.inputs|);
    var inst := Inst(|st.code|, OpcodeFrom(node.kind, node.ty), TypeFrom(node.ty), Some(st.nextReg), operands);
    st.(nextReg := st.nextReg + 1, nodeRegs := st.nodeRegs[n := st.nextReg], code := st.code + [inst])
  }

  function LowerParam(st: State, n: nat): State
    requires n < |st.nodeRegs|
  {
    st.(nodeRegs := st.nodeRegs[n := st.nextParam], nextParam := st.nextParam + 1)
  }

  function LowerNode(g: Nodes, st: State, n: nat): (r: State)
    requires n < |g| && InRange(g) && |st.nodeRegs| == |g|
    ensures |r.nodeRegs| == |g|
  {
    var k := g[n].kind;
    if IsSkipped(k) then st
    else if k == Param then LowerParam(st, n)
    else if k == Return then LowerReturn(g, st, n)
    else LowerOperation(g, st, n)
  }

  function LowerUpTo(g: Nodes, n: nat): (st: State)
    requires n <= |g| && InRange(g)
    ensures |st.nodeRegs| == |g|
  {
    if n == 0 then State(ParamsBefore(g, |g|), 0, seq(|g|, _ => 0), VoidT, [])
    else LowerNode(g, LowerUpTo(g, n - 1), n - 1)
  }

  function Lowered(g: Nodes): Function
    requires InRange(g)
  {
    var st := LowerUpTo(g, |g|);
    Function(ParamsBefore(g, |g|), st.nextReg, st.retType, [st.code])
  }

  /** The lowering pass: counts parameters, then walks the nodes. */
  method Lower(g: Nodes) returns (f: Function)
    requires InRange(g)
    ensures f == Lowered(g)
  {
    var paramCount := 0;
    var index := 0;
    while index < |g|
      invariant 0 <= index <= |g| && paramCount == ParamsBefore(g, index)
    {
      if g[index].kind == Param {
        paramCount := paramCount + 1;
      }
      index := index + 1;
    }
    var st := State(paramCount, 0, seq(|g|, _ => 0), VoidT, []);
    index := 0;
    while index < |g|
      invariant 0 <= index <= |g| && st == LowerUpTo(g, index)
    {
      st := LowerNode(g, st, index);
      index := index + 1;
    }
    f := Function(paramCount, st.nextReg, st.retType, [st.code]);
  }

  // ----- Which graphs lower well -----

  /** An input the pass can turn into an operand by the time it reaches `n`. */
  predicate Ready(g: Nodes, n: nat, input: Option<nat>) {
    input.Some? ==> input.value < |g| && (IsConst(g[input.value].kind)
                                          || (input.value < n && (g[input.value].kind == Param || IsOperation(g[input.value].kind))))
  }

  /** Whether lowering reads slot `k`: returns read slot 1, casts slot 0, other
      operations all slots but those of control edges. */
  predicate Reads(n: Node, k: nat)
    requires |n.edges| == |n.inputs| && k < |n.inputs|
  {
    if n.kind == Return then k == 1
    else if n.kind == Cast || n.kind == Bitcast then k == 0
    else IsOperation(n.kind) && n.edges[k] != ControlEdge
  }

  /** Index order: every operand is a constant, or a parameter or operation of
      smaller index. */
  ghost predicate IndexOrdered(g: Nodes) {
    forall n :: 0 <= n < |g| ==> NodeOrdered(g, n)
  }

  ghost predicate NodeOrdered(g: Nodes, n: nat)
    requires n < |g|
  {
    && |g[n].edges| == |g[n].inputs|
    && forall k :: 0 <= k < |g[n].inputs| && Reads(g[n], k) ==> Ready(g, n, g[n].inputs[k])
  }

  /** The node lowers to an instruction that writes a register: an operation, or
      the return of a value that is not in one. */
  predicate Emits(g: Nodes, n: nat)
    requires n < |g|
  {
    IsOperation(g[n].kind) || (g[n].kind == Return && |g[n].inputs| > 1 && IsImmediate(g, g[n].inputs[1]))
  }

  predicate IsImmediate(g: Nodes, input: Option<nat>) {
    input.Some? ==> input.value < |g| && IsConst(g[input.value].kind)
  }

  /** Register 0 is defined by the time the pass reaches `n`. */
  ghost predicate ZeroDefined(g: Nodes, n: nat)
    requires n <= |g|
  {
    ParamsBefore(g, |g|) > 0 || exists d: nat :: d < n && Emits(g, d)
  }

  /** A node that is not ready has register 0 in the table, so reading it early
      passes for a definition once there is a register 0. */
  ghost predicate Acceptable(g: Nodes, n: nat, input: Option<nat>)
    requires n <= |g|
  {
    Ready(g, n, input) || ZeroDefined(g, n)
  }

  ghost predicate NodeAccepted(g: Nodes, n: nat)
    requires n < |g|
  {
    && |g[n].edges| == |g[n].inputs|
    && forall k :: 0 <= k < |g[n].inputs| && Reads(g[n], k) ==> Acceptable(g, n, g[n].inputs[k])
  }

  ghost predicate Accepted(g: Nodes) {
    forall n :: 0 <= n < |g| ==> NodeAccepted(g, n)
  }

  lemma {:induction false} OrderedAccepted(g: Nodes)
    requires IndexOrdered(g)
    ensures Accepted(g)
  {
    forall n: nat | n < |g|
      ensures NodeAccepted(g, n)
    {
      assert NodeOrdered(g, n);
    }
  }

  lemma {:induction false} ZeroNext(g: Nodes, n: nat)
    requires n < |g|
    ensures ZeroDefined(g, n + 1) <==> ZeroDefined(g, n) || Emits(g, n)
  {
  }

  // ----- Runs of the pass -----

  /** `sts[n]` is the state of the pass after `n` nodes. */
  ghost predicate Trace(g: Nodes, sts: seq<State>)
    requires InRange(g)
  {
    |sts| == |g| + 1 && Starting(g, sts[0]) && forall n :: 0 <= n < |g| ==> StepAt(g, sts, n)
  }

  ghost predicate Starting(g: Nodes, st: State) {
    st == State(ParamsBefore(g, |g|), 0, seq(|g|, _ => 0), VoidT, [])
  }

  ghost predicate StepAt(g: Nodes, sts: seq<State>, n: nat)
    requires InRange(g) && n < |g| && n + 1 < |sts|
  {
    |sts[n].nodeRegs| == |g| && sts[n + 1] == LowerNode(g, sts[n], n)
  }

  lemma {:induction false} TraceExists(g: Nodes) returns (sts: seq<State>)
    requires InRange(g)
    ensures Trace(g, sts) && sts[|g|] == LowerUpTo(g, |g|)
  {
    sts := seq(|g| + 1, n requires 0 <= n <= |g| => LowerUpTo(g, n));
    forall n: nat | n < |g|
      ensures StepAt(g, sts, n)
    {
      assert sts[n + 1] == LowerUpTo(g, n + 1);
    }
  }

  ghost predicate Starts(a: seq<Inst>, b: seq<Inst>) {
    |a| <= |b| && forall j :: 0 <= j < |a| ==> a[j] == b[j]
  }

  lemma {:induction false} NodeAppends(g: Nodes, st: State, n: nat)
    requires n < |g| && InRange(g) && |st.nodeRegs| == |g|
    ensures Starts(st.code, LowerNode(g, st, n).code)
  {
  }

  lemma {:induction false} CodeGrows(g: Nodes, sts: seq<State>, n: nat, m: nat)
    requires InRange(g) && Trace(g, sts) && n <= m <= |g|
    ensures Starts(sts[n].code, sts[m].code)
    decreases m
  {
    if n < m {
      CodeGrows(g, sts, n, m - 1);
      StepAppends(g, sts, m - 1);
    }
  }

  lemma {:induction false} StepAppends(g: Nodes, sts: seq<State>, n: nat)
    requires InRange(g) && Trace(g, sts) && n < |g|
    ensures Starts(sts[n].code, sts[n + 1].code)
  {
    assert StepAt(g, sts, n);
    NodeAppends(g, sts[n], n);
  }

  // ----- The register table -----

  predicate HasReg(k: Kind) {
    k == Param || IsOperation(k)
  }

  /** Nodes the pass has not given a register have 0, and so has the operation
      that defines register 0. */
  ghost predicate Table(g: Nodes, n: nat, nodeRegs: seq<nat>)
    requires n <= |g|
  {
    && |nodeRegs| == |g|
    && (forall d: nat :: d < |g| && (d >= n || !HasReg(g[d].kind)) ==> nodeRegs[d] == 0)
    && (forall o: nat :: o < n ==> OwnerAtZero(g, nodeRegs, o))
  }

  ghost predicate OwnerAtZero(g: Nodes, nodeRegs: seq<nat>, o: nat)
    requires o < |g| == |nodeRegs|
  {
    IsOperation(g[o].kind) && !ZeroDefined(g, o) ==> nodeRegs[o] == 0
  }

  ghost predicate NoDst(code: seq<Inst>, from: nat) {
    forall j :: from <= j < |code| ==> code[j].dst.None?
  }

  /** Whether register 0 is written can be told from the graph. */
  ghost predicate Zero(g: Nodes, n: nat, st: State)
    requires n <= |g|
  {
    && (ZeroDefined(g, n) ==> st.nextReg > 0 && DefinedBefore(ParamsBefore(g, |g|), st.code, |st.code|, 0))
    && (!ZeroDefined(g, n) ==> st.nextReg == 0 && NoDst(st.code, 0))
  }

  lemma {:induction false} DefinedMore(params: nat, code: seq<Inst>, longer: seq<Inst>, r: nat)
    requires Starts(code, longer) && DefinedBefore(params, code, |code|, r)
    ensures DefinedBefore(params, longer, |longer|, r)
  {
    if r >= params {
      var j :| 0 <= j < |code| && code[j].dst == Some(r);
      assert longer[j].dst == Some(r);
    }
  }

  /** What one node adds to the code. */
  lemma {:induction false} NodeEmits(g: Nodes, st: State, n: nat, r: State)
    requires n < |g| && InRange(g) && |st.nodeRegs| == |g| && r == LowerNode(g, st, n)
    ensures Emits(g, n) ==> r.nextReg == st.nextReg + 1 && |r.code| > |st.code| && r.code[|st.code|].dst == Some(st.nextReg)
    ensures !Emits(g, n) ==> r.nextReg == st.nextReg && NoDst(r.code, |st.code|)
  {
  }

  lemma {:induction false} NodeZero(g: Nodes, st: State, n: nat, r: State)
    requires n < |g| && InRange(g) && |st.nodeRegs| == |g| && r == LowerNode(g, st, n) && Zero(g, n, st)
    ensures Zero(g, n + 1, r)
  {
    NodeEmits(g, st, n, r);
    NodeAppends(g, st, n);
    ZeroNext(g, n);
    if ZeroDefined(g, n) {
      DefinedMore(ParamsBefore(g, |g|), st.code, r.code, 0);
    } else if !Emits(g, n) {
      forall j | 0 <= j < |r.code|
        ensures r.code[j].dst.None?
      {
        if j < |st.code| {
          assert r.code[j] == st.code[j];
        }
      }
    }
  }

  lemma {:induction false} NodeTable(g: Nodes, st: State, n: nat, r: State)
    requires n < |g| && InRange(g) && Table(g, n, st.nodeRegs) && Zero(g, n, st) && r == LowerNode(g, st, n)
    ensures Table(g, n + 1, r.nodeRegs)
  {
    forall o: nat | o < n + 1
      ensures OwnerAtZero(g, r.nodeRegs, o)
    {
      if o < n {
        assert OwnerAtZero(g, st.nodeRegs, o);
      }
    }
  }

  lemma {:induction false} TableInv(g: Nodes, sts: seq<State>, n: nat)
    requires InRange(g) && Trace(g, sts) && n <= |g|
    ensures Table(g, n, sts[n].nodeRegs) && Zero(g, n, sts[n])
  {
    if n > 0 {
      TableInv(g, sts, n - 1);
      StepTable(g, sts, n - 1);
    }
  }

  lemma {:induction false} StepTable(g: Nodes, sts: seq<State>, n: nat)
    requires InRange(g) && Trace(g, sts) && n < |g| && Table(g, n, sts[n].nodeRegs) && Zero(g, n, sts[n])
    ensures Table(g, n + 1, sts[n + 1].nodeRegs) && Zero(g, n + 1, sts[n + 1])
  {
    assert StepAt(g, sts, n);
    NodeZero(g, sts[n], n, sts[n + 1]);
    NodeTable(g, sts[n], n, sts[n + 1]);
  }

  // ----- Numbers and the return type -----

  /** Instructions are numbered in order. */
  ghost predicate Numbered(code: seq<Inst>) {
    forall j :: 0 <= j < |code| ==> code[j].id == j
  }

  /** The last return among the first `n` nodes that has a value. */
  ghost function LastValueReturn(g: Nodes, n: nat): Option<nat>
    requires n <= |g|
  {
    if n == 0 then None
    else if g[n - 1].kind == Return && |g[n - 1].inputs| > 1 then Some(n - 1)
    else LastValueReturn(g, n - 1)
  }

  lemma {:induction false} NodeNumbered(g: Nodes, st: State, n: nat, r: State)
    requires n < |g| && InRange(g) && |st.nodeRegs| == |g| && r == LowerNode(g, st, n) && Numbered(st.code)
    ensures Numbered(r.code)
    ensures r.retType == if g[n].kind == Return && |g[n].inputs| > 1 then InputType(g, g[n].inputs[1]) else st.retType
  {
  }

  lemma {:induction false} LoweredNumbered(g: Nodes, sts: seq<State>, n: nat)
    requires InRange(g) && Trace(g, sts) && n <= |g|
    ensures Numbered(sts[n].code)
    ensures var last := LastValueReturn(g, n);
            match last
            case None => sts[n].retType == VoidT
            case Some(r) => r < n && |g[r].inputs| > 1 && sts[n].retType == InputType(g, g[r].inputs[1])
  {
    if n > 0 {
      LoweredNumbered(g, sts, n - 1);
      assert StepAt(g, sts, n - 1);
      NodeNumbered(g, sts[n - 1], n - 1, sts[n]);
    }
  }

  // ----- When the result is in SSA form -----

  /** What holds after `n` nodes: the code so far is in SSA form, and every
      parameter and operation passed has a defined register. */
  ghost predicate Inv(g: Nodes, n: nat, st: State)
    requires n <= |g|
  {
    var params := ParamsBefore(g, |g|);
    && |st.nodeRegs| == |g| && st.nextParam == ParamsBefore(g, n) && st.nextReg >= params
    && SsaCode(params, st.nextReg, st.code)
    && (forall j :: 0 <= j < |st.code| && st.code[j].dst.Some? ==> st.code[j].dst.value < st.nextReg)
    && (forall d :: 0 <= d < n && HasReg(g[d].kind) ==> RegDefined(g, st, d))
    && (forall d :: 0 <= d < n && g[d].kind == Param ==> st.nodeRegs[d] == ParamsBefore(g, d))
  }

  ghost predicate RegDefined(g: Nodes, st: State, d: nat)
    requires d < |st.nodeRegs|
  {
    st.nodeRegs[d] < st.nextReg && DefinedBefore(ParamsBefore(g, |g|), st.code, |st.code|, st.nodeRegs[d])
  }

  lemma {:induction false} OperandReady(g: Nodes, n: nat, st: State, input: Option<nat>)
    requires n <= |g| && Inv(g, n, st) && Table(g, n, st.nodeRegs) && Zero(g, n, st)
    requires (input.Some? ==> input.value < |g|) && Acceptable(g, n, input)
    ensures OperandDefined(ParamsBefore(g, |g|), st.nextReg, st.code, |st.code|, OperandFrom(g, st.nodeRegs, input))
  {
    if input.Some? && !IsConst(g[input.value].kind) && Ready(g, n, input) {
      assert RegDefined(g, st, input.value);
    }
  }

  lemma {:induction false} OperandsReady(g: Nodes, n: nat, st: State, node: Node, m: nat)
    requires n <= |g| && Inv(g, n, st) && Table(g, n, st.nodeRegs) && Zero(g, n, st)
    requires InputsIn(g, node) && m <= |node.inputs|
    requires forall k :: 0 <= k < m && node.edges[k] != ControlEdge ==> Acceptable(g, n, node.inputs[k])
    ensures forall k :: 0 <= k < |OperandsFrom(g, st.nodeRegs, node, m)| ==>
              OperandDefined(ParamsBefore(g, |g|), st.nextReg, st.code, |st.code|, OperandsFrom(g, st.nodeRegs, node, m)[k])
  {
    if m > 0 {
      OperandsReady(g, n, st, node, m - 1);
      if node.edges[m - 1] != ControlEdge {
        OperandReady(g, n, st, node.inputs[m - 1]);
      }
    }
  }

  /** Appending an instruction whose operands are defined keeps the invariant. */
  lemma {:induction false} EmitKeeps(g: Nodes, n: nat, st: State, inst: Inst)
    requires n <= |g| && Inv(g, n, st)
    requires inst.dst == None || inst.dst == Some(st.nextReg)
    requires forall k :: 0 <= k < |inst.operands| ==>
               OperandDefined(ParamsBefore(g, |g|), st.nextReg, st.code, |st.code|, inst.operands[k])
    ensures var r := st.(nextReg := if inst.dst.Some? then st.nextReg + 1 else st.nextReg, code := st.code + [inst]);
            Inv(g, n, r)
            && (inst.dst.Some? ==> DefinedBefore(ParamsBefore(g, |g|), r.code, |r.code|, st.nextReg))
  {
    var params := ParamsBefore(g, |g|);
    var r := st.(nextReg := if inst.dst.Some? then st.nextReg + 1 else st.nextReg, code := st.code + [inst]);
    assert !DefinedBefore(params, st.code, |st.code|, st.nextReg);
    SsaAppend(params, st.nextReg, st.code, inst, r.nextReg);
    forall d: nat | d < n && HasReg(g[d].kind)
      ensures RegDefined(g, r, d)
    {
      assert RegDefined(g, st, d);
      if st.nodeRegs[d] >= params {
        var j :| 0 <= j < |st.code| && st.code[j].dst == Some(st.nodeRegs[d]);
        assert r.code[j].dst == Some(st.nodeRegs[d]);
      }
    }
    if inst.dst.Some? {
      assert r.code[|st.code|].dst == Some(st.nextReg);
    }
  }

  lemma {:induction false} StartInv(g: Nodes, st: State)
    requires Starting(g, st)
    ensures Inv(g, 0, st)
  {
  }

  lemma {:induction false} LowerInv(g: Nodes, sts: seq<State>, n: nat)
    requires InRange(g) && Accepted(g) && Trace(g, sts) && n <= |g|
    ensures Inv(g, n, sts[n])
  {
    if n == 0 {
      StartInv(g, sts[0]);
    } else {
      LowerInv(g, sts, n - 1);
      InvNext(g, sts, n);
    }
  }

  lemma {:induction false} InvNext(g: Nodes, sts: seq<State>, n: nat)
    requires InRange(g) && Accepted(g) && Trace(g, sts) && 0 < n <= |g| && Inv(g, n - 1, sts[n - 1])
    ensures Inv(g, n, sts[n])
  {
    TableInv(g, sts, n - 1);
    StepInv(g, sts, n);
  }

  lemma {:induction false} StepInv(g: Nodes, sts: seq<State>, n: nat)
    requires InRange(g) && 0 < n <= |g| && n < |sts| && NodeAccepted(g, n - 1) && StepAt(g, sts, n - 1)
    requires Inv(g, n - 1, sts[n - 1]) && Table(g, n - 1, sts[n - 1].nodeRegs) && Zero(g, n - 1, sts[n - 1])
    ensures Inv(g, n, sts[n])
  {
    NodeInv(g, n, sts[n - 1], sts[n]);
  }

  lemma {:induction false} NodeInv(g: Nodes, next: nat, st: State, r: State)
    requires InRange(g) && 0 < next <= |g| && Inv(g, next - 1, st) && NodeAccepted(g, next - 1)
    requires Table(g, next - 1, st.nodeRegs) && Zero(g, next - 1, st)
    requires r == LowerNode(g, st, next - 1)
    ensures Inv(g, next, r)
  {
    var n := next - 1;
    if g[n].kind == Return {
      ReturnInv(g, n, st);
    } else if IsOperation(g[n].kind) {
      OperationInv(g, n, st);
    } else if g[n].kind == Param {
      ParamInv(g, n, st);
    } else {
      QuietInv(g, n, st);
    }
  }

  /** Parameters take their preset register. */
  lemma {:induction false} ParamInv(g: Nodes, n: nat, st: State)
    requires n < |g| && Inv(g, n, st) && g[n].kind == Param
    ensures Inv(g, n + 1, LowerParam(st, n))
  {
    var r := LowerParam(st, n);
    ParamsMonotone(g, n + 1, |g|);
    forall d: nat | d < n + 1 && HasReg(g[d].kind)
      ensures RegDefined(g, r, d)
    {
      if d < n {
        assert RegDefined(g, st, d);
      }
    }
  }

  /** A node without a register adds nothing to the invariant. */
  lemma {:induction false} QuietInv(g: Nodes, n: nat, st: State)
    requires n < |g| && Inv(g, n, st) && !HasReg(g[n].kind)
    ensures Inv(g, n + 1, st)
  {
    forall d: nat | d < n + 1 && HasReg(g[d].kind)
      ensures RegDefined(g, st, d)
    {
      assert d < n;
    }
  }

  lemma {:induction false} TypeStays(g: Nodes, n: nat, st: State, ty: MalType)
    requires n <= |g| && Inv(g, n, st)
    ensures Inv(g, n, st.(retType := ty))
  {
    var r := st.(retType := ty);
    forall d: nat | d < n && HasReg(g[d].kind)
      ensures RegDefined(g, r, d)
    {
      assert RegDefined(g, st, d);
    }
  }

  lemma {:induction false} ReturnInv(g: Nodes, n: nat, st: State)
    requires InRange(g) && n < |g| && Inv(g, n, st) && NodeAccepted(g, n) && g[n].kind == Return
    requires Table(g, n, st.nodeRegs) && Zero(g, n, st)
    ensures Inv(g, n + 1, LowerReturn(g, st, n))
  {
    if |g[n].inputs| > 1 {
      assert Reads(g[n], 1);
      ReturnValueInv(g, n, st);
    } else {
      EmitKeeps(g, n, st, Inst(|st.code|, Ret, VoidT, None, []));
    }
    QuietInv(g, n, LowerReturn(g, st, n));
  }

  lemma {:induction false} ReturnValueInv(g: Nodes, n: nat, st: State)
    requires InRange(g) && n < |g| && Inv(g, n, st) && g[n].kind == Return && |g[n].inputs| > 1
    requires Table(g, n, st.nodeRegs) && Zero(g, n, st) && Acceptable(g, n, g[n].inputs[1])
    ensures Inv(g, n, LowerReturn(g, st, n))
  {
    var input := g[n].inputs[1];
    OperandReady(g, n, st, input);
    TypeStays(g, n, st, InputType(g, input));
    ReturnOperandInv(g, n, st.(retType := InputType(g, input)), OperandFrom(g, st.nodeRegs, input));
  }

  lemma {:induction false} ReturnOperandInv(g: Nodes, n: nat, st: State, operand: Operand)
    requires n < |g| && Inv(g, n, st)
    requires OperandDefined(ParamsBefore(g, |g|), st.nextReg, st.code, |st.code|, operand)
    ensures Inv(g, n, st.(nextReg := if operand.Reg? then st.nextReg else st.nextReg + 1,
                          code := st.code + ReturnCode(st, operand, st.retType)))
  {
    if operand.Reg? {
      EmitKeeps(g, n, st, Inst(|st.code|, Ret, VoidT, None, [operand]));
    } else {
      var copy := Inst(|st.code|, Copy, st.retType, Some(st.nextReg), [operand]);
      var ret := Inst(|st.code| + 1, Ret, VoidT, None, [Reg(st.nextReg, st.retType)]);
      EmitKeeps(g, n, st, copy);
      var mid := st.(nextReg := st.nextReg + 1, code := st.code + [copy]);
      EmitKeeps(g, n, mid, ret);
      assert mid.code + [ret] == st.code + [copy, ret];
    }
  }

  lemma {:induction false} OperationInv(g: Nodes, n: nat, st: State)
    requires InRange(g) && n < |g| && Inv(g, n, st) && NodeAccepted(g, n) && IsOperation(g[n].kind)
    requires Table(g, n, st.nodeRegs) && Zero(g, n, st)
    ensures Inv(g, n + 1, LowerOperation(g, st, n))
  {
    var node := g[n];
    var r := LowerOperation(g, st, n);
    var inst := r.code[|st.code|];
    if node.kind == Cast || node.kind == Bitcast {
      if node.inputs != [] {
        assert Reads(node, 0);
      }
      OperandReady(g, n, st, if node.inputs == [] then None else node.inputs[0]);
    } else {
      forall k | 0 <= k < |node.inputs| && node.edges[k] != ControlEdge
        ensures Acceptable(g, n, node.inputs[k])
      {
        assert Reads(node, k);
      }
      OperandsReady(g, n, st, node, |node.inputs|);
    }
    EmitKeeps(g, n, st, inst);
    var mid := st.(nextReg := st.nextReg + 1, code := st.code + [inst]);
    forall d: nat | d < n + 1 && HasReg(g[d].kind)
      ensures RegDefined(g, r, d)
    {
      if d < n {
        assert RegDefined(g, mid, d);
      }
    }
  }

  /** The operand of a slot that is read is among the operands. */
  lemma {:induction false} OperandAmong(g: Nodes, nodeRegs: seq<nat>, node: Node, m: nat, k: nat) returns (i: nat)
    requires |nodeRegs| == |g| && InputsIn(g, node) && k < m <= |node.inputs| && node.edges[k] != ControlEdge
    ensures i < |OperandsFrom(g, nodeRegs, node, m)|
    ensures OperandsFrom(g, nodeRegs, node, m)[i] == OperandFrom(g, nodeRegs, node.inputs[k])
  {
    if k == m - 1 {
      i := |OperandsFrom(g, nodeRegs, node, m - 1)|;
    } else {
      i := OperandAmong(g, nodeRegs, node, m - 1, k);
    }
  }

  lemma {:induction false} OperandRead(g: Nodes, st: State, n: nat, k: nat, r: State) returns (i: nat)
    requires InRange(g) && n < |g| && |st.nodeRegs| == |g| && k < |g[n].inputs| && Reads(g[n], k) && r == LowerNode(g, st, n)
    requires !IsImmediate(g, g[n].inputs[k])
    ensures |st.code| < |r.code| && i < |r.code[|st.code|].operands|
    ensures r.code[|st.code|].operands[i] == OperandFrom(g, st.nodeRegs, g[n].inputs[k])
  {
    if g[n].kind == Return || g[n].kind == Cast || g[n].kind == Bitcast {
      i := 0;
    } else {
      i := OperandAmong(g, st.nodeRegs, g[n], |g[n].inputs|, k);
    }
  }

  /** An early read of a register 0 that is not there yet is caught. */
  lemma {:induction false} EarlyReadCaught(g: Nodes, sts: seq<State>, n: nat, k: nat)
    requires InRange(g) && Trace(g, sts) && n < |g| && k < |g[n].inputs| && Reads(g[n], k)
    requires !Acceptable(g, n, g[n].inputs[k])
    ensures !SsaCode(ParamsBefore(g, |g|), sts[|g|].nextReg, sts[|g|].code)
  {
    var params, code := ParamsBefore(g, |g|), sts[|g|].code;
    var j := |sts[n].code|;
    TableInv(g, sts, n);
    assert StepAt(g, sts, n);
    CodeGrows(g, sts, n, n + 1);
    CodeGrows(g, sts, n + 1, |g|);
    var i := OperandRead(g, sts[n], n, k, sts[n + 1]);
    assert code[j] == sts[n + 1].code[j];
    assert !DefinedBefore(params, code, j, 0) by {
      assert forall q :: 0 <= q < j ==> code[q] == sts[n].code[q];
    }
    assert !OperandDefined(params, sts[|g|].nextReg, code, j, code[j].operands[i]);
    assert !UsesDefined(params, sts[|g|].nextReg, code, j);
  }

  /** The SSA checker accepts a lowered graph exactly when every slot that is
      read is ready, or register 0 has been defined by then. */
  lemma {:induction false} LoweredSsaIff(g: Nodes)
    requires InRange(g)
    ensures Ssa(Lowered(g)) <==> Accepted(g)
  {
    var sts := TraceExists(g);
    var f := Lowered(g);
    assert AllInsts(f.blocks) == Flat(f.blocks, 0) + f.blocks[0] == f.blocks[0];
    if Accepted(g) {
      LowerInv(g, sts, |g|);
    } else {
      var n: nat :| n < |g| && !NodeAccepted(g, n);
      var k: nat :| k < |g[n].inputs| && Reads(g[n], k) && !Acceptable(g, n, g[n].inputs[k]);
      EarlyReadCaught(g, sts, n, k);
    }
  }

  /** Lowering an index-ordered graph yields a function the SSA checker accepts. */
  lemma {:induction false} LoweredIsSsa(g: Nodes)
    requires InRange(g) && IndexOrdered(g)
    ensures Ssa(Lowered(g))
  {
    OrderedAccepted(g);
    LoweredSsaIff(g);
  }

  // ----- Which graph the result stands for -----

  /** The node whose value is in register 0: the first parameter, or without
      parameters the operation that is the first to write a register. */
  ghost predicate IsOwner(g: Nodes, o: nat) {
    && o < |g|
    && if ParamsBefore(g, |g|) > 0 then g[o].kind == Param && ParamsBefore(g, o) == 0
       else IsOperation(g[o].kind) && !ZeroDefined(g, o)
  }

  ghost function Owner(g: Nodes): (o: Option<nat>)
    ensures if exists d :: IsOwner(g, d) then o.Some? && IsOwner(g, o.value) else o.None?
  {
    if exists d :: IsOwner(g, d) then
      var d :| IsOwner(g, d);
      Some(d)
    else None
  }

  /** The node a slot that node `n` reads really stands for; a null slot stands
      for a constant 0 put after the last node. */
  ghost function Resolve(g: Nodes, n: nat, input: Option<nat>): Option<nat> {
    if input.None? then Some(|g|)
    else if Ready(g, n, input) || Owner(g).None? then input
    else Owner(g)
  }

  ghost function ResolveSlot(g: Nodes, n: nat, k: nat): Option<nat>
    requires InRange(g) && n < |g| && k < |g[n].inputs|
  {
    if Reads(g[n], k) || g[n].inputs[k].None? then Resolve(g, n, g[n].inputs[k]) else g[n].inputs[k]
  }

  /** Boolean constants stand for 1 and 0, and undefined values for 0. */
  function Literal(k: Kind, p: Payload): (Kind, Payload) {
    if k == ConstBool then (ConstInt, IntPayload(if PayloadBool(p) then 1 else 0))
    else if k == UndefNode then (ConstInt, IntPayload(0))
    else (k, p)
  }

  ghost function PatchedNode(g: Nodes, n: nat): (node: Node)
    requires InRange(g) && n < |g|
    ensures (node.kind, node.payload) == Literal(g[n].kind, g[n].payload)
    ensures node.ty == g[n].ty && node.edges == g[n].edges && |node.inputs| == |g[n].inputs|
    ensures forall k: nat :: k < |g[n].inputs| ==> node.inputs[k] == ResolveSlot(g, n, k)
  {
    var (kind, payload) := Literal(g[n].kind, g[n].payload);
    g[n].(kind := kind, payload := payload,
          inputs := seq(|g[n].inputs|, k requires 0 <= k < |g[n].inputs| => ResolveSlot(g, n, k)))
  }

  function ZeroNode(): Node {
    Node(ConstInt, I32, IntPayload(0), [], [], [], false)
  }

  /** The graph that lowering really translates: slots that are read before
      their node has a register name the owner of register 0, constants are
      integers, and null slots name a constant 0. */
  ghost function Patched(g: Nodes): (h: Nodes)
    requires InRange(g)
    ensures |h| == (if NoNulls(g) then |g| else |g| + 1)
    ensures forall n: nat :: n < |g| ==> h[n] == PatchedNode(g, n)
    ensures !NoNulls(g) ==> h[|g|] == ZeroNode()
  {
    seq(|g|, n requires 0 <= n < |g| => PatchedNode(g, n)) + (if NoNulls(g) then [] else [ZeroNode()])
  }

  /** All constants are integers or floats. */
  ghost predicate NoLiterals(g: Nodes) {
    forall n :: 0 <= n < |g| ==> g[n].kind != ConstBool && g[n].kind != UndefNode
  }

  /** An index-ordered graph without null slots and boolean or undefined constants
      stands for itself. */
  lemma {:induction false} OrderedPatched(g: Nodes)
    requires InRange(g) && IndexOrdered(g) && NoNulls(g) && NoLiterals(g)
    ensures Patched(g) == g
  {
    forall n: nat | n < |g|
      ensures PatchedNode(g, n) == g[n]
    {
      assert NodeOrdered(g, n);
      assert PatchedNode(g, n).inputs == g[n].inputs;
    }
  }

  /** A term whose boolean and undefined constants are read as integers. */
  ghost function LiteralTerm(t: Term): (u: Term)
    ensures (u.kind, u.payload) == Literal(t.kind, t.payload) && |u.args| == |t.args|
    ensures forall k :: 0 <= k < |t.args| ==> u.args[k] == LiteralTerm(t.args[k])
  {
    var (kind, payload) := Literal(t.kind, t.payload);
    Term(kind, payload, seq(|t.args|, k requires 0 <= k < |t.args| => LiteralTerm(t.args[k])))
  }

  ghost function LiteralTerms(T: seq<Term>): (U: seq<Term>)
    ensures |U| == |T| && forall n :: 0 <= n < |T| ==> U[n] == LiteralTerm(T[n])
  {
    seq(|T|, n requires 0 <= n < |T| => LiteralTerm(T[n]))
  }

  /** In index order, constants are all that changes. */
  lemma {:induction false} OrderedLabels(g: Nodes, T: seq<Term>)
    requires InRange(g) && IndexOrdered(g) && Labelled(g, T)
    ensures NoNulls(g) && Labelled(Patched(g), LiteralTerms(T))
  {
    forall n: nat, k: nat | n < |g| && k < |g[n].inputs|
      ensures g[n].inputs[k].Some?
    {
      assert LabelAt(g, T, n);
    }
    forall n: nat | n < |g|
      ensures LabelAt(Patched(g), LiteralTerms(T), n)
    {
      assert LabelAt(g, T, n) && NodeOrdered(g, n);
      assert Patched(g)[n] == PatchedNode(g, n);
    }
  }

  /** Reading constants as integers only adds values. */
  lemma {:induction false} LiteralRefines(t: Term, env: Env, xor: bool)
    ensures Refines(Eval(t, env, Machine(xor)), Eval(LiteralTerm(t), env, Machine(xor)))
  {
    var u := LiteralTerm(t);
    var vs, ws := EvalArgs(t, env, Machine(xor)), EvalArgs(u, env, Machine(xor));
    forall k | 0 <= k < |t.args|
      ensures Refines(vs[k], ws[k])
    {
      LiteralRefines(t.args[k], env, xor);
    }
    if t.kind != ConstBool && t.kind != UndefNode {
      ApplyMonotone(t.kind, t.payload, vs, ws, env, Machine(xor));
    }
  }

  // ----- The result computes the graph's values -----

  /** Integer operations: not typed as floats, and every input is a data input. */
  ghost predicate Integral(g: Nodes) {
    forall n :: 0 <= n < |g| ==> IntegralNode(g[n])
  }

  ghost predicate IntegralNode(n: Node) {
    |n.edges| == |n.inputs|
    && (IsBinary(n.kind) || IsUnary(n.kind) ==>
          !IsFloat(n.ty) && forall k :: 0 <= k < |n.inputs| ==> n.edges[k] != ControlEdge)
  }

  /** The callers put parameter values in the low registers, in node order. */
  ghost predicate Preset(g: Nodes, env: Env, regs: Regs) {
    forall d: nat :: d < |g| && g[d].kind == Param ==> regs(ParamsBefore(g, d)) == env(PayloadIndex(g[d].payload))
  }

  lemma {:induction false} OperandsAll(g: Nodes, nodeRegs: seq<nat>, node: Node, n: nat)
    requires |nodeRegs| == |g| && InputsIn(g, node) && n <= |node.inputs|
    requires forall k :: 0 <= k < n ==> node.edges[k] != ControlEdge
    ensures |OperandsFrom(g, nodeRegs, node, n)| == n
    ensures forall k :: 0 <= k < n ==> OperandsFrom(g, nodeRegs, node, n)[k] == OperandFrom(g, nodeRegs, node.inputs[k])
  {
    if n > 0 {
      OperandsAll(g, nodeRegs, node, n - 1);
    }
  }

  // ----- Node values -----

  /** The operations the machine has an instruction for. */
  predicate HasOpcode(k: Kind) {
    (IsBinary(k) || IsUnary(k)) && k != Abs
  }

  ghost predicate AllRefine(vs: seq<Value>, ws: seq<Value>) {
    |vs| == |ws| && forall j :: 0 <= j < |vs| ==> Refines(vs[j], ws[j])
  }

  /** A monotone interpretation of exactly those operations. */
  ghost predicate Interprets(ops: Ops) {
    && (forall k, vs, ws :: AllRefine(vs, ws) ==> Refines(ops(k, vs), ops(k, ws)))
    && (forall k, vs :: !HasOpcode(k) ==> ops(k, vs) == Undef)
  }

  ghost predicate SlotsIn(g: Nodes, n: nat)
    requires n < |g|
  {
    forall k :: 0 <= k < |g[n].inputs| ==> g[n].inputs[k].Some? && g[n].inputs[k].value < |g|
  }

  ghost function ArgVals(g: Nodes, vs: seq<Value>, n: nat): (ws: seq<Value>)
    requires n < |g| && |vs| == |g| && SlotsIn(g, n)
    ensures |ws| == |g[n].inputs|
    ensures forall k :: 0 <= k < |ws| ==> ws[k] == vs[g[n].inputs[k].value]
  {
    seq(|g[n].inputs|, k requires 0 <= k < |g[n].inputs| => vs[g[n].inputs[k].value])
  }

  /** `vs` satisfies the defining equation of node `n`. */
  ghost predicate ValueAt(g: Nodes, vs: seq<Value>, env: Env, ops: Ops, n: nat)
    requires n < |g| && |vs| == |g|
  {
    SlotsIn(g, n)
    && vs[n] == (if g[n].kind == ConstInt then Int(Wrap(PayloadInt(g[n].payload)))
                 else if g[n].kind == ConstFloat then Float(PayloadBits(g[n].payload))
                 else if g[n].kind == Param then env(PayloadIndex(g[n].payload))
                 else ops(g[n].kind, ArgVals(g, vs, n)))
  }

  ghost predicate Valued(g: Nodes, vs: seq<Value>, env: Env, ops: Ops) {
    |vs| == |g| && forall n :: 0 <= n < |g| ==> ValueAt(g, vs, env, ops, n)
  }

  // ----- Registers hold node values -----

  /** Every node passed has its value in its register. */
  ghost predicate Holds(g: Nodes, vs: seq<Value>, nodeRegs: seq<nat>, regs: Regs, n: nat)
    requires n <= |g| <= |vs| && |nodeRegs| == |g|
  {
    forall d: nat :: d < n && HasReg(g[d].kind) ==> Refines(vs[d], regs(nodeRegs[d]))
  }

  /** Register 0, once it is defined, has the value of its owner. */
  ghost predicate OwnerHolds(g: Nodes, vs: seq<Value>, regs: Regs, n: nat)
    requires n <= |g| <= |vs|
  {
    ZeroDefined(g, n) ==> Owner(g).Some? && Refines(vs[Owner(g).value], regs(0))
  }

  lemma {:induction false} FirstParam(g: Nodes, n: nat) returns (o: nat)
    requires n <= |g| && ParamsBefore(g, n) > 0
    ensures o < n && g[o].kind == Param && ParamsBefore(g, o) == 0
  {
    if ParamsBefore(g, n - 1) > 0 {
      o := FirstParam(g, n - 1);
    } else {
      o := n - 1;
    }
  }

  lemma {:induction false} FirstEmitter(g: Nodes, n: nat) returns (o: nat)
    requires n <= |g| && ParamsBefore(g, |g|) == 0 && ZeroDefined(g, n)
    ensures o < n && Emits(g, o) && !ZeroDefined(g, o)
  {
    ZeroNext(g, n - 1);
    if ZeroDefined(g, n - 1) {
      o := FirstEmitter(g, n - 1);
    } else {
      o := n - 1;
    }
  }

  lemma {:induction false} OwnerFound(g: Nodes, n: nat)
    requires n <= |g| && NoReturn(g, n) && ZeroDefined(g, n)
    ensures Owner(g).Some? && (ParamsBefore(g, |g|) == 0 ==> Owner(g).value < n)
  {
    var o: nat;
    if ParamsBefore(g, |g|) > 0 {
      o := FirstParam(g, |g|);
    } else {
      o := FirstEmitter(g, n);
    }
    assert IsOwner(g, o);
  }

  lemma {:induction false} OwnerHeld(g: Nodes, h: Nodes, vs: seq<Value>, env: Env, ops: Ops, regs0: Regs, nodeRegs: seq<nat>, regs: Regs, n: nat)
    requires InRange(g) && n <= |g| && NoReturn(g, n) && h == Patched(g) && Valued(h, vs, env, ops) && Preset(g, env, regs0)
    requires Table(g, n, nodeRegs) && Holds(g, vs, nodeRegs, regs, n)
    requires forall p: nat :: p < ParamsBefore(g, |g|) ==> regs(p) == regs0(p)
    ensures OwnerHolds(g, vs, regs, n)
  {
    if ZeroDefined(g, n) {
      OwnerFound(g, n);
      var o := Owner(g).value;
      if ParamsBefore(g, |g|) > 0 {
        ParamHolds(g, h, vs, env, ops, regs0, o, regs);
      } else {
        assert OwnerAtZero(g, nodeRegs, o);
      }
    }
  }

  lemma {:induction false} OperandHolds(g: Nodes, h: Nodes, vs: seq<Value>, env: Env, ops: Ops, nodeRegs: seq<nat>, regs: Regs, n: nat, input: Option<nat>)
    requires InRange(g) && n <= |g| && h == Patched(g) && Valued(h, vs, env, ops) && Interprets(ops)
    requires (if input.Some? then input.value < |g| else !NoNulls(g)) && Acceptable(g, n, input)
    requires Table(g, n, nodeRegs) && Holds(g, vs, nodeRegs, regs, n) && OwnerHolds(g, vs, regs, n)
    ensures Resolve(g, n, input).Some? && Resolve(g, n, input).value < |h|
    ensures Refines(vs[Resolve(g, n, input).value], OperandValue(OperandFrom(g, nodeRegs, input), regs))
  {
    if input.None? {
      assert ValueAt(h, vs, env, ops, |g|);
    } else if IsConst(g[input.value].kind) {
      ConstHolds(g, h, vs, env, ops, nodeRegs, regs, input.value);
    } else {
      assert OperandValue(OperandFrom(g, nodeRegs, input), regs) == regs(nodeRegs[input.value]);
    }
  }

  lemma {:induction false} ConstHolds(g: Nodes, h: Nodes, vs: seq<Value>, env: Env, ops: Ops, nodeRegs: seq<nat>, regs: Regs, d: nat)
    requires InRange(g) && h == Patched(g) && Valued(h, vs, env, ops) && Interprets(ops)
    requires d < |g| == |nodeRegs| && IsConst(g[d].kind)
    ensures Refines(vs[d], OperandValue(OperandFrom(g, nodeRegs, Some(d)), regs))
  {
    assert ValueAt(h, vs, env, ops, d);
    assert h[d] == PatchedNode(g, d);
  }

  lemma {:induction false} ReadSlot(g: Nodes, h: Nodes, n: nat, k: nat)
    requires InRange(g) && n < |g| && h == Patched(g) && k < |g[n].inputs| && Reads(g[n], k)
    ensures |h[n].inputs| == |g[n].inputs| && h[n].inputs[k] == Resolve(g, n, g[n].inputs[k])
    ensures g[n].inputs[k].None? ==> !NoNulls(g)
  {
    assert h[n] == PatchedNode(g, n);
  }

  lemma {:induction false} ArgsHold(g: Nodes, h: Nodes, vs: seq<Value>, env: Env, ops: Ops, nodeRegs: seq<nat>, regs: Regs, n: nat)
    requires InRange(g) && n < |g| && h == Patched(g) && Valued(h, vs, env, ops) && Interprets(ops) && SlotsIn(h, n)
    requires NodeAccepted(g, n) && HasOpcode(g[n].kind)
    requires forall k :: 0 <= k < |g[n].inputs| ==> g[n].edges[k] != ControlEdge
    requires Table(g, n, nodeRegs) && Holds(g, vs, nodeRegs, regs, n) && OwnerHolds(g, vs, regs, n)
    ensures |h[n].inputs| == |g[n].inputs|
    ensures forall k :: 0 <= k < |g[n].inputs| ==>
              Refines(ArgVals(h, vs, n)[k], OperandValue(OperandFrom(g, nodeRegs, g[n].inputs[k]), regs))
  {
    assert h[n] == PatchedNode(g, n);
    forall k: nat | k < |g[n].inputs|
      ensures Refines(ArgVals(h, vs, n)[k], OperandValue(OperandFrom(g, nodeRegs, g[n].inputs[k]), regs))
    {
      assert Reads(g[n], k);
      ReadSlot(g, h, n, k);
      OperandHolds(g, h, vs, env, ops, nodeRegs, regs, n, g[n].inputs[k]);
    }
  }

  predicate IsCompareKind(k: Kind) {
    k.Eq? || k.Ne? || k.Lt? || k.Le? || k.Gt? || k.Ge?
  }

  lemma {:induction false} CompareMeans(k: Kind, t: Type)
    requires IsCompareKind(k)
    ensures KindOf(OpcodeFrom(k, t)) == Some(k)
  {
  }

  lemma {:induction false} ArithmeticMeans(k: Kind, t: Type)
    requires HasOpcode(k) && !IsCompareKind(k) && !IsFloat(t)
    ensures KindOf(OpcodeFrom(k, t)) == Some(k)
  {
  }

  lemma {:induction false} OpcodeMeans(k: Kind, t: Type)
    requires HasOpcode(k) && !IsFloat(t)
    ensures KindOf(OpcodeFrom(k, t)) == Some(k) && OpcodeFrom(k, t) != Copy
  {
    if IsCompareKind(k) {
      CompareMeans(k, t);
    } else {
      ArithmeticMeans(k, t);
    }
  }

  lemma {:induction false} OperandsApply(k: Kind, ws: seq<Value>, inst: Inst, regs: Regs, ops: Ops)
    requires KindOf(inst.opcode) == Some(k) && inst.opcode != Copy && |ws| == |inst.operands|
    requires forall j :: 0 <= j < |ws| ==> Refines(ws[j], OperandValue(inst.operands[j], regs))
    requires Interprets(ops)
    ensures Refines(ops(k, ws), InstValue(inst, regs, ops))
  {
    assert AllRefine(ws, OperandValues(inst.operands, regs));
  }

  lemma {:induction false} OperationValue(g: Nodes, h: Nodes, vs: seq<Value>, env: Env, ops: Ops, st: State, regs: Regs, n: nat)
    requires InRange(g) && n < |g| && h == Patched(g) && Valued(h, vs, env, ops) && Interprets(ops)
    requires NodeAccepted(g, n) && IntegralNode(g[n]) && IsOperation(g[n].kind)
    requires Table(g, n, st.nodeRegs) && Holds(g, vs, st.nodeRegs, regs, n) && OwnerHolds(g, vs, regs, n)
    ensures Refines(vs[n], InstValue(LowerOperation(g, st, n).code[|st.code|], regs, ops))
  {
    var ws := OperationArgs(g, h, vs, env, ops, n);
    if HasOpcode(g[n].kind) {
      var inst := LoweredAs(g, st, n);
      ArgsHold(g, h, vs, env, ops, st.nodeRegs, regs, n);
      OperandsApply(g[n].kind, ws, inst, regs, ops);
    }
  }

  /** An integer operation lowers to its opcode over all its inputs, with its type
      and a fresh register that the table then holds. */
  lemma {:induction false} LoweredAs(g: Nodes, st: State, n: nat) returns (inst: Inst)
    requires InRange(g) && n < |g| && |st.nodeRegs| == |g| && IntegralNode(g[n]) && HasOpcode(g[n].kind)
    ensures |LowerOperation(g, st, n).code| > |st.code| && inst == LowerOperation(g, st, n).code[|st.code|]
    ensures KindOf(inst.opcode) == Some(g[n].kind) && inst.opcode != Copy && |inst.operands| == |g[n].inputs|
    ensures inst.ty == TypeFrom(g[n].ty) && LowerOperation(g, st, n).nodeRegs[n] == st.nextReg && inst.dst == Some(st.nextReg)
    ensures forall k :: 0 <= k < |inst.operands| ==> inst.operands[k] == OperandFrom(g, st.nodeRegs, g[n].inputs[k])
  {
    inst := LowerOperation(g, st, n).code[|st.code|];
    OpcodeMeans(g[n].kind, g[n].ty);
    OperandsAll(g, st.nodeRegs, g[n], |g[n].inputs|);
  }

  lemma {:induction false} OperationArgs(g: Nodes, h: Nodes, vs: seq<Value>, env: Env, ops: Ops, n: nat) returns (ws: seq<Value>)
    requires InRange(g) && n < |g| && h == Patched(g) && Valued(h, vs, env, ops) && IsOperation(g[n].kind)
    ensures SlotsIn(h, n) && ws == ArgVals(h, vs, n) && |ws| == |g[n].inputs| && vs[n] == ops(g[n].kind, ws)
  {
    assert ValueAt(h, vs, env, ops, n);
    assert h[n] == PatchedNode(g, n);
    ws := ArgVals(h, vs, n);
  }

  ghost predicate NoReturn(g: Nodes, n: nat)
    requires n <= |g|
  {
    forall d :: 0 <= d < n ==> g[d].kind != Return
  }

  /** Every operation before `n` has a value. */
  ghost predicate OperationsDefined(g: Nodes, vs: seq<Value>, n: nat)
    requires n <= |g| <= |vs|
  {
    forall d :: 0 <= d < n && IsOperation(g[d].kind) ==> vs[d] != Undef
  }

  /** Lowered code, run up to node `n`, has every value in place. */
  ghost predicate Computes(g: Nodes, vs: seq<Value>, ops: Ops, regs0: Regs, n: nat, st: State)
    requires n <= |g| <= |vs| && |st.nodeRegs| == |g|
  {
    var out := Run(st.code, regs0, ops);
    && out.FellThrough?
    && Holds(g, vs, st.nodeRegs, out.regs, n)
    && (forall p: nat :: p < ParamsBefore(g, |g|) ==> out.regs(p) == regs0(p))
    && (OperationsDefined(g, vs, n) ==> AllDefined(st.code, regs0, ops))
  }

  /** A graph in `g` that lowers to SSA form, the values `vs` of the graph `h` it
      stands for, and its parameters' values in place. */
  ghost predicate Setup(g: Nodes, h: Nodes, vs: seq<Value>, env: Env, ops: Ops, regs0: Regs) {
    && InRange(g) && Accepted(g) && Integral(g) && Preset(g, env, regs0)
    && h == Patched(g) && Valued(h, vs, env, ops) && Interprets(ops)
  }

  lemma {:induction false} LowerComputes(g: Nodes, h: Nodes, vs: seq<Value>, env: Env, ops: Ops, regs0: Regs, sts: seq<State>, n: nat)
    requires Setup(g, h, vs, env, ops, regs0) && Trace(g, sts) && n <= |g| && NoReturn(g, n)
    ensures |sts[n].nodeRegs| == |g| && Computes(g, vs, ops, regs0, n, sts[n])
  {
    if n == 0 {
      NothingComputes(g, vs, ops, regs0, sts[0]);
    } else {
      LowerComputes(g, h, vs, env, ops, regs0, sts, n - 1);
      ComputesNext(g, h, vs, env, ops, regs0, sts, n);
    }
  }

  lemma {:induction false} ComputesNext(g: Nodes, h: Nodes, vs: seq<Value>, env: Env, ops: Ops, regs0: Regs, sts: seq<State>, n: nat)
    requires Setup(g, h, vs, env, ops, regs0) && Trace(g, sts) && 0 < n <= |g| && NoReturn(g, n)
    requires |sts[n - 1].nodeRegs| == |g| && Computes(g, vs, ops, regs0, n - 1, sts[n - 1])
    ensures |sts[n].nodeRegs| == |g| && Computes(g, vs, ops, regs0, n, sts[n])
  {
    OwnerReady(g, h, vs, env, ops, regs0, sts, n - 1);
    LowerInv(g, sts, n - 1);
    StepComputes(g, h, vs, env, ops, regs0, sts, n);
  }

  /** The table and register 0 are right when the pass reaches node `n`. */
  lemma {:induction false} OwnerReady(g: Nodes, h: Nodes, vs: seq<Value>, env: Env, ops: Ops, regs0: Regs, sts: seq<State>, n: nat)
    requires Setup(g, h, vs, env, ops, regs0) && Trace(g, sts) && n <= |g| && NoReturn(g, n) && |sts[n].nodeRegs| == |g|
    requires Computes(g, vs, ops, regs0, n, sts[n])
    ensures Table(g, n, sts[n].nodeRegs) && OwnerHolds(g, vs, Run(sts[n].code, regs0, ops).regs, n)
  {
    TableInv(g, sts, n);
    OwnerHeld(g, h, vs, env, ops, regs0, sts[n].nodeRegs, Run(sts[n].code, regs0, ops).regs, n);
  }

  lemma {:induction false} StepComputes(g: Nodes, h: Nodes, vs: seq<Value>, env: Env, ops: Ops, regs0: Regs, sts: seq<State>, n: nat)
    requires Setup(g, h, vs, env, ops, regs0) && 0 < n <= |g| && n < |sts| && g[n - 1].kind != Return && StepAt(g, sts, n - 1)
    requires Inv(g, n - 1, sts[n - 1]) && Table(g, n - 1, sts[n - 1].nodeRegs)
    requires Computes(g, vs, ops, regs0, n - 1, sts[n - 1])
    requires OwnerHolds(g, vs, Run(sts[n - 1].code, regs0, ops).regs, n - 1)
    ensures |sts[n].nodeRegs| == |g| && Computes(g, vs, ops, regs0, n, sts[n])
  {
    NodeComputes(g, h, vs, env, ops, regs0, n, sts[n - 1], sts[n]);
  }

  lemma {:induction false} NothingComputes(g: Nodes, vs: seq<Value>, ops: Ops, regs0: Regs, st: State)
    requires |g| <= |vs| && |st.nodeRegs| == |g| && st.code == []
    ensures Computes(g, vs, ops, regs0, 0, st)
  {
  }

  lemma {:induction false} NodeComputes(g: Nodes, h: Nodes, vs: seq<Value>, env: Env, ops: Ops, regs0: Regs, next: nat, st: State, r: State)
    requires Setup(g, h, vs, env, ops, regs0) && 0 < next <= |g| && g[next - 1].kind != Return
    requires Inv(g, next - 1, st) && Table(g, next - 1, st.nodeRegs) && r == LowerNode(g, st, next - 1)
    requires Computes(g, vs, ops, regs0, next - 1, st) && OwnerHolds(g, vs, Run(st.code, regs0, ops).regs, next - 1)
    ensures Computes(g, vs, ops, regs0, next, r)
  {
    var n := next - 1;
    if IsOperation(g[n].kind) {
      assert NodeAccepted(g, n) && IntegralNode(g[n]);
      OperationComputes(g, h, vs, env, ops, regs0, n, st);
    } else if g[n].kind == Param {
      ParamComputes(g, h, vs, env, ops, regs0, n, st);
    } else {
      QuietComputes(g, vs, ops, regs0, n, st);
    }
  }

  lemma {:induction false} QuietComputes(g: Nodes, vs: seq<Value>, ops: Ops, regs0: Regs, n: nat, st: State)
    requires n < |g| <= |vs| && |st.nodeRegs| == |g| && !HasReg(g[n].kind)
    requires Computes(g, vs, ops, regs0, n, st)
    ensures Computes(g, vs, ops, regs0, n + 1, st)
  {
  }

  lemma {:induction false} ParamComputes(g: Nodes, h: Nodes, vs: seq<Value>, env: Env, ops: Ops, regs0: Regs, n: nat, st: State)
    requires InRange(g) && n < |g| && h == Patched(g) && Valued(h, vs, env, ops) && Preset(g, env, regs0) && Inv(g, n, st) && g[n].kind == Param
    requires Computes(g, vs, ops, regs0, n, st)
    ensures Computes(g, vs, ops, regs0, n + 1, LowerParam(st, n))
  {
    var regs := Run(st.code, regs0, ops).regs;
    ParamHolds(g, h, vs, env, ops, regs0, n, regs);
    assert Holds(g, vs, LowerParam(st, n).nodeRegs, regs, n + 1);
  }

  lemma {:induction false} ParamHolds(g: Nodes, h: Nodes, vs: seq<Value>, env: Env, ops: Ops, regs0: Regs, n: nat, regs: Regs)
    requires InRange(g) && n < |g| && h == Patched(g) && Valued(h, vs, env, ops) && Preset(g, env, regs0) && g[n].kind == Param
    requires forall p: nat :: p < ParamsBefore(g, |g|) ==> regs(p) == regs0(p)
    ensures regs(ParamsBefore(g, n)) == vs[n]
  {
    ParamsMonotone(g, n + 1, |g|);
    ParamHasValue(g, h, vs, env, ops, n);
  }

  lemma {:induction false} ParamHasValue(g: Nodes, h: Nodes, vs: seq<Value>, env: Env, ops: Ops, n: nat)
    requires InRange(g) && n < |g| && h == Patched(g) && Valued(h, vs, env, ops) && g[n].kind == Param
    ensures vs[n] == env(PayloadIndex(g[n].payload))
  {
    assert ValueAt(h, vs, env, ops, n);
    assert h[n] == PatchedNode(g, n);
  }

  lemma {:induction false} OperationComputes(g: Nodes, h: Nodes, vs: seq<Value>, env: Env, ops: Ops, regs0: Regs, n: nat, st: State)
    requires InRange(g) && n < |g| && NodeAccepted(g, n) && IntegralNode(g[n])
    requires h == Patched(g) && Valued(h, vs, env, ops) && Interprets(ops)
    requires Inv(g, n, st) && Table(g, n, st.nodeRegs) && Computes(g, vs, ops, regs0, n, st)
    requires OwnerHolds(g, vs, Run(st.code, regs0, ops).regs, n)
    requires IsOperation(g[n].kind)
    ensures Computes(g, vs, ops, regs0, n + 1, LowerOperation(g, st, n))
  {
    OperationValue(g, h, vs, env, ops, st, Run(st.code, regs0, ops).regs, n);
    OpcodeNotRet(g[n].kind, g[n].ty);
    EmitComputes(g, vs, ops, regs0, n, st, LowerOperation(g, st, n).code[|st.code|]);
  }

  lemma {:induction false} OpcodeNotRet(k: Kind, t: Type)
    requires IsOperation(k)
    ensures OpcodeFrom(k, t) != Ret
  {
  }

  lemma {:induction false} EmitComputes(g: Nodes, vs: seq<Value>, ops: Ops, regs0: Regs, n: nat, st: State, inst: Inst)
    requires n < |g| <= |vs| && Inv(g, n, st) && Computes(g, vs, ops, regs0, n, st) && IsOperation(g[n].kind)
    requires inst.opcode != Ret && inst.dst == Some(st.nextReg)
    requires Refines(vs[n], InstValue(inst, Run(st.code, regs0, ops).regs, ops))
    ensures Computes(g, vs, ops, regs0, n + 1,
                     st.(nextReg := st.nextReg + 1, nodeRegs := st.nodeRegs[n := st.nextReg], code := st.code + [inst]))
  {
    var regs := Run(st.code, regs0, ops).regs;
    RunAppend(st.code, inst, regs0, ops);
    WriteHolds(g, vs, n, st, regs, InstValue(inst, regs, ops));
  }

  /** A fresh register leaves the registers of earlier nodes alone. */
  lemma {:induction false} WriteHolds(g: Nodes, vs: seq<Value>, n: nat, st: State, regs: Regs, v: Value)
    requires n < |g| <= |vs| && Inv(g, n, st) && Holds(g, vs, st.nodeRegs, regs, n) && Refines(vs[n], v)
    ensures Holds(g, vs, st.nodeRegs[n := st.nextReg], Write(regs, st.nextReg, v), n + 1)
  {
    forall d: nat | d < n && HasReg(g[d].kind)
      ensures Refines(vs[d], Write(regs, st.nextReg, v)(st.nodeRegs[d]))
    {
      assert RegDefined(g, st, d);
    }
  }

  lemma {:induction false} RunAppend(code: seq<Inst>, inst: Inst, regs0: Regs, ops: Ops)
    requires Run(code, regs0, ops).FellThrough? && inst.opcode != Ret
    ensures var regs := Run(code, regs0, ops).regs;
            Run(code + [inst], regs0, ops) == FellThrough(StepInst(inst, regs, ops))
            && (AllDefined(code, regs0, ops) && InstValue(inst, regs, ops) != Undef ==> AllDefined(code + [inst], regs0, ops))
  {
    RunPrefix(code, code + [inst], |code|, regs0, ops);
    DefinedPrefixes(code, code + [inst], |code|, regs0, ops);
  }

  lemma {:induction false} ReturnReached(g: Nodes, h: Nodes, vs: seq<Value>, env: Env, ops: Ops, regs0: Regs, sts: seq<State>, n: nat)
    requires Setup(g, h, vs, env, ops, regs0) && Trace(g, sts)
    requires n < |g| && NoReturn(g, n) && g[n].kind == Return && |g[n].inputs| > 1
    ensures |h[n].inputs| > 1 && h[n].inputs[1].Some? && h[n].inputs[1].value < |h|
    ensures var out := Run(sts[n + 1].code, regs0, ops);
            out.Returned? && Refines(vs[h[n].inputs[1].value], out.value)
    ensures OperationsDefined(g, vs, n) && vs[h[n].inputs[1].value] != Undef ==> AllDefined(sts[n + 1].code, regs0, ops)
  {
    LowerComputes(g, h, vs, env, ops, regs0, sts, n);
    OwnerReady(g, h, vs, env, ops, regs0, sts, n);
    ReturnComputes(g, h, vs, env, ops, regs0, n, sts[n], Next(g, sts, n));
  }

  /** The state after the next node, as the result of one step. */
  ghost function Next(g: Nodes, sts: seq<State>, n: nat): (r: State)
    requires InRange(g) && Trace(g, sts) && n < |g|
    ensures |sts[n].nodeRegs| == |g| && r == sts[n + 1] == LowerNode(g, sts[n], n)
  {
    assert StepAt(g, sts, n);
    sts[n + 1]
  }

  /** The first return decides: the lowered function returns the value of the
      node it names, and if every operation before it has a value then so has
      every instruction executed. */
  lemma {:induction false} FirstReturn(g: Nodes, h: Nodes, vs: seq<Value>, env: Env, ops: Ops, regs0: Regs, n: nat)
    requires Setup(g, h, vs, env, ops, regs0) && n < |g| && NoReturn(g, n) && g[n].kind == Return && |g[n].inputs| > 1
    ensures var out := Run(Lowered(g).blocks[0], regs0, ops);
            out.Returned? && |h[n].inputs| > 1 && h[n].inputs[1].Some? && h[n].inputs[1].value < |h|
            && Refines(vs[h[n].inputs[1].value], out.value)
    ensures OperationsDefined(g, vs, n) && vs[h[n].inputs[1].value] != Undef ==>
              AllDefined(Lowered(g).blocks[0], regs0, ops)
  {
    var sts := TraceExists(g);
    ReturnReached(g, h, vs, env, ops, regs0, sts, n);
    CodeGrows(g, sts, n + 1, |g|);
    PrefixDecides(sts[n + 1].code, sts[|g|].code, regs0, ops);
  }

  lemma {:induction false} PrefixDecides(head: seq<Inst>, code: seq<Inst>, regs: Regs, ops: Ops)
    requires Starts(head, code) && Run(head, regs, ops).Returned?
    ensures Run(code, regs, ops) == Run(head, regs, ops)
    ensures AllDefined(head, regs, ops) ==> AllDefined(code, regs, ops)
  {
    RunPrefix(head, code, |head|, regs, ops);
    DefinedPrefixes(head, code, |head|, regs, ops);
    RunStopped(code, |head|, |code|, regs, ops);
  }

  lemma {:induction false} ReturnComputes(g: Nodes, h: Nodes, vs: seq<Value>, env: Env, ops: Ops, regs0: Regs, n: nat, st: State, r: State)
    requires Setup(g, h, vs, env, ops, regs0) && n < |g| && Table(g, n, st.nodeRegs) && r == LowerNode(g, st, n)
    requires g[n].kind == Return && |g[n].inputs| > 1
    requires Computes(g, vs, ops, regs0, n, st) && OwnerHolds(g, vs, Run(st.code, regs0, ops).regs, n)
    ensures |h[n].inputs| > 1 && h[n].inputs[1].Some? && h[n].inputs[1].value < |h|
    ensures var out := Run(r.code, regs0, ops);
            out.Returned? && Refines(vs[h[n].inputs[1].value], out.value)
    ensures OperationsDefined(g, vs, n) && vs[h[n].inputs[1].value] != Undef ==> AllDefined(r.code, regs0, ops)
  {
    assert NodeAccepted(g, n) && ValueAt(h, vs, env, ops, n) && Reads(g[n], 1);
    assert h[n] == PatchedNode(g, n);
    ReadSlot(g, h, n, 1);
    var input := g[n].inputs[1];
    var operand, ty := OperandFrom(g, st.nodeRegs, input), InputType(g, input);
    OperandHolds(g, h, vs, env, ops, st.nodeRegs, Run(st.code, regs0, ops).regs, n, input);
    ReturnRuns(st, operand, ty, regs0, ops);
    assert r.code == st.code + ReturnCode(st, operand, ty);
  }

  lemma {:induction false} AppendReturn(code: seq<Inst>, inst: Inst, regs0: Regs, ops: Ops)
    requires Run(code, regs0, ops).FellThrough? && inst.opcode == Ret
    ensures Run(code + [inst], regs0, ops) == Returned(RetValue(inst, Run(code, regs0, ops).regs))
    ensures AllDefined(code, regs0, ops) ==> AllDefined(code + [inst], regs0, ops)
  {
    RunPrefix(code, code + [inst], |code|, regs0, ops);
    DefinedPrefixes(code, code + [inst], |code|, regs0, ops);
  }

  lemma {:induction false} ReturnRuns(st: State, operand: Operand, ty: MalType, regs0: Regs, ops: Ops)
    requires Run(st.code, regs0, ops).FellThrough?
    ensures var v := OperandValue(operand, Run(st.code, regs0, ops).regs);
            var tail := ReturnCode(st, operand, ty);
            Run(st.code + tail, regs0, ops) == Returned(v)
            && (AllDefined(st.code, regs0, ops) && v != Undef ==> AllDefined(st.code + tail, regs0, ops))
  {
    if operand.Reg? {
      AppendReturn(st.code, Inst(|st.code|, Ret, VoidT, None, [operand]), regs0, ops);
    } else {
      var copy := Inst(|st.code|, Copy, ty, Some(st.nextReg), [operand]);
      var ret := Inst(|st.code| + 1, Ret, VoidT, None, [Reg(st.nextReg, ty)]);
      RunAppend(st.code, copy, regs0, ops);
      AppendReturn(st.code + [copy], ret, regs0, ops);
      assert (st.code + [copy]) + [ret] == st.code + [copy, ret];
    }
  }

  // ----- The machine's own operations -----

  function MachineOps(disjointXor: bool): Ops {
    (k: Kind, vs: seq<Value>) =>
      if HasOpcode(k) then Apply(k, NoPayload, vs, (i: nat) => Undef, Machine(disjointXor)) else Undef
  }

  lemma {:induction false} MachineBinary(k: Kind, v: Value, w: Value, xor: bool)
    requires IsBinary(k)
    ensures MachineOps(xor)(k, [v, w]) == Binary(k, v, w, Machine(xor))
  {
    assert HasOpcode(k);
    assert MachineOps(xor)(k, [v, w]) == Apply(k, NoPayload, [v, w], (i: nat) => Undef, Machine(xor));
  }

  lemma {:induction false} MachineUnary(k: Kind, v: Value, xor: bool)
    requires k == Neg || k == Not
    ensures MachineOps(xor)(k, [v]) == Unary(k, v, Machine(xor))
  {
    assert HasOpcode(k);
    assert MachineOps(xor)(k, [v]) == Apply(k, NoPayload, [v], (i: nat) => Undef, Machine(xor));
  }

  lemma {:induction false} MachineInterprets(xor: bool)
    ensures Interprets(MachineOps(xor))
  {
    var ops := MachineOps(xor);
    forall k, vs, ws | AllRefine(vs, ws)
      ensures Refines(ops(k, vs), ops(k, ws))
    {
      ApplyMonotone(k, NoPayload, vs, ws, (i: nat) => Undef, Machine(xor));
    }
  }

  /** The value of every node of an acyclic graph. */
  ghost function Vals(T: seq<Term>, env: Env, sem: Sem): (vs: seq<Value>)
    ensures |vs| == |T|
    ensures forall d :: 0 <= d < |T| ==> vs[d] == Eval(T[d], env, sem)
  {
    seq(|T|, d requires 0 <= d < |T| => Eval(T[d], env, sem))
  }

  lemma {:induction false} MachineApply(k: Kind, p: Payload, ws: seq<Value>, env: Env, xor: bool)
    requires k != ConstInt && k != ConstFloat && k != Param
    ensures Apply(k, p, ws, env, Machine(xor)) == MachineOps(xor)(k, ws)
  {
    if HasOpcode(k) {
      assert MachineOps(xor)(k, ws) == Apply(k, NoPayload, ws, (i: nat) => Undef, Machine(xor));
    }
  }

  lemma {:induction false} ValsValued(g: Nodes, T: seq<Term>, env: Env, xor: bool)
    requires Labelled(g, T)
    ensures Valued(g, Vals(T, env, Machine(xor)), env, MachineOps(xor))
  {
    var vs := Vals(T, env, Machine(xor));
    forall n: nat | n < |g|
      ensures ValueAt(g, vs, env, MachineOps(xor), n)
    {
      assert LabelAt(g, T, n);
      assert SlotsIn(g, n);
      assert EvalArgs(T[n], env, Machine(xor)) == ArgVals(g, vs, n);
      if g[n].kind != ConstInt && g[n].kind != ConstFloat && g[n].kind != Param {
        MachineApply(g[n].kind, g[n].payload, ArgVals(g, vs, n), env, xor);
      }
    }
  }

  /** For every choice of parameters, a lowered function in SSA form returns the
      value of the node its first return names, in the graph it stands for. */
  lemma {:induction false} PatchedReturns(g: Nodes, T: seq<Term>, env: Env, xor: bool, regs0: Regs, n: nat)
    requires InRange(g) && Ssa(Lowered(g)) && Integral(g) && Labelled(Patched(g), T)
    requires n < |g| && NoReturn(g, n) && g[n].kind == Return && |g[n].inputs| > 1 && Preset(g, env, regs0)
    ensures var out, slot := Run(Lowered(g).blocks[0], regs0, MachineOps(xor)), Resolve(g, n, g[n].inputs[1]);
            out.Returned? && slot.Some? && slot.value < |T| && Refines(Eval(T[slot.value], env, Machine(xor)), out.value)
    ensures var slot := Resolve(g, n, g[n].inputs[1]);
            OperationsDefined(g, Vals(T, env, Machine(xor)), n) && Eval(T[slot.value], env, Machine(xor)) != Undef ==>
              AllDefined(Lowered(g).blocks[0], regs0, MachineOps(xor))
  {
    var h := Patched(g);
    ValsValued(h, T, env, xor);
    MachineInterprets(xor);
    LoweredSsaIff(g);
    FirstReturn(g, h, Vals(T, env, Machine(xor)), env, MachineOps(xor), regs0, n);
    assert h[n] == PatchedNode(g, n) && Reads(g[n], 1);
  }

  /** For every choice of parameters, the lowered function returns the value of
      the node its first return names. */
  lemma {:induction false} LoweredReturns(g: Nodes, T: seq<Term>, env: Env, xor: bool, regs0: Regs, n: nat)
    requires InRange(g) && IndexOrdered(g) && Integral(g) && Labelled(g, T)
    requires n < |g| && NoReturn(g, n) && g[n].kind == Return && |g[n].inputs| > 1 && Preset(g, env, regs0)
    ensures var out := Run(Lowered(g).blocks[0], regs0, MachineOps(xor));
            out.Returned? && g[n].inputs[1].Some? && g[n].inputs[1].value < |g|
            && Refines(Eval(T[g[n].inputs[1].value], env, Machine(xor)), out.value)
    ensures OperationsDefined(g, Vals(T, env, Machine(xor)), n)
            && Eval(T[g[n].inputs[1].value], env, Machine(xor)) != Undef ==>
              AllDefined(Lowered(g).blocks[0], regs0, MachineOps(xor))
  {
    LoweredIsSsa(g);
    OrderedLabels(g, T);
    assert NodeOrdered(g, n) && Reads(g[n], 1) && LabelAt(g, T, n);
    var U, d := LiteralTerms(T), g[n].inputs[1].value;
    PatchedReturns(g, U, env, xor, regs0, n);
    LiteralRefines(T[d], env, xor);
    LiteralsDefined(g, T, env, xor, n);
  }

  lemma {:induction false} LiteralsDefined(g: Nodes, T: seq<Term>, env: Env, xor: bool, n: nat)
    requires n <= |g| == |T|
    ensures OperationsDefined(g, Vals(T, env, Machine(xor)), n) ==> OperationsDefined(g, Vals(LiteralTerms(T), env, Machine(xor)), n)
  {
    forall d: nat | d < n
      ensures Refines(Vals(T, env, Machine(xor))[d], Vals(LiteralTerms(T), env, Machine(xor))[d])
    {
      LiteralRefines(T[d], env, xor);
    }
  }
}
