/**
 WIL node kinds, and the finite terms that acyclic WIL nodes unfold to: their
 value over wrap-around integers and booleans, and their rewriting weight.
 */
module Terms {
  import opened Values

  datatype Kind =
    | ConstInt | ConstFloat | ConstBool | UndefNode
    | Param
    | Add | Sub | Mul | Div | Mod | And | Or | Xor | Shl | Shr
    | Neg | Not | Abs
    | Eq | Ne | Lt | Le | Gt | Ge
    | Load | Store | Alloca
    | Start | Region | If | Loop | Return | Jump | Proj
    | Phi
    | Call | CallIndirect
    | Cast | Bitcast
    | Extract | Insert
    | Select

  /** The payload union of a node; a node that never had one reads as zero. */
  datatype Payload =
    | NoPayload | IntPayload(n: int) | BoolPayload(flag: bool) | FloatPayload(bits: Word) | IndexPayload(index: nat)

  function PayloadInt(p: Payload): int {
    if p.IntPayload? then p.n else 0
  }

  function PayloadBits(p: Payload): Word {
    if p.FloatPayload? then p.bits else 0
  }

  function PayloadBool(p: Payload): bool {
    p.BoolPayload? && p.flag
  }

  function PayloadIndex(p: Payload): nat {
    if p.IndexPayload? then p.index else 0
  }

  /** The finite tree a node unfolds to when its inputs form no cycle. */
  datatype Term = Term(kind: Kind, payload: Payload, args: seq<Term>)

  // ----- Values -----

  /** Which operations have a value.
      `Source(trap)`: the typed reading of a graph, where `trap` leaves division
      by zero undefined and otherwise gives the interpreter's answer 0.
      `Machine(disjointXor)`: what the bytecode interpreter can be asked to
      compute, integers only and no `Abs`; with `disjointXor`, `Xor` only has a value on
      operands that share no set bit. */
  datatype Sem = Source(trap: bool) | Machine(disjointXor: bool)

  /** Parameter values by parameter index. */
  type Env = nat -> Value

  predicate IsBinary(k: Kind) {
    k.Add? || k.Sub? || k.Mul? || k.Div? || k.Mod? || k.And? || k.Or? || k.Xor? || k.Shl? || k.Shr?
    || k.Eq? || k.Ne? || k.Lt? || k.Le? || k.Gt? || k.Ge?
  }

  predicate IsUnary(k: Kind) {
    k.Neg? || k.Not? || k.Abs?
  }

  function BinaryInt(k: Kind, a: I32, b: I32, sem: Sem): Value
    requires IsBinary(k)
  {
    match k
    case Add => Int(Wrap(a + b))
    case Sub => Int(Wrap(a - b))
    case Mul => Int(Wrap(a * b))
    case Div => if b == 0 && sem == Source(true) then Undef else Int(SDiv(a, b))
    case Mod => if b == 0 && sem == Source(true) then Undef else Int(SRem(a, b))
    case And => Int(Bits32(AndBits, a, b))
    case Or => Int(Bits32(OrBits, a, b))
    case Xor =>
      if sem == Machine(true) && Bits32(AndBits, a, b) != 0 then Undef else Int(Bits32(XorBits, a, b))
    case Shl => if 0 <= b < 32 then Int(Shl32(a, b)) else Undef
    case Shr => if 0 <= b < 32 then Int(Sar32(a, b)) else Undef
    case Eq => Bool(a == b)
    case Ne => Bool(a != b)
    case Lt => Bool(a < b)
    case Le => Bool(a <= b)
    case Gt => Bool(a > b)
    case Ge => Bool(a >= b)
  }

  function BinaryBool(k: Kind, a: bool, b: bool): Value {
    match k
    case And => Bool(a && b)
    case Or => Bool(a || b)
    case Xor => Bool(a != b)
    case Eq => Bool(a == b)
    case Ne => Bool(a != b)
    case _ => Undef
  }

  function Binary(k: Kind, v: Value, w: Value, sem: Sem): Value
    requires IsBinary(k)
  {
    if v.Int? && w.Int? then BinaryInt(k, v.i, w.i, sem)
    else if v.Bool? && w.Bool? && sem.Source? then BinaryBool(k, v.b, w.b)
    else Undef
  }

  function Unary(k: Kind, v: Value, sem: Sem): Value
    requires IsUnary(k)
  {
    if v.Int? then
      match k
      case Neg => Int(Wrap(0 - v.i))
      case Not => Int(-1 - v.i)
      case Abs => if sem.Source? then Int(Wrap(AbsInt(v.i))) else Undef
    else if v.Bool? && k == Not && sem.Source? then Bool(!v.b)
    else Undef
  }

  /** The value of one node from the values of its inputs. */
  function Apply(k: Kind, p: Payload, args: seq<Value>, env: Env, sem: Sem): Value {
    if k == ConstInt then Int(Wrap(PayloadInt(p)))
    else if k == ConstBool && sem.Source? then Bool(PayloadBool(p))
    else if k == ConstFloat then Float(PayloadBits(p))
    else if k == Param then env(PayloadIndex(p))
    else if IsBinary(k) && |args| == 2 then Binary(k, args[0], args[1], sem)
    else if IsUnary(k) && |args| == 1 then Unary(k, args[0], sem)
    else if k == Select && |args| == 3 && args[0].Bool? && sem.Source? then
      if args[0].b then args[1] else args[2]
    else Undef
  }

  function Eval(t: Term, env: Env, sem: Sem): Value
    decreases t, 1
  {
    Apply(t.kind, t.payload, EvalArgs(t, env, sem), env, sem)
  }

  function EvalArgs(t: Term, env: Env, sem: Sem): (vs: seq<Value>)
    ensures |vs| == |t.args|
    ensures forall k :: 0 <= k < |vs| ==> vs[k] == Eval(t.args[k], env, sem)
    decreases t, 0
  {
    seq(|t.args|, k requires 0 <= k < |t.args| => Eval(t.args[k], env, sem))
  }

  /** Every operation is monotone: defining an argument further never changes
      a result that was already defined. */
  lemma {:induction false} ApplyMonotone(k: Kind, p: Payload, vs: seq<Value>, ws: seq<Value>, env: Env, sem: Sem)
    requires |vs| == |ws|
    requires forall j :: 0 <= j < |vs| ==> Refines(vs[j], ws[j])
    ensures Refines(Apply(k, p, vs, env, sem), Apply(k, p, ws, env, sem))
  {
    if IsBinary(k) && |vs| == 2 {
      BinaryStrict(k, vs[0], vs[1], ws[0], ws[1], sem);
    } else if IsUnary(k) && |vs| == 1 {
      UnaryStrict(k, vs[0], ws[0], sem);
    } else if k == Select && |vs| == 3 {
      assert Refines(vs[0], ws[0]) && Refines(vs[1], ws[1]) && Refines(vs[2], ws[2]);
    }
  }

  lemma {:induction false} UnaryStrict(k: Kind, v: Value, w: Value, sem: Sem)
    requires IsUnary(k) && Refines(v, w)
    ensures Refines(Unary(k, v, sem), Unary(k, w, sem))
  {
  }

  lemma {:induction false} BinaryStrict(k: Kind, v: Value, w: Value, v': Value, w': Value, sem: Sem)
    requires IsBinary(k) && Refines(v, v') && Refines(w, w')
    ensures Refines(Binary(k, v, w, sem), Binary(k, v', w', sem))
  {
    if v == Undef || w == Undef {
      assert Binary(k, v, w, sem) == Undef;
    }
  }

  /** A value the machine can compute is the value the source reading gives. */
  lemma {:induction false} MachineAgrees(t: Term, env: Env, xor: bool)
    ensures Refines(Eval(t, env, Machine(xor)), Eval(t, env, Source(false)))
  {
    var vs, ws := EvalArgs(t, env, Machine(xor)), EvalArgs(t, env, Source(false));
    forall j | 0 <= j < |t.args|
      ensures Refines(vs[j], ws[j])
    {
      MachineAgrees(t.args[j], env, xor);
    }
    ApplyMonotone(t.kind, t.payload, vs, ws, env, Machine(xor));
    ApplyAgrees(t.kind, t.payload, ws, env, xor);
  }

  lemma {:induction false} BinaryAgrees(k: Kind, v: Value, w: Value, xor: bool)
    requires IsBinary(k)
    ensures Refines(Binary(k, v, w, Machine(xor)), Binary(k, v, w, Source(false)))
  {
  }

  lemma {:induction false} ApplyAgrees(k: Kind, p: Payload, vs: seq<Value>, env: Env, xor: bool)
    ensures Refines(Apply(k, p, vs, env, Machine(xor)), Apply(k, p, vs, env, Source(false)))
  {
    if IsBinary(k) && |vs| == 2 {
      BinaryAgrees(k, vs[0], vs[1], xor);
    }
  }

  // ----- Weights -----

  /** Additions and subtractions weigh 2, every other node 1. */
  function KindWeight(k: Kind): nat {
    if k == Add || k == Sub then 2 else 1
  }

  function Weight(t: Term): (w: nat)
    ensures w >= 1
    decreases t, 1
  {
    KindWeight(t.kind) + WeightAll(t.args)
  }

  function WeightAll(ts: seq<Term>): nat
    decreases ts, 0
  {
    if ts == [] then 0 else Weight(ts[0]) + WeightAll(ts[1..])
  }

  /** Lowering every weight lowers the sum. */
  lemma {:induction false} WeightMonotone(ts: seq<Term>, us: seq<Term>)
    requires |ts| == |us|
    requires forall k :: 0 <= k < |ts| ==> Weight(ts[k]) <= Weight(us[k])
    ensures WeightAll(ts) <= WeightAll(us)
  {
    if ts != [] {
      WeightMonotone(ts[1..], us[1..]);
    }
  }

  /** Lowering every weight, and the `k`th by at least `d`, lowers the sum by at least `d`. */
  lemma {:induction false} WeightDrop(ts: seq<Term>, us: seq<Term>, k: nat, d: nat)
    requires |ts| == |us| && k < |ts|
    requires forall j :: 0 <= j < |ts| ==> Weight(ts[j]) <= Weight(us[j])
    requires Weight(ts[k]) + d <= Weight(us[k])
    ensures WeightAll(ts) + d <= WeightAll(us)
  {
    if k == 0 {
      WeightMonotone(ts[1..], us[1..]);
    } else {
      WeightDrop(ts[1..], us[1..], k - 1, d);
    }
  }

  lemma {:induction false} MemberWeight(ts: seq<Term>, k: nat)
    requires k < |ts|
    ensures Weight(ts[k]) <= WeightAll(ts)
  {
    if k > 0 {
      MemberWeight(ts[1..], k - 1);
    }
  }

  /** A node outweighs each of its inputs. */
  lemma {:induction false} ArgLighter(t: Term, k: nat)
    requires k < |t.args|
    ensures Weight(t.args[k]) < Weight(t)
  {
    MemberWeight(t.args, k);
  }
}
