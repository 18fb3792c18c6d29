/**
 Encoding selected instructions as bytecode. Immediates go through one scratch
 register, the highest of the frame; two-operand opcodes are found by searching
 the mnemonic for a name.
 */
module Encoder {
  import opened Wrappers
  import opened Values
  import opened Mal
  import opened Mds
  import opened Bytecode

  // ----- From mnemonics to opcodes -----

  /** The mnemonic without its target prefix. */
  function Mnemonic(d: Desc): string {
    match d
    case MovRR => "mov.rr"
    case MovRI => "mov.ri"
    case AddRR => "add.rr"
    case AddRI => "add.ri"
    case SubRR => "sub.rr"
    case SubRI => "sub.ri"
    case MulRR => "mul.rr"
    case NegR => "neg"
    case AndRR => "and.rr"
    case OrRR => "or.rr"
    case XorRR => "xor.rr"
    case NotR => "not"
    case ShlRI => "shl.ri"
    case AshrRI => "ashr.ri"
    case CmpEq => "icmp.eq"
    case CmpNe => "icmp.ne"
    case CmpSlt => "icmp.slt"
    case CmpSle => "icmp.sle"
    case CmpSgt => "icmp.sgt"
    case CmpSge => "icmp.sge"
    case RetR => "ret"
  }

  predicate OccursAt(text: string, part: string, i: nat, j: nat)
    requires j <= |part| && i + |part| <= |text|
    decreases |part| - j
  {
    j == |part| || (text[i + j] == part[j] && OccursAt(text, part, i, j + 1))
  }

  /** `part` occurs in `text` at `i` or later. */
  predicate OccursFrom(text: string, part: string, i: nat)
    decreases |text| - i
  {
    i + |part| <= |text| && (OccursAt(text, part, i, 0) || OccursFrom(text, part, i + 1))
  }

  predicate Occurs(text: string, part: string) {
    OccursFrom(text, part, 0)
  }

  /** The search means what it should: `part` stands in `text` at some place. */
  lemma {:induction false} OccursMeans(text: string, part: string)
    ensures Occurs(text, part) <==> exists i :: StandsAt(text, part, i)
  {
    OccursFromMeans(text, part, 0);
    if i :| StandsAt(text, part, i) {
      assert StandsAt(text, part, i) && 0 <= i;
    }
  }

  ghost predicate StandsAt(text: string, part: string, i: nat) {
    i + |part| <= |text| && text[i..i + |part|] == part
  }

  lemma {:induction false} OccursFromMeans(text: string, part: string, i: nat)
    ensures OccursFrom(text, part, i) <==> exists k :: i <= k && StandsAt(text, part, k)
    decreases |text| - i
  {
    if i + |part| <= |text| {
      OccursAtMeans(text, part, i, 0);
      assert part[0..] == part && text[i + 0..i + |part|] == text[i..i + |part|];
      assert OccursAt(text, part, i, 0) <==> StandsAt(text, part, i);
      OccursFromMeans(text, part, i + 1);
      if k :| i <= k && StandsAt(text, part, k) {
        assert k == i || i + 1 <= k;
      }
    }
  }

  lemma {:induction false} OccursAtMeans(text: string, part: string, i: nat, j: nat)
    requires j <= |part| && i + |part| <= |text|
    ensures OccursAt(text, part, i, j) <==> text[i + j..i + |part|] == part[j..]
    decreases |part| - j
  {
    if j < |part| {
      OccursAtMeans(text, part, i, j + 1);
      var a, b := text[i + j..i + |part|], part[j..];
      assert a == [text[i + j]] + text[i + j + 1..i + |part|];
      assert b == [part[j]] + part[j + 1..];
      if a == b {
        assert a[0] == b[0] && a[1..] == b[1..];
      }
    }
  }

  /** The tests in the order they are made; `or.` comes before `xor.`. */
  function BinaryOp(name: string): Option<Byte> {
    if Occurs(name, "add.") then Some(ADD)
    else if Occurs(name, "sub.") then Some(SUB)
    else if Occurs(name, "mul.") then Some(MUL)
    else if Occurs(name, "and.") then Some(AND)
    else if Occurs(name, "or.") then Some(OR)
    else if Occurs(name, "xor.") then Some(XOR)
    else if Occurs(name, "shl.") then Some(SHL)
    else if Occurs(name, "ashr.") then Some(SHR)
    else CompareOp(name)
  }

  function CompareOp(name: string): Option<Byte> {
    if Occurs(name, "icmp.eq") then Some(EQ)
    else if Occurs(name, "icmp.ne") then Some(NE)
    else if Occurs(name, "icmp.slt") then Some(LT)
    else if Occurs(name, "icmp.sle") then Some(LE)
    else if Occurs(name, "icmp.sgt") then Some(GT)
    else if Occurs(name, "icmp.sge") then Some(GE)
    else None
  }

  /** None of the tests before the comparisons succeeds. */
  predicate NotArithmetic(name: string) {
    && !Occurs(name, "add.") && !Occurs(name, "sub.") && !Occurs(name, "mul.") && !Occurs(name, "and.")
    && !Occurs(name, "or.") && !Occurs(name, "xor.") && !Occurs(name, "shl.") && !Occurs(name, "ashr.")
  }

  predicate IsBinaryDesc(d: Desc) {
    !OneInput(d) && d != RetR
  }

  /** What the search finds for each two-operand instruction; exclusive or is
      taken for or. */
  function FoundOp(d: Desc): (op: Byte)
    requires IsBinaryDesc(d)
    ensures IsArithmetic(op)
  {
    match d
    case AddRR => ADD
    case AddRI => ADD
    case SubRR => SUB
    case SubRI => SUB
    case MulRR => MUL
    case AndRR => AND
    case OrRR => OR
    case XorRR => OR
    case ShlRI => SHL
    case AshrRI => SHR
    case CmpEq => EQ
    case CmpNe => NE
    case CmpSlt => LT
    case CmpSle => LE
    case CmpSgt => GT
    case CmpSge => GE
  }

  lemma {:induction false} SearchArithmetic()
    ensures BinaryOp("add.rr") == Some(ADD) && BinaryOp("add.ri") == Some(ADD)
    ensures BinaryOp("sub.rr") == Some(SUB) && BinaryOp("sub.ri") == Some(SUB)
    ensures BinaryOp("mul.rr") == Some(MUL)
  {
  }

  lemma {:induction false} SearchLogic()
    ensures BinaryOp("and.rr") == Some(AND) && BinaryOp("or.rr") == Some(OR)
  {
  }

  lemma {:induction false} SearchXor()
    ensures BinaryOp("xor.rr") == Some(OR)
  {
  }

  lemma {:induction false} SearchShl()
    ensures BinaryOp("shl.ri") == Some(SHL)
  {
  }

  lemma {:induction false} SearchAshr()
    ensures BinaryOp("ashr.ri") == Some(SHR)
  {
  }

  lemma {:induction false} SearchEq()
    ensures BinaryOp("icmp.eq") == Some(EQ)
  {
  }

  lemma {:induction false} SearchNe()
    ensures BinaryOp("icmp.ne") == Some(NE)
  {
  }

  lemma {:induction false} SltApart()
    ensures NotArithmetic("icmp.slt")
  {
  }

  lemma {:induction false} SltCompares()
    ensures CompareOp("icmp.slt") == Some(LT)
  {
  }

  lemma {:induction false} SearchSlt()
    ensures BinaryOp("icmp.slt") == Some(LT)
  {
    SltApart();
    SltCompares();
  }

  lemma {:induction false} SleApart()
    ensures NotArithmetic("icmp.sle")
  {
  }

  lemma {:induction false} SleCompares()
    ensures CompareOp("icmp.sle") == Some(LE)
  {
  }

  lemma {:induction false} SearchSle()
    ensures BinaryOp("icmp.sle") == Some(LE)
  {
    SleApart();
    SleCompares();
  }

  lemma {:induction false} SgtApart()
    ensures NotArithmetic("icmp.sgt")
  {
  }

  lemma {:induction false} SgtCompares()
    ensures CompareOp("icmp.sgt") == Some(GT)
  {
  }

  lemma {:induction false} SearchSgt()
    ensures BinaryOp("icmp.sgt") == Some(GT)
  {
    SgtApart();
    SgtCompares();
  }

  lemma {:induction false} SgeApart()
    ensures NotArithmetic("icmp.sge")
  {
  }

  lemma {:induction false} SgeCompares()
    ensures CompareOp("icmp.sge") == Some(GE)
  {
  }

  lemma {:induction false} SearchSge()
    ensures BinaryOp("icmp.sge") == Some(GE)
  {
    SgeApart();
    SgeCompares();
  }

  lemma {:induction false} SearchFinds(d: Desc)
    requires IsBinaryDesc(d)
    ensures BinaryOp(Mnemonic(d)) == Some(FoundOp(d))
  {
    SearchArithmetic();
    SearchLogic();
    SearchXor();
    SearchShl();
    SearchAshr();
    SearchEq();
    SearchNe();
    SearchSlt();
    SearchSle();
    SearchSgt();
    SearchSge();
  }

  // ----- Emitting one instruction -----

  datatype Builder = Builder(instrs: seq<Word>, consts: seq<Word>, scratch: U16)

  function Append(bd: Builder, w: Word): Builder {
    bd.(instrs := bd.instrs + [w])
  }

  predicate FitsI32(n: int) {
    -0x8000_0000 <= n < 0x8000_0000
  }

  /** Register numbers are cut to 16 bits. */
  function Cut16(r: nat): U16 {
    r % 0x1_0000
  }

  function LoadConst(bd: Builder, w: Word): Builder {
    bd.(instrs := bd.instrs + [EncodeWide(LOAD_CONST, bd.scratch, Low32(|bd.consts|))], consts := bd.consts + [w])
  }

  /** The register that holds an operand, after loading immediates to the
      scratch register; blocks and types have none. */
  function ToReg(bd: Builder, o: Operand): Option<(Builder, U16)> {
    match o
    case Reg(r, _) => Some((bd, Cut16(r)))
    case ImmInt(n, _) =>
      if FitsI32(n) then Some((Append(bd, EncodeWide(LOAD_IMM, bd.scratch, Low32(n))), bd.scratch))
      else Some((LoadConst(bd, BoxInt(n)), bd.scratch))
    case ImmFloat(bits, _) => Some((LoadConst(bd, bits), bd.scratch))
    case _ => None
  }

  function EmitMove(bd: Builder, s: Selected): Option<Builder> {
    if |s.operands| != 2 || !s.operands[0].Reg? || ToReg(bd, s.operands[1]).None? then None
    else
      var dst, (bd', rhs) := Cut16(s.operands[0].reg), ToReg(bd, s.operands[1]).value;
      if s.desc == MovRI && rhs == dst then Some(bd') else Some(Append(bd', Encode(MOVE, dst, rhs, 0)))
  }

  function EmitReturn(bd: Builder, s: Selected): Option<Builder> {
    if |s.operands| != 1 || ToReg(bd, s.operands[0]).None? then None
    else
      var (bd', r) := ToReg(bd, s.operands[0]).value;
      Some(Append(bd', Encode(RETURN, r, 0, 0)))
  }

  function EmitOther(bd: Builder, s: Selected): Option<Builder> {
    if |s.operands| < 2 || !s.operands[0].Reg? || ToReg(bd, s.operands[1]).None? then None
    else
      var dst, (bd', lhs) := Cut16(s.operands[0].reg), ToReg(bd, s.operands[1]).value;
      if s.desc == NegR then Some(Append(bd', Encode(NEG, dst, lhs, 0)))
      else if s.desc == NotR then Some(Append(bd', Encode(NOT, dst, lhs, 0)))
      else if |s.operands| < 3 || ToReg(bd', s.operands[2]).None? || BinaryOp(Mnemonic(s.desc)).None? then None
      else
        var (bd'', rhs) := ToReg(bd', s.operands[2]).value;
        Some(Append(bd'', Encode(BinaryOp(Mnemonic(s.desc)).value, dst, lhs, rhs)))
  }

  function EmitInst(bd: Builder, s: Selected): Option<Builder> {
    if s.desc == MovRR || s.desc == MovRI then EmitMove(bd, s)
    else if s.desc == RetR then EmitReturn(bd, s)
    else EmitOther(bd, s)
  }

  // ----- Whole programs -----

  /** The highest register named by the first `n` operands. */
  function MaxOperand(os: seq<Operand>, n: nat): nat
    requires n <= |os|
  {
    if n == 0 then 0
    else
      var m := MaxOperand(os, n - 1);
      if os[n - 1].Reg? && os[n - 1].reg > m then os[n - 1].reg else m
  }

  function MaxReg(code: seq<Selected>, n: nat): nat
    requires n <= |code|
  {
    if n == 0 then 0
    else
      var m, k := MaxReg(code, n - 1), MaxOperand(code[n - 1].operands, |code[n - 1].operands|);
      if k > m then k else m
  }

  /** Two more than the highest register, or 65535 when that does not fit. */
  function RegCount(max: nat): U16 {
    if max >= 0xFFFE then 0xFFFF else max + 2
  }

  method ComputeRegCount(code: seq<Selected>) returns (count: U16)
    ensures count == RegCount(MaxReg(code, |code|))
  {
    var max := 0;
    var i := 0;
    while i < |code|
      invariant 0 <= i <= |code| && max == MaxReg(code, i)
    {
      var os := code[i].operands;
      var k := 0;
      while k < |os|
        invariant 0 <= k <= |os|
        invariant max == if MaxOperand(os, k) > MaxReg(code, i) then MaxOperand(os, k) else MaxReg(code, i)
      {
        if os[k].Reg? && os[k].reg > max {
          max := os[k].reg;
        }
        k := k + 1;
      }
      i := i + 1;
    }
    count := if max >= 0xFFFE then 0xFFFF else max + 2;
  }

  /** `bds[n]` is the builder after `n` instructions. */
  ghost predicate Emitted(code: seq<Selected>, bds: seq<Builder>) {
    && |bds| == |code| + 1 && bds[0].instrs == [] && bds[0].consts == []
    && forall n :: 0 <= n < |code| ==> EmittedAt(code, bds, n)
  }

  ghost predicate EmittedAt(code: seq<Selected>, bds: seq<Builder>, n: nat)
    requires n < |code| && n + 1 < |bds|
  {
    EmitInst(bds[n], code[n]) == Some(bds[n + 1])
  }

  /** The prototype of a code stream: its registers, the words and constants
      emitted for it in order, and a lone `HALT` for empty code. */
  ghost predicate Encodes(code: seq<Selected>, bds: seq<Builder>, p: Prototype) {
    && Emitted(code, bds) && p.hasCode && p.regCount == RegCount(MaxReg(code, |code|))
    && bds[0].scratch == p.regCount - 1
    && p.consts == bds[|code|].consts
    && p.instrs == (if bds[|code|].instrs == [] then [EncodeBare(HALT)] else bds[|code|].instrs)
  }

  /** No parameters, strings or nested prototypes, and line 0 for every word. */
  ghost predicate Plain(p: Prototype) {
    && p.paramCount == 0 && p.isVararg == 0 && p.strCount == 0 && p.protoCount == 0
    && p.lineMap.Some? && |p.lineMap.value| == |p.instrs| && forall i :: 0 <= i < |p.instrs| ==> p.lineMap.value[i] == 0
  }

  /** The instruction after those emitted so far cannot be. */
  ghost predicate Stuck(code: seq<Selected>, bds: seq<Builder>) {
    && 0 < |bds| <= |code| && (forall n :: 0 <= n < |bds| - 1 ==> EmittedAt(code, bds, n))
    && EmitInst(bds[|bds| - 1], code[|bds| - 1]).None?
  }

  method PrototypeFromTos(code: seq<Selected>, name: seq<Byte>, source: seq<Byte>)
    returns (out: Option<Prototype>, ghost bds: seq<Builder>)
    ensures out.Some? ==> Encodes(code, bds, out.value)
    ensures out.Some? ==> out.value.name == Some(name) && out.value.source == Some(source)
    ensures out.Some? ==> Plain(out.value)
    ensures out.None? ==> Stuck(code, bds)
  {
    var regCount := ComputeRegCount(code);
    var bd := Builder([], [], regCount - 1);
    bds := [bd];
    var i := 0;
    while i < |code|
      invariant 0 <= i <= |code| && |bds| == i + 1 && bd == bds[i] && bds[0] == Builder([], [], regCount - 1)
      invariant forall n :: 0 <= n < i ==> EmittedAt(code, bds, n)
    {
      var next := EmitInst(bd, code[i]);
      if next.None? {
        return None, bds;
      }
      bd := next.value;
      ghost var before := bds;
      bds := bds + [bd];
      forall n | 0 <= n < i + 1
        ensures EmittedAt(code, bds, n)
      {
        assert n < i ==> EmittedAt(code, before, n);
      }
      i := i + 1;
    }
    var instrs := if bd.instrs == [] then [EncodeBare(HALT)] else bd.instrs;
    out := Some(Prototype(Some(name), Some(source), true, instrs, bd.consts, regCount, 0, 0, 0, 0,
                          Some(seq(|instrs|, _ => 0))));
  }
}
