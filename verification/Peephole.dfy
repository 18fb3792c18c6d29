/**
 The MAL peephole rules: matching one instruction, building its replacement,
 and what a replacement keeps.
 */
module Peephole {
  import opened Wrappers
  import opened Values
  import opened Terms
  import opened Mal
  import opened Lowering

  /** Literal patterns are immediates or block references, never registers. */
  type LiteralOperand = o: Operand | !o.Reg? witness ImmInt(0, I32T)

  datatype OperandPattern = AnyOperand | Literal(operand: LiteralOperand) | Variable(name: string)

  datatype PeepRule = PeepRule(matchOp: Opcode, matched: seq<OperandPattern>,
                               replaceOp: Opcode, replaced: seq<OperandPattern>)

  /** How many variables one match can bind. */
  const MAX_BINDINGS := 8

  predicate IsNaN(bits: Word) {
    bits % 0x8000_0000_0000_0000 > 0x7FF0_0000_0000_0000
  }

  /** IEEE equality of doubles: a NaN equals nothing, and both zeros are equal. */
  predicate FloatEqual(a: Word, b: Word) {
    !IsNaN(a) && !IsNaN(b) && (a == b || (a % 0x8000_0000_0000_0000 == 0 && b % 0x8000_0000_0000_0000 == 0))
  }

  predicate OperandEqual(a: Operand, b: Operand) {
    match (a, b)
    case (Reg(r, t), Reg(q, u)) => r == q && t == u
    case (ImmInt(m, t), ImmInt(n, u)) => m == n && t == u
    case (ImmFloat(m, t), ImmFloat(n, u)) => FloatEqual(m, n) && t == u
    case (BlockRef(m), BlockRef(n)) => m == n
    case (TypeRef(t), TypeRef(u)) => t == u
    case _ => false
  }

  // ----- What a match is -----

  /** The first of `ps[..n]` that is the variable `name`, or `n`. */
  function FirstUse(ps: seq<OperandPattern>, name: string, n: nat): (i: nat)
    requires n <= |ps|
    ensures i <= n && (i < n ==> ps[i] == Variable(name))
    ensures forall j :: 0 <= j < i ==> ps[j] != Variable(name)
  {
    if n == 0 then 0
    else
      var i := FirstUse(ps, name, n - 1);
      if i < n - 1 || ps[n - 1] == Variable(name) then i else n
  }

  /** How many different variables `ps[..n]` has. */
  function VarCount(ps: seq<OperandPattern>, n: nat): nat
    requires n <= |ps|
  {
    if n == 0 then 0
    else VarCount(ps, n - 1)
         + (if ps[n - 1].Variable? && FirstUse(ps, ps[n - 1].name, n - 1) == n - 1 then 1 else 0)
  }

  /** Operand `i` equals its literal, or the operand its variable stood for first. */
  predicate PatternHolds(ps: seq<OperandPattern>, os: seq<Operand>, i: nat)
    requires i < |ps| == |os|
  {
    match ps[i]
    case AnyOperand => true
    case Literal(o) => OperandEqual(o, os[i])
    case Variable(x) => var f := FirstUse(ps, x, i); f < i ==> OperandEqual(os[f], os[i])
  }

  predicate Matches(rule: PeepRule, inst: Inst) {
    && rule.matchOp == inst.opcode && |rule.matched| == |inst.operands|
    && (forall i :: 0 <= i < |rule.matched| ==> PatternHolds(rule.matched, inst.operands, i))
    && VarCount(rule.matched, |rule.matched|) <= MAX_BINDINGS
  }

  /** Operands of the first `n` replacement patterns; an unbound variable ends them. */
  function ReplaceTo(rule: PeepRule, os: seq<Operand>, n: nat): (seq<Operand>, bool)
    requires |os| == |rule.matched| && n <= |rule.replaced|
  {
    if n == 0 then ([], true)
    else
      var (done, open) := ReplaceTo(rule, os, n - 1);
      if !open then (done, false)
      else
        match rule.replaced[n - 1]
        case AnyOperand => (done, true)
        case Literal(o) => (done + [o], true)
        case Variable(x) =>
          var f := FirstUse(rule.matched, x, |rule.matched|);
          if f == |rule.matched| then (done, false) else (done + [os[f]], true)
  }

  /** The replacement keeps the instruction's number, type and destination. */
  function Replacement(rule: PeepRule, inst: Inst): Inst
    requires |inst.operands| == |rule.matched|
  {
    inst.(opcode := rule.replaceOp, operands := ReplaceTo(rule, inst.operands, |rule.replaced|).0)
  }

  // ----- Matching and building, as loops -----

  method FindBinding(names: seq<string>, name: string) returns (index: Option<nat>)
    ensures index.Some? ==> index.value < |names| && names[index.value] == name
    ensures index.None? ==> name !in names
  {
    var i := 0;
    while i < |names|
      invariant 0 <= i <= |names|
      invariant forall c :: 0 <= c < i ==> names[c] != name
    {
      if names[i] == name {
        return Some(i);
      }
      i := i + 1;
    }
    index := None;
  }

  /** The bindings hold the first use of every variable of `ps[..n]`. */
  ghost predicate Bindings(ps: seq<OperandPattern>, os: seq<Operand>, n: nat, names: seq<string>, bound: seq<Operand>)
    requires n <= |ps| == |os|
  {
    && |names| == |bound| == VarCount(ps, n)
    && (forall c :: 0 <= c < |names| ==> BindingAt(ps, os, n, names[c], bound[c]))
    && (forall i :: 0 <= i < n && ps[i].Variable? ==> ps[i].name in names)
  }

  ghost predicate BindingAt(ps: seq<OperandPattern>, os: seq<Operand>, n: nat, name: string, o: Operand)
    requires n <= |ps| == |os|
  {
    FirstUse(ps, name, n) < n && o == os[FirstUse(ps, name, n)]
  }

  /** An unused name has no first use; a used one keeps it. */
  lemma {:induction false} FirstUseStable(ps: seq<OperandPattern>, name: string, n: nat, m: nat)
    requires n <= m <= |ps| && FirstUse(ps, name, n) < n
    ensures FirstUse(ps, name, m) == FirstUse(ps, name, n)
    decreases m
  {
    if n < m {
      FirstUseStable(ps, name, n, m - 1);
    }
  }

  lemma {:induction false} KeepBindings(ps: seq<OperandPattern>, os: seq<Operand>, n: nat, names: seq<string>, bound: seq<Operand>)
    requires n < |ps| == |os| && Bindings(ps, os, n, names, bound)
    requires ps[n].Variable? ==> ps[n].name in names
    ensures Bindings(ps, os, n + 1, names, bound)
  {
    forall c | 0 <= c < |names|
      ensures BindingAt(ps, os, n + 1, names[c], bound[c])
    {
      assert BindingAt(ps, os, n, names[c], bound[c]);
      FirstUseStable(ps, names[c], n, n + 1);
    }
    if ps[n].Variable? {
      var c :| 0 <= c < |names| && names[c] == ps[n].name;
      assert BindingAt(ps, os, n, names[c], bound[c]);
    }
  }

  lemma {:induction false} NewBinding(ps: seq<OperandPattern>, os: seq<Operand>, n: nat, names: seq<string>, bound: seq<Operand>)
    requires n < |ps| == |os| && Bindings(ps, os, n, names, bound)
    requires ps[n].Variable? && ps[n].name !in names
    ensures FirstUse(ps, ps[n].name, n) == n
    ensures Bindings(ps, os, n + 1, names + [ps[n].name], bound + [os[n]])
  {
    var x := ps[n].name;
    assert FirstUse(ps, x, n) == n;
    var names', bound' := names + [x], bound + [os[n]];
    forall c | 0 <= c < |names'|
      ensures BindingAt(ps, os, n + 1, names'[c], bound'[c])
    {
      if c < |names| {
        assert BindingAt(ps, os, n, names[c], bound[c]);
        FirstUseStable(ps, names[c], n, n + 1);
      }
    }
  }

  lemma {:induction false} VarsGrow(ps: seq<OperandPattern>, n: nat, m: nat)
    requires n <= m <= |ps|
    ensures VarCount(ps, n) <= VarCount(ps, m)
    decreases m
  {
    if n < m {
      VarsGrow(ps, n, m - 1);
    }
  }

  /** A literal is compared; a variable is compared with its binding, or bound
      if there is room. */
  method MatchOperand(ps: seq<OperandPattern>, os: seq<Operand>, i: nat, names: seq<string>, bound: seq<Operand>)
    returns (ok: bool, names': seq<string>, bound': seq<Operand>)
    requires i < |ps| == |os| && Bindings(ps, os, i, names, bound) && |names| <= MAX_BINDINGS
    ensures ok <==> PatternHolds(ps, os, i) && VarCount(ps, i + 1) <= MAX_BINDINGS
    ensures ok ==> Bindings(ps, os, i + 1, names', bound')
  {
    names', bound' := names, bound;
    if !ps[i].Variable? {
      ok := ps[i].Literal? ==> OperandEqual(ps[i].operand, os[i]);
      KeepBindings(ps, os, i, names, bound);
      return;
    }
    var index := FindBinding(names, ps[i].name);
    if index.Some? {
      assert BindingAt(ps, os, i, names[index.value], bound[index.value]);
      ok := OperandEqual(bound[index.value], os[i]);
      KeepBindings(ps, os, i, names, bound);
    } else {
      NewBinding(ps, os, i, names, bound);
      ok := |names| < MAX_BINDINGS;
      if ok {
        names', bound' := names + [ps[i].name], bound + [os[i]];
      }
    }
  }

  /** The matcher accepts exactly the instructions that match, and binds every
      variable to the operand of its first use. */
  method MatchRule(rule: PeepRule, inst: Inst) returns (ok: bool, names: seq<string>, bound: seq<Operand>)
    ensures ok <==> Matches(rule, inst)
    ensures ok ==> Bindings(rule.matched, inst.operands, |rule.matched|, names, bound)
  {
    names, bound := [], [];
    if rule.matchOp != inst.opcode || |rule.matched| != |inst.operands| {
      return false, [], [];
    }
    var ps, os := rule.matched, inst.operands;
    var i := 0;
    while i < |ps|
      invariant 0 <= i <= |ps| && |names| <= MAX_BINDINGS
      invariant forall j :: 0 <= j < i ==> PatternHolds(ps, os, j)
      invariant Bindings(ps, os, i, names, bound)
    {
      ok, names, bound := MatchOperand(ps, os, i, names, bound);
      if !ok {
        VarsGrow(ps, i + 1, |ps|);
        NoMatch(rule, inst, i);
        return;
      }
      i := i + 1;
    }
    ok := true;
  }

  lemma {:induction false} NoMatch(rule: PeepRule, inst: Inst, i: nat)
    requires i < |rule.matched| == |inst.operands|
    requires !PatternHolds(rule.matched, inst.operands, i) || VarCount(rule.matched, |rule.matched|) > MAX_BINDINGS
    ensures !Matches(rule, inst)
  {
  }

  /** Builds the replacement from the bindings of a successful match. */
  method BuildReplacement(rule: PeepRule, inst: Inst, names: seq<string>, bound: seq<Operand>) returns (r: Inst)
    requires |rule.matched| == |inst.operands|
    requires Bindings(rule.matched, inst.operands, |rule.matched|, names, bound)
    ensures r == Replacement(rule, inst)
  {
    r := Inst(inst.id, rule.replaceOp, inst.ty, inst.dst, []);
    var i := 0;
    while i < |rule.replaced|
      invariant 0 <= i <= |rule.replaced|
      invariant r.id == inst.id && r.opcode == rule.replaceOp && r.ty == inst.ty && r.dst == inst.dst
      invariant ReplaceTo(rule, inst.operands, i) == (r.operands, true)
    {
      var pattern := rule.replaced[i];
      if pattern.Variable? {
        var index := FindBinding(names, pattern.name);
        if index.None? {
          StaysClosed(rule, inst.operands, i + 1, |rule.replaced|);
          return;
        }
        assert BindingAt(rule.matched, inst.operands, |rule.matched|, names[index.value], bound[index.value]);
        r := r.(operands := r.operands + [bound[index.value]]);
      } else if pattern.Literal? {
        r := r.(operands := r.operands + [pattern.operand]);
      }
      i := i + 1;
    }
  }

  lemma {:induction false} StaysClosed(rule: PeepRule, os: seq<Operand>, n: nat, m: nat)
    requires |os| == |rule.matched| && n <= m <= |rule.replaced| && !ReplaceTo(rule, os, n).1
    ensures ReplaceTo(rule, os, m) == ReplaceTo(rule, os, n)
    decreases m
  {
    if n < m {
      StaysClosed(rule, os, n, m - 1);
    }
  }

  // ----- A replacement keeps SSA form -----

  /** A replacement reads only registers the instruction read. */
  lemma {:induction false} ReplacementReads(rule: PeepRule, os: seq<Operand>, n: nat, k: nat)
    requires |os| == |rule.matched| && n <= |rule.replaced| && k < |ReplaceTo(rule, os, n).0|
    ensures var o := ReplaceTo(rule, os, n).0[k]; o.Reg? ==> o in os
  {
    if k < |ReplaceTo(rule, os, n - 1).0| {
      ReplacementReads(rule, os, n - 1, k);
    }
  }

  /** The second instruction writes what the first does and reads no other registers. */
  ghost predicate Narrows(i: Inst, j: Inst) {
    j.dst == i.dst && forall k :: 0 <= k < |j.operands| && j.operands[k].Reg? ==> j.operands[k] in i.operands
  }

  /** Replacing instructions by ones with the same destinations and no new
      registers keeps SSA form. */
  lemma {:induction false} SsaReplace(params: nat, limit: nat, code: seq<Inst>, code': seq<Inst>)
    requires SsaCode(params, limit, code) && |code'| == |code|
    requires forall n :: 0 <= n < |code| ==> Narrows(code[n], code'[n])
    ensures SsaCode(params, limit, code')
  {
    forall n: nat | n < |code|
      ensures UsesDefined(params, limit, code', n) && DefinesFresh(params, limit, code', n)
    {
      assert UsesDefined(params, limit, code, n) && DefinesFresh(params, limit, code, n);
      forall r: nat
        ensures DefinedBefore(params, code, n, r) <==> DefinedBefore(params, code', n, r)
      {
        assert forall j :: 0 <= j < n ==> Narrows(code[j], code'[j]) ==> code'[j].dst == code[j].dst;
      }
      assert Narrows(code[n], code'[n]);
      forall j: nat | j < |code'[n].operands|
        ensures OperandDefined(params, limit, code', n, code'[n].operands[j])
      {
        var o := code'[n].operands[j];
        if o.Reg? {
          var i :| 0 <= i < |code[n].operands| && code[n].operands[i] == o;
          assert OperandDefined(params, limit, code, n, code[n].operands[i]);
        }
      }
    }
  }

  lemma {:induction false} ReplacementNarrows(rule: PeepRule, inst: Inst)
    requires Matches(rule, inst)
    ensures Narrows(inst, Replacement(rule, inst))
  {
    var j := Replacement(rule, inst);
    forall k: nat | k < |j.operands| && j.operands[k].Reg?
      ensures j.operands[k] in inst.operands
    {
      ReplacementReads(rule, inst.operands, |rule.replaced|, k);
    }
  }

  // ----- A sound replacement keeps the result -----

  ghost predicate RegsRefine(regs: Regs, regs': Regs) {
    forall r: nat :: Refines(regs(r), regs'(r))
  }

  /** The second run returns, or leaves in every register, what the first did
      wherever that is defined. */
  ghost predicate OutcomeRefines(a: Outcome, b: Outcome) {
    if a.Returned? then b.Returned? && Refines(a.value, b.value)
    else b.FellThrough? && RegsRefine(a.regs, b.regs)
  }

  /** Two instructions with one number, type and destination, of which the second
      computes at least what the first does. */
  ghost predicate InstRefines(i: Inst, j: Inst, ops: Ops) {
    && i.id == j.id && i.ty == j.ty && i.dst == j.dst && (i.opcode == Ret <==> j.opcode == Ret)
    && forall regs: Regs :: Refines(ComputedBy(i, regs, ops), ComputedBy(j, regs, ops))
  }

  function ComputedBy(i: Inst, regs: Regs, ops: Ops): Value {
    if i.opcode == Ret then RetValue(i, regs) else InstValue(i, regs, ops)
  }

  /** Instructions are monotone in the register file. */
  lemma {:induction false} ComputedMonotone(i: Inst, regs: Regs, regs': Regs, ops: Ops)
    requires Interprets(ops) && RegsRefine(regs, regs')
    ensures Refines(ComputedBy(i, regs, ops), ComputedBy(i, regs', ops))
  {
    forall k | 0 <= k < |i.operands|
      ensures Refines(OperandValue(i.operands[k], regs), OperandValue(i.operands[k], regs'))
    {
    }
    if i.opcode != Ret && i.opcode != Copy && KindOf(i.opcode).Some? {
      assert AllRefine(OperandValues(i.operands, regs), OperandValues(i.operands, regs'));
    }
  }

  lemma {:induction false} AdvanceRefines(i: Inst, j: Inst, regs: Regs, regs': Regs, ops: Ops)
    requires Interprets(ops) && RegsRefine(regs, regs') && InstRefines(i, j, ops)
    ensures OutcomeRefines(Advance(i, regs, ops), Advance(j, regs', ops))
    ensures Refines(ComputedBy(i, regs, ops), ComputedBy(j, regs', ops))
  {
    ComputedMonotone(i, regs, regs', ops);
    assert Refines(ComputedBy(i, regs', ops), ComputedBy(j, regs', ops));
  }

  ghost predicate CodeRefines(code: seq<Inst>, code': seq<Inst>, ops: Ops) {
    |code| == |code'| && forall n :: 0 <= n < |code| ==> InstRefines(code[n], code'[n], ops)
  }

  /** Replacing instructions by better ones keeps every run. */
  lemma {:induction false} RunRefines(code: seq<Inst>, code': seq<Inst>, n: nat, regs: Regs, ops: Ops)
    requires Interprets(ops) && CodeRefines(code, code', ops) && n <= |code|
    ensures OutcomeRefines(RunTo(code, n, regs, ops), RunTo(code', n, regs, ops))
  {
    if n > 0 {
      RunRefines(code, code', n - 1, regs, ops);
      var before, before' := RunTo(code, n - 1, regs, ops), RunTo(code', n - 1, regs, ops);
      if before.FellThrough? {
        AdvanceRefines(code[n - 1], code'[n - 1], before.regs, before'.regs, ops);
      }
    }
  }

  lemma {:induction false} DefinedRefines(code: seq<Inst>, code': seq<Inst>, regs: Regs, ops: Ops)
    requires Interprets(ops) && CodeRefines(code, code', ops) && AllDefined(code, regs, ops)
    ensures AllDefined(code', regs, ops)
  {
    forall n: nat | n < |code'|
      ensures DefinedAt(code', n, regs, ops)
    {
      assert DefinedAt(code, n, regs, ops);
      RunRefines(code, code', n, regs, ops);
      var before, before' := RunTo(code, n, regs, ops), RunTo(code', n, regs, ops);
      if before.FellThrough? && code[n].opcode != Ret {
        AdvanceRefines(code[n], code'[n], before.regs, before'.regs, ops);
      }
    }
  }

  // ----- Sound rules -----

  /** Wherever the rule matches, its replacement computes at least the same. */
  ghost predicate RuleRefines(rule: PeepRule, ops: Ops) {
    forall inst :: Matches(rule, inst) ==> InstRefines(inst, Replacement(rule, inst), ops)
  }

  predicate Hot(rules: seq<PeepRule>, inst: Inst) {
    exists r :: 0 <= r < |rules| && rules[r].matchOp == inst.opcode
  }

  /** No rule produces an opcode that some rule consumes. */
  predicate Cooling(rules: seq<PeepRule>) {
    forall r, q :: 0 <= r < |rules| && 0 <= q < |rules| ==> rules[r].replaceOp != rules[q].matchOp
  }

  predicate Quiet(rules: seq<PeepRule>, inst: Inst) {
    forall r :: 0 <= r < |rules| ==> !Matches(rules[r], inst)
  }

  // ----- What the pass makes of an instruction -----

  /** The instruction after the first of the rules from `r` on that matches it. */
  function TuneFrom(rules: seq<PeepRule>, inst: Inst, r: nat): Inst
    requires r <= |rules|
    decreases |rules| - r
  {
    if r == |rules| then inst
    else if Matches(rules[r], inst) then Replacement(rules[r], inst)
    else TuneFrom(rules, inst, r + 1)
  }

  function Tune(rules: seq<PeepRule>, inst: Inst): Inst {
    TuneFrom(rules, inst, 0)
  }

  lemma {:induction false} TuneFirst(rules: seq<PeepRule>, inst: Inst, q: nat, r: nat)
    requires q <= r < |rules| && Matches(rules[r], inst) && forall i :: q <= i < r ==> !Matches(rules[i], inst)
    ensures TuneFrom(rules, inst, q) == Replacement(rules[r], inst)
    decreases r - q
  {
    if q < r {
      TuneFirst(rules, inst, q + 1, r);
    }
  }

  lemma {:induction false} TuneNone(rules: seq<PeepRule>, inst: Inst, q: nat)
    requires q <= |rules| && Quiet(rules, inst)
    ensures TuneFrom(rules, inst, q) == inst
    decreases |rules| - q
  {
    if q < |rules| {
      TuneNone(rules, inst, q + 1);
    }
  }

  /** Either no rule matches, or the first that does has been applied. */
  lemma {:induction false} TuneCases(rules: seq<PeepRule>, inst: Inst, q: nat) returns (r: nat)
    requires q <= |rules|
    ensures q <= r <= |rules| && forall i :: q <= i < r ==> !Matches(rules[i], inst)
    ensures if r < |rules| then Matches(rules[r], inst) && TuneFrom(rules, inst, q) == Replacement(rules[r], inst)
            else TuneFrom(rules, inst, q) == inst
    decreases |rules| - q
  {
    r := q;
    if q < |rules| && !Matches(rules[q], inst) {
      r := TuneCases(rules, inst, q + 1);
    }
  }

  /** Under cooling rules a replacement is matched by none. */
  lemma {:induction false} ReplacementQuiet(rules: seq<PeepRule>, r: nat, inst: Inst)
    requires Cooling(rules) && r < |rules| && Matches(rules[r], inst)
    ensures Quiet(rules, Replacement(rules[r], inst))
  {
  }
}
