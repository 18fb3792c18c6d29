/**
 The peephole pass over a function's doubly linked instruction lists: it
 replaces the first instruction a rule matches until none does.
 */
module PeepholePass {
  import opened Wrappers
  import opened Values
  import opened Mal
  import opened Lowering
  import opened Peephole

  // ----- What one replacement does to a function's code -----

  type Blocks = seq<seq<Inst>>

  function Replaced(blocks: Blocks, b: nat, k: nat, inst: Inst): Blocks
    requires b < |blocks| && k < |blocks[b]|
  {
    blocks[b := blocks[b][k := inst]]
  }

  /** The place in block order where the pass acts next: the first instruction
      some rule matches, with the first such rule. */
  ghost predicate FirstMatch(rules: seq<PeepRule>, blocks: Blocks, b: nat, k: nat, r: nat) {
    FoundIn(rules, blocks, b, k, r) && QuietBefore(rules, blocks, b)
  }

  /** No rule matches in the first `n` blocks. */
  ghost predicate QuietBefore(rules: seq<PeepRule>, blocks: Blocks, n: nat)
    requires n <= |blocks|
  {
    forall c :: 0 <= c < n ==> QuietTo(rules, blocks[c], |blocks[c]|)
  }

  ghost predicate FoundIn(rules: seq<PeepRule>, blocks: Blocks, b: nat, k: nat, r: nat) {
    && b < |blocks| && k < |blocks[b]| && r < |rules| && Matches(rules[r], blocks[b][k])
    && (forall q :: 0 <= q < r ==> !Matches(rules[q], blocks[b][k]))
    && QuietTo(rules, blocks[b], k)
  }

  ghost predicate QuietTo(rules: seq<PeepRule>, code: seq<Inst>, n: nat)
    requires n <= |code|
  {
    forall k :: 0 <= k < n ==> Quiet(rules, code[k])
  }

  /** No rule matches anywhere. */
  ghost predicate Settled(rules: seq<PeepRule>, blocks: Blocks) {
    QuietBefore(rules, blocks, |blocks|)
  }

  lemma {:induction false} QuietNext(rules: seq<PeepRule>, blocks: Blocks, n: nat)
    requires n < |blocks| && QuietBefore(rules, blocks, n) && QuietTo(rules, blocks[n], |blocks[n]|)
    ensures QuietBefore(rules, blocks, n + 1)
  {
  }

  lemma {:induction false} FlatReplaced(blocks: Blocks, b: nat, k: nat, inst: Inst, n: nat)
    requires b < |blocks| && k < |blocks[b]| && n <= |blocks|
    ensures b >= n ==> Flat(Replaced(blocks, b, k, inst), n) == Flat(blocks, n)
    ensures b < n ==> |Flat(blocks, b)| + k < |Flat(blocks, n)|
                      && Flat(blocks, n)[|Flat(blocks, b)| + k] == blocks[b][k]
                      && Flat(Replaced(blocks, b, k, inst), n) == Flat(blocks, n)[|Flat(blocks, b)| + k := inst]
  {
    if n > 0 {
      FlatReplaced(blocks, b, k, inst, n - 1);
    }
  }

  // ----- Termination -----

  /** How many of the first `n` instructions have an opcode some rule consumes. */
  function HotCount(rules: seq<PeepRule>, code: seq<Inst>, n: nat): nat
    requires n <= |code|
  {
    if n == 0 then 0 else HotCount(rules, code, n - 1) + (if Hot(rules, code[n - 1]) then 1 else 0)
  }

  lemma {:induction false} HotReplaced(rules: seq<PeepRule>, code: seq<Inst>, k: nat, inst: Inst, n: nat)
    requires k < |code| && n <= |code| && Hot(rules, code[k]) && !Hot(rules, inst)
    ensures HotCount(rules, code, n) == HotCount(rules, code[k := inst], n) + (if k < n then 1 else 0)
  {
    if n > 0 {
      HotReplaced(rules, code, k, inst, n - 1);
    }
  }

  function Heat(rules: seq<PeepRule>, blocks: Blocks): nat {
    HotCount(rules, AllInsts(blocks), |AllInsts(blocks)|)
  }

  /** Each replacement removes one instruction that a rule could consume. */
  lemma {:induction false} StepCools(rules: seq<PeepRule>, blocks: Blocks, b: nat, k: nat, r: nat)
    requires Cooling(rules) && FirstMatch(rules, blocks, b, k, r)
    ensures Heat(rules, blocks) == Heat(rules, Replaced(blocks, b, k, Replacement(rules[r], blocks[b][k]))) + 1
  {
    var inst := Replacement(rules[r], blocks[b][k]);
    FlatReplaced(blocks, b, k, inst, |blocks|);
    HotReplaced(rules, AllInsts(blocks), |Flat(blocks, b)| + k, inst, |AllInsts(blocks)|);
  }

  // ----- What the pass leaves -----

  function TunedCode(rules: seq<PeepRule>, code: seq<Inst>): (c: seq<Inst>)
    ensures |c| == |code| && forall k :: 0 <= k < |code| ==> c[k] == Tune(rules, code[k])
  {
    seq(|code|, k requires 0 <= k < |code| => Tune(rules, code[k]))
  }

  /** Every instruction replaced, at most once, by the first rule that matches it. */
  function Tuned(rules: seq<PeepRule>, blocks: Blocks): (r: Blocks)
    ensures |r| == |blocks| && forall b :: 0 <= b < |blocks| ==> r[b] == TunedCode(rules, blocks[b])
  {
    seq(|blocks|, b requires 0 <= b < |blocks| => TunedCode(rules, blocks[b]))
  }

  /** One replacement does not change where the pass is heading. */
  lemma {:induction false} StepTunes(rules: seq<PeepRule>, blocks: Blocks, b: nat, k: nat, r: nat)
    requires Cooling(rules) && FoundIn(rules, blocks, b, k, r)
    ensures Tuned(rules, Replaced(blocks, b, k, Replacement(rules[r], blocks[b][k]))) == Tuned(rules, blocks)
  {
    var inst := blocks[b][k];
    var new' := Replacement(rules[r], inst);
    TuneFirst(rules, inst, 0, r);
    ReplacementQuiet(rules, r, inst);
    TuneNone(rules, new', 0);
    var was, now := TunedCode(rules, blocks[b]), TunedCode(rules, blocks[b][k := new']);
    forall j | 0 <= j < |was|
      ensures was[j] == now[j]
    {
    }
    assert was == now;
    var after := Replaced(blocks, b, k, new');
    forall c | 0 <= c < |blocks|
      ensures Tuned(rules, after)[c] == Tuned(rules, blocks)[c]
    {
    }
  }

  lemma {:induction false} SettledTuned(rules: seq<PeepRule>, blocks: Blocks)
    requires Settled(rules, blocks)
    ensures Tuned(rules, blocks) == blocks
  {
    forall b | 0 <= b < |blocks|
      ensures TunedCode(rules, blocks[b]) == blocks[b]
    {
      assert QuietTo(rules, blocks[b], |blocks[b]|);
      forall k | 0 <= k < |blocks[b]|
        ensures Tune(rules, blocks[b][k]) == blocks[b][k]
      {
        TuneNone(rules, blocks[b][k], 0);
      }
    }
  }

  /** Where the pass stands on its way from `start`. */
  ghost predicate Heading(rules: seq<PeepRule>, start: Blocks, blocks: Blocks, changed: bool) {
    Tuned(rules, blocks) == Tuned(rules, start) && (if changed then !Settled(rules, start) else blocks == start)
  }

  lemma {:induction false} StepProgress(rules: seq<PeepRule>, start: Blocks, blocks: Blocks, blocks': Blocks, b: nat, k: nat, r: nat, changed: bool)
    requires Heading(rules, start, blocks, changed) && Cooling(rules) && FirstMatch(rules, blocks, b, k, r)
    requires blocks' == Replaced(blocks, b, k, Replacement(rules[r], blocks[b][k]))
    ensures Heading(rules, start, blocks', true) && Heat(rules, blocks') < Heat(rules, blocks)
  {
    StepCools(rules, blocks, b, k, r);
    StepTunes(rules, blocks, b, k, r);
    assert !QuietTo(rules, blocks[b], |blocks[b]|);
  }

  // ----- What the pass keeps -----

  ghost predicate Sound(rules: seq<PeepRule>, ops: Ops) {
    Interprets(ops) && forall r :: 0 <= r < |rules| ==> RuleRefines(rules[r], ops)
  }

  ghost predicate BlocksRefine(blocks: Blocks, blocks': Blocks, ops: Ops) {
    |blocks| == |blocks'| && forall b :: 0 <= b < |blocks| ==> CodeRefines(blocks[b], blocks'[b], ops)
  }

  /** SSA form, and for every sound interpretation the value of every instruction. */
  ghost predicate Kept(rules: seq<PeepRule>, start: Blocks, blocks: Blocks) {
    && (forall params: nat, limit: nat :: SsaCode(params, limit, AllInsts(start)) ==> SsaCode(params, limit, AllInsts(blocks)))
    && (forall ops :: Sound(rules, ops) ==> BlocksRefine(start, blocks, ops))
  }

  lemma {:induction false} TuneRefines(rules: seq<PeepRule>, inst: Inst, ops: Ops)
    requires Sound(rules, ops)
    ensures InstRefines(inst, Tune(rules, inst), ops)
  {
    var r := TuneCases(rules, inst, 0);
    if r < |rules| {
      assert RuleRefines(rules[r], ops);
    }
  }

  lemma {:induction false} TuneNarrows(rules: seq<PeepRule>, inst: Inst)
    ensures Narrows(inst, Tune(rules, inst))
  {
    var r := TuneCases(rules, inst, 0);
    if r < |rules| {
      ReplacementNarrows(rules[r], inst);
    }
  }

  lemma {:induction false} FlatTuned(rules: seq<PeepRule>, blocks: Blocks, n: nat)
    requires n <= |blocks|
    ensures Flat(Tuned(rules, blocks), n) == TunedCode(rules, Flat(blocks, n))
  {
    if n > 0 {
      FlatTuned(rules, blocks, n - 1);
    }
  }

  lemma {:induction false} TunedKept(rules: seq<PeepRule>, blocks: Blocks)
    ensures Kept(rules, blocks, Tuned(rules, blocks))
  {
    var blocks' := Tuned(rules, blocks);
    FlatTuned(rules, blocks, |blocks|);
    forall params: nat, limit: nat | SsaCode(params, limit, AllInsts(blocks))
      ensures SsaCode(params, limit, AllInsts(blocks'))
    {
      forall n | 0 <= n < |AllInsts(blocks)|
        ensures Narrows(AllInsts(blocks)[n], AllInsts(blocks')[n])
      {
        TuneNarrows(rules, AllInsts(blocks)[n]);
      }
      SsaReplace(params, limit, AllInsts(blocks), AllInsts(blocks'));
    }
    forall ops | Sound(rules, ops)
      ensures BlocksRefine(blocks, blocks', ops)
    {
      forall b | 0 <= b < |blocks|
        ensures CodeRefines(blocks[b], blocks'[b], ops)
      {
        forall n | 0 <= n < |blocks[b]|
          ensures InstRefines(blocks[b][n], blocks'[b][n], ops)
        {
          TuneRefines(rules, blocks[b][n], ops);
        }
      }
    }
  }

  lemma {:induction false} Arrived(rules: seq<PeepRule>, start: Blocks, blocks: Blocks, changed: bool)
    requires Heading(rules, start, blocks, changed) && Settled(rules, blocks)
    ensures blocks == Tuned(rules, start) && Kept(rules, start, blocks) && (changed <==> !Settled(rules, start))
  {
    SettledTuned(rules, blocks);
    TunedKept(rules, start);
  }

  /** Whatever the pass did, block `b` still returns what it returned. */
  lemma {:induction false} KeptResult(rules: seq<PeepRule>, start: Blocks, blocks: Blocks, b: nat, regs: Regs, ops: Ops)
    requires Kept(rules, start, blocks) && Sound(rules, ops) && b < |start|
    ensures |blocks| == |start| && OutcomeRefines(Run(start[b], regs, ops), Run(blocks[b], regs, ops))
    ensures AllDefined(start[b], regs, ops) ==> AllDefined(blocks[b], regs, ops)
  {
    assert BlocksRefine(start, blocks, ops);
    RunRefines(start[b], blocks[b], |start[b]|, regs, ops);
    if AllDefined(start[b], regs, ops) {
      DefinedRefines(start[b], blocks[b], regs, ops);
    }
  }

  // ----- The linked lists -----

  class InstNode {
    const inst: Inst
    var prev: InstNode?
    var next: InstNode?
    /** The block whose list the node is in. */
    ghost var owner: Block?

    constructor (inst: Inst)
      ensures this.inst == inst && prev == null && next == null && owner == null
    {
      this.inst := inst;
      prev, next, owner := null, null, null;
    }
  }

  class Block {
    var first: InstNode?
    var last: InstNode?
    ghost var nodes: seq<InstNode>

    /** The links spell out `nodes`, forwards and backwards. */
    ghost predicate Valid()
      reads this, nodes
    {
      && (forall i, j :: 0 <= i < j < |nodes| ==> nodes[i] != nodes[j])
      && first == At(0) && last == At(|nodes| - 1)
      && forall i :: 0 <= i < |nodes| ==> Linked(i)
    }

    ghost predicate Linked(i: int)
      requires 0 <= i < |nodes|
      reads this, nodes
    {
      nodes[i].prev == At(i - 1) && nodes[i].next == At(i + 1) && nodes[i].owner == this
    }

    ghost function At(i: int): InstNode?
      reads this
    {
      if 0 <= i < |nodes| then nodes[i] else null
    }

    ghost function Code(): (c: seq<Inst>)
      reads this
      ensures |c| == |nodes| && forall i :: 0 <= i < |c| ==> c[i] == nodes[i].inst
    {
      seq(|nodes|, i requires 0 <= i < |nodes| reads this => nodes[i].inst)
    }

    lemma {:induction false} Owned()
      requires Valid()
      ensures forall n :: n in nodes ==> n.owner == this
    {
      forall n | n in nodes
        ensures n.owner == this
      {
        var i :| 0 <= i < |nodes| && nodes[i] == n;
        assert Linked(i);
      }
    }

    /** A block none of whose nodes changed is still well linked. */
    twostate lemma Untouched()
      requires old(Valid()) && first == old(first) && last == old(last) && nodes == old(nodes)
      requires forall n :: n in nodes ==> n.prev == old(n.prev) && n.next == old(n.next) && n.owner == old(n.owner)
      ensures Valid()
    {
      forall i | 0 <= i < |nodes|
        ensures Linked(i)
      {
        assert old(Linked(i)) && nodes[i] in nodes;
      }
    }

    constructor ()
      ensures Valid() && nodes == []
    {
      first, last, nodes := null, null, [];
    }

    method InsertEnd(node: InstNode)
      requires Valid() && node !in nodes && node.prev == null && node.next == null
      modifies this, nodes, node
      ensures Valid() && nodes == old(nodes) + [node] && Code() == old(Code()) + [node.inst]
    {
      node.owner := this;
      if first == null {
        first, last, nodes := node, node, [node];
        return;
      }
      node.prev := last;
      last.next := node;
      last := node;
      nodes := nodes + [node];
      forall i | 0 <= i < |nodes|
        ensures Linked(i)
      {
        assert i < |nodes| - 1 ==> old(Linked(i));
      }
    }

    /** Splices `new'` in at the place of `gone`, which leaves the list. */
    method Replace(ghost k: nat, gone: InstNode, new': InstNode)
      requires Valid() && k < |nodes| && nodes[k] == gone && new' !in nodes
      modifies this, nodes, new'
      ensures Valid() && nodes == old(nodes)[k := new'] && Code() == old(Code())[k := new'.inst]
    {
      assert Linked(k);
      new'.prev := gone.prev;
      new'.next := gone.next;
      if gone.prev != null {
        gone.prev.next := new';
      } else {
        first := new';
      }
      if gone.next != null {
        gone.next.prev := new';
      } else {
        last := new';
      }
      nodes := nodes[k := new'];
      new'.owner := this;
      forall i | 0 <= i < |nodes|
        ensures Linked(i)
      {
        assert old(Linked(i));
      }
    }
  }

  // ----- The pass -----

  /** The first rule that matches `inst`, with its replacement; `|rules|` if none does. */
  method FindRule(rules: seq<PeepRule>, inst: Inst) returns (r: nat, replacement: Inst)
    ensures r <= |rules| && forall q :: 0 <= q < r ==> !Matches(rules[q], inst)
    ensures r < |rules| ==> Matches(rules[r], inst) && replacement == Replacement(rules[r], inst)
  {
    r := 0;
    replacement := inst;
    while r < |rules|
      invariant 0 <= r <= |rules|
      invariant forall q :: 0 <= q < r ==> !Matches(rules[q], inst)
    {
      var ok, names, bound := MatchRule(rules[r], inst);
      if ok {
        replacement := BuildReplacement(rules[r], inst, names, bound);
        return;
      }
      r := r + 1;
    }
  }

  class Body {
    const blocks: seq<Block>
    ghost var Repr: set<object>

    /** Every block is well linked, and no two share an instruction. */
    ghost predicate Valid()
      reads this, Repr
    {
      && (forall i, j :: 0 <= i < j < |blocks| ==> blocks[i] != blocks[j])
      && forall i :: 0 <= i < |blocks| ==> HasBlock(blocks[i])
    }

    ghost predicate HasBlock(b: Block)
      reads this, Repr
    {
      b in Repr && (forall n :: n in b.nodes ==> n in Repr) && b.Valid()
    }

    ghost function Code(): (c: Blocks)
      reads this, Repr
      requires Valid()
      ensures |c| == |blocks| && forall b :: 0 <= b < |c| ==> c[b] == blocks[b].Code()
    {
      seq(|blocks|, b requires 0 <= b < |blocks| reads this, Repr requires HasBlock(blocks[b]) => blocks[b].Code())
    }

    constructor (blocks: seq<Block>)
      requires forall i, j :: 0 <= i < j < |blocks| ==> blocks[i] != blocks[j]
      requires forall i :: 0 <= i < |blocks| ==> blocks[i].Valid()
      ensures Valid() && this.blocks == blocks
      ensures forall o :: o in Repr ==> exists b :: b in blocks && (o == b || o in b.nodes)
    {
      this.blocks := blocks;
      Repr := (set b: Block | b in blocks :: b as object)
              + (set b: Block, n: InstNode | b in blocks && n in b.nodes :: n as object);
      new;
      forall i | 0 <= i < |this.blocks|
        ensures HasBlock(this.blocks[i])
      {
        assert this.blocks[i] in blocks;
      }
    }

    method ReplaceAt(b: nat, ghost k: nat, gone: InstNode, inst: Inst)
      requires Valid() && b < |blocks| && k < |blocks[b].nodes| && blocks[b].nodes[k] == gone
      modifies this, Repr
      ensures Valid() && fresh(Repr - old(Repr))
      ensures blocks[b].Code() == old(blocks[b].Code())[k := inst]
      ensures forall i :: 0 <= i < |blocks| && i != b ==> blocks[i].Code() == old(blocks[i].Code())
    {
      var node := new InstNode(inst);
      assert forall i :: 0 <= i < |blocks| ==> HasBlock(blocks[i]);
      Disjoint(b);
      blocks[b].Replace(k, gone, node);
      Repr := Repr + {node};
      forall i | 0 <= i < |blocks| && i != b
        ensures HasBlock(blocks[i]) && blocks[i].nodes == old(blocks[i].nodes)
      {
        assert old(HasBlock(blocks[i]));
        assert blocks[i].nodes == old(blocks[i].nodes);
        assert forall n :: n in blocks[i].nodes ==> n !in old(blocks[b].nodes) && n != node;
        blocks[i].Untouched();
      }
      assert HasBlock(blocks[b]);
    }

    lemma {:induction false} Disjoint(b: nat)
      requires Valid() && b < |blocks|
      ensures forall i, n :: 0 <= i < |blocks| && i != b && n in blocks[i].nodes ==> n !in blocks[b].nodes
    {
      forall i | 0 <= i < |blocks|
        ensures forall n :: n in blocks[i].nodes ==> n.owner == blocks[i]
      {
        assert HasBlock(blocks[i]);
        blocks[i].Owned();
      }
    }

    /** Looks for the first match in block `b` and replaces it. */
    method ScanBlock(rules: seq<PeepRule>, b: nat) returns (changed: bool, ghost k: nat, ghost r: nat)
      requires Valid() && b < |blocks|
      modifies this, Repr
      ensures Valid() && fresh(Repr - old(Repr))
      ensures !changed ==> Code() == old(Code()) && QuietTo(rules, Code()[b], |Code()[b]|)
      ensures changed ==> FoundIn(rules, old(Code()), b, k, r)
                          && Code() == Replaced(old(Code()), b, k, Replacement(rules[r], old(Code())[b][k]))
    {
      var node := blocks[b].first;
      var found: nat, replacement := |rules|, Inst(0, Ret, VoidT, None, []);
      k := 0;
      while node != null && found == |rules|
        invariant unchanged(this) && unchanged(old(Repr))
        invariant k <= |blocks[b].nodes| && node == blocks[b].At(k)
        invariant QuietTo(rules, blocks[b].Code(), k)
        invariant found <= |rules|
        invariant found < |rules| ==> node != null && FoundIn(rules, Code(), b, k, found)
                                      && replacement == Replacement(rules[found], Code()[b][k])
        decreases |blocks[b].nodes| - k, found == |rules|
      {
        found, replacement := FindRule(rules, node.inst);
        if found == |rules| {
          assert HasBlock(blocks[b]) && blocks[b].Linked(k);
          node := node.next;
          k := k + 1;
        }
      }
      changed, r := found < |rules|, found;
      if changed {
        ReplaceAt(b, k, node, replacement);
      }
    }

    /** One step: replaces the first match in block order, or finds that there is none. */
    method ApplyOne(rules: seq<PeepRule>) returns (changed: bool, ghost b: nat, ghost k: nat, ghost r: nat)
      requires Valid()
      modifies this, Repr
      ensures Valid() && fresh(Repr - old(Repr))
      ensures !changed ==> Code() == old(Code()) && Settled(rules, Code())
      ensures changed ==> FirstMatch(rules, old(Code()), b, k, r)
                          && Code() == Replaced(old(Code()), b, k, Replacement(rules[r], old(Code())[b][k]))
    {
      var index := 0;
      b, k, r := 0, 0, 0;
      ghost var start := Code();
      while index < |blocks|
        invariant 0 <= index <= |blocks| && Valid() && fresh(Repr - old(Repr)) && Code() == start
        invariant QuietBefore(rules, start, index)
      {
        changed, k, r := ScanBlock(rules, index);
        if changed {
          b := index;
          return;
        }
        QuietNext(rules, start, index);
        index := index + 1;
      }
      changed := false;
    }

    /** Replaces until no rule matches. The loop ends because every replacement
        uses up an opcode that rules match and yields one that none does. */
    method ApplyToFixpoint(rules: seq<PeepRule>) returns (changed: bool)
      requires Valid() && Cooling(rules)
      modifies this, Repr
      ensures Valid() && fresh(Repr - old(Repr))
      ensures Code() == Tuned(rules, old(Code()))
      ensures Settled(rules, Code()) && Kept(rules, old(Code()), Code())
      ensures changed <==> !Settled(rules, old(Code()))
    {
      changed := false;
      ghost var start := Code();
      while true
        invariant Valid() && fresh(Repr - old(Repr)) && Heading(rules, start, Code(), changed)
        decreases Heat(rules, Code())
      {
        var again := ApplyAgain(rules, start, changed);
        if !again {
          Arrived(rules, start, Code(), changed);
          return;
        }
        changed := true;
      }
    }

    /** One turn of the loop. */
    method ApplyAgain(rules: seq<PeepRule>, ghost start: Blocks, ghost changed: bool) returns (again: bool)
      requires Valid() && Cooling(rules) && Heading(rules, start, Code(), changed)
      modifies this, Repr
      ensures Valid() && fresh(Repr - old(Repr))
      ensures !again ==> Code() == old(Code()) && Settled(rules, Code())
      ensures again ==> Heading(rules, start, Code(), true) && Heat(rules, Code()) < old(Heat(rules, Code()))
    {
      ghost var was := Code();
      ghost var b, k, r;
      again, b, k, r := ApplyOne(rules);
      if again {
        StepProgress(rules, start, was, Code(), b, k, r, changed);
      }
    }
  }

  // ----- From code to lists and back -----

  /** Lowering appends instruction after instruction. */
  method BuildList(code: seq<Inst>) returns (block: Block)
    ensures fresh(block) && block.Valid() && block.Code() == code
    ensures forall n :: n in block.nodes ==> fresh(n)
  {
    block := new Block();
    var k := 0;
    while k < |code|
      invariant 0 <= k <= |code| && fresh(block) && block.Valid() && block.Code() == code[..k]
      invariant forall n :: n in block.nodes ==> fresh(n)
    {
      var node := new InstNode(code[k]);
      ghost var nodes := block.nodes;
      assert forall i :: 0 <= i < |nodes| ==> nodes[i] in nodes;
      block.InsertEnd(node);
      k := k + 1;
    }
    assert code[..k] == code;
  }

  /** Walks a list from its first instruction. */
  method ReadList(block: Block) returns (code: seq<Inst>)
    requires block.Valid()
    ensures code == block.Code()
  {
    code := [];
    var node := block.first;
    while node != null
      invariant |code| <= |block.nodes| && node == block.At(|code|)
      invariant forall i :: 0 <= i < |code| ==> code[i] == block.nodes[i].inst
      decreases |block.nodes| - |code|
    {
      assert block.Linked(|code|);
      code := code + [node.inst];
      node := node.next;
    }
  }

  method BodyOf(code: seq<Inst>) returns (body: Body)
    ensures fresh(body) && fresh(body.Repr) && body.Valid() && body.Code() == [code]
  {
    var block := BuildList(code);
    body := new Body([block]);
    assert body.Code() == [code];
    assert forall o :: o in body.Repr ==> fresh(o);
  }

  method CodeOf(body: Body) returns (code: seq<Inst>)
    requires body.Valid() && |body.blocks| == 1
    ensures body.Code() == [code]
  {
    assert body.HasBlock(body.blocks[0]);
    code := ReadList(body.blocks[0]);
  }

  /** The pass over a function of one block. */
  method OptimizeBlock(rules: seq<PeepRule>, code: seq<Inst>) returns (code': seq<Inst>)
    requires Cooling(rules)
    ensures code' == TunedCode(rules, code) && Settled(rules, [code']) && Kept(rules, [code], [code'])
  {
    var body := BodyOf(code);
    var changed := body.ApplyToFixpoint(rules);
    code' := CodeOf(body);
    assert [code'][0] == Tuned(rules, [code])[0];
  }
}
