/**
 The TOS instruction stream: building it block by block, rebuilding it in
 layout order, and validating it.
 */
module TosStream {
  import opened Wrappers
  import opened Listing
  import opened Mds
  import opened Dfs
  import opened Tos

  // ----- Sums of block lengths -----

  /** Where the instructions of block `b` start. */
  function Offset(blocks: seq<TosBlock>, b: nat): nat
    requires b <= |blocks|
  {
    if b == 0 then 0 else Offset(blocks, b - 1) + blocks[b - 1].instrCount
  }

  lemma {:induction false} OffsetMonotone(blocks: seq<TosBlock>, b: nat, c: nat)
    requires b <= c <= |blocks|
    ensures Offset(blocks, b) <= Offset(blocks, c)
    decreases c
  {
    if b < c {
      OffsetMonotone(blocks, b, c - 1);
    }
  }

  ghost predicate Within(s: seq<nat>, n: nat) {
    forall i :: 0 <= i < |s| ==> s[i] < n
  }

  /** The length of the blocks picked by `s[..n]`. */
  ghost function Picked(blocks: seq<TosBlock>, s: seq<nat>, n: nat): nat
    requires n <= |s| && Within(s, |blocks|)
  {
    if n == 0 then 0 else Picked(blocks, s, n - 1) + blocks[s[n - 1]].instrCount
  }

  ghost predicate Without(s: seq<nat>, j: nat, t: seq<nat>) {
    j < |s| && |t| == |s| - 1 && forall i :: 0 <= i < |t| ==> Shifted(s, j, t, i)
  }

  ghost predicate Shifted(s: seq<nat>, j: nat, t: seq<nat>, i: nat) {
    i < |t| && i + 1 < |s| && t[i] == if i < j then s[i] else s[i + 1]
  }

  lemma {:induction false} PickedWithout(blocks: seq<TosBlock>, s: seq<nat>, j: nat, t: seq<nat>, n: nat)
    requires Without(s, j, t) && n <= |t| && Within(s, |blocks|) && Within(t, |blocks|)
    ensures j <= n ==> Picked(blocks, s, n + 1) == Picked(blocks, t, n) + blocks[s[j]].instrCount
    ensures n <= j ==> Picked(blocks, s, n) == Picked(blocks, t, n)
  {
    if n > 0 {
      PickedWithout(blocks, s, j, t, n - 1);
      var i := n - 1;
      assert Shifted(s, j, t, i);
    }
  }

  lemma {:induction false} WithoutTop(s: seq<nat>, j: nat, t: seq<nat>, n: nat)
    requires Distinct(s) && Without(s, j, t) && n > 0 && s[j] == n - 1 && Within(s, n)
    ensures Distinct(t) && Within(t, n - 1)
  {
    forall i | 0 <= i < |t|
      ensures t[i] < n - 1
    {
      assert Shifted(s, j, t, i);
    }
    forall i, k | 0 <= i < k < |t|
      ensures t[i] != t[k]
    {
      assert Shifted(s, j, t, i) && Shifted(s, j, t, k);
    }
  }

  lemma {:induction false} TakeOut(s: seq<nat>, j: nat) returns (t: seq<nat>)
    requires j < |s|
    ensures Without(s, j, t)
  {
    t := s[..j] + s[j + 1..];
  }

  lemma {:induction false} TopMissing(s: seq<nat>, n: nat)
    requires n > 0 && Distinct(s) && n - 1 !in s && Within(s, n)
    ensures |s| < n && Within(s, n - 1)
  {
    DistinctFits(s, n - 1);
  }

  /** Picking different blocks gives at most the length of all, and all of it
      when every block is picked. */
  lemma {:induction false} PickedFits(blocks: seq<TosBlock>, s: seq<nat>, n: nat)
    requires Distinct(s) && n <= |blocks| && Within(s, n) && Within(s, |blocks|)
    ensures Picked(blocks, s, |s|) <= Offset(blocks, n)
    ensures |s| == n ==> Picked(blocks, s, |s|) == Offset(blocks, n)
    decreases n
  {
    if n == 0 {
      DistinctFits(s, 0);
    } else if n - 1 in s {
      var j :| 0 <= j < |s| && s[j] == n - 1;
      var t := TakeOut(s, j);
      WithoutTop(s, j, t, n);
      PickedFits(blocks, t, n - 1);
      PickedWithout(blocks, s, j, t, |t|);
    } else {
      TopMissing(s, n);
      PickedFits(blocks, s, n - 1);
    }
  }

  // ----- Streams in order -----

  /** Instruction `k` of a block that starts at `at`. */
  predicate InstOk(block: TosBlock, instrs: seq<TosInst>, at: nat, k: nat) {
    at + k < |instrs| && instrs[at + k].id == at + k && instrs[at + k].blockId == block.id && instrs[at + k].order == k
  }

  /** Block `b` is in its place, and so are its instructions, which start at `at`. */
  ghost predicate BlockOk(block: TosBlock, b: nat, at: nat, instrs: seq<TosInst>) {
    && block.layoutIndex == b
    && block.firstInstr == (if block.instrCount == 0 then INVALID_INSTR else at)
    && at + block.instrCount <= |instrs|
    && forall k :: 0 <= k < block.instrCount ==> InstOk(block, instrs, at, k)
  }

  ghost predicate InPlace(blocks: seq<TosBlock>, instrs: seq<TosInst>, b: nat)
    requires b < |blocks|
  {
    BlockOk(blocks[b], b, Offset(blocks, b), instrs)
  }

  /** Blocks follow one another without gaps and fill the stream. */
  ghost predicate Contiguous(blocks: seq<TosBlock>, instrs: seq<TosInst>) {
    && Offset(blocks, |blocks|) == |instrs|
    && forall b :: 0 <= b < |blocks| ==> InPlace(blocks, instrs, b)
  }

  /** Block `b` passes every check up to the end of the stream but claims
      instructions beyond it. */
  ghost predicate BlockOverruns(block: TosBlock, b: nat, at: nat, instrs: seq<TosInst>) {
    && block.layoutIndex == b && block.instrCount > 0 && block.firstInstr == at
    && at + block.instrCount > |instrs|
    && forall k :: 0 <= k < block.instrCount && at + k < |instrs| ==> InstOk(block, instrs, at, k)
  }

  /** The check of block `b` reads past the end of the stream. */
  ghost predicate Overruns(blocks: seq<TosBlock>, instrs: seq<TosInst>, b: nat) {
    && b < |blocks| && (forall c :: 0 <= c < b ==> InPlace(blocks, instrs, c))
    && BlockOverruns(blocks[b], b, Offset(blocks, b), instrs)
  }

  lemma {:induction false} NoOverrun(blocks: seq<TosBlock>, instrs: seq<TosInst>, n: nat)
    requires n <= |blocks| && forall c :: 0 <= c < n ==> InPlace(blocks, instrs, c)
    requires n < |blocks| ==> !InPlace(blocks, instrs, n) && !BlockOverruns(blocks[n], n, Offset(blocks, n), instrs)
    ensures !exists b :: Overruns(blocks, instrs, b)
  {
    forall b: nat
      ensures !Overruns(blocks, instrs, b)
    {
      if b < n {
        assert InPlace(blocks, instrs, b);
      }
    }
  }

  /** The validator accepts exactly the contiguous programs. `overrun` reports
      that it would have read past the end of the stream. */
  method ValidateProgram(blocks: seq<TosBlock>, instrs: seq<TosInst>) returns (ok: bool, overrun: bool)
    ensures ok <==> Contiguous(blocks, instrs)
    ensures overrun <==> exists b :: Overruns(blocks, instrs, b)
  {
    var cursor := 0;
    var b := 0;
    while b < |blocks|
      invariant 0 <= b <= |blocks| && cursor == Offset(blocks, b) <= |instrs|
      invariant forall c :: 0 <= c < b ==> InPlace(blocks, instrs, c)
    {
      ok, overrun := ValidateBlock(blocks[b], b, cursor, instrs);
      assert ok <==> InPlace(blocks, instrs, b);
      if overrun {
        assert Overruns(blocks, instrs, b);
        return;
      }
      if !ok {
        NoOverrun(blocks, instrs, b);
        return;
      }
      cursor := cursor + blocks[b].instrCount;
      b := b + 1;
    }
    NoOverrun(blocks, instrs, b);
    ok, overrun := cursor == |instrs|, false;
  }

  method ValidateBlock(block: TosBlock, b: nat, cursor: nat, instrs: seq<TosInst>) returns (ok: bool, overrun: bool)
    requires cursor <= |instrs|
    ensures ok <==> BlockOk(block, b, cursor, instrs)
    ensures overrun <==> BlockOverruns(block, b, cursor, instrs)
  {
    if block.layoutIndex != b {
      return false, false;
    }
    if block.instrCount == 0 {
      return block.firstInstr == INVALID_INSTR, false;
    }
    if block.firstInstr != cursor {
      return false, false;
    }
    var k := 0;
    while k < block.instrCount
      invariant 0 <= k <= block.instrCount
      invariant forall j :: 0 <= j < k ==> InstOk(block, instrs, cursor, j)
    {
      if cursor + k >= |instrs| {
        return false, true;
      }
      var inst := instrs[cursor + k];
      if inst.id != cursor + k || inst.blockId != block.id || inst.order != k {
        assert !InstOk(block, instrs, cursor, k);
        return false, false;
      }
      k := k + 1;
    }
    assert InstOk(block, instrs, cursor, block.instrCount - 1);
    return true, false;
  }

  // ----- Laying down one block -----

  /** The instructions of `m` when they start at `at`. */
  function Laid(m: MdsBlock, at: nat): (r: seq<TosInst>)
    ensures |r| == |m.code| && forall k :: 0 <= k < |r| ==> r[k] == TosInst(at + k, m.id, k, m.code[k])
  {
    seq(|m.code|, k requires 0 <= k < |m.code| => TosInst(at + k, m.id, k, m.code[k]))
  }

  function BlockFor(m: MdsBlock, b: nat, at: nat): TosBlock {
    TosBlock(m.id, b, if |m.code| == 0 then INVALID_INSTR else at, |m.code|, m.successors)
  }

  /** Block `b` of the program is `m`: identifier, successors and instructions,
      in its place. */
  ghost predicate Carries(blocks: seq<TosBlock>, instrs: seq<TosInst>, b: nat, m: MdsBlock) {
    && b < |blocks| && InPlace(blocks, instrs, b)
    && blocks[b].id == m.id && blocks[b].successors == m.successors && blocks[b].instrCount == |m.code|
    && forall k :: 0 <= k < |m.code| ==> Offset(blocks, b) + k < |instrs| && instrs[Offset(blocks, b) + k].inst == m.code[k]
  }

  lemma {:induction false} OffsetAppend(blocks: seq<TosBlock>, more: TosBlock, b: nat)
    requires b <= |blocks|
    ensures Offset(blocks + [more], b) == Offset(blocks, b)
  {
    if b > 0 {
      OffsetAppend(blocks, more, b - 1);
    }
  }

  lemma {:induction false} AppendBlock(blocks: seq<TosBlock>, instrs: seq<TosInst>, m: MdsBlock, blocks': seq<TosBlock>, instrs': seq<TosInst>)
    requires Offset(blocks, |blocks|) == |instrs|
    requires blocks' == blocks + [BlockFor(m, |blocks|, |instrs|)] && instrs' == instrs + Laid(m, |instrs|)
    ensures Carries(blocks', instrs', |blocks|, m) && Offset(blocks', |blocks'|) == |instrs'|
  {
    var b, at := |blocks|, |instrs|;
    OffsetAppend(blocks, blocks'[b], b);
    LaidDown(instrs, m, instrs', blocks'[b]);
  }

  lemma {:induction false} LaidDown(instrs: seq<TosInst>, m: MdsBlock, instrs': seq<TosInst>, nb: TosBlock)
    requires instrs' == instrs + Laid(m, |instrs|) && nb.id == m.id && nb.instrCount == |m.code|
    ensures forall k :: 0 <= k < |m.code| ==> InstOk(nb, instrs', |instrs|, k) && instrs'[|instrs| + k].inst == m.code[k]
  {
    forall k | 0 <= k < |m.code|
      ensures InstOk(nb, instrs', |instrs|, k) && instrs'[|instrs| + k].inst == m.code[k]
    {
      assert instrs'[|instrs| + k] == Laid(m, |instrs|)[k];
    }
  }

  lemma {:induction false} AppendKeeps(blocks: seq<TosBlock>, instrs: seq<TosInst>, nb: TosBlock, more: seq<TosInst>, c: nat, m: MdsBlock)
    requires Carries(blocks, instrs, c, m)
    ensures Carries(blocks + [nb], instrs + more, c, m)
  {
    OffsetAppend(blocks, nb, c);
    var blocks', instrs', at := blocks + [nb], instrs + more, Offset(blocks, c);
    assert blocks'[c] == blocks[c];
    forall k | 0 <= k < |m.code|
      ensures InstOk(blocks[c], instrs', at, k) && instrs'[at + k].inst == m.code[k]
    {
      assert InstOk(blocks[c], instrs, at, k);
      assert instrs'[at + k] == instrs[at + k];
    }
    assert BlockOk(blocks'[c], c, at, instrs');
  }

  ghost predicate CarriesAll(blocks: seq<TosBlock>, instrs: seq<TosInst>, ms: seq<MdsBlock>, n: nat) {
    n <= |ms| && forall b :: 0 <= b < n ==> Carries(blocks, instrs, b, ms[b])
  }

  lemma {:induction false} CarriesNext(blocks: seq<TosBlock>, instrs: seq<TosInst>, ms: seq<MdsBlock>)
    requires |blocks| < |ms| && Offset(blocks, |blocks|) == |instrs| && CarriesAll(blocks, instrs, ms, |blocks|)
    ensures var m := ms[|blocks|];
            var blocks', instrs' := blocks + [BlockFor(m, |blocks|, |instrs|)], instrs + Laid(m, |instrs|);
            CarriesAll(blocks', instrs', ms, |blocks'|) && Offset(blocks', |blocks'|) == |instrs'|
  {
    var m := ms[|blocks|];
    var nb, more := BlockFor(m, |blocks|, |instrs|), Laid(m, |instrs|);
    AppendBlock(blocks, instrs, m, blocks + [nb], instrs + more);
    forall c: nat | c < |blocks|
      ensures Carries(blocks + [nb], instrs + more, c, ms[c])
    {
      AppendKeeps(blocks, instrs, nb, more, c, ms[c]);
    }
  }

  lemma {:induction false} CarriesContiguous(blocks: seq<TosBlock>, instrs: seq<TosInst>, ms: seq<MdsBlock>)
    requires |blocks| == |ms| && Offset(blocks, |blocks|) == |instrs| && CarriesAll(blocks, instrs, ms, |ms|)
    ensures Contiguous(blocks, instrs)
  {
    forall b | 0 <= b < |blocks|
      ensures InPlace(blocks, instrs, b)
    {
      assert Carries(blocks, instrs, b, ms[b]);
    }
  }

  // ----- Building -----

  /** Appends the instructions of one block, numbered in sequence. */
  method LayDown(instrs: seq<TosInst>, m: MdsBlock) returns (out: seq<TosInst>)
    ensures out == instrs + Laid(m, |instrs|)
  {
    out := instrs;
    ghost var laid := Laid(m, |instrs|);
    var k := 0;
    while k < |m.code|
      invariant 0 <= k <= |m.code| && |out| == |instrs| + k
      invariant forall j :: 0 <= j < |out| ==> out[j] == if j < |instrs| then instrs[j] else laid[j - |instrs|]
    {
      out := out + [TosInst(|out|, m.id, k, m.code[k])];
      k := k + 1;
    }
  }

  /** Builds the stream in input order: a valid program that holds every block. */
  method BuildFromMds(ms: seq<MdsBlock>) returns (blocks: seq<TosBlock>, instrs: seq<TosInst>)
    ensures |blocks| == |ms| && CarriesAll(blocks, instrs, ms, |ms|) && Contiguous(blocks, instrs)
  {
    blocks, instrs := [], [];
    while |blocks| < |ms|
      invariant |blocks| <= |ms| && Offset(blocks, |blocks|) == |instrs| && CarriesAll(blocks, instrs, ms, |blocks|)
    {
      CarriesNext(blocks, instrs, ms);
      var m := ms[|blocks|];
      var at := |instrs|;
      instrs := LayDown(instrs, m);
      blocks := blocks + [BlockFor(m, |blocks|, at)];
    }
    CarriesContiguous(blocks, instrs, ms);
  }

  // ----- Rebuilding in layout order -----

  /** What a block of a contiguous program holds. */
  ghost function View(blocks: seq<TosBlock>, instrs: seq<TosInst>, b: nat): (m: MdsBlock)
    requires b < |blocks| && Contiguous(blocks, instrs)
    ensures Carries(blocks, instrs, b, m)
  {
    assert InPlace(blocks, instrs, b);
    var at := Offset(blocks, b);
    MdsBlock(blocks[b].id,
             seq(blocks[b].instrCount, k requires 0 <= k < blocks[b].instrCount => instrs[at + k].inst),
             blocks[b].successors)
  }

  ghost function Views(blocks: seq<TosBlock>, instrs: seq<TosInst>, order: seq<nat>): (ms: seq<MdsBlock>)
    requires Contiguous(blocks, instrs) && forall i :: 0 <= i < |order| ==> order[i] < |blocks|
    ensures |ms| == |order| && forall i :: 0 <= i < |order| ==> ms[i] == View(blocks, instrs, order[i])
  {
    seq(|order|, i requires 0 <= i < |order| => View(blocks, instrs, order[i]))
  }

  lemma {:induction false} OffsetPicked(blocks: seq<TosBlock>, order: seq<nat>, targets: seq<TosBlock>, n: nat)
    requires n <= |targets| && n <= |order| && Within(order, |blocks|)
    requires forall i :: 0 <= i < n ==> targets[i].instrCount == blocks[order[i]].instrCount
    ensures Offset(targets, n) == Picked(blocks, order, n)
  {
    if n > 0 {
      OffsetPicked(blocks, order, targets, n - 1);
    }
  }

  lemma {:induction false} PickedMonotone(blocks: seq<TosBlock>, s: seq<nat>, n: nat, m: nat)
    requires n <= m <= |s| && Within(s, |blocks|)
    ensures Picked(blocks, s, n) <= Picked(blocks, s, m)
    decreases m
  {
    if n < m {
      PickedMonotone(blocks, s, n, m - 1);
    }
  }

  /** Laying out blocks in any order needs no more room than they had. */
  lemma {:induction false} RoomFor(blocks: seq<TosBlock>, order: seq<nat>, targets: seq<TosBlock>)
    requires Permutation(|blocks|, order) && |targets| <= |blocks|
    requires forall i :: 0 <= i < |targets| ==> targets[i].instrCount == blocks[order[i]].instrCount
    ensures |targets| < |blocks| ==>
              Offset(targets, |targets|) + blocks[order[|targets|]].instrCount <= Offset(blocks, |blocks|)
    ensures |targets| == |blocks| ==> Offset(targets, |targets|) == Offset(blocks, |blocks|)
  {
    PickedFits(blocks, order, |blocks|);
    OffsetPicked(blocks, order, targets, |targets|);
    if |targets| < |blocks| {
      PickedMonotone(blocks, order, |targets| + 1, |blocks|);
    }
  }

  /** Copies the instructions of source block `b` to the rebuilt array at
      `at`, with new numbers. */
  method CopyBlock(blocks: seq<TosBlock>, instrs: seq<TosInst>, b: nat, rebuilt: array<TosInst>, at: nat)
    requires b < |blocks| && Contiguous(blocks, instrs) && at + blocks[b].instrCount <= rebuilt.Length
    modifies rebuilt
    ensures rebuilt[..at + blocks[b].instrCount] == old(rebuilt[..at]) + Laid(View(blocks, instrs, b), at)
  {
    ghost var m := View(blocks, instrs, b);
    assert InPlace(blocks, instrs, b);
    var first := blocks[b].firstInstr;
    var k := 0;
    while k < blocks[b].instrCount
      invariant 0 <= k <= blocks[b].instrCount
      invariant forall j :: 0 <= j < at ==> rebuilt[j] == old(rebuilt[j])
      invariant forall j :: 0 <= j < k ==> rebuilt[at + j] == Laid(m, at)[j]
    {
      assert InstOk(blocks[b], instrs, first, k);
      var source := instrs[first + k];
      rebuilt[at + k] := source.(id := at + k, order := k);
      k := k + 1;
    }
    ghost var all := rebuilt[..at + k];
    forall i | 0 <= i < |all|
      ensures all[i] == (old(rebuilt[..at]) + Laid(m, at))[i]
    {
      if i >= at {
        assert rebuilt[at + (i - at)] == Laid(m, at)[i - at];
      }
    }
  }

  ghost predicate SameLengths(blocks: seq<TosBlock>, order: seq<nat>, targets: seq<TosBlock>) {
    |targets| <= |order| && Within(order, |blocks|)
    && forall i :: 0 <= i < |targets| ==> targets[i].instrCount == blocks[order[i]].instrCount
  }

  /** Rebuilds the stream in the given order. Every write is inside the array
      allocated for as many instructions as there were, and all of it is used. */
  method Rebuild(blocks: seq<TosBlock>, instrs: seq<TosInst>, order: seq<nat>)
    returns (targets: seq<TosBlock>, stream: seq<TosInst>)
    requires Contiguous(blocks, instrs) && Permutation(|blocks|, order)
    ensures |targets| == |blocks| && |stream| == |instrs| && Contiguous(targets, stream)
    ensures CarriesAll(targets, stream, Views(blocks, instrs, order), |order|)
  {
    ghost var ms := Views(blocks, instrs, order);
    var rebuilt := new TosInst[|instrs|](_ => TosInst(0, 0, 0, Selected(MovRR, [])));
    targets := [];
    var count := 0;
    while |targets| < |blocks|
      invariant |targets| <= |blocks| && count <= rebuilt.Length && count == Offset(targets, |targets|)
      invariant CarriesAll(targets, rebuilt[..count], ms, |targets|) && SameLengths(blocks, order, targets)
    {
      var i, b := |targets|, order[|targets|];
      RoomFor(blocks, order, targets);
      CarriesNext(targets, rebuilt[..count], ms);
      ghost var before := rebuilt[..count];
      CopyBlock(blocks, instrs, b, rebuilt, count);
      var target := blocks[b].(layoutIndex := i, firstInstr := if blocks[b].instrCount == 0 then INVALID_INSTR else count);
      assert target == BlockFor(ms[i], i, count);
      count := count + blocks[b].instrCount;
      assert rebuilt[..count] == before + Laid(ms[i], |before|);
      targets := targets + [target];
    }
    RoomFor(blocks, order, targets);
    CarriesContiguous(targets, rebuilt[..count], ms);
    stream := rebuilt[..count];
  }

  // ----- Programs -----

  class Program {
    var blocks: seq<TosBlock>
    var instrs: seq<TosInst>
    /** The blocks are in reverse postorder. */
    var reversePostorder: bool
    var finalized: bool

    constructor (ms: seq<MdsBlock>)
      ensures |blocks| == |ms| && CarriesAll(blocks, instrs, ms, |ms|) && Contiguous(blocks, instrs)
      ensures !reversePostorder && !finalized
    {
      var bs, is' := BuildFromMds(ms);
      blocks, instrs := bs, is';
      reversePostorder, finalized := false, false;
    }

    /** Puts the blocks in layout order and renumbers the stream. The result is
        valid, block `i` holds what block `order[i]` held, and finalizing once
        more changes nothing. */
    method Finalize() returns (ok: bool, ghost order: seq<nat>)
      requires Contiguous(blocks, instrs)
      modifies this
      ensures ok && Contiguous(blocks, instrs) && finalized && reversePostorder
      ensures |blocks| == |old(blocks)| && |instrs| == |old(instrs)|
      ensures old(finalized && reversePostorder) ==> blocks == old(blocks) && instrs == old(instrs)
      ensures !old(finalized && reversePostorder) ==>
                Layout(Graph(old(blocks)), order) && SearchLayout(Graph(old(blocks)), order)
                && CarriesAll(blocks, instrs, Views(old(blocks), old(instrs), order), |order|)
    {
      order := [];
      if finalized && reversePostorder {
        var overrun;
        ok, overrun := ValidateProgram(blocks, instrs);
        return;
      }
      var layout := new nat[|blocks|];
      ComputeLayoutOrder(blocks, layout);
      order := layout[..];
      var bs, is' := Rebuild(blocks, instrs, layout[..]);
      blocks, instrs := bs, is';
      reversePostorder, finalized := true, true;
      var overrun;
      ok, overrun := ValidateProgram(blocks, instrs);
    }
  }
}
