# WIRBLE, verified

A Dafny model of the WIRBLE compiler: the WIL graph and its rewriter, lowering to MAL, the SSA check and the peephole
pass, MDS instruction selection, TOS layout, the WVM encoder, verifier, interpreter and serializer, and the string
pool. The model follows the C sources; where their comments or names promise more than the code does, the code is
followed and the difference is a lemma.

`dafny verify dfyconfig.toml` checks everything.

## What is proved

- **Graph edits.** Every edit keeps the exact def-use invariant: a user is in a node's use list once per input slot
  naming it. The graph verifier accepts a graph in that invariant exactly when no slot is null.
- **Rewriting.** Acyclicity is having a finite unfolding. Replace-all-uses keeps a graph acyclic exactly when the new
  node cannot reach the old one. Rewriting one node by any validated rule keeps the graph acyclic exactly when the
  rule's text allows it. With sound rules that make terms lighter, one step, the recursive rewriter and the normalizer
  keep the def-use invariant, acyclicity and the value of every node for every parameter assignment; the number of
  rewrites is bounded by the weight of the root, which is also why the recursion on the changing graph ends. What the
  recursion does is stated too, as a pass over every input of every node in order with the first matching rule at
  each; a pass that rewrites nothing leaves the graph alone and has found no rule that matches anywhere below its
  root. All 51 shipped rules meet the hypotheses.
- **Arithmetic.** What the operations compute is said without the functions that model them: sums and products modulo
  2^32, quotients and remainders by the division equation, shifts by their inequality, bitwise operations bit by bit,
  comparisons as words.
- **From graph to result.** A graph lowers to SSA form exactly when every slot that is read is ready or register 0 is
  already defined, and the code then computes the graph whose unready slots name the owner of register 0 and in which
  boolean constants are 1 and 0 and undefined values and null slots 0; for an index-ordered graph of integers that is
  the graph itself. The peephole pass on linked lists terminates and leaves each instruction replaced, at most once,
  by the first rule that matched it, with SSA form and results kept. A graph compiles exactly when every node does: a
  condition on its kind, its type and which of its inputs are constants. Selected instructions have their descriptors'
  shapes; their encoding passes the verifier, never jumps, and the interpreter simulates it. Joined together
  (`Pipeline.Compile`, `Pipeline.ProgramCorrect`, `Pipeline.Evaluate`): the compiled program, run with the boxed
  parameters in its low registers, ends with the boxed value of the returned node in register 0, and there is an
  answer exactly when the graph passes the SSA check and compiles.
- **Layout.** For any block graph, cyclic or not, the layout is a permutation, edges go forward unless the target can
  get back to the source, and the entry block is first exactly when every block is reachable from it. It is the one
  order that the depth-first search gives: a block entered later is finished earlier exactly when a path leads to it
  past everything entered before. The rebuilt stream stays inside its array, keeps every block's code and always
  validates.
- **Machine safety.** A verified prototype stays inside its registers and constants for every number of steps, from
  every program point, exactly when no conditional jump names a register outside the frame. Each instruction is
  specified by its opcode, and the two example programs with jumps answer the maximum and the count for all arguments.
- **Serialization and interning.** The object file is laid out by byte positions; any bytes laid out so read as the
  prototype, so reading back a written one gives the same one and consumes exactly its bytes. The string pool acts as
  a map from texts to entries across any number of growths.
- **Traversals.** Preorder, postorder and breadth-first visits each follow a rule that admits one list only;
  breadth-first lists nodes by nondecreasing distance.

## Where the code does less than it seems to

Each is a lemma with the exact condition, not a remark.

- `div-self` is an identity exactly when the operand is not zero (`StdRules.DivSelfExact`); the interpreter answers 0
  for a division by zero. Over the reading in which such divisions have no value, all shipped rules are sound.
- A validated rule can make a cycle: the validator accepts a left side that binds the matched node itself
  (`Rewriter.ValidatedRuleMakesCycle`, for every graph and node). A rule is safe exactly when its left side does not
  bind the root, or its right side has no variables or is a bare one (`Rewriter.ReplacedAcyclicIff`).
- The matcher identifies nodes by kind and inputs, so two parameters, or two constants, are the same to it: `sub-self`
  turns the difference of two parameters into 0 (`KindKey.SubSelfWrong`). On a graph this is sound exactly when nodes
  of the same key carry the same payload (`KindKey.ByKeySoundIff`). The theorems about whole rewriting runs take a
  sound equivalence, such as node identity.
- Lowering reads register 0 for a node that has no register yet. Out of index order, as replacing uses by a new node
  leaves a graph, it can yield code that passes the SSA check and returns a wrong value for every argument
  (`OutOfOrder.OrderMatters`). The check catches it exactly when register 0 is not defined yet
  (`Lowering.LoweredSsaIff`), and `Lowering.PatchedReturns` says what is computed when it does not.
- A boolean constant compiles to the integer 1 or 0, while a comparison leaves a boolean word: `return true` and
  `return eq x x` end with different words, though `eq-self` rewrites one to the other (`Pipeline.ConstantReturned`).
- Not every operation has an instruction: `mul x 5` does not compile, `mul x 1` becomes a copy
  (`Compilable.SelectableIff`).
- `xor.rr` is encoded as OR, because the search for `or.` comes first: right exactly when the operands share no bit
  (`Simulation.XorEncodedAsOr`).
- The prototype verifier does not look at the registers of conditional jumps (`Bytecode.UncheckedJump`,
  `Bytecode.SafeIff`).
- Encoded code is verified exactly when no register number is 65535 modulo 65536 (`EncoderProofs.EncodingVerifies`).
- A prototype with an allocated but empty instruction array is written and then refused on reading
  (`Serializer.ObjectRoundTrip`).

## Reading guide

`Values`, `Terms` and `Arithmetic` hold 32-bit arithmetic, NaN-boxed words and the value of terms. A value is an
integer, a boolean, the bits of a float or `Undef`, which stands for everything ill-typed or unimplemented; all preservation results say
that a defined value is kept exactly. `Terms.Sem` picks what has a value: `Source` reads a graph, `Machine` is what
the bytecode can be asked to compute (integers only), with `Machine(true)` giving exclusive or a value only on
operands that share no bit. `WilGraph`, `Unfolding`, `Patterns`, `Rules`, `Rewriter`, `StdRules`, `KindKey`,
`TermTable` and `Optimizer` are the graph and its rewriting; `Mal`, `Lowering`, `OutOfOrder`, `Peephole`,
`PeepholeRules` and `PeepholePass` the linear code; `Mds` and `Compilable` selection; `Tos` and `TosStream` layout;
`Bytecode`, `Execution`, `Encoder`, `EncoderProofs`, `Simulation` and `Vm` the machine; `Pipeline` joins them. `Dfs`,
`SearchOrder`, `FinishOrder` and `DepthFirst` are the theory of graph search that layout and `Traversal` share;
`Serializer` with `ObjectFormat`, and `StringPool`, stand beside.

Pointers are indices into the owning array, except in the peephole pass, whose instruction lists are linked objects.
Allocation always succeeds.

## Model

| member | source | states |
|---|---|---|
| Values.BoxRoundTrip | include/wirble/wirble-wvm.h:253-288 | integer and boolean tags never collide with each other or with floats as the macro recognizes them, payloads survive boxing, and boxing is injective |
| Values.XorIsOr | src/wirble/wvm/wvm_encoder.c:362-363 | bitwise exclusive or equals or exactly when and is zero |
| Arithmetic.ShiftRightMeans | src/wirble/wvm/wvm_runtime.c:325 | a right shift is the quotient by the power of two rounded down, negative operands included |
| Arithmetic.ShiftLeftMeans | src/wirble/wvm/wvm_runtime.c:324 | a left shift is the product with the power of two, modulo 2^32 |
| Arithmetic.DivisionMeans | src/wirble/wvm/wvm_runtime.c:319-320 | quotient and remainder satisfy the division equation, the remainder is smaller than the divisor and has the sign of the dividend; 0 for a zero divisor, and the one overflow wraps around |
| Arithmetic.BitwiseMeans | src/wirble/wvm/wvm_runtime.c:321-323 | every bit of an and, or and exclusive or is that operation on the operands' bits |
| Arithmetic.BinaryComputes | src/wirble/wvm/wvm_runtime.c:303-335 | each two-operand operation of a graph computes its sum, product, quotient, bits, shift or comparison, and has no value in exactly three cases: a shift amount outside 0..31, a trapping division by zero, an exclusive or ruled out by a shared bit |
| Arithmetic.UnaryComputes | src/wirble/wvm/wvm_runtime.c:412-419 | negation modulo 2^32, complement, and absolute value |
| Arithmetic.BooleansCompute | stdrewrite/logic.wrs:4-102 | boolean operations by their truth tables, as the rules read a graph |
| Arithmetic.LeavesCompute | stdrewrite/canonical.wrs:4-72 | an integer constant is its payload modulo 2^32, others are their payload, a parameter its argument, and a selection the input its condition picks |
| Arithmetic.WordYields | src/wirble/wvm/wvm_runtime.c:303-335 | opcode by opcode, the word the interpreter stores for two integers, in terms of the integers alone |
| Terms.ApplyMonotone | src/wirble/wvm/wvm_runtime.c:303-335 | every operation is monotone: defining an operand further never changes a defined result |
| Terms.MachineAgrees | src/wirble/wvm/wvm_runtime.c:303-335 | a value the machine computes is the value the source reading gives |
| WilGraph.VerifiedIffNoNulls | src/wirble/wil/wil_validate.c:5-121 | in the def-use invariant the verifier's conditions hold exactly when no slot is null |
| WilGraph.Graph.Verify | src/wirble/wil/wil_validate.c:5-121 | the nested search loops accept exactly the graphs meeting those conditions and change nothing |
| WilGraph.Graph.CreateNode | src/wirble/wil/wil_nodes.c:376-405 | appends a node with the next identifier and keeps the def-use invariant |
| WilGraph.Graph.RegisterUse | src/wirble/wil/wil_nodes.c:575-589 | appends the user to the input's use list; a null input changes nothing |
| WilGraph.Graph.UnregisterUse | src/wirble/wil/wil_nodes.c:591-612 | removes one occurrence of the user, keeping the others in order |
| WilGraph.Graph.AddInput | src/wirble/wil/wil_nodes.c:614-631 | appends the slot and its edge kind and keeps the def-use invariant |
| WilGraph.Graph.ReplaceInput | src/wirble/wil/wil_nodes.c:633-644 | changes one slot, leaves every other slot and edge kind, and keeps the def-use invariant |
| WilGraph.Graph.RemoveInput | src/wirble/wil/wil_nodes.c:646-658 | removes one slot with its edge kind and keeps the def-use invariant |
| WilGraph.Graph.ReplaceAllUses | src/wirble/wil/wil_nodes.c:660-694 | afterwards every slot naming the old node names the new one, the old node has no uses, all other slots and all edge kinds are unchanged, and the def-use invariant holds |
| WilGraph.Graph.RemoveNode | src/wirble/wil/wil_nodes.c:696-712 | an unused node loses its inputs and is marked; a used one is left alone; the def-use invariant holds |
| WilGraph.Graph.BuildNode | src/wirble/wil/wil_builder.c:13-75 | builds a node over inputs, in order and over data edges, with the default type for its kind and first input, and keeps the def-use invariant |
| WilGraph.DefaultTypes | src/wirble/wil/wil_builder.c:13-75 | the default type of every kind: a hint decides, comparisons are booleans, arithmetic takes its first input's type |
| Unfolding.LabelUnique | src/wirble/wil/wil_nodes.c:660-694 | an acyclic graph has one unfolding |
| Unfolding.RedirectAcyclicIff | src/wirble/wil/wil_nodes.c:660-694 | replace-all-uses keeps a graph acyclic exactly when the new node cannot reach the old one |
| Unfolding.RedirectPreservesValues | src/wirble/wil/wil_nodes.c:660-694 | replacing all uses by an equal-valued node that cannot reach the old one preserves every node's value for every parameter assignment |
| Unfolding.RedirectImproves | src/wirble/wil/wil_nodes.c:660-694 | redirecting to a lighter equal-valued term makes no node heavier and keeps every value |
| Patterns.MatchGrows | src/wirble/wrs/wrs_match.c:20-129 | a match only extends the substitution, by exactly the pattern's variables, each bound once; null inputs included |
| Patterns.MatchExact | src/wirble/wrs/wrs_match.c:84-129 | under node identity a match extends to a given substitution exactly when the pattern fits the slot under it; a null slot fits variables and wildcards only |
| Patterns.MatchSoundComplete | src/wirble/wrs/wrs_match.c:84-129 | matching succeeds exactly when some substitution makes the pattern equal what the slot names, and that substitution is unique on the pattern's variables |
| Rules.ValidateExact | src/wirble/wrs/wrs_system.c:308-409 | the validator accepts a rule exactly when the right side's variables occur on the left, with at most 128 names on each side |
| Rules.MatchCovers | src/wirble/wrs/wrs_match.c:164-271 | after a match of a validated rule, instantiating the right side meets no unbound variable |
| Rules.IdentityIsSound | src/wirble/wrs/wrs_apply.c:5-47 | a rule whose sides have equal values under every valuation is sound wherever it matches |
| Rules.MatchPreserves | src/wirble/wrs/wrs_apply.c:5-47 | the instantiated right side of a sound rule keeps the value of the matched node |
| Rules.MatchShrinks | src/wirble/wrs/wrs_apply.c:5-47 | the instantiated right side of a shrinking rule weighs less than the matched node's unfolding |
| Rules.MatchBelow | src/wirble/wrs/wrs_match.c:84-129 | a pattern that does not bind the root binds only strict descendants |
| Rewriter.RewriteSystem.Instantiate | src/wirble/wrs/wrs_match.c:188-271 | builds a node whose unfolding is the instantiated pattern, only appending nodes with the builders' types and data edges; a variable is the bound node itself, and the result is built over the bound nodes of all its variables and no others |
| Rewriter.RewriteSystem.ApplyRule | src/wirble/wrs/wrs_apply.c:5-47 | any validated rule at one node: unchanged if it does not match; otherwise the instance is built and the uses move to it, the graph stays acyclic exactly when the rule's text allows, and a sound shrinking rule leaves a lighter node of the same value |
| Rewriter.RewriteSystem.ApplyAt | src/wirble/wrs/wrs_apply.c:56-77 | the first applicable rule is used, with the effect of that rule; nothing happens only if no rule applies |
| Rewriter.RewriteSystem.RewriteInputs | src/wirble/wrs/wrs_apply.c:79-123 | makes a pass over every input of the node in order, each on the graph the last one left; it terminates, keeps every value and counts the rewrites; if there were none, the graph is unchanged and no rule matches at any node reachable from an input |
| Rewriter.RewriteSystem.ApplyRecursive | src/wirble/wrs/wrs_apply.c:79-123 | the recursion terminates and is exactly a pass: every input of every node in order, and the first matching rule at each, in the order of the strategy; every node keeps its value; each rewrite lowers the root's weight; without a rewrite the graph is unchanged and no rule matches at any node reachable from the root |
| Rewriter.RewriteSystem.Normalize | src/wirble/wrs/wrs_apply.c:212-239 | passes from the root until one does not replace its root; the returned root has the value of the input root, every old node keeps its value, rewrites are bounded by the initial weight, with enough iterations no rule matches at the root, and if the last pass made no rewrite no rule matches anywhere below it |
| Rewriter.RewriteSystem.ApplyToFixpoint | src/wirble/wrs/wrs_apply.c:131-159 | the same passes with exact iteration, rewrite and normal-form counts |
| Rewriter.QuietPass | src/wirble/wrs/wrs_apply.c:79-123 | a pass without rewrites leaves the graph alone, and no rule matches at its node or anything reachable from it |
| Rewriter.ReplacedAcyclicIff | src/wirble/wrs/wrs_apply.c:5-47 | rewriting any node of any acyclic graph by a validated rule keeps it acyclic exactly when the left side does not bind the root, or the right side has no variables or is a bare one |
| Rewriter.ValidatedRuleMakesCycle | src/wirble/wrs/wrs_system.c:355-409 | a rule the validator accepts matches every node of every graph, and rewriting with it always makes the graph cyclic |
| TermTable.TreesDiffer | third_party/equinox/src/egraph.c:95-117 | different entries of the term table stand for different trees of kinds |
| TermTable.AddNode | src/wirble/wrs/wrs_equinox.c:117-167 | enters a node and all below it under an entry that stands for its tree of kinds, reusing entries; fails exactly when a node with more than four inputs is met |
| TermTable.NodesEquivalent | src/wirble/wrs/wrs_equinox.c:432-481 | two nodes are equivalent exactly when they are the same node or have the same tree of kinds |
| KindKey.ByKeySoundIff | src/wirble/wrs/wrs_equinox.c:117-165 | identifying nodes of a graph by kind and inputs is sound exactly when nodes of the same key carry the same payload |
| KindKey.KeyedMatchPreserves | src/wirble/wrs/wrs_equinox.c:432-481 | on such a graph the instance of a sound rule matched by key keeps the matched node's value |
| KindKey.SubSelfFires | stdrewrite/arithmetic.wrs:24-27 | sub-self fires at a subtraction exactly when its operands have the same key |
| KindKey.SubSelfExact | stdrewrite/arithmetic.wrs:24-27 | replacing a subtraction by 0 keeps its value exactly when its operands are equal wherever both are integers |
| KindKey.SubSelfWrong | src/wirble/wrs/wrs_equinox.c:432-481 | sub-self fires at the difference of two parameters and what it builds has another value |
| StdRules.ShippedGood | stdrewrite/arithmetic.wrs:4-87 | every shipped rule is accepted by the validator, is an identity where divisions by zero have no value, is buildable, does not bind its root, and strictly lowers the weight |
| StdRules.ShippedGoodExceptDivSelf | stdrewrite/logic.wrs:4-102 | all shipped rules but div-self are also identities with x/0 = 0 |
| StdRules.DivSelfExact | stdrewrite/arithmetic.wrs:54-57 | div-self keeps the value exactly when the operand is not zero |
| StdRules.BuiltinOk | stdrewrite/canonical.wrs:4-72 | every rule set drawn from the shipped files meets the rewriting theorems' hypotheses |
| Optimizer.NormalizeWithBuiltins | examples/common/frontend.c:553-580 | normalizing with built-in rules preserves the value of the root and of every node; after a last pass without a rewrite no rule matches anywhere below the root |
| Mal.VerifySsa | src/wirble/mal/mal_validate.c:129-180 | the flag array accepts exactly the functions whose registers are in range, written once and read only afterwards |
| Mal.RunPrefix | src/wirble/mal/mal_ir.c:334-543 | running a prefix does not depend on the code that follows |
| Mal.SsaAppend | src/wirble/mal/mal_validate.c:129-180 | appending an instruction with defined operands and a fresh destination keeps SSA form |
| Lowering.Lower | src/wirble/mal/mal_ir.c:362-543 | the pass with its node-to-register table computes the specified function, whose meaning the rows below give |
| Lowering.LoweredNumbered | src/wirble/mal/mal_ir.c:362-543 | instructions are numbered in order, and the function's type is that of the last returned value |
| Lowering.LoweredAs | src/wirble/mal/mal_ir.c:493-533 | an integer operation lowers to one instruction that means its kind, over the operands of all its inputs in order, with its type and a fresh register entered in the table |
| Lowering.TableInv | src/wirble/mal/mal_ir.c:401-543 | a node without a register has 0 in the table, and whether register 0 is defined can be told from the graph |
| Lowering.LoweredSsaIff | src/wirble/mal/mal_ir.c:334-543 | the SSA checker accepts a lowered graph exactly when every slot that is read is ready, or register 0 has been defined by then |
| Lowering.LoweredIsSsa | src/wirble/mal/mal_ir.c:334-543 | an index-ordered graph lowers to a function in SSA form |
| Lowering.FirstReturn | src/wirble/mal/mal_ir.c:362-543 | for any monotone operations, the lowered code returns the value of the node the first return stands for, and if every operation before it has a value, so has every instruction |
| Lowering.PatchedReturns | src/wirble/mal/mal_ir.c:334-543 | whenever the lowered function is in SSA form it returns, for every choice of parameters, the machine value of the returned node in the graph whose unready slots name the owner of register 0, whose boolean constants are 1 and 0, and whose undefined values and null slots are 0 |
| Lowering.LoweredReturns | src/wirble/mal/mal_ir.c:362-543 | for an index-ordered graph that is the machine value of the returned node itself |
| Lowering.OrderedLabels | src/wirble/mal/mal_ir.c:334-360 | of an index-ordered acyclic graph, lowering changes constants only |
| Lowering.OrderedPatched | src/wirble/mal/mal_ir.c:334-360 | an index-ordered graph without null slots and without boolean or undefined constants is translated as it stands |
| OutOfOrder.OrderMatters | src/wirble/mal/mal_ir.c:406-420 | a graph out of index order passes the SSA check after lowering and returns a wrong value for every argument |
| Peephole.MatchRule | src/wirble/mal/mrs_match.c:20-78 | accepts exactly the instructions that match: literals equal, repeated variables equal, at most eight variables; and binds each variable to its first operand |
| Peephole.BuildReplacement | src/wirble/mal/mrs_match.c:80-123 | builds the replacement, ending early at an unbound variable |
| Peephole.ReplacementReads | src/wirble/mal/mrs_match.c:80-123 | a replacement reads only registers the instruction read |
| Peephole.TuneCases | src/wirble/mal/mrs_apply.c:46-73 | what the pass makes of an instruction: the replacement by the first rule that matches it, or itself if none does |
| Peephole.SsaReplace | src/wirble/mal/mal_validate.c:129-180 | replacing instructions by ones with their destinations and no new registers keeps SSA form |
| Peephole.RunRefines | src/wirble/mal/mrs_apply.c:35-76 | replacing instructions by ones computing at least the same keeps every run's outcome |
| PeepholeRules.ShippedRefine | stdrewrite/mal_peephole.wrs:4-62 | all twelve shipped peephole rules are sound for the machine's arithmetic |
| PeepholeRules.ShippedCooling | stdrewrite/mal_peephole.wrs:4-62 | no shipped rule produces an opcode a shipped rule matches |
| PeepholePass.StepCools | src/wirble/mal/mrs_apply.c:35-76 | each replacement removes one instruction that some rule could match |
| PeepholePass.StepTunes | src/wirble/mal/mrs_apply.c:35-76 | one replacement does not change where the pass ends |
| PeepholePass.TunedKept | src/wirble/mal/mrs_apply.c:78-87 | replacing every instruction by its first match keeps SSA form and, for sound rules, every value |
| PeepholePass.KeptResult | src/wirble/mal/mrs_apply.c:78-87 | whatever the pass did, a block returns what it returned, and instructions that had a value still have one |
| PeepholePass.Block.InsertEnd | src/wirble/mal/mal_builder.c:84-100 | appends to the doubly linked list and keeps it well linked |
| PeepholePass.Block.Replace | src/wirble/mal/mrs_apply.c:5-33 | splices a node in place of another; links stay consistent both ways and all other instructions stay |
| PeepholePass.Body.ScanBlock | src/wirble/mal/mrs_apply.c:46-73 | replaces the first matching instruction of a block by the first matching rule, or finds that none matches |
| PeepholePass.Body.ApplyOne | src/wirble/mal/mrs_apply.c:35-76 | acts at the first match in block order and nowhere else |
| PeepholePass.Body.ApplyToFixpoint | src/wirble/mal/mrs_apply.c:78-87 | terminates when replacement opcodes are never matched and leaves exactly the code in which each instruction is replaced by its first match; no rule matches any more, and links, SSA form and results are kept |
| Mds.SelectBest | src/wirble/mds/mds_patterns.c:325-348 | the first of the cheapest matching patterns, or none exactly when none matches |
| Mds.PatternAccepts | src/wirble/mds/mds_patterns.c:146-213 | the constraints filled in for a pattern say exactly what its descriptor's operand kinds do |
| Mds.AcceptsOne | src/wirble/mds/mds_patterns.c:275-303 | no instruction is accepted by two descriptors |
| Mds.EmitShaped | src/wirble/mds/mds_selector.c:69-110 | an emitted instruction has its descriptor's operand count and kinds exactly when the destination the descriptor writes is there |
| Mds.OneImmediate | src/wirble/mds/mds_tables.c:274-371 | a shaped instruction has at most one immediate, and only as its last operand |
| Mds.SelectProgram | src/wirble/mds/mds_selector.c:129-215 | selection succeeds exactly when every instruction is accepted, and then maps instruction by instruction |
| Compilable.SurvivesIff | src/wirble/mds/mds_patterns.c:146-213 | an instruction can be selected after the pass exactly when a peephole rule matches it or a descriptor accepts it as it is |
| Compilable.SelectableIff | src/wirble/mal/mal_ir.c:362-543 | what the peephole pass leaves of a lowered graph can be selected exactly when every node has a supported kind and type, the right number of inputs, and constants only where a descriptor or a peephole rule takes them |
| Compilable.WidthKept | src/wirble/mal/mal_ir.c:239-257 | lowering keeps the width of every type |
| Dfs.Leave | src/wirble/tos/tos_opt.c:18-29 | finishing a node whose successors are all seen keeps the postorder property, cycles included |
| Dfs.GrownTransitive | src/wirble/tos/tos_opt.c:7-30 | nested visits compose: exactly reachable unseen nodes are entered, and all of them finished |
| Dfs.SeenReaches | src/wirble/tos/tos_opt.c:7-30 | with nothing unfinished, the seen nodes include everything they reach |
| Dfs.DistinctFits | src/wirble/tos/tos_opt.c:32-85 | distinct block numbers fit the array, and fill it exactly when every block occurs |
| Tos.FindBlockIndex | src/wirble/tos/tos_stream.c:110-127 | the first block with the identifier, or none |
| Tos.VisitBlock | src/wirble/tos/tos_opt.c:7-30 | a visit terminates, stays inside the postorder array, enters exactly unseen reachable blocks in depth-first order, finishes them in the order white paths give and the start last |
| Tos.ReverseIsLayout | src/wirble/tos/tos_opt.c:66-80 | the reversed postorder is a permutation, edges go forward unless the target reaches back, and the entry is first exactly when all blocks are reachable |
| Tos.ComputeLayoutOrder | src/wirble/tos/tos_opt.c:32-85 | for every block graph the order array is such a layout, and the one that the depth-first search from the entry and then from the least block left gives |
| Tos.LayoutUnique | src/wirble/tos/tos_opt.c:32-85 | there is one such order |
| DepthFirst.ForestUnique | src/wirble/tos/tos_opt.c:66-76 | there is one list of all blocks from the entry in which each is the first new successor of the latest block that has one, or the least block left when none has |
| FinishOrder.FinishUnique | src/wirble/tos/tos_opt.c:7-30 | for an entering order there is one list in which a node entered later is finished earlier exactly when a path leads to it past everything entered before |
| TosStream.ValidateProgram | src/wirble/tos/tos_opt.c:186-228 | accepts exactly the contiguous programs: blocks in place, instructions numbered without gaps, stream filled; and tells exactly when the check would read past the stream |
| TosStream.BuildFromMds | src/wirble/tos/tos_stream.c:59-168 | the built stream is contiguous and holds every block's identifier, successors and code |
| TosStream.PickedFits | src/wirble/tos/tos_opt.c:102-123 | blocks picked without repetition are never longer than the stream, and exactly as long when all are picked |
| TosStream.CopyBlock | src/wirble/tos/tos_opt.c:113-122 | copies a block's instructions with new numbers, inside the array |
| TosStream.Rebuild | src/wirble/tos/tos_opt.c:87-128 | every write is in bounds, the count is kept, and block i holds what block order[i] held |
| TosStream.Program.Finalize | src/wirble/tos/tos_opt.c:130-183 | the program is laid out in that order, keeps every block's code, always validates, and finalizing again changes nothing |
| Bytecode.EncodeRoundTrip | include/wirble/wirble-wvm.h:136-200 | opcode and registers decode back from their bit fields |
| Bytecode.EncodeWideRoundTrip | include/wirble/wirble-wvm.h:136-200 | 32-bit fields decode back |
| Bytecode.VerifyPrototype | src/wirble/wvm/wvm_encoder.c:560-626 | accepts exactly the prototypes with code whose words have valid opcodes and in-range checked operands |
| Bytecode.ExecSafe | src/wirble/wvm/wvm_runtime.c:337-469 | a step on a verified word faults exactly on a conditional jump naming a register outside the frame |
| Bytecode.RunSafe | src/wirble/wvm/wvm_runtime.c:337-469 | for every number of steps a verified prototype without such jumps stays inside its registers and constants |
| Bytecode.SafeIff | src/wirble/wvm/wvm_encoder.c:560-626 | a verified prototype is safe from every program point exactly when it has no such jump |
| Bytecode.UncheckedJump | src/wirble/wvm/wvm_encoder.c:619-621 | an accepted prototype whose first step leaves the frame |
| Bytecode.JumpFreeHalts | src/wirble/wvm/wvm_runtime.c:364-464 | a jump-free prototype halts within as many steps as it has instructions |
| Bytecode.WellTagged | src/wirble/wvm/wvm_runtime.c:303-335 | every completed arithmetic operation leaves a tagged integer and every comparison a boolean |
| Execution.FieldsOfBytes | include/wirble/wirble-wvm.h:136-200 | opcode, registers and wide fields by the bytes of the word |
| Execution.ExecDoes | src/wirble/wvm/wvm_runtime.c:366-463 | what every opcode does to registers and program counter: loads store their word, negation and complement their sums, comparisons and arithmetic their result, conditional jumps go on their condition and land modulo 2^32, all other registers stay, unknown opcodes and operands that are not integers are refused; it faults exactly when something the word names is not there |
| Execution.VerifierExact | src/wirble/wvm/wvm_encoder.c:560-626 | of an implemented opcode the verifier asks exactly what executing it needs, except for the register of a conditional jump |
| Execution.MaxAnswers | examples/wvm/02_conditional.wvm:5-12 | with the arguments in registers 0 and 1 the program answers the larger one, for all of them |
| Execution.CountAnswers | examples/wvm/03_loop.wvm:4-10 | with the argument in register 0 the loop ends for every argument and has counted up to it, at least to 1 |
| Encoder.OccursMeans | src/wirble/wvm/wvm_encoder.c:351-356 | the substring search finds a name exactly when it stands in the mnemonic somewhere |
| Encoder.SearchFinds | src/wirble/wvm/wvm_encoder.c:351-371 | which opcode the substring tests find for every two-operand mnemonic; exclusive or finds OR |
| Encoder.ComputeRegCount | src/wirble/wvm/wvm_encoder.c:376-404 | two more than the highest register, or 65535 |
| EncoderProofs.MaxRegMeans | src/wirble/wvm/wvm_encoder.c:376-404 | the highest register is above every register named, and is named itself unless it is 0 |
| Encoder.PrototypeFromTos | src/wirble/wvm/wvm_encoder.c:406-463 | the given names, the words and constants of each instruction in order, a lone halt for empty code, line 0 for every word and no parameters, strings or nested prototypes; fails exactly at an instruction that cannot be emitted |
| EncoderProofs.ShapedEmits | src/wirble/wvm/wvm_encoder.c:224-374 | a shaped instruction always emits: a load of an immediate last operand, then one word |
| EncoderProofs.EncodingVerifies | src/wirble/wvm/wvm_encoder.c:560-626 | the verifier accepts the encoding of shaped code exactly when no register is 65535 modulo 65536 |
| EncoderProofs.ShapedJumpFree | src/wirble/wvm/wvm_encoder.c:269-374 | the encoding of shaped code never jumps |
| Simulation.XorEncodedAsOr | src/wirble/wvm/wvm_encoder.c:362-363 | the word computed for an encoded exclusive or is right exactly when the operands share no bit |
| Simulation.LoadSim | src/wirble/wvm/wvm_encoder.c:224-267 | loading an operand leaves its boxed value where it is read and disturbs no register below the scratch register |
| Simulation.InstSim | src/wirble/wvm/wvm_encoder.c:269-374 | running an instruction's words writes its boxed MAL value to its destination and keeps the register relation |
| Simulation.Simulates | src/wirble/wvm/wvm_runtime.c:337-469 | the encoded program finishes within its length with the boxed MAL result in register 0 |
| Vm.Machine.EnsureStack | src/wirble/wvm/wvm_runtime.c:205-233 | room for the extra slots, old slots unchanged, new ones zero |
| Vm.Machine.SetReg | src/wirble/wvm/wvm_runtime.c:268-284 | writes the register, growing the stack to it, and keeps the others |
| Vm.Machine.GetReg | src/wirble/wvm/wvm_runtime.c:286-294 | the register, or nil above the stack |
| Vm.Machine.SetUpFrame | src/wirble/wvm/wvm_runtime.c:349-358 | registers that held values keep them, new ones are zero |
| Vm.Machine.ExecWord | src/wirble/wvm/wvm_runtime.c:366-463 | one turn of the loop does to the stack what the specification does to the frame; it would leave the frame exactly at a conditional jump naming a register outside it |
| Vm.Machine.RunLoop | src/wirble/wvm/wvm_runtime.c:364-464 | the loop stands where the specification does after as many steps |
| Vm.Machine.Execute | src/wirble/wvm/wvm_runtime.c:337-469 | for every prototype: unverified ones are refused unchanged; otherwise the stack ends as the frame after that many steps, and the answer tells whether the run went on, was refused or left its frame |
| Pipeline.Compile | examples/common/frontend.c:597-706 | lowering, SSA check, peephole, selection, layout, encoding and bytecode check: the result is a verified program of the graph under the given names, and up to 65534 nodes there is one exactly when the graph passes the SSA check and every node compiles |
| Pipeline.ProgramCorrect | examples/common/frontend.c:597-706 | the compiled program ends with the boxed source value of the returned node in register 0, for all parameters for which the machine can compute it, in the graph that lowering translates |
| Pipeline.ConstantReturned | src/wirble/mal/mal_ir.c:334-360 | a program whose return reads a constant ends with it in register 0: true is 1, false is 0, undefined and null are 0, none of which is a word that a comparison leaves, and a float is its bits |
| Pipeline.ParamsSurvive | src/wirble/wvm/wvm_runtime.c:349-358 | preset parameter registers survive frame set-up and relate to the lowered parameters |
| Pipeline.RunProgram | src/wirble/wvm/wvm_runtime.c:268-469 | on a fresh machine with the arguments set, the answer is register 0 after the whole run |
| Pipeline.Evaluate | examples/common/frontend.c:597-706 | compiling and running gives the value of the returned node, and an answer exactly when the graph passes the SSA check and every node compiles |
| Serializer.ReadBack | src/wirble/wvm/wvm_emit.c:73-147 | a little-endian scalar reads back |
| Serializer.ProtoRoundTrip | src/wirble/wvm/wvm_emit.c:186-289 | reading back a written prototype between any other bytes gives the same names, counts, instructions, constants and lines and ends exactly after it |
| Serializer.Buffer.WriteBytes | src/wirble/wvm/wvm_emit.c:8-99 | appends the bytes, growing the buffer |
| Serializer.Buffer.Serialize | src/wirble/wvm/wvm_emit.c:186-219 | appends exactly the fields of the format in order, which `ObjectFormat.WrittenLaid` places byte by byte |
| Serializer.Reader.Deserialize | src/wirble/wvm/wvm_emit.c:221-289 | reads a prototype and advances past it, with missing bytes read as zeros; `ObjectFormat.LaidReads` says what it makes of any bytes laid out so |
| ObjectFormat.WrittenLaid | src/wirble/wvm/wvm_emit.c:186-219 | the byte positions of the names, the register, parameter and vararg fields, the four counts, the instruction and constant words and the line map of a written prototype, and its length |
| ObjectFormat.LaidReads | src/wirble/wvm/wvm_emit.c:221-289 | bytes laid out so, wherever they come from, read as that prototype, and reading ends right behind it |
| ObjectFormat.ObjectLaid | src/wirble/wvm/wvm_emit.c:291-317 | an object file is 56 header bytes, with magic, version, section count and time stamp in place, and then the prototype |
| ObjectFormat.MagicBytes | src/wirble/wvm/wvm_emit.c:343-369 | the first four bytes decide the magic |
| ObjectFormat.ReadStays | src/wirble/wvm/wvm_emit.c:112-184 | reading any bytes never goes past their end |
| ObjectFormat.NothingReads | src/wirble/wvm/wvm_emit.c:112-184 | with nothing to read everything is zero, the names empty and the tables absent |
| Serializer.WriteObject | src/wirble/wvm/wvm_emit.c:291-317 | writes header and prototype exactly for verified prototypes |
| Serializer.ReadObject | src/wirble/wvm/wvm_emit.c:343-369 | succeeds exactly when the magic matches and the prototype read verifies |
| Serializer.ObjectRoundTrip | src/wirble/wvm/wvm_emit.c:291-369 | a written object reads back exactly when it has instructions |
| StringPool.Pool.Grow | src/wirble/common/strpool.c:24-67 | rehashing relinks every entry into its bucket; no entry moves, is lost or doubled |
| StringPool.Pool.Intern | src/wirble/common/strpool.c:113-163 | a known text gives its entry and changes nothing; a new one gets the next entry |
| StringPool.Pool.InternAll | src/wirble/common/strpool.c:113-163 | across any run of interning, entries are equal exactly when the texts are |
| SearchOrder.PreorderUnique | src/wirble/wil/wil_nodes.c:714-742 | there is one complete list from a start in which every node is the first new input of the latest node that has one |
| SearchOrder.BreadthUnique | src/wirble/wil/wil_nodes.c:807-861 | there is one complete list from a start in which every node is the first new input of the earliest node that has one |
| SearchOrder.BreadthDistances | src/wirble/wil/wil_nodes.c:807-861 | in that list the length of the chain of parents is the distance from the start, and it does not fall |
| DepthFirst.PostorderUnique | src/wirble/wil/wil_nodes.c:783-805 | there is one postorder from a start |
| Traversal.VisitDepthFirst | src/wirble/wil/wil_nodes.c:714-742 | a visit terminates, enters nodes in preorder, leaves nothing it entered with a new input, finishes nodes in the order white paths give, and logs them as they are entered or left |
| Traversal.TraverseDfs | src/wirble/wil/wil_nodes.c:759-781 | visits exactly the nodes reachable through inputs, each once, in preorder from the start |
| Traversal.TraversePostorder | src/wirble/wil/wil_nodes.c:783-805 | the same nodes in the postorder of the depth-first search from the start; on acyclic graphs every input before its user |
| Traversal.TraverseRpo | src/wirble/wil/wil_nodes.c:863-905 | that list backwards; on acyclic graphs every user before its inputs |
| Traversal.TraverseBfs | src/wirble/wil/wil_nodes.c:807-861 | the same nodes, each once, in breadth-first order and so by nondecreasing distance, inside the queue buffer |

## Left out

- Rewriter.RewriteSystem.ApplyRule: right sides are of supported kinds and arities without wildcards; for others the source builds nothing, or nodes with null inputs.
- Vm.Machine.Execute: runs at most a given number of turns, because a program with jumps need not terminate; jump-free programs need no more turns than they have instructions. A run that leaves its frame is reported and stops there, where C goes on with whatever it reads.
- Vm.Machine.EnsureStack: sizes are unbounded, so the 32-bit overflow of stack size plus extra is not modelled.
- TosStream.ValidateProgram: a read past the stream is reported and ends the check, where C goes on with whatever it reads. Descriptors are never null.
- Encoder.SearchFinds: mnemonics are modelled without their target prefix, which contains none of the searched names.
- Serializer.ProtoRoundTrip: strings and nested prototypes are counts only, as the source writes no more of them; null names come back as empty ones.
- StringPool.Pool.Intern: entries are numbers in order of creation instead of addresses.
- Pipeline.ProgramCorrect: starts at the graph that is lowered; rewriting is not composed with it, since it does not keep index order.
- Optimizer.NormalizeWithBuiltins: node identity stands for the driver's equivalence, which `KindKey` shows to be unsound on graphs with two different constants or parameters.
- TermTable.NodesEquivalent: the table as it is before saturation; for sums, products, and, or and exclusive or the source goes on to identify nodes up to commutativity and associativity, by the bundled e-graph library.
- The e-graph pre-pass of the normalizer, which is taken to find no replacement.
- Wildcards and predicates on the right of a rule, rule actions, `:when` guards, per-rule counters.
- The read-only normal-form queries and named-rule application of the rewriter.
- Float arithmetic (float constants are carried through to the result), loads, stores, calls, phis and effects: lowered or carried along, without a value.
- The types of values: wider and narrower integer types compute as 32-bit integers, as the interpreter does.
- Shifts by amounts outside 0..31: undefined in C, an arbitrary result in the interpreter, no value in a graph.
- Multi-function modules, control flow in MAL, the CFG, dominator and liveness placeholders.
- TOS versions, traces, caches and their peephole hooks.
- Garbage collection, JIT, coroutines, closures, upvalues, archives and the checksum field.
- Loading rules and machines from files, printers, diagnostics, command-line tools, frontend parsing and folding.
- Arena, byte-buffer and capacity-doubling helpers outside the structures above.
