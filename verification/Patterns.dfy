/**
 Rewrite patterns: matching a pattern against a graph node with an accumulated
 substitution, instantiating a right-hand side, and rule validation.
 */
module Patterns {
  import opened Wrappers
  import opened Values
  import opened Terms
  import opened WilGraph
  import opened Unfolding

  datatype Pattern =
    | Wildcard
    | Var(name: string)
    | Sequence(name: string)
    | IntConst(n: int)
    | BoolConst(flag: bool)
    | Refinement(base: Pattern)
    | NodePat(kind: Kind, subs: seq<Pattern>)

  /** A variable may be bound to the null input it met. */
  datatype Binding = Binding(name: string, node: Option<nat>)

  type Subst = seq<Binding>

  /** How repeated variables compare nodes: a parameter of matching. */
  type Equivalence = (Nodes, nat, nat) -> bool

  function NodeIdentity(): Equivalence {
    (g: Nodes, a: nat, b: nat) => a == b
  }

  /** Null is equivalent to itself only. */
  predicate SameSlot(g: Nodes, same: Equivalence, a: Option<nat>, b: Option<nat>) {
    a == b || (a.Some? && b.Some? && same(g, a.value, b.value))
  }

  // ----- Matching -----

  function Lookup(s: Subst, name: string): (r: Option<Option<nat>>)
    ensures r.Some? <==> Bound(s, name)
    ensures r.Some? ==> Binding(name, r.value) in s
  {
    if s == [] then None
    else if s[0].name == name then Some(s[0].node)
    else Lookup(s[1..], name)
  }

  predicate Bound(s: Subst, name: string) {
    exists i :: 0 <= i < |s| && s[i].name == name
  }

  /** The node a name is bound to; none if it is unbound or bound to null. */
  function NodeOf(s: Subst, name: string): Option<nat> {
    var r := Lookup(s, name);
    if r.None? then None else r.value
  }

  function Bind(g: Nodes, same: Equivalence, s: Subst, name: string, slot: Option<nat>): Option<Subst> {
    var before := Lookup(s, name);
    if before.None? then Some(s + [Binding(name, slot)])
    else if SameSlot(g, same, before.value, slot) then Some(s)
    else None
  }

  /** Null is no constant. */
  predicate MatchesConst(g: Nodes, p: Pattern, slot: Option<nat>)
    requires SlotIn(g, slot) && (p.IntConst? || p.BoolConst?)
  {
    slot.Some?
    && var node := g[slot.value];
       if p.IntConst? then node.kind == ConstInt && PayloadInt(node.payload) == p.n
       else node.kind == ConstBool && PayloadBool(node.payload) == p.flag
  }

  predicate SlotIn(g: Nodes, slot: Option<nat>) {
    slot.Some? ==> slot.value < |g|
  }

  ghost predicate InputsIn(g: Nodes, inputs: seq<Option<nat>>) {
    forall k :: 0 <= k < |inputs| ==> SlotIn(g, inputs[k])
  }

  /** No slot is dangling; slots may be null. */
  ghost predicate SlotsIn(g: Nodes) {
    forall n :: 0 <= n < |g| ==> InputsIn(g, g[n].inputs)
  }

  ghost predicate InputsSet(g: Nodes, inputs: seq<Option<nat>>) {
    InputsIn(g, inputs) && forall k :: 0 <= k < |inputs| ==> inputs[k].Some?
  }

  /** No slot is null or dangling, as the graph verifier demands. */
  ghost predicate SlotsSet(g: Nodes) {
    SlotsIn(g) && forall n :: 0 <= n < |g| ==> InputsSet(g, g[n].inputs)
  }

  /** A node of the kind with as many inputs; null is none. */
  predicate HasShape(g: Nodes, kind: Kind, arity: nat, slot: Option<nat>)
    requires SlotIn(g, slot)
  {
    slot.Some? && g[slot.value].kind == kind && |g[slot.value].inputs| == arity
  }

  /** Matches `p` at a slot, extending the bindings `s`. */
  function Match(g: Nodes, same: Equivalence, s: Subst, p: Pattern, slot: Option<nat>): Option<Subst>
    requires SlotIn(g, slot) && SlotsIn(g)
    decreases p, 1
  {
    match p
    case Wildcard => Some(s)
    case Var(x) => Bind(g, same, s, x, slot)
    case Sequence(x) => Bind(g, same, s, x, slot)
    case IntConst(_) => if MatchesConst(g, p, slot) then Some(s) else None
    case BoolConst(_) => if MatchesConst(g, p, slot) then Some(s) else None
    case Refinement(base) => Match(g, same, s, base, slot)
    case NodePat(kind, subs) =>
      if !HasShape(g, kind, |subs|, slot) then None
      else MatchAll(g, same, s, subs, g[slot.value].inputs)
  }

  function MatchAll(g: Nodes, same: Equivalence, s: Subst, ps: seq<Pattern>, inputs: seq<Option<nat>>): Option<Subst>
    requires |ps| == |inputs| && SlotsIn(g)
    requires InputsIn(g, inputs)
    decreases ps, 0
  {
    if ps == [] then Some(s)
    else
      assert SlotIn(g, inputs[0]) && InputsIn(g, inputs[1..]);
      var first := Match(g, same, s, ps[0], inputs[0]);
      if first.None? then None
      else MatchAll(g, same, first.value, ps[1..], inputs[1..])
  }

  // ----- Variables -----

  function Vars(p: Pattern): set<string> {
    match p
    case Var(x) => {x}
    case Sequence(x) => {x}
    case Refinement(base) => Vars(base)
    case NodePat(_, subs) => VarsAll(subs)
    case _ => {}
  }

  function VarsAll(ps: seq<Pattern>): set<string> {
    if ps == [] then {} else Vars(ps[0]) + VarsAll(ps[1..])
  }

  ghost predicate NamesDistinct(s: Subst) {
    forall i, j :: 0 <= i < j < |s| ==> s[i].name != s[j].name
  }

  ghost predicate NodesIn(g: Nodes, s: Subst) {
    forall i :: 0 <= i < |s| ==> SlotIn(g, s[i].node)
  }

  /** Every binding is to a node among the first `n`. */
  ghost predicate Solid(s: Subst, n: nat) {
    forall i :: 0 <= i < |s| ==> s[i].node.Some? && s[i].node.value < n
  }

  lemma {:induction false} LookupAppend(s: Subst, b: Binding, name: string)
    ensures Lookup(s + [b], name) == if Bound(s, name) then Lookup(s, name) else if b.name == name then Some(b.node) else None
  {
    if s == [] {
    } else {
      assert (s + [b])[1..] == s[1..] + [b];
      LookupAppend(s[1..], b, name);
      assert Bound(s, name) <==> s[0].name == name || Bound(s[1..], name) by {
        if Bound(s, name) && s[0].name != name {
          var i :| 0 <= i < |s| && s[i].name == name;
          assert s[1..][i - 1].name == name;
        }
        if Bound(s[1..], name) {
          var i :| 0 <= i < |s[1..]| && s[1..][i].name == name;
          assert s[i + 1].name == name;
        }
      }
    }
  }

  /** `t` binds what `s` binds, to the same nodes. */
  ghost predicate Extends(s: Subst, t: Subst) {
    |s| <= |t| && t[..|s|] == s
  }

  lemma {:induction false} LookupExtended(s: Subst, t: Subst, name: string)
    requires Extends(s, t) && Bound(s, name)
    ensures Lookup(t, name) == Lookup(s, name)
    decreases |t| - |s|
  {
    if |s| == |t| {
      assert s == t;
    } else {
      var b := t[|s|];
      LookupAppend(s, b, name);
      assert Bound(s + [b], name) by {
        var i :| 0 <= i < |s| && s[i].name == name;
        assert (s + [b])[i].name == name;
      }
      assert t[..|s| + 1] == s + [b];
      LookupExtended(s + [b], t, name);
    }
  }

  /** What a successful match leaves behind: a longer substitution with
      distinct names, binding exactly the old and the pattern's variables. */
  ghost predicate Grown(g: Nodes, s: Subst, t: Subst, vars: set<string>) {
    && Extends(s, t) && NamesDistinct(t) && NodesIn(g, t)
    && forall x :: Bound(t, x) <==> Bound(s, x) || x in vars
  }

  lemma {:induction false} BindGrows(g: Nodes, same: Equivalence, s: Subst, x: string, n: Option<nat>)
    requires SlotIn(g, n) && NamesDistinct(s) && NodesIn(g, s)
    ensures Bind(g, same, s, x, n).Some? ==> Grown(g, s, Bind(g, same, s, x, n).value, {x})
  {
    var r := Bind(g, same, s, x, n);
    if r.Some? && !Bound(s, x) {
      var t := r.value;
      assert t[|s|].name == x;
      forall y
        ensures Bound(t, y) <==> Bound(s, y) || y == x
      {
        if Bound(s, y) {
          var i :| 0 <= i < |s| && s[i].name == y;
          assert t[i].name == y;
        }
      }
    }
  }

  lemma {:induction false} MatchGrows(g: Nodes, same: Equivalence, s: Subst, p: Pattern, n: Option<nat>)
    requires SlotIn(g, n) && SlotsIn(g) && NamesDistinct(s) && NodesIn(g, s)
    ensures Match(g, same, s, p, n).Some? ==> Grown(g, s, Match(g, same, s, p, n).value, Vars(p))
    decreases p, 1
  {
    match p
    case Var(x) => BindGrows(g, same, s, x, n);
    case Sequence(x) => BindGrows(g, same, s, x, n);
    case Refinement(base) => MatchGrows(g, same, s, base, n);
    case NodePat(kind, subs) =>
      if HasShape(g, kind, |subs|, n) {
        MatchAllGrows(g, same, s, subs, g[n.value].inputs);
      }
    case _ =>
  }

  lemma {:induction false} MatchAllGrows(g: Nodes, same: Equivalence, s: Subst, ps: seq<Pattern>, inputs: seq<Option<nat>>)
    requires |ps| == |inputs| && SlotsIn(g) && NamesDistinct(s) && NodesIn(g, s)
    requires InputsIn(g, inputs)
    ensures MatchAll(g, same, s, ps, inputs).Some? ==> Grown(g, s, MatchAll(g, same, s, ps, inputs).value, VarsAll(ps))
    decreases ps, 0
  {
    if ps != [] {
      MatchGrows(g, same, s, ps[0], inputs[0]);
      var first := Match(g, same, s, ps[0], inputs[0]);
      if first.Some? {
        MatchAllGrows(g, same, first.value, ps[1..], inputs[1..]);
        var rest := MatchAll(g, same, first.value, ps[1..], inputs[1..]);
        if rest.Some? {
          assert rest.value[..|s|] == rest.value[..|first.value|][..|s|];
        }
      }
    }
  }

  /** Where no slot is null, variables are bound to nodes. */
  lemma {:induction false} MatchSolid(g: Nodes, same: Equivalence, s: Subst, p: Pattern, n: nat)
    requires n < |g| && SlotsSet(g) && Solid(s, |g|)
    ensures Match(g, same, s, p, Some(n)).Some? ==> Solid(Match(g, same, s, p, Some(n)).value, |g|)
    decreases p, 1
  {
    match p
    case Refinement(base) => MatchSolid(g, same, s, base, n);
    case NodePat(kind, subs) =>
      if HasShape(g, kind, |subs|, Some(n)) {
        MatchAllSolid(g, same, s, subs, g[n].inputs);
      }
    case _ =>
  }

  lemma {:induction false} MatchAllSolid(g: Nodes, same: Equivalence, s: Subst, ps: seq<Pattern>, inputs: seq<Option<nat>>)
    requires |ps| == |inputs| && SlotsSet(g) && Solid(s, |g|) && InputsSet(g, inputs)
    ensures MatchAll(g, same, s, ps, inputs).Some? ==> Solid(MatchAll(g, same, s, ps, inputs).value, |g|)
    decreases ps, 0
  {
    if ps != [] {
      assert SlotIn(g, inputs[0]);
      MatchSolid(g, same, s, ps[0], inputs[0].value);
      var first := Match(g, same, s, ps[0], inputs[0]);
      if first.Some? {
        MatchAllSolid(g, same, first.value, ps[1..], inputs[1..]);
      }
    }
  }

  // ----- Soundness and completeness under node identity -----

  /** Under `theta`, pattern `p` is exactly what unfolds from `n`. */
  ghost predicate Fits(g: Nodes, p: Pattern, n: Option<nat>, theta: map<string, Option<nat>>)
    requires SlotIn(g, n) && SlotsIn(g)
    decreases p
  {
    match p
    case Wildcard => true
    case Var(x) => x in theta && theta[x] == n
    case Sequence(x) => x in theta && theta[x] == n
    case IntConst(_) => MatchesConst(g, p, n)
    case BoolConst(_) => MatchesConst(g, p, n)
    case Refinement(base) => Fits(g, base, n, theta)
    case NodePat(kind, subs) =>
      && HasShape(g, kind, |subs|, n)
      && forall k :: 0 <= k < |subs| ==> Fits(g, subs[k], g[n.value].inputs[k], theta)
  }

  /** Every binding of `s` is one of `theta`'s. */
  ghost predicate Agrees(s: Subst, theta: map<string, Option<nat>>) {
    forall i :: 0 <= i < |s| ==> s[i].name in theta && theta[s[i].name] == s[i].node
  }

  /** Matching succeeds on `s` exactly when some `theta` consistent with `s`
      fits, and then it adds exactly `theta`'s bindings. */
  lemma {:induction false} MatchExact(g: Nodes, s: Subst, p: Pattern, n: Option<nat>, theta: map<string, Option<nat>>)
    requires SlotIn(g, n) && SlotsIn(g)
    ensures var r := Match(g, NodeIdentity(), s, p, n);
            (Agrees(s, theta) && Fits(g, p, n, theta)) <==> (r.Some? && Agrees(s, theta) && Agrees(r.value, theta))
    decreases p, 1
  {
    var r := Match(g, NodeIdentity(), s, p, n);
    match p
    case Var(x) => BindExact(g, s, x, n, theta);
    case Sequence(x) => BindExact(g, s, x, n, theta);
    case Refinement(base) => MatchExact(g, s, base, n, theta);
    case NodePat(kind, subs) =>
      if HasShape(g, kind, |subs|, n) {
        MatchAllExact(g, s, subs, g[n.value].inputs, theta);
      }
    case _ =>
  }

  lemma {:induction false} BindExact(g: Nodes, s: Subst, x: string, n: Option<nat>, theta: map<string, Option<nat>>)
    ensures var r := Bind(g, NodeIdentity(), s, x, n);
            (Agrees(s, theta) && x in theta && theta[x] == n) <==> (r.Some? && Agrees(s, theta) && Agrees(r.value, theta))
  {
    var before := Lookup(s, x);
    if before.None? {
      var t := s + [Binding(x, n)];
      if Agrees(t, theta) {
        assert t[|s|] == Binding(x, n);
      }
    } else {
      assert Binding(x, before.value) in s;
    }
  }

  lemma {:induction false} MatchAllExact(g: Nodes, s: Subst, ps: seq<Pattern>, inputs: seq<Option<nat>>, theta: map<string, Option<nat>>)
    requires |ps| == |inputs| && SlotsIn(g)
    requires InputsIn(g, inputs)
    ensures var r := MatchAll(g, NodeIdentity(), s, ps, inputs);
            (&& Agrees(s, theta)
             && forall k :: 0 <= k < |ps| ==> Fits(g, ps[k], inputs[k], theta))
            <==> (r.Some? && Agrees(s, theta) && Agrees(r.value, theta))
    decreases ps, 0
  {
    if ps != [] {
      MatchExact(g, s, ps[0], inputs[0], theta);
      var first := Match(g, NodeIdentity(), s, ps[0], inputs[0]);
      if first.Some? {
        MatchAllExact(g, first.value, ps[1..], inputs[1..], theta);
        MatchAllMonotone(g, NodeIdentity(), first.value, ps[1..], inputs[1..]);
        assert (forall k :: 0 <= k < |ps| ==> Fits(g, ps[k], inputs[k], theta))
            <==> Fits(g, ps[0], inputs[0], theta)
                 && (forall k :: 0 <= k < |ps[1..]| ==> Fits(g, ps[1..][k], inputs[1..][k], theta)) by {
          assert forall k :: 0 < k < |ps| ==> ps[k] == ps[1..][k - 1] && inputs[k] == inputs[1..][k - 1];
        }
      }
    }
  }

  lemma {:induction false} MatchMonotone(g: Nodes, same: Equivalence, s: Subst, p: Pattern, n: Option<nat>)
    requires SlotIn(g, n) && SlotsIn(g)
    ensures Match(g, same, s, p, n).Some? ==> Extends(s, Match(g, same, s, p, n).value)
    decreases p, 1
  {
    match p
    case Refinement(base) => MatchMonotone(g, same, s, base, n);
    case NodePat(kind, subs) =>
      if HasShape(g, kind, |subs|, n) {
        MatchAllMonotone(g, same, s, subs, g[n.value].inputs);
      }
    case _ =>
  }

  lemma {:induction false} MatchAllMonotone(g: Nodes, same: Equivalence, s: Subst, ps: seq<Pattern>, inputs: seq<Option<nat>>)
    requires |ps| == |inputs| && SlotsIn(g)
    requires InputsIn(g, inputs)
    ensures MatchAll(g, same, s, ps, inputs).Some? ==> Extends(s, MatchAll(g, same, s, ps, inputs).value)
    decreases ps, 0
  {
    if ps != [] {
      MatchMonotone(g, same, s, ps[0], inputs[0]);
      var first := Match(g, same, s, ps[0], inputs[0]);
      if first.Some? {
        MatchAllMonotone(g, same, first.value, ps[1..], inputs[1..]);
        var rest := MatchAll(g, same, first.value, ps[1..], inputs[1..]);
        if rest.Some? {
          assert rest.value[..|s|] == rest.value[..|first.value|][..|s|];
        }
      }
    }
  }

  ghost function AsMap(s: Subst): map<string, Option<nat>> {
    map x | x in (set i | 0 <= i < |s| :: s[i].name) :: Lookup(s, x).value
  }

  lemma {:induction false} AsMapAgrees(s: Subst)
    requires NamesDistinct(s)
    ensures Agrees(s, AsMap(s)) && forall x :: x in AsMap(s) <==> Bound(s, x)
  {
    forall i | 0 <= i < |s|
      ensures s[i].name in AsMap(s) && AsMap(s)[s[i].name] == s[i].node
    {
      LookupDistinct(s, i);
    }
  }

  /** What a match binds fits. */
  lemma {:induction false} MatchedFits(g: Nodes, p: Pattern, n: Option<nat>)
    requires SlotIn(g, n) && SlotsIn(g) && Match(g, NodeIdentity(), [], p, n).Some?
    ensures Fits(g, p, n, AsMap(Match(g, NodeIdentity(), [], p, n).value))
  {
    var s := Match(g, NodeIdentity(), [], p, n).value;
    MatchGrows(g, NodeIdentity(), [], p, n);
    AsMapAgrees(s);
    MatchExact(g, [], p, n, AsMap(s));
  }

  lemma {:induction false} MatchedKeys(g: Nodes, p: Pattern, n: Option<nat>)
    requires SlotIn(g, n) && SlotsIn(g) && Match(g, NodeIdentity(), [], p, n).Some?
    ensures AsMap(Match(g, NodeIdentity(), [], p, n).value).Keys == Vars(p)
  {
    MatchGrows(g, NodeIdentity(), [], p, n);
    KeysAre(g, Match(g, NodeIdentity(), [], p, n).value, Vars(p));
  }

  lemma {:induction false} KeysAre(g: Nodes, s: Subst, vars: set<string>)
    requires Grown(g, [], s, vars)
    ensures AsMap(s).Keys == vars
  {
    AsMapAgrees(s);
    forall x
      ensures x in AsMap(s).Keys <==> x in vars
    {
      assert Bound(s, x) <==> Bound([], x) || x in vars;
    }
  }

  /** What fits is what a match binds. */
  lemma {:induction false} FitsMatch(g: Nodes, p: Pattern, n: Option<nat>, theta: map<string, Option<nat>>, x: string)
    requires SlotIn(g, n) && SlotsIn(g) && Fits(g, p, n, theta)
    ensures var r := Match(g, NodeIdentity(), [], p, n);
            r.Some? && (x in Vars(p) ==> x in AsMap(r.value) && x in theta && AsMap(r.value)[x] == theta[x])
  {
    MatchExact(g, [], p, n, theta);
    MatchGrows(g, NodeIdentity(), [], p, n);
    var s := Match(g, NodeIdentity(), [], p, n).value;
    AsMapAgrees(s);
    if x in Vars(p) {
      assert Bound(s, x);
      var i :| 0 <= i < |s| && s[i].name == x;
    }
  }

  /** Matching from the empty substitution succeeds exactly when some
      substitution fits; its result fits and is the only one on the pattern's
      variables. */
  lemma {:induction false} MatchSoundComplete(g: Nodes, p: Pattern, n: Option<nat>)
    requires SlotIn(g, n) && SlotsIn(g)
    ensures var r := Match(g, NodeIdentity(), [], p, n);
            && (r.Some? <==> exists theta :: Fits(g, p, n, theta))
            && (r.Some? ==> Fits(g, p, n, AsMap(r.value)) && AsMap(r.value).Keys == Vars(p))
            && forall theta :: Fits(g, p, n, theta) ==>
                 r.Some? && forall x :: x in Vars(p) ==> x in theta && AsMap(r.value)[x] == theta[x]
  {
    var r := Match(g, NodeIdentity(), [], p, n);
    if r.Some? {
      MatchedFits(g, p, n);
      MatchedKeys(g, p, n);
      assert Fits(g, p, n, AsMap(r.value));
    }
    if theta :| Fits(g, p, n, theta) {
      FitsMatch(g, p, n, theta, "");
    }
    forall theta | Fits(g, p, n, theta)
      ensures r.Some? && forall x :: x in Vars(p) ==> x in theta && AsMap(r.value)[x] == theta[x]
    {
      FitsMatch(g, p, n, theta, "");
      forall x | x in Vars(p)
        ensures x in theta && AsMap(r.value)[x] == theta[x]
      {
        FitsMatch(g, p, n, theta, x);
      }
    }
  }

  lemma {:induction false} LookupDistinct(s: Subst, i: nat)
    requires i < |s| && NamesDistinct(s)
    ensures Lookup(s, s[i].name) == Some(s[i].node)
  {
    if i > 0 {
      LookupDistinct(s[1..], i - 1);
    }
  }
}
