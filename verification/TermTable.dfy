/**
 The term table behind the matcher's equivalence: each node is entered once,
 under its kind and the entries of its inputs, and an entry that is already
 there is used again.
 */
module TermTable {
  import opened Wrappers
  import opened Listing
  import opened Terms
  import opened WilGraph
  import opened Unfolding
  import opened Patterns
  import opened KindKey

  datatype Entry = Entry(kind: Kind, subs: seq<nat>)

  ghost predicate EntryOk(table: seq<Entry>, i: nat)
    requires i < |table|
  {
    forall k :: 0 <= k < |table[i].subs| ==> table[i].subs[k] < i
  }

  /** Entries refer to earlier ones, and no two are the same. */
  ghost predicate TableOk(table: seq<Entry>) {
    Distinct(table) && forall i: nat :: i < |table| ==> EntryOk(table, i)
  }

  /** The tree an entry stands for. */
  ghost function TreeAt(table: seq<Entry>, i: nat): (tree: KindTree)
    requires TableOk(table) && i < |table|
    ensures tree.kind == table[i].kind && |tree.subs| == |table[i].subs|
    decreases i
  {
    assert EntryOk(table, i);
    KindTree(table[i].kind, seq(|table[i].subs|, k requires 0 <= k < |table[i].subs| => TreeAt(table, table[i].subs[k])))
  }

  lemma {:induction false} SubTree(table: seq<Entry>, i: nat, k: nat)
    requires TableOk(table) && i < |table| && k < |table[i].subs|
    ensures table[i].subs[k] < i && TreeAt(table, i).subs[k] == TreeAt(table, table[i].subs[k])
  {
    assert EntryOk(table, i);
  }

  /** Different entries stand for different trees. */
  lemma {:induction false} TreesDiffer(table: seq<Entry>, i: nat, j: nat)
    requires TableOk(table) && i < |table| && j < |table| && TreeAt(table, i) == TreeAt(table, j)
    ensures i == j
    decreases i
  {
    forall k: nat | k < |table[i].subs|
      ensures table[i].subs[k] == table[j].subs[k]
    {
      SubTree(table, i, k);
      SubTree(table, j, k);
      TreesDiffer(table, table[i].subs[k], table[j].subs[k]);
    }
    assert table[i] == table[j];
  }

  ghost predicate Longer(table: seq<Entry>, table': seq<Entry>) {
    |table| <= |table'| && forall i :: 0 <= i < |table| ==> table'[i] == table[i]
  }

  /** Later entries do not change what an entry stands for. */
  lemma {:induction false} TreeKept(table: seq<Entry>, table': seq<Entry>, i: nat)
    requires TableOk(table) && TableOk(table') && Longer(table, table') && i < |table|
    ensures TreeAt(table', i) == TreeAt(table, i)
    decreases i
  {
    forall k: nat | k < |table[i].subs|
      ensures TreeAt(table', i).subs[k] == TreeAt(table, i).subs[k]
    {
      SubTree(table, i, k);
      SubTree(table', i, k);
      TreeKept(table, table', table[i].subs[k]);
    }
    assert TreeAt(table', i).subs == TreeAt(table, i).subs;
  }

  // ----- Entering nodes -----

  /** Entry `id` stands for node `n`. */
  ghost predicate StandsFor(g: Nodes, T: seq<Term>, table: seq<Entry>, n: nat, id: nat)
    requires Labelled(g, T) && TableOk(table)
  {
    n < |g| && id < |table| && Narrow(T[n]) && TreeAt(table, id) == TreeOf(T[n])
  }

  ghost predicate MemoOk(g: Nodes, T: seq<Term>, table: seq<Entry>, memo: map<nat, nat>)
    requires Labelled(g, T) && TableOk(table)
  {
    forall n :: n in memo ==> StandsFor(g, T, table, n, memo[n])
  }

  lemma {:induction false} MemoKept(g: Nodes, T: seq<Term>, table: seq<Entry>, memo: map<nat, nat>, table': seq<Entry>)
    requires Labelled(g, T) && TableOk(table) && TableOk(table') && Longer(table, table') && MemoOk(g, T, table, memo)
    ensures MemoOk(g, T, table', memo)
  {
    forall n | n in memo
      ensures StandsFor(g, T, table', n, memo[n])
    {
      assert StandsFor(g, T, table, n, memo[n]);
      TreeKept(table, table', memo[n]);
    }
  }

  /** Looks an entry up, and appends it if it is not there. */
  method FindOrAdd(table: seq<Entry>, e: Entry) returns (id: nat, table': seq<Entry>)
    requires TableOk(table) && forall k :: 0 <= k < |e.subs| ==> e.subs[k] < |table|
    ensures TableOk(table') && Longer(table, table') && id < |table'| && table'[id] == e
  {
    id := 0;
    while id < |table|
      invariant 0 <= id <= |table| && forall j :: 0 <= j < id ==> table[j] != e
    {
      if table[id] == e {
        return id, table;
      }
      id := id + 1;
    }
    table' := table + [e];
    forall i: nat | i < |table'|
      ensures EntryOk(table', i)
    {
      if i < |table| {
        assert EntryOk(table, i);
      }
    }
  }

  /** The entries stand for the first few inputs. */
  ghost predicate InputsStand(g: Nodes, T: seq<Term>, table: seq<Entry>, n: nat, ids: seq<nat>)
    requires Labelled(g, T) && TableOk(table) && n < |g| && |ids| <= |g[n].inputs|
  {
    forall k :: 0 <= k < |ids| ==> g[n].inputs[k].Some? && StandsFor(g, T, table, g[n].inputs[k].value, ids[k])
  }

  lemma {:induction false} InputsKept(g: Nodes, T: seq<Term>, table: seq<Entry>, n: nat, ids: seq<nat>, table': seq<Entry>)
    requires Labelled(g, T) && TableOk(table) && TableOk(table') && Longer(table, table')
    requires n < |g| && |ids| <= |g[n].inputs| && InputsStand(g, T, table, n, ids)
    ensures InputsStand(g, T, table', n, ids)
  {
    forall k | 0 <= k < |ids|
      ensures StandsFor(g, T, table', g[n].inputs[k].value, ids[k])
    {
      assert StandsFor(g, T, table, g[n].inputs[k].value, ids[k]);
      TreeKept(table, table', ids[k]);
    }
  }

  lemma {:induction false} NodeStands(g: Nodes, T: seq<Term>, table: seq<Entry>, n: nat, id: nat)
    requires Labelled(g, T) && TableOk(table) && n < |g| && id < |table| && table[id].kind == g[n].kind
    requires |table[id].subs| == |g[n].inputs| <= 4 && InputsStand(g, T, table, n, table[id].subs)
    ensures StandsFor(g, T, table, n, id)
  {
    assert LabelAt(g, T, n);
    forall k: nat | k < |g[n].inputs|
      ensures Narrow(T[n].args[k]) && TreeAt(table, id).subs[k] == TreeOf(T[n].args[k])
    {
      SubTree(table, id, k);
      assert StandsFor(g, T, table, g[n].inputs[k].value, table[id].subs[k]);
    }
    assert TreeAt(table, id).subs == TreeOf(T[n]).subs;
  }

  /** Enters a node and everything below it. It fails exactly when a node with
      more than four inputs is met. */
  method AddNode(g: Nodes, ghost T: seq<Term>, n: nat, table: seq<Entry>, memo: map<nat, nat>)
    returns (ok: bool, id: nat, table': seq<Entry>, memo': map<nat, nat>)
    requires Labelled(g, T) && n < |g| && TableOk(table) && MemoOk(g, T, table, memo)
    ensures TableOk(table') && Longer(table, table') && MemoOk(g, T, table', memo')
    ensures ok <==> Narrow(T[n])
    ensures ok ==> StandsFor(g, T, table', n, id)
    decreases T[n], 1
  {
    assert LabelAt(g, T, n);
    table', memo', id := table, memo, 0;
    if n in memo {
      assert StandsFor(g, T, table, n, memo[n]);
      return true, memo[n], table, memo;
    }
    if |g[n].inputs| > 4 {
      return false, id, table', memo';
    }
    var ids;
    ok, ids, table', memo' := AddInputs(g, T, n, table, memo);
    if !ok {
      return;
    }
    ghost var before := table';
    id, table' := FindOrAdd(table', Entry(g[n].kind, ids));
    MemoKept(g, T, before, memo', table');
    InputsKept(g, T, before, n, ids, table');
    NodeStands(g, T, table', n, id);
    memo' := memo'[n := id];
  }

  /** Enters the inputs of a node in order. */
  method AddInputs(g: Nodes, ghost T: seq<Term>, n: nat, table: seq<Entry>, memo: map<nat, nat>)
    returns (ok: bool, ids: seq<nat>, table': seq<Entry>, memo': map<nat, nat>)
    requires Labelled(g, T) && n < |g| && TableOk(table) && MemoOk(g, T, table, memo) && |g[n].inputs| <= 4
    ensures TableOk(table') && Longer(table, table') && MemoOk(g, T, table', memo')
    ensures ok <==> Narrow(T[n])
    ensures ok ==> |ids| == |g[n].inputs| && InputsStand(g, T, table', n, ids)
    decreases T[n], 0
  {
    assert LabelAt(g, T, n);
    ids, table', memo' := [], table, memo;
    while |ids| < |g[n].inputs|
      invariant |ids| <= |g[n].inputs| && TableOk(table') && Longer(table, table') && MemoOk(g, T, table', memo')
      invariant InputsStand(g, T, table', n, ids)
    {
      var k := |ids|;
      var id;
      ghost var before := table';
      ok, id, table', memo' := AddNode(g, T, g[n].inputs[k].value, table', memo');
      if !ok {
        assert !Narrow(T[n].args[k]);
        return;
      }
      InputsKept(g, T, before, n, ids, table');
      ids := ids + [id];
    }
    forall k: nat | k < |T[n].args|
      ensures Narrow(T[n].args[k])
    {
      assert StandsFor(g, T, table', g[n].inputs[k].value, ids[k]);
    }
    ok := true;
  }

  /** Two nodes are equivalent if they are the same or get the same entry, which
      is what `ByKey` says. */
  method NodesEquivalent(g: Nodes, ghost T: seq<Term>, a: nat, b: nat) returns (equal: bool)
    requires Labelled(g, T) && a < |g| && b < |g|
    ensures equal <==> ByKey()(g, a, b)
  {
    ByKeyOn(g, T, a, b);
    if a == b {
      return true;
    }
    var ok, ia, table, memo := AddNode(g, T, a, [], map[]);
    if !ok {
      return false;
    }
    ghost var before := table;
    var ib;
    ok, ib, table, memo := AddNode(g, T, b, table, memo);
    if !ok {
      return false;
    }
    TreeKept(before, table, ia);
    if ia != ib && TreeAt(table, ia) == TreeAt(table, ib) {
      TreesDiffer(table, ia, ib);
    }
    equal := ia == ib;
  }
}
