/**
 The string pool: a chained hash table that doubles when it is full. Entries
 are numbered in order of creation, and a number stands for the entry's
 address; `nexts` and `buckets` hold the links.
 */
module StringPool {
  import opened Wrappers
  import opened Listing
  import opened Bytecode

  type Text = seq<Byte>

  const DEFAULT_BUCKETS: nat := 128

  // ----- The hash -----

  function XorByte(a: nat, b: nat, width: nat): nat
    decreases width
  {
    if width == 0 then 0 else (if a % 2 != b % 2 then 1 else 0) + 2 * XorByte(a / 2, b / 2, width - 1)
  }

  /** One step of FNV-1a on 64-bit words. */
  function Mix(h: nat, b: Byte): nat {
    (h - h % 256 + XorByte(h % 256, b, 8)) * 1099511628211 % 0x1_0000_0000_0000_0000
  }

  /** The hash of the first `n` bytes. */
  function HashTo(text: Text, n: nat): nat
    requires n <= |text|
  {
    if n == 0 then 1469598103934665603 else Mix(HashTo(text, n - 1), text[n - 1])
  }

  method HashBytes(text: Text) returns (hash: nat)
    ensures hash == HashTo(text, |text|)
  {
    hash := 1469598103934665603;
    var i := 0;
    while i < |text|
      invariant 0 <= i <= |text| && hash == HashTo(text, i)
    {
      hash := Mix(hash, text[i]);
      i := i + 1;
    }
  }

  /** Which bucket a text belongs to. */
  function Slot(text: Text, buckets: nat): (s: nat)
    requires buckets > 0
    ensures s < buckets
  {
    HashTo(text, |text|) % buckets
  }

  // ----- Chains -----

  ghost function Link(c: seq<nat>, i: nat): Option<nat> {
    if i < |c| then Some(c[i]) else None
  }

  ghost predicate LinkedAt(nexts: seq<Option<nat>>, c: seq<nat>, i: nat) {
    i < |c| && c[i] < |nexts| && nexts[c[i]] == Link(c, i + 1)
  }

  /** Following the links from `head` spells out `c`. */
  ghost predicate IsChain(head: Option<nat>, nexts: seq<Option<nat>>, c: seq<nat>) {
    head == Link(c, 0) && forall i: nat :: i < |c| ==> LinkedAt(nexts, c, i)
  }

  lemma {:induction false} ChainTail(nexts: seq<Option<nat>>, c: seq<nat>)
    requires |c| > 0 && IsChain(Some(c[0]), nexts, c)
    ensures c[0] < |nexts| && IsChain(nexts[c[0]], nexts, c[1..])
  {
    assert LinkedAt(nexts, c, 0);
    var t := c[1..];
    forall i: nat | i < |t|
      ensures LinkedAt(nexts, t, i)
    {
      assert LinkedAt(nexts, c, i + 1);
    }
  }

  lemma {:induction false} ChainElsewhere(head: Option<nat>, nexts: seq<Option<nat>>, c: seq<nat>, e: nat, x: Option<nat>)
    requires IsChain(head, nexts, c) && e < |nexts| && e !in c
    ensures IsChain(head, nexts[e := x], c)
  {
    var nexts' := nexts[e := x];
    forall i: nat | i < |c|
      ensures LinkedAt(nexts', c, i)
    {
      assert LinkedAt(nexts, c, i);
    }
  }

  lemma {:induction false} ChainCons(head: Option<nat>, nexts: seq<Option<nat>>, c: seq<nat>, e: nat)
    requires IsChain(head, nexts, c) && e < |nexts| && e !in c
    ensures IsChain(Some(e), nexts[e := head], [e] + c)
  {
    var d, nexts' := [e] + c, nexts[e := head];
    forall i: nat | i < |d|
      ensures LinkedAt(nexts', d, i)
    {
      if i > 0 {
        assert LinkedAt(nexts, c, i - 1);
      }
    }
  }

  // ----- Tables -----

  ghost predicate Belongs(texts: seq<Text>, n: nat, e: nat, s: nat) {
    n > 0 && e < |texts| && Slot(texts[e], n) == s
  }

  /** Chain `s` is linked, has no entry twice, and holds only texts that hash to `s`. */
  ghost predicate ChainOk(texts: seq<Text>, nexts: seq<Option<nat>>, buckets: seq<Option<nat>>, chains: seq<seq<nat>>, s: nat) {
    && s < |buckets| == |chains|
    && IsChain(buckets[s], nexts, chains[s]) && Entries(texts, |buckets|, chains[s], s)
  }

  /** Different entries, all of which belong in bucket `s` of `n`. */
  ghost predicate Entries(texts: seq<Text>, n: nat, c: seq<nat>, s: nat) {
    Distinct(c) && forall i: nat :: i < |c| ==> Belongs(texts, n, c[i], s)
  }

  ghost predicate Table(texts: seq<Text>, nexts: seq<Option<nat>>, buckets: seq<Option<nat>>, chains: seq<seq<nat>>) {
    |buckets| == |chains| && |nexts| == |texts| && forall s: nat :: s < |buckets| ==> ChainOk(texts, nexts, buckets, chains, s)
  }

  ghost predicate Present(texts: seq<Text>, chains: seq<seq<nat>>, e: nat) {
    |chains| > 0 && e < |texts| && e in chains[Slot(texts[e], |chains|)]
  }

  /** An entry can only be in the chain its text belongs to. */
  lemma {:induction false} OnlyThere(texts: seq<Text>, nexts: seq<Option<nat>>, buckets: seq<Option<nat>>, chains: seq<seq<nat>>, s: nat, e: nat)
    requires ChainOk(texts, nexts, buckets, chains, s) && e in chains[s]
    ensures Belongs(texts, |buckets|, e, s)
  {
    var i :| 0 <= i < |chains[s]| && chains[s][i] == e;
    assert Belongs(texts, |buckets|, chains[s][i], s);
  }

  /** Prepending an entry to its bucket keeps the table. */
  lemma {:induction false} Prepend(texts: seq<Text>, nexts: seq<Option<nat>>, buckets: seq<Option<nat>>, chains: seq<seq<nat>>, e: nat, t: nat)
    requires Table(texts, nexts, buckets, chains) && Belongs(texts, |buckets|, e, t) && e !in chains[t]
    ensures Table(texts, nexts[e := buckets[t]], buckets[t := Some(e)], chains[t := [e] + chains[t]])
  {
    var nexts', buckets', chains' := nexts[e := buckets[t]], buckets[t := Some(e)], chains[t := [e] + chains[t]];
    forall s: nat | s < |buckets|
      ensures ChainOk(texts, nexts', buckets', chains', s)
    {
      assert ChainOk(texts, nexts, buckets, chains, s);
      if s == t {
        ChainCons(buckets[t], nexts, chains[t], e);
        PrependOk(texts, |buckets|, chains[t], e, t);
      } else {
        if e in chains[s] {
          OnlyThere(texts, nexts, buckets, chains, s, e);
        }
        ChainElsewhere(buckets[s], nexts, chains[s], e, buckets[t]);
      }
    }
  }

  lemma {:induction false} PrependOk(texts: seq<Text>, n: nat, c: seq<nat>, e: nat, t: nat)
    requires Belongs(texts, n, e, t) && e !in c && Entries(texts, n, c, t)
    ensures Entries(texts, n, [e] + c, t)
  {
    var d := [e] + c;
    forall i: nat | i < |d|
      ensures Belongs(texts, n, d[i], t)
    {
      if i > 0 {
        assert d[i] == c[i - 1];
      }
    }
  }

  lemma {:induction false} PresentAfter(texts: seq<Text>, chains: seq<seq<nat>>, e: nat, t: nat, d: nat)
    requires Belongs(texts, |chains|, e, t) && d < |texts|
    ensures Present(texts, chains[t := [e] + chains[t]], d) <==> d == e || Present(texts, chains, d)
  {
  }

  lemma {:induction false} EmptyTable(texts: seq<Text>, nexts: seq<Option<nat>>, n: nat)
    requires |nexts| == |texts| && n > 0
    ensures Table(texts, nexts, seq(n, _ => None), seq(n, _ => []))
  {
  }

  // ----- The pool -----

  /** Moving the chains of a smaller table to a larger one: chains before `i`
      have been moved, and of chain `i` all but `rest`. */
  ghost predicate Moved(texts: seq<Text>, n: nat, chains: seq<seq<nat>>, i: nat, rest: seq<nat>) {
    n > 0 && forall e: nat :: e < |texts| ==>
      (Present(texts, chains, e) <==> Slot(texts[e], n) < i || (Slot(texts[e], n) == i && e !in rest))
  }

  /** Old chains from `from` on are still linked, and hold what belongs there. */
  ghost predicate StillLinked(texts: seq<Text>, buckets: seq<Option<nat>>, nexts: seq<Option<nat>>, chains: seq<seq<nat>>, from: nat) {
    |buckets| == |chains| && forall j: nat :: from <= j < |buckets| ==> ChainOk(texts, nexts, buckets, chains, j)
  }

  lemma {:induction false} OthersStay(texts: seq<Text>, nexts: seq<Option<nat>>, ob: seq<Option<nat>>, oc: seq<seq<nat>>, i: nat, e: nat, x: Option<nat>)
    requires StillLinked(texts, ob, nexts, oc, i + 1) && Belongs(texts, |ob|, e, i) && e < |nexts|
    ensures StillLinked(texts, ob, nexts[e := x], oc, i + 1)
  {
    var nexts' := nexts[e := x];
    forall j: nat | i + 1 <= j < |ob|
      ensures ChainOk(texts, nexts', ob, oc, j)
    {
      assert ChainOk(texts, nexts, ob, oc, j);
      if e in oc[j] {
        OnlyThere(texts, nexts, ob, oc, j, e);
      }
      ChainElsewhere(ob[j], nexts, oc[j], e, x);
    }
  }

  lemma {:induction false} RestStays(texts: seq<Text>, n: nat, nexts: seq<Option<nat>>, rest: seq<nat>, i: nat, x: Option<nat>)
    requires |rest| > 0 && Entries(texts, n, rest, i) && IsChain(Some(rest[0]), nexts, rest)
    ensures rest[0] < |nexts| && IsChain(nexts[rest[0]], nexts[rest[0] := x], rest[1..]) && Entries(texts, n, rest[1..], i)
  {
    ChainTail(nexts, rest);
    NotAgain(rest);
    ChainElsewhere(nexts[rest[0]], nexts, rest[1..], rest[0], x);
    var t := rest[1..];
    forall k: nat | k < |t|
      ensures Belongs(texts, n, t[k], i)
    {
      assert t[k] == rest[k + 1];
    }
  }

  lemma {:induction false} NotAgain(rest: seq<nat>)
    requires |rest| > 0 && Distinct(rest)
    ensures rest[0] !in rest[1..] && Distinct(rest[1..])
    ensures forall x :: x in rest <==> x == rest[0] || x in rest[1..]
  {
    assert rest == [rest[0]] + rest[1..];
  }

  lemma {:induction false} MovedOne(texts: seq<Text>, n: nat, nc: seq<seq<nat>>, i: nat, rest: seq<nat>, t: nat)
    requires |rest| > 0 && Distinct(rest) && Belongs(texts, n, rest[0], i) && Belongs(texts, |nc|, rest[0], t)
    requires Moved(texts, n, nc, i, rest)
    ensures Moved(texts, n, nc[t := [rest[0]] + nc[t]], i, rest[1..])
  {
    var e := rest[0];
    NotAgain(rest);
    var nc' := nc[t := [e] + nc[t]];
    forall d: nat | d < |texts|
      ensures Present(texts, nc', d) <==> Slot(texts[d], n) < i || (Slot(texts[d], n) == i && d !in rest[1..])
    {
      PresentAfter(texts, nc, e, t, d);
    }
  }

  class Pool {
    var texts: seq<Text>
    var nexts: seq<Option<nat>>
    var buckets: seq<Option<nat>>
    var size: nat
    ghost var chains: seq<seq<nat>>

    /** The table holds every entry, in its bucket, once; no text occurs twice. */
    ghost predicate Valid()
      reads this
    {
      && Table(texts, nexts, buckets, chains) && size == |texts|
      && (buckets == [] ==> texts == [])
      && (forall e: nat :: e < |texts| ==> Present(texts, chains, e))
      && forall e, d :: 0 <= e < d < |texts| ==> texts[e] != texts[d]
    }

    constructor ()
      ensures Valid() && texts == []
    {
      texts, nexts, buckets, size, chains := [], [], [], 0, [];
    }

    /** Prepends entry `e`, whose link is free, to its bucket. */
    method Insert(e: nat) returns (ghost t: nat)
      requires Table(texts, nexts, buckets, chains) && buckets != [] && e < |texts| && !Present(texts, chains, e)
      modifies this
      ensures texts == old(texts) && size == old(size) && |buckets| == |old(buckets)|
      ensures Table(texts, nexts, buckets, chains)
      ensures t < |old(chains)| && Belongs(texts, |buckets|, e, t) && nexts == old(nexts)[e := old(buckets)[t]]
      ensures chains == old(chains)[t := [e] + old(chains)[t]]
    {
      var hash := HashBytes(texts[e]);
      var slot := hash % |buckets|;
      t := slot;
      assert Belongs(texts, |buckets|, e, slot);
      Prepend(texts, nexts, buckets, chains, e, slot);
      nexts := nexts[e := buckets[slot]];
      chains := chains[slot := [e] + chains[slot]];
      buckets := buckets[slot := Some(e)];
    }

    /** Moves the old chain `i`, entry by entry. */
    method MoveChain(ob: seq<Option<nat>>, ghost oc: seq<seq<nat>>, i: nat)
      requires i < |ob| && buckets != [] && Table(texts, nexts, buckets, chains)
      requires StillLinked(texts, ob, nexts, oc, i) && Moved(texts, |ob|, chains, i, oc[i])
      modifies this
      ensures texts == old(texts) && size == old(size) && |buckets| == |old(buckets)|
      ensures Table(texts, nexts, buckets, chains) && StillLinked(texts, ob, nexts, oc, i + 1)
      ensures Moved(texts, |ob|, chains, i, [])
    {
      assert ChainOk(texts, nexts, ob, oc, i);
      var entry := ob[i];
      ghost var rest := oc[i];
      while entry != None
        invariant texts == old(texts) && size == old(size) && |buckets| == |old(buckets)|
        invariant IsChain(entry, nexts, rest) && Entries(texts, |ob|, rest, i)
        invariant Table(texts, nexts, buckets, chains) && StillLinked(texts, ob, nexts, oc, i + 1)
        invariant Moved(texts, |ob|, chains, i, rest)
        decreases |rest|
      {
        var e := entry.value;
        ghost var nexts0, chains0 := nexts, chains;
        assert Belongs(texts, |ob|, rest[0], i);
        assert !Present(texts, chains, e);
        ghost var buckets0 := buckets;
        entry := nexts[e];
        var t := Insert(e);
        RestStays(texts, |ob|, nexts0, rest, i, buckets0[t]);
        OthersStay(texts, nexts0, ob, oc, i, e, buckets0[t]);
        MovedOne(texts, |ob|, chains0, i, rest, t);
        rest := rest[1..];
      }
    }

    /** Rehashes every entry into `count` buckets. */
    method Grow(count: nat)
      requires Valid() && count > 0
      modifies this
      ensures Valid() && texts == old(texts) && |buckets| == count
    {
      ghost var oc := chains;
      var ob := buckets;
      buckets := seq(count, _ => None);
      chains := seq(count, _ => []);
      EmptyTable(texts, nexts, count);
      NothingMoved(texts, |ob|, count, oc);
      var i := 0;
      while i < |ob|
        invariant 0 <= i <= |ob| && texts == old(texts) && size == old(size) && |buckets| == count
        invariant Table(texts, nexts, buckets, chains) && StillLinked(texts, ob, nexts, oc, i)
        invariant |ob| > 0 ==> Moved(texts, |ob|, chains, i, if i < |ob| then oc[i] else [])
      {
        MoveChain(ob, oc, i);
        NextChain(texts, |ob|, chains, oc, i);
        i := i + 1;
      }
      AllMoved(texts, |ob|, chains);
    }

    /** Walks the bucket of `value` for an entry with that text. */
    method Find(value: Text, slot: nat) returns (found: Option<nat>)
      requires Valid() && slot < |buckets| && slot == Slot(value, |buckets|)
      ensures found.Some? ==> found.value < |texts| && texts[found.value] == value
      ensures found.None? ==> value !in texts
    {
      assert ChainOk(texts, nexts, buckets, chains, slot);
      var entry := buckets[slot];
      ghost var k := 0;
      while entry != None
        invariant k <= |chains[slot]| && entry == Link(chains[slot], k)
        invariant forall j :: 0 <= j < k ==> texts[chains[slot][j]] != value
        decreases |chains[slot]| - k
      {
        assert LinkedAt(nexts, chains[slot], k) && Belongs(texts, |buckets|, chains[slot][k], slot);
        if texts[entry.value] == value {
          return entry;
        }
        entry := nexts[entry.value];
        k := k + 1;
      }
      forall e: nat | e < |texts|
        ensures texts[e] != value
      {
        assert Present(texts, chains, e);
      }
      found := None;
    }

    /** The pool as a map from texts to entries: a known text gives its entry
        and changes nothing, a new one gets the next entry, and entries never
        move, however often the table grows. */
    method Intern(value: Text) returns (id: nat)
      requires Valid()
      modifies this
      ensures Valid() && id < |texts| && texts[id] == value
      ensures if value in old(texts) then texts == old(texts) else texts == old(texts) + [value] && id == |old(texts)|
    {
      if |buckets| == 0 {
        Grow(DEFAULT_BUCKETS);
      }
      if size >= |buckets| {
        Grow(|buckets| * 2);
      }
      var hash := HashBytes(value);
      var slot := hash % |buckets|;
      var found := Find(value, slot);
      if found.Some? {
        return found.value;
      }
      id := |texts|;
      AddText(texts, nexts, buckets, chains, value);
      ghost var chains0 := chains;
      texts := texts + [value];
      nexts := nexts + [None];
      size := size + 1;
      var t := Insert(id);
      AddedPresent(texts, chains0, chains, id, t);
    }

    /** Across any run of interning, equal texts and only equal texts get the
        same entry. */
    method InternAll(values: seq<Text>) returns (ids: seq<nat>)
      requires Valid()
      modifies this
      ensures Valid() && |ids| == |values|
      ensures forall i, j :: 0 <= i < |ids| && 0 <= j < |ids| ==> (ids[i] == ids[j] <==> values[i] == values[j])
    {
      ids := [];
      while |ids| < |values|
        invariant Valid() && |ids| <= |values|
        invariant forall i :: 0 <= i < |ids| ==> ids[i] < |texts| && texts[ids[i]] == values[i]
      {
        var id := Intern(values[|ids|]);
        ids := ids + [id];
      }
    }
  }

  /** A new text, not linked yet, leaves the table as it was. */
  lemma {:induction false} AddText(texts: seq<Text>, nexts: seq<Option<nat>>, buckets: seq<Option<nat>>, chains: seq<seq<nat>>, value: Text)
    requires Table(texts, nexts, buckets, chains) && buckets != []
    ensures Table(texts + [value], nexts + [None], buckets, chains)
    ensures !Present(texts + [value], chains, |texts|)
    ensures forall e: nat :: e < |texts| && Present(texts, chains, e) ==> Present(texts + [value], chains, e)
  {
    var texts', nexts' := texts + [value], nexts + [None];
    forall s: nat | s < |buckets|
      ensures ChainOk(texts', nexts', buckets, chains, s) && |texts| !in chains[s]
    {
      assert ChainOk(texts, nexts, buckets, chains, s);
      forall i: nat | i < |chains[s]|
        ensures LinkedAt(nexts', chains[s], i) && Belongs(texts', |buckets|, chains[s][i], s) && chains[s][i] < |texts|
      {
        assert LinkedAt(nexts, chains[s], i) && Belongs(texts, |buckets|, chains[s][i], s);
      }
    }
  }

  lemma {:induction false} AddedPresent(texts: seq<Text>, chains: seq<seq<nat>>, chains': seq<seq<nat>>, e: nat, t: nat)
    requires e < |texts| && Belongs(texts, |chains|, e, t) && chains' == chains[t := [e] + chains[t]]
    requires forall d: nat :: d < |texts| && d != e ==> Present(texts, chains, d)
    ensures forall d: nat :: d < |texts| ==> Present(texts, chains', d)
  {
    forall d: nat | d < |texts|
      ensures Present(texts, chains', d)
    {
      PresentAfter(texts, chains, e, t, d);
    }
  }

  lemma {:induction false} NothingMoved(texts: seq<Text>, n: nat, count: nat, oc: seq<seq<nat>>)
    requires n == |oc| && count > 0 && (n == 0 ==> texts == []) && forall e: nat :: e < |texts| ==> Present(texts, oc, e)
    ensures n > 0 ==> Moved(texts, n, seq(count, _ => []), 0, oc[0])
  {
    var empty: seq<seq<nat>> := seq(count, _ => []);
    forall e: nat | n > 0 && e < |texts|
      ensures !Present(texts, empty, e) && (Slot(texts[e], n) == 0 ==> e in oc[0])
    {
      assert Present(texts, oc, e);
    }
  }

  lemma {:induction false} NextChain(texts: seq<Text>, n: nat, chains: seq<seq<nat>>, oc: seq<seq<nat>>, i: nat)
    requires n == |oc| && i < n && Moved(texts, n, chains, i, []) && forall e: nat :: e < |texts| ==> Present(texts, oc, e)
    ensures Moved(texts, n, chains, i + 1, if i + 1 < n then oc[i + 1] else [])
  {
    forall e: nat | e < |texts|
      ensures Present(texts, chains, e) <==>
              (Slot(texts[e], n) < i + 1 || (Slot(texts[e], n) == i + 1 && e !in (if i + 1 < n then oc[i + 1] else [])))
    {
      assert Present(texts, oc, e);
    }
  }

  lemma {:induction false} AllMoved(texts: seq<Text>, n: nat, chains: seq<seq<nat>>)
    requires (n == 0 ==> texts == []) && (n > 0 ==> Moved(texts, n, chains, n, []))
    ensures forall e: nat :: e < |texts| ==> Present(texts, chains, e)
  {
  }
}
