/**
 * The list walks of `remove` and `destroy`, one node at a time.
 *
 * Both walk the chain from the head and destroy nodes as they pass them:
 * `remove(f)` soft-destroys each node of callback `f`, `destroy` hard-
 * destroys every node. `RemovePrefix` and `ClearPrefix` are the states
 * after the first `j` nodes of the original chain have been visited; the
 * lemmas here show that the walks end in the declarative results
 * `RemoveAll` and `DestroyTicker`, and give the facts the in-place loops
 * need on the way.
 */
module TickerSteps {
  import opened TickerSpec

  /** What unlinking a live node does, position by position. */
  lemma {:induction false} UnlinkShape(s: State, c: nat, hard: bool)
    requires Valid(s) && c < |s.arena| && s.arena[c].live
    ensures var r, k := Unlink(s, c, hard), IndexOf(s.chain, c);
      && r == s.(arena := r.arena, chain := r.chain)
      && |r.arena| == |s.arena|
      && r.chain == s.chain[..k] + s.chain[k + 1..]
      && (forall i :: 0 <= i < |s.arena| ==>
            r.arena[i] == (if i == c then s.arena[i].(live := false, next := if hard then Nil else s.arena[i].next)
                           else if k > 0 && i == s.chain[k - 1] then s.arena[i].(next := s.arena[c].next)
                           else s.arena[i]))
  {
    var r, ch := Unlink(s, c, hard), s.chain;
    var k := IndexOf(ch, c);
    var next := if hard then Nil else s.arena[c].next;
    var a := if k == 0 then s.arena else s.arena[ch[k - 1] := s.arena[ch[k - 1]].(next := s.arena[c].next)];
    assert r.arena == a[c := a[c].(live := false, next := next)];
    if k > 0 {
      assert Precedes(s.arena, ch[k - 1], c);
    }
    forall i | 0 <= i < |s.arena|
      ensures r.arena[i] == (if i == c then s.arena[i].(live := false, next := next)
                             else if k > 0 && i == ch[k - 1] then s.arena[i].(next := s.arena[c].next)
                             else s.arena[i])
    {
    }
  }

  // ---------------------------------------------------------------------
  // remove(f)
  // ---------------------------------------------------------------------

  /**
   * The shape of the state once `remove(f)` has visited the first `j`
   * nodes of the chain of `s`: the chain is the kept ones among them
   * followed by the ones not yet visited, only `live` and `next` have
   * changed, and every node off the chain keeps the `next` it had in `s`
   * (a soft destroy does not touch it).
   */
  ghost predicate RemovedUpTo(s: State, f: CallbackId, j: nat, t: State)
    requires InArena(s.arena, s.chain) && j <= |s.chain|
  {
    && t == s.(arena := t.arena, chain := t.chain)
    && |t.arena| == |s.arena|
    && t.chain == Without(s.arena, s.chain[..j], f) + s.chain[j..]
    && (forall i :: 0 <= i < |s.arena| ==> Same(s.arena[i], t.arena[i]))
    && (forall i :: 0 <= i < |s.arena| && i !in t.chain ==> t.arena[i].next == s.arena[i].next)
  }

  /** The state after `remove(f)` has visited the first `j` nodes of the chain. */
  function RemovePrefix(s: State, f: CallbackId, j: nat): (t: State)
    requires Valid(s) && s.hasHead && j <= |s.chain|
    ensures Valid(t) && |t.arena| == |s.arena|
    decreases j
  {
    if j == 0 then s
    else
      RemoveOne(RemovePrefix(s, f, j - 1), s.chain[j - 1], f)
  }

  /** `remove(f)`'s visit of node `c`: a soft destroy if it is `f`'s, nothing otherwise. */
  function RemoveOne(t: State, c: nat, f: CallbackId): (r: State)
    requires Valid(t) && c < |t.arena|
    ensures Valid(r) && |r.arena| == |t.arena|
  {
    if t.arena[c].fn == f then UnlinkValid(t, c, false); Unlink(t, c, false) else t
  }

  lemma {:induction false} RemovePrefixShape(s: State, f: CallbackId, j: nat)
    requires Valid(s) && s.hasHead && j <= |s.chain|
    ensures RemovedUpTo(s, f, j, RemovePrefix(s, f, j))
    decreases j
  {
    if j == 0 {
      assert s.chain[..0] == [] && s.chain[0..] == s.chain;
    } else {
      var i := j - 1;
      var t := RemovePrefix(s, f, i);
      RemovePrefixShape(s, f, i);
      RemoveAhead(s, f, i, t);
      RemoveStep(s, f, i, t);
      RemovePrefixAt(s, f, j, i);
    }
  }

  /** One more node visited by `remove(f)`. */
  lemma {:induction false} RemovePrefixAt(s: State, f: CallbackId, j: nat, i: nat)
    requires Valid(s) && s.hasHead && j <= |s.chain| && j == i + 1
    ensures var t, c := RemovePrefix(s, f, i), s.chain[i];
      RemovePrefix(s, f, j) == if t.arena[c].fn == f then Unlink(t, c, false) else t
  {
    assert i == j - 1;
  }

  /** The node `remove(f)` is about to visit is still as it was in `s`, and linked where expected. */
  lemma {:induction false} RemoveAhead(s: State, f: CallbackId, j: nat, t: State)
    requires Valid(s) && j < |s.chain| && RemovedUpTo(s, f, j, t) && Valid(t)
    ensures t.arena[s.chain[j]] == s.arena[s.chain[j]]
    ensures IndexOf(t.chain, s.chain[j]) == |Without(s.arena, s.chain[..j], f)|
  {
    var ch, m := s.chain, |Without(s.arena, s.chain[..j], f)|;
    assert t.chain[m] == ch[j];
    SortedIndexOf(t.arena, t.chain, m);
    assert t.arena[t.chain[m]].next == Succ(t.chain, m);
    assert s.arena[ch[j]].next == Succ(ch, j);
    assert m + 1 < |t.chain| ==> t.chain[m + 1] == ch[j + 1];
  }

  /** What the loop of `remove(f)` reads at position `j`: the node as it was, and its original successor. */
  lemma {:induction false} RemoveNext(s: State, f: CallbackId, j: nat)
    requires Valid(s) && s.hasHead && j < |s.chain|
    ensures RemovePrefix(s, f, j).arena[s.chain[j]] == s.arena[s.chain[j]]
    ensures s.arena[s.chain[j]].next == Succ(s.chain, j)
  {
    RemovePrefixShape(s, f, j);
    RemoveAhead(s, f, j, RemovePrefix(s, f, j));
  }

  /** One node visited: the node at position `j` is unlinked if it is `f`'s, passed over otherwise. */
  lemma {:induction false} RemoveStep(s: State, f: CallbackId, j: nat, t: State)
    requires Valid(s) && j < |s.chain| && RemovedUpTo(s, f, j, t) && Valid(t)
    requires t.arena[s.chain[j]] == s.arena[s.chain[j]]
    requires IndexOf(t.chain, s.chain[j]) == |Without(s.arena, s.chain[..j], f)|
    ensures var c := s.chain[j];
      RemovedUpTo(s, f, j + 1, if t.arena[c].fn == f then Unlink(t, c, false) else t)
  {
    WithoutNext(s.arena, s.chain, j, f);
    if t.arena[s.chain[j]].fn == f {
      RemoveMatch(s, f, j, t);
    } else {
      RemoveSkip(s, f, j, t);
    }
  }

  /** The first `j + 1` nodes of a chain, filtered, are the first `j` filtered plus possibly node `j`. */
  lemma {:induction false} WithoutNext(a: seq<Listener>, ch: seq<nat>, j: nat, f: CallbackId)
    requires InArena(a, ch) && j < |ch|
    ensures Without(a, ch[..j + 1], f) == Without(a, ch[..j], f) + (if a[ch[j]].fn != f then [ch[j]] else [])
  {
    assert ch[..j + 1] == ch[..j] + [ch[j]];
    WithoutSnoc(a, ch[..j], ch[j], f);
  }

  lemma {:induction false} RemoveSkip(s: State, f: CallbackId, j: nat, t: State)
    requires InArena(s.arena, s.chain) && j < |s.chain| && RemovedUpTo(s, f, j, t)
    requires s.arena[s.chain[j]].fn != f
    requires Without(s.arena, s.chain[..j + 1], f) == Without(s.arena, s.chain[..j], f) + [s.chain[j]]
    ensures RemovedUpTo(s, f, j + 1, t)
  {
    SkipChain(Without(s.arena, s.chain[..j], f), s.chain, j);
  }

  lemma {:induction false} SkipChain(kept: seq<nat>, ch: seq<nat>, j: nat)
    requires j < |ch|
    ensures kept + ch[j..] == (kept + [ch[j]]) + ch[j + 1..]
  {
    assert ch[j..] == [ch[j]] + ch[j + 1..];
  }

  lemma {:induction false} RemoveMatch(s: State, f: CallbackId, j: nat, t: State)
    requires Valid(s) && j < |s.chain| && RemovedUpTo(s, f, j, t) && Valid(t)
    requires t.arena[s.chain[j]] == s.arena[s.chain[j]] && s.arena[s.chain[j]].fn == f
    requires IndexOf(t.chain, s.chain[j]) == |Without(s.arena, s.chain[..j], f)|
    requires Without(s.arena, s.chain[..j + 1], f) == Without(s.arena, s.chain[..j], f)
    ensures RemovedUpTo(s, f, j + 1, Unlink(t, s.chain[j], false))
  {
    var c := s.chain[j];
    assert c in t.chain;
    UnlinkShape(t, c, false);
    RemoveUnlinkStep(s, f, j, t, Unlink(t, c, false), IndexOf(t.chain, c));
  }

  /** The step of `RemoveStep` that unlinks node `c`, at position `m` of the current chain, stated on its shape. */
  lemma {:induction false} RemoveUnlinkStep(s: State, f: CallbackId, j: nat, t: State, r: State, m: nat)
    requires InArena(s.arena, s.chain) && j < |s.chain| && RemovedUpTo(s, f, j, t)
    requires t.arena[s.chain[j]] == s.arena[s.chain[j]]
    requires m == |Without(s.arena, s.chain[..j], f)|
    requires Without(s.arena, s.chain[..j + 1], f) == Without(s.arena, s.chain[..j], f)
    requires r == t.(arena := r.arena, chain := r.chain) && |r.arena| == |t.arena|
    requires r.chain == t.chain[..m] + t.chain[m + 1..]
    requires forall i :: 0 <= i < |t.arena| ==>
               r.arena[i] == (if i == s.chain[j] then t.arena[i].(live := false)
                              else if m > 0 && i == t.chain[m - 1] then t.arena[i].(next := t.arena[s.chain[j]].next)
                              else t.arena[i])
    ensures RemovedUpTo(s, f, j + 1, r)
  {
    var kept := Without(s.arena, s.chain[..j], f);
    assert s.chain[j..][1..] == s.chain[j + 1..];
    UnlinkOffChain(s.arena, kept, s.chain[j..], t, r);
  }

  /**
   * Unlinking the first node of `rest` from the chain `kept + rest` keeps
   * every node's registration data, and every node then off the chain
   * still has the `next` it had in `sa`.
   */
  lemma {:induction false} UnlinkOffChain(sa: seq<Listener>, kept: seq<nat>, rest: seq<nat>, t: State, r: State)
    requires |t.arena| == |sa| && |r.arena| == |sa| && t.chain == kept + rest && rest != []
    requires forall i :: 0 <= i < |sa| ==> Same(sa[i], t.arena[i])
    requires forall i :: 0 <= i < |sa| && i !in t.chain ==> t.arena[i].next == sa[i].next
    requires rest[0] < |sa| && t.arena[rest[0]].next == sa[rest[0]].next
    requires r.chain == t.chain[..|kept|] + t.chain[|kept| + 1..]
    requires forall i :: 0 <= i < |sa| ==>
               r.arena[i] == (if i == rest[0] then t.arena[i].(live := false)
                              else if |kept| > 0 && i == t.chain[|kept| - 1] then t.arena[i].(next := t.arena[rest[0]].next)
                              else t.arena[i])
    ensures r.chain == kept + rest[1..]
    ensures forall i :: 0 <= i < |sa| ==> Same(sa[i], r.arena[i])
    ensures forall i :: 0 <= i < |sa| && i !in r.chain ==> r.arena[i].next == sa[i].next
  {
    var m := |kept|;
    assert t.chain[..m] == kept && t.chain[m + 1..] == rest[1..];
    CutMembers(t.chain, m);
    forall i | 0 <= i < |sa| ensures Same(sa[i], r.arena[i]) {
      assert Same(sa[i], t.arena[i]);
    }
    forall i | 0 <= i < |sa| && i !in r.chain ensures r.arena[i].next == sa[i].next {
      if i != rest[0] {
        assert i !in t.chain;
      }
    }
  }

  /** The walk of `remove(f)` over the whole chain ends in `RemoveAll`. */
  lemma {:induction false} RemovePrefixAll(s: State, f: CallbackId)
    requires Valid(s) && s.hasHead
    ensures RemovePrefix(s, f, |s.chain|) == RemoveAll(s, f)
  {
    var ch := s.chain;
    var t := RemovePrefix(s, f, |ch|);
    RemovePrefixShape(s, f, |ch|);
    assert ch[..|ch|] == ch && ch[|ch|..] == [];
    var kept := Without(s.arena, ch, f);
    assert t.chain == kept;
    WithoutSorted(s.arena, ch, f);
    SortedDistinct(s.arena, kept);
    var d := Deactivate(s.arena, f);
    forall i | 0 <= i < |s.arena|
      ensures t.arena[i] == d[i].(next := t.arena[i].next)
      ensures i !in kept ==> t.arena[i] == d[i]
    {
      assert s.arena[i].live <==> i in ch;
      assert t.arena[i].live <==> i in kept;
      assert Same(s.arena[i], t.arena[i]);
    }
    LinkedUnique(t.arena, Relink(d, kept), d, kept);
  }

  // ---------------------------------------------------------------------
  // destroy()
  // ---------------------------------------------------------------------

  /**
   * The shape of the state once `destroy` has stopped the ticker and
   * hard-destroyed the first `j` nodes of the chain of `s`.
   */
  ghost predicate ClearedUpTo(s: State, j: nat, t: State)
    requires Valid(s) && j <= |s.chain|
  {
    var ch := s.chain;
    && t == s.(arena := t.arena, chain := t.chain, started := false)
    && |t.arena| == |s.arena|
    && t.chain == ch[j..]
    && (forall k :: 0 <= k < j ==> t.arena[ch[k]] == s.arena[ch[k]].(live := false, next := Nil))
    && (forall k :: j <= k < |ch| ==> t.arena[ch[k]] == s.arena[ch[k]])
    && (forall i :: 0 <= i < |s.arena| && i !in ch ==> t.arena[i] == s.arena[i])
  }

  /** The state after `destroy` has stopped the ticker and hard-destroyed the first `j` nodes. */
  function ClearPrefix(s: State, j: nat): (t: State)
    requires Valid(s) && j <= |s.chain|
    ensures Valid(t) && |t.arena| == |s.arena|
    decreases j
  {
    if j == 0 then StopTicker(s) else ClearOne(ClearPrefix(s, j - 1), s.chain[j - 1])
  }

  /** `destroy`'s visit of node `c`: a hard destroy. */
  function ClearOne(t: State, c: nat): (r: State)
    requires Valid(t) && c < |t.arena|
    ensures Valid(r) && |r.arena| == |t.arena|
  {
    UnlinkValid(t, c, true);
    Unlink(t, c, true)
  }

  lemma {:induction false} ClearPrefixShape(s: State, j: nat)
    requires Valid(s) && j <= |s.chain|
    ensures ClearedUpTo(s, j, ClearPrefix(s, j))
    decreases j
  {
    if j > 0 {
      var i := j - 1;
      var t := ClearPrefix(s, i);
      ClearPrefixShape(s, i);
      ClearStep(s, i, t);
      ClearPrefixAt(s, j, i);
    }
  }

  /** One more node visited by `destroy`. */
  lemma {:induction false} ClearPrefixAt(s: State, j: nat, i: nat)
    requires Valid(s) && j <= |s.chain| && j == i + 1
    ensures ClearPrefix(s, j) == Unlink(ClearPrefix(s, i), s.chain[i], true)
  {
    assert i == j - 1;
    assert ClearPrefix(s, j) == ClearOne(ClearPrefix(s, i), s.chain[i]);
  }

  /** What the loop of `destroy` reads at position `j`: the node is live and has its original successor. */
  lemma {:induction false} ClearNext(s: State, j: nat)
    requires Valid(s) && j < |s.chain|
    ensures ClearPrefix(s, j).arena[s.chain[j]].next == Succ(s.chain, j)
  {
    ClearPrefixShape(s, j);
    ClearStep(s, j, ClearPrefix(s, j));
  }

  /** One node visited: the first node of the remaining chain is hard-destroyed. */
  lemma {:induction false} ClearStep(s: State, j: nat, t: State)
    requires Valid(s) && j < |s.chain| && ClearedUpTo(s, j, t) && Valid(t)
    ensures ClearedUpTo(s, j + 1, Unlink(t, s.chain[j], true))
    ensures t.arena[s.chain[j]].next == Succ(s.chain, j)
  {
    var ch, c := s.chain, s.chain[j];
    SortedDistinct(s.arena, ch);
    assert t.chain[0] == c;
    UnlinkShape(t, c, true);
    var r := Unlink(t, c, true);
    assert r.chain == ch[j + 1..];
    forall k | 0 <= k < j + 1 ensures r.arena[ch[k]] == s.arena[ch[k]].(live := false, next := Nil) {
      if k < j { assert ch[k] != c; }
    }
    forall k | j + 1 <= k < |ch| ensures r.arena[ch[k]] == s.arena[ch[k]] {
      assert ch[k] != c;
    }
    assert s.arena[ch[j]].next == Succ(ch, j);
  }

  /** The walk of `destroy` over the whole chain, followed by dropping the head, is `DestroyTicker`. */
  lemma {:induction false} ClearPrefixAll(s: State)
    requires Valid(s) && s.hasHead && !s.isProtected
    ensures ClearPrefix(s, |s.chain|).(hasHead := false) == DestroyTicker(s)
  {
    var ch := s.chain;
    var t := ClearPrefix(s, |ch|);
    ClearPrefixShape(s, |ch|);
    var d := DeactivateAll(s.arena);
    forall i | 0 <= i < |s.arena| ensures t.arena[i] == d[i] {
      assert s.arena[i].live <==> i in ch;
      if i in ch {
        var k := IndexOf(ch, i);
      }
    }
    assert t.arena == d;
  }
}
