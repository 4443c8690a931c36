/**
 * How one tick copes with callbacks that change the list under it.
 *
 * Stated for every valid state, every node and every set of callback
 * bodies: after a node's call the traversal only moves further down the
 * list, it goes on at the node's successor in the list as the call left
 * it, and a node whose callback removes itself hands the traversal to the
 * node that followed it when it was removed. When the nodes behind it
 * leave the ticker alone, the rest of the tick invokes every one of them.
 */
module TickerReentry {
  import opened TickerSpec
  import opened TickerLaws

  /** Node `x` is `c` itself or a node visited after `c`. */
  ghost predicate AtOrBehind(a: seq<Listener>, c: nat, x: nat)
    requires c < |a| && x < |a|
  {
    x == c || Precedes(a, c, x)
  }

  lemma {:induction false} PrecedesTrans(a: seq<Listener>, i: nat, j: nat, k: nat)
    requires i < |a| && j < |a| && k < |a| && Precedes(a, i, j) && Precedes(a, j, k)
    ensures Precedes(a, i, k)
  {
  }

  // ---------------------------------------------------------------------
  // The traversal never goes back
  // ---------------------------------------------------------------------

  /** Every node fired in `t` from position `from` on is `c` or a node behind it. */
  ghost predicate FiredBehind(t: State, from: nat, c: nat) {
    c < |t.arena| &&
    forall k :: from <= k < |t.fired| ==> t.fired[k] < |t.arena| && AtOrBehind(t.arena, c, t.fired[k])
  }

  /** Every node fired in `t` from position `from` on is strictly behind `c`. */
  ghost predicate FiredAfter(t: State, from: nat, c: nat) {
    c < |t.arena| &&
    forall k :: from <= k < |t.fired| ==> t.fired[k] < |t.arena| && Precedes(t.arena, c, t.fired[k])
  }

  /** Order is kept from one state to a later one, so "behind" chains through `n`. */
  lemma {:induction false} BehindAll(e: State, t: State, c: nat, n: nat)
    requires c < |e.arena| && n < |e.arena| && |e.arena| <= |t.arena|
    requires Same(e.arena[c], t.arena[c]) && Same(e.arena[n], t.arena[n]) && Precedes(e.arena, c, n)
    requires FiredBehind(t, |e.fired|, n)
    ensures FiredAfter(t, |e.fired|, c)
  {
    forall k | |e.fired| <= k < |t.fired| ensures Precedes(t.arena, c, t.fired[k]) {
      if t.fired[k] != n {
        PrecedesTrans(t.arena, c, n, t.fired[k]);
      }
    }
  }

  /** Every node a walk from `cur` fires is `cur` or a node behind it. */
  lemma {:induction false} WalkForward(s: State, scripts: Scripts, cur: nat, fuel: nat)
    requires Valid(s) && cur < |s.arena|
    ensures FiredBehind(Walk(s, scripts, Ptr(cur), fuel).0, |s.fired|, cur)
    decreases fuel
  {
    if fuel > 0 {
      var e, rest := Emit(s, scripts, cur), fuel - 1;
      WalkStepAt(s, scripts, Ptr(cur), fuel, rest);
      var t := Walk(e.0, scripts, e.1, rest).0;
      if e.1.Ptr? {
        var n := e.1.index;
        WalkForward(e.0, scripts, n, rest);
        BehindAll(e.0, t, cur, n);
      }
      ForwardJoin(s.fired, e.0.fired, t, cur);
    }
  }

  /** The node just fired, then only nodes behind it. */
  lemma {:induction false} ForwardJoin(before: seq<nat>, mid: seq<nat>, t: State, cur: nat)
    requires mid == before + [cur] || mid == before
    requires mid <= t.fired && FiredAfter(t, |mid|, cur)
    ensures FiredBehind(t, |before|, cur)
  {
    assert forall k :: |before| <= k < |mid| ==> t.fired[k] == mid[k] == cur;
  }

  /**
   * Once node `c`'s call returns, the rest of the tick fires only nodes
   * behind `c`: never `c` again, and no node of higher priority than `c`,
   * so in particular none that `c`'s callback added ahead of itself.
   */
  lemma {:induction false} HigherAddedSkipped(s: State, scripts: Scripts, c: nat, fuel: nat)
    requires Valid(s) && c < |s.arena|
    ensures var e := Emit(s, scripts, c); var t := Walk(e.0, scripts, e.1, fuel).0;
      forall k :: |e.0.fired| <= k < |t.fired| ==>
        && t.fired[k] < |t.arena| && t.fired[k] != c
        && Precedes(t.arena, c, t.fired[k])
        && t.arena[t.fired[k]].priority <= s.arena[c].priority
  {
    var e := Emit(s, scripts, c);
    var t := Walk(e.0, scripts, e.1, fuel).0;
    EvolvesTrans(s, e.0, t);
    assert Same(s.arena[c], t.arena[c]);
    if e.1.Ptr? {
      var n := e.1.index;
      WalkForward(e.0, scripts, n, fuel);
      BehindAll(e.0, t, c, n);
    }
  }

  // ---------------------------------------------------------------------
  // Where the traversal goes on
  // ---------------------------------------------------------------------

  /** In a sorted chain, the successor of `c` is the first of the nodes behind `c`. */
  lemma {:induction false} ChainAhead(a: seq<Listener>, ch: seq<nat>, c: nat, x: nat)
    requires InArena(a, ch) && Sorted(a, ch) && c in ch && x in ch && IndexOf(ch, c) < IndexOf(ch, x)
    ensures Succ(ch, IndexOf(ch, c)).Ptr? && Succ(ch, IndexOf(ch, c)).index < |a|
    ensures AtOrBehind(a, Succ(ch, IndexOf(ch, c)).index, x)
  {
    var i, j := IndexOf(ch, c), IndexOf(ch, x);
    assert Succ(ch, i) == Ptr(ch[i + 1]);
    if i + 1 < j {
      assert Precedes(a, ch[i + 1], ch[j]);
    }
  }

  /**
   * A node still live after its call hands the traversal to its successor
   * in the list as the call left it; every node linked behind it then,
   * such as one its callback added at a priority not above its own, is
   * that successor or lies behind it, so the tick has not passed it yet.
   */
  lemma {:induction false} LiveResume(s: State, scripts: Scripts, c: nat)
    requires Valid(s) && c < |s.arena|
    ensures var m := Invoke(s, scripts, c); var e := Emit(s, scripts, c);
      m.arena[c].live ==>
        && c in m.chain
        && e.1 == Succ(m.chain, IndexOf(m.chain, c))
        && forall x :: x in m.chain && IndexOf(m.chain, c) < IndexOf(m.chain, x) ==>
             e.1.Ptr? && e.1.index < |m.arena| && AtOrBehind(m.arena, e.1.index, x)
  {
    var m := Invoke(s, scripts, c);
    if m.arena[c].live {
      assert c in m.chain;
      var k := IndexOf(m.chain, c);
      assert m.arena[m.chain[k]].next == Succ(m.chain, k);
      forall x | x in m.chain && k < IndexOf(m.chain, x)
        ensures Succ(m.chain, k).Ptr? && Succ(m.chain, k).index < |m.arena| && AtOrBehind(m.arena, Succ(m.chain, k).index, x)
      {
        ChainAhead(m.arena, m.chain, c, x);
      }
    }
  }

  /** `add` touches only live nodes and the new one. */
  lemma {:induction false} InsertKeepsDead(s: State, f: CallbackId, p: int, once: bool, c: nat)
    requires Valid(s) && c < |s.arena| && !s.arena[c].live
    ensures c < |Insert(s, f, p, once).arena| && Insert(s, f, p, once).arena[c] == s.arena[c]
  {
    if s.hasHead {
      var k := InsertIndex(s.arena, s.chain, p);
      if k > 0 {
        assert s.chain[k - 1] in s.chain;
      }
    }
  }

  /** `remove` touches only the live nodes. */
  lemma {:induction false} RemoveKeepsDead(s: State, f: CallbackId, c: nat)
    requires Valid(s) && c < |s.arena| && !s.arena[c].live
    ensures c < |RemoveAll(s, f).arena| && RemoveAll(s, f).arena[c] == s.arena[c]
  {
    RemoveAllLaw(s, f);
    if s.hasHead {
      assert c !in RemoveAll(s, f).chain;
      assert Deactivate(s.arena, f)[c] == s.arena[c];
    }
  }

  /** A destroyed node is left exactly as it is by every call a callback makes. */
  lemma {:induction false} ApplyKeepsDead(s: State, e: Effect, c: nat)
    requires Valid(s) && c < |s.arena| && !s.arena[c].live
    ensures c < |Apply(s, e).arena| && Apply(s, e).arena[c] == s.arena[c]
  {
    match e
    case CallAdd(f, p) => InsertKeepsDead(s, f, p, false, c);
    case CallAddOnce(f, p) => InsertKeepsDead(s, f, p, true, c);
    case CallRemove(f) => RemoveKeepsDead(s, f, c);
    case CallStart =>
    case CallStop =>
    case CallDestroy =>
  }

  lemma {:induction false} RunKeepsDead(s: State, es: seq<Effect>, c: nat)
    requires Valid(s) && c < |s.arena| && !s.arena[c].live
    ensures c < |RunScript(s, es).arena| && RunScript(s, es).arena[c] == s.arena[c]
    decreases |es|
  {
    if es != [] {
      var t := Apply(s, es[0]);
      ApplyKeepsDead(s, es[0], c);
      RunKeepsDead(t, es[1..], c);
    }
  }

  /**
   * A node whose callback removes its own callback, after the effects
   * `pre`, hands the traversal to the node that followed it in the list at
   * the moment of the removal, whatever the rest of the body does; every
   * node linked behind it then is that node or lies behind it.
   */
  lemma {:induction false} SelfRemovedResume(s: State, scripts: Scripts, c: nat, pre: seq<Effect>, post: seq<Effect>)
    requires Valid(s) && c < |s.arena| && s.arena[c].live
    requires ScriptOf(scripts, s.arena[c].fn) == pre + [CallRemove(s.arena[c].fn)] + post
    ensures Valid(s.(fired := s.fired + [c]))
    ensures var m := RunScript(s.(fired := s.fired + [c]), pre); var e := Emit(s, scripts, c);
      && !e.0.arena[c].live
      && (m.arena[c].live ==>
            && c in m.chain
            && e.1 == Succ(m.chain, IndexOf(m.chain, c))
            && forall x :: x in m.chain && IndexOf(m.chain, c) < IndexOf(m.chain, x) ==>
                 e.1.Ptr? && e.1.index < |m.arena| && AtOrBehind(m.arena, e.1.index, x))
  {
    var f := s.arena[c].fn;
    RecordValid(s, c);
    var s0 := s.(fired := s.fired + [c]);
    var m := RunScript(s0, pre);
    var r := Apply(m, CallRemove(f));
    RunScriptAround(s0, pre, CallRemove(f), post);
    assert Same(s0.arena[c], m.arena[c]);
    RemoveAllLaw(m, f);
    assert !r.arena[c].live;
    RunKeepsDead(r, post, c);
    assert Invoke(s, scripts, c).arena[c] == r.arena[c];
    if m.arena[c].live {
      assert c in m.chain;
      var k := IndexOf(m.chain, c);
      assert m.arena[m.chain[k]].next == Succ(m.chain, k);
      assert r.arena[c] == m.arena[c].(live := false);
      forall x | x in m.chain && k < IndexOf(m.chain, x)
        ensures Succ(m.chain, k).Ptr? && Succ(m.chain, k).index < |m.arena| && AtOrBehind(m.arena, Succ(m.chain, k).index, x)
      {
        ChainAhead(m.arena, m.chain, c, x);
      }
    }
  }

  // ---------------------------------------------------------------------
  // The rest of the tick
  // ---------------------------------------------------------------------

  /** `tail` is the end of the list `ch`. */
  ghost predicate EndsWith(ch: seq<nat>, tail: seq<nat>) {
    |tail| <= |ch| && ch[|ch| - |tail|..] == tail
  }

  lemma {:induction false} EndsWithJoin(p: seq<nat>, tail: seq<nat>)
    ensures EndsWith(p + tail, tail)
  {
    assert (p + tail)[|p|..] == tail;
  }

  /** The nodes `xs` of `s` have callbacks that leave the ticker alone. */
  ghost predicate QuietNodes(s: State, scripts: Scripts, xs: seq<nat>)
    decreases |xs|
  {
    xs != [] ==> xs[0] < |s.arena| && ScriptOf(scripts, s.arena[xs[0]].fn) == [] && QuietNodes(s, scripts, xs[1..])
  }

  /** Where the first node of the end `rest` of a list sits, and what dropping it leaves. */
  lemma {:induction false} EndsWithAt(ch: seq<nat>, rest: seq<nat>, p: nat)
    requires EndsWith(ch, rest) && rest != [] && p == |ch| - |rest|
    ensures p < |ch| && ch[p] == rest[0]
    ensures Succ(ch, p) == if |rest| > 1 then Ptr(rest[1]) else Nil
    ensures EndsWith(ch, rest[1..]) && EndsWith(ch[..p] + ch[p + 1..], rest[1..])
  {
    var P, c, after := ch[..p], rest[0], rest[1..];
    assert rest == [c] + after;
    assert ch == P + ([c] + after);
    DropAt(ch, P, c, after);
    EndsWithJoin(P, after);
    AppendAssoc(P, [c], after);
    EndsWithJoin(P + [c], after);
  }

  /** The state `t` is valid and its list ends with the quiet nodes `rest`. */
  ghost predicate QuietTail(scripts: Scripts, rest: seq<nat>, t: State) {
    Valid(t) && QuietNodes(t, scripts, rest) && EndsWith(t.chain, rest)
  }

  /** Quietness of nodes is kept in a later state. */
  lemma {:induction false} QuietNodesKept(t: State, r: State, scripts: Scripts, xs: seq<nat>)
    requires Evolves(t, r) && QuietNodes(t, scripts, xs)
    ensures QuietNodes(r, scripts, xs)
    decreases |xs|
  {
    if xs != [] {
      assert Same(t.arena[xs[0]], r.arena[xs[0]]);
      QuietNodesKept(t, r, scripts, xs[1..]);
    }
  }

  /** One quiet node at the end of the list: it fires, and the nodes after it stay the end of the list. */
  lemma {:induction false} QuietTailStep(scripts: Scripts, rest: seq<nat>, t: State)
    requires QuietTail(scripts, rest, t) && rest != []
    ensures rest[0] < |t.arena|
    ensures var e := Emit(t, scripts, rest[0]);
      && QuietTail(scripts, rest[1..], e.0)
      && e.0.fired == t.fired + [rest[0]]
      && e.1 == (if |rest| > 1 then Ptr(rest[1]) else Nil)
  {
    var c, p := rest[0], |t.chain| - |rest|;
    EndsWithAt(t.chain, rest, p);
    assert t.arena[t.chain[p]].next == Succ(t.chain, p);
    QuietEmit(t, scripts, c);
    var t1 := t.(fired := t.fired + [c]);
    RetireAt(t1, c, p);
    QuietNodesKept(t, Emit(t, scripts, c).0, scripts, rest[1..]);
  }

  /** A walk over a quiet end of the list fires all of it, in order, and completes. */
  lemma {:induction false} QuietTailWalk(scripts: Scripts, rest: seq<nat>, t: State, cur: Link, fuel: nat)
    requires QuietTail(scripts, rest, t) && |rest| <= fuel
    requires cur == if rest != [] then Ptr(rest[0]) else Nil
    ensures cur.Ptr? ==> cur.index < |t.arena|
    ensures var res := Walk(t, scripts, cur, fuel); res.1 && res.0.fired == t.fired + rest
    decreases |rest|
  {
    if rest != [] {
      var c, after, more := rest[0], rest[1..], fuel - 1;
      QuietTailStep(scripts, rest, t);
      var e := Emit(t, scripts, c);
      WalkStepAt(t, scripts, cur, fuel, more);
      QuietTailWalk(scripts, after, e.0, e.1, more);
      JoinFired(t.fired, e.0.fired, Walk(e.0, scripts, e.1, more).0.fired, rest);
    }
  }

  lemma {:induction false} JoinFired(a: seq<nat>, b: seq<nat>, c: seq<nat>, rest: seq<nat>)
    requires rest != [] && b == a + [rest[0]] && c == b + rest[1..]
    ensures c == a + rest
  {
    assert rest == [rest[0]] + rest[1..];
  }

  lemma {:induction false} SortedAt(a: seq<Listener>, ch: seq<nat>, j: nat, k: nat)
    ensures InArena(a, ch) && Sorted(a, ch) && j < k < |ch| ==> Precedes(a, ch[j], ch[k])
  {
  }

  /** A node added after `c` at a priority not above `c`'s is linked behind `c`. */
  lemma {:induction false} AddedBehind(m: State, c: nat, k: nat, x: nat)
    requires Valid(m) && k < |m.chain| && m.chain[k] == c && x in m.chain
    requires c < x && m.arena[x].priority <= m.arena[c].priority
    ensures x in m.chain[k + 1..]
  {
    var j := IndexOf(m.chain, x);
    SortedAt(m.arena, m.chain, j, k);
    assert !Precedes(m.arena, x, c);
    assert m.chain[k + 1..][j - (k + 1)] == x;
  }

  /** Every node added after `c` at a priority not above `c`'s is among the nodes behind `c`. */
  lemma {:induction false} AddedAmong(m: State, c: nat, k: nat, n: nat, before: seq<nat>, fired: seq<nat>)
    requires Valid(m) && k < |m.chain| && m.chain[k] == c && c < n && fired == before + m.chain[k + 1..]
    ensures forall x :: x in m.chain && n <= x && m.arena[x].priority <= m.arena[c].priority ==> x in fired
  {
    forall x | x in m.chain && n <= x && m.arena[x].priority <= m.arena[c].priority
      ensures x in fired
    {
      AddedBehind(m, c, k, x);
    }
  }

  /** Emitting a node still linked at position `k` after its call: the nodes behind it end the list. */
  lemma {:induction false} LiveEmitTail(s: State, scripts: Scripts, c: nat, k: nat)
    requires Valid(s) && c < |s.arena|
    requires var m := Invoke(s, scripts, c); k < |m.chain| && m.chain[k] == c
    ensures var m, e := Invoke(s, scripts, c), Emit(s, scripts, c);
      && Evolves(m, e.0) && EndsWith(e.0.chain, m.chain[k + 1..])
      && e.1 == (if k + 1 < |m.chain| then Ptr(m.chain[k + 1]) else Nil)
      && e.0.fired == s.fired + [c] && m.arena[c] == s.arena[c].(next := m.arena[c].next)
  {
    var m, e := Invoke(s, scripts, c), Emit(s, scripts, c);
    assert m.arena[c].live && s.arena[c].live;
    assert e == (Retire(m, c), m.arena[c].next);
    assert m.arena[m.chain[k]].next == Succ(m.chain, k);
    assert Same(s.arena[c], m.arena[c]);
    RetireAt(m, c, k);
    EndsWithDrop(m.chain, k);
  }

  /** The nodes behind position `k` end the list, with or without the node at `k`. */
  lemma {:induction false} EndsWithDrop(ch: seq<nat>, k: nat)
    requires k < |ch|
    ensures EndsWith(ch, ch[k + 1..]) && EndsWith(ch[..k] + ch[k + 1..], ch[k + 1..])
  {
    assert ch == ch[..k + 1] + ch[k + 1..];
    EndsWithJoin(ch[..k + 1], ch[k + 1..]);
    EndsWithJoin(ch[..k], ch[k + 1..]);
  }

  /**
   * A node still linked at position `k` once its call returns: when the
   * nodes behind it then leave the ticker alone, the rest of the tick
   * invokes every one of them in list order and completes; in particular
   * a node its callback added at a priority not above its own runs in that
   * same tick.
   */
  lemma {:induction false} LiveRestFires(s: State, scripts: Scripts, c: nat, k: nat, fuel: nat)
    requires Valid(s) && c < |s.arena|
    requires var m := Invoke(s, scripts, c); k < |m.chain| && m.chain[k] == c
    requires var m := Invoke(s, scripts, c);
      QuietNodes(m, scripts, m.chain[k + 1..]) && |m.chain| - (k + 1) <= fuel
    ensures var m, e := Invoke(s, scripts, c), Emit(s, scripts, c);
      var res := Walk(e.0, scripts, e.1, fuel);
      && res.1 && res.0.fired == s.fired + [c] + m.chain[k + 1..]
      && forall x :: x in m.chain && |s.arena| <= x && m.arena[x].priority <= s.arena[c].priority ==> x in res.0.fired
  {
    var m, e := Invoke(s, scripts, c), Emit(s, scripts, c);
    var tail := m.chain[k + 1..];
    LiveEmitTail(s, scripts, c, k);
    QuietNodesKept(m, e.0, scripts, tail);
    QuietTailWalk(scripts, tail, e.0, e.1, fuel);
    AddedAmong(m, c, k, |s.arena|, s.fired + [c], Walk(e.0, scripts, e.1, fuel).0.fired);
  }

  /** The list after `remove(f)` still ends with the nodes behind position `k` when none of them is `f`'s. */
  lemma {:induction false} RemoveKeepsTail(m: State, f: CallbackId, k: nat)
    requires Valid(m) && k < |m.chain|
    requires forall x :: x in m.chain[k + 1..] ==> m.arena[x].fn != f
    ensures EndsWith(RemoveAll(m, f).chain, m.chain[k + 1..])
  {
    var tail := m.chain[k + 1..];
    assert m.hasHead;
    assert m.chain == m.chain[..k + 1] + tail;
    WithoutAppend(m.arena, m.chain[..k + 1], tail, f);
    WithoutNone(m.arena, tail, f);
    EndsWithJoin(Without(m.arena, m.chain[..k + 1], f), tail);
  }

  /** Emitting a node whose callback ends by removing itself while at position `k`. */
  lemma {:induction false} SelfRemovedEmitTail(s: State, scripts: Scripts, c: nat, pre: seq<Effect>, k: nat)
    requires Valid(s) && c < |s.arena| && s.arena[c].live
    requires ScriptOf(scripts, s.arena[c].fn) == pre + [CallRemove(s.arena[c].fn)]
    requires var m := RunScript(s.(fired := s.fired + [c]), pre); k < |m.chain| && m.chain[k] == c
    requires var m := RunScript(s.(fired := s.fired + [c]), pre);
      forall x :: x in m.chain[k + 1..] ==> m.arena[x].fn != s.arena[c].fn
    ensures Valid(s.(fired := s.fired + [c]))
    ensures var m, e := RunScript(s.(fired := s.fired + [c]), pre), Emit(s, scripts, c);
      && Evolves(m, e.0) && EndsWith(e.0.chain, m.chain[k + 1..])
      && e.1 == (if k + 1 < |m.chain| then Ptr(m.chain[k + 1]) else Nil)
      && e.0.fired == s.fired + [c] && m.arena[c] == s.arena[c].(next := m.arena[c].next)
  {
    var f := s.arena[c].fn;
    RecordValid(s, c);
    var s0 := s.(fired := s.fired + [c]);
    var m := RunScript(s0, pre);
    var r := Apply(m, CallRemove(f));
    RunScriptAround(s0, pre, CallRemove(f), []);
    assert pre + [CallRemove(f)] + [] == pre + [CallRemove(f)];
    assert Invoke(s, scripts, c) == r;
    assert Same(s0.arena[c], m.arena[c]);
    RemoveKeepsTail(m, f, k);
    RemoveAllLaw(m, f);
    assert m.arena[m.chain[k]].next == Succ(m.chain, k);
    assert r.arena[c] == m.arena[c].(live := false);
    var e := Emit(s, scripts, c);
    assert e == (Retire(r, c), r.arena[c].next);
    assert e.0.chain == r.chain;
    EvolvesTrans(m, r, e.0);
  }

  /**
   * A node whose callback's last call removes its own callback, while it is
   * linked at position `k`: when the nodes behind it then belong to other,
   * quiet callbacks, the rest of the tick invokes every one of them in list
   * order and completes; in particular a node the callback added earlier at
   * a priority not above its own runs in that same tick.
   */
  lemma {:induction false} SelfRemovedRestFires(s: State, scripts: Scripts, c: nat, pre: seq<Effect>, k: nat, fuel: nat)
    requires Valid(s) && c < |s.arena| && s.arena[c].live
    requires ScriptOf(scripts, s.arena[c].fn) == pre + [CallRemove(s.arena[c].fn)]
    requires var m := RunScript(s.(fired := s.fired + [c]), pre); k < |m.chain| && m.chain[k] == c
    requires var m := RunScript(s.(fired := s.fired + [c]), pre);
      && QuietNodes(m, scripts, m.chain[k + 1..]) && |m.chain| - (k + 1) <= fuel
      && forall x :: x in m.chain[k + 1..] ==> m.arena[x].fn != s.arena[c].fn
    ensures var m, e := RunScript(s.(fired := s.fired + [c]), pre), Emit(s, scripts, c);
      var res := Walk(e.0, scripts, e.1, fuel);
      && res.1 && res.0.fired == s.fired + [c] + m.chain[k + 1..]
      && forall x :: x in m.chain && |s.arena| <= x && m.arena[x].priority <= s.arena[c].priority ==> x in res.0.fired
  {
    SelfRemovedEmitTail(s, scripts, c, pre, k);
    var m, e := RunScript(s.(fired := s.fired + [c]), pre), Emit(s, scripts, c);
    var tail := m.chain[k + 1..];
    QuietNodesKept(m, e.0, scripts, tail);
    QuietTailWalk(scripts, tail, e.0, e.1, fuel);
    AddedAmong(m, c, k, |s.arena|, s.fired + [c], Walk(e.0, scripts, e.1, fuel).0.fired);
  }
}
