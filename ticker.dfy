/**
 * The ticker as an object: the sentinel-headed listener list is updated in
 * place by `add`, `remove`, `destroy` and by the listeners' own callbacks
 * during `update`. Every method is proved to move the object's abstract
 * state, `Model()`, exactly as the corresponding function of `TickerSpec`
 * does, so every property proved there holds of the object.
 */
module Tickers {
  import opened TickerSpec
  import opened TickerSteps

  class Ticker {
    // the listener nodes, in allocation order; a node's `next` is an index into it
    var nodes: seq<Listener>
    // false once `destroy` has dropped the sentinel head
    var hasHead: bool
    // the sentinel head's `next`
    var head: Link
    var started: bool
    const autoStart: bool
    const isProtected: bool

    // the nodes reachable from the head, in list order
    ghost var chain: seq<nat>
    // the invoked nodes, in invocation order
    ghost var fired: seq<nat>

    ghost function Model(): State
      reads this
    {
      State(nodes, chain, hasHead, started, autoStart, isProtected, fired)
    }

    ghost predicate Valid()
      reads this
    {
      TickerSpec.Valid(Model()) && head == First(Model())
    }

    /** `new Ticker()`: an empty, stopped, unprotected ticker. */
    constructor ()
      ensures Valid() && Model() == Fresh(false, false)
    {
      nodes, hasHead, head, started := [], true, Nil, false;
      autoStart, isProtected := false, false;
      chain, fired := [], [];
    }

    /** The `shared` and `system` singletons: auto-starting and protected from `destroy`. */
    constructor Shared()
      ensures Valid() && Model() == Fresh(true, true)
    {
      nodes, hasHead, head, started := [], true, Nil, false;
      autoStart, isProtected := true, true;
      chain, fired := [], [];
    }

    /** `count`: walk from the head's `next` to null, counting nodes; 0 without a head. */
    method Count() returns (n: nat)
      requires Valid()
      ensures n == TickerSpec.Count(Model())
    {
      if !hasHead {
        return 0;
      }
      var a, cur := nodes, head;
      n := 0;
      while cur.Ptr?
        invariant n <= |chain|
        invariant cur == if n < |chain| then Ptr(chain[n]) else Nil
        decreases |chain| - n
      {
        cur := a[cur.index].next;
        n := n + 1;
      }
    }

    method Start()
      requires Valid()
      modifies this
      ensures Valid() && Model() == StartTicker(old(Model()))
    {
      if hasHead {
        started := true;
      }
    }

    method Stop()
      requires Valid()
      modifies this
      ensures Valid() && Model() == StopTicker(old(Model()))
    {
      started := false;
    }

    /** `add(fn, null, priority)`. */
    method Add(fn: CallbackId, priority: int := NORMAL)
      requires Valid()
      modifies this
      ensures Valid() && Model() == Insert(old(Model()), fn, priority, false)
    {
      AddListener(fn, priority, false);
    }

    /** `addOnce(fn, null, priority)`. */
    method AddOnce(fn: CallbackId, priority: int := NORMAL)
      requires Valid()
      modifies this
      ensures Valid() && Model() == Insert(old(Model()), fn, priority, true)
    {
      AddListener(fn, priority, true);
    }

    /**
     * Walk from the head past every node whose priority is at least
     * `priority`, link a new node there, then start if auto-starting.
     */
    method AddListener(fn: CallbackId, priority: int, once: bool)
      requires Valid()
      modifies this
      ensures Valid() && Model() == Insert(old(Model()), fn, priority, once)
    {
      if !hasHead {
        return;
      }
      ghost var s := Model();
      var prev, cur := FindSlot(nodes, head, chain, priority);
      ghost var r := InsertAt(s, fn, priority, once, prev, cur);
      InsertKeepsInvariant(s, fn, priority, once);
      Commit(r, Spliced(nodes, prev, Listener(fn, priority, once, true, cur)), true,
             if prev.Ptr? then head else Ptr(|nodes|), started || autoStart);
    }

    /** `remove(fn)`: walk the list once, soft-destroying every node of `fn` as it is passed. */
    method Remove(fn: CallbackId)
      requires Valid()
      modifies this
      ensures Valid() && Model() == RemoveAll(old(Model()), fn)
    {
      if !hasHead {
        return;
      }
      ghost var s := Model();
      ghost var j := 0;
      var cur := head;
      while cur.Ptr?
        invariant j <= |s.chain| && Valid() && Model() == RemovePrefix(s, fn, j)
        invariant cur == if j < |s.chain| then Ptr(s.chain[j]) else Nil
        decreases |s.chain| - j
      {
        RemoveNext(s, fn, j);
        var c := cur.index;
        if nodes[c].fn == fn {
          cur := UnlinkNode(c, false);
        } else {
          cur := nodes[c].next;
        }
        j := j + 1;
      }
      RemovePrefixAll(s, fn);
    }

    /**
     * `destroy()`: inert on a protected ticker. Otherwise stop, hard-destroy
     * the nodes from the front until the list is empty, and drop the head.
     */
    method Destroy()
      requires Valid()
      modifies this
      ensures Valid() && Model() == DestroyTicker(old(Model()))
    {
      if isProtected || !hasHead {
        return;
      }
      ghost var s := Model();
      Stop();
      ghost var j := 0;
      var cur := head;
      while cur.Ptr?
        invariant j <= |s.chain| && Valid() && Model() == ClearPrefix(s, j)
        invariant cur == if j < |s.chain| then Ptr(s.chain[j]) else Nil
        decreases |s.chain| - j
      {
        cur, j := ClearNode(s, j, cur.index);
      }
      ClearPrefixAll(s);
      DestroyTickerValid(s);
      Commit(DestroyTicker(s), nodes, false, head, started);
    }

    /** One turn of the loop of `destroy`: hard-destroy the `j`-th node of the list `s` had. */
    method ClearNode(ghost s: State, ghost j: nat, c: nat) returns (next: Link, ghost k: nat)
      requires TickerSpec.Valid(s) && s.hasHead && j < |s.chain| && c == s.chain[j]
      requires Valid() && Model() == ClearPrefix(s, j)
      modifies this
      ensures k == j + 1 && Valid() && Model() == ClearPrefix(s, k)
      ensures next == if k < |s.chain| then Ptr(s.chain[k]) else Nil
    {
      k := j + 1;
      ClearPrefixNext(s, j, k);
      next := UnlinkNode(c, true);
    }

    /**
     * A listener's own `destroy`: unlink node `c` from behind its
     * predecessor (found by walking from the head) and deactivate it; a
     * hard destroy also nulls its `next`. On a node already destroyed only
     * the nulling applies, as `emit` does. Yields the node's `next` as it
     * was before the call.
     */
    method UnlinkNode(c: nat, hard: bool) returns (redirect: Link)
      requires Valid() && c < |nodes|
      modifies this
      ensures Valid() && Model() == Unlink(old(Model()), c, hard)
      ensures redirect == old(nodes[c].next)
    {
      ghost var s := Model();
      redirect := nodes[c].next;
      var next := if hard then Nil else redirect;
      UnlinkValid(s, c, hard);
      if nodes[c].live {
        var prev := FindPrev(nodes, head, chain, c);
        UnlinkAt(s, c, hard, prev);
        Commit(Unlink(s, c, hard), Cut(nodes, prev, c, next), hasHead, if prev.Ptr? then head else redirect, started);
      } else {
        Commit(Unlink(s, c, hard), nodes[c := nodes[c].(next := next)], hasHead, head, started);
      }
    }

    /**
     * `emit` of node `c`: run its callback if it is live (recording the
     * call), read its `next` afresh, then hard-destroy it if it is one-shot
     * or was destroyed during the call. Yields the node to visit next.
     */
    method EmitNode(c: nat, scripts: Scripts) returns (redirect: Link)
      requires Valid() && c < |nodes|
      modifies this
      ensures Valid() && Model() == Emit(old(Model()), scripts, c).0
      ensures redirect == Emit(old(Model()), scripts, c).1
    {
      if nodes[c].live {
        RecordValid(Model(), c);
        Commit(Model().(fired := fired + [c]), nodes, hasHead, head, started);
        Run(ScriptOf(scripts, nodes[c].fn));
      }
      redirect := nodes[c].next;
      if nodes[c].once || !nodes[c].live {
        var _ := UnlinkNode(c, true);
      }
    }

    /** A callback's body: its effects on this ticker, one after the other. */
    method Run(es: seq<Effect>)
      requires Valid()
      modifies this
      ensures Valid() && Model() == TickerSpec.RunScript(old(Model()), es)
    {
      for i := 0 to |es|
        invariant Valid() && TickerSpec.RunScript(Model(), es[i..]) == TickerSpec.RunScript(old(Model()), es)
      {
        assert es[i..][1..] == es[i + 1..];
        ApplyEffect(es[i]);
      }
      assert es[|es|..] == [];
    }

    /** One call a callback makes into its ticker. */
    method ApplyEffect(e: Effect)
      requires Valid()
      modifies this
      ensures Valid() && Model() == Apply(old(Model()), e)
    {
      match e
      case CallAdd(f, p) => Add(f, p);
      case CallAddOnce(f, p) => AddOnce(f, p);
      case CallRemove(f) => Remove(f);
      case CallStart => Start();
      case CallStop => Stop();
      case CallDestroy => Destroy();
    }

    /**
     * `update()`: emit the nodes from the head's `next` on, each `emit`
     * yielding the node to visit next, until null. `fuel` bounds the number
     * of nodes visited; `completed` says whether null was reached.
     */
    method Update(scripts: Scripts, fuel: nat) returns (completed: bool)
      requires Valid()
      modifies this
      ensures Valid() && (Model(), completed) == TickerSpec.Update(old(Model()), scripts, fuel)
    {
      if !hasHead {
        return true;
      }
      ghost var target := Walk(Model(), scripts, head, fuel);
      var cur, budget := head, fuel;
      while cur.Ptr? && budget > 0
        invariant Valid() && (cur.Ptr? ==> cur.index < |nodes|)
        invariant Walk(Model(), scripts, cur, budget) == target
        decreases budget
      {
        cur, budget := WalkNode(cur.index, scripts, budget, target);
      }
      WalkDone(Model(), scripts, cur, budget);
      completed := cur.Nil?;
    }

    /** One turn of the loop of `update`: emit node `c`, keeping the outcome of the tick unchanged. */
    method WalkNode(c: nat, scripts: Scripts, budget: nat, ghost target: (State, bool)) returns (next: Link, rest: nat)
      requires Valid() && c < |nodes| && budget > 0
      requires Walk(Model(), scripts, Ptr(c), budget) == target
      modifies this
      ensures Valid() && (next.Ptr? ==> next.index < |nodes|)
      ensures rest < budget && Walk(Model(), scripts, next, rest) == target
    {
      ghost var m := Model();
      next := EmitNode(c, scripts);
      rest := budget - 1;
      WalkStep(m, scripts, c, budget, rest, target, Model(), next);
    }

    /** Store the fields of the abstract state `r`. */
    method Commit(ghost r: State, a: seq<Listener>, hh: bool, h: Link, st: bool)
      requires TickerSpec.Valid(r) && h == First(r)
      requires r == State(a, r.chain, hh, st, autoStart, isProtected, r.fired)
      modifies this
      ensures Valid() && Model() == r
    {
      nodes, hasHead, head, started := a, hh, h, st;
      chain, fired := r.chain, r.fired;
    }
  }

  /**
   * The insertion point of `add`: the last node whose priority is at least
   * `p` (`Nil` for the head itself) and the node after it.
   */
  method FindSlot(a: seq<Listener>, head: Link, ghost ch: seq<nat>, p: int) returns (prev: Link, cur: Link)
    requires InArena(a, ch) && Linked(a, ch) && head == (if ch == [] then Nil else Ptr(ch[0]))
    ensures var k := InsertIndex(a, ch, p);
      && prev == (if k == 0 then Nil else Ptr(ch[k - 1]))
      && cur == (if k < |ch| then Ptr(ch[k]) else Nil)
  {
    prev, cur := Nil, head;
    ghost var j := 0;
    while cur.Ptr? && a[cur.index].priority >= p
      invariant j <= |ch|
      invariant cur == if j < |ch| then Ptr(ch[j]) else Nil
      invariant prev == if j == 0 then Nil else Ptr(ch[j - 1])
      invariant forall i :: 0 <= i < j ==> a[ch[i]].priority >= p
      decreases |ch| - j
    {
      assert a[ch[j]].next == Succ(ch, j);
      prev, cur := cur, a[cur.index].next;
      j := j + 1;
    }
    InsertIndexUnique(a, ch, p, j);
  }

  /**
   * The predecessor of the linked node `c`: the node before it in the
   * chain, or `Nil` when it follows the head.
   */
  method FindPrev(a: seq<Listener>, head: Link, ghost ch: seq<nat>, c: nat) returns (prev: Link)
    requires InArena(a, ch) && Sorted(a, ch) && Linked(a, ch) && c in ch
    requires head == (if ch == [] then Nil else Ptr(ch[0]))
    ensures var k := IndexOf(ch, c); prev == if k == 0 then Nil else Ptr(ch[k - 1])
  {
    ghost var k := IndexOf(ch, c);
    var cur := head;
    prev := Nil;
    ghost var j := 0;
    while cur.index != c
      invariant j <= k && cur == Ptr(ch[j])
      invariant prev == if j == 0 then Nil else Ptr(ch[j - 1])
      decreases k - j
    {
      assert a[ch[j]].next == Succ(ch, j);
      prev, cur := cur, a[cur.index].next;
      j := j + 1;
    }
    SortedIndexOf(a, ch, j);
  }

  /** The arena after unlinking node `c` from behind `prev` (the head when `Nil`), deactivated with `next` set. */
  function Cut(a: seq<Listener>, prev: Link, c: nat, next: Link): seq<Listener> {
    var b := if prev.Ptr? && prev.index < |a| && c < |a| then a[prev.index := a[prev.index].(next := a[c].next)] else a;
    if c < |b| then b[c := b[c].(live := false, next := next)] else b
  }

  /** `Unlink` of a live node in the terms `UnlinkNode` computes it: from the predecessor found by `FindPrev`. */
  lemma {:induction false} UnlinkAt(s: State, c: nat, hard: bool, prev: Link)
    requires TickerSpec.Valid(s) && c < |s.arena| && s.arena[c].live
    requires var k := IndexOf(s.chain, c); prev == if k == 0 then Nil else Ptr(s.chain[k - 1])
    ensures var r := Unlink(s, c, hard);
      && r.arena == Cut(s.arena, prev, c, if hard then Nil else s.arena[c].next)
      && First(r) == if prev.Ptr? then First(s) else s.arena[c].next
  {
    var k := IndexOf(s.chain, c);
    assert s.arena[c].next == Succ(s.chain, k);
    if k > 0 {
      assert Precedes(s.arena, s.chain[k - 1], c);
    }
  }

  /** One step of the traversal loop. */
  lemma {:induction false} WalkStep(s: State, scripts: Scripts, c: nat, fuel: nat, rest: nat, target: (State, bool), t: State, next: Link)
    requires TickerSpec.Valid(s) && c < |s.arena| && fuel == rest + 1
    requires Walk(s, scripts, Ptr(c), fuel) == target
    requires t == Emit(s, scripts, c).0 && next == Emit(s, scripts, c).1
    ensures TickerSpec.Valid(t) && (next.Ptr? ==> next.index < |t.arena|)
    ensures Walk(t, scripts, next, rest) == target
  {
  }

  /** The traversal loop has stopped: at null, or out of fuel. */
  lemma {:induction false} WalkDone(s: State, scripts: Scripts, cur: Link, fuel: nat)
    requires TickerSpec.Valid(s) && (cur.Ptr? ==> cur.index < |s.arena|)
    requires cur.Nil? || fuel == 0
    ensures Walk(s, scripts, cur, fuel) == (s, cur.Nil?)
  {
  }

  /** One step of the loop of `destroy`. */
  lemma {:induction false} ClearPrefixNext(s: State, j: nat, k: nat)
    requires TickerSpec.Valid(s) && s.hasHead && j < |s.chain| && k == j + 1
    ensures ClearPrefix(s, k) == Unlink(ClearPrefix(s, j), s.chain[j], true)
    ensures ClearPrefix(s, j).arena[s.chain[j]].next == if k < |s.chain| then Ptr(s.chain[k]) else Nil
  {
    ClearNext(s, j);
  }

  lemma {:induction false} InsertKeepsInvariant(s: State, f: CallbackId, p: int, once: bool)
    requires TickerSpec.Valid(s)
    ensures TickerSpec.Valid(Insert(s, f, p, once))
  {
    InsertValid(s, f, p, once);
  }

  /** The arena after linking `node` behind `prev` (the head when `prev` is `Nil`) and appending it. */
  function Spliced(a: seq<Listener>, prev: Link, node: Listener): seq<Listener> {
    (if prev.Ptr? && prev.index < |a| then a[prev.index := a[prev.index].(next := Ptr(|a|))] else a) + [node]
  }

  /** `Insert` in the terms `AddListener` computes it: from the slot found by `FindSlot`. */
  lemma {:induction false} InsertAt(s: State, f: CallbackId, p: int, once: bool, prev: Link, cur: Link) returns (r: State)
    requires InArena(s.arena, s.chain) && s.hasHead
    requires var k := InsertIndex(s.arena, s.chain, p);
      && prev == (if k == 0 then Nil else Ptr(s.chain[k - 1]))
      && cur == (if k < |s.chain| then Ptr(s.chain[k]) else Nil)
    ensures r == Insert(s, f, p, once)
    ensures r == State(Spliced(s.arena, prev, Listener(f, p, once, true, cur)),
                       r.chain, s.hasHead, s.started || s.autoStart, s.autoStart, s.isProtected, s.fired)
    ensures First(r) == if prev.Ptr? then First(s) else Ptr(|s.arena|)
  {
    r := Insert(s, f, p, once);
  }
}
