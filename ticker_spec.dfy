/**
 * Value-level semantics of the ticker: the per-frame callback scheduler.
 *
 * A ticker keeps its listeners in a sentinel-headed, singly linked list.
 * Nodes live in an arena (`arena`), indexed in registration order and never
 * reused; a node's `next` is either `Nil` (null) or the arena index of the
 * following node. `chain` lists the nodes reachable from the sentinel head,
 * in list order. A destroyed node (`live == false`) is unlinked but may keep
 * a stale `next`, which a traversal standing on it still follows.
 */
module TickerSpec {

  /** The named update priorities, highest first. */
  const INTERACTION: int := 50
  const HIGH: int := 25
  const NORMAL: int := 0
  const LOW: int := -25
  const UTILITY: int := -50

  /** Callbacks are bare identities; `remove` matches on them. */
  type CallbackId = nat

  /** A `next` reference: null, or the arena index of a listener node. */
  datatype Link = Nil | Ptr(index: nat)

  /** One registered callback. */
  datatype Listener = Listener(fn: CallbackId, priority: int, once: bool, live: bool, next: Link)

  /** What a callback does to its own ticker while it runs. */
  datatype Effect =
    | CallAdd(fn: CallbackId, priority: int)
    | CallAddOnce(fn: CallbackId, priority: int)
    | CallRemove(fn: CallbackId)
    | CallStart
    | CallStop
    | CallDestroy

  /** The effects each callback performs, in order, every time it is invoked. */
  type Scripts = map<CallbackId, seq<Effect>>

  /**
   * The whole observable state of one ticker. `hasHead` is false once the
   * sentinel head has been dropped by `destroy`; `fired` is the trace of
   * invoked nodes (arena indices), in invocation order.
   */
  datatype State = State(
    arena: seq<Listener>,
    chain: seq<nat>,
    hasHead: bool,
    started: bool,
    autoStart: bool,
    isProtected: bool,
    fired: seq<nat>)

  /** A newly constructed ticker: empty list, stopped. */
  function Fresh(autoStart: bool, isProtected: bool): State {
    State([], [], true, false, autoStart, isProtected, [])
  }

  /** The number of listeners reachable from the head (`count`). */
  function Count(s: State): nat {
    |s.chain|
  }

  /** The head's `next`. */
  function First(s: State): Link {
    if s.chain == [] then Nil else Ptr(s.chain[0])
  }

  function ScriptOf(scripts: Scripts, f: CallbackId): seq<Effect> {
    if f in scripts then scripts[f] else []
  }

  // ---------------------------------------------------------------------
  // The list invariant
  // ---------------------------------------------------------------------

  /**
   * The traversal order: higher priority first, and among equal priorities
   * the earlier registration first.
   */
  predicate Precedes(a: seq<Listener>, i: nat, j: nat)
    requires i < |a| && j < |a|
  {
    a[i].priority > a[j].priority || (a[i].priority == a[j].priority && i < j)
  }

  ghost predicate InArena(a: seq<Listener>, ch: seq<nat>) {
    forall k :: 0 <= k < |ch| ==> ch[k] < |a|
  }

  ghost predicate Distinct(ch: seq<nat>) {
    forall k, l :: 0 <= k < l < |ch| ==> ch[k] != ch[l]
  }

  ghost predicate Sorted(a: seq<Listener>, ch: seq<nat>)
    requires InArena(a, ch)
  {
    forall k, l {:trigger Precedes(a, ch[k], ch[l])} :: 0 <= k < l < |ch| ==> Precedes(a, ch[k], ch[l])
  }

  /** The link that follows position `k` of a chain. */
  function Succ(ch: seq<nat>, k: nat): Link
    requires k < |ch|
  {
    if k + 1 < |ch| then Ptr(ch[k + 1]) else Nil
  }

  /** Every node of `ch` points at the next node of `ch`, the last one at null. */
  ghost predicate Linked(a: seq<Listener>, ch: seq<nat>)
    requires InArena(a, ch)
  {
    forall k {:trigger a[ch[k]]} :: 0 <= k < |ch| ==> a[ch[k]].next == Succ(ch, k)
  }

  /** A `next` reference never points back in traversal order. */
  ghost predicate Forward(a: seq<Listener>, i: nat)
    requires i < |a|
  {
    a[i].next.Ptr? ==> a[i].next.index < |a| && Precedes(a, i, a[i].next.index)
  }

  ghost predicate Valid(s: State) {
    && InArena(s.arena, s.chain)
    && Sorted(s.arena, s.chain)
    && Linked(s.arena, s.chain)
    && (forall i :: 0 <= i < |s.arena| ==> (s.arena[i].live <==> i in s.chain))
    && (forall i :: 0 <= i < |s.arena| ==> Forward(s.arena, i))
    && (forall k :: 0 <= k < |s.fired| ==> s.fired[k] < |s.arena|)
    && (!s.hasHead ==> s.chain == [] && !s.started)
    && (s.isProtected ==> s.hasHead)
  }

  /** The registration data of a node: what never changes after `add`. */
  predicate Same(x: Listener, y: Listener) {
    x.fn == y.fn && x.priority == y.priority && x.once == y.once
  }

  /**
   * `r` is a later state of the ticker `s`: nodes are only appended, keep
   * their registration data, and a destroyed node is never revived.
   */
  ghost predicate Evolves(s: State, r: State) {
    && |s.arena| <= |r.arena|
    && (forall i :: 0 <= i < |s.arena| ==> Same(s.arena[i], r.arena[i]))
    && (forall i :: 0 <= i < |s.arena| && !s.arena[i].live ==> !r.arena[i].live)
    && r.autoStart == s.autoStart && r.isProtected == s.isProtected
    && (!s.hasHead ==> !r.hasHead)
  }

  lemma {:induction false} SortedDistinct(a: seq<Listener>, ch: seq<nat>)
    requires InArena(a, ch) && Sorted(a, ch)
    ensures Distinct(ch)
  {
    forall k, l | 0 <= k < l < |ch| ensures ch[k] != ch[l] {
      assert Precedes(a, ch[k], ch[l]);
    }
  }

  lemma {:induction false} PrefixTrans<T>(x: seq<T>, y: seq<T>, z: seq<T>)
    requires x <= y && y <= z
    ensures x <= z
  {
  }

  lemma {:induction false} EvolvesTrans(s: State, t: State, r: State)
    requires Evolves(s, t) && Evolves(t, r)
    ensures Evolves(s, r)
  {
    forall i | 0 <= i < |s.arena| ensures Same(s.arena[i], r.arena[i]) {
      assert Same(t.arena[i], r.arena[i]);
    }
  }

  // ---------------------------------------------------------------------
  // Chain helpers
  // ---------------------------------------------------------------------

  /**
   * Where `add` links a node of priority `p`: after every node whose
   * priority is at least `p`, before the first node of lower priority.
   */
  function InsertIndex(a: seq<Listener>, ch: seq<nat>, p: int): (k: nat)
    requires InArena(a, ch)
    ensures k <= |ch|
    ensures forall j :: 0 <= j < k ==> a[ch[j]].priority >= p
    ensures k < |ch| ==> a[ch[k]].priority < p
  {
    if ch == [] || p > a[ch[0]].priority then 0 else 1 + InsertIndex(a, ch[1..], p)
  }

  function IndexOf(ch: seq<nat>, x: nat): (k: nat)
    requires x in ch
    ensures k < |ch| && ch[k] == x
  {
    if ch[0] == x then 0 else 1 + IndexOf(ch[1..], x)
  }

  /** The nodes of `ch` not registered with callback `f`, in chain order. */
  function Without(a: seq<Listener>, ch: seq<nat>, f: CallbackId): (r: seq<nat>)
    requires InArena(a, ch)
    ensures InArena(a, r) && |r| <= |ch|
    ensures forall x {:trigger x in r} :: x in r <==> x in ch && a[x].fn != f
  {
    if ch == [] then []
    else
      var rest := Without(a, ch[1..], f);
      assert forall x :: x in ch[1..] ==> x in ch;
      if a[ch[0]].fn != f then [ch[0]] + rest else rest
  }

  /** Filtering a sorted chain leaves it sorted. */
  lemma {:induction false} WithoutSorted(a: seq<Listener>, ch: seq<nat>, f: CallbackId)
    requires InArena(a, ch) && Sorted(a, ch)
    ensures Sorted(a, Without(a, ch, f))
    decreases |ch|
  {
    if ch != [] {
      var rest := Without(a, ch[1..], f);
      WithoutSorted(a, ch[1..], f);
      if a[ch[0]].fn != f {
        forall j | 0 <= j < |rest| ensures Precedes(a, ch[0], rest[j]) {
          assert rest[j] in rest;
          var m := IndexOf(ch[1..], rest[j]);
          assert ch[1..][m] == ch[m + 1];
        }
        var r := [ch[0]] + rest;
        forall j, l | 0 <= j < l < |r| ensures Precedes(a, r[j], r[l]) {
          if j > 0 { assert Precedes(a, rest[j - 1], rest[l - 1]); }
        }
      }
    }
  }

  /** `InsertIndex` is the only position with its two defining properties. */
  lemma {:induction false} InsertIndexUnique(a: seq<Listener>, ch: seq<nat>, p: int, j: nat)
    requires InArena(a, ch) && j <= |ch|
    requires forall i :: 0 <= i < j ==> a[ch[i]].priority >= p
    requires j < |ch| ==> a[ch[j]].priority < p
    ensures j == InsertIndex(a, ch, p)
    decreases |ch|
  {
    if ch != [] && p <= a[ch[0]].priority {
      assert j > 0;
      InsertIndexUnique(a, ch[1..], p, j - 1);
    }
  }

  /** In a chain without repetitions, `IndexOf` finds the one position holding `x`. */
  lemma {:induction false} IndexOfDistinct(ch: seq<nat>, k: nat)
    requires Distinct(ch) && k < |ch|
    ensures IndexOf(ch, ch[k]) == k
    decreases |ch|
  {
    if k > 0 {
      assert ch[0] != ch[k];
      assert ch[1..][k - 1] == ch[k];
      IndexOfDistinct(ch[1..], k - 1);
    }
  }

  /** In a sorted chain, `IndexOf` finds the one position holding `ch[k]`. */
  lemma {:induction false} SortedIndexOf(a: seq<Listener>, ch: seq<nat>, k: nat)
    requires InArena(a, ch) && Sorted(a, ch) && k < |ch|
    ensures IndexOf(ch, ch[k]) == k
  {
    var m := IndexOf(ch, ch[k]);
    assert m < k ==> Precedes(a, ch[m], ch[k]);
    assert k < m ==> Precedes(a, ch[k], ch[m]);
  }

  /** Filtering distributes over appending one more node. */
  lemma {:induction false} WithoutSnoc(a: seq<Listener>, ch: seq<nat>, x: nat, f: CallbackId)
    requires InArena(a, ch) && x < |a|
    ensures InArena(a, ch + [x])
    ensures Without(a, ch + [x], f) == Without(a, ch, f) + (if a[x].fn != f then [x] else [])
    decreases |ch|
  {
    if ch != [] {
      assert (ch + [x])[1..] == ch[1..] + [x];
      WithoutSnoc(a, ch[1..], x, f);
    }
  }

  /**
   * Points every node of `ch` at its successor in `ch` (the last one at
   * null) and leaves every other node as it is.
   */
  function Relink(a: seq<Listener>, ch: seq<nat>): (r: seq<Listener>)
    requires InArena(a, ch) && Distinct(ch)
    ensures |r| == |a|
    ensures forall i :: 0 <= i < |a| ==> r[i] == a[i].(next := r[i].next)
    ensures forall i :: 0 <= i < |a| && i !in ch ==> r[i] == a[i]
    ensures InArena(r, ch) && Linked(r, ch)
    decreases |ch|
  {
    if ch == [] then a
    else
      var a' := a[ch[0] := a[ch[0]].(next := Succ(ch, 0))];
      var r := Relink(a', ch[1..]);
      assert ch[0] !in ch[1..];
      assert forall k :: 1 <= k < |ch| ==> ch[k] == ch[1..][k - 1] && Succ(ch, k) == Succ(ch[1..], k - 1);
      r
  }

  /** Two arenas that differ from `a` only in the links of `ch` and are both linked along `ch` are equal. */
  lemma {:induction false} LinkedUnique(x: seq<Listener>, y: seq<Listener>, a: seq<Listener>, ch: seq<nat>)
    requires |x| == |a| && |y| == |a| && InArena(a, ch)
    requires forall i :: 0 <= i < |a| ==> x[i] == a[i].(next := x[i].next) && y[i] == a[i].(next := y[i].next)
    requires forall i :: 0 <= i < |a| && i !in ch ==> x[i] == a[i] && y[i] == a[i]
    requires Linked(x, ch) && Linked(y, ch)
    ensures x == y
  {
    forall i | 0 <= i < |a| ensures x[i] == y[i] {
      if i in ch {
        var k := IndexOf(ch, i);
        assert x[ch[k]].next == y[ch[k]].next;
      }
    }
  }

  /** `remove`'s soft destroy: every live node of callback `f` is deactivated, its `next` kept. */
  function Deactivate(a: seq<Listener>, f: CallbackId): (r: seq<Listener>)
  {
    seq(|a|, i requires 0 <= i < |a| => if a[i].live && a[i].fn == f then a[i].(live := false) else a[i])
  }

  /** `destroy`'s hard destroy of every live node: deactivated and `next` nulled. */
  function DeactivateAll(a: seq<Listener>): (r: seq<Listener>)
  {
    seq(|a|, i requires 0 <= i < |a| => if a[i].live then a[i].(live := false, next := Nil) else a[i])
  }

  // ---------------------------------------------------------------------
  // Operations
  // ---------------------------------------------------------------------

  /**
   * `add` / `addOnce`: link a new node after the last node whose priority is
   * at least `p`; then start the ticker if it is stopped and auto-starting.
   */
  function Insert(s: State, f: CallbackId, p: int, once: bool): State
    requires InArena(s.arena, s.chain)
  {
    if !s.hasHead then s
    else
      var id := |s.arena|;
      var k := InsertIndex(s.arena, s.chain, p);
      var a := if k == 0 then s.arena
               else s.arena[s.chain[k - 1] := s.arena[s.chain[k - 1]].(next := Ptr(id))];
      var node := Listener(f, p, once, true, if k < |s.chain| then Ptr(s.chain[k]) else Nil);
      s.(arena := a + [node], chain := s.chain[..k] + [id] + s.chain[k..],
         started := s.started || s.autoStart)
  }

  /** `remove(f)`: unlink and deactivate every linked node of callback `f`. */
  function RemoveAll(s: State, f: CallbackId): State
    requires Valid(s)
  {
    if !s.hasHead then s
    else
      var ch := Without(s.arena, s.chain, f);
      WithoutSorted(s.arena, s.chain, f);
      SortedDistinct(s.arena, ch);
      s.(arena := Relink(Deactivate(s.arena, f), ch), chain := ch)
  }

  /**
   * A listener's own destroy: unlink node `c` if it is still linked and
   * deactivate it. A soft destroy (`remove`) keeps the node's `next`, so a
   * traversal standing on it can still move on; a hard destroy (`emit` after
   * a one-shot call or after the node was destroyed during its call, and
   * `destroy` of the ticker) nulls it.
   */
  function Unlink(s: State, c: nat, hard: bool): State
    requires Valid(s) && c < |s.arena|
  {
    var next := if hard then Nil else s.arena[c].next;
    if s.arena[c].live then
      var k := IndexOf(s.chain, c);
      var a := if k == 0 then s.arena
               else s.arena[s.chain[k - 1] := s.arena[s.chain[k - 1]].(next := s.arena[c].next)];
      s.(arena := a[c := a[c].(live := false, next := next)], chain := s.chain[..k] + s.chain[k + 1..])
    else
      s.(arena := s.arena[c := s.arena[c].(next := next)])
  }

  /** `destroy`: inert on a protected ticker; otherwise stop, hard-destroy every node and drop the head. */
  function DestroyTicker(s: State): State {
    if s.isProtected || !s.hasHead then s
    else s.(arena := DeactivateAll(s.arena), chain := [], hasHead := false, started := false)
  }

  function StartTicker(s: State): State {
    if s.hasHead then s.(started := true) else s
  }

  function StopTicker(s: State): State {
    s.(started := false)
  }

  // ---------------------------------------------------------------------
  // Validity of the operations
  // ---------------------------------------------------------------------

  lemma {:induction false} SpliceAt(c: seq<nat>, k: nat, x: nat, j: nat)
    requires k <= |c| && j <= |c|
    ensures |c[..k] + [x] + c[k..]| == |c| + 1
    ensures (c[..k] + [x] + c[k..])[j] == if j < k then c[j] else if j == k then x else c[j - 1]
  {
  }

  lemma {:induction false} CutAt(c: seq<nat>, k: nat, j: nat)
    requires k < |c| && j + 1 < |c|
    ensures |c[..k] + c[k + 1..]| == |c| - 1
    ensures (c[..k] + c[k + 1..])[j] == if j < k then c[j] else c[j + 1]
  {
  }

  lemma {:induction false} CutMembers(c: seq<nat>, k: nat)
    requires k < |c|
    ensures forall y :: y in c[..k] + c[k + 1..] ==> y in c
    ensures forall y :: y in c && y != c[k] ==> y in c[..k] + c[k + 1..]
  {
    assert c == c[..k] + [c[k]] + c[k + 1..];
  }

  lemma {:induction false} InsertSorted(a: seq<Listener>, b: seq<Listener>, c: seq<nat>, k: nat, p: int)
    requires InArena(a, c) && Sorted(a, c) && k <= |c|
    requires |b| == |a| + 1 && b[|a|].priority == p
    requires forall i :: 0 <= i < |a| ==> b[i].priority == a[i].priority
    requires forall j :: 0 <= j < k ==> a[c[j]].priority >= p
    requires k < |c| ==> a[c[k]].priority < p
    ensures InArena(b, c[..k] + [|a|] + c[k..]) && Sorted(b, c[..k] + [|a|] + c[k..])
  {
    var id := |a|;
    var rc := c[..k] + [id] + c[k..];
    forall j | k <= j < |c| ensures a[c[j]].priority < p {
      if j > k { assert Precedes(a, c[k], c[j]); }
    }
    forall j, l | 0 <= j < l < |rc| ensures Precedes(b, rc[j], rc[l]) {
      SpliceAt(c, k, id, j);
      SpliceAt(c, k, id, l);
      if l < k {
        assert Precedes(a, c[j], c[l]);
      } else if j > k {
        assert Precedes(a, c[j - 1], c[l - 1]);
      } else if j < k && l > k {
        assert Precedes(a, c[j], c[l - 1]);
      }
    }
  }

  lemma {:induction false} InsertLinked(a: seq<Listener>, b: seq<Listener>, c: seq<nat>, k: nat)
    requires InArena(a, c) && Distinct(c) && Linked(a, c) && k <= |c|
    requires |b| == |a| + 1
    requires b[|a|].next == (if k < |c| then Ptr(c[k]) else Nil)
    requires k > 0 ==> b[c[k - 1]].next == Ptr(|a|)
    requires forall i :: 0 <= i < |a| && !(k > 0 && i == c[k - 1]) ==> b[i].next == a[i].next
    ensures InArena(b, c[..k] + [|a|] + c[k..]) && Linked(b, c[..k] + [|a|] + c[k..])
  {
    var id := |a|;
    var rc := c[..k] + [id] + c[k..];
    forall j | 0 <= j < |rc| ensures b[rc[j]].next == Succ(rc, j) {
      SpliceAt(c, k, id, j);
      if j + 1 < |rc| { SpliceAt(c, k, id, j + 1); }
      if j < k - 1 {
        assert a[c[j]].next == Succ(c, j);
        assert c[j] != c[k - 1];
      } else if j > k {
        assert a[c[j - 1]].next == Succ(c, j - 1);
        assert k > 0 ==> c[j - 1] != c[k - 1];
      }
    }
  }

  /** A node whose link and priorities are unchanged stays forward in a larger arena. */
  lemma {:induction false} ForwardFrame(a: seq<Listener>, b: seq<Listener>, i: nat)
    requires i < |a| <= |b| && Forward(a, i) && b[i].next == a[i].next
    requires forall j :: 0 <= j < |a| ==> b[j].priority == a[j].priority
    ensures Forward(b, i)
  {
  }

  /** A linked, sorted chain only points forward. */
  lemma {:induction false} ChainForward(a: seq<Listener>, ch: seq<nat>, k: nat)
    requires InArena(a, ch) && Sorted(a, ch) && Linked(a, ch) && k < |ch|
    ensures Forward(a, ch[k])
  {
    assert a[ch[k]].next == Succ(ch, k);
    if k + 1 < |ch| { assert Precedes(a, ch[k], ch[k + 1]); }
  }

  lemma {:induction false} SpliceMembers(c: seq<nat>, k: nat, x: nat)
    requires k <= |c|
    ensures forall y :: y in c[..k] + [x] + c[k..] <==> y in c || y == x
  {
    assert c == c[..k] + c[k..];
  }

  /** What `Insert` does to the arena and the chain, position by position. */
  lemma {:induction false} InsertShape(s: State, f: CallbackId, p: int, once: bool)
    requires Valid(s) && s.hasHead
    ensures var r, k, id := Insert(s, f, p, once), InsertIndex(s.arena, s.chain, p), |s.arena|;
      && |r.arena| == id + 1
      && r.arena[id] == Listener(f, p, once, true, if k < |s.chain| then Ptr(s.chain[k]) else Nil)
      && r.chain == s.chain[..k] + [id] + s.chain[k..]
      && (forall i :: 0 <= i < id ==>
            r.arena[i] == (if k > 0 && i == s.chain[k - 1] then s.arena[i].(next := Ptr(id)) else s.arena[i]))
  {
  }

  lemma {:induction false} InsertValid(s: State, f: CallbackId, p: int, once: bool)
    requires Valid(s)
    ensures Valid(Insert(s, f, p, once)) && Evolves(s, Insert(s, f, p, once))
    ensures Insert(s, f, p, once).fired == s.fired
  {
    if s.hasHead {
      InsertShape(s, f, p, once);
      InsertKeepsValid(s, Insert(s, f, p, once), InsertIndex(s.arena, s.chain, p), p);
    }
  }

  /** The validity argument for `Insert`, stated on its shape alone. */
  lemma {:induction false} InsertKeepsValid(s: State, r: State, k: nat, p: int)
    requires Valid(s) && s.hasHead && r.hasHead
    requires r == s.(arena := r.arena, chain := r.chain, started := r.started)
    requires k <= |s.chain|
    requires forall j :: 0 <= j < k ==> s.arena[s.chain[j]].priority >= p
    requires k < |s.chain| ==> s.arena[s.chain[k]].priority < p
    requires |r.arena| == |s.arena| + 1 && r.arena[|s.arena|].priority == p && r.arena[|s.arena|].live
    requires r.arena[|s.arena|].next == if k < |s.chain| then Ptr(s.chain[k]) else Nil
    requires r.chain == s.chain[..k] + [|s.arena|] + s.chain[k..]
    requires forall i :: 0 <= i < |s.arena| ==>
               r.arena[i] == (if k > 0 && i == s.chain[k - 1] then s.arena[i].(next := Ptr(|s.arena|)) else s.arena[i])
    ensures Valid(r) && Evolves(s, r)
  {
    var c := s.chain;
    var id := |s.arena|;
    SortedDistinct(s.arena, c);
    InsertSorted(s.arena, r.arena, c, k, p);
    InsertLinked(s.arena, r.arena, c, k);
    SpliceMembers(c, k, id);
    forall i | 0 <= i < |r.arena| ensures r.arena[i].live <==> i in r.chain {
      if i < id {
        assert s.arena[i].live <==> i in c;
      }
    }
    forall i | 0 <= i < |r.arena| ensures Forward(r.arena, i) {
      if i == id || (k > 0 && i == c[k - 1]) {
        assert r.arena[i].priority >= p;
      } else {
        ForwardFrame(s.arena, r.arena, i);
      }
    }
    forall i | 0 <= i < |s.arena| ensures Same(s.arena[i], r.arena[i]) {
    }
  }

  lemma {:induction false} RemoveAllValid(s: State, f: CallbackId)
    requires Valid(s)
    ensures Valid(RemoveAll(s, f)) && Evolves(s, RemoveAll(s, f))
    ensures RemoveAll(s, f).fired == s.fired
  {
    if s.hasHead {
      var r := RemoveAll(s, f);
      var ch := Without(s.arena, s.chain, f);
      var d := Deactivate(s.arena, f);
      WithoutSorted(s.arena, s.chain, f);
      SortedDistinct(s.arena, ch);
      assert r.chain == ch && r.arena == Relink(d, ch);
      forall i | 0 <= i < |s.arena|
        ensures r.arena[i] == s.arena[i].(live := s.arena[i].live && s.arena[i].fn != f, next := r.arena[i].next)
        ensures i !in ch ==> r.arena[i].next == s.arena[i].next
      {
        assert r.arena[i] == d[i].(next := r.arena[i].next);
      }
      RemoveKeepsValid(s, r, f);
    }
  }

  /** The validity argument for `RemoveAll`, stated on its shape alone. */
  lemma {:induction false} RemoveKeepsValid(s: State, r: State, f: CallbackId)
    requires Valid(s) && s.hasHead && r == s.(arena := r.arena, chain := r.chain)
    requires InArena(s.arena, r.chain) && Sorted(s.arena, r.chain)
    requires forall x :: x in r.chain <==> x in s.chain && s.arena[x].fn != f
    requires |r.arena| == |s.arena| && InArena(r.arena, r.chain) && Linked(r.arena, r.chain)
    requires forall i :: 0 <= i < |s.arena| ==>
               r.arena[i] == s.arena[i].(live := s.arena[i].live && s.arena[i].fn != f, next := r.arena[i].next)
    requires forall i :: 0 <= i < |s.arena| && i !in r.chain ==> r.arena[i].next == s.arena[i].next
    ensures Valid(r) && Evolves(s, r)
  {
    var ch := r.chain;
    forall j, l | 0 <= j < l < |ch| ensures Precedes(r.arena, ch[j], ch[l]) {
      assert Precedes(s.arena, ch[j], ch[l]);
    }
    forall i | 0 <= i < |r.arena| ensures r.arena[i].live <==> i in ch {
      assert s.arena[i].live <==> i in s.chain;
    }
    forall i | 0 <= i < |r.arena| ensures Forward(r.arena, i) {
      if i in ch {
        ChainForward(r.arena, ch, IndexOf(ch, i));
      } else {
        ForwardFrame(s.arena, r.arena, i);
      }
    }
    forall i | 0 <= i < |s.arena| ensures Same(s.arena[i], r.arena[i]) {
    }
  }

  lemma {:induction false} CutLinked(a: seq<Listener>, b: seq<Listener>, c: seq<nat>, k: nat)
    requires InArena(a, c) && Distinct(c) && Linked(a, c) && k < |c| && |b| == |a|
    requires k > 0 ==> b[c[k - 1]].next == Succ(c, k)
    requires forall i :: 0 <= i < |a| && i != c[k] && !(k > 0 && i == c[k - 1]) ==> b[i].next == a[i].next
    ensures InArena(b, c[..k] + c[k + 1..]) && Linked(b, c[..k] + c[k + 1..])
  {
    var rc := c[..k] + c[k + 1..];
    forall j | 0 <= j < |rc| ensures b[rc[j]].next == Succ(rc, j) {
      CutAt(c, k, j);
      if j + 1 < |rc| { CutAt(c, k, j + 1); }
      if j < k - 1 {
        assert a[c[j]].next == Succ(c, j);
        assert c[j] != c[k - 1] && c[j] != c[k];
      } else if j >= k {
        assert a[c[j + 1]].next == Succ(c, j + 1);
        assert c[j + 1] != c[k] && (k > 0 ==> c[j + 1] != c[k - 1]);
      }
    }
  }

  lemma {:induction false} CutSorted(a: seq<Listener>, b: seq<Listener>, c: seq<nat>, k: nat)
    requires InArena(a, c) && Sorted(a, c) && k < |c| && |b| == |a|
    requires forall i :: 0 <= i < |a| ==> b[i].priority == a[i].priority
    ensures InArena(b, c[..k] + c[k + 1..]) && Sorted(b, c[..k] + c[k + 1..])
  {
    var rc := c[..k] + c[k + 1..];
    forall j, l | 0 <= j < l < |rc| ensures Precedes(b, rc[j], rc[l]) {
      CutAt(c, k, j);
      CutAt(c, k, l);
      var j', l' := if j < k then j else j + 1, if l < k then l else l + 1;
      assert Precedes(a, c[j'], c[l']);
    }
  }

  lemma {:induction false} UnlinkValid(s: State, c: nat, hard: bool)
    requires Valid(s) && c < |s.arena|
    ensures Valid(Unlink(s, c, hard)) && Evolves(s, Unlink(s, c, hard))
    ensures Unlink(s, c, hard).fired == s.fired
  {
    if s.arena[c].live { UnlinkLinkedValid(s, c, hard); } else { UnlinkUnlinkedValid(s, c, hard); }
  }

  lemma {:induction false} UnlinkLinkedValid(s: State, c: nat, hard: bool)
    requires Valid(s) && c < |s.arena| && s.arena[c].live
    ensures Valid(Unlink(s, c, hard)) && Evolves(s, Unlink(s, c, hard))
    ensures Unlink(s, c, hard).fired == s.fired
  {
    var r, ch := Unlink(s, c, hard), s.chain;
    var k := IndexOf(ch, c);
    var next := if hard then Nil else s.arena[c].next;
    assert s.arena[c].next == Succ(ch, k);
    var a := if k == 0 then s.arena else s.arena[ch[k - 1] := s.arena[ch[k - 1]].(next := Succ(ch, k))];
    assert r.arena == a[c := a[c].(live := false, next := next)];
    if k > 0 { assert Precedes(s.arena, ch[k - 1], c); }
    forall i | 0 <= i < |s.arena|
      ensures r.arena[i] == (if i == c then s.arena[i].(live := false, next := next)
                             else if k > 0 && i == ch[k - 1] then s.arena[i].(next := Succ(ch, k))
                             else s.arena[i])
    {
    }
    UnlinkKeepsValid(s, r, k, next);
  }

  /** The validity argument for unlinking the node at chain position `k`, stated on its shape alone. */
  lemma {:induction false} UnlinkKeepsValid(s: State, r: State, k: nat, next: Link)
    requires Valid(s) && k < |s.chain|
    requires next == Nil || next == s.arena[s.chain[k]].next
    requires r == s.(arena := r.arena, chain := r.chain)
    requires r.chain == s.chain[..k] + s.chain[k + 1..]
    requires |r.arena| == |s.arena|
    requires forall i :: 0 <= i < |s.arena| ==>
               r.arena[i] == (if i == s.chain[k] then s.arena[i].(live := false, next := next)
                              else if k > 0 && i == s.chain[k - 1] then s.arena[i].(next := Succ(s.chain, k))
                              else s.arena[i])
    ensures Valid(r) && Evolves(s, r)
  {
    var ch := s.chain;
    var c := ch[k];
    SortedDistinct(s.arena, ch);
    CutSorted(s.arena, r.arena, ch, k);
    CutLinked(s.arena, r.arena, ch, k);
    CutMembers(ch, k);
    forall i | 0 <= i < |r.arena| ensures r.arena[i].live <==> i in r.chain {
      assert s.arena[i].live <==> i in ch;
    }
    forall i | 0 <= i < |r.arena| ensures Forward(r.arena, i) {
      if k > 0 && i == ch[k - 1] {
        if k + 1 < |ch| { assert Precedes(s.arena, ch[k - 1], ch[k + 1]); }
      } else if r.arena[i].next == s.arena[i].next {
        ForwardFrame(s.arena, r.arena, i);
      }
    }
    forall i | 0 <= i < |s.arena| ensures Same(s.arena[i], r.arena[i]) {
    }
  }

  lemma {:induction false} UnlinkUnlinkedValid(s: State, c: nat, hard: bool)
    requires Valid(s) && c < |s.arena| && !s.arena[c].live
    ensures Valid(Unlink(s, c, hard)) && Evolves(s, Unlink(s, c, hard))
    ensures Unlink(s, c, hard).fired == s.fired
  {
    var r := Unlink(s, c, hard);
    var ch := s.chain;
    assert c !in ch;
    forall j, l | 0 <= j < l < |ch| ensures Precedes(r.arena, ch[j], ch[l]) {
      assert Precedes(s.arena, ch[j], ch[l]);
    }
    forall j | 0 <= j < |ch| ensures r.arena[ch[j]].next == Succ(ch, j) {
      assert s.arena[ch[j]].next == Succ(ch, j);
    }
    forall i | 0 <= i < |r.arena| ensures Forward(r.arena, i) {
      if r.arena[i].next == s.arena[i].next { ForwardFrame(s.arena, r.arena, i); }
    }
    assert Valid(r);
    forall i | 0 <= i < |s.arena| ensures Same(s.arena[i], r.arena[i]) {
    }
  }

  lemma {:induction false} DestroyTickerValid(s: State)
    requires Valid(s)
    ensures Valid(DestroyTicker(s)) && Evolves(s, DestroyTicker(s))
    ensures DestroyTicker(s).fired == s.fired
  {
    var r := DestroyTicker(s);
    if !(s.isProtected || !s.hasHead) {
      forall i | 0 <= i < |r.arena| ensures Forward(r.arena, i) {
        if !s.arena[i].live { assert Forward(s.arena, i); }
      }
    }
  }

  // ---------------------------------------------------------------------
  // Callbacks and the tick
  // ---------------------------------------------------------------------

  /** One call a callback makes into its ticker. */
  function Apply(s: State, e: Effect): (r: State)
    requires Valid(s)
    ensures Valid(r) && Evolves(s, r) && r.fired == s.fired
  {
    match e
    case CallAdd(f, p) => InsertValid(s, f, p, false); Insert(s, f, p, false)
    case CallAddOnce(f, p) => InsertValid(s, f, p, true); Insert(s, f, p, true)
    case CallRemove(f) => RemoveAllValid(s, f); RemoveAll(s, f)
    case CallStart => StartTicker(s)
    case CallStop => StopTicker(s)
    case CallDestroy => DestroyTickerValid(s); DestroyTicker(s)
  }

  /** A callback's whole body: its effects, one after the other. */
  function RunScript(s: State, es: seq<Effect>): (r: State)
    requires Valid(s)
    ensures Valid(r) && Evolves(s, r) && r.fired == s.fired
    decreases |es|
  {
    if es == [] then s
    else
      var t := Apply(s, es[0]);
      var r := RunScript(t, es[1..]);
      EvolvesTrans(s, t, r);
      r
  }

  /** The call part of `emit`: a live node's callback runs and is recorded; a dead one is skipped. */
  function Invoke(s: State, scripts: Scripts, c: nat): (r: State)
    requires Valid(s) && c < |s.arena|
    ensures Valid(r) && Evolves(s, r)
    ensures r.fired == s.fired + (if s.arena[c].live then [c] else [])
  {
    if s.arena[c].live then RunScript(s.(fired := s.fired + [c]), ScriptOf(scripts, s.arena[c].fn))
    else s
  }

  /** The clean-up part of `emit`: a one-shot node, or one destroyed during its call, is hard-destroyed. */
  function Retire(s: State, c: nat): (r: State)
    requires Valid(s) && c < |s.arena|
    ensures Valid(r) && Evolves(s, r) && r.fired == s.fired
  {
    if s.arena[c].once || !s.arena[c].live then UnlinkValid(s, c, true); Unlink(s, c, true)
    else s
  }

  /** Recording a call of node `c` keeps the invariant. */
  lemma {:induction false} RecordValid(s: State, c: nat)
    requires Valid(s) && c < |s.arena|
    ensures Valid(s.(fired := s.fired + [c]))
  {
  }

  /**
   * `emit` of node `c`: invoke it if it is live, read its `next` afresh
   * after the call, then hard-destroy it if it is one-shot or was destroyed
   * during the call. Yields the new state and the node to visit next.
   */
  function Emit(s: State, scripts: Scripts, c: nat): (res: (State, Link))
    requires Valid(s) && c < |s.arena|
    ensures Valid(res.0) && Evolves(s, res.0)
    ensures res.0.fired == s.fired + (if s.arena[c].live then [c] else [])
    ensures res.1.Ptr? ==> res.1.index < |res.0.arena| && Precedes(res.0.arena, c, res.1.index)
  {
    var s1 := Invoke(s, scripts, c);
    assert Forward(s1.arena, c);
    var s2 := Retire(s1, c);
    EvolvesTrans(s, s1, s2);
    (s2, s1.arena[c].next)
  }

  /**
   * The traversal loop of `update`, from node `cur`. `fuel` bounds the
   * number of nodes visited; the flag says whether the walk reached null.
   */
  function Walk(s: State, scripts: Scripts, cur: Link, fuel: nat): (res: (State, bool))
    requires Valid(s) && (cur.Ptr? ==> cur.index < |s.arena|)
    ensures Valid(res.0) && Evolves(s, res.0)
    ensures s.fired <= res.0.fired
    decreases fuel
  {
    if cur == Nil then (s, true)
    else if fuel == 0 then (s, false)
    else
      var e := Emit(s, scripts, cur.index);
      var res := Walk(e.0, scripts, e.1, fuel - 1);
      EvolvesTrans(s, e.0, res.0);
      PrefixTrans(s.fired, e.0.fired, res.0.fired);
      res
  }

  /** `update`: one tick over the list, starting after the head. */
  function Update(s: State, scripts: Scripts, fuel: nat): (res: (State, bool))
    requires Valid(s)
    ensures Valid(res.0) && Evolves(s, res.0)
  {
    if !s.hasHead then (s, true) else Walk(s, scripts, First(s), fuel)
  }
}
