/**
 * What the ticker promises, stated on its value-level semantics.
 *
 * Each lemma here holds for every valid state, not just for one run:
 * where a listener lands when it is added, what `remove` and `destroy`
 * leave behind, and how far one tick (`update`) gets when its callbacks
 * change the list under it.
 */
module TickerLaws {
  import opened TickerSpec

  // ---------------------------------------------------------------------
  // add / addOnce
  // ---------------------------------------------------------------------

  /**
   * Where `add` leaves the new node `id` of callback `f` in `r`: linked
   * exactly once, after every node of priority at least `p` and before
   * every node of lower priority, with the other nodes of `s` in their old
   * order around it.
   */
  ghost predicate Placed(s: State, r: State, f: CallbackId, p: int, once: bool)
  {
    && InArena(s.arena, s.chain) && InArena(r.arena, r.chain)
    && var id := |s.arena|;
      && |r.arena| == id + 1 && Same(r.arena[id], Listener(f, p, once, true, Nil)) && r.arena[id].live
      && id in r.chain
      && var m := IndexOf(r.chain, id);
        && r.chain[..m] + r.chain[m + 1..] == s.chain
        && (forall k :: 0 <= k < m ==> r.arena[r.chain[k]].priority >= p)
        && (forall k :: m < k < |r.chain| ==> r.arena[r.chain[k]].priority < p)
  }

  /**
   * `add` links exactly one new node, holding the callback, its priority
   * and its once flag, where `Placed` says; an auto-starting ticker starts.
   */
  lemma {:induction false} InsertPlacement(s: State, f: CallbackId, p: int, once: bool)
    requires Valid(s) && s.hasHead
    ensures Count(Insert(s, f, p, once)) == Count(s) + 1
    ensures Insert(s, f, p, once).started == (s.started || s.autoStart)
    ensures Placed(s, Insert(s, f, p, once), f, p, once)
  {
    InsertShape(s, f, p, once);
    InsertValid(s, f, p, once);
    var k := InsertIndex(s.arena, s.chain, p);
    PlacedAt(s, Insert(s, f, p, once), f, p, once, k);
  }

  /** `Placed`, from the shape `InsertShape` gives. */
  lemma {:induction false} PlacedAt(s: State, r: State, f: CallbackId, p: int, once: bool, k: nat)
    requires InArena(s.arena, s.chain) && Sorted(s.arena, s.chain) && k <= |s.chain|
    requires InArena(r.arena, r.chain) && Sorted(r.arena, r.chain)
    requires forall j :: 0 <= j < k ==> s.arena[s.chain[j]].priority >= p
    requires k < |s.chain| ==> s.arena[s.chain[k]].priority < p
    requires |r.arena| == |s.arena| + 1 && r.arena[|s.arena|].priority == p && r.arena[|s.arena|].live
    requires r.arena[|s.arena|].fn == f && r.arena[|s.arena|].once == once
    requires r.chain == s.chain[..k] + [|s.arena|] + s.chain[k..]
    requires forall i :: 0 <= i < |s.arena| ==> r.arena[i].priority == s.arena[i].priority
    ensures Placed(s, r, f, p, once)
  {
    var id := |s.arena|;
    assert r.chain[k] == id;
    SortedIndexOf(r.arena, r.chain, k);
    assert r.chain[..k] == s.chain[..k] && r.chain[k + 1..] == s.chain[k..];
    SpliceOrder(s.arena, s.chain, r.arena, r.chain, p, k);
  }

  /** The priorities on either side of the slot `k` a node of priority `p` is spliced into. */
  lemma {:induction false} SpliceOrder(a: seq<Listener>, ch: seq<nat>, b: seq<Listener>, rch: seq<nat>, p: int, k: nat)
    requires InArena(a, ch) && Sorted(a, ch) && k <= |ch| && |b| == |a| + 1
    requires forall j :: 0 <= j < k ==> a[ch[j]].priority >= p
    requires k < |ch| ==> a[ch[k]].priority < p
    requires rch == ch[..k] + [|a|] + ch[k..]
    requires forall i :: 0 <= i < |a| ==> b[i].priority == a[i].priority
    ensures InArena(b, rch)
    ensures forall j :: 0 <= j < k ==> b[rch[j]].priority >= p
    ensures forall j :: k < j < |rch| ==> b[rch[j]].priority < p
  {
    forall j | 0 <= j < |rch| ensures rch[j] < |b| {
      if j < k { assert rch[j] == ch[j]; } else if k < j { assert rch[j] == ch[j - 1]; }
    }
    forall j | 0 <= j < k ensures b[rch[j]].priority >= p {
      assert rch[j] == ch[j];
    }
    forall j | k < j < |rch| ensures b[rch[j]].priority < p {
      assert rch[j] == ch[j - 1];
      if k < j - 1 {
        assert Precedes(a, ch[k], ch[j - 1]);
      }
    }
  }

  /**
   * Relative to a node `c` already linked, a node added with priority `p`
   * lands after `c` exactly when `c`'s priority is at least `p`: an equal
   * priority queues behind, a higher one jumps ahead.
   */
  lemma {:induction false} InsertRelativeTo(s: State, f: CallbackId, p: int, once: bool, c: nat)
    requires Valid(s) && s.hasHead && c in s.chain
    ensures var r, id := Insert(s, f, p, once), |s.arena|;
      c in r.chain && id in r.chain &&
      (IndexOf(r.chain, c) < IndexOf(r.chain, id) <==> s.arena[c].priority >= p)
  {
    var r, id := Insert(s, f, p, once), |s.arena|;
    InsertPlacement(s, f, p, once);
    InsertValid(s, f, p, once);
    var m := IndexOf(r.chain, id);
    assert Same(s.arena[c], r.arena[c]);
    assert c in r.chain[..m] + r.chain[m + 1..];
    var n := IndexOf(r.chain, c);
    SortedIndexOf(r.arena, r.chain, n);
    SortedIndexOf(r.arena, r.chain, m);
  }

  // ---------------------------------------------------------------------
  // remove
  // ---------------------------------------------------------------------

  /**
   * `remove(f)` unlinks exactly the nodes of `f` and keeps the others in
   * their order; afterwards no node of `f` is live, and the nodes it
   * unlinked keep the `next` they had (a soft destroy).
   */
  lemma {:induction false} RemoveAllLaw(s: State, f: CallbackId)
    requires Valid(s)
    ensures var r := RemoveAll(s, f);
      && (forall x :: x in r.chain <==> x in s.chain && s.arena[x].fn != f)
      && |r.arena| == |s.arena|
      && (forall i :: 0 <= i < |r.arena| && r.arena[i].fn == f ==> !r.arena[i].live)
      && (forall i :: 0 <= i < |s.arena| && s.arena[i].live && s.arena[i].fn == f ==>
            r.arena[i] == s.arena[i].(live := false))
      && r.started == s.started && r.fired == s.fired
  {
    var r := RemoveAll(s, f);
    RemoveAllValid(s, f);
    if s.hasHead {
      forall i | 0 <= i < |r.arena| && r.arena[i].fn == f ensures !r.arena[i].live {
        assert Same(s.arena[i], r.arena[i]);
        assert i !in r.chain;
      }
    }
  }

  /** Removing the only callback registered empties the list. */
  lemma {:induction false} RemoveEvery(s: State, f: CallbackId)
    requires Valid(s) && forall k :: 0 <= k < |s.chain| ==> s.arena[s.chain[k]].fn == f
    ensures Count(RemoveAll(s, f)) == 0 && First(RemoveAll(s, f)) == Nil
  {
    RemoveAllLaw(s, f);
  }

  /** A chain of `remove` calls, one per callback of `fs`, in order. */
  function RemoveEach(s: State, fs: seq<CallbackId>): (r: State)
    requires Valid(s)
    ensures Valid(r) && Evolves(s, r) && r.fired == s.fired
    decreases |fs|
  {
    if fs == [] then s
    else
      RemoveAllValid(s, fs[0]);
      var t := RemoveAll(s, fs[0]);
      var r := RemoveEach(t, fs[1..]);
      EvolvesTrans(s, t, r);
      r
  }

  /** Removing every callback that is registered empties the list. */
  lemma {:induction false} RemoveEachClears(s: State, fs: seq<CallbackId>)
    requires Valid(s) && forall x :: x in s.chain ==> s.arena[x].fn in fs
    ensures Count(RemoveEach(s, fs)) == 0
    decreases |fs|
  {
    if fs != [] {
      var f := fs[0];
      RemoveAllLaw(s, f);
      RemoveAllValid(s, f);
      var t := RemoveAll(s, f);
      forall x | x in t.chain ensures t.arena[x].fn in fs[1..] {
        assert Same(s.arena[x], t.arena[x]);
        assert s.arena[x].fn in fs && s.arena[x].fn != f;
        assert fs == [f] + fs[1..];
      }
      RemoveEachClears(t, fs[1..]);
    } else {
      HeadIn(s.chain);
    }
  }

  lemma {:induction false} HeadIn(ch: seq<nat>)
    ensures ch == [] || ch[0] in ch
  {
  }

  /** The chain nodes of `ch` that are not registered with `f`. */
  lemma {:induction false} WithoutNone(a: seq<Listener>, ch: seq<nat>, f: CallbackId)
    requires InArena(a, ch) && forall x :: x in ch ==> a[x].fn != f
    ensures Without(a, ch, f) == ch
    decreases |ch|
  {
    if ch != [] {
      assert forall x :: x in ch[1..] ==> x in ch;
      WithoutNone(a, ch[1..], f);
    }
  }

  /** Filtering depends only on the callbacks of the nodes filtered. */
  lemma {:induction false} WithoutFrame(a: seq<Listener>, b: seq<Listener>, ch: seq<nat>, f: CallbackId)
    requires InArena(a, ch) && InArena(b, ch)
    requires forall k :: 0 <= k < |ch| ==> a[ch[k]].fn == b[ch[k]].fn
    ensures Without(a, ch, f) == Without(b, ch, f)
    decreases |ch|
  {
    if ch != [] {
      WithoutFrame(a, b, ch[1..], f);
    }
  }

  /** Filtering distributes over concatenation. */
  lemma {:induction false} WithoutAppend(a: seq<Listener>, x: seq<nat>, y: seq<nat>, f: CallbackId)
    requires InArena(a, x) && InArena(a, y)
    ensures InArena(a, x + y) && Without(a, x + y, f) == Without(a, x, f) + Without(a, y, f)
    decreases |x|
  {
    assert InArena(a, x + y) by {
      forall k | 0 <= k < |x + y| ensures (x + y)[k] < |a| {
        if k < |x| { assert (x + y)[k] == x[k]; } else { assert (x + y)[k] == y[k - |x|]; }
      }
    }
    if x == [] {
      assert x + y == y;
    } else {
      var xy := x + y;
      assert xy[0] == x[0] && xy[1..] == x[1..] + y;
      assert InArena(a, x[1..]);
      WithoutAppend(a, x[1..], y, f);
      if a[x[0]].fn != f {
        assert Without(a, xy, f) == [x[0]] + Without(a, x[1..] + y, f);
      } else {
        assert Without(a, xy, f) == Without(a, x[1..] + y, f);
      }
    }
  }

  /**
   * Removing a callback no node is registered with changes nothing: the
   * list, every node and every flag are as they were.
   */
  lemma {:induction false} RemoveAbsent(s: State, f: CallbackId)
    requires Valid(s) && forall x :: x in s.chain ==> s.arena[x].fn != f
    ensures RemoveAll(s, f) == s
  {
    if s.hasHead {
      WithoutNone(s.arena, s.chain, f);
      SortedDistinct(s.arena, s.chain);
      var d := Deactivate(s.arena, f);
      assert d == s.arena;
      LinkedUnique(Relink(d, s.chain), s.arena, s.arena, s.chain);
    }
  }

  /**
   * `remove(f)` undoes every `add` of `f`: after adding `f` and removing it,
   * the list is what removing `f` alone leaves.
   */
  lemma {:induction false} RemoveAbsorbsAdd(s: State, f: CallbackId, p: int, once: bool)
    requires Valid(s)
    ensures Valid(Insert(s, f, p, once))
    ensures RemoveAll(Insert(s, f, p, once), f).chain == RemoveAll(s, f).chain
  {
    InsertValid(s, f, p, once);
    if s.hasHead {
      var r := Insert(s, f, p, once);
      RemoveAllChain(s, f);
      RemoveAllChain(r, f);
      InsertFns(s, f, p, once);
    }
  }

  /** With a head, `remove(f)` keeps the chain `Without` computes. */
  lemma {:induction false} RemoveAllChain(s: State, f: CallbackId)
    requires Valid(s) && s.hasHead
    ensures RemoveAll(s, f).chain == Without(s.arena, s.chain, f)
  {
  }

  /** `add` changes no node's callback, and filtering its callback out leaves the old chain filtered. */
  lemma {:induction false} InsertFns(s: State, f: CallbackId, p: int, once: bool)
    requires Valid(s) && s.hasHead
    ensures InArena(Insert(s, f, p, once).arena, Insert(s, f, p, once).chain)
    ensures var r := Insert(s, f, p, once);
      Without(r.arena, r.chain, f) == Without(s.arena, s.chain, f)
  {
    var k := InsertIndex(s.arena, s.chain, p);
    InsertShape(s, f, p, once);
    var r := Insert(s, f, p, once);
    assert forall i :: 0 <= i < |s.arena| ==> r.arena[i].fn == s.arena[i].fn;
    WithoutSplice(s.arena, r.arena, s.chain, r.chain, k, f);
  }

  /** Filtering out `f` from a chain with a node of `f` spliced in at `k` gives the filtered chain. */
  lemma {:induction false} WithoutSplice(a: seq<Listener>, b: seq<Listener>, ch: seq<nat>, rch: seq<nat>, k: nat, f: CallbackId)
    requires InArena(a, ch) && k <= |ch| && |b| == |a| + 1 && b[|a|].fn == f
    requires forall i :: 0 <= i < |a| ==> b[i].fn == a[i].fn
    requires rch == ch[..k] + [|a|] + ch[k..]
    ensures InArena(b, rch)
    ensures Without(b, rch, f) == Without(a, ch, f)
  {
    var id, x, y := |a|, ch[..k], ch[k..];
    assert ch == x + y;
    assert InArena(a, x) && InArena(a, y);
    assert rch == x + ([id] + y);
    WithoutAppend(b, x, [id] + y, f);
    WithoutAppend(b, [id], y, f);
    WithoutAppend(a, x, y, f);
    WithoutFrame(b, a, x, f);
    WithoutFrame(b, a, y, f);
    assert Without(b, [id], f) == [];
  }

  /** Adding `f` and removing it again leaves a list without `f` as it was. */
  lemma {:induction false} AddThenRemove(s: State, f: CallbackId, p: int, once: bool)
    requires Valid(s) && forall x :: x in s.chain ==> s.arena[x].fn != f
    ensures Valid(Insert(s, f, p, once))
    ensures RemoveAll(Insert(s, f, p, once), f).chain == s.chain
    ensures Count(RemoveAll(Insert(s, f, p, once), f)) == Count(s)
  {
    RemoveAbsorbsAdd(s, f, p, once);
    RemoveAbsent(s, f);
  }

  // ---------------------------------------------------------------------
  // destroy
  // ---------------------------------------------------------------------

  /**
   * `destroy` of an ordinary ticker drops the head, stops the ticker and
   * hard-destroys every node: nothing is linked or live, no `next` of a
   * formerly linked node is left.
   */
  lemma {:induction false} DestroyClears(s: State)
    requires Valid(s) && !s.isProtected
    ensures var r := DestroyTicker(s);
      && !r.hasHead && !r.started && Count(r) == 0 && First(r) == Nil
      && |r.arena| == |s.arena|
      && (forall i :: 0 <= i < |r.arena| ==> !r.arena[i].live && Same(r.arena[i], s.arena[i]))
      && (forall i :: 0 <= i < |r.arena| && s.arena[i].live ==> r.arena[i].next == Nil)
  {
    if !s.hasHead {
      assert forall i :: 0 <= i < |s.arena| ==> !s.arena[i].live;
    }
  }

  /** `destroy` of a protected ticker (`shared`, `system`) changes nothing. */
  lemma {:induction false} ProtectedDestroyInert(s: State)
    requires Valid(s) && s.isProtected
    ensures DestroyTicker(s) == s && DestroyTicker(s).hasHead
  {
  }

  /** A destroyed ticker ignores every call a callback makes. */
  lemma {:induction false} HeadlessApplyInert(s: State, e: Effect)
    requires Valid(s) && !s.hasHead
    ensures Apply(s, e) == s
  {
  }

  /** ... and so does a whole callback body. */
  lemma {:induction false} HeadlessRunInert(s: State, es: seq<Effect>)
    requires Valid(s) && !s.hasHead
    ensures RunScript(s, es) == s
    decreases |es|
  {
    if es != [] {
      HeadlessApplyInert(s, es[0]);
      HeadlessRunInert(s, es[1..]);
    }
  }

  /** A tick of a destroyed ticker invokes nothing. */
  lemma {:induction false} HeadlessWalkSilent(s: State, scripts: Scripts, cur: Link, fuel: nat)
    requires Valid(s) && !s.hasHead && (cur.Ptr? ==> cur.index < |s.arena|)
    ensures Walk(s, scripts, cur, fuel).0.fired == s.fired
    decreases fuel
  {
    if cur.Ptr? && fuel > 0 {
      var e, rest := Emit(s, scripts, cur.index), fuel - 1;
      assert !s.arena[cur.index].live;
      WalkStepAt(s, scripts, cur, fuel, rest);
      HeadlessWalkSilent(e.0, scripts, e.1, rest);
    }
  }

  /** One step of the traversal. */
  lemma {:induction false} WalkStepAt(s: State, scripts: Scripts, cur: Link, fuel: nat, rest: nat)
    requires Valid(s) && cur.Ptr? && cur.index < |s.arena| && fuel == rest + 1
    ensures var e := Emit(s, scripts, cur.index); Walk(s, scripts, cur, fuel) == Walk(e.0, scripts, e.1, rest)
  {
    assert rest == fuel - 1;
  }

  /**
   * A listener whose callback destroys its (unprotected) ticker ends the
   * tick: it is invoked, and no node after it is, whatever else its
   * callback does before or after the `destroy`.
   */
  lemma {:induction false} DestroyInCallback(s: State, scripts: Scripts, c: nat, fuel: nat)
    requires Valid(s) && !s.isProtected && c < |s.arena| && s.arena[c].live && fuel > 0
    requires CallDestroy in ScriptOf(scripts, s.arena[c].fn)
    ensures Walk(s, scripts, Ptr(c), fuel).0.fired == s.fired + [c]
    ensures !Walk(s, scripts, Ptr(c), fuel).0.hasHead
  {
    var e, rest := Emit(s, scripts, c), fuel - 1;
    DestroyingEmit(s, scripts, c);
    WalkStepAt(s, scripts, Ptr(c), fuel, rest);
    HeadlessWalkSilent(e.0, scripts, e.1, rest);
  }

  /** The emit of a listener whose callback destroys the ticker leaves it headless. */
  lemma {:induction false} DestroyingEmit(s: State, scripts: Scripts, c: nat)
    requires Valid(s) && !s.isProtected && c < |s.arena| && s.arena[c].live
    requires CallDestroy in ScriptOf(scripts, s.arena[c].fn)
    ensures var e := Emit(s, scripts, c); e.0.fired == s.fired + [c] && !e.0.hasHead
  {
    var script := ScriptOf(scripts, s.arena[c].fn);
    RecordValid(s, c);
    DestroyingBody(s.(fired := s.fired + [c]), script);
  }

  /** A callback body that calls `destroy` on an unprotected ticker leaves it headless. */
  lemma {:induction false} DestroyingBody(s: State, script: seq<Effect>)
    requires Valid(s) && !s.isProtected && CallDestroy in script
    ensures !RunScript(s, script).hasHead
  {
    var i :| 0 <= i < |script| && script[i] == CallDestroy;
    var pre, post := script[..i], script[i + 1..];
    assert script == pre + [CallDestroy] + post;
    var d := Apply(RunScript(s, pre), CallDestroy);
    RunScriptAround(s, pre, CallDestroy, post);
    HeadlessRunInert(d, post);
  }

  /** Splitting a callback body: the effects before a point, then the rest. */
  lemma {:induction false} RunScriptAppend(s: State, xs: seq<Effect>, ys: seq<Effect>)
    requires Valid(s)
    ensures RunScript(s, xs + ys) == RunScript(RunScript(s, xs), ys)
    decreases |xs|
  {
    if xs == [] {
      assert xs + ys == ys;
    } else {
      assert (xs + ys)[1..] == xs[1..] + ys;
      RunScriptAppend(Apply(s, xs[0]), xs[1..], ys);
    }
  }

  lemma {:induction false} RunScriptAround(s: State, pre: seq<Effect>, x: Effect, post: seq<Effect>)
    requires Valid(s)
    ensures RunScript(s, pre + [x] + post) == RunScript(Apply(RunScript(s, pre), x), post)
  {
    RunScriptAppend(s, pre + [x], post);
    RunScriptAppend(s, pre, [x]);
    var m := RunScript(s, pre);
    assert RunScript(m, [x]) == RunScript(Apply(m, x), [x][1..]);
    assert [x][1..] == [];
  }

  // ---------------------------------------------------------------------
  // update
  // ---------------------------------------------------------------------

  /** Every node `t` fired after `s` was live in `s`, or did not exist yet. */
  ghost predicate FiresOnlyLive(s: State, t: State) {
    forall k :: |s.fired| <= k < |t.fired| ==> t.fired[k] >= |s.arena| || s.arena[t.fired[k]].live
  }

  lemma {:induction false} FiresOnlyLiveTrans(s: State, m: State, t: State)
    requires Evolves(s, m) && s.fired <= m.fired && m.fired <= t.fired
    requires FiresOnlyLive(s, m) && FiresOnlyLive(m, t)
    ensures FiresOnlyLive(s, t)
  {
    forall k | |s.fired| <= k < |t.fired| ensures t.fired[k] >= |s.arena| || s.arena[t.fired[k]].live {
      if k < |m.fired| {
        assert t.fired[k] == m.fired[k];
      }
    }
  }

  /** Every node fired during a walk was live when it started, or was added during it. */
  lemma {:induction false} WalkFiresOnlyLive(s: State, scripts: Scripts, cur: Link, fuel: nat)
    requires Valid(s) && (cur.Ptr? ==> cur.index < |s.arena|)
    ensures FiresOnlyLive(s, Walk(s, scripts, cur, fuel).0)
    decreases fuel
  {
    if cur.Ptr? && fuel > 0 {
      var e, rest := Emit(s, scripts, cur.index), fuel - 1;
      WalkStepAt(s, scripts, cur, fuel, rest);
      WalkFiresOnlyLive(e.0, scripts, e.1, rest);
      FiresOnlyLiveTrans(s, e.0, Walk(e.0, scripts, e.1, rest).0);
    }
  }

  /**
   * A removed listener is never invoked again: in a tick that follows
   * `remove(f)`, no node of `f` that existed at the time of the removal
   * fires.
   */
  lemma {:induction false} RemovedNeverFires(s: State, f: CallbackId, scripts: Scripts, fuel: nat)
    requires Valid(s)
    ensures Valid(RemoveAll(s, f))
    ensures var t := Update(RemoveAll(s, f), scripts, fuel).0;
      forall k :: |s.fired| <= k < |t.fired| && t.fired[k] < |s.arena| ==> s.arena[t.fired[k]].fn != f
  {
    var r := RemoveAll(s, f);
    RemoveAllValid(s, f);
    RemovedNeverFiresLater(s, f, r, scripts, fuel);
  }

  /**
   * ... nor in any tick after that: whatever the ticker went through since
   * the removal, a tick fires no node of `f` that existed at the time of
   * the removal.
   */
  lemma {:induction false} RemovedNeverFiresLater(s: State, f: CallbackId, t: State, scripts: Scripts, fuel: nat)
    requires Valid(s) && Valid(t) && Evolves(RemoveAll(s, f), t)
    ensures var u := Update(t, scripts, fuel).0;
      forall k :: |t.fired| <= k < |u.fired| && u.fired[k] < |s.arena| ==> s.arena[u.fired[k]].fn != f
  {
    var r := RemoveAll(s, f);
    RemoveAllLaw(s, f);
    if t.hasHead {
      WalkFiresOnlyLive(t, scripts, First(t), fuel);
      var u := Update(t, scripts, fuel).0;
      forall k | |t.fired| <= k < |u.fired| && u.fired[k] < |s.arena| ensures s.arena[u.fired[k]].fn != f {
        var x := u.fired[k];
        assert t.arena[x].live;
        assert Same(r.arena[x], t.arena[x]);
      }
    }
  }

  /**
   * A one-shot listener is retired by its emit: afterwards it is neither
   * live nor linked, so it never fires again.
   */
  lemma {:induction false} OnceRetired(s: State, scripts: Scripts, c: nat)
    requires Valid(s) && c < |s.arena| && s.arena[c].once
    ensures var t := Emit(s, scripts, c).0; !t.arena[c].live && c !in t.chain
  {
    var s1 := Invoke(s, scripts, c);
    assert Same(s.arena[c], s1.arena[c]);
  }

  // ---------------------------------------------------------------------
  // a tick whose callbacks do nothing to the ticker
  // ---------------------------------------------------------------------

  /** Callbacks that leave their ticker alone (every test spy). */
  predicate QuietScripts(scripts: Scripts) {
    forall f :: f in scripts ==> scripts[f] == []
  }

  /** The nodes among the first `n` of `ch` that are not one-shot, in chain order. */
  function Persisting(a: seq<Listener>, ch: seq<nat>, n: nat): (r: seq<nat>)
    requires InArena(a, ch) && n <= |ch|
    ensures |r| <= n
    ensures forall x {:trigger x in r} :: x in r <==> x in ch[..n] && !a[x].once
  {
    if n == 0 then []
    else
      var r := Persisting(a, ch, n - 1);
      assert ch[..n] == ch[..n - 1] + [ch[n - 1]];
      r + (if a[ch[n - 1]].once then [] else [ch[n - 1]])
  }

  /** Without one-shot nodes, every node persists. */
  lemma {:induction false} PersistingNoOnce(a: seq<Listener>, ch: seq<nat>, n: nat)
    requires InArena(a, ch) && n <= |ch| && forall k :: 0 <= k < |ch| ==> !a[ch[k]].once
    ensures Persisting(a, ch, n) == ch[..n]
  {
    if n > 0 {
      PersistingNoOnce(a, ch, n - 1);
      assert ch[..n] == ch[..n - 1] + [ch[n - 1]];
    }
  }

  lemma {:induction false} PersistingSnoc(a: seq<Listener>, ch: seq<nat>, j: nat, n: nat)
    requires InArena(a, ch) && n <= |ch| && n == j + 1
    ensures Persisting(a, ch, n) == Persisting(a, ch, j) + (if a[ch[j]].once then [] else [ch[j]])
  {
    assert j == n - 1;
  }

  /**
   * `t` is where a quiet tick of `s` stands after visiting the first `j`
   * linked nodes: each of them fired once, in order, and those that were
   * one-shot are gone from the list; nothing else changed.
   */
  ghost predicate QuietUpTo(s: State, t: State, j: nat) {
    && Valid(s) && Valid(t) && Evolves(s, t) && j <= |s.chain|
    && |t.arena| == |s.arena| && t.started == s.started && t.hasHead == s.hasHead
    && t.fired == s.fired + s.chain[..j]
    && t.chain == Persisting(s.arena, s.chain, j) + s.chain[j..]
  }

  /** One emit of a quiet tick. */
  lemma {:induction false} QuietStep(s: State, scripts: Scripts, t: State, j: nat, k: nat)
    requires QuietScripts(scripts) && QuietUpTo(s, t, j) && j < |s.chain| && k == j + 1
    ensures var e := Emit(t, scripts, s.chain[j]);
      QuietUpTo(s, e.0, k) && e.1 == (if k < |s.chain| then Ptr(s.chain[k]) else Nil)
  {
    var c, P, rest := s.chain[j], Persisting(s.arena, s.chain, j), s.chain[k..];
    var m := |P|;
    SnocSlices(s.chain, j, k);
    DropAt(t.chain, P, c, rest);
    assert t.arena[c].next == Succ(t.chain, m);
    var s1 := t.(fired := t.fired + [c]);
    QuietEmitAt(t, scripts, c, m);
    RetireAt(s1, c, m);
    PersistingSnoc(s.arena, s.chain, j, k);
    var r := Retire(s1, c);
    AppendAssoc(s.fired, s.chain[..j], [c]);
    assert s.arena[c].once == t.arena[c].once;
    if t.arena[c].once {
      assert r.chain == P + rest;
      assert Persisting(s.arena, s.chain, k) == P;
    } else {
      AppendAssoc(P, [c], rest);
      assert Persisting(s.arena, s.chain, k) == P + [c];
    }
    EvolvesTrans(s, t, r);
  }

  lemma {:induction false} AppendAssoc(x: seq<nat>, y: seq<nat>, z: seq<nat>)
    ensures (x + y) + z == x + (y + z)
  {
  }

  lemma {:induction false} SnocSlices(ch: seq<nat>, j: nat, k: nat)
    requires j < |ch| && k == j + 1
    ensures ch[..j] + [ch[j]] == ch[..k] && ch[j..] == [ch[j]] + ch[k..]
  {
    assert ch[..k] == ch[..j] + ch[j..k];
  }

  lemma {:induction false} DropAt(ch: seq<nat>, p: seq<nat>, c: nat, rest: seq<nat>)
    requires ch == p + ([c] + rest)
    ensures |p| < |ch| && ch[|p|] == c && ch[..|p|] + ch[|p| + 1..] == p + rest
    ensures Succ(ch, |p|) == if rest == [] then Nil else Ptr(rest[0])
  {
    assert ch[..|p|] == p;
    assert ch[|p| + 1..] == rest;
  }

  /** The emit of a live node whose callback does nothing: record it, then retire it if it is one-shot. */
  lemma {:induction false} QuietEmit(t: State, scripts: Scripts, c: nat)
    requires Valid(t) && c < |t.arena| && t.arena[c].live && ScriptOf(scripts, t.arena[c].fn) == []
    ensures Valid(t.(fired := t.fired + [c]))
    ensures Emit(t, scripts, c) == (Retire(t.(fired := t.fired + [c]), c), t.arena[c].next)
  {
    assert Invoke(t, scripts, c) == t.(fired := t.fired + [c]);
  }

  lemma {:induction false} QuietEmitAt(t: State, scripts: Scripts, c: nat, m: nat)
    requires Valid(t) && QuietScripts(scripts) && m < |t.chain| && t.chain[m] == c
    ensures c < |t.arena| && Valid(t.(fired := t.fired + [c]))
    ensures Emit(t, scripts, c) == (Retire(t.(fired := t.fired + [c]), c), t.arena[c].next)
  {
    assert t.arena[c].live;
    QuietEmit(t, scripts, c);
  }

  /** ... and of one added with `add`, which stays linked: only the trace grows. */
  lemma {:induction false} SilentEmit(t: State, scripts: Scripts, c: nat)
    requires Valid(t) && c < |t.arena| && t.arena[c].live && !t.arena[c].once
    requires ScriptOf(scripts, t.arena[c].fn) == []
    ensures Emit(t, scripts, c) == (t.(fired := t.fired + [c]), t.arena[c].next)
  {
    QuietEmit(t, scripts, c);
  }

  /** What `Retire` does to the list when the node is linked at position `m`. */
  lemma {:induction false} RetireAt(t: State, c: nat, m: nat)
    requires Valid(t) && m < |t.chain| && t.chain[m] == c
    ensures var r := Retire(t, c);
      && r.chain == (if t.arena[c].once then t.chain[..m] + t.chain[m + 1..] else t.chain)
      && |r.arena| == |t.arena| && r.started == t.started && r.hasHead == t.hasHead
  {
    SortedIndexOf(t.arena, t.chain, m);
  }

  /** The rest of a quiet tick, from the `j`-th linked node on. */
  lemma {:induction false} QuietWalk(s: State, scripts: Scripts, t: State, j: nat, fuel: nat, cur: Link)
    requires QuietScripts(scripts) && QuietUpTo(s, t, j) && |s.chain| - j <= fuel
    requires cur == if j < |s.chain| then Ptr(s.chain[j]) else Nil
    ensures cur.Ptr? ==> cur.index < |t.arena|
    ensures var res := Walk(t, scripts, cur, fuel); res.1 && QuietUpTo(s, res.0, |s.chain|)
    decreases |s.chain| - j
  {
    if j < |s.chain| {
      var e, rest, k := Emit(t, scripts, s.chain[j]), fuel - 1, j + 1;
      QuietStep(s, scripts, t, j, k);
      WalkStepAt(t, scripts, cur, fuel, rest);
      QuietWalk(s, scripts, e.0, k, rest, e.1);
    }
  }

  /**
   * A tick with enough fuel whose callbacks leave the ticker alone invokes
   * every linked listener exactly once, highest priority first and equal
   * priorities in the order they were added; it completes, leaves exactly
   * the listeners that were not added with `addOnce`, and changes nothing
   * else.
   */
  lemma {:induction false} QuietTick(s: State, scripts: Scripts, fuel: nat)
    requires Valid(s) && s.hasHead && QuietScripts(scripts) && Count(s) <= fuel
    ensures var res := Update(s, scripts, fuel);
      && res.1
      && res.0.fired == s.fired + s.chain
      && Sorted(s.arena, res.0.fired[|s.fired|..])
      && res.0.chain == Persisting(s.arena, s.chain, |s.chain|)
      && res.0.started == s.started && |res.0.arena| == |s.arena|
  {
    QuietStart(s);
    QuietWalk(s, scripts, s, 0, fuel, First(s));
    QuietDone(s, Update(s, scripts, fuel).0);
  }

  /**
   * A quiet tick over a list with no `addOnce` listener fires every node in
   * order and leaves the list as it was.
   */
  lemma {:induction false} QuietTickNoOnce(s: State, scripts: Scripts, fuel: nat)
    requires Valid(s) && s.hasHead && QuietScripts(scripts) && Count(s) <= fuel
    requires forall x :: x in s.chain ==> !s.arena[x].once
    ensures var res := Update(s, scripts, fuel);
      res.1 && res.0.fired == s.fired + s.chain && res.0.chain == s.chain
  {
    QuietTick(s, scripts, fuel);
    PersistingAll(s.arena, s.chain);
  }

  lemma {:induction false} PersistingAll(a: seq<Listener>, ch: seq<nat>)
    requires InArena(a, ch) && forall x :: x in ch ==> !a[x].once
    ensures Persisting(a, ch, |ch|) == ch
  {
    assert forall k :: 0 <= k < |ch| ==> ch[k] in ch;
    PersistingNoOnce(a, ch, |ch|);
    assert ch[..|ch|] == ch;
  }

  lemma {:induction false} QuietStart(s: State)
    requires Valid(s)
    ensures QuietUpTo(s, s, 0)
  {
    assert s.chain[..0] == [] && s.chain[0..] == s.chain;
  }

  lemma {:induction false} QuietDone(s: State, t: State)
    requires QuietUpTo(s, t, |s.chain|)
    ensures t.fired == s.fired + s.chain && t.fired[|s.fired|..] == s.chain
    ensures t.chain == Persisting(s.arena, s.chain, |s.chain|)
  {
    assert s.chain[..|s.chain|] == s.chain;
    assert s.chain[|s.chain|..] == [];
  }
}
