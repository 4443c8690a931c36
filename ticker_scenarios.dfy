/**
 * The ticker's documented scenarios, each replayed on concrete states.
 *
 * Callbacks are numbered; a test spy that only records its calls has an
 * empty script. Node `i` of a state is the `i`-th listener ever added, so
 * a trace `fired == [1, 0]` reads "the second listener added ran first".
 * The shared and system tickers start as `Fresh(true, true)`, a
 * `new Ticker()` as `Fresh(false, false)`. A tick is `Update` with a fuel
 * large enough for the list at hand.
 */
module TickerScenarios {
  import opened TickerSpec
  import opened TickerLaws

  const L1: CallbackId := 1
  const L2: CallbackId := 2
  const L3: CallbackId := 3
  const L4: CallbackId := 4

  const SharedTicker: State := Fresh(true, true)
  const NewTicker: State := Fresh(false, false)

  /** A listener added with `add` and not destroyed. */
  function Node(f: CallbackId, p: int, next: Link): Listener {
    Listener(f, p, false, true, next)
  }

  // ---------------------------------------------------------------------
  // create, count, destroy
  // ---------------------------------------------------------------------

  /** One spy on a started `new Ticker()`. */
  const Started1: State := State([Node(L1, NORMAL, Nil)], [0], true, true, false, false, [])

  /**
   * A started ticker with one listener: `destroy` drops the head, stops
   * the ticker and leaves no listener.
   */
  lemma {:induction false} CreateAndDestroy()
    ensures Count(StartTicker(NewTicker)) == 0
    ensures Insert(StartTicker(NewTicker), L1, NORMAL, false) == Started1 && Count(Started1) == 1
    ensures var d := DestroyTicker(Started1); !d.hasHead && !d.started && Count(d) == 0 && First(d) == Nil
  {
  }

  /** One spy on the shared ticker, which started it. */
  const Shared1: State := State([Node(L1, NORMAL, Nil)], [0], true, true, true, true, [])

  lemma {:induction false} AddToShared()
    ensures Insert(SharedTicker, L1, NORMAL, false) == Shared1 && Valid(Shared1)
  {
    InsertValid(SharedTicker, L1, NORMAL, false);
  }

  /** `destroy` leaves the shared (and the system) ticker as it was: head kept, still started. */
  lemma {:induction false} ProtectedAgainstDestroy()
    ensures Insert(SharedTicker, L1, NORMAL, false) == Shared1
    ensures DestroyTicker(Shared1) == Shared1 && Shared1.hasHead && Shared1.started
  {
    AddToShared();
  }

  /** The same spy added to a `new Ticker()`, once and twice. */
  const New1: State := State([Node(L1, NORMAL, Nil)], [0], true, false, false, false, [])
  const Twice: State :=
    State([Node(L1, NORMAL, Ptr(1)), Node(L1, NORMAL, Nil)], [0, 1], true, false, false, false, [])

  lemma {:induction false} AddTwice()
    ensures Insert(NewTicker, L1, NORMAL, false) == New1
    ensures Insert(New1, L1, NORMAL, false) == Twice
  {
  }

  lemma {:induction false} TwiceValid()
    ensures Valid(Twice)
  {
    AddTwice();
    InsertValid(NewTicker, L1, NORMAL, false);
    InsertValid(New1, L1, NORMAL, false);
  }

  /** `count` follows `add` and `remove`; one `remove` drops both registrations; `destroy` clears. */
  lemma {:induction false} CountListeners()
    ensures Count(NewTicker) == 0 && Count(New1) == 1 && Count(Twice) == 2
    ensures Insert(Insert(NewTicker, L1, NORMAL, false), L1, NORMAL, false) == Twice
    ensures Valid(Twice) && Count(RemoveAll(Twice, L1)) == 0
    ensures var d := DestroyTicker(RemoveAll(Twice, L1)); !d.hasHead && !d.started && Count(d) == 0
  {
    AddTwice();
    TwiceValid();
    RemoveEvery(Twice, L1);
  }

  // ---------------------------------------------------------------------
  // ticks of listeners that do nothing
  // ---------------------------------------------------------------------

  /** A spy is invoked by a tick; once removed, it is no longer linked and the next tick skips it. */
  lemma {:induction false} UpdateThenRemove(fuel: nat)
    requires 1 <= fuel
    ensures Valid(Shared1)
    ensures var t := Update(Shared1, map[], fuel).0;
      && t.fired == [0] && Count(t) == 1 && Count(RemoveAll(t, L1)) == 0 && Valid(RemoveAll(t, L1))
      && Update(RemoveAll(t, L1), map[], fuel).0.fired == [0]
  {
    AddToShared();
    QuietTick(Shared1, map[], fuel);
    var t := Update(Shared1, map[], fuel).0;
    assert Persisting(Shared1.arena, Shared1.chain, 1) == [0];
    assert t.arena[0].fn == L1;
    RemoveEvery(t, L1);
    RemoveAllLaw(t, L1);
    RemoveAllValid(t, L1);
  }

  /** The same spy added twice to the shared ticker. */
  const Shared2: State :=
    State([Node(L1, NORMAL, Ptr(1)), Node(L1, NORMAL, Nil)], [0, 1], true, true, true, true, [])

  lemma {:induction false} AddSharedTwice()
    ensures Insert(Shared1, L1, NORMAL, false) == Shared2 && Valid(Shared2)
  {
    AddToShared();
    InsertValid(Shared1, L1, NORMAL, false);
  }

  /** A spy added twice is invoked twice per tick; one `remove` ends both, and the next tick invokes neither. */
  lemma {:induction false} UpdateTwiceRemoveOnce(fuel: nat)
    requires 2 <= fuel
    ensures Valid(Shared2)
    ensures var t := Update(Shared2, map[], fuel).0;
      && t.fired == [0, 1] && Count(t) == 2 && Count(RemoveAll(t, L1)) == 0 && Valid(RemoveAll(t, L1))
      && Update(RemoveAll(t, L1), map[], fuel).0.fired == [0, 1]
  {
    AddSharedTwice();
    QuietTick(Shared2, map[], fuel);
    var t := Update(Shared2, map[], fuel).0;
    SharedTwicePersist();
    RemoveBoth(t);
  }

  lemma {:induction false} RemoveBoth(t: State)
    requires Valid(t) && Evolves(Shared2, t) && t.chain == [0, 1]
    ensures Count(RemoveAll(t, L1)) == 0 && RemoveAll(t, L1).fired == t.fired && Valid(RemoveAll(t, L1))
  {
    RemoveAllValid(t, L1);
    assert t.arena[0].fn == L1 && t.arena[1].fn == L1;
    RemoveEvery(t, L1);
    RemoveAllLaw(t, L1);
  }

  lemma {:induction false} SharedTwicePersist()
    ensures Persisting(Shared2.arena, Shared2.chain, 2) == [0, 1]
  {
    assert Persisting(Shared2.arena, Shared2.chain, 1) == [0];
  }

  /** LOW, INTERACTION, HIGH and NORMAL spies, added in that order to the shared ticker. */
  const Prio1: State := State([Node(L1, LOW, Nil)], [0], true, true, true, true, [])
  const Prio2: State :=
    State([Node(L1, LOW, Nil), Node(L4, INTERACTION, Ptr(0))], [1, 0], true, true, true, true, [])
  const Prio3: State :=
    State([Node(L1, LOW, Nil), Node(L4, INTERACTION, Ptr(2)), Node(L3, HIGH, Ptr(0))],
          [1, 2, 0], true, true, true, true, [])
  const Prio4: State :=
    State([Node(L1, LOW, Nil), Node(L4, INTERACTION, Ptr(2)), Node(L3, HIGH, Ptr(3)), Node(L2, NORMAL, Ptr(0))],
          [1, 2, 3, 0], true, true, true, true, [])

  lemma {:induction false} AddLow() ensures Insert(SharedTicker, L1, LOW, false) == Prio1 {}
  lemma {:induction false} AddInteraction() ensures Insert(Prio1, L4, INTERACTION, false) == Prio2 {}
  lemma {:induction false} AddHigh() ensures Insert(Prio2, L3, HIGH, false) == Prio3 {}
  lemma {:induction false} AddNormal() ensures Insert(Prio3, L2, NORMAL, false) == Prio4 {}

  lemma {:induction false} PrioritiesValid()
    ensures Valid(Prio4)
  {
    AddLow();
    AddInteraction();
    AddHigh();
    AddNormal();
    InsertValid(SharedTicker, L1, LOW, false);
    InsertValid(Prio1, L4, INTERACTION, false);
    InsertValid(Prio2, L3, HIGH, false);
    InsertValid(Prio3, L2, NORMAL, false);
  }

  /** One tick invokes them highest priority first: INTERACTION, HIGH, NORMAL, LOW. */
  lemma {:induction false} PriorityOrder(fuel: nat)
    requires 4 <= fuel
    ensures Valid(Prio4)
    ensures var t := Update(Prio4, map[], fuel).0;
      t.fired == [1, 2, 3, 0] && Count(t) == 4 && Count(RemoveEach(t, [L1, L2, L3, L4])) == 0
    ensures [Prio4.arena[1].fn, Prio4.arena[2].fn, Prio4.arena[3].fn, Prio4.arena[0].fn] == [L4, L3, L2, L1]
  {
    PrioritiesValid();
    QuietTick(Prio4, map[], fuel);
    PrioritiesPersist();
    PriorityRemovals(Update(Prio4, map[], fuel).0);
  }

  lemma {:induction false} PriorityRemovals(t: State)
    requires Valid(t) && Evolves(Prio4, t) && |t.arena| == |Prio4.arena|
    ensures Count(RemoveEach(t, [L1, L2, L3, L4])) == 0
  {
    FnsWithin(Prio4, t, [L1, L2, L3, L4]);
    RemoveEachClears(t, [L1, L2, L3, L4]);
  }

  /** A later state of `s0` with no node added holds only callbacks of `s0`. */
  lemma {:induction false} FnsWithin(s0: State, t: State, fs: seq<CallbackId>)
    requires Valid(t) && Evolves(s0, t) && |t.arena| == |s0.arena|
    requires forall i :: 0 <= i < |s0.arena| ==> s0.arena[i].fn in fs
    ensures forall x :: x in t.chain ==> t.arena[x].fn in fs
  {
    forall x | x in t.chain ensures t.arena[x].fn in fs {
      assert Same(s0.arena[x], t.arena[x]);
    }
  }

  lemma {:induction false} PrioritiesPersist()
    ensures Persisting(Prio4.arena, Prio4.chain, 4) == [1, 2, 3, 0]
  {
    var a, ch := Prio4.arena, Prio4.chain;
    assert Persisting(a, ch, 1) == [1];
    assert Persisting(a, ch, 2) == [1, 2];
    assert Persisting(a, ch, 3) == [1, 2, 3];
  }

  /** Three spies of equal priority, added in order. */
  const Same2: State :=
    State([Node(L1, NORMAL, Ptr(1)), Node(L2, NORMAL, Nil)], [0, 1], true, true, true, true, [])
  const Same3: State :=
    State([Node(L1, NORMAL, Ptr(1)), Node(L2, NORMAL, Ptr(2)), Node(L3, NORMAL, Nil)],
          [0, 1, 2], true, true, true, true, [])

  lemma {:induction false} AddSecond() ensures Insert(Shared1, L2, NORMAL, false) == Same2 {}
  lemma {:induction false} AddThird() ensures Insert(Same2, L3, NORMAL, false) == Same3 {}

  lemma {:induction false} SameValid()
    ensures Valid(Same3)
  {
    AddToShared();
    AddSecond();
    AddThird();
    InsertValid(Shared1, L2, NORMAL, false);
    InsertValid(Same2, L3, NORMAL, false);
  }

  /** Listeners of equal priority are invoked in the order they were added. */
  lemma {:induction false} SamePriorityInAddOrder(fuel: nat)
    requires 3 <= fuel
    ensures Valid(Same3)
    ensures var t := Update(Same3, map[], fuel).0;
      t.fired == [0, 1, 2] && Count(t) == 3 && Count(RemoveEach(t, [L1, L2, L3])) == 0
  {
    SameValid();
    QuietTick(Same3, map[], fuel);
    SamePersist();
    SameRemovals(Update(Same3, map[], fuel).0);
  }

  lemma {:induction false} SameRemovals(t: State)
    requires Valid(t) && Evolves(Same3, t) && |t.arena| == |Same3.arena|
    ensures Count(RemoveEach(t, [L1, L2, L3])) == 0
  {
    FnsWithin(Same3, t, [L1, L2, L3]);
    RemoveEachClears(t, [L1, L2, L3]);
  }

  lemma {:induction false} SamePersist()
    ensures Persisting(Same3.arena, Same3.chain, 3) == [0, 1, 2]
  {
    var a, ch := Same3.arena, Same3.chain;
    assert Persisting(a, ch, 1) == [0];
    assert Persisting(a, ch, 2) == [0, 1];
  }

  /** A spy added with `addOnce`. */
  const Once1: State := State([Listener(L1, NORMAL, true, true, Nil)], [0], true, true, true, true, [])

  lemma {:induction false} AddOnceToShared()
    ensures Insert(SharedTicker, L1, NORMAL, true) == Once1 && Valid(Once1)
  {
    InsertValid(SharedTicker, L1, NORMAL, true);
  }

  /** A once listener is invoked by one tick and is gone afterwards. */
  lemma {:induction false} OnceListenerRemoved(fuel: nat)
    requires 1 <= fuel
    ensures Valid(Once1)
    ensures var t := Update(Once1, map[], fuel).0; t.fired == [0] && Count(t) == 0
  {
    AddOnceToShared();
    QuietTick(Once1, map[], fuel);
    assert Persisting(Once1.arena, Once1.chain, 1) == [];
  }

  // ---------------------------------------------------------------------
  // ticks whose callbacks change the list
  // ---------------------------------------------------------------------

  /** The emit of a live node: its callback runs on the recorded state, then the node is retired if due. */
  lemma {:induction false} LiveEmit(t: State, scripts: Scripts, c: nat)
    requires Valid(t) && c < |t.arena| && t.arena[c].live
    ensures Valid(t.(fired := t.fired + [c]))
    ensures var r := RunScript(t.(fired := t.fired + [c]), ScriptOf(scripts, t.arena[c].fn));
      Emit(t, scripts, c) == (Retire(r, c), r.arena[c].next)
  {
  }

  /** Retiring a node destroyed during its call nulls its `next`; retiring a live `add`ed node changes nothing. */
  lemma {:induction false} RetireDead(s: State, c: nat)
    requires Valid(s) && c < |s.arena| && !s.arena[c].live
    ensures Retire(s, c) == s.(arena := s.arena[c := s.arena[c].(next := Nil)])
  {
  }

  lemma {:induction false} RetireKept(s: State, c: nat)
    requires Valid(s) && c < |s.arena| && s.arena[c].live && !s.arena[c].once
    ensures Retire(s, c) == s
  {
  }

  /** A callback body of one effect, and of two. */
  lemma {:induction false} RunOne(s: State, e: Effect)
    requires Valid(s)
    ensures RunScript(s, [e]) == Apply(s, e)
  {
    assert [e][1..] == [];
  }

  lemma {:induction false} RunTwo(s: State, e1: Effect, e2: Effect)
    requires Valid(s)
    ensures RunScript(s, [e1, e2]) == Apply(Apply(s, e1), e2)
  {
    assert [e1, e2][1..] == [e2];
    RunOne(Apply(s, e1), e2);
  }

  /** The shared ticker's single NORMAL listener `L1` as its callback starts. */
  const Running1: State := State([Node(L1, NORMAL, Nil)], [0], true, true, true, true, [0])

  lemma {:induction false} RunningValid()
    ensures Valid(Shared1) && Running1 == Shared1.(fired := Shared1.fired + [0]) && Valid(Running1)
  {
    AddToShared();
  }

  /** `L1` adds a HIGH and a LOW listener while it runs. */
  const AddAroundScripts: Scripts := map[L1 := [CallAdd(L2, HIGH), CallAdd(L3, LOW)]]

  const HighAdded: State :=
    State([Node(L1, NORMAL, Nil), Node(L2, HIGH, Ptr(0))], [1, 0], true, true, true, true, [0])
  const BothAdded: State :=
    State([Node(L1, NORMAL, Ptr(2)), Node(L2, HIGH, Ptr(0)), Node(L3, LOW, Nil)], [1, 0, 2], true, true, true, true, [0])

  lemma {:induction false} AddHighInCallback() ensures Insert(Running1, L2, HIGH, false) == HighAdded {}
  lemma {:induction false} AddLowInCallback() ensures Insert(HighAdded, L3, LOW, false) == BothAdded {}

  lemma {:induction false} AddAroundRuns()
    ensures Valid(Running1) && RunScript(Running1, [CallAdd(L2, HIGH), CallAdd(L3, LOW)]) == BothAdded
  {
    RunningValid();
    AddHighInCallback();
    AddLowInCallback();
    RunTwo(Running1, CallAdd(L2, HIGH), CallAdd(L3, LOW));
  }

  lemma {:induction false} AddAroundEmit()
    ensures Valid(Shared1) && Emit(Shared1, AddAroundScripts, 0) == (BothAdded, Ptr(2))
  {
    RunningValid();
    LiveEmit(Shared1, AddAroundScripts, 0);
    AddAroundRuns();
  }

  lemma {:induction false} BothAddedValid()
    ensures Valid(BothAdded)
  {
    AddAroundRuns();
  }

  lemma {:induction false} LowEmit()
    ensures Valid(BothAdded) && Emit(BothAdded, AddAroundScripts, 2) == (BothAdded.(fired := [0, 2]), Nil)
  {
    BothAddedValid();
    assert [0] + [2] == [0, 2];
    SilentEmit(BothAdded, AddAroundScripts, 2);
  }

  /**
   * A listener that adds a HIGH and a LOW listener while it runs: the tick
   * goes on to the LOW one (after it in the list) but not to the HIGH one
   * (linked before it); afterwards three listeners are linked.
   */
  lemma {:induction false} InsertedLowerPriorityCalled(fuel: nat)
    requires 2 <= fuel
    ensures Valid(Shared1)
    ensures var t := Update(Shared1, AddAroundScripts, fuel);
      t.1 && t.0.fired == [0, 2] && Count(t.0) == 3 && Count(RemoveEach(t.0, [L1, L2, L3])) == 0
  {
    AddAroundEmit();
    LowEmit();
    var r1 := fuel - 1;
    var r2 := r1 - 1;
    WalkStepAt(Shared1, AddAroundScripts, Ptr(0), fuel, r1);
    WalkStepAt(BothAdded, AddAroundScripts, Ptr(2), r1, r2);
    AroundCleared();
  }

  lemma {:induction false} AroundCleared()
    ensures Valid(BothAdded.(fired := [0, 2])) && Count(RemoveEach(BothAdded.(fired := [0, 2]), [L1, L2, L3])) == 0
  {
    LowEmit();
    RemoveEachClears(BothAdded.(fired := [0, 2]), [L1, L2, L3]);
  }

  /** `L1` adds a LOW listener while it runs. */
  const AddLowScripts: Scripts := map[L1 := [CallAdd(L2, LOW)]]

  const LowAdded: State :=
    State([Node(L1, NORMAL, Ptr(1)), Node(L2, LOW, Nil)], [0, 1], true, true, true, true, [0])

  lemma {:induction false} AddLowAfter() ensures Insert(Running1, L2, LOW, false) == LowAdded {}

  lemma {:induction false} AddLowEmit()
    ensures Valid(Shared1) && Emit(Shared1, AddLowScripts, 0) == (LowAdded, Ptr(1))
  {
    RunningValid();
    LiveEmit(Shared1, AddLowScripts, 0);
    AddLowAfter();
    RunOne(Running1, CallAdd(L2, LOW));
  }

  lemma {:induction false} AddedLowEmit()
    ensures Valid(LowAdded) && Emit(LowAdded, AddLowScripts, 1) == (LowAdded.(fired := [0, 1]), Nil)
  {
    LowAddedValid();
    assert [0] + [1] == [0, 1];
    SilentEmit(LowAdded, AddLowScripts, 1);
  }

  /** A listener that adds a LOW listener while it runs: both are invoked once by the same tick. */
  lemma {:induction false} AddedDuringEmitCalled(fuel: nat)
    requires 2 <= fuel
    ensures Valid(Shared1)
    ensures var t := Update(Shared1, AddLowScripts, fuel);
      t.1 && t.0.fired == [0, 1] && Count(t.0) == 2 && Count(RemoveEach(t.0, [L1, L2])) == 0
  {
    AddLowEmit();
    AddedLowEmit();
    var r1 := fuel - 1;
    var r2 := r1 - 1;
    WalkStepAt(Shared1, AddLowScripts, Ptr(0), fuel, r1);
    WalkStepAt(LowAdded, AddLowScripts, Ptr(1), r1, r2);
    AddedCleared();
  }

  lemma {:induction false} AddedCleared()
    ensures Valid(LowAdded.(fired := [0, 1])) && Count(RemoveEach(LowAdded.(fired := [0, 1]), [L1, L2])) == 0
  {
    AddedLowEmit();
    RemoveEachClears(LowAdded.(fired := [0, 1]), [L1, L2]);
  }

  /** `L1` adds a LOW listener and then removes itself while it runs. */
  const SelfRemoveScripts: Scripts := map[L1 := [CallAdd(L2, LOW), CallRemove(L1)]]

  /** `L1` removed (soft-destroyed: it keeps its `next`), only `L2` linked. */
  const SelfRemoved: State :=
    State([Listener(L1, NORMAL, false, false, Ptr(1)), Node(L2, LOW, Nil)], [1], true, true, true, true, [0])
  /** ... and retired by its emit, which nulls its `next`. */
  const SelfRetired: State :=
    State([Listener(L1, NORMAL, false, false, Nil), Node(L2, LOW, Nil)], [1], true, true, true, true, [0])

  lemma {:induction false} LowAddedValid()
    ensures Valid(LowAdded)
  {
    RunningValid();
    AddLowAfter();
    InsertValid(Running1, L2, LOW, false);
  }

  lemma {:induction false} RemoveSelfParts()
    ensures InArena(LowAdded.arena, LowAdded.chain) && Without(LowAdded.arena, LowAdded.chain, L1) == [1]
    ensures Deactivate(LowAdded.arena, L1) == [Listener(L1, NORMAL, false, false, Ptr(1)), Node(L2, LOW, Nil)]
  {
    var a := LowAdded.arena;
    assert [0, 1][1..] == [1] && [1][1..] == [];
    assert Without(a, [1], L1) == [1];
  }

  lemma {:induction false} RemoveSelf()
    ensures Valid(LowAdded) && RemoveAll(LowAdded, L1) == SelfRemoved && Count(SelfRemoved) == 1
  {
    LowAddedValid();
    RemoveSelfParts();
    var d := Deactivate(LowAdded.arena, L1);
    assert Relink(d, [1]) == Relink(d[1 := d[1].(next := Nil)], []);
  }

  lemma {:induction false} SelfRemoveRuns()
    ensures Valid(Running1) && RunScript(Running1, [CallAdd(L2, LOW), CallRemove(L1)]) == SelfRemoved
  {
    RunningValid();
    AddLowAfter();
    RemoveSelf();
    RunTwo(Running1, CallAdd(L2, LOW), CallRemove(L1));
  }

  lemma {:induction false} SelfRetires()
    ensures Valid(SelfRemoved) && Retire(SelfRemoved, 0) == SelfRetired
  {
    SelfRemoveRuns();
    RetireDead(SelfRemoved, 0);
    assert SelfRemoved.arena[0 := SelfRemoved.arena[0].(next := Nil)] == SelfRetired.arena;
  }

  lemma {:induction false} SelfRemoveEmit()
    ensures Valid(Shared1) && Emit(Shared1, SelfRemoveScripts, 0) == (SelfRetired, Ptr(1))
  {
    RunningValid();
    LiveEmit(Shared1, SelfRemoveScripts, 0);
    SelfRemoveRuns();
    SelfRetires();
  }

  lemma {:induction false} SelfRetiredValid()
    ensures Valid(SelfRetired)
  {
    SelfRemoveEmit();
  }

  lemma {:induction false} RetiredEmit()
    ensures Valid(SelfRetired) && Emit(SelfRetired, SelfRemoveScripts, 1) == (SelfRetired.(fired := [0, 1]), Nil)
  {
    SelfRetiredValid();
    assert [0] + [1] == [0, 1];
    SilentEmit(SelfRetired, SelfRemoveScripts, 1);
  }

  /**
   * A listener that adds a LOW listener and then removes itself: the list
   * shrinks at once, the traversal still reaches the new listener through
   * the removed node's `next`, each is invoked once, one stays linked, and
   * removing it empties the list.
   */
  lemma {:induction false} SelfRemovalAfterAdd(fuel: nat)
    requires 2 <= fuel
    ensures Valid(Shared1) && Valid(Running1) && Running1 == Shared1.(fired := [0])
    ensures Count(RunScript(Running1, ScriptOf(SelfRemoveScripts, L1))) == 1
    ensures var t := Update(Shared1, SelfRemoveScripts, fuel);
      t.1 && t.0.fired == [0, 1] && Count(t.0) == 1 && Count(RemoveAll(t.0, L2)) == 0
  {
    RemoveSelf();
    SelfRemoveRuns();
    SelfRemoveEmit();
    RetiredEmit();
    var r1 := fuel - 1;
    var r2 := r1 - 1;
    WalkStepAt(Shared1, SelfRemoveScripts, Ptr(0), fuel, r1);
    WalkStepAt(SelfRetired, SelfRemoveScripts, Ptr(1), r1, r2);
    SelfRemovalDone();
  }

  /** The state after that tick. */
  const SelfRemovalTicked: State :=
    State([Listener(L1, NORMAL, false, false, Nil), Node(L2, LOW, Nil)], [1], true, true, true, true, [0, 1])

  lemma {:induction false} SelfRemovalDone()
    ensures SelfRetired.(fired := [0, 1]) == SelfRemovalTicked
    ensures Valid(SelfRemovalTicked) && Count(RemoveAll(SelfRemovalTicked, L2)) == 0
  {
    RetiredEmit();
    RemoveEvery(SelfRemovalTicked, L2);
  }

  /** On a `new Ticker()`: `L1` (NORMAL) destroys the ticker, `L2` (LOW) is a spy; then `start`. */
  const DestroyScripts: Scripts := map[L1 := [CallDestroy]]

  const DestroyPair: State :=
    State([Node(L1, NORMAL, Ptr(1)), Node(L2, LOW, Nil)], [0, 1], true, true, false, false, [])

  lemma {:induction false} AddLowToNew() ensures Insert(New1, L2, LOW, false) == DestroyPair.(started := false) {}

  lemma {:induction false} DestroyPairBuilt()
    ensures StartTicker(Insert(New1, L2, LOW, false)) == DestroyPair && Valid(DestroyPair)
  {
    AddTwice();
    AddLowToNew();
    InsertValid(NewTicker, L1, NORMAL, false);
    InsertValid(New1, L2, LOW, false);
  }

  /** A listener that destroys its ticker is invoked once, and the listener after it never is. */
  lemma {:induction false} DestroyOnListener(fuel: nat)
    requires 1 <= fuel
    ensures Valid(DestroyPair)
    ensures var t := Update(DestroyPair, DestroyScripts, fuel).0;
      t.fired == [0] && !t.hasHead && !t.started
  {
    DestroyPairBuilt();
    DestroyInCallback(DestroyPair, DestroyScripts, 0, fuel);
  }

  /**
   * On a `new Ticker()`: three HIGH listeners; `L2` removes itself, `L3`
   * stops the ticker; then `start`.
   */
  const RemoveNextScripts: Scripts := map[L2 := [CallRemove(L2)], L3 := [CallStop]]

  const High1: State := State([Node(L1, HIGH, Nil)], [0], true, false, false, false, [])
  const High2: State := State([Node(L1, HIGH, Ptr(1)), Node(L2, HIGH, Nil)], [0, 1], true, false, false, false, [])
  const High3: State :=
    State([Node(L1, HIGH, Ptr(1)), Node(L2, HIGH, Ptr(2)), Node(L3, HIGH, Nil)], [0, 1, 2], true, false, false, false, [])
  const Triple: State :=
    State([Node(L1, HIGH, Ptr(1)), Node(L2, HIGH, Ptr(2)), Node(L3, HIGH, Nil)], [0, 1, 2], true, true, false, false, [])

  lemma {:induction false} AddHigh1() ensures Insert(NewTicker, L1, HIGH, false) == High1 {}
  lemma {:induction false} AddHigh2() ensures Insert(High1, L2, HIGH, false) == High2 {}
  lemma {:induction false} AddHigh3() ensures Insert(High2, L3, HIGH, false) == High3 {}

  lemma {:induction false} TripleBuilt()
    ensures StartTicker(High3) == Triple && Valid(Triple)
  {
    AddHigh1();
    AddHigh2();
    AddHigh3();
    InsertValid(NewTicker, L1, HIGH, false);
    InsertValid(High1, L2, HIGH, false);
    InsertValid(High2, L3, HIGH, false);
  }

  /** The trace after the first listener, and `L2` as its callback starts. */
  const Triple1: State :=
    State([Node(L1, HIGH, Ptr(1)), Node(L2, HIGH, Ptr(2)), Node(L3, HIGH, Nil)], [0, 1, 2], true, true, false, false, [0])
  const Triple2: State :=
    State([Node(L1, HIGH, Ptr(1)), Node(L2, HIGH, Ptr(2)), Node(L3, HIGH, Nil)], [0, 1, 2], true, true, false, false, [0, 1])

  /** `L2` removed during its call (soft: keeps `next`), then retired by its emit (`next` nulled). */
  const SecondRemoved: State :=
    State([Node(L1, HIGH, Ptr(2)), Listener(L2, HIGH, false, false, Ptr(2)), Node(L3, HIGH, Nil)],
          [0, 2], true, true, false, false, [0, 1])
  const SecondRetired: State :=
    State([Node(L1, HIGH, Ptr(2)), Listener(L2, HIGH, false, false, Nil), Node(L3, HIGH, Nil)],
          [0, 2], true, true, false, false, [0, 1])

  lemma {:induction false} FirstEmit()
    ensures Valid(Triple) && Emit(Triple, RemoveNextScripts, 0) == (Triple1, Ptr(1))
  {
    TripleBuilt();
    assert [] + [0] == [0];
    SilentEmit(Triple, RemoveNextScripts, 0);
  }

  lemma {:induction false} Triple2Valid()
    ensures Valid(Triple2)
  {
    FirstEmit();
    LiveEmit(Triple1, RemoveNextScripts, 1);
    assert [0] + [1] == [0, 1];
  }

  /** `L2`'s node deactivated by `remove`, before the chain is relinked. */
  const Deactivated2: seq<Listener> :=
    [Node(L1, HIGH, Ptr(1)), Listener(L2, HIGH, false, false, Ptr(2)), Node(L3, HIGH, Nil)]

  lemma {:induction false} RemoveSecondParts()
    ensures InArena(Triple2.arena, Triple2.chain) && Without(Triple2.arena, Triple2.chain, L2) == [0, 2]
    ensures Deactivate(Triple2.arena, L2) == Deactivated2
  {
    var a := Triple2.arena;
    assert [0, 1, 2][1..] == [1, 2] && [1, 2][1..] == [2] && [2][1..] == [];
    assert Without(a, [2], L2) == [2];
    assert Without(a, [1, 2], L2) == [2];
  }

  lemma {:induction false} RelinkSecond()
    ensures InArena(Deactivated2, [0, 2]) && Distinct([0, 2])
    ensures Relink(Deactivated2, [0, 2]) == SecondRemoved.arena
  {
    var d := Deactivated2;
    var d1 := d[0 := d[0].(next := Ptr(2))];
    assert [0, 2][1..] == [2] && [2][1..] == [];
    assert Relink(d, [0, 2]) == Relink(d1, [2]);
    assert Relink(d1, [2]) == Relink(d1[2 := d1[2].(next := Nil)], []);
  }

  lemma {:induction false} RemoveSecond()
    ensures Valid(Triple2) && RemoveAll(Triple2, L2) == SecondRemoved
  {
    Triple2Valid();
    RemoveSecondParts();
    RelinkSecond();
  }

  lemma {:induction false} SecondRuns()
    ensures Valid(Triple2) && RunScript(Triple2, [CallRemove(L2)]) == SecondRemoved
  {
    RemoveSecond();
    RunOne(Triple2, CallRemove(L2));
  }

  lemma {:induction false} SecondRetires()
    ensures Valid(SecondRemoved) && Retire(SecondRemoved, 1) == SecondRetired
  {
    SecondRuns();
    RetireDead(SecondRemoved, 1);
    SecondRetiredArena();
  }

  lemma {:induction false} SecondRetiredArena()
    ensures SecondRemoved.(arena := SecondRemoved.arena[1 := SecondRemoved.arena[1].(next := Nil)]) == SecondRetired
  {
    assert SecondRemoved.arena[1 := SecondRemoved.arena[1].(next := Nil)] == SecondRetired.arena;
  }

  lemma {:induction false} SecondEmit()
    ensures Valid(Triple1) && Emit(Triple1, RemoveNextScripts, 1) == (SecondRetired, Ptr(2))
  {
    FirstEmit();
    LiveEmit(Triple1, RemoveNextScripts, 1);
    assert Triple1.(fired := Triple1.fired + [1]) == Triple2;
    assert ScriptOf(RemoveNextScripts, Triple1.arena[1].fn) == [CallRemove(L2)];
    SecondRuns();
    SecondRetires();
  }

  /** The trace after all three listeners, with the ticker stopped by `L3`. */
  const Stopped3: State := SecondRetired.(fired := [0, 1, 2], started := false)

  lemma {:induction false} Fired3Valid()
    ensures Valid(SecondRetired) && SecondRetired.fired + [2] == [0, 1, 2]
    ensures Valid(SecondRetired.(fired := [0, 1, 2]))
  {
    SecondRetires();
    LiveEmit(SecondRetired, RemoveNextScripts, 2);
  }

  lemma {:induction false} ThirdRuns()
    ensures Valid(SecondRetired.(fired := [0, 1, 2]))
    ensures RunScript(SecondRetired.(fired := [0, 1, 2]), [CallStop]) == Stopped3 && Valid(Stopped3)
  {
    Fired3Valid();
    RunOne(SecondRetired.(fired := [0, 1, 2]), CallStop);
  }

  lemma {:induction false} ThirdEmit()
    ensures Valid(SecondRetired)
    ensures Emit(SecondRetired, RemoveNextScripts, 2) == (Stopped3, Nil)
  {
    Fired3Valid();
    LiveEmit(SecondRetired, RemoveNextScripts, 2);
    ThirdRuns();
    RetireKept(Stopped3, 2);
  }

  /**
   * A listener that removes itself does not cut the traversal short: the
   * next listener is still reached through the removed node's `next`, so
   * all three are invoked once, and the third one's `stop` stops the ticker.
   */
  lemma {:induction false} RemovedNextStillFollowed(fuel: nat)
    requires 3 <= fuel
    ensures Valid(Triple)
    ensures var t := Update(Triple, RemoveNextScripts, fuel);
      t.1 && t.0.fired == [0, 1, 2] && !t.0.started && Count(t.0) == 2
  {
    FirstEmit();
    SecondEmit();
    ThirdEmit();
    var r1 := fuel - 1;
    var r2 := r1 - 1;
    var r3 := r2 - 1;
    WalkStepAt(Triple, RemoveNextScripts, Ptr(0), fuel, r1);
    WalkStepAt(Triple1, RemoveNextScripts, Ptr(1), r1, r2);
    WalkStepAt(SecondRetired, RemoveNextScripts, Ptr(2), r2, r3);
  }
}
