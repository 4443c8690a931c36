# Ticker: a verified model of pixi's per-frame callback scheduler

This project models the `Ticker` of `@pixi/ticker` as its test suite pins it
down. A ticker holds its listeners in a sentinel-headed, singly linked list.
The list is kept sorted by priority; listeners of equal priority stay in the
order they were added. The operations are:

- `add` / `addOnce` insert a node;
- `remove(fn)` unlinks every node of `fn` at once, even in the middle of a tick;
- `update` walks the list and invokes each node;
- `destroy` drops the head and stops the ticker, except on the protected `shared` and `system` singletons.

A tick reads a node's `next` only after that node's callback has returned. So a
node added behind the current one during the tick is still reached in that tick.
A node that removes itself is still left through its stale `next`.

The model has six modules:

- `TickerSpec` (`ticker_spec.dfy`) holds the value-level semantics. The listener nodes sit in an arena `seq<Listener>`, and each node's `next` is an arena index or `Nil`. Next to it, `chain` lists the nodes reachable from the head, in order. `Valid` ties the two together: the chain is sorted by priority, `next` links follow the chain, a node is live exactly when it is linked, and every `next` points forward in the list order. A `fired` trace records the invoked nodes. Callbacks are bare ids, and a `Scripts` map says what each callback does to its own ticker when it runs (`CallAdd`, `CallAddOnce`, `CallRemove`, `CallStart`, `CallStop`, `CallDestroy`). `Insert`, `RemoveAll`, `Unlink`, `DestroyTicker`, `Emit`, `Walk` and `Update` are the operations, each proved to keep `Valid`.
- `Tickers` (`ticker.dfy`) holds the ticker as an object, class `Ticker`. Its fields are updated in place by methods with loops: finding the insertion slot, finding a predecessor, the removal loop, the destroy loop, the tick loop and the count walk. Each method is proved to move `Model()` exactly as the `TickerSpec` function does.
- `TickerSteps` (`ticker_steps.dfy`) states the loop invariants of `remove` and `destroy` as prefix functions.
- `TickerLaws` (`ticker_laws.dfy`) proves the promised properties of the operations for all inputs: placement by priority, what `remove` leaves, what a quiet tick does, one-shot retirement, destroy, and removed listeners never firing.
- `TickerReentry` (`ticker_reentry.dfy`) proves, for every valid state and every set of callback bodies, how one tick copes with a callback that changes the list: the traversal never goes back, it goes on at the successor the node has once its call returns, and a node that removes itself hands on to the node that followed it at the moment of removal. When the nodes behind the caller leave the ticker alone, the rest of the tick invokes all of them in list order, so a node the callback added at a priority not above its own runs in that same tick. Along the way it shows that a destroyed node is never touched again by any call a callback makes (`ApplyKeepsDead`, `RunKeepsDead`).
- `TickerScenarios` (`ticker_scenarios.dfy`) replays each test case on concrete states. It is built from those laws plus step-by-step evaluation.

## Model

| member | source | states |
|---|---|---|
| Tickers.Ticker.constructor | packages/ticker/test/Ticker.tests.ts:42-50 | `new Ticker()` is valid, has a head and an empty list, is stopped, is not auto-starting and is not protected |
| Tickers.Ticker.Shared | packages/ticker/test/Ticker.tests.ts:5 | the `shared`/`system` singletons start empty and stopped, are auto-starting, and are protected from `destroy` |
| Tickers.Ticker.Count | packages/ticker/test/Ticker.tests.ts:13-32 | walking from the head's `next` to null counts exactly the linked nodes, and gives 0 when there is no head |
| Tickers.Ticker.Start | packages/ticker/test/Ticker.tests.ts:42-46 | `start` sets `started` when the head exists and changes nothing else |
| Tickers.Ticker.Stop | packages/ticker/test/Ticker.tests.ts:432-436 | `stop` clears `started` and changes nothing else |
| Tickers.Ticker.Add | packages/ticker/test/Ticker.tests.ts:157-163 | the object's new state is `Insert` of the old one: one new persistent node, linked by priority; an auto-starting ticker is started |
| Tickers.Ticker.AddOnce | packages/ticker/test/Ticker.tests.ts:184-189 | the same, with a one-shot node |
| Tickers.Ticker.AddListener | packages/ticker/test/Ticker.tests.ts:157-163 | the in-place splice after the slot found by `FindSlot` yields exactly `Insert` |
| Tickers.FindSlot | packages/ticker/test/Ticker.tests.ts:157-174 | the walk from the head stops before the first node of strictly lower priority; it returns the nodes before and after that position |
| Tickers.FindPrev | packages/ticker/test/Ticker.tests.ts:83-95 | the walk from the head returns the predecessor of a linked node, or `Nil` when the node is first |
| Tickers.Ticker.Remove | packages/ticker/test/Ticker.tests.ts:83-95 | the removal loop leaves exactly `RemoveAll` of the old state |
| Tickers.Ticker.UnlinkNode | packages/ticker/test/Ticker.tests.ts:299-311 | unlinking one node in place equals `Unlink`, and the node's old `next` is handed back |
| Tickers.Ticker.Destroy | packages/ticker/test/Ticker.tests.ts:42-61 | the destroy loop leaves exactly `DestroyTicker` of the old state |
| Tickers.Ticker.EmitNode | packages/ticker/test/Ticker.tests.ts:422-447 | one node's emit in place equals `Emit`: the callback runs, then `next` is read, then the node is retired |
| Tickers.Ticker.Run | packages/ticker/test/Ticker.tests.ts:247-256 | a callback's effects on its own ticker are applied in order, as `RunScript` |
| Tickers.Ticker.ApplyEffect | packages/ticker/test/Ticker.tests.ts:402-409 | one effect applied in place equals `Apply` |
| Tickers.Ticker.Update | packages/ticker/test/Ticker.tests.ts:97-110 | the tick loop leaves exactly `TickerSpec.Update` of the old state, including whether it completed |
| TickerSpec.InsertValid | packages/ticker/test/Ticker.tests.ts:157-174 | `add` keeps the list sorted by priority, correctly linked and in step with node liveness |
| TickerSpec.RemoveAllValid | packages/ticker/test/Ticker.tests.ts:83-95 | `remove` keeps every list invariant, never revives a node and leaves the trace alone |
| TickerSpec.UnlinkValid | packages/ticker/test/Ticker.tests.ts:299-311 | a node's own destroy, soft or hard, keeps every list invariant |
| TickerSpec.DestroyTickerValid | packages/ticker/test/Ticker.tests.ts:42-61 | `destroy` keeps every invariant |
| TickerSpec.Without | packages/ticker/test/Ticker.tests.ts:83-95 | the filtered chain holds exactly the nodes whose callback is not `fn` |
| TickerSpec.Emit | packages/ticker/test/Ticker.tests.ts:422-447 | an emit appends the node to the trace exactly when it is live; the node to visit next comes after it in list order |
| TickerSpec.Walk | packages/ticker/test/Ticker.tests.ts:97-110 | a traversal only extends the trace and keeps every invariant |
| TickerLaws.InsertPlacement | packages/ticker/test/Ticker.tests.ts:130-144 | `add` raises `count` by one, starts an auto-starting ticker, and places the new node after every node of priority at least its own and before every node of lower priority |
| TickerLaws.InsertRelativeTo | packages/ticker/test/Ticker.tests.ts:197-212 | a new node lands after a linked node if and only if that node's priority is at least the new one's |
| TickerLaws.RemoveAllLaw | packages/ticker/test/Ticker.tests.ts:112-128 | after `remove(fn)`, a node is linked if and only if it was linked and is not `fn`'s; every `fn` node is destroyed; `started` and the trace are unchanged |
| TickerLaws.RemoveEvery | packages/ticker/test/Ticker.tests.ts:146-148 | removing the callback every linked node has leaves `count` 0 and the head's `next` null |
| TickerLaws.RemoveEachClears | packages/ticker/test/Ticker.tests.ts:176-181 | a chain of `remove` calls covering every registered callback leaves `count` 0 |
| TickerLaws.RemoveAbsent | packages/ticker/test/Ticker.tests.ts:83-95 | removing a callback that is not registered changes nothing |
| TickerLaws.RemoveAbsorbsAdd | packages/ticker/test/Ticker.tests.ts:112-128 | `add(fn)` followed by `remove(fn)` leaves the same list as `remove(fn)` alone |
| TickerLaws.AddThenRemove | packages/ticker/test/Ticker.tests.ts:83-95 | adding a new callback and removing it restores the list and its length |
| TickerLaws.DestroyClears | packages/ticker/test/Ticker.tests.ts:150-154 | destroying an unprotected ticker drops the head, stops it, leaves length 0, and destroys every node with its `next` nulled |
| TickerLaws.ProtectedDestroyInert | packages/ticker/test/Ticker.tests.ts:63-81 | `destroy` on a protected ticker changes nothing, so the head stays |
| TickerLaws.HeadlessRunInert | packages/ticker/test/Ticker.tests.ts:402-409 | after `destroy`, a callback's further effects on its ticker change nothing |
| TickerLaws.HeadlessWalkSilent | packages/ticker/test/Ticker.tests.ts:402-420 | a traversal of a destroyed ticker invokes nothing |
| TickerLaws.DestroyInCallback | packages/ticker/test/Ticker.tests.ts:402-420 | a listener whose callback calls `destroy` anywhere in its body, before or after other calls, is invoked and nothing after it is; the ticker has no head afterwards |
| TickerLaws.WalkFiresOnlyLive | packages/ticker/test/Ticker.tests.ts:97-110 | a traversal invokes only nodes that were live when it started, or nodes added during it |
| TickerLaws.RemovedNeverFires | packages/ticker/test/Ticker.tests.ts:104-109 | after `remove(fn)`, the next tick invokes no node registered before the removal with `fn` |
| TickerLaws.RemovedNeverFiresLater | packages/ticker/test/Ticker.tests.ts:112-128 | nor does any tick after that: from any valid state the ticker reaches after `remove(fn)`, a tick invokes no node registered with `fn` before the removal |
| TickerLaws.OnceRetired | packages/ticker/test/Ticker.tests.ts:184-194 | a one-shot node is destroyed and unlinked by its own emit |
| TickerLaws.Persisting | packages/ticker/test/Ticker.tests.ts:184-194 | the nodes that outlive a quiet tick (one whose callbacks leave the ticker alone) are exactly the non-one-shot ones among those visited |
| TickerLaws.PersistingNoOnce | packages/ticker/test/Ticker.tests.ts:112-121 | without one-shot nodes, every visited node outlives a quiet tick |
| TickerLaws.QuietTickNoOnce | packages/ticker/test/Ticker.tests.ts:112-121 | a quiet tick over a list with no `addOnce` listener invokes every node once, in list order, completes, and leaves the list exactly as it was |
| TickerLaws.QuietTick | packages/ticker/test/Ticker.tests.ts:157-174 | a tick whose callbacks do nothing invokes every linked node exactly once, in list order (non-increasing priority, ties in the order added), and completes; afterwards exactly the non-one-shot nodes remain |
| TickerReentry.WalkForward | packages/ticker/test/Ticker.tests.ts:247-273 | every node a traversal from `cur` invokes is `cur` or a node after it in list order, whatever the callbacks add or remove |
| TickerReentry.HigherAddedSkipped | packages/ticker/test/Ticker.tests.ts:247-273 | after a node's call returns, the rest of the tick invokes only nodes after it in list order: never that node again and no node of higher priority, so none its callback added ahead of itself |
| TickerReentry.LiveResume | packages/ticker/test/Ticker.tests.ts:275-297 | a node still linked after its call hands the tick to its successor in the list as the call left it; every node linked behind it then, such as one its callback added at a priority not above its own, is that successor or after it, so not yet passed |
| TickerReentry.LiveRestFires | packages/ticker/test/Ticker.tests.ts:247-297 | for a node still linked at position `k` after its call, with quiet nodes behind it: the rest of the tick invokes exactly the nodes behind it, in list order, and completes; every node its callback added at a priority not above its own is among them |
| TickerReentry.SelfRemovedRestFires | packages/ticker/test/Ticker.tests.ts:299-324 | for a node whose callback ends by removing itself while at position `k`, with quiet nodes of other callbacks behind it: the rest of the tick invokes exactly those nodes, in list order, and completes; every node the callback added earlier at a priority not above its own is among them |
| TickerReentry.QuietTailWalk | packages/ticker/test/Ticker.tests.ts:247-324 | a tick over the end of the list whose nodes leave the ticker alone invokes all of those nodes in order and reaches null |
| TickerReentry.ApplyKeepsDead | packages/ticker/test/Ticker.tests.ts:299-324 | any one call a callback makes (`add`, `addOnce`, `remove`, `start`, `stop`, `destroy`) leaves a destroyed node exactly as it is |
| TickerReentry.RunKeepsDead | packages/ticker/test/Ticker.tests.ts:299-324 | a whole callback body leaves a destroyed node exactly as it is, so a removed node's stale `next` is still the one it had at removal |
| TickerReentry.SelfRemovedResume | packages/ticker/test/Ticker.tests.ts:299-324 | a node whose callback removes its own callback is destroyed, and the tick goes on at the node that followed it at the moment of removal, whatever the callback does before or after; every node linked behind it then is that node or after it |
| TickerScenarios.CreateAndDestroy | packages/ticker/test/Ticker.tests.ts:42-61 | length 0, then 1 after `add`; after `destroy` there is no head, the ticker is stopped and the length is 0 |
| TickerScenarios.ProtectedAgainstDestroy | packages/ticker/test/Ticker.tests.ts:63-81 | after an auto-starting `add`, `destroy` on `shared`/`system` keeps the head and `started` |
| TickerScenarios.CountListeners | packages/ticker/test/Ticker.tests.ts:130-155 | `count` goes 0, 1, 2 as the same spy is added twice, then to 0 after one `remove`; `destroy` then clears the head and stops the ticker |
| TickerScenarios.UpdateThenRemove | packages/ticker/test/Ticker.tests.ts:97-110 | the spy is invoked once; after `remove` the next tick does not invoke it again |
| TickerScenarios.UpdateTwiceRemoveOnce | packages/ticker/test/Ticker.tests.ts:112-128 | a spy added twice is invoked twice and linked twice; one `remove` unlinks both, and the next tick invokes neither |
| TickerScenarios.PriorityOrder | packages/ticker/test/Ticker.tests.ts:157-182 | LOW, INTERACTION, HIGH and NORMAL spies are invoked INTERACTION, HIGH, NORMAL, LOW; four stay linked; removing all four empties the list |
| TickerScenarios.OnceListenerRemoved | packages/ticker/test/Ticker.tests.ts:184-195 | an `addOnce` spy is invoked once and is unlinked after the tick |
| TickerScenarios.SamePriorityInAddOrder | packages/ticker/test/Ticker.tests.ts:197-219 | three spies of equal priority are invoked in the order added; three stay linked; removing them empties the list |
| TickerScenarios.InsertedLowerPriorityCalled | packages/ticker/test/Ticker.tests.ts:247-273 | a listener that adds a HIGH and a LOW listener during its call: the LOW one runs in the same tick, the HIGH one does not, three stay linked, and removing all three empties the list |
| TickerScenarios.AddedDuringEmitCalled | packages/ticker/test/Ticker.tests.ts:275-297 | a LOW listener added during a call runs once in that same tick; two stay linked, and removing both empties the list |
| TickerScenarios.SelfRemovalAfterAdd | packages/ticker/test/Ticker.tests.ts:299-324 | a listener that adds a LOW one and removes itself leaves one linked node as soon as its body has run; the tick still reaches the new node, each runs once, one stays linked, and removing it empties the list |
| TickerScenarios.DestroyOnListener | packages/ticker/test/Ticker.tests.ts:402-420 | on a started `new Ticker()`, a listener that destroys the ticker runs once, and the LOW listener after it never runs |
| TickerScenarios.RemovedNextStillFollowed | packages/ticker/test/Ticker.tests.ts:422-447 | three HIGH listeners, the second removing itself and the third stopping the ticker: all three run once, in order, the tick completes, and the ticker ends stopped with two nodes linked |

## Left out

- packages/ticker/src/Ticker.ts and TickerListener.ts are not part of this model. The semantics follow what the test suite asserts about them.
- Frame timing is left out: `deltaTime`, `elapsedMS`, `lastTime`, `speed`, `minFPS`/`maxFPS` and `FPS` are floating-point values that no modelled case asserts on. `update` takes no timestamp.
- The animation-frame driver is left out. `start` only sets `started`, and the tick that `requestAnimationFrame`/`setTimeout` would trigger is an explicit `Update` call. The asynchronous `done` callbacks of the last two cases become that call.
- Listener context (`this` binding) is left out. `remove` matches on the callback id alone, as every case passes a `null` context.
- Callbacks are fixed effect scripts (`Scripts`), not arbitrary closures. The same callback performs the same effects on every call.
- The doubly linked `previous` pointers are not modelled. The list is singly linked, and a predecessor is found by walking from the head.
- A destroyed node's `fn` and context are not nulled in the model. A destroyed node is only marked not live.
- TickerSpec.Update: takes a `fuel` bound on the number of nodes one tick may visit. A callback that keeps re-adding listeners behind itself would make the source's loop run forever. With `fuel` at least the number of nodes a tick visits, the tick completes, and every scenario holds for every such `fuel`.
- Tickers.Ticker.Update: same `fuel` bound as `TickerSpec.Update`.
- After `destroy` drops the head, the source's `add`, `remove`, `update`, `start` and a second `destroy` would dereference a null head. The model makes them no-ops (`HeadlessApplyInert` for the calls a callback can make, `StartTicker` and `DestroyTicker` on a ticker without a head), and no test case exercises them.
- A callback cannot call `update` on its own ticker: `Effect` has no case for it. A tick started from inside a tick, and any guard the source may have against one, are not modelled.
- TickerReentry.LiveRestFires: asks that the nodes behind the caller have callbacks that leave the ticker alone, as the tests' spies do; with busier callbacks behind it, only `HigherAddedSkipped` and `LiveResume` apply.
- TickerReentry.SelfRemovedRestFires: asks, in addition, that the `remove` be the callback's last call and that no node behind it belong to the same callback, as in the test; `SelfRemovedResume` covers any body around the `remove`.
- TickerScenarios.InsertedLowerPriorityCalled: replayed on a shared ticker holding only that case's listeners, whereas the test runs on a `shared` ticker that may hold others; `HigherAddedSkipped` states the general form of the HIGH node being skipped, and `LiveRestFires` that of the LOW node running in the same tick, for every state whose nodes behind the caller are quiet.
- TickerScenarios.AddedDuringEmitCalled: replayed on a shared ticker holding only that case's listeners; `LiveRestFires` states the general form, for every state whose nodes behind the caller are quiet.
- TickerScenarios.SelfRemovalAfterAdd: replayed on a shared ticker holding only that case's listeners; `SelfRemovedRestFires` states the general form, for every state whose nodes behind the caller are quiet and belong to other callbacks.
- The three skipped cases are not modelled as promises: "should remove once listener in a stack", "should remove itself before, still calling new item" and "should remove items before and after current priority".
- packages/core/test/ImageBitmapResource.tests.ts is not part of this model. It depends on the DOM and on asynchronous image decoding.
