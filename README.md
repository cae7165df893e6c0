# rosplata runtime core in Dafny

This project models three parts of the rosplata single-page application runtime and proves properties about them.

- **The reactive Store** (`CStore`). It holds one state tree under `data`. `get` and `has` address the tree by dotted field names, walking one segment at a time from the store object. `set` writes only to a path that already exists, and then notifies the callbacks registered under exactly that name. `subscribe` and `unsubscribe` keep an insertion-ordered, duplicate-free set of callbacks for each name.
- **The LayoutManager** (`CLayoutManager`). It follows the store's `layout` field. A repeated name refreshes the current layout with `update()`. A new name is recorded as active, the old layout is exterminated, and the layout resolved for the new name, if any, is created and rendered.
- **The two App handlers.** The body click handler picks between `Router.back()` and `Router.navigate(href, pushHistory)`. The `load` handler starts the Router behind the authentication gate.

Modules:

- `Js` holds `Option`, `Result` and the two kinds of thrown error.
- `Paths` models `split('.')`, `join('.')` and the canonical index names of array elements.
- `StoreTree` holds the value tree, the one-segment step of `Reflect.has` and property read, the walk, and assignment.
- `Store` holds the callback registry and the `CStore` class.
- `LayoutManager` holds a pure `Change` step function that specifies `#onChange`, and the class whose methods are proved against it.
- `App` holds the click and load handlers.

Values are `Tree = Leaf(Prim) | Node(map) | List(seq)`. An array has exactly the keys that spell one of its indices in canonical decimal (`"3"`, not `"03"`). `Reflect.has` on a primitive throws a TypeError, and the model returns that as `Throw(TypeError)`. Callbacks are identified by number. A notification is appended to a log as a `(callback, value)` pair. Router and AuthManager results, and whether the dynamic `import()` of a layout module succeeds, are parameters.

Notes on the source's behaviour:

- The click handler looks only at the innermost element clicked. A click on an element inside a link, such as the `<span>` in `<a href="/x"><span>…</span></a>`, makes no Router call and is not prevented, so the browser follows the link itself.
- An anchor without `data-goback` calls `navigate(href, false)`, because `didgoback` stays `true`. History is recorded only after a failed `back()`.
- `has` and `get` on a path that steps through a primitive throw a TypeError rather than returning false or absent. Examples are `has('layout.x')` and `has('layout.')`.
- When loading a layout module fails, the previous layout has already been exterminated. `#layout` still refers to it, so the previous layout does not stay displayed. The failed name is not retried: when it comes again, the `update()` branch runs on the exterminated layout. If there was no earlier layout, as when `'main'` fails to load right after the startup value `''`, `#layout` is `undefined` and the repeat throws a TypeError.
- A write at `p` changes what every path leading to `p` reads: those values now hold the updated subtree (`StoreTree.WriteAbove`). Only paths that neither lie on the way to `p` nor below it read as before.
- `unsubscribe` leaves an empty callback set in the map. The model keeps the key with an empty sequence, which notifies no one.

## Model

| member | source | states |
|---|---|---|
| Store.CStore.constructor | src/core/Store.mjs:3-11 | The store starts with the initial `data` tree, no listeners and no notifications, and its invariant holds. |
| Store.InitialData | src/core/Store.mjs:7-11 | `data` starts as an object whose keys are exactly the three declared fields. `InitialShape` gives the values. |
| Store.InitialShape | src/core/Store.mjs:7-11 | The initial tree has exactly the fields `selectedBudgetId`, `budgets` and `layout`, and `get` finds `-1`, `[]` and `''` for them. |
| Store.EmptyNameAbsent | src/core/Store.mjs:52-66 | When `data` has exactly the declared fields, the empty name resolves to nothing, so `has('')` is false. |
| Store.Added | src/core/Store.mjs:18 | Adding a callback gives a set that contains it and what was there before, and nothing else. Existing entries keep their order. No duplicates are introduced. |
| Store.SubscribeTwice | src/core/Store.mjs:13-19 | Subscribing the same callback twice is the same as once, and leaves exactly one entry for it. |
| Store.SubscribeInOrder | src/core/Store.mjs:13-19 | Two distinct new callbacks are appended in the order they were subscribed. |
| Store.CStore.Subscribe | src/core/Store.mjs:13-19 | Only the entry for `field` changes. It becomes the old set with the callback added. The tree and the log are untouched. |
| Store.Removed | src/core/Store.mjs:23 | Deleting a callback keeps exactly the other entries. It keeps the set duplicate-free, and it changes nothing when the callback is not registered. |
| Store.RemovedAt | src/core/Store.mjs:21-25 | Deleting a registered callback removes its one entry and keeps every other callback in order. |
| Store.UnsubscribeUndoesSubscribe | src/core/Store.mjs:13-25 | Unsubscribing a callback that was not yet registered, right after subscribing it, restores the previous set. |
| Store.CStore.Unsubscribe | src/core/Store.mjs:21-25 | Deleting a callback changes only `field`'s set. An unknown field, or a callback that is not registered (as with `unsubscribe('selectedBudgetId')`), changes nothing. |
| Store.CStore.Notify | src/core/Store.mjs:27-33 | The log grows by one call per callback registered under exactly `field`, in registration order, each call with the new value. |
| Store.Notifications | src/core/Store.mjs:29-31 | The calls of the `#notify` loop, one per callback with the new value. It has no contract of its own: `NotifyOnceEach` and `RemovedNotNotified` state its properties, and `CStore.Notify` is proved to append it. |
| Store.NotifyOnceEach | src/core/Store.mjs:27-33 | Each registered callback is called exactly once, with the new value, in registration order. No other callback is called. |
| Store.RemovedNotNotified | src/core/Store.mjs:21-33 | A callback removed before a `set` is not among the calls the `set` makes. |
| Store.CStore.Get | src/core/Store.mjs:35-50 | The segment loop returns the value the walk of `"data." + field` reaches. It returns absent at the first missing segment, and a TypeError at a step from a primitive. |
| Store.CStore.Has | src/core/Store.mjs:52-66 | `has` is true exactly when `get` finds a value, false exactly when `get` gives absent, and throws exactly when `get` throws. |
| Store.Lookup | src/core/Store.mjs:37 | The walk of the pieces of `"data." + field` from the store object. It has no contract of its own: `LookupFromData`, `FieldLookup` and `BudgetAt` state what it reads, and `CStore.Get` and `CStore.Has` are proved to compute it. |
| Store.LookupFromData | src/core/Store.mjs:37 | Walking `"data." + field` from the store object is walking the pieces of `field` from `data`. |
| Store.FieldLookup | src/core/Store.mjs:35-50 | A name without dots reads that field of `data`, or absent when there is no such field. |
| Store.BudgetAt | src/containers/BudgetDetails/BudgetDetails.mjs:32 | `get(\`budgets.${id}\`)` returns element `id` of the budgets array. |
| Store.CStore.Set | src/core/Store.mjs:68-81 | On an existing path, the tree becomes the tree with the value written there, and the callbacks of exactly `field` are notified. On a missing path, nothing changes and no one is called. A path through a primitive throws a TypeError and changes nothing. |
| Store.SetThenGet | src/core/Store.mjs:68-81 | After a successful `set(p, v)`, `get(p)` returns `v`. |
| Store.SetThenGetBelow | src/core/Store.mjs:68-81 | After a successful `set(p, v)`, `get(p + '.' + r)` reads `r` from `v`. |
| Store.SetLeavesOthers | src/core/Store.mjs:68-81 | After a successful `set(p, v)`, every name that is not on the way to `p` and not below it reads as before. |
| StoreTree.Child | src/core/Store.mjs:41-44 | One step of the walk throws exactly on a primitive, and then a TypeError. An element found in an array is found under the decimal spelling of its index. |
| StoreTree.Resolve | src/core/Store.mjs:39-46 | The empty walk finds its start. The only error a walk throws is a TypeError, and only from a step. `ResolveEverySegment` and `ResolveAppend` state how it proceeds. |
| StoreTree.ResolveEverySegment | src/core/Store.mjs:39-46 | The walk finds a value exactly when every segment of the path resolves, in turn, from the root. |
| StoreTree.ResolveAppend | src/core/Store.mjs:39-46 | Walking `p + q` is walking `p`, then walking `q` from where `p` led. It stops at the first failure. |
| StoreTree.Assign | src/core/Store.mjs:74-77 | `parent[last] = value` on an existing key keeps the parent's kind and keys. `AssignChild` states what it reads afterwards. |
| StoreTree.AssignChild | src/core/Store.mjs:72-78 | `parent[key] = v` makes `key` read `v` and leaves every other key of the parent as it was. |
| StoreTree.Write | src/core/Store.mjs:68-81 | Writing at a non-empty path keeps the root's kind and its set of keys. Over the model's values, whose only keys are own data keys, `set` therefore never adds or removes a field. |
| StoreTree.WriteAtParent | src/core/Store.mjs:71-78 | Assigning `last` in the object found at the parent path is the same as writing at the full path. |
| StoreTree.WriteThenRead | src/core/Store.mjs:68-81 | After writing `v` at an existing path, the walk of that path finds `v`. |
| StoreTree.WriteBelow | src/core/Store.mjs:68-81 | After writing `v` at `p`, every path below `p` reads from `v`. |
| StoreTree.WriteElsewhere | src/core/Store.mjs:68-81 | After writing at `p`, paths that are neither a prefix of `p` nor extend it read as before. |
| StoreTree.WriteAbove | src/core/Store.mjs:68-81 | After writing at `p`, each value on the way to `p` holds its old subtree with the write applied. |
| Paths.Split | src/core/Store.mjs:37 | `split('.')` gives at least one piece, and no piece contains a dot. |
| Paths.Join | src/core/Store.mjs:74 | `join('.')` begins with the first piece, followed by a dot when there are more. `JoinSplit` and `SplitJoin` show that it inverts `split('.')`. |
| Paths.JoinSplit | src/core/Store.mjs:69-74 | Joining the pieces of `split('.')` gives back the original name. |
| Paths.SplitJoin | src/core/Store.mjs:69-74 | Splitting the join of dot-free pieces gives back the pieces. This is how `set` finds the parent path. |
| Paths.SplitConcat | src/core/Store.mjs:37 | Splitting `a + '.' + b` gives the pieces of `a` followed by those of `b`. |
| Paths.SplitNoDot | src/core/Store.mjs:37 | A name without dots splits into itself. |
| Paths.IndexString | src/containers/BudgetDetails/BudgetDetails.mjs:32 | The decimal spelling of a number is a canonical index name, without dots. |
| Paths.ParseIndexString | src/containers/BudgetDetails/BudgetDetails.mjs:32 | The spelling of `id` names array element `id`. |
| Paths.IndexStringOfValue | src/core/Store.mjs:41 | A canonical index name is the spelling of its own value. |
| Paths.ParseIndexInjective | src/core/Store.mjs:41 | Two different names never denote the same array element. |
| LayoutManager.CLayoutManager.constructor | src/utils/LayoutManager.mjs:9-12 | The callback is subscribed to `'layout'`, and the field's current value is processed once, starting from no active name and no layout. |
| LayoutManager.CLayoutManager.OnChange | src/utils/LayoutManager.mjs:14-23 | The new state and the thrown error are those of `Change` applied to the old state, and the at-most-one-layout invariant is kept. |
| LayoutManager.Change | src/utils/LayoutManager.mjs:14-23 | Every change keeps the invariant that all layouts but the current one are exterminated. |
| LayoutManager.AtMostOneMounted | src/utils/LayoutManager.mjs:14-23 | Under the invariant at most one layout is mounted, and it is the current one. |
| LayoutManager.SameNameRefreshes | src/utils/LayoutManager.mjs:15-16 | A repeated name calls `update()` once on the current layout. Nothing is exterminated or created, and no other instance changes. |
| LayoutManager.SameNameWithoutLayoutThrows | src/utils/LayoutManager.mjs:9-16 | A repeated name with no layout (such as `''` set again after startup) throws a TypeError and changes nothing. |
| LayoutManager.NewNameSwaps | src/utils/LayoutManager.mjs:17-22 | A new name becomes active and every earlier layout is exterminated. A resolved layout is created, rendered and becomes current. The calls are exterminate first, then render. |
| LayoutManager.GetLayout | src/utils/LayoutManager.mjs:25-35 | The layout class for a name. It has no contract of its own: `OnlyMainMounts` states that only `'main'` resolves to a layout, a `MainLayout`. |
| LayoutManager.Refreshed | src/utils/LayoutManager.mjs:16 | `update()` keeps the instance's kind and whether it is mounted. |
| LayoutManager.OnlyMainMounts | src/utils/LayoutManager.mjs:25-35 | After a new name, a layout is mounted exactly when the name is `'main'`, and it is a fresh `MainLayout`. Any other name mounts nothing and renders nothing, yet is still recorded as active. |
| LayoutManager.NewNameLoadFails | src/utils/LayoutManager.mjs:18-20 | If the layout module fails to load, the name is already active and the old layout already exterminated. `#layout` still refers to the old layout. |
| LayoutManager.Run | src/utils/LayoutManager.mjs:14-23 | Any sequence of settled changes, with each layout module loading or failing to load, keeps the at-most-one-layout invariant. |
| LayoutManager.RunRecordsLast | src/utils/LayoutManager.mjs:14-23 | After any non-empty sequence of changes, failed loads included, the last value is the active name. |
| LayoutManager.ChangeMounts | src/utils/LayoutManager.mjs:14-23 | A settled change makes the name active and mounts exactly the layout it resolves to. |
| LayoutManager.RunMountsLast | src/utils/LayoutManager.mjs:14-23 | After any non-empty sequence of `layout` values, repeats included, in which every layout module loads, the last value is active. At most one layout is mounted: a rendered instance of the kind that value resolves to, or none. |
| LayoutManager.FailedLoadNotRetried | src/utils/LayoutManager.mjs:15-20 | After a failed load, the same name again takes the `update()` branch. No layout is created, every layout stays exterminated, and nothing is mounted for the name. The repeat throws a TypeError exactly when there was no earlier layout. |
| App.OnClick | src/App.mjs:12-25 | A click whose target element is not an `A`, including a child element of a link, makes no Router call. A `data-goback` anchor calls `back()` once, followed by `navigate(href, true)` only if `back()` failed. Any other anchor calls only `navigate(href, false)`. |
| App.OnLoad | src/App.mjs:27-33 | The handler first calls `AuthManager.start()`. `validate()` is called only if `start()` completes, and `Router.start()` only if `validate()` is then true. |

## Left out

- DOM work: `preventDefault`, `stopImmediatePropagation`, `querySelector`, template cloning, class-list edits and `importStyle`. It is rendering plumbing with no logic of its own.
- I/O and foreign modules: `fetch`, `RequestManager`, the internals of `AuthManager`, and the dynamic `import()` of layout modules. Their outcomes are parameters (`startCompletes`, `sessionValid`, `importOk`).
- Router and Component are not part of this model. Only their calls (`back`, `navigate`, `start`, `render`, `update`, `exterminate`) are modelled. `update()` on an exterminated layout is recorded and leaves it exterminated.
- Interleavings: the `await` in `#onChange` is treated as atomic. Overlapping layout swaps are not modelled, nor is an `update()` reaching a layout that a pending swap has already exterminated.
- Callbacks are not run. In particular, a callback that calls `subscribe`, `unsubscribe` or `set` while `#notify` is iterating is not modelled.
- Aliasing: the tree is a value. A JavaScript object stored under two names, or kept by a caller after `set` or `get`, would share later writes. The model does not capture that.
- An array's own `length` property and the members objects and arrays inherit from `Array.prototype` and `Object.prototype` (such as `push` or `toString`). The model gives objects and arrays only their index and data keys. In JavaScript `has('budgets.length')` is true, `get` returns the length, and `set('budgets.length', 0)` empties the array in place; in the model the name reads absent. Equally, `set('toString', v)` creates an own `toString` field on `data` in JavaScript, which the model does not.
- Stored values are JSON-like: numbers, strings, booleans, `null`, plain objects and arrays. `undefined`, functions and class instances are not modelled. In JavaScript `set(p, undefined)` leaves `has(p)` true while `get(p)` is `undefined`, so the `CStore.Has` row's match between `has` and `get` holds only for JSON-like values.
- Numbers are unbounded integers. Floating point and the `2^32 - 2` limit on array indices are not modelled.
- `===` between two objects compares identity in JavaScript. The LayoutManager compares names by value; the application only stores strings in `layout`.
- `unsubscribe(field)` with the callback omitted is modelled as unsubscribing a callback that is not registered. That is what deleting `undefined` from the set amounts to, since no caller subscribes `undefined`.
- LayoutManager.Change: `exterminate()`, `render()` and `update()` are taken to return normally. If `exterminate()` threw, `#onChange` would reject with the new name already active and the new layout never loaded, and a repeat of that name would call `update()` on the old layout. Component is not part of this model, so those failures are not modelled.
- LayoutManager.CLayoutManager.constructor: a load failure in the initial `#onChange` is an unhandled rejection that the constructor does not see, so the constructor reports no error.
- BudgetList and the balance totals of BudgetDetails are not modelled: UI, timers and floating-point sums.
