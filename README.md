# node-object-pointer, modelled in Dafny

A `Pointer` names one position inside a tree of plain JavaScript objects.
It is made of three things:

- a root, which is either a raw object or another `Pointer`;
- a location, which is a path of keys;
- a cache (`_pointerRoot`) of the object found at that location.

It offers these operations:

- `get`, `set`, `create` and `clear` read, write, force into existence and
  delete values below the location;
- `setRoot` and `setLocation` re-aim the pointer;
- `getRoot` follows root pointers up to the raw root;
- `getLocationObject(force)` resolves the location object and caches it.
  It either walks the existing path or, when forcing, creates every
  missing level.

A pointer whose root is another pointer is *chained*. It registers a hook
closure on its root pointer's `'changed'` event. Each `setRoot` (and each
`setLocation` that is not suppressed) emits `'changed'`. Every pointer
hooked on the emitter then resets its cache and resolves it again, without
forcing.

The model is layered like this:

- `values.dfy` (`Values`): JavaScript values, limited to object references
  and primitives. It also holds truthiness, `instanceof Object`, the errors
  the component raises, and `Option`/`Result`.
- `location.dfy` (`Location`): location specifiers and `_parseLocation`,
  plus the falsy guard of `setLocation`.
- `tree.dfy` (`ObjectTree`): the object store as a map from object
  identities to key/value maps. It has:
  - the non-forcing walk (`Walk`) and the forcing walk (`Force`) that
    `retrieve-object-child` performs;
  - `get`'s lookup (`Lookup`);
  - `clear`'s delete-and-prune-upwards (`Prune`);
  - their lemmas.
- `table.dfy` (`PointerTable`): the fields of every `Pointer` instance as a
  table of records. It has:
  - hook registration and removal (`HookOn`, `Remove`, `Unhook`);
  - the re-rooting step of `setRoot` (`Rebind`);
  - `getRoot` (`TopRoot`);
  - a ghost ranking that keeps chains of root pointers acyclic.
- `resolve.dfy` (`Resolution`): `getLocationObject` (`Resolve`),
  `_refreshRoot` (`Refresh`) and `emit('changed')` (`Emit`). It also has a
  cache-free reference resolution (`Fresh`) and what an emission does to
  the caches of chained pointers.
- `ops.dfy` (`Operations`): the public operations as transitions of the
  whole state (the store plus the pointer table).
- `properties.dfy` (`Properties`): what the operations promise across
  calls:
  - `set` then `get`, `create` then `get`, `clear` then `get`;
  - `get` against the cache-free resolution;
  - the cache `setRoot` and `setLocation` leave;
  - `getRoot` of a chained pointer;
  - the scenarios of the `create()`, `set()` and `clear()` tests.
- `pointer.dfy` (`Pointers`): class `Heap`. It owns the store, the pointer
  table, the hook-serial and instance counters and a log of emissions. Each
  of its methods mirrors one method of `Pointer`, with the receiving
  instance passed as an identity. Each is proved to leave exactly the state
  of the matching transition function. Every method that mirrors a public
  operation keeps the heap invariant; the hook steps inside `setRoot`
  (`UnhookPointer`, `HookPointer`, `ChainTo`) run between two states where
  it holds, and their contracts say exactly what they change instead.

Errors are values:

- `InvalidRoot` is the `TypeError` of `setRoot`.
- `InvalidLocation` is the `TypeError` of `_parseLocation`.
- `EmptyLocation` is "Cannot set the root property".
- `EmptyClear` is "Clear must at least have one level of depth".
- `PropertyOfNonObject` is the strict-mode `TypeError` of assigning a key
  of a primitive.

An operation that throws half way returns the state it had reached at the
throw. For example, `setRoot` has already stored and hooked the new root
when it refuses the location.

## Model

| member | source | states |
|---|---|---|
| `Pointers.CopyLocation` | index.js:20-34 | The loop copies an array specifier key by key. The result is exactly `ParseLocation`: an array gives its keys; a string gives a one-key path; any other falsy value gives `[]`; any other truthy value is `InvalidLocation`. |
| `Location.ParseLocation` | index.js:20-34 | `_parseLocation`: an array gives its own keys, a string a one-key path, any other falsy value `[]`; it raises `InvalidLocation` exactly on the other truthy values. |
| `Location.SetLocationPath` | index.js:96-100 | The path `setLocation` stores. It is refused exactly when `_parseLocation` refuses the specifier, and where the two differ it stores `[]` while `_parseLocation` gives `[""]`. |
| `Location.SetLocationGuardDiffers` | index.js:96-100 | The `if (loc)` guard of `setLocation` and the falsy branch of `_parseLocation` disagree on exactly one specifier, the empty string (`""` gives `[]` in one and `[""]` in the other). |
| `ObjectTree.Walk` | index.js:129-133 | The non-forcing walk of `retrieve-object-child` ends on `undefined`, a primitive, or an object that is stored: it never yields a dangling reference. |
| `ObjectTree.Force` | index.js:116-126 | The forcing walk only grows the store: defined values are never changed, and the result is stored. |
| `ObjectTree.WalkAppend` | index.js:204-215 | Walking `prefix + [k]` is reading `k` of whatever the prefix reaches, or `undefined` when that is not an object. |
| `ObjectTree.ForceThenWalk` | index.js:163-166 | After forcing a path, the non-forcing walk of that path reaches the value the forcing returned. |
| `ObjectTree.ForceExisting` | index.js:163-166 | Forcing a path that already leads to an object creates nothing and returns that object. |
| `ObjectTree.ForceOpen` | index.js:163-166 | Forcing a path with no primitive in the way always ends at an object. |
| `ObjectTree.ForceOpenSplit` | index.js:163-166 | Forcing the first part of a path with no primitive in the way ends at an object below which the rest of the path is still free of primitives. |
| `ObjectTree.ForceLayered` | index.js:163-166 | Forcing keeps the store free of cycles and of sharing along paths: fresh objects are only referenced from older ones. |
| `ObjectTree.WalkExtends` | index.js:163-166 | Growing the store by forcing never changes a walk that already reached something. |
| `ObjectTree.Lookup` | index.js:196-220 | `get`'s lookup gives the location object for the empty path; any other result is either the default or a stored value other than `undefined`. |
| `ObjectTree.LookupIsWalk` | index.js:196-220 | `get`'s lookup is the walk of the whole path, with `undefined` replaced by the default. The empty path gives the location object itself. |
| `ObjectTree.AssignThenLookup` | index.js:175-186 | After `el[k] = v` on the container reached by `prefix`, the lookup of `prefix + [k]` gives `v` (the default if `v` is `undefined`). |
| `ObjectTree.Prune` | index.js:227-251 | `clear`'s delete-and-prune deletes keys only: no object disappears from the store. |
| `ObjectTree.PruneFalsy` | index.js:232-243 | Clearing a path whose value is falsy (`false`, `0`, `""`, `null`, `undefined`) changes nothing. |
| `ObjectTree.PruneStopsAtNonEmpty` | index.js:238-247 | When the container still has other keys, `clear` is exactly one deletion of the final key. |
| `ObjectTree.PruneRemoves` | index.js:227-251 | In any store, after clearing a truthy value the path reads `undefined`. When the key was its container's only key, the container is gone too; `ObjectTree.PruneCascade` covers the chain of emptied containers above it. |
| `ObjectTree.PruneCascade` | index.js:238-247 | In a layered store, when every container from depth `j` down the path held only the next key, clearing a truthy value removes all of them: the path cut at depth `j` reads `undefined`. |
| `ObjectTree.PruneShrinks` | index.js:227-251 | Clearing only deletes keys: every object keeps a subset of its keys, each with its old value. A layered store stays layered. |
| `ObjectTree.WalkShrunk` | index.js:227-251 | After keys are only deleted, a walk finds `undefined` or what it found before, and visits no object it did not visit before. |
| `ObjectTree.PruneFrame` | index.js:227-251 | In any store, clearing changes no object outside the containers visited along the path's prefix. |
| `ObjectTree.PruneKeepsLocation` | index.js:227-251 | Pruning below a location object never detaches that object from the walk that reached it from its root. |
| `PointerTable.TopRootStored` | index.js:84-90 | `getRoot` always returns a stored object. |
| `PointerTable.TopRootOnChain` | index.js:84-90 | `getRoot` returns the raw root of some pointer on the chain from this pointer upwards. |
| `PointerTable.Remove` | index.js:41-45 | `removeListener` leaves exactly the old listeners except the removed hook. A list without the hook is returned as it is. |
| `PointerTable.RemoveSplit` | index.js:41-45 | Removing a hook registered once keeps the order of the other listeners: `a + [h] + b` becomes `a + b`. |
| `PointerTable.Unhook` | index.js:41-45 | `_unhookPointer` changes nothing for an unchained pointer. For a chained one it takes the current hook out of the root pointer's listeners, keeps that pointer's other listeners and fields, and changes no other record. |
| `PointerTable.HookOn` | index.js:47-52 | `_hookPointer` makes a fresh hook the pointer's current hook and appends it to the root pointer's listeners. The pointer's root, location, flag, cache and listeners stay, the root pointer's other fields stay, and no other record changes. |
| `PointerTable.Rebind` | index.js:65-74 | The root step of `setRoot`. The new root and chained flag are stored, a pointer root gets a fresh hook, and every other record keeps all but its listener list. |
| `PointerTable.RebindHooks` | index.js:65-72 | For a pointer root, the new hook is registered on it and the previous hook is removed from the previous root pointer. For a raw root, no listener list changes, so a previous hook stays registered. |
| `PointerTable.RebindListeners` | index.js:41-52 | Re-rooting only adds the new hook and removes hooks of the re-rooted pointer. Every other pointer's hooks stay where they were. |
| `PointerTable.RebindRanked` | index.js:66-74 | Chaining onto a pointer whose own chain does not pass through this one keeps all chains finite and acyclic. |
| `PointerTable.RebindOk` | index.js:60-79 | Re-rooting keeps every record consistent: roots and caches stored, flag matching root, the current hook registered on its root, listeners owned by other pointers. |
| `PointerTable.RebindSteady` | index.js:60-79 | Re-rooting a pointer leaves every other pointer's root, location, flag and hook unchanged. |
| `Resolution.Settle` | index.js:119-151 | Resolution below a base object caches and returns the object at the location (nothing when a primitive or nothing is there). It forces only when asked, and changes no other pointer. |
| `Resolution.Resolve` | index.js:111-154 | `getLocationObject(force)` returns a set cache unchanged. Otherwise it resolves the root pointer first. Whatever it returns is cached. Only pointers on its chain change, and without forcing the store is untouched. |
| `Resolution.ResolveCurrent` | index.js:111-154 | While the caches on the chain are current, the non-forcing result is the cache-free reference resolution. |
| `Resolution.FreshStable` | index.js:111-154 | A location that resolves keeps resolving to the same object when the store grows and only caches change. |
| `Resolution.ResolveForceCurrent` | index.js:116-126 | What a forcing resolution returns is exactly what a cache-free resolution then finds. |
| `Resolution.ResolveForceRaw` | index.js:144-151 | Forcing an unchained, uncached pointer with no primitive in the way always yields an object. |
| `Resolution.ResolveIdempotent` | index.js:111-154 | A second non-forcing `getLocationObject` returns the same and changes nothing. |
| `Resolution.ResolveKeepsPinned` | index.js:111-154 | No resolution overwrites a cache that already equals what its root would give. |
| `Resolution.Refresh` | index.js:36-39 | `_refreshRoot` changes only caches and keeps every other pointer's set cache. |
| `Resolution.RefreshPins` | index.js:36-39 | After `_refreshRoot`, given a root pointer with a cached location object, the cache is the object at the location below the root. |
| `Resolution.RefreshKeepsPinned` | index.js:36-39 | Refreshing some other pointer (not this one and not its root pointer) leaves this pointer's pinned record alone. |
| `Resolution.RefreshPinsOrUnresolved` | index.js:36-39 | After `_refreshRoot`, the pointer is pinned at its location, or its root pointer has no location object and neither of them caches anything. |
| `Resolution.RefreshAll` | index.js:47-52 | Running hooks in registration order keeps every pointer's root, location, flag, hook and listeners, and the heap invariant; only caches change. |
| `Resolution.Emit` | index.js:78 | `emit('changed')` runs the emitter's listeners; only caches change and the heap invariant holds. |
| `Resolution.RefreshAllKeepsSet` | index.js:47-52 | Running hooks keeps the set cache of every pointer that owns none of them. |
| `Resolution.EmitRefreshesChild` | index.js:47-52 | When a pointer emits `'changed'` with its location object cached, every pointer rooted on it ends up caching the object at its own location below that object. |
| `Resolution.EmitKeepsPinned` | index.js:78 | An emission never touches a pinned pointer that owns none of the emitter's hooks and whose root pointer owns none either. |
| `Operations.SetLocationSpec` | index.js:96-105 | `setLocation` fails with `InvalidLocation` exactly when the specifier is refused. Otherwise it stores the normalised path (`[]` for a falsy one), and only caches change. The cache it leaves is stated by `SetLocationPins`, the refresh of chained pointers by `SetLocationRefreshesChild` and `SetLocationChildBelowPath`. |
| `Operations.SetRootSpec` | index.js:60-79 | A non-object root raises `InvalidRoot` and changes nothing. Otherwise the new root and flag are stored and other pointers keep their bindings. A refused location raises `InvalidLocation` after that; a usable one is stored. |
| `Operations.AfterRoot` | index.js:75-78 | The tail of `setRoot` succeeds exactly when the location is usable, keeps roots and flags, and changes nothing on failure. |
| `Operations.NewPointerSpec` | index.js:14-16 | `new Pointer(root, loc)` adds exactly one pointer, with the given root and flag. Other pointers keep their bindings. A primitive root raises and adds nothing. |
| `Operations.CreateAt` | index.js:165 | Forcing below the forced location object only grows the store and fills caches. |
| `Operations.CreateSpec` | index.js:163-166 | `create` raises exactly on a refused specifier, changing nothing. Otherwise it only grows the store and fills caches. |
| `Operations.SetSpec` | index.js:175-186 | `set` raises `InvalidLocation` or `EmptyLocation` without changing anything. Its only other failure is writing into a primitive, and that happens after forcing. Caches are only filled. |
| `Operations.GetSpec` | index.js:196-220 | `get` never changes the store. It raises exactly on a refused specifier; otherwise only caches are filled. |
| `Operations.ClearSpec` | index.js:227-230 | `clear` raises `InvalidLocation` or `EmptyClear` without changing anything, and otherwise succeeds. It deletes no object and only fills caches. |
| `Operations.ClearPath` | index.js:229-251 | The empty path raises `EmptyClear` and changes nothing. Any other path succeeds, deleting no object. |
| `Properties.SetThenGet` | index.js:175-220 | In a store without cycles or sharing, after a successful `set(loc, v)`, `get(loc, d)` returns `v` (`d` when `v` is `undefined`). |
| `Properties.SetThenGetOne` | index.js:181-182 | The same, for a one-key path written into the forced location object. |
| `Properties.SetThenGetDeep` | index.js:177-180 | The same, for a longer path written into the container `create` returned. |
| `Properties.CreateThenGet` | index.js:163-166 | After `create(loc)` returned an object, `get(loc, d)` returns that same object. |
| `Properties.CreateOpenObject` | index.js:163-166 | `create(loc)` returns an object whenever no primitive is in the way below the cached location object, or, uncached on a raw root, along the location and `loc`. |
| `Properties.CreateScenario` | test.js:82-86 | `new Pointer({}, ['test']).create(['location'])` returns a fresh empty object and leaves the store as `{test: {location: {}}}`. It starts from the record `Properties.NewTestPointer` establishes. |
| `Properties.SetFrame` | index.js:175-186 | A successful `set(loc, v)` stores `v` under the final key of the container found for the prefix, and every other defined value in the store keeps its value. |
| `Properties.SetScenario` | test.js:98-104 | `new Pointer({}, ['test']).set('test', 'testValue')` leaves the store as `{test: {test: 'testValue'}}`. It starts from the record `Properties.NewTestPointer` establishes. |
| `Properties.SetNestedScenario` | test.js:107-115 | `set(['test', 'nested'], 'testValue')` on the same pointer leaves `{test: {test: {nested: 'testValue'}}}`. |
| `Properties.GetCurrent` | index.js:196-220 | With current caches, `get(loc, d)` is the cache-free walk. It is `d` where there is no location object or only `undefined`, and otherwise the stored value, `null`, `false` and `0` included. |
| `Properties.ClearThenGet` | index.js:227-251 | In any store, after `clear(loc)`, `get(loc, d)` gives `d` where it gave something truthy before, and what it gave before otherwise. |
| `Properties.ClearEmptiesContainer` | index.js:238-247 | Clearing the only key of a container removes the container too: `get` of the prefix then gives the default. |
| `Properties.ClearCascade` | index.js:238-247 | In a layered store, after `clear(loc)` of a truthy value whose containers from depth `j` each held only the next key, `get` of `loc` cut at depth `j` gives the default. |
| `Properties.NewRawPointer` | index.js:14-16 | `new Pointer(obj, loc)` on a stored object succeeds and leaves the pointer unchained, rooted on `obj`, at the normalised path, caching the object found there. |
| `Properties.NewTestPointer` | test.js:77-80 | `new Pointer({}, ['test'])` leaves the pointer rooted on the empty object, at `['test']`, with nothing cached: the record the `create` and `set` scenarios start from. |
| `Properties.NewClearPointer` | test.js:146-153 | `new Pointer(o)` on the `clear` fixture caches the root object itself: the record the `clear` scenario starts from. |
| `Properties.SetRootRawCache` | index.js:60-79 | `setRoot(obj, loc)` leaves the pointer unchained, at the normalised path, and caching the object at that path below `obj`, or nothing when the path is missing. |
| `Properties.SetRootChainedCache` | index.js:60-79 | `setRoot(pointer, loc)`, when the root pointer's location object is cached, leaves the pointer chained, the root pointer's cache as it was, and this pointer caching the object at its path below it. |
| `Properties.AfterRootPins` | index.js:75-78 | `setLocation(loc, true)`, `_refreshRoot()` and `emit('changed')` together leave the pointer pinned at its new path, when the root pointer's location object is cached and no listener of the pointer belongs to its root pointer. |
| `Properties.SetLocationPins` | index.js:96-105 | `setLocation(loc)` unsuppressed leaves the pointer pinned at the new path and the root pointer's cache as it was, under the same two conditions. |
| `Properties.SetLocationRefreshesChild` | index.js:96-105 | After `setLocation(loc)`, whenever the pointer's own refresh found a location object, every pointer chained onto it caches its own location below that object. |
| `Properties.SetLocationChildBelowPath` | index.js:96-105 | With a raw root or a cached root pointer, that location object is the one the new path reaches from there: when it is an object, every chained pointer caches its location below it. |
| `Properties.AfterRootRefreshPins` | index.js:75-76 | The two refreshes of `setRoot`, with a raw root or a cached root pointer, leave the pointer caching the object its path reaches from there (nothing when there is none). |
| `Properties.AfterRootRefreshesChild` | index.js:75-78 | The tail of `setRoot` then makes every pointer chained onto this one cache its own location below the new location object, when that is an object. |
| `Properties.SetRootRawRefreshesChild` | index.js:60-79 | `setRoot(obj, loc)`: when `loc` reaches an object below `obj`, every pointer chained onto this one caches its own location below that object. |
| `Properties.SetRootChainedRefreshesChild` | index.js:60-79 | `setRoot(pointer, loc)` with the root pointer's location object cached: when `loc` reaches an object below it, every pointer chained onto this one caches its own location below that object. |
| `Properties.ResolveChainedMissing` | index.js:115-131 | A chained, uncached pointer whose root pointer has no location object resolves to `undefined` and caches nothing, with or without forcing. |
| `Properties.TopRootSteady` | index.js:84-90 | Re-rooting one pointer changes no `getRoot()` result of pointers whose chain does not pass through it. |
| `Properties.NewChainedRoot` | test.js:58-63 | `new Pointer(p1).getRoot()` is `p1.getRoot()`. |
| `Properties.ClearNestedScenario` | test.js:155-165 | On `{dummy: {data: {key: true}}}`, `clear(['dummy', 'data'])` leaves the root object empty, because the emptied `dummy` is pruned as well. It starts from the record `Properties.NewClearPointer` establishes. |
| `Pointers.ClearUnfoldOne` | index.js:232-237 | A one-key `clear` deletes the key from the location object exactly when it holds something truthy. |
| `Pointers.GetPrefix` | index.js:241 | The `get` of the prefix inside `clear` is the non-forcing walk below the location object (`undefined` without one), and only fills caches. |
| `Pointers.ClearUnfold` | index.js:238-247 | A nested `clear` deletes a truthy final key. It recurses on the prefix exactly when that empties the container, and otherwise changes nothing in the store. |
| `Pointers.Heap.GetRoot` | index.js:84-90 | Returns the raw root at the top of the chain, a stored object. |
| `Pointers.Heap.GetLocationObject` | index.js:111-154 | Leaves exactly the store, table and result of `Resolve`, and keeps the heap invariant. |
| `Pointers.Heap.RefreshRoot` | index.js:36-39 | Leaves exactly the table of `Refresh`; the store is untouched. |
| `Pointers.Heap.EmitChanged` | index.js:78 | Runs every registered hook in order, leaving the table of `Emit`. It logs one `'changed'` emission. |
| `Pointers.Heap.UnhookPointer` | index.js:41-45 | Removes the current hook from the root pointer's listeners, only when the pointer is chained. |
| `Pointers.Heap.HookPointer` | index.js:47-52 | Registers a fresh hook closure and advances the hook serial. |
| `Pointers.Heap.SetLocation` | index.js:96-105 | Leaves exactly the outcome and table of `SetLocationSpec`. It logs an emission only when successful and not suppressed. |
| `Pointers.Heap.BindRoot` | index.js:65-74 | Leaves the table of `Rebind` and the re-ranked chains, and keeps the heap invariant. |
| `Pointers.Heap.BindPointerRoot` | index.js:66-69 | Unhooks, hooks onto the new root pointer and sets the chained flag, as `Rebind` states. |
| `Pointers.Heap.ChainTo` | index.js:66-74 | The hook steps and the root assignment for a pointer root, as `Rebind` states. |
| `Pointers.Heap.BindRawRoot` | index.js:70-74 | Clears the chained flag and stores the raw root, as `Rebind` states, with ranks unchanged. |
| `Pointers.Heap.SetRoot` | index.js:60-79 | Leaves exactly the outcome and state of `SetRootSpec`. It logs one emission when successful. |
| `Pointers.Heap.NewPointer` | index.js:14-16 | Allocates a fresh identity, then leaves exactly the outcome and state of `NewPointerSpec`. |
| `Pointers.Heap.Allocate` | index.js:14-15 | A fresh instance not yet in the table, with no hook, no listeners and no cache. |
| `Pointers.Heap.Create` | index.js:163-166 | Leaves exactly the result and state of `CreateSpec`. |
| `Pointers.Heap.Set` | index.js:175-186 | Leaves exactly the outcome and state of `SetSpec`. |
| `Pointers.Heap.SetPath` | index.js:176-185 | `set` on a normalised, non-empty path, as `SetSpec` states. |
| `Pointers.Heap.SetContainer` | index.js:177-182 | Finds where `set` writes: the created container of the prefix, or the forced location object. |
| `Pointers.Heap.AssignInto` | index.js:180-182 | `el[k] = value` or `obj[location[0]] = value` on an object of the store: the store becomes `Assign` of the old one, and the pointer table, ranks, counters and event log are unchanged. |
| `Pointers.Heap.Get` | index.js:196-220 | Leaves exactly the result and caches of `GetSpec`. |
| `Pointers.Heap.Clear` | index.js:227-251 | Leaves exactly the outcome and state of `ClearSpec`. |
| `Pointers.Heap.ClearKey` | index.js:232-237 | One-key `clear`, as `ClearPath` states. |
| `Pointers.Heap.ClearNested` | index.js:238-247 | Nested `clear` with its recursive call on the prefix, as `ClearPath` states. |
| `Pointers.Heap.DeleteThenClear` | index.js:243-247 | Deletes the key from the container. When that leaves the container with keys, that is the whole effect; when it leaves it empty, the prefix is cleared, as `ClearPath` states. |

## Left out

- `retrieve-object-child` is not part of this model. Its behaviour is taken as follows:
  - a level is missing when it reads `undefined`;
  - a primitive in the way gives `undefined`;
  - forcing replaces every missing level by a fresh empty object and creates nothing past a primitive.
- `EventEmitter` and `util.inherits` are reduced to the `'changed'` hooks that pointers register on each other, run synchronously in registration order. Listeners added by other code, `once` and listener errors are left out.
- JavaScript values are object references and primitives:
  - numbers are integers (no `NaN`, fractions or `-0`);
  - arrays appear only as location specifiers;
  - there are no functions, prototypes or inherited properties.
  A location key is a string.
- Operations.GetSpec: reading a key of `null` found at a prefix throws a `TypeError` in JavaScript, and reading a key of a non-null primitive (such as `length` of a string) yields that property. The model gives the default in both cases.
- Properties.SetThenGet: proved only for stores without cycles or sharing along a path, where references point from older to newer objects. In a cyclic store the write can change the path being read.
- Properties.SetThenGetOne: the same restriction to layered stores as `Properties.SetThenGet`.
- Properties.SetThenGetDeep: the same restriction to layered stores as `Properties.SetThenGet`.
- Properties.SetRootChainedCache: assumes the root pointer's location object is already cached; when it is not, the cache this pointer ends with is not stated (`Resolution.RefreshPinsOrUnresolved` covers one refresh only). It also assumes the new root pointer holds no hook on this pointer. Such a stale hook survives when that pointer earlier switched from a pointer root to a raw root, and the emission then refreshes the root pointer too.
- Properties.AfterRootPins: assumes the root pointer's location object is already cached, and that no listener of the pointer belongs to its root pointer (the stale hook described above).
- Properties.SetLocationPins: the same two assumptions as `AfterRootPins`.
- Operations.SetLocationSpec: its own contract states only the path and that only caches change. The cache it leaves is stated by `Properties.SetLocationPins` under that lemma's assumptions, and the refresh of chained pointers by `Properties.SetLocationRefreshesChild` and `Properties.SetLocationChildBelowPath`.
- Properties.CreateOpenObject: covers a cached location object and an uncached pointer on a raw root. For an uncached chained pointer, the condition along the chain is not stated.
- Properties.SetLocationChildBelowPath: assumes a raw root or a cached root pointer, so that the location object can be named from the arguments. Without that assumption, `Properties.SetLocationRefreshesChild` states the same in terms of the location object the pointer's own refresh found.
- Properties.AfterRootRefreshPins: assumes a raw root or a cached root pointer, as `Properties.SetLocationChildBelowPath` does.
- Properties.AfterRootRefreshesChild: the same assumption.
- Properties.SetRootChainedRefreshesChild: assumes the new root pointer's location object is already cached; for an uncached one the chained pointers' caches are not stated.
- Operations.ClearPath: when the prefix of a longer path reaches a truthy primitive whose property under the final key is truthy (`{a: 'xyz'}` and `clear(['a', '0'])`), JavaScript runs `delete` on a primitive, a `TypeError` in strict mode. The model reads no keys of a primitive, so this `clear` succeeds and changes nothing.
- Operations.CreateAt: with no location object (a primitive in the way), `create` hands `undefined` to `retrieve-object-child` as the object (index.js:165). The model takes the result to be `undefined`.
- Operations.SetRootSpec: requires that the new root pointer's chain does not pass through this pointer. JavaScript accepts such a call: `p.setRoot(p)` recurses in `getLocationObject` until the stack overflows, and re-rooting onto a pointer chained below this one leaves a cycle on which `getRoot` never returns. The ranking that keeps chains finite excludes these calls.
- Pointers.Heap.SetRoot: the same cyclic re-rooting is excluded, for the same reason.
- ObjectTree.AssignThenLookup: holds only in layered stores. In a cyclic store the write can change the prefix being read: with `o.a === o`, `o.a = 1` makes the lookup of `['a', 'a']` stop at the primitive and give the default.
- ObjectTree.PruneKeepsLocation: holds only in layered stores. With `r = {x: o}` and `o.y === r`, clearing `['y', 'x']` below the location `['x']` deletes `r.x`, then prunes the emptied `r` by deleting `o.y`, and `o` is no longer reachable from `r`.
- ObjectTree.PruneCascade: holds only in layered stores. With `r = {a: c}` and `c.b === c` (`c` has no other key), clearing `['a', 'b', 'b']` deletes `c.b` and empties `c`, but the recursive clear of `['a', 'b']` finds `undefined` there and stops, so `c` stays under `r.a`.
- Properties.ClearCascade: the same layered-store assumption, for the same reason.
- Pointers.Heap.Allocate: when the constructor's location is refused, JavaScript leaves `_loc` undefined, with the hook already registered on the root pointer; a later refresh then hands `undefined` to `retrieve-object-child` as the path. The model's record keeps the empty path of the placeholder instead.
- Resolution.Resolve: a forced resolution below a root pointer without a location object hands `undefined` to `retrieve-object-child` as the object (index.js:118-119). The model takes the result to be `undefined`, as for the non-forcing branch.
- There is no global invariant that caches are current. Stale caches are real in the source: they survive `set`, `clear` and writes outside the pointer. The model keeps them, and `Properties.GetCurrent` states `get` only for current caches.
- The test at test.js:160-165 expects `{dummy: {}}` after `clear(['dummy', 'data'])`. The code at index.js:238-247 prunes the emptied `dummy` as well. The model follows the code, and `Properties.ClearNestedScenario` shows the result is `{}`.
- `clear` tests truthiness rather than presence. Keys holding `false`, `0`, `""` or `null` are never deleted; `ObjectTree.PruneFalsy` states this.
- The constructor test at test.js:12-19 patches `Pointer.prototype`. Prototype patching is not modelled.
- Gruntfile.js (build configuration) is not part of this model.
- The hook closures are identified by serial numbers. Closure identity beyond that, and the `this` binding, are not modelled.
