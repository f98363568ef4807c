# Entity store engine — a Dafny model

This project models the entity-store engine of `ngxs-entity-store`, a
generic collection state for the NGXS state container. One collection slice
(`EntityStateModel`) holds `entities` (a map from string id to entity),
`loading`, `error` and `active`. The engine provides twelve handlers that
change the slice: `add`, `addAll`, `update`, `updateAll`, `updateActive`,
`remove`, `removeAll`, `clear`, `setLoading`, `setError`, `setActive` and
`clearActive`. It also provides static selectors that read the slice out of
the container's state tree through the dot-path walker `elvis`. The
constructor calls `setup`, which records one action `"[<storePath>] <name>"`
per handler.

Layout:

- `wrappers.dfy`: `Option` (a value that may be `undefined`), `Result`, `Outcome`.
- `entity_state.dfy` (module `EntityState`): the state record, `getActive`,
  and the `Strategy` a concrete store supplies. The strategy holds three
  things: the identity field read from a whole entity (`idOf`), the same
  field read from a partial payload (`partialIdOf`, None when undefined),
  and the abstract `onUpdate` merge, which receives None when no entity is
  stored under the target id. The module also holds the pure map steps the
  handlers take (`Upsert`, `UpsertAll`, `MergeAt`, `UpdateEntity`,
  `UpdateSeq`, `UpdateAllEntities`) and their lemmas.
- `entity_store.dfy` (module `EntityStoreEngine`): class `EntityStore`.
  Its `state` field stands for what `getState`/`patchState` read and write.
  Its `actions` field stands for the `NGXS_META.actions` table. Each
  handler is a method proved against the functions of `EntityState`. The
  module also holds `Register`, the specification of `setup`.
- `selectors.dfy` (module `Selectors`): the state tree, `split('.')` with its
  inverse `Join`, `elvis`, and the eight selectors.
- `action_builders.dfy` (module `ActionBuilders`): which handler each
  action builder names.

The model follows the code of `entity-store.ts`. This engine has a later
variant, which offers a `reset` handler and clears `active` when the active
entity is removed; the application tests expect that variant. The code
modelled here differs from it as follows:

- There is no `reset` handler, and `reset` is not registered.
- `remove`, `removeAll` and `clear` leave `active` as it was, so `active`
  can name an id that is no longer stored (`RemoveLeavesActiveDangling`).
- A failing update throws; the handlers' `Outcome` result stands for that
  throw.
- `updateAll` is not all-or-nothing. Its first `_update` writes into the
  map object that `getState` returned, i.e. into the stored state. Later
  writes go into spread copies. So a throw on a later payload leaves the
  first payload's merge in the state (`UpdateAllOnFailure`).
- The selectors do not guard the path: a path that reaches `undefined`
  makes every selector throw instead of returning `undefined`
  (`UnresolvedPathThrows`).
- `add`, `addAll`, `update`, `updateActive`, `remove` and `removeAll`
  first write into the map object that `getState` returned and only then
  patch the state with a spread copy, instead of building a new map and
  leaving the stored one untouched. The model's `state` field is the stored
  slice, so each handler's new state includes that write.

## Model

| member | source | states |
|---|---|---|
| EntityState.DefaultEntityState | src/app/store/entity-store/entity-store.ts:27-32 | `defaultEntityState`: an empty map, not loading, no error, nothing active; specified by `DefaultHasNothingActive`, and the constructor's postcondition starts every store from it |
| EntityState.DefaultHasNothingActive | src/app/store/entity-store/entity-store.ts:27-32 | the default slice holds no entity and resolves no active entity |
| EntityState.GetActive | src/app/store/entity-store/entity-store.ts:16-18 | an entity is returned exactly when `active` is set and an entry is stored under it, and it is that entry |
| EntityState.Upsert | src/app/store/entity-store/entity-store.ts:121-125 | `add` stores the entity under its id, replacing any entry there; keys become the old keys plus that id; every other entry keeps its value |
| EntityState.UpsertAll | src/app/store/entity-store/entity-store.ts:127-133 | `addAll`'s effect on the map: `add` of each element in list order; specified by `UpsertAllKeys`, `UpsertAllCons`, `UpsertAllLastWins`, `UpsertAllOthers` and `UpsertAllWellKeyed` |
| EntityState.UpsertAllKeys | src/app/store/entity-store/entity-store.ts:127-133 | after `addAll`, the keys are exactly the old keys plus the ids of the list (an empty list adds none) |
| EntityState.UpsertAllCons | src/app/store/entity-store/entity-store.ts:127-133 | `addAll` of `[e] + es` equals `add(e)` followed by `addAll(es)`, so it applies `add` element by element in list order |
| EntityState.UpsertAllLastWins | src/app/store/entity-store/entity-store.ts:129-131 | the entry for an id is the last entity in the list that carries it, so a later duplicate wins |
| EntityState.UpsertAllOthers | src/app/store/entity-store/entity-store.ts:129-131 | entries whose ids are not in the list are untouched |
| EntityState.UpsertAllWellKeyed | src/app/store/entity-store/entity-store.ts:123-130 | if every entry sits under its own id, it still does after `addAll` |
| EntityState.ApplyInsertionsKeys | src/app/store/entity-store/entity-store.ts:121-133 | after any run of `add`/`addAll`, the keys are the old keys plus every id inserted |
| EntityState.InsertionsSize | src/app/store/entity-store/entity-store.ts:88-93 | from an empty collection, `size` after any run of `add`/`addAll` equals the number of distinct ids inserted |
| EntityState.MergeAt | src/app/store/entity-store/entity-store.ts:114-117 | the merge stores `onUpdate(current, payload)` under the id, with None as current when nothing was stored; other entries keep their values |
| EntityState.ResolveId | src/app/store/entity-store/entity-store.ts:112 | `_id || idOf(entity)`: a missing or empty given id falls back to the payload's id; its effect is stated by `UpdateEntity` and `UpdateActiveTarget` |
| EntityState.UpdateEntity | src/app/store/entity-store/entity-store.ts:111-119 | `_update` fails with the invalid-id error exactly when the resolved id is undefined; otherwise the keys are the old keys plus that id |
| EntityState.MergeAtWellKeyed | src/app/store/entity-store/entity-store.ts:111-119 | a merge whose result keeps the target's id keeps every entry under its own id |
| EntityState.UpdateActiveEntities | src/app/store/entity-store/entity-store.ts:140-145 | `updateActive`'s effect on the map; specified by `UpdateActiveTarget` and `UpdateActiveAtActiveId` |
| EntityState.UpdateActiveTarget | src/app/store/entity-store/entity-store.ts:140-145 | `updateActive` throws when no entity is stored under `active`; otherwise it merges under the id read from the active entity, and falls back to the payload's id when that id is empty |
| EntityState.UpdateActiveAtActiveId | src/app/store/entity-store/entity-store.ts:140-145 | when every entry sits under its own id, `updateActive` merges into exactly the entry named by a non-empty `active` |
| EntityState.UpdateSeq | src/app/store/entity-store/entity-store.ts:147-153 | `update` applied to each payload in order, stopping at the first throw; specified by `UpdateSeqFails` and `UpdateSeqKeys` |
| EntityState.UpdateAllEntities | src/app/store/entity-store/entity-store.ts:147-153 | the stored map after `updateAll`: the sequential result, or after a throw the first payload's in-place merge; specified by `UpdateAllOnFailure` |
| EntityState.UpdateSeqFails | src/app/store/entity-store/entity-store.ts:147-153 | applying `update` to each payload in order fails, with the invalid-id error, exactly when some payload has an undefined id |
| EntityState.UpdateSeqKeys | src/app/store/entity-store/entity-store.ts:147-153 | a successful sequence stores exactly the old keys plus the payloads' ids |
| EntityState.UpdateAllOnFailure | src/app/store/entity-store/entity-store.ts:147-153 | a throw on the first payload leaves the map unchanged; a throw on a later one leaves the first payload's merge in the stored map |
| EntityStoreEngine.ActionName | src/app/store/entity-store/entity-store.ts:189 | the action type `"[<storePath>] <fn>"`; specified by `ActionNameInjective` (no two handler names of one store share a type) and used by `RegisterRoutes` and `RegisterKeys` |
| EntityStoreEngine.ActionNameInjective | src/app/store/entity-store/entity-store.ts:189 | within one store, two handler names with the same action type are equal |
| EntityStoreEngine.Register | src/app/store/entity-store/entity-store.ts:187-198 | the action table after `setup`; specified by `RegisterRoutes` and `RegisterKeys` |
| EntityStoreEngine.RegisterRoutes | src/app/store/entity-store/entity-store.ts:187-198 | after `setup`, each listed name's key `"[<path>] <name>"` maps to one entry whose `fn` is the name and whose `type` is the key |
| EntityStoreEngine.RegisterKeys | src/app/store/entity-store/entity-store.ts:187-198 | `setup` adds exactly one key per listed name and leaves every other entry of the table as it was |
| EntityStoreEngine.EntityStore.constructor | src/app/store/entity-store/entity-store.ts:38-47 | the store starts from the default slice and registers the twelve handler names on top of the actions the store class already declares |
| EntityStoreEngine.EntityStore.Setup | src/app/store/entity-store/entity-store.ts:187-198 | the loop leaves the action table equal to `Register` of the old table and the names |
| EntityStoreEngine.EntityStore.Add | src/app/store/entity-store/entity-store.ts:121-125 | only `entities` changes, and it becomes the upsert of the payload |
| EntityStoreEngine.EntityStore.AddAll | src/app/store/entity-store/entity-store.ts:127-133 | only `entities` changes, to the in-order upsert of the list; its keys are the old ones plus the list's ids |
| EntityStoreEngine.EntityStore.Update | src/app/store/entity-store/entity-store.ts:135-138 | an undefined payload id throws the invalid-id error and changes nothing; otherwise only `entities` changes, by the merge at that id |
| EntityStoreEngine.EntityStore.UpdateActive | src/app/store/entity-store/entity-store.ts:140-145 | without an active entity it throws and changes nothing; otherwise only `entities` changes, by the merge at the active entity's id, or it throws and changes nothing |
| EntityStoreEngine.EntityStore.UpdateAll | src/app/store/entity-store/entity-store.ts:147-153 | succeeds exactly when every payload has an id; only `entities` changes, as `UpdateAllEntities` says, including the partial write on a throw |
| EntityStoreEngine.EntityStore.Remove | src/app/store/entity-store/entity-store.ts:155-159 | only `entities` changes: the id is no longer a key, other entries stay, and an absent id changes nothing; `active` is kept |
| EntityStoreEngine.EntityStore.RemoveAll | src/app/store/entity-store/entity-store.ts:161-165 | only `entities` changes: no listed id is a key, unlisted entries keep their values; `active` is kept |
| EntityStoreEngine.EntityStore.Clear | src/app/store/entity-store/entity-store.ts:167-169 | `entities` becomes empty; `loading`, `error` and `active` are kept |
| EntityStoreEngine.EntityStore.SetLoading | src/app/store/entity-store/entity-store.ts:171-173 | sets `loading` and nothing else |
| EntityStoreEngine.EntityStore.SetActive | src/app/store/entity-store/entity-store.ts:175-177 | sets `active` to the id, with no existence check, and nothing else |
| EntityStoreEngine.EntityStore.ClearActive | src/app/store/entity-store/entity-store.ts:179-181 | sets `active` to undefined and nothing else |
| EntityStoreEngine.EntityStore.SetError | src/app/store/entity-store/entity-store.ts:183-185 | sets `error` and nothing else |
| EntityStoreEngine.ClearIsIdempotent | src/app/store/entity-store/entity-store.ts:167-169 | two `clear` calls leave the state one call leaves: empty map, other fields kept |
| EntityStoreEngine.SetLoadingIsIdempotent | src/app/store/entity-store/entity-store.ts:171-173 | two `setLoading(b)` calls leave the state one call leaves |
| EntityStoreEngine.SetActiveIsIdempotent | src/app/store/entity-store/entity-store.ts:175-177 | two `setActive(id)` calls leave the state one call leaves |
| EntityStoreEngine.ClearActiveIsIdempotent | src/app/store/entity-store/entity-store.ts:179-181 | two `clearActive` calls leave the state one call leaves |
| EntityStoreEngine.SetErrorIsIdempotent | src/app/store/entity-store/entity-store.ts:183-185 | two `setError(e)` calls leave the state one call leaves |
| EntityStoreEngine.RemoveIsIdempotent | src/app/store/entity-store/entity-store.ts:155-159 | two `remove(id)` calls leave the state one call leaves |
| EntityStoreEngine.RemoveLeavesActiveDangling | src/app/store/entity-store/entity-store.ts:155-159 | after `add(e)`, `setActive(id of e)`, `remove(id of e)`, `active` still names the id while no entity is stored under it |
| Selectors.Split | src/app/store/entity-store/entity-store.ts:213 | `split('.')` yields at least one segment and no segment contains a dot |
| Selectors.JoinSplit | src/app/store/entity-store/entity-store.ts:213 | joining the segments with dots gives back the path |
| Selectors.SplitJoin | src/app/store/entity-store/entity-store.ts:213 | dot-free segments come back unchanged from a join and a split |
| Selectors.SplitDot | src/app/store/entity-store/entity-store.ts:213 | splitting `a + "." + b` gives the segments of `a` followed by those of `b` |
| Selectors.SplitWithoutDot | src/app/store/entity-store/entity-store.ts:213 | a path without a dot is a single segment |
| Selectors.Elvis | src/app/store/entity-store/entity-store.ts:212-216 | the empty path returns the whole tree |
| Selectors.Step | src/app/store/entity-store/entity-store.ts:214 | `value && value[key]`: undefined stays undefined, a missing property is undefined; specified by `WalkUndefined`, `ElvisSegment` and `ElvisMissingSegment` |
| Selectors.Walk | src/app/store/entity-store/entity-store.ts:213-215 | the `reduce` of that step over the segments; specified by `WalkUndefined` and `WalkAppend` |
| Selectors.WalkUndefined | src/app/store/entity-store/entity-store.ts:213-215 | once a step yields undefined, every later step does too |
| Selectors.WalkAppend | src/app/store/entity-store/entity-store.ts:213-215 | walking two segment lists in turn equals walking their concatenation |
| Selectors.ElvisMissingSegment | src/app/store/entity-store/entity-store.ts:212-216 | as soon as one segment is missing from the node reached so far, the result is undefined |
| Selectors.ElvisNested | src/app/store/entity-store/entity-store.ts:212-216 | a dotted path is the lookup of its tail inside the result for its head |
| Selectors.ElvisSegment | src/app/store/entity-store/entity-store.ts:212-216 | a non-empty path without dots reads one property of the tree |
| Selectors.NestedStoreResolves | src/app/store/entity-store/entity-store.ts:212-216 | a child store held in its parent store's slice is found through the dotted path `parent.child` |
| Selectors.ValuesOf | src/app/store/entity-store/entity-store.ts:77 | `Object.values` of the map as a multiset, one value per key; specified by `ValuesOfSize` and `ValuesOfMembers` |
| Selectors.ValuesOfSize | src/app/store/entity-store/entity-store.ts:74-79 | `entities` lists as many values as there are keys |
| Selectors.ValuesOfMembers | src/app/store/entity-store/entity-store.ts:74-79 | a value is listed by `entities` exactly when some key holds it |
| Selectors.SizeCountsKeysAndEntities | src/app/store/entity-store/entity-store.ts:67-93 | `size` equals the number of `keys` and the number of `entities` |
| Selectors.UnresolvedPathThrows | src/app/store/entity-store/entity-store.ts:53-107 | every selector throws when the store path leads to undefined |
| Selectors.PlainObjectSelectors | src/app/store/entity-store/entity-store.ts:53-107 | on a plain object, `activeId`, `entityMap`, `loading` and `error` give undefined, while `active`, `keys`, `entities` and `size` throw |
| Selectors.SelectorsReadSlice | src/app/store/entity-store/entity-store.ts:53-107 | on a path that leads to a store's slice, `activeId`, `active`, `keys`, `entityMap`, `size`, `loading` and `error` return the slice's fields, and `entities` returns its values |
| Selectors.ReadProperty | src/app/store/entity-store/entity-store.ts:55-56 | a selector that reads one property of the slice (`active` here; `entities` at :84, `error` at :98, `loading` at :105): throws on an unresolved path, gives `undefined` on a plain object and the field on a slice; specified by `UnresolvedPathThrows`, `PlainObjectSelectors` and `SelectorsReadSlice` |
| Selectors.ReadEntities | src/app/store/entity-store/entity-store.ts:69-70 | a selector that reads inside `subState.entities` (`keys` here; `getActive` at :17, `Object.values` at :77, `size` at :91): throws on anything but a slice and reads the slice's map otherwise; specified by `UnresolvedPathThrows`, `PlainObjectSelectors` and `SelectorsReadSlice` |
| Selectors.ActiveId | src/app/store/entity-store/entity-store.ts:53-58 | `activeId`; specified by `UnresolvedPathThrows`, `PlainObjectSelectors` and `SelectorsReadSlice` |
| Selectors.Active | src/app/store/entity-store/entity-store.ts:60-65 | `active`, i.e. `getActive` of the slice; specified by `UnresolvedPathThrows`, `PlainObjectSelectors` and `SelectorsReadSlice` |
| Selectors.Keys | src/app/store/entity-store/entity-store.ts:67-72 | `keys`, as a set; specified by `UnresolvedPathThrows`, `PlainObjectSelectors` and `SelectorsReadSlice` |
| Selectors.Entities | src/app/store/entity-store/entity-store.ts:74-79 | `entities`, as a multiset; specified by `UnresolvedPathThrows`, `PlainObjectSelectors` and `SelectorsReadSlice` |
| Selectors.EntityMap | src/app/store/entity-store/entity-store.ts:81-86 | `entityMap`; specified by `UnresolvedPathThrows`, `PlainObjectSelectors` and `SelectorsReadSlice` |
| Selectors.Size | src/app/store/entity-store/entity-store.ts:88-93 | `size`; specified by `UnresolvedPathThrows`, `PlainObjectSelectors` and `SelectorsReadSlice` |
| Selectors.LastError | src/app/store/entity-store/entity-store.ts:95-100 | `error`; specified by `UnresolvedPathThrows`, `PlainObjectSelectors` and `SelectorsReadSlice` |
| Selectors.Loading | src/app/store/entity-store/entity-store.ts:102-107 | `loading`; specified by `UnresolvedPathThrows`, `PlainObjectSelectors` and `SelectorsReadSlice` |
| ActionBuilders.OperationOf | src/app/store/entity-store/action-generator/add.ts:11-17 | every builder names one of the twelve handlers the engine registers; the table also covers active.ts:11-21, error.ts:7-9, loading.ts:8-10, remove.ts:11-21 and update.ts:12-18 |
| ActionBuilders.BuildersCoverOperations | src/app/store/entity-store/entity-store.ts:41-46 | every registered handler name has a builder |
| ActionBuilders.OperationOfInjective | src/app/store/entity-store/action-generator/add.ts:11-17 | distinct builders name distinct handlers; the builders compared also come from active.ts:11-21, error.ts:7-9, loading.ts:8-10, remove.ts:11-21 and update.ts:12-18 |

## Left out

- Selectors.Step: a path segment that names one of a slice's own fields (`entities`, `loading`, `error`, `active`) is not followed into that field; only child stores nested in a slice are. A plain object's property whose name matches a slice field is read as undefined by the selectors. Falsy values other than `undefined` (`null`, `0`, `""`, `false`) do not occur in the modelled state tree.
- `getActive` with `active` undefined looks up the key `"undefined"` in the source. The model returns no entity. Likewise, `add` of an entity whose identity field is undefined at run time is not modelled: whole entities always carry a string id.
- `Object.keys` and `Object.values` enumeration order: `keys` is a set and `entities` a multiset, with no order claim.
- Aliasing: the handlers mutate the map object returned by `getState`, which earlier snapshots may share. The model treats state as a value. The in-place write matters to the final state only in `updateAll`, and is modelled there.
- The host container: action dispatch, `StateContext`, and the `@State` defaults. The constructor sets the default slice itself. The store path and the actions already in `NGXS_META.actions` are constructor arguments rather than reads of the class metadata. The `options: {}` part of a registered action is dropped.
- The `{type, payload}` objects built by the action builders: `generateActionObject` is not part of this model, so only the handler name each builder passes along is modelled.
- Error objects are opaque values; the message of the invalid-id error is not modelled.
- The Angular component and its tests are not modelled. The tests expect `reset` and the clearing of `active` on removal, which this engine does not have.
