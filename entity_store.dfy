/**
 * The entity store engine: the twelve handlers, each a method that reads
 * the collection state and writes the new one back, and `setup`, which
 * records one action per handler in the store's action table.
 */
module EntityStoreEngine {
  import opened Wrappers
  import opened EntityState

  /** The handler names the constructor hands to `setup`, in its order. */
  const Operations: seq<string> := [
    "add", "addAll",
    "update", "updateAll", "updateActive",
    "remove", "removeAll", "clear",
    "setLoading", "setError",
    "setActive", "clearActive"]

  /** One registered action: the handler it routes to and its own type string (`options` is always empty). */
  datatype ActionHandler = ActionHandler(fn: string, actionType: string)

  /** The action type `"[<storePath>] <fn>"`. */
  function ActionName(storePath: string, fn: string): string
  {
    "[" + storePath + "] " + fn
  }

  /** Within one store, distinct handler names never share an action type. */
  lemma ActionNameInjective(storePath: string, a: string, b: string)
    requires ActionName(storePath, a) == ActionName(storePath, b)
    ensures a == b
  {
    var n := |storePath| + 3;
    assert ActionName(storePath, a)[n..] == a;
    assert ActionName(storePath, b)[n..] == b;
  }

  /** The action table after registering `fns`, one after another, on top of `actions`. */
  function Register(actions: map<string, seq<ActionHandler>>, storePath: string, fns: seq<string>): map<string, seq<ActionHandler>>
    decreases |fns|
  {
    if fns == [] then actions
    else
      var fn := fns[|fns| - 1];
      Register(actions, storePath, fns[..|fns| - 1])[ActionName(storePath, fn) := [ActionHandler(fn, ActionName(storePath, fn))]]
  }

  /** Every registered name routes its action type to a single entry naming that handler. */
  lemma {:induction false} RegisterRoutes(actions: map<string, seq<ActionHandler>>, storePath: string, fns: seq<string>, fn: string)
    requires fn in fns
    ensures ActionName(storePath, fn) in Register(actions, storePath, fns)
    ensures Register(actions, storePath, fns)[ActionName(storePath, fn)] == [ActionHandler(fn, ActionName(storePath, fn))]
    decreases |fns|
  {
    var n := |fns| - 1;
    if fns[n] != fn {
      assert fn in fns[..n] by {
        var i :| 0 <= i < |fns| && fns[i] == fn;
        assert fns[..n][i] == fn;
      }
      RegisterRoutes(actions, storePath, fns[..n], fn);
      if ActionName(storePath, fns[n]) == ActionName(storePath, fn) {
        ActionNameInjective(storePath, fns[n], fn);
      }
    }
  }

  /** Registration adds exactly one key per name and leaves every other entry as it was. */
  lemma {:induction false} RegisterKeys(actions: map<string, seq<ActionHandler>>, storePath: string, fns: seq<string>, k: string)
    ensures k in Register(actions, storePath, fns) <==> k in actions || exists fn :: fn in fns && k == ActionName(storePath, fn)
    ensures k in actions && (forall fn :: fn in fns ==> k != ActionName(storePath, fn)) ==>
      Register(actions, storePath, fns)[k] == actions[k]
    decreases |fns|
  {
    if fns != [] {
      var n := |fns| - 1;
      RegisterKeys(actions, storePath, fns[..n], k);
      assert forall fn :: fn in fns <==> fn in fns[..n] || fn == fns[n] by {
        assert fns == fns[..n] + [fns[n]];
      }
    }
  }

  /**
   * The state and action table of one entity store. `storePath` is the
   * collection's path in the host container; `strategy` holds the identity
   * field and the `onUpdate` merge a concrete store supplies.
   */
  class EntityStore<T, P> {
    const storePath: string
    const strategy: Strategy<T, P>
    var state: EntityStateModel<T>
    var actions: map<string, seq<ActionHandler>>

    /**
     * Starts from the default state and registers all twelve handlers on top
     * of `metaActions`, the actions the store class already declares.
     */
    constructor (storePath: string, strategy: Strategy<T, P>, metaActions: map<string, seq<ActionHandler>>)
      ensures this.storePath == storePath && this.strategy == strategy
      ensures state == DefaultEntityState()
      ensures actions == Register(metaActions, storePath, Operations)
    {
      this.storePath := storePath;
      this.strategy := strategy;
      state := DefaultEntityState();
      actions := metaActions;
      new;
      Setup(Operations);
    }

    /** `setup`: record `"[<storePath>] <fn>"` for each name, in order. */
    method Setup(fns: seq<string>)
      modifies this`actions
      ensures actions == Register(old(actions), storePath, fns)
    {
      var i := 0;
      while i < |fns|
        invariant 0 <= i <= |fns|
        invariant actions == Register(old(actions), storePath, fns[..i])
      {
        var actionName := ActionName(storePath, fns[i]);
        actions := actions[actionName := [ActionHandler(fns[i], actionName)]];
        assert fns[..i + 1][..i] == fns[..i];
        i := i + 1;
      }
      assert fns[..|fns|] == fns;
    }

    /** `add`: upsert `payload` under its id; nothing else changes. */
    method Add(payload: T)
      modifies this`state
      ensures state == old(state).(entities := Upsert(strategy, old(state.entities), payload))
    {
      var entities := state.entities;
      entities := entities[strategy.idOf(payload) := payload];
      state := state.(entities := entities);
    }

    /** `addAll`: upsert each entity of `payload` in list order. */
    method AddAll(payload: seq<T>)
      modifies this`state
      ensures state == old(state).(entities := UpsertAll(strategy, old(state.entities), payload))
      ensures state.entities.Keys == old(state.entities).Keys + IdsOf(strategy, payload)
    {
      var entities := state.entities;
      var i := 0;
      while i < |payload|
        invariant 0 <= i <= |payload|
        invariant state == old(state)
        invariant entities == UpsertAll(strategy, old(state.entities), payload[..i])
      {
        entities := entities[strategy.idOf(payload[i]) := payload[i]];
        assert payload[..i + 1][..i] == payload[..i];
        i := i + 1;
      }
      assert payload[..|payload|] == payload;
      state := state.(entities := entities);
      UpsertAllKeys(strategy, old(state.entities), payload);
    }

    /** `update`: throw InvalidId, changing nothing, when the payload has no id; otherwise merge into that entry. */
    method Update(payload: P) returns (o: Outcome<Failure>)
      modifies this`state
      ensures o.Fail? <==> strategy.partialIdOf(payload).None?
      ensures o.Fail? ==> o.error == InvalidId && state == old(state)
      ensures o.Pass? ==>
        state == old(state).(entities := MergeAt(strategy, old(state.entities), strategy.partialIdOf(payload).value, payload))
    {
      var r := UpdateEntity(strategy, state.entities, payload, None);
      if r.Failure? {
        return Fail(r.error);
      }
      state := state.(entities := r.value);
      return Pass;
    }

    /** `updateActive`: merge `payload` into the entry whose id the active entity carries. */
    method UpdateActive(payload: P) returns (o: Outcome<Failure>)
      modifies this`state
      ensures GetActive(old(state)).None? ==> o == Fail(PropertyOfUndefined)
      ensures o.Pass? <==> UpdateActiveEntities(strategy, old(state), payload).Success?
      ensures o.Pass? ==> state == old(state).(entities := UpdateActiveEntities(strategy, old(state), payload).value)
      ensures o.Fail? ==> state == old(state) && o.error == UpdateActiveEntities(strategy, old(state), payload).error
    {
      var active := GetActive(state);
      if active.None? {
        return Fail(PropertyOfUndefined);
      }
      var id := strategy.idOf(active.value);
      var r := UpdateEntity(strategy, state.entities, payload, Some(id));
      if r.Failure? {
        return Fail(r.error);
      }
      state := state.(entities := r.value);
      return Pass;
    }

    /**
     * `updateAll`: update with each payload in order. The first `_update`
     * writes into the stored map itself, the later ones into spread copies,
     * and only a run without a throw patches the state.
     */
    method UpdateAll(payload: seq<P>) returns (o: Outcome<Failure>)
      modifies this`state
      ensures o.Pass? <==> UpdateSeq(strategy, old(state.entities), payload).Success?
      ensures o.Fail? ==> o.error == InvalidId
      ensures state == old(state).(entities := UpdateAllEntities(strategy, old(state.entities), payload))
    {
      UpdateSeqFails(strategy, state.entities, payload);
      var entities := state.entities;
      var i := 0;
      while i < |payload|
        invariant 0 <= i <= |payload|
        invariant UpdateSeq(strategy, old(state.entities), payload) == UpdateSeq(strategy, entities, payload[i..])
        invariant i == 0 ==> state == old(state) && entities == old(state.entities)
        invariant 0 < i ==> strategy.partialIdOf(payload[0]).Some?
        invariant 0 < i ==> state == old(state).(entities :=
          MergeAt(strategy, old(state.entities), strategy.partialIdOf(payload[0]).value, payload[0]))
      {
        var r := UpdateEntity(strategy, entities, payload[i], None);
        if r.Failure? {
          return Fail(r.error);
        }
        if i == 0 {
          state := state.(entities := r.value);
        }
        entities := r.value;
        assert payload[i..][1..] == payload[i + 1..];
        i := i + 1;
      }
      state := state.(entities := entities);
      return Pass;
    }

    /** `remove`: delete the entry under `id`, if any; `active`, `loading` and `error` stay. */
    method Remove(id: string)
      modifies this`state
      ensures state == old(state).(entities := old(state.entities) - {id})
      ensures id !in state.entities
      ensures id !in old(state.entities) ==> state == old(state)
    {
      var entities := state.entities;
      entities := entities - {id};
      state := state.(entities := entities);
    }

    /** `removeAll`: delete the entry under each listed id, in order. */
    method RemoveAll(ids: seq<string>)
      modifies this`state
      ensures state == old(state).(entities := old(state.entities) - Elements(ids))
      ensures forall i :: 0 <= i < |ids| ==> ids[i] !in state.entities
      ensures forall k :: k in old(state.entities) && k !in Elements(ids) ==>
        k in state.entities && state.entities[k] == old(state.entities)[k]
    {
      var entities := state.entities;
      var i := 0;
      while i < |ids|
        invariant 0 <= i <= |ids|
        invariant state == old(state)
        invariant entities == old(state.entities) - Elements(ids[..i])
      {
        entities := entities - {ids[i]};
        assert Elements(ids[..i + 1]) == Elements(ids[..i]) + {ids[i]} by {
          assert forall j :: 0 <= j < i ==> ids[..i + 1][j] == ids[..i][j];
        }
        i := i + 1;
      }
      assert ids[..|ids|] == ids;
      state := state.(entities := entities);
    }

    /** `clear`: empty the entity map; `loading`, `error` and `active` stay. */
    method Clear()
      modifies this`state
      ensures state == old(state).(entities := map[])
    {
      state := state.(entities := map[]);
    }

    method SetLoading(loading: bool)
      modifies this`state
      ensures state == old(state).(loading := loading)
    {
      state := state.(loading := loading);
    }

    /** `setActive`: no check that an entity is stored under `id`. */
    method SetActive(id: string)
      modifies this`state
      ensures state == old(state).(active := Some(id))
    {
      state := state.(active := Some(id));
    }

    method ClearActive()
      modifies this`state
      ensures state == old(state).(active := None)
    {
      state := state.(active := None);
    }

    method SetError(error: Option<Error>)
      modifies this`state
      ensures state == old(state).(error := error)
    {
      state := state.(error := error);
    }
  }

  // Idempotence: each method below runs a handler twice and ends in the state
  // that the handler's own postcondition gives for a single run.

  method ClearIsIdempotent<T, P>(store: EntityStore<T, P>)
    modifies store`state
    ensures store.state == old(store.state).(entities := map[])
  {
    store.Clear();
    store.Clear();
  }

  method SetLoadingIsIdempotent<T, P>(store: EntityStore<T, P>, loading: bool)
    modifies store`state
    ensures store.state == old(store.state).(loading := loading)
  {
    store.SetLoading(loading);
    store.SetLoading(loading);
  }

  method SetActiveIsIdempotent<T, P>(store: EntityStore<T, P>, id: string)
    modifies store`state
    ensures store.state == old(store.state).(active := Some(id))
  {
    store.SetActive(id);
    store.SetActive(id);
  }

  method ClearActiveIsIdempotent<T, P>(store: EntityStore<T, P>)
    modifies store`state
    ensures store.state == old(store.state).(active := None)
  {
    store.ClearActive();
    store.ClearActive();
  }

  method SetErrorIsIdempotent<T, P>(store: EntityStore<T, P>, error: Option<Error>)
    modifies store`state
    ensures store.state == old(store.state).(error := error)
  {
    store.SetError(error);
    store.SetError(error);
  }

  method RemoveIsIdempotent<T, P>(store: EntityStore<T, P>, id: string)
    modifies store`state
    ensures store.state == old(store.state).(entities := old(store.state.entities) - {id})
  {
    store.Remove(id);
    store.Remove(id);
  }

  /** This engine does not clear `active` on removal: after `remove`, `active` still names the removed id and resolves to nothing. */
  method RemoveLeavesActiveDangling<T, P>(store: EntityStore<T, P>, e: T)
    modifies store`state
    ensures store.state.active == Some(store.strategy.idOf(e))
    ensures store.strategy.idOf(e) !in store.state.entities
    ensures GetActive(store.state).None?
  {
    store.Add(e);
    store.SetActive(store.strategy.idOf(e));
    store.Remove(store.strategy.idOf(e));
  }
}
