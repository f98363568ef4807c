/**
 * The collection state of one entity store (`EntityStateModel`), the
 * strategy a concrete store supplies, and the pure steps the handlers
 * perform on the entity map, with the properties those steps keep.
 */
module EntityState {
  import opened Wrappers

  /** An application error value; the engine stores it and never looks inside. */
  datatype Error = Error(message: string)

  /** The ways a handler or a selector throws. */
  datatype Failure =
    | InvalidId            // `assertValidId`: the update path resolved no id
    | PropertyOfUndefined  // a field was read from `undefined` (a TypeError)

  /** The state slice of one collection. */
  datatype EntityStateModel<T> = EntityStateModel(
    entities: map<string, T>,
    loading: bool,
    error: Option<Error>,
    active: Option<string>)

  /** `defaultEntityState`: no entities, not loading, no error, nothing active. */
  function DefaultEntityState<T>(): EntityStateModel<T>
  {
    EntityStateModel(map[], false, None, None)
  }

  lemma DefaultHasNothingActive<T>()
    ensures |DefaultEntityState<T>().entities| == 0
    ensures GetActive(DefaultEntityState<T>()).None?
  {
  }

  /** `entities[id]`: None when no entry is stored under `id`. */
  function Lookup<T>(m: map<string, T>, id: string): Option<T>
  {
    if id in m then Some(m[id]) else None
  }

  /** `getActive`: the entity stored under `active`, None when `active` is unset or dangling. */
  function GetActive<T>(s: EntityStateModel<T>): (r: Option<T>)
    ensures r.Some? <==> s.active.Some? && s.active.value in s.entities
    ensures r.Some? ==> r.value == s.entities[s.active.value]
  {
    if s.active.Some? then Lookup(s.entities, s.active.value) else None
  }

  /**
   * What a concrete store supplies: the identity field read from a whole
   * entity and from a partial one (None when the field is undefined), and
   * the merge strategy `onUpdate`, which is handed None when no entity is
   * stored under the target id.
   */
  datatype Strategy<!T, !P> = Strategy(
    idOf: T -> string,
    partialIdOf: P -> Option<string>,
    onUpdate: (Option<T>, P) -> T)

  /** Every entry is stored under its own identity field. */
  ghost predicate WellKeyed<T, P>(st: Strategy<T, P>, m: map<string, T>)
  {
    forall k :: k in m ==> st.idOf(m[k]) == k
  }

  // ---------------------------------------------------------------- add, addAll

  /** `entities[idOf(e)] = e`: insert, or replace the entry with the same id. */
  function Upsert<T, P>(st: Strategy<T, P>, m: map<string, T>, e: T): (r: map<string, T>)
    ensures r.Keys == m.Keys + {st.idOf(e)}
    ensures r[st.idOf(e)] == e
    ensures forall k :: k in m && k != st.idOf(e) ==> r[k] == m[k]
  {
    m[st.idOf(e) := e]
  }

  /** `add` applied to each element of `es`, in list order. */
  function UpsertAll<T, P>(st: Strategy<T, P>, m: map<string, T>, es: seq<T>): map<string, T>
    decreases |es|
  {
    if es == [] then m
    else Upsert(st, UpsertAll(st, m, es[..|es| - 1]), es[|es| - 1])
  }

  /** The ids of the entities in `es`. */
  function IdsOf<T, P>(st: Strategy<T, P>, es: seq<T>): set<string>
  {
    set i | 0 <= i < |es| :: st.idOf(es[i])
  }

  lemma IdsOfSnoc<T, P>(st: Strategy<T, P>, es: seq<T>)
    requires es != []
    ensures IdsOf(st, es) == IdsOf(st, es[..|es| - 1]) + {st.idOf(es[|es| - 1])}
  {
  }

  /** `addAll` stores exactly the old keys plus the ids of the new entities. */
  lemma {:induction false} UpsertAllKeys<T, P>(st: Strategy<T, P>, m: map<string, T>, es: seq<T>)
    ensures UpsertAll(st, m, es).Keys == m.Keys + IdsOf(st, es)
    decreases |es|
  {
    if es != [] {
      UpsertAllKeys(st, m, es[..|es| - 1]);
      IdsOfSnoc(st, es);
    }
  }

  /** The first element, then the rest: `addAll` is `add` of its head followed by `addAll` of its tail. */
  lemma {:induction false} UpsertAllCons<T, P>(st: Strategy<T, P>, m: map<string, T>, e: T, es: seq<T>)
    ensures UpsertAll(st, m, [e] + es) == UpsertAll(st, Upsert(st, m, e), es)
    decreases |es|
  {
    if es == [] {
      assert ([e] + es)[..0] == [];
    } else {
      var n := |es| - 1;
      assert ([e] + es)[..n + 1] == [e] + es[..n];
      UpsertAllCons(st, m, e, es[..n]);
    }
  }

  /** A later duplicate wins: the entry for an id is the last entity in `es` carrying it. */
  lemma {:induction false} UpsertAllLastWins<T, P>(st: Strategy<T, P>, m: map<string, T>, es: seq<T>, i: nat)
    requires i < |es|
    requires forall j :: i < j < |es| ==> st.idOf(es[j]) != st.idOf(es[i])
    ensures st.idOf(es[i]) in UpsertAll(st, m, es)
    ensures UpsertAll(st, m, es)[st.idOf(es[i])] == es[i]
    decreases |es|
  {
    var n := |es| - 1;
    if i < n {
      var prefix := es[..n];
      assert prefix[i] == es[i];
      forall j | i < j < |prefix|
        ensures st.idOf(prefix[j]) != st.idOf(prefix[i])
      {
        assert prefix[j] == es[j];
      }
      UpsertAllLastWins(st, m, prefix, i);
    }
  }

  /** Entries whose ids are not among the inserted ones are untouched. */
  lemma {:induction false} UpsertAllOthers<T, P>(st: Strategy<T, P>, m: map<string, T>, es: seq<T>, k: string)
    requires k in m && k !in IdsOf(st, es)
    ensures k in UpsertAll(st, m, es) && UpsertAll(st, m, es)[k] == m[k]
    decreases |es|
  {
    if es != [] {
      IdsOfSnoc(st, es);
      UpsertAllOthers(st, m, es[..|es| - 1], k);
    }
  }

  /** Inserting keeps every entry under its own id. */
  lemma {:induction false} UpsertAllWellKeyed<T, P>(st: Strategy<T, P>, m: map<string, T>, es: seq<T>)
    requires WellKeyed(st, m)
    ensures WellKeyed(st, UpsertAll(st, m, es))
    decreases |es|
  {
    if es != [] {
      UpsertAllWellKeyed(st, m, es[..|es| - 1]);
    }
  }

  /** One `add` or one `addAll` dispatched against the collection. */
  datatype Insertion<T> = AddOne(entity: T) | AddMany(batch: seq<T>)

  function ApplyInsertion<T, P>(st: Strategy<T, P>, m: map<string, T>, op: Insertion<T>): map<string, T>
  {
    match op
    case AddOne(e) => Upsert(st, m, e)
    case AddMany(es) => UpsertAll(st, m, es)
  }

  function ApplyInsertions<T, P>(st: Strategy<T, P>, m: map<string, T>, ops: seq<Insertion<T>>): map<string, T>
    decreases |ops|
  {
    if ops == [] then m else ApplyInsertions(st, ApplyInsertion(st, m, ops[0]), ops[1..])
  }

  /** The distinct ids a run of insertions names. */
  function InsertedIds<T, P>(st: Strategy<T, P>, ops: seq<Insertion<T>>): set<string>
    decreases |ops|
  {
    if ops == [] then {}
    else
      (match ops[0]
       case AddOne(e) => {st.idOf(e)}
       case AddMany(es) => IdsOf(st, es))
      + InsertedIds(st, ops[1..])
  }

  lemma {:induction false} ApplyInsertionsKeys<T, P>(st: Strategy<T, P>, m: map<string, T>, ops: seq<Insertion<T>>)
    ensures ApplyInsertions(st, m, ops).Keys == m.Keys + InsertedIds(st, ops)
    decreases |ops|
  {
    if ops != [] {
      if ops[0].AddMany? {
        UpsertAllKeys(st, m, ops[0].batch);
      }
      ApplyInsertionsKeys(st, ApplyInsertion(st, m, ops[0]), ops[1..]);
    }
  }

  /** From an empty collection, any run of `add`/`addAll` leaves `size` equal to the number of distinct ids inserted. */
  lemma InsertionsSize<T, P>(st: Strategy<T, P>, ops: seq<Insertion<T>>)
    ensures |ApplyInsertions(st, map[], ops)| == |InsertedIds(st, ops)|
  {
    ApplyInsertionsKeys(st, map[], ops);
    assert ApplyInsertions(st, map[], ops).Keys == InsertedIds(st, ops);
  }

  // ---------------------------------------------------------------- update path

  /** `_id || idOf(entity)`: a missing or empty given id falls back to the payload's own id. */
  function ResolveId<T, P>(st: Strategy<T, P>, given: Option<string>, p: P): Option<string>
  {
    if given.Some? && given.value != "" then given else st.partialIdOf(p)
  }

  /** `entities[id] = onUpdate(entities[id], p)`. */
  function MergeAt<T, P>(st: Strategy<T, P>, m: map<string, T>, id: string, p: P): (r: map<string, T>)
    ensures r.Keys == m.Keys + {id}
    ensures r[id] == st.onUpdate(Lookup(m, id), p)
    ensures forall k :: k in m && k != id ==> r[k] == m[k]
  {
    m[id := st.onUpdate(Lookup(m, id), p)]
  }

  /** `_update`: resolve the id, fail with InvalidId before any write when it is undefined, otherwise merge. */
  function UpdateEntity<T, P>(st: Strategy<T, P>, m: map<string, T>, p: P, given: Option<string>): (r: Result<map<string, T>, Failure>)
    ensures r.Failure? <==> ResolveId(st, given, p).None?
    ensures r.Failure? ==> r.error == InvalidId
    ensures r.Success? ==> r.value.Keys == m.Keys + {ResolveId(st, given, p).value}
  {
    match ResolveId(st, given, p)
    case None => Failure(InvalidId)
    case Some(id) => Success(MergeAt(st, m, id, p))
  }

  /** A merge that keeps the id of its target keeps every entry under its own id. */
  lemma MergeAtWellKeyed<T, P>(st: Strategy<T, P>, m: map<string, T>, id: string, p: P)
    requires WellKeyed(st, m)
    requires st.idOf(st.onUpdate(Lookup(m, id), p)) == id
    ensures WellKeyed(st, MergeAt(st, m, id, p))
  {
  }

  /** `updateActive`'s effect on the entity map: target the id read from the active entity. */
  function UpdateActiveEntities<T, P>(st: Strategy<T, P>, s: EntityStateModel<T>, p: P): Result<map<string, T>, Failure>
  {
    match GetActive(s)
    case None => Failure(PropertyOfUndefined)   // idOf(undefined) throws
    case Some(a) => UpdateEntity(st, s.entities, p, Some(st.idOf(a)))
  }

  /**
   * `updateActive` throws when nothing is stored under `active`; otherwise it
   * merges into the active entity's own id, falling back to the payload's id
   * when that id is empty.
   */
  lemma UpdateActiveTarget<T, P>(st: Strategy<T, P>, s: EntityStateModel<T>, p: P)
    ensures GetActive(s).None? ==> UpdateActiveEntities(st, s, p) == Failure(PropertyOfUndefined)
    ensures GetActive(s).Some? && st.idOf(GetActive(s).value) != "" ==>
      UpdateActiveEntities(st, s, p) == Success(MergeAt(st, s.entities, st.idOf(GetActive(s).value), p))
    ensures GetActive(s).Some? && st.idOf(GetActive(s).value) == "" ==>
      UpdateActiveEntities(st, s, p) == UpdateEntity(st, s.entities, p, None)
  {
  }

  /**
   * When every entry sits under its own id, `setActive(id)` followed by
   * `updateActive(p)` merges into exactly the entry at `id`.
   */
  lemma UpdateActiveAtActiveId<T, P>(st: Strategy<T, P>, s: EntityStateModel<T>, p: P)
    requires WellKeyed(st, s.entities)
    requires s.active.Some? && s.active.value in s.entities && s.active.value != ""
    ensures UpdateActiveEntities(st, s, p) == Success(MergeAt(st, s.entities, s.active.value, p))
  {
  }

  /** `update` applied to each payload in order; the first undefined id aborts the rest. */
  function UpdateSeq<T, P>(st: Strategy<T, P>, m: map<string, T>, ps: seq<P>): Result<map<string, T>, Failure>
    decreases |ps|
  {
    if ps == [] then Success(m)
    else
      match UpdateEntity(st, m, ps[0], None)
      case Failure(f) => Failure(f)
      case Success(m') => UpdateSeq(st, m', ps[1..])
  }

  /** The sequence fails, with InvalidId, exactly when some payload has no id. */
  lemma {:induction false} UpdateSeqFails<T, P>(st: Strategy<T, P>, m: map<string, T>, ps: seq<P>)
    ensures UpdateSeq(st, m, ps).Failure? <==> exists i :: 0 <= i < |ps| && st.partialIdOf(ps[i]).None?
    ensures UpdateSeq(st, m, ps).Failure? ==> UpdateSeq(st, m, ps).error == InvalidId
    decreases |ps|
  {
    if ps != [] && st.partialIdOf(ps[0]).Some? {
      var m' := UpdateEntity(st, m, ps[0], None).value;
      UpdateSeqFails(st, m', ps[1..]);
      if exists i :: 0 <= i < |ps| && st.partialIdOf(ps[i]).None? {
        var i :| 0 <= i < |ps| && st.partialIdOf(ps[i]).None?;
        assert ps[1..][i - 1] == ps[i];
      }
      if exists i :: 0 <= i < |ps[1..]| && st.partialIdOf(ps[1..][i]).None? {
        var i :| 0 <= i < |ps[1..]| && st.partialIdOf(ps[1..][i]).None?;
        assert ps[i + 1] == ps[1..][i];
      }
    }
  }

  /** The defined ids of the payloads in `ps`. */
  function PayloadIds<T, P>(st: Strategy<T, P>, ps: seq<P>): set<string>
  {
    set i | 0 <= i < |ps| && st.partialIdOf(ps[i]).Some? :: st.partialIdOf(ps[i]).value
  }

  /** A successful sequence stores exactly the old keys plus the ids of the payloads. */
  lemma {:induction false} UpdateSeqKeys<T, P>(st: Strategy<T, P>, m: map<string, T>, ps: seq<P>)
    requires UpdateSeq(st, m, ps).Success?
    ensures UpdateSeq(st, m, ps).value.Keys == m.Keys + PayloadIds(st, ps)
    decreases |ps|
  {
    if ps != [] {
      var id := st.partialIdOf(ps[0]).value;
      var m' := UpdateEntity(st, m, ps[0], None).value;
      UpdateSeqKeys(st, m', ps[1..]);
      var ids, rest := PayloadIds(st, ps), PayloadIds(st, ps[1..]);
      forall k | k in ids ensures k in {id} + rest {
        var i :| 0 <= i < |ps| && st.partialIdOf(ps[i]).Some? && st.partialIdOf(ps[i]).value == k;
        if i > 0 { assert ps[1..][i - 1] == ps[i]; }
      }
      forall k | k in rest ensures k in ids {
        var i :| 0 <= i < |ps[1..]| && st.partialIdOf(ps[1..][i]).Some? && st.partialIdOf(ps[1..][i]).value == k;
        assert ps[i + 1] == ps[1..][i];
      }
      assert ids == {id} + rest;
    }
  }

  /**
   * The stored entity map after `updateAll`. When every payload has an id it
   * is the sequential result. When one throws, nothing is patched, but the
   * first payload's merge has already been written into the stored map in
   * place (later merges went into spread copies and are lost).
   */
  function UpdateAllEntities<T, P>(st: Strategy<T, P>, m: map<string, T>, ps: seq<P>): map<string, T>
  {
    match UpdateSeq(st, m, ps)
    case Success(m') => m'
    case Failure(_) =>
      if |ps| > 0 && st.partialIdOf(ps[0]).Some?
      then MergeAt(st, m, st.partialIdOf(ps[0]).value, ps[0])
      else m
  }

  /**
   * `updateAll` is not all-or-nothing: a throw on the first payload leaves the
   * map as it was, a throw on a later one leaves the first payload's merge.
   */
  lemma UpdateAllOnFailure<T, P>(st: Strategy<T, P>, m: map<string, T>, ps: seq<P>, k: nat)
    requires k < |ps| && st.partialIdOf(ps[k]).None?
    ensures k == 0 ==> UpdateAllEntities(st, m, ps) == m
    ensures 0 < k && st.partialIdOf(ps[0]).Some? ==>
      UpdateAllEntities(st, m, ps) == MergeAt(st, m, st.partialIdOf(ps[0]).value, ps[0])
  {
    UpdateSeqFails(st, m, ps);
  }

  // ---------------------------------------------------------------- remove, removeAll

  /** The ids listed in `ids`. */
  function Elements(ids: seq<string>): set<string>
  {
    set i | 0 <= i < |ids| :: ids[i]
  }
}
