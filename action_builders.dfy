/**
 * The action builders callers use to trigger a handler. Each one names the
 * handler its action is dispatched to; the `{type, payload}` object itself
 * is built by `generateActionObject`, which is not part of this model.
 */
module ActionBuilders {
  import EntityStoreEngine

  datatype Builder =
    | AddOrReplace | AddOrReplaceAll
    | Update | UpdateAll | UpdateActive
    | Remove | RemoveAll | Clear
    | SetLoading | SetError
    | SetActive | ClearActive

  /** The handler name a builder passes along; it is always one the engine registers. */
  function OperationOf(b: Builder): (op: string)
    ensures op in EntityStoreEngine.Operations
  {
    match b
    case AddOrReplace => "add"
    case AddOrReplaceAll => "addAll"
    case Update => "update"
    case UpdateAll => "updateAll"
    case UpdateActive => "updateActive"
    case Remove => "remove"
    case RemoveAll => "removeAll"
    case Clear => "clear"
    case SetLoading => "setLoading"
    case SetError => "setError"
    case SetActive => "setActive"
    case ClearActive => "clearActive"
  }

  /** Builders and registered handlers correspond one to one. */
  lemma BuildersCoverOperations(op: string)
    requires op in EntityStoreEngine.Operations
    ensures exists b :: OperationOf(b) == op
  {
    var ops := EntityStoreEngine.Operations;
    var i :| 0 <= i < |ops| && ops[i] == op;
    var all := [AddOrReplace, AddOrReplaceAll, Update, UpdateAll, UpdateActive,
                Remove, RemoveAll, Clear, SetLoading, SetError, SetActive, ClearActive];
    assert OperationOf(all[i]) == op;
  }

  lemma OperationOfInjective(a: Builder, b: Builder)
    requires OperationOf(a) == OperationOf(b)
    ensures a == b
  {
  }
}
