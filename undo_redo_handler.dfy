/**
 * The action handler for Undo and Redo on an Ecore diagram: perform at most
 * one undo or redo on the model state, and answer with a request to compute
 * the bounds of the regenerated graphical model when that succeeded.
 *
 * The command stack behind the model state is abstract: how many commands can
 * be undone and how many redone, with `canUndo`/`canRedo` reading those
 * counts and a ghost log of the `undo()`/`redo()` calls made on it.
 */
module UndoRedoHandler {
  import opened Wrappers

  /** The graphical model the GModel factory builds; opaque here. */
  datatype GModelRoot = GModelRoot(id: string)

  datatype Action =
    | UndoAction
    | RedoAction
    | RequestBoundsAction(newRoot: GModelRoot)
    | OtherAction(kind: string)

  datatype StackCall = UndoCall | RedoCall

  class ModelState {
    /** Commands that can be undone, and commands that can be redone. */
    var undoable: nat
    var redoable: nat
    ghost var calls: seq<StackCall>

    constructor (undoable: nat, redoable: nat)
      ensures this.undoable == undoable && this.redoable == redoable && calls == []
    {
      this.undoable := undoable;
      this.redoable := redoable;
      calls := [];
    }

    predicate CanUndo()
      reads this
    {
      undoable > 0
    }

    predicate CanRedo()
      reads this
    {
      redoable > 0
    }

    /** `undo()`: the most recent command moves over to the redo side. */
    method Undo()
      requires CanUndo()
      modifies this
      ensures undoable == old(undoable) - 1 && redoable == old(redoable) + 1
      ensures calls == old(calls) + [UndoCall]
    {
      undoable, redoable := undoable - 1, redoable + 1;
      calls := calls + [UndoCall];
    }

    /** `redo()`: the most recently undone command moves back. */
    method Redo()
      requires CanRedo()
      modifies this
      ensures undoable == old(undoable) + 1 && redoable == old(redoable) - 1
      ensures calls == old(calls) + [RedoCall]
    {
      undoable, redoable := undoable + 1, redoable - 1;
      calls := calls + [RedoCall];
    }
  }

  /** `handles`: Undo and Redo actions only. */
  predicate Handles(action: Action)
  {
    action.UndoAction? || action.RedoAction?
  }

  /** Which stack operation `executeOperation` performs, if any. */
  datatype Operation = PerformUndo | PerformRedo | NoOperation

  /** The decision `executeOperation` takes from the action and the stack's answers. */
  function Decide(action: Action, canUndo: bool, canRedo: bool): (op: Operation)
    ensures op == PerformUndo <==> action.UndoAction? && canUndo
    ensures op == PerformRedo <==> action.RedoAction? && canRedo
  {
    if action.UndoAction? && canUndo then PerformUndo
    else if action.RedoAction? && canRedo then PerformRedo
    else NoOperation
  }

  /** An operation is only ever performed for an action the handler handles. */
  lemma OnlyHandledActionsOperate(action: Action, canUndo: bool, canRedo: bool)
    requires !Handles(action)
    ensures Decide(action, canUndo, canRedo) == NoOperation
  {
  }

  /**
   * `executeOperation`: exactly one undo for an Undo action that can undo,
   * exactly one redo for a Redo action that can redo, otherwise nothing; the
   * result says whether anything was done.
   */
  method ExecuteOperation(action: Action, modelState: ModelState) returns (success: bool)
    modifies modelState
    ensures success <==> ((action.UndoAction? && old(modelState.CanUndo()))
                          || (action.RedoAction? && old(modelState.CanRedo())))
    ensures action.UndoAction? && success ==>
              modelState.undoable == old(modelState.undoable) - 1
              && modelState.redoable == old(modelState.redoable) + 1
              && modelState.calls == old(modelState.calls) + [UndoCall]
    ensures action.RedoAction? && success ==>
              modelState.undoable == old(modelState.undoable) + 1
              && modelState.redoable == old(modelState.redoable) - 1
              && modelState.calls == old(modelState.calls) + [RedoCall]
    ensures !success ==> unchanged(modelState)
  {
    match Decide(action, modelState.CanUndo(), modelState.CanRedo()) {
      case PerformUndo =>
        modelState.Undo();
        success := true;
      case PerformRedo =>
        modelState.Redo();
        success := true;
      case NoOperation =>
        success := false;
    }
  }

  /**
   * `execute`: a RequestBoundsAction for the model the factory builds
   * (`newRoot`) exactly when the operation succeeded, otherwise no action.
   */
  method Execute(action: Action, modelState: ModelState, newRoot: GModelRoot) returns (r: Option<Action>)
    modifies modelState
    ensures r.Some? <==> Decide(action, old(modelState.CanUndo()), old(modelState.CanRedo())) != NoOperation
    ensures r.Some? ==> r.value == RequestBoundsAction(newRoot) && Handles(action)
    ensures r.Some? && action.UndoAction? ==>
              modelState.undoable == old(modelState.undoable) - 1
              && modelState.redoable == old(modelState.redoable) + 1
              && modelState.calls == old(modelState.calls) + [UndoCall]
    ensures r.Some? && action.RedoAction? ==>
              modelState.undoable == old(modelState.undoable) + 1
              && modelState.redoable == old(modelState.redoable) - 1
              && modelState.calls == old(modelState.calls) + [RedoCall]
    ensures r.None? ==> unchanged(modelState)
  {
    var success := ExecuteOperation(action, modelState);
    if success {
      r := Some(RequestBoundsAction(newRoot));
    } else {
      r := None;
    }
  }
}
