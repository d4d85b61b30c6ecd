/**
 * The delete-confirmation workflow as a state machine over the two pieces of
 * dashboard state it touches: whether the confirmation modal is open and the
 * identifier of the record chosen for deletion. The delete request itself is
 * an abstract outcome, and the presence of the session token a boolean.
 */
module DeleteWorkflow {

  datatype Option<T> = None | Some(value: T)

  /** `openConfirmModal` and `selectedEmployeeId` (`null` is `None`). */
  datatype ModalState = ModalState(open: bool, selected: Option<int>)

  /** What the delete request came to: it succeeded, or it threw. */
  datatype Outcome = Succeeded | Failed

  /** The state the dashboard starts in and that every finished confirmation returns to. */
  const Idle := ModalState(false, None)

  /** The modal is only ever open with a record chosen. */
  predicate Consistent(m: ModalState) {
    m.open ==> m.selected.Some?
  }

  /** `onDeleteClick(id)`: choose the record and open the modal; no request is sent. */
  function Choose(m: ModalState, id: int): (r: ModalState)
    ensures r.open && r.selected == Some(id)
  {
    ModalState(true, Some(id))
  }

  /** The Cancel button: close the modal and keep the chosen identifier. */
  function Cancel(m: ModalState): (r: ModalState)
    ensures !r.open && r.selected == m.selected
  {
    m.(open := false)
  }

  /** The `finally` block of `handleConfirmDelete`: runs after the request whatever it came to. */
  function Finally(m: ModalState): (r: ModalState) {
    m.(open := false, selected := None)
  }

  /**
   * `handleConfirmDelete`: without a token, or with nothing chosen, it returns
   * before sending anything; otherwise the request is sent and, after the
   * success path or the failure path, the `finally` block closes the modal
   * and clears the chosen identifier.
   */
  function Confirm(m: ModalState, hasToken: bool, outcome: Outcome): (r: ModalState)
    ensures !hasToken || m.selected == None ==> r == m
    ensures hasToken && m.selected != None ==> r == Idle
  {
    if !hasToken then m
    else if m.selected == None then m
    else match outcome
      case Succeeded => Finally(m)
      case Failed => Finally(m)
  }

  /** Whether the delete request is sent, and for which identifier. */
  function RequestedId(m: ModalState, hasToken: bool): (r: Option<int>)
    ensures r != None <==> hasToken && m.selected != None
    ensures r != None ==> r == m.selected
  {
    if hasToken then m.selected else None
  }

  /** Success and failure of the delete request leave the same modal state. */
  lemma ConfirmIgnoresOutcome(m: ModalState, hasToken: bool)
    ensures Confirm(m, hasToken, Succeeded) == Confirm(m, hasToken, Failed)
  {
  }

  /** Every transition keeps the modal from being open with nothing chosen. */
  lemma TransitionsKeepConsistent(m: ModalState, id: int, hasToken: bool, outcome: Outcome)
    requires Consistent(m)
    ensures Consistent(Choose(m, id))
    ensures Consistent(Cancel(m))
    ensures Consistent(Confirm(m, hasToken, outcome))
  {
  }

  /** Confirming from the open modal with a token always ends idle, and the request names the record chosen. */
  lemma ConfirmFromOpenModal(m: ModalState, outcome: Outcome)
    requires Consistent(m) && m.open
    ensures Confirm(m, true, outcome) == Idle
    ensures RequestedId(m, true) == m.selected
  {
  }

  /** Choosing a record and confirming deletes that record and ends idle, whatever state the modal was in. */
  lemma ChooseThenConfirm(m: ModalState, id: int, outcome: Outcome)
    ensures RequestedId(Choose(m, id), true) == Some(id)
    ensures Confirm(Choose(m, id), true, outcome) == Idle
  {
  }

  /** Choosing a record and cancelling closes the modal but keeps the identifier until the next choice replaces it. */
  lemma ChooseThenCancel(m: ModalState, id: int, other: int)
    ensures Cancel(Choose(m, id)) == ModalState(false, Some(id))
    ensures Choose(Cancel(Choose(m, id)), other) == Choose(m, other)
  {
  }
}
