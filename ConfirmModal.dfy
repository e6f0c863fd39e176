/**
  The confirmation dialog. It keeps no state of its own: it shows nothing while
  closed, and while open its buttons act on the page's dialog state, modelled
  here as a value.
 */
module ConfirmModal {
  import opened Wrappers
  import opened Tasks

  datatype Button = CancelButton | ConfirmButton | CloseButton

  /** The buttons on screen: none while closed, cancel, confirm and the corner close button while open. */
  function Buttons(isOpen: bool): (r: set<Button>)
    ensures !isOpen ==> r == {}
    ensures isOpen ==> CancelButton in r && ConfirmButton in r && CloseButton in r
  {
    if isOpen then {CancelButton, ConfirmButton, CloseButton} else {}
  }

  /** The page state the dialog reads and changes: open flag, stored action, tasks. */
  datatype Dialog = Dialog(isOpen: bool, action: Option<PendingAction>, tasks: seq<Task>)

  /**
    Pressing a button. Confirm runs the stored action on the current tasks and then
    closes; cancel and close only close. A button that is not on screen does nothing.
    Confirm without a stored action would call `null` and throw before closing,
    so nothing changes then either.
   */
  function Press(d: Dialog, b: Button): (r: Dialog)
    ensures b !in Buttons(d.isOpen) ==> r == d
    ensures r.action == d.action
    ensures b != ConfirmButton ==> r.tasks == d.tasks
    ensures r.tasks != d.tasks ==> d.isOpen && b == ConfirmButton && d.action.Some?
    ensures d.isOpen && b == ConfirmButton && d.action.Some? ==> r.tasks == Run(d.action.value, d.tasks)
    ensures d.isOpen && (b != ConfirmButton || d.action.Some?) ==> !r.isOpen
  {
    if !d.isOpen then d
    else match b
      case CancelButton => d.(isOpen := false)
      case CloseButton => d.(isOpen := false)
      case ConfirmButton =>
        match d.action
        case None => d
        case Some(a) => d.(tasks := Run(a, d.tasks), isOpen := false)
  }

  /** The stored action runs once: after a confirm the dialog is closed and further presses do nothing. */
  lemma ConfirmRunsOnce(d: Dialog, b: Button)
    requires d.isOpen && d.action.Some?
    ensures var r := Press(d, ConfirmButton);
      && r == Dialog(false, d.action, Run(d.action.value, d.tasks))
      && Press(r, b) == r
  {
  }

  /** Cancelling or closing leaves a closed dialog with the tasks and the stored action as they were. */
  lemma DismissKeepsTasks(d: Dialog, b: Button)
    requires b != ConfirmButton
    ensures Press(d, b) == d.(isOpen := false)
  {
  }
}
