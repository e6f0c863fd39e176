/**
  One task row: the derived overdue flag and status label, the controls it offers
  on each tab, and its edit buffer (the local `isEditing`, `editText`, `editDate`).
 */
module TaskItem {
  import opened Wrappers
  import opened Tasks
  import Text
  import Dates

  /**
    A task is overdue when it has a due date, is not completed and its due instant
    lies before `now`. An unparseable date reads as NaN, and NaN is before nothing.
   */
  function IsOverdue(task: Task, now: int, instant: string -> Option<int>): (r: bool)
    ensures r ==> !task.completed && task.dueDate.Some? && task.dueDate.value != ""
    ensures r ==> instant(task.dueDate.value).Some? && instant(task.dueDate.value).value < now
    ensures (&& !task.completed && task.dueDate.Some? && task.dueDate.value != ""
             && instant(task.dueDate.value).Some? && instant(task.dueDate.value).value < now) ==> r
  {
    Dates.IsPresent(task.dueDate) && !task.completed &&
    match instant(task.dueDate.value)
    case Some(ms) => ms < now
    case None => false
  }

  lemma CompletedNeverOverdue(task: Task, now: int, instant: string -> Option<int>)
    requires task.completed
    ensures !IsOverdue(task, now, instant)
  {
  }

  /** Without any change to the task, an overdue task stays overdue as time goes on. */
  lemma OverdueStaysOverdue(task: Task, now: int, later: int, instant: string -> Option<int>)
    requires IsOverdue(task, now, instant) && now <= later
    ensures IsOverdue(task, later, instant)
  {
  }

  datatype Status = Checked | Overdue | Pending

  /** The text on the toggle button: exactly one of the three applies to every task. */
  function StatusLabel(task: Task, now: int, instant: string -> Option<int>): (r: Status)
    ensures r == Checked <==> task.completed
    ensures r == Overdue <==> IsOverdue(task, now, instant)
    ensures r == Pending <==> !task.completed && !IsOverdue(task, now, instant)
  {
    if task.completed then Checked else if IsOverdue(task, now, instant) then Overdue else Pending
  }

  datatype Control = ToggleButton | EditButton | TrashButton | RestoreButton | DeleteForeverButton
                   | SaveButton | CancelButton

  /** The controls a row offers: the editor's two while editing, otherwise those of the tab. */
  function Controls(tab: Tab, task: Task, isEditing: bool): (r: set<Control>)
    ensures ToggleButton in r <==> !isEditing && tab == Active
    ensures EditButton in r <==> !isEditing && tab == Active && !task.completed
    ensures TrashButton in r <==> !isEditing && tab == Active
    ensures RestoreButton in r <==> !isEditing && tab == Trash
    ensures DeleteForeverButton in r <==> !isEditing && tab == Trash
    ensures SaveButton in r <==> isEditing
    ensures CancelButton in r <==> isEditing
  {
    if isEditing then {SaveButton, CancelButton}
    else match tab
      case Active => {ToggleButton, TrashButton} + (if !task.completed then {EditButton} else {})
      case Trash => {RestoreButton, DeleteForeverButton}
  }

  /** The arguments of one `onEdit` call. */
  datatype EditRequest = EditRequest(id: int, text: string, dueDate: Option<string>)

  /** What saving the buffer asks the page to do: nothing for a blank text, else edit with the untrimmed text. */
  function SaveRequest(task: Task, editText: string, editDate: string, toIso: string -> string): (r: Option<EditRequest>)
    ensures r.None? <==> Text.IsBlank(editText)
    ensures r.Some? ==> r.value.id == task.id && r.value.text == editText
    ensures r.Some? ==> r.value.dueDate == (if editDate == "" then None else Some(toIso(editDate)))
  {
    Text.TrimEmptyIffBlank(editText);
    if Text.Trim(editText) == "" then None
    else Some(EditRequest(task.id, editText, Dates.Normalize(editDate, toIso)))
  }

  /** A saved edit, applied by the page, never stores a blank text. */
  lemma SavedEditKeepsTextsFilled(tasks: seq<Task>, task: Task, editText: string, editDate: string,
                                  toIso: string -> string)
    requires AllTextsFilled(tasks)
    ensures var q := SaveRequest(task, editText, editDate, toIso);
      q.Some? ==> AllTextsFilled(Edit(tasks, q.value.id, q.value.text, q.value.dueDate))
  {
  }

  /** The edit buffer of one row. */
  class ItemEditor {
    var isEditing: bool
    var editText: string
    var editDate: string

    /** A row starts out of editing mode with the buffer filled from the task it was first shown with. */
    constructor (task: Task)
      ensures !isEditing && editText == task.text && editDate == Dates.EditField(task.dueDate)
    {
      isEditing := false;
      editText := task.text;
      editDate := Dates.EditField(task.dueDate);
    }

    /** The pencil button. */
    method StartEditing()
      modifies this
      ensures isEditing && editText == old(editText) && editDate == old(editDate)
    {
      isEditing := true;
    }

    /** Typing in the text field. */
    method ChangeText(value: string)
      modifies this
      ensures editText == value && isEditing == old(isEditing) && editDate == old(editDate)
    {
      editText := value;
    }

    /** Picking in the date field. */
    method ChangeDate(value: string)
      modifies this
      ensures editDate == value && isEditing == old(isEditing) && editText == old(editText)
    {
      editDate := value;
    }

    /**
      The save button, for the task the row shows now. A blank text makes no call and
      stays in editing mode; otherwise the returned request is the one `onEdit` call
      and editing ends. The buffer itself is kept in both cases.
     */
    method Save(task: Task, toIso: string -> string) returns (call: Option<EditRequest>)
      modifies this
      ensures call == SaveRequest(task, old(editText), old(editDate), toIso)
      ensures editText == old(editText) && editDate == old(editDate)
      ensures isEditing == (old(isEditing) && call.None?)
    {
      call := SaveRequest(task, editText, editDate, toIso);
      if call.Some? {
        isEditing := false;
      }
    }

    /** The cancel button: the buffer is reset from the task the row shows now and editing ends. */
    method Cancel(task: Task)
      modifies this
      ensures editText == task.text && editDate == Dates.EditField(task.dueDate) && !isEditing
    {
      editText := task.text;
      editDate := Dates.EditField(task.dueDate);
      isEditing := false;
    }
  }
}
