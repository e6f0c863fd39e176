/**
  The state of the to-do page and its handlers. Each handler computes the new task
  array with one of the functions of module Tasks and stores it; the two destructive
  handlers only store a pending action and open the confirmation dialog, and the
  tasks change when the dialog's confirm button runs that action.
 */
module TodoPage {
  import opened Wrappers
  import opened Tasks
  import ConfirmModal
  import TodoForm
  import TaskItem

  /** Title and message of the confirmation dialog. */
  datatype ModalContent = ModalContent(title: string, message: string)

  const NoContent := ModalContent("", "")
  const DeleteTaskContent := ModalContent("Delete Task?",
    "Are you sure you want to delete this task permanently? This action cannot be undone.")
  const EmptyTrashContent := ModalContent("Empty Trash?",
    "Warning: This will permanently delete ALL tasks in the trash.")

  /** The dialog text for a stored action: each kind of action has its own, and none is the empty one. */
  function ContentFor(a: PendingAction): (r: ModalContent)
    ensures r != NoContent
    ensures r == DeleteTaskContent <==> a.DeleteTask?
    ensures r == EmptyTrashContent <==> a.EmptyTheTrash?
  {
    match a
    case DeleteTask(_) => DeleteTaskContent
    case EmptyTheTrash => EmptyTrashContent
  }

  class TodoPage {
    var tasks: seq<Task>
    var activeTab: Tab
    var isModalOpen: bool
    var modalAction: Option<PendingAction>
    var modalContent: ModalContent

    /** The dialog is only open with an action stored, and it always shows the text of the stored action. */
    ghost predicate Valid()
      reads this
    {
      && (isModalOpen ==> modalAction.Some?)
      && modalContent == (if modalAction.Some? then ContentFor(modalAction.value) else NoContent)
    }

    /** The dialog part of the page state, as the dialog sees it. */
    function Dialog(): ConfirmModal.Dialog
      reads this
    {
      ConfirmModal.Dialog(isModalOpen, modalAction, tasks)
    }

    /** Only the task array changed. */
    twostate predicate OnlyTasksChanged()
      reads this
    {
      activeTab == old(activeTab) && isModalOpen == old(isModalOpen) &&
      modalAction == old(modalAction) && modalContent == old(modalContent)
    }

    /** A new page on the Active tab, dialog closed, with the tasks saved earlier or none. */
    constructor (saved: Option<seq<Task>>)
      ensures Valid()
      ensures tasks == (if saved.Some? then saved.value else [])
      ensures activeTab == Active && !isModalOpen && modalAction == None
    {
      tasks := if saved.Some? then saved.value else [];
      activeTab := Active;
      isModalOpen := false;
      modalAction := None;
      modalContent := NoContent;
    }

    /** The add form is shown on the Active tab only, so never together with the Empty Trash button. */
    predicate OffersAddForm()
      reads this
      ensures OffersAddForm() ==> !OffersEmptyTrash()
    {
      activeTab == Active
    }

    /** The Empty Trash button is shown on the Trash tab when the trash is not empty. */
    predicate OffersEmptyTrash()
      reads this
      ensures OffersEmptyTrash() <==> activeTab == Trash && exists i :: 0 <= i < |tasks| && tasks[i].isDeleted
    {
      var v := Visible(Trash, tasks);
      assert |v| > 0 ==> v[0] in tasks;
      assert forall i :: 0 <= i < |tasks| && tasks[i].isDeleted ==> tasks[i] in v;
      activeTab == Trash && |v| > 0
    }

    method SetActiveTab(tab: Tab)
      requires Valid()
      modifies this
      ensures Valid()
      ensures activeTab == tab && tasks == old(tasks)
      ensures isModalOpen == old(isModalOpen) && modalAction == old(modalAction)
      ensures modalContent == old(modalContent)
      ensures OffersAddForm() <==> tab == Active
    {
      activeTab := tab;
    }

    /** The 60-second timer stores a copy of the same array, which makes the labels be derived again. */
    method Tick()
      requires Valid()
      modifies this
      ensures Valid() && tasks == old(tasks) && OnlyTasksChanged()
    {
      tasks := tasks[..];
    }

    /** Adding with the request of the form; the new id is the current instant. */
    method AddTask(text: string, rawDue: string, now: int, toIso: string -> string)
      requires Valid()
      modifies this
      ensures Valid() && OnlyTasksChanged()
      ensures tasks == Add(old(tasks), now, text, rawDue, toIso)
    {
      tasks := Add(tasks, now, text, rawDue, toIso);
    }

    method EditTask(id: int, newText: string, newDate: Option<string>)
      requires Valid()
      modifies this
      ensures Valid() && OnlyTasksChanged()
      ensures tasks == Edit(old(tasks), id, newText, newDate)
    {
      tasks := Edit(tasks, id, newText, newDate);
    }

    method ToggleTask(id: int)
      requires Valid()
      modifies this
      ensures Valid() && OnlyTasksChanged()
      ensures tasks == Toggle(old(tasks), id)
    {
      tasks := Toggle(tasks, id);
    }

    method MoveTaskToTrash(id: int)
      requires Valid()
      modifies this
      ensures Valid() && OnlyTasksChanged()
      ensures tasks == MoveToTrash(old(tasks), id)
    {
      tasks := MoveToTrash(tasks, id);
    }

    method RestoreTask(id: int)
      requires Valid()
      modifies this
      ensures Valid() && OnlyTasksChanged()
      ensures tasks == Restore(old(tasks), id)
    {
      tasks := Restore(tasks, id);
    }

    /**
      Asking to delete a task forever: no task changes; the deletion of this id
      replaces whatever action was stored before, and the dialog opens.
     */
    method ConfirmDeleteForever(id: int)
      requires Valid()
      modifies this
      ensures Valid()
      ensures tasks == old(tasks) && activeTab == old(activeTab)
      ensures isModalOpen && modalAction == Some(DeleteTask(id)) && modalContent == DeleteTaskContent
    {
      modalContent := DeleteTaskContent;
      modalAction := Some(DeleteTask(id));
      isModalOpen := true;
    }

    /** Asking to empty the trash: no task changes; emptying replaces the stored action and the dialog opens. */
    method ConfirmEmptyTrash()
      requires Valid()
      modifies this
      ensures Valid()
      ensures tasks == old(tasks) && activeTab == old(activeTab)
      ensures isModalOpen && modalAction == Some(EmptyTheTrash) && modalContent == EmptyTrashContent
    {
      modalContent := EmptyTrashContent;
      modalAction := Some(EmptyTheTrash);
      isModalOpen := true;
    }

    /** A press on the dialog: the page takes the dialog's new state; tab and dialog text stay. */
    method PressModal(b: ConfirmModal.Button)
      requires Valid()
      modifies this
      ensures Valid()
      ensures Dialog() == ConfirmModal.Press(old(Dialog()), b)
      ensures activeTab == old(activeTab) && modalContent == old(modalContent)
      ensures old(isModalOpen) ==> !isModalOpen
    {
      var d := ConfirmModal.Press(Dialog(), b);
      isModalOpen, modalAction, tasks := d.isOpen, d.action, d.tasks;
    }
  }

  /**
    The whole two-phase deletion: ask, then confirm. The task is deleted once, the dialog
    is closed and still holds the deletion and its text; the tab stays.
   */
  method DeleteWithConfirmation(page: TodoPage, id: int)
    requires page.Valid()
    modifies page
    ensures page.Valid()
    ensures page.tasks == DeleteForever(old(page.tasks), id)
    ensures !page.isModalOpen && page.activeTab == old(page.activeTab)
    ensures page.modalAction == Some(DeleteTask(id)) && page.modalContent == DeleteTaskContent
  {
    page.ConfirmDeleteForever(id);
    page.PressModal(ConfirmModal.ConfirmButton);
  }

  /**
    Asking and then cancelling or closing leaves every task and the tab as they were;
    the deletion stays stored in the closed dialog, replacing any earlier action.
   */
  method DismissedRequest(page: TodoPage, id: int, b: ConfirmModal.Button)
    requires page.Valid() && b != ConfirmModal.ConfirmButton
    modifies page
    ensures page.Valid()
    ensures page.tasks == old(page.tasks) && !page.isModalOpen && page.activeTab == old(page.activeTab)
    ensures page.modalAction == Some(DeleteTask(id)) && page.modalContent == DeleteTaskContent
  {
    page.ConfirmDeleteForever(id);
    page.PressModal(b);
  }

  /**
    Emptying the trash through the dialog leaves exactly what the Active tab listed before,
    and the Empty Trash button is no longer offered; the tab stays.
   */
  method EmptyTrashWithConfirmation(page: TodoPage)
    requires page.Valid()
    modifies page
    ensures page.Valid()
    ensures page.tasks == Visible(Active, old(page.tasks))
    ensures Visible(Trash, page.tasks) == [] && !page.OffersEmptyTrash()
    ensures !page.isModalOpen && page.activeTab == old(page.activeTab)
    ensures page.modalAction == Some(EmptyTheTrash) && page.modalContent == EmptyTrashContent
  {
    ghost var before := page.tasks;
    page.ConfirmEmptyTrash();
    page.PressModal(ConfirmModal.ConfirmButton);
    EmptyTrashIsActiveView(before);
    EmptyTrashKeepsActiveView(before);
  }

  /**
    The add form's submit wired to the page, on the Active tab where the form is shown:
    a blank input adds nothing and keeps the form; any other adds the typed text and
    clears the form. Tab and dialog stay, and stored texts stay non-blank.
   */
  method SubmitAddForm(page: TodoPage, form: TodoForm.TodoForm, now: int, toIso: string -> string)
    returns (call: Option<TodoForm.AddRequest>)
    requires page.Valid() && page.OffersAddForm()
    modifies page, form
    ensures page.Valid() && page.OnlyTasksChanged()
    ensures call == TodoForm.SubmitRequest(old(form.input), old(form.dueDate))
    ensures call.None? ==> page.tasks == old(page.tasks)
    ensures call.None? ==> form.input == old(form.input) && form.dueDate == old(form.dueDate)
    ensures call.Some? ==> page.tasks == Add(old(page.tasks), now, old(form.input), old(form.dueDate), toIso)
    ensures call.Some? ==> form.input == "" && form.dueDate == ""
    ensures AllTextsFilled(old(page.tasks)) ==> AllTextsFilled(page.tasks)
  {
    call := form.Submit();
    if call.Some? {
      if AllTextsFilled(page.tasks) {
        AddKeepsTextsFilled(page.tasks, now, call.value.text, call.value.dueDate, toIso);
      }
      page.AddTask(call.value.text, call.value.dueDate, now, toIso);
    }
  }

  /**
    A row's save button, shown while the row is editing, wired to the page: a blank text
    edits nothing and keeps the row editing; any other edits the shown task's id and ends
    editing. The buffer, the tab and the dialog stay, and stored texts stay non-blank.
   */
  method SaveItemEdit(page: TodoPage, editor: TaskItem.ItemEditor, task: Task, toIso: string -> string)
    returns (call: Option<TaskItem.EditRequest>)
    requires page.Valid() && editor.isEditing
    modifies page, editor
    ensures page.Valid() && page.OnlyTasksChanged()
    ensures editor.editText == old(editor.editText) && editor.editDate == old(editor.editDate)
    ensures call == TaskItem.SaveRequest(task, old(editor.editText), old(editor.editDate), toIso)
    ensures call.None? ==> page.tasks == old(page.tasks) && editor.isEditing == old(editor.isEditing)
    ensures call.Some? ==> page.tasks == Edit(old(page.tasks), task.id, call.value.text, call.value.dueDate)
    ensures call.Some? ==> !editor.isEditing
    ensures AllTextsFilled(old(page.tasks)) ==> AllTextsFilled(page.tasks)
  {
    call := editor.Save(task, toIso);
    if call.Some? {
      if AllTextsFilled(page.tasks) {
        TaskItem.SavedEditKeepsTextsFilled(page.tasks, task, old(editor.editText), old(editor.editDate), toIso);
      }
      page.EditTask(call.value.id, call.value.text, call.value.dueDate);
    }
  }
}
