# To-do page task store, in Dafny

This project models the logic of a small React to-do application. The page keeps an
ordered array of task records `{id, text, completed, dueDate, isDeleted}`. It changes
the array by adding (prepend), editing, toggling, moving to the trash and restoring
(each a `map`), and by deleting forever and emptying the trash (each a `filter`). The
two destructive operations go through a confirmation dialog: the page stores a pending
action and opens the dialog, and the tasks change only when the user confirms. Each
task row derives an overdue flag and a status label from the current time. It offers
different controls on the Active and Trash tabs and keeps an edit buffer. The add
form refuses blank input.

Layout, following the components:

- `Seqs.dfy`: `map` and `filter` on sequences, with subsequence, partition and congruence lemmas.
- `Text.dfy`: JavaScript `trim` (the ECMAScript white-space set), blankness, and the decimal numeral used in the title.
- `Dates.dfy`: how a date field becomes a stored due date (null or its ISO string), and the 16-character editor prefix.
- `Tasks.dfy`: the task record and the pure array transformations and projections of `TodoPage.jsx`, with their lemmas.
- `ConfirmModal.dfy`: the dialog as a transition function on (open, pending action, tasks).
- `TaskItem.dfy`: overdue, status label, controls per tab, the edit buffer as class `ItemEditor`.
- `TodoForm.dfy`: the add form as class `TodoForm`.
- `TodoPage.dfy`: the page state as class `TodoPage` with the invariant `Valid()`, plus client methods that wire the form, the editor and the dialog to the page.

Time is an integer parameter `now` (milliseconds); a new task's id is that `now`.
The `Date` conversions are function parameters: `toIso` converts a field value to its ISO
string, and `instant` gives the millisecond time of a string (`None` for NaN).
Callbacks (`onAdd`, `onEdit`) are modelled as the request value a method returns.

Points where the code's behaviour may be unexpected:
- The visible list is an unsorted filter, not a list sorted by due date.
- An absent id is a silent no-op for every operation; no operation returns a NotFound error.
- Ids come from the clock and are not unique, so every operation acts on all tasks with the id.
- Blank text is refused by the form and the row editor, not by the page's edit handler.
- A trashed task's status label is hidden only because the label button is drawn on the Active tab alone.

## Model

| member | source | states |
|---|---|---|
| `Text.Trim` | CSC13008-Group-Assignment-04/src/components/TodoForm.jsx:10 | the trimmed text is no longer than the input, and is empty or starts and ends with a character other than ECMAScript white space |
| `Text.TrimIsSlice` | CSC13008-Group-Assignment-04/src/components/TaskItem.jsx:12 | the trimmed text is one contiguous slice of the input, with only white space before and after it |
| `Text.TrimEmptyIffBlank` | CSC13008-Group-Assignment-04/src/components/TodoForm.jsx:10 | the trim-based guard refuses a string exactly when every character is ECMAScript white space |
| `Text.DecimalRoundTrip` | CSC13008-Group-Assignment-04/src/components/TodoPage.jsx:28 | the count rendered into the title reads back as the same number |
| `Dates.Normalize` | CSC13008-Group-Assignment-04/src/components/TodoPage.jsx:62 | an empty date field is stored as null, any other as its ISO conversion |
| `Dates.EditField` | CSC13008-Group-Assignment-04/src/components/TaskItem.jsx:7 | the editor date is a prefix of the stored date of length min(16, its length), or '' when there is none |
| `Dates.IsPresent` | CSC13008-Group-Assignment-04/src/components/TaskItem.jsx:9 | a due date counts as present exactly when it is a non-empty string; null and '' are both falsy |
| `Tasks.Add` | CSC13008-Group-Assignment-04/src/components/TodoPage.jsx:57-65 | exactly one task is prepended, with id `now`, the given text, completed and isDeleted false, due date null for an empty field; the old tasks follow unchanged and in order |
| `Tasks.Edit` | CSC13008-Group-Assignment-04/src/components/TodoPage.jsx:69-72 | same length; matching tasks get the new text and due date and keep id, completed and isDeleted; other tasks are unchanged; an absent id changes nothing |
| `Tasks.Toggle` | CSC13008-Group-Assignment-04/src/components/TodoPage.jsx:76 | only matching tasks change, and only by flipping completed |
| `Tasks.MoveToTrash` | CSC13008-Group-Assignment-04/src/components/TodoPage.jsx:78-81 | only matching tasks change, and only by isDeleted becoming true |
| `Tasks.Restore` | CSC13008-Group-Assignment-04/src/components/TodoPage.jsx:83-86 | only matching tasks change, and only by isDeleted becoming false |
| `Tasks.DeleteForever` | CSC13008-Group-Assignment-04/src/components/TodoPage.jsx:98 | exactly the tasks with other ids remain, as an order-preserving subsequence; the number removed is the number with that id; an absent id changes nothing |
| `Tasks.EmptyTrash` | CSC13008-Group-Assignment-04/src/components/TodoPage.jsx:111 | exactly the non-deleted tasks remain, in order; the number removed equals the number of deleted tasks before |
| `Tasks.Visible` | CSC13008-Group-Assignment-04/src/components/TodoPage.jsx:117-119 | a tab lists exactly the tasks whose isDeleted matches it, as an order-preserving subsequence |
| `Tasks.PendingCount` | CSC13008-Group-Assignment-04/src/components/TodoPage.jsx:27 | the pending count is the number of uncompleted tasks on the Active list; hence it never exceeds that list's length, and is 0 exactly when every non-deleted task is completed |
| `Tasks.Title` | CSC13008-Group-Assignment-04/src/components/TodoPage.jsx:26-31 | the title is "Trash" exactly on the Trash tab; on the Active tab it always ends with "My Tasks" |
| `Tasks.Run` | CSC13008-Group-Assignment-04/src/components/TodoPage.jsx:97-100 | the stored closure keeps an order-preserving subsequence of the tasks current when it runs: the tasks with other ids for a deletion, the non-deleted tasks for emptying the trash (also lines 110-113); the number removed is the number of tasks with the id, or of deleted tasks |
| `Tasks.ToggleTwice` | CSC13008-Group-Assignment-04/src/components/TodoPage.jsx:76 | toggling the same id twice gives back the original list |
| `Tasks.TrashThenRestore` | CSC13008-Group-Assignment-04/src/components/TodoPage.jsx:78-86 | trash then restore gives back the list when no task with the id was deleted |
| `Tasks.RestoreThenTrash` | CSC13008-Group-Assignment-04/src/components/TodoPage.jsx:78-86 | restore then trash gives back the list when every task with the id was deleted |
| `Tasks.VisiblePartition` | CSC13008-Group-Assignment-04/src/components/TodoPage.jsx:117-119 | the Active and Trash lists together hold every task exactly once (lengths and multisets add up) |
| `Tasks.AddShowsFirst` | CSC13008-Group-Assignment-04/src/components/TodoPage.jsx:65 | a new task heads the Active list, the Trash list is unchanged, and the pending count grows by one |
| `Tasks.TrashMovesBetweenTabs` | CSC13008-Group-Assignment-04/src/components/TodoPage.jsx:79 | after trashing, no task with the id is on the Active tab, and one is on the Trash tab if the id existed |
| `Tasks.RestoreMovesBetweenTabs` | CSC13008-Group-Assignment-04/src/components/TodoPage.jsx:84 | after restoring, no task with the id is on the Trash tab, and one is on the Active tab if the id existed |
| `Tasks.DeletedIsGone` | CSC13008-Group-Assignment-04/src/components/TodoPage.jsx:98 | after deleting forever, no tab lists the id and restore, trash, toggle and edit of it change nothing |
| `Tasks.EmptyTrashIsActiveView` | CSC13008-Group-Assignment-04/src/components/TodoPage.jsx:111 | emptying the trash yields exactly the list the Active tab shows |
| `Tasks.EmptyTrashKeepsActiveView` | CSC13008-Group-Assignment-04/src/components/TodoPage.jsx:111 | emptying the trash removes as many tasks as the Trash list held, keeps the Active list and leaves the Trash list empty |
| `Tasks.RunIdempotent` | CSC13008-Group-Assignment-04/src/components/TodoPage.jsx:97-113 | running a stored action again after it ran changes nothing more |
| `Tasks.TitleWithoutCount` | CSC13008-Group-Assignment-04/src/components/TodoPage.jsx:26-31 | the Active-tab title is plain "My Tasks" exactly when no task is pending |
| `Tasks.TitleShowsCount` | CSC13008-Group-Assignment-04/src/components/TodoPage.jsx:28 | with tasks pending, the Active-tab title is '(' then a decimal numeral without a leading zero then ") My Tasks", and the numeral reads as the pending count |
| `Tasks.TitleDeterminesCount` | CSC13008-Group-Assignment-04/src/components/TodoPage.jsx:28 | equal Active-tab titles mean equal pending counts |
| `Tasks.AddKeepsTextsFilled` | CSC13008-Group-Assignment-04/src/components/TodoForm.jsx:10-11 | adding a non-blank text keeps every stored text non-blank |
| `Tasks.EditKeepsTextsFilled` | CSC13008-Group-Assignment-04/src/components/TaskItem.jsx:12-13 | editing with a non-blank text keeps every stored text non-blank |
| `Tasks.RemovalKeepsTextsFilled` | CSC13008-Group-Assignment-04/src/components/TodoPage.jsx:98-111 | deleting forever and emptying the trash keep every stored text non-blank |
| `ConfirmModal.Buttons` | CSC13008-Group-Assignment-04/src/components/ConfirmModal.jsx:4 | a closed dialog offers no button; an open one offers cancel, confirm and close |
| `ConfirmModal.Press` | CSC13008-Group-Assignment-04/src/components/ConfirmModal.jsx:25-45 | a button not on screen does nothing; tasks change only by confirm, with a stored action, and then become that action run on them; cancel and close keep the tasks; the dialog ends closed; the stored action is kept |
| `ConfirmModal.ConfirmRunsOnce` | CSC13008-Group-Assignment-04/src/components/ConfirmModal.jsx:32-35 | confirm runs the action once and closes, after which any press does nothing |
| `ConfirmModal.DismissKeepsTasks` | CSC13008-Group-Assignment-04/src/components/ConfirmModal.jsx:26-27 | cancel (and the corner close button) only sets the dialog closed |
| `TaskItem.IsOverdue` | CSC13008-Group-Assignment-04/src/components/TaskItem.jsx:9 | overdue exactly for an uncompleted task whose due date is a non-empty string whose instant is known (not NaN) and before now |
| `TaskItem.CompletedNeverOverdue` | CSC13008-Group-Assignment-04/src/components/TaskItem.jsx:9 | a completed task is never overdue |
| `TaskItem.OverdueStaysOverdue` | CSC13008-Group-Assignment-04/src/components/TaskItem.jsx:9 | an unchanged overdue task remains overdue at every later instant |
| `TaskItem.StatusLabel` | CSC13008-Group-Assignment-04/src/components/TaskItem.jsx:91 | Checked exactly when completed, Overdue exactly when overdue, Pending otherwise |
| `TaskItem.Controls` | CSC13008-Group-Assignment-04/src/components/TaskItem.jsx:78-131 | toggle and trash only on the Active tab outside editing, edit also only for an uncompleted task, restore and delete-forever only on the Trash tab, save and cancel only while editing |
| `TaskItem.SaveRequest` | CSC13008-Group-Assignment-04/src/components/TaskItem.jsx:11-16 | no edit call for a blank text; otherwise one call with the task's id, the untrimmed text and the date field normalised |
| `TaskItem.SavedEditKeepsTextsFilled` | CSC13008-Group-Assignment-04/src/components/TaskItem.jsx:12-13 | an edit issued by the save button, once applied, leaves every stored text non-blank |
| `TaskItem.ItemEditor.constructor` | CSC13008-Group-Assignment-04/src/components/TaskItem.jsx:5-7 | a row starts out of editing mode with the buffer taken from its task |
| `TaskItem.ItemEditor.StartEditing` | CSC13008-Group-Assignment-04/src/components/TaskItem.jsx:96 | the pencil button enters editing mode and keeps the buffer |
| `TaskItem.ItemEditor.ChangeText` | CSC13008-Group-Assignment-04/src/components/TaskItem.jsx:38 | typing replaces the text buffer only |
| `TaskItem.ItemEditor.ChangeDate` | CSC13008-Group-Assignment-04/src/components/TaskItem.jsx:47 | picking a date replaces the date buffer only |
| `TaskItem.ItemEditor.Save` | CSC13008-Group-Assignment-04/src/components/TaskItem.jsx:11-16 | the returned call is SaveRequest of the buffer; editing ends exactly when a call is made; the buffer is kept |
| `TaskItem.ItemEditor.Cancel` | CSC13008-Group-Assignment-04/src/components/TaskItem.jsx:18-22 | the buffer is reset from the current task (text, 16-character date or '') and editing ends |
| `TodoForm.SubmitRequest` | CSC13008-Group-Assignment-04/src/components/TodoForm.jsx:10-11 | no add call for a blank input; otherwise one call with the untrimmed input and the raw date field |
| `TodoForm.TodoForm.constructor` | CSC13008-Group-Assignment-04/src/components/TodoForm.jsx:5-6 | both fields start empty |
| `TodoForm.TodoForm.ChangeInput` | CSC13008-Group-Assignment-04/src/components/TodoForm.jsx:22 | typing replaces the input field only |
| `TodoForm.TodoForm.ChangeDueDate` | CSC13008-Group-Assignment-04/src/components/TodoForm.jsx:37 | picking a date replaces the date field only |
| `TodoForm.TodoForm.Submit` | CSC13008-Group-Assignment-04/src/components/TodoForm.jsx:8-14 | the returned call is SubmitRequest of the fields; a refused submit leaves both fields as they were; an accepted one clears both to '' |
| `TodoForm.RetryAfterRejection` | CSC13008-Group-Assignment-04/src/components/TodoForm.jsx:8-14 | a refused submit, then typing and submitting, gives the same call and the same cleared form as typing and submitting alone |
| `TodoPage.ContentFor` | CSC13008-Group-Assignment-04/src/components/TodoPage.jsx:92-95 | each stored action has its own dialog text (also lines 106-109), and none is the empty one |
| `TodoPage.TodoPage.constructor` | CSC13008-Group-Assignment-04/src/components/TodoPage.jsx:13-22 | the page starts on the Active tab with the dialog closed, no stored action, and the saved tasks or an empty list |
| `TodoPage.TodoPage.OffersAddForm` | CSC13008-Group-Assignment-04/src/components/TodoPage.jsx:140 | the add form, shown on the Active tab, never appears together with the Empty Trash button |
| `TodoPage.TodoPage.OffersEmptyTrash` | CSC13008-Group-Assignment-04/src/components/TodoPage.jsx:142 | the Empty Trash button is shown exactly on the Trash tab while some stored task is deleted |
| `TodoPage.TodoPage.SetActiveTab` | CSC13008-Group-Assignment-04/src/components/TodoTabs.jsx:7-17 | switching tabs changes the tab only; the add form is offered exactly when the new tab is Active |
| `TodoPage.TodoPage.Tick` | CSC13008-Group-Assignment-04/src/components/TodoPage.jsx:52-55 | the timer leaves the task list and the rest of the page as they were |
| `TodoPage.TodoPage.AddTask` | CSC13008-Group-Assignment-04/src/components/TodoPage.jsx:57-67 | the new list is Tasks.Add of the old one; nothing else changes |
| `TodoPage.TodoPage.EditTask` | CSC13008-Group-Assignment-04/src/components/TodoPage.jsx:69-74 | the new list is Tasks.Edit of the old one; nothing else changes |
| `TodoPage.TodoPage.ToggleTask` | CSC13008-Group-Assignment-04/src/components/TodoPage.jsx:76 | the new list is Tasks.Toggle of the old one; nothing else changes |
| `TodoPage.TodoPage.MoveTaskToTrash` | CSC13008-Group-Assignment-04/src/components/TodoPage.jsx:78-81 | the new list is Tasks.MoveToTrash of the old one; nothing else changes |
| `TodoPage.TodoPage.RestoreTask` | CSC13008-Group-Assignment-04/src/components/TodoPage.jsx:83-86 | the new list is Tasks.Restore of the old one; nothing else changes |
| `TodoPage.TodoPage.ConfirmDeleteForever` | CSC13008-Group-Assignment-04/src/components/TodoPage.jsx:91-102 | no task changes; the deletion of the id replaces any stored action, its dialog text is set, and the dialog opens |
| `TodoPage.TodoPage.ConfirmEmptyTrash` | CSC13008-Group-Assignment-04/src/components/TodoPage.jsx:105-115 | no task changes; emptying the trash replaces any stored action, its dialog text is set, and the dialog opens |
| `TodoPage.TodoPage.PressModal` | CSC13008-Group-Assignment-04/src/components/TodoPage.jsx:126-132 | the page's dialog state becomes ConfirmModal.Press of the old one; an open dialog ends closed; the invariant holds |
| `TodoPage.DeleteWithConfirmation` | CSC13008-Group-Assignment-04/src/components/TodoPage.jsx:91-102 | asking and confirming deletes the id forever once and closes the dialog; the tab stays, and the closed dialog still holds the deletion and its text |
| `TodoPage.DismissedRequest` | CSC13008-Group-Assignment-04/src/components/TodoPage.jsx:128 | asking and then dismissing leaves every task and the tab as they were and closes the dialog; the deletion replaces any earlier stored action and text |
| `TodoPage.EmptyTrashWithConfirmation` | CSC13008-Group-Assignment-04/src/components/TodoPage.jsx:105-115 | asking and confirming leaves exactly the former Active list and an empty Trash list, so the Empty Trash button is gone; the tab stays, the dialog closes and still holds the emptying and its text |
| `TodoPage.SubmitAddForm` | CSC13008-Group-Assignment-04/src/components/TodoPage.jsx:140 | on the Active tab, where the form is shown: a blank input leaves the tasks and the form alone; any other adds the typed text with the raw date field and clears both fields; tab and dialog stay; stored texts stay non-blank |
| `TodoPage.SaveItemEdit` | CSC13008-Group-Assignment-04/src/components/TodoPage.jsx:163 | for a row in editing mode, where the save button is shown: a blank edit leaves the tasks alone and keeps the row editing; any other edits the shown task's id and ends editing; the buffer, the tab and the dialog stay; stored texts stay non-blank |

## Left out

- Local storage and JSON: reading the saved array at start-up and writing it after every change are browser I/O. The constructor takes the already-parsed saved array, or None when the key is absent. A parse failure, which the code does not catch, is not modelled.
- Notifications (`react-hot-toast`) are fire-and-forget and are not modelled.
- Favicon and document updates: the DOM work is left out. The title string is modelled as the function `Tasks.Title`.
- Timer scheduling (`setInterval`, `clearInterval`) is runtime machinery; only one tick's effect on the state is modelled (`TodoPage.TodoPage.Tick`).
- `Date` conversions and the clock: these two are function parameters, and `now` is an integer. Several behaviours therefore fall outside the model:
  - `toISOString` throws a RangeError on an invalid field value.
  - `toISOString` gives UTC time. The editor's 16-character prefix is therefore UTC wall-clock time, while the `datetime-local` field reads it as local time.
  - Date display through `toLocaleString`.
- Rendering and styling: the JSX trees, the card colour classes and the tab bar's look are presentation only. Which controls exist is modelled in `TaskItem.Controls`, `ConfirmModal.Buttons`, `TodoPage.TodoPage.OffersAddForm` and `TodoPage.TodoPage.OffersEmptyTrash`.
- React scheduling: the model runs handlers one at a time on the latest state. Most handlers build the new array from the tasks of the last render, not from a functional update. Two updates batched into one event could therefore lose one in React; this is not modelled.
- Unmounting: React discards a component's local state when it leaves the tree. The add form is drawn only on the Active tab, and a row only while its task is listed on the current tab. So `TodoPage.TodoPage.SetActiveTab` clears a half-typed add form and drops an open row edit. `TodoPage.TodoPage.MoveTaskToTrash` and `TodoPage.TodoPage.RestoreTask` discard that row's edit buffer, which a remount refills from the stored task. The model does not capture this reset: its `TodoForm.TodoForm` and `TaskItem.ItemEditor` objects outlive those operations. A remount is a fresh object, whose constructor gives the reset state.
