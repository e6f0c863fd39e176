/**
  The task collection of the to-do page and the pure transformations its handlers
  compute with spread, `map` and `filter` before storing the new array.
  Ids are whatever `Date.now()` returned at creation; nothing makes them unique,
  so every operation acts on all tasks that carry the given id.
 */
module Tasks {
  import opened Wrappers
  import opened Seqs
  import Text
  import Dates

  datatype Task = Task(id: int, text: string, completed: bool, dueDate: Option<string>, isDeleted: bool)

  /** The two tabs of the page. */
  datatype Tab = Active | Trash

  predicate HasId(tasks: seq<Task>, id: int)
  {
    exists i :: 0 <= i < |tasks| && tasks[i].id == id
  }

  /** The tab a task is listed on: Trash for a deleted one, Active otherwise. */
  predicate OnTab(tab: Tab, t: Task)
  {
    t.isDeleted == (tab == Trash)
  }

  /** Every stored text has something besides white space. */
  predicate AllTextsFilled(tasks: seq<Task>)
  {
    forall i :: 0 <= i < |tasks| ==> !Text.IsBlank(tasks[i].text)
  }

  // ---------------------------------------------------------------------------
  // Operations

  /** Adding a task: a fresh record created at instant `now` goes in front of the list. */
  function Add(tasks: seq<Task>, now: int, text: string, rawDue: string, toIso: string -> string): (r: seq<Task>)
    ensures |r| == |tasks| + 1 && r[1..] == tasks
    ensures r[0].id == now && r[0].text == text
    ensures !r[0].completed && !r[0].isDeleted
    ensures rawDue == "" ==> r[0].dueDate == None
    ensures rawDue != "" ==> r[0].dueDate == Some(toIso(rawDue))
  {
    [Task(now, text, false, Dates.Normalize(rawDue, toIso), false)] + tasks
  }

  /** Editing: the tasks with this id get the new text and due date; nothing else changes. */
  function Edit(tasks: seq<Task>, id: int, newText: string, newDate: Option<string>): (r: seq<Task>)
    ensures |r| == |tasks|
    ensures forall i :: 0 <= i < |tasks| ==>
      r[i].id == tasks[i].id && r[i].completed == tasks[i].completed && r[i].isDeleted == tasks[i].isDeleted
    ensures forall i :: 0 <= i < |tasks| && tasks[i].id == id ==> r[i].text == newText && r[i].dueDate == newDate
    ensures forall i :: 0 <= i < |tasks| && tasks[i].id != id ==> r[i] == tasks[i]
    ensures !HasId(tasks, id) ==> r == tasks
  {
    Map(tasks, (t: Task) => if t.id == id then t.(text := newText, dueDate := newDate) else t)
  }

  /** Toggling flips `completed` of the tasks with this id and leaves every other field and task alone. */
  function Toggle(tasks: seq<Task>, id: int): (r: seq<Task>)
    ensures |r| == |tasks|
    ensures forall i :: 0 <= i < |tasks| && tasks[i].id == id ==> r[i] == tasks[i].(completed := !tasks[i].completed)
    ensures forall i :: 0 <= i < |tasks| && tasks[i].id != id ==> r[i] == tasks[i]
  {
    Map(tasks, (t: Task) => if t.id == id then t.(completed := !t.completed) else t)
  }

  /** Moving to the trash sets `isDeleted` of the tasks with this id. */
  function MoveToTrash(tasks: seq<Task>, id: int): (r: seq<Task>)
    ensures |r| == |tasks|
    ensures forall i :: 0 <= i < |tasks| && tasks[i].id == id ==> r[i] == tasks[i].(isDeleted := true)
    ensures forall i :: 0 <= i < |tasks| && tasks[i].id != id ==> r[i] == tasks[i]
  {
    Map(tasks, (t: Task) => if t.id == id then t.(isDeleted := true) else t)
  }

  /** Restoring clears `isDeleted` of the tasks with this id. */
  function Restore(tasks: seq<Task>, id: int): (r: seq<Task>)
    ensures |r| == |tasks|
    ensures forall i :: 0 <= i < |tasks| && tasks[i].id == id ==> r[i] == tasks[i].(isDeleted := false)
    ensures forall i :: 0 <= i < |tasks| && tasks[i].id != id ==> r[i] == tasks[i]
  {
    Map(tasks, (t: Task) => if t.id == id then t.(isDeleted := false) else t)
  }

  /** Deleting forever drops every task with this id and keeps the rest in order. */
  function DeleteForever(tasks: seq<Task>, id: int): (r: seq<Task>)
    ensures forall t :: t in r <==> t in tasks && t.id != id
    ensures !HasId(r, id)
    ensures IsSubsequence(r, tasks)
    ensures |r| == |tasks| - |Filter(tasks, (t: Task) => t.id == id)|
    ensures !HasId(tasks, id) ==> r == tasks
  {
    FilterIsSubsequence(tasks, (t: Task) => t.id != id);
    FilterPartition(tasks, (t: Task) => t.id != id, (t: Task) => t.id == id);
    assert !HasId(tasks, id) ==> Filter(tasks, (t: Task) => t.id != id) == tasks by {
      if !HasId(tasks, id) {
        FilterKeepsAll(tasks, (t: Task) => t.id != id);
      }
    }
    Filter(tasks, (t: Task) => t.id != id)
  }

  /** Emptying the trash keeps exactly the tasks that are not deleted, in order. */
  function EmptyTrash(tasks: seq<Task>): (r: seq<Task>)
    ensures forall t :: t in r <==> t in tasks && !t.isDeleted
    ensures IsSubsequence(r, tasks)
    ensures |tasks| - |r| == |Filter(tasks, (t: Task) => t.isDeleted)|
  {
    FilterIsSubsequence(tasks, (t: Task) => !t.isDeleted);
    FilterPartition(tasks, (t: Task) => !t.isDeleted, (t: Task) => t.isDeleted);
    Filter(tasks, (t: Task) => !t.isDeleted)
  }

  // ---------------------------------------------------------------------------
  // Read-only projections

  /** The tasks listed on a tab: the deleted ones on Trash, the others on Active, in stored order. */
  function Visible(tab: Tab, tasks: seq<Task>): (r: seq<Task>)
    ensures forall t :: t in r <==> t in tasks && OnTab(tab, t)
    ensures IsSubsequence(r, tasks)
  {
    FilterIsSubsequence(tasks, (t: Task) => OnTab(tab, t));
    Filter(tasks, (t: Task) => OnTab(tab, t))
  }

  /** The number of tasks neither completed nor deleted: the uncompleted ones on the Active tab. */
  function PendingCount(tasks: seq<Task>): (n: nat)
    ensures n == |Filter(Visible(Active, tasks), (t: Task) => !t.completed)|
    ensures n <= |Visible(Active, tasks)|
    ensures n == 0 <==> forall t :: t in tasks && !t.isDeleted ==> t.completed
  {
    var f := Filter(tasks, (t: Task) => !t.completed && !t.isDeleted);
    assert |f| > 0 ==> f[0] in f;
    FilterFilter(tasks, (t: Task) => OnTab(Active, t), (t: Task) => !t.completed,
                 (t: Task) => !t.completed && !t.isDeleted);
    FilterMonotone(tasks, (t: Task) => !t.completed && !t.isDeleted,
                   (t: Task) => OnTab(Active, t));
    |f|
  }

  const DefaultTitle := "My Tasks"
  const TrashTitle := "Trash"

  /** The document title: the pending count in parentheses on the Active tab when there is one. */
  function Title(tab: Tab, tasks: seq<Task>): (r: string)
    ensures tab == Trash ==> r == TrashTitle
    ensures tab == Active ==> r != TrashTitle
    ensures tab == Active ==> |r| >= |DefaultTitle| && r[|r| - |DefaultTitle|..] == DefaultTitle
  {
    if tab == Active then
      var n := PendingCount(tasks);
      var r := if n > 0 then "(" + Text.DecimalString(n) + ") " + DefaultTitle else DefaultTitle;
      assert r[0] != TrashTitle[0];
      r
    else TrashTitle
  }

  // ---------------------------------------------------------------------------
  // The destructive actions that wait for confirmation

  /** What the page stores while the confirmation dialog is open. */
  datatype PendingAction = DeleteTask(id: int) | EmptyTheTrash

  /** Running the stored action on the tasks current at the time it runs. */
  function Run(a: PendingAction, tasks: seq<Task>): (r: seq<Task>)
    ensures IsSubsequence(r, tasks)
    ensures a.DeleteTask? ==> forall t :: t in r <==> t in tasks && t.id != a.id
    ensures a.EmptyTheTrash? ==> forall t :: t in r <==> t in tasks && !t.isDeleted
    ensures a.DeleteTask? ==> |r| == |tasks| - |Filter(tasks, (t: Task) => t.id == a.id)|
    ensures a.EmptyTheTrash? ==> |tasks| - |r| == |Filter(tasks, (t: Task) => t.isDeleted)|
  {
    match a
    case DeleteTask(id) => DeleteForever(tasks, id)
    case EmptyTheTrash => EmptyTrash(tasks)
  }

  // ---------------------------------------------------------------------------
  // Properties of the operations

  lemma ToggleTwice(tasks: seq<Task>, id: int)
    ensures Toggle(Toggle(tasks, id), id) == tasks
  {
  }

  /** Trash then restore gives back the list when no task with the id was in the trash before. */
  lemma TrashThenRestore(tasks: seq<Task>, id: int)
    requires forall i :: 0 <= i < |tasks| && tasks[i].id == id ==> !tasks[i].isDeleted
    ensures Restore(MoveToTrash(tasks, id), id) == tasks
  {
  }

  /** Restore then trash gives back the list when every task with the id was in the trash before. */
  lemma RestoreThenTrash(tasks: seq<Task>, id: int)
    requires forall i :: 0 <= i < |tasks| && tasks[i].id == id ==> tasks[i].isDeleted
    ensures MoveToTrash(Restore(tasks, id), id) == tasks
  {
  }

  /** The two tabs split the collection by `isDeleted`: each task is listed on exactly one of them. */
  lemma VisiblePartition(tasks: seq<Task>)
    ensures |Visible(Active, tasks)| + |Visible(Trash, tasks)| == |tasks|
    ensures multiset(Visible(Active, tasks)) + multiset(Visible(Trash, tasks)) == multiset(tasks)
  {
    FilterPartition(tasks, (t: Task) => OnTab(Active, t),
                    (t: Task) => OnTab(Trash, t));
  }

  /** A new task is listed first on the Active tab, the Trash tab is unchanged and one more task is pending. */
  lemma AddShowsFirst(tasks: seq<Task>, now: int, text: string, rawDue: string, toIso: string -> string)
    ensures var r := Add(tasks, now, text, rawDue, toIso);
      && Visible(Active, r) == [r[0]] + Visible(Active, tasks)
      && Visible(Trash, r) == Visible(Trash, tasks)
      && PendingCount(r) == PendingCount(tasks) + 1
  {
  }

  /** After trashing, no task with the id is on the Active tab, and one is on the Trash tab if any existed. */
  lemma TrashMovesBetweenTabs(tasks: seq<Task>, id: int)
    ensures !HasId(Visible(Active, MoveToTrash(tasks, id)), id)
    ensures HasId(tasks, id) ==> HasId(Visible(Trash, MoveToTrash(tasks, id)), id)
  {
    var r := MoveToTrash(tasks, id);
    var v := Visible(Active, r);
    forall i | 0 <= i < |v| ensures v[i].id != id {
      assert v[i] in r;
    }
    if HasId(tasks, id) {
      var j :| 0 <= j < |tasks| && tasks[j].id == id;
      var w := Visible(Trash, r);
      assert r[j] in w;
      var k :| 0 <= k < |w| && w[k] == r[j];
    }
  }

  /** After restoring, no task with the id is on the Trash tab, and one is on the Active tab if any existed. */
  lemma RestoreMovesBetweenTabs(tasks: seq<Task>, id: int)
    ensures !HasId(Visible(Trash, Restore(tasks, id)), id)
    ensures HasId(tasks, id) ==> HasId(Visible(Active, Restore(tasks, id)), id)
  {
    var r := Restore(tasks, id);
    var v := Visible(Trash, r);
    forall i | 0 <= i < |v| ensures v[i].id != id {
      assert v[i] in r;
    }
    if HasId(tasks, id) {
      var j :| 0 <= j < |tasks| && tasks[j].id == id;
      var w := Visible(Active, r);
      assert r[j] in w;
      var k :| 0 <= k < |w| && w[k] == r[j];
    }
  }

  /** A task deleted forever is gone for good: no tab lists it and no later per-id operation changes anything. */
  lemma DeletedIsGone(tasks: seq<Task>, id: int, tab: Tab, text: string, due: Option<string>)
    ensures var r := DeleteForever(tasks, id);
      && !HasId(Visible(tab, r), id)
      && Restore(r, id) == r && MoveToTrash(r, id) == r && Toggle(r, id) == r
      && Edit(r, id, text, due) == r
  {
  }

  /** Emptying the trash yields exactly what the Active tab lists. */
  lemma EmptyTrashIsActiveView(tasks: seq<Task>)
    ensures EmptyTrash(tasks) == Visible(Active, tasks)
  {
    FilterCongruent(tasks, (t: Task) => !t.isDeleted,
                    (t: Task) => OnTab(Active, t));
  }

  /**
    Emptying the trash removes as many tasks as the Trash tab listed, leaves the
    Active tab as it was and the Trash tab empty.
   */
  lemma EmptyTrashKeepsActiveView(tasks: seq<Task>)
    ensures |tasks| - |EmptyTrash(tasks)| == |Visible(Trash, tasks)|
    ensures Visible(Active, EmptyTrash(tasks)) == Visible(Active, tasks)
    ensures Visible(Trash, EmptyTrash(tasks)) == []
  {
    EmptyTrashIsActiveView(tasks);
    VisiblePartition(tasks);
    var r := EmptyTrash(tasks);
    assert forall i :: 0 <= i < |r| ==> r[i] in tasks && !r[i].isDeleted;
    FilterKeepsAll(r, (t: Task) => OnTab(Active, t));
    FilterDropsAll(r, (t: Task) => OnTab(Trash, t));
  }

  /** Running a stored action a second time changes nothing more. */
  lemma RunIdempotent(a: PendingAction, tasks: seq<Task>)
    ensures Run(a, Run(a, tasks)) == Run(a, tasks)
  {
    var r := Run(a, tasks);
    match a
    case DeleteTask(id) =>
    case EmptyTheTrash =>
      FilterKeepsAll(r, (t: Task) => !t.isDeleted);
  }

  /** The Active-tab title shows no count exactly when nothing is pending. */
  lemma TitleWithoutCount(tasks: seq<Task>)
    ensures Title(Active, tasks) == DefaultTitle <==> PendingCount(tasks) == 0
  {
  }

  /** With tasks pending, the Active-tab title is "(n) My Tasks" where the numeral n reads as the pending count. */
  lemma TitleShowsCount(tasks: seq<Task>)
    requires PendingCount(tasks) > 0
    ensures var r := Title(Active, tasks);
      && |r| > 10 && r[0] == '(' && r[1] != '0' && r[|r| - 10..] == ") " + DefaultTitle
      && Text.IsDigits(r[1..|r| - 10]) && Text.DecimalValue(r[1..|r| - 10]) == PendingCount(tasks)
  {
    var n := PendingCount(tasks);
    var x := Text.DecimalString(n);
    var r := Title(Active, tasks);
    assert r == "(" + x + ") " + DefaultTitle;
    assert r[1..|r| - 10] == x;
    Text.DecimalRoundTrip(n);
  }

  /** Two Active-tab titles are equal only for equal pending counts. */
  lemma TitleDeterminesCount(a: seq<Task>, b: seq<Task>)
    requires Title(Active, a) == Title(Active, b)
    ensures PendingCount(a) == PendingCount(b)
  {
    TitleWithoutCount(a);
    TitleWithoutCount(b);
    var m, n := PendingCount(a), PendingCount(b);
    if m > 0 && n > 0 {
      var x, y := Text.DecimalString(m), Text.DecimalString(n);
      var ta, tb := "(" + x + ") " + DefaultTitle, "(" + y + ") " + DefaultTitle;
      assert ta == Title(Active, a) && tb == Title(Active, b);
      assert |x| == |y|;
      assert ta[1..|x| + 1] == x;
      assert tb[1..|y| + 1] == y;
      Text.DecimalStringInjective(m, n);
    }
  }

  /** Adding keeps every stored text filled when the new text is not blank. */
  lemma AddKeepsTextsFilled(tasks: seq<Task>, now: int, text: string, rawDue: string, toIso: string -> string)
    requires AllTextsFilled(tasks) && !Text.IsBlank(text)
    ensures AllTextsFilled(Add(tasks, now, text, rawDue, toIso))
  {
  }

  /** Editing keeps every stored text filled when the new text is not blank. */
  lemma EditKeepsTextsFilled(tasks: seq<Task>, id: int, text: string, due: Option<string>)
    requires AllTextsFilled(tasks) && !Text.IsBlank(text)
    ensures AllTextsFilled(Edit(tasks, id, text, due))
  {
  }

  /** Removing tasks never uncovers a blank text. */
  lemma RemovalKeepsTextsFilled(tasks: seq<Task>, id: int)
    requires AllTextsFilled(tasks)
    ensures AllTextsFilled(DeleteForever(tasks, id))
    ensures AllTextsFilled(EmptyTrash(tasks))
  {
    var d := DeleteForever(tasks, id);
    forall i | 0 <= i < |d| ensures !Text.IsBlank(d[i].text) {
      assert d[i] in tasks;
    }
    var e := EmptyTrash(tasks);
    forall i | 0 <= i < |e| ensures !Text.IsBlank(e[i].text) {
      assert e[i] in tasks;
    }
  }
}
