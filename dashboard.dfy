/** The live task board: the `TaskManager` class of the dashboard controller, whose
    columns are `todo`, `inprocess` and `finished` and whose tasks are matched by
    `_id || id`. Service calls and the token in local storage are parameters. */
module Dashboard {
  import opened Wrappers
  import opened JsText
  import opened Tasks

  /** The board's columns, as the DOM names them. */
  const Columns: seq<string> := GroupColumns

  /** `statusToColumn[status]`: undefined (`None`) for any other status. */
  function StatusToColumn(status: string): Option<string> {
    if status == ToDo then Some("todo")
    else if status == InProcess then Some("inprocess")
    else if status == Finished then Some("finished")
    else None
  }

  /** `columnToStatus[column]` */
  function ColumnToStatus(column: string): Option<string> {
    if column == "todo" then Some(ToDo)
    else if column == "inprocess" then Some(InProcess)
    else if column == "finished" then Some(Finished)
    else None
  }

  /** The two tables are inverse bijections between the three statuses and the three columns. */
  lemma StatusColumnBijection()
    ensures forall st :: StatusToColumn(st).Some? <==> st == ToDo || st == InProcess || st == Finished
    ensures forall c :: ColumnToStatus(c).Some? <==> c in Columns
    ensures forall st :: StatusToColumn(st).Some? ==> ColumnToStatus(StatusToColumn(st).value) == Some(st)
    ensures forall c :: ColumnToStatus(c).Some? ==> StatusToColumn(ColumnToStatus(c).value) == Some(c)
  {
  }

  /** The column `editTask` records for a fetched task with status `status` whose card
      sat in `column`: `statusToColumn[task.status] || column || "todo"`. */
  function EditColumn(status: string, column: string): string {
    if StatusToColumn(status).Some? then StatusToColumn(status).value
    else if column != "" then column
    else "todo"
  }

  /** For a task with one of the three statuses the recorded column is the one that
      status maps to, whatever card was clicked; otherwise it is the clicked card's
      column, or `todo` when that is empty, so a card on the board always records one of
      the board's columns. */
  lemma EditColumnMeaning(status: string, column: string)
    ensures StatusToColumn(status).Some? ==> ColumnToStatus(EditColumn(status, column)) == Some(status)
    ensures StatusToColumn(status).None? && column != "" ==> EditColumn(status, column) == column
    ensures column in Columns || column == "" ==> EditColumn(status, column) in Columns
  {
  }

  /** The grouping loop of `renderTasks`: every fetched task whose status has a column
      is pushed onto that column, in fetch order. */
  method GroupByColumn(fetched: seq<Task>) returns (byColumn: Board)
    ensures byColumn == Grouped(fetched)
  {
    byColumn := map["todo" := [], "inprocess" := [], "finished" := []];
    var k := 0;
    while k < |fetched|
      invariant 0 <= k <= |fetched|
      invariant byColumn == Grouped(fetched[..k])
    {
      var task := fetched[k];
      var column := StatusToColumn(task.status);
      if column.Some? {
        byColumn := byColumn[column.value := byColumn[column.value] + [task]];
      }
      GroupedSnoc(fetched[..k], task);
      assert fetched[..k + 1] == fetched[..k] + [task];
      k := k + 1;
    }
    assert fetched[..k] == fetched;
  }

  /** Grouping one more fetched task extends the column `statusToColumn` names for it. */
  lemma GroupedSnoc(s: seq<Task>, task: Task)
    ensures Grouped(s + [task]) ==
            if StatusToColumn(task.status).Some?
            then Grouped(s)[StatusToColumn(task.status).value := Grouped(s)[StatusToColumn(task.status).value] + [task]]
            else Grouped(s)
  {
    var u := s + [task];
    assert u[..|u| - 1] == s && u[|u| - 1] == task;
    assert WithStatus(u, ToDo) == WithStatus(s, ToDo) + (if task.status == ToDo then [task] else []);
    assert WithStatus(u, InProcess) == WithStatus(s, InProcess) + (if task.status == InProcess then [task] else []);
    assert WithStatus(u, Finished) == WithStatus(s, Finished) + (if task.status == Finished then [task] else []);
    var g, h := Grouped(s), Grouped(u);
    var e := if StatusToColumn(task.status).Some?
             then g[StatusToColumn(task.status).value := g[StatusToColumn(task.status).value] + [task]]
             else g;
    assert h.Keys == e.Keys;
    forall k | k in h
      ensures h[k] == e[k]
    {
      assert k == "todo" || k == "inprocess" || k == "finished";
    }
  }

  /** The column the grouping puts each recognised status in is the one `statusToColumn` names. */
  lemma GroupedByStatusToColumn(s: seq<Task>, st: string)
    requires StatusToColumn(st).Some?
    ensures StatusToColumn(st).value in Grouped(s)
    ensures Grouped(s)[StatusToColumn(st).value] == WithStatus(s, st)
  {
  }

  /** The call `saveTask` makes, given the task being edited, the stored token and the
      ISO date-time it computes from the current date and the time field. */
  function SaveRequest(form: TaskForm, editing: Option<TaskRef>, token: Option<string>, taskDate: string): (r: SaveCall)
    ensures r == Rejected(EmptyTitle) <==> Trim(form.title) == ""
    ensures r == Rejected(NoToken) <==> Trim(form.title) != "" && !IsTruthy(token)
    ensures r.Update? <==> Trim(form.title) != "" && IsTruthy(token) && editing.Some?
    ensures r.Create? <==> Trim(form.title) != "" && IsTruthy(token) && editing.None?
    ensures r.Update? ==> r.id == editing.value.id && r.body.remember == Some(form.reminder)
    ensures r.Create? ==> r.body.remember == None
    ensures !r.Rejected? ==> r.body.title == Trim(form.title) && r.body.detail == Trim(form.description)
    ensures !r.Rejected? ==> r.body.status == form.checkedStatus.GetOr(ToDo) && r.body.taskDate == taskDate
  {
    var title := Trim(form.title);
    var status := form.checkedStatus.GetOr(ToDo);
    if title == "" then Rejected(EmptyTitle)
    else if !IsTruthy(token) then Rejected(NoToken)
    else if editing.Some? then Update(editing.value.id, TaskBody(title, Trim(form.description), Some(form.reminder), status, taskDate))
    else Create(TaskBody(title, Trim(form.description), None, status, taskDate))
  }

  /** A title of nothing but white space is rejected before the token is looked at; any
      other title is sent without surrounding white space. */
  lemma SaveTitleGate(form: TaskForm, editing: Option<TaskRef>, token: Option<string>, taskDate: string)
    ensures (forall i :: 0 <= i < |form.title| ==> IsSpace(form.title[i])) <==>
            SaveRequest(form, editing, token, taskDate) == Rejected(EmptyTitle)
    ensures var r := SaveRequest(form, editing, token, taskDate);
            !r.Rejected? ==> r.body.title != "" && !IsSpace(r.body.title[0]) && !IsSpace(r.body.title[|r.body.title| - 1])
  {
    var r := SaveRequest(form, editing, token, taskDate);
    var t := Trim(form.title);
    TrimSpec(form.title);
    if !r.Rejected? {
      assert r.body.title == t;
    }
  }

  /** The first tasks of a new board. */
  const SeedTasks: Board := map[
    "todo" := [Task(NoId, NumId(1), "Do math homework", "", "", "", "", "7:30 AM", true)],
    "inprocess" := [Task(NoId, NumId(2), "Do english homework", "", "", "", "", "10:30 AM", false)],
    "finished" := [Task(NoId, NumId(3), "Do biology homework", "", "", "", "", "5:00 AM", false)]]

  class TaskManager {
    /** `tasks`: the columns and their tasks. */
    var tasks: Board
    /** `editingTask`: the task the modal is editing, if any. */
    var editingTask: Option<TaskRef>
    /** `taskToDelete`: the task staged in the delete dialog, if any. */
    var taskToDelete: Option<TaskRef>

    /** The board always has exactly the three DOM columns. */
    predicate Valid()
      reads this
    {
      tasks.Keys == {"todo", "inprocess", "finished"}
    }

    constructor ()
      ensures Valid()
      ensures tasks == SeedTasks && editingTask == None && taskToDelete == None
    {
      tasks := SeedTasks;
      editingTask := None;
      taskToDelete := None;
    }

    /** `renderTasks(date)`: with no token it throws before the service call
        (`called` is false); with a token it asks the service for that date's tasks
        (`fetched` is its answer), and on success `tasks` becomes their grouping by
        status. A missing token or a failed call is caught and `tasks` is left alone. */
    method RenderTasks(token: Option<string>, fetched: Result<seq<Task>, string>) returns (called: bool, loaded: bool)
      requires Valid()
      modifies this
      ensures Valid()
      ensures called <==> IsTruthy(token)
      ensures loaded <==> called && fetched.Success?
      ensures tasks == (if loaded then Grouped(fetched.value) else old(tasks))
      ensures editingTask == old(editingTask) && taskToDelete == old(taskToDelete)
    {
      called, loaded := false, false;
      if !IsTruthy(token) {
        return;
      }
      called := true;
      if fetched.Failure? {
        return;
      }
      var byColumn := GroupByColumn(fetched.value);
      tasks := byColumn;
      loaded := true;
    }

    /** `moveTask(taskId, fromColumn, toColumn)`; `refresh` tells that it goes on to
        call `renderTasks`, and `thrown` that it stopped on a missing column. */
    method MoveTask(taskId: Id, from: string, to: string) returns (refresh: bool, thrown: bool)
      requires Valid()
      modifies this
      ensures Valid()
      ensures Step(tasks, thrown) == Moved(old(tasks), ByKey(taskId), from, to)
      ensures refresh <==> !thrown && tasks != old(tasks)
      ensures editingTask == old(editingTask) && taskToDelete == old(taskToDelete)
    {
      refresh, thrown := false, false;
      if from == to {
        return;
      }
      if from !in tasks {
        thrown := true;
        return;
      }
      var taskIndex := FindIndex(tasks[from], ByKey(taskId));
      if taskIndex == -1 {
        return;
      }
      var task := tasks[from][taskIndex];
      tasks := tasks[from := RemoveAt(tasks[from], taskIndex)];
      if to !in tasks {
        thrown := true;
        return;
      }
      assert |tasks[to] + [task]| != |tasks[to]|;
      tasks := tasks[to := tasks[to] + [task]];
      refresh := true;
    }

    /** `deleteTask(taskId, column)`: the board changes only when a token is stored and
        the DELETE request answers ok; then the first task of `column` whose
        `_id || id` is `taskId` is spliced out, and `refresh` tells that `renderTasks`
        follows. Every failure, a missing column included, is caught. */
    method DeleteTask(taskId: Id, column: string, token: Option<string>, responseOk: bool) returns (refresh: bool)
      requires Valid()
      modifies this
      ensures Valid()
      ensures tasks == (if IsTruthy(token) && responseOk then Removed(old(tasks), ByKey(taskId), column).board else old(tasks))
      ensures refresh <==> IsTruthy(token) && responseOk && column in old(tasks) && FindIndex(old(tasks)[column], ByKey(taskId)) != -1
      ensures editingTask == old(editingTask) && taskToDelete == old(taskToDelete)
    {
      refresh := false;
      if !IsTruthy(token) || !responseOk {
        return;
      }
      if column !in tasks {
        return;
      }
      var taskIndex := FindIndex(tasks[column], ByKey(taskId));
      if taskIndex != -1 {
        tasks := tasks[column := RemoveAt(tasks[column], taskIndex)];
        refresh := true;
      }
    }

    /** `deleteTaskWithConfirmation(taskId, column)`: stages the task for deletion only
        when the column holds it; a missing column throws. */
    method DeleteTaskWithConfirmation(taskId: Id, column: string) returns (thrown: bool)
      requires Valid()
      modifies this
      ensures thrown <==> column !in tasks
      ensures taskToDelete ==
              if !thrown && FindIndex(tasks[column], ByKey(taskId)) != -1 then Some(TaskRef(taskId, column))
              else old(taskToDelete)
      ensures tasks == old(tasks) && editingTask == old(editingTask)
    {
      thrown := false;
      if column !in tasks {
        thrown := true;
        return;
      }
      var taskIndex := FindIndex(tasks[column], ByKey(taskId));
      if taskIndex == -1 {
        return;
      }
      taskToDelete := Some(TaskRef(taskId, column));
    }

    /** `editTask(taskId, column)`: `fetched` is the task `getTaskById` resolves to, or
        `None` when it finds nothing or the call fails (the failure is caught). For a
        fetched task the modal opens in edit mode on the column `EditColumn` picks; the
        form fields it fills are not part of this model. */
    method EditTask(taskId: Id, column: string, fetched: Option<Task>) returns (shown: bool)
      modifies this
      ensures shown <==> fetched.Some?
      ensures editingTask == if shown then Some(TaskRef(taskId, EditColumn(fetched.value.status, column)))
                             else old(editingTask)
      ensures tasks == old(tasks) && taskToDelete == old(taskToDelete)
    {
      shown := false;
      if fetched.None? {
        return;
      }
      editingTask := Some(TaskRef(taskId, EditColumn(fetched.value.status, column)));
      shown := true;
    }

    /** `closeDeleteModal()` always drops the staged task. */
    method CloseDeleteModal()
      modifies this
      ensures taskToDelete == None
      ensures tasks == old(tasks) && editingTask == old(editingTask)
    {
      taskToDelete := None;
    }

    /** `closeModal()` always ends editing. */
    method CloseModal()
      modifies this
      ensures editingTask == None
      ensures tasks == old(tasks) && taskToDelete == old(taskToDelete)
    {
      editingTask := None;
    }

    /** `confirmDeleteTask()`: with nothing staged, nothing happens; otherwise the staged
        task is deleted as `deleteTask` does and the dialog is closed. */
    method ConfirmDeleteTask(token: Option<string>, responseOk: bool) returns (refresh: bool)
      requires Valid()
      modifies this
      ensures Valid()
      ensures taskToDelete == None
      ensures old(taskToDelete).None? ==> tasks == old(tasks) && !refresh
      ensures old(taskToDelete).Some? ==>
              var staged := old(taskToDelete).value;
              tasks == if IsTruthy(token) && responseOk then Removed(old(tasks), ByKey(staged.id), staged.column).board else old(tasks)
      ensures editingTask == old(editingTask)
    {
      refresh := false;
      if taskToDelete.Some? {
        refresh := DeleteTask(taskToDelete.value.id, taskToDelete.value.column, token, responseOk);
        CloseDeleteModal();
      }
    }

    /** `saveTask()`: makes the call `SaveRequest` describes; when that call succeeds
        editing ends and `refresh` tells that `renderTasks` and `closeModal` follow. */
    method SaveTask(form: TaskForm, token: Option<string>, taskDate: string, reply: Result<(), string>)
      returns (call: SaveCall, refresh: bool)
      modifies this
      ensures call == SaveRequest(form, old(editingTask), token, taskDate)
      ensures refresh <==> !call.Rejected? && reply.Success?
      ensures editingTask == if refresh then None else old(editingTask)
      ensures tasks == old(tasks) && taskToDelete == old(taskToDelete)
    {
      call := SaveRequest(form, editingTask, token, taskDate);
      refresh := false;
      if call.Rejected? || reply.Failure? {
        return;
      }
      editingTask := None;
      refresh := true;
    }
  }

  /** A staged deletion needs the task to be in its column: after
      `deleteTaskWithConfirmation` the staged task, if newly staged, can be found. */
  lemma StagedTaskExists(b: Board, taskId: Id, column: string)
    requires column in b && FindIndex(b[column], ByKey(taskId)) != -1
    ensures exists k :: 0 <= k < |b[column]| && Key(b[column][k]) == taskId
  {
    var k := FindIndex(b[column], ByKey(taskId));
    assert Matches(ByKey(taskId), b[column][k]);
  }
}
