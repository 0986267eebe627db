/** The older task board (`TaskManager` of the dashboard page script). Its columns are
    keyed by the statuses themselves ("to do", "in process", "finished"), tasks are
    matched by `id` alone, deletion is local, and saving posts a new task and then
    updates the board locally. */
module LegacyDashboard {
  import opened Wrappers
  import opened JsText
  import opened Tasks
  import opened TimeFormat

  /** The board's columns. */
  const Columns: seq<string> := [ToDo, InProcess, Finished]

  /** The grouping loop of this `renderTasks`: an if-chain on the exact status. */
  method GroupByExactStatus(fetched: seq<Task>) returns (byColumn: Board)
    ensures byColumn == Grouped(fetched)
  {
    var todo, inprocess, finished := [], [], [];
    var k := 0;
    while k < |fetched|
      invariant 0 <= k <= |fetched|
      invariant todo == WithStatus(fetched[..k], ToDo)
      invariant inprocess == WithStatus(fetched[..k], InProcess)
      invariant finished == WithStatus(fetched[..k], Finished)
    {
      var task := fetched[k];
      if task.status == ToDo {
        todo := todo + [task];
      } else if task.status == InProcess {
        inprocess := inprocess + [task];
      } else if task.status == Finished {
        finished := finished + [task];
      }
      assert fetched[..k + 1][..k] == fetched[..k];
      k := k + 1;
    }
    assert fetched[..k] == fetched;
    byColumn := map["todo" := todo, "inprocess" := inprocess, "finished" := finished];
  }

  /** The request this `saveTask` sends: always a create call, even while editing. */
  function PostRequest(form: TaskForm, token: Option<string>, taskDate: string): (r: SaveCall)
    ensures !r.Update?
    ensures r == Rejected(EmptyTitle) <==> Trim(form.title) == ""
    ensures r == Rejected(NoToken) <==> Trim(form.title) != "" && !IsTruthy(token)
    ensures r.Create? ==> r.body == TaskBody(Trim(form.title), Trim(form.description), None, form.checkedStatus.GetOr(ToDo), taskDate)
  {
    var title := Trim(form.title);
    if title == "" then Rejected(EmptyTitle)
    else if !IsTruthy(token) then Rejected(NoToken)
    else Create(TaskBody(title, Trim(form.description), None, form.checkedStatus.GetOr(ToDo), taskDate))
  }

  /** The time a saved task shows: the formatted time field, or "" when it is empty. */
  function ShownTime(time: string): (r: string)
    requires time == "" || IsTimeInput(time)
    ensures r == "" <==> time == ""
  {
    if time != "" then FormatTime(time) else ""
  }

  /** A task after the edit form's fields were written into it. */
  function Edited(t: Task, form: TaskForm): (r: Task)
    requires form.time == "" || IsTimeInput(form.time)
    ensures r.id == t.id && r.oid == t.oid && r.status == t.status && r.taskDate == t.taskDate && r.detail == t.detail
    ensures r.title == Trim(form.title) && r.time == ShownTime(form.time)
    ensures r.description == Trim(form.description) && r.reminder == form.reminder
  {
    t.(title := Trim(form.title), time := ShownTime(form.time), description := Trim(form.description), reminder := form.reminder)
  }

  /** The task a save creates when nothing is being edited; `now` is `Date.now()`. */
  function NewTask(form: TaskForm, now: int): (r: Task)
    requires form.time == "" || IsTimeInput(form.time)
    ensures r.id == NumId(now) && r.title == Trim(form.title) && r.time == ShownTime(form.time)
    ensures r.description == Trim(form.description) && r.reminder == form.reminder
  {
    Task(NoId, NumId(now), Trim(form.title), "", Trim(form.description), "", "", ShownTime(form.time), form.reminder)
  }

  /** The board after a save whose request succeeded: the edited task is overwritten in
      place and moved when the chosen column differs; otherwise a new task is pushed
      onto the chosen column. `thrown` tells that a missing column stopped it. */
  function Saved(b: Board, editing: Option<TaskRef>, form: TaskForm, now: int): Step
    requires form.time == "" || IsTimeInput(form.time)
  {
    var column := form.checkedStatus.GetOr(ToDo);
    match editing
    case Some(ref) =>
      if ref.column !in b then Step(b, true)
      else
        var i := FindIndex(b[ref.column], ById(ref.id));
        if i == -1 then Step(b, false)
        else
          var b1 := b[ref.column := b[ref.column][i := Edited(b[ref.column][i], form)]];
          if ref.column != column then Moved(b1, ById(ref.id), ref.column, column) else Step(b1, false)
    case None =>
      if column !in b then Step(b, true)
      else Step(b[column := b[column] + [NewTask(form, now)]], false)
  }

  /** A create appends exactly one new task to the chosen column and leaves the other
      columns alone. */
  lemma SaveCreateAppends(b: Board, form: TaskForm, now: int, cols: seq<string>)
    requires form.time == "" || IsTimeInput(form.time)
    requires form.checkedStatus.GetOr(ToDo) in b && form.checkedStatus.GetOr(ToDo) in cols && Distinct(cols)
    ensures var column := form.checkedStatus.GetOr(ToDo);
            var r := Saved(b, None, form, now);
            !r.thrown && r.board.Keys == b.Keys &&
            r.board[column] == b[column] + [NewTask(form, now)] &&
            (forall c :: c in b && c != column ==> r.board[c] == b[c]) &&
            multiset(Flatten(r.board, cols)) == multiset(Flatten(b, cols)) + multiset{NewTask(form, now)}
  {
    var column := form.checkedStatus.GetOr(ToDo);
    var v := b[column] + [NewTask(form, now)];
    assert Saved(b, None, form, now) == Step(b[column := v], false);
    AppendKeepsOthers(b, cols, column, NewTask(form, now));
  }

  lemma AppendKeepsOthers(b: Board, cols: seq<string>, column: string, t: Task)
    requires column in b && column in cols && Distinct(cols)
    ensures multiset(Flatten(b[column := b[column] + [t]], cols)) == multiset(Flatten(b, cols)) + multiset{t}
  {
    var v := b[column] + [t];
    FlattenUpdate(b, cols, column, v);
    var f0 := multiset(Flatten(b, cols));
    var f1 := multiset(Flatten(b[column := v], cols));
    assert multiset(v) == multiset(b[column]) + multiset{t};
    forall x
      ensures f1[x] == (f0 + multiset{t})[x]
    {
      assert (f1 + multiset(b[column]))[x] == (f0 + multiset(v))[x];
    }
  }

  /** An edit that keeps the column overwrites the first task with the edited id where
      it stands. */
  lemma SaveEditInPlace(b: Board, ref: TaskRef, form: TaskForm, now: int, i: int)
    requires form.time == "" || IsTimeInput(form.time)
    requires ref.column in b && FirstMatch(b[ref.column], ById(ref.id), i)
    requires form.checkedStatus.GetOr(ToDo) == ref.column
    ensures var r := Saved(b, Some(ref), form, now);
            !r.thrown && r.board == b[ref.column := b[ref.column][i := Edited(b[ref.column][i], form)]]
  {
    FirstMatchUnique(b[ref.column], ById(ref.id), i, FindIndex(b[ref.column], ById(ref.id)));
  }

  /** An edit that picks another column takes the edited task out of its column and
      puts it, overwritten, last in the chosen column; other columns stay as they were
      and the board keeps its number of tasks. */
  lemma SaveEditMoves(b: Board, ref: TaskRef, form: TaskForm, now: int, i: int, cols: seq<string>)
    requires form.time == "" || IsTimeInput(form.time)
    requires ref.column in b && FirstMatch(b[ref.column], ById(ref.id), i)
    requires form.checkedStatus.GetOr(ToDo) != ref.column && form.checkedStatus.GetOr(ToDo) in b
    requires ref.column in cols && form.checkedStatus.GetOr(ToDo) in cols && Distinct(cols)
    ensures var column := form.checkedStatus.GetOr(ToDo);
            var r := Saved(b, Some(ref), form, now);
            !r.thrown && r.board.Keys == b.Keys &&
            r.board[ref.column] == b[ref.column][..i] + b[ref.column][i + 1..] &&
            r.board[column] == b[column] + [Edited(b[ref.column][i], form)] &&
            (forall c :: c in b && c != column && c != ref.column ==> r.board[c] == b[c]) &&
            |Flatten(r.board, cols)| == |Flatten(b, cols)|
  {
    SavedEdit(b, ref, form, now, i);
    MovedEditShape(b, ref, form.checkedStatus.GetOr(ToDo), i, Edited(b[ref.column][i], form), cols);
  }

  lemma MovedEditShape(b: Board, ref: TaskRef, column: string, i: int, e: Task, cols: seq<string>)
    requires ref.column in b && FirstMatch(b[ref.column], ById(ref.id), i) && e.id == b[ref.column][i].id
    requires column != ref.column && column in b
    requires ref.column in cols && column in cols && Distinct(cols)
    ensures var r := Moved(b[ref.column := b[ref.column][i := e]], ById(ref.id), ref.column, column);
            !r.thrown && r.board.Keys == b.Keys &&
            r.board[ref.column] == b[ref.column][..i] + b[ref.column][i + 1..] &&
            r.board[column] == b[column] + [e] &&
            (forall c :: c in b && c != column && c != ref.column ==> r.board[c] == b[c]) &&
            |Flatten(r.board, cols)| == |Flatten(b, cols)|
  {
    var s := b[ref.column];
    var b1 := b[ref.column := s[i := e]];
    assert FirstMatch(b1[ref.column], ById(ref.id), i);
    MoveShape(b1, ById(ref.id), ref.column, column, i);
    MovePreservesTasks(b1, ById(ref.id), ref.column, column, cols);
    assert b1[ref.column][..i] == s[..i] && b1[ref.column][i + 1..] == s[i + 1..];
    ReplaceKeepsCount(b, cols, ref.column, i, e);
  }

  /** A save while editing the task at `i` writes the edited task there and then moves it
      when the chosen column differs. */
  lemma SavedEdit(b: Board, ref: TaskRef, form: TaskForm, now: int, i: int)
    requires form.time == "" || IsTimeInput(form.time)
    requires ref.column in b && FirstMatch(b[ref.column], ById(ref.id), i)
    ensures var b1 := b[ref.column := b[ref.column][i := Edited(b[ref.column][i], form)]];
            var column := form.checkedStatus.GetOr(ToDo);
            Saved(b, Some(ref), form, now) ==
              if ref.column != column then Moved(b1, ById(ref.id), ref.column, column) else Step(b1, false)
  {
    FirstMatchUnique(b[ref.column], ById(ref.id), i, FindIndex(b[ref.column], ById(ref.id)));
  }

  lemma ReplaceKeepsCount(b: Board, cols: seq<string>, column: string, i: nat, e: Task)
    requires column in b && i < |b[column]| && column in cols && Distinct(cols)
    ensures |Flatten(b[column := b[column][i := e]], cols)| == |Flatten(b, cols)|
  {
    var s := b[column];
    FlattenUpdate(b, cols, column, s[i := e]);
    var b1 := b[column := s[i := e]];
    assert |multiset(Flatten(b1, cols)) + multiset(s)| == |multiset(Flatten(b, cols)) + multiset(s[i := e])|;
    assert |multiset(Flatten(b1, cols))| == |Flatten(b1, cols)|;
    assert |multiset(Flatten(b, cols))| == |Flatten(b, cols)|;
    assert |multiset(s[i := e])| == |s[i := e]| == |s| == |multiset(s)|;
  }

  /** The first tasks of a new board. */
  const SeedTasks: Board := map[
    ToDo := [Task(NoId, NumId(1), "Do math homework", "", "", "", "", "7:30 AM", true)],
    InProcess := [Task(NoId, NumId(2), "Do english homework", "", "", "", "", "10:30 AM", false)],
    Finished := [Task(NoId, NumId(3), "Do biology homework", "", "", "", "", "5:00 AM", false)]]

  class TaskManager {
    var tasks: Board
    var editingTask: Option<TaskRef>
    var taskToDelete: Option<TaskRef>

    /** The board always has exactly the three status columns. */
    predicate Valid()
      reads this
    {
      tasks.Keys == {ToDo, InProcess, Finished}
    }

    constructor ()
      ensures Valid()
      ensures tasks == SeedTasks && editingTask == None && taskToDelete == None
    {
      tasks := SeedTasks;
      editingTask := None;
      taskToDelete := None;
    }

    /** `renderTasks(date)`: with no token it throws before the `fetch` (`called` is
        false); otherwise it groups the fetched tasks for display and never writes
        `tasks`; with a failed fetch nothing is shown. */
    method RenderTasks(token: Option<string>, fetched: Result<seq<Task>, string>) returns (called: bool, shown: Option<Board>)
      ensures called <==> IsTruthy(token)
      ensures shown == if called && fetched.Success? then Some(Grouped(fetched.value)) else None
    {
      called := IsTruthy(token);
      if !called || fetched.Failure? {
        return called, None;
      }
      var byColumn := GroupByExactStatus(fetched.value);
      shown := Some(byColumn);
    }

    /** `moveTask(taskId, fromColumn, toColumn)`, matching on `id` only. */
    method MoveTask(taskId: Id, from: string, to: string) returns (thrown: bool)
      requires Valid()
      modifies this
      ensures Valid()
      ensures Step(tasks, thrown) == Moved(old(tasks), ById(taskId), from, to)
      ensures editingTask == old(editingTask) && taskToDelete == old(taskToDelete)
    {
      thrown := false;
      if from == to {
        return;
      }
      if from !in tasks {
        thrown := true;
        return;
      }
      var taskIndex := FindIndex(tasks[from], ById(taskId));
      if taskIndex == -1 {
        return;
      }
      var task := tasks[from][taskIndex];
      tasks := tasks[from := RemoveAt(tasks[from], taskIndex)];
      if to !in tasks {
        thrown := true;
        return;
      }
      tasks := tasks[to := tasks[to] + [task]];
    }

    /** `deleteTask(taskId, column)`: local only; a missing column throws. */
    method DeleteTask(taskId: Id, column: string) returns (thrown: bool)
      requires Valid()
      modifies this
      ensures Valid()
      ensures Step(tasks, thrown) == Removed(old(tasks), ById(taskId), column)
      ensures editingTask == old(editingTask) && taskToDelete == old(taskToDelete)
    {
      thrown := false;
      if column !in tasks {
        thrown := true;
        return;
      }
      var taskIndex := FindIndex(tasks[column], ById(taskId));
      if taskIndex != -1 {
        tasks := tasks[column := RemoveAt(tasks[column], taskIndex)];
      }
    }

    /** `editTask(taskId, column)`: starts editing a task the column holds. */
    method EditTask(taskId: Id, column: string) returns (thrown: bool)
      modifies this
      ensures thrown <==> column !in tasks
      ensures editingTask ==
              if !thrown && FindIndex(tasks[column], ById(taskId)) != -1 then Some(TaskRef(taskId, column))
              else old(editingTask)
      ensures tasks == old(tasks) && taskToDelete == old(taskToDelete)
    {
      thrown := column !in tasks;
      if !thrown && FindIndex(tasks[column], ById(taskId)) != -1 {
        editingTask := Some(TaskRef(taskId, column));
      }
    }

    /** `deleteTaskWithConfirmation(taskId, column)`: stages a task the column holds. */
    method DeleteTaskWithConfirmation(taskId: Id, column: string) returns (thrown: bool)
      modifies this
      ensures thrown <==> column !in tasks
      ensures taskToDelete ==
              if !thrown && FindIndex(tasks[column], ById(taskId)) != -1 then Some(TaskRef(taskId, column))
              else old(taskToDelete)
      ensures tasks == old(tasks) && editingTask == old(editingTask)
    {
      thrown := column !in tasks;
      if !thrown && FindIndex(tasks[column], ById(taskId)) != -1 {
        taskToDelete := Some(TaskRef(taskId, column));
      }
    }

    method CloseDeleteModal()
      modifies this
      ensures taskToDelete == None
      ensures tasks == old(tasks) && editingTask == old(editingTask)
    {
      taskToDelete := None;
    }

    method CloseModal()
      modifies this
      ensures editingTask == None
      ensures tasks == old(tasks) && taskToDelete == old(taskToDelete)
    {
      editingTask := None;
    }

    /** `confirmDeleteTask()`: with nothing staged nothing happens; otherwise the staged
        task is deleted locally and the dialog closes, unless the deletion threw. */
    method ConfirmDeleteTask() returns (thrown: bool)
      requires Valid()
      modifies this
      ensures Valid()
      ensures old(taskToDelete).None? ==> tasks == old(tasks) && taskToDelete == None && !thrown
      ensures old(taskToDelete).Some? ==>
              var staged := old(taskToDelete).value;
              Step(tasks, thrown) == Removed(old(tasks), ById(staged.id), staged.column) &&
              taskToDelete == if thrown then old(taskToDelete) else None
      ensures editingTask == old(editingTask)
    {
      thrown := false;
      if taskToDelete.Some? {
        thrown := DeleteTask(taskToDelete.value.id, taskToDelete.value.column);
        if thrown {
          return;
        }
        CloseDeleteModal();
      }
    }

    /** `saveTask()`: sends `PostRequest`; when it succeeds (an ok response whose body is
        JSON) the board is updated as `ApplySave` says. `now` is `Date.now()`. */
    method SaveTask(form: TaskForm, token: Option<string>, taskDate: string, reply: Result<(), string>, now: int)
      returns (call: SaveCall, thrown: bool)
      requires Valid()
      requires form.time == "" || IsTimeInput(form.time)
      modifies this
      ensures Valid()
      ensures call == PostRequest(form, token, taskDate)
      ensures call.Rejected? || reply.Failure? ==>
              tasks == old(tasks) && editingTask == old(editingTask) && !thrown
      ensures call.Create? && reply.Success? ==>
              var r := Saved(old(tasks), old(editingTask), form, now);
              tasks == r.board && thrown == r.thrown && editingTask == if thrown then old(editingTask) else None
      ensures taskToDelete == old(taskToDelete)
    {
      call := PostRequest(form, token, taskDate);
      thrown := false;
      if call.Rejected? || reply.Failure? {
        return;
      }
      thrown := ApplySave(form, now);
    }

    /** The local part of a successful `saveTask()`: the edited task is overwritten and
        moved, or a new task is pushed; unless a missing column threw, `closeModal()`
        then ends editing. */
    method ApplySave(form: TaskForm, now: int) returns (thrown: bool)
      requires Valid()
      requires form.time == "" || IsTimeInput(form.time)
      modifies this
      ensures Valid()
      ensures Step(tasks, thrown) == Saved(old(tasks), old(editingTask), form, now)
      ensures editingTask == if thrown then old(editingTask) else None
      ensures taskToDelete == old(taskToDelete)
    {
      if editingTask.Some? {
        thrown := ApplyEdit(editingTask.value, form, now);
      } else {
        thrown := ApplyCreate(form, now);
      }
      if !thrown {
        CloseModal();
      }
    }

    /** The edit branch of `saveTask()`: overwrite the task in place, then move it
        when the chosen column differs. */
    method ApplyEdit(ref: TaskRef, form: TaskForm, now: int) returns (thrown: bool)
      requires Valid()
      requires form.time == "" || IsTimeInput(form.time)
      modifies this
      ensures Valid()
      ensures Step(tasks, thrown) == Saved(old(tasks), Some(ref), form, now)
      ensures editingTask == old(editingTask) && taskToDelete == old(taskToDelete)
    {
      thrown := false;
      var column := form.checkedStatus.GetOr(ToDo);
      if ref.column !in tasks {
        thrown := true;
        return;
      }
      var i := FindIndex(tasks[ref.column], ById(ref.id));
      if i != -1 {
        SavedEdit(tasks, ref, form, now, i);
        var edited := Edited(tasks[ref.column][i], form);
        tasks := tasks[ref.column := tasks[ref.column][i := edited]];
        if ref.column != column {
          thrown := MoveTask(ref.id, ref.column, column);
        }
      }
    }

    /** The create branch of `saveTask()`: push a new task onto the chosen column. */
    method ApplyCreate(form: TaskForm, now: int) returns (thrown: bool)
      requires Valid()
      requires form.time == "" || IsTimeInput(form.time)
      modifies this
      ensures Valid()
      ensures Step(tasks, thrown) == Saved(old(tasks), None, form, now)
      ensures editingTask == old(editingTask) && taskToDelete == old(taskToDelete)
    {
      thrown := false;
      var column := form.checkedStatus.GetOr(ToDo);
      if column !in tasks {
        thrown := true;
        return;
      }
      tasks := tasks[column := tasks[column] + [NewTask(form, now)]];
    }
  }
}
