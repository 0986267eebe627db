/** Tasks as both task boards hold them, and the operations on a board of columns
    that the two `TaskManager` classes share: first-match search, removal of the
    first match, remove-then-append moves and grouping of a fetched list by status. */
module Tasks {
  import opened Wrappers

  /** A task identifier as a JavaScript value: absent (`undefined`), a string (a
      database `_id`) or a number (a local `id` such as `Date.now()`). */
  datatype Id = NoId | StrId(s: string) | NumId(n: int)

  /** JavaScript truthiness of an identifier. */
  predicate Truthy(i: Id) {
    match i
    case NoId => false
    case StrId(s) => s != ""
    case NumId(n) => n != 0
  }

  /** A task object. Fields that a task object lacks are `NoId`, `""` or `false`. */
  datatype Task = Task(
    oid: Id,             // `_id`, set by the server
    id: Id,              // `id`, set locally
    title: string,
    detail: string,      // the server's description field
    description: string, // the older local description field
    status: string,      // "to do", "in process" or "finished" when the server sent it
    taskDate: string,    // `task_date`
    time: string,        // a 12-hour clock string on local tasks
    reminder: bool)

  /** The identifier the live board matches on: `task._id || task.id`. */
  function Key(t: Task): Id {
    if Truthy(t.oid) then t.oid else t.id
  }

  /** How a board looks a task up: the live board by `_id || id`, the older board by `id`. */
  datatype Match = ByKey(key: Id) | ById(id: Id)

  predicate Matches(m: Match, t: Task) {
    match m
    case ByKey(k) => Key(t) == k
    case ById(i) => t.id == i
  }

  /** `i` is the position of the first task in `s` that `m` matches. */
  predicate FirstMatch(s: seq<Task>, m: Match, i: int) {
    0 <= i < |s| && Matches(m, s[i]) && forall k :: 0 <= k < i ==> !Matches(m, s[k])
  }

  /** `s.findIndex(...)`: the first matching position, or -1 when nothing matches. */
  function FindIndex(s: seq<Task>, m: Match): (i: int)
    ensures -1 <= i < |s|
    ensures i != -1 ==> FirstMatch(s, m, i)
    ensures i == -1 <==> forall k :: 0 <= k < |s| ==> !Matches(m, s[k])
  {
    if s == [] then -1
    else if Matches(m, s[0]) then 0
    else
      var j := FindIndex(s[1..], m);
      if j == -1 then -1 else j + 1
  }

  /** There is exactly one first match. */
  lemma FirstMatchUnique(s: seq<Task>, m: Match, i: int, j: int)
    requires FirstMatch(s, m, i) && FirstMatch(s, m, j)
    ensures i == j
  {
  }

  /** `s.splice(i, 1)` on a copy. */
  function RemoveAt(s: seq<Task>, i: nat): (r: seq<Task>)
    requires i < |s|
    ensures |r| == |s| - 1
    ensures multiset(r) + multiset{s[i]} == multiset(s)
  {
    assert s == s[..i] + [s[i]] + s[i + 1..];
    s[..i] + s[i + 1..]
  }

  /** A board: the `tasks` object, from column name to the ordered tasks in it. */
  type Board = map<string, seq<Task>>

  /** A reference to a task on the board, as `editingTask` and `taskToDelete` hold it. */
  datatype TaskRef = TaskRef(id: Id, column: string)

  /** The board after an operation, and whether the operation threw a `TypeError`
      (indexing a column that the board does not have) before it finished. */
  datatype Step = Step(board: Board, thrown: bool)

  /** `moveTask(taskId, fromColumn, toColumn)` on the board: nothing happens when the
      columns are equal or nothing in `from` matches; otherwise the first match is
      spliced out of `from` and pushed onto `to`. A missing `from` throws at once; a
      missing `to` throws after the splice. */
  function Moved(b: Board, m: Match, from: string, to: string): Step {
    if from == to then Step(b, false)
    else if from !in b then Step(b, true)
    else
      var i := FindIndex(b[from], m);
      if i == -1 then Step(b, false)
      else
        var b1 := b[from := RemoveAt(b[from], i)];
        if to !in b then Step(b1, true)
        else Step(b1[to := b1[to] + [b[from][i]]], false)
  }

  /** `deleteTask`'s local part: the first match is spliced out of `column`; nothing
      happens when nothing matches; a missing column throws. */
  function Removed(b: Board, m: Match, column: string): Step {
    if column !in b then Step(b, true)
    else
      var i := FindIndex(b[column], m);
      if i == -1 then Step(b, false) else Step(b[column := RemoveAt(b[column], i)], false)
  }

  /** All tasks on the board, column after column in the order of `cols`. */
  function Flatten(b: Board, cols: seq<string>): seq<Task> {
    if cols == [] then [] else (if cols[0] in b then b[cols[0]] else []) + Flatten(b, cols[1..])
  }

  predicate Distinct(cols: seq<string>) {
    forall i, j :: 0 <= i < j < |cols| ==> cols[i] != cols[j]
  }

  /** Replacing a column that `cols` does not list leaves the flattened board alone. */
  lemma {:induction false} FlattenOther(b: Board, cols: seq<string>, c: string, v: seq<Task>)
    requires c !in cols
    ensures Flatten(b[c := v], cols) == Flatten(b, cols)
  {
    if cols != [] {
      FlattenOther(b, cols[1..], c, v);
    }
  }

  /** Replacing one listed column swaps its tasks in the flattened board. */
  lemma {:induction false} FlattenUpdate(b: Board, cols: seq<string>, c: string, v: seq<Task>)
    requires c in b && c in cols && Distinct(cols)
    ensures multiset(Flatten(b[c := v], cols)) + multiset(b[c]) == multiset(Flatten(b, cols)) + multiset(v)
  {
    if cols[0] == c {
      assert c !in cols[1..];
      FlattenOther(b, cols[1..], c, v);
    } else {
      assert c in cols[1..];
      assert Distinct(cols[1..]) by {
        forall i, j | 0 <= i < j < |cols[1..]| ensures cols[1..][i] != cols[1..][j] {
          assert cols[1..][i] == cols[i + 1] && cols[1..][j] == cols[j + 1];
        }
      }
      FlattenUpdate(b, cols[1..], c, v);
      var head := if cols[0] in b then b[cols[0]] else [];
      assert Flatten(b, cols) == head + Flatten(b, cols[1..]);
      assert Flatten(b[c := v], cols) == head + Flatten(b[c := v], cols[1..]);
      MultisetShift(multiset(Flatten(b[c := v], cols[1..])), multiset(Flatten(b, cols[1..])),
                    multiset(b[c]), multiset(v), multiset(head));
    }
  }

  /** Adding the same tasks to both sides of a balance keeps it. */
  lemma MultisetShift<T>(a: multiset<T>, b: multiset<T>, c: multiset<T>, d: multiset<T>, h: multiset<T>)
    requires a + c == b + d
    ensures (h + a) + c == (h + b) + d
  {
    forall x
      ensures ((h + a) + c)[x] == ((h + b) + d)[x]
    {
      assert (a + c)[x] == (b + d)[x];
    }
  }

  /** Taking `t` out of a column balanced against the rest of the board. */
  lemma MultisetCancel<T>(a: multiset<T>, b: multiset<T>, c: multiset<T>, t: multiset<T>)
    requires a + (c + t) == b + c
    ensures a + t == b
  {
    forall x
      ensures (a + t)[x] == b[x]
    {
      assert (a + (c + t))[x] == (b + c)[x];
    }
  }

  /** Putting `t` into a column balanced against the rest of the board. */
  lemma MultisetAbsorb<T>(a: multiset<T>, b: multiset<T>, c: multiset<T>, t: multiset<T>)
    requires a + c == b + (c + t)
    ensures a == b + t
  {
    forall x
      ensures a[x] == (b + t)[x]
    {
      assert (a + c)[x] == (b + (c + t))[x];
    }
  }

  /** A move that happens keeps every task on the board: the same tasks, as many times
      each, so also the same total count. */
  lemma MovePreservesTasks(b: Board, m: Match, from: string, to: string, cols: seq<string>)
    requires from in b && to in b && from in cols && to in cols && Distinct(cols)
    ensures var r := Moved(b, m, from, to);
            !r.thrown &&
            multiset(Flatten(r.board, cols)) == multiset(Flatten(b, cols)) &&
            |Flatten(r.board, cols)| == |Flatten(b, cols)|
  {
    var r := Moved(b, m, from, to);
    if from != to {
      var i := FindIndex(b[from], m);
      if i != -1 {
        MoveKeepsTasks(b, from, to, i, cols);
      }
    }
    assert |multiset(Flatten(r.board, cols))| == |Flatten(r.board, cols)|;
    assert |multiset(Flatten(b, cols))| == |Flatten(b, cols)|;
  }

  lemma MoveKeepsTasks(b: Board, from: string, to: string, i: nat, cols: seq<string>)
    requires from in b && to in b && from != to && i < |b[from]| && from in cols && to in cols && Distinct(cols)
    ensures var b1 := b[from := RemoveAt(b[from], i)];
            multiset(Flatten(b1[to := b1[to] + [b[from][i]]], cols)) == multiset(Flatten(b, cols))
  {
    var t := b[from][i];
    var rest := RemoveAt(b[from], i);
    var b1 := b[from := rest];
    FlattenUpdate(b, cols, from, rest);
    var f0 := multiset(Flatten(b, cols));
    var f1 := multiset(Flatten(b1, cols));
    MultisetCancel(f1, f0, multiset(rest), multiset{t});
    var moved := b1[to] + [t];
    FlattenUpdate(b1, cols, to, moved);
    var f2 := multiset(Flatten(b1[to := moved], cols));
    assert multiset(moved) == multiset(b1[to]) + multiset{t};
    MultisetAbsorb(f2, f1, multiset(b1[to]), multiset{t});
  }

  /** A move between equal columns, or of a task that is not in `from`, changes nothing. */
  lemma MoveNoOp(b: Board, m: Match, from: string, to: string)
    requires from in b
    requires from == to || forall k :: 0 <= k < |b[from]| ==> !Matches(m, b[from][k])
    ensures Moved(b, m, from, to) == Step(b, false)
  {
  }

  /** A move that happens takes the first match out of `from`, puts it last in `to`
      and leaves every other column as it was. */
  lemma MoveShape(b: Board, m: Match, from: string, to: string, i: int)
    requires from in b && to in b && from != to && FirstMatch(b[from], m, i)
    ensures var r := Moved(b, m, from, to).board;
            r.Keys == b.Keys &&
            r[from] == b[from][..i] + b[from][i + 1..] &&
            r[to] == b[to] + [b[from][i]] &&
            forall c :: c in b && c != from && c != to ==> r[c] == b[c]
  {
    FirstMatchUnique(b[from], m, i, FindIndex(b[from], m));
  }

  /** A removal that happens takes out exactly the first match of its column, keeps
      every other task on the board and leaves every other column as it was. */
  lemma RemoveShape(b: Board, m: Match, column: string, i: int, cols: seq<string>)
    requires column in b && FirstMatch(b[column], m, i) && column in cols && Distinct(cols)
    ensures var r := Removed(b, m, column);
            !r.thrown && r.board.Keys == b.Keys &&
            r.board[column] == b[column][..i] + b[column][i + 1..] &&
            (forall c :: c in b && c != column ==> r.board[c] == b[c]) &&
            multiset(Flatten(r.board, cols)) + multiset{b[column][i]} == multiset(Flatten(b, cols))
  {
    FirstMatchUnique(b[column], m, i, FindIndex(b[column], m));
    var rest := RemoveAt(b[column], i);
    FlattenUpdate(b, cols, column, rest);
    var f0 := multiset(Flatten(b, cols));
    var f1 := multiset(Flatten(b[column := rest], cols));
    MultisetCancel(f1, f0, multiset(rest), multiset{b[column][i]});
  }

  /** A removal of a task that is not in the column changes nothing. */
  lemma RemoveNoOp(b: Board, m: Match, column: string)
    requires column in b && forall k :: 0 <= k < |b[column]| ==> !Matches(m, b[column][k])
    ensures Removed(b, m, column) == Step(b, false)
  {
  }

  /** The tasks of `s` whose status is exactly `st`, in the order of `s`. */
  function WithStatus(s: seq<Task>, st: string): seq<Task> {
    if s == [] then []
    else WithStatus(s[..|s| - 1], st) + (if s[|s| - 1].status == st then [s[|s| - 1]] else [])
  }

  /** Filtering distributes over concatenation, so it keeps the fetch order. */
  lemma {:induction false} WithStatusAppend(s: seq<Task>, u: seq<Task>, st: string)
    ensures WithStatus(s + u, st) == WithStatus(s, st) + WithStatus(u, st)
    decreases |u|
  {
    if u == [] {
      assert s + u == s;
    } else {
      assert (s + u)[..|s + u| - 1] == s + u[..|u| - 1];
      WithStatusAppend(s, u[..|u| - 1], st);
    }
  }

  /** A task occurs in the filtered list as often as in the list when its status is
      `st`, and not at all otherwise. */
  lemma {:induction false} WithStatusCount(s: seq<Task>, st: string, x: Task)
    ensures multiset(WithStatus(s, st))[x] == if x.status == st then multiset(s)[x] else 0
  {
    if s != [] {
      WithStatusCount(s[..|s| - 1], st, x);
      assert s == s[..|s| - 1] + [s[|s| - 1]];
    }
  }

  /** The statuses the server uses, and the three columns the fetched tasks are grouped
      into (the keys of `tasksByColumn` in both task boards). */
  const ToDo := "to do"
  const InProcess := "in process"
  const Finished := "finished"
  const GroupColumns: seq<string> := ["todo", "inprocess", "finished"]

  /** The grouping both `renderTasks` build: one column per known status. */
  function Grouped(s: seq<Task>): Board {
    map["todo" := WithStatus(s, ToDo), "inprocess" := WithStatus(s, InProcess), "finished" := WithStatus(s, Finished)]
  }

  /** One of the three statuses the server uses. */
  predicate KnownStatus(st: string) {
    st == ToDo || st == InProcess || st == Finished
  }

  /** The three statuses differ (they differ in length). */
  lemma StatusesDistinct()
    ensures ToDo != InProcess && ToDo != Finished && InProcess != Finished
  {
    assert |ToDo| == 5 && |InProcess| == 10 && |Finished| == 8;
  }

  /** The tasks of `s` with one of the three known statuses, in order. */
  function Recognised(s: seq<Task>): seq<Task> {
    if s == [] then []
    else
      var t := s[|s| - 1];
      Recognised(s[..|s| - 1]) + (if KnownStatus(t.status) then [t] else [])
  }

  lemma {:induction false} RecognisedCount(s: seq<Task>, x: Task)
    ensures multiset(Recognised(s))[x] == if KnownStatus(x.status) then multiset(s)[x] else 0
  {
    if s != [] {
      var p, t := s[..|s| - 1], s[|s| - 1];
      RecognisedCount(p, x);
      var tail := if KnownStatus(t.status) then [t] else [];
      assert Recognised(s) == Recognised(p) + tail;
      assert multiset(Recognised(s))[x] == multiset(Recognised(p))[x] + multiset(tail)[x];
      assert s == p + [t];
      assert multiset(s)[x] == multiset(p)[x] + multiset([t])[x];
    }
  }

  lemma FlattenThree(b: Board, c0: string, c1: string, c2: string)
    requires c0 in b && c1 in b && c2 in b
    ensures Flatten(b, [c0, c1, c2]) == b[c0] + b[c1] + b[c2]
  {
    var cols := [c0, c1, c2];
    assert cols[1..] == [c1, c2];
    assert cols[1..][1..] == [c2];
    assert cols[1..][1..][1..] == [];
    assert Flatten(b, [c2]) == b[c2];
  }

  /** Every fetched task with a known status lands in exactly one column, once for each
      time it was fetched; every other task is dropped. */
  lemma GroupedKeepsRecognised(s: seq<Task>)
    ensures multiset(Flatten(Grouped(s), GroupColumns)) == multiset(Recognised(s))
  {
    var g := Grouped(s);
    GroupedFlat(s);
    forall x
      ensures multiset(Flatten(g, GroupColumns))[x] == multiset(Recognised(s))[x]
    {
      GroupedCount(s, x);
    }
  }

  /** The flattened grouping is the three filtered lists one after another. */
  lemma GroupedFlat(s: seq<Task>)
    ensures Flatten(Grouped(s), GroupColumns) == WithStatus(s, ToDo) + WithStatus(s, InProcess) + WithStatus(s, Finished)
  {
    var g := Grouped(s);
    assert g["todo"] == WithStatus(s, ToDo) && g["inprocess"] == WithStatus(s, InProcess) &&
           g["finished"] == WithStatus(s, Finished);
    FlattenThree(g, "todo", "inprocess", "finished");
  }

  /** A task occurs in the three filtered lists together as often as among the
      recognised tasks. */
  lemma GroupedCount(s: seq<Task>, x: Task)
    ensures multiset(WithStatus(s, ToDo) + WithStatus(s, InProcess) + WithStatus(s, Finished))[x] ==
            multiset(Recognised(s))[x]
  {
    StatusesDistinct();
    WithStatusCount(s, ToDo, x);
    WithStatusCount(s, InProcess, x);
    WithStatusCount(s, Finished, x);
    RecognisedCount(s, x);
  }

  /** Each column of the grouping holds only tasks of its status. */
  lemma GroupedColumnsHoldTheirStatus(s: seq<Task>)
    ensures forall t :: t in Grouped(s)["todo"] ==> t.status == ToDo
    ensures forall t :: t in Grouped(s)["inprocess"] ==> t.status == InProcess
    ensures forall t :: t in Grouped(s)["finished"] ==> t.status == Finished
  {
    forall t | t in Grouped(s)["todo"] ensures t.status == ToDo {
      WithStatusCount(s, ToDo, t);
    }
    forall t | t in Grouped(s)["inprocess"] ensures t.status == InProcess {
      WithStatusCount(s, InProcess, t);
    }
    forall t | t in Grouped(s)["finished"] ensures t.status == Finished {
      WithStatusCount(s, Finished, t);
    }
  }

  /** The fields of the task modal as `saveTask` reads them. */
  datatype TaskForm = TaskForm(
    title: string,
    time: string,
    description: string,
    reminder: bool,
    checkedStatus: Option<string>) // the value of the first checked status radio, if any

  /** The body `saveTask` sends; an update also carries `remember`. */
  datatype TaskBody = TaskBody(title: string, detail: string, remember: Option<bool>, status: string, taskDate: string)

  datatype Rejection = EmptyTitle | NoToken

  /** What `saveTask` does with the form: nothing (with an alert), a create call or an
      update call for the task being edited. */
  datatype SaveCall = Rejected(reason: Rejection) | Create(body: TaskBody) | Update(id: Id, body: TaskBody)
}
