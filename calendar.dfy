/** The calendar page: the month grid of blank and day cells with their
    `YYYY-MM-DD` keys (the `full-date` form of section 5.6 of RFC 3339), the
    date-keyed task lookup, single-cell selection and month navigation. */
module Calendar {
  import opened Wrappers
  import opened JsText
  import opened JsDate
  import opened Tasks
  import opened CalendarShared

  /** The key of a day cell: the year as `String(year)`, then the one-based
      month and the day, each padded to two digits. */
  function DateKey(y: int, m: int, d: nat): string
    requires 0 <= m < 12
  {
    IntToString(y) + "-" + PadStart2(Decimal(m + 1)) + "-" + PadStart2(Decimal(d))
  }

  /** Reading a cell key back with `createLocalDate` gives the date it was
      made from, for years the `Date` constructor does not remap (100 on). */
  lemma KeyRoundTrip(y: int, m: int, d: nat)
    requires y >= 100 && ValidDate(y, m, d)
    ensures CreateLocalDate(DateKey(y, m, d)) == Some(LocalDate(y, m, d))
  {
    KeyFields(y, m, d);
    var r := CreateLocalDate(DateKey(y, m, d));
    assert r.value == LocalDate(r.value.year, r.value.monthIndex, r.value.day);
  }

  lemma KeyFields(y: int, m: int, d: nat)
    requires y >= 100 && ValidDate(y, m, d)
    ensures var r := CreateLocalDate(DateKey(y, m, d));
      r.Some? && r.value.year == y && r.value.monthIndex == m && r.value.day == d
  {
    var ys, ms, ds := Decimal(y), PadStart2(Decimal(m + 1)), PadStart2(Decimal(d));
    DecimalValue(y);
    TwoDigitValue(m + 1);
    TwoDigitValue(d);
    assert DateKey(y, m, d) == ys + "-" + ms + "-" + ds;
    CreateLocalDateOfDigits(ys, ms, ds);
  }

  /** Distinct dates have distinct keys. */
  lemma KeysDistinct(y: int, m: int, d: nat, y2: int, m2: int, d2: nat)
    requires y >= 100 && ValidDate(y, m, d)
    requires y2 >= 100 && ValidDate(y2, m2, d2)
    requires DateKey(y, m, d) == DateKey(y2, m2, d2)
    ensures y == y2 && m == m2 && d == d2
  {
    KeyRoundTrip(y, m, d);
    KeyRoundTrip(y2, m2, d2);
  }

  /** `tasks.filter(task => task.task_date === dateStr)` */
  function OnDate(s: seq<Task>, key: string): (r: seq<Task>)
    ensures forall t :: t in r <==> t in s && t.taskDate == key
  {
    if s == [] then []
    else
      assert s == [s[0]] + s[1..];
      (if s[0].taskDate == key then [s[0]] else []) + OnDate(s[1..], key)
  }

  /** The filter keeps every dated task as often as it occurs and drops the rest. */
  lemma {:induction false} OnDateCount(s: seq<Task>, key: string)
    ensures forall t :: multiset(OnDate(s, key))[t] == if t.taskDate == key then multiset(s)[t] else 0
  {
    if s != [] {
      OnDateCount(s[1..], key);
      assert s == [s[0]] + s[1..];
    }
  }

  /** Filtering a concatenation filters each part, keeping their order. */
  lemma {:induction false} OnDateConcat(a: seq<Task>, b: seq<Task>, key: string)
    ensures OnDate(a + b, key) == OnDate(a, key) + OnDate(b, key)
  {
    if a != [] {
      var head := if a[0].taskDate == key then [a[0]] else [];
      assert (a + b)[0] == a[0];
      assert (a + b)[1..] == a[1..] + b;
      assert OnDate(a + b, key) == head + OnDate(a[1..] + b, key);
      assert OnDate(a, key) == head + OnDate(a[1..], key);
      OnDateConcat(a[1..], b, key);
    } else {
      assert a + b == b;
    }
  }

  /** Where the calendar reads tasks from: the live task manager's three
      columns, or, with no task manager, the board parsed from the
      `taskManagerTasks` storage entry (None when the entry is missing, empty
      or does not parse). */
  datatype TaskSource =
    | Manager(todo: seq<Task>, inprocess: seq<Task>, finished: seq<Task>)
    | NoManager(saved: Option<Board>)

  /** `getTasksForDate(dateStr)`: the todo, inprocess and finished tasks, in
      that order, whose `task_date` is the key. A stored board lacking a
      column throws while spreading it, which is caught and gives `[]`. */
  function GetTasksForDate(src: TaskSource, key: string): (r: seq<Task>)
  {
    match src
    case Manager(todo, inprocess, finished) => OnDate(todo + inprocess + finished, key)
    case NoManager(None) => []
    case NoManager(Some(b)) =>
      if "todo" in b && "inprocess" in b && "finished" in b then
        OnDate(b["todo"] + b["inprocess"] + b["finished"], key)
      else []
  }

  /** The lookup lists only tasks dated on the key; with a task manager it
      is each column's dated tasks in column order, and every such task is
      found; with no stored board it is empty. */
  lemma GetTasksForDateMeaning(src: TaskSource, key: string)
    ensures forall t :: t in GetTasksForDate(src, key) ==> t.taskDate == key
    ensures src.Manager? ==>
      GetTasksForDate(src, key) == OnDate(src.todo, key) + OnDate(src.inprocess, key) + OnDate(src.finished, key)
    ensures src.Manager? ==> forall t :: t in GetTasksForDate(src, key) <==>
      (t in src.todo || t in src.inprocess || t in src.finished) && t.taskDate == key
    ensures src.NoManager? && src.saved.None? ==> GetTasksForDate(src, key) == []
  {
    if src.Manager? {
      OnDateConcat(src.todo + src.inprocess, src.finished, key);
      OnDateConcat(src.todo, src.inprocess, key);
    }
  }

  /** `renderTasksForDate(dateStr)`: each column filtered on its own, or None
      when there is no task manager and nothing is rendered. */
  function TasksForDate(src: TaskSource, key: string): (r: Option<Board>)
    ensures r.Some? <==> src.Manager?
    ensures r.Some? ==> r.value.Keys == {"todo", "inprocess", "finished"}
  {
    match src
    case NoManager(_) => None
    case Manager(todo, inprocess, finished) =>
      Some(map["todo" := OnDate(todo, key), "inprocess" := OnDate(inprocess, key),
               "finished" := OnDate(finished, key)])
  }

  /** The manager's column named `c`. */
  function Column(src: TaskSource, c: string): seq<Task>
    requires src.Manager?
  {
    if c == "todo" then src.todo else if c == "inprocess" then src.inprocess else src.finished
  }

  /** No task changes column: each rendered column holds exactly the tasks of
      the same column dated on the key, as often as they occur there. */
  lemma TasksForDateKeepColumns(src: TaskSource, key: string, c: string)
    requires src.Manager? && c in {"todo", "inprocess", "finished"}
    ensures forall t :: t in TasksForDate(src, key).value[c] <==> t in Column(src, c) && t.taskDate == key
    ensures forall t: Task :: t.taskDate == key ==>
      multiset(TasksForDate(src, key).value[c])[t] == multiset(Column(src, c))[t]
  {
    OnDateCount(Column(src, c), key);
  }

  /** Together the rendered columns hold what `getTasksForDate` lists. */
  lemma TasksForDateMatchesLookup(src: TaskSource, key: string)
    requires src.Manager?
    ensures var b := TasksForDate(src, key).value;
      b["todo"] + b["inprocess"] + b["finished"] == GetTasksForDate(src, key)
  {
    GetTasksForDateMeaning(src, key);
  }

  /** A cell of the month grid. */
  datatype Cell =
    | Blank
    | Day(day: nat, key: string, hasTasks: bool, isToday: bool)

  /** Today's local date, which `new Date()` reads from the clock. */
  datatype Today = Today(year: int, month: int, day: int)

  /** The cell for day `d` of zero-based month `m` of year `y`. */
  function DayCell(y: int, m: int, d: nat, src: TaskSource, today: Today): Cell
    requires 0 <= m < 12
  {
    var key := DateKey(y, m, d);
    Day(d, key, |GetTasksForDate(src, key)| > 0, y == today.year && m == today.month && d == today.day)
  }

  /** The weekday of the first of the month, `new Date(y, m, 1).getDay()`:
      the constructor reads a year 0..99 as 1900..1999. */
  function FirstWeekDay(y: int, m: int): nat {
    WeekDay(MakeDay(FullYear(y), m, 1))
  }

  /** The month's length, `new Date(y, m + 1, 0).getDate()`, with the year
      read by the constructor as for `FirstWeekDay`. */
  function MonthLength(y: int, m: int): nat
    requires 0 <= m < 12
  {
    DaysInMonth(FullYear(y), m)
  }

  /** `calendarDate` can reach the years 0..99 (`setMonth` keeps the year as
      it is), and then the grid is drawn for 1900..1999 while the keys keep
      the shown year: February of year 0 is drawn as February 1900, which
      starts on a Thursday and has 28 days, though year 0 is a leap year. */
  lemma TwoDigitYearGrid()
    ensures IsLeapYear(0) && DaysInMonth(0, 1) == 29
    ensures MonthLength(0, 1) == 28 && FirstWeekDay(0, 1) == 4
  {
    assert FullYear(0) == 1900;
    assert !IsLeapYear(1900);
    assert DayFromYear(1900) == -25567;
    MakeDayInYear(1900, 1, 1);
    assert MonthStart(1900, 1) == 31 by {
      MonthStartZero(1900);
    }
    assert MakeDay(1900, 1, 1) == -25536;
  }

  /** `n` blank cells. */
  function Blanks(n: nat): (r: seq<Cell>)
    ensures |r| == n && forall i :: 0 <= i < n ==> r[i] == Blank
  {
    seq(n, _ => Blank)
  }

  /** The cells of the first `n` days of the month, in order. */
  function MonthDays(y: int, m: int, n: nat, src: TaskSource, today: Today): (r: seq<Cell>)
    requires 0 <= m < 12
    ensures |r| == n
  {
    if n == 0 then [] else MonthDays(y, m, n - 1, src, today) + [DayCell(y, m, n, src, today)]
  }

  /** The `i`-th of the first `n` day cells is the cell of day `i + 1`. */
  lemma {:induction false} MonthDaysAt(y: int, m: int, n: nat, src: TaskSource, today: Today, i: int)
    requires 0 <= m < 12 && 0 <= i < n
    ensures MonthDays(y, m, n, src, today)[i] == DayCell(y, m, i + 1, src, today)
  {
    var prev, cell := MonthDays(y, m, n - 1, src, today), DayCell(y, m, n, src, today);
    assert MonthDays(y, m, n, src, today) == prev + [cell];
    if i < n - 1 {
      MonthDaysAt(y, m, n - 1, src, today, i);
      assert (prev + [cell])[i] == prev[i];
    }
  }

  /** The grid as far as the loops of `renderCalendarGrid` have drawn it:
      the leading blanks and the first `n` days. */
  function GridPrefix(y: int, m: int, first: nat, n: nat, src: TaskSource, today: Today): (r: seq<Cell>)
    requires 0 <= m < 12
    ensures |r| == first + n
  {
    Blanks(first) + MonthDays(y, m, n, src, today)
  }

  /** The grid `renderCalendarGrid` builds when the first of the month falls
      on weekday `first`: one blank per weekday before the first, then the
      days of the month in order. */
  function Grid(y: int, m: int, first: nat, src: TaskSource, today: Today): seq<Cell>
    requires 0 <= m < 12
  {
    GridPrefix(y, m, first, MonthLength(y, m), src, today)
  }

  /** The cell at position `i` of the grid. */
  lemma GridCellAt(y: int, m: int, first: nat, src: TaskSource, today: Today, i: int)
    requires 0 <= m < 12 && 0 <= i < first + MonthLength(y, m)
    ensures |Grid(y, m, first, src, today)| == first + MonthLength(y, m)
    ensures Grid(y, m, first, src, today)[i] ==
      if i < first then Blank else DayCell(y, m, i - first + 1, src, today)
  {
    if i >= first {
      MonthDaysAt(y, m, MonthLength(y, m), src, today, i - first);
    }
  }

  lemma SnocAssoc<T>(a: seq<T>, b: seq<T>, x: T)
    ensures a + (b + [x]) == (a + b) + [x]
  {
  }

  /** One more blank extends the blanks drawn so far. */
  lemma BlanksNext(n: nat)
    ensures Blanks(n + 1) == Blanks(n) + [Blank]
  {
    var a, b := Blanks(n + 1), Blanks(n);
    assert forall i :: 0 <= i < n ==> a[i] == b[i];
  }

  /** The blanks alone are the grid drawn up to day 0. */
  lemma GridPrefixBlanks(y: int, m: int, first: nat, src: TaskSource, today: Today)
    requires 0 <= m < 12
    ensures GridPrefix(y, m, first, 0, src, today) == Blanks(first)
  {
    assert Blanks(first) + [] == Blanks(first);
  }

  /** Drawing the next day extends the grid drawn so far by its cell. */
  lemma GridPrefixNext(y: int, m: int, first: nat, n: nat, src: TaskSource, today: Today)
    requires 0 <= m < 12
    ensures GridPrefix(y, m, first, n + 1, src, today) ==
      GridPrefix(y, m, first, n, src, today) + [DayCell(y, m, n + 1, src, today)]
  {
    SnocAssoc(Blanks(first), MonthDays(y, m, n, src, today), DayCell(y, m, n + 1, src, today));
  }

  /** The grid holds `first` blanks, then day cells numbered 1 to the month's
      length, each keyed by its date and marked as having tasks exactly when
      the lookup for its key is non-empty. */
  lemma GridShape(y: int, m: int, first: nat, src: TaskSource, today: Today)
    requires 0 <= m < 12
    ensures var g := Grid(y, m, first, src, today);
      |g| == first + MonthLength(y, m) &&
      (forall i :: 0 <= i < first ==> g[i] == Blank) &&
      (forall i :: first <= i < |g| ==>
         (g[i].Day? && g[i].day == i - first + 1 && g[i].key == DateKey(y, m, g[i].day) &&
          (g[i].hasTasks <==> exists t :: t in GetTasksForDate(src, g[i].key))))
  {
    var g := Grid(y, m, first, src, today);
    forall i | 0 <= i < |g|
      ensures i < first ==> g[i] == Blank
      ensures i >= first ==>
        g[i].Day? && g[i].day == i - first + 1 && g[i].key == DateKey(y, m, g[i].day) &&
        (g[i].hasTasks <==> exists t :: t in GetTasksForDate(src, g[i].key))
    {
      GridCellAt(y, m, first, src, today, i);
      if i >= first {
        DayCellShape(y, m, i - first + 1, src, today);
      }
    }
  }

  /** A day cell carries its day, its key, and whether the lookup for the key
      finds a task. */
  lemma DayCellShape(y: int, m: int, d: nat, src: TaskSource, today: Today)
    requires 0 <= m < 12
    ensures var c := DayCell(y, m, d, src, today);
      c.Day? && c.day == d && c.key == DateKey(y, m, d) &&
      (c.hasTasks <==> exists t :: t in GetTasksForDate(src, c.key))
  {
    var ts := GetTasksForDate(src, DateKey(y, m, d));
    if |ts| > 0 {
      assert ts[0] in ts;
    }
  }

  /** A grid cell is marked today exactly when it is the cell of today's
      date. */
  lemma GridCellIsToday(y: int, m: int, first: nat, src: TaskSource, today: Today, i: int)
    requires 0 <= m < 12 && 0 <= i < first + MonthLength(y, m)
    ensures var c := Grid(y, m, first, src, today)[i];
      (c.Day? && c.isToday) <==> i >= first && y == today.year && m == today.month && i - first + 1 == today.day
  {
    GridCellAt(y, m, first, src, today, i);
  }

  /** At most one cell is marked today, and when today falls in the shown
      month it is the cell of today's day. */
  lemma AtMostOneToday(y: int, m: int, first: nat, src: TaskSource, today: Today)
    requires 0 <= m < 12
    ensures var g := Grid(y, m, first, src, today);
      forall i, j :: (0 <= i < |g| && 0 <= j < |g| && g[i].Day? && g[j].Day? &&
                      g[i].isToday && g[j].isToday) ==> i == j
    ensures var g := Grid(y, m, first, src, today);
      1 <= today.day <= MonthLength(y, m) && y == today.year && m == today.month ==>
        var k := first + today.day - 1;
        0 <= k < |g| && g[k].Day? && g[k].isToday
  {
    var g := Grid(y, m, first, src, today);
    forall i, j | 0 <= i < |g| && 0 <= j < |g| && g[i].Day? && g[j].Day? && g[i].isToday && g[j].isToday
      ensures i == j
    {
      GridCellIsToday(y, m, first, src, today, i);
      GridCellIsToday(y, m, first, src, today, j);
    }
    if 1 <= today.day <= MonthLength(y, m) && y == today.year && m == today.month {
      GridCellIsToday(y, m, first, src, today, first + today.day - 1);
    }
  }

  /** The key of every day cell reads back, through `createLocalDate`, as
      that day of the shown month. */
  lemma GridKeysReadBack(y: int, m: int, first: nat, src: TaskSource, today: Today, i: int)
    requires 0 <= m < 12 && y >= 100
    requires 0 <= i < |Grid(y, m, first, src, today)| && Grid(y, m, first, src, today)[i].Day?
    ensures ValidDate(y, m, Grid(y, m, first, src, today)[i].day)
    ensures CreateLocalDate(Grid(y, m, first, src, today)[i].key) ==
      Some(LocalDate(y, m, Grid(y, m, first, src, today)[i].day))
  {
    GridCellAt(y, m, first, src, today, i);
    assert MonthLength(y, m) == DaysInMonth(y, m);
    var d := i - first + 1;
    assert Grid(y, m, first, src, today)[i] == DayCell(y, m, d, src, today);
    KeyRoundTrip(y, m, d);
  }

  /** `calendarDate.setMonth(getMonth() + direction)`: the month carries into
      the year by floor division, as `MakeDay` does. */
  function ShiftMonth(y: int, m: int, direction: int): (r: (int, int))
    ensures 0 <= r.1 < 12
    ensures r.0 * 12 + r.1 == y * 12 + m + direction
  {
    (y + (m + direction) / 12, (m + direction) % 12)
  }

  /** Going back by the same number of months returns to the shown month. */
  lemma ShiftMonthBack(y: int, m: int, direction: int)
    requires 0 <= m < 12
    ensures var r := ShiftMonth(y, m, direction); ShiftMonth(r.0, r.1, -direction) == (y, m)
  {
    var r := ShiftMonth(y, m, direction);
    var s := ShiftMonth(r.0, r.1, -direction);
    assert s.0 * 12 + s.1 == y * 12 + m;
    SameMonthCount(s.0, s.1, y, m);
  }

  lemma SameMonthCount(y: int, m: int, y2: int, m2: int)
    requires 0 <= m < 12 && 0 <= m2 < 12
    requires y * 12 + m == y2 * 12 + m2
    ensures y == y2 && m == m2
  {
  }

  /** What `switchToTaskBoardWithDate` does: with a task manager, show the
      task board on the parsed date; without one, store the key under
      `selectedDate` and open `dashboard.html`. */
  datatype BoardSwitch =
    | ShowBoardOn(currentDate: Option<LocalDate>)
    | OpenDashboard(selectedDate: string)

  /** The two loops of `renderCalendarGrid`: append one blank per weekday
      before the first of the month, then one cell per day up to the month's
      length. */
  method AppendCells(y: int, m: int, startingDayOfWeek: nat, src: TaskSource, today: Today) returns (cells: seq<Cell>)
    requires 0 <= m < 12
    ensures cells == Grid(y, m, startingDayOfWeek, src, today)
  {
    cells := [];
    var i := 0;
    while i < startingDayOfWeek
      invariant 0 <= i <= startingDayOfWeek
      invariant cells == Blanks(i)
    {
      BlanksNext(i);
      cells := cells + [Blank];
      i := i + 1;
    }
    GridPrefixBlanks(y, m, startingDayOfWeek, src, today);
    var daysInMonth := MonthLength(y, m);
    var day := 1;
    while day <= daysInMonth
      invariant 1 <= day <= daysInMonth + 1
      invariant cells == GridPrefix(y, m, startingDayOfWeek, day - 1, src, today)
    {
      GridPrefixNext(y, m, startingDayOfWeek, day - 1, src, today);
      cells := cells + [DayCell(y, m, day, src, today)];
      day := day + 1;
    }
  }

  class CalendarController {
    /** `calendarDate`, at month granularity. */
    var year: int
    var month: int
    var selectedDate: Option<string>
    var source: TaskSource
    /** The cells of `#calendarGrid` and which of them carry `selected`. */
    var grid: seq<Cell>
    var selected: seq<bool>

    predicate Valid()
      reads this
    {
      0 <= month < 12 && |selected| == |grid|
    }

    /** `new CalendarController(taskManager)`, opened on the current month. */
    constructor(source: TaskSource, today: Today)
      requires 0 <= today.month < 12
      ensures Valid()
      ensures year == today.year && month == today.month
      ensures selectedDate == None && this.source == source && grid == [] && selected == []
    {
      year := today.year;
      month := today.month;
      selectedDate := None;
      this.source := source;
      grid := [];
      selected := [];
    }

    /** `renderCalendarGrid()`: empty the grid, append the leading blanks,
        then one cell per day. The month's length is taken as the date of day
        0 of the next month, which `JsDate.LastDayOfMonth` shows is
        `DaysInMonth` of the year the constructor reads. */
    method RenderCalendarGrid(today: Today)
      requires Valid()
      modifies this
      ensures Valid()
      ensures year == old(year) && month == old(month) && selectedDate == old(selectedDate) && source == old(source)
      ensures grid == Grid(year, month, FirstWeekDay(year, month), source, today)
      ensures selected == seq(|grid|, _ => false)
    {
      var startingDayOfWeek := FirstWeekDay(year, month);
      var cells := AppendCells(year, month, startingDayOfWeek, source, today);
      grid := cells;
      selected := seq(|cells|, _ => false);
    }

    /** `changeCalendarMonth(direction)`: move the shown month and redraw. */
    method ChangeCalendarMonth(direction: int, today: Today)
      requires Valid()
      modifies this
      ensures Valid()
      ensures (year, month) == ShiftMonth(old(year), old(month), direction)
      ensures grid == Grid(year, month, FirstWeekDay(year, month), source, today)
      ensures selectedDate == old(selectedDate) && source == old(source)
    {
      var shifted := ShiftMonth(year, month, direction);
      year, month := shifted.0, shifted.1;
      RenderCalendarGrid(today);
    }

    /** `selectDate(dateStr, dayElement)` for the day cell at `i`: only that
        cell is selected, `selectedDate` is its key, and the task board is
        switched to that date. Only day cells carry the click listener. */
    method SelectDate(i: int) returns (switched: BoardSwitch)
      requires Valid()
      requires 0 <= i < |grid| && grid[i].Day?
      modifies this
      ensures Valid()
      ensures grid == old(grid) && year == old(year) && month == old(month) && source == old(source)
      ensures forall j :: 0 <= j < |selected| ==> (selected[j] <==> j == i)
      ensures selectedDate == Some(grid[i].key)
      ensures switched == if source.Manager? then ShowBoardOn(CreateLocalDate(grid[i].key))
                          else OpenDashboard(grid[i].key)
    {
      selected := seq(|grid|, j => j == i);
      selectedDate := Some(grid[i].key);
      switched := SwitchToTaskBoardWithDate(grid[i].key);
    }

    /** `switchToTaskBoardWithDate(dateStr)` */
    method SwitchToTaskBoardWithDate(key: string) returns (switched: BoardSwitch)
      ensures source.Manager? ==> switched == ShowBoardOn(CreateLocalDate(key))
      ensures source.NoManager? ==> switched == OpenDashboard(key)
    {
      if source.Manager? {
        switched := ShowBoardOn(CreateLocalDate(key));
      } else {
        switched := OpenDashboard(key);
      }
    }
  }
}
