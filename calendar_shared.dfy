/** The calendar page's shared helpers: reading a `YYYY-MM-DD` key back into a
    local date, the content-view switcher and the view-fragment loader. */
module CalendarShared {
  import opened Wrappers
  import opened JsText
  import opened JsDate

  /** The year the `Date` constructor uses: 0 to 99 mean 1900 to 1999
      (`MakeFullYear`, ECMA-262 21.4.2.1). */
  function FullYear(y: int): (r: int)
    ensures 0 <= y <= 99 ==> r == 1900 + y
    ensures (y < 0 || y > 99) ==> r == y
  {
    if 0 <= y <= 99 then 1900 + y else y
  }

  /** The arguments of `new Date(year, monthIndex, day)` in local time. The
      constructor normalises them: the date the object denotes is the day
      number `DayNumber`, so an overflowing month or day lands in a later
      month or year. */
  datatype LocalDate = LocalDate(year: int, monthIndex: int, day: int)

  /** The day number of the date a `LocalDate` denotes. */
  function DayNumber(d: LocalDate): int {
    MakeDay(d.year, d.monthIndex, d.day)
  }

  /**
   * `createLocalDate(dateStr)`: split on `-`, apply `Number` to each part and
   * build `new Date(year, month - 1, day)` in local time. None is an Invalid
   * Date: a part that is missing or is not a number gives NaN.
   */
  function CreateLocalDate(s: string): (r: Option<LocalDate>)
    ensures r.Some? ==> |Split(s, '-')| >= 3
    ensures r.Some? ==> r.value.monthIndex >= -1 && r.value.day >= 0
  {
    DateOfParts(Split(s, '-'))
  }

  /** The date built from the parts of a split key; the parts after the third
      are ignored. */
  function DateOfParts(parts: seq<string>): (r: Option<LocalDate>)
    ensures r.Some? <==> |parts| >= 3 && Number(parts[0]).Some? && Number(parts[1]).Some? && Number(parts[2]).Some?
    ensures r.Some? ==> r.value.monthIndex >= -1 && r.value.day >= 0
    ensures r.Some? ==> r.value == LocalDate(FullYear(Number(parts[0]).value), Number(parts[1]).value - 1,
                                             Number(parts[2]).value)
  {
    if |parts| < 3 then None
    else
      var y, m, d := Number(parts[0]), Number(parts[1]), Number(parts[2]);
      if y.None? || m.None? || d.None? then None
      else Some(LocalDate(FullYear(y.value), m.value - 1, d.value))
  }

  /** `createLocalDate("Y-M-D")` for digit strings is the date with year Y
      (as the constructor reads it), zero-based month M - 1 and day D. */
  lemma CreateLocalDateOfDigits(ys: string, ms: string, ds: string)
    requires ys != [] && AllDigits(ys)
    requires ms != [] && AllDigits(ms)
    requires ds != [] && AllDigits(ds)
    ensures var r := CreateLocalDate(ys + "-" + ms + "-" + ds);
      r.Some? && r.value.year == FullYear(DigitsValue(ys)) &&
      r.value.monthIndex == DigitsValue(ms) - 1 && r.value.day == DigitsValue(ds)
  {
    SplitParts(ys, ms, ds);
    DateOfDigitParts(ys, ms, ds);
  }

  lemma DateOfDigitParts(ys: string, ms: string, ds: string)
    requires ys != [] && AllDigits(ys)
    requires ms != [] && AllDigits(ms)
    requires ds != [] && AllDigits(ds)
    ensures var r := DateOfParts([ys, ms, ds]);
      r.Some? && r.value.year == FullYear(DigitsValue(ys)) &&
      r.value.monthIndex == DigitsValue(ms) - 1 && r.value.day == DigitsValue(ds)
  {
    NumberOfDigits(ys);
    NumberOfDigits(ms);
    NumberOfDigits(ds);
    DateOfNumbers(ys, ms, ds);
  }

  lemma DateOfNumbers(ys: string, ms: string, ds: string)
    requires Number(ys).Some? && Number(ms).Some? && Number(ds).Some?
    ensures DateOfParts([ys, ms, ds]) ==
      Some(LocalDate(FullYear(Number(ys).value), Number(ms).value - 1, Number(ds).value))
  {
    var p := [ys, ms, ds];
    assert p[0] == ys && p[1] == ms && p[2] == ds;
  }

  lemma SplitParts(ys: string, ms: string, ds: string)
    requires AllDigits(ys) && AllDigits(ms) && AllDigits(ds)
    ensures Split(ys + "-" + ms + "-" + ds, '-') == [ys, ms, ds]
  {
    assert ys + "-" + ms + "-" + ds == ys + ['-'] + (ms + ['-'] + ds);
    NoDash(ys);
    NoDash(ms);
    NoDash(ds);
    SplitNone(ds, '-');
    SplitFirst(ms, '-', ds);
    SplitFirst(ys, '-', ms + ['-'] + ds);
  }

  lemma NoDash(s: string)
    requires AllDigits(s)
    ensures forall k :: 0 <= k < |s| ==> s[k] != '-'
  {
    forall k | 0 <= k < |s| ensures s[k] != '-' {
      assert IsDigit(s[k]);
    }
  }

  /** The element id `switchView` looks up for a view name. A name outside the
      map looks up `viewMap[name]`, which is `undefined`, and `getElementById`
      reads that as the id "undefined". */
  function ViewElementId(name: string): (id: string)
    ensures name == "taskBoard" ==> id == "taskBoardView"
    ensures name == "allTasks" ==> id == "allTasksView"
    ensures name == "trash" ==> id == "trashView"
    ensures name == "about" ==> id == "aboutView"
    ensures name !in {"taskBoard", "allTasks", "trash", "about"} ==> id == "undefined"
  {
    if name == "taskBoard" then "taskBoardView"
    else if name == "allTasks" then "allTasksView"
    else if name == "trash" then "trashView"
    else if name == "about" then "aboutView"
    else "undefined"
  }

  /** `getElementById`: the first element in document order with that id, or -1. */
  function FirstWithId(ids: seq<string>, id: string): (k: int)
    ensures -1 <= k < |ids|
    ensures k >= 0 ==> ids[k] == id && forall j :: 0 <= j < k ==> ids[j] != id
    ensures k == -1 <==> id !in ids
  {
    if ids == [] then -1
    else if ids[0] == id then 0
    else
      var k := FirstWithId(ids[1..], id);
      if k == -1 then -1 else k + 1
  }

  /** The `active` flags after `switchView(name)`: no content view stays
      active, and then the element the name maps to, if any, is activated. */
  function Switched(active: seq<bool>, isContentView: seq<bool>, ids: seq<string>, name: string): seq<bool>
    requires |active| == |isContentView| == |ids|
  {
    var k := FirstWithId(ids, ViewElementId(name));
    seq(|active|, j requires 0 <= j < |active| => j == k || (!isContentView[j] && active[j]))
  }

  /** After a switch at most one content view is active: the first element
      with the mapped id. With an unknown name and no element whose id is
      "undefined", none is active. Elements that are not content views keep
      their flag, unless one of them is the target. */
  lemma SwitchActivatesOnlyTarget(active: seq<bool>, isContentView: seq<bool>, ids: seq<string>, name: string)
    requires |active| == |isContentView| == |ids|
    ensures forall j :: 0 <= j < |ids| && isContentView[j] && Switched(active, isContentView, ids, name)[j] ==>
      j == FirstWithId(ids, ViewElementId(name))
    ensures forall j :: (0 <= j < |ids| && ids[j] == ViewElementId(name) && isContentView[j] &&
                         forall i :: 0 <= i < j ==> ids[i] != ids[j]) ==>
      Switched(active, isContentView, ids, name)[j]
    ensures name !in {"taskBoard", "allTasks", "trash", "about"} && "undefined" !in ids ==>
      forall j :: 0 <= j < |ids| && isContentView[j] ==> !Switched(active, isContentView, ids, name)[j]
    ensures forall j :: 0 <= j < |ids| && !isContentView[j] && ids[j] != ViewElementId(name) ==>
      Switched(active, isContentView, ids, name)[j] == active[j]
  {
  }

  /** The document as `switchView` sees it: each element's id, whether it has
      the `content-view` class, and whether it has the `active` class. */
  class ViewDocument {
    var ids: seq<string>
    var isContentView: seq<bool>
    var active: seq<bool>

    predicate Valid()
      reads this
    {
      |ids| == |isContentView| == |active|
    }

    constructor(ids: seq<string>, isContentView: seq<bool>, active: seq<bool>)
      requires |ids| == |isContentView| == |active|
      ensures Valid()
      ensures this.ids == ids && this.isContentView == isContentView && this.active == active
    {
      this.ids := ids;
      this.isContentView := isContentView;
      this.active := active;
    }

    /** `switchView(name)`: clear `active` on every content view, then add it
        to the element the name maps to, when there is one. */
    method SwitchView(name: string)
      requires Valid()
      modifies this
      ensures Valid()
      ensures ids == old(ids) && isContentView == old(isContentView)
      ensures active == Switched(old(active), isContentView, ids, name)
    {
      var i := 0;
      while i < |active|
        invariant 0 <= i <= |active| == |old(active)|
        invariant ids == old(ids) && isContentView == old(isContentView)
        invariant forall j :: 0 <= j < |active| ==>
          active[j] == if j < i && isContentView[j] then false else old(active)[j]
      {
        if isContentView[i] {
          active := active[i := false];
        }
        i := i + 1;
      }
      var k := FirstWithId(ids, ViewElementId(name));
      if k >= 0 {
        active := active[k := true];
      }
    }
  }

  /** The fragment path `loadViewContent` fetches for a view, if it has one. */
  function ViewPath(name: string): (r: Option<string>)
    ensures r.Some? <==> name in {"allTasks", "trash", "about"}
    ensures name == "allTasks" ==> r == Some("./pages/calendar.html")
    ensures name == "trash" ==> r == Some("./pages/trash.html")
    ensures name == "about" ==> r == Some("./pages/about.html")
  {
    if name == "allTasks" then Some("./pages/calendar.html")
    else if name == "trash" then Some("./pages/trash.html")
    else if name == "about" then Some("./pages/about.html")
    else None
  }

  /**
   * `loadViewContent(name)`: null without fetching for a name outside the map;
   * otherwise the fetched text, or null when the fetch fails or is not ok.
   * `served` maps the paths that answer ok to their text.
   */
  function LoadViewContent(name: string, served: map<string, string>): (r: Option<string>)
    ensures r.Some? <==> ViewPath(name).Some? && ViewPath(name).value in served
    ensures r.Some? ==> r.value == served[ViewPath(name).value]
    ensures name !in {"allTasks", "trash", "about"} ==> r == None
  {
    match ViewPath(name)
    case None => None
    case Some(path) => if path in served then Some(served[path]) else None
  }

  /** Every view that has a fragment also has a content view to switch to,
      and the fragments are distinct files. */
  lemma LoadableViewsAreSwitchable(name: string, other: string)
    requires ViewPath(name).Some? && ViewPath(other).Some? && name != other
    ensures ViewElementId(name) != "undefined"
    ensures ViewPath(name) != ViewPath(other)
  {
  }
}
