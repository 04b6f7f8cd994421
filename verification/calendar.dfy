/** The task calendar (src/features/calendar.jsx): month arithmetic through the
    JavaScript `Date(year, month, day)` constructor, the per-day grouping of scheduled
    tasks, the day grid and the priority badges.

    Months are numbered 0..11 as `getMonth()` numbers them. The constructor reads a year
    in 0..99 as 1900 + year (`JsYear`); the model keeps that rule, so the navigation and
    length lemmas are stated for years outside 0..99. Dates are local calendar dates. */
module Calendar {
  import opened Wrappers
  import opened Json
  import Numeric

  type Month = m: int | 0 <= m < 12

  /** The displayed month: `currentMonth`, always the first of a month. */
  datatype YearMonth = YearMonth(year: int, month: Month)

  /** A scheduled date as `getFullYear()`, `getMonth()` and `getDate()` report it. */
  datatype CivilDate = CivilDate(year: int, month: Month, day: int)

  // ---------------------------------------------------------------------------
  // Gregorian arithmetic

  predicate IsLeap(y: int) {
    y % 4 == 0 && (y % 100 != 0 || y % 400 == 0)
  }

  function MonthLength(y: int, m: Month): (n: int)
    ensures 28 <= n <= 31
    ensures m == 1 ==> (n == 29 <==> IsLeap(y))
  {
    if m == 1 then (if IsLeap(y) then 29 else 28)
    else if m == 3 || m == 5 || m == 8 || m == 10 then 30
    else 31
  }

  /** The days from 1 January 1970 to the first of month `m` of year `y` (proleptic
      Gregorian calendar; a year counted from March keeps February last). */
  function DayNumber(y: int, m: Month): int {
    var y1 := if m < 2 then y - 1 else y;
    MarchBase(y1) + (153 * ((m + 10) % 12) + 2) / 5 - 719468
  }

  /** The days from the epoch of the era calendar to 1 March of year `y1`. */
  function MarchBase(y1: int): int {
    var era := y1 / 400;
    var yoe := y1 - era * 400;
    era * 146097 + yoe * 365 + yoe / 4 - yoe / 100
  }

  lemma Mod4Shift(q: int, a: int)
    ensures (4 * q + a) % 4 == a % 4
  {
  }

  lemma Mod100Shift(q: int, a: int)
    ensures (100 * q + a) % 100 == a % 100
  {
  }

  lemma Div400Of(e: int, r: int)
    requires 0 <= r < 400
    ensures (400 * e + r) / 400 == e
    ensures (400 * e + r) % 400 == r
  {
  }

  lemma YearOfEraStep(k: int)
    requires 0 <= k < 399
    ensures (k + 1) * 365 + (k + 1) / 4 - (k + 1) / 100 - (k * 365 + k / 4 - k / 100)
         == if (k + 1) % 4 == 0 && (k + 1) % 100 != 0 then 366 else 365
  {
  }

  /** From 1 March of one year to 1 March of the next is 366 days exactly when the next
      year is a leap year. */
  lemma MarchBaseStep(y: int)
    ensures MarchBase(y) - MarchBase(y - 1) == if IsLeap(y) then 366 else 365
  {
    var era := (y - 1) / 400;
    var k := (y - 1) - era * 400;
    assert y == 400 * era + (k + 1);
    if k == 399 {
      Div400Of(era + 1, 0);
      assert y == 400 * (era + 1) + 0;
      assert IsLeap(y);
    } else {
      Div400Of(era, k + 1);
      YearOfEraStep(k);
      Mod4Shift(100 * era, k + 1);
      Mod100Shift(4 * era, k + 1);
      assert y % 400 == k + 1;
      assert MarchBase(y) == era * 146097 + (k + 1) * 365 + (k + 1) / 4 - (k + 1) / 100;
    }
  }

  /** Consecutive months' first days are one month length apart. */
  lemma DayNumberStep(y: int, m: Month)
    requires m < 11
    ensures DayNumber(y, m + 1) - DayNumber(y, m) == MonthLength(y, m)
  {
    if m == 1 {
      MarchBaseStep(y);
    }
  }

  lemma DayNumberYearStep(y: int)
    ensures DayNumber(y + 1, 0) - DayNumber(y, 11) == 31
  {
  }

  /** `getDay()` of the first of a month: 1 January 1970 was a Thursday (4). */
  function Weekday(y: int, m: Month): (w: int)
    ensures 0 <= w <= 6
  {
    (DayNumber(y, m) + 4) % 7
  }

  // ---------------------------------------------------------------------------
  // The Date constructor

  /** The year rule of `new Date(y, m, d)`: 0..99 means 1900..1999. */
  function JsYear(y: int): int {
    if 0 <= y <= 99 then 1900 + y else y
  }

  /** The month `new Date(y, m, 1)` lands in: months past either end roll into the
      neighbouring years. */
  function Normalize(y: int, m: int): (r: YearMonth)
    ensures 0 <= m < 12 ==> r == YearMonth(y, m)
    ensures m == 12 ==> r == YearMonth(y + 1, 0)
    ensures m == -1 ==> r == YearMonth(y - 1, 11)
  {
    YearMonth(y + m / 12, m % 12)
  }

  /** `getDaysInMonth`: the day of `new Date(year, month + 1, 0)`, the last day of the
      displayed month. */
  function DaysInMonth(cur: YearMonth): (n: int)
    ensures n == MonthLength(JsYear(cur.year), cur.month)
    ensures 28 <= n <= 31
  {
    var next := Normalize(JsYear(cur.year), cur.month + 1);
    var last := Normalize(next.year, next.month - 1);
    MonthLength(last.year, last.month)
  }

  /** `getFirstDayOfMonth`: the weekday of `new Date(year, month, 1)`. */
  function FirstDay(cur: YearMonth): (w: int)
    ensures 0 <= w <= 6
  {
    Weekday(JsYear(cur.year), cur.month)
  }

  /** `handleNextMonth` and `handlePrevMonth`. */
  function Next(cur: YearMonth): (r: YearMonth)
    ensures cur.month < 11 ==> r == YearMonth(JsYear(cur.year), cur.month + 1)
    ensures cur.month == 11 ==> r == YearMonth(JsYear(cur.year) + 1, 0)
  {
    Normalize(JsYear(cur.year), cur.month + 1)
  }

  function Prev(cur: YearMonth): (r: YearMonth)
    ensures cur.month > 0 ==> r == YearMonth(JsYear(cur.year), cur.month - 1)
    ensures cur.month == 0 ==> r == YearMonth(JsYear(cur.year) - 1, 11)
  {
    Normalize(JsYear(cur.year), cur.month - 1)
  }

  predicate PlainYear(y: int) {
    !(0 <= y <= 99)
  }

  /** Away from the two-digit years, previous and next month undo each other. */
  lemma PrevNextInverse(cur: YearMonth)
    requires PlainYear(cur.year)
    ensures PlainYear(Next(cur).year) ==> Prev(Next(cur)) == cur
    ensures PlainYear(Prev(cur).year) ==> Next(Prev(cur)) == cur
  {
  }

  /** The two-digit year rule in action: one month back from January 100, then one month
      forward, lands in January 2000. */
  lemma TwoDigitYearJump()
    ensures Prev(YearMonth(100, 0)) == YearMonth(99, 11)
    ensures Next(YearMonth(99, 11)) == YearMonth(2000, 0)
  {
  }

  lemma WeekShift(d: int, len: int)
    ensures (d + len + 4) % 7 == ((d + 4) % 7 + len) % 7
  {
  }

  /** The first of the next month, as a day number, is one month length on. */
  lemma NextDayNumber(cur: YearMonth)
    requires PlainYear(cur.year) && PlainYear(Next(cur).year)
    ensures DayNumber(Next(cur).year, Next(cur).month) == DayNumber(cur.year, cur.month) + MonthLength(cur.year, cur.month)
  {
    if cur.month < 11 {
      DayNumberStep(cur.year, cur.month);
    } else {
      DayNumberYearStep(cur.year);
    }
  }

  /** The next month starts on the weekday after the current month's last day. */
  lemma NextMonthWeekday(cur: YearMonth)
    requires PlainYear(cur.year) && PlainYear(Next(cur).year)
    ensures FirstDay(Next(cur)) == (FirstDay(cur) + DaysInMonth(cur)) % 7
  {
    var n := Next(cur);
    assert JsYear(cur.year) == cur.year && JsYear(n.year) == n.year;
    NextDayNumber(cur);
    WeekShift(DayNumber(cur.year, cur.month), MonthLength(cur.year, cur.month));
  }

  // ---------------------------------------------------------------------------
  // Priority badges

  const HighBadge: string := "bg-red-500"
  const MediumBadge: string := "bg-yellow-500"
  const LowBadge: string := "bg-green-500"
  const DefaultBadge: string := "bg-gray-400"

  /** The names every plain object inherits from `Object.prototype`; each is truthy. */
  const PrototypeNames: seq<string> := [
    "constructor", "hasOwnProperty", "isPrototypeOf", "propertyIsEnumerable",
    "toLocaleString", "toString", "valueOf", "__proto__",
    "__defineGetter__", "__defineSetter__", "__lookupGetter__", "__lookupSetter__"]

  /** What `styles[priority] || "bg-gray-400"` yields: a class name, or an inherited
      prototype member (a function or `Object.prototype` itself). */
  datatype BadgeValue = ClassName(name: string) | Inherited(key: string)

  /** `getPriorityBadge` as written: the lookup is not restricted to own properties. */
  function PriorityBadgeAsWritten(priority: Val): (r: BadgeValue)
    ensures ToJsString(priority) in PrototypeNames <==> r.Inherited?
  {
    var key := ToJsString(priority);
    if key == "high" then ClassName(HighBadge)
    else if key == "medium" then ClassName(MediumBadge)
    else if key == "low" then ClassName(LowBadge)
    else if key in PrototypeNames then Inherited(key)
    else ClassName(DefaultBadge)
  }

  /** A priority named after a prototype member gets no badge colour at all. */
  lemma PrototypeKeyEscapesDefault()
    ensures PriorityBadgeAsWritten(Some(JStr("constructor"))) == Inherited("constructor")
  {
  }

  /** The badge the lookup evidently intends: the three own entries, grey otherwise. */
  function PriorityBadge(priority: Val): (r: string)
    ensures r in {HighBadge, MediumBadge, LowBadge, DefaultBadge}
    ensures r == HighBadge <==> ToJsString(priority) == "high"
    ensures r == MediumBadge <==> ToJsString(priority) == "medium"
    ensures r == LowBadge <==> ToJsString(priority) == "low"
  {
    var key := ToJsString(priority);
    if key == "high" then HighBadge
    else if key == "medium" then MediumBadge
    else if key == "low" then LowBadge
    else DefaultBadge
  }

  /** The two agree on every priority that does not name a prototype member. */
  lemma BadgeAgreesOutsidePrototype(priority: Val)
    requires ToJsString(priority) !in PrototypeNames
    ensures PriorityBadgeAsWritten(priority) == ClassName(PriorityBadge(priority))
  {
  }

  // ---------------------------------------------------------------------------
  // Grouping scheduled tasks by day

  datatype CalTask = CalTask(id: int, title: string, scheduled: Option<CivilDate>, priority: Json, taskCount: int)

  /** The five demonstration tasks, scheduled in the displayed month of 2025. */
  function DemoTasks(month: Month): (r: seq<CalTask>)
    ensures |r| == 5
    ensures forall i :: 0 <= i < 5 ==> r[i].scheduled.Some? && r[i].scheduled.value.year == 2025
  {
    [CalTask(1, "Complete project proposal", Some(CivilDate(2025, month, 5)), JStr("high"), 3),
     CalTask(2, "Review team feedback", Some(CivilDate(2025, month, 5)), JStr("medium"), 1),
     CalTask(3, "Update documentation", Some(CivilDate(2025, month, 12)), JStr("low"), 2),
     CalTask(4, "Client meeting", Some(CivilDate(2025, month, 18)), JStr("high"), 1),
     CalTask(5, "Code review session", Some(CivilDate(2025, month, 22)), JStr("medium"), 4)]
  }

  /** The task is scheduled on day `day` of the displayed month and year. */
  predicate OnDay(t: CalTask, cur: YearMonth, day: int) {
    t.scheduled.Some? && t.scheduled.value.month == cur.month && t.scheduled.value.year == cur.year
    && t.scheduled.value.day == day
  }

  /** The tasks on day `day` of the displayed month, in order. */
  function TasksOn(ts: seq<CalTask>, cur: YearMonth, day: int): seq<CalTask> {
    if |ts| == 0 then []
    else TasksOn(ts[..|ts| - 1], cur, day) + (if OnDay(ts[|ts| - 1], cur, day) then [ts[|ts| - 1]] else [])
  }

  /** A day's entry: the `taskCount` and `priority` of each of its tasks, in order. */
  datatype DayData = DayData(counts: seq<int>, priorities: seq<Json>)

  function Counts(ts: seq<CalTask>): (r: seq<int>)
    ensures |r| == |ts| && forall i :: 0 <= i < |ts| ==> r[i] == ts[i].taskCount
  {
    seq(|ts|, i requires 0 <= i < |ts| => ts[i].taskCount)
  }

  function Priorities(ts: seq<CalTask>): (r: seq<Json>)
    ensures |r| == |ts| && forall i :: 0 <= i < |ts| ==> r[i] == ts[i].priority
  {
    seq(|ts|, i requires 0 <= i < |ts| => ts[i].priority)
  }

  /** `scheduledDates`: the `forEach` that pushes each in-month task onto its day. */
  function Group(ts: seq<CalTask>, cur: YearMonth): map<int, DayData> {
    if |ts| == 0 then map[]
    else
      var g := Group(ts[..|ts| - 1], cur);
      var t := ts[|ts| - 1];
      if t.scheduled.Some? && t.scheduled.value.month == cur.month && t.scheduled.value.year == cur.year then
        var day := t.scheduled.value.day;
        var entry := if day in g then g[day] else DayData([], []);
        g[day := DayData(entry.counts + [t.taskCount], entry.priorities + [t.priority])]
      else g
  }

  /** A day has an entry exactly when some task is scheduled on it in the displayed month,
      and the entry lists exactly those tasks' counts and priorities, in order. */
  lemma {:induction false} GroupMeaning(ts: seq<CalTask>, cur: YearMonth, day: int)
    ensures day in Group(ts, cur) <==> |TasksOn(ts, cur, day)| > 0
    ensures day in Group(ts, cur) ==>
      Group(ts, cur)[day] == DayData(Counts(TasksOn(ts, cur, day)), Priorities(TasksOn(ts, cur, day)))
  {
    if |ts| > 0 {
      var init := ts[..|ts| - 1];
      GroupMeaning(init, cur, day);
      var t := ts[|ts| - 1];
      var before := TasksOn(init, cur, day);
      if OnDay(t, cur, day) {
        assert Counts(before + [t]) == Counts(before) + [t.taskCount];
        assert Priorities(before + [t]) == Priorities(before) + [t.priority];
      }
    }
  }

  /** Tasks none of which is scheduled in the displayed year leave the calendar empty. */
  lemma {:induction false} GroupOtherYear(ts: seq<CalTask>, cur: YearMonth)
    requires forall i :: 0 <= i < |ts| ==> ts[i].scheduled.Some? && ts[i].scheduled.value.year != cur.year
    ensures Group(ts, cur) == map[]
  {
    if |ts| > 0 {
      GroupOtherYear(ts[..|ts| - 1], cur);
    }
  }

  /** The demonstration tasks show only when the displayed year is 2025. */
  lemma DemoTasksOnlyIn2025(cur: YearMonth)
    requires cur.year != 2025
    ensures Group(DemoTasks(cur.month), cur) == map[]
  {
    GroupOtherYear(DemoTasks(cur.month), cur);
  }

  // ---------------------------------------------------------------------------
  // Day cells and the grid

  /** `[...new Set(s)]`: the first occurrence of each value, in order. */
  function Dedup(s: seq<Json>): (r: seq<Json>)
    ensures forall x :: x in r <==> x in s
    ensures forall i, j :: 0 <= i < j < |r| ==> r[i] != r[j]
    ensures |r| <= |s|
  {
    if |s| == 0 then []
    else
      var init := s[..|s| - 1];
      var last := s[|s| - 1];
      assert forall x :: x in s <==> x in init || x == last;
      if last in init then Dedup(init) else Dedup(init) + [last]
  }

  /** Keeping first occurrences: a value already seen adds nothing. */
  lemma DedupSeen(s: seq<Json>, x: Json)
    requires x in s
    ensures Dedup(s + [x]) == Dedup(s)
  {
    assert (s + [x])[..|s|] == s;
  }

  /** A value not seen before is appended at the end: `Set` iterates in insertion order. */
  lemma DedupFresh(s: seq<Json>, x: Json)
    requires x !in s
    ensures Dedup(s + [x]) == Dedup(s) + [x]
  {
  }

  function Take3(s: seq<Json>): (r: seq<Json>)
    ensures |r| <= 3 && |r| <= |s| && r == s[..|r|]
    ensures |s| <= 3 ==> r == s
  {
    if |s| <= 3 then s else s[..3]
  }

  datatype Cell = Blank | Day(n: int, total: int, badges: seq<string>)

  /** A day cell: the day's summed task count and, when positive, up to three badges of its
      distinct priorities. */
  function DayCell(n: int, g: map<int, DayData>): (c: Cell)
    ensures c.Day? && c.n == n
    ensures n !in g ==> c.total == 0 && c.badges == []
    ensures n in g ==> c.total == Numeric.Sum(g[n].counts)
    ensures |c.badges| <= 3
    ensures c.total <= 0 ==> c.badges == []
    ensures n in g && c.total > 0 ==>
      var d := Dedup(g[n].priorities);
      |c.badges| == (if |d| < 3 then |d| else 3)
      && forall i :: 0 <= i < |c.badges| ==> c.badges[i] == PriorityBadge(Some(d[i]))
  {
    if n in g then
      var total := Numeric.Sum(g[n].counts);
      var shown := Take3(Dedup(g[n].priorities));
      Day(n, total, if total > 0 then seq(|shown|, i requires 0 <= i < |shown| => PriorityBadge(Some(shown[i]))) else [])
    else Day(n, 0, [])
  }

  /** The grid: `firstDay` blank cells, then one cell per day 1..`daysInMonth` in order. */
  method BuildGrid(firstDay: nat, daysInMonth: nat, g: map<int, DayData>) returns (cells: seq<Cell>)
    ensures |cells| == firstDay + daysInMonth
    ensures forall i :: 0 <= i < firstDay ==> cells[i] == Blank
    ensures forall k :: 1 <= k <= daysInMonth ==> cells[firstDay + k - 1] == DayCell(k, g)
  {
    cells := [];
    var i := 0;
    while i < firstDay
      invariant 0 <= i <= firstDay && |cells| == i
      invariant forall j :: 0 <= j < i ==> cells[j] == Blank
    {
      cells := cells + [Blank];
      i := i + 1;
    }
    var d := 1;
    while d <= daysInMonth
      invariant 1 <= d <= daysInMonth + 1
      invariant |cells| == firstDay + d - 1
      invariant forall j :: 0 <= j < firstDay ==> cells[j] == Blank
      invariant forall k :: 1 <= k < d ==> cells[firstDay + k - 1] == DayCell(k, g)
    {
      cells := cells + [DayCell(d, g)];
      d := d + 1;
    }
  }

  /** The grid of the displayed month for the given tasks: blanks up to the first
      weekday, then every day of the month. */
  method MonthGrid(cur: YearMonth, ts: seq<CalTask>) returns (cells: seq<Cell>)
    ensures |cells| == FirstDay(cur) + DaysInMonth(cur)
    ensures forall i :: 0 <= i < FirstDay(cur) ==> cells[i] == Blank
    ensures forall k :: 1 <= k <= DaysInMonth(cur) ==> cells[FirstDay(cur) + k - 1] == DayCell(k, Group(ts, cur))
  {
    var first := FirstDay(cur);
    var days := DaysInMonth(cur);
    var g := Group(ts, cur);
    cells := BuildGrid(first, days, g);
  }
}
