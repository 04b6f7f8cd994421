/** The dashboard's aggregation (src/pages/dashboard.page.jsx): task counts, rounded
    percentages, the three-slice distribution, created-per-day counts for the last week,
    the three most recent tasks and the creation streak.

    The current time `now` is a parameter in milliseconds; `dayOf` maps a time value to
    its local calendar day as a day number (consecutive days have consecutive numbers),
    so `formatDateKey(startOfDay(d))` is `dayOf(d)`; `parse` is `Date.parse`. */
module Dashboard {
  import opened Wrappers
  import opened Text
  import opened Json
  import opened TasksList
  import Numeric
  import Sorting

  // ---------------------------------------------------------------------------
  // Reading tasks

  /** `extractTasksArray`: the task array of the `getAllTasks` response. */
  function ExtractTasks(response: Val): seq<Json> {
    var data := Get(response, "data");
    if !Truthy(response) then []
    else if IsArray(response) then response.value.items
    else if IsArray(data) then data.value.items
    else if IsArray(Get(response, "tasks")) then Get(response, "tasks").value.items
    else if Truthy(data) && IsArray(Get(data, "tasks")) then Get(data, "tasks").value.items
    else []
  }

  /** The envelopes are tried in a fixed order: the response itself, `.data`, `.tasks`,
      `.data.tasks`; with none an array, no tasks. */
  lemma ExtractTasksPrecedence(response: Val)
    ensures ExtractTasks(response) == FirstArray([
      response,
      Get(response, "data"),
      Get(response, "tasks"),
      Get(Get(response, "data"), "tasks")])
  {
    var data := Get(response, "data");
    var d := [Get(data, "tasks")];
    var c := [Get(response, "tasks")] + d;
    var b := [data] + c;
    FirstArrayCons(response, b);
    FirstArrayCons(data, c);
    FirstArrayCons(Get(response, "tasks"), d);
    FirstArrayCons(Get(data, "tasks"), []);
    assert [response] + b == [response, data, Get(response, "tasks"), Get(data, "tasks")];
  }

  /** `clampPercent`: `Number(value)` clamped to [0, 100], with NaN read as 0. */
  function ClampPercent(value: Val): (r: int)
    ensures 0 <= r <= 100
    ensures ToNumber(value).None? ==> r == 0
    ensures ToNumber(value).Some? && 0 <= ToNumber(value).value <= 100 ==> r == ToNumber(value).value
    ensures ToNumber(value).Some? && ToNumber(value).value > 100 ==> r == 100
    ensures ToNumber(value).Some? && ToNumber(value).value < 0 ==> r == 0
  {
    match ToNumber(value)
    case None => 0
    case Some(n) => if n < 0 then 0 else if n > 100 then 100 else n
  }

  /** The fields `getDueDate` consults, in order. */
  const DueFields: seq<string> := ["scheduledDate", "dueDate", "deadline", "date"]

  /** The first valid date among `fields` of `task`. */
  function FirstDate(task: Json, fields: seq<string>, parse: string -> Option<int>): Option<int> {
    if |fields| == 0 then None
    else
      var here := CoerceDate(Get(Some(task), fields[0]), parse);
      if here.Some? then here else FirstDate(task, fields[1..], parse)
  }

  /** The first valid date is None exactly when no field holds one, and otherwise the
      value of a field all of whose predecessors hold none. */
  lemma {:induction false} FirstDateMeaning(task: Json, fields: seq<string>, parse: string -> Option<int>)
    ensures var r := FirstDate(task, fields, parse);
      && (r.None? <==> forall i :: 0 <= i < |fields| ==> CoerceDate(Get(Some(task), fields[i]), parse).None?)
      && (r.Some? ==> exists i :: 0 <= i < |fields| && r == CoerceDate(Get(Some(task), fields[i]), parse)
                                   && forall j :: 0 <= j < i ==> CoerceDate(Get(Some(task), fields[j]), parse).None?)
  {
    if |fields| > 0 && CoerceDate(Get(Some(task), fields[0]), parse).None? {
      var t := fields[1..];
      FirstDateMeaning(task, t, parse);
      assert forall i :: 1 <= i < |fields| ==> fields[i] == t[i - 1];
      var r := FirstDate(task, t, parse);
      if r.Some? {
        var i :| 0 <= i < |t| && r == CoerceDate(Get(Some(task), t[i]), parse)
                 && forall j :: 0 <= j < i ==> CoerceDate(Get(Some(task), t[j]), parse).None?;
        assert forall j :: 0 <= j < i + 1 ==> CoerceDate(Get(Some(task), fields[j]), parse).None?;
      }
    }
  }

  /** `getDueDate`: a Date object is always truthy, so `||` picks the first valid date. */
  function DueDate(task: Json, parse: string -> Option<int>): (r: Option<int>)
    ensures r.None? <==> forall i :: 0 <= i < |DueFields| ==> CoerceDate(Get(Some(task), DueFields[i]), parse).None?
    ensures r.Some? ==> exists i :: 0 <= i < |DueFields| && r == CoerceDate(Get(Some(task), DueFields[i]), parse)
                                    && forall j :: 0 <= j < i ==> CoerceDate(Get(Some(task), DueFields[j]), parse).None?
  {
    FirstDateMeaning(task, DueFields, parse);
    FirstDate(task, DueFields, parse)
  }

  /** `resolveAssetUrl`, with the API origin of the source. */
  const AssetOrigin: string := "http://localhost:3000"

  function ResolveAssetUrl(maybeUrl: Val): (r: Option<string>)
    ensures !(Truthy(maybeUrl) && maybeUrl.value.JStr?) <==> r.None?
    ensures r.Some? ==> var u := maybeUrl.value.s;
      r.value == (if StartsWith(u, "/") && !StartsWith(u, "http://") && !StartsWith(u, "https://") then AssetOrigin + u else u)
  {
    if !Truthy(maybeUrl) || !maybeUrl.value.JStr? then None
    else
      var u := maybeUrl.value.s;
      if StartsWith(u, "http://") || StartsWith(u, "https://") then Some(u)
      else if StartsWith(u, "/") then Some(AssetOrigin + u)
      else Some(u)
  }

  /** Resolving a resolved URL changes nothing: the result is absolute or left as given. */
  lemma ResolveAssetUrlIdempotent(maybeUrl: Val)
    requires ResolveAssetUrl(maybeUrl).Some?
    ensures ResolveAssetUrl(Some(JStr(ResolveAssetUrl(maybeUrl).value))) == ResolveAssetUrl(maybeUrl)
  {
  }

  // ---------------------------------------------------------------------------
  // Counts

  predicate IsDone(t: Json) {
    Completion(Some(t))
  }

  /** Overdue: not complete, with a due date strictly before now. */
  predicate Overdue(t: Json, now: int, parse: string -> Option<int>) {
    !IsDone(t) && DueDate(t, parse).Some? && DueDate(t, parse).value < now
  }

  function CountDone(tasks: seq<Json>): nat {
    if |tasks| == 0 then 0
    else CountDone(tasks[..|tasks| - 1]) + (if IsDone(tasks[|tasks| - 1]) then 1 else 0)
  }

  function CountOverdue(tasks: seq<Json>, now: int, parse: string -> Option<int>): nat {
    if |tasks| == 0 then 0
    else CountOverdue(tasks[..|tasks| - 1], now, parse) + (if Overdue(tasks[|tasks| - 1], now, parse) then 1 else 0)
  }

  /** A task is never both completed and overdue, so the two counts fit in the total. */
  lemma {:induction false} CountsFitTotal(tasks: seq<Json>, now: int, parse: string -> Option<int>)
    ensures CountDone(tasks) + CountOverdue(tasks, now, parse) <= |tasks|
  {
    if |tasks| > 0 {
      CountsFitTotal(tasks[..|tasks| - 1], now, parse);
    }
  }

  datatype Slice = Slice(name: string, value: int, color: string)

  /** The distribution pie: completed, overdue and the remainder, in percent. */
  function Distribution(total: int, completed: int, overdue: int): (r: seq<Slice>)
    ensures |r| == 3
    ensures r[0].name == "Completed" && r[1].name == "Overdue" && r[2].name == "Pending"
    ensures r[0].color == "#F0F0F0" && r[1].color == "#A855F7" && r[2].color == "#4B5563"
    ensures total == 0 ==> r[0].value == 0 && r[1].value == 0 && r[2].value == 0
    ensures r[2].value >= 0
    ensures total > 0 ==> r[0].value == Numeric.Percent(completed, total) && r[1].value == Numeric.Percent(overdue, total)
    ensures r[0].value + r[1].value <= 100 ==> r[0].value + r[1].value + r[2].value == 100 || total == 0
  {
    if total != 0 then
      var c := Numeric.Percent(completed, total);
      var o := Numeric.Percent(overdue, total);
      [Slice("Completed", c, "#F0F0F0"),
       Slice("Overdue", o, "#A855F7"),
       Slice("Pending", if 100 - c - o > 0 then 100 - c - o else 0, "#4B5563")]
    else
      [Slice("Completed", 0, "#F0F0F0"), Slice("Overdue", 0, "#A855F7"), Slice("Pending", 0, "#4B5563")]
  }

  /** With tasks present the slices add up to 100, or to 101 when both rounded shares
      round up; pending is then clamped to 0. */
  lemma DistributionSum(total: nat, completed: nat, overdue: nat)
    requires total > 0 && completed + overdue <= total
    ensures var r := Distribution(total, completed, overdue);
            r[0].value + r[1].value + r[2].value in {100, 101}
  {
    Numeric.PercentPairAtMost101(completed, overdue, total);
    Numeric.PercentRange(completed, total);
    Numeric.PercentRange(overdue, total);
  }

  /** One completed and seven overdue tasks out of eight show 13% + 88% + 0%. */
  lemma DistributionCanSumTo101()
    ensures var r := Distribution(8, 1, 7);
            r[0].value == 13 && r[1].value == 88 && r[2].value == 0
  {
  }

  // ---------------------------------------------------------------------------
  // Creation days

  function CreatedAt(t: Json, parse: string -> Option<int>): Option<int> {
    CoerceDate(Get(Some(t), "createdAt"), parse)
  }

  /** The local day each task was created on, None when `createdAt` is missing or invalid. */
  function CreatedDays(tasks: seq<Json>, parse: string -> Option<int>, dayOf: int -> int): (r: seq<Option<int>>)
    ensures |r| == |tasks|
    ensures forall i :: 0 <= i < |tasks| ==>
      r[i] == (if CreatedAt(tasks[i], parse).Some? then Some(dayOf(CreatedAt(tasks[i], parse).value)) else None)
  {
    seq(|tasks|, i requires 0 <= i < |tasks| =>
      if CreatedAt(tasks[i], parse).Some? then Some(dayOf(CreatedAt(tasks[i], parse).value)) else None)
  }

  /** How many of `days` are day `d`. */
  function OnDay(days: seq<Option<int>>, d: int): nat {
    if |days| == 0 then 0
    else OnDay(days[..|days| - 1], d) + (if days[|days| - 1] == Some(d) then 1 else 0)
  }

  /** How many of `days` lie in [lo, hi). */
  function Within(days: seq<Option<int>>, lo: int, hi: int): (n: nat)
    ensures n <= |days|
  {
    if |days| == 0 then 0
    else
      var last := days[|days| - 1];
      Within(days[..|days| - 1], lo, hi) + (if last.Some? && lo <= last.value < hi then 1 else 0)
  }

  lemma {:induction false} WithinExtend(days: seq<Option<int>>, lo: int, hi: int)
    requires lo <= hi
    ensures Within(days, lo, hi + 1) == Within(days, lo, hi) + OnDay(days, hi)
  {
    if |days| > 0 {
      WithinExtend(days[..|days| - 1], lo, hi);
    }
  }

  /** The created-per-day counts of the `n` days from `lo`. */
  function DayCounts(days: seq<Option<int>>, lo: int, n: nat): (r: seq<int>)
    ensures |r| == n
    ensures forall i :: 0 <= i < n ==> r[i] == OnDay(days, lo + i)
  {
    seq(n, i requires 0 <= i < n => OnDay(days, lo + i))
  }

  /** The per-day counts add up to the tasks created in the whole window. */
  lemma {:induction false} DayCountsSum(days: seq<Option<int>>, lo: int, n: nat)
    ensures Numeric.Sum(DayCounts(days, lo, n)) == Within(days, lo, lo + n)
  {
    if n == 0 {
      assert Within(days, lo, lo) == 0 by {
        WithinEmpty(days, lo);
      }
    } else {
      DayCountsSum(days, lo, n - 1);
      assert DayCounts(days, lo, n)[..n - 1] == DayCounts(days, lo, n - 1);
      WithinExtend(days, lo, lo + n - 1);
    }
  }

  lemma {:induction false} WithinEmpty(days: seq<Option<int>>, lo: int)
    ensures Within(days, lo, lo) == 0
  {
    if |days| > 0 {
      WithinEmpty(days[..|days| - 1], lo);
    }
  }

  /** The productivity bars: tasks created on each of the seven days ending today. */
  function Productivity(days: seq<Option<int>>, today: int): (r: seq<int>)
    ensures |r| == 7
    ensures forall i :: 0 <= i < 7 ==> r[i] == OnDay(days, today - 6 + i)
  {
    DayCounts(days, today - 6, 7)
  }

  /** The bars count each task created in the last seven days exactly once, so their sum
      is at most the number of tasks. */
  lemma ProductivityTotal(days: seq<Option<int>>, today: int)
    ensures Numeric.Sum(Productivity(days, today)) == Within(days, today - 6, today + 1)
    ensures Numeric.Sum(Productivity(days, today)) <= |days|
  {
    DayCountsSum(days, today - 6, 7);
  }

  /** The set of days with at least one created task. */
  function DaySet(days: seq<Option<int>>): (r: set<int>)
    ensures forall d :: d in r <==> Some(d) in days
  {
    set i | 0 <= i < |days| && days[i].Some? :: days[i].value
  }

  function Back(today: int, k: int): int {
    today - k
  }

  /** The streak: how many consecutive days, counting back from today, have a created
      task; the count stops at the first gap and never exceeds 365. */
  function StreakFrom(created: set<int>, today: int, i: nat): (r: nat)
    requires i <= 365
    requires forall k :: 0 <= k < i ==> Back(today, k) in created
    ensures i <= r <= 365
    ensures forall k :: 0 <= k < r ==> Back(today, k) in created
    ensures r < 365 ==> Back(today, r) !in created
    decreases 365 - i
  {
    if i == 365 || Back(today, i) !in created then i
    else StreakFrom(created, today, i + 1)
  }

  function StreakLength(created: set<int>, today: int): (r: nat)
    ensures r <= 365
    ensures forall k :: 0 <= k < r ==> Back(today, k) in created
    ensures r < 365 ==> Back(today, r) !in created
  {
    StreakFrom(created, today, 0)
  }

  /** The source's loop: counts days back from today while each is in `created`. */
  method Streak(created: set<int>, today: int) returns (streak: nat)
    ensures streak <= 365
    ensures forall k :: 0 <= k < streak ==> Back(today, k) in created
    ensures streak < 365 ==> Back(today, streak) !in created
    ensures streak == StreakLength(created, today)
  {
    streak := 0;
    var i := 0;
    while i < 365
      invariant 0 <= i <= 365 && streak == i
      invariant forall k :: 0 <= k < i ==> Back(today, k) in created
      invariant StreakFrom(created, today, i) == StreakLength(created, today)
    {
      if Back(today, i) !in created {
        break;
      }
      streak := streak + 1;
      i := i + 1;
    }
  }

  // ---------------------------------------------------------------------------
  // Recently added

  /** A task with its valid creation time. */
  datatype Stamped = Stamped(raw: Json, createdAt: int)

  function StampKey(s: Stamped): Option<int> {
    Some(s.createdAt)
  }

  /** The stamp of one task: its own, or none when its `createdAt` is not a valid date. */
  function StampOf(t: Json, parse: string -> Option<int>): seq<Stamped> {
    var c := CreatedAt(t, parse);
    if c.Some? then [Stamped(t, c.value)] else []
  }

  /** The tasks with a valid `createdAt`, in order. */
  function Stamps(tasks: seq<Json>, parse: string -> Option<int>): (r: seq<Stamped>)
    ensures forall x :: x in r <==> x.raw in tasks && CreatedAt(x.raw, parse) == Some(x.createdAt)
    ensures |r| == Numeric.Count(tasks, (t: Json) => CreatedAt(t, parse).Some?)
  {
    if |tasks| == 0 then []
    else
      var last := tasks[|tasks| - 1];
      assert forall t :: t in tasks <==> t in tasks[..|tasks| - 1] || t == last;
      Stamps(tasks[..|tasks| - 1], parse) + StampOf(last, parse)
  }

  /** The stamps follow the task order: splitting the tasks anywhere splits the stamps at
      the same place. */
  lemma {:induction false} StampsAppend(a: seq<Json>, b: seq<Json>, parse: string -> Option<int>)
    ensures Stamps(a + b, parse) == Stamps(a, parse) + Stamps(b, parse)
    decreases |b|
  {
    if |b| == 0 {
      assert a + b == a;
    } else {
      var init := b[..|b| - 1];
      var ab := a + b;
      assert ab[..|ab| - 1] == a + init;
      assert ab[|ab| - 1] == b[|b| - 1];
      StampsAppend(a, init, parse);
      StampsStep(b, parse);
      StampsStep(ab, parse);
    }
  }

  /** A single task gives its own stamp or none. */
  lemma StampsSingle(t: Json, parse: string -> Option<int>)
    ensures Stamps([t], parse) == StampOf(t, parse)
  {
    assert [t][..0] == [];
  }

  /** One step of the stamps: the last task adds its own stamp or none. */
  lemma StampsStep(tasks: seq<Json>, parse: string -> Option<int>)
    requires |tasks| > 0
    ensures Stamps(tasks, parse) == Stamps(tasks[..|tasks| - 1], parse) + StampOf(tasks[|tasks| - 1], parse)
  {
  }

  function Min(a: int, b: int): int {
    if a < b then a else b
  }

  /** The `n` latest entries, newest first (ties keep their order). */
  function Latest(stamps: seq<Stamped>, n: nat): (r: seq<Stamped>)
    ensures |r| == Min(n, |stamps|)
    ensures multiset(r) <= multiset(stamps)
    ensures forall i, j :: 0 <= i < j < |r| ==> r[i].createdAt >= r[j].createdAt
  {
    var sorted := Sorting.SortDesc(stamps, StampKey);
    var k := Min(n, |sorted|);
    assert sorted == sorted[..k] + sorted[k..];
    assert forall i, j :: 0 <= i < j < k ==> Sorting.KeyGe(StampKey(sorted[i]), StampKey(sorted[j]));
    sorted[..k]
  }

  /** No entry left out is newer than any entry kept. */
  lemma LatestAreNewest(stamps: seq<Stamped>, n: nat, x: Stamped, i: int)
    requires x in multiset(stamps) - multiset(Latest(stamps, n))
    requires 0 <= i < |Latest(stamps, n)|
    ensures x.createdAt <= Latest(stamps, n)[i].createdAt
  {
    var sorted := Sorting.SortDesc(stamps, StampKey);
    var k := Min(n, |sorted|);
    var r := sorted[..k];
    assert sorted == r + sorted[k..];
    assert multiset(sorted) == multiset(r) + multiset(sorted[k..]);
    assert x in multiset(sorted[k..]);
    var j :| 0 <= j < |sorted[k..]| && sorted[k..][j] == x;
    assert Sorting.KeyGe(StampKey(sorted[i]), StampKey(sorted[k + j]));
  }

  /** A row of the "recently added" list; the locale date text is not modelled. */
  datatype Recent = Recent(id: Json, title: Json, createdAt: int)

  /** A row is always titled and keyed: the task's `taskName`, else its `title`, else
      "Untitled task"; the key is `_id`, else `id`, else the title. */
  function RecentOf(s: Stamped): (r: Recent)
    ensures Truthy(Some(r.title)) && Truthy(Some(r.id))
    ensures Truthy(Get(Some(s.raw), "taskName")) ==> r.title == Get(Some(s.raw), "taskName").value
    ensures !Truthy(Get(Some(s.raw), "taskName")) && Truthy(Get(Some(s.raw), "title")) ==>
      r.title == Get(Some(s.raw), "title").value
    ensures !Truthy(Get(Some(s.raw), "taskName")) && !Truthy(Get(Some(s.raw), "title")) ==>
      r.title == JStr("Untitled task")
    ensures Truthy(Get(Some(s.raw), "_id")) ==> r.id == Get(Some(s.raw), "_id").value
    ensures !Truthy(Get(Some(s.raw), "_id")) && Truthy(Get(Some(s.raw), "id")) ==> r.id == Get(Some(s.raw), "id").value
    ensures !Truthy(Get(Some(s.raw), "_id")) && !Truthy(Get(Some(s.raw), "id")) ==> r.id == r.title
    ensures r.createdAt == s.createdAt
  {
    var title := OrDefault(Or(Get(Some(s.raw), "taskName"), Get(Some(s.raw), "title")), JStr("Untitled task"));
    Recent(OrDefault(Or(Get(Some(s.raw), "_id"), Get(Some(s.raw), "id")), title), title, s.createdAt)
  }

  // ---------------------------------------------------------------------------
  // The whole aggregation

  /** The "recently added" rows: the three newest tasks with a valid `createdAt`. */
  function RecentlyAdded(tasks: seq<Json>, parse: string -> Option<int>): (r: seq<Recent>)
    ensures |r| == Min(3, |Stamps(tasks, parse)|)
    ensures forall i, j :: 0 <= i < j < |r| ==> r[i].createdAt >= r[j].createdAt
    ensures forall i :: 0 <= i < |r| ==> exists t :: t in tasks && CreatedAt(t, parse) == Some(r[i].createdAt)
    ensures forall x, i :: x in multiset(Stamps(tasks, parse)) - multiset(Latest(Stamps(tasks, parse), 3)) && 0 <= i < |r| ==>
      x.createdAt <= r[i].createdAt
  {
    var stamps := Stamps(tasks, parse);
    var latest := Latest(stamps, 3);
    LatestFromTasks(tasks, parse, latest);
    forall x, i | x in multiset(stamps) - multiset(latest) && 0 <= i < |latest|
      ensures x.createdAt <= latest[i].createdAt
    {
      LatestAreNewest(stamps, 3, x, i);
    }
    Rows(latest)
  }

  /** `.map(({ raw, createdAt }) => …)`: one row per entry, in order. */
  function Rows(latest: seq<Stamped>): (r: seq<Recent>)
    ensures |r| == |latest|
    ensures forall i :: 0 <= i < |r| ==> r[i] == RecentOf(latest[i]) && r[i].createdAt == latest[i].createdAt
  {
    seq(|latest|, i requires 0 <= i < |latest| => RecentOf(latest[i]))
  }

  /** Entries drawn from the stamps come from tasks with that valid `createdAt`. */
  lemma LatestFromTasks(tasks: seq<Json>, parse: string -> Option<int>, latest: seq<Stamped>)
    requires multiset(latest) <= multiset(Stamps(tasks, parse))
    ensures forall i :: 0 <= i < |latest| ==>
      exists t :: t in tasks && CreatedAt(t, parse) == Some(latest[i].createdAt)
  {
    forall i | 0 <= i < |latest|
      ensures exists t :: t in tasks && CreatedAt(t, parse) == Some(latest[i].createdAt)
    {
      assert latest[i] in multiset(latest);
      assert latest[i] in Stamps(tasks, parse);
      assert latest[i].raw in tasks && CreatedAt(latest[i].raw, parse) == Some(latest[i].createdAt);
    }
  }

  datatype Stats = Stats(total: nat, completed: nat, overdue: nat, completionAvg: int, onTimeDelivery: int, streakDays: nat)

  /** The two rate cards are the rounded percentages of completed and of not-overdue tasks. */
  predicate RatesFit(s: Stats) {
    s.completionAvg == Numeric.Percent(s.completed, s.total) &&
    s.onTimeDelivery == Numeric.Percent(s.total - s.overdue, s.total)
  }

  /** The stat cards. */
  function StatsOf(tasks: seq<Json>, now: int, parse: string -> Option<int>, dayOf: int -> int): (r: Stats)
    ensures r.total == |tasks|
    ensures r.completed == CountDone(tasks) && r.overdue == CountOverdue(tasks, now, parse)
    ensures r.completed + r.overdue <= r.total
    ensures r.total == 0 ==> r.completionAvg == 0 && r.onTimeDelivery == 0
    ensures 0 <= r.completionAvg <= 100 && 0 <= r.onTimeDelivery <= 100
    ensures RatesFit(r)
    ensures r.streakDays == StreakLength(DaySet(CreatedDays(tasks, parse, dayOf)), dayOf(now))
    ensures r.streakDays <= 365
  {
    CountsFitTotal(tasks, now, parse);
    MakeStats(|tasks|, CountDone(tasks), CountOverdue(tasks, now, parse), CreationStreak(tasks, now, parse, dayOf))
  }

  /** The stat cards for the given counts and streak. */
  function MakeStats(total: nat, completed: nat, overdue: nat, streak: nat): (r: Stats)
    requires completed + overdue <= total
    ensures r.total == total && r.completed == completed && r.overdue == overdue && r.streakDays == streak
    ensures RatesFit(r)
    ensures 0 <= r.completionAvg <= 100 && 0 <= r.onTimeDelivery <= 100
  {
    Stats(total, completed, overdue, Rate(completed, total), Rate(total - overdue, total), streak)
  }

  /** A stat-card rate: the rounded percentage of a part of the tasks. */
  function Rate(part: nat, total: nat): (r: int)
    requires part <= total
    ensures r == Numeric.Percent(part, total)
    ensures total == 0 ==> r == 0
    ensures 0 <= r <= 100
  {
    Numeric.PercentRange(part, total);
    Numeric.Percent(part, total)
  }

  /** `streakDays`: the creation streak ending at today's local day. */
  function CreationStreak(tasks: seq<Json>, now: int, parse: string -> Option<int>, dayOf: int -> int): (r: nat)
    ensures r <= 365
    ensures r == StreakLength(DaySet(CreatedDays(tasks, parse, dayOf)), dayOf(now))
  {
    StreakLength(DaySet(CreatedDays(tasks, parse, dayOf)), dayOf(now))
  }

  datatype Data = Data(stats: Stats, productivity: seq<int>, recent: seq<Recent>, distribution: seq<Slice>, pending: int)

  /** `dashboardData` for the `getAllTasks` response at time `now`. */
  function DashboardData(apiTasks: Val, now: int, parse: string -> Option<int>, dayOf: int -> int): (r: Data)
    ensures r.stats.total == |ExtractTasks(apiTasks)|
    ensures r.stats.completed + r.stats.overdue <= r.stats.total
    ensures r.pending == r.stats.total - r.stats.completed - r.stats.overdue
    ensures |r.distribution| == 3 && |r.productivity| == 7 && |r.recent| <= 3
    ensures Numeric.Sum(r.productivity) <= r.stats.total
    ensures r.stats == StatsOf(ExtractTasks(apiTasks), now, parse, dayOf)
    ensures r.distribution == Distribution(r.stats.total, r.stats.completed, r.stats.overdue)
    ensures r.productivity == Productivity(CreatedDays(ExtractTasks(apiTasks), parse, dayOf), dayOf(now))
    ensures r.recent == RecentlyAdded(ExtractTasks(apiTasks), parse)
  {
    var tasks := ExtractTasks(apiTasks);
    var stats := StatsOf(tasks, now, parse, dayOf);
    var days := CreatedDays(tasks, parse, dayOf);
    ProductivityTotal(days, dayOf(now));
    var pending := if stats.total - stats.completed - stats.overdue > 0 then stats.total - stats.completed - stats.overdue else 0;
    Data(stats, Productivity(days, dayOf(now)), RecentlyAdded(tasks, parse),
         Distribution(stats.total, stats.completed, stats.overdue), pending)
  }
}
