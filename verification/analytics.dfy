/** The analytics page's data shaping (src/pages/analytics.page.jsx): the range parameter,
    the timeseries points, the distribution slices, team performance, the stat-card
    percentages and the legend shares. A `TypeError` raised while shaping is `Threw`. */
module Analytics {
  import opened Wrappers
  import opened Json
  import Numeric

  /** `rangeParam`: the query parameter for the selected range. */
  function RangeParam(dateRange: string): (r: string)
    ensures r in {"weekly", "monthly", "yearly"}
    ensures r == "weekly" <==> dateRange == "Weekly"
    ensures r == "yearly" <==> dateRange == "Yearly"
  {
    match dateRange
    case "Weekly" => "weekly"
    case "Yearly" => "yearly"
    case _ => "monthly"
  }

  // ---------------------------------------------------------------------------
  // Timeseries

  /** A chart point; None stands for NaN. */
  datatype Point = Point(name: Json, completed: Option<int>, overdue: Option<int>)

  /** `Number(arr[i] ?? 0)` */
  function Entry(arr: Val, i: nat): Option<int> {
    ToNumber(Coalesce(Index(arr, i), Some(JNum(0))))
  }

  /** `timeseriesData`: one point per label, zipping `completed` and `overdue` by position. */
  function Timeseries(resp: Val): (r: seq<Point>)
    ensures var ts := Get(resp, "data");
            !Truthy(ts) || !IsArray(Get(ts, "labels")) ==> r == []
    ensures var ts := Get(resp, "data");
            Truthy(ts) && IsArray(Get(ts, "labels")) ==>
              var labels := Get(ts, "labels").value.items;
              |r| == |labels| && forall i :: 0 <= i < |r| ==> r[i].name == labels[i]
  {
    var ts := Get(resp, "data");
    if !Truthy(ts) || !IsArray(Get(ts, "labels")) then []
    else
      var labels := Get(ts, "labels").value.items;
      var completed := Or(Get(ts, "completed"), Some(JArr([])));
      var overdue := Or(Get(ts, "overdue"), Some(JArr([])));
      seq(|labels|, i requires 0 <= i < |labels| => Point(labels[i], Entry(completed, i), Entry(overdue, i)))
  }

  /** Zipping by position: a missing, falsy or too-short `completed` series reads as 0 at
      that label, and a numeric entry reads as itself; likewise for `overdue`. */
  lemma TimeseriesDefaults(resp: Val, i: nat)
    requires var ts := Get(resp, "data"); Truthy(ts) && IsArray(Get(ts, "labels"))
    requires i < |Get(Get(resp, "data"), "labels").value.items|
    ensures var ts := Get(resp, "data");
            var c := Get(ts, "completed");
            && (!Truthy(c) || (IsArray(c) && i >= |c.value.items|) ==> Timeseries(resp)[i].completed == Some(0))
            && (IsArray(c) && i < |c.value.items| && c.value.items[i].JNum? ==>
                  Timeseries(resp)[i].completed == Some(c.value.items[i].n))
    ensures var ts := Get(resp, "data");
            var o := Get(ts, "overdue");
            && (!Truthy(o) || (IsArray(o) && i >= |o.value.items|) ==> Timeseries(resp)[i].overdue == Some(0))
            && (IsArray(o) && i < |o.value.items| && o.value.items[i].JNum? ==>
                  Timeseries(resp)[i].overdue == Some(o.value.items[i].n))
  {
  }

  // ---------------------------------------------------------------------------
  // Distribution

  /** `Number(v) || 0` summed over a series (`reduce` from 0). */
  function SeriesTotal(data: seq<Json>): int {
    Numeric.Sum(seq(|data|, i requires 0 <= i < |data| => NumberOrZero(Some(data[i]))))
  }

  /** Summing a series splits over concatenation, so each value is counted once. */
  lemma SeriesTotalAppend(a: seq<Json>, b: seq<Json>)
    ensures SeriesTotal(a + b) == SeriesTotal(a) + SeriesTotal(b)
  {
    assert seq(|a + b|, i requires 0 <= i < |a + b| => NumberOrZero(Some((a + b)[i])))
        == seq(|a|, i requires 0 <= i < |a| => NumberOrZero(Some(a[i])))
         + seq(|b|, i requires 0 <= i < |b| => NumberOrZero(Some(b[i])));
    Numeric.SumAppend(seq(|a|, i requires 0 <= i < |a| => NumberOrZero(Some(a[i]))),
                      seq(|b|, i requires 0 <= i < |b| => NumberOrZero(Some(b[i]))));
  }

  const DefaultSliceColor: string := "#9CA3AF"

  datatype Slice = Slice(name: Val, value: int, color: Json)

  /** The distribution is either the server's own array, passed through untouched, or
      the slices built from its series. */
  datatype DistData = Passthrough(items: seq<Json>) | Slices(slices: seq<Slice>)

  function SliceOf(s: Json): (r: Slice)
    requires s != JNull
    ensures r.name == Get(Some(s), "name")
    ensures IsArray(Get(Some(s), "data")) ==> r.value == SeriesTotal(Get(Some(s), "data").value.items)
    ensures !IsArray(Get(Some(s), "data")) ==> r.value == 0
    ensures r.color == if Truthy(Get(Some(s), "color")) then Get(Some(s), "color").value else JStr(DefaultSliceColor)
  {
    var data := Get(Some(s), "data");
    Slice(Get(Some(s), "name"),
          if IsArray(data) then SeriesTotal(data.value.items) else 0,
          OrDefault(Get(Some(s), "color"), JStr(DefaultSliceColor)))
  }

  /** `taskDistributionData`; reading `s.name` of a `null` series entry throws. */
  function Distribution(resp: Val): (r: Eval<DistData>)
    ensures var d := Get(resp, "data");
            !Truthy(d) ==> r == Done(Slices([]))
    ensures var d := Get(resp, "data");
            Truthy(d) && IsArray(Get(d, "taskDistributionData")) ==>
              r == Done(Passthrough(Get(d, "taskDistributionData").value.items))
    ensures var d := Get(resp, "data");
            var series := ArrayOr(Get(d, "series"));
            Truthy(d) && !IsArray(Get(d, "taskDistributionData")) ==>
              && (r.Threw? <==> JNull in series)
              && (r.Done? ==> (r.value.Slices? && |r.value.slices| == |series|
                               && forall i :: 0 <= i < |series| ==> r.value.slices[i] == SliceOf(series[i])))
  {
    var d := Get(resp, "data");
    if !Truthy(d) then Done(Slices([]))
    else if IsArray(Get(d, "taskDistributionData")) then Done(Passthrough(Get(d, "taskDistributionData").value.items))
    else
      var series := ArrayOr(Get(d, "series"));
      if JNull in series then Threw
      else Done(Slices(seq(|series|, i requires 0 <= i < |series| => SliceOf(series[i]))))
  }

  // ---------------------------------------------------------------------------
  // Team performance

  datatype Member = Member(name: Val, tasks: Json)

  /** Whether the top-subtasks response has the per-label shape: its first task carries a
      `data` array. */
  predicate SeriesShape(tasks: seq<Json>) {
    |tasks| > 0 && IsArray(Get(Some(tasks[0]), "data"))
  }

  /** `teamPerformanceData`. In the per-label shape every task's `data` is summed (a task
      without a `data` array throws); otherwise `subtaskCount || 0` is shown. A `null`
      task throws in both shapes. */
  function TeamPerformance(resp: Val): (r: Eval<seq<Member>>)
    ensures var tasks := ArrayOr(Get(Get(resp, "data"), "tasks"));
            && (r.Done? ==> |r.value| == |tasks|)
            && (r.Done? ==> forall i :: 0 <= i < |tasks| ==> r.value[i].name == Get(Some(tasks[i]), "taskName"))
            && (SeriesShape(tasks) ==>
                 (r.Done? <==> forall i :: 0 <= i < |tasks| ==> tasks[i] != JNull && IsArray(Get(Some(tasks[i]), "data"))))
            && (SeriesShape(tasks) && r.Done? ==>
                 forall i :: 0 <= i < |tasks| ==> r.value[i].tasks == JNum(SeriesTotal(Get(Some(tasks[i]), "data").value.items)))
            && (!SeriesShape(tasks) ==> (r.Done? <==> JNull !in tasks))
            && (!SeriesShape(tasks) && r.Done? ==>
                 forall i :: 0 <= i < |tasks| ==> r.value[i].tasks == OrDefault(Get(Some(tasks[i]), "subtaskCount"), JNum(0)))
  {
    var tasks := ArrayOr(Get(Get(resp, "data"), "tasks"));
    if SeriesShape(tasks) then
      if exists i :: 0 <= i < |tasks| && (tasks[i] == JNull || !IsArray(Get(Some(tasks[i]), "data"))) then Threw
      else Done(seq(|tasks|, i requires 0 <= i < |tasks| =>
                  Member(Get(Some(tasks[i]), "taskName"), JNum(SeriesTotal(Get(Some(tasks[i]), "data").value.items)))))
    else if JNull in tasks then Threw
    else Done(seq(|tasks|, i requires 0 <= i < |tasks| =>
                Member(Get(Some(tasks[i]), "taskName"), OrDefault(Get(Some(tasks[i]), "subtaskCount"), JNum(0)))))
  }

  /** In the per-label shape a task's bar adds up its labels: splitting the labels into two
      runs splits the bar into their two sums. */
  lemma TeamBarSplits(resp: Val, i: nat, a: seq<Json>, b: seq<Json>)
    requires TeamPerformance(resp).Done?
    requires SeriesShape(ArrayOr(Get(Get(resp, "data"), "tasks")))
    requires i < |ArrayOr(Get(Get(resp, "data"), "tasks"))|
    requires Get(Some(ArrayOr(Get(Get(resp, "data"), "tasks"))[i]), "data") == Some(JArr(a + b))
    ensures TeamPerformance(resp).value[i].tasks == JNum(SeriesTotal(a) + SeriesTotal(b))
  {
    SeriesTotalAppend(a, b);
  }

  // ---------------------------------------------------------------------------
  // Percentages

  /** `total > 0 ? Math.round((count / total) * 100) : 0`, with JavaScript's numeric
      reading of both operands; None is NaN (a non-numeric count over a positive total). */
  function StatPercent(count: Val, total: Val): (r: Option<int>)
    ensures !(ToNumber(total).Some? && ToNumber(total).value > 0) ==> r == Some(0)
    ensures ToNumber(total).Some? && ToNumber(total).value > 0 ==>
      (r.None? <==> ToNumber(count).None?)
    ensures r.Some? && ToNumber(total).Some? && ToNumber(count).Some? && 0 <= ToNumber(count).value <= ToNumber(total).value ==>
      0 <= r.value <= 100
  {
    var t := ToNumber(total);
    if t.Some? && t.value > 0 then
      match ToNumber(count)
      case None => None
      case Some(c) =>
        if 0 <= c <= t.value then Numeric.PercentRange(c, t.value); Some(Numeric.Percent(c, t.value))
        else Some(Numeric.Percent(c, t.value))
    else Some(0)
  }

  /** The two computed stat-card percentages: completed and overdue tasks over all tasks,
      each field read with `?? 0`. */
  function StatCardPercentages(summary: Val, overdueResp: Val): (r: (Option<int>, Option<int>))
    ensures var total := Coalesce(Get(Get(summary, "data"), "totalTasks"), Some(JNum(0)));
            !(ToNumber(total).Some? && ToNumber(total).value > 0) ==> r == (Some(0), Some(0))
    ensures var total := Get(Get(summary, "data"), "totalTasks");
            Nullish(total) ==> r == (Some(0), Some(0))
    ensures var zero := Some(JNum(0));
            var total := Coalesce(Get(Get(summary, "data"), "totalTasks"), zero);
            r.0 == StatPercent(Coalesce(Get(Get(summary, "data"), "completedTasks"), zero), total)
            && r.1 == StatPercent(Coalesce(Get(Get(overdueResp, "data"), "overdueTasks"), zero), total)
    ensures var d := Get(summary, "data");
            var t := ToNumber(Coalesce(Get(d, "totalTasks"), Some(JNum(0))));
            var c := ToNumber(Coalesce(Get(d, "completedTasks"), Some(JNum(0))));
            t.Some? && t.value > 0 && c.Some? && 0 <= c.value <= t.value ==>
              r.0 == Some(Numeric.Percent(c.value, t.value)) && 0 <= r.0.value <= 100
  {
    var zero := Some(JNum(0));
    var total := Coalesce(Get(Get(summary, "data"), "totalTasks"), zero);
    (StatPercent(Coalesce(Get(Get(summary, "data"), "completedTasks"), zero), total),
     StatPercent(Coalesce(Get(Get(overdueResp, "data"), "overdueTasks"), zero), total))
  }

  /** The legend total: `Number(it.value) || 0` summed over the slices. */
  function LegendTotal(values: seq<Val>): int {
    Numeric.Sum(seq(|values|, i requires 0 <= i < |values| => NumberOrZero(values[i])))
  }

  /** The legend text of one slice: its rounded share of the total, or "0%" when the total
      is not positive. */
  function LegendShare(values: seq<Val>, k: nat): (r: string)
    requires k < |values|
    ensures LegendTotal(values) <= 0 ==> r == "0%"
    ensures LegendTotal(values) > 0 ==> r == IntToString(Numeric.Percent(NumberOrZero(values[k]), LegendTotal(values))) + "%"
  {
    var total := LegendTotal(values);
    if total > 0 then IntToString(Numeric.Percent(NumberOrZero(values[k]), total)) + "%" else "0%"
  }

  /** With non-negative values, each value is at most the total, so every share is a
      percentage in [0, 100]. */
  lemma LegendShareRange(values: seq<Val>, k: nat)
    requires k < |values|
    requires forall i :: 0 <= i < |values| ==> NumberOrZero(values[i]) >= 0
    ensures 0 <= NumberOrZero(values[k]) <= LegendTotal(values)
    ensures LegendTotal(values) > 0 ==> 0 <= Numeric.Percent(NumberOrZero(values[k]), LegendTotal(values)) <= 100
  {
    var s := seq(|values|, i requires 0 <= i < |values| => NumberOrZero(values[i]));
    SumAtLeastElement(s, k);
    if LegendTotal(values) > 0 {
      Numeric.PercentRange(NumberOrZero(values[k]), LegendTotal(values));
    }
  }

  /** In a sequence of non-negative numbers, each element is at most the sum. */
  lemma {:induction false} SumAtLeastElement(s: seq<int>, k: nat)
    requires k < |s|
    requires forall i :: 0 <= i < |s| ==> s[i] >= 0
    ensures s[k] <= Numeric.Sum(s)
  {
    var init := s[..|s| - 1];
    if k == |s| - 1 {
      Numeric.SumNonNegative(init);
    } else {
      SumAtLeastElement(init, k);
    }
  }
}
