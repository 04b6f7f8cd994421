/** The task list's pure logic (src/features/tasks.list.jsx): reading completion flags,
    unwrapping the server's response envelopes, normalising API tasks, search, sort,
    the expanded-rows set and the attachment link and icon. The remote calls of the
    completion toggles and of deletion are in module CompletionEngine. */
module TasksList {
  import opened Wrappers
  import opened Text
  import opened Json
  import Sorting

  // ---------------------------------------------------------------------------
  // Completion reading and envelope unwrapping

  /** `getCompletionStatus`: `Boolean(item?.completionStatus ?? item?.completed ?? false)`. */
  predicate Completion(item: Val) {
    Truthy(Coalesce(Get(item, "completionStatus"), Coalesce(Get(item, "completed"), Some(JBool(false)))))
  }

  /** A record is complete exactly when `completionStatus` is present (neither null nor
      undefined) and truthy, or when it is absent and `completed` is truthy. */
  lemma CompletionReading(item: Val)
    ensures Completion(item) <==>
      var cs := Get(item, "completionStatus");
      (!Nullish(cs) && Truthy(cs)) || (Nullish(cs) && Truthy(Get(item, "completed")))
  {
  }

  /** `extractSubtasksArray`: the subtask array of a fetch response, whatever the envelope. */
  function ExtractSubtasks(response: Val): seq<Json> {
    var data := Get(response, "data");
    if !Truthy(response) then []
    else if IsArray(response) then response.value.items
    else if IsArray(data) then data.value.items
    else if Truthy(data) && IsArray(Get(data, "subtasks")) then Get(data, "subtasks").value.items
    else if Truthy(data) && Truthy(Get(data, "data")) && IsArray(Get(data, "data")) then Get(data, "data").value.items
    else if IsArray(Get(response, "subtasks")) then Get(response, "subtasks").value.items
    else []
  }

  /** The elements of the first array among `candidates`, or none when no candidate is one. */
  function FirstArray(candidates: seq<Val>): seq<Json> {
    if |candidates| == 0 then []
    else if IsArray(candidates[0]) then candidates[0].value.items
    else FirstArray(candidates[1..])
  }

  lemma FirstArrayCons(x: Val, rest: seq<Val>)
    ensures FirstArray([x] + rest) == if IsArray(x) then x.value.items else FirstArray(rest)
  {
    assert ([x] + rest)[1..] == rest;
  }

  /** The envelopes are tried in a fixed order: the response itself, `.data`,
      `.data.subtasks`, `.data.data`, `.subtasks`; with none an array, no subtasks. */
  lemma ExtractSubtasksPrecedence(response: Val)
    ensures ExtractSubtasks(response) == FirstArray([
      response,
      Get(response, "data"),
      Get(Get(response, "data"), "subtasks"),
      Get(Get(response, "data"), "data"),
      Get(response, "subtasks")])
  {
    var data := Get(response, "data");
    var e := [Get(response, "subtasks")];
    var d := [Get(data, "data")] + e;
    var c := [Get(data, "subtasks")] + d;
    var b := [data] + c;
    FirstArrayCons(response, b);
    FirstArrayCons(data, c);
    FirstArrayCons(Get(data, "subtasks"), d);
    FirstArrayCons(Get(data, "data"), e);
    FirstArrayCons(Get(response, "subtasks"), []);
    assert [response] + b == [response, data, Get(data, "subtasks"), Get(data, "data"), Get(response, "subtasks")];
  }

  // ---------------------------------------------------------------------------
  // Normalised tasks

  /** A normalised `deadline`: `null`, an Invalid Date (its `getTime()` is NaN), or a
      valid Date holding a time value in milliseconds. */
  datatype Deadline = NoDeadline | InvalidDate | At(ms: int)

  /** A task as the list holds it after normalisation. `completed` keeps only the truth
      value the UI reads from it. */
  datatype Task = Task(
    id: Val,
    title: Json,
    description: Json,
    priority: Json,
    completed: bool,
    deadline: Deadline,
    subtaskCount: int,
    attachments: Json)

  /** `task.deadline ? new Date(task.deadline) : null`: a falsy value gives no deadline, a
      value the Date constructor cannot read gives an Invalid Date. */
  function DeadlineOf(v: Val, parse: string -> Option<int>): (r: Deadline)
    ensures r == NoDeadline <==> !Truthy(v)
    ensures r.At? <==> Truthy(v) && DateValue(v.value, parse).Some?
    ensures r.At? ==> Some(r.ms) == DateValue(v.value, parse)
  {
    if !Truthy(v) then NoDeadline
    else
      match DateValue(v.value, parse)
      case Some(t) => At(t)
      case None => InvalidDate
  }

  /** The `subtaskCount` field when it is a number, else the length of `subtasks` when that
      is an array, else 0. */
  function SubtaskCountOf(raw: Val): int {
    var n := Get(raw, "subtaskCount");
    if n.Some? && n.value.JNum? then n.value.n
    else if IsArray(Get(raw, "subtasks")) then |Get(raw, "subtasks").value.items|
    else 0
  }

  /** One API task mapped to the list's shape; reading `task._id` of a `null` element throws. */
  function NormalizeTask(raw: Json, parse: string -> Option<int>): (r: Eval<Task>)
    ensures raw == JNull <==> r.Threw?
    ensures r.Done? ==> r.value.completed == Completion(Some(raw))
    ensures r.Done? ==> r.value.id == Or(Get(Some(raw), "_id"), Get(Some(raw), "id"))
    ensures r.Done? && Truthy(Get(Some(raw), "taskName")) ==> r.value.title == Get(Some(raw), "taskName").value
    ensures r.Done? && !Truthy(Get(Some(raw), "taskName")) && Truthy(Get(Some(raw), "title")) ==>
      r.value.title == Get(Some(raw), "title").value
    ensures r.Done? && !Truthy(Get(Some(raw), "taskName")) && !Truthy(Get(Some(raw), "title")) ==> r.value.title == JStr("")
    ensures r.Done? ==> (Truthy(Get(Some(raw), "description")) ==> r.value.description == Get(Some(raw), "description").value)
    ensures r.Done? ==> (!Truthy(Get(Some(raw), "description")) ==> r.value.description == JStr(""))
    ensures r.Done? ==> (Truthy(Get(Some(raw), "priority")) ==> r.value.priority == Get(Some(raw), "priority").value)
    ensures r.Done? ==> (!Truthy(Get(Some(raw), "priority")) ==> r.value.priority == JStr("Medium"))
    ensures r.Done? ==> r.value.deadline == DeadlineOf(Get(Some(raw), "deadline"), parse)
    ensures r.Done? && Get(Some(raw), "subtaskCount").Some? && Get(Some(raw), "subtaskCount").value.JNum? ==>
      r.value.subtaskCount == Get(Some(raw), "subtaskCount").value.n
    ensures r.Done? && !(Get(Some(raw), "subtaskCount").Some? && Get(Some(raw), "subtaskCount").value.JNum?) ==>
      r.value.subtaskCount == (if IsArray(Get(Some(raw), "subtasks")) then |Get(Some(raw), "subtasks").value.items| else 0)
    ensures r.Done? ==> (Truthy(Get(Some(raw), "attachments")) ==> r.value.attachments == Get(Some(raw), "attachments").value)
    ensures r.Done? ==> (!Truthy(Get(Some(raw), "attachments")) ==> r.value.attachments == JArr([]))
  {
    if raw == JNull then Threw
    else
      var v := Some(raw);
      Done(Task(
        id := Or(Get(v, "_id"), Get(v, "id")),
        title := OrDefault(Or(Get(v, "taskName"), Get(v, "title")), JStr("")),
        description := OrDefault(Get(v, "description"), JStr("")),
        priority := OrDefault(Get(v, "priority"), JStr("Medium")),
        completed := Truthy(Coalesce(Get(v, "completionStatus"), Coalesce(Get(v, "completed"), Some(JBool(false))))),
        deadline := DeadlineOf(Get(v, "deadline"), parse),
        subtaskCount := SubtaskCountOf(v),
        attachments := OrDefault(Get(v, "attachments"), JArr([]))))
  }

  function NormalizeAll(items: seq<Json>, parse: string -> Option<int>): (r: Eval<seq<Task>>)
    ensures r.Done? <==> forall i :: 0 <= i < |items| ==> items[i] != JNull
    ensures r.Done? ==> |r.value| == |items|
    ensures r.Done? ==> forall i :: 0 <= i < |items| ==> Done(r.value[i]) == NormalizeTask(items[i], parse)
  {
    if |items| == 0 then Done([])
    else
      match (NormalizeTask(items[0], parse), NormalizeAll(items[1..], parse))
      case (Done(t), Done(ts)) =>
        assert forall i :: 1 <= i < |items| ==> items[i] == items[1..][i - 1];
        Done([t] + ts)
      case (Threw, _) => Threw
      case (_, Threw) =>
        assert exists i :: 0 <= i < |items[1..]| && items[1..][i] == JNull;
        Threw
  }

  /** The `tasks` memo: the task array is the response itself, else its `.data`, else its
      `.tasks`; every element is normalised. */
  function NormalizeTasks(apiTasks: Val, parse: string -> Option<int>): (r: Eval<seq<Task>>)
    ensures !Truthy(apiTasks) ==> r == Done([])
    ensures r.Threw? <==>
      Truthy(apiTasks) && JNull in FirstArray([apiTasks, Get(apiTasks, "data"), Get(apiTasks, "tasks")])
    ensures r.Done? && Truthy(apiTasks) ==>
      var arr := FirstArray([apiTasks, Get(apiTasks, "data"), Get(apiTasks, "tasks")]);
      |r.value| == |arr| && forall i :: 0 <= i < |arr| ==> Done(r.value[i]) == NormalizeTask(arr[i], parse)
  {
    if !Truthy(apiTasks) then Done([])
    else
      var data := Get(apiTasks, "data");
      var tasks := Get(apiTasks, "tasks");
      var arr :=
        if IsArray(apiTasks) then apiTasks.value.items
        else if Truthy(data) && IsArray(data) then data.value.items
        else if Truthy(tasks) && IsArray(tasks) then tasks.value.items
        else [];
      FirstArrayCons(apiTasks, [data, tasks]);
      FirstArrayCons(data, [tasks]);
      FirstArrayCons(tasks, []);
      assert [data] + [tasks] == [data, tasks];
      assert [apiTasks] + [data, tasks] == [apiTasks, data, tasks];
      if |arr| == 0 then Done([]) else NormalizeAll(arr, parse)
  }

  /** `tasks.find((t) => t.id === id)` */
  function FindTask(tasks: seq<Task>, id: Val): (r: Option<Task>)
    ensures r.Some? ==> r.value in tasks && r.value.id == id
    ensures r.None? ==> forall i :: 0 <= i < |tasks| ==> tasks[i].id != id
    ensures r.Some? ==> exists i :: 0 <= i < |tasks| && tasks[i] == r.value
                                   && forall j :: 0 <= j < i ==> tasks[j].id != id
  {
    if |tasks| == 0 then None
    else if tasks[0].id == id then Some(tasks[0])
    else
      var r := FindTask(tasks[1..], id);
      if r.Some? then
        var i :| 0 <= i < |tasks[1..]| && tasks[1..][i] == r.value
                 && forall j :: 0 <= j < i ==> tasks[1..][j].id != id;
        assert tasks[i + 1] == r.value;
        r
      else r
  }

  // ---------------------------------------------------------------------------
  // Search and sort

  /** The task's lowercased title contains the lowercased query. */
  predicate Matches(query: string, t: Task) {
    t.title.JStr? && Contains(Lower(t.title.s), Lower(query))
  }

  /** The tasks whose title matches, in their original order. */
  function KeepMatching(tasks: seq<Task>, query: string): (r: seq<Task>)
    ensures |r| <= |tasks|
    ensures forall t :: t in r <==> t in tasks && Matches(query, t)
  {
    if |tasks| == 0 then []
    else (if Matches(query, tasks[0]) then [tasks[0]] else []) + KeepMatching(tasks[1..], query)
  }

  /** Filtering keeps relative order: it distributes over concatenation. */
  lemma {:induction false} KeepMatchingAppend(a: seq<Task>, b: seq<Task>, query: string)
    ensures KeepMatching(a + b, query) == KeepMatching(a, query) + KeepMatching(b, query)
  {
    if |a| > 0 {
      assert (a + b)[1..] == a[1..] + b;
      KeepMatchingAppend(a[1..], b, query);
    } else {
      assert a + b == b;
    }
  }

  /** The search step of `filteredAndSortedTasks`. Only a query with some non-space
      character filters; the query itself is compared untrimmed. Calling `toLowerCase`
      on a title that is not a string throws. */
  function SearchFilter(tasks: seq<Task>, query: string): (r: Eval<seq<Task>>)
    ensures Blank(query) ==> r == Done(tasks)
    ensures !Blank(query) && (forall i :: 0 <= i < |tasks| ==> tasks[i].title.JStr?) ==>
      r.Done? && r.value == KeepMatching(tasks, query)
    ensures !Blank(query) && (exists i :: 0 <= i < |tasks| && !tasks[i].title.JStr?) ==> r.Threw?
  {
    TrimEmptyIffBlank(query);
    if Trim(query) == "" then Done(tasks)
    else if exists i :: 0 <= i < |tasks| && !tasks[i].title.JStr? then Threw
    else Done(KeepMatching(tasks, query))
  }

  /** The search keeps exactly the matching tasks, in their original order: splitting the
      list anywhere splits the result at the same place. */
  lemma SearchKeepsOrder(a: seq<Task>, b: seq<Task>, query: string)
    requires !Blank(query)
    requires forall i :: 0 <= i < |a + b| ==> (a + b)[i].title.JStr?
    ensures SearchFilter(a + b, query).Done? && SearchFilter(a, query).Done? && SearchFilter(b, query).Done?
    ensures SearchFilter(a + b, query).value == SearchFilter(a, query).value + SearchFilter(b, query).value
    ensures forall t :: t in SearchFilter(a + b, query).value <==> t in a + b && Matches(query, t)
  {
    assert forall i :: 0 <= i < |a| ==> a[i] == (a + b)[i];
    assert forall i :: 0 <= i < |b| ==> b[i] == (a + b)[|a| + i];
    KeepMatchingAppend(a, b, query);
  }

  /** The comparator's operand `x.deadline.getTime()`, or -Infinity without a deadline. */
  datatype Time = NegInfinity | NaN | Finite(ms: int)

  function TimeOf(d: Deadline): Time {
    match d
    case NoDeadline => NegInfinity
    case InvalidDate => NaN
    case At(t) => Finite(t)
  }

  /** The sign the sort reads from `bTime - aTime`: positive puts `b` first, and a NaN
      difference (an Invalid Date, or -Infinity minus -Infinity) reads as 0. */
  function CompareDeadlines(a: Task, b: Task): (r: int)
    ensures -1 <= r <= 1
    ensures a.deadline.InvalidDate? || b.deadline.InvalidDate? ==> r == 0
    ensures !a.deadline.InvalidDate? && !b.deadline.InvalidDate? ==>
      (r < 0 <==> DeadlineKey(a) != DeadlineKey(b) && Sorting.KeyGe(DeadlineKey(a), DeadlineKey(b)))
  {
    match (TimeOf(a.deadline), TimeOf(b.deadline))
    case (Finite(x), Finite(y)) => if y > x then 1 else if y < x then -1 else 0
    case (NegInfinity, Finite(_)) => 1
    case (Finite(_), NegInfinity) => -1
    case _ => 0
  }

  /** No deadline is an Invalid Date. */
  predicate NoInvalidDates(tasks: seq<Task>) {
    forall i :: 0 <= i < |tasks| ==> !tasks[i].deadline.InvalidDate?
  }

  /** An Invalid Date compares equal to every task, so the comparator is consistent (as
      section 23.1.3.30 of ECMA-262 requires for a defined order) only when there is none
      or every other task carries one and the same deadline. */
  predicate DeadlineComparatorConsistent(tasks: seq<Task>) {
    NoInvalidDates(tasks) ||
    forall i, j :: 0 <= i < |tasks| && 0 <= j < |tasks| ==>
      tasks[i].deadline.InvalidDate? || tasks[j].deadline.InvalidDate? || tasks[i].deadline == tasks[j].deadline
  }

  /** The order the sort key gives: a deadline's time, with none and an Invalid Date lowest. */
  function DeadlineKey(t: Task): Option<int> {
    if t.deadline.At? then Some(t.deadline.ms) else None
  }

  /** Sorting with `sortBy === "date-desc"`: latest deadline first, tasks without a
      deadline after every dated task, ties in their original order. With an Invalid Date
      that compares equal to everything the stable sort keeps the list as it is; when the
      comparator is inconsistent the engine's order is not defined, and the model places
      an Invalid Date with the undated tasks. */
  function SortByDeadline(tasks: seq<Task>): (r: seq<Task>)
    ensures multiset(r) == multiset(tasks)
    ensures NoInvalidDates(tasks) ==> forall i, j :: 0 <= i < j < |r| && r[j].deadline.At? ==>
      r[i].deadline.At? && r[i].deadline.ms >= r[j].deadline.ms
    ensures !NoInvalidDates(tasks) && DeadlineComparatorConsistent(tasks) ==> r == tasks
  {
    if !NoInvalidDates(tasks) && DeadlineComparatorConsistent(tasks) then tasks
    else
      var r := Sorting.SortDesc(tasks, DeadlineKey);
      assert forall i, j :: 0 <= i < j < |r| ==> Sorting.KeyGe(DeadlineKey(r[i]), DeadlineKey(r[j]));
      assert NoInvalidDates(tasks) ==> NoInvalidDates(r) by {
        if NoInvalidDates(tasks) {
          forall i | 0 <= i < |r| ensures !r[i].deadline.InvalidDate? {
            assert r[i] in multiset(tasks);
          }
        }
      }
      r
  }

  /** With a consistent comparator the result is sorted by it: the comparator never asks
      for a later task to come before an earlier one. */
  lemma {:induction false} DeadlineSortFollowsComparator(tasks: seq<Task>)
    requires DeadlineComparatorConsistent(tasks)
    ensures forall i, j :: 0 <= i < j < |SortByDeadline(tasks)| ==>
      CompareDeadlines(SortByDeadline(tasks)[i], SortByDeadline(tasks)[j]) <= 0
  {
    var r := SortByDeadline(tasks);
    if NoInvalidDates(tasks) {
      forall i | 0 <= i < |r| ensures !r[i].deadline.InvalidDate? {
        assert r[i] in multiset(tasks);
      }
    } else {
      forall i, j | 0 <= i < j < |r| ensures CompareDeadlines(r[i], r[j]) <= 0 {
        if !r[i].deadline.InvalidDate? && !r[j].deadline.InvalidDate? {
          assert r[i].deadline == r[j].deadline;
        }
      }
    }
  }

  /** An Invalid Date before a dated task stays there: they compare equal. */
  lemma InvalidDateStaysPut(a: Task, b: Task)
    requires a.deadline.InvalidDate? && b.deadline.At?
    ensures CompareDeadlines(a, b) == 0 && CompareDeadlines(b, a) == 0
    ensures SortByDeadline([a, b]) == [a, b]
  {
  }

  /** Tasks without a valid deadline keep their relative order under the deadline sort. */
  lemma UndatedKeepOrder(tasks: seq<Task>)
    ensures Sorting.WithKey(SortByDeadline(tasks), DeadlineKey, None)
         == Sorting.WithKey(tasks, DeadlineKey, None)
  {
    if NoInvalidDates(tasks) || !DeadlineComparatorConsistent(tasks) {
      Sorting.SortDescStable(tasks, DeadlineKey, None);
    }
  }

  /** Sorting with `sortBy === "name-asc"` under locale collation, given as a rank per
      title (equal ranks compare equal). With fewer than two tasks no comparison runs.
      Otherwise a title that is not a string is taken to reach `localeCompare` as the
      receiver and throw. */
  function SortByName(tasks: seq<Task>, rank: string -> int): (r: Eval<seq<Task>>)
    ensures r.Done? ==> multiset(r.value) == multiset(tasks)
    ensures r.Done? ==> forall i, j :: 0 <= i < j < |r.value| ==>
      r.value[i].title.JStr? && r.value[j].title.JStr? && rank(r.value[i].title.s) <= rank(r.value[j].title.s)
    ensures (forall i :: 0 <= i < |tasks| ==> tasks[i].title.JStr?) ==> r.Done?
    ensures |tasks| <= 1 ==> r == Done(tasks)
    ensures r.Threw? ==> exists i :: 0 <= i < |tasks| && !tasks[i].title.JStr?
  {
    if |tasks| <= 1 then Done(tasks)
    else if exists i :: 0 <= i < |tasks| && !tasks[i].title.JStr? then Threw
    else Done(SortTitles(tasks, rank))
  }

  /** The comparator `a.title.localeCompare(b.title)` once every title is a string. */
  function SortTitles(tasks: seq<Task>, rank: string -> int): (r: seq<Task>)
    requires forall i :: 0 <= i < |tasks| ==> tasks[i].title.JStr?
    ensures multiset(r) == multiset(tasks)
    ensures forall i :: 0 <= i < |r| ==> r[i].title.JStr?
    ensures forall i, j :: 0 <= i < j < |r| ==> rank(r[i].title.s) <= rank(r[j].title.s)
  {
    var key := (t: Task) => if t.title.JStr? then Some(-rank(t.title.s)) else None;
    var r := Sorting.SortDesc(tasks, key);
    assert forall i :: 0 <= i < |r| ==> r[i].title.JStr? by {
      forall i | 0 <= i < |r| ensures r[i].title.JStr? {
        assert r[i] in multiset(tasks);
      }
    }
    assert forall i, j :: 0 <= i < j < |r| ==> Sorting.KeyGe(key(r[i]), key(r[j]));
    r
  }

  /** `filteredAndSortedTasks`: search, then sort by `sortBy`; other sort values keep order. */
  function FilterAndSort(tasks: seq<Task>, query: string, sortBy: string, rank: string -> int): (r: Eval<seq<Task>>)
    ensures SearchFilter(tasks, query).Threw? ==> r.Threw?
    ensures r.Done? ==> SearchFilter(tasks, query).Done?
                        && multiset(r.value) == multiset(SearchFilter(tasks, query).value)
    ensures sortBy != "name-asc" && sortBy != "date-desc" ==> r == SearchFilter(tasks, query)
    ensures r.Done? && NoInvalidDates(tasks) && sortBy == "date-desc" ==>
      forall i, j :: 0 <= i < j < |r.value| && r.value[j].deadline.At? ==>
        r.value[i].deadline.At? && r.value[i].deadline.ms >= r.value[j].deadline.ms
    ensures r.Done? && sortBy == "name-asc" ==> forall i, j :: 0 <= i < j < |r.value| ==>
      r.value[i].title.JStr? && r.value[j].title.JStr? && rank(r.value[i].title.s) <= rank(r.value[j].title.s)
  {
    match SearchFilter(tasks, query)
    case Threw => Threw
    case Done(found) =>
      if sortBy == "name-asc" then SortByName(found, rank)
      else if sortBy == "date-desc" then
        assert NoInvalidDates(tasks) ==> NoInvalidDates(found) by {
          if NoInvalidDates(tasks) && !Blank(query) {
            forall i | 0 <= i < |found| ensures !found[i].deadline.InvalidDate? {
              assert found[i] in found;
            }
          }
        }
        Done(SortByDeadline(found))
      else Done(found)
  }

  /** With a search query, the list shows exactly the matching tasks, each as often as it
      is listed, whichever sort is chosen. */
  lemma FilterAndSortShowsMatching(tasks: seq<Task>, query: string, sortBy: string, rank: string -> int)
    requires !Blank(query)
    requires forall i :: 0 <= i < |tasks| ==> tasks[i].title.JStr?
    ensures FilterAndSort(tasks, query, sortBy, rank).Done?
    ensures multiset(FilterAndSort(tasks, query, sortBy, rank).value) == multiset(KeepMatching(tasks, query))
  {
    var found := KeepMatching(tasks, query);
    forall i | 0 <= i < |found| ensures found[i].title.JStr? {
      assert found[i] in found;
    }
  }

  // ---------------------------------------------------------------------------
  // Expanded rows

  /** `toggleTaskExpansion`: a task id leaves the set when present and joins it otherwise. */
  function ToggleExpansion(expanded: set<Val>, id: Val): (r: set<Val>)
    ensures id in r <==> id !in expanded
    ensures forall x :: x != id ==> (x in r <==> x in expanded)
  {
    if id in expanded then expanded - {id} else expanded + {id}
  }

  /** Toggling the same row twice restores the set. */
  lemma ToggleExpansionTwice(expanded: set<Val>, id: Val)
    ensures ToggleExpansion(ToggleExpansion(expanded, id), id) == expanded
  {
  }

  // ---------------------------------------------------------------------------
  // Attachments

  /** The URL matches `/^https?:\/\//i`. */
  predicate IsAbsoluteHttp(u: string) {
    StartsWith(Lower(u), "http://") || StartsWith(Lower(u), "https://")
  }

  /** `getAttachmentDownloadUrl`. The configured API base (`VITE_API_URL`, possibly
      undefined) and the origin derived from it (or the page's) are parameters. */
  function DownloadUrl(attachment: Val, baseUrl: Val, origin: string): (r: Option<string>)
    ensures !Truthy(attachment) ==> r.None?
    ensures Truthy(attachment) && Get(attachment, "url").Some? && Get(attachment, "url").value.JStr? ==>
      var u := Get(attachment, "url").value.s;
      !Blank(u) ==>
        r.Some? &&
        (IsAbsoluteHttp(u) ==> r.value == u) &&
        (!IsAbsoluteHttp(u) ==>
           (StartsWith(r.value, origin) && EndsWith(r.value, u)
            && |r.value| == |origin| + |u| + (if StartsWith(u, "/") then 0 else 1)
            && r.value[|origin|] == '/'))
    ensures r.None? <==>
      !Truthy(attachment) ||
      ((Get(attachment, "url") == None || !Get(attachment, "url").value.JStr? || Blank(Get(attachment, "url").value.s))
        && !Truthy(Get(attachment, "fileId")))
    ensures Truthy(attachment) && Truthy(Get(attachment, "fileId"))
            && (Get(attachment, "url") == None || !Get(attachment, "url").value.JStr? || Blank(Get(attachment, "url").value.s)) ==>
      r == Some(ToJsString(baseUrl) + "/files/" + ToJsString(Get(attachment, "fileId")))
  {
    var url := Get(attachment, "url");
    TrimEmptyIffBlank(if url.Some? && url.value.JStr? then url.value.s else "");
    if !Truthy(attachment) then None
    else if url.Some? && url.value.JStr? && Trim(url.value.s) != "" then
      var u := url.value.s;
      if IsAbsoluteHttp(u) then Some(u)
      else if StartsWith(u, "/") then
        var r := origin + u;
        assert r[|origin|] == u[0];
        assert r[|r| - |u|..] == u;
        Some(r)
      else
        var r := origin + "/" + u;
        assert r[|r| - |u|..] == u;
        Some(r)
    else
      var fileId := Get(attachment, "fileId");
      if Truthy(fileId) then Some(ToJsString(baseUrl) + "/files/" + ToJsString(fileId)) else None
  }

  datatype Icon = ImageIcon | VideoIcon | FileIcon

  /** `getAttachmentIcon`: by the lowercased `type`, else by the lowercased `format`. */
  function AttachmentIcon(attachment: Val): (r: Icon)
    ensures r == ImageIcon <==>
      var ty := Lower(ToJsString(Or(Get(attachment, "type"), Some(JStr("")))));
      var fm := Lower(ToJsString(Or(Get(attachment, "format"), Some(JStr("")))));
      ty == "image" || fm == "png" || fm == "jpg" || fm == "jpeg"
    ensures r == VideoIcon <==>
      var ty := Lower(ToJsString(Or(Get(attachment, "type"), Some(JStr("")))));
      var fm := Lower(ToJsString(Or(Get(attachment, "format"), Some(JStr("")))));
      !(ty == "image" || fm == "png" || fm == "jpg" || fm == "jpeg")
      && (ty == "video" || fm == "mp4" || fm == "mkv" || fm == "mov")
    ensures !Truthy(attachment) ==> r == FileIcon
  {
    var ty := Lower(ToJsString(Or(Get(attachment, "type"), Some(JStr("")))));
    var fm := Lower(ToJsString(Or(Get(attachment, "format"), Some(JStr("")))));
    if ty == "image" || fm in ["png", "jpg", "jpeg"] then ImageIcon
    else if ty == "video" || fm in ["mp4", "mkv", "mov"] then VideoIcon
    else FileIcon
  }
}
