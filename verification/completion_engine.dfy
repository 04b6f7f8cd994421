/** The task list's completion and deletion rules (src/features/tasks.list.jsx):
    `toggleTaskCompletion` for a task and for a subtask, and `handleDeleteTask`.

    Each handler is a function from the list's tasks, its arguments and the remote
    side's answers (`Net`) to the trace of calls it issues and the alert it raises.
    The per-subtask updates of a task toggle are issued together (`Promise.all`); the
    trace lists them in issue order. `Store` is an abstract remote store on which a
    trace can be replayed. */
module CompletionEngine {
  import opened Wrappers
  import opened Json
  import opened TasksList
  import Numeric
  import Seqs

  // ---------------------------------------------------------------------------
  // Calls, answers and outcomes

  /** A call to the remote task/subtask API. */
  datatype Call =
    | UpdateTask(id: Val, completionStatus: bool)
    | FetchSubtasks(taskId: Val)
    | UpdateSubtask(id: Val, parentTaskId: Val, completionStatus: bool)
    | DeleteTask(id: Val)

  /** The remote side's answers: a call in `rejects` fails with that error body; a fetch
      that does not fail returns `listings[taskId]`, or nothing (`undefined`) when absent. */
  datatype Net = Net(rejects: map<Call, Json>, listings: map<Val, Json>)

  /** What a handler did: the calls it issued, in order, and the alert it raised. */
  datatype Outcome = Outcome(calls: seq<Call>, alert: Option<Json>)

  function Listing(net: Net, taskId: Val): Val {
    if taskId in net.listings then Some(net.listings[taskId]) else None
  }

  const TaskFailText: string := "Failed to update task. Please try again."
  const SubtaskFailText: string := "Failed to update subtask. Please try again."
  const DeleteFailText: string := "Failed to delete task. Please try again."
  const BlockText: string := "Cannot delete this task because it has incomplete subtasks. Complete all subtasks first."

  /** The `message` of the TypeError raised by reading property `key` of a `null` subtask,
      in V8's wording (other engines word it differently). */
  function NullReadText(key: string): string {
    "Cannot read properties of null (reading '" + key + "')"
  }

  /** The alert of the `catch` blocks: `error?.data?.message || error?.message || fallback`. */
  function RejectionText(error: Json, fallback: string): Json {
    OrDefault(Or(Get(Get(Some(error), "data"), "message"), Get(Some(error), "message")), JStr(fallback))
  }

  /** A subtask's id: `st._id || st.id`. */
  function IdOf(st: Json): Val {
    Or(Get(Some(st), "_id"), Get(Some(st), "id"))
  }

  /** The first call of `calls` the remote side rejects, as its error body. */
  function FirstRejection(calls: seq<Call>, net: Net): (r: Option<Json>)
    ensures r.None? <==> forall i :: 0 <= i < |calls| ==> calls[i] !in net.rejects
  {
    if |calls| == 0 then None
    else if calls[0] in net.rejects then Some(net.rejects[calls[0]])
    else
      var r := FirstRejection(calls[1..], net);
      assert forall i :: 1 <= i < |calls| ==> calls[i] == calls[1..][i - 1];
      r
  }

  // ---------------------------------------------------------------------------
  // Toggling a task

  predicate Incomplete(st: Json) {
    !Completion(Some(st))
  }

  /** The subtask updates the `map` issues, and whether it stopped on a `null` subtask
      (reading `st._id` of `null` throws before that subtask's update is issued). */
  datatype Fanout = Fanout(calls: seq<Call>, hitNull: bool)

  function CompleteEach(pending: seq<Json>, parent: Val): (r: Fanout)
    ensures |r.calls| <= |pending|
    ensures r.hitNull <==> JNull in pending
    ensures !r.hitNull ==> |r.calls| == |pending|
    ensures r.hitNull ==> |r.calls| < |pending| && pending[|r.calls|] == JNull
    ensures forall i :: 0 <= i < |r.calls| ==>
      pending[i] != JNull && r.calls[i] == UpdateSubtask(IdOf(pending[i]), parent, true)
  {
    if |pending| == 0 then Fanout([], false)
    else if pending[0] == JNull then Fanout([], true)
    else
      var rest := CompleteEach(pending[1..], parent);
      assert forall st :: st in pending <==> st == pending[0] || st in pending[1..];
      Fanout([UpdateSubtask(IdOf(pending[0]), parent, true)] + rest.calls, rest.hitNull)
  }

  /** `toggleTaskCompletion(taskId)` for a task. */
  function ToggleTask(tasks: seq<Task>, taskId: Val, net: Net): (o: Outcome)
    ensures FindTask(tasks, taskId).None? ==> o == Outcome([], None)
    ensures FindTask(tasks, taskId).Some? ==>
      |o.calls| >= 1 && o.calls[0] == UpdateTask(taskId, !FindTask(tasks, taskId).value.completed)
    ensures forall i :: 1 <= i < |o.calls| ==>
      o.calls[i] == FetchSubtasks(taskId) || (o.calls[i].UpdateSubtask? && o.calls[i].parentTaskId == taskId
                                             && o.calls[i].completionStatus)
    ensures |o.calls| >= 1 && o.calls[0] in net.rejects ==>
      o.calls == o.calls[..1] && o.alert == Some(RejectionText(net.rejects[o.calls[0]], TaskFailText))
  {
    match FindTask(tasks, taskId)
    case None => Outcome([], None)
    case Some(task) =>
      var next := !task.completed;
      var update := UpdateTask(taskId, next);
      if update in net.rejects then
        Outcome([update], Some(RejectionText(net.rejects[update], TaskFailText)))
      else if next && task.subtaskCount > 0 then
        var fetch := FetchSubtasks(taskId);
        if fetch in net.rejects then
          Outcome([update, fetch], Some(RejectionText(net.rejects[fetch], TaskFailText)))
        else
          var fan := CompleteEach(Seqs.Filter(ExtractSubtasks(Listing(net, taskId)), Incomplete), taskId);
          var calls := [update, fetch] + fan.calls;
          if fan.hitNull then Outcome(calls, Some(JStr(NullReadText("_id"))))
          else
            match FirstRejection(fan.calls, net)
            case Some(e) => Outcome(calls, Some(RejectionText(e, TaskFailText)))
            case None => Outcome(calls, None)
      else Outcome([update], None)
  }

  /** Downward propagation. When completing a task with subtasks succeeds up to the fetch
      and no subtask is `null`, exactly the incomplete fetched subtasks each get one update
      with `completionStatus: true`, and the complete ones get none. */
  lemma ToggleTaskCompletesExactlyIncomplete(tasks: seq<Task>, taskId: Val, net: Net)
    requires FindTask(tasks, taskId).Some?
    requires !FindTask(tasks, taskId).value.completed && FindTask(tasks, taskId).value.subtaskCount > 0
    requires UpdateTask(taskId, true) !in net.rejects && FetchSubtasks(taskId) !in net.rejects
    requires JNull !in ExtractSubtasks(Listing(net, taskId))
    ensures var o := ToggleTask(tasks, taskId, net);
            var items := ExtractSubtasks(Listing(net, taskId));
            && o.calls[..2] == [UpdateTask(taskId, true), FetchSubtasks(taskId)]
            && |o.calls| == 2 + Numeric.Count(items, Incomplete)
            && (forall st :: st in items && Incomplete(st) ==> UpdateSubtask(IdOf(st), taskId, true) in o.calls)
            && (forall i :: 2 <= i < |o.calls| ==> CompletesIncomplete(o.calls[i], items, taskId))
    ensures var o := ToggleTask(tasks, taskId, net);
            var pending := Seqs.Filter(ExtractSubtasks(Listing(net, taskId)), Incomplete);
            |o.calls| == 2 + |pending|
            && forall i :: 0 <= i < |pending| ==> o.calls[2 + i] == UpdateSubtask(IdOf(pending[i]), taskId, true)
  {
    CompletionCalls(tasks, taskId, net);
    PrefixedFanout(ToggleTask(tasks, taskId, net).calls, ExtractSubtasks(Listing(net, taskId)), taskId);
    FanoutInListingOrder(ToggleTask(tasks, taskId, net).calls, ExtractSubtasks(Listing(net, taskId)), taskId);
  }

  /** After the two leading calls, the fan-out completes the pending subtasks one by one,
      in listing order. */
  lemma FanoutInListingOrder(calls: seq<Call>, items: seq<Json>, taskId: Val)
    requires JNull !in items
    requires calls == [UpdateTask(taskId, true), FetchSubtasks(taskId)]
                      + CompleteEach(Seqs.Filter(items, Incomplete), taskId).calls
    ensures var pending := Seqs.Filter(items, Incomplete);
            |calls| == 2 + |pending|
            && forall i :: 0 <= i < |pending| ==> calls[2 + i] == UpdateSubtask(IdOf(pending[i]), taskId, true)
  {
    var pending := Seqs.Filter(items, Incomplete);
    assert JNull !in pending;
    var fan := CompleteEach(pending, taskId).calls;
    forall i | 0 <= i < |pending| ensures calls[2 + i] == UpdateSubtask(IdOf(pending[i]), taskId, true) {
      assert calls[2 + i] == fan[i];
    }
  }

  /** The task update and the fetch followed by the fan-out over a listing without `null`
      entries: one update per incomplete subtask after the two leading calls. */
  lemma PrefixedFanout(calls: seq<Call>, items: seq<Json>, taskId: Val)
    requires JNull !in items
    requires calls == [UpdateTask(taskId, true), FetchSubtasks(taskId)]
                      + CompleteEach(Seqs.Filter(items, Incomplete), taskId).calls
    ensures calls[..2] == [UpdateTask(taskId, true), FetchSubtasks(taskId)]
    ensures |calls| == 2 + Numeric.Count(items, Incomplete)
    ensures forall st :: st in items && Incomplete(st) ==> UpdateSubtask(IdOf(st), taskId, true) in calls
    ensures forall i :: 2 <= i < |calls| ==> CompletesIncomplete(calls[i], items, taskId)
  {
    var fan := CompleteEach(Seqs.Filter(items, Incomplete), taskId).calls;
    FanoutCoversIncomplete(items, taskId);
    ShiftedFanout(calls, fan, items, taskId);
  }

  /** Facts about the fan-out carry over to the calls after the two leading ones. */
  lemma ShiftedFanout(calls: seq<Call>, fan: seq<Call>, items: seq<Json>, taskId: Val)
    requires calls == [UpdateTask(taskId, true), FetchSubtasks(taskId)] + fan
    requires |fan| == Numeric.Count(items, Incomplete)
    requires forall st :: st in items && Incomplete(st) ==> UpdateSubtask(IdOf(st), taskId, true) in fan
    requires forall i :: 0 <= i < |fan| ==> CompletesIncomplete(fan[i], items, taskId)
    ensures calls[..2] == [UpdateTask(taskId, true), FetchSubtasks(taskId)]
    ensures |calls| == 2 + Numeric.Count(items, Incomplete)
    ensures forall st :: st in items && Incomplete(st) ==> UpdateSubtask(IdOf(st), taskId, true) in calls
    ensures forall i :: 2 <= i < |calls| ==> CompletesIncomplete(calls[i], items, taskId)
  {
    assert calls[..2] == [UpdateTask(taskId, true), FetchSubtasks(taskId)];
    forall st | st in items && Incomplete(st)
      ensures UpdateSubtask(IdOf(st), taskId, true) in calls
    {
      var k :| 0 <= k < |fan| && fan[k] == UpdateSubtask(IdOf(st), taskId, true);
      assert calls[k + 2] == fan[k];
    }
    forall i | 2 <= i < |calls|
      ensures CompletesIncomplete(calls[i], items, taskId)
    {
      assert calls[i] == fan[i - 2];
    }
  }

  /** A call is the completion update of some incomplete subtask of the listing. */
  predicate CompletesIncomplete(c: Call, items: seq<Json>, parent: Val) {
    exists st :: st in items && Incomplete(st) && c == UpdateSubtask(IdOf(st), parent, true)
  }

  /** Completing a task with subtasks, past the task update and the fetch, issues the
      fan-out over the incomplete fetched subtasks. */
  lemma CompletionCalls(tasks: seq<Task>, taskId: Val, net: Net)
    requires FindTask(tasks, taskId).Some?
    requires !FindTask(tasks, taskId).value.completed && FindTask(tasks, taskId).value.subtaskCount > 0
    requires UpdateTask(taskId, true) !in net.rejects && FetchSubtasks(taskId) !in net.rejects
    ensures ToggleTask(tasks, taskId, net).calls ==
      [UpdateTask(taskId, true), FetchSubtasks(taskId)]
      + CompleteEach(Seqs.Filter(ExtractSubtasks(Listing(net, taskId)), Incomplete), taskId).calls
  {
  }

  /** Over a listing without `null` entries, the fan-out has one update per incomplete
      subtask and nothing else. */
  lemma FanoutCoversIncomplete(items: seq<Json>, parent: Val)
    requires JNull !in items
    ensures var fan := CompleteEach(Seqs.Filter(items, Incomplete), parent).calls;
            && |fan| == Numeric.Count(items, Incomplete)
            && (forall st :: st in items && Incomplete(st) ==> UpdateSubtask(IdOf(st), parent, true) in fan)
            && (forall i :: 0 <= i < |fan| ==> CompletesIncomplete(fan[i], items, parent))
  {
    var pending := Seqs.Filter(items, Incomplete);
    var fan := CompleteEach(pending, parent).calls;
    forall st | st in items && Incomplete(st)
      ensures UpdateSubtask(IdOf(st), parent, true) in fan
    {
      var k :| 0 <= k < |pending| && pending[k] == st;
      assert fan[k] == UpdateSubtask(IdOf(st), parent, true);
    }
    forall i | 0 <= i < |fan|
      ensures CompletesIncomplete(fan[i], items, parent)
    {
      assert pending[i] in pending;
    }
  }

  /** Un-completing a task, or completing one without subtasks, issues the task update
      only: no fetch and no subtask update. */
  lemma ToggleTaskNoPropagation(tasks: seq<Task>, taskId: Val, net: Net)
    requires FindTask(tasks, taskId).Some?
    requires FindTask(tasks, taskId).value.completed || FindTask(tasks, taskId).value.subtaskCount <= 0
    ensures var o := ToggleTask(tasks, taskId, net);
            o.calls == [UpdateTask(taskId, !FindTask(tasks, taskId).value.completed)]
            && (o.alert.Some? <==> o.calls[0] in net.rejects)
  {
  }

  /** A `null` subtask stops the fan-out: the updates for the incomplete subtasks before
      it are still issued, and the alert is the TypeError's message. */
  lemma ToggleTaskNullSubtask(tasks: seq<Task>, taskId: Val, net: Net)
    requires FindTask(tasks, taskId).Some?
    requires !FindTask(tasks, taskId).value.completed && FindTask(tasks, taskId).value.subtaskCount > 0
    requires UpdateTask(taskId, true) !in net.rejects && FetchSubtasks(taskId) !in net.rejects
    requires JNull in ExtractSubtasks(Listing(net, taskId))
    ensures var o := ToggleTask(tasks, taskId, net);
            o.alert == Some(JStr(NullReadText("_id")))
            && |o.calls| < 2 + Numeric.Count(ExtractSubtasks(Listing(net, taskId)), Incomplete)
  {
    var items := ExtractSubtasks(Listing(net, taskId));
    var pending := Seqs.Filter(items, Incomplete);
    assert Incomplete(JNull);
    assert JNull in pending;
    var fan := CompleteEach(pending, taskId);
  }

  // ---------------------------------------------------------------------------
  // Toggling a subtask

  /** `toggleTaskCompletion(subtaskId, true, parentTaskId, currentCompleted)`. */
  function ToggleSubtask(tasks: seq<Task>, subtaskId: Val, parentTaskId: Val, current: Val, net: Net): (o: Outcome)
    ensures Nullish(current) ==> o == Outcome([], None)
    ensures !Nullish(current) ==>
      |o.calls| >= 1 && o.calls[0] == UpdateSubtask(subtaskId, parentTaskId, !Truthy(current))
    ensures forall i :: 1 <= i < |o.calls| ==>
      o.calls[i] == FetchSubtasks(parentTaskId) || o.calls[i] == UpdateTask(parentTaskId, true)
    ensures |o.calls| <= 3
    ensures |o.calls| >= 2 ==> o.calls[1] == FetchSubtasks(parentTaskId)
    ensures |o.calls| == 3 ==> o.calls[2] == UpdateTask(parentTaskId, true)
    ensures |o.calls| >= 1 && o.calls[0] in net.rejects ==>
      |o.calls| == 1 && o.alert == Some(RejectionText(net.rejects[o.calls[0]], SubtaskFailText))
    ensures o.alert.None? <==> forall i :: 0 <= i < |o.calls| ==> o.calls[i] !in net.rejects
    ensures o.alert.Some? ==>
      |o.calls| >= 1 && o.calls[|o.calls| - 1] in net.rejects
      && o.alert == Some(RejectionText(net.rejects[o.calls[|o.calls| - 1]], SubtaskFailText))
  {
    if Nullish(current) then Outcome([], None)
    else
      var update := UpdateSubtask(subtaskId, parentTaskId, !Truthy(current));
      if update in net.rejects then
        Outcome([update], Some(RejectionText(net.rejects[update], SubtaskFailText)))
      else if !Truthy(parentTaskId) then Outcome([update], None)
      else
        match FindTask(tasks, parentTaskId)
        case None => Outcome([update], None)
        case Some(parent) =>
          if parent.subtaskCount <= 0 then Outcome([update], None)
          else
            var fetch := FetchSubtasks(parentTaskId);
            if fetch in net.rejects then
              Outcome([update, fetch], Some(RejectionText(net.rejects[fetch], SubtaskFailText)))
            else
              var items := ExtractSubtasks(Listing(net, parentTaskId));
              var allCompleted := |items| > 0 && forall i :: 0 <= i < |items| ==> Completion(Some(items[i]));
              if allCompleted && !parent.completed then
                var complete := UpdateTask(parentTaskId, true);
                if complete in net.rejects then
                  Outcome([update, fetch, complete], Some(RejectionText(net.rejects[complete], SubtaskFailText)))
                else Outcome([update, fetch, complete], None)
              else Outcome([update, fetch], None)
  }

  /** Upward propagation: the parent gets its one `completionStatus: true` update exactly
      when the subtask update succeeded, the parent id is truthy and names a listed task
      with subtasks that is not complete, the fetch succeeded, and the fetched list is
      non-empty and entirely complete. */
  lemma ToggleSubtaskCompletesParentIff(tasks: seq<Task>, subtaskId: Val, parentTaskId: Val, current: Val, net: Net)
    ensures var o := ToggleSubtask(tasks, subtaskId, parentTaskId, current, net);
            var parent := FindTask(tasks, parentTaskId);
            var items := ExtractSubtasks(Listing(net, parentTaskId));
            UpdateTask(parentTaskId, true) in o.calls <==>
              && !Nullish(current)
              && UpdateSubtask(subtaskId, parentTaskId, !Truthy(current)) !in net.rejects
              && Truthy(parentTaskId)
              && parent.Some? && parent.value.subtaskCount > 0 && !parent.value.completed
              && FetchSubtasks(parentTaskId) !in net.rejects
              && |items| > 0
              && forall st :: st in items ==> Completion(Some(st))
  {
    var o := ToggleSubtask(tasks, subtaskId, parentTaskId, current, net);
    var items := ExtractSubtasks(Listing(net, parentTaskId));
    assert (forall st :: st in items ==> Completion(Some(st)))
       <==> (forall i :: 0 <= i < |items| ==> Completion(Some(items[i])));
    if !Nullish(current) {
      assert o.calls[0].UpdateSubtask?;
    }
  }

  /** The parent is never set incomplete: every task update a subtask toggle issues
      carries `completionStatus: true`, and un-checking a subtask issues none when some
      subtask in the fetched list is incomplete. */
  lemma ToggleSubtaskNeverUncompletesParent(tasks: seq<Task>, subtaskId: Val, parentTaskId: Val, current: Val, net: Net)
    ensures forall c :: c in ToggleSubtask(tasks, subtaskId, parentTaskId, current, net).calls && c.UpdateTask? ==>
      c == UpdateTask(parentTaskId, true)
    ensures (exists st :: st in ExtractSubtasks(Listing(net, parentTaskId)) && !Completion(Some(st))) ==>
      forall c :: c in ToggleSubtask(tasks, subtaskId, parentTaskId, current, net).calls ==> !c.UpdateTask?
  {
    var o := ToggleSubtask(tasks, subtaskId, parentTaskId, current, net);
    assert |o.calls| > 0 ==> o.calls[0].UpdateSubtask?;
    forall c | c in o.calls && c.UpdateTask? ensures c == UpdateTask(parentTaskId, true) {
      var i :| 0 <= i < |o.calls| && o.calls[i] == c;
    }
    if exists st :: st in ExtractSubtasks(Listing(net, parentTaskId)) && !Completion(Some(st)) {
      ToggleSubtaskCompletesParentIff(tasks, subtaskId, parentTaskId, current, net);
      forall c | c in o.calls ensures !c.UpdateTask? {
        var i :| 0 <= i < |o.calls| && o.calls[i] == c;
      }
    }
  }

  // ---------------------------------------------------------------------------
  // Deleting a task

  /** The deletion guard's reading: `st.completionStatus || st.completed`, which differs
      from `Completion` when `completionStatus` is present but falsy. */
  predicate GuardDone(st: Json) {
    Truthy(Get(Some(st), "completionStatus")) || Truthy(Get(Some(st), "completed"))
  }

  datatype Scan = Blocked | NullRead | Clear

  /** `subtasksArray.some((st) => !(st.completionStatus || st.completed))`, scanning in
      order: a `null` subtask throws when reached, an incomplete one answers true. */
  function GuardScan(items: seq<Json>): Scan {
    if |items| == 0 then Clear
    else if items[0] == JNull then NullRead
    else if !GuardDone(items[0]) then Blocked
    else GuardScan(items[1..])
  }

  /** Every subtask before index `i` is non-null and done by the guard's reading. */
  predicate PassedBefore(items: seq<Json>, i: int)
    requires 0 <= i <= |items|
  {
    forall j :: 0 <= j < i ==> items[j] != JNull && GuardDone(items[j])
  }

  /** The scan clears exactly when every subtask is non-null and complete by the guard's
      reading, and blocks exactly when an incomplete subtask comes before any `null` one. */
  lemma GuardScanMeaning(items: seq<Json>)
    ensures GuardScan(items) == Clear <==> forall i :: 0 <= i < |items| ==> items[i] != JNull && GuardDone(items[i])
    ensures GuardScan(items) == Blocked <==>
      exists i :: 0 <= i < |items| && items[i] != JNull && !GuardDone(items[i])
                  && forall j :: 0 <= j < i ==> items[j] != JNull && GuardDone(items[j])
  {
    GuardScanClear(items);
    GuardScanBlocked(items);
  }

  lemma {:induction false} GuardScanClear(items: seq<Json>)
    ensures GuardScan(items) == Clear <==> PassedBefore(items, |items|)
  {
    if |items| > 0 && items[0] != JNull && GuardDone(items[0]) {
      var t := items[1..];
      GuardScanClear(t);
      assert forall i :: 1 <= i < |items| ==> items[i] == t[i - 1];
    }
  }

  lemma {:induction false} GuardScanBlocked(items: seq<Json>)
    ensures GuardScan(items) == Blocked <==>
      exists i :: 0 <= i < |items| && items[i] != JNull && !GuardDone(items[i]) && PassedBefore(items, i)
  {
    if |items| > 0 && items[0] != JNull && GuardDone(items[0]) {
      var t := items[1..];
      GuardScanBlocked(t);
      assert forall i :: 1 <= i < |items| ==> items[i] == t[i - 1];
      if GuardScan(t) == Blocked {
        var i :| 0 <= i < |t| && t[i] != JNull && !GuardDone(t[i]) && PassedBefore(t, i);
        assert PassedBefore(items, i + 1);
      }
      if exists i :: 0 <= i < |items| && items[i] != JNull && !GuardDone(items[i]) && PassedBefore(items, i) {
        var i :| 0 <= i < |items| && items[i] != JNull && !GuardDone(items[i]) && PassedBefore(items, i);
        assert i > 0;
        assert PassedBefore(t, i - 1);
      }
    } else if |items| > 0 && items[0] != JNull {
      assert PassedBefore(items, 0);
    }
  }

  /** `handleDeleteTask(taskId)`. A task that is not in the list skips the guard. */
  function Delete(tasks: seq<Task>, taskId: Val, net: Net): (o: Outcome)
    ensures FindTask(tasks, taskId).None? || FindTask(tasks, taskId).value.subtaskCount <= 0 ==>
      o.calls == [DeleteTask(taskId)]
    ensures forall i :: 0 <= i < |o.calls| ==> o.calls[i] == FetchSubtasks(taskId) || o.calls[i] == DeleteTask(taskId)
    ensures forall i, j :: 0 <= i < j < |o.calls| && o.calls[j].DeleteTask? ==> !o.calls[i].DeleteTask?
    ensures forall i :: 0 <= i < |o.calls| && o.calls[i].DeleteTask? ==> i == |o.calls| - 1
  {
    var task := FindTask(tasks, taskId);
    if task.Some? && task.value.subtaskCount > 0 then
      var fetch := FetchSubtasks(taskId);
      if fetch in net.rejects then
        Outcome([fetch], Some(RejectionText(net.rejects[fetch], DeleteFailText)))
      else
        match GuardScan(ExtractSubtasks(Listing(net, taskId)))
        case NullRead => Outcome([fetch], Some(JStr(NullReadText("completionStatus"))))
        case Blocked => Outcome([fetch], Some(JStr(BlockText)))
        case Clear =>
          var delete := DeleteTask(taskId);
          if delete in net.rejects then
            Outcome([fetch, delete], Some(RejectionText(net.rejects[delete], DeleteFailText)))
          else Outcome([fetch, delete], None)
    else
      var delete := DeleteTask(taskId);
      if delete in net.rejects then
        Outcome([delete], Some(RejectionText(net.rejects[delete], DeleteFailText)))
      else Outcome([delete], None)
  }

  /** Deletion guard: a listed task with subtasks is deleted only when its fetched subtasks
      are all non-null and complete by the guard's reading; when the scan meets an
      incomplete subtask first, no delete call is made and the block message is raised. */
  lemma DeleteGuard(tasks: seq<Task>, taskId: Val, net: Net)
    requires FindTask(tasks, taskId).Some? && FindTask(tasks, taskId).value.subtaskCount > 0
    ensures var o := Delete(tasks, taskId, net);
            var items := ExtractSubtasks(Listing(net, taskId));
            && o.calls[0] == FetchSubtasks(taskId)
            && (DeleteTask(taskId) in o.calls <==>
                 FetchSubtasks(taskId) !in net.rejects
                 && forall i :: 0 <= i < |items| ==> items[i] != JNull && GuardDone(items[i]))
            && (FetchSubtasks(taskId) !in net.rejects && GuardScan(items) == Blocked ==>
                 o == Outcome([FetchSubtasks(taskId)], Some(JStr(BlockText))))
  {
    GuardScanMeaning(ExtractSubtasks(Listing(net, taskId)));
  }

  /** A task with no subtasks is deleted with exactly one call and no fetch. */
  lemma DeleteWithoutSubtasks(tasks: seq<Task>, taskId: Val, net: Net)
    requires FindTask(tasks, taskId).Some? && FindTask(tasks, taskId).value.subtaskCount == 0
    ensures Delete(tasks, taskId, net).calls == [DeleteTask(taskId)]
    ensures Delete(tasks, taskId, net).alert.Some? <==> DeleteTask(taskId) in net.rejects
  {
  }

  /** What the engine's helper calls complete the guard also accepts, but not the other way
      round: a subtask with `completionStatus: false` and `completed: true` passes the
      guard while the toggle treats it as incomplete. */
  lemma GuardReadingIsWeaker(st: Json)
    ensures Completion(Some(st)) ==> GuardDone(st)
    ensures var odd := JObj(map["completionStatus" := JBool(false), "completed" := JBool(true)]);
            GuardDone(odd) && !Completion(Some(odd))
  {
    var odd := JObj(map["completionStatus" := JBool(false), "completed" := JBool(true)]);
    assert Get(Some(odd), "completionStatus") == Some(JBool(false));
    assert Get(Some(odd), "completed") == Some(JBool(true));
  }

  // ---------------------------------------------------------------------------
  // The remote store

  /** An abstract remote store: each task's and each subtask's completion flag. */
  datatype Store = Store(tasks: map<Val, bool>, subtasks: map<Val, bool>)

  /** The effect of one accepted call on the store; updates of unknown ids change nothing. */
  function ApplyCall(s: Store, c: Call): Store {
    match c
    case UpdateTask(id, b) => if id in s.tasks then s.(tasks := s.tasks[id := b]) else s
    case FetchSubtasks(_) => s
    case UpdateSubtask(id, _, b) => if id in s.subtasks then s.(subtasks := s.subtasks[id := b]) else s
    case DeleteTask(id) => s.(tasks := s.tasks - {id})
  }

  /** Replays a trace on the store; rejected calls have no effect. */
  function Apply(s: Store, calls: seq<Call>, net: Net): Store
    decreases |calls|
  {
    if |calls| == 0 then s
    else Apply(if calls[0] in net.rejects then s else ApplyCall(s, calls[0]), calls[1..], net)
  }

  /** Replaying subtask completions leaves every updated subtask complete and every other
      subtask as it was. */
  lemma {:induction false} ApplyCompletions(s: Store, calls: seq<Call>, net: Net)
    requires forall i :: 0 <= i < |calls| ==> calls[i].UpdateSubtask? && calls[i].completionStatus
    requires forall i :: 0 <= i < |calls| ==> calls[i] !in net.rejects
    ensures Apply(s, calls, net).tasks == s.tasks
    ensures Apply(s, calls, net).subtasks.Keys == s.subtasks.Keys
    ensures forall id :: id in s.subtasks ==>
      Apply(s, calls, net).subtasks[id] == (s.subtasks[id] || exists i :: 0 <= i < |calls| && calls[i].id == id)
    decreases |calls|
  {
    if |calls| > 0 {
      var s1 := ApplyCall(s, calls[0]);
      ApplyCompletions(s1, calls[1..], net);
      forall id | id in s.subtasks
        ensures Apply(s, calls, net).subtasks[id] == (s.subtasks[id] || exists i :: 0 <= i < |calls| && calls[i].id == id)
      {
        if exists i :: 0 <= i < |calls| && calls[i].id == id {
          var i :| 0 <= i < |calls| && calls[i].id == id;
          if i > 0 {
            assert calls[1..][i - 1].id == id;
          }
        }
        if exists i :: 0 <= i < |calls[1..]| && calls[1..][i].id == id {
          var i :| 0 <= i < |calls[1..]| && calls[1..][i].id == id;
          assert calls[i + 1].id == id;
        }
      }
    }
  }

  /** The trace of a fully successful completion of a task with subtasks: the task update,
      the fetch, then one accepted update per incomplete fetched subtask. */
  lemma SuccessfulCompletionTrace(tasks: seq<Task>, taskId: Val, net: Net)
    requires FindTask(tasks, taskId).Some?
    requires !FindTask(tasks, taskId).value.completed && FindTask(tasks, taskId).value.subtaskCount > 0
    requires ToggleTask(tasks, taskId, net).alert.None?
    ensures var fan := CompleteEach(Seqs.Filter(ExtractSubtasks(Listing(net, taskId)), Incomplete), taskId);
            && ToggleTask(tasks, taskId, net).calls == [UpdateTask(taskId, true), FetchSubtasks(taskId)] + fan.calls
            && UpdateTask(taskId, true) !in net.rejects
            && !fan.hitNull
            && forall i :: 0 <= i < |fan.calls| ==> fan.calls[i] !in net.rejects
  {
  }

  /** Downward propagation on the store: after a fully successful completion of a task with
      subtasks, the task is complete in the store, and so is every fetched subtask the store
      knows, provided the fetched list reported no subtask as complete that the store holds
      incomplete. */
  lemma ToggleTaskCompletesStore(tasks: seq<Task>, taskId: Val, net: Net, s: Store)
    requires FindTask(tasks, taskId).Some?
    requires !FindTask(tasks, taskId).value.completed && FindTask(tasks, taskId).value.subtaskCount > 0
    requires ToggleTask(tasks, taskId, net).alert.None?
    requires forall st :: st in ExtractSubtasks(Listing(net, taskId)) && Completion(Some(st)) && IdOf(st) in s.subtasks ==>
      s.subtasks[IdOf(st)]
    ensures var s' := Apply(s, ToggleTask(tasks, taskId, net).calls, net);
            taskId in s.tasks ==> taskId in s'.tasks && s'.tasks[taskId]
    ensures var s' := Apply(s, ToggleTask(tasks, taskId, net).calls, net);
            forall st :: st in ExtractSubtasks(Listing(net, taskId)) && IdOf(st) in s.subtasks ==>
              IdOf(st) in s'.subtasks && s'.subtasks[IdOf(st)]
  {
    var items := ExtractSubtasks(Listing(net, taskId));
    var fan := CompleteEach(Seqs.Filter(items, Incomplete), taskId);
    SuccessfulCompletionTrace(tasks, taskId, net);
    ApplyAfterTaskUpdate(s, taskId, fan.calls, net);
    ApplyCompletions(ApplyCall(s, UpdateTask(taskId, true)), fan.calls, net);
    FanoutCompletesStore(ApplyCall(s, UpdateTask(taskId, true)), items, taskId, net);
  }

  /** The accepted task update and the fetch leave the subtasks alone, so the fan-out
      replays on the store the task update produced. */
  lemma ApplyAfterTaskUpdate(s: Store, taskId: Val, fan: seq<Call>, net: Net)
    requires UpdateTask(taskId, true) !in net.rejects
    ensures var s1 := ApplyCall(s, UpdateTask(taskId, true));
            && s1.subtasks == s.subtasks
            && Apply(s, [UpdateTask(taskId, true), FetchSubtasks(taskId)] + fan, net) == Apply(s1, fan, net)
  {
    var calls := [UpdateTask(taskId, true), FetchSubtasks(taskId)] + fan;
    assert calls[1..] == [FetchSubtasks(taskId)] + fan;
    assert calls[1..][1..] == fan;
  }

  /** An accepted fan-out over the incomplete subtasks of a listing leaves every listed
      subtask complete in the store, given the store agrees with the subtasks the listing
      reports complete. */
  lemma FanoutCompletesStore(s: Store, items: seq<Json>, taskId: Val, net: Net)
    requires !CompleteEach(Seqs.Filter(items, Incomplete), taskId).hitNull
    requires var fan := CompleteEach(Seqs.Filter(items, Incomplete), taskId);
             forall i :: 0 <= i < |fan.calls| ==> fan.calls[i] !in net.rejects
    requires forall st :: st in items && Completion(Some(st)) && IdOf(st) in s.subtasks ==> s.subtasks[IdOf(st)]
    ensures var s' := Apply(s, CompleteEach(Seqs.Filter(items, Incomplete), taskId).calls, net);
            forall st :: st in items && IdOf(st) in s.subtasks ==> IdOf(st) in s'.subtasks && s'.subtasks[IdOf(st)]
  {
    var pending := Seqs.Filter(items, Incomplete);
    var fan := CompleteEach(pending, taskId);
    ApplyCompletions(s, fan.calls, net);
    forall st | st in items && IdOf(st) in s.subtasks
      ensures IdOf(st) in Apply(s, fan.calls, net).subtasks && Apply(s, fan.calls, net).subtasks[IdOf(st)]
    {
      if Incomplete(st) {
        var k :| 0 <= k < |pending| && pending[k] == st;
        assert fan.calls[k].id == IdOf(st);
      }
    }
  }

  /** Un-completing a task leaves every subtask in the store as it was. */
  lemma UncompleteLeavesSubtasks(tasks: seq<Task>, taskId: Val, net: Net, s: Store)
    requires FindTask(tasks, taskId).Some? && FindTask(tasks, taskId).value.completed
    ensures Apply(s, ToggleTask(tasks, taskId, net).calls, net).subtasks == s.subtasks
  {
    ToggleTaskNoPropagation(tasks, taskId, net);
  }

  /** A blocked deletion leaves the store unchanged. */
  lemma BlockedDeleteLeavesStore(tasks: seq<Task>, taskId: Val, net: Net, s: Store)
    requires FindTask(tasks, taskId).Some? && FindTask(tasks, taskId).value.subtaskCount > 0
    requires exists i :: 0 <= i < |ExtractSubtasks(Listing(net, taskId))|
                         && !GuardDone(ExtractSubtasks(Listing(net, taskId))[i])
    ensures Apply(s, Delete(tasks, taskId, net).calls, net) == s
  {
    DeleteGuard(tasks, taskId, net);
    var items := ExtractSubtasks(Listing(net, taskId));
    var i :| 0 <= i < |items| && !GuardDone(items[i]);
    assert !(forall k :: 0 <= k < |items| ==> items[k] != JNull && GuardDone(items[k]));
    assert Delete(tasks, taskId, net).calls == [FetchSubtasks(taskId)];
  }
}
