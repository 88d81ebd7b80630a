/**
  What the runs of the task pool mean for those who use it: tasks are taken in the order of their
  submission, a task is executed unless it was cancelled in time, and its completion says which.
 */
module PoolRuns {
  import opened Options
  import opened Pool

  // ---- Records ----

  /** A step changes a record only as it may. */
  predicate RecordKept(s: State, s': State, e: Step, id: TaskId) {
    id in s.records ==>
      && id in s'.records && s'.records[id].hasCompletion == s.records[id].hasCompletion
      && (s'.records[id].cancelled <==> s.records[id].cancelled || e == SetCancelled(id))
      && (s.records[id].finished ==> s'.records[id].finished)
  }

  predicate RecordMade(s: State, s': State, e: Step, id: TaskId) {
    id !in s.records && id in s'.records ==>
      e.Push? && s.pushing == Some(id) && id in s.submitting && s'.records[id] == Record(s.submitting[id], false, false)
  }

  lemma ClientRecords(s: State, e: Step, id: TaskId)
    requires Enabled(s, e) && Ids(s) && ByClient(e)
    ensures RecordKept(s, Apply(s, e), e, id) && RecordMade(s, Apply(s, e), e, id)
  {
  }

  lemma ExecutorRecords(s: State, e: Step, id: TaskId)
    requires Enabled(s, e) && (ByExecutor(e) || e.Take?)
    ensures RecordKept(s, Apply(s, e), e, id) && RecordMade(s, Apply(s, e), e, id)
  {
  }

  lemma FinisherRecords(s: State, e: Step, id: TaskId)
    requires Enabled(s, e) && ByFinisher(e)
    ensures RecordKept(s, Apply(s, e), e, id) && RecordMade(s, Apply(s, e), e, id)
  {
  }

  lemma WindowRecords(s: State, e: Step, id: TaskId)
    requires Enabled(s, e) && ByWindow(e)
    ensures RecordKept(s, Apply(s, e), e, id) && RecordMade(s, Apply(s, e), e, id)
  {
  }

  lemma ShutdownRecords(s: State, e: Step, id: TaskId)
    requires Enabled(s, e) && ByShutdown(e)
    ensures RecordKept(s, Apply(s, e), e, id) && RecordMade(s, Apply(s, e), e, id)
  {
  }

  lemma StepRecords(s: State, e: Step, id: TaskId)
    requires Enabled(s, e) && Ids(s)
    ensures RecordKept(s, Apply(s, e), e, id) && RecordMade(s, Apply(s, e), e, id)
  {
    hide Enabled, Apply, Ids, RecordKept, RecordMade;
    if ByClient(e) {
      ClientRecords(s, e, id);
    } else if ByWindow(e) {
      WindowRecords(s, e, id);
    } else if ByShutdown(e) {
      ShutdownRecords(s, e, id);
    } else if ByFinisher(e) {
      FinisherRecords(s, e, id);
    } else {
      ExecutorRecords(s, e, id);
    }
  }

  lemma RunIds(n: nat, run: seq<State>, steps: seq<Step>, k: nat)
    requires IsRun(n, run, steps) && k <= |steps|
    ensures Ids(run[k]) && (k < |steps| ==> Enabled(run[k], steps[k]) && run[k + 1] == Apply(run[k], steps[k]))
  {
    RunInv(n, run, steps, k);
  }

  /** A record is cancelled if and only if Cancel has marked it. */
  lemma {:induction false} CancelledMeansAsked(n: nat, run: seq<State>, steps: seq<Step>, k: nat, id: TaskId)
    requires IsRun(n, run, steps) && k <= |steps| && Accepted(run[k], id)
    ensures run[k].records[id].cancelled <==> exists i | 0 <= i < k :: steps[i] == SetCancelled(id)
  {
    hide Enabled, Apply, Ids;
    if k > 0 {
      RunIds(n, run, steps, k - 1);
      StepRecords(run[k - 1], steps[k - 1], id);
      if Accepted(run[k - 1], id) {
        CancelledMeansAsked(n, run, steps, k - 1, id);
      } else {
        NeverMarked(n, run, steps, k - 1, id);
      }
    }
  }

  /** What is not accepted has not been marked. */
  lemma {:induction false} NeverMarked(n: nat, run: seq<State>, steps: seq<Step>, k: nat, id: TaskId)
    requires IsRun(n, run, steps) && k <= |steps| && !Accepted(run[k], id)
    ensures forall i | 0 <= i < k :: steps[i] != SetCancelled(id)
  {
    hide Apply, Ids;
    if k > 0 {
      RunIds(n, run, steps, k - 1);
      StepRecords(run[k - 1], steps[k - 1], id);
      NeverMarked(n, run, steps, k - 1, id);
    }
  }

  // ---- Handles ----

  /** Submit has taken the handle for a task with or without a completion callback. */
  ghost predicate Allocated(run: seq<State>, steps: seq<Step>, k: nat, id: TaskId, hasCompletion: bool)
    requires k <= |steps| < |run|
  {
    exists i | 0 <= i < k :: steps[i] == Allocate(hasCompletion) && run[i].nextId == id
  }

  predicate SubmittingMade(s: State, s': State, e: Step, id: TaskId) {
    id in s'.submitting ==>
      if id in s.submitting then s'.submitting[id] == s.submitting[id] || (e == Allocate(s'.submitting[id]) && s.nextId == id)
      else e == Allocate(s'.submitting[id]) && s.nextId == id
  }

  lemma StepSubmitting(s: State, at: map<TaskId, Place>, e: Step, id: TaskId)
    requires Enabled(s, e) && Places(s, at)
    ensures SubmittingMade(s, Apply(s, e), e, id)
  {
    if ByClient(e) {
      ClientSubmitting(s, e, id);
    } else {
      StepFrame(s, at, e);
      hide Apply, Enabled, Places;
    }
  }

  lemma ClientSubmitting(s: State, e: Step, id: TaskId)
    requires Enabled(s, e) && ByClient(e)
    ensures SubmittingMade(s, Apply(s, e), e, id)
  {
  }

  lemma AllocatedStays(run: seq<State>, steps: seq<Step>, k: nat, id: TaskId, hasCompletion: bool)
    requires k < |steps| < |run| && Allocated(run, steps, k, id, hasCompletion)
    ensures Allocated(run, steps, k + 1, id, hasCompletion)
  {
  }

  lemma AllocatedNow(run: seq<State>, steps: seq<Step>, k: nat, id: TaskId, hasCompletion: bool)
    requires k < |steps| < |run| && steps[k] == Allocate(hasCompletion) && run[k].nextId == id
    ensures Allocated(run, steps, k + 1, id, hasCompletion)
  {
  }

  lemma {:induction false} SubmittingWasAllocated(n: nat, run: seq<State>, steps: seq<Step>, k: nat, id: TaskId)
    requires IsRun(n, run, steps) && k <= |steps| && id in run[k].submitting
    ensures Allocated(run, steps, k, id, run[k].submitting[id])
  {
    hide Apply, Enabled, Allocated;
    if k > 0 {
      RunInv(n, run, steps, k - 1);
      StepSubmitting(run[k - 1], PlacesAlong(run, steps, k - 1), steps[k - 1], id);
      if id in run[k - 1].submitting && run[k].submitting[id] == run[k - 1].submitting[id] {
        SubmittingWasAllocated(n, run, steps, k - 1, id);
        AllocatedStays(run, steps, k - 1, id, run[k].submitting[id]);
      } else {
        AllocatedNow(run, steps, k - 1, id, run[k].submitting[id]);
      }
    }
  }

  /** An accepted task has a completion callback if and only if it was submitted with one. */
  lemma {:induction false} AcceptedAsSubmitted(n: nat, run: seq<State>, steps: seq<Step>, k: nat, id: TaskId)
    requires IsRun(n, run, steps) && k <= |steps| && Accepted(run[k], id)
    ensures Allocated(run, steps, k, id, run[k].records[id].hasCompletion)
  {
    hide Apply, Enabled, Allocated, Ids;
    if k > 0 {
      RunIds(n, run, steps, k - 1);
      StepRecords(run[k - 1], steps[k - 1], id);
      if Accepted(run[k - 1], id) {
        AcceptedAsSubmitted(n, run, steps, k - 1, id);
      } else {
        SubmittingWasAllocated(n, run, steps, k - 1, id);
      }
      AllocatedStays(run, steps, k - 1, id, run[k].records[id].hasCompletion);
    }
  }

  // ---- Executed unless cancelled ----

  /**
    A finished task that was not cancelled has been executed exactly once, and unless the drain
    came before it its completion has been called with FALSE and not with TRUE.
   */
  lemma FinishedMeansExecuted(n: nat, run: seq<State>, steps: seq<Step>, k: nat, id: TaskId)
    requires n > 0 && IsRun(n, run, steps) && k <= |steps| && Accepted(run[k], id)
    requires run[k].records[id].finished && !run[k].records[id].cancelled
    ensures run[k].runs[id] == 1
    ensures !Drained(run[k].window) ==> run[k].aborted[id] == 0 && run[k].reported[id] == Due(run[k], id)
  {
    RunInv(n, run, steps, k);
    WorkersStay(n, run, steps, k);
    assert At(run[k], PlacesAlong(run, steps, k), id);
  }

  /** A completion with cancelled = TRUE is called for a cancelled task, or by the drain. */
  lemma AbortedMeansCancelled(n: nat, run: seq<State>, steps: seq<Step>, k: nat, id: TaskId)
    requires IsRun(n, run, steps) && k <= |steps| && run[k].aborted[id] > 0
    ensures Accepted(run[k], id) && (run[k].records[id].cancelled || Drained(run[k].window))
  {
    RunInv(n, run, steps, k);
    assert At(run[k], PlacesAlong(run, steps, k), id);
  }

  /** No worker has looked yet at whether the task is cancelled. */
  predicate NotStarted(s: State, id: TaskId) {
    id in s.queue || exists w | 0 <= w < |s.workers| :: s.workers[w] == Holding(id)
  }

  /** The task has been cancelled and is not going to be executed or reported as executed. */
  predicate Skipped(s: State, id: TaskId) {
    && id in s.records && s.records[id].cancelled && s.runs[id] == 0 && s.reported[id] == 0
    && (forall w | 0 <= w < |s.workers| && Holds(s.workers[w], id) :: SkipsTask(s.workers[w]))
    && (id in s.posted ==> s.posted[id])
    && (s.window.UiCompleting? && s.window.id == id ==> s.window.flag)
  }

  predicate SkipsTask(pc: Worker) {
    !pc.Executing? && (pc.Reporting? || pc.Completing? ==> pc.flag)
  }

  lemma NotStartedSkipped(s: State, at: map<TaskId, Place>, id: TaskId)
    requires Inv(s, at) && Accepted(s, id) && NotStarted(s, id) && s.records[id].cancelled
    ensures Skipped(s, id)
  {
    assert At(s, at, id);
    hide Places, Ids, OnlyAccepted, Reports;
    if exists w | 0 <= w < |s.workers| :: s.workers[w] == Holding(id) {
      var w :| 0 <= w < |s.workers| && s.workers[w] == Holding(id);
      assert Holds(s.workers[w], id);
    }
  }

  lemma ClientSkips(s: State, e: Step, id: TaskId)
    requires Enabled(s, e) && Ids(s) && ByClient(e) && Skipped(s, id)
    ensures Skipped(Apply(s, e), id)
  {
  }

  lemma ExecutorSkips(s: State, e: Step, id: TaskId)
    requires Enabled(s, e) && (ByExecutor(e) || e.Take?) && Skipped(s, id)
    ensures Skipped(Apply(s, e), id)
  {
  }

  lemma CompleteSkips(s: State, e: Step, id: TaskId)
    requires Enabled(s, e) && e.Complete? && Skipped(s, id)
    ensures Skipped(Apply(s, e), id)
  {
  }

  lemma FinisherSkips(s: State, e: Step, id: TaskId)
    requires Enabled(s, e) && ByFinisher(e) && !e.Complete? && Skipped(s, id)
    ensures Skipped(Apply(s, e), id)
  {
  }

  lemma WindowSkips(s: State, e: Step, id: TaskId)
    requires Enabled(s, e) && ByWindow(e) && Skipped(s, id)
    ensures Skipped(Apply(s, e), id)
  {
  }

  lemma ShutdownSkips(s: State, e: Step, id: TaskId)
    requires Enabled(s, e) && ByShutdown(e) && Skipped(s, id)
    ensures Skipped(Apply(s, e), id)
  {
  }

  lemma StepSkips(s: State, e: Step, id: TaskId)
    requires Enabled(s, e) && Ids(s) && Skipped(s, id)
    ensures Skipped(Apply(s, e), id)
  {
    hide Enabled, Apply, Ids, Skipped;
    if ByClient(e) {
      ClientSkips(s, e, id);
    } else if ByWindow(e) {
      WindowSkips(s, e, id);
    } else if ByShutdown(e) {
      ShutdownSkips(s, e, id);
    } else if e.Complete? {
      CompleteSkips(s, e, id);
    } else if ByFinisher(e) {
      FinisherSkips(s, e, id);
    } else {
      ExecutorSkips(s, e, id);
    }
  }

  /**
    A task that is cancelled before a worker has looked at it is never executed, and never
    reported as executed.
   */
  lemma {:induction false} CancelledInTime(n: nat, run: seq<State>, steps: seq<Step>, j: nat, k: nat, id: TaskId)
    requires IsRun(n, run, steps) && j <= k <= |steps|
    requires Accepted(run[j], id) && NotStarted(run[j], id) && run[j].records[id].cancelled
    ensures Skipped(run[k], id) && run[k].runs[id] == 0 && run[k].reported[id] == 0
  {
    hide Enabled, Apply, Ids, NotStarted;
    if k == j {
      RunInv(n, run, steps, j);
      NotStartedSkipped(run[j], PlacesAlong(run, steps, j), id);
    } else {
      CancelledInTime(n, run, steps, j, k - 1, id);
      RunIds(n, run, steps, k - 1);
      StepSkips(run[k - 1], steps[k - 1], id);
    }
  }

  // ---- The order of submission ----

  /** The tasks that have been pushed by the first k steps. */
  ghost function Pushed(run: seq<State>, steps: seq<Step>, k: nat): seq<TaskId>
    requires k <= |steps| < |run|
  {
    if k == 0 then []
    else
      Pushed(run, steps, k - 1)
      + (if steps[k - 1].Push? && run[k - 1].pushing.Some? then [run[k - 1].pushing.value] else [])
  }

  /** The tasks that workers have taken in the first k steps: those they hold behind a Take. */
  ghost function Taken(run: seq<State>, steps: seq<Step>, k: nat): seq<TaskId>
    requires k <= |steps| < |run|
  {
    if k == 0 then []
    else
      Taken(run, steps, k - 1)
      + (if steps[k - 1].Take? && steps[k - 1].w < |run[k].workers| && run[k].workers[steps[k - 1].w].Holding?
         then [run[k].workers[steps[k - 1].w].id] else [])
  }

  lemma StepQueue(s: State, e: Step)
    requires Enabled(s, e) && !e.Drain?
    ensures var s' := Apply(s, e);
      if e.Push? then s.pushing.Some? && s'.queue == s.queue + [s.pushing.value]
      else if e.Take? && e.w < |s'.workers| && s'.workers[e.w].Holding? then s.queue == [s'.workers[e.w].id] + s'.queue
      else s'.queue == s.queue
  {
  }

  /** Workers take the tasks in the order in which they were pushed, and none is passed over. */
  lemma {:induction false} TakenInOrder(n: nat, run: seq<State>, steps: seq<Step>, k: nat)
    requires IsRun(n, run, steps) && k <= |steps| && !Drained(run[k].window)
    ensures Pushed(run, steps, k) == Taken(run, steps, k) + run[k].queue
  {
    hide Enabled, Apply, Ids;
    if k > 0 {
      RunIds(n, run, steps, k - 1);
      NotYetDrained(run[k - 1], steps[k - 1]);
      TakenInOrder(n, run, steps, k - 1);
      StepQueue(run[k - 1], steps[k - 1]);
    }
  }

  lemma NotYetDrained(s: State, e: Step)
    requires Enabled(s, e) && !Drained(Apply(s, e).window)
    ensures !Drained(s.window) && !e.Drain?
  {
  }
}
