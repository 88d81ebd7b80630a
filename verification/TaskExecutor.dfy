/**
  The class of lsapi/TaskExecutor.cpp, one method for every atomic section of its member
  functions. Each method takes one step of module Pool on the fields and adds it to the run
  so far, so that whatever order threads call the methods in, the object is at the end of a
  run of the pool, and what is proved of runs holds of it.
 */
module TaskExecutor {
  import opened Options
  import opened Pool
  import opened PoolRuns

  const MIN_THREADS: nat := 2
  const MAX_THREADS: nat := 4

  /** Number of workers for a machine with so many hardware threads, 0 when unknown: half of them, within limits. */
  function WorkerCount(hardware: nat): (n: nat)
    ensures 2 <= n <= 4 && (hardware == 0 ==> n == 3)
    ensures hardware > 0 ==> (2 * n <= hardware || n == 2) && (hardware < 2 * (n + 1) || n == 4)
  {
    if hardware == 0 then 3
    else if hardware / 2 < MIN_THREADS then MIN_THREADS
    else if hardware / 2 > MAX_THREADS then MAX_THREADS
    else hardware / 2
  }

  class TaskExecutor {
    var queue: seq<TaskId>
    var tasks: set<TaskId>
    var stopping: bool
    var nextId: nat
    var records: map<TaskId, Record>
    var submitting: map<TaskId, bool>
    var pushing: Option<TaskId>
    var cancelling: multiset<TaskId>
    var workers: seq<Worker>
    var posted: map<TaskId, bool>
    var window: Window
    ghost var runs: multiset<TaskId>
    ghost var reported: multiset<TaskId>
    ghost var aborted: multiset<TaskId>
    ghost const threads: nat
    ghost var run: seq<State>
    ghost var steps: seq<Step>

    ghost function View(): State
      reads this
    {
      State(queue, tasks, stopping, nextId, records, submitting, pushing, cancelling, workers, posted, window,
            runs, reported, aborted)
    }

    /** The object is at the end of a run. */
    ghost predicate Valid()
      reads this
    {
      threads > 0 && IsRun(threads, run, steps) && run[|steps|] == View()
    }

    constructor (hardware: nat)
      ensures Valid() && steps == [] && threads == WorkerCount(hardware)
    {
      queue, tasks, stopping, nextId := [], {}, false, 1;
      records, submitting, pushing, cancelling, posted, window := map[], map[], None, multiset{}, map[], Idle;
      workers := seq(WorkerCount(hardware), _ => Waiting);
      runs, reported, aborted := multiset{}, multiset{}, multiset{};
      threads, run, steps := WorkerCount(hardware), [Start(WorkerCount(hardware))], [];
    }

    // ---- The run ----

    /** A thread in front of a step can take it. */
    lemma Ready(e: Step)
      requires Valid() && InFront(View(), e)
      ensures Enabled(View(), e) && run[|steps|] == View()
    {
      hide Enabled, Apply, Inv;
      RunInv(threads, run, steps, |steps|);
      InFrontEnabled(View(), PlacesAlong(run, steps, |steps|), e);
    }

    /** Adds the step that has been taken to the run. */
    ghost method Advance(e: Step)
      requires threads > 0 && IsRun(threads, run, steps) && Enabled(run[|steps|], e) && View() == Apply(run[|steps|], e)
      modifies this`run, this`steps
      ensures Valid() && steps == old(steps) + [e]
    {
      hide Enabled, Apply;
      run, steps := run + [View()], steps + [e];
    }

    // ---- What holds between the steps ----

    /** Nothing that was accepted has been executed or completed more than once. */
    lemma AtMostOnce(id: TaskId)
      requires Valid() && id in records
      ensures runs[id] <= 1 && CallsOf(View(), id) <= Due(View(), id)
    {
      hide IsRun;
      var p := OnePlaceEach(threads, run, steps, |steps|, id);
    }

    /** After the drain everything that was accepted is finished and has been completed once. */
    lemma AllCompleted(id: TaskId)
      requires Valid() && window.Stopped? && id in records
      ensures records[id].finished && CallsOf(View(), id) == Due(View(), id)
    {
      hide IsRun;
      ShutdownLosesNothing(threads, run, steps, |steps|, id);
    }

    /** What was cancelled before a worker had looked at it is never executed, or reported as executed. */
    lemma CancelledIsSkipped(id: TaskId, j: nat)
      requires Valid() && j <= |steps| && id in run[j].records && run[j].records[id].cancelled && NotStarted(run[j], id)
      ensures runs[id] == 0 && reported[id] == 0
    {
      hide IsRun;
      CancelledInTime(threads, run, steps, j, |steps|, id);
    }

    /** What is finished and was not cancelled has been executed once. */
    lemma ExecutedUnlessCancelled(id: TaskId)
      requires Valid() && id in records && records[id].finished && !records[id].cancelled
      ensures runs[id] == 1
    {
      hide IsRun;
      FinishedMeansExecuted(threads, run, steps, |steps|, id);
    }

    // ---- Submit ----

    /** The first look at m_stopping, which may change right after it. */
    method SubmitLook(hasExecute: bool) returns (go: bool)
      ensures go <==> !stopping && hasExecute
    {
      go := !stopping && hasExecute;
    }

    method SubmitAllocate(hasCompletion: bool) returns (id: TaskId)
      requires Valid()
      modifies this
      ensures Valid() && steps == old(steps) + [Allocate(hasCompletion)] && id == old(nextId)
    {
      hide IsRun;
      Ready(Allocate(hasCompletion));
      id := nextId;
      nextId := nextId + 1;
      submitting := submitting[id := hasCompletion];
      Advance(Allocate(hasCompletion));
    }

    /** Takes m_mutex and looks at m_stopping again; false means that the submission is rejected. */
    method SubmitEnqueue(id: TaskId) returns (ok: bool)
      requires Valid() && pushing.None? && id in submitting
      modifies this
      ensures Valid() && steps == old(steps) + [Enqueue(id)]
      ensures ok <==> !old(stopping)
    {
      hide IsRun;
      Ready(Enqueue(id));
      ok := !stopping;
      if ok {
        pushing := Some(id);
      } else {
        submitting := submitting - {id};
      }
      Advance(Enqueue(id));
    }

    method SubmitPush() returns (handle: TaskId)
      requires Valid() && pushing.Some?
      modifies this
      ensures Valid() && steps == old(steps) + [Push]
      ensures handle == old(pushing.value) && handle in tasks && handle in records
    {
      hide IsRun, Apply, Enabled;
      Ready(Push);
      PushIs(View());
      handle := pushing.value;
      queue := queue + [handle];
      tasks := tasks + {handle};
      records := records[handle := Record(submitting[handle], false, false)];
      submitting := submitting - {handle};
      pushing := None;
      Advance(Push);
    }

    // ---- Cancel ----

    method CancelFind(handle: TaskId) returns (found: bool)
      requires Valid() && pushing.None?
      modifies this
      ensures Valid() && (found <==> handle in old(tasks))
      ensures if found then steps == old(steps) + [FindToCancel(handle)] && handle in cancelling else View() == old(View())
    {
      hide IsRun;
      found := handle in tasks;
      if found {
        Ready(FindToCancel(handle));
        cancelling := cancelling + multiset{handle};
        Advance(FindToCancel(handle));
      }
    }

    method CancelStore(id: TaskId)
      requires Valid() && id in cancelling
      modifies this
      ensures Valid() && steps == old(steps) + [SetCancelled(id)]
      ensures id in records && records[id].cancelled
    {
      hide IsRun;
      Ready(SetCancelled(id));
      cancelling := cancelling - multiset{id};
      records := records[id := records[id].(cancelled := true)];
      Advance(SetCancelled(id));
    }

    // ---- WorkerLoop ----

    method WorkerTake(w: WorkerId)
      requires Valid() && pushing.None?
      requires w < |workers| && workers[w].Waiting? && (stopping || |queue| > 0)
      modifies this
      ensures Valid() && steps == old(steps) + [Take(w)]
      ensures |workers| == |old(workers)|
      ensures if old(queue) == [] then workers[w].Exited? && stopping
              else workers[w] == Holding(old(queue)[0]) && old(queue) == [old(queue)[0]] + queue
    {
      hide IsRun;
      Ready(Take(w));
      if stopping && |queue| == 0 {
        workers := workers[w := Exited];
      } else if |queue| > 0 {
        workers := workers[w := Holding(queue[0])];
        queue := queue[1..];
      }
      Advance(Take(w));
    }

    /** A task that is cancelled by now is never executed, and never reported as executed. */
    method WorkerCheckCancelled(w: WorkerId)
      requires Valid() && w < |workers| && workers[w].Holding?
      modifies this
      ensures Valid() && steps == old(steps) + [CheckCancelled(w)]
      ensures |workers| == |old(workers)| && runs == old(runs) && reported == old(reported)
      ensures var id := old(workers[w].id);
        && id in records && id in old(records)
        && if old(records)[id].cancelled then workers[w] == Executed(id) && runs[id] == 0 && reported[id] == 0
           else workers[w] == Executing(id)
    {
      hide IsRun;
      Ready(CheckCancelled(w));
      var id := workers[w].id;
      if records[id].cancelled {
        CancelledIsSkipped(id, |steps|);
      }
      if !records[id].cancelled {
        workers := workers[w := Executing(id)];
      } else {
        workers := workers[w := Executed(id)];
      }
      Advance(CheckCancelled(w));
    }

    method WorkerExecute(w: WorkerId)
      requires Valid() && w < |workers| && workers[w].Executing?
      modifies this
      ensures Valid() && steps == old(steps) + [Execute(w)]
      ensures runs == old(runs) + multiset{old(workers[w].id)}
    {
      hide IsRun;
      Ready(Execute(w));
      runs := runs + multiset{workers[w].id};
      workers := workers[w := Executed(workers[w].id)];
      Advance(Execute(w));
    }

    method WorkerLoadFlag(w: WorkerId)
      requires Valid() && w < |workers| && workers[w].Executed?
      modifies this
      ensures Valid() && steps == old(steps) + [LoadFlag(w)]
      ensures records == old(records) && |workers| == |old(workers)|
      ensures var id := old(workers[w].id);
        && id in records
        && workers[w] == if records[id].hasCompletion then Reporting(id, records[id].cancelled) else Erasing(id)
    {
      hide IsRun;
      Ready(LoadFlag(w));
      var id := workers[w].id;
      if records[id].hasCompletion {
        workers := workers[w := Reporting(id, records[id].cancelled)];
      } else {
        workers := workers[w := Erasing(id)];
      }
      Advance(LoadFlag(w));
    }

    // ---- EnqueueCompletion ----

    /** created and delivered say whether there was memory, a window and room in its queue. */
    method EnqueueCompletion(w: WorkerId, created: bool, delivered: bool)
      requires Valid() && w < |workers| && workers[w].Reporting?
      modifies this
      ensures Valid() && steps == old(steps) + [if created && delivered then Post(w) else PostFails(w)]
    {
      hide IsRun;
      var id, flag := workers[w].id, workers[w].flag;
      if !created || !delivered {
        Ready(PostFails(w));
        workers := workers[w := Completing(id, flag)];
        Advance(PostFails(w));
        return;
      }
      Ready(Post(w));
      posted := posted[id := flag];
      workers := workers[w := Waiting];
      Advance(Post(w));
    }

    /** The call of completionProc, where the record has one. */
    method CallCompletion(id: TaskId, flag: bool)
      requires id in records
      modifies this`reported, this`aborted
      ensures View() == Called(old(View()), id, flag)
    {
      if records[id].hasCompletion {
        if flag {
          aborted := aborted + multiset{id};
        } else {
          reported := reported + multiset{id};
        }
      }
    }

    /** A completion that is not cancelled is reported of a task that has been executed. */
    method WorkerComplete(w: WorkerId)
      requires Valid() && w < |workers| && workers[w].Completing?
      modifies this
      ensures Valid() && steps == old(steps) + [Complete(w)]
      ensures forall id | reported[id] > 0 :: runs[id] == 1
    {
      hide IsRun, Apply, Enabled;
      Ready(Complete(w));
      CompleteIs(View(), w);
      CallCompletion(workers[w].id, workers[w].flag);
      workers := workers[w := Erasing(workers[w].id)];
      Advance(Complete(w));
      OnlyExecutedReported();
    }

    lemma OnlyExecutedReported()
      requires Valid()
      ensures forall id | reported[id] > 0 :: runs[id] == 1
    {
      hide IsRun;
      forall id | reported[id] > 0
        ensures runs[id] == 1
      {
        ReportedMeansExecuted(threads, run, steps, |steps|, id);
      }
    }

    // ---- FinalizeTask, by a worker ----

    method WorkerErase(w: WorkerId)
      requires Valid() && pushing.None? && w < |workers| && workers[w].Erasing?
      modifies this
      ensures Valid() && steps == old(steps) + [Erase(w)]
    {
      hide IsRun;
      Ready(Erase(w));
      tasks := tasks - {workers[w].id};
      workers := workers[w := Finishing(workers[w].id)];
      Advance(Erase(w));
    }

    method WorkerFinish(w: WorkerId)
      requires Valid() && w < |workers| && workers[w].Finishing?
      modifies this
      ensures Valid() && steps == old(steps) + [Finish(w)]
    {
      hide IsRun;
      Ready(Finish(w));
      var id := workers[w].id;
      records := records[id := records[id].(finished := true)];
      workers := workers[w := Waiting];
      Advance(Finish(w));
    }

    // ---- ProcessCompletionPayload, by the window's thread ----

    method ReceivePayload(id: TaskId)
      requires Valid() && window.Idle? && id in posted
      modifies this
      ensures Valid() && steps == old(steps) + [Receive(id)]
    {
      hide IsRun;
      Ready(Receive(id));
      window := UiCompleting(id, posted[id]);
      posted := posted - {id};
      Advance(Receive(id));
    }

    method CompletePayload()
      requires Valid() && window.UiCompleting?
      modifies this
      ensures Valid() && steps == old(steps) + [UiComplete]
      ensures forall id | reported[id] > 0 :: runs[id] == 1
    {
      hide IsRun, Apply, Enabled;
      Ready(UiComplete);
      UiCompleteIs(View());
      CallCompletion(window.id, window.flag);
      window := UiErasing(window.id);
      Advance(UiComplete);
      OnlyExecutedReported();
    }

    method ErasePayload()
      requires Valid() && pushing.None? && window.UiErasing?
      modifies this
      ensures Valid() && steps == old(steps) + [UiErase]
    {
      hide IsRun;
      Ready(UiErase);
      tasks := tasks - {window.id};
      window := UiFinishing(window.id);
      Advance(UiErase);
    }

    method FinishPayload()
      requires Valid() && window.UiFinishing?
      modifies this
      ensures Valid() && steps == old(steps) + [UiFinish]
    {
      hide IsRun;
      Ready(UiFinish);
      records := records[window.id := records[window.id].(finished := true)];
      window := Idle;
      Advance(UiFinish);
    }

    // ---- Shutdown ----

    /** The compare-and-exchange: false when the pool was stopping already. */
    method ShutdownBegin() returns (first: bool)
      requires Valid() && window.Idle?
      modifies this
      ensures Valid() && (first <==> !old(stopping))
      ensures if first then steps == old(steps) + [BeginShutdown] else View() == old(View())
    {
      hide IsRun;
      first := !stopping;
      if first {
        Ready(BeginShutdown);
        stopping := true;
        window := Joining;
        Advance(BeginShutdown);
      }
    }

    /**
      The section under m_mutex once all workers are joined, which takes the tasks in some
      order. They are those with an unprocessed payload.
     */
    method ShutdownCollect(order: seq<TaskId>)
      requires Valid() && pushing.None? && window.Joining? && forall w | 0 <= w < |workers| :: workers[w].Exited?
      requires NoDuplicates(order) && (set i | 0 <= i < |order| :: order[i]) == tasks
      modifies this
      ensures Valid() && steps == old(steps) + [Drain(order)]
      ensures forall id :: id in order <==> id in posted
    {
      hide IsRun;
      Ready(Drain(order));
      PostedRemain(order);
      window := Draining(order);
      tasks := {};
      queue := [];
      Advance(Drain(order));
    }

    lemma PostedRemain(order: seq<TaskId>)
      requires Valid() && window.Joining? && forall w | 0 <= w < |workers| :: workers[w].Exited?
      requires (set i | 0 <= i < |order| :: order[i]) == tasks
      ensures forall id :: id in order <==> id in posted
    {
      hide IsRun;
      forall id
        ensures id in order <==> id in posted
      {
        JoinedLeavesPosted(threads, run, steps, |steps|, id);
        assert id in order <==> id in tasks;
      }
    }

    /** When Shutdown is through, every accepted task is finished and has been completed exactly once. */
    method ShutdownCall()
      requires Valid() && window.Draining?
      modifies this
      ensures Valid() && steps == old(steps) + [DrainCall]
      ensures window.Stopped? ==>
        forall id | id in records :: records[id].finished && CallsOf(View(), id) == Due(View(), id)
    {
      hide IsRun, CallsOf, Due;
      Ready(DrainCall);
      if |window.todo| == 0 {
        window := Stopped;
      } else {
        CallCompletion(window.todo[0], true);
        window := DrainFinishing(window.todo);
      }
      Advance(DrainCall);
      if window.Stopped? {
        forall id | id in records
          ensures records[id].finished && CallsOf(View(), id) == Due(View(), id)
        {
          AllCompleted(id);
        }
      }
    }

    method ShutdownFinish()
      requires Valid() && window.DrainFinishing?
      modifies this
      ensures Valid() && steps == old(steps) + [Pool.DrainFinish]
    {
      hide IsRun;
      Ready(Pool.DrainFinish);
      var id := window.todo[0];
      records := records[id := records[id].(finished := true)];
      window := Draining(window.todo[1..]);
      Advance(Pool.DrainFinish);
    }

    // ---- Wait ----

    /** Wait returns at once when the handle is not registered; an accepted task has then been completed. */
    method WaitFind(handle: TaskId) returns (found: bool)
      requires Valid() && pushing.None?
      ensures found <==> handle in tasks
      ensures !found && handle in records && !stopping ==> CallsOf(View(), handle) == Due(View(), handle)
    {
      found := handle in tasks;
      if !found {
        CompletedBefore(handle);
      }
    }

    /** What Wait waits for, under the lock of the record that WaitFind found. */
    method WaitCheck(id: TaskId) returns (done: bool)
      requires Valid() && id in records
      ensures done <==> records[id].finished
      ensures done && !stopping ==> CallsOf(View(), id) == Due(View(), id)
    {
      done := records[id].finished;
      if done {
        CompletedBefore(id);
      }
    }

    lemma CompletedBefore(id: TaskId)
      requires Valid()
      ensures id in records && WaitReturns(View(), id) && !stopping ==> CallsOf(View(), id) == Due(View(), id)
    {
      hide IsRun;
      if id in records && WaitReturns(View(), id) && !stopping {
        WaitBeforeShutdown(threads, run, steps, |steps|, id);
      }
    }
  }
}
