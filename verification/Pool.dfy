/**
  The task pool of lsapi/TaskExecutor.cpp as interleaved atomic steps, one for each section
  under a lock and one for each access to shared data outside of the locks. Completions that
  have been posted are processed by the window's thread, which is also the thread that runs
  Shutdown, so that it processes none while it shuts down or after (lsapi/lsapiInit.cpp).
 */
module Pool {
  import opened Options

  type TaskId = nat
  type WorkerId = nat

  /** TaskRecord, as far as it changes, and whether a completion callback was given. */
  datatype Record = Record(hasCompletion: bool, cancelled: bool, finished: bool)

  /** Where a worker stands in WorkerLoop, EnqueueCompletion and FinalizeTask. */
  datatype Worker =
    | Waiting
    | Holding(id: TaskId)                    // took the task, has not looked at cancelled
    | Executing(id: TaskId)                  // is about to run executeProc
    | Executed(id: TaskId)                   // ran executeProc or skipped it
    | Reporting(id: TaskId, flag: bool)      // in EnqueueCompletion, with the flag to report
    | Completing(id: TaskId, flag: bool)     // could not post: is about to call completionProc
    | Erasing(id: TaskId)                    // in FinalizeTask, before the first lock
    | Finishing(id: TaskId)                  // in FinalizeTask, before the second lock
    | Exited

  /** Where the window's thread stands in ProcessCompletionPayload and Shutdown. */
  datatype Window =
    | Idle
    | UiCompleting(id: TaskId, flag: bool)
    | UiErasing(id: TaskId)
    | UiFinishing(id: TaskId)
    | Joining
    | Draining(todo: seq<TaskId>)            // is about to call completionProc of todo[0], if any
    | DrainFinishing(todo: seq<TaskId>)      // has called it
    | Stopped

  datatype State = State(
    queue: seq<TaskId>,                      // m_queue
    tasks: set<TaskId>,                      // the handles in m_tasks
    stopping: bool,                          // m_stopping
    nextId: nat,                             // m_nextId
    records: map<TaskId, Record>,
    submitting: map<TaskId, bool>,           // records made in Submit but not yet enqueued
    pushing: Option<TaskId>,                 // the one of them that Submit holds m_mutex for
    cancelling: multiset<TaskId>,            // records found by Cancel, cancelled not yet set
    workers: seq<Worker>,
    posted: map<TaskId, bool>,               // payloads in the message queue, with their flag
    window: Window,
    runs: multiset<TaskId>,                  // calls of executeProc so far
    reported: multiset<TaskId>,              // calls of completionProc with FALSE so far
    aborted: multiset<TaskId>                // calls of completionProc with TRUE so far
  )

  // ---- The steps ----

  datatype Step =
    | Allocate(hasCompletion: bool)          // Submit: takes a handle, outside of the lock
    | Enqueue(id: TaskId)                    // Submit: takes m_mutex and looks at m_stopping
    | Push                                   // Submit: enqueues, and releases m_mutex
    | FindToCancel(id: TaskId)               // Cancel: the section under m_mutex
    | SetCancelled(id: TaskId)               // Cancel: the store
    | Take(w: WorkerId)                      // WorkerLoop: the section under m_mutex
    | CheckCancelled(w: WorkerId)
    | Execute(w: WorkerId)
    | LoadFlag(w: WorkerId)                  // WorkerLoop: decides how to go on
    | Post(w: WorkerId)                      // EnqueueCompletion: PostMessage succeeds
    | PostFails(w: WorkerId)                 // EnqueueCompletion: no memory, no window or no room
    | Complete(w: WorkerId)
    | Erase(w: WorkerId)
    | Finish(w: WorkerId)
    | Receive(id: TaskId)                    // the window's thread gets a payload
    | UiComplete
    | UiErase
    | UiFinish
    | BeginShutdown
    | Drain(order: seq<TaskId>)              // all workers joined: the section under m_mutex
    | DrainCall
    | DrainFinish

  /** A task leaves the pool: m_tasks.erase. */
  function Erased(s: State, id: TaskId): State {
    s.(tasks := s.tasks - {id})
  }

  function Finished(s: State, id: TaskId): State
    requires id in s.records
  {
    s.(records := s.records[id := s.records[id].(finished := true)])
  }

  /** completionProc, where there is one. */
  function Called(s: State, id: TaskId, flag: bool): State
    requires id in s.records
  {
    if !s.records[id].hasCompletion then s
    else if flag then s.(aborted := s.aborted + multiset{id})
    else s.(reported := s.reported + multiset{id})
  }

  function Move(s: State, w: WorkerId, pc: Worker): State
    requires w < |s.workers|
  {
    s.(workers := s.workers[w := pc])
  }

  /**
    No submitter holds m_mutex. The other sections under it are one step each, but m_stopping,
    which Shutdown sets without the lock, can change while a submitter is between its steps.
   */
  predicate Unlocked(s: State) {
    s.pushing.None?
  }

  predicate NoDuplicates(q: seq<TaskId>) {
    forall i, j | 0 <= i < j < |q| :: q[i] != q[j]
  }

  /** The step can be taken: its thread stands in front of it and is not blocked. */
  predicate Enabled(s: State, e: Step) {
    match e
    case Allocate(_) => true             // m_stopping may be set after the first look at it
    case Enqueue(id) => Unlocked(s) && id in s.submitting
    case Push => s.pushing.Some? && s.pushing.value in s.submitting
    case FindToCancel(id) => Unlocked(s) && id in s.tasks
    case SetCancelled(id) => id in s.cancelling && id in s.records
    case Take(w) => Unlocked(s) && w < |s.workers| && s.workers[w].Waiting? && (s.stopping || |s.queue| > 0)
    case CheckCancelled(w) => w < |s.workers| && s.workers[w].Holding? && s.workers[w].id in s.records
    case Execute(w) => w < |s.workers| && s.workers[w].Executing?
    case LoadFlag(w) => w < |s.workers| && s.workers[w].Executed? && s.workers[w].id in s.records
    case Post(w) => w < |s.workers| && s.workers[w].Reporting?
    case PostFails(w) => w < |s.workers| && s.workers[w].Reporting?
    case Complete(w) => w < |s.workers| && s.workers[w].Completing? && s.workers[w].id in s.records
    case Erase(w) => Unlocked(s) && w < |s.workers| && s.workers[w].Erasing?
    case Finish(w) => w < |s.workers| && s.workers[w].Finishing? && s.workers[w].id in s.records
    case Receive(id) => s.window.Idle? && id in s.posted
    case UiComplete => s.window.UiCompleting? && s.window.id in s.records
    case UiErase => Unlocked(s) && s.window.UiErasing?
    case UiFinish => s.window.UiFinishing? && s.window.id in s.records
    case BeginShutdown => s.window.Idle? && !s.stopping
    case Drain(order) =>
      && Unlocked(s) && s.window.Joining? && (forall w | 0 <= w < |s.workers| :: s.workers[w].Exited?)
      && NoDuplicates(order) && (set i | 0 <= i < |order| :: order[i]) == s.tasks
    case DrainCall => s.window.Draining? && (|s.window.todo| > 0 ==> s.window.todo[0] in s.records)
    case DrainFinish => s.window.DrainFinishing? && |s.window.todo| > 0 && s.window.todo[0] in s.records
  }

  function Apply(s: State, e: Step): State
    requires Enabled(s, e)
  {
    match e
    case Allocate(hasCompletion) =>
      s.(nextId := s.nextId + 1, submitting := s.submitting[s.nextId := hasCompletion])
    case Enqueue(id) =>
      if s.stopping then s.(submitting := s.submitting - {id}) else s.(pushing := Some(id))
    case Push =>
      var id := s.pushing.value;
      s.(pushing := None, submitting := s.submitting - {id}, queue := s.queue + [id], tasks := s.tasks + {id},
         records := s.records[id := Record(s.submitting[id], false, false)])
    case FindToCancel(id) => s.(cancelling := s.cancelling + multiset{id})
    case SetCancelled(id) =>
      s.(cancelling := s.cancelling - multiset{id},
         records := s.records[id := s.records[id].(cancelled := true)])
    case Take(w) =>
      if |s.queue| == 0 then Move(s, w, Exited)
      else Move(s.(queue := s.queue[1..]), w, Holding(s.queue[0]))
    case CheckCancelled(w) =>
      var id := s.workers[w].id;
      Move(s, w, if s.records[id].cancelled then Executed(id) else Executing(id))
    case Execute(w) =>
      var id := s.workers[w].id;
      Move(s.(runs := s.runs + multiset{id}), w, Executed(id))
    case LoadFlag(w) =>
      var id := s.workers[w].id;
      Move(s, w, if s.records[id].hasCompletion then Reporting(id, s.records[id].cancelled) else Erasing(id))
    case Post(w) =>
      var pc := s.workers[w];
      Move(s.(posted := s.posted[pc.id := pc.flag]), w, Waiting)
    case PostFails(w) => Move(s, w, Completing(s.workers[w].id, s.workers[w].flag))
    case Complete(w) =>
      var pc := s.workers[w];
      Move(Called(s, pc.id, pc.flag), w, Erasing(pc.id))
    case Erase(w) => Move(Erased(s, s.workers[w].id), w, Finishing(s.workers[w].id))
    case Finish(w) => Move(Finished(s, s.workers[w].id), w, Waiting)
    case Receive(id) => s.(posted := s.posted - {id}, window := UiCompleting(id, s.posted[id]))
    case UiComplete => Called(s, s.window.id, s.window.flag).(window := UiErasing(s.window.id))
    case UiErase => Erased(s, s.window.id).(window := UiFinishing(s.window.id))
    case UiFinish => Finished(s, s.window.id).(window := Idle)
    case BeginShutdown => s.(stopping := true, window := Joining)
    case Drain(order) => s.(tasks := {}, queue := [], window := Draining(order))
    case DrainCall =>
      if |s.window.todo| == 0 then s.(window := Stopped)
      else Called(s, s.window.todo[0], true).(window := DrainFinishing(s.window.todo))
    case DrainFinish => Finished(s, s.window.todo[0]).(window := Draining(s.window.todo[1..]))
  }

  /** The constructor: n workers, nothing submitted. */
  function Start(n: nat): State {
    State([], {}, false, 1, map[], map[], None, multiset{}, seq(n, _ => Waiting), map[], Idle, multiset{}, multiset{}, multiset{})
  }

  /** A run: states that follow each other by enabled steps from the start. */
  ghost predicate IsRun(n: nat, run: seq<State>, steps: seq<Step>) {
    && |run| == |steps| + 1 && run[0] == Start(n)
    && forall i | 0 <= i < |steps| :: Enabled(run[i], steps[i]) && run[i + 1] == Apply(run[i], steps[i])
  }

  // ---- Where a task is ----

  datatype Place = Queued | AtWorker(w: WorkerId) | Posted | AtWindow | ToDrain | Done

  predicate Holds(pc: Worker, id: TaskId) {
    !pc.Waiting? && !pc.Exited? && pc.id == id
  }

  predicate WindowHolds(win: Window, id: TaskId) {
    (win.UiCompleting? || win.UiErasing? || win.UiFinishing?) && win.id == id
  }

  predicate Drained(win: Window) {
    win.Draining? || win.DrainFinishing? || win.Stopped?
  }

  function Todo(win: Window): seq<TaskId> {
    if win.Draining? || win.DrainFinishing? then win.todo else []
  }

  /** The drain has called the task's completion callback but not yet marked it finished. */
  predicate InDrain(win: Window, id: TaskId) {
    win.DrainFinishing? && |win.todo| > 0 && id == win.todo[0]
  }

  /** The pool's data say that the task is at this place. A payload left behind counts no more. */
  predicate Located(s: State, id: TaskId, p: Place) {
    match p
    case Queued => id in s.queue
    case AtWorker(w) => w < |s.workers| && Holds(s.workers[w], id)
    case Posted => id in s.posted && !Drained(s.window)
    case AtWindow => WindowHolds(s.window, id)
    case ToDrain => id in Todo(s.window)
    case Done => id in s.records && s.records[id].finished
  }

  /** Completion callbacks the task has had. */
  function CallsOf(s: State, id: TaskId): nat {
    s.aborted[id] + s.reported[id]
  }

  function Due(s: State, id: TaskId): nat
    requires id in s.records
  {
    if s.records[id].hasCompletion then 1 else 0
  }

  /** A completion with this flag may be reported: the task was cancelled, or else executed. */
  predicate MayReport(s: State, id: TaskId, flag: bool)
    requires id in s.records
  {
    s.records[id].hasCompletion && s.runs[id] <= 1 && (if flag then s.records[id].cancelled else s.runs[id] == 1)
  }

  /** The task has been executed, or cancelled; a pool without workers executes none. */
  predicate Settled(s: State, id: TaskId)
    requires id in s.records
  {
    s.runs[id] <= 1 && (s.runs[id] == 1 || s.records[id].cancelled || |s.workers| == 0)
  }

  /** It has been reported as cancelled only if it was, or by the drain. */
  predicate Truthful(s: State, id: TaskId)
    requires id in s.records
  {
    s.aborted[id] > 0 ==> s.records[id].cancelled || Drained(s.window)
  }

  /** What holds of a task at its place. */
  predicate TaskOk(s: State, id: TaskId, p: Place)
    requires id in s.records && Located(s, id, p)
  {
    match p
    case Queued => s.runs[id] == 0 && CallsOf(s, id) == 0 && id in s.tasks
    case AtWorker(w) => WorkerOk(s, id, s.workers[w])
    case Posted => MayReport(s, id, s.posted[id]) && CallsOf(s, id) == 0 && id in s.tasks
    case AtWindow =>
      && Settled(s, id) && Truthful(s, id) && s.records[id].hasCompletion
      && (id in s.tasks <==> !s.window.UiFinishing?)
      && CallsOf(s, id) == (if s.window.UiCompleting? then 0 else 1)
      && (s.window.UiCompleting? ==> MayReport(s, id, s.window.flag))
    case ToDrain =>
      && Settled(s, id) && id !in s.tasks
      && CallsOf(s, id) == (if InDrain(s.window, id) then Due(s, id) else 0)
    case Done => Settled(s, id) && Truthful(s, id) && CallsOf(s, id) == Due(s, id) && id !in s.tasks
  }

  predicate WorkerOk(s: State, id: TaskId, pc: Worker)
    requires id in s.records
  {
    && s.runs[id] <= 1 && Truthful(s, id)
    && (id in s.tasks <==> !pc.Finishing?)
    && CallsOf(s, id) == (if pc.Erasing? || pc.Finishing? then Due(s, id) else 0)
    && match pc
       case Holding(_) => s.runs[id] == 0
       case Executing(_) => s.runs[id] == 0
       case Reporting(_, flag) => MayReport(s, id, flag)
       case Completing(_, flag) => MayReport(s, id, flag)
       case _ => Settled(s, id)
  }

  /** The task is at the place that the map gives and at no other, and as it should be there. */
  ghost predicate At(s: State, at: map<TaskId, Place>, id: TaskId) {
    && (id in at <==> id in s.records)
    && (id in at ==> Located(s, id, at[id]) && TaskOk(s, id, at[id]))
    && OnlyAt(s, if id in at then Some(at[id]) else None, id)
  }

  ghost predicate OnlyAt(s: State, p: Option<Place>, id: TaskId) {
    && (id in s.queue ==> p == Some(Queued))
    && (forall w | 0 <= w < |s.workers| && Holds(s.workers[w], id) :: p == Some(AtWorker(w)))
    && (id in s.posted && !Drained(s.window) ==> p == Some(Posted))
    && (WindowHolds(s.window, id) ==> p == Some(AtWindow))
    && (id in Todo(s.window) ==> p == Some(ToDrain))
    && (id in s.records && s.records[id].finished ==> p == Some(Done))
  }

  /** At says that there is exactly one place. */
  lemma ExactlyOnePlace(s: State, at: map<TaskId, Place>, id: TaskId, p: Place)
    requires At(s, at, id)
    ensures Located(s, id, p) <==> id in at && at[id] == p
  {
  }

  ghost predicate Places(s: State, at: map<TaskId, Place>) {
    forall id :: At(s, at, id)
  }

  ghost predicate Ids(s: State) {
    && (forall id | id in s.records :: id < s.nextId && id !in s.submitting)
    && (forall id | id in s.submitting :: id < s.nextId)
    && (s.pushing.Some? ==> s.pushing.value in s.submitting)
    && (forall id | id in s.tasks :: id in s.records)
    && (forall id | id in s.cancelling :: id in s.records)
  }

  /** Nothing has been called for a handle that was not accepted. */
  ghost predicate OnlyAccepted(s: State) {
    forall id | id !in s.records :: s.runs[id] == 0 && CallsOf(s, id) == 0
  }

  predicate Lists(s: State) {
    && NoDuplicates(s.queue) && NoDuplicates(Todo(s.window))
    && (s.window.DrainFinishing? ==> |s.window.todo| > 0)
  }

  ghost predicate Phases(s: State) {
    && (s.stopping <==> s.window.Joining? || Drained(s.window))
    && (forall w | 0 <= w < |s.workers| && s.workers[w].Exited? :: s.stopping && s.queue == [] && Unlocked(s))
    && (Drained(s.window) ==> s.queue == [] && Unlocked(s) && s.tasks == {} && forall w | 0 <= w < |s.workers| :: s.workers[w].Exited?)
  }

  /** Only an executed task is reported as not cancelled. */
  ghost predicate Reports(s: State) {
    forall id | s.reported[id] > 0 :: s.runs[id] == 1
  }

  ghost predicate Inv(s: State, at: map<TaskId, Place>) {
    Places(s, at) && Ids(s) && OnlyAccepted(s) && Lists(s) && Phases(s) && Reports(s)
  }

  lemma StartInv(n: nat)
    ensures Inv(Start(n), map[])
  {
  }

  /** Where each task is after a step. */
  ghost function After(s: State, at: map<TaskId, Place>, e: Step): map<TaskId, Place>
    requires Enabled(s, e)
  {
    match e
    case Push => at[s.pushing.value := Queued]
    case Take(w) => if |s.queue| == 0 then at else at[s.queue[0] := AtWorker(w)]
    case Post(w) => at[s.workers[w].id := Posted]
    case Finish(w) => at[s.workers[w].id := Done]
    case Receive(id) => at[id := AtWindow]
    case UiFinish => at[s.window.id := Done]
    case Drain(order) => map id | id in at :: if at[id].Done? then Done else ToDrain
    case DrainFinish => at[s.window.todo[0] := Done]
    case _ => at
  }

  /** Nothing that concerns the task changes from s to s'. */
  ghost predicate Untouched(s: State, s': State, id: TaskId) {
    && (id in s.queue <==> id in s'.queue)
    && |s.workers| == |s'.workers|
    && (forall w | 0 <= w < |s.workers| && (Holds(s.workers[w], id) || Holds(s'.workers[w], id)) ::
          s.workers[w] == s'.workers[w])
    && (id in s.posted <==> id in s'.posted) && (id in s.posted ==> s.posted[id] == s'.posted[id])
    && (Drained(s.window) <==> Drained(s'.window))
    && (WindowHolds(s.window, id) || WindowHolds(s'.window, id) ==> s.window == s'.window)
    && (id in Todo(s.window) <==> id in Todo(s'.window))
    && (InDrain(s.window, id) <==> InDrain(s'.window, id))
    && (id in s.records <==> id in s'.records) && (id in s.records ==> s.records[id] == s'.records[id])
    && (id in s.tasks <==> id in s'.tasks)
    && s.runs[id] == s'.runs[id]
    && s.aborted[id] == s'.aborted[id] && s.reported[id] == s'.reported[id]
  }

  lemma UntouchedStays(s: State, s': State, at: map<TaskId, Place>, at': map<TaskId, Place>, id: TaskId)
    requires At(s, at, id) && Untouched(s, s', id)
    requires (id in at <==> id in at') && (id in at ==> at[id] == at'[id])
    ensures At(s', at', id)
  {
  }

  /** A step that touches no task. */
  lemma NoTask(s: State, e: Step, at: map<TaskId, Place>)
    requires Enabled(s, e) && Places(s, at) && After(s, at, e) == at
    requires forall id :: Untouched(s, Apply(s, e), id)
    ensures Places(Apply(s, e), After(s, at, e))
  {
    hide At, Untouched, Apply, After, Enabled;
    forall id
      ensures At(Apply(s, e), at, id)
    {
      assert At(s, at, id);
      UntouchedStays(s, Apply(s, e), at, at, id);
    }
  }

  /** A step that touches one task only. */
  lemma OneTask(s: State, e: Step, at: map<TaskId, Place>, id0: TaskId)
    requires Enabled(s, e) && Places(s, at)
    requires At(s, at, id0) ==> At(Apply(s, e), After(s, at, e), id0)
    requires forall id | id != id0 :: Untouched(s, Apply(s, e), id)
    requires forall id | id != id0 :: id in After(s, at, e) <==> id in at
    requires forall id | id != id0 && id in at :: After(s, at, e)[id] == at[id]
    ensures Places(Apply(s, e), After(s, at, e))
  {
    hide At, Untouched, Apply, After, Enabled;
    forall id
      ensures At(Apply(s, e), After(s, at, e), id)
    {
      assert At(s, at, id);
      if id != id0 {
        UntouchedStays(s, Apply(s, e), at, After(s, at, e), id);
      }
    }
  }

  lemma AllocatePlaces(s: State, at: map<TaskId, Place>, hasCompletion: bool)
    requires Inv(s, at) && Enabled(s, Allocate(hasCompletion))
    ensures Places(Apply(s, Allocate(hasCompletion)), After(s, at, Allocate(hasCompletion)))
  {
    var e := Allocate(hasCompletion);
    NoTask(s, e, at);
  }

  lemma EnqueuePlaces(s: State, at: map<TaskId, Place>, id: TaskId)
    requires Inv(s, at) && Enabled(s, Enqueue(id))
    ensures Places(Apply(s, Enqueue(id)), After(s, at, Enqueue(id)))
  {
    NoTask(s, Enqueue(id), at);
  }

  lemma PushTouched(s: State, at: map<TaskId, Place>)
    requires Places(s, at) && Ids(s) && OnlyAccepted(s) && Phases(s) && Enabled(s, Push)
    ensures At(Apply(s, Push), After(s, at, Push), s.pushing.value)
  {
    assert At(s, at, s.pushing.value);
  }

  lemma PushUntouched(s: State, id: TaskId)
    requires Enabled(s, Push) && id != s.pushing.value
    ensures Untouched(s, Apply(s, Push), id)
  {
  }

  lemma PushPlaces(s: State, at: map<TaskId, Place>)
    requires Inv(s, at) && Enabled(s, Push)
    ensures Places(Apply(s, Push), After(s, at, Push))
  {
    hide At, Untouched, Apply, Ids, Phases, OnlyAccepted, Lists, Reports;
    PushTouched(s, at);
    forall id | id != s.pushing.value
      ensures Untouched(s, Apply(s, Push), id)
    {
      PushUntouched(s, id);
    }
    OneTask(s, Push, at, s.pushing.value);
  }

  lemma FindToCancelPlaces(s: State, at: map<TaskId, Place>, id: TaskId)
    requires Inv(s, at) && Enabled(s, FindToCancel(id))
    ensures Places(Apply(s, FindToCancel(id)), After(s, at, FindToCancel(id)))
  {
    var e := FindToCancel(id);
    assert At(s, at, id);
    NoTask(s, e, at);
  }

  lemma SetCancelledTouched(s: State, at: map<TaskId, Place>, id: TaskId)
    requires Inv(s, at) && Enabled(s, SetCancelled(id))
    ensures At(Apply(s, SetCancelled(id)), After(s, at, SetCancelled(id)), id)
  {
    assert At(s, at, id);
  }

  lemma SetCancelledPlaces(s: State, at: map<TaskId, Place>, id: TaskId)
    requires Inv(s, at) && Enabled(s, SetCancelled(id))
    ensures Places(Apply(s, SetCancelled(id)), After(s, at, SetCancelled(id)))
  {
    hide At, TaskOk, OnlyAt, Located;
    SetCancelledTouched(s, at, id);
    OneTask(s, SetCancelled(id), at, id);
  }

  lemma TakeTouched(s: State, at: map<TaskId, Place>, w: WorkerId)
    requires Places(s, at) && Lists(s) && Enabled(s, Take(w)) && |s.queue| > 0
    ensures At(Apply(s, Take(w)), After(s, at, Take(w)), s.queue[0])
  {
    assert At(s, at, s.queue[0]);
  }

  lemma TakeUntouched(s: State, w: WorkerId, id: TaskId)
    requires Enabled(s, Take(w)) && (|s.queue| > 0 ==> id != s.queue[0])
    ensures Untouched(s, Apply(s, Take(w)), id)
  {
    if |s.queue| > 0 {
      assert id in s.queue <==> id in s.queue[1..];
    }
  }

  lemma TakePlaces(s: State, at: map<TaskId, Place>, w: WorkerId)
    requires Inv(s, at) && Enabled(s, Take(w))
    ensures Places(Apply(s, Take(w)), After(s, at, Take(w)))
  {
    hide At, Untouched, Apply, Ids, Phases, OnlyAccepted, Lists, Reports;
    forall id | |s.queue| == 0 || id != s.queue[0]
      ensures Untouched(s, Apply(s, Take(w)), id)
    {
      TakeUntouched(s, w, id);
    }
    if |s.queue| == 0 {
      NoTask(s, Take(w), at);
    } else {
      TakeTouched(s, at, w);
      OneTask(s, Take(w), at, s.queue[0]);
    }
  }

  lemma CheckCancelledPlaces(s: State, at: map<TaskId, Place>, w: WorkerId)
    requires Inv(s, at) && Enabled(s, CheckCancelled(w))
    ensures Places(Apply(s, CheckCancelled(w)), After(s, at, CheckCancelled(w)))
  {
    var e, id := CheckCancelled(w), s.workers[w].id;
    assert At(s, at, id);
    assert At(Apply(s, e), After(s, at, e), id);
    hide At, TaskOk, OnlyAt, Located;
    OneTask(s, e, at, id);
  }

  lemma ExecuteTouched(s: State, at: map<TaskId, Place>, w: WorkerId)
    requires Inv(s, at) && Enabled(s, Execute(w))
    ensures At(Apply(s, Execute(w)), After(s, at, Execute(w)), s.workers[w].id)
  {
    assert At(s, at, s.workers[w].id);
  }

  lemma ExecuteUntouched(s: State, w: WorkerId, id: TaskId)
    requires Enabled(s, Execute(w)) && id != s.workers[w].id
    ensures Untouched(s, Apply(s, Execute(w)), id)
  {
  }

  lemma ExecutePlaces(s: State, at: map<TaskId, Place>, w: WorkerId)
    requires Inv(s, at) && Enabled(s, Execute(w))
    ensures Places(Apply(s, Execute(w)), After(s, at, Execute(w)))
  {
    hide At, TaskOk, OnlyAt, Located, Untouched;
    ExecuteTouched(s, at, w);
    forall id | id != s.workers[w].id
      ensures Untouched(s, Apply(s, Execute(w)), id)
    {
      ExecuteUntouched(s, w, id);
    }
    OneTask(s, Execute(w), at, s.workers[w].id);
  }

  lemma LoadFlagPlaces(s: State, at: map<TaskId, Place>, w: WorkerId)
    requires Inv(s, at) && Enabled(s, LoadFlag(w))
    ensures Places(Apply(s, LoadFlag(w)), After(s, at, LoadFlag(w)))
  {
    var e, id := LoadFlag(w), s.workers[w].id;
    assert At(s, at, id);
    assert At(Apply(s, e), After(s, at, e), id);
    hide At, TaskOk, OnlyAt, Located;
    OneTask(s, e, at, id);
  }

  lemma PostTouched(s: State, at: map<TaskId, Place>, w: WorkerId)
    requires Inv(s, at) && Enabled(s, Post(w))
    ensures At(Apply(s, Post(w)), After(s, at, Post(w)), s.workers[w].id)
  {
    assert At(s, at, s.workers[w].id);
  }

  lemma PostPlaces(s: State, at: map<TaskId, Place>, w: WorkerId)
    requires Inv(s, at) && Enabled(s, Post(w))
    ensures Places(Apply(s, Post(w)), After(s, at, Post(w)))
  {
    hide At, TaskOk, OnlyAt, Located;
    PostTouched(s, at, w);
    OneTask(s, Post(w), at, s.workers[w].id);
  }

  lemma PostFailsTouched(s: State, at: map<TaskId, Place>, w: WorkerId)
    requires Inv(s, at) && Enabled(s, PostFails(w))
    ensures At(Apply(s, PostFails(w)), After(s, at, PostFails(w)), s.workers[w].id)
  {
    assert At(s, at, s.workers[w].id);
  }

  lemma PostFailsPlaces(s: State, at: map<TaskId, Place>, w: WorkerId)
    requires Inv(s, at) && Enabled(s, PostFails(w))
    ensures Places(Apply(s, PostFails(w)), After(s, at, PostFails(w)))
  {
    hide At, TaskOk, OnlyAt, Located;
    PostFailsTouched(s, at, w);
    OneTask(s, PostFails(w), at, s.workers[w].id);
  }

  lemma CompleteTouched(s: State, at: map<TaskId, Place>, w: WorkerId)
    requires Inv(s, at) && Enabled(s, Complete(w))
    ensures At(Apply(s, Complete(w)), at, s.workers[w].id)
  {
    assert At(s, at, s.workers[w].id);
  }

  lemma CompleteUntouched(s: State, w: WorkerId, id: TaskId)
    requires Enabled(s, Complete(w)) && id != s.workers[w].id
    ensures Untouched(s, Apply(s, Complete(w)), id)
  {
  }

  lemma CompletePlaces(s: State, at: map<TaskId, Place>, w: WorkerId)
    requires Inv(s, at) && Enabled(s, Complete(w))
    ensures Places(Apply(s, Complete(w)), After(s, at, Complete(w)))
  {
    hide At, Untouched, Apply, Ids, Phases, OnlyAccepted, Lists, Reports;
    CompleteTouched(s, at, w);
    forall id | id != s.workers[w].id
      ensures Untouched(s, Apply(s, Complete(w)), id)
    {
      CompleteUntouched(s, w, id);
    }
    OneTask(s, Complete(w), at, s.workers[w].id);
  }

  lemma EraseTouched(s: State, at: map<TaskId, Place>, w: WorkerId)
    requires Inv(s, at) && Enabled(s, Erase(w))
    ensures At(Apply(s, Erase(w)), After(s, at, Erase(w)), s.workers[w].id)
  {
    assert At(s, at, s.workers[w].id);
  }

  lemma ErasePlaces(s: State, at: map<TaskId, Place>, w: WorkerId)
    requires Inv(s, at) && Enabled(s, Erase(w))
    ensures Places(Apply(s, Erase(w)), After(s, at, Erase(w)))
  {
    hide At, TaskOk, OnlyAt, Located;
    EraseTouched(s, at, w);
    OneTask(s, Erase(w), at, s.workers[w].id);
  }

  lemma FinishTouched(s: State, at: map<TaskId, Place>, w: WorkerId)
    requires Inv(s, at) && Enabled(s, Finish(w))
    ensures At(Apply(s, Finish(w)), After(s, at, Finish(w)), s.workers[w].id)
  {
    assert At(s, at, s.workers[w].id);
  }

  lemma FinishPlaces(s: State, at: map<TaskId, Place>, w: WorkerId)
    requires Inv(s, at) && Enabled(s, Finish(w))
    ensures Places(Apply(s, Finish(w)), After(s, at, Finish(w)))
  {
    hide At, TaskOk, OnlyAt, Located;
    FinishTouched(s, at, w);
    OneTask(s, Finish(w), at, s.workers[w].id);
  }

  lemma ReceiveTouched(s: State, at: map<TaskId, Place>, id: TaskId)
    requires Inv(s, at) && Enabled(s, Receive(id))
    ensures At(Apply(s, Receive(id)), After(s, at, Receive(id)), id)
  {
    assert At(s, at, id);
  }

  lemma ReceivePlaces(s: State, at: map<TaskId, Place>, id: TaskId)
    requires Inv(s, at) && Enabled(s, Receive(id))
    ensures Places(Apply(s, Receive(id)), After(s, at, Receive(id)))
  {
    hide At, TaskOk, OnlyAt, Located;
    ReceiveTouched(s, at, id);
    OneTask(s, Receive(id), at, id);
  }

  lemma UiCompleteTouched(s: State, at: map<TaskId, Place>)
    requires Inv(s, at) && Enabled(s, UiComplete)
    ensures At(Apply(s, UiComplete), After(s, at, UiComplete), s.window.id)
  {
    assert At(s, at, s.window.id);
  }

  lemma UiCompletePlaces(s: State, at: map<TaskId, Place>)
    requires Inv(s, at) && Enabled(s, UiComplete)
    ensures Places(Apply(s, UiComplete), After(s, at, UiComplete))
  {
    hide At, TaskOk, OnlyAt, Located;
    UiCompleteTouched(s, at);
    OneTask(s, UiComplete, at, s.window.id);
  }

  lemma UiEraseTouched(s: State, at: map<TaskId, Place>)
    requires Inv(s, at) && Enabled(s, UiErase)
    ensures At(Apply(s, UiErase), After(s, at, UiErase), s.window.id)
  {
    assert At(s, at, s.window.id);
  }

  lemma UiErasePlaces(s: State, at: map<TaskId, Place>)
    requires Inv(s, at) && Enabled(s, UiErase)
    ensures Places(Apply(s, UiErase), After(s, at, UiErase))
  {
    hide At, TaskOk, OnlyAt, Located;
    UiEraseTouched(s, at);
    OneTask(s, UiErase, at, s.window.id);
  }

  lemma UiFinishTouched(s: State, at: map<TaskId, Place>)
    requires Inv(s, at) && Enabled(s, UiFinish)
    ensures At(Apply(s, UiFinish), After(s, at, UiFinish), s.window.id)
  {
    assert At(s, at, s.window.id);
  }

  lemma UiFinishPlaces(s: State, at: map<TaskId, Place>)
    requires Inv(s, at) && Enabled(s, UiFinish)
    ensures Places(Apply(s, UiFinish), After(s, at, UiFinish))
  {
    hide At, TaskOk, OnlyAt, Located;
    UiFinishTouched(s, at);
    OneTask(s, UiFinish, at, s.window.id);
  }

  lemma BeginShutdownPlaces(s: State, at: map<TaskId, Place>)
    requires Inv(s, at) && Enabled(s, BeginShutdown)
    ensures Places(Apply(s, BeginShutdown), After(s, at, BeginShutdown))
  {
    var e := BeginShutdown;
    NoTask(s, e, at);
  }

  /** When all workers are joined, what is not done is posted, unless there are no workers at all. */
  lemma LeftAtJoin(s: State, at: map<TaskId, Place>, id: TaskId)
    requires At(s, at, id) && id in at && Phases(s) && s.window.Joining?
    requires forall w | 0 <= w < |s.workers| :: s.workers[w].Exited?
    ensures at[id].Done? || at[id].Posted? || (at[id].Queued? && |s.workers| == 0)
    ensures !at[id].Done? ==> id in s.tasks && Settled(s, id) && CallsOf(s, id) == 0
  {
    assert |s.workers| > 0 ==> s.workers[0].Exited?;
  }

  function Collected(s: State, order: seq<TaskId>): State {
    s.(tasks := {}, queue := [], window := Draining(order))
  }

  lemma DrainedTask(s: State, at: map<TaskId, Place>, at': map<TaskId, Place>, order: seq<TaskId>, id: TaskId)
    requires At(s, at, id) && id in at && id in order && Settled(s, id) && CallsOf(s, id) == 0
    requires s.window.Joining? && forall w | 0 <= w < |s.workers| :: s.workers[w].Exited?
    requires !at[id].Done? && id in at' && at'[id] == ToDrain
    ensures At(Collected(s, order), at', id)
  {
  }

  lemma NotDrainedTask(s: State, at: map<TaskId, Place>, at': map<TaskId, Place>, order: seq<TaskId>, id: TaskId)
    requires At(s, at, id) && (id in at ==> at[id].Done?) && id !in order
    requires s.window.Joining? && (id in at <==> id in at') && (id in at ==> at'[id] == Done)
    ensures At(Collected(s, order), at', id)
  {
  }

  lemma DrainTouched(s: State, at: map<TaskId, Place>, order: seq<TaskId>, id: TaskId)
    requires Inv(s, at) && Enabled(s, Drain(order))
    ensures At(Apply(s, Drain(order)), After(s, at, Drain(order)), id)
  {
    assert At(s, at, id);
    assert id in order <==> id in s.tasks;
    hide NoDuplicates, Places, Lists, Reports, OnlyAccepted, TaskOk, OnlyAt, Settled;
    if id in at {
      LeftAtJoin(s, at, id);
    }
    assert Apply(s, Drain(order)) == Collected(s, order);
    if id in at && !at[id].Done? {
      DrainedTask(s, at, After(s, at, Drain(order)), order, id);
    } else {
      assert id in at ==> id !in s.tasks by { DoneIsErased(s, at, id); }
      assert id !in order;
      NotDrainedTask(s, at, After(s, at, Drain(order)), order, id);
    }
  }

  lemma DoneIsErased(s: State, at: map<TaskId, Place>, id: TaskId)
    requires At(s, at, id)
    ensures id in at && at[id].Done? ==> id !in s.tasks
  {
  }

  lemma DrainPlaces(s: State, at: map<TaskId, Place>, order: seq<TaskId>)
    requires Inv(s, at) && Enabled(s, Drain(order))
    ensures Places(Apply(s, Drain(order)), After(s, at, Drain(order)))
  {
    hide Inv, At, Apply, After, Enabled;
    forall id
      ensures At(Apply(s, Drain(order)), After(s, at, Drain(order)), id)
    {
      DrainTouched(s, at, order, id);
    }
  }

  lemma DrainCallTouched(s: State, at: map<TaskId, Place>)
    requires Inv(s, at) && Enabled(s, DrainCall) && |s.window.todo| > 0
    ensures At(Apply(s, DrainCall), at, s.window.todo[0])
  {
    assert At(s, at, s.window.todo[0]);
  }

  lemma DrainCallUntouched(s: State, id: TaskId)
    requires Enabled(s, DrainCall) && (|s.window.todo| > 0 ==> id != s.window.todo[0])
    ensures Untouched(s, Apply(s, DrainCall), id)
  {
  }

  lemma DrainCallPlaces(s: State, at: map<TaskId, Place>)
    requires Inv(s, at) && Enabled(s, DrainCall)
    ensures Places(Apply(s, DrainCall), After(s, at, DrainCall))
  {
    hide At, TaskOk, OnlyAt, Untouched;
    forall id | |s.window.todo| == 0 || id != s.window.todo[0]
      ensures Untouched(s, Apply(s, DrainCall), id)
    {
      DrainCallUntouched(s, id);
    }
    if |s.window.todo| == 0 {
      NoTask(s, DrainCall, at);
    } else {
      DrainCallTouched(s, at);
      OneTask(s, DrainCall, at, s.window.todo[0]);
    }
  }

  lemma DrainFinishTouched(s: State, at: map<TaskId, Place>)
    requires Inv(s, at) && Enabled(s, DrainFinish)
    ensures At(Apply(s, DrainFinish), After(s, at, DrainFinish), s.window.todo[0])
  {
    assert At(s, at, s.window.todo[0]);
  }

  lemma DrainFinishPlaces(s: State, at: map<TaskId, Place>)
    requires Inv(s, at) && Enabled(s, DrainFinish)
    ensures Places(Apply(s, DrainFinish), After(s, at, DrainFinish))
  {
    hide At, TaskOk, OnlyAt, Located;
    assert forall q :: q in s.window.todo <==> q == s.window.todo[0] || q in s.window.todo[1..];
    DrainFinishTouched(s, at);
    OneTask(s, DrainFinish, at, s.window.todo[0]);
  }

  lemma StepPlaces(s: State, at: map<TaskId, Place>, e: Step)
    requires Inv(s, at) && Enabled(s, e)
    ensures Places(Apply(s, e), After(s, at, e))
  {
    hide Inv, Enabled, Apply, After;
    match e
    case Allocate(hasCompletion) => AllocatePlaces(s, at, hasCompletion);
    case Enqueue(id) => EnqueuePlaces(s, at, id);
    case Push => PushPlaces(s, at);
    case FindToCancel(id) => FindToCancelPlaces(s, at, id);
    case SetCancelled(id) => SetCancelledPlaces(s, at, id);
    case Take(w) => TakePlaces(s, at, w);
    case CheckCancelled(w) => CheckCancelledPlaces(s, at, w);
    case Execute(w) => ExecutePlaces(s, at, w);
    case LoadFlag(w) => LoadFlagPlaces(s, at, w);
    case Post(w) => PostPlaces(s, at, w);
    case PostFails(w) => PostFailsPlaces(s, at, w);
    case Complete(w) => CompletePlaces(s, at, w);
    case Erase(w) => ErasePlaces(s, at, w);
    case Finish(w) => FinishPlaces(s, at, w);
    case Receive(id) => ReceivePlaces(s, at, id);
    case UiComplete => UiCompletePlaces(s, at);
    case UiErase => UiErasePlaces(s, at);
    case UiFinish => UiFinishPlaces(s, at);
    case BeginShutdown => BeginShutdownPlaces(s, at);
    case Drain(order) => DrainPlaces(s, at, order);
    case DrainCall => DrainCallPlaces(s, at);
    case DrainFinish => DrainFinishPlaces(s, at);
  }

  // ---- The steps in groups ----

  predicate ByClient(e: Step) {
    e.Allocate? || e.Enqueue? || e.Push? || e.FindToCancel? || e.SetCancelled?
  }

  predicate ByExecutor(e: Step) {
    e.CheckCancelled? || e.Execute? || e.LoadFlag? || e.Post?
  }

  predicate ByFinisher(e: Step) {
    e.PostFails? || e.Complete? || e.Erase? || e.Finish?
  }

  predicate ByWindow(e: Step) {
    e.Receive? || e.UiComplete? || e.UiErase? || e.UiFinish?
  }

  predicate ByShutdown(e: Step) {
    e.BeginShutdown? || e.Drain? || e.DrainCall? || e.DrainFinish?
  }

  /** What all steps keep but those of the clients. */
  ghost predicate Framed(s: State, s': State) {
    && s'.records.Keys == s.records.Keys && s'.submitting == s.submitting && s'.pushing == s.pushing
    && s'.cancelling == s.cancelling && s'.nextId == s.nextId && s'.tasks <= s.tasks
    && |s'.workers| == |s.workers| && |s'.queue| <= |s.queue| && (s.stopping ==> s'.stopping)
    && forall id | id !in s.records :: s'.runs[id] == s.runs[id] && CallsOf(s', id) == CallsOf(s, id)
  }

  lemma ExecutorFrame(s: State, at: map<TaskId, Place>, e: Step)
    requires Places(s, at) && Enabled(s, e) && ByExecutor(e)
    ensures Framed(s, Apply(s, e))
  {
    assert At(s, at, s.workers[e.w].id);
  }

  lemma FinisherFrame(s: State, e: Step)
    requires Enabled(s, e) && ByFinisher(e)
    ensures Framed(s, Apply(s, e))
  {
    hide Framed, Apply, Enabled;
    if e.Complete? {
      CompleteFrame(s, e);
    } else {
      FinisherFrameRest(s, e);
    }
  }

  lemma CompleteFrame(s: State, e: Step)
    requires Enabled(s, e) && e.Complete?
    ensures Framed(s, Apply(s, e))
  {
  }

  lemma FinisherFrameRest(s: State, e: Step)
    requires Enabled(s, e) && ByFinisher(e) && !e.Complete?
    ensures Framed(s, Apply(s, e))
  {
  }

  lemma TakeFrame(s: State, e: Step)
    requires Enabled(s, e) && e.Take?
    ensures Framed(s, Apply(s, e))
  {
  }

  lemma WindowFrame(s: State, e: Step)
    requires Enabled(s, e) && ByWindow(e)
    ensures Framed(s, Apply(s, e))
  {
    hide Framed, Apply, Enabled;
    if e.UiComplete? {
      UiCompleteFrame(s, e);
    } else {
      WindowFrameRest(s, e);
    }
  }

  lemma UiCompleteFrame(s: State, e: Step)
    requires Enabled(s, e) && e.UiComplete?
    ensures Framed(s, Apply(s, e))
  {
  }

  lemma WindowFrameRest(s: State, e: Step)
    requires Enabled(s, e) && ByWindow(e) && !e.UiComplete?
    ensures Framed(s, Apply(s, e))
  {
  }

  lemma ShutdownFrame(s: State, e: Step)
    requires Enabled(s, e) && ByShutdown(e)
    ensures Framed(s, Apply(s, e))
  {
    hide Framed, Apply, Enabled;
    if e.DrainCall? {
      DrainCallFrame(s, e);
    } else {
      ShutdownFrameRest(s, e);
    }
  }

  lemma DrainCallFrame(s: State, e: Step)
    requires Enabled(s, e) && e.DrainCall?
    ensures Framed(s, Apply(s, e))
  {
  }

  lemma ShutdownFrameRest(s: State, e: Step)
    requires Enabled(s, e) && ByShutdown(e) && !e.DrainCall?
    ensures Framed(s, Apply(s, e))
  {
  }

  lemma StepFrame(s: State, at: map<TaskId, Place>, e: Step)
    requires Places(s, at) && Enabled(s, e) && !ByClient(e)
    ensures Framed(s, Apply(s, e))
  {
    hide Places, Enabled, Apply, Framed;
    if ByExecutor(e) {
      ExecutorFrame(s, at, e);
    } else if ByFinisher(e) {
      FinisherFrame(s, e);
    } else if ByWindow(e) {
      WindowFrame(s, e);
    } else if ByShutdown(e) {
      ShutdownFrame(s, e);
    } else {
      TakeFrame(s, e);
    }
  }

  lemma FramedIds(s: State, s': State)
    requires Ids(s) && OnlyAccepted(s) && Framed(s, s')
    ensures Ids(s') && OnlyAccepted(s')
  {
    hide CallsOf;
  }

  // ---- The steps of the clients ----

  lemma AllocateIds(s: State, hasCompletion: bool)
    requires Ids(s) && Enabled(s, Allocate(hasCompletion))
    ensures Ids(Apply(s, Allocate(hasCompletion)))
  {
  }

  lemma EnqueueIds(s: State, id: TaskId)
    requires Ids(s) && Enabled(s, Enqueue(id))
    ensures Ids(Apply(s, Enqueue(id)))
  {
  }

  lemma PushIds(s: State)
    requires Ids(s) && Enabled(s, Push)
    ensures Ids(Apply(s, Push))
  {
  }

  lemma FindToCancelIds(s: State, id: TaskId)
    requires Ids(s) && Enabled(s, FindToCancel(id))
    ensures Ids(Apply(s, FindToCancel(id)))
  {
  }

  lemma SetCancelledIds(s: State, id: TaskId)
    requires Ids(s) && Enabled(s, SetCancelled(id))
    ensures Ids(Apply(s, SetCancelled(id)))
  {
  }

  lemma ClientIds(s: State, e: Step)
    requires Ids(s) && Enabled(s, e) && ByClient(e)
    ensures Ids(Apply(s, e))
  {
    hide Ids, Enabled, Apply;
    match e
    case Allocate(hasCompletion) => AllocateIds(s, hasCompletion);
    case Enqueue(id) => EnqueueIds(s, id);
    case Push => PushIds(s);
    case FindToCancel(id) => FindToCancelIds(s, id);
    case SetCancelled(id) => SetCancelledIds(s, id);
  }

  /** A client changes none of what the workers and the window do. */
  ghost predicate Beside(s: State, s': State) {
    && s'.records.Keys >= s.records.Keys && s'.runs == s.runs && s'.reported == s.reported && s'.aborted == s.aborted
    && s'.workers == s.workers && s'.window == s.window && s'.stopping == s.stopping
    && (s.stopping ==> Arriving(s') <= Arriving(s))
    && (Unlocked(s) ==> s'.queue == s.queue && s'.tasks == s.tasks)
    && (s.stopping && Unlocked(s) ==> Unlocked(s') && s'.records.Keys == s.records.Keys)
  }

  /** The tasks in the queue and the one that is being pushed. */
  function Arriving(s: State): nat {
    |s.queue| + (if s.pushing.Some? then 1 else 0)
  }

  lemma ClientBeside(s: State, e: Step)
    requires Enabled(s, e) && ByClient(e)
    ensures Beside(s, Apply(s, e))
  {
  }

  lemma BesideKeeps(s: State, s': State)
    requires Phases(s) && Reports(s) && OnlyAccepted(s) && Beside(s, s')
    ensures Phases(s') && Reports(s') && OnlyAccepted(s')
  {
  }

  // ---- The phases of the pool ----

  ghost predicate KeepsPhase(s: State, s': State, w: WorkerId) {
    && s'.window == s.window && s'.queue == s.queue && s'.stopping == s.stopping && s'.tasks <= s.tasks
    && s'.pushing == s.pushing
    && w < |s.workers| == |s'.workers| && !s.workers[w].Exited? && !s'.workers[w].Exited?
    && forall v | 0 <= v < |s.workers| && v != w :: s'.workers[v] == s.workers[v]
  }

  /** A worker that goes on does not exit, and leaves the queue, the window and the flag alone. */
  lemma ExecutorKeeps(s: State, e: Step)
    requires Enabled(s, e) && ByExecutor(e)
    ensures KeepsPhase(s, Apply(s, e), e.w)
  {
  }

  lemma FinisherKeeps(s: State, e: Step)
    requires Enabled(s, e) && ByFinisher(e)
    ensures KeepsPhase(s, Apply(s, e), e.w)
  {
  }

  lemma PhaseIsKept(s: State, s': State, w: WorkerId)
    requires Phases(s) && Lists(s) && KeepsPhase(s, s', w)
    ensures Phases(s') && Lists(s')
  {
    hide NoDuplicates;
  }

  lemma TakePhases(s: State, w: WorkerId)
    requires Phases(s) && Lists(s) && Enabled(s, Take(w))
    ensures Phases(Apply(s, Take(w))) && Lists(Apply(s, Take(w)))
  {
  }

  predicate Processing(win: Window) {
    win.Idle? || win.UiCompleting? || win.UiErasing? || win.UiFinishing?
  }

  ghost predicate KeepsWorkers(s: State, s': State) {
    && s'.queue == s.queue && s'.stopping == s.stopping && s'.pushing == s.pushing && s'.workers == s.workers
    && s'.tasks <= s.tasks && Processing(s.window) && Processing(s'.window)
  }

  lemma WindowKeeps(s: State, e: Step)
    requires Enabled(s, e) && ByWindow(e)
    ensures KeepsWorkers(s, Apply(s, e))
  {
  }

  lemma WindowPhases(s: State, e: Step)
    requires Phases(s) && Lists(s) && Enabled(s, e) && ByWindow(e)
    ensures Phases(Apply(s, e)) && Lists(Apply(s, e))
  {
    hide NoDuplicates, Apply, Enabled, ByWindow;
    WindowKeeps(s, e);
  }

  lemma ShutdownPhases(s: State, e: Step)
    requires Phases(s) && Lists(s) && Enabled(s, e) && ByShutdown(e)
    ensures Phases(Apply(s, e)) && Lists(Apply(s, e))
  {
  }

  lemma StepPhases(s: State, e: Step)
    requires Phases(s) && Lists(s) && Enabled(s, e) && !ByClient(e)
    ensures Phases(Apply(s, e)) && Lists(Apply(s, e))
  {
    hide Phases, Lists, Enabled, Apply, KeepsPhase;
    if ByExecutor(e) {
      ExecutorKeeps(s, e);
      PhaseIsKept(s, Apply(s, e), e.w);
    } else if ByFinisher(e) {
      FinisherKeeps(s, e);
      PhaseIsKept(s, Apply(s, e), e.w);
    } else if ByWindow(e) {
      WindowPhases(s, e);
    } else if ByShutdown(e) {
      ShutdownPhases(s, e);
    } else {
      TakePhases(s, e.w);
    }
  }

  lemma ClientLists(s: State, at: map<TaskId, Place>, e: Step)
    requires Places(s, at) && Ids(s) && Lists(s) && Enabled(s, e) && ByClient(e)
    ensures Lists(Apply(s, e))
  {
    if e.Push? {
      PushLists(s, at);
    }
  }

  lemma PushLists(s: State, at: map<TaskId, Place>)
    requires Places(s, at) && Ids(s) && Lists(s) && Enabled(s, Push)
    ensures Lists(Apply(s, Push))
  {
    assert At(s, at, s.pushing.value);
  }

  // ---- What has been reported ----

  lemma ExecutorReports(s: State, at: map<TaskId, Place>, e: Step)
    requires Places(s, at) && Reports(s) && Enabled(s, e) && ByExecutor(e)
    ensures Reports(Apply(s, e))
  {
    assert At(s, at, s.workers[e.w].id);
  }

  lemma FinisherReports(s: State, at: map<TaskId, Place>, e: Step)
    requires Places(s, at) && Reports(s) && Enabled(s, e) && ByFinisher(e)
    ensures Reports(Apply(s, e))
  {
    assert At(s, at, s.workers[e.w].id);
  }

  lemma WindowReports(s: State, at: map<TaskId, Place>, e: Step)
    requires Places(s, at) && Reports(s) && Enabled(s, e) && ByWindow(e)
    ensures Reports(Apply(s, e))
  {
    if e.UiComplete? {
      assert At(s, at, s.window.id);
    }
  }

  lemma OtherReports(s: State, e: Step)
    requires Reports(s) && Enabled(s, e) && (ByShutdown(e) || e.Take?)
    ensures Reports(Apply(s, e))
  {
  }

  lemma StepReports(s: State, at: map<TaskId, Place>, e: Step)
    requires Places(s, at) && Reports(s) && Enabled(s, e) && !ByClient(e)
    ensures Reports(Apply(s, e))
  {
    hide Places, Enabled, Apply, Reports;
    if ByExecutor(e) {
      ExecutorReports(s, at, e);
    } else if ByFinisher(e) {
      FinisherReports(s, at, e);
    } else if ByWindow(e) {
      WindowReports(s, at, e);
    } else {
      OtherReports(s, e);
    }
  }

  /** Every step keeps the invariant. */
  lemma StepInv(s: State, at: map<TaskId, Place>, e: Step)
    requires Inv(s, at) && Enabled(s, e)
    ensures Inv(Apply(s, e), After(s, at, e))
  {
    hide Places, Ids, OnlyAccepted, Lists, Phases, Reports, Enabled, Apply, After, ByClient, Framed, Beside;
    StepPlaces(s, at, e);
    if ByClient(e) {
      ClientIds(s, e);
      ClientLists(s, at, e);
      ClientBeside(s, e);
      BesideKeeps(s, Apply(s, e));
    } else {
      StepFrame(s, at, e);
      FramedIds(s, Apply(s, e));
      StepPhases(s, e);
      StepReports(s, at, e);
    }
  }

  /** Where the tasks are after the first k steps of a run. */
  ghost function PlacesAlong(run: seq<State>, steps: seq<Step>, k: nat): map<TaskId, Place>
    requires k <= |steps| && |run| == |steps| + 1
    requires forall i | 0 <= i < |steps| :: Enabled(run[i], steps[i])
  {
    if k == 0 then map[] else After(run[k - 1], PlacesAlong(run, steps, k - 1), steps[k - 1])
  }

  lemma {:induction false} RunInv(n: nat, run: seq<State>, steps: seq<Step>, k: nat)
    requires IsRun(n, run, steps) && k <= |steps|
    ensures Inv(run[k], PlacesAlong(run, steps, k))
  {
    hide Inv, Apply, After, Enabled;
    if k == 0 {
      StartInv(n);
    } else {
      RunInv(n, run, steps, k - 1);
      StepInv(run[k - 1], PlacesAlong(run, steps, k - 1), steps[k - 1]);
    }
  }

  // ---- What holds in every state of every run ----

  /** The task has been taken into the pool by Submit. */
  predicate Accepted(s: State, id: TaskId) {
    id in s.records
  }

  /**
    In every state of every run each accepted task is at exactly one place; it has been
    executed and completed at most once each, and is registered until it is erased.
   */
  lemma OnePlaceEach(n: nat, run: seq<State>, steps: seq<Step>, k: nat, id: TaskId) returns (p: Place)
    requires IsRun(n, run, steps) && k <= |steps| && Accepted(run[k], id)
    ensures Located(run[k], id, p) && forall q :: Located(run[k], id, q) ==> q == p
    ensures run[k].runs[id] <= 1 && CallsOf(run[k], id) <= Due(run[k], id)
    ensures id in run[k].tasks <==>
      p.Queued? || p.Posted? || (p.AtWorker? && !run[k].workers[p.w].Finishing?) || (p.AtWindow? && !run[k].window.UiFinishing?)
  {
    RunInv(n, run, steps, k);
    var s, at := run[k], PlacesAlong(run, steps, k);
    assert At(s, at, id);
    p := at[id];
    forall q
      ensures Located(s, id, q) ==> q == p
    {
      ExactlyOnePlace(s, at, id, q);
    }
  }

  /** A completion with cancelled = FALSE follows exactly one execution. */
  lemma ReportedMeansExecuted(n: nat, run: seq<State>, steps: seq<Step>, k: nat, id: TaskId)
    requires IsRun(n, run, steps) && k <= |steps| && run[k].reported[id] > 0
    ensures run[k].runs[id] == 1
  {
    RunInv(n, run, steps, k);
  }

  ghost predicate Monotone(s: State, s': State) {
    && |s'.workers| == |s.workers|
    && (s.stopping ==> s'.stopping && Arriving(s') <= Arriving(s))
  }

  lemma StepMonotone(s: State, at: map<TaskId, Place>, e: Step)
    requires Inv(s, at) && Enabled(s, e)
    ensures Monotone(s, Apply(s, e))
  {
    hide Places, Enabled, Apply, ByClient, Ids, OnlyAccepted, Lists, Phases, Reports;
    if ByClient(e) {
      ClientBeside(s, e);
    } else {
      StepFrame(s, at, e);
    }
  }

  /** A pool that stops goes on stopping, and takes in no task but the one that is being pushed. */
  lemma {:induction false} StoppingStays(n: nat, run: seq<State>, steps: seq<Step>, j: nat, k: nat)
    requires IsRun(n, run, steps) && j <= k <= |steps| && run[j].stopping
    ensures run[k].stopping && Arriving(run[k]) <= Arriving(run[j])
  {
    hide Apply, Enabled, Inv, Arriving;
    if j < k {
      StoppingStays(n, run, steps, j, k - 1);
      RunInv(n, run, steps, k - 1);
      StepMonotone(run[k - 1], PlacesAlong(run, steps, k - 1), steps[k - 1]);
    }
  }

  /** Once a worker has exited, the pool is stopping and nothing is queued or pushed any more, for good. */
  lemma ExitedMeansDrained(n: nat, run: seq<State>, steps: seq<Step>, j: nat, k: nat, w: WorkerId)
    requires IsRun(n, run, steps) && j <= k <= |steps|
    requires w < |run[j].workers| && run[j].workers[w].Exited?
    ensures run[k].stopping && run[k].queue == [] && run[k].pushing.None?
  {
    RunInv(n, run, steps, j);
    StoppingStays(n, run, steps, j, k);
  }

  /** When all workers are joined, what is left are exactly the tasks with an unprocessed payload. */
  lemma JoinedLeavesPosted(n: nat, run: seq<State>, steps: seq<Step>, k: nat, id: TaskId)
    requires n > 0 && IsRun(n, run, steps) && k <= |steps| && run[k].window.Joining?
    requires forall w | 0 <= w < |run[k].workers| :: run[k].workers[w].Exited?
    ensures id in run[k].tasks <==> id in run[k].posted
  {
    RunInv(n, run, steps, k);
    WorkersStay(n, run, steps, k);
    var s, at := run[k], PlacesAlong(run, steps, k);
    assert At(s, at, id);
    assert s.workers[0].Exited?;
  }

  lemma {:induction false} WorkersStay(n: nat, run: seq<State>, steps: seq<Step>, k: nat)
    requires IsRun(n, run, steps) && k <= |steps|
    ensures |run[k].workers| == n
  {
    hide Apply, Enabled, Inv, Arriving;
    if k > 0 {
      WorkersStay(n, run, steps, k - 1);
      RunInv(n, run, steps, k - 1);
      StepMonotone(run[k - 1], PlacesAlong(run, steps, k - 1), steps[k - 1]);
    }
  }

  /**
    After the drain every accepted task is finished, has been completed exactly once if it
    has a completion callback, and never more than executed once.
   */
  lemma ShutdownLosesNothing(n: nat, run: seq<State>, steps: seq<Step>, k: nat, id: TaskId)
    requires n > 0 && IsRun(n, run, steps) && k <= |steps| && run[k].window.Stopped? && Accepted(run[k], id)
    ensures run[k].records[id].finished && CallsOf(run[k], id) == Due(run[k], id) && run[k].runs[id] <= 1
  {
    RunInv(n, run, steps, k);
    WorkersStay(n, run, steps, k);
    var s, at := run[k], PlacesAlong(run, steps, k);
    assert At(s, at, id);
  }

  /** After the drain the pool is at rest: a step there accepts, runs and reports nothing. */
  lemma StoppedIsFinal(s: State, at: map<TaskId, Place>, e: Step)
    requires Inv(s, at) && Enabled(s, e) && s.window.Stopped?
    ensures e.Allocate? || e.Enqueue? || e.SetCancelled?
    ensures var s' := Apply(s, e);
      && s'.window.Stopped? && s'.records.Keys == s.records.Keys
      && s'.runs == s.runs && s'.reported == s.reported && s'.aborted == s.aborted
  {
    hide Places, Ids, Lists, Reports, OnlyAccepted, Apply;
    assert e.Allocate? || e.Enqueue? || e.SetCancelled?;
    match e
    case Allocate(hasCompletion) => StoppedAllocate(s, hasCompletion);
    case Enqueue(id) => StoppedEnqueue(s, id);
    case SetCancelled(id) => StoppedSetCancelled(s, id);
  }

  lemma StoppedAllocate(s: State, hasCompletion: bool)
    requires s.window.Stopped?
    ensures var s' := Apply(s, Allocate(hasCompletion));
      s'.window.Stopped? && s'.records == s.records && s'.runs == s.runs && s'.reported == s.reported && s'.aborted == s.aborted
  {
  }

  lemma StoppedEnqueue(s: State, id: TaskId)
    requires s.window.Stopped? && s.stopping && Enabled(s, Enqueue(id))
    ensures var s' := Apply(s, Enqueue(id));
      s'.window.Stopped? && s'.records == s.records && s'.runs == s.runs && s'.reported == s.reported && s'.aborted == s.aborted
  {
  }

  lemma StoppedSetCancelled(s: State, id: TaskId)
    requires s.window.Stopped? && Enabled(s, SetCancelled(id))
    ensures var s' := Apply(s, SetCancelled(id));
      s'.window.Stopped? && s'.records.Keys == s.records.Keys && s'.runs == s.runs && s'.reported == s.reported && s'.aborted == s.aborted
  {
  }

  /** Wait returns true at once, or as soon as it gets the task's lock. */
  predicate WaitReturns(s: State, id: TaskId)
    requires Accepted(s, id)
  {
    id !in s.tasks || s.records[id].finished
  }

  /**
    When Wait returns true the task's completion has been reported, exactly unless Shutdown
    has taken the task over and not come to it yet.
   */
  lemma WaitMeansCompleted(n: nat, run: seq<State>, steps: seq<Step>, k: nat, id: TaskId)
    requires IsRun(n, run, steps) && k <= |steps| && Accepted(run[k], id) && WaitReturns(run[k], id)
    ensures CallsOf(run[k], id) == Due(run[k], id)
       <==> !(run[k].records[id].hasCompletion && id in Todo(run[k].window) && !InDrain(run[k].window, id))
  {
    RunInv(n, run, steps, k);
    assert At(run[k], PlacesAlong(run, steps, k), id);
  }

  /** Before the pool is told to stop, when Wait returns true the completion has been reported. */
  lemma WaitBeforeShutdown(n: nat, run: seq<State>, steps: seq<Step>, k: nat, id: TaskId)
    requires IsRun(n, run, steps) && k <= |steps| && Accepted(run[k], id) && WaitReturns(run[k], id)
    requires !run[k].stopping
    ensures CallsOf(run[k], id) == Due(run[k], id)
  {
    RunInv(n, run, steps, k);
    WaitMeansCompleted(n, run, steps, k, id);
  }

  /**
    A thread stands in front of the step and is not blocked. Enabled says in addition that
    the records of the tasks concerned exist, which they always do.
   */
  predicate InFront(s: State, e: Step) {
    match e
    case Push => s.pushing.Some?
    case SetCancelled(id) => id in s.cancelling
    case CheckCancelled(w) => w < |s.workers| && s.workers[w].Holding?
    case LoadFlag(w) => w < |s.workers| && s.workers[w].Executed?
    case Complete(w) => w < |s.workers| && s.workers[w].Completing?
    case Finish(w) => w < |s.workers| && s.workers[w].Finishing?
    case UiComplete => s.window.UiCompleting?
    case UiFinish => s.window.UiFinishing?
    case DrainCall => s.window.Draining?
    case DrainFinish => s.window.DrainFinishing?
    case _ => Enabled(s, e)
  }

  lemma InFrontEnabled(s: State, at: map<TaskId, Place>, e: Step)
    requires Inv(s, at) && InFront(s, e)
    ensures Enabled(s, e)
  {
    hide TaskOk, Phases, Reports, OnlyAccepted;
    if e.CheckCancelled? || e.LoadFlag? || e.Complete? || e.Finish? {
      assert At(s, at, s.workers[e.w].id);
    } else if e.UiComplete? || e.UiFinish? {
      assert At(s, at, s.window.id);
    } else if (e.DrainCall? || e.DrainFinish?) && |s.window.todo| > 0 {
      assert At(s, at, s.window.todo[0]);
    }
  }

  // ---- Three of the steps in full ----

  lemma PushIs(s: State)
    requires Enabled(s, Push)
    ensures s.pushing.Some? && s.pushing.value in s.submitting
    ensures var id := s.pushing.value;
      Apply(s, Push)
      == s.(pushing := None, submitting := s.submitting - {id}, queue := s.queue + [id], tasks := s.tasks + {id},
            records := s.records[id := Record(s.submitting[id], false, false)])
  {
  }

  lemma CompleteIs(s: State, w: WorkerId)
    requires Enabled(s, Complete(w))
    ensures w < |s.workers| && s.workers[w].Completing? && s.workers[w].id in s.records
    ensures var pc := s.workers[w];
      Apply(s, Complete(w)) == Called(s, pc.id, pc.flag).(workers := s.workers[w := Erasing(pc.id)])
  {
  }

  lemma UiCompleteIs(s: State)
    requires Enabled(s, UiComplete)
    ensures s.window.UiCompleting? && s.window.id in s.records
    ensures Apply(s, UiComplete) == Called(s, s.window.id, s.window.flag).(window := UiErasing(s.window.id))
  {
  }

  // ---- Such runs exist ----

  lemma Extend(n: nat, run: seq<State>, steps: seq<Step>, e: Step) returns (run': seq<State>, steps': seq<Step>)
    requires IsRun(n, run, steps) && Enabled(run[|steps|], e)
    ensures IsRun(n, run', steps') && |steps'| == |steps| + 1 && |run'| == |steps'| + 1
    ensures run'[|steps'|] == Apply(run[|steps|], e)
  {
    hide Apply, Enabled;
    run', steps' := run + [Apply(run[|steps|], e)], steps + [e];
  }

  /** The state of a pool with one worker that has one task, with a completion callback. */
  function OneTaskPool(queue: seq<TaskId>, tasks: set<TaskId>, stopping: bool, record: Record, worker: Worker, posted: map<TaskId, bool>, window: Window): State {
    State(queue, tasks, stopping, 2, map[1 := record], map[], None, multiset{}, [worker], posted, window, multiset{1}, multiset{}, multiset{})
  }

  /** A task is submitted, executed and posted, and Shutdown comes to it before the window does. */
  lemma ShutdownHappens() returns (run: seq<State>, steps: seq<Step>)
    ensures IsRun(1, run, steps) && run[|steps|].window.Stopped? && Accepted(run[|steps|], 1)
    ensures run[|steps|].runs[1] == 1 && run[|steps|].aborted[1] == 1
  {
    run, steps := TaskRuns();
    run, steps := TaskIsPosted(run, steps);
    run, steps := WorkerLeaves(run, steps);
    run, steps := TaskIsDrained(run, steps);
  }

  lemma TaskArrives() returns (run: seq<State>, steps: seq<Step>)
    ensures IsRun(1, run, steps)
    ensures run[|steps|]
         == OneTaskPool([1], {1}, false, Record(true, false, false), Waiting, map[], Idle).(runs := multiset{})
  {
    run, steps := [Start(1)], [];
    hide IsRun;
    StartsRun(1);
    run, steps := Extend(1, run, steps, Allocate(true));
    run, steps := Extend(1, run, steps, Enqueue(1));
    run, steps := Extend(1, run, steps, Push);
  }

  lemma StartsRun(n: nat)
    ensures IsRun(n, [Start(n)], [])
  {
  }

  lemma TaskRuns() returns (run: seq<State>, steps: seq<Step>)
    ensures IsRun(1, run, steps)
    ensures run[|steps|] == OneTaskPool([], {1}, false, Record(true, false, false), Executed(1), map[], Idle)
  {
    hide IsRun;
    run, steps := TaskArrives();
    run, steps := Extend(1, run, steps, Take(0));
    run, steps := Extend(1, run, steps, CheckCancelled(0));
    run, steps := Extend(1, run, steps, Execute(0));
  }

  lemma TaskIsPosted(run: seq<State>, steps: seq<Step>) returns (run': seq<State>, steps': seq<Step>)
    requires IsRun(1, run, steps)
    requires run[|steps|] == OneTaskPool([], {1}, false, Record(true, false, false), Executed(1), map[], Idle)
    ensures IsRun(1, run', steps')
    ensures run'[|steps'|] == OneTaskPool([], {1}, false, Record(true, false, false), Waiting, map[1 := false], Idle)
  {
    hide IsRun;
    run', steps' := Extend(1, run, steps, LoadFlag(0));
    run', steps' := Extend(1, run', steps', Post(0));
  }

  lemma WorkerLeaves(run: seq<State>, steps: seq<Step>) returns (run': seq<State>, steps': seq<Step>)
    requires IsRun(1, run, steps)
    requires run[|steps|] == OneTaskPool([], {1}, false, Record(true, false, false), Waiting, map[1 := false], Idle)
    ensures IsRun(1, run', steps')
    ensures run'[|steps'|] == OneTaskPool([], {1}, true, Record(true, false, false), Exited, map[1 := false], Joining)
  {
    hide IsRun;
    run', steps' := Extend(1, run, steps, BeginShutdown);
    run', steps' := Extend(1, run', steps', Take(0));
  }

  lemma TaskIsDrained(run: seq<State>, steps: seq<Step>) returns (run': seq<State>, steps': seq<Step>)
    requires IsRun(1, run, steps)
    requires run[|steps|] == OneTaskPool([], {1}, true, Record(true, false, false), Exited, map[1 := false], Joining)
    ensures IsRun(1, run', steps') && run'[|steps'|].window.Stopped? && Accepted(run'[|steps'|], 1)
    ensures run'[|steps'|].runs[1] == 1 && run'[|steps'|].aborted[1] == 1
  {
    hide IsRun;
    run', steps' := TaskIsTaken(run, steps);
    run', steps' := Extend(1, run', steps', DrainFinish);
    run', steps' := Extend(1, run', steps', DrainCall);
  }

  lemma TaskIsTaken(run: seq<State>, steps: seq<Step>) returns (run': seq<State>, steps': seq<Step>)
    requires IsRun(1, run, steps)
    requires run[|steps|] == OneTaskPool([], {1}, true, Record(true, false, false), Exited, map[1 := false], Joining)
    ensures IsRun(1, run', steps')
    ensures run'[|steps'|]
         == OneTaskPool([], {}, true, Record(true, false, false), Exited, map[1 := false], DrainFinishing([1])).(aborted := multiset{1})
  {
    hide IsRun;
    run', steps' := TaskIsCollected(run, steps);
    run', steps' := Extend(1, run', steps', DrainCall);
  }

  lemma TaskIsCollected(run: seq<State>, steps: seq<Step>) returns (run': seq<State>, steps': seq<Step>)
    requires IsRun(1, run, steps)
    requires run[|steps|] == OneTaskPool([], {1}, true, Record(true, false, false), Exited, map[1 := false], Joining)
    ensures IsRun(1, run', steps')
    ensures run'[|steps'|] == OneTaskPool([], {}, true, Record(true, false, false), Exited, map[1 := false], Draining([1]))
  {
    hide IsRun;
    var order: seq<TaskId> := [1];
    assert (set i | 0 <= i < |order| :: order[i]) == {1} by { assert order[0] == 1; }
    run', steps' := Extend(1, run, steps, Drain(order));
  }

  /** Wait can return before the completion: the drain has taken the task over and not come to it yet. */
  lemma WaitReturnsEarly() returns (run: seq<State>, steps: seq<Step>)
    ensures IsRun(1, run, steps) && Accepted(run[|steps|], 1) && WaitReturns(run[|steps|], 1)
    ensures CallsOf(run[|steps|], 1) == 0 && Due(run[|steps|], 1) == 1
  {
    hide IsRun;
    run, steps := TaskRuns();
    run, steps := TaskIsPosted(run, steps);
    run, steps := WorkerLeaves(run, steps);
    run, steps := TaskIsCollected(run, steps);
  }
}
