/**
 The task queue of `Assistant` as a system of interleaved atomic steps: client calls of
 `append_task`, `start`, `stop` and `connect`, and the worker thread `working_proc`.
 Every access to `m_thread_idle` and every critical section on the task list is one step;
 mutex and condition variable are part of the state.
 */
module AssistantSystem {
  import opened Options

  /** The worker's own messages to the client. */
  datatype Message =
    | TaskChainStart(id: nat)
    | TaskChainCompleted(id: nat)
    | TaskChainError(id: nat)
    | TaskChainStopped(id: nat)
    | AllTasksCompleted(id: nat, finished: seq<nat>)

  /** Where the worker thread stands. */
  datatype WorkerPc =
    | Starting                              // about to lock the mutex
    | Entered                               // locked, about to read the flag
    | Checking                              // locked, the flag was false, about to read the list
    | Running(id: nat)                      // inside the task
    | Stopping(id: nat)                     // inside the task, in stop(false) after setting the flag
    | Returned(id: nat, ret: bool)          // the task has returned, about to lock and pop
    | Popped(id: nat, ret: bool)            // about to read the flag for the report
    | Reported(id: nat)                     // about to read the flag again
    | Undecided(id: nat)                    // about to test the list without the lock
    | Delaying(id: nat)                     // about to lock for the timed wait
    | DelayTest(id: nat)                    // locked, about to test the wait's predicate
    | DelayParked(id: nat)                  // in the timed wait
    | DelayWoken(id: nat, timeout: bool)    // woken, about to lock again
    | Delayed(id: nat)                      // locked, the timed wait is over
    | Idling                                // locked, about to set the flag
    | Parking                               // locked, about to wait without predicate
    | Parked                                // in the wait without predicate
    | Woken                                 // woken, about to lock again

  /** Where a client thread stands inside a call. */
  datatype ClientPc =
    | Ready
    | StartLock                             // start accepted, about to lock
    | StartSet(locking: bool)               // about to clear the flag
    | StartNotify(locking: bool)            // about to notify
    | StopLock                              // flag set, about to lock and clear the list
    | StopClear                             // flag set, about to clear the list without the lock
    | ConnectEntered                        // locked, about to read the flag
    | ConnectSet                            // locked, about to clear the flag
    | Connecting                            // locked, inside the controller
    | ConnectStopping                       // locked, in stop(false) after setting the flag
    | ConnectDone                           // locked, about to set the flag and unlock

  datatype Holder = Free | WorkerHolds | ClientHolds(c: nat)

  /** How an appended task left the queue. */
  datatype Fate = Started | Cleared | Dropped

  datatype Event = Append(id: nat) | Fetch(id: nat) | Clear | Pop(dropped: Option<nat>)

  /** `idle` is m_thread_idle, `tasks` the ids in m_tasks_list, `lastId` is m_task_id.
      The last four fields are history: the worker's messages, the queue events, the ids
      appended, and the ids that left the queue with their fate. */
  datatype State = State(
    idle: bool, tasks: seq<nat>, lastId: nat, holder: Holder,
    pc: WorkerPc, finished: seq<nat>, clients: map<nat, ClientPc>,
    sent: seq<Message>, log: seq<Event>, appended: seq<nat>, gone: seq<(nat, Fate)>)

  ghost predicate Init(s: State) {
    && s.idle && s.tasks == [] && s.holder == Free && s.pc == Starting && s.finished == [] && s.clients == map[]
    && s.sent == [] && s.log == [] && s.appended == [] && s.gone == []
  }

  function ClientAt(s: State, c: nat): ClientPc {
    if c in s.clients then s.clients[c] else Ready
  }

  function Move(s: State, c: nat, pc: ClientPc): State {
    s.(clients := s.clients[c := pc])
  }

  // ---------------------------------------------------------------- the queue

  /** The task being run and not popped yet. */
  function Current(pc: WorkerPc): Option<nat> {
    match pc
    case Running(id) => Some(id)
    case Stopping(id) => Some(id)
    case Returned(id, _) => Some(id)
    case _ => None
  }

  /** The queued tasks apart from the one being run. */
  function Waiting(s: State): seq<nat> {
    if s.tasks != [] && Current(s.pc) == Some(s.tasks[0]) then s.tasks[1..] else s.tasks
  }

  function Tag(ids: seq<nat>, fate: Fate): seq<(nat, Fate)> {
    seq(|ids|, i requires 0 <= i < |ids| => (ids[i], fate))
  }

  /** `m_tasks_list.emplace_back` with the next id. */
  function AppendTask(s: State): State {
    var id := s.lastId + 1;
    s.(lastId := id, tasks := s.tasks + [id], appended := s.appended + [id], log := s.log + [Append(id)])
  }

  /** `m_tasks_list.clear`. */
  function ClearTasks(s: State): State {
    s.(tasks := [], gone := s.gone + Tag(Waiting(s), Cleared), log := s.log + [Clear])
  }

  /** `m_tasks_list.front` before the run. */
  function FetchTask(s: State): State
    requires s.tasks != []
  {
    var id := s.tasks[0];
    s.(pc := Running(id), holder := Free, gone := s.gone + [(id, Started)], log := s.log + [Fetch(id)],
       sent := s.sent + [TaskChainStart(id)])
  }

  /** `m_tasks_list.pop_front` after the run, whatever stands at the front by then. */
  function PopTask(s: State, id: nat): State {
    if s.tasks == [] then s.(log := s.log + [Pop(None)])
    else if s.tasks[0] == id then s.(tasks := s.tasks[1..], log := s.log + [Pop(None)])
    else
      s.(tasks := s.tasks[1..], gone := s.gone + [(s.tasks[0], Dropped)], log := s.log + [Pop(Some(s.tasks[0]))])
  }

  // ---------------------------------------------------------------- steps

  datatype Step =
    | Work                                            // the worker goes on
    | TaskStops                                       // the running task calls stop(false)
    | TaskReturns(ret: bool)
    | Wake(timeout: bool)                             // a spurious wake-up or the timeout
    | AppendCall(c: nat)
    | StartCall(c: nat, locking: bool, inited: bool)
    | StopCall(c: nat, locking: bool)
    | ConnectCall(c: nat)
    | ConnectStops(c: nat)                            // the controller calls stop(false) while connecting
    | ClientGo(c: nat)                                // the client goes on

  function WorkerStep(s: State): Option<State> {
    match s.pc
    case Starting => if s.holder.Free? then Some(s.(holder := WorkerHolds, pc := Entered)) else None
    case Entered => Some(s.(pc := if s.idle then Idling else Checking))
    case Checking => if s.tasks == [] then Some(s.(pc := Idling)) else Some(FetchTask(s))
    case Running(_) => None
    case Stopping(id) => Some(ClearTasks(s).(pc := Running(id)))
    case Returned(id, ret) => if s.holder.Free? then Some(PopTask(s, id).(pc := Popped(id, ret))) else None
    case Popped(id, ret) =>
      var msg := if s.idle then TaskChainStopped(id) else if ret then TaskChainCompleted(id) else TaskChainError(id);
      Some(s.(sent := s.sent + [msg], pc := Reported(id)))
    case Reported(id) =>
      if s.idle then Some(s.(finished := [], pc := Starting)) else Some(s.(pc := Undecided(id)))
    case Undecided(id) =>
      if s.tasks == [] then
        Some(s.(sent := s.sent + [AllTasksCompleted(id, s.finished)], finished := [], pc := Delaying(id)))
      else Some(s.(pc := Delaying(id)))
    case Delaying(id) => if s.holder.Free? then Some(s.(holder := WorkerHolds, pc := DelayTest(id))) else None
    case DelayTest(id) =>
      if s.idle then Some(s.(pc := Delayed(id))) else Some(s.(holder := Free, pc := DelayParked(id)))
    case DelayParked(_) => None
    case DelayWoken(id, timeout) =>
      if s.holder.Free? then Some(s.(holder := WorkerHolds, pc := if timeout then Delayed(id) else DelayTest(id)))
      else None
    case Delayed(id) =>
      Some(s.(sent := s.sent + (if s.idle then [TaskChainStopped(id)] else []), holder := Free, pc := Starting))
    case Idling => Some(s.(idle := true, finished := [], pc := Parking))
    case Parking => Some(s.(holder := Free, pc := Parked))
    case Parked => None
    case Woken => if s.holder.Free? then Some(s.(pc := Starting)) else None
  }

  /** `m_condvar.notify_one`: only the worker ever waits. */
  function Notified(pc: WorkerPc): WorkerPc {
    match pc
    case Parked => Woken
    case DelayParked(id) => DelayWoken(id, false)
    case _ => pc
  }

  function ClientStep(s: State, c: nat): Option<State> {
    match ClientAt(s, c)
    case Ready => None
    case StartLock => if s.holder.Free? then Some(Move(s.(holder := ClientHolds(c)), c, StartSet(true))) else None
    case StartSet(locking) => Some(Move(s.(idle := false), c, StartNotify(locking)))
    case StartNotify(locking) =>
      Some(Move(s.(pc := Notified(s.pc), holder := if locking then Free else s.holder), c, Ready))
    case StopLock => if s.holder.Free? then Some(Move(ClearTasks(s), c, Ready)) else None
    case StopClear => Some(Move(ClearTasks(s), c, Ready))
    case ConnectEntered =>
      if s.idle then Some(Move(s, c, ConnectSet)) else Some(Move(s.(holder := Free), c, Ready))
    case ConnectSet => Some(Move(s.(idle := false), c, Connecting))
    case Connecting => Some(Move(s, c, ConnectDone))
    case ConnectStopping => Some(Move(ClearTasks(s), c, Connecting))
    case ConnectDone => Some(Move(s.(idle := true, holder := Free), c, Ready))
  }

  /** The state after a step, or `None` when the step is not possible. */
  function Apply(s: State, step: Step): Option<State> {
    match step
    case Work => WorkerStep(s)
    case TaskStops => if s.pc.Running? then Some(s.(idle := true, pc := Stopping(s.pc.id))) else None
    case TaskReturns(ret) =>
      if s.pc.Running? then Some(s.(finished := s.finished + [s.pc.id], pc := Returned(s.pc.id, ret))) else None
    case Wake(timeout) =>
      if s.pc.Parked? then Some(s.(pc := Woken))
      else if s.pc.DelayParked? then Some(s.(pc := DelayWoken(s.pc.id, timeout)))
      else None
    case AppendCall(c) =>
      if ClientAt(s, c).Ready? && s.holder.Free? then Some(AppendTask(s)) else None
    case StartCall(c, locking, inited) =>
      if !ClientAt(s, c).Ready? then None
      else if !s.idle || !inited then Some(s)
      else Some(Move(s, c, if locking then StartLock else StartSet(false)))
    case StopCall(c, locking) =>
      if ClientAt(s, c).Ready? then Some(Move(s.(idle := true), c, if locking then StopLock else StopClear)) else None
    case ConnectCall(c) =>
      if ClientAt(s, c).Ready? && s.holder.Free? then Some(Move(s.(holder := ClientHolds(c)), c, ConnectEntered))
      else None
    case ConnectStops(c) =>
      if ClientAt(s, c).Connecting? then Some(Move(s.(idle := true), c, ConnectStopping)) else None
    case ClientGo(c) => ClientStep(s, c)
  }

  /** A run: states from an initial one on, each reached by one step from the one before. */
  ghost predicate IsRun(states: seq<State>, steps: seq<Step>) {
    && |states| == |steps| + 1
    && Init(states[0])
    && forall i :: 0 <= i < |steps| ==> Apply(states[i], steps[i]) == Some(states[i + 1])
  }

  lemma {:induction false} RunPrefix(states: seq<State>, steps: seq<Step>)
    requires IsRun(states, steps) && steps != []
    ensures var n := |steps| - 1;
            IsRun(states[..n + 1], steps[..n]) && Apply(states[n], steps[n]) == Some(states[n + 1])
  {
  }
}
