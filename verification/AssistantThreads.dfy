/**
 `Assistant` itself: an object whose fields the threads update in place, one atomic section
 a method. A caller may run a method only when its thread stands there and the mutex it
 locks is free. Every object has a run of the step system behind it, so that whatever holds
 over every run holds of every object.
 */
module AssistantThreads {
  import opened Options
  import opened AssistantSystem
  import opened AssistantQueue
  import opened AssistantMessages
  import AssistantReports

  /** While a client holds the mutex the worker starts no task and pops none; a task is
      started from the head of the list. */
  lemma {:induction false} WorkerSection(s: State, t: State)
    requires LockInv(s) && WorkerStep(s) == Some(t)
    ensures s.holder.ClientHolds? ==>
              StartIds(t.sent) == StartIds(s.sent) && (t.tasks == s.tasks || (s.pc.Stopping? && t.tasks == []))
    ensures StartIds(t.sent) != StartIds(s.sent) ==> s.tasks != [] && t.pc == Running(s.tasks[0])
  {
    hide StartIds;
    WorkerList(s, t);
    if !s.pc.Checking? {
      NoStart(s, t);
    }
  }

  lemma {:induction false} WorkerList(s: State, t: State)
    requires WorkerStep(s) == Some(t)
    ensures s.holder.ClientHolds? ==> t.tasks == s.tasks || (s.pc.Stopping? && t.tasks == [])
  {
    hide PopTask;
  }

  lemma {:induction false} NoStart(s: State, t: State)
    requires WorkerStep(s) == Some(t) && !s.pc.Checking?
    ensures StartIds(t.sent) == StartIds(s.sent)
  {
    hide StartIds, WorkerStep;
    Sends(s, t);
    if t.sent != s.sent {
      SentAppend(s.sent, t.sent[|s.sent|]);
      assert t.sent == s.sent + [t.sent[|s.sent|]];
    }
  }

  lemma {:induction false} Sends(s: State, t: State)
    requires WorkerStep(s) == Some(t) && !s.pc.Checking?
    ensures t.sent == s.sent
            || (|t.sent| == |s.sent| + 1 && t.sent[..|s.sent|] == s.sent && !t.sent[|s.sent|].TaskChainStart?)
  {
    hide ClearTasks, PopTask;
    match s.pc
    case Stopping(_) => GoneGrows(s, 0);
    case Returned(id, _) => GoneGrows(s, id);
    case _ =>
  }

  lemma {:induction false} StopEmpties(s: State, t: State)
    requires WorkerStep(s) == Some(t)
    ensures s.pc.Stopping? ==> t.tasks == []
  {
    ClearedEmpty(s);
  }

  lemma {:induction false} NotifiedAwake(pc: WorkerPc)
    ensures !Notified(pc).Parked? && !Notified(pc).DelayParked?
  {
  }

  /** A running task has not been finished before. */
  lemma {:induction false} RunningUnfinished(s: State)
    requires MessageInv(s) && s.pc.Running?
    ensures s.pc.id !in s.finished
  {
    assert forall x :: x in s.finished ==> x in Done(s);
  }

  lemma {:induction false} ClearedEmpty(s: State)
    ensures ClearTasks(s).tasks == [] && ClearTasks(s).sent == s.sent
    ensures forall id :: id in Waiting(s) ==> (id, Cleared) in ClearTasks(s).gone
  {
    var waiting := Waiting(s);
    forall id | id in waiting ensures (id, Cleared) in ClearTasks(s).gone {
      var i :| 0 <= i < |waiting| && waiting[i] == id;
      assert Tag(waiting, Cleared)[i] == (id, Cleared);
    }
  }

  class Assistant {
    var threadIdle: bool
    var tasksList: seq<nat>
    var taskId: nat
    var mutex: Holder
    var worker: WorkerPc
    var finishedTasks: seq<nat>
    var callers: map<nat, ClientPc>
    var msgQueue: seq<Message>

    ghost var log: seq<Event>
    ghost var appended: seq<nat>
    ghost var gone: seq<(nat, Fate)>
    ghost var past: seq<State>
    ghost var taken: seq<Step>

    ghost function Now(): State
      reads this
    {
      State(threadIdle, tasksList, taskId, mutex, worker, finishedTasks, callers, msgQueue, log, appended, gone)
    }

    /** The object stands where a run of the step system has led. */
    ghost predicate Valid()
      reads this
    {
      IsRun(past, taken) && past[|taken|] == Now()
    }

    /** One more step has been taken. */
    twostate predicate Took(step: Step)
      reads this
    {
      && Apply(old(Now()), step) == Some(Now())
      && past == old(past) + [Now()] && taken == old(taken) + [step]
    }

    function Caller(c: nat): ClientPc
      reads this
    {
      if c in callers then callers[c] else Ready
    }

    constructor ()
      ensures Valid() && Init(Now()) && taken == []
    {
      threadIdle, tasksList, taskId, mutex := true, [], 0, Free;
      worker, finishedTasks, callers, msgQueue := Starting, [], map[], [];
      log, appended, gone := [], [], [];
      taken := [];
      past := [State(true, [], 0, Free, Starting, [], map[], [], [], [], [])];
    }

    /** What no interleaving can break. */
    lemma {:induction false} Safe()
      requires Valid()
      ensures LockInv(Now()) && QueueInv(Now()) && MessageInv(Now())
      ensures forall id :: id in appended ==> id <= taskId
      ensures Increasing(StartIds(msgQueue))
    {
      StartsIncrease(past, taken);
      RunLocks(past, taken);
      RunQueue(past, taken);
      RunMessages(past, taken);
      forall id | id in appended ensures id <= taskId {
        var k :| 0 <= k < |appended| && appended[k] == id;
        assert k < |appended| - 1 ==> appended[k] < appended[|appended| - 1];
      }
    }

    ghost method Record(step: Step)
      requires IsRun(past, taken) && Apply(past[|taken|], step) == Some(Now())
      modifies this`past, this`taken
      ensures past == old(past) + [Now()] && taken == old(taken) + [step]
      ensures Valid()
    {
      past, taken := Extend(past, taken, step, Now());
    }

    // -------------------------------------------------------------- the task list

    method ClearList()
      modifies this`tasksList, this`gone, this`log
      ensures Now() == ClearTasks(old(Now()))
      ensures tasksList == [] && forall id :: id in Waiting(old(Now())) ==> (id, Cleared) in gone
    {
      ClearedEmpty(Now());
      gone, log := gone + Tag(Waiting(Now()), Cleared), log + [Clear];
      tasksList := [];
    }

    method FetchFront() returns (id: nat)
      requires tasksList != []
      modifies this
      ensures Now() == FetchTask(old(Now())) && id == old(tasksList[0])
      ensures past == old(past) && taken == old(taken)
    {
      id := tasksList[0];
      mutex, worker := Free, Running(id);
      gone, log := gone + [(id, Started)], log + [Fetch(id)];
      msgQueue := msgQueue + [TaskChainStart(id)];
    }

    method PopFront(id: nat)
      modifies this`tasksList, this`gone, this`log
      ensures Now() == PopTask(old(Now()), id)
      ensures tasksList == if old(tasksList) == [] then [] else old(tasksList)[1..]
    {
      if tasksList == [] || tasksList[0] == id {
        log := log + [Pop(None)];
      } else {
        gone, log := gone + [(tasksList[0], Dropped)], log + [Pop(Some(tasksList[0]))];
      }
      if tasksList != [] {
        tasksList := tasksList[1..];
      }
    }

    // -------------------------------------------------------------- the client's calls

    method AppendTask(c: nat) returns (id: nat)
      requires Valid() && Caller(c).Ready? && mutex.Free?
      modifies this
      ensures Valid() && Took(AppendCall(c)) && id == taskId
      ensures id !in old(appended) && tasksList == old(tasksList) + [id]
    {
      hide LockInv, QueueInv, MessageInv;
      Safe();
      taskId := taskId + 1;
      tasksList := tasksList + [taskId];
      appended, log := appended + [taskId], log + [Append(taskId)];
      Record(AppendCall(c));
      return taskId;
    }

    method Start(c: nat, block: bool, inited: bool) returns (accepted: bool)
      requires Valid() && Caller(c).Ready?
      modifies this
      ensures Valid() && Took(StartCall(c, block, inited)) && accepted == (old(threadIdle) && inited)
      ensures !accepted ==> Now() == old(Now())
      ensures accepted ==> Caller(c) == if block then StartLock else StartSet(false)
    {
      accepted := threadIdle && inited;
      if accepted {
        callers := callers[c := if block then StartLock else StartSet(false)];
      }
      Record(StartCall(c, block, inited));
    }

    method Stop(c: nat, block: bool)
      requires Valid() && Caller(c).Ready?
      modifies this
      ensures Valid() && Took(StopCall(c, block))
      ensures threadIdle && tasksList == old(tasksList)
    {
      threadIdle := true;
      callers := callers[c := if block then StopLock else StopClear];
      Record(StopCall(c, block));
    }

    method Connect(c: nat)
      requires Valid() && Caller(c).Ready? && mutex.Free?
      modifies this
      ensures Valid() && Took(ConnectCall(c))
      ensures mutex == ClientHolds(c) && !WorkerLocks(worker)
    {
      hide QueueInv, MessageInv;
      Safe();
      mutex := ClientHolds(c);
      callers := callers[c := ConnectEntered];
      Record(ConnectCall(c));
    }

    /** The controller reports a failure while it connects. */
    method ConnectFails(c: nat)
      requires Valid() && Caller(c).Connecting?
      modifies this
      ensures Valid() && Took(ConnectStops(c))
    {
      threadIdle := true;
      callers := callers[c := ConnectStopping];
      Record(ConnectStops(c));
    }

    /** The next section of the start or stop client c is in. */
    method Proceed(c: nat)
      requires Valid()
      requires match Caller(c)
               case StartLock | StopLock => mutex.Free?
               case StartSet(_) => true
               case StartNotify(_) | StopClear => true
               case _ => false
      modifies this
      ensures Valid() && Took(ClientGo(c))
      ensures old(Caller(c)).StartSet? ==> !threadIdle
      ensures old(Caller(c)).StartNotify? ==> !worker.Parked? && !worker.DelayParked?
      ensures old(Caller(c)).StopLock? || old(Caller(c)).StopClear? ==> tasksList == []
    {
      NotifiedAwake(worker);
      hide ClearTasks, Notified;
      match Caller(c) {
        case StartLock =>
          mutex := ClientHolds(c);
          callers := callers[c := StartSet(true)];
        case StartSet(block) =>
          threadIdle := false;
          callers := callers[c := StartNotify(block)];
        case StartNotify(block) =>
          worker := Notified(worker);
          if block {
            mutex := Free;
          }
          callers := callers[c := Ready];
        case StopLock | StopClear =>
          ClearList();
          callers := callers[c := Ready];
      }
      Record(ClientGo(c));
    }

    /** The next section of the connect client c is in. */
    method ProceedConnect(c: nat)
      requires Valid()
      requires match Caller(c)
               case ConnectEntered | ConnectSet | Connecting | ConnectStopping | ConnectDone => true
               case _ => false
      modifies this
      ensures Valid() && Took(ClientGo(c))
      ensures Caller(c).Ready? ==> mutex.Free?
      ensures old(Caller(c)).ConnectEntered? ==> (Caller(c).Ready? <==> !old(threadIdle))
      ensures old(Caller(c)).ConnectDone? ==> Caller(c).Ready? && threadIdle
      ensures tasksList == old(tasksList) || (old(Caller(c)).ConnectStopping? && tasksList == [])
    {
      hide ClearTasks;
      match Caller(c) {
        case ConnectEntered =>
          if threadIdle {
            callers := callers[c := ConnectSet];
          } else {
            mutex := Free;
            callers := callers[c := Ready];
          }
        case ConnectSet =>
          threadIdle := false;
          callers := callers[c := Connecting];
        case Connecting =>
          callers := callers[c := ConnectDone];
        case ConnectStopping =>
          ClearList();
          callers := callers[c := Connecting];
        case ConnectDone =>
          threadIdle := true;
          mutex := Free;
          callers := callers[c := Ready];
      }
      Record(ClientGo(c));
    }

    // -------------------------------------------------------------- the running task

    /** The task calls `stop(false)` through the callback. */
    method TaskFails()
      requires Valid() && worker.Running?
      modifies this
      ensures Valid() && Took(TaskStops)
    {
      threadIdle := true;
      worker := Stopping(worker.id);
      Record(TaskStops);
    }

    method TaskReturn(ret: bool)
      requires Valid() && worker.Running?
      modifies this
      ensures Valid() && Took(TaskReturns(ret))
      ensures old(worker.id) !in old(finishedTasks) && finishedTasks == old(finishedTasks) + [old(worker.id)]
    {
      hide LockInv, QueueInv, IsRun;
      Safe();
      RunningUnfinished(Now());
      finishedTasks := finishedTasks + [worker.id];
      worker := Returned(worker.id, ret);
      Record(TaskReturns(ret));
    }

    // -------------------------------------------------------------- the worker thread

    method Rouse(timeout: bool)
      requires Valid() && (worker.Parked? || worker.DelayParked?)
      modifies this
      ensures Valid() && Took(Wake(timeout))
    {
      worker := if worker.Parked? then Woken else DelayWoken(worker.id, timeout);
      Record(Wake(timeout));
    }

    /** The next section of `working_proc`. */
    method WorkingProc()
      requires Valid() && WorkerStep(Now()).Some?
      modifies this
      ensures Valid() && Took(Work)
      ensures old(mutex).ClientHolds? ==>
                && StartIds(msgQueue) == old(StartIds(msgQueue))
                && (tasksList == old(tasksList) || (old(worker).Stopping? && tasksList == []))
      ensures StartIds(msgQueue) != old(StartIds(msgQueue)) ==>
                old(tasksList) != [] && worker == Running(old(tasksList)[0])
      ensures Increasing(StartIds(msgQueue))
      ensures |msgQueue| > |old(msgQueue)| > 0 && old(msgQueue)[|old(msgQueue)| - 1].TaskChainStart? ==>
                var j := AssistantReports.LastReturn(taken);
                && j >= 0
                && AssistantReports.Fits(msgQueue[|old(msgQueue)|], old(msgQueue)[|old(msgQueue)| - 1].id,
                                         old(threadIdle), taken[j].ret)
      ensures old(worker).Stopping? ==> tasksList == []
    {
      hide QueueInv, MessageInv, StartIds, LockInv, WorkerStep, AssistantReports.Fits;
      Safe();
      Section();
      WorkerSection(old(Now()), Now());
      StopEmpties(old(Now()), Now());
      Record(Work);
      Judge(old(msgQueue));
      Safe();
    }

    /** One section, wherever the worker stands. */
    method Section()
      requires WorkerStep(Now()).Some?
      modifies this
      ensures WorkerStep(old(Now())) == Some(Now()) && past == old(past) && taken == old(taken)
    {
      if worker.Starting? || worker.Entered? || worker.Checking? || worker.Stopping? || worker.Returned? {
        RunTask();
      } else if worker.Popped? || worker.Reported? || worker.Undecided? {
        Report();
      } else {
        Wait();
      }
    }

    /** The report about a task fits what it returned. */
    lemma {:induction false} Judge(before: seq<Message>)
      requires Valid() && taken != [] && taken[|taken| - 1] == Work && past[|taken| - 1].sent == before
      ensures |msgQueue| > |before| > 0 && before[|before| - 1].TaskChainStart? ==>
                var j := AssistantReports.LastReturn(taken);
                && j >= 0
                && AssistantReports.Fits(msgQueue[|before|], before[|before| - 1].id,
                                         past[|taken| - 1].idle, taken[j].ret)
    {
      hide WorkerStep;
      if |msgQueue| > |before| > 0 && before[|before| - 1].TaskChainStart? {
        AssistantReports.WorkIs(past[|taken| - 1], Now());
        AssistantReports.SentOne(past[|taken| - 1], Now());
        AssistantReports.JudgedExactly(past, taken, msgQueue[|before|], before[|before| - 1].id);
      }
    }

    /** From the loop's head to the pop of the task that ran. */
    method RunTask()
      requires WorkerStep(Now()).Some?
      requires worker.Starting? || worker.Entered? || worker.Checking? || worker.Stopping? || worker.Returned?
      modifies this
      ensures WorkerStep(old(Now())) == Some(Now()) && past == old(past) && taken == old(taken)
    {
      match worker {
        case Starting => mutex, worker := WorkerHolds, Entered;
        case Entered => worker := if threadIdle then Idling else Checking;
        case Checking =>
          if tasksList != [] {
            var _ := FetchFront();
          } else {
            worker := Idling;
          }
        case Stopping(id) =>
          ClearList();
          worker := Running(id);
        case Returned(id, ret) =>
          PopFront(id);
          worker := Popped(id, ret);
      }
    }

    /** From the pop to the timed wait. */
    method Report()
      requires worker.Popped? || worker.Reported? || worker.Undecided?
      modifies this
      ensures WorkerStep(old(Now())) == Some(Now()) && past == old(past) && taken == old(taken)
    {
      match worker {
        case Popped(id, ret) =>
          var msg := if threadIdle then TaskChainStopped(id)
                     else if ret then TaskChainCompleted(id) else TaskChainError(id);
          msgQueue := msgQueue + [msg];
          worker := Reported(id);
        case Reported(id) =>
          if threadIdle {
            finishedTasks := [];
            worker := Starting;
          } else {
            worker := Undecided(id);
          }
        case Undecided(id) =>
          if tasksList == [] {
            msgQueue := msgQueue + [AllTasksCompleted(id, finishedTasks)];
            finishedTasks := [];
          }
          worker := Delaying(id);
      }
    }

    /** The timed wait between tasks, and the wait without predicate. */
    method Wait()
      requires WorkerStep(Now()).Some?
      requires worker.Delaying? || worker.DelayTest? || worker.DelayWoken? || worker.Delayed? || worker.Idling?
               || worker.Parking? || worker.Woken?
      modifies this
      ensures WorkerStep(old(Now())) == Some(Now()) && past == old(past) && taken == old(taken)
    {
      match worker {
        case Delaying(id) => mutex, worker := WorkerHolds, DelayTest(id);
        case DelayTest(id) =>
          if threadIdle {
            worker := Delayed(id);
          } else {
            mutex, worker := Free, DelayParked(id);
          }
        case DelayWoken(id, timeout) =>
          mutex, worker := WorkerHolds, if timeout then Delayed(id) else DelayTest(id);
        case Delayed(id) =>
          if threadIdle {
            msgQueue := msgQueue + [TaskChainStopped(id)];
          } else {
            assert msgQueue + [] == msgQueue;
          }
          mutex, worker := Free, Starting;
        case Idling =>
          threadIdle := true;
          finishedTasks := [];
          worker := Parking;
        case Parking => mutex, worker := Free, Parked;
        case Woken => worker := Starting;
      }
    }
  }
}
