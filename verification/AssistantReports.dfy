/**
 What each message of the worker says about what has happened, over every run: a report
 fits the result the task returned and the flag, the end of all tasks fits the list.
 */
module AssistantReports {
  import opened Options
  import opened AssistantSystem
  import opened AssistantQueue
  import opened AssistantMessages

  // ---------------------------------------------------------------- the result of the task

  /** The latest step in which a task returned; -1 if there is none. */
  function LastReturn(steps: seq<Step>): (j: int)
    ensures -1 <= j < |steps|
    ensures j >= 0 ==> steps[j].TaskReturns?
    ensures forall k :: j < k < |steps| ==> !steps[k].TaskReturns?
  {
    if steps == [] then -1
    else
      var n := |steps| - 1;
      if steps[n].TaskReturns? then n else LastReturn(steps[..n])
  }

  /** The task that has returned and what it returned, until it is reported. */
  predicate Awaits(pc: WorkerPc, id: nat, ret: bool) {
    pc == Returned(id, ret) || pc == Popped(id, ret)
  }

  lemma {:induction false} AwaitsBegins(s: State, step: Step, t: State, id: nat, ret: bool)
    requires Apply(s, step) == Some(t) && Awaits(t.pc, id, ret)
    ensures if step.TaskReturns? then step.ret == ret && s.pc == Running(id) else Awaits(s.pc, id, ret)
  {
    hide WorkerStep, ClientStep, AppendTask;
    match step
    case Work => AwaitsWorker(s, t, id, ret);
    case ClientGo(c) => AwaitsClient(s, c, t);
    case AppendCall(_) => AppendFrame(s);
    case _ =>
  }

  lemma {:induction false} AppendFrame(s: State)
    ensures AppendTask(s).pc == s.pc && AppendTask(s).sent == s.sent
  {
  }

  lemma {:induction false} AwaitsWorker(s: State, t: State, id: nat, ret: bool)
    requires WorkerStep(s) == Some(t) && Awaits(t.pc, id, ret)
    ensures Awaits(s.pc, id, ret)
  {
    hide ClearTasks, PopTask;
  }

  /** A client's step says nothing and leaves a worker that is not waiting where it is. */
  lemma {:induction false} AwaitsClient(s: State, c: nat, t: State)
    requires ClientStep(s, c) == Some(t)
    ensures t.sent == s.sent && (t.pc == s.pc || t.pc == Notified(s.pc))
  {
    hide ClearTasks;
    ClearFrame(s);
  }

  /** The latest return in the run is that of the task awaited. */
  lemma {:induction false} ReturnAwaited(states: seq<State>, steps: seq<Step>, id: nat, ret: bool)
    requires IsRun(states, steps) && Awaits(states[|steps|].pc, id, ret)
    ensures var j := LastReturn(steps);
            j >= 0 && steps[j] == TaskReturns(ret) && states[j].pc == Running(id)
    decreases |steps|
  {
    hide Apply;
    if steps != [] {
      RunPrefix(states, steps);
      var n := |steps| - 1;
      AwaitsBegins(states[n], steps[n], states[n + 1], id, ret);
      if !steps[n].TaskReturns? {
        ReturnAwaited(states[..n + 1], steps[..n], id, ret);
      }
    }
  }

  // ---------------------------------------------------------------- what is sent

  /** The step sends the message. */
  predicate Sends(s: State, m: Message, t: State) {
    t.sent == s.sent + [m]
  }

  /** The message is the first about a task whose start has been announced. */
  predicate Judges(s: State, m: Message, id: nat) {
    s.sent != [] && s.sent[|s.sent| - 1] == TaskChainStart(id)
  }

  /** Only the worker sends, in four places. */
  lemma {:induction false} SentBy(s: State, step: Step, m: Message, t: State)
    requires Apply(s, step) == Some(t) && Sends(s, m, t)
    ensures step.Work? && (s.pc.Checking? || s.pc.Popped? || s.pc.Undecided? || s.pc.Delayed?)
  {
    hide WorkerStep, ClientStep, AppendTask;
    assert |t.sent| == |s.sent| + 1;
    match step
    case Work => SentByWorker(s, m, t);
    case ClientGo(c) => AwaitsClient(s, c, t);
    case AppendCall(_) => AppendFrame(s);
    case _ =>
  }

  lemma {:induction false} SentByWorker(s: State, m: Message, t: State)
    requires WorkerStep(s) == Some(t) && Sends(s, m, t)
    ensures s.pc.Checking? || s.pc.Popped? || s.pc.Undecided? || s.pc.Delayed?
  {
    hide ClearTasks, PopTask;
    assert |t.sent| == |s.sent| + 1;
    match s.pc
    case Stopping(_) => GoneGrows(s, 0);
    case Returned(id, _) => GoneGrows(s, id);
    case _ =>
  }

  /** After the start of a task is announced the worker stands in it or before its report. */
  lemma {:induction false} AnnouncedFits(s: State, id: nat)
    requires MessageInv(s) && s.sent != [] && s.sent[|s.sent| - 1] == TaskChainStart(id)
    ensures PhaseOf(s.sent) == Some(Open(id))
    ensures !s.pc.Checking? && !s.pc.Undecided? && !s.pc.Delayed? && (s.pc.Popped? ==> s.pc.id == id)
  {
    hide StartIds, With, ReportedIds;
    var n := |s.sent| - 1;
    assert s.sent == s.sent[..n] + [TaskChainStart(id)];
    SentAppend(s.sent[..n], TaskChainStart(id));
  }

  /** The message fits the flag and the result that the task returned. */
  predicate Fits(m: Message, id: nat, idle: bool, ret: bool) {
    && (m == TaskChainStopped(id) <==> idle)
    && (m == TaskChainCompleted(id) <==> !idle && ret)
    && (m == TaskChainError(id) <==> !idle && !ret)
  }

  /** The four places, one by one. */
  lemma {:induction false} Reported(s: State, m: Message, t: State)
    requires WorkerStep(s) == Some(t) && s.pc.Popped? && Sends(s, m, t)
    ensures Fits(m, s.pc.id, s.idle, s.pc.ret)
  {
    assert t.sent[|s.sent|] == m;
  }

  lemma {:induction false} Said(s: State, m: Message, t: State)
    requires WorkerStep(s) == Some(t) && Sends(s, m, t)
    ensures s.pc.Checking? ==> s.tasks != [] && m == TaskChainStart(s.tasks[0])
    ensures s.pc.Undecided? ==> s.tasks == [] && m.AllTasksCompleted? && m.id == s.pc.id && m.finished == s.finished
    ensures s.pc.Delayed? ==> s.idle && m == TaskChainStopped(s.pc.id)
  {
    assert t.sent[|s.sent|] == m;
  }

  // ---------------------------------------------------------------- over every run

  /** In every run, the first message after a task's start says that it was stopped exactly
      if the flag is set then, and otherwise that it was completed or failed exactly as the
      latest return, which is that task's, said. */
  lemma {:induction false} JudgedExactly(states: seq<State>, steps: seq<Step>, m: Message, id: nat)
    requires IsRun(states, steps) && steps != []
    requires Sends(states[|steps| - 1], m, states[|steps|]) && Judges(states[|steps| - 1], m, id)
    ensures var j := LastReturn(steps);
            && 0 <= j && states[j].pc == Running(id)
            && Fits(m, id, states[|steps| - 1].idle, steps[j].ret)
  {
    hide MessageInv, Apply;
    var n := |steps| - 1;
    RunPrefix(states, steps);
    RunMessages(states[..n + 1], steps[..n]);
    AnnouncedFits(states[n], id);
    SentBy(states[n], steps[n], m, states[n + 1]);
    var ret := states[n].pc.ret;
    ReturnAwaited(states[..n + 1], steps[..n], id, ret);
    WorkIs(states[n], states[n + 1]);
    Reported(states[n], m, states[n + 1]);
  }

  lemma {:induction false} SentOne(s: State, t: State)
    requires WorkerStep(s) == Some(t) && |t.sent| > |s.sent|
    ensures Sends(s, t.sent[|s.sent|], t) && |t.sent| == |s.sent| + 1
  {
    hide ClearTasks, PopTask;
    match s.pc
    case Stopping(_) => GoneGrows(s, 0);
    case Returned(id, _) => GoneGrows(s, id);
    case _ =>
  }

  lemma {:induction false} WorkIs(s: State, t: State)
    requires Apply(s, Work) == Some(t)
    ensures WorkerStep(s) == Some(t)
  {
  }

  /** In every run a message tells of the state in which it is sent: a start is that of the
      head of the list, a task is reported stopped only with the flag set, completed or
      failed only with the flag clear, and all tasks completed only with an empty list. */
  lemma {:induction false} MessagesTell(states: seq<State>, steps: seq<Step>, m: Message)
    requires IsRun(states, steps) && steps != [] && Sends(states[|steps| - 1], m, states[|steps|])
    ensures var s := states[|steps| - 1];
            match m
            case TaskChainStart(id) => s.tasks != [] && s.tasks[0] == id
            case TaskChainStopped(_) => s.idle
            case TaskChainCompleted(_) => !s.idle
            case TaskChainError(_) => !s.idle
            case AllTasksCompleted(_, _) => s.tasks == []
  {
    hide Apply, WorkerStep;
    var n := |steps| - 1;
    SentBy(states[n], steps[n], m, states[n + 1]);
    WorkIs(states[n], states[n + 1]);
    Said(states[n], m, states[n + 1]);
    if states[n].pc.Popped? {
      Reported(states[n], m, states[n + 1]);
      ReportKinds(states[n], m, states[n + 1]);
    }
  }

  lemma {:induction false} ReportKinds(s: State, m: Message, t: State)
    requires WorkerStep(s) == Some(t) && s.pc.Popped? && Sends(s, m, t)
    ensures m == TaskChainStopped(s.pc.id) || m == TaskChainCompleted(s.pc.id) || m == TaskChainError(s.pc.id)
  {
    assert t.sent[|s.sent|] == m;
  }

  /** And where a message is due it is sent: a report after every pop, the end of all tasks
      when the list is found empty after a report with the flag clear, and an extra stop
      when the flag is set after the delay. A report with the flag set ends the round. */
  lemma {:induction false} DueIsSent(s: State, t: State)
    requires WorkerStep(s) == Some(t)
    ensures s.pc.Popped? ==> |t.sent| == |s.sent| + 1
    ensures s.pc.Reported? ==> t.sent == s.sent && (t.pc.Starting? && t.finished == [] <==> s.idle)
    ensures s.pc.Reported? ==> (t.pc == Undecided(s.pc.id) && t.finished == s.finished <==> !s.idle)
    ensures s.pc.Undecided? ==> (|t.sent| == |s.sent| + 1 <==> s.tasks == []) && t.pc == Delaying(s.pc.id)
    ensures s.pc.Delayed? ==> (|t.sent| == |s.sent| + 1 <==> s.idle) && t.pc.Starting?
  {
  }
}
