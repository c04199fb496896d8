/**
 What `AllTasksCompleted` lists, over every run: exactly the tasks announced and run since
 the list of finished tasks was last emptied, the task of the message last.
 */
module AssistantFinished {
  import opened Options
  import opened AssistantSystem
  import opened AssistantQueue
  import opened AssistantMessages

  /** The task announced and not yet returned. */
  function Busy(pc: WorkerPc): Option<nat> {
    match pc
    case Running(id) => Some(id)
    case Stopping(id) => Some(id)
    case _ => None
  }

  /** The task that has returned, up to the end of its report. */
  function JustRun(pc: WorkerPc): Option<nat> {
    match pc
    case Returned(id, _) => Some(id)
    case Popped(id, _) => Some(id)
    case Reported(id) => Some(id)
    case Undecided(id) => Some(id)
    case _ => None
  }

  /** The ids announced as started whose tasks have returned, in order. */
  function Ended(s: State): seq<nat> {
    var ids := StartIds(s.sent);
    if Busy(s.pc).Some? && ids != [] then ids[..|ids| - 1] else ids
  }

  predicate EndsWith(ids: seq<nat>, id: nat) {
    ids != [] && ids[|ids| - 1] == id
  }

  predicate Suffix(a: seq<nat>, b: seq<nat>) {
    |a| <= |b| && b[|b| - |a|..] == a
  }

  /** The message at k lists the last of the tasks announced before it, its own id last. */
  predicate Listed(sent: seq<Message>, k: nat)
    requires k < |sent| && sent[k].AllTasksCompleted?
  {
    EndsWith(sent[k].finished, sent[k].id) && Suffix(sent[k].finished, StartIds(sent[..k]))
  }

  predicate AllListed(sent: seq<Message>) {
    forall k :: 0 <= k < |sent| && sent[k].AllTasksCompleted? ==> Listed(sent, k)
  }

  predicate FinishedInv(s: State) {
    && (Busy(s.pc).Some? ==> EndsWith(StartIds(s.sent), Busy(s.pc).value))
    && (JustRun(s.pc).Some? ==> EndsWith(s.finished, JustRun(s.pc).value))
    && Suffix(s.finished, Ended(s)) && AllListed(s.sent)
  }

  /** A step empties the list of finished tasks or puts on it what it ends. */
  ghost predicate Grows(s: State, t: State) {
    t.finished == [] || exists ids :: t.finished == s.finished + ids && Ended(t) == Ended(s) + ids
  }

  lemma {:induction false} ListedAppend(sent: seq<Message>, m: Message)
    requires AllListed(sent)
    requires m.AllTasksCompleted? ==> EndsWith(m.finished, m.id) && Suffix(m.finished, StartIds(sent))
    ensures AllListed(sent + [m])
  {
    var longer := sent + [m];
    assert longer[..|sent|] == sent;
    forall k | 0 <= k < |longer| && longer[k].AllTasksCompleted? ensures Listed(longer, k) {
      if k < |sent| {
        assert Listed(sent, k);
        assert longer[..k] == sent[..k];
      }
    }
  }

  /** Neither the messages nor the list of finished tasks change. */
  lemma {:induction false} FinishedSame(s: State, t: State)
    requires FinishedInv(s) && t.sent == s.sent && t.finished == s.finished && Busy(t.pc) == Busy(s.pc)
    requires JustRun(t.pc).Some? ==> JustRun(t.pc) == JustRun(s.pc)
    ensures FinishedInv(t) && Grows(s, t)
  {
    assert t.finished == s.finished + [] && Ended(t) == Ended(s) + [];
  }

  lemma {:induction false} FinishedFetch(s: State)
    requires FinishedInv(s) && s.pc.Checking? && s.tasks != []
    ensures FinishedInv(FetchTask(s)) && Grows(s, FetchTask(s))
  {
    hide StartIds, AllListed;
    var t := FetchTask(s);
    SentAppend(s.sent, TaskChainStart(s.tasks[0]));
    ListedAppend(s.sent, TaskChainStart(s.tasks[0]));
    assert t.finished == s.finished + [] && Ended(t) == Ended(s) + [];
  }

  lemma {:induction false} FinishedReturn(s: State, ret: bool)
    requires FinishedInv(s) && s.pc.Running?
    ensures var t := s.(finished := s.finished + [s.pc.id], pc := Returned(s.pc.id, ret));
            FinishedInv(t) && Grows(s, t)
  {
    hide StartIds, AllListed;
    var t := s.(finished := s.finished + [s.pc.id], pc := Returned(s.pc.id, ret));
    assert t.finished == s.finished + [s.pc.id] && Ended(t) == Ended(s) + [s.pc.id];
  }

  /** A message is sent that starts no task, outside any task. */
  lemma {:induction false} FinishedSend(s: State, m: Message, t: State)
    requires FinishedInv(s) && Busy(s.pc).None? && Busy(t.pc).None? && !m.TaskChainStart?
    requires t.sent == s.sent + [m]
    requires if m.AllTasksCompleted? then m.finished == s.finished && JustRun(s.pc) == Some(m.id) && t.finished == []
             else t.finished == s.finished
    requires JustRun(t.pc).Some? ==> JustRun(t.pc) == JustRun(s.pc) && t.finished == s.finished
    ensures FinishedInv(t) && Grows(s, t)
  {
    hide StartIds, AllListed;
    SentAppend(s.sent, m);
    ListedAppend(s.sent, m);
    assert StartIds(t.sent) == StartIds(s.sent);
    assert s.finished == s.finished + [] && Ended(t) == Ended(s) + [];
  }

  lemma {:induction false} FinishedWorker(s: State, t: State)
    requires FinishedInv(s) && WorkerStep(s) == Some(t)
    ensures FinishedInv(t) && Grows(s, t)
  {
    hide FinishedInv, Grows, ClearTasks, PopTask, FetchTask;
    match s.pc
    case Checking => if s.tasks == [] { FinishedSame(s, t); } else { FinishedFetch(s); }
    case Stopping(id) => GoneGrows(s, 0); FinishedSame(s, t);
    case Returned(id, ret) => GoneGrows(s, id); FinishedSame(s, t);
    case Popped(id, ret) => FinishedSend(s, t.sent[|s.sent|], t);
    case Reported(id) => if s.idle { FinishedForget(s, t); } else { FinishedSame(s, t); }
    case Undecided(id) =>
      if s.tasks == [] { FinishedSend(s, AllTasksCompleted(id, s.finished), t); } else { FinishedSame(s, t); }
    case Delayed(id) =>
      if s.idle {
        FinishedSend(s, TaskChainStopped(id), t);
      } else {
        assert s.sent + [] == s.sent;
        FinishedSame(s, t);
      }
    case Idling => FinishedForget(s, t);
    case _ => FinishedSame(s, t);
  }

  lemma {:induction false} FinishedForget(s: State, t: State)
    requires FinishedInv(s) && t.sent == s.sent && t.finished == []
    requires Busy(t.pc).None? && JustRun(t.pc).None?
    ensures FinishedInv(t) && Grows(s, t)
  {
  }

  lemma {:induction false} FinishedClient(s: State, c: nat, t: State)
    requires FinishedInv(s) && ClientStep(s, c) == Some(t)
    ensures FinishedInv(t) && Grows(s, t)
  {
    hide FinishedInv, Grows, ClearTasks;
    if Clears(ClientAt(s, c)) {
      GoneGrows(s, 0);
    }
    FinishedSame(s, t);
  }

  lemma {:induction false} FinishedStep(s: State, step: Step, t: State)
    requires FinishedInv(s) && Apply(s, step) == Some(t)
    ensures FinishedInv(t) && Grows(s, t)
  {
    hide FinishedInv, Grows, WorkerStep, ClientStep;
    match step
    case Work => FinishedWorker(s, t);
    case ClientGo(c) => FinishedClient(s, c, t);
    case TaskReturns(ret) => FinishedReturn(s, ret);
    case _ => FinishedSame(s, t);
  }

  // ---------------------------------------------------------------- over every run

  /** How many tasks had ended when the list of finished tasks was last empty. */
  function EndedBefore(states: seq<State>, steps: seq<Step>): nat
    requires |states| == |steps| + 1
    decreases |steps|
  {
    var n := |steps|;
    if steps == [] || states[n].finished == [] then |Ended(states[n])|
    else EndedBefore(states[..n], steps[..n - 1])
  }

  /** In every run the finished tasks are those that have ended since the list was last empty. */
  lemma {:induction false} RunFinished(states: seq<State>, steps: seq<Step>)
    requires IsRun(states, steps)
    ensures var s := states[|steps|];
            var before := EndedBefore(states, steps);
            && FinishedInv(s)
            && before <= |Ended(s)| && s.finished == Ended(s)[before..]
    decreases |steps|
  {
    hide FinishedInv, Apply, Ended;
    if steps == [] {
      FinishedInit(states[0]);
    } else {
      RunPrefix(states, steps);
      var n := |steps| - 1;
      RunFinished(states[..n + 1], steps[..n]);
      FinishedStep(states[n], steps[n], states[n + 1]);
    }
  }

  lemma {:induction false} FinishedInit(s: State)
    requires Init(s)
    ensures FinishedInv(s) && s.finished == [] && Ended(s) == []
  {
  }

  /** In every run every `AllTasksCompleted` lists its own task last, and what it lists are
      the tasks announced last before it, in that order and none left out. */
  lemma {:induction false} ListedWereStarted(states: seq<State>, steps: seq<Step>, k: nat)
    requires IsRun(states, steps)
    requires k < |states[|steps|].sent| && states[|steps|].sent[k].AllTasksCompleted?
    ensures var sent := states[|steps|].sent;
            && EndsWith(sent[k].finished, sent[k].id)
            && Suffix(sent[k].finished, StartIds(sent[..k]))
            && forall x :: x in sent[k].finished ==> x in StartIds(sent[..k])
  {
    RunFinished(states, steps);
    var sent := states[|steps|].sent;
    assert Listed(sent, k);
    var ids := StartIds(sent[..k]);
    forall x | x in sent[k].finished ensures x in ids {
      assert x in ids[|ids| - |sent[k].finished|..];
    }
  }

  /** When it is sent, its list is exactly the tasks announced since the list was last empty. */
  lemma {:induction false} ListsSinceEmptied(states: seq<State>, steps: seq<Step>, m: Message)
    requires IsRun(states, steps) && steps != [] && m.AllTasksCompleted?
    requires states[|steps|].sent == states[|steps| - 1].sent + [m]
    ensures var n := |steps| - 1;
            var before := EndedBefore(states[..n + 1], steps[..n]);
            var ids := StartIds(states[n].sent);
            before < |ids| && m.finished == ids[before..] && m.id == ids[|ids| - 1]
  {
    hide Apply, StartIds, AllListed;
    var n := |steps| - 1;
    RunPrefix(states, steps);
    RunFinished(states[..n + 1], steps[..n]);
    SenderOf(states[n], steps[n], states[n + 1], m);
    ListsEnded(states[n], m);
  }

  lemma {:induction false} ListsEnded(s: State, m: Message)
    requires FinishedInv(s) && s.pc == Undecided(m.id)
    ensures Ended(s) == StartIds(s.sent) && EndsWith(s.finished, m.id)
  {
  }

  /** Only the end of a report sends it. */
  lemma {:induction false} SenderOf(s: State, step: Step, t: State, m: Message)
    requires Apply(s, step) == Some(t) && t.sent == s.sent + [m] && m.AllTasksCompleted?
    ensures s.pc == Undecided(m.id) && m.finished == s.finished
  {
    hide WorkerStep, ClientStep, AppendTask;
    assert t.sent[|s.sent|] == m;
    match step
    case Work => WorkerSends(s, t);
    case ClientGo(c) => ClientSends(s, c, t);
    case AppendCall(_) => AppendSends(s);
    case _ =>
  }

  lemma {:induction false} AppendSends(s: State)
    ensures AppendTask(s).sent == s.sent
  {
  }

  lemma {:induction false} ClientSends(s: State, c: nat, t: State)
    requires ClientStep(s, c) == Some(t)
    ensures t.sent == s.sent
  {
    hide ClearTasks, Notified;
    ClearFrame(s);
  }

  lemma {:induction false} WorkerSends(s: State, t: State)
    requires WorkerStep(s) == Some(t)
    ensures |t.sent| == |s.sent| + 1 && t.sent[|s.sent|].AllTasksCompleted? ==>
              s.pc == Undecided(t.sent[|s.sent|].id) && t.sent[|s.sent|].finished == s.finished
  {
    hide ClearTasks, PopTask;
    match s.pc
    case Stopping(_) => GoneGrows(s, 0);
    case Returned(id, _) => GoneGrows(s, id);
    case _ =>
  }
}
