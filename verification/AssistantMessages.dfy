/**
 What the worker thread reports, over every run: its messages form rounds, one per task
 started, and no task is reported finished twice.
 */
module AssistantMessages {
  import opened Options
  import opened AssistantSystem
  import opened AssistantQueue

  // ---------------------------------------------------------------- rounds

  datatype Outcome = Success | Failure | Interrupted

  /** The messages about one task: its start, how it ended, possibly the end of all tasks
      with the ids finished since the last such message, possibly an extra stop. */
  datatype Round = Round(id: nat, outcome: Outcome, all: Option<seq<nat>>, extraStop: bool)

  function RoundMessages(r: Round): seq<Message> {
    [TaskChainStart(r.id)]
    + [match r.outcome
       case Success => TaskChainCompleted(r.id)
       case Failure => TaskChainError(r.id)
       case Interrupted => TaskChainStopped(r.id)]
    + (if r.all.Some? then [AllTasksCompleted(r.id, r.all.value)] else [])
    + (if r.extraStop then [TaskChainStopped(r.id)] else [])
  }

  function RoundsMessages(rounds: seq<Round>): seq<Message> {
    if rounds == [] then [] else RoundsMessages(rounds[..|rounds| - 1]) + RoundMessages(rounds[|rounds| - 1])
  }

  /** How far the current round is. */
  datatype Phase = Fresh | Open(id: nat) | Judged(id: nat) | Finished(id: nat) | Closed

  function Advance(p: Phase, m: Message): Option<Phase> {
    match m
    case TaskChainStart(id) => if p.Open? then None else Some(Open(id))
    case TaskChainCompleted(id) => if p == Open(id) then Some(Judged(id)) else None
    case TaskChainError(id) => if p == Open(id) then Some(Judged(id)) else None
    case TaskChainStopped(id) =>
      if p == Open(id) then Some(Judged(id))
      else if p == Judged(id) || p == Finished(id) then Some(Closed)
      else None
    case AllTasksCompleted(id, _) => if p == Judged(id) then Some(Finished(id)) else None
  }

  function PhaseOf(sent: seq<Message>): Option<Phase> {
    if sent == [] then Some(Fresh)
    else
      match PhaseOf(sent[..|sent| - 1])
      case None => None
      case Some(p) => Advance(p, sent[|sent| - 1])
  }

  lemma {:induction false} RoundsAppend(rounds: seq<Round>, r: Round)
    ensures RoundsMessages(rounds + [r]) == RoundsMessages(rounds) + RoundMessages(r)
  {
    assert (rounds + [r])[..|rounds|] == rounds;
  }

  /** Messages with a phase are whole rounds, with at most one round just opened. */
  lemma {:induction false} PhaseGivesRounds(sent: seq<Message>) returns (rounds: seq<Round>, open: seq<Message>)
    requires PhaseOf(sent).Some?
    ensures sent == RoundsMessages(rounds) + open
    ensures match PhaseOf(sent).value
            case Open(id) => open == [TaskChainStart(id)]
            case Judged(id) =>
              open == [] && rounds != [] && rounds[|rounds| - 1].id == id
              && rounds[|rounds| - 1].all.None? && !rounds[|rounds| - 1].extraStop
            case Finished(id) =>
              open == [] && rounds != [] && rounds[|rounds| - 1].id == id && !rounds[|rounds| - 1].extraStop
            case _ => open == []
    decreases |sent|
  {
    if sent == [] {
      return [], [];
    }
    var n := |sent| - 1;
    var m := sent[n];
    var p := PhaseOf(sent[..n]).value;
    assert sent == sent[..n] + [m];
    rounds, open := PhaseGivesRounds(sent[..n]);
    if m.TaskChainStart? {
      open := [m];
    } else if p.Open? {
      var outcome := if m.TaskChainCompleted? then Success else if m.TaskChainError? then Failure else Interrupted;
      rounds, open := JudgeRound(rounds, p.id, outcome, m), [];
    } else {
      rounds := ExtendRound(rounds, m);
    }
  }

  function JudgeRound(rounds: seq<Round>, id: nat, outcome: Outcome, m: Message): (r: seq<Round>)
    requires m == RoundMessages(Round(id, outcome, None, false))[1]
    ensures r != [] && r[|r| - 1] == Round(id, outcome, None, false)
    ensures RoundsMessages(r) == RoundsMessages(rounds) + [TaskChainStart(id)] + [m]
  {
    RoundsAppend(rounds, Round(id, outcome, None, false));
    rounds + [Round(id, outcome, None, false)]
  }

  function ExtendRound(rounds: seq<Round>, m: Message): (r: seq<Round>)
    requires rounds != [] && !rounds[|rounds| - 1].extraStop
    requires m == TaskChainStopped(rounds[|rounds| - 1].id)
             || (m.AllTasksCompleted? && m.id == rounds[|rounds| - 1].id && rounds[|rounds| - 1].all.None?)
    ensures r != [] && r[|r| - 1].id == m.id && r[|r| - 1].extraStop == m.TaskChainStopped?
    ensures RoundsMessages(r) == RoundsMessages(rounds) + [m]
  {
    var n := |rounds| - 1;
    var last := if m.TaskChainStopped? then rounds[n].(extraStop := true) else rounds[n].(all := Some(m.finished));
    RoundsAppend(rounds[..n], last);
    RoundsAppend(rounds[..n], rounds[n]);
    assert rounds == rounds[..n] + [rounds[n]];
    assert RoundMessages(last) == RoundMessages(rounds[n]) + [m];
    rounds[..n] + [last]
  }

  // ---------------------------------------------------------------- the invariant

  predicate PhaseFits(pc: WorkerPc, p: Phase) {
    match pc
    case Running(id) => p == Open(id)
    case Stopping(id) => p == Open(id)
    case Returned(id, _) => p == Open(id)
    case Popped(id, _) => p == Open(id)
    case Reported(id) => p == Judged(id)
    case Undecided(id) => p == Judged(id)
    case Delaying(id) => p == Judged(id) || p == Finished(id)
    case DelayTest(id) => p == Judged(id) || p == Finished(id)
    case DelayParked(id) => p == Judged(id) || p == Finished(id)
    case DelayWoken(id, _) => p == Judged(id) || p == Finished(id)
    case Delayed(id) => p == Judged(id) || p == Finished(id)
    case _ => !p.Open?
  }

  /** The ids announced as started. */
  function StartIds(sent: seq<Message>): seq<nat> {
    if sent == [] then []
    else
      var m := sent[|sent| - 1];
      StartIds(sent[..|sent| - 1]) + (if m.TaskChainStart? then [m.id] else [])
  }

  /** The ids reported in all `AllTasksCompleted` messages together. */
  function ReportedIds(sent: seq<Message>): seq<nat> {
    if sent == [] then []
    else
      var m := sent[|sent| - 1];
      ReportedIds(sent[..|sent| - 1]) + (if m.AllTasksCompleted? then m.finished else [])
  }

  lemma {:induction false} SentAppend(sent: seq<Message>, m: Message)
    ensures StartIds(sent + [m]) == StartIds(sent) + (if m.TaskChainStart? then [m.id] else [])
    ensures ReportedIds(sent + [m]) == ReportedIds(sent) + (if m.AllTasksCompleted? then m.finished else [])
    ensures PhaseOf(sent + [m]) == if PhaseOf(sent).Some? then Advance(PhaseOf(sent).value, m) else None
  {
    assert (sent + [m])[..|sent|] == sent;
  }

  function Done(s: State): seq<nat> {
    ReportedIds(s.sent) + s.finished
  }

  ghost predicate MessageInv(s: State) {
    && PhaseOf(s.sent).Some? && PhaseFits(s.pc, PhaseOf(s.sent).value)
    && StartIds(s.sent) == With(Started, s.gone)
    && Increasing(Done(s))
    && (forall x :: x in Done(s) ==> x in Ids(s.gone))
    && (Current(s.pc).Some? ==> Current(s.pc).value in Ids(s.gone))
    && (s.pc.Running? || s.pc.Stopping? ==> forall x :: x in Done(s) ==> x < s.pc.id)
  }

  /** Nothing but the list of those gone may change, and only by tasks not started. */
  lemma {:induction false} MessageSame(s: State, t: State)
    requires MessageInv(s)
    requires t.sent == s.sent && t.finished == s.finished
    requires With(Started, t.gone) == With(Started, s.gone) && forall x :: x in Ids(s.gone) ==> x in Ids(t.gone)
    requires Current(t.pc) == Current(s.pc) || Current(t.pc).None?
    requires PhaseFits(t.pc, PhaseOf(s.sent).value)
    requires t.pc.Running? || t.pc.Stopping? ==> s.pc.Running? || s.pc.Stopping?
    ensures MessageInv(t)
  {
  }

  lemma {:induction false} GoneGrows(s: State, id: nat)
    ensures var t := ClearTasks(s);
            && t.sent == s.sent && t.finished == s.finished && t.pc == s.pc
            && With(Started, t.gone) == With(Started, s.gone) && forall x :: x in Ids(s.gone) ==> x in Ids(t.gone)
    ensures var t := PopTask(s, id);
            && t.sent == s.sent && t.finished == s.finished && t.pc == s.pc
            && With(Started, t.gone) == With(Started, s.gone) && forall x :: x in Ids(s.gone) ==> x in Ids(t.gone)
  {
    GoneTag(s.gone, Waiting(s), Cleared);
    if s.tasks != [] {
      GoneAppend(s.gone, s.tasks[0], Dropped);
    }
  }

  lemma {:induction false} FetchMessages(s: State)
    requires MessageInv(s) && QueueInv(s) && s.pc.Checking? && s.tasks != []
    ensures MessageInv(FetchTask(s))
  {
    hide PhaseOf, StartIds, ReportedIds, With;
    var id := s.tasks[0];
    SentAppend(s.sent, TaskChainStart(id));
    GoneAppend(s.gone, id, Started);
    assert Done(FetchTask(s)) == Done(s);
    var ids := Ids(s.gone);
    assert s.appended[|ids|] == id;
    forall x | x in ids ensures x < id {
      var i :| 0 <= i < |ids| && ids[i] == x;
      assert s.appended[i] == x;
    }
  }

  /** Sending one message that fits the phase. */
  lemma {:induction false} SendKeeps(s: State, m: Message, finished: seq<nat>, pc: WorkerPc)
    requires MessageInv(s) && Current(s.pc).None? && Current(pc).None?
    requires !m.TaskChainStart?
    requires finished == if m.AllTasksCompleted? then [] else s.finished
    requires m.AllTasksCompleted? ==> m.finished == s.finished
    requires Advance(PhaseOf(s.sent).value, m).Some? && PhaseFits(pc, Advance(PhaseOf(s.sent).value, m).value)
    ensures MessageInv(s.(sent := s.sent + [m], finished := finished, pc := pc))
  {
    SentAppend(s.sent, m);
    var t := s.(sent := s.sent + [m], finished := finished, pc := pc);
    assert Done(t) == Done(s);
  }

  lemma {:induction false} ForgetKeeps(s: State, pc: WorkerPc)
    requires MessageInv(s) && Current(pc).None? && PhaseFits(pc, PhaseOf(s.sent).value)
    ensures MessageInv(s.(finished := [], pc := pc))
  {
    var t := s.(finished := [], pc := pc);
    assert Done(t) == Done(s)[..|ReportedIds(s.sent)|];
  }

  lemma {:induction false} ReturnKeeps(s: State, ret: bool)
    requires MessageInv(s) && s.pc.Running?
    ensures MessageInv(s.(finished := s.finished + [s.pc.id], pc := Returned(s.pc.id, ret)))
  {
    var t := s.(finished := s.finished + [s.pc.id], pc := Returned(s.pc.id, ret));
    assert Done(t) == Done(s) + [s.pc.id];
    forall i | 0 <= i < |Done(s)| ensures Done(s)[i] < s.pc.id {
      assert Done(s)[i] in Done(s);
    }
  }

  lemma {:induction false} MessageUnlocked(s: State, t: State)
    requires MessageInv(s)
    requires t.(holder := s.holder, clients := s.clients, idle := s.idle) == s
    ensures MessageInv(t)
  {
  }

  lemma {:induction false} MessageWorker(s: State, t: State)
    requires MessageInv(s) && QueueInv(s) && WorkerStep(s) == Some(t)
    ensures MessageInv(t)
  {
    hide MessageInv, QueueInv, ClearTasks, PopTask, FetchTask, With, Ids, PhaseOf, StartIds;
    MessageFits(s);
    match s.pc
    case Checking => if s.tasks == [] { MessageSame(s, t); } else { FetchMessages(s); }
    case Stopping(id) => GoneGrows(s, 0); MessageSame(s, t);
    case Returned(id, ret) => GoneGrows(s, id); MessageSame(s, t);
    case Popped(id, ret) => SendKeeps(s, t.sent[|s.sent|], s.finished, Reported(id));
    case Reported(id) => if s.idle { ForgetKeeps(s, Starting); } else { MessageSame(s, t); }
    case Undecided(id) =>
      if s.tasks == [] {
        SendKeeps(s, AllTasksCompleted(id, s.finished), [], Delaying(id));
      } else {
        MessageSame(s, t);
      }
    case Delayed(id) =>
      if s.idle {
        SendKeeps(s, TaskChainStopped(id), s.finished, Starting);
        MessageUnlocked(s.(sent := s.sent + [TaskChainStopped(id)], pc := Starting), t);
      } else {
        assert s.sent + [] == s.sent;
        MessageSame(s, t);
      }
    case Idling =>
      ForgetKeeps(s, Parking);
      MessageUnlocked(s.(finished := [], pc := Parking), t);
    case _ => MessageSame(s, t);
  }

  lemma {:induction false} MessageFits(s: State)
    requires MessageInv(s)
    ensures PhaseOf(s.sent).Some? && PhaseFits(s.pc, PhaseOf(s.sent).value)
  {
  }

  lemma {:induction false} MessageClient(s: State, c: nat, t: State)
    requires MessageInv(s) && ClientStep(s, c) == Some(t)
    ensures MessageInv(t)
  {
    hide MessageInv, ClearTasks, With, Ids, PhaseOf;
    MessageFits(s);
    if Clears(ClientAt(s, c)) {
      GoneGrows(s, 0);
    }
    NotifiedFits(s.pc, PhaseOf(s.sent).value);
    hide PhaseFits, Notified;
    MessageSame(s, t);
  }

  lemma {:induction false} NotifiedFits(pc: WorkerPc, p: Phase)
    requires PhaseFits(pc, p)
    ensures PhaseFits(Notified(pc), p) && Current(Notified(pc)) == Current(pc)
    ensures Notified(pc).Running? || Notified(pc).Stopping? ==> pc.Running? || pc.Stopping?
  {
  }

  lemma {:induction false} MessageStep(s: State, step: Step, t: State)
    requires MessageInv(s) && QueueInv(s) && Apply(s, step) == Some(t)
    ensures MessageInv(t)
  {
    hide MessageInv, QueueInv, WorkerStep, ClientStep, With, Ids, PhaseOf;
    MessageFits(s);
    match step
    case Work => MessageWorker(s, t);
    case ClientGo(c) => MessageClient(s, c, t);
    case TaskReturns(ret) => ReturnKeeps(s, ret);
    case _ => MessageSame(s, t);
  }

  lemma {:induction false} RunMessages(states: seq<State>, steps: seq<Step>)
    requires IsRun(states, steps)
    ensures MessageInv(states[|steps|])
    decreases |steps|
  {
    if steps != [] {
      RunPrefix(states, steps);
      var n := |steps| - 1;
      RunMessages(states[..n + 1], steps[..n]);
      RunQueue(states[..n + 1], steps[..n]);
      MessageStep(states[n], steps[n], states[n + 1]);
    }
  }

  // ---------------------------------------------------------------- over every run

  /** In every run the worker's messages are whole rounds, plus at most one round of which
      only the start has been sent; the rounds start in the order the tasks were started. */
  lemma {:induction false} MessagesFormRounds(states: seq<State>, steps: seq<Step>)
    requires IsRun(states, steps)
    ensures var s := states[|steps|];
            && StartIds(s.sent) == With(Started, s.gone)
            && exists rounds: seq<Round>, open: seq<Message> ::
                 && s.sent == RoundsMessages(rounds) + open
                 && (open == [] || (|open| == 1 && open[0].TaskChainStart?))
  {
    RunMessages(states, steps);
    var s := states[|steps|];
    var rounds, open := PhaseGivesRounds(s.sent);
    assert s.sent == RoundsMessages(rounds) + open;
  }

  lemma {:induction false} ReportedDisjoint(sent: seq<Message>, i: nat, j: nat, x: nat)
    requires Increasing(ReportedIds(sent)) && i < j < |sent|
    requires sent[i].AllTasksCompleted? && sent[j].AllTasksCompleted? && x in sent[i].finished
    ensures x !in sent[j].finished
    decreases |sent|
  {
    var n := |sent| - 1;
    var r := ReportedIds(sent[..n]);
    var last := if sent[n].AllTasksCompleted? then sent[n].finished else [];
    assert ReportedIds(sent) == r + last;
    assert Increasing(r) by {
      assert forall a :: 0 <= a < |r| ==> ReportedIds(sent)[a] == r[a];
    }
    if j < n {
      ReportedDisjoint(sent[..n], i, j, x);
    } else {
      ReportedContains(sent[..n], i, x);
      var a :| 0 <= a < |r| && r[a] == x;
      forall b | 0 <= b < |last| ensures last[b] != x {
        assert (r + last)[a] < (r + last)[|r| + b];
      }
    }
  }

  lemma {:induction false} ReportedContains(sent: seq<Message>, i: nat, x: nat)
    requires i < |sent| && sent[i].AllTasksCompleted? && x in sent[i].finished
    ensures x in ReportedIds(sent)
    decreases |sent|
  {
    var n := |sent| - 1;
    if i < n {
      ReportedContains(sent[..n], i, x);
    }
  }

  /** In every run no id is listed as finished by two `AllTasksCompleted` messages. */
  lemma {:induction false} FinishedOnce(states: seq<State>, steps: seq<Step>, i: nat, j: nat, x: nat)
    requires IsRun(states, steps)
    requires var sent := states[|steps|].sent;
             && i < j < |sent| && sent[i].AllTasksCompleted? && sent[j].AllTasksCompleted? && x in sent[i].finished
    ensures x !in states[|steps|].sent[j].finished
  {
    RunMessages(states, steps);
    var s := states[|steps|];
    assert forall a :: 0 <= a < |ReportedIds(s.sent)| ==> Done(s)[a] == ReportedIds(s.sent)[a];
    ReportedDisjoint(s.sent, i, j, x);
  }
}
