/**
 Which accepted starts the worker can miss. A start is answered once the worker tests the
 task list after it, or a stop revokes it. Over every run: the worker can fall asleep over a
 start, with nobody about to wake it, exactly if the start clears the flag while somebody is
 about to overwrite it or the worker is about to wait. A locking start never does.
 */
module AssistantStarts {
  import opened Options
  import opened AssistantSystem
  import opened AssistantQueue
  import opened AssistantWake

  /** The worker tests the task list, or a stop sets the flag. */
  predicate Answers(s: State, step: Step) {
    (step.Work? && s.pc.Checking?) || step.StopCall? || step.TaskStops? || step.ConnectStops?
  }

  /** A connect that has found the flag set and will set it again. */
  predicate Underway(pc: ClientPc) {
    pc.ConnectSet? || pc.Connecting? || pc.ConnectStopping? || pc.ConnectDone?
  }

  predicate ConnectUnderway(s: State) {
    s.holder.ClientHolds? && Underway(ClientAt(s, s.holder.c))
  }

  /** Clearing the flag now may be in vain: the worker has decided to set it and to wait, or
      a connect will set it. */
  predicate InVain(s: State) {
    s.pc.Idling? || s.pc.Parking? || ConnectUnderway(s)
  }

  // ---------------------------------------------------------------- starts not in vain

  /** A start has cleared the flag and the worker cannot miss it: nobody is about to overwrite
      the flag, and a waiting worker is about to be notified. */
  ghost predicate Standing(s: State) {
    && !s.idle && !InVain(s)
    && (s.pc.Parked? ==> exists c: nat :: Notifies(s, c))
  }

  /** Client c is about to notify, after clearing the flag. */
  predicate Notifies(s: State, c: nat) {
    ClientAt(s, c) == StartNotify(false) || (s.holder == ClientHolds(c) && ClientAt(s, c) == StartNotify(true))
  }

  predicate Clearing(s: State, step: Step) {
    step.ClientGo? && ClientAt(s, step.c).StartSet?
  }

  lemma {:induction false} StandingBegins(s: State, step: Step, t: State)
    requires LockInv(s) && Clearing(s, step) && Apply(s, step) == Some(t) && !InVain(s)
    ensures Standing(t)
  {
    var c := step.c;
    assert ClientLocks(ClientAt(s, c)) <==> s.holder == ClientHolds(c);
    assert Notifies(t, c);
  }

  lemma {:induction false} StandingWorker(s: State, t: State)
    requires LockInv(s) && Standing(s) && WorkerStep(s) == Some(t) && !s.pc.Checking?
    ensures Standing(t)
  {
    ClientsSame(s, t);
    hide ClearTasks, PopTask;
    ClearFrame(s);
  }

  lemma {:induction false} StandingClient(s: State, c: nat, t: State)
    requires LockInv(s) && Standing(s) && ClientStep(s, c) == Some(t)
    ensures Standing(t)
  {
    hide ClearTasks;
    ClearFrame(s);
    assert ClientLocks(ClientAt(s, c)) <==> s.holder == ClientHolds(c);
    forall d: nat ensures ClientAt(t, d) == if d == c then ClientAt(t, c) else ClientAt(s, d) {
    }
    if t.pc.Parked? {
      var d: nat :| Notifies(s, d);
      assert Notifies(t, d);
    }
  }

  lemma {:induction false} StandingCall(s: State, step: Step, t: State)
    requires LockInv(s) && Standing(s) && Apply(s, step) == Some(t)
    requires !Answers(s, step) && !step.Work? && !step.ClientGo?
    ensures Standing(t)
  {
    hide WorkerStep, ClientStep;
    if t.pc.Parked? {
      var d: nat :| Notifies(s, d);
      assert Notifies(t, d);
    }
  }

  lemma {:induction false} StandingStep(s: State, step: Step, t: State)
    requires LockInv(s) && Standing(s) && Apply(s, step) == Some(t) && !Answers(s, step)
    ensures Standing(t)
  {
    hide WorkerStep, ClientStep, Standing;
    match step
    case Work => StandingWorker(s, t);
    case ClientGo(c) => StandingClient(s, c, t);
    case _ => StandingCall(s, step, t);
  }

  // ---------------------------------------------------------------- going on from a state

  /** A longer run that goes on from a run, with no answer in what it adds. */
  ghost predicate GoesOn(states: seq<State>, steps: seq<Step>, longer: seq<State>, more: seq<Step>) {
    && IsRun(longer, more) && |states| == |steps| + 1 && |steps| <= |more|
    && longer[..|states|] == states && more[..|steps|] == steps
    && forall j :: |steps| <= j < |more| ==> !Answers(longer[j], more[j])
  }

  /** After a clear by a start that is not in vain, it stays standing until it is answered. */
  lemma {:induction false} StandsUnanswered(states: seq<State>, steps: seq<Step>, longer: seq<State>, more: seq<Step>)
    requires GoesOn(states, steps, longer, more) && |steps| < |more|
    requires Clearing(states[|steps|], more[|steps|]) && !InVain(states[|steps|])
    ensures Standing(longer[|more|])
    decreases |more|
  {
    hide Standing, InVain, Answers, Clearing, Apply;
    var n := |more| - 1;
    RunPrefix(longer, more);
    RunLocks(longer[..n + 1], more[..n]);
    assert longer[|steps|] == states[|steps|];
    if n == |steps| {
      StandingBegins(longer[n], more[n], longer[n + 1]);
    } else {
      StandsUnanswered(states, steps, longer[..n + 1], more[..n]);
      StandingStep(longer[n], more[n], longer[n + 1]);
    }
  }

  lemma {:induction false} StandingNotAsleep(s: State)
    requires Standing(s)
    ensures !(s.pc.Parked? && Quiet(s))
  {
  }

  // ---------------------------------------------------------------- starts in vain

  /** One more step that answers nothing. */
  lemma {:induction false} Go(states: seq<State>, steps: seq<Step>, longer: seq<State>, more: seq<Step>,
                              step: Step, t: State)
      returns (further: seq<State>, taken: seq<Step>)
    requires GoesOn(states, steps, longer, more)
    requires Apply(longer[|more|], step) == Some(t) && !Answers(longer[|more|], step)
    ensures GoesOn(states, steps, further, taken)
    ensures further == longer + [t] && taken == more + [step]
  {
    hide Answers, Apply, IsRun;
    further, taken := Extend(longer, more, step, t);
  }

  /** The clients about to notify without the lock. */
  function Notifiers(clients: map<nat, ClientPc>): set<nat> {
    set c | c in clients && clients[c] == StartNotify(false)
  }

  /** A worker that tests no list before it waits. */
  predicate Drowsy(s: State) {
    && !s.pc.Checking? && (s.idle || s.pc.Idling? || s.pc.Parking? || s.pc.Parked?)
    && s.holder == if WorkerLocks(s.pc) then WorkerHolds else Free
  }

  /** All pending notifications are delivered while the worker is drowsy. */
  lemma {:induction false} NotifyAll(states: seq<State>, steps: seq<Step>, longer: seq<State>, more: seq<Step>)
      returns (further: seq<State>, taken: seq<Step>)
    requires GoesOn(states, steps, longer, more) && Drowsy(longer[|more|])
    requires longer[|more|].pc.Parked? ==> longer[|more|].idle
    ensures GoesOn(states, steps, further, taken) && |more| <= |taken| && taken[..|more|] == more
    ensures var s := further[|taken|]; Drowsy(s) && Notifiers(s.clients) == {}
    decreases |Notifiers(longer[|more|].clients)|
  {
    var s := longer[|more|];
    if Notifiers(s.clients) == {} {
      further, taken := longer, more;
    } else {
      var c :| c in Notifiers(s.clients);
      var t := Move(s.(pc := Notified(s.pc)), c, Ready);
      NotifyOne(s, c, t);
      further, taken := Go(states, steps, longer, more, ClientGo(c), t);
      further, taken := NotifyAll(states, steps, further, taken);
    }
  }

  lemma {:induction false} NotifyOne(s: State, c: nat, t: State)
    requires c in Notifiers(s.clients) && t == Move(s.(pc := Notified(s.pc)), c, Ready)
    requires Drowsy(s) && (s.pc.Parked? ==> s.idle)
    ensures Apply(s, ClientGo(c)) == Some(t) && Drowsy(t) && (t.pc.Parked? ==> t.idle)
    ensures Notifiers(t.clients) == Notifiers(s.clients) - {c} && |Notifiers(t.clients)| < |Notifiers(s.clients)|
  {
    assert Notifiers(t.clients) == Notifiers(s.clients) - {c};
  }

  /** How far a drowsy worker is from its wait. */
  function Distance(pc: WorkerPc): nat {
    match pc
    case Stopping(_) => 16
    case Running(_) => 15
    case Returned(_, _) => 14
    case Popped(_, _) => 13
    case Reported(_) => 12
    case Undecided(_) => 11
    case Delaying(_) => 10
    case DelayParked(_) => 10
    case DelayWoken(_, _) => 9
    case DelayTest(_) => 8
    case Delayed(_) => 7
    case Woken => 6
    case Starting => 5
    case Entered => 4
    case Checking => 3
    case Idling => 2
    case Parking => 1
    case Parked => 0
  }

  /** What the worker does next. */
  function NextStep(pc: WorkerPc): Step {
    match pc
    case Running(_) => TaskReturns(true)
    case DelayParked(_) => Wake(true)
    case _ => Work
  }

  lemma {:induction false} DrowsyStep(s: State)
    requires Drowsy(s) && !s.pc.Parked?
    ensures var step := NextStep(s.pc);
            && !Answers(s, step) && Apply(s, step).Some?
            && var t := Apply(s, step).value;
               Drowsy(t) && Distance(t.pc) < Distance(s.pc) && Notifiers(t.clients) == Notifiers(s.clients)
  {
    hide ClearTasks, PopTask, Notifiers;
    ClearFrame(s);
    match s.pc
    case Returned(id, _) => PopFrame(s, id);
    case _ =>
  }

  lemma {:induction false} PopFrame(s: State, id: nat)
    ensures var t := PopTask(s, id);
            t.idle == s.idle && t.holder == s.holder && t.clients == s.clients
  {
  }

  /** A drowsy worker goes to sleep. */
  lemma {:induction false} FallAsleep(states: seq<State>, steps: seq<Step>, longer: seq<State>, more: seq<Step>)
      returns (further: seq<State>, taken: seq<Step>)
    requires GoesOn(states, steps, longer, more) && Drowsy(longer[|more|]) && Notifiers(longer[|more|].clients) == {}
    ensures GoesOn(states, steps, further, taken) && |more| <= |taken| && taken[..|more|] == more
    ensures var s := further[|taken|]; s.pc.Parked? && Drowsy(s) && Notifiers(s.clients) == {}
    decreases Distance(longer[|more|].pc)
  {
    hide Drowsy, Notifiers, Apply, Answers;
    var s := longer[|more|];
    if s.pc.Parked? {
      further, taken := longer, more;
    } else {
      DrowsyStep(s);
      further, taken := Go(states, steps, longer, more, NextStep(s.pc), Apply(s, NextStep(s.pc)).value);
      further, taken := FallAsleep(states, steps, further, taken);
    }
  }

  lemma {:induction false} AsleepIsQuiet(s: State)
    requires s.pc.Parked? && Drowsy(s) && Notifiers(s.clients) == {}
    ensures Quiet(s)
  {
    forall c: nat ensures ClientAt(s, c) != StartNotify(false) {
      assert c !in Notifiers(s.clients);
    }
  }

  /** The connect that holds the mutex ends. */
  lemma {:induction false} EndConnect(states: seq<State>, steps: seq<Step>, longer: seq<State>, more: seq<Step>)
      returns (further: seq<State>, taken: seq<Step>)
    requires GoesOn(states, steps, longer, more) && LockInv(longer[|more|]) && ConnectUnderway(longer[|more|])
    ensures GoesOn(states, steps, further, taken) && |more| <= |taken| && taken[..|more|] == more
    ensures var s := further[|taken|]; Drowsy(s) && s.idle
    decreases match ClientAt(longer[|more|], longer[|more|].holder.c)
              case ConnectStopping => 3
              case ConnectSet => 3
              case Connecting => 2
              case ConnectDone => 1
              case _ => 0
  {
    var s := longer[|more|];
    var d := s.holder.c;
    ConnectGoes(s, d);
    var t := ClientStep(s, d).value;
    LockClient(s, d, t);
    further, taken := Go(states, steps, longer, more, ClientGo(d), t);
    if !ClientAt(s, d).ConnectDone? {
      further, taken := EndConnect(states, steps, further, taken);
    }
  }

  lemma {:induction false} ConnectGoes(s: State, d: nat)
    requires LockInv(s) && s.holder == ClientHolds(d) && Underway(ClientAt(s, d))
    ensures ClientStep(s, d).Some?
    ensures var t := ClientStep(s, d).value;
            match ClientAt(s, d)
            case ConnectSet => t.holder == s.holder && ClientAt(t, d).Connecting?
            case ConnectStopping => t.holder == s.holder && ClientAt(t, d).Connecting?
            case Connecting => t.holder == s.holder && ClientAt(t, d).ConnectDone?
            case _ => Drowsy(t) && t.idle
  {
    hide ClearTasks;
    ClearFrame(s);
  }

  // ---------------------------------------------------------------- over every run

  /** From the end of the run, client c's start can clear the flag and the worker then fall
      asleep, nobody being about to notify it or to set the flag, before the start is answered. */
  ghost predicate CanBeMissed(states: seq<State>, steps: seq<Step>, c: nat) {
    exists longer: seq<State>, more: seq<Step> ::
      && GoesOn(states, steps, longer, more) && |steps| < |more| && more[|steps|] == ClientGo(c)
      && longer[|more|].pc.Parked? && Quiet(longer[|more|])
  }

  /** In every run, a start about to clear the flag can be missed exactly if it does so in
      vain: the worker is about to set the flag or to wait, or a connect will set it. */
  lemma {:induction false} MissedExactly(states: seq<State>, steps: seq<Step>, c: nat)
    requires IsRun(states, steps) && ClientAt(states[|steps|], c).StartSet?
    ensures CanBeMissed(states, steps, c) <==> InVain(states[|steps|])
  {
    if InVain(states[|steps|]) {
      var longer, more := MissIt(states, steps, c);
    }
    if longer: seq<State>, more: seq<Step> :|
      && GoesOn(states, steps, longer, more) && |steps| < |more| && more[|steps|] == ClientGo(c)
      && longer[|more|].pc.Parked? && Quiet(longer[|more|]) {
      if !InVain(states[|steps|]) {
        StandsUnanswered(states, steps, longer, more);
        StandingNotAsleep(longer[|more|]);
      }
    }
  }

  lemma {:induction false} MissIt(states: seq<State>, steps: seq<Step>, c: nat)
      returns (longer: seq<State>, more: seq<Step>)
    requires IsRun(states, steps) && ClientAt(states[|steps|], c).StartSet? && InVain(states[|steps|])
    ensures GoesOn(states, steps, longer, more) && |steps| < |more| && more[|steps|] == ClientGo(c)
    ensures longer[|more|].pc.Parked? && Quiet(longer[|more|])
  {
    var s := states[|steps|];
    RunLocks(states, steps);
    if ClientAt(s, c) == StartSet(true) {
      LockingNotInVain(s, c);
    }
    var t := Move(s.(idle := false), c, StartNotify(false));
    LockClient(s, c, t);
    longer, more := Go(states, steps, states, steps, ClientGo(c), t);
    if ConnectUnderway(s) {
      longer, more := EndConnect(states, steps, longer, more);
    }
    longer, more := NotifyAll(states, steps, longer, more);
    longer, more := FallAsleep(states, steps, longer, more);
    AsleepIsQuiet(longer[|more|]);
  }

  /** A locking start never clears the flag in vain. */
  lemma {:induction false} LockingNotInVain(s: State, c: nat)
    requires LockInv(s) && ClientAt(s, c) == StartSet(true)
    ensures !InVain(s)
  {
    assert ClientLocks(ClientAt(s, c)) <==> s.holder == ClientHolds(c);
  }

  /** So no locking start can be missed in any run. */
  lemma {:induction false} LockingStartNotMissed(states: seq<State>, steps: seq<Step>, c: nat)
    requires IsRun(states, steps) && ClientAt(states[|steps|], c) == StartSet(true)
    ensures !CanBeMissed(states, steps, c)
  {
    RunLocks(states, steps);
    LockingNotInVain(states[|steps|], c);
    MissedExactly(states, steps, c);
  }

  /** In every run that ends with the worker asleep and nobody about to wake it, every start
      that did not clear the flag in vain has been answered. */
  lemma {:induction false} StartAnswered(states: seq<State>, steps: seq<Step>, i: nat)
    requires IsRun(states, steps) && i < |steps|
    requires Clearing(states[i], steps[i]) && !InVain(states[i])
    requires states[|steps|].pc.Parked? && Quiet(states[|steps|])
    ensures exists j :: i < j < |steps| && Answers(states[j], steps[j])
  {
    if forall j :: i < j < |steps| ==> !Answers(states[j], steps[j]) {
      StandsUnanswered(states[..i + 1], steps[..i], states, steps);
      StandingNotAsleep(states[|steps|]);
      assert false;
    }
  }

  // ---------------------------------------------------------------- two runs

  /** A start is missed with the flag set: the worker has found the flag set and is about to
      set it again when the start clears it. The appended task is never run. */
  lemma {:induction false} StartOverwrittenByWorker(s0: State)
      returns (states: seq<State>, steps: seq<Step>)
    requires Init(s0)
    ensures IsRun(states, steps) && |steps| == 8 && states[0] == s0
    ensures Clearing(states[4], steps[4]) && forall j :: 0 <= j < 8 ==> !Answers(states[j], steps[j])
    ensures var s := states[8];
            s.pc.Parked? && Quiet(s) && s.idle && s.tasks == [s0.lastId + 1] && s.sent == []
  {
    hide IsRun;
    StartOf(s0);
    var s1 := AppendTask(s0);
    var s2 := s1.(holder := WorkerHolds, pc := Entered);
    var s3 := s2.(pc := Idling);
    var s4 := Move(s3, 1, StartSet(false));
    var s5 := Move(s4.(idle := false), 1, StartNotify(false));
    var s6 := Move(s5, 1, Ready);
    var s7 := s6.(idle := true, finished := [], pc := Parking);
    states, steps := Extend([s0], [], AppendCall(1), s1);
    states, steps := Extend(states, steps, Work, s2);
    states, steps := Extend(states, steps, Work, s3);
    states, steps := Extend(states, steps, StartCall(1, false, true), s4);
    states, steps := Extend(states, steps, ClientGo(1), s5);
    states, steps := Extend(states, steps, ClientGo(1), s6);
    states, steps := Extend(states, steps, Work, s7);
    states, steps := Extend(states, steps, Work, s7.(holder := Free, pc := Parked));
  }

  /** Likewise when a connect that has found the flag set is about to set it again. */
  lemma {:induction false} StartOverwrittenByConnect(s0: State)
      returns (states: seq<State>, steps: seq<Step>)
    requires Init(s0)
    ensures IsRun(states, steps) && |steps| == 13 && states[0] == s0
    ensures Clearing(states[5], steps[5]) && forall j :: 0 <= j < 13 ==> !Answers(states[j], steps[j])
    ensures var s := states[13];
            s.pc.Parked? && Quiet(s) && s.idle && s.tasks == [s0.lastId + 1] && s.sent == []
  {
    hide IsRun;
    states, steps := ConnectOverwrites(s0);
    var s9 := states[9];
    var s10 := s9.(holder := WorkerHolds, pc := Entered);
    var s11 := s10.(pc := Idling);
    var s12 := s11.(idle := true, finished := [], pc := Parking);
    states, steps := Extend(states, steps, Work, s10);
    states, steps := Extend(states, steps, Work, s11);
    states, steps := Extend(states, steps, Work, s12);
    states, steps := Extend(states, steps, Work, s12.(holder := Free, pc := Parked));
    assert forall c: nat :: ClientAt(states[13], c) == ClientAt(s9, c);
  }

  lemma {:induction false} ConnectOverwrites(s0: State) returns (states: seq<State>, steps: seq<Step>)
    requires Init(s0)
    ensures IsRun(states, steps) && |steps| == 9 && |states| == 10 && states[0] == s0
    ensures Clearing(states[5], steps[5]) && forall j :: 0 <= j < 9 ==> !Answers(states[j], steps[j])
    ensures var s := states[9];
            && s.pc.Starting? && s.holder.Free? && s.idle && s.tasks == [s0.lastId + 1] && s.sent == []
            && forall c: nat :: ClientAt(s, c).Ready?
  {
    hide IsRun;
    StartOf(s0);
    var s1 := AppendTask(s0);
    var s2 := Move(s1.(holder := ClientHolds(2)), 2, ConnectEntered);
    var s3 := Move(s2, 2, ConnectSet);
    var s4 := Move(s3, 1, StartSet(false));
    var s5 := Move(s4.(idle := false), 2, Connecting);
    var s6 := Move(s5.(idle := false), 1, StartNotify(false));
    var s7 := Move(s6, 1, Ready);
    var s8 := Move(s7, 2, ConnectDone);
    var s9 := Move(s8.(idle := true, holder := Free), 2, Ready);
    states, steps := Extend([s0], [], AppendCall(1), s1);
    states, steps := Extend(states, steps, ConnectCall(2), s2);
    states, steps := Extend(states, steps, ClientGo(2), s3);
    states, steps := Extend(states, steps, StartCall(1, false, true), s4);
    states, steps := Extend(states, steps, ClientGo(2), s5);
    states, steps := Extend(states, steps, ClientGo(1), s6);
    states, steps := Extend(states, steps, ClientGo(1), s7);
    states, steps := Extend(states, steps, ClientGo(2), s8);
    states, steps := Extend(states, steps, ClientGo(2), s9);
  }
}
