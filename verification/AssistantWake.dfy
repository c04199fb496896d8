/**
 The flag while the worker sleeps in the wait without predicate. Over every run, with nobody
 about to notify the worker or to set the flag, the flag is left cleared exactly when it was
 last cleared without the lock just as the worker was about to wait.
 */
module AssistantWake {
  import opened Options
  import opened AssistantSystem
  import opened AssistantQueue

  /** A client that has cleared the flag inside the mutex and not finished: a start about to
      notify, or a connect that will set the flag again. */
  predicate MidSection(pc: ClientPc) {
    pc == StartNotify(true) || pc.Connecting? || pc.ConnectStopping? || pc.ConnectDone?
  }

  /** Nobody is about to notify the worker or to set the flag. */
  ghost predicate Quiet(s: State) {
    forall c: nat ::
      && !(s.holder == ClientHolds(c) && MidSection(ClientAt(s, c)))
      && ClientAt(s, c) != StartNotify(false)
  }

  // ---------------------------------------------------------------- who wrote the flag last

  /** The last write of the flag: set, cleared inside the mutex, or cleared by a start
      without it, and then whether the worker was about to wait. */
  datatype Write = FlagSet | FlagCleared | FlagClearedLoose(parking: bool)

  function WriteOf(s: State, step: Step, last: Write): Write {
    match step
    case Work => if s.pc.Idling? then FlagSet else last
    case TaskStops => FlagSet
    case StopCall(_, _) => FlagSet
    case ConnectStops(_) => FlagSet
    case ClientGo(c) =>
      (match ClientAt(s, c)
       case StartSet(locking) => if locking then FlagCleared else FlagClearedLoose(s.pc.Parking?)
       case ConnectSet => FlagCleared
       case ConnectDone => FlagSet
       case _ => last)
    case _ => last
  }

  /** The flag is set at first. */
  function LastWrite(states: seq<State>, steps: seq<Step>): Write
    requires |states| == |steps| + 1
    decreases |steps|
  {
    if steps == [] then FlagSet
    else
      var n := |steps| - 1;
      WriteOf(states[n], steps[n], LastWrite(states[..n + 1], steps[..n]))
  }

  // ---------------------------------------------------------------- what every step keeps

  /** Whoever cleared the flag while the worker waits is still about to notify it or to set
      the flag; clearing it just before the wait takes a start without the lock. */
  ghost predicate WakeInv(s: State, w: Write) {
    && (s.idle <==> w.FlagSet?)
    && (s.pc.Parking? ==> w.FlagSet? || w == FlagClearedLoose(true))
    && (s.pc.Parked? ==>
          match w
          case FlagSet => true
          case FlagCleared => exists c: nat :: s.holder == ClientHolds(c) && MidSection(ClientAt(s, c))
          case FlagClearedLoose(parking) => parking || exists c: nat :: ClientAt(s, c) == StartNotify(false))
  }

  lemma {:induction false} WakeWorker(s: State, w: Write, t: State)
    requires WakeInv(s, w) && LockInv(s) && WorkerStep(s) == Some(t)
    ensures WakeInv(t, WriteOf(s, Work, w))
  {
  }

  /** No call ends the critical section of another client, or its start. */
  lemma {:induction false} WakeCall(s: State, step: Step, t: State)
    requires Apply(s, step) == Some(t) && !step.Work? && !step.ClientGo?
    ensures forall c: nat :: s.holder == ClientHolds(c) && MidSection(ClientAt(s, c)) ==>
              t.holder == ClientHolds(c) && MidSection(ClientAt(t, c))
    ensures forall c: nat :: ClientAt(s, c) == StartNotify(false) ==> ClientAt(t, c) == StartNotify(false)
  {
    hide WorkerStep, ClientStep;
  }

  lemma {:induction false} WakeClient(s: State, c: nat, w: Write, t: State)
    requires WakeInv(s, w) && LockInv(s) && ClientStep(s, c) == Some(t)
    ensures WakeInv(t, WriteOf(s, ClientGo(c), w))
  {
    hide ClientStep;
    assert ClientLocks(ClientAt(s, c)) <==> s.holder == ClientHolds(c);
    WakeMoves(s, c, w, t);
    forall d: nat ensures ClientAt(t, d) == if d == c then ClientAt(t, c) else ClientAt(s, d) {
    }
  }

  /** What a client's step does to the flag, to a waiting worker and to its own section. */
  lemma {:induction false} WakeMoves(s: State, c: nat, w: Write, t: State)
    requires ClientStep(s, c) == Some(t)
    requires ClientLocks(ClientAt(s, c)) <==> s.holder == ClientHolds(c)
    requires s.idle <==> w.FlagSet?
    ensures var v := WriteOf(s, ClientGo(c), w);
            && t.clients == s.clients[c := ClientAt(t, c)] && (t.idle <==> v.FlagSet?)
            && (t.pc == s.pc || (!t.pc.Parked? && !t.pc.Parking?))
            && (t.holder == s.holder || s.holder.Free? || s.holder == ClientHolds(c))
            && (t.pc == s.pc && s.pc.Parked? && v != w && !v.FlagSet? ==>
                  if v.FlagCleared? then t.holder == ClientHolds(c) && MidSection(ClientAt(t, c))
                  else ClientAt(t, c) == StartNotify(false))
            && (t.pc == s.pc && s.pc.Parked? && v == w && !v.FlagSet? ==>
                  && (s.holder == ClientHolds(c) && MidSection(ClientAt(s, c)) ==>
                        t.holder == ClientHolds(c) && MidSection(ClientAt(t, c)))
                  && (ClientAt(s, c) == StartNotify(false) ==> ClientAt(t, c) == StartNotify(false)))
  {
    hide ClearTasks;
    ClearFrame(s);
  }

  lemma {:induction false} WakeStep(s: State, step: Step, w: Write, t: State)
    requires WakeInv(s, w) && LockInv(s) && Apply(s, step) == Some(t)
    ensures WakeInv(t, WriteOf(s, step, w))
  {
    hide WorkerStep, ClientStep;
    if !step.Work? && !step.ClientGo? {
      WakeCall(s, step, t);
    }
    match step
    case Work => WakeWorker(s, w, t);
    case ClientGo(c) => WakeClient(s, c, w, t);
    case _ =>
  }

  lemma {:induction false} RunWakes(states: seq<State>, steps: seq<Step>)
    requires IsRun(states, steps)
    ensures WakeInv(states[|steps|], LastWrite(states, steps)) && LockInv(states[|steps|])
    decreases |steps|
  {
    if steps != [] {
      RunPrefix(states, steps);
      var n := |steps| - 1;
      RunWakes(states[..n + 1], steps[..n]);
      LockStep(states[n], steps[n], states[n + 1]);
      WakeStep(states[n], steps[n], LastWrite(states[..n + 1], steps[..n]), states[n + 1]);
    }
  }

  // ---------------------------------------------------------------- over every run

  /** In every run, while the worker waits without predicate and nobody is about to notify
      it or to set the flag, the flag is left cleared exactly if it was last written by a
      start without the lock as the worker was about to wait. No clear inside the mutex,
      whatever other starts there are, is ever the last write. */
  lemma {:induction false} FlagLeftClearedExactly(states: seq<State>, steps: seq<Step>)
    requires IsRun(states, steps)
    requires states[|steps|].pc.Parked? && Quiet(states[|steps|])
    ensures !states[|steps|].idle <==> LastWrite(states, steps) == FlagClearedLoose(true)
    ensures LastWrite(states, steps) != FlagCleared
  {
    RunWakes(states, steps);
  }

  predicate NonLocking(pc: ClientPc) {
    pc == StartSet(false) || pc == StartNotify(false)
  }

  predicate LockingStep(step: Step) {
    step.StartCall? ==> step.locking
  }

  ghost predicate AllLocking(s: State) {
    forall c: nat :: !NonLocking(ClientAt(s, c))
  }

  lemma {:induction false} LockingClient(s: State, c: nat, t: State)
    requires ClientStep(s, c) == Some(t) && !NonLocking(ClientAt(s, c))
    ensures t.clients == s.clients[c := ClientAt(t, c)] && !NonLocking(ClientAt(t, c))
  {
    hide ClearTasks;
    ClearFrame(s);
  }

  lemma {:induction false} LockingKept(s: State, step: Step, t: State)
    requires Apply(s, step) == Some(t) && LockingStep(step) && AllLocking(s)
    ensures AllLocking(t)
  {
    hide ClientStep, WorkerStep;
    if step.Work? {
      ClientsSame(s, t);
    }
    if step.ClientGo? {
      assert !NonLocking(ClientAt(s, step.c));
      LockingClient(s, step.c, t);
    }
    forall c: nat ensures !NonLocking(ClientAt(t, c)) {
      assert !NonLocking(ClientAt(s, c));
    }
  }

  lemma {:induction false} ClientsSame(s: State, t: State)
    requires WorkerStep(s) == Some(t)
    ensures t.clients == s.clients
  {
  }

  lemma {:induction false} LockingWrites(states: seq<State>, steps: seq<Step>)
    requires IsRun(states, steps) && forall i :: 0 <= i < |steps| ==> LockingStep(steps[i])
    ensures !LastWrite(states, steps).FlagClearedLoose? && AllLocking(states[|steps|])
    decreases |steps|
  {
    hide Apply;
    if steps != [] {
      RunPrefix(states, steps);
      var n := |steps| - 1;
      LockingWrites(states[..n + 1], steps[..n]);
      LockingKept(states[n], steps[n], states[n + 1]);
      assert steps[n].ClientGo? ==> !NonLocking(ClientAt(states[n], steps[n].c));
    }
  }

  /** So where all starts lock the next one is accepted: while the worker waits without
      predicate and no client is inside its section, the flag is set. */
  lemma {:induction false} NoLostStart(states: seq<State>, steps: seq<Step>)
    requires IsRun(states, steps) && forall i :: 0 <= i < |steps| ==> LockingStep(steps[i])
    requires states[|steps|].pc.Parked?
    requires forall c: nat :: !MidSection(ClientAt(states[|steps|], c))
    ensures states[|steps|].idle
  {
    LockingWrites(states, steps);
    var s := states[|steps|];
    forall c: nat ensures ClientAt(s, c) != StartNotify(false) {
      assert !NonLocking(ClientAt(s, c));
    }
    FlagLeftClearedExactly(states, steps);
  }

  /** With `start(false)` the flag can stay cleared: the start falls between the worker's
      setting the flag and its wait, and its notification reaches nobody. */
  lemma {:induction false} NonLockingStartLost(s0: State)
    requires Init(s0)
    ensures exists states: seq<State>, steps: seq<Step> ::
              && IsRun(states, steps) && states[0] == s0
              && states[|steps|].pc.Parked? && !states[|steps|].idle
              && forall c: nat :: ClientAt(states[|steps|], c).Ready?
  {
    hide IsRun;
    StartOf(s0);
    var s1 := s0.(holder := WorkerHolds, pc := Entered);
    var s2 := s1.(pc := Idling);
    var s3 := s2.(idle := true, finished := [], pc := Parking);
    var s4 := Move(s3, 1, StartSet(false));
    var s5 := Move(s4.(idle := false), 1, StartNotify(false));
    var s6 := Move(s5, 1, Ready);
    var s7 := s6.(holder := Free, pc := Parked);
    var states, steps := Extend([s0], [], Work, s1);
    states, steps := Extend(states, steps, Work, s2);
    states, steps := Extend(states, steps, Work, s3);
    states, steps := Extend(states, steps, StartCall(1, false, true), s4);
    states, steps := Extend(states, steps, ClientGo(1), s5);
    states, steps := Extend(states, steps, ClientGo(1), s6);
    states, steps := Extend(states, steps, Work, s7);
  }
}
