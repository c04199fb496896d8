/**
 What happens to appended tasks, over every run: none is lost silently, none starts
 twice, tasks start in the order appended, and a queued task is dropped without being
 run exactly when it was appended after a `stop` that hit a running task.
 */
module AssistantQueue {
  import opened Options
  import opened AssistantSystem

  // ---------------------------------------------------------------- the mutex

  predicate WorkerLocks(pc: WorkerPc) {
    pc.Entered? || pc.Checking? || pc.DelayTest? || pc.Delayed? || pc.Idling? || pc.Parking?
  }

  predicate ClientLocks(pc: ClientPc) {
    match pc
    case StartSet(locking) => locking
    case StartNotify(locking) => locking
    case ConnectEntered | ConnectSet | Connecting | ConnectStopping | ConnectDone => true
    case _ => false
  }

  /** Mutual exclusion: whoever is inside a critical section is the one holder. */
  ghost predicate LockInv(s: State) {
    && (WorkerLocks(s.pc) <==> s.holder == WorkerHolds)
    && (forall c: nat :: ClientLocks(ClientAt(s, c)) <==> s.holder == ClientHolds(c))
  }

  lemma {:induction false} LockWorker(s: State, t: State)
    requires LockInv(s) && WorkerStep(s) == Some(t)
    ensures LockInv(t)
  {
    assert t.clients == s.clients;
    forall c: nat ensures ClientLocks(ClientAt(t, c)) <==> t.holder == ClientHolds(c) {
      assert ClientLocks(ClientAt(s, c)) <==> s.holder == ClientHolds(c);
    }
  }

  lemma {:induction false} ClearFrame(s: State)
    ensures var t := ClearTasks(s);
            && t.pc == s.pc && t.holder == s.holder && t.clients == s.clients && t.idle == s.idle
            && t.sent == s.sent && t.finished == s.finished
  {
  }

  /** About to clear the task list. */
  predicate Clears(pc: ClientPc) {
    pc.StopLock? || pc.StopClear? || pc.ConnectStopping?
  }

  /** Client c has moved and no other, and the mutex was taken or freed for c only. */
  ghost predicate Moved(s: State, c: nat, t: State) {
    && t.clients == s.clients[c := ClientAt(t, c)] && (WorkerLocks(t.pc) <==> WorkerLocks(s.pc))
    && (ClientLocks(ClientAt(t, c)) <==> t.holder == ClientHolds(c))
    && (s.holder == t.holder || (s.holder.Free? && t.holder == ClientHolds(c))
        || (s.holder == ClientHolds(c) && t.holder.Free?))
  }

  predicate InConnect(pc: ClientPc) {
    pc.ConnectEntered? || pc.ConnectSet? || pc.Connecting? || pc.ConnectStopping? || pc.ConnectDone?
  }

  lemma {:induction false} ConnectMoves(s: State, c: nat, t: State)
    requires ClientStep(s, c) == Some(t) && InConnect(ClientAt(s, c))
    requires ClientLocks(ClientAt(s, c)) <==> s.holder == ClientHolds(c)
    ensures Moved(s, c, t)
  {
    hide ClearTasks;
    ClearFrame(s);
  }

  lemma {:induction false} StartMoves(s: State, c: nat, t: State)
    requires ClientStep(s, c) == Some(t) && !InConnect(ClientAt(s, c))
    requires ClientLocks(ClientAt(s, c)) <==> s.holder == ClientHolds(c)
    ensures Moved(s, c, t)
  {
    hide ClearTasks;
    ClearFrame(s);
  }

  lemma {:induction false} ClientMoves(s: State, c: nat, t: State)
    requires ClientStep(s, c) == Some(t)
    requires ClientLocks(ClientAt(s, c)) <==> s.holder == ClientHolds(c)
    ensures Moved(s, c, t)
  {
    hide ClientStep, InConnect, Moved, ClientLocks;
    if InConnect(ClientAt(s, c)) {
      ConnectMoves(s, c, t);
    } else {
      StartMoves(s, c, t);
    }
  }

  lemma {:induction false} LockClient(s: State, c: nat, t: State)
    requires LockInv(s) && ClientStep(s, c) == Some(t)
    ensures LockInv(t)
  {
    hide ClientStep;
    assert ClientLocks(ClientAt(s, c)) <==> s.holder == ClientHolds(c);
    ClientMoves(s, c, t);
    forall d: nat ensures ClientLocks(ClientAt(t, d)) <==> t.holder == ClientHolds(d) {
      assert ClientLocks(ClientAt(s, d)) <==> s.holder == ClientHolds(d);
      assert d != c ==> ClientAt(t, d) == ClientAt(s, d);
    }
  }

  lemma {:induction false} LockStep(s: State, step: Step, t: State)
    requires LockInv(s) && Apply(s, step) == Some(t)
    ensures LockInv(t)
  {
    hide WorkerStep, ClientStep;
    match step
    case Work => LockWorker(s, t);
    case ClientGo(c) => LockClient(s, c, t);
    case _ =>
      forall c: nat ensures ClientLocks(ClientAt(t, c)) <==> t.holder == ClientHolds(c) {
        assert ClientLocks(ClientAt(s, c)) <==> s.holder == ClientHolds(c);
      }
  }

  /** In every state of every run at most one thread is inside a critical section. */
  lemma {:induction false} RunLocks(states: seq<State>, steps: seq<Step>)
    requires IsRun(states, steps)
    ensures LockInv(states[|steps|])
    decreases |steps|
  {
    if steps != [] {
      RunPrefix(states, steps);
      var n := |steps| - 1;
      RunLocks(states[..n + 1], steps[..n]);
      LockStep(states[n], steps[n], states[n + 1]);
    }
  }

  // ---------------------------------------------------------------- the queue

  predicate Increasing(ids: seq<nat>) {
    forall i, j :: 0 <= i < j < |ids| ==> ids[i] < ids[j]
  }

  function Ids(gone: seq<(nat, Fate)>): seq<nat> {
    seq(|gone|, i requires 0 <= i < |gone| => gone[i].0)
  }

  /** The ids with the given fate, in order. */
  function With(fate: Fate, gone: seq<(nat, Fate)>): seq<nat> {
    if gone == [] then []
    else With(fate, gone[..|gone| - 1]) + (if gone[|gone| - 1].1 == fate then [gone[|gone| - 1].0] else [])
  }

  /** A clear has happened since the last fetch, with no pop in between. */
  predicate ClearedSinceFetch(log: seq<Event>) {
    log != [] &&
    match log[|log| - 1]
    case Clear => true
    case Append(_) => ClearedSinceFetch(log[..|log| - 1])
    case Fetch(_) => false
    case Pop(_) => false
  }

  /** The ids appended since the last clear, fetch or pop. */
  function AppendedLately(log: seq<Event>): seq<nat> {
    if log != [] && log[|log| - 1].Append? then AppendedLately(log[..|log| - 1]) + [log[|log| - 1].id] else []
  }

  /** A pop drops a task exactly when, since the fetch, the list was cleared and then
      appended to. */
  ghost predicate PopsExact(log: seq<Event>) {
    forall k :: 0 <= k < |log| && log[k].Pop? ==>
      (log[k].dropped.Some? <==> ClearedSinceFetch(log[..k]) && AppendedLately(log[..k]) != [])
  }

  /** How the list relates to the task being run. */
  ghost predicate WindowInv(s: State) {
    Current(s.pc).Some? ==>
      if ClearedSinceFetch(s.log) then s.tasks == AppendedLately(s.log) && Current(s.pc).value !in s.tasks
      else s.tasks != [] && s.tasks[0] == Current(s.pc).value
  }

  ghost predicate QueueInv(s: State) {
    && Increasing(s.appended)
    && (s.appended != [] ==> s.appended[|s.appended| - 1] == s.lastId)
    && Ids(s.gone) + Waiting(s) == s.appended
    && (Current(s.pc).Some? ==> Current(s.pc).value <= s.lastId)
    && WindowInv(s)
    && PopsExact(s.log)
    && With(Dropped, s.gone) == DroppedIn(s.log)
  }

  /** The ids dropped by pops, in order. */
  function DroppedIn(log: seq<Event>): seq<nat> {
    if log == [] then []
    else
      var e := log[|log| - 1];
      DroppedIn(log[..|log| - 1]) + (if e.Pop? && e.dropped.Some? then [e.dropped.value] else [])
  }

  /** The two states agree on everything the queue invariant speaks of. */
  predicate SameQueue(s: State, t: State) {
    && s.tasks == t.tasks && s.lastId == t.lastId && s.appended == t.appended
    && s.gone == t.gone && s.log == t.log && Current(s.pc) == Current(t.pc)
  }

  lemma {:induction false} SameQueueInv(s: State, t: State)
    requires QueueInv(s) && SameQueue(s, t)
    ensures QueueInv(t)
  {
  }

  lemma {:induction false} LogAppend(log: seq<Event>, e: Event)
    requires PopsExact(log)
    requires e.Pop? ==> (e.dropped.Some? <==> ClearedSinceFetch(log) && AppendedLately(log) != [])
    ensures PopsExact(log + [e])
    ensures DroppedIn(log + [e]) == DroppedIn(log) + (if e.Pop? && e.dropped.Some? then [e.dropped.value] else [])
  {
    var l := log + [e];
    assert l[..|log|] == log;
    forall k | 0 <= k < |l| && l[k].Pop?
      ensures l[k].dropped.Some? <==> ClearedSinceFetch(l[..k]) && AppendedLately(l[..k]) != []
    {
      assert l[..k] == log[..k];
    }
  }

  lemma {:induction false} GoneAppend(gone: seq<(nat, Fate)>, id: nat, fate: Fate)
    ensures Ids(gone + [(id, fate)]) == Ids(gone) + [id]
    ensures forall f :: With(f, gone + [(id, fate)]) == With(f, gone) + (if f == fate then [id] else [])
  {
    assert (gone + [(id, fate)])[..|gone|] == gone;
  }

  lemma {:induction false} GoneTag(gone: seq<(nat, Fate)>, ids: seq<nat>, fate: Fate)
    ensures Ids(gone + Tag(ids, fate)) == Ids(gone) + ids
    ensures forall f :: f != fate ==> With(f, gone + Tag(ids, fate)) == With(f, gone)
    decreases |ids|
  {
    if ids == [] {
      assert gone + Tag(ids, fate) == gone;
    } else {
      var n := |ids| - 1;
      assert Tag(ids, fate) == Tag(ids[..n], fate) + [(ids[n], fate)];
      assert gone + Tag(ids, fate) == gone + Tag(ids[..n], fate) + [(ids[n], fate)];
      GoneTag(gone, ids[..n], fate);
      GoneAppend(gone + Tag(ids[..n], fate), ids[n], fate);
      assert ids == ids[..n] + [ids[n]];
    }
  }

  lemma {:induction false} AppendKeeps(s: State)
    requires QueueInv(s)
    ensures QueueInv(AppendTask(s))
  {
    hide Ids, With, DroppedIn, PopsExact, Increasing, WindowInv;
    var t := AppendTask(s);
    var id := s.lastId + 1;
    LogAppend(s.log, Append(id));
    WindowAppend(s);
    assert Waiting(t) == Waiting(s) + [id];
    AppendLast(Ids(s.gone), Waiting(s), id);
    LastIsGreatest(s);
    IncreasingAppend(s.appended, id);
  }

  lemma {:induction false} WindowAppend(s: State)
    requires WindowInv(s) && (Current(s.pc).Some? ==> Current(s.pc).value <= s.lastId)
    ensures WindowInv(AppendTask(s))
  {
    var t := AppendTask(s);
    assert t.log[..|s.log|] == s.log;
  }

  lemma {:induction false} AppendLast(a: seq<nat>, b: seq<nat>, id: nat)
    ensures a + (b + [id]) == (a + b) + [id]
  {
  }

  lemma {:induction false} LastIsGreatest(s: State)
    requires Increasing(s.appended) && (s.appended != [] ==> s.appended[|s.appended| - 1] == s.lastId)
    ensures forall x :: x in s.appended ==> x < s.lastId + 1
  {
    forall x | x in s.appended ensures x < s.lastId + 1 {
      var i :| 0 <= i < |s.appended| && s.appended[i] == x;
      assert s.appended[i] <= s.appended[|s.appended| - 1];
    }
  }

  lemma {:induction false} ClearKeeps(s: State)
    requires QueueInv(s)
    ensures QueueInv(ClearTasks(s))
  {
    GoneTag(s.gone, Waiting(s), Cleared);
    LogAppend(s.log, Clear);
    var t := ClearTasks(s);
    assert Waiting(t) == [] && AppendedLately(t.log) == [];
  }

  lemma {:induction false} FetchKeeps(s: State)
    requires QueueInv(s) && Current(s.pc).None? && s.tasks != []
    ensures QueueInv(FetchTask(s))
  {
    hide Ids, With, DroppedIn, PopsExact, Increasing, ClearedSinceFetch, AppendedLately;
    var t := FetchTask(s);
    var id := s.tasks[0];
    GoneAppend(s.gone, id, Started);
    LogAppend(s.log, Fetch(id));
    FetchedNow(s.log, id);
    MoveHead(Ids(s.gone), s.tasks);
    assert Waiting(s) == s.tasks && Waiting(t) == s.tasks[1..];
    HeadAppended(s);
  }

  lemma {:induction false} FetchedNow(log: seq<Event>, id: nat)
    ensures !ClearedSinceFetch(log + [Fetch(id)])
  {
  }

  /** The head of the list is no later than the last id given out. */
  lemma {:induction false} HeadAppended(s: State)
    requires s.tasks != [] && Ids(s.gone) + s.tasks == s.appended && Increasing(s.appended)
    requires s.appended[|s.appended| - 1] == s.lastId
    ensures s.tasks[0] <= s.lastId
  {
    hide Ids;
    assert s.appended[|Ids(s.gone)|] == s.tasks[0];
  }

  /** Popping the task that ran, or an empty list, drops nothing. */
  lemma {:induction false} PopOwnKeeps(s: State, id: nat, ret: bool)
    requires QueueInv(s) && s.pc == Returned(id, ret) && (s.tasks == [] || s.tasks[0] == id)
    ensures QueueInv(PopTask(s, id).(pc := Popped(id, ret)))
  {
    hide PopsExact, Increasing, Ids, With, DroppedIn, AppendedLately;
    LogAppend(s.log, Pop(None));
  }

  lemma {:induction false} MoveHead(ids: seq<nat>, tasks: seq<nat>)
    requires tasks != []
    ensures ids + tasks == (ids + [tasks[0]]) + tasks[1..]
  {
  }

  /** Popping another task's entry drops it. */
  lemma {:induction false} PopOtherKeeps(s: State, id: nat, ret: bool)
    requires QueueInv(s) && s.pc == Returned(id, ret) && s.tasks != [] && s.tasks[0] != id
    ensures QueueInv(PopTask(s, id).(pc := Popped(id, ret)))
  {
    hide PopsExact, Increasing, Ids, With, DroppedIn, AppendedLately;
    var t := PopTask(s, id).(pc := Popped(id, ret));
    var head := s.tasks[0];
    LogAppend(s.log, Pop(Some(head)));
    GoneAppend(s.gone, head, Dropped);
    MoveHead(Ids(s.gone), s.tasks);
  }

  lemma {:induction false} QueueWorker(s: State, t: State)
    requires QueueInv(s) && WorkerStep(s) == Some(t)
    ensures QueueInv(t)
  {
    hide QueueInv, ClearTasks, PopTask, FetchTask;
    match s.pc
    case Stopping(id) =>
      ClearKeeps(s);
      ClearFrame(s);
      SameQueueInv(ClearTasks(s), t);
    case Returned(id, ret) =>
      if s.tasks == [] || s.tasks[0] == id { PopOwnKeeps(s, id, ret); } else { PopOtherKeeps(s, id, ret); }
    case Checking =>
      if s.tasks == [] { SameQueueInv(s, t); } else { FetchKeeps(s); }
    case _ => SameQueueInv(s, t);
  }

  lemma {:induction false} QueueClient(s: State, c: nat, t: State)
    requires QueueInv(s) && ClientStep(s, c) == Some(t)
    ensures QueueInv(t)
  {
    hide QueueInv, ClearTasks;
    if Clears(ClientAt(s, c)) {
      ClearKeeps(s);
      SameQueueInv(ClearTasks(s), t);
    } else {
      SameQueueInv(s, t);
    }
  }

  lemma {:induction false} QueueStep(s: State, step: Step, t: State)
    requires QueueInv(s) && Apply(s, step) == Some(t)
    ensures QueueInv(t)
  {
    hide QueueInv, WorkerStep, ClientStep, AppendTask;
    match step
    case Work => QueueWorker(s, t);
    case ClientGo(c) => QueueClient(s, c, t);
    case AppendCall(_) => AppendKeeps(s);
    case _ => SameQueueInv(s, t);
  }

  lemma {:induction false} RunQueue(states: seq<State>, steps: seq<Step>)
    requires IsRun(states, steps)
    ensures QueueInv(states[|steps|])
    decreases |steps|
  {
    if steps != [] {
      RunPrefix(states, steps);
      var n := |steps| - 1;
      RunQueue(states[..n + 1], steps[..n]);
      QueueStep(states[n], steps[n], states[n + 1]);
    }
  }

  // ---------------------------------------------------------------- over every run

  lemma {:induction false} IncreasingAppend(ids: seq<nat>, id: nat)
    requires Increasing(ids) && forall x :: x in ids ==> x < id
    ensures Increasing(ids + [id])
  {
    forall i | 0 <= i < |ids| ensures ids[i] < id {
      assert ids[i] in ids;
    }
  }

  lemma {:induction false} IncreasingLast(ids: seq<nat>, id: nat)
    requires Increasing(ids + [id])
    ensures Increasing(ids) && forall x :: x in ids ==> x < id
  {
    var all := ids + [id];
    assert forall i :: 0 <= i < |ids| ==> all[i] == ids[i];
    forall x | x in ids ensures x < id {
      var i :| 0 <= i < |ids| && ids[i] == x;
      assert all[i] < all[|ids|];
    }
  }

  lemma {:induction false} WithSubsequence(fate: Fate, gone: seq<(nat, Fate)>)
    requires Increasing(Ids(gone))
    ensures Increasing(With(fate, gone))
    ensures forall x :: x in With(fate, gone) ==> x in Ids(gone)
    decreases |gone|
  {
    hide Increasing;
    if gone == [] {
      IncreasingNone();
    } else {
      var n := |gone| - 1;
      assert Ids(gone) == Ids(gone[..n]) + [gone[n].0];
      IncreasingLast(Ids(gone[..n]), gone[n].0);
      WithSubsequence(fate, gone[..n]);
      if gone[n].1 == fate {
        IncreasingAppend(With(fate, gone[..n]), gone[n].0);
      } else {
        assert With(fate, gone) == With(fate, gone[..n]);
      }
    }
  }

  lemma {:induction false} IncreasingNone()
    ensures Increasing([])
  {
  }

  /** In every run, tasks start in strictly increasing order of their ids, so none starts
      twice; and the task being run is the head of the list or not in the list at all. */
  lemma {:induction false} StartsIncrease(states: seq<State>, steps: seq<Step>)
    requires IsRun(states, steps)
    ensures var s := states[|steps|];
            && Increasing(With(Started, s.gone))
            && (Current(s.pc).Some? && s.tasks != [] ==>
                  s.tasks[0] == Current(s.pc).value || Current(s.pc).value !in s.tasks)
  {
    RunQueue(states, steps);
    var s := states[|steps|];
    var ids := Ids(s.gone);
    assert forall i :: 0 <= i < |ids| ==> ids[i] == s.appended[i];
    WithSubsequence(Started, s.gone);
  }

  lemma {:induction false} AppendedStep(s: State, step: Step, t: State)
    requires Apply(s, step) == Some(t)
    ensures if step.AppendCall? then t.lastId == s.lastId + 1 && t.appended == s.appended + [t.lastId]
            else t.lastId == s.lastId && t.appended == s.appended
  {
    hide WorkerStep, ClientStep;
    match step
    case Work => AppendedWorker(s, t);
    case ClientGo(c) => AppendedClient(s, c, t);
    case _ =>
  }

  lemma {:induction false} AppendedWorker(s: State, t: State)
    requires WorkerStep(s) == Some(t)
    ensures t.lastId == s.lastId && t.appended == s.appended
  {
  }

  lemma {:induction false} AppendedClient(s: State, c: nat, t: State)
    requires ClientStep(s, c) == Some(t)
    ensures t.lastId == s.lastId && t.appended == s.appended
  {
  }

  /** In every run the ids given out count on from the counter's first value. */
  lemma {:induction false} IdsConsecutive(states: seq<State>, steps: seq<Step>)
    requires IsRun(states, steps)
    ensures var s := states[|steps|];
            && s.lastId == states[0].lastId + |s.appended|
            && forall i :: 0 <= i < |s.appended| ==> s.appended[i] == states[0].lastId + 1 + i
    decreases |steps|
  {
    hide Apply;
    if steps != [] {
      RunPrefix(states, steps);
      var n := |steps| - 1;
      IdsConsecutive(states[..n + 1], steps[..n]);
      AppendedStep(states[n], steps[n], states[n + 1]);
    }
  }

  /** In every run, the appended ids are, in order, those that were started, cleared by a
      stop or dropped, each exactly once, followed by those still waiting. */
  lemma {:induction false} TasksConserved(states: seq<State>, steps: seq<Step>)
    requires IsRun(states, steps)
    ensures var s := states[|steps|]; Ids(s.gone) + Waiting(s) == s.appended && Increasing(s.appended)
  {
    RunQueue(states, steps);
  }

  /** At some pop the list had been cleared since the fetch and appended to after that. */
  ghost predicate AppendsBetweenStopAndPop(log: seq<Event>) {
    exists k :: 0 <= k < |log| && log[k].Pop? && ClearedSinceFetch(log[..k]) && AppendedLately(log[..k]) != []
  }

  /** In every run, a task is dropped unrun exactly if an append fell between a stop that
      hit a running task and that task's pop; otherwise every appended task is started,
      cleared by a stop, or waiting. */
  lemma {:induction false} DropsExactly(states: seq<State>, steps: seq<Step>)
    requires IsRun(states, steps)
    ensures var s := states[|steps|]; With(Dropped, s.gone) != [] <==> AppendsBetweenStopAndPop(s.log)
  {
    RunQueue(states, steps);
    DroppedInExactly(states[|steps|].log);
  }

  /** Such a run: a task runs, a stop clears the list, a second task is appended, and when
      the first task returns the worker pops the second. */
  lemma {:induction false} DropHappens(s0: State)
    requires Init(s0)
    ensures exists states: seq<State>, steps: seq<Step> ::
              && IsRun(states, steps) && states[0] == s0
              && With(Dropped, states[|steps|].gone) == [s0.lastId + 2]
  {
    hide With, IsRun;
    var first, second := s0.lastId + 1, s0.lastId + 2;
    var states, steps := TaskRunning(s0);
    var s5 := Move(states[8].(idle := true), 1, StopLock);
    var s6 := Move(ClearTasks(s5), 1, Ready);
    var s7 := AppendTask(s6);
    var s8 := s7.(finished := s7.finished + [first], pc := Returned(first, true));
    var s9 := PopTask(s8, first).(pc := Popped(first, true));
    states, steps := Extend(states, steps, StopCall(1, true), s5);
    assert Waiting(s5) == [] && Tag([], Cleared) == [] && ClearTasks(s5).gone == s5.gone;
    states, steps := Extend(states, steps, ClientGo(1), s6);
    states, steps := Extend(states, steps, AppendCall(1), s7);
    states, steps := Extend(states, steps, TaskReturns(true), s8);
    states, steps := Extend(states, steps, Work, s9);
    assert s8.tasks == [second];
    DroppedOne(first, second);
  }

  lemma {:induction false} DroppedOne(first: nat, second: nat)
    ensures With(Dropped, [(first, Started)] + [(second, Dropped)]) == [second]
  {
    GoneAppend([(first, Started)], second, Dropped);
    GoneAppend([], first, Started);
    assert [] + [(first, Started)] == [(first, Started)];
  }

  /** A run to where a task is queued and a start has been accepted. */
  lemma {:induction false} TaskStarted(s0: State) returns (states: seq<State>, steps: seq<Step>)
    requires Init(s0)
    ensures IsRun(states, steps) && |steps| == 5 && |states| == 6 && states[0] == s0
    ensures var s := states[5];
            var id := s0.lastId + 1;
            && s.pc.Starting? && !s.idle && s.tasks == [id] && s.lastId == id && s.gone == []
            && s.holder.Free? && ClientAt(s, 1).Ready?
  {
    hide IsRun;
    var s1 := AppendTask(s0);
    var s2 := Move(s1, 1, StartLock);
    var s3 := Move(s2.(holder := ClientHolds(1)), 1, StartSet(true));
    var s4 := Move(s3.(idle := false), 1, StartNotify(true));
    var s5 := Move(s4.(holder := Free), 1, Ready);
    StartOf(s0);
    states, steps := Extend([s0], [], AppendCall(1), s1);
    states, steps := Extend(states, steps, StartCall(1, true, true), s2);
    states, steps := Extend(states, steps, ClientGo(1), s3);
    states, steps := Extend(states, steps, ClientGo(1), s4);
    states, steps := Extend(states, steps, ClientGo(1), s5);
  }

  /** A run to where the first task is running. */
  lemma {:induction false} TaskRunning(s0: State) returns (states: seq<State>, steps: seq<Step>)
    requires Init(s0)
    ensures IsRun(states, steps) && |steps| == 8 && |states| == 9 && states[0] == s0
    ensures var s := states[8];
            var id := s0.lastId + 1;
            && s.pc == Running(id) && s.tasks == [id] && s.lastId == id && s.gone == [(id, Started)]
            && s.holder.Free? && ClientAt(s, 1).Ready?
  {
    hide IsRun;
    states, steps := TaskStarted(s0);
    var s6 := states[5].(holder := WorkerHolds, pc := Entered);
    var s7 := s6.(pc := Checking);
    states, steps := Extend(states, steps, Work, s6);
    states, steps := Extend(states, steps, Work, s7);
    states, steps := Extend(states, steps, Work, FetchTask(s7));
  }

  lemma {:induction false} StartOf(s0: State)
    requires Init(s0)
    ensures IsRun([s0], [])
  {
  }

  /** A run goes on by one step. */
  lemma {:induction false} Extend(states: seq<State>, steps: seq<Step>, step: Step, t: State)
      returns (longer: seq<State>, more: seq<Step>)
    requires IsRun(states, steps) && Apply(states[|steps|], step) == Some(t)
    ensures longer == states + [t] && more == steps + [step] && IsRun(longer, more)
  {
    longer, more := states + [t], steps + [step];
    forall i | 0 <= i < |more| ensures Apply(longer[i], more[i]) == Some(longer[i + 1]) {
      if i < |steps| {
        assert longer[i] == states[i] && longer[i + 1] == states[i + 1] && more[i] == steps[i];
      }
    }
  }

  lemma {:induction false} DroppedInExactly(log: seq<Event>)
    ensures DroppedIn(log) != [] <==> exists k :: 0 <= k < |log| && log[k].Pop? && log[k].dropped.Some?
    decreases |log|
  {
    if log != [] {
      var n := |log| - 1;
      DroppedInExactly(log[..n]);
      if k :| 0 <= k < n && log[..n][k].Pop? && log[..n][k].dropped.Some? {
        assert log[k].dropped.Some?;
      }
      if k :| 0 <= k < |log| && log[k].Pop? && log[k].dropped.Some? {
        assert k < n ==> log[..n][k] == log[k];
      }
    }
  }
}
