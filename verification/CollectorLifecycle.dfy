/**
  Starting and stopping the garbage collection loop from any number of goroutines. Each
  Start and Stop is cut into the steps another goroutine can get between: taking the mutex,
  each assignment to gcCancel and gcDone, spawning the loop, cancelling, waiting for the
  channel. The loop reads gcDone without the mutex, when its deferred close is set up.
*/
module CollectorLifecycle {
  import opened Common

  /** Where a goroutine is inside StartGarbageCollection or StopGarbageCollection. */
  datatype Pc =
    | Out
    | StartWait     // for the mutex
    | StartCheck    // is a loop running already?
    | StartDone     // gcCancel is set, gcDone is not
    | StartSpawn
    | StartUnlock
    | StopWait
    | StopCheck
    | StopCancel
    | StopReceive   // blocked until the loop closes its channel
    | StopClearDone
    | StopClearCancel
    | StopUnlock

  /** A loop; its deferred close will close the channel that it found in gcDone. */
  datatype Loop =
    | Spawned
    | Listening(channel: Option<nat>)
    | Collecting(channel: Option<nat>)
    | Closing(channel: Option<nat>)
    | Ended

  /**
    The n-th Start that finds no loop makes context n and channel n and spawns loop n.
    closed counts how often each channel was closed.
  */
  datatype State = State(
    mutex: Option<nat>, gcCancel: Option<nat>, gcDone: Option<nat>,
    cancelled: set<nat>, closed: multiset<nat>, loops: seq<Loop>, pcs: map<nat, Pc>)

  datatype Op =
    | CallStart(thread: nat)
    | CallStop(thread: nat)
    | Step(thread: nat)
    | Defer(loop: nat)     // the loop sets up its deferred close
    | Tick(loop: nat)      // the ticker fires
    | Swept(loop: nat)     // a collection is over
    | Leave(loop: nat)     // the context is done
    | Close(loop: nat)     // the deferred close runs

  predicate Holding(pc: Pc) {
    !pc.Out? && !pc.StartWait? && !pc.StopWait?
  }

  predicate CanStep(s: State, t: nat)
    requires t in s.pcs
  {
    match s.pcs[t]
    case Out => false
    case StartWait | StopWait => s.mutex.None?
    case StopReceive => s.gcDone.Some? && s.gcDone.value in s.closed
    case _ => true
  }

  predicate Enabled(s: State, op: Op) {
    match op
    case CallStart(t) => t !in s.pcs || s.pcs[t].Out?
    case CallStop(t) => t !in s.pcs || s.pcs[t].Out?
    case Step(t) => t in s.pcs && CanStep(s, t)
    case Defer(n) => n < |s.loops| && s.loops[n].Spawned?
    case Tick(n) => n < |s.loops| && s.loops[n].Listening?
    case Swept(n) => n < |s.loops| && s.loops[n].Collecting?
    case Leave(n) => n < |s.loops| && s.loops[n].Listening? && n in s.cancelled
    case Close(n) => n < |s.loops| && s.loops[n].Closing?
  }

  function Goto(s: State, t: nat, pc: Pc): State {
    s.(pcs := s.pcs[t := pc])
  }

  function Unlock(s: State, t: nat): State {
    Goto(s, t, Out).(mutex := None)
  }

  function StepOf(s: State, t: nat): State
    requires t in s.pcs && CanStep(s, t)
  {
    match s.pcs[t]
    case Out => s
    case StartWait => Goto(s, t, StartCheck).(mutex := Some(t))
    case StartCheck =>
      if s.gcCancel.Some? then Unlock(s, t) else Goto(s, t, StartDone).(gcCancel := Some(|s.loops|))
    case StartDone => Goto(s, t, StartSpawn).(gcDone := Some(|s.loops|))
    case StartSpawn => Goto(s, t, StartUnlock).(loops := s.loops + [Spawned])
    case StartUnlock => Unlock(s, t)
    case StopWait => Goto(s, t, StopCheck).(mutex := Some(t))
    case StopCheck => if s.gcCancel.None? then Unlock(s, t) else Goto(s, t, StopCancel)
    case StopCancel =>
      Goto(s, t, StopReceive).(cancelled := s.cancelled + if s.gcCancel.Some? then {s.gcCancel.value} else {})
    case StopReceive => Goto(s, t, StopClearDone)
    case StopClearDone => Goto(s, t, StopClearCancel).(gcDone := None)
    case StopClearCancel => Goto(s, t, StopUnlock).(gcCancel := None)
    case StopUnlock => Unlock(s, t)
  }

  function Apply(s: State, op: Op): State
    requires Enabled(s, op)
  {
    match op
    case CallStart(t) => Goto(s, t, StartWait)
    case CallStop(t) => Goto(s, t, StopWait)
    case Step(t) => StepOf(s, t)
    case Defer(n) => s.(loops := s.loops[n := Listening(s.gcDone)])
    case Tick(n) => s.(loops := s.loops[n := Collecting(s.loops[n].channel)])
    case Swept(n) => s.(loops := s.loops[n := Listening(s.loops[n].channel)])
    case Leave(n) => s.(loops := s.loops[n := Closing(s.loops[n].channel)])
    case Close(n) =>
      var channel := s.loops[n].channel;
      s.(loops := s.loops[n := Ended],
         closed := s.closed + if channel.Some? then multiset{channel.value} else multiset{})
  }

  const START := State(None, None, None, {}, multiset{}, [], map[])

  ghost predicate IsRun(states: seq<State>, ops: seq<Op>) {
    && |states| == |ops| + 1
    && states[0] == START
    && forall i :: 0 <= i < |ops| ==> Enabled(states[i], ops[i]) && states[i + 1] == Apply(states[i], ops[i])
  }

  ghost predicate EndedBelow(s: State, n: nat)
    requires n <= |s.loops|
  {
    forall i :: 0 <= i < n ==> s.loops[i].Ended?
  }

  /** Either nothing runs and both fields are nil, or the last loop runs and both fields are its own. */
  ghost predicate Settled(s: State) {
    if s.gcCancel.None? then s.gcDone.None? && EndedBelow(s, |s.loops|)
    else Running(s) && |s.loops| - 1 !in s.cancelled && !s.loops[|s.loops| - 1].Ended?
  }

  ghost predicate Running(s: State) {
    var last := |s.loops| - 1;
    last >= 0 && s.gcCancel == s.gcDone == Some(last) && EndedBelow(s, last)
  }

  /** What the fields are while the goroutine that holds the mutex is at pc. */
  ghost predicate FieldsAt(s: State, pc: Pc) {
    match pc
    case StartDone => s.gcCancel == Some(|s.loops|) && s.gcDone.None? && EndedBelow(s, |s.loops|)
    case StartSpawn => s.gcCancel == s.gcDone == Some(|s.loops|) && EndedBelow(s, |s.loops|)
    case StartUnlock => Settled(s) && s.gcCancel.Some?
    case StopCancel => Settled(s) && s.gcCancel.Some?
    case StopReceive => Running(s) && |s.loops| - 1 in s.cancelled
    case StopClearDone => Running(s) && EndedBelow(s, |s.loops|)
    case StopClearCancel => s.gcCancel.Some? && s.gcDone.None? && EndedBelow(s, |s.loops|)
    case StopUnlock => Settled(s) && s.gcCancel.None?
    case _ => Settled(s)
  }

  ghost predicate LoopsClean(s: State) {
    && (forall n :: n in s.cancelled ==> n < |s.loops|)
    && (forall n :: n in s.closed ==> n < |s.loops|)
    && (forall n :: 0 <= n < |s.loops| ==> s.closed[n] == if s.loops[n].Ended? then 1 else 0)
    && (forall n :: 0 <= n < |s.loops| && !s.loops[n].Spawned? && !s.loops[n].Ended? ==> s.loops[n].channel == Some(n))
    && (forall n :: 0 <= n < |s.loops| && s.loops[n].Closing? ==> n in s.cancelled)
  }

  ghost predicate OneHolder(s: State) {
    && (s.mutex.Some? ==> s.mutex.value in s.pcs)
    && (forall t :: t in s.pcs ==> (Holding(s.pcs[t]) <==> s.mutex == Some(t)))
  }

  ghost predicate Inv(s: State) {
    && LoopsClean(s)
    && OneHolder(s)
    && FieldsAt(s, if s.mutex.Some? then s.pcs[s.mutex.value] else Out)
  }

  /** A loop that has not ended is the last one, and gcDone is its channel. */
  lemma AliveIsLast(s: State, n: nat)
    requires Inv(s) && n < |s.loops| && !s.loops[n].Ended?
    ensures n == |s.loops| - 1 && s.gcDone == Some(n)
  {}

  lemma ThreadStepKeepsHolder(s: State, t: nat)
    requires OneHolder(s) && t in s.pcs && CanStep(s, t)
    ensures OneHolder(StepOf(s, t))
  {}

  lemma ThreadStepKeepsLoops(s: State, t: nat)
    requires Inv(s) && t in s.pcs && CanStep(s, t)
    ensures LoopsClean(StepOf(s, t))
  {
    var u := StepOf(s, t);
    if s.pcs[t].StartSpawn? {
      SpawnKeepsLoops(s, t);
    } else if s.pcs[t].StopCancel? {
      assert s.gcCancel == Some(|s.loops| - 1);
    } else {
      assert u.loops == s.loops && u.closed == s.closed && u.cancelled == s.cancelled;
    }
  }

  lemma SpawnKeepsLoops(s: State, t: nat)
    requires LoopsClean(s) && t in s.pcs && s.pcs[t].StartSpawn?
    ensures LoopsClean(StepOf(s, t))
  {
    var u := StepOf(s, t);
    assert forall n :: 0 <= n < |s.loops| ==> u.loops[n] == s.loops[n];
    assert |s.loops| !in s.closed;
  }

  lemma ThreadStepKeepsFields(s: State, t: nat)
    requires Inv(s) && t in s.pcs && CanStep(s, t)
    ensures var u := StepOf(s, t); FieldsAt(u, if Holding(u.pcs[t]) then u.pcs[t] else Out)
  {
    match s.pcs[t]
    case StartSpawn => SpawnKeepsFields(s, t);
    case StartCheck => StartKeepsFields(s, t);
    case StartDone => StartKeepsFields(s, t);
    case StopReceive => StopKeepsFields(s, t);
    case StopCancel => StopKeepsFields(s, t);
    case StopClearDone => StopKeepsFields(s, t);
    case StopClearCancel => StopKeepsFields(s, t);
    case _ =>
  }

  lemma StartKeepsFields(s: State, t: nat)
    requires Inv(s) && t in s.pcs && CanStep(s, t) && (s.pcs[t].StartCheck? || s.pcs[t].StartDone?)
    ensures var u := StepOf(s, t); FieldsAt(u, if Holding(u.pcs[t]) then u.pcs[t] else Out)
  {
    assert StepOf(s, t).loops == s.loops;
  }

  lemma StopKeepsFields(s: State, t: nat)
    requires Inv(s) && t in s.pcs && CanStep(s, t)
    requires s.pcs[t].StopReceive? || s.pcs[t].StopCancel? || s.pcs[t].StopClearDone? || s.pcs[t].StopClearCancel?
    ensures var u := StepOf(s, t); FieldsAt(u, u.pcs[t])
  {
    assert StepOf(s, t).loops == s.loops;
    if s.pcs[t].StopReceive? {
      assert s.closed[s.gcDone.value] > 0;
    }
  }

  lemma SpawnKeepsFields(s: State, t: nat)
    requires LoopsClean(s) && t in s.pcs && s.pcs[t].StartSpawn? && FieldsAt(s, StartSpawn)
    ensures FieldsAt(StepOf(s, t), StartUnlock)
  {
    var u := StepOf(s, t);
    assert forall n :: 0 <= n < |s.loops| ==> u.loops[n] == s.loops[n];
    assert |s.loops| !in s.cancelled;
  }

  lemma ThreadStepKeepsInv(s: State, t: nat)
    requires Inv(s) && t in s.pcs && CanStep(s, t)
    ensures Inv(StepOf(s, t))
  {
    ThreadStepKeepsHolder(s, t);
    ThreadStepKeepsLoops(s, t);
    ThreadStepKeepsFields(s, t);
  }

  lemma LoopStepKeepsInv(s: State, op: Op)
    requires Inv(s) && Enabled(s, op)
    requires op.Defer? || op.Tick? || op.Swept? || op.Leave? || op.Close?
    ensures Inv(Apply(s, op))
  {
    AliveIsLast(s, op.loop);
    var u := Apply(s, op);
    assert forall n :: 0 <= n < |s.loops| && n != op.loop ==> u.loops[n] == s.loops[n];
  }

  lemma CallKeepsInv(s: State, t: nat, pc: Pc)
    requires Inv(s) && (t in s.pcs ==> s.pcs[t].Out?) && !Holding(pc)
    ensures Inv(Goto(s, t, pc))
  {
    var u := Goto(s, t, pc);
    assert u.loops == s.loops && u.closed == s.closed && u.cancelled == s.cancelled;
  }

  lemma StepKeepsInv(s: State, op: Op)
    requires Inv(s) && Enabled(s, op)
    ensures Inv(Apply(s, op))
  {
    match op
    case CallStart(t) => CallKeepsInv(s, t, StartWait);
    case CallStop(t) => CallKeepsInv(s, t, StopWait);
    case Step(t) => ThreadStepKeepsInv(s, t);
    case _ => LoopStepKeepsInv(s, op);
  }

  lemma {:induction false} RunInvariant(states: seq<State>, ops: seq<Op>, i: nat)
    requires IsRun(states, ops) && i < |states|
    ensures Inv(states[i])
  {
    if i > 0 {
      RunInvariant(states, ops, i - 1);
      StepKeepsInv(states[i - 1], ops[i - 1]);
    }
  }

  /** In every run at most one loop is alive at a time. */
  lemma AtMostOneLoop(states: seq<State>, ops: seq<Op>, i: nat, m: nat, n: nat)
    requires IsRun(states, ops) && i < |states|
    requires m < |states[i].loops| && n < |states[i].loops|
    requires !states[i].loops[m].Ended? && !states[i].loops[n].Ended?
    ensures m == n
  {
    RunInvariant(states, ops, i);
    AliveIsLast(states[i], m);
    AliveIsLast(states[i], n);
  }

  /** Whenever the mutex is free, gcCancel and gcDone are both set or both nil: set while a loop is alive. */
  lemma FieldsTogether(states: seq<State>, ops: seq<Op>, i: nat)
    requires IsRun(states, ops) && i < |states| && states[i].mutex.None?
    ensures states[i].gcCancel.Some? <==> states[i].gcDone.Some?
    ensures states[i].gcDone.Some? <==> exists n :: 0 <= n < |states[i].loops| && !states[i].loops[n].Ended?
  {
    RunInvariant(states, ops, i);
  }

  /** Each loop closes exactly the channel its own Start made, once, when it ends, and no other is ever closed. */
  lemma ClosesOwnChannelOnce(states: seq<State>, ops: seq<Op>, i: nat, n: nat)
    requires IsRun(states, ops) && i < |states|
    ensures states[i].closed[n] == if n < |states[i].loops| && states[i].loops[n].Ended? then 1 else 0
    ensures n < |states[i].loops| && states[i].loops[n].Closing? ==> states[i].loops[n].channel == Some(n)
  {
    RunInvariant(states, ops, i);
  }

  /**
    When a Stop returns, whether it found a loop or not, no loop is alive and both fields are nil.
    It returns from the check exactly if it finds gcCancel nil.
  */
  lemma StopReturnsAfterEnd(states: seq<State>, ops: seq<Op>, i: nat, t: nat)
    requires IsRun(states, ops) && i < |ops| && ops[i] == Step(t)
    requires states[i].pcs[t].StopCheck? || states[i].pcs[t].StopUnlock?
    ensures states[i + 1].pcs[t].Out? <==> states[i].pcs[t].StopUnlock? || states[i].gcCancel.None?
    ensures states[i + 1].pcs[t].Out? ==>
      var u := states[i + 1];
      && (forall n :: 0 <= n < |u.loops| ==> u.loops[n].Ended?)
      && u.gcCancel.None? && u.gcDone.None? && u.mutex.None?
  {
    RunInvariant(states, ops, i);
  }

  /** How far the loop is from having closed its channel. */
  function Distance(loop: Loop): nat {
    match loop
    case Spawned => 4
    case Collecting(_) => 3
    case Listening(_) => 2
    case Closing(_) => 1
    case Ended => 0
  }

  /** A step by which the last loop comes closer to closing its channel. */
  function NextOp(s: State): Op
    requires s.loops != []
  {
    var last := |s.loops| - 1;
    match s.loops[last]
    case Spawned => Defer(last)
    case Collecting(_) => Swept(last)
    case Listening(_) => Leave(last)
    case _ => Close(last)
  }

  /** A Stop blocked on the channel, and what the other goroutines can do to it. */
  lemma WaitingStop(s: State, t: nat)
    requires Inv(s) && t in s.pcs && s.pcs[t].StopReceive?
    ensures s.loops != [] && (s.loops[|s.loops| - 1].Ended? <==> Enabled(s, Step(t)))
    ensures !s.loops[|s.loops| - 1].Ended? ==> Enabled(s, NextOp(s))
  {}

  lemma OthersDoNotDelay(s: State, t: nat, op: Op)
    requires Inv(s) && t in s.pcs && s.pcs[t].StopReceive?
    requires Enabled(s, op) && op != Step(t) && !op.Tick?
    ensures |Apply(s, op).loops| == |s.loops| > 0
    ensures Distance(Apply(s, op).loops[|s.loops| - 1]) <= Distance(s.loops[|s.loops| - 1])
  {
    if !op.Step? && !op.CallStart? && !op.CallStop? {
      AliveIsLast(s, op.loop);
    }
  }

  /**
    A waiting Stop is never stuck. It can go on exactly when the loop has ended. Until then
    the loop has a step of its own that brings it closer to its end, and no step of anybody
    takes it further away, except the ticker's.
  */
  lemma StopIsNeverStuck(states: seq<State>, ops: seq<Op>, i: nat, t: nat)
    requires IsRun(states, ops) && i < |states|
    requires t in states[i].pcs && states[i].pcs[t].StopReceive?
    ensures var s := states[i];
      && s.loops != []
      && (Enabled(s, Step(t)) <==> Distance(s.loops[|s.loops| - 1]) == 0)
      && (!Enabled(s, Step(t)) ==>
            && Enabled(s, NextOp(s))
            && Distance(Apply(s, NextOp(s)).loops[|s.loops| - 1]) < Distance(s.loops[|s.loops| - 1]))
    ensures i < |ops| && ops[i] != Step(t) && !ops[i].Tick? ==>
      |states[i + 1].loops| == |states[i].loops| > 0
      && Distance(states[i + 1].loops[|states[i].loops| - 1]) <= Distance(states[i].loops[|states[i].loops| - 1])
  {
    RunInvariant(states, ops, i);
    WaitingStop(states[i], t);
    if i < |ops| && ops[i] != Step(t) && !ops[i].Tick? {
      OthersDoNotDelay(states[i], t, ops[i]);
    }
  }

  /**
    When a Start returns, whether it spawned a loop or found one, both fields are set, to the
    same Start's, and that Start's loop has not ended. It returns from the check exactly if it
    finds gcCancel set.
  */
  lemma StartReturnsRunning(states: seq<State>, ops: seq<Op>, i: nat, t: nat)
    requires IsRun(states, ops) && i < |ops| && ops[i] == Step(t)
    requires states[i].pcs[t].StartCheck? || states[i].pcs[t].StartUnlock?
    ensures states[i + 1].pcs[t].Out? <==> states[i].pcs[t].StartUnlock? || states[i].gcCancel.Some?
    ensures states[i + 1].pcs[t].Out? ==>
      var u := states[i + 1];
      && u.mutex.None? && u.gcCancel.Some? && u.gcDone == u.gcCancel
      && u.gcCancel.value < |u.loops| && !u.loops[u.gcCancel.value].Ended?
  {
    RunInvariant(states, ops, i);
  }

  /** What a Start that found no loop has done so far, n loops having been spawned before it. */
  ghost predicate Starting(s: State, t: nat, n: nat) {
    && t in s.pcs && s.mutex == Some(t)
    && match s.pcs[t]
       case StartCheck => |s.loops| == n && s.gcCancel.None?
       case StartDone => |s.loops| == n
       case StartSpawn => |s.loops| == n
       case StartUnlock => |s.loops| == n + 1 && s.gcCancel == Some(n)
       case _ => false
  }

  lemma StartsStarting(states: seq<State>, ops: seq<Op>, i: nat, t: nat)
    requires IsRun(states, ops) && i < |states|
    requires t in states[i].pcs && states[i].pcs[t].StartCheck? && states[i].gcCancel.None?
    ensures Starting(states[i], t, |states[i].loops|)
  {
    RunInvariant(states, ops, i);
  }

  ghost predicate InsideCall(s: State, t: nat) {
    t in s.pcs && !s.pcs[t].Out?
  }

  lemma StaysStarting(s: State, op: Op, t: nat, n: nat)
    requires Inv(s) && Enabled(s, op) && Starting(s, t, n) && InsideCall(Apply(s, op), t)
    ensures Starting(Apply(s, op), t, n)
  {}

  lemma StaysStartingInRun(states: seq<State>, ops: seq<Op>, i: nat, t: nat, n: nat)
    requires IsRun(states, ops) && i < |ops| && Starting(states[i], t, n) && InsideCall(states[i + 1], t)
    ensures Starting(states[i + 1], t, n)
  {
    RunInvariant(states, ops, i);
    StaysStarting(states[i], ops[i], t, n);
  }

  /**
    A Start that finds gcCancel nil spawns exactly one loop, and nobody else spawns one before it
    returns: by then there is one loop more than at its check.
  */
  lemma {:induction false} StartSpawnsOneLoop(states: seq<State>, ops: seq<Op>, i: nat, j: nat, t: nat)
    requires IsRun(states, ops) && i <= j < |states|
    requires t in states[i].pcs && states[i].pcs[t].StartCheck? && states[i].gcCancel.None?
    requires forall l :: i < l <= j ==> InsideCall(states[l], t)
    ensures Starting(states[j], t, |states[i].loops|)
    decreases j
  {
    if j == i {
      StartsStarting(states, ops, i, t);
    } else {
      StartSpawnsOneLoop(states, ops, i, j - 1, t);
      StaysStartingInRun(states, ops, j - 1, t, |states[i].loops|);
    }
  }

  /** That loop is alive and the fields are its own. */
  lemma SpawnedIsAlive(states: seq<State>, ops: seq<Op>, j: nat, t: nat, n: nat)
    requires IsRun(states, ops) && j < |states| && Starting(states[j], t, n) && states[j].pcs[t].StartUnlock?
    ensures |states[j].loops| == n + 1 && !states[j].loops[n].Ended?
    ensures states[j].gcCancel == states[j].gcDone == Some(n)
  {
    RunInvariant(states, ops, j);
  }

  /** The state after a sequence of steps, if each of them is enabled in its turn. */
  function After(s: State, ops: seq<Op>): Option<State>
    decreases ops
  {
    if ops == [] then Some(s)
    else if Enabled(s, ops[0]) then After(Apply(s, ops[0]), ops[1..])
    else None
  }

  predicate IsOut(s: State, t: nat) {
    t in s.pcs && s.pcs[t].Out?
  }

  lemma AfterOne(s: State, op: Op, rest: seq<Op>)
    requires Enabled(s, op)
    ensures After(s, [op] + rest) == After(Apply(s, op), rest)
  {
    assert ([op] + rest)[1..] == rest;
  }

  lemma {:induction false} AfterMore(s: State, first: seq<Op>, rest: seq<Op>)
    requires After(s, first).Some?
    ensures After(s, first + rest) == After(After(s, first).value, rest)
    decreases first
  {
    if first == [] {
      assert first + rest == rest;
    } else {
      assert (first + rest)[1..] == first[1..] + rest;
      AfterMore(Apply(s, first[0]), first[1..], rest);
    }
  }

  /** While the mutex is free, any goroutine can start the collector, and then a loop is alive. */
  lemma StartCanComplete(s: State, t: nat) returns (ops: seq<Op>)
    requires Inv(s) && s.mutex.None? && (t in s.pcs ==> s.pcs[t].Out?)
    ensures var end := After(s, ops);
      && end.Some? && Inv(end.value) && IsOut(end.value, t) && end.value.mutex.None?
      && exists n :: 0 <= n < |end.value.loops| && !end.value.loops[n].Ended?
  {
    var s1 := Apply(s, CallStart(t));
    StepKeepsInv(s, CallStart(t));
    var s2 := Apply(s1, Step(t));
    StepKeepsInv(s1, Step(t));
    var s3 := Apply(s2, Step(t));
    StepKeepsInv(s2, Step(t));
    var rest := [];
    if s3.pcs[t].StartDone? {
      rest := FinishStart(s3, t);
    }
    ops := [CallStart(t)] + ([Step(t)] + ([Step(t)] + rest));
    AfterOne(s2, Step(t), rest);
    AfterOne(s1, Step(t), [Step(t)] + rest);
    AfterOne(s, CallStart(t), [Step(t)] + ([Step(t)] + rest));
  }

  lemma FinishStart(s: State, t: nat) returns (ops: seq<Op>)
    requires Inv(s) && t in s.pcs && s.pcs[t].StartDone? && s.mutex == Some(t)
    ensures var end := After(s, ops);
      && end.Some? && Inv(end.value) && IsOut(end.value, t) && end.value.mutex.None?
      && |end.value.loops| == |s.loops| + 1 && !end.value.loops[|s.loops|].Ended?
  {
    var s1 := Apply(s, Step(t));
    StepKeepsInv(s, Step(t));
    var s2 := Apply(s1, Step(t));
    StepKeepsInv(s1, Step(t));
    var s3 := Apply(s2, Step(t));
    StepKeepsInv(s2, Step(t));
    ops := [Step(t)] + ([Step(t)] + ([Step(t)] + []));
    AfterOne(s2, Step(t), []);
    AfterOne(s1, Step(t), [Step(t)] + []);
    AfterOne(s, Step(t), [Step(t)] + ([Step(t)] + []));
  }

  lemma NextOpHelps(s: State, t: nat)
    requires Inv(s) && t in s.pcs && s.pcs[t].StopReceive? && !Enabled(s, Step(t))
    ensures s.loops != [] && Enabled(s, NextOp(s))
    ensures var u := Apply(s, NextOp(s));
      && u.pcs == s.pcs && u.mutex == s.mutex && |u.loops| == |s.loops|
      && Distance(u.loops[|s.loops| - 1]) < Distance(s.loops[|s.loops| - 1])
  {
    WaitingStop(s, t);
  }

  /** A cancelled loop can come to its end while Stop waits for it. */
  lemma {:induction false} LoopCanEnd(s: State, t: nat) returns (ops: seq<Op>)
    requires Inv(s) && t in s.pcs && s.pcs[t].StopReceive? && s.mutex == Some(t)
    ensures var end := After(s, ops);
      && end.Some? && Inv(end.value) && end.value.pcs == s.pcs && end.value.mutex == s.mutex
      && Enabled(end.value, Step(t))
    decreases if s.loops == [] then 0 else Distance(s.loops[|s.loops| - 1])
  {
    if Enabled(s, Step(t)) {
      ops := [];
    } else {
      NextOpHelps(s, t);
      var op := NextOp(s);
      StepKeepsInv(s, op);
      var rest := LoopCanEnd(Apply(s, op), t);
      AfterOne(s, op, rest);
      ops := [op] + rest;
    }
  }

  lemma FinishStop(s: State, t: nat) returns (ops: seq<Op>)
    requires Inv(s) && t in s.pcs && s.pcs[t].StopReceive? && s.mutex == Some(t) && Enabled(s, Step(t))
    ensures var end := After(s, ops);
      && end.Some? && Inv(end.value) && IsOut(end.value, t) && end.value.mutex.None?
      && forall n :: 0 <= n < |end.value.loops| ==> end.value.loops[n].Ended?
  {
    var s1 := Apply(s, Step(t));
    StepKeepsInv(s, Step(t));
    var s2 := Apply(s1, Step(t));
    StepKeepsInv(s1, Step(t));
    var s3 := Apply(s2, Step(t));
    StepKeepsInv(s2, Step(t));
    var s4 := Apply(s3, Step(t));
    StepKeepsInv(s3, Step(t));
    ops := [Step(t)] + ([Step(t)] + ([Step(t)] + ([Step(t)] + [])));
    AfterOne(s3, Step(t), []);
    AfterOne(s2, Step(t), [Step(t)] + []);
    AfterOne(s1, Step(t), [Step(t)] + ([Step(t)] + []));
    AfterOne(s, Step(t), [Step(t)] + ([Step(t)] + ([Step(t)] + [])));
  }

  /** While the mutex is free, any goroutine can stop the collector, whatever its loop is doing. */
  lemma StopCanComplete(s: State, t: nat) returns (ops: seq<Op>)
    requires Inv(s) && s.mutex.None? && (t in s.pcs ==> s.pcs[t].Out?)
    ensures var end := After(s, ops);
      && end.Some? && Inv(end.value) && IsOut(end.value, t) && end.value.mutex.None?
      && forall n :: 0 <= n < |end.value.loops| ==> end.value.loops[n].Ended?
  {
    var s1 := Apply(s, CallStop(t));
    StepKeepsInv(s, CallStop(t));
    var s2 := Apply(s1, Step(t));
    StepKeepsInv(s1, Step(t));
    var s3 := Apply(s2, Step(t));
    StepKeepsInv(s2, Step(t));
    var rest := [];
    if s3.pcs[t].StopCancel? {
      var s4 := Apply(s3, Step(t));
      StepKeepsInv(s3, Step(t));
      var wait := LoopCanEnd(s4, t);
      var end := FinishStop(After(s4, wait).value, t);
      AfterMore(s4, wait, end);
      AfterOne(s3, Step(t), wait + end);
      rest := [Step(t)] + (wait + end);
    }
    ops := [CallStop(t)] + ([Step(t)] + ([Step(t)] + rest));
    AfterOne(s2, Step(t), rest);
    AfterOne(s1, Step(t), [Step(t)] + rest);
    AfterOne(s, CallStop(t), [Step(t)] + ([Step(t)] + rest));
  }

  /** A loop that is not cancelled goes on collecting: each tick is followed by a collection and another wait. */
  lemma LoopCollects(s: State, n: nat)
    requires Inv(s) && n < |s.loops| && s.loops[n].Listening?
    ensures Enabled(s, Tick(n)) && Enabled(Apply(s, Tick(n)), Swept(n))
    ensures Apply(s, Tick(n)).loops[n].Collecting? && Apply(Apply(s, Tick(n)), Swept(n)) == s
    ensures Enabled(s, Leave(n)) <==> n in s.cancelled
  {
    assert s.loops[n := s.loops[n]] == s.loops;
  }
}
