/**
 The supervisor of the Distribution child process: starting, stopping and reaping it from any
 number of threads, and the garbage collections that need it stopped.
 */
module Supervisor {
  import opened Foundation

  type Process = nat
  type Thread = nat

  /** The goroutine that reaps a child: blocked until it exits, slot cleared, completion published. */
  datatype Reaper = Blocked | Cleared | Published

  /** Where a thread stands in `Start`, `Stop` or a collection. */
  datatype Phase =
    | Starting
    | StartWaiting(awaited: Process)
    | AwaitingReady(child: Process)
    | Aborting
    | AbortSignal(child: Process)
    | AbortWaiting(child: Process)
    | Started(child: Process)
    | StartFailed
    | Stopping
    | StopSignal(child: Process)
    | StopWaiting(child: Process)
    | Stopped(exited: Option<Process>)
    | StopFailed
    | Collecting

  /** `Boot` is the first start, `Closer` the final stop, `Collector` a collection, `Visitor` any other caller. */
  datatype Role = Boot | Closer | Collector | Visitor

  datatype Actor = Actor(role: Role, phase: Phase)

  datatype System = System(
    command: Option<Process>,
    stopping: bool,
    alive: set<Process>,
    reapers: map<Process, Reaper>,
    threads: map<Thread, Actor>,
    mutex: Option<Thread>,
    boot: Option<Thread>,
    booted: bool)

  const Initial := System(None, false, {}, map[], map[], None, None, false)

  datatype Step =
    | BeginBoot(thread: Thread)
    | BeginCollection(thread: Thread)
    | BeginClose(thread: Thread)
    | BeginVisit(thread: Thread, start: bool)
    | Move(thread: Thread, phase: Phase)
    | Spawn(thread: Thread, child: Process)
    | Finish(thread: Thread)
    | Exit(child: Process)
    | Clear(child: Process)
    | Publish(child: Process)

  predicate In(s: System, thread: Thread, phase: Phase) {
    thread in s.threads && s.threads[thread].phase == phase
  }

  predicate IsPublished(s: System, child: Process) {
    child in s.reapers && s.reapers[child].Published?
  }

  /** The next critical section or wait of one thread, short of spawning a child. */
  predicate Moves(s: System, role: Role, before: Phase, after: Phase) {
    match before
    case Starting =>
      if s.command.None? then after == StartFailed
      else after == if s.stopping then StartWaiting(s.command.value) else Started(s.command.value)
    case StartWaiting(awaited) => after == StartFailed || (after == Starting && IsPublished(s, awaited))
    case AwaitingReady(child) => after == Started(child) || after == Aborting
    case Aborting => after == if s.command.None? then StartFailed else AbortSignal(s.command.value)
    case AbortSignal(child) => after == AbortWaiting(child) || after == StartFailed
    case AbortWaiting(child) => after == StartFailed
    case Stopping => after == if s.command.None? then Stopped(None) else StopSignal(s.command.value)
    case StopSignal(child) => after == StopWaiting(child) || after == StopFailed
    case StopWaiting(child) => after == StopFailed || (after == Stopped(Some(child)) && IsPublished(s, child))
    case Stopped(_) => role.Collector? && after == Collecting
    case StopFailed => role.Collector? && after == Starting
    case Collecting => after == Starting
    case Started(_) => false
    case StartFailed => false
  }

  /** Looking at an occupied slot in order to stop it marks the child as stopping. */
  predicate MarksStopping(after: Phase) {
    after.StopSignal? || after.AbortSignal?
  }

  predicate Over(actor: Actor) {
    || actor.phase.Started? || actor.phase.StartFailed?
    || (!actor.role.Collector? && (actor.phase.Stopped? || actor.phase.StopFailed?))
  }

  function Moved(s: System, thread: Thread, phase: Phase): System
    requires thread in s.threads
  {
    s.(threads := s.threads[thread := s.threads[thread].(phase := phase)], stopping := s.stopping || MarksStopping(phase))
  }

  function Spawned(s: System, thread: Thread, child: Process): System
    requires thread in s.threads
  {
    s.(threads := s.threads[thread := s.threads[thread].(phase := AwaitingReady(child))],
       command := Some(child), stopping := false, alive := s.alive + {child}, reapers := s.reapers[child := Blocked])
  }

  function SlotCleared(s: System, child: Process): System {
    if s.command == Some(child) then s.(command := None, stopping := false, reapers := s.reapers[child := Cleared])
    else s.(reapers := s.reapers[child := Cleared])
  }

  /** `Visitor`s that start the child on their own are only part of the open system. */
  ghost predicate Next(s: System, t: System, step: Step, open: bool) {
    match step
    case BeginBoot(thread) =>
      && thread !in s.threads && s.boot == None
      && t == s.(threads := s.threads[thread := Actor(Boot, Starting)], boot := Some(thread))
    case BeginCollection(thread) =>
      && thread !in s.threads && s.booted && s.mutex == None
      && t == s.(threads := s.threads[thread := Actor(Collector, Stopping)], mutex := Some(thread))
    case BeginClose(thread) =>
      thread !in s.threads && s.booted && t == s.(threads := s.threads[thread := Actor(Closer, Stopping)])
    case BeginVisit(thread, start) =>
      && thread !in s.threads && (start ==> open)
      && t == s.(threads := s.threads[thread := Actor(Visitor, if start then Starting else Stopping)])
    case Move(thread, phase) =>
      && thread in s.threads && Moves(s, s.threads[thread].role, s.threads[thread].phase, phase)
      && t == Moved(s, thread, phase)
    case Spawn(thread, child) =>
      && In(s, thread, Starting) && s.command == None && child !in s.reapers
      && t == Spawned(s, thread, child)
    case Finish(thread) =>
      && thread in s.threads && Over(s.threads[thread])
      && t == s.(threads := s.threads - {thread},
                 mutex := if s.mutex == Some(thread) then None else s.mutex,
                 booted := s.booted || (s.threads[thread].role.Boot? && s.threads[thread].phase.Started?))
    case Exit(child) =>
      child in s.alive && t == s.(alive := s.alive - {child})
    case Clear(child) =>
      && child !in s.alive && child in s.reapers && s.reapers[child].Blocked?
      && t == SlotCleared(s, child)
    case Publish(child) =>
      child in s.reapers && s.reapers[child].Cleared? && t == s.(reapers := s.reapers[child := Published])
  }

  ghost predicate IsExecution(states: seq<System>, steps: seq<Step>, open: bool) {
    && |states| == |steps| + 1
    && states[0] == Initial
    && forall i :: 0 <= i < |steps| ==> Next(states[i], states[i + 1], steps[i], open)
  }

  // ----- what every execution keeps

  /** The slot holds exactly the child whose reaper is still blocked, and only that child can be alive. */
  ghost predicate SlotFits(s: System) {
    && (forall p :: p in s.reapers && s.reapers[p].Blocked? <==> s.command == Some(p))
    && (forall p :: p in s.alive ==> s.command == Some(p))
  }

  ghost predicate StopsSawExit(s: System) {
    forall r :: r in s.threads && s.threads[r].phase.Stopped? && s.threads[r].phase.exited.Some? ==>
                  IsPublished(s, s.threads[r].phase.exited.value)
  }

  lemma StepKeepsSlot(s: System, t: System, step: Step, open: bool)
    requires SlotFits(s) && StopsSawExit(s) && Next(s, t, step, open)
    ensures SlotFits(t) && StopsSawExit(t)
  {
  }

  predicate InStart(phase: Phase) {
    phase.Starting? || phase.StartWaiting? || phase.AwaitingReady? || phase.Aborting? || phase.AbortSignal? || phase.AbortWaiting?
    || phase.Started? || phase.StartFailed?
  }

  /** What a thread's role allows in the closed system. */
  ghost predicate RoleFits(s: System, r: Thread)
    requires r in s.threads
  {
    match s.threads[r].role
    case Collector => s.mutex == Some(r)
    case Boot => s.boot == Some(r) && !s.booted && InStart(s.threads[r].phase)
    case Closer => !InStart(s.threads[r].phase) && !s.threads[r].phase.Collecting?
    case Visitor => !InStart(s.threads[r].phase) && !s.threads[r].phase.Collecting?
  }

  /** In the closed system only the first start and the one collection that holds the mutex can bring a child up. */
  ghost predicate StartsFit(s: System) {
    && (s.mutex.Some? ==> s.mutex.value in s.threads && s.threads[s.mutex.value].role.Collector? && s.booted)
    && (s.booted ==> s.boot.Some?)
    && (forall r :: r in s.threads ==> RoleFits(s, r))
  }

  /** What a collection knows about the slot between its stop and its restart. */
  ghost predicate CollectionsFit(s: System) {
    forall r :: r in s.threads && s.threads[r].role.Collector? ==>
                  match s.threads[r].phase
                  case StopSignal(child) => s.command == None || s.command == Some(child)
                  case StopWaiting(child) => s.command == None || s.command == Some(child)
                  case Stopped(_) => s.command == None
                  case Collecting => s.command == None
                  case _ => true
  }

  /** A thread that is no collection stays with what it came for: starting, or stopping. */
  lemma MovesKeepPurpose(s: System, role: Role, before: Phase, after: Phase)
    requires Moves(s, role, before, after) && !role.Collector?
    ensures InStart(before) ==> InStart(after)
    ensures !InStart(before) && !before.Collecting? ==> !InStart(after) && !after.Collecting?
  {
  }

  lemma MoveKeepsStarts(s: System, t: System, step: Step)
    requires StartsFit(s) && Next(s, t, step, false) && step.Move?
    ensures StartsFit(t)
  {
    var actor := s.threads[step.thread];
    assert Moves(s, actor.role, actor.phase, step.phase);
    hide Moves, InStart, MarksStopping;
    if !actor.role.Collector? {
      MovesKeepPurpose(s, actor.role, actor.phase, step.phase);
    }
    forall r | r in t.threads
      ensures RoleFits(t, r)
    {
      assert RoleFits(s, r);
    }
  }

  lemma StepKeepsStarts(s: System, t: System, step: Step)
    requires StartsFit(s) && Next(s, t, step, false)
    ensures StartsFit(t)
  {
    if step.Move? {
      MoveKeepsStarts(s, t, step);
    } else {
      hide Moves, SlotCleared;
      forall r | r in t.threads
        ensures RoleFits(t, r)
      {
        assert r in s.threads ==> RoleFits(s, r);
      }
      if step.Finish? {
        assert RoleFits(s, step.thread);
      }
    }
  }

  lemma StepKeepsCollections(s: System, t: System, step: Step)
    requires SlotFits(s) && StartsFit(s) && CollectionsFit(s) && Next(s, t, step, false)
    ensures CollectionsFit(t)
  {
  }

  lemma {:induction false} ExecutionKeepsInvariants(states: seq<System>, steps: seq<Step>, open: bool, n: nat)
    requires IsExecution(states, steps, open) && n < |states|
    ensures SlotFits(states[n]) && StopsSawExit(states[n])
    ensures !open ==> StartsFit(states[n]) && CollectionsFit(states[n])
    decreases n
  {
    if n > 0 {
      ExecutionKeepsInvariants(states, steps, open, n - 1);
      StepKeepsSlot(states[n - 1], states[n], steps[n - 1], open);
      if !open {
        StepKeepsStarts(states[n - 1], states[n], steps[n - 1]);
        StepKeepsCollections(states[n - 1], states[n], steps[n - 1]);
      }
    }
  }

  // ----- the guarantees

  /** However starts, stops and exits interleave, at most one child is alive. */
  lemma OneChildAtMost(states: seq<System>, steps: seq<Step>, open: bool, n: nat, p: Process, q: Process)
    requires IsExecution(states, steps, open) && n < |states|
    requires p in states[n].alive && q in states[n].alive
    ensures p == q
  {
    ExecutionKeepsInvariants(states, steps, open, n);
  }

  /** A start that finds a child running never finds one whose stop has completed. */
  lemma StoppedChildIsNeverReused(states: seq<System>, steps: seq<Step>, open: bool, m: nat, n: nat,
                                  stopper: Thread, starter: Thread, phase: Phase, child: Process)
    requires IsExecution(states, steps, open) && m <= n < |steps|
    requires In(states[m], stopper, Stopped(Some(child)))
    requires steps[n] == Move(starter, phase) && In(states[n], starter, Starting)
    ensures !In(states[n + 1], starter, Started(child)) && !In(states[n + 1], starter, StartWaiting(child))
    ensures child !in states[n].alive
  {
    ExecutionKeepsInvariants(states, steps, open, m);
    StaysPublished(states, steps, open, m, n, child);
    ExecutionKeepsInvariants(states, steps, open, n);
    assert Next(states[n], states[n + 1], steps[n], open);
  }

  lemma {:induction false} StaysPublished(states: seq<System>, steps: seq<Step>, open: bool, m: nat, n: nat,
                                          child: Process)
    requires IsExecution(states, steps, open) && m <= n < |states| && IsPublished(states[m], child)
    ensures IsPublished(states[n], child)
    decreases n
  {
    if m < n {
      StaysPublished(states, steps, open, m, n - 1, child);
      assert Next(states[n - 1], states[n], steps[n - 1], open);
    }
  }

  /** A garbage collection runs only while no child is alive and none can appear. */
  lemma CollectionRunsAlone(states: seq<System>, steps: seq<Step>, n: nat, thread: Thread)
    requires IsExecution(states, steps, false) && n < |states| && In(states[n], thread, Collecting)
    ensures states[n].alive == {} && states[n].command == None
    ensures n < |steps| ==> states[n + 1].alive == {}
    ensures forall other :: In(states[n], other, Collecting) ==> other == thread
  {
    ExecutionKeepsInvariants(states, steps, false, n);
    if n < |steps| {
      assert Next(states[n], states[n + 1], steps[n], false);
    }
  }

  // ----- what does happen

  lemma Extend(states: seq<System>, steps: seq<Step>, t: System, step: Step, open: bool)
    requires IsExecution(states, steps, open) && Next(states[|steps|], t, step, open)
    ensures IsExecution(states + [t], steps + [step], open)
  {
    hide Next;
    forall i | 0 <= i < |steps| + 1
      ensures Next((states + [t])[i], (states + [t])[i + 1], (steps + [step])[i], open)
    {
    }
  }

  /** A first start has brought a child up, and its readiness is awaited. */
  lemma FirstChild() returns (states: seq<System>, steps: seq<Step>)
    ensures IsExecution(states, steps, false) && steps == [BeginBoot(0), Spawn(0, 1)]
    ensures states[2] == System(Some(1), false, {1}, map[1 := Blocked], map[0 := Actor(Boot, AwaitingReady(1))], None,
                                Some(0), false)
  {
    var s1 := Initial.(threads := map[0 := Actor(Boot, Starting)], boot := Some(0));
    var s2 := System(Some(1), false, {1}, map[1 := Blocked], map[0 := Actor(Boot, AwaitingReady(1))], None, Some(0),
                     false);
    steps, states := [BeginBoot(0), Spawn(0, 1)], [Initial, s1, s2];
    assert Next(Initial, s1, steps[0], false) && Next(s1, s2, steps[1], false);
  }

  /** The first start brings a child up. */
  lemma Boots() returns (states: seq<System>, steps: seq<Step>)
    ensures IsExecution(states, steps, false)
    ensures states[|steps|] == System(Some(1), false, {1}, map[1 := Blocked], map[], None, Some(0), true)
  {
    states, steps := FirstChild();
    var s3 := states[2].(threads := map[0 := Actor(Boot, Started(1))]);
    Extend(states, steps, s3, Move(0, Started(1)), false);
    states, steps := states + [s3], steps + [Move(0, Started(1))];
    var s4 := s3.(threads := map[], booted := true);
    Extend(states, steps, s4, Finish(0), false);
    states, steps := states + [s4], steps + [Finish(0)];
  }

  /** A whole collection: it stops the child, runs while nothing is alive, and brings up another one. */
  lemma CollectionCompletes() returns (states: seq<System>, steps: seq<Step>, n: nat)
    ensures IsExecution(states, steps, false) && n < |steps|
    ensures In(states[n], 5, Collecting)
    ensures states[|steps|].alive == {2} && states[|steps|].command == Some(2) && states[|steps|].threads == map[]
    ensures states[|steps|].mutex == None
  {
    states, steps := Boots();
    var b := states[|steps|];
    var s1 := b.(threads := map[5 := Actor(Collector, Stopping)], mutex := Some(5));
    Extend(states, steps, s1, BeginCollection(5), false);
    states, steps := states + [s1], steps + [BeginCollection(5)];
    var s2 := s1.(threads := map[5 := Actor(Collector, StopSignal(1))], stopping := true);
    Extend(states, steps, s2, Move(5, StopSignal(1)), false);
    states, steps := states + [s2], steps + [Move(5, StopSignal(1))];
    var s3 := s2.(threads := map[5 := Actor(Collector, StopWaiting(1))]);
    Extend(states, steps, s3, Move(5, StopWaiting(1)), false);
    states, steps := states + [s3], steps + [Move(5, StopWaiting(1))];
    var s6;
    states, steps, s6 := ChildExits(states, steps, s3, 1, false);
    var s7 := s6.(threads := map[5 := Actor(Collector, Stopped(Some(1)))]);
    Extend(states, steps, s7, Move(5, Stopped(Some(1))), false);
    states, steps := states + [s7], steps + [Move(5, Stopped(Some(1)))];
    var s8 := s7.(threads := map[5 := Actor(Collector, Collecting)]);
    Extend(states, steps, s8, Move(5, Collecting), false);
    states, steps, n := states + [s8], steps + [Move(5, Collecting)], |steps| + 1;
    var s9 := s8.(threads := map[5 := Actor(Collector, Starting)]);
    Extend(states, steps, s9, Move(5, Starting), false);
    states, steps := states + [s9], steps + [Move(5, Starting)];
    states, steps := StartsUp(states, steps, s9, 5, 2);
  }

  /** An exit that was asked for: the child is gone, its slot is cleared, and whoever waits for it learns so. */
  lemma ChildExits(before: seq<System>, done: seq<Step>, s: System, child: Process, open: bool)
    returns (states: seq<System>, steps: seq<Step>, t: System)
    requires IsExecution(before, done, open) && before[|done|] == s
    requires s.command == Some(child) && s.alive == {child} && child in s.reapers && s.reapers[child].Blocked?
    ensures IsExecution(states, steps, open) && states[|steps|] == t && before <= states
    ensures t == s.(command := None, stopping := false, alive := {}, reapers := s.reapers[child := Published])
  {
    var s1 := s.(alive := {});
    Extend(before, done, s1, Exit(child), open);
    states, steps := before + [s1], done + [Exit(child)];
    var s2 := s1.(command := None, stopping := false, reapers := s.reapers[child := Cleared]);
    Extend(states, steps, s2, Clear(child), open);
    states, steps := states + [s2], steps + [Clear(child)];
    t := s2.(reapers := s.reapers[child := Published]);
    assert s2.reapers[child := Published] == t.reapers;
    Extend(states, steps, t, Publish(child), open);
    states, steps := states + [t], steps + [Publish(child)];
  }

  /** A collection's start, with an empty slot: a new child comes up, and the collection is over. */
  lemma StartsUp(before: seq<System>, done: seq<Step>, s: System, thread: Thread, child: Process)
    returns (states: seq<System>, steps: seq<Step>)
    requires IsExecution(before, done, false) && before[|done|] == s
    requires s.threads == map[thread := Actor(Collector, Starting)] && s.mutex == Some(thread)
    requires s.command == None && s.alive == {} && child !in s.reapers
    ensures IsExecution(states, steps, false) && before <= states && done <= steps
    ensures states[|steps|].alive == {child} && states[|steps|].command == Some(child)
    ensures states[|steps|].threads == map[] && states[|steps|].mutex == None
  {
    var s1 := Spawned(s, thread, child);
    Extend(before, done, s1, Spawn(thread, child), false);
    states, steps := before + [s1], done + [Spawn(thread, child)];
    var s2 := Moved(s1, thread, Started(child));
    Extend(states, steps, s2, Move(thread, Started(child)), false);
    states, steps := states + [s2], steps + [Move(thread, Started(child))];
    var s3 := s2.(threads := s2.threads - {thread}, mutex := None);
    Extend(states, steps, s3, Finish(thread), false);
    states, steps := states + [s3], steps + [Finish(thread)];
  }

  /** A start that meets a child on its way out waits for its end and then brings up a new one. */
  lemma StartOutlastsStop() returns (states: seq<System>, steps: seq<Step>, n: nat)
    ensures IsExecution(states, steps, true) && n < |steps|
    ensures In(states[n], 6, StartWaiting(1)) && states[n].alive == {1}
    ensures In(states[|steps|], 6, AwaitingReady(2)) && states[|steps|].alive == {2}
    ensures 7 !in states[|steps|].threads && IsPublished(states[|steps|], 1)
  {
    states, steps := Boots();
    OpenTo(states, steps);
    var b := states[|steps|];
    var s1 := b.(threads := map[7 := Actor(Closer, Stopping)]);
    Extend(states, steps, s1, BeginClose(7), true);
    states, steps := states + [s1], steps + [BeginClose(7)];
    var s2 := s1.(threads := map[7 := Actor(Closer, StopSignal(1))], stopping := true);
    Extend(states, steps, s2, Move(7, StopSignal(1)), true);
    states, steps := states + [s2], steps + [Move(7, StopSignal(1))];
    var s3 := s2.(threads := map[7 := Actor(Closer, StopSignal(1)), 6 := Actor(Visitor, Starting)]);
    Extend(states, steps, s3, BeginVisit(6, true), true);
    states, steps := states + [s3], steps + [BeginVisit(6, true)];
    var s4 := s3.(threads := map[7 := Actor(Closer, StopSignal(1)), 6 := Actor(Visitor, StartWaiting(1))]);
    Extend(states, steps, s4, Move(6, StartWaiting(1)), true);
    states, steps, n := states + [s4], steps + [Move(6, StartWaiting(1))], |steps| + 1;
    var s5 := s4.(threads := map[7 := Actor(Closer, StopWaiting(1)), 6 := Actor(Visitor, StartWaiting(1))]);
    Extend(states, steps, s5, Move(7, StopWaiting(1)), true);
    states, steps := states + [s5], steps + [Move(7, StopWaiting(1))];
    var s8;
    states, steps, s8 := ChildExits(states, steps, s5, 1, true);
    states, steps := BothGoOn(states, steps, s8);
  }

  lemma OpenTo(states: seq<System>, steps: seq<Step>)
    requires IsExecution(states, steps, false)
    ensures IsExecution(states, steps, true)
  {
  }

  lemma BothGoOn(before: seq<System>, done: seq<Step>, s: System) returns (states: seq<System>, steps: seq<Step>)
    requires IsExecution(before, done, true) && before[|done|] == s
    requires s.threads == map[7 := Actor(Closer, StopWaiting(1)), 6 := Actor(Visitor, StartWaiting(1))]
    requires s.mutex == None && s.command == None && !s.stopping && s.alive == {} && s.reapers == map[1 := Published]
    ensures IsExecution(states, steps, true) && before <= states && done <= steps
    ensures In(states[|steps|], 6, AwaitingReady(2)) && states[|steps|].alive == {2}
    ensures 7 !in states[|steps|].threads && IsPublished(states[|steps|], 1)
  {
    var s1 := s.(threads := map[7 := Actor(Closer, Stopped(Some(1))), 6 := Actor(Visitor, StartWaiting(1))]);
    assert IsPublished(s, 1) && s1 == Moved(s, 7, Stopped(Some(1)));
    Extend(before, done, s1, Move(7, Stopped(Some(1))), true);
    states, steps := before + [s1], done + [Move(7, Stopped(Some(1)))];
    var s2 := s1.(threads := map[6 := Actor(Visitor, StartWaiting(1))]);
    assert s1.threads - {7} == s2.threads;
    Extend(states, steps, s2, Finish(7), true);
    states, steps := states + [s2], steps + [Finish(7)];
    states, steps := WaiterGoesOn(states, steps, s2);
  }

  lemma WaiterGoesOn(before: seq<System>, done: seq<Step>, s: System) returns (states: seq<System>, steps: seq<Step>)
    requires IsExecution(before, done, true) && before[|done|] == s
    requires s.threads == map[6 := Actor(Visitor, StartWaiting(1))]
    requires s.command == None && !s.stopping && s.alive == {} && s.reapers == map[1 := Published]
    ensures IsExecution(states, steps, true) && before <= states && done <= steps
    ensures In(states[|steps|], 6, AwaitingReady(2)) && states[|steps|].alive == {2}
    ensures 7 !in states[|steps|].threads && IsPublished(states[|steps|], 1)
  {
    var s1 := s.(threads := map[6 := Actor(Visitor, Starting)]);
    assert IsPublished(s, 1) && s1 == Moved(s, 6, Starting);
    Extend(before, done, s1, Move(6, Starting), true);
    states, steps := before + [s1], done + [Move(6, Starting)];
    var s2 := Spawned(s1, 6, 2);
    Extend(states, steps, s2, Spawn(6, 2), true);
    states, steps := states + [s2], steps + [Spawn(6, 2)];
  }

  /** A child that does not become ready is stopped again, and the start fails. */
  lemma FailedStartIsUndone() returns (states: seq<System>, steps: seq<Step>)
    ensures IsExecution(states, steps, false)
    ensures steps == [BeginBoot(0), Spawn(0, 1), Move(0, Aborting), Move(0, AbortSignal(1)), Move(0, AbortWaiting(1)),
                      Move(0, StartFailed), Finish(0)]
    ensures states[|steps|].stopping && states[|steps|].threads == map[] && !states[|steps|].booted
  {
    states, steps := FirstChild();
    var s3 := states[2].(threads := map[0 := Actor(Boot, Aborting)]);
    Extend(states, steps, s3, Move(0, Aborting), false);
    states, steps := states + [s3], steps + [Move(0, Aborting)];
    var s4 := s3.(threads := map[0 := Actor(Boot, AbortSignal(1))], stopping := true);
    Extend(states, steps, s4, Move(0, AbortSignal(1)), false);
    states, steps := states + [s4], steps + [Move(0, AbortSignal(1))];
    var s5 := s4.(threads := map[0 := Actor(Boot, AbortWaiting(1))]);
    Extend(states, steps, s5, Move(0, AbortWaiting(1)), false);
    states, steps := states + [s5], steps + [Move(0, AbortWaiting(1))];
    var s6 := s4.(threads := map[0 := Actor(Boot, StartFailed)]);
    Extend(states, steps, s6, Move(0, StartFailed), false);
    states, steps := states + [s6], steps + [Move(0, StartFailed)];
    var s7 := s4.(threads := map[]);
    Extend(states, steps, s7, Finish(0), false);
    states, steps := states + [s7], steps + [Finish(0)];
  }

  // ----- the supervisor itself

  /** The process slot. Each method is one critical section of `Start`, `Stop` or the reaper. */
  class CommandRuntime {
    var command: Option<Process>
    var stopping: bool

    ghost predicate Shows(s: System)
      reads this
    {
      command == s.command && stopping == s.stopping
    }

    constructor ()
      ensures Shows(Initial)
    {
      command, stopping := None, false;
    }

    /**
     One round of `Start`: a running child is enough, one that is stopping has to be waited for, and
     an empty slot is filled. `spawns` tells whether the new process comes up at all.
     */
    method StartRound(child: Process, spawns: bool, ghost s: System, ghost thread: Thread)
      returns (phase: Phase, ghost t: System)
      requires Shows(s) && In(s, thread, Starting) && child !in s.reapers
      modifies this
      ensures Next(s, t, if phase.AwaitingReady? then Spawn(thread, child) else Move(thread, phase), true)
      ensures Shows(t) && In(t, thread, phase)
      ensures phase.AwaitingReady? <==> s.command == None && spawns
    {
      if command.Some? {
        phase := if !stopping then Started(command.value) else StartWaiting(command.value);
        return phase, Moved(s, thread, phase);
      }
      if !spawns {
        return StartFailed, Moved(s, thread, StartFailed);
      }
      command, stopping := Some(child), false;
      phase, t := AwaitingReady(child), Spawned(s, thread, child);
    }

    /** The beginning of `Stop`: marks the child as stopping, if there is one. */
    method StopBegin(ghost s: System, ghost thread: Thread) returns (phase: Phase, ghost t: System)
      requires Shows(s) && In(s, thread, Stopping)
      modifies this`stopping
      ensures Next(s, t, Move(thread, phase), true) && Shows(t) && In(t, thread, phase)
      ensures stopping == (s.stopping || s.command.Some?)
    {
      if command.None? {
        return Stopped(None), Moved(s, thread, Stopped(None));
      }
      stopping := true;
      phase := StopSignal(command.value);
      t := Moved(s, thread, phase);
    }

    /** What the reaper does when its child has exited; an exit nobody asked for is fatal. */
    method Reap(child: Process, ghost s: System) returns (expected: bool, ghost t: System)
      requires Shows(s) && child !in s.alive && child in s.reapers && s.reapers[child].Blocked?
      modifies this
      ensures Next(s, t, Clear(child), true) && Shows(t)
      ensures expected <==> s.command == Some(child) && s.stopping
    {
      expected := command == Some(child) && stopping;
      if command == Some(child) {
        command, stopping := None, false;
      }
      t := SlotCleared(s, child);
    }
  }
}
