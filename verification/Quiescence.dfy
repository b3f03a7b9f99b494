/**
 Requests, maintenance holders and backup operations interleaved: any number of threads, each
 step one critical section of the maintenance controller or of the backup manager.
 */
module Quiescence {
  import opened Foundation
  import opened Maintenance

  type Thread = nat
  type OperationId = nat

  /** Who asks for maintenance: the goroutine of a backup operation, or any other caller. */
  datatype Caller = Operation(id: OperationId) | Other(thread: Thread)

  datatype Stage = Waiting(channel: nat) | Holding

  datatype Status = Starting | Quiescing | Creating | Complete | Failed

  predicate Terminal(status: Status) {
    status.Complete? || status.Failed?
  }

  datatype Last = NoOperation | Last(id: OperationId, status: Status)

  /** Where the goroutine of a backup operation stands. */
  datatype Phase =
    | Spawned
    | BeforeBegin
    | InBegin
    | Checkpointing
    | InCreate
    | Reporting(success: bool)
    | Refused
    | Ending

  datatype System = System(
    control: Control,
    requests: set<Thread>,
    holders: map<Caller, Stage>,
    last: Last,
    operations: map<OperationId, Phase>,
    usedIds: set<OperationId>,
    deleting: bool,
    starters: set<Thread>,
    deleters: set<Thread>)

  const Initial := System(Idle, {}, map[], NoOperation, map[], {}, false, {}, {})

  datatype Step =
    | Enter(thread: Thread)
    | Leave(thread: Thread)
    | Begin(thread: Thread)
    | Wake(caller: Caller)
    | Cancel(caller: Caller)
    | End(thread: Thread)
    | StartCheck(thread: Thread)
    | StartUnavailable(thread: Thread)
    | StartCommit(thread: Thread, id: OperationId)
    | Quiesce(id: OperationId)
    | BeginBackup(id: OperationId)
    | Checkpointed(id: OperationId, success: bool)
    | Created(id: OperationId, success: bool)
    | Report(id: OperationId)
    | ReportRefusal(id: OperationId)
    | EndBackup(id: OperationId)
    | DeleteBegin(thread: Thread)
    | DeleteEnd(thread: Thread)

  predicate Busy(s: System) {
    s.deleting || (s.last.Last? && !Terminal(s.last.status))
  }

  function SetStatus(last: Last, id: OperationId, status: Status): Last {
    if last.Last? && last.id == id then Last(id, status) else last
  }

  predicate InPhase(s: System, id: OperationId, phase: Phase) {
    id in s.operations && s.operations[id] == phase
  }

  predicate IsWaiting(s: System, caller: Caller) {
    caller in s.holders && s.holders[caller].Waiting?
  }

  predicate ChannelClosed(s: System, channel: nat) {
    channel < |s.control.closed| && s.control.closed[channel]
  }

  function WithPhase(s: System, id: OperationId, phase: Phase): System {
    s.(operations := s.operations[id := phase])
  }

  /** A caller that got maintenance moves on; for an operation that is the checkpoint. */
  function AfterWake(s: System, caller: Caller): System {
    var held := s.(holders := s.holders[caller := Holding]);
    if caller.Operation? then WithPhase(held, caller.id, Checkpointing) else held
  }

  function GiveUp(s: System, caller: Caller): System {
    s.(control := s.control.(active := false), holders := s.holders - {caller})
  }

  ghost predicate Next(s: System, t: System, step: Step) {
    match step
    case Enter(thread) =>
      && thread !in s.requests
      && t == (if s.control.active then s else s.(control := Entered(s.control), requests := s.requests + {thread}))
    case Leave(thread) =>
      && thread in s.requests
      && t == s.(control := Left(s.control), requests := s.requests - {thread})
    case Begin(thread) =>
      && Other(thread) !in s.holders
      && t == (if s.control.active then s
               else s.(control := s.control.(active := true), holders := s.holders[Other(thread) := Waiting(s.control.zero)]))
    case Wake(caller) =>
      IsWaiting(s, caller) && ChannelClosed(s, s.holders[caller].channel) && t == AfterWake(s, caller)
    case Cancel(caller) =>
      && IsWaiting(s, caller)
      && t == (if caller.Operation? then WithPhase(GiveUp(s, caller), caller.id, Refused) else GiveUp(s, caller))
    case End(thread) =>
      Other(thread) in s.holders && s.holders[Other(thread)].Holding? && t == GiveUp(s, Other(thread))
    case StartCheck(thread) =>
      t == (if Busy(s) then s else s.(starters := s.starters + {thread}))
    case StartUnavailable(thread) =>
      thread in s.starters && t == s.(starters := s.starters - {thread})
    case StartCommit(thread, id) =>
      && thread in s.starters && id !in s.usedIds
      && t == (if Busy(s) then s.(starters := s.starters - {thread})
               else s.(starters := s.starters - {thread}, last := Last(id, Starting),
                       operations := s.operations[id := Spawned], usedIds := s.usedIds + {id}))
    case Quiesce(id) =>
      InPhase(s, id, Spawned) && t == WithPhase(s, id, BeforeBegin).(last := SetStatus(s.last, id, Quiescing))
    case BeginBackup(id) =>
      && InPhase(s, id, BeforeBegin)
      && t == (if s.control.active then WithPhase(s, id, Refused)
               else WithPhase(s, id, InBegin).(
                 control := s.control.(active := true), holders := s.holders[Operation(id) := Waiting(s.control.zero)]))
    case Checkpointed(id, success) =>
      && InPhase(s, id, Checkpointing)
      && t == (if success then WithPhase(s, id, InCreate).(last := SetStatus(s.last, id, Creating))
               else WithPhase(s, id, Reporting(false)))
    case Created(id, success) =>
      InPhase(s, id, InCreate) && t == WithPhase(s, id, Reporting(success))
    case Report(id) =>
      && id in s.operations && s.operations[id].Reporting?
      && t == WithPhase(s, id, Ending).(last := SetStatus(s.last, id, if s.operations[id].success then Complete else Failed))
    case ReportRefusal(id) =>
      InPhase(s, id, Refused) && t == s.(operations := s.operations - {id}, last := SetStatus(s.last, id, Failed))
    case EndBackup(id) =>
      InPhase(s, id, Ending) && t == GiveUp(s, Operation(id)).(operations := s.operations - {id})
    case DeleteBegin(thread) =>
      && thread !in s.deleters
      && t == (if Busy(s) then s else s.(deleting := true, deleters := s.deleters + {thread}))
    case DeleteEnd(thread) =>
      thread in s.deleters && t == s.(deleting := false, deleters := s.deleters - {thread})
  }

  ghost predicate IsExecution(states: seq<System>, steps: seq<Step>) {
    && |states| == |steps| + 1
    && states[0] == Initial
    && forall i :: 0 <= i < |steps| ==> Next(states[i], states[i + 1], steps[i])
  }

  // ----- what every execution keeps

  /** The controller's counters fit the threads: the count is right, and maintenance has exactly one holder or none. */
  ghost predicate ControlFits(s: System) {
    && Fits(s.control)
    && s.control.inFlight == |s.requests|
    && (s.control.active <==> s.holders != map[])
    && (forall a, b :: a in s.holders && b in s.holders ==> a == b)
    && (forall c :: c in s.holders && s.holders[c].Waiting? ==> s.holders[c].channel == s.control.zero)
    && (forall c :: c in s.holders && s.holders[c].Holding? ==> s.requests == {})
  }

  /** An operation holds, waits for or has given back maintenance as its phase says. */
  ghost predicate OperationFits(s: System, id: OperationId) {
    if id !in s.operations then Operation(id) !in s.holders
    else
      && id in s.usedIds
      && match s.operations[id]
         case Spawned => Operation(id) !in s.holders
         case BeforeBegin => Operation(id) !in s.holders
         case Refused => Operation(id) !in s.holders
         case InBegin => IsWaiting(s, Operation(id))
         case _ => Operation(id) in s.holders && s.holders[Operation(id)].Holding?
  }

  ghost predicate OperationsFit(s: System) {
    forall id :: OperationFits(s, id)
  }

  predicate Unreported(s: System, id: OperationId) {
    id in s.operations && !s.operations[id].Ending?
  }

  /** The manager's record: an operation that has not reported is the last one, and excludes deletions. */
  ghost predicate ManagerFits(s: System) {
    && (forall id :: Unreported(s, id) ==> s.last.Last? && s.last.id == id && !Terminal(s.last.status))
    && (s.last.Last? ==> s.last.id in s.usedIds)
    && (s.deleting <==> s.deleters != {})
    && (forall a, b :: a in s.deleters && b in s.deleters ==> a == b)
    && (s.deleting ==> !(s.last.Last? && !Terminal(s.last.status)))
  }

  ghost predicate Invariant(s: System) {
    ControlFits(s) && OperationsFit(s) && ManagerFits(s)
  }

  lemma RequestsKeepControl(s: System, t: System, step: Step)
    requires ControlFits(s) && Next(s, t, step) && (step.Enter? || step.Leave?)
    ensures ControlFits(t)
  {
    if step.Leave? {
      assert |s.requests - {step.thread}| == |s.requests| - 1;
    } else {
      assert s.requests == {} ==> s.control.inFlight == 0;
    }
  }

  lemma StepKeepsControl(s: System, t: System, step: Step)
    requires ControlFits(s) && OperationsFit(s) && Next(s, t, step)
    ensures ControlFits(t)
  {
    if step.Enter? || step.Leave? {
      RequestsKeepControl(s, t, step);
    } else if t.control == s.control && t.holders == s.holders && t.requests == s.requests {
    } else {
      HoldersKeepControl(s, t, step);
    }
  }

  lemma HoldersKeepControl(s: System, t: System, step: Step)
    requires ControlFits(s) && OperationsFit(s) && Next(s, t, step)
    requires step.Begin? || step.Wake? || step.Cancel? || step.End? || step.BeginBackup? || step.EndBackup?
    ensures ControlFits(t)
  {
    hide OperationsFit;
    match step {
      case Begin(thread) =>
      case Wake(caller) =>
        assert |s.requests| == 0;
      case Cancel(caller) =>
        assert t.holders == map[];
      case End(thread) =>
        assert t.holders == map[];
      case BeginBackup(id) =>
        assert !s.control.active ==> Operation(id) in t.holders && forall c :: c in t.holders ==> c == Operation(id);
      case EndBackup(id) =>
        HeldByOperation(s, id);
        assert t.holders == map[];
    }
  }

  lemma HeldByOperation(s: System, id: OperationId)
    requires OperationsFit(s) && InPhase(s, id, Ending)
    ensures Operation(id) in s.holders
  {
    assert OperationFits(s, id);
  }

  predicate MovesHolders(step: Step) {
    step.Begin? || step.Wake? || step.Cancel? || step.End? || step.BeginBackup? || step.EndBackup?
  }

  /** Steps that give, grant or take maintenance keep every operation's part. */
  lemma HoldersKeepOperation(s: System, t: System, step: Step, id: OperationId)
    requires OperationFits(s, id) && Next(s, t, step) && MovesHolders(step)
    ensures OperationFits(t, id)
  {
    hide Entered, Left;
  }

  lemma PhasesKeepOperation(s: System, t: System, step: Step, id: OperationId)
    requires OperationFits(s, id) && Next(s, t, step) && !MovesHolders(step)
    ensures OperationFits(t, id)
  {
    assert t.holders == s.holders;
    hide GiveUp, AfterWake, Entered, Left, SetStatus, Busy;
  }

  lemma StepKeepsOperations(s: System, t: System, step: Step)
    requires OperationsFit(s) && Next(s, t, step)
    ensures OperationsFit(t)
  {
    forall id
      ensures OperationFits(t, id)
    {
      assert OperationFits(s, id);
      hide *;
      if MovesHolders(step) {
        HoldersKeepOperation(s, t, step, id);
      } else {
        PhasesKeepOperation(s, t, step, id);
      }
    }
  }

  lemma PhasesKeepManager(s: System, t: System, step: Step)
    requires OperationsFit(s) && ManagerFits(s) && Next(s, t, step)
    requires !step.StartCommit? && !step.DeleteBegin? && !step.DeleteEnd?
    ensures ManagerFits(t)
  {
    hide Entered, Left;
    assert step.Quiesce? || step.Checkpointed? ==> Unreported(s, step.id);
    forall id | Unreported(t, id)
      ensures t.last.Last? && t.last.id == id && !Terminal(t.last.status)
    {
      assert OperationFits(s, id);
      assert Unreported(s, id);
    }
  }

  lemma StepKeepsManager(s: System, t: System, step: Step)
    requires OperationsFit(s) && ManagerFits(s) && Next(s, t, step)
    ensures ManagerFits(t)
  {
    match step {
      case StartCommit(_, id) =>
        hide OperationFits;
        forall other | Unreported(t, other)
          ensures t.last.Last? && t.last.id == other && !Terminal(t.last.status)
        {
          assert Unreported(s, other) || other == id;
        }
      case DeleteBegin(_) =>
        assert forall id :: Unreported(t, id) ==> Unreported(s, id);
      case DeleteEnd(_) =>
        assert forall id :: Unreported(t, id) ==> Unreported(s, id);
      case _ =>
        PhasesKeepManager(s, t, step);
    }
  }

  lemma {:induction false} ExecutionKeepsInvariant(states: seq<System>, steps: seq<Step>, n: nat)
    requires IsExecution(states, steps) && n < |states|
    ensures Invariant(states[n])
    decreases n
  {
    if n > 0 {
      ExecutionKeepsInvariant(states, steps, n - 1);
      StepKeepsControl(states[n - 1], states[n], steps[n - 1]);
      StepKeepsOperations(states[n - 1], states[n], steps[n - 1]);
      StepKeepsManager(states[n - 1], states[n], steps[n - 1]);
    } else {
      assert forall id :: OperationFits(Initial, id);
    }
  }

  // ----- the guarantees

  /** At most one caller waits for or holds maintenance, and while one holds it nobody is or gets in. */
  lemma MaintenanceIsExclusive(states: seq<System>, steps: seq<Step>, n: nat, caller: Caller, other: Caller,
                               thread: Thread)
    requires IsExecution(states, steps) && n < |states|
    requires caller in states[n].holders
    ensures other in states[n].holders ==> other == caller
    ensures states[n].holders[caller].Holding? ==> states[n].requests == {} && states[n].control.inFlight == 0
    ensures n < |steps| && steps[n] == Enter(thread) ==> states[n + 1] == states[n]
  {
    ExecutionKeepsInvariant(states, steps, n);
    assert n < |steps| ==> Next(states[n], states[n + 1], steps[n]);
  }

  /**
   From the step that grants maintenance up to the state in which it is still held, no request was
   in flight at any time.
   */
  lemma {:induction false} QuietThroughout(states: seq<System>, steps: seq<Step>, first: nat, last: nat, caller: Caller)
    requires IsExecution(states, steps) && first <= last < |states|
    requires forall k :: first <= k <= last ==> caller in states[k].holders && states[k].holders[caller].Holding?
    ensures forall k :: first <= k <= last ==> states[k].requests == {}
    decreases last
  {
    ExecutionKeepsInvariant(states, steps, last);
    if first < last {
      QuietThroughout(states, steps, first, last - 1, caller);
    }
  }

  /** The channel is closed exactly when nothing is in flight, and a leaving request never closes it a second time. */
  lemma ChannelIsClosedOnce(states: seq<System>, steps: seq<Step>, n: nat, thread: Thread)
    requires IsExecution(states, steps) && n < |states|
    ensures var c := states[n].control; c.zero < |c.closed| && (c.closed[c.zero] <==> c.inFlight == 0)
    ensures thread in states[n].requests ==> MayLeave(states[n].control)
  {
    ExecutionKeepsInvariant(states, steps, n);
    if thread in states[n].requests {
      assert states[n].requests != {};
      assert |states[n].requests| >= 1;
    }
  }

  /**
   While the agent creates a backup, maintenance is held for it, nothing is in flight, and nothing
   else runs at the agent.
   */
  lemma CreateRunsAlone(states: seq<System>, steps: seq<Step>, n: nat, id: OperationId, other: OperationId)
    requires IsExecution(states, steps) && n < |states| && InPhase(states[n], id, InCreate)
    ensures Operation(id) in states[n].holders && states[n].holders[Operation(id)].Holding?
    ensures states[n].requests == {}
    ensures InPhase(states[n], other, InCreate) ==> other == id
    ensures states[n].deleters == {}
  {
    ExecutionKeepsInvariant(states, steps, n);
    assert OperationFits(states[n], id) && OperationFits(states[n], other);
    assert Unreported(states[n], id);
  }

  /** Deletions at the agent exclude each other too. */
  lemma DeleteRunsAlone(states: seq<System>, steps: seq<Step>, n: nat, thread: Thread, other: Thread, id: OperationId)
    requires IsExecution(states, steps) && n < |states| && thread in states[n].deleters
    ensures other in states[n].deleters ==> other == thread
    ensures !InPhase(states[n], id, InCreate)
  {
    ExecutionKeepsInvariant(states, steps, n);
    if InPhase(states[n], id, InCreate) {
      CreateRunsAlone(states, steps, n, id, id);
    }
  }

  /**
   The manager accepts an operation as soon as the one before it has reported, which is before that
   one gives maintenance back. Whether the new operation gets maintenance then depends on that, and
   on nothing else but other callers: it is refused exactly when some operation has reported but not
   ended, or another caller waits for or holds maintenance.
   */
  lemma SuccessorIsRefusedExactly(states: seq<System>, steps: seq<Step>, n: nat, second: OperationId)
    requires IsExecution(states, steps) && n < |steps| && steps[n] == BeginBackup(second)
    ensures InPhase(states[n + 1], second, Refused) <==>
            || (exists first :: InPhase(states[n], first, Ending))
            || (exists thread :: Other(thread) in states[n].holders)
  {
    var s := states[n];
    assert Next(s, states[n + 1], steps[n]);
    ExecutionKeepsInvariant(states, steps, n);
    if first :| InPhase(s, first, Ending) {
      assert OperationFits(s, first);
    }
    if s.control.active {
      var holder :| holder in s.holders;
      HolderHasReported(s, holder, second);
    }
  }

  lemma HolderHasReported(s: System, holder: Caller, second: OperationId)
    requires Invariant(s) && holder in s.holders && InPhase(s, second, BeforeBegin)
    ensures holder.Other? || InPhase(s, holder.id, Ending)
  {
    if holder.Operation? {
      assert OperationFits(s, holder.id) && OperationFits(s, second);
      assert Unreported(s, second);
      if Unreported(s, holder.id) {
        assert false;
      }
    }
  }

  lemma Extend(states: seq<System>, steps: seq<Step>, t: System, step: Step)
    requires IsExecution(states, steps) && Next(states[|steps|], t, step)
    ensures IsExecution(states + [t], steps + [step])
  {
  }

  lemma Started()
    ensures IsExecution([Initial], [])
  {
  }

  /** Any execution that ends with nothing in progress goes on with a new operation that is accepted. */
  lemma Accept(states: seq<System>, steps: seq<Step>, thread: Thread, id: OperationId)
    returns (after: seq<System>, taken: seq<Step>)
    requires IsExecution(states, steps) && !Busy(states[|steps|])
    requires thread !in states[|steps|].starters && id !in states[|steps|].usedIds
    ensures IsExecution(after, taken) && states <= after && |after| == |taken| + 1
    ensures taken == steps + [StartCheck(thread), StartCommit(thread, id), Quiesce(id)]
    ensures after[|taken|] == WithPhase(states[|steps|], id, BeforeBegin).(
                                last := Last(id, Quiescing), usedIds := states[|steps|].usedIds + {id})
  {
    var s := states[|steps|];
    assert |states| == |steps| + 1;
    hide IsExecution;
    var checked := s.(starters := s.starters + {thread});
    Extend(states, steps, checked, StartCheck(thread));
    after, taken := states + [checked], steps + [StartCheck(thread)];
    var spawned := WithPhase(s, id, Spawned).(last := Last(id, Starting), usedIds := s.usedIds + {id});
    assert checked.starters - {thread} == s.starters;
    Extend(after, taken, spawned, StartCommit(thread, id));
    after, taken := after + [spawned], taken + [StartCommit(thread, id)];
    var quiescing := WithPhase(s, id, BeforeBegin).(last := Last(id, Quiescing), usedIds := s.usedIds + {id});
    assert s.operations[id := Spawned][id := BeforeBegin] == s.operations[id := BeforeBegin];
    Extend(after, taken, quiescing, Quiesce(id));
    after, taken := after + [quiescing], taken + [Quiesce(id)];
  }

  const Taken := Idle.(active := true)

  function Held(last: Last, phase: Phase): System {
    System(Taken, {}, map[Operation(0) := Holding], last, map[0 := phase], {0}, false, {}, {})
  }

  /** Operation 0 is accepted and gets maintenance. */
  lemma FirstHolds() returns (states: seq<System>, steps: seq<Step>)
    ensures IsExecution(states, steps)
    ensures |steps| == 5 && |states| == 6 && states[5] == Held(Last(0, Quiescing), Checkpointing)
  {
    Started();
    states, steps := Accept([Initial], [], 1, 0);
    assert |states| == |steps| + 1;
    hide IsExecution, Busy, Entered, Left;
    var s3 := System(Idle, {}, map[], Last(0, Quiescing), map[0 := BeforeBegin], {0}, false, {}, {});
    assert states[3] == s3;
    var s4 := s3.(control := Taken, holders := map[Operation(0) := Waiting(0)], operations := map[0 := InBegin]);
    Extend(states, steps, s4, BeginBackup(0));
    states, steps := states + [s4], steps + [BeginBackup(0)];
    var s5 := Held(Last(0, Quiescing), Checkpointing);
    Extend(states, steps, s5, Wake(Operation(0)));
    states, steps := states + [s5], steps + [Wake(Operation(0))];
  }

  /** It makes its checkpoint. */
  lemma FirstCreates() returns (states: seq<System>, steps: seq<Step>)
    ensures IsExecution(states, steps)
    ensures |steps| == 6 && |states| == 7 && states[6] == Held(Last(0, Creating), InCreate)
  {
    states, steps := FirstHolds();
    hide IsExecution, Busy, Entered, Left;
    var creating := Held(Last(0, Creating), InCreate);
    Extend(states, steps, creating, Checkpointed(0, true));
    states, steps := states + [creating], steps + [Checkpointed(0, true)];
  }

  /** It makes its backup, and reports it as complete. */
  lemma FirstReports() returns (states: seq<System>, steps: seq<Step>)
    ensures IsExecution(states, steps)
    ensures |steps| == 8 && |states| == 9 && states[8] == Held(Last(0, Complete), Ending)
  {
    states, steps := FirstCreates();
    hide IsExecution, Busy, Entered, Left;
    var reporting := Held(Last(0, Creating), Reporting(true));
    Extend(states, steps, reporting, Created(0, true));
    states, steps := states + [reporting], steps + [Created(0, true)];
    var ending := Held(Last(0, Complete), Ending);
    Extend(states, steps, ending, Report(0));
    states, steps := states + [ending], steps + [Report(0)];
  }

  /** Operation 1 is accepted. */
  lemma SecondIsAccepted() returns (states: seq<System>, steps: seq<Step>)
    ensures IsExecution(states, steps)
    ensures |steps| == 11 && |states| == 12 && states[8] == Held(Last(0, Complete), Ending)
    ensures states[11] == Held(Last(1, Quiescing), Ending).(operations := map[0 := Ending, 1 := BeforeBegin], usedIds := {0, 1})
  {
    states, steps := FirstReports();
    ghost var before := states;
    hide IsExecution, Entered, Left;
    states, steps := Accept(states, steps, 2, 1);
    Shown(before, states);
  }

  lemma Shown(before: seq<System>, after: seq<System>)
    requires |before| == 9 && before <= after && before[8] == Held(Last(0, Complete), Ending)
    ensures |after| > 8 && after[8] == before[8]
    ensures WithPhase(before[8], 1, BeforeBegin).(last := Last(1, Quiescing), usedIds := before[8].usedIds + {1}) ==
            Held(Last(1, Quiescing), Ending).(operations := map[0 := Ending, 1 := BeforeBegin], usedIds := {0, 1})
  {
  }

  /**
   The refusal does happen: operation 0 has reported its backup as complete, operation 1 is accepted
   and asks for maintenance before operation 0 has given it back, and fails for that reason alone.
   */
  lemma EarlySuccessorIsRefused() returns (states: seq<System>, steps: seq<Step>)
    ensures IsExecution(states, steps) && |steps| == 13 && steps[11..] == [BeginBackup(1), ReportRefusal(1)]
    ensures InPhase(states[8], 0, Ending) && states[8].last == Last(0, Complete)
    ensures InPhase(states[12], 0, Ending) && InPhase(states[12], 1, Refused)
    ensures states[13].last == Last(1, Failed)
  {
    states, steps := SecondIsAccepted();
    hide IsExecution, Busy, Entered, Left;
    var refused := states[11].(operations := map[0 := Ending, 1 := Refused]);
    Extend(states, steps, refused, BeginBackup(1));
    states, steps := states + [refused], steps + [BeginBackup(1)];
    var failed := Held(Last(1, Failed), Ending).(usedIds := {0, 1});
    Extend(states, steps, failed, ReportRefusal(1));
    states, steps := states + [failed], steps + [ReportRefusal(1)];
  }

  // ----- the manager itself

  /** The manager's record. Each method is one critical section and one step of the system. */
  class Manager {
    var last: Last
    var deleting: bool

    ghost predicate Shows(s: System)
      reads this
    {
      last == s.last && deleting == s.deleting
    }

    constructor ()
      ensures Shows(Initial)
    {
      last, deleting := NoOperation, false;
    }

    method InProgress() returns (busy: bool)
      ensures forall s :: Shows(s) ==> busy == Busy(s)
    {
      busy := deleting || (last.Last? && last.status != Complete && last.status != Failed);
    }

    /** The check `Start` makes before it asks whether the agent is available. */
    method CheckIdle(ghost s: System, ghost thread: Thread) returns (idle: bool, ghost t: System)
      requires Shows(s)
      ensures Next(s, t, StartCheck(thread)) && Shows(t) && (idle <==> !Busy(s))
    {
      var busy := InProgress();
      idle := !busy;
      t := if Busy(s) then s else s.(starters := s.starters + {thread});
    }

    /** The second check of `Start`, and the new operation's record. */
    method CommitStart(id: OperationId, ghost s: System, ghost thread: Thread) returns (started: bool, ghost t: System)
      requires Shows(s) && thread in s.starters && id !in s.usedIds
      modifies this
      ensures Next(s, t, StartCommit(thread, id)) && Shows(t)
      ensures started <==> id in t.usedIds
    {
      var busy := InProgress();
      if busy {
        return false, s.(starters := s.starters - {thread});
      }
      last := Last(id, Starting);
      started := true;
      t := s.(starters := s.starters - {thread}, last := Last(id, Starting),
              operations := s.operations[id := Spawned], usedIds := s.usedIds + {id});
    }

    /** Only the latest operation's record is ever updated. */
    method Record(id: OperationId, status: Status, ghost s: System)
      requires Shows(s)
      modifies this`last
      ensures Shows(s.(last := SetStatus(s.last, id, status)))
    {
      if last == NoOperation || last.id != id {
        return;
      }
      last := Last(id, status);
    }

    method BeginDelete(ghost s: System, ghost thread: Thread) returns (begun: bool, ghost t: System)
      requires Shows(s) && thread !in s.deleters
      modifies this`deleting
      ensures Next(s, t, DeleteBegin(thread)) && Shows(t) && (begun <==> thread in t.deleters)
    {
      var busy := InProgress();
      if busy {
        return false, s;
      }
      deleting := true;
      begun := true;
      t := s.(deleting := true, deleters := s.deleters + {thread});
    }

    method EndDelete(ghost s: System, ghost thread: Thread) returns (ghost t: System)
      requires Shows(s) && thread in s.deleters
      modifies this`deleting
      ensures Next(s, t, DeleteEnd(thread)) && Shows(t)
    {
      deleting := false;
      t := s.(deleting := false, deleters := s.deleters - {thread});
    }
  }
}
