/**
 Pull-through imports: the per-project mark that blocks a project's deletion, the bounded
 import slots, and the guard that reads the mark before it reads the repository rows.
 */
module PullThrough {
  import opened Foundation

  type Thread = nat
  type Project = nat
  type Name = nat

  datatype Repository = Repository(project: Project, name: Name)

  /** Where an import stands; the mark is set from `Marked` to `Releasing`, the slot held in between. */
  datatype Phase =
    | Looked
    | Marked
    | InSlot
    | Settled
    | Failed
    | Releasing(success: bool)
    | Done(success: bool)

  /** `existed` records whether the repository row was there when the import looked it up. */
  datatype Import = Import(target: Repository, existed: bool, phase: Phase)

  datatype GuardPhase = Entered | ReadingRows | Answered(hasRepositories: bool)

  datatype Guard = Guard(project: Project, phase: GuardPhase)

  datatype System = System(
    active: map<Project, int>,
    slots: nat,
    rows: set<Repository>,
    imports: map<Thread, Import>,
    guards: map<Thread, Guard>)

  const Initial := System(map[], 0, {}, map[], map[])

  datatype Step =
    | LookUp(thread: Thread, target: Repository)
    | Mark(thread: Thread)
    | TakeSlot(thread: Thread)
    | TimeOut(thread: Thread)
    | Settle(thread: Thread)
    | Fail(thread: Thread)
    | ReleaseSlot(thread: Thread)
    | Unmark(thread: Thread)
    | CreateRow(row: Repository)
    | RemoveRow(row: Repository)
    | EnterGuard(thread: Thread, project: Project)
    | ReadActive(thread: Thread)
    | ReadRows(thread: Thread)

  function ActiveCount(active: map<Project, int>, project: Project): int {
    if project in active then active[project] else 0
  }

  function Marking(active: map<Project, int>, project: Project): map<Project, int> {
    active[project := ActiveCount(active, project) + 1]
  }

  /** Decrements, and drops the key when nothing is left. */
  function Unmarking(active: map<Project, int>, project: Project): map<Project, int> {
    if ActiveCount(active, project) - 1 <= 0 then active - {project}
    else active[project := ActiveCount(active, project) - 1]
  }

  predicate InPhase(s: System, thread: Thread, phase: Phase) {
    thread in s.imports && s.imports[thread].phase == phase
  }

  function To(s: System, thread: Thread, phase: Phase): System
    requires thread in s.imports
  {
    s.(imports := s.imports[thread := s.imports[thread].(phase := phase)])
  }

  predicate HasRows(s: System, project: Project) {
    exists r | r in s.rows :: r.project == project
  }

  ghost predicate Next(s: System, t: System, step: Step, capacity: nat) {
    match step
    case LookUp(thread, target) =>
      thread !in s.imports && t == s.(imports := s.imports[thread := Import(target, target in s.rows, Looked)])
    case Mark(thread) =>
      && InPhase(s, thread, Looked)
      && t == To(s, thread, Marked).(active := Marking(s.active, s.imports[thread].target.project))
    case TakeSlot(thread) =>
      InPhase(s, thread, Marked) && s.slots < capacity && t == To(s, thread, InSlot).(slots := s.slots + 1)
    case TimeOut(thread) =>
      && InPhase(s, thread, Marked)
      && t == To(s, thread, Done(false)).(active := Unmarking(s.active, s.imports[thread].target.project))
    case Settle(thread) =>
      && InPhase(s, thread, InSlot)
      && t == To(s, thread, Settled).(rows := s.rows + if s.imports[thread].existed then {} else {s.imports[thread].target})
    case Fail(thread) =>
      InPhase(s, thread, InSlot) && t == To(s, thread, Failed)
    case ReleaseSlot(thread) =>
      && thread in s.imports && (s.imports[thread].phase.Settled? || s.imports[thread].phase.Failed?)
      && t == To(s, thread, Releasing(s.imports[thread].phase.Settled?)).(slots := if s.slots > 0 then s.slots - 1 else 0)
    case Unmark(thread) =>
      && thread in s.imports && s.imports[thread].phase.Releasing?
      && t == To(s, thread, Done(s.imports[thread].phase.success)).(
           active := Unmarking(s.active, s.imports[thread].target.project))
    case CreateRow(row) =>
      t == s.(rows := s.rows + {row})
    case RemoveRow(row) =>
      t == s.(rows := s.rows - {row})
    case EnterGuard(thread, project) =>
      thread !in s.guards && t == s.(guards := s.guards[thread := Guard(project, Entered)])
    case ReadActive(thread) =>
      && thread in s.guards && s.guards[thread].phase.Entered?
      && t == s.(guards := s.guards[thread := s.guards[thread].(
             phase := if ActiveCount(s.active, s.guards[thread].project) > 0 then Answered(true) else ReadingRows)])
    case ReadRows(thread) =>
      && thread in s.guards && s.guards[thread].phase.ReadingRows?
      && t == s.(guards := s.guards[thread := s.guards[thread].(phase := Answered(HasRows(s, s.guards[thread].project)))])
  }

  ghost predicate IsExecution(states: seq<System>, steps: seq<Step>, capacity: nat) {
    && |states| == |steps| + 1
    && states[0] == Initial
    && forall i :: 0 <= i < |steps| ==> Next(states[i], states[i + 1], steps[i], capacity)
  }

  // ----- accounting

  predicate HoldsMark(phase: Phase) {
    phase.Marked? || phase.InSlot? || phase.Settled? || phase.Failed? || phase.Releasing?
  }

  predicate HoldsSlot(phase: Phase) {
    phase.InSlot? || phase.Settled? || phase.Failed?
  }

  function MarkedImports(s: System, project: Project): set<Thread> {
    set t | t in s.imports && s.imports[t].target.project == project && HoldsMark(s.imports[t].phase)
  }

  function SlotHolders(s: System): set<Thread> {
    set t | t in s.imports && HoldsSlot(s.imports[t].phase)
  }

  /** The counters are what the imports say, and a project's key is there exactly while its count is not zero. */
  ghost predicate CountsFit(s: System, capacity: nat) {
    && (forall p :: ActiveCount(s.active, p) == |MarkedImports(s, p)|)
    && (forall p :: p in s.active ==> s.active[p] > 0)
    && s.slots == |SlotHolders(s)| <= capacity
  }

  lemma StepKeepsMarks(s: System, t: System, step: Step, capacity: nat, p: Project)
    requires CountsFit(s, capacity) && Next(s, t, step, capacity)
    ensures ActiveCount(t.active, p) == |MarkedImports(t, p)|
  {
    match step {
      case Mark(thread) =>
        MarkAdded(s, t, thread, p);
      case TimeOut(thread) =>
        MarkDropped(s, t, thread, p);
      case Unmark(thread) =>
        MarkDropped(s, t, thread, p);
      case _ =>
        MarksUnchanged(s, t, step, capacity, p);
    }
  }

  lemma MarkAdded(s: System, t: System, thread: Thread, p: Project)
    requires ActiveCount(s.active, p) == |MarkedImports(s, p)|
    requires InPhase(s, thread, Looked)
    requires t == To(s, thread, Marked).(active := Marking(s.active, s.imports[thread].target.project))
    ensures ActiveCount(t.active, p) == |MarkedImports(t, p)|
  {
    assert thread !in MarkedImports(s, p);
    if p == s.imports[thread].target.project {
      assert MarkedImports(t, p) == MarkedImports(s, p) + {thread};
    } else {
      assert MarkedImports(t, p) == MarkedImports(s, p);
    }
  }

  lemma MarksUnchanged(s: System, t: System, step: Step, capacity: nat, p: Project)
    requires Next(s, t, step, capacity) && !step.Mark? && !step.TimeOut? && !step.Unmark?
    ensures MarkedImports(t, p) == MarkedImports(s, p) && t.active == s.active
  {
  }

  lemma MarkDropped(s: System, t: System, thread: Thread, p: Project)
    requires ActiveCount(s.active, p) == |MarkedImports(s, p)|
    requires thread in s.imports && HoldsMark(s.imports[thread].phase)
    requires t.imports.Keys == s.imports.Keys && t.imports[thread].phase.Done?
    requires forall r :: r in s.imports && r != thread ==> t.imports[r] == s.imports[r]
    requires t.imports[thread].target == s.imports[thread].target
    requires t.active == Unmarking(s.active, s.imports[thread].target.project)
    ensures ActiveCount(t.active, p) == |MarkedImports(t, p)|
  {
    if p == s.imports[thread].target.project {
      assert MarkedImports(t, p) == MarkedImports(s, p) - {thread};
      assert thread in MarkedImports(s, p);
    } else {
      assert MarkedImports(t, p) == MarkedImports(s, p);
    }
  }

  lemma SlotsUnchanged(s: System, t: System, step: Step, capacity: nat)
    requires Next(s, t, step, capacity) && !step.TakeSlot? && !step.ReleaseSlot?
    ensures SlotHolders(t) == SlotHolders(s) && t.slots == s.slots
  {
  }

  lemma StepKeepsSlots(s: System, t: System, step: Step, capacity: nat)
    requires CountsFit(s, capacity) && Next(s, t, step, capacity)
    ensures t.slots == |SlotHolders(t)| <= capacity
  {
    match step {
      case TakeSlot(thread) =>
        assert SlotHolders(t) == SlotHolders(s) + {thread};
      case ReleaseSlot(thread) =>
        assert thread in SlotHolders(s);
        assert SlotHolders(t) == SlotHolders(s) - {thread};
      case _ =>
        SlotsUnchanged(s, t, step, capacity);
    }
  }

  /** In every state of every execution the counters fit, so slots in use never exceed the capacity. */
  lemma {:induction false} ExecutionKeepsCounts(states: seq<System>, steps: seq<Step>, capacity: nat, n: nat)
    requires IsExecution(states, steps, capacity) && n < |states|
    ensures CountsFit(states[n], capacity)
    decreases n
  {
    if n > 0 {
      ExecutionKeepsCounts(states, steps, capacity, n - 1);
      var s, t, step := states[n - 1], states[n], steps[n - 1];
      assert Next(s, t, step, capacity);
      forall p
        ensures ActiveCount(t.active, p) == |MarkedImports(t, p)|
      {
        StepKeepsMarks(s, t, step, capacity, p);
      }
      StepKeepsSlots(s, t, step, capacity);
    } else {
      assert SlotHolders(Initial) == {};
      assert forall p :: MarkedImports(Initial, p) == {};
    }
  }

  // ----- the counters themselves

  /** The import counters of the service. Each method is one critical section or channel operation. */
  class ImportGate {
    const capacity: nat
    var active: map<Project, int>
    var slots: nat

    ghost predicate Shows(s: System)
      reads this
    {
      active == s.active && slots == s.slots
    }

    constructor (capacity: nat)
      ensures Shows(Initial) && this.capacity == capacity
    {
      this.capacity, active, slots := capacity, map[], 0;
    }

    method MarkImport(project: Project, ghost s: System, ghost thread: Thread) returns (ghost t: System)
      requires Shows(s) && InPhase(s, thread, Looked) && s.imports[thread].target.project == project
      modifies this
      ensures Next(s, t, Mark(thread), capacity) && Shows(t)
    {
      if project in active {
        active := active[project := active[project] + 1];
      } else {
        active := active[project := 1];
      }
      t := To(s, thread, Marked).(active := active);
    }

    /** Takes a slot if one is free; otherwise the import goes on waiting. */
    method TryTakeSlot(ghost s: System, ghost thread: Thread) returns (taken: bool, ghost t: System)
      requires Shows(s) && InPhase(s, thread, Marked)
      modifies this
      ensures taken <==> s.slots < capacity
      ensures taken ==> Next(s, t, TakeSlot(thread), capacity)
      ensures !taken ==> t == s
      ensures Shows(t)
    {
      if slots >= capacity {
        return false, s;
      }
      slots := slots + 1;
      taken := true;
      t := To(s, thread, InSlot).(slots := slots);
    }

    method GiveSlotBack(ghost s: System, ghost thread: Thread) returns (ghost t: System)
      requires Shows(s) && CountsFit(s, capacity)
      requires thread in s.imports && (s.imports[thread].phase.Settled? || s.imports[thread].phase.Failed?)
      modifies this
      ensures Next(s, t, ReleaseSlot(thread), capacity) && Shows(t)
    {
      assert thread in SlotHolders(s);
      assert |SlotHolders(s)| > 0;
      slots := slots - 1;
      t := To(s, thread, Releasing(s.imports[thread].phase.Settled?)).(slots := slots);
    }

    /** Clears one mark, after an import that had a slot or after one that timed out waiting for it. */
    method UnmarkImport(project: Project, ghost s: System, ghost thread: Thread) returns (ghost t: System)
      requires Shows(s) && CountsFit(s, capacity)
      requires InPhase(s, thread, Marked) || (thread in s.imports && s.imports[thread].phase.Releasing?)
      requires s.imports[thread].target.project == project
      modifies this
      ensures Next(s, t, if s.imports[thread].phase.Marked? then TimeOut(thread) else Unmark(thread), capacity)
      ensures Shows(t)
    {
      MarkIsCounted(s, capacity, thread);
      active := active[project := active[project] - 1];
      if active[project] <= 0 {
        active := active - {project};
      }
      assert active == Unmarking(s.active, project);
      t := To(s, thread, Done(s.imports[thread].phase.Releasing? && s.imports[thread].phase.success)).(active := active);
    }

    /** The first half of `ProjectHasRepositories`. */
    method HasActive(project: Project) returns (answer: bool)
      ensures forall s :: Shows(s) ==> answer == (ActiveCount(s.active, project) > 0)
    {
      answer := project in active && active[project] > 0;
    }
  }

  // ----- the guard

  /** The import counts on its row: it found the row there, or has settled and not failed. */
  predicate RowNeeded(s: System, importer: Thread) {
    && importer in s.imports
    && var i := s.imports[importer];
    && (i.existed || i.phase.Settled? || ((i.phase.Releasing? || i.phase.Done?) && i.phase.success))
  }

  ghost predicate RowThere(s: System, importer: Thread) {
    && importer in s.imports
    && (RowNeeded(s, importer) ==> s.imports[importer].target in s.rows)
  }

  /** No step removes the import's repository while the import counts on it. */
  ghost predicate NotTakenAway(states: seq<System>, steps: seq<Step>, importer: Thread, target: Repository, n: nat)
    requires n <= |steps| < |states|
  {
    forall k :: 0 <= k < n && steps[k] == RemoveRow(target) ==> !RowNeeded(states[k], importer)
  }

  lemma {:induction false} RowStays(states: seq<System>, steps: seq<Step>, capacity: nat, lookup: nat, n: nat,
                                    importer: Thread)
    requires IsExecution(states, steps, capacity) && lookup < n < |states|
    requires steps[lookup].LookUp? && steps[lookup].thread == importer
    requires NotTakenAway(states, steps, importer, steps[lookup].target, n)
    ensures RowThere(states[n], importer) && states[n].imports[importer].target == steps[lookup].target
    decreases n
  {
    assert Next(states[n - 1], states[n], steps[n - 1], capacity);
    if lookup < n - 1 {
      RowStays(states, steps, capacity, lookup, n - 1, importer);
    }
  }

  /** An import that is done stays done with the same result. */
  lemma {:induction false} DoneStays(states: seq<System>, steps: seq<Step>, capacity: nat, m: nat, n: nat,
                                     importer: Thread)
    requires IsExecution(states, steps, capacity) && m <= n < |states|
    requires importer in states[m].imports && states[m].imports[importer].phase.Done?
    ensures importer in states[n].imports && states[n].imports[importer] == states[m].imports[importer]
    decreases n
  {
    if m < n {
      DoneStays(states, steps, capacity, m, n - 1, importer);
      assert Next(states[n - 1], states[n], steps[n - 1], capacity);
    }
  }

  ghost predicate Covered(s: System, importer: Thread) {
    importer in s.imports && (HoldsMark(s.imports[importer].phase) || s.imports[importer].phase.Done?)
  }

  /** What the guard has concluded so far, given an import of its project that succeeds in the end. */
  ghost predicate GuardOnCourse(s: System, guard: Thread, importer: Thread, project: Project) {
    && guard in s.guards && s.guards[guard].project == project
    && Covered(s, importer)
    && match s.guards[guard].phase
       case Entered => true
       case ReadingRows => s.imports[importer].phase.Done?
       case Answered(answer) => answer
  }

  lemma GuardStep(s: System, t: System, step: Step, capacity: nat, guard: Thread, importer: Thread, project: Project)
    requires Next(s, t, step, capacity) && GuardOnCourse(s, guard, importer, project)
    requires s.imports[importer].target.project == project
    requires HoldsMark(s.imports[importer].phase) ==> ActiveCount(s.active, project) > 0
    requires s.imports[importer].phase.Done? ==> s.imports[importer].target in s.rows
    ensures GuardOnCourse(t, guard, importer, project)
  {
    assert Covered(t, importer);
    if step.ReadActive? && step.thread == guard {
    } else if step.ReadRows? && step.thread == guard {
    } else {
      assert t.guards[guard] == s.guards[guard];
    }
  }

  lemma {:induction false} GuardStaysOnCourse(states: seq<System>, steps: seq<Step>, capacity: nat, lookup: nat,
                                              enter: nat, n: nat,
                                              importer: Thread, guard: Thread)
    requires IsExecution(states, steps, capacity) && lookup < enter <= n < |states|
    requires steps[lookup].LookUp? && steps[lookup].thread == importer
    requires NotTakenAway(states, steps, importer, steps[lookup].target, n)
    requires Covered(states[enter], importer)
    requires guard in states[enter].guards
    requires states[enter].guards[guard] == Guard(steps[lookup].target.project, Entered)
    requires InPhase(states[|steps|], importer, Done(true))
    ensures GuardOnCourse(states[n], guard, importer, steps[lookup].target.project)
    decreases n
  {
    if enter < n {
      hide Next, GuardOnCourse;
      GuardStaysOnCourse(states, steps, capacity, lookup, enter, n - 1, importer, guard);
      GuardKeepsCourse(states, steps, capacity, lookup, n - 1, importer, guard);
    }
  }

  lemma GuardKeepsCourse(states: seq<System>, steps: seq<Step>, capacity: nat, lookup: nat, n: nat, importer: Thread,
                         guard: Thread)
    requires IsExecution(states, steps, capacity) && lookup < n < |steps|
    requires steps[lookup].LookUp? && steps[lookup].thread == importer
    requires NotTakenAway(states, steps, importer, steps[lookup].target, n)
    requires InPhase(states[|steps|], importer, Done(true))
    requires GuardOnCourse(states[n], guard, importer, steps[lookup].target.project)
    ensures GuardOnCourse(states[n + 1], guard, importer, steps[lookup].target.project)
  {
    var s := states[n];
    assert Next(s, states[n + 1], steps[n], capacity);
    RowStays(states, steps, capacity, lookup, n, importer);
    hide Next, IsExecution;
    ExecutionKeepsCounts(states, steps, capacity, n);
    if HoldsMark(s.imports[importer].phase) {
      MarkIsCounted(s, capacity, importer);
    } else {
      DoneStays(states, steps, capacity, n, |steps|, importer);
    }
    hide CountsFit;
    GuardStep(s, states[n + 1], steps[n], capacity, guard, importer, steps[lookup].target.project);
  }

  lemma MarkIsCounted(s: System, capacity: nat, importer: Thread)
    requires CountsFit(s, capacity) && importer in s.imports && HoldsMark(s.imports[importer].phase)
    ensures ActiveCount(s.active, s.imports[importer].target.project) > 0
  {
    var marked := MarkedImports(s, s.imports[importer].target.project);
    assert importer in marked;
    assert |marked| > 0;
  }

  /**
   The deletion guard never overlooks an import: if an import that succeeds in the end is
   marked when the guard is entered, and its repository is not removed while the import counts on
   it, the guard answers that the project has repositories. A repository that was not there at the
   lookup may come and go until the import has settled.
   */
  lemma GuardSeesImport(states: seq<System>, steps: seq<Step>, capacity: nat, lookup: nat, enter: nat, n: nat,
                        importer: Thread, guard: Thread)
    requires IsExecution(states, steps, capacity) && lookup < enter <= n < |states|
    requires steps[lookup].LookUp? && steps[lookup].thread == importer
    requires NotTakenAway(states, steps, importer, steps[lookup].target, n)
    requires importer in states[enter].imports && HoldsMark(states[enter].imports[importer].phase)
    requires guard in states[enter].guards
    requires states[enter].guards[guard] == Guard(steps[lookup].target.project, Entered)
    requires InPhase(states[|steps|], importer, Done(true))
    requires guard in states[n].guards && states[n].guards[guard].phase.Answered?
    ensures states[n].guards[guard].phase.hasRepositories
  {
    GuardStaysOnCourse(states, steps, capacity, lookup, enter, n, importer, guard);
  }

  lemma Extend(states: seq<System>, steps: seq<Step>, capacity: nat, t: System, step: Step)
    requires IsExecution(states, steps, capacity) && Next(states[|steps|], t, step, capacity)
    ensures IsExecution(states + [t], steps + [step], capacity)
  {
  }

  const Tool := Repository(5, 6)

  /**
   An import finds its repository, which is then removed; the import goes on and is marked when the
   guard is entered.
   */
  lemma RemovedBeforeMark() returns (states: seq<System>, steps: seq<Step>)
    ensures IsExecution(states, steps, 1) && |states| == 6
    ensures steps == [CreateRow(Tool), LookUp(1, Tool), RemoveRow(Tool), Mark(1), EnterGuard(2, 5)]
    ensures states[5] == System(map[5 := 1], 0, {}, map[1 := Import(Tool, true, Marked)], map[2 := Guard(5, Entered)])
  {
    hide IsExecution, MarkedImports, SlotHolders, CountsFit;
    states, steps := [Initial], [];
    assert IsExecution(states, steps, 1) by { First(); }
    var s1 := Initial.(rows := {Tool});
    Extend(states, steps, 1, s1, CreateRow(Tool));
    states, steps := states + [s1], steps + [CreateRow(Tool)];
    var s2 := s1.(imports := map[1 := Import(Tool, true, Looked)]);
    Extend(states, steps, 1, s2, LookUp(1, Tool));
    states, steps := states + [s2], steps + [LookUp(1, Tool)];
    var s3 := s2.(rows := {});
    Extend(states, steps, 1, s3, RemoveRow(Tool));
    states, steps := states + [s3], steps + [RemoveRow(Tool)];
    var s4 := s3.(imports := map[1 := Import(Tool, true, Marked)], active := map[5 := 1]);
    Extend(states, steps, 1, s4, Mark(1));
    states, steps := states + [s4], steps + [Mark(1)];
    var s5 := s4.(guards := map[2 := Guard(5, Entered)]);
    Extend(states, steps, 1, s5, EnterGuard(2, 5));
    states, steps := states + [s5], steps + [EnterGuard(2, 5)];
  }

  lemma First()
    ensures IsExecution([Initial], [], 1)
  {
  }

  /** The same import then succeeds without creating a row, and its mark is cleared before the guard has read it. */
  lemma SucceedsWithoutRow() returns (states: seq<System>, steps: seq<Step>)
    ensures IsExecution(states, steps, 1) && |states| == 10 && |steps| == 9
    ensures states[5].imports == map[1 := Import(Tool, true, Marked)] && states[5].guards == map[2 := Guard(5, Entered)]
    ensures steps[5..] == [TakeSlot(1), Settle(1), ReleaseSlot(1), Unmark(1)]
    ensures states[9] == System(map[], 0, {}, map[1 := Import(Tool, true, Done(true))], map[2 := Guard(5, Entered)])
  {
    states, steps := RemovedBeforeMark();
    hide IsExecution, MarkedImports, SlotHolders, CountsFit;
    var before := steps;
    var guards := map[2 := Guard(5, Entered)];
    var a := System(map[5 := 1], 1, {}, map[1 := Import(Tool, true, InSlot)], guards);
    Extend(states, steps, 1, a, TakeSlot(1));
    states, steps := states + [a], steps + [TakeSlot(1)];
    var b := System(map[5 := 1], 1, {}, map[1 := Import(Tool, true, Settled)], guards);
    Extend(states, steps, 1, b, Settle(1));
    states, steps := states + [b], steps + [Settle(1)];
    var c := System(map[5 := 1], 0, {}, map[1 := Import(Tool, true, Releasing(true))], guards);
    Extend(states, steps, 1, c, ReleaseSlot(1));
    states, steps := states + [c], steps + [ReleaseSlot(1)];
    var d := System(map[], 0, {}, map[1 := Import(Tool, true, Done(true))], guards);
    Extend(states, steps, 1, d, Unmark(1));
    states, steps := states + [d], steps + [Unmark(1)];
    hide *;
    assert steps == before + [TakeSlot(1), Settle(1), ReleaseSlot(1), Unmark(1)];
    assert steps[|before|..] == [TakeSlot(1), Settle(1), ReleaseSlot(1), Unmark(1)];
  }

  /**
   The removal has to be excluded from the lookup on, not only while the guard runs: here the
   import was marked when the guard was entered, succeeds, nothing is removed any more, and the
   guard still answers that there is no repository.
   */
  lemma GuardMissesRepositoryRemovedAfterLookup() returns (states: seq<System>, steps: seq<Step>)
    ensures IsExecution(states, steps, 1) && |states| == 12
    ensures states[5].imports == map[1 := Import(Tool, true, Marked)] && states[5].guards == map[2 := Guard(5, Entered)]
    ensures steps[5..] == [TakeSlot(1), Settle(1), ReleaseSlot(1), Unmark(1), ReadActive(2), ReadRows(2)]
    ensures states[11].imports == map[1 := Import(Tool, true, Done(true))]
    ensures states[11].guards == map[2 := Guard(5, Answered(false))]
  {
    states, steps := SucceedsWithoutRow();
    hide IsExecution, MarkedImports, SlotHolders, CountsFit;
    var e := states[9].(guards := map[2 := Guard(5, ReadingRows)]);
    Extend(states, steps, 1, e, ReadActive(2));
    states, steps := states + [e], steps + [ReadActive(2)];
    var f := e.(guards := map[2 := Guard(5, Answered(false))]);
    Extend(states, steps, 1, f, ReadRows(2));
    states, steps := states + [f], steps + [ReadRows(2)];
  }
}
