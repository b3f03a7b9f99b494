/**
 The lifecycle protocol: preview, run and lock rows, the transactions that change them, and
 every interleaving of processes that execute previews, expire them, crash, and steal the
 locks of crashed processes.
 */
module LifecycleProtocol {
  import opened Foundation

  type Id = nat

  datatype PreviewStatus = Ready | Executing | Executed | Expired
  datatype RunStatus = Running | Completed | PartiallyCompleted | Failed
  datatype Run = Run(preview: Id, repository: Id, status: RunStatus)
  datatype Lock = Lock(run: Id, acquiredAt: int)

  datatype Db = Db(previews: map<Id, PreviewStatus>, runs: map<Id, Run>, locks: map<Id, Lock>)

  const StaleAfter := 30 * 60

  // ----- the transactions, each one atomic

  function SetPreview(db: Db, preview: Id, status: PreviewStatus): Db {
    if preview in db.previews then db.(previews := db.previews[preview := status]) else db
  }

  function CompleteRun(db: Db, run: Id, status: RunStatus): Db {
    if run in db.runs then db.(runs := db.runs[run := db.runs[run].(status := status)]) else db
  }

  predicate Stale(db: Db, repository: Id, now: int) {
    repository in db.locks && db.locks[repository].acquiredAt < now - StaleAfter
  }

  /** What taking over a stale lock does to the interrupted run and its preview. */
  function Interrupt(db: Db, run: Id): Db {
    if run !in db.runs then db
    else
      var stopped := if db.runs[run].status.Running? then CompleteRun(db, run, Failed) else db;
      var preview := db.runs[run].preview;
      if preview in stopped.previews && stopped.previews[preview].Executing?
      then SetPreview(stopped, preview, Executed) else stopped
  }

  /** `None` is the error of a lock that is held; the transaction then changes nothing. */
  function AcquireLock(db: Db, repository: Id, run: Id, now: int): Option<Db> {
    var free :=
      if Stale(db, repository, now)
      then var stopped := Interrupt(db, db.locks[repository].run); stopped.(locks := stopped.locks - {repository})
      else db;
    if repository in free.locks then None
    else Some(free.(locks := free.locks[repository := Lock(run, now)]))
  }

  function ReleaseLock(db: Db, repository: Id, run: Id): Db {
    if repository in db.locks && db.locks[repository].run == run
    then db.(locks := db.locks - {repository}) else db
  }

  function CreateRun(db: Db, run: Id, preview: Id, repository: Id): Option<Db> {
    if preview in db.previews && db.previews[preview].Ready? && run !in db.runs
    then Some(db.(previews := db.previews[preview := Executing],
                  runs := db.runs[run := Run(preview, repository, Running)]))
    else None
  }

  /** Taking over a stale lock leaves neither the run nor its preview in progress, and touches no other run. */
  lemma StealingStopsTheRun(db: Db, repository: Id, run: Id, now: int)
    requires Stale(db, repository, now)
    ensures AcquireLock(db, repository, run, now).Some?
    ensures var after := AcquireLock(db, repository, run, now).value;
            var holder := db.locks[repository].run;
            && after.locks == db.locks[repository := Lock(run, now)]
            && (holder in db.runs ==>
                  && after.runs[holder].status == (if db.runs[holder].status.Running? then Failed else db.runs[holder].status)
                  && (db.runs[holder].preview in db.previews ==> !after.previews[db.runs[holder].preview].Executing?))
            && (forall r :: r in db.runs && r != holder ==> r in after.runs && after.runs[r] == db.runs[r])
  {
  }

  /** Only the holder's release has an effect. */
  lemma ReleaseNeedsTheHolder(db: Db, repository: Id, run: Id)
    ensures ReleaseLock(db, repository, run) == db <==>
            !(repository in db.locks && db.locks[repository].run == run)
    ensures forall r :: r != repository ==> (r in db.locks <==> r in ReleaseLock(db, repository, run).locks)
  {
  }

  // ----- processes

  /** Where the process that executes a run stands. */
  datatype Phase = Acquiring | Creating | Working | Completing | Releasing

  datatype Process = Process(preview: Id, repository: Id, startedAt: int, phase: Phase)

  /** `expiring` holds previews somebody has read as ready but overdue and has not yet written back. */
  datatype System = System(now: int, db: Db, processes: map<Id, Process>, usedRuns: set<Id>, expiring: set<Id>)

  /**
   A failing write may have been written all the same. A process whose run cannot be completed releases
   its lock at once, or `marks` its preview first if the start of the run could not be audited.
   An acquisition or a release that fails looks like a process that crashes before or after it.
   */
  datatype Step =
    | Tick(amount: nat)
    | NewPreview(preview: Id)
    | ReadOverdue(preview: Id)
    | WriteExpired(preview: Id)
    | Begin(run: Id, preview: Id, repository: Id)
    | Acquire(run: Id)
    | Create(run: Id)
    | CreateFails(run: Id, written: bool)
    | Complete(run: Id, status: RunStatus)
    | CompleteFails(run: Id, status: RunStatus, written: bool, marks: bool)
    | MarkExecuted(run: Id)
    | MarkFails(run: Id, written: bool)
    | Release(run: Id)
    | Crash(run: Id)

  function Advance(s: System, run: Id, db: Db, phase: Phase): System
    requires run in s.processes
  {
    s.(db := db, processes := s.processes[run := s.processes[run].(phase := phase)])
  }

  function Leave(s: System, run: Id, db: Db): System {
    s.(db := db, processes := s.processes - {run})
  }

  predicate At(s: System, run: Id, phase: Phase) {
    run in s.processes && s.processes[run].phase == phase
  }

  ghost predicate Next(s: System, t: System, step: Step) {
    match step
    case Tick(amount) =>
      t == s.(now := s.now + amount)
    case NewPreview(preview) =>
      preview !in s.db.previews && t == s.(db := s.db.(previews := s.db.previews[preview := Ready]))
    case ReadOverdue(preview) =>
      preview in s.db.previews && s.db.previews[preview].Ready? && t == s.(expiring := s.expiring + {preview})
    case WriteExpired(preview) =>
      preview in s.expiring && t == s.(db := SetPreview(s.db, preview, Expired), expiring := s.expiring - {preview})
    case Begin(run, preview, repository) =>
      && run !in s.usedRuns
      && preview in s.db.previews && s.db.previews[preview].Ready?
      && t == s.(processes := s.processes[run := Process(preview, repository, s.now, Acquiring)],
                 usedRuns := s.usedRuns + {run})
    case Acquire(run) =>
      && At(s, run, Acquiring)
      && var p := s.processes[run];
      && var acquired := AcquireLock(s.db, p.repository, run, p.startedAt);
      && t == (if acquired.Some? then Advance(s, run, acquired.value, Creating) else Leave(s, run, s.db))
    case Create(run) =>
      && At(s, run, Creating)
      && var p := s.processes[run];
      && var created := CreateRun(s.db, run, p.preview, p.repository);
      && t == (if created.Some? then Advance(s, run, created.value, Working) else Advance(s, run, s.db, Releasing))
    case CreateFails(run, written) =>
      && At(s, run, Creating)
      && var p := s.processes[run];
      && var created := CreateRun(s.db, run, p.preview, p.repository);
      && t == Advance(s, run, if written && created.Some? then created.value else s.db, Releasing)
    case Complete(run, status) =>
      At(s, run, Working) && !status.Running? && t == Advance(s, run, CompleteRun(s.db, run, status), Completing)
    case CompleteFails(run, status, written, marks) =>
      && At(s, run, Working) && !status.Running?
      && t == Advance(s, run, if written then CompleteRun(s.db, run, status) else s.db,
                      if marks then Completing else Releasing)
    case MarkExecuted(run) =>
      At(s, run, Completing) && t == Advance(s, run, SetPreview(s.db, s.processes[run].preview, Executed), Releasing)
    case MarkFails(run, written) =>
      && At(s, run, Completing)
      && t == Advance(s, run, if written then SetPreview(s.db, s.processes[run].preview, Executed) else s.db, Releasing)
    case Release(run) =>
      At(s, run, Releasing) && t == Leave(s, run, ReleaseLock(s.db, s.processes[run].repository, run))
    case Crash(run) =>
      run in s.processes && t == Leave(s, run, s.db)
  }

  const Initial := System(0, Db(map[], map[], map[]), map[], {}, {})

  ghost predicate IsExecution(states: seq<System>, steps: seq<Step>) {
    && |states| == |steps| + 1
    && states[0] == Initial
    && forall i :: 0 <= i < |steps| ==> Next(states[i], states[i + 1], steps[i])
  }

  // ----- what every execution keeps

  /** A run consumes its preview, and no preview has two runs. */
  ghost predicate RunsConsumePreviews(s: System) {
    && (forall r :: r in s.db.runs ==>
                      && r in s.usedRuns
                      && s.db.runs[r].preview in s.db.previews
                      && !s.db.previews[s.db.runs[r].preview].Ready?)
    && (forall q, r :: q in s.db.runs && r in s.db.runs && q != r ==> s.db.runs[q].preview != s.db.runs[r].preview)
    && (forall p :: p in s.db.previews && s.db.previews[p].Executing? ==>
                      exists r :: r in s.db.runs && s.db.runs[r].preview == p)
  }

  /** What holds between the rows and one process. */
  ghost predicate ProcessFits(s: System, r: Id)
    requires r in s.processes
  {
    var p := s.processes[r];
    && r in s.usedRuns
    && p.startedAt <= s.now
    && (p.phase.Acquiring? || p.phase.Creating? ==> r !in s.db.runs)
    && (p.phase.Working? || p.phase.Completing? ==> r in s.db.runs)
    && (r in s.db.runs ==> s.db.runs[r].preview == p.preview && s.db.runs[r].repository == p.repository)
  }

  ghost predicate Bookkeeping(s: System) {
    && RunsConsumePreviews(s)
    && forall r :: r in s.processes ==> ProcessFits(s, r)
  }

  /** A change of the rows that starts nothing: runs only stop, previews are only used up. */
  ghost predicate Settles(before: Db, after: Db) {
    && after.runs.Keys == before.runs.Keys
    && (forall r :: r in before.runs ==>
                      && after.runs[r].preview == before.runs[r].preview
                      && after.runs[r].repository == before.runs[r].repository
                      && (after.runs[r].status.Running? ==> before.runs[r].status.Running?))
    && after.previews.Keys == before.previews.Keys
    && (forall p :: p in before.previews ==>
                      && (after.previews[p].Ready? ==> before.previews[p].Ready?)
                      && (after.previews[p].Executing? ==> before.previews[p].Executing?))
  }

  lemma WritesSettle(db: Db, run: Id, preview: Id, repository: Id, runStatus: RunStatus, previewStatus: PreviewStatus)
    requires !runStatus.Running? && !previewStatus.Ready? && !previewStatus.Executing?
    ensures Settles(db, CompleteRun(db, run, runStatus))
    ensures Settles(db, SetPreview(db, preview, previewStatus))
    ensures Settles(db, ReleaseLock(db, repository, run))
  {
  }

  lemma AcquireSettles(db: Db, repository: Id, run: Id, now: int)
    ensures AcquireLock(db, repository, run, now).Some? ==> Settles(db, AcquireLock(db, repository, run, now).value)
  {
    if Stale(db, repository, now) && db.locks[repository].run in db.runs {
      var holder := db.locks[repository].run;
      var stopped := if db.runs[holder].status.Running? then CompleteRun(db, holder, Failed) else db;
      WritesSettle(db, holder, 0, 0, Failed, Executed);
      WritesSettle(stopped, holder, db.runs[holder].preview, 0, Failed, Executed);
      assert Settles(db, Interrupt(db, holder));
    }
  }

  /** Settling rows keeps the bookkeeping of every process that does not itself move on. */
  lemma SettlingKeepsBookkeeping(s: System, t: System, moved: set<Id>)
    requires Bookkeeping(s) && Settles(s.db, t.db)
    requires t.now == s.now && t.usedRuns == s.usedRuns && t.processes.Keys <= s.processes.Keys
    requires forall r :: r in t.processes && r !in moved ==> t.processes[r] == s.processes[r]
    requires forall r :: r in t.processes && r in moved ==> ProcessFits(t, r)
    ensures Bookkeeping(t)
  {
    forall p | p in t.db.previews && t.db.previews[p].Executing?
      ensures exists r :: r in t.db.runs && t.db.runs[r].preview == p
    {
      var r :| r in s.db.runs && s.db.runs[r].preview == p;
      assert t.db.runs[r].preview == p;
    }
    forall r | r in t.processes && r !in moved
      ensures ProcessFits(t, r)
    {
      assert ProcessFits(s, r);
    }
  }

  /** No preview becomes ready again, and no run changes its preview. */
  ghost predicate NoReturn(s: System, t: System) {
    && (forall p :: p in s.db.previews ==> p in t.db.previews && (t.db.previews[p].Ready? ==> s.db.previews[p].Ready?))
    && (forall r :: r in s.db.runs ==> r in t.db.runs && t.db.runs[r].preview == s.db.runs[r].preview)
  }

  lemma StepKeepsBookkeeping(s: System, t: System, step: Step)
    requires Bookkeeping(s) && Next(s, t, step)
    ensures Bookkeeping(t) && NoReturn(s, t)
  {
    match step {
      case Tick(amount) => RowsUnchanged(s, t);
      case ReadOverdue(preview) => RowsUnchanged(s, t);
      case NewPreview(preview) => NewPreviewKeeps(s, t, preview);
      case Begin(run, preview, repository) => RowsUnchanged(s, t);
      case Create(run) => CreateKeeps(s, t, step);
      case CreateFails(run, written) => CreateKeeps(s, t, step);
      case _ => SettlingStepKeeps(s, t, step);
    }
  }

  lemma MovedProcessFits(s: System, t: System, step: Step)
    requires Bookkeeping(s) && Next(s, t, step)
    requires step.Acquire? || step.Complete? || step.CompleteFails? || step.MarkExecuted? || step.MarkFails?
    requires step.run in t.processes
    ensures ProcessFits(t, step.run)
  {
    assert ProcessFits(s, step.run);
    if step.Acquire? {
      AcquireSettles(s.db, s.processes[step.run].repository, step.run, s.processes[step.run].startedAt);
    }
  }

  /** The steps that only settle rows. */
  predicate Writes(step: Step) {
    || step.WriteExpired? || step.Complete? || step.CompleteFails? || step.MarkExecuted? || step.MarkFails?
    || step.Release? || step.Crash?
  }

  /** They keep the bookkeeping, and at most one process moves on. */
  lemma SettlingStepKeeps(s: System, t: System, step: Step)
    requires Bookkeeping(s) && Next(s, t, step)
    requires step.Acquire? || Writes(step)
    ensures Bookkeeping(t) && NoReturn(s, t)
  {
    if step.WriteExpired? {
      WritesSettle(s.db, 0, step.preview, 0, Failed, Expired);
      SettlingKeepsBookkeeping(s, t, {});
      return;
    }
    match step {
      case Acquire(run) =>
        AcquireSettles(s.db, s.processes[run].repository, run, s.processes[run].startedAt);
      case Complete(run, status) =>
        WritesSettle(s.db, run, 0, 0, status, Expired);
      case CompleteFails(run, status, _, _) =>
        WritesSettle(s.db, run, 0, 0, status, Expired);
      case MarkExecuted(run) =>
        WritesSettle(s.db, run, s.processes[run].preview, 0, Failed, Executed);
      case MarkFails(run, _) =>
        WritesSettle(s.db, run, s.processes[run].preview, 0, Failed, Executed);
      case Release(run) =>
        WritesSettle(s.db, run, 0, s.processes[run].repository, Failed, Expired);
      case Crash(run) =>
    }
    if step.run in t.processes {
      MovedProcessFits(s, t, step);
    }
    SettlingKeepsBookkeeping(s, t, {step.run});
  }

  lemma RowsUnchanged(s: System, t: System)
    requires Bookkeeping(s) && t.db == s.db && s.now <= t.now && s.usedRuns <= t.usedRuns
    requires forall r :: r in t.processes ==>
                           || (r in s.processes && t.processes[r] == s.processes[r])
                           || (r !in s.usedRuns && r in t.usedRuns && t.processes[r].phase.Acquiring? && t.processes[r].startedAt <= t.now)
    ensures Bookkeeping(t) && NoReturn(s, t)
  {
    forall r | r in t.processes
      ensures ProcessFits(t, r)
    {
      assert r in s.processes ==> ProcessFits(s, r);
    }
  }

  lemma NewPreviewKeeps(s: System, t: System, preview: Id)
    requires Bookkeeping(s) && Next(s, t, NewPreview(preview))
    ensures Bookkeeping(t) && NoReturn(s, t)
  {
    forall r | r in t.processes
      ensures ProcessFits(t, r)
    {
      assert ProcessFits(s, r);
    }
    forall p | p in t.db.previews && t.db.previews[p].Executing?
      ensures exists r :: r in t.db.runs && t.db.runs[r].preview == p
    {
      assert s.db.previews[p].Executing?;
    }
  }

  lemma CreateKeeps(s: System, t: System, step: Step)
    requires Bookkeeping(s) && Next(s, t, step) && (step.Create? || step.CreateFails?)
    ensures Bookkeeping(t) && NoReturn(s, t)
  {
    var run := step.run;
    assert ProcessFits(s, run);
    forall r | r in t.processes
      ensures ProcessFits(t, r)
    {
      assert ProcessFits(s, r);
      assert r != run && r in s.db.runs ==> s.db.runs[r].preview in s.db.previews;
    }
    forall p | p in t.db.previews && t.db.previews[p].Executing?
      ensures exists r :: r in t.db.runs && t.db.runs[r].preview == p
    {
      if p in s.db.previews && s.db.previews[p].Executing? {
        var r :| r in s.db.runs && s.db.runs[r].preview == p;
        assert t.db.runs[r].preview == p;
      } else {
        assert run in t.db.runs && t.db.runs[run].preview == p;
      }
    }
  }

  // ----- who owns the lock

  /** The run this step takes the lock from while its process stands between taking the lock and creating the run. */
  function Robbed(s: System, step: Step): set<Id> {
    if step.Acquire? && step.run in s.processes
       && Stale(s.db, s.processes[step.run].repository, s.processes[step.run].startedAt)
       && At(s, s.db.locks[s.processes[step.run].repository].run, Creating)
    then {s.db.locks[s.processes[step.run].repository].run} else {}
  }

  /** The run that is in progress when its own process releases the lock, because a write failed. */
  function ReleasedEarly(s: System, step: Step): set<Id> {
    if step.Release? && step.run in s.db.runs && InProgress(s.db, step.run) then {step.run} else {}
  }

  function RobbedBefore(states: seq<System>, steps: seq<Step>, n: nat): set<Id>
    requires n <= |steps| < |states|
  {
    if n == 0 then {} else RobbedBefore(states, steps, n - 1) + Robbed(states[n - 1], steps[n - 1])
  }

  function ReleasedBefore(states: seq<System>, steps: seq<Step>, n: nat): set<Id>
    requires n <= |steps| < |states|
  {
    if n == 0 then {} else ReleasedBefore(states, steps, n - 1) + ReleasedEarly(states[n - 1], steps[n - 1])
  }

  /** The runs that lost their lock in one of the two ways. */
  function LostBefore(states: seq<System>, steps: seq<Step>, n: nat): set<Id>
    requires n <= |steps| < |states|
  {
    RobbedBefore(states, steps, n) + ReleasedBefore(states, steps, n)
  }

  ghost predicate HoldsLock(s: System, lost: set<Id>, r: Id)
    requires r in s.processes
  {
    var p := s.processes[r];
    p.phase.Creating? && r !in lost ==> p.repository in s.db.locks && s.db.locks[p.repository].run == r
  }

  /** The run or its preview is in progress according to the rows. */
  predicate InProgress(db: Db, r: Id)
    requires r in db.runs
  {
    db.runs[r].status.Running? || (db.runs[r].preview in db.previews && db.previews[db.runs[r].preview].Executing?)
  }

  predicate Owns(db: Db, r: Id)
    requires r in db.runs
  {
    db.runs[r].repository in db.locks && db.locks[db.runs[r].repository].run == r
  }

  ghost predicate OwnsLock(s: System, lost: set<Id>, r: Id)
    requires r in s.db.runs
  {
    InProgress(s.db, r) && r !in lost ==> Owns(s.db, r)
  }

  /** A lock belongs to a run that did not lose it and, while its process is there, took it. */
  ghost predicate LockUsed(s: System, lost: set<Id>, k: Id)
    requires k in s.db.locks
  {
    var r := s.db.locks[k].run;
    && r in s.usedRuns && r !in lost
    && (r in s.processes ==>
          && !s.processes[r].phase.Acquiring?
          && s.processes[r].repository == k && s.db.locks[k].acquiredAt == s.processes[r].startedAt)
  }

  ghost predicate Ownership(s: System, lost: set<Id>) {
    && (forall r :: r in s.processes ==> HoldsLock(s, lost, r))
    && (forall r :: r in s.db.runs ==> OwnsLock(s, lost, r))
    && (forall k :: k in s.db.locks ==> LockUsed(s, lost, k))
    && (forall r :: r in lost ==> r in s.usedRuns && !At(s, r, Acquiring))
  }

  lemma AcquireKeepsProcesses(s: System, t: System, lost: set<Id>, run: Id)
    requires Ownership(s, lost) && Bookkeeping(s) && Next(s, t, Acquire(run))
    ensures forall r :: r in t.processes ==> HoldsLock(t, lost + Robbed(s, Acquire(run)), r)
  {
    hide OwnsLock, LockUsed, Interrupt, RunsConsumePreviews;
    var p := s.processes[run];
    if Stale(s.db, p.repository, p.startedAt) {
      StealingStopsTheRun(s.db, p.repository, run, p.startedAt);
    }
    forall r | r in t.processes
      ensures HoldsLock(t, lost + Robbed(s, Acquire(run)), r)
    {
      assert HoldsLock(s, lost, r);
    }
  }

  lemma AcquireKeepsRuns(s: System, t: System, lost: set<Id>, run: Id)
    requires Ownership(s, lost) && Bookkeeping(s) && Next(s, t, Acquire(run))
    ensures forall r :: r in t.db.runs ==> OwnsLock(t, lost + Robbed(s, Acquire(run)), r)
  {
    hide HoldsLock, LockUsed, Interrupt, RunsConsumePreviews, ProcessFits;
    var p := s.processes[run];
    AcquireSettles(s.db, p.repository, run, p.startedAt);
    if Stale(s.db, p.repository, p.startedAt) {
      StealingStopsTheRun(s.db, p.repository, run, p.startedAt);
    }
    forall r | r in t.db.runs
      ensures OwnsLock(t, lost + Robbed(s, Acquire(run)), r)
    {
      assert OwnsLock(s, lost, r);
    }
  }

  lemma AcquireKeepsOwnership(s: System, t: System, lost: set<Id>, run: Id)
    requires Ownership(s, lost) && Bookkeeping(s) && Next(s, t, Acquire(run))
    ensures Ownership(t, lost + Robbed(s, Acquire(run)))
  {
    AcquireKeepsProcesses(s, t, lost, run);
    AcquireKeepsRuns(s, t, lost, run);
    hide HoldsLock, OwnsLock, Interrupt, RunsConsumePreviews;
    var p := s.processes[run];
    assert ProcessFits(s, run);
    if Stale(s.db, p.repository, p.startedAt) {
      StealingStopsTheRun(s.db, p.repository, run, p.startedAt);
      assert LockUsed(s, lost, p.repository);
    }
    forall k | k in t.db.locks
      ensures LockUsed(t, lost + Robbed(s, Acquire(run)), k)
    {
      assert k in s.db.locks ==> LockUsed(s, lost, k);
    }
  }

  /** Rows that settle while the locks stay, or lose only the lock of a finished run, keep ownership. */
  lemma SettlingKeepsOwnership(s: System, t: System, lost: set<Id>, more: set<Id>)
    requires Ownership(s, lost) && Bookkeeping(s) && Settles(s.db, t.db) && t.usedRuns == s.usedRuns
    requires t.processes.Keys <= s.processes.Keys
    requires forall r :: r in t.processes ==>
                           && t.processes[r] == s.processes[r].(phase := t.processes[r].phase)
                           && (t.processes[r].phase.Acquiring? ==> s.processes[r].phase.Acquiring?)
                           && (t.processes[r].phase.Creating? ==> s.processes[r].phase.Creating?)
    requires forall k :: k in t.db.locks ==> k in s.db.locks && t.db.locks[k] == s.db.locks[k]
    requires forall k :: k in s.db.locks && k !in t.db.locks ==>
                           Finished(t, s.db.locks[k].run) || s.db.locks[k].run in more
    requires forall r :: r in more ==> r in s.usedRuns && r !in t.processes
    requires forall k :: k in t.db.locks ==> t.db.locks[k].run !in more
    ensures Ownership(t, lost + more)
  {
    forall r | r in t.processes
      ensures HoldsLock(t, lost + more, r)
    {
      assert HoldsLock(s, lost, r);
    }
    forall r | r in t.db.runs
      ensures OwnsLock(t, lost + more, r)
    {
      assert OwnsLock(s, lost, r);
    }
    forall k | k in t.db.locks
      ensures LockUsed(t, lost + more, k)
    {
      assert LockUsed(s, lost, k);
    }
  }

  /** Nobody works on the run any more, and neither its row nor its preview says otherwise. */
  ghost predicate Finished(s: System, r: Id) {
    r !in s.processes && (r in s.db.runs ==> !InProgress(s.db, r))
  }

  lemma CreateKeepsOwnership(s: System, t: System, lost: set<Id>, step: Step)
    requires Ownership(s, lost) && Bookkeeping(s) && Next(s, t, step) && (step.Create? || step.CreateFails?)
    ensures Ownership(t, lost)
  {
    var run := step.run;
    assert ProcessFits(s, run) && HoldsLock(s, lost, run);
    forall r | r in t.processes
      ensures HoldsLock(t, lost, r)
    {
      assert HoldsLock(s, lost, r);
    }
    forall r | r in t.db.runs
      ensures OwnsLock(t, lost, r)
    {
      assert r != run ==> OwnsLock(s, lost, r);
      assert r != run ==> s.db.runs[r].preview in s.db.previews && !s.db.previews[s.db.runs[r].preview].Ready?;
    }
    forall k | k in t.db.locks
      ensures LockUsed(t, lost, k)
    {
      assert LockUsed(s, lost, k);
    }
  }

  lemma OthersKeepOwnership(s: System, t: System, lost: set<Id>, step: Step)
    requires Ownership(s, lost) && Bookkeeping(s) && Next(s, t, step)
    requires step.Tick? || step.NewPreview? || step.ReadOverdue? || step.Begin?
    ensures Ownership(t, lost)
  {
    forall r | r in t.processes
      ensures HoldsLock(t, lost, r)
    {
      assert r in s.processes ==> HoldsLock(s, lost, r);
    }
    forall r | r in t.db.runs
      ensures OwnsLock(t, lost, r)
    {
      assert OwnsLock(s, lost, r);
      assert s.db.runs[r].preview in s.db.previews;
    }
    forall k | k in t.db.locks
      ensures LockUsed(t, lost, k)
    {
      assert LockUsed(s, lost, k);
    }
  }

  lemma WriteKeepsOwnership(s: System, t: System, lost: set<Id>, step: Step)
    requires Ownership(s, lost) && Bookkeeping(s) && Next(s, t, step) && Writes(step) && !step.Release?
    ensures Ownership(t, lost)
  {
    hide Bookkeeping, Ownership, HoldsLock, OwnsLock, LockUsed, RunsConsumePreviews, ProcessFits, InProgress, Finished;
    match step {
      case WriteExpired(preview) =>
        WritesSettle(s.db, 0, preview, 0, Failed, Expired);
      case Complete(run, status) =>
        WritesSettle(s.db, run, 0, 0, status, Expired);
      case CompleteFails(run, status, _, _) =>
        WritesSettle(s.db, run, 0, 0, status, Expired);
      case MarkExecuted(run) =>
        WritesSettle(s.db, run, s.processes[run].preview, 0, Failed, Executed);
      case MarkFails(run, _) =>
        WritesSettle(s.db, run, s.processes[run].preview, 0, Failed, Executed);
      case Crash(run) =>
    }
    SettlingKeepsOwnership(s, t, lost, {});
    assert lost + {} == lost;
  }

  lemma ReleaseKeepsOwnership(s: System, t: System, lost: set<Id>, run: Id)
    requires Ownership(s, lost) && Bookkeeping(s) && Next(s, t, Release(run))
    ensures Ownership(t, lost + ReleasedEarly(s, Release(run)))
  {
    hide HoldsLock, OwnsLock, RunsConsumePreviews;
    WritesSettle(s.db, run, 0, s.processes[run].repository, Failed, Expired);
    assert ProcessFits(s, run);
    forall k | k in t.db.locks
      ensures t.db.locks[k].run != run
    {
      assert LockUsed(s, lost, k);
    }
    SettlingKeepsOwnership(s, t, lost, ReleasedEarly(s, Release(run)));
  }

  lemma StepKeepsOwnership(s: System, t: System, lost: set<Id>, step: Step)
    requires Ownership(s, lost) && Bookkeeping(s) && Next(s, t, step)
    ensures Ownership(t, lost + Robbed(s, step) + ReleasedEarly(s, step))
  {
    assert !step.Acquire? ==> Robbed(s, step) == {};
    assert !step.Release? ==> ReleasedEarly(s, step) == {};
    var after := lost + Robbed(s, step) + ReleasedEarly(s, step);
    hide Robbed, ReleasedEarly, Ownership, Bookkeeping, Next;
    assert !step.Acquire? && !step.Release? ==> after == lost;
    assert step.Acquire? ==> after == lost + Robbed(s, step);
    assert step.Release? ==> after == lost + ReleasedEarly(s, step);
    match step {
      case Acquire(run) => AcquireKeepsOwnership(s, t, lost, run);
      case Create(run) => CreateKeepsOwnership(s, t, lost, step);
      case CreateFails(run, _) => CreateKeepsOwnership(s, t, lost, step);
      case WriteExpired(_) => WriteKeepsOwnership(s, t, lost, step);
      case Complete(_, _) => WriteKeepsOwnership(s, t, lost, step);
      case CompleteFails(_, _, _, _) => WriteKeepsOwnership(s, t, lost, step);
      case MarkExecuted(_) => WriteKeepsOwnership(s, t, lost, step);
      case MarkFails(_, _) => WriteKeepsOwnership(s, t, lost, step);
      case Crash(_) => WriteKeepsOwnership(s, t, lost, step);
      case Release(run) => ReleaseKeepsOwnership(s, t, lost, run);
      case _ => OthersKeepOwnership(s, t, lost, step);
    }
  }

  // ----- whole executions

  lemma LostMore(states: seq<System>, steps: seq<Step>, n: nat)
    requires 0 < n <= |steps| < |states|
    ensures LostBefore(states, steps, n) ==
            LostBefore(states, steps, n - 1) + Robbed(states[n - 1], steps[n - 1])
            + ReleasedEarly(states[n - 1], steps[n - 1])
  {
  }

  lemma {:induction false} ExecutionKeepsInvariants(states: seq<System>, steps: seq<Step>, n: nat)
    requires IsExecution(states, steps) && n < |states|
    ensures Bookkeeping(states[n]) && Ownership(states[n], LostBefore(states, steps, n))
    decreases n
  {
    hide Next, ProcessFits, HoldsLock, OwnsLock, LockUsed, Robbed, ReleasedEarly;
    if n > 0 {
      ExecutionKeepsInvariants(states, steps, n - 1);
      assert Next(states[n - 1], states[n], steps[n - 1]);
      StepKeepsBookkeeping(states[n - 1], states[n], steps[n - 1]);
      StepKeepsOwnership(states[n - 1], states[n], LostBefore(states, steps, n - 1), steps[n - 1]);
      LostMore(states, steps, n);
    }
  }

  /** In every execution a preview that stopped being ready never is again, and it has at most one run. */
  lemma {:induction false} PreviewIsUsedOnce(states: seq<System>, steps: seq<Step>, m: nat, n: nat)
    requires IsExecution(states, steps) && m <= n < |states|
    ensures forall p :: p in states[m].db.previews && !states[m].db.previews[p].Ready? ==>
                          p in states[n].db.previews && !states[n].db.previews[p].Ready?
    ensures forall q, r :: q in states[n].db.runs && r in states[n].db.runs && q != r ==>
                             states[n].db.runs[q].preview != states[n].db.runs[r].preview
    decreases n
  {
    hide Ownership, LostBefore, ProcessFits, Next;
    ExecutionKeepsInvariants(states, steps, n);
    if m < n {
      PreviewIsUsedOnce(states, steps, m, n - 1);
      ExecutionKeepsInvariants(states, steps, n - 1);
      StepKeepsBookkeeping(states[n - 1], states[n], steps[n - 1]);
    }
  }

  /**
   A run in progress, by its own row or by its preview's, owns its repository's lock unless it lost it
   in one of two ways, and then it does not: a take-over hit it between taking the lock and creating
   the run, or a write of its own process failed and the process released the lock all the same.
   However long it works in between, whoever takes its lock ends it first.
   */
  lemma RunningRunOwnsItsLock(states: seq<System>, steps: seq<Step>, n: nat, r: Id)
    requires IsExecution(states, steps) && n < |states|
    requires r in states[n].db.runs && InProgress(states[n].db, r)
    ensures Owns(states[n].db, r) <==> r !in LostBefore(states, steps, n)
    ensures forall q :: q in states[n].db.runs && InProgress(states[n].db, q) && q != r
                        && states[n].db.runs[q].repository == states[n].db.runs[r].repository ==>
                          q in LostBefore(states, steps, n) || r in LostBefore(states, steps, n)
  {
    var s, lost := states[n], LostBefore(states, steps, n);
    ExecutionKeepsInvariants(states, steps, n);
    assert OwnsLock(s, lost, r);
    if Owns(s.db, r) {
      assert LockUsed(s, lost, s.db.runs[r].repository);
    }
    forall q | q in s.db.runs && InProgress(s.db, q) && q != r && s.db.runs[q].repository == s.db.runs[r].repository
      ensures q in lost || r in lost
    {
      assert OwnsLock(s, lost, q);
    }
  }

  /** After a take-over, no run of the repository is in progress but those that had lost their lock before. */
  lemma TakeOverLeavesNothingRunning(states: seq<System>, steps: seq<Step>, n: nat, run: Id, r: Id)
    requires IsExecution(states, steps) && n < |steps| && steps[n] == Acquire(run)
    requires run in states[n].processes
    requires var p := states[n].processes[run]; Stale(states[n].db, p.repository, p.startedAt)
    requires r in states[n + 1].db.runs
    requires states[n + 1].db.runs[r].repository == states[n].processes[run].repository
    ensures InProgress(states[n + 1].db, r) ==> r in LostBefore(states, steps, n)
  {
    ExecutionKeepsInvariants(states, steps, n);
    ExecutionKeepsInvariants(states, steps, n + 1);
    var s, t := states[n], states[n + 1];
    var lost := LostBefore(states, steps, n + 1);
    assert Next(s, t, steps[n]);
    StealingStopsTheRun(s.db, s.processes[run].repository, run, s.processes[run].startedAt);
    AcquireSettles(s.db, s.processes[run].repository, run, s.processes[run].startedAt);
    assert ProcessFits(s, run);
    assert OwnsLock(t, lost, r);
    forall q | q in Robbed(s, steps[n])
      ensures q !in t.db.runs
    {
      assert ProcessFits(s, q);
    }
  }

  /** No process is still between taking its lock and creating its run more than thirty minutes after it began. */
  predicate InTime(s: System) {
    forall r | r in s.processes && s.processes[r].phase.Creating? :: s.now - s.processes[r].startedAt <= StaleAfter
  }

  /**
   Nobody is robbed when every process creates its run in time: then a run in progress always owns
   its repository's lock, and a repository has at most one.
   */
  lemma {:induction false} TimelyCreationIsNotRobbed(states: seq<System>, steps: seq<Step>, n: nat)
    requires IsExecution(states, steps) && n < |states|
    requires forall i :: 0 <= i < n ==> InTime(states[i])
    ensures RobbedBefore(states, steps, n) == {}
    decreases n
  {
    assert |states| == |steps| + 1;
    hide IsExecution, InTime, Robbed, RobbedBefore;
    if n > 0 {
      TimelyCreationIsNotRobbed(states, steps, n - 1);
      assert InTime(states[n - 1]);
      NobodyIsRobbedNext(states, steps, n - 1);
    }
  }

  lemma NobodyIsRobbedNext(states: seq<System>, steps: seq<Step>, n: nat)
    requires IsExecution(states, steps) && n < |steps| && InTime(states[n])
    requires RobbedBefore(states, steps, n) == {}
    ensures RobbedBefore(states, steps, n + 1) == {}
  {
    hide Next, InTime, Robbed;
    NobodyIsRobbedInTime(states, steps, n);
  }

  lemma NobodyIsRobbedInTime(states: seq<System>, steps: seq<Step>, n: nat)
    requires IsExecution(states, steps) && n < |steps| && InTime(states[n])
    ensures Robbed(states[n], steps[n]) == {}
  {
    assert Next(states[n], states[n + 1], steps[n]);
    hide Next, InTime, Robbed, Bookkeeping, Ownership;
    ExecutionKeepsInvariants(states, steps, n);
    StaleMeansLate(states[n], states[n + 1], steps[n], LostBefore(states, steps, n));
  }

  lemma StaleMeansLate(s: System, t: System, step: Step, lost: set<Id>)
    requires Bookkeeping(s) && Ownership(s, lost) && InTime(s) && Next(s, t, step)
    ensures Robbed(s, step) == {}
  {
    if step.Acquire? {
      assert ProcessFits(s, step.run);
      var repository := s.processes[step.run].repository;
      if Stale(s.db, repository, s.processes[step.run].startedAt) {
        assert LockUsed(s, lost, repository);
      }
    }
  }

  // ----- what failing writes leave behind

  predicate Fails(step: Step) {
    step.CreateFails? || step.CompleteFails? || step.MarkFails?
  }

  /** A process that has completed its run, or is about to release its lock, has ended what it started. */
  ghost predicate WoundDown(s: System, r: Id)
    requires r in s.processes
  {
    var p := s.processes[r];
    r in s.db.runs ==>
      && (p.phase.Completing? || p.phase.Releasing? ==> !s.db.runs[r].status.Running?)
      && (p.phase.Releasing? ==> !InProgress(s.db, r))
  }

  ghost predicate AllWoundDown(s: System) {
    forall r :: r in s.processes ==> WoundDown(s, r)
  }

  lemma StepKeepsWoundDown(s: System, t: System, step: Step)
    requires Bookkeeping(s) && Bookkeeping(t) && Next(s, t, step) && !Fails(step)
    requires AllWoundDown(s)
    ensures AllWoundDown(t)
  {
    forall r | r in t.processes
      ensures WoundDown(t, r)
    {
      assert ProcessFits(t, r);
      assert r in s.processes ==> WoundDown(s, r) && ProcessFits(s, r);
      if step.Acquire? {
        AcquireSettles(s.db, s.processes[step.run].repository, step.run, s.processes[step.run].startedAt);
      }
    }
  }

  /** While no write fails, no process releases the lock of a run in progress. */
  lemma {:induction false} NothingReleasedEarly(states: seq<System>, steps: seq<Step>, n: nat)
    requires IsExecution(states, steps) && n < |states|
    requires forall i :: 0 <= i < n ==> !Fails(steps[i])
    ensures ReleasedBefore(states, steps, n) == {}
    ensures AllWoundDown(states[n])
    decreases n
  {
    ExecutionIsLong(states, steps);
    assert ReleasedBefore(states, steps, 0) == {};
    hide IsExecution, AllWoundDown, Fails, ReleasedEarly, ReleasedBefore;
    if n > 0 {
      NothingReleasedEarly(states, steps, n - 1);
      NothingReleasedNext(states, steps, n - 1);
    }
  }

  lemma NothingReleasedNext(states: seq<System>, steps: seq<Step>, n: nat)
    requires IsExecution(states, steps) && n < |steps| && !Fails(steps[n])
    requires AllWoundDown(states[n]) && ReleasedBefore(states, steps, n) == {}
    ensures ReleasedBefore(states, steps, n + 1) == {}
    ensures AllWoundDown(states[n + 1])
  {
    assert Next(states[n], states[n + 1], steps[n]);
    if steps[n].Release? {
      assert WoundDown(states[n], steps[n].run);
    }
    hide Next, AllWoundDown, ReleasedEarly, Bookkeeping, Ownership;
    ExecutionKeepsInvariants(states, steps, n);
    ExecutionKeepsInvariants(states, steps, n + 1);
    StepKeepsWoundDown(states[n], states[n + 1], steps[n]);
  }

  /** When no write fails and every process creates its run in time, a repository has one run in progress at most. */
  lemma OneRunInProgress(states: seq<System>, steps: seq<Step>, n: nat, q: Id, r: Id)
    requires IsExecution(states, steps) && n < |states|
    requires forall i :: 0 <= i < n ==> InTime(states[i])
    requires forall i :: 0 <= i < n ==> !Fails(steps[i])
    requires q in states[n].db.runs && InProgress(states[n].db, q)
    requires r in states[n].db.runs && InProgress(states[n].db, r)
    requires states[n].db.runs[q].repository == states[n].db.runs[r].repository
    ensures q == r && Owns(states[n].db, r)
  {
    hide InTime, Fails, InProgress, IsExecution, AllWoundDown;
    TimelyCreationIsNotRobbed(states, steps, n);
    NothingReleasedEarly(states, steps, n);
    RunningRunOwnsItsLock(states, steps, n, r);
    RunningRunOwnsItsLock(states, steps, n, q);
  }

  /** Nobody is left who could end the run: no process works on it, and no lock leads a take-over to it. */
  ghost predicate Orphaned(s: System, r: Id) {
    && r in s.db.runs && s.db.runs[r].status.Running? && r !in s.processes && r in s.usedRuns
    && forall k :: k in s.db.locks ==> s.db.locks[k].run != r
  }

  lemma OrphanStays(s: System, t: System, step: Step, r: Id)
    requires Orphaned(s, r) && Bookkeeping(s) && Next(s, t, step)
    ensures Orphaned(t, r)
  {
    if step.Acquire? && Stale(s.db, s.processes[step.run].repository, s.processes[step.run].startedAt) {
      StealingStopsTheRun(s.db, s.processes[step.run].repository, step.run, s.processes[step.run].startedAt);
    }
  }

  /** A run whose lock was released while it was running stays running for ever. */
  lemma {:induction false} ReleasedRunRunsForever(states: seq<System>, steps: seq<Step>, m: nat, n: nat, r: Id)
    requires IsExecution(states, steps) && m < n < |states|
    requires steps[m] == Release(r) && r in states[m].db.runs && states[m].db.runs[r].status.Running?
    ensures Orphaned(states[n], r)
    decreases n
  {
    hide Bookkeeping, Ownership, Orphaned, Next;
    ExecutionKeepsInvariants(states, steps, n - 1);
    if m < n - 1 {
      ReleasedRunRunsForever(states, steps, m, n - 1, r);
      assert Next(states[n - 1], states[n], steps[n - 1]);
      OrphanStays(states[n - 1], states[n], steps[n - 1], r);
    } else {
      assert Next(states[m], states[n], steps[m]);
      ExecutionKeepsInvariants(states, steps, n);
      LostMore(states, steps, n);
      ReleasedIsOrphaned(states[m], states[n], r, LostBefore(states, steps, m));
    }
  }

  lemma ReleasedIsOrphaned(s: System, t: System, r: Id, lost: set<Id>)
    requires Bookkeeping(s) && Ownership(s, lost) && Next(s, t, Release(r))
    requires r in s.db.runs && s.db.runs[r].status.Running?
    ensures Orphaned(t, r)
  {
    assert ProcessFits(s, r);
    forall k | k in t.db.locks
      ensures t.db.locks[k].run != r
    {
      assert LockUsed(s, lost, k);
    }
  }

  lemma Extend(states: seq<System>, steps: seq<Step>, t: System, step: Step)
    requires IsExecution(states, steps) && Next(states[|steps|], t, step)
    ensures IsExecution(states + [t], steps + [step])
  {
  }

  /** A process takes the lock of repository 7 for run 10 and lingers until the lock is stale. */
  lemma LingeringProcess() returns (states: seq<System>, steps: seq<Step>)
    ensures IsExecution(states, steps)
    ensures |states| == |steps| + 1 && states[|steps|] ==
            System(StaleAfter + 1, Db(map[0 := Ready, 1 := Ready], map[], map[7 := Lock(10, 0)]),
                   map[10 := Process(0, 7, 0, Creating)], {10}, {})
    ensures forall i :: 0 <= i < |steps| ==> !Fails(steps[i])
  {
    hide IsExecution, Bookkeeping, Ownership, ProcessFits, RunsConsumePreviews, RobbedBefore;
    var db := Db(map[0 := Ready, 1 := Ready], map[], map[]);
    var locked := db.(locks := map[7 := Lock(10, 0)]);
    states, steps := [Initial], [];
    Started();
    var s1 := Initial.(db := Db(map[0 := Ready], map[], map[]));
    Extend(states, steps, s1, NewPreview(0));
    states, steps := states + [s1], steps + [NewPreview(0)];
    var s2 := Initial.(db := db);
    Extend(states, steps, s2, NewPreview(1));
    states, steps := states + [s2], steps + [NewPreview(1)];
    var s3 := s2.(processes := map[10 := Process(0, 7, 0, Acquiring)], usedRuns := {10});
    Extend(states, steps, s3, Begin(10, 0, 7));
    states, steps := states + [s3], steps + [Begin(10, 0, 7)];
    var s4 := s3.(db := locked, processes := map[10 := Process(0, 7, 0, Creating)]);
    Extend(states, steps, s4, Acquire(10));
    states, steps := states + [s4], steps + [Acquire(10)];
    var s5 := s4.(now := StaleAfter + 1);
    Extend(states, steps, s5, Tick(StaleAfter + 1));
    states, steps := states + [s5], steps + [Tick(StaleAfter + 1)];
  }

  lemma Started()
    ensures IsExecution([Initial], [])
  {
  }

  /**
   Being robbed happens: a process that lingers for more than thirty minutes between taking
   the lock and creating its run ends up running under somebody else's lock.
   */
  lemma LateProcessRunsUnlocked() returns (states: seq<System>, steps: seq<Step>)
    ensures IsExecution(states, steps)
    ensures var db := states[|steps|].db;
            && 10 in db.runs && db.runs[10] == Run(0, 7, Running)
            && 7 in db.locks && db.locks[7].run == 11
    ensures 10 in RobbedBefore(states, steps, |steps|)
  {
    states, steps := LingeringProcess();
    hide IsExecution, Bookkeeping, Ownership, ProcessFits, RunsConsumePreviews, RobbedBefore;
    var late := Process(0, 7, 0, Creating);
    var s5 := states[|steps|];
    var s6 := s5.(processes := map[10 := late, 11 := Process(1, 7, s5.now, Acquiring)], usedRuns := {10, 11});
    Extend(states, steps, s6, Begin(11, 1, 7));
    states, steps := states + [s6], steps + [Begin(11, 1, 7)];
    var s7 := s6.(db := s6.db.(locks := map[7 := Lock(11, s5.now)]),
                  processes := map[10 := late, 11 := Process(1, 7, s5.now, Creating)]);
    assert AcquireLock(s6.db, 7, 11, s5.now) == Some(s7.db);
    Extend(states, steps, s7, Acquire(11));
    states, steps := states + [s7], steps + [Acquire(11)];
    var s8 := s7.(db := s7.db.(previews := map[0 := Executing, 1 := Ready], runs := map[10 := Run(0, 7, Running)]),
                  processes := s7.processes[10 := Process(0, 7, 0, Working)]);
    Extend(states, steps, s8, Create(10));
    states, steps := states + [s8], steps + [Create(10)];
    WasRobbed(states, steps, 10);
  }

  lemma WasRobbed(states: seq<System>, steps: seq<Step>, r: Id)
    requires IsExecution(states, steps) && forall i :: 0 <= i < |steps| ==> !Fails(steps[i])
    requires var db := states[|steps|].db; r in db.runs && InProgress(db, r) && !Owns(db, r)
    ensures r in RobbedBefore(states, steps, |steps|)
  {
    hide Fails, InProgress, Owns, WoundDown, IsExecution;
    assert |states| == |steps| + 1 by {
      ExecutionIsLong(states, steps);
    }
    RunningRunOwnsItsLock(states, steps, |steps|, r);
    NothingReleasedEarly(states, steps, |steps|);
  }

  lemma ExecutionIsLong(states: seq<System>, steps: seq<Step>)
    requires IsExecution(states, steps)
    ensures |states| == |steps| + 1 && AllWoundDown(states[0])
  {
  }

  /** The other way to lose a lock: the run cannot be completed, and its lock is released all the same. */
  lemma UncompletedRunRunsUnlocked() returns (states: seq<System>, steps: seq<Step>)
    ensures IsExecution(states, steps)
    ensures steps == [NewPreview(0), Begin(10, 0, 7), Acquire(10), Create(10),
                      CompleteFails(10, Completed, false, false), Release(10)]
    ensures var db := states[|steps|].db; db.runs == map[10 := Run(0, 7, Running)] && db.locks == map[]
    ensures 10 in ReleasedBefore(states, steps, |steps|)
  {
    hide IsExecution, Bookkeeping, Ownership, ProcessFits, RunsConsumePreviews, RobbedBefore, ReleasedBefore;
    states, steps := [Initial], [];
    Started();
    var s1 := Initial.(db := Db(map[0 := Ready], map[], map[]));
    Extend(states, steps, s1, NewPreview(0));
    states, steps := states + [s1], steps + [NewPreview(0)];
    var s2 := s1.(processes := map[10 := Process(0, 7, 0, Acquiring)], usedRuns := {10});
    Extend(states, steps, s2, Begin(10, 0, 7));
    states, steps := states + [s2], steps + [Begin(10, 0, 7)];
    var s3 := s2.(db := s1.db.(locks := map[7 := Lock(10, 0)]), processes := map[10 := Process(0, 7, 0, Creating)]);
    Extend(states, steps, s3, Acquire(10));
    states, steps := states + [s3], steps + [Acquire(10)];
    var s4 := s3.(db := Db(map[0 := Executing], map[10 := Run(0, 7, Running)], map[7 := Lock(10, 0)]),
                  processes := map[10 := Process(0, 7, 0, Working)]);
    Extend(states, steps, s4, Create(10));
    states, steps := states + [s4], steps + [Create(10)];
    states, steps := ReleasedUncompleted(states, steps, s4);
  }

  lemma ReleasedUncompleted(states: seq<System>, steps: seq<Step>, s: System)
    returns (after: seq<System>, taken: seq<Step>)
    requires IsExecution(states, steps) && |states| == |steps| + 1 && states[|steps|] == s
    requires s == System(0, Db(map[0 := Executing], map[10 := Run(0, 7, Running)], map[7 := Lock(10, 0)]),
                         map[10 := Process(0, 7, 0, Working)], {10}, {})
    ensures IsExecution(after, taken) && |after| == |taken| + 1
    ensures taken == steps + [CompleteFails(10, Completed, false, false), Release(10)]
    ensures after[|taken|].db == s.db.(locks := map[])
    ensures 10 in ReleasedBefore(after, taken, |taken|)
  {
    hide IsExecution, Bookkeeping, Ownership, ProcessFits, RunsConsumePreviews, RobbedBefore;
    var failed := s.(processes := map[10 := Process(0, 7, 0, Releasing)]);
    Extend(states, steps, failed, CompleteFails(10, Completed, false, false));
    after, taken := states + [failed], steps + [CompleteFails(10, Completed, false, false)];
    var released := failed.(db := s.db.(locks := map[]), processes := map[]);
    Extend(after, taken, released, Release(10));
    after, taken := after + [released], taken + [Release(10)];
    assert after[|taken| - 1] == failed && taken[|taken| - 1] == Release(10);
  }
}
