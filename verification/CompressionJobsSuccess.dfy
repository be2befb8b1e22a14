/** When a compression job whose archives were published is recorded as succeeded. */
module CompressionJobsSuccess {
  import opened Wrappers
  import opened JobCoordinator
  import opened CompressionJobs
  import opened CompressionJobsProofs

  // ---- What can go wrong ----------------------------------------------------------------------

  /** The outside events that can undo a success: Spider does not confirm the start, polling Spider fails,
      the status cannot be read, the job's end is not written at once, the job is committed after its
      status was read, or a starting coordinator gives the job up. */
  datatype Cause = StartError | PollError | ReadError | WriteError | LateCommit | GivenUpInRecovery

  ghost predicate BeingOverwritten(s: State, j: JobId) {
    exists h :: h in s.handles && s.handles[h].job == j && s.handles[h].phase.Overwriting?
  }

  function CauseOfEvent(event: Event): Option<Cause> {
    match event
    case StartSpider(fault) => if fault.NoFault? then None else Some(StartError)
    case SpiderFails => Some(PollError)
    case ReadStatus(ok) => if ok then None else Some(ReadError)
    case WriteStatus(fault) => if fault.Rejected? then Some(WriteError) else None
    case _ => None
  }

  /** Which of these events the step is for the job, if any. */
  ghost function CauseOf(s: State, step: CompressionStep, j: JobId): Option<Cause> {
    match step
    case Coordinate(step) =>
      if step.Skip? && step.job == j && !step.fault.Rejected? && s.stage.Recovering? then Some(GivenUpInRecovery)
      else None
    case Act(h, event) => if h in s.handles && s.handles[h].job == j then CauseOfEvent(event) else None
    case Commit(job, _) => if job == j && BeingOverwritten(s, j) then Some(LateCommit) else None
  }

  // ---- Handles that will not undo a success ---------------------------------------------------

  /** The job's Spider job was started, so it may commit. */
  ghost predicate IsStarted(s: State, j: JobId) {
    j in s.rows && s.rows[j].spiderId.Some? && (j, s.rows[j].spiderId.value) in s.started
  }

  /** A handle about to overwrite the status finds no success, and none is to come if it reports a failure. */
  predicate Harmless(row: Row, phase: Phase, started: bool) {
    && (phase.Overwriting? ==> !row.status.Succeeded?)
    && (phase.Reporting? ==> !row.status.Succeeded? && (row.status.Running? ==> !started))
  }

  ghost predicate HandlesHarmless(s: State, j: JobId) {
    forall h :: h in s.handles && s.handles[h].job == j ==>
      j in s.rows && Harmless(s.rows[j], s.handles[h].phase, IsStarted(s, j))
  }

  /** What a handle's event does to its row and phase; `started` is whether its Spider job was started,
      `later` whether it is afterwards. */
  lemma HarmlessEvent(row: Row, phase: Phase, event: Event, started: bool, later: bool)
    requires EventEnabled(phase, event) && PhaseFits(row, phase) && Harmless(row, phase, started)
    requires CauseOfEvent(event).None? && (row.status.Pending? ==> !started)
    requires later ==> started || event.StartSpider?
    ensures var (next, nextPhase) := HandleNext(Some(row), phase, event);
            && next.Some?
            && (nextPhase.Some? ==> Harmless(next.value, nextPhase.value, later))
            && (next.value.status.Succeeded? <==> row.status.Succeeded?)
  {
  }

  /** A Spider job is started only by a start, even where its ID is first recorded in the same step. */
  lemma StartedAfter(s: State, h: HandleId, event: Event)
    requires Inv(s) && PhasesFit(s) && h in s.handles && EventEnabled(s.handles[h].phase, event)
    ensures IsStarted(ActOn(s, h, event), s.handles[h].job) ==> IsStarted(s, s.handles[h].job) || event.StartSpider?
  {
    ActEffect(s, h, event);
  }

  lemma HarmlessMove(s: State, t: State, h: HandleId, j: JobId, row: Row, phase: Option<Phase>)
    requires h in s.handles && s.handles[h].job == j && t.handles == HandlesAfter(s.handles, h, phase)
    requires forall k :: k in s.handles && k != h ==> s.handles[k].job != j
    requires j in t.rows && t.rows[j] == row && (phase.Some? ==> Harmless(row, phase.value, IsStarted(t, j)))
    ensures HandlesHarmless(t, j)
  {
  }

  lemma HarmlessOwn(s: State, h: HandleId, event: Event)
    requires Inv(s) && PhasesFit(s) && h in s.handles && EventEnabled(s.handles[h].phase, event)
    requires HandlesHarmless(s, s.handles[h].job) && CauseOfEvent(event).None?
    ensures HandlesHarmless(ActOn(s, h, event), s.handles[h].job)
    ensures var j := s.handles[h].job;
            && j in s.rows && j in ActOn(s, h, event).rows
            && (ActOn(s, h, event).rows[j].status.Succeeded? <==> s.rows[j].status.Succeeded?)
  {
    var j, t := s.handles[h].job, ActOn(s, h, event);
    ActEffect(s, h, event);
    StartedAfter(s, h, event);
    HarmlessEvent(s.rows[j], s.handles[h].phase, event, IsStarted(s, j), IsStarted(t, j));
    forall k | k in s.handles && k != h ensures s.handles[k].job != j { NoSharedJobs(s, k, h); }
    HarmlessMove(s, t, h, j, NextOf(s, h, event).0.value, NextOf(s, h, event).1);
  }

  lemma HarmlessFrame(s: State, t: State, h: HandleId, j: JobId, phase: Option<Phase>)
    requires h in s.handles && s.handles[h].job != j && t.handles == HandlesAfter(s.handles, h, phase)
    requires HandlesHarmless(s, j) && RowOf(t, j) == RowOf(s, j)
    requires forall spiderId :: (j, spiderId) in t.started ==> (j, spiderId) in s.started
    ensures HandlesHarmless(t, j)
  {
    assert IsStarted(t, j) ==> IsStarted(s, j);
  }

  lemma HarmlessOther(s: State, h: HandleId, event: Event, j: JobId)
    requires Inv(s) && PhasesFit(s) && h in s.handles && EventEnabled(s.handles[h].phase, event)
    requires HandlesHarmless(s, j) && s.handles[h].job != j
    ensures HandlesHarmless(ActOn(s, h, event), j)
    ensures RowOf(ActOn(s, h, event), j) == RowOf(s, j)
  {
    ActEffect(s, h, event);
    HarmlessFrame(s, ActOn(s, h, event), h, j, NextOf(s, h, event).1);
  }

  lemma HarmlessCoordinate(s: State, step: Step, j: JobId)
    requires Inv(s) && BatchPending(s) && Enabled(s, step) && HandlesHarmless(s, j)
    requires CauseOf(s, Coordinate(step), j).None?
    ensures HandlesHarmless(Apply(s, step), j)
    ensures j in s.rows ==>
              && j in Apply(s, step).rows
              && (Apply(s, step).rows[j].status.Succeeded? <==> s.rows[j].status.Succeeded?)
  {
    var t := Apply(s, step);
    if j in s.rows { CoordinatorRows(s, step, j); }
    if Driven(s, j) { DrivenIsServed(s, j); }
    assert IsStarted(t, j) ==> IsStarted(s, j);
  }

  lemma CommitNeedsStart(s: State, j: JobId, spiderId: SpiderId)
    requires Inv(s) && SpiderIdsOk(s) && j in s.rows && s.rows[j].spiderId == Some(spiderId)
    requires exists k :: (k, spiderId) in s.started
    ensures IsStarted(s, j)
  {
  }

  lemma HarmlessCommit(s: CompressionState, job: JobId, spiderId: SpiderId, j: JobId)
    requires CompressionInv(s) && SpiderIdsOk(s.core) && CanTake(s, Commit(job, spiderId))
    requires HandlesHarmless(s.core, j) && CauseOf(s.core, Commit(job, spiderId), j).None?
    ensures HandlesHarmless(CommitJob(s, job).core, j)
  {
    if job == j { CommitNeedsStart(s.core, j, spiderId); }
    assert IsStarted(CommitJob(s, job).core, j) == IsStarted(s.core, j);
  }

  // ---- Recorded and published -----------------------------------------------------------------

  ghost predicate Succeeds(s: CompressionState, j: JobId) {
    j in s.core.rows && s.core.rows[j].status.Succeeded?
  }

  lemma NoNewSuccess(row: Row, phase: Phase, event: Event)
    requires EventEnabled(phase, event) && PhaseFits(row, phase) && !row.status.Succeeded?
    ensures HandleNext(Some(row), phase, event).0.Some?
    ensures !HandleNext(Some(row), phase, event).0.value.status.Succeeded?
  {
  }

  lemma ActNoNewSuccess(s: State, h: HandleId, event: Event, j: JobId)
    requires Inv(s) && PhasesFit(s) && h in s.handles && EventEnabled(s.handles[h].phase, event)
    requires j in ActOn(s, h, event).rows && ActOn(s, h, event).rows[j].status.Succeeded?
    ensures j in s.rows && s.rows[j].status.Succeeded?
  {
    ActEffect(s, h, event);
    var row := s.rows[s.handles[h].job];
    if !row.status.Succeeded? { NoNewSuccess(row, s.handles[h].phase, event); }
  }

  /** No step but a commit records a success. */
  lemma SuccessIsNew(s: CompressionState, step: CompressionStep, j: JobId)
    requires CompressionInv(s) && CanTake(s, step) && Succeeds(Take(s, step), j)
    ensures Succeeds(s, j) || j in Take(s, step).published
  {
    match step
    case Coordinate(step) => if j in s.core.rows { CoordinatorRows(s.core, step, j); }
    case Act(h, event) => ActNoNewSuccess(s.core, h, event, j);
    case Commit(_, _) =>
  }

  /** Over every run, a job is recorded as succeeded only if its archives are published. */
  lemma {:induction false} SuccessIsPublished(states: seq<CompressionState>, steps: seq<CompressionStep>,
                                              k: nat, j: JobId)
    requires IsRun(states, steps) && k < |states| && Succeeds(states[k], j)
    ensures j in states[k].published
  {
    if k > 0 {
      RunKeeps(states, steps, k - 1);
      SuccessIsNew(states[k - 1], steps[k - 1], j);
      if Succeeds(states[k - 1], j) { SuccessIsPublished(states, steps, k - 1, j); }
    }
  }

  ghost predicate Stands(s: CompressionState, j: JobId) {
    HandlesHarmless(s.core, j) && (j in s.published ==> Succeeds(s, j))
  }

  lemma StandsStep(s: CompressionState, step: CompressionStep, j: JobId)
    requires CompressionInv(s) && SpiderIdsOk(s.core) && CanTake(s, step) && Stands(s, j)
    requires CauseOf(s.core, step, j).None?
    ensures Stands(Take(s, step), j)
  {
    match step
    case Coordinate(step) => HarmlessCoordinate(s.core, step, j);
    case Act(h, event) =>
      if s.core.handles[h].job == j {
        HarmlessOwn(s.core, h, event);
      } else {
        HarmlessOther(s.core, h, event, j);
      }
    case Commit(job, spiderId) => HarmlessCommit(s, job, spiderId, j);
  }

  lemma {:induction false} StandsOverRuns(states: seq<CompressionState>, steps: seq<CompressionStep>, k: nat, j: JobId)
    requires IsRun(states, steps) && k < |states|
    requires forall i :: 0 <= i < k ==> CauseOf(states[i].core, steps[i], j).None?
    ensures Stands(states[k], j)
  {
    if k > 0 {
      StandsOverRuns(states, steps, k - 1, j);
      RunKeeps(states, steps, k - 1);
      IdsOverRuns(states, steps, k - 1);
      StandsStep(states[k - 1], steps[k - 1], j);
    }
  }

  /** Over every run in which none of the causes befalls the job, it is recorded as succeeded exactly if its
      archives are published. */
  lemma SuccessStands(states: seq<CompressionState>, steps: seq<CompressionStep>, k: nat, j: JobId)
    requires IsRun(states, steps) && k < |states|
    requires forall i :: 0 <= i < k ==> CauseOf(states[i].core, steps[i], j).None?
    ensures Succeeds(states[k], j) <==> j in states[k].published
  {
    StandsOverRuns(states, steps, k, j);
    if Succeeds(states[k], j) { SuccessIsPublished(states, steps, k, j); }
  }
}
