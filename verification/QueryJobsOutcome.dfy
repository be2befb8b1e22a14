/** Which end a query job's row records, over whole runs. */
module QueryJobsOutcome {
  import opened Wrappers
  import opened JobCoordinator
  import opened QueryJobs
  import opened QueryJobsProofs

  // ---- What a row is while a handle drives its job --------------------------------------------

  /** Until a handle ends its job or meets an error, the row has not ended; until the Spider job is recorded
      the row is pending or being cancelled, and then running or being cancelled. */
  predicate Fits(row: Row, phase: Phase) {
    && (phase.Planning? || phase.Submitted? ==> row.status.Pending? || row.status.Cancelling?)
    && (phase.Driving? || phase.Awaiting? ==> row.status.Running? || row.status.Cancelling?)
    && (phase.Terminating? ==> !row.status.IsTerminal())
  }

  ghost predicate HandlesFit(s: State) {
    forall h :: h in s.handles ==> s.handles[h].job in s.rows && Fits(s.rows[s.handles[h].job], s.handles[h].phase)
  }

  /** Jobs about to get a handle are running, or pending, or being cancelled. */
  ghost predicate BatchFits(s: State) {
    forall j :: j in s.batch ==>
      && j in s.rows
      && (s.rows[j].status.Cancelling?
          || (if s.stage.Recovering? then s.rows[j].status.Running? else s.rows[j].status.Pending?))
  }

  lemma EventFits(row: Row, phase: Phase, event: Event)
    requires EventEnabled(phase, event) && Fits(row, phase)
    ensures var (next, nextPhase) := HandleNext(Some(row), phase, event);
            next.Some? && (nextPhase.Some? ==> Fits(next.value, nextPhase.value))
  {
  }

  lemma FitsMove(s: State, t: State, h: HandleId, row: Row, phase: Option<Phase>)
    requires HandlesFit(s) && BatchFits(s) && h in s.handles && s.handles[h].job !in s.batch
    requires forall k :: k in s.handles && k != h ==> s.handles[k].job != s.handles[h].job
    requires t.rows == s.rows[s.handles[h].job := row] && t.handles == HandlesAfter(s.handles, h, phase)
    requires t.batch == s.batch && t.stage == s.stage && (phase.Some? ==> Fits(row, phase.value))
    ensures HandlesFit(t) && BatchFits(t)
  {
  }

  /** A handle's job is not about to get another one. */
  lemma DrivenNotInBatch(s: State, h: HandleId)
    requires Inv(s) && h in s.handles
    ensures s.handles[h].job !in s.batch && s.handles[h].job !in s.skipped
  {
    assert HandleOk(s, h) && s.served[h] in s.served;
  }

  lemma ActFits(s: State, h: HandleId, event: Event)
    requires QueryInv(s) && HandlesFit(s) && BatchFits(s) && CanTake(s, Act(h, event))
    ensures HandlesFit(ActOn(s, h, event)) && BatchFits(ActOn(s, h, event))
  {
    ActEffect(s, h, event);
    EventFits(s.rows[s.handles[h].job], s.handles[h].phase, event);
    DrivenNotInBatch(s, h);
    forall k | k in s.handles && k != h ensures s.handles[k].job != s.handles[h].job { NoSharedJobs(s, h, k); }
    FitsMove(s, ActOn(s, h, event), h, NextOf(s, h, event).0.value, NextOf(s, h, event).1);
  }

  /** A coordinator's step leaves the statuses of driven jobs and of jobs in the batch alone. */
  lemma CoordinateStatus(s: State, step: Step, j: JobId)
    requires Inv(s) && Enabled(s, step) && j in s.rows && !(step.Skip? && step.job == j)
    ensures j in Apply(s, step).rows && Apply(s, step).rows[j].status == s.rows[j].status
  {
    CoordinatorRows(s, step, j);
  }

  lemma CoordinateFits(s: State, step: Step)
    requires QueryInv(s) && HandlesFit(s) && BatchFits(s) && Enabled(s, step)
    ensures HandlesFit(Apply(s, step)) && BatchFits(Apply(s, step))
  {
    var t := Apply(s, step);
    forall h | h in s.handles
      ensures s.handles[h].job in t.rows && t.rows[s.handles[h].job].status == s.rows[s.handles[h].job].status
    {
      DrivenNotInBatch(s, h);
      CoordinateStatus(s, step, s.handles[h].job);
    }
    forall j | j in s.rows && !(step.Skip? && step.job == j)
      ensures j in t.rows && t.rows[j].status == s.rows[j].status
    {
      CoordinateStatus(s, step, j);
    }
  }

  lemma FitsStep(s: State, step: QueryStep)
    requires QueryInv(s) && HandlesFit(s) && BatchFits(s) && CanTake(s, step)
    ensures HandlesFit(Take(s, step)) && BatchFits(Take(s, step))
  {
    match step
    case Cancel(job) =>
    case Coordinate(step) => CoordinateFits(s, step);
    case Act(h, event) => ActFits(s, h, event);
  }

  lemma {:induction false} FitsOverRuns(states: seq<State>, steps: seq<QueryStep>, i: nat)
    requires IsRun(states, steps) && i < |states|
    ensures HandlesFit(states[i]) && BatchFits(states[i])
  {
    if i > 0 {
      FitsOverRuns(states, steps, i - 1);
      RunKeeps(states, steps, i - 1);
      FitsStep(states[i - 1], steps[i - 1]);
    }
  }

  // ---- Every end has its reason ---------------------------------------------------------------

  ghost predicate ActsFor(s: State, step: QueryStep, j: JobId) {
    step.Act? && step.handle in s.handles && s.handles[step.handle].job == j
  }

  /** The job's handle finds nothing to search, or hears from Spider that the search succeeded. */
  ghost predicate ReportsSuccess(s: State, step: QueryStep, j: JobId) {
    ActsFor(s, step, j) && (step.event.PlanIsEmpty? || step.event == SpiderEnds(OutcomeSucceeded))
  }

  /** Something went wrong: planning, submitting, starting, the search itself, or a database update. */
  predicate IsFailure(event: Event) {
    match event
    case PlanFails => true
    case SubmitFails => true
    case SpiderFails => true
    case SpiderEnds(outcome) => !outcome.OutcomeSucceeded?
    case StartTx(fault) => !fault.NoFault?
    case StartSpider(fault) => !fault.NoFault?
    case TerminateTx(fault) => !fault.NoFault?
    case _ => false
  }

  /** The job's handle meets a failure, or the coordinator gives the job up. */
  ghost predicate ReportsFailure(s: State, step: QueryStep, j: JobId) {
    || (ActsFor(s, step, j) && IsFailure(step.event))
    || (step.Coordinate? && step.step.Skip? && step.step.job == j)
  }

  /** The job has the end, or a handle of it is about to record it. */
  ghost predicate Heads(s: State, j: JobId, status: Status) {
    || (j in s.rows && s.rows[j].status == status)
    || exists h :: h in s.handles && s.handles[h].job == j && HeadsFor(s.handles[h].phase, status)
  }

  predicate HeadsFor(phase: Phase, status: Status) {
    match status
    case Succeeded => phase == Terminating(OutcomeSucceeded)
    case Failed =>
      || (phase.Terminating? && !phase.outcome.OutcomeSucceeded?)
      || (phase.Finalizing? && !phase.error.CancelRequested?)
    case _ => false
  }

  /** One event of a handle: only the events named above make a success or a failure out of anything else. */
  lemma EventHeads(row: Row, phase: Phase, event: Event, status: Status)
    requires EventEnabled(phase, event) && Fits(row, phase) && (status.Succeeded? || status.Failed?)
    requires row.status != status && !HeadsFor(phase, status)
    requires if status.Succeeded? then !event.PlanIsEmpty? && event != SpiderEnds(OutcomeSucceeded)
             else !IsFailure(event)
    ensures var (next, nextPhase) := HandleNext(Some(row), phase, event);
            next.Some? && next.value.status != status && (nextPhase.Some? ==> !HeadsFor(nextPhase.value, status))
  {
  }

  ghost predicate Reports(s: State, step: QueryStep, j: JobId, status: Status) {
    if status.Succeeded? then ReportsSuccess(s, step, j) else ReportsFailure(s, step, j)
  }

  lemma ActHeads(s: State, h: HandleId, event: Event, j: JobId, status: Status)
    requires QueryInv(s) && HandlesFit(s) && CanTake(s, Act(h, event)) && (status.Succeeded? || status.Failed?)
    requires !Heads(s, j, status) && Heads(ActOn(s, h, event), j, status)
    ensures Reports(s, Act(h, event), j, status)
  {
    ActEffect(s, h, event);
    var job := s.handles[h].job;
    if !Reports(s, Act(h, event), j, status) && job == j {
      EventHeads(s.rows[j], s.handles[h].phase, event, status);
    }
  }

  lemma CoordinateHeads(s: State, step: Step, j: JobId, status: Status)
    requires QueryInv(s) && Enabled(s, step) && (status.Succeeded? || status.Failed?)
    requires !Heads(s, j, status) && Heads(Apply(s, step), j, status)
    ensures Reports(s, Coordinate(step), j, status)
  {
    if j in s.rows { CoordinatorRows(s, step, j); }
  }

  lemma HeadsStep(s: State, step: QueryStep, j: JobId, status: Status)
    requires QueryInv(s) && HandlesFit(s) && CanTake(s, step) && (status.Succeeded? || status.Failed?)
    requires !Heads(s, j, status) && Heads(Take(s, step), j, status)
    ensures Reports(s, step, j, status)
  {
    match step
    case Cancel(_) =>
    case Coordinate(step) => CoordinateHeads(s, step, j, status);
    case Act(h, event) => ActHeads(s, h, event, j, status);
  }

  lemma HeadsNext(states: seq<State>, steps: seq<QueryStep>, i: nat, j: JobId, status: Status)
    requires IsRun(states, steps) && i < |steps| && (status.Succeeded? || status.Failed?)
    requires Heads(states[i + 1], j, status)
    ensures Heads(states[i], j, status) || Reports(states[i], steps[i], j, status)
  {
    RunKeeps(states, steps, i);
    FitsOverRuns(states, steps, i);
    if !Heads(states[i], j, status) { HeadsStep(states[i], steps[i], j, status); }
  }

  lemma NothingAtFirst(maxConcurrent: nat, j: JobId, status: Status)
    ensures !Heads(Init(maxConcurrent), j, status) && !IsCancelled(Init(maxConcurrent), j)
  {
  }

  lemma {:induction false} HeadsWasReported(states: seq<State>, steps: seq<QueryStep>, i: nat, j: JobId,
                                            status: Status) returns (k: nat)
    requires IsRun(states, steps) && i < |states|
    requires (status.Succeeded? || status.Failed?) && Heads(states[i], j, status)
    ensures k < i && Reports(states[k], steps[k], j, status)
  {
    NothingAtFirst(states[0].maxConcurrent, j, status);
    HeadsNext(states, steps, i - 1, j, status);
    if Heads(states[i - 1], j, status) {
      k := HeadsWasReported(states, steps, i - 1, j, status);
    } else {
      k := i - 1;
    }
  }

  /** Over every run, a job is recorded as succeeded only after its handle found nothing to search or heard
      from Spider that the search succeeded; then the recorded Spider job was started. */
  lemma SuccessWasReported(states: seq<State>, steps: seq<QueryStep>, i: nat, j: JobId) returns (k: nat)
    requires IsRun(states, steps) && i < |states| && j in states[i].rows && states[i].rows[j].status.Succeeded?
    ensures k < i && ReportsSuccess(states[k], steps[k], j)
    ensures steps[k].event.SpiderEnds? ==>
              states[i].rows[j].spiderId.Some? && (j, states[i].rows[j].spiderId.value) in states[i].started
  {
    k := HeadsWasReported(states, steps, i, j, Succeeded);
    if steps[k].event.SpiderEnds? {
      WaitsForStarted(states, steps, k, steps[k].handle);
      AwaitsOverRuns(states, steps, k, i);
      RowsMoveForward(states, steps, k, i, j);
    }
  }

  /** Over every run, a job is recorded as failed only after a failure of its own or after it was given up. */
  lemma FailureWasReported(states: seq<State>, steps: seq<QueryStep>, i: nat, j: JobId) returns (k: nat)
    requires IsRun(states, steps) && i < |states| && j in states[i].rows && states[i].rows[j].status.Failed?
    ensures k < i && ReportsFailure(states[k], steps[k], j)
  {
    k := HeadsWasReported(states, steps, i, j, Failed);
  }

  /** The row is being cancelled or was. */
  ghost predicate IsCancelled(s: State, j: JobId) {
    j in s.rows && (s.rows[j].status.Cancelling? || s.rows[j].status.Cancelled?)
  }

  lemma EventCancels(row: Row, phase: Phase, event: Event)
    requires EventEnabled(phase, event) && !row.status.Cancelling? && !row.status.Cancelled?
    ensures var next := HandleNext(Some(row), phase, event).0;
            next.Some? && !next.value.status.Cancelling? && !next.value.status.Cancelled?
  {
  }

  lemma CancelsStep(s: State, step: QueryStep, j: JobId)
    requires QueryInv(s) && CanTake(s, step) && !IsCancelled(s, j) && IsCancelled(Take(s, step), j)
    ensures step == Cancel(j)
  {
    match step
    case Cancel(_) =>
    case Coordinate(step) => if j in s.rows { CoordinatorRows(s, step, j); }
    case Act(h, event) =>
      ActEffect(s, h, event);
      if s.handles[h].job == j { EventCancels(s.rows[j], s.handles[h].phase, event); }
  }

  lemma CancelsNext(states: seq<State>, steps: seq<QueryStep>, i: nat, j: JobId)
    requires IsRun(states, steps) && i < |steps| && IsCancelled(states[i + 1], j)
    ensures IsCancelled(states[i], j) || steps[i] == Cancel(j)
  {
    RunKeeps(states, steps, i);
    if !IsCancelled(states[i], j) { CancelsStep(states[i], steps[i], j); }
  }

  /** Over every run, a job is being cancelled or was cancelled only after the API server was asked to. */
  lemma {:induction false} CancelWasAsked(states: seq<State>, steps: seq<QueryStep>, i: nat, j: JobId) returns (k: nat)
    requires IsRun(states, steps) && i < |states| && IsCancelled(states[i], j)
    ensures k < i && steps[k] == Cancel(j)
  {
    NothingAtFirst(states[0].maxConcurrent, j, Cancelled);
    CancelsNext(states, steps, i - 1, j);
    if IsCancelled(states[i - 1], j) {
      k := CancelWasAsked(states, steps, i - 1, j);
    } else {
      k := i - 1;
    }
  }

  // ---- Every report is recorded ---------------------------------------------------------------

  /** The outcome that the event reports, if any. */
  function Reported(event: Event): Option<Outcome> {
    match event
    case PlanIsEmpty => Some(OutcomeSucceeded)
    case SpiderEnds(outcome) => Some(outcome)
    case _ => None
  }

  /** The step is no crash, no cancel of the job and no faulty update by the handle. */
  predicate IsQuiet(step: QueryStep, h: HandleId, j: JobId) {
    match step
    case Cancel(job) => job != j
    case Coordinate(step) => !step.Crash?
    case Act(k, event) => k == h ==> event != TerminateTx(Rejected) && event != TerminateTx(AppliedUnreported)
                                     && event != FinalizeTx(Rejected)
  }

  /** The handle h of the job is about to record the outcome, or to record the failure that comes of a Spider
      cancel nobody asked for, or the right end is recorded. */
  ghost predicate Settles(s: State, h: HandleId, j: JobId, outcome: Outcome, cancelled: bool) {
    && !s.stage.Down? && h < |s.served| && s.served[h] == j && j in s.rows
    && if h in s.handles
       then
         && !s.rows[j].status.IsTerminal()
         && (|| (s.handles[h].phase == Terminating(outcome) && s.rows[j].status.Cancelling? == cancelled)
             || (s.handles[h].phase.Finalizing? && FinalOutcome(s.handles[h].phase.error) == Some(OutcomeFailed)
                 && Ending(Some(outcome), cancelled).Failed?))
       else s.rows[j].status == Ending(Some(outcome), cancelled)
  }

  lemma EventSettles(row: Row, phase: Phase, event: Event, outcome: Outcome, cancelled: bool)
    requires EventEnabled(phase, event) && !row.status.IsTerminal()
    requires || (phase == Terminating(outcome) && row.status.Cancelling? == cancelled)
             || (phase.Finalizing? && FinalOutcome(phase.error) == Some(OutcomeFailed)
                 && Ending(Some(outcome), cancelled).Failed?)
    requires event.TerminateTx? ==> event.fault.NoFault?
    requires event.FinalizeTx? ==> !event.fault.Rejected?
    ensures var (next, nextPhase) := HandleNext(Some(row), phase, event);
            && next.Some?
            && if nextPhase.None? then next.value.status == Ending(Some(outcome), cancelled)
               else
                 && !next.value.status.IsTerminal() && nextPhase.value.Finalizing?
                 && FinalOutcome(nextPhase.value.error) == Some(OutcomeFailed)
                 && Ending(Some(outcome), cancelled).Failed?
  {
  }

  lemma OwnSettles(s: State, h: HandleId, event: Event, j: JobId, outcome: Outcome, cancelled: bool)
    requires QueryInv(s) && CanTake(s, Act(h, event)) && Settles(s, h, j, outcome, cancelled)
    requires IsQuiet(Act(h, event), h, j)
    ensures Settles(ActOn(s, h, event), h, j, outcome, cancelled)
  {
    ActEffect(s, h, event);
    EventSettles(s.rows[j], s.handles[h].phase, event, outcome, cancelled);
  }

  lemma OtherSettles(s: State, k: HandleId, event: Event, h: HandleId, j: JobId, outcome: Outcome, cancelled: bool)
    requires QueryInv(s) && CanTake(s, Act(k, event)) && Settles(s, h, j, outcome, cancelled) && k != h
    ensures Settles(ActOn(s, k, event), h, j, outcome, cancelled)
  {
    ActEffect(s, k, event);
    assert s.served[k] != s.served[h];
  }

  lemma CoordinateSettles(s: State, step: Step, h: HandleId, j: JobId, outcome: Outcome, cancelled: bool)
    requires QueryInv(s) && Enabled(s, step) && !step.Crash? && Settles(s, h, j, outcome, cancelled)
    ensures Settles(Apply(s, step), h, j, outcome, cancelled)
  {
    assert s.served[h] in s.served;
    CoordinateStatus(s, step, j);
  }

  lemma SettlesStep(s: State, step: QueryStep, h: HandleId, j: JobId, outcome: Outcome, cancelled: bool)
    requires QueryInv(s) && CanTake(s, step) && IsQuiet(step, h, j) && Settles(s, h, j, outcome, cancelled)
    ensures Settles(Take(s, step), h, j, outcome, cancelled)
  {
    match step
    case Cancel(_) =>
    case Coordinate(step) => CoordinateSettles(s, step, h, j, outcome, cancelled);
    case Act(k, event) =>
      if k == h {
        OwnSettles(s, h, event, j, outcome, cancelled);
      } else {
        OtherSettles(s, k, event, h, j, outcome, cancelled);
      }
  }

  lemma ReportSettles(s: State, h: HandleId, event: Event)
    requires QueryInv(s) && HandlesFit(s) && CanTake(s, Act(h, event)) && Reported(event).Some?
    ensures var j := s.handles[h].job;
            && j in s.rows
            && Settles(ActOn(s, h, event), h, j, Reported(event).value, s.rows[j].status.Cancelling?)
  {
    ActEffect(s, h, event);
    assert !s.stage.Down?;
  }

  lemma {:induction false} SettlesOverRuns(states: seq<State>, steps: seq<QueryStep>, k: nat, i: nat, h: HandleId)
    requires IsRun(states, steps) && k < i < |states| && steps[k].Act? && steps[k].handle == h
    requires Reported(steps[k].event).Some? && h in states[k].handles
    requires forall n :: k < n < i ==> IsQuiet(steps[n], h, states[k].handles[h].job)
    ensures var j := states[k].handles[h].job;
            && j in states[k].rows
            && Settles(states[i], h, j, Reported(steps[k].event).value, states[k].rows[j].status.Cancelling?)
    decreases i
  {
    var j := states[k].handles[h].job;
    if i == k + 1 {
      RunKeeps(states, steps, k);
      FitsOverRuns(states, steps, k);
      ReportSettles(states[k], h, steps[k].event);
    } else {
      SettlesOverRuns(states, steps, k, i - 1, h);
      RunKeeps(states, steps, i - 1);
      SettlesStep(states[i - 1], steps[i - 1], h, j, Reported(steps[k].event).value,
                  states[k].rows[j].status.Cancelling?);
    }
  }

  /** Over every run: once a handle reports an outcome and ends, without a crash, a later cancel or a rejected
      update in between, the row has exactly the end that goes with the outcome, given whether the job was
      being cancelled then. In particular, for a job never cancelled: success, or failure. */
  lemma ReportIsRecorded(states: seq<State>, steps: seq<QueryStep>, k: nat, i: nat, h: HandleId)
    requires IsRun(states, steps) && k < i < |states| && steps[k].Act? && steps[k].handle == h
    requires Reported(steps[k].event).Some? && h in states[k].handles
    requires forall n :: k < n < i ==> IsQuiet(steps[n], h, states[k].handles[h].job)
    requires h !in states[i].handles
    ensures var (j, outcome) := (states[k].handles[h].job, Reported(steps[k].event).value);
            && j in states[k].rows && j in states[i].rows
            && states[i].rows[j].status == Ending(Some(outcome), states[k].rows[j].status.Cancelling?)
            && ((forall n :: 0 <= n < k ==> steps[n] != Cancel(j)) ==>
                  states[i].rows[j].status == if outcome.OutcomeSucceeded? then Succeeded else Failed)
  {
    var j := states[k].handles[h].job;
    SettlesOverRuns(states, steps, k, i, h);
    if states[k].rows[j].status.Cancelling? {
      var n := CancelWasAsked(states, steps, k, j);
    }
  }
}
