/** Which end a compression job's row records, over whole runs; successes are in CompressionJobsSuccess. */
module CompressionJobsOutcome {
  import opened Wrappers
  import opened JobCoordinator
  import opened CompressionJobs
  import opened CompressionJobsProofs

  // ---- Every end has its reason ---------------------------------------------------------------

  ghost predicate ActsFor(s: State, step: CompressionStep, j: JobId) {
    step.Act? && step.handle in s.handles && s.handles[step.handle].job == j
  }

  /** The events after which a handle records the given end. */
  predicate Explains(event: Event, status: Status) {
    if status.Killed? then event == SpiderEnds(OutcomeCancelled)
    else
      match event
      case InputsFail => true
      case SubmitFails => true
      case SpiderFails => true
      case SpiderEnds(outcome) => outcome.OutcomeFailed?
      case Persist(fault) => !fault.NoFault?
      case StartSpider(fault) => !fault.NoFault?
      case ReadStatus(ok) => !ok
      case WriteStatus(fault) => !fault.NoFault?
      case _ => false
  }

  /** The job's handle meets such an event, or the coordinator gives the job up, which is a failure. */
  ghost predicate Reports(s: State, step: CompressionStep, j: JobId, status: Status) {
    || (ActsFor(s, step, j) && Explains(step.event, status))
    || (status.Failed? && step.Coordinate? && step.step.Skip? && step.step.job == j)
  }

  predicate HeadsFor(phase: Phase, status: Status) {
    || phase == Overwriting(status)
    || (phase.Deciding? && (if status.Killed? then phase.ended.OutcomeCancelled? else phase.ended.OutcomeFailed?))
    || (status.Failed? && phase.Reporting?)
  }

  /** The job has the end, or a handle of it is about to record it. */
  ghost predicate Heads(s: State, j: JobId, status: Status) {
    || (j in s.rows && s.rows[j].status == status)
    || exists h :: h in s.handles && s.handles[h].job == j && HeadsFor(s.handles[h].phase, status)
  }

  lemma EventHeads(row: Row, phase: Phase, event: Event, status: Status)
    requires EventEnabled(phase, event) && PhaseFits(row, phase) && (status.Killed? || status.Failed?)
    requires row.status != status && !HeadsFor(phase, status) && !Explains(event, status)
    ensures var (next, nextPhase) := HandleNext(Some(row), phase, event);
            next.Some? && next.value.status != status && (nextPhase.Some? ==> !HeadsFor(nextPhase.value, status))
  {
  }

  lemma ActHeads(s: State, h: HandleId, event: Event, j: JobId, status: Status)
    requires Inv(s) && PhasesFit(s) && h in s.handles && EventEnabled(s.handles[h].phase, event)
    requires (status.Killed? || status.Failed?) && !Heads(s, j, status) && Heads(ActOn(s, h, event), j, status)
    ensures Reports(s, Act(h, event), j, status)
  {
    ActEffect(s, h, event);
    if !Reports(s, Act(h, event), j, status) && s.handles[h].job == j {
      EventHeads(s.rows[j], s.handles[h].phase, event, status);
    }
  }

  lemma CoordinateHeads(s: State, step: Step, j: JobId, status: Status)
    requires Enabled(s, step) && (status.Killed? || status.Failed?)
    requires !Heads(s, j, status) && Heads(Apply(s, step), j, status)
    ensures Reports(s, Coordinate(step), j, status)
  {
    if j in s.rows { CoordinatorRows(s, step, j); }
  }

  lemma HeadsStep(s: CompressionState, step: CompressionStep, j: JobId, status: Status)
    requires CompressionInv(s) && CanTake(s, step) && (status.Killed? || status.Failed?)
    requires !Heads(s.core, j, status) && Heads(Take(s, step).core, j, status)
    ensures Reports(s.core, step, j, status)
  {
    match step
    case Coordinate(step) => CoordinateHeads(s.core, step, j, status);
    case Act(h, event) => ActHeads(s.core, h, event, j, status);
    case Commit(_, _) =>
  }

  lemma HeadsNext(states: seq<CompressionState>, steps: seq<CompressionStep>, i: nat, j: JobId, status: Status)
    requires IsRun(states, steps) && i < |steps| && (status.Killed? || status.Failed?)
    requires Heads(states[i + 1].core, j, status)
    ensures Heads(states[i].core, j, status) || Reports(states[i].core, steps[i], j, status)
  {
    RunKeeps(states, steps, i);
    if !Heads(states[i].core, j, status) { HeadsStep(states[i], steps[i], j, status); }
  }

  lemma NothingAtFirst(maxConcurrent: nat, j: JobId, status: Status)
    ensures !Heads(Init(maxConcurrent), j, status)
  {
  }

  lemma {:induction false} HeadsWasReported(states: seq<CompressionState>, steps: seq<CompressionStep>, i: nat,
                                            j: JobId, status: Status) returns (k: nat)
    requires IsRun(states, steps) && i < |states| && (status.Killed? || status.Failed?)
    requires Heads(states[i].core, j, status)
    ensures k < i && Reports(states[k].core, steps[k], j, status)
  {
    NothingAtFirst(states[0].core.maxConcurrent, j, status);
    HeadsNext(states, steps, i - 1, j, status);
    if Heads(states[i - 1].core, j, status) {
      k := HeadsWasReported(states, steps, i - 1, j, status);
    } else {
      k := i - 1;
    }
  }

  /** Over every run, a job is recorded as killed only after its handle heard that Spider had cancelled it,
      and as failed only after a failure of its own or after it was given up. */
  lemma EndWasReported(states: seq<CompressionState>, steps: seq<CompressionStep>, i: nat, j: JobId) returns (k: nat)
    requires IsRun(states, steps) && i < |states| && j in states[i].core.rows
    requires states[i].core.rows[j].status.Killed? || states[i].core.rows[j].status.Failed?
    ensures k < i && Reports(states[k].core, steps[k], j, states[i].core.rows[j].status)
    ensures states[i].core.rows[j].status.Killed? ==>
              ActsFor(states[k].core, steps[k], j) && steps[k].event == SpiderEnds(OutcomeCancelled)
  {
    k := HeadsWasReported(states, steps, i, j, states[i].core.rows[j].status);
  }

  // ---- Every report is recorded ---------------------------------------------------------------

  /** The end that goes with a Spider job that did not succeed. */
  function EndOf(outcome: Outcome): Status {
    if outcome.OutcomeCancelled? then Killed else Failed
  }

  /** The step is no crash, no commit of the job and no faulty access to its row by the handle. */
  predicate IsQuiet(step: CompressionStep, h: HandleId, j: JobId) {
    match step
    case Coordinate(step) => !step.Crash?
    case Act(k, event) =>
      k == h ==> event != ReadStatus(false) && (event.WriteStatus? ==> event.fault.NoFault?)
    case Commit(job, _) => job != j
  }

  /** The handle h of the job is about to record the end that goes with the outcome, or it is recorded,
      unless the job was committed before. */
  ghost predicate Settles(s: State, h: HandleId, j: JobId, outcome: Outcome, committed: bool) {
    && !s.stage.Down? && h < |s.served| && s.served[h] == j && j in s.rows
    && if h in s.handles
       then
         && s.rows[j].status.Succeeded? == committed
         && (|| s.handles[h].phase == Deciding(outcome)
             || (s.handles[h].phase == Overwriting(EndOf(outcome)) && !committed))
       else s.rows[j].status == if committed then Succeeded else EndOf(outcome)
  }

  lemma EventSettles(row: Row, phase: Phase, event: Event, outcome: Outcome, committed: bool)
    requires EventEnabled(phase, event) && row.status.Succeeded? == committed && !outcome.OutcomeSucceeded?
    requires phase == Deciding(outcome) || (phase == Overwriting(EndOf(outcome)) && !committed)
    requires event != ReadStatus(false) && (event.WriteStatus? ==> event.fault.NoFault?)
    ensures var (next, nextPhase) := HandleNext(Some(row), phase, event);
            && next.Some?
            && if nextPhase.None? then next.value.status == if committed then Succeeded else EndOf(outcome)
               else next.value == row && nextPhase.value == Overwriting(EndOf(outcome)) && !committed
  {
  }

  lemma OwnSettles(s: State, h: HandleId, event: Event, j: JobId, outcome: Outcome, committed: bool)
    requires Inv(s) && PhasesFit(s) && h in s.handles && EventEnabled(s.handles[h].phase, event)
    requires Settles(s, h, j, outcome, committed) && !outcome.OutcomeSucceeded? && IsQuiet(Act(h, event), h, j)
    ensures Settles(ActOn(s, h, event), h, j, outcome, committed)
  {
    ActEffect(s, h, event);
    assert HandleOk(s, h);
    EventSettles(s.rows[j], s.handles[h].phase, event, outcome, committed);
  }

  lemma OtherSettles(s: State, k: HandleId, event: Event, h: HandleId, j: JobId, outcome: Outcome, committed: bool)
    requires Inv(s) && PhasesFit(s) && k in s.handles && EventEnabled(s.handles[k].phase, event) && k != h
    requires Settles(s, h, j, outcome, committed)
    ensures Settles(ActOn(s, k, event), h, j, outcome, committed)
  {
    ActEffect(s, k, event);
    assert HandleOk(s, k) && s.served[k] != s.served[h];
  }

  lemma CoordinateSettles(s: State, step: Step, h: HandleId, j: JobId, outcome: Outcome, committed: bool)
    requires Inv(s) && Enabled(s, step) && !step.Crash? && Settles(s, h, j, outcome, committed)
    ensures Settles(Apply(s, step), h, j, outcome, committed)
  {
    assert s.served[h] in s.served;
    CoordinatorRows(s, step, j);
  }

  lemma SettlesStep(s: CompressionState, step: CompressionStep, h: HandleId, j: JobId, outcome: Outcome,
                    committed: bool)
    requires CompressionInv(s) && CanTake(s, step) && IsQuiet(step, h, j) && !outcome.OutcomeSucceeded?
    requires Settles(s.core, h, j, outcome, committed)
    ensures Settles(Take(s, step).core, h, j, outcome, committed)
  {
    match step
    case Coordinate(step) => CoordinateSettles(s.core, step, h, j, outcome, committed);
    case Act(k, event) =>
      if k == h {
        OwnSettles(s.core, h, event, j, outcome, committed);
      } else {
        OtherSettles(s.core, k, event, h, j, outcome, committed);
      }
    case Commit(_, _) =>
  }

  lemma ReportSettles(s: State, h: HandleId, outcome: Outcome)
    requires Inv(s) && PhasesFit(s) && h in s.handles && s.handles[h].phase.Awaiting? && !outcome.OutcomeSucceeded?
    ensures var j := s.handles[h].job;
            && j in s.rows
            && Settles(ActOn(s, h, SpiderEnds(outcome)), h, j, outcome, s.rows[j].status.Succeeded?)
  {
    ActEffect(s, h, SpiderEnds(outcome));
    assert HandleOk(s, h) && !s.stage.Down?;
  }

  lemma {:induction false} SettlesOverRuns(states: seq<CompressionState>, steps: seq<CompressionStep>, k: nat,
                                           i: nat, h: HandleId, outcome: Outcome)
    requires IsRun(states, steps) && k < i < |states| && steps[k] == Act(h, SpiderEnds(outcome))
    requires !outcome.OutcomeSucceeded? && h in states[k].core.handles
    requires forall n :: k < n < i ==> IsQuiet(steps[n], h, states[k].core.handles[h].job)
    ensures var j := states[k].core.handles[h].job;
            && j in states[k].core.rows
            && Settles(states[i].core, h, j, outcome, states[k].core.rows[j].status.Succeeded?)
    decreases i
  {
    var j := states[k].core.handles[h].job;
    if i == k + 1 {
      RunKeeps(states, steps, k);
      ReportSettles(states[k].core, h, outcome);
    } else {
      SettlesOverRuns(states, steps, k, i - 1, h, outcome);
      RunKeeps(states, steps, i - 1);
      SettlesStep(states[i - 1], steps[i - 1], h, j, outcome, states[k].core.rows[j].status.Succeeded?);
    }
  }

  /** Over every run: once a handle hears that its Spider job failed or was cancelled and then ends, without a
      crash, a later commit or a fault in between, the row is failed or killed accordingly, unless the job had
      been committed. */
  lemma ReportIsRecorded(states: seq<CompressionState>, steps: seq<CompressionStep>, k: nat, i: nat, h: HandleId,
                         outcome: Outcome)
    requires IsRun(states, steps) && k < i < |states| && steps[k] == Act(h, SpiderEnds(outcome))
    requires !outcome.OutcomeSucceeded? && h in states[k].core.handles
    requires forall n :: k < n < i ==> IsQuiet(steps[n], h, states[k].core.handles[h].job)
    requires h !in states[i].core.handles
    ensures var j := states[k].core.handles[h].job;
            && j in states[k].core.rows && j in states[i].core.rows
            && states[i].core.rows[j].status
               == if states[k].core.rows[j].status.Succeeded? then Succeeded
                  else if outcome.OutcomeCancelled? then Killed else Failed
  {
    SettlesOverRuns(states, steps, k, i, h, outcome);
  }
}
