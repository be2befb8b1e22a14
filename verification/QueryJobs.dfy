/** The query-job protocol: the rows that the API server, the coordinator and detached job handles
    update, with crashes and restarts (query-coordinator/src/job_handle.rs, api-server/src/client.rs). */
module QueryJobs {
  import opened Wrappers
  import opened JobCoordinator

  // ---- Updates of one row ---------------------------------------------------------------------

  function StatusOf(outcome: Outcome): Status {
    match outcome
    case OutcomeSucceeded => Succeeded
    case OutcomeFailed => Failed
    case OutcomeCancelled => Cancelled
  }

  /** The status that an outcome puts a locked row into, if the row's status permits it. */
  function Resolve(outcome: Outcome, current: Status): Option<Status> {
    match (outcome, current)
    case (OutcomeSucceeded, Pending) => Some(Succeeded)
    case (OutcomeSucceeded, Running) => Some(Succeeded)
    case (OutcomeCancelled, Cancelling) => Some(Cancelled)
    case (OutcomeSucceeded, Cancelling) => Some(Cancelled)
    case (OutcomeFailed, from) => if from.IsTerminal() then None else Some(Failed)
    case _ => None
  }

  function TerminateRow(row: Row, outcome: Outcome, fault: Fault): (Row, Option<Error>) {
    if fault.Rejected? then (row, Some(OtherError))
    else
      match Resolve(outcome, row.status)
      case None => (row, Some(InvalidTransition(row.status)))
      case Some(status) => (row.(status := status), if fault.NoFault? then None else Some(OtherError))
  }

  function StartRow(row: Row, spiderId: SpiderId, fault: Fault): (Row, Option<Error>) {
    if fault.Rejected? then (row, Some(OtherError))
    else
      match row.status
      case Pending => (Row(Running, Some(spiderId), true), if fault.NoFault? then None else Some(OtherError))
      case Cancelling => (row, Some(CancelRequested))
      case from => (row, Some(InvalidTransition(from)))
  }

  /** The outcome with which a failed handle still tries to end the job, if any. */
  function FinalOutcome(error: Error): Option<Outcome> {
    match error
    case RowMissing => None
    case InvalidTransition(from) => if from.IsTerminal() then None else Some(OutcomeFailed)
    case CancelRequested => Some(OutcomeCancelled)
    case OtherError => Some(OutcomeFailed)
  }

  /** How a started job ends when the database works: a failure wins over a cancel, a cancel wins over a
      success, and a Spider cancel that nobody asked for is a failure. */
  function Ending(ended: Option<Outcome>, cancelled: bool): Status {
    if ended.None? || ended.value.OutcomeFailed? then Failed
    else if cancelled then Cancelled
    else if ended.value.OutcomeSucceeded? then Succeeded
    else Failed
  }

  // ---- Handles --------------------------------------------------------------------------------

  datatype Event =
    | PlanIsEmpty
    | PlanFails
    | Submit(spiderId: SpiderId)
    | SubmitFails
    | StartTx(fault: Fault)
    | StartSpider(fault: Fault)
    | SpiderEnds(outcome: Outcome)
    | SpiderFails
    | TerminateTx(fault: Fault)
    | FinalizeTx(fault: Fault)

  predicate EventEnabled(phase: Phase, event: Event) {
    match event
    case PlanIsEmpty => phase.Planning?
    case PlanFails => phase.Planning?
    case Submit(_) => phase.Planning?
    case SubmitFails => phase.Planning?
    case StartTx(_) => phase.Submitted?
    case StartSpider(_) => phase.Driving?
    case SpiderEnds(_) => phase.Awaiting?
    case SpiderFails => phase.Awaiting?
    case TerminateTx(_) => phase.Terminating?
    case FinalizeTx(_) => phase.Finalizing?
  }

  function OnError(error: Option<Error>, otherwise: Option<Phase>): Option<Phase> {
    if error.None? then otherwise else Some(Finalizing(error.value))
  }

  /** One step of a handle on its row: the new row, and the next phase unless the handle ends. */
  function HandleNext(row: Option<Row>, phase: Phase, event: Event): (Option<Row>, Option<Phase>)
    requires EventEnabled(phase, event)
  {
    match event
    case PlanIsEmpty => (row, Some(Terminating(OutcomeSucceeded)))
    case PlanFails => (row, Some(Finalizing(OtherError)))
    case Submit(spiderId) => (row, Some(Submitted(spiderId)))
    case SubmitFails => (row, Some(Finalizing(OtherError)))
    case StartTx(fault) =>
      if row.None? then (row, Some(Finalizing(RowMissing)))
      else
        var (newRow, error) := StartRow(row.value, phase.spiderId, fault);
        (Some(newRow), OnError(error, Some(Driving(phase.spiderId))))
    case StartSpider(fault) =>
      (row, Some(if fault.NoFault? then Awaiting(phase.spiderId) else Finalizing(OtherError)))
    case SpiderEnds(outcome) => (row, Some(Terminating(outcome)))
    case SpiderFails => (row, Some(Finalizing(OtherError)))
    case TerminateTx(fault) =>
      if row.None? then (row, Some(Finalizing(RowMissing)))
      else
        var (newRow, error) := TerminateRow(row.value, phase.outcome, fault);
        (Some(newRow), OnError(error, None))
    case FinalizeTx(fault) =>
      if row.None? || FinalOutcome(phase.error).None? then (row, None)
      else (Some(TerminateRow(row.value, FinalOutcome(phase.error).value, fault).0), None)
  }

  // ---- The whole system -----------------------------------------------------------------------

  datatype QueryStep =
    | Cancel(job: JobId)
    | Coordinate(step: Step)
    | Act(handle: HandleId, event: Event)

  /** The API server cancels only pending and running jobs. */
  predicate CanTake(s: State, step: QueryStep) {
    match step
    case Cancel(job) => job in s.rows && (s.rows[job].status.Pending? || s.rows[job].status.Running?)
    case Coordinate(step) => Enabled(s, step)
    case Act(h, event) =>
      && h in s.handles && EventEnabled(s.handles[h].phase, event)
      && (event.Submit? ==> event.spiderId !in s.submitted)
  }

  function NextOf(s: State, h: HandleId, event: Event): (Option<Row>, Option<Phase>)
    requires h in s.handles && EventEnabled(s.handles[h].phase, event)
  {
    HandleNext(RowOf(s, s.handles[h].job), s.handles[h].phase, event)
  }

  function Submits(event: Event): Option<SpiderId> {
    if event.Submit? then Some(event.spiderId) else None
  }

  function Starts(phase: Phase, event: Event): Option<SpiderId>
    requires EventEnabled(phase, event)
  {
    if event.StartSpider? && !event.fault.Rejected? then Some(phase.spiderId) else None
  }

  function ActOn(s: State, h: HandleId, event: Event): State
    requires h in s.handles && EventEnabled(s.handles[h].phase, event)
  {
    HandleStep(s, h, NextOf(s, h, event).0, NextOf(s, h, event).1, Submits(event), Starts(s.handles[h].phase, event))
  }

  function Take(s: State, step: QueryStep): State
    requires CanTake(s, step)
  {
    match step
    case Cancel(job) => s.(rows := s.rows[job := s.rows[job].(status := Cancelling)])
    case Coordinate(step) => Apply(s, step)
    case Act(h, event) => ActOn(s, h, event)
  }
}
