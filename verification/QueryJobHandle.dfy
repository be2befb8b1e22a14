/** One query job's handle, with cancel requests and database faults between its transactions
    (query-coordinator/src/job_handle.rs). */
module QueryJobHandle {
  import opened Wrappers
  import opened JobCoordinator
  import opened QueryJobs
  import opened QueryJobsProofs
  import opened QueryJobsProgress

  /** What happens around one transaction: whether a cancel request arrives before it, and how it ends. */
  datatype Interference = Interference(cancel: bool, fault: Fault)

  function AfterCancel(row: Row, cancel: bool): Row {
    if cancel && (row.status.Pending? || row.status.Running?) then row.(status := Cancelling) else row
  }

  /** The job's row, as this handle and the API server see it. The k-th transaction meets the k-th
      interference. */
  class JobRow {
    const around: nat -> Interference
    var row: Option<Row>
    var clock: nat

    constructor (row: Option<Row>, around: nat -> Interference)
      ensures this.row == row && this.around == around && clock == 0
    {
      this.row := row;
      this.around := around;
      clock := 0;
    }

    /** Lets a cancel request in and starts the next transaction. */
    method Begin() returns (fault: Fault)
      modifies this
      ensures clock == old(clock) + 1 && fault == around(old(clock)).fault
      ensures row.Some? <==> old(row).Some?
      ensures row.Some? ==> row.value == AfterCancel(old(row).value, around(old(clock)).cancel)
    {
      fault := around(clock).fault;
      if row.Some? { row := Some(AfterCancel(row.value, around(clock).cancel)); }
      clock := clock + 1;
    }
  }

  /** What the outside world gives a run: the number of archives to search, the submitted Spider job
      and how that job ended, each absent if asking for it failed. */
  datatype Work = Work(archives: Option<nat>, submitted: Option<SpiderId>, ended: Option<Outcome>)

  ghost predicate NoFaults(around: nat -> Interference) {
    forall k: nat :: around(k).fault.NoFault?
  }

  /** How a job that is still pending ends when the database works; the cancels are those before the first
      and the second transaction. */
  function Verdict(work: Work, cancelledFirst: bool, cancelledSecond: bool): Status {
    if work.archives.None? then Failed
    else if work.archives.value == 0 then (if cancelledFirst then Cancelled else Succeeded)
    else if work.submitted.None? then Failed
    else if cancelledFirst then Cancelled
    else Ending(work.ended, cancelledSecond)
  }

  predicate Missing(row: Option<Row>, error: Option<Error>) {
    row.None? && error == Some(RowMissing)
  }

  class QueryJobHandle {
    const table: JobRow
    /** How often this handle tried to end its job. */
    ghost var attempts: nat

    constructor (table: JobRow)
      ensures this.table == table && attempts == 0
    {
      this.table := table;
      attempts := 0;
    }

    method Start(spiderId: SpiderId) returns (error: Option<Error>)
      modifies table
      ensures table.clock == old(table.clock) + 1
      ensures old(table.row).None? ==> Missing(table.row, error)
      ensures old(table.row).Some? ==>
          var meets := table.around(old(table.clock));
          table.row.Some?
          && (table.row.value, error)
             == StartRow(AfterCancel(old(table.row).value, meets.cancel), spiderId, meets.fault)
    {
      var fault := table.Begin();
      if table.row.None? { return Some(RowMissing); }
      if fault.Rejected? { return Some(OtherError); }
      match table.row.value.status {
        case Pending =>
        case Cancelling => return Some(CancelRequested);
        case from => return Some(InvalidTransition(from));
      }
      table.row := Some(Row(Running, Some(spiderId), true));
      error := if fault.NoFault? then None else Some(OtherError);
    }

    method Terminate(outcome: Outcome) returns (error: Option<Error>)
      modifies table, this`attempts
      ensures table.clock == old(table.clock) + 1 && attempts == old(attempts) + 1
      ensures old(table.row).None? ==> Missing(table.row, error)
      ensures old(table.row).Some? ==>
          var meets := table.around(old(table.clock));
          table.row.Some?
          && (table.row.value, error)
             == TerminateRow(AfterCancel(old(table.row).value, meets.cancel), outcome, meets.fault)
    {
      attempts := attempts + 1;
      var fault := table.Begin();
      if table.row.None? { return Some(RowMissing); }
      if fault.Rejected? { return Some(OtherError); }
      var current := table.row.value.status;
      var status: Status;
      if outcome.OutcomeSucceeded? && (current.Pending? || current.Running?) {
        status := Succeeded;
      } else if outcome.OutcomeCancelled? && current.Cancelling? {
        status := Cancelled;
      } else if outcome.OutcomeSucceeded? && current.Cancelling? {
        status := Cancelled;
      } else if outcome.OutcomeFailed? && !current.IsTerminal() {
        status := Failed;
      } else {
        return Some(InvalidTransition(current));
      }
      table.row := Some(table.row.value.(status := status));
      error := if fault.NoFault? then None else Some(OtherError);
    }

    /** One more attempt to end the job, unless the error shows there is nothing to end. */
    method FinalizeOnError(error: Error)
      modifies table, this`attempts
      ensures FinalOutcome(error).None? ==> table.row == old(table.row) && attempts == old(attempts)
      ensures FinalOutcome(error).Some? ==> attempts == old(attempts) + 1
      ensures FinalOutcome(error).Some? ==> (table.row.None? <==> old(table.row).None?)
      ensures FinalOutcome(error).Some? && table.row.Some? ==>
          var meets := table.around(old(table.clock));
          table.row.value == TerminateRow(AfterCancel(old(table.row).value, meets.cancel),
                                          FinalOutcome(error).value, meets.fault).0
    {
      match error {
        case RowMissing => return;
        case InvalidTransition(from) =>
          if from.IsTerminal() { return; }
          var ignored := Terminate(OutcomeFailed);
        case CancelRequested => var ignored := Terminate(OutcomeCancelled);
        case OtherError => var ignored := Terminate(OutcomeFailed);
      }
    }

    /** Waits for the Spider job and ends the query job with its outcome. */
    method ToCompletion(ended: Option<Outcome>) returns (error: Option<Error>)
      modifies table, this`attempts
      ensures attempts <= old(attempts) + 1
      ensures ended.None? ==>
                error == Some(OtherError) && table.row == old(table.row) && table.clock == old(table.clock)
      ensures ended.Some? ==> table.clock == old(table.clock) + 1
      ensures old(table.row).None? ==> table.row.None? && error.Some?
      ensures old(table.row).Some? && ended.Some? ==>
          var meets := table.around(old(table.clock));
          table.row.Some?
          && (table.row.value, error)
             == TerminateRow(AfterCancel(old(table.row).value, meets.cancel), ended.value, meets.fault)
    {
      if ended.None? { return Some(OtherError); }
      error := Terminate(ended.value);
    }

    /** Plans, submits, starts and completes the job, up to the first error. */
    method Attempt(work: Work) returns (error: Option<Error>)
      modifies table, this`attempts
      ensures attempts <= old(attempts) + 1
      ensures old(table.row).None? ==> table.row.None? && error.Some?
      ensures old(table.row).Some? ==> table.row.Some?
      ensures old(table.row).Some? && RowOk(old(table.row).value) ==>
                RowEvolves(old(table.row).value, table.row.value) && RowOk(table.row.value)
      ensures old(table.row).Some? && error.Some? ==> FinalOk(table.row.value, Finalizing(error.value))
      ensures old(table.row).Some? && error.None? ==> table.row.value.status.IsTerminal()
      ensures old(table.row).Some? && old(table.row).value.status.Pending? && NoFaults(table.around) ==>
          var verdict :=
            Verdict(work, table.around(old(table.clock)).cancel, table.around(old(table.clock) + 1).cancel);
          if error.None? then table.row.value.status == verdict
          else !table.row.value.status.IsTerminal() && FinalOutcome(error.value).Some?
               && verdict == StatusOf(FinalOutcome(error.value).value)
    {
      if work.archives.None? { return Some(OtherError); }
      if work.archives.value == 0 {
        error := Terminate(OutcomeSucceeded);
        return;
      }
      if work.submitted.None? { return Some(OtherError); }
      error := Start(work.submitted.value);
      if error.Some? { return; }
      error := ToCompletion(work.ended);
    }

    /** Drives a new job to its end. */
    method Run(work: Work) returns (error: Option<Error>)
      modifies table, this`attempts
      ensures attempts <= old(attempts) + 2
      ensures table.row.Some? <==> old(table.row).Some?
      ensures table.row.Some? && RowOk(old(table.row).value) ==> RowEvolves(old(table.row).value, table.row.value)
      ensures table.row.Some? && NoFaults(table.around) ==> table.row.value.status.IsTerminal()
      ensures table.row.Some? && NoFaults(table.around) && old(table.row).value.status.Pending? ==>
          table.row.value.status
          == Verdict(work, table.around(old(table.clock)).cancel, table.around(old(table.clock) + 1).cancel)
    {
      error := Attempt(work);
      if error.Some? { FinalizeOnError(error.value); }
    }

    /** Drives a job that an earlier coordinator submitted. */
    method Recover(ended: Option<Outcome>) returns (error: Option<Error>)
      modifies table, this`attempts
      ensures attempts <= old(attempts) + 2
      ensures table.row.Some? <==> old(table.row).Some?
      ensures table.row.Some? && RowOk(old(table.row).value) ==> RowEvolves(old(table.row).value, table.row.value)
      ensures table.row.Some? && NoFaults(table.around) ==> table.row.value.status.IsTerminal()
      ensures table.row.Some? && NoFaults(table.around) && !old(table.row).value.status.IsTerminal() ==>
          table.row.value.status
          == Ending(ended, old(table.row).value.status.Cancelling? || table.around(old(table.clock)).cancel)
    {
      error := ToCompletion(ended);
      if error.Some? { FinalizeOnError(error.value); }
    }
  }
}
