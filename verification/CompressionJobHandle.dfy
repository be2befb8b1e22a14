/** One compression job's handle, with the commit task and database faults between its updates
    (compression-coordinator/src/job_handle.rs). */
module CompressionJobHandle {
  import opened Wrappers
  import opened JobCoordinator
  import opened CompressionJobs

  /** What happens around one database operation: whether the commit task runs before it, and how it ends. */
  datatype Interference = Interference(commits: bool, fault: Fault)

  function AfterCommit(row: Row, commits: bool): Row {
    if commits && row.status.Running? then row.(status := Succeeded) else row
  }

  /** What the outside world gives a run: whether the inputs and tables are ready, the registered Spider job,
      whether its commit task came to run, and how the job ended; the Spider job and its end are absent if
      asking for them failed. */
  datatype Work = Work(ready: bool, submitted: Option<SpiderId>, committed: bool, ended: Option<Outcome>)

  /** The commit task is the last task of the Spider job and refuses a job that is not running: without a
      recorded success the Spider job cannot have succeeded. */
  function Observed(row: Row, committed: bool, ended: Option<Outcome>): Option<Outcome> {
    if ended == Some(OutcomeSucceeded) && !(committed && row.status.Succeeded?) then Some(OutcomeFailed) else ended
  }

  ghost predicate NoFaults(around: nat -> Interference) {
    forall k: nat :: around(k).fault.NoFault?
  }

  /** How a job ends when the database works. A commit that came before the status was read wins over a
      failed or cancelled Spider job, but not over an error; a Spider job that succeeded was committed. */
  function Verdict(work: Work, committedBeforeRead: bool): Status {
    if !work.ready || work.submitted.None? || work.ended.None? then Failed
    else if work.committed || committedBeforeRead then Succeeded
    else if work.ended.value.OutcomeCancelled? then Killed
    else Failed
  }

  class CompressionJobHandle {
    const around: nat -> Interference
    var row: Row
    var clock: nat
    /** The Spider jobs that this handle asked Spider to start. */
    ghost var started: set<SpiderId>

    constructor (row: Row, around: nat -> Interference)
      ensures this.row == row && this.around == around && clock == 0 && started == {}
    {
      this.row, this.around, clock, started := row, around, 0, {};
    }

    /** Whatever this handle had started is the Spider job that the row records. */
    ghost predicate StartsOnlyRecorded()
      reads this
    {
      forall id :: id in started ==> row.spiderId == Some(id)
    }

    /** Lets the commit task in and starts the next operation. */
    method Begin() returns (fault: Fault)
      modifies this`row, this`clock
      ensures clock == old(clock) + 1 && fault == around(old(clock)).fault
      ensures row == AfterCommit(old(row), around(old(clock)).commits)
    {
      fault := around(clock).fault;
      row := AfterCommit(row, around(clock).commits);
      clock := clock + 1;
    }

    /** Records the Spider job and marks the job as running; what it was before is not looked at. */
    method PersistSpiderJobId(spiderId: SpiderId) returns (ok: bool)
      modifies this`row, this`clock
      ensures clock == old(clock) + 1 && (ok <==> around(old(clock)).fault.NoFault?)
      ensures row == if around(old(clock)).fault.Rejected? then AfterCommit(old(row), around(old(clock)).commits)
                     else Row(Running, Some(spiderId), true)
    {
      var fault := Begin();
      if !fault.Rejected? { row := Row(Running, Some(spiderId), true); }
      ok := fault.NoFault?;
    }

    /** Overwrites the status, whatever it was. */
    method UpdateJobStatus(status: Status) returns (ok: bool)
      modifies this`row, this`clock
      ensures clock == old(clock) + 1 && (ok <==> around(old(clock)).fault.NoFault?)
      ensures row == var met := AfterCommit(old(row), around(old(clock)).commits);
                     if around(old(clock)).fault.Rejected? then met else met.(status := status)
    {
      var fault := Begin();
      if !fault.Rejected? { row := row.(status := status); }
      ok := fault.NoFault?;
    }

    method GetJobStatus() returns (status: Option<Status>)
      modifies this`row, this`clock
      ensures clock == old(clock) + 1 && row == AfterCommit(old(row), around(old(clock)).commits)
      ensures status == if around(old(clock)).fault.NoFault? then Some(row.status) else None
    {
      var fault := Begin();
      status := if fault.NoFault? then Some(row.status) else None;
    }

    /** Starts the Spider job, waits for it and records its end, unless a commit already did. */
    method ToCompletion(spiderId: SpiderId, committed: bool, ended: Option<Outcome>) returns (ok: bool)
      requires row.spiderId == Some(spiderId) && StartsOnlyRecorded()
      modifies this
      ensures StartsOnlyRecorded() && started == old(started) + {spiderId}
      ensures RowAdvances(old(row), row) && row.spiderId == old(row.spiderId) && (ok ==> row.status.IsTerminal())
      ensures old(row.status).Running? && committed && ended == Some(OutcomeSucceeded) ==> ok && row.status.Succeeded?
      ensures NoFaults(around) ==> (ok <==> ended.Some?)
      ensures NoFaults(around) && ended.Some? && old(row.status).Running? ==>
                row.status == Verdict(Work(true, Some(spiderId), committed, ended), around(old(clock)).commits)
    {
      started := started + {spiderId};
      row := AfterCommit(row, committed);
      var outcome := Observed(row, committed, ended);
      if outcome.None? { return false; }
      if outcome.value.OutcomeSucceeded? { return true; }
      var status := GetJobStatus();
      if status.None? { return false; }
      if status.value.Succeeded? { return true; }
      ok := UpdateJobStatus(if outcome.value.OutcomeFailed? then Failed else Killed);
    }

    /** Registers a Spider job, persists its ID and only then starts it. */
    method SubmitAndWait(work: Work) returns (ok: bool)
      requires row.status.Pending? && RowOk(row) && started == {}
      modifies this
      ensures StartsOnlyRecorded() && RowAdvances(old(row), row) && (ok ==> row.status.IsTerminal())
      ensures started == {} || (work.submitted.Some? && started == {work.submitted.value})
      ensures started != {} && work.committed && work.ended == Some(OutcomeSucceeded) ==> ok && row.status.Succeeded?
      ensures NoFaults(around) ==> (ok <==> work.ready && work.submitted.Some? && work.ended.Some?)
      ensures NoFaults(around) && ok ==> row.status == Verdict(work, around(old(clock) + 1).commits)
    {
      if !work.ready || work.submitted.None? { return false; }
      ok := PersistSpiderJobId(work.submitted.value);
      if !ok { return; }
      ok := ToCompletion(work.submitted.value, work.committed, work.ended);
    }

    /** Drives a new job to its end; an error is reported as a failure, whatever the status is. A started
        Spider job that succeeds leaves a succeeded job, whatever happens to the database. */
    method Run(work: Work) returns (ok: bool)
      requires row.status.Pending? && RowOk(row) && started == {}
      modifies this
      ensures StartsOnlyRecorded() && RowAdvances(old(row), row) && (ok ==> row.status.IsTerminal())
      ensures started == {} || (work.submitted.Some? && started == {work.submitted.value})
      ensures started != {} && work.committed && work.ended == Some(OutcomeSucceeded) ==> ok && row.status.Succeeded?
      ensures NoFaults(around) ==> row.status == Verdict(work, around(old(clock) + 1).commits)
    {
      ok := SubmitAndWait(work);
      if !ok { var ignored := UpdateJobStatus(Failed); }
    }

    /** Drives a job that an earlier coordinator submitted. */
    method Recover(spiderId: SpiderId, committed: bool, ended: Option<Outcome>) returns (ok: bool)
      requires row.spiderId == Some(spiderId) && started == {}
      modifies this
      ensures StartsOnlyRecorded() && RowAdvances(old(row), row) && started == {spiderId}
      ensures ok ==> row.status.IsTerminal()
      ensures old(row.status).Running? && committed && ended == Some(OutcomeSucceeded) ==> ok && row.status.Succeeded?
      ensures NoFaults(around) && old(row.status).Running? ==>
                row.status == Verdict(Work(true, Some(spiderId), committed, ended), around(old(clock)).commits)
    {
      ok := ToCompletion(spiderId, committed, ended);
      if !ok { var ignored := UpdateJobStatus(Failed); }
    }
  }
}
