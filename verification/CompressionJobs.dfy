/** The compression-job protocol: the coordinator's handles register Spider jobs, persist their IDs
    and only then start them; Spider's commit task publishes the archives. The row updates of a
    handle carry no guard (compression-coordinator/src/job_handle.rs, coordination.rs and
    compression_job_submitter/spider.rs, clp-tdl-package/src/task/compression/commit.rs). */
module CompressionJobs {
  import opened Wrappers
  import opened JobCoordinator

  // ---- Handles --------------------------------------------------------------------------------

  datatype Event =
    | InputsFail
    | Submit(spiderId: SpiderId)
    | SubmitFails
    | Persist(fault: Fault)
    | StartSpider(fault: Fault)
    | SpiderEnds(outcome: Outcome)
    | SpiderFails
    | ReadStatus(ok: bool)
    | WriteStatus(fault: Fault)
    | ReportFailure(fault: Fault)

  predicate EventEnabled(phase: Phase, event: Event) {
    match event
    case InputsFail => phase.Planning?
    case Submit(_) => phase.Planning?
    case SubmitFails => phase.Planning?
    case Persist(_) => phase.Submitted?
    case StartSpider(_) => phase.Driving?
    case SpiderEnds(_) => phase.Awaiting?
    case SpiderFails => phase.Awaiting?
    case ReadStatus(_) => phase.Deciding?
    case WriteStatus(_) => phase.Overwriting?
    case ReportFailure(_) => phase.Reporting?
  }

  function Updated(row: Option<Row>, fault: Fault, to: Row): Option<Row> {
    if row.None? || fault.Rejected? then row else Some(to)
  }

  function WithStatus(row: Option<Row>, fault: Fault, status: Status): Option<Row> {
    if row.None? then row else Updated(row, fault, row.value.(status := status))
  }

  function UnlessFault(fault: Fault, next: Option<Phase>): Option<Phase> {
    if fault.NoFault? then next else Some(Reporting)
  }

  /** One step of a handle on its row: the new row, and the next phase unless the handle ends. The
      status is read and overwritten in two separate steps. */
  function HandleNext(row: Option<Row>, phase: Phase, event: Event): (Option<Row>, Option<Phase>)
    requires EventEnabled(phase, event)
  {
    match event
    case InputsFail => (row, Some(Reporting))
    case Submit(spiderId) => (row, Some(Submitted(spiderId)))
    case SubmitFails => (row, Some(Reporting))
    case Persist(fault) =>
      (Updated(row, fault, Row(Running, Some(phase.spiderId), true)), UnlessFault(fault, Some(Driving(phase.spiderId))))
    case StartSpider(fault) => (row, UnlessFault(fault, Some(Awaiting(phase.spiderId))))
    case SpiderEnds(outcome) => (row, if outcome.OutcomeSucceeded? then None else Some(Deciding(outcome)))
    case SpiderFails => (row, Some(Reporting))
    case ReadStatus(ok) =>
      (row, if !ok || row.None? then Some(Reporting)
            else if row.value.status.Succeeded? then None
            else Some(Overwriting(if phase.ended.OutcomeFailed? then Failed else Killed)))
    case WriteStatus(fault) => (WithStatus(row, fault, phase.status), UnlessFault(fault, None))
    case ReportFailure(fault) => (WithStatus(row, fault, Failed), None)
  }

  function Submits(event: Event): Option<SpiderId> {
    if event.Submit? then Some(event.spiderId) else None
  }

  function Starts(phase: Phase, event: Event): Option<SpiderId>
    requires EventEnabled(phase, event)
  {
    if event.StartSpider? && !event.fault.Rejected? then Some(phase.spiderId) else None
  }

  // ---- The whole system -----------------------------------------------------------------------

  /** The shared state, and the jobs whose archives were published, in order. */
  datatype CompressionState = CompressionState(core: State, published: seq<JobId>)

  datatype CompressionStep =
    | Coordinate(step: Step)
    | Act(handle: HandleId, event: Event)
    | Commit(job: JobId, spiderId: SpiderId)

  /** The commit task of a started Spider job looks its compression job up by the Spider ID. It is the last
      task of the Spider job, which therefore succeeds only after the archives were published. */
  ghost predicate CanTake(s: CompressionState, step: CompressionStep) {
    match step
    case Coordinate(step) => Enabled(s.core, step)
    case Act(h, event) =>
      && h in s.core.handles && EventEnabled(s.core.handles[h].phase, event)
      && (event.Submit? ==> event.spiderId !in s.core.submitted)
      && (event == SpiderEnds(OutcomeSucceeded) ==> s.core.handles[h].job in s.published)
    case Commit(job, spiderId) =>
      && (exists j :: (j, spiderId) in s.core.started)
      && job in s.core.rows && s.core.rows[job].spiderId == Some(spiderId)
  }

  function NextOf(s: State, h: HandleId, event: Event): (Option<Row>, Option<Phase>)
    requires h in s.handles && EventEnabled(s.handles[h].phase, event)
  {
    HandleNext(RowOf(s, s.handles[h].job), s.handles[h].phase, event)
  }

  function ActOn(s: State, h: HandleId, event: Event): State
    requires h in s.handles && EventEnabled(s.handles[h].phase, event)
  {
    HandleStep(s, h, NextOf(s, h, event).0, NextOf(s, h, event).1, Submits(event), Starts(s.handles[h].phase, event))
  }

  /** Only a running job is committed: its archives are published and it has succeeded. */
  function CommitJob(s: CompressionState, job: JobId): CompressionState
    requires job in s.core.rows
  {
    var row := s.core.rows[job];
    if row.status.Running?
    then CompressionState(s.core.(rows := s.core.rows[job := row.(status := Succeeded)]), s.published + [job])
    else s
  }

  function Take(s: CompressionState, step: CompressionStep): CompressionState
    requires CanTake(s, step)
  {
    match step
    case Coordinate(step) => s.(core := Apply(s.core, step))
    case Act(h, event) => s.(core := ActOn(s.core, h, event))
    case Commit(job, _) => CommitJob(s, job)
  }

  // ---- The invariant --------------------------------------------------------------------------

  /** Until its Spider job is persisted a handle's row is pending; it looks at the status only if its Spider
      job did not succeed, and overwrites it only with an end. */
  predicate PhaseFits(row: Row, phase: Phase) {
    && (phase.Planning? || phase.Submitted? ==> row.status.Pending?)
    && (phase.Deciding? ==> !phase.ended.OutcomeSucceeded?)
    && (phase.Overwriting? ==> phase.status.Failed? || phase.status.Killed?)
  }

  ghost predicate PhasesFit(s: State) {
    forall h :: h in s.handles ==> s.handles[h].job in s.rows && PhaseFits(s.rows[s.handles[h].job], s.handles[h].phase)
  }

  ghost predicate BatchPending(s: State) {
    s.stage.Scheduling? ==> forall j :: j in s.batch ==> j in s.rows && s.rows[j].status.Pending?
  }

  /** What may become of a row, apart from a commit. */
  predicate RowAdvances(a: Row, b: Row) {
    && Advances(a, b)
    && (a.status.IsTerminal() ==> b.status.IsTerminal())
    && (b.status.Running? ==> a.status.Pending? || a.status.Running?)
  }

  predicate TableAdvances(a: map<JobId, Row>, b: map<JobId, Row>) {
    forall j :: j in a ==> j in b && RowAdvances(a[j], b[j])
  }

  ghost predicate PublishedOk(s: CompressionState) {
    && Distinct(s.published)
    && forall j :: j in s.published ==> j in s.core.rows && s.core.rows[j].status.IsTerminal()
  }

  ghost predicate CompressionInv(s: CompressionState) {
    Inv(s.core) && PhasesFit(s.core) && BatchPending(s.core) && PublishedOk(s)
  }

  lemma HandleRow(row: Row, phase: Phase, event: Event)
    requires EventEnabled(phase, event) && RowOk(row) && PhaseOk(row, phase) && PhaseFits(row, phase)
    ensures var (next, nextPhase) := HandleNext(Some(row), phase, event);
            && next.Some? && RowAdvances(row, next.value) && RowOk(next.value)
            && (next.value.status.Pending? ==> next.value == row)
            && (nextPhase.Some? ==> PhaseOk(next.value, nextPhase.value) && PhaseFits(next.value, nextPhase.value))
            && (Starts(phase, event).Some? ==> next.value.spiderId == Starts(phase, event))
  {
  }

  // ---- Every step keeps it --------------------------------------------------------------------

  lemma ActShape(s: State, h: HandleId, event: Event)
    requires h in s.handles && EventEnabled(s.handles[h].phase, event) && NextOf(s, h, event).0.Some?
    ensures var t := ActOn(s, h, event);
            var (next, phase) := NextOf(s, h, event);
            && t.rows == s.rows[s.handles[h].job := next.value]
            && t.handles == HandlesAfter(s.handles, h, phase)
            && t.batch == s.batch && t.stage == s.stage
            && t.submitted == s.submitted + (if event.Submit? then {event.spiderId} else {})
  {
  }

  /** What a handle's step changes. */
  lemma ActEffect(s: State, h: HandleId, event: Event)
    requires Inv(s) && PhasesFit(s) && h in s.handles && EventEnabled(s.handles[h].phase, event)
    ensures s.handles[h].job in s.rows && s.handles[h].job in s.served
    ensures RowOk(s.rows[s.handles[h].job]) && PhaseOk(s.rows[s.handles[h].job], s.handles[h].phase)
    ensures NextOf(s, h, event) == HandleNext(Some(s.rows[s.handles[h].job]), s.handles[h].phase, event)
    ensures var t := ActOn(s, h, event);
            var (next, phase) := NextOf(s, h, event);
            && next.Some? && t.rows == s.rows[s.handles[h].job := next.value] && TableAdvances(s.rows, t.rows)
            && t.handles == HandlesAfter(s.handles, h, phase)
            && t.batch == s.batch && t.stage == s.stage
            && t.submitted == s.submitted + (if event.Submit? then {event.spiderId} else {})
  {
    assert HandleOk(s, h);
    assert s.served[h] in s.served;
    HandleRow(s.rows[s.handles[h].job], s.handles[h].phase, event);
    ActShape(s, h, event);
  }

  lemma PhasesMove(s: State, t: State, h: HandleId, row: Row, phase: Option<Phase>)
    requires PhasesFit(s) && h in s.handles
    requires forall k :: k in s.handles && k != h ==> s.handles[k].job != s.handles[h].job
    requires t.rows == s.rows[s.handles[h].job := row] && t.handles == HandlesAfter(s.handles, h, phase)
    requires phase.Some? ==> PhaseFits(row, phase.value)
    ensures PhasesFit(t)
  {
  }

  lemma ActPhases(s: State, h: HandleId, event: Event)
    requires Inv(s) && PhasesFit(s) && h in s.handles && EventEnabled(s.handles[h].phase, event)
    ensures PhasesFit(ActOn(s, h, event))
  {
    ActEffect(s, h, event);
    HandleRow(s.rows[s.handles[h].job], s.handles[h].phase, event);
    forall k | k in s.handles && k != h ensures s.handles[k].job != s.handles[h].job {
      NoSharedJobs(s, k, h);
    }
    PhasesMove(s, ActOn(s, h, event), h, NextOf(s, h, event).0.value, NextOf(s, h, event).1);
  }

  lemma ActKeeps(s: State, h: HandleId, event: Event)
    requires Inv(s) && PhasesFit(s) && BatchPending(s) && h in s.handles && EventEnabled(s.handles[h].phase, event)
    ensures Inv(ActOn(s, h, event)) && PhasesFit(ActOn(s, h, event)) && BatchPending(ActOn(s, h, event))
    ensures TableAdvances(s.rows, ActOn(s, h, event).rows)
  {
    ActEffect(s, h, event);
    ActPhases(s, h, event);
    HandleRow(s.rows[s.handles[h].job], s.handles[h].phase, event);
    HandleStepKeeps(s, h, NextOf(s, h, event).0.value, NextOf(s, h, event).1,
                    Submits(event), Starts(s.handles[h].phase, event));
  }

  lemma CoordinateTable(s: State, step: Step)
    requires Enabled(s, step)
    ensures TableAdvances(s.rows, Apply(s, step).rows)
  {
    forall j | j in s.rows ensures j in Apply(s, step).rows && RowAdvances(s.rows[j], Apply(s, step).rows[j]) {
      CoordinatorRows(s, step, j);
    }
  }

  /** A coordinator's step leaves the statuses of driven jobs alone. */
  lemma DrivenRow(s: State, step: Step, h: HandleId)
    requires Inv(s) && Enabled(s, step) && h in s.handles
    ensures var job := s.handles[h].job;
            job in s.rows && job in Apply(s, step).rows && Apply(s, step).rows[job].status == s.rows[job].status
  {
    assert HandleOk(s, h) && s.served[h] in s.served;
    CoordinatorRows(s, step, s.handles[h].job);
  }

  lemma CoordinatePhases(s: State, step: Step)
    requires Inv(s) && PhasesFit(s) && BatchPending(s) && Enabled(s, step)
    ensures PhasesFit(Apply(s, step))
  {
    forall h | h in s.handles
      ensures s.handles[h].job in s.rows && s.handles[h].job in Apply(s, step).rows
           && Apply(s, step).rows[s.handles[h].job].status == s.rows[s.handles[h].job].status
    {
      DrivenRow(s, step, h);
    }
  }

  lemma CoordinateBatch(s: State, step: Step)
    requires BatchPending(s) && Enabled(s, step)
    ensures BatchPending(Apply(s, step))
  {
    forall j | j in s.rows ensures j in Apply(s, step).rows && RowAdvances(s.rows[j], Apply(s, step).rows[j]) {
      CoordinatorRows(s, step, j);
    }
  }

  lemma CoordinateKeeps(s: State, step: Step)
    requires Inv(s) && PhasesFit(s) && BatchPending(s) && Enabled(s, step)
    ensures Inv(Apply(s, step)) && PhasesFit(Apply(s, step)) && BatchPending(Apply(s, step))
    ensures TableAdvances(s.rows, Apply(s, step).rows)
  {
    CoordinatorKeeps(s, step);
    CoordinateTable(s, step);
    CoordinatePhases(s, step);
    CoordinateBatch(s, step);
  }

  lemma CommitKeeps(s: CompressionState, job: JobId)
    requires CompressionInv(s) && job in s.core.rows
    ensures CompressionInv(CommitJob(s, job)) && TableAdvances(s.core.rows, CommitJob(s, job).core.rows)
  {
    var row := s.core.rows[job];
    if row.status.Running? {
      RowChanged(s.core, job, row.(status := Succeeded));
      assert job !in s.published;
    }
  }

  lemma PublishedFrame(s: CompressionState, t: CompressionState)
    requires PublishedOk(s) && t.published == s.published && TableAdvances(s.core.rows, t.core.rows)
    ensures PublishedOk(t)
  {
  }

  lemma StepKeeps(s: CompressionState, step: CompressionStep)
    requires CompressionInv(s) && CanTake(s, step)
    ensures CompressionInv(Take(s, step)) && TableAdvances(s.core.rows, Take(s, step).core.rows)
  {
    match step
    case Coordinate(step) =>
      CoordinateKeeps(s.core, step);
      PublishedFrame(s, s.(core := Apply(s.core, step)));
    case Act(h, event) =>
      ActKeeps(s.core, h, event);
      PublishedFrame(s, s.(core := ActOn(s.core, h, event)));
    case Commit(job, _) =>
      CommitKeeps(s, job);
  }
}
