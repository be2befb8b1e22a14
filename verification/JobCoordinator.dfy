/** What the query and the compression coordinator share: a table of job rows, a coordinator that
    fetches rows, spawns handles under a limited number of permits and marks what it dispatched,
    Spider, and crashes with restarts (query-coordinator/src/coordination.rs and
    compression-coordinator/src/coordination.rs). */
module JobCoordinator {
  import opened Wrappers

  type JobId = nat
  type SpiderId = nat
  type HandleId = nat

  // ---- Rows and handles -----------------------------------------------------------------------

  datatype Status = Pending | Running | Succeeded | Failed | Cancelling | Cancelled | Killed {
    predicate IsTerminal() {
      Succeeded? || Failed? || Cancelled? || Killed?
    }
  }

  datatype Row = Row(status: Status, spiderId: Option<SpiderId>, dispatched: bool)

  /** How a Spider job ended. */
  datatype Outcome = OutcomeSucceeded | OutcomeFailed | OutcomeCancelled

  datatype Error = CancelRequested | InvalidTransition(from: Status) | RowMissing | OtherError

  /** How a database update ends: reported, not applied and reported as an error, or applied and yet
      reported as an error. */
  datatype Fault = NoFault | Rejected | AppliedUnreported

  /** Where a handle is. The last two lines are the ways a query-job handle and a compression-job
      handle end their jobs. */
  datatype Phase =
    | Planning
    | Submitted(spiderId: SpiderId)
    | Driving(spiderId: SpiderId)
    | Awaiting(spiderId: SpiderId)
    | Terminating(outcome: Outcome) | Finalizing(error: Error)
    | Deciding(ended: Outcome) | Overwriting(status: Status) | Reporting

  /** A live handle; one that was scheduled (rather than recovered) holds a permit. */
  datatype Handle = Handle(job: JobId, scheduled: bool, phase: Phase)

  // ---- The coordinator ------------------------------------------------------------------------

  datatype Stage = Down | Recovering | Polling | Scheduling(first: bool) | Sleeping

  /** The job table, Spider, and one coordinator with its handles.
      `batch` holds the fetched jobs that still await a handle and `toMark` those to mark as dispatched.
      `served` lists, for the coordinator's lifetime, the job of every handle spawned, in order: the
      handle with ID h drives job served[h]. `skipped` holds jobs given up without a handle. */
  datatype State = State(
    rows: map<JobId, Row>,
    submitted: set<SpiderId>,
    started: set<(JobId, SpiderId)>,
    stage: Stage,
    isFirstFetch: bool,
    snapshot: map<JobId, SpiderId>,
    batch: set<JobId>,
    toMark: set<JobId>,
    skipped: set<JobId>,
    served: seq<JobId>,
    handles: map<HandleId, Handle>,
    available: nat,
    maxConcurrent: nat
  )

  datatype Step =
    | Insert(job: JobId)
    | Boot
    | Crash
    | FinishRecovery
    | Fetch(chosen: set<JobId>)
    | Skip(job: JobId, fault: Fault)
    | Spawn(job: JobId)
    | FinishScheduling
    | MarkDispatched

  function Init(maxConcurrent: nat): State {
    State(map[], {}, {}, Down, true, map[], {}, {}, {}, [], map[], maxConcurrent, maxConcurrent)
  }

  /** Running rows with a Spider job: what a new coordinator recovers. */
  function Recoverable(rows: map<JobId, Row>): map<JobId, SpiderId> {
    map j | j in rows && rows[j].status.Running? && rows[j].spiderId.Some? :: rows[j].spiderId.value
  }

  /** Pending rows that a fetch selects: the dispatched ones the first time, then the others. */
  function Fetchable(rows: map<JobId, Row>, dispatched: bool): set<JobId> {
    set j | j in rows && rows[j].status.Pending? && rows[j].dispatched == dispatched
  }

  /** The rows with the lowest IDs, at most `limit` of them. */
  predicate IsLowest(chosen: set<JobId>, eligible: set<JobId>, limit: nat) {
    && chosen <= eligible
    && |chosen| == (if |eligible| < limit then |eligible| else limit)
    && forall a, b :: a in chosen && b in eligible - chosen ==> a < b
  }

  predicate Enabled(s: State, step: Step) {
    match step
    case Insert(job) => job !in s.rows
    case Boot => s.stage.Down?
    case Crash => !s.stage.Down?
    case FinishRecovery => s.stage.Recovering? && s.batch == {}
    case Fetch(chosen) =>
      && s.stage.Polling? && s.available > 0
      && if s.isFirstFetch then chosen == Fetchable(s.rows, true)
         else IsLowest(chosen, Fetchable(s.rows, false), s.available)
    case Skip(job, _) => (s.stage.Recovering? || s.stage.Scheduling?) && job in s.batch
    case Spawn(job) =>
      && job in s.batch
      && (s.stage.Recovering? ==> job in s.snapshot)
      && (s.stage.Recovering? || (s.stage.Scheduling? && s.available > 0))
    case FinishScheduling => s.stage.Scheduling? && s.batch == {}
    case MarkDispatched => s.stage.Sleeping?
  }

  /** A crash ends the coordinator and all its handles. Skipping a job marks its row as failed,
      whatever its status, unless that update is rejected or left out. */
  function Apply(s: State, step: Step): State
    requires Enabled(s, step)
  {
    match step
    case Insert(job) => s.(rows := s.rows[job := Row(Pending, None, false)])
    case Boot =>
      s.(stage := Recovering, isFirstFetch := true, snapshot := Recoverable(s.rows),
         batch := Recoverable(s.rows).Keys, toMark := {}, skipped := {}, served := [], handles := map[],
         available := s.maxConcurrent)
    case Crash => s.(stage := Down, batch := {}, toMark := {}, skipped := {}, served := [], handles := map[])
    case FinishRecovery => s.(stage := Polling)
    case Fetch(chosen) =>
      s.(stage := Scheduling(s.isFirstFetch), isFirstFetch := false, batch := chosen, toMark := chosen)
    case Skip(job, fault) =>
      s.(batch := s.batch - {job}, skipped := s.skipped + {job},
         rows := if fault.Rejected? || job !in s.rows then s.rows
                 else s.rows[job := s.rows[job].(status := Failed)])
    case Spawn(job) =>
      s.(batch := s.batch - {job}, served := s.served + [job],
         handles := s.handles[|s.served| :=
           if s.stage.Recovering? then Handle(job, false, Driving(s.snapshot[job]))
           else Handle(job, true, Planning)],
         available := if s.stage.Recovering? then s.available else s.available - 1)
    case FinishScheduling => s.(stage := Sleeping)
    case MarkDispatched =>
      s.(stage := Polling, toMark := {},
         rows := map j | j in s.rows :: if j in s.toMark then s.rows[j].(dispatched := true) else s.rows[j])
  }

  lemma SubsetOfSameSize(a: set<JobId>, b: set<JobId>)
    requires a <= b && |a| == |b|
    ensures a == b
  {
    assert |b - a| == |b| - |a|;
    assert b == a + (b - a);
  }

  /** The first fetch takes exactly the dispatched pending jobs; a later one takes undispatched ones, and passes
      one over only if every permit is spoken for by jobs with lower IDs. */
  lemma FetchIsGreedy(s: State, chosen: set<JobId>, j: JobId)
    requires Enabled(s, Fetch(chosen)) && j in s.rows && s.rows[j].status.Pending?
    ensures var batch := Apply(s, Fetch(chosen)).batch;
            if s.rows[j].dispatched then j in batch <==> s.isFirstFetch
            else if s.isFirstFetch then j !in batch
            else j in batch || (|batch| == s.available && forall k :: k in batch ==> k < j)
  {
    var eligible := Fetchable(s.rows, false);
    if !s.isFirstFetch && !s.rows[j].dispatched && j !in chosen {
      assert j in eligible - chosen;
      if |eligible| < s.available { SubsetOfSameSize(chosen, eligible); }
    }
  }

  // ---- What a handle's step does to the system ------------------------------------------------

  function RowOf(s: State, job: JobId): Option<Row> {
    if job in s.rows then Some(s.rows[job]) else None
  }

  function WithRow(s: State, job: JobId, row: Option<Row>): State {
    if row.None? then s else s.(rows := s.rows[job := row.value])
  }

  function HandlesAfter(handles: map<HandleId, Handle>, h: HandleId, phase: Option<Phase>): map<HandleId, Handle>
    requires h in handles
  {
    if phase.None? then handles - {h} else handles[h := handles[h].(phase := phase.value)]
  }

  /** A handle enters its next phase, or ends and returns its permit. */
  function Move(s: State, h: HandleId, phase: Option<Phase>): State
    requires h in s.handles
  {
    s.(handles := HandlesAfter(s.handles, h, phase),
       available := s.available + (if phase.None? && s.handles[h].scheduled then 1 else 0))
  }

  /** Spider learns of a new job, or starts one. */
  function TellSpider(s: State, job: JobId, submits: Option<SpiderId>, starts: Option<SpiderId>): State {
    s.(submitted := s.submitted + (if submits.Some? then {submits.value} else {}),
       started := s.started + (if starts.Some? then {(job, starts.value)} else {}))
  }

  // ---- The invariant --------------------------------------------------------------------------

  /** A running row has its Spider job and its dispatch mark; a pending one has no Spider job. */
  predicate RowOk(row: Row) {
    && (row.status.Running? ==> row.spiderId.Some? && row.dispatched)
    && (row.status.Pending? ==> row.spiderId.None?)
  }

  /** Nothing returns to pending, and the Spider job and the dispatch mark are set once. */
  predicate Advances(a: Row, b: Row) {
    && (b.status.Pending? ==> a.status.Pending?)
    && (a.spiderId.Some? ==> b.spiderId == a.spiderId)
    && (a.dispatched ==> b.dispatched)
  }

  /** A handle that drives its Spider job has it recorded in the row. */
  predicate PhaseOk(row: Row, phase: Phase) {
    phase.Driving? || phase.Awaiting? ==> row.spiderId == Some(phase.spiderId)
  }

  ghost predicate RowsOk(s: State) {
    forall j :: j in s.rows ==> RowOk(s.rows[j])
  }

  /** Every handle drives the job it was spawned for, under the Spider job that the row records. */
  ghost predicate HandleOk(s: State, h: HandleId)
    requires h in s.handles
  {
    var handle := s.handles[h];
    && h < |s.served| && handle.job == s.served[h] && handle.job in s.rows
    && PhaseOk(s.rows[handle.job], handle.phase)
  }

  ghost predicate HandlesOk(s: State) {
    forall h :: h in s.handles ==> HandleOk(s, h)
  }

  /** The coordinator has a handle for the job, or is about to have one, or gave the job up. */
  ghost predicate Held(s: State, j: JobId) {
    j in s.served || j in s.batch || j in s.skipped
  }

  /** A held job is still pending only after the first fetch, and then carries or awaits its mark. */
  ghost predicate HeldOk(s: State) {
    forall j :: Held(s, j) ==>
      && j in s.rows
      && (s.rows[j].status.Pending? ==> !s.isFirstFetch && (s.rows[j].dispatched || j in s.toMark))
  }

  ghost predicate Distinct(served: seq<JobId>) {
    forall a, b :: 0 <= a < b < |served| ==> served[a] != served[b]
  }

  /** No job is held twice. */
  ghost predicate HeldOnce(s: State) {
    && Distinct(s.served)
    && (forall j :: j in s.batch ==> j !in s.served && j !in s.skipped)
    && (forall j :: j in s.skipped ==> j !in s.served)
  }

  /** A job to recover has its snapshot's Spider job. */
  ghost predicate BatchOk(s: State) {
    && (s.batch != {} ==> s.stage.Recovering? || s.stage.Scheduling?)
    && forall j :: j in s.batch ==>
         && j in s.rows
         && (s.stage.Recovering? ==> j in s.snapshot && s.rows[j].spiderId == Some(s.snapshot[j]))
  }

  ghost predicate MarksOk(s: State) {
    && (s.toMark != {} ==> s.stage.Scheduling? || s.stage.Sleeping?)
    && (forall j :: j in s.toMark ==> Held(s, j))
    && (s.stage.Scheduling? || s.stage.Sleeping? ==> !s.isFirstFetch)
    && (s.stage.Recovering? ==> s.isFirstFetch)
    && (s.stage.Down? ==> s.served == [] && s.skipped == {} && s.batch == {} && s.handles == map[])
  }

  /** Every running row, and after the first fetch every dispatched pending one, is held. */
  ghost predicate Covered(s: State) {
    !s.stage.Down? ==>
      forall j :: j in s.rows ==>
        && (s.rows[j].status.Running? ==> Held(s, j))
        && (s.rows[j].status.Pending? && s.rows[j].dispatched && !s.isFirstFetch ==> Held(s, j))
  }

  function Scheduled(handles: map<HandleId, Handle>): set<HandleId> {
    set h | h in handles && handles[h].scheduled
  }

  /** Permits are conserved, and a later fetch never takes more jobs than there are permits. */
  ghost predicate PermitsOk(s: State) {
    && (!s.stage.Down? ==> s.available + |Scheduled(s.handles)| == s.maxConcurrent)
    && (s.stage.Scheduling? && !s.stage.first ==> |s.batch| <= s.available)
  }

  /** Only the Spider job that a row records is ever started for it. */
  ghost predicate StartedOk(s: State) {
    forall j, spiderId :: (j, spiderId) in s.started ==> j in s.rows && s.rows[j].spiderId == Some(spiderId)
  }

  ghost predicate InvHandles(s: State) {
    RowsOk(s) && HandlesOk(s) && PermitsOk(s) && StartedOk(s)
  }

  ghost predicate InvHeld(s: State) {
    HeldOk(s) && HeldOnce(s) && BatchOk(s) && MarksOk(s) && Covered(s)
  }

  ghost predicate Inv(s: State) {
    InvHandles(s) && InvHeld(s)
  }

  lemma InvInit(maxConcurrent: nat)
    ensures Inv(Init(maxConcurrent))
  {
  }

  // ---- Steps keep it --------------------------------------------------------------------------

  lemma ScheduledAdd(handles: map<HandleId, Handle>, h: HandleId, handle: Handle)
    requires h !in handles
    ensures |Scheduled(handles[h := handle])| == |Scheduled(handles)| + (if handle.scheduled then 1 else 0)
  {
    assert Scheduled(handles[h := handle]) == Scheduled(handles) + (if handle.scheduled then {h} else {});
  }

  lemma ScheduledRemove(handles: map<HandleId, Handle>, h: HandleId)
    requires h in handles
    ensures |Scheduled(handles - {h})| == |Scheduled(handles)| - (if handles[h].scheduled then 1 else 0)
  {
    assert Scheduled(handles - {h}) == Scheduled(handles) - {h};
  }

  lemma ScheduledSame(handles: map<HandleId, Handle>, h: HandleId, phase: Phase)
    requires h in handles
    ensures Scheduled(handles[h := handles[h].(phase := phase)]) == Scheduled(handles)
  {
  }

  lemma RowChangedHandles(s: State, job: JobId, row: Row)
    requires InvHandles(s) && job in s.rows && RowOk(row) && Advances(s.rows[job], row)
    ensures InvHandles(s.(rows := s.rows[job := row]))
  {
    assert forall h :: h in s.handles ==> HandleOk(s, h);
  }

  lemma RowChangedHeld(s: State, job: JobId, row: Row)
    requires InvHeld(s) && job in s.rows && Advances(s.rows[job], row)
    requires row.status.Running? ==> s.stage.Down? || Held(s, job)
    requires row.status.Pending? ==> row.dispatched == s.rows[job].dispatched
    ensures InvHeld(s.(rows := s.rows[job := row]))
  {
    var t := s.(rows := s.rows[job := row]);
    assert forall j :: Held(t, j) <==> Held(s, j);
  }

  /** One row advances, everything else as before. */
  lemma RowChanged(s: State, job: JobId, row: Row)
    requires Inv(s) && job in s.rows && RowOk(row) && Advances(s.rows[job], row)
    requires row.status.Running? ==> s.stage.Down? || Held(s, job)
    requires row.status.Pending? ==> row.dispatched == s.rows[job].dispatched
    ensures Inv(s.(rows := s.rows[job := row]))
  {
    RowChangedHandles(s, job, row);
    RowChangedHeld(s, job, row);
  }

  lemma InsertKeeps(s: State, job: JobId)
    requires Inv(s) && Enabled(s, Insert(job))
    ensures Inv(Apply(s, Insert(job)))
  {
    var t := Apply(s, Insert(job));
    assert forall j :: Held(t, j) <==> Held(s, j);
    assert forall h :: h in t.handles ==> HandleOk(s, h);
  }

  lemma BootKeeps(s: State)
    requires Inv(s) && Enabled(s, Boot)
    ensures Inv(Apply(s, Boot))
  {
  }

  lemma CrashKeeps(s: State)
    requires Inv(s) && Enabled(s, Crash)
    ensures Inv(Apply(s, Crash))
  {
  }

  lemma FinishKeeps(s: State, step: Step)
    requires Inv(s) && Enabled(s, step) && (step.FinishRecovery? || step.FinishScheduling?)
    ensures Inv(Apply(s, step))
  {
    var t := Apply(s, step);
    assert forall j :: Held(t, j) <==> Held(s, j);
    assert forall h :: h in t.handles ==> HandleOk(s, h);
  }

  lemma FetchKeeps(s: State, chosen: set<JobId>)
    requires Inv(s) && Enabled(s, Fetch(chosen))
    ensures Inv(Apply(s, Fetch(chosen)))
  {
    var t := Apply(s, Fetch(chosen));
    assert s.batch == {} && s.toMark == {};
    assert forall j :: Held(t, j) <==> Held(s, j) || j in chosen;
    assert forall h :: h in t.handles ==> HandleOk(s, h);
    assert forall j :: j in chosen ==> !Held(s, j);
  }

  lemma SkipKeeps(s: State, job: JobId, fault: Fault)
    requires Inv(s) && Enabled(s, Skip(job, fault))
    ensures Inv(Apply(s, Skip(job, fault)))
  {
    var moved := s.(batch := s.batch - {job}, skipped := s.skipped + {job});
    assert forall j :: Held(moved, j) <==> Held(s, j);
    assert forall h :: h in moved.handles ==> HandleOk(s, h);
    assert Inv(moved);
    if !fault.Rejected? {
      RowChanged(moved, job, s.rows[job].(status := Failed));
    }
  }

  lemma SpawnPermits(s: State, job: JobId)
    requires Inv(s) && Enabled(s, Spawn(job))
    ensures PermitsOk(Apply(s, Spawn(job)))
  {
    var h := |s.served|;
    assert h in s.handles ==> HandleOk(s, h);
    ScheduledAdd(s.handles, h, Apply(s, Spawn(job)).handles[h]);
  }

  lemma SpawnHandles(s: State, job: JobId)
    requires Inv(s) && Enabled(s, Spawn(job))
    ensures RowsOk(Apply(s, Spawn(job))) && HandlesOk(Apply(s, Spawn(job))) && StartedOk(Apply(s, Spawn(job)))
  {
    var t := Apply(s, Spawn(job));
    assert t.served[|s.served|] == job;
    assert forall k :: k in s.handles ==> HandleOk(s, k);
  }

  lemma SpawnHeld(s: State, job: JobId)
    requires InvHeld(s) && Enabled(s, Spawn(job))
    ensures InvHeld(Apply(s, Spawn(job)))
  {
    var t := Apply(s, Spawn(job));
    assert forall j :: j in t.served <==> j in s.served || j == job;
    assert forall j :: Held(t, j) <==> Held(s, j);
  }

  lemma SpawnKeeps(s: State, job: JobId)
    requires Inv(s) && Enabled(s, Spawn(job))
    ensures Inv(Apply(s, Spawn(job)))
  {
    SpawnPermits(s, job);
    SpawnHandles(s, job);
    SpawnHeld(s, job);
  }

  lemma MarkKeeps(s: State)
    requires Inv(s) && Enabled(s, MarkDispatched)
    ensures Inv(Apply(s, MarkDispatched))
  {
    var t := Apply(s, MarkDispatched);
    assert forall j :: Held(t, j) <==> Held(s, j);
    assert forall h :: h in t.handles ==> HandleOk(s, h);
  }

  /** Every step of the coordinator keeps the invariant. */
  lemma CoordinatorKeeps(s: State, step: Step)
    requires Inv(s) && Enabled(s, step)
    ensures Inv(Apply(s, step))
  {
    match step
    case Insert(job) => InsertKeeps(s, job);
    case Boot => BootKeeps(s);
    case Crash => CrashKeeps(s);
    case FinishRecovery => FinishKeeps(s, step);
    case Fetch(chosen) => FetchKeeps(s, chosen);
    case Skip(job, fault) => SkipKeeps(s, job, fault);
    case Spawn(job) => SpawnKeeps(s, job);
    case FinishScheduling => FinishKeeps(s, step);
    case MarkDispatched => MarkKeeps(s);
  }

  /** A coordinator's step leaves a row alone, marks it as dispatched, or fails the job it skips. */
  lemma CoordinatorRows(s: State, step: Step, j: JobId)
    requires Enabled(s, step) && j in s.rows
    ensures j in Apply(s, step).rows
    ensures var row := Apply(s, step).rows[j];
            || row == s.rows[j]
            || (row == s.rows[j].(dispatched := true) && step.MarkDispatched?)
            || (row == s.rows[j].(status := Failed) && step.Skip? && j == step.job)
  {
  }

  lemma MovePermits(s: State, h: HandleId, phase: Option<Phase>)
    requires PermitsOk(s) && h in s.handles
    ensures PermitsOk(Move(s, h, phase))
  {
    if phase.None? {
      ScheduledRemove(s.handles, h);
    } else {
      ScheduledSame(s.handles, h, phase.value);
    }
  }

  lemma MoveHeld(s: State, h: HandleId, phase: Option<Phase>)
    requires InvHeld(s) && h in s.handles
    ensures InvHeld(Move(s, h, phase))
  {
    var t := Move(s, h, phase);
    assert forall j :: Held(t, j) <==> Held(s, j);
  }

  lemma MoveKeeps(s: State, h: HandleId, phase: Option<Phase>)
    requires Inv(s) && h in s.handles
    requires phase.Some? && s.handles[h].job in s.rows ==> PhaseOk(s.rows[s.handles[h].job], phase.value)
    ensures Inv(Move(s, h, phase))
  {
    MovePermits(s, h, phase);
    MoveHeld(s, h, phase);
    assert forall k :: k in s.handles ==> HandleOk(s, k);
  }

  lemma TellSpiderKeeps(s: State, job: JobId, submits: Option<SpiderId>, starts: Option<SpiderId>)
    requires Inv(s)
    requires starts.Some? ==> job in s.rows && s.rows[job].spiderId == starts
    ensures Inv(TellSpider(s, job, submits, starts))
  {
    var t := TellSpider(s, job, submits, starts);
    assert forall j :: Held(t, j) <==> Held(s, j);
    assert forall k :: k in s.handles ==> HandleOk(s, k);
  }

  /** A handle's step: its row advances, Spider may be told, and the handle moves on. */
  function HandleStep(s: State, h: HandleId, row: Option<Row>, phase: Option<Phase>,
                      submits: Option<SpiderId>, starts: Option<SpiderId>): State
    requires h in s.handles
  {
    Move(TellSpider(WithRow(s, s.handles[h].job, row), s.handles[h].job, submits, starts), h, phase)
  }

  lemma WithRowKeeps(s: State, h: HandleId, row: Row)
    requires Inv(s) && h in s.handles
    requires s.handles[h].job in s.rows ==>
               && RowOk(row) && Advances(s.rows[s.handles[h].job], row)
               && (row.status.Pending? ==> row == s.rows[s.handles[h].job])
    ensures s.handles[h].job in s.rows && s.handles[h].job in s.served && Inv(WithRow(s, s.handles[h].job, Some(row)))
  {
    assert HandleOk(s, h);
    assert s.served[h] in s.served;
    RowChanged(s, s.handles[h].job, row);
  }

  lemma HandleStepKeeps(s: State, h: HandleId, row: Row, phase: Option<Phase>,
                        submits: Option<SpiderId>, starts: Option<SpiderId>)
    requires Inv(s) && h in s.handles
    requires s.handles[h].job in s.rows ==>
               && RowOk(row) && Advances(s.rows[s.handles[h].job], row)
               && (row.status.Pending? ==> row == s.rows[s.handles[h].job])
    requires starts.Some? ==> row.spiderId == starts
    requires phase.Some? ==> PhaseOk(row, phase.value)
    ensures Inv(HandleStep(s, h, Some(row), phase, submits, starts))
  {
    var job := s.handles[h].job;
    WithRowKeeps(s, h, row);
    TellSpiderKeeps(WithRow(s, job, Some(row)), job, submits, starts);
    MoveKeeps(TellSpider(WithRow(s, job, Some(row)), job, submits, starts), h, phase);
  }

  // ---- Waiting --------------------------------------------------------------------------------

  /** A handle waits only for a Spider job that was started for its job. */
  ghost predicate AwaitsStarted(s: State) {
    forall h :: h in s.handles && s.handles[h].phase.Awaiting? ==>
      (s.handles[h].job, s.handles[h].phase.spiderId) in s.started
  }

  /** In particular, a recovered handle does not wait before it started its Spider job once more. */
  lemma CoordinatorAwaits(s: State, step: Step)
    requires Enabled(s, step) && AwaitsStarted(s)
    ensures AwaitsStarted(Apply(s, step)) && s.started <= Apply(s, step).started
  {
  }

  lemma HandleStepAwaits(s: State, h: HandleId, row: Option<Row>, phase: Option<Phase>,
                         submits: Option<SpiderId>, starts: Option<SpiderId>)
    requires h in s.handles && AwaitsStarted(s)
    requires phase.Some? && phase.value.Awaiting? ==> starts == Some(phase.value.spiderId)
    ensures AwaitsStarted(HandleStep(s, h, row, phase, submits, starts))
    ensures s.started <= HandleStep(s, h, row, phase, submits, starts).started
  {
  }

  // ---- What it means --------------------------------------------------------------------------

  /** No two live handles drive the same job. */
  lemma NoSharedJobs(s: State, h: HandleId, g: HandleId)
    requires Inv(s) && h in s.handles && g in s.handles && h != g
    ensures s.handles[h].job != s.handles[g].job
  {
    assert HandleOk(s, h) && HandleOk(s, g);
    assert if h < g then s.served[h] != s.served[g] else s.served[g] != s.served[h];
  }

  /** Scheduled handles never exceed the permits, and after the first fetch no fetched job has to
      wait for one. */
  lemma PermitsSuffice(s: State)
    requires Inv(s)
    ensures |Scheduled(s.handles)| <= s.maxConcurrent
    ensures s.stage == Scheduling(false) ==> forall j :: j in s.batch ==> Enabled(s, Spawn(j))
  {
    assert s.stage.Down? ==> Scheduled(s.handles) == {};
    assert s.batch != {} ==> |s.batch| > 0;
  }

  /** A live handle drives the job. */
  ghost predicate Driven(s: State, j: JobId) {
    exists h :: h in s.handles && s.handles[h].job == j
  }

  /** Who takes care of a job, now or at the next fetch or restart. An abandoned job had a handle in this
      coordinator's lifetime and has none any more; one given up never had one. */
  datatype Claim = ByHandle | Abandoned | InBatch | GivenUp | ByRecovery | ByFirstFetch | ByLaterFetch

  ghost predicate HasClaim(s: State, j: JobId, claim: Claim)
    requires j in s.rows
  {
    match claim
    case ByHandle => Driven(s, j)
    case Abandoned => j in s.served && !Driven(s, j)
    case InBatch => j in s.batch
    case GivenUp => j in s.skipped
    case ByRecovery => s.stage.Down? && s.rows[j].status.Running? && s.rows[j].spiderId.Some?
    case ByFirstFetch => (s.stage.Down? || s.isFirstFetch) && s.rows[j].status.Pending? && s.rows[j].dispatched
    case ByLaterFetch => s.rows[j].status.Pending? && !s.rows[j].dispatched && j !in s.toMark
  }

  ghost function ClaimOf(s: State, j: JobId): Claim
    requires j in s.rows
  {
    if Driven(s, j) then ByHandle
    else if j in s.served then Abandoned
    else if j in s.batch then InBatch
    else if j in s.skipped then GivenUp
    else if s.rows[j].status.Running? then ByRecovery
    else if s.rows[j].dispatched then ByFirstFetch
    else ByLaterFetch
  }

  lemma DrivenIsServed(s: State, j: JobId)
    requires Inv(s) && Driven(s, j)
    ensures j in s.served
  {
    var h :| h in s.handles && s.handles[h].job == j;
    assert HandleOk(s, h) && s.served[h] in s.served;
  }

  /** A pending or running job has exactly one claim. */
  lemma ExactlyOneClaim(s: State, j: JobId, claim: Claim)
    requires Inv(s) && j in s.rows && (s.rows[j].status.Pending? || s.rows[j].status.Running?)
    ensures HasClaim(s, j, claim) <==> claim == ClaimOf(s, j)
  {
    assert RowOk(s.rows[j]);
    assert Held(s, j) <==> j in s.served || j in s.batch || j in s.skipped;
    if Driven(s, j) { DrivenIsServed(s, j); }
  }

  /** The three queries select exactly the jobs with the matching claim. */
  lemma QueriesFollowClaims(s: State, j: JobId)
    requires Inv(s) && j in s.rows
    ensures s.stage.Down? ==> (j in Recoverable(s.rows) <==> HasClaim(s, j, ByRecovery))
    ensures s.stage.Polling? && s.isFirstFetch ==> (j in Fetchable(s.rows, true) <==> HasClaim(s, j, ByFirstFetch))
    ensures s.stage.Polling? ==> (j in Fetchable(s.rows, false) <==> HasClaim(s, j, ByLaterFetch))
  {
  }
}
