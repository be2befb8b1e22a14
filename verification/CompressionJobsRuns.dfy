/** Runs of the compression-job protocol in which a single cause undoes a recorded success. */
module CompressionJobsRuns {
  import opened Wrappers
  import opened JobCoordinator
  import opened CompressionJobs
  import opened CompressionJobsProofs
  import opened CompressionJobsSuccess

  /** Nothing befalls job 0 but the given cause. */
  ghost predicate Only(s: CompressionState, step: CompressionStep, cause: Cause) {
    CauseOf(s.core, step, 0).None? || CauseOf(s.core, step, 0) == Some(cause)
  }

  ghost predicate RunsTo(states: seq<CompressionState>, steps: seq<CompressionStep>, s: CompressionState,
                         cause: Cause) {
    && IsRun(states, steps) && states[|states| - 1] == s
    && forall i :: 0 <= i < |steps| ==> Only(states[i], steps[i], cause)
  }

  /** Some run from an empty job table ends in the state, with no other cause on the way. */
  ghost predicate Reachable(s: CompressionState, cause: Cause) {
    exists states, steps :: RunsTo(states, steps, s, cause)
  }

  ghost predicate Goes(s: CompressionState, step: CompressionStep, t: CompressionState, cause: Cause) {
    CanTake(s, step) && t == Take(s, step) && Only(s, step, cause)
  }

  lemma OneMore(states: seq<CompressionState>, steps: seq<CompressionStep>, s: CompressionState,
                step: CompressionStep, t: CompressionState, cause: Cause)
    requires RunsTo(states, steps, s, cause) && Goes(s, step, t, cause)
    ensures RunsTo(states + [t], steps + [step], t, cause)
  {
    var more, longer := states + [t], steps + [step];
    forall i | 0 <= i < |longer|
      ensures CanTake(more[i], longer[i]) && more[i + 1] == Take(more[i], longer[i]) && Only(more[i], longer[i], cause)
    {
      if i < |steps| { assert more[i] == states[i] && more[i + 1] == states[i + 1] && longer[i] == steps[i]; }
    }
  }

  lemma Leads(s: CompressionState, step: CompressionStep, t: CompressionState, cause: Cause)
    requires Reachable(s, cause) && Goes(s, step, t, cause)
    ensures Reachable(t, cause)
  {
    var states, steps :| RunsTo(states, steps, s, cause);
    OneMore(states, steps, s, step, t, cause);
  }

  lemma LeadsOn(s: CompressionState, a: CompressionStep, t: CompressionState, b: CompressionStep, u: CompressionState,
                cause: Cause)
    requires Reachable(s, cause) && Goes(s, a, t, cause) && Goes(t, b, u, cause)
    ensures Reachable(u, cause)
  {
    Leads(s, a, t, cause);
    Leads(t, b, u, cause);
  }

  // ---- One job and one permit -----------------------------------------------------------------

  const SPIDER: SpiderId := 7
  const NEW: Row := Row(Pending, None, false)
  const RUNNING: Row := Row(Running, Some(SPIDER), true)
  const DONE: Row := Row(Succeeded, Some(SPIDER), true)

  function Booting(stage: Stage): CompressionState {
    CompressionState(State(map[0 := NEW], {}, {}, stage, true, map[], {}, {}, {}, [], map[], 1, 1), [])
  }

  /** Past the first fetch, before job 0 has a handle. */
  function Free(stage: Stage, batch: set<JobId>): CompressionState {
    CompressionState(State(map[0 := NEW], {}, {}, stage, false, map[], batch, batch, {}, [], map[], 1, 1), [])
  }

  /** The job's handle is in the given phase; `ids` are the Spider jobs submitted. */
  function Busy(row: Row, ids: set<SpiderId>, started: bool, phase: Phase, published: seq<JobId>): CompressionState {
    CompressionState(State(map[0 := row], ids, if started then {(0, SPIDER)} else {}, Scheduling(false), false, map[],
                           {}, {0}, {}, [0], map[0 := Handle(0, true, phase)], 0, 1), published)
  }

  lemma Booted(cause: Cause)
    ensures Reachable(Booting(Recovering), cause)
  {
    var init := CompressionState(Init(1), []);
    assert RunsTo([init], [], init, cause);
    assert Recoverable(map[0 := NEW]) == map[];
    LeadsOn(init, Coordinate(Insert(0)), Booting(Down), Coordinate(Boot), Booting(Recovering), cause);
  }

  lemma FirstFetchDone(cause: Cause)
    ensures Reachable(Free(Scheduling(true), {}), cause)
  {
    Booted(cause);
    assert Fetchable(map[0 := NEW], true) == {};
    LeadsOn(Booting(Recovering), Coordinate(FinishRecovery), Booting(Polling),
            Coordinate(Fetch({})), Free(Scheduling(true), {}), cause);
  }

  lemma Polled(cause: Cause)
    ensures Reachable(Free(Polling, {}), cause)
  {
    FirstFetchDone(cause);
    assert Apply(Free(Sleeping, {}).core, MarkDispatched).rows == map[0 := NEW];
    LeadsOn(Free(Scheduling(true), {}), Coordinate(FinishScheduling), Free(Sleeping, {}),
            Coordinate(MarkDispatched), Free(Polling, {}), cause);
  }

  lemma Spawned(cause: Cause)
    ensures Reachable(Busy(NEW, {}, false, Planning, []), cause)
  {
    Polled(cause);
    assert Fetchable(map[0 := NEW], false) == {0} && |{0}| == 1;
    LeadsOn(Free(Polling, {}), Coordinate(Fetch({0})), Free(Scheduling(false), {0}),
            Coordinate(Spawn(0)), Busy(NEW, {}, false, Planning, []), cause);
  }

  lemma Persisted(cause: Cause)
    ensures Reachable(Busy(RUNNING, {SPIDER}, false, Driving(SPIDER), []), cause)
  {
    Spawned(cause);
    LeadsOn(Busy(NEW, {}, false, Planning, []), Act(0, Submit(SPIDER)),
            Busy(NEW, {SPIDER}, false, Submitted(SPIDER), []), Act(0, Persist(NoFault)),
            Busy(RUNNING, {SPIDER}, false, Driving(SPIDER), []), cause);
  }

  /** The job runs and its archives are not published yet. */
  function Ready(phase: Phase): CompressionState {
    Busy(RUNNING, {SPIDER}, true, phase, [])
  }

  function Published(phase: Phase): CompressionState {
    Busy(DONE, {SPIDER}, true, phase, [0])
  }

  lemma Started(cause: Cause)
    ensures Reachable(Ready(Awaiting(SPIDER)), cause)
  {
    Persisted(cause);
    Leads(Busy(RUNNING, {SPIDER}, false, Driving(SPIDER), []), Act(0, StartSpider(NoFault)),
          Ready(Awaiting(SPIDER)), cause);
  }

  /** The commit task finds the running job. */
  lemma CommitGoes(phase: Phase, cause: Cause)
    requires phase.Overwriting? ==> cause.LateCommit?
    ensures Goes(Ready(phase), Commit(0, SPIDER), Published(phase), cause)
  {
    var s := Ready(phase);
    assert (0, SPIDER) in s.core.started;
    assert [] + [0] == [0];
    if BeingOverwritten(s.core, 0) { assert s.core.handles[0].phase == phase; }
  }

  // ---- The ways to lose a success -------------------------------------------------------------

  /** The archives of job 0 are published and its row says that it did not succeed. */
  predicate Lost(s: CompressionState) {
    0 in s.published && 0 in s.core.rows && !s.core.rows[0].status.Succeeded?
  }

  /** A handle that reports a failure or writes the end of its Spider job loses the success. */
  lemma Undone(event: Event, phase: Phase, cause: Cause) returns (s: CompressionState)
    requires Reachable(Published(phase), cause)
    requires (phase.Reporting? && event == ReportFailure(NoFault))
             || (phase == Overwriting(Failed) && event == WriteStatus(NoFault))
    ensures Reachable(s, cause) && Lost(s)
  {
    s := Take(Published(phase), Act(0, event));
    Leads(Published(phase), Act(0, event), s, cause);
  }

  /** Spider starts the job but does not confirm it. */
  lemma LostByStartError() returns (s: CompressionState)
    ensures Reachable(s, StartError) && Lost(s)
  {
    Persisted(StartError);
    CommitGoes(Reporting, StartError);
    LeadsOn(Busy(RUNNING, {SPIDER}, false, Driving(SPIDER), []), Act(0, StartSpider(AppliedUnreported)),
            Ready(Reporting), Commit(0, SPIDER), Published(Reporting), StartError);
    s := Undone(ReportFailure(NoFault), Reporting, StartError);
  }

  /** Polling Spider fails after the commit. */
  lemma LostByPollError() returns (s: CompressionState)
    ensures Reachable(s, PollError) && Lost(s)
  {
    Started(PollError);
    CommitGoes(Awaiting(SPIDER), PollError);
    LeadsOn(Ready(Awaiting(SPIDER)), Commit(0, SPIDER), Published(Awaiting(SPIDER)),
            Act(0, SpiderFails), Published(Reporting), PollError);
    s := Undone(ReportFailure(NoFault), Reporting, PollError);
  }

  /** Spider reports the job as failed and the handle is about to read the status. */
  lemma SpiderFailed(cause: Cause)
    ensures Reachable(Ready(Deciding(OutcomeFailed)), cause)
  {
    Started(cause);
    Leads(Ready(Awaiting(SPIDER)), Act(0, SpiderEnds(OutcomeFailed)), Ready(Deciding(OutcomeFailed)), cause);
  }

  lemma StatusRead(cause: Cause)
    ensures Reachable(Ready(Overwriting(Failed)), cause)
  {
    SpiderFailed(cause);
    Leads(Ready(Deciding(OutcomeFailed)), Act(0, ReadStatus(true)), Ready(Overwriting(Failed)), cause);
  }

  lemma LostByReadError() returns (s: CompressionState)
    ensures Reachable(s, ReadError) && Lost(s)
  {
    SpiderFailed(ReadError);
    CommitGoes(Deciding(OutcomeFailed), ReadError);
    LeadsOn(Ready(Deciding(OutcomeFailed)), Commit(0, SPIDER), Published(Deciding(OutcomeFailed)),
            Act(0, ReadStatus(false)), Published(Reporting), ReadError);
    s := Undone(ReportFailure(NoFault), Reporting, ReadError);
  }

  lemma LostByWriteError() returns (s: CompressionState)
    ensures Reachable(s, WriteError) && Lost(s)
  {
    StatusRead(WriteError);
    CommitGoes(Reporting, WriteError);
    LeadsOn(Ready(Overwriting(Failed)), Act(0, WriteStatus(Rejected)), Ready(Reporting),
            Commit(0, SPIDER), Published(Reporting), WriteError);
    s := Undone(ReportFailure(NoFault), Reporting, WriteError);
  }

  /** The commit comes after the status was read and before it is overwritten. */
  lemma LostByLateCommit() returns (s: CompressionState)
    ensures Reachable(s, LateCommit) && Lost(s)
  {
    StatusRead(LateCommit);
    CommitGoes(Overwriting(Failed), LateCommit);
    Leads(Ready(Overwriting(Failed)), Commit(0, SPIDER), Published(Overwriting(Failed)), LateCommit);
    s := Undone(WriteStatus(NoFault), Overwriting(Failed), LateCommit);
  }

  /** The commit comes after a new coordinator has listed the running jobs, and it gives the job up. */
  lemma LostInRecovery() returns (s: CompressionState)
    ensures Reachable(s, GivenUpInRecovery) && Lost(s)
  {
    var r := Ready(Awaiting(SPIDER));
    var down := Take(r, Coordinate(Crash));
    var back := Take(down, Coordinate(Boot));
    Started(GivenUpInRecovery);
    LeadsOn(r, Coordinate(Crash), down, Coordinate(Boot), back, GivenUpInRecovery);
    assert Recoverable(map[0 := RUNNING]) == map[0 := SPIDER];
    assert (0, SPIDER) in back.core.started;
    var done := Take(back, Commit(0, SPIDER));
    s := Take(done, Coordinate(Skip(0, NoFault)));
    LeadsOn(back, Commit(0, SPIDER), done, Coordinate(Skip(0, NoFault)), s, GivenUpInRecovery);
  }

  /** Each cause is enough: in some run from an empty job table it is the only one that befalls job 0, whose
      archives are published and which is not recorded as succeeded. */
  lemma EachCauseSuffices(cause: Cause) returns (states: seq<CompressionState>, steps: seq<CompressionStep>)
    ensures IsRun(states, steps)
    ensures forall i :: 0 <= i < |steps| ==>
              CauseOf(states[i].core, steps[i], 0).None? || CauseOf(states[i].core, steps[i], 0) == Some(cause)
    ensures 0 in states[|states| - 1].published && !Succeeds(states[|states| - 1], 0)
  {
    var s;
    match cause {
      case StartError => s := LostByStartError();
      case PollError => s := LostByPollError();
      case ReadError => s := LostByReadError();
      case WriteError => s := LostByWriteError();
      case LateCommit => s := LostByLateCommit();
      case GivenUpInRecovery => s := LostInRecovery();
    }
    states, steps :| RunsTo(states, steps, s, cause);
    forall i | 0 <= i < |steps|
      ensures CauseOf(states[i].core, steps[i], 0).None? || CauseOf(states[i].core, steps[i], 0) == Some(cause)
    {
      assert Only(states[i], steps[i], cause);
    }
  }

  // ---- Two jobs and one permit ----------------------------------------------------------------

  const DISPATCHED: Row := Row(Pending, None, true)

  /** The jobs 0 and 1, of which job 0 may have been given up, and a coordinator with one permit. */
  function Two(rows: map<JobId, Row>, stage: Stage, isFirstFetch: bool, batch: set<JobId>, toMark: set<JobId>,
               skipped: set<JobId>): CompressionState {
    CompressionState(State(rows, {}, {}, stage, isFirstFetch, map[], batch, toMark, skipped, [], map[], 1, 1), [])
  }

  function Table(first: Row, second: Row): map<JobId, Row> {
    map[0 := first, 1 := second]
  }

  lemma TwoInserted(cause: Cause)
    ensures Reachable(Two(Table(NEW, NEW), Down, true, {}, {}, {}), cause)
  {
    var init := CompressionState(Init(1), []);
    assert RunsTo([init], [], init, cause);
    LeadsOn(init, Coordinate(Insert(0)), Booting(Down), Coordinate(Insert(1)),
            Two(Table(NEW, NEW), Down, true, {}, {}, {}), cause);
  }

  lemma TwoBooted(cause: Cause)
    ensures Reachable(Two(Table(NEW, NEW), Polling, true, {}, {}, {}), cause)
  {
    var rows := Table(NEW, NEW);
    TwoInserted(cause);
    assert Recoverable(rows) == map[];
    LeadsOn(Two(rows, Down, true, {}, {}, {}), Coordinate(Boot), Two(rows, Recovering, true, {}, {}, {}),
            Coordinate(FinishRecovery), Two(rows, Polling, true, {}, {}, {}), cause);
  }

  lemma TwoFetched(cause: Cause)
    ensures Reachable(Two(Table(NEW, NEW), Sleeping, false, {}, {}, {}), cause)
  {
    var rows := Table(NEW, NEW);
    TwoBooted(cause);
    assert Fetchable(rows, true) == {};
    LeadsOn(Two(rows, Polling, true, {}, {}, {}), Coordinate(Fetch({})),
            Two(rows, Scheduling(true), false, {}, {}, {}), Coordinate(FinishScheduling),
            Two(rows, Sleeping, false, {}, {}, {}), cause);
  }

  lemma Job0Fetched(cause: Cause)
    ensures Reachable(Two(Table(NEW, NEW), Scheduling(false), false, {0}, {0}, {}), cause)
  {
    var rows := Table(NEW, NEW);
    var s := Two(rows, Sleeping, false, {}, {}, {});
    TwoFetched(cause);
    assert Apply(s.core, MarkDispatched).rows == rows;
    assert Fetchable(rows, false) == {0, 1} && |{0, 1}| == 2;
    assert IsLowest({0}, Fetchable(rows, false), 1);
    LeadsOn(s, Coordinate(MarkDispatched), Two(rows, Polling, false, {}, {}, {}),
            Coordinate(Fetch({0})), Two(rows, Scheduling(false), false, {0}, {0}, {}), cause);
  }

  /** Job 0 is given up and its row stays as it is. */
  lemma Job0GivenUp(cause: Cause)
    ensures Reachable(Two(Table(NEW, NEW), Sleeping, false, {}, {0}, {0}), cause)
  {
    var rows := Table(NEW, NEW);
    Job0Fetched(cause);
    LeadsOn(Two(rows, Scheduling(false), false, {0}, {0}, {}), Coordinate(Skip(0, Rejected)),
            Two(rows, Scheduling(false), false, {}, {0}, {0}), Coordinate(FinishScheduling),
            Two(rows, Sleeping, false, {}, {0}, {0}), cause);
  }

  lemma Job1Fetched(cause: Cause)
    ensures Reachable(Two(Table(DISPATCHED, NEW), Scheduling(false), false, {1}, {1}, {0}), cause)
  {
    var s, rows := Two(Table(NEW, NEW), Sleeping, false, {}, {0}, {0}), Table(DISPATCHED, NEW);
    Job0GivenUp(cause);
    assert Apply(s.core, MarkDispatched).rows == rows;
    assert Fetchable(rows, false) == {1};
    LeadsOn(s, Coordinate(MarkDispatched), Two(rows, Polling, false, {}, {}, {0}),
            Coordinate(Fetch({1})), Two(rows, Scheduling(false), false, {1}, {1}, {0}), cause);
  }

  lemma Job1Spawned(cause: Cause) returns (s: CompressionState)
    ensures Reachable(s, cause) && s.core.stage.Sleeping? && s.core.maxConcurrent == 1
    ensures s.core.rows == Table(DISPATCHED, NEW) && s.core.toMark == {1}
  {
    var r := Two(Table(DISPATCHED, NEW), Scheduling(false), false, {1}, {1}, {0});
    Job1Fetched(cause);
    var t := Take(r, Coordinate(Spawn(1)));
    s := Take(t, Coordinate(FinishScheduling));
    LeadsOn(r, Coordinate(Spawn(1)), t, Coordinate(FinishScheduling), s, cause);
  }

  /** With one permit a restart can find two jobs to fetch at once: the bound by the number of permits alone
      fails after one job was given up without an update. */
  lemma BoundCanFail() returns (states: seq<CompressionState>, steps: seq<CompressionStep>)
    ensures IsRun(states, steps)
    ensures var s := states[|states| - 1].core;
            s.stage.Down? && s.maxConcurrent == 1 && Fetchable(s.rows, true) == {0, 1}
  {
    var r := Job1Spawned(StartError);
    var t := Take(r, Coordinate(MarkDispatched));
    var s := Take(t, Coordinate(Crash));
    LeadsOn(r, Coordinate(MarkDispatched), t, Coordinate(Crash), s, StartError);
    assert s.core.rows == Table(DISPATCHED, DISPATCHED);
    assert Fetchable(s.core.rows, true) == {0, 1};
    states, steps :| RunsTo(states, steps, s, StartError);
  }
}
