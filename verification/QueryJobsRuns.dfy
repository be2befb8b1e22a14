/** Runs of the query-job protocol that show what it does not promise. */
module QueryJobsRuns {
  import opened Wrappers
  import opened JobCoordinator
  import opened QueryJobs
  import opened QueryJobsProofs

  /** Some run from an empty job table ends in the state. */
  ghost predicate Reachable(s: State) {
    exists states, steps :: IsRun(states, steps) && states[|states| - 1] == s
  }

  lemma InitIsReachable(maxConcurrent: nat)
    ensures Reachable(Init(maxConcurrent))
  {
    assert IsRun([Init(maxConcurrent)], []);
  }

  lemma OneMore(states: seq<State>, steps: seq<QueryStep>, step: QueryStep, t: State)
    requires IsRun(states, steps) && CanTake(states[|states| - 1], step) && t == Take(states[|states| - 1], step)
    ensures IsRun(states + [t], steps + [step])
  {
    var more, longer := states + [t], steps + [step];
    forall i | 0 <= i < |longer|
      ensures CanTake(more[i], longer[i]) && more[i + 1] == Take(more[i], longer[i])
    {
      if i < |steps| { assert more[i] == states[i] && more[i + 1] == states[i + 1] && longer[i] == steps[i]; }
    }
  }

  lemma Leads(s: State, step: QueryStep, t: State)
    requires Reachable(s) && CanTake(s, step) && t == Take(s, step)
    ensures Reachable(t)
  {
    var states, steps :| IsRun(states, steps) && states[|states| - 1] == s;
    OneMore(states, steps, step, t);
    assert (states + [t])[|states + [t]| - 1] == t;
  }

  lemma LeadsOn(s: State, a: QueryStep, t: State, b: QueryStep, u: State)
    requires Reachable(s) && CanTake(s, a) && t == Take(s, a) && CanTake(t, b) && u == Take(t, b)
    ensures Reachable(u)
  {
    Leads(s, a, t);
    Leads(t, b, u);
  }

  // ---- Two jobs and one permit ----------------------------------------------------------------

  const NEW: Row := Row(Pending, None, false)
  const DISPATCHED: Row := Row(Pending, None, true)

  function Table(first: Row, second: Row): map<JobId, Row> {
    map[0 := first, 1 := second]
  }

  /** The jobs 0 and 1 and a coordinator with one permit and no handle, past its first fetch. */
  function Free(rows: map<JobId, Row>, stage: Stage, batch: set<JobId>, toMark: set<JobId>, served: seq<JobId>): State {
    State(rows, {}, {}, stage, false, map[], batch, toMark, {}, served, map[], 1, 1)
  }

  /** The same while the one permit is taken. */
  function Busy(rows: map<JobId, Row>, stage: Stage, toMark: set<JobId>, served: seq<JobId>,
                handles: map<HandleId, Handle>): State {
    State(rows, {}, {}, stage, false, map[], {}, toMark, {}, served, handles, 0, 1)
  }

  function Booting(stage: Stage): State {
    State(Table(NEW, NEW), {}, {}, stage, true, map[], {}, {}, {}, [], map[], 1, 1)
  }

  lemma TwoInserted()
    ensures Reachable(Booting(Down))
  {
    InitIsReachable(1);
    LeadsOn(Init(1), Coordinate(Insert(0)), Init(1).(rows := map[0 := NEW]), Coordinate(Insert(1)), Booting(Down));
  }

  lemma Booted()
    ensures Reachable(Booting(Polling))
  {
    TwoInserted();
    assert Recoverable(Table(NEW, NEW)) == map[];
    LeadsOn(Booting(Down), Coordinate(Boot), Booting(Recovering), Coordinate(FinishRecovery), Booting(Polling));
  }

  lemma FirstFetchDone()
    ensures Reachable(Free(Table(NEW, NEW), Sleeping, {}, {}, []))
  {
    var rows := Table(NEW, NEW);
    Booted();
    assert Fetchable(rows, true) == {};
    LeadsOn(Booting(Polling), Coordinate(Fetch({})), Free(rows, Scheduling(true), {}, {}, []),
            Coordinate(FinishScheduling), Free(rows, Sleeping, {}, {}, []));
  }

  lemma Job0Fetched()
    ensures Reachable(Free(Table(NEW, NEW), Scheduling(false), {0}, {0}, []))
  {
    var rows := Table(NEW, NEW);
    var s := Free(rows, Sleeping, {}, {}, []);
    FirstFetchDone();
    assert Apply(s, MarkDispatched).rows == rows;
    assert Fetchable(rows, false) == {0, 1} && |{0, 1}| == 2;
    assert IsLowest({0}, Fetchable(rows, false), 1);
    LeadsOn(s, Coordinate(MarkDispatched), Free(rows, Polling, {}, {}, []),
            Coordinate(Fetch({0})), Free(rows, Scheduling(false), {0}, {0}, []));
  }

  lemma Job0PlanFailed()
    ensures Reachable(Busy(Table(NEW, NEW), Scheduling(false), {0}, [0],
                           map[0 := Handle(0, true, Finalizing(OtherError))]))
  {
    var rows := Table(NEW, NEW);
    Job0Fetched();
    LeadsOn(Free(rows, Scheduling(false), {0}, {0}, []), Coordinate(Spawn(0)),
            Busy(rows, Scheduling(false), {0}, [0], map[0 := Handle(0, true, Planning)]), Act(0, PlanFails),
            Busy(rows, Scheduling(false), {0}, [0], map[0 := Handle(0, true, Finalizing(OtherError))]));
  }

  /** The last update of job 0 is rejected: it stays pending and its handle is gone. */
  lemma Job0Lost()
    ensures Reachable(Free(Table(NEW, NEW), Sleeping, {}, {0}, [0]))
  {
    var rows := Table(NEW, NEW);
    var s := Busy(rows, Scheduling(false), {0}, [0], map[0 := Handle(0, true, Finalizing(OtherError))]);
    Job0PlanFailed();
    assert s.handles - {0} == map[];
    assert TerminateRow(NEW, OutcomeFailed, Rejected).0 == NEW && rows[0 := NEW] == rows;
    LeadsOn(s, Act(0, FinalizeTx(Rejected)), Free(rows, Scheduling(false), {}, {0}, [0]),
            Coordinate(FinishScheduling), Free(rows, Sleeping, {}, {0}, [0]));
  }

  lemma Job1Fetched()
    ensures Reachable(Free(Table(DISPATCHED, NEW), Scheduling(false), {1}, {1}, [0]))
  {
    var s, rows := Free(Table(NEW, NEW), Sleeping, {}, {0}, [0]), Table(DISPATCHED, NEW);
    Job0Lost();
    assert Apply(s, MarkDispatched).rows == rows;
    assert Fetchable(rows, false) == {1};
    LeadsOn(s, Coordinate(MarkDispatched), Free(rows, Polling, {}, {}, [0]),
            Coordinate(Fetch({1})), Free(rows, Scheduling(false), {1}, {1}, [0]));
  }

  lemma Job1Spawned()
    ensures Reachable(Busy(Table(DISPATCHED, NEW), Sleeping, {1}, [0, 1], map[1 := Handle(1, true, Planning)]))
  {
    var rows, handles := Table(DISPATCHED, NEW), map[1 := Handle(1, true, Planning)];
    Job1Fetched();
    LeadsOn(Free(rows, Scheduling(false), {1}, {1}, [0]), Coordinate(Spawn(1)),
            Busy(rows, Scheduling(false), {1}, [0, 1], handles), Coordinate(FinishScheduling),
            Busy(rows, Sleeping, {1}, [0, 1], handles));
  }

  lemma Crashed()
    ensures Reachable(Busy(Table(DISPATCHED, DISPATCHED), Down, {}, [], map[]))
  {
    var s := Busy(Table(DISPATCHED, NEW), Sleeping, {1}, [0, 1], map[1 := Handle(1, true, Planning)]);
    var rows := Table(DISPATCHED, DISPATCHED);
    Job1Spawned();
    assert Apply(s, MarkDispatched).rows == rows;
    LeadsOn(s, Coordinate(MarkDispatched), Busy(rows, Polling, {}, [0, 1], s.handles),
            Coordinate(Crash), Busy(rows, Down, {}, [], map[]));
  }

  // ---- What is not promised -------------------------------------------------------------------

  /** With one permit a restart can find two jobs to fetch at once: the bound by the number of permits
      alone fails after one rejected last update. */
  lemma BoundCanFail() returns (states: seq<State>, steps: seq<QueryStep>)
    ensures IsRun(states, steps)
    ensures var s := states[|states| - 1];
            s.stage.Down? && s.maxConcurrent == 1 && Fetchable(s.rows, true) == {0, 1}
  {
    var s := Busy(Table(DISPATCHED, DISPATCHED), Down, {}, [], map[]);
    Crashed();
    assert Fetchable(s.rows, true) == {0, 1};
    states, steps :| IsRun(states, steps) && states[|states| - 1] == s;
  }

  /** A job can be left pending with no handle and none to come before a restart. */
  lemma JobCanBeAbandoned() returns (states: seq<State>, steps: seq<QueryStep>)
    ensures IsRun(states, steps)
    ensures var s := states[|states| - 1];
            0 in s.rows && s.rows[0].status.Pending? && HasClaim(s, 0, Abandoned)
  {
    var s := Free(Table(NEW, NEW), Sleeping, {}, {0}, [0]);
    Job0Lost();
    assert s.served[0] == 0 && HasClaim(s, 0, Abandoned);
    states, steps :| IsRun(states, steps) && states[|states| - 1] == s;
  }

  /** A job that is cancelled before it is fetched is stranded. */
  lemma JobCanBeStranded(maxConcurrent: nat) returns (states: seq<State>, steps: seq<QueryStep>)
    ensures IsRun(states, steps) && Stranded(states[|states| - 1], 0)
  {
    var s := Init(maxConcurrent).(rows := map[0 := NEW]);
    var t := s.(rows := map[0 := NEW.(status := Cancelling)]);
    InitIsReachable(maxConcurrent);
    assert s.rows[0 := NEW.(status := Cancelling)] == t.rows;
    LeadsOn(Init(maxConcurrent), Coordinate(Insert(0)), s, Cancel(0), t);
    states, steps :| IsRun(states, steps) && states[|states| - 1] == t;
  }
}
