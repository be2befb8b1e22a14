/** What every run of the query-job protocol keeps. */
module QueryJobsProofs {
  import opened Wrappers
  import opened JobCoordinator
  import opened QueryJobs

  // ---- Rows only move forward -----------------------------------------------------------------

  /** How a row may change: terminal statuses stay, an accepted cancel is never undone, nothing
      returns to pending, and the Spider job and the dispatch mark are set once. */
  predicate RowEvolves(a: Row, b: Row) {
    && (a.status.IsTerminal() ==> b.status == a.status)
    && (a.status.Cancelling? ==> b.status.Cancelling? || b.status.Cancelled? || b.status.Failed?)
    && (b.status.Running? ==> a.status.Pending? || a.status.Running?)
    && Advances(a, b)
  }

  predicate TableEvolves(a: map<JobId, Row>, b: map<JobId, Row>) {
    forall j :: j in a ==> j in b && RowEvolves(a[j], b[j])
  }

  lemma HandleRow(row: Row, phase: Phase, event: Event)
    requires EventEnabled(phase, event) && RowOk(row) && PhaseOk(row, phase)
    ensures var (next, nextPhase) := HandleNext(Some(row), phase, event);
            && next.Some? && RowEvolves(row, next.value) && RowOk(next.value)
            && (next.value.status.Pending? ==> next.value == row)
            && (nextPhase.Some? ==> PhaseOk(next.value, nextPhase.value))
            && (Starts(phase, event).Some? ==> next.value.spiderId == Starts(phase, event))
  {
  }

  /** Fetched jobs that await a handle are not terminal, so failing them overwrites nothing. */
  ghost predicate BatchLive(s: State) {
    forall j :: j in s.batch ==> j in s.rows && !s.rows[j].status.IsTerminal()
  }

  ghost predicate QueryInv(s: State) {
    Inv(s) && BatchLive(s)
  }

  // ---- Every step keeps it --------------------------------------------------------------------

  lemma CancelKeeps(s: State, job: JobId)
    requires QueryInv(s) && CanTake(s, Cancel(job))
    ensures QueryInv(Take(s, Cancel(job))) && TableEvolves(s.rows, Take(s, Cancel(job)).rows)
  {
    RowChanged(s, job, s.rows[job].(status := Cancelling));
  }

  lemma CoordinateKeeps(s: State, step: Step)
    requires QueryInv(s) && Enabled(s, step)
    ensures QueryInv(Apply(s, step)) && TableEvolves(s.rows, Apply(s, step).rows)
  {
    CoordinatorKeeps(s, step);
    forall j | j in s.rows
      ensures j in Apply(s, step).rows && RowEvolves(s.rows[j], Apply(s, step).rows[j])
    {
      CoordinatorRows(s, step, j);
    }
    assert step.Fetch? ==> forall j :: j in step.chosen ==> s.rows[j].status.Pending?;
  }

  lemma ActShape(s: State, h: HandleId, event: Event)
    requires h in s.handles && EventEnabled(s.handles[h].phase, event) && NextOf(s, h, event).0.Some?
    ensures var t := ActOn(s, h, event);
            var (next, phase) := NextOf(s, h, event);
            && t.rows == s.rows[s.handles[h].job := next.value]
            && t.handles == HandlesAfter(s.handles, h, phase)
            && t.served == s.served && t.skipped == s.skipped && t.batch == s.batch
            && t.isFirstFetch == s.isFirstFetch
  {
  }

  /** What a handle's step changes. */
  lemma ActEffect(s: State, h: HandleId, event: Event)
    requires Inv(s) && CanTake(s, Act(h, event))
    ensures s.handles[h].job in s.rows && h < |s.served| && s.served[h] == s.handles[h].job
    ensures RowOk(s.rows[s.handles[h].job]) && PhaseOk(s.rows[s.handles[h].job], s.handles[h].phase)
    ensures NextOf(s, h, event) == HandleNext(Some(s.rows[s.handles[h].job]), s.handles[h].phase, event)
    ensures var t := ActOn(s, h, event);
            var (next, phase) := NextOf(s, h, event);
            && next.Some? && t.rows == s.rows[s.handles[h].job := next.value] && TableEvolves(s.rows, t.rows)
            && t.handles == HandlesAfter(s.handles, h, phase)
            && t.served == s.served && t.skipped == s.skipped && t.batch == s.batch
            && t.isFirstFetch == s.isFirstFetch
  {
    assert HandleOk(s, h);
    HandleRow(s.rows[s.handles[h].job], s.handles[h].phase, event);
    ActShape(s, h, event);
  }

  lemma ActKeeps(s: State, h: HandleId, event: Event)
    requires QueryInv(s) && CanTake(s, Act(h, event))
    ensures QueryInv(ActOn(s, h, event)) && TableEvolves(s.rows, ActOn(s, h, event).rows)
  {
    ActEffect(s, h, event);
    HandleRow(s.rows[s.handles[h].job], s.handles[h].phase, event);
    HandleStepKeeps(s, h, NextOf(s, h, event).0.value, NextOf(s, h, event).1,
                    Submits(event), Starts(s.handles[h].phase, event));
    assert s.served[h] in s.served;
  }

  lemma StepKeeps(s: State, step: QueryStep)
    requires QueryInv(s) && CanTake(s, step)
    ensures QueryInv(Take(s, step)) && TableEvolves(s.rows, Take(s, step).rows)
  {
    match step
    case Cancel(job) => CancelKeeps(s, job);
    case Coordinate(step) => CoordinateKeeps(s, step);
    case Act(h, event) => ActKeeps(s, h, event);
  }

  // ---- Whole runs -----------------------------------------------------------------------------

  /** A run from an empty job table: every step could be taken and gave the next state. */
  ghost predicate IsRun(states: seq<State>, steps: seq<QueryStep>) {
    && |states| == |steps| + 1
    && states[0] == Init(states[0].maxConcurrent)
    && forall i :: 0 <= i < |steps| ==> CanTake(states[i], steps[i]) && states[i + 1] == Take(states[i], steps[i])
  }

  lemma {:induction false} RunKeeps(states: seq<State>, steps: seq<QueryStep>, i: nat)
    requires IsRun(states, steps) && i < |states|
    ensures QueryInv(states[i])
  {
    if i == 0 {
      InvInit(states[0].maxConcurrent);
    } else {
      RunKeeps(states, steps, i - 1);
      StepKeeps(states[i - 1], steps[i - 1]);
    }
  }

  lemma TableStep(states: seq<State>, steps: seq<QueryStep>, i: nat)
    requires IsRun(states, steps) && i < |steps|
    ensures TableEvolves(states[i].rows, states[i + 1].rows)
  {
    RunKeeps(states, steps, i);
    StepKeeps(states[i], steps[i]);
  }

  lemma {:induction false} TablesMoveForward(tables: seq<map<JobId, Row>>, i: nat, k: nat, j: JobId)
    requires forall n :: 0 < n < |tables| ==> TableEvolves(tables[n - 1], tables[n])
    requires i <= k < |tables| && j in tables[i]
    ensures j in tables[k] && RowEvolves(tables[i][j], tables[k][j])
    decreases k
  {
    if i < k {
      TablesMoveForward(tables, i, k - 1, j);
      assert TableEvolves(tables[k - 1], tables[k]);
    }
  }

  /** Over every run, rows are never lost and only move forward: a terminal status never changes,
      an accepted cancel is followed only by cancelled or failed, and the Spider job, once set, stays. */
  lemma RowsMoveForward(states: seq<State>, steps: seq<QueryStep>, i: nat, k: nat, j: JobId)
    requires IsRun(states, steps) && i <= k < |states| && j in states[i].rows
    ensures j in states[k].rows && RowEvolves(states[i].rows[j], states[k].rows[j])
  {
    var tables := seq(|states|, n requires 0 <= n < |states| => states[n].rows);
    forall n | 0 < n < |tables| ensures TableEvolves(tables[n - 1], tables[n]) {
      TableStep(states, steps, n - 1);
    }
    TablesMoveForward(tables, i, k, j);
  }

  /** A running row always has a Spider job and a dispatch mark, so a restart can recover it. */
  lemma RunningIsRecorded(states: seq<State>, steps: seq<QueryStep>, i: nat, j: JobId)
    requires IsRun(states, steps) && i < |states| && j in states[i].rows
    requires states[i].rows[j].status.Running?
    ensures states[i].rows[j].spiderId.Some? && states[i].rows[j].dispatched
  {
    RunKeeps(states, steps, i);
  }

  /** At most one Spider job is ever started for a query job, over all crashes and restarts, and it
      is the one the row records. */
  lemma OneSpiderJob(states: seq<State>, steps: seq<QueryStep>, i: nat, k: nat, j: JobId, a: SpiderId, b: SpiderId)
    requires IsRun(states, steps) && i <= k < |states|
    requires (j, a) in states[i].started && (j, b) in states[k].started
    ensures a == b && j in states[k].rows && states[k].rows[j].spiderId == Some(a)
  {
    RunKeeps(states, steps, i);
    RunKeeps(states, steps, k);
    RowsMoveForward(states, steps, i, k, j);
  }

  lemma EventAwaits(row: Option<Row>, phase: Phase, event: Event)
    requires EventEnabled(phase, event)
    ensures var next := HandleNext(row, phase, event).1;
            next.Some? && next.value.Awaiting? ==> Starts(phase, event) == Some(next.value.spiderId)
  {
  }

  lemma AwaitsStep(s: State, step: QueryStep)
    requires CanTake(s, step) && AwaitsStarted(s)
    ensures AwaitsStarted(Take(s, step)) && s.started <= Take(s, step).started
  {
    match step
    case Cancel(_) =>
    case Coordinate(step) => CoordinatorAwaits(s, step);
    case Act(h, event) =>
      EventAwaits(RowOf(s, s.handles[h].job), s.handles[h].phase, event);
      HandleStepAwaits(s, h, NextOf(s, h, event).0, NextOf(s, h, event).1, Submits(event),
                       Starts(s.handles[h].phase, event));
  }

  lemma {:induction false} AwaitsOverRuns(states: seq<State>, steps: seq<QueryStep>, i: nat, k: nat)
    requires IsRun(states, steps) && i <= k < |states|
    ensures AwaitsStarted(states[k]) && states[i].started <= states[k].started
    decreases k
  {
    if i < k {
      AwaitsOverRuns(states, steps, i, k - 1);
      AwaitsStep(states[k - 1], steps[k - 1]);
    } else if k > 0 {
      AwaitsOverRuns(states, steps, k - 1, k - 1);
      AwaitsStep(states[k - 1], steps[k - 1]);
    }
  }

  /** Over every run, crashes and recoveries included, a handle that waits for a Spider job waits for the one
      that its row records, and that one was started. */
  lemma WaitsForStarted(states: seq<State>, steps: seq<QueryStep>, i: nat, h: HandleId)
    requires IsRun(states, steps) && i < |states| && h in states[i].handles && states[i].handles[h].phase.Awaiting?
    ensures var (job, id) := (states[i].handles[h].job, states[i].handles[h].phase.spiderId);
            && (job, id) in states[i].started
            && job in states[i].rows && states[i].rows[job].spiderId == Some(id)
  {
    RunKeeps(states, steps, i);
    AwaitsOverRuns(states, steps, i, i);
  }

  /** No job is given two handles in a coordinator's lifetime, so no two live handles share a job. */
  lemma OneHandlePerJob(states: seq<State>, steps: seq<QueryStep>, i: nat)
    requires IsRun(states, steps) && i < |states|
    ensures Distinct(states[i].served)
    ensures forall h, g :: h in states[i].handles && g in states[i].handles && h != g ==>
              states[i].handles[h].job != states[i].handles[g].job
  {
    RunKeeps(states, steps, i);
    forall h, g | h in states[i].handles && g in states[i].handles && h != g
      ensures states[i].handles[h].job != states[i].handles[g].job
    {
      NoSharedJobs(states[i], h, g);
    }
  }

  /** In every reachable state: the permits suffice, and a pending or running job has exactly one claim. */
  lemma EveryJobIsClaimedOnce(states: seq<State>, steps: seq<QueryStep>, i: nat, j: JobId, claim: Claim)
    requires IsRun(states, steps) && i < |states|
    ensures |Scheduled(states[i].handles)| <= states[i].maxConcurrent
    ensures states[i].stage == Scheduling(false) ==> forall j :: j in states[i].batch ==> Enabled(states[i], Spawn(j))
    ensures j in states[i].rows && (states[i].rows[j].status.Pending? || states[i].rows[j].status.Running?) ==>
              (HasClaim(states[i], j, claim) <==> claim == ClaimOf(states[i], j))
  {
    var s := states[i];
    RunKeeps(states, steps, i);
    PermitsSuffice(s);
    if j in s.rows && (s.rows[j].status.Pending? || s.rows[j].status.Running?) {
      ExactlyOneClaim(s, j, claim);
    }
  }

  // ---- Cancelled jobs that nobody holds -------------------------------------------------------

  /** A job whose cancel was accepted while no handle drives it and none is about to. */
  ghost predicate Stranded(s: State, j: JobId) {
    j in s.rows && s.rows[j].status.Cancelling? && j !in s.batch && !Driven(s, j)
  }

  lemma StrandedCoordinate(s: State, step: Step, j: JobId)
    requires Inv(s) && Enabled(s, step) && Stranded(s, j)
    ensures Stranded(Apply(s, step), j)
  {
    CoordinatorRows(s, step, j);
  }

  lemma StrandedAct(s: State, h: HandleId, event: Event, j: JobId)
    requires CanTake(s, Act(h, event)) && Stranded(s, j)
    ensures Stranded(ActOn(s, h, event), j)
  {
    var t := WithRow(s, s.handles[h].job, NextOf(s, h, event).0);
    assert t.rows[j] == s.rows[j];
  }

  lemma StrandedStep(s: State, step: QueryStep, j: JobId)
    requires Inv(s) && CanTake(s, step) && Stranded(s, j)
    ensures Stranded(Take(s, step), j)
  {
    match step
    case Cancel(_) =>
    case Coordinate(step) => StrandedCoordinate(s, step, j);
    case Act(h, event) => StrandedAct(s, h, event, j);
  }

  /** Such a job stays cancelling for ever: no query selects it again, restart or not. */
  lemma {:induction false} StrandedForever(states: seq<State>, steps: seq<QueryStep>, i: nat, k: nat, j: JobId)
    requires IsRun(states, steps) && i <= k < |states| && Stranded(states[i], j)
    ensures Stranded(states[k], j) && states[k].rows[j].status.Cancelling?
    decreases k
  {
    if i < k {
      StrandedForever(states, steps, i, k - 1, j);
      RunKeeps(states, steps, k - 1);
      StrandedStep(states[k - 1], steps[k - 1], j);
    }
  }
}
