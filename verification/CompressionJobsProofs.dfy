/** What every run of the compression-job protocol keeps. */
module CompressionJobsProofs {
  import opened Wrappers
  import opened JobCoordinator
  import opened CompressionJobs

  /** A run from an empty job table: every step could be taken and gave the next state. */
  ghost predicate IsRun(states: seq<CompressionState>, steps: seq<CompressionStep>) {
    && |states| == |steps| + 1
    && states[0] == CompressionState(Init(states[0].core.maxConcurrent), [])
    && forall i :: 0 <= i < |steps| ==> CanTake(states[i], steps[i]) && states[i + 1] == Take(states[i], steps[i])
  }

  lemma {:induction false} RunKeeps(states: seq<CompressionState>, steps: seq<CompressionStep>, i: nat)
    requires IsRun(states, steps) && i < |states|
    ensures CompressionInv(states[i])
  {
    if i == 0 {
      InvInit(states[0].core.maxConcurrent);
    } else {
      RunKeeps(states, steps, i - 1);
      StepKeeps(states[i - 1], steps[i - 1]);
    }
  }

  lemma TableStep(states: seq<CompressionState>, steps: seq<CompressionStep>, i: nat)
    requires IsRun(states, steps) && i < |steps|
    ensures TableAdvances(states[i].core.rows, states[i + 1].core.rows)
  {
    RunKeeps(states, steps, i);
    StepKeeps(states[i], steps[i]);
  }

  lemma {:induction false} TablesMoveForward(tables: seq<map<JobId, Row>>, i: nat, k: nat, j: JobId)
    requires forall n :: 0 < n < |tables| ==> TableAdvances(tables[n - 1], tables[n])
    requires i <= k < |tables| && j in tables[i]
    ensures j in tables[k] && RowAdvances(tables[i][j], tables[k][j])
    decreases k
  {
    if i < k {
      TablesMoveForward(tables, i, k - 1, j);
      assert TableAdvances(tables[k - 1], tables[k]);
    }
  }

  /** Over every run no row is lost, none returns to pending, a job that has ended stays ended, and
      the Spider job, once persisted, stays. */
  lemma RowsMoveForward(states: seq<CompressionState>, steps: seq<CompressionStep>, i: nat, k: nat, j: JobId)
    requires IsRun(states, steps) && i <= k < |states| && j in states[i].core.rows
    ensures j in states[k].core.rows && RowAdvances(states[i].core.rows[j], states[k].core.rows[j])
  {
    var tables := seq(|states|, n requires 0 <= n < |states| => states[n].core.rows);
    forall n | 0 < n < |tables| ensures TableAdvances(tables[n - 1], tables[n]) {
      TableStep(states, steps, n - 1);
    }
    TablesMoveForward(tables, i, k, j);
  }

  /** At most one Spider job is ever started for a compression job, over all crashes and restarts,
      and it is the persisted one. */
  lemma OneSpiderJob(states: seq<CompressionState>, steps: seq<CompressionStep>, i: nat, k: nat,
                     j: JobId, a: SpiderId, b: SpiderId)
    requires IsRun(states, steps) && i <= k < |states|
    requires (j, a) in states[i].core.started && (j, b) in states[k].core.started
    ensures a == b && j in states[k].core.rows && states[k].core.rows[j].spiderId == Some(a)
  {
    RunKeeps(states, steps, i);
    RunKeeps(states, steps, k);
    RowsMoveForward(states, steps, i, k, j);
  }

  lemma EventAwaits(row: Option<Row>, phase: Phase, event: Event)
    requires EventEnabled(phase, event)
    ensures var next := HandleNext(row, phase, event).1;
            next.Some? && next.value.Awaiting? ==> Starts(phase, event) == Some(next.value.spiderId)
  {
  }

  lemma AwaitsStep(s: CompressionState, step: CompressionStep)
    requires CanTake(s, step) && AwaitsStarted(s.core)
    ensures AwaitsStarted(Take(s, step).core) && s.core.started <= Take(s, step).core.started
  {
    match step
    case Coordinate(step) => CoordinatorAwaits(s.core, step);
    case Act(h, event) =>
      EventAwaits(RowOf(s.core, s.core.handles[h].job), s.core.handles[h].phase, event);
      HandleStepAwaits(s.core, h, NextOf(s.core, h, event).0, NextOf(s.core, h, event).1, Submits(event),
                       Starts(s.core.handles[h].phase, event));
    case Commit(_, _) =>
  }

  lemma {:induction false} AwaitsOverRuns(states: seq<CompressionState>, steps: seq<CompressionStep>, i: nat)
    requires IsRun(states, steps) && i < |states|
    ensures AwaitsStarted(states[i].core)
  {
    if i > 0 {
      AwaitsOverRuns(states, steps, i - 1);
      AwaitsStep(states[i - 1], steps[i - 1]);
    }
  }

  /** Over every run, crashes and recoveries included, a handle that waits for a Spider job waits for the one
      that its row records, and that one was started. */
  lemma WaitsForStarted(states: seq<CompressionState>, steps: seq<CompressionStep>, i: nat, h: HandleId)
    requires IsRun(states, steps) && i < |states|
    requires h in states[i].core.handles && states[i].core.handles[h].phase.Awaiting?
    ensures var s := states[i].core; var (job, id) := (s.handles[h].job, s.handles[h].phase.spiderId);
            (job, id) in s.started && job in s.rows && s.rows[job].spiderId == Some(id)
  {
    RunKeeps(states, steps, i);
    AwaitsOverRuns(states, steps, i);
  }

  /** A job's archives are published at most once, and only for a job that has ended. */
  lemma PublishedOnce(states: seq<CompressionState>, steps: seq<CompressionStep>, i: nat)
    requires IsRun(states, steps) && i < |states|
    ensures Distinct(states[i].published)
    ensures forall j :: j in states[i].published ==>
              j in states[i].core.rows && states[i].core.rows[j].status.IsTerminal()
  {
    RunKeeps(states, steps, i);
  }

  /** In every reachable state: no job has two handles, the permits suffice, and a pending or running
      job has exactly one claim. */
  lemma EveryJobIsClaimedOnce(states: seq<CompressionState>, steps: seq<CompressionStep>, i: nat,
                              j: JobId, claim: Claim)
    requires IsRun(states, steps) && i < |states|
    ensures Distinct(states[i].core.served)
    ensures |Scheduled(states[i].core.handles)| <= states[i].core.maxConcurrent
    ensures states[i].core.stage == Scheduling(false) ==>
              forall j :: j in states[i].core.batch ==> Enabled(states[i].core, Spawn(j))
    ensures j in states[i].core.rows
            && (states[i].core.rows[j].status.Pending? || states[i].core.rows[j].status.Running?) ==>
              (HasClaim(states[i].core, j, claim) <==> claim == ClaimOf(states[i].core, j))
  {
    var s := states[i].core;
    RunKeeps(states, steps, i);
    PermitsSuffice(s);
    if j in s.rows && (s.rows[j].status.Pending? || s.rows[j].status.Running?) {
      ExactlyOneClaim(s, j, claim);
    }
  }

  // ---- Spider IDs identify jobs ---------------------------------------------------------------

  /** Every persisted or registered Spider ID was given out by Spider and belongs to one job only. */
  ghost predicate RowIdsOk(s: State) {
    && (forall j :: j in s.rows && s.rows[j].spiderId.Some? ==> s.rows[j].spiderId.value in s.submitted)
    && (forall j, k :: j in s.rows && k in s.rows && j != k && s.rows[j].spiderId.Some? ==>
          s.rows[j].spiderId != s.rows[k].spiderId)
  }

  ghost predicate HandleIdsOk(s: State) {
    && (forall h :: h in s.handles && s.handles[h].phase.Submitted? ==> s.handles[h].phase.spiderId in s.submitted)
    && (forall h, j :: h in s.handles && s.handles[h].phase.Submitted? && j in s.rows ==>
          s.rows[j].spiderId != Some(s.handles[h].phase.spiderId))
    && (forall h, g ::
          h in s.handles && g in s.handles && h != g && s.handles[h].phase.Submitted? && s.handles[g].phase.Submitted?
          ==> s.handles[h].phase.spiderId != s.handles[g].phase.spiderId)
  }

  ghost predicate SpiderIdsOk(s: State) {
    RowIdsOk(s) && HandleIdsOk(s)
  }

  /** Nothing but statuses, marks, new rows without a Spider job and handles that end or have not
      registered one. */
  lemma IdsFrame(s: State, t: State)
    requires SpiderIdsOk(s) && t.submitted == s.submitted
    requires forall j :: j in t.rows ==>
               if j in s.rows then t.rows[j].spiderId == s.rows[j].spiderId else t.rows[j].spiderId.None?
    requires forall h :: h in t.handles && t.handles[h].phase.Submitted? ==>
               h in s.handles && t.handles[h].phase == s.handles[h].phase
    ensures SpiderIdsOk(t)
  {
  }

  lemma IdsCoordinate(s: State, step: Step)
    requires SpiderIdsOk(s) && Enabled(s, step)
    ensures SpiderIdsOk(Apply(s, step))
  {
    var t := Apply(s, step);
    forall j | j in s.rows ensures j in t.rows && t.rows[j].spiderId == s.rows[j].spiderId {
      CoordinatorRows(s, step, j);
    }
    IdsFrame(s, t);
  }

  lemma IdsSubmit(s: State, t: State, h: HandleId, spiderId: SpiderId)
    requires SpiderIdsOk(s) && h in s.handles && spiderId !in s.submitted
    requires t.rows == s.rows && t.submitted == s.submitted + {spiderId}
    requires t.handles == HandlesAfter(s.handles, h, Some(Submitted(spiderId)))
    ensures SpiderIdsOk(t)
  {
  }

  lemma IdsPersist(s: State, t: State, h: HandleId, phase: Phase)
    requires SpiderIdsOk(s) && h in s.handles && s.handles[h].phase.Submitted? && !phase.Submitted?
    requires s.handles[h].job in s.rows
    requires t.rows == s.rows[s.handles[h].job := Row(Running, Some(s.handles[h].phase.spiderId), true)]
    requires t.submitted == s.submitted && t.handles == HandlesAfter(s.handles, h, Some(phase))
    ensures SpiderIdsOk(t)
  {
  }

  lemma IdsOther(s: State, t: State, h: HandleId, row: Row, phase: Option<Phase>)
    requires SpiderIdsOk(s) && h in s.handles && s.handles[h].job in s.rows
    requires row.spiderId == s.rows[s.handles[h].job].spiderId && (phase.Some? ==> !phase.value.Submitted?)
    requires t.rows == s.rows[s.handles[h].job := row]
    requires t.submitted == s.submitted && t.handles == HandlesAfter(s.handles, h, phase)
    ensures SpiderIdsOk(t)
  {
    IdsFrame(s, t);
  }

  lemma EventIds(row: Row, phase: Phase, event: Event)
    requires EventEnabled(phase, event)
    ensures var (next, nextPhase) := HandleNext(Some(row), phase, event);
            && next.Some?
            && (if event.Submit? then next.value == row && nextPhase == Some(Submitted(event.spiderId))
                else nextPhase.Some? ==> !nextPhase.value.Submitted?)
            && (if event.Persist? && !event.fault.Rejected?
                then next.value == Row(Running, Some(phase.spiderId), true) && nextPhase.Some?
                else next.value.spiderId == row.spiderId)
  {
  }

  lemma IdsEvent(s: State, t: State, h: HandleId, event: Event, row: Row, phase: Option<Phase>)
    requires SpiderIdsOk(s) && h in s.handles && s.handles[h].job in s.rows && EventEnabled(s.handles[h].phase, event)
    requires event.Submit? ==> event.spiderId !in s.submitted
    requires (Some(row), phase) == HandleNext(Some(s.rows[s.handles[h].job]), s.handles[h].phase, event)
    requires t.rows == s.rows[s.handles[h].job := row] && t.handles == HandlesAfter(s.handles, h, phase)
    requires t.submitted == s.submitted + (if event.Submit? then {event.spiderId} else {})
    ensures SpiderIdsOk(t)
  {
    EventIds(s.rows[s.handles[h].job], s.handles[h].phase, event);
    if event.Submit? {
      assert t.rows == s.rows;
      IdsSubmit(s, t, h, event.spiderId);
    } else if event.Persist? && !event.fault.Rejected? {
      IdsPersist(s, t, h, phase.value);
    } else {
      IdsOther(s, t, h, row, phase);
    }
  }

  lemma IdsAct(s: State, h: HandleId, event: Event)
    requires Inv(s) && PhasesFit(s) && SpiderIdsOk(s) && h in s.handles && EventEnabled(s.handles[h].phase, event)
    requires event.Submit? ==> event.spiderId !in s.submitted
    ensures SpiderIdsOk(ActOn(s, h, event))
  {
    ActEffect(s, h, event);
    IdsEvent(s, ActOn(s, h, event), h, event, NextOf(s, h, event).0.value, NextOf(s, h, event).1);
  }

  lemma IdsStep(s: CompressionState, step: CompressionStep)
    requires CompressionInv(s) && SpiderIdsOk(s.core) && CanTake(s, step)
    ensures SpiderIdsOk(Take(s, step).core)
  {
    match step
    case Coordinate(step) => IdsCoordinate(s.core, step);
    case Act(h, event) => IdsAct(s.core, h, event);
    case Commit(job, _) => IdsFrame(s.core, CommitJob(s, job).core);
  }

  lemma {:induction false} IdsOverRuns(states: seq<CompressionState>, steps: seq<CompressionStep>, i: nat)
    requires IsRun(states, steps) && i < |states|
    ensures SpiderIdsOk(states[i].core)
  {
    if i > 0 {
      IdsOverRuns(states, steps, i - 1);
      RunKeeps(states, steps, i - 1);
      IdsStep(states[i - 1], steps[i - 1]);
    }
  }

  /** The commit task's lookup by Spider ID finds exactly the job for which that Spider job was started. */
  lemma CommitFindsItsJob(states: seq<CompressionState>, steps: seq<CompressionStep>, i: nat,
                          j: JobId, spiderId: SpiderId, found: JobId)
    requires IsRun(states, steps) && i < |states| && (j, spiderId) in states[i].core.started
    ensures CanTake(states[i], Commit(found, spiderId)) <==> found == j
  {
    RunKeeps(states, steps, i);
    IdsOverRuns(states, steps, i);
  }
}
