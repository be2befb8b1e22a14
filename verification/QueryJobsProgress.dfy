/** How query-job handles end, and what a coordinator leaves for its successor. */
module QueryJobsProgress {
  import opened Wrappers
  import opened JobCoordinator
  import opened QueryJobs
  import opened QueryJobsProofs
  import opened JobTakeover

  // ---- A handle takes few steps and ends its job ----------------------------------------------

  function Rank(phase: Phase): nat {
    match phase
    case Planning => 5
    case Submitted(_) => 4
    case Driving(_) => 3
    case Awaiting(_) => 2
    case Terminating(_) => 1
    case _ => 0
  }

  /** What is known of the row while a failed handle finalizes its job. */
  predicate FinalOk(row: Row, phase: Phase) {
    phase.Finalizing? ==>
      && !phase.error.RowMissing?
      && (phase.error.InvalidTransition? && phase.error.from.IsTerminal() ==> row.status == phase.error.from)
      && (phase.error.CancelRequested? ==> row.status.Cancelling? || row.status.IsTerminal())
  }

  predicate IsRejectedFinalize(event: Event) {
    event == FinalizeTx(Rejected)
  }

  /** Every step brings a handle nearer its end: it tries to end its job at most twice, the second
      time only after an error. When it ends, the row is terminal exactly if it already was or the
      last update was not rejected. */
  lemma HandleProgress(row: Row, phase: Phase, event: Event)
    requires EventEnabled(phase, event) && FinalOk(row, phase)
    ensures var (next, nextPhase) := HandleNext(Some(row), phase, event);
            && next.Some?
            && (nextPhase.Some? ==> Rank(nextPhase.value) < Rank(phase) && FinalOk(next.value, nextPhase.value))
            && (nextPhase.None? ==>
                  (next.value.status.IsTerminal() <==> row.status.IsTerminal() || !IsRejectedFinalize(event)))
  {
  }

  lemma FinalOkStays(a: Row, b: Row, phase: Phase)
    requires FinalOk(a, phase) && RowEvolves(a, b)
    ensures FinalOk(b, phase)
  {
  }

  ghost predicate FinalsOk(s: State) {
    forall h :: h in s.handles ==> s.handles[h].job in s.rows && FinalOk(s.rows[s.handles[h].job], s.handles[h].phase)
  }

  /** Handles stay as they are, or are new and not finalizing. */
  lemma FinalsFrame(s: State, t: State)
    requires FinalsOk(s) && TableEvolves(s.rows, t.rows)
    requires forall h :: h in t.handles ==>
               (h in s.handles && t.handles[h] == s.handles[h])
               || (t.handles[h].job in t.rows && !t.handles[h].phase.Finalizing?)
    ensures FinalsOk(t)
  {
    forall h | h in t.handles && h in s.handles && t.handles[h] == s.handles[h]
      ensures t.handles[h].job in t.rows && FinalOk(t.rows[t.handles[h].job], t.handles[h].phase)
    {
      FinalOkStays(s.rows[s.handles[h].job], t.rows[s.handles[h].job], s.handles[h].phase);
    }
  }

  lemma FinalsStepCoordinate(s: State, step: Step)
    requires QueryInv(s) && Enabled(s, step) && FinalsOk(s)
    ensures FinalsOk(Apply(s, step))
  {
    CoordinateKeeps(s, step);
    FinalsFrame(s, Apply(s, step));
  }

  lemma FinalsStepAct(s: State, h: HandleId, event: Event)
    requires Inv(s) && CanTake(s, Act(h, event)) && FinalsOk(s)
    ensures FinalsOk(ActOn(s, h, event))
  {
    ActEffect(s, h, event);
    HandleProgress(s.rows[s.handles[h].job], s.handles[h].phase, event);
    var t := ActOn(s, h, event);
    forall k | k in t.handles && k != h
      ensures t.handles[k].job in t.rows && FinalOk(t.rows[t.handles[k].job], t.handles[k].phase)
    {
      FinalOkStays(s.rows[s.handles[k].job], t.rows[s.handles[k].job], s.handles[k].phase);
    }
  }

  lemma FinalsStep(s: State, step: QueryStep)
    requires QueryInv(s) && CanTake(s, step) && FinalsOk(s)
    ensures FinalsOk(Take(s, step))
  {
    match step
    case Cancel(job) =>
      CancelKeeps(s, job);
      FinalsFrame(s, Take(s, step));
    case Coordinate(step) => FinalsStepCoordinate(s, step);
    case Act(h, event) => FinalsStepAct(s, h, event);
  }

  // ---- Jobs whose end could not be recorded ---------------------------------------------------

  /** The job whose end the step fails to record, if any: its handle's last update is rejected, or so is the
      update of a coordinator that gives the job up. */
  function LostBy(s: State, step: QueryStep): (lost: set<JobId>)
    ensures |lost| <= 1
  {
    match step
    case Cancel(_) => {}
    case Coordinate(step) => SkipLoses(step)
    case Act(h, event) => if h in s.handles && IsRejectedFinalize(event) then {s.handles[h].job} else {}
  }

  function Losses(states: seq<State>, steps: seq<QueryStep>): seq<set<JobId>>
    requires |steps| <= |states|
  {
    seq(|steps|, i requires 0 <= i < |steps| => LostBy(states[i], steps[i]))
  }

  lemma ActTakeover(s: State, h: HandleId, event: Event, lost: set<JobId>)
    requires QueryInv(s) && CanTake(s, Act(h, event)) && FinalsOk(s) && TakeoverOk(s, lost)
    ensures TakeoverOk(ActOn(s, h, event), lost + LostBy(s, Act(h, event)))
  {
    ActEffect(s, h, event);
    var row := s.rows[s.handles[h].job];
    HandleRow(row, s.handles[h].phase, event);
    HandleProgress(row, s.handles[h].phase, event);
    HandleTakeover(s, h, NextOf(s, h, event).0.value, NextOf(s, h, event).1, Submits(event),
                   Starts(s.handles[h].phase, event), lost, lost + LostBy(s, Act(h, event)));
  }

  lemma TakeoverStep(s: State, step: QueryStep, lost: set<JobId>)
    requires QueryInv(s) && CanTake(s, step) && FinalsOk(s) && TakeoverOk(s, lost)
    ensures TakeoverOk(Take(s, step), lost + LostBy(s, step))
  {
    match step
    case Cancel(job) =>
      RowTakeover(s, job, s.rows[job].(status := Cancelling), lost);
      assert lost + LostBy(s, step) == lost;
    case Coordinate(step) => CoordinatorTakeover(s, step, lost);
    case Act(h, event) => ActTakeover(s, h, event, lost);
  }

  lemma {:induction false} TakeoverOverRuns(states: seq<State>, steps: seq<QueryStep>, i: nat)
    requires IsRun(states, steps) && i < |states|
    ensures FinalsOk(states[i]) && TakeoverOk(states[i], LostIn(Losses(states, steps), i))
  {
    if i > 0 {
      TakeoverOverRuns(states, steps, i - 1);
      RunKeeps(states, steps, i - 1);
      FinalsStep(states[i - 1], steps[i - 1]);
      TakeoverStep(states[i - 1], steps[i - 1], LostIn(Losses(states, steps), i - 1));
    }
  }

  /** Over every run, a job that was given a handle keeps it until its row is terminal, unless the
      handle's last update was rejected. */
  lemma ServedJobsEnd(states: seq<State>, steps: seq<QueryStep>, i: nat, h: HandleId)
    requires IsRun(states, steps) && i < |states| && h < |states[i].served|
    ensures states[i].served[h] in states[i].rows
    ensures || h in states[i].handles
            || states[i].rows[states[i].served[h]].status.IsTerminal()
            || states[i].served[h] in LostIn(Losses(states, steps), i)
  {
    RunKeeps(states, steps, i);
    TakeoverOverRuns(states, steps, i);
    assert Held(states[i], states[i].served[h]);
  }

  /** Over every run, nobody takes care of a pending or running job only after a rejected last update of
      that very job. */
  lemma AbandonedWasRejected(states: seq<State>, steps: seq<QueryStep>, i: nat, j: JobId) returns (k: nat)
    requires IsRun(states, steps) && i < |states| && j in states[i].rows
    requires states[i].rows[j].status.Pending? || states[i].rows[j].status.Running?
    requires HasClaim(states[i], j, Abandoned) || HasClaim(states[i], j, GivenUp)
    ensures k < i && LostBy(states[k], steps[k]) == {j}
  {
    RunKeeps(states, steps, i);
    TakeoverOverRuns(states, steps, i);
    UnclaimedIsLost(states[i], j, LostIn(Losses(states, steps), i));
    k := LostSomewhere(Losses(states, steps), i, j);
  }

  /** Over every run, a restart's first fetch returns at most as many jobs as there are permits, and one
      more for every update that failed to record a job's end; as many fetched jobs at most wait for a
      permit. Without such updates none ever waits. */
  lemma TakeoverIsBounded(states: seq<State>, steps: seq<QueryStep>, i: nat)
    requires IsRun(states, steps) && i < |states|
    ensures |Fetchable(states[i].rows, true)| <= states[i].maxConcurrent + CountOf(Losses(states, steps), i)
    ensures states[i].stage.Scheduling? ==> |states[i].batch| <= states[i].available + CountOf(Losses(states, steps), i)
    ensures states[i].stage.Scheduling? && CountOf(Losses(states, steps), i) == 0 ==>
              forall j :: j in states[i].batch ==> Enabled(states[i], Spawn(j))
  {
    TakeoverOverRuns(states, steps, i);
    LostIsCounted(Losses(states, steps), i);
    TakeoverMeans(states[i], LostIn(Losses(states, steps), i));
    if states[i].stage.Scheduling? && CountOf(Losses(states, steps), i) == 0 { NobodyWaits(states[i]); }
  }

  // ---- How a job comes to be stranded ---------------------------------------------------------

  /** The three ways: the cancel of a job that nobody drives or is about to, a crash while the job is being
      cancelled, and a rejected last update of a job that is being cancelled. */
  ghost predicate Strands(s: State, step: QueryStep, j: JobId) {
    match step
    case Cancel(job) => job == j && j !in s.batch && !Driven(s, j)
    case _ =>
      && j in s.rows && s.rows[j].status.Cancelling?
      && (step == Coordinate(Crash) || j in LostBy(s, step))
  }

  /** A handle leaves its job cancelling exactly if it was and the last update is rejected. */
  lemma EndsCancelling(row: Row, phase: Phase, event: Event)
    requires EventEnabled(phase, event) && FinalOk(row, phase)
    ensures var (next, nextPhase) := HandleNext(Some(row), phase, event);
            && next.Some?
            && (nextPhase.None? && next.value.status.Cancelling? <==>
                  row.status.Cancelling? && IsRejectedFinalize(event))
  {
  }

  lemma DrivenAfter(s: State, t: State, h: HandleId, phase: Option<Phase>, j: JobId)
    requires h in s.handles && t.handles == HandlesAfter(s.handles, h, phase)
    requires forall k :: k in s.handles && k != h ==> s.handles[k].job != s.handles[h].job
    ensures Driven(t, j) <==> if s.handles[h].job == j then phase.Some? else Driven(s, j)
  {
    if s.handles[h].job == j {
      if phase.Some? { assert t.handles[h].job == j; }
    } else if Driven(s, j) {
      var k :| k in s.handles && s.handles[k].job == j;
      assert t.handles[k].job == j;
    }
  }

  lemma StrandedAfter(s: State, t: State, h: HandleId, row: Row, phase: Option<Phase>, j: JobId)
    requires h in s.handles && t.handles == HandlesAfter(s.handles, h, phase) && t.batch == s.batch
    requires t.rows == s.rows[s.handles[h].job := row] && s.handles[h].job !in s.batch && !Stranded(s, j)
    requires forall k :: k in s.handles && k != h ==> s.handles[k].job != s.handles[h].job
    ensures Stranded(t, j) <==> j == s.handles[h].job && phase.None? && row.status.Cancelling?
  {
    DrivenAfter(s, t, h, phase, j);
  }

  lemma ActStrands(s: State, h: HandleId, event: Event, j: JobId)
    requires Inv(s) && FinalsOk(s) && CanTake(s, Act(h, event)) && !Stranded(s, j)
    ensures Stranded(ActOn(s, h, event), j) <==> Strands(s, Act(h, event), j)
  {
    ActEffect(s, h, event);
    EndsCancelling(s.rows[s.handles[h].job], s.handles[h].phase, event);
    forall k | k in s.handles && k != h ensures s.handles[k].job != s.handles[h].job { NoSharedJobs(s, h, k); }
    StrandedAfter(s, ActOn(s, h, event), h, NextOf(s, h, event).0.value, NextOf(s, h, event).1, j);
  }

  lemma DrivenCoordinate(s: State, step: Step, j: JobId)
    requires HandlesOk(s) && Enabled(s, step)
    ensures Driven(Apply(s, step), j) <==>
              !step.Crash? && !step.Boot? && (Driven(s, j) || step == Spawn(j))
  {
    var t := Apply(s, step);
    if step.Spawn? { assert t.handles[|s.served|].job == step.job; }
    if Driven(s, j) && !step.Crash? && !step.Boot? {
      var k :| k in s.handles && s.handles[k].job == j;
      assert HandleOk(s, k) && t.handles[k].job == j;
    }
  }

  lemma CoordinatorStrands(s: State, step: Step, j: JobId)
    requires Inv(s) && Enabled(s, step) && !Stranded(s, j)
    ensures Stranded(Apply(s, step), j) <==> Strands(s, Coordinate(step), j)
  {
    if j in s.rows { CoordinatorRows(s, step, j); }
    DrivenCoordinate(s, step, j);
    if Driven(s, j) { DrivenIsServed(s, j); }
  }

  lemma StrandsExactly(s: State, step: QueryStep, j: JobId)
    requires Inv(s) && FinalsOk(s) && CanTake(s, step) && !Stranded(s, j)
    ensures Stranded(Take(s, step), j) <==> Strands(s, step, j)
  {
    match step
    case Cancel(job) =>
    case Coordinate(step) => CoordinatorStrands(s, step, j);
    case Act(h, event) => ActStrands(s, h, event, j);
  }

  /** Over every run, a job is stranded exactly if one of the steps so far stranded it. */
  lemma {:induction false} StrandedExactly(states: seq<State>, steps: seq<QueryStep>, k: nat, j: JobId)
    requires IsRun(states, steps) && k < |states|
    ensures Stranded(states[k], j) <==> exists i :: 0 <= i < k && Strands(states[i], steps[i], j)
  {
    if k > 0 {
      StrandedExactly(states, steps, k - 1, j);
      RunKeeps(states, steps, k - 1);
      TakeoverOverRuns(states, steps, k - 1);
      if Stranded(states[k - 1], j) {
        StrandedStep(states[k - 1], steps[k - 1], j);
      } else {
        StrandsExactly(states[k - 1], steps[k - 1], j);
      }
    }
  }
}
