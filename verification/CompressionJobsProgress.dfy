/** How compression-job handles end, and what a coordinator leaves for its successor. */
module CompressionJobsProgress {
  import opened Wrappers
  import opened JobCoordinator
  import opened CompressionJobs
  import opened CompressionJobsProofs
  import opened JobTakeover

  // ---- A handle takes few steps and ends its job ----------------------------------------------

  function Rank(phase: Phase): nat {
    match phase
    case Planning => 6
    case Submitted(_) => 5
    case Driving(_) => 4
    case Awaiting(_) => 3
    case Deciding(_) => 2
    case Overwriting(_) => 1
    case _ => 0
  }

  predicate IsRejectedReport(event: Event) {
    event == ReportFailure(Rejected)
  }

  /** Every step brings a handle nearer its end. When it ends, the row is terminal exactly if it already was
      or the failure could be reported. */
  lemma HandleProgress(row: Row, phase: Phase, event: Event)
    requires EventEnabled(phase, event) && PhaseFits(row, phase)
    requires event == SpiderEnds(OutcomeSucceeded) ==> row.status.IsTerminal()
    ensures var (next, nextPhase) := HandleNext(Some(row), phase, event);
            && next.Some?
            && (nextPhase.Some? ==> Rank(nextPhase.value) < Rank(phase))
            && (nextPhase.None? ==>
                  (next.value.status.IsTerminal() <==> row.status.IsTerminal() || !IsRejectedReport(event)))
  {
  }

  // ---- Jobs whose end could not be recorded ---------------------------------------------------

  /** The job whose end the step fails to record, if any: its handle's failure report is rejected, or so is
      the update of a coordinator that gives the job up. */
  function LostBy(s: CompressionState, step: CompressionStep): (lost: set<JobId>)
    ensures |lost| <= 1
  {
    match step
    case Commit(_, _) => {}
    case Coordinate(step) => SkipLoses(step)
    case Act(h, event) => if h in s.core.handles && IsRejectedReport(event) then {s.core.handles[h].job} else {}
  }

  function Losses(states: seq<CompressionState>, steps: seq<CompressionStep>): seq<set<JobId>>
    requires |steps| <= |states|
  {
    seq(|steps|, i requires 0 <= i < |steps| => LostBy(states[i], steps[i]))
  }

  lemma ActTakeover(s: CompressionState, h: HandleId, event: Event, lost: set<JobId>)
    requires CompressionInv(s) && CanTake(s, Act(h, event)) && TakeoverOk(s.core, lost)
    ensures TakeoverOk(ActOn(s.core, h, event), lost + LostBy(s, Act(h, event)))
  {
    ActEffect(s.core, h, event);
    var row, phase := s.core.rows[s.core.handles[h].job], s.core.handles[h].phase;
    HandleRow(row, phase, event);
    HandleProgress(row, phase, event);
    HandleTakeover(s.core, h, NextOf(s.core, h, event).0.value, NextOf(s.core, h, event).1, Submits(event),
                   Starts(phase, event), lost, lost + LostBy(s, Act(h, event)));
  }

  lemma TakeoverStep(s: CompressionState, step: CompressionStep, lost: set<JobId>)
    requires CompressionInv(s) && CanTake(s, step) && TakeoverOk(s.core, lost)
    ensures TakeoverOk(Take(s, step).core, lost + LostBy(s, step))
  {
    match step
    case Coordinate(step) => CoordinatorTakeover(s.core, step, lost);
    case Act(h, event) => ActTakeover(s, h, event, lost);
    case Commit(job, _) =>
      assert lost + LostBy(s, step) == lost;
      if s.core.rows[job].status.Running? {
        RowTakeover(s.core, job, s.core.rows[job].(status := Succeeded), lost);
      }
  }

  lemma {:induction false} TakeoverOverRuns(states: seq<CompressionState>, steps: seq<CompressionStep>, i: nat)
    requires IsRun(states, steps) && i < |states|
    ensures TakeoverOk(states[i].core, LostIn(Losses(states, steps), i))
  {
    if i > 0 {
      TakeoverOverRuns(states, steps, i - 1);
      RunKeeps(states, steps, i - 1);
      TakeoverStep(states[i - 1], steps[i - 1], LostIn(Losses(states, steps), i - 1));
    }
  }

  /** Over every run, a job that was given a handle keeps it until its row is terminal, unless the handle's
      failure report was rejected. */
  lemma ServedJobsEnd(states: seq<CompressionState>, steps: seq<CompressionStep>, i: nat, h: HandleId)
    requires IsRun(states, steps) && i < |states| && h < |states[i].core.served|
    ensures states[i].core.served[h] in states[i].core.rows
    ensures || h in states[i].core.handles
            || states[i].core.rows[states[i].core.served[h]].status.IsTerminal()
            || states[i].core.served[h] in LostIn(Losses(states, steps), i)
  {
    RunKeeps(states, steps, i);
    TakeoverOverRuns(states, steps, i);
    assert Held(states[i].core, states[i].core.served[h]);
  }

  /** Over every run, nobody takes care of a pending or running job only after a rejected last update of
      that very job. Skipping a job with a rejected update also stands for skipping one whose input is left
      to the legacy scheduler: its row is not updated at all. */
  lemma AbandonedWasRejected(states: seq<CompressionState>, steps: seq<CompressionStep>, i: nat, j: JobId)
      returns (k: nat)
    requires IsRun(states, steps) && i < |states| && j in states[i].core.rows
    requires states[i].core.rows[j].status.Pending? || states[i].core.rows[j].status.Running?
    requires HasClaim(states[i].core, j, Abandoned) || HasClaim(states[i].core, j, GivenUp)
    ensures k < i && LostBy(states[k], steps[k]) == {j}
  {
    RunKeeps(states, steps, i);
    TakeoverOverRuns(states, steps, i);
    UnclaimedIsLost(states[i].core, j, LostIn(Losses(states, steps), i));
    k := LostSomewhere(Losses(states, steps), i, j);
  }

  /** Over every run, a restart's first fetch returns at most as many jobs as there are permits, and one
      more for every update that failed to record a job's end; as many fetched jobs at most wait for a
      permit. Without such updates none ever waits. */
  lemma TakeoverIsBounded(states: seq<CompressionState>, steps: seq<CompressionStep>, i: nat)
    requires IsRun(states, steps) && i < |states|
    ensures |Fetchable(states[i].core.rows, true)| <= states[i].core.maxConcurrent + CountOf(Losses(states, steps), i)
    ensures states[i].core.stage.Scheduling? ==>
              |states[i].core.batch| <= states[i].core.available + CountOf(Losses(states, steps), i)
    ensures states[i].core.stage.Scheduling? && CountOf(Losses(states, steps), i) == 0 ==>
              forall j :: j in states[i].core.batch ==> Enabled(states[i].core, Spawn(j))
  {
    var s := states[i].core;
    TakeoverOverRuns(states, steps, i);
    LostIsCounted(Losses(states, steps), i);
    TakeoverMeans(s, LostIn(Losses(states, steps), i));
    if s.stage.Scheduling? && CountOf(Losses(states, steps), i) == 0 { NobodyWaits(s); }
  }
}
