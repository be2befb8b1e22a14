/** What a coordinator leaves undone, and what its successor has to take over. */
module JobTakeover {
  import opened Wrappers
  import opened JobCoordinator

  /** A job that has ended stays ended. */
  predicate Forward(a: Row, b: Row) {
    Advances(a, b) && (a.status.IsTerminal() ==> b.status.IsTerminal())
  }

  predicate TableForward(a: map<JobId, Row>, b: map<JobId, Row>) {
    forall j :: j in a ==> j in b && Forward(a[j], b[j])
  }

  /** Every served job has its live handle or has ended, and every job given up has ended, except for jobs
      whose end could not be recorded. */
  ghost predicate EndedBut(s: State, lost: set<JobId>) {
    && (forall h: nat :: h < |s.served| && h !in s.handles && s.served[h] !in lost ==>
          s.served[h] in s.rows && s.rows[s.served[h]].status.IsTerminal())
    && (forall j :: j in s.skipped && j !in lost ==> j in s.rows && s.rows[j].status.IsTerminal())
  }

  /** Recovered jobs are past pending, and until the first fetch there are no other handles. */
  ghost predicate RecoveredOk(s: State) {
    forall h :: h in s.handles ==>
      && s.handles[h].job in s.rows
      && (!s.handles[h].scheduled ==> !s.rows[s.handles[h].job].status.Pending?)
      && (s.isFirstFetch ==> !s.handles[h].scheduled)
  }

  /** Pending jobs that a restart's first fetch would return, now or once the marks are written. */
  function Waiting(s: State): set<JobId> {
    set j | j in s.rows && s.rows[j].status.Pending? && (s.rows[j].dispatched || j in s.toMark)
  }

  /** There are no more waiting jobs, and no more fetched jobs without a permit, than lost jobs allow. */
  ghost predicate Bounded(s: State, lost: set<JobId>) {
    && |Waiting(s)| <= s.maxConcurrent + |lost|
    && (s.stage.Scheduling? ==> |s.batch| <= s.available + |lost|)
  }

  ghost predicate TakeoverOk(s: State, lost: set<JobId>) {
    EndedBut(s, lost) && RecoveredOk(s) && Bounded(s, lost)
  }

  // ---- Counting -------------------------------------------------------------------------------

  lemma {:induction false} SubsetIsSmaller(a: set<JobId>, b: set<JobId>)
    requires a <= b
    ensures |a| <= |b|
    decreases |a|
  {
    if a != {} {
      var x :| x in a;
      SubsetIsSmaller(a - {x}, b - {x});
    }
  }

  function JobsOf(handles: map<HandleId, Handle>, ids: set<HandleId>): set<JobId>
    requires forall h :: h in ids ==> h in handles
  {
    set h | h in ids :: handles[h].job
  }

  lemma {:induction false} JobsOfAtMost(handles: map<HandleId, Handle>, ids: set<HandleId>)
    requires forall h :: h in ids ==> h in handles
    ensures |JobsOf(handles, ids)| <= |ids|
    decreases |ids|
  {
    if ids != {} {
      var h :| h in ids;
      JobsOfAtMost(handles, ids - {h});
      assert JobsOf(handles, ids) == JobsOf(handles, ids - {h}) + {handles[h].job};
    }
  }

  lemma CountedTogether(waiting: set<JobId>, batch: set<JobId>, handles: map<HandleId, Handle>, lost: set<JobId>)
    requires forall j :: j in waiting ==> j in batch || j in JobsOf(handles, Scheduled(handles)) || j in lost
    ensures |waiting| <= |batch| + |Scheduled(handles)| + |lost|
  {
    var jobs := JobsOf(handles, Scheduled(handles));
    SubsetIsSmaller(waiting, batch + jobs + lost);
    JobsOfAtMost(handles, Scheduled(handles));
    assert |batch + jobs + lost| <= |batch + jobs| + |lost| <= |batch| + |jobs| + |lost|;
  }

  /** The jobs lost in the first n steps, given those that each step lost. */
  function LostIn(losses: seq<set<JobId>>, n: nat): set<JobId>
    requires n <= |losses|
  {
    if n == 0 then {} else LostIn(losses, n - 1) + losses[n - 1]
  }

  /** How many of the first n steps lost a job. */
  function CountOf(losses: seq<set<JobId>>, n: nat): nat
    requires n <= |losses|
  {
    if n == 0 then 0 else CountOf(losses, n - 1) + (if losses[n - 1] == {} then 0 else 1)
  }

  lemma {:induction false} LostIsCounted(losses: seq<set<JobId>>, n: nat)
    requires n <= |losses| && forall i :: 0 <= i < n ==> |losses[i]| <= 1
    ensures |LostIn(losses, n)| <= CountOf(losses, n)
  {
    if n > 0 {
      LostIsCounted(losses, n - 1);
      var before := LostIn(losses, n - 1);
      assert |before + losses[n - 1]| <= |before| + |losses[n - 1]|;
    }
  }

  /** A lost job was lost in some step. */
  lemma {:induction false} LostSomewhere(losses: seq<set<JobId>>, n: nat, j: JobId) returns (k: nat)
    requires n <= |losses| && j in LostIn(losses, n)
    ensures k < n && j in losses[k]
  {
    if j in losses[n - 1] {
      k := n - 1;
    } else {
      k := LostSomewhere(losses, n - 1, j);
    }
  }

  // ---- Rows and handles -----------------------------------------------------------------------

  /** One row moves forward. */
  lemma RowTakeover(s: State, job: JobId, row: Row, lost: set<JobId>)
    requires TakeoverOk(s, lost) && job in s.rows && Forward(s.rows[job], row)
    requires row.status.Pending? ==> row == s.rows[job]
    ensures TakeoverOk(s.(rows := s.rows[job := row]), lost)
  {
    var t := s.(rows := s.rows[job := row]);
    SubsetIsSmaller(Waiting(t), Waiting(s));
  }

  lemma MoveEnded(s: State, h: HandleId, phase: Option<Phase>, lost: set<JobId>, more: set<JobId>)
    requires EndedBut(s, lost) && lost <= more && h in s.handles && h < |s.served| && s.served[h] in s.rows
    requires phase.None? ==> s.rows[s.served[h]].status.IsTerminal() || s.served[h] in more
    ensures EndedBut(Move(s, h, phase), more)
  {
  }

  lemma MoveBounded(s: State, h: HandleId, phase: Option<Phase>, lost: set<JobId>, more: set<JobId>)
    requires RecoveredOk(s) && Bounded(s, lost) && lost <= more && h in s.handles
    ensures RecoveredOk(Move(s, h, phase)) && Bounded(Move(s, h, phase), more)
  {
    SubsetIsSmaller(lost, more);
    assert Waiting(Move(s, h, phase)) == Waiting(s);
  }

  lemma TellSpiderTakeover(s: State, job: JobId, submits: Option<SpiderId>, starts: Option<SpiderId>, lost: set<JobId>)
    requires TakeoverOk(s, lost)
    ensures TakeoverOk(TellSpider(s, job, submits, starts), lost)
  {
    assert Waiting(TellSpider(s, job, submits, starts)) == Waiting(s);
  }

  /** A handle's step; a handle that ends leaves a job that has ended, or one more lost job. */
  lemma HandleTakeover(s: State, h: HandleId, row: Row, phase: Option<Phase>, submits: Option<SpiderId>,
                       starts: Option<SpiderId>, lost: set<JobId>, more: set<JobId>)
    requires Inv(s) && TakeoverOk(s, lost) && lost <= more && h in s.handles && s.handles[h].job in s.rows
    requires Forward(s.rows[s.handles[h].job], row)
    requires row.status.Pending? ==> row == s.rows[s.handles[h].job]
    requires phase.None? ==> row.status.IsTerminal() || s.handles[h].job in more
    ensures TakeoverOk(HandleStep(s, h, Some(row), phase, submits, starts), more)
  {
    var job := s.handles[h].job;
    assert HandleOk(s, h);
    RowTakeover(s, job, row, lost);
    var t := WithRow(s, job, Some(row));
    TellSpiderTakeover(t, job, submits, starts, lost);
    var u := TellSpider(t, job, submits, starts);
    MoveEnded(u, h, phase, lost, more);
    MoveBounded(u, h, phase, lost, more);
  }

  // ---- The coordinator's steps ----------------------------------------------------------------

  /** The job whose end a coordinator's step fails to record, if any. */
  function SkipLoses(step: Step): set<JobId> {
    if step.Skip? && step.fault.Rejected? then {step.job} else {}
  }

  lemma CoordinatorForward(s: State, step: Step)
    requires Enabled(s, step)
    ensures TableForward(s.rows, Apply(s, step).rows)
  {
    forall j | j in s.rows ensures j in Apply(s, step).rows && Forward(s.rows[j], Apply(s, step).rows[j]) {
      CoordinatorRows(s, step, j);
    }
  }

  lemma EndedFrame(s: State, t: State, lost: set<JobId>, more: set<JobId>)
    requires EndedBut(s, lost) && lost <= more && TableForward(s.rows, t.rows)
    requires t.served == s.served && t.handles == s.handles
    requires forall j :: j in t.skipped && j !in s.skipped && j !in more ==>
               j in t.rows && t.rows[j].status.IsTerminal()
    ensures EndedBut(t, more)
  {
  }

  lemma EndedSpawn(s: State, job: JobId, lost: set<JobId>)
    requires EndedBut(s, lost) && Enabled(s, Spawn(job))
    ensures EndedBut(Apply(s, Spawn(job)), lost)
  {
    var t := Apply(s, Spawn(job));
    assert forall h: nat :: h < |t.served| && h !in t.handles ==> h < |s.served| && t.served[h] == s.served[h];
  }

  lemma EndedCoordinate(s: State, step: Step, lost: set<JobId>)
    requires Inv(s) && Enabled(s, step) && EndedBut(s, lost)
    ensures EndedBut(Apply(s, step), lost + SkipLoses(step))
  {
    if step.Spawn? {
      EndedSpawn(s, step.job, lost);
      assert lost + SkipLoses(step) == lost;
    } else if !step.Boot? && !step.Crash? {
      CoordinatorForward(s, step);
      assert step.Skip? ==> step.job in s.rows;
      EndedFrame(s, Apply(s, step), lost, lost + SkipLoses(step));
    }
  }

  lemma RecoveredCoordinate(s: State, step: Step)
    requires Inv(s) && Enabled(s, step) && RecoveredOk(s)
    ensures RecoveredOk(Apply(s, step))
  {
    CoordinatorForward(s, step);
    if step.Spawn? { assert RowOk(s.rows[step.job]); }
  }

  /** After the first fetch a pending job that was dispatched has a permit, or its end was lost. */
  lemma DispatchedIsPermitted(s: State, j: JobId, lost: set<JobId>)
    requires Inv(s) && EndedBut(s, lost) && RecoveredOk(s) && s.stage.Polling? && !s.isFirstFetch
    requires j in s.rows && s.rows[j].status.Pending? && s.rows[j].dispatched
    ensures j in JobsOf(s.handles, Scheduled(s.handles)) || j in lost
  {
    assert Held(s, j);
    if j in s.served && j !in lost {
      var h :| 0 <= h < |s.served| && s.served[h] == j;
      assert h in s.handles && HandleOk(s, h);
      assert s.handles[h].job == j && h in Scheduled(s.handles);
    }
  }

  lemma FetchBounded(s: State, chosen: set<JobId>, lost: set<JobId>)
    requires Inv(s) && Enabled(s, Fetch(chosen)) && TakeoverOk(s, lost)
    ensures Bounded(Apply(s, Fetch(chosen)), lost)
  {
    var t := Apply(s, Fetch(chosen));
    assert s.toMark == {};
    if s.isFirstFetch {
      assert chosen == Waiting(s);
      assert Waiting(t) == Waiting(s);
      assert Scheduled(s.handles) == {};
    } else {
      forall j | j in Waiting(t)
        ensures j in chosen || j in JobsOf(s.handles, Scheduled(s.handles)) || j in lost
      {
        if j !in chosen { DispatchedIsPermitted(s, j, lost); }
      }
      CountedTogether(Waiting(t), chosen, s.handles, lost);
    }
  }

  /** Every other step leaves no more jobs waiting. */
  lemma OtherBounded(s: State, step: Step, lost: set<JobId>)
    requires Inv(s) && Enabled(s, step) && Bounded(s, lost) && !step.Fetch?
    ensures Bounded(Apply(s, step), lost)
  {
    var t := Apply(s, step);
    forall j | j in Waiting(t) ensures j in Waiting(s) {
      if j in s.rows { CoordinatorRows(s, step, j); }
    }
    SubsetIsSmaller(Waiting(t), Waiting(s));
  }

  lemma CoordinatorTakeover(s: State, step: Step, lost: set<JobId>)
    requires Inv(s) && Enabled(s, step) && TakeoverOk(s, lost)
    ensures TakeoverOk(Apply(s, step), lost + SkipLoses(step))
  {
    EndedCoordinate(s, step, lost);
    RecoveredCoordinate(s, step);
    if step.Fetch? { FetchBounded(s, step.chosen, lost); } else { OtherBounded(s, step, lost); }
    SubsetIsSmaller(lost, lost + SkipLoses(step));
  }

  // ---- What it means --------------------------------------------------------------------------

  lemma TakeoverMeans(s: State, lost: set<JobId>)
    requires TakeoverOk(s, lost)
    ensures |Fetchable(s.rows, true)| <= s.maxConcurrent + |lost|
    ensures s.stage.Scheduling? ==> |s.batch| <= s.available + |lost|
  {
    SubsetIsSmaller(Fetchable(s.rows, true), Waiting(s));
  }

  /** Nobody takes care of a job that has not ended only if its end could not be recorded. */
  lemma UnclaimedIsLost(s: State, j: JobId, lost: set<JobId>)
    requires Inv(s) && TakeoverOk(s, lost) && j in s.rows && !s.rows[j].status.IsTerminal()
    requires HasClaim(s, j, Abandoned) || HasClaim(s, j, GivenUp)
    ensures j in lost
  {
    if j in s.served && !Driven(s, j) {
      var h :| 0 <= h < |s.served| && s.served[h] == j;
      assert forall k :: k in s.handles ==> HandleOk(s, k);
    }
  }

  lemma NobodyWaits(s: State)
    requires s.stage.Scheduling? && |s.batch| <= s.available
    ensures forall j :: j in s.batch ==> Enabled(s, Spawn(j))
  {
    assert s.batch != {} ==> |s.batch| > 0;
  }
}
