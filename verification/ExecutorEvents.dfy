/** What single events of the executor promise to the other runners, and for how long: leases, delays, results. */
module ExecutorEvents {
  import opened Wrappers
  import opened ControlRows
  import opened Executor
  import opened ExecutorRuns

  /** A created operation waits to be run, or for the preview to be accepted; its steps are the plan's, all pending. */
  lemma CreatedIsPending(plan: seq<PlanStep>, preview: bool, now: int)
    ensures var s := Initial(plan, preview, now);
      && s.now == now && s.lock.None? && s.runners == map[] && s.used == {}
      && s.rows.operation == Operation(if preview then Planned else Pending, None, None, false, "")
      && |s.rows.steps| == |plan|
      && forall i | 0 <= i < |plan| ::
           s.rows.steps[i] == Step(plan[i].key, plan[i].external, plan[i].dependsOn, Pending, 0, None, "", now)
  {
  }

  // ---------------------------------------------------------------- a live lease keeps the others out

  /** While a lease runs nobody can claim the operation, not even at its last second. */
  lemma LiveLeaseExcludes(s: State, t: int, owner: Owner)
    requires s.rows.operation.leaseUntil == Some(t) && s.now <= t
    ensures Apply(s, Claim(owner)).None?
  {
  }

  /** A lease never runs further ahead than 90 seconds. */
  ghost predicate Bounded(s: State) {
    s.rows.operation.leaseUntil.Some? ==> s.rows.operation.leaseUntil.value <= s.now + 90
  }

  /** The owner holds the row at least until `t`. */
  ghost predicate Leased(s: State, owner: Owner, t: int) {
    && s.rows.operation.leaseOwner == Some(owner)
    && s.rows.operation.leaseUntil.Some? && t <= s.rows.operation.leaseUntil.value
  }

  lemma BoundedStep(s: State, e: Event)
    requires Inv(s) && Bounded(s) && Apply(s, e).Some?
    ensures Bounded(Apply(s, e).value) && s.now <= Apply(s, e).value.now
  {
  }

  /** The owner itself commits: it gives the lease back. */
  predicate GivesBack(e: Event, owner: Owner) {
    (e.Record? || e.RecordError?) && e.owner == owner
  }

  lemma LeasedStep(s: State, e: Event, owner: Owner, t: int)
    requires Inv(s) && Bounded(s) && Leased(s, owner, t) && Apply(s, e).Some?
    requires s.now <= t && !GivesBack(e, owner)
    ensures Leased(Apply(s, e).value, owner, t)
  {
    if e.Claim? {
      LiveLeaseExcludes(s, s.rows.operation.leaseUntil.value, e.owner);
    }
  }

  lemma {:induction false} ClockNeverGoesBack(s: State, events: seq<Event>)
    requires Run(s, events).Some?
    ensures s.now <= Run(s, events).value.now
    decreases |events|
  {
    if events != [] {
      ClockNeverGoesBack(Apply(s, events[0]).value, events[1..]);
    }
  }

  /**
   * The owner of a lease stays the owner, whatever all others do, through every run in which the clock does not pass
   * the lease and the owner does not itself commit an outcome or an error.
   */
  lemma {:induction false} LeaseLasts(s: State, events: seq<Event>, owner: Owner, t: int)
    requires Inv(s) && Bounded(s) && Leased(s, owner, t)
    requires Run(s, events).Some? && Run(s, events).value.now <= t
    requires forall i | 0 <= i < |events| :: !GivesBack(events[i], owner)
    ensures Leased(Run(s, events).value, owner, t)
    decreases |events|
  {
    if events != [] {
      var next := Apply(s, events[0]).value;
      ClockNeverGoesBack(next, events[1..]);
      BoundedStep(s, events[0]);
      LeasedStep(s, events[0], owner, t);
      ApplyInv(s, events[0]);
      assert forall i | 0 <= i < |events| - 1 :: events[1..][i] == events[i + 1];
      LeaseLasts(next, events[1..], owner, t);
    }
  }

  lemma {:induction false} RunBounded(s: State, events: seq<Event>)
    requires Inv(s) && Bounded(s) && Run(s, events).Some?
    ensures Bounded(Run(s, events).value)
    decreases |events|
  {
    if events != [] {
      BoundedStep(s, events[0]);
      ApplyInv(s, events[0]);
      RunBounded(Apply(s, events[0]).value, events[1..]);
    }
  }

  lemma ReachableBounded(s: State)
    requires Reachable(s)
    ensures Bounded(s)
  {
    var plan, preview, now :| ValidPlan(plan) && Leads(Initial(plan, preview, now), s);
    var events :| Run(Initial(plan, preview, now), events) == Some(s);
    InitialInv(plan, preview, now);
    RunBounded(Initial(plan, preview, now), events);
  }

  /** A renewal sets the lease 90 seconds ahead, which is never less than it was, and touches nothing else. */
  lemma HeartbeatProlongs(s: State, owner: Owner)
    requires Reachable(s) && Apply(s, Heartbeat(owner)).Some?
    ensures var after := Apply(s, Heartbeat(owner)).value;
      if s.rows.operation.leaseOwner == Some(owner) then
        && after.rows.operation.leaseUntil == Some(s.now + 90)
        && after == s.(rows := s.rows.(operation := s.rows.operation.(leaseUntil := Some(s.now + 90))))
        && (s.rows.operation.leaseUntil.Some? ==> s.rows.operation.leaseUntil.value <= s.now + 90)
      else after == s
  {
    ReachableBounded(s);
  }

  // ---------------------------------------------------------------- what a claim takes

  /** A step that may start now: open, due, and with nothing it depends on unfinished. */
  ghost predicate MayStart(steps: seq<Step>, j: nat, now: int) {
    && j < |steps| && (steps[j].status == Pending || steps[j].status == Running || steps[j].status == Waiting)
    && steps[j].availableAt <= now
    && forall d | 0 <= d < |steps| && steps[d].key in steps[j].dependencies :: steps[d].status == Succeeded
  }

  /** When a claim can be made, for which step, and all that it changes. */
  lemma ClaimTakesTheFirst(s: State, owner: Owner)
    ensures Apply(s, Claim(owner)).Some? <==>
      && owner !in s.used && s.lock.None? && !s.rows.operation.cancelRequested
      && s.rows.operation.status in {Pending, Running, Waiting}
      && (s.rows.operation.leaseUntil.Some? ==> s.rows.operation.leaseUntil.value < s.now)
      && exists j :: MayStart(s.rows.steps, j, s.now)
    ensures Apply(s, Claim(owner)).Some? ==>
      var after := Apply(s, Claim(owner)).value;
      && owner in after.runners && after.runners[owner].phase == Claimed && after.used == s.used + {owner}
      && after.rows.operation.status == Running && after.rows.operation.leaseOwner == Some(owner)
      && after.rows.operation.leaseUntil == Some(s.now + 90)
      && var j := after.runners[owner].step;
         && MayStart(s.rows.steps, j, s.now) && (forall i: nat | i < j :: !MayStart(s.rows.steps, i, s.now))
         && |after.rows.steps| == |s.rows.steps|
         && (forall i | 0 <= i < |s.rows.steps| && i != j :: after.rows.steps[i] == s.rows.steps[i])
         && after.rows.steps[j] ==
              s.rows.steps[j].(status := Running, attempts := s.rows.steps[j].attempts + 1, error := "")
  {
    var steps := s.rows.steps;
    forall j: nat | j < |steps|
      ensures MayStart(steps, j, s.now) <==> Eligible(steps, j, s.now)
    {
    }
    if j :| MayStart(steps, j, s.now) {
      assert Eligible(steps, j, s.now);
    }
  }

  // ---------------------------------------------------------------- authorization and the row lock

  /** A runner is let on only as the named owner of a lease that is not over, and never after a cancel. */
  lemma LetOnOnlyWithALease(s: State, owner: Owner)
    requires Apply(s, Authorize(owner)).Some? || Apply(s, Guard(owner)).Some?
    ensures s.rows.operation.leaseOwner == Some(owner) && !s.rows.operation.cancelRequested
    ensures s.rows.operation.leaseUntil.Some? && s.now < s.rows.operation.leaseUntil.value
  {
  }

  /** And it is let on whenever it has one and, for the lock, nobody holds it. */
  lemma LetOnWithALease(s: State, owner: Owner)
    requires s.rows.operation.leaseOwner == Some(owner) && !s.rows.operation.cancelRequested
    requires s.rows.operation.leaseUntil.Some? && s.now < s.rows.operation.leaseUntil.value
    requires owner in s.runners && s.runners[owner].step < |s.rows.steps|
    ensures s.runners[owner].phase == Claimed ==>
      Apply(s, Authorize(owner)) == Some(s.(runners := s.runners[owner := Runner(s.runners[owner].step, Authorized)]))
    ensures s.runners[owner].phase == Authorized && !s.rows.steps[s.runners[owner].step].external && s.lock.None? ==>
      Apply(s, Guard(owner)) ==
        Some(s.(lock := Some(owner), runners := s.runners[owner := Runner(s.runners[owner].step, Guarded)]))
  {
  }

  /** Under the row lock nothing is written but by the runner that holds it. */
  lemma LockedRowsStay(s: State, e: Event)
    requires Inv(s) && s.lock.Some? && Apply(s, e).Some?
    requires !(e.Record? && s.lock == Some(e.owner))
    ensures Apply(s, e).value.rows == s.rows
  {
  }

  // ---------------------------------------------------------------- what a commit leaves

  /** The status a step gets for what its handler returned. */
  lemma RecordKeepsTheOutcome(s: State, owner: Owner, outcome: Outcome)
    requires Inv(s) && Apply(s, Record(owner, outcome)).Some?
    ensures owner in s.runners && s.runners[owner].step < |s.rows.steps|
    ensures var after, j := Apply(s, Record(owner, outcome)).value, s.runners[owner].step;
      && owner !in after.runners && after.lock != Some(owner)
      && |after.rows.steps| == |s.rows.steps|
      && (forall i | 0 <= i < |s.rows.steps| && i != j :: after.rows.steps[i] == s.rows.steps[i])
      && after.rows.steps[j].attempts == s.rows.steps[j].attempts
      && after.rows.steps[j].result == Some(outcome.result) && after.rows.steps[j].error == outcome.failure
      && (outcome.retryAfter.Some? ==>
            && after.rows.steps[j].status == Waiting
            && after.rows.steps[j].availableAt == s.now + outcome.retryAfter.value)
      && (outcome.retryAfter.None? && outcome.failure != "" ==> after.rows.steps[j].status == Failed)
      && (outcome.retryAfter.None? && outcome.failure == "" ==> after.rows.steps[j].status == Succeeded)
  {
  }

  /** An error leaves the step waiting, failed or, after a cancel, cancelled, with the error's text. */
  lemma ErrorIsKept(s: State, owner: Owner)
    requires Inv(s) && Apply(s, RecordError(owner)).Some? && s.rows.operation.leaseOwner == Some(owner)
    ensures owner in s.runners && s.runners[owner].phase.Raised? && s.runners[owner].step < |s.rows.steps|
    ensures var after, j, raised := Apply(s, RecordError(owner)).value, s.runners[owner].step, s.runners[owner].phase;
      && owner !in after.runners && after.rows.operation.leaseOwner.None? && after.rows.operation.leaseUntil.None?
      && |after.rows.steps| == |s.rows.steps|
      && (forall i | 0 <= i < |s.rows.steps| && i != j :: after.rows.steps[i] == s.rows.steps[i])
      && after.rows.steps[j].attempts == s.rows.steps[j].attempts
      && after.rows.steps[j].result == s.rows.steps[j].result && after.rows.steps[j].error == raised.detail
      && (s.rows.operation.cancelRequested ==>
            after.rows.steps[j].status == Cancelled && after.rows.operation.error == raised.detail)
      && (!s.rows.operation.cancelRequested && raised.waiting ==>
            after.rows.steps[j].status == Waiting && after.rows.steps[j].availableAt == s.now + raised.retryAfter)
      && (!s.rows.operation.cancelRequested && !raised.waiting ==> after.rows.steps[j].status == Failed)
  {
  }

  /** No step is pending or waiting with everything it depends on done. */
  ghost predicate NothingToStart(steps: seq<Step>) {
    forall j | 0 <= j < |steps| && (steps[j].status == Pending || steps[j].status == Waiting) ::
      exists d :: 0 <= d < |steps| && steps[d].key in steps[j].dependencies && steps[d].status != Succeeded
  }

  /** The status that tells of these steps what is left to do. */
  ghost predicate SaysWhatIsLeft(status: Status, steps: seq<Step>) {
    && (status == Succeeded <==> forall i | 0 <= i < |steps| :: steps[i].status == Succeeded)
    && (status == Failed <==> AnyStatus(steps, Failed) && NothingToStart(steps))
    && (status == Pending <==>
          && !AnyStatus(steps, Failed) && !AnyStatus(steps, Waiting)
          && exists i :: 0 <= i < |steps| && steps[i].status != Succeeded)
    && status in {Succeeded, Failed, Pending, Waiting}
  }

  lemma FinishedSaysWhatIsLeft(steps: seq<Step>)
    requires |steps| > 0
    ensures SaysWhatIsLeft(FinishedStatus(steps), steps)
  {
    StartableIsRunnable(steps);
    assert AllSucceeded(steps) ==> !AnyStatus(steps, Failed) && !AnyStatus(steps, Waiting);
  }

  /**
   * What the operation says after its lease was given back: succeeded if all steps are, failed if one is and nothing
   * is left to start, pending if no step failed or waits, and else waiting. Its error is that of the first failed or
   * waiting step that has one.
   */
  lemma ReleasedSaysWhatIsLeft(s: State, e: Event, owner: Owner)
    requires Inv(s) && GivesBack(e, owner) && Apply(s, e).Some?
    requires s.rows.operation.leaseOwner == Some(owner) && !s.rows.operation.cancelRequested
    ensures var after := Apply(s, e).value.rows;
      && after.operation.leaseOwner.None? && after.operation.leaseUntil.None? && !after.operation.cancelRequested
      && SaysWhatIsLeft(after.operation.status, after.steps) && IsFirstError(after.steps, after.operation.error)
  {
    var after := Apply(s, e).value.rows;
    ReleasedIsFinished(s, e, owner);
    FirstErrorIsFirst(after.steps);
    FinishedSaysWhatIsLeft(after.steps);
  }

  lemma ReleasedIsFinished(s: State, e: Event, owner: Owner)
    requires Inv(s) && GivesBack(e, owner) && Apply(s, e).Some?
    requires s.rows.operation.leaseOwner == Some(owner) && !s.rows.operation.cancelRequested
    ensures var after := Apply(s, e).value.rows;
      && |after.steps| > 0
      && after.operation == Operation(FinishedStatus(after.steps), None, None, false, FirstError(after.steps))
  {
    ApplyInv(s, e);
    assert |Apply(s, e).value.rows.steps| == |Shape(Apply(s, e).value.rows.steps)|;
  }

  lemma StartableIsRunnable(steps: seq<Step>)
    ensures NothingToStart(steps) <==> !Runnable(steps)
  {
    forall j | 0 <= j < |steps|
      ensures Ready(steps, j) <==>
        !exists d :: 0 <= d < |steps| && steps[d].key in steps[j].dependencies && steps[d].status != Succeeded
    {
    }
  }

  ghost predicate Complains(step: Step) {
    (step.status == Failed || step.status == Waiting) && step.error != ""
  }

  ghost predicate IsFirstError(steps: seq<Step>, error: string) {
    if exists i :: 0 <= i < |steps| && Complains(steps[i])
    then exists i :: 0 <= i < |steps| && Complains(steps[i]) && error == steps[i].error
                     && forall k | 0 <= k < i :: !Complains(steps[k])
    else error == ""
  }

  lemma {:induction false} FirstErrorIsFirst(steps: seq<Step>)
    ensures IsFirstError(steps, FirstError(steps))
  {
    if steps != [] && !Complains(steps[0]) {
      var rest := steps[1..];
      FirstErrorIsFirst(rest);
      assert forall i | 0 < i < |steps| :: steps[i] == rest[i - 1];
      if i :| 0 <= i < |rest| && Complains(rest[i]) && FirstError(rest) == rest[i].error
              && forall k | 0 <= k < i :: !Complains(rest[k]) {
        assert Complains(steps[i + 1]) && forall k | 0 <= k < i + 1 :: !Complains(steps[k]);
      }
    }
  }

  // ---------------------------------------------------------------- results and delays over runs

  /** What a step returned when it succeeded is its result ever after. */
  lemma ResultIsKept(s: State, owner: Owner, outcome: Outcome, events: seq<Event>)
    requires Inv(s) && outcome.retryAfter.None? && outcome.failure == ""
    requires Apply(s, Record(owner, outcome)).Some? && Run(Apply(s, Record(owner, outcome)).value, events).Some?
    ensures var end, j := Run(Apply(s, Record(owner, outcome)).value, events).value.rows.steps, s.runners[owner].step;
      j < |end| && end[j].status == Succeeded && end[j].result == Some(outcome.result)
  {
    RecordKeepsTheOutcome(s, owner, outcome);
    ApplyInv(s, Record(owner, outcome));
    RunInv(Apply(s, Record(owner, outcome)).value, events);
  }

  ghost predicate Delayed(steps: seq<Step>, j: nat, t: int, attempts: nat) {
    j < |steps| && steps[j].status in {Waiting, Cancelled} && steps[j].availableAt >= t && steps[j].attempts == attempts
  }

  lemma DelayStep(s: State, e: Event, j: nat, t: int)
    requires Inv(s) && Apply(s, e).Some? && s.now < t && !e.Resume?
    requires j < |s.rows.steps| && Delayed(s.rows.steps, j, t, s.rows.steps[j].attempts)
    ensures Delayed(Apply(s, e).value.rows.steps, j, t, s.rows.steps[j].attempts)
  {
    if e.Record? {
      RecorderRuns(s, e.owner);
      RecordWritesOne(s, e.owner, e.outcome, j);
    }
  }

  /** A step that waits is not started before its delay is over, unless the operation is resumed. */
  lemma {:induction false} DelayIsKept(s: State, events: seq<Event>, j: nat, t: int)
    requires Inv(s) && Run(s, events).Some? && Run(s, events).value.now < t
    requires forall i | 0 <= i < |events| :: !events[i].Resume?
    requires j < |s.rows.steps| && Delayed(s.rows.steps, j, t, s.rows.steps[j].attempts)
    ensures Delayed(Run(s, events).value.rows.steps, j, t, s.rows.steps[j].attempts)
    decreases |events|
  {
    if events != [] {
      var next := Apply(s, events[0]).value;
      ClockNeverGoesBack(next, events[1..]);
      ClockStep(s, events[0]);
      DelayStep(s, events[0], j, t);
      ApplyInv(s, events[0]);
      assert forall i | 0 <= i < |events| - 1 :: events[1..][i] == events[i + 1];
      DelayIsKept(next, events[1..], j, t);
    }
  }

  lemma ClockStep(s: State, e: Event)
    requires Apply(s, e).Some?
    ensures s.now <= Apply(s, e).value.now
  {
  }

  // ---------------------------------------------------------------- the two commands

  /** A cancel marks an operation that is not over, and every step of it that has not begun or waits. */
  lemma CancelMarks(s: State)
    requires Inv(s) && Apply(s, Cancel).Some?
    ensures var before, after := s.rows, Apply(s, Cancel).value.rows;
      if before.operation.status == Succeeded || before.operation.status == Cancelled then after == before
      else
        && after.operation == before.operation.(cancelRequested := true, status := Cancelled)
        && |after.steps| == |before.steps|
        && forall i | 0 <= i < |before.steps| ::
             if before.steps[i].status == Pending || before.steps[i].status == Waiting
             then after.steps[i] == before.steps[i].(status := Cancelled)
             else after.steps[i] == before.steps[i]
  {
  }

  /** A resume is possible without a lease, and lets every step that is not done start at once. */
  lemma ResumeReopens(s: State)
    requires Reachable(s)
    ensures Apply(s, Resume).Some? <==>
      s.rows.operation.status == Planned || s.rows.operation.status == Failed || s.rows.operation.status == Waiting
    ensures Apply(s, Resume).Some? ==>
      var before, after := s.rows, Apply(s, Resume).value.rows;
      && after.operation == before.operation.(status := Pending, error := "")
      && |after.steps| == |before.steps|
      && forall i | 0 <= i < |before.steps| ::
           if before.steps[i].status == Succeeded || before.steps[i].status == Pending
           then after.steps[i] == before.steps[i]
           else after.steps[i] == before.steps[i].(status := Pending, error := "", availableAt := s.now)
  {
    ReachableInv(s);
  }
}
