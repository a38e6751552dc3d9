/** What holds over whole runs of the executor, from the creation of an operation on. */
module ExecutorRuns {
  import opened Wrappers
  import opened ControlRows
  import opened Executor

  /** The state after the first `i` events of a run. */
  function At(s: State, events: seq<Event>, i: nat): State
    requires Run(s, events).Some? && i <= |events|
    decreases |events|
  {
    if i == 0 then s else At(Apply(s, events[0]).value, events[1..], i - 1)
  }

  /** The states reached from the creation of an operation with a plan that `validate_graph` accepts. */
  ghost predicate Reachable(s: State) {
    exists plan, preview, now :: ValidPlan(plan) && Leads(Initial(plan, preview, now), s)
  }

  lemma ReachableInv(s: State)
    requires Reachable(s)
    ensures Inv(s)
  {
    var plan, preview, now :| ValidPlan(plan) && Leads(Initial(plan, preview, now), s);
    InitialInv(plan, preview, now);
    LeadsInv(Initial(plan, preview, now), s);
  }

  // ---------------------------------------------------------------- at most one success

  predicate Succeeds(s: State, e: Event, j: nat) {
    && e.Record?
    && MayRecord(s, e.owner)
    && s.runners[e.owner].step == j
    && OutcomeStatus(e.outcome) == Succeeded
  }

  /** How many times a run commits a `succeeded` result for step `j`. */
  function Successes(s: State, events: seq<Event>, j: nat): nat
    requires Run(s, events).Some?
    decreases |events|
  {
    if events == [] then 0
    else (if Succeeds(s, events[0], j) then 1 else 0) + Successes(Apply(s, events[0]).value, events[1..], j)
  }

  predicate Done(s: State, j: nat)
    requires j < |s.rows.steps|
  {
    s.rows.steps[j].status == Succeeded
  }

  lemma OnlyRecordSucceeds(s: State, e: Event, j: nat)
    requires Apply(s, e).Some? && !e.Record? && j < |s.rows.steps|
    ensures |Apply(s, e).value.rows.steps| == |s.rows.steps|
    ensures Done(Apply(s, e).value, j) ==> Done(s, j)
  {
  }

  lemma RecordWritesOne(s: State, owner: Owner, outcome: Outcome, j: nat)
    requires MayRecord(s, owner) && j < |s.rows.steps|
    ensures var after := Apply(s, Record(owner, outcome)).value;
      && |after.rows.steps| == |s.rows.steps|
      && (s.runners[owner].step != j ==> after.rows.steps[j] == s.rows.steps[j])
      && (s.runners[owner].step == j ==> after.rows.steps[j].status == OutcomeStatus(outcome))
  {
  }

  lemma RecorderRuns(s: State, owner: Owner)
    requires Inv(s) && MayRecord(s, owner)
    ensures s.rows.steps[s.runners[owner].step].status == Running
  {
  }

  lemma SuccessStep(s: State, e: Event, j: nat)
    requires Inv(s) && Apply(s, e).Some? && j < |s.rows.steps|
    ensures |Apply(s, e).value.rows.steps| == |s.rows.steps|
    ensures Done(Apply(s, e).value, j) <==> Done(s, j) || Succeeds(s, e, j)
    ensures !(Done(s, j) && Succeeds(s, e, j))
  {
    if e.Record? {
      RecorderRuns(s, e.owner);
      RecordWritesOne(s, e.owner, e.outcome, j);
    } else {
      OnlyRecordSucceeds(s, e, j);
      ApplyInv(s, e);
    }
  }

  /** A step is `succeeded` exactly when the run committed one success for it, and no run commits two. */
  lemma {:induction false} ExactlyOneSuccess(s: State, events: seq<Event>, j: nat)
    requires Inv(s) && Run(s, events).Some? && j < |s.rows.steps|
    ensures |Run(s, events).value.rows.steps| == |s.rows.steps|
    ensures (if Done(s, j) then 1 else 0) + Successes(s, events, j) == if Done(Run(s, events).value, j) then 1 else 0
    decreases |events|
  {
    if events != [] {
      SuccessStep(s, events[0], j);
      ApplyInv(s, events[0]);
      ExactlyOneSuccess(Apply(s, events[0]).value, events[1..], j);
    }
  }

  /** Once a step succeeded, its row (status, result, attempts and all) stays as it is for the rest of the run. */
  lemma SucceededIsFinal(s: State, first: seq<Event>, rest: seq<Event>, j: nat)
    requires Inv(s) && Run(s, first + rest).Some? && j < |s.rows.steps|
    ensures Run(s, first).Some?
    ensures
      var middle, end := Run(s, first).value.rows.steps, Run(s, first + rest).value.rows.steps;
      |middle| == |end| == |s.rows.steps| && (middle[j].status == Succeeded ==> end[j] == middle[j])
  {
    RunAppend(s, first, rest);
    RunInv(s, first);
    RunInv(Run(s, first).value, rest);
  }

  // ---------------------------------------------------------------- fencing

  /** The lease of this claim is gone: it was released, or another runner holds the row. */
  predicate Lost(s: State, owner: Owner) {
    owner in s.used && s.rows.operation.leaseOwner != Some(owner)
  }

  /** A claim takes the row away from every earlier claim. */
  lemma ClaimSupersedes(s: State, owner: Owner, earlier: Owner)
    requires Apply(s, Claim(owner)).Some? && earlier in s.used
    ensures Lost(Apply(s, Claim(owner)).value, earlier)
  {
  }

  lemma LostStaysLost(s: State, e: Event, owner: Owner)
    requires Inv(s) && Apply(s, e).Some? && Lost(s, owner)
    ensures Lost(Apply(s, e).value, owner)
    ensures !e.Record? || e.owner != owner
    ensures e == RecordError(owner) || e == Heartbeat(owner) ==> Apply(s, e).value.rows == s.rows
  {
  }

  /** A runner whose lease is gone never again writes a row, whatever it still does and whoever else acts. */
  lemma {:induction false} Fenced(s: State, events: seq<Event>, owner: Owner, i: nat)
    requires Inv(s) && Run(s, events).Some? && Lost(s, owner) && i < |events|
    ensures !(events[i].Record? && events[i].owner == owner)
    ensures events[i] in {RecordError(owner), Heartbeat(owner)} ==> At(s, events, i + 1).rows == At(s, events, i).rows
    decreases |events|
  {
    LostStaysLost(s, events[0], owner);
    ApplyInv(s, events[0]);
    if i > 0 {
      Fenced(Apply(s, events[0]).value, events[1..], owner, i - 1);
    }
  }

  /** At every moment at most one runner can commit a result. */
  lemma OneWriter(s: State, a: Owner, b: Owner)
    requires Inv(s) && MayRecord(s, a) && MayRecord(s, b)
    ensures a == b
  {
  }

  // ---------------------------------------------------------------- truthful status

  /** An uncancelled operation is `succeeded` exactly when all its steps are; a step that began has its dependencies. */
  lemma StatusTruthful(s: State)
    requires Reachable(s)
    ensures !s.rows.operation.cancelRequested ==> (s.rows.operation.status == Succeeded <==> AllSucceeded(s.rows.steps))
    ensures s.rows.operation.cancelRequested <==> s.rows.operation.status == Cancelled
    ensures forall j | 0 <= j < |s.rows.steps|
      && (s.rows.steps[j].attempts > 0 || s.rows.steps[j].status == Succeeded) ::
              Ready(s.rows.steps, j)
  {
    ReachableInv(s);
  }

  lemma TerminalStep(s: State, e: Event)
    requires Inv(s) && Apply(s, e).Some? && s.rows.operation.status in {Succeeded, Cancelled}
    ensures Apply(s, e).value.rows.operation.status == s.rows.operation.status
  {
  }

  /** `succeeded` and `cancelled` are never left. */
  lemma {:induction false} TerminalIsFinal(s: State, events: seq<Event>)
    requires Inv(s) && Run(s, events).Some? && s.rows.operation.status in {Succeeded, Cancelled}
    ensures Run(s, events).value.rows.operation.status == s.rows.operation.status
    decreases |events|
  {
    if events != [] {
      TerminalStep(s, events[0]);
      ApplyInv(s, events[0]);
      TerminalIsFinal(Apply(s, events[0]).value, events[1..]);
    }
  }

  // ---------------------------------------------------------------- cancel

  /** What may still happen to the row of a step after a cancel committed. */
  ghost predicate Frozen(before: Step, after: Step) {
    && after.attempts == before.attempts
    && (!before.external ==> after.result == before.result && after.status in {before.status, Cancelled})
  }

  lemma CancelledStep(s: State, e: Event, j: nat)
    requires Inv(s) && s.rows.operation.cancelRequested && Apply(s, e).Some? && j < |s.rows.steps|
    ensures Apply(s, e).value.rows.operation.cancelRequested
    ensures |Apply(s, e).value.rows.steps| == |s.rows.steps|
    ensures Frozen(s.rows.steps[j], Apply(s, e).value.rows.steps[j])
  {
  }

  /** After a cancel commits no step starts, and no result of a non-external step is committed. */
  lemma {:induction false} CancelStopsWork(s: State, events: seq<Event>, j: nat)
    requires Inv(s) && s.rows.operation.cancelRequested && Run(s, events).Some? && j < |s.rows.steps|
    ensures |Run(s, events).value.rows.steps| == |s.rows.steps|
    ensures Frozen(s.rows.steps[j], Run(s, events).value.rows.steps[j])
    decreases |events|
  {
    if events != [] {
      CancelledStep(s, events[0], j);
      ApplyInv(s, events[0]);
      CancelStopsWork(Apply(s, events[0]).value, events[1..], j);
    }
  }

  /** The runner that had its claim of step `j` authorized and is still named as the lease owner. */
  ghost predicate InFlight(s: State, j: nat) {
    exists o :: o in s.runners && s.runners[o] == Runner(j, Authorized) && s.rows.operation.leaseOwner == Some(o)
  }

  /** After a cancel every event leaves an external step either as far from success as it was, or in flight. */
  lemma CancelledRecordsInFlight(s: State, e: Event, j: nat)
    requires Inv(s) && s.rows.operation.cancelRequested && Apply(s, e).Some? && j < |s.rows.steps|
    requires s.rows.steps[j].external && s.rows.steps[j].status != Succeeded && !InFlight(s, j)
    ensures |Apply(s, e).value.rows.steps| == |s.rows.steps|
    ensures Apply(s, e).value.rows.steps[j].external && Apply(s, e).value.rows.steps[j].status != Succeeded
    ensures !InFlight(Apply(s, e).value, j)
  {
    var s' := Apply(s, e).value;
    assert s'.rows.operation.leaseOwner in {s.rows.operation.leaseOwner, None};
    assert forall o | o in s'.runners && s'.runners[o].phase == Authorized ::
        o in s.runners && s.runners[o].step == s'.runners[o].step && s.runners[o].phase in {Claimed, Authorized};
  }

  lemma {:induction false} CancelledStaysUnrecorded(s: State, events: seq<Event>, j: nat)
    requires Inv(s) && s.rows.operation.cancelRequested && Run(s, events).Some? && j < |s.rows.steps|
    requires s.rows.steps[j].external && s.rows.steps[j].status != Succeeded && !InFlight(s, j)
    ensures |Run(s, events).value.rows.steps| == |s.rows.steps|
    ensures Run(s, events).value.rows.steps[j].status != Succeeded
    decreases |events|
  {
    if events != [] {
      CancelledRecordsInFlight(s, events[0], j);
      CancelledStep(s, events[0], j);
      ApplyInv(s, events[0]);
      CancelledStaysUnrecorded(Apply(s, events[0]).value, events[1..], j);
    }
  }

  /**
   * Once a cancel committed, an unfinished external step can still come to be recorded as succeeded exactly if a
   * runner is in flight with it: authorized for this step, and named as the lease owner.
   */
  lemma CancelledExternalRecordsExactlyWhen(s: State, j: nat)
    requires Inv(s) && s.rows.operation.cancelRequested && j < |s.rows.steps|
    requires s.rows.steps[j].external && s.rows.steps[j].status != Succeeded
    ensures (exists s' :: Leads(s, s') && j < |s'.rows.steps| && s'.rows.steps[j].status == Succeeded) <==>
      InFlight(s, j)
  {
    if InFlight(s, j) {
      var o :| o in s.runners && s.runners[o] == Runner(j, Authorized) && s.rows.operation.leaseOwner == Some(o);
      var e := Record(o, Outcome("", None, ""));
      assert MayRecord(s, o);
      LeadsByOne(s, e);
      assert Apply(s, e).value.rows.steps[j].status == Succeeded;
    } else {
      forall s' | Leads(s, s')
        ensures j < |s'.rows.steps| ==> s'.rows.steps[j].status != Succeeded
      {
        var events :| Run(s, events) == Some(s');
        CancelledStaysUnrecorded(s, events, j);
      }
    }
  }

  /** Such a record happens: here the cancel has committed, the external step is not done, and its success follows. */
  lemma CancelledExternalMayStillRecord() returns (s: State, e: Event, j: nat)
    ensures Reachable(s) && s.rows.operation.cancelRequested
    ensures j < |s.rows.steps| && s.rows.steps[j].external && s.rows.steps[j].status != Succeeded
    ensures e.Record? && Apply(s, e).Some? && Apply(s, e).value.rows.steps[j].status == Succeeded
  {
    var plan := [PlanStep("publish", true, [])];
    var s0 := Initial(plan, false, 0);
    LeadsNowhere(s0);
    s := Advance(s0, s0, Claim(1));
    s := Advance(s0, s, Authorize(1));
    s := Advance(s0, s, Cancel);
    e, j := Record(1, Outcome("done", None, "")), 0;
    assert ValidPlan(plan);
  }

  /** Extends a run from `start` by one event. */
  lemma Advance(start: State, s: State, e: Event) returns (next: State)
    requires Leads(start, s) && Apply(s, e).Some?
    ensures next == Apply(s, e).value && Leads(start, next)
  {
    next := Apply(s, e).value;
    LeadsByOne(s, e);
    LeadsTransitive(start, s, next);
  }

  // ---------------------------------------------------------------- no deadlock

  /** An open operation has a step that any fresh runner can claim as soon as the step's delay and any lease are
      over. */
  lemma NoDeadlock(s: State) returns (j: nat)
    requires Reachable(s) && Open(s.rows.operation.status)
    ensures j < |s.rows.steps| && Open(s.rows.steps[j].status) && Ready(s.rows.steps, j)
    ensures forall t, owner | t >= s.rows.steps[j].availableAt && LeaseFree(s.rows.operation, t)
                              && s.lock.None? && owner !in s.used :: Apply(s.(now := t), Claim(owner)).Some?
  {
    ReachableInv(s);
    j :| 0 <= j < |s.rows.steps| && Open(s.rows.steps[j].status) && Ready(s.rows.steps, j);
    forall t, owner | t >= s.rows.steps[j].availableAt && LeaseFree(s.rows.operation, t)
                      && s.lock.None? && owner !in s.used
      ensures Apply(s.(now := t), Claim(owner)).Some?
    {
      assert Eligible(s.rows.steps, j, t);
      assert FirstEligible(s.rows.steps, t, 0).Some?;
    }
  }

  function Unfinished(steps: seq<Step>): nat {
    if steps == [] then 0 else (if steps[0].status == Succeeded then 0 else 1) + Unfinished(steps[1..])
  }

  lemma {:induction false} UnfinishedDrops(before: seq<Step>, after: seq<Step>, j: nat)
    requires |before| == |after| && j < |before|
    requires forall i | 0 <= i < |before| && i != j :: before[i].status == Succeeded ==> after[i].status == Succeeded
    requires before[j].status != Succeeded && after[j].status == Succeeded
    ensures Unfinished(after) < Unfinished(before)
  {
    if j == 0 {
      UnfinishedMonotone(before[1..], after[1..]);
    } else {
      UnfinishedDrops(before[1..], after[1..], j - 1);
    }
  }

  lemma {:induction false} UnfinishedMonotone(before: seq<Step>, after: seq<Step>)
    requires |before| == |after|
    requires forall i | 0 <= i < |before| :: before[i].status == Succeeded ==> after[i].status == Succeeded
    ensures Unfinished(after) <= Unfinished(before)
  {
    if before != [] {
      UnfinishedMonotone(before[1..], after[1..]);
    }
  }

  lemma FreshOwner(used: set<Owner>) returns (owner: Owner)
    ensures forall o <- used :: o < owner
  {
    owner := 0;
    var rest := used;
    while rest != {}
      invariant forall o <- used :: o in rest || o < owner
      decreases rest
    {
      var o :| o in rest;
      rest := rest - {o};
      owner := if o < owner then owner else o + 1;
    }
  }

  /** Makes an unfinished operation open and its row free: resume it, or let the holder of the row lock crash. */
  lemma Reopen(s: State) returns (s': State)
    requires Inv(s) && s.rows.operation.status !in {Succeeded, Cancelled}
    ensures Leads(s, s') && Inv(s') && s'.lock.None? && Open(s'.rows.operation.status)
    ensures Unfinished(s'.rows.steps) <= Unfinished(s.rows.steps)
  {
    LeadsNowhere(s);
    if s.lock.Some? {
      s' := Advance(s, s, Crash(s.lock.value));
    } else if Open(s.rows.operation.status) {
      s' := s;
    } else {
      s' := Advance(s, s, Resume);
    }
    LeadsInv(s, s');
    UnfinishedMonotone(s.rows.steps, s'.rows.steps);
  }

  /** Time can pass until an open operation is claimable. */
  lemma WaitUntilClaimable(s: State) returns (s': State)
    requires Inv(s) && Open(s.rows.operation.status) && s.lock.None?
    ensures Leads(s, s') && Inv(s') && s'.lock.None? && Claimable(s'.rows, s'.now)
    ensures s'.rows == s.rows
  {
    var live :| 0 <= live < |s.rows.steps| && Open(s.rows.steps[live].status) && Ready(s.rows.steps, live);
    var lease := if s.rows.operation.leaseUntil.Some? then s.rows.operation.leaseUntil.value + 1 else s.now;
    var target := if lease < s.rows.steps[live].availableAt then s.rows.steps[live].availableAt else lease;
    var wait := if target < s.now then 0 else target - s.now;
    s' := Apply(s, Tick(wait)).value;
    LeadsByOne(s, Tick(wait));
    LeadsInv(s, s');
    assert Eligible(s'.rows.steps, live, s'.now);
  }

  /** A fresh runner can claim the next step of a claimable operation and be authorized. */
  lemma StartNext(s: State) returns (s': State, owner: Owner)
    requires Inv(s) && s.lock.None? && Claimable(s.rows, s.now)
    ensures Leads(s, s') && Inv(s') && s'.lock.None?
    ensures owner in s'.runners && s'.runners[owner].phase == Authorized
    ensures HoldsLease(s'.rows.operation, owner, s'.now) && !s'.rows.operation.cancelRequested
    ensures Unfinished(s'.rows.steps) <= Unfinished(s.rows.steps)
  {
    owner := FreshOwner(s.used);
    var claimed := Apply(s, Claim(owner)).value;
    LeadsByOne(s, Claim(owner));
    s' := Advance(s, claimed, Authorize(owner));
    LeadsInv(s, s');
    UnfinishedMonotone(s.rows.steps, s'.rows.steps);
  }

  /** An authorized lease owner can commit a success of its step. */
  lemma CommitSuccess(s: State, owner: Owner) returns (s': State)
    requires Inv(s) && s.lock.None? && owner in s.runners && s.runners[owner].phase == Authorized
    requires HoldsLease(s.rows.operation, owner, s.now) && !s.rows.operation.cancelRequested
    ensures Leads(s, s') && Inv(s') && s'.rows.operation.status != Cancelled
    ensures Unfinished(s'.rows.steps) < Unfinished(s.rows.steps)
  {
    var j := s.runners[owner].step;
    LeadsNowhere(s);
    s' := s;
    if !s.rows.steps[j].external {
      s' := Advance(s, s', Guard(owner));
    }
    s' := Advance(s, s', Record(owner, Outcome("", None, "")));
    LeadsInv(s, s');
    UnfinishedDrops(s.rows.steps, s'.rows.steps, j);
  }

  /** No state is a dead end: every operation that is not cancelled can still be brought to `succeeded`. */
  lemma {:induction false} CanAlwaysSucceed(s: State) returns (s': State)
    requires Inv(s) && s.rows.operation.status != Cancelled
    ensures Leads(s, s') && s'.rows.operation.status == Succeeded
    decreases Unfinished(s.rows.steps)
  {
    LeadsNowhere(s);
    if s.rows.operation.status == Succeeded {
      s' := s;
    } else {
      var reopened := Reopen(s);
      var claimable := WaitUntilClaimable(reopened);
      var started, owner := StartNext(claimable);
      var next := CommitSuccess(started, owner);
      s' := CanAlwaysSucceed(next);
      LeadsTransitive(s, reopened, claimable);
      LeadsTransitive(s, claimable, started);
      LeadsTransitive(s, started, next);
      LeadsTransitive(s, next, s');
    }
  }

  // ---------------------------------------------------------------- resume and failure

  /** The check of resume for a live lease never refuses: a resumable operation has no lease at all. */
  lemma ResumeNeverMeetsALease(s: State)
    requires Reachable(s) && Resumable(s.rows.operation)
    ensures s.rows.operation.leaseOwner.None? && s.rows.operation.leaseUntil.None?
    ensures s.lock.None? && Apply(s, Resume).Some?
  {
    ReachableInv(s);
  }

  /**
   * The steps of a failed operation that could still run are exactly those whose row says `running`: a failed
   * operation strands nothing exactly if no row says so.
   */
  lemma FailedStrandsExactlyRunningRows(s: State, j: nat)
    requires Reachable(s) && s.rows.operation.status == Failed && j < |s.rows.steps|
    ensures Open(s.rows.steps[j].status) && Ready(s.rows.steps, j) <==> s.rows.steps[j].status == Running
  {
    ReachableInv(s);
  }

  /** That exception is real: a step whose runner crashed is passed over when the other step fails. */
  lemma FailedCanStrandARunningRow()
    ensures exists s :: Reachable(s) && s.rows.operation.status == Failed
                        && exists j :: 0 <= j < |s.rows.steps| && Eligible(s.rows.steps, j, s.now)
  {
    var plan := [PlanStep("a", false, []), PlanStep("b", false, [])];
    var s0 := Initial(plan, false, 0);
    var s := FirstStepWaits(s0);
    s := SecondStepCrashes(s0, s);
    s := FirstStepFails(s0, s);
    assert Eligible(s.rows.steps, 1, s.now);
  }

  lemma FirstStepWaits(s0: State) returns (s: State)
    requires s0 == Initial([PlanStep("a", false, []), PlanStep("b", false, [])], false, 0)
    ensures Leads(s0, s) && s.now == 0 && s.lock.None? && s.runners == map[] && s.used == {1}
    ensures s.rows.operation.status == Waiting && s.rows.operation.leaseUntil.None? && !s.rows.operation.cancelRequested
    ensures s.rows.steps == [WaitingStep(), CreatedStep(PlanStep("b", false, []), 0)]
  {
    LeadsNowhere(s0);
    s := Advance(s0, s0, Claim(1));
    s := Advance(s0, s, Raise(1, true, 100, "later"));
    s := Advance(s0, s, RecordError(1));
    assert s.rows.steps[0].status == Waiting;
  }

  lemma SecondStepCrashes(s0: State, s: State) returns (s': State)
    requires Leads(s0, s) && s.now == 0 && s.lock.None? && s.runners == map[] && s.used == {1}
    requires s.rows.operation.status == Waiting && s.rows.operation.leaseUntil.None?
      && !s.rows.operation.cancelRequested
    requires s.rows.steps == [WaitingStep(), CreatedStep(PlanStep("b", false, []), 0)]
    ensures Leads(s0, s') && s'.now == 0 && s'.lock.None? && s'.runners == map[] && s'.used == {1, 2}
    ensures s'.rows.operation == Operation(Running, Some(2), Some(90), false, s.rows.operation.error)
    ensures s'.rows.steps == [WaitingStep(), CrashedStep()]
  {
    assert Eligible(s.rows.steps, 1, 0);
    s' := Advance(s0, s, Claim(2));
    s' := Advance(s0, s', Crash(2));
  }

  lemma FirstStepFails(s0: State, s: State) returns (s': State)
    requires Leads(s0, s) && s.now == 0 && s.lock.None? && s.runners == map[] && s.used == {1, 2}
    requires s.rows.operation == Operation(Running, Some(2), Some(90), false, s.rows.operation.error)
    requires s.rows.steps == [WaitingStep(), CrashedStep()]
    ensures Leads(s0, s') && s'.rows.operation.status == Failed && s'.now == 101
    ensures |s'.rows.steps| == 2 && s'.rows.steps[1] == CrashedStep()
  {
    s' := FirstStepClaimed(s0, s);
    s' := Advance(s0, s', Raise(3, false, 0, "broken"));
    s' := Advance(s0, s', RecordError(3));
    assert s'.rows.steps[0].status == Failed;
  }

  lemma FirstStepClaimed(s0: State, s: State) returns (s': State)
    requires Leads(s0, s) && s.now == 0 && s.lock.None? && s.runners == map[] && s.used == {1, 2}
    requires s.rows.operation == Operation(Running, Some(2), Some(90), false, s.rows.operation.error)
    requires s.rows.steps == [WaitingStep(), CrashedStep()]
    ensures Leads(s0, s') && s'.now == 101 && s'.lock.None? && s'.runners == map[3 := Runner(0, Claimed)]
    ensures s'.rows.operation == Operation(Running, Some(3), Some(191), false, s.rows.operation.error)
    ensures |s'.rows.steps| == 2 && s'.rows.steps[0].status == Running && s'.rows.steps[1] == CrashedStep()
  {
    var late := Advance(s0, s, Tick(101));
    assert Eligible(late.rows.steps, 0, 101);
    s' := Advance(s0, late, Claim(3));
  }

  /** The row of the first step, which waits for the second hundred seconds, and that of the second, left running. */
  function WaitingStep(): Step {
    Step("a", false, [], Waiting, 1, None, "later", 100)
  }

  function CrashedStep(): Step {
    Step("b", false, [], Running, 1, None, "", 0)
  }
}
