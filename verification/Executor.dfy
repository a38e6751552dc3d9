/** The executor as a transition system: any number of runners, one operation, a clock that never goes back.

    Every event is one database transaction of a runner or a command, a local failure, a crash, or time passing.
    `lock` is the row lock that `_guard` takes with FOR UPDATE and keeps until its transaction ends. */
module Executor {
  import opened Wrappers
  import opened ControlRows

  datatype Phase =
    | Claimed
    | Authorized
    | Guarded
    | Raised(waiting: bool, retryAfter: nat, detail: string)

  /** What a runner knows after its claim committed: the step it took and how far it got. */
  datatype Runner = Runner(step: nat, phase: Phase)

  datatype State = State(
    rows: Rows,
    now: int,
    lock: Option<Owner>,
    runners: map<Owner, Runner>,
    used: set<Owner>)

  datatype Event =
    | Tick(seconds: nat)
    | Claim(owner: Owner)
    | Heartbeat(owner: Owner)
    | Authorize(owner: Owner)
    | Guard(owner: Owner)
    | Raise(owner: Owner, waiting: bool, retryAfter: nat, detail: string)
    | Record(owner: Owner, outcome: Outcome)
    | RecordError(owner: Owner)
    | Crash(owner: Owner)
    | Cancel
    | Resume

  function Initial(plan: seq<PlanStep>, preview: bool, now: int): State {
    State(Created(plan, preview, now), now, None, map[], {})
  }

  function Release(lock: Option<Owner>, owner: Owner): Option<Owner> {
    if lock == Some(owner) then None else lock
  }

  /** The runner may commit its outcome: a guarded transaction still holds the row, an external one must find
      itself the lease owner. The expiry of the lease is not looked at again. */
  predicate MayRecord(s: State, owner: Owner) {
    && owner in s.runners
    && s.runners[owner].step < |s.rows.steps|
    && if s.rows.steps[s.runners[owner].step].external
       then s.runners[owner].phase == Authorized && s.lock.None? && s.rows.operation.leaseOwner == Some(owner)
       else s.runners[owner].phase == Guarded && s.lock == Some(owner)
  }

  /** The state after an event, or None when the event cannot happen in `s`. */
  function Apply(s: State, e: Event): Option<State> {
    match e
    case Tick(seconds) => Some(s.(now := s.now + seconds))
    case Claim(owner) =>
      if owner !in s.used && s.lock.None? && Claimable(s.rows, s.now) then
        Some(s.(rows := ClaimRows(s.rows, s.now, owner),
                runners := s.runners[owner := Runner(FirstEligible(s.rows.steps, s.now, 0).value, Claimed)],
                used := s.used + {owner}))
      else None
    case Heartbeat(owner) =>
      if s.lock.None? || s.rows.operation.leaseOwner != Some(owner) then
        Some(s.(rows := HeartbeatRows(s.rows, s.now, owner)))
      else None
    case Authorize(owner) =>
      if owner in s.runners && s.runners[owner].phase == Claimed && !s.rows.operation.cancelRequested
         && HoldsLease(s.rows.operation, owner, s.now) then
        Some(s.(runners := s.runners[owner := s.runners[owner].(phase := Authorized)]))
      else None
    case Guard(owner) =>
      if owner in s.runners && s.runners[owner].phase == Authorized && s.lock.None?
         && s.runners[owner].step < |s.rows.steps| && !s.rows.steps[s.runners[owner].step].external
         && HoldsLease(s.rows.operation, owner, s.now) && !s.rows.operation.cancelRequested then
        Some(s.(lock := Some(owner), runners := s.runners[owner := s.runners[owner].(phase := Guarded)]))
      else None
    case Raise(owner, waiting, retryAfter, detail) =>
      if owner in s.runners && !s.runners[owner].phase.Raised? then
        Some(s.(lock := Release(s.lock, owner),
                runners := s.runners[owner := s.runners[owner].(phase := Raised(waiting, retryAfter, detail))]))
      else None
    case Record(owner, outcome) =>
      if MayRecord(s, owner) then
        Some(s.(rows := RecordRows(s.rows, s.now, owner, s.runners[owner].step, outcome),
                lock := Release(s.lock, owner),
                runners := s.runners - {owner}))
      else None
    case RecordError(owner) =>
      if owner !in s.runners || !s.runners[owner].phase.Raised? || s.runners[owner].step >= |s.rows.steps| then None
      else if s.rows.operation.leaseOwner != Some(owner) then Some(s.(runners := s.runners - {owner}))
      else if s.lock.Some? then None
      else
        var runner := s.runners[owner];
        Some(s.(rows := ErrorRows(s.rows, s.now, owner, runner.step, runner.phase.waiting, runner.phase.retryAfter,
                                  runner.phase.detail),
                runners := s.runners - {owner}))
    case Crash(owner) =>
      if owner in s.runners then Some(s.(lock := Release(s.lock, owner), runners := s.runners - {owner})) else None
    case Cancel =>
      if s.lock.None? then Some(s.(rows := CancelRows(s.rows))) else None
    case Resume =>
      if s.lock.None? && Resumable(s.rows.operation) && !LeaseLive(s.rows.operation, s.now) then
        Some(s.(rows := ResumeRows(s.rows, s.now)))
      else None
  }

  /** The state after a run, or None when some event of it could not happen. */
  function Run(s: State, events: seq<Event>): Option<State>
    decreases |events|
  {
    if events == [] then Some(s)
    else
      var next := Apply(s, events[0]);
      if next.None? then None else Run(next.value, events[1..])
  }

  lemma {:induction false} RunAppend(s: State, first: seq<Event>, rest: seq<Event>)
    ensures Run(s, first + rest) == if Run(s, first).Some? then Run(Run(s, first).value, rest) else None
    decreases |first|
  {
    if first == [] {
      assert first + rest == rest;
    } else {
      assert (first + rest)[0] == first[0] && (first + rest)[1..] == first[1..] + rest;
      if Apply(s, first[0]).Some? {
        RunAppend(Apply(s, first[0]).value, first[1..], rest);
      }
    }
  }

  /** Some run leads from `s` to `t`. */
  ghost predicate Leads(s: State, t: State) {
    exists events :: Run(s, events) == Some(t)
  }

  lemma LeadsNowhere(s: State)
    ensures Leads(s, s)
  {
    assert Run(s, []) == Some(s);
  }

  lemma LeadsTransitive(a: State, b: State, c: State)
    requires Leads(a, b) && Leads(b, c)
    ensures Leads(a, c)
  {
    var first :| Run(a, first) == Some(b);
    var rest :| Run(b, rest) == Some(c);
    RunAppend(a, first, rest);
  }

  lemma LeadsByOne(s: State, e: Event)
    requires Apply(s, e).Some?
    ensures Leads(s, Apply(s, e).value)
  {
    assert [e][1..] == [];
    assert Run(s, [e]) == Run(Apply(s, e).value, []);
  }

  // ---------------------------------------------------------------- what each event leaves alone

  /** Rows keep their identity, and a row that has succeeded is never written again. */
  ghost predicate Evolves(before: seq<Step>, after: seq<Step>) {
    && |before| == |after|
    && forall i | 0 <= i < |before| ::
         && after[i].key == before[i].key
         && after[i].external == before[i].external
         && after[i].dependencies == before[i].dependencies
         && after[i].attempts >= before[i].attempts
         && (before[i].status == Succeeded ==> after[i] == before[i])
  }

  lemma EvolvesKeepsReady(before: seq<Step>, after: seq<Step>, j: nat)
    requires Evolves(before, after) && j < |before| && Ready(before, j)
    ensures Ready(after, j)
  {
  }

  lemma EvolvesTransitive(a: seq<Step>, b: seq<Step>, c: seq<Step>)
    requires Evolves(a, b) && Evolves(b, c)
    ensures Evolves(a, c)
  {
  }

  // ---------------------------------------------------------------- the invariant

  /** Step rows: the plan's graph, no step has begun before its dependencies, `cancelled` only after a cancel. */
  ghost predicate StepsOk(rows: Rows) {
    && ValidPlan(Shape(rows.steps))
    && (forall j | 0 <= j < |rows.steps| :: rows.steps[j].status != Planned)
    && (forall j | 0 <= j < |rows.steps| && rows.steps[j].status in {Running, Succeeded} :: rows.steps[j].attempts > 0)
    && (forall j | 0 <= j < |rows.steps| && rows.steps[j].attempts > 0 :: Ready(rows.steps, j))
    && (!rows.operation.cancelRequested ==> forall j | 0 <= j < |rows.steps| :: rows.steps[j].status != Cancelled)
  }

  /** The lease: an owner and an expiry come together, and only a running or cancelled operation has them. */
  ghost predicate LeaseOk(s: State) {
    var operation := s.rows.operation;
    && (operation.leaseOwner.Some? <==> operation.leaseUntil.Some?)
    && (operation.leaseOwner.Some? ==> operation.status in {Running, Cancelled} && operation.leaseOwner.value in s.used)
    && (operation.status == Running ==> operation.leaseOwner.Some?)
    && (operation.cancelRequested <==> operation.status == Cancelled)
  }

  /** Runners: the lease owner's step is running; the lock is held by exactly the guarded runner, which is that
      owner. */
  ghost predicate RunnersOk(s: State) {
    && (forall o <- s.runners :: o in s.used && s.runners[o].step < |s.rows.steps|)
    && (forall o <- s.runners | s.rows.operation.leaseOwner == Some(o) ::
          s.rows.steps[s.runners[o].step].status == Running)
    && (forall o <- s.runners :: s.runners[o].phase == Guarded <==> s.lock == Some(o))
    && (forall o <- s.runners | s.runners[o].phase == Guarded :: !s.rows.steps[s.runners[o].step].external)
    && (s.lock.Some? ==>
          && s.lock.value in s.runners
          && s.rows.operation.leaseOwner == s.lock
          && !s.rows.operation.cancelRequested)
  }

  /** The operation's status tells the truth about its steps. */
  ghost predicate StatusOk(rows: Rows) {
    && (rows.operation.status == Succeeded ==> AllSucceeded(rows.steps))
    && (AllSucceeded(rows.steps) && !rows.operation.cancelRequested ==> rows.operation.status == Succeeded)
    && (Open(rows.operation.status) ==> Live(rows.steps))
    && (rows.operation.status == Failed ==> !Runnable(rows.steps))
  }

  /** Some step is unfinished and has all its dependencies. */
  ghost predicate Live(steps: seq<Step>) {
    exists j :: 0 <= j < |steps| && Open(steps[j].status) && Ready(steps, j)
  }

  ghost predicate Inv(s: State) {
    StepsOk(s.rows) && LeaseOk(s) && RunnersOk(s) && StatusOk(s.rows)
  }

  // ---------------------------------------------------------------- lemmas about plans

  lemma ShapeKept(before: seq<Step>, after: seq<Step>)
    requires Evolves(before, after)
    ensures Shape(before) == Shape(after)
  {
  }

  /** In a valid plan the unfinished step of lowest position has all its dependencies. */
  lemma FirstUnfinishedIsReady(steps: seq<Step>) returns (j: nat)
    requires ValidPlan(Shape(steps)) && !AllSucceeded(steps)
    ensures j < |steps| && steps[j].status != Succeeded && Ready(steps, j)
  {
    j := 0;
    while steps[j].status == Succeeded
      invariant j < |steps|
      invariant forall i | 0 <= i < j :: steps[i].status == Succeeded
      invariant exists i :: j <= i < |steps| && steps[i].status != Succeeded
      decreases |steps| - j
    {
      j := j + 1;
    }
    forall d | 0 <= d < |steps| && steps[d].key in steps[j].dependencies
      ensures steps[d].status == Succeeded
    {
      var plan := Shape(steps);
      assert steps[d].key in plan[j].dependsOn;
      var i :| 0 <= i < j && plan[i].key == steps[d].key;
      assert plan[i].key == plan[d].key;
      assert i == d;
    }
  }

  lemma UnfinishedIsLive(steps: seq<Step>)
    requires ValidPlan(Shape(steps)) && !AllSucceeded(steps)
    requires forall j | 0 <= j < |steps| && steps[j].status != Succeeded :: Open(steps[j].status)
    ensures Live(steps)
  {
    var j := FirstUnfinishedIsReady(steps);
  }

  /** The status that `_finish_operation` computes is truthful. */
  lemma FinishedStatusOk(rows: Rows)
    requires ValidPlan(Shape(rows.steps))
    requires forall j | 0 <= j < |rows.steps| :: rows.steps[j].status !in {Planned, Cancelled}
    requires rows.operation.status == FinishedStatus(rows.steps) && !rows.operation.cancelRequested
    ensures StatusOk(rows) && rows.operation.status !in {Running, Cancelled}
  {
    var steps := rows.steps;
    assert |steps| == |Shape(steps)|;
    if rows.operation.status == Waiting && AnyStatus(steps, Failed) {
      var i :| 0 <= i < |steps| && steps[i].status in {Pending, Waiting} && Ready(steps, i);
      assert Open(steps[i].status);
    } else if Open(rows.operation.status) {
      UnfinishedIsLive(steps);
    }
  }

  // ---------------------------------------------------------------- the invariant holds

  lemma InitialInv(plan: seq<PlanStep>, preview: bool, now: int)
    requires ValidPlan(plan)
    ensures Inv(Initial(plan, preview, now))
  {
    var s := Initial(plan, preview, now);
    assert Shape(s.rows.steps) == plan;
    assert s.rows.steps[0].status != Succeeded;
    UnfinishedIsLive(s.rows.steps);
  }

  lemma ClaimInv(s: State, owner: Owner)
    requires Inv(s) && Apply(s, Claim(owner)).Some?
    ensures Inv(Apply(s, Claim(owner)).value)
    ensures Evolves(s.rows.steps, Apply(s, Claim(owner)).value.rows.steps)
  {
    var s' := Apply(s, Claim(owner)).value;
    var before, after := s.rows.steps, s'.rows.steps;
    var j := FirstEligible(before, s.now, 0).value;
    ShapeKept(before, after);
    forall i | 0 <= i < |after| && after[i].attempts > 0
      ensures Ready(after, i)
    {
      EvolvesKeepsReady(before, after, i);
    }
    assert Open(after[j].status) && Ready(after, j);
  }

  lemma RecordInv(s: State, owner: Owner, outcome: Outcome)
    requires Inv(s) && Apply(s, Record(owner, outcome)).Some?
    ensures Inv(Apply(s, Record(owner, outcome)).value)
    ensures Evolves(s.rows.steps, Apply(s, Record(owner, outcome)).value.rows.steps)
  {
    var s' := Apply(s, Record(owner, outcome)).value;
    WriteInv(s, s', owner);
  }

  lemma RecordErrorInv(s: State, owner: Owner)
    requires Inv(s) && Apply(s, RecordError(owner)).Some?
    ensures Inv(Apply(s, RecordError(owner)).value)
    ensures Evolves(s.rows.steps, Apply(s, RecordError(owner)).value.rows.steps)
  {
    var s' := Apply(s, RecordError(owner)).value;
    if s.rows.operation.leaseOwner == Some(owner) {
      WriteInv(s, s', owner);
    }
  }

  /** Any write of the owner's own step followed by the release of the lease keeps the invariant. */
  lemma WriteInv(s: State, s': State, owner: Owner)
    requires Inv(s)
    requires owner in s.runners && s.rows.operation.leaseOwner == Some(owner)
    requires s'.runners == s.runners - {owner} && s'.lock == None && s'.used == s.used
    requires s.lock in {None, Some(owner)}
    requires
      var j := s.runners[owner].step;
      && |s'.rows.steps| == |s.rows.steps|
      && (forall i | 0 <= i < |s.rows.steps| && i != j :: s'.rows.steps[i] == s.rows.steps[i])
      && s'.rows.steps[j].key == s.rows.steps[j].key
      && s'.rows.steps[j].external == s.rows.steps[j].external
      && s'.rows.steps[j].dependencies == s.rows.steps[j].dependencies
      && s'.rows.steps[j].attempts == s.rows.steps[j].attempts
      && s'.rows.steps[j].status in {Waiting, Failed, Succeeded, Cancelled}
      && (!s.rows.operation.cancelRequested ==> s'.rows.steps[j].status != Cancelled)
    requires
      var before, after := s.rows.operation, s'.rows.operation;
      if before.cancelRequested
      then after.status == before.status && after.cancelRequested
           && ((after.leaseOwner == before.leaseOwner && after.leaseUntil == before.leaseUntil)
               || (after.leaseOwner.None? && after.leaseUntil.None?))
      else after.leaseOwner.None? && after.leaseUntil.None? && !after.cancelRequested
           && after.status == FinishedStatus(s'.rows.steps)
    ensures Inv(s') && Evolves(s.rows.steps, s'.rows.steps)
  {
    var before, after := s.rows.steps, s'.rows.steps;
    ShapeKept(before, after);
    forall i | 0 <= i < |after| && after[i].attempts > 0
      ensures Ready(after, i)
    {
      EvolvesKeepsReady(before, after, i);
    }
    assert StepsOk(s'.rows);
    if !s.rows.operation.cancelRequested {
      FinishedStatusOk(s'.rows);
    }
  }

  lemma CancelInv(s: State)
    requires Inv(s) && Apply(s, Cancel).Some?
    ensures Inv(Apply(s, Cancel).value)
    ensures Evolves(s.rows.steps, Apply(s, Cancel).value.rows.steps)
  {
    var s' := Apply(s, Cancel).value;
    var before, after := s.rows.steps, s'.rows.steps;
    ShapeKept(before, after);
    forall i | 0 <= i < |after| && after[i].attempts > 0
      ensures Ready(after, i)
    {
      EvolvesKeepsReady(before, after, i);
    }
  }

  lemma ResumeInv(s: State)
    requires Inv(s) && Apply(s, Resume).Some?
    ensures Inv(Apply(s, Resume).value)
    ensures Evolves(s.rows.steps, Apply(s, Resume).value.rows.steps)
  {
    ResumeSteps(s);
    var after := Apply(s, Resume).value.rows.steps;
    assert !AllSucceeded(after);
    UnfinishedIsLive(after);
  }

  lemma ResumeSteps(s: State)
    requires Inv(s) && Apply(s, Resume).Some?
    ensures var after := Apply(s, Resume).value.rows;
      && StepsOk(after) && Evolves(s.rows.steps, after.steps)
      && (AllSucceeded(after.steps) <==> AllSucceeded(s.rows.steps))
      && forall j | 0 <= j < |after.steps| && after.steps[j].status != Succeeded :: Open(after.steps[j].status)
  {
    var before, after := s.rows.steps, Apply(s, Resume).value.rows.steps;
    ShapeKept(before, after);
    forall i | 0 <= i < |after| && after[i].attempts > 0
      ensures Ready(after, i)
    {
      EvolvesKeepsReady(before, after, i);
    }
    assert forall i | 0 <= i < |before| :: before[i].status == Succeeded <==> after[i].status == Succeeded;
  }

  lemma HeartbeatInv(s: State, owner: Owner)
    requires Inv(s) && Apply(s, Heartbeat(owner)).Some?
    ensures Inv(Apply(s, Heartbeat(owner)).value)
    ensures Evolves(s.rows.steps, Apply(s, Heartbeat(owner)).value.rows.steps)
  {
  }

  /** What a runner does by itself writes no row. */
  lemma RunnerInv(s: State, e: Event)
    requires Inv(s) && Apply(s, e).Some? && (e.Authorize? || e.Guard? || e.Raise? || e.Crash?)
    ensures Inv(Apply(s, e).value)
    ensures Evolves(s.rows.steps, Apply(s, e).value.rows.steps)
  {
    assert Apply(s, e).value.rows == s.rows;
  }

  /** Every event keeps the invariant and never writes a succeeded step again. */
  lemma ApplyInv(s: State, e: Event)
    requires Inv(s) && Apply(s, e).Some?
    ensures Inv(Apply(s, e).value)
    ensures Evolves(s.rows.steps, Apply(s, e).value.rows.steps)
  {
    match e
    case Claim(owner) => ClaimInv(s, owner);
    case Record(owner, outcome) => RecordInv(s, owner, outcome);
    case RecordError(owner) => RecordErrorInv(s, owner);
    case Cancel => CancelInv(s);
    case Resume => ResumeInv(s);
    case Tick(_) =>
    case Heartbeat(owner) => HeartbeatInv(s, owner);
    case _ => RunnerInv(s, e);
  }

  lemma {:induction false} RunInv(s: State, events: seq<Event>)
    requires Inv(s) && Run(s, events).Some?
    ensures Inv(Run(s, events).value)
    ensures Evolves(s.rows.steps, Run(s, events).value.rows.steps)
    decreases |events|
  {
    if events != [] {
      ApplyInv(s, events[0]);
      var next := Apply(s, events[0]).value;
      RunInv(next, events[1..]);
      EvolvesTransitive(s.rows.steps, next.rows.steps, Run(s, events).value.rows.steps);
    }
  }

  lemma LeadsInv(s: State, t: State)
    requires Inv(s) && Leads(s, t)
    ensures Inv(t)
    ensures Evolves(s.rows.steps, t.rows.steps)
  {
    var events :| Run(s, events) == Some(t);
    RunInv(s, events);
  }
}
