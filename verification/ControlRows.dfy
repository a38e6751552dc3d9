/** The rows of one durable operation (`control_operations` and its `control_steps`) and what each database
    transaction of the executor does to them. */
module ControlRows {
  import opened Wrappers

  type Key = string

  /** The identifier a runner draws afresh for every claim. */
  type Owner = nat

  const LEASE_SECONDS := 90

  /** Operations use every status; a step is never `Planned`. */
  datatype Status = Planned | Pending | Running | Waiting | Failed | Succeeded | Cancelled

  datatype Step = Step(
    key: Key,
    external: bool,
    dependencies: seq<Key>,
    status: Status,
    attempts: nat,
    result: Option<string>,
    error: string,
    availableAt: int)

  datatype Operation = Operation(
    status: Status,
    leaseOwner: Option<Owner>,
    leaseUntil: Option<int>,
    cancelRequested: bool,
    error: string)

  datatype Rows = Rows(operation: Operation, steps: seq<Step>)

  /** What a handler returned: its result, `_retry_after` when present, and `_failed` (empty when absent). */
  datatype Outcome = Outcome(result: string, retryAfter: Option<nat>, failure: string)

  /** A step of a plan as submitted. */
  datatype PlanStep = PlanStep(key: Key, external: bool, dependsOn: seq<Key>)

  // ---------------------------------------------------------------- plans

  /** A plan has at least one step, its keys are unique, and every dependency is the key of an earlier step. */
  ghost predicate ValidPlan(plan: seq<PlanStep>) {
    |plan| > 0 && Ordered(plan)
  }

  ghost predicate Ordered(plan: seq<PlanStep>) {
    && (forall i, j | 0 <= i < j < |plan| :: plan[i].key != plan[j].key)
    && (forall j, k | 0 <= j < |plan| && k in plan[j].dependsOn :: exists i :: 0 <= i < j && plan[i].key == k)
  }

  function Shape(steps: seq<Step>): (plan: seq<PlanStep>)
  {
    seq(|steps|, i requires 0 <= i < |steps| => PlanStep(steps[i].key, steps[i].external, steps[i].dependencies))
  }

  function CreatedStep(step: PlanStep, now: int): Step {
    Step(step.key, step.external, step.dependsOn, Pending, 0, None, "", now)
  }

  function Created(plan: seq<PlanStep>, preview: bool, now: int): Rows {
    Rows(Operation(if preview then Planned else Pending, None, None, false, ""),
         seq(|plan|, i requires 0 <= i < |plan| => CreatedStep(plan[i], now)))
  }

  // ---------------------------------------------------------------- claiming

  predicate Open(status: Status) {
    status in {Pending, Running, Waiting}
  }

  /** No row of the operation that step `j` names as a dependency has a status other than `succeeded`. */
  predicate Ready(steps: seq<Step>, j: nat)
    requires j < |steps|
  {
    forall d | 0 <= d < |steps| && steps[d].key in steps[j].dependencies :: steps[d].status == Succeeded
  }

  predicate Eligible(steps: seq<Step>, j: nat, now: int)
    requires j < |steps|
  {
    Open(steps[j].status) && steps[j].availableAt <= now && Ready(steps, j)
  }

  /** The eligible step of lowest position at or after `from`. */
  function FirstEligible(steps: seq<Step>, now: int, from: nat): (r: Option<nat>)
    requires from <= |steps|
    ensures r.Some? ==> from <= r.value < |steps| && Eligible(steps, r.value, now)
    ensures r.Some? ==> forall i | from <= i < r.value :: !Eligible(steps, i, now)
    ensures r.None? ==> forall i | from <= i < |steps| :: !Eligible(steps, i, now)
    decreases |steps| - from
  {
    if from == |steps| then None
    else if Eligible(steps, from, now) then Some(from)
    else FirstEligible(steps, now, from + 1)
  }

  predicate LeaseFree(operation: Operation, now: int) {
    operation.leaseUntil.None? || operation.leaseUntil.value < now
  }

  predicate Claimable(rows: Rows, now: int) {
    && Open(rows.operation.status)
    && !rows.operation.cancelRequested
    && LeaseFree(rows.operation, now)
    && FirstEligible(rows.steps, now, 0).Some?
  }

  function ClaimRows(rows: Rows, now: int, owner: Owner): Rows
    requires Claimable(rows, now)
  {
    var j := FirstEligible(rows.steps, now, 0).value;
    var step := rows.steps[j];
    Rows(rows.operation.(status := Running, leaseOwner := Some(owner), leaseUntil := Some(now + LEASE_SECONDS)),
         rows.steps[j := step.(status := Running, attempts := step.attempts + 1, error := "")])
  }

  // ---------------------------------------------------------------- the lease

  predicate HoldsLease(operation: Operation, owner: Owner, now: int) {
    operation.leaseOwner == Some(owner) && operation.leaseUntil.Some? && operation.leaseUntil.value > now
  }

  function HeartbeatRows(rows: Rows, now: int, owner: Owner): Rows {
    if rows.operation.leaseOwner == Some(owner)
    then rows.(operation := rows.operation.(leaseUntil := Some(now + LEASE_SECONDS)))
    else rows
  }

  // ---------------------------------------------------------------- finishing

  predicate AllSucceeded(steps: seq<Step>) {
    forall i | 0 <= i < |steps| :: steps[i].status == Succeeded
  }

  predicate AnyStatus(steps: seq<Step>, status: Status) {
    exists i | 0 <= i < |steps| :: steps[i].status == status
  }

  /** Some step that never started, or waits, has all its dependencies. A `running` row is not considered. */
  predicate Runnable(steps: seq<Step>) {
    exists i | 0 <= i < |steps| :: steps[i].status in {Pending, Waiting} && Ready(steps, i)
  }

  function FinishedStatus(steps: seq<Step>): Status {
    if |steps| > 0 && AllSucceeded(steps) then Succeeded
    else if AnyStatus(steps, Failed) then (if Runnable(steps) then Waiting else Failed)
    else if AnyStatus(steps, Waiting) then Waiting
    else Pending
  }

  /** The first nonempty error among failed and waiting steps, by position. */
  function FirstError(steps: seq<Step>): string {
    if steps == [] then ""
    else if steps[0].status in {Failed, Waiting} && steps[0].error != "" then steps[0].error
    else FirstError(steps[1..])
  }

  function FinishRows(rows: Rows, owner: Owner): Rows {
    if rows.operation.leaseOwner == Some(owner) && !rows.operation.cancelRequested
    then rows.(operation := Operation(FinishedStatus(rows.steps), None, None, false, FirstError(rows.steps)))
    else rows
  }

  function OutcomeStatus(outcome: Outcome): Status {
    if outcome.retryAfter.Some? then Waiting else if outcome.failure != "" then Failed else Succeeded
  }

  /** The commit of a handler's outcome for step `j`. */
  function RecordRows(rows: Rows, now: int, owner: Owner, j: nat, outcome: Outcome): Rows
    requires j < |rows.steps|
  {
    var delay := if outcome.retryAfter.Some? then outcome.retryAfter.value else 0;
    var step := rows.steps[j].(status := OutcomeStatus(outcome), result := Some(outcome.result),
                               error := outcome.failure, availableAt := now + delay);
    var operation := if outcome.failure != "" then rows.operation.(error := outcome.failure) else rows.operation;
    FinishRows(Rows(operation, rows.steps[j := step]), owner)
  }

  /** The commit of an exception raised while running step `j`, by the owner that still holds the row. */
  function ErrorRows(rows: Rows, now: int, owner: Owner, j: nat, waiting: bool, retryAfter: nat, detail: string): Rows
    requires j < |rows.steps|
  {
    var cancelled := rows.operation.cancelRequested;
    var status := if cancelled then Cancelled else if waiting then Waiting else Failed;
    var delay := if waiting then retryAfter else 0;
    var step := rows.steps[j].(status := status, error := detail, availableAt := now + delay);
    var written := Rows(rows.operation.(error := detail), rows.steps[j := step]);
    if cancelled then written.(operation := written.operation.(leaseOwner := None, leaseUntil := None))
    else FinishRows(written, owner)
  }

  // ---------------------------------------------------------------- commands

  function CancelStep(step: Step): Step {
    if step.status in {Pending, Waiting} then step.(status := Cancelled) else step
  }

  function CancelRows(rows: Rows): Rows {
    if rows.operation.status in {Succeeded, Cancelled} then rows
    else Rows(rows.operation.(cancelRequested := true, status := Cancelled),
              seq(|rows.steps|, i requires 0 <= i < |rows.steps| => CancelStep(rows.steps[i])))
  }

  function ResumeStep(step: Step, now: int): Step {
    if step.status in {Failed, Waiting, Running} then step.(status := Pending, error := "", availableAt := now)
      else step
  }

  predicate Resumable(operation: Operation) {
    operation.status in {Planned, Failed, Waiting}
  }

  predicate LeaseLive(operation: Operation, now: int) {
    operation.leaseUntil.Some? && operation.leaseUntil.value > now
  }

  function ResumeRows(rows: Rows, now: int): Rows {
    Rows(rows.operation.(status := Pending, error := ""),
         seq(|rows.steps|, i requires 0 <= i < |rows.steps| => ResumeStep(rows.steps[i], now)))
  }
}
