/** The rows of an operation as the executor updates them in place, statement by statement. Each method is one
    database transaction and is proved against the functions of `ControlRows` that the transition system uses. */
module ControlStore {
  import opened Wrappers
  import opened ControlRows

  datatype CommandError = NotResumable | StillExecuting

  /** `Plan.validate_graph`: one pass that remembers the keys already seen. */
  method ValidateGraph(plan: seq<PlanStep>) returns (ok: bool)
    ensures ok <==> Ordered(plan)
  {
    var seen: set<Key> := {};
    for j := 0 to |plan|
      invariant forall i, d | 0 <= i < d < j :: plan[i].key != plan[d].key
      invariant forall d, k | 0 <= d < j && k in plan[d].dependsOn :: exists i :: 0 <= i < d && plan[i].key == k
      invariant forall k :: k in seen <==> exists i :: 0 <= i < j && plan[i].key == k
    {
      var step := plan[j];
      if step.key in seen || exists k <- step.dependsOn :: k !in seen {
        if step.key in seen {
          var i :| 0 <= i < j && plan[i].key == step.key;
        }
        return false;
      }
      seen := seen + {step.key};
    }
    return true;
  }

  class Store {
    var operation: Operation
    var steps: seq<Step>
    var now: int

    function Rows(): Rows
      reads this
    {
      ControlRows.Rows(operation, steps)
    }

    /** `create_operation`: the operation row, then one step row per position. */
    constructor (plan: seq<PlanStep>, preview: bool, now: int)
      ensures Rows() == Created(plan, preview, now) && this.now == now
    {
      this.now := now;
      operation := Operation(if preview then Planned else Pending, None, None, false, "");
      steps := [];
      new;
      for position := 0 to |plan|
        invariant Rows().operation == Created(plan, preview, now).operation && this.now == now
        invariant steps == Created(plan, preview, now).steps[..position]
      {
        steps := steps + [CreatedStep(plan[position], now)];
      }
    }

    /** The NOT EXISTS over the dependency rows. */
    method DependenciesDone(j: nat) returns (done: bool)
      requires j < |steps|
      ensures done == Ready(steps, j)
    {
      for d := 0 to |steps|
        invariant forall e | 0 <= e < d && steps[e].key in steps[j].dependencies :: steps[e].status == Succeeded
      {
        if steps[d].key in steps[j].dependencies && steps[d].status != Succeeded {
          return false;
        }
      }
      return true;
    }

    /** `_claim`: takes the lease and starts the eligible step of lowest position, or changes nothing. */
    method Claim(owner: Owner) returns (claimed: Option<nat>)
      modifies this
      ensures now == old(now)
      ensures claimed.Some? <==> old(Claimable(Rows(), now))
      ensures claimed.None? ==> Rows() == old(Rows())
      ensures claimed.Some? ==>
                && claimed == old(FirstEligible(steps, now, 0))
                && Rows() == ClaimRows(old(Rows()), old(now), owner)
    {
      claimed := None;
      if operation.status !in {Pending, Running, Waiting} || operation.cancelRequested
         || (operation.leaseUntil.Some? && operation.leaseUntil.value >= now) {
        return;
      }
      var j := 0;
      var found := false;
      while j < |steps| && !found
        invariant j <= |steps| && Rows() == old(Rows()) && now == old(now)
        invariant found ==> j < |steps| && Eligible(steps, j, now)
        invariant forall i | 0 <= i < j :: !Eligible(steps, i, now)
        decreases |steps| - j, !found
      {
        var done := DependenciesDone(j);
        if steps[j].status in {Pending, Running, Waiting} && steps[j].availableAt <= now && done {
          found := true;
        } else {
          j := j + 1;
        }
      }
      if !found {
        return;
      }
      operation := operation.(status := Running, leaseOwner := Some(owner), leaseUntil := Some(now + LEASE_SECONDS));
      steps := steps[j := steps[j].(status := Running, attempts := steps[j].attempts + 1, error := "")];
      claimed := Some(j);
    }

    /** One round of the heartbeat thread. */
    method Heartbeat(owner: Owner)
      modifies this
      ensures now == old(now) && Rows() == HeartbeatRows(old(Rows()), old(now), owner)
    {
      if operation.leaseOwner == Some(owner) {
        operation := operation.(leaseUntil := Some(now + LEASE_SECONDS));
      }
    }

    /** `_guard`: whether the runner may go on inside the row lock. */
    method Guard(owner: Owner) returns (allowed: bool)
      ensures allowed <==> HoldsLease(operation, owner, now) && !operation.cancelRequested
    {
      if operation.leaseOwner != Some(owner) || operation.leaseUntil.None? || operation.leaseUntil.value <= now {
        return false;
      }
      return !operation.cancelRequested;
    }

    /** The statuses by key that `_finish_operation` looks dependencies up in. */
    method StatusByKey() returns (keys: map<Key, Status>)
      requires Ordered(Shape(steps))
      ensures forall i | 0 <= i < |steps| :: steps[i].key in keys && keys[steps[i].key] == steps[i].status
    {
      keys := map[];
      for i := 0 to |steps|
        invariant forall d | 0 <= d < i :: steps[d].key in keys && keys[steps[d].key] == steps[d].status
      {
        forall d | 0 <= d < i
          ensures steps[d].key != steps[i].key
        {
          assert Shape(steps)[d].key != Shape(steps)[i].key;
        }
        keys := keys[steps[i].key := steps[i].status];
      }
    }

    lemma LookupIsReady(keys: map<Key, Status>, j: nat)
      requires Ordered(Shape(steps)) && j < |steps|
      requires forall i | 0 <= i < |steps| :: steps[i].key in keys && keys[steps[i].key] == steps[i].status
      ensures forall k <- steps[j].dependencies :: k in keys
      ensures (forall k <- steps[j].dependencies :: keys[k] == Succeeded) <==> Ready(steps, j)
    {
      forall k <- steps[j].dependencies
        ensures exists i :: 0 <= i < |steps| && steps[i].key == k
      {
        assert k in Shape(steps)[j].dependsOn;
        var i :| 0 <= i < j && Shape(steps)[i].key == k;
        assert steps[i].key == k;
      }
    }

    /** `any(...)` over rows that have not started, with the dependencies looked up by key. */
    method AnyRunnable(keys: map<Key, Status>) returns (runnable: bool)
      requires Ordered(Shape(steps))
      requires forall i | 0 <= i < |steps| :: steps[i].key in keys && keys[steps[i].key] == steps[i].status
      ensures runnable == Runnable(steps)
    {
      for j := 0 to |steps|
        invariant forall i | 0 <= i < j :: !(steps[i].status in {Pending, Waiting} && Ready(steps, i))
      {
        LookupIsReady(keys, j);
        if steps[j].status in {Pending, Waiting} && forall k <- steps[j].dependencies :: keys[k] == Succeeded {
          return true;
        }
      }
      return false;
    }

    /** `_finish_operation`: recomputes the status from the step rows and gives the lease back. */
    method FinishOperation(owner: Owner)
      requires Ordered(Shape(steps))
      modifies this`operation
      ensures Rows() == FinishRows(old(Rows()), owner)
    {
      var states: set<Status> := {};
      for i := 0 to |steps|
        invariant states == set d | 0 <= d < i :: steps[d].status
      {
        states := states + {steps[i].status};
      }
      assert AnyStatus(steps, Failed) <==> Failed in states;
      assert AnyStatus(steps, Waiting) <==> Waiting in states;
      var status;
      if states == {Succeeded} {
        assert forall i | 0 <= i < |steps| :: steps[i].status in states;
        status := Succeeded;
      } else if Failed in states {
        var keys := StatusByKey();
        var runnable := AnyRunnable(keys);
        status := if runnable then Waiting else Failed;
      } else {
        status := if Waiting in states then Waiting else Pending;
      }
      if |steps| > 0 && AllSucceeded(steps) {
        assert steps[0].status in states;
        assert states == {Succeeded};
      }
      var error := NextError();
      if operation.leaseOwner == Some(owner) && !operation.cancelRequested {
        operation := Operation(status, None, None, false, error);
      }
    }

    method NextError() returns (error: string)
      ensures error == FirstError(steps)
    {
      error := "";
      for i := 0 to |steps|
        invariant FirstError(steps) == FirstError(steps[i..])
      {
        if steps[i].status in {Failed, Waiting} && steps[i].error != "" {
          return steps[i].error;
        }
      }
    }

    /** The commit after a handler returned, for the step the runner claimed. */
    method Record(owner: Owner, j: nat, outcome: Outcome)
      requires Ordered(Shape(steps)) && j < |steps|
      modifies this
      ensures now == old(now) && Rows() == RecordRows(old(Rows()), old(now), owner, j, outcome)
    {
      var status := if outcome.retryAfter.Some? then Waiting else if outcome.failure != "" then Failed else Succeeded;
      var delay := if outcome.retryAfter.Some? then outcome.retryAfter.value else 0;
      steps := steps[j := steps[j].(status := status, result := Some(outcome.result), error := outcome.failure,
                                    availableAt := now + delay)];
      assert Shape(steps) == old(Shape(steps));
      if outcome.failure != "" {
        operation := operation.(error := outcome.failure);
      }
      FinishOperation(owner);
    }

    /** The error path: nothing unless the row still names this owner. */
    method RecordError(owner: Owner, j: nat, waiting: bool, retryAfter: nat, detail: string)
      requires Ordered(Shape(steps)) && j < |steps|
      modifies this
      ensures now == old(now)
      ensures Rows() == if old(operation).leaseOwner == Some(owner)
                        then ErrorRows(old(Rows()), old(now), owner, j, waiting, retryAfter, detail) else old(Rows())
    {
      if operation.leaseOwner != Some(owner) {
        return;
      }
      var cancelled := operation.cancelRequested;
      var status := if cancelled then Cancelled else if waiting then Waiting else Failed;
      var delay := if waiting then retryAfter else 0;
      steps := steps[j := steps[j].(status := status, error := detail, availableAt := now + delay)];
      assert Shape(steps) == old(Shape(steps));
      operation := operation.(error := detail);
      if cancelled {
        operation := operation.(leaseOwner := None, leaseUntil := None);
      } else {
        FinishOperation(owner);
      }
    }

    /** `change_operation` with the command cancel. */
    method Cancel()
      modifies this
      ensures now == old(now) && Rows() == CancelRows(old(Rows()))
    {
      if operation.status in {Succeeded, Cancelled} {
        return;
      }
      operation := operation.(cancelRequested := true, status := Cancelled);
      var i := 0;
      while i < |steps|
        invariant i <= |steps| == |old(steps)| && now == old(now)
        invariant operation == CancelRows(old(Rows())).operation
        invariant forall d | 0 <= d < |steps| :: steps[d] == if d < i then CancelStep(old(steps)[d]) else old(steps)[d]
      {
        if steps[i].status in {Pending, Waiting} {
          steps := steps[i := steps[i].(status := Cancelled)];
        }
        i := i + 1;
      }
    }

    /** `change_operation` with the commands execute and resume, by a principal whose grants suffice. */
    method Resume() returns (r: Result<(), CommandError>)
      modifies this
      ensures now == old(now)
      ensures r.Ok? <==> old(Resumable(operation) && !LeaseLive(operation, now))
      ensures r == Error(NotResumable) <==> !old(Resumable(operation))
      ensures Rows() == if r.Ok? then ResumeRows(old(Rows()), old(now)) else old(Rows())
    {
      if operation.status !in {Planned, Failed, Waiting} {
        return Error(NotResumable);
      }
      if operation.leaseUntil.Some? && operation.leaseUntil.value > now {
        return Error(StillExecuting);
      }
      var i := 0;
      while i < |steps|
        invariant i <= |steps| == |old(steps)| && now == old(now) && operation == old(operation)
        invariant forall d | 0 <= d < |steps| ::
                    steps[d] == if d < i then ResumeStep(old(steps)[d], now) else old(steps)[d]
      {
        if steps[i].status in {Failed, Waiting, Running} {
          steps := steps[i := steps[i].(status := Pending, error := "", availableAt := now)];
        }
        i := i + 1;
      }
      operation := operation.(status := Pending, error := "");
      return Ok(());
    }
  }
}
