/** All operations together: each is created once for its key, and each runs as the single one of `Executor` does. */
module Operations {
  import opened Wrappers
  import opened ControlRows
  import opened Executor
  import opened ExecutorRuns

  type Id = nat

  /** What is kept of a creation: the operation's number and the canonical text of its plan. */
  datatype Made = Made(id: Id, request: string)

  datatype Submission = Submission(actor: string, key: string, request: string, plan: seq<PlanStep>, preview: bool)

  datatype CreateError = KeyReused

  /** The operations by number, and for every actor and idempotency key the operation made. */
  datatype World = World(operations: map<Id, State>, made: map<(string, string), Made>, now: int)

  datatype Event =
    | Submit(submission: Submission, id: Id)
    | In(id: Id, event: Executor.Event)
    | Pass(seconds: nat)

  // ---------------------------------------------------------------- what happens

  /** `create_operation`, with the number drawn for the insert; a key in use inserts nothing. */
  function Create(w: World, s: Submission, id: Id): (World, Result<Id, CreateError>) {
    if (s.actor, s.key) in w.made then
      var made := w.made[(s.actor, s.key)];
      (w, if made.request == s.request then Ok(made.id) else Error(KeyReused))
    else
      (w.(operations := w.operations[id := Initial(s.plan, s.preview, w.now)],
          made := w.made[(s.actor, s.key) := Made(id, s.request)]),
       Ok(id))
  }

  /** Numbers and owners are fresh, a submitted plan has passed `validate_graph`, and time passes for all at once. */
  ghost predicate Possible(w: World, e: Event) {
    match e
    case Submit(s, id) => id !in w.operations && ValidPlan(s.plan)
    case In(id, event) =>
      && id in w.operations && !event.Tick? && Apply(w.operations[id], event).Some?
      && (event.Claim? ==> forall other <- w.operations :: event.owner !in w.operations[other].used)
    case Pass(_) => true
  }

  function Next(w: World, e: Event): World {
    match e
    case Submit(s, id) => Create(w, s, id).0
    case In(id, event) =>
      if id in w.operations && Apply(w.operations[id], event).Some?
      then w.(operations := w.operations[id := Apply(w.operations[id], event).value]) else w
    case Pass(seconds) =>
      w.(now := w.now + seconds,
         operations := map id | id in w.operations :: w.operations[id].(now := w.operations[id].now + seconds))
  }

  ghost predicate PossibleRun(w: World, events: seq<Event>)
    decreases |events|
  {
    events == [] || (Possible(w, events[0]) && PossibleRun(Next(w, events[0]), events[1..]))
  }

  function After(w: World, events: seq<Event>): World
    decreases |events|
  {
    if events == [] then w else After(Next(w, events[0]), events[1..])
  }

  function Beginning(now: int): World {
    World(map[], map[], now)
  }

  // ---------------------------------------------------------------- one operation among many

  /** Nothing that happened to one operation is more than a run of that operation alone. */
  lemma NextLeads(w: World, e: Event, id: Id)
    requires Possible(w, e) && id in w.operations
    ensures id in Next(w, e).operations && Leads(w.operations[id], Next(w, e).operations[id])
  {
    LeadsNowhere(w.operations[id]);
    match e
    case Submit(s, _) =>
    case In(changed, event) =>
      if changed == id {
        LeadsByOne(w.operations[id], event);
      }
    case Pass(seconds) => LeadsByOne(w.operations[id], Tick(seconds));
  }

  /** Every run of all operations is, for each of them, a run of the executor for that one. */
  lemma {:induction false} RunLeads(w: World, events: seq<Event>, id: Id)
    requires PossibleRun(w, events) && id in w.operations
    ensures id in After(w, events).operations && Leads(w.operations[id], After(w, events).operations[id])
    decreases |events|
  {
    LeadsNowhere(w.operations[id]);
    if events != [] {
      NextLeads(w, events[0], id);
      var next := Next(w, events[0]);
      RunLeads(next, events[1..], id);
      LeadsTransitive(w.operations[id], next.operations[id], After(w, events).operations[id]);
    }
  }

  /** Each actor and key has the operation made for it, and no operation serves two keys or none. */
  ghost predicate MadeOk(w: World) {
    && (forall k <- w.made :: w.made[k].id in w.operations)
    && (forall j <- w.made, k <- w.made | w.made[j].id == w.made[k].id :: j == k)
    && forall id <- w.operations :: exists k :: k in w.made && w.made[k].id == id
  }

  ghost predicate WorldOk(w: World) {
    MadeOk(w) && AllReachable(w.operations, w.now)
  }

  ghost predicate AllReachable(operations: map<Id, State>, now: int) {
    forall id <- operations :: Reachable(operations[id]) && operations[id].now == now
  }

  lemma LeadsFromReachable(s: State, t: State)
    requires Reachable(s) && Leads(s, t)
    ensures Reachable(t)
  {
    var plan, preview, now :| ValidPlan(plan) && Leads(Initial(plan, preview, now), s);
    LeadsTransitive(Initial(plan, preview, now), s, t);
  }

  lemma SubmitMade(w: World, s: Submission, id: Id)
    requires MadeOk(w) && id !in w.operations
    ensures MadeOk(Create(w, s, id).0)
  {
    var next := Create(w, s, id).0;
    forall other <- next.operations
      ensures exists k :: k in next.made && next.made[k].id == other
    {
      if other in w.operations {
        var k :| k in w.made && w.made[k].id == other;
        assert k in next.made && next.made[k].id == other;
      } else {
        assert next.made[(s.actor, s.key)].id == other;
      }
    }
  }

  lemma CreatedIsReachable(plan: seq<PlanStep>, preview: bool, now: int)
    requires ValidPlan(plan)
    ensures Reachable(Initial(plan, preview, now)) && Initial(plan, preview, now).now == now
  {
    LeadsNowhere(Initial(plan, preview, now));
  }

  lemma ApplyKeepsNow(s: State, e: Executor.Event)
    requires Apply(s, e).Some? && !e.Tick?
    ensures Apply(s, e).value.now == s.now
  {
  }

  /** Who made which operation does not depend on the states. */
  lemma SameNumbers(w: World, operations: map<Id, State>, now: int)
    requires MadeOk(w) && operations.Keys == w.operations.Keys
    ensures MadeOk(World(operations, w.made, now))
  {
    forall id <- operations
      ensures exists k :: k in w.made && w.made[k].id == id
    {
      assert id in w.operations;
    }
  }

  /** Changing one operation's state to one it leads to. */
  lemma ChangeOk(w: World, id: Id, s: State)
    requires WorldOk(w) && id in w.operations && Leads(w.operations[id], s) && s.now == w.now
    ensures WorldOk(w.(operations := w.operations[id := s]))
  {
    LeadsFromReachable(w.operations[id], s);
    assert w.operations[id := s].Keys == w.operations.Keys;
    SameNumbers(w, w.operations[id := s], w.now);
  }

  lemma PassOk(w: World, seconds: nat)
    requires WorldOk(w)
    ensures WorldOk(Next(w, Pass(seconds)))
  {
    var next := Next(w, Pass(seconds));
    assert next.operations.Keys == w.operations.Keys;
    SameNumbers(w, next.operations, next.now);
    LaterAll(w.operations, w.now, seconds, next.operations);
  }

  lemma LaterAll(operations: map<Id, State>, now: int, seconds: nat, later: map<Id, State>)
    requires AllReachable(operations, now) && later.Keys == operations.Keys
    requires forall id <- operations :: later[id] == operations[id].(now := operations[id].now + seconds)
    ensures AllReachable(later, now + seconds)
  {
    forall id <- later
      ensures Reachable(later[id]) && later[id].now == now + seconds
    {
      LaterIsReachable(operations[id], seconds);
    }
  }

  lemma LaterIsReachable(s: State, seconds: nat)
    requires Reachable(s)
    ensures Reachable(s.(now := s.now + seconds))
  {
    LeadsByOne(s, Tick(seconds));
    LeadsFromReachable(s, s.(now := s.now + seconds));
  }

  lemma NextOk(w: World, e: Event)
    requires WorldOk(w) && Possible(w, e)
    ensures WorldOk(Next(w, e))
  {
    match e
    case Submit(s, id) =>
      SubmitMade(w, s, id);
      CreatedIsReachable(s.plan, s.preview, w.now);
    case In(id, event) =>
      LeadsByOne(w.operations[id], event);
      ApplyKeepsNow(w.operations[id], event);
      ChangeOk(w, id, Apply(w.operations[id], event).value);
    case Pass(seconds) => PassOk(w, seconds);
  }

  lemma {:induction false} RunOk(w: World, events: seq<Event>)
    requires WorldOk(w) && PossibleRun(w, events)
    ensures WorldOk(After(w, events))
    decreases |events|
  {
    if events != [] {
      NextOk(w, events[0]);
      RunOk(Next(w, events[0]), events[1..]);
    }
  }

  /**
   * However many operations there are and however their runners and commands interleave, each of them is always in a
   * state that it could have reached alone: what is proved of reachable states holds for every one.
   */
  lemma EveryOperationIsReachable(now: int, events: seq<Event>, id: Id)
    requires PossibleRun(Beginning(now), events) && id in After(Beginning(now), events).operations
    ensures Reachable(After(Beginning(now), events).operations[id])
  {
    RunOk(Beginning(now), events);
  }

  // ---------------------------------------------------------------- created once

  /** An actor's key has made exactly one operation, whatever was submitted under it and how often. */
  lemma OneOperationPerKey(now: int, events: seq<Event>)
    requires PossibleRun(Beginning(now), events)
    ensures MadeOk(After(Beginning(now), events))
  {
    RunOk(Beginning(now), events);
  }

  lemma {:induction false} MadeStays(w: World, events: seq<Event>, k: (string, string))
    requires PossibleRun(w, events) && k in w.made
    ensures k in After(w, events).made && After(w, events).made[k] == w.made[k]
    decreases |events|
  {
    if events != [] {
      MadeStays(Next(w, events[0]), events[1..], k);
    }
  }

  /**
   * After a creation, and any run whatever, the key answers the same plan with the same operation, even when one was
   * a preview and the other not, refuses every other plan, and changes nothing either way.
   */
  lemma RetriedCreation(w: World, s: Submission, id: Id, events: seq<Event>, again: Submission, other: Id)
    requires Create(w, s, id).1.Ok? && PossibleRun(Create(w, s, id).0, events)
    requires again.actor == s.actor && again.key == s.key
    ensures var later := After(Create(w, s, id).0, events);
      Create(later, again, other) ==
        (later, if again.request == s.request then Ok(Create(w, s, id).1.value) else Error(KeyReused))
  {
    MadeStays(Create(w, s, id).0, events, (s.actor, s.key));
  }

  // ---------------------------------------------------------------- the program

  /** The rows of all operations. */
  class Registry {
    var operations: map<Id, State>
    var made: map<(string, string), Made>
    var now: int

    function Contents(): World
      reads this
    {
      World(operations, made, now)
    }

    /** `create_operation`: the insert that yields to an existing row, and the step rows when it did not. */
    method CreateOperation(s: Submission, id: Id) returns (r: Result<Id, CreateError>)
      modifies this`operations, this`made
      ensures (Contents(), r) == Create(old(Contents()), s, id)
    {
      if (s.actor, s.key) in made {
        var existing := made[(s.actor, s.key)];
        if existing.request != s.request {
          return Error(KeyReused);
        }
        return Ok(existing.id);
      }
      made := made[(s.actor, s.key) := Made(id, s.request)];
      var operation := Operation(if s.preview then Planned else Pending, None, None, false, "");
      var steps: seq<Step> := [];
      for position := 0 to |s.plan|
        invariant steps == Created(s.plan, s.preview, now).steps[..position]
      {
        steps := steps + [CreatedStep(s.plan[position], now)];
      }
      assert steps == Created(s.plan, s.preview, now).steps;
      operations := operations[id := State(Rows(operation, steps), now, None, map[], {})];
      return Ok(id);
    }
  }
}
