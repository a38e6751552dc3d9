/** Coherent views: a snapshot hands out a checkpoint, and bounded batches replay the event log from it. */
module Replay {
  import opened Wrappers

  const BATCH := 500
  const CHECKPOINT_SECONDS := 900

  datatype Event = Event(position: nat, schemaVersion: int, objectId: string, kind: string)

  /** What one request sees in its repeatable-read transaction. */
  datatype Delivery = Delivery(log: seq<Event>, retainedAfter: nat, incarnation: int, now: int)

  datatype Checkpoint = Checkpoint(context: string, incarnation: int, position: nat, expires: int)

  /** Checkpoints are authenticated: a token is one that was sealed here, or it does not decrypt. */
  datatype Token = Sealed(checkpoint: Checkpoint) | Undecipherable

  datatype ReplayError = DeliveryUnavailable | RebaseRequired | SchemaUnavailable

  datatype Batch = Batch(token: Token, scanned: seq<Event>, hasMore: bool)

  // ---------------------------------------------------------------- the requests

  function Tail(log: seq<Event>): nat {
    if log == [] then 0 else log[|log| - 1].position
  }

  predicate Available(d: Delivery) {
    d.retainedAfter <= Tail(d.log)
  }

  function Seal(context: string, d: Delivery, position: nat): Token {
    Sealed(Checkpoint(context, d.incarnation, position, d.now + CHECKPOINT_SECONDS))
  }

  /** `_position`: the position of a token that is still good for this context and this log. */
  function Position(context: string, d: Delivery, token: Token): Result<nat, ReplayError> {
    if token.Undecipherable? then Error(RebaseRequired)
    else
      var data := token.checkpoint;
      if data.context != context || data.incarnation != d.incarnation then Error(RebaseRequired)
      else if !(d.retainedAfter <= data.position <= Tail(d.log)) || data.expires <= d.now then Error(RebaseRequired)
      else Ok(data.position)
  }

  /** The rows with `low < position <= high`, in order. */
  function Select(log: seq<Event>, low: nat, high: nat): seq<Event> {
    if log == [] then []
    else (if low < log[0].position <= high then [log[0]] else []) + Select(log[1..], low, high)
  }

  function Limit(rows: seq<Event>, limit: nat): seq<Event> {
    if |rows| <= limit then rows else rows[..limit]
  }

  function ExecuteSnapshot(d: Delivery, context: string): Result<Token, ReplayError> {
    if !Available(d) then Error(DeliveryUnavailable) else Ok(Seal(context, d, Tail(d.log)))
  }

  function ExecuteBatch(d: Delivery, context: string, token: Token): Result<Batch, ReplayError> {
    if !Available(d) then Error(DeliveryUnavailable)
    else
      var position := Position(context, d, token);
      if position.Error? then Error(position.error)
      else
        var events := Limit(Select(d.log, position.value, Tail(d.log)), BATCH + 1);
        var scanned := Limit(events, BATCH);
        if exists i | 0 <= i < |scanned| :: scanned[i].schemaVersion != 1 then Error(SchemaUnavailable)
        else
          var next := if scanned == [] then position.value else scanned[|scanned| - 1].position;
          Ok(Batch(Seal(context, d, next), scanned, |events| > BATCH))
  }

  // ---------------------------------------------------------------- the world around them

  /** All events delivered in this incarnation, how many of the oldest were trimmed, the incarnations there have
      been, and one client's chain of batches. */
  datatype World = World(
    history: seq<Event>,
    dropped: nat,
    retainedAfter: nat,
    incarnation: int,
    used: set<int>,
    now: int,
    client: Option<Client>)

  /** Where the chain's snapshot stood, the token in hand, and everything scanned since. */
  datatype Client = Client(context: string, start: nat, token: Token, scanned: seq<Event>)

  datatype Action =
    | Append(event: Event)
    | Trim(retainedAfter: nat, dropped: nat)
    | Restore(history: seq<Event>, retainedAfter: nat, dropped: nat, incarnation: int)
    | Tick(seconds: nat)
    | Snapshot(context: string)
    | NextBatch

  ghost predicate Increasing(events: seq<Event>) {
    && (forall i | 0 <= i < |events| :: events[i].position > 0)
    && forall i, j | 0 <= i < j < |events| :: events[i].position < events[j].position
  }

  function View(w: World): Delivery
    requires w.dropped <= |w.history|
  {
    Delivery(w.history[w.dropped..], w.retainedAfter, w.incarnation, w.now)
  }

  /** Positions are handed out in increasing order, trimming removes only positions up to `retainedAfter`, and a
      restore brings back any log that was so kept, under an incarnation of its own. */
  ghost predicate Possible(w: World, a: Action) {
    match a
    case Append(event) => event.position > Tail(w.history)
    case Trim(retained, dropped) =>
      && w.retainedAfter <= retained && w.dropped <= dropped <= |w.history|
      && forall i | 0 <= i < dropped :: w.history[i].position <= retained
    case Restore(history, retained, dropped, incarnation) =>
      incarnation !in w.used && LogOk(history, retained, dropped)
    case _ => true
  }

  function Act(w: World, a: Action): World
    requires w.dropped <= |w.history|
  {
    match a
    case Append(event) => w.(history := w.history + [event])
    case Trim(retained, dropped) => w.(retainedAfter := retained, dropped := dropped)
    case Restore(history, retained, dropped, incarnation) =>
      w.(history := history, retainedAfter := retained, dropped := dropped, incarnation := incarnation,
         used := w.used + {incarnation})
    case Tick(seconds) => w.(now := w.now + seconds)
    case Snapshot(context) =>
      var token := ExecuteSnapshot(View(w), context);
      if token.Error? then w
      else w.(client := Some(Client(context, Tail(View(w).log), token.value, [])))
    case NextBatch =>
      if w.client.None? then w
      else
        var c := w.client.value;
        var batch := ExecuteBatch(View(w), c.context, c.token);
        if batch.Error? then w
        else w.(client := Some(c.(token := batch.value.token, scanned := c.scanned + batch.value.scanned)))
  }

  // ---------------------------------------------------------------- sorted logs

  /** How many events have a position up to `p`. */
  function UpTo(events: seq<Event>, p: nat): (k: nat)
    ensures k <= |events|
  {
    if events == [] || events[0].position > p then 0 else 1 + UpTo(events[1..], p)
  }

  lemma {:induction false} UpToSplits(events: seq<Event>, p: nat)
    requires Increasing(events)
    ensures forall i | 0 <= i < |events| :: i < UpTo(events, p) <==> events[i].position <= p
  {
    if events != [] {
      assert forall i | 0 <= i < |events| - 1 :: events[1..][i] == events[i + 1];
      UpToSplits(events[1..], p);
      forall i | 0 <= i < |events|
        ensures i < UpTo(events, p) <==> events[i].position <= p
      {
        if i > 0 {
          assert events[i] == events[1..][i - 1];
        }
      }
    }
  }

  lemma {:induction false} SelectNothing(events: seq<Event>, low: nat, high: nat)
    requires Increasing(events) && (events != [] ==> events[0].position > high)
    ensures Select(events, low, high) == [] && UpTo(events, high) == 0
  {
    if events != [] {
      assert events[1..] != [] ==> events[1..][0] == events[1];
      SelectNothing(events[1..], low, high);
    }
  }

  /** On a sorted log the selected rows are a contiguous stretch. */
  lemma {:induction false} SelectIsSlice(events: seq<Event>, low: nat, high: nat)
    requires Increasing(events) && low <= high
    ensures UpTo(events, low) <= UpTo(events, high)
    ensures Select(events, low, high) == events[UpTo(events, low)..UpTo(events, high)]
  {
    if events == [] || events[0].position > high {
      SelectNothing(events, low, high);
    } else {
      IncreasingTail(events);
      SelectIsSlice(events[1..], low, high);
      SliceGrows(events, low, high, UpTo(events[1..], low), UpTo(events[1..], high));
    }
  }

  lemma IncreasingTail(events: seq<Event>)
    requires Increasing(events) && events != []
    ensures Increasing(events[1..])
    ensures forall p: nat | p < events[0].position :: UpTo(events[1..], p) == 0
  {
    assert forall i | 0 <= i < |events| - 1 :: events[1..][i] == events[i + 1];
  }

  /** One more event in front, no later than `high`. */
  lemma SliceGrows(events: seq<Event>, low: nat, high: nat, a: nat, b: nat)
    requires low <= high && events != [] && events[0].position <= high
    requires a == UpTo(events[1..], low) <= b == UpTo(events[1..], high)
    requires Select(events[1..], low, high) == events[1..][a..b]
    requires low < events[0].position ==> a == 0
    ensures UpTo(events, low) <= UpTo(events, high)
    ensures Select(events, low, high) == events[UpTo(events, low)..UpTo(events, high)]
  {
    TailSlice(events, a, b);
    assert UpTo(events, high) == b + 1;
    if low < events[0].position {
      assert UpTo(events, low) == 0;
      assert Select(events, low, high) == [events[0]] + events[1..][0..b];
    } else {
      assert UpTo(events, low) == a + 1;
      assert Select(events, low, high) == [] + events[1..][a..b];
    }
  }

  lemma TailSlice(events: seq<Event>, a: nat, b: nat)
    requires a <= b < |events|
    ensures events[1..][a..b] == [] + events[1..][a..b] == events[a + 1..b + 1]
    ensures [events[0]] + events[1..][0..b] == events[0..b + 1]
  {
  }

  lemma UpToUnique(events: seq<Event>, p: nat, k: nat)
    requires Increasing(events) && k <= |events|
    requires k > 0 ==> events[k - 1].position <= p
    requires k < |events| ==> events[k].position > p
    ensures UpTo(events, p) == k
  {
    UpToSplits(events, p);
  }

  /** The events of a history between two positions. */
  function Between(history: seq<Event>, low: nat, high: nat): seq<Event>
    requires UpTo(history, low) <= UpTo(history, high)
  {
    history[UpTo(history, low)..UpTo(history, high)]
  }

  // ---------------------------------------------------------------- the invariant

  ghost predicate LogOk(history: seq<Event>, retainedAfter: nat, dropped: nat) {
    && Increasing(history)
    && dropped <= |history|
    && forall i | 0 <= i < dropped :: history[i].position <= retainedAfter
  }

  ghost predicate WorldOk(w: World) {
    && LogOk(w.history, w.retainedAfter, w.dropped)
    && w.incarnation in w.used
    && (w.client.Some? ==> w.client.value.token.Sealed? && w.client.value.token.checkpoint.incarnation in w.used)
    && (w.client.Some? && !Outlived(w) ==> ChainOk(w.history, w.client.value))
  }

  /** The client's token is from before a restore. */
  predicate Outlived(w: World) {
    w.client.Some? && w.client.value.token.Sealed? && w.client.value.token.checkpoint.incarnation != w.incarnation
  }

  /** What the client scanned since its snapshot is the history between the two positions: in order, each once. */
  ghost predicate ChainOk(history: seq<Event>, c: Client) {
    && c.token.Sealed?
    && c.start <= c.token.checkpoint.position <= Tail(history)
    && UpTo(history, c.start) <= UpTo(history, c.token.checkpoint.position)
    && c.scanned == Between(history, c.start, c.token.checkpoint.position)
  }

  /** Everything beyond a position the log still vouches for is still in the log. */
  lemma NothingLostBeyond(w: World, p: nat)
    requires WorldOk(w) && w.retainedAfter <= p
    ensures w.dropped <= UpTo(w.history, p)
    ensures Increasing(View(w).log)
    ensures UpTo(View(w).log, p) == UpTo(w.history, p) - w.dropped
  {
    UpToSplits(w.history, p);
    UpToAtLeast(w.history, p, w.dropped);
    UpToUnique(View(w).log, p, UpTo(w.history, p) - w.dropped);
  }

  lemma UpToAtLeast(events: seq<Event>, p: nat, k: nat)
    requires Increasing(events) && k <= |events| && forall i | 0 <= i < k :: events[i].position <= p
    ensures k <= UpTo(events, p)
  {
    UpToSplits(events, p);
    if k > 0 {
      assert events[k - 1].position <= p;
    }
  }

  lemma TailOfView(w: World)
    requires WorldOk(w) && Available(View(w))
    ensures Tail(View(w).log) == Tail(w.history)
    ensures UpTo(w.history, Tail(w.history)) == |w.history|
  {
    UpToUnique(w.history, Tail(w.history), |w.history|);
    if w.history != [] {
      assert w.history[|w.history| - 1].position > 0;
    }
  }

  lemma LimitTwice(rows: seq<Event>)
    ensures Limit(Limit(rows, BATCH + 1), BATCH) == Limit(rows, BATCH)
    ensures |Limit(rows, BATCH + 1)| > BATCH <==> |rows| > BATCH
  {
  }

  /** The rows that a good token selects: the history beyond its position. */
  lemma SelectedRows(w: World, p: nat)
    requires WorldOk(w) && Available(View(w)) && w.retainedAfter <= p <= Tail(View(w).log)
    ensures Select(View(w).log, p, Tail(View(w).log)) == w.history[UpTo(w.history, p)..]
  {
    var log, tail := View(w).log, Tail(View(w).log);
    assert UpTo(log, tail) == |w.history| - w.dropped by {
      TailOfView(w);
      NothingLostBeyond(w, tail);
    }
    NothingLostBeyond(w, p);
    assert Select(log, p, tail) == log[UpTo(log, p)..UpTo(log, tail)] by {
      SelectIsSlice(log, p, tail);
    }
    DroppedSlice(w.history, w.dropped, UpTo(w.history, p));
  }

  lemma DroppedSlice(history: seq<Event>, dropped: nat, k: nat)
    requires dropped <= k <= |history|
    ensures history[dropped..][k - dropped..|history| - dropped] == history[k..]
  {
  }

  /** Where a batch of up to 500 events from index `from` ends. */
  function Stop(history: seq<Event>, from: nat): nat
    requires from <= |history|
  {
    if from + BATCH < |history| then from + BATCH else |history|
  }

  /** What a successful batch returns, in terms of the whole history. */
  lemma BatchIsNextStretch(w: World, context: string, token: Token)
    requires WorldOk(w) && ExecuteBatch(View(w), context, token).Ok?
    ensures token.Sealed?
    ensures
      var batch := ExecuteBatch(View(w), context, token).value;
      var from := UpTo(w.history, token.checkpoint.position);
      var to := Stop(w.history, from);
      && batch.scanned == w.history[from..to]
      && batch.token.Sealed? && UpTo(w.history, batch.token.checkpoint.position) == to
      && token.checkpoint.position <= batch.token.checkpoint.position <= Tail(w.history)
      && (batch.hasMore <==> to < |w.history|)
  {
    var p := token.checkpoint.position;
    SelectedRows(w, p);
    TailOfView(w);
    var from := UpTo(w.history, p);
    BatchFromRows(View(w), context, token, w.history[from..]);
    var to := Stop(w.history, from);
    LimitedSlice(w.history, from);
    NextPosition(w.history, p, to);
  }

  lemma LimitedSlice(history: seq<Event>, from: nat)
    requires from <= |history|
    ensures Limit(history[from..], BATCH) == history[from..Stop(history, from)]
  {
  }

  /** A batch in terms of all the rows beyond the token's position. */
  lemma BatchFromRows(d: Delivery, context: string, token: Token, rows: seq<Event>)
    requires ExecuteBatch(d, context, token).Ok?
    requires token.Sealed? ==> rows == Select(d.log, token.checkpoint.position, Tail(d.log))
    ensures token.Sealed? && d.retainedAfter <= token.checkpoint.position <= Tail(d.log)
    ensures
      var scanned := Limit(rows, BATCH);
      var next := if scanned == [] then token.checkpoint.position else scanned[|scanned| - 1].position;
      ExecuteBatch(d, context, token).value == Batch(Seal(context, d, next), scanned, |rows| > BATCH)
  {
    LimitTwice(rows);
  }

  lemma Joined(history: seq<Event>, a: nat, b: nat, c: nat)
    requires a <= b <= c <= |history|
    ensures history[a..b] + history[b..c] == history[a..c]
  {
  }

  /** The last event of a stretch that starts after `p`, or `p` itself when the stretch is empty. */
  lemma NextPosition(history: seq<Event>, p: nat, to: nat)
    requires Increasing(history) && UpTo(history, p) <= to <= |history| && p <= Tail(history)
    ensures
      var scanned := history[UpTo(history, p)..to];
      var next := if scanned == [] then p else scanned[|scanned| - 1].position;
      UpTo(history, next) == to && p <= next <= Tail(history)
  {
    UpToSplits(history, p);
    if UpTo(history, p) < to {
      UpToUnique(history, history[to - 1].position, to);
    }
  }

  lemma AppendOk(w: World, event: Event)
    requires WorldOk(w) && Possible(w, Append(event))
    ensures WorldOk(Act(w, Append(event)))
  {
    if w.client.Some? && !Outlived(w) {
      var c := w.client.value;
      AppendKeepsUpTo(w.history, event, c.start);
      AppendKeepsUpTo(w.history, event, c.token.checkpoint.position);
    }
  }

  lemma NextBatchOk(w: World)
    requires WorldOk(w)
    ensures WorldOk(Act(w, NextBatch))
  {
    if w.client.Some? {
      var c := w.client.value;
      if ExecuteBatch(View(w), c.context, c.token).Ok? {
        BatchIsNextStretch(w, c.context, c.token);
        var from := UpTo(w.history, c.token.checkpoint.position);
        Joined(w.history, UpTo(w.history, c.start), from, Stop(w.history, from));
      }
    }
  }

  lemma SnapshotOk(w: World, context: string)
    requires WorldOk(w)
    ensures WorldOk(Act(w, Snapshot(context)))
  {
    if Available(View(w)) {
      TailOfView(w);
      var tail := Tail(w.history);
      assert Between(w.history, tail, tail) == [];
      assert Act(w, Snapshot(context)) ==
        w.(client := Some(Client(context, tail, Seal(context, View(w), tail), [])));
    }
  }

  /** Every action keeps the replay free of gaps: appends, trims, snapshots and batches, in any order. */
  lemma NoGapStep(w: World, a: Action)
    requires WorldOk(w) && Possible(w, a)
    ensures WorldOk(Act(w, a))
  {
    match a
    case Append(event) => AppendOk(w, event);
    case Snapshot(context) => SnapshotOk(w, context);
    case NextBatch => NextBatchOk(w);
    case _ =>
  }

  lemma AppendKeepsUpTo(history: seq<Event>, event: Event, p: nat)
    requires Increasing(history) && event.position > Tail(history) && p <= Tail(history)
    ensures UpTo(history + [event], p) == UpTo(history, p)
  {
    UpToSplits(history, p);
    var k := UpTo(history, p);
    assert Increasing(history + [event]);
    UpToUnique(history + [event], p, k);
  }

  // ---------------------------------------------------------------- runs

  ghost predicate PossibleRun(w: World, actions: seq<Action>)
    requires w.dropped <= |w.history|
    decreases |actions|
  {
    actions != [] ==>
      && Possible(w, actions[0])
      && Act(w, actions[0]).dropped <= |Act(w, actions[0]).history|
      && PossibleRun(Act(w, actions[0]), actions[1..])
  }

  function After(w: World, actions: seq<Action>): World
    requires w.dropped <= |w.history|
    requires PossibleRun(w, actions)
    decreases |actions|
  {
    if actions == [] then w else After(Act(w, actions[0]), actions[1..])
  }

  lemma {:induction false} RunOk(w: World, actions: seq<Action>)
    requires WorldOk(w) && PossibleRun(w, actions)
    ensures WorldOk(After(w, actions))
    decreases |actions|
  {
    if actions != [] {
      NoGapStep(w, actions[0]);
      RunOk(Act(w, actions[0]), actions[1..]);
    }
  }

  /** The world before anything happened. */
  function Beginning(incarnation: int, now: int): World {
    World([], 0, 0, incarnation, {incarnation}, now, None)
  }

  /**
   * Along every run from the empty log, a client whose token is of the present incarnation has scanned, since its
   * snapshot, exactly the events from there to its checkpoint: none skipped, none twice, none out of order.
   */
  lemma ReplayHasNoGaps(incarnation: int, now: int, actions: seq<Action>)
    requires PossibleRun(Beginning(incarnation, now), actions)
    ensures var w := After(Beginning(incarnation, now), actions);
      w.client.Some? && !Outlived(w) ==> ChainOk(w.history, w.client.value)
  {
    RunOk(Beginning(incarnation, now), actions);
  }

  /** A restore never makes for a silent skip: until it takes a new snapshot the client only gets errors. */
  lemma RestoreForcesRebase(w: World)
    requires WorldOk(w) && Outlived(w)
    ensures ExecuteBatch(View(w), w.client.value.context, w.client.value.token) in
      {Error(RebaseRequired), Error(DeliveryUnavailable)}
    ensures Act(w, NextBatch) == w
  {
  }

  /** After a restore every client of before is outlived, and stays so, with what it scanned, through every run in
      which it takes no snapshot. */
  lemma {:induction false} OutlivedUntilSnapshot(w: World, actions: seq<Action>)
    requires WorldOk(w) && Outlived(w) && PossibleRun(w, actions)
    requires forall i | 0 <= i < |actions| :: !actions[i].Snapshot?
    ensures Outlived(After(w, actions)) && After(w, actions).client == w.client
    decreases |actions|
  {
    if actions != [] {
      RestoreForcesRebase(w);
      NoGapStep(w, actions[0]);
      OutlivedUntilSnapshot(Act(w, actions[0]), actions[1..]);
    }
  }

  // ---------------------------------------------------------------- what a client can rely on

  /** `has_more` is false exactly when the checkpoint has reached the tail that the batch saw. */
  lemma HasMoreIsExact(w: World, context: string, token: Token)
    requires WorldOk(w) && ExecuteBatch(View(w), context, token).Ok?
    ensures
      var batch := ExecuteBatch(View(w), context, token).value;
      batch.token.Sealed? && (!batch.hasMore <==> batch.token.checkpoint.position == Tail(View(w).log))
  {
    BatchIsNextStretch(w, context, token);
    TailOfView(w);
    UpToSplits(w.history, ExecuteBatch(View(w), context, token).value.token.checkpoint.position);
  }

  /** A token that is still good for this context and what is retained of the log. */
  predicate Good(w: World, context: string, token: Token)
    requires w.dropped <= |w.history|
  {
    && token.Sealed?
    && token.checkpoint.context == context
    && token.checkpoint.incarnation == w.incarnation
    && w.retainedAfter <= token.checkpoint.position <= Tail(View(w).log)
    && token.checkpoint.expires > w.now
  }

  /** An event among the next 500 of the history that this version cannot read. */
  ghost predicate Unreadable(w: World, p: nat) {
    exists i :: UpTo(w.history, p) <= i < Stop(w.history, UpTo(w.history, p)) && w.history[i].schemaVersion != 1
  }

  /**
   * The three ways a batch fails, in terms of the history. Trimming past the checkpoint is among them: the answer is
   * an error, never a skip. Otherwise the batch succeeds.
   */
  lemma BatchFailsExactlyWhen(w: World, context: string, token: Token)
    requires WorldOk(w)
    ensures
      var r := ExecuteBatch(View(w), context, token);
      && (r == Error(DeliveryUnavailable) <==> w.retainedAfter > Tail(View(w).log))
      && (r == Error(RebaseRequired) <==> Available(View(w)) && !Good(w, context, token))
      && (r == Error(SchemaUnavailable) <==>
            Available(View(w)) && Good(w, context, token) && Unreadable(w, token.checkpoint.position))
  {
    if Available(View(w)) && Good(w, context, token) {
      var from := UpTo(w.history, token.checkpoint.position);
      GoodScans(w, context, token);
      UnreadableScanned(w.history, from, Stop(w.history, from));
    }
  }

  /** What a batch scans when the token is good. */
  lemma GoodScans(w: World, context: string, token: Token)
    requires WorldOk(w) && Available(View(w)) && Good(w, context, token)
    ensures
      var p := token.checkpoint.position;
      var scanned := Limit(Limit(Select(View(w).log, p, Tail(View(w).log)), BATCH + 1), BATCH);
      && Position(context, View(w), token) == Ok(p)
      && scanned == w.history[UpTo(w.history, p)..Stop(w.history, UpTo(w.history, p))]
  {
    var p := token.checkpoint.position;
    var from := UpTo(w.history, p);
    SelectedRows(w, p);
    LimitTwice(w.history[from..]);
    LimitedSlice(w.history, from);
  }

  lemma UnreadableScanned(history: seq<Event>, from: nat, to: nat)
    requires from <= to <= |history|
    ensures (exists i | 0 <= i < |history[from..to]| :: history[from..to][i].schemaVersion != 1)
      <==> exists i :: from <= i < to && history[i].schemaVersion != 1
  {
    var scanned := history[from..to];
    if i :| from <= i < to && history[i].schemaVersion != 1 {
      assert scanned[i - from] == history[i];
    }
  }

  /** A client that asks again in time always gets on: each batch takes the next 500 events or all that are left. */
  lemma BatchMakesProgress(w: World, context: string, token: Token)
    requires WorldOk(w) && ExecuteBatch(View(w), context, token).Ok?
    ensures
      var batch := ExecuteBatch(View(w), context, token).value;
      var left := |w.history| - UpTo(w.history, token.checkpoint.position);
      && |batch.scanned| == (if left < 500 then left else 500)
      && (batch.hasMore ==> batch.token.Sealed? && batch.token.checkpoint.position > token.checkpoint.position)
  {
    BatchIsNextStretch(w, context, token);
    UpToSplits(w.history, token.checkpoint.position);
  }

  // ---------------------------------------------------------------- how long a token serves

  /** What is sealed into a token: by a snapshot the tail, by a batch the end of its stretch, either for 900 seconds. */
  lemma SealedTokens(w: World, context: string, token: Token)
    requires WorldOk(w)
    ensures ExecuteSnapshot(View(w), context)
         == if w.retainedAfter > Tail(View(w).log) then Error(DeliveryUnavailable)
            else Ok(Sealed(Checkpoint(context, w.incarnation, Tail(w.history), w.now + 900)))
    ensures ExecuteBatch(View(w), context, token).Ok? ==>
      var next := ExecuteBatch(View(w), context, token).value.token;
      && next.Sealed? && next.checkpoint.position <= Tail(w.history)
      && next == Sealed(Checkpoint(context, w.incarnation, next.checkpoint.position, w.now + 900))
  {
    if Available(View(w)) {
      TailOfView(w);
    }
    if ExecuteBatch(View(w), context, token).Ok? {
      BatchIsNextStretch(w, context, token);
    }
  }

  lemma {:induction false} WithoutRestore(w: World, actions: seq<Action>)
    requires WorldOk(w) && PossibleRun(w, actions) && forall i | 0 <= i < |actions| :: !actions[i].Restore?
    ensures var v := After(w, actions);
      v.incarnation == w.incarnation && w.now <= v.now && w.history <= v.history && Tail(w.history) <= Tail(v.history)
    decreases |actions|
  {
    if actions != [] {
      NoGapStep(w, actions[0]);
      WithoutRestore(Act(w, actions[0]), actions[1..]);
    }
  }

  /**
   * How long a token serves: through any run without a restore, a batch asks for a new snapshot exactly if the log has
   * been trimmed past the token's position or 900 seconds have gone by.
   */
  lemma TokenServesExactlyWhile(w: World, context: string, position: nat, actions: seq<Action>)
    requires WorldOk(w) && PossibleRun(w, actions) && forall i | 0 <= i < |actions| :: !actions[i].Restore?
    requires position <= Tail(w.history)
    ensures After(w, actions).dropped <= |After(w, actions).history|
    ensures
      var v, token := After(w, actions), Sealed(Checkpoint(context, w.incarnation, position, w.now + 900));
      ExecuteBatch(View(v), context, token) == Error(RebaseRequired) <==>
        v.retainedAfter <= Tail(View(v).log) && (v.retainedAfter > position || v.now >= w.now + 900)
  {
    RunOk(w, actions);
    WithoutRestore(w, actions);
    var v := After(w, actions);
    BatchFailsExactlyWhen(v, context, Sealed(Checkpoint(context, w.incarnation, position, w.now + 900)));
    if Available(View(v)) {
      TailOfView(v);
    }
  }

  /** A client whose token is good, and a log it can read. */
  ghost predicate Following(w: World)
    requires w.dropped <= |w.history|
  {
    && w.client.Some? && Good(w, w.client.value.context, w.client.value.token) && Available(View(w))
    && forall i | 0 <= i < |w.history| :: w.history[i].schemaVersion == 1
  }

  /** The index of the first event the client has not seen. */
  function Reached(w: World): (k: nat)
    requires w.client.Some? && w.client.value.token.Sealed?
    ensures k <= |w.history|
  {
    UpTo(w.history, w.client.value.token.checkpoint.position)
  }

  /** The batch a following client gets: the next stretch, and a token that is good again. */
  lemma NextStretch(w: World) returns (batch: Batch)
    requires WorldOk(w) && Following(w)
    ensures ExecuteBatch(View(w), w.client.value.context, w.client.value.token) == Ok(batch)
    ensures batch.scanned == w.history[Reached(w)..Stop(w.history, Reached(w))]
    ensures Good(w, w.client.value.context, batch.token)
    ensures UpTo(w.history, batch.token.checkpoint.position) == Stop(w.history, Reached(w))
  {
    var context, token := w.client.value.context, w.client.value.token;
    BatchFailsExactlyWhen(w, context, token);
    BatchIsNextStretch(w, context, token);
    SealedIsGood(w, context, token);
    batch := ExecuteBatch(View(w), context, token).value;
  }

  /** The token a batch hands out is good. */
  lemma SealedIsGood(w: World, context: string, token: Token)
    requires WorldOk(w) && ExecuteBatch(View(w), context, token).Ok?
    ensures Good(w, context, ExecuteBatch(View(w), context, token).value.token)
  {
    BatchIsNextStretch(w, context, token);
    SealedTokens(w, context, token);
    TailOfView(w);
  }

  lemma TakesBatch(w: World, batch: Batch)
    requires w.dropped <= |w.history| && w.client.Some?
    requires ExecuteBatch(View(w), w.client.value.context, w.client.value.token) == Ok(batch)
    ensures var c := w.client.value;
      Act(w, NextBatch) == w.(client := Some(c.(token := batch.token, scanned := c.scanned + batch.scanned)))
  {
  }

  lemma NextBatchFollows(w: World) returns (next: World)
    requires WorldOk(w) && Following(w)
    ensures next == Act(w, NextBatch) && WorldOk(next) && Following(next) && next.history == w.history
    ensures Reached(next) == Stop(w.history, Reached(w))
    ensures next.client.value.scanned == w.client.value.scanned + w.history[Reached(w)..Reached(next)]
  {
    var batch := NextStretch(w);
    TakesBatch(w, batch);
    var c := w.client.value;
    next := w.(client := Some(c.(token := batch.token, scanned := c.scanned + batch.scanned)));
    NextBatchOk(w);
  }

  /** At the tail, with everything scanned that was still to come. */
  ghost predicate CaughtUp(w: World, v: World)
    requires w.client.Some? && w.client.value.token.Sealed?
  {
    && v.client.Some? && v.client.value.token.Sealed?
    && v.client.value.token.checkpoint.position == Tail(w.history)
    && v.client.value.scanned == w.client.value.scanned + w.history[Reached(w)..]
  }

  lemma AtTheTail(w: World)
    requires WorldOk(w) && Following(w) && Reached(w) == |w.history|
    ensures CaughtUp(w, w)
  {
    TailOfView(w);
    UpToSplits(w.history, w.client.value.token.checkpoint.position);
  }

  lemma CaughtUpSooner(w: World, next: World, v: World)
    requires w.client.Some? && w.client.value.token.Sealed? && next.client.Some? && next.client.value.token.Sealed?
    requires next.history == w.history && Reached(w) <= Reached(next) && CaughtUp(next, v)
    requires next.client.value.scanned == w.client.value.scanned + w.history[Reached(w)..Reached(next)]
    ensures CaughtUp(w, v)
  {
    assert w.history[Reached(w)..Reached(next)] + w.history[Reached(next)..] == w.history[Reached(w)..];
  }

  lemma FirstOf(w: World, next: World, run: seq<Action>)
    requires w.dropped <= |w.history| && next == Act(w, NextBatch) && next.dropped <= |next.history|
    requires PossibleRun(next, run)
    ensures PossibleRun(w, [NextBatch] + run) && After(w, [NextBatch] + run) == After(next, run)
  {
    assert ([NextBatch] + run)[1..] == run;
  }

  /** A client that keeps asking catches up: as many batches as 500 go into what is left bring it to the tail. */
  lemma {:induction false} CatchesUp(w: World, n: nat) returns (run: seq<Action>)
    requires WorldOk(w) && Following(w) && |w.history| - Reached(w) <= 500 * n
    ensures |run| == n && forall i | 0 <= i < n :: run[i] == NextBatch
    ensures PossibleRun(w, run) && CaughtUp(w, After(w, run))
    decreases n
  {
    if n == 0 {
      AtTheTail(w);
      run := [];
    } else {
      var next := NextBatchFollows(w);
      var rest := CatchesUp(next, n - 1);
      FirstOf(w, next, rest);
      CaughtUpSooner(w, next, After(next, rest));
      run := [NextBatch] + rest;
    }
  }

  /** What may happen at any time: time passes, a client asks, and an event comes in beyond the tail. */
  lemma AnyTime(w: World, seconds: nat, context: string, event: Event)
    requires WorldOk(w)
    ensures Possible(w, Tick(seconds)) && Act(w, Tick(seconds)) == w.(now := w.now + seconds)
    ensures Possible(w, Snapshot(context)) && Possible(w, NextBatch)
    ensures Possible(w, Append(event)) <==> event.position > Tail(w.history)
    ensures Act(w, Append(event)) == w.(history := w.history + [event])
  {
  }

  /** Every log can come about: its events come in one after another. */
  lemma {:induction false} EveryLogHappens(w: World, more: seq<Event>) returns (run: seq<Action>)
    requires w.dropped <= |w.history| && Increasing(w.history + more)
    ensures |run| == |more| && forall i | 0 <= i < |run| :: run[i] == Append(more[i])
    ensures PossibleRun(w, run) && After(w, run) == w.(history := w.history + more)
    decreases |more|
  {
    if more == [] {
      run := [];
      assert w.history + more == w.history;
    } else {
      var next := Act(w, Append(more[0]));
      assert next.history + more[1..] == w.history + more;
      ComesNext(w.history, more);
      var rest := EveryLogHappens(next, more[1..]);
      run := [Append(more[0])] + rest;
      assert run[1..] == rest;
    }
  }

  lemma ComesNext(history: seq<Event>, more: seq<Event>)
    requires more != [] && Increasing(history + more)
    ensures more[0].position > Tail(history)
  {
    assert (history + more)[|history|] == more[0];
    assert history != [] ==> (history + more)[|history| - 1] == history[|history| - 1];
  }
}
