/** Exactly-once commands: the invariant of every run of calls, retries and other transactions. */
module CommandRuns {
  import opened Wrappers
  import opened Commands

  // ---------------------------------------------------------------- the invariant

  /** The command's contract on targets and versions, as the request that was stored met it. */
  ghost predicate ContractMet(db: Database, stamp: Fingerprint) {
    && stamp.command in db.catalogue
    && db.catalogue[stamp.command].requiresTarget == stamp.target.Some?
    && db.catalogue[stamp.command].requiresVersion == stamp.expected.Some?
  }

  /** A receipt is backed by one execution and one outbox row, both under its number. */
  ghost predicate Backed(db: Database, k: (string, string))
    requires k in db.receipts
  {
    var receipt := db.receipts[k];
    && receipt.id < |db.applied| == |db.outbox|
    && db.outbox[receipt.id] == NoticeOf(receipt)
    && db.applied[receipt.id].actor == k.0 && db.applied[receipt.id].key == k.1
    && receipt.basis == receipt.fingerprint.expected
    && ContractMet(db, receipt.fingerprint)
    && EditMatches(db, receipt.fingerprint, db.applied[receipt.id].edit)
  }

  /** A versioned execution edited its target at exactly the version its request expected. */
  ghost predicate EditMatches(db: Database, stamp: Fingerprint, edit: Option<Edit>)
    requires stamp.command in db.catalogue
  {
    if stamp.target.Some? && stamp.expected.Some? then
      && edit.Some?
      && edit.value.slot == Slot(stamp.target.value, db.catalogue[stamp.command].channel)
      && edit.value.basis == stamp.expected.value == edit.value.found
    else edit.None?
  }

  ghost predicate Receipted(db: Database, i: nat)
    requires i < |db.applied|
  {
    var k := (db.applied[i].actor, db.applied[i].key);
    k in db.receipts && db.receipts[k].id == i
  }

  /** The version an execution was based on has been passed. */
  ghost predicate Passed(versions: Versions, edit: Option<Edit>) {
    edit.Some? ==> edit.value.slot in versions && edit.value.basis < versions[edit.value.slot]
  }

  ghost predicate Later(first: Option<Edit>, second: Option<Edit>) {
    first.Some? && second.Some? && first.value.slot == second.value.slot ==>
      first.value.basis < second.value.basis
  }

  ghost predicate Inv(db: Database) {
    && |db.applied| == |db.outbox|
    && (forall k | k in db.receipts :: Backed(db, k))
    && (forall i | 0 <= i < |db.applied| :: Receipted(db, i))
    && (forall i | 0 <= i < |db.applied| :: Passed(db.versions, db.applied[i].edit))
    && (forall i, j | 0 <= i < j < |db.applied| :: Later(db.applied[i].edit, db.applied[j].edit))
  }

  lemma RisingInv(db: Database, versions: Versions, after: Database)
    requires Inv(db) && Rising(db.versions, versions)
    requires after.versions == versions && after.catalogue == db.catalogue
    requires after.receipts == db.receipts && after.outbox == db.outbox && after.applied == db.applied
    ensures Inv(after)
  {
    forall k | k in after.receipts
      ensures Backed(after, k)
    {
      assert Backed(db, k);
    }
    forall i | 0 <= i < |after.applied|
      ensures Receipted(after, i) && Passed(versions, after.applied[i].edit)
    {
      assert Receipted(db, i) && Passed(db.versions, db.applied[i].edit);
    }
  }

  lemma CommitInv(db: Database, actor: string, key: string, stamp: Fingerprint, work: Work)
    requires Inv(db) && work.Done? && (actor, key) !in db.receipts
    requires ContractMet(db, stamp) && Current(db, stamp)
    requires Rising(db.versions, work.versions)
    requires Passed(work.versions, EditOf(db, stamp))
    ensures Inv(Commit(db, actor, key, stamp, work))
  {
    var after := Commit(db, actor, key, stamp, work);
    var n := |db.applied|;
    forall k | k in after.receipts
      ensures Backed(after, k)
    {
      if k != (actor, key) {
        assert Backed(db, k);
      }
    }
    forall i | 0 <= i < |after.applied|
      ensures Receipted(after, i) && Passed(after.versions, after.applied[i].edit)
    {
      if i < n {
        assert Receipted(db, i) && Passed(db.versions, db.applied[i].edit);
      }
    }
    forall i, j | 0 <= i < j < |after.applied|
      ensures Later(after.applied[i].edit, after.applied[j].edit)
    {
      if j < n {
        assert Later(db.applied[i].edit, db.applied[j].edit);
      } else {
        assert Passed(db.versions, db.applied[i].edit);
      }
    }
  }

  lemma ExecuteInv(db: Database, actor: string, request: Request, work: Work)
    requires Inv(db) && Edits(db, request.command, request.target, work)
    ensures Inv(Execute(db, actor, request, work).0)
  {
    if Execute(db, actor, request, work).0 != db {
      var stamp := StampOf(db, actor, request).value;
      CommitInv(db, actor, request.key, stamp, work);
    }
  }

  lemma ApplyInv(db: Database, e: Event)
    requires Inv(db) && Possible(db, e)
    ensures Inv(Apply(db, e))
  {
    match e
    case Elsewhere(_, versions, _) => RisingInv(db, versions, Apply(db, e));
    case Call(actor, request, work) => ExecuteInv(db, actor, request, work);
    case LegacyCall(actor, name, target, input, key, work) =>
      if Apply(db, e) != db {
        var version := Supplied(db, actor, name, target, key);
        ExecuteInv(db, actor, Request(name, Some(target), version, key, input), work);
      }
  }

  /** The version an old route's call supplies when its target resolves. */
  function Supplied(db: Database, actor: string, name: string, target: Reference, key: string): Option<Version>
    requires name in db.catalogue && Resolve(db.table, db.versions, db.catalogue[name], target).Ok?
  {
    var found := Resolve(db.table, db.versions, db.catalogue[name], target);
    ResolvedHasVersion(db, db.catalogue[name], target);
    if (actor, key) in db.receipts then db.receipts[(actor, key)].basis
    else Some(db.versions[Slot(found.value, db.catalogue[name].channel)])
  }

  // ---------------------------------------------------------------- runs

  function Run(db: Database, events: seq<Event>): Database
    decreases |events|
  {
    if events == [] then db else Run(Apply(db, events[0]), events[1..])
  }

  ghost predicate Legal(db: Database, events: seq<Event>)
    decreases |events|
  {
    events == [] || (Possible(db, events[0]) && Legal(Apply(db, events[0]), events[1..]))
  }

  /** A fresh installation: no command has run. */
  predicate Initial(db: Database) {
    db.receipts == map[] && db.outbox == [] && db.applied == []
  }

  ghost predicate Reachable(db: Database) {
    exists start, events :: Initial(start) && Legal(start, events) && Run(start, events) == db
  }

  lemma {:induction false} RunInv(db: Database, events: seq<Event>)
    requires Inv(db) && Legal(db, events)
    ensures Inv(Run(db, events))
    decreases |events|
  {
    if events != [] {
      ApplyInv(db, events[0]);
      RunInv(Apply(db, events[0]), events[1..]);
    }
  }

  lemma ReachableInv(db: Database)
    requires Reachable(db)
    ensures Inv(db)
  {
    var start, events :| Initial(start) && Legal(start, events) && Run(start, events) == db;
    RunInv(start, events);
  }

  /** Receipts, the outbox and the log of executions only grow; the catalogue is fixed. */
  ghost predicate Grows(before: Database, after: Database) {
    && before.catalogue == after.catalogue
    && before.outbox <= after.outbox && before.applied <= after.applied
    && forall k | k in before.receipts :: k in after.receipts && after.receipts[k] == before.receipts[k]
  }

  lemma ApplyGrows(db: Database, e: Event)
    ensures Grows(db, Apply(db, e))
  {
  }

  lemma {:induction false} RunGrows(db: Database, events: seq<Event>)
    ensures Grows(db, Run(db, events))
    decreases |events|
  {
    if events != [] {
      ApplyGrows(db, events[0]);
      RunGrows(Apply(db, events[0]), events[1..]);
    }
  }

  // ---------------------------------------------------------------- exactly once

  /**
   * Every (actor, key) has at most one execution, one receipt and one outbox row, and they belong together:
   * executions, outbox rows and receipts correspond one to one.
   */
  lemma ExactlyOnce(db: Database)
    requires Reachable(db)
    ensures |db.applied| == |db.outbox| == |db.receipts|
    ensures forall i | 0 <= i < |db.applied| ::
      var k := (db.applied[i].actor, db.applied[i].key);
      k in db.receipts && db.receipts[k].id == i && db.outbox[i] == NoticeOf(db.receipts[k])
    ensures forall i, j | 0 <= i < j < |db.applied| ::
      (db.applied[i].actor, db.applied[i].key) != (db.applied[j].actor, db.applied[j].key)
  {
    ReachableInv(db);
    forall i | 0 <= i < |db.applied|
      ensures var k := (db.applied[i].actor, db.applied[i].key);
        k in db.receipts && db.receipts[k].id == i && db.outbox[i] == NoticeOf(db.receipts[k])
    {
      assert Receipted(db, i);
      assert Backed(db, (db.applied[i].actor, db.applied[i].key));
    }
    CountReceipts(db, |db.applied|);
    assert KeysOf(db.applied, |db.applied|) == db.receipts.Keys by {
      forall k | k in db.receipts
        ensures k in KeysOf(db.applied, |db.applied|)
      {
        assert Backed(db, k);
        KeyOfMember(db.applied, |db.applied|, db.receipts[k].id);
      }
      forall k | k in KeysOf(db.applied, |db.applied|)
        ensures k in db.receipts
      {
        var i := MemberOfKey(db.applied, |db.applied|, k);
        assert Receipted(db, i);
      }
    }
  }

  ghost function KeysOf(applied: seq<Application>, n: nat): set<(string, string)>
    requires n <= |applied|
  {
    if n == 0 then {} else KeysOf(applied, n - 1) + {(applied[n - 1].actor, applied[n - 1].key)}
  }

  lemma {:induction false} KeyOfMember(applied: seq<Application>, n: nat, i: nat)
    requires i < n <= |applied|
    ensures (applied[i].actor, applied[i].key) in KeysOf(applied, n)
  {
    if i < n - 1 {
      KeyOfMember(applied, n - 1, i);
    }
  }

  lemma {:induction false} MemberOfKey(applied: seq<Application>, n: nat, k: (string, string)) returns (i: nat)
    requires n <= |applied| && k in KeysOf(applied, n)
    ensures i < n && k == (applied[i].actor, applied[i].key)
  {
    if k == (applied[n - 1].actor, applied[n - 1].key) {
      i := n - 1;
    } else {
      i := MemberOfKey(applied, n - 1, k);
    }
  }

  lemma {:induction false} CountReceipts(db: Database, n: nat)
    requires Inv(db) && n <= |db.applied|
    ensures |KeysOf(db.applied, n)| == n
  {
    if n > 0 {
      CountReceipts(db, n - 1);
      var k := (db.applied[n - 1].actor, db.applied[n - 1].key);
      assert Receipted(db, n - 1);
      forall i | 0 <= i < n - 1
        ensures (db.applied[i].actor, db.applied[i].key) != k
      {
        assert Receipted(db, i);
      }
      if k in KeysOf(db.applied, n - 1) {
        var i := MemberOfKey(db.applied, n - 1, k);
        assert false;
      }
    }
  }

  /**
   * Under a used key nothing ever changes, whatever is requested and whatever a handler would have done; the
   * stored receipt is shown exactly to the same request, from an actor who still may, while its target and its
   * object still exist.
   */
  lemma UsedKeyIsInert(db: Database, actor: string, request: Request, work: Work)
    requires Inv(db) && (actor, request.key) in db.receipts
    ensures var (after, response) := Execute(db, actor, request, work);
      && after == db
      && (response.Ok? ==> response.value == db.receipts[(actor, request.key)])
      && (response.Ok? <==> Replayable(db, actor, request, db.receipts[(actor, request.key)]))
  {
    assert Backed(db, (actor, request.key));
  }

  /** The same request, by an actor who still holds the scope, with its target and its object still in place. */
  ghost predicate Replayable(db: Database, actor: string, request: Request, receipt: Receipt) {
    && request.command == receipt.fingerprint.command && request.command in db.catalogue
    && request.expected == receipt.fingerprint.expected
    && request.input == Some(receipt.fingerprint.input) && receipt.fingerprint.input.bytes <= 2097152
    && SameTarget(db, request, receipt)
    && Authorised(db.grants, actor, db.catalogue[request.command].scope)
    && Projectable(db.table, db.versions, db.catalogue[request.command], receipt.entity)
  }

  ghost predicate SameTarget(db: Database, request: Request, receipt: Receipt)
    requires request.command in db.catalogue
  {
    if request.target.None? then receipt.fingerprint.target.None?
    else
      var found := Resolve(db.table, db.versions, db.catalogue[request.command], request.target.value);
      found.Ok? && receipt.fingerprint.target == Some(found.value)
  }

  /**
   * A retry, after any further run: the request that was answered once is answered with the same receipt, even
   * though its target has moved to another version; it is refused only when the actor's scope, the target or the
   * result's object is gone, or the target's name now means another object. No retry ever changes anything.
   */
  lemma RetryReturnsTheReceipt(
    db: Database, actor: string, request: Request, work: Work, events: seq<Event>, again: Work)
    requires Inv(db) && Edits(db, request.command, request.target, work)
    requires Execute(db, actor, request, work).1.Ok?
    requires Legal(Execute(db, actor, request, work).0, events)
    ensures var receipt := Execute(db, actor, request, work).1.value;
      var later := Run(Execute(db, actor, request, work).0, events);
      && later.catalogue == db.catalogue && request.command in db.catalogue
      && Execute(later, actor, request, again).0 == later
      && (Execute(later, actor, request, again).1 == Ok(receipt)
          <==> && Authorised(later.grants, actor, db.catalogue[request.command].scope)
               && SameTarget(later, request, receipt)
               && Projectable(later.table, later.versions, db.catalogue[request.command], receipt.entity))
  {
    var (next, response) := Execute(db, actor, request, work);
    AnsweredHasReceipt(db, actor, request, work);
    ExecuteInv(db, actor, request, work);
    RunInv(next, events);
    RunGrows(next, events);
    UsedKeyIsInert(Run(next, events), actor, request, again);
  }

  /** An answer is the receipt now under the key, and the receipt is for this very request. */
  lemma AnsweredHasReceipt(db: Database, actor: string, request: Request, work: Work)
    requires Inv(db) && Execute(db, actor, request, work).1.Ok?
    ensures var (next, response) := Execute(db, actor, request, work);
      && next.catalogue == db.catalogue && request.command in db.catalogue
      && (actor, request.key) in next.receipts && next.receipts[(actor, request.key)] == response.value
      && response.value.fingerprint.command == request.command
      && response.value.fingerprint.expected == request.expected
      && request.input == Some(response.value.fingerprint.input) && request.input.value.bytes <= 2097152
  {
  }

  // ---------------------------------------------------------------- a call under a new key

  /** The reference names this object among the rows of a kind, and the object has a version on the channel. */
  ghost predicate Names(table: map<Row, nat>, versions: Versions, command: Command, reference: Reference, entity: nat) {
    && Slot(entity, command.channel) in versions
    && match reference
       case ObjectId(id) => id == entity && exists row | row in table :: row.kind == command.kind && table[row] == id
       case RowId(id) => Row(command.kind, id) in table && table[Row(command.kind, id)] == entity
       case Malformed => false
  }

  /** The actor's scopes include the command's, or all. */
  predicate Granted(db: Database, actor: string, command: Command) {
    actor in db.grants && (command.scope in db.grants[actor] || "*" in db.grants[actor])
  }

  /** The request fits the command: target, version and fields are there when they should be, and not too long. */
  predicate Fits(command: Command, request: Request) {
    && (request.target.Some? <==> command.requiresTarget) && (request.expected.Some? <==> command.requiresVersion)
    && request.input.Some? && request.input.value.bytes <= 2097152
  }

  /** The named object is at the version that was expected, where the command asks for one. */
  ghost predicate UpToDate(db: Database, command: Command, request: Request) {
    request.target.Some? ==> exists entity: nat ::
      && Names(db.table, db.versions, command, request.target.value, entity)
      && (request.expected.Some? ==> db.versions[Slot(entity, command.channel)] == request.expected.value)
  }

  lemma NamesIsResolved(table: map<Row, nat>, versions: Versions, command: Command, reference: Reference)
    ensures forall entity: nat ::
      Names(table, versions, command, reference, entity) <==> Resolve(table, versions, command, reference) == Ok(entity)
  {
  }

  /** What the handler left has the object that its result is about. */
  ghost predicate Shown(command: Command, work: Work)
    requires work.Done?
  {
    Names(work.table, work.versions, command, ObjectId(work.entity), work.entity)
  }

  /**
   * When a call under a new key succeeds: the actor may, the request fits, its target is there at the expected version,
   * and the handler returns a result about an object that is there in the end. Otherwise nothing changes.
   */
  lemma NewCallSucceedsExactlyWhen(db: Database, actor: string, request: Request, work: Work)
    requires (actor, request.key) !in db.receipts
    ensures Execute(db, actor, request, work).1.Ok? <==>
      && request.command in db.catalogue
      && (var command := db.catalogue[request.command];
          && Granted(db, actor, command) && Fits(command, request) && UpToDate(db, command, request)
          && work.Done? && Shown(command, work))
    ensures Execute(db, actor, request, work).1.Error? ==> Execute(db, actor, request, work).0 == db
  {
    if request.command in db.catalogue {
      var command := db.catalogue[request.command];
      if request.target.Some? {
        NamesIsResolved(db.table, db.versions, command, request.target.value);
      }
      if work.Done? {
        NamesIsResolved(work.table, work.versions, command, ObjectId(work.entity));
      }
    }
  }

  /** And then the handler's rows and versions are kept, with one receipt and one notice about what it did. */
  lemma NewCallKeepsTheWork(db: Database, actor: string, request: Request, work: Work)
    requires (actor, request.key) !in db.receipts && Execute(db, actor, request, work).1.Ok?
    ensures work.Done? && request.command in db.catalogue && request.input.Some?
    ensures var (next, response) := Execute(db, actor, request, work);
      var receipt := response.value;
      && next.table == work.table && next.versions == work.versions
      && next.catalogue == db.catalogue && next.grants == db.grants
      && next.receipts == db.receipts[(actor, request.key) := receipt]
      && receipt.entity == work.entity && receipt.version == work.version && receipt.output == work.output
      && receipt.basis == request.expected
      && receipt.fingerprint.command == request.command && receipt.fingerprint.expected == request.expected
      && receipt.fingerprint.input == request.input.value
      && (request.target.None? <==> receipt.fingerprint.target.None?)
      && (request.target.Some? ==>
            Names(db.table, db.versions, db.catalogue[request.command], request.target.value,
                  receipt.fingerprint.target.value))
      && |next.outbox| == |db.outbox| + 1 && db.outbox <= next.outbox
      && next.outbox[|db.outbox|] == Notice(receipt.id, request.command, work.entity, work.version)
  {
    if request.target.Some? {
      NamesIsResolved(db.table, db.versions, db.catalogue[request.command], request.target.value);
    }
  }

  /** The same request made again at once is answered with that receipt, as long as its target is still what it was. */
  lemma RetriedAtOnce(db: Database, actor: string, request: Request, work: Work, again: Work)
    requires (actor, request.key) !in db.receipts && Execute(db, actor, request, work).1.Ok?
    requires request.target.Some? ==> exists entity: nat ::
      && Names(db.table, db.versions, db.catalogue[request.command], request.target.value, entity)
      && Names(work.table, work.versions, db.catalogue[request.command], request.target.value, entity)
    ensures var (next, response) := Execute(db, actor, request, work);
      Execute(next, actor, request, again) == (next, response)
  {
    var command := db.catalogue[request.command];
    if request.target.Some? {
      NamesIsResolved(db.table, db.versions, command, request.target.value);
      NamesIsResolved(work.table, work.versions, command, request.target.value);
    }
  }

  /** Why a call under a new key is refused, in the order of the checks. */
  lemma RefusedFor(db: Database, actor: string, request: Request, work: Work)
    requires (actor, request.key) !in db.receipts
    ensures var response := Execute(db, actor, request, work).1;
      && (response == Error(UnknownCommand) <==> request.command !in db.catalogue)
      && (request.command in db.catalogue ==>
            var command := db.catalogue[request.command];
            && (response == Error(Forbidden) <==> !Granted(db, actor, command))
            && (Granted(db, actor, command) ==>
                  && (response == Error(TargetRequired) <==> command.requiresTarget && request.target.None?)
                  && (response == Error(TargetNotApplicable) <==> !command.requiresTarget && request.target.Some?)
                  && ((request.target.Some? <==> command.requiresTarget) ==>
                        && (response == Error(VersionRequired) <==> command.requiresVersion && request.expected.None?)
                        && (response == Error(VersionNotApplicable) <==>
                              !command.requiresVersion && request.expected.Some?)
                        && ((request.expected.Some? <==> command.requiresVersion) ==>
                              (response == Error(InvalidInput) <==> request.input.None?)))))
  {
  }

  /** And for a request that an actor may make and that fits: an absent target, a passed version, or the handler. */
  lemma FittingRefusedFor(db: Database, actor: string, request: Request, work: Work)
    requires (actor, request.key) !in db.receipts && request.command in db.catalogue
    requires Granted(db, actor, db.catalogue[request.command]) && Fits(db.catalogue[request.command], request)
    ensures var command, response := db.catalogue[request.command], Execute(db, actor, request, work).1;
      && (response in {Error(NotFound), Error(InvalidTarget), Error(IdentityMismatch)} && work == Raises ==>
            request.target.Some?
            && forall entity: nat :: !Names(db.table, db.versions, command, request.target.value, entity))
      && (response == Error(RevisionConflict) <==>
            && request.target.Some? && request.expected.Some?
            && exists entity: nat ::
                 && Names(db.table, db.versions, command, request.target.value, entity)
                 && db.versions[Slot(entity, command.channel)] != request.expected.value)
      && (response == Error(HandlerFailed) <==> work == Raises && UpToDate(db, command, request))
  {
    if request.target.Some? {
      NamesIsResolved(db.table, db.versions, db.catalogue[request.command], request.target.value);
    }
  }

  /** An old route under a new key brings the version its target has, so it is never too late. */
  lemma OldRouteIsUpToDate(
    db: Database, actor: string, name: string, target: Reference, input: Option<Input>, key: string, work: Work)
    requires (actor, key) !in db.receipts && name in db.catalogue
    requires db.catalogue[name].requiresTarget && db.catalogue[name].requiresVersion
    ensures var command, (after, response) :=
        db.catalogue[name], ExecuteCompatibility(db, actor, name, target, input, key, work);
      && response != Error(RevisionConflict)
      && (response.Ok? <==>
            && Granted(db, actor, command) && input.Some? && input.value.bytes <= 2097152
            && (exists entity: nat :: Names(db.table, db.versions, command, target, entity))
            && work.Done? && Shown(command, work))
      && (response.Ok? ==> after.table == work.table && after.versions == work.versions)
  {
    var command := db.catalogue[name];
    NamesIsResolved(db.table, db.versions, command, target);
    if Resolve(db.table, db.versions, command, target).Ok? {
      var version := Supplied(db, actor, name, target, key);
      NewCallSucceedsExactlyWhen(db, actor, Request(name, Some(target), version, key, input), work);
    }
  }

  /** One catalogue entry, one tournament at version 1, one actor who may rename it: before anything has happened. */
  function OneTournament(): Database {
    Database(
      map["rename" := Command("tournament", "tournaments", "name", true, true)], map["ann" := {"tournaments"}],
      map[Row("tournament", 1) := 7], map[Slot(7, "name") := 1], map[], [], [])
  }

  function RenameRequest(): Request {
    Request("rename", Some(ObjectId(7)), Some(1), "k", Some(Input("{}", 2)))
  }

  function RenameWork(): Work {
    Done(7, Some(2), "renamed", OneTournament().table, map[Slot(7, "name") := 2])
  }

  /** That condition can fail: the request is answered, the actor loses its grants, and the retry is forbidden. */
  lemma RetryCanBeForbidden()
    ensures var db, request, work := OneTournament(), RenameRequest(), RenameWork();
      var (next, response) := Execute(db, "ann", request, work);
      var revoked := Elsewhere(next.table, next.versions, map[]);
      && Initial(db) && Legal(db, [Call("ann", request, work), revoked])
      && response.Ok? && (("ann", "k") in next.receipts)
      && Execute(Apply(next, revoked), "ann", request, work) == (Apply(next, revoked), Error(Forbidden))
  {
    var db, request, work := OneTournament(), RenameRequest(), RenameWork();
    RenameIsAnswered();
    var (next, response) := Execute(db, "ann", request, work);
    var revoked := Elsewhere(next.table, next.versions, map[]);
    assert [Call("ann", request, work), revoked][1..] == [revoked] && [revoked][1..] == [];
    assert Possible(next, revoked);
    assert Legal(next, [revoked]);
  }

  lemma RenameIsAnswered()
    ensures Possible(OneTournament(), Call("ann", RenameRequest(), RenameWork()))
    ensures Execute(OneTournament(), "ann", RenameRequest(), RenameWork()).1.Ok?
  {
    var db := OneTournament();
    assert db.table[Row("tournament", 1)] == 7 && Listed(db.table, "tournament", 7);
    assert Resolve(db.table, db.versions, db.catalogue["rename"], ObjectId(7)) == Ok(7);
  }

  /**
   * No lost update: of two executions of versioned commands on one object and channel, the later one was based
   * on a higher version, and each found exactly the version it expected.
   */
  lemma NoLostUpdate(db: Database, i: nat, j: nat)
    requires Reachable(db) && i < j < |db.applied|
    requires db.applied[i].edit.Some? && db.applied[j].edit.Some?
    requires db.applied[i].edit.value.slot == db.applied[j].edit.value.slot
    ensures db.applied[i].edit.value.basis < db.applied[j].edit.value.basis
    ensures db.applied[i].edit.value.found == db.applied[i].edit.value.basis
    ensures db.applied[j].edit.value.found == db.applied[j].edit.value.basis
  {
    ReachableInv(db);
    assert Later(db.applied[i].edit, db.applied[j].edit);
    assert Receipted(db, i) && Receipted(db, j);
    assert Backed(db, (db.applied[i].actor, db.applied[i].key));
    assert Backed(db, (db.applied[j].actor, db.applied[j].key));
  }

  // ---------------------------------------------------------------- routes without versions

  /**
   * An old route's retry supplies the version its key already used, so it reproduces the stored fingerprint: it is
   * answered exactly when command, fields and target are those of the receipt and the actor, the target and the
   * object are still there. The version the target has moved to does not matter.
   */
  lemma CompatibilityReproducesTheFingerprint(
    db: Database, actor: string, name: string, target: Reference, input: Option<Input>, key: string, work: Work)
    requires Inv(db) && (actor, key) in db.receipts
    ensures var receipt := db.receipts[(actor, key)];
      var (after, response) := ExecuteCompatibility(db, actor, name, target, input, key, work);
      && after == db
      && (response.Ok? ==> response.value == receipt)
      && (response.Ok? <==>
            && name == receipt.fingerprint.command
            && input == Some(receipt.fingerprint.input) && receipt.fingerprint.input.bytes <= 2097152
            && Authorised(db.grants, actor, db.catalogue[name].scope)
            && (var found := Resolve(db.table, db.versions, db.catalogue[name], target);
                found.Ok? && receipt.fingerprint.target == Some(found.value))
            && Projectable(db.table, db.versions, db.catalogue[name], receipt.entity))
  {
    var receipt := db.receipts[(actor, key)];
    assert Backed(db, (actor, key));
    if name in db.catalogue && Resolve(db.table, db.versions, db.catalogue[name], target).Ok? {
      var request := Request(name, Some(target), receipt.basis, key, input);
      UsedKeyIsInert(db, actor, request, work);
    }
  }
}
