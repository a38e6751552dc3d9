/** Idempotent application commands: what one transaction decides, and what the tables hold over whole runs. */
module Commands {
  import opened Wrappers

  const MAX_BYTES := 2097152

  type Version = v: int | v > 0 witness 1

  /** One entry of the command catalogue. */
  datatype Command = Command(
    kind: string,
    scope: string,
    channel: string,
    requiresTarget: bool,
    requiresVersion: bool)

  /** A target is named by object id or by the row's own number; anything else is malformed. */
  datatype Reference = ObjectId(entity: nat) | RowId(id: nat) | Malformed

  /** The validated fields as canonical text, and the size of the whole encoded request. */
  datatype Input = Input(text: string, bytes: nat)

  /** `input` is absent when the supplied fields do not match the command's model. */
  datatype Request = Request(
    command: string,
    target: Option<Reference>,
    expected: Option<Version>,
    key: string,
    input: Option<Input>)

  /** The canonical request, standing for its digest. */
  datatype Fingerprint = Fingerprint(command: string, target: Option<nat>, expected: Option<Version>, input: Input)

  datatype Receipt = Receipt(
    id: nat,
    fingerprint: Fingerprint,
    entity: nat,
    basis: Option<Version>,
    version: Option<Version>,
    output: string)

  datatype Notice = Notice(receipt: nat, command: string, entity: nat, version: Option<Version>)

  /** A committed handler execution: the slot it edited with the version it found there, if it was versioned. */
  datatype Application = Application(actor: string, key: string, edit: Option<Edit>)
  datatype Edit = Edit(slot: Slot, basis: Version, found: Version)

  /** An entity's version on one channel. */
  datatype Slot = Slot(entity: nat, channel: string)

  datatype Row = Row(kind: string, id: nat)

  type Receipts = map<(string, string), Receipt>
  type Versions = map<Slot, Version>

  datatype Database = Database(
    catalogue: map<string, Command>,
    grants: map<string, set<string>>,
    table: map<Row, nat>,
    versions: Versions,
    receipts: Receipts,
    outbox: seq<Notice>,
    applied: seq<Application>)

  /** What the handler does when it is reached: it raises, or it returns an outcome and leaves these rows. */
  datatype Work =
    | Raises
    | Done(entity: nat, version: Option<Version>, output: string, table: map<Row, nat>, versions: Versions)

  datatype CommandError =
    | UnknownCommand
    | Forbidden
    | TargetRequired
    | TargetNotApplicable
    | VersionRequired
    | VersionNotApplicable
    | InvalidInput
    | InvalidTarget
    | NotFound
    | IdentityMismatch
    | TooLarge
    | IdempotencyConflict
    | RevisionConflict
    | HandlerFailed

  type Response = Result<Receipt, CommandError>

  // ---------------------------------------------------------------- one transaction

  predicate Authorised(grants: map<string, set<string>>, actor: string, scope: string) {
    actor in grants && ("*" in grants[actor] || scope in grants[actor])
  }

  predicate Listed(table: map<Row, nat>, kind: string, entity: nat) {
    exists row | row in table :: row.kind == kind && table[row] == entity
  }

  /** `LegacyResource.resolve`: the object a reference names, which must also have a version. */
  function Resolve(table: map<Row, nat>, versions: Versions, command: Command, target: Reference)
    : Result<nat, CommandError>
  {
    match target
    case Malformed => Error(InvalidTarget)
    case ObjectId(entity) =>
      if !Listed(table, command.kind, entity) then Error(NotFound) else WithVersion(versions, command, entity)
    case RowId(id) =>
      if Row(command.kind, id) !in table then Error(NotFound)
      else WithVersion(versions, command, table[Row(command.kind, id)])
  }

  function WithVersion(versions: Versions, command: Command, entity: nat): (r: Result<nat, CommandError>)
    ensures r.Ok? <==> Slot(entity, command.channel) in versions
  {
    if Slot(entity, command.channel) !in versions then Error(IdentityMismatch) else Ok(entity)
  }

  /** `LegacyResource.project`: a result is only shown while its object still exists. */
  predicate Projectable(table: map<Row, nat>, versions: Versions, command: Command, entity: nat) {
    Listed(table, command.kind, entity) && Slot(entity, command.channel) in versions
  }

  /** The checks made before the key is locked. */
  function Admit(db: Database, actor: string, request: Request): Option<CommandError> {
    if request.command !in db.catalogue then Some(UnknownCommand)
    else
      var command := db.catalogue[request.command];
      if !Authorised(db.grants, actor, command.scope) then Some(Forbidden)
      else if command.requiresTarget != request.target.Some? then
        Some(if command.requiresTarget then TargetRequired else TargetNotApplicable)
      else if command.requiresVersion != request.expected.Some? then
        Some(if command.requiresVersion then VersionRequired else VersionNotApplicable)
      else if request.input.None? then Some(InvalidInput)
      else None
  }

  /** The request's fingerprint once its target is resolved. */
  function StampOf(db: Database, actor: string, request: Request): Result<Fingerprint, CommandError>
    requires Admit(db, actor, request).None?
  {
    var command := db.catalogue[request.command];
    var target := if request.target.None? then Ok(None)
      else
        var found := Resolve(db.table, db.versions, command, request.target.value);
        if found.Error? then Error(found.error) else Ok(Some(found.value));
    if target.Error? then Error(target.error)
    else if request.input.value.bytes > MAX_BYTES then Error(TooLarge)
    else Ok(Fingerprint(request.command, target.value, request.expected, request.input.value))
  }

  /** Whether the version check lets the handler run. */
  predicate Current(db: Database, stamp: Fingerprint)
    requires stamp.command in db.catalogue
  {
    var command := db.catalogue[stamp.command];
    command.requiresVersion && stamp.target.Some? && stamp.expected.Some? ==>
      var slot := Slot(stamp.target.value, command.channel);
      slot in db.versions && db.versions[slot] == stamp.expected.value
  }

  function EditOf(db: Database, stamp: Fingerprint): (edit: Option<Edit>)
    requires stamp.command in db.catalogue
  {
    var command := db.catalogue[stamp.command];
    if command.requiresVersion && stamp.target.Some? && stamp.expected.Some? then
      var slot := Slot(stamp.target.value, command.channel);
      if slot in db.versions then Some(Edit(slot, stamp.expected.value, db.versions[slot])) else None
    else None
  }

  function ReceiptOf(db: Database, stamp: Fingerprint, work: Work): Receipt
    requires work.Done?
  {
    Receipt(|db.outbox|, stamp, work.entity, stamp.expected, work.version, work.output)
  }

  function NoticeOf(receipt: Receipt): Notice {
    Notice(receipt.id, receipt.fingerprint.command, receipt.entity, receipt.version)
  }

  /** The tables once the handler, the receipt and the outbox row have committed. */
  function Commit(db: Database, actor: string, key: string, stamp: Fingerprint, work: Work): Database
    requires work.Done? && stamp.command in db.catalogue
  {
    var receipt := ReceiptOf(db, stamp, work);
    db.(table := work.table,
        versions := work.versions,
        receipts := db.receipts[(actor, key) := receipt],
        outbox := db.outbox + [NoticeOf(receipt)],
        applied := db.applied + [Application(actor, key, EditOf(db, stamp))])
  }

  /** `execute_command`: a raised error rolls the transaction back. */
  function Execute(db: Database, actor: string, request: Request, work: Work): (Database, Response) {
    var refusal := Admit(db, actor, request);
    if refusal.Some? then (db, Error(refusal.value))
    else
      var stamp := StampOf(db, actor, request);
      if stamp.Error? then (db, Error(stamp.error))
      else
        var command := db.catalogue[request.command];
        if (actor, request.key) in db.receipts then
          var receipt := db.receipts[(actor, request.key)];
          if receipt.fingerprint != stamp.value then (db, Error(IdempotencyConflict))
          else if !Projectable(db.table, db.versions, command, receipt.entity) then (db, Error(NotFound))
          else (db, Ok(receipt))
        else if !Current(db, stamp.value) then (db, Error(RevisionConflict))
        else if work.Raises? then (db, Error(HandlerFailed))
        else if !Projectable(work.table, work.versions, command, work.entity) then (db, Error(NotFound))
        else (Commit(db, actor, request.key, stamp.value, work), Ok(ReceiptOf(db, stamp.value, work)))
  }

  /** `execute_compatibility`: an old route without versions supplies the current one, or the one its key already
      used. */
  function ExecuteCompatibility(
    db: Database, actor: string, name: string, target: Reference, input: Option<Input>, key: string, work: Work)
    : (Database, Response)
  {
    if name !in db.catalogue then (db, Error(UnknownCommand))
    else if !Authorised(db.grants, actor, db.catalogue[name].scope) then (db, Error(Forbidden))
    else
      var found := Resolve(db.table, db.versions, db.catalogue[name], target);
      if found.Error? then (db, Error(found.error))
      else
        ResolvedHasVersion(db, db.catalogue[name], target);
        var version :=
          if (actor, key) in db.receipts then db.receipts[(actor, key)].basis
          else Some(db.versions[Slot(found.value, db.catalogue[name].channel)]);
        Execute(db, actor, Request(name, Some(target), version, key, input), work)
  }

  lemma ResolvedHasVersion(db: Database, command: Command, target: Reference)
    ensures var found := Resolve(db.table, db.versions, command, target);
      found.Ok? ==> Slot(found.value, command.channel) in db.versions && Listed(db.table, command.kind, found.value)
  {
  }

  // ---------------------------------------------------------------- runs

  /** A command, an old route's call, or any other transaction touching the resources and the grants. */
  datatype Event =
    | Call(actor: string, request: Request, work: Work)
    | LegacyCall(actor: string, name: string, target: Reference, input: Option<Input>, key: string, work: Work)
    | Elsewhere(table: map<Row, nat>, versions: Versions, grants: map<string, set<string>>)

  function Apply(db: Database, e: Event): Database {
    match e
    case Call(actor, request, work) => Execute(db, actor, request, work).0
    case LegacyCall(actor, name, target, input, key, work) =>
      ExecuteCompatibility(db, actor, name, target, input, key, work).0
    case Elsewhere(table, versions, grants) => db.(table := table, versions := versions, grants := grants)
  }

  /** Versions are never lowered and never lost. */
  ghost predicate Rising(before: Versions, after: Versions) {
    forall slot | slot in before :: slot in after && before[slot] <= after[slot]
  }

  /** Every edit raises the version of what it edits: the assumption on handlers and on other transactions. */
  ghost predicate Possible(db: Database, e: Event) {
    match e
    case Elsewhere(_, versions, _) => Rising(db.versions, versions)
    case Call(_, request, work) => Edits(db, request.command, request.target, work)
    case LegacyCall(_, name, target, _, _, work) => Edits(db, name, Some(target), work)
  }

  ghost predicate Edits(db: Database, name: string, target: Option<Reference>, work: Work) {
    work.Done? && name in db.catalogue ==>
      var command := db.catalogue[name];
      && Rising(db.versions, work.versions)
      && (command.requiresVersion && target.Some? ==>
            var found := Resolve(db.table, db.versions, command, target.value);
            found.Ok? ==>
              var slot := Slot(found.value, command.channel);
              slot in work.versions && db.versions[slot] < work.versions[slot])
  }
}
