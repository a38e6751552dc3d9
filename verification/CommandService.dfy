/** The command service as a class over its tables: each call is one transaction, rolled back when it raises. */
module CommandService {
  import opened Wrappers
  import opened Commands

  class Service {
    const catalogue: map<string, Command>
    var grants: map<string, set<string>>
    var table: map<Row, nat>
    var versions: Versions
    var receipts: Receipts
    var outbox: seq<Notice>
    var applied: seq<Application>

    constructor (
      catalogue: map<string, Command>, grants: map<string, set<string>>, table: map<Row, nat>, versions: Versions)
      ensures Contents() == Database(catalogue, grants, table, versions, map[], [], [])
    {
      this.catalogue := catalogue;
      this.grants, this.table, this.versions := grants, table, versions;
      receipts, outbox, applied := map[], [], [];
    }

    function Contents(): Database
      reads this
    {
      Database(catalogue, grants, table, versions, receipts, outbox, applied)
    }

    /** `execute_command`; `work` is what the handler does if it is reached. */
    method Execute(actor: string, request: Request, work: Work) returns (response: Response)
      modifies this
      ensures (Contents(), response) == Commands.Execute(old(Contents()), actor, request, work)
    {
      if request.command !in catalogue {
        return Error(UnknownCommand);
      }
      var command := catalogue[request.command];
      if !Authorised(grants, actor, command.scope) {
        return Error(Forbidden);
      }
      if command.requiresTarget != request.target.Some? {
        return Error(if command.requiresTarget then TargetRequired else TargetNotApplicable);
      }
      if command.requiresVersion != request.expected.Some? {
        return Error(if command.requiresVersion then VersionRequired else VersionNotApplicable);
      }
      if request.input.None? {
        return Error(InvalidInput);
      }
      var target: Option<nat> := None;
      if command.requiresTarget {
        var found := Resolve(table, versions, command, request.target.value);
        if found.Error? {
          return Error(found.error);
        }
        target := Some(found.value);
      }
      if request.input.value.bytes > MAX_BYTES {
        return Error(TooLarge);
      }
      var stamp := Fingerprint(request.command, target, request.expected, request.input.value);
      if (actor, request.key) in receipts {
        var receipt := receipts[(actor, request.key)];
        if receipt.fingerprint != stamp {
          return Error(IdempotencyConflict);
        }
        if !Projectable(table, versions, command, receipt.entity) {
          return Error(NotFound);
        }
        return Ok(receipt);
      }
      if !Commands.Current(Contents(), stamp) {
        return Error(RevisionConflict);
      }
      if work.Raises? {
        return Error(HandlerFailed);
      }
      response := Handle(actor, request.key, stamp, work);
    }

    /** The handler, the two inserts, and the projection that can still roll them back. */
    method Handle(actor: string, key: string, stamp: Fingerprint, work: Work) returns (response: Response)
      requires work.Done? && stamp.command in catalogue
      modifies this
      ensures var before := old(Contents());
        (Contents(), response) ==
          if Projectable(work.table, work.versions, catalogue[stamp.command], work.entity)
          then (Commit(before, actor, key, stamp, work), Ok(ReceiptOf(before, stamp, work)))
          else (before, Error(NotFound))
    {
      var saved := (table, versions, receipts, outbox, applied);
      var edit := EditOf(Contents(), stamp);
      table, versions := work.table, work.versions;
      var receipt := Receipt(|outbox|, stamp, work.entity, stamp.expected, work.version, work.output);
      receipts := receipts[(actor, key) := receipt];
      outbox := outbox + [Notice(receipt.id, stamp.command, work.entity, work.version)];
      applied := applied + [Application(actor, key, edit)];
      if !Projectable(table, versions, catalogue[stamp.command], work.entity) {
        table, versions, receipts, outbox, applied := saved.0, saved.1, saved.2, saved.3, saved.4;
        return Error(NotFound);
      }
      response := Ok(receipt);
    }

    /** `execute_compatibility`: the old routes, which carry no version of their own. */
    method ExecuteCompatibility(
      actor: string, name: string, target: Reference, input: Option<Input>, key: string, work: Work)
      returns (response: Response)
      modifies this
      ensures (Contents(), response) ==
        Commands.ExecuteCompatibility(old(Contents()), actor, name, target, input, key, work)
    {
      if name !in catalogue {
        return Error(UnknownCommand);
      }
      if !Authorised(grants, actor, catalogue[name].scope) {
        return Error(Forbidden);
      }
      var found := Resolve(table, versions, catalogue[name], target);
      if found.Error? {
        return Error(found.error);
      }
      ResolvedHasVersion(Contents(), catalogue[name], target);
      var version := Some(versions[Slot(found.value, catalogue[name].channel)]);
      if (actor, key) in receipts {
        version := receipts[(actor, key)].basis;
      }
      response := Execute(actor, Request(name, Some(target), version, key, input), work);
    }
  }
}
