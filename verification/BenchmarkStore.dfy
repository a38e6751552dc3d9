/** The benchmark tables as the program changes them: statement by statement, row by row. */
module BenchmarkStore {
  import opened Wrappers
  import opened Ordering
  import opened Benchmarks

  class Store {
    var jobs: map<nat, Job>
    var results: map<Profile, Measured>
    var hardware: set<nat>
    var benchmarkers: map<nat, Benchmarker>
    var nextJob: nat

    constructor (benchmarkers: map<nat, Benchmarker>)
      ensures Contents() == Tables(map[], map[], {}, benchmarkers, 0)
    {
      jobs, results, hardware, nextJob := map[], map[], {}, 0;
      this.benchmarkers := benchmarkers;
    }

    function Contents(): Tables
      reads this
    {
      Tables(jobs, results, hardware, benchmarkers, nextJob)
    }

    method ScheduleBenchmarkJobs(profile: nat, engines: seq<Engine>, now: int) returns (scheduled: nat)
      modifies this
      ensures Contents() == Schedule(old(Contents()), profile, engines, now)
      ensures scheduled == nextJob - old(nextJob)
    {
      scheduled := 0;
      ghost var goal := Schedule(Contents(), profile, engines, now);
      for i := 0 to |engines|
        invariant goal == Schedule(Contents(), profile, engines[i..], now)
        invariant scheduled == nextJob - old(nextJob)
      {
        assert engines[i..][0] == engines[i] && engines[i..][1..] == engines[i + 1..];
        var engine := engines[i];
        if !engine.workerLocal && !HasJob(jobs, Profile(engine.build, profile)) {
          jobs := jobs[nextJob := Enqueued(engine, profile, nextJob, now)];
          nextJob := nextJob + 1;
          scheduled := scheduled + 1;
        }
      }
    }

    /** Of the waiting jobs of this hardware that are neither locked nor held back, the first is given out. */
    method ClaimBenchmarkJob(benchmarker: nat, profile: nat, free: set<nat>) returns (claimed: Option<nat>)
      modifies this`jobs
      ensures claimed.None? <==> forall id <- free :: !Waiting(old(jobs), profile, id)
      ensures claimed.None? ==> jobs == old(jobs)
      ensures claimed.Some? ==>
        IsNext(old(jobs), profile, free, claimed.value)
        && Contents() == ClaimJob(old(Contents()), claimed.value, benchmarker)
    {
      var ids := Sorted(jobs.Keys);
      claimed := None;
      for i := 0 to |ids|
        invariant claimed.Some? ==> claimed.value in free && Waiting(jobs, profile, claimed.value)
        invariant forall k | 0 <= k < i && ids[k] in free && Waiting(jobs, profile, ids[k]) ::
          claimed.Some? && Before(jobs, claimed.value, ids[k])
        invariant claimed.Some? ==> exists k | 0 <= k < i :: ids[k] == claimed.value
      {
        assert ids[i] in ids;
        var job := jobs[ids[i]];
        if job.profile.hardware == profile && job.status.Queued? && ids[i] in free
           && (claimed.None? || job.scheduledAt < jobs[claimed.value].scheduledAt) {
          claimed := Some(ids[i]);
        }
      }
      assert forall id :: Waiting(jobs, profile, id) ==> id in ids;
      if claimed.Some? {
        var job := jobs[claimed.value];
        jobs := jobs[claimed.value := job.(
          benchmarker := Some(benchmarker), status := Running, attempt := job.attempt + 1)];
      }
    }

    method CompleteBenchmarkJob(id: nat, key: nat, benchmarker: nat, nps: int, elapsed: int)
      returns (error: Option<BenchmarkError>)
      modifies this
      ensures Answers(Complete(old(Contents()), id, key, benchmarker, nps, elapsed), old(Contents()), error)
    {
      if !Active(Contents(), id, key, benchmarker) {
        return Some(NotActive);
      }
      var current := jobs[id];
      if current.profile !in results {
        results := results[current.profile := Measured(id, current.engine, nps, elapsed)];
      }
      jobs := jobs[id := current.(status := Succeeded)];
      jobs := WithoutSpent(jobs, current.engine, current.profile.build);
      return None;
    }

    /** The tables are as the operation says: changed on success, as they were on an error. */
    ghost predicate Answers(r: Result<Tables, BenchmarkError>, before: Tables, error: Option<BenchmarkError>)
      reads this
    {
      if r.Ok? then error.None? && Contents() == r.value else error == Some(r.error) && Contents() == before
    }

    method FailBenchmarkJob(id: nat, key: nat, benchmarker: nat) returns (error: Option<BenchmarkError>)
      modifies this
      ensures Answers(Fail(old(Contents()), id, key, benchmarker), old(Contents()), error)
    {
      if !Active(Contents(), id, key, benchmarker) {
        return Some(NotActive);
      }
      jobs := jobs[id := jobs[id].(status := Failed)];
      return None;
    }

    /** `job` is the number of the job that the result belongs to. */
    method RecordManualBenchmark(engine: Engine, nps: int, elapsed: int, place: Where, now: int)
      returns (job: nat, error: Option<BenchmarkError>)
      requires OneJobEach(jobs)
      modifies this
      ensures Answers(RecordManual(old(Contents()), engine, nps, elapsed, place, now), old(Contents()), error)
      ensures error.None? ==>
        var located := Located(old(Contents()), place);
        located.Ok? && Profile(engine.build, located.value) in results
        && results[Profile(engine.build, located.value)] == Measured(job, engine.id, nps, elapsed)
    {
      job := 0;
      if engine.workerLocal {
        return 0, Some(WorkerLocal);
      }
      if !engine.published {
        return 0, Some(Unpublished);
      }
      if nps <= 0 {
        return 0, Some(BadNps);
      }
      if elapsed < 0 {
        return 0, Some(BadElapsed);
      }
      var located := Located(Contents(), place);
      if located.Error? {
        return 0, Some(located.error);
      }
      if IsRunning(jobs, engine.build) {
        return 0, Some(AlreadyRunning);
      }
      job, error := StoreManual(engine, nps, elapsed, Profile(engine.build, located.value), now);
    }

    /** The statements after the checks; a violated unique key rolls back what came before. */
    method StoreManual(engine: Engine, nps: int, elapsed: int, profile: Profile, now: int)
      returns (number: nat, error: Option<BenchmarkError>)
      requires OneJobEach(jobs) && profile.build == engine.build
      modifies this
      ensures var before := old(Contents());
        var existing := JobOf(before.jobs, profile);
        if existing.None? && profile in before.results then error == Some(UniqueViolation) && Contents() == before
        else
          var (id, job) := ManualJob(before, engine, profile, existing, now);
          && error.None? && number == id
          && Contents() == before.(
               hardware := before.hardware + {profile.hardware},
               results := before.results[profile := Measured(id, engine.id, nps, elapsed)],
               jobs := WithoutSpent(before.jobs[id := job], engine.id, engine.build),
               nextJob := if existing.None? then before.nextJob + 1 else before.nextJob)
    {
      var saved := Contents();
      hardware := hardware + {profile.hardware};
      var existing := JobOf(jobs, profile);
      var id := nextJob;
      if existing.None? {
        jobs := jobs[id := Job(id, engine.id, profile, Succeeded, None, 1, now)];
        nextJob := nextJob + 1;
      } else {
        id := existing.value;
        results := results - {profile};
        jobs := jobs[id := jobs[id].(benchmarker := None, engine := engine.id, status := Succeeded,
                                     attempt := jobs[id].attempt + 1, scheduledAt := now)];
      }
      if profile in results {
        jobs, hardware, nextJob := saved.jobs, saved.hardware, saved.nextJob;
        return id, Some(UniqueViolation);
      }
      results := results[profile := Measured(id, engine.id, nps, elapsed)];
      jobs := WithoutSpent(jobs, engine.id, engine.build);
      return id, None;
    }

    /** `removed` counts the jobs the build had. */
    method ForgetEngineBenchmarks(engine: Engine) returns (removed: nat, error: Option<BenchmarkError>)
      modifies this
      ensures Answers(ForgetEngine(old(Contents()), engine), old(Contents()), error)
      ensures error.None? ==> removed == |OfBuild(old(jobs), engine.build)|
    {
      if IsRunning(jobs, engine.build) {
        return 0, Some(AlreadyRunning);
      }
      removed := |OfBuild(jobs, engine.build)|;
      results := map p | p in results && p.build != engine.build :: results[p];
      jobs := map id | id in jobs && jobs[id].profile.build != engine.build :: jobs[id];
      return removed, None;
    }

    method ForgetFailedBenchmarkJob(id: nat) returns (found: bool)
      modifies this`jobs
      ensures Contents() == ForgetFailed(old(Contents()), id)
      ensures found <==> id in old(jobs) && id !in jobs
    {
      found := id in jobs && jobs[id].status.Failed?;
      if found {
        jobs := jobs - {id};
      }
    }

    /** `rows`: the hardware of the benchmarkers in use, in the order the query returns them. `scheduled` counts the
        jobs of the build, those that were requeued and those that are new. */
    method RescheduleEngineBenchmarks(engine: Engine, rows: seq<nat>, now: int)
      returns (scheduled: nat, error: Option<BenchmarkError>)
      requires ListsHardware(Contents(), rows)
      requires forall id | id in jobs :: id < nextJob
      modifies this
      ensures Answers(Reschedule(old(Contents()), engine, rows, now), old(Contents()), error)
      ensures error.None? ==> scheduled == |OfBuild(jobs, engine.build)|
    {
      if engine.workerLocal {
        return 0, Some(WorkerLocal);
      }
      if IsRunning(jobs, engine.build) {
        return 0, Some(AlreadyRunning);
      }
      ghost var before := Contents();
      scheduled := ResetBuild(engine, now);
      for i := 0 to |rows|
        invariant ScheduleEverywhere(Reset(before, engine, now), rows, engine, now)
               == ScheduleEverywhere(Contents(), rows[i..], engine, now)
        invariant scheduled == |OfBuild(jobs, engine.build)| && forall id | id in jobs :: id < nextJob
      {
        assert rows[i..][0] == rows[i] && rows[i..][1..] == rows[i + 1..];
        ScheduleSingle(Contents(), rows[i], engine, now);
        ScheduleOneCounts(Contents(), rows[i], engine, now);
        var added := ScheduleBenchmarkJobs(rows[i], [engine], now);
        scheduled := scheduled + added;
      }
      return scheduled, None;
    }

    /** The statements before new jobs are scheduled; `requeued` counts the jobs of the build that are left. */
    method ResetBuild(engine: Engine, now: int) returns (requeued: nat)
      modifies this
      ensures Contents() == Reset(old(Contents()), engine, now)
      ensures requeued == |OfBuild(jobs, engine.build)| && jobs.Keys <= old(jobs.Keys)
    {
      ghost var before := Contents();
      jobs := WithoutSpent(jobs, engine.id, engine.build);
      var mine := OfBuild(jobs, engine.build);
      results := map p | p in results && results[p].job !in mine :: results[p];
      jobs := map id | id in jobs :: if id in mine then Requeued(jobs[id], now) else jobs[id];
      assert Contents() == Reset(before, engine, now);
      assert OfBuild(jobs, engine.build) == mine;
      return |mine|;
    }

    method ForgetBenchmarkerRow(benchmarker: nat, now: int) returns (found: bool)
      modifies this
      ensures Contents() == ForgetBenchmarker(old(Contents()), benchmarker, now)
      ensures found <==> benchmarker in old(benchmarkers)
    {
      if benchmarker !in benchmarkers {
        return false;
      }
      jobs := map id | id in jobs ::
        if jobs[id].benchmarker == Some(benchmarker) && jobs[id].status.Running? then Requeued(jobs[id], now)
        else jobs[id];
      jobs := map id | id in jobs ::
        if jobs[id].benchmarker == Some(benchmarker) then jobs[id].(benchmarker := None) else jobs[id];
      benchmarkers := benchmarkers - {benchmarker};
      return true;
    }

    method ResetBenchmarkServiceState()
      modifies this`jobs, this`benchmarkers
      ensures Contents() == Restart(old(Contents()))
    {
      jobs := map id | id in jobs :: if jobs[id].status.Running? then jobs[id].(status := Failed) else jobs[id];
      benchmarkers := map b | b in benchmarkers ::
        if benchmarkers[b].presence in {Connected, Busy} then benchmarkers[b].(presence := Offline)
          else benchmarkers[b];
    }
  }
}
