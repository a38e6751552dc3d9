/** Benchmark tables over whole runs: results correspond to succeeded jobs, whatever the operations. */
module BenchmarkRuns {
  import opened Wrappers
  import opened Benchmarks

  datatype Operation =
    | ScheduleJobs(hardware: nat, engines: seq<Engine>, now: int)
    | Claim(id: nat, benchmarker: nat)
    | CompleteJob(id: nat, key: nat, benchmarker: nat, nps: int, elapsed: int)
    | FailJob(id: nat, key: nat, benchmarker: nat)
    | Manual(engine: Engine, nps: int, elapsed: int, place: Where, now: int)
    | Forget(engine: Engine)
    | ForgetJob(id: nat)
    | RescheduleBuild(engine: Engine, profiles: seq<nat>, now: int)
    | ForgetWorker(benchmarker: nat, now: int)
    | RestartService
    | ImportJobRows(rows: map<nat, Job>, next: nat)
    | ImportResultRows(measured: map<Profile, Measured>)
    | Connect(benchmarkers: map<nat, Benchmarker>, known: set<nat>)

  function Kept(t: Tables, r: Result<Tables, BenchmarkError>): Tables {
    if r.Ok? then r.value else t
  }

  /** One operation; an error rolls it back. A claim may pass over locked rows, so it can take any waiting job. */
  function Apply(t: Tables, o: Operation): Tables
    requires OneJobEach(t.jobs)
  {
    match o
    case ScheduleJobs(hardware, engines, now) => Schedule(t, hardware, engines, now)
    case Claim(id, benchmarker) => if id in t.jobs && t.jobs[id].status.Queued? then ClaimJob(t, id, benchmarker) else t
    case CompleteJob(id, key, benchmarker, nps, elapsed) => Kept(t, Complete(t, id, key, benchmarker, nps, elapsed))
    case FailJob(id, key, benchmarker) => Kept(t, Fail(t, id, key, benchmarker))
    case Manual(engine, nps, elapsed, place, now) => Kept(t, RecordManual(t, engine, nps, elapsed, place, now))
    case Forget(engine) => Kept(t, ForgetEngine(t, engine))
    case ForgetJob(id) => ForgetFailed(t, id)
    case RescheduleBuild(engine, hardware, now) => Kept(t, Reschedule(t, engine, hardware, now))
    case ForgetWorker(benchmarker, now) => ForgetBenchmarker(t, benchmarker, now)
    case RestartService => Restart(t)
    case ImportJobRows(rows, next) => ImportJobs(t, rows, next)
    case ImportResultRows(measured) => ImportResults(t, measured)
    case Connect(benchmarkers, hardware) => t.(benchmarkers := benchmarkers, hardware := hardware)
  }

  // ---------------------------------------------------------------- each operation keeps the tables matched

  /** Changing one job between the states without a result. */
  lemma ChangeUnfinished(t: Tables, id: nat, job: Job, bare: set<nat>)
    requires InvBut(t, bare) && id in t.jobs && !t.jobs[id].status.Succeeded? && !job.status.Succeeded?
    requires job.profile == t.jobs[id].profile
    ensures InvBut(t.(jobs := t.jobs[id := job]), bare)
  {
    forall p | p in t.results
      ensures ResultOk(t.jobs[id := job], p, t.results[p])
    {
      assert ResultOk(t.jobs, p, t.results[p]);
    }
    forall i | i in t.jobs && i !in bare
      ensures JobOk(t.results, i, t.jobs[id := job][i])
    {
      assert JobOk(t.results, i, t.jobs[i]);
    }
  }

  /** Deleting jobs that have no result. */
  lemma DropUnfinished(jobs: map<nat, Job>, results: map<Profile, Measured>, kept: map<nat, Job>, bare: set<nat>)
    requires Matched(jobs, results, bare)
    requires forall id | id in kept :: id in jobs && kept[id] == jobs[id]
    requires forall id | id in jobs && jobs[id].status.Succeeded? :: id in kept
    ensures Matched(kept, results, bare)
  {
    forall p | p in results
      ensures ResultOk(kept, p, results[p])
    {
      assert ResultOk(jobs, p, results[p]);
    }
    forall id | id in kept && id !in bare
      ensures JobOk(results, id, kept[id])
    {
      assert JobOk(results, id, jobs[id]);
    }
  }

  lemma WithoutSpentMatched(jobs: map<nat, Job>, results: map<Profile, Measured>, engine: Option<nat>, build: nat,
                            bare: set<nat>)
    requires Matched(jobs, results, bare)
    ensures Matched(WithoutSpent(jobs, engine, build), results, bare)
  {
    DropUnfinished(jobs, results, WithoutSpent(jobs, engine, build), bare);
  }

  lemma ScheduleOneInv(t: Tables, hardware: nat, engine: Engine, now: int, bare: set<nat>)
    requires InvBut(t, bare)
    ensures InvBut(ScheduleOne(t, hardware, engine, now), bare)
  {
    var after := ScheduleOne(t, hardware, engine, now);
    if after != t {
      forall p | p in t.results
        ensures ResultOk(after.jobs, p, t.results[p])
      {
        assert ResultOk(t.jobs, p, t.results[p]);
      }
      forall i | i in after.jobs && i !in bare
        ensures JobOk(t.results, i, after.jobs[i])
      {
        assert i in t.jobs ==> JobOk(t.results, i, t.jobs[i]);
      }
    }
  }

  lemma {:induction false} ScheduleInv(t: Tables, hardware: nat, engines: seq<Engine>, now: int, bare: set<nat>)
    requires InvBut(t, bare)
    ensures InvBut(Schedule(t, hardware, engines, now), bare)
    decreases |engines|
  {
    if engines != [] {
      ScheduleOneInv(t, hardware, engines[0], now, bare);
      ScheduleInv(ScheduleOne(t, hardware, engines[0], now), hardware, engines[1..], now, bare);
    }
  }

  lemma {:induction false} ScheduleEverywhereInv(t: Tables, hardware: seq<nat>, engine: Engine, now: int,
                                                 bare: set<nat>)
    requires InvBut(t, bare)
    ensures InvBut(ScheduleEverywhere(t, hardware, engine, now), bare)
    decreases |hardware|
  {
    if hardware != [] {
      ScheduleInv(t, hardware[0], [engine], now, bare);
      ScheduleEverywhereInv(Schedule(t, hardware[0], [engine], now), hardware[1..], engine, now, bare);
    }
  }

  /** A job with a result of its own, replacing whatever the profile had. */
  lemma ReplaceMatched(jobs: map<nat, Job>, results: map<Profile, Measured>, id: nat, job: Job, m: Measured,
                       bare: set<nat>)
    requires Matched(jobs, results, bare) && job.status.Succeeded? && m.job == id
    requires if id in jobs then jobs[id].profile == job.profile else !HasJob(jobs, job.profile)
    ensures Matched(jobs[id := job], results[job.profile := m], bare)
  {
    var jobs', results' := jobs[id := job], results[job.profile := m];
    forall p | p in results'
      ensures ResultOk(jobs', p, results'[p])
    {
      assert p in results ==> ResultOk(jobs, p, results[p]);
    }
    forall i | i in jobs' && i !in bare
      ensures JobOk(results', i, jobs'[i])
    {
      assert i in jobs ==> JobOk(results, i, jobs[i]);
    }
  }

  /** While a job runs its profile has no result, so the insert on completion never meets its conflict clause. */
  lemma RunningHasNoResult(t: Tables, id: nat, bare: set<nat>)
    requires InvBut(t, bare) && id in t.jobs && !t.jobs[id].status.Succeeded?
    ensures t.jobs[id].profile !in t.results
  {
    var p := t.jobs[id].profile;
    assert p in t.results ==> ResultOk(t.jobs, p, t.results[p]);
  }

  lemma CompleteInv(t: Tables, id: nat, key: nat, benchmarker: nat, nps: int, elapsed: int, bare: set<nat>)
    requires InvBut(t, bare) && Active(t, id, key, benchmarker)
    ensures InvBut(Complete(t, id, key, benchmarker, nps, elapsed).value, bare)
  {
    var job := t.jobs[id];
    var m := Measured(id, job.engine, nps, elapsed);
    RunningHasNoResult(t, id, bare);
    ReplaceMatched(t.jobs, t.results, id, job.(status := Succeeded), m, bare);
    WithoutSpentMatched(t.jobs[id := job.(status := Succeeded)], t.results[job.profile := m], job.engine,
                        job.profile.build, bare);
  }

  lemma ManualInv(t: Tables, engine: Engine, nps: int, elapsed: int, place: Where, now: int, bare: set<nat>)
    requires InvBut(t, bare)
    ensures InvBut(Kept(t, RecordManual(t, engine, nps, elapsed, place, now)), bare)
  {
    if RecordManual(t, engine, nps, elapsed, place, now).Ok? {
      var profile := Profile(engine.build, Located(t, place).value);
      var existing := JobOf(t.jobs, profile);
      var (id, job) := ManualJob(t, engine, profile, existing, now);
      ReplaceMatched(t.jobs, t.results, id, job, Measured(id, engine.id, nps, elapsed), bare);
      WithoutSpentMatched(t.jobs[id := job], t.results[profile := Measured(id, engine.id, nps, elapsed)],
                          engine.id, engine.build, bare);
    }
  }

  lemma ForgetInv(t: Tables, engine: Engine, bare: set<nat>)
    requires InvBut(t, bare)
    ensures InvBut(Kept(t, ForgetEngine(t, engine)), bare)
  {
    var after := Kept(t, ForgetEngine(t, engine));
    if after != t {
      forall p | p in after.results
        ensures ResultOk(after.jobs, p, after.results[p])
      {
        assert ResultOk(t.jobs, p, t.results[p]);
      }
      forall i | i in after.jobs && i !in bare
        ensures JobOk(after.results, i, after.jobs[i])
      {
        assert JobOk(t.results, i, t.jobs[i]);
      }
    }
  }

  lemma ResetInv(t: Tables, engine: Engine, now: int, bare: set<nat>)
    requires InvBut(t, bare)
    ensures InvBut(Reset(t, engine, now), bare)
    ensures forall p | p in Reset(t, engine, now).results :: p.build != engine.build
  {
    var kept := WithoutSpent(t.jobs, engine.id, engine.build);
    WithoutSpentMatched(t.jobs, t.results, engine.id, engine.build, bare);
    var after := Reset(t, engine, now);
    forall p | p in after.results
      ensures p.build != engine.build && ResultOk(after.jobs, p, after.results[p])
    {
      assert ResultOk(kept, p, t.results[p]);
    }
    forall i | i in after.jobs && i !in bare
      ensures JobOk(after.results, i, after.jobs[i])
    {
      assert JobOk(t.results, i, kept[i]);
    }
  }

  /** Jobs changed without touching their profile or whether they have succeeded. */
  lemma RelabelInv(t: Tables, jobs: map<nat, Job>, benchmarkers: map<nat, Benchmarker>, bare: set<nat>)
    requires InvBut(t, bare) && jobs.Keys == t.jobs.Keys
    requires forall i | i in jobs ::
      jobs[i].profile == t.jobs[i].profile && (jobs[i].status.Succeeded? <==> t.jobs[i].status.Succeeded?)
    ensures InvBut(t.(jobs := jobs, benchmarkers := benchmarkers), bare)
  {
    forall p | p in t.results
      ensures ResultOk(jobs, p, t.results[p])
    {
      assert ResultOk(t.jobs, p, t.results[p]);
    }
    forall i | i in jobs && i !in bare
      ensures JobOk(t.results, i, jobs[i])
    {
      assert JobOk(t.results, i, t.jobs[i]);
    }
    forall i, j | i in jobs && j in jobs && jobs[i].profile == jobs[j].profile
      ensures i == j
    {
      assert t.jobs[i].profile == t.jobs[j].profile;
    }
  }

  /** Imported results belong to jobs that have succeeded, as they did where they come from. */
  ghost predicate Possible(t: Tables, o: Operation) {
    match o
    case ImportJobRows(rows, next) => t.nextJob <= next && forall id | id in rows :: id < next
    case ImportResultRows(measured) =>
      forall p | p in measured && measured[p].job in t.jobs :: ResultOk(t.jobs, p, measured[p])
    case _ => true
  }

  /** The jobs an operation may bring in without their results. */
  function Imported(o: Operation): set<nat> {
    if o.ImportJobRows? then o.rows.Keys else {}
  }

  lemma ImportJobsInv(t: Tables, rows: map<nat, Job>, next: nat, bare: set<nat>)
    requires InvBut(t, bare) && Possible(t, ImportJobRows(rows, next))
    ensures InvBut(ImportJobs(t, rows, next), bare + rows.Keys)
  {
    var after := ImportJobs(t, rows, next);
    forall p | p in t.results
      ensures ResultOk(after.jobs, p, t.results[p])
    {
      assert ResultOk(t.jobs, p, t.results[p]);
    }
    forall i | i in after.jobs && i !in bare + rows.Keys
      ensures JobOk(t.results, i, after.jobs[i])
    {
      assert JobOk(t.results, i, t.jobs[i]);
    }
  }

  lemma ImportResultsInv(t: Tables, measured: map<Profile, Measured>, bare: set<nat>)
    requires InvBut(t, bare) && Possible(t, ImportResultRows(measured))
    ensures InvBut(ImportResults(t, measured), bare)
  {
    var after := ImportResults(t, measured);
    forall p | p in after.results
      ensures ResultOk(t.jobs, p, after.results[p])
    {
      assert p in t.results ==> ResultOk(t.jobs, p, t.results[p]);
    }
    forall i | i in t.jobs && i !in bare
      ensures JobOk(after.results, i, t.jobs[i])
    {
      assert JobOk(t.results, i, t.jobs[i]);
    }
  }

  /** What may lack a result may still do so among more jobs. */
  lemma MoreBare(t: Tables, bare: set<nat>, more: set<nat>)
    requires InvBut(t, bare) && bare <= more
    ensures InvBut(t, more)
  {
  }

  /** Every operation keeps the correspondence, but for the jobs an import brings in. */
  lemma ApplyInv(t: Tables, o: Operation, bare: set<nat>)
    requires InvBut(t, bare) && Possible(t, o)
    ensures InvBut(Apply(t, o), bare + Imported(o))
  {
    match o
    case ImportJobRows(rows, next) => ImportJobsInv(t, rows, next, bare);
    case _ =>
      OwnOperationInv(t, o, bare);
      assert bare + Imported(o) == bare;
  }

  lemma OwnOperationInv(t: Tables, o: Operation, bare: set<nat>)
    requires InvBut(t, bare) && Possible(t, o) && !o.ImportJobRows?
    ensures InvBut(Apply(t, o), bare)
  {
    match o
    case ScheduleJobs(hardware, engines, now) => ScheduleInv(t, hardware, engines, now, bare);
    case Claim(id, benchmarker) =>
      if id in t.jobs && t.jobs[id].status.Queued? {
        ChangeUnfinished(t, id, ClaimJob(t, id, benchmarker).jobs[id], bare);
      }
    case CompleteJob(id, key, benchmarker, nps, elapsed) =>
      if Active(t, id, key, benchmarker) {
        CompleteInv(t, id, key, benchmarker, nps, elapsed, bare);
      }
    case FailJob(id, key, benchmarker) =>
      if Active(t, id, key, benchmarker) {
        ChangeUnfinished(t, id, t.jobs[id].(status := Failed), bare);
      }
    case Manual(engine, nps, elapsed, place, now) => ManualInv(t, engine, nps, elapsed, place, now, bare);
    case Forget(engine) => ForgetInv(t, engine, bare);
    case ForgetJob(id) => DropUnfinished(t.jobs, t.results, ForgetFailed(t, id).jobs, bare);
    case RescheduleBuild(engine, hardware, now) =>
      if Reschedule(t, engine, hardware, now).Ok? {
        ResetInv(t, engine, now, bare);
        ScheduleEverywhereInv(Reset(t, engine, now), hardware, engine, now, bare);
      }
    case ForgetWorker(benchmarker, now) =>
      RelabelInv(t, ForgetBenchmarker(t, benchmarker, now).jobs, ForgetBenchmarker(t, benchmarker, now).benchmarkers,
                 bare);
    case RestartService => RelabelInv(t, Restart(t).jobs, Restart(t).benchmarkers, bare);
    case ImportResultRows(measured) => ImportResultsInv(t, measured, bare);
    case Connect(_, _) =>
  }

  // ---------------------------------------------------------------- runs

  ghost predicate Reaches(s: Tables, operations: seq<Operation>, t: Tables)
    decreases |operations|
  {
    if operations == [] then s == t
    else OneJobEach(s.jobs) && Possible(s, operations[0]) && Reaches(Apply(s, operations[0]), operations[1..], t)
  }

  /** Empty tables before anything has happened. */
  predicate Initial(t: Tables) {
    t.jobs == map[] && t.results == map[]
  }

  ghost predicate Reachable(t: Tables) {
    exists s, operations :: Initial(s) && Reaches(s, operations, t)
  }

  function AllImported(operations: seq<Operation>): set<nat> {
    if operations == [] then {} else Imported(operations[0]) + AllImported(operations[1..])
  }

  lemma {:induction false} ReachesInv(s: Tables, operations: seq<Operation>, t: Tables, bare: set<nat>)
    requires InvBut(s, bare) && Reaches(s, operations, t)
    ensures InvBut(t, bare + AllImported(operations))
    decreases |operations|
  {
    if operations == [] {
      assert bare + AllImported(operations) == bare;
    } else {
      var o := operations[0];
      ApplyInv(s, o, bare);
      ReachesInv(Apply(s, o), operations[1..], t, bare + Imported(o));
      assert bare + AllImported(operations) == bare + Imported(o) + AllImported(operations[1..]);
    }
  }

  /**
   * After every run a profile has at most one job, a result carries the number of its profile's succeeded job, and a
   * succeeded job without a result is one that was imported. So without imports a result exists exactly when the job
   * has succeeded.
   */
  lemma ResultsMatchJobs(s: Tables, operations: seq<Operation>, t: Tables, p: Profile)
    requires Initial(s) && Reaches(s, operations, t)
    ensures forall i, j | i in t.jobs && j in t.jobs && t.jobs[i].profile == p == t.jobs[j].profile :: i == j
    ensures p in t.results ==>
      && t.results[p].job in t.jobs
      && t.jobs[t.results[p].job].profile == p && t.jobs[t.results[p].job].status.Succeeded?
    ensures forall i | i in t.jobs && t.jobs[i].profile == p && t.jobs[i].status.Succeeded? ::
      p in t.results || i in AllImported(operations)
    ensures AllImported(operations) == {} ==>
      (p in t.results <==> exists i | i in t.jobs :: t.jobs[i].profile == p && t.jobs[i].status.Succeeded?)
  {
    ReachesInv(s, operations, t, {});
    if p in t.results {
      assert ResultOk(t.jobs, p, t.results[p]);
    }
    forall i | i in t.jobs && t.jobs[i].profile == p && t.jobs[i].status.Succeeded? && i !in AllImported(operations)
      ensures p in t.results
    {
      assert JobOk(t.results, i, t.jobs[i]);
    }
  }

  lemma ReachableSound(t: Tables)
    requires Reachable(t)
    ensures Sound(t)
  {
    var s, operations :| Initial(s) && Reaches(s, operations, t);
    ReachesInv(s, operations, t, {});
    MoreBare(t, {} + AllImported(operations), AllImported(operations) + t.jobs.Keys);
  }

  // ---------------------------------------------------------------- imports

  /** An import of jobs keeps matched tables matched exactly if it is refused or brings in no succeeded job. */
  lemma ImportMatchesExactlyWhen(t: Tables, rows: map<nat, Job>, next: nat)
    requires Inv(t) && Possible(t, ImportJobRows(rows, next))
    ensures Inv(ImportJobs(t, rows, next)) <==>
      !JobsFit(t.jobs, rows) || forall id | id in rows && id !in t.jobs :: !rows[id].status.Succeeded?
  {
    var after := ImportJobs(t, rows, next);
    ImportJobsInv(t, rows, next, {});
    forall p | p in t.results
      ensures t.results[p].job in t.jobs
    {
      assert ResultOk(t.jobs, p, t.results[p]);
    }
    if JobsFit(t.jobs, rows) {
      forall id | id in rows && id !in t.jobs && rows[id].status.Succeeded?
        ensures !JobOk(after.results, id, after.jobs[id])
      {
        assert forall p | p in t.results :: t.results[p].job in t.jobs;
      }
      forall id | id in after.jobs && (id !in t.jobs ==> !rows[id].status.Succeeded?)
        ensures JobOk(after.results, id, after.jobs[id])
      {
        assert id in t.jobs ==> JobOk(t.results, id, t.jobs[id]);
      }
    }
  }

  /** So a clone of the jobs without the results leaves a succeeded job that has none. */
  lemma ImportCanLeaveAJobBare() returns (s: Tables, t: Tables, id: nat)
    ensures Initial(s) && Inv(s) && Possible(s, ImportJobRows(map[1 := FinishedJob()], 2))
    ensures t == Apply(s, ImportJobRows(map[1 := FinishedJob()], 2)) && Sound(t) && !Inv(t)
    ensures id in t.jobs && t.jobs[id].status.Succeeded? && t.jobs[id].profile !in t.results
  {
    s := Tables(map[], map[], {}, map[], 0);
    var rows := map[1 := FinishedJob()];
    t, id := Apply(s, ImportJobRows(rows, 2)), 1;
    assert JobsFit(s.jobs, rows);
    ImportJobsInv(s, rows, 2, {});
    MoreBare(t, {} + rows.Keys, t.jobs.Keys);
    assert !JobOk(t.results, 1, t.jobs[1]);
  }

  function FinishedJob(): Job {
    Job(1, None, Profile(5, 6), Succeeded, None, 1, 0)
  }

  /** A clone of both tables, from an installation where they are matched, leaves them matched here too. */
  lemma CloneOfBothMatches(t: Tables, source: Tables, next: nat)
    requires Inv(t) && Inv(source) && Possible(t, ImportJobRows(source.jobs, next))
    requires JobsFit(t.jobs, source.jobs) && ResultsFit(ImportJobs(t, source.jobs, next), source.results)
    ensures var with := ImportJobs(t, source.jobs, next);
      Possible(with, ImportResultRows(source.results)) && Inv(ImportResults(with, source.results))
  {
    var with := ImportJobs(t, source.jobs, next);
    ImportJobsInv(t, source.jobs, next, {});
    CloneIsPossible(t, source, with);
    ImportResultsInv(with, source.results, {} + source.jobs.Keys);
    CloneCompletes(t, source, with);
  }

  lemma CloneIsPossible(t: Tables, source: Tables, with: Tables)
    requires Inv(source) && JobsFit(t.jobs, source.jobs) && with.jobs == WithImported(t.jobs, source.jobs)
    ensures Possible(with, ImportResultRows(source.results))
  {
    forall p | p in source.results
      ensures ResultOk(with.jobs, p, source.results[p])
    {
      assert ResultOk(source.jobs, p, source.results[p]);
    }
  }

  /** Every job has its result once both tables are in: an earlier one its own, an imported one that of its source. */
  lemma CloneCompletes(t: Tables, source: Tables, with: Tables)
    requires Inv(t) && Inv(source) && JobsFit(t.jobs, source.jobs)
    requires with.jobs == WithImported(t.jobs, source.jobs) && with.results == t.results
    requires ResultsFit(with, source.results)
    ensures forall id | id in with.jobs :: JobOk(with.results + source.results, id, with.jobs[id])
  {
    forall id | id in with.jobs
      ensures JobOk(with.results + source.results, id, with.jobs[id])
    {
      if id in source.jobs {
        assert JobOk(source.results, id, source.jobs[id]);
        assert with.jobs[id].profile == source.jobs[id].profile;
      } else {
        assert JobOk(t.results, id, t.jobs[id]);
      }
    }
  }

  // ---------------------------------------------------------------- what one operation does

  /** A completion always records exactly what was measured, for the job's own profile, and no other result changes. */
  lemma CompletionRecords(t: Tables, id: nat, key: nat, benchmarker: nat, nps: int, elapsed: int)
    requires Reachable(t) && Active(t, id, key, benchmarker)
    ensures var after := Complete(t, id, key, benchmarker, nps, elapsed);
      && after.Ok?
      && t.jobs[id].profile !in t.results
      && after.value.results == t.results[t.jobs[id].profile := Measured(id, t.jobs[id].engine, nps, elapsed)]
      && id in after.value.jobs && after.value.jobs[id] == t.jobs[id].(status := Succeeded)
      && forall other | other in t.jobs && other != id ::
           if Spent(t.jobs[other], t.jobs[id].engine, t.jobs[id].profile.build) then other !in after.value.jobs
           else other in after.value.jobs && after.value.jobs[other] == t.jobs[other]
  {
    ReachableSound(t);
    RunningHasNoResult(t, id, t.jobs.Keys);
  }

  /** A manual result never violates the results' uniqueness: with no job for the profile there is no result either. */
  lemma ManualNeverViolates(t: Tables, engine: Engine, nps: int, elapsed: int, place: Where, now: int)
    requires Reachable(t)
    ensures OneJobEach(t.jobs)
    ensures RecordManual(t, engine, nps, elapsed, place, now) != Error(UniqueViolation)
    ensures RecordManual(t, engine, nps, elapsed, place, now).Ok? <==>
      && !engine.workerLocal && engine.published && nps > 0 && elapsed >= 0
      && Located(t, place).Ok? && !IsRunning(t.jobs, engine.build)
  {
    ReachableSound(t);
    if Located(t, place).Ok? {
      var profile := Profile(engine.build, Located(t, place).value);
      if profile in t.results {
        assert ResultOk(t.jobs, profile, t.results[profile]);
        assert HasJob(t.jobs, profile);
      }
    }
  }

  /** A result stays exactly as it is until its own build is measured by hand, forgotten or rescheduled. */
  lemma ResultsArePermanent(t: Tables, o: Operation, p: Profile)
    requires Sound(t) && p in t.results
    requires !(o.Manual? || o.Forget? || o.RescheduleBuild?) || o.engine.build != p.build
    ensures p in Apply(t, o).results && Apply(t, o).results[p] == t.results[p]
  {
    assert ResultOk(t.jobs, p, t.results[p]);
    match o
    case ScheduleJobs(hardware, engines, now) => ScheduleKeepsResults(t, hardware, engines, now);
    case RescheduleBuild(engine, hardware, now) =>
      if Reschedule(t, engine, hardware, now).Ok? {
        ScheduleEverywhereKeepsResults(Reset(t, engine, now), hardware, engine, now);
      }
    case CompleteJob(id, key, benchmarker, nps, elapsed) =>
    case _ =>
  }

  lemma {:induction false} ScheduleKeepsResults(t: Tables, hardware: nat, engines: seq<Engine>, now: int)
    ensures Schedule(t, hardware, engines, now).results == t.results
    decreases |engines|
  {
    if engines != [] {
      ScheduleKeepsResults(ScheduleOne(t, hardware, engines[0], now), hardware, engines[1..], now);
    }
  }

  lemma {:induction false} ScheduleEverywhereKeepsResults(t: Tables, hardware: seq<nat>, engine: Engine, now: int)
    ensures ScheduleEverywhere(t, hardware, engine, now).results == t.results
    decreases |hardware|
  {
    if hardware != [] {
      ScheduleKeepsResults(t, hardware[0], [engine], now);
      ScheduleEverywhereKeepsResults(Schedule(t, hardware[0], [engine], now), hardware[1..], engine, now);
    }
  }

  /**
   * After a reschedule the build has no result left, every one of its jobs is queued, and every listed hardware has
   * one. Of the jobs of other builds exactly the failed ones of the same engine are gone; the rest, and every result
   * of another build, are as they were.
   */
  lemma RescheduleStartsAfresh(t: Tables, engine: Engine, hardware: seq<nat>, now: int)
    requires Sound(t) && Reschedule(t, engine, hardware, now).Ok?
    ensures var after := Reschedule(t, engine, hardware, now).value;
      && (forall p | p in after.results :: p.build != engine.build)
      && (forall p | p in t.results && p.build != engine.build :: p in after.results)
      && (forall p | p in after.results :: p in t.results && after.results[p] == t.results[p])
      && (forall i | i in after.jobs && after.jobs[i].profile.build == engine.build :: after.jobs[i].status.Queued?)
      && (forall h | h in hardware :: HasJob(after.jobs, Profile(engine.build, h)))
      && (forall i | i in after.jobs && after.jobs[i].profile.build != engine.build ::
            i in t.jobs && after.jobs[i] == t.jobs[i])
      && (forall i | i in t.jobs && t.jobs[i].profile.build != engine.build ::
            (i !in after.jobs <==> t.jobs[i].status.Failed? && SameEngine(t.jobs[i].engine, engine.id)))
  {
    ResetInv(t, engine, now, t.jobs.Keys);
    var reset := Reset(t, engine, now);
    ScheduleEverywhereKeepsResults(reset, hardware, engine, now);
    EverywhereQueues(reset, hardware, engine, now);
    ResetSpares(t, engine, now);
  }

  /** What a reset leaves of other builds. */
  lemma ResetSpares(t: Tables, engine: Engine, now: int)
    requires Sound(t)
    ensures var after := Reset(t, engine, now);
      && after.nextJob == t.nextJob
      && (forall p | p in t.results && p.build != engine.build :: p in after.results)
      && (forall p | p in after.results :: p in t.results && after.results[p] == t.results[p])
      && (forall i | i in t.jobs && t.jobs[i].profile.build != engine.build ::
            if Spent(t.jobs[i], engine.id, engine.build) then i !in after.jobs
            else i in after.jobs && after.jobs[i] == t.jobs[i])
  {
    forall p | p in t.results && p.build != engine.build
      ensures p in Reset(t, engine, now).results
    {
      assert ResultOk(t.jobs, p, t.results[p]);
    }
  }

  /**
   * The foreign key from results to jobs and the uniqueness of its column are never violated: at the moment an
   * operation deletes jobs no result refers to them, and afterwards every result has a job of its own. A reschedule
   * deletes jobs before results, the other operations write their results first.
   */
  lemma DeletesNeverDangle(t: Tables, o: Operation)
    requires Sound(t) && Possible(t, o)
    ensures var gone := t.jobs.Keys - Apply(t, o).jobs.Keys;
      Unreferenced(if o.RescheduleBuild? then t.results else Apply(t, o).results, gone)
    ensures KeysOk(Apply(t, o))
  {
    ApplyInv(t, o, t.jobs.Keys);
    var after := Apply(t, o);
    forall p | p in after.results
      ensures ResultOk(after.jobs, p, after.results[p])
    {
    }
    if o.RescheduleBuild? {
      RescheduleDropsFailed(t, o.engine, o.profiles, o.now);
      forall p | p in t.results
        ensures t.results[p].job !in t.jobs.Keys - after.jobs.Keys
      {
        assert ResultOk(t.jobs, p, t.results[p]);
      }
    }
  }

  /** A reschedule deletes failed jobs only. */
  lemma RescheduleDropsFailed(t: Tables, engine: Engine, hardware: seq<nat>, now: int)
    requires Sound(t)
    ensures forall i | i in t.jobs && !t.jobs[i].status.Failed? ::
      i in Kept(t, Reschedule(t, engine, hardware, now)).jobs
  {
    if Reschedule(t, engine, hardware, now).Ok? {
      ResetInv(t, engine, now, t.jobs.Keys);
      EverywhereQueues(Reset(t, engine, now), hardware, engine, now);
    }
  }

  /** Scheduling adds queued jobs of this build, under new numbers, and changes no other. */
  ghost predicate OnlyQueues(t: Tables, after: map<nat, Job>, build: nat) {
    && (forall i | i in t.jobs :: i in after && after[i] == t.jobs[i])
    && forall i | i in after && i !in t.jobs ::
         after[i].status.Queued? && after[i].profile.build == build && i >= t.nextJob
  }

  lemma {:induction false} EverywhereQueues(t: Tables, hardware: seq<nat>, engine: Engine, now: int)
    requires !engine.workerLocal && forall id | id in t.jobs :: id < t.nextJob
    ensures OnlyQueues(t, ScheduleEverywhere(t, hardware, engine, now).jobs, engine.build)
    ensures forall h | h in hardware ::
      HasJob(ScheduleEverywhere(t, hardware, engine, now).jobs, Profile(engine.build, h))
    decreases |hardware|
  {
    if hardware != [] {
      var next := Schedule(t, hardware[0], [engine], now);
      ScheduleSingle(t, hardware[0], engine, now);
      var p := Profile(engine.build, hardware[0]);
      assert !HasJob(t.jobs, p) ==> t.nextJob in next.jobs && next.jobs[t.nextJob].profile == p;
      assert HasJob(next.jobs, p);
      EverywhereQueues(next, hardware[1..], engine, now);
      var after := ScheduleEverywhere(t, hardware, engine, now);
      assert after == ScheduleEverywhere(next, hardware[1..], engine, now);
      var id :| id in next.jobs && next.jobs[id].profile == p;
      assert id in after.jobs && after.jobs[id].profile == p;
    }
  }
}
