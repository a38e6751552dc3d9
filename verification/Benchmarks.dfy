/** Benchmark jobs and their results: two tables, and the operations that change them. */
module Benchmarks {
  import opened Wrappers

  /** One engine build on one hardware profile. */
  datatype Profile = Profile(build: nat, hardware: nat)

  datatype Status = Queued | Running | Succeeded | Failed

  datatype Job = Job(
    key: nat,
    engine: Option<nat>,
    profile: Profile,
    status: Status,
    benchmarker: Option<nat>,
    attempt: nat,
    scheduledAt: int)

  datatype Measured = Measured(job: nat, engine: Option<nat>, nps: int, elapsed: int)

  datatype Engine = Engine(id: Option<nat>, build: nat, workerLocal: bool, published: bool)

  datatype Presence = Minted | Connected | Busy | Offline | Revoked

  datatype Benchmarker = Benchmarker(hardware: Option<nat>, presence: Presence)

  /** Jobs by number, results by the profile they are unique for, known hardware, and the next job number. */
  datatype Tables = Tables(
    jobs: map<nat, Job>,
    results: map<Profile, Measured>,
    hardware: set<nat>,
    benchmarkers: map<nat, Benchmarker>,
    nextJob: nat)

  /** A manual result names a known profile, describes a new one, or does neither. */
  datatype Where = Existing(key: nat) | Described(key: nat) | Missing

  datatype BenchmarkError =
    | NotActive
    | WorkerLocal
    | Unpublished
    | BadNps
    | BadElapsed
    | HardwareRequired
    | UnknownHardware
    | AlreadyRunning
    | UniqueViolation

  // ---------------------------------------------------------------- rows

  predicate HasJob(jobs: map<nat, Job>, p: Profile) {
    exists id | id in jobs :: jobs[id].profile == p
  }

  predicate IsRunning(jobs: map<nat, Job>, build: nat) {
    exists id | id in jobs :: jobs[id].profile.build == build && jobs[id].status.Running?
  }

  /** SQL equality: an absent engine number equals nothing. */
  predicate SameEngine(a: Option<nat>, b: Option<nat>) {
    a.Some? && a == b
  }

  /** A failed job of this engine or this build. */
  predicate Spent(job: Job, engine: Option<nat>, build: nat) {
    job.status.Failed? && (SameEngine(job.engine, engine) || job.profile.build == build)
  }

  function WithoutSpent(jobs: map<nat, Job>, engine: Option<nat>, build: nat): map<nat, Job> {
    map id | id in jobs && !Spent(jobs[id], engine, build) :: jobs[id]
  }

  /** `_validated_running_job` finds the row. */
  predicate Active(t: Tables, id: nat, key: nat, benchmarker: nat) {
    id in t.jobs && t.jobs[id].key == key && t.jobs[id].benchmarker == Some(benchmarker) && t.jobs[id].status.Running?
  }

  // ---------------------------------------------------------------- the operations

  function Enqueued(engine: Engine, hardware: nat, id: nat, now: int): Job {
    Job(id, engine.id, Profile(engine.build, hardware), Queued, None, 0, now)
  }

  function ScheduleOne(t: Tables, hardware: nat, engine: Engine, now: int): Tables {
    if engine.workerLocal || HasJob(t.jobs, Profile(engine.build, hardware)) then t
    else t.(jobs := t.jobs[t.nextJob := Enqueued(engine, hardware, t.nextJob, now)], nextJob := t.nextJob + 1)
  }

  /** `schedule_benchmark_jobs`: a build that already has a job on this hardware keeps it. */
  function Schedule(t: Tables, hardware: nat, engines: seq<Engine>, now: int): Tables
    decreases |engines|
  {
    if engines == [] then t else Schedule(ScheduleOne(t, hardware, engines[0], now), hardware, engines[1..], now)
  }

  predicate Waiting(jobs: map<nat, Job>, hardware: nat, id: nat) {
    id in jobs && jobs[id].profile.hardware == hardware && jobs[id].status.Queued?
  }

  predicate Before(jobs: map<nat, Job>, a: nat, b: nat)
    requires a in jobs && b in jobs
  {
    jobs[a].scheduledAt < jobs[b].scheduledAt || (jobs[a].scheduledAt == jobs[b].scheduledAt && a <= b)
  }

  /** Of the waiting jobs that are `free`, the one scheduled first, the lower number breaking ties. */
  ghost predicate IsNext(jobs: map<nat, Job>, hardware: nat, free: set<nat>, id: nat) {
    && id in free && Waiting(jobs, hardware, id)
    && forall other | other in free && Waiting(jobs, hardware, other) :: Before(jobs, id, other)
  }

  function ClaimJob(t: Tables, id: nat, benchmarker: nat): Tables
    requires id in t.jobs
  {
    t.(jobs := t.jobs[id := t.jobs[id].(
      benchmarker := Some(benchmarker), status := Running, attempt := t.jobs[id].attempt + 1)])
  }

  /** `complete_benchmark_job`: an existing result of the profile would be kept. */
  function Complete(t: Tables, id: nat, key: nat, benchmarker: nat, nps: int, elapsed: int)
    : Result<Tables, BenchmarkError>
  {
    if !Active(t, id, key, benchmarker) then Error(NotActive)
    else
      var job := t.jobs[id];
      var measured := Measured(id, job.engine, nps, elapsed);
      var results := if job.profile in t.results then t.results else t.results[job.profile := measured];
      Ok(t.(results := results,
            jobs := WithoutSpent(t.jobs[id := job.(status := Succeeded)], job.engine, job.profile.build)))
  }

  function Fail(t: Tables, id: nat, key: nat, benchmarker: nat): Result<Tables, BenchmarkError> {
    if !Active(t, id, key, benchmarker) then Error(NotActive)
    else Ok(t.(jobs := t.jobs[id := t.jobs[id].(status := Failed)]))
  }

  function Located(t: Tables, place: Where): Result<nat, BenchmarkError> {
    match place
    case Missing => Error(HardwareRequired)
    case Described(key) => Ok(key)
    case Existing(key) => if key in t.hardware then Ok(key) else Error(UnknownHardware)
  }

  /** The job row a manual result belongs to, new or replaced; `existing` is the profile's job if it has one. */
  function ManualJob(t: Tables, engine: Engine, profile: Profile, existing: Option<nat>, now: int): (nat, Job)
    requires existing.Some? ==> existing.value in t.jobs
  {
    if existing.None? then (t.nextJob, Job(t.nextJob, engine.id, profile, Succeeded, None, 1, now))
    else
      var job := t.jobs[existing.value];
      (existing.value, job.(
        benchmarker := None, engine := engine.id, status := Succeeded, attempt := job.attempt + 1, scheduledAt := now))
  }

  function JobOf(jobs: map<nat, Job>, p: Profile): (r: Option<nat>)
    requires OneJobEach(jobs)
    ensures r.Some? <==> HasJob(jobs, p)
    ensures r.Some? ==> r.value in jobs && jobs[r.value].profile == p
  {
    if HasJob(jobs, p) then
      var id :| id in jobs && jobs[id].profile == p;
      Some(id)
    else None
  }

  /** `record_manual_benchmark`. */
  function RecordManual(t: Tables, engine: Engine, nps: int, elapsed: int, place: Where, now: int)
    : Result<Tables, BenchmarkError>
    requires OneJobEach(t.jobs)
  {
    if engine.workerLocal then Error(WorkerLocal)
    else if !engine.published then Error(Unpublished)
    else if nps <= 0 then Error(BadNps)
    else if elapsed < 0 then Error(BadElapsed)
    else if Located(t, place).Error? then Error(Located(t, place).error)
    else if IsRunning(t.jobs, engine.build) then Error(AlreadyRunning)
    else
      var profile := Profile(engine.build, Located(t, place).value);
      var existing := JobOf(t.jobs, profile);
      if existing.None? && profile in t.results then Error(UniqueViolation)
      else
        var (id, job) := ManualJob(t, engine, profile, existing, now);
        Ok(t.(hardware := t.hardware + {profile.hardware},
              results := t.results[profile := Measured(id, engine.id, nps, elapsed)],
              jobs := WithoutSpent(t.jobs[id := job], engine.id, engine.build),
              nextJob := if existing.None? then t.nextJob + 1 else t.nextJob))
  }

  /** `forget_engine_benchmarks`. */
  function ForgetEngine(t: Tables, engine: Engine): Result<Tables, BenchmarkError> {
    if IsRunning(t.jobs, engine.build) then Error(AlreadyRunning)
    else
      Ok(t.(results := map p | p in t.results && p.build != engine.build :: t.results[p],
            jobs := map id | id in t.jobs && t.jobs[id].profile.build != engine.build :: t.jobs[id]))
  }

  /** `forget_failed_benchmark_job`. */
  function ForgetFailed(t: Tables, id: nat): Tables {
    if id in t.jobs && t.jobs[id].status.Failed? then t.(jobs := t.jobs - {id}) else t
  }

  function Requeued(job: Job, now: int): Job {
    job.(benchmarker := None, status := Queued, scheduledAt := now)
  }

  /** The build's surviving jobs queued again and the results of those jobs gone. */
  function Reset(t: Tables, engine: Engine, now: int): Tables {
    var kept := WithoutSpent(t.jobs, engine.id, engine.build);
    t.(results := map p | p in t.results && !(t.results[p].job in kept
                      && kept[t.results[p].job].profile.build == engine.build) :: t.results[p],
       jobs := map id | id in kept ::
         if kept[id].profile.build == engine.build then Requeued(kept[id], now) else kept[id])
  }

  function ScheduleEverywhere(t: Tables, hardware: seq<nat>, engine: Engine, now: int): Tables
    decreases |hardware|
  {
    if hardware == [] then t
    else ScheduleEverywhere(Schedule(t, hardware[0], [engine], now), hardware[1..], engine, now)
  }

  /** The hardware of benchmarkers that are not revoked, listed once each in whatever order the rows come. */
  ghost predicate ListsHardware(t: Tables, hardware: seq<nat>) {
    && (forall i, j | 0 <= i < j < |hardware| :: hardware[i] != hardware[j])
    && forall h :: h in hardware <==>
      exists b | b in t.benchmarkers :: t.benchmarkers[b].hardware == Some(h) && !t.benchmarkers[b].presence.Revoked?
  }

  /** `reschedule_engine_benchmarks`. */
  function Reschedule(t: Tables, engine: Engine, hardware: seq<nat>, now: int): Result<Tables, BenchmarkError> {
    if engine.workerLocal then Error(WorkerLocal)
    else if IsRunning(t.jobs, engine.build) then Error(AlreadyRunning)
    else Ok(ScheduleEverywhere(Reset(t, engine, now), hardware, engine, now))
  }

  /** `forget_benchmarker`: its running jobs are queued again, its others lose their reference. */
  function ForgetBenchmarker(t: Tables, benchmarker: nat, now: int): Tables {
    if benchmarker !in t.benchmarkers then t
    else
      t.(jobs := map id | id in t.jobs :: Released(t.jobs[id], benchmarker, now),
         benchmarkers := t.benchmarkers - {benchmarker})
  }

  function Released(job: Job, benchmarker: nat, now: int): Job {
    if job.benchmarker != Some(benchmarker) then job
    else if job.status.Running? then Requeued(job, now)
    else job.(benchmarker := None)
  }

  /** `reset_benchmark_service_state`: a restart fails whatever was running and sets everyone present offline. */
  function Restart(t: Tables): Tables {
    t.(jobs := map id | id in t.jobs ::
         if t.jobs[id].status.Running? then t.jobs[id].(status := Failed) else t.jobs[id],
       benchmarkers := map b | b in t.benchmarkers :: Disconnected(t.benchmarkers[b]))
  }

  function Disconnected(b: Benchmarker): Benchmarker {
    if b.presence in {Connected, Busy} then b.(presence := Offline) else b
  }

  /** The jobs of a build. */
  function OfBuild(jobs: map<nat, Job>, build: nat): set<nat> {
    set id | id in jobs && jobs[id].profile.build == build
  }

  // ---------------------------------------------------------------- importing from another installation

  /** `imported_row`: nobody runs an imported job, and one that was unfinished has failed. */
  function Cloned(job: Job): Job {
    job.(benchmarker := None, status := if job.status in {Queued, Running} then Failed else job.status)
  }

  function WithImported(jobs: map<nat, Job>, rows: map<nat, Job>): map<nat, Job> {
    map id | id in jobs.Keys + rows.Keys :: if id in jobs then jobs[id] else Cloned(rows[id])
  }

  /** Every row is present and equal in the end: none is kept out by another row. */
  predicate JobsFit(jobs: map<nat, Job>, rows: map<nat, Job>) {
    && (forall id | id in rows && id in jobs :: jobs[id] == Cloned(rows[id]))
    && OneJobEach(WithImported(jobs, rows))
  }

  /** The import of `benchmark_jobs`, after which numbers are drawn from `next` on. */
  function ImportJobs(t: Tables, rows: map<nat, Job>, next: nat): Tables {
    if JobsFit(t.jobs, rows) then t.(jobs := WithImported(t.jobs, rows), nextJob := next) else t
  }

  /** Every row is present in the end, refers to a job, and shares it with no other. */
  predicate ResultsFit(t: Tables, rows: map<Profile, Measured>) {
    && (forall p | p in rows :: rows[p].job in t.jobs)
    && (forall p | p in rows && p in t.results :: t.results[p] == rows[p])
    && (forall p, q | p in rows && q in rows && rows[p].job == rows[q].job :: p == q)
    && forall p, q | p in rows && q in t.results && rows[p].job == t.results[q].job :: p == q
  }

  /** The import of `engine_benchmarks`. */
  function ImportResults(t: Tables, rows: map<Profile, Measured>): Tables {
    if ResultsFit(t, rows) then t.(results := t.results + rows) else t
  }

  // ---------------------------------------------------------------- the invariant

  predicate OneJobEach(jobs: map<nat, Job>) {
    forall i, j | i in jobs && j in jobs && jobs[i].profile == jobs[j].profile :: i == j
  }

  /** A result belongs to the succeeded job of its profile. */
  ghost predicate ResultOk(jobs: map<nat, Job>, p: Profile, m: Measured) {
    m.job in jobs && jobs[m.job].profile == p && jobs[m.job].status.Succeeded?
  }

  /** A succeeded job has its result. */
  ghost predicate JobOk(results: map<Profile, Measured>, id: nat, job: Job) {
    job.status.Succeeded? ==> job.profile in results && results[job.profile].job == id
  }

  /** Results and jobs correspond, but for succeeded jobs among `bare`, which may lack a result. */
  ghost predicate Matched(jobs: map<nat, Job>, results: map<Profile, Measured>, bare: set<nat>) {
    && OneJobEach(jobs)
    && (forall p | p in results :: ResultOk(jobs, p, results[p]))
    && forall id | id in jobs && id !in bare :: JobOk(results, id, jobs[id])
  }

  /** No result refers to one of these jobs, so the foreign key lets them be deleted. */
  ghost predicate Unreferenced(results: map<Profile, Measured>, gone: set<nat>) {
    forall p | p in results :: results[p].job !in gone
  }

  /** The results' keys: each refers to a job that exists, and no two to the same one. */
  ghost predicate KeysOk(t: Tables) {
    && (forall p | p in t.results :: t.results[p].job in t.jobs)
    && forall p, q | p in t.results && q in t.results && t.results[p].job == t.results[q].job :: p == q
  }

  ghost predicate InvBut(t: Tables, bare: set<nat>) {
    Matched(t.jobs, t.results, bare) && forall id | id in t.jobs :: id < t.nextJob
  }

  /** The full correspondence. */
  ghost predicate Inv(t: Tables) {
    InvBut(t, {})
  }

  /** The half that holds whatever is imported: every result has its succeeded job. */
  ghost predicate Sound(t: Tables) {
    InvBut(t, t.jobs.Keys)
  }

  // ---------------------------------------------------------------- scheduling one build

  lemma ScheduleSingle(t: Tables, hardware: nat, engine: Engine, now: int)
    ensures Schedule(t, hardware, [engine], now) == ScheduleOne(t, hardware, engine, now)
  {
    var next := ScheduleOne(t, hardware, engine, now);
    assert Schedule(t, hardware, [engine], now) == Schedule(next, hardware, [engine][1..], now);
    assert [engine][1..] == [];
  }

  /** Scheduling one build counts the jobs it adds. */
  lemma ScheduleOneCounts(t: Tables, hardware: nat, engine: Engine, now: int)
    requires forall id | id in t.jobs :: id < t.nextJob
    ensures var after := ScheduleOne(t, hardware, engine, now);
      && t.nextJob <= after.nextJob && (forall id | id in after.jobs :: id < after.nextJob)
      && |OfBuild(after.jobs, engine.build)| == |OfBuild(t.jobs, engine.build)| + (after.nextJob - t.nextJob)
  {
    if !engine.workerLocal && !HasJob(t.jobs, Profile(engine.build, hardware)) {
      OneJobMore(t.jobs, t.nextJob, Enqueued(engine, hardware, t.nextJob, now));
    }
  }

  lemma OneJobMore(jobs: map<nat, Job>, id: nat, job: Job)
    requires id !in jobs
    ensures |OfBuild(jobs[id := job], job.profile.build)| == |OfBuild(jobs, job.profile.build)| + 1
  {
    assert OfBuild(jobs[id := job], job.profile.build) == OfBuild(jobs, job.profile.build) + {id};
  }
}
