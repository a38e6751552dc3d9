/** What each operation on the benchmark tables does to the rows, told without the operations' own definitions. */
module BenchmarkEvents {
  import opened Wrappers
  import opened Benchmarks
  import opened BenchmarkRuns

  /** All jobs but this one are as they were. */
  ghost predicate OthersStay(before: map<nat, Job>, after: map<nat, Job>, id: nat) {
    forall i | i != id :: (i in after <==> i in before) && (i in before ==> after[i] == before[i])
  }

  // ---------------------------------------------------------------- the life of a job

  /** Scheduling gives every listed build that is not worker-local a job on the hardware, and changes no job. */
  lemma {:induction false} ScheduledHaveJobs(t: Tables, hardware: nat, engines: seq<Engine>, now: int)
    requires forall i | i in t.jobs :: i < t.nextJob
    ensures var after := Schedule(t, hardware, engines, now);
      && after.results == t.results && after.hardware == t.hardware && after.benchmarkers == t.benchmarkers
      && (forall i | i in after.jobs :: i < after.nextJob) && t.nextJob <= after.nextJob
      && (forall i | i in t.jobs :: i in after.jobs && after.jobs[i] == t.jobs[i])
      && (forall k | 0 <= k < |engines| && !engines[k].workerLocal ::
            HasJob(after.jobs, Profile(engines[k].build, hardware)))
      && (forall i | i in after.jobs && i !in t.jobs ::
            && i >= t.nextJob && !HasJob(t.jobs, after.jobs[i].profile)
            && exists k :: 0 <= k < |engines| && IsNewJob(after.jobs[i], i, engines[k], hardware, now))
    decreases |engines|
  {
    if engines != [] {
      var next := ScheduleOne(t, hardware, engines[0], now);
      var rest := engines[1..];
      var after := Schedule(t, hardware, engines, now);
      ScheduledHaveJobs(next, hardware, rest, now);
      OneScheduled(t, hardware, engines[0], now);
      forall k | 0 <= k < |engines| && !engines[k].workerLocal
        ensures HasJob(after.jobs, Profile(engines[k].build, hardware))
      {
        if k == 0 {
          StillHasJob(next.jobs, after.jobs, Profile(engines[0].build, hardware));
        } else {
          assert engines[k] == rest[k - 1];
        }
      }
      forall i | i in after.jobs && i !in t.jobs
        ensures i >= t.nextJob && !HasJob(t.jobs, after.jobs[i].profile)
        ensures exists k :: 0 <= k < |engines| && IsNewJob(after.jobs[i], i, engines[k], hardware, now)
      {
        if i in next.jobs {
          assert IsNewJob(after.jobs[i], i, engines[0], hardware, now);
        } else {
          var k :| 0 <= k < |rest| && IsNewJob(after.jobs[i], i, rest[k], hardware, now);
          assert rest[k] == engines[k + 1];
          if HasJob(t.jobs, after.jobs[i].profile) {
            StillHasJob(t.jobs, next.jobs, after.jobs[i].profile);
          }
        }
      }
    }
  }

  /** A job just queued: unclaimed, not yet tried. */
  ghost predicate IsNewJob(job: Job, id: nat, engine: Engine, hardware: nat, now: int) {
    !engine.workerLocal && job == Job(id, engine.id, Profile(engine.build, hardware), Queued, None, 0, now)
  }

  lemma OneScheduled(t: Tables, hardware: nat, engine: Engine, now: int)
    requires forall i | i in t.jobs :: i < t.nextJob
    ensures var after := ScheduleOne(t, hardware, engine, now);
      && after.results == t.results && after.hardware == t.hardware && after.benchmarkers == t.benchmarkers
      && (forall i | i in after.jobs :: i < after.nextJob) && t.nextJob <= after.nextJob
      && (forall i | i in t.jobs :: i in after.jobs && after.jobs[i] == t.jobs[i])
      && (!engine.workerLocal ==> HasJob(after.jobs, Profile(engine.build, hardware)))
      && forall i | i in after.jobs && i !in t.jobs ::
           i >= t.nextJob && !HasJob(t.jobs, after.jobs[i].profile) && IsNewJob(after.jobs[i], i, engine, hardware, now)
  {
    var after := ScheduleOne(t, hardware, engine, now);
    if after != t {
      assert after.jobs[t.nextJob].profile == Profile(engine.build, hardware);
    }
  }

  lemma StillHasJob(before: map<nat, Job>, after: map<nat, Job>, p: Profile)
    requires HasJob(before, p) && forall i | i in before :: i in after && after[i] == before[i]
    ensures HasJob(after, p)
  {
    var i :| i in before && before[i].profile == p;
    assert after[i].profile == p;
  }

  /** The next job to be given out: free, queued for this hardware, and none such was scheduled earlier. */
  lemma NextIsEarliest(jobs: map<nat, Job>, hardware: nat, free: set<nat>, id: nat)
    ensures IsNext(jobs, hardware, free, id) <==>
      && id in free && id in jobs && jobs[id].status == Queued && jobs[id].profile.hardware == hardware
      && forall i | i in free && i in jobs && jobs[i].status == Queued && jobs[i].profile.hardware == hardware ::
           jobs[id].scheduledAt < jobs[i].scheduledAt || (jobs[id].scheduledAt == jobs[i].scheduledAt && id <= i)
  {
  }

  /** A claimed job runs for its benchmarker, who can then complete or fail it and nobody else can. */
  lemma ClaimedIsActive(t: Tables, id: nat, benchmarker: nat)
    requires id in t.jobs
    ensures var after := ClaimJob(t, id, benchmarker);
      && after.jobs[id] ==
           t.jobs[id].(status := Running, benchmarker := Some(benchmarker), attempt := t.jobs[id].attempt + 1)
      && OthersStay(t.jobs, after.jobs, id) && after == t.(jobs := after.jobs)
      && forall i, key, other: nat | i == id ::
           Fail(after, i, key, other).Ok? <==> other == benchmarker && key == t.jobs[id].key
  {
  }

  /** Who may complete or fail a job: its benchmarker, by its key, while it runs. */
  ghost predicate InHand(t: Tables, id: nat, key: nat, benchmarker: nat) {
    id in t.jobs && t.jobs[id].status == Running && t.jobs[id].key == key && t.jobs[id].benchmarker == Some(benchmarker)
  }

  lemma CompletedOnlyInHand(t: Tables, id: nat, key: nat, benchmarker: nat, nps: int, elapsed: int)
    ensures Complete(t, id, key, benchmarker, nps, elapsed).Ok? <==> InHand(t, id, key, benchmarker)
    ensures Complete(t, id, key, benchmarker, nps, elapsed).Error? ==>
      Complete(t, id, key, benchmarker, nps, elapsed) == Error(NotActive)
  {
  }

  /** In reachable tables a completion records what was measured and drops the failed jobs of engine or build. */
  lemma CompletedIsMeasured(t: Tables, id: nat, key: nat, benchmarker: nat, nps: int, elapsed: int)
    requires Reachable(t) && InHand(t, id, key, benchmarker)
    ensures var after, job := Complete(t, id, key, benchmarker, nps, elapsed).value, t.jobs[id];
      && after == t.(jobs := after.jobs, results := after.results)
      && after.results == t.results[job.profile := Measured(id, job.engine, nps, elapsed)]
      && id in after.jobs && after.jobs[id] == job.(status := Succeeded)
      && forall i | i != id ::
           && (i in after.jobs ==> i in t.jobs && after.jobs[i] == t.jobs[i])
           && (i in t.jobs ==>
                 (i !in after.jobs <==>
                    && t.jobs[i].status == Failed
                    && ((job.engine.Some? && t.jobs[i].engine == job.engine)
                        || t.jobs[i].profile.build == job.profile.build)))
  {
    CompletionRecords(t, id, key, benchmarker, nps, elapsed);
  }

  lemma FailedIsFailed(t: Tables, id: nat, key: nat, benchmarker: nat)
    ensures var r := Fail(t, id, key, benchmarker);
      && (r.Ok? <==> InHand(t, id, key, benchmarker)) && (r.Error? ==> r == Error(NotActive))
      && (r.Ok? ==>
            && r.value == t.(jobs := r.value.jobs) && OthersStay(t.jobs, r.value.jobs, id)
            && id in r.value.jobs && r.value.jobs[id] == t.jobs[id].(status := Failed))
  {
  }

  // ---------------------------------------------------------------- results by hand

  ghost predicate BuildRuns(jobs: map<nat, Job>, build: nat) {
    exists i | i in jobs :: jobs[i].profile.build == build && jobs[i].status == Running
  }

  /** The profile a manual result is for: one that is known, or one that is described. */
  function Place(t: Tables, place: Where): Option<nat> {
    match place
    case Existing(key) => if key in t.hardware then Some(key) else None
    case Described(key) => Some(key)
    case Missing => None
  }

  /**
   * A manual result in reachable tables: refused for the first reason that applies, and otherwise stored for its
   * profile, under the profile's job or a new one, which has succeeded; failed jobs of engine or build are dropped.
   */
  lemma ManualIsStored(t: Tables, engine: Engine, nps: int, elapsed: int, place: Where, now: int)
    requires Reachable(t)
    ensures OneJobEach(t.jobs)
    ensures var r := RecordManual(t, engine, nps, elapsed, place, now);
      if engine.workerLocal then r == Error(WorkerLocal)
      else if !engine.published then r == Error(Unpublished)
      else if nps <= 0 then r == Error(BadNps)
      else if elapsed < 0 then r == Error(BadElapsed)
      else if place == Missing then r == Error(HardwareRequired)
      else if Place(t, place).None? then r == Error(UnknownHardware)
      else if BuildRuns(t.jobs, engine.build) then r == Error(AlreadyRunning)
      else r.Ok? && StoredFor(t, r.value, engine, nps, elapsed, Profile(engine.build, Place(t, place).value), now)
  {
    ManualNeverViolates(t, engine, nps, elapsed, place, now);
    ReachableSound(t);
  }

  ghost predicate StoredFor(
    t: Tables, after: Tables, engine: Engine, nps: int, elapsed: int, p: Profile, now: int)
  {
    && p in after.results && after.results == t.results[p := after.results[p]]
    && after.hardware == t.hardware + {p.hardware} && after.benchmarkers == t.benchmarkers
    && var id := after.results[p].job;
       && after.results[p] == Measured(id, engine.id, nps, elapsed)
       && id in after.jobs && after.jobs[id].profile == p && after.jobs[id].status == Succeeded
       && after.jobs[id].benchmarker.None? && after.jobs[id].engine == engine.id && after.jobs[id].scheduledAt == now
       && (if id in t.jobs then
             t.jobs[id].profile == p && after.jobs[id].key == t.jobs[id].key
             && after.jobs[id].attempt == t.jobs[id].attempt + 1 && after.nextJob == t.nextJob
           else
             && (forall i | i in t.jobs :: t.jobs[i].profile != p)
             && id == t.nextJob && after.nextJob == t.nextJob + 1 && after.jobs[id].attempt == 1)
       && forall i | i != id ::
            && (i in after.jobs ==> i in t.jobs && after.jobs[i] == t.jobs[i])
            && (i in t.jobs ==>
                  (i !in after.jobs <==>
                     && t.jobs[i].status == Failed
                     && ((engine.id.Some? && t.jobs[i].engine == engine.id) || t.jobs[i].profile.build == p.build)))
  }

  // ---------------------------------------------------------------- forgetting and requeuing

  /** A build is forgotten unless it runs: its jobs and results are gone, all others stay. */
  lemma ForgottenIsGone(t: Tables, engine: Engine)
    ensures var r := ForgetEngine(t, engine);
      if BuildRuns(t.jobs, engine.build) then r == Error(AlreadyRunning)
      else
        && r.Ok? && r.value == t.(jobs := r.value.jobs, results := r.value.results)
        && (forall i :: i in r.value.jobs <==> i in t.jobs && t.jobs[i].profile.build != engine.build)
        && (forall i | i in r.value.jobs :: r.value.jobs[i] == t.jobs[i])
        && (forall p :: p in r.value.results <==> p in t.results && p.build != engine.build)
        && forall p | p in r.value.results :: r.value.results[p] == t.results[p]
  {
  }

  /** The number that is returned is that of the jobs that are gone. */
  lemma ForgottenAreCounted(t: Tables, engine: Engine)
    requires ForgetEngine(t, engine).Ok?
    ensures |t.jobs| == |ForgetEngine(t, engine).value.jobs| + |OfBuild(t.jobs, engine.build)|
  {
    var gone, after := OfBuild(t.jobs, engine.build), ForgetEngine(t, engine).value.jobs;
    ForgottenIsGone(t, engine);
    assert t.jobs.Keys == after.Keys + gone && after.Keys !! gone;
  }

  lemma ForgottenJobHadFailed(t: Tables, id: nat)
    ensures var after := ForgetFailed(t, id);
      && after == t.(jobs := after.jobs) && OthersStay(t.jobs, after.jobs, id)
      && (id in t.jobs && t.jobs[id].status == Failed ==> id !in after.jobs)
      && (id in t.jobs && t.jobs[id].status != Failed ==> id in after.jobs && after.jobs[id] == t.jobs[id])
      && (id !in t.jobs ==> id !in after.jobs)
  {
  }

  /** When a build is rescheduled; that it then starts afresh is `RescheduleStartsAfresh`. */
  lemma RescheduledUnlessRunning(t: Tables, engine: Engine, hardware: seq<nat>, now: int)
    ensures var r := Reschedule(t, engine, hardware, now);
      if engine.workerLocal then r == Error(WorkerLocal)
      else if BuildRuns(t.jobs, engine.build) then r == Error(AlreadyRunning)
      else r.Ok?
  {
  }

  /** The build's own jobs that had not failed are queued again, unclaimed, as of now, with their attempts counted. */
  lemma RescheduledJobsAreRequeued(t: Tables, engine: Engine, hardware: seq<nat>, now: int, i: nat)
    requires Inv(t) && Reschedule(t, engine, hardware, now).Ok?
    requires i in t.jobs && t.jobs[i].profile.build == engine.build
    ensures var after := Reschedule(t, engine, hardware, now).value;
      if t.jobs[i].status == Failed then i !in after.jobs
      else i in after.jobs
           && after.jobs[i] == t.jobs[i].(benchmarker := None, status := Queued, scheduledAt := now)
  {
    ResetInv(t, engine, now, {});
    EverywhereQueues(Reset(t, engine, now), hardware, engine, now);
  }

  /** A benchmarker is forgotten: what it was running is queued again, and no job refers to it. */
  lemma ForgottenBenchmarkerLeaves(t: Tables, benchmarker: nat, now: int)
    ensures var after := ForgetBenchmarker(t, benchmarker, now);
      if benchmarker !in t.benchmarkers then after == t
      else
        && after == t.(jobs := after.jobs, benchmarkers := t.benchmarkers - {benchmarker})
        && after.jobs.Keys == t.jobs.Keys
        && forall i | i in t.jobs ::
             after.jobs[i] ==
               if t.jobs[i].benchmarker != Some(benchmarker) then t.jobs[i]
               else if t.jobs[i].status == Running
                    then t.jobs[i].(benchmarker := None, status := Queued, scheduledAt := now)
               else t.jobs[i].(benchmarker := None)
  {
  }

  /** After a restart nothing runs and nobody is present. */
  lemma RestartStopsEverything(t: Tables)
    ensures var after := Restart(t);
      && after == t.(jobs := after.jobs, benchmarkers := after.benchmarkers)
      && after.jobs.Keys == t.jobs.Keys && after.benchmarkers.Keys == t.benchmarkers.Keys
      && (forall i | i in t.jobs ::
            after.jobs[i] == if t.jobs[i].status == Running then t.jobs[i].(status := Failed) else t.jobs[i])
      && forall b | b in t.benchmarkers ::
           after.benchmarkers[b] ==
             if t.benchmarkers[b].presence == Connected || t.benchmarkers[b].presence == Busy
             then t.benchmarkers[b].(presence := Offline) else t.benchmarkers[b]
  {
  }

  // ---------------------------------------------------------------- imports

  /** An import of jobs keeps every job that is here, and brings in the others unclaimed, none of them unfinished. */
  lemma ImportedJobsAreFinished(t: Tables, rows: map<nat, Job>, next: nat)
    ensures var after := ImportJobs(t, rows, next);
      && after.results == t.results && after.hardware == t.hardware && after.benchmarkers == t.benchmarkers
      && (forall i | i in t.jobs :: i in after.jobs && after.jobs[i] == t.jobs[i])
      && (after != t ==> after.jobs.Keys == t.jobs.Keys + rows.Keys && after.nextJob == next && OneJobEach(after.jobs))
      && forall i | i in after.jobs && i !in t.jobs ::
           && i in rows && after.jobs[i].benchmarker.None?
           && after.jobs[i] == rows[i].(benchmarker := None, status := after.jobs[i].status)
           && after.jobs[i].status == (if rows[i].status == Succeeded then Succeeded else Failed)
  {
  }

  /** It is refused exactly if a row is here already and differs, or two rows would be for one profile. */
  lemma ImportRefusedExactlyWhen(t: Tables, rows: map<nat, Job>)
    ensures !JobsFit(t.jobs, rows) <==>
      || (exists i | i in rows && i in t.jobs :: t.jobs[i] != Cloned(rows[i]))
      || (exists i, j | i in rows && i !in t.jobs && j in t.jobs :: rows[i].profile == t.jobs[j].profile)
      || (exists i, j | i in rows && j in rows && i !in t.jobs && j !in t.jobs && i != j ::
            rows[i].profile == rows[j].profile)
      || !OneJobEach(t.jobs)
  {
    var all := WithImported(t.jobs, rows);
    forall i | i in t.jobs
      ensures all[i] == t.jobs[i]
    {
    }
    forall i | i in rows && i !in t.jobs
      ensures all[i].profile == rows[i].profile
    {
    }
    if !OneJobEach(all) {
      var i, j :| i in all && j in all && all[i].profile == all[j].profile && i != j;
      assert i in t.jobs || i in rows;
      assert j in t.jobs || j in rows;
    }
  }

  /** An import of results adds all of them, or nothing: exactly if one differs from what is here or breaks a key. */
  lemma ImportedResultsKeepTheKeys(t: Tables, rows: map<Profile, Measured>)
    requires KeysOk(t)
    ensures var same := forall p | p in rows && p in t.results :: t.results[p] == rows[p];
      var fits := same && KeysOk(t.(results := t.results + rows));
      ImportResults(t, rows) == if fits then t.(results := t.results + rows) else t
  {
    var all := t.results + rows;
    forall p | p in rows
      ensures all[p] == rows[p]
    {
    }
    forall p | p in t.results && p !in rows
      ensures all[p] == t.results[p]
    {
    }
    if ResultsFit(t, rows) {
      forall p, q | p in all && q in all && all[p].job == all[q].job
        ensures p == q
      {
        assert p in rows || p in t.results;
        assert q in rows || q in t.results;
      }
    } else if forall p | p in rows && p in t.results :: t.results[p] == rows[p] {
      assert forall p | p in t.results :: all[p] == t.results[p];
    }
  }

  // ---------------------------------------------------------------- every build can be measured

  /** From any tables that can come about, a run of the program's own operations measures a build on a hardware. */
  lemma CanBeMeasured(t: Tables, engine: Engine, hardware: nat, benchmarker: nat, nps: int, elapsed: int, now: int)
      returns (operations: seq<Operation>, after: Tables)
    requires Reachable(t) && !engine.workerLocal && !HasJob(t.jobs, Profile(engine.build, hardware))
    ensures Reaches(t, operations, after) && |operations| == 3
    ensures Profile(engine.build, hardware) in after.results
    ensures after.results[Profile(engine.build, hardware)] == Measured(t.nextJob, engine.id, nps, elapsed)
  {
    ReachableSound(t);
    var id := t.nextJob;
    var schedule, claim := ScheduleJobs(hardware, [engine], now), Claim(id, benchmarker);
    var complete := CompleteJob(id, id, benchmarker, nps, elapsed);
    ScheduleSingle(t, hardware, engine, now);
    var t1 := Apply(t, schedule);
    assert t1.jobs == t.jobs[id := Job(id, engine.id, Profile(engine.build, hardware), Queued, None, 0, now)];
    ApplyInv(t, schedule, t.jobs.Keys);
    var t2 := Apply(t1, claim);
    ApplyInv(t1, claim, t.jobs.Keys + Imported(schedule));
    after := Apply(t2, complete);
    RunningHasNoResult(t2, id, t.jobs.Keys + Imported(schedule) + Imported(claim));
    ApplyInv(t2, complete, t.jobs.Keys + Imported(schedule) + Imported(claim));
    ReachesFirst(t2, complete, [], after);
    ReachesFirst(t1, claim, [complete] + [], after);
    ReachesFirst(t, schedule, [claim] + ([complete] + []), after);
    operations := [schedule] + ([claim] + ([complete] + []));
  }

  lemma ReachesFirst(s: Tables, o: Operation, rest: seq<Operation>, t: Tables)
    requires OneJobEach(s.jobs) && Possible(s, o) && Reaches(Apply(s, o), rest, t)
    ensures Reaches(s, [o] + rest, t)
  {
    assert ([o] + rest)[1..] == rest;
  }
}
