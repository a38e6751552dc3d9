# Verified model of the chess-engine testing platform

A Dafny 4.11 project that models the hard logic of the platform and proves properties of it. `dafny verify
dfyconfig.toml` checks everything.

What the repository updates in place is a class or a method with loops here, proved against functions on values; what
is promised over whole runs is proved about those functions as a transition system.

| part | modules |
|---|---|
| durable operation executor: leases, fencing, retries, cancel, resume | `ControlRows`, `ControlStore`, `Executor`, `ExecutorRuns`, `ExecutorEvents`, `Operations` |
| rating mathematics: pruning, Elo iteration, pairing, information matrices | `Pruning`, `Elo`, `EloRatings`, `EloCurve`, `Pairing`, `Laplacian`, `RatingBounds`, `Covariance`, `Margins`, `Sums` |
| exactly-once commands, gap-free replay | `Commands`, `CommandService`, `CommandRuns`, `Replay` |
| environment clone: selection, download, import | `Selection`, `Download`, `CloneRows`, `CloneImport` |
| authority journal | `Journal`, `JournalRuns` |
| engine archives: paths, link graph, both validators, creator | `Paths`, `Chains`, `LinkGraph`, `Archive`, `ArchiveTree`, `FileTree` |
| benchmark tables | `Benchmarks`, `BenchmarkStore`, `BenchmarkRuns`, `BenchmarkEvents` |
| shared | `Wrappers`, `Ordering`, `Bytes` |

## Assumptions

- A database transaction is one atomic step with one clock reading. The row lock that a guarded runner keeps across
  its handler is modelled as a lock; times are whole seconds and the clock never goes back; owners of claims, receipt numbers and the identifiers of
  journal records are fresh, and so are the numbers of operations and the incarnations that a restore brings.
- Digests: a command's fingerprint is its canonical request, and the hash of a submitted plan is its canonical text; a
  file's digest is an arbitrary function of its contents, a journal digest an arbitrary function of a record (the
  theorem about head digests names the collision instead of excluding it). A checkpoint token that decrypts is one that was sealed here.
- Every edit raises the version of what it edits, and other transactions never lower a version or lose one.
- Results that a clone imports belong to jobs that have succeeded, as in the installation they come from: nobody else
  changes the jobs a clone brought before its results are in.
- Log positions are assigned in increasing order, and trimming removes only positions up to `retained_after`.
- Ratings and scores are exact: half points are integers, ratings reals, and the logistic curve is any function with
  values strictly between 0 and 1 applied to the clamped rating difference.
- Games reach the margin computation in the order of their numbers.

## Where the code does less than it may seem to promise

Each of these is stated as a theorem, with the exact condition where there is one.

- A step that crashed while `running` is not counted as runnable when another step fails, so an operation can end
  `failed` with a step that could still run. The steps stranded are exactly those whose row says `running`: nothing is
  stranded exactly if no row says so (`FailedStrandsExactlyRunningRows`; a run in which it happens is in
  `FailedCanStrandARunningRow`).
- Resume checks for a live lease, but no resumable operation ever has one (`ResumeNeverMeetsALease`).
- After a cancel an unfinished external step can still be recorded as succeeded exactly if a runner is in flight with
  it, authorized and still named as the lease owner (`CancelledExternalRecordsExactlyWhen`; a run in which it happens
  is in `CancelledExternalMayStillRecord`).
- A plan submitted again under its key is answered with the operation it made, even when one of the two asked for a
  preview and the other did not (`RetriedCreation`).
- A retried command is refused, not answered, once its target, its result's object or the actor's scope is gone
  (`RetryReturnsTheReceipt`; `RetryCanBeForbidden` has an instance).
- Only the datasets asked for are checked for portability, so an expansion could be refused when it is expanded again.
  In a catalogue without dependency cycles this happens exactly if something portable names something that is not
  (`ExpansionsRepeatExactlyWhen`, with an example in `SecondExpansionCanBeRefused`). The catalogue the code declares
  is not of that kind: nothing names its three datasets that are not portable. The risk is latent.
- The batch size of an import makes a difference exactly if rows come with different columns while nothing else is
  wrong: every row would end up present and none would reuse a retained identity (`BatchSizeMattersExactlyWhen`;
  `BatchSizeCanMatter` has two rows for which it does).
- A clone of the benchmark jobs without their results leaves succeeded jobs that have none. An import of jobs keeps the
  two tables matched exactly if it is refused or brings in no succeeded job (`ImportMatchesExactlyWhen`,
  `ImportCanLeaveAJobBare`); a clone of both tables keeps them matched (`CloneOfBothMatches`).
- The limit on journal entries counts temporary files left by crashes, so enough crashes block even an empty journal
  (`AcceptedExactlyWhen`, `LeftoversCanBlockTheJournal`).
- Appending to the journal does not compare databases; its caller does (`AppendedIsReadableExactlyWhen`, with an append
  that spoils a journal in `AppendCanSpoilTheJournal`, and `GuardedKeepsOneDatabase`).
- The path check accepts a single dot, so a link to the archive's root passes one validator and the creator, and only
  the strict validator refuses it (`OnlyStrictlyRefusedLinks`, `RootLinkIsOnlyStrictlyRefused`).
- The creator asks the file system about the entrypoint, the validators follow names and look at modes. So the creator
  archives, and the validators refuse, a regular entrypoint that nobody may execute, and one that is reached through a
  link in the middle of its path (`PlainFileIsArchivedThenRefused`, `LinkedFolderIsArchivedThenRefused`). When link
  targets are relative, stay below the root and have dots at their start only, these are all the cases but for names
  that are never archived: the file system's answers are computed from the tree, and an archive within the limits, of a
  build hash of the right length, is refused exactly if the lookup strays so or the file it finds is not executable
  (`TidyTreeRoundTrip`, `StrayingTreeExists`). For other trees `RoundTrip` has the condition in terms of the archive's names.

## Model

| member | source | states |
|---|---|---|
| `ControlStore.ValidateGraph` | cope/control/operations.py:45-52 | accepts exactly the plans whose keys are unique and whose dependencies are keys of earlier steps |
| `ControlStore.Store.constructor` | cope/control/operations.py:109-148 | creation leaves one pending step row per plan step, in order, and an operation that is planned or pending |
| `ControlStore.Store.DependenciesDone` | cope/control/runner.py:91-94 | answers whether every row named as a dependency has succeeded |
| `ControlStore.Store.Claim` | cope/control/runner.py:82-120 | takes the lease exactly when the operation is claimable, starts its first eligible step by position, and changes nothing otherwise |
| `ControlRows.FirstEligible` | cope/control/runner.py:104-113 | the lowest-placed open step that is due and has its dependencies, or none if there is none |
| `ControlStore.Store.Heartbeat` | cope/control/runner.py:55-67 | renews the lease of the owner named in the row, even an expired one, and nothing else |
| `ControlStore.Store.Guard` | cope/control/runner.py:70-79 | passes exactly the owner of a live lease on an operation that is not cancelled |
| `ControlStore.Store.StatusByKey` | cope/control/runner.py:130 | the lookup of statuses by key agrees with the rows |
| `ControlStore.Store.AnyRunnable` | cope/control/runner.py:129-131 | finds out whether a pending or waiting step has all its dependencies |
| `ControlStore.Store.FinishOperation` | cope/control/runner.py:123-140 | the status computed from the step rows, and the lease given back only by its owner and only if not cancelled |
| `ControlStore.Store.NextError` | cope/control/runner.py:135-140 | the first nonempty error among failed and waiting steps |
| `ControlStore.Store.Record` | cope/control/runner.py:164-184 | the commit of an outcome writes exactly the claimed step and finishes the operation |
| `ControlStore.Store.RecordError` | cope/control/runner.py:186-216 | the error path writes the claimed step only while the row still names this owner |
| `ControlStore.Store.Cancel` | cope/control/operations.py:195-205 | cancel marks the operation and its pending and waiting steps; a succeeded or cancelled operation is left alone |
| `ControlStore.Store.Resume` | cope/control/operations.py:210-226 | resume is refused exactly for a status or a lease that forbids it, and otherwise reopens failed, waiting and running steps |
| `Executor.FirstUnfinishedIsReady` | cope/control/operations.py:45-52 | in an accepted plan the first unfinished step has all its dependencies |
| `Executor.FinishedStatusOk` | cope/control/runner.py:123-134 | the status computed when an operation is finished tells the truth about its steps |
| `Executor.InitialInv` | cope/control/operations.py:109-148 | a created operation satisfies the invariant |
| `Executor.ApplyInv` | cope/control/runner.py:143-224 | every event of every runner, crash, tick and command keeps the invariant and never rewrites a succeeded step |
| `Executor.RunInv` | cope/control/runner.py:143-224 | the invariant, and the permanence of succeeded steps, over whole runs |
| `ExecutorRuns.ExactlyOneSuccess` | cope/control/runner.py:159-184 | over every run a step commits at most one success, and has succeeded exactly if one was committed |
| `ExecutorRuns.SucceededIsFinal` | cope/control/runner.py:175-178 | the row of a succeeded step never changes again in any respect |
| `ExecutorRuns.ClaimSupersedes` | cope/control/runner.py:100-103 | a claim takes the row away from every earlier claim |
| `ExecutorRuns.Fenced` | cope/control/runner.py:159-216 | a runner whose lease was taken never again writes a row, whatever it and the others do |
| `ExecutorRuns.OneWriter` | cope/control/runner.py:159-184 | at most one runner can commit a result at any moment, although several rows may say running |
| `ExecutorRuns.StatusTruthful` | cope/control/runner.py:123-140 | in every reachable state: succeeded exactly if all steps are, cancelled exactly if requested, and started or succeeded steps have their dependencies |
| `ExecutorRuns.TerminalIsFinal` | cope/control/operations.py:195-212 | succeeded and cancelled are never left |
| `ExecutorRuns.CancelStopsWork` | cope/control/runner.py:70-79 | after a cancel no step starts and no result of a non-external step is committed |
| `ExecutorRuns.CancelledExternalRecordsExactlyWhen` | cope/control/runner.py:168-184 | once a cancel has committed, some run records the success of an unfinished external step exactly if a runner authorized for it is still the lease owner |
| `ExecutorRuns.CancelledExternalMayStillRecord` | cope/control/runner.py:168-184 | this happens: a reachable cancelled state with an external step not done, and the event that records its success |
| `ExecutorRuns.NoDeadlock` | cope/control/runner.py:82-97 | every open operation has a step that a fresh runner can claim once its delay and any lease are over |
| `ExecutorRuns.CanAlwaysSucceed` | cope/control/runner.py:82-140 | from every state of an operation that is not cancelled some run reaches succeeded |
| `ExecutorRuns.ResumeNeverMeetsALease` | cope/control/operations.py:210-214 | the lease check of resume never refuses: a resumable operation holds no lease |
| `ExecutorRuns.FailedStrandsExactlyRunningRows` | cope/control/runner.py:129-132 | in a failed operation the steps that could still run are exactly those whose row says running |
| `ExecutorRuns.FailedCanStrandARunningRow` | cope/control/runner.py:129-132 | this happens: a run in which a crashed step stays eligible in a failed operation |
| `ExecutorEvents.CreatedIsPending` | cope/control/operations.py:109-148 | what a created operation and its steps say, field by field |
| `ExecutorEvents.LiveLeaseExcludes` | cope/control/runner.py:88 | while a lease runs, up to and including its last second, nobody can claim the operation |
| `ExecutorEvents.LeaseLasts` | cope/control/runner.py:55-120 | the owner of a lease stays the owner through every run in which the clock does not pass the lease and the owner commits no outcome or error |
| `ExecutorEvents.ReachableBounded` | cope/control/runner.py:101 | in every reachable state a lease ends within 90 seconds |
| `ExecutorEvents.HeartbeatProlongs` | cope/control/runner.py:59-62 | a renewal by the owner sets the lease 90 seconds ahead, never less than it was, and touches nothing else |
| `ExecutorEvents.ClaimTakesTheFirst` | cope/control/runner.py:82-117 | when a claim can be made, in terms of the rows alone, and all that it changes: the first step that may start, its attempt and the lease |
| `ExecutorEvents.LetOnOnlyWithALease` | cope/control/runner.py:70-79 | a runner is let on only as the owner of a live lease on an operation that is not cancelled |
| `ExecutorEvents.LetOnWithALease` | cope/control/runner.py:70-79 | and is let on if it is, nobody holding the row |
| `ExecutorEvents.LockedRowsStay` | cope/control/runner.py:159-168 | while one runner is let on, only its own commit changes the rows |
| `ExecutorEvents.RecordKeepsTheOutcome` | cope/control/runner.py:168-184 | the committed result, error, status and retry delay are those of the outcome |
| `ExecutorEvents.ErrorIsKept` | cope/control/runner.py:186-216 | an error is written into the step and, when it waits, with its delay |
| `ExecutorEvents.ReleasedSaysWhatIsLeft` | cope/control/runner.py:123-140 | what an operation says once its lease is given back: its status by what is left to do, its error that of the first failed or waiting step with one |
| `ExecutorEvents.ResultIsKept` | cope/control/runner.py:175-178 | through every run the result of a committed success stays as it was |
| `ExecutorEvents.DelayIsKept` | cope/control/runner.py:104-113 | through every run a delayed step is not started before its time unless the operation is resumed |
| `ExecutorEvents.CancelMarks` | cope/control/operations.py:195-205 | what a cancel does to operation and steps |
| `ExecutorEvents.ResumeReopens` | cope/control/operations.py:210-226 | a resume goes through exactly for a planned, failed or waiting operation, and lets every step that is not done start at once |
| `Operations.RunLeads` | cope/control/runner.py:82-224 | every run over many operations is, for each one of them, a run of that operation alone |
| `Operations.EveryOperationIsReachable` | cope/control/runner.py:82-224 | however many operations interleave, each is always in a state it could have reached alone, so all that is proved of reachable states holds for every one |
| `Operations.OneOperationPerKey` | cope/control/operations.py:125-140 | over every run an actor's key has made exactly one operation, and every operation was made by one key |
| `Operations.RetriedCreation` | cope/control/operations.py:125-140 | after any further run the same plan under the key is answered with the same operation, any other plan is refused, and nothing changes |
| `Operations.Registry.CreateOperation` | cope/control/operations.py:109-148 | inserts operation and step rows unless the actor's key is in use, and then answers or refuses |
| `Laplacian.Symmetric` | cope/rating_bounds.py:35-38 | the matrix built from games is symmetric |
| `Laplacian.RowSumsAreZero` | cope/rating_bounds.py:35-38 | it sends a constant vector to zero |
| `Laplacian.FormIsEnergy` | cope/rating_bounds.py:35-38 | its quadratic form is the sum over games of weight times the squared difference of the two engines |
| `Laplacian.EnergyNonNegative` | cope/rating_bounds.py:71-75 | with weights that are not negative the form is not negative |
| `Laplacian.ZeroEnergyIsConstant` | cope/rating_bounds.py:35-38 | with positive weights a zero form forces equal values across every game |
| `Laplacian.ReducedFormIsEnergy` | cope/rating_bounds.py:91-94 | the form of the reduced matrix is that of the vector extended by zeros |
| `Laplacian.ReducedKernelIsTrivial` | cope/rating_bounds.py:77-97 | the reduced matrix sends only the zero vector to zero when all its rows are reachable from the fixed engine |
| `Laplacian.ReducedFormNonNegative` | cope/rating_bounds.py:71-97 | with weights that are not negative the form of the reduced matrix is not negative |
| `Covariance.SandwichForm` | cope/rating_bounds.py:97 | the form of B N B-transposed is that of N at the vector carried through B |
| `Covariance.ExtendedForm` | cope/rating_bounds.py:98-99 | rows and columns of zeros for the other engines change no form |
| `Covariance.VariancesNeverNegative` | cope/rating_bounds.py:97-107 | with an anchor, or centred without one, no diagonal entry of the covariance is negative, whatever matrix is taken for the inverse |
| `Pairing.PairsAreMaximal` | cope/rating_bounds.py:44-53 | the pairs of a key are as many as its scarcer side, the i-th white game paired with the i-th black one |
| `Pairing.RecordedIsPlayed` | cope/rating_bounds.py:41-49 | everything recorded in the pass is a single game without an opening, or a pair of two games of one tournament and opening with the sides reversed |
| `Pairing.QueueStep` | cope/rating_bounds.py:45-53 | the two queues of a key are the surplus of one side, never both filled, and a partner waits exactly if the game completes a pair |
| `Pairing.TallyCounts` | cope/rating_bounds.py:42-49 | a frequency list counts how often each score was recorded and is zero beyond the scores its length allows |
| `Pairing.BucketsConserveGames` | cope/rating_bounds.py:60-62 | after truncation, length times count summed over the buckets is the number of games recorded |
| `RatingBounds.AddWeight` | cope/rating_bounds.py:35-38 | the four updates of one game change the matrix by exactly its contribution |
| `RatingBounds.Meet` | cope/rating_bounds.py:35-40 | matrix and neighbour sets take in one game |
| `RatingBounds.Pair` | cope/rating_bounds.py:41-53 | a game is recorded single, completes a pair or waits, and all games stay accounted for |
| `RatingBounds.Collect` | cope/rating_bounds.py:24-53 | after the pass, matrix, graph, queues and lists stand for exactly the accepted games |
| `RatingBounds.Flush` | cope/rating_bounds.py:55-58 | the games still waiting are recorded as singles, key by key in any order |
| `RatingBounds.LeftoversWeigh` | cope/rating_bounds.py:55-58 | what is flushed is exactly what waited |
| `RatingBounds.LeftoverMarks` | cope/rating_bounds.py:55-58 | each waiting game becomes a single one, on the side of its queue and in order |
| `RatingBounds.AcceptedMeans` | cope/rating_bounds.py:25-31 | which games are taken, their engines in ascending order, who was white, and the score of the first |
| `RatingBounds.MeetingsJoin` | cope/rating_bounds.py:24-31 | the games are taken one by one, in order |
| `RatingBounds.MeetingOfOne` | cope/rating_bounds.py:24-31 | and one game gives one meeting if it is taken, and none if not |
| `RatingBounds.GameWeighs` | cope/rating_bounds.py:33-34 | the information in a game is p(1-p), with p the expected score of the first engine |
| `EloCurve.LeadIsLimited` | cope/rating_bounds.py:33 | the expected score is that of the rating difference within 4000 points |
| `EloCurve.AnchorIsFixed` | cope/ratings.py:532-536 | the anchor is fixed, or without one the first engine |
| `RatingBounds.EdgesArePositive` | cope/rating_bounds.py:33-38 | every game has a positive weight, because expected scores lie strictly between 0 and 1 |
| `RatingBounds.Component` | cope/rating_bounds.py:78-84 | the frontier search finds exactly the engines reachable from the fixed one |
| `RatingBounds.Adjustable` | cope/rating_bounds.py:88-89 | the rows solved for are the component in ascending order without the fixed engine |
| `RatingBounds.InformationIsInvertible` | cope/rating_bounds.py:91-96 | for all games, ratings and anchors the reduced information matrix has a trivial kernel |
| `RatingBounds.VarianceNonNegative` | cope/rating_bounds.py:64-70 | the variance of a bucket is never negative |
| `RatingBounds.VarianceIsLeast` | cope/rating_bounds.py:66-70 | for a bucket without exactly one entry the variance times the total weight is the least weighted squared error, attained at one value and no more than that of any real number, with a weight of a thousandth for scores never seen |
| `RatingBounds.SingleVariance` | cope/rating_bounds.py:64-65 | for one entry it is length times p(1-p) |
| `Margins.CountGames` | cope/rating_bounds.py:24-58 | the frequency lists hold the recorded pairs and singles of all accepted games, and no game is lost or counted twice |
| `Margins.Noise` | cope/rating_bounds.py:60-75 | the noise matrix adds count times variance of every bucket once, in any order |
| `Margins.NoiseIsNonNegative` | cope/rating_bounds.py:63-71 | every noise weight is nonnegative and belongs to two different engines |
| `Margins.NoiseOfMany` | cope/rating_bounds.py:60-75 | what a bucket adds to the noise: its count times the least mean squared error of the scores its length allows |
| `Margins.NoiseOfOne` | cope/rating_bounds.py:60-75 | and with one entry its length times p(1-p) |
| `Margins.PairedSystem` | cope/rating_bounds.py:9-94 | the information matrix of all accepted games, the noise matrix of exactly the buckets they fill, and the rows solved for; nothing is solved exactly if there is no anchor and some engine is out of reach |
| `Margins.RatingVarianceNonNegative` | cope/rating_bounds.py:60-107 | for the noise of any frequency lists the variance whose root is taken is never negative, so the guard before the root changes nothing |
| `Pruning.Excluded` | cope/ratings.py:599-619 | one pass excludes exactly the engines without points or with all points |
| `Pruning.Filtered` | cope/ratings.py:622-627 | keeps exactly the games without an excluded engine |
| `Pruning.TwoHalves` | cope/ratings.py:601-614 | a game gives white what it scored and black the rest, two half points in all |
| `Pruning.RatedExactlyWhen` | cope/ratings.py:601-619 | an engine can be rated exactly if it gained something in some game and conceded something in some game |
| `Pruning.InducedMonotone` | cope/ratings.py:596-628 | playing among more engines never lowers points won or points lost |
| `Pruning.CalculableGames` | cope/ratings.py:596-628 | terminates with the games among the greatest self-sustaining set of engines |
| `Pruning.ScoresUnordered` | cope/ratings.py:601-614 | scores and counts among a set do not depend on the order of the games |
| `Pruning.SurvivorsUnordered` | cope/ratings.py:596-628 | the surviving engines do not depend on the order of the games |
| `Elo.AddMeeting` | cope/ratings.py:522-527 | one more meeting in the pair counts |
| `Elo.Collect` | cope/ratings.py:509-543 | scores, game counts and pair counts of the games; the scores sum to the number of games |
| `Elo.PairingsKeepExpected` | cope/ratings.py:540-553 | grouping games into pairings changes no expected total |
| `Elo.AddExpected` | cope/ratings.py:547-553 | a pairing adds its count in expected points, divided between its engines |
| `Elo.AddInformation` | cope/ratings.py:554-557 | a pairing adds count times p(1-p) to both engines, and nothing for an engine against itself |
| `Elo.Evaluate` | cope/ratings.py:545-557 | expected totals and information of every engine; the expected totals sum to the number of games for any ratings |
| `Elo.LargestAdjustment` | cope/ratings.py:559-567 | the test passes exactly if every engine but the fixed one has converged |
| `Elo.ConvergedExactlyWhen` | cope/ratings.py:564-567 | an engine has converged exactly if 400 times its residual is below a millionth of its games, either way |
| `Elo.InformationPositive` | cope/ratings.py:554-557 | information is never negative, and positive exactly for engines with an entry against another |
| `Elo.RoundMovesTowardTheScore` | cope/ratings.py:559-576 | a round moves every engine but the fixed one that has met another strictly toward the score it made, by at most 400 points, and leaves an engine that scores as expected |
| `Elo.RoundIsHalfNewton` | cope/ratings.py:559-576 | where the residual is at most 800 times the slope, twice slope times move is the residual; beyond that the move is 400 points |
| `Elo.RoundsFollow` | cope/ratings.py:544-576 | the rounds start from zero, and from each to the next every engine that met another moves toward its score, the fixed one staying at zero |
| `Elo.ResidualIs` | cope/ratings.py:559-563 | the residual is what an engine scored less what it was expected to score |
| `Elo.OnePointIsShared` | cope/ratings.py:545-553 | a game shares out one expected point between its engines |
| `Elo.Adjust` | cope/ratings.py:568-576 | every engine but the fixed one makes exactly the limited half Newton step; without information it stays |
| `Elo.ResidualsAddToZero` | cope/ratings.py:545-563 | in every round the residuals sum to zero |
| `Elo.ZeroSumBalances` | cope/ratings.py:559-567 | hence the untested residual of the fixed engine is below the bound of all others together |
| `Elo.Turn` | cope/ratings.py:544-576 | one turn tests the current ratings, and otherwise computes the next round |
| `Elo.Iterate` | cope/ratings.py:529-578 | returns the first of 100000 rounds that settles, with the fixed engine at zero, and fails exactly if none does |
| `Elo.ShiftKeepsResiduals` | cope/ratings.py:580-588 | adding one offset to all ratings changes no residual |
| `Elo.Offset` | cope/ratings.py:580-583 | the offset puts the anchor on its Elo, or the mean on 1500 |
| `Elo.Rate` | cope/ratings.py:529-592 | before rounding the anchor has exactly its Elo, or the mean is exactly 1500, and the residual of the fixed engine obeys the bound |
| `EloRatings.IndexGames` | cope/ratings.py:499-527 | engines are replaced by their places in the ascending list |
| `EloRatings.RenamedScores` | cope/ratings.py:509-527 | and keep their scores and game counts |
| `EloRatings.SurvivingAnchorIsFixed` | cope/ratings.py:529-536 | the anchor is the fixed engine if it survives |
| `EloRatings.CalculateTogether` | cope/ratings.py:482-593 | rates exactly the surviving engines with the residual bound for every one of them; fails exactly for an anchor that did not play, and as unstable exactly if the survivors never settle |
| `EloRatings.RatingsAreDetermined` | cope/ratings.py:482-593 | what is promised of the ratings leaves nothing open: games, anchor and curve determine them |
| `Replay.SelectIsSlice` | cope/application/views.py:153-157 | the rows selected between two positions are one contiguous stretch of the log |
| `Replay.NothingLostBeyond` | cope/application/views.py:136-138 | beyond a position the log still vouches for nothing has been trimmed |
| `Replay.BatchIsNextStretch` | cope/application/views.py:150-165 | a successful batch is the next stretch of all history after its checkpoint, and its token stands at its end |
| `Replay.NoGapStep` | cope/application/views.py:127-165 | appends, trims, ticks, snapshots and batches keep the replay free of gaps |
| `Replay.ReplayHasNoGaps` | cope/application/views.py:143-165 | over every run from the empty log, with trims and restores, the scanned events are exactly those between the snapshot and the checkpoint, in order, each once |
| `Replay.RestoreForcesRebase` | cope/application/views.py:132-135 | a token from before a restore gets an error and nothing else |
| `Replay.OutlivedUntilSnapshot` | cope/application/views.py:132-135 | and that stays so, with what was scanned, through every run without a new snapshot |
| `Replay.HasMoreIsExact` | cope/application/views.py:162-165 | has_more is false exactly when the checkpoint has reached the tail |
| `Replay.BatchFailsExactlyWhen` | cope/application/views.py:108-158 | the three failures: a log trimmed past its tail, a token that is no longer good (trimming past the checkpoint included), and an unreadable event among the next 500 of the history |
| `Replay.BatchMakesProgress` | cope/application/views.py:153-165 | a batch takes the next 500 events or all that are left, and moves on whenever there are more |
| `Replay.SealedTokens` | cope/application/views.py:99-148 | what a token says: the tail for a snapshot, the end of its stretch for a batch, good for 900 seconds; a snapshot is refused exactly if the log is trimmed past its tail |
| `Replay.TokenServesExactlyWhile` | cope/application/views.py:127-141 | through every run without a restore, a batch asks for a new snapshot exactly if the log was trimmed past the token or 900 seconds have gone by |
| `Replay.CatchesUp` | cope/application/views.py:150-165 | a client that keeps asking reaches the tail with everything scanned, in as many batches as 500 go into what is left |
| `Replay.AnyTime` | cope/application/views.py:99-106 | time passes and snapshots and batches are asked for at any time, and an event comes in exactly beyond the tail |
| `Replay.EveryLogHappens` | cope/application/views.py:153-157 | every increasing log comes about in some run |
| `CommandService.Service.Execute` | cope/application/commands.py:60-114 | one call does what the transaction function says, error by error in the order of the checks |
| `CommandService.Service.Handle` | cope/application/commands.py:98-114 | handler, receipt, outbox row and projection commit together or not at all |
| `CommandService.Service.ExecuteCompatibility` | cope/application/commands.py:117-130 | an old route supplies the current version, or the one its key already used |
| `CommandRuns.ApplyInv` | cope/application/commands.py:60-130 | every call, old-route call and foreign transaction keeps receipts, outbox and executions in correspondence |
| `CommandRuns.NewCallSucceedsExactlyWhen` | cope/application/commands.py:60-114 | a call under a new key succeeds exactly if the actor may, the request fits, its target is at the expected version, and what the handler returns is about an object that is there in the end; otherwise nothing changes |
| `CommandRuns.NewCallKeepsTheWork` | cope/application/commands.py:98-114 | and then rows and versions are exactly those the handler left, with one receipt of it and one outbox row |
| `CommandRuns.RetriedAtOnce` | cope/application/commands.py:75-94 | the same request made again at once is answered with that receipt, its target still resolving |
| `CommandRuns.RefusedFor` | cope/application/commands.py:60-74 | why a call under a new key is refused, in the order of the checks |
| `CommandRuns.FittingRefusedFor` | cope/application/commands.py:75-103 | and why one that fits is: no such target, another version, or the handler |
| `CommandRuns.OldRouteIsUpToDate` | cope/application/commands.py:117-130 | an old route under a new key is never refused for its version |
| `CommandRuns.ExactlyOnce` | cope/application/commands.py:85-113 | in every reachable state executions, receipts and outbox rows correspond one to one, one of each per actor and key |
| `CommandRuns.UsedKeyIsInert` | cope/application/commands.py:85-94 | under a used key nothing changes; the stored receipt is shown exactly to the same request by an actor who still may, while target and object exist |
| `CommandRuns.RetryReturnsTheReceipt` | cope/application/commands.py:75-94 | a retry after any further run returns the same receipt although the version moved on, unless scope, target or object is gone |
| `CommandRuns.RetryCanBeForbidden` | cope/application/commands.py:61-65 | a request that was answered, an actor that loses its grants, and the same request refused |
| `CommandRuns.NoLostUpdate` | cope/application/commands.py:95-97 | two versioned executions on one object and channel were based on different, rising versions, each exactly the one it found |
| `CommandRuns.CompatibilityReproducesTheFingerprint` | cope/application/commands.py:117-130 | an old route under a used key is answered exactly if command, fields and target are those of the receipt |
| `Selection.ClosureIsLeast` | cope/environment_clone.py:358-364 | the closure is the least set with the request that is closed under dependencies and companions |
| `Selection.SelectionIsTheOrderedClosure` | cope/environment_clone.py:350-382 | the result lists the closure, each dataset once and after its dependencies; it fails exactly for a dependency cycle in the closure |
| `Selection.BadRequests` | cope/environment_clone.py:351-357 | unknown and unportable keys are refused first |
| `Selection.LeastIsNamed` | cope/environment_clone.py:351-357 | the error names the least unknown, or else the least unportable key |
| `Selection.ExpansionIsIdempotent` | cope/environment_clone.py:350-382 | expanding a result again gives the same sequence exactly if everything it drew in is portable |
| `Selection.ManifestRoundTrip` | cope/environment_clone.py:1362-1366 | a manifest made for a stored selection is accepted exactly if everything in the closure is portable |
| `Selection.PortableCataloguesRoundTrip` | cope/environment_clone.py:350-382 | where nothing portable names anything that is not, every accepted expansion repeats itself and its manifest is accepted |
| `Selection.ExpansionsRepeatExactlyWhen` | cope/environment_clone.py:353-357 | without dependency cycles, all accepted expansions repeat themselves exactly in such catalogues |
| `Selection.SecondExpansionCanBeRefused` | cope/environment_clone.py:353-357 | a catalogue outside the condition, with an expansion that is refused when asked for |
| `Selection.ExpandedSelection` | cope/environment_clone.py:350-382 | the program computes that function of the set of keys, for any order and repetition of the request |
| `Selection.Expand` | cope/environment_clone.py:358-364 | the worklist computes the least closed set, in whatever order keys are taken |
| `Selection.Arrange` | cope/environment_clone.py:379-382 | the loop over the declarations visits what is selected |
| `Selection.VisitDataset` | cope/environment_clone.py:368-377 | the nested visit appends a dataset after its dependencies or reports the key at which a cycle closes |
| `Journal.AuthorityStore.Records` | cope/execution/authority_store.py:156-190 | accepts exactly a directory with few enough entries, no strange names and the files of an accepted journal, and returns that journal |
| `Journal.AuthorityStore.ReadFiles` | cope/execution/authority_store.py:162-190 | reading in name order accepts exactly the files of an accepted journal |
| `Journal.AuthorityStore.ReadFile` | cope/execution/authority_store.py:166-189 | one file extends the journal read so far, or shows that no journal is stored here |
| `Journal.AuthorityStore.Fits` | cope/execution/authority_store.py:168-186 | the checks on one file |
| `Journal.AuthorityStore.Append` | cope/execution/authority_store.py:192-213 | an undisturbed append adds one final file, or nothing when the record is invalid or its number is taken, and leaves no temporary file |
| `JournalRuns.UndisturbedAppend` | cope/execution/authority_store.py:192-213 | the single file operations of an appender add up to that append |
| `JournalRuns.AppendedExactlyWhen` | cope/execution/authority_store.py:192-213 | an undisturbed append files its record exactly if the record is sane and its number is not taken |
| `JournalRuns.AppendWritesTheRequest` | cope/execution/authority_store.py:192-197 | that record has the next number, the words of the request and a link to the last record shown |
| `JournalRuns.LinkFilesTheRecord` | cope/execution/authority_store.py:207-208 | a link files the written record under its number and last in the journal, if the number is free |
| `JournalRuns.FaultedCannotLink` | cope/execution/authority_store.py:199-212 | an appender that failed to write can only remove its temporary file |
| `JournalRuns.LinkNeedsFreshView` | cope/execution/authority_store.py:207-208 | a link succeeds exactly if the appender was shown the whole journal; a stale view changes no file |
| `JournalRuns.ApplyInv` | cope/execution/authority_store.py:192-213 | every file operation, fault and crash of any number of appenders keeps the chain |
| `JournalRuns.AppendOnly` | cope/execution/authority_store.py:207-212 | no event alters or removes an earlier record |
| `JournalRuns.AcceptedExactlyWhen` | cope/execution/authority_store.py:156-190 | after any run the journal is accepted exactly if its records name one database and records with leftovers stay within 4224 entries; 128 leftovers never matter |
| `JournalRuns.AcceptedExactlyMeans` | cope/execution/authority_store.py:156-190 | which lists of records are accepted, field by field and with the limits in numbers |
| `JournalRuns.CrashesLeaveFiles` | cope/execution/authority_store.py:199-212 | any number of crashes between writing and linking leaves as many temporary files |
| `JournalRuns.LeftoversCanBlockTheJournal` | cope/execution/authority_store.py:159-161 | so that even an empty journal can come to be refused |
| `JournalRuns.AppendedIsReadableExactlyWhen` | cope/execution/authority_store.py:182-197 | after an append the journal is accepted exactly if it was empty or the record names the same database |
| `JournalRuns.AppendCanSpoilTheJournal` | cope/execution/authority_store.py:182-197 | a readable journal and an append that succeeds and leaves it unreadable |
| `JournalRuns.GuardedKeepsOneDatabase` | cope/execution/bootstrap.py:85-98 | with the check of the caller every run keeps to one database, even from two stale empty views |
| `JournalRuns.AcceptedIsUniform` | cope/execution/authority_store.py:39-47 | an accepted journal is numbered from 1, has one installation and database, distinct incarnations, and only evidenced restores after the first record |
| `JournalRuns.HeadDigestFixesTheJournal` | cope/execution/authority_store.py:49-50 | two accepted journals with equal head digests are identical, or the digest has collided on two of their records |
| `Paths.PathAcceptedExactlyWhen` | cope/engine_artifacts.py:319-328 | accepts exactly proper names below the root and the single dot, unchanged |
| `Paths.LinkResolvesByWalk` | cope/engine_artifacts.py:331-335 | a link leads where its walk ends, and nowhere exactly if its target is malformed or the walk climbs above the root |
| `Paths.WalkFailsAboveRoot` | cope/engine_artifacts.py:331-335 | the walk fails exactly if some stretch of it from the start has more steps up than down |
| `Paths.BoundedAcceptsExactly` | cope/execution/artifact_validation.py:123-126 | the strict policy accepts exactly printable proper names |
| `Paths.BoundedLinkPassesExactlyWhen` | cope/execution/artifact_validation.py:148-149 | a link passes exactly if its walk stays below the root throughout and does not end at the root |
| `Chains.CycleNeverEnds` | cope/execution/artifact_validation.py:182-190 | a chain that comes back to a place passes only links however far it is followed |
| `Chains.StuckNeverEnds` | cope/execution/artifact_validation.py:182-190 | a chain that cycles or dangles has no end |
| `Chains.EndIsUnique` | cope/execution/artifact_validation.py:182-190 | a chain has at most one end |
| `LinkGraph.FollowLinks` | cope/execution/artifact_validation.py:182-190 | terminates for every graph, with the end of the chain, or with none exactly if it cycles or reaches an absent name |
| `LinkGraph.ValidateEntrypoint` | cope/engine_artifacts.py:297-316 | accepts exactly if the chain of the entrypoint ends at an executable regular file |
| `LinkGraph.ExecutableDigits` | cope/engine_artifacts.py:315 | a mode is executable exactly if the digit of owner, group or others is odd |
| `LinkGraph.CheckParents` | cope/execution/artifact_validation.py:177-181 | accepts exactly if no present ancestor is anything but a directory |
| `LinkGraph.CheckMember` | cope/execution/artifact_validation.py:176-190 | both checks on one member |
| `LinkGraph.CheckGraph` | cope/execution/artifact_validation.py:176-190 | accepts exactly if every chain ends at a present entry and nothing lies below a non-directory |
| `Archive.ReadMembers` | cope/engine_artifacts.py:85-101 | the pass accepts exactly distinct members that each pass, within the size limit, and maps their names |
| `Archive.ObserveMembers` | cope/engine_artifacts.py:132-136 | the metadata of every member but the manifest, in order |
| `Archive.ValidateArtifactArchive` | cope/engine_artifacts.py:73-140 | accepts exactly the archives that meet the stated conditions and returns their manifest |
| `Archive.ValidateArchive` | cope/execution/artifact_validation.py:19-191 | the same for the strict validator with its manifest schema, on the members it is given |
| `Archive.AcceptedIsListed` | cope/engine_artifacts.py:131-137 | an archive accepted by either validator holds exactly what its manifest lists, in order: names, kinds, permissions, sizes, digests and targets |
| `Archive.DigestsAreListed` | cope/engine_artifacts.py:281-294 | every file but the manifest is listed with its digest beside its name |
| `Archive.ManifestFixesContents` | cope/execution/artifact_validation.py:163-174 | two archives accepted with one manifest, by either validator, have the same contents |
| `Archive.AcceptedInsteadExactlyWhen` | cope/engine_artifacts.py:131-137 | and an archive that passes all other checks is accepted in place of an accepted one exactly if it has the same contents |
| `Archive.AcceptedMeans` | cope/engine_artifacts.py:104-130 | format, platform, build and entrypoint of an accepted archive are those asked for, and nothing in it is special or the marker |
| `Archive.StrictIsStricter` | cope/execution/artifact_validation.py:129-191 | what the strict validator accepts the other accepts too, with proper names, ending chains and no entry below a non-directory |
| `Archive.OnlyStrictlyRefusedLinks` | cope/execution/artifact_validation.py:123-151 | of links with names and targets fit for both validators the strict one alone refuses exactly those that end at the root or at a name past the limits |
| `Archive.RootLinkIsOnlyStrictlyRefused` | cope/engine_artifacts.py:319-335 | such a link: its target is a single dot |
| `ArchiveTree.EntriesAreListable` | cope/engine_artifacts.py:203-220 | the entries of every directory tree have proper, pairwise distinct names, every directory before what it holds |
| `ArchiveTree.EntriesAreInPreorder` | cope/engine_artifacts.py:206-217 | every ancestor of an entry is a directory listed earlier |
| `ArchiveTree.CreatedUnderFolders` | cope/engine_artifacts.py:203-220 | nothing in a created archive lies below a non-directory |
| `ArchiveTree.RoundTrip` | cope/engine_artifacts.py:23-70 | a created archive is accepted with its own manifest exactly if it is within the limits and the chain of its entrypoint ends at an executable regular file |
| `ArchiveTree.RefusedForItsMode` | cope/engine_artifacts.py:30-36 | every archive created with a regular entrypoint without an execute bit is refused |
| `ArchiveTree.RefusedForItsName` | cope/engine_artifacts.py:30-36 | every archive created with an entrypoint that is no entry's name is refused |
| `ArchiveTree.PlainFileIsArchivedThenRefused` | cope/engine_artifacts.py:30-36 | a tree of one file that nobody may execute is archived and then refused |
| `ArchiveTree.LinkedFolderIsArchivedThenRefused` | cope/engine_artifacts.py:30-36 | a tree whose entrypoint goes through a link to a directory is archived and then refused |
| `ArchiveTree.StrictRoundTrip` | cope/execution/artifact_validation.py:19-191 | the strict validator accepts it exactly if moreover the manifest fits its schema, names and links satisfy the policy and every chain ends |
| `FileTree.NeverLeaves` | cope/engine_artifacts.py:237-240 | in a tree of tidy links no lookup leads out of the tree, whatever links it goes through |
| `FileTree.NamesFollow` | cope/engine_artifacts.py:297-316 | when a lookup finds a file, following names comes to an executable file exactly if the lookup did not stray and the file is executable |
| `FileTree.TidyTreeIsArchivedExactlyWhen` | cope/engine_artifacts.py:23-38 | a tidy tree is archived exactly if its names are acceptable, it has no special file and the file system finds a file at the entrypoint |
| `FileTree.TidyTreeRoundTrip` | cope/engine_artifacts.py:23-140 | what was archived is accepted exactly if it is within the limits, the file found is executable, and finding it went through no link in the middle of a path and into no name that is not archived |
| `FileTree.TidyTreeStrictRoundTrip` | cope/execution/artifact_validation.py:19-191 | the strict validator asks the same of the entrypoint of a tidy tree |
| `FileTree.StrayingIsArchivedThenRefused` | cope/engine_artifacts.py:30-36 | every tidy tree with an executable entrypoint whose lookup strays is archived and then refused |
| `FileTree.StrayingTreeExists` | cope/engine_artifacts.py:30-36 | and there is such a tree |
| `BenchmarkStore.Store.ScheduleBenchmarkJobs` | cope/db/benchmarks.py:334-366 | queues every build that has no job on the hardware yet, skips worker-local ones, and counts what it added |
| `BenchmarkStore.Store.ClaimBenchmarkJob` | cope/db/benchmarks.py:369-405 | of the waiting jobs that are neither locked nor held back gives out the one scheduled first, the lower number breaking ties, and none exactly if there is none |
| `BenchmarkStore.Store.CompleteBenchmarkJob` | cope/db/benchmarks.py:444-494 | records result and success, and drops failed jobs of the engine or build |
| `BenchmarkStore.Store.FailBenchmarkJob` | cope/db/benchmarks.py:497-515 | fails exactly the active job of this benchmarker |
| `BenchmarkStore.Store.RecordManualBenchmark` | cope/db/benchmarks.py:648-756 | all checks in order, then a result that replaces whatever the profile had, and the number of its job |
| `BenchmarkStore.Store.StoreManual` | cope/db/benchmarks.py:694-756 | the statements after the checks; a violated key would undo them |
| `BenchmarkStore.Store.ForgetEngineBenchmarks` | cope/db/benchmarks.py:759-786 | removes jobs and results of a build that is not running, and counts its jobs |
| `BenchmarkStore.Store.ForgetFailedBenchmarkJob` | cope/db/benchmarks.py:789-798 | removes exactly a failed job |
| `BenchmarkStore.Store.RescheduleEngineBenchmarks` | cope/db/benchmarks.py:801-871 | drops failed jobs, requeues the rest without results, schedules on all hardware in use, and returns how many jobs the build then has |
| `BenchmarkStore.Store.ResetBuild` | cope/db/benchmarks.py:823-858 | the statements before new jobs are scheduled |
| `BenchmarkStore.Store.ForgetBenchmarkerRow` | cope/db/benchmarks.py:252-274 | requeues what the benchmarker was running and forgets it |
| `BenchmarkStore.Store.ResetBenchmarkServiceState` | cope/db/benchmarks.py:312-331 | fails whatever was running and sets the benchmarkers that were present offline |
| `BenchmarkRuns.ApplyInv` | cope/db/benchmarks.py:252-871 | every operation keeps one job per profile, every result with its succeeded job, and every succeeded job with its result but for jobs an import brings in |
| `BenchmarkRuns.ResultsMatchJobs` | cope/db/benchmarks.py:252-871 | over every run a result carries the number of its profile's succeeded job, and a succeeded job without a result is one that was imported; so without imports a result exists exactly for a succeeded job |
| `BenchmarkRuns.ImportMatchesExactlyWhen` | cope/environment_clone.py:79-81 | an import of jobs keeps matched tables matched exactly if it is refused or brings in no succeeded job |
| `BenchmarkRuns.ImportCanLeaveAJobBare` | cope/environment_clone.py:79-81 | from empty tables, an import of jobs alone that leaves a succeeded job without a result |
| `BenchmarkRuns.CloneOfBothMatches` | cope/environment_clone.py:1582-1617 | a clone of jobs and results from matched tables leaves the tables matched here |
| `BenchmarkRuns.CompletionRecords` | cope/db/benchmarks.py:444-494 | a completion never meets its conflict clause: it records exactly what was measured and touches no other result |
| `BenchmarkRuns.ManualNeverViolates` | cope/db/benchmarks.py:685-748 | the manual insert never violates uniqueness, and succeeds exactly if the checks pass |
| `BenchmarkRuns.ResultsArePermanent` | cope/db/benchmarks.py:312-871 | a result stays until its own build is measured by hand, forgotten or rescheduled |
| `BenchmarkRuns.RescheduleStartsAfresh` | cope/db/benchmarks.py:801-871 | afterwards the build has no result, only queued jobs, one on every hardware in use; of other builds exactly the failed jobs of the same engine are gone, and nothing else has changed |
| `BenchmarkRuns.DeletesNeverDangle` | cope/db/schema.sql:790-804 | no delete of jobs ever meets a result that refers to one of them, and every result keeps a job of its own |
| `BenchmarkEvents.ScheduledHaveJobs` | cope/db/benchmarks.py:334-366 | after scheduling every listed build that is not worker-local has a job on the hardware; the new jobs are queued and untried, for profiles that had none, and no job changed |
| `BenchmarkEvents.NextIsEarliest` | cope/db/benchmarks.py:369-390 | the job given out is queued on the hardware, free, and scheduled no later than any other such job |
| `BenchmarkEvents.ClaimedIsActive` | cope/db/benchmarks.py:391-405 | a claimed job runs for its benchmarker, who can then fail it under its key and nobody else can |
| `BenchmarkEvents.CompletedOnlyInHand` | cope/db/benchmarks.py:444-460 | a completion is accepted exactly from the benchmarker that has the job in hand |
| `BenchmarkEvents.CompletedIsMeasured` | cope/db/benchmarks.py:444-494 | a completed job has succeeded and its profile has what was measured |
| `BenchmarkEvents.FailedIsFailed` | cope/db/benchmarks.py:497-515 | a job failed by the benchmarker that has it in hand is failed, and nothing else changes |
| `BenchmarkEvents.ManualIsStored` | cope/db/benchmarks.py:648-756 | when a manual result is stored, and the job and result it leaves |
| `BenchmarkEvents.ForgottenIsGone` | cope/db/benchmarks.py:759-786 | a build that is not running loses all jobs and results, others nothing |
| `BenchmarkEvents.ForgottenAreCounted` | cope/db/benchmarks.py:759-786 | the number returned is that of the jobs that are gone |
| `BenchmarkEvents.ForgottenJobHadFailed` | cope/db/benchmarks.py:789-798 | exactly a failed job can be forgotten |
| `BenchmarkEvents.RescheduledUnlessRunning` | cope/db/benchmarks.py:801-822 | a reschedule is refused exactly for worker-local and running builds |
| `BenchmarkEvents.RescheduledJobsAreRequeued` | cope/db/benchmarks.py:823-858 | of the build's own jobs those that had failed are gone, and the rest queued again as of now |
| `BenchmarkEvents.ForgottenBenchmarkerLeaves` | cope/db/benchmarks.py:252-274 | what a benchmarker was running is queued again, and the benchmarker is gone |
| `BenchmarkEvents.RestartStopsEverything` | cope/db/benchmarks.py:312-331 | after a restart nothing runs and nobody is present |
| `BenchmarkEvents.ImportedJobsAreFinished` | cope/environment_clone.py:1582-1617 | no imported job is waiting or running |
| `BenchmarkEvents.ImportRefusedExactlyWhen` | cope/environment_clone.py:1648-1708 | when an import of jobs is refused |
| `BenchmarkEvents.ImportedResultsKeepTheKeys` | cope/environment_clone.py:1648-1708 | an import of results adds all of them, or nothing exactly if one differs from what is here or breaks a key |
| `BenchmarkEvents.CanBeMeasured` | cope/db/benchmarks.py:334-494 | a build without a job can be scheduled, claimed and measured |
| `Download.Target.DownloadRemoteFile` | cope/environment_clone.py:1980-2048 | one attempt does what the attempt function says to destination and partial file |
| `Download.Target.Receive` | cope/environment_clone.py:2014-2048 | the response is appended or replaces the partial file, within the declared size, and is moved into place only when it checks out |
| `Download.AttemptIsSafe` | cope/environment_clone.py:1990-2048 | success means the destination has the declared size and digest, failure leaves no destination, and no partial file exceeds the declared size |
| `Download.TransferKeeps` | cope/environment_clone.py:2014-2048 | what a failed attempt keeps: an interrupted one all that arrived, one sent too much a beginning of it, one with the wrong size or digest all of it |
| `Download.HonestAttempt` | cope/environment_clone.py:1994-2048 | one honest attempt succeeds exactly if the file is at hand, or what is missing fits on the disk and it need not resume or resumes from a beginning that fits; otherwise it keeps what it has for want of space, or leaves a full-size partial file |
| `Download.TwoHonestAttemptsSucceed` | cope/environment_clone.py:1980-2048 | of two consecutive honest attempts, the first with space for what is missing, the second succeeds from any leftover files, exactly if the first did or the whole file fits |
| `Download.InterruptedThenResumed` | cope/environment_clone.py:1999-2048 | an attempt interrupted after a beginning of the file is resumed there: the next honest one asks for the rest only, needs space for no more, and puts the file in place |
| `Download.PlacedStaysPlaced` | cope/environment_clone.py:1994-1997 | a file in place stays in place without another request |
| `CloneRows.OfferedIsDecided` | cope/environment_clone.py:1667-1707 | a row once offered is present, or is kept out for good |
| `CloneRows.ImportExactly` | cope/environment_clone.py:1648-1708 | an import succeeds exactly if every row is present in the end, no retained identity is reused and columns agree within each batch; the table is the old one with the rows inserted in order |
| `CloneRows.BatchSizeMattersExactlyWhen` | cope/environment_clone.py:1542-1558 | all batch sizes give the same result exactly if the columns agree throughout, or some row is kept out or would reuse a retained identity |
| `CloneRows.BatchSizeCanMatter` | cope/environment_clone.py:1542-1558 | two rows that are imported one by one and refused together |
| `CloneRows.ImportIsAdditive` | cope/environment_clone.py:1648-1708 | no earlier row changes, every source row is present and equal, and new rows are source rows |
| `CloneRows.SecondImportInsertsNothing` | cope/environment_clone.py:1667-1708 | a second import succeeds and inserts nothing |
| `CloneRows.InsertedCount` | cope/environment_clone.py:1671-1673 | if as many rows were inserted as offered then all are present, so the comparison may be skipped |
| `CloneRows.ReservedIsAbove` | cope/environment_clone.py:1745-1760 | after the reservation the sequence is at or above every number in the table and every number imported |
| `CloneRows.ReservedIsLeast` | cope/environment_clone.py:1745-1760 | and it is the least number that is at least one, beyond what was drawn, and not below any key or the source maximum |
| `CloneImport.RowsAreTheLines` | cope/environment_clone.py:1512-1537 | the reader accepts exactly streams made of newline-terminated lines within the limit that all parse |
| `CloneImport.ImportedMeans` | cope/environment_clone.py:1486-1569 | success means the declared rows and bytes, all present and equal, nothing earlier changed, and later numbers above all imported ones |
| `CloneImport.ImportIsIdempotent` | cope/environment_clone.py:1486-1569 | importing the same stream again succeeds and changes nothing |
| `CloneImport.Destination.ReserveCloneSequence` | cope/environment_clone.py:1745-1760 | moves the sequence to the greatest of what is there, what was drawn and the source maximum |
| `CloneImport.Destination.InsertCloneBatch` | cope/environment_clone.py:1648-1708 | inserts a batch or raises exactly as the batch function says, and counts the new rows |
| `CloneImport.Destination.ImportCloneDataset` | cope/environment_clone.py:1486-1569 | all or nothing, with inserted and skipped rows adding up to the declared rows |
| `CloneImport.Destination.ReadAndInsert` | cope/environment_clone.py:1512-1563 | the loop over the stream computes the import function |
| `CloneImport.TakeRow` | cope/environment_clone.py:1515-1540 | the checks on one bounded read of the stream |

## Left out

- HTTP, MCP, websocket and command-line interfaces, installers, the updater and the benchmarker client: they drive code outside the repository.
- Chess rules, PGN text, events, puzzles, chat and the conversion of rows to records: simple or driven by libraries.
- `cope/db/tools.py`: a job table of the same shape as the benchmark tables with easier claims.
- Executor.Apply: one operation, since every transaction of the executor touches the rows of one; audit events, the cut of error texts at 4000 characters and the intake queue that a cancel also updates are not modelled.
- Executor.Apply: a commit either happened or did not; a connection lost during the commit, after which the runner cannot know, is not modelled.
- Executor.Apply: the check on `execution_ownership` in a claim is taken to be open, because the code that closes it lives elsewhere; grants and token scopes are part of whether a runner authorizes or raises.
- ControlStore.Store.constructor: the rows of one operation; the idempotency key is in `Operations.Registry.CreateOperation`, and the action catalogue and the scopes asked of each step are not modelled.
- ControlStore.Store.Claim: the claim of one operation; among several that are claimable `Operations` lets any be taken, and the order by last update and the skipping of locked rows are not modelled.
- ControlStore.Store.Cancel: the rows of the intake queue that the same command cancels are not modelled.
- ControlStore.Store.Resume: the scopes and the grant that a resume asks for are not modelled.
- ArchiveTree.RoundTrip: the file system's answers about the entrypoint and about links are given with the tree; they are computed from it, in `FileTree`, for trees whose links are tidy.
- ArchiveTree.StrictRoundTrip: the same.
- Margins.PairedSystem: numpy's solve and the rounding of the margins are not modelled; that the reduced system is solvable and that no variance is negative, before and after centring, is proved.
- Elo.Rate: the rounding to six digits and floating-point error are not modelled; the Newton factor is any positive number.
- Replay.ExecuteBatch: the view catalogue, the requests' own validation and the invalidation flag are not modelled; the context is compared as a value.
- Commands.Execute: handlers are parameters with their effects; every command projects its result as the legacy resources do; the size of the encoded request is given with it; the two readings of the principal in one transaction see the same scopes.
- CommandService.Service.Execute: the advisory lock on actor and key and the row lock on the target appear as atomicity of the transaction.
- Selection.Expanded: dataset names are numbers in alphabetical order, and every reference in the catalogue is declared in it.
- Journal.AuthorityStore.Records: file permissions, locks, the size limit of a record and its canonical text are one condition, that a file is sound; a power loss that undoes a link already made is not modelled.
- Archive.ValidateArchive: gzip, tar and JSON bytes, header limits, sparse members, trailing data and the digest of the whole archive are not modelled; an archive is the sequence of members the reader delivers.
- ArchiveTree.CreateArchive: the manifest's text is one that reads back as the manifest.
- BenchmarkStore.Store.ClaimBenchmarkJob: which rows are locked or held back by `execution_ownership` is given, and the artifact description added to the job is not modelled; output, error texts and times other than the scheduled one are left out throughout.
- Download.Attempt: the digest check is by value, the move into place is atomic, and progress reports are left out.
- CloneImport.Imported: rewriting a parsed row, datasets without a table, Dockerfile files, progress updates and the cancellation check between batches are not modelled; a primary key is a number, and other unique keys are a relation on compared columns.
