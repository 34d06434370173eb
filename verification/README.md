# Verification of the anomaly detection pipeline

A Dafny model of the pipeline that turns metric samples into alerts, and proofs about it.
`dafny verify dfyconfig.toml` checks everything. One module a file:

- `Workload`: pod names and the workload they are read back to.
- `Baseline`, `Streams`, `Statistics`, `Ramp`: the running baselines of the two stores (Redis in
  production, memory in a replay), the seasonal profile and the batch variance of the fault
  injector, what they mean over whole streams, and how far a slow ramp can lead them.
- `Detector`, `Jobs`, `Firing`, `Parity`: adaptive and static detection over batches of samples on
  either store, which samples fire, and when the two stores give the same answers.
- `Filters`, `Fdr`, `FdrTheorems`: the in-place direction and floor filters, and
  Benjamini-Hochberg over a family of tests of which only the fired ones are observed.
- `Cycle`, `Engine`: a controller cycle with its worker, the tick loop of a replay, and why
  the two accept the same anomalies.
- `Dedup`, `Correlation`, `CorrelationTheorems`, `Correlator`, `Emission`, `Runs`, `Timing`: grouping,
  workload patterns, alerts, deduplication with a time to live, what leaves a flush in every
  order of the maps, and, over whole runs, the cooldown and when each anomaly leaves.
- `Injector`, `InjectorTheorems`, `Scorer`, `ScorerTheorems`, `Percentile`: synthetic faults, their
  ground truth, the scoring of detections and the percentile of query durations.
- `Sequences`, `Reals`, `Anomalies`: vocabulary and arithmetic facts.

Code that changes state is a method on a class or an array, proved against a specification
function of the old state; the theorems are about those functions.

## Promises the code does not keep

Each is shown false and replaced by the exact condition under which it holds.

- `specs/fdr-correction/design.md:46,54` promises that anomalies with z > 5 always pass. An anomaly
  is returned from every batch over m tests if and only if its p-value is at most target / m or the
  target is one (`AlwaysAcceptedIff`); whatever its score, one with a positive p-value is dropped from
  the batch it is alone in, over some family, at every target below one (`SomeFamilyRejects`).
- `specs/baseline-robustness/requirements.md:35` and `design.md:52-56` promise that a new level
  is accepted after a number of rejections. There is no such counter in the code: a stream of
  samples, of any length, is ever learnt from if and only if one of them passes the gate of the
  baseline the stream starts from (`NewLevelIsLearntIff`). Every stream that stays at least d away from
  the average is refused for ever if and only if the one sample at distance d on the side away from zero
  is refused (`RefusedForEverIff`). For a series with spread any refused sample at distance d will do
  (`RejectionIsPermanent`); for one without, the side matters (`SideCanMatter`).
- `specs/baseline-robustness/requirements.md:17` and `controller/internal/baseline/store.go:167-170` promise that
  the baseline does not absorb a slow ramp. For a warmed-up baseline, streams of which no sample is refused or fires
  lead the average past every level if and only if alpha is positive (`LedAnywhereIff`).
- `controller/internal/correlation/workload.go:21-23` promises that a name mistaken for a pod's makes a workload of
  one pod. For namespaces and pods without slashes, a group is absorbed if and only if enough pods of its cluster and
  namespace have names of the shape of a pod of one workload with its own (`AbsorbedIff`, `ReadsAsIff`); bare pods such as api-alpha, api-bravo and api-delta
  have (`BareNamesRead`, `BarePodsMerge`).
- `controller/internal/replay/inmem_baseline.go:17-20` promises that replay results match
  production. For label sets U they do on every stream if and only if normalisation is
  injective on U (`ParityIff`); two replicas of one Deployment suffice to break it (`ReplicasBreakParity`).
- `controller/internal/replay/inject/scorer.go:37` says a truth is detected when some true
  positive maps to it. Read as "some detection matches it", that holds for every list of detections if and only if no
  earlier truth on the same series overlaps its window (`FoundMeansMatchedIff`).
- `specs/synthetic-injection/design.md:8` promises that exactly what is perturbed is recorded. The
  truths are those of the applications that changed a point, no more and no fewer, if and only if under
  every key (series, type, start) some application moves or removes a point, and all that do have the
  end and magnitude of the first application under that key (`RecordedIsPerturbedIff`). A window without
  points is recorded all the same (`EmptyWindowIsRecorded`), and of two entries that start together the
  later end is lost (`LaterEndIsLost`).
- `controller/internal/replay/inject/injector.go:59` promises one truth for each series and injection. There
  are as many truths as such pairs if and only if no two of them share a key (`OneTruthPerInjectionIff`).
- Alerts about services carry no name: two pod alerts of a flush share a fingerprint if and only if
  both are about services in the same cluster and namespace with one severity
  (`PodAlertsShareFingerprintIff`).
- Map order: which alerts a flush sends to deduplication does not depend on it if and only if every promoted
  workload's groups agree on cluster and namespace (`OrderIndependentIff`); namespaces and pods without slashes
  guarantee it. What then leaves a working store, in which nothing expires while the flush goes on, does not depend
  on it if and only if every workload whose alert has
  a fingerprint that is not alive has its groups in one place, and any two alerts of the flush that share a
  fingerprint not alive are the same up to the anomalies quoted (`EmissionIsDeterminedIff`). Two services
  with different signals break the second condition (`ServicesUnsettle`).

## Conventions

- Numbers are reals and unbounded integers. Where the program keeps a standard deviation the
  model keeps its square, and compares squared z-scores: z > t is `t < 0 || z² > t²`.
- The p-value is an arbitrary function of the squared z-score; that it does not increase is
  assumed only in `HigherScorePassesToo`. That p-values are at most one is assumed only for target one. The square root of the injector and its names of series are arbitrary functions.
- Baseline keys and fingerprints are structured values, so they do not collide.
- Failures of Redis are parameters: `Fault` for baselines, `Probe` and `Outage` for deduplication.
  Query answers, suppression and interruptions are parameters too, and so is the time, of which
  monotonicity is assumed only by the theorems about chronological histories, rising times and timely runs.
- The order in which a map is ranged over is arbitrary. A flush reports in ghost results which
  orders it used, so that its contract can name the alerts it built.
- A flush has a time at which it begins and one for each alert, since enrichment takes its time between them; the
  check of an alert and the write that follows are at one time.
- `sort.Slice` is any rearrangement into ascending order.
- Arithmetic the two stores duplicate is stated once (`Score`, `Absorb`), as is the pod-name parser.

## Model

| member | source | states |
|---|---|---|
| `Workload.DeploymentRoundTrip` | controller/internal/correlation/workload.go:34-38 | A Deployment's pod name, any hash and suffix, is read back to the Deployment if and only if its name is nonempty and has no newline. |
| `Workload.StatefulSetRoundTrip` | controller/internal/correlation/workload.go:41-43 | A StatefulSet's pod is read back if and only if, besides, it does not look like a Deployment's: a five-digit ordinal after a name that ends in a hash. |
| `Workload.DaemonSetRoundTrip` | controller/internal/correlation/workload.go:44-46 | A DaemonSet's pod is read back if and only if, besides, the name does not end in a hash. |
| `Workload.MistakenForDeployment` | controller/internal/correlation/workload.go:5-18 | Exactly when the first pattern captures a name followed by one segment. |
| `Workload.DeploymentSplitUnique` | controller/internal/correlation/workload.go:9 | The Deployment pattern can split a name in one place only, so greedy matching decides nothing. |
| `Workload.NewlineMeansNoWorkload` | controller/internal/correlation/workload.go:9-17 | A name with a newline matches no pattern and stands for itself. |
| `Workload.WorkloadIsNonemptyPrefix` | controller/internal/baseline/store.go:27-41 | The workload is a prefix of the pod name, nonempty when that is. |
| `Workload.ReadsAsIff` | controller/internal/correlation/workload.go:34-48 | A name is read back to w, and not to itself, if and only if it has the shape of a Deployment's, StatefulSet's or DaemonSet's pod of w that no earlier pattern captures. |
| `Workload.BareNamesRead` | controller/internal/correlation/workload.go:21-23 | Three bare names are read back to one workload. |
| `Baseline.Score` | controller/internal/baseline/store.go:153-165 | The squared z-score, with the floor under a zero deviation. |
| `Baseline.Absorb` | controller/internal/baseline/store.go:176-199 | The Welford and EWMA update, computed by the program's steps, is the specified one. |
| `Baseline.WelfordIncrement` | controller/internal/baseline/store.go:181-188 | The incremental mean is the exact new mean, and the term added to the squared deviations is exact and not negative. |
| `Baseline.VarianceStaysNonnegative` | controller/internal/baseline/store.go:181-191 | No step takes the square root of a negative number. |
| `Baseline.ReplicasShareBaseline` | controller/internal/baseline/store.go:288-311 | All replicas of a Deployment, across rollouts, have one baseline key. |
| `Baseline.Store.NormalizeLabels` | controller/internal/baseline/store.go:291-307 | In any order of the labels: ephemeral ones go, the pod becomes its workload, the others stay. |
| `Baseline.Store.Evaluate` | controller/internal/baseline/store.go:125-238 | For every fault of Redis, the answer and the whole new state: only the series of the normalised labels changes, a failed read or needed write changes nothing, and a rejected sample needs no write. From a warmed-up baseline with spread, an answer fires if and only if the sample is more than the threshold times the deviation from the average. |
| `Baseline.InMemStore.Evaluate` | controller/internal/replay/inmem_baseline.go:50-130 | The same answer and update, keyed by raw labels and without failures; it fires under the same condition. |
| `Baseline.FiresWithSpread` | controller/internal/baseline/store.go:159-221 | Once warmed up, a sample fires if and only if the square of its distance from the average exceeds the square of the threshold times the variance. |
| `Baseline.FiresWithoutSpread` | controller/internal/baseline/store.go:161-165 | For a series without spread, if and only if it does so with one percent of the average, one percent of the sample and 1e-9, each in the place of the deviation. |
| `Baseline.RefusedWithSpread` | controller/internal/baseline/store.go:167-176 | The baseline stays as it is if and only if it is warmed up, the gate is on and the sample is that far out for the gate's threshold. |
| `Baseline.RefusedWithoutSpread` | controller/internal/baseline/store.go:167-176 | The same for a series without spread. |
| `Baseline.ShareBaselineIff` | controller/internal/baseline/store.go:288-311 | Two series of a metric share a baseline if and only if they have the same labels that are not ephemeral, with the same values, or pods of one workload. |
| `Streams.Erasure` | controller/internal/baseline/store.go:167-237 | For any machine that leaves its state alone when it refuses a sample, deleting the refused ones changes no state and no other answer. |
| `Streams.Invariant` | controller/internal/baseline/store.go:167-237 | A relation between state and accepted samples that every guarded step keeps holds after every guarded stream. |
| `Statistics.WelfordInvariant` | controller/internal/baseline/store.go:181-191 | After any stream, mean times count is the sum of the accepted samples, variance times count their squared deviations, and the count is exactly their number. |
| `Statistics.DescribedAre` | controller/internal/baseline/store.go:181-191 | Those equations hold if and only if mean and variance are those of the definition, and the variance is not negative. |
| `Statistics.OnePassVariance` | controller/internal/replay/inject/faults.go:28-32 | Mean of squares less square of mean is the variance of the definition and is not negative. |
| `Statistics.SeriesVariance` | controller/internal/replay/inject/faults.go:18-38 | The one-pass loop gives the population variance, one when there is no spread; its clamp never acts. |
| `Statistics.SeasonalProfile.Update` | controller/internal/baseline/seasonal.go:31-58 | The whole new state for every fault: one slot updated, or nothing. |
| `Statistics.SeasonalInvariant` | controller/internal/baseline/seasonal.go:40-51 | The update that counts first keeps the same exact description. |
| `Statistics.VariancesAgree` | controller/internal/baseline/store.go:181-191 | Store and seasonal profile compute the mean and the variance of the same samples, which are also those of the one-pass formula. |
| `Statistics.GateErasure` | controller/internal/baseline/store.go:167-237 | Deleting the samples the anti-poisoning gate rejects changes no later state and no other answer, and of what is left nothing is rejected. |
| `Statistics.RejectionIsPermanent` | controller/internal/baseline/store.go:167-176 | For a series with a positive variance: after a rejection, any run of samples at least as far from the average is rejected, however long. |
| `Statistics.RefusedForEverIff` | controller/internal/baseline/store.go:153-176 | For any baseline, with or without spread: all streams at distance d or more are refused throughout, and leave it unchanged, if and only if the sample at distance d on the side away from zero is refused. |
| `Statistics.SideCanMatter` | controller/internal/baseline/store.go:153-165 | On a reachable series without spread 0.9595 is refused and 1.0405, equally far from the average, is not. |
| `Statistics.NewLevelIsLearntIff` | specs/baseline-robustness/requirements.md:35 | A stream is ever learnt from if and only if some sample of it passes the gate of the baseline it starts from, and otherwise leaves that unchanged; no number of rejections brings the promised regime change. |
| `Statistics.StaysWithin` | controller/internal/baseline/store.go:176-189 | For alpha in [0, 1], mean and EWMA stay within any bounds on the accepted samples. |
| `Statistics.DriftPerSample` | controller/internal/baseline/store.go:167-199 | After warm-up no sample moves the EWMA by more than alpha times the poison threshold times the effective deviation (squared on both sides). |
| `Statistics.DriftOverStream` | controller/internal/baseline/store.go:167-199 | Over a stream whose per-sample limits are bounded, the EWMA moves at most one bound for every accepted sample. |
| `Statistics.ScoreWithoutSpread` | controller/internal/baseline/store.go:153-165 | A series without spread scores at most 200 on every sample, so a threshold of 200 never fires. |
| `Statistics.SideOfMeanIsStable` | controller/internal/detection/direction.go:23-32 | The direction verdict is the same for the mean before and after the sample is absorbed. |
| `Ramp.LedAnywhereIff` | specs/baseline-robustness/requirements.md:17 | For a warmed-up baseline and positive thresholds, streams of which no sample is refused or fires lead the EWMA past every level if and only if alpha is positive. |
| `Ramp.Climb` | controller/internal/baseline/store.go:160-199 | A ramp whose steps are shared by the count goes unnoticed, and gains alpha times its step times a harmonic sum. |
| `Ramp.HarmonicDiverges` | controller/internal/baseline/store.go:176-189 | That sum exceeds every bound. |
| `Ramp.StillClimbing` | controller/internal/baseline/store.go:181-191 | The squared deviations never shrink, so the step stays small enough. |
| `Streams.Ascend` | controller/internal/baseline/store.go:167-237 | A machine for which some sample always takes an invariant further has streams that take it any number of times. |
| `Detector.EvaluateMetricsAdaptive` | controller/internal/detection/adaptive.go:32-72 | On either store and with any faults, the anomalies, the number of tests and the baselines a batch leaves. |
| `Detector.EvaluateLogRate` | controller/internal/detection/engine.go:65-72 | The same, every anomaly relabelled as one of logs. |
| `Detector.Evaluator.Evaluate` | controller/internal/detection/adaptive.go:22-24 | Both stores behind one interface: answer and update for the keying of each. |
| `Detector.FamilyCoversFired` | controller/internal/detection/adaptive.go:32-66 | The number of tests is at least that of anomalies and at most that of samples. |
| `Firing.FiringIsMonotone` | controller/internal/baseline/store.go:159-165 | What lies at least as far from the average as a sample that fires, fires. |
| `Firing.FiresBeyondIff` | controller/internal/baseline/store.go:159-165 | With or without spread, every sample at least d away fires if and only if the one at distance d on the side away from zero does. |
| `Firing.FarEnoughFires` | controller/internal/baseline/store.go:215-223 | Whatever the threshold, for a warmed-up series with spread there is a distance from which every sample fires. |
| `Firing.ContributionIs` | controller/internal/detection/adaptive.go:40-66 | An answer adds a test if and only if its baseline is warmed up, and an anomaly if and only if besides the sample lies more than the threshold from the average, critical from five deviations on. |
| `Firing.OneMoreSample` | controller/internal/detection/adaptive.go:32-72 | A batch adds up what its samples contribute, each from the baseline its predecessors left, and touches no other baseline. |
| `Firing.SignalIs` | controller/internal/detection/engine.go:65-72 | What adaptive jobs find are anomalies of metrics, what log jobs find are anomalies of logs, all of the adaptive detector. |
| `Firing.WrongWayOfBaselineIff` | controller/internal/detection/direction.go:23-32 | The direction filter compares with the mean after the sample, but drops the anomaly if and only if the sample lies on the harmless side of the mean before it. |
| `Firing.AcceptedIsHarmful` | controller/internal/detection/direction.go:23-32 | An anomaly the chain accepts is no fall below the mean before it under an up-bad rule, and no rise above it under a down-bad one. |
| `Jobs.EvaluateMetricsStatic` | controller/internal/detection/static.go:25-61 | The breaching samples, in order, as anomalies. |
| `Jobs.BreachPlaces` | controller/internal/detection/static.go:48-61 | As many breach as there are values on the wrong side of the threshold for the operator, an unrecognised one being read as above. |
| `Jobs.JobFamilyCoversFired` | controller/cmd/worker/main.go:235-272 | A job counts at least as many tests as it finds adaptive anomalies. |
| `Jobs.BatchFamilyCoversFired` | controller/cmd/worker/main.go:172-231 | A worker declares at least as many tests as it ships adaptive anomalies, whatever fails or is suppressed. |
| `Jobs.BatchConcat` | controller/cmd/worker/main.go:172-231 | A batch may be cut in two, with whatever store calls fail in either part. |
| `Parity.Simulation` | controller/internal/replay/inmem_baseline.go:50-130 | On every interleaved stream over labels that normalisation keeps apart, the two stores answer every sample alike. |
| `Parity.ParityIff` | controller/internal/replay/inmem_baseline.go:17-20 | They do so on all streams over a set of labels if and only if normalisation is injective on it. |
| `Parity.ReplicasBreakParity` | controller/internal/replay/inmem_baseline.go:50-52 | Two replicas of a Deployment have a stream on which they differ. |
| `Parity.DetectParity` | controller/internal/detection/adaptive.go:32-72 | From mirrored baselines a batch finds the same, counts the same and leaves mirrored baselines. |
| `Fdr.FDR.New` | controller/internal/detection/fdr.go:17-22 | A target in (0, 1] is kept, any other becomes 0.05. |
| `Fdr.FDR.Separate` | controller/internal/detection/fdr.go:39-48 | A partition into adaptive and other anomalies, both in order. |
| `Fdr.FDR.Scan` | controller/internal/detection/fdr.go:84-90 | The largest rank k of which m times the p-value is at most k times the target, or zero; for every later rank m times the p-value is more. |
| `Fdr.FDR.Apply` | controller/internal/detection/fdr.go:34-100 | The accepted anomalies are, as a multiset, the non-adaptive ones and the adaptive ones that pass the counting form of the procedure; accepted and rejected add up; below target one the non-adaptive come first, in their order, and the adaptive after them by ascending p-value. |
| `Fdr.FDR.Select` | controller/internal/detection/fdr.go:54-97 | The adaptive anomalies that pass over the family, by ascending p-value. |
| `Fdr.TextbookIsPasses` | specs/fdr-correction/design.md:7-11 | The counting form is the textbook procedure on sorted p-values, for every order and every tie: some rank k has a value of which m times is at most k times the target, and what is accepted is at most that value. |
| `Fdr.CountOfAscending` | controller/internal/detection/fdr.go:68-71 | At least k values are at most c exactly when the k-th smallest is. |
| `Fdr.ScanSelects` | controller/internal/detection/fdr.go:68-99 | The prefix the scan keeps of any sorted arrangement is exactly what passes. |
| `FdrTheorems.NeverLooser` | controller/internal/detection/fdr.go:79-83 | Whatever the unobserved p-values, an adaptive anomaly that is returned is accepted by the textbook procedure on the whole family, at every target and with the fallback family, too. |
| `FdrTheorems.ExactWhenAllFired` | controller/internal/detection/fdr.go:83 | An adaptive anomaly is returned if and only if the textbook procedure accepts it, when every test fired or the family falls back to what fired. |
| `FdrTheorems.ExactWhenOthersAreLarge` | controller/internal/detection/fdr.go:73-77 | The same when every unobserved p-value exceeds the target. |
| `FdrTheorems.SurvivesIff` | controller/internal/detection/fdr.go:54-97 | Below target one an adaptive anomaly is returned if and only if it passes over the family. |
| `FdrTheorems.CanBeStricter` | controller/internal/detection/fdr.go:80-82 | A neighbour short of firing can make the textbook procedure accept more. |
| `FdrTheorems.AcceptedIsSelfConsistent` | controller/internal/detection/fdr.go:84-97 | m times each accepted p-value is at most the target times the number accepted. |
| `FdrTheorems.SelfConsistentIsAccepted` | controller/internal/detection/fdr.go:84-97 | Every set with that property is accepted, so the accepted set is the largest. |
| `FdrTheorems.OrderDoesNotMatter` | controller/internal/detection/fdr.go:68-71 | The accepted multiset does not depend on the order of the input. |
| `FdrTheorems.MonotoneInTargetAndFamily` | controller/internal/detection/fdr.go:85-89 | A higher target or a smaller family only adds acceptances. |
| `FdrTheorems.FilteringFirstCreatesNothing` | controller/cmd/controller/main.go:282-306 | With a family that covers what fired, any filter run first leaves a sub-multiset of what the filter leaves of the accepted ones. |
| `FdrTheorems.FallbackCanCreateAcceptance` | controller/internal/detection/fdr.go:32-33 | With fewer tests declared than the n >= 2 that fired, and any target below one, there are p-values and a filter for which this fails. |
| `FdrTheorems.AlwaysAcceptedIff` | specs/fdr-correction/design.md:54 | An adaptive anomaly is returned from every batch over m tests if and only if its p-value is at most target / m or the target is one. |
| `FdrTheorems.SomeFamilyRejects` | specs/fdr-correction/design.md:46 | At every target below one, an adaptive anomaly with a positive p-value is dropped from a batch over some family, whatever its score. |
| `FdrTheorems.HigherScorePassesToo` | controller/internal/detection/fdr.go:104-112 | With p-values that do not grow with the score, a higher score is never treated worse. |
| `Filters.FilterByDirection` | controller/internal/detection/direction.go:38-54 | The aliasing compaction is the order-preserving filter, writes nothing behind the kept prefix, and counts what it drops; what it keeps under an up-bad rule is not below its mean, under a down-bad one not above. |
| `Filters.FilterByFloor` | controller/internal/detection/floor.go:21-37 | The same for the floor: what it keeps has at least the size its rule asks for. |
| `Filters.CompactedStep` | controller/internal/detection/direction.go:42-52 | Writing into the slice being read never overwrites an element not yet read. |
| `Filters.PostFilter` | controller/cmd/controller/main.go:282-306 | The chain accepts what passes direction, floor and discovery rate in that order, and every input is accepted or counted under the filter that dropped it. What is accepted is on the side of its mean that its rule calls bad and not under its floor; the direction drops as many as are below the mean under an up-bad rule or above it under a down-bad one, direction and floor together as many as are that or under their floor. |
| `Filters.NonAdaptivePassThrough` | controller/internal/detection/fdr.go:20-21 | The whole chain keeps every anomaly that is not adaptive. |
| `Filters.PassedRespectsPermutation` | controller/cmd/controller/main.go:282-306 | What the chain accepts depends on which anomalies there are, not on their order. |
| `Filters.ScreeningCreatesNothing` | controller/cmd/controller/main.go:282-306 | Direction and floor let nothing through the discovery rate that would not pass without them. |
| `Cycle.Suppress` | controller/cmd/worker/main.go:192-202 | The worker's in-place compaction is the order-preserving filter. |
| `Cycle.ProcessJob` | controller/cmd/worker/main.go:235-272 | By type of job: what it finds, counts and leaves in the store, and exactly when it fails. |
| `Cycle.ProcessJobs` | controller/cmd/worker/main.go:172-231 | A batch runs its jobs in turn on the baselines left before; unsuppressed anomalies, tests and errors add up. |
| `Cycle.BuildJobBatch` | controller/cmd/controller/main.go:434-476 | Static, adaptive and log jobs in that order, without the rules that match patterns. |
| `Cycle.ControllerJobsAre` | controller/cmd/controller/main.go:434-476 | There is one job for each static rule, then one for each adaptive rule, and one for each log rule that does not match patterns. |
| `Cycle.RunCycle` | controller/cmd/controller/main.go:228-316 | What a cycle hands to the correlator, and the store it leaves; when the call ends without an answer, nothing, and what the jobs the worker had done by then have left. No adaptive anomaly handed on goes the harmless way. |
| `Cycle.CycleScreensSoundly` | controller/cmd/controller/main.go:282-306 | In every cycle, whatever fails or is suppressed, the early filters create no acceptance. |
| `Cycle.StaticBatch` | controller/cmd/worker/main.go:237-249 | Static rules leave baselines alone, count no test and find the same anywhere. |
| `Cycle.BatchParity` | controller/cmd/worker/main.go:172-231 | The same jobs on mirrored baselines find the same and leave mirrored baselines. |
| `Cycle.OutcomesAgree` | controller/internal/replay/engine.go:165-225 | Without rules that match patterns, a tick collects the anomalies of a cycle in another order, with the same family and mirrored baselines. |
| `Cycle.CycleParity` | controller/internal/replay/engine.go:227-244 | With nothing suppressed, a tick accepts the multiset a cycle accepts, and the baselines still mirror each other. |
| `Engine.ReplayEngine.QueryAdaptives` | controller/internal/replay/engine.go:110-163 | A tick is lost exactly when there are adaptive rules and none succeeds or the first three fail; nothing succeeds if and only if the first three, or all if fewer, fail. Otherwise no successful answer is lost, and failures are counted. |
| `Engine.ReplayEngine.EvaluateRules` | controller/internal/replay/engine.go:165-225 | The outcome of all rules on the in-memory baselines, which learn during warm-up while what fires is only counted. |
| `Engine.ReplayEngine.FilterAndReport` | controller/internal/replay/engine.go:227-244 | The chain applied, the drops counted, the report extended up to its cap. |
| `Engine.ReplayEngine.AddAnomalies` | controller/internal/replay/report.go:150-154 | The report keeps the first ones, up to its cap. |
| `Engine.ReplayEngine.Tick` | controller/internal/replay/engine.go:94-246 | The whole new state of a tick, lost or not, warming up or not; anomalies are accepted or counted under a filter. |
| `Engine.ReplayEngine.Run` | controller/internal/replay/engine.go:82-255 | A run not interrupted visits exactly the whole steps in the window; processed and skipped add up; an interrupted one stops at the first interruption. A tick warms up if and only if it comes before the samples of the warm-up, or before its truncated share of the window, have passed; what is reported is what the filters pass in the other ticks visited that are not lost. |
| `Engine.ReplayEngine.Progress` | controller/internal/replay/engine.go:249-255 | The percentage is defined and at most 100. |
| `Engine.TickInPieces` | controller/internal/replay/engine.go:165-225 | The outcome of a tick by kind of rule, and its adaptive anomalies. |
| `Engine.RunMirrors` | controller/internal/replay/engine.go:82-255 | Over a run that loses no tick, replay baselines mirror production's at every tick. |
| `Engine.RunParity` | controller/internal/replay/engine.go:227-244 | From empty baselines, every tick after warm-up reports exactly what the production cycle on the same answers accepts. |
| `Dedup.StoreMeaning` | controller/internal/correlation/correlator.go:328-345 | A fingerprint is alive exactly when an alert with it left, was recorded, and its cooldown has not passed. |
| `Dedup.DroppedIff` | controller/internal/correlation/correlator.go:334-341 | Whatever failed before, a check the store answers drops an alert exactly for that reason. |
| `Dedup.EmittedAreCooldownApart` | controller/internal/correlation/correlator.go:328-355 | In any history, alerts with one fingerprint leave at least a cooldown apart when the write of the first and the check of the second succeed. |
| `Dedup.DroppedHasEmitted` | controller/internal/correlation/correlator.go:334-341 | Every alert that a successful check drops has one that left with its fingerprint inside the preceding cooldown. |
| `Dedup.LeavingAreTheDead` | controller/internal/correlation/correlator.go:328-355 | Of a batch, in any order and with repetitions, the fingerprints not alive before it leave. |
| `Correlation.LastSegmentOfJoined` | controller/internal/correlation/correlator.go:281-290 | The last segment of a joined key is its last part when that has no slash. |
| `Correlation.JoinedIsInjective` | controller/internal/correlation/correlator.go:378-388 | Keys can be taken apart from the right when their last two parts have no slash. |
| `Correlation.GroupedTogetherIff` | controller/internal/correlation/correlator.go:378-388 | For labels without slashes, two anomalies are grouped together if and only if they agree on namespace and pod, or service when there is no pod, and on the cluster unless both are empty. |
| `Correlation.EscalatedIff` | controller/internal/correlation/correlator.go:292-306 | A pod alert is critical if and only if one of its anomalies is or two of them differ in signal. |
| `CorrelationTheorems.WorkloadAlertReports` | controller/internal/correlation/correlator.go:221-262 | A workload alert reports exactly the pods and signals of its groups, and is critical if and only if one of their anomalies is: different signals do not escalate it. |
| `CorrelationTheorems.FlushCovers` | controller/internal/correlation/correlator.go:151-173 | Every ready group is absorbed into exactly one workload alert or gets a pod alert, never both. |
| `CorrelationTheorems.ReplicasAreAbsorbedGroups` | controller/internal/correlation/correlator.go:209-271 | The replicas an alert reports are the groups it absorbed, at least the threshold; it names the workload, cluster and namespace of each. |
| `CorrelationTheorems.PatternAlertIsDetermined` | controller/internal/correlation/correlator.go:188-262 | The alert of a workload depends on the order its groups came in only through the place of the first. |
| `CorrelationTheorems.OrderIndependence` | controller/internal/correlation/correlator.go:151-172 | For namespaces and pods without slashes, every order of the maps sends the same alerts to deduplication, up to the anomalies they quote. |
| `CorrelationTheorems.QuotesMember` | controller/internal/correlation/correlator.go:247-257 | The anomaly a workload alert quotes is the first of one of its groups, relabelled. |
| `CorrelationTheorems.ReplicasShareWorkload` | controller/internal/correlation/correlator.go:192-203 | All replicas of a Deployment in one cluster and namespace, across rollouts, are accumulated under one workload. |
| `CorrelationTheorems.OrderIndependentIff` | controller/internal/correlation/correlator.go:188-262 | In general the alerts sent to deduplication are the same if and only if the groups of every promoted workload agree on cluster and namespace. |
| `CorrelationTheorems.PodAlertsShareFingerprintIff` | controller/internal/correlation/correlator.go:357-367 | Pod alerts of a flush collide if and only if both are about services, in one place and with one severity. |
| `CorrelationTheorems.WorkloadAlertsDiffer` | controller/internal/correlation/correlator.go:357-367 | Workload alerts of a flush over namespaces and pods without slashes never collide. |
| `CorrelationTheorems.AbsorbedIff` | controller/internal/correlation/correlator.go:188-221 | For namespaces and pods without slashes, a group is absorbed if and only if it has a namespace and enough pods of its place have names of the shape of a pod of one workload with its own. |
| `CorrelationTheorems.BarePodsMerge` | controller/internal/correlation/workload.go:21-23 | Enough bare pods of one place whose names start alike and end in five lower-case characters are all absorbed. |
| `Correlator.Correlator.constructor` | controller/internal/correlation/correlator.go:102-114 | The threshold is at least two, on a store with any earlier history. |
| `Correlator.Correlator.Add` | controller/internal/correlation/correlator.go:117-128 | One anomaly more under its key; everything else stays. |
| `Correlator.Correlator.TakeReady` | controller/internal/correlation/correlator.go:138-153 | The groups first seen at least a window ago leave pending as they are, and only they; the others stay as they are. |
| `Correlator.Correlator.AccumulateWorkloads` | controller/internal/correlation/correlator.go:188-214 | In any order, the accumulator of a workload holds each of its groups once. |
| `Correlator.Correlator.DetectWorkloadPatterns` | controller/internal/correlation/correlator.go:178-279 | In any order, exactly the workloads with enough pods are promoted and exactly their groups suppressed. |
| `Correlator.Correlator.BuildWorkloadAlert` | controller/internal/correlation/correlator.go:221-262 | Signals, severity, pods and identity of a workload alert. |
| `Correlator.Correlator.ExtractWorkloadFromKey` | controller/internal/correlation/correlator.go:281-290 | The scan from the end finds the last segment. |
| `Correlator.Correlator.BuildPodAlert` | controller/internal/correlation/correlator.go:292-326 | Signals, escalated severity and identity of a pod alert. |
| `Correlator.Correlator.Finalize` | controller/internal/correlation/correlator.go:328-355 | For every failure of the store, and a time for each alert, which alerts leave and what the history becomes. |
| `Correlator.Correlator.Flush` | controller/internal/correlation/correlator.go:138-173 | What stays pending, which is what was first seen less than a window ago, which alerts are built, in which order of the maps, and which leave. |
| `Correlator.AddedIsFlushedOrPending` | controller/internal/correlation/correlator.go:117-153 | Over any run and under every key, what was added is what was flushed followed by what is pending, in order. |
| `Correlator.PendingIsKeyed` | controller/internal/correlation/correlator.go:117-128 | Over any run no group is empty or under a key not its own. |
| `Correlator.FlushExtendsHistory` | controller/internal/correlation/correlator.go:328-355 | With a clock that does not go back, from alert to alert either, the history stays chronological. |
| `Correlator.EmittedFingerprintsAreDetermined` | controller/internal/correlation/correlator.go:151-173 | With a working store, and every promoted workload's groups in one place, which fingerprints leave does not depend on map order. |
| `Correlator.LeavingIsUndropped` | controller/internal/correlation/correlator.go:328-355 | Those are the fingerprints of the alerts a flush returns. |
| `Emission.UndroppedIsFirstOfEach` | controller/internal/correlation/correlator.go:328-355 | Through a working store in which nothing expires meanwhile, of the alerts with one fingerprint not alive the first leaves. |
| `Emission.EmissionIsDeterminedIff` | controller/internal/correlation/correlator.go:138-173 | With a working store in which nothing expires meanwhile a flush returns the same alerts in every order of the maps, up to the anomalies quoted, if and only if workloads that may leave are of one place and alerts that share a fingerprint not alive are the same. |
| `Emission.ServicesUnsettle` | controller/internal/correlation/correlator.go:314 | Two services in one place with one severity and different signals violate that. |
| `Runs.Perform` | controller/cmd/controller/main.go:360-386 | The adds and flushes of a run: what is pending, what the store has been through, which groups each flush took and which alerts it built of them in which order of the maps, and what it returned. |
| `Runs.ReturnedIff` | controller/internal/correlation/correlator.go:328-355 | A flush of a run returns exactly those of its alerts that the history of the whole run does not drop. |
| `Runs.CooldownOverRuns` | controller/internal/correlation/correlator.go:328-355 | With a clock that does not go back, two alerts with one fingerprint that a run returns, in one flush or in two, come up at least a cooldown apart, if the write of the first and the check of the second succeed. |
| `Runs.DroppedOverRuns` | controller/internal/correlation/correlator.go:334-341 | Every alert of a run that a successful check drops has one before it that left with its fingerprint inside the cooldown. |
| `Runs.CooldownWithinFlush` | controller/internal/correlation/correlator.go:328-355 | A flush whose calls succeed and that is over within a cooldown returns no two alerts with one fingerprint. |
| `Runs.RunIsChronological` | controller/internal/correlation/correlator.go:328-355 | The history of such a run is chronological throughout. |
| `Runs.ExactlyOneIsAbout` | controller/internal/correlation/correlator.go:151-173 | Exactly one alert of a flush is about each group that was ready: the alert of the workload that absorbed it, or its own. |
| `Runs.AddedIsAlerted` | controller/internal/correlation/correlator.go:117-173 | Every anomaly ever added is still pending or was in a group that some flush took and that exactly one alert of that flush is about. |
| `Timing.OnlyTheOldLeave` | controller/internal/correlation/correlator.go:138-153 | Each flush of a run takes exactly the pending groups first seen at least a window before it, as they are, and leaves the others as they are. |
| `Timing.StaysWhileYoung` | controller/internal/correlation/correlator.go:117-153 | Until a flush comes a window after the add that opened it, a group is pending, first seen at that add, with exactly what has been added under its key since. |
| `Timing.OpenedBy` | controller/internal/correlation/correlator.go:117-128 | Every pending group was opened by an add at the time it was first seen, and no flush has come a window after that. |
| `Timing.TakenWhenDue` | controller/internal/correlation/correlator.go:138-153 | The first flush a window after that add takes the group with all that was added under its key in between, and leaves nothing under the key. |
| `Timing.NotTakenBefore` | controller/internal/correlation/correlator.go:138-153 | No earlier flush takes it. |
| `Timing.LeavesWhenDue` | controller/internal/correlation/correlator.go:117-153 | Every anomaly ever added leaves pending in the first flush at least a window after the add that opened its group, and stays pending till then. |
| `Injector.Inflict` | controller/internal/replay/inject/faults.go:40-97 | The four faults on the points of a series. |
| `Injector.MatchLabels` | controller/internal/replay/inject/injector.go:95-102 | Every required label has its value, an absent one counting as empty. |
| `Injector.Injector.Record` | controller/internal/replay/inject/injector.go:59-71 | A truth is added exactly when its key is new. |
| `Injector.Injector.Apply` | controller/internal/replay/inject/injector.go:36-78 | In place, every entry in turn on every series it targets; the history of applications with the points each met, and the ground truth of it. |
| `InjectorTheorems.OneTruthPerKey` | controller/internal/replay/inject/injector.go:59-71 | Over any run of queries there is exactly one truth for each key applied and none for others. |
| `InjectorTheorems.EverythingRecordedIff` | specs/synthetic-injection/design.md:8 | Every application has its truth, whether or not it changed a point, if and only if no two share a key and differ in end or magnitude. |
| `InjectorTheorems.PerturbsIff` | controller/internal/replay/inject/faults.go:40-97 | A fault changes the points if and only if one of them in its window is removed or has a shift that is not zero. |
| `InjectorTheorems.FaultSize` | controller/internal/replay/inject/faults.go:40-84 | In its window a step adds its magnitude in deviations of the series, a spike that up to five percent, a ramp the share of it that the window has run, and nothing when the window has no length; outside nothing is added. |
| `InjectorTheorems.RecordedIsPerturbedIff` | specs/synthetic-injection/design.md:8 | The truths are exactly those of the applications that changed a point if and only if every key recorded has an application that moves a point, and all that do have the end and magnitude recorded. |
| `InjectorTheorems.EmptyWindowIsRecorded` | controller/internal/replay/inject/injector.go:59-73 | A window without points changes nothing and is recorded. |
| `InjectorTheorems.OneTruthPerInjectionIff` | controller/internal/replay/inject/injector.go:59-71 | Over any run there are as many truths as pairs of series and entry applied if and only if no two pairs share a key. |
| `InjectorTheorems.LaterEndIsLost` | controller/internal/replay/inject/injector.go:60-62 | Two entries that start together: what the second perturbs after the first ends is in no truth. |
| `InjectorTheorems.FaultStaysInWindow` | controller/internal/replay/inject/faults.go:40-97 | Each fault leaves the points outside its window as they are, in value, number and order. |
| `InjectorTheorems.InjectionStaysInWindows` | controller/internal/replay/inject/injector.go:41-75 | So does a whole profile, outside the windows of the entries that target the series. |
| `InjectorTheorems.ChangesAreExplained` | specs/synthetic-injection/design.md:8 | When keys agree, whatever an injection changes lies in the window of a recorded truth about that series. |
| `Scorer.Search` | controller/internal/replay/inject/scorer.go:61-74 | The first truth, in order, of which a detection has the target and lies between its start and its end plus the grace. |
| `Scorer.MatchAll` | controller/internal/replay/inject/scorer.go:48-81 | True and false positives add up to the detections; a truth is marked if and only if some detection counts for it, with the earliest time. |
| `Scorer.CountByType` | controller/internal/replay/inject/scorer.go:83-95 | Misses and finds add up to the truths, in all and by type. |
| `Scorer.Latencies` | controller/internal/replay/inject/scorer.go:125-132 | There is a latency for each key found and no other: that of the last truth found under it, to its earliest detection. |
| `Scorer.Score` | controller/internal/replay/inject/scorer.go:38-145 | All figures in terms of which truths are found. |
| `ScorerTheorems.DetectedIff` | controller/internal/replay/inject/scorer.go:58-74 | A truth is found if and only if some detection matches it and no earlier truth. |
| `ScorerTheorems.FoundMeansMatchedIff` | controller/internal/replay/inject/scorer.go:37 | For all lists of detections this is "some detection matches it" if and only if no earlier truth of the series overlaps. |
| `ScorerTheorems.OrderDoesNotMatter` | controller/internal/replay/inject/scorer.go:58-81 | True positives and found truths do not depend on the order of the detections. |
| `ScorerTheorems.LatenciesAreDetermined` | controller/internal/replay/inject/scorer.go:125-132 | Nor do the latencies reported. |
| `ScorerTheorems.NoMoreFoundThanTruePositives` | controller/internal/replay/inject/scorer.go:58-81 | Every truth found takes a true positive of its own. |
| `ScorerTheorems.RecallIsBackedByTruePositives` | controller/internal/replay/inject/scorer.go:102-110 | So the numerator of recall is at most that of precision. |
| `ScorerTheorems.ReportedRecallsRecombine` | controller/internal/replay/inject/scorer.go:117-122 | The reported recalls by type, weighted by the truths of each type, recombine to overall recall. |
| `ScorerTheorems.F1IsBetween` | controller/internal/replay/inject/scorer.go:111-114 | F1 lies between precision and recall. |
| `ScorerTheorems.F1IsHarmonic` | controller/internal/replay/inject/scorer.go:111-114 | F1 is the harmonic mean of precision and recall, zero when one of them is. |
| `Percentile.P95Window.Add` | controller/internal/replay/metrics.go:86-93 | The ring buffer holds the last values of the whole history, in order. |
| `Percentile.P95Window.P95` | controller/internal/replay/metrics.go:95-112 | The value of the specified rank among them, 95 percent of the way from first to last rounded down; zero when there is none. |
| `Percentile.RankIsUnique` | controller/internal/replay/metrics.go:95-112 | A rank belongs to one value only, in any order. |

## Left out

- Floating point: rounding, NaN and infinities (the replay drops such samples), and the widths of integers.
- gRPC, HTTP pollers, JSON, the Redis client with its circuit breaker, metrics, logging and configuration loading: input and output.
- Leader election and the machine learning service and its escalation of severity: their logic is in libraries or another language.
- Hashing of keys and the strings it works on: keys are structured, so collisions are not modelled.
- The second textual copy of the pod-name parser: both are one function here.
- Enrichment, its identities and templates, the absence tracker, the rate limiter, event anomalies, alert texts and the totals of reports: branch-by-branch facts.
- The worker's query cache, job ids and the update of the seasonal profile inside `ProcessJobs`; the profile itself is modelled.
- The read side of the seasonal profile (`Get`, `IsSeasonalAnomaly`): easy.
- The choice of which goroutine runs when: each method that holds the lock is one step. That `Flush` releases it before it builds alerts is not visible then.
- Scores of static anomalies, timestamps of anomalies and the last-update times of baselines: nothing modelled reads them.
- Correlator.Correlator.BuildPodAlert: signals and pods are sets, so the order in which they are listed is not modelled.
- Correlator.Correlator.Finalize: a cooldown that changes between processes is not modelled, nor one that is not positive; configuration replaces zero by five minutes (`controller/internal/config/config.go:324-326`).
- Engine.ReplayEngine.Run: chunks and the extraction of samples at a tick are part of the answers to queries, and the memory figures are not modelled.
- Injector.Injector.Apply: the random numbers and the square root are arbitrary functions.
