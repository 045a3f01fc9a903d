# secrets-sync: a verified model of its runtime protocol

secrets-sync is a daemon that renders secrets read from Vault into local files and
refreshes them on a schedule. Each secret has its own goroutine; they share one disk,
one client cache and one readiness flag, and the configuration can be replaced while
they run. This Dafny project models those parts as code and as interleaved steps, and
proves what holds in every run. `dafny verify dfyconfig.toml` checks everything.

| file | models |
|---|---|
| Options.dfy | the success-or-nothing values the other modules share |
| Paths.dfy, Guards.dfy | Go path functions on Unix strings; the checks before a write; mode and owner parsing |
| FileStore.dfy | writers, orphan sweep and crashes as interleaved steps over names, inodes and contents |
| Disk.dfy | WriteFile, the temp-name generator and the sweep as code; each write and each sweep is shown to be a run of FileStore |
| Config.dfy, Validation.dfy | configuration, resolvers, validation that rewrites paths through shared slices |
| Breaker.dfy, Retry.dfy, VaultClient.dfy | trip rule, breaker, backoff, retry loop, logins, token renewal, reads |
| ClientPool.dfy, Matching.dfy, Syncer.dfy | client cache, template matching, one whole sync |
| Scheduling.dfy, JobProtocol.dfy, Health.dfy | job table and stop channels, job goroutines, result channel, monitor, readiness |
| SharedDisk.dfy | one scheduler's jobs together with the disk they share |
| RunLoop.dfy | signal loop and scheduler swap |
| Daemon.dfy | schedulers, their jobs, the signal loop and the monitor together, as interleaved steps |
| Witnesses.dfy | accepted configurations that show where the code does less than one may expect |
| Debounce.dfy | the reload sidecar's debouncer |

Code that updates state in place is a class or a method with loops, proved against
a function on values (`AfterWrite`, `Swept`, `Add`, `StopFinish`, `RetryFetch`,
`RenewalRun`, `SyncPool`, `Deliver`, `Monitored`, `After`, `Fired`); the theorems are about those
functions and about step systems built from them.

## Assumptions

- `rename()` replaces its target atomically (System Interfaces volume of IEEE Std 1003.1-2017).
- Live temp names are distinct. No configured base name contains `.tmp.`
  (`Disk.SweepSparesExactly` says what happens otherwise, `Witnesses.SweepDeletesAnAcceptedTarget`
  shows it). Directories contain no glob characters. File names on disk are clean paths. At start no
  temp file shares its inode with another name.
- The breaker library counts a request on admission, counts its outcome if the generation is
  unchanged, and asks ReadyToTrip only on a failure while closed. A breaker sees at most 2^32
  requests in one generation.
- Select picks any ready case; a stopped ticker delivers nothing (Go 1.23 and later).
- Cache and namespace statements are about syncs run one after another: the source takes no lock there.
- The lengths of paths and of contents are counted in characters where Go counts bytes.
- Converting and multiplying float64 values rounds monotonically and keeps integers up to 2^53. The exact
  backoff sequence takes MaxBackoff to be at most that many nanoseconds, over 100 days
  (`Retry.BeyondExactABackoffMayShrink` shows that it needs the bound).
- The disk in a single result (`JobProtocol.ReadyMeansDelivered`) is the one its sync left, writes of other jobs
  aside; `SharedDisk.ReadyMeansOnDisk` is about the disk all jobs share.
- The monitor goroutine evaluates its range expression before the first reload is handled: the source reads that
  variable without synchronisation.
- Refresh intervals are positive, as validation demands: a ticker with any other interval panics.
- Answers of the system, of Vault, of the template engine and of the clock are parameters.

## Where the code does less than its documentation suggests

- Duplicate paths are checked before paths are normalised, so the first load may accept two
  spellings of one file (`Validation.OneLoadMayLeaveDuplicates`). A reload validates twice and
  cannot (`Validation.ReloadedPathsAreDistinct`).
- The comment at internal/config/validator.go:239 promises the check made at write time. An accepted path
  is nevertheless refused at every write exactly when it is over-long or contains `..`
  (`Validation.AcceptedPathAtWriteTime`). Such a secret can never be delivered
  (`Syncer.AcceptedSecretIsDeliverableIff`, `Witnesses.AcceptedButNeverDelivered`).
- The first retry wait is not capped (`Retry.WaitsAreCapped`). Nothing keeps BACKOFF_MULTIPLIER from being below
  one; the waits then shrink (`Retry.WaitsNeverShrinkIff`, `Retry.HalvedWaitsShrink`).
- An empty namespace does not clear an earlier one, and cached clients outlive a reload with their old
  credentials and server address (`ClientPool.CacheIsInvisibleAcrossReloads`, `Witnesses.RotatedTokenIsNotUsed`).
- Only the start-up client renews its token, and no secret is read through it (`ClientPool.ReadsNeverUseARenewedToken`).
- A failed write into the temp file leaves it behind (`Disk.WriteIsAllOrNothing`).
- A watcher reload never removes a secret (`RunLoop.WatcherReloadIsExactIff`).
- The monitor reads the first scheduler's channel only. After a reload the daemon may deliver every file and never
  be ready (`Daemon.ReadyIsReachableIff`, `Witnesses.DeliveredButNeverReady`).
- A job added after Stop is not bounded by the scheduler-wide stop channel (`JobProtocol.BoundedExactlyWhenStopped`,
  `JobProtocol.AddedAfterStopIsUnbounded`).

## Model

| member | source | states |
|---|---|---|
| `FileStore.TargetsAreNeverTorn` | internal/filewriter/writer.go:55-81 | in every interleaving of writers, sweep, partial writes and crashes a target holds the whole content of the WriteFile last renamed onto it, or its original state if there was none |
| `FileStore.OpenTargetIsFrozen` | internal/filewriter/writer.go:55-81 | whatever happens later, the inode a reader opened as a target keeps its bytes |
| `FileStore.SweptWriteFails` | internal/filewriter/cleanup.go:36-48 | a write whose temp file was swept while in progress never reports success |
| `Disk.Store.WriteFile` | internal/filewriter/writer.go:35-82 | the new disk and the result are those of AfterWrite and Succeeds |
| `Disk.WriteSucceedsIff` | internal/filewriter/writer.go:35-139 | a write succeeds if and only if content and path are within the literal limits, the path is absolute without adjacent dots, the target is absent, regular or a directory, and every system call succeeds |
| `Disk.WriteIsAllOrNothing` | internal/filewriter/writer.go:35-82 | only the target changes and only on success; exactly when the temp file is left behind, and with what in it |
| `Disk.WriteIsARun` | internal/filewriter/writer.go:55-81 | every WriteFile is a run of the interleaving model with the same final disk |
| `Disk.RandomString` | internal/filewriter/writer.go:227-238 | the requested length over the alphabet, or the process id; never a slash |
| `Paths.TempNameIsSwept` | internal/filewriter/cleanup.go:25-33 | a temp file lies in its target's directory and matches the sweep pattern, for all path strings |
| `Paths.MatchesTmpIff` | internal/filewriter/cleanup.go:25-25 | the pattern matches exactly the names with the literal infix |
| `Disk.GetOutputDirectories` | internal/filewriter/cleanup.go:61-78 | each parent of a non-empty path exactly once and nothing else |
| `Disk.Store.CleanupOrphanedTempFiles` | internal/filewriter/cleanup.go:11-58 | removes exactly the removable matching files of the listed directories, and counts them |
| `Disk.SweepIsARun` | internal/filewriter/cleanup.go:11-58 | every sweep is a run of the interleaving model with the same final disk |
| `Disk.CrashThenSweep` | cmd/secrets-sync/main.go:330-440 | after a crash anywhere, a sweep among active writers leaves no temp file of a configured path unless it could not be removed or was taken again; targets stay as they were until a new write is renamed onto them |
| `Disk.SweepSparesExactly` | internal/filewriter/cleanup.go:24-48 | an existing file survives the sweep exactly when it matches no pattern, lies in no listed directory or cannot be removed |
| `Witnesses.SweepDeletesAnAcceptedTarget` | internal/filewriter/cleanup.go:24-48 | an accepted configuration whose delivered target the sweep deletes |
| `Paths.CleanIdempotent` | internal/config/validator.go:232-237 | normalising a path twice is normalising it once, for all strings |
| `Paths.ParentStep` | internal/config/validator.go:232-237 | going into a directory and back out spells the same path, anywhere in any path |
| `Paths.DotStep` | internal/config/validator.go:232-237 | so does staying where one is |
| `Paths.RootParent` | internal/config/validator.go:232-237 | the root is its own parent |
| `Paths.CleanOfRelative` | internal/config/validator.go:232-237 | a relative path keeps its names and its leading steps up |
| `Paths.AbsIs` | internal/config/validator.go:232-236 | a relative path is completed by the working directory, an absolute one cleaned |
| `Paths.DirAndBaseOfChild` | internal/filewriter/cleanup.go:68-68 | parent and name of a child, whatever the parent |
| `Paths.BaseIgnoresTrailingSlash` | internal/syncer/syncer.go:113-113 | trailing slashes do not change a base name |
| `Guards.ModeOfNumeral` | internal/filewriter/writer.go:154-195 | which modes are accepted, by their octal digits |
| `Guards.OwnerOfNumeral` | internal/filewriter/writer.go:198-209 | signed 64-bit owners are read back as the numbers they spell |
| `Guards.ParseDigitsIff` | internal/filewriter/writer.go:159-206 | only digits below the base make a number |
| `Guards.LeadingZero` | internal/filewriter/writer.go:159-159 | leading zeros do not change it |
| `Validation.ValidateNoDuplicatePaths` | internal/config/validator.go:320-341 | accepts exactly when all paths of all secrets are pairwise distinct |
| `Config.AllPathsDistinctIff` | internal/config/validator.go:320-341 | that is, no two places of the configuration name the same file |
| `Validation.ValidateFile` | internal/config/validator.go:227-269 | accepts exactly the files FileOk describes and rewrites one element in place |
| `Validation.ValidateSecret` | internal/config/validator.go:169-225 | rewrites through a copied secret the array the configuration owns |
| `Validation.Validate` | internal/config/validator.go:15-41 | accepts exactly what Accepts describes; an accepted configuration has become its normal form |
| `Validation.AcceptsIff` | internal/config/validator.go:15-269 | what is accepted, with every limit and every attribute spelled out |
| `Validation.NormalPathIs` | internal/config/validator.go:227-237 | a path becomes itself cleaned, or cleaned under an absolute working directory |
| `Validation.NormalIs` | internal/config/validator.go:227-269 | an accepted file gets its normal path and the default mode 0600, and keeps the rest |
| `Syncer.AcceptedCredentialsCanLogIn` | internal/config/validator.go:57-71 | credentials are accepted if and only if some login with them can succeed |
| `Validation.NormalPathIsStable` | internal/config/validator.go:232-242 | accepted paths are absolute and clean, and stay so under any working directory |
| `Validation.SecondValidation` | cmd/secrets-sync/main.go:475-485 | validating an accepted configuration again accepts exactly when its normalised paths are distinct, and changes nothing |
| `Validation.ReloadedPathsAreDistinct` | cmd/secrets-sync/main.go:475-485 | a reload is accepted exactly when it is valid with distinct normalised paths |
| `Validation.OneLoadMayLeaveDuplicates` | internal/config/validator.go:29-38 | an accepted configuration with two spellings of one file |
| `Validation.AcceptedPathAtWriteTime` | internal/config/validator.go:239-242 | when an accepted path passes the check at write time |
| `Witnesses.AcceptedButNeverDelivered` | internal/config/validator.go:239-242 | an accepted configuration with matching names of which every delivery, on any disk, ends in an error |
| `Breaker.TripTestIsExact` | internal/vault/breaker.go:24-27 | the floating-point trip test equals the integer test, for any monotone rounding within 2^-53 |
| `Breaker.ReachableBreaker` | internal/vault/breaker.go:18-36 | with any requests in flight: closed with three failures means 5f < 3r; half-open admits at most MaxRequests; open has none of its own in flight |
| `Breaker.ProbesDecide` | internal/vault/breaker.go:18-36 | an open breaker that has expired closes after the configured number of successful probes, and opens again on any failing one |
| `Breaker.ClosedBreaker` | internal/vault/breaker.go:18-36 | a closed breaker admits everything and counts the outcomes of its own generation |
| `Breaker.TripPoint` | internal/vault/breaker.go:24-27 | the least number of further failures that meets the rule |
| `Breaker.FailuresTripExactly` | internal/vault/breaker.go:24-49 | consecutive failures open a closed breaker at exactly that number |
| `Retry.FailingRetriesReachVaultBoundedly` | internal/vault/retry.go:22-42 | a failing retry run reaches Vault min(MaxRetries+1, trip point) times, and when it leaves the breaker open |
| `Retry.RetriesAreBounded` | internal/vault/retry.go:18-45 | at most MaxRetries+1 fetches, and the waits between them are the backoff sequence |
| `Retry.RetriesStopAtFirstSuccess` | internal/vault/retry.go:22-42 | the run ends at the first fetch that yields data; without one it ends only when the retries are used up or the context is cancelled |
| `Retry.FetchReturnsStored` | internal/vault/fetcher.go:22-54 | a fetch that goes out returns the data Vault stores, for either version of the engine, and nothing if they are missing |
| `Retry.ThroughIff` | internal/vault/breaker.go:38-49 | when a request goes out, and what it does to the breaker |
| `Retry.RetryWaitIsBounded` | internal/vault/retry.go:22-34 | the waits of a whole run total at most MaxRetries*Max, for any multiplier, rounding and overflow |
| `Retry.WaitsAreCapped` | internal/vault/retry.go:20-33 | every wait after the first is capped, even on conversion overflow; all are exactly when the first is |
| `Retry.TruncIs` | internal/vault/retry.go:30-30 | a backoff is truncated towards zero |
| `Retry.WaitIsGeometric` | internal/vault/retry.go:30-33 | with an integer multiplier the k-th wait is min(Initial*m^(k-1), Max), for any float64-like rounding |
| `Retry.WaitsNeverShrinkIff` | internal/vault/retry.go:18-33 | the waits never shrink if and only if the first is within the cap and not above its own multiple, for any multiplier and any float64-like rounding without overflow |
| `Retry.WaitsGrow` | internal/vault/retry.go:30-33 | so they never shrink with a multiplier of at least one and a cap up to 2^53 |
| `Retry.HalvedWaitsShrink` | internal/config/env.go:63-63 | with the multiplier 0.5 the second wait is half the first |
| `Retry.BeyondExactABackoffMayShrink` | internal/vault/retry.go:30-30 | beyond 2^53 a backoff may shrink with multiplier one, so the geometric sequence needs the bound |
| `VaultClient.LoginKeepsSameLogin` | internal/vault/auth.go:29-40 | failed AppRole logins change neither token nor secret; exactly when a token login separates them |
| `VaultClient.LoginIff` | internal/vault/auth.go:29-40 | when a login succeeds, and which token and secret it leaves |
| `VaultClient.RenewalIsWellOrdered` | internal/vault/auth.go:64-116 | the order of notices in every renewal run, the end after failure or expiry, and one login for token and secret |
| `VaultClient.RenewalStepIff` | internal/vault/auth.go:64-116 | when an event makes the client log in again, what it is told and holds then, and when the loop ends |
| `VaultClient.RenewalKeepsGoing` | internal/vault/auth.go:64-109 | while Vault answers, an AppRole client renews for ever, reports each step, and holds the token granted last |
| `VaultClient.OnlyAppRoleReLogins` | internal/vault/auth.go:81-112 | the renewal loop never changes the session of any other client |
| `VaultClient.Client.Authenticate` | internal/vault/auth.go:29-40 | the new session is that of Login |
| `VaultClient.Client.AuthenticateAppRole` | internal/vault/auth.go:142-170 | the new session is that of AppRoleLogin |
| `VaultClient.Client.StartRenewal` | internal/vault/auth.go:44-122 | session and notices are those of RenewalRun |
| `VaultClient.Client.FetchSecret` | internal/vault/fetcher.go:14-55 | breaker, data, namespace and the request sent |
| `VaultClient.RequestPathIs` | internal/vault/fetcher.go:15-20 | the path that is read, with the data element exactly for version 2 |
| `VaultClient.Client.FetchSecretWithRetry` | internal/vault/retry.go:18-45 | breaker, data, waits and number of requests are those of RetryFetch; every request shows one login and namespace |
| `VaultClient.CreateClient` | cmd/secrets-sync/main.go:174-228 | a client comes back exactly when the connection and the login succeed |
| `ClientPool.CacheIsInvisibleAcrossReloads` | cmd/secrets-sync/main.go:491-501 | over any sequential runs and reloads every read shows the address in force, the default or named credentials of its store, and the namespace of the secret, else of the store, else the initial one, if and only if no two uses of a credential name clash |
| `ClientPool.CacheIsInvisible` | internal/syncer/syncer.go:38-71 | for one configuration that holds if and only if no credential name mixes empty and other namespaces |
| `Witnesses.RotatedTokenIsNotUsed` | cmd/secrets-sync/main.go:498-501 | two accepted configurations differing in the token: after the reload reads carry the first token |
| `ClientPool.CreatedAtMostOnce` | internal/syncer/syncer.go:38-53 | a credential name is created successfully at most once in a run |
| `ClientPool.ReadsNeverUseARenewedToken` | cmd/secrets-sync/main.go:230-275 | in every run of syncs and renewals a read carries the token of the sync that created its client |
| `Matching.MatchTemplates` | internal/syncer/syncer.go:101-119 | which files get which template, for every visiting order |
| `Matching.MatchingIsComplete` | internal/syncer/syncer.go:97-142 | every file finds a template if and only if base names are distinct and are the template names; each template then serves one file |
| `Syncer.RenderTemplates` | internal/syncer/syncer.go:85-95 | the rendering or its error, for every iteration order |
| `Syncer.SecretSyncer.GetOrCreateClient` | internal/syncer/syncer.go:38-53 | returns the cached client, or caches a new one exactly when it can be created |
| `Syncer.SecretSyncer.SyncSecret` | internal/syncer/syncer.go:56-157 | error, files written, disk, cache, and the client and path of every request of one sync |
| `Syncer.DeliveryIsPrefix` | internal/syncer/syncer.go:85-157 | which failures write nothing; otherwise the files before some index hold what the engine renders from the template of their base name and the fetched data, and nothing else changed |
| `Syncer.DeliveryStopsAtFirstObstacle` | internal/syncer/syncer.go:121-154 | a delivery stops at the first file with a bad attribute, no template of its own or a failing write, with that error |
| `Syncer.AttributesReachTheWrite` | internal/syncer/syncer.go:122-149 | mode, owner and group reach the write as the numbers spelled in the configuration |
| `Syncer.DeliveryNeedsMatchingNames` | internal/syncer/syncer.go:97-142 | success needs matching base names, and with matching names no file is without a template |
| `Syncer.ValidatedSecretsPassConfigChecks` | internal/config/validator.go:169-269 | a validated secret never fails on credentials lookup, count, mode, owner or group |
| `Syncer.AcceptedSecretIsDeliverableIff` | internal/syncer/syncer.go:97-154 | some delivery of an accepted secret with distinct paths succeeds if and only if its base names are its template names and its paths pass the check at write time |
| `Scheduling.Scheduler.AddSecret` | internal/syncer/scheduler.go:38-56 | the new table and channels are those of Add; no channel is closed twice |
| `Scheduling.Scheduler.RemoveSecret` | internal/syncer/scheduler.go:59-68 | the new table and channels are those of Remove |
| `Scheduling.Scheduler.Stop` | internal/syncer/scheduler.go:71-82 | closes the scheduler-wide channel and every open job channel once |
| `JobProtocol.StopChannels` | internal/syncer/scheduler.go:38-82 | in every run a stop channel is open exactly while the table maps the name to the job; a panic happens exactly on a second Stop |
| `JobProtocol.ResultsAreConserved` | internal/syncer/scheduler.go:106-124 | every finished sync is consumed, queued, dropped or not yet offered, in number and result by result; dropped are exactly the results offered to a full channel |
| `JobProtocol.ChannelIsFifo` | internal/syncer/scheduler.go:120-123 | over any run the monitor receives results in the order they were accepted |
| `JobProtocol.LastSyncIsLatestSuccess` | internal/syncer/scheduler.go:116-118 | over any run a job's last sync time is that of its latest successful sync, and nothing else changes it |
| `JobProtocol.LookedUpTimeIsLatestSuccess` | internal/syncer/scheduler.go:116-135 | over any run the time looked up by name is that of the latest success of the job in the table since it was added; a replacement starts at none |
| `JobProtocol.ReadyMeansDelivered` | cmd/secrets-sync/main.go:339-362 | ready exactly when some consumed sync succeeded; on the disk that sync left every file of its secret holds what the engine renders from its template and the data of one fetch; the status file follows |
| `SharedDisk.ReadyMeansOnDisk` | cmd/secrets-sync/main.go:339-362 | in every interleaving of jobs, monitor, writers and sweep, while ready every file of some secret is on the shared disk with the whole content of a write |
| `Daemon.OnlyTheFirstSchedulerIsHeard` | cmd/secrets-sync/main.go:338-509 | in every run over any reloads no channel is closed twice, earlier schedulers are stopped, later ones are never received, and readiness is that of the first one's results |
| `Daemon.ReadyIsReachableIff` | cmd/secrets-sync/main.go:338-509 | from any reached state, Ready can still become true if and only if the first scheduler alone can bring it about |
| `Daemon.ReloadAfterAFailureNeverReady` | cmd/secrets-sync/main.go:341-341 | a run whose second scheduler delivers, after which Ready is false whatever happens |
| `Witnesses.DeliveredButNeverReady` | cmd/secrets-sync/main.go:341-341 | the same with one accepted configuration, reloaded unchanged |
| `JobProtocol.StoppedJobFinishes` | internal/syncer/scheduler.go:89-104 | a stopped job completes at most one more sync, and each own step lowers its rank by one |
| `JobProtocol.StoppedJobIsNeverStuck` | internal/syncer/scheduler.go:89-104 | a stopped job that has not exited has a next step |
| `JobProtocol.ExitsOnlyWhenTold` | internal/syncer/scheduler.go:94-103 | a job exits only when its own or the scheduler-wide channel is closed, and then may whenever it waits |
| `JobProtocol.SyncsAreTicked` | internal/syncer/scheduler.go:89-98 | a job syncs once on its own and then at most once for each tick |
| `JobProtocol.OpenJobIsUnbounded` | internal/syncer/scheduler.go:94-103 | a job with an open channel can complete any number of syncs, even after Stop |
| `JobProtocol.BoundedExactlyWhenStopped` | internal/syncer/scheduler.go:89-104 | a live job is limited to one more sync if and only if its own channel is closed |
| `JobProtocol.AddedAfterStopIsUnbounded` | internal/syncer/scheduler.go:71-104 | a reachable stopped scheduler with a live job that is not so limited |
| `Health.Status.SetReady` | internal/health/server.go:31-50 | the new status is that of Update |
| `Health.Status.Monitor` | cmd/secrets-sync/main.go:339-362 | the status after any results is that of Monitored |
| `Health.MonitoredMeaning` | cmd/secrets-sync/main.go:339-362 | readiness is decided by all results, secret count and status file by the last |
| `Health.SuccessesIsCount` | cmd/secrets-sync/main.go:342-343 | the counter is the number of successful results |
| `RunLoop.OneSchedulerServes` | cmd/secrets-sync/main.go:445-509 | over any signals every instance but the last was stopped exactly once, and the last holds exactly the configuration in force |
| `RunLoop.ByNameIsLast` | cmd/secrets-sync/main.go:500-501 | the table holds the last secret of each name |
| `RunLoop.ConfigInForce` | cmd/secrets-sync/main.go:475-491 | the configuration in force is the last accepted one before a shutdown |
| `RunLoop.ActiveIff` | cmd/secrets-sync/main.go:475-491 | the last accepted one, by its place among the signals |
| `RunLoop.RejectedReloadsChangeNothing` | cmd/secrets-sync/main.go:475-485 | rejected reloads leave the running scheduler as it is, and every accepted one starts one scheduler |
| `RunLoop.ReloadedConfigsNeverClash` | cmd/secrets-sync/main.go:475-491 | every reloaded configuration in force has distinct file paths |
| `RunLoop.WatcherReloadIsExactIff` | cmd/secrets-sync/main.go:383-385 | a watcher reload yields the new table exactly when no old name is missing from the new configuration |
| `RunLoop.Run` | cmd/secrets-sync/main.go:330-509 | the loop over scheduler objects ends in the state of After: the last accepted configuration, and down exactly when a shutdown came |
| `Debounce.Watch` | reload-sidecar/reload-sidecar.sh:51-70 | the events that fire are those of Fired |
| `Debounce.DebouncerIsOptimal` | reload-sidecar/reload-sidecar.sh:53-64 | no choice of events spaced by the interval is larger than the fired set |
| `Debounce.FiringRate` | reload-sidecar/reload-sidecar.sh:53-64 | firings i and j are at least j-i intervals apart |
| `Debounce.SuppressedIsRecent` | reload-sidecar/reload-sidecar.sh:53-64 | an event is suppressed exactly when it is under an interval after the last firing or after time 0 |

## Left out

- Power loss: the source does not sync files to disk, so only process crashes are modelled.
- File modes, owners and the umask on disk: parsed and checked, not stored in the file-system model.
- Sorting of template names: matching is proved for every order instead.
- Environment expansion, address parsing and TLS file checks in validation: two yes-or-no inputs.
- Concurrent use of the client pool and of SetNamespace followed by Read: the source takes no lock, so no claim holds.
- Wrap-around of the breaker library's 32-bit counters.
- Infinite and not-a-number multipliers; an out-of-range conversion is an arbitrary value.
- Daemon.ReadyIsReachableIff: with file watching off; a watcher callback adds jobs to whichever scheduler it finds, without a lock.
- The getters IsReady and GetStatus. GetLastSyncTime is a function on the step model, not a method of the class.
- Shutdown timeout: the handlers are taken to return in time.
- Error texts, logs, metrics, tracing, the HTTP server, file watching and signal delivery.
- The sidecar's reload action itself.
- The rest of the command line (init, convert, validate, version, help).
