# winify: verified model of its state machines and codecs

winify deploys applications to Docker hosts and Windows servers. Most of it is I/O; this
project models the parts that have to be right whatever the I/O does, and proves what they
promise. Strings are byte sequences, one `char` per byte. Scripts, HTTP requests and SQL
statements appear only by their stated effect and by how they may fail: each operation takes a
plan of outcomes, and the plan is universally quantified, so a theorem covers every pattern of
failures. A failing copy leaves any directory tree whatsoever.

| file | what it models |
|---|---|
| `Deployments.dfy` | deployment rows, the statements on them, the rollback target and the history page |
| `Lifecycle.dfy` | callers, workers, streamers, crash and restart as atomic steps; the invariant of every interleaving |
| `LifecycleSafety.dfy`, `LifecycleHistory.dfy`, `LifecycleStreams.dfy` | what that gives over whole runs: statuses, guards, isolation, captured artifacts, stale choices, repeated rollbacks, streams |
| `LifecycleWitness.dfy` | runs that exist, for the statements above whose premises could be empty |
| `DeployJobs.dfy` | the `Deployer` and the streamer as classes, each method one schedule of those steps |
| `Docker.dfy` | single-image deploy with automatic recovery |
| `Hosts.dfy`, `Stamps.dfy`, `Iis.dfy`, `WinService.dfy` | the in-place Windows pipelines, their backups and compensation |
| `BlueGreen.dfy` | IIS slot swaps |
| `CommandOutput.dfy` | bounded command output and the last printed line |
| `Caddy.dfy` | route upsert with restore |
| `LoginBackoff.dfy`, `Deliveries.dfy` | login backoff, webhook replay suppression |
| `SharedVars.dfy`, `EnvForm.dfy`, `Quoting.dfy`, `Upload.dfy` | template expansion, the redacted edit form, shell and PowerShell quoting, chunked base64 upload |
| `Migrate.dfy`, `Bootstrap.dfy` | resumable migrations and provisioning |
| `Results.dfy`, `Text.dfy`, `Lexical.dfy`, `EnvRules.dfy` | shared pieces of Go's library and of configuration rules |

## Assumptions

- A worker's own status writes and the startup reconciliation succeed; log appends, artifact
  writes, reads and row creation may fail. SQLite ids are never reused.
- Only winify edits a target, its backups and its markers; repository, live and backup trees
  are disjoint; a failed backup script leaves the backups as they were.
- A failed proxy request has no effect, digests tell canonical hosts apart, and SHA-256 is a
  function `digest` (injective only where a lemma says so).
- A provisioning step's successful apply satisfies that step and undoes no other
  (`Bootstrap.WellBehaved`); for what a failed run leaves to later ones, an apply that fails half
  way undoes no other either (`Bootstrap.FailsHarmlessly`). The account of a run says which of its
  clauses need which.
- Clocks do not go back where a lemma asks for it.

## Where the code departs from what it says

Each comes with the exact condition under which the code does what it promises, and with an
input on which it does not.

- `Iis.BackupHoldsIff`: the backup script promises `NO_BACKUP` on a first deployment, but
  ensuring the site creates the directory beforehand, so every successful IIS deploy reports a
  backup. It holds anything, and a rollback may select it, exactly when there was a live
  directory with a file in it. Input: `Iis.FirstDeployBacksUpNothing`.
- `BlueGreen.RollbackAgreesIff`, `BlueGreen.DeployAgreesIff`: exactly when site and marker agree
  after a rollback or a deploy, for every way it can end, in terms of how its swaps fared. A
  rollback's own swap is not compensated, so it must not stop between repointing the site and
  writing the marker; nor may the compensation of a swap that went through; a half-done deploy
  swap has to be undone. `BlueGreen.NextDeployOverwritesIff`: otherwise, and only then, the next
  deploy copies over the slot being served. Inputs: `BlueGreen.HalfRollbacks` and, since a first
  deploy has nothing to go back to, `BlueGreen.FirstDeployStaysHalfway`.
- `LifecycleHistory.UnguardedChoiceStaleIff`: a rollback chooses its target, with two queries,
  before it takes its project's in-flight entry. Whatever happened meanwhile, the target it
  carries is the one a new choice would make exactly when it is not the latest attempt and no
  success lies between the two. `LifecycleHistory.FreshChoiceStaleIff` says what that means for
  runs in which the first answer still held at the second query (`Deployments.ChoiceFreshIff`),
  and `LifecycleHistory.NoAttemptNotStale` is what a caller can rely on. Input:
  `LifecycleWitness.StaleChoiceHappens`.
- `LifecycleStreams.StreamExact`: a log stream that told the row's terminal status has sent the
  complete output exactly when that is within the log cap. `LifecycleStreams.FullStreamStalls`
  shows why: a byte offset cannot tell old bytes of a full log from new ones. Input:
  `LifecycleWitness.OverflowHappens`.
- `Caddy.DoneServesIff`, `Caddy.RestoreUnchangedIff`: a completed registration serves its host
  exactly when no earlier route of others answers it differently, and a restored one, having
  moved to the end of the list, leaves every lookup as it was exactly when it was not ahead of
  such a route. Inputs: `Caddy.ShadowedRegistration`, `Caddy.RestoredBehind`.
- `Deliveries.StuckReservation`: releasing a webhook reservation ignores errors. A delivery whose
  start and release both failed is answered as a duplicate for ten minutes. Input:
  `Deliveries.StuckReservationHappens`.
- `Docker.UnhealthyStaysIff`: an unhealthy deploy is reported failed and its image left running
  exactly when there is nothing to fall back to, the recovery does not get to touch the
  containers, or it leaves that same image running. Input: `Docker.UnhealthyFirstDeploy`.
- `Bootstrap.DryRunSatisfiedIff`: a dry run returns no error even when steps are unsatisfied;
  it means satisfied exactly when nothing is left pending. Input: `Bootstrap.DryRunLeavesPending`.

## Model

| member | source | states |
|---|---|---|
| Lifecycle.RunKeepsInv | internal/deployment/deployer.go:88-285 | over every interleaving of callers, workers, streamers and restarts: in-flight entries and their holders match one to one, every open row is the one its entry's holder works on, captured artifacts are current, logs and streams agree with the output |
| Lifecycle.StepKeepsInv | internal/deployment/deployer.go:88-285 | each single step of each actor keeps that invariant |
| Lifecycle.InitInv | internal/deployment/deployer.go:41-50 | a fresh service satisfies it |
| Lifecycle.OwnRowKeepsInv | internal/deployment/deployer.go:224-282 | any change a job makes to its own row and log, within its phase, keeps the whole invariant |
| Lifecycle.WithRowKeepsInv | internal/models/store.go:759-773 | creating a queued row keeps the invariant, newest artifacts included |
| LifecycleSafety.OneOpenRow | internal/deployment/deployer.go:88-125 | after any run a project has at most one queued or running row, and it belongs to the holder of the project's in-flight entry |
| LifecycleSafety.StatusesMove | internal/models/store.go:776-809 | statuses move only queued, running, then success or failed; a terminal row does not change at all; only queued rows appear |
| LifecycleSafety.TerminalForever | internal/models/store.go:1116-1121 | over every run a terminal row is never altered and, once pruned, never comes back |
| LifecycleSafety.RestartCloses | internal/models/store.go:203-215 | a restart closes every open row as interrupted, keeps terminal rows, prunes only rows older than the cutoff and frees every project |
| LifecycleSafety.GuardsAreHeld | internal/deployment/deployer.go:113-123 | in every reachable state a project is in flight exactly when some job holds its entry |
| LifecycleSafety.EveryGuardReleased | internal/deployment/deployer.go:107-118 | in every interleaving without a restart, whatever its calls reply and however much it logs, a holder that gets five turns is gone and no longer holds its project's entry |
| LifecycleSafety.HolderAloneReleases | internal/deployment/deployer.go:107-118 | by its own steps alone it gives exactly its own entry back |
| LifecycleSafety.GuardIsolatesHistory | internal/deployment/deployer.go:89-91 | while a job holds its entry, arbitrary steps of everyone else leave its project's history unchanged but for the job's own row |
| LifecycleSafety.JobAddsOneSuccess | internal/deployment/deployer.go:273-282 | a job that finishes well adds exactly one success to its project's history, under any interleaving |
| LifecycleHistory.PreviousStays | internal/deployment/deployer.go:92-95 | the artifact a deploy captured to fall back to stays the newest success's artifact until it finishes |
| LifecycleHistory.ImageRollbackAdds | internal/deployment/docker.go:178-196 | an image rollback before which no new attempt of its project was made, interleaved with anything, records its target's artifact and changes nothing else in its project's history |
| LifecycleHistory.TwoImageRollbacksReturn | internal/deployment/docker.go:178-196 | two successful image rollbacks in a row, any actors stepping between and beside all their steps and, restarts included, between the two rollbacks, return to the artifact released before the first |
| LifecycleWitness.TwoImageRollbacksHappen | internal/deployment/docker.go:178-196 | two such rollbacks, with a deploy of another project between them, exist in a run from the start |
| LifecycleHistory.ChoiceStaysIff | internal/deployment/deployer.go:130-145 | over any run, a choice of target is still the one a new choice would make exactly when no success from the then latest attempt on precedes the now latest |
| LifecycleHistory.UnguardedChoiceStaleIff | internal/deployment/deployer.go:126-145 | whatever other actors did between the two queries and since, and for compose projects too, the target a job carries is the one a new choice would make exactly when it is before the latest attempt with no success between |
| LifecycleHistory.FreshChoiceStaleIff | internal/deployment/deployer.go:126-145 | where the first answer still held at the second query: exactly when no success from the then latest attempt on precedes the now latest |
| LifecycleHistory.NoAttemptNotStale | internal/deployment/deployer.go:130-145 | without a new attempt of the project the choice stands |
| Deployments.ChoiceFreshIff | internal/deployment/deployer.go:180-198 | the answer of the first query, read earlier, gives the target of now exactly when there is no success or it still holds |
| LifecycleWitness.StaleChoiceHappens | internal/deployment/deployer.go:126-145 | a run from the start in which another deploy, failed or not, makes the choice stale |
| LifecycleStreams.StreamExact | internal/server/deploy_stream.go:86-107 | under every interleaving, within the cap what a stream sent is a prefix of the output; one that told the row's terminal status has sent the complete output exactly when that is within the cap |
| LifecycleStreams.StreamGrows | internal/server/deploy_stream.go:86-107 | no step takes back what was sent, and an ended stream sends nothing more |
| LifecycleStreams.FullStreamStalls | internal/server/deploy_stream.go:92-95 | from the moment a stream has sent as much as a full log, no run sends it anything more |
| LifecycleWitness.OverflowHappens | internal/server/deploy_stream.go:86-107 | a run from the start that logs more than the cap and tells its stream success without having sent the output |
| Deployments.TargetIsNewestOlderSuccess | internal/deployment/deployer.go:179-199 | for every history the rollback target is the newest success strictly older than the latest attempt, and there is none exactly when the choice fails |
| Deployments.RollbackShifts | internal/deployment/deployer.go:179-199 | after one more success on a succeeded release, that release is the next rollback target, with its row intact |
| Deployments.OneMoreInFront | internal/models/store.go:847-852 | one new success, other projects changing freely, puts exactly that attempt in front of both histories |
| Deployments.Store.PreviousSuccessful | internal/deployment/deployer.go:179-199 | the target is a success older than some attempt, and a success newer than it is the latest attempt; without a target that holds of every success |
| Deployments.Store.HistoryPage | internal/server/handlers.go:331-346 | a rollback is offered on exactly the newest attempt of a known project whose rollback would find a target |
| Deployments.Store.Newest | internal/models/store.go:825-852 | the ordered, limited queries return the newest ids first, each matching row once |
| Deployments.NewestListed | internal/models/store.go:825-852 | a limited query lists distinct rows of the project, successes if asked, newest first, and leaves one out only when the limit is reached by newer ones |
| Deployments.OfferedSpelledOut | internal/server/handlers.go:331-346 | a rollback is offered on exactly the newest attempt of a listed project with an older success |
| Deployments.NewestArtifactIs | internal/deployment/deployer.go:92-95 | the captured artifact is that of the success with the greatest id, empty without one |
| DeployJobs.Deployer.Trigger | internal/deployment/deployer.go:88-122 | returns in-progress, a store failure that frees the project, or a job on a queued row with the newest success's artifact captured; nothing else changes; it is a run of the step machine |
| DeployJobs.Deployer.Rollback | internal/deployment/deployer.go:126-173 | what is re-run is a success older than some attempt with none newer but the latest attempt: its commit, or its image for a compose project that recorded one; no target, in progress and a failing write are refused in that order, and it is a run of the step machine |
| DeployJobs.Deployer.Work | internal/deployment/deployer.go:203-285 | the row ends as success exactly when resolving, connecting, pipeline and proxy all worked; its error is the last 16 KiB of the first failing one's text, its artifact the reported one exactly when the pipeline worked and the write did, its log the last 4 MiB of the lines of the steps that ran and the verdict; commit, ref and other rows stay, the project is freed, and exactly these steps of the machine were taken |
| DeployJobs.LinesAre | internal/deployment/deployer.go:205-210 | each stored line appears once with its line feed, a lost one not at all, all in order |
| DeployJobs.Deployer.Restart | cmd/control-center/main.go:139-147 | startup fails every open row as interrupted, removes exactly the rows that started before the cutoff, and leaves nothing in flight |
| DeployJobs.Streamer.Poll | internal/server/deploy_stream.go:86-107 | a failing or empty read ends the stream without sending; otherwise exactly the log behind the offset goes out, and the status is told exactly when the row succeeded or failed |
| Deployments.CapAppend | internal/models/store.go:29-34 | capping append by append keeps the same bytes as capping the whole text once |
| Docker.DockerTarget.Deploy | internal/deployment/docker.go:75-97 | the first step that fails is reported, success exactly when none does; without a build nothing changes, a failed write restarts nothing, and from then on a failure runs the previous image if it names one beyond spaces; the containers in every case |
| Docker.DockerTarget.RollbackImage | internal/deployment/docker.go:178-196 | reports and runs exactly the requested image, or reports the first step that fails, with the containers in every case |
| Docker.DeployAllOrNothing | internal/deployment/docker.go:99-121 | a deploy over a running release runs its image or ends with the previous one running, when a needed recovery starts |
| Docker.UnhealthyStaysIff | internal/deployment/docker.go:99-121 | exactly when an image reported unhealthy is still what runs |
| Docker.UnhealthyFirstDeploy | internal/deployment/docker.go:99-103 | a first deploy that is |
| Iis.IisTarget.Deploy | internal/deployment/iis.go:38-146 | for every pattern of failures: success exactly when every step that applies worked, down to the smoke test of a project that has one, and otherwise the first that did not; what is live, backed up, running and issued after each |
| Iis.IisTarget.Rollback | internal/deployment/iis.go:152-194 | the same for rollbacks, whose selection is the newest backup that holds a file |
| Iis.IisTarget.RecoverLive | internal/deployment/iis.go:336-350 | the backup, if any, is copied back and the start script is issued in every case |
| Iis.DeployNeverTorn | internal/deployment/iis.go:96-146 | over an existing directory with a working recovery copy, live ends as the build exactly when every step worked and otherwise as what it was, and every stop is followed by a start |
| Iis.RollbackNeverTorn | internal/deployment/iis.go:167-194 | once a backup is selected, live ends as exactly that backup, even when the rollback fails |
| Iis.DeployThenRollbacksRestore | internal/deployment/iis.go:152-194 | after any history with a clock that never goes back, a successful deploy over files followed by one or more rollbacks restores exactly the files from before it |
| Iis.BackupHoldsIff | internal/deployment/iis.go:409-423 | every successful deploy reports a backup; it holds a file, and is the one a rollback selects, exactly when the live directory did |
| Iis.FirstDeployBacksUpNothing | internal/deployment/iis.go:498-509 | a first deploy with an empty backup, after which a rollback finds none |
| WinService.WinServiceTarget.Deploy | internal/deployment/winservice.go:61-208 | as for IIS: success exactly when every step that applies worked, with static sites, service installation, environment and Caddy |
| WinService.WinServiceTarget.Rollback | internal/deployment/winservice.go:212-265 | as for IIS, stop and start skipped for static sites |
| WinService.WinServiceTarget.RecoverLive | internal/deployment/winservice.go:475-488 | the backup, if any, is copied back and a named service is started |
| WinService.DeployNeverTorn | internal/deployment/winservice.go:136-208 | all or nothing over an existing install directory, by which steps worked; starts following stops |
| WinService.RollbackNeverTorn | internal/deployment/winservice.go:240-265 | ends with the selected backup even when it fails |
| WinService.OpIsStep | internal/deployment/winservice.go:61-265 | every deploy and rollback, failed and torn ones included, is a step of the histories that Hosts.RollbacksRestore speaks of |
| WinService.DeployThenRollbacksRestore | internal/deployment/winservice.go:212-265 | deploy then rollbacks restores the earlier files after any history |
| Hosts.RollbacksRestore | internal/deployment/iis.go:152-194 | the restore theorem both pipelines use, over accounts of their operations |
| Hosts.ReleaseThenRollbacksRestore | internal/deployment/iis.go:511-520 | the same over what the operations did, complete, compensated or torn |
| Hosts.NamesStayBelow | internal/deployment/iis.go:498-509 | no operation up to a moment leaves a backup named later than it |
| Hosts.Machine.LatestBackup | internal/deployment/iis.go:511-520 | selects the newest name among the backups that hold a file |
| Stamps.StampOrder | internal/deployment/iis.go:501-501 | `yyyyMMdd-HHmmss` names sort as text exactly as they do in time |
| Stamps.StampIs | internal/deployment/iis.go:501-501 | the name is four digits of the year, two each of month and day, a hyphen, two each of hour, minute and second |
| BlueGreen.Site.Deploy | internal/deployment/iis.go:214-244 | success exactly when every step from ensuring the site to the smoke test worked and the build is not empty, otherwise the first that did not; the directories, path and marker after each; a failed swap or smoke test whose compensation goes through serves and records the old slot with its old files; no copy goes to the slot served meanwhile |
| BlueGreen.Site.Rollback | internal/deployment/iis.go:246-270 | the same for rollbacks, which write no file; a failed swap stays as it is, a failed smoke test is compensated |
| BlueGreen.Inactive | internal/deployment/iis.go:207-212 | the slot to write is one of the two and never the active one |
| BlueGreen.DeployKeepsAgreement | internal/deployment/iis.go:214-244 | site and marker agree after a deploy when a needed compensation goes through; failed: the served slot and its files are as before; successful: exactly the build is served |
| BlueGreen.RollbackKeepsAgreement | internal/deployment/iis.go:246-270 | the same for a rollback, which moves no file |
| BlueGreen.RunKeepsAgreement | internal/deployment/iis.go:198-317 | over every run, agreement after each operation exactly when each one's swaps fared as those conditions say |
| BlueGreen.CompensatedRunAgrees | internal/deployment/iis.go:198-317 | over every run in which needed compensations go through and a rollback's own swap fails only before repointing: agreement throughout, failed operations leave the served path, successful ones move it |
| BlueGreen.NeverWritesServedSlot | internal/deployment/iis.go:214-228 | over every run whose earlier operations meet their conditions, the slot a deploy writes is not the one the site serves |
| BlueGreen.DeployThenRollbackRestores | internal/deployment/iis.go:246-270 | a successful deploy and rollback serve the earlier files again |
| BlueGreen.RollbackAgreesIff | internal/deployment/iis.go:246-270 | exactly which outcomes of a rollback's own and compensating swap leave site and marker agreeing, for every way it can end |
| BlueGreen.DeployAgreesIff | internal/deployment/iis.go:214-244 | exactly which outcomes of a deploy's swap and its compensation leave site and marker agreeing, for every way it can end |
| BlueGreen.NextDeployOverwritesIff | internal/deployment/iis.go:207-212 | with both pointing at slots, the next deploy writes the served slot exactly when site and marker disagree |
| BlueGreen.HalfRollbacks | internal/deployment/iis.go:262-268 | two rollbacks, one half-done and one undone half way, after which it does |
| BlueGreen.FirstDeployStaysHalfway | internal/deployment/iis.go:273-282 | a first deploy whose swap stopped half way is never compensated |
| CommandOutput.SyncBuffer.Write | internal/deployment/ssh_client.go:87-113 | head, tail and flag stay functions of the concatenated stream, for every chunking |
| CommandOutput.SyncBuffer.String | internal/deployment/ssh_client.go:115-122 | renders exactly what capping the whole stream at once gives |
| CommandOutput.LongIsCut | internal/deployment/ssh_client.go:115-122 | of more than 2 MiB the first and the last MiB stay, with the notice between |
| CommandOutput.CollectOutput | internal/deployment/ssh_client.go:79-122 | any chunking of the same output gives the same text |
| CommandOutput.LastLine | internal/deployment/target.go:306-314 | the loop returns the last line that is not blank, trimmed |
| CommandOutput.LastLineIs | internal/deployment/target.go:306-314 | that is the text between the last newline before the final non-space byte and that byte |
| CommandOutput.LastLineSpelledOut | internal/deployment/target.go:306-314 | a line behind the start or a line feed, spaces around it and nothing but spaces after it, is what is read |
| CommandOutput.LastLineSurvivesTruncation | internal/deployment/target.go:112-117 | a last line that begins in the kept tail is read back unchanged from truncated output |
| Caddy.Client.Register | internal/proxy/caddy.go:77-124 | an accepted host and upstream with no request failing end registered from any list and server; how every other call ends, by which requests failed; the list afterwards route by route; only the host's lookup may change, ids stay distinct, routes of others stay |
| Caddy.Client.Deregister | internal/proxy/caddy.go:128-135 | removes the host's own route, leaving the others in order and the host to routes of others; a missing route is no error |
| Caddy.Client.EnsureServer | internal/proxy/caddy.go:139-190 | never touches routes; where the read and a needed creation work, the put of the settings suffices, and the patch does where they exist or were just created; nothing less does |
| Caddy.RunRefinesTable | internal/proxy/caddy.go:77-135 | over every run with every fault, from any list: ids stay distinct, routes of others stay, and first-match lookup is the table the calls describe |
| Caddy.InitialTable | internal/proxy/caddy.go:77-135 | every list there may be at the start has such a table |
| Caddy.DoneServesIff | internal/proxy/caddy.go:107-124 | exactly when a completed registration serves its host |
| Caddy.RestoreUnchangedIff | internal/proxy/caddy.go:115-122 | exactly when a restored route leaves every lookup as it was |
| Caddy.ShadowedRegistration | internal/proxy/caddy.go:107-124 | a catch-all of others keeps a completed registration from serving its host |
| Caddy.RestoredBehind | internal/proxy/caddy.go:115-122 | a restore that loses the host to a catch-all of others |
| Caddy.RouteIDInjective | internal/proxy/caddy.go:69-73 | route ids coincide exactly for hosts with the same canonical form |
| Caddy.CanonicalIs | internal/proxy/caddy.go:69-73 | the canonical form drops the spaces around a host and one final dot and lowers the letters A to Z, nothing else |
| Caddy.FirstMatchIs | internal/proxy/caddy.go:107-112 | the upstream of a host is that of the first route answering it, none without one |
| Caddy.RemoveHost | internal/proxy/caddy.go:101-103 | removing by id leaves every other lookup, the host to routes of others, and distinct ids |
| LoginBackoff.LoginService.HandleLogin | internal/server/handlers.go:70-90 | a locked key is told the seconds left and nothing changes; otherwise a sign-in is welcomed and clears the key, wrong credentials are unauthorized and counted within fifteen minutes of the first, from the fifth on locking for five, and a failing backend is a server error; other keys stay |
| LoginBackoff.OneMoreRequest | internal/server/handlers.go:77-83 | over runs a request is a recorded failure exactly when it is answered unauthorized |
| LoginBackoff.EpochsOfRun | internal/auth/auth.go:89-119 | the recorded failures are a sequence of epochs, each of at most eight within the window and with lockout gaps from the fifth on, each beginning more than the window after the one before began |
| LoginBackoff.FailureBound | internal/auth/auth.go:89-119 | a failing run of T minutes admits at most 8 * (T / 15 + 1) failures |
| LoginBackoff.LockoutGap | internal/auth/auth.go:114-117 | from the fifth failure of an epoch on, the next is at least five minutes later |
| LoginBackoff.DeletionInvisible | internal/auth/auth.go:100-102 | deleting stale entries changes no answer after any run |
| Deliveries.Store.HandleWebhook | internal/server/webhook.go:107-131 | a failed recording is an error, a row within 600 seconds a duplicate, and past that the start decides: accepted, conflict or error; a row is left exactly where the start worked or its release did not, the others for thirty days unless the purge fails |
| Deliveries.ReplaySuppressed | internal/models/store.go:1094-1113 | a delivery that was let through and not released, started or not, is not let through again within ten minutes, whatever happens in between |
| Deliveries.StuckReservation | internal/server/webhook.go:119-129 | a delivery whose start and release both failed is answered as a duplicate for ten minutes |
| Deliveries.StuckReservationHappens | internal/server/webhook.go:119-129 | two requests of which the second is |
| Deliveries.RetryAccepted | internal/server/webhook.go:119-129 | a delivery whose start failed and whose reservation was released is let through on its next retry that can be recorded |
| Deliveries.PurgeInvisible | internal/models/store.go:1094-1100 | the thirty-day purge changes no answer after any run |
| SharedVars.ExpandValue | internal/deployment/sharedvars.go:40-55 | the result is the leftmost non-overlapping substitution with inserted values never rescanned, an error exactly when a reference is unknown |
| SharedVars.ScanUnique | internal/deployment/sharedvars.go:10-10 | there is only one leftmost non-overlapping scan of a text |
| SharedVars.MatchAtIs | internal/deployment/sharedvars.go:10-10 | the matcher finds a reference exactly where the pattern begins one, with the only possible end and name |
| SharedVars.ReferenceIs | internal/deployment/sharedvars.go:10-10 | a reference is two opening braces, any of five blanks, one or more letters, digits, underscores, dots or hyphens, blanks, two closing braces |
| SharedVars.ExpandsFirst | internal/deployment/sharedvars.go:40-55 | the first reference gives way to its variable between the text before it and the expansion of the rest; the last unknown name is the error |
| SharedVars.ExpandsToUnique | internal/deployment/sharedvars.go:40-55 | that substitution is determined by text and variables |
| SharedVars.ExpandIdentity | internal/deployment/sharedvars.go:13-20 | without references expansion is the identity |
| SharedVars.ExpandSharedVars | internal/deployment/sharedvars.go:25-38 | expands every value, or fails when some value does, in any map order |
| SharedVars.HasSharedRefs | internal/deployment/sharedvars.go:13-20 | true exactly when some value holds a reference |
| SharedVars.ResolveSharedVars | internal/deployment/deployer.go:335-357 | skipping the store when there is no reference gives what full expansion gives; each error occurs only for its own reason, an invalid environment being one that fully expands to an invalid one |
| EnvForm.FormatEnv | internal/server/admin.go:760-774 | prints every key once, sorted, and no value |
| EnvForm.ParseEnv | internal/server/admin.go:734-753 | the map the lines describe, later lines winning |
| EnvForm.BindingIs | internal/server/admin.go:734-753 | a line sets the trimmed text before its first equals sign to the trimmed text behind it, unless that is empty or a comment; a line without one sets nothing |
| EnvForm.LinesShow | internal/server/admin.go:769-771 | a form line is its key, an equals sign and the marker |
| EnvForm.PreserveRedactedEnv | internal/server/admin.go:778-797 | markers keep stored values, unknown keys with only a marker are dropped |
| EnvForm.FormParses | internal/server/admin.go:734-753 | a form of well-formed lines, LF or CRLF, parses to exactly its entries |
| EnvForm.SaveUnchanged | internal/server/admin.go:348-360 | saving the untouched form stores the environment unchanged |
| EnvForm.SaveChangedLine | internal/server/admin.go:778-797 | changing a line changes exactly that variable |
| EnvForm.SaveDeletedLine | internal/server/admin.go:778-797 | deleting a line removes exactly that variable |
| EnvForm.SaveAddedLine | internal/server/admin.go:778-797 | adding a line adds exactly that variable |
| EnvForm.SaveProjectEnv | internal/server/admin.go:355-358 | the build environment is merged only when its field was submitted |
| Quoting.ShellQuoteRoundTrip | internal/deployment/target.go:280-282 | read by sections 2.2.1 and 2.2.2 of the POSIX.1-2017 Shell Command Language, a quoted string is the single word it quotes |
| Quoting.ShellQuoteReads | internal/deployment/target.go:280-282 | it reads so in any context, and reading goes on right behind it |
| Quoting.QuotesAre | internal/deployment/target.go:280-287 | text stands between apostrophes, and each apostrophe in it becomes four characters for a shell, two for PowerShell |
| Quoting.DockerBuildCommand | internal/deployment/docker.go:298-302 | the assembled line reads as exactly the intended argument list for every build environment |
| Quoting.BuildWordsAre | internal/deployment/docker.go:298-302 | the arguments are the tag, the file, one assignment for each key and the directory |
| Quoting.PsQuoteRoundTrip | internal/deployment/target.go:285-287 | a PowerShell literal reads back and ends right before what follows, exactly when that does not begin with an apostrophe |
| Upload.DecodeEncode | internal/deployment/winservice.go:371-371 | decoding the base64 text (section 4 of RFC 4648) of any payload gives the payload |
| Upload.EncodeIs | internal/deployment/winservice.go:371-371 | each three bytes are four symbols of their bits in order, with one or two padding signs at the end |
| Upload.ChunksCover | internal/deployment/winservice.go:378-386 | the chunks concatenate to the text and none is longer than 100000 |
| Upload.Target.SendChunks | internal/deployment/winservice.go:378-386 | the loop sends a prefix of the chunks in order, all of them on success |
| Upload.Target.EnsureBinary | internal/deployment/winservice.go:364-400 | against any target success means the installed file has the payload's digest, and is the payload when the digest tells payloads apart; an honest target ends with the payload; each failure is reported for its own reason, and up to assembly leaves the destination alone |
| Migrate.Database.Migrate | internal/models/migrate.go:17-82 | one run gets to the first file with a bad name, a failing check or, not being committed yet, any failure, and reports exactly that; bodies below it are committed, a failure past the commit included, recorded versions are exactly theirs, and no error means all applied |
| Migrate.VersionIs | internal/models/migrate.go:34-42 | a version is the number before the first underscore of a name that ends in .sql |
| Migrate.RunsCommitInOrder | internal/models/migrate.go:17-82 | the same over any number of runs, and once all is applied it stays so |
| Migrate.CommittedAtMostOnce | internal/models/migrate.go:41-48 | no body commits twice |
| Bootstrap.Bootstrapper.Run | internal/bootstrap/bootstrap.go:255-289 | for any steps, every turn is the one StepTakenIs spells out, on what the one before left, up to the first failure; which were applied and recorded and, where the steps are well behaved, what is kept and satisfied |
| Bootstrap.StepTakenIs | internal/bootstrap/bootstrap.go:255-289 | one turn checks, applies unless the step is satisfied or the run dry, and records done or the error; a failing command stops the run, a failing write does not |
| Bootstrap.RunMakesComplete | internal/bootstrap/bootstrap.go:323-346 | a real run without error whose writes succeed makes provisioning complete |
| Bootstrap.Bootstrapper.Complete | internal/bootstrap/bootstrap.go:323-346 | true exactly when every step is recorded done and still satisfied |
| Bootstrap.SatisfiedPrefixNeverReapplied | internal/bootstrap/bootstrap.go:255-289 | steps below the first failure stay satisfied and no later run applies them |
| Bootstrap.DryRunSatisfiedIff | internal/bootstrap/bootstrap.go:272-275 | a dry run changes nothing, and means satisfied exactly when nothing is pending |
| Bootstrap.DryRunLeavesPending | internal/bootstrap/bootstrap.go:272-275 | a dry run without error over an unsatisfied step |
| Lexical.SortedKeys | internal/server/admin.go:764-768 | whatever order a map is walked in, its sorted key list comes out |

## Left out

- Lifecycle.RunKeepsInv: a worker whose own status write fails, or a startup reconciliation that
  fails, leaves its row open; both are excluded.
- LifecycleHistory.TwoImageRollbacksReturn: nothing may be added to or pruned from the project's
  history between the two rollbacks or while one waits for its entry; UnguardedChoiceStaleIff is
  the other case. Compose rollbacks re-resolve a commit and are covered only by the row the
  rollback records.
- DeployJobs.Deployer.Work: the wording of log lines and secret redaction are parameters.
- LifecycleStreams.StreamExact: JSON encoding of a chunk that splits a multi-byte character is not
  modelled.
- WinService.DeployNeverTorn: restoring NSSM service definitions is not promised by the source and
  not modelled.
- Iis.DeployNeverTorn: recovery on a first deployment has nothing to restore and is excluded by
  its precondition.
- BlueGreen.RunKeepsAgreement: assumes nobody else repoints the site or deletes a slot; an
  existing site is assumed to start in agreement.
- BlueGreen.Site.Deploy: begins at ensuring the site; what comes before (configuration, clone,
  build) is in Iis.IisTarget.Deploy and touches neither slot.
- EnvForm.ParseEnv: trimming removes the six ASCII spaces; Unicode spaces are not modelled. An
  absent map and an empty one are the same value.
- CommandOutput.LastLine: trims the six ASCII spaces only.
- SharedVars.ResolveSharedVars: the variable scopes of the store are one map.
- Quoting.PsQuoteRoundTrip: the typographic apostrophes that PowerShell also accepts as quotes are
  not modelled.
- Caddy.RouteIDInjective: the digest is a parameter; truncation of the hash is covered by assuming
  it tells hosts apart.
- Caddy.Client.Register: routes of others match one host, a suffix or every host; other matchers,
  and the 1 MiB limit on a route snapshot, are not modelled.
- Deliveries.ReplaySuppressed: the replay key is abstract; two bodies share it exactly when the
  source's hash does.
- LoginBackoff.LoginService.HandleLogin: starting the session after a sign-in, which may fail once
  the failures are cleared, is not part of the model.
- LoginBackoff.FailureBound: requests of one key are sequential; a successful sign-in starts a new
  run.
- Migrate.Database.Migrate: file contents are their names, the file list is fixed, and versions
  are distinct.
- Retired proxy domains are not modelled.
- Health plans, toolchain installation, git credentials, Caddyfile text and configuration
  validation: single-branch facts or I/O.
- Sessions, password hashing, encryption, notifications, metrics, audit log, UI and the GitHub,
  Cloudflare and assistant clients.
