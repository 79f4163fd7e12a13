# Verification of the TrustTunnel controller

A Dafny model of the controller's core: how certificates, configuration revisions and users are
published together and taken back, the certificate lifecycle, the endpoint supervisor, the deeplink
rewriter, and the stores, renderer, login limiter, sessions, backup and legacy import around them.
`dafny verify dfyconfig.toml` checks all of it.

## What is modelled

| file | part of the program |
|---|---|
| Domain, Config, TableText, RevisionNames, Strings | entities; validation, rendering and revision framing; reading the rendered text back, and what a revision name tells |
| Stores | the two revision stores, one disk state per file system call |
| TlsState, Database | the persisted certificate record and its history; the rows |
| Coordinator, Endpoint | `Publish`, `RevertLast`, `CompletePublished` and the restore helpers; the endpoint process they call |
| UserChanges | `ApplyManager` and `UserManager` |
| Certificates, OrderRate | `Manager.Ensure`, issue, renew, import, settings; how often orders are placed |
| Protocol, ProtocolSteps | all of these interleaved under the publication lock; the calls on the objects as steps of it |
| Supervisor | the object with its in-place slice, and the interleaving with watchers, timers and Stop |
| Deeplink | `tuneLink`, `varint` and the independent reader |
| Timestamps, Sessions, LoginLimiter | session expiry by text, session operations, login delays |
| Backup, Migration | archive, extract, manifest; the restartable legacy import |

Failures are parameters: each operation takes a record or a set naming the calls that fail, so every
contract speaks about every combination of failures. Objects that the program updates in place are
classes; their methods are proved against the predicates and functions of the same module, and the
interleaving in `Protocol` uses those same predicates (`Published`, `Undone`, `Reverted`,
`ApplySucceeded`, `Exact`) as its steps. A digest is injective: a configuration revision is
named by its files, a TLS revision by its pair.

## Where the code does not do what one would expect

Each of these has a lemma or a contract with the exact condition, and one with a concrete input.

- The undo of a user change swaps the two configuration pointers. With working undo calls it leaves the
  old configuration current exactly when there was one, and it differed from the new one, or equals the
  one the swap brings back, or there is none to swap with (`UserChanges.RollbackExact`). After an apply
  that rendered the current revision again it can go one revision too far, possibly to one with a
  revoked user (`UserChanges.RollbackCanGoTooFar`); on the first configuration it does not go back at
  all (`UserChanges.FirstConfigurationStays`).
- A publication signals a running endpoint, whose command line keeps naming the configuration revision it
  was started with. Afterwards the child was started with the recorded revision exactly when none was
  held, or it had been started with that one (`Coordinator.TlsCoordinator.Publish`,
  `Coordinator.OnlySignalled`). A child that the publication itself started and that did not get ready
  keeps the configuration that was taken back (`Coordinator.TakenBackStillRuns`). A user change restarts
  it with the recorded revision (`UserChanges.UserManager.Mutate`).
- Session expiry compares texts with trimmed fractions. Inside one second the comparison is wrong
  exactly when one trimmed fraction is a prefix of the other (`Sessions.AcceptanceExact`,
  `Sessions.ComparisonCanErr`).
- A tuned link may be too long to be tuned again (`Deeplink.RetuneText`,
  `Deeplink.FullLinkRetuneFails`).
- `Stop` may return before the watcher released the command, so a following Start is refused
  (`Supervisor.StartAcceptedWhenIdle`, `Supervisor.RestartCanBeRefused`), and a sleeping timer restarts
  its own revision after another one was started (`Supervisor.OtherRevisionExact`,
  `Supervisor.OlderRevisionReturns`).
- The extraction checks a link target without regard to where the link lies: links such as `../a` that
  stay in the tree can be archived but not extracted (`Backup.ArchiveRoundTrip`,
  `Backup.InTreeLinkRefused`).
- The manifest gives a link the digest of the bytes `symlink:` and its target, which a regular file can
  hold as well (`Backup.TamperingFound`, `Backup.SwappedLinkPasses`).

## Model

| member | source | states |
|---|---|---|
| `Protocol.JointWheneverFree` | internal/service/tls_apply.go:64-198 | in every interleaving of user changes, issue, renewal, import and settings saves, whatever fails: while the publication lock is free, the certificate half of the agreement (metadata, TLS pointer, AdminUI pair) and the configuration half (recorded revision, configuration pointer, certificate paths, active users) each hold unless an inexact undo has broken them since they were last established; with both, the five facts agree |
| `Protocol.Recovers` | internal/service/tls_apply.go:188-198 | whatever went wrong before, a completed publication puts all five facts in agreement again, and a successful user change the configuration half |
| `Protocol.InvAlways` | internal/service/tls_apply.go:64-198 | the inductive invariant behind both holds in every state of every run, also in the middle of a publication or of a user change |
| `Protocol.OrderlyKept` | internal/certificate/issue.go:48-93 | every step keeps lock holder, phases, user ids and unique names in order |
| `Protocol.InvKept` | internal/service/tls_apply.go:64-198 | every step keeps the whole invariant |
| `Protocol.CarriedKept` | internal/service/tls_apply.go:64-198 | every step keeps what a running publication rests on, however the system came to be; a written record makes its completion an agreement |
| `Protocol.SaveKeeps` | internal/certificate/issue.go:290-298 | a record saved without a publication keeps both halves, even while a user change is half done |
| `Protocol.PublishKeeps` | internal/certificate/issue.go:144-171 | publish, failed publish, confirmed and failed record and revert keep both halves as far as the undo was exact; the completion establishes them |
| `Protocol.UserKeeps` | internal/service/users.go:52-148 | a changed, a created and a restored row and an undone apply keep both halves; a successful apply establishes the configuration half |
| `Protocol.AdminMovesOnlyOnComplete` | internal/service/tls_apply.go:188-198 | no step but the completion of a confirmed publication changes the pair the AdminUI shows |
| `Protocol.RevokedAlways` | internal/service/users.go:80-121 | a revoked user stays revoked under that name in every later state, and no pending undo would bring another row back |
| `Protocol.RevokedStaysOut` | internal/service/users.go:98-106 | after a revocation the user stays revoked under that name for ever, and whenever the lock is free and the configuration half is in agreement the current credentials file lacks the name |
| `Protocol.RevokeSticks` | internal/service/users.go:98-148 | a revocation whose apply succeeded: the user was not revoked before, is revoked in all later states, and the current credentials file lacks the name whenever the lock is free and the configuration half is in agreement |
| `Protocol.FreshStarts` | internal/persistence/sqlite.go:189-194 | a new installation is a state from which these theorems run |
| `ProtocolSteps.PublishStep` | internal/service/tls_apply.go:64-150 | a call of `Publish` is a publish step of the protocol; with working restore calls it breaks nothing |
| `ProtocolSteps.ConfirmStep` | internal/certificate/issue.go:164-167 | writing the record is a confirming or failing step |
| `ProtocolSteps.CompleteStep` | internal/service/tls_apply.go:188-198 | completing is the step that frees the lock with both halves in agreement |
| `ProtocolSteps.RevertStep` | internal/service/tls_apply.go:152-172 | a call of `RevertLast` is a revert step; with working calls and existing revisions it breaks nothing |
| `ProtocolSteps.DegradeStep` | internal/certificate/issue.go:290-298 | recording the failure is the step that frees the lock after a failure |
| `ProtocolSteps.ApplyStep` | internal/service/apply.go:64-127 | a call of `ApplyCurrentLocked` is an apply step; with working undo calls a failed one is exact if and only if the restart was not reached or the rollback condition holds |
| `ProtocolSteps.RowStep` | internal/service/users.go:123-140 | writing the changed row is a row step |
| `ProtocolSteps.RestoreStep` | internal/service/users.go:141-148 | putting the old row back is the step that frees the lock after a failed change |
| `ProtocolSteps.ApplyRun` | internal/service/users.go:136-148 | the apply and, after a failure, the old row are a run that frees the lock; with working undo calls and under the rollback condition it breaks nothing |
| `ProtocolSteps.MutateRun` | internal/service/users.go:123-148 | the calls of a user change, one after the other, are a run of the protocol that frees the lock; a success is the run of entering, changing the row and applying, and a failure has no successful apply |
| `ProtocolSteps.FinishRun` | internal/certificate/issue.go:144-171 | the calls with which an operation ends, one after the other, are a run of the protocol that frees the lock; from an agreeing state and with working undo calls both halves stay in agreement |
| `Coordinator.TlsCoordinator.Publish` | internal/service/tls_apply.go:64-150 | it succeeds exactly when the pair and the rows pass their checks, both stores take their revisions, and no other call fails - where a user is active, neither the reload nor the readiness check; a success moves TLS pointer, configuration pointer and recorded revision to the new pair and its rendering; a failure whose restore calls work leaves all three as on entry, and never touches the AdminUI pair; a held child is signalled once and stays the one it was, so afterwards it was started with the recorded revision if and only if none was held or it had been started with that revision |
| `Coordinator.TlsCoordinator.Switch` | internal/service/tls_apply.go:64-109 | the steps up to the recorded revision, with the TLS pointer restored when a later one fails |
| `Coordinator.TlsCoordinator.Prepare` | internal/service/tls_apply.go:89-109 | checking the AdminUI pair, rendering with the new paths and installing; a failure leaves the configuration pointer and the row as they were |
| `Coordinator.TlsCoordinator.Install` | internal/service/tls_apply.go:101-109 | applying and recording the configuration, or restoring the old one when either fails |
| `Coordinator.TlsCoordinator.Reload` | internal/service/tls_apply.go:113-150 | it fails if and only if a user is active and the reload or the readiness check fails; then both pointers and the recorded revision are taken back and the endpoint is reloaded again; without an active user nothing is called |
| `Coordinator.TlsCoordinator.Recover` | internal/service/tls_apply.go:133-142 | the undo of a reload that failed: both pointers and the recorded revision, then the endpoint |
| `Coordinator.TlsCoordinator.RevertLast` | internal/service/tls_apply.go:152-172 | exactly the stored publication is taken back, and nothing happens without one; it reports success only if everything was restored and, where a user was active, the endpoint was signalled, or started with the restored revision |
| `Coordinator.TlsCoordinator.Retreat` | internal/service/tls_apply.go:152-186 | restores both pointers and the recorded revision, the "nothing published yet" case included |
| `Coordinator.TlsCoordinator.CompletePublished` | internal/service/tls_apply.go:188-198 | the pair of the pending publication becomes visible and the publication is forgotten |
| `Coordinator.RevertUndoesPublish` | internal/service/tls_apply.go:152-172 | reverting a publication from an agreeing state gives back the state before it, and the revisions it needs still exist |
| `Coordinator.UndoneIsJoint` | internal/service/tls_apply.go:83-150 | a publication that failed and was undone leaves the five facts in agreement |
| `Coordinator.UndoneKeepsHalves` | internal/service/tls_apply.go:83-150 | the same for either half alone |
| `Coordinator.ConfirmedIsJoint` | internal/service/tls_apply.go:188-198 | a publication whose record was written and that was completed puts the five facts in agreement, from whatever state it started |
| `Coordinator.RevertKeepsHalves` | internal/service/tls_apply.go:152-186 | reverting brings back either half of the agreement that held before the publication |
| `Coordinator.RetreatUndoes` | internal/service/tls_apply.go:174-186 | restoring the values read on entry undoes a switch |
| `Coordinator.FindActive` | internal/service/tls_apply.go:113-119 | the loop finds an active user if and only if there is one |
| `Coordinator.OnlySignalled` | internal/service/tls_apply.go:125-132 | two publications in a row: the child keeps the command line of the first, the recorded revision is the second |
| `Coordinator.TakenBackStillRuns` | internal/service/tls_apply.go:133-149 | a publication that starts a child, finds it not ready and takes everything back leaves the child with what was taken back |
| `Coordinator.AdminCertificate.Prepare` | internal/certificate/admin_certificate.go:19-35 | only a readable, currently valid pair is accepted, and nothing becomes visible yet |
| `Endpoint.ReadinessProcess.Restart` | internal/app/app.go:254-259 | the exact child afterwards: of the given revision, or none, or the old one when it could not be stopped; a child that does not get ready is held all the same |
| `Endpoint.ReadinessProcess.Reload` | internal/app/app.go:260-272 | a held child is signalled and keeps its command line; without one the recorded revision is started |
| `UserChanges.ApplyManager.ApplyCurrentLocked` | internal/service/apply.go:64-127 | it succeeds exactly when the rows render, the store takes their files and no other call fails, the restart or reload among them; a success moves the pointer to the rendering of the rows, records it and, for a restart, leaves a child started with it; after a failure with working undo calls the rows and the recorded revision are as before, the child is as before or was started with the old revision, and the current configuration is as before if and only if the files had not been applied or the rollback condition holds |
| `UserChanges.ApplyManager.TakeBack` | internal/service/apply.go:111-127 | the undo: swap the pointers back, restore the recorded revision, and restart or reload the process with it |
| `UserChanges.ApplyManager.Activate` | internal/service/apply.go:94-127 | with the files applied: it fails if and only if recording, restart or reload fails; otherwise the revision is recorded and the process follows; the undo leaves the pointer as before exactly under the rollback condition |
| `UserChanges.RollbackExact` | internal/config/materializer.go:104-145 | rolling back an apply with working calls restores the old current revision if and only if there was one, and it differed from the new one, or equals the one the swap brings back, or there is none to swap with |
| `UserChanges.FirstConfigurationStays` | internal/config/materializer.go:126-131 | the first user of an installation without a configuration, whose restart fails: every undo call works, the row is gone, and the configuration that serves the user stays |
| `UserChanges.UserManager.Mutate` | internal/service/users.go:80-148 | enable, disable, revoke, rotate, field by field: a revoked user is refused, and so is the rotation of one who is not active; otherwise, exactly when no call fails, the row has the new status or credential and every other row and field is as before, the current credentials file lists the user with its credential or, disabled or revoked, not at all, and the child runs the recorded revision; or, with working undo steps, row and recorded revision as before, and the current configuration if and only if the files had not been applied or the rollback condition holds |
| `UserChanges.ChangeShows` | internal/service/users.go:80-121 | a change is possible exactly where the status allows it; it changes that row alone, and what is rendered afterwards lists the user with its credential or not at all |
| `UserChanges.UserManager.Create` | internal/service/users.go:52-78 | the same for a new user, who is active with the given password in row and credentials file; its spent id is the only trace a failure leaves in the rows |
| `UserChanges.RollbackCanGoTooFar` | internal/config/materializer.go:109-111 | a change that renders the current revision again, followed by a failed restart, moves back to an older revision: here one that renders a revoked user |
| `Stores.CrashSafe` | internal/config/materializer.go:53-170 | in both stores, at every crash point of every run, current is absent or names a whole revision, and an existing revision is never changed or removed; whole are the validated files a configuration revision is named after, and both files of a pair whose key was checked |
| `Stores.TlsStore.PemsInPlace` | internal/certificate/tls_store.go:67-72 | in every state the store was ever in, each revision holds the chain of its pair in `cert.pem` and the key that belongs to it in `key.pem`, and nothing else |
| `Stores.Materializer.Apply` | internal/config/materializer.go:53-124 | it succeeds exactly when the files are not empty, their revision exists or passes the validator and every call of its creation works, and the pointer moves; a success points to the given files, with the old current as previous if the pointer moved; a failure leaves current alone |
| `Stores.Materializer.Rollback` | internal/config/materializer.go:126-145 | exactly with both pointers and working calls the two are swapped; without a predecessor nothing changes |
| `Stores.Materializer.Restore` | internal/config/materializer.go:147-170 | a success points to the given revision, or to nothing |
| `Stores.TlsStore.Publish` | internal/certificate/tls_store.go:36-107 | it succeeds exactly when the key belongs to the pair, the revision exists or can be created, and the pointer moves; a success points to the pair, whose revision holds its chain in `cert.pem` and its key in `key.pem`; a failure before the final directory sync leaves current alone |
| `Stores.TlsStore.Rollback` | internal/certificate/tls_store.go:109-139 | a success swaps the pointers, or clears current when there is no predecessor |
| `Stores.TlsStore.Restore` | internal/certificate/tls_store.go:141-163 | a success points to the given revision, or to nothing |
| `Stores.RollbackUndoes` | internal/config/materializer.go:104-145 | a rollback after an apply restores the prior current revision, if and only if the apply moved the pointer or the two revisions were the same |
| `Stores.RollbacksCancel` | internal/config/materializer.go:126-145 | two completed rollbacks cancel |
| `TlsState.LawfulEverywhere` | internal/certificate/state.go:61-71 | in a lawful history every persisted Active record names a revision that was validated for its host name with the mode and at the clock reading kept with the entry, at paths inside that revision; for records the manager wrote that mode is the one it has to use, and a settings save keeps the earlier check; every step is an edge of the table (letsencrypt, self-signed) or a settings reset |
| `Certificates.CertManager.Ensure` | internal/certificate/automatic.go:14-79 | one round contacts ACME only for letsencrypt; a readable, valid pair is never ordered again while more than a third of its lifetime is left, or more than the configured lead, 30 days by default, and a successful round that ordered nothing had such a pair; settings always stay, and a failed round also keeps the pair, never resets the record, and is on record unless a save fails; with complete settings a success leaves an Active record and a currently valid pair; where the publication is hindered, by a reload that fails for one, the pair is never replaced; with working external steps it does succeed, from every lawful record, interrupted ones included; the history stays lawful and the five facts agree; a successful order puts the five facts in agreement from any state |
| `Certificates.LeadExact` | internal/certificate/automatic.go:49-66 | the renewal rule in numbers: a usable pair is left alone if and only if more than a third of its lifetime is left, or more than the lead, 30 days if none is configured |
| `Certificates.CertManager.EnsureAcme` | internal/certificate/automatic.go:28-79 | the letsencrypt branch: repair of an interrupted record, reuse, order or renewal; reuse publishes nothing; a failure keeps settings and pair and is on record unless a save fails |
| `Certificates.CertManager.Issue` | internal/certificate/issue.go:101-171 | an order is placed exactly when the source, the state and the mode allow it and the first save, the client and the account work; a success records the obtained pair, validated for host name and mode at the recorded clock reading, and puts the five facts in agreement; the exact record after a failure: unchanged before the first save, degraded after it, or, when that cannot be saved, still Issuing |
| `Certificates.CertManager.Renew` | internal/certificate/issue.go:179-244 | the same for a renewal, which keeps all settings and refuses the certificate it has |
| `Certificates.CertManager.ImportManual` | internal/certificate/issue.go:246-288 | a validated pair is published and recorded as provided, with the other settings kept, or the record is unchanged |
| `Certificates.CertManager.PublishAndSave` | internal/certificate/issue.go:144-171 | publish and record: confirmed with record and AdminUI pair new and the five facts in agreement, from any state; a reload or readiness check that fails with an active user is never confirmed; otherwise the record is unchanged and, from an agreeing state with working undo calls, both pointers and the recorded revision are those on entry |
| `Certificates.CertManager.Confirm` | internal/certificate/issue.go:150-171 | after a publication: the record is written and the pair shown, or, with working undo calls, everything is as before the publication |
| `Certificates.CertManager.Finish` | internal/certificate/issue.go:144-171 | the exact record afterwards: the activated one; or, if it can be saved, the running one degraded after a failed publication and the one before the operation degraded after a failed confirmation |
| `Certificates.CertManager.Conclude` | internal/certificate/issue.go:121-171 | what issue and renewal share: a success ordered, validated, published and recorded a certificate that is not the known one; a failure is on record, degraded, unless that save fails |
| `Certificates.CertManager.PublishUnmanaged` | internal/certificate/self_signed.go:103-132 | a pair from no ACME server is validated before it is published |
| `Certificates.CertManager.EnsureSelfSigned` | internal/certificate/self_signed.go:56-101 | a readable pair is reused exactly while more than the lead is left - 30 days if none, or one over 121 2/3 days, is configured; otherwise a new one is generated, valid from a minute ago for 365 days; a failure keeps settings and pair and is on record unless a save fails |
| `Certificates.CertManager.EnsureProvided` | internal/certificate/provided.go:14-69 | a success serves the recorded or the mounted pair, valid for the host name; a pair that is in place already is not published again; a failure is on record unless a save fails |
| `Certificates.CertManager.ReadStored` | internal/certificate/automatic.go:45-48 | the pair read from the two recorded files is the recorded one, and every recorded pair that exists is read |
| `Certificates.TlsSettings.SaveConfiguration` | internal/service/tls_settings.go:55-103 | accepted exactly when settings and mode are valid, no operation is running and the calls work; the record has the given settings, keeps the published pair and the agreement, and keeps its state exactly if host name, source and mounted paths are unchanged; otherwise it is reset |
| `Certificates.TlsSettings.ConfigureInitial` | internal/service/tls_settings.go:105-142 | initial settings are accepted exactly without a host name and a published pair, and are then the recorded ones |
| `OrderRate.NotDueBefore` | internal/certificate/automatic.go:49-66 | with the lead capped at a third of the lifetime, a pair is not due before two thirds of the lifetime less the backdating |
| `OrderRate.OrdersAfter` | internal/certificate/automatic.go:49-66 | after an order, whatever fails in between, the orders that are not wasted are bounded by the time since |
| `OrderRate.OrdersBounded` | internal/certificate/automatic.go:14-79 | rounds spanning T, failed ones included, place at most 1 + T/(2L/3 - b) orders besides the wasted ones - those whose round failed afterwards, or that found a pair unreadable which was not due - whatever leads are configured |
| `OrderRate.Once` | internal/certificate/automatic.go:14-79 | one call of `Ensure` meets the hypothesis of the bound |
| `OrderRate.RunRounds` | internal/certificate/automatic.go:90-111 | the bound for the orders that a sequence of calls of `Ensure` places, from every lawful store that has the recorded pair on disk |
| `OrderRate.WastedOrdersUnlimited` | internal/certificate/automatic.go:90-111 | any number of failing rounds, at one and the same time, may each place an order: nothing in a round limits them |
| `Supervisor.Supervisor.Compact` | internal/supervisor/supervisor.go:109-117 | the in-place compaction keeps exactly the crash times after the cutoff, in order |
| `Supervisor.Supervisor.Register` | internal/supervisor/supervisor.go:109-117 | the crash times after the cutoff and the new one, whether the slice had room or had to grow |
| `Supervisor.Supervisor.ChildExited` | internal/supervisor/supervisor.go:91-139 | what the watcher does with the object and how it goes on, as a function of the values before |
| `Supervisor.Supervisor.Begin` | internal/supervisor/supervisor.go:61-89 | Start is refused while a command is held; otherwise a child is spawned or the state is stopped |
| `Supervisor.Supervisor.TimerFired` | internal/supervisor/supervisor.go:127-139 | a timer spawns only while a restart is desired, no command is held and no Stop is under way |
| `Supervisor.Supervisor.BeginStop` | internal/supervisor/supervisor.go:183-198 | Stop clears the wish to run and hands out the held child |
| `Supervisor.Supervisor.EndStop` | internal/supervisor/supervisor.go:198-215 | the last section of Stop leaves the object stopped but does not release the command |
| `Supervisor.OneChild` | internal/supervisor/supervisor.go:61-215 | over all interleavings: at most one child is unwaited for, a watcher always finds its own command, the PID is set exactly while a command is held, ready or degraded implies a held command |
| `Supervisor.HeldAlways` | internal/supervisor/supervisor.go:61-215 | the inductive invariant behind it: the children alive or just reaped are exactly the held command |
| `Supervisor.NothingSpawnedUntilStart` | internal/supervisor/supervisor.go:91-139 | once no run is desired nothing is spawned until the next Start, whatever watchers and timers are pending |
| `Supervisor.CrashLoopIsUndesired` | internal/supervisor/supervisor.go:109-139 | in every run a reported crash loop means that no run is desired |
| `Supervisor.StopHoldsUntilStart` | internal/supervisor/supervisor.go:183-215 | from a Stop to the next Start no run is desired and nothing is spawned, whatever else happens |
| `Supervisor.StopEnds` | internal/supervisor/supervisor.go:91-215 | stopping a running child, whether Stop returns before or after the watcher: no command, no wish to run, stopped reported, no crash counted and no timer set |
| `Supervisor.Reported` | internal/supervisor/supervisor.go:77-158 | a Start whose exec fails reports stopped and holds nothing; ready and degraded are reported exactly for a held command |
| `Supervisor.AfterAfter` | internal/supervisor/supervisor.go:109-117 | filtering by an older and then a newer cutoff is filtering by the newer one |
| `Supervisor.CompactedIsWindow` | internal/supervisor/supervisor.go:109-117 | the compacted times are exactly the crashes of the whole history inside the window |
| `Supervisor.WindowedAlways` | internal/supervisor/supervisor.go:109-139 | in every run the kept times are the window of the whole crash history |
| `Supervisor.RestartsPerWindow` | internal/supervisor/supervisor.go:109-139 | every window (t - RestartWindow, t] holds at most MaxRestarts crashes that scheduled an automatic restart, across manual restarts and tripped breakers |
| `Supervisor.ScheduledCounts` | internal/supervisor/supervisor.go:118-126 | what that bound counts: each crash in the window that scheduled a restart, once |
| `Supervisor.CrashRestarts` | internal/supervisor/supervisor.go:91-139 | the crash of a desired run: unless the breaker trips, the same revision is spawned, held and reported once the delay is over; one crash too many in its window reports the crash loop, ends the wish to run and sets no timer |
| `Supervisor.BackoffExact` | internal/supervisor/supervisor.go:124-126 | the delay in numbers: 100 ms doubling with each crash of the window, up to 3.2 s |
| `Supervisor.SpawnsAccounted` | internal/supervisor/supervisor.go:72-139 | in no run are there more children, and timers still sleeping, than Starts and crashes that scheduled a restart: each such crash spawns at most once |
| `Supervisor.StartAcceptedWhenIdle` | internal/supervisor/supervisor.go:61-70 | in every run a Start that can spawn is accepted if and only if the reported PID is zero, that is, no child is alive or waiting for its watcher |
| `Supervisor.RestartCanBeRefused` | internal/supervisor/supervisor.go:176-215 | a run in which Stop has returned and Start is still refused |
| `Supervisor.OneRevisionUntilStart` | internal/supervisor/supervisor.go:127-139 | without a sleeping timer of another revision, only one revision is spawned until the next Start |
| `Supervisor.OtherRevisionExact` | internal/supervisor/supervisor.go:109-139 | in every reachable world that holds nothing but one revision, another one can come to run before the next Start if and only if a run is desired and a timer of another revision is sleeping |
| `Supervisor.OlderRevisionReturns` | internal/supervisor/supervisor.go:127-139 | a run in which a timer of an older revision spawns that revision after a newer one was started |
| `Deeplink.ReadVarint` | internal/clientprofile/export.go:97-110 | the loop reads the value and the size that the two-bit prefix announces, or reports a short input |
| `Deeplink.VarintEncodes` | internal/clientprofile/export.go:97-110 | what is read is the value section 16 of RFC 9000 assigns to those bytes, below 2^62 |
| `Deeplink.EncodedReads` | scripts/verify-official-export.go:133-146 | any encoding of a value, minimal or not, is read back as that value and no more |
| `Deeplink.ParseIsGrammar` | internal/clientprofile/export.go:63-82 | the reader accepts exactly the concatenations of well-formed entries, and the division is unique |
| `Deeplink.EntriesTakeTwoBytes` | internal/clientprofile/export.go:63-82 | each entry consumes at least two bytes |
| `Deeplink.TuneLink` | internal/clientprofile/export.go:53-95 | the loop computes the specified rewriting and rejects what does not parse; the last nine bytes are 4 1 and the IPv6 flag, 9 1 and 2 for http3 or 1, 10 1 and the Anti-DPI flag |
| `Deeplink.TunedEntries` | internal/clientprofile/export.go:53-95 | the output parses into the unmanaged input entries, byte for byte and in order, followed by one entry each for 4, 9 and 10; it is at most nine bytes longer |
| `Deeplink.LastWriteWins` | internal/clientprofile/export.go:53-95 | tuning a tuned payload equals tuning the original with the newer settings |
| `Deeplink.TruncationRejected` | internal/clientprofile/export.go:63-82 | a prefix is accepted if and only if it ends between two entries |
| `Deeplink.DecodeFields` | scripts/verify-official-export.go:107-131 | the second reader computes the map of the parsed entries, later ones winning |
| `Deeplink.ReadersAgree` | scripts/verify-official-export.go:107-131 | both programs accept the same payloads; after a rewrite the reader sees the old fields without 4, 9 and 10, plus 2 for http3 or 1 under 9, and 1 or 0 under 4 for IPv6 and under 10 for Anti-DPI |
| `Deeplink.RetuneText` | internal/clientprofile/export.go:53-61 | retuning a whole link succeeds if and only if the tuned link is still within the size the rewriter accepts, and then equals tuning once |
| `Deeplink.RetuneCanFail` | internal/clientprofile/export.go:53-61 | every link at the size limit without managed tags can be tuned once but not twice |
| `Deeplink.FullLinkRetuneFails` | internal/clientprofile/export.go:53-61 | such a link: one entry with tag 1 and 786427 value bytes |
| `Deeplink.TextReadersAgree` | scripts/verify-official-export.go:107-131 | on links that both programs look at they accept the same ones |
| `Config.Validate` | internal/config/config.go:22-70 | the loops accept exactly the valid snapshots, duplicate user names found |
| `Config.Render` | internal/config/config.go:72-97 | exactly valid snapshots are rendered; the text is that of the active users and the rules, each sorted by name, and with distinct rule names it is that of the one sorted listing |
| `Config.SortBy` | internal/config/config.go:76-79 | the result is a sorted permutation |
| `Config.LoginsExact` | internal/config/config.go:86-91 | the rendered logins are exactly the active users, with their own credentials |
| `Config.ListingUnique` | internal/config/config.go:76-79 | there is only one ascending listing of a set of named rows |
| `Config.RevisionIgnoresOrder` | internal/config/materializer.go:37-51 | any order of the same users and rules with distinct names gives the same hash input |
| `Config.RevisionInput` | internal/config/materializer.go:37-51 | the loop feeds the sorted name/NUL/data/NUL framing |
| `Config.FrameInjective` | internal/config/materializer.go:37-51 | unequal file sets without NUL never share a hash input |
| `Config.RenderedNoNul` | internal/config/config.go:72-97 | when quoting and accepted names leave no NUL, no rendered file holds one |
| `Config.RenderingsFrameApart` | internal/config/materializer.go:37-51 | two renderings share a hash input if and only if they are the same files |
| `RevisionNames.ReadBack` | internal/config/config.go:72-97 | a reader of comments, table headers and `key = value` lines that knows nothing of the renderer finds in the text of the four files exactly what they say: nothing lost, swapped or added |
| `RevisionNames.VpnRead` | internal/config/config.go:82 | vpn.toml holds the listen address, the names of the two other files, the three protocols, direct forwarding and the local metrics address |
| `RevisionNames.HostsRead` | internal/config/config.go:83-86 | hosts.toml holds one host table with the host name and, if there are any, the certificate path and the key path under their own keys |
| `RevisionNames.CredentialsRead` | internal/config/config.go:87-92 | the client tables of credentials.toml hold exactly the given logins, user name and password |
| `RevisionNames.RuleFileRead` | internal/config/config.go:93-95 | the rule tables of rules.toml hold exactly the given rules, network and action |
| `RevisionNames.TextTellsFiles` | internal/config/config.go:72-97 | when printed values can be read again, two renderings have the same text if and only if their files say the same |
| `RevisionNames.NameTellsFiles` | internal/config/materializer.go:37-51 | two renderings share the bytes that are hashed if and only if their files say the same, so a revision may be named by them |
| `Database.LoginsBelowExact` | internal/persistence/sqlite.go:196-233 | the logins derived from the rows are exactly those of the active users |
| `Database.ListedShows` | internal/persistence/sqlite.go:196-233 | a listing of the rows tells hostname, paths, logins and rules, in whatever order |
| `Database.ListedPass` | internal/config/config.go:22-70 | a listing passes the checks of the renderer if and only if the rows do |
| `Database.Store.Snapshot` | internal/persistence/sqlite.go:196-233 | a snapshot shows exactly the rows |
| `Database.Store.UpsertUser` | internal/persistence/sqlite.go:235-244 | by name, exactly the given user changes; a new one gets the next id, and a known one keeps its id |
| `Database.Store.UpsertRule` | internal/persistence/sqlite.go:347-350 | exactly the named rule changes, and only for the two actions the table allows |
| `Database.Store.InsertUser` | internal/persistence/sqlite.go:258-267 | a new active user gets the next id; a taken name is refused and changes nothing |
| `Database.Store.UpdateUser` | internal/persistence/sqlite.go:269-281 | exactly the given row changes; a name that another user has is refused and changes nothing |
| `Database.Store.DeleteUser` | internal/persistence/sqlite.go:283-286 | exactly the given row goes |
| `Database.Store.SaveTLSMetadata` | internal/persistence/sqlite.go:435-439 | the record is replaced, or a failed write changes nothing |
| `Sessions.Service.ChangePassword` | internal/auth/session.go:100-116 | after a success the returned token is the only session; a failure leaves no session at all or every live session and the password alone; with the exact condition of success |
| `Sessions.Service.Authenticate` | internal/auth/session.go:84-92 | a token is accepted if and only if the stored text is greater than the text of now; only dead sessions are purged |
| `Sessions.Service.Create` | internal/auth/session.go:73-82 | exactly one session is added |
| `Sessions.Service.Logout` | internal/auth/session.go:94-98 | the token is dead for all times and no other session is touched; only a failed delete is an error |
| `Sessions.Repository.UpdateAdminPassword` | internal/persistence/sqlite.go:408-420 | password and all sessions of the administrator change together or not at all |
| `Sessions.AcceptanceExact` | internal/persistence/sqlite.go:394-402 | the text comparison follows the clock across seconds; inside the expiry second it errs if and only if one trimmed fraction is a prefix of the other |
| `Sessions.ExpiryWithinOneSecond` | internal/persistence/sqlite.go:398-402 | a session is never accepted a second or more late nor refused a second or more early |
| `Sessions.ComparisonCanErr` | internal/persistence/sqlite.go:455-460 | two instants half a second apart whose texts compare the wrong way round |
| `Timestamps.EarlierIsFewerSeconds` | internal/persistence/sqlite.go:455-460 | the calendar fields order like the seconds since the epoch |
| `Timestamps.TextOrdersSeconds` | internal/persistence/sqlite.go:455-460 | across whole seconds the string order is the time order |
| `Timestamps.TextOrdersWithinSecond` | internal/persistence/sqlite.go:455-460 | inside a second it is the time order if and only if the earlier trimmed fraction is no prefix of the later one |
| `LoginLimiter.Limiter.Allow` | internal/auth/limiter.go:36-49 | agrees if and only if neither the login nor the account has to wait, and reports the longer wait |
| `LoginLimiter.Limiter.Failure` | internal/auth/limiter.go:51-71 | both keys are counted, then the table is brought back to its maximum by evicting the entries seen earliest |
| `LoginLimiter.Limiter.EvictToFit` | internal/auth/limiter.go:66-70 | eviction terminates at exactly the maximum, changes no survivor, and drops nothing seen later than a survivor |
| `LoginLimiter.Limiter.Success` | internal/auth/limiter.go:73-77 | exactly the two keys are cleared |
| `LoginLimiter.Limiter.EvictOldest` | internal/auth/limiter.go:79-88 | one entry with the earliest time goes |
| `LoginLimiter.KeysDiffer` | internal/auth/limiter.go:30-35 | the two keys of an attempt are never the same |
| `LoginLimiter.LastFailureAfter` | internal/auth/limiter.go:51-71 | from the sixth failure of a window on, an entry was last seen at least 7.75 s + 8 s (n - 6) after its first failure |
| `LoginLimiter.ReplayFaithful` | internal/auth/limiter.go:36-71 | an entry says exactly how many failures its key recorded in its window and when |
| `LoginLimiter.FailuresPerWindow` | internal/auth/limiter.go:36-71 | a key records at most 6 + (W - 7.75 s)/8 s failures in its window |
| `LoginLimiter.AllowedAgain` | internal/auth/limiter.go:36-71 | after a failure each key waits 250 ms, doubling with each failure of its window up to 8 s, but not past the window, and the login is allowed again exactly when neither key waits |
| `Backup.SafePathExact` | internal/backup/backup.go:389-395 | an entry name is accepted if and only if it is relative, walked from the root never climbs above it, and does not end at the root; the result has plain components only |
| `Backup.SafePathJoined` | internal/backup/backup.go:389-395 | every path a walk reports is accepted as it stands |
| `Backup.LinkAcceptedExact` | internal/backup/backup.go:373-377 | a link target is accepted if and only if it is relative and, walked from the root, never climbs above it |
| `Backup.CopyTree` | internal/backup/backup.go:180-230 | the copy loop places the visited nodes one by one, failing on a collision |
| `Backup.WalkPlaces` | internal/backup/backup.go:180-230 | replaying the visits of a walk adds exactly the tree below its directory, with no exclusive-create collision |
| `Backup.Archive` | internal/backup/backup.go:276-309 | one header per visit, with the joined path |
| `Backup.WalkVisits` | internal/backup/backup.go:276-309 | a walk visits exactly the paths that are there |
| `Backup.Extract` | internal/backup/backup.go:328-388 | the extraction loop unpacks the headers in order and stops at the first one it refuses |
| `Backup.ArchiveRoundTrip` | internal/backup/backup.go:259-388 | extracting the archive of a tree gives the same tree, if and only if every link target stays inside when read from the root; otherwise the extraction fails |
| `Backup.InTreeLinkRefused` | internal/backup/backup.go:373-377 | a tree whose only link stays in the tree and whose archive cannot be extracted |
| `Backup.ListFiles` | internal/backup/backup.go:74-91 | the manifest lists every file and link under its path with its digest, and nothing else |
| `Backup.VerifyDir` | internal/backup/backup.go:153-179 | the check passes if and only if the manifest is readable, of format 1, and every listed digest matches |
| `Backup.DigestsCollide` | internal/backup/backup.go:231-258 | two entries have one digest input if and only if they are equal, or a link and a file that spells out the digest input of that link |
| `Backup.TamperingFound` | internal/backup/backup.go:153-179 | with the manifest in place the check passes if and only if every listed entry is unchanged up to that alias |
| `Backup.SwappedLinkPasses` | internal/backup/backup.go:236-243 | a link replaced by such a file passes the check |
| `Backup.Create` | internal/backup/backup.go:63-99 | the working directory holds the database and exactly the included trees, the manifest describes it, and the archive is that of the directory with the manifest |
| `Backup.FreshBackupRestores` | internal/backup/backup.go:63-179 | a fresh backup can be extracted if and only if the included links allow it; it then passes its own check, and the database, the included trees and the manifest are all there is |
| `Migration.Importer.Run` | internal/migration/legacy.go:119-206 | an import stopped before any of its writes leaves exactly the rows, pointers and marker the specification gives |
| `Migration.Importer.ImportUsers` | internal/migration/legacy.go:129-137 | users are written in order up to the first incomplete one |
| `Migration.Importer.ImportRules` | internal/migration/legacy.go:138-152 | rules are written in order, with number names and the CIDR fallback, up to the first action the table refuses |
| `Migration.Importer.ImportPair` | internal/migration/legacy.go:153-179 | an unreadable or invalid pair stops the import; a valid one is published and recorded |
| `Migration.Importer.Activate` | internal/migration/legacy.go:180-206 | the rows are rendered, made current, recorded and marked, each step only after the one before |
| `Migration.Rerun` | internal/migration/legacy.go:119-206 | an import stopped before any of its writes and run again ends like an uninterrupted one, from any starting store; only the remembered previous certificate revision may differ |
| `Migration.RerunLater` | internal/migration/legacy.go:119-206 | the same when the stopped run happened at a time at which the pair was no more valid than now |
| `Migration.Reruns` | internal/migration/legacy.go:119-206 | any number of stopped runs make no difference |
| `Migration.CompletedImport` | internal/migration/legacy.go:119-206 | a run that goes through leaves the host name and the listen address of the source, every legacy user active with its last password, every rule with its last line, the given pair published and recorded, all other users and rules and what the source does not give as they were, and the configuration of exactly these rows current and recorded |
| `Migration.RowsRender` | internal/migration/legacy.go:180-187 | what is rendered depends on the rows by name alone |

## Left out

- Cryptography, X.509 and PEM parsing, password hashing and ACME: a pair is given by the facts the libraries report, `ValidateBundle` is the predicate over names, window, chain, key and issuer, and digests are injective.
- Base64, TOML and JSON encoding, string quoting and path printing are library functions given as parameters, with the round-trip laws a theorem needs stated as its precondition.
- SQLite, the file system and processes: a failed write has no effect, rename and symlink replacement are atomic, a child is an id with a PID.
- The final directory sync after a pointer flip: where an undo guarantee excludes `SyncRoot`, nothing in the program takes that case back.
- The file-name check of `Materializer.Apply`: the four names are an enumeration.
- The `apply_events` and ACME account rows, row timestamps, and the display fields of a record (serial, issuer, names, directory, registration).
- The startup apply outside the lock, the scheduler loop, `Backoff`, jitter, `ClassifyChange`, ring buffers, the HTTP-01 provider and readiness probing.
- The web interface, CSRF, templates, QR codes, metrics, command-line flags, log redaction and error sanitizing.
- Protocol.JointWheneverFree: a half of the agreement is not claimed between an undo that was not exact and the next completed publication or, for the configuration half, the next successful user change.
- UserChanges.UserManager.Mutate: the current configuration is not as before in the failing family that its condition names; rows and recorded revision are.
- TlsState.LawfulEverywhere: conformance to the transition table covers letsencrypt and self-signed; a record with source `provided` moves straight from Active to Degraded.
- LoginLimiter.FailuresPerWindow: counts since the key's last success and without eviction, in a sequential run with a monotone clock, in the window the entry itself opened.
- Timestamps.TextOrdersSeconds: years 0 to 9999, the range of the format.
- OrderRate.OrdersBounded: no settings change between the rounds; wasted orders are counted apart, because of `OrderRate.WastedOrdersUnlimited`.
- ProtocolSteps.FinishRun: the saves and the order before the publication, and the settings service, are not put together into runs.
- Endpoint.ReadinessProcess.Reload: what the endpoint binary reads when it is signalled is not in the repository; that a child may end or be restarted by a timer between two calls is the matter of `Supervisor`, and a call is one step here.
- OrderRate.RunRounds: manual issue, renewal and import do not run between the rounds.
- Supervisor.OneChild: waiting for a child always returns, and a spawned child has a new id and a non-zero PID.
- Backup.Extract: an archive entry below a link follows it in the file system; the model stops with an error there, and no archive of a tree has one. File modes, umask, non-regular files, names that are not valid UTF-8, the tar and gzip formats, the temporary output file and the final renames of `Restore` are left out.
- Backup.VerifyDir: what `Lstat` and reading report for each path is a parameter, so links in parent directories are resolved before it.
- Migration.Importer.Run: a failed write and a stopped process are the same cut; the flips of the two stores count as one write each; TOML decoding, the lookup of the two PEM files and the source manifest of the marker are facts about the source.
- Migration.Importer.ImportPair: the TLS store itself is the publisher there, so the agreement of the five facts is not claimed for it.
