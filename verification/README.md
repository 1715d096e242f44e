# Verified model of the OpenCloud backup service

This project models the parts of the backup service whose failure would lose a backup or a key, and
proves what each of them promises. It is a Dafny 4.11 project: `dafny verify dfyconfig.toml` checks all
of it.

What is modelled, in the service's own terms:

- **Stores.** The state store's flat key map and its folder tree over a remote Space (`FlatStore`,
  `FolderStore`), key escaping and id listing (`Segments`), append-only versions with clock repair and a
  legacy fallback (`Versions`), and the durable job store with its ordered key names, id index and cache
  of finished runs (`Jobs`, `JobKeys`, `JobStore`, `JobRefinement`). Each store is proved against something simpler: a
  map, the list of values appended, the map of jobs by id.
- **The run protocol.** The per-Space lock and its recovery passes step by step (`LeaseLocker`), the same
  steps interleaved with renewals, crashes and lost writes (`RunProtocol`), and one run's lock and record
  along every path of the runner (`Runner`).
- **Key custody.** Setup and Recovery Key rotation racing on one Space (`KeyCustody`), the envelope
  store's two views (`Keystore`), and resumable re-wrapping under a new custody key (`Rotation`).
- **Time.** When a Space is due, over whole histories (`Cadence`); run slots (`Dispatch`); a tick's pass over
  all Spaces, with those two composed (`Ticks`); retention over whole histories (`Retention`); and the
  single-instance guard (`Instance`).
- **Streams.** The lazy seekable reader over a server that may ignore ranges (`Reader`).

How to read it. An object the service updates in place is a class; a computation is a function; what
several goroutines do to shared state is a machine of events (`Enabled`, `Next`, `Legal`, `After`) whose
runs are arbitrary sequences of events. A call that may fail is a method that picks its outcome freely,
including a write that lands although its caller sees an error. What the environment does is fixed before
the call: `steady` promises that nothing fails, `faults` bounds how often, `unread` names what cannot be read,
`Outage` and `Outside` say what may go wrong; so each contract says both what a failure cannot break and what
happens without one. Integers are unbounded except where the service's 64-bit width matters (`Text.int64`,
`Text.Wrap64`). `Text` and `Ordered` hold what the modules
share: byte order, cutting, decimal stamps, and the fact that a set has one ascending list.

Where a promise is not kept in every case the code is modelled as it is, and the exact condition is
proved: `JobKeys.IdRoundTrip`, `JobStore.AgreeIffTiesFollowKeys`, `JobStore.EmptySpaceListsAll`,
`JobRefinement.OfKindAgreesIff`, `Versions.VersionIsReadable`, `Versions.NextStampRises`,
`Segments.KeyInjective`, `FolderStore.Store.List`, `Keystore.StatusAgreesIff`,
`RunProtocol.CheckThenListIsSafeIff`, `RunProtocol.SuccessIsOverturnedIff`, `RunProtocol.RecoverableIff`,
`KeyCustody.RotationKeepsKeyIff`, `Cadence.FirstRunIff`, `Cadence.SpacedIffHistoryCovers`,
`Cadence.PrunesApartIffHistoryCovers`, `Ticks.DeferredIff`, `Instance.NobodyPassesIff` and
`Reader.ServersDifferOnlyAtEnd`. Concrete runs that break the promise are
`RunProtocol.LeasePassClosesALiveRun`, `RunProtocol.TwoRunningRecords`, `Cadence.TrimmedHistoryRepeats`,
`Ticks.StarvedForEver` and `Instance.RenewalIsOverlooked`.

The service's comments and its code differ in these places, and the model follows the code.

- `internal/jobs/lease.go:283-284` says recovery leaves this process's own leases alone. The lease pass looks
  at the local reservation before it lists the Space's jobs (308-312, 448), so a run that starts in between
  is marked failed while it is live (`RunProtocol.LeasePassClosesALiveRun`). The orphan pass lists first
  (344-352) and is safe (`RunProtocol.ListThenCheckIsSafe`), except that it can overturn a success recorded
  between its listing and its check (`RunProtocol.SuccessIsOverturnedIff`).
- `internal/jobs/lease.go:325-338` describes a run that releases its lock before recording its outcome;
  `internal/backup/runner.go:567-574` records first and keeps the lock when that fails.
- `internal/backup/runner.go:563-566` and `internal/jobs/outcome.go:59-61` say that a lock kept after a lost
  outcome expires on its own and that recovery then closes the run. The lease is renewed and the local
  reservation held until the process stops, so neither happens before that
  (`RunProtocol.LostUntilCrash`, `RunProtocol.LostStaysOpen`).
- `internal/instance/instance.go:131-134` says that a claim is refused when another's record is renewed. A record
  that is withdrawn between the listing and its first read cannot be read either, so it refuses as well
  (171-174, `Instance.CheckOne`).
- `internal/instance/instance.go:131-134` promises a wait of at most the TTL; the code re-reads and re-checks
  the clock after its last timer, so the proved bound adds that timer's delay and one read.

## Model

| member | source | states |
|---|---|---|
| `RunProtocol.LocalHoldsExactly` | internal/jobs/lease.go:152-216 | at every point of every run, `local` holds exactly the Spaces with an Acquire in flight or an unreleased run |
| `RunProtocol.OneLiveRunPerSpace` | internal/jobs/lease.go:152-195 | whatever the stores answer and wherever recovery has got to, a Space has at most one attempt holding it, so never two live runs |
| `RunProtocol.LiveLeaseKeepsOut` | internal/jobs/lease.go:145-195 | while another process's lease on a Space is live, no attempt of this one gets past it and no recovery touches a record there, over any history of attempts, failures, crashes and passes |
| `RunProtocol.RunsOnItsOwnLease` | internal/jobs/lease.go:177-195 | over every history nobody gets to run without an acknowledged lease write of its own |
| `RunProtocol.RenewalLands` | internal/jobs/lease.go:218-256 | a renewal that was started is under way until it lands, once; then the lease runs for its whole length from the start of the renewal |
| `RunProtocol.WritesLandOrNot` | internal/jobs/lease.go:218-270 | a dropped write changes no document, and one that landed unacknowledged changes what the acknowledged one would |
| `RunProtocol.OutsideIsFree` | internal/jobs/lease.go:9-22 | a crash, a change of the leases and the passing of time are possible at every point, and a pending write or recovery step whenever it is there |
| `RunProtocol.LiveRunSaysRunning` | internal/jobs/lease.go:283-284 | at every point of every run a live run's record says running, unless a listing of the lease pass has raced with it |
| `RunProtocol.StepKeepsInv` | internal/jobs/lease.go:152-270 | every step of acquire, renewal, outcome, release, crash and both recovery passes keeps the protocol's invariant |
| `RunProtocol.StepKeepsSafe` | internal/jobs/lease.go:339-368 | every step but a racing listing keeps live records running and keeps recovery from closing a record that an attempt answers for |
| `RunProtocol.UnfinishedMeansHeld` | internal/backup/runner.go:557-574 | an unfinished record that no crash or unacknowledged creation orphaned belongs to a Space whose lock is held |
| `RunProtocol.OwnRecordIsUndisturbed` | internal/jobs/lease.go:272-292 | from creation until its own outcome or a crash, nothing else changes a run's record: with both passes split at their reads, recovery leaves live runs alone unless its listing races |
| `RunProtocol.LostUntilCrash` | internal/backup/runner.go:557-574 | a run whose outcome write was lost keeps its Space until the process stops, for any length of time and any number of recoveries |
| `RunProtocol.LostStaysOpen` | internal/jobs/outcome.go:59-61 | nor does recovery close its record before then |
| `RunProtocol.TerminalForever` | internal/jobs/state.go:262-269 | a terminal record stays terminal over every run |
| `RunProtocol.RecoverableIff` | internal/jobs/lease.go:347-361 | waiting and one orphan pass close an unfinished record exactly when this process does not hold its Space |
| `RunProtocol.CondemnedIsOpen` | internal/jobs/lease.go:294-368 | recovery comes to close only records it read as unfinished, of a Space found free in both places or with a lapsed lease |
| `RunProtocol.DropsAreFound` | internal/jobs/lease.go:302-318 | a lease is dropped at most once for each time it was found lapsed with its Space not held here |
| `RunProtocol.PassClosesAllAfterCrash` | internal/jobs/lease.go:9-13 | after any run and a crash, with the leases run out, an orphan pass that goes through, in any listing order, fails exactly the unfinished records, changes no other and leaves every Space free |
| `RunProtocol.CrashIsRecovered` | internal/jobs/lease.go:11-13 | so after any run and a crash, waiting and one pass leave nothing unfinished |
| `RunProtocol.ListThenCheckIsSafe` | internal/jobs/lease.go:344-352 | a record listed as running whose Space is found free afterwards is answered for by no attempt at any later time |
| `RunProtocol.CheckThenListIsSafeIff` | internal/jobs/lease.go:308-312 | what the lease pass lists after its check can be closed at any later time without disturbing a run exactly when, at the listing, no run with an unfinished record holds the reservation |
| `RunProtocol.LeasePassClosesALiveRun` | internal/jobs/lease.go:448-456 | a reachable run in which that pass marks a live run's record failed |
| `RunProtocol.SuccessIsOverturnedIff` | internal/jobs/lease.go:344-361 | the orphan pass can turn a recorded success into a failure exactly when the run was still under way or recording its outcome as the pass listed it |
| `RunProtocol.TwoRunningRecords` | internal/jobs/lease.go:168-175 | an expired lease taken over leaves two running records of one Space, one of them orphaned |
| `LeaseLocker.Locker.Acquire` | internal/jobs/lease.go:145-195 | a refusal leaves no reservation; a live lease is never overwritten; success means the Space was free here and its lease not live; the store is blamed only for a real failure |
| `LeaseLocker.Locker.Reserve` | internal/jobs/lease.go:197-207 | a reservation succeeds exactly when the Space is free in this process |
| `LeaseLocker.Locker.UndoReserve` | internal/jobs/lease.go:209-216 | only the caller's own reservation is given back |
| `LeaseLocker.Locker.Renew` | internal/jobs/lease.go:245-256 | one renewal extends this Space's lease alone, or leaves it to expire |
| `LeaseLocker.Locker.Release` | internal/jobs/lease.go:259-270 | the reservation always goes; the lease goes or is left to expire |
| `LeaseLocker.Locker.Busy` | internal/jobs/lease.go:382-406 | busy means held here or leased and unexpired; an unreadable lease is an error only when it has to be read |
| `LeaseLocker.Locker.FailAbandoned` | internal/jobs/lease.go:443-464 | closes only the Space's unfinished records and counts them; a completed pass, as every one is when no call fails, leaves open only records that may not be readable |
| `LeaseLocker.Locker.RecoverExpired` | internal/jobs/lease.go:294-323 | only abandoned leases are dropped and only their Spaces' records closed; a completed pass settles every abandoned lease it can read, up to records that may not be readable |
| `LeaseLocker.Locker.RecoverOrphans` | internal/jobs/lease.go:325-368 | only records of Spaces held nowhere are closed; after a completed sweep every unfinished record that can be read is of a Space held here or by a live lease |
| `LeaseLocker.Locker.Recover` | internal/jobs/lease.go:272-292 | both passes under any outage, chosen beforehand: a record whose Space is held here or leased is untouched; a completed sweep leaves no readable record uncovered; without an outage, after a crash with every lease expired and the sweep due, no record is unfinished and no lease is left |
| `Runner.RecordOutcome` | internal/jobs/outcome.go:63-90 | success means the outcome is stored, giving up means every attempt was used, permanent errors are exactly an unknown job and a non-terminal outcome; it gets through whenever fewer writes fail than there are attempts |
| `Runner.OutcomeTwice` | internal/jobs/outcome.go:73-87 | retrying an outcome that had landed changes nothing but its time |
| `Runner.Begin` | internal/backup/runner.go:226-265 | the answer is decided by what the run meets outside; success opens a running record of this Space, kind and trigger with nothing to report yet; on error the lock is already given back and a record exists exactly when Create landed unacknowledged |
| `Runner.Settle` | internal/backup/runner.go:557-574 | the lock is released only after the outcome is stored, and then always: two failed writes do not keep it |
| `Runner.Finish` | internal/backup/runner.go:267-306 | success, error and panic all settle once: a run that gave its lock back has a record of its own snapshot, files and bytes, or of its failure, and it stays filed as it was opened |
| `Runner.Run` | internal/backup/runner.go:191-199 | an accepted run has a record of kind backup with this Space and trigger, which reports the work once the lock is given back; on every path release runs at most once, and only when the run has no record or a terminal one, exactly unless Create landed unacknowledged; when outcome writes succeed the lock is always released |
| `Runner.StartBackup` | internal/backup/runner.go:201-224 | the same for background runs, started by hand; a refused background task is recorded as failed |
| `Runner.RunPrune` | internal/backup/prune.go:57-127 | the same release rule; the record is a scheduled prune's and says what was deleted and kept, or that it failed; all that changes the repository happens between taking the lock and giving it back; the stored window is honoured, ninety days when unset; and a complete snapshot at least as new as any deleted one is kept |
| `Runner.PruneSpace` | internal/backup/prune.go:100-127 | prunes only for the holder of the lock, deleting only what the stored window lets expire |
| `KeyCustody.KeysMatch` | internal/api/keys.go:125-154 | over every interleaving of honest requests and crashes, a stored server envelope means a stored recovery envelope for the same Data Key |
| `KeyCustody.OneSetupCompletes` | internal/api/keys.go:125-134 | at most one setup completes, whatever the clients send |
| `KeyCustody.NothingIsLost` | internal/api/keys.go:283-292 | envelopes are only appended, so a configured Space stays configured |
| `KeyCustody.AnswersStand` | internal/api/keys.go:81-162 | an answer, once given, stands over every history |
| `KeyCustody.CrashAnswersAll` | internal/api/keys.go:208-234 | a crash at any point frees the lock, fails every open request, changes no answer and nothing stored |
| `KeyCustody.AcceptedRotationReplaced` | internal/api/keys.go:274-291 | an accepted rotation replaced exactly the envelope its digest named |
| `KeyCustody.NoLostRotation` | internal/api/keys.go:180-187 | two accepted rotations that named one envelope imply those bytes were stored twice |
| `KeyCustody.StepKeepsInv` | internal/api/keys.go:208-234 | every step keeps the lock exclusive, each request's progress true and the envelopes a chain |
| `KeyCustody.RotationKeepsKeyIff` | internal/api/keys.go:164-176 | a stored rotation keeps the Data Key exactly when its client was honest; the server cannot tell |
| `KeyCustody.UnlockedSetupsMix` | internal/api/keys.go:125-130 | without the check under the lock two setups leave mismatched envelopes unless both sent one Data Key |
| `KeyCustody.Service.HandleKeySetup` | internal/api/keys.go:81-162 | the handler's own steps are a run of the protocol; it succeeds only on an unconfigured Space and stores both envelopes |
| `KeyCustody.Service.HandleRotateRecoveryKey` | internal/api/keys.go:236-303 | the handler's own steps are a run of the protocol; success appends right after the named envelope, a conflict changes nothing |
| `KeyCustody.SpaceLocks.MutexOf` | internal/api/keys.go:208-234 | a Space always gets the same mutex and no other Space's |
| `KeyCustody.DigestForm` | internal/api/keys.go:189-206 | the digest check accepts exactly the hex form of a 32-byte sum |
| `Keystore.StatusAgreesIff` | internal/keystore/keystore.go:194-238 | Status agrees with GetRK and GetSRW exactly unless the older record is unreadable while one kind only is versioned |
| `Keystore.GetServes` | internal/keystore/keystore.go:156-192 | each getter serves exactly its own newest version or else its own half of the older record, of its own kind, and fails rather than report an unreadable one absent |
| `Keystore.ConfiguredServes` | internal/keystore/keystore.go:119-135 | a Space reported configured serves both envelopes |
| `Keystore.NewVersionKeeps` | internal/keystore/keystore.go:173-192 | a new version of one kind is what Get answers, and leaves the other kind and a configured status as they were |
| `Keystore.StatusSpans` | internal/keystore/keystore.go:203-236 | created and updated are the first and last time on record across both layouts |
| `Keystore.MergeIDs` | internal/keystore/keystore.go:276-291 | the union of both layouts' ids, each once, sorted |
| `Rotation.RotateSRW` | internal/rotate/rotate.go:68-111 | only appends; completes by moving every old-key envelope and counting every Space; a key mismatch is reported only when some envelope opens under neither key; when no call fails it completes exactly for good keys that open every envelope |
| `Rotation.RewrapEnvelope` | internal/rotate/rotate.go:83-108 | one turn of the loop re-wraps the same plaintext, counts it, or stops |
| `Rotation.RotateTW` | internal/rotate/rotate.go:132-186 | the same over every target's sealed credentials |
| `Rotation.RewrapTarget` | internal/rotate/rotate.go:160-183 | one turn of that loop re-wraps the same plaintext in place, counts it, or stops |
| `Rotation.RotationResumes` | internal/rotate/rotate.go:24-31 | after any number of stopped attempts and a completed one every record opens under the new key to its original plaintext and none is left to rotate |
| `Rotation.AttemptsKeepPlain` | internal/rotate/rotate.go:13-18 | no attempt, wherever it stops, loses a record's plaintext or makes one unrotatable |
| `Rotation.PassEnds` | internal/rotate/rotate.go:42-50 | a completed pass rotated what opened under the old key, and its three counts sum to the number of records |
| `Retention.WindowHasFloor` | internal/spacecfg/spacecfg.go:62-74 | the effective window is never below seven days, equals the stored one exactly from there up, and is ninety days when none is stored |
| `Retention.CompleteOnly` | internal/snapshot/engine.go:224-238 | keeps exactly the complete manifests, in order |
| `Retention.ExpiredManifests` | internal/snapshot/engine.go:447-476 | everything incomplete and every complete manifest before the cutoff except one newest, whichever of a tie the sort puts first |
| `Retention.KeptCount` | internal/snapshot/engine.go:478-495 | the number of complete manifests not deleted |
| `Retention.ExpiredIsOldAndOutlived` | internal/snapshot/engine.go:399-409 | a deleted complete snapshot is older than the cutoff and a complete one at least as new survives |
| `Retention.Repository.Prune` | internal/snapshot/engine.go:410-445 | stopped anywhere it deletes only what expired; an unset window keeps every complete snapshot of the last ninety days, one below seven days keeps seven, any other is taken as it is; completed, nothing older but one newest complete snapshot is left, nor anything incomplete, and Deleted plus Kept is the number listed |
| `Retention.Repository.DeleteIncomplete` | internal/snapshot/engine.go:197-222 | drops every incomplete manifest and no complete one |
| `Retention.Repository.Snapshot` | internal/snapshot/engine.go:107-185 | a complete manifest is added only by a run read in full; a failed run changes no complete one, unless its commit landed unacknowledged |
| `Retention.AlwaysRestorable` | internal/snapshot/engine.go:406-409 | over any history, once a complete snapshot exists one at least as new always exists |
| `Retention.OnlyExpiredDisappear` | internal/spacecfg/spacecfg.go:62-74 | over any history a complete snapshot disappears only once it is older than what every prune was told to keep |
| `Retention.OnlyOldDisappear` | internal/spacecfg/spacecfg.go:28-36 | over any history no complete snapshot from the last seven days disappears, none from the last ninety while no window is stored, and none from within the shortest window stored |
| `Retention.PruneIsStep` | internal/snapshot/engine.go:410-445 | a prune, completed or stopped anywhere, is one step of the histories these hold over |
| `Retention.BackupIsRun` | internal/snapshot/engine.go:107-185 | and a backup, however it ends, is a few: checkpoints flushed, its snapshot saved or not, incomplete manifests dropped |
| `Dispatch.SlotsAreExact` | internal/scheduler/scheduler.go:568-612 | executing runs have distinct Spaces, equal the in-flight entries, never exceed the slots in use nor those the limit; with no goroutine left all is returned |
| `Dispatch.EverythingDrains` | internal/scheduler/scheduler.go:589-610 | from any state the goroutines' own steps return every slot and entry |
| `Dispatch.StepKeepsInv` | internal/scheduler/scheduler.go:574-612 | starting, leaving the in-flight set and freeing the slot each keep the counts exact |
| `Dispatch.Scheduler.Dispatch` | internal/scheduler/scheduler.go:568-588 | answers false exactly when every slot is taken by other Spaces, and starts at most one run per Space |
| `Dispatch.Scheduler.LeaveInflight` | internal/scheduler/scheduler.go:592-595 | a run that ended leaves the in-flight set while its slot is still counted |
| `Dispatch.Scheduler.FreeOne` | internal/scheduler/scheduler.go:596-597 | then the slot is freed |
| `Cadence.SpacedIffHistoryCovers` | internal/scheduler/scheduler.go:397-408 | over every history, with manual runs, lost verdicts, downtime and trimming anywhere, scheduled attempts are an occurrence and the jitter apart exactly when no occurrence is further away than the job history is kept |
| `Cadence.TrimmedHistoryRepeats` | internal/scheduler/scheduler.go:675-690 | otherwise a trimmed Space looks as if it never ran and is backed up again at once |
| `Cadence.DispatchedIff` | internal/scheduler/scheduler.go:361-394 | a tick that reads a Space, finds it free and has a slot dispatches a backup exactly when one is owed, a prune exactly when one is owed and no backup is, and nothing otherwise; a busy Space or a full house changes nothing |
| `Cadence.BackedUpIff` | internal/scheduler/scheduler.go:397-408 | with the latest attempt at c, a backup is dispatched exactly from the next occurrence after c plus the jitter on |
| `Cadence.MissedIsCaughtUp` | internal/scheduler/scheduler.go:542-553 | after any history, the first free tick after a restart dispatches a backup exactly when one is owed by then, and records a scheduled attempt |
| `Cadence.KeptExactly` | internal/scheduler/scheduler.go:672-683 | trimming drops the finished records from before the cutoff and no other |
| `Cadence.AttemptsInInterval` | internal/scheduler/scheduler.go:529-553 | over any history, scheduled attempts in any interval are at most its occurrences plus one |
| `Ticks.RunOnce` | internal/scheduler/scheduler.go:316-345 | one pass: a Space is deferred exactly when it asks, has no run in flight and at least as many Spaces ahead of it ask for a slot as are free |
| `Ticks.DeferredIff` | internal/scheduler/scheduler.go:376-393 | with the goroutines interleaved: a Space owed a backup is left without a run exactly when its lock or history was unreadable, its lock held, or every slot taken by another Space; only the last is a deferral |
| `Ticks.AsksIff` | internal/scheduler/scheduler.go:361-394 | evaluating asks for a run exactly when lock and history could be read, the lock is free and a backup or a prune is owed |
| `Ticks.FreeSlotsSuffice` | internal/scheduler/scheduler.go:574-590 | when more slots are free than configurations come first, a Space that asks is dispatched, however runs end meanwhile |
| `Ticks.StarvedForEver` | internal/scheduler/scheduler.go:333-345 | with one slot, a Space that is due again by the first tick after each of its runs, as every Space whose runs outlast its schedule is, keeps the slot for ever, however often the ticks come: the one behind it is due and deferred at every tick and never runs |
| `Ticks.HistoryIsLegal` | internal/scheduler/scheduler.go:361-394 | each Space's part of a run of the whole scheduler is one of its own histories, so what is proved of those holds here |
| `Ticks.EverySpaceIsSpaced` | internal/scheduler/scheduler.go:316-345 | whatever the other Spaces and the slots do, each Space's backups and prunes keep their spacing |
| `Ticks.StepKeepsInv` | internal/scheduler/scheduler.go:574-612 | a Space has a dispatched run exactly while it is in flight, and the slots stay exact |
| `Ticks.RestartIsFree` | internal/scheduler/scheduler.go:316-345 | a restart may come at any point; it empties the slots and leaves every history as it was |
| `Cadence.CaughtUpExactlyOnce` | internal/scheduler/scheduler.go:542-553 | whatever downtime missed is caught up by exactly one run: a Space owed a backup, not busy and with a slot free is attempted, and not again before the next occurrence |
| `Cadence.DueStaysDue` | internal/scheduler/scheduler.go:376-381 | a due Space stays due until it is attempted |
| `Cadence.FirstRunIff` | internal/scheduler/scheduler.go:542-553 | a Space that never ran becomes due exactly when its configuration carries a time with an occurrence after it |
| `Cadence.NothingTwice` | internal/scheduler/scheduler.go:397-408 | with an attempt in sight nothing more is attempted before its next occurrence |
| `Cadence.PrunesApartIffHistoryCovers` | internal/scheduler/scheduler.go:417-448 | over every history recorded prunes are the interval and its jitter apart exactly when the job history is kept that long |
| `Cadence.PrunesFollowSuccess` | internal/scheduler/scheduler.go:426-428 | over every history each recorded prune was decided on a newest backup that had succeeded |
| `Cadence.PrunesInInterval` | internal/scheduler/scheduler.go:441-448 | and the prunes in an interval are bounded by its length |
| `Cadence.Jitter` | internal/scheduler/scheduler.go:555-566 | the per-Space offset lies inside the window |
| `Cadence.JitterSpreads` | internal/scheduler/scheduler.go:555-566 | the offset is the hash itself inside the window and repeats with the window, so offsets spread over all of it |
| `Instance.AwaitExpiry` | internal/instance/instance.go:192-227 | takes over only after looks that found the record expired or withdrawn, refuses only on a renewal or an unreadable record, never refuses a dead incumbent's, notices any change within a watch interval and the delays, and ends by expiry plus a timer's slack and one read |
| `Instance.Claim` | internal/instance/instance.go:131-160 | success announces this instance, with a record valid from after the check, and comes only when every listed record was readable and every other one was watched until it expired or was withdrawn, so not before the last write of an incumbent that renews in time has stopped protecting it; a refusal announces nothing and is due to a record that could not be read or was renewed; and when nothing fails and every other record is left to expire or is withdrawn while it is watched, the claim succeeds, within two delays a record of the expiries |
| `Instance.NobodyPassesIff` | internal/instance/instance.go:205-225 | a readable record protects its instance from every challenger, whatever its timers and reads, exactly when it always outlasts a read and its clock check |
| `Instance.RenewalIsOverlooked` | internal/instance/instance.go:244-266 | renewing before the record expires is not enough: a challenger reads just before a renewal and checks the clock just after |
| `Instance.RenewingKeepsMargin` | internal/instance/instance.go:244-266 | an incumbent whose writes land in time keeps the margin at every instant |
| `Instance.ThirdsAreInTime` | internal/instance/instance.go:246-257 | renewing every third of the TTL is in time when two landing delays and a read fit into the rest |
| `Instance.ThirdsAreNotPassed` | internal/instance/instance.go:246-257 | so nobody passes such an incumbent before its last write runs out |
| `Instance.CheckAlone` | internal/instance/instance.go:162-190 | clears only records it watched until they expired or were withdrawn, passes only when it has cleared every other listed one and could read them all, refuses only for a record that could not be read or was renewed |
| `Instance.CheckOne` | internal/instance/instance.go:168-183 | one record: not live at its first read refuses, one's own is passed over, another's is passed exactly by a watch and refuses only if it became unreadable or was renewed; a withdrawn or dead one never refuses |
| `Reader.SourceReader.Read` | internal/snapshot/kopiafs.go:189-204 | returns the bytes a cursor over the file would, whichever server answers, keeps an open body positioned at `pos`, and before the end does return some when the connection holds |
| `Reader.SourceReader.Seek` | internal/snapshot/kopiafs.go:206-240 | moves exactly where a cursor would, with the same refusals; a failed close moves nothing |
| `Reader.SourceReader.Close` | internal/snapshot/kopiafs.go:245-254 | releases the body and may be repeated |
| `Reader.OverflowIsRefused` | internal/snapshot/kopiafs.go:216-230 | a position that overflows 64 bits comes out negative and is refused |
| `Reader.Stream` | internal/cs3/client.go:285-354 | the body handed out is positioned at the offset, by range or by skipping; on a steady connection there is one exactly before the end, at the end of an empty file, or at the end from a server that ignores ranges |
| `Reader.Discard` | internal/cs3/client.go:335-339 | skipping drops exactly the asked number of bytes or fails because there are fewer |
| `Reader.ServersDifferOnlyAtEnd` | internal/cs3/client.go:327-340 | servers that honour and ignore ranges differ at exactly one offset, the end of a non-empty file |
| `Reader.Replay` | internal/snapshot/kopiafs.go:173-240 | any sequence of reads and seeks, each answered by either kind of server, sees what a cursor over the file would |
| `Reader.FollowsOn` | internal/snapshot/kopiafs.go:173-240 | one more read or seek keeps the whole sequence a cursor's |
| `JobStore.StateStore.Create` | internal/jobs/state.go:70-86 | a fresh, nameable job is added to the map of jobs and both caches stay right |
| `JobStore.StateStore.Get` | internal/jobs/state.go:88-103 | answers as the map of jobs does, also when another process deleted the document |
| `JobStore.StateStore.GetInSpace` | internal/jobs/state.go:105-141 | answers as the map of jobs does, without the index |
| `JobStore.StateStore.ListRecent` | internal/jobs/state.go:165-204 | the backward walk returns exactly the newest matching documents that can be read, newest first |
| `JobStore.RecentByKeyAgrees` | internal/jobs/state.go:148-204 | against the reference store: same length and same creation times place by place, and the same list when the limit cuts between two creation times |
| `JobStore.AgreeIffTiesFollowKeys` | internal/jobs/memory.go:250-266 | the two stores list alike exactly when the limit breaks no tie, or breaks it as the keys do: every kept job of an instant has a later key than every dropped one |
| `JobStore.CutThroughATie` | internal/jobs/memory.go:250-266 | for one kind under current names that is exactly when the limit does not cut through one creation time |
| `JobStore.EmptySpaceListsAll` | internal/jobs/state.go:167-171 | for the empty Space id they agree exactly when no job of the kind is stored |
| `JobStore.StateStore.ListRecentOfKind` | internal/jobs/state.go:154-163 | an empty kind is refused; otherwise the same walk |
| `JobRefinement.OfKindAgreesIff` | internal/jobs/memory.go:97-121 | the two stores agree on a listing by kind exactly when it names a kind: the reference store lists every kind for the empty one |
| `JobStore.StateStore.Finish` | internal/jobs/state.go:206-232 | result and new map of jobs are the reference store's |
| `JobStore.StateStore.PruneBefore` | internal/jobs/state.go:234-260 | the same of the jobs it can read: every unfinished job and every job from the cutoff on stays, and a completed sweep has dropped and counted every readable finished one from before; a deletion that fails, landed or not, ends it with no other job gone |
| `JobStore.StateStore.ListRunning` | internal/jobs/state.go:262-295 | with its cache it returns what a full scan of the readable documents would, and remembers every finished key it read |
| `JobStore.StateStore.KeyFor` | internal/jobs/state.go:312-346 | finds a stored id's key or shows there is none, hydrating from key names alone |
| `JobRefinement.ReplayBoth` | internal/jobs/memory.go:3-10 | from any state the two job stores agree on, any sequence of operations gets the same answers from both and leaves them agreeing, caches exact |
| `JobRefinement.OnlyItsOutcomeEndsIt` | internal/jobs/memory.go:139-168 | over any operations, prunes included, an unfinished job stays as it is until its own outcome is recorded |
| `JobRefinement.OnlyOldJobsLeave` | internal/jobs/memory.go:155-168 | a job leaves only by a prune with a cutoff past its creation, and never changes its id, Space, kind, trigger or time |
| `JobRefinement.OnState` | internal/jobs/state.go:70-295 | each operation of the durable store answers and changes the map of jobs as the specification says |
| `JobRefinement.OnMemory` | internal/jobs/memory.go:51-168 | and so does each operation of the in-memory store |
| `JobRefinement.FreshKey` | internal/jobs/state.go:365-370 | a fresh id never meets a stored or cached key |
| `JobStore.HydratedIndexIsExact` | internal/jobs/state.go:44-51 | a hydrated index without stale entries is exactly the id-to-key map of the stored jobs |
| `JobStore.ForeignDeletion` | internal/jobs/state.go:105-111 | a deletion by another process leaves both caches right |
| `JobKeys.IdRoundTrip` | internal/jobs/state.go:365-384 | a document name gives its id back exactly when its stamp is not negative and its kind is known |
| `JobKeys.UnknownKindIsPartOfId` | internal/jobs/state.go:379-429 | a name without a known kind after its stamp carries no kind and is all id |
| `JobKeys.KeyFacts` | internal/jobs/state.go:372-429 | id, creation time and kind read off a key name are the document's, in either layout |
| `JobKeys.FolderHolds` | internal/jobs/state.go:5-22 | a Space's folder holds its documents and no others; the empty id's holds all |
| `JobKeys.KeyOrder` | internal/jobs/state.go:10-14 | within a Space lexical key order is chronological |
| `JobKeys.KeyOrderAtTie` | internal/jobs/state.go:365-370 | at one instant and kind the id decides, ascending |
| `Jobs.MemoryStore.ListRecent` | internal/jobs/memory.go:103-121 | the reference listing: the one newest-first list of the matching jobs, cut at the limit |
| `Jobs.MemoryStore.PruneBefore` | internal/jobs/memory.go:155-168 | the reference prune: every unfinished job and every job from the cutoff on stays as it is, every finished one from before goes, and they are counted |
| `Jobs.MemoryStore.Finish` | internal/jobs/memory.go:139-153 | the reference outcome: refused unless terminal and known, else applied to that job alone |
| `Jobs.MemoryStore.Create` | internal/jobs/memory.go:51-65 | the reference creation: refuses a missing Space or kind and a taken id; else stores the given record, completed with a drawn id, pending and manual where unset, and made now |
| `Jobs.ApplyOutcome` | internal/jobs/memory.go:221-243 | an outcome never moves a job to another id, Space, kind or creation time |
| `Jobs.OutcomeTaken` | internal/jobs/memory.go:221-243 | each part of an outcome goes to its own field, and one it does not carry leaves what was there |
| `Jobs.FinishIs` | internal/jobs/memory.go:139-153 | an outcome that does not end the run is refused, one for an unknown job too; any other is taken by that job alone |
| `FolderStore.Store.Get` | internal/cs3state/cs3state.go:118-142 | answers as the flat map, or fails only with the server |
| `FolderStore.Store.Create` | internal/cs3state/cs3state.go:144-172 | creates exactly the one key or reports it taken; a failure leaves the old or the new map |
| `FolderStore.Store.Replace` | internal/cs3state/cs3state.go:174-199 | replaces exactly the one key; stopped between its steps it touches no other key |
| `FolderStore.Store.Delete` | internal/cs3state/cs3state.go:235-249 | removes exactly the one key |
| `FolderStore.Store.List` | internal/cs3state/cs3state.go:251-264 | returns exactly the flat map's keys below the prefix, in full-key lexical order; fails only with the server, or always for a prefix that is itself a stored key |
| `FolderStore.Store.Walk` | internal/cs3state/cs3state.go:266-292 | whatever order the server lists in, adds exactly the keys below a folder and keeps the list sorted |
| `FolderStore.Store.EnsureDir` | internal/cs3state/cs3state.go:299-326 | makes the folder exist without changing what is stored, and the cache names only existing folders |
| `FolderStore.OneMoreChild` | internal/cs3state/cs3state.go:266-292 | each child adds its own files and nothing already listed |
| `FlatStore.MemoryStore.List` | internal/state/memory.go:69-92 | every key below a prefix on segment boundaries and no other, in order |
| `FlatStore.ListsWholeSegments` | internal/state/memory.go:84-93 | a prefix lists itself and what lies below it, never a longer segment, with or without a trailing slash |
| `FlatStore.MemoryStore.Create` | internal/state/memory.go:39-48 | creating never replaces |
| `Segments.UnescapeIsInverse` | internal/state/state.go:138-176 | unescaping inverts escaping and accepts exactly the escaped forms |
| `Segments.EscapedIsSafe` | internal/state/state.go:114-136 | an escaped id holds no separator and is neither "." nor ".." |
| `Segments.StaysAsItIs` | internal/state/state.go:114-136 | a segment is stored under its own name exactly when it holds only letters, digits, hyphen, dot and underscore and is no dot segment |
| `Segments.EscapedByteIs` | internal/state/state.go:125-134 | every other byte becomes a percent sign and two upper-case hex digits of its value |
| `Segments.KeyInjective` | internal/state/state.go:101-112 | keys determine their segments, except that no segment and one empty segment share a key |
| `Segments.EscapeSegment` | internal/state/state.go:119-136 | the builder loop computes the escaped form |
| `Segments.UnescapeSegment` | internal/state/state.go:142-176 | the decoder loop computes the inverse |
| `Segments.Ids` | internal/state/state.go:293-326 | the distinct first-level ids of a listing, sorted |
| `Segments.FirstIdOfKey` | internal/state/state.go:304-318 | a document at any depth reports the id it was filed under |
| `Versions.AppendsHold` | internal/state/versioned.go:65-92 | any run of appends, under backward clocks, changes no stored version and keeps append order, so the last is the value appended last |
| `Versions.Collection.Append` | internal/state/versioned.go:65-92 | adds one new document or none; the stamp is the first free one of thirty-two from one past the newest on record, or the clock's if that is later; stopped anywhere, the previous or the new value is current |
| `Versions.NextStampRises` | internal/state/versioned.go:73-84 | the repaired stamp is the clock's when the clock has moved on and the very next one otherwise, above every earlier one exactly until the 64-bit range is used up |
| `Versions.VersionIsReadable` | internal/state/versioned.go:320-336 | a version name is read back exactly when its stamp is not negative |
| `Versions.VersionsHaveOneWidth` | internal/state/versioned.go:320-336 | no name of another width is taken for a version |
| `Versions.Collection.Load` | internal/state/versioned.go:127-154 | the newest version with its span, else the legacy document, never an older version |
| `Versions.LoadIsLast` | internal/state/versioned.go:127-154 | Load answers the value appended last, with the true oldest and newest times |
| `Versions.LoadAbsentIff` | internal/state/versioned.go:127-154 | Load reports no record exactly when neither layout has one |
| `Versions.LoadAnswers` | internal/state/versioned.go:127-154 | otherwise it answers for one document: its content, that it is corrupt, or that it cannot be had |
| `Versions.Collection.Keys` | internal/state/versioned.go:111-125 | lists append order |
| `Versions.Collection.Latest` | internal/state/versioned.go:156-238 | reads each record's newest version and each record that has only a legacy document |
| `Versions.LatestReadsWhatLoadReads` | internal/state/versioned.go:156-238 | the documents Latest reads are exactly those Load reads, record by record |
| `Versions.LatestReadsOnce` | internal/state/versioned.go:207-238 | each record is read once |
| `Versions.CollectPointwise` | internal/state/versioned.go:178-204 | a listing succeeds exactly when no listed document is unreachable; each is then a value in its place, or reported corrupt, or passed over as gone |
| `Versions.LoadAnswersFrom` | internal/state/versioned.go:127-154 | Load's answer is that one document's content or failure |
| `Versions.Collection.IDs` | internal/state/versioned.go:240-269 | the ids of both layouts, each once, sorted |
| `Versions.IdIsKnown` | internal/state/versioned.go:240-269 | every document filed under an id makes it known, and nothing else does |
| `Versions.Collection.DeleteAll` | internal/state/versioned.go:271-303 | removes exactly the record's versions and its legacy document, and says whether there were any; stopped midway the oldest are gone and the newest is still there |

## Left out

- JSON encoding and decoding, gRPC, HTTP, OIDC, the S3 client and kopia: stores, manifests and byte sequences stand for them.
- Real cryptography: a sealed box opens under its own key only, and a digest names exactly one envelope.
- Cron parsing and time zones: a schedule is any function that is strictly after its argument and monotone.
- The restore runner, background bookkeeping, role and grant checks, notifications, configuration, CLI and web handlers other than the two key handlers: they repeat modelled patterns or branch shallowly.
- Two service instances against one state Space, except what the instance guard refuses and what a live lease keeps out.
- Counting active leases for the operator's rotation command, and the scheduler's staleness sweep: one pass over a listing, one clock comparison each.
- Logging, user-facing messages and run timeouts as such; a timeout is one of the ways work fails.
- LeaseLocker.Locker.Recover: the sequential passes, as `RunProtocol` interleaves the same steps; a recovery without a job store is not modelled. The durable job store skips unreadable documents silently, so a pass that reports success can drop a lease and leave such a record open: the contracts promise nothing about the records in `outage.jobs`.
- RunProtocol.LiveRunSaysRunning: needs that no listing of the lease pass races with a run, since the code allows it (`RunProtocol.CheckThenListIsSafeIff`).
- RunProtocol.PassClosesAllAfterCrash: the orphan pass; `LeaseLocker.Locker.Recover` has both.
- LeaseLocker.Locker.Acquire: one call at a time; the interleaved Acquire is `RunProtocol`.
- RunProtocol.OneLiveRunPerSpace: one process; two are kept apart only while a lease is live (`RunProtocol.LiveLeaseKeepsOut`), as the lease is a check and not a lock.
- Runner.StartBackup: the background task is followed to its end inside the call instead of in its own goroutine.
- JobStore.StateStore.Create: requires a fresh id for the new map of jobs, since the service relies on random ids and does not compare them.
- JobStore.StateStore.Get: assumes a store without read errors, like the other operations on one job, each of which is one atomic step here; the listings and the prune pass over what cannot be read.
- JobRefinement.ReplayBoth: every document can be read; new records have fresh hex ids, known kinds and times not before 1970; listings name a Space, and a kind when by kind, and do not cut through one creation time. The other cases are the exact conditions above.
- JobStore.RecentByKeyAgrees: covers non-empty Space ids; `JobStore.EmptySpaceListsAll` covers the empty one.
- Jobs.MemoryStore.Create: leaves out the store's own process-local lock, which `LeaseLocker` replaces.
- FolderStore.Store.Create: keys are drawn from a set in which none is a segment-prefix of another, as the service's record layouts guarantee; the size cap and the resolution of the Space itself are not modelled.
- FolderStore.Store.List: the prefix is a clean path, with or without a trailing slash, as the service builds them; a leading slash or an empty segment is not modelled.
- FolderStore.Store.Replace: when the server refuses to overwrite, replacing is deleting and then writing; the model says which keys that can touch, not that it is atomic.
- Versions.AppendsHold: stamps stay below the end of the 64-bit range by the number of appends, and a first stamp is not before 1970; `Versions.NextStampRises` says exactly when.
- Versions.Collection.Load: needs that no record's keys continue below another record's, since the service files every collection at one depth. It assumes a listing that succeeds, where the source returns its error; a document that cannot be read is modelled.
- Versions.Collection.Latest: assumes a listing that succeeds, where the source returns its error; a document that cannot be read is modelled.
- Versions.Collection.Append: assumes that the listing of a record's versions succeeds, where the source returns its error; a write that fails is modelled.
- Versions.Collection.Keys: assumes a listing that succeeds, where the source returns its error.
- Versions.Collection.IDs: assumes listings that succeed, where the source returns their errors.
- KeyCustody.KeysMatch: a write whose error was reported does not land later, and nothing but these two requests writes a Space's envelopes.
- KeyCustody.Service.HandleKeySetup: the handler's requests are not decoded, and no other request acts in between; the interleavings are the machine's.
- Keystore.StatusAgreesIff: writing an envelope is `Versions.Collection.Append` after a check of its kind; the versioned reads are taken as given; `Versions` models them.
- Rotation.RotateSRW: visits Spaces in id order over one listing, with no concurrent writer.
- Retention.Repository.Prune: manifest starts are given; maintenance is one step that may fail after the deletions.
- Dispatch.Scheduler.Dispatch: the mutex makes each step atomic; what a run does is not modelled here.
- Cadence.SpacedIffHistoryCovers: the clock does not run backwards and the configuration does not change; trimming is one step.
- Ticks.RunOnce: no goroutine ends during the pass; `Ticks.DeferredIff` and `Ticks.FreeSlotsSuffice` let them. Recovery and trimming, which the tick also does, are `RunProtocol` and `Cadence`.
- Cadence.Jitter: the hash is a parameter.
- Instance.Claim: the incumbent's record is replaced atomically, and two instances that start at the same moment are not excluded.
- Instance.AwaitExpiry: needs a TTL of at least twelve clock units, below which the watch interval is zero.
- Reader.SourceReader.Read: the file does not change while it is read, and a body that failed to close on a Seek is kept as if still readable.
