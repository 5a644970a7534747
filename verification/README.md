# Verified core of the c8s confidential mesh

A Dafny model of the stateful and combinatorial parts of c8s, with proofs of what they promise.
`dafny verify dfyconfig.toml` checks everything.

| part | modules |
|---|---|
| certificate lifecycle of an RA-TLS endpoint | `CertState`, `CertMachine`, `CertRotation`, `CertTwoWorkers`, `CertRevision`, `CertSync`, `CertCooldown`, `CertRenewal`, `CertRetry` |
| over-encryption channel and transcripts | `ReplayWindow`, `Overenc`, `OverencProtocol`, `OverencDelivery`, `Transcripts`, `TranscriptReader` |
| challenges, sandbox ledger, secret release | `ChallengeStore`, `ChallengeRuns`, `Ledger`, `Release`, `ReleaseOnce`, `ReleaseFacts`, `ReleaseGrants`, `ReleaseHistory`, `ReleaseReaches`, `ReleaseExample` |
| CA bundle | `Bundle`, `BundleRuns`, `BundleReloads` |
| allowlist policy | `Paths`, `Grants`, `Allowlist`, `HostIndependence`, `Matching`, `Explain`, `Normalise`, `NormalForm`, `JsonText`, `PolicyJson`, `Admission`, `Acceptance` |
| admission history | `Quoting`, `ContainerKey`, `MountOrder`, `History` |
| allowlist store and policy cache | `AllowlistStore`, `AllowlistRuns`, `CachedPolicy` |
| secret store | `SecretStore`, `SecretServing` |
| shared | `Wrappers`, `Sets`, `Bytes`, `Sorting` |

## How it is modelled

- Objects that the program changes in place are classes (`CertStateObject`, `Channel`,
  `ChallengeStoreObject`, `LedgerObject`, `BundleManager`, `HistoryObject`, `Document`, `Store`,
  `MemoryStore`, `CachedPolicyObject`). Each method is proved to do to the fields what a function on
  values says, and the laws are proved about that function.
- Concurrency is a step machine: one step per critical section, atomic or channel operation, over
  any number of threads. `Exec(c, steps)` runs an arbitrary list of steps; a step that is not enabled
  changes nothing, so a statement about every list of steps is a statement about every interleaving.
  `log`, `owner`, `rotator` and similar fields only record what happened.
- The release machine holds everything a request depends on: the challenge store, the ledger, the
  allowlist store with its cache, and what the inventories have recorded, all changing while requests
  are in flight. Inventories answer truthfully about what they recorded and lose it on a restart.
- The clock never runs backwards; providers, randomness, persistence and the network are inputs of a
  step. Minted challenges and inventory keys are never drawn twice. AES-GCM and signatures are ideal:
  a sealed or signed value is the term that made it. SHA-256 and `strconv.IsPrint` are function
  parameters; collision-freedom is required only by the lemmas that name it. The laws of the canonical form hold for any rendering of
  the policies; the program's own, the JSON text of `policyKey`, is written out in `PolicyJson`.
- Go strings are byte strings, invalid UTF-8 included. Integers are unbounded except where the width
  matters: the sequence counter, its window and the length prefixes are modelled modulo 2^64 and 2^32.
- `nil` and empty are told apart where the program does: mounts and environments observed, exact
  environment values, a reported argv.

## Where the code does not do what one might expect

- `stopRotation` is safe from a lost wake-up exactly when at most one worker runs at a time
  (`CertTwoWorkers.NoLostWakeupIffOneWorker`); the comment on `RunRotation` asks for one.
- A CA is dropped from the bundle by a rotation at the very instant of its `NotAfter`, when a leaf with
  the same `NotAfter` is still valid. Coverage is guaranteed exactly before that instant
  (`BundleRuns.CoveredIffBeforeExpiry`), and at it unless such a rotation ran
  (`BundleRuns.LastInstantExactly`).
- A rotation writes the retirement times before the bundle. If the second write fails, the CA goes on
  signing but is recorded as retired; after a restart a rotation can drop it while a leaf it signed is
  alive (`BundleReloads.FailedRotationThenRestart`). Every leaf signed before a restart keeps its issuer
  exactly when the last write of the retirement file is not such a failure of a TTL or more before
  (`BundleReloads.RestartCoversIff`).
- `SetWithCurrent` does not write the bundle: a CA that is not written before the next restart is gone
  with it (`BundleReloads.UnwrittenThenRestart`).
- An absent argv policy admits nothing before normalisation and the empty argv after it
  (`NormalForm.ArgvPreservedIff`).
- `//**` is accepted beside `/**` and means the same (`Grants.GlobsAreSegments`).
- `sortContainers` does not look at the image label, so the canonical form is independent of the input
  order exactly when no two containers of an entry differ in nothing else
  (`PolicyJson.CanonicalOrderFreeIff`). That is for valid UTF-8: the JSON text of two argvs can be the
  same when they are not (`PolicyJson.StrayBytesCollide`).
- Nonces repeat after 2^64 `SealRequest` calls, and as soon as one accepted request is answered twice
  (`OverencProtocol.RequestNoncesDistinctIff`, `OverencProtocol.ResponseNoncesDistinctIff`).
- The comment in `CachedPolicy.Allowlist` speaks of a document cached under an older version; the code
  caches the version it loaded together with the document, and the model follows the code.

## Model

| member | source | states |
|---|---|---|
| `CertState.CertStateObject.InstallProvisionedCertificate` | pkg/ratls/tls.go:408-418 | installs and bumps the revision exactly when the captured revision is current; otherwise changes nothing and hands back the current certificate |
| `CertState.CertStateObject.CertificateInstalledLocked` | pkg/ratls/rotation.go:59-65 | the revision grows by one and the retry time is cleared, nothing else |
| `CertState.CertStateObject.SwapLocked` | pkg/ratls/tls.go:586-591 | provider, certificate and rotation time change together with the revision |
| `CertState.CertStateObject.BeginRotationLocked` | pkg/ratls/rotation.go:67-74 | starts exactly when the context lives, the revision is current, the retry time has come and no rotation runs |
| `CertState.CertStateObject.RequestRotation` | pkg/ratls/rotation.go:87-96 | a handshake starts a renewal only while no worker has been set up |
| `CertState.CertStateObject.RotateIfDue` | pkg/ratls/rotation.go:33-50 | starts exactly when the earlier of rotation time and leaf expiry has come; captures provider and revision in the same section |
| `CertState.CertStateObject.ScheduleRetry` | pkg/ratls/tls.go:494-504 | a failed renewal delays the next only if nothing was installed since |
| `CertState.CertStateObject.NotifyRotationEndedLocked` | pkg/ratls/rotation.go:52-57 | the one-slot channel holds a message afterwards, if there is a channel |
| `CertState.CertStateObject.EndRotation` | pkg/ratls/tls.go:466-475 | the flag is cleared, the cancel function dropped and the message sent |
| `CertState.CertStateObject.CancelRotation` | pkg/ratls/rotation.go:76-81 | a running rotation is told to stop |
| `CertState.CertStateObject.EnterSync` | pkg/ratls/tls.go:311-342 | serve the cached certificate, join the attempt, replay the error or lead, in that order, with the lead recorded as the one attempt |
| `CertState.CertStateObject.LeaveSync` | pkg/ratls/tls.go:346-354 | the attempt is over; a failure is cached exactly when the caller's context lives |
| `CertState.CertStateObject.ClearCooldown` | pkg/ratls/tls.go:423-428 | the negative cache is empty |
| `CertState.EnsureLeaf` | pkg/ratls/tls.go:434-450 | succeeds exactly for a certificate with a parsed or encoded leaf; the result is the one given with its own leaf, or else the encoded one, and nothing else changed |
| `CertState.UsableIffInWindow` | pkg/certutil/certutil.go:63-78 | a certificate may serve a handshake if and only if it has a leaf that begins at most 300 seconds later and has not ended; which error is returned otherwise |
| `CertRotation.AtMostOneRotation` | pkg/ratls/rotation.go:33-74 | in every interleaving at most one background rotation runs, and the flag says so |
| `CertRotation.OneWorkerNeverStuck` | pkg/ratls/rotation.go:76-85 | with one worker, a stopping worker that saw the flag never waits without a rotation or a message, and what it waits for has been cancelled |
| `CertTwoWorkers.SecondStuck` | pkg/ratls/rotation.go:52-57 | a run in which two workers stop and the second waits for a message that never comes |
| `CertTwoWorkers.NoLostWakeupIffOneWorker` | pkg/ratls/rotation.go:10-31 | no lost wake-up in any run if and only if at most one worker runs at a time |
| `CertRotation.ShutdownIsFinal` | pkg/ratls/rotation.go:12-31 | once the worker has returned no rotation runs and none starts again, whatever happens except a new RunRotation |
| `CertRevision.CachedCertFromProvider` | pkg/ratls/tls.go:559-591 | in every interleaving the cached certificate came from the installed provider |
| `CertRevision.StaleRenewalNeverInstalls` | pkg/ratls/tls.go:362-418 | a run that captured a revision installs only if nothing was installed since |
| `CertRevision.EveryRenewalCaptured` | pkg/ratls/tls.go:465-520 | every install against a revision goes back to a capture with no install in between |
| `CertSync.SingleFlight` | pkg/ratls/tls.go:304-358 | at most one synchronous provision is in flight |
| `CertSync.ErrorFreeReturnsAreUsable` | pkg/ratls/tls.go:256-290 | every error-free return holds a leaf that, at a clock reading of that call or of the attempt it joined, began at most 300 seconds later and had not ended |
| `CertCooldown.CooldownRespected` | pkg/ratls/tls.go:334-354 | after a failure with a live context the next attempt starts only after the cooldown or after a clear |
| `CertCooldown.ClearsFollowInstalls` | pkg/ratls/tls.go:397-399 | every clear belongs to a run that installed: the last thing its thread did before was to install |
| `CertRenewal.PollRenewsIff` | pkg/ratls/rotation.go:33-50 | in every interleaving a worker's poll starts a renewal if and only if its context lives, none runs, the retry time has come, and nothing is cached, or half the TTL of what was installed last has passed since it was found good, or its leaf has expired |
| `CertRenewal.HandshakeServesIff` | pkg/ratls/tls.go:256-290 | a handshake that read a usable certificate serves it, at once or after asking for a renewal; which of the two, and when it goes to the synchronous path, exactly |
| `CertRenewal.RequestRenewsIff` | pkg/ratls/rotation.go:87-96 | in every interleaving such a request starts a renewal if and only if no worker has been set up, none runs, nothing was installed since the certificate was read, and the retry time has come |
| `CertRenewal.SyncStartsIff` | pkg/ratls/tls.go:311-342 | in every interleaving a synchronous call starts an attempt if and only if no usable certificate is cached, nobody leads one, and the last failure that counts is a cooldown ago; what it gets otherwise |
| `CertRetry.RetryIs` | pkg/ratls/tls.go:485-504 | in every interleaving the retry time is set by a failed renewal during which nothing was installed, to the end of its delay, cleared by an install, and otherwise left alone |
| `CertRetry.CancelledIs` | pkg/ratls/rotation.go:67-81 | in every interleaving a running renewal has been cancelled if and only if a worker stopped since it started |
| `ReplayWindow.AcceptIsExact` | pkg/overenc/overenc.go:353-377 | one acceptance against the set of sequences accepted so far: accepted exactly when new and less than 64 behind the maximum, and the window still represents the set |
| `ReplayWindow.WindowRepresentsRun` | pkg/overenc/overenc.go:353-377 | after any run the pair of 64-bit words represents exactly the accepted set |
| `ReplayWindow.RunAcceptsExactly` | pkg/overenc/overenc.go:353-377 | in any run a sequence is accepted exactly when never accepted before and less than 64 behind the maximum |
| `Overenc.NonceInjective` | pkg/overenc/overenc.go:284-288 | equal nonces under one prefix have equal sequences |
| `Overenc.DirectionsDisjoint` | pkg/overenc/overenc.go:268-280 | no request and response share their additional data |
| `Overenc.AadPinsSequence` | pkg/overenc/overenc.go:275-280 | the additional data of a direction determines the sequence |
| `TranscriptReader.NonceReads` | pkg/overenc/overenc.go:282-288 | a nonce is the prefix and the sequence in eight big-endian bytes |
| `TranscriptReader.AadReads` | pkg/overenc/overenc.go:268-280 | the additional data reads as the direction's tag, the session id and the sequence, and both ends use the same |
| `Overenc.NewChannel` | pkg/overenc/overenc.go:203-247 | a channel exists exactly for a 16-byte session id; the two ends mirror each other's keys, prefixes and tags |
| `Overenc.Channel.SealRequest` | pkg/overenc/overenc.go:292-298 | seals under the next sequence, which then advances modulo 2^64; sequence zero is refused |
| `Overenc.Channel.SealResponse` | pkg/overenc/overenc.go:302-312 | seals under the given sequence; the state is unchanged |
| `Overenc.Channel.AcceptSeq` | pkg/overenc/overenc.go:353-377 | the shifts and masks do what the window function says |
| `Overenc.Channel.OpenRequest` | pkg/overenc/overenc.go:319-331 | only an authenticated, non-zero, accepted sequence moves the window and yields the plaintext; that a genuine one does is `OverencDelivery.GenuineRequestIsAccepted` |
| `Overenc.Channel.OpenResponse` | pkg/overenc/overenc.go:337-350 | only a record that echoes the request's sequence is opened; the state is unchanged; that a genuine one is opened is `OverencDelivery.GenuineResponseAnswers` |
| `OverencProtocol.RequestsAcceptedAtMostOnce` | pkg/overenc/overenc.go:319-331 | under any network schedule the server accepts each request at most once, with the plaintext the client sealed at that sequence |
| `OverencProtocol.AnswersBelongToTheirRequest` | pkg/overenc/overenc.go:333-342 | an opened response is one the server sealed for that very request |
| `OverencProtocol.ForgeriesChangeNothing` | pkg/overenc/overenc.go:314-377 | every network schedule ends both ends in the state they reach when all forged, altered, misdirected and replayed deliveries are left out of it |
| `OverencDelivery.GenuineRequestIsAccepted` | pkg/overenc/overenc.go:314-377 | after any schedule, a request that arrives as the client sealed it is accepted with its plaintext if its sequence is new and less than 64 behind every accepted one, and changes nothing otherwise |
| `OverencDelivery.GenuineResponseAnswers` | pkg/overenc/overenc.go:333-350 | after any schedule, a response that arrives as the server sealed it is opened for the request it answers, and for no other |
| `OverencDelivery.RoundTrip` | pkg/overenc/overenc.go:290-377 | after any schedule with fewer than 2^64 - 1 sealed requests, the next request can be sealed, accepted, answered and its answer opened, each with the plaintext that was sealed |
| `OverencProtocol.RequestNoncesDistinctIff` | pkg/overenc/overenc.go:292-298 | request nonces are distinct if and only if SealRequest was called at most 2^64 times |
| `OverencProtocol.ResponseNoncesDistinctIff` | pkg/overenc/overenc.go:300-312 | response nonces are distinct if and only if no accepted request was answered twice |
| `Transcripts.Encode` | pkg/overenc/identity.go:50-66 | the loop produces the framing, or fails exactly when a field is longer than 2^32-1 |
| `Transcripts.FramedInjective` | pkg/overenc/identity.go:115-125 | equal framings have equal fields, however many there are |
| `Transcripts.IdentityInjective` | pkg/overenc/identity.go:28-69 | equal identity preimages have equal mode, keys, session, nonce and certificates |
| `Transcripts.LBInjective` | pkg/overenc/identity.go:83-113 | the same for the load-balancer transcript |
| `Transcripts.EndpointsNeverCoincide` | pkg/overenc/identity.go:12-19 | the two endpoints never commit to the same bytes |
| `TranscriptReader.UnframedFramed` | pkg/overenc/identity.go:115-125 | a reader that takes four bytes for each length finds exactly the fields that were framed |
| `TranscriptReader.IdentityReads` | pkg/overenc/identity.go:21-69 | the identity transcript exists if and only if every part has its size, and it reads as domain, mode, CA and leaf digests, encapsulation key, ciphertext, session and nonce, in that order |
| `TranscriptReader.LBReads` | pkg/overenc/identity.go:71-113 | the same for the load-balancer transcript |
| `Transcripts.WriteKeySet` | pkg/operatorauth/keyset.go:41-53 | the loop writes the sorted fingerprints without repetition |
| `Transcripts.KeySetPreimageIsTheSet` | pkg/operatorauth/keyset.go:20-54 | two key lists are hashed the same if and only if they are the same set of fingerprints |
| `TranscriptReader.KeySetReads` | pkg/operatorauth/keyset.go:20-54 | after its domain the text is the fingerprints of the set, each once, ascending |
| `ChallengeStore.ChallengeStoreObject.constructor` | internal/attestation/challenge.go:25-30 | an empty store |
| `ChallengeStore.ChallengeStoreObject.DropExpiredLocked` | internal/attestation/challenge.go:64-74 | trims the queue up to its first live and unconsumed key |
| `ChallengeStore.ChallengeStoreObject.CompactLocked` | internal/attestation/challenge.go:79-93 | in place: the queue keeps the live keys in order, the map loses the expired ones |
| `ChallengeStore.ChallengeStoreObject.DropOldestLocked` | internal/attestation/challenge.go:96-102 | the front of the queue leaves queue and map |
| `ChallengeStore.ChallengeStoreObject.CreateChallenge` | internal/attestation/challenge.go:39-60 | sweep, make room, record; the invariant is kept |
| `ChallengeStore.ChallengeStoreObject.ConsumeChallenge` | internal/attestation/challenge.go:106-124 | the key is gone whatever the answer; the answer is whether it was there and unexpired |
| `ChallengeStore.SweptIs` | internal/attestation/challenge.go:48-52 | the sweep keeps the invariant and every live challenge, in order |
| `ChallengeRuns.StoreRefinesTimedSet` | internal/attestation/challenge.go:17-124 | over every run the store answers as a simple timed set; every live challenge is queued once in creation order, at most 2^17 in the map and 2^18 queued |
| `ChallengeRuns.CreateIs` | internal/attestation/challenge.go:39-60 | a mint at capacity evicts the oldest live challenge and no other |
| `ChallengeRuns.RedeemExactly` | internal/attestation/challenge.go:104-124 | a redeem succeeds if and only if the challenge was minted, is unexpired, and was neither redeemed nor evicted since |
| `ChallengeRuns.RedeemedAtMostOnce` | internal/attestation/challenge.go:104-124 | no challenge is redeemed twice |
| `ChallengeRuns.CompactionsAreFarApart` | internal/attestation/challenge.go:76-93 | between two compactions lie at least 2^17 mints |
| `Ledger.LedgerObject.EvictExpiredLocked` | internal/sandboxledger/ledger.go:113-119 | exactly the expired bindings go, in whatever order the map is walked |
| `Ledger.LedgerObject.Record` | internal/sandboxledger/ledger.go:68-89 | refused for empty arguments, a live binding to another host, or no room after eviction; otherwise bound for a TTL; the cap holds |
| `Ledger.LedgerObject.Lookup` | internal/sandboxledger/ledger.go:94-103 | the host of a live binding, nothing otherwise |
| `Ledger.LedgerObject.Len` | internal/sandboxledger/ledger.go:106-111 | counts and leaves exactly the live bindings |
| `Ledger.AlwaysBounded` | internal/sandboxledger/ledger.go:30-43 | after any run the ledger is within its cap |
| `Ledger.LookupExactly` | internal/sandboxledger/ledger.go:57-103 | a lookup answers a host if and only if some accepted record of that host is less than a TTL old |
| `Ledger.HostHeldForTtl` | internal/sandboxledger/ledger.go:76-80 | another host is accepted only a full TTL after every accepted record of the first |
| `Ledger.SweepsAreInvisible` | internal/sandboxledger/ledger.go:81-86 | dropping every eviction sweep from a run changes no lookup and no acceptance |
| `ReleaseOnce.ChallengeAuthorisesOnce` | internal/secrets/handler.go:147-164 | in every run a challenge authorises at most one request |
| `ReleaseFacts.TokenAuthorisesOnce` | pkg/workloadclaims/sandboxtoken.go:119-162 | in every run a signed token authorises at most one request |
| `ReleaseFacts.AuthorisedByBoundInventory` | internal/secrets/handler.go:389-427 | every authorisation consulted the host the ledger held, inside the node bound, whose own inventory signed the token of version 2 for this sandbox, key, challenge and host |
| `ReleaseFacts.HostsChangeOnlyAfterTtl` | internal/secrets/handler.go:398-404 | two authorisations for one sandbox consult different hosts only a full TTL after the record the first rests on |
| `ReleaseGrants.GrantsRestOnTheirHost` | internal/secrets/handler.go:312-354 | in every run a grant belongs to an authorisation of its own request by the host the ledger held for the sandbox; its allowlist was the store's at an instant after that; its report is a snapshot, with nothing unresolved, of what that host had recorded of that sandbox, taken later still; and the grant is what the matching stage makes of the two |
| `ReleaseGrants.GrantsShareNothing` | internal/secrets/handler.go:155-164 | no challenge and no token serves two grants |
| `ReleaseHistory.DescribesIffFits` | internal/secrets/handler.go:429-446 | an entry describes a snapshot if and only if it fits the admissions recorded: all that ran is the entry's, and all its main containers ran |
| `ReleaseHistory.ReleasedIffHistory` | internal/secrets/handler.go:333-353 | a snapshot releases an entry's grant if and only if, of the recorded admissions themselves, something ran, that entry and no other fits, and it holds the grant with every argv pinned |
| `ReleaseHistory.GrantsFitTheHistory` | internal/secrets/handler.go:312-354 | in every run, at a grant, nothing was pending in the sandbox at the bound host, and everything its inventory has recorded there, since it started and the sandbox was last removed, fits the granted entry and no other of an allowlist the store held after the authorisation |
| `ReleaseReaches.FittingRequestIsGranted` | internal/secrets/handler.go:147-185 | the converse: after any run, a request whose challenge is live, whose sandbox is bound to an allowed host, whose token that host's inventory signed, and whose sandbox's recorded admissions fit one entry of the present allowlist, is granted that entry |
| `ReleaseExample.GrantsAreReachable` | internal/secrets/handler.go:312-354 | from the start of the process, whatever allowlist it finds, there is a run that grants an entry to a sandbox whose admissions fit it |
| `ReleaseExample.SomeRunGrants` | internal/secrets/handler.go:312-354 | with an allowlist of one entry with one pinned container, some run grants |
| `Bundle.BundleManager.SetInitial` | internal/issuer/bundle.go:44-49 | the bundle is the one CA |
| `Bundle.BundleManager.SetWithCurrent` | internal/issuer/bundle.go:51-56 | the current CA first and once, with known retirement times kept |
| `Bundle.BundleManager.LoadFromRepo` | internal/issuer/bundle.go:60-90 | an absent bundle reads as an empty one; unreadable retirement times are dropped, an unreadable bundle changes nothing |
| `Bundle.BundleManager.PersistLocked` | internal/issuer/bundle.go:157-180 | the times are written first, then the bundle; only both are a success |
| `Bundle.BundleManager.PersistCurrent` | internal/issuer/bundle.go:124-128 | writes what is published, with a retirement time for every CA but the first |
| `Bundle.BundleManager.Rotate` | internal/issuer/bundle.go:94-120 | the new CA first, then what is retained, published exactly when both files were written; a failure publishes nothing but may leave its times in the file |
| `Bundle.BundleManager.RetainedRetiredCAs` | internal/issuer/bundle.go:192-226 | keeps exactly the CAs the retention rule keeps, with their retirement times |
| `Bundle.BundleManager.RetirementsForCurrent` | internal/issuer/bundle.go:228-249 | a retirement time for every CA but the current one |
| `Bundle.PrependCurrentCA` | internal/issuer/bundle.go:310-322 | the current CA, then the others without it |
| `Bundle.RetainedAre` | internal/issuer/bundle.go:192-226 | a CA is retained if and only if it is listed, not the new one, unexpired and retired less than two TTLs ago |
| `BundleRuns.StartsOnce` | internal/issuer/bundle.go:51-90 | a bundle loaded at startup lists its current CA first and once and keeps every other with its known retirement time |
| `BundleRuns.NewestIsFirst` | internal/issuer/bundle.go:109-119 | after any run of rotations, writes and reloads the newest CA is first and listed once, and the bundle file lists nothing that is not published |
| `BundleRuns.LivingLeavesAreCovered` | internal/issuer/bundle.go:92-120 | in any run of rotations and writes, failed half way or not, and of reloads that find the CA in the bundle file and no too early retirement of it in the other, the issuer of every living leaf is published until the CA expires |
| `BundleReloads.ReloadCoversIff` | internal/issuer/bundle.go:51-90 | that condition on a reload is exact: the leaves a CA signed at a given time keep it, whatever follows, if and only if the reload meets it |
| `BundleReloads.FilesSince` | internal/issuer/bundle.go:157-180 | while a CA is current after it was written whole, the bundle file lists it, and the retirement file has a time for it exactly when the last write of that file is a rotation that then failed, and it is that one's |
| `BundleReloads.RestartCoversIff` | internal/issuer/bundle.go:60-120 | every leaf signed before a restart keeps its issuer, whatever follows, if and only if the last write of the retirement file, where it can be read, is not a failed rotation of a TTL or more before, or the CA expires within two TTLs of it |
| `BundleReloads.FailedRotationThenRestart` | internal/issuer/bundle.go:168-172 | the failing run, for every choice of times that allows it |
| `BundleReloads.UnwrittenThenRestart` | internal/issuer/bundle.go:51-56 | a CA that was never written is lost with the next restart while its leaf lives |
| `BundleRuns.LastInstantExactly` | internal/issuer/bundle.go:218-221 | in any run with such reloads, at the instant a CA and its leaf expire together, the issuer is published if and only if no rotation of that very instant dropped it |
| `BundleRuns.LastInstantUncovered` | internal/issuer/bundle.go:218-221 | for every leaf signed before its CA's last instant and living until it, a run in which the leaf is still valid then and the CA is gone |
| `BundleRuns.CoveredIffBeforeExpiry` | internal/issuer/bundle.go:218-226 | over every run with such reloads, coverage is guaranteed if and only if the CA has not reached its NotAfter |
| `Paths.CleanPaths` | pkg/allowlist/secrets.go:46-51 | the clean rooted paths are exactly the rooted lists of proper segments |
| `Grants.SegmentsAreCanonical` | pkg/allowlist/secrets.go:33-53 | every list of legal segments is the segments of a canonical path |
| `Grants.CanonicalIsSegments` | pkg/allowlist/secrets.go:27-53 | a path is accepted, unchanged, if and only if it is such a path |
| `Grants.MatchesSegments` | pkg/allowlist/secrets.go:75-90 | a glob matches a canonical path if and only if its segments equal the path's, or for a subtree are a strict prefix |
| `Grants.AllowsSegments` | pkg/allowlist/secrets.go:55-73 | a grant list allows a path if and only if some glob covers its segments |
| `Grants.GlobsAreSegments` | pkg/allowlist/allowlist.go:555-585 | the accepted globs are exactly the rooted lists of proper segments without a star, alone or followed by `/**`, and `/**` itself |
| `Grants.SegmentsAreGlobs` | pkg/allowlist/secrets.go:75-90 | such a list alone covers its own path, and followed by `/**` everything strictly below it |
| `Allowlist.AllowsExactly` | pkg/allowlist/secrets.go:55-73 | a grant lets read what one of its read globs covers segment by segment and write what one of its write globs does, if its word is allow, and nothing otherwise |
| `Allowlist.MountPolicyAdmits` | pkg/allowlist/match.go:168-196 | the loop over the mounts decides what the mount policy means |
| `Allowlist.ExactMountsAdmitted` | pkg/allowlist/match.go:185-207 | no destination twice, every non-platform mount admitted by its first matching rule, as many mounts as rules |
| `HostIndependence.ExactIsBijection` | pkg/allowlist/match.go:185-207 | an exact policy admits if and only if the non-platform mounts are in bijection with its rules, each fitting its rule: same place and kind, and in memory or encrypted, or the digest of the host path and its read-only flag |
| `HostIndependence.LaunchesAgree` | pkg/allowlist/allowlist.go:262-275 | two launches of one container of a host-independent entry agree on digest, argv, environment and mount places, and neither has a host mount |
| `Admission.HostIndependentIff` | pkg/allowlist/allowlist.go:262-275 | an entry is host-independent if and only if every container pins both parts of its argv, has neither host mounts nor an open mount policy, and denies its environment or gives it exactly |
| `Matching.WorkloadContainers` | internal/secrets/handler.go:448-480 | exactly the reported containers that are not injected, in order |
| `Matching.ContainerAdmits` | pkg/allowlist/match.go:148-159 | digest, process, mounts and environment all admit, each as said in the `Admission` rows |
| `Admission.ArgvAdmittedIff` | pkg/allowlist/policy.go:70-107 | an exact command is the beginning of the argv and args judge the rest; otherwise args judge all of it |
| `Admission.OpenIff` | pkg/allowlist/allowlist.go:282-299 | a container that leaves command and args open admits every argv, and no other canonical one does |
| `Admission.PinnedIff` | pkg/allowlist/allowlist.go:250-260 | an entry pins its argvs if and only if no container, init or main, leaves either part open |
| `Admission.PinnedAdmitsOne` | pkg/allowlist/allowlist.go:250-260 | and then each container admits at most one argv |
| `Admission.EnvAdmittedIff` | pkg/allowlist/env.go:90-102 | deny and exact admit exactly a well-formed observation of the empty environment or of the one given; an open policy admits any, and none |
| `Admission.PreimageTells` | pkg/allowlist/env.go:62-72 | the text whose hash is reported tells environments with valid strings apart |
| `Admission.ExactEnvIsTheEnv` | pkg/allowlist/env.go:62-102 | where the hash does not collide, an exact policy admits its own environment and no other, and deny the empty one only |
| `Admission.AdmittedMountsAreContained` | pkg/allowlist/mount_rule.go:37-82 | every mount of an admitted launch is the platform's, or in memory or encrypted, or a host path that a rule names by its digest and read-only flag, unless any is admitted |
| `Admission.DenyAdmitsPlatformOnly` | pkg/allowlist/match.go:168-184 | under deny, or no policy, a launch is admitted if and only if all its mounts are the platform's; without evidence it is not |
| `Admission.DigestIs` | pkg/types/digest.go:15-37 | a digest is accepted if and only if it is `sha256:` and 64 hexadecimal digits, and is read as those digits in lower case |
| `Admission.DroppedIff` | internal/secrets/handler.go:467-480 | a reported container is dropped if and only if it runs one of the four entrypoints and some entry lets its image run with any argv |
| `Matching.Diff` | pkg/allowlist/match.go:98-121 | lists everything foreign and every missing main; both empty if and only if the entry describes the set |
| `Matching.MatchWorkload` | pkg/allowlist/match.go:55-81 | the one entry that describes the set, none, or several, whatever order the map is walked in |
| `Explain.MatchingStage` | internal/secrets/handler.go:333-353 | grants entry and policy if and only if the report releases them |
| `Explain.ReleasedOnWholeReports` | pkg/workloadclaims/digests.go:436-452 | nothing is released on a report that is empty or names a container without its digest |
| `Explain.Explain` | internal/secrets/explain.go:124-157 | names an entry with its grant if and only if the matching stage grants it; the refusal names the first thing missing, from the binding to the report's detail and its candidates, and then the one of the only possible outcome |
| `Explain.ExplainReport` | internal/secrets/explain.go:159-213 | every entry judged, sorted by name; the refusal is the one of the only possible outcome |
| `Explain.JudgeEntry` | internal/secrets/explain.go:175-188 | the verdict lists what is foreign and what is missing |
| `Explain.SortedNames` | internal/secrets/explain.go:216-223 | all names, each once, sorted |
| `Explain.MatchedDecides` | internal/secrets/explain.go:174-200 | the number of matched names is the outcome MatchWorkload reaches |
| `Normalise.NormalizeMountRules` | pkg/allowlist/allowlist.go:437-456 | accepts exactly non-empty lists of valid rules with distinct destinations, and sorts them |
| `Normalise.NormalizeMounts` | pkg/allowlist/allowlist.go:419-435 | the mount policy's canonical form |
| `Normalise.NormalizeGlobs` | pkg/allowlist/allowlist.go:557-585 | refuses exactly when some glob is not accepted; otherwise the sorted globs without repetition |
| `Normalise.NormalizeSecrets` | pkg/allowlist/allowlist.go:522-553 | a grant without paths is none; an allow needs a read path |
| `Normalise.NormalizeContainers` | pkg/allowlist/allowlist.go:402-415 | every container in canonical form, or a refusal |
| `Normalise.NormalizeWorkload` | pkg/allowlist/allowlist.go:383-397 | an entry's canonical form; a strict grant needs pinned argvs |
| `Normalise.Document.Normalize` | pkg/allowlist/allowlist.go:360-400 | the whole document, in any order of its entries; over-long names are refused or dropped |
| `Acceptance.DocumentAcceptedIff` | pkg/allowlist/allowlist.go:353-640 | a document is accepted if and only if it has the schema, every name is legal, and every entry is: digests present, argvs, rules, environments and globs fitting their words, and, where strict, short names and no grant beside an open argv; it keeps exactly the short names |
| `NormalForm.NormalisationIsIdempotent` | pkg/allowlist/allowlist.go:353-400 | normalising a normalised document changes nothing |
| `NormalForm.EnvAndMountsPreserved` | pkg/allowlist/constraints.go:61-66 | what environment and mount policies admit does not change |
| `NormalForm.GrantsPreserved` | pkg/allowlist/allowlist.go:516-585 | what a grant allows does not change |
| `NormalForm.ArgvPreservedIff` | pkg/allowlist/allowlist.go:494-514 | the admitted argvs only grow, and stay the same if and only if no absent policy can show |
| `NormalForm.SortContainersOrderFreeIff` | pkg/allowlist/allowlist.go:587-604 | one result for every input order if and only if no two different containers share digest and rendered policies; where the rendering tells the policies apart, if and only if no two differ in the image label alone |
| `NormalForm.DocumentsForgetOrder` | pkg/allowlist/allowlist.go:353-400 | a refusal is the same for any order of containers, rules and globs, and so is the canonical document where its containers are told apart |
| `NormalForm.DocumentOrderFreeIff` | pkg/allowlist/allowlist.go:353-400 | the canonical form of an accepted document is the same for every such order if and only if no kept entry has two different canonical containers with one digest and one rendering |
| `JsonText.StringRead` | pkg/allowlist/allowlist.go:601-604 | JSON strings delimit themselves, and their texts are equal if and only if the strings are, stray bytes that are not UTF-8 taken for one another |
| `PolicyJson.JsonKeyTells` | pkg/allowlist/allowlist.go:601-604 | policyKey tells canonical policies with valid strings apart |
| `PolicyJson.CanonicalOrderFreeIff` | pkg/allowlist/allowlist.go:587-604 | with the program's own rendering and valid strings, the canonical form is the same for every order if and only if no kept entry has two canonical containers that differ in the image label alone |
| `PolicyJson.StrayBytesCollide` | pkg/allowlist/allowlist.go:601-604 | argvs that differ in a stray byte are rendered the same, and accepted |
| `Sorting.SortIsStable` | pkg/allowlist/allowlist.go:591-599 | tied elements keep their order |
| `Quoting.QuoteRead` | pkg/workloadclaims/container_key.go:14-20 | %q is injective and delimits itself, on every byte string |
| `ContainerKey.BuildKey` | pkg/workloadclaims/container_key.go:14-33 | the string builder writes the key |
| `ContainerKey.KeyInjective` | pkg/workloadclaims/container_key.go:10-33 | equal keys if and only if equal digest, argv with nil as empty, environment and mounts, their source aside |
| `MountOrder.ComparesFields` | internal/admissionhistory/history.go:38-52 | the comparison is the lexicographic order of the compared fields |
| `MountOrder.AdmissionIgnoresOrder` | internal/admissionhistory/history.go:33-35 | sorting mounts does not change what a policy admits |
| `MountOrder.AdmissionIgnoresSource` | pkg/allowlist/match.go:19-28 | nor does a mount's source |
| `History.HistoryObject.Record` | internal/admissionhistory/history.go:23-36 | an unresolved container is remembered; a resolved one clears it and is stored under its key |
| `History.HistoryObject.Snapshot` | internal/admissionhistory/history.go:56-72 | unavailable exactly while something is unresolved; otherwise the sorted digests and containers, each once |
| `History.MountOrderForgotten` | internal/admissionhistory/history.go:34-35 | one admission, its mounts reported in any order, is stored under one key |
| `History.HistoryIsTheSet` | internal/admissionhistory/history.go:13-36 | after any records the history holds exactly the distinct admissions and exactly the pending containers |
| `History.SnapshotsAreSets` | internal/admissionhistory/history.go:54-72 | two histories report the same inventory if and only if they recorded the same set, in whatever order |
| `History.ForeignEvidencePersists` | internal/admissionhistory/history.go:13-72 | once a non-injected container that an entry does not admit is recorded, no later snapshot resolves to that entry |
| `AllowlistStore.Store.SeedWorkloads` | internal/allowlist/store.go:219-281 | adds exactly the free names and keeps the rest; bumps the version only if something was added |
| `AllowlistStore.Store.PutWorkload` | internal/allowlist/store.go:287-308 | stores the canonical entry and rebuilds its index rows, or changes nothing |
| `AllowlistStore.Store.DeleteWorkload` | internal/allowlist/store.go:312-340 | removes the entry and its rows, and bumps only if it existed; over runs this is `AllowlistRuns.EntriesAre` |
| `AllowlistStore.Store.ReplaceAll` | internal/allowlist/store.go:344-391 | the document becomes the given one, index included |
| `AllowlistStore.Store.Contains` | internal/allowlist/store.go:153-168 | a digest is indexed if and only if some entry has it |
| `AllowlistStore.Store.CommitTx` | internal/allowlist/store.go:188-212 | a failed commit changes nothing; a successful one counts |
| `AllowlistStore.IndexWorkload` | internal/allowlist/store.go:411-426 | one row per digest and role of the entry |
| `AllowlistStore.RowsAre` | internal/allowlist/store.go:407-426 | a digest is indexed as an init container's if and only if an init container of the entry has it, and likewise for a main one |
| `AllowlistStore.VersionTellsDocument` | internal/allowlist/store.go:205-243 | an operation that keeps the version keeps the document |
| `AllowlistRuns.EntriesAre` | internal/allowlist/store.go:185-391 | after any mutations, committed or rolled back, a name holds the canonical form of the last accepted put, or what the last replace gave it, or the first seed of it when it was free, unless it was deleted since |
| `AllowlistRuns.VersionCounts` | internal/allowlist/store.go:170-243 | after any mutations the version has grown by the number of committed accepted puts, replaces, deletes of a held name and seeds of a free one |
| `CachedPolicy.CachedPolicyObject.Allowlist` | internal/secrets/policy.go:37-59 | a hit returns the cached document; a miss loads, caches and returns document and version together |
| `CachedPolicy.AnswersAreCurrent` | internal/secrets/policy.go:37-59 | in every interleaving a returned document was held by the store during that call |
| `CachedPolicy.VersionsDetermineDocuments` | internal/allowlist/store.go:170-183 | over every run equal versions are equal documents |
| `SecretStore.MemoryStore.PutIfAbsentLocked` | internal/secrets/store.go:161-175 | stores only at a free path with room; the accounting is kept |
| `SecretStore.MemoryStore.PutLocked` | internal/secrets/store.go:177-191 | replaces and moves the charge to the operator; the accounting is kept |
| `SecretServing.PutExactly` | internal/secrets/store.go:177-191 | after any operations an operator's write succeeds if and only if the value fits and the path is in use or there is room |
| `SecretStore.MemoryStore.StoreLocked` | internal/secrets/store.go:202-212 | the prior holder gets its quota back, zero counts go |
| `SecretStore.MemoryStore.CheckRoomLocked` | internal/secrets/store.go:217-227 | the holder's quota answers before the ceiling |
| `SecretStore.ChargedAccounted` | internal/secrets/store.go:200-212 | after a write every count is the number of paths charged, none zero |
| `SecretStore.CountsAddUp` | internal/secrets/store.go:119-120 | the counts add up to the number of paths |
| `SecretServing.AlwaysValid` | internal/secrets/store.go:132-135 | after any operations the counts are exact, add up, and both bounds hold |
| `SecretServing.QuotaHolds` | internal/secrets/store.go:214-227 | after any operations no workload is charged for more paths than its quota |
| `SecretServing.HandleGet` | internal/secrets/handler.go:187-206 | answers as the function that the next three rows are about |
| `SecretServing.GetReturnsLastWrite` | internal/secrets/handler.go:187-206 | after any operations a GET returns a value if and only if the caller may read the path and that value is the last one written there |
| `SecretServing.GetExactly` | internal/secrets/handler.go:187-206 | after any operations a GET returns a value if and only if some read glob of the grant covers the path segment by segment and the value is the last one written there; it is not found otherwise |
| `SecretServing.GetBlindIff` | internal/secrets/handler.go:187-206 | no operations on the store can change the answer to a GET if and only if the caller may not read the path, or the limits leave no room for a value |
| `SecretServing.HandlePost` | internal/secrets/handler.go:208-251 | what a POST stores and answers, as said in the next two rows |
| `SecretServing.PostExactly` | internal/secrets/handler.go:208-251 | after any operations, what a POST is told: the first that fails of a write glob covering the path, a fresh value that fits, a free path, the workload's quota, the ceiling; otherwise its own value |
| `SecretServing.ChargedToLastWriter` | internal/secrets/store.go:155-212 | after any operations a path is charged to the workload that created it, until an operator replaces it |
| `SecretServing.PostSeesOnlyCharges` | internal/secrets/handler.go:208-251 | the answer depends on the store only through which paths exist and who is charged |
| `SecretServing.ValuesNeverShow` | internal/secrets/handler.go:187-251 | in two runs of GETs, POSTs and operator writes that differ only in the values written at hidden paths, every answer about another path is the same, and one about a hidden path shows no value but the caller's own candidate unless the caller may read it |

## Left out

- ReleaseFacts.TokenAuthorisesOnce: speaks of the signed token, not of its signature bytes; an ECDSA signature can be rewritten without changing what it signs.
- AllowlistStore.Store.LoadAll: entries are the workloads themselves; their JSON encoding, and SQLite's integer overflow after 2^63 mutations, are not modelled.
- CertState.CertStateObject.ScheduleRetry: the delay is any; the exponential schedule of the backoff library is not modelled.
- CertState.CertStateObject.CertificateInstalledLocked: the revision is unbounded; a wrap takes 2^64 installs.
- History.HistoryObject.Record: mounts are sorted by a stable sort; the program's sort may order mounts that differ in their source alone either way.
- Normalise.Document.Normalize: which error is reported, and what a refused document looks like half way, are not stated.
- BundleRuns.NewestIsFirst: runs have a repository directory; without one a rotation always succeeds and a reload starts from nothing.
- Matching.MatchWorkload: the admission index of pkg/allowlist/policy.go (BuildIndex, AdmitsContainer, AdmitsProcess) would only add easy members.
- ObserveEnv and ObserveLaunchEnv of pkg/allowlist/env.go, which read NAME=value lists; environments are maps.
- TopHolders of internal/secrets/store.go, a log line's census.
- The `provisioned` and `unusableLogged` flags, CertReady, CertUsable and CertExpiry, and all logging.
- HKDF, X-Wing, AES-GCM, ECDSA, X.509, ASN.1 and JSON themselves.
- HTTP routing, header decoding, rate limits and the client side of every protocol.
- internal/controller, internal/webhook, cmd/c8s, Helm charts and the node image.
