# MirrorURL: models and proofs of its protocols

MirrorURL mirrors HTTP trees into local directories, with many threads and
several processes at once, and is built to survive a crash at any point. This
project models the small protocols over shared state that this rests on, and
proves what they promise.

Protocols in which several parties interleave are state machines: one event is
one critical section or one system call, the theorems speak about every run, and
crashes are events. Classes and loops of the program are Dafny classes and loops,
proved against the functions that the theorems are about.

| files | what they model |
|---|---|
| `LockTable`, `Leases`, `Ownership`, `Granting` | owners of destination trees: locks taken key by key and rolled back, operation and close leases of nested owners, the two together, and which requests are granted |
| `DestinationLock` | the owner's methods over a kernel lock table |
| `CapacityRegistry`, `CapacityBudget` | the free-space registry shared by processes, and the batch budget on top of it |
| `ChunkPlan`, `RangeChecks`, `TransferProtocol`, `TransferProgress`, `ChunkTransfer` | parallel download: dividing a file, checking range answers, the writers' protocol and when it can still succeed, the writing loops |
| `ScratchStore`, `OwnedScratch` | private transfer workspaces: what a crash can leave, and the methods that create, remove and recover them |
| `FilenameMap` | remote names on destinations that normalise Unicode or ignore case, and the MOVE archive check |
| `RequestLoop`, `HalfOpenChains` | redirects, retries, the hand-over of the global request slot, and what a redirect chain costs a half-open circuit breaker |
| `UrlScope` | scope of a URL by its decoded path |
| `CircuitBreaker` | the breaker and its per-domain manager |
| `RateLimiter` | request pacing per address and bandwidth reservation |
| `LruCache`, `MetadataLevels`, `MetadataCache` | the bounded cache, one path of the two-level file-metadata cache under any number of threads, and its methods |
| `DirectorySelection` | nonoverlapping roots from directory patterns |
| `DomainHealth` | truncated incident history |
| `Collections` | optional values, prefixes, sums over finite maps |

Unicode normalisation, case folding, lock-file digests, UTF-8 decoding, pattern
matching and the server are function parameters: what is proved holds for all of
them. Clock readings, free-space samples and failures of system calls are inputs.

## What the proofs showed

- Disjointness of granted trees does not need the lock-file digest to be
  collision-free: a collision can only refuse a request (`LockTable.Naming` assumes
  nothing about it).
- `FilenameMap.key` accepts the map's own root as a file without recording it, so
  "no accepted file is an ancestor of another accepted path" fails exactly for that
  call (`AcceptedFileHasNothingBelow`, `RootFileIsNotRecorded`).
- The pause between two requests to one address is guaranteed exactly when cleanup
  keeps entries at least as long as the pause; the built-in age of 3600 seconds
  breaks it for longer pauses (`EarlyCleanupBreaksSpacing`).
- The two levels of the metadata cache are locked separately, so calls interleave.
  Lookups return the latest record or nothing, in every run, if and only if no lookup
  of a path straddles a save or a cleanup of it and its saves do not straddle each
  other; every other overlap is harmless (`MetadataLevels.ReliableExactlyWhenCareful`,
  with the failing runs `LookupUndoesSave`, `LookupUndoesCleanup`, `SavesDisagree`).
- After a quiet `recovery_timeout` one call of `can_execute` is admitted exactly when
  the breaker was not left half-open; two always suffice
  (`OneCallSufficesUnlessHalfOpen`, `OneCallMayBeRefused`, `RecoversInTwoCalls`).
- Truncating an incident history is invisible exactly when, for every recorded time
  from which on there are enough incidents, the newest twenty contain enough of them;
  a clock that does not go back ensures it (`TruncationShowsExactlyWhen`,
  `TruncationIsInvisible`, `ClockMustNotGoBack`).
- A request asks the circuit breaker once for every URL of its redirect chain and
  reports at most one outcome. It is admitted more often than it reports exactly when
  one of its sends was redirected or raised an unexpected exception, or its first URL
  was admitted and then could not be requested
  (`RequestLoop.Connection.AdmissionsAgainstReports`).
- In a half-open period these admissions are permits that no success pays back. A
  period can be closed exactly when some `limit` requests have, together, no more than
  `limit` URLs left to ask for when it begins, the opening request's one permit counted
  in (`HalfOpenChains.PeriodCanCloseExactlyWhen`). With no request outstanding at that
  moment this means `limit` requests without a redirect, and no period closes when every
  answer sits behind one (`FreshPeriodClosesExactlyWhen`, `RedirectsKeepItOpen`,
  `OneRedirectUsesUpThePeriod` for the manager's default). Requests that were admitted
  before the period report their successes for free: `limit` of them close it, redirects
  or not (`OutstandingRequestsClose`, `OutstandingRedirectsClose` as a run).

## Model

| member | source | states |
|---|---|---|
| Ownership.NoTreeIsShared | src/mirror_url/destination_lock.py:129-167 | in every state reachable by any interleaving of single-key acquisitions, roll-backs, leases, closes and crashes, no two owners hold granted paths that are equal or one inside the other |
| Ownership.CallOutcome | src/mirror_url/destination_lock.py:129-167 | a failed `add_paths` leaves its owner with exactly the locks and paths it started with, a successful one adds exactly the missing required keys in their modes, whatever others did in between |
| Ownership.WorkKeepsLocks | src/mirror_url/destination_lock.py:169-210 | while an operation or cleanup runs, no step of anybody short of its own process crashing takes a settled lock from its owner or any ancestor owner, and the kernel still holds them |
| Ownership.RunKeepsInv | src/mirror_url/destination_lock.py:108-210 | lock table, leases and their link stay sound over every run |
| Ownership.CallRemembersStart | src/mirror_url/destination_lock.py:129-167 | no other party's steps change what a call in progress set out from |
| LockTable.GrantedTreesAreDisjoint | src/mirror_url/destination_lock.py:80-87 | from the invariant: two owners' granted trees never overlap, for any normalisation and digest |
| LockTable.GrantedIsLocked | src/mirror_url/destination_lock.py:137-155 | a granted path has its own lock exclusive and every ancestor's lock held in the kernel |
| LockTable.StepKeepsInv | src/mirror_url/destination_lock.py:129-167 | every single-key step, roll-back step, end, release and crash keeps the lock table consistent with what owners record |
| LockTable.SuccessAddsRequirements | src/mirror_url/destination_lock.py:137-155 | a completed call holds the requirements on top of what it held, and nothing else |
| LockTable.KeyOfParent | src/mirror_url/destination_lock.py:80-87 | keys of parent directories are the proper prefixes of a path's key |
| Leases.StepKeepsInv | src/mirror_url/destination_lock.py:169-210 | with any number of threads in nested owners: lease counts equal the activities inside, and releases happened exactly for closing owners without leases |
| Leases.WorkKeepsOwnership | src/mirror_url/destination_lock.py:169-210 | a running operation or cleanup holds a lease on its owner and all ancestors, none of which has released |
| Leases.NoLeaseAfterClose | src/mirror_url/destination_lock.py:169-181 | nobody gets a new lease on an owner that is closing |
| Leases.ReleasedByLastLeave | src/mirror_url/destination_lock.py:183-190 | an owner's locks are released in exactly one kind of step, the last lease leaving a closing owner, and at most once |
| Leases.CleanupRunsOnce | src/mirror_url/destination_lock.py:192-210 | concurrent closes run the cleanup at most once, inside the call that marked the owner |
| Leases.StepMarks | src/mirror_url/destination_lock.py:169-210 | only a close of an owner marks it, and no other lease step counts a release |
| Leases.OpenOwnersCanBeUsed | src/mirror_url/destination_lock.py:169-181 | in every sound state: an operation on an owner whose lineage is open can get to its work |
| DestinationLocks.ComputeRequirements | src/mirror_url/destination_lock.py:80-87 | the loops build the requirement set, which depends on the paths only as a set: every path exclusive, every proper ancestor shared |
| DestinationLocks.RequirementsGrow | src/mirror_url/destination_lock.py:80-87 | one more path adds its ancestors shared and itself exclusive, and downgrades nothing |
| DestinationLocks.DestinationLock.AddPaths | src/mirror_url/destination_lock.py:129-167 | delegated to the outermost owner; succeeds if and only if no owner of the chain is closing, no path asked for is held only as an ancestor, no missing key is contended, and every lock file could be opened; then the owner holds the requirements; on any failure, of which each kind is explained, handles and kernel are as before |
| Granting.ApartIsGranted | src/mirror_url/destination_lock.py:129-167 | in every reachable state: a request for trees that overlap no tree granted to or asked for by another owner, and contain none of its own owner's, meets both conditions of `AddPaths`, when no two keys involved share a lock file |
| Granting.OverlapIsRefused | src/mirror_url/destination_lock.py:129-167 | in every reachable state: a request for a tree that overlaps one granted to another owner does not meet them |
| Granting.VisitApartSucceeds | src/mirror_url/destination_lock.py:137-155 | whatever others do meanwhile, no single acquisition of such a request fails but for a lock file that cannot be opened |
| DestinationLocks.DestinationLock.LockInTurn | src/mirror_url/destination_lock.py:137-155 | the loop has taken exactly the keys it reports and stopped at the first refusal |
| DestinationLocks.DestinationLock.RollBack | src/mirror_url/destination_lock.py:156-167 | undoes exactly what the call acquired |
| DestinationLocks.DestinationLock.Enter | src/mirror_url/destination_lock.py:169-177 | takes one lease on every owner of the chain, or none when some owner is closing |
| DestinationLocks.DestinationLock.Exit | src/mirror_url/destination_lock.py:178-190 | gives one lease back on every owner of the chain; the kernel loses exactly the locks of owners that were closing with their last lease |
| DestinationLocks.DestinationLock.Close | src/mirror_url/destination_lock.py:192-210 | only the first call acts; the cleanup runs at most once and only while all parents accept a lease; locks go now or with the last lease |
| DestinationLocks.VisitedMeansFree | src/mirror_url/destination_lock.py:137-155 | if every key was visited successfully, no required key was contended at the start |
| DestinationLocks.VisitedMeansRequired | src/mirror_url/destination_lock.py:137-155 | after all visits the owner's locks and kernel entries are the old ones plus the requirements |
| CapacityRegistry.RunKeepsInv | src/mirror_url/capacity.py:59-142 | in every run of processes adding, closing and dying at any moment, each saved registry satisfies `spent + sum(claims) <= free` and agrees with what each live process was granted |
| CapacityRegistry.ReapConserves | src/mirror_url/capacity.py:59-96 | moving dead claims to `spent` conserves the total charge and touches no live claim |
| CapacityRegistry.LoadKeepsWithin | src/mirror_url/capacity.py:59-96 | loading succeeds on every registry within its sample, stays within it and keeps live claims |
| CapacityRegistry.AdmitKeepsWithin | src/mirror_url/capacity.py:110-123 | a grant lies between the minimum and both the preferred amount and the current free sample, keeps the registry within its sample, and changes one claim only |
| CapacityRegistry.AdmitsExactlyWhenRoom | src/mirror_url/capacity.py:110-123 | from the file, the live leases and the sample: a claim that the file agrees with is refused if and only if there is less room than it must have, and is otherwise given all it would like or all the room |
| CapacityRegistry.GrantIsCharged | src/mirror_url/capacity.py:110-123 | a grant is charged in full to the epoch, whose sample stays the one it began with |
| CapacityRegistry.RetireKeepsWithin | src/mirror_url/capacity.py:125-142 | closing a claim returns exactly what was not retained and changes no other live claim |
| CapacityRegistry.LiveGrantsFit | src/mirror_url/capacity.py:59-142 | in every reachable state all live grants together fit into one free sample next to the epoch's spent bytes |
| CapacityRegistry.OwnClaimIsNeverDisturbed | src/mirror_url/capacity.py:110-142 | no live process ever finds its claim changed or the file unreadable, and every retirement within its grant is accepted |
| CapacityRegistry.EpochRestartsWhenIdle | src/mirror_url/capacity.py:59-96 | a new epoch begins only when no live process holds a grant |
| CapacityBudgets.CapacityClaim.LoadRegistry | src/mirror_url/capacity.py:59-96 | the reaping loop yields the specified registry |
| CapacityBudgets.CapacityClaim.Add | src/mirror_url/capacity.py:110-123 | refuses exactly for want of room, reports the file exactly when it disagrees, and otherwise funds the smaller of room and preferred amount and saves the admitted registry, unless the write fails |
| CapacityBudgets.CapacityClaim.Close | src/mirror_url/capacity.py:125-142 | the lease always goes; the file changes only to the retired registry |
| CapacityBudgets.CapacityBudget.Fund | src/mirror_url/capacity.py:192-215 | succeeds exactly when the needed bytes, and the headroom the first time, can be bought, writes permitting; buys the larger of need and window as far as there is room; budget and claim grow by the same amount, less the headroom on first funding |
| CapacityBudgets.CapacityBudget.Reserve | src/mirror_url/capacity.py:217-237 | an open budget accepts exactly what its credit covers - checked against a new sample when the old one is stale - or what can be bought for the rest; keeps "funded = headroom + remaining + reserved + kept" with `remaining >= 0`; a refusal changes no credit |
| CapacityBudgets.CapacityBudget.Ensure | src/mirror_url/capacity.py:239-248 | afterwards the path has the larger of its old and the needed credit, other paths are untouched |
| CapacityBudgets.CapacityBudget.Release | src/mirror_url/capacity.py:250-253 | the reservation splits into unspent and kept credit, conserving the total |
| CapacityBudgets.CapacityBudget.Close | src/mirror_url/capacity.py:255-262 | the claim is closed with exactly reserved plus kept credit, which lies within `0..funded` |
| ChunkPlan.CreateChunks | src/mirror_url/download.py:559-580 | for every size and configuration: no plan exactly when parallel download is off or one chunk results, otherwise as many ranges as the two limits allow, which tile `[0, size)`, each at least the minimum size, the last exceeding the others by less than the chunk count |
| ChunkPlan.TilesPartition | src/mirror_url/download.py:559-580 | in a tiling every byte of the file lies in exactly one range |
| ChunkPlan.TilesOrdered | src/mirror_url/download.py:559-580 | later ranges start after earlier ones end |
| RangeChecks.ContentRangeRoundTrip | src/mirror_url/download_integrity.py:144-150 | a Content-Range written for a range (RFC 9110, section 14.4) is read back as that range |
| RangeChecks.ParsedExactlyWhenSpelled | src/mirror_url/download_integrity.py:146-150 | a header is read as three numbers if and only if it is the word, the three runs of digits with these values and the marks between them, and nothing else |
| RangeChecks.ValidExactlyWhenSpelled | src/mirror_url/download_integrity.py:144-157 | an answer is accepted for a range if and only if it is a 206 that spells the range and total, has the strong tag asked for, and no header that contradicts it |
| RangeChecks.ExactAnswerIsAccepted | src/mirror_url/download_integrity.py:144-157 | a 206 answer (RFC 9110, section 15.3.7) for exactly the requested bytes with the same quoted tag is accepted |
| RangeChecks.StrongExactlyWhenQuoted | src/mirror_url/download_integrity.py:127-131 | a header gives a strong tag (RFC 9110, section 8.8.3) if and only if it is that tag, in quotes and of the allowed characters, between blanks |
| RangeChecks.AnswerFitsOneRequest | src/mirror_url/download_integrity.py:144-157 | one answer validates for at most one range, total and representation |
| RangeChecks.WeakEtagIsRejected | src/mirror_url/download_integrity.py:127-131 | a weak validator (RFC 9110, section 8.8.1) is never used for ranges |
| TransferProtocol.PublishedIsRemote | src/mirror_url/download.py:729-885 | under every interleaving of block writes, lost attempts, failures and full-range retries, a published file has the remote bytes, at publication and ever after, in either mode |
| TransferProtocol.ModesAgree | src/mirror_url/download.py:834-885 | direct writes and temporary files with assembly publish the same bytes |
| TransferProtocol.ReleaseWaitsForWriters | src/mirror_url/download.py:1343-1371 | no workspace is released while a submitted writer is unfinished, and a deferred cleanup always has a callback left or has happened |
| TransferProtocol.LastWriterReleases | src/mirror_url/download.py:1353-1363 | the last writer's callback performs the deferred release |
| TransferProgress.PublicationPossibleExactlyWhen | src/mirror_url/download.py:729-885 | in every reachable state the file can still be published if and only if the coordinator has not given up and, once it has stopped retrying, every range was completed |
| TransferProtocol.RunKeepsInv | src/mirror_url/download.py:606-856 | writer progress, completed ranges and the life cycle stay sound over every run |
| TransferProtocol.RangesMakeFile | src/mirror_url/download.py:834-856 | a file that agrees with the remote file on every range is the remote file |
| TransferProtocol.BlockSpares | src/mirror_url/download.py:653-668 | a writer's block changes no byte of another range |
| ChunkTransfer.Receive | src/mirror_url/download.py:653-677 | the block loop writes exactly the blocks before the first that would pass the range's end, at the range's offset |
| ChunkTransfer.AttemptRange | src/mirror_url/download.py:632-698 | one attempt's outcome, for every way it can end, and the exact bytes it leaves in the shared file |
| ChunkTransfer.DownloadRange | src/mirror_url/download.py:626-718 | on the shared file: succeeds exactly when the last attempt brings a valid answer with exactly the range's bytes; every attempt before it, and no other, got no answer or a valid one cut off early; at most `limit` repetitions; success means the range holds the remote bytes, failure leaves old or remote bytes inside the range only |
| ChunkTransfer.AttemptTemp | src/mirror_url/download.py:632-698 | the same outcome on the range's own file, which then holds exactly the accepted blocks of a valid answer |
| ChunkTransfer.DownloadTemp | src/mirror_url/download.py:626-718 | the same for the range's own file: success means it is exactly the remote range, failure leaves it as it was or beginning the remote range |
| ChunkTransfer.JudgedByItsBytes | src/mirror_url/download.py:632-698 | an attempt succeeds, or is worth another one, exactly by its answer, the number of bytes it brought and how it ended |
| ChunkTransfer.AssembleFile | src/mirror_url/download.py:1118-1151 | succeeds exactly when every temporary file is there with its range's size, and then each range holds its file |
| ChunkTransfer.AssembledIsRemote | src/mirror_url/download.py:1118-1151 | joining files that hold the remote ranges gives the remote file |
| ChunkTransfer.HonestBlockContinues | src/mirror_url/download.py:645-668 | every block that a validated answer gets written is a step the transfer protocol allows |
| ScratchStore.AbandonedBytesAreRecognised | src/mirror_url/scratch.py:74-105 | for a crash at any point, a workspace that nobody else touched and that holds transfer bytes has a complete valid manifest, so the next owner recognises it |
| ScratchStore.StrangersAreKept | src/mirror_url/scratch.py:128-168 | no step changes an entry the protocol neither made nor recognised, or deletes a file the manifest does not record |
| ScratchStore.LiveWorkIsProtected | src/mirror_url/scratch.py:128-168 | while a writer uses a workspace its lease is held and no removal can begin |
| ScratchStore.ShrunkStaysRecoverable | src/mirror_url/scratch.py:154-168 | an interrupted removal leaves a workspace that is still recognised, or an empty one |
| ScratchStore.RunKeepsInv | src/mirror_url/scratch.py:74-206 | manifest before bytes, lease while in use, over every run with crashes |
| ScratchStore.RecognisedExactlyWhenOurs | src/mirror_url/scratch.py:107-159 | the checks before a removal pass if and only if the name is `work_` and a token, the marker names this target, kind and token with a list of transfer file names, and every entry is a regular file that is the marker or in that list |
| ScratchStore.NewWorkGoesLive | src/mirror_url/scratch.py:74-105 | a new workspace for acceptable names can always be brought into use |
| OwnedScratches.OwnedScratch.Create | src/mirror_url/scratch.py:74-105 | success - certain on a disk without failures for an acceptable list and a new token - yields a leased workspace with the full marker and nothing else; failure leaves none with transfer bytes |
| OwnedScratches.OwnedScratch.Remove | src/mirror_url/scratch.py:128-168 | deletes nothing unless the lease is free and every single entry is the marker, in full, or a regular file that it lists; then the workspace is gone, or shrunk with the marker last |
| OwnedScratches.OwnedScratch.Release | src/mirror_url/scratch.py:170-187 | gives the lease up and removes the owner's own workspace, nothing else |
| OwnedScratches.OwnedScratch.Recover | src/mirror_url/scratch.py:189-206 | with working deletions removes exactly such unleased workspaces of both roots and counts them; every other entry, in particular a workspace with any further file in it, keeps every byte |
| OwnedScratches.RecoveryReclaimsEverything | src/mirror_url/scratch.py:189-206 | after a crash anywhere, the directory that `Recover` leaves holds no transfer bytes of the protocol in any workspace nobody else touched |
| FilenameMaps.AcceptedEntriesDiffer | src/mirror_url/filename_mapping.py:149-185 | after any calls, two accepted paths that lead to one entry of the filesystem are the same path, and below the root agree on being a directory |
| FilenameMaps.AcceptedFileHasNothingBelow | src/mirror_url/filename_mapping.py:149-185 | an accepted file is an ancestor of another accepted path if and only if it is the map's root |
| FilenameMaps.RootFileIsNotRecorded | src/mirror_url/filename_mapping.py:149-159 | the two calls that show the exception |
| FilenameMaps.CallsKeepState | src/mirror_url/filename_mapping.py:149-185 | accepted and rejected calls keep the trie sound and forget no accepted path |
| FilenameMaps.NewNameIsApart | src/mirror_url/filename_mapping.py:166-175 | names that fold alike coexist only in a directory found case-sensitive |
| FilenameMaps.FilenameMap.Key | src/mirror_url/filename_mapping.py:149-185 | the loop with its memo tables decides as the specification, and accepts exactly when every prefix is acceptable by what was recorded before the call, on a destination that does not change |
| FilenameMaps.AcceptedExactlyWhen | src/mirror_url/filename_mapping.py:149-185 | a call is accepted if and only if each prefix of its path is recorded just so, or is new, folds like no recorded name that the directory may confuse with it, and is listed in its normal form or does not exist in a readable or missing directory |
| FilenameMaps.RecordedWasAsked | src/mirror_url/filename_mapping.py:149-185 | whatever is recorded is a prefix of a path that some call asked for, as it was spelled |
| FilenameMaps.FilenameMap.ExistingNames | src/mirror_url/filename_mapping.py:135-147 | memoised listings equal the directory's listing, on a destination that does not change |
| FilenameMaps.ValidateMoveTargets | src/mirror_url/filename_mapping.py:50-66 | accepted exactly when all keys are and none covers an opposite one; then no payload tree shares an entry with an archive tree |
| RequestLoop.Connection.Request | src/mirror_url/connection.py:512-904 | for every server: at most `11 * (max_retries + 1)` sends from depth 0, only to checked URLs; the URLs are the given one and then the normalised location of each redirect that was followed, every send belongs to the URL whose turn it is, and a send is a redirect exactly when it led on or was refused at the end; never two slots at once, slots and responses given back except those of the returned response; the circuit breaker is asked for the domain of each URL in turn and told once, for the domain of the last, or never; and each result has its reason: the status, the failed sends, a full slot counter, the depth limit, or the URL that a check refuses |
| RequestLoop.Connection.Attempts | src/mirror_url/connection.py:606-898 | giving up means that `max_retries + 1` sends in a row failed in a retryable way |
| RequestLoop.Connection.AdmissionsAgainstReports | src/mirror_url/connection.py:553-561 | by what the server did: admissions exceed reports exactly when some send of the request was redirected, followed or not, or raised an unexpected exception, or the first URL was admitted and then could not be prepared or was out of scope; they never fall short |
| RequestLoop.Connection.RedirectsAreFollowed | src/mirror_url/connection.py:669-726 | the number of redirects among a request's sends is the number of further URLs it came to, and one more if the last redirect was refused |
| RequestLoop.Connection.AnsweredAsks | src/mirror_url/connection.py:553-561 | an answered request was admitted exactly once for each URL of its chain, at that URL's domain |
| RequestLoop.SharedBreaker.Ask | src/mirror_url/circuit_breaker.py:371-373 | whatever other threads do: the history of all threads grows by what the others did and then this question, and the answer is the breaker's after all that came before it |
| RequestLoop.SharedBreaker.Tell | src/mirror_url/circuit_breaker.py:350-369 | the history of all threads grows by what the others did and then this outcome |
| HalfOpenChains.PeriodCanCloseExactlyWhen | src/mirror_url/circuit_breaker.py:64-96 | over every interleaving of any number of requests, some of them outstanding when it begins: a half-open period can close if and only if the URLs that some `limit` requests have left, and one for the opening request unless it is among them, are at most `limit` |
| HalfOpenChains.FreshPeriodClosesExactlyWhen | src/mirror_url/circuit_breaker.py:64-96 | with no request outstanding: if and only if the opening request and `limit - 1` others ask for one URL each |
| HalfOpenChains.ClosesExactlyOnSingleHops | src/mirror_url/circuit_breaker.py:81-96 | with no request outstanding: an answer closes the breaker exactly when it is the last of `limit` requests with one URL each and nobody else took a permit |
| HalfOpenChains.RedirectsKeepItOpen | src/mirror_url/connection.py:715-726 | with no request outstanding: when every answer sits behind a redirect no run of the period closes |
| HalfOpenChains.OutstandingRequestsClose | src/mirror_url/circuit_breaker.py:81-96 | `limit` requests that were admitted to their last URL before the period can close it, whatever the others do |
| HalfOpenChains.OutstandingRedirectsClose | src/mirror_url/circuit_breaker.py:48-96 | for every configuration, a run of the breaker in which `limit` two-URL requests, admitted while it was closed, close a period that a later request opened, though no single-URL request exists |
| HalfOpenChains.AnsweredRequestTakesPermits | src/mirror_url/connection.py:715-726 | from what `Request` promises, and whatever other threads do: a request answered while a domain stays half-open took a permit for each URL on it that was left when the period began, within the limit, and told one success to its last URL's domain |
| HalfOpenChains.OneRedirectUsesUpThePeriod | src/mirror_url/circuit_breaker.py:331-333 | with two permits one answered request behind one redirect leaves a half-open breaker that admits nobody |
| RequestLoop.LeasedStream.Close | src/mirror_url/connection.py:53-69 | the slot is given back on the first close only |
| RequestLoop.Slots.Acquire | src/mirror_url/concurrency.py:146-163 | a slot is taken exactly when fewer than the limit are in use |
| RequestLoop.Slots.Release | src/mirror_url/concurrency.py:165-170 | one slot less, of those this chain answers for |
| UrlScope.AcceptedIsClean | src/mirror_url/utils.py:575-607 | the once-decoded path of an accepted URL has no dot component, backslash or NUL and lies below the decoded root by whole components |
| UrlScope.AcceptedStaysInside | src/mirror_url/utils.py:575-607 | resolved below any local directory, an accepted path stays below it and below the root's place |
| UrlScope.RelativePathIsIdentity | src/mirror_url/utils.py:578-583 | the looking-ahead decodes merge no names: equal relative paths come from equal once-decoded paths, up to slashes after the root |
| UrlScope.CleanThroughout | src/mirror_url/utils.py:592-600 | what the last decoding is free of, every earlier one is |
| UrlScope.UnquoteSplits | src/mirror_url/utils.py:592-596 | decoding (RFC 3986, section 2.1) never absorbs a literal character, in particular '/', '.', backslash and NUL |
| UrlScope.DecodesExactlyTheSpelled | src/mirror_url/utils.py:592-604 | decoding gives exactly the bytes that a text spells: each as "%" and its two hexadecimal digits in either case, or as the ASCII character itself, "%" only where no escape begins |
| UrlScope.UnquoteIsTheSpelled | src/mirror_url/utils.py:592-604 | `unquote` of a spelling is the text that these bytes are in UTF-8 |
| UrlScope.UnquoteKeepsOthers | src/mirror_url/utils.py:592-604 | characters beyond ASCII stand for themselves |
| UrlScope.SpelledDotsAreRejected | src/mirror_url/utils.py:592-600 | a path with a component that spells "." or ".." in any way is rejected, also when the spelling only comes out of the first or second decoding |
| UrlScope.SpelledPathIsAccepted | src/mirror_url/utils.py:575-607 | a path that spells a traversal-free name below the root is accepted exactly for the same origin, and maps to that name |
| UrlScope.RelativeUrlPath | src/mirror_url/utils.py:575-607 | defined exactly in scope, with the rest of the path below the root |
| CircuitBreakers.RunKeepsInv | src/mirror_url/circuit_breaker.py:48-114 | closed: count below threshold; otherwise equal to it; half-open: between one permit and the limit, successes below it, begun a recovery time after the last failure |
| CircuitBreakers.TripsExactlyOnStreaks | src/mirror_url/circuit_breaker.py:81-114 | a fresh breaker stays closed if and only if over no period failures outnumber successes by the threshold |
| CircuitBreakers.CountIsWorstBalance | src/mirror_url/circuit_breaker.py:81-114 | while closed the counter is the largest balance of failures over successes of any period ending now |
| CircuitBreakers.ReclosedIsFresh | src/mirror_url/circuit_breaker.py:81-114 | after it has closed again a breaker counts and trips as a fresh one |
| CircuitBreakers.OpenAdmitsExactlyAfterRecovery | src/mirror_url/circuit_breaker.py:48-62 | over every run: a call that finds the breaker open is admitted if and only if the recovery time has passed since the run's latest failure |
| CircuitBreakers.HalfOpenAdmitsExactlyWithinPeriod | src/mirror_url/circuit_breaker.py:64-77 | over every run: a call that finds it half-open is admitted if and only if the recovery time has not passed since the call that began the period and fewer than `limit` calls were made in it |
| CircuitBreakers.NobodyAdmittedDuringRecovery | src/mirror_url/circuit_breaker.py:48-62 | with a clock that does not go back nobody is admitted for the recovery time after a failure that leaves the breaker open |
| CircuitBreakers.ManagerAdmitsExactlyAfterRecovery | src/mirror_url/circuit_breaker.py:371-373 | the same for each domain of the manager, by its own failures since its last reset |
| CircuitBreakers.RecoversInTwoCalls | src/mirror_url/circuit_breaker.py:48-79 | after a quiet recovery time one of two calls is admitted, from every reachable state |
| CircuitBreakers.OneCallSufficesUnlessHalfOpen | src/mirror_url/circuit_breaker.py:48-79 | after a quiet recovery time one call is admitted if and only if the breaker was not left half-open |
| CircuitBreakers.OneCallMayBeRefused | src/mirror_url/circuit_breaker.py:64-71 | for every configuration, a run after which one call does not suffice, at any later time |
| CircuitBreakers.HalfOpenAdmitsAtMostLimit | src/mirror_url/circuit_breaker.py:64-77 | during one half-open period no more requests than the limit are admitted |
| CircuitBreakers.DomainsAreIndependent | src/mirror_url/circuit_breaker.py:340-388 | the manager gives each domain the state of a lone breaker fed that domain's events since its last reset |
| CircuitBreakers.CircuitBreaker.CanExecute | src/mirror_url/circuit_breaker.py:48-79 | answer and next state of the machine |
| CircuitBreakers.CircuitBreaker.RecordSuccess | src/mirror_url/circuit_breaker.py:81-96 | next state of the machine |
| CircuitBreakers.CircuitBreaker.RecordFailure | src/mirror_url/circuit_breaker.py:98-114 | next state of the machine, whose answers the run results above tie to the failures' times |
| CircuitBreakers.CircuitBreakerManager.CanExecute | src/mirror_url/circuit_breaker.py:371-373 | only the asked domain's breaker moves; it is created on first use |
| RateLimiters.ReservationsAreSpaced | src/mirror_url/rate_limiter.py:197-247 | with a clock that does not go back and cleanups no younger than the interval, reservations for one address are an interval apart over any run |
| RateLimiters.ReservationsAreEarliest | src/mirror_url/rate_limiter.py:197-221 | nobody waits longer than needed: a reservation is due at once or just its delay after an earlier one for the address, or after time zero |
| RateLimiters.EarlyCleanupBreaksSpacing | src/mirror_url/rate_limiter.py:242-247 | for every shorter cleanup age there is a run that violates it |
| RateLimiters.PerIPRateLimiter.Wait | src/mirror_url/rate_limiter.py:197-221 | the sleep ends at the reservation made for it, which joins the run that the spacing result is about, with the cleanup it may trigger |
| RateLimiters.ChunkAwareRateLimiter.EffectiveDelay | src/mirror_url/rate_limiter.py:319-330 | the delay grows by a fifth of `chunk_multiplier` intervals for each active chunk beyond the first, up to `1 + chunk_multiplier` intervals from six on |
| RateLimiters.ChunkAwareRateLimiter.Wait | src/mirror_url/rate_limiter.py:307-345 | reserves with the effective delay, in a run whose delays and cleanups meet the spacing result's conditions; its condition on the clock stays with the caller; without an address the global budget spaces by the interval |
| RateLimiters.BandwidthIsBounded | src/mirror_url/rate_limiter.py:45-66 | any consecutive reservations carry at most rate times the span from the first's start to the last's release |
| RateLimiters.BandwidthIsUsed | src/mirror_url/rate_limiter.py:45-66 | no block waits longer than that: some group ending with it uses the rate fully |
| RateLimiters.BandwidthLimiter.Throttle | src/mirror_url/rate_limiter.py:38-66 | the sleep ends at the block's release time |
| LruCaches.HoldsTheMostRecent | src/mirror_url/primitives.py:49-111 | under puts, gets and batches without expiry the cache holds exactly the `maxsize` keys used last, in the order of last use |
| LruCaches.HoldsTheLastStored | src/mirror_url/primitives.py:75-111 | every entry is the value stored last under its key, with the time of that |
| LruCaches.BatchIsPuts | src/mirror_url/primitives.py:94-111 | evicting once after a batch equals evicting after every put |
| LruCaches.LRUCache.Get | src/mirror_url/primitives.py:49-73 | a live entry is returned and becomes the newest, an expired one is dropped |
| LruCaches.LRUCache.Put | src/mirror_url/primitives.py:75-92 | next cache of the specification, through the eviction loop |
| LruCaches.LRUCache.PutBatch | src/mirror_url/primitives.py:94-111 | next cache of the specification, through both loops |
| MetadataLevels.ReliableExactlyWhenCareful | src/mirror_url/cache.py:370-468 | over every run of critical sections by any number of threads, evictions and trims: undisturbed lookups return the latest record or nothing if and only if no lookup straddles a save or cleanup of its path and saves of it do not straddle each other |
| MetadataLevels.StepKeepsInv | src/mirror_url/cache.py:370-468 | under that discipline each critical section keeps both levels at the latest record or explained by a call in progress |
| MetadataLevels.LookupUndoesSave | src/mirror_url/cache.py:380-389 | the run in which a lookup that straddles a save puts the old record back |
| MetadataLevels.LookupUndoesCleanup | src/mirror_url/cache.py:380-389 | the run in which a lookup that straddles a cleanup puts the record back |
| MetadataLevels.SavesDisagree | src/mirror_url/cache.py:424-431 | the run in which two straddling saves leave the levels with different records |
| MetadataCaches.CacheManager.Peek | src/mirror_url/cache.py:380-381 | the first critical section of a lookup, as the level machine has it; other paths can only lose entries |
| MetadataCaches.CacheManager.Decide | src/mirror_url/cache.py:382-395 | the table's part of a lookup, as the level machine has it |
| MetadataCaches.CacheManager.StoreTable | src/mirror_url/cache.py:427-431 | the table store of a save: only a new path in a full table displaces anything, and that is the oldest path |
| MetadataCaches.CacheManager.GetFileMetadata | src/mirror_url/cache.py:370-395 | its two sections in a row: the record of the latest save since the last cleanup exactly when some level has it and it is young enough, else nothing |
| MetadataCaches.CacheManager.SaveFileMetadata | src/mirror_url/cache.py:397-431 | its two sections in a row: the saved record becomes the latest of its path, and at most the oldest path leaves the table |
| MetadataCaches.CacheManager.CleanupFileMetadata | src/mirror_url/cache.py:433-439 | its two sections in a row: the path is forgotten in both levels |
| MetadataCaches.CacheManager.CleanupStaleMetadata | src/mirror_url/cache.py:441-468 | exactly the stored unexpected paths are forgotten and counted |
| DirectorySelections.ResolveSelection | src/mirror_url/directory_selection.py:70-101 | the selected roots form an antichain by components, each match has exactly one selected ancestor-or-self, whose budget reaches it within the depth limit; and when selection fails |
| DirectorySelections.AncestorsAreAbove | src/mirror_url/directory_selection.py:95-100 | the enumeration of textual ancestors finds exactly the roots above a path by components |
| DirectorySelections.SplitJoin | src/mirror_url/directory_selection.py:95-100 | splitting undoes joining |
| DirectorySelections.JoinSplit | src/mirror_url/directory_selection.py:95-100 | joining undoes splitting |
| DomainHealth.TruncationShowsExactlyWhen | src/mirror_url/domain_health.py:135-162 | the truncated history answers as the full one at every time if and only if the newest incidents suffice for every recorded time |
| DomainHealth.TruncationIsInvisible | src/mirror_url/domain_health.py:135-162 | with sorted times the twenty newest incidents give the same answer as all of them, at every time |
| DomainHealth.ClockMustNotGoBack | src/mirror_url/domain_health.py:135-162 | a history for which they do not, when the clock went back |
| DomainHealth.ThrottlingOnlyEnds | src/mirror_url/domain_health.py:151-162 | without new incidents a domain never becomes throttled again |
| DomainHealth.ThrottledExactlyWhenFifthIsRecent | src/mirror_url/domain_health.py:151-162 | with sorted times a domain is throttled if and only if its fifth newest incident is at most fourteen days old |
| DomainHealth.DomainHealthTracker.RecordIncident | src/mirror_url/domain_health.py:135-149 | truncating after each incident keeps the newest of all ever recorded |
| DomainHealth.DomainHealthTracker.IsThrottled | src/mirror_url/domain_health.py:151-162 | answers as if no incident had been forgotten |

## Left out

- CapacityBudgets.CapacityBudget.Release: `retained` is assumed nonnegative, as its callers pass it; their code is not part of this model.
- DomainHealth.DomainHealthTracker.RecordIncident: assumes a clock that does not go back; `ClockMustNotGoBack` shows why.
- FilenameMaps.FilenameMap.Key: the destination is one value for a whole run of calls; what holds when somebody changes it between calls is not modelled, so the memo tables are only shown to repeat a filesystem that stays as it is.
- FilenameMaps.FilenameMap.ExistingNames: the same.
- MetadataCaches.CacheManager.GetFileMetadata: its contract is for calls that do not overlap; overlapping calls are the subject of `MetadataLevels`. Loading and saving the cache file are left out.
- MetadataCaches.CacheManager.SaveFileMetadata: the same.
- MetadataCaches.CacheManager.CleanupFileMetadata: the same.
- TransferProtocol.PublishedIsRemote: assumes that a validated answer's body carries the representation's bytes in order, which the program cannot check; the number of retries is not bounded in this machine (it is in `ChunkTransfer.DownloadRange`), and out-of-space errors are ordinary failures of a writer.
- RequestLoop.Connection.Request: waiting times, headers and metrics are left out, and `max_retries` is a natural number as the configuration demands.
- OwnedScratches.OwnedScratch.Recover: covers the workspaces; root markers and `cleanup_empty_state` are left out, as is the choice between directories for staging.
- UrlScope.RelativeUrlPath: `urlsplit` is an input; UTF-8 decoding with replacement is a parameter of which only "an ASCII byte stands for itself" is assumed.
- RangeChecks: `\d` is taken as the ASCII digits, and a Content-Length that is no number is a refused answer.
- Safety checks of lock files and registry files (owner, permissions, links), JSON spelling and fsync.
- mmap and seek/write are one indexed write; publishing by atomic replace is one step.
- `selected_directory_targets`: an input to directory selection; its name checks belong to path safety.
- Connection pools, their eviction and resizing; `submit_to_shared_pool`: bookkeeping without a further protocol.
- `ChunkCircuitBreaker` and `AsyncCircuitBreaker`: variants of the modelled breaker; the asynchronous retry loops repeat the modelled one.
- `RateLimiter.wait` of the base class, which sleeps inside its lock, and the statistics of all limiters.
- `LRUCache.shrink_to` and `clear`: they only drop oldest entries or all of them, which `MetadataLevels` allows at any time (`EvictLru`).
- Symlink tracking and path safety checks: they decide each path by itself from its own arguments; the protocols here take their outcome as given.
- The health server's request window, the download queue and the resizable semaphore: each is one counter or queue under one lock, and no modelled protocol reads them.
- Listing-size planning, concurrency tuning, HTML parsing, metrics and reporting: they choose parameters or describe results; the proofs hold for every such choice.
