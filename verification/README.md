# DBBat, modelled and proved in Dafny

DBBat is a database access proxy with a management API. This project models the parts of it
whose correctness is about whole runs, interleavings, loops over unbounded data or round
trips, and proves what they promise. `dafny verify dfyconfig.toml` checks everything.

| file | component |
|---|---|
| `DeviceAuth.dfy` | device authorization (RFC 8628) on the shared OAuth state table, one event per SQL statement |
| `OracleSalts.dfy` | lazy per-user Oracle salts: compare-and-set against API keys and the MongoDB verifier writer |
| `RateLimiter.dfy` | sliding-window rate limiter with its background sweep |
| `WindowPool.dfy` | the same limiter, one event per critical section: windows are fetched first and locked later |
| `WindowBound.dfy` | the exact condition for the limiter's bound with fetch and lock apart |
| `FailureTracker.dfy` | login failure tracker with backoff table and sweep |
| `GrantRequests.dfy` | grant requests, approval, scope by user group and database |
| `GrantRace.dfy` | the same requests when handlers overlap |
| `GrantScope.dfy` | the scope check and the approval transaction taken apart |
| `ViaChain.dfy` | SSH tunnel references between servers |
| `ViaRace.dfy` | the same references, one event per SQL statement |
| `Dump.dfy`, `BigEndian.dfy` | session dump writer, reader and anonymiser |
| `Pagination.dfy` | cursor pagination over captured query rows |
| `AuthCache.dfy` | authentication cache and API key verification |
| `Revocation.dfy` | registry that signals live sessions when a grant is revoked |
| `Pbkdf2.dfy` | the PBKDF2 chain of Oracle verifier 18453 |
| `Argon2Hash.dfy` | the printed and parsed Argon2id hash string |

Every component has the same shape. Functions on values say what one statement, call or sweep
does; classes carry the same operations in the source's imperative form and are proved to
compute those functions; lemmas then speak about every run of events. A SQL statement, a
transaction that holds its row lock, or a critical section of the cache or of the limiter, is one
atomic step. Clocks, random bytes and new uids are parameters of the steps: new uids are assumed
unused, and clocks never go back only where a lemma says `Clocked` or `PoolClocked`. SHA-256,
HMAC, Argon2id, base64 and JSON are function parameters; what is assumed of them is written in
`Valid`, `Compatible` or the lemma's own `requires`.

## Where the code does not do what its comments say

- A device key is "delivered at most once" (internal/store/device_auth.go:214-218). Two polls
  that overlap both deliver it: `OverlappingPollsBothDeliver`. `SecondPollDeliversIff` says exactly
  when a second poll delivers too, `AtMostOnceIff` exactly when a run delivers at most once, and
  `NoKeyAfterDelivery` is the promise that holds as it stands.
- The MongoDB verifier cannot be clobbered by the salt writer (internal/store/mongo_scram.go:83-85).
  It can: `VerifierCanBeLost`. `VerifierSurvivesIff` gives the exact condition.
- Upgrading a key is a no-op when the key has been revoked (internal/store/api_keys.go:262-264).
  The code does not look: `RevokedKeyIsUpgraded`. `UpgradeIsNoOpIff` says exactly when the upgrade
  changes nothing, `UpgradeWritesIff` the same for its write in any interleaving.
- The rate limiter admits at most limit + burst requests a minute. A sweep between the fetch of a
  window and its lock lets more through: `ForgottenAdmission`. `BoundHoldsIff` gives the exact
  condition for the bound, and `AgreementHoldsIff` the one for the limiter's map to stay true.
- The via chain never loops (internal/store/servers.go:185-187). Two overlapping updates can close
  a cycle: `CycleCanClose`. `StaysAcyclicIff` and `OverlappingUpdatesIff` give the exact condition.
- Duplicate requests are stopped before they are stored (internal/store/grant_requests.go:101-103).
  Overlapping handlers both store theirs: `DuplicatesCanBeFiled`, `NeverDuplicatesIff`.
- An approval that the current scope no longer allows is hard-blocked
  (internal/api/grant_requests.go:365-370). A change between check and transaction goes unnoticed:
  `ApprovedOutOfScope`. `AllBornInScopeIff` gives the exact condition, `ScopeStepIff` which events
  take a user out of scope, and `QuietApprovalIsInScope` what the check is worth without them.
- The hash prefix in the cache key "ensures cache invalidation when password changes"
  (internal/cache/auth.go:61-62). With the default parameters 30 of its 32 characters are the
  same for every hash: `StaleAnswer`, `KeyChangesIff`.
- `ReadPacket` "returns io.EOF after the EOF marker" (internal/dump/reader.go:83-84). It also does
  at a clean cut between frames and right after a frame head, so the anonymiser reports success on
  those truncations: `LostWithoutAnError`. `TruncationReadsPrefix` and `AnonymisedTruncation` are exact.

## Model

| member | source | states |
|---|---|---|
| DeviceAuth.Answered | internal/store/device_auth.go:178-184 | an answered request is never pending |
| DeviceAuth.InvAt | internal/store/device_auth.go:67-261 | in every interleaving: device codes are unique in the table, unanswered requests carry no answer, and what a call in flight has read is still true of its row or the row is resolved or gone |
| DeviceAuth.LeavesPendingOnce | internal/store/device_auth.go:191-212 | over a whole run each request leaves pending at most once |
| DeviceAuth.LoserLeavesNoTrace | internal/store/device_auth.go:191-209 | a responder is told it succeeded exactly when it won; a loser changes no row and is told that the request was already resolved |
| DeviceAuth.ResolvedIsFinal | internal/store/device_auth.go:191-212 | a resolved request never changes again, it can only disappear |
| DeviceAuth.GoneStaysGone | internal/store/device_auth.go:252-258 | a consumed or swept request never comes back |
| DeviceAuth.ResponderHasOrigin | internal/store/device_auth.go:169-184 | what a responder will write was fixed by its own SELECT of a pending request |
| DeviceAuth.ResolvedHasWinner | internal/store/device_auth.go:169-212 | a resolved row carries exactly the user, decision, key and prefix passed by one winning responder, and nothing of any other |
| DeviceAuth.PollHasOrigin | internal/store/device_auth.go:219-249 | a poll past its SELECT saw a resolved row, at an identifiable earlier moment |
| DeviceAuth.DeliveryHasDelete | internal/store/device_auth.go:252-260 | a delivered key was returned by a poll that ran its DELETE |
| DeviceAuth.DeliveredKeyIsTheWinners | internal/store/device_auth.go:169-261 | every poll that returns a key returns the one passed by the single winning approver |
| DeviceAuth.NoKeyAfterDelivery | internal/store/device_auth.go:214-261 | no poll started after a terminal poll has finished returns that request again |
| DeviceAuth.PollKeepsItsRow | internal/store/device_auth.go:219-261 | from its SELECT on, a poll's answer depends on the row it then saw and on nothing that happens later |
| DeviceAuth.DeniedDeliversNothing | internal/store/device_auth.go:178-184 | a poll of a denied request returns no key |
| DeviceAuth.PollDeliversIff | internal/store/device_auth.go:219-261 | a finished poll returns the key of a request if and only if its SELECT found that request live and approved |
| DeviceAuth.SecondPollDeliversIff | internal/store/device_auth.go:214-261 | of two polls, the first of which has delivered, the second delivers the same key if and only if its SELECT still found the live row |
| DeviceAuth.AtMostOnceIff | internal/store/device_auth.go:214-218 | over all polls of a run the key is delivered at most once if and only if no SELECT found the approved row after another had |
| DeviceAuth.OverlappingPollsBothDeliver | internal/store/device_auth.go:214-261 | a run in which two overlapping polls both receive the key |
| DeviceAuth.HandshakeCompletes | internal/store/device_auth.go:67-261 | a request filed, answered by its user code and polled by its device code, each before it expires, hands out exactly what the user decided and leaves the table as it was |
| DeviceAuth.AloneEnds | internal/store/device_auth.go:67-261 | any call left to itself comes to an answer |
| DeviceAuth.CreateFilesRequest | internal/store/device_auth.go:67-116 | a user code in use or a device code taken inserts nothing; else the row holds the given codes, client name and times, and no answer |
| DeviceAuth.RespondAnswersRequest | internal/store/device_auth.go:169-212 | an unknown or expired code is not found, a decided or meanwhile expired request is already resolved, else that row alone carries the answer |
| DeviceAuth.PollHandsOut | internal/store/device_auth.go:219-261 | an expired or foreign row is not found, a pending request stays, a decided one is handed out and removed |
| DeviceAuth.DeliveredWasLive | internal/store/device_auth.go:219-226 | a poll that delivers saw its request approved and not yet expired |
| DeviceAuth.UpdateWinsIff | internal/store/device_auth.go:191-204 | the UPDATE matches exactly a device request that is pending and not expired, and writes the answer alone |
| DeviceAuth.SelectsByCode | internal/store/device_auth.go:120-143 | finds a row exactly if a live device request holds the code, and then a newest one |
| DeviceAuth.SelectsByDeviceCode | internal/store/device_auth.go:219-231 | finds exactly the live device row with that code |
| DeviceAuth.SelectsByToken | internal/store/oauth_states.go:25-39 | finds exactly the live row with that state, of any provider |
| DeviceAuth.ConsumeRemovesOne | internal/store/oauth_states.go:25-49 | removes the live row with the token and only that, or reports that there is none |
| DeviceAuth.SweepRemovesExpired | internal/store/oauth_states.go:52-68 | a row survives exactly if it has not expired |
| DeviceAuth.ForeignIsStored | internal/store/oauth_states.go:11-22 | another provider's state is stored as given, unless the state is taken |
| DeviceAuth.Store.GetDeviceAuthStateByUserCode | internal/store/device_auth.go:120-143 | returns a newest live device row holding the user code, or none when there is none |
| DeviceAuth.Store.CreateDeviceAuthRequest | internal/store/device_auth.go:67-116 | run alone, is its two statements: a taken code or device code inserts nothing, else one pending row |
| DeviceAuth.Store.RespondToDeviceAuthByUserCode | internal/store/device_auth.go:169-212 | run alone, is its SELECT followed by its conditional UPDATE |
| DeviceAuth.Store.PollDeviceAuthToken | internal/store/device_auth.go:219-261 | run alone, is its SELECT followed by its DELETE |
| DeviceAuth.Store.ConsumeOAuthState | internal/store/oauth_states.go:25-49 | run alone, is its SELECT followed by its DELETE; device rows are not exempt |
| DeviceAuth.Store.CleanupExpiredOAuthStates | internal/store/oauth_states.go:52-68 | removes exactly the expired rows and counts them |
| OracleSalts.InvAt | internal/store/users.go:181-243 | in every interleaving a finished salt call returned what the user row holds, and every key flagged UserSalt holds its owner's salts |
| OracleSalts.ApplyKeepsSalts | internal/store/users.go:217-223 | no statement changes the salts of a user row that has some |
| OracleSalts.SaltsNeverChange | internal/store/users.go:178-180 | once a user row holds salts it holds them for ever |
| OracleSalts.AllCallersConverge | internal/store/users.go:172-243 | all successful calls for one user return the same salts, whenever they return |
| OracleSalts.FlaggedKeysShareOwnerSalts | internal/store/api_keys.go:120-130 | all flagged keys of an owner, at any two moments, hold the same salts, the owner's |
| OracleSalts.LoserAdoptsWinner | internal/store/users.go:228-240 | after a lost race the re-read returns the winner's salts unless the user has been deleted |
| OracleSalts.VerifierSurvivesIff | internal/store/users.go:202-223 | a successful compare-and-set restores the MongoDB verifier read at the start of the call, so it keeps the current one if and only if that is still the same |
| OracleSalts.VerifierWriterMerges | internal/store/mongo_scram.go:86-124 | the locked verifier writer keeps the salts |
| OracleSalts.VerifierCanBeLost | internal/store/users.go:202-223 | a run in which a committed verifier is lost |
| OracleSalts.UpgradeIsNoOpIff | internal/store/api_keys.go:254-306 | an upgrade leaves every key alone if and only if there is no encryption key, the key is unknown, without Oracle material or on its owner's salts, or the owner is gone; revocation plays no part |
| OracleSalts.UpgradeWritesIff | internal/store/api_keys.go:279-304 | in any interleaving the write gives the key its owner's salts, keeps the revocation, and changes the table if and only if the key still had salts of its own |
| OracleSalts.RevokedKeyIsUpgraded | internal/store/api_keys.go:254-306 | a run in which a revoked key is upgraded |
| OracleSalts.Settle | internal/store/users.go:217-243 | a salt call that runs on alone always comes to an answer and touches no key |
| OracleSalts.EnsureAloneMeans | internal/store/users.go:181-243 | a missing or deleted user is an error, salts that are there are returned, a user without any gets those just generated and keeps the verifier |
| OracleSalts.CreatedKeyMeans | internal/store/api_keys.go:75-130 | a key for a live user is flagged and holds the salts in the user row; for any other user it holds its own; without an encryption key none |
| OracleSalts.InsertedKeyMeans | internal/store/api_keys.go:94-130 | the same in any interleaving, by whether the salt call succeeded |
| OracleSalts.WritersMean | internal/store/users.go:142-169 | adding and removing users, setting the verifier and revoking a key each change one row and in it one thing |
| OracleSalts.Store.EnsureUserOracleSalts | internal/store/users.go:181-243 | run alone, is its read, compare-and-set and re-read |
| OracleSalts.Store.PersistUserMongoVerifier | internal/store/mongo_scram.go:86-124 | merges the verifier into the locked row of a live user, and only that |
| OracleSalts.Store.CreateAPIKey | internal/store/api_keys.go:75-130 | run alone, is the salt call followed by the insert: user salts when they can be had, else the key's own; without an encryption key, no Oracle material |
| OracleSalts.Store.UpgradeAPIKeyO5LogonVerifiers | internal/store/api_keys.go:265-306 | run alone, is the key read, the salt call and the key write; it fails exactly when the key is unknown or the salts cannot be had |
| OracleSalts.Store.RevokeAPIKey | internal/store/api_keys.go:461-484 | revokes a key once |
| RateLimiter.Limiter.Check | internal/api/ratelimit.go:100-145 | trims the list in place, answers and records as the step function does |
| RateLimiter.Limiter.Sweep | internal/api/ratelimit.go:56-70 | drops exactly the idle keys |
| RateLimiter.Limiter.GetStats | internal/api/ratelimit.go:296-337 | reports the number of kept times in the last minute and when the first of them expires |
| RateLimiter.RunRefines | internal/api/ratelimit.go:52-145 | every run of checks, statistics and sweeps answers as a limiter that keeps every admission and counts the last minute |
| RateLimiter.SweepsAreInvisible | internal/api/ratelimit.go:52-71 | a run gives the same answers with its sweeps removed |
| RateLimiter.HistoryIsAdmitted | internal/api/ratelimit.go:137-144 | the remembered history of a key is exactly the sequence of its admitted requests |
| RateLimiter.AnswersMean | internal/api/ratelimit.go:100-145 | after any run a check is allowed exactly if fewer than limit+burst requests were admitted in the last 60 seconds, `remaining` is what is left, statistics report that number, and the reset time is 60 seconds after the first of them |
| RateLimiter.SweepKeepsRecent | internal/api/ratelimit.go:56-70 | a key survives the sweep exactly if its last admission is at most 60 seconds old |
| RateLimiter.AnyWindowIsBounded | internal/api/ratelimit.go:121-144 | any window (t-60s, t] of any run holds at most limit+burst admitted requests of a key with a fixed limit |
| RateLimiter.AdmittedAfterReset | internal/api/ratelimit.go:131-139 | a request at or after the reset time of a refusal, with no admission on the key in between, is admitted |
| RateLimiter.RemainingIsExact | internal/api/ratelimit.go:124-144 | of the requests that follow at the same instant, exactly as many pass as `remaining` says, and then none |
| WindowPool.FetchIsInvisible | internal/api/ratelimit.go:74-96 | fetching a window, new or not, changes no count |
| WindowPool.CleanAgrees | internal/api/ratelimit.go:56-70 | the sweep, coming to one key after the other while windows are being locked, drops nothing of the last minute |
| WindowPool.CheckInPlaceIsOneStep | internal/api/ratelimit.go:100-145 | fetching and then locking is one step if the window is still in the map when it is locked |
| WindowPool.NothingLeft | internal/api/ratelimit.go:100-120 | a window that a sweep has dropped holds nothing of the last minute when a late call locks it |
| WindowPool.AgreementHoldsIff | internal/api/ratelimit.go:100-145 | throughout a run the map agrees with what has been admitted if and only if every check either finds its window still in the map or finds it full |
| WindowPool.SerialCheckIsOneStep | internal/api/ratelimit.go:100-145 | a check whose lock follows its fetch at once is the check in one step |
| WindowPool.SerialStatsIsOneStep | internal/api/ratelimit.go:296-337 | statistics change nothing and report the last minute |
| WindowPool.PoolRunRefines | internal/api/ratelimit.go:52-145 | a run in which every call finds its window in the map answers as a limiter that keeps every admission |
| WindowPool.PoolRunDecides | internal/api/ratelimit.go:100-145 | if only every admitting check does, the checks are decided as by that limiter and the same requests are admitted |
| WindowPool.PoolRunIsOneStepRun | internal/api/ratelimit.go:52-145 | such a run from an empty limiter answers as the run of one-step calls, so what holds of those holds of it |
| WindowPool.PoolWindowIsBounded | internal/api/ratelimit.go:100-144 | with fetch and lock apart, any window (t-60s, t] holds at most limit+burst admitted requests, if every admitting check finds its window; WindowBound.BoundHoldsIff has the other half |
| WindowBound.LateAdmissionBreaksBound | internal/api/ratelimit.go:100-144 | after one admission on a dropped window, calls that all find their windows get limit+burst+1 requests into one minute |
| WindowBound.BoundHoldsIff | internal/api/ratelimit.go:52-144 | at every point of a run, however calls in place go on from there, any minute holds at most limit+burst admitted requests of any key, if and only if every admitting check of the run finds its window |
| WindowPool.PoolAdmittedAfterReset | internal/api/ratelimit.go:131-144 | with fetch and lock apart, after any run in which admitting checks find their windows, a check at or after the reset time of a refusal, with no admission on the key in between, is admitted, wherever its window is by then |
| WindowPool.OverlappingCallsAreFine | internal/api/ratelimit.go:52-102 | calls that overlap find their windows; only a sweep that comes to a held window can take it away |
| WindowPool.ForgottenAdmission | internal/api/ratelimit.go:100-102 | with limit 1, a sweep between fetch and lock lets two requests through at once |
| FailureTracker.Tracker.CheckRateLimit | internal/api/middleware.go:270-303 | refuses exactly while the documented delay of a record no older than fifteen minutes runs, and the hint is the whole seconds left, at least one |
| FailureTracker.Tracker.RecordFailure | internal/api/middleware.go:306-326 | counts on within fifteen minutes, starts again at one after that |
| FailureTracker.Tracker.ResetFailures | internal/api/middleware.go:329-333 | forgets the name and no other |
| FailureTracker.Tracker.Sweep | internal/api/middleware.go:257-264 | drops exactly the stale records |
| FailureTracker.StreakIsMaximalTail | internal/api/middleware.go:319-325 | the effective count is the length of the one longest tail of failures with gaps of at most fifteen minutes and no successful login |
| FailureTracker.TableGivesLargest | internal/api/middleware.go:232-240 | the first row of the table that applies carries the largest applicable delay, never above five minutes |
| FailureTracker.DelaysAreDocumented | internal/api/middleware.go:232-240 | 3 failures cost 5 seconds, 5 cost 30, 7 cost 2 minutes, 10 cost 5 minutes |
| FailureTracker.SweepKeepsRecent | internal/api/middleware.go:257-264 | a record survives the sweep exactly if its last failure is at most fifteen minutes old |
| FailureTracker.BlockedIsRefused | internal/api/middleware.go:279-302 | the code refuses exactly while inside the largest delay that the current streak has earned |
| FailureTracker.RunRefines | internal/api/middleware.go:252-333 | every run answers by that rule over the whole history of failures and logins |
| FailureTracker.SweepsAreInvisible | internal/api/middleware.go:252-266 | a run gives the same answers with its sweeps removed |
| GrantRequests.SearchGroups | internal/store/models.go:469-483 | true exactly when the scope is empty or shares a group with the user |
| GrantRequests.SearchDatabases | internal/store/models.go:487-499 | true exactly when the scope is empty or lists the database |
| GrantRequests.RejectionChangesNothing | internal/store/grant_requests.go:150-213 | a rejected call changes nothing |
| GrantRequests.InvAt | internal/store/grant_requests.go:119-213 | in every reachable state a request is approved exactly when it has a grant, that grant is for its user and database, distinct requests have distinct grants, and no two pending requests are alike |
| GrantRequests.DecidedIsFinal | internal/store/grant_requests.go:250-298 | a decided request never changes again |
| GrantRequests.GrantIsFinal | internal/store/grants.go:191-214 | a grant never changes except to be revoked |
| GrantRequests.RevokeMeans | internal/store/grants.go:191-214 | revoking succeeds exactly for a grant not revoked yet, records when and by whom, and changes no other grant |
| GrantRequests.RevocationIsFinal | internal/store/grants.go:191-214 | a revoked grant keeps its first revocation for ever and a second one is rejected |
| GrantRequests.CreateMeans | internal/api/grant_requests.go:151-273 | a create is accepted exactly on the handler's conditions, a rejection gives a true reason, and the request is stored as asked for, waiting or approved at once on the definition's terms |
| GrantRequests.ApproveMeans | internal/api/grant_requests.go:375-410 | an approval succeeds exactly for a pending request in the scope of its active definition, a rejection gives a true reason, and decider, time and grant are recorded |
| GrantRequests.DecisionMeans | internal/store/grant_requests.go:250-298 | deny and cancel succeed exactly on pending requests and record status, decider, time and reason, and no grant |
| GrantRequests.ScopeMeans | internal/store/models.go:469-507 | in scope means a group of the definition that the user is a member of, or none asked for, and likewise the database |
| GrantRequests.MembershipMeans | internal/store/user_groups.go:92-279 | which memberships there are after each group operation |
| GrantRequests.GroupsMean | internal/store/user_groups.go:21-106 | which groups there are after each operation |
| GrantRequests.DefinitionsMean | internal/store/grant_definitions.go:24-170 | definitions are stored as given; editing does not reactivate and deactivating changes nothing else |
| GrantRequests.OthersFailIff | internal/store/user_groups.go:88-279 | the other operations fail exactly on a missing group, definition or grant |
| GrantRequests.ApprovedWasInScope | internal/api/grant_requests.go:116-148 | every approved request, automatic or manual, was approved by an event at which its user and database were in the scope of its active definition, on that definition's controls, quotas and duration as of that event |
| GrantRequests.ApprovedOnce | internal/store/grant_requests.go:171-201 | no request is approved twice |
| GrantRequests.DeadIsOutOfScope | internal/store/models.go:450-458 | nobody is in the scope of a definition restricted to deleted groups |
| GrantRequests.DeadDefinitionYieldsNothing | internal/store/user_groups.go:88-106 | until it is edited, a definition scoped only to deleted groups yields no further grant |
| GrantRace.OverlapKeepsCore | internal/store/grant_requests.go:150-213 | with checks, inserts and approval transactions of any handlers interleaved, a request is approved exactly when it has a grant of its own for its user and database |
| GrantRace.OverlapKeepsDecided | internal/store/grant_requests.go:171-176 | in any such interleaving a decided request never changes |
| GrantRace.SerialCreateIsOneStep | internal/api/grant_requests.go:151-273 | without interruption the create handler's statements are the handler in one step |
| GrantRace.SerialApproveIsOneStep | internal/api/grant_requests.go:375-410 | and so are the approve handler's |
| GrantRace.FilingKeepsNoDuplicatesIff | internal/store/grant_requests.go:26-46 | an insert makes a duplicate exactly when a pending request like it is there at that moment |
| GrantRace.NeverDuplicatesIff | internal/api/grant_requests.go:206-224 | a run of overlapping handlers never has two pending requests alike if and only if every insert still finds none |
| GrantRace.DuplicatesCanBeFiled | internal/api/grant_requests.go:206-224 | a run in which two overlapping handlers file the same request |
| GrantScope.AllBornInScopeIff | internal/api/grant_requests.go:375-410 | with scope checks and approval transactions of any handlers interleaved, every grant is in its definition's scope when created if and only if every request is in scope when its transaction runs |
| GrantScope.ScopeStepIff | internal/store/user_groups.go:88-279 | exactly which edits, deletions and membership changes take a user who is in scope out of it |
| GrantScope.QuietApprovalIsInScope | internal/api/grant_requests.go:375-410 | an approval whose check passed, with no such change before its transaction, is in scope |
| GrantScope.QuietFilingIsInScope | internal/api/grant_requests.go:194-242 | the same for an automatic approval, from the create handler's checks on |
| GrantScope.ApprovedOutOfScope | internal/api/grant_requests.go:375-410 | a run in which the user leaves the group between check and transaction and gets the grant |
| GrantRequests.Store.ListUserGroupUIDs | internal/store/user_groups.go:175-192 | the groups the user belongs to |
| GrantRequests.Store.HandleCreateGrantRequest | internal/api/grant_requests.go:151-273 | the create handler's checks in order, the insert, and the automatic approval |
| GrantRequests.Store.ApproveGrantRequest | internal/api/grant_requests.go:375-410 | re-checks the scope, then runs the approval transaction |
| GrantRequests.Store.ApproveGrantRequestTx | internal/store/grant_requests.go:150-213 | a pending request of an active definition becomes approved together with its grant, anything else is an error and no change |
| GrantRequests.Store.Transition | internal/store/grant_requests.go:250-298 | a pending request becomes denied or cancelled, anything else is an error and no change |
| GrantRequests.Store.DeleteUserGroup | internal/store/user_groups.go:92-106 | removes the group and its memberships, and leaves definition scopes alone |
| GrantRequests.Store.SetGroupMembers | internal/store/user_groups.go:219-247 | the group's members become exactly the given users, or nothing changes |
| GrantRequests.Store.SetUserGroups | internal/store/user_groups.go:251-279 | the user's groups become exactly the given ones, or nothing changes |
| GrantRequests.Store.RevokeGrant | internal/store/grants.go:191-214 | revokes a grant once |
| ViaChain.Store.ValidateViaUID | internal/store/servers.go:188-212 | terminates on every table and returns the verdict of the walk |
| ViaChain.VerdictIsUnique | internal/store/servers.go:188-212 | the walk has exactly one verdict |
| ViaChain.AcceptsExactlyGoodChains | internal/store/servers.go:185-187 | accepted exactly when there is a finite chain of live SSH servers that ends in a direct dial and avoids self |
| ViaChain.VerdictMeans | internal/store/servers.go:188-212 | every verdict is true of the walk: live SSH servers to a direct dial, a server missing or deleted, a live one of another protocol, or back to self or to one already passed |
| ViaChain.WritesMean | internal/store/servers.go:448-493 | a create stores what it was given, an update changes what it names, a delete only marks the row |
| ViaChain.AcceptedIff | internal/store/servers.go:389-401 | a call takes effect exactly if its row is there and its reference has a good chain |
| ViaChain.ApplyKeepsAcyclic | internal/store/servers.go:396-401 | a create, update or delete keeps the via graph acyclic, across protocol changes and deletes |
| ViaChain.RunKeepsAcyclic | internal/store/servers.go:388-493 | the via graph is acyclic in every reachable table |
| ViaChain.NeverSeenTwice | internal/store/servers.go:195-198 | in an acyclic table the walk meets no server twice |
| ViaChain.SeenTwiceIsDead | internal/store/servers.go:195-197 | in every reachable table the seen-twice branch does not fire |
| ViaRace.EdgeKeepsAcyclicIff | internal/store/servers.go:487-491 | setting one reference keeps the graph acyclic if and only if the new walk does not lead back |
| ViaRace.WriteKeepsAcyclicIff | internal/store/servers.go:403-444 | the same for the INSERT or UPDATE of any call, whatever its validation saw |
| ViaRace.StaysAcyclicIff | internal/store/servers.go:188-444 | in any interleaving of the walks' SELECTs and the writes, the graph is acyclic throughout if and only if no write, when it runs, refers to a server that leads back to its own row |
| ViaRace.CreateIsSafe | internal/store/servers.go:19-57 | an insert into a table with its foreign keys in order closes no cycle, however late its validation was |
| ViaRace.CreatesAreSafe | internal/store/servers.go:19-57 | so in any interleaving no insert ever closes a cycle |
| ViaRace.OverlappingUpdatesIff | internal/store/servers.go:396-401 | two updates accepted on the same table and then both written leave the graph acyclic if and only if their references do not lead to each other's rows |
| ViaRace.CycleCanClose | internal/store/servers.go:396-401 | a run of two overlapping updates that closes a cycle |
| ViaRace.HopRejectsWith | internal/store/servers.go:188-212 | a walk that nothing interferes with is rejected with the verdict on the table |
| ViaRace.WriteAnswers | internal/store/servers.go:428-443 | a write is answered as saved exactly if it was an insert or found its row |
| ViaRace.SerialRunIsOneStep | internal/store/servers.go:188-444 | if each write runs while no other call is in flight, the run is one of whole calls and keeps the graph acyclic |
| ViaChain.Store.CreateServer | internal/store/servers.go:19-57 | inserts the row exactly when its tunnel reference is accepted |
| ViaChain.Store.UpdateServer | internal/store/servers.go:389-444 | applies the update exactly when a new tunnel reference is accepted and the row is live |
| ViaChain.Store.DeleteServer | internal/store/servers.go:530-549 | soft-deletes a live row |
| BigEndian.GetOfPut | internal/dump/writer.go:107-109 | a number that fits is read back |
| BigEndian.PutOfGet | internal/dump/reader.go:91-96 | bytes read as a number are written back |
| BigEndian.FirstByteIsHighest | internal/dump/writer.go:107-109 | the most significant byte comes first |
| BigEndian.WordBytes | internal/dump/writer.go:58-66 | a 32-bit number byte by byte |
| BigEndian.SignedRoundTrip | internal/dump/reader.go:92-92 | a signed 64-bit time survives the unsigned encoding |
| Dump.Writer.constructor | internal/dump/writer.go:45-83 | writes magic, version, header length and header, and counts them |
| Dump.Writer.WritePacket | internal/dump/writer.go:87-119 | appends the packet's frame unless the cap would be exceeded, so that after any sequence of packets the kept ones are those the cap lets through |
| Dump.Writer.WritePacketRaw | internal/dump/writer.go:140-162 | appends the frame with the given time bytes |
| Dump.Writer.Close | internal/dump/writer.go:122-137 | the closed file is the preamble, the kept frames and the end marker |
| Dump.Reader.ReadHeader | internal/dump/reader.go:35-76 | opens the file or gives the first error in reading order |
| Dump.Reader.ReadPacket | internal/dump/reader.go:85-108 | the next packet, the end, or a broken file |
| Dump.NextPacket | internal/dump/reader.go:85-108 | reading goes forward and only yields packets that can be written again |
| Dump.PreambleMeans | internal/dump/writer.go:45-83 | DBBAT_DUMP, six zero bytes, version 2 in two bytes, the header's length in four, high byte first, and the header |
| Dump.FrameMeans | internal/dump/writer.go:104-116 | the time in eight bytes, the direction, the length in four, the data |
| Dump.TrailerMeans | internal/dump/writer.go:122-137 | the file ends in a frame of direction 0xFF and length 0 |
| Dump.OpenMeans | internal/dump/reader.go:35-76 | a file opens exactly with that name, that version and a whole header that parses, and each error is given exactly when it applies |
| Dump.KeptMeans | internal/dump/writer.go:87-99 | a packet is dropped exactly if it would take the file over a positive cap; later ones may still fit |
| Dump.AllAreKept | internal/dump/writer.go:91-94 | without a cap, or below it, every packet is kept |
| Dump.FileSizeIsCapped | internal/dump/writer.go:91-94 | with a positive cap the closed file is at most max(preamble, cap) + 13 bytes |
| Dump.RoundTrip | internal/dump/writer.go:45-137 | written, closed and read: the same header and exactly the packets the cap kept, in order |
| Dump.TruncationReadsPrefix | internal/dump/reader.go:85-108 | any truncation that keeps the preamble reads to the whole packets it holds, and ends without an error exactly on a frame boundary or just after a frame head |
| Dump.CompleteHoldsAll | internal/dump/writer.go:122-137 | an untruncated file holds every packet |
| Dump.Anonymise | internal/dump/anonymise.go:13-54 | the copy loop writes exactly what the reader yields, and succeeds exactly when the reading ended without an error |
| Dump.AnonymisedReadsTheSame | internal/dump/anonymise.go:10-26 | for every input: the copy opens to the same session and protocol with no connection data and reads to the same packets |
| Dump.AnonymisedIsStripped | internal/dump/anonymise.go:20-26 | the copy opens with the input's session and protocol, zero start time and no connection data |
| Dump.NoCopyIff | internal/dump/anonymise.go:13-31 | there is no copy exactly if the input does not open or the new header cannot be encoded |
| Dump.AnonymisedTruncation | internal/dump/anonymise.go:31-53 | on a truncated dump the copy holds the whole packets before the cut |
| Dump.LostWithoutAnError | internal/dump/anonymise.go:31-53 | any dump cut after some of its frames is copied without the rest, and success is reported |
| Dump.AnonymisedComplete | internal/dump/anonymise.go:31-53 | on a complete dump the copy holds all packets and success is reported |
| Pagination.GetQueryRows | internal/store/queries.go:219-318 | a bad cursor and an unknown query are errors, and a negative offset is refused or ignored as the database layer has it; else the longest page both limits allow, and a cursor exactly when rows remain |
| Pagination.Collect | internal/store/queries.go:282-304 | the loop stops at the row limit or before the byte limit, after at least one row |
| Pagination.PageFromFetched | internal/store/queries.go:263-271 | fetching one row more than the limit is enough to know the page and whether rows remain |
| Pagination.PageIsBounded | internal/store/queries.go:282-304 | at most min(limit, 1000) rows, 100 by default, and at most 1 MB of data unless it is a single row; and where rows remain one more would break a limit |
| Pagination.BytesIsData | internal/store/queries.go:290-303 | the size that is limited is the length of the rows' data laid end to end |
| Pagination.BeyondTheEnd | internal/store/queries.go:262-271 | a page beyond the end is empty and the last |
| Pagination.PagesAreAPrefix | internal/store/queries.go:306-315 | the pages followed so far are the rows so far, in order, and the cursor points after them |
| Pagination.FollowingIsLossless | internal/store/queries.go:306-315 | when the cursors end, the pages are all rows, in order |
| Pagination.FollowingEnds | internal/store/queries.go:290-296 | with any limits the cursors end after at most as many pages as there are rows |
| Pagination.EveryRowOnce | internal/store/queries.go:219-318 | following cursors over a table with distinct row numbers returns every row exactly once, ascending |
| Pagination.OrderedIsTheTable | internal/store/queries.go:265-268 | the ordered rows are the table, ascending |
| AuthCache.AuthCache.VerifyPassword | internal/cache/auth.go:79-117 | run alone, is its look-up, its count, the verification and the insertion |
| AuthCache.AuthCache.VerifyKey | internal/cache/auth.go:208-245 | run alone, is its look-up, its count, the verification and the insertion |
| AuthCache.AuthCache.EvictOldest | internal/cache/auth.go:137-151 | whatever the iteration order, removes an entry with the least timestamp |
| AuthCache.AuthCache.Cleanup | internal/cache/auth.go:164-174 | removes exactly the expired entries |
| AuthCache.AuthCache.Clear | internal/cache/auth.go:185-190 | removes every entry and keeps the counters |
| AuthCache.LookUpMeans | internal/cache/auth.go:79-98 | a look-up hits exactly on an entry younger than the time to live; a disabled cache verifies directly |
| AuthCache.InsertMeans | internal/cache/auth.go:120-151 | a result is stored under its key, and an entry goes, an oldest one, only if the cache was full |
| AuthCache.SweepAndClearMean | internal/cache/auth.go:164-190 | the sweep keeps exactly the entries younger than the time to live, clearing keeps none, and neither counts |
| AuthCache.CountersMean | internal/cache/auth.go:90-104 | hits and misses count the hits and the misses |
| AuthCache.PrefixMeans | internal/cache/auth.go:64-68 | two hashes share their prefix exactly if they agree on the first 32 characters |
| AuthCache.InvAt | internal/cache/auth.go:79-133 | in every interleaving each entry, and each call in flight or answered, carries a result that some query with the same cache key deserves |
| AuthCache.EntryHasOrigin | internal/cache/auth.go:120-133 | every entry was stored by an earlier call that had verified, with no clear since |
| AuthCache.Transparent | internal/cache/auth.go:79-117 | in any interleaving with evictions, sweeps and clears every call answers as direct verification, if queries with the same cache key deserve the same answer |
| AuthCache.AloneIsTransparent | internal/cache/auth.go:208-245 | a call that runs alone, on a cache left by consistent queries, answers as direct verification and leaves such a cache |
| AuthCache.TextIsInjective | internal/cache/auth.go:63-75 | for colon-free ids and prefixes the key text determines user, password and prefix, and the two namespaces are disjoint |
| AuthCache.SoundRunIsTransparent | internal/cache/auth.go:61-117 | with collision-free digests, one hash per API key and identifying prefixes, every call answers as direct verification |
| AuthCache.HitIsRecent | internal/cache/auth.go:86-98 | a hit repeats an insertion younger than the time to live and not cleared since |
| AuthCache.OutlivesClearIff | internal/cache/auth.go:106-133 | a result stored after a clear was verified before it if and only if its call was waiting to store it at the clear |
| AuthCache.KeyChangesIff | internal/cache/auth.go:61-75 | the cache key changes with the stored hash if and only if its first 32 characters do |
| AuthCache.StaleAnswer | internal/cache/auth.go:61-75 | two calls in a row, the second accepting the old password after a change to a hash with the same prefix |
| AuthCache.EveryCallIsCounted | internal/cache/auth.go:86-104 | hits, misses and calls about to be counted add up to the calls made |
| AuthCache.SizeIsBounded | internal/cache/auth.go:120-133 | never more than max(maxSize, 1) entries |
| AuthCache.VerdictMeans | internal/store/api_keys.go:381-418 | accepted exactly if at least eight characters long, on record, verified, not revoked and not past its expiry; else the first thing that is wrong |
| AuthCache.KeyStore.VerifyAPIKey | internal/store/api_keys.go:381-418 | too short or unknown keys are not found; else the verdict of direct verification and the row, if queries with the same cache key deserve the same answer; a revoked or expired key is refused on this very call whatever the cache holds |
| AuthCache.KeyStore.RevokeAPIKey | internal/store/api_keys.go:461-484 | from the next call on, no key with this prefix is accepted whatever the cache holds |
| Revocation.RevocationRegistry.Register | internal/cache/revocation.go:66-85 | a fresh, unflagged handle, bound to the grant unless it is nil |
| Revocation.RevocationRegistry.Deregister | internal/cache/revocation.go:89-107 | unbinds the handle and drops the grant when nothing is left |
| Revocation.RevocationRegistry.Revoke | internal/cache/revocation.go:113-130 | flips exactly the bound handles and returns their number |
| Revocation.RegisterOn | internal/cache/revocation.go:62-71 | on a nil registry, a usable handle that is never revoked |
| Revocation.DeregisterOn | internal/cache/revocation.go:87-92 | on a nil registry or with a nil handle, nothing |
| Revocation.RevokeOn | internal/cache/revocation.go:113-116 | on a nil registry nothing is signalled and the count is 0 |
| Revocation.MapHoldsTheLive | internal/cache/revocation.go:66-107 | after any run the map holds exactly the handles registered and not deregistered since, and no empty set |
| Revocation.FlagUpIff | internal/cache/revocation.go:109-130 | a flag is up exactly when some revocation reached the handle while it was live under that grant |
| Revocation.FlagsOnlyRise | internal/cache/revocation.go:113-130 | flags never go back |
| Pbkdf2.XorInto | internal/crypto/o5logon.go:47-49 | exclusive or, byte by byte, in place |
| Pbkdf2.SpeedyKey | internal/crypto/o5logon.go:34-53 | for every turn count the accumulator is the first block F (P, S, c, 1) of section 5.2 of RFC 8018 |
| Pbkdf2.DeriveVerifier18453 | internal/crypto/o5logon.go:73-83 | the first 32 bytes of SHA-512 over that block, for salt and label and 4096 turns, and the salt |
| Pbkdf2.BlockIsUnique | internal/crypto/o5logon.go:30-53 | the block is determined by password, salt and count |
| Argon2Hash.SplitOfJoin | internal/crypto/hash.go:91-96 | splitting undoes joining when no part holds the separator |
| Argon2Hash.ScanOfDecimal | internal/crypto/hash.go:114-114 | a printed number scans back to itself if it fits, and not at all if it does not |
| Argon2Hash.ParamsRoundTrip | internal/crypto/hash.go:109-117 | memory, time and threads are parsed back from what was printed exactly if they fit in 32, 32 and 8 bits |
| Argon2Hash.PrintedSplits | internal/crypto/hash.go:73-96 | hashing panics exactly on zero time or threads; else the printed string splits into its six parts, spelled out |
| Argon2Hash.SignedVersionParsesIff | internal/crypto/hash.go:109-112 | a signed version parses exactly if it fits in 64 bits; its value is not looked at |
| Argon2Hash.PlainVersionParsesIff | internal/crypto/hash.go:109-112 | and so does one without a sign |
| Argon2Hash.VerifyMeans | internal/crypto/hash.go:89-146 | on any string: an error exactly if a part cannot be read, and a true one; else whether Argon2id with what was read gives the stored hash |
| Argon2Hash.RoundTrip | internal/crypto/hash.go:56-146 | a printed hash verifies exactly the passwords that Argon2id maps to the same key, the original among them |

## Left out

- RateLimiter.RunRefines: check is one step with respect to the sweep; WindowPool.PoolRunRefines takes the two apart.
- RateLimiter.SweepsAreInvisible: one step likewise; WindowPool.AgreementHoldsIff says when a sweep in between shows.
- RateLimiter.AnyWindowIsBounded: one step likewise; WindowBound.BoundHoldsIff takes the two apart.
- RateLimiter.AdmittedAfterReset: one step likewise; WindowPool.PoolAdmittedAfterReset takes the two apart.
- RateLimiter.Limiter.Check: fetching and locking are one step in the method.
- GrantRequests.Store.HandleCreateGrantRequest: the handler is one step; GrantRace takes its checks, its insert and the approval apart, but not the checks' own SELECTs.
- GrantRequests.Store.ApproveGrantRequest: the scope check and the transaction are one step, apart in GrantScope; look-ups fail only for missing rows.
- ViaChain.Store.CreateServer: validation and insert are one step, apart in ViaRace; names, passwords, SSH secrets and the check against the storage DSN are not modelled.
- ViaChain.Store.UpdateServer: validation and update are one step, apart in ViaRace; the other columns are not modelled.
- Argon2Hash.ScanOfDecimal: scanning skips spaces only; Sscanf's treatment of other white space is not modelled.
- OracleSalts.Store.CreateAPIKey: verifiers are represented by the salts they are derived from; failures to encrypt are not modelled.
- The `expired` request status: no code sets it.
- Database errors other than missing rows and violated constraints: every call would return them unchanged.
- The proxies' wire protocols, HTTP routing, JSON binding, audit log, Slack and the front end: plumbing around the modelled decisions.
- User code formatting, the last-admin guard and username handling: easy next to the rest.
- AES-GCM, Argon2id, SHA, HMAC, base64 and JSON: abstract functions.
