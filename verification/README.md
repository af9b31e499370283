# isolatedenv: verified model

A Dafny model of the parts of isolatedenv whose correctness is not visible from reading one
function: cursor pagination over a changing table, the stampede-protected cache and the item
service on top of it, the two-store role and identity protocol, the search escaping and the metric
labels, the single-flight refreshes of the web server, the optimistic admin page, the audit trail
and the seed script. `dafny verify dfyconfig.toml` checks all of it.

## How the system is modelled

- **Pagination** (`Keyset`, `Traversal`, `Listings`, `Cursor`, `TokenClient`, `Digits`, `Base64`,
  `UserQueries`). A table is a set of rows with unique ids. A query is `Select`: the newest rows first, at
  most LIMIT of them. The client follows `next_cursor` from page to page; every page reads its own
  snapshot of the table. Timestamps are numbers that order like the UTC fields they stand for. The token
  is base64 over the JSON object.
  `AuditLogRepository.list_entries_cursor` is the same query over another row type.
- **Ties.** `ORDER BY created_at DESC` alone does not decide the order of rows with equal
  `created_at`. Offset listings are therefore relations (`IsListing`): any order that SQL allows.
- **Cache** (`LeaseCache`, `LeaseFreshness`, `LeaseTiming`, `CachedRun`, `CacheKeys`, `RedisCache`,
  `ItemService`, `ItemOverlap`). `LeaseCache` is a state machine over any number of concurrent calls of
  `cached`; each Redis command, fetch, clock tick, eviction and invalidation is one event, and Redis may
  fail any command with or without carrying it out. `RedisCache` and `ItemService` are the imperative code
  as one atomic request runs it, `CachedRun` shows its call of `cached` to be a run of that machine, and
  `ItemOverlap` lets writes and lists interleave.
- **Users** (`Users`, `UserRepository`, `Login`, `AdminRouter`, `RoleProtocol`, `Blocking`, `AuditFold`). The
  repository and the endpoints are classes over the users table, the Authentik groups and the audit log.
  What an endpoint does, in success and in every failure, is one predicate (`LoginEffect`,
  `ChangeRoleEffect`, …) that the method is proved to meet and that the lemmas reason from.
- **Web server and admin page** (`SingleFlight`, `AuthServer`, `SessionRefresh`, `OptimisticCache`). Code
  between two awaits is one step of the event loop.
- **Strings** (`Like`, `PathLabels`, `PathShapes`) and the **seed script** (`Seed`).

Parameters of the model: the clock, new ids, the replies of Redis and Authentik, whether an insert or
a commit succeeds, what the database answers where SQL leaves a choice, the case folding of ILIKE,
`str.lower`, the class `\d`, and the readers `json.loads`, `datetime.fromisoformat` and `uuid.UUID`, of
which only the inversion of what the service writes is asked.

## What was found not to hold as documented

- Mutual exclusion of `cached` rests on the lease alone. If a holder outlives it, or Redis evicts the
  lock, a second call comes in (`OverrunBreaksExclusion`, `EvictionBreaksExclusion`; the deployed policy
  `volatile-lru` in docker-compose.yml:86 may evict locks). The cache is not read again after the lock is
  acquired (`SecondFetchDespiteEntry`).
- The description of `change_role` (backend/app/users/admin_router.py:269) has the guard against changing
  one's own role as its first step; it runs after the Authentik calls, so the groups move although the
  request is refused (`SelfChangeAgreesIff`).
- A role change that is not saved, by a lost commit or a failed audit insert, is repaired by the next login
  only if no other change comes first (`SecondChangeTooEarly`), and a token with older groups undoes a
  change (`StaleLoginAgreesIff`).
- The item cache can keep a stale page when requests overlap, because the commit comes after the
  invalidation, and because a page may be stored long after it was fetched (`OverlapStaleIff`, `StaleRuns`).
- The audit log is said never to block the main operation (backend/app/audit/service.py:30). Its failure
  is swallowed, but the failed flush takes the transaction with it: the request is answered as a success
  and the database has not changed (`AnsweredHoldsIff`). A role change then leaves the groups moved and the
  role as it was (`AnsweredAgreesIff`), and a deletion has removed the Authentik account only.
- Offset and cursor pagination agree exactly when no two rows share `created_at` (`OffsetAgreesIffNoTies`).
- Escaping is exact under ILIKE exactly when no ordinary character folds to `%`, `_` or `\` (`FoldedSearchExactIff`).
- A cursor token whose JSON has values of the wrong type, or a time that cannot be converted to UTC, is
  not treated as the first page; nothing catches the exception (`RejectedIsFirstPageIff`).
- The optimistic deletion lowers the total of every cached query, also of those that never found the
  user (`DeletedTotalRightIff`), and leaves every page behind the user off by one row (`DeletedPageRightIff`).
- The seed script is not idempotent for every list: with repeated emails a second run can add an account
  to a further group (`SecondRunAddsMember`) or give a row another email (`SecondRunRewritesRow`).
  `SeedIdempotentIff` says when; lists without repeated emails are safe.

## Model

| member | source | states |
|---|---|---|
| Keyset.ListCursor | backend/app/users/service.py:163-187 | fetching one row more and cutting gives the newest `limit` rows, and a cursor exactly when more rows are eligible |
| Keyset.PageInterval | backend/app/users/repository.py:204-211 | a page holds exactly the matching rows of its snapshot between the cursor it was asked with and the one it hands out |
| Keyset.PageShape | backend/app/users/service.py:173-185 | pages are in strict order, full if there is a next one, and cursors strictly fall |
| Keyset.SelectIsTop | backend/app/users/repository.py:209 | ORDER BY created_at DESC, id DESC LIMIT n: no row left out is newer than one returned |
| Traversal.NoRowTwice | backend/app/users/service.py:138-187 | following cursors, no row is seen twice whatever changes between pages |
| Traversal.StableRowSeenOnce | backend/app/users/service.py:138-187 | a row present and matching in every snapshot read is seen exactly once by a complete traversal |
| Traversal.RunIsSound | backend/app/users/repository.py:186-211 | every row seen was in one of the snapshots and passed the filters |
| Traversal.PagesBoundedByIds | backend/app/users/service.py:163-187 | a traversal over finitely many ids is bounded: the pages before the last hold distinct rows |
| Traversal.FixedTraversal | backend/app/users/repository.py:186-224 | on an unchanging table the pages are the whole filtered list in order, all full but the last, in number max(1, ceil(n/limit)) with n the count |
| Traversal.FollowCursors | backend/app/users/service.py:163-187 | a client that follows the cursors on an unchanging table gets to the end, so complete traversals exist |
| Traversal.PageCountIsCeiling | backend/app/users/service.py:163-187 | the page count is the least number of pages, at least one, that hold n rows |
| Traversal.OffsetAgreesIffNoTies | backend/app/users/repository.py:170-184 | every offset listing equals the keyset listing iff no two rows share created_at |
| Traversal.KeysetEqualsOffset | backend/app/users/repository.py:170-211 | with distinct created_at the offset pages concatenate to what the keyset traversal yields |
| Cursor.ListUsersCursor | backend/app/users/service.py:138-187 | from token to token, whatever Python's readers accept: the page of the decoded position, a next token that decodes to the page's last row, the first page for rejected tokens, no answer for uncaught exceptions |
| Cursor.TokenRoundTrip | backend/app/users/service.py:155-185 | decoding an emitted token gives back created_at and id exactly |
| Cursor.TokenText | backend/app/users/service.py:180-185 | one token letter by letter: the JSON text with its two members, in base64 |
| Cursor.IsoText | backend/app/users/service.py:182 | the text of a timestamp with and without microseconds |
| Cursor.UuidEnds | backend/app/users/service.py:183 | 36 characters, the most significant digit first, dashes at 8, 13, 18 and 23 |
| Cursor.LeapDays | backend/app/users/service.py:158 | which 29ths of February exist |
| Cursor.ReadersExist | backend/app/users/service.py:157-184 | what is asked of Python's readers can be met: they need only read back what the service writes |
| TokenClient.SessionIsRun | backend/app/users/service.py:138-187 | a client that hands back the tokens it gets runs through the pages of the positions they stand for |
| TokenClient.ClientSeesNobodyTwice | backend/app/users/service.py:138-187 | a client that knows tokens only sees no user twice, whatever changes between its requests |
| TokenClient.ClientSeesStableOnce | backend/app/users/service.py:138-187 | and when it gets to the end it has seen every user who was there and matched throughout exactly once |
| Cursor.EveryTimestampHasKey | backend/app/users/service.py:180-185 | the round trip covers every UTC timestamp and every UUID |
| Cursor.IsoRoundTrip | backend/app/users/service.py:158-182 | the ISO text of a timestamp reads back, with and without microseconds |
| Cursor.UuidRoundTrip | backend/app/users/service.py:159-183 | the UUID text reads back |
| Cursor.JsonRoundTrip | backend/app/users/service.py:157-184 | the two-field object reads back |
| Cursor.CodeIsChronological | backend/app/users/repository.py:205-208 | the number standing for a timestamp orders as the timestamp's fields do |
| Cursor.RejectedIsFirstPageIff | backend/app/users/service.py:155-161 | which tokens give which position, and that one that gives none is answered with the first page exactly when its JSON does not make the handler raise something it does not catch |
| Cursor.NumberAsIdFails | backend/app/users/service.py:158-160 | a readable time with an id that is no string always fails |
| Cursor.WrongTypeFails | backend/app/users/service.py:155-161 | base64 over {"c": "2024-01-01", "i": 5} is such a token |
| Cursor.ListFails | backend/app/users/service.py:157-160 | so is W10=, base64 over an empty list |
| Base64.RoundTrip | backend/app/users/service.py:157-185 | the lenient decoder inverts the encoder for all byte strings |
| Base64.Alphabet | backend/app/users/service.py:180-185 | the standard alphabet, with plus and slash |
| Base64.TestVectors | backend/app/users/service.py:180-185 | test vectors of RFC 4648, with both paddings |
| UserQueries.FiltersMean | backend/app/users/repository.py:151-168 | the filters keep the rows with that role, that flag and the search text in email or name, ignoring case |
| Like.SearchIsExact | backend/app/core/database.py:28-30 | the escaped pattern between percent signs matches exactly the strings that contain the text |
| Like.UnescapeInverts | backend/app/core/database.py:28-30 | escaping can be undone |
| Like.EscapeIsMinimal | backend/app/core/database.py:28-30 | only metacharacters are escaped, each by one backslash |
| Like.EscapeInjective | backend/app/core/database.py:28-30 | different texts have different escapes |
| Like.FoldedSearch | backend/app/users/repository.py:163-167 | under case folding the search finds exactly the texts that contain it after folding |
| Like.FoldedSearchExactIff | backend/app/users/repository.py:163-167 | a folding that fixes the metacharacters keeps all searches exact iff it maps nothing else to them |
| PathLabels.UuidSubLeftmost | backend/app/core/middleware.py:15-30 | the leftmost UUID is replaced, the text before it kept, and scanning goes on behind it |
| PathLabels.UuidSubIdentity | backend/app/core/middleware.py:15-30 | without a UUID nothing changes |
| PathLabels.IntSubLeftmost | backend/app/core/middleware.py:18-31 | the leftmost all-digit segment is replaced and scanning goes on at its end |
| PathLabels.IntSubIdentity | backend/app/core/middleware.py:18-31 | without an all-digit segment nothing changes |
| PathLabels.SegmentTakesRun | backend/app/core/middleware.py:18 | backtracking finds no other match than the whole run of digits |
| PathLabels.NormalizeIsCanonical | backend/app/core/middleware.py:25-32 | a label holds no UUID and no all-digit segment, for every path, newlines included |
| PathLabels.CanonicalIffFixed | backend/app/core/middleware.py:25-32 | the canonical paths are exactly the fixed points |
| PathLabels.NormalizeIdempotent | backend/app/core/middleware.py:25-32 | normalising twice is normalising once |
| PathLabels.NormalizeKeepsSlashes | backend/app/core/middleware.py:25-32 | the number of slashes is kept |
| PathLabels.DigitsAreForgotten | backend/app/core/middleware.py:25-32 | exchanging one all-digit segment for another does not change the label |
| PathLabels.UuidsAreForgotten | backend/app/core/middleware.py:25-32 | exchanging one UUID at the head of a segment for another does not change the label |
| PathShapes.MatchesExactlyUuids | backend/app/core/middleware.py:15-17 | taken for UUIDs are exactly the texts that uuid.UUID reads and that have their dashes at 8, 13, 18 and 23 |
| PathShapes.EveryUuidMatches | backend/app/core/middleware.py:15-17 | every str(uuid), its letters in any case, is one of them |
| PathShapes.UuidIsReplaced | backend/app/core/middleware.py:25-32 | a segment that is a UUID becomes {id} |
| PathShapes.IntSubIsBySegments | backend/app/core/middleware.py:18-31 | an independent definition: the path taken apart at its slashes, and the segments of digits behind a slash replaced |
| PathShapes.NumberIsReplaced | backend/app/core/middleware.py:18-31 | a segment that is a number becomes {n} |
| LeaseCache.LeaseMutualExclusion | backend/app/core/cache.py:32-51 | in every interleaving with Redis errors, if holders finish within their lease and no lock is evicted, at most one call per key is between acquire and release |
| LeaseCache.DeleteRemovesOwnLock | backend/app/core/cache.py:47-51 | under the same premise the unconditional delete removes the caller's own live lock and nothing else |
| LeaseCache.OverrunBreaksExclusion | backend/app/core/cache.py:32-51 | from every state with a holder, letting the lease run out lets another call in, without any error if no value is live |
| LeaseCache.EvictionBreaksExclusion | backend/app/core/cache.py:32-37 | evicting the lock lets another call in at once |
| LeaseFreshness.BoundedFreshness | backend/app/core/cache.py:25-66 | a returned value was fetched by the call itself or by a fetch that began less than ttl + 10 s before the cache read |
| LeaseFreshness.OneFetchAndOnlyHoldersWrite | backend/app/core/cache.py:39-66 | each call fetches at most once and only calls that acquired the lock write |
| LeaseFreshness.BoundedWork | backend/app/core/cache.py:25-66 | at most five polls and ten steps per call |
| LeaseFreshness.NeverStuck | backend/app/core/cache.py:52-66 | a call that is not over can go on after at most one pause |
| LeaseFreshness.SecondFetchDespiteEntry | backend/app/core/cache.py:32-42 | a run from the start, without errors, after which a value is live and a second call that holds the lock fetches all the same |
| LeaseFreshness.StoredValueIsServed | backend/app/core/cache.py:25-60 | a value Redis took is what every read and poll on the key gets, without a fetch, after any run of other calls, until it expires, is dropped or is stored again |
| LeaseFreshness.HeldLockRefuses | backend/app/core/cache.py:34-37 | if holders finish within their lease, whoever asks for a held lock is refused, whatever Redis does, and goes on to poll |
| LeaseFreshness.RaisedFetchReleases | backend/app/core/cache.py:40-51 | a fetch that raises still releases the lock and stores nothing |
| LeaseTiming.FivePollsBeforeFallback | backend/app/core/cache.py:52-66 | a call without the lock fetches only after five polls in vain, each at least 300 ms after the one before |
| LeaseTiming.GrantedLockRefuses | backend/app/core/cache.py:34-37 | a granted lock refuses everybody for 10 000 ms, unless it is deleted or evicted |
| LeaseTiming.GrantedLockRunsOut | backend/app/core/cache.py:34-37 | and no longer |
| CacheKeys.ItemKeyInjective | backend/app/feature_example/service.py:28 | different lists have different keys |
| CacheKeys.KeyTexts | backend/app/feature_example/service.py:28-33 | the texts of list keys, patterns and lock keys |
| CacheKeys.DecReads | backend/app/feature_example/service.py:28 | numbers are written in decimal, most significant digit first, without leading zeros |
| CacheKeys.PatternMatchesOwnKeys | backend/app/feature_example/service.py:33 | the owner's pattern matches the list keys of that owner and of no other |
| CacheKeys.LocksAreApart | backend/app/core/cache.py:33 | no pattern matches a lock key and no list key is one |
| RedisCache.Redis.Cached | backend/app/core/cache.py:19-66 | value returned and keys left behind, for every combination of hit, lock, store, unlock and poll replies |
| CachedRun.CachedIsARun | backend/app/core/cache.py:19-66 | whatever that contract allows is a run of one more call in the state machine of LeaseCache, with the same result, value and lock |
| RedisCache.Redis.Pipeline | backend/app/core/cache.py:79-84 | one batch removes its keys and counts those that were there, duplicates once |
| RedisCache.Redis.Invalidate | backend/app/core/cache.py:69-87 | the 1000-wide batches remove the scanned keys and count the distinct ones removed, up to the batch that fails |
| RedisCache.BatchesOfThousand | backend/app/core/cache.py:77-84 | what a failing batch leaves done and counted, batches being of 1000 keys |
| RedisCache.InvalidationIsExact | backend/app/core/cache.py:69-87 | no scanned key remains, the others are untouched, the count is the number of keys removed |
| ItemService.Service.GetItem | backend/app/feature_example/service.py:15-19 | answers as the service without a cache |
| ItemService.Service.ListItems | backend/app/feature_example/service.py:21-29 | answers a page of the current table and keeps cache and table in agreement |
| ItemService.Service.CreateItem | backend/app/feature_example/service.py:31-34 | new table, answer and keys; agreement kept when the invalidation is complete, and for other owners always |
| ItemService.Service.UpdateItem | backend/app/feature_example/service.py:36-44 | the same for updates, with the missing item |
| ItemService.Service.DeleteItem | backend/app/feature_example/service.py:46-51 | the same for deletions, with the missing item |
| ItemService.CreatedItemHolds | backend/app/feature_example/repository.py:37-43 | a created item holds what was asked for, is found, and is all that is new |
| ItemService.UpdatedItemHolds | backend/app/feature_example/repository.py:45-51 | an updated item holds the fields set and its old ones, is found so, and is all that changed |
| ItemService.DeletedItemIsGone | backend/app/feature_example/repository.py:53-56 | a deleted item is not found, and is all that is gone |
| ItemService.WriteKeepsAgreement | backend/app/feature_example/service.py:31-51 | a write followed by clearing the owner's pattern leaves only correct pages in the cache |
| ItemService.ListKeepsAgreement | backend/app/feature_example/service.py:21-29 | a cached list answers a page of the current table whichever branch of `cached` is taken |
| ItemService.CacheIsTransparent | backend/app/feature_example/service.py:21-51 | over any sequence of atomic requests with arbitrary expiry, every answer is one the service without a cache could give |
| ItemOverlap.PageStaysIff | backend/app/feature_example/repository.py:24-35 | which pages an insertion, an update or a deletion changes, by the rank of the item, the offset and the limit |
| ItemOverlap.CommitKeepsIff | backend/app/core/dependencies.py:59-63 | a commit leaves cache and table in agreement exactly when no page of the owner that it changes is cached or about to be stored |
| ItemOverlap.RunConsistentIff | backend/app/feature_example/service.py:21-51 | over any run of overlapping requests the cache agrees with the table at every moment exactly when every commit is such |
| ItemOverlap.ServiceConsistentIff | backend/app/feature_example/service.py:21-51 | and so from the empty service on |
| ItemOverlap.OverlapStaleIff | backend/app/feature_example/service.py:31-51 | a write leaves a wrong page behind exactly when a list of the owner that it changes was stored between its invalidation and its commit, or was fetched before the commit and is yet to be stored |
| ItemOverlap.StaleRuns | backend/app/feature_example/service.py:21-51 | from every consistent world, for every write and every list that it changes: a list in between, and a list, no more cached, fetched before and stored after, are both possible and end with a wrong page in the cache |
| Users.RolesByMembership | backend/app/users/utils.py:7-26 | which group memberships and which email give which role, whatever the order of the groups |
| UserRepository.Repository.SyncFromJwt | backend/app/users/repository.py:80-111 | non-empty claims and the role are taken over; nothing is written when nothing differs or an index would break |
| UserRepository.Repository.UpsertFromProvider | backend/app/users/repository.py:41-78 | inserts with defaults or updates email, name and role on the same provider_id; is_active is kept |
| UserRepository.Repository.UpdateRole | backend/app/users/repository.py:113-127 | the one row changed and how |
| UserRepository.Repository.SetActive | backend/app/users/repository.py:129-143 | the one row changed and how |
| UserRepository.Repository.DeleteUser | backend/app/users/repository.py:145-148 | the one row removed |
| UserRepository.Repository.Flush | backend/app/users/repository.py:110-111 | a flush is refused exactly when a unique index would break, and touches updated_at only if the row differs |
| Login.GetCurrentDbUser | backend/app/core/dependencies.py:66-161 | one specification for the three paths, including rollback on conflict, failure and block |
| Login.SyncKnown | backend/app/core/dependencies.py:111-120 | first path: the known row is brought up to the claims |
| Login.LinkByEmail | backend/app/core/dependencies.py:121-131 | second path: the row with the email is linked to the provider |
| Login.RowCarriesClaims | backend/app/core/dependencies.py:88-147 | which email, name and groups of token and userinfo count, and what the row holds of them, on all three paths |
| Login.UserinfoIgnored | backend/app/core/dependencies.py:95-102 | a token with an email makes userinfo irrelevant |
| Login.RefusedWritesNothing | backend/app/core/dependencies.py:59-63 | whoever is not let in leaves the table as it was |
| Login.BlockedIff | backend/app/core/dependencies.py:155-161 | blocked are exactly the logins whose row is known and not active |
| Login.OneRowPerProvider | backend/app/core/dependencies.py:108-147 | after a login exactly one row has the provider_id |
| Login.RoleFollowsGroups | backend/app/core/dependencies.py:105-130 | known groups decide the role, unknown ones leave it |
| Login.OthersUntouched | backend/app/core/dependencies.py:108-147 | other rows are kept, and a row is added iff neither provider_id nor email was known |
| Login.RepeatChangesNothing | backend/app/users/repository.py:94-111 | the same claims again write nothing |
| Login.LoginKeepsActive | backend/app/core/dependencies.py:155-161 | no login changes is_active or lets a blocked row in, and a refusal for blocking changes nothing |
| Login.NewUserIsLetIn | backend/app/core/dependencies.py:132-147 | a user known neither by provider_id nor by email gets an active row made of the claims and is let in |
| Login.UnavailableIff | backend/app/core/dependencies.py:148-153 | with the database up, a login answers "temporarily unavailable" exactly when its email belongs to a row other than the one the provider_id names, or when a login without an email meets another row without one |
| Blocking.ActiveIsLastSet | backend/app/users/repository.py:129-143 | over any run of logins and admin requests a row is active as the last block or unblock left it |
| Blocking.BlockedStaysOut | backend/app/core/dependencies.py:155-161 | until unblocked, every login as that row is refused and leaves the whole database unchanged |
| AdminRouter.GetUserPk | backend/app/users/admin_router.py:86-114 | the first exact uid match of a fuzzy search, or none |
| AdminRouter.Authentik.ChangeGroup | backend/app/users/admin_router.py:132-170 | the groups after each way the lookups, the removal and the addition can end |
| AdminRouter.Router.ChangeUserRole | backend/app/users/admin_router.py:258-304 | groups, row, log and answer after success and after each failure, that of the audit insert included |
| RoleProtocol.ChangeTouchesTwoGroups | backend/app/users/admin_router.py:132-170 | no group but the two of the change comes or goes, and when each of these does, for all replies and outcomes |
| RoleProtocol.RoleGroupNames | backend/app/users/admin_router.py:79-83 | the groups of the roles |
| AdminRouter.Router.SetUserActive | backend/app/users/admin_router.py:307-326 | row, log and answer after success and after each failure |
| AdminRouter.Router.DeleteUserById | backend/app/users/admin_router.py:357-400 | row, groups, log and answer after success and after each failure |
| AdminRouter.Router.ResetUserPassword | backend/app/users/admin_router.py:329-354 | only the log changes |
| AdminRouter.AuditLog.Record | backend/app/audit/service.py:19-48 | an entry is appended; the error of a failing insert is swallowed, but everything its transaction wrote is gone |
| AdminRouter.Transaction.Exit | backend/app/core/dependencies.py:59-63 | the end of the transaction: nothing is kept of an aborted one, and no error is raised for it |
| RoleProtocol.SuccessAgreesIff | backend/app/users/admin_router.py:279-304 | after a successful change role and groups agree iff the user had no third role group |
| RoleProtocol.FailureAgreesIff | backend/app/users/admin_router.py:144-163 | after a change that was not saved they agree iff the new group was not added or is the old one |
| RoleProtocol.AnsweredAgreesIff | backend/app/audit/service.py:31-48 | a change answered as a success leaves them in agreement iff the audit insert succeeded or there was nothing to change |
| RoleProtocol.EarlyFailureHarmless | backend/app/users/admin_router.py:144-163 | failing lookups, removal, or addition without effect keep them in agreement |
| RoleProtocol.SelfChangeAgreesIff | backend/app/users/service.py:39-48 | a refused self-change leaves them in agreement iff the role was the same |
| RoleProtocol.OthersKeepAgreeing | backend/app/users/admin_router.py:132-170 | nobody else's row or groups are touched |
| RoleProtocol.CurrentLoginAgreesIff | backend/app/core/dependencies.py:105-120 | a login with the current groups restores agreement iff the user is in at most one role group |
| RoleProtocol.StaleLoginAgreesIff | backend/app/core/dependencies.py:105-120 | a login with older groups keeps agreement iff they mean the same role |
| RoleProtocol.SecondChangeTooEarly | backend/app/users/admin_router.py:274-277 | after a change that was not saved, a second one before the login puts the user into two role groups |
| RoleProtocol.AlwaysAgreeIff | backend/app/users/admin_router.py:258-304 | over all runs of role changes, with any failures, and logins, with any groups: role and groups agree all the time iff no event does harm by its own inputs |
| RoleProtocol.AlwaysRepairableIff | backend/app/users/admin_router.py:132-170 | over all such runs: a current login would repair at every moment iff no change adds its group beside a third one |
| RoleProtocol.RolesAgreeOverRuns | backend/app/users/admin_router.py:258-304 | over all runs in which the owed login precedes the next change, never two role groups, and agreement whenever no login is owed |
| AuditFold.ServedIsLogged | backend/app/users/admin_router.py:279-326 | a request that is saved appends one entry that replays its effect; any other changes neither table nor log |
| AuditFold.AnsweredHoldsIff | backend/app/audit/service.py:30-48 | what a request is answered is in the database exactly when its audit insert succeeded, or it held before |
| AuditFold.AnsweredRow | backend/app/users/repository.py:113-143 | the row a role change or block is answered with, field by field: who, when, and what is kept |
| AuditFold.SavedTable | backend/app/users/admin_router.py:279-326 | what a saved request leaves in the table, and that it leaves all other rows alone |
| AuditFold.SavedEntry | backend/app/audit/service.py:32-40 | who did what to whom, in the entry of each kind of request |
| AuditFold.GroupsReached | backend/app/users/admin_router.py:357-400 | which requests reach the Authentik groups, and that a deletion takes the account |
| AuditFold.RefusedIff | backend/app/users/service.py:39-64 | which requests are refused, for which reason first |
| AuditFold.LogDeterminesState | backend/app/audit/service.py:19-48 | over any run the log only grows and replaying it rebuilds existence, role and active flag of every user |
| SingleFlight.AtMostOneInFlight | frontend/src/lib/auth-server.ts:38-44 | one running promise at most, and it is in the slot |
| SingleFlight.SameAnswer | frontend/src/lib/auth-server.ts:38-44 | callers of one promise get one answer |
| AuthServer.OneDiscoveryAtATime | frontend/src/lib/auth-server.ts:35-45 | in every reachable state at most one discovery runs, with the slot occupied |
| AuthServer.WaitersAgree | frontend/src/lib/auth-server.ts:38-44 | all callers answered by one discovery got the same answer |
| AuthServer.SuccessesSpacedOut | frontend/src/lib/auth-server.ts:33-60 | successful discoveries are at least 3 600 000 ms apart |
| AuthServer.OldDocumentIsAskedForAgain | frontend/src/lib/auth-server.ts:35-44 | by the clock: a document younger than an hour is answered at once, otherwise the caller waits for a discovery, which it starts unless one runs |
| AuthServer.WaitersGetDocument | frontend/src/lib/auth-server.ts:57-59 | everybody who waits for a discovery that succeeds gets its document |
| AuthServer.FailureIsPassedOn | frontend/src/lib/auth-server.ts:61-64 | without a document, its failure is what they get |
| AuthServer.NeverForgotten | frontend/src/lib/auth-server.ts:57-64 | the cached document never goes back to null, and a failing discovery then answers with it |
| AuthServer.SlotFreedAfterFlight | frontend/src/lib/auth-server.ts:41-43 | the slot holds the promise until its `finally` and is free afterwards |
| AuthServer.AuthServerModule.GetAuthServer | frontend/src/lib/auth-server.ts:35-45 | the code up to the first await is one step of the state machine |
| AuthServer.AuthServerModule.DiscoveryEnds | frontend/src/lib/auth-server.ts:57-64 | so is the end of a discovery |
| AuthServer.AuthServerModule.FinallyRuns | frontend/src/lib/auth-server.ts:41-43 | and so is the callback of `finally` |
| SessionRefresh.OneRefreshAtATime | frontend/src/lib/auth-server.ts:296-304 | at most one session refresh runs, with the slot occupied, and its waiters agree |
| SessionRefresh.UnrefreshedSessionsLast | frontend/src/lib/auth-server.ts:284-290 | a session handed out without a refresh ends more than 30 000 ms after it was asked for |
| SessionRefresh.LiveSessionIsAnswered | frontend/src/lib/auth-server.ts:284-307 | and every such session is handed out, without a refresh; otherwise the refresh token decides |
| SessionRefresh.SessionModule.GetSession | frontend/src/lib/auth-server.ts:279-307 | the code up to the await is one step of the state machine; a session is answered on the spot exactly when it has more than 30 000 ms left, null exactly when it has not and there is no refresh token |
| SessionRefresh.SessionModule.RefreshEnds | frontend/src/lib/auth-server.ts:309-321 | a session is answered only together with the cookies that hold it, null only after they are cleared, and an error only when cookies cannot be written |
| SessionRefresh.SessionModule.FinallyRuns | frontend/src/lib/auth-server.ts:300-302 | the callback frees the slot in one step of the state machine |
| OptimisticCache.QueryCache.OnMutate | frontend/src/hooks/use-admin-users.ts:27-40 | every cached page is rewritten, queries without data are left alone |
| OptimisticCache.QueryCache.OnError | frontend/src/hooks/use-admin-users.ts:41-46 | every page of the snapshot is put back, nothing else changes |
| OptimisticCache.MutateAndFail | frontend/src/hooks/use-admin-users.ts:27-46 | a failed mutation restores every cached page |
| OptimisticCache.ChangeCommutes | frontend/src/hooks/use-admin-users.ts:30-38 | role and status rewriting of a server page gives a server page of the changed table, updated_at aside |
| OptimisticCache.ServerPageUnique | backend/app/users/repository.py:170-184 | without ties the server can answer only one page |
| OptimisticCache.DeleteCommutes | frontend/src/hooks/use-admin-users.ts:112-124 | the page that showed the deleted user becomes a prefix of the server's new page with equal total |
| OptimisticCache.DeletedTotalRightIff | frontend/src/hooks/use-admin-users.ts:115-122 | the lowered total is right iff the query had found the user |
| OptimisticCache.DeletedPageRightIff | frontend/src/hooks/use-admin-users.ts:112-124 | which cached pages are right after the optimistic deletion, by the user's place, the offset and the limit |
| Seed.Script.CreateGroups | scripts/seed.py:256-297 | missing groups are created, and every listed name is mapped to its key |
| Seed.Script.EnsureMappings | scripts/seed.py:540-572 | the provider has its old mappings and all needed ones |
| Seed.Script.CreateTestUsers | scripts/seed.py:614-671 | accounts and user_ids after the loop |
| Seed.Script.SeedPostgres | scripts/seed.py:711-748 | all upserts, or the table as it was |
| Seed.Script.Run | scripts/seed.py:967-988 | the whole script as one function of both stores |
| Seed.GroupsIdempotent | scripts/seed.py:260-297 | a second run creates no group; the first created exactly the missing ones |
| Seed.MappingsIdempotent | scripts/seed.py:553-568 | mappings are never lost and a second run changes nothing |
| Seed.AccountsProvided | scripts/seed.py:620-671 | every listed user has an account named by user_ids and in its group |
| Seed.RowsProvided | scripts/seed.py:724-740 | every listed user with an id has a row with the listed email, name and role |
| Seed.ApplicationLasts | scripts/seed.py:575-611 | after any number of runs the slug has the application it had, or the one the first run made, and no other application has changed |
| Seed.MemberIff | scripts/seed.py:620-664 | which groups every account is in after any number of entries, read off the list |
| Seed.SecondRunIdleIff | scripts/seed.py:614-671 | a second run of the loop leaves Authentik as it is iff every skipped entry whose account is created later names a group the account joins anyway |
| Seed.SecondRunAddsMember | scripts/seed.py:625-646 | a concrete list for which it does not |
| Seed.RowsFailIff | scripts/seed.py:724-740 | the upserts fail exactly when one meets its email in a row that no earlier entry was written to |
| Seed.RowsKeptIff | scripts/seed.py:711-748 | the upserts leave a table as it is exactly when they fail or every id's last writer is in its row already |
| Seed.RowsMadeIs | scripts/seed.py:724-740 | the table after the upserts in closed form: last writers, or the old table if two collide |
| Seed.SecondRunRewritesRow | scripts/seed.py:625-646 | a concrete list after which the second run moves an email to another row |
| Seed.SeedIdempotentIff | scripts/seed.py:967-988 | for all lists and all starts: a second run of the script leaves both stores as the first did exactly when both conditions hold, read off the lists, the starting stores and the ids |
| Seed.DistinctEmailsSuffice | scripts/seed.py:28-52 | a list without repeated emails, as TEST_USERS is, is of that kind |
| Seed.RowsIdempotent | scripts/seed.py:724-740 | seeding the rows again succeeds and changes no row, updated_at aside |
| Seed.SeedIdempotent | scripts/seed.py:967-988 | so it does, and ends as the first did, for every list in which no account is passed over first and created later |
| Seed.ScriptPrepares | scripts/seed.py:967-976 | after the script the mappings are the old and the needed ones, if there is a provider, and every listed group and the application are there |
| Seed.ScriptProvides | scripts/seed.py:977-988 | and every listed user has an account in the listed group and, if the upserts succeed, the listed row |
| Seed.CreatedAsListed | scripts/seed.py:648-664 | a created account carries the email and name of its entry |

## Left out

- LeaseCache.LeaseMutualExclusion: one atomic event per Redis command; a command that Redis carries out long after the client gave up on it, and cancellation of the task inside `cached`, are not modelled.
- LeaseFreshness.BoundedFreshness: dates a value by the beginning of its fetch; what the fetch reads meanwhile is up to the database.
- ItemService.CacheIsTransparent: requests are atomic and invalidations succeed; for failing ones only the agreement for other owners is stated. Items removed with their owner by the foreign key are not modelled.
- ItemOverlap.OverlapStaleIff: invalidations succeed and are one event; the owner's items have distinct created_at, as the pages are not determined otherwise; two flushed writes of one item exclude each other by its row lock.
- CacheKeys.PatternMatchesOwnKeys: bracket classes of Redis patterns do not occur in these patterns and are not modelled.
- Traversal.PagesBoundedByIds: with rows inserted for ever below the cursor a traversal need not end, so it is bounded by the ids there ever were.
- Cursor.ListUsersCursor: which other texts the readers of Python accept is left to them; deeply nested JSON, which needs more than the 500 characters the router admits, is not modelled.
- Login.GetCurrentDbUser: column lengths, a userinfo call that raises, and the text "None" for claims that are null are not modelled; nothing is written in the first two cases.
- RoleProtocol.RolesAgreeOverRuns: role changes and logins of one user do not overlap in time, the logins come through the known provider_id, and the user is not the one ADMIN_EMAIL names; `AlwaysAgreeIff` and `AlwaysRepairableIff` need only the first two.
- AdminRouter.Router.ChangeUserRole: the login of the admin, which the request begins with in the same transaction, is modelled as a request of its own.
- AuditFold.LogDeterminesState: there is no login between the requests; DELETE_SELF entries are not modelled.
- SessionRefresh.OneRefreshAtATime: callers share one refresh token, as the comment at frontend/src/lib/auth-server.ts:274-275 assumes; of the cookies only the two tokens are modelled, not the ID token and the expiry dates.
- OptimisticCache.MutateAndFail: mutations do not overlap; a rollback while another optimistic change is pending takes that one back too, until the refetch.
- Seed.SeedIdempotentIff: all calls to Authentik succeed, the users are not skipped by SEED_SKIP_USERS and a database is configured; creating the OAuth2 provider, its mappings and flows, passwords and branding are not modelled.
- HTTP, JWT validation, rate limits, CSRF, headers, metrics export, Celery tasks, Docker and nginx.
- React components, routing, themes and the small lookup tables for badges, labels and permissions.
- Pydantic and Zod field limits, the exception hierarchy and the database migrations.
