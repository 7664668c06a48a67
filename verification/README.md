# JSON API Forge: verified model

This project models the stateful core of JSON API Forge in Dafny 4.11 and proves what that core is
for: no step of a reload ever tears down a service somebody uses, a cached answer belongs to its query and
is never older than its key, a call is refused exactly when its bucket is used up, pages of a changing
table have no gaps and no repeats, delegated authority never grows, and so on. `dafny verify dfyconfig.toml` checks everything.

Code that changes tables and fields step by step is modelled by classes whose methods are proved
against specification functions; protocols whose steps interleave at `await` are state machines
(`Enabled`, `Apply`) in which a stretch of code between two awaits, a query, or a whole database
transaction is one step. Theorems speak about every run of those machines. Time, tokens and
durations are reals. Clocks, random identifiers, hashes and SQL statements are parameters; hashes
and random identifiers are taken to be injective and new.

The parts, from the hardest:

* **Reload with leased services**: `LeaseProtocol`, `LeaseInvariant`, `LeaseTheorems` (the machine of
  generations, leases, requests, candidates, draining), `RuntimeManagers` and `Reload` (the two
  classes), `LeaseLoops` (turns of the classes' loops, and whole reloads, as runs of the machine), `Ownership`
  (conflict rule, quarantine, prefix lookup).
* **Read-through cache**: `CacheProtocol`, `CacheTheorems` (generations, per-key locks, background
  refresh), `LruCaches` (the in-process store against its own history).
* **Token buckets**: `TokenBuckets`, `TokenBucketTheorems` (a reference limiter, the in-process one that
  evicts, the Redis script).
* **Graph documents**: `GraphRoots` (the root of a document), `GraphDocument` (nodes, edges and Kahn's algorithm).
* **Cursor pagination**: `CursorCodec` (JSON, base64url and padding of section 5 and section 3.2 of
  RFC 4648), `Pagination`.
* **Authority**: `Roles`, `Delegation` (API keys), `EditorAuthority`, `EditorStore` (editor members).
* **Ledgers**: `Operations`, `Idempotency`, `IdempotencyTheorems`, `Media`, `MediaTheorems`, `MediaServices`.
* **Routes**: `Routes`, `RouteTheorems`.

Two laws turn out false of the code as it stands; each has an input and its exact condition.

* **A delegated key can exceed its issuer** when a requested name contains a comma. The check looks
  at the name as one, storage joins names with commas, and authentication splits them again, so the
  new key can hold a permission that was never checked (`Delegation.CommaFreeIsNeeded`: for any name
  whatever). An allowed key is within its issuer if and only if the names as they will be read back
  pass the same tests (`Delegation.AllowedKeyIsWithinIff`); chains are safe exactly link by link under
  that condition (`Delegation.ChainNeverEscalates`, `Delegation.ChainWithinIff`), which names without
  commas always meet (`Delegation.CommaFreeChain`).
* **An expired idempotency row can still answer** (`IdempotencyTheorems.ExpiredReplayHappens`). This
  happens if and only if the statements themselves raise an integrity error, whose rollback brings the
  row back (`IdempotencyTheorems.ExpiredReplayIffStatementsViolate`).

Two branches turn out to be unreachable: the graph validator's "duplicate connection" error
(`GraphRoots.ValidateDocument`) and the ledger's "still in progress" answer
(`IdempotencyTheorems.ReplaysTheLastExecution`).

## Model

| member | source | states |
|---|---|---|
| LeaseInvariant.InitInv | framework/reload.py:74-86 | the first generation, built but not started, satisfies the whole invariant |
| LeaseInvariant.StepInv | framework/reload.py:54-186 | every action of every interleaving (requests, build, start, failure, rejection, close, swap, drain, prune, shutdown) keeps the invariant: lease counts, exclusive ownership of unleased runtimes, loans, phases, roles |
| LeaseInvariant.StartOpenInv | framework/runtime.py:93-119 | the invariant (lease counts, ownership, loans, phases) survives opening the services of a runtime that is not yet available |
| LeaseInvariant.CloseVisitInv | framework/runtime.py:147-166 | it survives one visit of the reversed close loop: giving back a lease, and tearing down only when it was the last |
| LeaseInvariant.BuildInv | framework/runtime.py:38-57 | it survives building a candidate that borrows available, equally configured runtimes of the current generation |
| LeaseTheorems.Reachable | framework/reload.py:54-186 | in every reachable state `_leases` is the number of managers holding the runtime, whatever is leased is available with its services, every generation that is started or has requests pinned to it, current or retired, has the services of every runtime that did not fail, a closing or closed generation has no requests, at most two generations linger, and once all are closed nothing holds a service |
| LeaseTheorems.TeardownOnlyUnleased | framework/runtime.py:147-166 | an action that takes a runtime's services or availability away leaves no generation holding it |
| LeaseTheorems.Draining | framework/reload.py:61-70 | a generation no longer current never gains requests, and leaves its started phase only with none |
| LeaseTheorems.RequestsAreCounted | framework/reload.py:243-250 | over any run, counted from the actions alone: the requests pinned to a generation are those that began while it was current, less those of it that ended, and the current generation is the one swapped in last |
| LeaseTheorems.DrainsWhenAllEnded | framework/reload.py:66-70 | a replaced generation can begin to close exactly when every request that began on it has ended |
| LeaseTheorems.RequestsCanEnd | framework/reload.py:242-250 | a request can end exactly while some that began on its generation runs, and new ones begin until the shutdown |
| LeaseTheorems.CandidateIsThePlan | framework/runtime.py:38-57 | each app of a candidate is the running one if it is up, unchanged and not refused, and a new one that is not up otherwise |
| LeaseTheorems.RejectedReload | framework/reload.py:139-186 | over any run in which a reload ends without a swap, the current generation keeps its runtimes and leases, what it leases stays up, and other leases are gone only if a retired generation gave them back |
| LeaseTheorems.CloseCompletes | framework/runtime.py:147-166 | a closing generation can always be brought to closed, changing nothing else |
| LeaseTheorems.RetiredCanFinish | framework/reload.py:178-186 | a retired generation without requests can always drain and close |
| LeaseTheorems.RetiredMakesRoom | framework/reload.py:121-129 | and is then forgotten, which makes room for the next reload |
| LeaseTheorems.RejectedCanFinish | framework/reload.py:179-182 | a candidate that is given up, at whatever point, can always be closed for good |
| LeaseTheorems.ShutdownCompletes | framework/reload.py:106-115 | when the process shuts down and its requests have ended, every generation can close, and then no service is left open |
| LeaseLoops.ReloadSucceeds | framework/reload.py:139-186 | from every state in which a candidate may be built there is a run, whatever services come up, after which it is current and takes requests, its predecessor is retired, and each app of the plan is up (shared if it ran already, started otherwise) except those refused or not coming up |
| LeaseLoops.StartTurn | framework/runtime.py:93-119 | one turn of the start loop, as the class runs it, is a run of the machine, with a ready or a failed start in it exactly as the services come up or not; the app is then leased and up, or in error |
| LeaseLoops.CloseTurn | framework/runtime.py:147-166 | one turn of the reversed close loop, as the class runs it, is a run of the machine |
| RuntimeManagers.RuntimeManager.constructor | framework/runtime.py:38-57 | borrows exactly the runtimes of the same slug that are available with an equal configuration, and makes fresh ones for the rest |
| RuntimeManagers.RuntimeManager.Start | framework/runtime.py:93-119 | an app that is up or whose services come up is afterwards available, without error, leased and counted once more; one whose services do not come up is in error, unavailable and unleased; one already in error stays as it is; starting again changes nothing |
| RuntimeManagers.RuntimeManager.Close | framework/runtime.py:147-166 | closing gives back every lease once, leaves up what others still lease or lent, tears down the rest, and closing again changes nothing |
| RuntimeManagers.BuildStartClose | framework/reload.py:139-166 | building, starting and closing a candidate leaves every reused runtime as it was and no service of its own |
| Reload.ReloadingForge.ReloadNow | framework/reload.py:117-186 | accepts exactly when there is room, the signature is new and the same before and after, and there is something to publish (`Publishes`: the plan if nothing that was up fails, or else the plan with what failed put back, if that starts in turn); then exactly that is published, and otherwise configuration, health, generation and retirees stay; which rejections are remembered |
| Reload.ReloadingForge.Plan | framework/reload.py:122-166 | finds what there is to publish, or that there is nothing; what it finds has one owner per path, keeps the previous configuration of every directory whose new files fail, and serves every directory that was healthy and is still there |
| Reload.ReloadingForge.Restore | framework/reload.py:148-160 | a previously healthy app that fails to start is put back to its previous configuration, the others stay |
| Reload.ReloadingForge.RestoredKeeps | framework/reload.py:139-166 | the restored list still has one project per directory and satisfies the succession rule |
| Reload.FailedExisting | framework/reload.py:188-196 | exactly the slugs that did not come up though their directory was healthy |
| Ownership.CheckOwnership | framework/reload.py:198-205 | accepts exactly the configurations with distinct slugs and incomparable prefixes |
| Ownership.LoadConfig | framework/config.py:860-874 | the strict loader accepts exactly a nonempty conflict-free list, and says which rule is broken first |
| Ownership.Quarantine | framework/config.py:832-841 | removes exactly the projects that conflict with one from another directory |
| Ownership.LoadConfigResilient | framework/config.py:810-842 | what is left has no conflicts, each broken directory and each rival is an issue, nothing served is |
| Ownership.QuarantineOrder | framework/config.py:832-841 | which projects survive does not depend on the order of directories |
| Ownership.StrictIffNothingQuarantined | framework/config.py:832-841 | the two loaders agree on what a conflict is |
| Ownership.SharedPathIffComparable | framework/runtime.py:59-60 | two prefixes match a common path exactly when one extends the other at a slash |
| Ownership.ServesItsPrefixAndBelow | framework/runtime.py:50-60 | an app serves the path of its prefix, with or without slashes at its end, and the paths below it, and no others |
| Ownership.OwnershipIsApartness | framework/reload.py:198-205 | the ownership rule holds exactly if slugs differ and no path is served by two apps |
| Ownership.RoutingUnambiguous | framework/runtime.py:59-60 | under the ownership rule at most one runtime matches any path |
| Ownership.ForPathOrderFree | framework/runtime.py:59-60 | so the first match does not depend on order |
| CacheProtocol.CacheManager.LockFor | framework/cache.py:152-166 | borrowing makes the key's lock or counts one more borrower of it |
| CacheProtocol.CacheManager.ReleaseLock | framework/cache.py:168-177 | giving back counts one less and drops the entry with its last borrower |
| CacheProtocol.CacheManager.ClaimRefresh | framework/cache.py:286-289 | a claim succeeds exactly if no task in the whole machine is refreshing the key, and the fields then are those after the machine's stale read, with the background task started exactly if the claim succeeded |
| CacheTheorems.StepInv | framework/cache.py:152-302 | every step of keys, reads, locks, loads, stores, refreshes, invalidations and losses keeps freshness, the lock registry and the refresh set in order |
| CacheTheorems.AnswersAreFresh | framework/cache.py:188-194 | the key of a request is its namespace, the generation at that moment and its digest; its answer comes from a loader of that very query that started after the last invalidation before the key was made, and reflects every write before it, stale-while-revalidate and loads in flight included |
| CacheTheorems.KeyOfRequest | framework/cache.py:188-194 | a request keeps the key made of its namespace, the generation and its digest as long as it lives |
| CacheTheorems.WritesAreCounted | framework/cache.py:295-302 | over any run each write counts once, and each invalidation moves its namespace, and no other, to the next generation |
| CacheTheorems.LoadedOnce | framework/cache.py:237-293 | what one task has loaded and stored is what every reader of its key is given, until the entry is lost or replaced: before the lock, under the lock, fresh or stale |
| CacheTheorems.MissIsLoaded | framework/cache.py:237-293 | a caller that finds nothing, and nobody at its key, can load by itself: it is answered with what its loader read now, which is stored under its key, and leaves no lock behind |
| CacheTheorems.WhateverMayCome | framework/cache.py:237-302 | writes, invalidations, losses and new requests may come at any time, and a waiting caller may be cancelled, which leaves it without an answer |
| CacheTheorems.FailureFreesTheLock | framework/cache.py:237-279 | a caller whose load fails or is cancelled gets no answer, frees the lock for whoever waits, and ends its refresh |
| CacheTheorems.AnswersMatchTheLoader | framework/cache.py:237-302 | with no write since the key's generation was installed, the answer is what calling the loader now would give |
| CacheTheorems.SingleFlight | framework/cache.py:237-268 | at most one loader of a key runs at a time |
| CacheTheorems.Registry | framework/cache.py:152-177 | a key has an entry exactly while it has borrowers, the count is their number, all of them hold the one lock, no two keys share it |
| CacheTheorems.OneRefresh | framework/cache.py:270-293 | a key is marked refreshing exactly while one background task refreshes it |
| LruCaches.MemoryTTLCache.Get | framework/cache.py:21-32 | a hit is the last value set, unexpired and undeleted; a live key is missed only after max_entries other keys were touched since it was |
| LruCaches.LastPutIs | framework/cache.py:21-43 | the last value of a key is the one written under it with no write or removal of it since |
| LruCaches.TouchedSinceIs | framework/cache.py:21-39 | another key counts as touched since if one of its touches comes after all of the key's |
| LruCaches.MemoryTTLCache.Set | framework/cache.py:34-39 | records the value with ttl at least one second and keeps the store within max_entries |
| LruCaches.MemoryTTLCache.Delete | framework/cache.py:41-43 | the key is gone from the store and from its history |
| LruCaches.MemoryTTLCache.BumpGeneration | framework/cache.py:48-52 | an invalidation installs a generation above every one ever installed or current in its namespace, and leaves other namespaces theirs |
| LruCaches.PutStep | framework/cache.py:34-39 | setting, moving to the end and evicting the front keeps recency order, accuracy and size, and evicts only what max_entries others outlived |
| LruCaches.HitStep | framework/cache.py:21-32 | so does moving a hit to the end |
| LruCaches.FrontIsOldest | framework/cache.py:38-39 | the front of an overfull store has had max_entries distinct others touched since |
| TokenBuckets.MemoryRateLimiter.Check | framework/rate_limit.py:37-70 | the check over buckets and overflow buckets is the specification's, state and answer |
| TokenBuckets.MemoryRateLimiter.Cleanup | framework/rate_limit.py:30-35 | when due, exactly the buckets past safe_expire_at go, the others stay as they are and the next time is set; else nothing changes |
| TokenBuckets.RedisRateLimiter.Check | framework/rate_limit.py:82-118 | the script with its key expiry is the specification's, state and answer |
| TokenBucketTheorems.EvictionUnobservable | framework/rate_limit.py:30-70 | with fixed policies, an ordered clock and no overflow, answers and Retry-After equal those of a limiter that never evicts, from any related state |
| TokenBucketTheorems.MemoryAgreesWithReference | framework/rate_limit.py:30-70 | so from empty whenever there are at most max_buckets identities |
| TokenBucketTheorems.FewIdentitiesFit | framework/rate_limit.py:47-56 | no more identities than buckets means no overflow along the whole run |
| TokenBucketTheorems.RedisAgreesWithReference | framework/rate_limit.py:82-118 | the Redis limiter gives the same answers as that same reference |
| TokenBucketTheorems.TtlIsLongEnough | framework/rate_limit.py:82-100 | the key's expiry outlasts the time to refill a whole bucket |
| TokenBucketTheorems.TtlIs | framework/rate_limit.py:109-113 | it is the time to refill a bucket, rounded up, and the window, and at least two seconds |
| TokenBucketTheorems.TablesStayBounded | framework/rate_limit.py:30-70 | both tables keep their bounds and no unexpired bucket is evicted |
| TokenBucketTheorems.DueCheckForgets | framework/rate_limit.py:30-62 | a check at which cleanup is due leaves no other bucket past its expiry, and its own bucket expires when it must be full again or idle_ttl has passed, whichever is later |
| TokenBucketTheorems.OverflowByPolicy | framework/rate_limit.py:47-60 | policies overflow into buckets of their own while there is room for them, one for which there is none shares the last, and a call leaves the others' alone |
| TokenBucketTheorems.OverflowIsShared | framework/rate_limit.py:47-60 | while the table is full, all new identities under one policy are answered as if they were one identity |
| TokenBucketTheorems.AcceptedBound | framework/rate_limit.py:37-70 | in any run and any interval, accepted calls of one identity number at most capacity + refill * length |
| TokenBucketTheorems.MemoryBound | framework/rate_limit.py:37-70 | the same for the limiter that is deployed, along any run without overflow |
| TokenBucketTheorems.RefusedIffUsedUp | framework/rate_limit.py:37-70 | the exact law, told from calls and answers alone: from a full bucket a call is refused if and only if, for some earlier moment, it and the calls accepted since are more than capacity + refill * time |
| TokenBucketTheorems.MemoryExact | framework/rate_limit.py:37-70 | the in-process limiter meets it along any run without overflow, with burst or else limit, and limit per window of at least one second |
| TokenBucketTheorems.RedisExact | framework/rate_limit.py:82-118 | so does the Redis limiter |
| TokenBucketTheorems.RetryAfterIsLeast | framework/rate_limit.py:62-70 | waiting k whole seconds is enough exactly if k is at least the Retry-After given |
| GraphRoots.ValidateDocument | framework/editor_api.py:209-312 | accepts exactly the documents whose root is in form, whose nodes and edges are well formed and without a directed cycle, and then there is a topological order; says "cycle" exactly if that is all that is wrong |
| GraphRoots.CheckTarget | framework/editor_api.py:218-228 | the target is accepted exactly if it is a relative path of the two parts config and a nonempty name with the ending .json, without a backslash |
| GraphRoots.PlainTargetsAreDirect | framework/editor_api.py:218-228 | so is every such path written plainly |
| GraphDocument.Validate | framework/editor_api.py:229-312 | for nodes and edges alone: accepts exactly the well-formed ones without a directed cycle |
| GraphDocument.Kahn | framework/editor_api.py:298-312 | visits distinct nodes in forward order, and whatever is not visited waits for something not visited |
| GraphDocument.Indegrees | framework/editor_api.py:298-301 | an indegree is the number of predecessors |
| GraphDocument.StuckIsCyclic | framework/editor_api.py:302-312 | if a node is left over, there is a directed cycle |
| GraphDocument.TopologicalIsAcyclic | framework/editor_api.py:302-312 | if all are visited in order, there is none |
| GraphDocument.CollectNodes | framework/editor_api.py:228-264 | node checks pass exactly if every node is in form and no id repeats |
| GraphDocument.CollectEdges | framework/editor_api.py:266-296 | edge checks pass exactly if every edge fits what came before, and the adjacency is that of the edges |
| CursorCodec.CursorRoundTrip | framework/crud.py:186-202 | decoding an encoded cursor gives back its two keys, for all integers and strings |
| CursorCodec.CursorInjective | framework/crud.py:186-188 | so different positions have different cursors |
| CursorCodec.CursorIsUrlSafe | framework/crud.py:186-188 | a cursor is "v1." and letters of the url-safe alphabet, without padding |
| CursorCodec.KnownCursor | framework/crud.py:186-188 | the cursor 5 at key 7 is "v1.WzUsN10" |
| CursorCodec.KnownVectors | framework/crud.py:186-188 | test vectors of RFC 4648, and the two letters special to the url-safe alphabet |
| CursorCodec.Base64RoundTrip | framework/crud.py:186-202 | base64url text of any bytes decodes to those bytes |
| CursorCodec.PaddingRestored | framework/crud.py:188-195 | stripping the padding and adding what the length calls for restores it |
| CursorCodec.PairRoundTrip | framework/crud.py:187-200 | the JSON array of two keys reads back |
| CursorCodec.CharsRoundTrip | framework/crud.py:187-197 | JSON string escapes, surrogate pairs included, read back |
| CursorCodec.IntRoundTrip | framework/crud.py:187-197 | integers of any size and sign read back |
| Pagination.PageAnswer | framework/crud.py:211-244 | a page is the first rows after the cursor in order, up to the effective limit; has_more and next_cursor are there exactly if more rows are, and the cursor stands for the last row returned |
| Pagination.PageSize | framework/crud.py:206 | the limit asked for, or the default one, or the maximum, whichever is the least that applies |
| Pagination.RefusedIff | framework/crud.py:191-214 | refused are exactly a limit below one, an offset or sort, and a cursor that does not decode |
| Pagination.RowsAscend | framework/crud.py:231-234 | rows in order ascend by cursor, then by key: numbers by value, strings by their first difference |
| Pagination.WalkIncreases | framework/crud.py:211-244 | following next_cursor returns strictly increasing keys whatever happens to the table in between |
| Pagination.WalkReturnsOnlyMatches | framework/crud.py:205-244 | every row returned matched the filter and was in the table when its page was read |
| Pagination.WalkMissesNothing | framework/crud.py:211-244 | a wanted row that stays is returned unless the walk has not come to it yet |
| Pagination.EachStayingRowOnce | framework/crud.py:211-244 | a finished walk over a changing table with varying limits returns every row present and unchanged throughout exactly once |
| Pagination.FixedTableEnumerated | framework/crud.py:211-244 | on a table that does not change the pages add up to the filtered rows in order |
| Pagination.FixedTableEnds | framework/crud.py:237-244 | and the walk stops, after at most one request more than there are rows |
| Roles.Walk | framework/security.py:292-306 | the inner recursion ends on any graph, marks only roles reachable from its argument, leaves nothing it marked without its parents, and adds exactly their permissions |
| Roles.ExpandRolePermissions | framework/security.py:292-309 | the result is exactly the union of the permissions of the roles reachable from the given set, with cycles and missing parents |
| Roles.ExpansionMonotone | framework/security.py:292-309 | fewer roles never grant more |
| Roles.HeirGrantsAll | framework/security.py:303-305 | a role grants what the roles it inherits grant |
| Text.StoredNamesAreThePieces | framework/security.py:553-554 | whatever they contain, names stored comma-joined are read back as the nonempty pieces they fall into at commas |
| Text.StoredNamesComeBack | framework/security.py:407-408 | they come back as they were, empties aside, if and only if none has a comma |
| Text.SplitJoin | framework/security.py:553-554 | splitting undoes joining for names without the separator |
| Delegation.MatchesTransitive | framework/security.py:312-313 | wildcard matching composes |
| Delegation.MatchesIffGrants | framework/security.py:312-313 | a grant covers a permission if and only if it is "*", that very text, or a stem and ".*" where the permission is the stem, a dot and any rest |
| Delegation.WhatAGrantMeans | framework/security.py:312-313 | for each form: "*" grants everything, stem.* exactly the names that begin with the stem and a dot, any other grant its own text only |
| Delegation.HasIffGranted | framework/security.py:316-317 | a set of permissions has one if and only if it is empty or some member grants it; "*" has all |
| Delegation.DelegableIffGranted | framework/security.py:479-506 | permissions may be delegated if and only if each is granted by one of the caller's |
| Delegation.CoversAll | framework/security.py:478-480 | if each permission of b is matched by one of a, then a allows whatever b allows |
| Delegation.ReadBack | framework/security.py:407-420 | a stored key authenticates until it expires; its principal has the tenant, expiry and rates asked for, and holds the nonempty comma pieces of the names, whatever text they are, and what the roles among them expand to |
| Delegation.AllowedKeyIsWithinIff | framework/security.py:483-530 | a key the check allows is within its issuer in permissions, roles, tenant, expiry, rate and burst, if and only if the names as they will be read back pass the tests on names |
| Delegation.CheckIsExactIff | framework/security.py:483-527 | without delegate_any, the check allows exactly the keys of known roles that will be within their issuer, if and only if testing the names asked for and the names read back comes to the same |
| Delegation.ChainNeverEscalates | framework/security.py:483-530 | along a chain of any length from a root without delegate_any, whose links' names pass the tests as they are read back, nobody exceeds the root, so nobody ever holds delegate_any |
| Delegation.ChainWithinIff | framework/security.py:483-530 | that condition is exact: every key of a chain is within its issuer if and only if every link meets it |
| Delegation.CrossTransitive | framework/security.py:523-526 | the cross-multiplied rate test composes |
| Delegation.LimiterGivesNoMore | framework/factory.py:379-385 | within means: capacity and refill that the limiter derives allow no more calls in any interval than the root's |
| Delegation.RateOfACredential | framework/factory.py:379-385 | a credential is limited by its own figures where it has them, the project's where they are missing or zero, with the number of requests for a missing burst |
| Delegation.OwnRightsMayBePassedOn | framework/security.py:496-527 | the check is not too strict: whatever a key row holds, its principal may pass on its roles and permissions, stopped only by roles no longer configured |
| Delegation.DelegateAny | framework/security.py:489-499 | who holds the permission to delegate anything may issue any key of known roles |
| Delegation.CommaFreeIsNeeded | framework/security.py:483-560 | an input for which it fails, for any further name: the check allows a name with a comma as a whole, and the stored and authenticated key holds the further name, so it is not within its issuer |
| EditorAuthority.StarMatchesAnyStretch | framework/editor_identity.py:335-341 | the glob matcher's star stands for any stretch of text |
| EditorAuthority.GlobIffStandsFor | framework/editor_identity.py:335-341 | a text matches a pattern if and only if it can be cut into one piece for each pattern character: any stretch for a star, one character for a question mark, itself for any other |
| EditorAuthority.WhatAMemberMay | framework/editor_identity.py:390-408 | what a member may do, told by the roles held: a permission if some role grants it, a document if some role allows and no role denies it, a table if some role allows it; the founder may do everything |
| EditorAuthority.FounderAccessIsTotal | framework/editor_identity.py:737-745 | the access that founders and legacy members read permits everything |
| EditorAuthority.OwnRightsMayBeHandedOn | framework/editor_identity.py:356-371 | the rule is not too strict: at a lower rank a caller may hand on any of its own rights with all of its denials |
| EditorAuthority.ScopeContained | framework/editor_identity.py:335-341 | a scope within others reaches no key they do not reach |
| EditorAuthority.LiteralScopeExact | framework/editor_identity.py:335-341 | for a scope without wildcards the test holds if and only if it is contained |
| EditorAuthority.MergesUnique | framework/editor_identity.py:737-770 | the accumulated access is determined by the roles held |
| EditorAuthority.MergedContained | framework/editor_identity.py:356-408 | a member all of whose roles are within a caller's authority has every permission, document and database key contained in the caller's, deny rules included, and a lower rank |
| EditorAuthority.HandedOnStaysContained | framework/editor_identity.py:356-408 | at any distance down a line of delegations nothing is permitted that the first does not permit |
| EditorAuthority.HandedOnRanksFall | framework/editor_identity.py:356-361 | and each step down costs at least one rank |
| EditorStore.EditorIdentityStore.AccessWithConnection | framework/editor_identity.py:737-770 | the loop over the joined rows accumulates exactly the permissions, scopes and highest rank of the roles that memberships in the project and global ones give; founders and legacy members read an access that permits everything |
| EditorStore.SafeNameIs | framework/editor_identity.py:39-40 | a name is a letter or digit, or two of them with up to 62 of these and " ._-" between |
| EditorStore.SafePatternIs | framework/editor_identity.py:840-842 | a scope pattern is up to 160 characters of its alphabet without ".." anywhere |
| EditorStore.SameNameIff | framework/editor_identity.py:854-855 | two names are taken for the same exactly if they differ in the case of letters only |
| EditorStore.EditorIdentityStore.SaveRole | framework/editor_identity.py:829-897 | succeeds exactly under the stated checks, then writes the role and revokes every pending invitation after a change; otherwise nothing changes; stored roles stay in the safe alphabet |
| EditorStore.EditorIdentityStore.ReplaceMemberships | framework/editor_identity.py:1089-1163 | succeeds exactly under the stated checks; then the member's access in every project is contained in the caller's with a lower rank, its pending invitations are void and, if inactive, its sessions end; otherwise nothing changes |
| EditorStore.EditorIdentityStore.CreateInvitation | framework/editor_identity.py:899-928 | succeeds exactly under the stated checks and stores each wanted role as it is now; keeps every live invitation |
| EditorStore.EditorIdentityStore.AcceptInvitation | framework/editor_identity.py:930-1053 | succeeds exactly if the invitation is unused, unexpired, unchanged and still within its active creator's authority and the name is free; then the new member is contained in the creator and the invitation is used up; otherwise nothing changes |
| EditorStore.EditorIdentityStore.NewMemberContained | framework/editor_identity.py:356-371 | if all roles a user holds are within a caller, every access the user reads is contained in the caller |
| EditorStore.EditorIdentityStore.OnlyThisAccess | framework/editor_identity.py:968-976 | redeeming depends only on the access the creator has at that moment |
| Operations.ExecuteOnConnection | framework/operations.py:164-209 | the loop over the statements is the specification's recursion |
| Operations.FinishesIffAllPass | framework/operations.py:164-209 | an operation finishes in a state exactly if each statement, on what the ones before it left, runs and passes its guards |
| Operations.StopsAtFirst | framework/operations.py:164-199 | an operation that does not finish ends with the reason of its first statement that does not go through |
| Operations.OutputIsByName | framework/operations.py:165-209 | the output holds under each name the last result of that name, and the unnamed results in order under "results"; each result is what its statement reports of the database it ran on: a count, the first row if any, all rows |
| Idempotency.OperationLedger.Transaction | framework/operations.py:261-326 | the transaction body, throttled cleanup included, is the specification's step for the rows its query chose |
| Idempotency.OperationLedger.SelectOldest | framework/operations.py:274-293 | the cleanup batch is the oldest of the expired rows of this operation, up to the limit |
| Idempotency.OperationLedger.CleanupDue | framework/operations.py:62-68 | due exactly when the remembered time has come, and then put off by the interval |
| Idempotency.OperationLedger.Recover | framework/operations.py:327-354 | after an integrity error the answer is the row's: conflict, replay, or the error again |
| IdempotencyTheorems.WithinTtlAnsweredFromTheRow | framework/operations.py:294-354 | after any run, an attempt that completes within the TTL of its key's last execution runs nothing and is answered from it: its response for the same fingerprint, a conflict for another |
| IdempotencyTheorems.NewOrExpiredRuns | framework/operations.py:294-326 | after any run, an attempt whose key was never executed, or last more than the TTL ago, runs its statements: what they do is committed and answered, unless they fail or the answer is too big |
| IdempotencyTheorems.ExpiredReplayIffStatementsViolate | framework/operations.py:294-354 | after any run, an attempt that finds its row expired takes the error path exactly if its statements raise an integrity error, and then the expired row of the last execution answers: replayed for the same fingerprint, a conflict for another |
| IdempotencyTheorems.ExpiredReplayHappens | framework/operations.py:294-354 | an input: one execution, and more than the TTL later the same request replayed |
| IdempotencyTheorems.StepTracks | framework/operations.py:261-326 | rows are the last executions and complete; an execution whose row is gone lies more than the TTL back |
| IdempotencyTheorems.ExecutionsAreSeparated | framework/operations.py:261-326 | over any run two committed executions of one key are more than the TTL apart |
| IdempotencyTheorems.ReplaysTheLastExecution | framework/operations.py:327-354 | over any run a replay is the response of the key's last committed execution, with the same fingerprint, and nobody is told that an execution is in progress |
| IdempotencyTheorems.BusinessIsWhatExecuted | framework/operations.py:308-326 | the business state is what the executed attempts, each once and in order, make of it |
| IdempotencyTheorems.DueCleanupSweeps | framework/operations.py:274-293 | a due cleanup in a transaction that commits leaves an expired row of its operation only if the batch was full, and then every row it removed is older |
| IdempotencyTheorems.CleanupWaits | framework/operations.py:62-68 | the next cleanup waits for the interval, or for a second after a full batch, and a rollback does not take that back |
| IdempotencyTheorems.IntervalIs | framework/operations.py:62-68 | the interval is a tenth of the TTL, at least one minute and at most ten |
| Media.TotalSplit | framework/media.py:108-114 | the sum of stored sizes splits at any row |
| MediaTheorems.StepInv | framework/media.py:95-223 | every step of interleaved saves and deletes keeps rows, objects, calls and usage in order |
| MediaTheorems.Reachable | framework/media.py:95-223 | in every reachable state each row has its object, and an owner's usage row counts at least what is stored, however its creation raced |
| MediaTheorems.SaveStaysWithinQuota | framework/media.py:125-181 | a save that succeeds leaves its owner within the quota and nobody else changed |
| MediaTheorems.NobodyExceedsQuota | framework/media.py:125-181 | over any run an owner stores at most the quota, or no more than at the start |
| MediaTheorems.DeleteNeverCutsShort | framework/media.py:209-217 | the CASE that keeps used_bytes from going negative is never needed |
| MediaTheorems.DeleteGivesBack | framework/media.py:203-217 | a delete that finds its row gives the owner exactly its bytes back, and nobody else anything |
| MediaTheorems.UsageFollowsStorage | framework/media.py:95-217 | over any run, once an owner has a usage row, what it counts beyond what is stored never changes; an exact row stays exact |
| MediaTheorems.AbortedSaveLeavesNothing | framework/media.py:171-181 | a refused save leaves neither row nor object nor usage |
| MediaServices.MediaService.StoredBytes | framework/media.py:108-114 | the query's sum is the total of the owner's rows |
| MediaServices.MediaService.EnsureUsageRow | framework/media.py:95-122 | makes a missing usage row with what is stored, leaves an existing one |
| MediaServices.MediaService.ReserveUsage | framework/media.py:125-137 | reserves exactly when the machine's transaction does; where usage counts what is stored, the upload's bytes are set aside on top of that and within the quota |
| MediaServices.MediaService.SaveMedia | framework/media.py:140-181 | the call, uninterrupted, is the run of its steps |
| MediaServices.MediaService.DeleteMedia | framework/media.py:191-223 | the call, uninterrupted, is the run of its steps: row and object are gone and the bytes given back, or it was not there and nothing changes |
| MediaServices.UninterruptedSave | framework/media.py:140-181 | alone, a save of content that the project (or the owner, if that is the scope) has already changes nothing and says so; any other succeeds exactly if there is no quota or usage and size stay within it, with row, object and usage as they should be; otherwise rows and objects are as before |
| MediaServices.FinishIsARun | framework/media.py:140-223 | an uninterrupted call is a run of the interleaving machine |
| MediaServices.DeletedByRun | framework/media.py:203-223 | the delete of a stored object can always go through: row, object and bytes are gone |
| Routes.RouteShadows | framework/doctor.py:49-60 | the flagged loop is: same length, each earlier segment a parameter or the same text, one a parameter, paths not equal |
| Routes.RouteCollisions | framework/doctor.py:150-161 | reports exactly each later route with the first route of the same method and normalized path |
| Routes.RouteShadowPairs | framework/doctor.py:162-172 | reports exactly the shadowed pairs |
| Routes.RouteDiagnostics | framework/doctor.py:150-172 | both, with method, path and owners of the two routes as they are, and nothing else |
| RouteTheorems.PathRoundTrip | framework/doctor.py:45-46 | a registered path cut into segments gives the segments it was made of |
| RouteTheorems.ParametersAreBraced | framework/doctor.py:49-60 | a segment is a parameter exactly if it is some name in braces |
| RouteTheorems.NormalizedPath | framework/doctor.py:39-42 | normalizing a registered path blanks its parameters and does nothing else |
| RouteTheorems.ReportedIffCovers | framework/doctor.py:39-60 | a pair is reported exactly if the earlier route answers whatever the later one answers |
| RouteTheorems.ReachableIffNotReported | framework/doctor.py:150-172 | a route is some request's first match exactly if no earlier route is reported against it |
| RouteTheorems.CleanIffAllReachable | framework/doctor.py:150-172 | there are no route diagnostics if and only if every route can be reached |

## Left out

- LeaseTheorems.Reachable: `ReloadingForge.close` does not wait for requests in the source either; once shutdown has begun the machine takes no new requests and no reload, so shutdown racing with them is not modelled.
- Reload.ReloadingForge.ReloadNow: one call at a time under the reload lock; what a boot does is a parameter, and interleaving with requests and closes is in the lease machine instead.
- RuntimeManagers.RuntimeManager.Start: starting the services of one runtime (engines, caches, limiters, hooks) is one step that succeeds or fails.
- CacheTheorems.AnswersAreFresh: assumes a backend that does not fail; the fail-open and bypass paths, `TieredCache` and the distributed Redis lock are not modelled. Namespace, generation and digest stand for the concatenated key string.
- LruCaches.MemoryTTLCache.Get: the store's own lock is taken as making each method one step.
- TokenBuckets.MemoryRateLimiter.Check: buckets are values in a map rather than shared objects; an overflow bucket's key is a value rather than a joined string; rounding of floating point is not modelled.
- TokenBuckets.RedisRateLimiter.Check: the script is one atomic step on a clock that does not go back.
- GraphRoots.ValidateDocument: whether schema_version equals 1, and the form of an identifier, of a node's fields and of its tokens, are booleans of the document; error texts are not modelled.
- CursorCodec.CursorRoundTrip: the decoder accepts canonical JSON and base64url only; other spellings that the library functions accept (white space, characters outside the alphabet, raw UTF-8, other JSON values) are refused, and only the encoder's own output matters to the theorem.
- Pagination.PageAnswer: cursor columns are not null, primary keys are unique, keys are integers or strings; coercing a hand-made cursor to another column type, hidden fields and offset pagination are not modelled.
- Roles.ExpandRolePermissions: the interpreter's recursion limit on very long inheritance chains is not modelled.
- Delegation.ChainNeverEscalates: for API keys; principals authenticated by a JWT carry no expiry. The impersonation check applies to issuing JWTs only and is left out, as are the key cache and one-time bootstrap.
- EditorAuthority.MergedContained: globs are those of the pattern alphabet that roles are validated against, which has no '['.
- EditorStore.EditorIdentityStore.SaveRole: names are taken as stripped, and lower case as that of ASCII.
- EditorStore.EditorIdentityStore.CreateInvitation: reading the roles and writing the invitation are one step; the acceptance compares fingerprints for that reason.
- EditorStore.EditorIdentityStore.AcceptInvitation: the preliminary look before hashing the password, the checks of name, password and display name, and the new session are left out.
- Idempotency.OperationLedger.Transaction: transactions are serial; the schema check of the body before it is left out; the stored JSON text is the value it stands for, and its length is a parameter.
- Operations.ExecuteOnConnection: a statement's effect is an arbitrary function of the database, with parameters resolved; whether its text is safe is a boolean.
- MediaTheorems.NobodyExceedsQuota: one quota configuration; file names, types and digests enter as given, owners already cut to 160 characters; a failing object deletion leaves an orphan object, never a row without one.
- RouteTheorems.CleanIffAllReachable: parameters fill whole segments and have plain names; path converters and redirects of trailing slashes are not modelled. Which routes a project generates is a parameter.
- Events, webhooks, audit, protection, data sources, HTTP client, feature packs, OpenAPI output, generated clients, editor messages, areas and calls: glue, or checks with one branch.
- SQL, Redis networking, file descriptors, symlinks, DNS and cryptography: each is one step on a map, an arbitrary function, or an injective one.
