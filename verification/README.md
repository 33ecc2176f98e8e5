# hort adapters, modelled and proved

hort is an artifact registry built from a domain core and adapters. This project models the adapters
that carry state or a protocol, and proves what they keep.

| component | files |
|---|---|
| JSON Web Key Set cache and refresh protocol of the OpenID Connect adapter | `JwksCache`, `JwksProtocol`, `JwksBudget`, `JwksSoundness`, `JwksSpacing`, `JwksForgotten`, `JwksRotation`, `JwksDecision`, `OidcFetch` |
| Ephemeral store, in process and on Redis | `EphemeralStore`, `EphemeralMeaning`, `EphemeralMemory`, `EphemeralRedis`, `EphemeralAgreement`, `EphemeralLocks`, `Decimal` |
| OSV advisory query | `OsvTypes`, `OsvKeys`, `OsvFinding`, `OsvSeverity`, `OsvFields`, `OsvSpec`, `OsvSbom`, `OsvQuery`, `OsvReport`, `OsvHistory`, `OsvDegrade`, `OsvNaive`, `OsvShared`, `OsvUpward`, `OsvAnswer`, `OsvSoften`, `OsvWorlds`, `Hex`, `Text` |
| Alias groups | `DisjointSet`, `AliasGraph`, `AliasGroups`, `AliasCollapse`, `AliasLimits`, `AliasUnion`, `AliasOrder` |
| OSV bulk feed and its watch | `OsvBulk`, `OsvEnqueue`, `OsvWatch`, `OsvDelay` |
| Signed event-chain checkpoints | `Json`, `Utf8`, `Timestamp`, `Rfc3339`, `ObjectListing`, `Checkpoint`, `CheckpointText`, `CheckpointWire`, `CheckpointAnchor` |
| Token revocation across replicas, user-agent truncation | `Revocation`, `RevocationReplicas`, `Utf8` (module `UserAgent`) |

How the models are built:

- Concurrent code (`resolve_jwk`, the per-key locks, the revocation listener) is a transition system.
  A step is one section between two suspension points, so every interleaving of tasks is a sequence of
  steps. The state carries a log of what happened, so a statement about a whole history is a statement
  about one reachable state.
- Objects that change in place are classes. Each method is proved against a value-level description of
  the operation, and the theorems are about that description.
- Time is a parameter. So are the network, the identity provider, the OSV service, the object store and
  everything a fault can do: replies, failures and timings are universally quantified.
- Library code enters as a function parameter with the property that is relied on as a hypothesis: the
  digest is collision free, a document reader reads what the printer prints, a signature verifies only
  on signed messages, the URL parser keeps scheme and host when a path is appended to the issuer.

The main results:

- **Key-set protocol.** In every reachable state the cache is the last document minus the kids evicted
  since; unexempted fetches are spaced out, exempted refreshes never outnumber evictions, and a whole
  history costs at most one refresh per quiet period plus one per eviction. Every key a call resolves to
  was published by a document current during that call. A re-check denies, serves or fetches under an exact
  condition on the log and the clock. Evictions of other kids change no decision about a kid. A kid newly
  published, or rotated under the same name, is recovered from with one fetch. A refresh returns the key set
  of the last reply of its second leg, if and only if both legs deliver.
- **Ephemeral store.** Both backends refine one versioned map with expiry; they return the same replies
  to every history in which the counters stay within Lua's exact numbers. These replies are exactly the ones
  the calls before them call for: what the last write left, unless it was deleted or its time is up, and
  swaps and counters that go by what they find. Interleaved locked calls, some of them dropped while they
  wait, are linearizable.
- **Advisories.** A query asks the feed about each named component of a covered ecosystem that is not
  cached, by its name, its ecosystem as the feed calls it and its version, and reports under its purl.
  Over every history of queries, evictions and faults, about whatever components, the cached, batched,
  deduplicated, hydrated query answers each component with the naive lookup's findings for it, or for an
  earlier component with the same cache key. Each finding is as it is or unread, and an unread one is
  never milder. Every history about a collection of components in which no fetch fails is answered
  naively if and only if those that share a key have the same naive answer, and there is a like
  condition for losing nothing whatever fails. A component of version `*` and the same one without a
  version share a key and need not agree. Where they do agree and a severity can be read from every
  advisory, an answer is the naive one if and only if no entry it uses, cached or fresh, lost a fetch.
  The union-find grouping is exactly the transitive closure of shared identifiers, and collapsing is
  idempotent. A collapsed finding is milder than an advisory of its group exactly when a sibling that
  was read, and that nobody beats, is; an advisory that was itself read with a score of at least 0.1 is
  never softened. There is an exact condition for the survivor of a group, and one for the record it
  keeps, to be the same in every order of arrival.
- **Bulk feed.** A pull reports success exactly when nothing in any archive was out of reach. No
  advisory that is published when it is modified falls between two ticks, and one published later is
  returned exactly when some tick that saves still finds it in its window. The checkpoint moves only when
  a scan is queued for every artifact the window matches.
- **Checkpoints.** What is emitted reads back, what does not verify is invisible, what reads back was
  emitted, and the signed bytes determine the checkpoint. Instants are read by a reader of RFC 3339 defined
  apart from the printer, and object keys sort by second.
- **Revocation.** Through a whole run, every stale token that is still cached has its notification
  queued or a flush pending, if and only if no step is one of three: a token goes stale while a replica
  that hears nothing caches it, a stale token enters a cache after its notification was handled, or a
  connection is replaced silently over the notification of a cached token. Each of the three is reached.

Where the code and its comments disagree, the model follows the code:

- The eviction backoff is described as a limit of one eviction per kid and backoff window
  (`crates/hort-adapters-oidc/src/lib.rs:1007-1027`). The timestamp map forgets its oldest entry at 1024,
  so the limit can be passed. `JwksForgotten.BackoffBroken` reaches such a state,
  `JwksSpacing.ThrottledExactlyWhen` says exactly when the throttle applies, and
  `JwksSpacing.EvictionsSpaced` gives the condition under which it always does.
- `crates/hort-adapters-advisory-osv/src/severity.rs:18-37` names `Medium` as the default for an unread
  severity. The caller falls back to `Critical`.
- The alias union is described as never dropping a collapsed member's own identifier
  (`crates/hort-domain/src/types/alias_group.rs:173-188`). It does so exactly when a group has more than
  seventeen identifiers, `AliasLimits.GroupStaysMatchableExactly`, and `AliasLimits.EighteenNamesLoseOne`
  is such a group.
- The winner and the union of aliases are described as independent of the order of arrival
  (`crates/hort-domain/src/types/alias_group.rs:83-97` and 269-270). Two records of a package under one
  identifier that compare equal are told apart by arrival alone, `AliasOrder.FirstTwinIsKept`. The record
  is order-free exactly under the condition of `AliasOrder.RecordIsOrderFreeExactly`, and the whole
  survivor exactly under that of `AliasOrder.SurvivorIsOrderFreeExactly`.
- The cache is described as one entry for each ecosystem, name and version, with distinct ones hashed apart
  (`crates/hort-adapters-advisory-osv/src/cache.rs:1-33`). An absent version is hashed like the version `*`,
  and the purl, which every finding carries, is not hashed. An npm manifest yields both kinds of version
  (`crates/hort-formats/src/npm.rs:1164-1178`). `OsvWorlds.StarHidesAdvisory` asks one adapter about both
  in turn, and the second answer lacks the advisory the feed has.
  `OsvShared.TransparentExactly` says exactly when such a thing cannot happen, and `OsvShared.ApartExactly`
  which components share a key.
- An advisory that fails to hydrate is described as staying at the fail-closed `Critical`
  (`crates/hort-adapters-advisory-osv/src/hydrate.rs:34-37`), and collapsing as never more permissive about a
  scored advisory (`crates/hort-domain/src/types/alias_group.rs:18-20`). The degraded finding is also cached,
  so later queries answer with it while the service is healthy again, `OsvHistory.OutageOutlivesItself`.
  And collapsing replaces it by any sibling that was read: `OsvSoften.OutageSoftens` is a query whose
  answer is milder because the fetch of a scored advisory failed. `OsvSoften.AnswerSoftenedExactly` says
  exactly when an answer is milder than an advisory, and that it never is milder than one that was read
  with a score of at least 0.1.
- Revoking is described as dropping the token from every replica's cache through the notification or the
  flush (`crates/hort-adapters-postgres/src/api_token_revocation_listener.rs:1-50`). A validation reads the
  token's row and its user's before it inserts into the cache
  (`crates/hort-app/src/use_cases/pat_validation_use_case.rs:570-667`), so it can insert a token whose
  notification has been handled, `RevocationReplicas.LateInsertStays`.
  `RevocationReplicas.CoveredExactlyWhen` says exactly when the description holds.
- A missing checkpoint row is described as a defensive fallback
  (`crates/hort-app/src/task_handlers/advisory_watch_tick.rs:137-149`). While the row is missing the window
  slides with the clock, and a failed tick loses what slides out. `OsvWatch.ColdStartForgets` is such a
  history, and `OsvWatch.ColdStartExactly` says exactly which records are lost.

## Model

| member | source | states |
|---|---|---|
| `Jwks.DocumentKeysAreLastEntries` | crates/hort-adapters-oidc/src/lib.rs:960-975 | the map built from a document holds, for each kid listed, the last entry listed for it, and nothing else |
| `Jwks.RecordedStaysBounded` | crates/hort-adapters-oidc/src/lib.rs:1076-1089 | recording keeps the map within 1024 entries, stamps the kid, and leaves every other entry it still holds as it was |
| `Jwks.EvictsStaysBounded` | crates/hort-adapters-oidc/src/lib.rs:1028-1062 | an effective eviction keeps both bounded structures within 1024 and never leaves an owed kid cached |
| `Jwks.SmallestKid` | crates/hort-adapters-oidc/src/lib.rs:984-1003 | the least kid of a set in lexicographic order, or none exactly when the set is empty |
| `Jwks.JwksCache.constructor` | crates/hort-adapters-oidc/src/lib.rs:921-930 | a new cache is empty, never fetched and owes nothing |
| `Jwks.JwksCache.Replace` | crates/hort-adapters-oidc/src/lib.rs:960-1005 | installs the document, stamps freshness and cooldown together, clears every owed refresh, keeps the eviction timestamps, and reports a rotation exactly when a kid appeared, naming the least added and the least removed |
| `Jwks.JwksCache.RecordEvictionTimestamp` | crates/hort-adapters-oidc/src/lib.rs:1076-1089 | the kid is stamped; at the cap exactly one entry is given up, and it is one no other is older than |
| `Jwks.JwksCache.OldestKid` | crates/hort-adapters-oidc/src/lib.rs:1078-1086 | a kid whose timestamp no other kid's precedes |
| `Jwks.JwksCache.MarkRefreshOwed` | crates/hort-adapters-oidc/src/lib.rs:1058-1062 | the owed set stays within 1024, loses nothing, gains at most this kid, and leaves it unmarked only when the set is at the cap |
| `Jwks.JwksCache.Evict` | crates/hort-adapters-oidc/src/lib.rs:1028-1051 | reports false and changes nothing when throttled; otherwise removes the kid, owes it a refresh and stamps it only for a signature mismatch |
| `JwksProtocol.EvictedSinceMeaning` | crates/hort-adapters-oidc/src/lib.rs:1020-1051 | the kids evicted since the last refresh are those with an eviction in the log that no refresh follows |
| `JwksProtocol.ShapeKept` | crates/hort-adapters-oidc/src/lib.rs:473-567 | every step keeps: one permit holder, exactly the tasks between acquire and release; calls start in the past; the log is in time order; both caps hold |
| `JwksProtocol.RepresentsKept` | crates/hort-adapters-oidc/src/lib.rs:473-567 | every step keeps the cache equal to the last document minus the kids evicted since, with the freshness of that document |
| `JwksBudget.RepresentationHolds` | crates/hort-adapters-oidc/src/lib.rs:871-1089 | in every reachable state: the representation above, both caps, owed kids are the evicted ones below the cap and are never cached, and at most one task is past the refresh gate |
| `JwksBudget.FetchBudget` | crates/hort-adapters-oidc/src/lib.rs:498-550 | over every interleaving, a fetch not made for an owed kid begins at least min(ttl, backoff) after every completed refresh, and refreshes made for owed kids never outnumber effective evictions |
| `JwksBudget.RefreshRateBounded` | crates/hort-adapters-oidc/src/lib.rs:498-550 | by any instant, completed refreshes number at most one per quiet period, plus one, plus one per eviction |
| `JwksSoundness.FreshReadJustified` | crates/hort-adapters-oidc/src/lib.rs:473-520 | a cache read judged fresh at an earlier instant than the lock is still justified by a document current during the call |
| `JwksSoundness.ResolvedKeysAreJustified` | crates/hort-adapters-oidc/src/lib.rs:473-567 | in every reachable state, every key a call resolved to is that kid's entry in a document that was current and unexpired at an instant of the call, or that this call fetched |
| `JwksSpacing.ThrottledExactlyWhen` | crates/hort-adapters-oidc/src/lib.rs:1028-1051 | in every reachable state, within the backoff of its last eviction a kid is throttled if fewer than 1024 other kids were evicted no earlier, and only if fewer than 1024 were evicted later; if and only if, where no other kid was evicted at that very instant |
| `JwksSpacing.EvictionsSpaced` | crates/hort-adapters-oidc/src/lib.rs:1028-1089 | if every window of one backoff evicts at most 1024 kids, mismatch evictions of one kid are at least one backoff apart over the whole history, drop-oldest included |
| `JwksForgotten.BackoffBroken` | crates/hort-adapters-oidc/src/lib.rs:1076-1089 | a reachable state in which one kid was evicted for a mismatch at instants 0 and 1 under a backoff of 10 |
| `JwksRotation.EvictionIsolation` | crates/hort-adapters-oidc/src/lib.rs:1020-1070 | between two refreshes, whatever happens to other kids leaves the hit, deny or fetch decision for a kid the same at every instant |
| `JwksRotation.AloneIsARun` | crates/hort-adapters-oidc/src/lib.rs:473-567 | the outcome computed for a call with no other task active is reached by a sequence of protocol steps, with the fetches counted; which outcome it is, `JwksDecision.DecidedExactly` and `JwksDecision.NewKidRecovers` say |
| `JwksRotation.ValidationIsARun` | crates/hort-adapters-oidc/src/lib.rs:371-464 | a lone validation, with its eviction on a mismatch, is reached by a sequence of protocol steps |
| `JwksRotation.RotationRecovers` | crates/hort-adapters-oidc/src/lib.rs:371-464 | after a rotation under the same kid, the first token past the backoff is accepted with one fetch (stale cache) or evicts the kid, and then the next is accepted after exactly one fetch however recent the last refresh |
| `JwksDecision.DecidedExactly` | crates/hort-adapters-oidc/src/lib.rs:498-545 | in every reachable state a re-check is denied if and only if the last refresh is still fresh, the call began within the cooldown after it, it does not list the kid or the kid was evicted since, and the kid is not owed a refresh; it is served if and only if that refresh is fresh and lists the kid, not evicted since, and then with the last entry listed; otherwise, and only then, it goes on to fetch |
| `JwksDecision.FirstLookExactly` | crates/hort-adapters-oidc/src/lib.rs:474-489 | the first look serves the kid if and only if the last refresh was fresh when the call began and lists the kid, not evicted since, with the last entry listed |
| `JwksDecision.OwedByLog` | crates/hort-adapters-oidc/src/lib.rs:1052-1062 | below the cap of 1024, the kids owed a refresh are exactly those evicted since the last one |
| `JwksDecision.NewKidRecovers` | crates/hort-adapters-oidc/src/lib.rs:473-567 | however a lone call goes, from any reachable idle state, for a kid the last refresh does not serve and once its cooldown is over: when it comes back it has made exactly one fetch, and it has found a key if and only if the fetched document lists the kid, namely the last entry listed |
| `JwksDecision.NewKidIsAnswered` | crates/hort-adapters-oidc/src/lib.rs:473-567 | such a call can come back at any later instants, with the key |
| `OidcFetch.CheckHop` | crates/hort-adapters-oidc/src/internal.rs:184-202 | a hop is allowed if and only if it keeps scheme and host; the scheme refusal is given exactly when only the scheme differs |
| `OidcFetch.CheckJwksUriBound` | crates/hort-adapters-oidc/src/internal.rs:511-547 | the declared location passes if and only if it parses and has the issuer's scheme and host; unparsable is reported exactly when either side has no host |
| `OidcFetch.ReadCapped` | crates/hort-adapters-oidc/src/internal.rs:385-414 | the body is returned if and only if the stream is intact and within the cap, and then whole; too-large exactly when some intact prefix exceeds the cap |
| `OidcFetch.BodyInOrder` | crates/hort-adapters-oidc/src/internal.rs:385-414 | a body is its chunks in the order they arrive |
| `OidcFetch.DiscoveryUrl` | crates/hort-adapters-oidc/src/lib.rs:669-673 | the issuer without its trailing slashes, followed by the well-known path |
| `OidcFetch.GetCappedBody` | crates/hort-adapters-oidc/src/internal.rs:290-321 | whatever the upstream answers, at most four requests are made and all are on the first one's origin; the body of the last reply is returned if and only if a trail of redirects on that origin ends in a successful reply, intact and within the cap, and there is one such trail at most; too-large is reported exactly when such a reply outgrows the cap |
| `OidcFetch.FetchJwks` | crates/hort-adapters-oidc/src/lib.rs:669-729 | a whole refresh makes at most eight requests, every one with the issuer's scheme and host; it succeeds if and only if the discovery leg delivers a document that declares a location bound to the issuer and the leg that begins there delivers a key set, and its result is the key set in the last reply of that leg |
| `EphemeralStore.ApplyOnShown` | crates/hort-adapters-ephemeral-memory/src/store.rs:137-148 | states that show the same live entries give the same reply to every call and show the same entries after it |
| `EphemeralStore.ApplyVersions` | crates/hort-adapters-ephemeral-memory/src/store.rs:171-257 | one call raises versions by at most one |
| `EphemeralMeaning.AnswersExactly` | crates/hort-adapters-ephemeral-memory/src/store.rs:164-334 | a list of replies is the port's if and only if each is what the calls before it and their replies call for: a read gives the value the last write left if and only if nothing deleted the key since and the deadline of that write, or of the last extension made while it stood, has not come; a write on condition succeeds exactly on a free key, or on the version found, which is one more for every write that found one standing; a counter counts from the number found, below the cap |
| `EphemeralMeaning.KeysAreIndependent` | crates/hort-adapters-ephemeral-memory/src/store.rs:164-334 | the replies to the calls on a key are those of a history of these calls alone |
| `EphemeralMemory.InMemoryEphemeralStore.LiveEntry` | crates/hort-adapters-ephemeral-memory/src/store.rs:137-148 | returns the entry unless it expired, and removing an expired one changes nothing any call can see |
| `EphemeralMemory.InMemoryEphemeralStore.Get` | crates/hort-adapters-ephemeral-memory/src/store.rs:166-169 | replies as the abstract map does |
| `EphemeralMemory.InMemoryEphemeralStore.Put` | crates/hort-adapters-ephemeral-memory/src/store.rs:171-188 | refines the abstract put; the version continues from a live entry and starts at one otherwise |
| `EphemeralMemory.InMemoryEphemeralStore.PutIfAbsent` | crates/hort-adapters-ephemeral-memory/src/store.rs:190-220 | refines the abstract call: stores and reports true exactly when no live entry is there |
| `EphemeralMemory.InMemoryEphemeralStore.CompareAndSwap` | crates/hort-adapters-ephemeral-memory/src/store.rs:222-257 | refines the abstract call: swaps exactly on the expected live version |
| `EphemeralMemory.InMemoryEphemeralStore.Delete` | crates/hort-adapters-ephemeral-memory/src/store.rs:259-262 | refines the abstract delete: exactly this key is gone |
| `EphemeralMemory.InMemoryEphemeralStore.ExtendTtl` | crates/hort-adapters-ephemeral-memory/src/store.rs:264-284 | refines the abstract extension: a live entry gets the new deadline, an expired one is not revived |
| `EphemeralMemory.InMemoryEphemeralStore.TryIncrementCounter` | crates/hort-adapters-ephemeral-memory/src/store.rs:286-334 | refines the capped counter: one more below the cap, none at it, and an error on text that is no number |
| `EphemeralMemory.InMemoryEphemeralStore.Sweep` | crates/hort-adapters-ephemeral-memory/src/store.rs:70-110 | removes expired entries and nothing a call could still see, and drops only locks of removed keys that nobody holds |
| `EphemeralRedis.TtlExact` | crates/hort-adapters-ephemeral-redis/src/store.rs:127-142 | the seconds sent, through a double, equal the duration if and only if it is a positive whole number of seconds the double holds exactly, or the largest value the command takes |
| `EphemeralRedis.FaithfulIsMet` | crates/hort-adapters-ephemeral-redis/src/store.rs:46-142 | the hypotheses on Lua's and the double's arithmetic are met by an interpreter that is exact up to 2^53 |
| `EphemeralRedis.RedisEphemeralStore.Get` | crates/hort-adapters-ephemeral-redis/src/store.rs:185-209 | replies as the abstract map does |
| `EphemeralRedis.RedisEphemeralStore.Put` | crates/hort-adapters-ephemeral-redis/src/store.rs:46-60 | the script refines the abstract put |
| `EphemeralRedis.RedisEphemeralStore.PutIfAbsent` | crates/hort-adapters-ephemeral-redis/src/store.rs:61-72 | the script refines the abstract put-if-absent |
| `EphemeralRedis.RedisEphemeralStore.CompareAndSwap` | crates/hort-adapters-ephemeral-redis/src/store.rs:73-94 | the script refines the abstract compare-and-swap, through the decimal text of the version |
| `EphemeralRedis.RedisEphemeralStore.Delete` | crates/hort-adapters-ephemeral-redis/src/store.rs:272-279 | refines the abstract delete: exactly this key is gone |
| `EphemeralRedis.RedisEphemeralStore.ExtendTtl` | crates/hort-adapters-ephemeral-redis/src/store.rs:281-294 | refines the abstract extension |
| `EphemeralRedis.RedisEphemeralStore.TryIncrementCounter` | crates/hort-adapters-ephemeral-redis/src/store.rs:95-120 | the script refines the capped counter while numbers print as decimal text |
| `EphemeralAgreement.ServeFromMemory` | crates/hort-adapters-ephemeral-memory/src/store.rs:164-334 | over every history of calls, with sweeps anywhere between them, the replies are the abstract map's, which are those the calls before call for |
| `EphemeralAgreement.ServeFromRedis` | crates/hort-adapters-ephemeral-redis/src/store.rs:184-320 | over every history in which the keys it increments hold text that both backends read as one number Lua adds to exactly, for as many increments as follow, or that neither reads as a number, the replies are the abstract map's, which are those the calls before call for; other keys may hold any bytes |
| `EphemeralAgreement.BackendsAgree` | crates/hort-adapters-ephemeral-redis/src/store.rs:184-320 | the two backends return the same replies to every such history, those the calls before call for |
| `EphemeralAgreement.CounterTextDiverges` | crates/hort-adapters-ephemeral-redis/src/store.rs:95-120 | the bound on counters is needed: once Lua prints a number in another notation the stored bytes differ |
| `EphemeralLocks.AtomicallyIsThePort` | crates/hort-adapters-ephemeral-memory/src/store.rs:190-334 | the indivisible call used for linearization is the abstract map's call on a live key |
| `EphemeralLocks.CallsLinearize` | crates/hort-adapters-ephemeral-memory/src/store.rs:122-132 | in every state of every interleaving of lock lookup, insert, acquire, drop while queued, read, re-read, write and release, the entry and all replies are those of some order of whole calls, each taking effect once between its start and its return, or never if it was dropped |
| `EphemeralLocks.ConcurrentIncrements` | crates/hort-adapters-ephemeral-memory/src/store.rs:286-334 | of concurrent increments from c, n of which run to completion and the others are dropped while queued, exactly min(n, max - c) succeed, returning c + 1, c + 2, ... each once |
| `EphemeralLocks.CallAlone` | crates/hort-adapters-ephemeral-memory/src/store.rs:190-334 | from any reachable idle state a call with nothing beside it runs to completion with the effect and reply of the indivisible call |
| `EphemeralLocks.AtMostOneSwap` | crates/hort-adapters-ephemeral-memory/src/store.rs:222-257 | of any number of calls expecting one version below the limit, whatever else is interleaved, at most one swaps |
| `EphemeralLocks.SwapRepeatsAtTheLimit` | crates/hort-adapters-ephemeral-memory/src/store.rs:222-257 | at the largest version the counter saturates: a run in which two calls that expect it both swap |
| `OsvTypes.PrepareComponents` | crates/hort-adapters-advisory-osv/src/lib.rs:1032-1055 | keeps, in order, exactly the named components of ecosystems the feed covers |
| `OsvSbom.LabelsExactly` | crates/hort-adapters-advisory-osv/src/ecosystem.rs:16-32 | the feed's labels of the eleven ecosystems it covers, and none of the others |
| `OsvSbom.PreparedExactly` | crates/hort-adapters-advisory-osv/src/lib.rs:1032-1055 | position by position, exactly the named components of covered ecosystems are kept, in order, each with its own name, feed label, version and purl |
| `OsvSbom.MissesExactly` | crates/hort-adapters-advisory-osv/src/lib.rs:715-752 | of these, exactly those with no cached findings are asked about, in order |
| `OsvKeys.ComponentPreimagesEqual` | crates/hort-adapters-advisory-osv/src/cache.rs:42-57 | for names free of the separator, two components hash the same text if and only if they agree, an absent version counting as the literal `*` |
| `OsvKeys.VulnPreimagesEqual` | crates/hort-adapters-advisory-osv/src/cache.rs:101-113 | the same for advisory id and modification time |
| `OsvKeys.SeparatorInNameCollides` | crates/hort-adapters-advisory-osv/src/cache.rs:42-57 | the hypothesis is needed: a separator inside a name makes two different components collide |
| `OsvKeys.ComponentKeysEqual` | crates/hort-adapters-advisory-osv/src/cache.rs:68-76 | under a collision-free digest, cache keys are equal if and only if the hashed texts are |
| `OsvKeys.KeyspacesDisjoint` | crates/hort-adapters-advisory-osv/src/cache.rs:120-126 | no component key is an advisory key, though one prefix extends the other |
| `Hex.EncodeHex` | crates/hort-adapters-advisory-osv/src/cache.rs:130-148 | the loop writes two lowercase digits per byte |
| `OsvSpec.UntouchedIsNaive` | crates/hort-adapters-advisory-osv/src/lib.rs:808-822 | a component none of whose advisories failed to hydrate is built as the naive lookup builds it |
| `OsvSpec.SharedKeyExactly` | crates/hort-adapters-advisory-osv/src/cache.rs:42-57 | separator-free components share a cache key if and only if they agree on ecosystem, name and version, an absent version counting as `*`; the purl plays no part |
| `OsvSpec.StoreFindings` | crates/hort-adapters-advisory-osv/src/lib.rs:298-333 | writing what was built for a component, whichever others share its key, keeps the cache truthful: every entry is what was built for the component and the failed fetches noted under its key |
| `OsvSpec.StoreRecord` | crates/hort-adapters-advisory-osv/src/hydrate.rs:181-214 | writing a record keeps the cache truthful |
| `OsvSpec.SafeForPath` | crates/hort-adapters-advisory-osv/src/hydrate.rs:236-256 | an id that is asked for is not empty and holds nothing that could end a path segment |
| `OsvQuery.PostBatch` | crates/hort-adapters-advisory-osv/src/lib.rs:334-435 | a reply whose length disagrees with the questions is refused whole; an accepted one answers each question in place |
| `OsvQuery.FetchMisses` | crates/hort-adapters-advisory-osv/src/lib.rs:766-806 | for every batch size, every miss is paired with its own answer, in order; the questions posted are one per miss, in order, each with its name, ecosystem and version, all of them if the replies come and the first of them otherwise |
| `OsvQuery.DistinctVulns` | crates/hort-adapters-advisory-osv/src/lib.rs:449-466 | exactly the identified advisories the answers mention, each once |
| `OsvQuery.OsvAdvisoryAdapter.LookUp` | crates/hort-adapters-advisory-osv/src/lib.rs:715-752 | fails exactly when a cache read does; otherwise splits the components into what is cached and the misses, in order |
| `OsvQuery.OsvAdvisoryAdapter.HydrateOne` | crates/hort-adapters-advisory-osv/src/hydrate.rs:98-139 | gives what the service has for the id, or nothing only if the fetch fails or the service has nothing; an uncached id whose fetch fails gives nothing; only its own cache entry changes, and the cache stays truthful |
| `OsvQuery.OsvAdvisoryAdapter.HydrateRecords` | crates/hort-adapters-advisory-osv/src/hydrate.rs:78-94 | resolves every advisory asked about but those whose own fetch failed, and requests none twice |
| `OsvQuery.OsvAdvisoryAdapter.StoreAnswer` | crates/hort-adapters-advisory-osv/src/lib.rs:814-830 | the findings built and written back for a component are the naive ones with the failed advisories unhydrated, the entry is noted as this component's, and the cache stays truthful |
| `OsvQuery.OsvAdvisoryAdapter.Query` | crates/hort-adapters-advisory-osv/src/lib.rs:705-841 | for whatever components and every mix of hits, misses, faults and chunking, the questions posted are one for each named component of a covered ecosystem in the bill of materials that is not cached, in order, each with that component's name, its ecosystem's feed label and its version; an answer is what is cached for the hits and what the failed fetches leave of the rest; only advisories whose own fetch failed are missing, and all are of which every fetch fails and no copy is cached; of the components built for one key the last is cached; no advisory is requested twice; and the cache stays truthful even when the query fails half way |
| `OsvReport.NaiveIsReport` | crates/hort-adapters-advisory-osv/src/lib.rs:705-841 | the naive answer for a bill of materials is, for each named component of a covered ecosystem in order, one finding for each advisory the feed has under its name, feed label and version, carrying its purl |
| `OsvReport.AnswerIsReport` | crates/hort-adapters-advisory-osv/src/lib.rs:705-841 | an answer is what is cached and that report on the components that are not |
| `OsvHistory.AnswerIsArranged` | crates/hort-adapters-advisory-osv/src/lib.rs:705-841 | up to order, an answer is one part per component, each built for the component itself or for the one its cache entry was built for |
| `OsvHistory.CleanAnswerIsNaive` | crates/hort-adapters-advisory-osv/src/lib.rs:705-841 | where no part lost a fetch, an answer has the naive findings of the components its parts were built for, and is the naive answer if and only if these are those of the components asked about |
| `OsvHistory.Serve` | crates/hort-adapters-advisory-osv/src/lib.rs:705-841 | every history of queries, evictions and faults, about whatever components, is accounted for: each answer follows from a truthful cache and the fetches that failed in that query, and each entry was built by a query for a component it asked about |
| `OsvHistory.AnswersAreSourced` | crates/hort-adapters-advisory-osv/src/lib.rs:705-841 | over every history, every answer is, up to order, one part per component asked about: its naive findings with this query's failed fetches lost, or those of a component with the same key that an earlier query asked about, with that query's |
| `OsvHistory.HealthyHistoryAnswersNaively` | crates/hort-adapters-advisory-osv/src/lib.rs:705-841 | as long as no fetch has failed, every answer has the naive findings of its sources; it is the naive answer where components asked about before with a key of this query have the same answer |
| `OsvHistory.OutageOutlivesItself` | crates/hort-adapters-advisory-osv/src/lib.rs:803-823 | after one failed fetch, the next query answers with the degraded finding although nothing fails any more |
| `OsvFinding.AffectedFor` | crates/hort-adapters-advisory-osv/src/lib.rs:981-1027 | an entry that names another package is never selected; nothing is selected only when entries name packages and none is this one |
| `OsvFinding.BeforeColon` | crates/hort-adapters-advisory-osv/src/lib.rs:998-1006 | an ecosystem label is compared up to its first colon |
| `OsvFinding.ForeignClassNotInherited` | crates/hort-adapters-advisory-osv/src/lib.rs:484-524 | an informational class comes from the record itself or from an entry that does not name another package |
| `OsvFinding.ForeignFixesNotReported` | crates/hort-adapters-advisory-osv/src/lib.rs:581-591 | every fixed version reported comes from such an entry, and there are at most 32 |
| `OsvFinding.ReferencesBounds` | crates/hort-adapters-advisory-osv/src/lib.rs:604-642 | references are pairwise distinct, at most 32, and name the canonical page of every identified record |
| `OsvFinding.CollectReferences` | crates/hort-adapters-advisory-osv/src/lib.rs:604-642 | the three loops compute that list |
| `OsvFinding.AliasesBounds` | crates/hort-adapters-advisory-osv/src/lib.rs:644-661 | aliases are at most 16 and pairwise distinct ignoring ASCII case |
| `OsvFinding.CollectAliases` | crates/hort-adapters-advisory-osv/src/lib.rs:644-661 | the loop computes that list |
| `OsvFinding.BelowTierExactlyWhen` | crates/hort-adapters-advisory-osv/src/lib.rs:526-571 | a finding stays below a tier if and only if a score on the scale is below the tier's threshold, or without one the label is milder, or without either the class is a recognised informational one; it is assessed exactly when one of these was read |
| `OsvSeverity.LabelDecides` | crates/hort-adapters-advisory-osv/src/severity.rs:87-113 | without a score on the scale, a label that reads critical, high, medium, moderate or low, whatever its case and the space around it, decides the severity as this table says |
| `OsvSeverity.NumberDecides` | crates/hort-adapters-advisory-osv/src/severity.rs:87-113 | a label that begins with a number in tenths decides it by that number's band |
| `OsvSeverity.OtherLabelDecidesNothing` | crates/hort-adapters-advisory-osv/src/severity.rs:87-113 | any other label that does not begin like a number decides nothing: the severity is the lowest for an informational class and the highest otherwise |
| `OsvSeverity.FirstScoreExactly` | crates/hort-adapters-advisory-osv/src/lib.rs:526-560 | the score is that of the first vector from which one can be computed, and there is none exactly when there is no such vector |
| `OsvSeverity.ClassDecides` | crates/hort-adapters-advisory-osv/src/lib.rs:511-524 | a record's own class makes its finding informational if and only if it reads unmaintained, unsound or notice and no score can be computed |
| `OsvFields.FixesExactly` | crates/hort-adapters-advisory-osv/src/lib.rs:581-591 | the fixed versions reported are named by entries that name this package, or by any entry if none names a package; below 32 all of them are |
| `OsvFields.AliasesExactly` | crates/hort-adapters-advisory-osv/src/lib.rs:644-661 | the aliases reported are the record's, trimmed; one is missing only if it is blank, a repetition, or there are sixteen |
| `OsvFields.ReferencesComplete` | crates/hort-adapters-advisory-osv/src/lib.rs:604-642 | below 31 references, none the record lists is missing, nor the page of an alias, which for a CVE is the national database's |
| `OsvFields.TitleExactly` | crates/hort-adapters-advisory-osv/src/lib.rs:575-580 | the title is the summary, without one the details, without either the identifier; the instant of publication is the record's |
| `OsvDegrade.HydrationDegradesUpward` | crates/hort-adapters-advisory-osv/src/lib.rs:808-822 | over every history, every answer is, up to order, finding by finding the naive one of its source or an unread finding for the same package: never milder, and never informational through a failure; these are the naive findings of the components asked about where earlier ones with their keys have the same answer |
| `OsvNaive.NaiveAnswerExactly` | crates/hort-adapters-advisory-osv/src/lib.rs:705-841 | over every history, an answer has the naive findings of its sources if and only if, lined up with them, it differs in nothing that can be read and its unread findings are the same; likewise of the naive answer where earlier components with a key of this query agree |
| `OsvNaive.NaiveExactlyWhenClean` | crates/hort-adapters-advisory-osv/src/lib.rs:705-841 | where a severity can be read from every advisory, an answer has the naive findings of its sources if and only if none of them, cached or fresh, lost a fetch; likewise of the naive answer where earlier components with a key of this query agree |
| `OsvNaive.LostFetchShows` | crates/hort-adapters-advisory-osv/src/lib.rs:808-822 | an answer one of whose sources lost a fetch of an advisory whose severity can be read, now or when the entry was cached, does not have the naive findings |
| `OsvShared.TransparentExactly` | crates/hort-adapters-advisory-osv/src/lib.rs:705-841 | every history about a collection of components in which no fetch fails is answered naively if and only if those of them that share a key have the same naive answer |
| `OsvShared.AnswersForAnother` | crates/hort-adapters-advisory-osv/src/lib.rs:715-752 | the adapter, asked in turn about any two components with one key, gives the first one's naive answer twice, which is right for the second exactly when they agree |
| `OsvShared.ApartExactly` | crates/hort-adapters-advisory-osv/src/cache.rs:42-57 | different separator-free components share a key exactly when they differ in the purl alone, or one has no version and the other the version `*` |
| `OsvShared.OtherPurlAgreesExactly` | crates/hort-adapters-advisory-osv/src/lib.rs:645-680 | components that differ in the purl alone share a key, and have the same answer if and only if the feed has no advisory for them |
| `OsvUpward.UpwardExactly` | crates/hort-adapters-advisory-osv/src/lib.rs:808-822 | no history about a collection of components, whatever fails in it, loses a finding or makes one milder, if and only if, of those that share a key, each one's naive answer loses nothing of the others' and has nothing milder |
| `DisjointSets.DisjointSet.constructor` | crates/hort-domain/src/types/alias_group.rs:124-129 | every node is its own root |
| `DisjointSets.DisjointSet.Find` | crates/hort-domain/src/types/alias_group.rs:131-139 | path halving in place ends at the root and moves no node to another set |
| `DisjointSets.DisjointSet.Union` | crates/hort-domain/src/types/alias_group.rs:141-146 | exactly the nodes of the second set get the first set's root |
| `AliasGraph.BuildSets` | crates/hort-domain/src/types/alias_group.rs:198-218 | after one pass of claiming keys, two items have one root if and only if a chain of shared keys connects them |
| `AliasGraph.GroupItems` | crates/hort-domain/src/types/alias_group.rs:220-236 | the groups partition the items into connected components, groups and members in order of appearance |
| `AliasGroups.KeysMeaning` | crates/hort-domain/src/types/alias_group.rs:154-156 | a finding's keys are its package with each of its non-blank identifiers, trimmed and lowercased |
| `Text.TrimExactly` | crates/hort-domain/src/types/alias_group.rs:154-156 | trimming takes off the whitespace at both ends and nothing else |
| `AliasGroups.BetterTotal` | crates/hort-domain/src/types/alias_group.rs:98-115 | of two findings exactly one is better, or they agree on rank, score, severity and id |
| `AliasGroups.BetterTransitive` | crates/hort-domain/src/types/alias_group.rs:98-115 | the comparison is transitive |
| `AliasGroups.BestIsBest` | crates/hort-domain/src/types/alias_group.rs:258-267 | no member of a group is better than the one the scan selects |
| `AliasGroups.PushedFacts` | crates/hort-domain/src/types/alias_group.rs:289-300 | the collected list has distinct non-blank names, at most 16, none the survivor's own, all from the candidates, and misses a candidate only when full |
| `AliasGroups.UnionAliases` | crates/hort-domain/src/types/alias_group.rs:286-314 | the three loops compute the union in that order |
| `AliasGroups.IdsStayMatchableExactly` | crates/hort-domain/src/types/alias_group.rs:175-190 | the united list names every other member if and only if they have at most 16 names beside the survivor's own |
| `AliasCollapse.SortFacts` | crates/hort-domain/src/types/alias_group.rs:271-277 | the other members are reordered by identifier and nothing else |
| `AliasCollapse.CollapseOneGroup` | crates/hort-domain/src/types/alias_group.rs:250-282 | a group of one is returned as it is; otherwise the best member with the united aliases |
| `AliasCollapse.CollapseAliasGroups` | crates/hort-domain/src/types/alias_group.rs:193-246 | the result holds the survivor of every connected component, in order of appearance |
| `AliasCollapse.SurvivorIsBest` | crates/hort-domain/src/types/alias_group.rs:168-174 | the survivor keeps its own record but for the aliases, is at least as informed as every member, and carries at least every member's score |
| `AliasCollapse.SurvivorStandsFirst` | crates/hort-domain/src/types/alias_group.rs:98-115 | a scored member is survived by a scored one, without scores an informational one by an informational one, without either an assessed one by an assessed one; among members of that standing the survivor has the highest score, then the highest severity, then the first identifier |
| `AliasCollapse.SurvivorIgnoresOrder` | crates/hort-domain/src/types/alias_group.rs:81-97 | two groups of the same findings, in whatever order, have survivors that agree on rank, score, severity and id |
| `AliasCollapse.CollapseIsIdempotent` | crates/hort-domain/src/types/alias_group.rs:193-246 | collapsing a collapsed set changes nothing, truncated aliases included |
| `AliasLimits.GroupStaysMatchableExactly` | crates/hort-domain/src/types/alias_group.rs:173-190 | every identifier of a group still finds its survivor if and only if the group has at most 17 distinct non-blank identifiers, 16 if the survivor's own is blank |
| `AliasLimits.OneNameOneFinding` | crates/hort-domain/src/types/alias_group.rs:193-246 | findings of one package that share a name collapse to one, which answers to all their identifiers exactly up to that number |
| `AliasLimits.EighteenNamesLoseOne` | crates/hort-domain/src/types/alias_group.rs:286-314 | eighteen findings under one alias collapse to one that has lost an identifier |
| `AliasOrder.RecordIsOrderFreeExactly` | crates/hort-domain/src/types/alias_group.rs:83-115 | the record a group keeps is the same in every order of arrival if and only if every member that compares equal to the best is the same finding |
| `AliasOrder.FirstTwinIsKept` | crates/hort-domain/src/types/alias_group.rs:258-267 | two records of one package under one identifier that compare equal, collapsed in both orders: the first to arrive is kept each time |
| `AliasUnion.UnionIsOrderFreeExactly` | crates/hort-domain/src/types/alias_group.rs:286-314 | the united aliases are the same for every order of members under one identifier if and only if, of each member in its turn and every later one under its identifier, one only continues what the other adds to the list |
| `AliasUnion.UnionInOrder` | crates/hort-domain/src/types/alias_group.rs:286-314 | the united list is the other members' identifiers, then the survivor's aliases, then the others', each part begun only when the one before is complete |
| `AliasOrder.SurvivorIsOrderFreeExactly` | crates/hort-domain/src/types/alias_group.rs:250-314 | the whole survivor, alias list included, is the same in every order of arrival if and only if every member that nobody beats would survive as the same finding and, with it kept, the united aliases do not depend on the order |
| `AliasOrder.SurvivorIsOrderFree` | crates/hort-domain/src/types/alias_group.rs:250-282 | it is enough that members that compare equal to the best are the same finding and that members under one identifier list the same aliases |
| `AliasOrder.DistinctIdsSuffice` | crates/hort-domain/src/types/alias_group.rs:250-282 | distinct identifiers are enough for both |
| `OsvAnswer.QueryAdvisories` | crates/hort-adapters-advisory-osv/src/lib.rs:705-841 | for whatever components, an answer is a collapse of the cached and freshly built findings; only advisories whose own fetch failed are missing from these, and all are that could not be had in any way; what was built is cached; a query the services answer has an answer |
| `OsvAnswer.EveryFindingIsRepresented` | crates/hort-adapters-advisory-osv/src/lib.rs:705-841 | caching, batching, failing fetches and collapsing together leave, for every naive finding of a source, and of a component asked about where the sources have the same ones, one of its package at least as informed and with at least the score of that finding or, where a fetch was lost, of its unread form |
| `OsvSoften.SoftenedExactly` | crates/hort-domain/src/types/alias_group.rs:98-115 | the survivor of a group is milder than an advisory if and only if a member that was read, and that nobody beats, is milder |
| `OsvSoften.AnswerSoftenedExactly` | crates/hort-adapters-advisory-osv/src/lib.rs:705-841 | every such naive finding reaches the collapse as itself or unread, as itself if no fetch was lost; the finding returned for its group is milder under exactly that condition, and never if it arrived as itself with a score of at least 0.1 |
| `OsvSoften.OutageSoftens` | crates/hort-adapters-advisory-osv/src/lib.rs:705-841 | two queries over the same feed, where a scored advisory has an informational mirror: without a fault the answer is the scored one; with its fetch failing it is the mirror, which is informational and milder |
| `OsvWorlds.StarHidesAdvisory` | crates/hort-adapters-advisory-osv/src/cache.rs:48-56 | a feed over which one adapter, asked about version `*` and then without a version, nothing failing, answers the second query without the advisory the feed has for it |
| `OsvWorlds.OutageSoftensHere` | crates/hort-adapters-advisory-osv/src/lib.rs:705-841 | a feed over which an answer is milder while one record cannot be fetched |
| `OsvWorlds.OutageOutlivesItselfHere` | crates/hort-adapters-advisory-osv/src/lib.rs:803-823 | a feed over which a query still answers with the unread finding when nothing fails any more |
| `OsvBulk.EntryExactlyWhen` | crates/hort-adapters-advisory-osv/src/bulk.rs:462-500 | a record yields an entry if and only if it is identified, modified after the checkpoint and concerns a package of the archive's ecosystem |
| `OsvBulk.NamesInMeaning` | crates/hort-adapters-advisory-osv/src/bulk.rs:474-491 | the packages listed are exactly the named ones of that ecosystem |
| `OsvBulk.RecordsAreJson` | crates/hort-adapters-advisory-osv/src/bulk.rs:222-233 | a member is read for a record exactly when its name ends in `.json` |
| `OsvBulk.BulkRecordToAdvisoryEntry` | crates/hort-adapters-advisory-osv/src/bulk.rs:462-500 | the loop computes that entry |
| `OsvBulk.BulkWalk.Visit` | crates/hort-adapters-advisory-osv/src/bulk.rs:222-253 | one member adds its entry, if any, and one to the skip tallies exactly when it is a record that could not be read |
| `OsvBulk.BulkWalk.IterZipEntries` | crates/hort-formats/src/archive_bounds.rs:504-548 | a finished walk tallied nothing if and only if every member was read; a capped walk kept exactly the first 100000 |
| `OsvBulk.BulkWalk.ClassifyZipWalk` | crates/hort-adapters-advisory-osv/src/bulk.rs:265-294 | after a walk, no error and nothing tallied means that the whole archive was read, and the other way round; only a corrupt archive is an error |
| `OsvBulk.PullOneEcosystem` | crates/hort-adapters-advisory-osv/src/bulk.rs:314-450 | a pull is complete if and only if the archive was fetched and nothing in it was out of reach, and then gives every entry |
| `OsvBulk.PullDiffSince` | crates/hort-adapters-advisory-osv/src/lib.rs:843-936 | success is reported if and only if every archive was read whole; then the entries are the conversion of every record member of every archive, and in any case each entry is one |
| `OsvBulk.HarvestAllMeaning` | crates/hort-adapters-advisory-osv/src/lib.rs:843-936 | those entries are exactly the ones some record member of some archive converts to |
| `OsvWatch.AdvisoryWatch.RunTick` | crates/hort-app/src/task_handlers/advisory_watch_tick.rs:131-352 | the checkpoint moves to the tick's start exactly when every archive was read whole, every lookup and insertion succeeded and the checkpoint could be written; then a scan is queued for every artifact the window matches, and in any case no job is lost and none is queued unasked |
| `OsvEnqueue.ScanQueue.EnqueueAll` | crates/hort-app/src/task_handlers/advisory_watch_tick.rs:186-331 | succeeds exactly when no lookup or insertion fails, and then every artifact some fresh entry matches has a job; jobs already there are kept, every new one is for a matched artifact with its own repository and format, and the count is that of the new ones |
| `OsvWatch.NoAdvisoryLost` | crates/hort-adapters-advisory-osv/src/bulk.rs:19-28 | whatever was modified between two checkpoints, and published before any tick since pulled its archive and saved, was read by a tick between them, which returned that version or a newer one unless the filter rejects it, and queued every artifact it matches |
| `OsvWatch.NoDelayNoneAhead` | crates/hort-adapters-advisory-osv/src/bulk.rs:19-28 | the condition on publication always holds of what is published when it is modified |
| `OsvWatch.CurrentRecordReturned` | crates/hort-adapters-advisory-osv/src/bulk.rs:19-28 | a relevant record that is published when its window is pulled was returned itself |
| `OsvWatch.ColdStartForgets` | crates/hort-app/src/task_handlers/advisory_watch_tick.rs:137-149 | without a stored checkpoint, a record in a failed tick's window can be outside the next one's |
| `OsvWatch.ColdStartExactly` | crates/hort-app/src/task_handlers/advisory_watch_tick.rs:137-149 | the first tick that saves without a stored checkpoint returns a record it finds published if and only if it was modified in the 24 hours before that tick, and no later tick returns it |
| `OsvDelay.ReturnedExactly` | crates/hort-adapters-advisory-osv/src/bulk.rs:462-500 | an advisory published from some instant on is returned by a tick that saves if and only if some tick that saves pulls its archive from then on and finds a version there that is relevant and that its window begins before |
| `OsvDelay.DelayLoses` | crates/hort-adapters-advisory-osv/src/bulk.rs:19-28 | a record published after a tick has moved the checkpoint past its modification is returned by neither tick |
| `Json.RoundTrip` | crates/hort-adapters-checkpoint-anchor/src/lib.rs:210-220 | reading printed JSON gives the value back, escapes included |
| `Utf8.DecodeExact` | crates/hort-adapters-checkpoint-anchor/src/lib.rs:218-220 | strict decoding accepts exactly the encodings and undoes them |
| `Timestamp.InstantTextInjective` | crates/hort-adapters-checkpoint-anchor/src/lib.rs:202-208 | distinct instants print differently, at every precision and in every year |
| `Rfc3339.ReadPrintedInstant` | crates/hort-adapters-checkpoint-anchor/src/lib.rs:202-208 | a reader by position of section 5.6 of RFC 3339, defined apart from the printer, reads year, month, day, hour, minute, second and fraction back from the printed text; a year beyond four digits has a sign before it |
| `Rfc3339.SecondTextSorts` | crates/hort-adapters-checkpoint-anchor/src/lib.rs:394-405 | for years 0 to 9999 the texts to the second are ordered as the instants are |
| `CheckpointText.SignedText` | crates/hort-adapters-checkpoint-anchor/src/lib.rs:202-220 | the signed bytes are the text of one object: version, sequence number, instant, stream heads and sealed streams, under their names, in declaration order and each in its own form |
| `Checkpoint.SignedBytesInjective` | crates/hort-adapters-checkpoint-anchor/src/lib.rs:202-220 | two wire forms have the same signed bytes if and only if they agree on every signed field |
| `Checkpoint.SignedAlikeExactly` | crates/hort-adapters-checkpoint-anchor/src/lib.rs:202-230 | two checkpoints are signed alike if and only if they are the same, hashes included |
| `Checkpoint.DomainRoundTrip` | crates/hort-adapters-checkpoint-anchor/src/lib.rs:222-230 | turning the wire form back gives exactly the checkpoint, through 32-byte hex hashes |
| `CheckpointWire.ReadWrittenDocument` | crates/hort-adapters-checkpoint-anchor/src/lib.rs:112-137 | an emitted document reads as its signed fields and its signature whatever the unsigned extras hold |
| `CheckpointWire.StrictReadIsReader` | crates/hort-adapters-checkpoint-anchor/src/lib.rs:344-357 | the hypothesis on readers, who are asked to follow documents nested up to 127 deep, is met by the reader of exactly the printed documents |
| `CheckpointAnchor.VerifyAndIntoDomain` | crates/hort-adapters-checkpoint-anchor/src/lib.rs:256-283 | gives a checkpoint exactly when the signature is 64 hex-encoded bytes that verify and every hash is 32 |
| `CheckpointAnchor.EmittedReadsBack` | crates/hort-adapters-checkpoint-anchor/src/lib.rs:515-549 | for every checkpoint and every reader, the emitted object yields exactly that checkpoint |
| `ObjectListing.UnacceptedAreInvisible` | crates/hort-adapters-checkpoint-anchor/src/lib.rs:341-378 | listings that differ only in fetched objects that are not accepted, added, removed or moved, read the same, a failed read included |
| `ObjectListing.JunkChangesNothing` | crates/hort-adapters-checkpoint-anchor/src/lib.rs:341-378 | such objects inserted anywhere change nothing, whether the read succeeds or fails |
| `ObjectListing.PutsAreReadBack` | crates/hort-adapters-checkpoint-anchor/src/lib.rs:323-383 | objects put under keys of their own are all read back, once each, whatever the listing order |
| `CheckpointAnchor.ReadAll` | crates/hort-adapters-checkpoint-anchor/src/lib.rs:323-383 | fails exactly when listing or fetching does; otherwise gives, in listing order, the checkpoints of exactly the objects that parse and verify |
| `CheckpointAnchor.ReadsAreAuthentic` | crates/hort-adapters-checkpoint-anchor/src/lib.rs:243-283 | whatever bytes the store holds, every checkpoint read was emitted |
| `CheckpointAnchor.KeysEqualExactly` | crates/hort-adapters-checkpoint-anchor/src/lib.rs:400-405 | object keys are equal if and only if second and sequence number are |
| `CheckpointAnchor.KeysSortBySecond` | crates/hort-adapters-checkpoint-anchor/src/lib.rs:394-405 | for years 0 to 9999, object keys of different seconds are ordered as the seconds are |
| `CheckpointAnchor.CheckpointEmitter.Emit` | crates/hort-adapters-checkpoint-anchor/src/lib.rs:553-573 | after it every reader finds exactly this checkpoint under its key, and every checkpoint under another key as before |
| `CheckpointAnchor.CheckpointEmitter.EmitAll` | crates/hort-adapters-checkpoint-anchor/src/lib.rs:553-573 | checkpoints told apart by second and sequence number are all kept |
| `CheckpointAnchor.EmittedAreReadBack` | crates/hort-adapters-checkpoint-anchor/src/lib.rs:323-383 | after emitting any such list into an empty store, every listing reads back exactly those checkpoints |
| `Revocation.CanonicalAddresses` | crates/hort-adapters-postgres/src/api_token_revocation_listener.rs:189-209 | a notification as the repositories send it is about exactly the token, or the tokens of the user, it was sent for |
| `Revocation.ReadsCanonicalIsMet` | crates/hort-adapters-postgres/src/api_token_revocation_listener.rs:189-209 | the hypothesis on the identifier parser can be met, because no two identifiers have the same text |
| `Revocation.TokenCache.RunRecvLoop` | crates/hort-adapters-postgres/src/api_token_revocation_listener.rs:162-209 | after any sequence of notifications exactly those cached tokens remain that none is about; where all are canonical, those for which none was sent |
| `RevocationReplicas.WaitDoublesToTheCap` | crates/hort-adapters-postgres/src/api_token_revocation_listener.rs:112-150 | in every run, a replica that waits after its nth failure in a row waits for min(30, 2^(n - 1)) seconds |
| `RevocationReplicas.CoveredKept` | crates/hort-adapters-postgres/src/api_token_revocation_listener.rs:112-184 | a step that is not harmful keeps every stale cached token covered by a queued notification or a flush to come |
| `RevocationReplicas.HarmfulUncovers` | crates/hort-adapters-postgres/src/api_token_revocation_listener.rs:112-184 | from every state a harmful step leaves a stale token cached with nothing on its way |
| `RevocationReplicas.CoveredExactlyWhen` | crates/hort-app/src/use_cases/pat_validation_use_case.rs:570-667 | through a whole run every stale cached token is covered if and only if the run takes no harmful step |
| `RevocationReplicas.StaleTokensAreCovered` | crates/hort-adapters-postgres/src/api_token_repo.rs:287-330 | it is enough that tokens enter caches only while valid and while the replica is subscribed or about to flush, and that no connection is replaced silently |
| `RevocationReplicas.EarlyInsertStays` | crates/hort-adapters-postgres/src/api_token_revocation_listener.rs:112-150 | a run that meets the other two demands, with an insert before the subscription, leaves a stale token uncovered |
| `RevocationReplicas.LateInsertStays` | crates/hort-app/src/use_cases/pat_validation_use_case.rs:570-667 | a run that meets the other two, with a revocation handled while the token is being validated, does so too |
| `RevocationReplicas.SilentReconnectStays` | crates/hort-adapters-postgres/src/api_token_revocation_listener.rs:162-184 | a run that meets the other two, with a connection replaced silently, does so too |
| `Utf8.BoundaryExactly` | crates/hort-adapters-postgres/src/api_token_repo.rs:98-109 | a byte offset is a character boundary if and only if no continuation byte stands there |
| `UserAgent.TruncateUserAgent` | crates/hort-adapters-postgres/src/api_token_repo.rs:98-109 | the result encodes the longest run of whole characters within 256 bytes, and the walk back is at most three bytes |
| `UserAgent.LongestPrefixUnique` | crates/hort-adapters-postgres/src/api_token_repo.rs:98-109 | there is one such run |

## Left out

- JWT signature checking, claim mapping, error classification and the multi-issuer registry: a token's signature is a predicate on keys.
- `RwLock` fairness and the audit append after a rotation: lock sections are atomic steps and the append is not modelled.
- A bound on failed fetches: only completed refreshes move the cooldown, so the budget counts refreshes.
- Ports in URLs: the origin checks do not look at them.
- EphemeralLocks.CallsLinearize: covers the three operations that take the per-key lock on a key that does not expire; `put`, lazy removal and the sweeper are modelled call by call, because they do not take the lock.
- EphemeralAgreement.BackendsAgree: asks for durations that are sent exactly and, of the keys a history increments, for numbers Lua adds to exactly; what the backends do with other durations and beyond 2^53 is not compared.
- Redis expiry at the very millisecond of the deadline: a key counts as expired from its deadline on, as in the in-process store.
- CVSS vector scoring, SHA-256, zip decoding and HTTP transport: library code, taken as function parameters.
- OsvHistory.Serve: the feed is fixed over a history, so what a cached answer hides of later changes to the feed is not modelled; the expiry of an entry is an eviction.
- Non-finite scores: scores are real numbers, so the filter on them has nothing to do.
- OsvWatch.NoAdvisoryLost: takes as hypotheses that versions of an advisory only get newer and that an archive holds what is published when it is pulled.
- Scan jobs after they are queued, and their priority, trigger source and checksum: a job is a repository and a format, and workers taking jobs between ticks are not modelled.
- RFC 3339 texts with a numeric offset or in lower case: `Rfc3339.ReadInstant` reads upper case in UTC, which is what is printed.
- JSON forms other than the printed one (whitespace, other escapes, positional structs): a reader may accept them, and nothing is claimed about what it makes of them.
- Ed25519: an idealised signature; `CheckpointAnchor.ReadsAreAuthentic` assumes that nothing verifies but what was signed.
- Object-lock retention, building a checkpoint from the event chain and verifying the chain against one.
- `PatCache` internals, expiry of cached tokens and the passing of the wait: a cache is a set of tokens, and a wait is the number of seconds set for it.
- Client-address bucketing, the remaining SQL repositories, metrics, tracing, extra certificate authorities, the Kubernetes writer and the static site: out of scope, since they keep no state of their own beyond a table row or a counter and follow no protocol.
