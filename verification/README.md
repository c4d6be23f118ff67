# Verification model of the proxy's counters, caches and catalog tools

This Dafny project models the parts of the repository that hold state shared between instances or
that walk unbounded structures, and proves what they keep over all runs and inputs. Check it with
`dafny verify dfyconfig.toml`.

| files | what they model |
|---|---|
| `RequestCounter`, `RequestCap`, `RequestGrants`, `TokenKeys`, `Counter`, `RemainingCheck`, `RemainingOutcomes` | the request-cap counter with lazy refill: atomic Redis steps, the compare-and-swap in Postgres and late or lost reseeds by many instances; the object whose methods are runs of these steps; the middleware that charges a token and a credential per request, beside the tool calls that draw on the same counters |
| `CredentialCache`, `SharedAnswers`, `CacheStaleness`, `CacheFinality`, `OrgIsolation`, `CacheManager`, `CacheInvalidation`, `TokenRevocation` | the three-tier credential cache: resolutions split into reads and writes, their results shared by their callers through one slice, interleaved with revocation, lost messages, eviction and corruption under one clock; what each caller reads; staleness and finality; which organisation gets which answer; the manager's methods; the subscriber; token revocation |
| `SchemaFlattening`, `SchemaReferences`, `SchemaTermination`, `SchemaPaths`, `SchemaPathOrder` | flattening of cyclic component graphs into one map, when that terminates, the depth-bounded enumeration of property paths, and when its order is determined |
| `KeysetPaging`, `CursorCodec`, `CursorText`, `CursorWalk` | keyset pagination over a changing table, the cursor text, and both together |
| `ParameterBuilding`, `ParameterDefinitions`, `Classification`, `SnakeCase` | parameter schemas and execution mappings of OpenAPI operations, longest-prefix classification over maps, and the name normaliser |
| `SdlText`, `SdlScanner`, `SdlFields`, `SdlLayout`, `SdlReading`, `SdlFieldReading`, `SdlBlocks`, `SdlDescriptions`, `SdlDecorations` | the GraphQL SDL scanner: its bracket scanners, the field parser with its regular expressions written out as matchers, the proof that layout never matters, and what descriptions, comments, directives and default values become |

A specification function (what a tier answers, which entries a schema has, how a text splits) is
written once and used by the method that computes it, by the steps of the transition systems and by
the theorems. Transition systems quantify over all runs: an adversary chooses every interleaving,
failure, eviction and clock reading.

Modelling choices: times are integer ticks; integers are unbounded; Go's random map order is an
arbitrary choice of the next key, or an explicit order that theorems quantify over; Go strings are
sequences of characters, and where bytes matter (base64, truncation to 197 characters) a character
below 256 stands for a byte. Cryptography is a pair of functions with one law, that keys which open
a ciphertext agree on its plaintext. Unicode's character classes are parameters with the few facts
the normaliser relies on. The prefix of local references is a field of the document, so the OpenAPI 3
and the Swagger 2 search are one model. The regular expressions see text without line breaks, which
is all the line splitter gives them.

## Where the code differs from what it says

- `internal/counter/counter.go:130`: an interval of zero or less is accepted, and the cap is then no
  cap (`RequestCap.CappedExactlyWhen`). A missing or evicted key means "no cap" as well, and
  requests let through while Redis fails are not counted; the cap bounds what the counter granted.
- `internal/cache/cache.go:93-99` and `internal/proxy/director.go:86-91`: all callers of one flight are
  handed the same slice, and the proxy zeroes it in place after use. A caller that reads it later sends
  zeros instead of the key, although the row is there and every service is up
  (`SharedAnswers.ZeroedAnswerWitness`). A waiting caller reads the key exactly when nobody has zeroed the
  slice before (`SharedAnswers.SharedKeyExactlyWhen`); answers from memory, and of a flight with one
  caller, are always the key.
- `internal/cache/cache.go:93`: the singleflight key is the credential alone, so the callers of one
  flight share its result whatever their organisation. A caller of another organisation is answered
  exactly when it has been handed the result of a flight of the row's own organisation
  (`OrgIsolation.ForeignCallerIsAnsweredExactlyWhen`), and can come to read the key whenever a flight can
  come by it (`OrgIsolation.ForeignCallerServableExactlyWhen`). The owner, waiting for a flight
  of another organisation, is told "not found or revoked" although its row is there
  (`OrgIsolation.WaitingOwnerIsRefusedExactlyWhen`).
- `internal/handler/actions.go:342-344`: the sort is by path alone and not stable, so the order of two
  entries with one path is left to Go's map order. That happens when an object property refers to an
  array schema, whose path comes as object and as array (`SchemaPathOrder.OneAnswerWithPlainNames`).
- `internal/cache/cache.go:153-156`: every other path zeroes the plaintext DEK, but here a key that does
  not decrypt leaves it in its buffer (`CacheManager.Managers.DecryptRecord`).
- `internal/cache/cache.go:250-259`: the local caches are cleared before Redis, so the local clear is
  not final (`CacheFinality.LocalClearDoesNotSuffice`); finality also needs that no resolution
  carrying the secret is in progress.
- `cmd/fetchactions-oas3/parse.go:680-687`: a cycle of array components recurses forever, because an
  array is stored after its recursive call (`SchemaTermination.SelfArrayNeverReturns`). References
  inside inline `_response` entries are not followed (`SchemaFlattening.InlineReferenceDangles`). `cmd/fetchactions-oas2/parse.go:493-494` says "no recursion", but the code recurses as its twin does.
- `cmd/fetchactions-graphql/sdl.go:167`: the block is not always the one after the first opening brace
  (`SdlScanner.StartsAtFirstBraceExactlyWhen`).
- `cmd/fetchactions-graphql/sdl.go:313-314`: comma-separated and white-space-separated arguments are both
  read, but a list that mixes them keeps only the arguments that are alone between their commas, unless
  there are none; then, as in a list without commas, the regular expression reads the whole text and
  drops the arguments of nested list types. `SdlBlocks.AllArgsReadExactlyWhen` says exactly when nothing
  is lost.

- `cmd/fetchactions-graphql/sdl.go:214-250`: a field on the line of its description is lost
  (`SdlDescriptions.FieldBehindDescriptionIsLost`); of a block description only the lines between those
  that start with triple quotes are kept; and a quoted description that ends in an escaped quote loses it
  (`SdlDescriptions.QuotedIsWholeExactlyWhen`). A comment behind a type becomes part of the type
  (`SdlDecorations.TypeIsBeforeDirectives`).
- `cmd/fetchactions-oas3/naming.go:10-12`: the comment's example changes the order of the words; the code
  never does (`SnakeCase.LettersSurvive`).

## Model

| member | source | states |
|---|---|---|
| `RequestCap.NetGrantsAreBounded` | internal/counter/counter.go:120-167 | Main theorem. Over every interleaving of instances, with late or lost reseeds, evictions, undos and skewed clocks, successful decrements minus undos never exceed the initial seed plus one refill amount per whole interval since creation; any amount and any seed, negative ones counting as 0. |
| `RequestCap.CappedExactlyWhen` | internal/counter/counter.go:130-142 | A configured counter has a finite bound within a fixed time if and only if its interval is positive or its amount is not: `time.ParseDuration` accepts `0s` and `-1h`, and then the cap is none. |
| `RequestCap.GrantForever` | internal/counter/counter.go:130-164 | The witness: with such an interval one instance can refill and grant any number of times without its clock moving. |
| `RequestCap.RefillsAreSpaced` | internal/counter/counter.go:135-166 | The k-th refill stamp is at least k intervals after creation (k from 1), stamps are at most the intervals elapsed, and Redis reseeds never outnumber winning updates. |
| `RequestCap.SnapshotWinsOnce` | internal/counter/counter.go:145-159 | After one update succeeded, no attempt that read the same effective refill time can ever succeed, whatever happens in between: it leaves everything as it was. |
| `RequestCounter.UpdateIsCompareAndSwap` | internal/counter/counter.go:146-152 | The WHERE clause matches exactly when the stored coalesce(last_refill_at, created_at) equals the one in the snapshot. |
| `RequestCounter.StepKeepsInv` | internal/counter/counter.go:60-71 | Every atomic step keeps the invariant whose heart is the potential: counter value plus net grants is at most the seed plus the quota of each reseed. |
| `RequestCounter.StepKeepsSpacing` | internal/counter/counter.go:140-152 | Every atomic step keeps the refill stamps an interval apart, including a compare-and-swap on a stale snapshot. |
| `RequestCap.InvImpliesCap` | internal/counter/counter.go:120-167 | From the invariant to the numbers: reseeds <= stamps <= floor(elapsed / interval), and the cap. |
| `RequestCap.EffectiveRefillNeverDecreases` | internal/counter/counter.go:145-152 | coalesce(last_refill_at, created_at) never goes back over any run. |
| `RequestGrants.DecrementsGrantTheRest` | internal/counter/counter.go:54-71 | Main theorem. Whatever the instances do in between, k decrements of a live counter that holds n grant exactly min(n, k) requests and leave the rest, as long as the key is not evicted, expired, reseeded or given units back. |
| `RequestGrants.CapIsReached` | internal/counter/counter.go:120-167 | Main theorem. The cap is tight: a credential seeded with its initial value and checked at every interval grants, n intervals after creation, exactly the initial value plus n amounts. |
| `RequestGrants.DecrementLosesNothing` | internal/counter/counter.go:60-71 | On a live key a decrement takes from the value exactly what it grants, one unit if there is one. |
| `RequestGrants.UndoLosesNothing` | internal/counter/counter.go:93-95 | On a live key an undo gives back exactly one unit. |
| `TokenKeys.MintedKeyOutlivesToken` | internal/handler/tokens.go:174-196 | The seed written at mint time lives until the token expires, for clocks at most a minute apart. |
| `TokenKeys.TokenNeverUncappedBeforeExpiry` | internal/counter/counter.go:210-216 | With clocks within a minute and no eviction, over every run the key outlives ExpiresAt, so a capped token is never answered "no cap" before it expires. |
| `CounterObject.KeysNeverCollide` | internal/counter/counter.go:27-34 | No credential shares a Redis key with a token. |
| `CounterObject.Counter.Seed` | internal/counter/counter.go:38-43 | A positive TTL gives the key a deadline, any other TTL none; a failing Redis changes nothing. |
| `CounterObject.Counter.Decrement` | internal/counter/counter.go:60-89 | A missing or expired key is no cap, a value of 0 or less is exhausted and stays, any other loses exactly one unit and keeps its deadline: the outcome of the atomic script. |
| `CounterObject.Counter.Undo` | internal/counter/counter.go:93-95 | INCR: one unit back, the deadline kept, a missing key counting from 0 without a deadline. |
| `CounterObject.Counter.CheckAndRefill` | internal/counter/counter.go:120-219 | Without a race: when an amount and a readable interval are set and that interval has passed since the last refill, or else creation, the row gets the amount and the time and Redis the amount, for good for a credential and until two minutes after expiry for a token; with less, nothing changes; which error each fault gives. With a race, the clock of the other instance earlier or later: it is a run of the steps the theorems quantify over, and reports a refill exactly when it won. |
| `CounterObject.CheckRuns` | internal/counter/counter.go:120-167 | That run is legal, and where it ends: the row and key of a winner, of a loser, and of a failing reseed. |
| `RemainingCheck.AdmittedRequestsWithinCap` | internal/middleware/remaining.go:16-95 | End to end, many requests over many shared counters, on which the tool calls of internal/mcpserver/builder.go:101 draw too: the requests and tool calls let through on a unit of a counter, and the units lost with a Redis reply, together never outnumber its cap. |
| `RemainingCheck.QuietCountersMatchAdmissions` | internal/middleware/remaining.go:49-88 | When no handler runs and no rollback failed, each counter has given out, net, exactly one unit per tool call, per admitted request it capped and per unit taken by a call whose reply was lost: refused requests cost nothing. |
| `RemainingCheck.StepConserves` | internal/middleware/remaining.go:28-88 | Every step keeps, whether a Redis call is answered, never arrives or loses its reply: a counter's grants minus undos equal the units held by requests and tool calls and those lost with a reply, and what each request may hold at each point of the handler. |
| `RemainingCheck.RunConserves` | internal/middleware/remaining.go:28-88 | The same over every run. |
| `RemainingCheck.StepOfOneCounter` | internal/middleware/remaining.go:28-88 | Each step of the handlers is at most one atomic step of any one counter, so the counter's own theorems apply. |
| `RemainingOutcomes.RequestIsDecided` | internal/middleware/remaining.go:16-95 | Main theorem. With Redis answering and no refill due, a request that nothing comes in between of is let through if and only if both counters let it (no cap, or a unit left), and then each is charged one unit; otherwise it is refused, the credential's counter as it was and the token's unit given back. |
| `RemainingOutcomes.TokenDecides` | internal/middleware/remaining.go:27-52 | Fail open on an error, on to the credential when the token's counter lets the request, one refill attempt, then refusal. |
| `RemainingOutcomes.CredentialDecides` | internal/middleware/remaining.go:55-90 | The same for the credential, with the token's unit rolled back on every refusal and error. |
| `RemainingOutcomes.RefillDecides` | internal/middleware/remaining.go:33-51 | A successful refill is followed by one retry, a failed one by the refusal. |
| `RemainingOutcomes.RollbackEnds` | internal/middleware/remaining.go:58-87 | The rollback gives one unit back; the verdict stands even when it fails. |
| `CredentialCache.AnswersAreTransparent` | internal/cache/cache.go:69-183 | Main theorem. In every reachable state, under eviction, expiry, corruption, failing services and concurrent resolutions, an answer from memory is exactly what resolveFromDB computes from the row, for a caller of the row's organisation; an answer of a flight is that, or zeros in place of its key once another caller has zeroed the shared slice, and the flight is one of the row's organisation. |
| `CredentialCache.StepKeepsFaithful` | internal/cache/cache.go:103-183 | Every atomic step keeps all three tiers, all resolutions in progress and all shared results faithful to the rows. |
| `CredentialCache.RunKeepsFaithful` | internal/cache/cache.go:103-183 | The same over every run. |
| `CredentialCache.DEKCacheIsTransparent` | internal/cache/cache.go:187-230 | For any contents of the DEK cache, a key that decryptWithDEKCache returns is decrypt(enc, unwrap(wrapped)), and with KMS up it returns one. |
| `CredentialCache.CachedDEKSuffices` | internal/cache/cache.go:189-206 | A cached DEK that opens the key makes KMS unnecessary and stays cached. |
| `SharedAnswers.SharedKeyExactlyWhen` | internal/cache/cache.go:93-99 | Main theorem. In every reachable state a caller that has yet to read the result it was handed reads the row's own key if and only if no other caller of that flight has zeroed the slice yet, or the key is all zeros anyway. |
| `SharedAnswers.SoleCallerGetsKey` | internal/cache/cache.go:93-99 | The only caller of a flight always reads the row's own key. |
| `SharedAnswers.AnswersHaveTheRowsFields` | internal/cache/cache.go:69-183 | Every answer carries the row's base URL and authentication scheme, and the row's key or as many zero bytes. |
| `SharedAnswers.ZeroingSpoilsTheRest` | internal/proxy/director.go:86-91 | In every reachable state, when one caller zeroes the slice, every other caller that has yet to read it is left with zeros. |
| `SharedAnswers.ZeroedByTheRun` | internal/proxy/director.go:86-91 | The callers recorded as having zeroed a result are exactly those that zeroed it in the run. |
| `SharedAnswers.ZeroedAnswerWitness` | internal/proxy/director.go:86-91 | For any two calls of the row's own organisation, a run from an empty cache, all services up and the row not revoked, in which the first reads the key and the second zeros. |
| `OrgIsolation.ForeignCallerIsAnsweredExactlyWhen` | internal/cache/cache.go:90-99 | Main theorem. In every reachable state a caller of an organisation that is not the row's own is answered if and only if it has been handed the result of a flight started for the row's own organisation, never from memory; it reads the key if and only if that result still holds it. |
| `OrgIsolation.ForeignCallerServableExactlyWhen` | internal/cache/cache.go:90-99 | Such a caller can ever read the key on a slot if and only if the row is not revoked, Redis still holds the entry, a resolution holds the key, or the caller has yet to read a result that holds it. |
| `OrgIsolation.ForeignCallerWitness` | internal/cache/cache.go:90-99 | From an empty cache, for any caller of another organisation, a run to a state in which it reads the row's key. |
| `OrgIsolation.WaitingOwnerIsRefusedExactlyWhen` | internal/cache/cache.go:93-95 | Over every run from before the flight began: a waiting caller to whom the row is visible is told "not found or revoked" by a flight that ended with Postgres up if and only if the flight was started for another organisation. |
| `OrgIsolation.RefusedOwnerWitness` | internal/cache/cache.go:93-95 | From an empty cache, for any other organisation, a run in which the owner is so refused while its row is there, not revoked. |
| `CacheStaleness.RevokedServedOnlyWithin` | internal/cache/cache.go:103-183 | Main theorem. With every invalidation lost, a credential revoked at t is not served after t + RedisTTL + min(MemTTL, HardExpiry) + 2 delay, delay bounding one resolution from its read to its last write. |
| `CacheStaleness.StalenessBoundIsReached` | internal/cache/cache.go:103-183 | The bound is tight: for all limits some run from an empty cache serves the credential at that very tick. |
| `CacheStaleness.StepKeepsTimely` | internal/cache/cache.go:103-183 | Every step keeps the deadlines of Redis, memory (its TTL and its hard expiry) and resolutions in progress tied to the last moment the row was valid. |
| `CacheFinality.ServableExactlyWhenLive` | internal/cache/cache.go:250-259 | Main theorem. Once the row is revoked, an instance can ever serve the key again if and only if its memory still holds it, Redis still holds it, a resolution that read the row before has yet to write, or a caller has yet to read a result that still holds it. |
| `CacheFinality.InvalidationIsFinal` | internal/cache/invalidation.go:67-97 | Quiescent finality: row revoked, Redis entry deleted, no resolution carrying the key anywhere and no result on the instance unread; once the instance has processed the message, no later step on it serves the credential. |
| `CacheFinality.LocalClearDoesNotSuffice` | internal/cache/cache.go:250-259 | Clearing the local caches before Redis leaves the credential servable again. |
| `CacheFinality.DeadStaysDead` | internal/cache/cache.go:103-183 | Once nothing keeps a revoked credential alive for an instance, no step revives it. |
| `CacheFinality.CarryingFlightCanServe` | internal/cache/cache.go:103-183 | Any resolution that carries the secret can be driven to its answer. |
| `CacheManager.Managers.GetDecryptedCredential` | internal/cache/cache.go:69-100 | For the only caller of its slot: succeeds exactly when memory, a decryptable Redis entry, or (KMS and Postgres up) the visible row can answer; success is the row's own answer, a copy of its own or a result handed to nobody else, and leaves it in L1; the error is the database path's own; the call is a run of the modelled steps. |
| `CacheManager.Managers.ReadL1` | internal/cache/memory.go:43-53 | Answers exactly on a live, readable entry of the caller's organisation, and drops exactly the expired or unreadable entries it meets. |
| `CacheManager.Managers.ResolveFromLowerTiers` | internal/cache/cache.go:103-131 | A usable Redis entry answers; anything else falls through to Postgres; a success is promoted to L1 with a fresh hard expiry. |
| `CacheManager.Managers.AskRedis` | internal/cache/cache.go:105-127 | The Redis half: hit, foreign or missing or expired entry, undecryptable entry. |
| `CacheManager.Managers.ResolveFromDB` | internal/cache/cache.go:134-183 | Which error or answer, and what it leaves in Redis and memory. |
| `CacheManager.Managers.TryDecrypt` | internal/cache/cache.go:187-230 | decryptWithDEKCache computes its specification; it gets hold of exactly one plaintext DEK for each enclave that opens and each key KMS unwraps, and every one of those buffers is zeroed on all paths. |
| `CacheManager.Managers.DecryptRecord` | internal/cache/cache.go:146-165 | The KMS half of resolveFromDB: its one plaintext DEK is zeroed if and only if the key decrypts; otherwise the DEK stays in the buffer. |
| `CacheManager.Managers.PromoteToL1` | internal/cache/cache.go:234-246 | Seals a copy: the caller's slice survives although sealing wipes its source. |
| `CacheManager.Managers.AttachAndZero` | internal/proxy/director.go:84-91 | The proxy sends what the shared slice holds and then zeroes it: one modelled step. |
| `CacheManager.Managers.InvalidateCredential` | internal/cache/cache.go:250-259 | Local caches first, then Redis, then the message; a failing Redis keeps the message from being published, and either failure is reported; the rest of the state is untouched. |
| `CacheManager.Managers.ReadL2` | internal/cache/redis.go:36-50 | The Redis read is the modelled step: a hit carries the stored record, everything else is a miss. |
| `CacheManager.Managers.WriteL2` | internal/cache/redis.go:53-59 | The Redis write stores the still-encrypted record under a fresh TTL. |
| `CacheManager.AnswerIsTheRows` | internal/cache/cache.go:69-183 | In a faithful state every tier that answers gives the row's own answer. |
| `CacheInvalidation.Tiers.Subscribe` | internal/cache/invalidation.go:67-97 | After any stretch of messages exactly the named credentials, DEKs and API keys are gone and exactly the named tokens are marked; the order of the messages does not matter. |
| `TokenRevocation.AnswersRefineTheDatabase` | internal/cache/cache.go:274-309 | Main theorem. With lost messages, Redis down or its marks expired, a lookup asked after the row was revoked never answers false, and none answers true for a token whose row is not revoked. |
| `TokenRevocation.RevokedAnswersStay` | internal/cache/cache.go:274-309 | An instance that answered true once never answers false, or fails, for that token again. |
| `TokenRevocation.LookupAnswersTheRow` | internal/cache/cache.go:277-309 | With Postgres up, a lookup that nothing comes in between of answers what the row says, whatever Redis does. |
| `TokenRevocation.MarkAnswersAlone` | internal/cache/cache.go:280-293 | A live Redis mark answers without Postgres and teaches the instance. |
| `TokenRevocation.StepKeepsInv` | internal/cache/invalidation.go:57-63 | Every step keeps: no tier claims more than Postgres, and every pending or given answer is honest. |
| `TokenRevocation.Revocations.IsTokenRevoked` | internal/cache/cache.go:274-309 | An error-free answer is Postgres's answer; it fails exactly when both fast tiers miss and Postgres is down; what is promoted where. |
| `TokenRevocation.Revocations.InvalidateToken` | internal/cache/cache.go:262-274 | The local set is marked even when Redis fails, the Redis mark only when it does not, and only then is the message published; either failure is reported. |
| `SchemaFlattening.Catalog.Flatten` | cmd/fetchactions-oas3/parse.go:656-704 | Main theorem. From a closed map, whatever the iteration order, the keys afterwards are the old ones and exactly the components reachable from the name; old entries are untouched and each new entry is its component's own flattening. |
| `SchemaFlattening.Catalog.Visit` | cmd/fetchactions-oas3/parse.go:656-704 | The recursive call, with object nodes stored but not yet expanded exempted from closure: it terminates, adds only reachable components, and keeps everything closed but the exempted nodes. |
| `SchemaFlattening.Catalog.VisitArray` | cmd/fetchactions-oas3/parse.go:680-688 | The array branch, which stores after the recursive call and may find its own name stored by then. |
| `SchemaFlattening.Catalog.Follow` | cmd/fetchactions-oas3/parse.go:698-703 | The loop over property references in any order expands its node: the node leaves the exempted set. |
| `SchemaFlattening.Catalog.Extract` | cmd/fetchactions-oas3/parse.go:568-635 | Which response names the schema; components stay closed and exact; earlier entries stay; a new list or inline entry is what it should be. Asked only that the chains of arrays that the response reaches end. |
| `SchemaFlattening.Catalog.FlattenAll` | cmd/fetchactions-oas3/parse.go:568-635 | Over all operations whose responses reach only array chains that end: a component is in the map if and only if some response reaches it. |
| `SchemaReferences.ReferencesExactlyWhen` | cmd/fetchactions-oas3/parse.go:680-703 | Main theorem. In the document's own terms: a component refers to x if and only if it is an array whose items name x, or one of its properties names x and is unresolved, has no type, or is of type object. |
| `SchemaReferences.ReachableExactlyWhen` | cmd/fetchactions-oas3/parse.go:656-704 | Main theorem. What flattening reaches is exactly what chains of such references between resolvable components lead to. |
| `SchemaReferences.RefNameExactlyWhen` | cmd/fetchactions-oas3/parse.go:637-652 | A reference names x if and only if it is the document's prefix and x, or, foreign, ends in x after its last slash. |
| `SchemaReferences.PropertyKeepsReferenceExactlyWhen` | cmd/fetchactions-oas3/parse.go:709-736 | A property's schema_ref is x if and only if its proxy names x and is unresolved, has no type, or is of type object. |
| `SchemaReferences.PropertyIsDescribed` | cmd/fetchactions-oas3/parse.go:709-746 | A property's kind, description and nullability in every case. |
| `SchemaReferences.ComponentIsDescribed` | cmd/fetchactions-oas3/parse.go:671-695 | A component's kind, and which of items and properties its entry has. |
| `SchemaReferences.BodyIsUsed` | cmd/fetchactions-oas3/parse.go:588-607 | A response is taken whole if and only if it names a component, and as a list if and only if it does not but its items do. |
| `SchemaReferences.BodyIsTakenOver` | cmd/fetchactions-oas3/parse.go:609-630 | Otherwise its properties are taken over under the operation's name, when it has both. |
| `SchemaReferences.FirstUseIsFirst` | cmd/fetchactions-oas3/parse.go:573-634 | The first response that can be used at all is the one used. |
| `SchemaFlattening.ClosedContainsReachable` | cmd/fetchactions-oas3/parse.go:696-703 | A closed map with a component contains everything reachable from it. |
| `SchemaFlattening.LastSegmentIsLast` | cmd/fetchactions-oas3/parse.go:650-651 | The fallback name of a foreign reference is what follows its last slash. |
| `SchemaFlattening.ListNamesAreInjective` | cmd/fetchactions-oas3/parse.go:600-606 | Two list entries share a name only for the same item component. |
| `SchemaFlattening.InlineReferenceDangles` | cmd/fetchactions-oas3/parse.go:609-630 | A document and an operation whose inline entry has a resolvable reference to a component that is wanted by no response, so that it is not flattened. |
| `SchemaTermination.TerminatesExactlyWhenChainsEnd` | cmd/fetchactions-oas3/parse.go:680-703 | Main theorem. In every iteration order, from a closed map, flattening terminates if and only if every chain of array components reachable from the name ends; object cycles are harmless. |
| `SchemaTermination.ChainsMakeItTerminate` | cmd/fetchactions-oas3/parse.go:680-703 | Sufficiency, by components not yet stored and remaining chain length. |
| `SchemaTermination.EvalLeaves` | cmd/fetchactions-oas3/parse.go:680-687 | Necessity: a call that returns leaves only components whose array chains end. |
| `SchemaTermination.SelfArrayNeverReturns` | cmd/fetchactions-oas3/parse.go:680-687 | The witness: flattening an array of itself does not terminate, in any order. |
| `SchemaPaths.FlattenSchemaPaths` | internal/handler/actions.go:307-347 | Terminates on cyclic schemas and returns, sorted by path, exactly the multiset of specified entries, whatever order the properties are visited in. |
| `SchemaPaths.LessIsDictionaryOrder` | internal/handler/actions.go:342-344 | The order is the dictionary order: a proper prefix comes first, else the first difference decides. |
| `SchemaPaths.SortedIsAscending` | internal/handler/actions.go:342-344 | In a sorted answer no later path comes before an earlier one in that order. |
| `SchemaPaths.EntriesAreCounted` | internal/handler/actions.go:307-347 | Main theorem. Each entry occurs exactly as often as there are walks of fewer than maxDepth object references that it stands for: one per property of each object schema reached, one per array schema reached. |
| `SchemaPaths.EntriesAreWalks` | internal/handler/actions.go:307-347 | In particular the entries are exactly those of such walks. |
| `SchemaPaths.PathsOfAnyOrder` | internal/handler/actions.go:326-340 | Any property may be visited first. |
| `SchemaPathOrder.OneAnswerExactlyWhen` | internal/handler/actions.go:326-346 | Main theorem. All iteration orders give the same answer if and only if no two walks over the schemas end at one path with different kinds. |
| `SchemaPathOrder.OneAnswerWithPlainNames` | internal/handler/actions.go:314-346 | Main theorem. When no property name is empty or has a dot: if and only if no property leads to an array schema within maxDepth. |
| `SchemaPathOrder.SortedAnswerIsUnique` | internal/handler/actions.go:342-346 | Two sorted answers with the same entries are equal when entries with one path are equal. |
| `KeysetPaging.WalkNeverRepeats` | internal/handler/pagination.go:84-89 | Main theorem. However the table changes between requests, following next_cursor gives rows in strictly descending order, so none twice. |
| `KeysetPaging.CompletedWalkMissesNothing` | internal/handler/pagination.go:84-89 | Main theorem. A completed walk shows every row that was there throughout. |
| `KeysetPaging.WalkShowsOnlyRows` | internal/handler/api_keys.go:175-222 | Every row shown was in the table when its page was read. |
| `KeysetPaging.UnchangedTableIsListed` | internal/handler/audit.go:70-143 | On an unchanged table the pages concatenate to the sorted list, in exactly the least number of requests. |
| `KeysetPaging.PageCountIsCeiling` | internal/handler/audit.go:102-105 | That number is max(1, ceil(n / limit)). |
| `KeysetPaging.PageAtCoversTop` | internal/handler/api_keys.go:175-187 | Fetching limit + 1 rows is enough: a page is descending, skips nothing above its next cursor, and has one exactly when there is more. |
| `KeysetPaging.List` | internal/handler/api_keys.go:184-222 | The handler's truncation, rendering loop and next cursor are those of the page. |
| `KeysetPaging.RankPreservesOrder` | internal/handler/pagination.go:86-88 | The SQL row comparison on (created_at, id) is a strict total order, the order of one integer. |
| `CursorCodec.CursorRoundTrip` | internal/handler/pagination.go:50-73 | Main theorem. decodeCursor(encodeCursor(t, id)) is t and id for four-digit years and whole-minute offsets, and the text is never empty or "0". |
| `CursorCodec.QuantaRoundTrip` | internal/handler/pagination.go:52-59 | URL-safe base64 with padding: decoding an encoding gives the bytes back (section 5 of RFC 4648). |
| `CursorCodec.StampRoundTrip` | internal/handler/pagination.go:51-67 | The timestamp text reads back as the same civil time, nanoseconds and offset (section 5.6 of RFC 3339). |
| `CursorCodec.UUIDRoundTrip` | internal/handler/pagination.go:51-71 | The identifier text reads back as the same sixteen bytes. |
| `CursorText.EncodedCharacter` | internal/handler/pagination.go:50-53 | Main theorem. The encoding has four characters for each three bytes begun; each stands for its six bits in the alphabet of RFC 4648, section 5, and `=` fills up. |
| `CursorText.QuantaAreReadExactlyWhen` | internal/handler/pagination.go:55-59 | A text is read as base64 if and only if it is whole groups of four letters of the alphabet, the last one padded by at most two `=`. |
| `CursorText.BreaksAreSkipped` | internal/handler/pagination.go:55-59 | The decoder skips line breaks wherever they stand, and nothing else. |
| `CursorText.StampIsRFC3339` | internal/handler/pagination.go:50-53 | The timestamp is yyyy-mm-ddThh:mm:ss, a fraction without trailing zeros or none, and Z or a signed hh:mm (section 5.6 of RFC 3339). |
| `CursorText.ReadCursorIsValid` | internal/handler/pagination.go:55-73 | Main theorem. Whatever text a client sends, what is read from it is a calendar time and sixteen octets, and has a text that reads back the same. |
| `CursorText.UUIDIsReadExactlyWhen` | internal/handler/pagination.go:68-71 | Exactly the dashed form with 32 hexadecimal digits is read. |
| `CursorCodec.SplitOnce` | internal/handler/pagination.go:75-82 | Splits at the first separator, or not at all. |
| `CursorCodec.SplitAtFirst` | internal/handler/pagination.go:75-82 | What the split is when the first separator stands at a given place; with CursorTextIsPlain it is the cursor's own bar. |
| `CursorCodec.ParsePagination` | internal/handler/pagination.go:25-48 | Which inputs are rejected and why, the clamped limit, and no cursor exactly for the empty text and "0". |
| `CursorWalk.TextWalkIsWalk` | internal/handler/pagination.go:25-89 | Main theorem. A client that sends back each next_cursor text is never rejected, and is shown, page by page, the rows of the walk over the sort keys, however the table changes. |
| `CursorWalk.ResponseIsPage` | internal/handler/api_keys.go:184-222 | One response holds the rows of the page, and the text in it leads back to the position of the last of them. |
| `CursorWalk.TextWalkNeverRepeats` | internal/handler/pagination.go:50-89 | Through the text, no row comes twice. |
| `CursorWalk.CompletedTextWalkMissesNothing` | internal/handler/pagination.go:50-89 | Through the text, a completed walk shows every row that was there throughout. |
| `ParameterBuilding.BuildParameters` | cmd/fetchactions-oas3/parse.go:297-463 | Main theorem. For every operation: which names become properties and with whose definition (parameter object, else placeholder, else first body field); the query and body mappings are disjoint identity maps on properties; `required` has no duplicates, only properties, and exactly the path parameters, the bare placeholders and what the body demands. |
| `ParameterBuilding.OperationTakesPrecedence` | cmd/fetchactions-oas3/parse.go:337-344 | An operation-level parameter hides a path-item one of the same name (section 4.8.12 of OpenAPI 3.1.0). |
| `ParameterDefinitions.ParameterIsDefined` | cmd/fetchactions-oas3/parse.go:304-331 | The first parameter of a name gives its property: its own kind or string, its own description, cut to 197 characters and three dots when longer than 200. |
| `ParameterDefinitions.FieldIsDefined` | cmd/fetchactions-oas3/parse.go:391-419 | The same of the first body field of a name that no parameter and no placeholder defines. |
| `ParameterDefinitions.BodyFieldsInOrder` | cmd/fetchactions-oas3/parse.go:377-391 | The fields are those of the body's own schema, then of its oneOf, then of its anyOf alternatives that resolve. |
| `ParameterDefinitions.DemandedExactlyWhen` | cmd/fetchactions-oas3/parse.go:421-426 | A name is made required by the body if and only if some schema requires it and it was defined before, or by that schema or an earlier one. |
| `ParameterBuilding.PlaceholdersOccur` | cmd/fetchactions-oas3/parse.go:347-348 | Every match of the placeholder expression stands between braces in the path. |
| `ParameterBuilding.MatchStartsExactlyWhen` | cmd/fetchactions-oas3/parse.go:347-348 | A match starts at a position if and only if the expression fits there and every opening brace before it is closed before it. |
| `ParameterBuilding.FoundExactlyWhen` | cmd/fetchactions-oas3/parse.go:347-348 | The placeholders are exactly the non-empty names between braces, with no closing brace inside, that have no unclosed brace before them. |
| `ParameterBuilding.PlaceholdersAreFound` | cmd/fetchactions-oas3/parse.go:347-348 | Every `{name}` in the path is found, unless an opening brace before it is still unclosed. |
| `ParameterBuilding.ProcessParams` | cmd/fetchactions-oas3/parse.go:304-344 | The first parameter of each name counts, nameless ones are ignored. |
| `ParameterBuilding.AddBody` | cmd/fetchactions-oas3/parse.go:360-427 | Fields already defined are skipped; a required name counts only if it is a property by then. |
| `ParameterBuilding.DedupStrings` | cmd/fetchactions-oas3/parse.go:553-563 | The same strings, each once, in the order of first appearance. |
| `SdlScanner.ExtractBraceBlock` | cmd/fetchactions-graphql/sdl.go:168-186 | Returns the text of the first block that closes everything open, or "" when none does; never slices from -1. |
| `SdlScanner.BlockIsBalanced` | cmd/fetchactions-graphql/sdl.go:168-186 | What is returned is brace-balanced with every prefix non-negative. |
| `SdlScanner.StartsAtFirstBraceExactlyWhen` | cmd/fetchactions-graphql/sdl.go:167-186 | The block starts at the first opening brace if and only if no closing brace stands before that brace. |
| `SdlScanner.FirstBraceIsTakenExactlyWhen` | cmd/fetchactions-graphql/sdl.go:167-186 | When the first opening brace has a match, the block between them is the one returned if and only if no closing brace stands before. |
| `SdlScanner.FirstBlockIsUnique` | cmd/fetchactions-graphql/sdl.go:168-186 | There is at most one block that the scanner can return. |
| `SdlScanner.StrayBraceHidesBlock` | cmd/fetchactions-graphql/sdl.go:152-186 | A concrete text, matched by the expression that finds type blocks, where a stray closing brace hides a balanced block. |
| `SdlScanner.SplitArgs` | cmd/fetchactions-graphql/sdl.go:376-395 | The loop computes the split. |
| `SdlScanner.PartsAreTheSplit` | cmd/fetchactions-graphql/sdl.go:376-395 | It is the one split whose parts joined with "," restore the input, none holding a comma at bracket depth 0 and all but the last balanced. |
| `SdlScanner.NestingCounts` | cmd/fetchactions-graphql/sdl.go:381-386 | The depth that decides is the opening round and square brackets minus the closing ones. |
| `SdlFields.ParseFieldsFromBlock` | cmd/fetchactions-graphql/sdl.go:190-283 | The line loop, with descriptions, comments and parenthesis depth, computes its specification; the lemmas on laid-out bodies are about that specification. |
| `SdlFields.ParseArgs` | cmd/fetchactions-graphql/sdl.go:315-341 | Comma-separated parsing first, the regular expression when it finds nothing. |
| `SdlBlocks.LayoutNeverMatters` | cmd/fetchactions-graphql/sdl.go:190-283 | Main theorem. Two layouts of the same fields with the same commas (any line breaks and white space between tokens inside the parentheses, any blank lines and indentation between fields) read as the same fields in the same order. |
| `SdlBlocks.BodyIsRead` | cmd/fetchactions-graphql/sdl.go:190-338 | Main theorem. A body of fields without descriptions, directives or defaults is read, in order, from every layout, with a comma or white space in each gap between arguments; each field keeps exactly the arguments that `SdlLayout.ReadArgs` names. |
| `SdlBlocks.AllArgsReadExactlyWhen` | cmd/fetchactions-graphql/sdl.go:315-341 | Every argument is read if and only if either there are commas and they separate all arguments, or no argument is alone between commas (with commas at all) and no argument type has more than one list layer. |
| `SdlBlocks.LineKeepsArgsExactlyWhen` | cmd/fetchactions-graphql/sdl.go:289-341 | The same of parseFieldLine on the text of any layout. |
| `SdlBlocks.BodyLosesNothingExactlyWhen` | cmd/fetchactions-graphql/sdl.go:190-341 | Main theorem. A whole body is read back without loss if and only if that holds of each of its fields. |
| `SdlBlocks.FieldIsAdded` | cmd/fetchactions-graphql/sdl.go:255-278 | Going over the lines of one field adds exactly that field. |
| `SdlDescriptions.DocumentedBodyIsRead` | cmd/fetchactions-graphql/sdl.go:190-283 | Main theorem. A body whose fields have comments and empty lines, and a description on one line, in a block or in quotes, before them is read back in order from every layout, each field with its own description: the text between the quotes, or the trimmed lines of the block joined by single spaces. |
| `SdlDescriptions.QuotedIsWholeExactlyWhen` | cmd/fetchactions-graphql/sdl.go:241-247 | A quoted description is the text between the quotes if and only if that text does not itself end in one. |
| `SdlDescriptions.FieldBehindDescriptionIsLost` | cmd/fetchactions-graphql/sdl.go:219-247 | A line that starts with a quote gives no field, whatever follows the description on it. |
| `SdlDecorations.DirectivesAreIgnored` | cmd/fetchactions-graphql/sdl.go:286-311 | parseFieldLine reads a field with directives behind it as if they were not there. |
| `SdlDecorations.TypeIsBeforeDirectives` | cmd/fetchactions-graphql/sdl.go:286-303 | The type is everything between the colon and the directives. |
| `SdlDecorations.DefaultIsDropped` | cmd/fetchactions-graphql/sdl.go:398-433 | parseOneArg drops a default value and keeps the type. |
| `SdlDecorations.ArgDescriptionIsRead` | cmd/fetchactions-graphql/sdl.go:401-421 | parseOneArg takes the description in front of an argument, between three quotes or one. |
| `SdlDecorations.SecondDescriptionIsSkipped` | cmd/fetchactions-graphql/sdl.go:398-399 | One more description between triple quotes is skipped by the expression itself. |
| `SdlDecorations.RegexReadsDescription` | cmd/fetchactions-graphql/sdl.go:346-359 | The regular expression takes the description in front of an argument, its words joined by single spaces. |
| `SdlLayout.RejoinField` | cmd/fetchactions-graphql/sdl.go:255-260 | Joining the trimmed lines of a field only changes its white space. |
| `SdlFieldReading.FieldIsRead` | cmd/fetchactions-graphql/sdl.go:289-311 | parseFieldLine reads a field back whatever its gaps are. |
| `SdlFieldReading.ArgsAreRead` | cmd/fetchactions-graphql/sdl.go:315-341 | parseArgs on any list, commas and white space mixed: the arguments alone between commas if there are any, else what the regular expression finds. |
| `SdlReading.OneArgIsRead` | cmd/fetchactions-graphql/sdl.go:401-441 | parseOneArg reads `name: Type` back, and requiredness from the final `!`. |
| `SdlReading.LoneArgsAreRead` | cmd/fetchactions-graphql/sdl.go:320-338 | The comma-separated parts are read exactly where they hold one argument. |
| `SdlReading.RegexReadsList` | cmd/fetchactions-graphql/sdl.go:346-373 | The regular expression finds, in order, exactly the arguments with at most one list layer, whatever separates them. |
| `SdlReading.TypeMatches` | cmd/fetchactions-graphql/sdl.go:346-348 | It matches a whole type of at most one list layer, and nothing of another. |
| `SdlReading.UnseparatedPairIsRejected` | cmd/fetchactions-graphql/sdl.go:398-426 | parseOneArg rejects a part that holds several arguments separated by white space alone. |
| `SnakeCase.ResultIsKey` | cmd/fetchactions-oas3/naming.go:14-42 | Every result is over [a-z0-9_] without a leading, trailing or doubled underscore. |
| `SnakeCase.KeysAreFixedPoints` | cmd/fetchactions-oas3/naming.go:14-42 | Exactly such strings are left as they are. |
| `SnakeCase.Idempotent` | cmd/fetchactions-oas3/naming.go:14-42 | Normalising twice is normalising once. |
| `SnakeCase.LettersSurvive` | cmd/fetchactions-oas3/naming.go:14-42 | The result holds all lower-cased ASCII letters and digits of the input, in order, and no others. |
| `SnakeCase.UnderscoresExactlyWhere` | cmd/fetchactions-oas3/naming.go:14-42 | Main theorem. The key is the letters of the input in order; between two neighbouring ones stands exactly one underscore if a character between them was dropped or the second starts a word (a capital after a small letter or digit, or the last of several capitals before a small letter), and nothing otherwise. |
| `SnakeCase.WordStartsExactlyWhen` | cmd/fetchactions-oas3/naming.go:23-31 | In ASCII text a word starts at a capital behind a small letter or a digit, or between a capital and a small letter, and nowhere else. |
| `SnakeCase.SplitCamelCase` | cmd/fetchactions-oas3/naming.go:20-34 | The loop over runes computes the camel-case split. |
| `Classification.OneAnswerExactlyWhen` | cmd/fetchactions-oas3/parse.go:752-774 | matchResourceByPath gives one answer for all map orders if and only if at most one resource owns the exact path or, without one, the longest matching prefix. |
| `Classification.NothingSharedSuffices` | cmd/fetchactions-oas3/parse.go:752-774 | In particular when no exact path and no prefix is listed for two resources. |
| `Classification.MatchResourceByPath` | cmd/fetchactions-oas3/parse.go:752-774 | An exact owner, else an owner of the longest non-empty matching prefix, else "". |
| `Classification.WinnerCanAnswer` | cmd/fetchactions-oas3/parse.go:752-774 | Each such owner is the answer in some order. |
| `Classification.InferResourceType` | cmd/fetchactions-graphql/parse.go:474-488 | The type of the longest non-empty matching prefix, else "". |
| `Classification.InferredIsUnique` | cmd/fetchactions-graphql/parse.go:474-488 | So the order of the map never matters. |

## Left out

- HTTP handlers, routing, authentication, start-up, billing, e-mail, sandbox tools and generated code: plumbing without an algorithm of its own.
- Cryptography, KMS, memguard, JWT and bcrypt: abstract functions with the law named above; JSON encoding of the Redis record is not modelled, an unreadable record is a Redis error.
- int64 overflow of INCR and DECR, and of Go's duration arithmetic: integers are unbounded.
- Rounding of timestamps by Postgres: times are ticks, so that a stamp is read back as it was written. Were it rounded, a refill could lose its compare-and-swap, never win it twice.
- The size bound of the in-memory caches and the TTL of the DEK cache: any entry may be evicted at any time, which covers both. A memory TTL of zero, which the library takes as none, is a `memoryTTL` longer than the hard expiry.
- A shared slice read while another caller is zeroing it: reading it and zeroing it are single steps. Callers that zero nothing (`internal/tasks/conversation_name.go`) are the step `Leave`.
- Edits of a stored credential's ciphertext or settings, and of a counter's amount or interval: both are fixed over a run.
- `CounterObject.Counter.CheckAndRefill`: one racing refill is interleaved between its read and its update; all other interleavings are those of the transition system in `RequestCounter`.
- `CacheManager.Managers.GetDecryptedCredential`: the method is the only caller of its slot while it runs; concurrent callers, who share a flight, are those of the transition system in `CredentialCache`.
- `CacheManager.Managers.InvalidateCredential`: `published` only grows; delivery to an instance is a step that may happen at any time or never.
- What a tool call of the MCP builder does besides its decrement, and the counter's Read and Delete: one call each.
- `internal/cache/apikey.go` and the API key cache beyond its invalidation: settled by reading one branch.
- `SchemaFlattening.Catalog.Extract`: models the OpenAPI 3 extractor; the Swagger 2 one tests the type of an inline object where this one tests the operation id. Claims about components exclude made-up names that clash with a component.
- The Swagger 2 parameter builder: it takes body fields inline while it walks the parameters, and adds no harder property.
- `inferResponsePath`, `inferAccess`, `toDisplayName`, tag and path filters, truncation of display texts: one branch each.
- `CursorCodec.CursorRoundTrip`: years outside 0 to 9999 and offsets with seconds are excluded, because the text form cannot carry them; time.Parse's lenient fallback and uuid.Parse's other notations are not modelled, so the decoder may accept more than the model does.
- `CursorWalk.TextWalkIsWalk`: which instant the database gives a civil time is a parameter; a row is identified by its identifier.
- `KeysetPaging.List`: the rendering of a row is a parameter; the filters of the query only choose the table.
- `SdlBlocks.BodyIsRead`: leading, trailing and repeated commas and empty parentheses are parsed by the modelled parser but are outside this theorem; directives, default values and descriptions of arguments are the subject of `SdlDecorations`, one at a time.
- Resolution of the Query and Mutation type names and the search for type blocks (`parseSDL`): library regular expressions around the modelled scanner.
