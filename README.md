# CEP tracker — a verified model of the lookup pipeline

This project models the core of the CEP tracker. The tracker is a Spring Boot service that resolves a Brazilian postal code (CEP) to an address. It reads a Redis cache first and calls an upstream web service on a miss. It writes found records back to the cache with a TTL, and it records every request in an audit table.

The model covers six parts of the Java code:

- the cache-aside lookup with its request, hit and miss counters (`CepServiceImpl.findCep`);
- the Redis cache service (`CacheServiceImpl.save`/`get`);
- the audit service (`AuditServiceImpl.logCepRequest`/`findById`);
- the audit repository's counting and listing queries (`CepAuditLogRepository`);
- the REST controller (`CepController.getCep`, `getClientIpAddress`, `serializeToJson`);
- the global exception handler (`GlobalExceptionHandler`).

Every stateful bean is a Dafny `class` whose fields the methods update: the cache entries, the counters, the audit table and the clock. Each method is proved equal to a pure specification function over a snapshot of that state. The properties are lemmas about those functions. Nondeterministic collaborators are schedules fixed when a bean is constructed:

| Collaborator | Schedule | Indexed by |
|---|---|---|
| Redis | `faults(k)` is the exception raised by the k-th store operation, or none | number of store operations |
| Database | `faults(k)` is the exception raised by the k-th insert, or none | number of inserts |
| Upstream web service | `reply(cep, k)` is the record, null, or exception returned by the k-th call | number of calls |
| System clock | `reading(k)` is the k-th clock reading | number of readings |

Jackson is an opaque `Codec`. Writing may fail. Reading may fail or yield null. `RoundTrips` states that the codec reads back whatever it writes. Java's nullable references are `Option`, and a thrown exception is `Throw(Exception(kind, message))`.

Files:

| File | Modules |
|---|---|
| `domain.dfy` | records, exceptions, the mapper, the clock |
| `cache.dfy` | `Cache` |
| `cep_service.dfy` | `ApiClient` and `CepLookup` |
| `audit_repository.dfy` | `AuditOrdering` and `AuditRepository` |
| `audit_service.dfy` | `Audit` |
| `exception_handler.dfy` | `Http` and `ExceptionHandler` |
| `client_address.dfy` | `ClientAddress`: header precedence, Java's `split(",")` and `trim()` |
| `cep_controller.dfy` | `Controller`: `getCep`, and the framework's validation and dispatch around it |

### Where the code and the intended design differ

The model follows the code. The service's intended design promises several things the code does not do.

- **Cache faults are not absorbed.** The intended design has cache failures degrade to a miss. `CacheServiceImpl` catches only `JsonProcessingException`, so a failing Redis read or write propagates out of `findCep`. The controller's catch block then answers 500 (`Cache.GetLeavesEntries`, `Controller.LookupFailureIsAudited`).
- **The counters do not always balance.** `requests == hits + misses` holds only while the cache read does not throw. A failed read counts a request but neither a hit nor a miss (`CepLookup.CountersBalance`).
- **The audit is not exactly once.** If the audit insert in the success or not-found branch throws, the catch block audits a second time, and the caller gets 500 instead of the lookup's answer (`Controller.AuditFailureIsRetried`).
- **Some requests are not audited at all.**
  - If the second audit insert also throws, the exception escapes.
  - If `X-Forwarded-For` consists only of commas, `split(",")` returns an empty array and `[0]` throws before the `try` (`Controller.CommaOnlyForwardedForSkipsAudit`).
  - In both cases no entry is written, and the global handler answers a generic 500 (`Controller.OneEntryPerAnswer`).
- **The 500 body exposes the exception.** The controller's own 500 body carries `e.getMessage()` as its details, whereas the intended design asks for a generic body (`Controller.LookupFailureIsAudited`).
- **The 503 handler is unreachable from `getCep`.** The controller catches every exception, so an upstream failure is a 500 from the controller (`Controller.ServeStatuses`).

## Model

All source paths are relative to the repository root. The prefix `src/main/java/com/stefanini/ceptracker/` is written out in full.

| member | source | states |
|---|---|---|
| Domain.ResponseToString | src/main/java/com/stefanini/ceptracker/domain/dto/CepResponse.java:11-47 | The Lombok `toString` of the record begins with `CepResponse(cep=` and ends with `)`, so it is never empty. |
| SystemClock.Clock.Now | src/main/java/com/stefanini/ceptracker/presentation/controller/CepController.java:34 | Each clock reading takes the next value of the clock's schedule and advances it by one. |
| Cache.Decode | src/main/java/com/stefanini/ceptracker/application/service/CacheServiceImpl.java:33-43 | A fault-free `get` yields null for an absent key and for unreadable JSON. Any record it yields is what the mapper reads from the stored text. |
| Cache.CacheSave | src/main/java/com/stefanini/ceptracker/application/service/CacheServiceImpl.java:21-30 | `save` changes at most the entry under its key, stored with exactly the given TTL. A fault-free save of a writable record stores its JSON under the key with that TTL and returns normally. A store fault throws with the store's message and leaves the entries unchanged. A serialisation failure is swallowed and touches nothing. |
| Cache.ReadAfterWrite | src/main/java/com/stefanini/ceptracker/application/service/CacheServiceImpl.java:22-43 | With a round-tripping mapper and no store faults, a `get` right after a `save` of the same key returns the saved record. The stored TTL is the one given. |
| Cache.GetLeavesEntries | src/main/java/com/stefanini/ceptracker/application/service/CacheServiceImpl.java:33-43 | `get` never changes the entries. It throws exactly when the store faults, and then with the store's message: store faults are not absorbed. A fault-free read of an absent key returns null. |
| Cache.CacheServiceImpl.Save | src/main/java/com/stefanini/ceptracker/application/service/CacheServiceImpl.java:21-30 | The method's result and new map and operation count are those of `CacheSave`. |
| Cache.CacheServiceImpl.Get | src/main/java/com/stefanini/ceptracker/application/service/CacheServiceImpl.java:32-43 | The method's result and new state are those of `CacheGet`. |
| ApiClient.CepApiClient.FindCep | src/main/java/com/stefanini/ceptracker/application/service/CepServiceImpl.java:61 | Each upstream call is logged with its CEP and completes as the reply schedule says for that call. |
| CepLookup.CacheKey | src/main/java/com/stefanini/ceptracker/application/service/CepServiceImpl.java:47 | The cache key is `"cep:"` followed by the CEP verbatim. |
| CepLookup.CacheKeyInjective | src/main/java/com/stefanini/ceptracker/application/service/CepServiceImpl.java:47 | Distinct CEPs never share a cache key. |
| CepLookup.HitSkipsProvider | src/main/java/com/stefanini/ceptracker/application/service/CepServiceImpl.java:50-55 | On a cache hit the cached record is returned unchanged, the upstream is not called, the cache is not written, and only the hit counter moves. |
| CepLookup.MissCallsProviderOnce | src/main/java/com/stefanini/ceptracker/application/service/CepServiceImpl.java:57-69 | On a miss the upstream is called exactly once, for this CEP, and the miss counter moves. Its reply is returned unchanged unless the cache write-back throws, which needs a store fault. |
| CepLookup.AtMostOneWrite | src/main/java/com/stefanini/ceptracker/application/service/CepServiceImpl.java:39-66 | A call leaves the cache unchanged except for at most one write. That write happens only on the miss path, of a non-null reply whose `erro` is not true, under the CEP's key, as the mapper's JSON, with the configured TTL. A null or `erro == true` reply is never cached. |
| CepLookup.MissWritesFound | src/main/java/com/stefanini/ceptracker/application/service/CepServiceImpl.java:57-69 | Conversely, on a miss a found reply that the mapper can serialise is written back under the CEP's key, as its JSON, with the configured TTL, and returned as it is, when neither store operation faults. |
| CepLookup.DefaultTtlIsOneHour | src/main/java/com/stefanini/ceptracker/application/service/CepServiceImpl.java:39-40 | With the TTL property unset, the record written back on a miss is cached for 3600 seconds. |
| CepLookup.CountersBalance | src/main/java/com/stefanini/ceptracker/application/service/CepServiceImpl.java:45-57 | Each call adds one request and one of hit or miss, except when the cache read throws, which adds neither. `hits + misses <= requests` is preserved. |
| CepLookup.SecondCallHits | src/test/java/com/stefanini/ceptracker/integration/CepTrackerIntegrationTest.java:104-112 | After a call that returns a found record, the next call for the same CEP is a hit. It returns the same record without calling the upstream, given a round-tripping mapper and fault-free reads. |
| CepLookup.CepServiceImpl.FindCep | src/main/java/com/stefanini/ceptracker/application/service/CepServiceImpl.java:44-70 | The method's result, counters, cache and upstream call log are those of `FindCepSpec`. |
| CepLookup.CepServiceImpl.constructor | src/main/java/com/stefanini/ceptracker/application/service/CepServiceImpl.java:26-40 | The service starts with all three counters at zero, and its TTL is the configured property, or 3600 seconds when the property is unset. |
| AuditOrdering.InsertByTimestamp | src/main/java/com/stefanini/ceptracker/infrastructure/repository/CepAuditLogRepository.java:17 | Inserting into a newest-first sequence keeps it newest first and adds exactly the one entry. |
| AuditOrdering.SortNewestFirst | src/main/java/com/stefanini/ceptracker/infrastructure/repository/CepAuditLogRepository.java:17-21 | `ORDER BY requestTimestamp DESC` yields a newest-first permutation of its input. |
| AuditRepository.CountsPartition | src/main/java/com/stefanini/ceptracker/infrastructure/repository/CepAuditLogRepository.java:23-27 | Successful plus failed counts equal the number of stored entries. |
| AuditRepository.CountsAfterAppend | src/main/java/com/stefanini/ceptracker/infrastructure/repository/CepAuditLogRepository.java:23-27 | Appending an entry adds one to the count matching its flag and leaves the other count unchanged. |
| AuditRepository.CountWhereZero | src/main/java/com/stefanini/ceptracker/infrastructure/repository/CepAuditLogRepository.java:23-27 | A count is zero exactly when no entry carries that flag. |
| AuditRepository.CountSuccessfulRequests | src/main/java/com/stefanini/ceptracker/infrastructure/repository/CepAuditLogRepository.java:23-24 | The successful count is zero exactly when no stored entry is a success. |
| AuditRepository.CountFailedRequests | src/main/java/com/stefanini/ceptracker/infrastructure/repository/CepAuditLogRepository.java:26-27 | The failed count is zero exactly when every stored entry is a success. |
| AuditRepository.Select | src/main/java/com/stefanini/ceptracker/infrastructure/repository/CepAuditLogRepository.java:17-21 | A `WHERE` selection holds exactly the stored entries that satisfy the condition, each exactly as many times as it is stored. |
| AuditRepository.PageOf | src/main/java/com/stefanini/ceptracker/infrastructure/repository/CepAuditLogRepository.java:17 | A page is the slice `[page*size, page*size+size)` of the listing, cut at its end, and empty past it. |
| AuditRepository.SortedSelection | src/main/java/com/stefanini/ceptracker/infrastructure/repository/CepAuditLogRepository.java:17-21 | A sorted selection is newest first and holds exactly the selected entries. |
| AuditRepository.PageIsSlice | src/main/java/com/stefanini/ceptracker/infrastructure/repository/CepAuditLogRepository.java:17 | A page keeps the listing's order and holds nothing that is not in it. |
| AuditRepository.ByCepListing | src/main/java/com/stefanini/ceptracker/infrastructure/repository/CepAuditLogRepository.java:17 | The by-CEP listing holds exactly the stored entries for that CEP, newest first. Each of its pages holds only such entries, newest first. |
| AuditRepository.BetweenListing | src/main/java/com/stefanini/ceptracker/infrastructure/repository/CepAuditLogRepository.java:19-21 | The range query returns exactly the entries with `start <= requestTimestamp <= end` (inclusive at both ends), newest first. |
| AuditRepository.FindByCepOrderByRequestTimestampDesc | src/main/java/com/stefanini/ceptracker/infrastructure/repository/CepAuditLogRepository.java:17 | A page of the by-CEP query holds at most the page size of entries, all stored and all for that CEP, newest first. |
| AuditRepository.FindByRequestTimestampBetween | src/main/java/com/stefanini/ceptracker/infrastructure/repository/CepAuditLogRepository.java:19-21 | The range query holds exactly the stored entries with `start <= requestTimestamp <= end`, newest first. |
| AuditRepository.FindById | src/main/java/com/stefanini/ceptracker/application/service/AuditServiceImpl.java:42 | The lookup finds an entry exactly when some stored entry carries the id, and what it finds is that stored entry. |
| AuditRepository.SaveThenFind | src/main/java/com/stefanini/ceptracker/application/service/AuditServiceImpl.java:36 | An insert keeps the identity column consistent. The saved entry gets the next id and is what a lookup by that id returns. |
| AuditRepository.SaveKeepsIds | src/main/java/com/stefanini/ceptracker/application/service/AuditServiceImpl.java:36 | Inserting preserves the identity-column invariant: ids are unique, ascending, and below the next id. |
| AuditRepository.FindAfterFreshId | src/main/java/com/stefanini/ceptracker/application/service/AuditServiceImpl.java:42 | A lookup by an id that no earlier entry carries finds the appended entry. |
| AuditRepository.CepAuditLogRepository.Save | src/main/java/com/stefanini/ceptracker/application/service/AuditServiceImpl.java:36 | The method's result and new table are those of `SaveSpec`, and the identity invariant is kept. |
| Audit.LogAppendsOne | src/main/java/com/stefanini/ceptracker/application/service/AuditServiceImpl.java:21-38 | Each call makes one insert attempt. On success exactly one entry is appended: the arguments verbatim, the time of the call as timestamp, and the next id. On failure the table is unchanged and the database's exception propagates. |
| Audit.LogUpdatesCounts | src/main/java/com/stefanini/ceptracker/application/service/AuditServiceImpl.java:36 | A successful log adds one to the successful or the failed count, according to its flag, and the counts still sum to the total. |
| Audit.DigitsRoundTrip | src/main/java/com/stefanini/ceptracker/application/service/AuditServiceImpl.java:43 | Reading back the decimal digits printed for an id yields the id. |
| Audit.LongToString | src/main/java/com/stefanini/ceptracker/application/service/AuditServiceImpl.java:43 | `Long.toString` gives a non-empty text: a sign or digit first, digits after it. |
| Audit.SignShown | src/main/java/com/stefanini/ceptracker/application/service/AuditServiceImpl.java:43 | A printed id starts with `-` exactly when it is negative. |
| Audit.LongToStringInjective | src/main/java/com/stefanini/ceptracker/application/service/AuditServiceImpl.java:43 | Distinct ids print differently. |
| Audit.FindByIdOrThrow | src/main/java/com/stefanini/ceptracker/application/service/AuditServiceImpl.java:41-44 | `findById` returns the stored entry exactly when some entry carries the id. Otherwise it throws `EntityNotFoundException` with the not-found message for that id. |
| Audit.NotFoundNamesId | src/main/java/com/stefanini/ceptracker/application/service/AuditServiceImpl.java:43 | Failed lookups for different ids fail with different messages. |
| Audit.AuditServiceImpl.LogCepRequest | src/main/java/com/stefanini/ceptracker/application/service/AuditServiceImpl.java:21-38 | The method takes one clock reading. Its result and new table are those of `LogCepRequestSpec` at that reading. |
| Audit.AuditServiceImpl.FindById | src/main/java/com/stefanini/ceptracker/application/service/AuditServiceImpl.java:41-44 | The bean's lookup succeeds exactly when the table holds an entry with the id, and then returns a stored entry with that id. Otherwise it throws `EntityNotFoundException` naming the id. |
| ExceptionHandler.Handle | src/main/java/com/stefanini/ceptracker/presentation/exception/GlobalExceptionHandler.java:18-62 | A constraint violation maps to 400, entity-not-found to 404, `CepApiException` to 503, and anything else to 500. Only the 404 has no body. The 400 body is `"Dados inválidos"` with the exception's message, the 503 body is `"Erro na consulta do CEP"` with the exception's message, and the 500 body is `"Erro interno do servidor"` with `"Ocorreu um erro inesperado"`. Each error body carries the handler's clock reading. |
| ExceptionHandler.StatusDeterminesKind | src/main/java/com/stefanini/ceptracker/presentation/exception/GlobalExceptionHandler.java:18-62 | Two exceptions get the same status exactly when they are of the same class, and no handler answers 200. |
| ExceptionHandler.GenericHidesMessage | src/main/java/com/stefanini/ceptracker/presentation/exception/GlobalExceptionHandler.java:51-62 | The generic handler's response does not depend on the exception's message. |
| ClientAddress.Segments | src/main/java/com/stefanini/ceptracker/presentation/controller/CepController.java:99 | The pieces between commas contain no comma. The first piece is the longest comma-free prefix of the header. |
| ClientAddress.JoinSegments | src/main/java/com/stefanini/ceptracker/presentation/controller/CepController.java:99 | Joining the pieces with commas gives back the header. |
| ClientAddress.SegmentsEmptyIffCommas | src/main/java/com/stefanini/ceptracker/presentation/controller/CepController.java:99 | Every piece is empty exactly when the header consists only of commas. |
| ClientAddress.DropTrailingEmpty | src/main/java/com/stefanini/ceptracker/presentation/controller/CepController.java:99 | `split` removes only trailing empty strings, and what it keeps does not end with one. |
| ClientAddress.Split | src/main/java/com/stefanini/ceptracker/presentation/controller/CepController.java:99 | `split(",")` of a header is empty exactly when the header is non-empty and made of commas only. Otherwise its first element is the text before the first comma. |
| ClientAddress.LeadingBlanks | src/main/java/com/stefanini/ceptracker/presentation/controller/CepController.java:99 | Counts the characters `<= ' '` that the header starts with. |
| ClientAddress.TrailingStart | src/main/java/com/stefanini/ceptracker/presentation/controller/CepController.java:99 | Finds where the trailing characters `<= ' '` begin, never left of the given lower bound. |
| ClientAddress.Trim | src/main/java/com/stefanini/ceptracker/presentation/controller/CepController.java:99 | `trim()` returns the infix left after removing the blanks at both ends. It starts and ends with a non-blank, and a string with no blank at either end is returned unchanged. |
| ClientAddress.TrimIdempotent | src/main/java/com/stefanini/ceptracker/presentation/controller/CepController.java:99 | Trimming twice is the same as trimming once. |
| ClientAddress.ClientIpAddress | src/main/java/com/stefanini/ceptracker/presentation/controller/CepController.java:96-108 | The only exception `getClientIpAddress` throws is the index error for an empty array. |
| ClientAddress.ClientIpAddressCases | src/main/java/com/stefanini/ceptracker/presentation/controller/CepController.java:96-108 | A non-empty `X-Forwarded-For` decides the address: it throws exactly when it is commas only, and otherwise yields its first entry, trimmed. Failing that, a non-empty `X-Real-IP` is returned verbatim. Failing both, the peer address is returned. |
| ClientAddress.ForwardedAddressIsFirstHop | src/main/java/com/stefanini/ceptracker/presentation/controller/CepController.java:99 | An address taken from `X-Forwarded-For` contains no comma and comes from the text before the header's first comma. |
| Controller.IsCepFormat | src/main/java/com/stefanini/ceptracker/presentation/controller/CepController.java:31 | A CEP matching `\d{8}` has exactly eight characters and no hyphen, so the hyphenated form is refused. |
| Controller.ValidationFailure | src/main/java/com/stefanini/ceptracker/presentation/controller/CepController.java:31 | A CEP off the `\d{8}` pattern raises a constraint violation. |
| Controller.SerializeToJson | src/main/java/com/stefanini/ceptracker/presentation/controller/CepController.java:110-117 | The payload is the mapper's JSON, or the record's `toString()` when the mapper fails, so it is never null. |
| Controller.PayloadReadsBack | src/main/java/com/stefanini/ceptracker/presentation/controller/CepController.java:110-117 | With a round-tripping mapper, the stored payload reads back as the answered record. |
| Controller.FoundIsAudited | src/main/java/com/stefanini/ceptracker/presentation/controller/CepController.java:34-56 | A found record is answered 200 with that record. Exactly one entry is appended: success, no error, the serialised record as payload, the elapsed time between the first two readings, and the caller's CEP, address and user agent. |
| Controller.NotFoundIsAudited | src/main/java/com/stefanini/ceptracker/presentation/controller/CepController.java:57-68 | A null reply or one flagged `erro` is answered 404 with no body. Exactly one failure entry is appended, with no payload and the error `"CEP não encontrado"`. |
| Controller.LookupFailureIsAudited | src/main/java/com/stefanini/ceptracker/presentation/controller/CepController.java:71-92 | A lookup that throws is answered 500 with `"Erro interno do servidor"` and the exception's message as details. Exactly one failure entry is appended, carrying that message. |
| Controller.AuditFailureIsRetried | src/main/java/com/stefanini/ceptracker/presentation/controller/CepController.java:46-92 | When the first audit insert throws, the catch block audits again as a failure carrying the database's message, and the answer is 500. Two inserts are attempted. |
| Controller.OneEntryPerAnswer | src/main/java/com/stefanini/ceptracker/presentation/controller/CepController.java:34-94 | An answered request (200, 404 or 500) appends exactly one entry. That entry carries the request's CEP, address and user agent, and is marked successful exactly when the answer is 200. A request whose exception escapes appends none. Existing entries are never changed. |
| Controller.CommaOnlyForwardedForSkipsAudit | src/main/java/com/stefanini/ceptracker/presentation/controller/CepController.java:35-100 | A comma-only `X-Forwarded-For` makes `getCep` throw before its `try`. Nothing is looked up or audited. |
| Controller.EscapesAreRuntime | src/main/java/com/stefanini/ceptracker/presentation/controller/CepController.java:34-94 | Only plain runtime exceptions escape `getCep`. |
| Controller.InvalidCepRejected | src/main/java/com/stefanini/ceptracker/presentation/controller/CepController.java:31 | A CEP off the pattern is answered 400 with `"Dados inválidos"` and the violation's message. Neither the lookup nor the audit table is touched. |
| Controller.ServeStatuses | src/main/java/com/stefanini/ceptracker/presentation/exception/GlobalExceptionHandler.java:18-62 | Every request is answered 200, 400, 404 or 500, never 503. Every 404 has no body. |
| Controller.CepController.RecordFailure | src/main/java/com/stefanini/ceptracker/presentation/controller/CepController.java:71-92 | The catch block's result and new state are those of `Recover`. |
| Controller.CepController.RecordOutcome | src/main/java/com/stefanini/ceptracker/presentation/controller/CepController.java:42-69 | The rest of the `try` block after the lookup has the result and new state of `Respond`. |
| Controller.CepController.GetCep | src/main/java/com/stefanini/ceptracker/presentation/controller/CepController.java:30-94 | `getCep`'s result, and the new state of the lookup service, audit table and clock, are those of `GetCepSpec`. |

## Left out

- **Network I/O.** The upstream client's WebClient call, its reactive timeout and `block()` are reduced to the reply schedule. Which exception a timeout produces is therefore not modelled; to the controller, every exception is alike.
- **Redis and TTL.** Redis is a map from key to the JSON text and the TTL it was written with. Entries never expire, so `CepLookup.SecondCallHits` assumes the entry is still live.
- **JSON mapping.** Jackson is opaque: the property names and the JSON text are not modelled.
- **Time.** `System.currentTimeMillis()` and `LocalDateTime.now()` are one integer clock, so timestamps are integers. Date-time arithmetic and time zones are not modelled.
- **Metrics and logging.** Micrometer metrics, `@Timed` and logging are side channels. The three counters are plain integers.
- **Framework machinery.** Spring's method validation, handler dispatch and bean wiring are reduced to `Controller.ServeSpec`.
- **Validation message.** The constraint violation's message is modelled as `getCep.cep: ` followed by the pattern's message. The parameter-path prefix depends on how the framework names the parameter.
- **Gaps in the identity column.** A failed insert uses up no identity value, so the model's ids are gapless and `Controller.AuditFailureIsRetried` gives the retried entry the id the failed insert would have taken. A real identity column may skip that value.
- **`save` of a preset id.** `CepAuditLogRepository.save` is modelled for new entities only; the logging code only creates those. A JPA merge of an entity that already has an id is not modelled.
- **Integer width.** Integers are unbounded. The `Long` id and elapsed time never overflow here, and a non-positive TTL is recorded as given, though Redis would reject it.
- **`AuditController`.** It is a pagination and statistics pass-through over the repository queries that are modelled here.
- **Concurrency.** Concurrent requests and cache stampedes are not modelled; every method runs alone.
- **Exception handler's not-found body.** `ExceptionHandler.Handle` does not model the error object that the not-found handler builds and discards, because it has no observable effect.
