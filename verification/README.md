# servekit: models and proofs

A Dafny 4.11 model of the protocols, caches, printers and classifiers of servekit, a Go toolkit for HTTP
and gRPC services, with proofs of what they promise. `dafny verify dfyconfig.toml` checks everything.

| module | what it models |
|---|---|
| `TokenCache` | the machine-to-machine token cache: any number of callers of `Token` racing over one RWMutex (section 4.4 of RFC 6749, `expires_in` of section 5.1) |
| `Shutdown` | the root errgroup of `Server.Serve` over HTTP and gRPC listeners that are errgroups themselves, with graceful and forced shutdown |
| `Registry` | the server object: any number of calls of `Serve` and `RegisterListener` around one RWMutex, each `Serve` running its own tree of `Shutdown` |
| `SchemaEvolution` | the SQLite schema evolver |
| `RoundTripper` | the retrying HTTP round tripper, its ownership of response bodies, Retry-After (section 10.2.3 of RFC 9110) and the circuit breaker |
| `Backoff`, `Retry` | the backoff strategies and `retry.Do` |
| `Jwks` | the refreshing cache of public keys (sections 4.5 and 5 of RFC 7517) |
| `MiniAppAuth` | the Mini App data-check string, its keyed hash and the time window |
| `MiniAppLink` | Mini App links and the parser that undoes them |
| `Respond` | the HTTP and gRPC error responders and the classification of upstream statuses |
| `Errors`, `Lex`, `UrlQuery`, `Strconv`, `Prelude` | error trees, byte order and sorting, query escaping and hexadecimal, decimal integers, 64-bit arithmetic |

How the models are built:

- Concurrent code is a step system. A state holds the lock, the shared fields, the clock and one program
  counter per caller; `Enabled` and `Apply` (`CanStep` and `StepOf` in `Shutdown`) say what one step may do
  and does, and a run is any sequence of enabled steps. Theorems hold in every run, with any number of
  callers or listeners. Next to it stands the code as written, a class whose methods are proved against the
  same functions, from the moment its lock is granted; waiting for the lock is part of the step system.
  `SoloCallIsToken` shows that the step system contains the method, `EveryCallIsDecided` that a call in any
  interleaving returns what the method would for what it saw.
- Code that changes state is a class or a method with loops, proved against a specification function.
- Everything outside the code (the network, clocks, SQL, random jitter, the keyed hash, JSON) is a
  parameter: a reply, a script of attempts, a set of faults, or a function. Times are integers of
  nanoseconds; time.Duration arithmetic wraps at 64 bits where the code lets it.
- Go strings are byte sequences. Where bytes matter (`UrlQuery`) a string is required to hold characters
  below 256.

Where the code has an edge, it is kept and its exact condition is proved:

- `TokenCache`: `expires_in` above 9223372036 seconds can wrap to a lifetime that is zero or negative. In
  every run the token a call has just stored is usable at that moment exactly when the wrapped lifetime is
  positive (`IssuedTokenLife`, `LifetimeRange`, `EveryCallIsDecided`, `WrappedLifetimeIsReturned`).
- `Shutdown`: the goroutine in which the gRPC hook runs GracefulStop belongs to no group, so a run of Serve
  can return before it does: exactly when the drain was cut short and has not ended by then
  (`HelperOutlivesServeIff`, `HelperMayOutliveServe`).
- `SchemaEvolution`: versions are positions among all directory entries, so a file that sorts in front of
  an applied one is never run (`InsertedFileIsMissed`) and removing one can skip the next
  (`RemovedFileSkewsVersion`); `TwoRunsAgreeIff` says exactly when two runs amount to one.
- `RoundTripper`: a run whose last attempt is a transient transport error returns a nil response with a nil
  error (`NilResponseIff`, `TransientFailureIsSwallowed`), and a run that the context ends between a
  retryable response and the next attempt leaves that response's body open (`ResponseOwnership`,
  `SleepingRunLeaksBody`). With the largest uint as its limit the loop has no bound (`LoopIsBoundedIff`).
  `NewClient` leaves the attempt limit at zero whatever the retry option says, so the limit is a field of
  the modelled object.
- `Backoff`: base plus jitter beyond 9223372036854 ms wraps to a negative wait (`NextWithinJitter`).
- `MiniAppAuth`: a maximal age of the largest Duration never expires anything, because subtracting times
  saturates (`WindowExact`).
- The comment on `Server.Serve` says that failing listeners are retried. The code does not retry them, and
  neither does the model. The gRPC responder accepts a status option and does not use it; the model has no
  such parameter there.

## Model

| member | source | states |
|---|---|---|
| `TokenCache.IssuedTokenLife` | authkit/oauthkit/kinde/m2m.go:134-140 | a new token is usable exactly if its 64-bit lifetime is positive; then it lasts the larger of lifetime - 30s and half the lifetime, and it outlives the server's own expiry exactly if the answer took longer than the buffer |
| `TokenCache.LifetimeRange` | authkit/oauthkit/kinde/m2m.go:134 | expires_in seconds are exact nanoseconds precisely up to 9223372036; one second more is already a negative lifetime |
| `TokenCache.AcceptedIff` | authkit/oauthkit/kinde/m2m.go:116-132 | exactly a 200 whose body decodes to a non-empty token with a positive expires_in is accepted |
| `TokenCache.StepKeepsInv` | authkit/oauthkit/kinde/m2m.go:60-85 | every step of every caller keeps the lock discipline and what a holder of the write lock relies on |
| `TokenCache.WritesAreExclusive` | authkit/oauthkit/kinde/m2m.go:72-80 | in every interleaving the cache changes only by an accepted fetch of the one write-lock holder, with no reader inside and nobody else past Lock, while no usable token was cached |
| `TokenCache.EveryCallIsDecided` | authkit/oauthkit/kinde/m2m.go:60-85 | in every interleaving a call returns a usable token found by one of its own two checks, or the outcome of its own fetch, made while nothing usable was cached: its error with the cache unchanged, or the token it stored, usable then exactly if the lifetime did not wrap to zero or below |
| `TokenCache.ReturnedTokenWasLive` | authkit/oauthkit/kinde/m2m.go:58-85 | a token returned by a call was the cached one and unexpired at some instant between the call and its return, if the call's own fetch, should it make one, is granted a lifetime that does not wrap to zero or below |
| `TokenCache.WrappedLifetimeIsReturned` | authkit/oauthkit/kinde/m2m.go:134-140 | that condition is needed: with 9223372037 seconds Token returns a token that was never usable |
| `TokenCache.FetchesAreSpaced` | authkit/oauthkit/kinde/m2m.go:76-82 | after k successful fetches since t0, (k-1) * least <= 2 * elapsed, and the cached token covers the k-th half lifetime |
| `TokenCache.FetchBound` | authkit/oauthkit/kinde/m2m.go:134-140 | a stretch of time T sees at most 1 + 2T/least successful fetches when no lifetime is below least |
| `TokenCache.FetchOnlyWhenStale` | authkit/oauthkit/kinde/m2m.go:76-80 | a fetch is in flight only while nothing usable is cached, and never two at once |
| `TokenCache.RunsAreBounded` | authkit/oauthkit/kinde/m2m.go:60-85 | N calls take at most 10 N steps in any run, the passing of time apart |
| `TokenCache.NeverStuck` | authkit/oauthkit/kinde/m2m.go:60-85 | while a call is in progress some caller can move (a fetch moves when it is answered): no deadlock |
| `TokenCache.QuietMeansReturned` | authkit/oauthkit/kinde/m2m.go:60-85 | when no caller can move, every call begun has returned and nobody holds the lock |
| `TokenCache.M2MClient.TokenRequest` | authkit/oauthkit/kinde/m2m.go:93-143 | under the write lock, a 200 with a non-empty token and a positive expires_in replaces the cached token; any other reply leaves it and is reported |
| `TokenCache.M2MClient.Token` | authkit/oauthkit/kinde/m2m.go:60-85 | one call as written, uninterrupted: a token that has not expired is returned as it is; otherwise exactly a granted token is stored and returned, and any other reply is an error that changes nothing; both sides of the lock are released on every path |
| `TokenCache.SoloCallIsToken` | authkit/oauthkit/kinde/m2m.go:60-85 | the step system run by one caller alone is the method Token |
| `Shutdown.MoveKeepsListenerInv` | httpkit/http_listener.go:305-339 | every move of a listener's two members keeps its invariant: an error is kept exactly if a member has one, shutdown only after cancellation, a nil hook only after a drain, an error only after a forced stop, a clean end of the server only after shutdown began |
| `Shutdown.ListenerReturnsFirst` | httpkit/http_listener.go:305-339 | a listener returns the first error that its members reported, "listener failed" with the server's own error or the forced stop with the cause that cut the drain short, and nil if there was none |
| `Shutdown.CancelledListenerMoves` | grpckit/grpc_listener.go:138-183 | a cancelled listener that has not returned can always move without waiting for a drain |
| `Shutdown.StepKeepsInv` | server.go:59-87 | every step of the two-level tree keeps the invariant of the root group: one log entry per finished listener, and the kept error is the first in the log |
| `Shutdown.ServeReturnsLast` | server.go:76-86 | when Serve returns, every listener has returned with both members finished; the result is the first non-nil error in completion order and nil exactly if all returned nil |
| `Shutdown.ServeReturnsFirst` | server.go:66-86 | the result of Serve is the error of the first listener, in the order they finished, that returned one, with its payload |
| `Shutdown.ShutsDownIff` | server.go:60-72 | a serving listener can begin its shutdown exactly when the caller has cancelled, a sibling has failed, or its own server has failed |
| `Shutdown.SiblingsCancelledLast` | server.go:66-72 | the shared context ends only by the caller, by a listener whose own Serve has returned an error, or after everybody |
| `Shutdown.ShutdownHasCause` | httpkit/http_listener.go:450-451 | while the shared context lives, a listener shuts down only because one of its own members failed |
| `Shutdown.StepsLowerRank` | server.go:59-87 | every step lowers the rank of the tree: all schedules are finite |
| `Shutdown.CancelledTreeSteps` | httpkit/http_listener.go:457-479 | once the caller cancels or a listener fails, a forced step is always left until Serve has returned |
| `Shutdown.CancelledTreeReturns` | server.go:76-87 | a tree that is cancelled or has a failed listener, left to its forced steps, returns |
| `Shutdown.NilMeansGraceful` | grpckit/grpc_listener.go:155-182 | a completed run answers nil exactly if every listener had an address, never failed to serve and drained in time |
| `Shutdown.OrderlyTreeReturnsNil` | httpkit/http_listener.go:450-486 | if nothing has gone wrong when the caller cancels and every connection drains in time, Serve returns nil |
| `Shutdown.HelperOutlivesServeIff` | grpckit/grpc_listener.go:138-183 | when Serve has returned, the GracefulStop goroutine of a gRPC listener still waits exactly if it was started and has not ended, that is, if its drain timed out and has not ended since; after a nil result none is left |
| `Shutdown.HelperMayOutliveServe` | grpckit/grpc_listener.go:150-153 | a schedule in which Serve has returned while the GracefulStop goroutine still waits |
| `Registry.StepKeepsInv` | server.go:40-87 | every step of every Serve and RegisterListener call keeps the lock discipline, and each Serve's tree is what its steps make of the listeners it has ranged over |
| `Registry.RegistryFrozen` | server.go:62-64 | in every run the listener map is the same at any two moments between a Serve's RLock and its RUnlock |
| `Registry.ServeRunsItsRegistry` | server.go:59-87 | every returned Serve has run exactly the listeners registered when its lock was granted, and returned after all of them with the first of their errors |
| `Registry.RegistrationWaits` | server.go:40-44 | a registration asked for while calls of Serve run takes effect only after all of them have returned, and sets one name only |
| `Registry.RegistryHoldsRegistrations` | server.go:40-44 | in every run the registry is what the registrations stored so far build up, the last one for each name, and a returned registration is among them |
| `Registry.NeverStuck` | server.go:40-87 | once the running Serves are cancelled some call can always go on until every Serve and registration has returned |
| `Registry.Server.RegisterListener` | server.go:40-49 | one registration, once its lock is granted, updates one name |
| `Registry.Server.Serve` | server.go:59-87 | one run under any possible schedule: if it returns, all listeners are finished, the result is the first error and the read lock is given back, otherwise it still holds the lock; the registry is unchanged |
| `SchemaEvolution.PendingExact` | dbkit/litekit/schema_evolution.go:155-163 | the mutations applied are exactly the .sql entries whose 1-based rank among all entries exceeds the version, once each, by rank |
| `Lex.LessIsBefore` | dbkit/litekit/schema_evolution.go:206-217 | names are ordered by their first differing byte, a prefix first |
| `SchemaEvolution.PendingByName` | dbkit/litekit/schema_evolution.go:218-241 | told without sorting: the .sql files whose rank, the number of entries with a name up to theirs, exceeds the version |
| `SchemaEvolution.RanksFollowNames` | dbkit/litekit/schema_evolution.go:206-217 | one file ranks below another exactly if its name comes first |
| `SchemaEvolution.AppliedInNameOrder` | dbkit/litekit/schema_evolution.go:155-172 | a successful run applied the SQL of exactly the pending files, in the order of their names |
| `SchemaEvolution.LatestIsLargest` | dbkit/litekit/schema_evolution.go:218-241 | the last .sql rank is the largest rank of a .sql file |
| `SchemaEvolution.SuccessfulRun` | dbkit/litekit/schema_evolution.go:111-179 | a successful run ran exactly that SQL in order and ended at max(version, last .sql rank) |
| `SchemaEvolution.SucceedsIff` | dbkit/litekit/schema_evolution.go:111-179 | a run succeeds exactly if no step it depends on fails, every entry it needs can be read, and its pending SQL runs |
| `SchemaEvolution.TransactFailsAt` | dbkit/litekit/schema_evolution.go:154-172 | a failing transaction stops at the first mutation whose SQL or version update fails, after all before it ran |
| `SchemaEvolution.FailedRunChangesNothing` | dbkit/litekit/schema_evolution.go:148-152 | a failing run leaves at most the version table behind; no run lowers the version |
| `SchemaEvolution.SecondRunAppliesNothing` | dbkit/litekit/schema_evolution.go:161-163 | after success any further run, even one that fails, leaves the database as it is |
| `SchemaEvolution.AppendOnlyIsPrefix` | dbkit/litekit/schema_evolution.go:206-217 | files that sort after all old ones leave the old ones at their ranks |
| `SchemaEvolution.TodoSplits` | dbkit/litekit/schema_evolution.go:155-172 | two incremental runs apply, between them, exactly what one run over the final directory applies |
| `SchemaEvolution.IncrementalIsOneShot` | dbkit/litekit/schema_evolution.go:111-179 | after a successful run on d1, successful runs on d2 from there and from the start leave the same database, whatever faults they survived; without faults one succeeds exactly if the other does |
| `SchemaEvolution.ChainIsOneShot` | dbkit/litekit/schema_evolution.go:111-179 | any chain of append-only releases, with any faults and failed runs on the way, stands where a fresh run of the last successful one ends |
| `SchemaEvolution.ChainAppliesOnce` | dbkit/litekit/schema_evolution.go:155-172 | along such a chain every mutation of the last release is applied once, in name order |
| `SchemaEvolution.TwoRunsAgree` | dbkit/litekit/schema_evolution.go:111-179 | for any two directories that agree above the start version, whatever the SQL means, two runs leave the database of one |
| `SchemaEvolution.TwoRunsAgreeIff` | dbkit/litekit/schema_evolution.go:200-241 | agreeing is exact: a database that remembers its SQL ends the same way, in SQL and version, exactly if the files of d2 up to the last rank of d1 hold the SQL of d1 above the start version and that rank is not past both that version and the last rank of d2 |
| `SchemaEvolution.InsertedFileIsMissed` | dbkit/litekit/schema_evolution.go:233-236 | a file sorting in front of an applied one is skipped and the applied one runs again |
| `SchemaEvolution.RemovedFileSkewsVersion` | dbkit/litekit/schema_evolution.go:233-236 | a directory that loses an entry without SQL gets the same SQL applied but ends at another version |
| `SchemaEvolution.Evolver.EnsureSchemaVersionTable` | dbkit/litekit/schema_evolution.go:181-198 | the version table exists afterwards at version 0 if it was missing, and a failure changes nothing |
| `SchemaEvolution.Evolver.LoadMutations` | dbkit/litekit/schema_evolution.go:200-241 | the .sql entries of the sorted directory with their positions, or a failure if one is unreadable |
| `SchemaEvolution.Evolver.MutateSchema` | dbkit/litekit/schema_evolution.go:111-179 | one run leaves the database and the error of the specification |
| `RoundTripper.ResponseOwnership` | httpkit/http_client.go:359-480 | no body is open when a request is issued, each body is closed at most once, a returned response is the open one; another body is left open exactly if some attempt is reached by retries, gets a retryable response, and the context ends in its sleep or before the next attempt |
| `RoundTripper.SleepingRunLeaksBody` | httpkit/http_client.go:458-460 | such a run exists |
| `RoundTripper.RetriedStatuses` | httpkit/http_client.go:443-474 | 429 and every 5xx but 501 are tried again; Retry-After counts for 429 and 503 and is exact while n seconds fit a Duration |
| `RoundTripper.TripSleeps` | httpkit/http_client.go:429-474 | on every round trip the j-th sleep is that of attempt j, between its request and the next: the seconds of a Retry-After for 429 and 503, the backoff's j-th wait for anything else that is retried |
| `RoundTripper.StopsAtFirstFinal` | httpkit/http_client.go:359-480 | every run ends at the first attempt it does not go on from, or at attempt maxAttempts: a final response is returned, an error that is not transient surfaces as it is, and requests, contacts and breaker are those of the attempts so far |
| `RoundTripper.NilResponseIff` | httpkit/http_client.go:359-480 | (nil, nil) is returned exactly if all attempts before the last are retried and the last gets a transient error and sleeps its wait out |
| `RoundTripper.UnreadableBodyIff` | httpkit/http_client.go:344-348 | the error of reading the request body is returned exactly if it cannot be read, and then nothing is issued |
| `RoundTripper.TransientFailureIsSwallowed` | httpkit/http_client.go:429-480 | with a limit of zero a single transient failure is such a run |
| `RoundTripper.RequestsAreBounded` | httpkit/http_client.go:344-389 | at most maxAttempts + 1 requests, every one with the whole request body ahead of it |
| `RoundTripper.BlameIsFounded` | httpkit/http_client.go:361-377 | a run blames the context or a close only if it saw one fail |
| `RoundTripper.LoopIsBoundedIff` | httpkit/http_client.go:359 | with its 64-bit counter the loop ends within maxAttempts + 1 passes in every world exactly if the limit is not the largest uint |
| `RoundTripper.BreakerLimitsContacts` | httpkit/http_client.go:518-533 | from any attempt on, a server that only fails is contacted at most as often as the breaker tolerates and as attempts remain |
| `RoundTripper.FailingServerIsSpared` | httpkit/http_client.go:502-556 | behind a breaker of threshold k a failing server sees at most min(k, maxAttempts + 1) contacts per round trip |
| `RoundTripper.OpenBreakerStops` | httpkit/http_client.go:401-405 | an open breaker ends the run without any contact |
| `RoundTripper.BreakerOpensIff` | httpkit/http_client.go:518-533 | on every run the breaker is open at attempt k exactly if the last threshold attempts before it failed, or all did and with earlier failures they make up the threshold; until then every attempt reached the server |
| `RoundTripper.ResponsesReachLoop` | httpkit/http_client.go:535-556 | every response obtained, counted 5xx included, is retried by its status or is what the run returns |
| `RoundTripper.Tripper.DoRequest` | httpkit/http_client.go:502-556 | reply, breaker and events of one request are those of the specification |
| `RoundTripper.Tripper.Attempt` | httpkit/http_client.go:360-477 | one pass of the loop with its checks, close, request, rewind and sleep is that of the specification |
| `RoundTripper.Tripper.RoundTrip` | httpkit/http_client.go:338-481 | result, trace and breaker of the whole loop are those of the recursive specification |
| `Backoff.NextWithinJitter` | retry/retry.go:76-150 | base <= Next < base + jitter for every draw exactly if the largest sum fits a Duration |
| `Backoff.NextIsExact` | retry/retry.go:89 | a wait is exact up to 9223372036854 ms and negative beyond |
| `Backoff.BaseGrows` | retry/retry.go:85-86 | waits never shrink from retry to retry and stay at the cap once there |
| `Backoff.SaturationPoint` | retry/retry.go:85-86 | for f >= 2 there is one retry from which on every exponential wait is at the cap and before which none is, no later than max/min |
| `Backoff.StrategiesOrdered` | retry/retry.go:76-150 | constant <= linear <= exponential for equal bounds and f >= 2 |
| `Backoff.SumLinear` | retry/retry.go:141-150 | uncapped linear waits add up to min * n(n-1)/2 |
| `Backoff.SumConstant` | retry/retry.go:111-120 | a constant backoff waits the minimum each time, min * (n-1) in all |
| `Backoff.SumExponential` | retry/retry.go:76-90 | uncapped exponential waits add up to min * (f^n - f)/(f - 1) |
| `Backoff.SumBaseCapped` | retry/retry.go:76-150 | n waits have bases of at most n - 1 caps in all |
| `Retry.DecidedByFirst` | retry/retry.go:196-231 | Do is decided by its first pass that does not lead to another, or by the limit: result, number of calls, number of waits |
| `Retry.NilIff` | retry/retry.go:186-227 | nil exactly if a call succeeds after only retryable failures, with the context alive at every check |
| `Retry.LimitIff` | retry/retry.go:185-231 | the limit error exactly if all maxRetries passes failed retryably, or the decisive pass produced that very error |
| `Retry.FinalErrorUnchanged` | retry/retry.go:207-209 | the first failure that is not retryable comes back unchanged |
| `Retry.RetryableIffMarked` | retry/retry.go:203-207 | retryable means that some node of the error tree is a RetryableError, by pointer or by value |
| `Retry.TotalWait` | retry/retry.go:211-224 | all waits of a run lie between the sum of their bases and that sum plus jitter - 1 per wait after the first |
| `Retry.Do` | retry/retry.go:186-232 | the loop computes the recursive specification and calls the function at most max times |
| `Jwks.LookupIsLastUsable` | authkit/jwtkit/jwks.go:83-92 | a lookup hits exactly if a usable RSA key has the kid, and yields the last such key |
| `Jwks.JWKSProvider.FetchJWKS` | authkit/jwtkit/jwks.go:99-125 | only a decoded document counts as a success; a failure may still spoil the key store |
| `Jwks.JWKSProvider.Refresh` | authkit/jwtkit/jwks.go:64-97 | the cache stands for one whole fetched key set; a failed fetch leaves it and lastFetch alone |
| `Jwks.JWKSProvider.GetVerifier` | authkit/jwtkit/jwks.go:146-170 | a key is found exactly if the refresh did not fail and the last fetched set has a usable key of that kid, and it is the last one |
| `Jwks.StepKeepsInv` | authkit/jwtkit/jwks.go:64-97 | every step of every caller keeps the cache equal to the last fetched key set and the lock discipline |
| `Jwks.AnswersAreRecent` | authkit/jwtkit/jwks.go:146-162 | in every interleaving a caller's key comes from one whole key set fetched later than refreshInt before its own check; with an interval of zero or less, no earlier than the check |
| `Jwks.FetchesAreSpaced` | authkit/jwtkit/jwks.go:72-78 | successful fetches complete at least refreshInt apart, and a failed one changes only its caller |
| `Jwks.RefusedIffFetchFailed` | authkit/jwtkit/jwks.go:146-150 | in every interleaving a caller is refused only because its own fetch failed, and answered only if it needed none or got a document |
| `Jwks.NeverStuck` | authkit/jwtkit/jwks.go:64-97 | while a call is in progress some caller can move |
| `Jwks.SoloCallIsGetVerifier` | authkit/jwtkit/jwks.go:146-170 | the step system run by one caller gives the answer, the cache and the last fetch of getVerifier |
| `MiniAppAuth.DataCheckString` | tgkit/miniapp_auth.go:311-332 | whatever order the map is iterated in, the result is the one string of key=value lines of the fields that are not excluded, in bytewise order of their keys |
| `MiniAppAuth.CheckStringRoundTrip` | tgkit/miniapp_auth.go:311-332 | reading the lines back recovers every covered field, if keys hold no '=' or newline and values no newline |
| `MiniAppAuth.CheckStringInjective` | tgkit/miniapp_auth.go:311-332 | equal check strings of such fields mean equal fields |
| `MiniAppAuth.WindowExact` | tgkit/miniapp_auth.go:404-414 | accepted exactly if now - maxAge <= auth_date <= now + 30s, unless maxAge is the largest Duration |
| `MiniAppAuth.CanSendAfterExact` | tgkit/miniapp_auth.go:391-402 | the duration is the exact number of seconds precisely up to 9223372036 |
| `MiniAppAuth.AuthDateExact` | tgkit/miniapp_auth.go:382-389 | auth_date names its own instant precisely below the end of the 64-bit seconds register |
| `MiniAppAuth.DuplicatesRefused` | tgkit/miniapp_auth.go:246-250 | any query that repeats a field is refused |
| `MiniAppAuth.AcceptedIsSigned` | tgkit/miniapp_auth.go:255-276 | accepted data carries the digest of its own fields and lies in the window |
| `MiniAppAuth.AcceptedMirrorsFields` | tgkit/miniapp_auth.go:334-380 | the data handed on is that of the fields of the raw string, each under its own name: JSON fields decoded from their own text, times exact in their range |
| `MiniAppAuth.RefusedFor` | tgkit/miniapp_auth.go:232-276 | which complaint is made about the raw string and about the hash |
| `MiniAppAuth.SigningWorks` | tgkit/miniapp_auth.go:255-276 | any fields without a hash can be signed by appending the hexadecimal digest, so what follows is not about nothing |
| `MiniAppAuth.SignedDataAcceptedIff` | tgkit/miniapp_auth.go:177-188 | signed fields with readable contents are accepted, in any order and under any escaping, exactly within the window |
| `MiniAppAuth.FieldOrderIrrelevant` | tgkit/miniapp_auth.go:232-253 | the order and escaping of the fields in the raw string and the case of the hash change nothing but the copies of those two strings |
| `UrlQuery.ParseEncode` | tgkit/miniapp_auth.go:241 | parsing an encoded list of fields gives the list back |
| `UrlQuery.HexRoundTrip` | tgkit/miniapp_auth.go:256 | decoding undoes hexadecimal encoding |
| `UrlQuery.EscapeRoundTrip` | tgkit/miniapp.go:205 | unescaping undoes escaping, and escaped text holds no separator |
| `UrlQuery.PercentReads` | tgkit/miniapp_auth.go:241 | a byte may be escaped with hexadecimal digits of either case |
| `UrlQuery.SemicolonRefused` | tgkit/miniapp_auth.go:241-244 | a query with a semicolon is refused |
| `MiniAppLink.ValidBotUsername` | tgkit/miniapp.go:232-245 | the scan accepts exactly 5 to 32 letters, digits and underscores that end in "bot" in any case |
| `MiniAppLink.ValidMiniAppShortName` | tgkit/miniapp.go:247-259 | the scan accepts exactly the non-empty names of letters, digits, '-' and '_' |
| `MiniAppLink.BotSuffixes` | tgkit/miniapp.go:233-234 | the suffix is one of the eight spellings of "bot" |
| `MiniAppLink.ParsePrint` | tgkit/miniapp.go:194-216 | every accepted input is read back from its link |
| `MiniAppLink.PrintIsInjective` | tgkit/miniapp.go:194-216 | distinct accepted inputs give distinct links |
| `MiniAppLink.PrintShows` | tgkit/miniapp.go:189-216 | the link letter by letter: a main Mini App always asks with startapp, a named one only with a parameter |
| `MiniAppLink.TrimmedIs` | tgkit/miniapp.go:181 | the username is what is left without the space around it and one leading @ |
| `MiniAppLink.MiniAppLink` | tgkit/miniapp.go:175-217 | a link is returned exactly if nothing is wrong with the input, and it parses back to it; otherwise the first complaint is reported |
| `Respond.RespondersAgree` | httpkit/respond.go:29-56 | for every error tree both responders answer its best-ranked sentinel; a non-zero status option is answered instead, whatever the error |
| `Respond.SameStatusSameCode` | grpckit/respond.go:26-47 | the HTTP status and the gRPC code determine each other |
| `Respond.JoinTakesBetter` | httpkit/respond.go:31-52 | a join is answered with its better-ranked side |
| `Respond.UpstreamStatusSurvives` | authkit/oauthkit/kinde/management.go:172-187 | an upstream 400, 401, 403, 404 or 409 is answered as itself through any wrapping |
| `Respond.OtherStatusIsInternal` | authkit/oauthkit/kinde/management.go:185-187 | any other upstream status is answered as an internal error through any wrapping that adds no sentinel |
| `Respond.TokenFailureAnswer` | authkit/oauthkit/kinde/m2m.go:103-132 | a token endpoint that refuses surfaces as 401 and Unauthenticated; any other failed token request is answered as the error it wraps, so as an internal one exactly if that carries no sentinel |

## Left out

- TokenCache: the wall clock stepping backwards, and the preference RWMutex gives to waiting readers when a writer leaves; any enabled caller may go next.
- TokenCache.M2MClient.Token: starts where the mutex is free, since a sequential method cannot wait; calls that wait are those of the step system (`EveryCallIsDecided`, `NeverStuck`).
- Shutdown: panics in listeners, one listener object run by two calls of Serve at once, and logging.
- Registry.Server.RegisterListener: starts where its lock is granted; calls that wait for a running Serve are those of the step system (`RegistrationWaits`).
- Registry.Server.Serve: the schedule of its goroutines is a parameter; that a cancelled run always has one that completes it is `CancelledTreeReturns`.
- SchemaEvolution: overlapping runs of MutateSchema, because the version is read before the transaction begins; the copying of the backup file; a failed commit is taken to persist nothing.
- RoundTripper: http.Client.Do never returns a nil response together with a nil error, so the branch for that reply is not modelled; which error texts mean redirect, scheme or certificate failures is an outcome class per attempt; rewinding an in-memory body does not fail.
- RoundTripper.Tripper.RoundTrip: needs a limit below the largest uint, because with the largest one the loop has no bound (`LoopIsBoundedIff`).
- RoundTripper: the breaker library is not part of this model; it is taken to count consecutive failures and to stay open for the run.
- Backoff: floating-point rounding (all intervals are whole milliseconds below 2^53), negative intervals, and jitter intervals below one millisecond, for which the random source panics.
- Jwks: a JSON document that is null or lacks its keys, base64 and RSA arithmetic, and token parsing.
- Shutdown: the address and the listener names in error texts, and the different wording of the two kinds of listeners.
- MiniAppAuth: the Ed25519 variant of the validator, the arithmetic of the keyed hash, and JSON decoding, which are parameters.
- MiniAppLink: invalid UTF-8 in usernames, URL validation and bot API calls.
- Respond: options other than the status override, response bodies and error reporting.
- Routers, middlewares, health endpoints, metrics, payments, channels, Slack, mail and the other database packages: wrappers and branch lists that would only add easy members.
