# Torii, modelled and proved in Dafny

Torii is a reverse proxy.  This project models the parts of it where state, order and
text matter most, and proves what they promise for every input, every run and every
interleaving.  Source form is kept: classes with mutable fields, linked nodes and loops
where the Go code has them, functions where it only computes.  Every method is proved
against a specification function, and the main theorems are about those functions.

`dafny verify dfyconfig.toml` checks the whole project.  There is one module per file.

| file | models |
|---|---|
| EvictCache | the expiring, size-bounded cache and its sweeper |
| RateLimiter, RateLaw | per-client token buckets kept in that cache, and the law of grants they keep |
| ApiKeys | scope checks through that cache, and the stored scope list |
| MetricNames, Metrics, MetricLedger | connection names, the metric tree with its concurrent workers, and what it owes to its events |
| SubnetTrie, TrustedProxy | address prefixes, and the client address behind proxies |
| CircuitBreaker, BreakerLog | the lock-free breaker as atomic steps of any number of requests, and its state as a function of the events |
| ProxyLifecycle, ListenerBook | start, stop, delete, add, hot swap, restart and edit of listeners, and their state as a function of the commands |
| EventBus, EventDelivery | subscription tables, queues, dispatchers and handlers as a step machine, and what callers can rely on |
| Acme | which certificates are requested, cached and presented |
| Argon2, Totp | stored password hashes and one-time passwords |
| HostTrie | routing by host name with wildcards |
| Rings | the recent logs with their pages, and latency percentiles |
| Options, Text, Bytes, Decimal, Integers, Base64 | what the others need of Go's standard library |

Where the model is a machine that takes steps, a second definition says what must come of
a run from its events alone, without the machine's state, and a theorem joins the two:
`EventDelivery.Watch`, `MetricLedger.Note`, `BreakerLog.Tell`, `ListenerBook.BookNext`,
`RateLaw.LawNext` and the reference cache of `EvictCache`.

Some properties one would expect turned out not to hold of the code.  Each of these is
stated as an if-and-only-if with the condition under which it does hold:

- A rate limiter forgets a client too early unless a bucket refills within the time to
  live (`FaithfulExactly`).
- A cached API key outlives its deletion (`StaleExactly`), for as long as it is used in
  time (`DeletedKeyUsable`), and a scope list is read back
  only if no scope is blank, padded or contains a comma (`ScopesRoundTrip`).
- A metric whose name starts with a separator never reaches the global metric
  (`RollsUpToGlobal`), and a host that contains "-path-" between dashes breaks the chain
  of its path metrics (`PathParent`, `BuiltAncestors`).
- Inserting a /0 prefix empties the family instead of matching every address
  (`ContainedExactly`).
- A breaker with a threshold below 1 never closes (`RecoveryBound`).
- An edit by hot swap that leaves the configuration unchanged keeps a cancelled
  middleware chain, where a rebuild would replace it (`EditRefinesRebuild`); a stopped
  and restarted server serves such a chain (`RestartedChainCancelled`).
- Calling an unsubscribe closure twice can drop the listeners of others
  (`SecondUnsubscribe`, `ListenerDropped`).
- A certificate of a name that a wildcard covers is presented and never renewed
  (`SuppliedNameServed`).
- A one-time password is refused near the epoch (`WindowAccepts`).
- A wildcard host does not serve a name below which another host was inserted
  (`WildcardServes`, `MatchMissed`); in general a pattern is passed by exactly where the
  trie has the host's own label (`ReachedExactly`, `NotFoundExactly`).

## Model

| member | source | states |
|---|---|---|
| EvictCache.Cache.CacheValue | internal/util/evict_cache.go:148-158 | the entry is stored with the time of the call, and at the limit some least recently read entry goes first |
| EvictCache.Cache.EvictOldest | internal/util/evict_cache.go:198-214 | exactly one entry goes, one that no other entry was read before; an empty cache stays empty |
| EvictCache.Cache.GetValue | internal/util/evict_cache.go:160-183 | an entry past its time is deleted and missed, a live one is returned and touched |
| EvictCache.Cache.Evict | internal/util/evict_cache.go:185-195 | only the key goes |
| EvictCache.Cache.DeleteEntry | internal/util/evict_cache.go:258-268 | the key goes, and an error tells that it was missing |
| EvictCache.Cache.Sweep | internal/util/evict_cache.go:242-256 | exactly the expired entries go |
| EvictCache.EvictionSparesLive | internal/util/evict_cache.go:148-214 | seen through the live entries, eviction takes a live one only when the live ones alone fill the cache, and then the least recently read of them |
| EvictCache.StepTracks | internal/util/evict_cache.go:148-268 | one operation keeps the cache in step with a reference cache that drops expired entries at once |
| EvictCache.SweepTransparency | internal/util/evict_cache.go:148-268 | every run under every sweep schedule answers each lookup as the reference cache does and never exceeds the capacity |
| EvictCache.RefIgnoresSweeps | internal/util/evict_cache.go:216-256 | sweeps are invisible to the reference cache |
| EvictCache.RefDetermined | internal/util/evict_cache.go:198-214 | with distinct touch times the victims, hence the answers, are determined by the calls |
| EvictCache.SweepScheduleIrrelevant | internal/util/evict_cache.go:216-256 | two runs with the same calls give the same answers whatever was swept and when |
| EvictCache.LookupExactly | internal/util/evict_cache.go:148-268 | while fewer keys are written than fit, a lookup after any run answers with a value if and only if the key was last written with it, not dropped since, and never left unread for more than the time to live |
| RateLimiter.TokenBucket.Allow | internal/ratelimit/limiter.go:141-150 | a token is taken exactly when the refilled bucket holds one, and the level is capped by the burst |
| RateLimiter.Limiter.Find | internal/ratelimit/limiter.go:164-169 | the lookup of a client's bucket, through the cache |
| RateLimiter.Limiter.AllowClient | internal/ratelimit/limiter.go:152-190 | a request without an address is refused and changes nothing; any other finds or creates its bucket and takes a token from it |
| RateLimiter.Limiter.Reset | internal/ratelimit/limiter.go:106-115 | exactly the bucket of the client is forgotten |
| RateLimiter.RefinesIdeal | internal/ratelimit/limiter.go:141-190 | if buckets refill within the time to live and the clients fit the cache, every run decides as a limiter that never forgets |
| RateLimiter.RateKept | internal/ratelimit/limiter.go:141-190 | under those conditions, in every stretch without a reset of every run of a new limiter, a client is granted at most its burst plus rate times the length of the stretch |
| RateLaw.TakeKeepsLaw | internal/ratelimit/limiter.go:181-182 | a token is there exactly when one more grant keeps every stretch since an earlier grant within burst plus rate times its length; a denial leaves the level unchanged at every later time |
| RateLaw.LawKept | internal/ratelimit/limiter.go:106-190 | every run of a new limiter decides exactly by that law, stated on the times of the grants without buckets or tokens, under the conditions of the refinement |
| RateLaw.GrantedInTime | internal/ratelimit/limiter.go:152-190 | a request as long after the client's last granted one as the rate takes for a token is granted, whatever was denied in between; so is a first request |
| RateLimiter.FaithfulWithin | internal/ratelimit/limiter.go:57-97 | if rate times (time to live + 1 - lag) reaches the burst, all runs in which a bucket is read within the lag of the touch agree with the ideal limiter |
| RateLimiter.FaithfulOnly | internal/ratelimit/limiter.go:57-97 | they agree, for any lag, only if rate times (time to live + 1) reaches the burst |
| RateLimiter.FaithfulExactly | internal/ratelimit/limiter.go:57-97 | for runs in which touch and bucket read share an instant the two conditions are one, so the agreement is an if and only if |
| RateLimiter.Disagreement | internal/ratelimit/limiter.go:57-97 | otherwise a run of one client that decides differently |
| ApiKeys.MarshalScopes | internal/sqlite/api_key.go:222-231 | the text lists every scope once, in some order |
| ApiKeys.UnmarshalScopes | internal/sqlite/api_key.go:234-246 | the set of non-empty trimmed pieces of the text |
| ApiKeys.ScopesRoundTrip | internal/sqlite/api_key.go:222-246 | reading back what was written gives the same scopes, in every order, if and only if each is trimmed, not empty and free of commas |
| ApiKeys.ApiKeyService.IsKeyValidForScope | internal/service/api_key_service.go:70-99 | the cached scopes decide while they are live, otherwise the table does and a hit warms the cache |
| ApiKeys.ApiKeyService.NewApiKey | internal/sqlite/api_key.go:24-53 | a row with a new key and a new alias is stored with its scope list, any other is refused and nothing changes |
| ApiKeys.ApiKeyService.DeleteApiKey | internal/sqlite/api_key.go:55-68 | the rows of the alias go, and the cache is not told |
| ApiKeys.StaleCheck | internal/service/api_key_service.go:70-99 | one check differs from the table if and only if the key is gone from it but cached, live, not lapsed and grants the scope |
| ApiKeys.RunTracked | internal/service/api_key_service.go:70-212 | in every run with deletions in which no deleted key comes back, what is cached is in the table as it stands there, or was deleted |
| ApiKeys.StaleExactly | internal/service/api_key_service.go:70-99 | after every such run a check differs from the table if and only if the key was deleted in the run and is cached, live, not lapsed and grants the scope |
| ApiKeys.DeletedKeyUsable | internal/service/api_key_service.go:160-162 | create, ask, delete, ask: every later check, however many, is granted while each comes within the time to live of the one before |
| ApiKeys.RunKeepsAliases | internal/sqlite/api_key.go:24-68 | in every run no two keys share an alias |
| ApiKeys.CacheAgreesWithTable | internal/service/api_key_service.go:70-99 | without deletions every run, across expiry, eviction, sweeps and warming, answers as the table |
| ApiKeys.GrantedInLife | internal/service/api_key_service.go:70-99 | in every run a check is granted only if a row was created for the key that lists the scope and does not end before the check |
| ApiKeys.GrantedWhileAlive | internal/service/api_key_service.go:70-99 | without deletions a key whose row lists the scope and has not ended is granted |
| MetricNames.ParentRank | metrics/connection.go:239-254 | a parent name is strictly closer to the root, so registration ends |
| MetricNames.AtMostThreeAncestors | metrics/connection.go:239-254 | any name at all has at most three ancestors |
| MetricNames.RollsUpToGlobal | metrics/connection.go:239-254 | a name leads to the global metric if and only if no separator stands at its start |
| MetricNames.PortParent | internal/requestctx/build_context.go:106-115 | the parent of a built port name is the global metric |
| MetricNames.HostParent | internal/requestctx/build_context.go:106-115 | the parent of a built host name is the port name if and only if the dashed host has no "-path-" |
| MetricNames.PathParent | internal/requestctx/build_context.go:106-115 | the parent of a built path name is the host name if and only if the host between dashes has no "-path-" |
| MetricNames.HostlessPathParent | internal/requestctx/build_context.go:106-115 | a path name without a host hangs off the port |
| MetricNames.BuiltAncestors | metrics/connection.go:239-254 | a path metric leads through host and port to the global one, under exactly that condition |
| MetricNames.BuiltInjective | internal/requestctx/build_context.go:106-115 | built names are the same only for the same port, host and path, for hosts without "-path-" between dashes |
| Metrics.AddReportReads | metrics/metric.go:61-92 | a report adds its weight to each counter: requests, status class, bytes, timeouts, total latency |
| Metrics.Metric.AddRequestMetric | metrics/metric.go:61-92 | the in-place update of all counters is that addition, the average is total latency over requests, and the latency joins the ring |
| Metrics.Metric.Copy | metrics/metric.go:118-149 | a new object with the same counters and average, without a ring, whose P50 <= P95 <= P99 are the percentiles of the last 1000 latencies |
| Metrics.ConnectionMetricsManager.TrackMetricsForConnection | metrics/connection.go:59-123 | registration adds the name and its missing ancestors and keeps the tree well formed |
| Metrics.ConnectionMetricsManager.RemoveMetricsForServer | metrics/connection.go:208-229 | exactly the names of the server go, and never the global one |
| Metrics.ConnectionMetricsManager.UpdateConnectionMetrics | metrics/connection.go:299-320 | a report goes to the named node and up its parents; an unknown name is dropped |
| Metrics.TrackWellFormed | metrics/connection.go:59-123 | registration keeps parents before children, names unique and old nodes in place |
| Metrics.RollUpExactly | metrics/connection.go:299-320 | exactly the nodes on the parent chain receive the report, each once |
| Metrics.StepConserves | metrics/connection.go:285-320 | one step of one worker, registration or removal conserves every counter |
| Metrics.Conservation | metrics/connection.go:285-320 | in every interleaving each counter is the total of the accepted reports at or below its node less what workers still carry |
| Metrics.GlobalTotal | metrics/connection.go:285-320 | at rest the global counters are the totals of all accepted reports, whatever was removed, except those named with a leading separator |
| Metrics.TotalsByName | metrics/connection.go:285-320 | without removals a name's counters and what is under way to it add up to the reports named by it or its descendants |
| MetricLedger.TrackOwners | metrics/connection.go:59-123 | registration enters the name and its ancestors up to the first registered one, for that server |
| MetricLedger.LedgerExactly | metrics/connection.go:59-320 | after every run the registered names with their servers, and in order the reports taken, are those that the events alone determine: a report counts if and only if its name was registered when it came |
| MetricLedger.GlobalFromEvents | metrics/connection.go:285-320 | with idle workers every global counter is the total of exactly those reports, except names with a leading separator |
| MetricLedger.NamedFromEvents | metrics/connection.go:285-320 | without removals so is every counter of a registered name for the reports of it and its descendants |
| MetricLedger.ReportAlone | metrics/connection.go:299-320 | one report taken and applied alone does to the registry what the update of a single report does |
| MetricLedger.GlobalReached | metrics/connection.go:285-320 | from every point of every run the workers alone can bring the global counters to that total |
| SubnetTrie.BitTrie.Insert | internal/netutil/subnet_trie.go:37-76 | the walk adds the prefix unless a broader one is there and cuts off what it covers; the empty prefix clears everything |
| SubnetTrie.BitTrie.Seal | internal/netutil/subnet_trie.go:73-75 | the node is marked and exactly the nodes below it go |
| SubnetTrie.BitTrie.Contains | internal/netutil/subnet_trie.go:78-112 | found if and only if some inserted prefix starts the address |
| SubnetTrie.SubnetTrie.Insert | internal/netutil/subnet_trie.go:37-76 | only the family of the prefix changes |
| SubnetTrie.SubnetTrie.InsertIP | internal/netutil/subnet_trie.go:115-121 | an address counts as its full-length prefix |
| SubnetTrie.SubnetTrie.Contains | internal/netutil/subnet_trie.go:78-112 | only the family of the address is searched |
| SubnetTrie.SubnetTrie.IsEmpty | internal/netutil/subnet_trie.go:148-153 | empty if and only if neither family holds a prefix |
| SubnetTrie.KeyMatches | internal/netutil/subnet_trie.go:78-112 | the walk agrees with the comparison of the leading bits as numbers, section 3.1 of RFC 4632 |
| SubnetTrie.ContainedExactly | internal/netutil/subnet_trie.go:37-112 | after any history an address is contained if and only if a prefix matches it that was inserted after the last /0 of its family |
| SubnetTrie.ContainedPlainly | internal/netutil/subnet_trie.go:37-112 | without /0 every inserted prefix counts |
| SubnetTrie.OrderIrrelevant | internal/netutil/subnet_trie.go:37-76 | without /0 the order and repetition of insertions do not matter |
| SubnetTrie.SamePrefixesSameShape | internal/netutil/subnet_trie.go:37-76 | tries of the same prefixes have the same nodes and marks |
| TrustedProxy.Matcher.IsTrusted | internal/trustedproxy/trusted_proxies.go:20-26 | trusted if and only if a configured network contains the address |
| TrustedProxy.Matcher.ResolveRequest | internal/trustedproxy/trusted_proxies.go:40-82 | the resolved address, with every fallback to the peer |
| TrustedProxy.Matcher.PickClient | internal/trustedproxy/trusted_proxies.go:61-75 | the walk over the header from right to left |
| TrustedProxy.SplitJoined | internal/trustedproxy/trusted_proxies.go:68-80 | a joined host, bracketed or not, and port split into the same again |
| TrustedProxy.ResolvesClient | internal/trustedproxy/trusted_proxies.go:40-82 | behind a trusted peer the answer is the rightmost entry that is neither blank nor trusted, with the peer's port |
| TrustedProxy.ResolvesPeer | internal/trustedproxy/trusted_proxies.go:40-82 | otherwise the first entry or the peer; an untrusted peer is answered with its own address |
| TrustedProxy.ForgedEntriesIgnored | internal/trustedproxy/trusted_proxies.go:40-82 | text put in front of a header that names a client changes nothing |
| TrustedProxy.ResolveIdempotent | internal/trustedproxy/trusted_proxies.go:28-38 | resolving the rewritten request again changes nothing |
| CircuitBreaker.TargetMonitor.CompareAndSwap | middleware/circuit_breaker_middleware.go:99-107 | the counter changes exactly when it still holds the value seen |
| CircuitBreaker.TargetMonitor.ServeHTTP | middleware/circuit_breaker_middleware.go:65-108 | the whole handler on a breaker nobody else uses |
| CircuitBreaker.RunAlone | middleware/circuit_breaker_middleware.go:65-108 | the atomic steps of a request run alone have that outcome |
| CircuitBreaker.WalkIsGreatestSuffix | middleware/circuit_breaker_middleware.go:94-108 | a counter that saturates at zero is the greatest suffix sum of its effects |
| CircuitBreaker.StepKeepsInv | middleware/circuit_breaker_middleware.go:65-108 | each atomic step of each request keeps the invariant |
| CircuitBreaker.RunKeepsInv | middleware/circuit_breaker_middleware.go:65-108 | so does every interleaving |
| CircuitBreaker.CounterClosedForm | middleware/circuit_breaker_middleware.go:65-108 | in every interleaving the counter is that suffix sum, never negative, and no finished request is lost or counted twice |
| CircuitBreaker.RecoverySteps | middleware/circuit_breaker_middleware.go:65-108 | after the recovery time each success lowers the counter by the half-open successes plus one while open |
| CircuitBreaker.RecoveryBound | middleware/circuit_breaker_middleware.go:65-108 | the breaker closes after exactly ceil((c - threshold + 1) / (k + 1)) successes, and never with a threshold below 1 |
| CircuitBreaker.OpensExactly | middleware/circuit_breaker_middleware.go:65-108 | after a failure that leaves the counter at the threshold a request is refused, and changes nothing, if and only if it comes within the recovery time of that failure |
| CircuitBreaker.TripsExactly | middleware/circuit_breaker_middleware.go:65-108 | after no more failures in a row than the threshold a new breaker refuses exactly when they are as many and the last is recent |
| BreakerLog.LogRight | middleware/circuit_breaker_middleware.go:65-108 | in every interleaving what each request has seen and where it stands, the effects on the counter and the time of the last failure are a function of the events |
| BreakerLog.CounterFromEvents | middleware/circuit_breaker_middleware.go:65-108 | the counter is the greatest suffix sum of those effects, and the time of the last failure is the clock of the last step that stored one, 0 before any |
| BreakerLog.FateExactly | middleware/circuit_breaker_middleware.go:65-108 | a request is rejected if and only if it found the counter at the threshold and then the clock within the recovery time of the last failure; it is done as failed if and only if its response failed and it has stored the time |
| ProxyLifecycle.Torii.StartHttpProxy | proxy/proxy.go:111-138 | the listener moves from stopped to started, or nothing moves |
| ProxyLifecycle.Torii.StopHttpProxy | proxy/proxy.go:140-165 | the listener moves from started to stopped and its chain is cancelled |
| ProxyLifecycle.Torii.DeleteHttpProxy | proxy/proxy.go:167-200 | the listener is gone from both maps, after a stop where it ran |
| ProxyLifecycle.Torii.AddHttpServer | proxy/proxy.go:202-213 | the built server is stopped under its port, or nothing changes |
| ProxyLifecycle.Torii.HotSwapHandler | proxy/proxy.go:215-250 | handler, routes and metadata change in place and the old chain is cancelled |
| ProxyLifecycle.Torii.EditProxy | internal/app/system.go:302-344 | swap where the configuration allows it, otherwise stop, delete, add and start, with each failure |
| ProxyLifecycle.SwapAgrees | proxy/http.go:65-92 | when no restart is asked for, swapping gives the server that building would |
| ProxyLifecycle.AddKeepsInv | proxy/proxy.go:202-213 | adding keeps the invariant if and only if the port is not started |
| ProxyLifecycle.RebuildKeepsInv | internal/app/system.go:302-344 | a rebuild keeps it, however far it gets |
| ProxyLifecycle.NextKeepsInv | proxy/proxy.go:111-250 | every command keeps it, succeeding or failing |
| ProxyLifecycle.After | proxy/proxy.go:111-250 | in every run no port is both started and stopped, and every server is what building its configuration would give, apart from its flags |
| ProxyLifecycle.RebuildResult | internal/app/system.go:312-334 | a successful rebuild leaves the built server where the old one was |
| ProxyLifecycle.EditRefinesRebuild | internal/app/system.go:302-344 | an edit leaves the state of a rebuild if and only if it restarts, or the configuration changed or the chain was live, on a server marked as started |
| ProxyLifecycle.RestartedChainCancelled | proxy/http.go:150-163 | stopping and starting again changes nothing but that the chain is cancelled |
| ProxyLifecycle.AllRunAsConfigured | proxy/config.go:62-138 | in every run the port, the four timeouts, HTTP/2, the kind with its key and certificate, the addresses and the chain of every server are, field by field, those of its configuration |
| ProxyLifecycle.AddedExactly | proxy/config.go:24-138 | adding succeeds exactly for a configuration that can be served, which is then in force with 30, 10, 30 and 120 seconds for timeouts left out |
| ProxyLifecycle.RestartExactly | proxy/http.go:65-92 | a restart is needed exactly when something else than the routes differs from the configuration in force |
| ProxyLifecycle.EditSucceedsExactly | internal/app/system.go:302-344 | when an edit succeeds, in terms of the configurations and of what the environment answers |
| ProxyLifecycle.EditedExactly | internal/app/system.go:302-344 | after a successful edit the listener is where it was with the new configuration in force, and no other has changed |
| ListenerBook.BookExactly | proxy/proxy.go:111-250 | after every run which listeners are there, which run, whether their chains are live and which configuration is in force are a function of the commands, and every server runs with its settings |
| EventBus.SubscribeTracks | internal/bus/event_bus.go:96-128 | a subscription adds one new listener to its topic and touches no other |
| EventBus.UnsubscribeTracks | internal/bus/event_bus.go:96-128 | an unsubscription removes that one, whatever the order |
| EventBus.SecondUnsubscribe | internal/bus/event_bus.go:96-128 | a second call removes the topic's listeners if and only if the table it remembers is empty |
| EventBus.ListenerDropped | internal/bus/event_bus.go:96-128 | subscribe, unsubscribe, let another subscribe, unsubscribe again: nobody listens any more |
| EventBus.Registry.Subscribe | internal/bus/event_bus.go:96-128 | refused exactly when not started, without topic or without handler |
| EventBus.Registry.Unsubscribe | internal/bus/event_bus.go:96-128 | the effect of the closure on the tables |
| EventBus.CollectHandlers | internal/bus/worker.go:24-43 | one handler call for each topic occurrence and listener |
| EventBus.DispatchersKeepEvents | internal/bus/worker.go:12-22 | dispatchers neither lose nor repeat an event |
| EventBus.DispatchersKeepJobs | internal/bus/worker.go:24-50 | nor a handler call |
| EventBus.HandlersKeepJobs | internal/bus/worker.go:52-62 | nor do handlers |
| EventBus.StepKeepsInv | internal/bus/worker.go:12-62 | every step of every worker, publisher and subscriber keeps the invariant |
| EventBus.RunKeepsInv | internal/bus/event_bus.go:54-94 | in every interleaving queues stay bounded, each event and each call is in one place, an event is dispatched to exactly those who listened to its topics, and nothing is discarded before a stop |
| EventBus.PlannedAtDispatch | internal/bus/worker.go:24-43 | the subscribers recorded for an event are those at the step that dispatched it |
| EventBus.JobRunsAtMostOnce | internal/bus/worker.go:52-62 | at every moment no call has run twice, and the handlers run for an event are among the listeners of its topics at its dispatch, once for each occurrence; none has run for an event not dispatched |
| EventBus.AllDelivered | internal/bus/worker.go:12-62 | at rest, if never stopped, the handlers run for every accepted event are exactly the listeners of its topics at its dispatch, once for each occurrence |
| EventBus.DeliveredToActive | internal/bus/event_bus.go:81-128 | if no closure is called twice, each subscriber active at the dispatch is called as often as its topic occurs in the event, and nobody else is |
| EventDelivery.AcceptedExactly | internal/bus/event_bus.go:54-128 | after every run the events accepted, in order, are those of the sends made while fewer than 1000 waited, by publishers that came while the bus was started; who is subscribed and who may publish is known from the steps alone |
| EventDelivery.CallersNeverBlocked | internal/bus/event_bus.go:81-128 | publishing, subscribing and unsubscribing are possible exactly for those who got past the check or hold a closure |
| EventDelivery.Delivered | internal/bus/worker.go:12-62 | at rest every event so accepted was dispatched at a step, and called for it are exactly the subscribers active then, as often as their topic occurs |
| EventDelivery.WorkerFree | internal/bus/worker.go:12-62 | unless a running bus is at rest some worker can take a step |
| EventDelivery.Drains | internal/bus/worker.go:12-62 | each such step leaves less to do, so the workers bring the bus to rest |
| EventDelivery.Deliverable | internal/bus/worker.go:12-62 | from every point of every run of a bus not stopped its workers alone can bring about that delivery |
| Acme.UniqueExactly | internal/service/acme/domain.go:15-68 | the lower-cased supplied names, each once |
| Acme.ResolveDomains | internal/service/acme/domain.go:15-68 | the planned names in order |
| Acme.PlanExactly | internal/service/acme/domain.go:15-68 | planned are exactly the supplied names that no supplied wildcard covers |
| Acme.GroupDomainBatches | internal/service/acme/domain.go:70-97 | the requests in order |
| Acme.BatchesPartition | internal/service/acme/domain.go:70-97 | the requests partition the names |
| Acme.BatchShape | internal/service/acme/domain.go:70-97 | a request is one name without a parent domain or all the names of one; no two share one |
| Acme.LegoAcmeManager.ObtainCertificate | internal/service/acme/certificate.go:32-72 | a granted request is cached under each of its names, a refused one changes nothing |
| Acme.LegoAcmeManager.EnsureCertificates | internal/service/acme/renewal.go:10-49 | every request is tried, and an error tells that one was refused |
| Acme.LegoAcmeManager.GetCertificate | internal/service/acme/certificate.go:74-92 | the exact name goes before the wildcard of its parent |
| Acme.RequestedExactly | internal/service/acme/renewal.go:10-49 | the requests of a pass name exactly the planned names without a current certificate |
| Acme.PassExactly | internal/service/acme/renewal.go:10-49 | whatever is granted, the names of granted requests get current certificates that name them and every other name is left as it was |
| Acme.FullPass | internal/service/acme/renewal.go:10-49 | when all is granted exactly the planned names have current certificates |
| Acme.SuppliedNameServed | internal/service/acme/certificate.go:74-92 | every supplied name is presented a certificate good for it; it is due for renewal if and only if a wildcard covers the name and its own old certificate is cached |
| Acme.WildcardChildServed | internal/service/acme/certificate.go:74-92 | so is every single-label child of a supplied wildcard, with the same condition |
| Argon2.ParseParameter | internal/auth/argon2.go:154-162 | the number of the first parameter with the prefix |
| Argon2.ParametersBack | internal/auth/argon2.go:142-162 | the printed parameters read back |
| Argon2.FieldsBack | internal/auth/argon2.go:47-108 | the printed fields read back |
| Argon2.PrintedExactly | internal/auth/argon2.go:98-108 | the stored text, part by part |
| Argon2.RoundTrip | internal/auth/argon2.go:36-108 | parsing a printed hash gives it back if and only if its algorithm is known |
| Argon2.StoredExactly | internal/auth/hasher.go:30-45 | any stored text is accepted for exactly the passwords that derive the hash it reads as, and only if that is argon2id with numbers that fit |
| Argon2.ComparedExactly | internal/auth/hasher.go:30-45 | so it is with a printed hash |
| Argon2.PasswordAccepted | internal/auth/hasher.go:30-64 | a hashed password is accepted, another one only on a collision |
| Base64.DecodeEncode | internal/auth/argon2.go:47-108 | the unpadded encoding of salt and digest is read back, section 4 of RFC 4648 |
| Base64.SextetsDenote | internal/auth/argon2.go:98-108 | the groups of six bits denote the same number as the bytes, most significant first, filled up with zeros |
| Decimal.AtoiItoa | internal/auth/argon2.go:154-162 | every 64-bit integer survives printing and reading |
| Totp.ToBytesDenotes | middleware/totp/generator.go:67-68 | the message is the counter in network byte order |
| Totp.TruncateMeans | middleware/totp/generator.go:81-86 | dynamic truncation stays within the digest and is the low 31 bits there, section 5.3 of RFC 4226 |
| Totp.PaddedMeans | middleware/totp/generator.go:88-93 | the padded numeral has the width and denotes the number |
| Totp.CodeMeans | middleware/totp/generator.go:59-94 | a code has exactly the wanted digits, which denote the truncated digest modulo that power of ten |
| Totp.ValidateCode | middleware/totp/totp.go:149-166 | accepted if and only if the trimmed text is the code of a step within the window and the window starts after the epoch |
| Totp.WindowAccepts | middleware/totp/totp.go:149-166 | a code made at one time is accepted at another within the window if and only if a window has passed since the epoch, section 5.2 of RFC 6238 |
| Totp.CodeExactly | middleware/totp/generator.go:59-94 | a text is the code of a step if and only if its digits denote the truncated keyed hash of the step under the manager's seed and algorithm |
| Totp.AcceptedExactly | middleware/totp/totp.go:149-166 | accepted are exactly the texts, trimmed, of that many digits that do so for a step within the window, once a window has passed since the epoch |
| HostTrie.ReverseInPlace | proxy/host_trie_tree.go:120-122 | the swaps reverse the labels |
| HostTrie.ReverseAndTokenizeHost | proxy/host_trie_tree.go:110-125 | the labels name the domain of the host without port, final dot and case |
| HostTrie.SpellingIgnored | proxy/host_trie_tree.go:110-125 | a port, a final dot and the case of letters do not matter |
| HostTrie.HostWritten | proxy/host_trie_tree.go:110-125 | the domain of a host is written as its normal form |
| HostTrie.SameDomain | proxy/host_trie_tree.go:110-125 | hosts share a node if and only if they share the normal form |
| HostTrie.HostTrie.Insert | proxy/host_trie_tree.go:54-75 | the walk builds the missing nodes and sets the handler of the last, and nothing else changes |
| HostTrie.HostTrie.InsertHost | proxy/host_trie_tree.go:104-108 | the handler of the host's domain is replaced, and no other |
| HostTrie.HostTrie.Contains | proxy/host_trie_tree.go:77-102 | the walk finds what the table of inserted hosts says |
| HostTrie.HostTrie.HasAnyEntry | proxy/host_trie_tree.go:30-32 | true if and only if a host was inserted |
| HostTrie.HostTrie.GetAllHosts | proxy/host_trie_tree.go:34-52 | each host with a handler is listed exactly once, in normal form |
| HostTrie.LookupMatches | proxy/host_trie_tree.go:77-102 | the handler found belongs to an inserted pattern that matches label by label, and from the top it takes the host's own label before the wildcard |
| HostTrie.ReachedFirst | proxy/host_trie_tree.go:77-102 | of all matching nodes the walk ends at the first in that order |
| HostTrie.LatestInserted | proxy/host_trie_tree.go:54-108 | after any history of insertions an inserted domain gets the handler inserted last |
| HostTrie.ExactWins | proxy/host_trie_tree.go:77-102 | an inserted host always gets its own handler |
| HostTrie.ReachedExactly | proxy/host_trie_tree.go:77-102 | a matching node is where the walk ends if and only if at each label it has the host's own one or there is no node for that |
| HostTrie.PatternServes | proxy/host_trie_tree.go:77-102 | a pattern with wildcards anywhere serves a host it matches under that condition |
| HostTrie.NotFoundExactly | proxy/host_trie_tree.go:77-102 | a host is not found if and only if every matching pattern is passed by or has no handler |
| HostTrie.WildcardServes | proxy/host_trie_tree.go:77-102 | a wildcard serves a label if and only if no inserted host has it there or lies below it |
| HostTrie.WildcardHostServes | proxy/host_trie_tree.go:77-125 | the same for host names as written |
| HostTrie.SameDepth | proxy/host_trie_tree.go:77-102 | a pattern serves only hosts with as many labels |
| HostTrie.MatchMissed | proxy/host_trie_tree.go:77-102 | a host that only a wildcard matches and that is not found |
| Rings.RingBuffer.Add | internal/util/ring_buffer.go:27-36 | the entry is appended and the oldest gives way |
| Rings.RingBuffer.Recent | internal/util/ring_buffer.go:38-55 | the newest entries, newest first, as many as asked for, added and kept |
| Rings.PageBounds | api/handler_system.go:46-74 | limit and offset are never negative and end within the capacity |
| Rings.Page | api/handler_system.go:28-35 | a page is the part of the whole log from the offset |
| Rings.PageAsked | api/handler_system.go:46-90 | for any texts a page starts at the offset asked for, or else at the newest entry, and has the entries asked for, or else goes on to the end |
| Rings.AskedExactly | api/handler_system.go:51-66 | a text asks for a number if and only if it reads as a positive one |
| Rings.PageAt | api/handler_system.go:46-90 | for printed numbers, the offset beyond the capacity too, it is that part of the log, clamped to its length |
| Rings.PagesCover | api/handler_system.go:19-90 | pages of any size, one after another, are the whole log, each entry once |
| Rings.SortMeans | metrics/latency.go:39-39 | sorting sorts and keeps every count |
| Rings.LatencyRing.Add | metrics/latency.go:21-27 | the latency is appended and the oldest gives way |
| Rings.LatencyRing.Percentile | metrics/latency.go:29-45 | the percentile of the newest latencies, whatever their place in the ring |
| Rings.LatencyRing.Reset | metrics/latency.go:47-50 | no latency is kept |
| Rings.PercentileRanks | metrics/latency.go:29-45 | it is one of the samples, with enough samples on either side for its rank |
| Rings.RankExactly | metrics/latency.go:40-43 | the rank k among n samples is the one with 100k <= (n-1)p < 100(k+1) |
| Rings.PercentileExactly | metrics/latency.go:29-45 | with that k at least k+1 samples are no greater than the percentile and at least n-k no smaller |
| Rings.PercentileMonotone | metrics/latency.go:29-45 | a higher percentile is no smaller, so P50 <= P95 <= P99 |
| Rings.PercentileOrderless | metrics/latency.go:29-45 | the order of the samples does not matter |

## Left out

- Locks: a mutex-protected operation is one step; what runs without a lock (the breaker, the metric workers, the event bus) is split into its atomic steps.
- Clocks, hashes and encryption: times, key derivation, keyed hashes, address parsing and certificate grants are parameters.
- Unicode: lower-casing is that of ASCII letters.
- Logging, statistics of the cache and HTTP details: they would only add easy members.
- EvictCache.Cache.DeleteEntry: its error tells whether an expired entry has been swept, so it is not among the answers that the sweep theorems speak of.
- Cache options: parsing and validation of settings, and the ticker that calls the sweeper.
- RateLimiter.RefinesIdeal: requires the clients to fit the cache, since eviction under pressure forgets buckets by design; requests run one at a time.
- RateLaw.LawKept: holds under the conditions of `RateLimiter.RefinesIdeal`, with exact reals.
- RateLimiter.FaithfulExactly: is exact for runs without a lag between touch and bucket read; for a lag `FaithfulWithin` and `FaithfulOnly` leave a gap, which depends on the levels that whole ticks can reach.
- RateLimiter.TokenBucket.Allow: levels are exact reals, without floating-point rounding.
- ApiKeys: creation of raw keys, listing of keys, and errors of the store; a key that is deleted and created again is outside `StaleExactly`, as raw keys are random.
- Metrics.Metric.AddRequestMetric: 64-bit overflow of counters is not modelled.
- Metrics: the listeners that are notified of changes.
- SubnetTrie: parsing of prefixes from text.
- CircuitBreaker: the response writer, the parsing of options and 32-bit overflow of the counter.
- ListenerBook.BookExactly: commands that add at the port of a started server are not part of a run; `AddKeepsInv` tells that they break the invariant.
- ProxyLifecycle: a server is a value, so aliasing of server objects, sockets and the error text shown in snapshots are not captured; the environment that builds chains stays the same during a run.
- EventBus: panics inside handlers, and the wrap-around of the 32-bit client counter.
- Acme: loading from and saving to the store, resetting, and the renewal timer.
- Argon2.PasswordAccepted: the derivation panics for no rounds or no threads; such a hasher is not modelled.
- Totp.ValidateCode: a period below one second divides by zero in the source; the model asks for at least a second. Sessions and the limiter of attempts are left out.
- HostTrie: the dispatchers by host and path that call it.
- Rings.RingBuffer.Add: a ring without capacity panics in the source, so a capacity is asked for; listeners are left out.
- Rings.LatencyRing.Percentile: the rank is computed in exact reals where the source uses floating point; for whole percentages the two agree, since a hundredth is far above the rounding error.
- Rings.Page: a log without capacity, with an offset near the largest integer, overflows in the source; integers are unbounded here.
