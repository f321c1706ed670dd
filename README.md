# Reverse proxy core: routing, load balancing and cache decisions

This project models the core of a small HTTP reverse proxy written in Java.
It covers:

- **Configuration.** The proxy holds a registry of *services*. Each service
  has a name, the domain it answers for, a balancing strategy (ROUND_ROBIN
  or RANDOM) and a list of backend *endpoints* (host and port). The registry
  is loaded from one configuration text:
  `NAME,DOMAIN,STRATEGY,HOST:PORT[,HOST:PORT...]`, with several definitions
  separated by `;`.
- **Routing.** An incoming request goes to the first service whose trimmed
  domain equals the request's `Host` header, ignoring case. That service's
  balancer then tries its candidate endpoints (ACTIVE or PENDING) one after
  another. A success marks the endpoint ACTIVE and returns its response. A
  failure marks it SUSPENDED and moves on. When no candidate is left,
  `NoAvailableEndpointsException` is thrown.
- **Selection.** The round-robin balancer keeps a cursor that wraps around
  the candidate list. The random balancer picks any candidate.
- **Health check.** A periodic check probes every endpoint of every service
  and sets its status to ACTIVE or SUSPENDED.
- **Caching.** There are two copies of the cache manager: the current one in
  the `components` package and an older one in `entities`. Each decides:
  - whether a request may be answered from the cache (its `cache-control`
    header carries none of `no-cache`, `no-store`, `private`);
  - whether a response may be stored;
  - whether a stored item is still fresh under the request's `max-age`
    directives.

  Cache keys are MD5 digests of a JSON form of the request, rendered as 32
  zero-padded hex digits.

Objects that the Java code updates in place are Dafny classes:

- `Endpoint.status`;
- the endpoint list that a service shares with its balancer;
- the round-robin cursor;
- the proxy's registry;
- the cache managers' store.

Loops in the source become methods with loop invariants. Each method is
proved against a specification function, and the properties the source
promises are proved about those functions as lemmas. The modules are:

| module | holds |
|---|---|
| `JavaLang`, `Seqs`, `Wrappers` | helpers: `String.trim`, `split`, `equalsIgnoreCase`, `Integer.parseInt`, `Long.parseLong`, long division, and Option/Result |
| `Messages` | requests, responses and cache items |
| `CacheControl` | the header scans |
| `Serialization` | `MD5Serializer` |
| `CacheManagement` | the current cache manager |
| `LegacyCacheManagement` | the older cache manager |
| `Endpoints` | endpoints, the shared list and the candidate filter |
| `LoadBalancing` | `Balancer` and its two subclasses |
| `BaseBalancing` | `BaseLoadBalancer` |
| `Services` | `Service` and definition parsing |
| `Proxy` | `ReverseProxy` |

Source paths below are relative to the repository root. The external effects
are parameters of the model:

- The transport that forwards a request to an endpoint is
  `(request, ip, port) -> Option<Response>`, where None means the call threw.
- The socket probe of the health check is `(ip, port) -> bool`.
- The clock is a number of milliseconds.
- MD5 and Gson are the functions of a `Codec` value.
- The Redis store is a `map` together with a flag that says whether it can be
  reached.

## Model

| member | source | states |
|---|---|---|
| Messages.Get | src/main/java/mvcp/adobe/components/CacheManager.java:82 | Map.get: a value returned is stored under the key; null exactly when no entry has the key |
| Messages.GetUnique | src/main/java/mvcp/adobe/components/CacheManager.java:82 | in a map with unique keys, get returns the value stored under the key |
| Messages.GetHostHeader | src/main/java/mvcp/adobe/entities/Request.java:94-98 | the host is read under "host" when that key exists, otherwise under "Host"; null exactly when neither key is present |
| Messages.HostHeaderPrefersLowerCase | src/main/java/mvcp/adobe/entities/Request.java:95 | a "host" entry always wins |
| Messages.HostHeaderFallsBack | src/main/java/mvcp/adobe/entities/Request.java:96 | without a "host" entry, the "Host" entry is used |
| Messages.StringifyBodyPieces | src/main/java/mvcp/adobe/entities/Request.java:66-73 | when no key or value holds '&', splitting the text on '&' gives back the key=value pairs one by one, in order |
| Messages.StringifyBody | src/main/java/mvcp/adobe/entities/Request.java:66-73 | a null body is a null dereference; otherwise the text is empty exactly when the body is |
| Messages.Stamp | src/main/java/mvcp/adobe/entities/CacheItem.java:17-20 | the creation time kept for a new item is the current time cut to the whole second, no later than now and less than a second earlier |
| Enums.StrategyValueOf | src/main/java/mvcp/adobe/entities/Service.java:149 | Enum.valueOf succeeds exactly on a strategy's exact name and returns that strategy; any other text is IllegalArgumentException naming the text |
| Enums.StrategyNameRoundTrip | src/main/java/mvcp/adobe/entities/Service.java:149 | valueOf of a strategy's name gives the strategy back |
| JavaLang.DivTowardZero | src/main/java/mvcp/adobe/components/CacheManager.java:144 | the age in seconds is the quotient truncated toward zero, for negative differences too |
| CacheControl.ScanValue | src/main/java/mvcp/adobe/components/CacheManager.java:84-94 | the loop over the pieces of one cache-control value reports a bypass exactly when some trimmed piece is no-cache, no-store or private, in any case |
| CacheControl.ScanHeaders | src/main/java/mvcp/adobe/components/CacheManager.java:109-123 | the loop over all headers reports a bypass exactly when some header named cache-control (trimmed, any case) carries a bypass directive |
| CacheControl.MaxAgeValue | src/main/java/mvcp/adobe/components/CacheManager.java:154 | a max-age value that parses is within the range of a Java long; a missing `=` part is an index error and a bad number is a number format error |
| CacheControl.Freshness | src/main/java/mvcp/adobe/components/CacheManager.java:151-160 | the scan of directives is true exactly when no max-age directive is reached by the age and none is malformed; false only if some max-age value is reached; an exception only if some max-age directive is malformed |
| CacheControl.FreshnessAppend | src/main/java/mvcp/adobe/components/CacheManager.java:147-162 | scanning two lists of directives in a row: the first list decides unless it passes, then the second does |
| CacheControl.ControlDirectivesMembers | src/main/java/mvcp/adobe/components/CacheManager.java:147-150 | the directives scanned are exactly the pieces of the values of headers named cache-control |
| CacheControl.CheckDirectives | src/main/java/mvcp/adobe/components/CacheManager.java:150-160 | the loop over one value's pieces returns at the first decision, and its answer is the freshness verdict on all of them |
| CacheControl.CheckMaxAge | src/main/java/mvcp/adobe/components/CacheManager.java:146-163 | the loop over all headers gives the freshness verdict on every cache-control directive of the request |
| CacheControl.DecidedIn | src/main/java/mvcp/adobe/components/CacheManager.java:155-158 | an early return at directive k is the verdict on the whole list |
| CacheControl.Validity | src/main/java/mvcp/adobe/components/CacheManager.java:136-165 | an item whose date does not parse is invalid; otherwise, with headers, it is valid exactly when no max-age directive is reached by its age in seconds and none is malformed |
| CacheControl.ValidWithoutMaxAge | src/main/java/mvcp/adobe/components/CacheManager.java:146-164 | without any max-age directive, an item with a readable date is valid |
| CacheControl.ExpiredIsInvalid | src/main/java/mvcp/adobe/components/CacheManager.java:153-158 | a max-age directive whose value the age reaches makes the item invalid |
| Serialization.HexFacts | src/main/java/mvcp/adobe/components/MD5Serializer.java:87-89 | BigInteger.toString(16) of a non-negative number is non-empty lowercase hex with no leading zero, and its value is the number |
| Serialization.UnsignedInjective | src/main/java/mvcp/adobe/components/MD5Serializer.java:87 | the signum-1 BigInteger of a digest loses nothing: equal values of equal-length digests mean equal bytes |
| Serialization.PadShape | src/main/java/mvcp/adobe/components/MD5Serializer.java:90-92 | the padding loop only prepends '0' characters |
| Serialization.PadValue | src/main/java/mvcp/adobe/components/MD5Serializer.java:90-92 | padding keeps the hex value |
| Serialization.BytesHexLength | src/main/java/mvcp/adobe/components/MD5Serializer.java:87-89 | n bytes never need more than 2n hex digits, so a 16-byte digest needs at most 32 |
| Serialization.Md5TextShape | src/main/java/mvcp/adobe/components/MD5Serializer.java:85-93 | the hash text is exactly 32 lowercase hex digits whose value is the digest's |
| Serialization.Md5TextInjective | src/main/java/mvcp/adobe/components/MD5Serializer.java:85-93 | distinct digests give distinct hash texts |
| Serialization.GetMd5 | src/main/java/mvcp/adobe/components/MD5Serializer.java:79-100 | the padding loop returns the 32-digit text of the input's digest |
| Serialization.SameKeyIgnoresOtherHeaders | src/main/java/mvcp/adobe/components/MD5Serializer.java:38-46 | requests that agree on version, method, path, body and host header share a cache key, whatever their other headers |
| Serialization.SameKeyOnlyForSameDigest | src/main/java/mvcp/adobe/components/MD5Serializer.java:38-46 | two requests share a key only when the MD5 digests of their clones' JSON collide |
| Serialization.HashRequest | src/main/java/mvcp/adobe/components/MD5Serializer.java:38-46 | the cache key is 32 lowercase hex digits whose value is the MD5 digest of the JSON of the host-only clone |
| Serialization.SerializeCacheItem | src/main/java/mvcp/adobe/components/MD5Serializer.java:67-69 | when Gson round-trips, the text reads back as the item and was written for no other item |
| Serialization.DeserializeCacheItem | src/main/java/mvcp/adobe/components/MD5Serializer.java:56-58 | when Gson round-trips, the text written for an item reads back as that item |
| Serialization.ItemRoundTrip | src/main/java/mvcp/adobe/components/MD5Serializer.java:56-69 | deserializing a serialized item gives the item back, when Gson round-trips |
| CacheManagement.RequestGate | src/main/java/mvcp/adobe/components/CacheManager.java:79-98 | a request with headers is refused exactly when its value under the exact key "cache-control" carries a bypass directive |
| CacheManagement.Lookup | src/main/java/mvcp/adobe/components/CacheManager.java:174-187 | null when the gate refuses or no entry exists under the key; CacheNotAvailableException when the store cannot be reached; any other exception comes from reading the stored item's max-age |
| CacheManagement.LookupHit | src/main/java/mvcp/adobe/components/CacheManager.java:174-187 | getCached returns a response exactly when the gate passes, the store is reachable, an entry exists under the request's key and the item read from it is valid; the response is that item's |
| CacheManagement.StoredChangesOneKey | src/main/java/mvcp/adobe/components/CacheManager.java:196-202 | a write adds the request's key and leaves every other key as it was |
| CacheManagement.StoreThenLookup | src/main/java/mvcp/adobe/components/CacheManager.java:174-202 | after a response is stored for a request, reading that request while its max-age admits the item's age returns the response |
| CacheManagement.ExpiredEntryMisses | src/main/java/mvcp/adobe/components/CacheManager.java:153-158 | a stored entry whose age reaches one of the request's max-age values is not served |
| CacheManagement.CacheManager.constructor | src/main/java/mvcp/adobe/components/CacheManager.java:70-71 | a new manager starts with an empty store |
| CacheManagement.CacheManager.CanGetFromCache | src/main/java/mvcp/adobe/components/CacheManager.java:79-98 | the loop decides the request gate, and a request without headers passes |
| CacheManagement.CacheManager.CanCache | src/main/java/mvcp/adobe/components/CacheManager.java:106-126 | the loop decides the response gate, and a response without headers may be stored |
| CacheManagement.CacheManager.CacheItemIsValid | src/main/java/mvcp/adobe/components/CacheManager.java:136-165 | the loops compute the item's validity |
| CacheManagement.CacheManager.GetCached | src/main/java/mvcp/adobe/components/CacheManager.java:174-187 | the answer is the lookup over the current store, null when the gate refuses, CacheNotAvailableException when the store cannot be reached |
| CacheManagement.CacheManager.Store | src/main/java/mvcp/adobe/components/CacheManager.java:196-202 | a storable response is written under the request's key, stamped with the current time; a refused one changes nothing; an unreachable store throws and changes nothing |
| CacheManagement.CacheManager.SetSerializer | src/main/java/mvcp/adobe/components/CacheManager.java:209-211 | the serializer is replaced |
| LegacyCacheManagement.HeadersIgnored | src/main/java/mvcp/adobe/entities/CacheManager.java:154-161 | the older copy nulls the headers before hashing, so requests that differ only in headers share a key |
| LegacyCacheManagement.HashRequest | src/main/java/mvcp/adobe/entities/CacheManager.java:154-161 | the key is 32 lowercase hex digits whose value is the MD5 digest of the JSON of the headerless clone |
| LegacyCacheManagement.GetMd5 | src/main/java/mvcp/adobe/entities/CacheManager.java:170-191 | the padding loop returns the hex text of the digest, preceded by zeros up to 32 characters |
| LegacyCacheManagement.GetMd5AgreesWithSerializer | src/main/java/mvcp/adobe/entities/CacheManager.java:176-184 | the older padding produces the same text as the serializer's |
| LegacyCacheManagement.Lookup | src/main/java/mvcp/adobe/entities/CacheManager.java:256-269 | null when the gate refuses; CacheNotAvailableException when the store cannot be reached; a response returned is that of a valid item stored under the request's key; any other exception comes from reading the stored item's max-age |
| LegacyCacheManagement.LookupMisses | src/main/java/mvcp/adobe/entities/CacheManager.java:256-269 | getCached is null when the gate refuses, when no entry exists, or when the stored item is not valid |
| LegacyCacheManagement.UnreadableDateMisses | src/main/java/mvcp/adobe/entities/CacheManager.java:220-227 | an item whose creation date does not parse is never served |
| LegacyCacheManagement.GatesDisagreeOnCapitalisedHeader | src/main/java/mvcp/adobe/entities/CacheManager.java:102-120 | on a request whose only header is "Cache-Control: no-store", the current gate (exact lower-case key) lets it through and the older gate (any case) stops it |
| LegacyCacheManagement.CacheManager.constructor | src/main/java/mvcp/adobe/entities/CacheManager.java:61-64 | a new manager starts with an empty store, reachable or not |
| LegacyCacheManagement.CacheManager.CanGetFromCache | src/main/java/mvcp/adobe/entities/CacheManager.java:102-120 | a request is refused exactly when some header named cache-control (trimmed, any case) carries a bypass directive |
| LegacyCacheManagement.CacheManager.CanCache | src/main/java/mvcp/adobe/entities/CacheManager.java:128-146 | the same rule on the response's headers |
| LegacyCacheManagement.CacheManager.HashItem | src/main/java/mvcp/adobe/entities/CacheManager.java:209-211 | when Gson round-trips, the text reads back as the item and was written for no other item |
| LegacyCacheManagement.CacheManager.UnhashItem | src/main/java/mvcp/adobe/entities/CacheManager.java:199-201 | when Gson round-trips, the text written for an item reads back as that item |
| LegacyCacheManagement.CacheManager.ItemRoundTrip | src/main/java/mvcp/adobe/entities/CacheManager.java:199-211 | unhashItem of hashItem gives the item back, when Gson round-trips |
| LegacyCacheManagement.CacheManager.CacheItemIsValid | src/main/java/mvcp/adobe/entities/CacheManager.java:220-247 | the item's validity; false when its date does not parse |
| LegacyCacheManagement.CacheManager.GetCached | src/main/java/mvcp/adobe/entities/CacheManager.java:256-269 | the answer is the lookup of the older copy over the current store; CacheNotAvailableException when get cannot reach the store |
| LegacyCacheManagement.CacheManager.Store | src/main/java/mvcp/adobe/entities/CacheManager.java:277-283 | a storable response is written under the headerless key, stamped with the current time; otherwise nothing changes |
| LegacyCacheManagement.StoreThenLookup | src/main/java/mvcp/adobe/entities/CacheManager.java:256-283 | after a write, a read of any request with the same version, method, path and body returns the response while max-age admits its age |
| Endpoints.Endpoint.constructor | src/main/java/mvcp/adobe/entities/Endpoint.java:15-20 | a new endpoint has the given ip and port and starts PENDING |
| Endpoints.Endpoint.SetStatus | src/main/java/mvcp/adobe/entities/Endpoint.java:59-61 | only the status changes |
| Endpoints.Endpoint.ToString | src/main/java/mvcp/adobe/entities/Endpoint.java:51-53 | HOST:PORT reads back as the endpoint's address when the host has no ':' |
| Endpoints.Endpoint.ToJsonString | src/main/java/mvcp/adobe/entities/Endpoint.java:43-45 | the JSON text starts with the ip and port fields and ends with the status field, `, "status": "` followed by the status name and `"}` |
| Endpoints.Endpoint.Equals | src/main/java/mvcp/adobe/entities/Endpoint.java:65-75 | an endpoint equals itself; equality means the other is not null and agrees on ip (ignoring case), port and status |
| Endpoints.JsonShowsStatus | src/main/java/mvcp/adobe/entities/Endpoint.java:43-45 | two endpoints at the same address with different statuses render different JSON texts |
| Endpoints.EqualsMeaning | src/main/java/mvcp/adobe/entities/Endpoint.java:65-75 | two endpoints are equal exactly when they agree on ip (ignoring case), port and status |
| Endpoints.EqualsReflexive | src/main/java/mvcp/adobe/entities/Endpoint.java:67-68 | an endpoint equals itself |
| Endpoints.EqualsSymmetric | src/main/java/mvcp/adobe/entities/Endpoint.java:65-75 | equals is symmetric |
| Endpoints.EndpointList.constructor | src/main/java/mvcp/adobe/entities/Service.java:46 | a new list is empty |
| Endpoints.EndpointList.Add | src/main/java/mvcp/adobe/entities/Service.java:155 | List.add appends at the end |
| Endpoints.CandidatesMembers | src/main/java/mvcp/adobe/abstractions/Balancer.java:60-68 | an endpoint is a candidate exactly when it is in the list and ACTIVE or PENDING |
| Endpoints.CandidatesAppend | src/main/java/mvcp/adobe/abstractions/Balancer.java:60-68 | the filter keeps list order: it distributes over concatenation |
| Endpoints.CandidatesEmpty | src/main/java/mvcp/adobe/abstractions/Balancer.java:52-58 | there is a candidate exactly when the filtered list is not empty |
| Endpoints.CandidatesCount | src/main/java/mvcp/adobe/abstractions/Balancer.java:60-68 | the size of the filtered list is the number of candidate statuses |
| Endpoints.CountDrops | src/main/java/mvcp/adobe/abstractions/Balancer.java:38-41 | suspending a candidate lowers the number of candidates, which is why balance terminates |
| Endpoints.ParseAddress | src/main/java/mvcp/adobe/entities/Service.java:153-154 | a host that parses holds no ':'; a field without a ':' part is an index error and a bad port a number error |
| Endpoints.ParseAddressRoundTrip | src/main/java/mvcp/adobe/entities/Service.java:153-154 | parsing the HOST:PORT text of an address whose host has no ':' gives the address back |
| LoadBalancing.TriedFails | src/main/java/mvcp/adobe/abstractions/Balancer.java:38-41 | a failed try of a candidate adds it to the tried endpoints, all of them failed and SUSPENDED, and it had not been tried before |
| LoadBalancing.TriedServes | src/main/java/mvcp/adobe/abstractions/Balancer.java:34-37 | a successful try of a candidate ends the tried endpoints: the earlier ones failed, it answered the response and is ACTIVE, and nothing untried changed |
| LoadBalancing.FailureStep | src/main/java/mvcp/adobe/abstractions/Balancer.java:38-41 | a failed try suspends the endpoint, keeps "only failures are suspended", and lowers the number of candidates |
| LoadBalancing.SuccessStep | src/main/java/mvcp/adobe/abstractions/Balancer.java:34-37 | a successful try marks the endpoint ACTIVE, and the outcome is settled and served by it |
| LoadBalancing.NoCandidateLeft | src/main/java/mvcp/adobe/abstractions/Balancer.java:30-43 | with no candidate left, every endpoint that was a candidate failed |
| LoadBalancing.ServedByCandidate | src/main/java/mvcp/adobe/abstractions/Balancer.java:34-37 | a response of a settled outcome is the answer of an endpoint that was a candidate |
| LoadBalancing.NothingServedWhenAllFail | src/main/java/mvcp/adobe/abstractions/Balancer.java:30-43 | when every candidate fails, a settled outcome serves no response |
| LoadBalancing.Pick | src/main/java/mvcp/adobe/entities/RoundRobinLoadBalancer.java:14 | the cursor's index is within the candidate list |
| LoadBalancing.PicksAtCursor | src/main/java/mvcp/adobe/entities/RoundRobinLoadBalancer.java:13-16 | call j selects the index at the cursor left by the calls before it |
| LoadBalancing.CursorInLap | src/main/java/mvcp/adobe/entities/RoundRobinLoadBalancer.java:14-15 | within one lap the cursor moves one place per call and wraps once |
| LoadBalancing.PickInLap | src/main/java/mvcp/adobe/entities/RoundRobinLoadBalancer.java:13-16 | within one lap, call j selects the first index plus j, wrapped around the pool |
| LoadBalancing.PicksSplit | src/main/java/mvcp/adobe/entities/RoundRobinLoadBalancer.java:13-16 | k + m calls are the first k followed by m calls from the cursor they leave |
| LoadBalancing.PicksBySelected | src/main/java/mvcp/adobe/entities/RoundRobinLoadBalancer.java:14 | the calls depend on the cursor only through the index it selects |
| LoadBalancing.LapRepeats | src/main/java/mvcp/adobe/entities/RoundRobinLoadBalancer.java:13-16 | over a stable pool of n candidates, round robin is periodic with period n |
| LoadBalancing.LapCoversPool | src/main/java/mvcp/adobe/entities/RoundRobinLoadBalancer.java:13-16 | n consecutive calls select every candidate exactly once |
| LoadBalancing.Balancer.constructor | src/main/java/mvcp/adobe/abstractions/Balancer.java:23-25 | the balancer shares the given list (not a copy) and the round-robin cursor starts at 0 |
| LoadBalancing.Balancer.RandomOverEmptyList | src/main/java/mvcp/adobe/entities/RandomLoadBalancer.java:9-11 | RandomLoadBalancer() works over a new empty list |
| LoadBalancing.Balancer.HasEndpointCandidate | src/main/java/mvcp/adobe/abstractions/Balancer.java:52-58 | true exactly when some endpoint is ACTIVE or PENDING |
| LoadBalancing.Balancer.GetEndpointCandidates | src/main/java/mvcp/adobe/abstractions/Balancer.java:60-68 | the ACTIVE and PENDING endpoints, in list order |
| LoadBalancing.Balancer.NextRoundRobin | src/main/java/mvcp/adobe/entities/RoundRobinLoadBalancer.java:12-16 | the cursor wraps to 0 once it reaches the candidate count; the candidate at the cursor is returned and the cursor moves on; with no candidate, get(0) fails |
| LoadBalancing.Balancer.NextRandom | src/main/java/mvcp/adobe/entities/RandomLoadBalancer.java:15-20 | some candidate is returned; nextInt(0) rejects an empty pool |
| LoadBalancing.Balancer.NextEndpoint | src/main/java/mvcp/adobe/abstractions/Balancer.java:70 | the subclass's choice succeeds exactly when there is a candidate, and returns a candidate; round robin returns the candidate at the wrapped cursor and moves the cursor on (get(0) fails without candidates); random leaves the cursor alone |
| LoadBalancing.Balancer.TryNext | src/main/java/mvcp/adobe/abstractions/Balancer.java:31-41 | one round: the chosen candidate is forwarded the request and marked ACTIVE on an answer, SUSPENDED on a failure; no other status changes; round robin chose the candidate at the cursor, random left the cursor alone |
| LoadBalancing.Balancer.Round | src/main/java/mvcp/adobe/abstractions/Balancer.java:30-41 | one pass of the loop: with no candidate left nothing changes and every former candidate failed; otherwise the next candidate is tried and joins the tried endpoints, ending the run on an answer |
| LoadBalancing.Balancer.Balance | src/main/java/mvcp/adobe/abstractions/Balancer.java:28-46 | a null request answers null and changes nothing; otherwise candidates are tried one at a time, each at most once: every failure is SUSPENDED, the first success is ACTIVE and its response is returned at once, and no untried endpoint changes; NoAvailableEndpointsException exactly when every former candidate fails, and then no candidate is left; round robin tries the candidate at the cursor first, random leaves the cursor alone |
| BaseBalancing.BaseLoadBalancer.constructor | src/main/java/mvcp/adobe/abstractions/BaseLoadBalancer.java:30-32 | a new empty list |
| BaseBalancing.BaseLoadBalancer.WithList | src/main/java/mvcp/adobe/abstractions/BaseLoadBalancer.java:34-36 | the given list is shared |
| BaseBalancing.BaseLoadBalancer.HasEndpointCandidate | src/main/java/mvcp/adobe/abstractions/BaseLoadBalancer.java:74-80 | true exactly when some endpoint is ACTIVE or PENDING |
| BaseBalancing.BaseLoadBalancer.GetEndpointCandidates | src/main/java/mvcp/adobe/abstractions/BaseLoadBalancer.java:87-95 | the ACTIVE and PENDING endpoints, in list order |
| BaseBalancing.BaseLoadBalancer.NextEndpoint | src/main/java/mvcp/adobe/abstractions/BaseLoadBalancer.java:102 | the abstract choice returns a candidate |
| BaseBalancing.BaseLoadBalancer.TryNext | src/main/java/mvcp/adobe/abstractions/BaseLoadBalancer.java:48-58 | one round: the chosen candidate is marked by its answer; no other status changes |
| BaseBalancing.BaseLoadBalancer.Round | src/main/java/mvcp/adobe/abstractions/BaseLoadBalancer.java:47-58 | one pass of the loop: with no candidate left nothing changes; otherwise the next candidate is tried and joins the tried endpoints |
| BaseBalancing.BaseLoadBalancer.Balance | src/main/java/mvcp/adobe/abstractions/BaseLoadBalancer.java:45-63 | the same outcome as Balancer.balance: candidates tried one at a time, failures SUSPENDED, the first success ACTIVE and returned at once, untried endpoints unchanged, and the exception exactly when every former candidate fails |
| Services.ParseEndpoints | src/main/java/mvcp/adobe/entities/Service.java:150-156 | blank fields are skipped, and at most one address per field |
| Services.ParseEndpointsKeepsError | src/main/java/mvcp/adobe/entities/Service.java:150-156 | the first endpoint field that fails decides the error |
| Services.ParseDefinition | src/main/java/mvcp/adobe/entities/Service.java:142-162 | fewer than four comma fields is InvalidServiceDefinitionException with the text; the parsed name and domain are trimmed |
| Services.StrategyFieldAnyCase | src/main/java/mvcp/adobe/entities/Service.java:148-149 | the strategy field is read whatever its case and surrounding blanks |
| Services.ParseDefinitions | src/main/java/mvcp/adobe/entities/Service.java:127-131 | blank definitions are skipped, and at most one service per definition |
| Services.ParseDefinitionsKeepsError | src/main/java/mvcp/adobe/entities/Service.java:128-131 | the first definition that fails decides the error |
| Services.ParseEndpointsOfAddresses | src/main/java/mvcp/adobe/entities/Service.java:150-156 | parsing the HOST:PORT texts of addresses gives the addresses back |
| Services.ParseFormat | src/main/java/mvcp/adobe/entities/Service.java:142-162 | a definition written in the configuration format parses back to the same name, domain, strategy and endpoints |
| Services.ParseFormatAll | src/main/java/mvcp/adobe/entities/Service.java:125-133 | the ';'-joined text of several definitions parses back to all of them, in order |
| Services.Service.constructor | src/main/java/mvcp/adobe/entities/Service.java:42-64 | a new service owns a new empty list, and its balancer follows the strategy over that same list (round robin for ROUND_ROBIN, random otherwise) |
| Services.Service.ProcessRequest | src/main/java/mvcp/adobe/entities/Service.java:113-116 | the balancer's outcome over the service's own endpoints is the service's: candidates tried in order, failures SUSPENDED, the first success ACTIVE and returned, untried endpoints unchanged, NoAvailableEndpointsException exactly when every former candidate fails; round robin starts at the cursor |
| Services.Service.Parse | src/main/java/mvcp/adobe/entities/Service.java:142-162 | a text that parses gives a new service holding exactly the definition (name, domain, strategy, PENDING endpoints at its addresses, in order); otherwise the definition's error |
| Services.Service.AddEndpoints | src/main/java/mvcp/adobe/entities/Service.java:150-156 | each non-blank field, in order, becomes a new PENDING endpoint at its address appended to the list; the first bad field stops it with its error |
| Services.Service.FromProperty | src/main/java/mvcp/adobe/entities/Service.java:125-133 | one service per non-blank definition, in order, each holding exactly its definition; the first bad definition's error otherwise |
| Services.Contains | src/main/java/mvcp/adobe/entities/Service.java:191 | List.contains by Endpoint.equals: true for an element of the list, and true only when some element agrees on ip (ignoring case), port and status |
| Services.ContainsAll | src/main/java/mvcp/adobe/entities/Service.java:191 | List.containsAll: true when every wanted element is in the list, and true only when each wanted element has an equal one there |
| Services.Service.Equals | src/main/java/mvcp/adobe/entities/Service.java:179-192 | a service equals itself; equality means the other is not null, has the same name and domain ignoring case, the same strategy, as many endpoints, and an equal one for each of this service's endpoints |
| Services.SameDefinitionEqual | src/main/java/mvcp/adobe/entities/Service.java:179-192 | services built from the same definition are equal by Service.equals |
| Proxy.Discover | src/main/java/mvcp/adobe/proxy/ReverseProxy.java:37-49 | a null registry or a null request is a null dereference (a null request over an empty registry reaches the throw instead); a discovered service is a registered one |
| Proxy.Scan | src/main/java/mvcp/adobe/proxy/ReverseProxy.java:43-49 | a discovered service is a registered one; the only failures are ServiceHostNotFoundException and a null dereference |
| Proxy.ScanFindsFirst | src/main/java/mvcp/adobe/proxy/ReverseProxy.java:43-47 | the first service whose trimmed domain matches the host is the one discovered |
| Proxy.ScanSound | src/main/java/mvcp/adobe/proxy/ReverseProxy.java:43-47 | whatever is discovered is the first matching service |
| Proxy.ScanNotFound | src/main/java/mvcp/adobe/proxy/ReverseProxy.java:43-49 | with headers present, ServiceHostNotFoundException is thrown exactly when no domain matches |
| Proxy.NoHeadersNullPointer | src/main/java/mvcp/adobe/proxy/ReverseProxy.java:44 | without headers, discovery over a non-empty registry is a null dereference |
| Proxy.DistinctDomainsFound | src/main/java/mvcp/adobe/proxy/ReverseProxy.java:41-50 | with distinct domains, a host equal to a service's domain discovers that service |
| Proxy.ScanAfterRegister | src/main/java/mvcp/adobe/proxy/ReverseProxy.java:32-49 | registering a service never changes what earlier services answer; the new one is reached only when none of them matches |
| Proxy.LoadedDomainFound | src/main/java/mvcp/adobe/proxy/ReverseProxy.java:41-65 | in a registry loaded from definitions with distinct domains, a request for one definition's domain reaches the service built from it |
| Proxy.ReverseProxy.constructor | src/main/java/mvcp/adobe/proxy/ReverseProxy.java:30 | the registry starts null |
| Proxy.ReverseProxy.RegisterService | src/main/java/mvcp/adobe/proxy/ReverseProxy.java:32-35 | the list is created on first use and the service is appended |
| Proxy.ReverseProxy.DiscoverService | src/main/java/mvcp/adobe/proxy/ReverseProxy.java:41-50 | the loop returns the discovery of the registry; a null registry or a null request is a null dereference |
| Proxy.ReverseProxy.ProcessRequest | src/main/java/mvcp/adobe/proxy/ReverseProxy.java:37-39 | a discovery error is the answer, null request included; otherwise the discovered service's balancer outcome over its endpoints: candidates tried in order, the first success returned, untried endpoints unchanged, NoAvailableEndpointsException exactly when every former candidate fails |
| Proxy.ReverseProxy.LoadServices | src/main/java/mvcp/adobe/proxy/ReverseProxy.java:63-69 | the registry is replaced by one service per definition only when the whole text parses; otherwise the error and no change |
| Proxy.ReverseProxy.PollServiceEndpoints | src/main/java/mvcp/adobe/proxy/ReverseProxy.java:73-86 | a null registry is a null dereference; when every port is in 0..65535, every endpoint of every registered service ends ACTIVE when its probe succeeds and SUSPENDED otherwise; otherwise the first endpoint with a bad port throws IllegalArgumentException, the endpoints before it are marked and the rest keep their status |
| Proxy.PollOrderFrom | src/main/java/mvcp/adobe/proxy/ReverseProxy.java:74-76 | an endpoint visited by the nested loops belongs to a registered service |
| Proxy.PollServices | src/main/java/mvcp/adobe/proxy/ReverseProxy.java:74-84 | the outer loop: services in order, stopping at the first bad port with the endpoints before it marked and the rest unchanged |
| Proxy.PollStep | src/main/java/mvcp/adobe/proxy/ReverseProxy.java:75-83 | one service's turn extends the marked prefix by its endpoints, or stops at its first bad port |
| Proxy.ProbeEndpoints | src/main/java/mvcp/adobe/proxy/ReverseProxy.java:76-83 | the inner loop: each endpoint is probed and marked by the outcome; a port outside 0..65535 throws IllegalArgumentException before the probe, leaving that endpoint and the rest unchanged |

## Left out

- The configuration property lookup: `loadServices(null)` reads
  `mvcp.adobe.proxy.services` from the Spring environment, and `config()`
  calls it at start-up. The model loads from a given text. Logging and
  `System.out` printing are left out too.
- Getters, and the setters other than `setStatus` and `setSerializer`: they
  are plain field accesses. The default `Service()` constructor is left out.
  `Service.toString` is left out because only logging uses it.
- `Request.jsonBody` and `Request.fromContextRequest` are left out; they
  belong to the HTTP controller layer.
- `RedisCache` and the Redis connection are a `map` plus a reachability flag.
  Every access throws `CacheNotAvailableException` when the store cannot be
  reached.
- Gson and `MessageDigest` are the functions of a `Codec` value.
  - The JSON round trip of cache items is a hypothesis (`ItemsRoundTrip`),
    not a proof.
  - MD5 itself is not modelled; digests are any 16 bytes.
- The endpoint transport (`HttpForwarder.execute`), the socket probe of the
  health check with its timeout, and the clock are function parameters.
  `java.util.Random` is any index into the candidates.
- Concurrency: the health check runs on a scheduler beside request handling.
  The model runs operations one at a time.
- Case folding is ASCII-only. `String.equalsIgnoreCase` and `toUpperCase` for
  non-ASCII letters are not modelled.
- JavaLang.ParseSigned: accepts ASCII digits only. `Integer.parseInt` and
  `Long.parseLong` also accept the other Unicode decimal digits that
  `Character.digit` knows; these are not modelled.
- CacheManagement.CacheManager.GetCached: requires a headers map. The same
  holds for CacheManagement.CacheManager.Store. Both reach `hashRequest`,
  which calls `getHostHeader`, and that dereferences the map. The model does
  not state the resulting null-pointer outcome.
- LegacyCacheManagement.CacheManager.GetCached requires a headers map. So do
  the two gates and `CacheItemIsValid` of the older copy. They iterate over
  the map without a null check.
- LegacyCacheManagement.CacheManager.Store: requires a headers map on the
  response, because `store` passes the response to the gate, which iterates
  over its headers without a null check. The null-pointer outcome is not
  modelled.
- CacheManagement.CacheManager.Store: the call `new CacheItem(response)` in
  `store` has no matching constructor in `CacheItem`, which has only
  `(Response, Date)`. The model stamps the item with the current time, as the
  older copy does.
- BaseBalancing.BaseLoadBalancer.NextEndpoint: `nextEndpoint` is abstract in
  this class. The model returns some candidate and does not describe any
  subclass.
- LoadBalancing.Balancer.NextRandom: states only that the result is a
  candidate. The uniform distribution of `Random.nextInt` is not modelled.
- Services.Service.Parse: does not state that the new endpoints are fresh
  objects. Services.Service.AddEndpoints does not state it either. Each
  states the endpoints' ip, port and PENDING status, in order.
- Integer widths:
  - Ports are 32-bit and checked by `Integer.parseInt`.
  - `max-age` values are checked against the range of a Java long.
  - Ages are unbounded integers. Java's long subtraction of two clock
    readings cannot overflow for real clock values.
