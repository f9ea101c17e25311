# BNS, modelled and proved in Dafny

BNS is a caching DNS forwarder. This project models its hard parts and proves
what they promise:

- the TTL-aware LRU cache, as an object on the heap (`Lru.dfy`), as bookkeeping
  over an element list and a key map (`RecencyBook.dfy`), and as a function on a
  recency list (`LruModel.dfy`), with theorems over every trace of timed Store
  and Get calls (`LruHistory.dfy`, `LruInclusion.dfy`);
- cache lifetimes, the DoH Age adjustment and the TTLs clients are shown
  (`Lifetime.dfy`), and the two stages that handle message objects (`Stages.dfy`);
- the resolver chain under concurrency, as a machine whose threads interleave with
  matcher swaps and upstream replies (`Chain.dfy`, `ChainRuns.dfy`);
- the on-disk blocklist store, as a machine of single file-system calls that may
  fail or crash anywhere (`DiskMachine.dfy`), the store object that refines it
  (`CacheStore.dfy`) and the conditional-request fetcher on top (`Fetch.dfy`);
- the string algorithms: parent-walk matcher (`Matcher.dfy`), line parser
  (`Parse.dfy`, with the names it accepts in `Fqdn.dfy` and whole bodies in
  `Bodies.dfy`), cache key (`CacheKey.dfy`), over Go's string functions (`Text.dfy`);
- the stress harness's histogram arithmetic (`Histogram.dfy`) and Prometheus text
  parsing (`PromText.dfy`).

`dafny verify dfyconfig.toml` checks everything.

## How the model stands to the code

- Time is integer nanoseconds. The clock readings of Store and Get are arguments.
  Store reads the clock before it takes the lock and Get inside it, so a run is
  `ClockOk` when no Get is earlier than any operation before it; Stores may be out
  of order. The chain machine carries a clock with the same rule, and
  `ChainRuns.ClockHolds` shows that its cache traces are `ClockOk`.
- `list.List` is a sequence of elements, its map of elements a Dafny map. The
  observer is an object with two cells; the no-op observer is one nobody reads.
- `LRU.outside` collects every message and record ever passed to Store or returned
  by Get, and `Valid` keeps it disjoint from everything stored.
- The upstream, the network, the directory listing, JSON and `ParseFloat` appear as
  arguments. Of JSON only the round trip is assumed, of `CacheKey` that it yields
  64 hexadecimal digits and, for several URLs together, that it tells them apart.
- `singleflight.Do` is taken by its contract: join or start under a lock; on finish
  every caller gets the same value; `shared` holds for all callers once there are two.
- Whether a file-system call succeeds is arbitrary, unless the store is said to be
  `healthy`, when all of them do.
- A crash of the machine may leave anything, or nothing, of every file whose contents
  were not synced, under whatever name it goes by then. A rename is atomic and, once
  made, stays.

Where the code and its comments or expectations part, the model follows the code:

- `canonicalise` is not idempotent; `Parse.CanonicaliseIdempotentIff` says exactly when it is.
- MinTTL is applied after MaxTTL and may stretch a lifetime past a record's TTL;
  `Lifetime.PositiveShownExactly` gives the exact condition and
  `Lifetime.MinTtlFloorsEarly` an instance.
- A negative answer lives for the SOA MINIMUM, without regard to the SOA record's own TTL,
  unlike section 5 of RFC 2308; `Lifetime.NegativeShownExactly` says exactly when its
  records are then shown as 0 too early, and `Lifetime.NegativeOutlivesSoa` is an instance.
- When the sidecar write fails after the body write, the old sidecar stays beside the
  new body. The comment in `cache_store.go` promises a zero sidecar and a re-download;
  `Fetch.TornWriteMisleads` shows a later 304 accepted over the wrong body instead, and
  `Fetch.TornWriteExactly` gives the exact condition: it cannot happen if and only if there
  was no decodable sidecar with a validator, or the new body is the old one.
- A 200 with an empty body does overwrite the cache, so a fetch can turn a loaded list into
  nothing. `Fetch.EmptiesIff` says exactly when one fetch does, `Fetch.EmptiedInRuns` when a
  run does, and `Fetch.EmptyBodyEmpties` is an instance.

## Model

| member | source | states |
|---|---|---|
| `LruInclusion.CapacityInclusion` | internal/cache/lru.go:94-159 | for any trace and capacities c <= C, the smaller cache's entries are, in order, entries of the larger, and every hit in the smaller is the same hit in the larger |
| `LruInclusion.StepIncluded` | internal/cache/lru.go:94-159 | one Store or Get keeps the inclusion and the slack between the two lengths, through expiry, replacement and eviction |
| `LruHistory.GetFromHistory` | internal/cache/lru.go:132-159 | Get(k) at t hits exactly when k's latest Store has not been evicted since and t <= s + ttl, and returns that message aged by whole seconds |
| `LruHistory.HeldFromHistory` | internal/cache/lru.go:94-159 | a key is held exactly when its latest Store was neither evicted nor found expired since; what is held is what that Store passed in |
| `LruHistory.RecencyOrder` | internal/cache/lru.go:106-114 | the list is always the held keys in the order of their last store or hit |
| `LruHistory.EvictionNeedsCapacityTouches` | internal/cache/lru.go:116-125 | a key falls to capacity only after at least capacity distinct other keys, as many as were asked for, were stored or hit since it last was |
| `LruHistory.RecentlyTouchedHits` | internal/cache/lru.go:94-159 | the converse: a key whose lifetime is not over is hit as long as fewer than capacity distinct other keys were stored or hit since it last was |
| `LruHistory.EntriesConserved` | internal/cache/lru.go:106-148 | Stores of absent keys equal length plus evictions reported; the entries gauge equals the length |
| `LruModel.RunValid` | internal/cache/lru.go:57-67 | in every run the capacity is the one asked for, or one if less was, the length stays within it, and keys are distinct |
| `RecencyBook.PutAbsent` | internal/cache/lru.go:113-126 | pushing an element and popping the back when full agrees with the model, and list and map still hold the same keys |
| `RecencyBook.PutPresent` | internal/cache/lru.go:106-111 | replacing in place and promoting agrees with the model |
| `RecencyBook.LookupCases` | internal/cache/lru.go:136-151 | absent, expired and live lookups agree with the model, list and map staying in step |
| `Lru.LRU.constructor` | internal/cache/lru.go:57-67 | a new cache is empty, with the capacity asked for or one |
| `Lru.LRU.SetObserver` | internal/cache/lru.go:71-79 | installs the observer, a no-op one for nil, and changes nothing else |
| `Lru.LRU.Len` | internal/cache/lru.go:82-86 | the number of entries |
| `Lru.LRU.Store` | internal/cache/lru.go:94-127 | refines the model's Put with a deep copy; the message passed in stays outside what is stored |
| `Lru.LRU.Get` | internal/cache/lru.go:132-159 | refines the model's Lookup; the reply is fresh, aged, and outside what is stored |
| `Dns.CloneMsg` | internal/cache/lru.go:175-183 | an equal message, field for field and record for record, made of new objects only, no record shared between or within sections |
| `Dns.CloneRRs` | internal/cache/lru.go:186-195 | equal records in new, pairwise distinct objects |
| `Dns.DecrementTTLs` | internal/cache/lru.go:199-210 | each record object is aged once per time it is listed, floored at zero |
| `Dns.AgeMsg` | internal/cache/lru.go:153-157 | an unshared message is aged exactly once per record, in all four sections |
| `Dns.AgedEverywhere` | internal/cache/lru.go:197-210 | ageing lowers the TTLs of all four sections, floored at zero, and changes nothing else |
| `Stages.OverwriteRecord` | internal/cache/lru.go:24-31 | overwriting any record ever passed in or handed out leaves every later answer as it was |
| `Stages.OverwriteMessage` | internal/cache/lru.go:24-31 | the same for a message's fields and sections |
| `Stages.FanOut` | internal/resolver/coalesce/coalesce.go:49-54 | replies to different callers share no object, each equal to the shared value under its own ID |
| `Stages.ReplyTo` | internal/resolver/coalesce/coalesce.go:52-54 | one caller's reply: new objects, the shared value, its own ID |
| `Stages.CacheStage.Resolve` | internal/resolver/cachestage/cache.go:47-76 | hit, miss, store and pass-through, with the whole new cache state and both counters; no reply shares an object with what is stored |
| `Lifetime.FindSOA` | internal/resolver/cachestage/cache.go:118-125 | the MINIMUM of the first SOA record, nothing exactly if there is none |
| `Lifetime.MinTTL` | internal/resolver/cachestage/cache.go:129-145 | the smallest TTL that Answer, Ns and Extra carry, 0 for no records |
| `Lifetime.LeastIsLeast` | internal/resolver/cachestage/cache.go:127-145 | that number is attained and below every TTL |
| `Lifetime.ComputeTTL` | internal/resolver/cachestage/cache.go:86-115 | the lifetime that `PositiveLifetime` and `NegativeLifetime` give in numbers, and whether the answer is NXDOMAIN or NODATA |
| `Lifetime.PositiveLifetime` | internal/resolver/cachestage/cache.go:102-114 | a positive answer lives for its smallest TTL when that lies between MinTTL and MaxTTL, for MaxTTL above it, for MinTTL below it or when MinTTL is above MaxTTL, and is not cached for a TTL of 0 or no records |
| `Lifetime.NegativeLifetime` | internal/resolver/cachestage/cache.go:87-100 | an NXDOMAIN or NODATA answer lives for the MINIMUM of the first SOA record, at most NegativeTTLMax, and is not cached without one |
| `Lifetime.PositiveShownExactly` | internal/resolver/cachestage/cache.go:102-114 | every record of a cached positive answer is shown its exact TTL minus age for as long as it can be hit, if and only if MinTTL is less than one second above the least TTL |
| `Lifetime.NegativeShownExactly` | internal/resolver/cachestage/cache.go:89-98 | the same for a cached negative answer, if and only if min(SOA MINIMUM, NegativeTTLMax) is less than one second above its least TTL |
| `Lifetime.ShownExactlyIff` | internal/cache/lru.go:142-157 | any entry is shown exactly for as long as it can be hit if and only if its lifetime is less than one second above its least TTL |
| `Lifetime.NegativeOutlivesSoa` | internal/resolver/cachestage/cache.go:89-98 | a negative answer that the SOA MINIMUM keeps alive past its SOA record's TTL |
| `Lifetime.MinTtlFloorsEarly` | internal/resolver/cachestage/cache.go:108-113 | an answer that MinTTL keeps alive past its TTL |
| `Lifetime.ShownInRuns` | internal/cache/lru.go:153-157 | over every run, a hit shows each stored TTL less whole seconds of age, and a positive TTL never promises a full second more than was stored |
| `Lifetime.ExactInRuns` | internal/resolver/cachestage/cache.go:71-74 | over every run, positive answers under MinTTL <= 0, and all answers whose lifetime is less than one second above their least TTL, are shown exactly original minus age |
| `Lifetime.AdjustForAge` | internal/upstream/doh_client.go:219-223 | a parsed Age header is subtracted once from every Answer, Ns and Extra record |
| `Lifetime.DohAgedSections` | internal/upstream/doh_client.go:253-263 | that adjustment lowers Answer, Ns and Extra, floored at zero, and leaves the question and the header alone |
| `Lifetime.DohThenCache` | internal/upstream/doh_client.go:253-263 | Age subtraction followed by cache ageing is one saturating subtraction of their sum |
| `CacheKey.Key` | internal/cache/key.go:26-36 | the builder yields name, type and class, lower-cased and separated |
| `CacheKey.KeyInjective` | internal/cache/key.go:17-36 | two questions share a key exactly when lower-cased name, type and class agree, even when the separator occurs in a name |
| `Chain.StepInv` | internal/resolver/chain/chain.go:36-44 | every step of every thread keeps the invariant tying threads, flights, group and cache together |
| `ChainRuns.BlockDecision` | internal/resolver/blockstage/block.go:23-42 | in every run each query that arrived and finished was checked; a single-question query ends as "blocked", with the synthesised NXDOMAIN, exactly when the matcher current at that check matches it, and every other query is counted as error, nxdomain or forwarded by its reply alone |
| `ChainRuns.SwapActsAtOnce` | internal/blocklist/holder.go:19-27 | a swapped-in matcher decides every query checked before the next swap, whatever the cache holds |
| `ChainRuns.OnlyUpstreamCached` | internal/resolver/blockstage/block.go:35-41 | in every reachable state each cache entry was brought by a finished flight for its key, none of whose callers was blocked |
| `ChainRuns.HitProvenance` | internal/resolver/cachestage/cache.go:55-60 | every hit is a copy, under the caller's ID, of what next returned for the same question up to case, aged by the whole seconds of an elapsed time between zero and that message's lifetime |
| `ChainRuns.HitFromHistory` | internal/resolver/cachestage/cache.go:53-61 | in every run of the chain, a lookup hits exactly when its key's latest Store has not been evicted since and its lifetime is not over |
| `ChainRuns.HitShown` | internal/resolver/cachestage/cache.go:53-74 | in every run, a query that ends as a hit was answered with a reply stored by an earlier step under its key and brought by a flight for it, aged by the whole seconds from that Store to the lookup; under MinTTL <= 0 each TTL of a positive answer is exactly the one next returned minus that age |
| `ChainRuns.ClockHolds` | internal/cache/lru.go:94-141 | the Gets and Stores of every run of the chain form a trace in which no Get is earlier than an operation before it |
| `ChainRuns.CacheIsRun` | internal/resolver/cachestage/cache.go:53-74 | in every run of the chain the cache is what the trace of its Gets and Stores makes of an empty one, each Store for the reply's computed lifetime |
| `ChainRuns.OneFlightPerKey` | internal/resolver/coalesce/coalesce.go:39-41 | at most one call of next per key is in progress |
| `ChainRuns.CallerServed` | internal/resolver/coalesce/coalesce.go:33-55 | a caller gets, field for field, the reply of a flight for its own key that overlapped its wait, under its own ID, or that flight's error |
| `ChainRuns.FlightResult` | internal/resolver/coalesce/coalesce.go:39-41 | what a flight brings is what its one call of next returned |
| `ChainRuns.Delivered` | internal/resolver/cachestage/cache.go:47-76 | every missed query with a reply offered it to the cache, and every query without exactly one question got next's own answer, marked upstream exactly for a reply |
| `ChainRuns.OneMarkerPerFlight` | internal/resolver/outcome.go:101-109 | of a flight's callers exactly the leader carries an upstream marker, and only once the flight has brought a reply |
| `ChainRuns.NoMarkerWithoutUpstream` | internal/resolver/outcome.go:79-88 | blocked queries and cache hits carry no upstream marker |
| `ChainRuns.CoalescedCount` | internal/resolver/coalesce/coalesce.go:42-45 | once all queries are done the counter is the sum of n over flights of n >= 2 callers |
| `ChainRuns.QueriesConserved` | internal/resolver/metricstage/metrics.go:26-49 | once all queries are done, queries counted equal blocked plus hits plus misses plus those without exactly one question |
| `Matcher.NewMatcher` | internal/blocklist/matcher.go:17-27 | the set of canonical non-empty entries |
| `Matcher.Match` | internal/blocklist/matcher.go:31-46 | true exactly when the canonical name is an entry or ends in a dot and an entry |
| `Matcher.BlockedExactly` | internal/blocklist/matcher.go:31-46 | character by character: the canonical name is an entry, or has a dot and then an entry at its end |
| `Matcher.CanonicalForm` | internal/blocklist/matcher.go:53-56 | white space around a name goes, letters become lower case, and one dot at the end goes |
| `Matcher.SourcesAreDisjunction` | internal/blocklist/loader.go:28-41 | a matcher over concatenated sources blocks what any one source blocks |
| `Matcher.RedundantEntry` | internal/blocklist/matcher.go:5-6 | dropping an entry that lies under another changes no answer |
| `Matcher.Load` | internal/blocklist/loader.go:32-42 | builds the disjunction of all sources and counts their entries, or fails with the first source that fails |
| `Matcher.TotalAdds` | internal/blocklist/loader.go:32-42 | the count is the sum of what the sources hold |
| `Parse.IsValidFqdn` | internal/blocklist/parse.go:70-94 | the loops decide label and length rules |
| `Fqdn.ValidExactly` | internal/blocklist/parse.go:66-94 | position by position: 1 to 253 lower-case letters, digits, hyphens and dots, no dot or hyphen at an edge of a label, and no 64 characters without a dot |
| `Parse.ParsedIsNormal` | internal/blocklist/parse.go:23-56 | an accepted line yields a valid name that canonicalise leaves alone |
| `Parse.ParsedSetExact` | internal/blocklist/matcher.go:14-27 | so the matcher's set is exactly the set of parsed names |
| `Parse.RoundTripPlain` | internal/blocklist/parse.go:13-56 | every spelling of a valid name parses back to it |
| `Parse.RoundTripHosts` | internal/blocklist/parse.go:35-64 | so does every hosts line |
| `Parse.ParseExactly` | internal/blocklist/parse.go:23-56 | a line parses to a valid name exactly when it is a spelling of it or a hosts line for it, marks and white space aside |
| `Parse.CanonicaliseTwice` | internal/blocklist/matcher.go:53-56 | canonicalise is not idempotent |
| `Parse.CanonicaliseIdempotentIff` | internal/blocklist/matcher.go:53-56 | the names on which it is |
| `Parse.ParseReader` | internal/blocklist/file_source.go:37-54 | the parsed lines in order, or the error of the first line that is too long or at which the context is cancelled |
| `Bodies.ListParses` | internal/blocklist/http_source.go:12-15 | a list of valid names, one to a line, with or without carriage returns, parses to exactly those names in order |
| `Bodies.OpenListParses` | internal/blocklist/http_source.go:12-15 | the same when the last line is not ended |
| `Bodies.LinesStep` | internal/blocklist/file_source.go:42-48 | a newline ends a line and the rest of the body goes on after it |
| `Bodies.LinesRestore` | internal/blocklist/file_source.go:42-48 | no line holds a newline, and the lines joined by newlines are the body, the last newline aside |
| `Bodies.LinesOfJoined` | internal/blocklist/file_source.go:42-48 | splitting gives back the lines that were joined |
| `Parse.BodyBlocks` | internal/blocklist/http_source.go:12-15 | a matcher loaded from a body blocks exactly the names at or under a valid name that some line of the body is a line for, and nothing if a line is too long for the scanner |
| `DiskMachine.CrashSafety` | internal/blocklist/cache_store.go:95-153 | at every point of every run of writes and sweeps, with any step failing or crashing, bodies and sidecars are whole and no sidecar lacks its body |
| `DiskMachine.StepInv` | internal/blocklist/cache_store.go:181-202 | each single file-system call, failure or crash keeps that |
| `DiskMachine.SweepSafe` | internal/blocklist/cache_store.go:139-151 | removing a body is safe because directory order shows its sidecar first |
| `DiskMachine.SweepComplete` | internal/blocklist/cache_store.go:139-152 | a sweep that reaches its end has left only kept cache files |
| `DiskMachine.OthersUntouched` | internal/blocklist/cache_store.go:155-158 | no run creates, changes or removes a file that is not a cache file |
| `DiskMachine.IsCacheFilename` | internal/blocklist/cache_store.go:159-172 | true exactly for 64 hexadecimal digits followed by one of the four suffixes |
| `DiskMachine.CacheFileExactly` | internal/blocklist/cache_store.go:155-172 | the same character by character |
| `CacheStore.Store.WriteFileAtomic` | internal/blocklist/cache_store.go:181-202 | the file is in place whole, or nothing but its temporary file changed; in place if no call fails |
| `CacheStore.Store.Write` | internal/blocklist/cache_store.go:95-116 | both files, no file, or the body alone were replaced, each call being a machine step; both if no call fails |
| `CacheStore.Store.Sweep` | internal/blocklist/cache_store.go:124-153 | body and sidecar of every URL to keep, and every foreign file, stay as they are; after a sweep that did not fail every cache file left belongs to such a URL; it counts what it removes and fails only if a call does |
| `CacheStore.Store.AlwaysSafe` | internal/blocklist/cache_store.go:81-83 | at every point of everything a store has done the directory was safe |
| `CacheStore.Store.Over` | internal/blocklist/cache_store.go:38-40 | a store can start over any safe directory, such as what a crash left |
| `CacheStore.WriteRun` | internal/blocklist/cache_store.go:95-116 | however a Write ends, a crash at any point included, the directory is that of a complete, an unwritten or a torn one, temporary files aside |
| `Fetch.Fetcher.FetchOne` | internal/blocklist/http_fetcher.go:94-187 | outcome, counts and directory for every reply; whatever brings no acceptable body, cancellation included, changes no file at all; without failing calls every acceptable body is a success |
| `Fetch.OutcomesAre` | internal/blocklist/http_fetcher.go:133-186 | success is exactly a 200 of at most 67108864 bytes, empty or with at least one entry, and a complete Write; not_modified is exactly a 304 |
| `Fetch.SuccessRecords` | internal/blocklist/http_fetcher.go:108-186 | after a success the body is the reply's, the sidecar gives its URL, validators, time, size and entries, and the next request is made with those validators |
| `Fetch.TrustworthyIff` | internal/blocklist/http_fetcher.go:118-140 | for every disk, each honest 304 means the disk agrees with the origin if and only if a sidecar with a validator describes its body |
| `Fetch.FetchReliable` | internal/blocklist/http_fetcher.go:133-186 | one fetch keeps that property unless its Write is torn to its harm, and success or not_modified means the disk agrees with the origin |
| `Fetch.FetchCoherent` | internal/blocklist/http_fetcher.go:133-186 | one fetch without a torn write keeps the sidecar true of the body, and success or not_modified means the disk agrees with the origin |
| `Fetch.FetchRuns` | internal/blocklist/http_fetcher.go:94-187 | over any interleaving of origin changes and fetches without torn writes, sidecars describe their bodies, and bodies are at most 64 MiB and empty or real lists |
| `Fetch.FetchInSync` | internal/blocklist/http_fetcher.go:133-186 | over any interleaving of origin changes and fetches in which torn writes do no harm, a fetch that reports success or not_modified leaves the origin's current body on disk, its entries counted as a load would |
| `Fetch.CoherentInSync` | internal/blocklist/http_fetcher.go:133-186 | the same from a coherent store |
| `Fetch.CrashedFetch` | internal/blocklist/http_fetcher.go:166-181 | a process that dies inside the Write of a fetch leaves what some fetch event leaves, so the run theorems cover it |
| `Fetch.BodiesOkRuns` | internal/blocklist/http_fetcher.go:146-165 | whatever the replies and however the Writes end, every fetched body on disk is at most 64 MiB and is empty or parses to at least one entry |
| `Fetch.EmptiesIff` | internal/blocklist/http_fetcher.go:157-165 | a fetch turns a loaded list into nothing if and only if a 200 with an empty body came and its Write reached the body |
| `Fetch.EmptiedInRuns` | internal/blocklist/http_fetcher.go:157-165 | over any run a loaded list ends empty if and only if the last body stored for it was empty |
| `Fetch.LoadedInRuns` | internal/blocklist/http_source.go:44-53 | after any run a load returns what the last stored body parses to |
| `Fetch.EmptyBodyEmpties` | internal/blocklist/http_fetcher.go:157-165 | a list of one name lost to an empty 200 |
| `Fetch.Fetcher.Cycle` | internal/blocklist/http_fetcher.go:224-251 | outcomes and directory are those of the fetches in order, temporary files aside; a reload is asked for exactly if some target brought a new body; without failures every target ends in sync with an honest origin |
| `Fetch.CycleEventsAre` | internal/blocklist/http_fetcher.go:224-251 | each fetch of a cycle is asked with the sidecar that those before it left, and none is made once the context is cancelled |
| `Fetch.CycleSyncs` | internal/blocklist/http_fetcher.go:224-251 | the run theorem carried to the files the store object holds |
| `Fetch.CycleInSync` | internal/blocklist/http_fetcher.go:224-251 | a cycle without failures over unchanged origins leaves every fetched URL in sync at its end |
| `Fetch.ReloadBlocks` | internal/blocklist/http_source.go:44-53 | a reload over synced URLs blocks exactly the names that some origin's current list blocks |
| `Fetch.SuccessRestores` | internal/blocklist/http_fetcher.go:157-186 | a success restores coherence whatever was on disk |
| `Fetch.TornWriteMisleads` | internal/blocklist/cache_store.go:90-108 | a write stopped between its renames lets a later 304 stand over the wrong body |
| `Fetch.TornWriteExactly` | internal/blocklist/cache_store.go:90-108 | after a torn write all later reports of success or not_modified are true, in every run, if and only if no decodable sidecar with a validator was there or the body did not change |
| `Fetch.TornHarmlessIff` | internal/blocklist/cache_store.go:104-107 | the same for the disk alone and the next 304 |
| `Fetch.TemporaryFilesDoNotShow` | internal/blocklist/cache_store.go:48-79 | leftover temporary files change nothing that ReadMeta, a load or the coherence rules see |
| `Fetch.FetchedAgrees` | internal/blocklist/http_fetcher.go:141-186 | nor what a fetch does to the other files or reports |
| `Histogram.SortBuckets` | internal/stress/metrics.go:136-141 | a sorted permutation, in place |
| `Histogram.DurationQuantile` | internal/stress/metrics.go:62-85 | the interpolated estimate in nanoseconds, 0 for an empty histogram, a panic for no buckets |
| `Histogram.EstimateExactly` | internal/stress/metrics.go:67-84 | the estimate divides the first reaching bucket's width as the target divides its own count; the upper bound for an empty bucket, the last bound if none reaches |
| `Histogram.NanosecondsExactly` | internal/stress/metrics.go:75-84 | seconds become nanoseconds by dropping the fraction, toward zero |
| `Histogram.EstimateBracketed` | internal/stress/metrics.go:70-80 | the estimate lies between the bounds of the first bucket that reaches q times the total |
| `Histogram.EstimateMonotone` | internal/stress/metrics.go:60-85 | the estimate is monotone in q |
| `Histogram.DiffHistogram` | internal/stress/metrics.go:180-200 | sum, count and bucket-wise differences, and the later buckets as they stand when the lengths differ |
| `Histogram.DiffIsSeries` | internal/stress/metrics.go:180-200 | the difference is cumulative exactly when no bucket's own count went down |
| `PromText.SplitLabels` | internal/stress/metrics.go:240-259 | the pieces between unquoted commas |
| `PromText.SplitInvertsJoin` | internal/stress/metrics.go:238-259 | splitting inverts comma-joining of non-empty quote-balanced pieces |
| `PromText.JoinInvertsSplit` | internal/stress/metrics.go:238-259 | splitting any text loses nothing but a comma at its end, and leaves no comma outside quotes in a piece |
| `PromText.ParsePromLine` | internal/stress/metrics.go:202-236 | name, labels and value, every malformed line and the slice panic included |
| `PromText.MapExact` | internal/stress/metrics.go:226-234 | with distinct keys that map holds exactly the printed labels |
| `PromText.LineRoundTrip` | internal/stress/metrics.go:202-236 | parsing a printed sample recovers its name, exact label map and value |
| `PromText.PlainLine` | internal/stress/metrics.go:202-218 | a name, a space and a value parse to a sample without labels, or are malformed if the value does not parse |
| `PromText.LineCases` | internal/stress/metrics.go:206-224 | a line without a space, or with an opening brace and no closing one, is malformed |
| `PromText.UnparsedValue` | internal/stress/metrics.go:209-213 | so is every line whose value does not parse |
| `PromText.BracesReversed` | internal/stress/metrics.go:219-225 | a closing brace before the opening one panics |
| `PromText.SpacedLabel` | internal/stress/metrics.go:226-234 | white space around a key and around a quoted value does not count |
| `PromText.SkippedPiece` | internal/stress/metrics.go:226-234 | a piece without '=' is skipped |

## Left out

- Transports, listeners, the admin server, the stress orchestrator and process handling: input and output only.
- The DNS wire format, Pack, Unpack and the Data buffer: part of the DNS library, not of this model.
- Non-ASCII letters and white space in names and lines: strings are bytes, and only ASCII is folded or trimmed.
- Config loading and validation, logging, metric registration and report rendering.
- Pool failover and dial rotation: the upstream is an arbitrary answer.
- The query-log stage: it changes neither query nor answer.
- Panic recovery, and a next stage that returns neither reply nor error.
- Renames lost at a crash because the directory was not yet synced: a made rename stays made.
- The ticker and the one-slot refresh channel of Run: they only say when a cycle starts.
- Two reloads racing each other: nothing is claimed about which snapshot the later Swap installs.
- Histogram bounds of +Inf, float rounding, and scrapes with several outcome series.
