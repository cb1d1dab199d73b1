# A verified model of Hyrouter's routing core

Hyrouter is a QUIC entry point for Hytale servers. It reads a client's Connect packet, decides on a backend, lets plugins
change or deny that decision, and answers with a ClientReferral or a Disconnect packet. This project models the parts of
it that carry the logic and proves what they promise, for every input and every run:

- **Plugin ordering** (`PluginOrder`, `PluginStages` and their proofs): the greedy topological sort with its in-degree and
  adjacency maps, and the stage-by-stage arrangement.
- **Selection** (`RoutingTypes`, `BackendOrder`, `Sorting`, `Filters`, `Candidates`, `Weighted`, `RoundRobin`, `Selection`,
  `Engine`, `SamplingProofs`, `PoolValidation`): candidates, filters, the multi-key comparator, the five strategies, fallbacks, counters and the
  random stream.
- **Plugin chain** (`PluginChain`): the chain consulted on a Connect packet.
- **Wire** (`Bytes`, `VarInt`, `Codec`, `Envelope`, `Connect`, `Framing`, `ConnectProofs` and `WireExamples`): varints, offset tables, packets,
  the signed referral envelope, framing, and the two Connect layouts.
- **Streams** (`Streams`, `StreamProofs`, `StreamRouting`, `StreamExamples`): frame reassembly and the decide / plugin / respond machine.
- **Allocation throttle** (`Throttle`) and **ALPN choice** (`Alpn`).

Operations that the source performs step by step are methods, with the source's loops and updated state, proved equal to a
specification function or predicate; the promises are lemmas about those specifications. `Text` and `Common` hold string
operations and result types. `dafny verify dfyconfig.toml` checks everything.

## How the outside world enters

- Library functions (`ParseFloat`, `ParseInt`, `json.Unmarshal`, `path.Match`) and the clock are the arbitrary functions of a
  `World` value; HMAC-SHA256 is an arbitrary function from key and message to 32 bytes.
- The random generator is an arbitrary stream of draws. `p2c` redraws repeated indexes, so its termination needs the stream
  to be `Fair`: every index keeps coming up. `Engine.CountingIsFair` shows that such streams exist.
- Discovery is an answer per decision: no resolver, an error, or a slice of backends. The router and the plugins, as a stream
  sees them, are functions of how many Connect packets came before.
- Reads deliver arbitrary chunks; writes obey Go's writer contract (progress or an error).

## Where the code differs from what one might expect

Each but the last comes with the exact condition and with a concrete input that shows it.

- NaN values break the backend comparator. It is a strict weak order exactly when no NaN separates two backends that the
  comparator orders (`BackendOrder.StrictWeakIff`, for any list of keys); loads 2, NaN and 1 stay in that order
  (`BackendOrder.NaNExample`).
- Validation accepts a fallback that blanks the `key` of a `p2c` or `least_loaded` pool, and selection then fails although
  the fallback keeps backends (`PoolValidation.ValidPoolErrors`, `PoolValidation.KeyBlankedExample`).
- Weighted odds are exact if and only if the weights add up to less than 2^63 (`Weighted.ExactOddsIff`); a validated pool with
  two weights of 2^62 never selects (`PoolValidation.WeightOverflowExample`).
- Round robin stays balanced across the wrap-around of its 64-bit counter if and only if the number of candidates divides
  2^64 (`RoundRobin.AlwaysBalancedIff`, `RoundRobin.WrapUnbalanced`).
- `docs/routing.md` says that `p2c` chooses among the candidates it samples. It does so on every random stream if and only if
  fewer candidates than it samples, the first not counted, lack a usable value (`SamplingProofs.SampledOnEveryStreamIff`);
  otherwise some stream makes it pick candidate 0 unsampled (`SamplingProofs.TooManyUnusable`).
- `docs/plugin-development.md` promises plugins the selected strategy. A decision reports the pool's strategy, which is the
  one that decided exactly when no fallback with another strategy did (`Engine.StrategyReportedIff`,
  `PoolValidation.StrategyExample`).
- A Connect packet of one layout can be taken for the other. For packets that place their variable parts anywhere:
  `ConnectProofs.V2DecodedIff` with `ConnectProofs.MistakenV2Example`, and `ConnectProofs.V1DecodedIff` with
  `ConnectProofs.MistakenV1Example`. A sender that packs the parts of layout 2 in table order is never mistaken
  (`ConnectProofs.PackedV2Decodes`).
- Encoding a verified envelope again restores its bytes only when no flag besides "signed" was set (`Envelope.ReEncodeIff`,
  `Envelope.ExtraFlagExample`).
- After a routing error, plugins are still offered the last successful decision, and unless an answer names another backend
  its backend is used (`StreamProofs.FailedRoutingBackend`); so a stream can answer a routing error with a referral
  (`StreamExamples.StaleReferralExample`).
- A plugin that replaces the candidates by a shorter list can leave the selected index out of range
  (`PluginChain.StepIndexInRangeIff`, `PluginChain.StaleIndexExample`).
- `docs/routing.md` describes union mode as "static + discovered"; the code puts discovered backends first, and that order
  is what lets them win (`Candidates.UnionMeans`).

## Model

| member | source | states |
|---|---|---|
| PluginOrder.AddEdge | internal/plugins/order.go:67-78 | recording one constraint adds one to the target's in-degree and one entry to the source's edge list, so both maps still count the whole multigraph |
| PluginOrder.BuildConstraints | internal/plugins/order.go:57-79 | afterwards the in-degree and edge maps agree everywhere with the multigraph of in-stage before/after constraints, repeats and self-loops included |
| PluginOrder.FindReady | internal/plugins/order.go:85-97 | the scan finds the first unprocessed plugin that waits for no other, or reports that there is none |
| PluginOrder.Discharge | internal/plugins/order.go:99-103 | after a plugin is processed every in-degree counts exactly the edges from unprocessed plugins |
| PluginOrder.TopoSortByConstraints | internal/plugins/order.go:53-107 | the loop over the maps computes the greedy order of the constraint multigraph, or fails where that gets stuck |
| PluginOrder.BlockedIffPositive | internal/plugins/order.go:90-93 | a plugin waits for an unprocessed one exactly when its in-degree over the unprocessed plugins is positive |
| PluginOrder.InDegreeAfter | internal/plugins/order.go:101-103 | the in-degree loses exactly as many as the processed plugin has edges to it |
| PluginOrderProofs.LastBearer | internal/plugins/order.go:57-60 | a name means the last plugin of the stage that bears it |
| PluginOrderProofs.EdgesExact | internal/plugins/order.go:65-79 | there is an edge a to b exactly when b lists a's name under after or a lists b's name under before |
| PluginOrderProofs.GreedySound | internal/plugins/order.go:84-106 | a successful order is a permutation of the stage that meets every constraint |
| PluginOrderProofs.LongWalk | internal/plugins/order.go:95-97 | when every unprocessed plugin waits, one can walk backwards along edges for any number of steps |
| PluginOrderProofs.StuckIsCyclic | internal/plugins/order.go:95-97 | being stuck yields an actual cycle, by pigeonhole |
| PluginOrderProofs.OrderedIsAcyclic | internal/plugins/order.go:84-106 | any order that meets the constraints rules every cycle out |
| PluginOrderProofs.SortsIffAcyclic | internal/plugins/order.go:53-107 | the sort of a stage succeeds if and only if its constraint multigraph is acyclic |
| PluginOrderProofs.StageOrderIsLeast | internal/plugins/order.go:84-106 | among all orders that meet the constraints the sort returns the lexicographically least by configuration position |
| PluginStages.GroupByStage | internal/plugins/order.go:14-21 | every stage gets the positions of its plugins, in configuration order |
| PluginStages.OrderStandard | internal/plugins/order.go:23-36 | after the three standard stages the order so far runs deny, route, mutate, each sorted, and only other stages are left over |
| PluginStages.OrderIndexes | internal/plugins/order.go:14-44 | ordering succeeds exactly when every stage sorts, and gives a permutation that runs the stages in rank order, each in its sorted order |
| PluginStages.OrderPluginConfigs | internal/plugins/order.go:10-51 | the result is the configuration rearranged by that permutation, an error exactly when some stage fails; by their texts, deny plugins come first, then route plugins and those without a stage, then mutate plugins, then any others |
| PluginStagesProofs.OrdersIffEveryStageAcyclic | internal/plugins/order.go:30-33 | ordering succeeds exactly when no stage has a cycle among its own constraints |
| PluginStagesProofs.ArrangementUnique | internal/plugins/order.go:11-13 | with standard stages only, the order is a function of the configuration |
| PluginStagesProofs.ArrangementIsLeast | internal/plugins/order.go:23-50 | of all permutations that run the stages in sequence and meet every in-stage constraint it is the least, and it exists whenever one does |
| PluginStagesProofs.ForeignConstraintsIgnored | internal/plugins/order.go:67-78 | constraints naming plugins of another stage, or none, have no effect |
| PluginChain.ApplyOnConnect | internal/plugins/manager.go:32-97 | the loop over plugins computes the fold over their answers and makes exactly the calls up to the first deny |
| PluginChain.FindCandidate | internal/plugins/manager.go:79-86 | the index of the first candidate with the overriding backend's address, else the index selected before |
| PluginChain.IndexOfIsFirst | internal/plugins/manager.go:80-85 | the search finds the first candidate with that address, if any |
| PluginChain.PluginsAfterDenyIgnored | internal/plugins/manager.go:60-64 | no plugin after the first deny is consulted or has any effect |
| PluginChain.FirstDeny | internal/plugins/manager.go:60-64 | a denied chain was denied by the first plugin that answers with a denial, in that plugin's words |
| PluginChain.NoDeny | internal/plugins/manager.go:43-64 | where the chain is not denied no call along it answered with a denial, and there is no reason |
| PluginChain.StepTakesBackend | internal/plugins/manager.go:77-87 | an answer's backend becomes the backend, with the index of the first candidate at its address |
| PluginChain.StepEffect | internal/plugins/manager.go:65-94 | otherwise the selected candidate becomes the backend, or backend and index stay; candidates and content are the answer's where it gives them; a backend without a host gives way to the first candidate |
| PluginChain.FailingPluginInvisible | internal/plugins/manager.go:54-59 | a plugin whose call fails on this connect changes nothing, wherever it stands in the chain |
| PluginChain.ChainContentAndCandidates | internal/plugins/manager.go:65-69 | candidates once non-empty stay non-empty, and the final content is the last one set before any deny |
| PluginChain.SuccessNamesBackend | internal/plugins/manager.go:88-91 | without a deny, with named candidates and at least one successful call, the final backend has a host |
| PluginChain.NoAnswersNoChange | internal/plugins/manager.go:33-39 | a chain without a usable answer hands back what it was given |
| PluginChain.ChainNamelessIff | internal/plugins/manager.go:65-91 | the chain leaves no backend exactly when neither the backend named last, by an answer or at the start, nor the first candidate at any answer since has a host |
| PluginChain.SilentAnswersKeepBackend | internal/plugins/manager.go:65-91 | answers that supply no candidates and name no backend keep the backend, or replace one without a host by the first candidate |
| PluginChain.StepIndexInRangeIff | internal/plugins/manager.go:65-91 | exactly when one answer leaves the selected index inside the candidates |
| PluginChain.StaleIndexExample | internal/plugins/manager.go:65-76 | an answer with one candidate, where the second of two was selected, leaves index 1 behind |
| BackendOrder.ApplySort | internal/routing/sort.go:9-45 | the slice is stably sorted in place by the key list; no keys leave it as it is |
| BackendOrder.KeyOutcomeBetween | internal/routing/sort.go:22-41 | what one key says of two values it says by way of any third, or ties all three, unless the third is NaN |
| BackendOrder.BackendLessAsym | internal/routing/sort.go:13-44 | no two backends come before each other, NaN or not |
| BackendOrder.BreaksIff | internal/routing/sort.go:13-44 | the comparator skips over a backend exactly where its leading keys tie and the next meets its NaN |
| BackendOrder.LessIsStrictWeak | internal/routing/sort.go:13-44 | without NaN the multi-key comparator is a strict weak order |
| BackendOrder.MissingValuesLast | internal/routing/sort.go:24-26 | a backend without a value for a key comes after every backend with one, ascending or descending |
| BackendOrder.SortedByFirstKey | internal/routing/sort.go:9-45 | sorted backends ascend, or descend, by the first key, with missing values last |
| BackendOrder.BuiltInKeys | internal/routing/sort.go:53-69 | the keys host, port and weight read the backend's fields, as numbers or as text |
| BackendOrder.MetadataKeys | internal/routing/sort.go:70-78 | other keys read metadata, with the colon of label:, annotation: and counter: made a dot |
| RoutingTypes.NumTrichotomy | internal/routing/sort.go:28-33 | without NaN any two numbers stand in exactly one relation |
| RoutingTypes.NumPlaces | internal/routing/sort.go:28-33 | rationals keep their own order, between the infinities, and NaN stands in no relation |
| BackendOrder.SortedByPort | internal/routing/sort.go:9-45 | sorted by port, ports rise with "asc" or no order and fall with "desc" |
| BackendOrder.SortedByHost | internal/routing/sort.go:9-45 | sorted by host, hosts rise or fall in dictionary order, empty ones last |
| BackendOrder.StrictWeakIff | internal/routing/sort.go:13-44 | for any list of keys the comparator is a strict weak order exactly when no NaN breaks it |
| BackendOrder.NaNExample | internal/routing/sort.go:27-34 | sorting loads 2, NaN and 1 leaves 2 in front of 1 |
| Sorting.StableSortCorrect | internal/routing/sort.go:13-44 | under a strict weak order that sort is a permutation in stable order |
| Sorting.StableSortUnique | internal/routing/sort.go:13-44 | any other stable sort of the same slice gives the same result |
| Text.NormalizeIdempotent | internal/routing/validate.go:48-52 | for ASCII text, normalizing a setting twice is normalizing it once |
| Text.TrimSplits | internal/routing/validate.go:49 | trimming takes off spaces at both ends and nothing else |
| Text.StrLessIff | internal/routing/sort.go:36-41 | texts compare as in a dictionary |
| Text.LowerLetters | internal/routing/validate.go:49 | letters lose their case, and only letters change |
| Text.DecimalExample | internal/routing/discovery.go:67 | numbers are written in decimal, with a minus sign where negative |
| Filters.PassesAll | internal/routing/filters.go:18-24 | a backend is kept exactly when every filter matches it |
| Filters.CompareMeans | internal/routing/filters.go:35-59 | "compare" on two numbers is the comparison its operator names; with NaN only "neq" holds |
| Filters.CompareMissing | internal/routing/filters.go:36-42 | a missing value matches no comparison |
| Filters.WhitelistMeans | internal/routing/filters.go:60-95 | a whitelist that is off lets everybody pass; one that is on exactly the clients whose uuid, or username, it lists |
| Filters.StartMeans | internal/routing/filters.go:96-117 | a game start passes unless it lies in the past, in seconds below 10^10 and in milliseconds from there on |
| Filters.SplitExact | internal/routing/filters.go:140-145 | a list is taken apart at its commas, all of them |
| Filters.ListMeans | internal/routing/filters.go:123-147 | a list that is not JSON holds what stands between its commas, outer spaces aside |
| Filters.ApplyFilters | internal/routing/filters.go:10-30 | the backends that pass, in a new slice, so that sorting cannot touch the caller's |
| Filters.FilteredExact | internal/routing/filters.go:16-29 | exactly the backends that pass every filter are kept, each once, in the original order |
| Candidates.AddressKeyInjective | internal/routing/discovery.go:67 | host ":" port is the same text exactly for the same host and port, colons in hosts included |
| Candidates.DedupeBackends | internal/routing/discovery.go:63-75 | the loop with its set of seen keys computes the first-of-every-address list |
| Candidates.DedupeExact | internal/routing/discovery.go:63-75 | exactly the first backend of every address survives, in order |
| Candidates.DedupeIdempotent | internal/routing/discovery.go:63-75 | removing repeats twice is removing them once |
| Candidates.PreferMeans | internal/routing/discovery.go:37-42 | in mode "prefer" exactly the discovered addresses when there are any, whatever is configured; else the configured ones |
| Candidates.UnionMeans | internal/routing/discovery.go:31-61 | in union mode every discovered and every configured address, once; a configured backend survives exactly where discovery found nothing, behind all discovered ones |
| Candidates.OtherModesFail | internal/routing/discovery.go:45-47 | any other mode is an error |
| Candidates.ResolveCandidates | internal/routing/discovery.go:10-61 | candidates, or the error, of every merge mode; weights are defaulted in a new slice, never in the configured or discovered one |
| Weighted.PickIffInStretch | internal/routing/engine.go:185-196 | a draw picks an index exactly when it falls into that index's stretch of [0, total); the final fall-through is not reached |
| Weighted.DrawsAreStretch | internal/routing/engine.go:170-196 | as many draws pick an index as its effective weight says |
| Weighted.ExactOddsIff | internal/routing/engine.go:171-196 | with 64-bit arithmetic the odds are exact if and only if the weights add up to less than 2^63 |
| Weighted.OverflowExample | internal/routing/engine.go:171-181 | two weights of 2^62 wrap to a negative total |
| RoundRobin.WindowBalanced | internal/routing/engine.go:162-164 | over any window without wrap-around every index is picked floor(m/n) or ceil(m/n) times |
| RoundRobin.AlwaysBalancedIff | internal/routing/engine.go:162-164 | every window, wrap-around included, is balanced exactly when the number of candidates divides 2^64 |
| RoundRobin.WrapUnbalanced | internal/routing/engine.go:162-164 | for any other number of candidates, a window across the wrap-around that is not balanced |
| RoundRobin.SeenConsecutive | internal/routing/engine.go:163 | under any interleaving of atomic increments one counter hands out consecutive values |
| RoundRobin.InterleavedBalance | internal/routing/engine.go:162-164 | under any interleaving, as long as its own counter does not wrap, one route's selections spread evenly over its candidates |
| Selection.FirstKeepingIsFirst | internal/routing/engine.go:74-94 | the deciding attempt is the first whose filters keep something |
| Selection.PipelineNonEmpty | internal/routing/engine.go:142-149 | sorting and limiting never empty what the filters kept |
| Selection.PipelineRefines | internal/routing/engine.go:141-155 | with no NaN among the backends kept, the candidates are the first limit elements of the stable sort, by any algorithm, of exactly the backends that pass |
| Selection.PipelineMembers | internal/routing/engine.go:141-155 | every candidate belongs to the pool and passes the attempt's filters |
| Selection.StrategyTexts | internal/routing/engine.go:161-258 | the five strategies by their texts |
| Selection.StrategyNormalized | internal/routing/validate.go:48-52 | case, dashes and outer spaces do not matter to a strategy |
| Selection.FallbackIsPool | internal/routing/engine.go:106-139 | a fallback selects as the pool would if the fallback's settings were the pool's own, setting by setting |
| Selection.WeightedOdds | internal/routing/engine.go:170-196 | as many draws pick a candidate as its own weight says, counting 1 for a weight that is not positive |
| Selection.PickedRoundRobin | internal/routing/engine.go:162-164 | round robin returns the counter's value modulo the number of candidates |
| Selection.PickedRandom | internal/routing/engine.go:165-169 | random returns the draw below the number of candidates |
| Selection.PickedWeighted | internal/routing/engine.go:170-196 | the weighted strategy returns the candidate into whose stretch of the total weight its draw falls |
| Selection.PickedLeast | internal/routing/engine.go:197-217 | least_loaded returns the first candidate with the least finite load, or 0 |
| Selection.LoadMeans | internal/routing/engine.go:204-208 | a load is the number under the key, infinite for a backend without one |
| Selection.PickedSampled | internal/routing/engine.go:218-256 | p2c draws min(sample or 2, n) distinct candidates and returns one that none of them undercuts |
| Selection.OnlyRoundRobinAdvances | internal/routing/engine.go:161-164 | a selection moves its counter by at most one, exactly when it succeeds by round robin |
| SamplingProofs.SampledOnEveryStreamIff | internal/routing/engine.go:223-256 | p2c picks a sampled candidate on every fair stream if and only if fewer candidates than it samples, the first not counted, lack a usable value |
| SamplingProofs.TooManyUnusable | internal/routing/engine.go:233-256 | where they do not, a fair stream on which p2c picks candidate 0 without sampling it |
| Selection.FullSampleIsLeastLoaded | internal/routing/engine.go:197-256 | when the sample covers all candidates p2c picks the same least value as least_loaded |
| Engine.CountingIsFair | internal/routing/types.go:114-120 | the fairness asked of the random stream can be met |
| Engine.FirstMatch | internal/routing/engine.go:15-18 | the first route with a matching hostname decides, and no earlier route matches |
| Engine.CanonicalHostOf | internal/routing/match.go:18-23 | outer spaces, one final dot and case make no difference to a host name |
| Engine.HostsMatchIff | internal/routing/match.go:25-38 | a pattern matches a server name exactly when both are the same name up to case, or its glob takes the name |
| Engine.NoHostNoMatch | internal/routing/match.go:27-29 | an empty pattern or server name matches nothing |
| Engine.AnyPatternMatches | internal/routing/engine.go:15-18 | a route matches by any of its patterns |
| Engine.StaticEngine.constructor | internal/routing/types.go:114-120 | a new engine has one zero counter per route |
| Engine.StaticEngine.NextCount | internal/routing/engine.go:163 | the counter's old value is returned, it grows by one modulo 2^64, and no other counter moves |
| Engine.StaticEngine.NextCounts | internal/routing/engine.go:163 | over any run of selections on any of the engine's counters, each counter hands out the values of the interleaving model |
| Engine.RunIsBalanced | internal/routing/engine.go:162-164 | what such a run takes from one of the engine's counters spreads evenly over the candidates, unless that counter wraps |
| Engine.StaticEngine.SelectWeighted | internal/routing/engine.go:170-196 | the two passes over the weights and one draw compute the specified pick, or the error for a total that is not positive |
| Engine.StaticEngine.SelectLeastLoaded | internal/routing/engine.go:202-217 | the first candidate with the least usable value, or 0 when none has one |
| Engine.StaticEngine.Sample | internal/routing/engine.go:233-252 | on a fair stream sampling ends with exactly the wanted number of distinct indexes, after no more draws than needed, and knows the least of them |
| Engine.StaticEngine.SelectSampled | internal/routing/engine.go:223-256 | the earliest drawn among min(sample or 2, n) distinct indexes with the least usable value, or 0 |
| Engine.StaticEngine.SelectIndex | internal/routing/engine.go:157-260 | index or error of each of the five strategies, with the exact movement of counter and random stream |
| Engine.StaticEngine.SelectWithConfig | internal/routing/engine.go:141-155 | filters, sorts and limits a copy, then selects; an attempt that keeps nothing moves nothing |
| Engine.StaticEngine.TryFallbacks | internal/routing/engine.go:83-94 | each fallback is merged onto the pool's own settings, not onto the fallback before it, and the first attempt that keeps something decides alone |
| Engine.StaticEngine.SelectCandidates | internal/routing/engine.go:69-95 | an empty backend list is an error at once; otherwise the first attempt that keeps something decides, the pool's own settings being the first, and earlier attempts leave no trace |
| Engine.StaticEngine.Decide | internal/routing/engine.go:12-67 | the first matching route decides on its own pool and counter, else the default pool; no configured or discovered backend and no other counter is modified |
| Engine.StaticEngine.DecideRun | internal/routing/engine.go:12-67 | in any sequence of decisions on any routes, each leaves all counters alone or takes the next value of its own route's counter and selects the candidate at that value modulo their number |
| Engine.DecisionsAreBalanced | internal/routing/engine.go:162-164 | over any run of decisions, of the candidates that one route selects by round robin each is selected floor(m/n) or ceil(m/n) times |
| Engine.DecisionAdvances | internal/routing/engine.go:162-164 | a decision moves its route's counter by at most one, exactly when it succeeds by round robin, base or fallback |
| Engine.DecisionIsCandidate | internal/routing/engine.go:27-38 | the decided backend is the selected candidate, belongs to the pool, and passes the deciding attempt's filters |
| Engine.StrategyReportedIff | internal/routing/engine.go:35 | a decision reports the strategy that decided exactly when the pool's own settings did, or a fallback that names no strategy or the pool's |
| PoolValidation.SelectionErrors | internal/routing/engine.go:157-260 | exactly when each selection error occurs |
| PoolValidation.RefusedFilterIsDead | internal/routing/validate.go:136-178 | a filter that validation refuses would match no backend, whitelists that are off aside |
| PoolValidation.AcceptedFilterLives | internal/routing/validate.go:155-173 | a whitelist or game-start filter that it accepts lets some backend pass |
| PoolValidation.ValidPoolResolves | internal/routing/validate.go:54-123 | a validated pool has backends of its own unless it asks discovery, and then in a known mode |
| PoolValidation.ValidWeightsAreOdds | internal/routing/validate.go:125-132 | in a validated weighted pool the configured weights are the odds |
| PoolValidation.RefusedIffBlanksKey | internal/routing/validate.go:180-193 | in a validated pool the attempts that will be refused are exactly the fallbacks that blank the key |
| PoolValidation.ValidPoolErrors | internal/routing/validate.go:54-133 | a validated pool fails with "no backends" exactly when every attempt filters all out; an empty key exactly when a key-blanking fallback decides |
| PoolValidation.OnlyNoBackends | internal/routing/validate.go:54-133 | without key-blanking fallbacks, and without weight overflow where the strategy is weighted, "no backends" is the only failure |
| PoolValidation.KeyBlankedExample | internal/routing/validate.go:180-193 | a validated pool whose selection fails although its fallback keeps a backend |
| PoolValidation.WeightOverflowExample | internal/routing/engine.go:171-181 | a validated weighted pool that never selects |
| PoolValidation.StrategyExample | internal/routing/engine.go:35 | a validated pool whose decision reports round robin although its fallback picked at random |
| VarInt.ReadVarInt | internal/server/hytale_codec.go:328-347 | the reading loop computes the value and size of the varint at a position, within five bytes |
| VarInt.RoundTrip32 | internal/server/hytale_codec.go:126-136 | every 32-bit value reads back with its exact size, whatever follows |
| VarInt.ReadEncoded | internal/server/hytale_codec.go:328-347 | wherever a 32-bit varint stands it reads back, in at most five bytes |
| VarInt.RoundTripsIff | internal/server/hytale_codec.go:126-136 | exactly which values the writer and the reader carry faithfully; the lengths that the router writes, all below 2^32, are among them |
| Codec.Buffer.WriteVarInt | internal/server/hytale_codec.go:126-136 | the writing loop appends the varint; a negative value appends nothing |
| Codec.Buffer.SetInt32LE | internal/server/hytale_codec.go:103-105 | the four bytes at the position read back as the value, and no other byte changes |
| Codec.Buffer.WriteVarString | internal/server/hytale_codec.go:114-124 | length and text are appended, or nothing when the text is too long |
| Codec.Buffer.WriteHostAddress | internal/server/hytale_codec.go:107-112 | port and host are appended |
| Codec.EncodeDisconnectPayload | internal/server/hytale_codec.go:32-45 | the Disconnect payload, or the error for a reason that is too long |
| Codec.DisconnectRoundTrip | internal/server/hytale_codec.go:32-45 | following the null bits gives back the reason |
| Codec.EncodeClientReferralPayload | internal/server/hytale_codec.go:47-101 | writing in place and patching the slots builds the referral layout, or gives the first error |
| Codec.VarStringRoundTrip | internal/server/hytale_codec.go:349-360 | a written string reads back with its exact size |
| Codec.HostAddressRoundTrip | internal/server/hytale_codec.go:362-372 | a written address reads back with its exact size |
| Codec.ReferralRoundTrip | internal/server/hytale_codec.go:47-101 | following null bits and offsets gives back host, port and data exactly |
| Codec.ReferralEncodesIff | internal/server/hytale_codec.go:47-57 | a referral can be encoded exactly for a host of 1 to 256 bytes and at most 4096 bytes of data |
| WireExamples.ReferralExample | internal/server/hytale_codec.go:47-101 | a referral byte by byte, with and without data |
| WireExamples.DisconnectExample | internal/server/hytale_codec.go:32-45 | a disconnect byte by byte, with and without a reason |
| WireExamples.VarIntExample | internal/server/hytale_codec.go:126-136 | a varint of two bytes |
| WireExamples.LittleEndian | internal/server/hytale_codec.go:103-112 | the low byte comes first, and -1 is all ones |
| WireExamples.FrameExample | internal/server/hytale_codec.go:16-30 | a frame byte by byte |
| Envelope.EncodeV1 | internal/referral/referral.go:57-96 | filling the buffer in place and signing the part written builds the specified envelope, or the error |
| Envelope.EncodedIff | internal/referral/referral.go:61-78 | encoding fails exactly when the whole exceeds 4096 bytes; the length field never truncates |
| Envelope.ParseEncoded | internal/referral/referral.go:98-147 | whatever is encoded parses back to content, key id, flags, raw and unsigned part, with any bytes behind it |
| Envelope.TrailingIgnored | internal/referral/referral.go:131 | bytes behind a complete envelope change nothing |
| Envelope.ParsedLayout | internal/referral/referral.go:125-146 | the raw bytes are the unsigned part followed by the code, and the unsigned part is the header its fields describe and the content |
| Envelope.VerifyIff | internal/referral/referral.go:149-164 | verification accepts exactly the signed envelopes whose code is the code of their unsigned part |
| Envelope.VerifyEncoded | internal/referral/referral.go:149-179 | with the secret, or a provider that knows it, content and key id are recovered |
| Envelope.ProviderIff | internal/referral/referral.go:166-179 | a receiver that looks secrets up accepts exactly what the holder of the secret for the key id accepts |
| Envelope.ReEncodeIff | internal/referral/referral.go:57-96 | encoding a verified envelope again restores its bytes exactly when its flags are 1 |
| WireExamples.EnvelopeExample | internal/referral/referral.go:57-96 | an envelope byte by byte, unsigned and signed |
| Envelope.ExtraFlagExample | internal/referral/referral.go:109-113 | an envelope with flags 3 that verifies and is not restored |
| Connect.ReadFixedASCII | internal/server/hytale_codec.go:316-326 | the text up to the first NUL, or nothing when the field does not fit |
| Connect.UUIDTextInjective | internal/server/hytale_codec.go:374-386 | the text form of a UUID (section 4 of RFC 9562) determines its sixteen bytes |
| WireExamples.UUIDExample | internal/server/hytale_codec.go:374-386 | two lower-case hex digits a byte, with dashes between the groups |
| ConnectProofs.DecodeV1Inverts | internal/server/hytale_codec.go:183-244 | decoding a layout-1 packet, its variable parts placed anywhere, gives back every field it carries |
| ConnectProofs.PackedCarriesV1 | internal/server/hytale_codec.go:183-244 | the encoding that packs the parts in table order carries what was sent, whatever follows |
| ConnectProofs.HexHashTakesV1 | internal/server/hytale_codec.go:157-160 | a layout-1 packet with a hexadecimal or NUL hash is always decoded as layout 1 |
| ConnectProofs.V1DecodedIff | internal/server/hytale_codec.go:157-165 | a layout-1 packet is decoded as what it carries exactly when it is recognised, or layout 2 cannot decode it or agrees; with a hash that is not empty it cannot agree |
| ConnectProofs.MistakenV1Example | internal/server/hytale_codec.go:157-165 | a layout-1 packet with the hash "g" that is taken for layout 2 |
| ConnectProofs.DecodeV2Inverts | internal/server/hytale_codec.go:246-314 | decoding a layout-2 packet, its variable parts placed anywhere, gives back every field it carries |
| ConnectProofs.PackedV2Decodes | internal/server/hytale_codec.go:157-165 | a layout-2 packet whose parts are packed in table order is always decoded as what was sent |
| ConnectProofs.V2DecodedIff | internal/server/hytale_codec.go:157-165 | a layout-2 packet is decoded as what it carries exactly when it is not taken for layout 1, or layout 1 agrees; with a version that is not empty it cannot agree |
| ConnectProofs.MistakenV2Example | internal/server/hytale_codec.go:157-160 | a layout-2 packet with the version "a" that is taken for layout 1 |
| ConnectProofs.AgreeingExample | internal/server/hytale_codec.go:157-165 | a packet that is taken for layout 1 and on which both layouts agree |
| ConnectProofs.NonHexTakesV2 | internal/server/hytale_codec.go:157-181 | any payload that layout 2 can decode is decoded as layout 2 if a byte of its version, or any of bytes 1 to 64, is neither hexadecimal nor NUL |
| ConnectProofs.DecodedBounds | internal/server/hytale_codec.go:183-314 | whatever a client sends, the decoded texts, the referral length and the source keep within their limits |
| Framing.SplitStable | internal/server/streams.go:92-112 | more bytes do not change how a header or a frame splits |
| Framing.SplitConserves | internal/server/streams.go:107-112 | a split takes off exactly the frame's own bytes |
| Framing.FrameRoundTrip | internal/server/hytale_codec.go:16-30 | a frame the router writes is the frame its reader splits off |
| Framing.WriteFramedPacket | internal/server/hytale_codec.go:16-30 | the loop over partial writes sends header and payload to the end or to the first failure |
| Framing.SendAppends | internal/server/hytale_codec.go:22-29 | success puts all bytes on the wire once and in order, failure a prefix of them |
| Streams.ReferralData | internal/server/streams.go:196-202 | building the envelope never fails after falling back to empty content |
| Streams.Drain | internal/server/streams.go:92-317 | the frame loop computes the specified run over the pending bytes |
| Streams.DumpFrames | internal/server/streams.go:77-339 | reading, appending and draining until the reader ends computes the specified run, chunk by chunk |
| StreamProofs.RunAppend | internal/server/streams.go:87-110 | a run over two pieces is a run over the first and then over what remained and the second |
| StreamProofs.ChunkingIndependent | internal/server/streams.go:87-110 | any two ways of splitting the same bytes into reads handle the same frames and write the same bytes |
| StreamProofs.RunDrains | internal/server/streams.go:92-110 | while the stream stays open less than 8 bytes plus 16 MiB are pending, and no whole frame |
| StreamProofs.RunConserves | internal/server/streams.go:316 | consumed frames followed by pending bytes are all the bytes received |
| StreamProofs.SentShape | internal/server/streams.go:150-313 | at most one referral, then at most one disconnect, nothing after it, and a disconnect after a referral only from a deny |
| StreamProofs.RunFaithful | internal/server/streams.go:193-313 | while writes succeed the wire holds exactly the logged packets, framed, in order |
| StreamProofs.PacketReadsBack | internal/server/streams.go:193-220 | each packet written unframes as packet 18 or 1 and reads back to its host, port and content, with the configured key id and a signature that the secret verifies, or to its reason |
| StreamProofs.EndToEnd | internal/server/streams.go:193-313 | on a stream whose writes succeed the client reads exactly the packets of the log from the wire |
| StreamProofs.FirstConnectAnswered | internal/server/streams.go:129-313 | exactly when the first Connect is answered: with a referral to the settled backend's host and port modulo 2^16, carrying the content where it fits 4096 bytes, or with the reason |
| StreamProofs.LoggedReferral | internal/server/streams.go:193-203 | a referral names the backend's own port whenever that is one, and the content unless it is too large |
| StreamProofs.UnwritableIsSilent | internal/server/streams.go:154-158 | on a stream that cannot be written nothing is sent |
| StreamProofs.FailedRoutingBackend | internal/server/streams.go:131-176 | after a routing error the backend is cleared when no plugin is asked; otherwise exactly when neither the last decision nor any answer leaves a host, and silent answers leave the stale decision's backend |
| StreamExamples.StaleReferralExample | internal/server/streams.go:131-220 | two Connects on one stream: the first referral fails, the second routing fails, and a referral to the first decision's backend goes out |
| StreamRouting.RunExplained | internal/server/streams.go:131-176 | in every run decision, error, backend and content are those that the answers of router and plugins to the Connects so far make them, both being asked about the client as its packet describes it |
| StreamRouting.StreamExplained | internal/server/streams.go:131-313 | a referral names the backend and carries the content left at some Connect; a disconnect gives the denying plugin's reason, or the reason of the last routing in the last Connect's language |
| StreamRouting.ValidBackendAnnounced | internal/routing/validate.go:28-46 | a referral to a backend that validation accepts announces exactly its host and port |
| Throttle.AgonesProvider.ReserveAllocateSlot | internal/discovery/agones.go:265-277 | the wait is never negative, and call time plus wait is the release time of the whole history of calls |
| Throttle.ReleaseClosedForm | internal/discovery/agones.go:265-277 | a release is the maximum over all calls up to it of clock reading plus the intervals since, for any clock |
| Throttle.FixedIntervalClosedForm | internal/discovery/agones.go:265-277 | with a fixed interval d, the maximum over j <= k of now_j + (k - j) * d |
| Throttle.ReleasesAreSpaced | internal/discovery/agones.go:265-277 | releases let no call through early and keep every interval asked for |
| Throttle.ReleasesAreTheLeastSpacing | internal/discovery/agones.go:265-277 | no schedule that does so releases any call earlier |
| Throttle.ReleasesApart | internal/discovery/agones.go:275 | releases i and j are at least (j - i) * d apart |
| Throttle.WindowBound | internal/discovery/agones.go:265-277 | any window of length L holds at most floor(L/d) + 1 releases |
| Alpn.CollectOffers | internal/server/tls.go:93-109 | the loop with its set of seen texts collects the distinct trimmed hytale/ offers |
| Alpn.SelectHytaleALPN | internal/server/tls.go:82-132 | collecting, sorting and listing compute the specified choice |
| Alpn.ItemLessTotal | internal/server/tls.go:114-125 | the comparator decides between any two distinct protocol texts |
| Alpn.NewestFirst | internal/server/tls.go:114-125 | versions never rise along the output, texts without one stand last, and equal versions stand in decreasing order of text |
| Alpn.VersionIsSuffix | internal/server/tls.go:134-147 | the version of "hytale/n" is n, for every n of 64 bits and no other |
| Alpn.AtoiRefuses | internal/server/tls.go:142-145 | text with anything but digits behind one sign is no version |
| Alpn.SelectionSorted | internal/server/tls.go:82-132 | the output strictly decreases in preference and holds exactly the distinct trimmed hytale/ offers (section 3.1 of RFC 7301 for the list itself) |
| Alpn.SelectionDependsOnSet | internal/server/tls.go:82-132 | no reordering or repetition of the offers changes the output |

## Left out

- QUIC listener, stream acceptance, connection close, `packetName` and all logging: plumbing without effect on the answers.
- TLS certificate loading and fingerprints; Kubernetes and Agones informers and the allocation call; gRPC and WASM plugin backends and their JSON: library and foreign calls.
- YAML and JSON configuration loading, `DecodeSecret`, and message texts with locales and templates: parsing and data; the disconnect reason is an arbitrary function of server name, language and routing error.
- `path.Match`, `ParseFloat`, `ParseInt` and JSON lists are arbitrary functions, so nothing is said about what they accept; the patterns of a route are the list `matchPatterns` returns.
- Text.NormalizeIdempotent: `TrimSpace` and `ToLower` are modelled for ASCII text only, because Unicode tables are library data.
- BackendOrder.ApplySort: float64 is NaN, the infinities and the rationals, so the rounding of ports and weights above 2^53 is not modelled; Go's library sorts, blocked and merged on long slices, are modelled by insertion sort, which agrees with them whenever the comparator is a strict weak order (Sorting.StableSortUnique) but need not when NaN breaks it.
- Engine.StaticEngine.Decide: one decision at a time, with the library functions and the clock fixed during it; concurrent decisions enter through the interleaved counters of RoundRobin.InterleavedBalance, while the draws that other goroutines take from the shared random generator in between are not modelled.
- Engine.StaticEngine.Intn: the quality of Go's random generator; draws are arbitrary, and fair where termination needs it.
- Engine.StaticEngine.SelectWithConfig: the filtered slice is an array that is sorted in place; the limited slice handed on is a value, and `mergeFallback`, which writes through a pointer to a copy, is a function on values.
- Codec.Buffer.WriteVarInt: the buffer is a byte sequence held in a field; `bytes.Buffer`'s growth is not modelled.
- Streams.Drain: the state updated by the loop is one record that the method reassigns; the answer to a Connect frame is a function on that record, with the two copies of the answering code in the source as one function with a flag for the case in which they differ.
- Streams.DumpFrames: reads may be longer than the source's 4096-byte buffer; closing the stream after a Disconnect and the kind of read error, which only affect logging and the peer, are left out.
- PluginStages.OrderIndexes: stages other than deny, route and mutate, which validation rejects, come last in an unspecified order, as map iteration leaves it; of a plugin's configuration only name, stage, before and after are modelled.
- PluginChain.ApplyOnConnect: the one-second timeout of a plugin call is one way for a call to fail; a missing manager is an empty chain.
- Throttle.AgonesProvider.ReserveAllocateSlot: times are unbounded integers, without the saturation of `time.Duration`, and calls are taken in the order the mutex admits them.
- Envelope.ParseEncoded: the version field of a parsed envelope, which is always 1, is not carried; HMAC comparison is equality, without its constant-time aspect.
- Connect.ReadFixedASCII: the decoders that only branch and call are functions; that they never read out of range is checked where they index, not stated as a lemma.
