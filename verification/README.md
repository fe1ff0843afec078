# A verified model of dnscrypt-proxy's core

This project models the parts of dnscrypt-proxy whose correctness cannot be read
off a single function, and proves what they promise.

- **Server pool** (`LoadBalancer`, `ServersInfo`, `RefreshProtocol`,
  `RefreshContents`). Certificates
  are refreshed by throttled workers while clients use, reorder and force updates
  of the same table. The table is a class whose methods are the source's critical
  sections; the workers, the two channels, the collecting goroutine, forced Oblivious
  DoH key updates and the load balancer form a step system over the same functions.
  A history of fetches and installs beside each run says what the pool must hold.
  The estimator's promotions are bounded by counting RTT inversions.
- **Concurrency and retries** (`ClientCounter`, `CertExchange`, `CertProvenance`,
  `QueryRecursion`).
  The compare-and-swap client counter, the racing certificate queries, and the
  mutual recursion between query processing and DNS64.
- **Name rules** (`DomainNames`, `PatternMatcher`, `NestedRules`,
  `BlocklistGenerator`). The
  reversed-suffix index against the plain meaning of rules, and the blocklist
  generator end to end with the matcher.
- **Response cache** (`ResponseCache`). Keys, lifetimes, served TTLs, and agreement
  with the last write under any eviction.
- **Wire** (`Slices`, `Padding`, `QuestionSize`, `QueryCrypto`, `Framing`). Padding,
  encrypted query sizes and layout, TCP length framing under any fragmentation.
- **Certificates and addresses** (`TxtRecords`, `Certificates`, `Dns64`).

`Common` and `Sums` hold shared vocabulary. `dafny verify dfyconfig.toml` checks
everything. The outside world enters as parameters: clocks, random draws, network
replies, signature checks, sealing and opening (bound only by "open undoes seal" and
the tag length), glob matching, the behaviour of other plugins, and the replacement
policy of the cache. A critical section under a lock is one step; every atomic load
and every compare-and-swap is a step of its own.

## Where the code and its documentation differ

- The rule file documentation (`dnscrypt-proxy/example-blocked-names.txt`) says that
  `example.com` matches every name in that zone. The matcher asks its index for the
  longest stored suffix only, so with `com` and `example.com` both stored it misses
  `xx.yexample.com` (`NestedRules.DocumentedZoneMissed`). The code is modelled as it is.
  `PatternMatcher.SuffixStageExactly` says what it decides for every name. Over all
  strings it agrees with the documentation if and only if no stored suffix lies in
  another's zone (`NestedRules.SuffixStageCorrectIffSubdomainFree`). Names in queries
  have bounded labels, and then nesting alone is not enough to go wrong: for any bounds
  on labels and names, `NestedRules.CorrectOnNamesIffNoGap` and
  `NestedRules.CorrectOnNamesIffNotExtendable` give the exact conditions on the rules.
  Lists made by the generator have no nested names at all.
- On the retry with the parent name the matcher reports the value of the first, not
  of the second match: `PatternMatcher.ValueBelongsToRuleIff`.

## Model

| member | source | states |
|---|---|---|
| LoadBalancer.GetCandidate | dnscrypt-proxy/serversInfo.go:73-121 | for every valid strategy, pool size and draw the candidate is an active server of the pool |
| LoadBalancer.ActiveGroup | dnscrypt-proxy/serversInfo.go:73-121 | the active group is two, n, half the pool but at least two, one or all servers, as far as there are that many |
| LoadBalancer.BranchMeaning | dnscrypt-proxy/serversInfo.go:282-310 | when the server in use has no RTT, when the candidate is faster, and when a slow candidate that rested for over a minute gets a new chance, each with "if and only if" |
| LoadBalancer.UnknownAdoptsCandidate | dnscrypt-proxy/serversInfo.go:283-287 | a server in use without an RTT takes over the candidate's, and nothing else moves |
| LoadBalancer.PoolStaysWithoutEstimator | dnscrypt-proxy/serversInfo.go:274-331 | with the estimator off, or all servers active, the pool stays as it is |
| LoadBalancer.UpdateKeepsIds | dnscrypt-proxy/serversInfo.go:274-318 | whatever branch is taken, an estimator update permutes the pool: the same servers are in it afterwards |
| LoadBalancer.GetOneKeepsIds | dnscrypt-proxy/serversInfo.go:320-336 | so does every `getOne`, for every strategy and every pair of random draws |
| LoadBalancer.PartialSortPutsSlowestLast | dnscrypt-proxy/serversInfo.go:288-317 | both branches that run the partial sort end with a slowest server in last place |
| LoadBalancer.RetryLowersOneRtt | dnscrypt-proxy/serversInfo.go:298-309 | the "new chance" branch lowers the candidate's RTT to 10/11 and changes no other server |
| LoadBalancer.ExchangeLosesInversions | dnscrypt-proxy/serversInfo.go:289-290 | exchanging any inverted pair, adjacent or not, lowers the number of RTT inversions |
| LoadBalancer.PromotionLosesInversions | dnscrypt-proxy/serversInfo.go:289-317 | the promotion branch, exchange and pass together, strictly lowers the number of inversions |
| LoadBalancer.PromotionSpeedsUpActive | dnscrypt-proxy/serversInfo.go:289-317 | a promotion lowers the total RTT of the active group by at least the difference of the two servers |
| LoadBalancer.PromotionsPayInversions | dnscrypt-proxy/serversInfo.go:274-336 | over a run that changes no RTT, promotions plus remaining inversions never exceed the initial inversions |
| LoadBalancer.PromotionsBounded | dnscrypt-proxy/serversInfo.go:274-336 | hence at most n(n-1)/2 promotions in such a run, for every strategy and all draws |
| LoadBalancer.QuiescentPoolIsSeparated | dnscrypt-proxy/serversInfo.go:281-310 | a pool no draw can improve has every active server at least as fast as every inactive one |
| ServersInfo.RegisterKeepsNames | dnscrypt-proxy/serversInfo.go:158-169 | registering keeps names distinct, forgets none and adds only its own |
| ServersInfo.RegisterInstalls | dnscrypt-proxy/serversInfo.go:158-169 | the new stamp is in the list afterwards and every registration of another name is untouched |
| ServersInfo.StableSortMeaning | dnscrypt-proxy/serversInfo.go:255-258 | the sort ending a round is a sorted permutation that keeps servers of equal RTT in order |
| ServersInfo.ServersInfo.RegisterServer | dnscrypt-proxy/serversInfo.go:158-169 | the locked loop replaces the first entry of that name or appends |
| ServersInfo.ServersInfo.ReplaceIfPresent | dnscrypt-proxy/serversInfo.go:203-212 | the first locked section replaces the entry of that name, and reports "new" exactly when there is none |
| ServersInfo.ServersInfo.AppendServer | dnscrypt-proxy/serversInfo.go:213-216 | the second locked section appends, whatever happened in between |
| ServersInfo.ServersInfo.EstimatorUpdate | dnscrypt-proxy/serversInfo.go:274-318 | in place, on the array, the update the lemmas above are about |
| ServersInfo.ServersInfo.PartialSort | dnscrypt-proxy/serversInfo.go:311-317 | the in-place loop is one left-to-right pass of adjacent exchanges |
| ServersInfo.ServersInfo.GetOne | dnscrypt-proxy/serversInfo.go:320-336 | none for an empty pool only; otherwise the server at the drawn position after the update |
| RefreshProtocol.RoundWorkerStep | dnscrypt-proxy/serversInfo.go:184-221 | a step of a round's worker keeps the table consistent and no other worker's pending append is invalidated, although test and append are separate |
| RefreshProtocol.ForcedWorkerStep | dnscrypt-proxy/proxy.go:795-805 | a forced key update always finds its server, so it only ever replaces |
| RefreshProtocol.PoolStep | dnscrypt-proxy/serversInfo.go:184-254 | every step of every participant keeps the pool invariant and loses no name |
| RefreshProtocol.NamesStayDistinct | dnscrypt-proxy/serversInfo.go:184-254 | in every interleaving over any number of rounds, names in the pool and names registered are pairwise distinct |
| RefreshContents.AdvanceReflects | dnscrypt-proxy/serversInfo.go:203-217 | a step of a refresh changes the pool exactly when it takes the replace branch or the append, and then by the fetched server |
| RefreshContents.PoolIsFunctional | dnscrypt-proxy/serversInfo.go:184-254 | in every interleaving the pool has exactly one entry per name ever installed, with the payload of the last install, and every install is what its caller's fetch returned |
| RefreshContents.RefreshInstallsWhatItFetched | dnscrypt-proxy/serversInfo.go:184-254 | at return each worker reported success iff its fetch gave a server, has then installed it, and the pool holds that payload under its name, or that of the last forced update installed later |
| RefreshProtocol.ForcedUpdateFindsRegistration | dnscrypt-proxy/proxy.go:795-805 | in every reachable state a server handed to a client has exactly one registration, so the forced update's loop finds it |
| RefreshProtocol.NoNameIsLost | dnscrypt-proxy/serversInfo.go:184-254 | a name in the pool at some point of a run is there at every later point |
| RefreshProtocol.SameNameTwiceDuplicates | dnscrypt-proxy/serversInfo.go:203-216 | without distinct registrations the gap between test and append does produce duplicates |
| RefreshProtocol.ChannelsNeverBlockWorkers | dnscrypt-proxy/serversInfo.go:231-243 | in every reachable state at most the configured number of workers runs, and no worker finds the error channel full or the token channel empty |
| RefreshProtocol.RoundNeverStuck | dnscrypt-proxy/serversInfo.go:231-251 | while a round is under way one of its own steps is enabled in every reachable state |
| RefreshProtocol.RoundEnds | dnscrypt-proxy/serversInfo.go:223-272 | a round over n servers takes at most 10n + 2 of its own steps in any interleaving |
| RefreshProtocol.RoundResult | dnscrypt-proxy/serversInfo.go:244-254 | at return every worker has reported, the live count is the number of successes, the error is nil iff one succeeded or there was no worker, and the names of successes are in the pool |
| RefreshContents.RoundCoversRegistrations | dnscrypt-proxy/serversInfo.go:223-254 | in terms of the servers registered when a round begins: at return exactly one caller of the round has fetched for each and nobody else, the live count is the number of those fetches that succeeded, and the error is nil iff one did or none was registered |
| RefreshProtocol.SpawnIsHeldBackOnlyByLimit | dnscrypt-proxy/serversInfo.go:231-234 | in every reachable state the next worker can start iff fewer than the configured number are running |
| RefreshProtocol.SurroundingsAreFree | dnscrypt-proxy/serversInfo.go:158-254 | fetches may end in any way, servers may be announced, handed out and reported on at any time, and a round may begin iff none is under way |
| RefreshProtocol.RegistrationsAreEntered | dnscrypt-proxy/serversInfo.go:158-169 | an announced registration, and the one a worker re-enters, are in the list afterwards, others untouched |
| RefreshProtocol.NoticeIsKept | dnscrypt-proxy/serversInfo.go:964-985 | what a client reports of a server is what the pool then holds, for that server only |
| RefreshProtocol.EveryActiveServerIsHandedOut | dnscrypt-proxy/serversInfo.go:320-336 | every active server can be the one handed to a client |
| RefreshProtocol.FinishSortsPool | dnscrypt-proxy/serversInfo.go:255-258 | the round's last step leaves the pool stably sorted by initial RTT |
| ClientCounter.StepKeepsInv | dnscrypt-proxy/proxy.go:622-642 | each load or compare-and-swap keeps the counter equal to the slots held, within the maximum and without 32-bit wrap |
| ClientCounter.CounterIsExact | dnscrypt-proxy/proxy.go:622-642 | in every interleaving the counter is the number of held slots, at most the maximum, and zero when all are gone; at most two per handler, given that a subquery starts none itself, which QueryRecursion.NestingIsBounded proves |
| ClientCounter.LoadsAreHonest | dnscrypt-proxy/proxy.go:622-642 | a decrement never finds zero; a load refuses an increment exactly when all slots are held |
| ClientCounter.OperationsEndProperly | dnscrypt-proxy/proxy.go:622-642 | in every run and for every step: an increment that ends is refused iff all slots are held at that moment and else takes exactly one; a decrement that ends gives back exactly one; other handlers are untouched |
| ClientCounter.AloneTwoStepsSuffice | dnscrypt-proxy/proxy.go:622-642 | left alone, taking a free slot or giving one back is done after one load and one swap |
| ClientCounter.HandlersAreFree | dnscrypt-proxy/proxy.go:403-448 | a handler may arrive, start a subquery, leave, load and swap whenever its own place allows |
| ClientCounter.RetriesAreLockFree | dnscrypt-proxy/proxy.go:622-642 | with n handlers, failed compare-and-swaps number at most n times the successful ones |
| QueryRecursion.ProcessFlat | dnscrypt-proxy/proxy.go:644-689 | processing any question but an Internet AAAA one, or any question cached-only, never nests and touches no slot |
| QueryRecursion.Dns64Disciplined | dnscrypt-proxy/plugin_dns64.go:76-117 | a DNS64 evaluation holds at most one extra slot, gives it back on every path and nests one level |
| QueryRecursion.NestingIsBounded | dnscrypt-proxy/plugins.go:355-373 | for every plugin list and environment, processing nests at most two deep, never holds more than one slot beyond the client's, and returns it; what is answered is in the rows below |
| QueryRecursion.CachedOnlyStaysLocal | dnscrypt-proxy/proxy.go:683-689 | a cached-only call never reaches DNS64 and returns only what a query plugin synthesized |
| QueryRecursion.SettledBeforeExchange | dnscrypt-proxy/proxy.go:654-689 | what a query gets that is settled before the exchange: nothing, or the synthesized response as it is |
| QueryRecursion.UnusableReplyReturned | dnscrypt-proxy/proxy.go:823-829 | a failed exchange gives nothing; a reply of illegal size or that does not parse is returned untouched |
| QueryRecursion.PluginsResultReturned | dnscrypt-proxy/plugins.go:353-382 | if all response plugins continue, the client gets the message the last one leaves, each being given the message of the one before; DNS64 rewrites it iff the question is an Internet AAAA one without AAAA answer, the subquery packs, gets a slot, and its response parses with code 0 and answers |
| QueryRecursion.FailureReturnsReply | dnscrypt-proxy/plugins.go:356-359 | if a plugin fails, DNS64 included, the client gets the upstream reply |
| QueryRecursion.StopReturnsMessage | dnscrypt-proxy/plugins.go:360-373 | if a plugin stops the others, the client gets the message it leaves |
| QueryRecursion.ChainExtends | dnscrypt-proxy/plugins.go:355-373 | one of these three always applies |
| CertExchange.ScanChooses | dnscrypt-proxy/dnsutils.go:366-380 | the best option is the first large success, else the earliest fastest small one, and none iff all failed |
| CertExchange.StepKeepsInv | dnscrypt-proxy/dnsutils.go:326-380 | every step accounts for every reply, and no cancellation is in flight while a result is awaited |
| CertExchange.RoundIsLive | dnscrypt-proxy/dnsutils.go:326-380 | in every interleaving no sender blocks, the cancel channel is closed at most once, and someone can move while a result is awaited |
| CertExchange.RoundChooses | dnscrypt-proxy/dnsutils.go:366-388 | a finished round holds that best option, or has heard every sender fail and holds a sender's own error, never a cancellation; CertProvenance says which sender |
| CertExchange.RoundEnds | dnscrypt-proxy/dnsutils.go:326-380 | a round takes at most 25 steps |
| CertExchange.Collect | dnscrypt-proxy/dnsutils.go:366-380 | the loop stops right after the first large success or hears everything, and ends with the best option and last error of what it heard |
| CertExchange.RunIsCollected | dnscrypt-proxy/dnsutils.go:326-380 | every finished run of the step system ends where that loop ends on the replies received |
| CertExchange.ExchangeOverRuns | dnscrypt-proxy/dnsutils.go:316-403 | over any two finished runs: the last round's promised reply, or a sender's own error after all failed; direct after a relay iff fallback is on and every relayed attempt failed; at most two rounds; CertProvenance ties replies to senders |
| CertExchange.LastErrorIsLast | dnscrypt-proxy/dnsutils.go:377-379 | the error kept is that of the last failed reply received |
| CertProvenance.SendersMix | dnscrypt-proxy/dnsutils.go:332-365 | three small senders, and three large ones when fragments are tried |
| CertProvenance.RepliesKeepTheirSender | dnscrypt-proxy/dnsutils.go:336-363 | in every run each reply received is what the exchange of one sender returned, marked with that sender's packet size, and no two are of one sender |
| CertProvenance.ResultTellsPacketSize | dnscrypt-proxy/dnsutils.go:366-388 | a large result means a large packet got through with that answer; a small one that a small packet did and the exchange of every large sender failed |
| CertProvenance.CancelStopsSleepers | dnscrypt-proxy/dnsutils.go:339-343 | once the cancel channel is closed, a sender still asleep never transmits |
| CertProvenance.SendersAreFree | dnscrypt-proxy/dnsutils.go:336-363 | senders may wake at any time and exchanges end in any way |
| CertExchange.DNSExchange | dnscrypt-proxy/dnsutils.go:316-403 | the loop computes the exchange ExchangeOverRuns is about, for all arrival orders of both rounds |
| DomainNames.StringReverse | dnscrypt-proxy/common.go:101-107 | exchanging from both ends reverses the string |
| DomainNames.ZoneIsReversedPrefix | dnscrypt-proxy/pattern_matcher.go:127-131 | being in a zone is having its reversal as a prefix that ends on a label boundary, both ways |
| PatternMatcher.IsGlobCandidate | dnscrypt-proxy/pattern_matcher.go:43-52 | true iff there is a `?`, a `[` or an inner `*` |
| PatternMatcher.PatternMatcher.Add | dnscrypt-proxy/pattern_matcher.go:54-116 | stores the rule the line stands for, by the notation of the rows below, or fails on a syntax error and stores nothing |
| PatternMatcher.StarNotation | dnscrypt-proxy/pattern_matcher.go:65-82 | for every plain s: stars on both sides mean a substring, a star behind a prefix, an equals sign in front an exact name, in lower case |
| PatternMatcher.DomainNotation | dnscrypt-proxy/pattern_matcher.go:83-89 | s alone or behind a dot, a star or both means the domain s and its subdomains |
| PatternMatcher.GlobNotation | dnscrypt-proxy/pattern_matcher.go:59-64 | a question mark, a bracket or an inner star makes a glob, stored iff well formed and of two characters |
| PatternMatcher.DegenerateNotation | dnscrypt-proxy/pattern_matcher.go:62-92 | a star, two stars and an equals sign alone fail; nothing and a dot are taken as the empty domain |
| PatternMatcher.CaseFolding | dnscrypt-proxy/pattern_matcher.go:94 | only capital letters change, each to its small letter |
| PatternMatcher.ReasonReadsBack | dnscrypt-proxy/pattern_matcher.go:123-156 | the reason for a rejection by a domain, prefix or substring rule parses to that rule again |
| PatternMatcher.StagesInOrder | dnscrypt-proxy/pattern_matcher.go:123-158 | exact names, domains, prefixes, substrings, globs, in this order |
| PatternMatcher.RepeatedRule | dnscrypt-proxy/pattern_matcher.go:95-114 | a prefix or suffix rule given twice keeps its first value, any other rule its last |
| PatternMatcher.PatternMatcher.Eval | dnscrypt-proxy/pattern_matcher.go:118-161 | rejects a name of at least two characters iff the suffix stage does or a stored rule of another kind matches it; the reason spells a stored matching rule of the earliest deciding kind, the longest prefix or the first substring or glob listed, with its value unless it is a suffix rule |
| PatternMatcher.PatternMatcher.EvalRest | dnscrypt-proxy/pattern_matcher.go:144-160 | once exact and suffix rules are silent, prefixes, substrings and globs decide in that order, each with its own value |
| PatternMatcher.PatternMatcher.EvalGlobs | dnscrypt-proxy/pattern_matcher.go:154-160 | the last stage rejects iff a stored glob matches |
| PatternMatcher.PatternMatcher.EvalSuffix | dnscrypt-proxy/pattern_matcher.go:127-142 | the reason is a stored zone of the name; the value is always the first lookup's |
| PatternMatcher.ValueBelongsToRuleIff | dnscrypt-proxy/pattern_matcher.go:128-137 | rule and value reported belong together iff the first lookup ended on a label boundary |
| PatternMatcher.RetryReportsForeignValue | dnscrypt-proxy/pattern_matcher.go:132-137 | with com and b.com stored, ab.com is rejected for com with the value of b.com |
| PatternMatcher.LoadStores | dnscrypt-proxy/pattern_matcher.go:95-114 | after loading a file with non-nil values the tables hold exactly the rules of its lines |
| PatternMatcher.SuffixStageExactly | dnscrypt-proxy/pattern_matcher.go:127-142 | the suffix stage rejects iff the longest stored letter-suffix of the name, or of its parent, is a zone of it |
| PatternMatcher.SuffixStageSound | dnscrypt-proxy/pattern_matcher.go:127-142 | a suffix rejection means the name is under a stored suffix |
| PatternMatcher.SuffixStageComplete | dnscrypt-proxy/pattern_matcher.go:127-142 | without nested suffixes every name under a stored suffix is rejected |
| NestedRules.NestedRulesMissAName | dnscrypt-proxy/pattern_matcher.go:127-142 | any two nested suffixes leave some string of the outer zone unblocked, possibly one with a very long label |
| NestedRules.SuffixStageCorrectIffSubdomainFree | dnscrypt-proxy/pattern_matcher.go:127-142 | over all strings, the suffix stage is the simple suffix rule iff no stored suffix is a subdomain of another |
| NestedRules.DocumentedZoneMissed | dnscrypt-proxy/pattern_matcher.go:127-142 | with com and example.com stored, xx.yexample.com is in the zone of com and is missed |
| NestedRules.GapMissesName | dnscrypt-proxy/pattern_matcher.go:127-142 | if o is nested in p and the longest rule ending wo is o, then every name lab.wo that is no rule is in p's zone and is missed, for short w and lab as well |
| NestedRules.MissedNameHasGap | dnscrypt-proxy/pattern_matcher.go:127-142 | conversely every missed name within given bounds contains such a lab.wo within the same bounds |
| NestedRules.CorrectOnNamesIffNoGap | dnscrypt-proxy/pattern_matcher.go:127-142 | for any bounds on labels and names, the suffix stage is right on all names within them iff the rules have no such gap within them |
| NestedRules.CorrectOnNamesIffNotExtendable | dnscrypt-proxy/pattern_matcher.go:127-142 | in terms of rules only, given a letter that is no rule's first label: iff every nested rule is too long to be extended or has all its one-letter extensions stored |
| NestedRules.FullLabelsAreHarmless | dnscrypt-proxy/pattern_matcher.go:127-142 | nested rules whose first labels are already of full length never cause a miss |
| PatternMatcher.MatcherMeaning | dnscrypt-proxy/pattern_matcher.go:54-161 | for a file without nested suffixes, rejection is exactly "some rule of the file matches", lines being read by the notation rows |
| BlocklistGenerator.HasSuffix | utils/generate-domains-blocklist/generate-domains-blocklist.py:170-177 | true iff a proper parent domain, or the empty string, is listed |
| BlocklistGenerator.CoveredByGlob | utils/generate-domains-blocklist/generate-domains-blocklist.py:158-167 | true iff the name is not itself a glob and some glob matches it |
| BlocklistGenerator.Categorize | utils/generate-domains-blocklist/generate-domains-blocklist.py:255-264 | the branch taken for a name, in terms of covering globs, listed parents and allowed parents |
| BlocklistGenerator.ProcessList | utils/generate-domains-blocklist/generate-domains-blocklist.py:253-264 | the names put out and the counters of one list, category by category |
| BlocklistGenerator.EveryNameAccounted | utils/generate-domains-blocklist/generate-domains-blocklist.py:253-264 | per list, names put out, ignored, covered and allowed add up to the list |
| BlocklistGenerator.CountsAreSizes | utils/generate-domains-blocklist/generate-domains-blocklist.py:253-264 | each counter is the number of names of the list in its category |
| BlocklistGenerator.GlobsCoverOthersOnly | utils/generate-domains-blocklist/generate-domains-blocklist.py:158-167 | a line that is a glob is never dropped as covered, a plain one some glob matches always is |
| BlocklistGenerator.ProcessLists | utils/generate-domains-blocklist/generate-domains-blocklist.py:246-264 | over all lists exactly the uncovered names without listed parent or allowed ancestor-or-self are put out, each once, in whatever order lists and sets are iterated |
| BlocklistGenerator.OutputSubdomainFree | utils/generate-domains-blocklist/generate-domains-blocklist.py:258-264 | no name put out is a subdomain of another |
| BlocklistGenerator.PlainNameIsSuffixRule | dnscrypt-proxy/pattern_matcher.go:83-89 | the matcher reads a plain host name as the suffix rule of that name |
| BlocklistGenerator.GeneratedListBlocks | dnscrypt-proxy/pattern_matcher.go:118-142 | end to end: with the generated list loaded, a name is rejected iff it or a parent was put out |
| BlocklistGenerator.ListedNameBlocked | utils/generate-domains-blocklist/generate-domains-blocklist.py:247-264 | a listed name stays blocked iff the highest listed domain above it is not allowed |
| BlocklistGenerator.NothingEscapes | utils/generate-domains-blocklist/generate-domains-blocklist.py:247-264 | every listed name without allowed ancestor-or-self stays blocked by the reduced list |
| ResponseCache.NormalizeRawQName | dnscrypt-proxy/dnsutils.go:110-116 | in place, ASCII capitals become small letters and nothing else changes |
| ResponseCache.ComputeCacheKey | dnscrypt-proxy/plugin_cache.go:27-44 | the bytes hashed into a key |
| ResponseCache.KeyIsInjective | dnscrypt-proxy/plugin_cache.go:27-44 | equal keys iff same type, class and DNSSEC flag and same name up to ASCII case |
| ResponseCache.CaseOnly | dnscrypt-proxy/dnsutils.go:110-116 | two bytes are one for a key iff equal or the two cases of one ASCII letter |
| ResponseCache.GetMinTTL | dnscrypt-proxy/dnsutils.go:147-181 | max(low, min(high, least TTL)) by response code, or the negative minimum, in nanoseconds without 64-bit overflow |
| ResponseCache.LifetimeMeaning | dnscrypt-proxy/dnsutils.go:147-181 | the lifetime lies within the positive limits for answers and the negative ones for name errors, is a record's TTL or a limit, and is the negative minimum otherwise |
| ResponseCache.UpdateErases | dnscrypt-proxy/plugin_cache.go:146-161 | rewriting TTLs erases an earlier rewrite, so records shared with the cache cannot be noticed |
| ResponseCache.ServedTtlIsAccurate | dnscrypt-proxy/dnsutils.go:205-213 | the 32-bit TTL does not wrap and is within half a second of the remaining lifetime |
| ResponseCache.ServedTtlNeverGrows | dnscrypt-proxy/dnsutils.go:205-213 | served TTLs of one entry never increase over time |
| ResponseCache.CachedResponses.Store | dnscrypt-proxy/plugin_cache.go:131-164 | writes success, NXDOMAIN and NOTAUTH answers that are not truncated, under any eviction, and rewrites the TTLs served |
| ResponseCache.CachedResponses.Fetch | dnscrypt-proxy/plugin_cache.go:70-105 | miss, stale or hit as the stored entry and the clock say |
| ResponseCache.CacheHoldsLastWrite | dnscrypt-proxy/plugin_cache.go:131-164 | after any writes and evictions what is held for a question is its most recent write |
| ResponseCache.HitIsLastWrite | dnscrypt-proxy/plugin_cache.go:70-105 | a hit is the most recent write for the question, unexpired, with only id, question, flags and TTLs changed, TTLs to the half second |
| ResponseCache.StaleIsLastWrite | dnscrypt-proxy/plugin_cache.go:87-97 | a stale offer is the most recent write for the question, past its expiration, under the query's id and question, with TTL 30 if served at once |
| ResponseCache.WriteThenRead | dnscrypt-proxy/plugin_cache.go:131-164 | an answer with code 0, 3 or 9 that is not truncated is found under its question right after the write, as a hit iff within its lifetime; any other leaves the cache alone |
| ResponseCache.WriterServesLifetime | dnscrypt-proxy/plugin_cache.go:146-161 | the answer written goes out with its full lifetime as TTL |
| ResponseCache.MissMeansEvicted | dnscrypt-proxy/plugin_cache.go:70-105 | a question that was written and is missed has been evicted since |
| ResponseCache.ExpiredIsOnlyStale | dnscrypt-proxy/plugin_cache.go:92-103 | hits iff unexpired; otherwise only a stale offer with TTLs of at most 30 |
| Padding.Pad | dnscrypt-proxy/crypto.go:25-31 | the padded packet, with the packet's own bytes untouched even when padding in its buffer |
| Padding.Unpad | dnscrypt-proxy/crypto.go:33-45 | scans back over zeros to the delimiter, with both error cases |
| Padding.PaddingLayout | dnscrypt-proxy/crypto.go:25-31 | the packet, one byte 0x80, and zeros |
| Padding.UnpadInvertsPad | dnscrypt-proxy/crypto.go:25-45 | unpadding succeeds with p on the padded forms of p and on nothing else |
| QuestionSize.QuestionSizeEstimator.BlindAdjust | dnscrypt-proxy/estimators.go:29-38 | doubles up to the maximum and keeps the minimum one of four sizes |
| QuestionSize.QuestionSizeEstimator.Adjust | dnscrypt-proxy/estimators.go:40-48 | halves when the average allows and keeps the minimum one of four sizes |
| QuestionSize.LargeResponsesKeepMinimum | dnscrypt-proxy/estimators.go:40-48 | any run of responses no smaller than half the minimum leaves the minimum alone |
| QuestionSize.SmallResponsesShrinkMinimum | dnscrypt-proxy/estimators.go:40-48 | responses of one size above 512 that keep arriving bring the minimum down until half of it is no more than that size |
| QuestionSize.TruncationsDouble | dnscrypt-proxy/estimators.go:29-38 | k truncated responses double the minimum k times, up to 4096, and restart the average there |
| QuestionSize.AverageMoves | dnscrypt-proxy/estimators.go:40-43 | the first sample sets the average, each further one moves it by 2/31 of the way |
| QuestionSize.MinimumOverRuns | dnscrypt-proxy/estimators.go:29-48 | in every run the minimum is 512, 1024, 2048 or 4096, and it is 512 iff no truncated response was seen |
| QueryCrypto.SizesAreExact | dnscrypt-proxy/crypto.go:101-120 | whatever the estimator and random pad, a packet fits iff at most 4027 bytes (1183 with fragments blocked over UDP), and padded lengths are multiples of 64 up to 4096, or 1252 |
| QueryCrypto.PaddingIsTight | dnscrypt-proxy/crypto.go:101-111 | the padded length is the least multiple of 64 above the question's size, which over UDP is at least the estimator's minimum, capped at 4096 |
| QueryCrypto.SpecialLengths | dnscrypt-proxy/crypto.go:112-116 | 1252 over UDP for servers that block fragments, 4096 over TCP for relayed ones |
| QueryCrypto.NonceLayout | dnscrypt-proxy/crypto.go:80-84 | the client's twelve bytes and twelve zeros |
| QueryCrypto.ServerMagicSpelled | dnscrypt-proxy/common.go:35 | the eight letters that open a response |
| QueryCrypto.ComputePaddedLength | dnscrypt-proxy/crypto.go:101-116 | the size branches compute that length |
| QueryCrypto.LayoutOpens | dnscrypt-proxy/crypto.go:121-131 | undoing layout, sealing and padding yields the packet, and the query is exactly as long as computed |
| QueryCrypto.Encrypt | dnscrypt-proxy/crypto.go:75-132 | fails iff the packet is over capacity, else has the padded length and opens to the packet, whose own bytes are unchanged |
| QueryCrypto.EncryptWithFallback | dnscrypt-proxy/proxy.go:693-703 | with the TCP fallback only packets over 4027 bytes fail, and the second attempt sees the same packet |
| QueryCrypto.Decrypt | dnscrypt-proxy/crypto.go:134-172 | returns a packet iff size, prefix, nonce, tag and padding say so, for that packet only; each error iff its check is the first to fail |
| QueryCrypto.DecryptInvertsRespond | dnscrypt-proxy/crypto.go:134-172 | a resolver's response decrypts to its packet iff the packet has 17 bytes and its padded form at most 4096 |
| Framing.MoveUp | dnscrypt-proxy/common.go:57-58 | the overlapping copy moves the packet up by two bytes intact |
| Framing.PrefixWithSize | dnscrypt-proxy/common.go:52-61 | length and packet, in the packet's buffer; fails iff over 65535 bytes |
| Framing.ReadPrefixed | dnscrypt-proxy/common.go:63-85 | the result is a function of the bytes that arrive before any failure, for every split into reads and whatever arrives with the failure; each read has room and makes progress |
| Framing.UnframePrefixed | dnscrypt-proxy/common.go:52-85 | reading a framed packet followed by anything gives it back iff it has 17 to 4095 bytes |
| Framing.UnframeErrors | dnscrypt-proxy/common.go:66-84 | other lengths are refused as too large or too short, and an end inside a framed packet is reported as closed |
| TxtRecords.PackTXTRR | dnscrypt-proxy/dnsutils.go:279-306 | the skipping loop is the recursive unescaper |
| TxtRecords.DigitsRoundTrip | dnscrypt-proxy/dnsutils.go:275-277 | the wrapping byte arithmetic on three digits is exact for every byte |
| TxtRecords.UnescapeEscape | dnscrypt-proxy/dnsutils.go:279-306 | unescaping undoes the escaper for all byte strings, whatever follows |
| TxtRecords.OtherEscapes | dnscrypt-proxy/dnsutils.go:283-303 | escaped t, r and n are control characters, other non-digits themselves, and a final backslash is dropped |
| TxtRecords.JoinedRoundTrip | dnscrypt-proxy/dnscrypt_certs.go:79-86 | joining separately escaped strings and unescaping gives the concatenation of the originals |
| Certificates.Examine | dnscrypt-proxy/dnscrypt_certs.go:78-152 | the chain of checks accepts exactly the usable certificates |
| Certificates.SelectCertificate | dnscrypt-proxy/dnscrypt_certs.go:74-188 | fails iff no answer is usable; key, magic and construction are those of the last maximum by serial, then construction |
| Certificates.Preference | dnscrypt-proxy/dnscrypt_certs.go:154-164 | the higher serial is preferred, and XChaCha20 to XSalsa20 between equal ones |
| Certificates.IssuedCertificateRead | dnscrypt-proxy/dnscrypt_certs.go:86-171 | a certificate assembled from its fields is a candidate iff version, signature and dates allow, and then yields exactly the serial, key, magic and construction issued |
| Certificates.OrderDoesNotMatter | dnscrypt-proxy/dnscrypt_certs.go:154-166 | reordering the answers changes neither success nor the chosen serial and construction |
| Certificates.SplitCertificateReassembled | dnscrypt-proxy/dnscrypt_certs.go:84-86 | a certificate split over several TXT strings is reassembled exactly |
| Dns64.TranslateToIPv6 | dnscrypt-proxy/plugin_dns64.go:176-188 | the four bytes are embedded around byte 8 and no other byte of the prefix address changes |
| Dns64.EmbeddingIsUnique | dnscrypt-proxy/plugin_dns64.go:176-188 | prefix and IPv4 address determine the embedded address |
| Dns64.EmbeddingLayout | dnscrypt-proxy/plugin_dns64.go:176-188 | for every standard prefix the prefix is kept, byte 8 is zero up to 64 bits, the rest is zero, and the address can be extracted |
| Dns64.DiscoveryIsSound | dnscrypt-proxy/plugin_dns64.go:206-230 | a discovered prefix is standard, is a prefix of the address, and a well-known address sits behind it |
| Dns64.DiscoveryInvertsEmbedding | dnscrypt-proxy/plugin_dns64.go:206-230 | embedding a well-known address behind any standard prefix and running the cascade returns exactly that prefix |
| Dns64.FetchPref64 | dnscrypt-proxy/plugin_dns64.go:204-248 | fails iff no answer yields a prefix, else installs each discovered prefix once |
| Dns64.DistinctKeepsOrder | dnscrypt-proxy/plugin_dns64.go:231-235 | different prefixes stay in the order of the answers |
| Dns64.AllPrefixesDiscovered | dnscrypt-proxy/plugin_dns64.go:204-248 | answers embedding well-known addresses yield exactly their prefixes |

## Left out

- Sockets, TLS, HTTP, listeners' set-up, configuration loading, logging and operating-system services.
- Cryptographic primitives, key agreement, hashing (taken to be injective on its input) and Oblivious DoH message formats.
- The prefix tree, the SIEVE cache and the DNS message packer, which appear through what they promise (longest stored prefix, map with evictions, record lists).
- `findFarthestRoute` and relay selection: the farthest relay is not what its candidate list yields.
- The other plugins (IP rules, forwarding, cloaking, captive portals, client subnets, payload size): each is a short branch on one message, independent of the protocols modelled here.
- NestedRules.CorrectOnNamesIffNotExtendable: assumes a letter that no rule has as its first label; NestedRules.CorrectOnNamesIffNoGap does without.
- RefreshContents.RefreshInstallsWhatItFetched: one number per server stands for its keys, magic and addresses.
- RefreshProtocol.ForcedWorkerStep: the forced update reads the registration list without the lock; the model reads it in one step.
- RefreshProtocol.RoundEnds: a fetch is one step, so its own timeouts and retries are not modelled; a fetch that answers for another name ends the process and has no step.
- ServersInfo.ServersInfo.GetOne: servers are values, so the RTT of a server object that has just been replaced in the table is not tracked.
- LoadBalancer.UpdateKeepsIds: RTTs are real numbers, so floating-point rounding is not modelled.
- ClientCounter.CounterIsExact: that a subquery starts no subquery is a rule of its steps; QueryRecursion.NestingIsBounded proves it of the code, and the two are not composed.
- QueryRecursion.NestingIsBounded: queries that do not parse into exactly one question are not modelled, nor is what DNS64 puts into its answer.
- PatternMatcher.PatternMatcher.Add: strings are sequences of ASCII characters; lower-casing and indexing of other scripts are not modelled, nor is the message about an empty pattern, which is stored all the same.
- BlocklistGenerator.ProcessLists: parsing of the lists and the sorting of each list before printing are not modelled; the contract does not depend on order.
- BlocklistGenerator.GeneratedListBlocks: plain names without globs and without time restrictions only, since covering globs do absorb parents of other names.
- ResponseCache.HitIsLastWrite: fresh relative to the write to the cache; a stale answer served after a failed exchange may be written again.
- ResponseCache.CachedResponses.Store: a message without a question is outside its precondition, where the source indexes an empty list; records are values, and that the cached message shares them with the served one is covered by ResponseCache.UpdateErases only.
- QueryCrypto.SizesAreExact: clearing the low six bits is modelled as subtracting the remainder modulo 64.
- QuestionSize.QuestionSizeEstimator.Adjust: the moving average is a real number, so floating-point rounding is not modelled.
- Certificates.SelectCertificate: the forward-security flag is not modelled; it is set before the date and serial checks.
- Dns64.TranslateToIPv6: prefixes over 103 bits are outside its precondition, where the source indexes past the address.
