# Transparent Gateway: a verified model

This project models the parts of Transparent Gateway whose correctness depends on
order, interleaving or arithmetic, and proves what they promise. It has five components.

**The transactional updater** (`UpdateProtocol`, `UpdateExactness`, `UpdateRecovery`, `UpdateEndings`,
`UpdateHost`).
`tgctl.py update` is a write-ahead journal protocol over Git HEAD, `images.json`,
`transaction.json`, Docker tags and the running containers. `UpdateProtocol` is a state
machine with one event per statement of `update` and `restore`; each statement may take
effect and return, take effect and raise, raise without effect, or be the last thing its
process does. Failed or interrupted `compose` commands leave any mix of containers. Other
processes contending for the lock, boots that start the unit with or without success, and
rebuilt release tags are events too.
`UpdateHost` is the code itself: a class whose mutable fields are the files, tags and
containers, with `update` and `restore` as straight-line code that leaves at the first
exception. What happens to the n-th event of a host's history is a given function of n that no
statement can choose. Every statement is proved to be one protocol event, so the theorems about
runs hold of every sequence of calls, and every call leaves exactly the state the protocol leads
to. `UpdateEndings` computes from the world found and from what happens to each statement what
the command line reports.

**The snapshot pipeline** (`Pipeline`, `PipelineTheorems`, `Readiness`, `ReadyRun`, `Storage`).
Fetcher, validator and ranker publish to one Redis store that the relay and the readiness
gate read, with no locks between them. The loops inside one cycle are methods; the
interleaving of store accesses, crashes and clock ticks is a state machine with a log of
everything published. `Readiness` models `assess` and `check` and proves them sound while
the pipeline keeps moving; `ReadyRun` is a run after which the gate accepts.

**Ranking and selection** (`Ranking`, `RankingTheorems`, `Selection`). The greedy loop with
incremental counters is proved equal to a function that recounts the whole prefix, that
function is proved to meet a specification that mentions no loop, and the specification is
proved to have exactly one answer. The capped selection is proved optimal.

**The egress relay** (`Relay`, `Failover`, `Fairness`). `Pool` is a class; `choose` and
`record_result` hold one lock, so any interleaving of handlers is a sequence of these two
operations, kept as a ghost history. The failover loop runs with arbitrary operations of
other handlers between any two of its steps.

**Parsers and wire formats** (`Text`, `Candidate`, `Collection`, `Streams`, `Chunked`,
`Socks5`). Candidate normalisation and its snapshot forms, de-duplicated collection, the
chunked reader against section 7.1 of RFC 9112, and both SOCKS5 clients against sections 3
to 6 of RFC 1928 and section 2 of RFC 1929.

## Where the code falls short of its intent

- **A late raise in the updater.** If anything raises after the `complete` rename at
  `scripts/tg_update.py:334` has taken effect (the directory fsync, Ctrl-C, the print at line
  335), `restore` runs while the journal on disk already says `complete`. Once the previous
  commit is checked out, a crash leaves that journal in place and `--recover` refuses it.
  `LateRaiseHappens` shows such a run of every installation, `SafeExactlyWithoutLateRaise` that
  this is the only way out of the promise about HEAD, pins and journal.
- **Boots.** The unit runs `tgctl.py up --no-build` (`scripts/tgctl.py:360`). If its `compose up` fails, or
  there is no `images.json` yet and a build tag was rebuilt, other containers may run while no
  update is pending. `InstalledExactly` gives the exact condition under which the containers stay
  those of the settled version; `PinnedStartRestores` shows that the pins on disk always bring
  them back. The next update saves what it then finds running (`SwitchSavesWhatRan`).
- **Blank SOCKS5 credentials in the relay.** The probe refuses them, the relay sends them, and
  the grammar of RFC 1929 does not contain them. `ServerUnderstandsClient` gives the exact condition.
- **DNS preference.** `README.md:161` of the repository says upstreams that carried DNS over TCP are preferred. The
  sort only orders the ring and the index rotates over all of it. `DnsPreferenceIsPositional`
  gives the exact condition, `CapableIsNotAlwaysPreferred` an instance.
- **Hosts with both a colon and a closing bracket** (an IPv6 scope id can contain one): the
  endpoint printed for them is refused when read back, and so is the snapshot form, which contains
  it. `RoundTrip` gives the exact condition.

## Modelling choices

Scores are reals, so floating-point rounding is not modelled; `round(_, 6)` is half-to-even on
reals. JSON encoding is the identity on datatypes. The store never loses or rolls back data and
there is one validator and one ranker, as in the deployment; uuid4 keys are fresh. Subprocess, Docker, systemd and Git
are actions with a success effect and a failure effect; stopping leaves any mix of containers even
when it returns; `git checkout` and the rename in
`atomic_json` are atomic. The image search in `container_image` and the image builds in
`candidate` are represented by the image ids they yield. Operators are assumed to do what
`README.md:340-343` of the repository asks: they do not delete retained tags, check out another
commit, bypass the pins by hand between updates or start the unit while an update holds the lock. In the updater `settled` is bookkeeping:
the version that the last `complete` or `rolled_back` journal put in place, or the initial
installation; a first rollback adds an `images.json` that pins the same images. Writing the
`switching` journal takes over the images and volumes found running, which changes nothing
unless a boot changed them before. The pipeline's candidates are taken to be the fetcher's raw
entries, which `RoundTrip` justifies for bracketable hosts.

## Model

| member | source | states |
|---|---|---|
| UpdateProtocol.EveryRunIsSafe | scripts/tg_update.py:242-352 | In every state of every run of updates, failures, crashes, recoveries, failing and unpinned boots and tag rebuilds without a late raise: unless the journal on disk says `switching`, HEAD and `images.json` are those of the last settled version and `images.json` pins exactly its images; while it does, it holds the commit, pins and volumes to go back to; `complete` means the target is checked out, `rolled_back` the version recorded before |
| UpdateProtocol.PinsNeverMove | scripts/tg_update.py:157-165 | Over any run, late raises included, no retained tag moves: pins that resolved to recorded image ids keep resolving to them, even if release tags are rebuilt |
| UpdateExactness.SafeExactlyWithoutLateRaise | scripts/tg_update.py:333-343 | From any good state, every continuation after an event stays safe if and only if the event is not a raise after the `complete` rename took effect |
| UpdateExactness.LateRaiseBreaks | scripts/tg_update.py:334-339 | From any good state: a late raise, then `restore` up to the checkout, leaves `complete` on disk with the previous commit checked out |
| UpdateExactness.LateRaiseHappens | scripts/tg_update.py:334-339 | Every installation has, for every target commit, a run of the system from its initial state that raises late and breaks the promise |
| UpdateExactness.UpdateCanFinish | scripts/tg_update.py:242-335 | From every good state with the lock free and no switch pending, some update to any other commit, with any images for the same services, ends `complete` with exactly that version installed on the same volumes |
| UpdateExactness.EveryRunKeepsContainers | scripts/tg_update.py:242-352 | In every such run whose boots keep the volumes and either start the pins or leave the images alone, container images and volumes are those of the settled version, too, unless the journal says `switching` |
| UpdateExactness.InstalledExactly | scripts/tgctl.py:295-302 | The exact condition: after an event every such continuation keeps HEAD, pins, images and volumes settled if and only if the event is neither a late raise nor, outside a switch, a boot that changes volumes or, failing or without `images.json`, images |
| UpdateExactness.PinnedStartRestores | scripts/tgctl.py:295-302 | Whatever failed or unpinned boots came before, a successful start from `images.json` brings exactly the settled images back |
| UpdateExactness.SwitchSavesWhatRan | scripts/tg_update.py:313-316 | The switching journal saves the commit, images and volumes really running when it is written |
| UpdateRecovery.SwitchingFreezesJournal | scripts/tg_update.py:269-276 | As long as the journal says `switching`, any number of failed or killed attempts leave its saved values on disk |
| UpdateRecovery.RestoreConverges | scripts/tg_update.py:179-196 | From any good interrupted state, the event that first ends the switch either completes the update or puts back exactly the commit, pins, images and volumes the journal saved, whatever attempts came before |
| UpdateRecovery.OnlyRecoverEndsSwitching | scripts/tg_update.py:269-278 | Once interrupted, any run without `--recover` leaves HEAD, pins and journal as they are, and no update gets past reading the journal |
| UpdateRecovery.RecoveryIsAlwaysPossible | scripts/tg_update.py:179-196 | From every good interrupted state with the lock free, some run that starts with `--recover` ends with the journal rolled back and exactly the saved commit, pins, images and volumes installed |
| UpdateEndings.EveryCommandEndsAsExpected | scripts/tg_update.py:242-352 | How every command line ends, from the faults alone: with the first statement that does not go on at m, a death is reported as killed, an unchanged target as unchanged, a raise before the switching journal is on disk as failed; from then on a raise, the late one too, runs `restore`, which reports the previous version back if all its statements return with the saved volumes; without such a statement the update is reported done, and a pending switch with `--recover` is reported recovered if its restore returns |
| UpdateEndings.FailuresHaveCauses | scripts/tg_update.py:336-343 | A command line is reported killed only if a statement died, and failed without the previous version back only if the flag does not fit the journal or a statement raised or found other services or volumes |
| UpdateHost.RecordedStatesAreSafe | scripts/tg_update.py:242-352 | Every state a host passes through under any sequence of calls is safe unless a late raise was among the events |
| UpdateHost.Host.TagEach | scripts/tg_update.py:161-164 | The tagging loop adds exactly the content-addressed tags of the services reached |
| UpdateHost.Host.PinImages | scripts/tg_update.py:157-165 | Pinning is one protocol event: all tags on return, some on failure, nothing else changes |
| UpdateHost.Host.RunComposeUp | scripts/tg_update.py:187-189 | `compose up` runs the pinned images when it returns and leaves any mix when it does not |
| UpdateHost.Host.Up | scripts/tgctl.py:295-302 | A start of the unit is one protocol event: it touches only containers, and runs what `images.json` pins when it succeeds and the file is there |
| UpdateHost.Host.Restore | scripts/tg_update.py:179-196 | `restore` returns only with commit, pins and volumes of the journal in place, the pinned images running and `rolled_back` on disk; otherwise the journal is untouched or already rolled back |
| UpdateHost.Host.InspectAndRetain | scripts/tg_update.py:279-295 | Until the old images are retained only tags change; an unchanged target changes nothing at all |
| UpdateHost.Host.BeginSwitch | scripts/tg_update.py:301-317 | Only the journal is written, and `switched` is set only when that write returned |
| UpdateHost.Host.Switch | scripts/tg_update.py:318-334 | After `switched`, a return means the target is checked out and its pinned images run on the same volumes with `complete` on disk, a raise leads into `restore` with the saved journal |
| UpdateHost.Host.Update | scripts/tg_update.py:242-352 | The state left is exactly the one that running the statements as fate has it leads to, and the report is the one expected of the world found and of what happens to each statement; unchanged means nothing changed, updated that the pins of another commit run on the same volumes, recovered that the version the journal saved is back, failed-and-restored that commit, pins, images and volumes found at the start are back. Without `--recover` a switching journal blocks every change |
| Ranking.BaseScore | validator/ranking.py:9-14 | Base scores lie in (2, 520] |
| Ranking.SelectMax | validator/ranking.py:57-70 | `max` over keys computed from the running counters picks the first greatest key under penalties recounted over the whole prefix |
| Ranking.BestIsFirstMaximum | validator/ranking.py:70 | The picked entry's key is greatest, and strictly greater than every earlier one |
| Ranking.RemoveDeletesThePick | validator/ranking.py:71 | Removing by value deletes exactly the picked position |
| Ranking.RankEntries | validator/ranking.py:38-84 | The loop returns the ranking of the eligible entries with recounted penalties, or ValueError on a bad reserve size or penalty |
| RankingTheorems.RankIsGreedy | validator/ranking.py:51-84 | The ranking meets a loop-free specification: right length, input conserved as a multiset up to the score fields, each pick greatest among everything not picked before it |
| RankingTheorems.PublishedScores | validator/ranking.py:9-14 | Each published `base_score` is within half a millionth of 1000/(1 + latency) + 2 * streak, clamped as the source clamps, and each `score` within half a millionth of that divided by the diversity divisor, whose repetitions are counted as sets of earlier positions |
| RankingTheorems.PicksInNumbers | validator/ranking.py:57-70 | Of everything still waiting the pick has the greatest quotient of base score and divisor, then the greatest base score, then the last address, in these same numbers |
| RankingTheorems.AsnIsVerified | validator/ranking.py:31-36 | An entry counts as unknown exactly when its ASN is missing, not `verified` or blank, and two share an ASN exactly when both are verified and equal up to case and white space |
| RankingTheorems.GreedyRankingUnique | validator/ranking.py:56-82 | With distinct addresses the specification has one answer, depending only on the input as a multiset |
| RankingTheorems.OrderIndependent | validator/ranking.py:38-84 | Any permutation of a snapshot without repeated addresses is ranked identically, scores included |
| RankingTheorems.LargerReserveAppends | validator/ranking.py:56 | A larger reserve size only appends |
| RankingTheorems.ScoresDescend | validator/ranking.py:57-75 | Published scores never increase along the list and are never negative |
| RankingTheorems.SameGroupDescends | validator/ranking.py:57-70 | Entries sharing ASN key and subnet key appear in descending (base score, address) order |
| RankingTheorems.DiversityBound | validator/ranking.py:57-82 | While a candidate with an unused verified ASN and unused subnet waits, a pick that is the k-th of its ASN and m-th of its subnet has at least k + m - 1 times its base score, an unknown-ASN pick at least the penalty times it |
| RankingTheorems.RepetitionIsBounded | validator/ranking.py:57-82 | While such a candidate waits no ASN and no subnet is picked for the 260th time |
| RankingTheorems.BaseScoreOrder | validator/ranking.py:9-14 | Lower latency and longer streaks, up to ten cycles, never lower the base score, and it is equal only when both are |
| Selection.SelectActiveEntries | validator/ranking.py:87-109 | ValueError on a bad size or ratio; otherwise the result takes from the front whatever keeps it within the pool size and its unknown entries within pool size times ratio, and no selection within both is larger or, over descending scores, totals more |
| Selection.ActiveIsBestPool | validator/ranking.py:98-109 | The same of the capped selection as a function: entry i is taken exactly when it still fits, stated in pool size and ratio only |
| Selection.ActiveWithinCaps | validator/ranking.py:98-109 | The pool is a sub-selection of the ranked list within both caps |
| Selection.ActiveIsOptimal | validator/ranking.py:98-109 | No sub-selection within the caps has a larger total score |
| Selection.ActiveSize | validator/ranking.py:98-109 | The pool has exactly min(pool, verified + min(unknown, limit)) entries |
| Selection.PublishedPoolIsOptimal | validator/ranker.py:35-46 | What a ranker cycle publishes as active is optimal over every legal selection from what it publishes as reserve |
| Selection.LargerReserveExtendsPool | validator/ranker.py:27-46 | Enlarging the reserve only appends to the active pool |
| Pipeline.ValidatorEntries | validator/validator.py:67-115 | Exactly the candidates whose probe succeeded are kept, in order, each with the exit, latency, network and subnet its probe observed, everything else its own, and one more than the streak of the last previous entry of its address, or 1 if there is none |
| Pipeline.HealthyAreKept | validator/validator.py:109-115 | The same of the function the run theorems use |
| Pipeline.RankerCycle | validator/ranker.py:21-71 | A cycle publishes the ranked and the selected entries with the validator's lineage copied unchanged, or fails with ValueError on a bad configuration |
| Pipeline.PublishedAsConfigured | validator/ranker.py:27-67 | The reserve ranks exactly the entries whose base score reaches the threshold, cut at the reserve size, and the active pool is the best of it for the configured pool size and ratio |
| PipelineTheorems.RankingKeepsIdentities | validator/ranker.py:35-67 | Active identities are reserve identities, and those are validated identities |
| PipelineTheorems.EveryRunHasLineage | validator/validator.py:108-127 | In every reachable state each published validator cycle names the raw snapshot it used and its true completion time, and every reserve and active snapshot holds its ranking and names the cycle, the validated and the raw snapshot behind it, whatever interleaves or crashes |
| PipelineTheorems.EveryRunCountsStreaks | validator/validator.py:67-115 | In every reachable state each published `success_streak` is the length of the unbroken run of published cycles ending there that contain the address, also when credentials share it |
| PipelineTheorems.EveryRunPublishesInOrder | validator/ranker.py:68-69 | In every reachable state gateway key, active and reserve never get ahead of each other in this order, each holds one whole snapshot of its ranking, and the relay has the first entries, as many as it asked for, of a published active snapshot |
| PipelineTheorems.ProbingContinuesRuns | validator/validator.py:67-115 | The previous snapshot's dictionary of streaks, last entry wins, is enough to continue every run |
| PipelineTheorems.RelayMovesForward | gateway/egress_relay.py:40-50 | Until it restarts, the active snapshot the relay's copy comes from never gets older |
| Readiness.Check | deploy/readiness.py:14-63 | The gate accepts exactly when each pool is non-empty and in time on its own clock and since the restart, everything `assess` must find holds, the source is in time, the gateway lists the same addresses in order and the echo came from an active exit, each in plain arithmetic; the two ages it reports are right to half a second |
| Readiness.AssessApproves | deploy/pool_health.py:5-33 | `assess` accepts exactly when pools, success marker, cycles and lineage are in time and every active entry is usable and in reserve and validated pools with the same credentials and exit; otherwise ValueError |
| Readiness.ReadinessIsSound | deploy/readiness.py:14-63 | If the gate accepts pools read one after the other, at any times, while workers move, one validator cycle that really completed within the limit published every active identity, from a raw snapshot within the combined limit, and after `since` if given; every active entry is usable and also in the reserve and validated pools as read, and the echo came from an exit of that cycle |
| Readiness.LastSuccessIsReal | deploy/pool_health.py:10-11 | The success marker of an accepting gate belongs to a published cycle that really completed within the limit with a healthy entry |
| Readiness.RerankingCannotRenew | deploy/pool_health.py:12-27 | Once every published cycle is older than the limit the gate accepts nothing, however recent the ranking |
| ReadyRun.GateCanPass | deploy/readiness.py:14-63 | From every fresh installation a run of fetch, validation, ranking and another validation ends where the gate accepts, with the ages 10 and 20 seconds |
| Storage.PublicationIsAtomic | validator/storage.py:28-33 | At every moment of a publication, readers of any key but the temporary one see what they would see if it were a single SET in the place of its RENAME, whatever commands other clients interleave, also on the same key |
| Storage.ActiveGoesFirst | validator/storage.py:36-38 | With other clients interleaving between any two commands, the gateway key shows a new snapshot only when the active key already does, and at the end both do |
| Storage.Redis.PublishSnapshot | validator/storage.py:28-33 | The code issues exactly these commands among those of other clients, cut short anywhere, so every moment is as atomicity says; it returns exactly when both took effect |
| Storage.Redis.PublishActiveSnapshot | validator/storage.py:36-38 | The two publications in order, cut short anywhere: at every moment the gateway key follows the active key |
| Relay.Pool.Candidates | gateway/egress_relay.py:62-69 | Filtering and the stable DNS sort yield the ring |
| Relay.Pool.Choose | gateway/egress_relay.py:37-74 | Refresh, pick at the rotating index, advance it only on a pick; the new state in full |
| Relay.Pool.RecordResult | gateway/egress_relay.py:76-86 | The new failures and capability sets in full |
| Failover.RingIsExact | gateway/egress_relay.py:62-69 | The ring is exactly the entries neither excluded nor cooling down for the port; the DNS sort is a permutation |
| Failover.RingKeepsOrder | gateway/egress_relay.py:62-69 | The ring is in published order; for DNS, first the upstreams known to be capable and then the others, both in that order |
| Failover.DnsPreferenceIsPositional | gateway/egress_relay.py:68-72 | A DNS request gets a known-capable upstream exactly when the index falls in the first part of the ring |
| Failover.CapableIsNotAlwaysPreferred | gateway/egress_relay.py:68-72 | After one request for port 80 to a new pool, a DNS request gets the other upstream although a known-capable one is eligible |
| Failover.TryUpstreams | gateway/egress_relay.py:216-236 | The pool's history afterwards is exactly the loop's own questions and outcomes among the operations of other handlers; each upstream tried was at its question the turn's element of the ring, an entry of the pool as it then was, not tried before, and its latest outcome on the port no failure younger than the cooldown; at most `attempts`, and when candidates run out every entry then in the pool was tried or is cooling down |
| Failover.Handle | gateway/egress_relay.py:210-246 | The statuses the client gets, in order: 200 exactly when the loop reached an upstream, followed by a 502 if the tunnel then breaks, and otherwise one 502; with everything the loop promises |
| Failover.CooldownIsExact | gateway/egress_relay.py:60-86 | Under any interleaving a key cools down for a port exactly while its latest outcome on that port is a failure younger than the cooldown |
| Failover.NeverChosenWhileCooling | gateway/egress_relay.py:62-74 | An upstream whose latest outcome on the port is a failure at t is not chosen for it before t + cooldown |
| Failover.PoolIsItsHistory | gateway/egress_relay.py:37-86 | In every reachable pool the entries are the first `size` of the latest list a refresh brought, refreshes are three seconds apart, the index counts the questions that had an eligible entry, and exactly the keys known from a DNS success or the latest published set are preferred |
| Fairness.RoundRobinIsFair | gateway/egress_relay.py:70-74 | With unchanged candidates, m consecutive choices from any index give each of n floor(m/n) or ceil(m/n) turns |
| Fairness.HandlersShareFairly | gateway/egress_relay.py:70-74 | The same in the history of a real pool, whichever handlers asked |
| Candidate.SplitInvertsEndpoint | validator/sources/base.py:22-25 | Splitting a printed endpoint gives back host and port, unless the host contains both a colon and a closing bracket, where it is a ValueError |
| Candidate.SplitsExactly | validator/sources/base.py:51-65 | Exactly the texts `[host]:port` without a further closing bracket and `host:port` with one colon split, into these parts; anything else is a ValueError |
| Candidate.ParsedIsCanonical | validator/sources/base.py:88-137 | Every parsed candidate has a normal host, a port in 1 to 65535, an allowed protocol, a trimmed source and no blank credential reference |
| Candidate.ParsedAgreesWithInput | validator/sources/base.py:91-137 | Every host and port form the input gives agrees with the parsed candidate, a conflict is refused, and the other fields are carried over |
| Candidate.ParseAccepts | validator/sources/base.py:88-137 | A candidate is accepted exactly when all given forms agree on a host that normalises and a port in 1 to 65535, the protocol is allowed, the source or its default and a given credential reference are not blank and metadata is a string map; otherwise ValueError |
| Candidate.TextPortParses | validator/sources/base.py:91-137 | A port printed as text parses to the same result as the number |
| Candidate.RoundTrip | validator/sources/base.py:31-34 | The host and port form of a parsed candidate always parses back to it, for any default source; the snapshot form and the endpoint form do if and only if its host does not contain both a colon and a closing bracket, and are refused otherwise |
| Candidate.AddressInjective | validator/sources/base.py:27-29 | For all parsed candidates `address` determines protocol, host and port |
| Text.DecimalParses | validator/sources/base.py:61-64 | `int` reads back every printed port |
| Collection.CollectAll | validator/sources/registry.py:68-80 | One entry per key among what the surviving connectors yielded, the last one yielded, in the order in which the keys were first yielded; a failing connector changes nothing |
| Collection.FirstYieldedAscends | validator/sources/registry.py:73-80 | That order is by the position of each key's first occurrence |
| Collection.CollectedIdentitiesAreUnique | validator/sources/registry.py:73-80 | No two collected entries share address and credential reference |
| Chunked.ReadChunked | validator/proxy_probe.py:99-114 | The loop returns and consumes what the chunk-by-chunk function says, with the same errors |
| Chunked.SpelledIsParsed | validator/proxy_probe.py:103-106 | Every string of hexadecimal digits, in any case and with leading zeros, is read as its place value |
| Chunked.BodyIsBounded | validator/proxy_probe.py:110-111 | No accepted body exceeds 256 KiB |
| Chunked.AcceptedIsChunked | validator/proxy_probe.py:99-114 | Whatever is accepted is chunks whose data is the body, each behind its size line and before a CRLF, then a size line of zero and everything up to the next CRLF |
| Chunked.FollowingBytesAreUntouched | validator/proxy_probe.py:99-114 | Bytes after an accepted body change nothing and are all left in the stream |
| Chunked.ReaderInvertsEncoding | validator/proxy_probe.py:99-114 | Every encoding of section 7.1 of RFC 9112, sizes written by place value in any case and with leading zeros, any segmentation and extensions, no trailers, decodes to its content and leaves exactly what follows if it fits in 256 KiB, and fails otherwise |
| Socks5.OpenTunnel | validator/proxy_probe.py:203-255 | The step-by-step client does on the wire what the conversation function says |
| Socks5.ServerUnderstandsClient | gateway/egress_relay.py:126-161 | After a successful handshake a conforming server reads back method, credentials and target and nothing more, if and only if the credentials are not blank, which the probe guarantees |
| Socks5.TunnelStartsAfterReply | validator/proxy_probe.py:244-255 | Against a server that accepts, with any bound address, the client gets through exactly when credentials and name may be sent, and the tunnel's first byte is left unread |
| Socks5.ReplyIsConsumed | gateway/egress_relay.py:150-161 | Exactly one section 6 reply is consumed; any other reply code is an OSError |
| Socks5.RefusedMethodEnds | validator/proxy_probe.py:209-214 | A server that does not select the needed method gets neither credentials nor target, and the client an OSError |
| Socks5.RefusedLoginEnds | validator/proxy_probe.py:215-229 | One that refuses the credentials does not get the target |
| Socks5.HangingUpIsIncomplete | validator/proxy_probe.py:212 | One that hangs up before its first answer is an IncompleteReadError |

## Left out

- Floating-point rounding of scores and of the ASN ratio; the model uses reals.
- Parsing of IP addresses and IDNA: `_normalise_host` is a parameter with stated properties (idempotent, non-empty, no white space, no leading bracket), the subnet of an exit address is a field, and SOCKS5 targets arrive classified as IPv4, IPv6 or name.
- Text outside ASCII in `strip`, `upper`, `lower` and `int`.
- Socket timeouts, TLS, the byte pumps and the stream limit of `readline` and `readuntil`; an attempt ends as connected, caught or escaped.
- Runtime files other than those of the updater: their fingerprint checks are statements that may fail.
- SOCKS4, the HTTP CONNECT clients, `target_from_connect`, HTTP header and echo parsing and `classify_anonymity`; a probe's outcome is an input of the validator cycle.
- The connector registry and its configuration loader; only collection is modelled.
- `udp2tcp_dns.py`, `doh_dns.py`, the packet-filter rules, credentials, the ASN database and its updater.
- The remaining deployment, Proxmox and lab scripts, and the interactive parts of `tgctl.py`.
- UpdateHost.Host.Update: the command line's printed text and the removal of the temporary worktree are not modelled, because they touch none of the protected state.
- Readiness.Check: the service list and the local lab fixture are not modelled; the echo is the peer it reports.
- Relay.Pool.Choose: a refresh that fails halfway is the case where only one of the two lists is updated.
