# Parsec, modelled and proved in Dafny

Parsec is a real-time messaging control plane: it hands out channel tokens, rotates
signing keys across a fleet of nodes that share a Redis, rate-limits publishers,
matches channel patterns, caches envelopes and keeps a registry of open channels.
This project models the code behind those promises and proves what the promises
amount to, for every input, every run or every interleaving.

What is proved, subsystem by subsystem:

* **Key rotation** (`KeyRing`, `Fleet`, `FleetKeeps`, `FleetRuns`, `FleetSerial`,
  `FleetRaces`, `KeyRingStore`). The fleet is a state machine over single Redis
  commands, faults, lost replies and the steps of each node's watcher, which loads and
  records a version before it takes the lock under which it installs. In every
  interleaving reported successes are written once and exactly one node bootstraps.
  That no rotation is lost does not hold in every interleaving: it holds if every
  rotation starts with the version it will save against equal to the version of its
  ring, and one operation at a time on each node is enough for that. A rotation is
  safe if and only if the ring in hand is the recorded version plus its pending
  mutations, and three runs show the watcher breaking this, one of them with a single
  node from an empty store. The code of the lock holder (`Load`, `Save`, `Ensure`,
  `mutateKeys`) is a class beside it, interrupted by other nodes between any two
  commands.
* **Refresh-token families** (`RefreshStore`, `Issuer`, `RefreshAccess`,
  `RefreshProtocol`, `RefreshRaces`, `HonestFamilies`). The store's calls read the
  clock before they take its lock. A family stays linear under every interleaving in
  which its own redemptions are timely, that is, in which neither the redemption nor
  any store call before it has read the clock at or after the token's expiry; a replay
  is let through if and only if it is not timely, and a run shows a stale reading doing
  that. Reuse stops a family until the replayed token's expiry, and not beyond it. No
  family whose tokens are presented once each is ever stopped.
* **Rate limiting** (`Limits`, `MemoryLimiter`, `RedisLimiter`). The trimmed buckets
  decide exactly as the full admission log would, and so does the Redis script on
  forward clocks; under any clocks what it admits is stated exactly; the ceiling holds
  over every run exactly when the sweeper's window is long enough; the shared Redis
  budget holds in windows shortened by the clock skew, and not in windows a millisecond
  longer; the key's own expiry changes nothing as long as clocks drift by at most half
  its slack.
* **Names, patterns, rules** (`Text`, `Names`, `Patterns`, `Matchers`,
  `Specificity`, `Sorting`, `Rules`, `Authorization`). Three matchers written
  independently have one meaning, with one exactly stated difference; a strictly
  narrower channel pattern scores strictly higher, so the winning rule never shadows a
  narrower one, while schema patterns with placeholders can; rule tables do not depend
  on map order; deny wins.
* **Cache** (`Cache`, `CacheRuns`). The list order is last-touch order, a key is lost
  only under pressure of `MaxEntries` other keys, what is stored is served exactly while
  the TTL of its last Put lasts, and two tenants never read each
  other's entries if and only if neither id is the other followed by a colon and more.
* **Channel lifecycle** (`Lifecycle`, `LifecycleRuns`, `RedisSweep`). The event log
  determines the open set as long as each name's events keep their order, and any log
  does exactly when each name ends in it as it ended in the run; a sweep ends exactly
  the expired leases; and for every TTL the condition under which the Lua sweep and the
  in-memory one differ is stated exactly.
* **Telemetry** (`RingWindow`). The minute ring equals the log exactly when no minute
  of the window was overwritten.

Code that updates fields, maps and slices in place is a class or a method with its
loops; each such method is tied to a function of the old state, and the run theorems
are about those functions. Clock readings, random ids and key material are
parameters. Times are nanoseconds, except in the Redis limiter, which works in
milliseconds as its script does.

Where the code and its comments disagree, the model follows the code:

* `mutateKeys` is documented to be serialized against the watcher's reloads; only the
  installing half of a reload takes the lock, so a load can still land between apply
  and save and make a stale write look current.
* `Name.String` is documented to round-trip; it does exactly for canonical names.
* `CompileChannelRules` is documented to reject negative rates; it clamps them.
* Access tokens are documented to be bounded by the refresh lifetime; the one-minute
  floor exceeds it when the refresh lifetime is under a minute.
* Schema resolution is documented to prefer the most literal tokens; placeholders can
  outweigh a literal, and a narrower pattern can lose to a strictly wider one.
* The memory limiter's `Reset` is one tick short of the moment the oldest event goes.
* `MarkRedeemed` is documented to report every id already marked; it reads the clock
  before its lock, so a later reading can prune the record before an earlier one looks
  for it, and it records nothing at or after the token's expiry.
* The token broker's `**` may match nothing; the other two matchers need a segment.
* A sub-second TTL is stored in Redis as zero, so the next sweep ends the channel.
* A sweeper whose own window is shorter than a rule's window forgets events that the
  rule still counts.

## Model

| member | source | states |
|---|---|---|
| KeyRings.KeyRing.AddKey | auth/keyring.go:260-408 | refuses empty, duplicate or mismatched keys and otherwise adds the key, active only if it is the first |
| KeyRings.KeyRing.PromoteKey | auth/keyring.go:412-428 | makes a live key the only active one, demoting the old one to verify-only |
| KeyRings.KeyRing.RetireKey | auth/keyring.go:432-449 | retires any key but the active one and touches no other |
| KeyRings.KeyRing.Get | auth/keyring.go:159-171 | finds a key by id exactly when it is present and not retired |
| KeyRings.KeyRing.ActiveKey | auth/keyring.go:140-148 | the signing key is the one active key, it verifies too, and it is missing only from an empty ring |
| KeyRings.KeyRing.TakeSnapshot | auth/keyring.go:475-525 | lists each live key once in a fixed order, whatever order the map yields |
| KeyRings.KeyRing.LoadSnapshot | auth/keyring.go:536-595 | swaps in the whole decoded snapshot, or rejects it and changes nothing |
| KeyRings.KeyRing.ReloadOwnSnapshot | auth/keyring.go:475-595 | saving and reloading loses exactly the retired keys |
| KeyRings.ApplyWellFormed | auth/keyring.go:260-449 | every mutation keeps exactly one active, live key in a non-empty ring |
| KeyRings.SignsExactly | auth/keyring.go:260-449 | for every mutation, exactly which key signs afterwards |
| KeyRings.RotationGoesThrough | auth/keyring.go:260-449 | on every ring that signs, add, promote and retire all succeed, the old key verifies until it is retired, the new one from the start, and no third key is touched |
| KeyRings.RunWellFormed | auth/keyring.go:260-595 | that invariant holds at every step of every run of mutations and reloads |
| KeyRings.SnapshotThenLoad | auth/keyring.go:475-595 | decoding a ring's snapshot gives back exactly its live part |
| KeyRings.SignedTokensKeepResolving | auth/verifier.go:79-84 | a key that resolves keeps resolving with the same material at every later step until it is retired or an older snapshot is installed |
| KeyRings.ResolvesExactly | auth/keyring.go:159-171 | for every step, the exact condition under which a key resolves after it |
| KeyRings.StaleReloadDropsKey | auth/keyring.go:536-595 | installing a snapshot older than a key drops the key, so the bound on reloads is needed |
| KeyRings.ApplyTracks | auth/keyring.go:412-449 | a ring and its persisted live part stay in step under the same mutation |
| KeyRingStore.RedisKeyRingStore.Load | auth/redis_keyringstore.go:122-157 | under any interference, a successful load pairs the body with the version it was written under, no older than the store was at the start; it writes nothing, finds nothing only in an empty store, and gives up only if each of its five attempts was crossed by another node's write |
| KeyRingStore.RedisKeyRingStore.Save | auth/redis_keyringstore.go:180-223 | writes one version past the recorded one only if the store was still at it, blindly if none is recorded; it fails only for a version other than the recorded one or if each of its five attempts was crossed by another node's write, and then only others have written |
| KeyRingStore.RedisCell.Commit | auth/redis_keyringstore.go:200-205 | body and version change together and the history grows by that one entry |
| KeyRingStore.RedisKeyRingStore.Exec | auth/redis_keyringstore.go:200-215 | commits exactly when the watched version has not changed |
| KeyRingStore.Node.Reload | parsec.go:1711-1720 | load and install in one step leave the node on a version of the chain with nothing pending; it fails only on an empty store or if others kept writing, and then leaves a ready node as it was |
| KeyRingStore.Node.SaveRing | parsec.go:1722-1731 | a successful save leaves nothing pending and the node in step with the version it wrote; a failing one leaves it in step with the version it had |
| KeyRingStore.Node.Mutate | parsec.go:1753-1755 | an accepted mutation shows in the ring and is recorded as pending on top of the loaded version |
| KeyRingStore.Node.Attempt | parsec.go:1752-1770 | one apply-save-reload attempt reports success only for a version whose last mutation is its own, refuses exactly what the ring refuses, and always leaves the node ready |
| KeyRingStore.Node.MutateKeys | parsec.go:1747-1773 | the retry loop reports success only for the one version it wrote, which ends in the requested mutation; it refuses only if some attempt's ring refuses its draw and always if the first does; it gives up only if every attempt met another node's write, all but one of them made meanwhile; however it ends the node is ready for the next call |
| KeyRingStore.Node.Ensure | auth/redis_keyringstore.go:348-373 | a node that comes up holds a version of the chain; it bootstrapped only an empty store, as version one; with usable key material it stays down only if others kept writing |
| FleetKeeps.StepKeeps | auth/redis_keyringstore.go:122-257 | every Redis command, fault, lost reply, local store and watcher step of one node keeps the store and that node sane |
| FleetKeeps.NextKeeps | auth/redis_keyringstore.go:122-257 | every step of any node keeps the whole fleet sane and only extends the history |
| FleetKeeps.RunKeeps | parsec.go:1747-1773 | that holds after every interleaving, whatever the watchers do |
| FleetRuns.SuccessesAreWritten | parsec.go:1758-1761 | in every interleaving a reported success is the last mutation of a version that this node wrote |
| FleetRuns.SuccessesAreDistinct | parsec.go:1758-1761 | no two reported successes anywhere in the fleet share a version |
| FleetRuns.LoadPairsBodyWithVersion | auth/redis_keyringstore.go:118-157 | whatever is written between its three reads, a load that records holds a body with the version it was written under, for the lock holder and for the watcher |
| FleetRuns.CleanHandServesItsVersion | parsec.go:1711-1720 | a node with nothing unsaved serves exactly the live keys of the version of its ring |
| FleetRuns.BootstrapAgreement | auth/redis_keyringstore.go:346-373 | however many nodes boot at once, exactly one save bootstraps and all nodes without unsaved changes hold that ring until the first rotation |
| FleetRuns.NoLostRotation | parsec.go:1733-1773 | in every run whose rotations start in step, each version is its predecessor plus its writer's mutations |
| FleetRuns.KeySurvives | parsec.go:1736-1746 | along the chain a key lives, with the same material, until a rotation retires it |
| FleetRuns.GeneratedKeySurvives | parsec.go:1783-1803 | in such a run a key returned by GenerateKey is in every later version until retired |
| FleetRuns.FleetKeepsResolving | parsec.go:1592-1622 | in such a run a persisted key verifies on every node, in the middle of whatever it is doing, once its ring is of that version, until a rotation or the node itself retires it |
| FleetSerial.OneOperationAtATimeLosesNothing | parsec.go:1743-1746 | if on each node a rotation, a reload or a delivery starts only while nothing else is in flight there, every rotation starts in step and none is lost |
| FleetRaces.SaveIsSafeExactlyWhenSynced | auth/redis_keyringstore.go:171-223 | a save that passes the version check keeps the chain for every next mutation if and only if the ring is that version plus its pending mutations |
| FleetRaces.RotationIsSafeExactlyWhenSynced | parsec.go:1747-1773 | the same for whole runs of the next rotation of an idle node |
| FleetRaces.StaleRotationErases | parsec.go:1740-1746 | the next rotation of a node that recorded a version without its keys is accepted, reported, and erases them though nothing retired them |
| FleetRaces.DeliveryInFlightIsStale | auth/redis_keyringstore.go:239-257 | a delivery that has recorded and not installed leaves a node stale, from any state |
| FleetRaces.DeliveryAcrossRotationIsStale | auth/redis_keyringstore.go:239-257 | a delivery that records before the node's own rotation and installs after it takes the node's newest key away |
| FleetRaces.OverlappingDeliveriesAreStale | auth/redis_keyringstore.go:259-281 | two deliveries of one node can install the older ring under the newer version |
| FleetRaces.OwnKeyErased | parsec.go:1608-1617 | from any current node, a run in which it reports a key and its own next rotation erases it |
| FleetRaces.OneNodeLosesItsOwnKey | parsec.go:1608-1617 | such a run from an empty store with one node, which boots, starts to watch and gets one delivery |
| RefreshStores.MemoryRefreshStore.MarkRedeemed | auth/refresh_store.go:82-95 | reports reuse exactly for a live record of an unexpired token, and records the id once |
| RefreshStores.MemoryRefreshStore.RevokeFamily | auth/refresh_store.go:98-110 | revokes the family until the later of the old and new expiry |
| RefreshStores.MemoryRefreshStore.IsFamilyRevoked | auth/refresh_store.go:113-123 | answers for an unexpired revocation, pruning the rest |
| RefreshStores.MemoryRefreshStore.PruneLocked | auth/refresh_store.go:144-155 | the two key-by-key loops drop exactly the expired records |
| RefreshStores.PruneVisibleExactlyWhen | auth/refresh_store.go:144-155 | the exact condition under which a prune changes a later redemption's answer |
| Issuing.RotationKeepsFamily | auth/issuer.go:334-395 | a rotated pair keeps its family under a new id and says what every pair says: whose it is, when it was issued, the exact lifetimes of both tokens, and expiry claims that are the seconds of those |
| Issuing.NewPairSays | auth/issuer.go:54-112 | the same for a new pair, which starts a family of its own under the drawn ids |
| Issuing.PairIssuedExactlyWhen | auth/issuer.go:54-112 | the exact condition under which a new pair is issued |
| Issuing.LegacyAccessExactly | auth/issuer.go:141-166 | when an access token is minted for a legacy refresh token, and that it expires in the second of the access policy or of that token, whichever ends first |
| Issuing.ValidScopeMeans | auth/issuer.go:193-213 | a grant is valid exactly if its pattern is non-empty and parses and it lists verbs, all of them subscribe, publish or manage |
| Issuing.ValidateScopes | auth/issuer.go:193-213 | passes exactly when every pattern is non-empty and parses and every grant lists verbs, all of them known |
| Issuing.RotationIssuedExactlyWhen | auth/issuer.go:334-395 | a rotation is issued if and only if channel and family are named, the scopes are valid, the ring has an active key, and the refresh lifetime is positive and reaches the next second |
| Issuing.AccessOutlivesRefreshExactlyWhen | auth/issuer.go:54-112 | the access token is bounded by the refresh token exactly when the refresh lifetime is at least a minute |
| Issuing.HalfMinuteChannelIsOutlived | auth/issuer.go:54-112 | a half-minute channel yields an access token that outlives its refresh token by half a minute |
| RefreshAccess.Refresh | parsec.go:1916-1985 | which of the refusals, the legacy path, the reuse verdict, an exchange or a failed issuance happens and when, what the exchanged pair says, and that a redemption makes the presented token a replay from then on even if issuing failed |
| RefreshAccess.PruneVisible | auth/refresh_store.go:82-155 | pruning no later than a redemption never changes its answer |
| RefreshProtocol.NextKeeps | parsec.go:1946-1985 | every step of any request keeps the family bookkeeping |
| RefreshProtocol.LinearFamilies | parsec.go:1946-1985 | in every interleaving in which a family's own redemptions are timely, each of its refresh ids is exchanged at most once and it has one live continuation |
| RefreshProtocol.ReplayAcceptedExactlyWhen | auth/refresh_store.go:82-95 | after timely redemptions, a replay is let through if and only if it or some store call before it has read the clock at or after the token's expiry, hence never while the clock is before it |
| RefreshProtocol.ReuseKillSwitch | parsec.go:1957-1968 | after a replay is answered, every later request of the family is unanswered or denied until the replayed expiry, in every continuation and on whatever reading |
| RefreshRaces.ExpiryInstantForksFamily | auth/refresh_store.go:82-95 | from any state a token at its expiry instant in an unrevoked family can be exchanged twice |
| RefreshRaces.StaleReadingForksFamily | auth/refresh_store.go:82-123 | a run from an empty store in which every redemption of the family reads the clock before the token's expiry and the token is still exchanged twice |
| RefreshRaces.KillSwitchEndsAtReplayedExpiry | parsec.go:1957-1968 | once the replayed token's expiry has passed, an unexpired, unredeemed token of the same family is exchanged again |
| HonestFamilies.NoFalseAlarm | parsec.go:1946-1985 | in every interleaving, however slow, a family none of whose tokens was presented twice is not revoked, none of its requests is denied, and none will be by its next store call |
| HonestFamilies.FirstRedemptionAccepted | auth/refresh_store.go:82-95 | in every interleaving a token that has not been redeemed yet is accepted |
| MemoryLimiters.CountOld | ratelimit/memory.go:87-93 | finds the number of leading events before the cutoff |
| MemoryLimiters.MemoryLimiter.AllowWithLimit | ratelimit/memory.go:66-123 | admits exactly when the trimmed bucket has room for the charge, all or nothing, with the remaining count and reset of the new bucket |
| MemoryLimiters.MemoryLimiter.Sweep | ratelimit/memory.go:127-148 | trims every bucket by the limiter's own window, drops empty ones and counts them |
| MemoryLimiters.LimiterEqualsLog | ratelimit/memory.go:66-148 | over every forward-clock run of limited and unlimited keys, with limits normalized as the limiter does, the buckets decide as the full log does, sweeps or not |
| MemoryLimiters.AdmittedExactlyWhen | ratelimit/memory.go:66-148 | over every forward-clock run a call is let through if and only if the rate as configured is not positive or what the key spent in the window that ends at the call leaves room for it |
| MemoryLimiters.BucketIsSpent | ratelimit/memory.go:98-121 | after a call the bucket holds what its key spent in the window, so that the remainder reported is what is left |
| MemoryLimiters.LogSpaced | ratelimit/memory.go:66-123 | in every run any ceiling-plus-one consecutive admissions of a key span more than its window |
| MemoryLimiters.WindowNeverExceedsCeiling | ratelimit/memory.go:66-123 | no closed window of a limited key, whatever its raw limit, ever holds more admissions than the ceiling of the normalized one |
| MemoryLimiters.ShortSweepDoublesCeiling | ratelimit/memory.go:127-148 | a sweep with a shorter window than the key's lets the key spend its ceiling twice inside one window |
| MemoryLimiters.CeilingHoldsExactlyWhen | ratelimit/memory.go:66-148 | for every limited key, the ceiling holds over every run if and only if the sweeper's window is at least the key's normalized one |
| MemoryLimiters.SweepInvisibleExactlyWhen | ratelimit/memory.go:127-148 | a sweep is invisible to a call at that instant exactly when no event lies between the two cutoffs |
| MemoryLimiters.ResetIsOneTickShort | ratelimit/memory.go:98-121 | waiting exactly the reset leaves the oldest event counted; one tick more drops it |
| RedisLimiters.Oldest | ratelimit/redis.go:53-59 | finds a member of the lowest score |
| RedisLimiters.SortedSet.SlidingWindow | ratelimit/redis.go:36-72 | the script trims, admits exactly when the charge fits, adds one unique member per unit, renews the key's expiry on admission and reports remaining and reset |
| RedisLimiters.StampedStillPresent | ratelimit/redis.go:42-53 | the set still holds every event admitted in an interval no cutoff has reached |
| RedisLimiters.AdmittedFits | ratelimit/redis.go:44-48 | an admitted charge fits beside everything admitted in an interval no cutoff has reached |
| RedisLimiters.SkewedWindowBound | ratelimit/redis.go:36-72 | with clocks at most `skew` apart, every interval of length window minus skew holds at most the budget, over every run |
| RedisLimiters.SkewedWindowBoundTight | ratelimit/redis.go:42-53 | one millisecond more and a run admits twice the budget |
| RedisLimiters.AdmittedExactlyWhen | ratelimit/redis.go:37-60 | with unique nonces and any clocks, a call is admitted if and only if its charge fits beside the admitted events less than a window behind it and behind every call since theirs |
| RedisLimiters.ScriptEqualsLog | ratelimit/redis.go:37-60 | if no earlier clock was ahead, the script admits exactly what the full log of the window would |
| RedisLimiters.ResetIsExact | ratelimit/redis.go:37-72 | after the reported reset something stops counting, and a millisecond before nothing does |
| RedisLimiters.ExpiryIsInvisible | ratelimit/redis.go:52-52 | with callers' clocks within five seconds of the server's, the key holds after every run what it would hold without expiring |
| RedisLimiters.ExpiryVisibleBeyondSlack | ratelimit/redis.go:52-52 | with any more drift a run forgets an event that a caller would still count |
| Text.SplitSegments | ratelimit/types.go:180-192 | the index-and-slice loop computes the split at every dot and colon |
| Text.SplitJoin | channels/name.go:43-96 | splitting undoes joining pieces free of the separator |
| Text.JoinSplit | channels/name.go:43-96 | joining undoes splitting |
| Text.LessExactly | schema/registry.go:213-218 | ties are broken lexicographically: a proper prefix first, otherwise the first difference decides |
| Names.PrintThenParse | channels/name.go:43-96 | printing a canonical name and parsing it gives the name back |
| Names.ParsesExactly | channels/name.go:60-125 | exactly which strings are channel names, and which name each of them is |
| Names.ParseThenPrint | channels/name.go:60-96 | what parses is canonical and prints to the parsed text |
| Names.RoundTripExactlyWhenCanonical | channels/name.go:41-52 | the documented round trip holds if and only if the name is canonical |
| Names.PrintInjective | channels/name.go:43-52 | registry keys identify canonical names |
| Names.TopicWithoutIdDoesNotRoundTrip | channels/name.go:43-52 | a topic without an id parses back as an id |
| Patterns.CompileSegments | channels/pattern.go:87-105 | the segment loop yields every segment or the first error |
| Patterns.ParsedShape | channels/pattern.go:65-107 | a parsed pattern has a known visibility and at most eight well-placed segments that spell its text |
| Patterns.SpellThenParse | channels/pattern.go:65-107 | every legal segment list is what its spelling parses to |
| Patterns.MatchSegments | channels/pattern.go:149-174 | the straight loop decides glob matching |
| Patterns.MatchName | channels/pattern.go:113-143 | the four-slot scratch buffer holds the present components and the answer is visibility equality plus glob matching |
| Patterns.ScanIsGlob | channels/pattern.go:145-174 | from every position the scan without backtracking equals backtracking glob matching |
| Patterns.MatchesIsGlob | channels/pattern.go:113-174 | on parsed names and patterns matching is glob matching of the components |
| Matchers.CompileSchema | schema/pattern.go:46-70 | the token loop yields every token or refuses |
| Matchers.SchemaExactly | schema/pattern.go:46-70 | exactly which texts are schema patterns, and which tokens each of them means |
| Matchers.Match | schema/pattern.go:78-110 | matches exactly the glob of its tokens and binds exactly the placeholders |
| Matchers.BindingMeaning | schema/pattern.go:78-110 | a placeholder is bound to the segment at its last occurrence, and nothing else is bound |
| Matchers.MatchText | tokenbroker/broker.go:521-542 | the broker's loop computes its glob over both texts |
| Matchers.BrokerGlob | tokenbroker/broker.go:521-542 | on parsed patterns and names the broker decides the glob with a possibly empty tail |
| Matchers.SchemaReadsChannelPatterns | schema/pattern.go:46-70 | every channel pattern is a schema pattern with the same segments |
| Matchers.MatchersAgree | tokenbroker/broker.go:517-542 | the three matchers mean the same on every parsed pattern and name, up to the broker's empty tail |
| Matchers.BrokerDoubleStarMayBeEmpty | tokenbroker/broker.go:521-542 | at every name the broker matches the name's own open pattern and the channel matcher does not |
| Specificity.GlobAt | channels/pattern.go:149-174 | matching is a length condition and one comparison per position of the unrolled pattern |
| Specificity.ContainmentPointwise | ratelimit/types.go:158-176 | containment of matched names forces the wider pattern to be at least as general at every position |
| Specificity.UnrolledOrder | ratelimit/types.go:161-176 | pointwise generality orders the unrolled scores, by three at least where a literal meets a star |
| Specificity.StrictSomewhere | ratelimit/types.go:158-176 | a name only the wider pattern matches forces a strict difference at the narrower pattern's shortest length |
| Specificity.WordIsName | channels/name.go:60-96 | every admissible list of components is the component list of a canonical name |
| Specificity.NarrowerScoresHigher | ratelimit/types.go:158-176 | on segment lists a strictly narrower pattern scores strictly higher |
| Specificity.NarrowerScoresHigherUnbounded | ratelimit/types.go:158-176 | the same with containment over segment lists of every length |
| Specificity.NarrowerPatternScoresHigher | ratelimit/types.go:158-176 | the same for parsed patterns over real channel names |
| Sorting.SortedUnique | ratelimit/types.go:148-154 | two lists sorted by a strict total order with the same elements are equal |
| Rules.ScoreRule | ratelimit/types.go:161-176 | the accumulating loop adds four, one and zero per literal, star and double star |
| Rules.RankersAgree | schema/registry.go:221-236 | the rule ranker and the schema ranker give every channel pattern the same score |
| Rules.ScoreCounts | schema/registry.go:221-236 | the score is four times the literals, twice the placeholders and once the stars |
| Rules.LessOpenScoresHigher | schema/registry.go:221-236 | position by position less open in the order literal, placeholder, star, double star scores higher |
| Rules.MoreLiteralsScoreHigherExactlyWhen | schema/registry.go:186-191 | between patterns of one length without a double star, the exact condition under which more literals win |
| Rules.CompileChannelRules | ratelimit/types.go:136-156 | succeeds exactly when every pattern parses, with one rule per entry, most specific first |
| Rules.NegativeRateCompiles | ratelimit/types.go:132-156 | an entry with a negative rate compiles to a rule that limits nothing |
| Rules.PositiveRateCompiles | ratelimit/types.go:132-156 | an entry with a positive rate compiles to that rate, with the window and the burst filled in |
| Limits.NegativeRateIsUnlimited | ratelimit/types.go:66-89 | a limit is unlimited if and only if its rate is not positive, and negative rates are clamped to zero |
| Limits.LimitMeans | ratelimit/types.go:66-86 | what rate, window, burst and ceiling a limit with a positive rate comes down to |
| Rules.TableUnique | ratelimit/types.go:136-156 | the table does not depend on map order |
| Rules.MatchRule | ratelimit/types.go:196-215 | the first match is the winner among all matching rules, and the default applies exactly when none matches |
| Rules.NoShadowing | ratelimit/types.go:132-156 | the winning rule never shadows a strictly narrower rule that also matches |
| Rules.MemoryRegistry.Register | schema/registry.go:125-144 | adds a pattern, starts its version list and tells every subscriber exactly when it compiles and is new, and otherwise changes nothing |
| Rules.MemoryRegistry.Broadcast | schema/registry.go:296-309 | in any map order, every subscriber's queue grows by the change unless 64 already wait in it |
| Rules.MemoryRegistry.Subscribe | schema/registry.go:278-294 | a queue under an id not in use, starting empty, with the others as they were |
| Rules.MemoryRegistry.Resolve | schema/registry.go:192-219 | returns the owner of the channel, with its bindings, whatever order the map yields, and nothing exactly when nothing matches |
| Rules.LessOpenIsNotShadowed | schema/registry.go:192-219 | a registration never owns a channel that a position by position less open one matches too |
| Rules.NarrowerLosesToPlaceholders | schema/registry.go:186-236 | a literal and three stars lose every channel they match to four placeholders, which match strictly more |
| Rules.SameWinner | schema/registry.go:192-236 | over the same patterns rule resolution and schema resolution pick the same winner |
| Rules.SameMatches | schema/registry.go:192-219 | one finds a match exactly when the other does |
| Authorization.Scope.Compiled | auth/scope.go:72-86 | parses once; success and failure are both remembered truthfully |
| Authorization.Scope.AllowsVerb | auth/scope.go:108-115 | the loop finds exactly the listed verbs |
| Authorization.Scope.MatchesVerb | auth/scope.go:126-135 | true exactly when the pattern compiles, matches and the verb is listed |
| Authorization.AnyCovers | auth/claims.go:139-148 | one pass over one polarity answers whether any such scope covers the name and leaves every cache truthful |
| Authorization.Authorizes | auth/claims.go:121-171 | whatever the caches hold and however scopes are aliased, deny wins over listed channels and allows |
| Authorization.DenyWins | auth/claims.go:121-171 | a channel is authorized if and only if no deny speaks of it and it is listed or an allow speaks of it; one that does not parse, if and only if it is listed |
| Authorization.OrderIrrelevant | auth/claims.go:121-171 | order of scopes and channels does not matter |
| Authorization.Monotone | auth/claims.go:121-171 | more denies only shrink, more allows or channels only grow, what is authorized |
| Authorization.AddOne | auth/claims.go:121-171 | one more deny never grants, one more allow or channel never revokes |
| Caches.MemoryCache.Get | cache/cache.go:143-162 | returns an unexpired entry and moves it to the front, drops an expired one, and counts one hit, or one miss with the eviction |
| Caches.MemoryCache.Put | cache/cache.go:165-192 | stores at the front, evicts from the back down to the bound, counts the evictions |
| Caches.MemoryCache.Delete | cache/cache.go:195-203 | removes the key from map and list |
| Caches.MemoryCache.SweepOnce | cache/cache.go:247-261 | the backward walk removes exactly the expired entries, keeps the order, and counts one eviction each |
| Caches.MemoryCache.GetForTenant | cache/cache.go:206-208 | a get on the tenant-scoped key, counted as one |
| Caches.MemoryCache.PutForTenant | cache/cache.go:211-213 | a put on the tenant-scoped key, with its evictions counted |
| Caches.MemoryCache.DeleteForTenant | cache/cache.go:216-218 | a delete on the tenant-scoped key |
| CacheRuns.RunWithin | cache/cache.go:121-261 | after every run map and list agree, keys are unique and the bound holds |
| CacheRuns.OrderIsRecency | cache/cache.go:143-192 | after every run list order is last-touch order |
| CacheRuns.OnlyPressureEvicts | cache/cache.go:165-192 | a stored or hit key is missing only if deleted, expired, or at least `MaxEntries` other keys were touched since |
| CacheRuns.StoredIsLatest | cache/cache.go:165-192 | what is stored under a key is what the last Put stored |
| CacheRuns.ServedExactlyWhileItLasts | cache/cache.go:143-192 | after every run a stored key is served, and survives a sweep, if and only if its last Put had no TTL or its TTL has not passed, and what is served is what that Put brought |
| CacheRuns.CountersConserve | cache/cache.go:143-261 | in every run hits and misses add up to the lookups, and every key that came in is stored, was deleted or is counted as evicted |
| CacheRuns.ScopedKeyInjective | cache/cache.go:84-86 | ids that do not collide, and their keys, are recovered from the scoped key |
| CacheRuns.CollisionExactlyWhen | cache/cache.go:84-86 | two tenants can collide if and only if one id is the other followed by a colon and more |
| CacheRuns.ColonFreeIsClear | cache/cache.go:84-86 | ids without a colon never collide |
| CacheRuns.TenantsDoNotInterfere | cache/cache.go:206-218 | across any interleaving with tenants whose ids do not collide with its own, a tenant's hit is that tenant's latest Put |
| CacheRuns.CollidingTenantIsRead | cache/cache.go:84-86 | with colliding ids one Put of the other tenant is already a hit |
| CacheRuns.NonInterferenceExactlyWhen | cache/cache.go:206-218 | two tenants keep out of each other's way in every run if and only if their ids do not collide |
| Lifecycle.MemoryStore.OpenPublic | channels/memory_store.go:57-83 | opens or reopens unless deleted or private, and reports an opening exactly on a change to open |
| Lifecycle.MemoryStore.CreatePrivate | channels/memory_store.go:86-100 | creates a private channel exactly when the name was never used |
| Lifecycle.MemoryStore.Touch | channels/memory_store.go:103-118 | refreshes an open channel, with the right error otherwise |
| Lifecycle.MemoryStore.Delete | channels/memory_store.go:121-134 | buries the name and reports it once |
| Lifecycle.MemoryStore.SetDelta | channels/memory_store.go:137-146 | changes only the delta flag of a name that is not deleted |
| Lifecycle.MemoryStore.Sweep | channels/memory_store.go:149-169 | in any visiting order, closes idle public and removes idle private channels, one event each |
| Lifecycle.Manager.OpenPublic | channels/manager.go:156-166 | state change and emitted events together are one step of the registry, and the result is the channel as it then stands or the right error |
| Lifecycle.Manager.CreatePrivate | channels/manager.go:169-182 | the same, refusing exactly lifetimes above the maximum, names that are not private and names in use |
| Lifecycle.Manager.Delete | channels/manager.go:190-197 | the same for deletion, which succeeds exactly for names in the registry |
| Lifecycle.Manager.Sweep | channels/manager.go:231-241 | the same for sweeps, returning the number of events emitted |
| LifecycleRuns.LogDeterminesOpenSet | channels/manager.go:132-241 | after every run, under any expiry rule, folding the event log gives exactly the open names |
| LifecycleRuns.ReorderedLogDeterminesOpenSet | channels/manager.go:132-197 | the log still does so in any other order that keeps the events of each name in order |
| LifecycleRuns.LogGivesOpenSetExactlyWhen | channels/manager.go:132-197 | any log at all gives the open set if and only if each name ends open in it just when it ended open in the run |
| LifecycleRuns.SwappedEmissionMisleads | channels/manager.go:132-197 | a deletion emitted before the opening it follows leaves a deleted channel open in the log |
| LifecycleRuns.LogWellFormed | channels/manager.go:132-241 | every opening in the log is of a name the log so far leaves closed |
| LifecycleRuns.OpenedEventsSeparated | channels/manager.go:132-241 | two openings of a name are separated by a closing or deletion of it |
| LifecycleRuns.DeletedNeverReopens | channels/memory_store.go:57-134 | after an explicit deletion nothing reopens the name or reports it opened |
| LifecycleRuns.RunLeased | channels/memory_store.go:57-118 | in every run the stored activity time and TTL of an open channel are those its own last opening and touch granted |
| LifecycleRuns.RegistryRecordsLives | channels/manager.go:156-241 | after every run the registry holds under each name exactly what the calls made of it: default lifetimes, the cap, renewals, deletion for good and expiry |
| LifecycleRuns.SweepEndsExactlyExpiredLeases | channels/memory_store.go:149-169 | after every run a sweep leaves an open channel open if and only if its lease, counted from its last opening or touch, is still running |
| RedisSweep.ScriptMillisExactly | channels/redis_store.go:363-373 | dropping six digits is division by a million towards zero exactly for seven or more digits, and not a number below |
| RedisSweep.ScriptWithinOneMillisecond | channels/redis_store.go:360-390 | the script expires all the nanosecond rule does, and nothing idle for at most the TTL minus a millisecond |
| RedisSweep.ScriptWithinOneSecond | channels/redis_store.go:360-390 | for every TTL, whole seconds or not, the script is never late and early by less than a second and a millisecond |
| RedisSweep.SubSecondTTLEndsAtOnce | channels/redis_store.go:360-390 | a TTL below one second ends the channel at the next sweep |
| RedisSweep.RulesDisagreeExactlyWhen | channels/redis_store.go:360-390 | for every TTL, the exact condition under which the two expiry rules differ |
| RedisSweep.RedisHash.SweepScript | channels/redis_store.go:360-420 | the pass fails exactly if the clock or an open record's last touch is too short to cut, leaving a part of the hash swept; otherwise it deletes or rewrites exactly the channels its rule expires, one event each |
| RedisSweep.SweepsAgreeOutsideLastMillisecond | channels/redis_store.go:360-390 | the two sweeps leave a channel in the same state outside the last millisecond of its TTL |
| RingWindows.RingWindow.Add | telemetry/telemetry.go:408-418 | one more minute in the log, whatever the cell held before; before 1970 it panics, changing nothing, unless the minute is a multiple of the ring's length |
| RingWindows.RingWindow.Sum | telemetry/telemetry.go:420-431 | the sum over stamped cells is the number of surviving entries of the window |
| RingWindows.RingEqualsLog | telemetry/telemetry.go:387-431 | if no add is a whole ring late, the survivors are exactly the adds of the window, in any arrival order |
| RingWindows.RingEqualsLogExactlyWhen | telemetry/telemetry.go:387-431 | the sum equals the window count if and only if no minute of the window was overwritten |
| RingWindows.MinuteExactly | telemetry/telemetry.go:411-411 | which seconds each minute consists of |
| RingWindows.RingCountsSeconds | telemetry/telemetry.go:408-431 | if no add is a whole ring late, the sum is the number of adds since the running minute began, less the ring's other minutes |
| RingWindows.LateAddLosesNewer | telemetry/telemetry.go:408-418 | a late add erases a newer minute |

## Left out

- KeyRingStore.Node.MutateKeys: the class runs without the node's own watcher, transport faults and lost replies; those are steps of the state machine in `Fleet`, where it is also shown what the watcher breaks.
- KeyRingStore.RedisCell.Interfere: stands for the other nodes, and assumes that no two nodes share an author number and that the others keep the chain, which `FleetRuns.NoLostRotation` proves of nodes that rotate in step; its body does nothing and callers see only its contract.
- Rules.MemoryRegistry.Subscribe: receiving from a subscription and cancelling it are not modelled.
- The Redis limiter before its script: key splitting, millisecond truncation of the window, EVALSHA fallback.
- MemoryLimiters.LimiterEqualsLog: one fixed budget per key; a caller that changes a key's window between calls is not covered.
- Sorting.Sort: an insertion sort stands for `sort.Slice`; the result is unique, so the algorithm does not matter.
- Signatures, PEM, JSON and Redis encodings are treated as identities on the values they carry.
- When deliveries happen: the ticker, the subscription, backoff and supervision around `Watch`. A delivery may start whenever the node is up and has started to watch.
- The file key-ring store, the Redis refresh store, the Redis and no-op caches, and the Redis channel store outside its sweep.
- Dropping events for full subscriber buffers and the cross-node event bus. The manager's methods emit before they return; that concurrent calls emit after the store's lock is released is covered only by the two lemmas on reordered logs.
- Cache list elements are keys in a sequence, not the linked nodes of `container/list`.
- 64-bit overflow of counters, durations and timestamps.
- A signing ring that changes while one pair is being issued.
- Multi-channel and rate-limited token issuance, `BuildName`, and schema updates, deregistration and history.
- Sinks, transports, HTTP handlers, metrics, configuration and the command line.
