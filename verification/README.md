# Bridgefu verification

A Dafny model of the parts of Bridgefu whose correctness does not show on the page, and proofs of what they promise. `dafny verify dfyconfig.toml` checks everything.

| files | what they model |
|---|---|
| `TokenBucket`, `RateLimiter`, `RateLimiterRefinement`, `RateLimiterAnswers` | The control-API limiter: token buckets, a table of bounded size that reclaims idle identities only when full, when that table answers like one that never forgets, and what each call answers |
| `Broadcasts`, `BroadcastOverrun`, `BroadcastHistory` | Create, delete, prune and shutdown of local broadcasts as an interleaving of atomic steps on one shared registry and one gauge for each transport, with handlers that may be dropped, and what a run says about each broadcast |
| `ConfigTree`, `ConfigOverrides` | Environment overrides of the YAML tree, one and whole lists of them, and its redaction |
| `Recipes`, `RecipeRoutes`, `RecipeOutcomes`, `RecipeRefusals`, `RecipeProjector` | Projection of recipes into routes, profiles and listener settings, what a load makes of its recipe, exactly when route validation accepts the result, and inputs it refuses |
| `ListenerCidr` | Trusted networks and certificate fingerprints of the shared SIP listener |
| `RtpPartition` | The split of one RTP port range between a listener and its egress children |
| `CleanupAuthority`, `CleanupHistory` | Durable authority to stop Amazon Connect contacts: calls, cleanup passes, crashes and restarts, interleaved, and what a run says about contacts, records and reports |
| `ObserverStore`, `ObserverHistory`, `MarkerDetector` | The feasibility observer's attempts and sessions, what an attempt records of its lifetime, and its bounded audio window |
| `CanonicalJson`, `Framing`, `FramingReads`, `ProviderDigest` | Canonical provider JSON, and the preimages of the digests and keys built from it, from principals, from broadcast operations and from observer requests |
| `Bearer`, `SipsUri` | Pairs of parsers that must agree |
| `Ascii`, `Splitting`, `Options` | Helpers |

Objects the program mutates are classes whose methods are proved against functions on values; the laws are lemmas about those functions. Concurrency is a state machine over atomic steps, and a property of a run is proved for every sequence of enabled steps.

Eight properties one might expect do not hold of the code. Each comes with its exact condition:

- The bounded limiter does not always answer like an unbounded one. With ordered times it does exactly when on every surface the burst is at most the rate times the idle TTL (twice the idle TTL when the table holds one identity). Requests take their time before the lock, so times may come out of order: if by at most `d`, the time that counts is shorter by `2d` (`3d` when the table holds one identity), and no policy is safe for every order. `RateLimiterRefinement.BoundedMatchesUnboundedExactly` proves the condition exact for every `d`. Configuration validation allows policies outside it.
- The configured maximum of active broadcasts can be exceeded, because the capacity check and the insertion are separate steps. With up to `n` creators past the check at once the least bound is the maximum plus `n - 1`, so the maximum holds exactly when `n` is at most 1: `BroadcastOverrun.LeastCapacityBound`.
- The broadcast gauge does not always return to the number of registered broadcasts. At rest it is too high by exactly the deletes whose close failed and the closes that were dropped: `Broadcasts.GaugeAtRest`, with runs in `BroadcastOverrun.GaugeDrifts`.
- Recipes that load are not always accepted by route validation. `RecipeRoutes.AcceptedExactly` says exactly when they are, and `RecipeRefusals` gives three kinds of load that are refused: an unknown default tenant, overlapping trusted networks, and an instance name too long for a tenant.
- A hang-up or cleanup does not always end the attempt it began with, because its second section looks the attempt up by correlation again. It does in every run exactly when it comes before the attempt's TTL is over: `ObserverStore.SecondSectionExactly`.
- A cleaned attempt does not always hold no handle: a call established while its cleanup is under way leaves one behind (`ObserverStore.LateEstablishment`). Once the cleanup is done, such a handle stays for the attempt's lifetime until another cleanup or a shutdown begins, and a later establishment adds one again: `ObserverStore.CleanedHandleExactly` says exactly when there is one.
- Cleanup authority does not survive every run: the in-memory journal loses it in a crash. It survives every run exactly when the journal is durable: `CleanupAuthority.AuthorityExactlyWhenDurable`.
- The periodic cleanup pass does not retry every contact that could not be stopped. A process with the generic bridge has a second adapter on the same journal, and that pass is given the first adapter only. A contact is taken up by the next pass exactly when that is a startup pass or the contact is not of the second adapter: `CleanupAuthority.NextPassTakesUp`, with a run in `CleanupAuthority.SecondAdapterStrands`.

Two more results are stronger than the code suggests: a process can load at most one recipe bridge in all (`RecipeRoutes.ProjectsExactly`), so the branch that names a route after instance and bridge is never reached in a load that succeeds; and under validated bounds every bucket rejection advertises exactly one second (`TokenBuckets.RejectionAdvertisesOneSecond`).

## Model

| member | source | states |
|---|---|---|
| TokenBuckets.TokenBucket.Admit | src/api_rate_limit.rs:82-102 | A call is admitted exactly when the refilled bucket holds a token; tokens before the call equal tokens after it plus the one spent; the wait of a rejection is between a millisecond and a second |
| TokenBuckets.RetryAfterSeconds | src/api_rate_limit.rs:310-317 | The advertised wait is the least number of whole seconds, at least one, that covers the computed wait |
| TokenBuckets.RejectionAdvertisesOneSecond | src/api_rate_limit.rs:90-102 | Within validated rates every rejection advertises exactly one second |
| TokenBuckets.WaitIsNearest | src/api_rate_limit.rs:100-101 | The wait of a rejection is what the missing part of a token takes at the rate, to the nearest nanosecond, and at least a millisecond |
| TokenBuckets.TokenConservation | src/api_rate_limit.rs:90-102 | Over any calls at any times, what was spent and what is left come from the start and from refill for the clock's forward movement |
| TokenBuckets.AdmissionBound | src/api_rate_limit.rs:90-102 | Any contiguous calls, even with a clock that goes back, admit at most the burst plus the rate times the clock's forward movement |
| TokenBuckets.WindowBound | src/api_rate_limit.rs:90-102 | With ordered times the bound is the burst plus the rate times the window |
| RateLimiter.IdentityBuckets.Charged | src/api_rate_limit.rs:105-134 | Charging one surface leaves the buckets of the other two as they were |
| RateLimiter.CheckKeepsTable | src/api_rate_limit.rs:240-289 | Whatever the clock does, every call keeps all buckets within their bounds and the table within its capacity |
| RateLimiter.CapacityRefusalExactly | src/api_rate_limit.rs:251-282 | A capacity refusal happens exactly when the table is full of other identities all seen within the idle TTL, and changes nothing |
| RateLimiter.ApiRateLimiter.Check | src/api_rate_limit.rs:225-238 | A disabled policy admits everything and keeps no state; an enabled one does what the specification says and keeps the table valid |
| RateLimiter.ApiRateLimiter.CheckLocked | src/api_rate_limit.rs:240-289 | The step-by-step call refines the specification on tables |
| RateLimiter.ApiRateLimiter.ReserveLocked | src/api_rate_limit.rs:251-264 | Reclaiming only when full and inserting only when there is room refines the specification |
| RateLimiterRefinement.ReplenishesInSeconds | src/config.rs:7433-7477 | The condition of the refinement as an inequality, and for ordered times in the units of the configuration |
| RateLimiterRefinement.SimulatesCheck | src/api_rate_limit.rs:240-289 | Under the condition for disorder `d`, one call at most `d` behind the latest is matched by the unbounded limiter, or is a capacity refusal |
| RateLimiterRefinement.CompliantRunsAgree | src/api_rate_limit.rs:240-289 | Under the condition, whole runs out of order by at most `d` give the same answers from any two tables in simulation |
| RateLimiterRefinement.DrainDisagrees | src/api_rate_limit.rs:240-289 | Outside the condition, a constructed run, out of order by at most `d`, makes the bounded limiter forget a debt and answer differently |
| RateLimiterRefinement.BoundedMatchesUnboundedExactly | src/api_rate_limit.rs:225-289 | For every `d`, bounded and unbounded limiter agree on every run whose times are out of order by at most `d`, capacity refusals apart, if and only if every surface refills its burst in the least time a reclaimed bucket goes unused |
| RateLimiterRefinement.NoPolicyForAnyOrder | src/api_rate_limit.rs:233-237 | Whatever the policy, some run with times in any order makes the two disagree |
| RateLimiterRefinement.LimiterWindowBound | src/api_rate_limit.rs:240-289 | Under the condition, any window of the bounded limiter admits one identity at most the burst plus the rate times the clock's forward movement in it, however often it was reclaimed; with ordered times, times the window's length |
| RateLimiterRefinement.RetryIsHonoured | src/api_rate_limit.rs:178-183 | A client that waits as long as it was told, with nothing admitted on its bucket meanwhile, is not limited again, and is admitted if it is still tracked |
| RateLimiterAnswers.TrackedControl | src/api_rate_limit.rs:122-134 | A control call of a tracked identity refills its control bucket at the control rate up to the control burst, is admitted exactly with a whole token there, is otherwise told to wait a second, spends one token if admitted, and touches nothing else but the time last seen |
| RateLimiterAnswers.TrackedDiagnostics | src/api_rate_limit.rs:122-134 | The same for the diagnostics surface, at its own rate and burst |
| RateLimiterAnswers.TrackedWebhook | src/api_rate_limit.rs:122-134 | The same for the webhook surface, at its own rate and burst |
| RateLimiterAnswers.NewcomerExactly | src/api_rate_limit.rs:251-282 | A new identity is admitted with three full buckets beside all others if there is room, else beside those seen less than the idle TTL ago; if that leaves no room it is refused for the idle TTL, at most a minute |
| RateLimiterAnswers.CompliantInFields | src/config.rs:7433-7477 | The condition of the refinement for ordered times, surface by surface in the fields of the configuration |
| RateLimiterAnswers.WindowBoundInFields | src/api_rate_limit.rs:240-289 | The bound on a window for each surface at its own burst and rate |
| RateLimiterAnswers.LoneBucket | src/api_rate_limit.rs:240-289 | Under the condition, what an identity is admitted on a surface is what one token bucket of that surface alone admits at the times it asks, whatever the other traffic and however often the identity was reclaimed |
| Broadcasts.OneOwnerStep | src/api.rs:1453-1484 | Every atomic step keeps exactly one owner for each started broadcast: one handler, the registry, or the closed ones |
| Broadcasts.InsertIsFresh | src/api.rs:1617-1625 | The key of a broadcast about to be inserted is never in use |
| Broadcasts.NoTwoRemovers | src/api.rs:1781-1794 | No two handlers are ever responsible for closing the same broadcast, and none for one that is registered or closed |
| Broadcasts.GaugeStep | src/api.rs:662-692 | Every step keeps the gauge of each transport equal to the registry plus the changes that handlers still owe it |
| Broadcasts.EveryRunFromInit | src/api.rs:1453-1627 | From an empty registry, single ownership and the gauge balance hold after every interleaving of create, delete, prune and shutdown, with handlers dropped at their awaits |
| Broadcasts.GaugeAtRest | src/api.rs:1781-1794 | After every run from an empty registry that has come to rest, the gauge exceeds the registry by exactly the deletes whose close failed and the closes that were dropped |
| Broadcasts.OwnersAtRest | src/api.rs:1486-1627 | After every such run a started broadcast is registered, or closed, or was left behind by exactly one dropped handler |
| BroadcastOverrun.GaugeDrifts | src/api.rs:1781-1794 | A run for each of the two causes, from an empty registry, that rests with an empty registry and a gauge of one |
| Broadcasts.CapacityBound | src/api.rs:1486-1627 | With at most `n` creators past the capacity check at a time, registry and creators together never exceed the maximum plus `n - 1` |
| BroadcastOverrun.LeastCapacityBound | src/api.rs:1486-1627 | That bound is the least one that every run respects, for every maximum and every `n` |
| BroadcastHistory.RegisteredExactly | src/api.rs:1486-1627 | In every run a broadcast is registered if and only if a create handler started it, learned that its source was still current and inserted it, and since then neither a sweep of it nor a delete for its key by its own tenant came |
| BroadcastHistory.RejectedIsNeverRegistered | src/api.rs:1590-1615 | A broadcast whose source turned out not to be current is registered in no continuation |
| BroadcastHistory.SweptForGood | src/api.rs:1453-1484 | Whatever a sweep collected is out of the registry for good once the sweep has ended, whoever took it out |
| BroadcastHistory.RestExactly | src/api.rs:1781-1794 | A handler that returned does nothing more, a delete handler rests with the gauge uncorrected exactly when its close failed, and only a dropped handler leaves a broadcast behind |
| ConfigTree.FailsExactly | src/config.rs:6896-6915 | An override fails exactly when a proper prefix of its path holds something other than a mapping |
| ConfigTree.ReadsBack | src/config.rs:6896-6915 | What an override wrote is read back at its path |
| ConfigTree.LeavesOthersAlone | src/config.rs:6896-6915 | Every path that is neither above nor below it reads what it read before |
| ConfigTree.Commute | src/config.rs:6872-6894 | Overrides on incomparable paths commute and fail together |
| ConfigTree.OrderDoesNotMatter | src/config.rs:6872-6894 | Any two orders of pairwise incomparable overrides give the same tree or both fail |
| ConfigTree.ComparableOrderMatters | src/config.rs:6872-6894 | For a path at or below another, exactly when the order of the two writes is irrelevant: if the lower write succeeds on its own, when the upper value already holds the lower one; if it fails, when the upper write fails too or the lower one fails in the upper value |
| ConfigTree.SetYamlPath | src/config.rs:6896-6915 | The in-place walk refines the specification and leaves the tree as it was when it fails |
| ConfigTree.ApplyOverrides | src/config.rs:6872-6894 | The loop over the environment refines the fold of overrides, including its first failure |
| ConfigOverrides.LastWriteReadsBack | src/config.rs:6872-6894 | After a whole list of overrides, at and below the path of each one its own value is read, unless a later one is at, above or below that place |
| ConfigOverrides.SparedReadsAsBefore | src/config.rs:6872-6894 | A path incomparable with all of them reads what it read before |
| ConfigOverrides.ListFailsExactly | src/config.rs:6872-6894 | A list on pairwise incomparable paths fails if and only if in the tree it starts from a proper prefix of one of them holds something other than a mapping |
| ConfigOverrides.FailsAtFirst | src/config.rs:6872-6894 | Any list fails if and only if some override is blocked in the tree that those before it have made |
| ConfigTree.RedactsAlikeExactly | src/config.rs:6917-6956 | Two trees redact alike if and only if they differ only beneath sensitive keys |
| ConfigTree.RedactIsIdempotent | src/config.rs:6917-6956 | Redacting twice is redacting once |
| ConfigTree.RedactedAt | src/config.rs:6917-6956 | At every place outside sensitive keys the redacted tree holds the redaction of what was there; behind one there is the marker or nothing |
| ConfigTree.OverrideIsHidden | src/config.rs:5355-5363 | The value of an override through a sensitive segment cannot be told from the redacted tree |
| ConfigTree.RedactSecrets | src/config.rs:6917-6956 | The in-place walk over mappings and sequences refines redaction |
| ConfigOverrides.SensitiveExactly | src/config.rs:6921-6941 | A key is hidden if and only if it spells one of the sixteen credential names in any capitalization |
| ConfigOverrides.CredentialsAreHidden | src/config.rs:6942-6943 | Whatever stands under such a key is replaced by the marker |
| RecipeRoutes.BridgesAreExclusive | src/config.rs:5291-5336 | A bridge projects only into a process without a bound and configured tenant, and binds it |
| RecipeRoutes.ProjectsExactly | src/config.rs:4261-4361 | A list of recipes loads exactly when its instance names are valid and it holds no bridge, or one bridge that projects on its own; two bridges never load |
| RecipeRoutes.PostureReady | src/config.rs:5088-5189 | The projected listener has the TLS presence, SRTP policy and identity of the recipe's security, a Contact exactly for SIPS, and a template with the scheme of the security |
| RecipeRoutes.EndsAreInPlace | src/config.rs:2350-2480 | Whatever is configured explicitly, the ingress and destination profiles of a projected route exist and match the listener, its destination is allowlisted, and its correlation header is mapped |
| RecipeRoutes.OneProfileProjects | src/config.rs:2786-2882 | The principal projection of one recipe's profile succeeds exactly when its networks parse and no address lies in two of them |
| RecipeRoutes.AcceptedExactly | src/config.rs:2202-2321 | A load without explicit routes passes route validation exactly when it holds no bridge, or: the credentials are there, the default tenant is absent, configured or the bridge's own, the explicit tenants resolve, the instance name is at most 128 long, the destination and the attachments are valid, and no address lies in two trusted networks; accepted or not, it has one route for each bridge, with the tenant of `api.static_tenant` |
| RecipeOutcomes.LoadHonoursRecipe | src/config.rs:4261-4361 | A load with one bridge adds one route, its tenant and its profiles; the route leads to the Amazon instance of the ARN and the recipe's flow, or to its URI or target, with the same instance and flow in the tenant; its profile has the recipe's networks and security; a SIPS load listens where the TLS edge is bound with clear SIP on loopback, a clear one where the clear edge is bound; the template carries the public host and the bound port in decimal; and nothing configured explicitly changes |
| RecipeOutcomes.LoadWithoutBridge | src/config.rs:4261-4298 | A load without a bridge changes nothing but the switches of a worker |
| RecipeOutcomes.BareExactly | src/config.rs:4300-4361 | Into a configuration with nothing to collide with, a bridge projects if and only if its names are valid and the edge can serve both its ends |
| RecipeOutcomes.ProjectsAgain | src/config.rs:5060-5200 | With a recipe's own settings in place it projects again and makes the same of them |
| RecipeOutcomes.AcceptedIsServed | src/config.rs:2202-2321 | Every route of a configuration that validation accepts has its tenant configured, an ingress profile of that tenant that matches the listener and the template, an allowlisted destination, and its correlation header mapped, and the process has the surfaces and credentials for its role |
| RecipeOutcomes.AcceptedAgree | src/config.rs:2240-2262 | All SIP routes of an accepted configuration ask for the same security |
| RecipeRefusals.UnknownDefaultIsRefused | src/config.rs:5929-5933 | A load that succeeds with any default tenant, and is accepted exactly with none or the instance's own |
| RecipeRefusals.NestedNetworksAreRefused | src/config.rs:2836-2847 | A load that succeeds and is refused because one trusted network lies within another |
| RecipeRefusals.LongInstanceIsRefused | src/call_engine/domain.rs:92-103 | Loads that succeed, with names valid for a route, and are accepted exactly up to the length of a tenant name |
| RecipeProjector.BridgefuConfig.ApplyRecipes | src/config.rs:4261-4298 | The mutating load refines the specification; what it loads without explicit routes is accepted exactly when it was acceptable before; more than one bridge fails |
| RecipeProjector.BridgefuConfig.ProjectCompiledRecipe | src/config.rs:4300-4361 | The loop over bridges refines the fold of their projections |
| RecipeProjector.BridgefuConfig.ProjectSipAmazon | src/config.rs:4364-4655 | Check by check, with updates in between, the bridge succeeds exactly when it is allowed in the settings it started from, and makes the specified settings of them |
| RecipeProjector.BridgefuConfig.ProjectSipWebrtc | src/config.rs:4662-4757 | The same for SIP to WebRTC |
| RecipeProjector.BridgefuConfig.ProjectWebrtcSip | src/config.rs:4759-4920 | The same for WebRTC to SIP |
| RecipeProjector.BridgefuConfig.ProjectWebrtcAmazon | src/config.rs:4922-5050 | The same for WebRTC to Amazon Connect |
| RecipeProjector.BridgefuConfig.ProjectSipIngress | src/config.rs:5060-5200 | When it succeeds, a listener that fits the security is in place, with a Contact exactly for SIPS, and nothing but listener, switches and template has changed; it fails exactly on a collision or an unusable edge |
| RecipeProjector.BridgefuConfig.ProjectTls | src/config.rs:5089-5150 | The TLS branch keeps a configured listener only if it agrees with the edge, and fails on another SRTP policy of a running bridge |
| RecipeProjector.BridgefuConfig.InstallRoute | src/config.rs:5305-5336 | Route and tenant are inserted and the process is pinned to the tenant; it fails exactly when another tenant is pinned |
| ListenerCidr.OverlapExactly | src/config.rs:3320-3330 | The overlap test holds exactly when the two networks share an address |
| ListenerCidr.OverlapNests | src/config.rs:3320-3330 | Overlapping networks are nested |
| ListenerCidr.TruncHoldsTheSame | src/config.rs:2832-2835 | Clearing the host bits does not change which addresses a network holds |
| ListenerCidr.PrefixDecides | src/config.rs:3320-3330 | An address lies in a network if and only if it agrees with it in the first bits, as many as the prefix says |
| ListenerCidr.InstallCidrs | src/config.rs:2829-2849 | One profile's networks install exactly when all parse and none overlaps another, of this profile or an earlier one |
| ListenerCidr.InstallPrints | src/config.rs:2851-2873 | One profile's fingerprints install exactly when all are valid and no two agree up to case, with earlier ones included |
| ListenerCidr.ProjectPrincipals | src/config.rs:2786-2882 | The whole projection succeeds exactly when every tenant matches, everything parses, and networks and fingerprints are disjoint across all profiles; it then returns them all in order |
| ListenerCidr.ProjectionCarries | src/config.rs:2875-2880 | A projection carries its profile's name and identity, networks that hold the same addresses, and the fingerprints in lower case, in their order |
| ListenerCidr.PeerBecomes | src/config.rs:2824-2850 | After a successful projection an installed network of an identity holds an address if and only if a profile of that identity trusts the address |
| ListenerCidr.AddressDeterminesPrincipal | src/config.rs:2786-2882 | After a successful projection an address lies in at most one installed network, so it determines at most one principal |
| ListenerCidr.FingerprintDeterminesPrincipal | src/config.rs:3311-3318 | After a successful projection a fingerprint in any case matches at most one installed one |
| RtpPartition.PairCountIsExact | src/config.rs:3198-3214 | The computed number of pairs is the number of even and odd port pairs in the range |
| RtpPartition.PartitionRtpPortRange | src/config.rs:3190-3239 | The split succeeds exactly when there is a pair for every part; the parts tile the aligned range, start even, end odd, and differ by at most one pair; no checked conversion can fail |
| RtpPartition.CutSlices | src/config.rs:3221-3238 | The loop hands out consecutive parts that tile the pairs evenly |
| RtpPartition.SlicesAreDisjoint | src/config.rs:3187-3189 | Any two parts are disjoint and in order |
| RtpPartition.SlicesCover | src/config.rs:3187-3189 | Every port of the aligned range belongs to a part |
| RtpPartition.AssignMediaPorts | src/config.rs:1736-1786 | Listener and egress children follow one another, each with a whole pair at least and none with more than one pair more than another, share no port, and leave out of the configured range at most an odd first and an even last port; it fails exactly when there are more profiles than the stack can install, or not more pairs than profiles |
| CleanupAuthority.StepKeepsInvariant | src/amazon_cleanup.rs:178-248 | Every step of calls, passes, crashes and restarts keeps: passes hold no contact of a call that is not over, the periodic ones none of the second adapter, records are deleted only after a stop, and no running contact is forgotten but those without a record in a crash and those the second adapter could not stop |
| CleanupAuthority.EveryRun | src/amazon_cleanup.rs:1-6 | The same, and with a durable journal the authority, over every interleaving |
| CleanupAuthority.DurableAuthority | src/amazon_cleanup.rs:1-6 | In every reachable state with a durable journal, an acknowledged contact that still runs has its exact key in the journal, and its call, a pass or the failed set will still try to stop it unless the second adapter already failed to |
| CleanupAuthority.PassSparesLiveCalls | src/amazon_cleanup.rs:213-221 | No pass ever has a contact of a live call in hand: the startup pass only contacts of earlier incarnations, the periodic pass only contacts its own adapter gave up on |
| CleanupAuthority.JournalListsLiveCalls | src/amazon_cleanup.rs:216-221 | Why the periodic pass must not use the journal: it lists every call with media |
| CleanupAuthority.NextPassTakesUp | src/main.rs:782-786 | An acknowledged contact that outlives its call or a crash is in the listing of the next pass if and only if that is a startup pass or the contact is not of the second adapter |
| CleanupAuthority.SecondAdapterStrands | src/main.rs:690-700 | A run from the start in which a contact of the second adapter outlives its call, with its record, and the next pass does not list it |
| CleanupAuthority.StrandedUntilCrash | src/main.rs:782-786 | Such a contact runs on in every continuation without a crash, and no pass ever has it in hand |
| CleanupAuthority.RestartTakesUp | src/main.rs:628-631 | After a crash and a restart the startup pass lists every acknowledged contact that still runs, whichever adapter had it |
| CleanupAuthority.StartupReport | src/amazon_cleanup.rs:184-211 | At the end of the startup pass the records left are those listed less those it deleted, every acknowledged contact still running is in the failed set, and the reported counts add up exactly when successes and deletions are equally many |
| CleanupAuthority.MemoryLosesAuthority | src/amazon_cleanup.rs:111-113 | A run in which the in-memory journal loses the authority over a live call |
| CleanupAuthority.AuthorityExactlyWhenDurable | src/amazon_cleanup.rs:109-134 | The authority is held in every reachable state if and only if the journal outlives the process |
| CleanupHistory.RunningExactly | src/amazon_cleanup.rs:178-248 | In every run a contact runs if and only if it was started and no stop of it has succeeded since |
| CleanupHistory.JournalExactly | src/amazon_cleanup.rs:291-357 | In every run the journal holds a key if and only if it was written, at first or again after a failed stop, and since then neither a deletion went through nor a crash took the journal along |
| CleanupHistory.ReportExactly | src/amazon_cleanup.rs:184-211 | A pass reports as resolved exactly as many contacts as were reported to it as successes, and keeps the listing of its start |
| CleanupHistory.PassStarts | src/amazon_cleanup.rs:184-225 | A pass starts with nothing resolved, over the journal at startup and over the failed set later |
| CleanupHistory.DeletedForGood | src/amazon_cleanup.rs:325-357 | Once its call has deleted the record of a stopped contact, no record of it comes back and no pass of any incarnation takes it up |
| CleanupHistory.PassDeletedForGood | src/amazon_cleanup.rs:188-231 | The same for a record that a pass deleted |
| CleanupAuthority.AmazonCleanupJournal.Retain | src/amazon_cleanup.rs:291-323 | Retaining adds the key, once, also if only the reply is lost; a refusal changes nothing; success is reported only with the record in place |
| CleanupAuthority.AmazonCleanupJournal.Resolve | src/amazon_cleanup.rs:325-357 | Resolving removes its own key and no other, also if only the reply is lost; a refusal changes nothing; success is reported only with the record gone |
| ObserverStore.StepKeeps | examples/vapi_feasibility_observer.rs:487-690 | Every locked section keeps sessions pointing to live attempts with an INVITE, no two to one attempt, and attempts and callback types within their limits |
| ObserverStore.RunKeeps | examples/vapi_feasibility_observer.rs:457-1121 | The same over every run of locked sections |
| ObserverStore.OneInvitePerLifetime | examples/vapi_feasibility_observer.rs:570-581 | Once an attempt has its INVITE or has ended, no INVITE for its correlation is accepted before its creation time plus the TTL |
| ObserverStore.BindingPersists | examples/vapi_feasibility_observer.rs:1099-1121 | Before its TTL is over an attempt is still there, and its bound case and call are unchanged |
| ObserverStore.RunEvolves | examples/vapi_feasibility_observer.rs:1480-1504 | Between any two moments of a run a correlation is the same attempt with nothing taken back, or the old one lived its full TTL and any new one was created after it |
| ObserverStore.SecondSectionExactly | examples/vapi_feasibility_observer.rs:995-1054 | The second section of a hang-up or cleanup finds, in every run, the attempt its first section saw exactly when it comes before that attempt's TTL is over |
| ObserverStore.AnotherAttempt | examples/vapi_feasibility_observer.rs:1047-1053 | Later than that, a run from its first section on in which it ends another attempt of the same correlation |
| ObserverStore.CleanedHandleExactly | examples/vapi_feasibility_observer.rs:625-634 | For the rest of its lifetime a cleaned attempt stays ended and without a session, and holds a handle exactly when its last establishment is later than the last cleanup or shutdown that began, or was already there when its cleanup was done |
| ObserverStore.LateEstablishment | examples/vapi_feasibility_observer.rs:1027-1053 | A run from the empty store after which a cleaned attempt holds a handle |
| ObserverHistory.LifetimeRecords | examples/vapi_feasibility_observer.rs:570-690 | In every run within its lifetime an attempt records exactly what happened to it: ended, hang-up asked for before the end, the other side hung up if a session finished unasked, this side if one finished after asking or a hang-up was done or asked for after the end, failure, answer, cleanup, the headers of the one accepted INVITE, and case, call, kinds and last reason of the callbacks that agree with the first |
| ObserverHistory.SessionsExactly | examples/vapi_feasibility_observer.rs:570-690 | In every run from the empty store a session points to an attempt if and only if its INVITE was accepted for it, and since then the session has not finished, the attempt was not cleaned up or removed as expired, and no other INVITE took the session |
| ObserverHistory.EnsuredExactly | examples/vapi_feasibility_observer.rs:487-504 | Finding or creating an attempt leaves exactly the live ones unchanged, and adds a fresh one exactly when there was none and fewer than the maximum are live |
| ObserverStore.Store.ReapExpired | examples/vapi_feasibility_observer.rs:1480-1504 | The removal loop, in any order, leaves exactly the attempts within their TTL and the sessions not pointing to expired ones |
| ObserverStore.Store.EnsureAttempt | examples/vapi_feasibility_observer.rs:487-504 | Reap, then find or create within capacity; refused exactly when there is then no attempt |
| ObserverStore.Store.OnIncomingCall | examples/vapi_feasibility_observer.rs:545-582 | Accepts exactly when the attempt has seen no INVITE and has not ended, and keeps the invariant |
| ObserverStore.Store.FinishSession | examples/vapi_feasibility_observer.rs:668-690 | Closes the session and ends its attempt, recording which side hung up, and keeps the invariant |
| ObserverStore.Store.CleanupAttempt | examples/vapi_feasibility_observer.rs:1047-1053 | The last section of a cleanup removes the attempt's sessions and ends it, and keeps the invariant |
| ObserverStore.Store.VapiEvent | examples/vapi_feasibility_observer.rs:1099-1121 | Binds exactly when capacity allows and the attempt is unbound or bound the same way, and keeps the invariant |
| MarkerDetectors.CapHides | examples/vapi_feasibility_observer.rs:1518-1550 | A detector that truncates to any limit of at least 12000 samples answers, for every sequence of frames, like one that keeps all samples since the last change of rate |
| MarkerDetectors.InvisibleExactly | examples/vapi_feasibility_observer.rs:50-50 | Truncation is invisible for every listener and every sequence of frames if and only if the limit is at least 12000; the program's 32000 is |
| MarkerDetectors.ListensExactly | examples/vapi_feasibility_observer.rs:1518-1539 | After a mono frame of 8 to 48 kHz the detector listens exactly if a tenth of a second was heard since the last change of rate, and then to the last quarter of a second of it or all there is; after any other frame it reports nothing |
| MarkerDetectors.MarkerDetector.Observe | examples/vapi_feasibility_observer.rs:1518-1550 | The buffer is always the latest part of the samples since the last change of rate, and the answer is that of the whole history |
| CanonicalJson.CanonicalDecidesOrder | src/api.rs:1265-1282 | Canonical forms are equal exactly when the values are equal up to the order of object members at every depth |
| CanonicalJson.CanonicalIsCanonical | src/api.rs:1265-1282 | The canonical form is sorted throughout and loses nothing but the order |
| CanonicalJson.BeforeExactly | src/api.rs:1271-1272 | One key sorts before another if and only if it ends first or has the smaller code point where they first differ |
| CanonicalJson.CanonicalIsIdempotent | src/api.rs:1265-1282 | Canonicalizing twice is canonicalizing once |
| ProviderDigest.PreimageInjective | src/api.rs:1284-1292 | The digest preimage determines its kind and its value |
| ProviderDigest.PayloadDigestSeesUpToOrder | src/api.rs:1233-1242 | Two payloads have the same digest preimage exactly when they are equal up to member order |
| Framing.FramesInjective | src/api.rs:996-999 | Length-prefixed fields can be recovered, whatever their number and contents |
| Framing.RatePreimageSees | src/api.rs:988-1001 | The rate key sees tenant, subject and issuer, but not whether an empty issuer is absent |
| Framing.RatePreimageInjective | src/api_principal.rs:117-143 | On validated principals the rate key is one to one |
| Framing.AbsentAndEmptyIssuerCollide | src/api_principal.rs:124-128 | Without the rejection of empty issuers two principals would share a rate key |
| Framing.LegacyIsNoPrincipal | src/api.rs:1003-1005 | The legacy rate key is no principal's |
| Framing.PrincipalRateIdentity | src/api.rs:988-1001 | Feeding domain and components one after the other builds the specified preimage |
| Framing.FingerprintInjective | src/api_principal.rs:309-335 | The ownership fingerprint preimage tells all bounded principals apart, even an absent from an empty issuer |
| Framing.BroadcastPreimagesSee | src/api.rs:1980-2021 | The idempotency preimage sees exactly tenant and key, the request preimage exactly tenant, operation, resource and body, and no preimage of one kind is one of the other |
| Framing.CorrelationSees | examples/vapi_feasibility_observer.rs:1269-1278 | Two validated requests have the same NUL-separated correlation preimage exactly when they agree in nonce, case and hang-up origin |
| FramingReads.RateReads | src/api.rs:988-1001 | A reader of the layout finds in the rate key's preimage its domain, then issuer or nothing, tenant and subject behind 8-byte big-endian lengths |
| FramingReads.FingerprintReads | src/api_principal.rs:309-335 | In the ownership fingerprint's: its domain, a tag, the issuer if the tag is one, tenant and subject behind 4-byte lengths |
| FramingReads.IdempotencyReads | src/api.rs:2000-2006 | In the idempotency digest's: its domain, tenant and key |
| FramingReads.RequestReads | src/api.rs:2007-2017 | In the request digest's: its domain, tenant, operation, resource and body |
| FramingReads.WebhookReads | src/api.rs:1284-1292 | In a webhook digest's: its domain, kind and value |
| FramingReads.CorrelationReads | examples/vapi_feasibility_observer.rs:1269-1278 | In the correlation's: nonce, case and hang-up origin between NULs |
| Bearer.RoundTrip | src/api_principal.rs:257-282 | Every key the static validator accepts, sent as one header under any casing of the scheme, parses back to itself |
| Bearer.ParsesExactly | src/api.rs:1007-1028 | A key is parsed exactly when it meets the validator's rules and the one header presents it; both parsers agree; a missing credential is reported exactly for no header |
| SipsUris.Complete | examples/vapi_feasibility_observer.rs:1434-1448 | Every well-formed SIPS URI is accepted, and the extractor returns exactly its host |
| SipsUris.Sound | examples/vapi_feasibility_observer.rs:1384-1425 | Every accepted text is the rendering of a well-formed URI |
| SipsUris.AcceptsExactly | examples/vapi_feasibility_observer.rs:1384-1448 | The validator accepts exactly those renderings, and the extractor returns the host that was checked, never empty, for bracketed IPv6, host with port and bare host |

## Left out

- TokenBuckets.TokenBucket.Admit: computes with exact billionths of a token, so the rounding of `f64` in the program is not modelled.
- Broadcasts.EveryRunFromInit: treats the registry's length as read at once, while a listing is collected entry by entry; clustered broadcasts are not modelled, random keys are taken to be fresh, and a broadcast that a dropped handler leaves behind is not followed further.
- ConfigTree.ApplyOverrides: starts from paths already split from their environment names; YAML parsing, tags and the order of mapping entries are not modelled.
- RecipeRoutes.AcceptedExactly: socket addresses, networks, host names, ARNs, origins, endpoint URIs and the rest of a template behind its user part are checked by functions it takes as given; codecs, metadata keys and Amazon start attributes are left out, and the recipe catalog and its compiler are not part of this model. Validation of named profiles and of the rest of the configuration is separate from route validation and left out.
- CleanupAuthority.EveryRun: the Amazon adapter appears by its contract only, and a process with one adapter is one that starts no contact on the second. The two reconcilers are threads of the state machine instead of loops, because calls run at each of their awaits; rows that no longer parse are not modelled.
- ObserverStore.RunKeeps: reads one time for each locked section; the media flags (marker, DTMF, return audio, attachment TTL) and the `stopping` check before the lock are left out, because they would add only easy members. The sections of hang-up, establishment and shutdown are steps of the state machine without a method of their own; the first section of an establishment, which only looks its session up, is left out, so an establishment may come at any time.
- RtpPartition.AssignMediaPorts: the signalling stack's limit on egress children is a parameter.
- MarkerDetectors.MarkerDetector.Observe: loudness and tone powers are a parameter.
- SipsUris.AcceptsExactly: whether a text is an IPv6 address is a parameter.
- Framing.FingerprintInjective: injectivity is of the preimages; collisions of SHA-256 and HMAC are outside the model.
- ProviderDigest.PayloadDigestSeesUpToOrder: JSON serialization is a parameter that tells different canonical values apart.
- Mutex poisoning, metrics, logging and HTTP plumbing.
- The call engine, the call service and the repositories: a large part of the program with its own state machines, which this project does not model.
- Media and signaling stacks, which live in other crates.
- Scalar configuration validation, tenants' attribute mappings and provider adapters: many members, each of one branch.
- Public-host rules of the observer's deployment mode.
