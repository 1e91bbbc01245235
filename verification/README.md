# Verified model of adapter-k8s

adapter-k8s builds a Next.js application into Docker images and a Helm chart, and serves it from a
routing tier in front of pools of Node servers, a Go asset cache and a shared cache. This project
models the parts of it whose correctness is not visible from one function body, and proves it.

The modules, one a file:

- **The dispatch proof.** `ProofFraming`, `WireHeaders`, `HeaderNames`, `HeaderVocabulary`,
  `DispatchProof`, `DispatchCredential` and `DispatchVerify`: the transcript of routing inputs that
  the edge signs, the two ways of reading repeated headers, the credential's text, the pool's verdict.
  `Decimal`, `Strings` and `Ascii` hold what JavaScript does to numbers and text.
- **The regular-expression hazard walker and the 32-bit hash.** `RegexHazard`, `LegacyHash`.
- **Shared pool image factoring.** `FileTree`, `EmptiedDirectories`, `PoolFactoring` for what is moved;
  `DigestScheduler` for the workers and the hand-written semaphore as a step system; `PoolInspection`
  joins the two.
- **Fenced cluster protocols.** `RetentionExpiry` (the standby cleaner against promotions) and
  `CacheIdentity` (deploy hosts claiming one paid cache), each a transition system with any
  interleaving and crashes; `RetentionExpiryOutcome` and `CacheIdentityOutcome` say exactly what one
  run comes to when nobody else moves.
- **The Go middle cache.** `Recency` (the cache as a value), `FileCache` (the class over a map and a
  list), `MiddleCacheServing` (concurrent requests behind two counting semaphores),
  `MiddleCacheContent` (what each of them is answered), `MiddleCacheRequests` (every way one of them
  can go, undisturbed).
- **Parsing, paths and worklists.** `CacheControl`, `CacheControlText`, `CacheControlGrammar`,
  `CacheFreshness` and `CacheFreshnessText`; `Paths` and `AssetStaging`; `PackageStaging`;
  `RedirectRetry`, `RedirectLocales`, `RedirectAnswers` and `RequestPreparation`;
  `PoolClassification` and `PoolAssignment`.

Code that works in steps is a method proved against a function; the results are then lemmas about
that function, or about every run of a step system. Octets are characters below 256. The MAC, the
digests, the glob match, the locale choosers and the percent-decoder are parameters; where a result
needs one of them to be collision-free, it says so about the values at hand and nothing more.

Where the code differs from its comments, or from what a reader might expect, the model follows the
code:

- `src/routing-common.ts:2527-2547` calls the hash djb2-xor; the loop adds.
- `src/retention-expiry.ts:89-90` says the Deployments are captured before the state and traffic
  guards; the code reads the state first (line 62), then the Deployments, then the traffic guards, and
  reads the state again before each patch (line 127). The theorem holds of that order.
- `src/manifest.ts:62-88` adds `/` as an alias of `/index`, but the alias does not inherit the pool of
  `/index`: `PoolAssignment.RootAliasFallsToFirstPool` proves where it goes.

## Model

| member | source | states |
|---|---|---|
| `ProofFraming.UnframeFrame` | src/routing-common.ts:657-665 | a decoder takes back exactly one framed field, absent kept apart from empty, whatever octets the value holds or follow it |
| `ProofFraming.UnframeManyFrameAll` | src/routing-common.ts:657-665 | the decoder inverts the framing of any number of fields |
| `ProofFraming.FrameAllUniquelyDecodable` | src/routing-common.ts:638-665 | framed field lists of one length are equal when one is a prefix of the other: no field can impersonate a delimiter |
| `DispatchVerify.Hmac.UpdateProofField` | src/routing-common.ts:657-665 | one call absorbs exactly the frame of its value after everything absorbed before |
| `DispatchVerify.AbsorbPairs` | src/routing-common.ts:723-726 | the loop absorbs name, value, name, value in canonical name order, an unset header as absent |
| `DispatchVerify.ComputeDispatchProof` | src/routing-common.ts:711-728 | the credential built by successive updates is the one whose MAC is over the whole transcript |
| `DispatchProof.DecodeInvertsTranscript` | src/routing-common.ts:711-728 | a decoder recovers every covered input from a transcript, for any inputs and whatever follows |
| `DispatchProof.TranscriptUniquelyDecodable` | src/routing-common.ts:685-728 | two inputs share a transcript if and only if every covered input agrees (method and authority up to ASCII case, mint time truncated), and no transcript is a proper prefix of another |
| `DispatchProof.CoveredNamesCanonical` | src/routing-common.ts:339-347 | the covered-name list is sorted, holds exactly the vocabulary and the build names, and depends only on the set of names |
| `HeaderNames.SortUniqueCorrect` | src/routing-common.ts:339-347 | sorting a set of names gives a strictly increasing list with the same elements |
| `HeaderNames.SortUniqueDependsOnSet` | src/routing-common.ts:339-347 | two name lists sort to the same list if and only if they have the same elements |
| `WireHeaders.CoalesceWireHeaderBytes` | src/routing-common.ts:409-425 | repeated lines coalesce to the first value (singletons), or to the join with the separator of the name; no line is absence |
| `WireHeaders.CoalesceByName` | src/routing-common.ts:409-425 | Cookie lines join with a semicolon, Host and its like keep the first line, any other name joins with a comma, in any letter case |
| `WireHeaders.NodeRecordHolds` | src/routing-common.ts:348-396 | what Node's record holds after any number of lines: nothing, an array for set-cookie, the first value of a singleton, or the join |
| `WireHeaders.NodeAgreesWithEdge` | src/routing-common.ts:397-444 | octet for octet, the pool's reading of Node's joined record equals the signer's coalescing of the raw lines, for every name and any lines |
| `DispatchVerify.PoolInputsAreSignerInputs` | src/routing-common.ts:750-776 | the inputs the pool collects from a parsed request are those the signer covered on the wire |
| `DispatchCredential.UnhexOfHex` | src/routing-common.ts:611-623 | hex decoding inverts hex encoding for any octets |
| `DispatchCredential.ParseOfCredential` | src/routing-common.ts:611-623 | parsing a credential gives back the mint time and the body digest it was made with |
| `Decimal.RenderOfValue` | src/routing-common.ts:616-620 | printing a parsed digit string gives it back if and only if it has no leading zero |
| `Decimal.ValueOfRender` | src/routing-common.ts:620 | reading a printed integer gives it back |
| `DispatchVerify.VerdictCharacterised` | src/routing-common.ts:834-869 | every verdict other than malformed and mismatch is returned if and only if the presented text is the one authentic credential for some mint time and digest, and the letters of the method and the two-sided window give that verdict |
| `DispatchVerify.LeadingZeroRefused` | src/routing-common.ts:856-858 | a timestamp with a leading zero is never trusted, whatever the MAC |
| `DispatchVerify.HonestProofVerifies` | src/routing-common.ts:711-869 | a credential minted from raw field lines is, at the pool that receives the request, body-unexpected if and only if it binds a digest to a GET or HEAD in any letter case; else stale or premature if and only if its age is past the window; else trusted, and it yields the digest of the signer |
| `DispatchVerify.MissingLineIsGetRoot` | src/routing-common.ts:767-769 | a request without method or target is read as `GET /` |
| `DispatchCredential.ParsesIff` | src/routing-common.ts:611-623 | a text parses if and only if it spells v3, one to fifteen digits, a dash or 64 lower-case hex digits, and 64 more, joined by dots, and it parses to what it spells |
| `DispatchCredential.CredentialSpelled` | src/routing-common.ts:713-727 | the credential a signer presents, part by part |
| `DispatchProof.TranscriptIsTagged` | src/routing-common.ts:716 | every transcript is the domain tag of its version and then nothing but the framed fields |
| `DispatchProof.TruncTowardsZero` | src/routing-common.ts:713 | the mint time is truncated towards zero |
| `DispatchVerify.TrustBindsCoveredInputs` | src/routing-common.ts:834-869 | whatever text is presented around the tag of a signer, trust implies that the text is the unedited credential of that signer, that pool and signer agree on every covered input and that the age is inside the window, if the MAC does not collide on the two transcripts |
| `RegexHazard.QuantifiedGroupHazard` | src/routing-common.ts:977-1034 | on the text of any well-formed expression the walker returns the hazard of the first group, in closing order, that is repeated and contains a quantifier or else an alternation |
| `RegexHazard.WalkLoop` | src/routing-common.ts:985-1033 | the loop over the group stack computes the recursive walk |
| `RegexHazard.WalkerMeetsSpecification` | src/routing-common.ts:977-1034 | the walk over rendered text equals the definition by recursion over the syntax tree, for every tree |
| `RegexHazard.QuantifierInRepeatedGroup` | src/routing-common.ts:995-1033 | literal texts: a group repeated by a star, a plus or braces round a quantified character is hazardous, with or without a prefix or a lazy mark, and an optional group is not |
| `RegexHazard.AlternationInRepeatedGroup` | src/routing-common.ts:986-1033 | literal texts: a bar between branches of a repeated group is an alternation hazard; escaped characters and class members count for nothing, whichever they are |
| `RegexHazard.WalkPattern` | src/routing-common.ts:985-1033 | walking a disjunction inside any open groups has the hazard of its tree, or adds exactly its alternation and quantifier to the innermost group |
| `RegexHazard.NoHazardMeansNoHazardousGroup` | src/routing-common.ts:960-1034 | the verdict is empty if and only if no group at any depth is hazardous |
| `LegacyHash.Hash` | src/routing-common.ts:2542-2546 | the int32 loop computes 5381 * 33^n + the sum of c_i * 33^(n-1-i) modulo 2^32 |
| `LegacyHash.StepIsExact` | src/routing-common.ts:2544 | for an int32 hash and a code unit every sum before the mask is below 2^53 in magnitude, hence exact |
| `LegacyHash.PolynomialSnoc` | src/routing-common.ts:2543-2545 | one more code unit is one Horner step of the polynomial |
| `LegacyHash.StepModulo` | src/routing-common.ts:2544 | the shifted and wrapped step agrees with the plain one modulo 2^32 |
| `LegacyHash.Value36OfToString36` | src/routing-common.ts:2546 | the base-36 text loses nothing of the hash |
| `LegacyHash.ComputeLegacyRscCacheBustingParam` | src/routing-common.ts:2534-2547 | the parameter is the first five base-36 digits of that residue, and empty when there is no input |
| `EmptiedDirectories.EmptyIffHollow` | src/pool-image-layout.ts:100-112 | when its turn comes in a deepest-first sweep, a directory is empty if and only if only recorded directories were beneath it |
| `EmptiedDirectories.RemoveEmptiedDirectories` | src/pool-image-layout.ts:100-112 | the rmdir loop, in any deepest-first order, removes exactly the recorded directories with nothing but recorded directories beneath |
| `EmptiedDirectories.SweepIsSafe` | src/pool-image-layout.ts:100-112 | files, symlinks and unrecorded directories are untouched |
| `EmptiedDirectories.SweepIsComplete` | src/pool-image-layout.ts:100-112 | a recorded directory survives if and only if some entry beneath it survives |
| `PoolFactoring.FactoringPreservesContents` | src/pool-image-layout.ts:135-275 | the three layers under a pool's leftover give exactly its original files and links, bytes and mode, for every pool, if no two files at one path collide in digest |
| `PoolFactoring.FactoringPreservesDirectories` | src/pool-image-layout.ts:90-112 | every directory of a pool is still there or is an ancestor of a moved file |
| `PoolFactoring.LayersAndLeftoversAreDisjoint` | src/pool-image-layout.ts:212-217 | no path is in two layers, nor in a layer and a leftover |
| `PoolFactoring.CountShared` | src/pool-image-layout.ts:212-237 | the counters are the exact numbers of files and bytes moved, in total and per layer, and the layers add up |
| `PoolFactoring.ImageStage.InspectPath` | src/pool-image-layout.ts:187-201 | a path is kept for moving if and only if it is a regular file in every pool with equal size, mode and digest |
| `PoolFactoring.ImageStage.Inspect` | src/pool-image-layout.ts:185-206 | inspection finds exactly the paths to be moved |
| `PoolFactoring.ImageStage.MoveShared` | src/pool-image-layout.ts:254-267 | renames and unlinks, in any order, leave each pool without the shared files and the layers holding the copy of the first pool |
| `PoolFactoring.ImageStage.SweepContexts` | src/pool-image-layout.ts:269-273 | every context is swept of the ancestors of moved files |
| `PoolFactoring.ImageStage.FactorSharedPoolFiles` | src/pool-image-layout.ts:139-275 | the whole run: fewer than two pools is an error that changes nothing; otherwise base and pools are the layers and the leftovers, with exact counters |
| `PoolFactoring.SharedIff` | src/pool-image-layout.ts:187-201 | a path is moved if and only if it is a regular file in every pool and any two pools agree on size, mode and digest |
| `PoolFactoring.LayersByPath` | src/pool-image-layout.ts:76-88 | the dependency layer holds exactly the shared paths with a node_modules segment and the three named files, the fetch-cache layer the other ones strictly below the seed directory, the content layer the rest |
| `PoolFactoring.CountsByPath` | src/pool-image-layout.ts:214-236 | the counters count exactly those sets of files and their bytes |
| `PoolFactoring.LeftoverDirectories` | src/pool-image-layout.ts:90-112 | a directory is gone if and only if it held a moved file and nothing beneath it is left |
| `DigestScheduler.StepKeeps` | src/pool-image-layout.ts:170-206 | every step of every worker and digest keeps the queue, the semaphore count, the launched digests and the results sound |
| `DigestScheduler.StepProgresses` | src/pool-image-layout.ts:170-206 | every step lowers a measure, also when a woken digest finds its slot taken and queues again |
| `DigestScheduler.NoDeadlock` | src/pool-image-layout.ts:173-184 | while a worker has not exited, some step is enabled: no wake-up is lost |
| `DigestScheduler.EveryRunIsSafeAndFinite` | src/pool-image-layout.ts:170-206 | in any schedule at most 64 digests are active, no path is inspected twice, and the run is bounded |
| `DigestScheduler.EveryMaximalRunFindsTheSharedPaths` | src/pool-image-layout.ts:185-206 | a schedule that cannot continue has inspected every path once and found the same shared set, whatever the schedule |
| `PoolInspection.InspectionFindsSharedPaths` | src/pool-image-layout.ts:166-206 | that set is exactly the set of paths factoring moves |
| `RetentionExpiry.StepKeepsInv` | src/retention-expiry.ts:49-145 | every step of the cleaner, of promotions and of other writers keeps the fence around guarded traffic |
| `RetentionExpiry.FenceStaysBroken` | src/retention-expiry.ts:129-135 | once a listed Deployment has changed, the uid and resourceVersion tests never pass again, even after deletion and re-creation |
| `RetentionExpiry.FlipBreaksFence` | src/retention-expiry.ts:48 | a promotion that may flip a selector has already changed every listed Deployment of its build that looked expired |
| `RetentionExpiry.TrafficStaysFenced` | src/retention-expiry.ts:97-103 | traffic found current stays fenced: a guarded Service that moves selects no listed, expired, still unchanged Deployment |
| `RetentionExpiry.SuccessfulPatchIsSafe` | src/retention-expiry.ts:104-143 | in every interleaving a successful scale-to-zero hits an expired Deployment of the previous build that no open promotion has renewed and that neither the origin Service nor a current stable Service selects, previous and current being those of the state the cleaner read |
| `RetentionExpiry.SuccessfulPatchHitsExpiredStandby` | src/retention-expiry.ts:104-135 | in every run a successful scale-to-zero hits a running, undeleted Deployment of the release, named and labelled for the previous build, whose own marker names that build and has run out, and which no autoscaler targeted when they were read after it was listed; just before, the state was still the one first read |
| `RetentionExpiry.FinishedRunLeavesNoExpiredStandby` | src/retention-expiry.ts:104-143 | a run that goes through its list has scaled every expired standby on it, unless an autoscaler owned it or somebody changed it |
| `RetentionExpiry.CountIsExact` | src/retention-expiry.ts:104-144 | the number returned is the number of Deployments scaled |
| `RetentionExpiryOutcome.LoneCleanerOutcome` | src/retention-expiry.ts:49-145 | in a cluster that stands still a run can end in exactly one way: 0 and no change without a previous build, without pools or with traffic elsewhere; an error for an unsafe build id; otherwise exactly the expired standbys no autoscaler targets are at zero, counted |
| `RetentionExpiryOutcome.LoneRunIsRun` | src/retention-expiry.ts:49-145 | a lone run is one of the runs in which anybody may move, so the results about those are about it too |
| `RetentionExpiryOutcome.RenewalDefeatsPatch` | src/retention-expiry.ts:129-141 | a promotion may renew the Deployment about to be patched, and then the patch changes nothing and is not counted |
| `RetentionExpiry.CommitIsFenced` | src/cutover/run.ts:214-232 | a topology committed after its flips brings only Services under guard that select no listed, expired, still unchanged Deployment |
| `RetentionExpiry.SuccessfulPatchSparesLiveTraffic` | src/retention-expiry.ts:126-135 | when topologies are committed only after their flips, a successful scale-to-zero hits no Deployment that the origin Service or a stable Service of the live state selects, also if that state was committed after the last read |
| `CacheIdentity.CreationIsSound` | src/cli/cache-identity.ts:134-169 | creating the claim succeeds only when there is none, and keeps every other run sound |
| `CacheIdentity.IntentIsSound` | src/cli/deploy.ts:1568-1577 | recording intent writes the claimed coordinates and never replaces coordinates already there |
| `CacheIdentity.StepKeepsInv` | src/cli/deploy.ts:1396-1596 | every step of every run on every host, crashes included, keeps all runs and calls sound, a claim standing and recorded coordinates in place |
| `CacheIdentity.OnePaidIdentity` | src/cli/deploy.ts:1563-1596 | over any history all provider calls ever made use the claimed project and region, so they agree, and the infrastructure file of each caller already holds them |
| `CacheIdentity.ClaimStands` | src/cli/cache-identity.ts:99-169 | a claim once made is never replaced |
| `CacheIdentity.LoserNeverCalls` | src/cli/cache-identity.ts:84-97 | a run whose plan is not the claimed identity never holds the claim, hence never calls the provider |
| `CacheIdentity.PendingUntilVerified` | src/cli/deploy.ts:1568-1596 | the coordinates of a first provision stay marked pending in the file of the host until a run on that host has verified the endpoint |
| `CacheIdentityOutcome.LoneRunOutcome` | src/cli/deploy.ts:1396-1596 | a run that nobody disturbs can finish if and only if the claim is free or its own plan and its file names that cache or none; then it leaves the claim, one call, and a file without the pending mark |
| `CacheIdentityOutcome.RaceIsSettledByReadingBack` | src/cli/cache-identity.ts:134-169 | a run that loses the race for the claim object goes on when the winner claimed its own plan |
| `CacheIdentityOutcome.FirstDeployProvisions` | src/cli/deploy.ts:1396-1596 | a first deploy is a history that ends provisioned |
| `Recency.EvictKeepsLongestPrefix` | docker/middle-cache/main.go:101-106 | eviction keeps the longest most-recent prefix that leaves room, so it drops the shortest least-recent suffix |
| `Recency.BoundsInNumbers` | docker/middle-cache/main.go:31-33 | the bounds are 64 MiB and 4096 entries |
| `Recency.BackIsNeverCalledOnEmpty` | docker/middle-cache/main.go:101-106 | the loop makes room before the list is empty if and only if the file alone fits the cache |
| `Recency.InsertWithinBounds` | docker/middle-cache/main.go:95-109 | insertion keeps both bounds and distinct ids, and puts a new file first |
| `Recency.TouchPermutes` | docker/middle-cache/main.go:85-93 | a hit only reorders the files |
| `FileCache.Cache.Get` | docker/middle-cache/main.go:85-93 | a lookup hits if and only if the id is held, returns the held file and moves it to the front |
| `FileCache.Cache.RemoveBack` | docker/middle-cache/main.go:102-105 | one eviction drops the last element from list, map and size together |
| `FileCache.Cache.PushFront` | docker/middle-cache/main.go:107-108 | a new element enters list, map and size together, at the front |
| `FileCache.Cache.Put` | docker/middle-cache/main.go:95-109 | the method refines insertion into the recency sequence: map and list stay in bijection, size is exact, both bounds hold |
| `FileCache.InsertKeepsFill` | docker/middle-cache/main.go:160-166 | every cached file stays the fill of its own id |
| `FileCache.Serve` | docker/middle-cache/main.go:111-180 | over an unchanging disk whatever is served is the file's bytes, under its own ETag or none; a held file is served with its ETag and moves to the front; a file read whole is inserted when at most 1 MiB; every other path, the saturated one included, leaves the cache alone |
| `FileCache.ContentIff` | docker/middle-cache/main.go:122-139 | a file is found for an id if and only if the inventory names a regular file for it |
| `MiddleCacheServing.StepKeepsInv` | docker/middle-cache/main.go:111-180 | every channel, mutex or I/O step of any request keeps token counts exact and cache and buffers bounded |
| `MiddleCacheServing.ServingIsBounded` | docker/middle-cache/main.go:112-159 | in every interleaving at most 64 requests are admitted, at most 4 read, and cache plus responses in flight hold at most 64 MiB + 64 * (1 MiB + 1) |
| `MiddleCacheServing.AllTokensReturn` | docker/middle-cache/main.go:114-178 | once all requests have finished no token is out |
| `MiddleCacheServing.RequestFinishes` | docker/middle-cache/main.go:111-180 | in any interleaving a request takes a bounded number of turns and has then finished; no other request moves it |
| `MiddleCacheContent.RequestCanProceed` | docker/middle-cache/main.go:114-178 | an unfinished request always has a step of its own, whatever the others hold |
| `MiddleCacheContent.StepKeepsContent` | docker/middle-cache/main.go:111-180 | over an unchanging disk every step keeps cached files and request buffers those of their own ids |
| `MiddleCacheContent.EveryResponseIsTheAsset` | docker/middle-cache/main.go:128-179 | in every interleaving what a request is sent is the bytes of its own asset, under the ETag of that asset or none |
| `MiddleCacheContent.SecondFillChangesNothing` | docker/middle-cache/main.go:95-100 | the second of two concurrent fills of one id leaves the cache as it is and is still answered in full |
| `MiddleCacheRequests.UninterruptedRequest` | docker/middle-cache/main.go:111-180 | a request that nobody disturbs can end in a state if and only if that state holds one of the stated answers (exhausted, an error, a hit, the plain stream, the file under its ETag) with the cache that answer leaves, every token back and every other request untouched |
| `CacheControl.SplitMembers` | src/cache-control.ts:18-37 | the quote-aware loop splits at exactly the commas outside quoted strings |
| `CacheControl.FindClosingQuote` | src/cache-control.ts:54-64 | the inner loop finds the quote that closes the string, or none |
| `CacheControl.ReadMember` | src/cache-control.ts:40-71 | one member contributes its directive, or nothing when malformed |
| `CacheControl.ParseCacheControlDirectives` | src/cache-control.ts:17-74 | the two loops compute the directive list |
| `CacheControl.MembersOfConcat` | src/cache-control.ts:23-37 | when the quote scan of a value ends unquoted, splitting it joined to another value is splitting both |
| `CacheControl.ParseOfConcat` | src/cache-control.ts:17-74 | parsing two values joined by a comma is parsing both, when the first ends unquoted |
| `CacheControl.ParseOfJoined` | src/cache-control.ts:17-74 | the same for any number of values |
| `CacheControlText.ParseOfPrint` | src/cache-control.ts:40-72 | a directive in any legal spelling (white space, token or quoted-string value, escapes, any letter case of the name) parses back to itself |
| `CacheControlGrammar.ParsedIff` | src/cache-control.ts:40-72 | a member contributes a directive if and only if it is some legal spelling of it: nothing malformed is read, not even in part |
| `CacheControlGrammar.TokenCharIff` | src/cache-control.ts:6 | the token characters are visible ASCII without the double quote and the delimiters of section 5.6.2 of RFC 9110 |
| `CacheControlGrammar.SpaceIff` | src/cache-control.ts:41 | trimming removes exactly the white space and line terminators of ECMA-262 |
| `CacheControlGrammar.QuotableIff` | src/cache-control.ts:66 | a backslash escapes exactly tab, space, visible ASCII and the characters from 128 to 255; before any other it stays |
| `CacheControlText.PrintIsOneMember` | src/cache-control.ts:23-37 | a printed directive leaks neither a comma nor an open quote to its neighbours |
| `CacheControlText.ParseOfPrintList` | src/cache-control.ts:17-74 | any printed directive list parses back to the same list |
| `CacheFreshness.VerdictDependsOnRelevantSet` | src/cache-control.ts:102-131 | the freshness verdict is a function of the set of relevant directives |
| `CacheFreshness.VerdictIgnoresOrder` | src/cache-control.ts:102-131 | permuting, repeating or regrouping well-formed members does not change the verdict |
| `CacheFreshness.VerdictIgnoresUnrelated` | src/cache-control.ts:102-131 | inserting members the verdict does not look at changes nothing |
| `CacheFreshness.VetoWins` | src/cache-control.ts:104-110 | an unqualified no-store, no-cache or private anywhere closes the window |
| `CacheFreshness.UnqualifiedOfConcat` | src/cache-control.ts:76-81 | a directive is unqualified in a joined value if and only if it is in one of the parts, the name compared without case |
| `CacheFreshnessText.FreshnessOfPrinted` | src/cache-control.ts:102-131 | a written value grants a window if and only if it holds no bare no-store, no-cache or private, and it holds a positive s-maxage, or a positive max-age with no s-maxage value, or a positive stale-while-revalidate or stale-if-error |
| `CacheFreshnessText.UnqualifiedOfPrinted` | src/cache-control.ts:76-81 | a directive is found unqualified if and only if it is written bare, in any letter case |
| `Paths.NormalizeKeepsStack` | src/adapter.ts:321-326 | normalising a path keeps what it resolves to |
| `Paths.UnderIffSegments` | src/adapter.ts:388-389 | a directory text plus a slash starts a path text if and only if its segments properly start the segments of the path |
| `Paths.InsideExtendsBase` | src/adapter.ts:447-449 | segments that do not climb out on their own stay above any base they are joined to |
| `Paths.DotsStayAndUndo` | src/adapter.ts:321-326 | one dot stays, two dots undo the name before them, and a name goes down one level |
| `Paths.DotsAboveTheStart` | src/adapter.ts:321-326 | above the start of a relative path two dots pile up, above the root they are lost |
| `Paths.NormalizeKeepsOuterSlashes` | src/adapter.ts:321-326 | normalising keeps whether a path is absolute and whether it ends with a slash |
| `AssetStaging.EscapesIff` | src/adapter.ts:321-326 | the textual escape test holds if and only if the path is absolute or its segment stack starts with `..` |
| `AssetStaging.RelativeRoundTrip` | src/adapter.ts:329-332 | joining a relative path to its start resolves to its target |
| `AssetStaging.RebasedKeyStaysInside` | src/adapter.ts:335-349 | a rebased key starts at the last `node_modules` of the normalised key, or lies under the external directory, and never climbs |
| `AssetStaging.DestinationEscapesIff` | src/adapter.ts:328-360 | the destination escapes if and only if the asset is absolute, textually under the project directory, and resolves outside it; the key never matters |
| `AssetStaging.NormalisedAssetNeverEscapes` | src/adapter.ts:328-360 | for a relative or normalised asset the destination never escapes, for any key |
| `AssetStaging.UnnormalisedAssetEscapes` | src/adapter.ts:328-333 | for every project directory but the root there is an un-normalised asset whose destination escapes |
| `AssetStaging.BackstopAcceptsIff` | src/adapter.ts:385-400 | the backstop accepts if and only if the joined destination has the stage directory as a segment prefix |
| `AssetStaging.StagedWithinContext` | src/adapter.ts:447-450 | for a relative or normalised asset the staged file lands below the stage directory and the backstop never fires |
| `AssetStaging.ProjectAssetKeepsItsPlace` | src/adapter.ts:328-332 | an asset of the project is staged at the same place relative to it |
| `AssetStaging.AssetLandsAt` | src/adapter.ts:324-360 | an asset of the project lands at its path below the project directory, any other where its normalised key says, and a key that leaves the context at its last node_modules or below the external directory without its climbs |
| `PackageStaging.LookUpDependencies` | src/adapter.ts:610-626 | the inner loop looks up each unseen dependency of the staged package once, and adds no more to the queue than it takes from the unseen names |
| `PackageStaging.StagePackageTree` | src/adapter.ts:591-628 | the worklist ends; each name is staged at most once and warned about at most once; a completed run is a closure; a name that leaves the context stops it |
| `PackageStaging.DependencyIsSettled` | src/adapter.ts:612-619 | every declared dependency of a staged package is staged or reported, never both, as resolved from the first staged package that declares it |
| `PackageStaging.NestedCopyComesFirst` | src/adapter.ts:616-619 | a dependency is staged from the copy nested with its first declarer, else from the copy of the app, and with neither it is reported |
| `PackageStaging.StagedIsReached` | src/adapter.ts:591-628 | every staged package is reached from the root by a chain of declared dependencies, each resolved from the one before |
| `PackageStaging.MissingIsDeclared` | src/adapter.ts:616-625 | a name is reported only if it resolves to nothing from the first staged package that declares it |
| `RedirectRetry.PrepareRequest` | src/routing-common.ts:1554-1611 | exactly the control headers a client sent are deleted, and the answer is the one computed from the headers that remain |
| `RequestPreparation.PreparationOutcome` | src/routing-common.ts:1573-1584 | a request is refused with 400 if and only if its escapes are malformed, and else moved with 308 if and only if two slashes meet |
| `RequestPreparation.PreparedRequest` | src/routing-common.ts:1585-1611 | a ready request is flagged as a data request if and only if its path is one; it stands for its page; and a locale is added if and only if there are locales, the page path is not under `/_next/` or `/api/`, names no locale, and is not an index page that detects another locale |
| `RequestPreparation.ControlHeaderIff` | src/routing-common.ts:1571-1575 | the headers removed from a request are those starting with x-middleware- but the prefetch hint |
| `RequestPreparation.FirstLocaleWins` | src/routing-common.ts:1503-1508 | a path segment names the first configured locale that it spells in any case, or none |
| `RequestPreparation.BehindBasePath` | src/routing-common.ts:1233-1238 | the base path is stripped at a segment boundary only |
| `RedirectRetry.RetriedIff` | src/routing-common.ts:1411-1459 | a redirect is retried if and only if it leads, on the same origin and not as a 307, from an unprefixed path to that same path behind a locale in any case |
| `RedirectRetry.RetryUrlNamesSamePage` | src/routing-common.ts:1455-1459 | a retry URL keeps origin and query, and behind base path and locale it is the page first asked for |
| `RedirectRetry.RetryHappensAtMostOnce` | src/routing-common.ts:1554-1656 | preparing a retry URL and normalising whatever the resolver answers is never another retry, for every base path, locale list and redirect |
| `RedirectRetry.RetryIsNotPrefixedAgain` | src/routing-common.ts:1356-1396 | preparing a retry URL adds no second locale and leaves the URL alone if and only if its path is not a data request, and only a locale spelt `_next` can make it one |
| `RedirectRetry.NextLocaleMakesDataRequest` | src/routing-common.ts:1586-1599 | wherever a locale is spelt `_next`, a request under `/data/<build>/` has a retry URL that is a data request |
| `RedirectRetry.RetryIsNotCollapsed` | src/routing-common.ts:1580-1584 | a retry URL is not answered with the slash-collapsing redirect, for a base path without repeated or trailing slash |
| `RedirectRetry.CollapseHappensAtMostOnce` | src/routing-common.ts:1816-1824 | following the slash-collapsing redirect is never answered with another one, and the query is kept |
| `RedirectLocales.PrefixComesOff` | src/routing-common.ts:1388-1395 | the locale prefix preparation adds comes off again: behind the base path it is the same page in the added locale, and nothing else of the URL changed |
| `RedirectLocales.PagePreparedInDefaultLocale` | src/routing-common.ts:1356-1396 | an unprefixed page is prepared as that page in the default locale of the host, and preparing the result adds nothing more; only an index page that detects another locale is left as it is |
| `RedirectLocales.DataRequestNamesItsPage` | src/routing-common.ts:1586-1599 | a page's `/_next/data` URL is prepared as the page's own path, with the configured trailing slash |
| `RedirectLocales.DataRequestNamesTheRoot` | src/routing-common.ts:1586-1599 | the root page's data URL is prepared as the root, or as the base path with the configured trailing slash |
| `RedirectLocales.CollapseKeepsSegments` | src/routing-common.ts:1816-1824 | collapsing slashes keeps the non-empty segments of a path, in order |
| `RedirectLocales.LeakedLocaleIsStripped` | src/routing-common.ts:1461-1471 | a redirect of an unprefixed request that captured the added locale, in any case, is answered without exactly that locale |
| `RedirectLocales.RewrittenIff` | src/routing-common.ts:1411-1473 | a redirect is rewritten if and only if the request is unprefixed and the target is a locale root with a stray slash (on another origin, or a 307 from the root), which is trimmed, or another page of the same origin behind the added locale in any case, which is stripped |
| `RedirectLocales.KeptIff` | src/routing-common.ts:1411-1473 | a redirect is kept if and only if it is neither retried nor rewritten |
| `RedirectLocales.LeakedLocationIsStripped` | src/routing-common.ts:1482-1528 | a `Location` that captured the added locale loses it and may only gain a query |
| `RedirectLocales.SlashFlipKeepsQuery` | src/routing-common.ts:1482-1528 | a trailing-slash redirect of an unprefixed page shows no internal locale and keeps the query of the request |
| `RedirectAnswers.EveryAnswer` | src/routing-common.ts:1616-1680 | every resolution: a redirect of the resolver is retried, corrected or passed on with its status; a Location under one of the five redirect statuses is answered with that status; anything else goes on |
| `RedirectAnswers.RedirectAnswer` | src/routing-common.ts:1411-1473 | a resolver redirect is retried in the locale the target names, loses a stray root slash or a leaked locale, or is kept, exactly as stated over the URLs |
| `RedirectAnswers.LocationAnswer` | src/routing-common.ts:1482-1528 | a Location of another origin is kept; on the same origin exactly a shown locale is taken out, and exactly a trailing-slash redirect without a query keeps that of the request |
| `PoolClassification.MatchPool` | src/classify.ts:47-73 | a pool receives, once each, exactly the ids its routes match and no earlier pool took |
| `PoolClassification.MatchesSomeIff` | src/classify.ts:56-67 | the candidates of some route hold an output if and only if a route names the list the output is in, or selects its pathname |
| `PoolClassification.ClassifyIntoPools` | src/classify.ts:39-117 | classification succeeds if and only if every functional output is matched by some pool; otherwise it names the first that is not |
| `PoolClassification.ClassificationPartitions` | src/classify.ts:39-117 | with unique ids every functional output is in exactly one pool, once: the first in config order with a matching route |
| `PoolAssignment.CollectOutputPathnames` | src/manifest.ts:62-88 | the list is sorted, duplicate-free and holds exactly the pathnames of the pages, API pages, app pages, routes, prerenders and static files, the alias of `/index` and the middleware |
| `PoolAssignment.AssignHandlers` | src/manifest.ts:205-219 | the first loop records, for every pathname and id, the last pool that holds it |
| `PoolAssignment.AssignPools` | src/manifest.ts:199-247 | the three loops assign every pathname its handler pool, else the pool of the first prerender with a known parent, else the first pool |
| `PoolAssignment.EveryPathnameIsAssigned` | src/manifest.ts:236-247 | with a pool configured every collected pathname is assigned one of the pools |
| `PoolAssignment.HandlerIsAssignedItsPool` | src/manifest.ts:205-212 | a handler whose pathname is its own is assigned the first pool whose routes match it |
| `PoolAssignment.PrerenderFollowsItsParent` | src/manifest.ts:220-234 | a prerender with a known parent goes to the first pool whose routes match the parent, unless a handler has its pathname or an earlier prerender at it inherited a pool |
| `PoolAssignment.RootAliasFallsToFirstPool` | src/manifest.ts:236-247 | the `/` alias of `/index` falls to the first pool when nothing else has that pathname |

## Left out

- HMAC and SHA-256 internals, timing-safe comparison and secret handling: the MAC is a function from secret and transcript to 64 hex digits.
- Collision-freeness of the MAC in general: `TrustBindsCoveredInputs` asks it only of the two transcripts compared, which an injective MAC satisfies.
- The freshness window as read from the environment (`src/routing-common.ts:583-589`): one parameter bounds both sides, as the code defines the skew from the age.
- Latin-1 re-encoding of target or header text that is not octets is modelled as cutting each code unit; Node never hands such text to the pool.
- The derivation of build header names from matchers and RSC configuration: they are a parameter, in lower case as that derivation makes them.
- Regular expressions with braces that are not counted quantifiers (`\u{...}`, `\p{...}`, a literal brace) are not syntax trees of the model: the walker reads such a brace as a quantifier.
- The walker skips one code unit after a backslash; the model's characters make no difference between code units and code points.
- The rest of the unsafe-pattern check (compilation, the polynomial-redos detector).
- How the legacy hash's input is put together from request headers (`rscCacheBustingInput`): it is a parameter, absent or a list of code units.
- I/O errors while factoring (a failed rename or unlink stops the run and may leave a file in one pool): the model's file operations succeed, and `lstat` sees what the digest reads.
- The order of `localeCompare` and of `runBounded` workers in the move phase: `MoveShared` takes the file operations in an arbitrary order instead.
- Digest read errors in `DigestScheduler`: every started digest finishes.
- Promotion and cutover code: only what the cleaner's comments promise of it (the marker is renewed before a flip and stays unexpired while the promotion is open) is a rule of the step system. `SuccessfulPatchSparesLiveTraffic` adds that the state is committed after the selectors are flipped, as `src/cutover/run.ts:214-232` does.
- Whether a removed pool's stable Service still selects a standby: the cleaner checks current pools and the origin only, and the model claims no more.
- The pool-name check of the cleaner: the names in a topology are taken as safe.
- List items without a uid or resourceVersion, truncated lists and label selectors in the cleaner: an API failure ends the run.
- Deleting the claim (`destroy`), cache-mode transitions, dry runs and namespace creation in the deploy hosts' protocol; parameters of the provider call other than project and region.
- HTTP range and conditional handling, an ETag the pool has already set, boot-time inventory checks, and Go's slice growth in the middle cache: retained bytes count slice lengths.
- A disk that changes under the middle cache: `Serve` is about an unchanging one, as the image's files are, and so is `MiddleCacheContent`; the bounds of `MiddleCacheServing` hold whatever is read.
- `rebasedAssetWarnings`, and what `stageFile` does after the containment check (existing destinations, copying, failure collection).
- Windows paths; the project and stage directories are absolute and resolved, as the build gives them.
- Copy failures and unreadable manifests in `stagePackageTree` other than as "no dependencies"; optional dependencies are staged elsewhere.
- Percent-encoding by the URL setters: pathnames are kept as text, and the target of a `Location` header is given already resolved.
- The source of `normalizeLocalePath` is not part of this model: it is taken to detect the first path segment, compared without case.
- `resolvedHeaders` on redirects, which pass through unchanged; `detectLocale` and `detectDomainLocale`, which are parameters.
- Glob semantics and the escaping of Next's dynamic segments in selectors: one predicate over pathname and route spec.
- Route specs that name a property every JavaScript object inherits, for which the type-key lookup misfires.
- Pool names are non-empty, as configuration validation has ensured before classification.
- Timeouts, PPR routes and the rest of the routing manifest.
- JavaScript sorts by UTF-16 code unit; the model's strings are ordered by character, which differs only outside the basic plane.
- `cel.ts`, `config.ts`, `cdn-tags.ts`, `static-asset-headers.ts`, `target-platform.ts`, `native-artifacts.ts`, `runtime-image-prune.ts`, `destroy.ts`, `doctor.ts`, `describe.ts`, `emulate.ts`, `container-runtime.ts`: orchestration, printing and field checks, with no state or branching to reason about.
