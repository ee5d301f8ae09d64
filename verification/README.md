# FairWins control plane: verified models

Dafny models of the parts of the FairWins repository whose job is to be right: the comparator that
decides whether two builds are the same code, the cache that serves mini-app packages, the scripts
that deploy and resume, and the gates that must account for every recorded address. `dafny verify
dfyconfig.toml` checks everything.

| files | what they model |
|---|---|
| `Hex`, `Cbor`, `CompareStripped`, `SolcTrailer` | `scripts/codegen/compare-stripped.js`: a strict decoder for a fragment of CBOR (section 3 of RFC 8949, definite lengths, additional information below 24, 24 or 25), the split of a runtime object into code and metadata, the splice of creation code, the gate over two trees, and all of it on the trailer text the compiler writes |
| `Lru`, `PackageCache` | `frontend/public/sw.js`: the eviction policy, and the cache in fault-free sequence |
| `CacheInterleaving`, `CacheAnswers`, `CacheAgreement`, `CacheSerial`, `CacheOverlap`, `CacheTheft` | the same cache under every interleaving, fault, termination and wipe; what each request is answered with; which runs leave cache and index in agreement; serial runs as the sequential cache |
| `Deployment`, `DeploymentRuns`, `DeploymentOutcomes`, `DeploymentTargets`, `DeploymentScripts` | `scripts/deploy/init-deployment-record.js`, `deploy-fee-router.js`, `deploy-bridge-liquidity.js` as programs that may stop between any two steps and be run again, for the shared estate or a tenant: the world and its steps, what every run keeps, what a run achieves, what it requires and hands to fresh proxies, and the scripts themselves |
| `VerifyPlan`, `VerifyRun`, `VerifyVerdict`, `VerifyExit`, `VerifySharedKey` | `scripts/deploy/verify.js`: the plan, the bytecode pre-flight, the submissions, the verdict, the exit code, and a run over a key in two places |
| `Literals`, `ConstructorArgs`, `Predictions`, `ComparePredictions` | `scripts/deploy/predict-addresses.js`: literal-only evaluation, agreement of call sites, comparison with the records |
| `StorageGate` | `scripts/deploy/check-storage-layout.js` |
| `AbiMerge`, `TemplateScanner`, `TemplateGrammar`, `BlockScan`, `GridLayout` | `scripts/codegen/emit-abis.js`, `scripts/deps/check-dependency-hygiene.js`, `scripts/admin/resolve-admin-markets.js`, `scripts/finops/generate-dashboards.js` |
| `Results`, `Sequences` | shared datatypes and facts |

What runs outside the programs is a parameter: what the chain, the explorer or a file answers is an
arbitrary function or value, keccak256, CREATE2 and ABI encoding are uninterpreted, and OpenZeppelin's
layout comparison is an arbitrary relation.

## What the proofs found

Where the code and what is said about it part, the model follows the code and the difference is proved.

- **compare-stripped.** A pass means the same keys and, under each, the same code before a complete
  trailer; that direction and its converse are `PassExactly`, and `Gate` exits 0 exactly then. The splice
  of creation code forgets where the trailer was: with `--strict-creation` a pass still accepts code moved
  from one side of the trailer to the other (`PassForgetsPlace`). Which pairs of creation texts a strict
  pass accepts, with the block on both sides, on one or on none, is exact in `StrictExactly`; the codes
  around the last blocks are equal exactly when those stand at the same place (`StrictSamePlace`).
- **sw.js.** Two requests that read the index before either writes it lose one use, without any fault
  (`LostUpdate`). For first uses that fit the ceiling, any number of them in any order, cache and index
  agree at the end if and only if no request reads the index while another is between its read and its
  write (`AgreementExactly`). That condition alone is not enough once the cache is full: a package just
  found may be evicted before its use is recorded, and is then listed but not stored (`Theft`). With that
  excluded as well, every run ends in agreement (`Agreement`), the serial runs among them
  (`SerialIsSequential`).
- **The deployment scripts under a tenant.** All three read the record from `deployments/`, and save it to
  the scope that `TENANT_ID` names, which
  `specs/072-white-label-tenants/quickstart.md` tells operators to set. For a tenant a second bootstrap
  resets the record of the first (`InitResetsTenant`), every fee router run over a shared record without
  a router deploys another and replaces the saved one (`FeeReplacesTenant`), and over one with a router
  it overwrites the tenant's whole record (`FeeOverwritesTenant`). Every campaign keeps every saved record
  exactly when `TENANT_ID` is unset, `fairwins`, or malformed (`SafeExactly`); a malformed one is refused
  only at the save, after the proxy is deployed (`MalformedOrphans`). What a tenant's run does never
  touches the shared record or another tenant's (`CampaignKeeps`).
- **deploy-bridge-liquidity.** It exits 0 over services registered with another cap or kind. Exit 0
  gives presence; cap and kind hold exactly when nothing had drifted before the run (`BridgeExits`).
  `deploy-fee-router.js` does check (`FeeExits`). On a local network a recorded address that carries no
  code is replaced, and only there (`ReplacedExactly`); uniqueness is stated with that exception.
- **verify.js.** The guard on an empty success never decides (`ExitExactly`), and the sentence about
  giving up after six attempts is never reached (`VerifyOne`). After a rejected key the summary calls
  every address accounted for, but lists no proxy behind the stop (`LastProxy`), and drops a source
  whose key also occurs before the stop; it lists all sources exactly when no key lies on both sides
  (`ListedExactly`, `SharedKeyDropped`).
- **predict-addresses.** Agreement of call sites is agreement of JSON forms: it cannot tell `1n` from
  `"1"`, `0` from `-0`, or one infinity from the other, and nothing else (`FormExactly`). A disagreement
  that involves a BigInt is not reported but thrown, because the message serialises the arguments
  without the replacer (`ResolveConstructorArgs`), and so is the report about agreed arguments that hold
  one and do not encode (`BuildPrediction`). A prediction keeps a BigInt inside a list as it is, so that
  serialising its arguments fails exactly when some argument is such a list (`KeptExactly`): comparing
  `[[1n]]` with any record that holds arguments throws (`NestedThrows`, `Candidates`).
- **check-storage-layout.** Declaring an implementation unverifiable never lowers the count of diffed
  ones and never silences an incompatible one, although a comment expects the diffed floor to catch new
  declarations (`DeclaringDiffsNothing`).
- **emit-abis.** A signature text names a tuple only `tuple`. Two overloads that differ inside a tuple
  collide: one is dropped, and which one depends on the order (`TupleOverloads`). The output is the same
  for every order of the entries inside the facets if and only if no facet holds two different entries of
  one signature that no earlier facet has (`CanonicalExactly`). Every selector of every facet survives
  exactly when texts tell selectors apart (`SelectorsCovered`).
- **check-dependency-hygiene.** A comment says offsets are kept. They are exactly when the scan never
  enters a template, which is when an odd run of backslashes stands before every backtick; a backslash at
  the very end adds one character (`OffsetsExactly`).

## Model

| member | source | states |
|---|---|---|
| Hex.BytesInjective | scripts/codegen/compare-stripped.js:359 | comparing clean hex texts compares the byte strings they spell |
| Hex.DigitExactly | scripts/codegen/compare-stripped.js:98-119 | the digits are the sixteen characters 0 to f and no other, each worth its place |
| Hex.ReadsText | scripts/codegen/compare-stripped.js:119 | writing bytes as two digits each, high half first, and reading them gives the bytes |
| Hex.WritesBytes | scripts/codegen/compare-stripped.js:119 | and the other way round for every clean text |
| Hex.LowerExactly | scripts/codegen/compare-stripped.js:95 | lower case changes exactly the capitals, each to its small letter |
| Cbor.ConsumedBytes | scripts/codegen/compare-stripped.js:118-168 | the cursor loop returns what the recursive decoder over the same heads returns, for every offset and limit |
| Cbor.Walk | scripts/codegen/compare-stripped.js:142-167 | the loop over key and value pairs against any head reader that moves forward |
| Cbor.ExactThreshold | scripts/codegen/compare-stripped.js:118-168 | the encoding of an accepted map of length n, anywhere in any bytes, is consumed with result n for exactly the limits that leave it room |
| Cbor.EntriesThreshold | scripts/codegen/compare-stripped.js:149-166 | entries laid out in order are decoded to their end if they fit under the limit, and refused otherwise |
| Cbor.MapSpelled | scripts/codegen/compare-stripped.js:142-167 | whatever is accepted is the encoding of some map of the grammar |
| Cbor.AcceptsExactly | scripts/codegen/compare-stripped.js:107-168 | the decoder accepts with length n if and only if the n bytes at the offset are one whole map of the accepted grammar and lie inside the limit |
| Cbor.WindowOnly | scripts/codegen/compare-stripped.js:121-140 | bytes outside the declared block never influence the result |
| Cbor.PrefixFree | scripts/codegen/compare-stripped.js:118-168 | no accepted map is a proper prefix of another |
| Cbor.HeadBytes | scripts/codegen/compare-stripped.js:126-140 | a head byte by byte: major type in the top three bits, lengths high byte first |
| CompareStripped.NormalizeExactly | scripts/codegen/compare-stripped.js:91-105 | normalising yields a clean text exactly for 0x followed by that many hex digits in either case |
| CompareStripped.CutFinds | scripts/codegen/compare-stripped.js:174-230 | non-empty code followed by a trailer is cut exactly between the two |
| CompareStripped.CutSound | scripts/codegen/compare-stripped.js:174-230 | every cut leaves a complete trailer behind it |
| CompareStripped.SplitExactly | scripts/codegen/compare-stripped.js:174-230 | split round trip, both ways: a split succeeds with this code and block if and only if the object is non-empty code followed by a complete trailer |
| SolcTrailer.SolcSplits | scripts/codegen/compare-stripped.js:174-230 | code followed by the compiler's trailer text, whatever the 34-byte hash and the version, splits exactly there |
| SolcTrailer.SolcRuntime | scripts/codegen/compare-stripped.js:233-240 | and is that code under that trailer as a runtime field |
| CompareStripped.RuntimeExactly | scripts/codegen/compare-stripped.js:233-240 | which runtime fields give which side of the comparison |
| CompareStripped.StrippedExactly | scripts/codegen/compare-stripped.js:246-264 | splicing removes the last occurrence of the block and nothing else, or nothing when there is none |
| CompareStripped.CreationSideExactly | scripts/codegen/compare-stripped.js:246-264 | the creation side carries code exactly when the field is clean hex that becomes this code by the splice |
| CompareStripped.CreationExactly | scripts/codegen/compare-stripped.js:381-417 | the creation comparison finds no fault exactly when both sides are blank or both strip to code, equal under the strict flag |
| CompareStripped.Judge | scripts/codegen/compare-stripped.js:324-417 | one turn of the loop charges exactly the failures the four sides deserve and keeps every counter balanced |
| CompareStripped.Report | scripts/codegen/compare-stripped.js:288-439 | the report holds exactly the failures of all keys of both trees, and each of the seven counters is the number of keys it stands for |
| CompareStripped.Gate | scripts/codegen/compare-stripped.js:288-449 | exit 2 exactly for an empty tree; exit 0 exactly when the trees are not empty and agree; exit 1 otherwise |
| CompareStripped.CleanPairExactly | scripts/codegen/compare-stripped.js:324-417 | a pair is charged with nothing exactly when both are the same code under complete trailers and the creation codes agree |
| CompareStripped.RuntimeKinds | scripts/codegen/compare-stripped.js:324-378 | when each failure of the runtimes is charged, by the two fields |
| CompareStripped.CreationKinds | scripts/codegen/compare-stripped.js:381-417 | when each failure of the creation codes is charged, by the two fields |
| CompareStripped.PassExactly | scripts/codegen/compare-stripped.js:299-449 | no false pass and no false alarm over two whole trees |
| CompareStripped.SpliceExactly | scripts/codegen/compare-stripped.js:246-264 | what is compared is equal if and only if the two texts are the same up to where each has its last block, for blocks on both sides, on one or on none |
| CompareStripped.SamePlaceSameCode | scripts/codegen/compare-stripped.js:251-257 | with the last blocks at a and b: equal splices and a = b if and only if the texts in front of the blocks and behind them are equal |
| CompareStripped.StrictExactly | scripts/codegen/compare-stripped.js:381-417 | what a strict pass over a pair says of its two creation texts, both ways |
| CompareStripped.StrictSamePlace | scripts/codegen/compare-stripped.js:381-417 | a strict pass with the last blocks at the same place is the same code around them, both ways |
| CompareStripped.PassForgetsPlace | scripts/codegen/compare-stripped.js:251-257 | counterexample family: a strict pass over creation codes that differ by where the trailer stands |
| Lru.RunIsRecency | frontend/public/sw.js:104-111 | after any history the bounded index is the list of distinct URLs by last use, cut at the limit |
| Lru.RecencyMeaning | frontend/public/sw.js:104-111 | that list has every used URL once, by decreasing last use |
| Lru.RecencyUnique | frontend/public/sw.js:104-111 | and is the only such list |
| Lru.SmallerIsPrefix | frontend/public/sw.js:104-111 | the index at a smaller ceiling is a prefix of the index at a larger one |
| Lru.HitExactly | frontend/public/sw.js:104-111 | a URL is indexed if and only if it was used and fewer distinct URLs than the limit were used since |
| PackageCache.IndexIsNoPackage | frontend/public/sw.js:61-91 | the index key is never taken for a package URL |
| PackageCache.PackageExactly | frontend/public/sw.js:64-91 | a package URL is http or https with a path of ipfs, a content identifier and at least one more segment, whatever the host |
| PackageCache.CidExactly | frontend/public/sw.js:63-64 | the two forms of a content identifier |
| PackageCache.ReadsBack | frontend/public/sw.js:114-132 | reading the index returns what was written |
| PackageCache.Cache.RecordUse | frontend/public/sw.js:126-139 | recording a use leaves exactly the contents the policy gives |
| PackageCache.Cache.Serve | frontend/public/sw.js:150-167 | one request: the answer and the new contents, for a hit, a storable miss and any other response |
| PackageCache.AnswerExactly | frontend/public/sw.js:150-167 | cache first, then the network's response as it came, then a rejection |
| PackageCache.ServeExactly | frontend/public/sw.js:150-167 | what a request leaves: a miss changes nothing unless the response is ok and readable; otherwise the URL is listed first and stored, and nothing else is added |
| PackageCache.EvictsAtMostOne | frontend/public/sw.js:104-139 | from any index without repetition within the ceiling a use evicts at most one entry, one exactly when the index is full and the URL new, and none that stays indexed |
| PackageCache.SequentialAgreement | frontend/public/sw.js:126-167 | after any fault-free sequence the stored package keys are exactly the index's entries |
| PackageCache.SequentialBound | frontend/public/sw.js:46-139 | and number at most 60 |
| PackageCache.SequentialHits | frontend/public/sw.js:150-167 | a request is a hit exactly when its URL was used and fewer than 60 others since |
| CacheInterleaving.AskingKeepsInv | frontend/public/sw.js:150-167 | each await of serving, faulting or not, keeps the cache's invariant |
| CacheInterleaving.BookkeepingKeepsInv | frontend/public/sw.js:126-139 | so does each await of the bookkeeping, termination and loss of the whole cache |
| CacheInterleaving.RunKeepsInv | frontend/public/sw.js:114-167 | the invariant holds after every interleaving |
| CacheInterleaving.Transparency | frontend/public/sw.js:150-167 | every answer from the cache is one that an earlier ok, readable fetch of that very URL returned |
| CacheInterleaving.FetchedOrigin | frontend/public/sw.js:157-160 | everything in the fetch history has a fetch step of that URL behind it |
| CacheInterleaving.ImmutableContent | frontend/public/sw.js:66-91 | with content fixed by the URL, every served answer is that content |
| CacheInterleaving.IndexStaysGood | frontend/public/sw.js:104-139 | the stored index stays free of repetition, within the ceiling, and holds package URLs only |
| CacheInterleaving.LostUpdate | frontend/public/sw.js:126-139 | counterexample: a run without faults after which a stored package is not indexed |
| CacheAnswers.AnsweredExactly | frontend/public/sw.js:150-167 | under any interleaving and faults, each request gets what the network gave it, unchanged even if storing failed; a rejection exactly if its lookup or fetch failed; a copy exactly if the network was not asked |
| CacheAnswers.SaidExactly | frontend/public/sw.js:157-158 | what the network gave a request is the response of its own last fetch step, by positions in the run |
| CacheAnswers.WritesWhatItRead | frontend/public/sw.js:126-139 | the index a request writes is the one it read, or none if reading failed, with its URL moved to the head; never after a failed delete |
| CacheAgreement.Agreement | frontend/public/sw.js:126-167 | every run in which no request reads the index inside another's section, and no package waiting to be recorded is evicted, ends with the stored packages being the indexed ones |
| CacheSerial.SerialIsSequential | frontend/public/sw.js:126-167 | refinement: a serial run has the contents and the answers of the sequential cache on its requests, whose network replies are those of the fetch steps |
| CacheSerial.SerialAgrees | frontend/public/sw.js:126-167 | so serial runs end in agreement with the policy's index |
| CacheOverlap.FirstUsesExactly | frontend/public/sw.js:126-139 | first uses that fit the ceiling, however interleaved: all are indexed at the end if and only if no index section is disturbed |
| CacheOverlap.AgreementExactly | frontend/public/sw.js:126-167 | and cache and index agree at the end if and only if none is |
| CacheTheft.Theft | frontend/public/sw.js:126-167 | counterexample: a full cache, no fault and no disturbed section, and a package that is indexed and not stored |
| Deployment.TablesAreDistinct | scripts/deploy/lib/feeServices.js:18-33 | no service label occurs twice in the two tables together |
| Deployment.VerifyProtocolAddresses | scripts/deploy/deploy-bridge-liquidity.js:146-224 | the guard reports nothing if and only if every configured address is reachable and carries code, none belongs to another chain, and the manager reports the configured factory |
| Deployment.GuardExactly | scripts/deploy/deploy-bridge-liquidity.js:146-224 | the guard address by address, with Base's own contracts refused on every other chain |
| Deployment.TenantIdExactly | scripts/deploy/lib/helpers.js:58 | the pattern of a tenant id: a small letter, then 1 to 30 small letters, digits and hyphens |
| Deployment.UndriftedExactly | scripts/deploy/deploy-fee-router.js:185-206 | drift is a registered entry with another cap or another kind |
| Deployment.SendsBounded | scripts/deploy/deploy-fee-router.js:179-226 | over all runs a router is sent at most as many registrations as the tables have entries |
| DeploymentRuns.CampaignKeeps | scripts/deploy/deploy-fee-router.js:108-177 | crash-restart safety: any sequence of runs of the three scripts, each for any scope and stopped at any step, with others acting in between, never resets the shared record or the record of a tenant no run saves for, and keeps every recorded router there with no second proxy for it |
| DeploymentRuns.CampaignSends | scripts/deploy/deploy-fee-router.js:219-223 | over a whole campaign a router is sent at most as many registrations as the tables have entries |
| DeploymentRuns.CampaignFresh | scripts/deploy/deploy-fee-router.js:179-223 | every registration of a campaign is sent by a run that found the id unregistered, by a run or by anybody else, and was never sent before |
| DeploymentRuns.FeeKeeps | scripts/deploy/deploy-fee-router.js:66-257 | one run of the fee router script for any scope, wherever it stops: every saved record but that of the tenant it saves for is kept, and nothing is sent for a registered id |
| DeploymentRuns.BridgeKeeps | scripts/deploy/deploy-bridge-liquidity.js:263-472 | so for the bridge and liquidity script |
| DeploymentRuns.FeeSaves | scripts/deploy/deploy-fee-router.js:166-177 | what a run leaves in the slot of its scope: the record it read from the shared slot, with the router and its implementation |
| DeploymentRuns.InitResetsTenant | scripts/deploy/init-deployment-record.js:195-203 | counterexample: the shared slot is looked at and the tenant's slot overwritten |
| DeploymentRuns.TwoInits | scripts/deploy/init-deployment-record.js:195-253 | counterexample run: two bootstraps for one tenant, and the treasury the first saved is gone |
| DeploymentRuns.FeeReplacesTenant | scripts/deploy/deploy-fee-router.js:92-177 | counterexample: over a shared record without a fee router each run for a tenant deploys another proxy and replaces the saved address |
| DeploymentRuns.FeeOverwritesTenant | scripts/deploy/deploy-fee-router.js:92-177 | counterexample: over a shared record with a fee router the tenant's whole record becomes the shared one |
| DeploymentRuns.MalformedOrphans | scripts/deploy/lib/helpers.js:56-65 | with a TENANT_ID that is refused at the save, a proxy is deployed and no record knows it |
| DeploymentRuns.SafeExactly | scripts/deploy/lib/helpers.js:55-65 | every campaign with this TENANT_ID, from every state and on every network, keeps every saved record if and only if the text is empty, the default tenant's, or no tenant id at all |
| DeploymentOutcomes.FeeExits | scripts/deploy/deploy-fee-router.js:228-256 | exit 0: the router of this scope is recorded and reconciled, and every launch service is live with its cap and kind |
| DeploymentOutcomes.FeeConverges | scripts/deploy/deploy-fee-router.js:115-256 | from a resumable state with enough steps nothing is missing, and it exits 0 exactly when nothing had drifted |
| DeploymentOutcomes.FeeDeploysOnce | scripts/deploy/deploy-fee-router.js:115-164 | a run deploys at most one proxy, and only where the shared record has none |
| DeploymentOutcomes.RegisterTableConverges | scripts/deploy/deploy-fee-router.js:179-256 | the table is read, what is missing is sent, drift alone decides the exit |
| DeploymentOutcomes.RegisterStep | scripts/deploy/deploy-bridge-liquidity.js:437-452 | one turn of the bridge script's loop, against the table as the run found it |
| DeploymentOutcomes.RegisterMissingResult | scripts/deploy/deploy-bridge-liquidity.js:436-453 | every entry ends up present, and live as listed exactly when none had drifted |
| DeploymentOutcomes.ReplacedExactly | scripts/deploy/deploy-bridge-liquidity.js:359-383 | a recorded address gives way exactly on a local network, where it carries no code, and once the new proxy is saved |
| DeploymentOutcomes.RecordLiveResult | scripts/deploy/deploy-bridge-liquidity.js:385-411 | the record gets what the routers hold, not what the configuration says |
| DeploymentTargets.FeeGuarded | scripts/deploy/deploy-fee-router.js:75-134 | nothing changes on a main network without confirmation, without a record, or over a recorded router without code |
| DeploymentTargets.FeePoints | scripts/deploy/deploy-fee-router.js:98-150 | a fresh fee router pays into the stated treasury, or the recorded one, and no other proxy is retargeted |
| DeploymentTargets.FeeSends | scripts/deploy/deploy-fee-router.js:179-223 | new registrations go to the recorded or fresh router, which the deployer administers |
| DeploymentTargets.Unconfirmed | scripts/deploy/deploy-bridge-liquidity.js:282-286 | an unconfirmed run of either script on a main network changes nothing and exits 1 |
| DeploymentTargets.BridgeChanges | scripts/deploy/deploy-bridge-liquidity.js:263-316 | nothing at all changes without confirmation, a record, the address guard, and addresses to go on with |
| DeploymentTargets.BridgePoints | scripts/deploy/deploy-bridge-liquidity.js:338-411 | exit 0: a router that was missing, or lost on a local network, points at the SpokePool or the position manager gone by and charges through the chosen fee router; a kept one is unchanged; the record says what both point at, and the implementation of a fresh one |
| DeploymentTargets.FirstRunRecords | scripts/deploy/deploy-bridge-liquidity.js:338-411 | so after a first run the record holds what was configured |
| DeploymentTargets.BridgeSends | scripts/deploy/deploy-bridge-liquidity.js:418-452 | new registrations go to that fee router, which the deployer administers |
| DeploymentTargets.BridgeSavesEach | scripts/deploy/deploy-bridge-liquidity.js:359-383 | wherever a run stops, every proxy it deployed but possibly the last is recorded |
| DeploymentOutcomes.BridgeExits | scripts/deploy/deploy-bridge-liquidity.js:263-472 | exit 0: both routers recorded with code, both services present, and live as listed exactly when nothing had drifted before |
| DeploymentOutcomes.BridgeDeploysOnce | scripts/deploy/deploy-bridge-liquidity.js:359-383 | a run deploys at most one proxy for each of its two keys and none for another |
| DeploymentOutcomes.BridgeConverges | scripts/deploy/deploy-bridge-liquidity.js:263-472 | from a resumable state with enough steps it exits 0, with configured addresses or, on a local network with none, with the stand-ins |
| DeploymentOutcomes.InitExits | scripts/deploy/init-deployment-record.js:85-253 | a record is created exactly where the shared slot is empty, for a settled chain id, a stated treasury, a deployer that resolves and a scope that can be saved; what it holds |
| DeploymentScripts.Estate.FeeRouterMain | scripts/deploy/deploy-fee-router.js:66-257 | the step-by-step script is the run the theorems speak of, and what they say of it: guard, target, sends, exit and convergence |
| DeploymentScripts.Estate.Register | scripts/deploy/deploy-fee-router.js:220-223 | the one place that sends a registration demands an unregistered id, and both loops meet that at every call |
| DeploymentScripts.Estate.ReadTable | scripts/deploy/deploy-fee-router.js:179-209 | the reading loop finds the missing entries in order, and drift exactly when an entry is live with another cap or kind |
| DeploymentScripts.Estate.SendMissingOnes | scripts/deploy/deploy-fee-router.js:219-223 | the sending loop is the recursive sending, wherever it stops |
| DeploymentScripts.Estate.BridgeMain | scripts/deploy/deploy-bridge-liquidity.js:263-472 | likewise for the bridge and liquidity script |
| DeploymentScripts.Estate.DeployLocalDoubles | scripts/deploy/deploy-bridge-liquidity.js:234-261 | recorded stand-ins that are live are the ones returned and nothing changes; otherwise fresh addresses get code |
| DeploymentScripts.Estate.RegisterEach | scripts/deploy/deploy-bridge-liquidity.js:436-453 | the loop that registers what is absent is the recursive one, wherever it stops |
| DeploymentScripts.Estate.SaveDeployment | scripts/deploy/lib/helpers.js:935-949 | the scope of the run decides which slot is written, and a malformed one writes none |
| DeploymentScripts.Estate.InitMain | scripts/deploy/init-deployment-record.js:85-253 | likewise for the bootstrap, with the exact condition of exit 0 and the whole new state |
| DeploymentScripts.Estate.Campaign | scripts/deploy/deploy-fee-router.js:108-177 | a campaign of the real scripts keeps what the theorems say |
| VerifyPlan.Route | scripts/deploy/verify.js:556-646 | the branches send an entry with a value to the bucket whose condition it meets |
| VerifyPlan.RouteExactly | scripts/deploy/verify.js:556-646 | the conditions of the five buckets exclude each other, and each determines the item |
| VerifyPlan.PlanExactly | scripts/deploy/verify.js:549-655 | each bucket of the finished plan holds exactly the items of the recorded entries, of both bags, that belong there |
| VerifyPlan.LookupExactly | scripts/deploy/verify.js:594 | looking up an implementation gives the value recorded under that key, and nothing without one |
| VerifyPlan.GatheredInOrder | scripts/deploy/verify.js:549-648 | each bucket keeps the order of the record |
| VerifyPlan.GatheredCounts | scripts/deploy/verify.js:549-648 | every key is accounted for as often as it has a value |
| VerifyPlan.GatheredPlaces | scripts/deploy/verify.js:549-648 | every item stems from an entry that belongs where the item is |
| VerifyPlan.SortStable | scripts/deploy/verify.js:650-652 | sorting keeps the record's order within a rank |
| VerifyPlan.BuildPlan | scripts/deploy/verify.js:538-655 | partition: exactly one place for every key with a value, the place where it belongs, submissions by rank and record order |
| VerifyRun.VerifyOne | scripts/deploy/verify.js:688-734 | the result is the answer to the first of at most six replies that is not worth repeating, or to the sixth |
| VerifyRun.ConcludedOnce | scripts/deploy/verify.js:695-732 | there is only one such answer |
| VerifyRun.ConcludedExactly | scripts/deploy/verify.js:695-732 | what each outcome says of the deciding attempt, in the terms of the reply: accepted, already verified, rejected for the key, or rejected otherwise |
| VerifyRun.SucceedsExactly | scripts/deploy/verify.js:695-732 | the outcome is a success exactly when some attempt of the six was accepted or met verified code, after rejections worth repeating |
| VerifyRun.MoveKeepsCounts | scripts/deploy/verify.js:887-898 | moving an address without code neither loses nor duplicates a key |
| VerifyRun.CheckCode | scripts/deploy/verify.js:870-901 | the pre-flight stops exactly at an unreadable address; otherwise exactly the items without code become unverifiable, in order, and every key's count is conserved |
| VerifyVerdict.SubmitSources | scripts/deploy/verify.js:906-929 | one result for each item in order; after a rejected key the rest is listed as not attempted, by key |
| VerifyVerdict.ListedExactly | scripts/deploy/verify.js:922-928 | an aborted run lists every source exactly once if and only if no key lies on both sides of the abort |
| VerifySharedKey.SharedKeyDropped | scripts/deploy/verify.js:906-929 | counterexample, a whole run: one key under contracts and mocks, a rejected API key, and the second planned address is in no list |
| VerifyVerdict.LinkProxies | scripts/deploy/verify.js:931-950 | one attempt for each proxy, stopped only by a rejected key |
| VerifyVerdict.ExitMatchesVerdict | scripts/deploy/verify.js:954-967 | exit 1 exactly when the printed verdict is a FAILED one, counted from different counters |
| VerifyVerdict.ExitExactly | scripts/deploy/verify.js:954-967 | exit 0 exactly when nothing is unverifiable, nothing was aborted and every source is verified; the guard on an empty success never decides |
| VerifyExit.Housed | scripts/deploy/verify.js:526-655 | a present entry without a report is in one of the four other buckets, as itself |
| VerifyExit.CleanExplains | scripts/deploy/verify.js:526-967 | a clean run explains every recorded address: verified, already verified, not ours, historical, or a proxy whose recorded implementation is verified |
| VerifyExit.AlarmIsReal | scripts/deploy/verify.js:557-901 | no false alarm: what is reported as unverifiable is the recorded address of an entry that belongs there, or of one that was to be submitted and was read without code |
| VerifyExit.DryExactly | scripts/deploy/verify.js:549-655 | a dry run finds nothing unverifiable exactly when no recorded value lacks a source, arguments or an entry |
| VerifyExit.LastProxy | scripts/deploy/verify.js:931-945 | an aborted run shows no line for the last proxy |
| VerifyExit.Prepare | scripts/deploy/verify.js:774-901 | what stops a run before any submission, and the plan it goes on with |
| VerifyExit.VerifyRecord | scripts/deploy/verify.js:774-967 | exit-code soundness of a whole run: exit 0 of a run that submits exactly when no key was rejected, nothing is unverifiable and every source was accepted or already verified within six attempts; the other exits, and conservation from the record to the summary |
| Literals.LiteralSound | scripts/deploy/predict-addresses.js:355-397 | an accepted expression has the returned value in every environment |
| Literals.LiteralExactly | scripts/deploy/predict-addresses.js:362-397 | exactly the closed grammar of literals, templates without holes, negated numerals and arrays without gaps is accepted |
| Literals.QuoteRoundTrip | scripts/deploy/predict-addresses.js:362-397 | every plain value is written by some accepted expression, which evaluates to it |
| Literals.NegateExactly | scripts/deploy/predict-addresses.js:377-383 | a number and its negation cancel, and the signs of zero and infinity change |
| ConstructorArgs.FormExactly | scripts/deploy/predict-addresses.js:538 | which plain values one JSON form stands for |
| ConstructorArgs.DecimalInjective | scripts/deploy/predict-addresses.js:538 | different BigInts have different texts |
| ConstructorArgs.DecimalExactly | scripts/deploy/predict-addresses.js:538 | the text of a BigInt spells it, without a leading zero |
| ConstructorArgs.FormComesBack | scripts/deploy/predict-addresses.js:538 | parsing a JSON form gives the value back, but for BigInts, the negative zero and the infinities |
| ConstructorArgs.LocateExactly | scripts/deploy/predict-addresses.js:447-471 | a call is found exactly when the salt text, the salt variable or being the only candidate singles it out, the first kind that does deciding |
| ConstructorArgs.SiteExactly | scripts/deploy/predict-addresses.js:494-523 | an occurrence supplies arguments exactly when its script parses, its call is found and its argument is a list of literals |
| ConstructorArgs.ResolveConstructorArgs | scripts/deploy/predict-addresses.js:481-554 | arguments are resolved if and only if some site supplies literals and all that do agree in JSON form; when a disagreement is reported and when it is thrown |
| ConstructorArgs.AgreedEverywhere | scripts/deploy/predict-addresses.js:481-554 | resolved arguments are what every supplying call site evaluates to in every environment, up to what a JSON form forgets |
| Predictions.UnreplacedExactly | scripts/deploy/predict-addresses.js:886 | serialising without the replacer fails exactly on a BigInt at any depth, and otherwise gives the form the replacer gives |
| Predictions.KeptExactly | scripts/deploy/predict-addresses.js:688-886 | with BigInts at the top turned into text it fails exactly when some argument is a list with a BigInt inside; otherwise the form is that of the agreed arguments |
| Predictions.BuildPrediction | scripts/deploy/predict-addresses.js:651-694 | a group is predicted exactly when the supplied arguments agree and encode, with those arguments; when it throws instead of reporting |
| Predictions.NestedExample | scripts/deploy/predict-addresses.js:355-397 | `[[1n]]` is an accepted literal whose kept form cannot be serialised |
| ComparePredictions.Candidates | scripts/deploy/predict-addresses.js:877-903 | the candidate addresses are the static one and those of recorded arguments that differ from it as JSON; it throws exactly when there are recorded arguments to compare and a static argument is a list with a BigInt inside |
| ComparePredictions.FirstHit | scripts/deploy/predict-addresses.js:914-926 | a pair of recorded value and candidate is found if and only if there is one |
| ComparePredictions.CompareOne | scripts/deploy/predict-addresses.js:853-936 | match if and only if some recorded value is some candidate, mismatch if and only if there are candidates and none matches, and an unreadable record is never reported as not deployed |
| ComparePredictions.ReportsExactly | scripts/deploy/predict-addresses.js:830-935 | each status by the record's own maps of contracts, mocks and arguments |
| ComparePredictions.NestedThrows | scripts/deploy/predict-addresses.js:886 | counterexample: static arguments `[[1n]]` and recorded arguments, whatever they are |
| ComparePredictions.RepeatsAreHarmless | scripts/deploy/predict-addresses.js:886 | leaving out recorded arguments that repeat the static ones loses no candidate |
| ComparePredictions.RowsTotal | scripts/deploy/predict-addresses.js:956-957 | the five counts add up to predictions times records |
| ComparePredictions.CompareDeployed | scripts/deploy/predict-addresses.js:938-969 | every prediction meets every usable record once, and the counts tell how |
| ComparePredictions.Tally | scripts/deploy/predict-addresses.js:956-957 | each counter is the number of comparisons with its status |
| StorageGate.LoadRecordedImpls | scripts/deploy/check-storage-layout.js:199-222 | exactly the implementations that readable records of known chains name, at the top or else under contracts, off the two local chains; and exactly the local records skipped |
| StorageGate.LoadManifestLayouts | scripts/deploy/check-storage-layout.js:225-255 | the map gives for a chain and address the layout recorded last on that chain |
| StorageGate.LayoutAtExactly | scripts/deploy/check-storage-layout.js:225-255 | the layout of an address is the one the manifests of its chain give last, and none exactly if none does |
| StorageGate.ChainScoped | scripts/deploy/check-storage-layout.js:113-124 | manifests of other chains never supply a layout |
| StorageGate.RunGate | scripts/deploy/check-storage-layout.js:270-418 | exit 0 if and only if every facet pair and contract is upgrade-safe, every recorded implementation is compatible or declared, and every floor is met; the counters observed are the counts |
| StorageGate.SoundAllExactly | scripts/deploy/check-storage-layout.js:304-347 | what a pass asks of the recorded implementations, by the files and manifests alone |
| StorageGate.CountExactly | scripts/deploy/check-storage-layout.js:304-347 | what a floor is held against is the number of record files naming such an implementation on the chain |
| StorageGate.PassCovers | scripts/deploy/check-storage-layout.js:304-347 | a pass covers every implementation a record names off the local chains: the layout last committed on its own chain is compatible, or none is committed and it is declared |
| StorageGate.PassCoversContracts | scripts/deploy/check-storage-layout.js:211 | so one named under contracts with nothing at the top |
| StorageGate.PassConserves | scripts/deploy/check-storage-layout.js:304-347 | on each chain of a pass, records are the diffed ones and the declared ones |
| StorageGate.PassGrows | scripts/deploy/check-storage-layout.js:178-180 | adding a record file whose implementations are sound keeps a pass, wherever the listing puts it |
| StorageGate.DeclaringDiffsNothing | scripts/deploy/check-storage-layout.js:175-176 | declared gaps change neither the count of diffed nor of incompatible implementations |
| AbiMerge.MergeAbis | scripts/codegen/emit-abis.js:64-76 | the loop with its set of seen texts computes the merge |
| AbiMerge.SigExactly | scripts/codegen/emit-abis.js:52-54 | a signature text identifies kind, name and input types, tuples up to what they hold |
| AbiMerge.MergeOneEach | scripts/codegen/emit-abis.js:64-76 | no signature text occurs twice |
| AbiMerge.MergeCovers | scripts/codegen/emit-abis.js:64-76 | the signature texts are exactly those of the facets |
| AbiMerge.MergeMember | scripts/codegen/emit-abis.js:56-76 | each entry comes from the earliest facet that has its signature |
| AbiMerge.SortedUnique | scripts/codegen/emit-abis.js:79-86 | a sorted ABI without repetition is determined by its entries |
| AbiMerge.SortExactly | scripts/codegen/emit-abis.js:79-86 | the output holds the same entries, by kind and within a kind by signature text |
| AbiMerge.RankExactly | scripts/codegen/emit-abis.js:80 | the order of the kinds, and any other kind behind them |
| AbiMerge.Canonical | scripts/codegen/emit-abis.js:79-117 | reordering the entries inside each facet does not change the output, where no facet brings two different entries of one new signature |
| AbiMerge.CanonicalExactly | scripts/codegen/emit-abis.js:56-117 | the output is the same for every order of the entries inside the facets if and only if no facet holds two different entries of one signature that no earlier facet has |
| AbiMerge.SelectorsCovered | scripts/codegen/emit-abis.js:52-76 | every selector of every facet is kept if and only if signature texts tell selectors apart |
| AbiMerge.TupleOverloads | scripts/codegen/emit-abis.js:53-54 | counterexample family: overloads with different tuples collide, and the order decides which survives |
| TemplateScanner.StripTemplateLiterals | scripts/deps/check-dependency-hygiene.js:205-227 | the index scanner terminates and emits what a machine reading one character at a time emits |
| TemplateScanner.SkipTemplate | scripts/deps/check-dependency-hygiene.js:211-222 | the inner loop stops where the machine leaves the template |
| TemplateScanner.SplitsExactly | scripts/deps/check-dependency-hygiene.js:205-227 | scanning in two parts is scanning the whole, for every continuation, if and only if the first part ends outside |
| TemplateScanner.OutputIsPlain | scripts/deps/check-dependency-hygiene.js:205-227 | no backtick and no backslash is emitted |
| TemplateScanner.StripTwice | scripts/deps/check-dependency-hygiene.js:205-227 | idempotence, and the texts left unchanged are exactly those without backtick and backslash |
| TemplateScanner.OffsetsExactly | scripts/deps/check-dependency-hygiene.js:205-227 | every character keeps its place or becomes a space if and only if the scan never enters a template, that is if every backtick is escaped; the exact length then |
| TemplateGrammar.TemplatesTakenOut | scripts/deps/check-dependency-hygiene.js:205-227 | exactly the templates are taken out, whatever substitutions, templates and escapes are nested in them; an unclosed one takes the rest |
| BlockScan.Discover | scripts/admin/resolve-admin-markets.js:76-103 | the two-level scan finds exactly the ids of events up to the current block outside chunks refused twice |
| BlockScan.ScanSmall | scripts/admin/resolve-admin-markets.js:88-102 | the second try covers its chunk completely, small chunk by small chunk |
| GridLayout.NeverOverlaps | scripts/finops/generate-dashboards.js:43-60 | whatever is called in whatever order, panels are pairwise disjoint and inside the 24 columns |
| GridLayout.Layout.PlaceFull | scripts/finops/generate-dashboards.js:47-51 | a full-width block goes below everything placed so far |
| GridLayout.Layout.PlaceCols | scripts/finops/generate-dashboards.js:53-58 | so does a row of equal columns |
| GridLayout.Build | scripts/finops/generate-dashboards.js:43-60 | what the layout object hands out over a run of calls is packed |
| GridLayout.PlaceSources | scripts/finops/generate-dashboards.js:177-183 | each source gets one panel, two per row, in catalogue order |

## Left out

- DeploymentScripts.Estate: two runs of the scripts at the same time; a crash between the first proxy transaction and the first save leaves a proxy no record knows, so uniqueness starts with the save.
- DeploymentScripts.Estate: awaits in a row that only read the chain are one step; what another party does in between is modelled between runs.
- DeploymentScripts.Estate: comparison of the live with the stated treasury, the sanctions guard, the HubPool and factory noted in the record, deploy blocks and timestamps, which change no decision; deterministic addresses under a tenant's salt, so a proxy here always has an unused address.
- DeploymentRuns.CampaignKeeps: says nothing of the record of a tenant some run saves for, which the code does not keep; `SafeExactly` has when that matters.
- CacheAgreement.Agreement: one direction only for repeated uses and full caches; a later use may repair what a disturbed section lost, so a run may break the condition and still end in agreement.
- CompareStripped.Gate: keys are visited in some order instead of sorted order; collecting artifacts from directories and checking arguments are not part of this model.
- Cbor: reason texts; the decoder's errors are kept apart only by kind. UTF-8 of text strings is not checked, as in the original.
- CacheInterleaving: fragments of URLs, the Vary header and request methods; a cache key is a URL.
- PackageCache: URL parsing; a URL comes with scheme, host and path segments.
- VerifyRun.VerifyOne: back-off times, and the patterns themselves; a message says which of the three patterns it matches.
- VerifyPlan.BuildPlan: how arguments are reconstructed from the record, which the catalog gives; labels and reasons; top-level external addresses, which are only listed.
- VerifyExit.VerifyRecord: a proxy is explained by its implementation for catalogs in which every implementation key is catalogued as our source, which the catalog of verify.js meets.
- Literals: parsing and the text of reasons; NaN is not a value of its own, no literal denotes it.
- Predictions.BuildPrediction: grouping by identifier, the contract-name conflict, a missing artifact and linked libraries, each of which ends in an unpredictable entry; printing the report, which serialises arguments without the replacer as well.
- ComparePredictions: recorded arguments are in the form that serialising gives them; a contract's artifact, constructor and ABI encoding are one function from recorded arguments to an address or none.
- StorageGate.RunGate: the printed total of comparisons and the note about chains without a floor; a record file that is valid JSON but null stops the original with exit 1 and is not part of this model.
- AbiMerge.Canonical: locale-aware comparison is an arbitrary total order on texts; curated event subsets and file writing.
- TemplateScanner: the line filter before the scanner, the import pattern and the grouping of version ranges, one toggle and one grouping.
- BlockScan: fetching and resolving markets after the scan, which routes each status to one list.
- GridLayout: panel contents; heights are natural numbers.
- Real regular expressions, keystores, RPC, explorer and Grafana calls, logging and process exit.
